/**
 * The map driver of `generateNormalMap`: a row-major double loop that fills a
 * fresh RGBA buffer with the encoded normal of every pixel and copies each
 * pixel's alpha through unchanged.
 */
module Driver {
  import opened RealMath
  import opened Image
  import opened Kernels
  import opened Encoder

  /** The encoded normal of pixel (x, y) under one configuration. */
  function PixelAt(img: ImageData, cfg: Config, sqrt: real -> real, x: int, y: int): Rgb
    requires img.Valid()
  {
    Encode(GradientAt(img, x, y, cfg.filter), cfg, sqrt)
  }

  /** The per-pixel colour function the driver maps over the picture. */
  function Pixels(img: ImageData, cfg: Config, sqrt: real -> real): (int, int) -> Rgb
    requires img.Valid()
  {
    (x: int, y: int) => PixelAt(img, cfg, sqrt, x, y)
  }

  /** A `Uint8ClampedArray` store of an integer: values outside [0, 255] are clamped to the nearest end. */
  function ClampToByte(n: int): (b: Byte)
    ensures 0 <= n < 256 ==> b == n
    ensures n < 0 ==> b == 0
    ensures 255 < n ==> b == 255
  {
    if n < 0 then 0 else if n > 255 then 255 else n
  }

  /** Channel k (0 red, 1 green, otherwise blue) of an encoded colour. */
  function ColourChannel(c: Rgb, k: int): int
  {
    if k == 0 then c.r else if k == 1 then c.g else c.b
  }

  /**
   * Byte `i` of the output buffer: the alpha byte of the source at the same
   * index, or the clamped red, green or blue of the pixel that byte belongs to.
   */
  function OutputByte(img: ImageData, pixel: (int, int) -> Rgb, i: int): (b: Byte)
    requires img.Valid() && 0 <= i < |img.data|
    ensures i % 4 == 3 ==> b == img.data[i]
  {
    var p := i / 4;
    if i % 4 == 3 then img.data[i] else ClampToByte(ColourChannel(pixel(p % img.width, p / img.width), i % 4))
  }

  /** The buffer the driver fills from a per-pixel colour function; alpha passes through at every index. */
  function RgbaMap(img: ImageData, pixel: (int, int) -> Rgb): (out: seq<Byte>)
    requires img.Valid()
    ensures |out| == |img.data|
    ensures forall i | 0 <= i < |out| && i % 4 == 3 :: out[i] == img.data[i]
  {
    seq(|img.data|, i requires 0 <= i < |img.data| => OutputByte(img, pixel, i))
  }

  /** The normal map of a picture under one configuration. */
  function NormalMap(img: ImageData, cfg: Config, sqrt: real -> real): (out: seq<Byte>)
    requires img.Valid()
    ensures |out| == |img.data|
    ensures forall i | 0 <= i < |out| && i % 4 == 3 :: out[i] == img.data[i]
  {
    RgbaMap(img, Pixels(img, cfg, sqrt))
  }

  /** Byte k of pixel (x, y) sits at PixelIndex + k, and decoding that index gives back x, y and k. */
  lemma DecodeIndex(width: int, x: int, y: int, k: int)
    requires 0 <= x < width && 0 <= y && 0 <= k < 4
    ensures var i := PixelIndex(width, x, y) + k;
            i / 4 == y * width + x && i % 4 == k
            && (i / 4) % width == x && (i / 4) / width == y
  {
    var p := y * width + x;
    DivModUnique(PixelIndex(width, x, y) + k, 4, p, k);
    DivModUnique(p, width, y, x);
  }

  /** Euclidean quotient and remainder are the unique q, r with n == q * d + r and 0 <= r < d. */
  lemma DivModUnique(n: int, d: int, q: int, r: int)
    requires 0 < d && 0 <= r < d && n == q * d + r
    ensures n / d == q && n % d == r
  {
    var q', r' := n / d, n % d;
    assert n == q' * d + r' && 0 <= r' < d;
    if q' < q {
      MultipleAtLeast(q - q', d);
      assert false;
    }
    if q < q' {
      MultipleAtLeast(q' - q, d);
      assert false;
    }
  }

  /** A positive multiple of a positive number is at least that number. */
  lemma {:induction false} MultipleAtLeast(k: int, d: int)
    requires 1 <= k && 1 <= d
    ensures d <= k * d
  {
    if k > 1 {
      MultipleAtLeast(k - 1, d);
      assert k * d == (k - 1) * d + d;
    }
  }

  /** Byte k of pixel (x, y) in the output: its alpha when k is 3, else the clamped colour channel. */
  lemma OutputByteAt(img: ImageData, pixel: (int, int) -> Rgb, x: int, y: int, k: int, i: int)
    requires img.Valid() && 0 <= x < img.width && 0 <= y < img.height && 0 <= k < 4
    requires i == PixelIndex(img.width, x, y) + k
    ensures 0 <= i < |img.data|
    ensures OutputByte(img, pixel, i)
         == if k == 3 then img.data[i] else ClampToByte(ColourChannel(pixel(x, y), k))
  {
    PixelIndexInBounds(img.width, img.height, x, y);
    DecodeIndex(img.width, x, y, k);
  }

  /** The four output bytes of pixel (x, y): its encoded, clamped colour and its own alpha. */
  lemma NormalMapAt(img: ImageData, cfg: Config, sqrt: real -> real, x: int, y: int)
    requires img.Valid() && 0 <= x < img.width && 0 <= y < img.height
    ensures 0 <= PixelIndex(img.width, x, y) && PixelIndex(img.width, x, y) + 4 <= |img.data|
    ensures var i, out, c := PixelIndex(img.width, x, y), NormalMap(img, cfg, sqrt), PixelAt(img, cfg, sqrt, x, y);
            && out[i] == ClampToByte(c.r) && out[i + 1] == ClampToByte(c.g)
            && out[i + 2] == ClampToByte(c.b) && out[i + 3] == img.data[i + 3]
  {
    PixelIndexInBounds(img.width, img.height, x, y);
    var i, pixel := PixelIndex(img.width, x, y), Pixels(img, cfg, sqrt);
    OutputByteAt(img, pixel, x, y, 0, i);
    OutputByteAt(img, pixel, x, y, 1, i + 1);
    OutputByteAt(img, pixel, x, y, 2, i + 2);
    OutputByteAt(img, pixel, x, y, 3, i + 3);
  }

  /**
   * The driver loop: rows top to bottom, pixels left to right, each pixel
   * writing its four bytes once into a fresh, initially transparent-black
   * buffer.
   */
  method FillRgbaMap(img: ImageData, pixel: (int, int) -> Rgb) returns (out: array<Byte>)
    requires img.Valid()
    ensures fresh(out)
    ensures out[..] == RgbaMap(img, pixel)
  {
    var width, height := img.width, img.height;
    out := new Byte[width * height * 4](_ => 0);
    var y := 0;
    while y < height
      invariant 0 <= y <= height && out.Length == |img.data|
      invariant Filled(img, pixel, out[..], PixelIndex(width, 0, y))
    {
      FillRow(img, pixel, out, y);
      y := y + 1;
    }
    assert PixelIndex(width, 0, height) == out.Length;
    assert out[..] == RgbaMap(img, pixel);
  }

  /**
   * The buffer is done up to byte `n`: every byte before it holds its final
   * value, and every byte from it on is still the initial zero.
   */
  ghost predicate Filled(img: ImageData, pixel: (int, int) -> Rgb, buf: seq<Byte>, n: int)
    requires img.Valid() && |buf| == |img.data|
  {
    0 <= n <= |buf|
    && (forall i | 0 <= i < n :: buf[i] == OutputByte(img, pixel, i))
    && (forall i | n <= i < |buf| :: buf[i] == 0)
  }

  /** One row of the driver loop: pixels left to right across row y. */
  method FillRow(img: ImageData, pixel: (int, int) -> Rgb, out: array<Byte>, y: int)
    requires img.Valid() && out.Length == |img.data| && 0 <= y < img.height
    requires Filled(img, pixel, out[..], PixelIndex(img.width, 0, y))
    modifies out
    ensures Filled(img, pixel, out[..], PixelIndex(img.width, 0, y + 1))
  {
    var width := img.width;
    var x := 0;
    while x < width
      invariant 0 <= x <= width
      invariant Filled(img, pixel, out[..], PixelIndex(width, x, y))
    {
      var c := pixel(x, y);
      var index := (y * width + x) * 4;
      OutputByteAt(img, pixel, x, y, 0, index);
      OutputByteAt(img, pixel, x, y, 1, index + 1);
      OutputByteAt(img, pixel, x, y, 2, index + 2);
      OutputByteAt(img, pixel, x, y, 3, index + 3);
      out[index] := ClampToByte(c.r);
      out[index + 1] := ClampToByte(c.g);
      out[index + 2] := ClampToByte(c.b);
      out[index + 3] := img.data[index + 3];
      assert PixelIndex(width, x + 1, y) == index + 4;
      x := x + 1;
    }
    assert PixelIndex(width, width, y) == PixelIndex(width, 0, y + 1);
  }

  /** `generateNormalMap`: the driver run with the encoder of this configuration. */
  method GenerateNormalMap(img: ImageData, cfg: Config, sqrt: real -> real) returns (out: array<Byte>)
    requires img.Valid()
    ensures fresh(out)
    ensures out[..] == NormalMap(img, cfg, sqrt)
  {
    out := FillRgbaMap(img, Pixels(img, cfg, sqrt));
  }

  /** A picture of one colour maps to (128, 128, 255) at every pixel, with its alpha kept. */
  lemma UniformImageIsFlat(img: ImageData, r: Byte, g: Byte, b: Byte, cfg: Config, sqrt: real -> real)
    requires img.Valid() && UniformRgb(img, r, g, b) && IsSqrt(sqrt)
    ensures var out := NormalMap(img, cfg, sqrt);
            forall i | 0 <= i < |out| ::
              out[i] == (if i % 4 == 3 then img.data[i] else if i % 4 == 2 then 255 else 128)
  {
    var out := NormalMap(img, cfg, sqrt);
    forall i | 0 <= i < |out|
      ensures out[i] == (if i % 4 == 3 then img.data[i] else if i % 4 == 2 then 255 else 128)
    {
      var p := i / 4;
      var x, y := p % img.width, p / img.width;
      UniformImageHasZeroGradient(img, r, g, b, x, y, cfg.filter);
      FlatNormal(cfg, sqrt);
      assert Pixels(img, cfg, sqrt)(x, y) == Rgb(128, 128, 255);
    }
  }

  /** A 1x1 picture maps to the single pixel (128, 128, 255) with its own alpha. */
  lemma SinglePixelImage(img: ImageData, cfg: Config, sqrt: real -> real)
    requires img.Valid() && img.width == 1 && img.height == 1 && IsSqrt(sqrt)
    ensures NormalMap(img, cfg, sqrt) == [128, 128, 255, img.data[3]]
  {
    SinglePixelHasZeroGradient(img, cfg.filter);
    FlatNormal(cfg, sqrt);
  }

  /** Under a true square root the byte store never clamps: every encoded channel is already a byte. */
  lemma StoreNeverClamps(img: ImageData, cfg: Config, sqrt: real -> real, x: int, y: int)
    requires img.Valid() && IsSqrt(sqrt)
    ensures var c := PixelAt(img, cfg, sqrt, x, y);
            ClampToByte(c.r) == c.r && ClampToByte(c.g) == c.g && ClampToByte(c.b) == c.b
  {
    EncodeInRange(GradientAt(img, x, y, cfg.filter), cfg, sqrt);
  }
}
