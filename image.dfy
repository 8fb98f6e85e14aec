/**
 * The decoded source picture and the clamp-to-edge luminance sampler
 * (`getGrayscale`). A picture is a row-major RGBA byte buffer, four bytes per
 * pixel.
 */
module Image {

  /** One channel value of a `Uint8ClampedArray`. */
  type Byte = b: int | 0 <= b < 256

  /** The browser's `ImageData`: width, height and the RGBA bytes. */
  datatype ImageData = ImageData(width: int, height: int, data: seq<Byte>)
  {
    /**
     * What the browser guarantees of a picture read back from a canvas: at
     * least one pixel each way, and exactly four bytes per pixel.
     */
    predicate Valid()
    {
      1 <= width && 1 <= height && |data| == width * height * 4
    }
  }

  function Min(a: int, b: int): int { if a <= b then a else b }

  function Max(a: int, b: int): int { if a >= b then a else b }

  /**
   * A coordinate moved to the nearest edge of an axis of `size` pixels, and
   * left alone when it is already inside.
   */
  function ClampCoord(v: int, size: int): (c: int)
    ensures 1 <= size ==> 0 <= c < size
    ensures 0 <= v < size ==> c == v
    ensures 1 <= size && v < 0 ==> c == 0
    ensures 1 <= size && size <= v ==> c == size - 1
  {
    Max(0, Min(v, size - 1))
  }

  /** The index of the red byte of pixel (x, y) in a row-major RGBA buffer. */
  function PixelIndex(width: int, x: int, y: int): int
  {
    (y * width + x) * 4
  }

  /** Every pixel inside the picture has all four of its bytes inside the buffer. */
  lemma PixelIndexInBounds(width: int, height: int, x: int, y: int)
    requires 0 <= x < width && 0 <= y < height
    ensures 0 <= PixelIndex(width, x, y)
    ensures PixelIndex(width, x, y) + 4 <= width * height * 4
  {
    assert y * width + x < (y + 1) * width;
    assert (y + 1) * width <= height * width;
  }

  /**
   * The red-byte index `getGrayscale` reads for a requested coordinate: the
   * clamped pixel's, which is always inside the buffer, and the requested
   * pixel's own when that is inside the picture.
   */
  function SampleIndex(img: ImageData, x: int, y: int): (index: int)
    requires img.Valid()
    ensures 0 <= index && index + 3 < |img.data|
    ensures index % 4 == 0
    ensures 0 <= x < img.width && 0 <= y < img.height ==> index == PixelIndex(img.width, x, y)
  {
    var cx := ClampCoord(x, img.width);
    var cy := ClampCoord(y, img.height);
    PixelIndexInBounds(img.width, img.height, cx, cy);
    PixelIndex(img.width, cx, cy)
  }

  /** The fixed luma weights of `getGrayscale`, normalised by 255; alpha plays no part. */
  function Luma(r: Byte, g: Byte, b: Byte): (l: real)
    ensures 0.0 <= l <= 1.0
    ensures r == g == b ==> l == r as real / 255.0
  {
    (r as real * 0.299 + g as real * 0.587 + b as real * 0.114) / 255.0
  }

  /** `getGrayscale`: the luma of the pixel nearest to (x, y) inside the picture. */
  function Grayscale(img: ImageData, x: int, y: int): (l: real)
    requires img.Valid()
    ensures 0.0 <= l <= 1.0
  {
    var index := SampleIndex(img, x, y);
    Luma(img.data[index], img.data[index + 1], img.data[index + 2])
  }

  /** Channel `k` (0 red, 1 green, 2 blue, 3 alpha) of pixel (x, y). */
  function Channel(img: ImageData, x: int, y: int, k: int): Byte
    requires img.Valid()
    requires 0 <= x < img.width && 0 <= y < img.height && 0 <= k < 4
  {
    PixelIndexInBounds(img.width, img.height, x, y);
    img.data[PixelIndex(img.width, x, y) + k]
  }

  /** Every pixel has the colour (r, g, b); alpha may vary. */
  ghost predicate UniformRgb(img: ImageData, r: Byte, g: Byte, b: Byte)
    requires img.Valid()
  {
    forall x: int, y: int | 0 <= x < img.width && 0 <= y < img.height ::
      Channel(img, x, y, 0) == r && Channel(img, x, y, 1) == g && Channel(img, x, y, 2) == b
  }

  /**
   * Sampling is clamp-to-edge: a coordinate outside the picture reads the same
   * luma as the nearest pixel on its edge.
   */
  lemma GrayscaleClampsToEdge(img: ImageData, x: int, y: int)
    requires img.Valid()
    ensures Grayscale(img, x, y)
         == Grayscale(img, ClampCoord(x, img.width), ClampCoord(y, img.height))
  {
  }

  /** On a picture of one colour, every coordinate, inside or outside, reads that colour's luma. */
  lemma UniformGrayscale(img: ImageData, r: Byte, g: Byte, b: Byte, x: int, y: int)
    requires img.Valid() && UniformRgb(img, r, g, b)
    ensures Grayscale(img, x, y) == Luma(r, g, b)
  {
    var cx := ClampCoord(x, img.width);
    var cy := ClampCoord(y, img.height);
    assert Channel(img, cx, cy, 0) == r && Channel(img, cx, cy, 1) == g && Channel(img, cx, cy, 2) == b;
  }
}
