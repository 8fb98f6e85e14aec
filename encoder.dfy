/**
 * The per-pixel normal encoder of `generateNormalMap`: optional height
 * inversion, scaling by strength against a fixed z of 1, normalisation,
 * mapping to [0, 1], optional red/green inversion, and rounding to bytes.
 */
module Encoder {
  import opened RealMath
  import opened Kernels

  /** The five settings one generation runs with. `filter` is the selected radio button's value. */
  datatype Config = Config(strength: real, filter: string,
                           invertHeight: bool, invertRed: bool, invertGreen: bool)

  datatype Vec3 = Vec3(x: real, y: real, z: real)

  /** The three rounded colour values `Math.round` yields, before the byte store clamps them. */
  datatype Rgb = Rgb(r: int, g: int, b: int)

  function Negate(g: Gradient): Gradient
  {
    Gradient(-g.gx, -g.gy)
  }

  /** Invert height flips the gradient. */
  function Orient(g: Gradient, invertHeight: bool): Gradient
  {
    if invertHeight then Negate(g) else g
  }

  /** The unnormalised normal: the gradient scaled by strength, with a fixed z of 1. */
  function Tilt(g: Gradient, strength: real): Vec3
  {
    Vec3(g.gx * strength, g.gy * strength, 1.0)
  }

  function SquaredLength(v: Vec3): real
  {
    v.x * v.x + v.y * v.y + v.z * v.z
  }

  /** The Euclidean length of a vector: the square root of its squared length. */
  function Length(v: Vec3, sqrt: real -> real): real
  {
    sqrt(SquaredLength(v))
  }

  /** Divide by the length when it is positive; otherwise fall back to straight up. */
  function Normalise(v: Vec3, sqrt: real -> real): Vec3
  {
    var length := Length(v, sqrt);
    if length > 0.0 then Vec3(v.x / length, v.y / length, v.z / length)
    else Vec3(0.0, 0.0, 1.0)
  }

  /** The unit normal `generateNormalMap` derives from one gradient. */
  function NormalOf(g: Gradient, cfg: Config, sqrt: real -> real): Vec3
  {
    Normalise(Tilt(Orient(g, cfg.invertHeight), cfg.strength), sqrt)
  }

  /** A signed component in [-1, 1] mapped to [0, 1]. */
  function ToUnit(c: real): real
  {
    (c + 1.0) * 0.5
  }

  /** The red, green and blue components in [0, 1], after the requested channel inversions. */
  function Components(g: Gradient, cfg: Config, sqrt: real -> real): Vec3
  {
    var n := NormalOf(g, cfg, sqrt);
    var red := ToUnit(n.x);
    var green := ToUnit(n.y);
    Vec3(if cfg.invertRed then 1.0 - red else red,
         if cfg.invertGreen then 1.0 - green else green,
         ToUnit(n.z))
  }

  /** Each component times 255, rounded by `Math.round`. */
  function Encode(g: Gradient, cfg: Config, sqrt: real -> real): Rgb
  {
    var c := Components(g, cfg, sqrt);
    Rgb(Round(c.x * 255.0), Round(c.y * 255.0), Round(c.z * 255.0))
  }

  /**
   * Normalisation against z = 1 yields a unit vector whose z is positive for
   * any strength, so the zero-length fallback is never taken.
   */
  lemma TiltedNormalIsUnit(g: Gradient, strength: real, sqrt: real -> real)
    requires IsSqrt(sqrt)
    ensures 1.0 <= Length(Tilt(g, strength), sqrt)
    ensures var n := Normalise(Tilt(g, strength), sqrt);
            && n.x * n.x + n.y * n.y + n.z * n.z == 1.0
            && 0.0 < n.z <= 1.0 && -1.0 < n.x < 1.0 && -1.0 < n.y < 1.0
  {
    var v := Tilt(g, strength);
    var len := Length(v, sqrt);
    assert Normalise(v, sqrt) == Vec3(v.x / len, v.y / len, 1.0 / len) by {
      SqrtOfTilt(v, sqrt);
    }
    SqrtOfTilt(v, sqrt);
    DividedByLength(v.x, v.y, len);
  }

  /** The length of a tilted vector (z = 1) is at least 1 and squares back to its squared length. */
  lemma SqrtOfTilt(v: Vec3, sqrt: real -> real)
    requires IsSqrt(sqrt) && v.z == 1.0
    ensures 1.0 <= Length(v, sqrt)
    ensures Length(v, sqrt) * Length(v, sqrt) == v.x * v.x + v.y * v.y + 1.0
  {
    SquareMonotone(0.0, if v.x >= 0.0 then v.x else -v.x);
    SquareMonotone(0.0, if v.y >= 0.0 then v.y else -v.y);
    SqrtAtLeastOne(sqrt, SquaredLength(v));
  }

  /** Dividing (x, y, 1) by its length gives a unit vector with positive z and x, y strictly inside [-1, 1]. */
  lemma DividedByLength(x: real, y: real, len: real)
    requires 1.0 <= len && len * len == x * x + y * y + 1.0
    ensures (x / len) * (x / len) + (y / len) * (y / len) + (1.0 / len) * (1.0 / len) == 1.0
    ensures 0.0 < 1.0 / len <= 1.0
    ensures -1.0 < x / len < 1.0 && -1.0 < y / len < 1.0
  {
    var p, q, r := x / len, y / len, 1.0 / len;
    assert p * len == x && q * len == y && r * len == 1.0;
    var sum := p * p + q * q + r * r;
    assert sum * (len * len) == (p * len) * (p * len) + (q * len) * (q * len) + (r * len) * (r * len);
    assert (len * len) * sum == (len * len) * 1.0;
    SquareMonotone(1.0, len);
    CancelPositive(len * len, sum, 1.0);
    SquareMonotone(0.0, if y >= 0.0 then y else -y);
    SquareMonotone(0.0, if x >= 0.0 then x else -x);
    SquareBelow(x, len);
    SquareBelow(y, len);
    QuotientBelowOne(x, len);
    QuotientBelowOne(y, len);
    QuotientBelowOne(1.0, len + 1.0);
    if r > 1.0 {
      MulMonotone(len, 1.0, r);
      assert false;
    }
  }

  /** Red and green lie strictly inside [0, 1] and blue strictly above 1/2, whatever the flags and strength. */
  lemma ComponentsInRange(g: Gradient, cfg: Config, sqrt: real -> real)
    requires IsSqrt(sqrt)
    ensures var c := Components(g, cfg, sqrt);
            0.0 < c.x < 1.0 && 0.0 < c.y < 1.0 && 0.5 < c.z <= 1.0
  {
    TiltedNormalIsUnit(Orient(g, cfg.invertHeight), cfg.strength, sqrt);
  }

  /** The rounded channels are bytes already, with blue at least 128: the surface always faces the viewer. */
  lemma EncodeInRange(g: Gradient, cfg: Config, sqrt: real -> real)
    requires IsSqrt(sqrt)
    ensures var rgb := Encode(g, cfg, sqrt);
            0 <= rgb.r <= 255 && 0 <= rgb.g <= 255 && 128 <= rgb.b <= 255
  {
    ComponentsInRange(g, cfg, sqrt);
  }

  /** A zero gradient encodes as (128, 128, 255) for every strength and every flag. */
  lemma FlatNormal(cfg: Config, sqrt: real -> real)
    requires IsSqrt(sqrt)
    ensures NormalOf(Gradient(0.0, 0.0), cfg, sqrt) == Vec3(0.0, 0.0, 1.0)
    ensures Components(Gradient(0.0, 0.0), cfg, sqrt) == Vec3(0.5, 0.5, 1.0)
    ensures Encode(Gradient(0.0, 0.0), cfg, sqrt) == Rgb(128, 128, 255)
  {
    var v := Tilt(Orient(Gradient(0.0, 0.0), cfg.invertHeight), cfg.strength);
    assert v == Vec3(0.0, 0.0, 1.0);
    SqrtAtLeastOne(sqrt, 1.0);
    assert Round(0.5 * 255.0) == 128;
    assert Round(1.0 * 255.0) == 255;
  }

  /** With strength 0 every gradient is flattened away. */
  lemma ZeroStrengthIsFlat(g: Gradient, cfg: Config, sqrt: real -> real)
    requires IsSqrt(sqrt) && cfg.strength == 0.0
    ensures Encode(g, cfg, sqrt) == Rgb(128, 128, 255)
  {
    assert Tilt(Orient(g, cfg.invertHeight), 0.0) == Tilt(Orient(Gradient(0.0, 0.0), cfg.invertHeight), 0.0);
    FlatNormal(cfg, sqrt);
  }

  /** Invert height is exactly negating the gradient; nothing else depends on the flag. */
  lemma InvertHeightNegatesGradient(g: Gradient, cfg: Config, sqrt: real -> real)
    ensures Encode(g, cfg.(invertHeight := true), sqrt)
         == Encode(Negate(g), cfg.(invertHeight := false), sqrt)
  {
  }

  /**
   * A negative strength is not rejected, and does not turn the surface away
   * from the viewer: it acts exactly as toggling invert height.
   */
  lemma NegativeStrengthTogglesHeight(g: Gradient, cfg: Config, sqrt: real -> real)
    ensures Encode(g, cfg.(strength := -cfg.strength), sqrt)
         == Encode(g, cfg.(invertHeight := !cfg.invertHeight), sqrt)
  {
    var s := cfg.strength;
    var o := Orient(g, cfg.invertHeight);
    assert Tilt(o, -s) == Tilt(Negate(o), s);
    assert Orient(g, !cfg.invertHeight) == Negate(o);
  }

  /** Invert red replaces the red component r by 1 - r and touches nothing else. */
  lemma InvertRedReflects(g: Gradient, cfg: Config, sqrt: real -> real)
    ensures var on := Components(g, cfg.(invertRed := true), sqrt);
            var off := Components(g, cfg.(invertRed := false), sqrt);
            on.x == 1.0 - off.x && on.y == off.y && on.z == off.z
  {
  }

  /** Invert green replaces the green component g by 1 - g and touches nothing else. */
  lemma InvertGreenReflects(g: Gradient, cfg: Config, sqrt: real -> real)
    ensures var on := Components(g, cfg.(invertGreen := true), sqrt);
            var off := Components(g, cfg.(invertGreen := false), sqrt);
            on.x == off.x && on.y == 1.0 - off.y && on.z == off.z
  {
  }

  /**
   * On the bytes, invert red maps red v to 255 - v, except when 255 times the
   * red component is a half-integer, where rounding half up gives 256 - v.
   * Green and blue are unchanged.
   */
  lemma InvertRedByte(g: Gradient, cfg: Config, sqrt: real -> real)
    ensures var on := Encode(g, cfg.(invertRed := true), sqrt);
            var off := Encode(g, cfg.(invertRed := false), sqrt);
            var red := Components(g, cfg.(invertRed := false), sqrt).x * 255.0;
            && on.r == (if IsTie(red) then 256 - off.r else 255 - off.r)
            && on.g == off.g && on.b == off.b
  {
    var off := Components(g, cfg.(invertRed := false), sqrt);
    InvertRedReflects(g, cfg, sqrt);
    assert (1.0 - off.x) * 255.0 == 255.0 - off.x * 255.0;
    RoundReflect(off.x * 255.0);
  }

  /** The same for invert green on the green byte; red and blue are unchanged. */
  lemma InvertGreenByte(g: Gradient, cfg: Config, sqrt: real -> real)
    ensures var on := Encode(g, cfg.(invertGreen := true), sqrt);
            var off := Encode(g, cfg.(invertGreen := false), sqrt);
            var green := Components(g, cfg.(invertGreen := false), sqrt).y * 255.0;
            && on.g == (if IsTie(green) then 256 - off.g else 255 - off.g)
            && on.r == off.r && on.b == off.b
  {
    var off := Components(g, cfg.(invertGreen := false), sqrt);
    InvertGreenReflects(g, cfg, sqrt);
    assert (1.0 - off.y) * 255.0 == 255.0 - off.y * 255.0;
    RoundReflect(off.y * 255.0);
  }
}
