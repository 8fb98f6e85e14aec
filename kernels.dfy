/**
 * The two 3x3 gradient kernels applied to the eight neighbours of a pixel
 * inside `generateNormalMap`. Neighbours are numbered g1..g9 row by row; the
 * centre g5 is not sampled, so it has no field here.
 */
module Kernels {
  import opened Image

  /** The eight neighbour lumas around a pixel: g1 g2 g3 above, g4 g6 beside, g7 g8 g9 below. */
  datatype Neighbourhood = Neighbourhood(g1: real, g2: real, g3: real, g4: real,
                                         g6: real, g7: real, g8: real, g9: real)

  datatype Gradient = Gradient(gx: real, gy: real)

  datatype Kernel = Sobel | Scharr

  /** The filter name picks Scharr only when it is exactly "scharr"; anything else falls through to Sobel. */
  function SelectKernel(filter: string): (k: Kernel)
    ensures k == Scharr <==> filter == "scharr"
    ensures k == Sobel <==> filter != "scharr"
  {
    if filter == "scharr" then Scharr else Sobel
  }

  /** The eight clamped luma samples around (x, y). */
  function Sample(img: ImageData, x: int, y: int): (n: Neighbourhood)
    requires img.Valid()
    ensures InUnitRange(n)
  {
    Neighbourhood(Grayscale(img, x - 1, y - 1), Grayscale(img, x, y - 1), Grayscale(img, x + 1, y - 1),
                  Grayscale(img, x - 1, y),                               Grayscale(img, x + 1, y),
                  Grayscale(img, x - 1, y + 1), Grayscale(img, x, y + 1), Grayscale(img, x + 1, y + 1))
  }

  /** The horizontal and vertical gradient estimates of one kernel. */
  function Apply(k: Kernel, n: Neighbourhood): Gradient
  {
    match k
    case Scharr =>
      Gradient(-3.0 * n.g1 + 3.0 * n.g3 - 10.0 * n.g4 + 10.0 * n.g6 - 3.0 * n.g7 + 3.0 * n.g9,
               -3.0 * n.g1 - 10.0 * n.g2 - 3.0 * n.g3 + 3.0 * n.g7 + 10.0 * n.g8 + 3.0 * n.g9)
    case Sobel =>
      Gradient(-n.g1 + n.g3 - 2.0 * n.g4 + 2.0 * n.g6 - n.g7 + n.g9,
               -n.g1 - 2.0 * n.g2 - n.g3 + n.g7 + 2.0 * n.g8 + n.g9)
  }

  /** The gradient `generateNormalMap` computes at pixel (x, y) for the selected filter name. */
  function GradientAt(img: ImageData, x: int, y: int, filter: string): Gradient
    requires img.Valid()
  {
    Apply(SelectKernel(filter), Sample(img, x, y))
  }

  predicate InUnitRange(n: Neighbourhood)
  {
    && 0.0 <= n.g1 <= 1.0 && 0.0 <= n.g2 <= 1.0 && 0.0 <= n.g3 <= 1.0 && 0.0 <= n.g4 <= 1.0
    && 0.0 <= n.g6 <= 1.0 && 0.0 <= n.g7 <= 1.0 && 0.0 <= n.g8 <= 1.0 && 0.0 <= n.g9 <= 1.0
  }

  /** All eight neighbours have the same luma. */
  predicate Flat(n: Neighbourhood)
  {
    n.g1 == n.g2 == n.g3 == n.g4 == n.g6 == n.g7 == n.g8 == n.g9
  }

  /** Every neighbour raised by the same amount. */
  function Raise(n: Neighbourhood, c: real): Neighbourhood
  {
    Neighbourhood(n.g1 + c, n.g2 + c, n.g3 + c, n.g4 + c, n.g6 + c, n.g7 + c, n.g8 + c, n.g9 + c)
  }

  /** The neighbourhood seen in a mirror held vertically (left and right columns swapped). */
  function MirrorLeftRight(n: Neighbourhood): Neighbourhood
  {
    Neighbourhood(n.g3, n.g2, n.g1, n.g6, n.g4, n.g9, n.g8, n.g7)
  }

  /** The neighbourhood reflected in its main diagonal (rows become columns). */
  function Transpose(n: Neighbourhood): Neighbourhood
  {
    Neighbourhood(n.g1, n.g4, n.g7, n.g2, n.g8, n.g3, n.g6, n.g9)
  }

  /**
   * The coefficients of both kernels sum to zero in each direction: raising
   * every neighbour by the same amount leaves the gradient unchanged.
   */
  lemma RaiseInvariant(k: Kernel, n: Neighbourhood, c: real)
    ensures Apply(k, Raise(n, c)) == Apply(k, n)
  {
  }

  /** A flat neighbourhood has zero gradient under either kernel. */
  lemma FlatHasZeroGradient(k: Kernel, n: Neighbourhood)
    requires Flat(n)
    ensures Apply(k, n) == Gradient(0.0, 0.0)
  {
    var base := Neighbourhood(0.0, 0.0, 0.0, 0.0, 0.0, 0.0, 0.0, 0.0);
    assert n == Raise(base, n.g1);
    RaiseInvariant(k, base, n.g1);
  }

  /** Both kernels are odd in x: mirroring left to right negates gx and keeps gy. */
  lemma MirrorNegatesGx(k: Kernel, n: Neighbourhood)
    ensures Apply(k, MirrorLeftRight(n)) == Gradient(-Apply(k, n).gx, Apply(k, n).gy)
  {
  }

  /** Each kernel's gy is its gx turned a quarter: transposing the neighbourhood swaps gx and gy. */
  lemma TransposeSwapsAxes(k: Kernel, n: Neighbourhood)
    ensures Apply(k, Transpose(n)) == Gradient(Apply(k, n).gy, Apply(k, n).gx)
  {
  }

  /** With lumas in [0, 1], Sobel gradients lie in [-4, 4] and Scharr gradients in [-16, 16]. */
  lemma GradientBounds(k: Kernel, n: Neighbourhood)
    requires InUnitRange(n)
    ensures var bound := if k == Sobel then 4.0 else 16.0;
            var g := Apply(k, n);
            -bound <= g.gx <= bound && -bound <= g.gy <= bound
  {
  }

  /** The two kernels are different filters: a single lit left neighbour tells them apart. */
  lemma KernelsDiffer(n: Neighbourhood)
    requires n.g4 == 1.0 && n.g1 == n.g2 == n.g3 == n.g6 == n.g7 == n.g8 == n.g9 == 0.0
    ensures Apply(Sobel, n) == Gradient(-2.0, 0.0)
    ensures Apply(Scharr, n) == Gradient(-10.0, 0.0)
  {
  }

  /** On a picture of one colour every pixel, edges and corners included, has zero gradient. */
  lemma UniformImageHasZeroGradient(img: ImageData, r: Byte, g: Byte, b: Byte, x: int, y: int, filter: string)
    requires img.Valid() && UniformRgb(img, r, g, b)
    ensures GradientAt(img, x, y, filter) == Gradient(0.0, 0.0)
  {
    UniformGrayscale(img, r, g, b, x - 1, y - 1);
    UniformGrayscale(img, r, g, b, x, y - 1);
    UniformGrayscale(img, r, g, b, x + 1, y - 1);
    UniformGrayscale(img, r, g, b, x - 1, y);
    UniformGrayscale(img, r, g, b, x + 1, y);
    UniformGrayscale(img, r, g, b, x - 1, y + 1);
    UniformGrayscale(img, r, g, b, x, y + 1);
    UniformGrayscale(img, r, g, b, x + 1, y + 1);
    var n := Sample(img, x, y);
    FlatHasZeroGradient(SelectKernel(filter), n);
  }

  /** A 1x1 picture is of one colour, so its only pixel has zero gradient: every neighbour clamps onto it. */
  lemma SinglePixelHasZeroGradient(img: ImageData, filter: string)
    requires img.Valid() && img.width == 1 && img.height == 1
    ensures GradientAt(img, 0, 0, filter) == Gradient(0.0, 0.0)
  {
    var r, g, b := img.data[0], img.data[1], img.data[2];
    assert UniformRgb(img, r, g, b) by {
      forall x: int, y: int | 0 <= x < img.width && 0 <= y < img.height
        ensures Channel(img, x, y, 0) == r && Channel(img, x, y, 1) == g && Channel(img, x, y, 2) == b
      {
        assert x == 0 && y == 0;
      }
    }
    UniformImageHasZeroGradient(img, r, g, b, 0, 0, filter);
  }
}
