# Sprilite normal-map generator, modelled in Dafny

Sprilite is a browser tool. It turns a heightmap picture into a tangent-space
normal map. This project models the arithmetic core of `script.js`:

- **Clamp-to-edge sampler** (`Image`). This is `getGrayscale`. It clamps a
  coordinate into the picture, computes the RGBA byte index and returns the
  luma `(0.299 r + 0.587 g + 0.114 b) / 255`.
- **Gradient kernels** (`Kernels`). The eight neighbours of a pixel are
  sampled, and the Sobel or the Scharr 3x3 kernel gives the gradient
  `(gx, gy)`. Only the filter name `"scharr"` selects Scharr.
- **Normal encoder** (`Encoder`). Invert height optionally negates the
  gradient. The gradient is scaled by the strength and normalised against
  `nz = 1`, with the source's zero-length fallback kept. Each component is
  mapped to `[0, 1]`. Invert red and invert green optionally reflect their
  component, and the three components are rounded to bytes with
  `Math.round`.
- **Map driver** (`Driver`). A row-major double loop fills a fresh RGBA
  buffer. It writes each pixel's encoded colour through the
  `Uint8ClampedArray` clamp and copies the source alpha unchanged.
- **Download name** (`FileName`). The exported file is named
  `base + "_normal_" + filter + ".png"`. `base` is the upload name without
  its last dot-suffix, or `"image"` when there is no upload or nothing is
  left.

Arithmetic is over Dafny's exact `real`s (`RealMath`). `Math.round(v)` is
`floor(v + 0.5)`. `Math.sqrt` is a parameter `sqrt: real -> real`. The model
functions accept any such function. The lemmas that need a true square root
require `IsSqrt(sqrt)`, which says it returns the non-negative root of
every non-negative argument.

Three consequences of the source that are easy to get wrong:

- **Invalid configurations are not rejected.** An unknown filter name is
  treated as Sobel (script.js:170-176), and any strength is used as given
  (script.js:184-185). The model has no error path for either.
- **A negative strength never turns the surface away.** `nz = 1 / length`
  is positive for every strength. A negative strength gives exactly the
  output of the opposite invert-height setting
  (`Encoder.NegativeStrengthTogglesHeight`).
- **Inverting a channel does not always map byte `v` to `255 - v`.** When
  `255 ×` the component is a half-integer, rounding half up gives
  `256 - v`. For example, the flat component `0.5` encodes to 128 both
  inverted and not (`Encoder.InvertRedByte`, `Encoder.InvertGreenByte`).

## Model

| member | source | states |
|---|---|---|
| RealMath.Round | script.js:212-214 | `Math.round` lands within half of its argument: `v - 0.5 < n <= v + 0.5` (ties go up) |
| RealMath.SqrtAtLeastOne | script.js:188 | the square root of a value at least 1 is at least 1, and the square root of 1 is 1 |
| RealMath.RoundReflect | script.js:205-214 | rounding `255 - v` gives `255 - round(v)`, or `256 - round(v)` exactly when `v` is a half-integer |
| Image.ClampCoord | script.js:30-31 | the clamped coordinate lies in `[0, size-1]`; inside coordinates are unchanged; below 0 gives 0 and beyond the edge gives `size-1` |
| Image.PixelIndex | script.js:32 | no contract of its own: the byte index `(y*width+x)*4` of a pixel; its bounds are `Image.PixelIndexInBounds`, and `Driver.DecodeIndex` decodes it back to x, y and the channel (the same expression is used at script.js:216) |
| Image.PixelIndexInBounds | script.js:32 | for a pixel inside the picture, `(y*width+x)*4` and the three bytes after it lie inside the buffer |
| Image.SampleIndex | script.js:30-32 | for any coordinate, the sampled byte index and the three after it lie inside the buffer; it is a multiple of 4; inside the picture it is the pixel's own index |
| Image.Luma | script.js:37 | the luma lies in `[0, 1]`, and for a gray pixel it is `r / 255` |
| Image.Grayscale | script.js:27-38 | `getGrayscale` returns a value in `[0, 1]` for every coordinate, however far outside the picture |
| Image.GrayscaleClampsToEdge | script.js:30-32 | sampling outside the picture reads the nearest edge pixel |
| Image.UniformGrayscale | script.js:27-38 | on a picture of one colour, every coordinate reads that colour's luma |
| Kernels.SelectKernel | script.js:170-176 | Scharr is chosen if and only if the filter is exactly `"scharr"`; every other value gives Sobel |
| Kernels.Sample | script.js:158-165 | all eight neighbour samples lie in `[0, 1]` |
| Kernels.Apply | script.js:170-176 | no contract of its own: the Sobel and Scharr formulas for gx and gy; their properties are `Kernels.RaiseInvariant`, `Kernels.FlatHasZeroGradient`, `Kernels.MirrorNegatesGx`, `Kernels.TransposeSwapsAxes`, `Kernels.GradientBounds` and `Kernels.KernelsDiffer` |
| Kernels.GradientAt | script.js:158-176 | no contract of its own: the chosen kernel applied to the eight clamped samples around (x, y); its properties are `Kernels.UniformImageHasZeroGradient` and `Kernels.SinglePixelHasZeroGradient` |
| Kernels.RaiseInvariant | script.js:171-175 | each kernel's gx and gy coefficients sum to zero: adding a constant to all neighbours leaves the gradient unchanged |
| Kernels.FlatHasZeroGradient | script.js:171-175 | a neighbourhood of equal samples has gradient (0, 0) under either kernel |
| Kernels.MirrorNegatesGx | script.js:171-175 | mirroring the neighbourhood left to right negates gx and keeps gy |
| Kernels.TransposeSwapsAxes | script.js:171-175 | transposing the neighbourhood swaps gx and gy |
| Kernels.GradientBounds | script.js:171-175 | for samples in `[0, 1]`, the absolute values of gx and gy are at most 4 under Sobel and at most 16 under Scharr |
| Kernels.KernelsDiffer | script.js:170-176 | a lone bright left neighbour gives Sobel (-2, 0) and Scharr (-10, 0) |
| Kernels.UniformImageHasZeroGradient | script.js:158-176 | on a picture of one colour, every pixel has gradient (0, 0) for every filter |
| Kernels.SinglePixelHasZeroGradient | script.js:158-176 | in a 1x1 picture every neighbour clamps to the pixel itself, so the gradient is (0, 0) |
| Encoder.Orient | script.js:179-182 | no contract of its own: the gradient, negated when invert height is on; its property is `Encoder.InvertHeightNegatesGradient` |
| Encoder.Tilt | script.js:184-186 | no contract of its own: `(gx·strength, gy·strength, 1)`; its properties are `Encoder.SqrtOfTilt` and `Encoder.NegativeStrengthTogglesHeight` |
| Encoder.Normalise | script.js:188-197 | no contract of its own: the vector divided by its length, or (0, 0, 1) when the length is not positive; its property is `Encoder.TiltedNormalIsUnit`, which shows the fallback is never taken |
| Encoder.Components | script.js:199-210 | no contract of its own: the normal mapped to [0, 1] with the red and green inversions applied; its properties are `Encoder.ComponentsInRange`, `Encoder.InvertRedReflects` and `Encoder.InvertGreenReflects` |
| Encoder.Encode | script.js:212-214 | no contract of its own: each component times 255, rounded half up; its properties are `Encoder.EncodeInRange`, `Encoder.FlatNormal`, `Encoder.InvertRedByte` and `Encoder.InvertGreenByte` |
| Encoder.TiltedNormalIsUnit | script.js:184-197 | for every gradient and strength, the length is at least 1, so the fallback is never taken; the normal is a unit vector with `0 < nz <= 1` and `nx`, `ny` strictly inside `(-1, 1)` |
| Encoder.SqrtOfTilt | script.js:188 | the length of `(nx, ny, 1)` is at least 1 and squares to `nx² + ny² + 1` |
| Encoder.DividedByLength | script.js:190-192 | dividing `(nx, ny, 1)` by its length gives squares summing to 1, with `0 < nz <= 1` and both nx and ny strictly between -1 and 1 |
| Encoder.ComponentsInRange | script.js:199-210 | red and green lie strictly in `(0, 1)` whatever the inversions; blue lies in `(0.5, 1]` |
| Encoder.EncodeInRange | script.js:212-214 | every rounded channel is a byte in `[0, 255]`, and blue is at least 128 |
| Encoder.FlatNormal | script.js:184-214 | a zero gradient gives normal (0, 0, 1), components (0.5, 0.5, 1) and colour (128, 128, 255) under every strength and flag |
| Encoder.ZeroStrengthIsFlat | script.js:184-214 | with strength 0, every gradient encodes to (128, 128, 255) |
| Encoder.InvertHeightNegatesGradient | script.js:179-182 | invert height on for gradient g gives the same colour as invert height off for -g |
| Encoder.NegativeStrengthTogglesHeight | script.js:179-186 | negating the strength gives the same colour as toggling invert height |
| Encoder.InvertRedReflects | script.js:205-207 | invert red replaces the red component r by `1 - r`; green and blue are unchanged |
| Encoder.InvertGreenReflects | script.js:208-210 | invert green replaces the green component g by `1 - g`; red and blue are unchanged |
| Encoder.InvertRedByte | script.js:205-214 | invert red maps the red byte v to `255 - v`, or to `256 - v` at a rounding tie; green and blue bytes are unchanged |
| Encoder.InvertGreenByte | script.js:208-214 | invert green maps the green byte v to `255 - v`, or to `256 - v` at a rounding tie; red and blue bytes are unchanged |
| Driver.ClampToByte | script.js:217-219 | the `Uint8ClampedArray` store keeps values in `[0, 255]`, stores 0 for negatives and 255 for larger values |
| Driver.PixelAt | script.js:158-214 | no contract of its own: the encoded colour of pixel (x, y), from its gradient under the configuration; its properties are `Driver.StoreNeverClamps` and `Driver.NormalMapAt` |
| Driver.OutputByte | script.js:216-220 | every alpha byte of the output is the source byte at the same index |
| Driver.DecodeIndex | script.js:216 | byte k of pixel (x, y) sits at `(y*width+x)*4 + k`, and decoding that index gives back x, y and k |
| Driver.OutputByteAt | script.js:216-220 | byte k of pixel (x, y) lies inside the buffer; it is the clamped red, green or blue of that pixel, or its source alpha |
| Driver.RgbaMap | script.js:156-221 | the output has the source's length, and every alpha byte is copied from the source |
| Driver.NormalMap | script.js:156-221 | the normal map has the source's length, and every alpha byte is copied from the source |
| Driver.NormalMapAt | script.js:216-220 | the four output bytes of pixel (x, y) are its clamped encoded red, green and blue, then its source alpha |
| Driver.FillRgbaMap | script.js:156-221 | the double loop returns a fresh buffer equal to `RgbaMap`; its invariant is that the bytes before the current pixel are final and the bytes after it are untouched |
| Driver.FillRow | script.js:157-221 | one row of the loop moves the finished prefix from the start of row y to the start of row y+1, one pixel at a time |
| Driver.GenerateNormalMap | script.js:156-221 | `generateNormalMap` returns a fresh buffer equal to `NormalMap` |
| Driver.UniformImageIsFlat | script.js:156-221 | for a picture of one colour, every output pixel is (128, 128, 255) with its alpha kept, for every strength, filter and flag |
| Driver.SinglePixelImage | script.js:156-221 | a 1x1 picture maps to exactly `[128, 128, 255, alpha]` |
| Driver.StoreNeverClamps | script.js:212-219 | with a true square root, the byte store never clamps: each encoded channel already is a byte |
| FileName.Join | script.js:229 | a non-empty list of parts joins to their total length plus one separator per neighbouring pair, and no parts join to the empty string; splitting undoes joining (`FileName.SplitJoin`) |
| FileName.Split | script.js:229 | `split` gives at least one part; no part contains the separator; joining the parts gives the string back |
| FileName.SplitJoin | script.js:229 | splitting undoes joining, for a non-empty list of parts without separators |
| FileName.SplitAfterSeparator | script.js:229 | splitting `a + sep + b`, where b has no separator, gives the parts of a and then b |
| FileName.SplitRun | script.js:229 | a string without the separator splits into itself alone |
| FileName.DropExtension | script.js:229 | no contract of its own: every dot-separated part but the last, joined again by dots; `FileName.DropExtensionIsBeforeLastDot` proves it equal to the text before the last dot |
| FileName.BeforeLastDot | script.js:229 | reference definition: a prefix of the name that ends just before the last '.', with no '.' after it; empty when the name has no '.' |
| FileName.DropExtensionIsBeforeLastDot | script.js:229 | `split('.').slice(0, -1).join('.')` is exactly the text before the last dot |
| FileName.BeforeLastDotOfSuffix | script.js:229-230 | the text before the last dot of `a + "." + b`, where b has no dot, is a |
| FileName.BaseName | script.js:229 | the base is never empty, and it is `"image"` when there is no upload |
| FileName.BaseNameIsBeforeLastDot | script.js:229 | the base is the text before the last dot of the upload name, or `"image"` when that text is empty |
| FileName.NoExtensionFallsBack | script.js:229 | a name with no dot, or whose only dot is its first character (`.png`), gives the base `"image"` |
| FileName.DownloadName | script.js:229-230 | no contract of its own: the stem, `"_normal_"`, the filter and `".png"`; its property is `FileName.DownloadNameSpec` |
| FileName.DownloadNameSpec | script.js:229-230 | the download name is the base, `"_normal_"` and the filter, then `".png"`; dropping its extension again gives exactly the base, `"_normal_"` and the filter, whatever dots the filter contains |

## Left out

- The browser side is not modelled, because it is I/O and interface wiring. This covers DOM lookups, canvas contexts, `drawImage`, `getImageData`, `putImageData`, `toDataURL`, the download link and its styling, and status and alert text (script.js:1-19, 224-242).
- Asynchronous loading is not modelled: `FileReader`, `Image.onload` and `onerror`, `setTimeout` and the event listeners (script.js:42-133).
- `clearCanvases` and the strength label are not modelled. They only reset and format the interface (script.js:245-261).
- The strength value, filter name and checkbox states are inputs to the model (`Encoder.Config`). The way they are read from the page is not modelled.
- The uploaded file's name is an `Option<string>`: `None` when no file is selected.
- IEEE-754 behaviour is not modelled. The luma weights, divisions, `Math.sqrt` and `Math.round` are exact real arithmetic, so the model makes no bit-exact claim. NaN and infinite strengths have no counterpart.
- `Math.sqrt` is a function parameter, constrained only by `IsSqrt` where a lemma needs it, because Dafny cannot define the real square root.
- Input validation: the source rejects nothing, so the model rejects nothing.
- Driver.FillRgbaMap: the inner `x` loop is a separate method, `Driver.FillRow`. The statements are those of the nested loop.
- Driver.FillRgbaMap: the row-major, write-once order is stated as the prefix invariant `Filled`. That invariant says the bytes before the current pixel are final and the rest are still zero. The number of writes per byte is not counted.
- Driver.FillRgbaMap: `createImageData` is modelled as a fresh zero-filled array of `width*height*4` bytes. The output buffer's own width and height fields are not modelled.
- Image.ImageData: `Valid()` requires `width, height >= 1` and a buffer of `width*height*4` bytes. The browser guarantees this for any loaded image, and the source relies on it without checking.
