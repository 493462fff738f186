# Bilinear rescaling kernel of fo-dicom, in Dafny

This project models `Dicom.Imaging.Algorithms.BilinearInterpolation`, the routine fo-dicom uses to resample a
row-major pixel buffer from `inputWidth x inputHeight` to `outputWidth x outputHeight` by bilinear
interpolation. The public entry points are:

- the `RescaleGrayscale` overloads for `byte`, `short`, `ushort`, `int` and `uint` samples;
- `RescaleColor24`, for 3 interleaved bytes per pixel;
- `RescaleColor32`, for 4 interleaved bytes per pixel.

`RescaleGrayscale_RegularForLoop` and `RescaleGrayscaleOri` compute the same values as `RescaleGrayscale(byte[])`.

Every entry point has the same body. The model is one generic kernel, parameterised by a `Format`, which holds:

- the element type, with its value range;
- the channel count;
- how an input column is turned into a byte offset.

The kernel does these steps:

- Compute the scale `in / out` of each axis.
- Map each output coordinate `o` to the input coordinate `o * scale`.
- Resolve that coordinate into a low and a high neighbour. The high neighbour is clamped to the last index.
- Use the fractional part and its complement as weights.
- Blend the four corner samples: horizontally on each of the two rows, then vertically.
- Store the blend truncated toward zero into the element type.

Modules:

| module | file | contents |
|---|---|---|
| `Numeric` | `numeric.dfy` | the five element types and their ranges; truncation toward zero (the C# `(int)` and narrowing casts) |
| `Axis` | `axis.dfy` | scale, mapped coordinate, neighbour and weight resolution, clamp to edge |
| `Blend` | `blend.dfy` | linear and bilinear blends as convex combinations |
| `Layout` | `layout.dfy` | buffer formats, input and output offsets, rows of the output |
| `Kernel` | `kernel.dfy` | one output sample, the whole output (`Rescaled`), the row/column/channel loop (`Rescale`), identity scaling, affine images |
| `Dispatch` | `dispatch.dfy` | rows as independent iterations; any order of them, as `Parallel.For` may choose, gives the same output |
| `BilinearInterpolation` | `bilinear.dfy` | the public entry points and where each reads and writes; the `RescaleColor32` addressing finding |
| `Doubling` | `doubling.dfy` | exact closed form of upscaling by two; the dyadic tables of the test suite |

Abstractions:

- `double` arithmetic is exact `real` arithmetic.
- A C# `(int)`, `(byte)`, `(short)`, `(ushort)` or `(uint)` cast of a double is `Numeric.Trunc`, which rounds toward zero.
- `Numeric.Narrow` is defined only when the truncated value lies in the target type. `Kernel.Sample` proves that this always holds, because the blend lies between the smallest and the largest corner. The out-of-range case, which C# leaves unspecified, therefore never arises.
- Buffers are `seq<int>` whose elements lie in the element type's range (`Numeric.AllIn`).
- The caller must supply `inputWidth, inputHeight >= 1` and an input of `inputWidth * inputHeight * channels` samples (`Kernel.ValidInput`).
- Zero output extents are allowed. The source then allocates an empty array, and its infinite scale factor is never used. The model returns the empty sequence.

## Model

All source paths are relative to the repository root. `BilinearInterpolation.cs` stands for `DICOM/Imaging/Algorithms/BilinearInterpolation.cs`. The test file is `Tests/Desktop/Imaging/Algorithms/BilinearInterpolationTest.cs`.

| member | source | states |
|---|---|---|
| Numeric.Trunc | DICOM/Imaging/Algorithms/BilinearInterpolation.cs:178 | the `(int)` cast of a double rounds toward zero: `r <= v < r + 1` for `v >= 0`, `r - 1 < v <= r` for `v < 0` |
| Numeric.TruncWithin | DICOM/Imaging/Algorithms/BilinearInterpolation.cs:200-203 | truncating a value that lies between two integers gives a value between them |
| Numeric.Narrow | DICOM/Imaging/Algorithms/BilinearInterpolation.cs:320-323 | the narrowing cast of a blend whose truncation fits the element type yields a value of that type, rounded toward zero (negative `short` and `int` blends round up) |
| Axis.Scale | DICOM/Imaging/Algorithms/BilinearInterpolation.cs:163-164 | the scale factor times the output extent is the input extent |
| Axis.Mapped | DICOM/Imaging/Algorithms/BilinearInterpolation.cs:177 | the mapped coordinate `o * scale` is nonnegative, equals `o * in / out` exactly, and lies below the input extent |
| Axis.Resolve | DICOM/Imaging/Algorithms/BilinearInterpolation.cs:177-182 | the neighbours satisfy `0 <= low <= high <= in - 1`, with `high == low + 1` unless `low == in - 1`; the weights are in `[0, 1]`, sum to 1, the high weight is below 1, and `low + highWeight` is the mapped coordinate |
| Axis.LowIsIntegerQuotient | DICOM/Imaging/Algorithms/BilinearInterpolation.cs:178 | the low neighbour equals the integer quotient `(o * in) / out` |
| Axis.IdentityResolve | DICOM/Imaging/Algorithms/BilinearInterpolation.cs:193-198 | with equal extents the low neighbour is `o` itself, with weight 1 and high weight 0 |
| Axis.ClampedPosition | DICOM/Imaging/Algorithms/BilinearInterpolation.cs:193-198 | the blended position of the two neighbours is the mapped coordinate, or the last index `in - 1` once the mapped coordinate passes it (clamp to edge) |
| Blend.Lerp | DICOM/Imaging/Algorithms/BilinearInterpolation.cs:200-203 | one horizontal or vertical blend lies between its two operands |
| Blend.Bilinear | DICOM/Imaging/Algorithms/BilinearInterpolation.cs:200-203 | the four-corner blend lies between the smallest and the largest corner |
| Blend.BilinearIsWeightedSum | DICOM/Imaging/Algorithms/BilinearInterpolation.cs:197-203 | the blend is the sum of the corners weighted by products of axis weights, and those four weights sum to 1 |
| Blend.BilinearRegularForLoop | DICOM/Imaging/Algorithms/BilinearInterpolation.cs:136-144 | the blend as `RescaleGrayscale_RegularForLoop` spells it, `dy1 * (dx1 * UL + dx2 * UR) + dy2 * (dx1 * DL + dx2 * DR)`, lies between the smallest and the largest corner whenever the fractional parts `dx2`, `dy2` lie in `[0, 1]`, so its `(byte)` cast stays in range |
| Blend.RegularForLoopBlendAgrees | DICOM/Imaging/Algorithms/BilinearInterpolation.cs:127-144 | the blend with the swapped weight names of `RescaleGrayscale_RegularForLoop` equals the blend of the other entry points |
| Blend.BilinearAtUpperLeft | DICOM/Imaging/Algorithms/BilinearInterpolation.cs:200-203 | with high weight 0 on both axes the blend is exactly the upper-left corner |
| Blend.AffineBlend | DICOM/Imaging/Algorithms/BilinearInterpolation.cs:200-203 | on corners taken from an affine image `a * row + b * col + c0`, the blend is that image's value at the blended position |
| Layout.InputOffset | DICOM/Imaging/Algorithms/BilinearInterpolation.cs:184-203 | every corner read `yo1/yo2 + ox1/ox2 (+ c)` is inside an input of `inW * inH * channels` samples, for both addressing modes |
| Layout.PixelStrideOffset | DICOM/Imaging/Algorithms/BilinearInterpolation.cs:544-561 | with pixel-stride addressing, channel `c` at `(col, row)` is read at `channels * (inW * row + col) + c` |
| Layout.RawColumnOffset | DICOM/Imaging/Algorithms/BilinearInterpolation.cs:626-645 | with raw-column addressing, channel `c` at `(col, row)` is read at `channels * inW * row + col + c` |
| Layout.OutputOffset | DICOM/Imaging/Algorithms/BilinearInterpolation.cs:184-203 | the store offset `yo0 + x` (for several channels `yo0 + px`, with `px = x * channels + c`) of every sample of the output lies inside the `outW * outH * channels` output array |
| Layout.PixelAt | DICOM/Imaging/Algorithms/BilinearInterpolation.cs:184-203 | every output offset is the offset of exactly one sample `(x, y, c)` inside the output |
| Layout.PixelAtOutputOffset | DICOM/Imaging/Algorithms/BilinearInterpolation.cs:184-203 | decoding the offset `yo0 + x` (times channels, plus channel) gives back the sample that is stored there |
| Layout.RowOf | DICOM/Imaging/Algorithms/BilinearInterpolation.cs:184 | every output offset lies in the slice `[y * outW * channels, (y + 1) * outW * channels)` of one row `y` |
| Layout.RowOfIsUnique | DICOM/Imaging/Algorithms/BilinearInterpolation.cs:184 | an offset belongs to row `y` if and only if it lies in that row's slice |
| Kernel.Corners | DICOM/Imaging/Algorithms/BilinearInterpolation.cs:200-203 | the four corner samples of any output sample are values of the element type |
| Kernel.Sample | DICOM/Imaging/Algorithms/BilinearInterpolation.cs:200-203 | the stored sample lies between the smallest and the largest of its four corners, so the narrowing never leaves the element type |
| Kernel.Blended | DICOM/Imaging/Algorithms/BilinearInterpolation.cs:200-203 | the narrowed blend of four values of the element type, under convex weights, lies between the smallest and the largest of the four, so the narrowing cast never leaves the element type |
| Kernel.Rescaled | DICOM/Imaging/Algorithms/BilinearInterpolation.cs:161-208 | the output has `outW * outH * channels` samples, all values of the element type |
| Kernel.RescaledLayout | DICOM/Imaging/Algorithms/BilinearInterpolation.cs:184-203 | channel `c` of output pixel `(x, y)` is stored at `channels * (outW * y + x) + c` and holds that sample's blend |
| Kernel.Rescale | DICOM/Imaging/Algorithms/BilinearInterpolation.cs:86-152 | the nested row, column and channel loops fill the output array with exactly the samples `Rescaled` defines |
| Kernel.FillRow | DICOM/Imaging/Algorithms/BilinearInterpolation.cs:176-205 | one row iteration stores the output values of row `y` in the slice `[y * outW * channels, (y + 1) * outW * channels)` and leaves every other sample of the array as it was, whatever the array held before |
| Kernel.FillPixel | DICOM/Imaging/Algorithms/BilinearInterpolation.cs:191-204 | one column iteration (and, in the colour entry points, its per-channel stores at lines 563-585 and 642-672) stores the output values of pixel `(x, y)` at `yo0 + px` to `yo0 + px + channels - 1` and changes no other sample |
| Kernel.SampleStep | DICOM/Imaging/Algorithms/BilinearInterpolation.cs:184-203 | the four reads at `yo1` or `yo2` plus `x1` or `x2` plus the channel are in bounds and are the sample's corners, and their narrowed blend is the output value at `yo0 + px + c` |
| Kernel.StoredAt | DICOM/Imaging/Algorithms/BilinearInterpolation.cs:184-203 | given the output offset and the four corner offsets of a sample, all five are in bounds and the output there is the truncated blend of the inputs at the corner offsets |
| Kernel.IdentityScaling | DICOM/Imaging/Algorithms/BilinearInterpolation.cs:163-203 | with output extents equal to the input extents, and pixel-stride addressing or one channel, the output equals the input |
| Kernel.IdentitySampleIsUpperLeft | DICOM/Imaging/Algorithms/BilinearInterpolation.cs:177-203 | with equal extents each output sample is its upper-left corner, wherever the addressing places it |
| Kernel.AffineSample | DICOM/Imaging/Algorithms/BilinearInterpolation.cs:200-203 | on an affine image each output sample is the truncated image value at the blended row and column positions |
| Dispatch.Row | DICOM/Imaging/Algorithms/BilinearInterpolation.cs:174-205 | one row iteration's samples depend only on the input, the dimensions and the row index, and are that row's slice of the output |
| Dispatch.WriteRow | DICOM/Imaging/Algorithms/BilinearInterpolation.cs:184-203 | a row iteration writes its own row's slice and leaves every other sample unchanged |
| Dispatch.RunRows | DICOM/Imaging/Algorithms/BilinearInterpolation.cs:171-175 | after running rows in any order, a sample holds the output value if its row has run, and its old value otherwise |
| Dispatch.AnyRowOrderFillsOutput | DICOM/Imaging/Algorithms/BilinearInterpolation.cs:171-208 | whatever order `Parallel.For` runs the rows in, and whatever the array held, running every row gives the output of the sequential loop |
| Dispatch.SequentialMatchesParallel | DICOM/Imaging/Algorithms/BilinearInterpolation.cs:171-175 | the `NET35` sequential loop and every parallel schedule produce the same buffer |
| BilinearInterpolation.RescaleGrayscale | DICOM/Imaging/Algorithms/BilinearInterpolation.cs:154-512 | every overload (`byte`, `short`, `ushort`, `int`, `uint`, and `RescaleGrayscaleOri` with the `byte` body) returns `outW * outH` samples, each in its element type's range (`0 .. 255`, `-32768 .. 32767`, `0 .. 65535`, the 32-bit signed and unsigned ranges); equal extents return the input |
| BilinearInterpolation.GrayscaleAddressing | DICOM/Imaging/Algorithms/BilinearInterpolation.cs:184-203 | output sample `(x, y)` is at `outW * y + x` and blends the inputs at `inW * row + col` of its neighbours, all four reads in bounds |
| BilinearInterpolation.RescaleColor24 | DICOM/Imaging/Algorithms/BilinearInterpolation.cs:514-594 | `outW * outH * 3` bytes; equal extents return the input |
| BilinearInterpolation.Color24Addressing | DICOM/Imaging/Algorithms/BilinearInterpolation.cs:544-585 | channel `c` of `(x, y)` is at `3 * (outW * y + x) + c` and blends channel `c` of the corner pixels at `3 * (inW * row + col) + c`, with weights that do not depend on `c` |
| BilinearInterpolation.RescaleColor32 | DICOM/Imaging/Algorithms/BilinearInterpolation.cs:596-681 | `outW * outH * 4` bytes, every read in bounds |
| BilinearInterpolation.Color32Addressing | DICOM/Imaging/Algorithms/BilinearInterpolation.cs:626-672 | channel `c` of `(x, y)` is at `4 * (outW * y + x) + c` but blends the inputs at `4 * inW * row + col + c` |
| BilinearInterpolation.Color32IdentityReadsRawColumn | DICOM/Imaging/Algorithms/BilinearInterpolation.cs:642-669 | with equal extents, output byte `4 * (w * y + x) + c` copies input byte `4 * w * y + x + c`, not `4 * (w * y + x) + c` |
| BilinearInterpolation.Color32IdentityCounterexample | DICOM/Imaging/Algorithms/BilinearInterpolation.cs:642-669 | a 2x1 image `1..8` rescaled to 2x1 comes back as `1, 2, 3, 4, 2, 3, 4, 5`; the corrected addressing returns `1..8` |
| BilinearInterpolation.RescaleColor32Corrected | DICOM/Imaging/Algorithms/BilinearInterpolation.cs:560-585 | with column offsets `4 * col`, as `RescaleColor24` uses `3 * col`: `outW * outH * 4` bytes, and equal extents return the input |
| Doubling.DoubledPosition | DICOM/Imaging/Algorithms/BilinearInterpolation.cs:177-182 | when an axis is doubled, output coordinate `o` stands for input position `min(o, 2n - 2) / 2` |
| Doubling.DoubledRamp | DICOM/Imaging/Algorithms/BilinearInterpolation.cs:174-203 | doubling a ramp `a * row + b * col` gives `(a * min(y, 2m - 2) + b * min(x, 2n - 2)) / 2` at `(x, y)` |
| Doubling.Grayscale2x2To4x4 | Tests/Desktop/Imaging/Algorithms/BilinearInterpolationTest.cs:9-29 | `0, 0, 10, 10` from 2x2 to 4x4 gives rows of `0, 5, 10, 10` |
| Doubling.GrayscaleRows4x4To8x8 | Tests/Desktop/Imaging/Algorithms/BilinearInterpolationTest.cs:116-146 | rows `0, 5, 10, 15` from 4x4 to 8x8 give rows of `0, 2, 5, 7, 10, 12, 15, 15` |
| Doubling.Grayscale4x4To8x8 | Tests/Desktop/Imaging/Algorithms/BilinearInterpolationTest.cs:150-171 | `0 .. 15` from 4x4 to 8x8 gives the table of the test, with the last row and column repeated |

## Left out

- `RescaleGrayscale_UseMatrix` (lines 15-83) is left out. It depends on the WPF `Vector` and `Matrix` types, whose semantics are not part of this model.
- The benchmark program and its entry point are left out. They only time the entry points.
- IEEE-754 rounding of `double` is left out: every double is an exact real. This is why only the dyadic test tables are proved. The 3x3 to 5x5 and 3x3 to 7x7 tables of the test file (lines 33-113) involve thirds and quarters whose double results may differ from exact ones, so they are not stated.
- The narrowing of an out-of-range blend is not modelled. A C# cast of an out-of-range double in an `unchecked` context has no defined value, not a wrap-around. `Kernel.Sample` proves that this case never arises.
- 32-bit overflow of the output length is not modelled: integers are unbounded. The source computes `outputWidth * outputHeight` (times 3 or 4 for colour) as an `int` before its `unchecked` block (lines 93, 161, 221, 281, 341, 401, 461, 521, 603). When that product exceeds `2^31 - 1`, the source fails. Under the default compiler setting the product wraps, and a negative result throws `OverflowException` at allocation. Otherwise the array is too short, and the store at offset `2^31 - 1` throws `IndexOutOfRangeException`, wrapped in an `AggregateException` by `Parallel.For`. Compiled with overflow checking, the product itself throws `OverflowException`. The model instead returns all `outW * outH * channels` samples. For example, `RescaleColor32` to 32768 x 32768 fails in the source, while the model returns `2^32` bytes.
- The index products inside the loop (`inputWidth * oy1 * 4`, `outputWidth * y * 3`, ...) do not overflow once the output length fits in an `int`, since every offset is below an array length.
- Threads are not modelled. `Parallel.For` is modelled by `Dispatch.RunRows` with an arbitrary row order, since the iterations write disjoint slices and read only the input.
- `Kernel.ValidInput` is a chosen precondition: input extents of at least 1, and an input of exactly `inW * inH * channels` samples. The source itself checks nothing. For the inputs this excludes it behaves as follows:
  - A longer input is read only up to offset `inW * inH * channels - 1`, and the call returns normally.
  - A shorter input works whenever the highest offset actually read is below its length. This can happen when downscaling: 10 x 10 to 2 x 2 reads only rows and columns 0, 1, 5 and 6, so the largest offset read is 66 and a 67-sample input suffices. Otherwise the first read past the end throws `IndexOutOfRangeException`.
  - With a zero input extent and nonzero output extents, the input of `inW * inH * channels = 0` samples is empty, and the first read `input[yo1 + ox1]` throws. With `outW == 0` or `outH == 0` nothing is read, so zero input extents do not throw then.
  - Extents are `nat`, so negative extents are excluded. In the source, two negative output extents give a positive array length, the loops run no iteration, and a zero-filled array of `outW * outH` samples is returned. One negative output extent gives a negative length and throws `OverflowException` at allocation.
- BilinearInterpolation.RescaleGrayscale: the contract gives the length, the range and identity scaling. The per-sample layout is stated once for all formats by `Kernel.RescaledLayout` and per entry point by `GrayscaleAddressing`, so the function's own contract stays small for its callers.
- BilinearInterpolation.RescaleColor24: as for `RescaleGrayscale`; the layout is `Color24Addressing`.
- BilinearInterpolation.RescaleColor32: as for `RescaleGrayscale`; the layout is `Color32Addressing`, and identity scaling does not hold (see Findings).

## Findings

| source | as written | input that shows it | evidently intended | confidence | as-written member | corrected member |
|---|---|---|---|---|---|---|
| DICOM/Imaging/Algorithms/BilinearInterpolation.cs:642-669 | `RescaleColor32` reads `input[yo1 + ox1]`, `input[yo1 + ox2]`, ... with the raw column index `ox1`, `ox2`, then steps them by one per channel. Row offsets count 4 bytes per pixel, column offsets only 1 | a 2x1 RGBA image `1, 2, 3, 4, 5, 6, 7, 8` rescaled to 2x1 returns `1, 2, 3, 4, 2, 3, 4, 5` | column offsets `4 * ox1`, `4 * ox2`, as `RescaleColor24` uses `x1 = ox1 * 3` (lines 560-561); identity scaling then returns the input | high (not executed) | BilinearInterpolation.Color32IdentityCounterexample | BilinearInterpolation.RescaleColor32Corrected |
