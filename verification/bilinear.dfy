/** The public entry points of `BilinearInterpolation`: each one is the
    generic kernel at one element type, channel count and column addressing. */
module BilinearInterpolation {
  import opened Numeric
  import opened Axis
  import opened Blend
  import opened Layout
  import opened Kernel

  /** Single-channel grayscale buffers of element type `t`. */
  function Gray(t: ElemType): Format {
    Format(t, 1, PixelStride)
  }

  /** 3-channel interleaved 8-bit colour, columns addressed as `3 * col`. */
  const Color24Format := Format(Byte, 3, PixelStride)

  /** 4-channel interleaved 8-bit colour as `RescaleColor32` reads it: columns
      addressed by the raw column index. */
  const Color32AsWrittenFormat := Format(Byte, 4, RawColumn)

  /** 4-channel interleaved 8-bit colour with columns addressed as `4 * col`,
      the way `RescaleColor24` addresses its 3 channels. */
  const Color32Format := Format(Byte, 4, PixelStride)

  /** `RescaleGrayscale` for `byte[]`, `short[]`, `ushort[]`, `int[]` and
      `uint[]`: an `outW * outH` buffer whose every sample is a value of the
      element type, sample `(x, y)` at `outW * y + x`. */
  function RescaleGrayscale(t: ElemType, input: seq<int>, inputWidth: nat, inputHeight: nat,
                            outputWidth: nat, outputHeight: nat): (r: seq<int>)
    requires ValidInput(Gray(t), Dims(inputWidth, inputHeight, outputWidth, outputHeight), input)
    ensures |r| == outputWidth * outputHeight
    ensures AllIn(t, r)
    ensures outputWidth == inputWidth && outputHeight == inputHeight ==> r == input
  {
    var d := Dims(inputWidth, inputHeight, outputWidth, outputHeight);
    var r := Rescaled(Gray(t), d, input);
    assert outputWidth == inputWidth && outputHeight == inputHeight ==> r == input by {
      if outputWidth == inputWidth && outputHeight == inputHeight {
        IdentityScaling(Gray(t), d, input);
      }
    }
    r
  }

  /** `RescaleColor24`: an `outW * outH * 3` byte buffer; channel `c` of
      pixel `(x, y)` at `3 * (outW * y + x) + c` blends channel `c` of the four
      corner pixels, read at `3 * (inW * row + col) + c`. */
  function RescaleColor24(input: seq<int>, inputWidth: nat, inputHeight: nat,
                          outputWidth: nat, outputHeight: nat): (r: seq<int>)
    requires ValidInput(Color24Format, Dims(inputWidth, inputHeight, outputWidth, outputHeight), input)
    ensures |r| == outputWidth * outputHeight * 3
    ensures AllIn(Byte, r)
    ensures outputWidth == inputWidth && outputHeight == inputHeight ==> r == input
  {
    var d := Dims(inputWidth, inputHeight, outputWidth, outputHeight);
    var r := Rescaled(Color24Format, d, input);
    assert outputWidth == inputWidth && outputHeight == inputHeight ==> r == input by {
      if outputWidth == inputWidth && outputHeight == inputHeight {
        IdentityScaling(Color24Format, d, input);
      }
    }
    r
  }

  /** `RescaleColor32` as written: an `outW * outH * 4` byte buffer with
      channel `c` of pixel `(x, y)` at `4 * (outW * y + x) + c`, whose corner
      reads use the raw column index: `4 * inW * row + col + c`. */
  function RescaleColor32(input: seq<int>, inputWidth: nat, inputHeight: nat,
                          outputWidth: nat, outputHeight: nat): (r: seq<int>)
    requires ValidInput(Color32AsWrittenFormat, Dims(inputWidth, inputHeight, outputWidth, outputHeight), input)
    ensures |r| == outputWidth * outputHeight * 4
    ensures AllIn(Byte, r)
  {
    Rescaled(Color32AsWrittenFormat, Dims(inputWidth, inputHeight, outputWidth, outputHeight), input)
  }

  /** `RescaleColor32` with the column offset scaled by the pixel size, as in
      `RescaleColor24`. Identity scaling reproduces the input. */
  function RescaleColor32Corrected(input: seq<int>, inputWidth: nat, inputHeight: nat,
                                   outputWidth: nat, outputHeight: nat): (r: seq<int>)
    requires ValidInput(Color32Format, Dims(inputWidth, inputHeight, outputWidth, outputHeight), input)
    ensures |r| == outputWidth * outputHeight * 4
    ensures AllIn(Byte, r)
    ensures outputWidth == inputWidth && outputHeight == inputHeight ==> r == input
  {
    var d := Dims(inputWidth, inputHeight, outputWidth, outputHeight);
    var r := Rescaled(Color32Format, d, input);
    assert outputWidth == inputWidth && outputHeight == inputHeight ==> r == input by {
      if outputWidth == inputWidth && outputHeight == inputHeight {
        IdentityScaling(Color32Format, d, input);
      }
    }
    r
  }

  /** Where the grayscale overloads write and read: output sample `(x, y)` is
      stored at `outW * y + x` and blends the input samples at
      `inW * row + col` of its neighbour rows and columns (`Interleaved` with
      one channel). */
  lemma GrayscaleAddressing(t: ElemType, input: seq<int>, w: nat, h: nat, ow: nat, oh: nat, x: nat, y: nat)
    requires ValidInput(Gray(t), Dims(w, h, ow, oh), input)
    requires x < ow && y < oh
    ensures var r := RescaleGrayscale(t, input, w, h, ow, oh);
            var ny, nx := Resolve(y, h, oh), Resolve(x, w, ow);
            && Interleaved(1, ow, x, y, 0) < |r|
            && Interleaved(1, w, nx.low, ny.low, 0) < |input|
            && Interleaved(1, w, nx.high, ny.low, 0) < |input|
            && Interleaved(1, w, nx.low, ny.high, 0) < |input|
            && Interleaved(1, w, nx.high, ny.high, 0) < |input|
            && r[Interleaved(1, ow, x, y, 0)]
               == Trunc(Bilinear(Quad(input[Interleaved(1, w, nx.low, ny.low, 0)],
                                      input[Interleaved(1, w, nx.high, ny.low, 0)],
                                      input[Interleaved(1, w, nx.low, ny.high, 0)],
                                      input[Interleaved(1, w, nx.high, ny.high, 0)]), nx, ny))
  {
    var f, d, p := Gray(t), Dims(w, h, ow, oh), Pixel(x, y, 0);
    var ny, nx := Resolve(y, h, oh), Resolve(x, w, ow);
    PixelStrideOffset(f, d, ny.low, nx.low, 0);
    PixelStrideOffset(f, d, ny.low, nx.high, 0);
    PixelStrideOffset(f, d, ny.high, nx.low, 0);
    PixelStrideOffset(f, d, ny.high, nx.high, 0);
    StoredAt(f, d, input, p, Interleaved(1, ow, x, y, 0),
             Interleaved(1, w, nx.low, ny.low, 0), Interleaved(1, w, nx.high, ny.low, 0),
             Interleaved(1, w, nx.low, ny.high, 0), Interleaved(1, w, nx.high, ny.high, 0));
  }

  /** Where `RescaleColor24` writes and reads: channel `c` of output pixel
      `(x, y)` is stored at `3 * (outW * y + x) + c` and blends channel `c` of
      the four corner pixels, read at `3 * (inW * row + col) + c`, with
      neighbours and weights that depend on `(x, y)` alone. */
  lemma Color24Addressing(input: seq<int>, w: nat, h: nat, ow: nat, oh: nat, p: Pixel)
    requires ValidInput(Color24Format, Dims(w, h, ow, oh), input)
    requires InOutput(Color24Format, Dims(w, h, ow, oh), p)
    ensures var r := RescaleColor24(input, w, h, ow, oh);
            var ny, nx := Resolve(p.y, h, oh), Resolve(p.x, w, ow);
            && Interleaved(3, ow, p.x, p.y, p.c) < |r|
            && Interleaved(3, w, nx.low, ny.low, p.c) < |input|
            && Interleaved(3, w, nx.high, ny.low, p.c) < |input|
            && Interleaved(3, w, nx.low, ny.high, p.c) < |input|
            && Interleaved(3, w, nx.high, ny.high, p.c) < |input|
            && r[Interleaved(3, ow, p.x, p.y, p.c)]
               == Trunc(Bilinear(Quad(input[Interleaved(3, w, nx.low, ny.low, p.c)],
                                      input[Interleaved(3, w, nx.high, ny.low, p.c)],
                                      input[Interleaved(3, w, nx.low, ny.high, p.c)],
                                      input[Interleaved(3, w, nx.high, ny.high, p.c)]), nx, ny))
  {
    var f, d := Color24Format, Dims(w, h, ow, oh);
    var ny, nx := Resolve(p.y, h, oh), Resolve(p.x, w, ow);
    PixelStrideOffset(f, d, ny.low, nx.low, p.c);
    PixelStrideOffset(f, d, ny.low, nx.high, p.c);
    PixelStrideOffset(f, d, ny.high, nx.low, p.c);
    PixelStrideOffset(f, d, ny.high, nx.high, p.c);
    StoredAt(f, d, input, p, Interleaved(3, ow, p.x, p.y, p.c),
             Interleaved(3, w, nx.low, ny.low, p.c), Interleaved(3, w, nx.high, ny.low, p.c),
             Interleaved(3, w, nx.low, ny.high, p.c), Interleaved(3, w, nx.high, ny.high, p.c));
  }

  /** Where `RescaleColor32` as written writes and reads: channel `c` of
      output pixel `(x, y)` is stored at `4 * (outW * y + x) + c`, but the
      corner reads are at `4 * inW * row + col + c`. */
  lemma Color32Addressing(input: seq<int>, w: nat, h: nat, ow: nat, oh: nat, p: Pixel)
    requires ValidInput(Color32AsWrittenFormat, Dims(w, h, ow, oh), input)
    requires InOutput(Color32AsWrittenFormat, Dims(w, h, ow, oh), p)
    ensures var r := RescaleColor32(input, w, h, ow, oh);
            var ny, nx := Resolve(p.y, h, oh), Resolve(p.x, w, ow);
            && Interleaved(4, ow, p.x, p.y, p.c) < |r|
            && RawColumnRead(4, w, nx.low, ny.low, p.c) < |input|
            && RawColumnRead(4, w, nx.high, ny.low, p.c) < |input|
            && RawColumnRead(4, w, nx.low, ny.high, p.c) < |input|
            && RawColumnRead(4, w, nx.high, ny.high, p.c) < |input|
            && r[Interleaved(4, ow, p.x, p.y, p.c)]
               == Trunc(Bilinear(Quad(input[RawColumnRead(4, w, nx.low, ny.low, p.c)],
                                      input[RawColumnRead(4, w, nx.high, ny.low, p.c)],
                                      input[RawColumnRead(4, w, nx.low, ny.high, p.c)],
                                      input[RawColumnRead(4, w, nx.high, ny.high, p.c)]), nx, ny))
  {
    var f, d := Color32AsWrittenFormat, Dims(w, h, ow, oh);
    var ny, nx := Resolve(p.y, h, oh), Resolve(p.x, w, ow);
    RawColumnOffset(f, d, ny.low, nx.low, p.c);
    RawColumnOffset(f, d, ny.low, nx.high, p.c);
    RawColumnOffset(f, d, ny.high, nx.low, p.c);
    RawColumnOffset(f, d, ny.high, nx.high, p.c);
    StoredAt(f, d, input, p, Interleaved(4, ow, p.x, p.y, p.c),
             RawColumnRead(4, w, nx.low, ny.low, p.c), RawColumnRead(4, w, nx.high, ny.low, p.c),
             RawColumnRead(4, w, nx.low, ny.high, p.c), RawColumnRead(4, w, nx.high, ny.high, p.c));
  }

  /** Identity scaling of the raw-column reads of `RescaleColor32`: channel
      `c` of output pixel `(x, y)` copies input byte `4 * inW * y + x + c`,
      which is channel `c` of pixel `(x, y)` only when `x == 0`. */
  lemma Color32IdentityReadsRawColumn(input: seq<int>, w: nat, h: nat, p: Pixel)
    requires ValidInput(Color32AsWrittenFormat, Dims(w, h, w, h), input)
    requires InOutput(Color32AsWrittenFormat, Dims(w, h, w, h), p)
    ensures var r := RescaleColor32(input, w, h, w, h);
            && Interleaved(4, w, p.x, p.y, p.c) < |r| && RawColumnRead(4, w, p.x, p.y, p.c) < |input|
            && r[Interleaved(4, w, p.x, p.y, p.c)] == input[RawColumnRead(4, w, p.x, p.y, p.c)]
  {
    var d := Dims(w, h, w, h);
    var f := Color32AsWrittenFormat;
    IdentitySampleIsUpperLeft(f, d, input, p);
    RawColumnOffset(f, d, p.y, p.x, p.c);
    OutputOffsetInterleaved(f, d, p);
    PixelAtOutputOffset(f, d, p);
    assert Rescaled(f, d, input)[OutputOffset(f, d, p)] == Sample(f, d, input, p);
  }

  /** Identity scaling of a one-row, two-pixel RGBA image: the first output
      pixel is the first input pixel, the second output pixel the four bytes
      starting one byte into the image. */
  lemma Color32IdentityOneRow(input: seq<int>)
    requires ValidInput(Color32AsWrittenFormat, Dims(2, 1, 2, 1), input)
    ensures RescaleColor32(input, 2, 1, 2, 1) == input[0..4] + input[1..5]
  {
    var r := RescaleColor32(input, 2, 1, 2, 1);
    var s := input[0..4] + input[1..5];
    forall i | 0 <= i < 8
      ensures r[i] == s[i]
    {
      if i < 4 {
        Color32IdentityReadsRawColumn(input, 2, 1, Pixel(0, 0, i));
      } else {
        Color32IdentityReadsRawColumn(input, 2, 1, Pixel(1, 0, i - 4));
      }
    }
  }

  /** A 2x1 RGBA image rescaled to its own size: `RescaleColor32` returns the
      first pixel's bytes shifted by one for the second pixel instead of the
      second pixel; the corrected addressing returns the image itself. */
  lemma Color32IdentityCounterexample(input: seq<int>)
    requires input == [1, 2, 3, 4, 5, 6, 7, 8]
    ensures RescaleColor32(input, 2, 1, 2, 1) == [1, 2, 3, 4, 2, 3, 4, 5]
    ensures RescaleColor32Corrected(input, 2, 1, 2, 1) == input
  {
    Color32IdentityOneRow(input);
    assert input[0..4] == [1, 2, 3, 4];
    assert input[1..5] == [2, 3, 4, 5];
  }
}
