/** The generic rescaling kernel shared by every entry point: the value of one
    output sample, the whole output buffer it defines, and the row-by-row loop
    that fills an output array with it. */
module Kernel {
  import opened Numeric
  import opened Axis
  import opened Blend
  import opened Layout

  /** What every entry point demands of its caller: nonempty input extents,
      at least one channel, and an input buffer of `inW * inH * channels`
      values of the element type. The output extents may be zero. */
  predicate ValidInput(f: Format, d: Dims, input: seq<int>) {
    && d.inW >= 1 && d.inH >= 1 && f.channels >= 1
    && |input| == InputLength(f, d)
    && AllIn(f.elem, input)
  }

  /** The four input samples blended into output sample `p`: channel `p.c` of
      the input pixels at the clamped row and column neighbours of `(p.x, p.y)`. */
  function Corners(f: Format, d: Dims, input: seq<int>, p: Pixel): (q: Quad)
    requires ValidInput(f, d, input) && InOutput(f, d, p)
    ensures f.elem.Lo() <= q.Min() && q.Max() <= f.elem.Hi()
  {
    var ny := Resolve(p.y, d.inH, d.outH);
    var nx := Resolve(p.x, d.inW, d.outW);
    Quad(input[InputOffset(f, d, ny.low, nx.low, p.c)],
         input[InputOffset(f, d, ny.low, nx.high, p.c)],
         input[InputOffset(f, d, ny.high, nx.low, p.c)],
         input[InputOffset(f, d, ny.high, nx.high, p.c)])
  }

  /** The value stored for output sample `p`: the blend of its corners,
      narrowed to the element type. */
  function Sample(f: Format, d: Dims, input: seq<int>, p: Pixel): (r: int)
    requires ValidInput(f, d, input) && InOutput(f, d, p)
    ensures Corners(f, d, input, p).Min() <= r <= Corners(f, d, input, p).Max()
    ensures f.elem.Contains(r)
  {
    Blended(f.elem, Corners(f, d, input, p), Resolve(p.x, d.inW, d.outW), Resolve(p.y, d.inH, d.outH))
  }

  /** The blend of four samples of element type `t`, narrowed back to `t`.
      It lies between the smallest and the largest corner, so the narrowing
      never leaves the element type. */
  function Blended(t: ElemType, q: Quad, px: Neighbour, py: Neighbour): (r: int)
    requires px.Convex() && py.Convex()
    requires t.Lo() <= q.Min() && q.Max() <= t.Hi()
    ensures q.Min() <= r <= q.Max()
  {
    var v := Bilinear(q, px, py);
    TruncWithin(v, q.Min(), q.Max());
    Narrow(t, v)
  }

  /** The output buffer: `outW * outH * channels` samples of the element type. */
  function Rescaled(f: Format, d: Dims, input: seq<int>): (out: seq<int>)
    requires ValidInput(f, d, input)
    ensures |out| == OutputLength(f, d)
    ensures AllIn(f.elem, out)
  {
    seq(OutputLength(f, d), i requires 0 <= i < OutputLength(f, d) => Sample(f, d, input, PixelAt(f, d, i)))
  }

  /** Channel `c` of output pixel `(x, y)` is stored at `channels * (y * outW + x) + c`
      and holds that sample's blend. */
  lemma RescaledLayout(f: Format, d: Dims, input: seq<int>)
    requires ValidInput(f, d, input)
    ensures forall p :: InOutput(f, d, p) ==>
      OutputOffset(f, d, p) == (d.outW * p.y + p.x) * f.channels + p.c
      && OutputOffset(f, d, p) < |Rescaled(f, d, input)|
      && Rescaled(f, d, input)[OutputOffset(f, d, p)] == Sample(f, d, input, p)
  {
    forall p | InOutput(f, d, p)
      ensures OutputOffset(f, d, p) == (d.outW * p.y + p.x) * f.channels + p.c
      ensures OutputOffset(f, d, p) < |Rescaled(f, d, input)|
      ensures Rescaled(f, d, input)[OutputOffset(f, d, p)] == Sample(f, d, input, p)
    {
      PixelAtOutputOffset(f, d, p);
    }
  }

  /** Output sample `p` is stored at its output offset `o`, and if `ul`, `ur`,
      `dl`, `dr` are the offsets of its four corners, then all five are in
      bounds and the output at `o` is the blend of the input at the four
      corner offsets, truncated toward zero (the narrowing, which `Sample`
      shows stays in the element type). */
  lemma StoredAt(f: Format, d: Dims, input: seq<int>, p: Pixel, o: nat, ul: nat, ur: nat, dl: nat, dr: nat)
    requires ValidInput(f, d, input) && InOutput(f, d, p)
    requires o == OutputOffset(f, d, p)
    requires ul == InputOffset(f, d, Resolve(p.y, d.inH, d.outH).low, Resolve(p.x, d.inW, d.outW).low, p.c)
    requires ur == InputOffset(f, d, Resolve(p.y, d.inH, d.outH).low, Resolve(p.x, d.inW, d.outW).high, p.c)
    requires dl == InputOffset(f, d, Resolve(p.y, d.inH, d.outH).high, Resolve(p.x, d.inW, d.outW).low, p.c)
    requires dr == InputOffset(f, d, Resolve(p.y, d.inH, d.outH).high, Resolve(p.x, d.inW, d.outW).high, p.c)
    ensures o < |Rescaled(f, d, input)|
    ensures ul < |input| && ur < |input| && dl < |input| && dr < |input|
    ensures Rescaled(f, d, input)[o]
         == Trunc(Bilinear(Quad(input[ul], input[ur], input[dl], input[dr]),
                           Resolve(p.x, d.inW, d.outW), Resolve(p.y, d.inH, d.outH)))
  {
    PixelAtOutputOffset(f, d, p);
    assert Corners(f, d, input, p) == Quad(input[ul], input[ur], input[dl], input[dr]);
  }

  /** The row loop of the kernel (`RescaleGrayscale_RegularForLoop`, and the
      `NET35` branch of every entry point): rows top to bottom, each row filled
      by `FillRow`. It fills exactly the output buffer `Rescaled` defines. */
  method Rescale(f: Format, d: Dims, input: seq<int>) returns (output: seq<int>)
    requires ValidInput(f, d, input)
    ensures output == Rescaled(f, d, input)
  {
    ghost var spec := Rescaled(f, d, input);
    var out := new int[OutputLength(f, d)];
    var y := 0;
    while y < d.outH
      invariant 0 <= y <= d.outH
      invariant forall i :: 0 <= i < RowStart(f, d, y) ==> out[i] == spec[i]
    {
      RowBounds(f, d, y);
      FillRow(f, d, input, y, out, spec);
      y := y + 1;
    }
    assert RowStart(f, d, y) == |spec|;
    output := out[..];
    assert output == spec;
  }

  /** The body of one row iteration: resolve the row neighbours and the
      offsets of the two input rows once, then fill the row column by column.
      It stores the output values of row `y` in that row's slice and leaves
      every other sample as it was, whatever the array held and whichever
      rows ran before. */
  method FillRow(f: Format, d: Dims, input: seq<int>, y: nat, out: array<int>, ghost spec: seq<int>)
    requires ValidInput(f, d, input) && y < d.outH
    requires spec == Rescaled(f, d, input) && out.Length == |spec|
    modifies out
    ensures forall i :: RowStart(f, d, y) <= i < RowStart(f, d, y + 1) ==> out[i] == spec[i]
    ensures forall i :: 0 <= i < out.Length && !(RowStart(f, d, y) <= i < RowStart(f, d, y + 1)) ==>
      out[i] == old(out[i])
  {
    var k := f.channels;
    var ny := Resolve(y, d.inH, d.outH);
    var yo0 := d.outW * y * k;
    var yo1 := InputRowStart(f, d, ny.low);
    var yo2 := InputRowStart(f, d, ny.high);
    var x: nat := 0;
    var px: nat := 0;
    RowBounds(f, d, y);
    while x < d.outW
      invariant 0 <= x <= d.outW
      invariant px == x * k && px <= RowLength(f, d)
      invariant forall i :: yo0 <= i < yo0 + px ==> out[i] == spec[i]
      invariant forall i :: 0 <= i < out.Length && !(yo0 <= i < yo0 + px) ==> out[i] == old(out[i])
    {
      ColumnStep(k, x, d.outW);
      px := FillPixel(f, d, input, x, y, ny, yo0, yo1, yo2, px, out, spec);
      x := x + 1;
    }
  }

  /** One column iteration: resolve the column neighbours and their column
      offsets (`x1`, `x2`), then store one blended sample per channel at
      `yo0 + px`, advancing `px`. Only the samples of this pixel change. */
  method FillPixel(f: Format, d: Dims, input: seq<int>, x: nat, y: nat, ny: Neighbour,
                   yo0: nat, yo1: nat, yo2: nat, px0: nat, out: array<int>, ghost spec: seq<int>)
    returns (px: nat)
    requires ValidInput(f, d, input) && x < d.outW && y < d.outH
    requires ny == Resolve(y, d.inH, d.outH)
    requires yo1 == InputRowStart(f, d, ny.low) && yo2 == InputRowStart(f, d, ny.high)
    requires yo0 == d.outW * y * f.channels && px0 == x * f.channels
    requires spec == Rescaled(f, d, input) && out.Length == |spec|
    requires yo0 + px0 + f.channels <= |spec|
    modifies out
    ensures px == px0 + f.channels
    ensures forall i :: yo0 + px0 <= i < yo0 + px ==> out[i] == spec[i]
    ensures forall i :: 0 <= i < out.Length && !(yo0 + px0 <= i < yo0 + px) ==> out[i] == old(out[i])
  {
    var nx := Resolve(x, d.inW, d.outW);
    var x1 := InputColumnStart(f, nx.low);
    var x2 := InputColumnStart(f, nx.high);
    px := px0;
    var c := 0;
    while c < f.channels
      invariant 0 <= c <= f.channels
      invariant px == px0 + c
      invariant forall i :: yo0 + px0 <= i < yo0 + px ==> out[i] == spec[i]
      invariant forall i :: 0 <= i < out.Length && !(yo0 + px0 <= i < yo0 + px) ==> out[i] == old(out[i])
    {
      SampleStep(f, d, input, spec, x, y, c, ny, nx, yo0, yo1, yo2, x1, x2, px0);
      var q := Quad(input[yo1 + x1 + c], input[yo1 + x2 + c], input[yo2 + x1 + c], input[yo2 + x2 + c]);
      out[yo0 + px] := Blended(f.elem, q, nx, ny);
      px := px + 1;
      c := c + 1;
    }
  }

  /** What one step of the row loop relies on: the four reads at the row
      offsets `yo1`, `yo2` plus the column offsets `x1`, `x2` plus the channel
      are in bounds, they are the sample's corners, and their narrowed blend
      is what `Rescaled` holds at the running output offset `yo0 + px0 + c`. */
  lemma SampleStep(f: Format, d: Dims, input: seq<int>, spec: seq<int>, x: nat, y: nat, c: nat,
                   ny: Neighbour, nx: Neighbour, yo0: nat, yo1: nat, yo2: nat, x1: nat, x2: nat, px0: nat)
    requires ValidInput(f, d, input) && InOutput(f, d, Pixel(x, y, c))
    requires spec == Rescaled(f, d, input)
    requires ny == Resolve(y, d.inH, d.outH) && nx == Resolve(x, d.inW, d.outW)
    requires yo1 == InputRowStart(f, d, ny.low) && yo2 == InputRowStart(f, d, ny.high)
    requires x1 == InputColumnStart(f, nx.low) && x2 == InputColumnStart(f, nx.high)
    requires yo0 == d.outW * y * f.channels && px0 == x * f.channels
    ensures yo1 + x1 + c < |input| && yo1 + x2 + c < |input|
    ensures yo2 + x1 + c < |input| && yo2 + x2 + c < |input|
    ensures yo0 + px0 + c < |spec|
    ensures var q := Quad(input[yo1 + x1 + c], input[yo1 + x2 + c], input[yo2 + x1 + c], input[yo2 + x2 + c]);
            && q == Corners(f, d, input, Pixel(x, y, c))
            && nx.Convex() && ny.Convex()
            && f.elem.Lo() <= q.Min() && q.Max() <= f.elem.Hi()
            && spec[yo0 + px0 + c] == Blended(f.elem, q, nx, ny)
  {
    var p := Pixel(x, y, c);
    assert yo1 + x1 + c == InputOffset(f, d, ny.low, nx.low, c);
    assert yo1 + x2 + c == InputOffset(f, d, ny.low, nx.high, c);
    assert yo2 + x1 + c == InputOffset(f, d, ny.high, nx.low, c);
    assert yo2 + x2 + c == InputOffset(f, d, ny.high, nx.high, c);
    var o := yo0 + px0 + c;
    assert o == OutputOffset(f, d, p);
    PixelAtOutputOffset(f, d, p);
    assert spec[o] == Sample(f, d, input, p);
  }

  /** Identity scaling: when the output extents equal the input extents every
      scale is 1, every high weight 0, and the output equals the input. This
      needs the pixel-stride addressing of the colour data (or one channel). */
  lemma IdentityScaling(f: Format, d: Dims, input: seq<int>)
    requires ValidInput(f, d, input)
    requires d.outW == d.inW && d.outH == d.inH
    requires f.addressing == PixelStride || f.channels == 1
    ensures Rescaled(f, d, input) == input
  {
    var out := Rescaled(f, d, input);
    forall i | 0 <= i < |input|
      ensures out[i] == input[i]
    {
      IdentitySample(f, d, input, i);
    }
  }

  lemma IdentitySample(f: Format, d: Dims, input: seq<int>, i: nat)
    requires ValidInput(f, d, input)
    requires d.outW == d.inW && d.outH == d.inH
    requires f.addressing == PixelStride || f.channels == 1
    requires i < |input|
    ensures Rescaled(f, d, input)[i] == input[i]
  {
    var p := PixelAt(f, d, i);
    IdentitySampleIsUpperLeft(f, d, input, p);
    OutputOffsetInterleaved(f, d, p);
    var j := InputOffset(f, d, p.y, p.x, p.c);
    if f.addressing == PixelStride {
      PixelStrideOffset(f, d, p.y, p.x, p.c);
    } else {
      RawColumnOffset(f, d, p.y, p.x, p.c);
      OneChannel(d.inW, p.x, p.y, p.c);
    }
    assert j == i;
    assert Rescaled(f, d, input)[i] == Sample(f, d, input, p);
  }

  /** With one sample per pixel the raw-column read is the interleaved offset. */
  lemma OneChannel(width: nat, col: nat, row: nat, c: nat)
    ensures RawColumnRead(1, width, col, row, c) == Interleaved(1, width, col, row, c)
  {
  }

  /** Under identity scaling each output sample is its upper-left corner: the
      input sample of channel `c` at column `x` of row `y`, wherever the
      format's addressing places it. */
  lemma IdentitySampleIsUpperLeft(f: Format, d: Dims, input: seq<int>, p: Pixel)
    requires ValidInput(f, d, input)
    requires d.outW == d.inW && d.outH == d.inH
    requires InOutput(f, d, p)
    ensures Sample(f, d, input, p) == input[InputOffset(f, d, p.y, p.x, p.c)]
  {
    IdentityResolve(p.x, d.inW);
    IdentityResolve(p.y, d.inH);
    var q := Corners(f, d, input, p);
    var v := input[InputOffset(f, d, p.y, p.x, p.c)];
    assert q.upLeft == v;
    BilinearAtUpperLeft(q, Resolve(p.x, d.inW, d.outW), Resolve(p.y, d.inH, d.outH));
    TruncOfInteger(v);
  }

  /** On an affine image `a * row + b * col + c0` (one channel of it) each
      output sample is the image's value at the blended input position of
      its row and column, truncated toward zero. */
  lemma AffineSample(f: Format, d: Dims, input: seq<int>, p: Pixel, a: int, b: int, c0: int)
    requires ValidInput(f, d, input) && InOutput(f, d, p)
    requires forall row: nat, col: nat :: row < d.inH && col < d.inW ==>
      input[InputOffset(f, d, row, col, p.c)] == a * row + b * col + c0
    ensures Sample(f, d, input, p)
         == Trunc(Affine(a, b, c0, Resolve(p.y, d.inH, d.outH).Position(), Resolve(p.x, d.inW, d.outW).Position()))
  {
    var ny := Resolve(p.y, d.inH, d.outH);
    var nx := Resolve(p.x, d.inW, d.outW);
    var q := Corners(f, d, input, p);
    AffineCorners(f, d, input, p, a, b, c0);
    AffineBlend(q, nx, ny, a, b, c0);
  }

  /** The four corners of a sample of an affine image are that image's
      values at the neighbour rows and columns. */
  lemma AffineCorners(f: Format, d: Dims, input: seq<int>, p: Pixel, a: int, b: int, c0: int)
    requires ValidInput(f, d, input) && InOutput(f, d, p)
    requires forall row: nat, col: nat :: row < d.inH && col < d.inW ==>
      input[InputOffset(f, d, row, col, p.c)] == a * row + b * col + c0
    ensures var ny, nx := Resolve(p.y, d.inH, d.outH), Resolve(p.x, d.inW, d.outW);
            var q := Corners(f, d, input, p);
            && q.upLeft == a * ny.low + b * nx.low + c0
            && q.upRight == a * ny.low + b * nx.high + c0
            && q.downLeft == a * ny.high + b * nx.low + c0
            && q.downRight == a * ny.high + b * nx.high + c0
  {
  }
}
