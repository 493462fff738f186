/** Buffer layout: flat, row-major sample buffers with `channels` interleaved
    samples per pixel, and the offsets at which the kernel reads and writes. */
module Layout {
  import opened Numeric

  /** How the kernel finds the first sample of input column `col` within a
      row. `PixelStride` multiplies by the channel count (`x1 = ox1 * 3` in
      `RescaleColor24`); `RawColumn` uses the column index itself, as
      `RescaleColor32` does. With one channel the two coincide. */
  datatype Addressing = PixelStride | RawColumn

  /** One variant of the kernel: element type, channel count and input
      column addressing. */
  datatype Format = Format(elem: ElemType, channels: nat, addressing: Addressing)

  /** The four dimension arguments of every entry point. */
  datatype Dims = Dims(inW: nat, inH: nat, outW: nat, outH: nat)

  /** One sample of the output buffer: pixel `(x, y)`, channel `c`. */
  datatype Pixel = Pixel(x: nat, y: nat, c: nat)

  function InputLength(f: Format, d: Dims): nat {
    d.inW * d.inH * f.channels
  }

  /** The length of the array every entry point allocates. */
  function OutputLength(f: Format, d: Dims): nat {
    d.outW * d.outH * f.channels
  }

  /** Number of output samples per output row. */
  function RowLength(f: Format, d: Dims): nat {
    d.outW * f.channels
  }

  /** Offset of the first output sample of row `y`; row `y` occupies
      `[RowStart(y), RowStart(y + 1))`. */
  function RowStart(f: Format, d: Dims, y: nat): (s: nat)
    requires y <= d.outH
    ensures s <= OutputLength(f, d)
  {
    MulMonotone(RowLength(f, d), y, d.outH);
    y * RowLength(f, d)
  }

  /** Offset of the first sample of input row `row` (`yo1`, `yo2`). */
  function InputRowStart(f: Format, d: Dims, row: nat): nat {
    d.inW * row * f.channels
  }

  /** Offset, within its row, of the first sample read for input column `col`. */
  function InputColumnStart(f: Format, col: nat): nat {
    if f.addressing == PixelStride then col * f.channels else col
  }

  /** Offset of the input sample read for channel `c` at input `(col, row)`.
      Every such read is in bounds, for both addressing modes. */
  function InputOffset(f: Format, d: Dims, row: nat, col: nat, c: nat): (i: nat)
    requires row < d.inH && col < d.inW && c < f.channels
    ensures i < InputLength(f, d)
  {
    InputOffsetInBounds(f, d, row, col, c);
    InputRowStart(f, d, row) + InputColumnStart(f, col) + c
  }

  lemma InputOffsetInBounds(f: Format, d: Dims, row: nat, col: nat, c: nat)
    requires row < d.inH && col < d.inW && c < f.channels
    ensures InputRowStart(f, d, row) + InputColumnStart(f, col) + c < InputLength(f, d)
  {
    var w, k := d.inW, f.channels;
    if f.addressing == PixelStride {
      StrideFits(k, col, c, w);
    } else {
      RawFits(k, col, c, w);
    }
    RowsFit(w, k, row, d.inH, InputColumnStart(f, col) + c);
  }

  /** A sample of a pixel, counted in pixel strides, lies within its row. */
  lemma StrideFits(k: nat, col: nat, c: nat, w: nat)
    requires col < w && c < k
    ensures col * k + c < w * k
  {
    MulMonotone(k, col + 1, w);
    assert (col + 1) * k == col * k + k;
  }

  /** A sample counted from the raw column index also lies within its row of
      `w * k` samples, since `w + k - 1 <= w * k`. */
  lemma RawFits(k: nat, col: nat, c: nat, w: nat)
    requires col < w && c < k
    ensures col + c < w * k
  {
    MulMonotone(w - 1, 0, k - 1);
    assert (w - 1) * (k - 1) == w * k - w - k + 1;
  }

  /** An offset `s` within one row of `w * k` samples, added to the start of
      row `row < h`, stays inside `h` such rows. */
  lemma RowsFit(w: nat, k: nat, row: nat, h: nat, s: nat)
    requires row < h && s < w * k
    ensures w * row * k + s < w * h * k
  {
    var rl := w * k;
    MulMonotone(rl, row + 1, h);
    assert w * row * k == rl * row;
    assert rl * (row + 1) == rl * row + rl;
    assert w * h * k == rl * h;
  }

  /** With pixel-stride addressing, channel `c` of input pixel `(col, row)` is
      read at `channels * (inW * row + col) + c`. */
  lemma PixelStrideOffset(f: Format, d: Dims, row: nat, col: nat, c: nat)
    requires f.addressing == PixelStride
    requires row < d.inH && col < d.inW && c < f.channels
    ensures InputOffset(f, d, row, col, c) == Interleaved(f.channels, d.inW, col, row, c)
  {
  }

  /** With raw-column addressing, channel `c` at `(col, row)` is read at
      `channels * inW * row + col + c`: the row offset counts whole pixels,
      the column offset single samples. */
  lemma RawColumnOffset(f: Format, d: Dims, row: nat, col: nat, c: nat)
    requires f.addressing == RawColumn
    requires row < d.inH && col < d.inW && c < f.channels
    ensures InputOffset(f, d, row, col, c) == RawColumnRead(f.channels, d.inW, col, row, c)
  {
  }

  /** Offset of channel `c` of pixel `(col, row)` in a row-major buffer
      `width` pixels wide with `k` interleaved samples per pixel. */
  function Interleaved(k: nat, width: nat, col: nat, row: nat, c: nat): nat {
    k * (width * row + col) + c
  }

  /** The offset `RescaleColor32` reads for channel `c` of input pixel
      `(col, row)`: a row offset of `k * width` samples per row, but a column
      offset of one sample per column. */
  function RawColumnRead(k: nat, width: nat, col: nat, row: nat, c: nat): nat {
    k * width * row + col + c
  }

  /** Output sample `(x, y, c)` is stored at `channels * (outW * y + x) + c`. */
  lemma OutputOffsetInterleaved(f: Format, d: Dims, p: Pixel)
    ensures OutputOffset(f, d, p) == Interleaved(f.channels, d.outW, p.x, p.y, p.c)
  {
  }

  /** Row `y` starts at `outW * y * channels` (`yo0`), and the next row starts
      one row length further on, still inside the output. */
  lemma RowBounds(f: Format, d: Dims, y: nat)
    requires y < d.outH
    ensures RowStart(f, d, y) == d.outW * y * f.channels
    ensures RowStart(f, d, y + 1) == RowStart(f, d, y) + RowLength(f, d) <= OutputLength(f, d)
  {
  }

  /** The samples of column `x < w` in a row of `w` pixels of `k` samples:
      the next column starts `k` samples later, at most at the row's end. */
  lemma ColumnStep(k: nat, x: nat, w: nat)
    requires x < w
    ensures (x + 1) * k == x * k + k <= w * k
  {
    MulMonotone(k, x + 1, w);
  }

  /** Offset of output sample `(x, y, c)`: `yo0 + px` with
      `yo0 = outputWidth * y * channels` and `px = x * channels + c`. Every
      sample of the output has its offset inside the output buffer. */
  function OutputOffset(f: Format, d: Dims, p: Pixel): (o: nat)
    ensures InOutput(f, d, p) ==> o < OutputLength(f, d)
  {
    var px := p.x * f.channels + p.c;
    if InOutput(f, d, p) then
      StrideFits(f.channels, p.x, p.c, d.outW);
      RowsFit(d.outW, f.channels, p.y, d.outH, px);
      d.outW * p.y * f.channels + px
    else
      d.outW * p.y * f.channels + px
  }

  predicate InOutput(f: Format, d: Dims, p: Pixel) {
    p.x < d.outW && p.y < d.outH && p.c < f.channels
  }

  /** The output sample stored at offset `i`: the inverse of `OutputOffset`. */
  function PixelAt(f: Format, d: Dims, i: nat): (p: Pixel)
    requires i < OutputLength(f, d)
    ensures InOutput(f, d, p)
    ensures OutputOffset(f, d, p) == i
  {
    var k := f.channels;
    var rl := RowLength(f, d);
    assert OutputLength(f, d) == d.outH * rl;
    Positive(i, d.outH, rl);
    var (y, j) := Split(i, rl);
    QuotientBound(y, j, rl, d.outH);
    Positive(j, d.outW, k);
    var (x, c) := Split(j, k);
    QuotientBound(x, c, k, d.outW);
    assert d.outW * y * k == y * rl by { MulAssoc(d.outW, y, k); }
    Pixel(x, y, c)
  }

  lemma MulAssoc(w: nat, y: nat, k: nat)
    ensures w * y * k == y * (w * k)
  {
  }

  /** Quotient and remainder of `n` by a positive `m`. */
  function Split(n: nat, m: nat): (qr: (nat, nat))
    requires m > 0
    ensures qr.1 < m && n == qr.0 * m + qr.1
  {
    (n / m, n % m)
  }

  /** A product that bounds a natural number from above has positive factors. */
  lemma Positive(j: nat, w: nat, k: nat)
    requires j < w * k
    ensures w > 0 && k > 0
  {
  }

  /** `q * k + r < w * k` forces `q < w`. */
  lemma QuotientBound(q: nat, r: nat, k: nat, w: nat)
    requires q * k + r < w * k
    ensures q < w
  {
    if q >= w {
      MulMonotone(k, w, q);
    }
  }

  /** Decoding the offset of an output sample gives back that sample. */
  lemma {:induction false} PixelAtOutputOffset(f: Format, d: Dims, p: Pixel)
    requires InOutput(f, d, p)
    ensures OutputOffset(f, d, p) < OutputLength(f, d)
    ensures PixelAt(f, d, OutputOffset(f, d, p)) == p
  {
    var k := f.channels;
    var rl := RowLength(f, d);
    var j := p.x * k + p.c;
    MulMonotone(k, p.x + 1, d.outW);
    assert j < rl;
    var i := OutputOffset(f, d, p);
    assert i == p.y * rl + j;
    MulMonotone(rl, p.y + 1, d.outH);
    assert i < OutputLength(f, d);
    DivModUnique(i, rl, p.y, j);
    DivModUnique(j, k, p.x, p.c);
  }

  /** Output sample `(x, y, c)` lies in the slice of output row `y`. */
  lemma OutputOffsetInRow(f: Format, d: Dims, p: Pixel)
    requires InOutput(f, d, p)
    ensures p.y * RowLength(f, d) <= OutputOffset(f, d, p) < (p.y + 1) * RowLength(f, d)
  {
    MulMonotone(f.channels, p.x + 1, d.outW);
  }

  /** The output row an offset belongs to. */
  function RowOf(f: Format, d: Dims, i: nat): (y: nat)
    requires i < OutputLength(f, d)
    ensures y < d.outH
    ensures RowStart(f, d, y) <= i < RowStart(f, d, y + 1)
  {
    PixelAt(f, d, i).y
  }

  /** An offset lies in the slice of row `y` exactly when it belongs to row `y`. */
  lemma RowOfIsUnique(f: Format, d: Dims, i: nat, y: nat)
    requires i < OutputLength(f, d) && y < d.outH
    ensures RowOf(f, d, i) == y <==> RowStart(f, d, y) <= i < RowStart(f, d, y + 1)
  {
    var y' := RowOf(f, d, i);
    var rl := RowLength(f, d);
    if y' < y {
      MulMonotone(rl, y' + 1, y);
    } else if y < y' {
      MulMonotone(rl, y + 1, y');
    }
  }

  /** The sample at position `j` of row `y`'s slice is output pixel
      `(j / channels, y)`, channel `j % channels`. */
  lemma PixelInRow(f: Format, d: Dims, y: nat, j: nat)
    requires y < d.outH && j < RowLength(f, d)
    ensures RowStart(f, d, y) + j < OutputLength(f, d)
    ensures PixelAt(f, d, RowStart(f, d, y) + j) == Pixel(j / f.channels, y, j % f.channels)
  {
    var rl := RowLength(f, d);
    var i := RowStart(f, d, y) + j;
    assert RowStart(f, d, y + 1) == RowStart(f, d, y) + rl;
    DivModUnique(i, rl, y, j);
  }

  lemma MulMonotone(a: nat, b: nat, c: nat)
    requires b <= c
    ensures a * b <= a * c
  {
  }

  /** Quotient and remainder are determined by `n == q * d + r`, `0 <= r < d`. */
  lemma DivModUnique(n: nat, d: nat, q: nat, r: nat)
    requires 0 < d && r < d && n == q * d + r
    ensures n / d == q && n % d == r
  {
    var q', r' := n / d, n % d;
    assert q' * d + r' == q * d + r;
    if q' < q {
      MulMonotone(d, q' + 1, q);
      assert false;
    } else if q < q' {
      MulMonotone(d, q + 1, q');
      assert false;
    }
  }
}
