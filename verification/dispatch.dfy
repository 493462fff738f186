/** The row-parallel dispatch of the kernel. Each row iteration computes its
    samples from the input, the dimensions and its row index alone, and writes
    only its own slice of the output; so running the iterations in any order,
    which is all `Parallel.For` adds to the sequential row loop, fills the
    same output. */
module Dispatch {
  import opened Numeric
  import opened Layout
  import opened Kernel

  /** The samples one row iteration stores, in storage order: a function of
      the input, the dimensions and the row index only. */
  function Row(f: Format, d: Dims, input: seq<int>, y: nat): (r: seq<int>)
    requires ValidInput(f, d, input) && y < d.outH
    ensures |r| == RowLength(f, d)
    ensures r == Rescaled(f, d, input)[RowStart(f, d, y)..RowStart(f, d, y + 1)]
  {
    var r := seq(RowLength(f, d), j requires 0 <= j < RowLength(f, d) =>
      PixelInRow(f, d, y, j);
      Sample(f, d, input, Pixel(j / f.channels, y, j % f.channels)));
    RowIsSliceOfOutput(f, d, input, y, r);
    r
  }

  lemma RowIsSliceOfOutput(f: Format, d: Dims, input: seq<int>, y: nat, r: seq<int>)
    requires ValidInput(f, d, input) && y < d.outH
    requires |r| == RowLength(f, d)
    requires forall j :: 0 <= j < |r| ==> r[j] == Sample(f, d, input, Pixel(j / f.channels, y, j % f.channels))
    ensures r == Rescaled(f, d, input)[RowStart(f, d, y)..RowStart(f, d, y + 1)]
  {
    var out := Rescaled(f, d, input);
    RowBounds(f, d, y);
    forall j | 0 <= j < |r|
      ensures r[j] == out[RowStart(f, d, y) + j]
    {
      PixelInRow(f, d, y, j);
      assert out[RowStart(f, d, y) + j] == Sample(f, d, input, PixelAt(f, d, RowStart(f, d, y) + j));
    }
  }

  /** One row iteration applied to an output buffer: the slice of row `y`
      receives the row's samples and every other sample is unchanged. */
  function WriteRow(f: Format, d: Dims, input: seq<int>, buf: seq<int>, y: nat): (r: seq<int>)
    requires ValidInput(f, d, input) && y < d.outH && |buf| == OutputLength(f, d)
    ensures |r| == |buf|
    ensures forall i :: 0 <= i < |buf| ==>
      r[i] == if RowOf(f, d, i) == y then Rescaled(f, d, input)[i] else buf[i]
  {
    var lo, hi := RowStart(f, d, y), RowStart(f, d, y + 1);
    RowBounds(f, d, y);
    var row := Row(f, d, input, y);
    var r := buf[..lo] + row + buf[hi..];
    forall i | 0 <= i < |buf|
      ensures r[i] == if RowOf(f, d, i) == y then Rescaled(f, d, input)[i] else buf[i]
    {
      RowOfIsUnique(f, d, i, y);
      SpliceAt(buf, row, lo, hi, i);
    }
    r
  }

  /** Sample `i` of `buf` with the slice `[lo, hi)` replaced by `row`. */
  lemma SpliceAt(buf: seq<int>, row: seq<int>, lo: nat, hi: nat, i: nat)
    requires lo <= hi <= |buf| && |row| == hi - lo && i < |buf|
    ensures |buf[..lo] + row + buf[hi..]| == |buf|
    ensures (buf[..lo] + row + buf[hi..])[i] == if lo <= i < hi then row[i - lo] else buf[i]
  {
  }

  /** The row iterations run one after another in the order `order`. */
  function RunRows(f: Format, d: Dims, input: seq<int>, buf: seq<int>, order: seq<nat>): (r: seq<int>)
    requires ValidInput(f, d, input) && |buf| == OutputLength(f, d)
    requires forall j :: 0 <= j < |order| ==> order[j] < d.outH
    ensures |r| == |buf|
    ensures forall i :: 0 <= i < |buf| ==>
      r[i] == if RowOf(f, d, i) in order then Rescaled(f, d, input)[i] else buf[i]
    decreases |order|
  {
    if order == [] then buf
    else RunRows(f, d, input, WriteRow(f, d, input, buf, order[0]), order[1..])
  }

  /** `Parallel.For` over the output rows: whatever order the iterations run
      in, and whatever the array held before, once every row has run the
      buffer is the output the sequential row loop computes. */
  lemma {:induction false} AnyRowOrderFillsOutput(f: Format, d: Dims, input: seq<int>, buf: seq<int>, order: seq<nat>)
    requires ValidInput(f, d, input) && |buf| == OutputLength(f, d)
    requires forall j :: 0 <= j < |order| ==> order[j] < d.outH
    requires forall y :: 0 <= y < d.outH ==> y in order
    ensures RunRows(f, d, input, buf, order) == Rescaled(f, d, input)
  {
    var r := RunRows(f, d, input, buf, order);
    forall i | 0 <= i < |buf|
      ensures r[i] == Rescaled(f, d, input)[i]
    {
      assert RowOf(f, d, i) in order;
    }
  }

  /** The sequential row loop and any parallel schedule produce the same output. */
  method SequentialMatchesParallel(f: Format, d: Dims, input: seq<int>, order: seq<nat>) returns (output: seq<int>)
    requires ValidInput(f, d, input)
    requires forall j :: 0 <= j < |order| ==> order[j] < d.outH
    requires forall y :: 0 <= y < d.outH ==> y in order
    ensures |output| == OutputLength(f, d)
    ensures forall buf :: |buf| == OutputLength(f, d) ==> output == RunRows(f, d, input, buf, order)
  {
    output := Rescale(f, d, input);
    forall buf | |buf| == OutputLength(f, d)
      ensures output == RunRows(f, d, input, buf, order)
    {
      AnyRowOrderFillsOutput(f, d, input, buf, order);
    }
  }
}
