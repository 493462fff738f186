/** Upscaling by exactly two on both axes. Each output coordinate then maps
    onto a whole or a half input coordinate, so for an affine ramp the
    blended values have a closed form in integers. The two dyadic grayscale
    tables of the test suite are instances of it. */
module Doubling {
  import opened Numeric
  import opened Axis
  import opened Blend
  import opened Layout
  import opened Kernel
  import opened BilinearInterpolation

  /** On an axis doubled from `n` to `2 * n`, output coordinate `o` stands
      for input position `o / 2`, held at the last index `n - 1` for the last
      output coordinate. */
  lemma DoubledPosition(o: nat, n: nat)
    requires n >= 1 && o < 2 * n
    ensures Resolve(o, n, 2 * n).Position() == Min2(o, 2 * n - 2) as real / 2.0
  {
    HalfOf(Mapped(o, n, 2 * n), o, n);
    ClampedPosition(o, n, 2 * n);
  }

  /** A coordinate mapped from `2 * n` onto `n` is half the output coordinate. */
  lemma HalfOf(v: real, o: nat, n: nat)
    requires n > 0 && v * (2 * n) as real == (o * n) as real
    ensures v == o as real / 2.0
  {
    var nr := n as real;
    assert (2 * n) as real == 2.0 * nr;
    assert (o * n) as real == o as real * nr;
    assert (v * 2.0) * nr == o as real * nr;
    Cancel(v * 2.0, o as real, nr);
  }

  lemma Cancel(x: real, y: real, z: real)
    requires z > 0.0 && x * z == y * z
    ensures x == y
  {
  }

  /** Halving a natural number and truncating is integer division by two. */
  lemma TruncHalf(k: nat)
    ensures Trunc(k as real / 2.0) == k / 2
  {
    assert k as real / 2.0 == (k / 2) as real + (k % 2) as real / 2.0;
  }

  /** Doubling a nonnegative ramp `a * row + b * col`: output sample `(x, y)`
      is `(a * y' + b * x') / 2` where `x'` and `y'` stop at the second to last
      output coordinate, so the last output row and column repeat the one
      before them. */
  lemma DoubledRamp(input: seq<int>, n: nat, m: nat, a: nat, b: nat)
    requires ValidInput(Gray(Byte), Dims(n, m, 2 * n, 2 * m), input)
    requires forall i :: 0 <= i < |input| ==> input[i] == a * (i / n) + b * (i % n)
    ensures var r := RescaleGrayscale(Byte, input, n, m, 2 * n, 2 * m);
            forall i :: 0 <= i < |r| ==>
              r[i] == (a * Min2(i / (2 * n), 2 * m - 2) + b * Min2(i % (2 * n), 2 * n - 2)) / 2
  {
    var r := RescaleGrayscale(Byte, input, n, m, 2 * n, 2 * m);
    forall i | 0 <= i < |r|
      ensures r[i] == (a * Min2(i / (2 * n), 2 * m - 2) + b * Min2(i % (2 * n), 2 * n - 2)) / 2
    {
      DoubledRampSample(input, n, m, a, b, i);
    }
  }

  lemma DoubledRampSample(input: seq<int>, n: nat, m: nat, a: nat, b: nat, i: nat)
    requires ValidInput(Gray(Byte), Dims(n, m, 2 * n, 2 * m), input)
    requires forall i :: 0 <= i < |input| ==> input[i] == a * (i / n) + b * (i % n)
    requires i < OutputLength(Gray(Byte), Dims(n, m, 2 * n, 2 * m))
    ensures Rescaled(Gray(Byte), Dims(n, m, 2 * n, 2 * m), input)[i]
         == (a * Min2(i / (2 * n), 2 * m - 2) + b * Min2(i % (2 * n), 2 * n - 2)) / 2
  {
    var f, d := Gray(Byte), Dims(n, m, 2 * n, 2 * m);
    var p := PixelAt(f, d, i);
    assert p.c == 0;
    DivModUnique(i, 2 * n, p.y, p.x);
    forall row: nat, col: nat | row < m && col < n
      ensures input[InputOffset(f, d, row, col, 0)] == a * row + b * col + 0
    {
      DivModUnique(n * row + col, n, row, col);
    }
    AffineSample(f, d, input, p, a, b, 0);
    DoubledPosition(p.y, m);
    DoubledPosition(p.x, n);
    var y, x := Min2(p.y, 2 * m - 2), Min2(p.x, 2 * n - 2);
    HalvedAffine(a, b, y, x);
    TruncHalf(a * y + b * x);
  }

  lemma HalvedAffine(a: nat, b: nat, y: nat, x: nat)
    ensures a * y + b * x >= 0
    ensures Affine(a, b, 0, y as real / 2.0, x as real / 2.0) == (a * y + b * x) as real / 2.0
  {
    MulMonotone(a, 0, y);
    MulMonotone(b, 0, x);
    assert (a * y) as real == a as real * y as real;
    assert (b * x) as real == b as real * x as real;
  }

  /** The 2x2 to 4x4 table of the test suite: the vertical ramp `0, 10`
      doubled. */
  lemma Grayscale2x2To4x4(input: seq<int>)
    requires input == [0, 0, 10, 10]
    ensures RescaleGrayscale(Byte, input, 2, 2, 4, 4)
         == [ 0,  0,  0,  0,
              5,  5,  5,  5,
             10, 10, 10, 10,
             10, 10, 10, 10]
  {
    forall i | 0 <= i < |input|
      ensures input[i] == 10 * (i / 2) + 0 * (i % 2)
    {
    }
    DoubledRamp(input, 2, 2, 10, 0);
    Table2x2To4x4(RescaleGrayscale(Byte, input, 2, 2, 4, 4));
  }

  lemma Table2x2To4x4(r: seq<int>)
    requires |r| == 16
    requires forall i :: 0 <= i < |r| ==> r[i] == (10 * Min2(i / 4, 2) + 0 * Min2(i % 4, 2)) / 2
    ensures r == [0, 0, 0, 0, 5, 5, 5, 5, 10, 10, 10, 10, 10, 10, 10, 10]
  {
  }

  /** The first 4x4 to 8x8 table of the test suite: the vertical ramp `0, 5,
      10, 15` doubled; odd rows fall halfway and are truncated. */
  lemma GrayscaleRows4x4To8x8(input: seq<int>)
    requires input == [ 0,  0,  0,  0,
                        5,  5,  5,  5,
                       10, 10, 10, 10,
                       15, 15, 15, 15]
    ensures RescaleGrayscale(Byte, input, 4, 4, 8, 8)
         == [ 0,  0,  0,  0,  0,  0,  0,  0]
          + [ 2,  2,  2,  2,  2,  2,  2,  2]
          + [ 5,  5,  5,  5,  5,  5,  5,  5]
          + [ 7,  7,  7,  7,  7,  7,  7,  7]
          + [10, 10, 10, 10, 10, 10, 10, 10]
          + [12, 12, 12, 12, 12, 12, 12, 12]
          + [15, 15, 15, 15, 15, 15, 15, 15]
          + [15, 15, 15, 15, 15, 15, 15, 15]
  {
    forall i | 0 <= i < |input|
      ensures input[i] == 5 * (i / 4) + 0 * (i % 4)
    {
    }
    DoubledRamp(input, 4, 4, 5, 0);
    TableRows4x4To8x8(RescaleGrayscale(Byte, input, 4, 4, 8, 8));
  }

  lemma TableRows4x4To8x8(r: seq<int>)
    requires |r| == 64
    requires forall i :: 0 <= i < |r| ==> r[i] == (5 * Min2(i / 8, 6) + 0 * Min2(i % 8, 6)) / 2
    ensures r == [ 0,  0,  0,  0,  0,  0,  0,  0]
               + [ 2,  2,  2,  2,  2,  2,  2,  2]
               + [ 5,  5,  5,  5,  5,  5,  5,  5]
               + [ 7,  7,  7,  7,  7,  7,  7,  7]
               + [10, 10, 10, 10, 10, 10, 10, 10]
               + [12, 12, 12, 12, 12, 12, 12, 12]
               + [15, 15, 15, 15, 15, 15, 15, 15]
               + [15, 15, 15, 15, 15, 15, 15, 15]
  {
    TableRows4x4To8x8Top(r);
    TableRows4x4To8x8Bottom(r);
    EightRows(r, [ 0,  0,  0,  0,  0,  0,  0,  0],
                 [ 2,  2,  2,  2,  2,  2,  2,  2],
                 [ 5,  5,  5,  5,  5,  5,  5,  5],
                 [ 7,  7,  7,  7,  7,  7,  7,  7],
                 [10, 10, 10, 10, 10, 10, 10, 10],
                 [12, 12, 12, 12, 12, 12, 12, 12],
                 [15, 15, 15, 15, 15, 15, 15, 15],
                 [15, 15, 15, 15, 15, 15, 15, 15]);
  }

  /** Rows 0 to 3 of the table. */
  lemma TableRows4x4To8x8Top(r: seq<int>)
    requires |r| == 64
    requires forall i :: 0 <= i < |r| ==> r[i] == (5 * Min2(i / 8, 6) + 0 * Min2(i % 8, 6)) / 2
    ensures r[0..8] == [ 0,  0,  0,  0,  0,  0,  0,  0]
    ensures r[8..16] == [ 2,  2,  2,  2,  2,  2,  2,  2]
    ensures r[16..24] == [ 5,  5,  5,  5,  5,  5,  5,  5]
    ensures r[24..32] == [ 7,  7,  7,  7,  7,  7,  7,  7]
  {
  }

  /** Rows 4 to 7 of the table. */
  lemma TableRows4x4To8x8Bottom(r: seq<int>)
    requires |r| == 64
    requires forall i :: 0 <= i < |r| ==> r[i] == (5 * Min2(i / 8, 6) + 0 * Min2(i % 8, 6)) / 2
    ensures r[32..40] == [10, 10, 10, 10, 10, 10, 10, 10]
    ensures r[40..48] == [12, 12, 12, 12, 12, 12, 12, 12]
    ensures r[48..56] == [15, 15, 15, 15, 15, 15, 15, 15]
    ensures r[56..64] == [15, 15, 15, 15, 15, 15, 15, 15]
  {
  }

  /** The second 4x4 to 8x8 table of the test suite: the ramp `0 .. 15` (value `4 *
      row + col`) doubled. */
  lemma Grayscale4x4To8x8(input: seq<int>)
    requires input == [ 0,  1,  2,  3,
                        4,  5,  6,  7,
                        8,  9, 10, 11,
                       12, 13, 14, 15]
    ensures RescaleGrayscale(Byte, input, 4, 4, 8, 8)
         == [ 0,  0,  1,  1,  2,  2,  3,  3]
          + [ 2,  2,  3,  3,  4,  4,  5,  5]
          + [ 4,  4,  5,  5,  6,  6,  7,  7]
          + [ 6,  6,  7,  7,  8,  8,  9,  9]
          + [ 8,  8,  9,  9, 10, 10, 11, 11]
          + [10, 10, 11, 11, 12, 12, 13, 13]
          + [12, 12, 13, 13, 14, 14, 15, 15]
          + [12, 12, 13, 13, 14, 14, 15, 15]
  {
    forall i | 0 <= i < |input|
      ensures input[i] == 4 * (i / 4) + 1 * (i % 4)
    {
    }
    DoubledRamp(input, 4, 4, 4, 1);
    Table4x4To8x8(RescaleGrayscale(Byte, input, 4, 4, 8, 8));
  }

  lemma Table4x4To8x8(r: seq<int>)
    requires |r| == 64
    requires forall i :: 0 <= i < |r| ==> r[i] == (4 * Min2(i / 8, 6) + 1 * Min2(i % 8, 6)) / 2
    ensures r == [ 0,  0,  1,  1,  2,  2,  3,  3]
               + [ 2,  2,  3,  3,  4,  4,  5,  5]
               + [ 4,  4,  5,  5,  6,  6,  7,  7]
               + [ 6,  6,  7,  7,  8,  8,  9,  9]
               + [ 8,  8,  9,  9, 10, 10, 11, 11]
               + [10, 10, 11, 11, 12, 12, 13, 13]
               + [12, 12, 13, 13, 14, 14, 15, 15]
               + [12, 12, 13, 13, 14, 14, 15, 15]
  {
    Table4x4To8x8Top(r);
    Table4x4To8x8Bottom(r);
    EightRows(r, [ 0,  0,  1,  1,  2,  2,  3,  3],
                 [ 2,  2,  3,  3,  4,  4,  5,  5],
                 [ 4,  4,  5,  5,  6,  6,  7,  7],
                 [ 6,  6,  7,  7,  8,  8,  9,  9],
                 [ 8,  8,  9,  9, 10, 10, 11, 11],
                 [10, 10, 11, 11, 12, 12, 13, 13],
                 [12, 12, 13, 13, 14, 14, 15, 15],
                 [12, 12, 13, 13, 14, 14, 15, 15]);
  }

  /** Rows 0 to 3 of the table. */
  lemma Table4x4To8x8Top(r: seq<int>)
    requires |r| == 64
    requires forall i :: 0 <= i < |r| ==> r[i] == (4 * Min2(i / 8, 6) + 1 * Min2(i % 8, 6)) / 2
    ensures r[0..8] == [ 0,  0,  1,  1,  2,  2,  3,  3]
    ensures r[8..16] == [ 2,  2,  3,  3,  4,  4,  5,  5]
    ensures r[16..24] == [ 4,  4,  5,  5,  6,  6,  7,  7]
    ensures r[24..32] == [ 6,  6,  7,  7,  8,  8,  9,  9]
  {
  }

  /** Rows 4 to 7 of the table. */
  lemma Table4x4To8x8Bottom(r: seq<int>)
    requires |r| == 64
    requires forall i :: 0 <= i < |r| ==> r[i] == (4 * Min2(i / 8, 6) + 1 * Min2(i % 8, 6)) / 2
    ensures r[32..40] == [ 8,  8,  9,  9, 10, 10, 11, 11]
    ensures r[40..48] == [10, 10, 11, 11, 12, 12, 13, 13]
    ensures r[48..56] == [12, 12, 13, 13, 14, 14, 15, 15]
    ensures r[56..64] == [12, 12, 13, 13, 14, 14, 15, 15]
  {
  }

  /** A 64-element sequence whose eight rows of 8 are `r0` .. `r7` is their
      concatenation. */
  lemma EightRows(r: seq<int>, r0: seq<int>, r1: seq<int>, r2: seq<int>, r3: seq<int>,
                  r4: seq<int>, r5: seq<int>, r6: seq<int>, r7: seq<int>)
    requires |r| == 64
    requires r[0..8] == r0 && r[8..16] == r1 && r[16..24] == r2 && r[24..32] == r3
    requires r[32..40] == r4 && r[40..48] == r5 && r[48..56] == r6 && r[56..64] == r7
    ensures r == r0 + r1 + r2 + r3 + r4 + r5 + r6 + r7
  {
    var t := r0 + r1 + r2 + r3 + r4 + r5 + r6 + r7;
    assert |t| == 64;
    forall i | 0 <= i < 64
      ensures t[i] == r[i]
    {
    }
  }
}
