/** The four-corner blend of one output sample: a horizontal linear
    interpolation on the upper and on the lower input row, then a vertical one
    between the two results. */
module Blend {
  import opened Axis

  /** The four corner samples of one output sample, one channel. */
  datatype Quad = Quad(upLeft: int, upRight: int, downLeft: int, downRight: int) {

    function Min(): int {
      Min2(Min2(upLeft, upRight), Min2(downLeft, downRight))
    }

    function Max(): int {
      Max2(Max2(upLeft, upRight), Max2(downLeft, downRight))
    }
  }

  function Min2(a: int, b: int): int { if a <= b then a else b }

  function Max2(a: int, b: int): int { if a <= b then b else a }

  /** `lowWeight * a + highWeight * b`: a convex combination of two values,
      which therefore lies between them. */
  function Lerp(a: real, b: real, p: Neighbour): (r: real)
    requires p.Convex()
    ensures a <= b ==> a <= r <= b
    ensures b <= a ==> b <= r <= a
  {
    LerpBetween(a, b, p.lowWeight, p.highWeight);
    p.lowWeight * a + p.highWeight * b
  }

  lemma LerpBetween(a: real, b: real, l: real, h: real)
    requires 0.0 <= h <= 1.0 && l == 1.0 - h
    ensures a <= b ==> a <= l * a + h * b <= b
    ensures b <= a ==> b <= l * a + h * b <= a
  {
    assert l * a == a - h * a;
    assert h * b - h * a == h * (b - a);
    if a <= b {
      ShrinkByWeight(h, b - a);
    } else {
      ShrinkByWeight(h, a - b);
      assert h * (b - a) == -(h * (a - b));
    }
  }

  /** A weight in `[0, 1]` scales a nonnegative distance into `[0, d]`. */
  lemma ShrinkByWeight(h: real, d: real)
    requires 0.0 <= h <= 1.0 && 0.0 <= d
    ensures 0.0 <= h * d <= d
  {
    assert d - h * d == (1.0 - h) * d;
  }

  /** The blended value of one output sample, in the operation order of the
      source: `dy2 * (dx2 * UL + dx1 * UR) + dy1 * (dx2 * DL + dx1 * DR)`. */
  function Bilinear(q: Quad, px: Neighbour, py: Neighbour): (r: real)
    requires px.Convex() && py.Convex()
    ensures q.Min() as real <= r <= q.Max() as real
  {
    var up := Lerp(q.upLeft as real, q.upRight as real, px);
    var down := Lerp(q.downLeft as real, q.downRight as real, px);
    Lerp(up, down, py)
  }

  /** With all weight on the low neighbour of both axes the blend is the
      upper-left corner itself. */
  lemma BilinearAtUpperLeft(q: Quad, px: Neighbour, py: Neighbour)
    requires px.Convex() && py.Convex()
    requires px.highWeight == 0.0 && py.highWeight == 0.0
    ensures Bilinear(q, px, py) == q.upLeft as real
  {
    assert Lerp(q.upLeft as real, q.upRight as real, px) == q.upLeft as real;
  }

  /** The blend is the weighted sum of the four corners with the products of
      the axis weights, and those four corner weights sum to one. */
  lemma BilinearIsWeightedSum(q: Quad, px: Neighbour, py: Neighbour)
    requires px.Convex() && py.Convex()
    ensures Bilinear(q, px, py)
         == (py.lowWeight * px.lowWeight) * q.upLeft as real
          + (py.lowWeight * px.highWeight) * q.upRight as real
          + (py.highWeight * px.lowWeight) * q.downLeft as real
          + (py.highWeight * px.highWeight) * q.downRight as real
    ensures py.lowWeight * px.lowWeight + py.lowWeight * px.highWeight
          + py.highWeight * px.lowWeight + py.highWeight * px.highWeight == 1.0
  {
    BlendExpansion(q, px, py);
    ProductWeights(py.lowWeight, py.highWeight, px.lowWeight, px.highWeight);
  }

  lemma BlendExpansion(q: Quad, px: Neighbour, py: Neighbour)
    requires px.Convex() && py.Convex()
    ensures Bilinear(q, px, py) == Weighted(q.upLeft as real, q.upRight as real, q.downLeft as real, q.downRight as real, px, py)
  {
    BilinearNested(q, px, py);
    NestedExpand(q.upLeft as real, q.upRight as real, q.downLeft as real, q.downRight as real, px, py);
  }

  /** `a`, `b`, `c`, `d` weighted by the products of the axis weights. */
  function Weighted(a: real, b: real, c: real, d: real, px: Neighbour, py: Neighbour): real {
    (py.lowWeight * px.lowWeight) * a + (py.lowWeight * px.highWeight) * b
      + (py.highWeight * px.lowWeight) * c + (py.highWeight * px.highWeight) * d
  }

  /** The blend is the vertical blend of the two horizontal blends. */
  lemma BilinearNested(q: Quad, px: Neighbour, py: Neighbour)
    requires px.Convex() && py.Convex()
    ensures Bilinear(q, px, py)
         == Lerp(Lerp(q.upLeft as real, q.upRight as real, px), Lerp(q.downLeft as real, q.downRight as real, px), py)
  {
  }

  /** Distributing the vertical weights over the two horizontal blends. */
  lemma NestedExpand(a: real, b: real, c: real, d: real, px: Neighbour, py: Neighbour)
    requires px.Convex() && py.Convex()
    ensures Lerp(Lerp(a, b, px), Lerp(c, d, px), py) == Weighted(a, b, c, d, px, py)
  {
    var u, v := Lerp(a, b, px), Lerp(c, d, px);
    LerpIsSum(a, b, px);
    LerpIsSum(c, d, px);
    LerpIsSum(u, v, py);
    Expand(py.lowWeight, py.highWeight, px.lowWeight, px.highWeight, a, b, c, d, u, v);
  }

  lemma LerpIsSum(a: real, b: real, p: Neighbour)
    requires p.Convex()
    ensures Lerp(a, b, p) == p.lowWeight * a + p.highWeight * b
  {
  }

  /** `yl * u + yh * v` with `u`, `v` linear in `a, b` and `c, d`, multiplied out. */
  lemma Expand(yl: real, yh: real, xl: real, xh: real, a: real, b: real, c: real, d: real, u: real, v: real)
    requires u == xl * a + xh * b && v == xl * c + xh * d
    ensures yl * u + yh * v == (yl * xl) * a + (yl * xh) * b + (yh * xl) * c + (yh * xh) * d
  {
  }

  /** Products of two pairs of weights that each sum to one also sum to one. */
  lemma ProductWeights(yl: real, yh: real, xl: real, xh: real)
    requires yl + yh == 1.0 && xl + xh == 1.0
    ensures yl * xl + yl * xh + yh * xl + yh * xh == 1.0
  {
    assert yl * xl + yl * xh == yl * (xl + xh);
    assert yh * xl + yh * xh == yh * (xl + xh);
  }

  /** The blend as `RescaleGrayscale_RegularForLoop` writes it, with the
      names of the two weights of each axis swapped:
      `dy1 * (dx1 * UL + dx2 * UR) + dy2 * (dx1 * DL + dx2 * DR)` where
      `dx2`, `dy2` are the fractional parts. */
  function BilinearRegularForLoop(q: Quad, dx2: real, dy2: real): (r: real)
    ensures 0.0 <= dx2 <= 1.0 && 0.0 <= dy2 <= 1.0 ==> q.Min() as real <= r <= q.Max() as real
  {
    if 0.0 <= dx2 <= 1.0 && 0.0 <= dy2 <= 1.0 then
      RegularForLoopWithin(q, dx2, dy2);
      RegularForLoopBlend(q, dx2, dy2)
    else
      RegularForLoopBlend(q, dx2, dy2)
  }

  /** `dy1 * (dx1 * UL + dx2 * UR) + dy2 * (dx1 * DL + dx2 * DR)` with
      `dx1 = 1 - dx2` and `dy1 = 1 - dy2`. */
  function RegularForLoopBlend(q: Quad, dx2: real, dy2: real): real {
    Mix(Mix(q.upLeft as real, q.upRight as real, dx2), Mix(q.downLeft as real, q.downRight as real, dx2), dy2)
  }

  /** `(1 - h) * a + h * b`: one blend step of the loop, with the complement
      weight computed from the fractional part `h`. */
  function Mix(a: real, b: real, h: real): real {
    (1.0 - h) * a + h * b
  }

  /** With weights in `[0, 1]` the loop's blend is the main blend with
      weights `1 - dx2, dx2` and `1 - dy2, dy2`, so it shares its bounds. */
  lemma RegularForLoopWithin(q: Quad, dx2: real, dy2: real)
    requires 0.0 <= dx2 <= 1.0 && 0.0 <= dy2 <= 1.0
    ensures q.Min() as real <= RegularForLoopBlend(q, dx2, dy2) <= q.Max() as real
  {
    var px, py := Neighbour(0, 0, 1.0 - dx2, dx2), Neighbour(0, 0, 1.0 - dy2, dy2);
    RegularForLoopBlendAgrees(q, px, py);
  }

  /** A convex blend is the loop's blend step at its high weight. */
  lemma LerpIsMix(a: real, b: real, p: Neighbour)
    requires p.Convex()
    ensures Lerp(a, b, p) == Mix(a, b, p.highWeight)
  {
  }

  /** Both spellings of the blend compute the same value. */
  lemma RegularForLoopBlendAgrees(q: Quad, px: Neighbour, py: Neighbour)
    requires px.Convex() && py.Convex()
    ensures RegularForLoopBlend(q, px.highWeight, py.highWeight) == Bilinear(q, px, py)
  {
    var up := Lerp(q.upLeft as real, q.upRight as real, px);
    var down := Lerp(q.downLeft as real, q.downRight as real, px);
    LerpIsMix(q.upLeft as real, q.upRight as real, px);
    LerpIsMix(q.downLeft as real, q.downRight as real, px);
    LerpIsMix(up, down, py);
  }

  /** Interpolating between `k + b * low` and `k + b * high` lands at
      `k + b * position`. */
  lemma LerpAffine(k: real, b: real, p: Neighbour)
    requires p.Convex()
    ensures Lerp(k + b * p.low as real, k + b * p.high as real, p) == k + b * p.Position()
  {
    var l, h := p.lowWeight, p.highWeight;
    assert l * (k + b * p.low as real) == l * k + b * (l * p.low as real);
    assert h * (k + b * p.high as real) == h * k + b * (h * p.high as real);
    assert l * k + h * k == k;
  }

  /** The value of the affine image `a * row + b * col + c0` at a fractional
      position. */
  function Affine(a: int, b: int, c0: int, row: real, col: real): real {
    a as real * row + b as real * col + c0 as real
  }

  /** At whole coordinates the affine image takes its integer value. */
  lemma AffineAtInteger(a: int, b: int, c0: int, row: int, col: int)
    ensures (a * row + b * col + c0) as real == Affine(a, b, c0, row as real, col as real)
  {
    assert (a * row) as real == a as real * row as real;
    assert (b * col) as real == b as real * col as real;
  }

  /** A horizontal blend along one row of the affine image lands on the
      image's value at the blended column. */
  lemma LerpAlongRow(a: int, b: int, c0: int, row: real, p: Neighbour)
    requires p.Convex()
    ensures Lerp(Affine(a, b, c0, row, p.low as real), Affine(a, b, c0, row, p.high as real), p)
         == Affine(a, b, c0, row, p.Position())
  {
    LerpAffine(a as real * row + c0 as real, b as real, p);
  }

  /** A vertical blend along one column of the affine image lands on the
      image's value at the blended row. */
  lemma LerpAlongColumn(a: int, b: int, c0: int, col: real, p: Neighbour)
    requires p.Convex()
    ensures Lerp(Affine(a, b, c0, p.low as real, col), Affine(a, b, c0, p.high as real, col), p)
         == Affine(a, b, c0, p.Position(), col)
  {
    LerpAffine(b as real * col + c0 as real, a as real, p);
  }

  /** The blend reproduces an affine image `a * row + b * col + c0` exactly:
      it is the image's value at the blended position of both axes. */
  lemma AffineBlend(q: Quad, px: Neighbour, py: Neighbour, a: int, b: int, c0: int)
    requires px.Convex() && py.Convex()
    requires q.upLeft == a * py.low + b * px.low + c0
    requires q.upRight == a * py.low + b * px.high + c0
    requires q.downLeft == a * py.high + b * px.low + c0
    requires q.downRight == a * py.high + b * px.high + c0
    ensures Bilinear(q, px, py) == Affine(a, b, c0, py.Position(), px.Position())
  {
    AffineAtInteger(a, b, c0, py.low, px.low);
    AffineAtInteger(a, b, c0, py.low, px.high);
    AffineAtInteger(a, b, c0, py.high, px.low);
    AffineAtInteger(a, b, c0, py.high, px.high);
    LerpAlongRow(a, b, c0, py.low as real, px);
    LerpAlongRow(a, b, c0, py.high as real, px);
    LerpAlongColumn(a, b, c0, px.Position(), py);
  }
}
