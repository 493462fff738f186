/** The per-axis part of the kernel: the scale factor, the mapping of an
    output coordinate to a fractional input coordinate, and the resolution of
    that coordinate into two clamped neighbour indices and their weights. The
    same resolver serves rows (once per output row) and columns. */
module Axis {
  import opened Numeric

  /** The two input neighbours of one output coordinate on one axis, with the
      blend weight of each (`dx2`/`dx1` and `dy2`/`dy1` in the source). */
  datatype Neighbour = Neighbour(low: nat, high: nat, lowWeight: real, highWeight: real) {

    /** The weights form a convex pair. */
    predicate Convex() {
      0.0 <= highWeight <= 1.0 && lowWeight == 1.0 - highWeight
    }

    /** Both indices address an axis of extent `n`, and the high neighbour is
        the next index except at the last one, where it is clamped. */
    predicate ClampedIn(n: nat) {
      low <= high < n && (high == low + 1 || high == low == n - 1)
    }

    /** The input coordinate the weighted pair stands for. */
    function Position(): real {
      lowWeight * low as real + highWeight * high as real
    }
  }

  /** The scale factor `in / out` of one axis. */
  function Scale(n: nat, m: nat): (s: real)
    requires m > 0
    ensures s * (m as real) == n as real
  {
    (n as real) / (m as real)
  }

  /** The fractional input coordinate of output coordinate `o`, `o * scale`. */
  function Mapped(o: nat, n: nat, m: nat): (v: real)
    requires o < m
    ensures 0.0 <= v
    ensures v * (m as real) == (o * n) as real
    ensures n > 0 ==> v < n as real
  {
    var v := (o as real) * Scale(n, m);
    MappedBelowExtent(o, n, m, v);
    v
  }

  lemma MappedBelowExtent(o: nat, n: nat, m: nat, v: real)
    requires o < m && v == (o as real) * Scale(n, m)
    ensures v * (m as real) == (o * n) as real
    ensures n > 0 ==> v < n as real
  {
    var s := Scale(n, m);
    calc {
      v * (m as real);
      (o as real) * (s * (m as real));
      (o as real) * (n as real);
    }
    if n > 0 {
      assert v * (m as real) < (n as real) * (m as real) by {
        assert (o as real) * (n as real) < (m as real) * (n as real);
      }
    }
  }

  /** Neighbour resolution for output coordinate `o` on an axis mapping an
      input extent `n` onto an output extent `m`: the low index is the
      truncated mapped coordinate, the high index the next one clamped to the
      last index, and the high weight the fractional part. */
  function Resolve(o: nat, n: nat, m: nat): (p: Neighbour)
    requires n >= 1 && o < m
    ensures p.ClampedIn(n)
    ensures p.Convex() && p.highWeight < 1.0
    ensures p.low as real + p.highWeight == Mapped(o, n, m)
  {
    var v := Mapped(o, n, m);
    var low := Trunc(v);
    var high := if low == n - 1 then low else low + 1;
    var frac := v - low as real;
    Neighbour(low, high, 1.0 - frac, frac)
  }

  /** An exact reference for the low neighbour: with exact arithmetic the
      truncated mapped coordinate is the integer quotient `(o * in) / out`. */
  lemma LowIsIntegerQuotient(o: nat, n: nat, m: nat)
    requires n >= 1 && o < m
    ensures Resolve(o, n, m).low == (o * n) / m
  {
    var v := Mapped(o, n, m);
    var q := (o * n) / m;
    var r := (o * n) % m;
    var mr := m as real;
    assert (o * n) as real == (q * m) as real + r as real;
    assert (v - q as real) * mr == r as real;
    UnitFraction(v - q as real, r as real, mr);
    var low := Resolve(o, n, m).low;
    assert low as real <= v < low as real + 1.0;
  }

  /** A quotient `b / d` with `0 <= b < d` is a fraction in `[0, 1)`. */
  lemma UnitFraction(a: real, b: real, d: real)
    requires d > 0.0 && a * d == b && 0.0 <= b < d
    ensures 0.0 <= a < 1.0
  {
  }

  /** Under identity scaling every output coordinate maps onto the input
      coordinate with the same index and takes it with full weight. */
  lemma IdentityResolve(o: nat, n: nat)
    requires o < n
    ensures Resolve(o, n, n).low == o
    ensures Resolve(o, n, n).highWeight == 0.0
    ensures Resolve(o, n, n).lowWeight == 1.0
  {
    assert Mapped(o, n, n) * (n as real) == (o as real) * (n as real);
    assert Mapped(o, n, n) == o as real;
  }

  /** Clamp to edge: the blended position of an output coordinate is its
      mapped coordinate, except past the last input index, where it stops at
      that index. */
  lemma ClampedPosition(o: nat, n: nat, m: nat)
    requires n >= 1 && o < m
    ensures var v := Mapped(o, n, m);
            Resolve(o, n, m).Position() == if v <= (n - 1) as real then v else (n - 1) as real
  {
    var v := Mapped(o, n, m);
    var p := Resolve(o, n, m);
    var h := p.highWeight;
    assert p.Position() == p.low as real + h * (p.high - p.low) as real;
    if p.high == p.low + 1 {
      assert p.Position() == v;
      assert v < (n - 1) as real;
    } else {
      assert p.Position() == p.low as real;
      assert p.low == n - 1;
    }
  }
}
