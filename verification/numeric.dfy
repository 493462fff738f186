/** Element types of the sample buffers and the double-to-integer conversions
    the kernel applies to them. */
module Numeric {

  /** The five integer sample encodings of the grayscale overloads; the colour
      overloads use `Byte` per channel. */
  datatype ElemType = Byte | Short | UShort | Int | UInt {

    /** Smallest value of the element type. */
    function Lo(): int {
      match this
      case Byte => 0
      case Short => -0x8000
      case UShort => 0
      case Int => -0x8000_0000
      case UInt => 0
    }

    /** Largest value of the element type. */
    function Hi(): int {
      match this
      case Byte => 0xFF
      case Short => 0x7FFF
      case UShort => 0xFFFF
      case Int => 0x7FFF_FFFF
      case UInt => 0xFFFF_FFFF
    }

    predicate Contains(v: int) {
      Lo() <= v <= Hi()
    }
  }

  /** A buffer all of whose samples are values of the element type. */
  predicate AllIn(t: ElemType, s: seq<int>) {
    forall i :: 0 <= i < |s| ==> t.Contains(s[i])
  }

  /** The C# `(int)` cast of a double: rounding toward zero. Characterised as
      the integer nearest to zero that is less than one away from `v`. */
  function Trunc(v: real): (r: int)
    ensures 0.0 <= v ==> 0 <= r && r as real <= v < r as real + 1.0
    ensures v < 0.0 ==> r <= 0 && r as real - 1.0 < v <= r as real
  {
    if v >= 0.0 then v.Floor else -((-v).Floor)
  }

  /** Truncation never leaves an integer interval that contains its argument. */
  lemma TruncWithin(v: real, lo: int, hi: int)
    requires lo as real <= v <= hi as real
    ensures lo <= Trunc(v) <= hi
  {
    var r := Trunc(v);
    if v >= 0.0 {
      assert r as real <= v <= hi as real;
      assert (lo as real) - 1.0 <= v - 1.0 < r as real;
    } else {
      assert lo as real <= v <= r as real;
      assert r as real < v + 1.0 <= hi as real + 1.0;
    }
  }

  /** Truncation is the identity on values that are already integers. */
  lemma TruncOfInteger(k: int)
    ensures Trunc(k as real) == k
  {
  }

  /** The narrowing conversion `(T)v` of an unchecked C# double-to-integral
      cast. It is defined exactly when the value rounded toward zero is a value
      of `T`, and then yields that value. */
  function Narrow(t: ElemType, v: real): (r: int)
    requires t.Lo() as real - 1.0 < v < t.Hi() as real + 1.0
    ensures t.Contains(r)
    ensures v >= 0.0 ==> 0 <= r && v - 1.0 < r as real <= v
    ensures v < 0.0 ==> r <= 0 && v <= r as real < v + 1.0
  {
    Trunc(v)
  }
}
