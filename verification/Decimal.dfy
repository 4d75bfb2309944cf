/** Decimal strings: the padded timestamp prefix of a sync id and the string order of block numbers. */
module Decimal {
  import opened ByteStrings

  const ZERO: Byte := 48

  ghost predicate IsDigits(d: Bytes) {
    forall i :: 0 <= i < |d| ==> ZERO <= d[i] < ZERO + 10
  }

  /** Number.prototype.toString in base ten. */
  function ToString(n: nat): (d: Bytes)
    ensures d != []
  {
    if n < 10 then [ZERO + n] else ToString(n / 10) + [ZERO + n % 10]
  }

  /** String.prototype.padStart(width, "0"). */
  function PadStart(d: Bytes, width: nat): Bytes
    decreases width - |d|
  {
    if |d| < width then PadStart([ZERO] + d, width) else d
  }

  ghost function Value(d: Bytes): int {
    if d == [] then 0 else Value(d[..|d| - 1]) * 10 + d[|d| - 1] - ZERO
  }

  ghost function Pow10(n: nat): (p: nat)
    ensures p > 0
  {
    if n == 0 then 1 else 10 * Pow10(n - 1)
  }

  lemma {:induction false} ToStringValue(n: nat)
    ensures IsDigits(ToString(n)) && Value(ToString(n)) == n
  {
    if n >= 10 {
      ToStringValue(n / 10);
      var d := ToString(n);
      assert d[..|d| - 1] == ToString(n / 10);
    } else {
      assert ToString(n)[..0] == [];
    }
  }

  /** A number below ten to the k has at most k digits, and exactly k when it is at least ten to the k - 1. */
  lemma {:induction false} ToStringLength(n: nat, k: nat)
    requires k > 0 && n < Pow10(k)
    ensures |ToString(n)| <= k
    ensures n >= Pow10(k - 1) && n > 0 ==> |ToString(n)| == k
  {
    if n >= 10 {
      assert k > 1 by {
        assert Pow10(1) == 10 * Pow10(0);
      }
      ToStringLength(n / 10, k - 1);
    } else if k > 1 {
      assert Pow10(k - 1) == 10 * Pow10(k - 2);
    }
  }

  lemma {:induction false} ToStringLonger(a: nat, b: nat)
    requires a <= b
    ensures |ToString(a)| <= |ToString(b)|
  {
    if a >= 10 {
      ToStringLonger(a / 10, b / 10);
    }
  }

  lemma {:induction false} ValueZero(d: Bytes)
    ensures Value([ZERO] + d) == Value(d)
  {
    if d == [] {
      assert Value([]) == 0;
      assert ([ZERO] + d)[..0] == [];
    } else {
      ValueZero(d[..|d| - 1]);
      assert ([ZERO] + d)[..|d|] == [ZERO] + d[..|d| - 1];
    }
  }

  lemma {:induction false} PadStartValue(d: Bytes, width: nat)
    requires IsDigits(d) && |d| <= width
    ensures var p := PadStart(d, width); |p| == width && IsDigits(p) && Value(p) == Value(d)
    decreases width - |d|
  {
    if |d| < width {
      ValueZero(d);
      PadStartValue([ZERO] + d, width);
    }
  }

  /** On digit strings of one width, the byte order is the numeric order. */
  lemma {:induction false} OrderIsNumeric(a: Bytes, b: Bytes)
    requires |a| == |b| && IsDigits(a) && IsDigits(b)
    ensures Less(a, b) <==> Value(a) < Value(b)
    ensures a == b <==> Value(a) == Value(b)
  {
    if a != [] {
      var n := |a| - 1;
      OrderIsNumeric(a[..n], b[..n]);
      assert a == a[..n] + [a[n]] && b == b[..n] + [b[n]];
      if a[..n] == b[..n] {
        LessSplit(a[..n], [a[n]], [b[n]]);
      } else {
        LessExtend(a[..n], b[..n], [a[n]], [b[n]]);
      }
    }
  }
}
