/** Byte strings as the hub compares, increments and prefixes them (packages/core/src/bytes.ts). */
module ByteStrings {

  type Byte = x: int | 0 <= x < 256
  type Bytes = seq<Byte>

  /** Strict lexicographic order, a proper prefix being smaller. */
  predicate Less(a: Bytes, b: Bytes) {
    b != [] && (a == [] || a[0] < b[0] || (a[0] == b[0] && Less(a[1..], b[1..])))
  }

  lemma {:induction false} LessSplit(p: Bytes, a: Bytes, b: Bytes)
    ensures Less(p + a, p + b) <==> Less(a, b)
  {
    if p == [] {
      assert p + a == a && p + b == b;
    } else {
      assert (p + a)[1..] == p[1..] + a && (p + b)[1..] == p[1..] + b;
      LessSplit(p[1..], a, b);
    }
  }

  /** The first difference decides. */
  lemma LessAt(a: Bytes, b: Bytes, k: nat)
    requires k < |a| && k < |b| && a[..k] == b[..k] && a[k] != b[k]
    ensures Less(a, b) <==> a[k] < b[k]
  {
    assert a == a[..k] + a[k..] && b == a[..k] + b[k..];
    LessSplit(a[..k], a[k..], b[k..]);
  }

  lemma {:induction false} LessTotal(a: Bytes, b: Bytes)
    ensures Less(a, b) || Less(b, a) || a == b
    ensures !(Less(a, b) && Less(b, a))
    ensures !Less(a, a)
  {
    if a != [] && b != [] {
      LessTotal(a[1..], b[1..]);
      assert a == [a[0]] + a[1..] && b == [b[0]] + b[1..];
    }
    if a != [] {
      LessTotal(a[1..], a[1..]);
    }
  }

  lemma {:induction false} LessTransitive(a: Bytes, b: Bytes, c: Bytes)
    requires Less(a, b) && Less(b, c)
    ensures Less(a, c)
  {
    if a != [] && a[0] == b[0] == c[0] {
      LessTransitive(a[1..], b[1..], c[1..]);
    }
  }

  /** Extending both sides below the point where they already differ keeps the order. */
  lemma {:induction false} LessExtend(a: Bytes, b: Bytes, x: Bytes, y: Bytes)
    requires !(a <= b) && !(b <= a)
    ensures Less(a + x, b + y) <==> Less(a, b)
  {
    var k := FirstDifference(a, b);
    assert (a + x)[..k] == a[..k] && (b + y)[..k] == b[..k];
    LessAt(a, b, k);
    LessAt(a + x, b + y, k);
  }

  lemma {:induction false} FirstDifference(a: Bytes, b: Bytes) returns (k: nat)
    requires !(a <= b) && !(b <= a)
    ensures k < |a| && k < |b| && a[..k] == b[..k] && a[k] != b[k]
  {
    if a[0] != b[0] {
      k := 0;
    } else {
      var a', b' := a[1..], b[1..];
      assert a == [a[0]] + a' && b == [b[0]] + b';
      var k' := FirstDifference(a', b');
      k := k' + 1;
      assert a[..k] == [a[0]] + a'[..k'] && b[..k] == [b[0]] + b'[..k'];
    }
  }

  /** A proper prefix is smaller than each of its extensions. */
  lemma {:induction false} PrefixLess(p: Bytes, a: Bytes)
    requires p <= a && p != a
    ensures Less(p, a) && !Less(a, p)
  {
    assert a == p + a[|p|..] && p == p + [];
    LessSplit(p, [], a[|p|..]);
    LessTotal(p, a);
  }

  function Filter(s: seq<Bytes>, keep: Bytes -> bool): seq<Bytes> {
    if s == [] then []
    else
      var n := |s| - 1;
      if keep(s[n]) then Filter(s[..n], keep) + [s[n]] else Filter(s[..n], keep)
  }

  lemma {:induction false} FilterCount(s: seq<Bytes>, keep: Bytes -> bool, x: Bytes)
    ensures multiset(Filter(s, keep))[x] == if keep(x) then multiset(s)[x] else 0
  {
    if s != [] {
      FilterCount(s[..|s| - 1], keep, x);
      assert s == s[..|s| - 1] + [s[|s| - 1]];
    }
  }

  lemma {:induction false} FilterAppend(a: seq<Bytes>, b: seq<Bytes>, keep: Bytes -> bool)
    ensures Filter(a + b, keep) == Filter(a, keep) + Filter(b, keep)
  {
    if b == [] {
      assert a + b == a;
    } else {
      var n := |b| - 1;
      FilterAppend(a, b[..n], keep);
      assert (a + b)[..|a + b| - 1] == a + b[..n];
    }
  }
}
