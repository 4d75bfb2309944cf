/** Comparison, increment, decrement and prefixes of byte strings (packages/core/src/bytes.ts). */
module ByteArithmetic {
  import opened ByteStrings
  import opened Wrappers

  method BytesCompare(a: Bytes, b: Bytes) returns (r: int)
    ensures r == if Less(a, b) then -1 else if Less(b, a) then 1 else 0
    ensures r == 0 <==> a == b
  {
    var len := if |a| < |b| then |a| else |b|;
    for i := 0 to len
      invariant a[..i] == b[..i]
    {
      if a[i] != b[i] {
        LessAt(a, b, i);
        LessAt(b, a, i);
        return if a[i] < b[i] then -1 else 1;
      }
    }
    if |a| != |b| {
      if |a| < |b| {
        PrefixLess(a, b);
        return -1;
      } else {
        PrefixLess(b, a);
        return 1;
      }
    }
    assert a == a[..len] == b[..len] == b;
    LessTotal(a, b);
    r := 0;
  }

  method BytesStartsWith(haystack: Bytes, needle: Bytes) returns (r: bool)
    ensures r <==> needle <= haystack
  {
    if |needle| > |haystack| {
      return false;
    }
    for i := 0 to |needle|
      invariant needle[..i] == haystack[..i]
    {
      if haystack[i] != needle[i] {
        return false;
      }
    }
    r := true;
  }

  /** The number a byte string denotes, most significant byte first. */
  ghost function BigEndian(b: Bytes): nat {
    if b == [] then 0 else BigEndian(b[..|b| - 1]) * 256 + b[|b| - 1]
  }

  function Increment(b: Bytes): Bytes {
    if b == [] then [1]
    else
      var n := |b| - 1;
      if b[n] < 255 then b[..n] + [b[n] + 1] else Increment(b[..n]) + [0]
  }

  function Decrement(b: Bytes): Result<Bytes>
    requires b != []
  {
    var n := |b| - 1;
    if b[n] > 0 then Ok(b[..n] + [b[n] - 1])
    else if n == 0 then Err
    else match Decrement(b[..n])
      case Ok(r) => Ok(r + [255])
      case Err => Err
  }

  ghost predicate All(b: Bytes, x: Byte) {
    forall i :: 0 <= i < |b| ==> b[i] == x
  }

  /** The byte at `i` goes up by one and the 255s after it become zeros. */
  lemma {:induction false} IncrementShape(b: Bytes, i: nat, r: Bytes)
    requires i < |b| == |r| && b[i] < 255 && r[i] == b[i] + 1 && r[..i] == b[..i]
    requires forall k :: i < k < |b| ==> b[k] == 255 && r[k] == 0
    ensures Increment(b) == r
  {
    var n := |b| - 1;
    assert r == r[..n] + [r[n]];
    if i < n {
      assert b[..n][..i] == b[..i] && r[..n][..i] == r[..i];
      IncrementShape(b[..n], i, r[..n]);
      assert b[n] == 255 && r[n] == 0;
    }
  }

  lemma {:induction false} IncrementOverflows(b: Bytes, r: Bytes)
    requires All(b, 255) && |r| == |b| + 1 && r[0] == 1 && forall k :: 0 < k < |r| ==> r[k] == 0
    ensures Increment(b) == r
  {
    if b != [] {
      var n := |b| - 1;
      IncrementOverflows(b[..n], r[..n + 1]);
      assert r == r[..n + 1] + [r[n + 1]];
    }
  }

  lemma {:induction false} DecrementShape(b: Bytes, i: nat, r: Bytes)
    requires i < |b| == |r| && b[i] > 0 && r[i] == b[i] - 1 && r[..i] == b[..i]
    requires forall k :: i < k < |b| ==> b[k] == 0 && r[k] == 255
    ensures Decrement(b) == Ok(r)
  {
    var n := |b| - 1;
    assert r == r[..n] + [r[n]];
    if i < n {
      assert b[..n][..i] == b[..i] && r[..n][..i] == r[..i];
      DecrementShape(b[..n], i, r[..n]);
      assert b[n] == 0 && r[n] == 255;
    }
  }

  method BytesIncrement(inputBytes: Bytes) returns (r: Bytes)
    ensures r == Increment(inputBytes)
  {
    var bytes := new Byte[|inputBytes|](i requires 0 <= i < |inputBytes| => inputBytes[i]);
    var i := bytes.Length - 1;
    while i >= 0
      invariant -1 <= i < bytes.Length
      invariant forall k :: 0 <= k <= i ==> bytes[k] == inputBytes[k]
      invariant forall k :: i < k < bytes.Length ==> bytes[k] == 0 && inputBytes[k] == 255
    {
      if bytes[i] < 255 {
        bytes[i] := bytes[i] + 1;
        IncrementShape(inputBytes, i, bytes[..]);
        return bytes[..];
      }
      bytes[i] := 0;
      i := i - 1;
    }
    r := [1] + bytes[..];
    IncrementOverflows(inputBytes, r);
  }

  method BytesDecrement(inputBytes: Bytes) returns (r: Result<Bytes>)
    ensures r == if inputBytes == [] then Ok([]) else Decrement(inputBytes)
  {
    var bytes := new Byte[|inputBytes|](i requires 0 <= i < |inputBytes| => inputBytes[i]);
    var i := bytes.Length - 1;
    while i >= 0
      invariant -1 <= i < bytes.Length && (i == -1 ==> inputBytes == [])
      invariant forall k :: 0 <= k <= i ==> bytes[k] == inputBytes[k]
      invariant forall k :: i < k < bytes.Length ==> bytes[k] == 255 && inputBytes[k] == 0
    {
      if bytes[i] > 0 {
        bytes[i] := bytes[i] - 1;
        DecrementShape(inputBytes, i, bytes[..]);
        return Ok(bytes[..]);
      }
      if i == 0 {
        DecrementTakesOne(inputBytes);
        return Err;
      }
      bytes[i] := 255;
      i := i - 1;
    }
    r := Ok(bytes[..]);
  }

  lemma {:induction false} IncrementAddsOne(b: Bytes)
    ensures BigEndian(Increment(b)) == BigEndian(b) + 1
    ensures |Increment(b)| == if All(b, 255) then |b| + 1 else |b|
  {
    if b == [] {
      assert Increment(b)[..0] == [];
    } else {
      var n := |b| - 1;
      var r := Increment(b);
      if b[n] < 255 {
        assert r[..n] == b[..n];
      } else {
        IncrementAddsOne(b[..n]);
        assert r[..|r| - 1] == Increment(b[..n]);
        assert All(b, 255) <==> All(b[..n], 255);
      }
    }
  }

  /** Decrement takes one away, and fails exactly on zero. */
  lemma {:induction false} DecrementTakesOne(b: Bytes)
    requires b != []
    ensures Decrement(b).Err? <==> All(b, 0)
    ensures Decrement(b).Ok? ==> BigEndian(Decrement(b).value) == BigEndian(b) - 1 && |Decrement(b).value| == |b|
  {
    var n := |b| - 1;
    if b[n] > 0 {
      assert Decrement(b).value[..n] == b[..n];
    } else if n > 0 {
      DecrementTakesOne(b[..n]);
      assert All(b, 0) <==> All(b[..n], 0);
      if Decrement(b).Ok? {
        assert Decrement(b).value[..n] == Decrement(b[..n]).value;
      }
    }
  }

  /** Decrement undoes increment unless every byte is 255. */
  lemma {:induction false} DecrementUndoesIncrement(b: Bytes)
    ensures Increment(b) != []
    ensures Decrement(Increment(b)) == Ok(b) <==> !All(b, 255)
  {
    if b == [] {
      assert Decrement([1]) == Ok([] + [0]);
    } else {
      var n := |b| - 1;
      var r := Increment(b);
      assert b == b[..n] + [b[n]];
      if b[n] < 255 {
        assert r[..n] == b[..n];
      } else {
        DecrementUndoesIncrement(b[..n]);
        assert r[..|r| - 1] == Increment(b[..n]);
        assert All(b, 255) <==> All(b[..n], 255);
        DecrementTakesOne(Increment(b[..n]));
        IncrementAddsOne(b[..n]);
      }
    }
  }

  // ---------------------------------------------------------------- prefix ranges

  /** The keys a scan from `p` up to its increment visits. */
  ghost predicate InPrefixRange(p: Bytes, k: Bytes) {
    !Less(k, p) && Less(k, Increment(p))
  }

  lemma {:induction false} IncrementIsGreater(p: Bytes, k: Bytes)
    requires !All(p, 255) && p <= k
    ensures Less(k, Increment(p))
  {
    var n := |p| - 1;
    if p[n] < 255 {
      assert k[..n] == p[..n] == Increment(p)[..n];
      LessAt(k, Increment(p), n);
    } else {
      assert All(p, 255) <==> All(p[..n], 255);
      IncrementIsGreater(p[..n], k);
      IncrementAddsOne(p[..n]);
      var q := Increment(p[..n]);
      LessTotal(k, q);
      if q <= k {
        PrefixLess(q, k);
        assert false;
      }
      LessExtend(k, q, [], [0]);
      assert k + [] == k;
    }
  }

  /** Every key that starts with `p` is in its range. */
  lemma PrefixInRange(p: Bytes, k: Bytes)
    requires !All(p, 255) && p <= k
    ensures InPrefixRange(p, k)
  {
    IncrementIsGreater(p, k);
    if p == k {
      LessTotal(p, p);
    } else {
      PrefixLess(p, k);
    }
  }

  /** When the last byte is below 255, only keys that start with `p` are in its range. */
  lemma RangeHasPrefix(p: Bytes, k: Bytes)
    requires p != [] && p[|p| - 1] < 255 && InPrefixRange(p, k)
    ensures p <= k
  {
    var n := |p| - 1;
    var q := Increment(p);
    if !(p <= k) {
      if k <= p {
        PrefixLess(k, p);
      } else {
        var d := FirstDifference(p, k);
        LessAt(k, p, d);
        assert k[d] > p[d];
        assert d < n ==> q[..d] == p[..d] && q[d] == p[d];
        if d < n {
          LessAt(k, q, d);
        } else {
          assert q[..n] == p[..n] == k[..n];
          if k[n] > q[n] {
            LessAt(k, q, n);
          } else {
            assert q <= k;
            if q != k {
              PrefixLess(q, k);
            } else {
              LessTotal(q, q);
            }
          }
        }
      }
    }
  }

  /** When it is 255, the range holds a shorter key that does not start with `p`. */
  lemma ExtraKeyInRange(p: Bytes) returns (k: Bytes)
    requires !All(p, 255) && p[|p| - 1] == 255
    ensures InPrefixRange(p, k) && !(p <= k)
  {
    var n := |p| - 1;
    assert All(p, 255) <==> All(p[..n], 255);
    k := Increment(p[..n]);
    IncrementAddsOne(p[..n]);
    IncrementIsGreater(p[..n], p);
    LessTotal(p, k);
    PrefixLess(k, k + [0]);
  }

  /** For a prefix of nothing but 255s the range misses a key that starts with it. */
  lemma MissedKey(p: Bytes) returns (k: Bytes)
    requires All(p, 255)
    ensures p <= k && !InPrefixRange(p, k)
  {
    k := p + [255];
    IncrementAddsOne(p);
    var q := Increment(p);
    assert q[0] == 1 by {
      AllGrows(p);
    }
    assert k[0] == 255;
    LessTotal(k, q);
  }

  lemma {:induction false} AllGrows(p: Bytes)
    requires All(p, 255)
    ensures Increment(p) != [] && Increment(p)[0] == 1
  {
    if p != [] {
      AllGrows(p[..|p| - 1]);
    }
  }

  /**
   * The range holds every key with the prefix if and only if some byte is below 255, and exactly
   * those keys if and only if the last byte is.
   */
  lemma RangeIsPrefix(p: Bytes)
    ensures (forall k :: p <= k ==> InPrefixRange(p, k)) <==> !All(p, 255)
    ensures (forall k :: InPrefixRange(p, k) <==> p <= k) <==> p != [] && p[|p| - 1] < 255
  {
    if All(p, 255) {
      var k := MissedKey(p);
    } else {
      forall k | p <= k
        ensures InPrefixRange(p, k)
      {
        PrefixInRange(p, k);
      }
      if p[|p| - 1] < 255 {
        forall k | InPrefixRange(p, k)
          ensures p <= k
        {
          RangeHasPrefix(p, k);
        }
      } else {
        var k := ExtraKeyInRange(p);
      }
    }
  }
}
