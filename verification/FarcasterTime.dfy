/** Farcaster time and hub event ids (packages/core/src/time.ts). */
module FarcasterTime {
  import opened Arithmetic
  import opened Wrappers

  const FARCASTER_EPOCH := 1609459200000
  const MAX_SECONDS := 4294967295

  /** Unix milliseconds to whole seconds since the epoch; Math.round rounds halves up. */
  function ToFarcasterTime(time: int): (r: Result<nat>)
    ensures r.Ok? <==> 1609459200000 <= time < 1609459200000 + 4294967295 * 1000 + 500
    ensures r.Ok? ==> -500 < r.value * 1000 + 1609459200000 - time <= 500
  {
    if time < FARCASTER_EPOCH then Err
    else
      var secondsSinceEpoch := (time - FARCASTER_EPOCH + 500) / 1000;
      if secondsSinceEpoch > MAX_SECONDS then Err else Ok(secondsSinceEpoch)
  }

  function FromFarcasterTime(time: nat): int {
    time * 1000 + FARCASTER_EPOCH
  }

  // ---------------------------------------------------------------- event ids

  const SEQUENCE_BITS := 12
  const TWO_12 := 4096

  type Bits = seq<bool>

  /** Number.prototype.toString(2). */
  function ToBinary(n: nat): (s: Bits)
    ensures s != []
  {
    if n < 2 then [n == 1] else ToBinary(n / 2) + [n % 2 == 1]
  }

  /** The number that a binary string denotes. */
  function ParseBinary(s: Bits): nat {
    if s == [] then 0 else 2 * ParseBinary(s[..|s| - 1]) + if s[|s| - 1] then 1 else 0
  }

  function Pow2(n: nat): (p: nat)
    ensures p > 0
  {
    if n == 0 then 1 else 2 * Pow2(n - 1)
  }

  lemma {:induction false} ParseToBinary(n: nat)
    ensures ParseBinary(ToBinary(n)) == n
  {
    if n >= 2 {
      ParseToBinary(n / 2);
      assert ToBinary(n)[..|ToBinary(n)| - 1] == ToBinary(n / 2);
    } else {
      assert ToBinary(n)[..0] == [];
    }
  }

  lemma {:induction false} ParseAppend(a: Bits, b: Bits)
    ensures ParseBinary(a + b) == ParseBinary(a) * Pow2(|b|) + ParseBinary(b)
  {
    if b == [] {
      assert a + b == a;
    } else {
      var n := |b| - 1;
      ParseAppend(a, b[..n]);
      assert (a + b)[..|a + b| - 1] == a + b[..n];
      assert b == b[..n] + [b[n]];
      Doubled(ParseBinary(a), Pow2(n), ParseBinary(b[..n]));
    }
  }

  lemma Doubled(x: nat, p: nat, y: nat)
    ensures 2 * (x * p + y) == x * (2 * p) + 2 * y
  {
  }

  lemma PadZero(s: Bits)
    ensures ParseBinary([false] + s) == ParseBinary(s)
  {
    ParseAppend([false], s);
    assert [false][..0] == [];
    assert ParseBinary([false]) == 0;
  }

  lemma {:induction false} ParseBound(s: Bits)
    ensures ParseBinary(s) < Pow2(|s|)
  {
    if s != [] {
      ParseBound(s[..|s| - 1]);
    }
  }

  lemma {:induction false} ToBinaryLength(n: nat, k: nat)
    requires k > 0 && n < Pow2(k)
    ensures |ToBinary(n)| <= k
  {
    if n >= 2 {
      assert k > 1 by {
        assert Pow2(1) == 2 * Pow2(0);
      }
      ToBinaryLength(n / 2, k - 1);
    }
  }

  lemma Pow12()
    ensures Pow2(SEQUENCE_BITS) == TWO_12
  {
    assert Pow2(4) == 16 && Pow2(8) == 256;
  }

  function IdWidth(sequence: nat): nat {
    if |ToBinary(sequence)| < SEQUENCE_BITS then SEQUENCE_BITS else |ToBinary(sequence)|
  }

  /** The id as the concatenated bits denote it. */
  ghost function ExactId(timestamp: nat, sequence: nat): nat
    requires timestamp >= FARCASTER_EPOCH
  {
    (timestamp - 1609459200000) * 4096 + sequence
  }

  /** The id as a double. */
  ghost function EventId(timestamp: nat, sequence: nat): nat
    requires timestamp >= FARCASTER_EPOCH
  {
    Round(ExactId(timestamp, sequence))
  }

  // ---------------------------------------------------------------- doubles

  /** Two to the 53: every smaller natural number is a double. */
  const SAFE := 0x20_0000_0000_0000
  const TWO_41 := 0x200_0000_0000

  /** The distance between the doubles around a number. */
  function Spacing(n: nat): (u: nat)
    ensures u >= 1
  {
    if n < SAFE then 1 else 2 * Spacing(n / 2)
  }

  /** Rounding `q` units and `r` to whole units, to an even number of them at a tie. */
  function RoundUnits(q: nat, r: nat, u: nat): nat {
    if 2 * r < u || (2 * r == u && q % 2 == 0) then q * u else (q + 1) * u
  }

  function RoundTo(n: nat, u: nat): nat
    requires u >= 1
  {
    RoundUnits(n / u, n % u, u)
  }

  /** The double nearest to a natural number. */
  function Round(n: nat): nat {
    RoundTo(n, Spacing(n))
  }

  /** parseInt(s, 2). */
  function ParseInt(s: Bits): nat {
    Round(ParseBinary(s))
  }

  lemma RoundSafe(n: nat)
    requires n <= SAFE
    ensures Round(n) == n
  {
    if n == SAFE {
      assert Spacing(n / 2) == 1;
      assert Spacing(n) == 2;
    }
  }

  lemma {:induction false} SpacingBounds(n: nat)
    ensures n < SAFE * Spacing(n)
    ensures Spacing(n) > 1 ==> n >= SAFE / 2 * Spacing(n)
  {
    if n >= SAFE {
      SpacingBounds(n / 2);
    }
  }

  lemma {:induction false} SpacingGrows(a: nat, b: nat)
    requires a <= b
    ensures Spacing(a) == Spacing(b) || 2 * Spacing(a) <= Spacing(b)
  {
    if a >= SAFE {
      SpacingGrows(a / 2, b / 2);
    }
  }

  lemma {:induction false} SpacingIsPower(n: nat, k: nat) returns (j: nat)
    requires n < SAFE * Pow2(k)
    ensures j <= k && Spacing(n) == Pow2(j)
  {
    if n < SAFE {
      j := 0;
    } else {
      var j' := SpacingIsPower(n / 2, k - 1);
      j := j' + 1;
    }
  }

  /** A rounded number is one of the two multiples around it. */
  lemma RoundToNear(n: nat, u: nat)
    requires u >= 1
    ensures n / u * u <= RoundTo(n, u) <= (n / u + 1) * u && n / u * u <= n
  {
    DivisionBounds(n, u);
    assert (n / u + 1) * u == n / u * u + u;
  }

  lemma RoundUnitsMonotone(q: nat, r: nat, p: nat, s: nat, u: nat)
    requires r < u && s < u && q * u + r <= p * u + s
    ensures RoundUnits(q, r, u) <= RoundUnits(p, s, u)
  {
    assert (p + 1) * u == p * u + u;
    if q > p {
      MulMonotone(p + 1, q, u);
      assert false;
    } else if q < p {
      MulMonotone(q + 1, p, u);
    }
  }

  lemma Euclid(n: nat, u: nat)
    requires u >= 1
    ensures n == n / u * u + n % u && n % u < u
  {
  }

  lemma RoundToMonotone(a: nat, b: nat, u: nat)
    requires a <= b && u >= 1
    ensures RoundTo(a, u) <= RoundTo(b, u)
  {
    Euclid(a, u);
    Euclid(b, u);
    RoundUnitsMonotone(a / u, a % u, b / u, b % u, u);
  }

  lemma RoundMonotone(a: nat, b: nat)
    requires a <= b
    ensures Round(a) <= Round(b)
  {
    var u, v := Spacing(a), Spacing(b);
    SpacingGrows(a, b);
    if u == v {
      RoundToMonotone(a, b, u);
    } else {
      SpacingBounds(a);
      SpacingBounds(b);
      RoundToNear(a, u);
      RoundToNear(b, v);
      QuotientBelow(a, u, SAFE);
      MulMonotone(a / u + 1, SAFE, u);
      DivisionAtLeast(b, v, SAFE / 2);
      MulMonotone(SAFE / 2, b / v, v);
    }
  }

  lemma QuotientBelow(n: nat, u: nat, m: nat)
    requires u >= 1 && n < m * u
    ensures n / u < m
  {
    DivisionBounds(n, u);
    if n / u >= m {
      MulMonotone(m, n / u, u);
      assert false;
    }
  }

  // ---------------------------------------------------------------- making and reading ids

  lemma TwelveBitWidth(sequence: nat)
    requires sequence < TWO_12
    ensures Pow2(IdWidth(sequence)) == TWO_12
  {
    Pow12();
    ToBinaryLength(sequence, SEQUENCE_BITS);
  }

  lemma TwelveBitId(timestamp: nat, sequence: nat)
    requires timestamp >= FARCASTER_EPOCH && sequence < TWO_12
    ensures (timestamp - FARCASTER_EPOCH) * Pow2(IdWidth(sequence)) + sequence == ExactId(timestamp, sequence)
  {
    TwelveBitWidth(sequence);
  }

  lemma IdFits(timestamp: nat, sequence: nat)
    requires timestamp >= FARCASTER_EPOCH && sequence < TWO_12
    ensures timestamp - FARCASTER_EPOCH < TWO_41 ==> EventId(timestamp, sequence) == ExactId(timestamp, sequence) < SAFE
  {
    if timestamp - FARCASTER_EPOCH < TWO_41 {
      RoundSafe(ExactId(timestamp, sequence));
    }
  }

  /** The number denoted by the digits of `offset` followed by `width` digits that denote `low`. */
  ghost function Shifted(offset: nat, width: nat, low: nat): nat {
    offset * Pow2(width) + low
  }

  lemma MadeId(timestamp: nat, sequence: nat)
    requires timestamp >= FARCASTER_EPOCH
    ensures var id := Round(Shifted(timestamp - FARCASTER_EPOCH, IdWidth(sequence), sequence));
      && (sequence < TWO_12 ==> id == EventId(timestamp, sequence))
      && (sequence < TWO_12 && timestamp - FARCASTER_EPOCH < TWO_41 ==> id == ExactId(timestamp, sequence))
  {
    if sequence < TWO_12 {
      TwelveBitId(timestamp, sequence);
      IdFits(timestamp, sequence);
    }
  }

  lemma Concatenated(offset: nat, binarySeq: Bits)
    ensures ParseBinary(ToBinary(offset) + binarySeq) == Shifted(offset, |binarySeq|, ParseBinary(binarySeq))
  {
    ParseToBinary(offset);
    ParseAppend(ToBinary(offset), binarySeq);
  }

  /** Concatenates the binary strings of the offset and of the padded sequence number. */
  method MakeEventId(timestamp: nat, sequence: nat) returns (id: nat)
    requires timestamp >= FARCASTER_EPOCH
    ensures id == Round(Shifted(timestamp - FARCASTER_EPOCH, IdWidth(sequence), sequence))
    ensures sequence < TWO_12 ==> id == EventId(timestamp, sequence)
    ensures sequence < TWO_12 && timestamp - FARCASTER_EPOCH < TWO_41 ==> id == ExactId(timestamp, sequence)
  {
    var binarySeq := Padded(sequence);
    id := ParseConcatenated(timestamp - FARCASTER_EPOCH, binarySeq);
    MadeId(timestamp, sequence);
  }

  method ParseConcatenated(offset: nat, binarySeq: Bits) returns (id: nat)
    ensures id == Round(Shifted(offset, |binarySeq|, ParseBinary(binarySeq)))
  {
    var binaryTimestamp := ToBinary(offset);
    Concatenated(offset, binarySeq);
    id := ParseInt(binaryTimestamp + binarySeq);
  }

  /** The sequence number in binary, padded with zeros to twelve digits. */
  method Padded(sequence: nat) returns (binarySeq: Bits)
    ensures |binarySeq| == IdWidth(sequence) && ParseBinary(binarySeq) == sequence
  {
    binarySeq := ToBinary(sequence);
    ParseToBinary(sequence);
    while |binarySeq| < SEQUENCE_BITS
      invariant ParseBinary(binarySeq) == sequence
      invariant |ToBinary(sequence)| <= |binarySeq| <= IdWidth(sequence)
    {
      PadZero(binarySeq);
      binarySeq := [false] + binarySeq;
    }
  }

  /**
   * Ids never compare against the order of pairs of timestamp and sequence number; for 41-bit
   * offsets they fit a double and compare exactly as the pairs do.
   */
  lemma EventIdOrder(t: nat, x: nat, u: nat, y: nat)
    requires t >= FARCASTER_EPOCH && u >= FARCASTER_EPOCH && x < TWO_12 && y < TWO_12
    ensures t < u || (t == u && x <= y) ==> EventId(t, x) <= EventId(u, y)
    ensures t - FARCASTER_EPOCH < TWO_41 ==> EventId(t, x) == ExactId(t, x) < SAFE
    ensures t - FARCASTER_EPOCH < TWO_41 && u - FARCASTER_EPOCH < TWO_41 ==>
      (EventId(t, x) < EventId(u, y) <==> t < u || (t == u && x < y))
  {
    if t < u || (t == u && x <= y) {
      RoundMonotone(ExactId(t, x), ExactId(u, y));
    }
    IdFits(t, x);
    IdFits(u, y);
  }

  /** One millisecond past 41 bits two pairs share an id, and it is read as the later one. */
  lemma LateIdsCollide(t: nat)
    requires t == FARCASTER_EPOCH + TWO_41
    ensures EventId(t, 4095) == EventId(t + 1, 0)
    ensures ExtractEventTimestamp(EventId(t, 4095)) == Some(t + 1)
  {
    var a, b := ExactId(t, 4095), ExactId(t + 1, 0);
    assert a == SAFE + 4095 && b == SAFE + 4096;
    assert Spacing(a / 2) == 1 == Spacing(b / 2);
    assert Spacing(a) == 2 == Spacing(b);
    ExtractIs(SAFE + 4096);
    RoundSafe(TWO_41 + 1);
    RoundSafe(t + 1);
  }

  /** The end index that String.prototype.slice(0, end) uses. */
  function SliceEnd(length: nat, end: int): (e: nat)
    ensures e <= length
  {
    if end > length then length else if end >= 0 then end else if length + end >= 0 then length + end else 0
  }

  /** None stands for NaN, which parseInt gives for the empty string. */
  function ExtractEventTimestamp(eventId: nat): Option<nat> {
    var binaryEventId := ToBinary(eventId);
    var binaryTimestamp := binaryEventId[..SliceEnd(|binaryEventId|, |binaryEventId| - SEQUENCE_BITS)];
    if binaryTimestamp == [] then None else Some(Round(ParseInt(binaryTimestamp) + FARCASTER_EPOCH))
  }

  lemma {:induction false} BinaryShift(n: nat, k: nat, s: nat)
    requires n > 0 && s < Pow2(k)
    ensures |ToBinary(n * Pow2(k) + s)| == |ToBinary(n)| + k
    ensures ToBinary(n * Pow2(k) + s)[..|ToBinary(n)|] == ToBinary(n)
  {
    if k == 0 {
      assert n * Pow2(0) + s == n;
    } else {
      var p := Pow2(k - 1);
      var m := n * Pow2(k) + s;
      assert n * (2 * p) == 2 * (n * p);
      assert n * p >= 1;
      assert m / 2 == n * p + s / 2;
      BinaryShift(n, k - 1, s / 2);
    }
  }

  lemma {:induction false} TopBit(n: nat)
    requires n > 0
    ensures ToBinary(n)[0]
  {
    if n >= 2 {
      TopBit(n / 2);
    }
  }

  lemma {:induction false} ParsePositive(s: Bits)
    requires s != [] && s[0]
    ensures ParseBinary(s) > 0
  {
    if |s| > 1 {
      ParsePositive(s[..|s| - 1]);
    }
  }

  /** An id of more than twelve bits is read as the number above the last twelve. */
  lemma ExtractIs(id: nat)
    requires id >= TWO_12
    ensures ExtractEventTimestamp(id) == Some(Round(Round(id / TWO_12) + FARCASTER_EPOCH))
  {
    var n := id / TWO_12;
    Pow12();
    assert id == n * TWO_12 + id % TWO_12;
    BinaryShift(n, SEQUENCE_BITS, id % TWO_12);
    ParseToBinary(n);
  }

  lemma NotEpoch(p: nat)
    requires 0 < p < TWO_12
    ensures Round(Round(p) + FARCASTER_EPOCH) != FARCASTER_EPOCH
  {
    RoundSafe(p);
    RoundSafe(p + FARCASTER_EPOCH);
  }

  /** An id of at most twelve bits is never read as the epoch. */
  lemma ShortIdMisread(id: nat)
    requires id < TWO_12
    ensures ExtractEventTimestamp(id) != Some(FARCASTER_EPOCH)
  {
    Pow12();
    ToBinaryLength(id, SEQUENCE_BITS);
    var bits := ToBinary(id);
    var prefix := bits[..SliceEnd(|bits|, |bits| - SEQUENCE_BITS)];
    if prefix != [] {
      assert id > 0;
      TopBit(id);
      ParsePositive(prefix);
      ParseBound(prefix);
      Pow2Grows(|prefix|, SEQUENCE_BITS);
      NotEpoch(ParseBinary(prefix));
    }
  }

  lemma {:induction false} Pow2Grows(j: nat, k: nat)
    requires j <= k
    ensures Pow2(j) <= Pow2(k)
  {
    if j < k {
      Pow2Grows(j, k - 1);
    }
  }

  lemma {:induction false} Pow2Split(j: nat, k: nat)
    requires j <= k
    ensures Pow2(k) == Pow2(j) * Pow2(k - j)
    ensures j < k ==> Pow2(k - j) % 2 == 0
  {
    if j < k {
      Pow2Split(j, k - 1);
      assert Pow2(j) * (2 * Pow2(k - 1 - j)) == 2 * (Pow2(j) * Pow2(k - 1 - j));
    }
  }

  /** Whether a number `s` above a multiple of 4096, the `n`-th, stays below the next when rounded to `u`. */
  ghost predicate StaysBelow(n: nat, s: nat, u: nat) {
    2 * s + u < 2 * TWO_12 || (u == TWO_12 && 2 * s == u && n % 2 == 0)
  }

  /** The last of the units below a multiple of 4096 is the one that can be rounded up to it. */
  lemma UnitsStayBelow(n: nat, y: nat, r: nat, u: nat, q: nat)
    requires r < u && q * u == n * TWO_12 + y && (q + 1) * u == n * TWO_12 + y + u
    requires y + 2 * u <= TWO_12 || y + u == TWO_12
    requires y + u == TWO_12 && u < TWO_12 ==> q % 2 == 1
    requires u == TWO_12 ==> q == n
    ensures n * TWO_12 <= RoundUnits(q, r, u) <= (n + 1) * TWO_12
    ensures RoundUnits(q, r, u) < (n + 1) * TWO_12 <==> StaysBelow(n, y + r, u)
  {
  }

  lemma UnitProducts(n: nat, a: nat, u: nat, c: nat)
    requires u * c == TWO_12 && a < c
    ensures var q := n * c + a; q * u == n * TWO_12 + a * u && (q + 1) * u == n * TWO_12 + a * u + u
    ensures if a + 1 < c then a * u + 2 * u <= TWO_12 else a * u + u == TWO_12
  {
    var q := n * c + a;
    assert n * c * u == n * (u * c);
    assert q * u == n * c * u + a * u;
    assert (q + 1) * u == q * u + u;
    if a + 1 < c {
      MulMonotone(a + 2, c, u);
      assert (a + 2) * u == a * u + 2 * u;
    } else {
      assert (a + 1) * u == a * u + u;
    }
  }

  lemma RoundKeepsTop(n: nat, s: nat, u: nat, c: nat)
    requires s < TWO_12 == u * c && u >= 1 && (u < TWO_12 ==> c % 2 == 0)
    ensures n * TWO_12 <= RoundTo(n * TWO_12 + s, u) <= (n + 1) * TWO_12
    ensures RoundTo(n * TWO_12 + s, u) < (n + 1) * TWO_12 <==> StaysBelow(n, s, u)
  {
    var a, r := s / u, s % u;
    Euclid(s, u);
    QuotientBelow(s, u, c);
    InUnits(n, a, r, u, c);
    UnitProducts(n, a, u, c);
    OddQuotient(n, c, a);
    assert u == TWO_12 ==> c == 1;
    UnitsStayBelow(n, a * u, r, u, n * c + a);
  }

  lemma InUnits(n: nat, a: nat, r: nat, u: nat, c: nat)
    requires u * c == TWO_12 && r < u
    ensures var m := n * TWO_12 + a * u + r; m / u == n * c + a && m % u == r
  {
    var m, q := n * TWO_12 + a * u + r, n * c + a;
    assert n * c * u == n * (u * c);
    assert q * u == n * c * u + a * u;
    DivisionIs(m, u, q, r);
    Euclid(m, u);
  }

  lemma OddQuotient(n: nat, c: nat, a: nat)
    ensures c % 2 == 0 && a + 1 == c ==> (n * c + a) % 2 == 1
  {
    if c % 2 == 0 && a + 1 == c {
      var h := c / 2;
      assert n * c + a == 2 * (n * h + h - 1) + 1;
    }
  }

  /**
   * Whether the rounded id is still read as its timestamp: it is after the epoch, and the sequence
   * number is more than half the distance between doubles below 4096. At a distance of 4096 an even
   * offset also survives the tie.
   */
  ghost predicate Recoverable(timestamp: nat, sequence: nat)
    requires timestamp >= FARCASTER_EPOCH
  {
    var n, u := timestamp - FARCASTER_EPOCH, Spacing(ExactId(timestamp, sequence));
    n > 0 && StaysBelow(n, sequence, u)
  }

  lemma ReadBack(id: nat, n: nat)
    requires 0 < n && n + FARCASTER_EPOCH < SAFE && n * TWO_12 <= id <= (n + 1) * TWO_12
    ensures ExtractEventTimestamp(id) == Some(n + FARCASTER_EPOCH) <==> id < (n + 1) * TWO_12
  {
    ExtractIs(id);
    var top := id / TWO_12;
    RoundSafe(top);
    RoundSafe(top + FARCASTER_EPOCH);
  }

  /** The timestamp comes back exactly when it is recoverable, for all timestamps that are safe integers. */
  lemma ExtractRecovers(timestamp: nat, sequence: nat)
    requires FARCASTER_EPOCH <= timestamp < SAFE && sequence < TWO_12
    ensures ExtractEventTimestamp(EventId(timestamp, sequence)) == Some(timestamp) <==> Recoverable(timestamp, sequence)
  {
    var n, id := timestamp - FARCASTER_EPOCH, ExactId(timestamp, sequence);
    if n == 0 {
      RoundSafe(id);
      ShortIdMisread(id);
    } else {
      Pow12();
      assert id < SAFE * TWO_12;
      var j := SpacingIsPower(id, SEQUENCE_BITS);
      Pow2Split(j, SEQUENCE_BITS);
      RoundKeepsTop(n, sequence, Spacing(id), Pow2(SEQUENCE_BITS - j));
      ReadBack(Round(id), n);
    }
  }

  /** In particular when the offset fits 41 bits and is positive. */
  lemma ExtractRecovers41(timestamp: nat, sequence: nat)
    requires timestamp >= FARCASTER_EPOCH && timestamp - FARCASTER_EPOCH < TWO_41 && sequence < TWO_12
    ensures ExtractEventTimestamp(EventId(timestamp, sequence)) == Some(timestamp) <==> timestamp > FARCASTER_EPOCH
  {
    ExtractRecovers(timestamp, sequence);
  }

  /** Whole seconds survive the conversion to unix milliseconds and back. */
  lemma FarcasterTimeRoundTrip(seconds: nat)
    ensures ToFarcasterTime(FromFarcasterTime(seconds)) == if seconds <= MAX_SECONDS then Ok(seconds) else Err
  {
    assert (seconds * 1000 + 500) / 1000 == seconds;
  }
}
