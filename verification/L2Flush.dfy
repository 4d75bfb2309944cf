/** One flush of the block cache and the batches of a history sync (apps/hubble/src/eth/l2EventsProvider.ts). */
module L2Flush {
  import opened Arithmetic
  import opened ByteStrings
  import opened L2Ingestion
  import opened Sequences
  import Decimal

  // ---------------------------------------------------------------- stable sorting

  function Insert<T>(s: seq<T>, x: T, le: (T, T) -> bool): seq<T> {
    if s == [] || le(s[|s| - 1], x) then s + [x]
    else Insert(s[..|s| - 1], x, le) + [s[|s| - 1]]
  }

  /** Array.prototype.sort with a comparator: stable. */
  function Sort<T>(s: seq<T>, le: (T, T) -> bool): seq<T> {
    if s == [] then [] else Insert(Sort(s[..|s| - 1], le), s[|s| - 1], le)
  }

  ghost predicate Sorted<T>(s: seq<T>, le: (T, T) -> bool) {
    forall i, j :: 0 <= i < j < |s| ==> le(s[i], s[j])
  }

  ghost predicate TotalOrder<T(!new)>(le: (T, T) -> bool) {
    && (forall a, b :: le(a, b) || le(b, a))
    && (forall a, b, c :: le(a, b) && le(b, c) ==> le(a, c))
  }

  lemma {:induction false} InsertMembers<T>(s: seq<T>, x: T, le: (T, T) -> bool)
    ensures multiset(Insert(s, x, le)) == multiset(s) + multiset{x}
  {
    if s != [] && !le(s[|s| - 1], x) {
      InsertMembers(s[..|s| - 1], x, le);
      assert s == s[..|s| - 1] + [s[|s| - 1]];
    }
  }

  /** One more element at the end of a sorted sequence that it bounds. */
  lemma AppendSorted<T>(s: seq<T>, x: T, le: (T, T) -> bool)
    requires Sorted(s, le) && forall y :: y in s ==> le(y, x)
    ensures Sorted(s + [x], le)
  {
    forall i, j | 0 <= i < j < |s + [x]|
      ensures le((s + [x])[i], (s + [x])[j])
    {
      assert i < |s| && s[i] in s;
    }
  }

  lemma Bounds<T(!new)>(s: seq<T>, x: T, le: (T, T) -> bool)
    requires TotalOrder(le) && Sorted(s, le) && (s == [] || le(s[|s| - 1], x))
    ensures forall y :: y in s ==> le(y, x)
  {
    forall i | 0 <= i < |s|
      ensures le(s[i], x)
    {
      assert i < |s| - 1 ==> le(s[i], s[|s| - 1]);
    }
  }

  lemma {:induction false} InsertSorted<T(!new)>(s: seq<T>, x: T, le: (T, T) -> bool)
    requires TotalOrder(le) && Sorted(s, le)
    ensures Sorted(Insert(s, x, le), le)
  {
    if s == [] || le(s[|s| - 1], x) {
      Bounds(s, x, le);
      AppendSorted(s, x, le);
    } else {
      var n := |s| - 1;
      var r := Insert(s[..n], x, le);
      InsertSorted(s[..n], x, le);
      InsertMembers(s[..n], x, le);
      forall y | y in r
        ensures le(y, s[n])
      {
        assert y in multiset(r);
        assert y == x || y in s[..n];
      }
      AppendSorted(r, s[n], le);
    }
  }

  lemma {:induction false} SortMembers<T(!new)>(s: seq<T>, le: (T, T) -> bool)
    ensures multiset(Sort(s, le)) == multiset(s)
  {
    if s != [] {
      var n := |s| - 1;
      SortMembers(s[..n], le);
      var before := Sort(s[..n], le);
      InsertMembers(before, s[n], le);
      assert s == s[..n] + [s[n]];
      assert multiset(s) == multiset(s[..n]) + multiset{s[n]};
    }
  }

  lemma {:induction false} SortSorted<T(!new)>(s: seq<T>, le: (T, T) -> bool)
    requires TotalOrder(le)
    ensures Sorted(Sort(s, le), le) && multiset(Sort(s, le)) == multiset(s)
  {
    SortMembers(s, le);
    if s != [] {
      var n := |s| - 1;
      SortSorted(s[..n], le);
      InsertSorted(Sort(s[..n], le), s[n], le);
    }
  }

  /** The default sort compares numbers as decimal strings. */
  predicate StringOrder(a: nat, b: nat) {
    !Less(Decimal.ToString(b), Decimal.ToString(a))
  }

  predicate EventOrder(a: Event, b: Event) {
    if a.block == b.block then a.logIndex <= b.logIndex else a.block <= b.block
  }

  lemma StringOrderTotal()
    ensures TotalOrder(StringOrder)
  {
    forall a, b
      ensures StringOrder(a, b) || StringOrder(b, a)
    {
      LessTotal(Decimal.ToString(a), Decimal.ToString(b));
    }
    forall a, b, c | StringOrder(a, b) && StringOrder(b, c)
      ensures StringOrder(a, c)
    {
      var x, y, z := Decimal.ToString(a), Decimal.ToString(b), Decimal.ToString(c);
      LessTotal(x, y);
      LessTotal(y, z);
      if Less(z, x) {
        if Less(x, y) {
          LessTransitive(z, x, y);
        }
        LessTotal(x, z);
      }
    }
  }

  ghost predicate SameDigits(blocks: set<nat>) {
    forall a, b :: a in blocks && b in blocks ==> |Decimal.ToString(a)| == |Decimal.ToString(b)|
  }

  /** The number that the first `n` digits denote. */
  ghost function Leading(b: nat, n: nat): int {
    var d := Decimal.ToString(b);
    if n <= |d| then Decimal.Value(d[..n]) else b
  }

  /** A larger block does not begin with smaller digits than a smaller one. */
  ghost predicate DigitsKeepOrder(blocks: set<nat>) {
    forall a, b :: a in blocks && b in blocks && a < b ==> a <= Leading(b, |Decimal.ToString(a)|)
  }

  /** The string order puts the smaller number first exactly when the larger begins with no smaller digits. */
  lemma StringOrderExact(a: nat, b: nat)
    requires a < b
    ensures StringOrder(a, b) <==> a <= Leading(b, |Decimal.ToString(a)|)
  {
    var x, y := Decimal.ToString(a), Decimal.ToString(b);
    Decimal.ToStringLonger(a, b);
    Decimal.ToStringValue(a);
    Decimal.ToStringValue(b);
    var c := y[..|x|];
    Decimal.OrderIsNumeric(c, x);
    assert y == c + y[|x|..] && x == x + [];
    if c == x {
      LessSplit(x, y[|x|..], []);
    } else {
      LessExtend(c, x, y[|x|..], []);
    }
  }

  lemma StringOrderAntisymmetric(a: nat, b: nat)
    requires StringOrder(a, b) && StringOrder(b, a)
    ensures a == b
  {
    LessTotal(Decimal.ToString(a), Decimal.ToString(b));
    Decimal.ToStringValue(a);
    Decimal.ToStringValue(b);
  }

  /** Equally many digits are enough, as in the range of real blocks. */
  lemma SameDigitsKeepOrder(blocks: set<nat>)
    requires SameDigits(blocks)
    ensures DigitsKeepOrder(blocks)
  {
    forall a, b | a in blocks && b in blocks && a < b
      ensures a <= Leading(b, |Decimal.ToString(a)|)
    {
      var d := Decimal.ToString(b);
      assert d[..|d|] == d;
      Decimal.ToStringValue(b);
    }
  }

  // ---------------------------------------------------------------- one flush

  predicate Confirmed(b: nat, latest: nat) {
    b + NUM_CONFIRMATIONS <= latest
  }

  /** What a flush submits: the confirmed blocks in the given order, each block's events sorted. */
  function Emitted(cache: map<nat, seq<Event>>, order: seq<nat>, latest: nat): seq<Event>
    requires forall b :: b in order ==> b in cache
  {
    if order == [] then []
    else
      var b := order[|order| - 1];
      Emitted(cache, order[..|order| - 1], latest) + if Confirmed(b, latest) then Sort(cache[b], EventOrder) else []
  }

  /** The last confirmed block in the given order, zero if there is none. */
  function LastWritten(order: seq<nat>, latest: nat): nat {
    if order == [] then 0
    else if Confirmed(order[|order| - 1], latest) then order[|order| - 1]
    else LastWritten(order[..|order| - 1], latest)
  }

  /** The blocks a flush takes out of the cache. */
  function Written(order: seq<nat>, latest: nat): set<nat> {
    set b | b in order && Confirmed(b, latest)
  }

  lemma WrittenStep(order: seq<nat>, latest: nat, k: nat)
    requires k < |order|
    ensures order[..k + 1][..k] == order[..k] && order[..k + 1][k] == order[k]
    ensures Written(order[..k + 1], latest) ==
      Written(order[..k], latest) + if Confirmed(order[k], latest) then {order[k]} else {}
  {
    assert order[..k + 1] == order[..k] + [order[k]];
  }

  ghost predicate ByBlock(cache: map<nat, seq<Event>>) {
    forall b, e :: b in cache && e in cache[b] ==> e.block == b
  }

  lemma NoRepeats(order: seq<nat>, blocks: set<nat>)
    requires multiset(order) == multiset(blocks)
    ensures forall i, j :: 0 <= i < j < |order| ==> order[i] != order[j]
  {
    forall i, j | 0 <= i < j < |order|
      ensures order[i] != order[j]
    {
      var x := order[j];
      assert order == order[..j] + [x] + order[j + 1..];
      assert multiset(order)[x] <= 1;
      assert x !in multiset(order[..j]);
      assert order[i] in order[..j];
    }
  }

  /** The string sort leaves the blocks in increasing order if and only if their digits keep it. */
  lemma SortedIsIncreasing(order: seq<nat>, blocks: set<nat>)
    requires Sorted(order, StringOrder) && multiset(order) == multiset(blocks)
    ensures Increasing(order) <==> DigitsKeepOrder(blocks)
  {
    if DigitsKeepOrder(blocks) {
      forall i, j | 0 <= i < j < |order|
        ensures order[i] < order[j]
      {
        NoRepeats(order, blocks);
        assert order[i] in multiset(order) && order[j] in multiset(order);
        if order[j] < order[i] {
          StringOrderExact(order[j], order[i]);
          StringOrderAntisymmetric(order[i], order[j]);
        }
      }
    }
    if Increasing(order) {
      forall a, b | a in blocks && b in blocks && a < b
        ensures a <= Leading(b, |Decimal.ToString(a)|)
      {
        assert a in multiset(order) && b in multiset(order);
        var i :| 0 <= i < |order| && order[i] == a;
        var j :| 0 <= j < |order| && order[j] == b;
        StringOrderExact(a, b);
      }
    }
  }

  lemma SortBlock(events: seq<Event>, b: nat)
    requires forall e :: e in events ==> e.block == b
    ensures var r := Sort(events, EventOrder); Sorted(r, EventOrder) && forall e :: e in r ==> e.block == b
  {
    var r := Sort(events, EventOrder);
    SortSorted(events, EventOrder);
    forall e | e in r
      ensures e in events
    {
      assert e in multiset(r);
    }
  }

  lemma SortedJoin(a: seq<Event>, b: seq<Event>)
    requires Sorted(a, EventOrder) && Sorted(b, EventOrder)
    requires forall i, j :: 0 <= i < |a| && 0 <= j < |b| ==> a[i].block < b[j].block
    ensures Sorted(a + b, EventOrder)
  {
  }

  lemma {:induction false} EmittedInOrder(cache: map<nat, seq<Event>>, order: seq<nat>, latest: nat)
    requires ByBlock(cache) && Increasing(order) && forall b :: b in order ==> b in cache
    ensures Sorted(Emitted(cache, order, latest), EventOrder)
    ensures var s := Emitted(cache, order, latest);
      forall i, j :: 0 <= i < j < |s| ==> s[i].block < s[j].block || (s[i].block == s[j].block && s[i].logIndex <= s[j].logIndex)
    ensures forall e :: e in Emitted(cache, order, latest) ==> e.block in order
  {
    if order != [] {
      var n := |order| - 1;
      var b := order[n];
      EmittedInOrder(cache, order[..n], latest);
      SortBlock(cache[b], b);
      var before, here := Emitted(cache, order[..n], latest), Sort(cache[b], EventOrder);
      forall i, j | 0 <= i < |before| && 0 <= j < |here|
        ensures before[i].block < here[j].block
      {
        assert before[i] in before && here[j] in here;
      }
      SortedJoin(before, here);
    }
    var s := Emitted(cache, order, latest);
    assert forall i, j :: 0 <= i < j < |s| ==> EventOrder(s[i], s[j]);
  }

  lemma {:induction false} LastWrittenIsHighest(order: seq<nat>, latest: nat)
    requires Increasing(order)
    ensures forall b :: b in order && Confirmed(b, latest) ==> b <= LastWritten(order, latest)
    ensures LastWritten(order, latest) > 0 ==> LastWritten(order, latest) in order && Confirmed(LastWritten(order, latest), latest)
  {
    if order != [] {
      LastWrittenIsHighest(order[..|order| - 1], latest);
      assert order == order[..|order| - 1] + [order[|order| - 1]];
    }
  }

  lemma {:induction false} LastWrittenIsLast(order: seq<nat>, latest: nat, a: nat)
    requires Sorted(order, StringOrder) && a in order && Confirmed(a, latest)
    ensures var h := LastWritten(order, latest); h in order && Confirmed(h, latest) && StringOrder(a, h)
  {
    var n := |order| - 1;
    assert order == order[..n] + [order[n]];
    if Confirmed(order[n], latest) {
      LessTotal(Decimal.ToString(a), Decimal.ToString(a));
    } else {
      LastWrittenIsLast(order[..n], latest, a);
    }
  }

  /**
   * Among cached blocks of any lengths, the last one written is the highest confirmed one if and
   * only if that one begins with no smaller digits than another confirmed one.
   */
  lemma LastWrittenExact(order: seq<nat>, latest: nat, m: nat)
    requires Sorted(order, StringOrder) && m in order && Confirmed(m, latest)
    requires forall b :: b in order && Confirmed(b, latest) ==> b <= m
    ensures LastWritten(order, latest) == m <==>
      forall a :: a in order && Confirmed(a, latest) && a < m ==> a <= Leading(m, |Decimal.ToString(a)|)
  {
    var h := LastWritten(order, latest);
    LastWrittenIsLast(order, latest, m);
    forall a | a in order && Confirmed(a, latest) && a < m
      ensures StringOrder(a, h) && (StringOrder(a, m) <==> a <= Leading(m, |Decimal.ToString(a)|))
    {
      LastWrittenIsLast(order, latest, a);
      StringOrderExact(a, m);
    }
    if h < m && StringOrder(h, m) {
      StringOrderAntisymmetric(h, m);
    }
  }

  /** The flush submits by block and log index, and the last block written is the highest. */
  ghost predicate InBlockOrder(cache: map<nat, seq<Event>>, order: seq<nat>, latest: nat)
    requires forall b :: b in order ==> b in cache
  {
    && Sorted(Emitted(cache, order, latest), EventOrder)
    && forall b :: b in Written(order, latest) ==> b <= LastWritten(order, latest)
  }

  lemma SortedBlocks(cache: map<nat, seq<Event>>, keys: seq<nat>, latest: nat)
    requires ByBlock(cache) && multiset(keys) == multiset(cache.Keys)
    ensures var order := Sort(keys, StringOrder);
      && multiset(order) == multiset(cache.Keys) && Sorted(order, StringOrder)
      && (forall b :: b in order <==> b in cache)
      && (forall b :: b in Written(order, latest) <==> b in cache && b + 2 <= latest)
      && (forall i, j :: 0 <= i < j < |order| ==> order[i] != order[j])
      && (Increasing(order) <==> DigitsKeepOrder(cache.Keys))
      && (DigitsKeepOrder(cache.Keys) ==> InBlockOrder(cache, order, latest))
  {
    var order := Sort(keys, StringOrder);
    StringOrderTotal();
    SortSorted(keys, StringOrder);
    assert forall b :: b in order <==> b in multiset(order);
    NoRepeats(order, cache.Keys);
    SortedIsIncreasing(order, cache.Keys);
    if DigitsKeepOrder(cache.Keys) {
      EmittedInOrder(cache, order, latest);
      LastWrittenIsHighest(order, latest);
    }
  }

  class Provider {
    var onChainEventsByBlock: map<nat, seq<Event>>
    var retryDedup: set<nat>
    var submitted: seq<Event>
    var hubState: HubState

    ghost predicate Valid()
      reads this
    {
      ByBlock(onChainEventsByBlock)
    }

    constructor (hubState: HubState)
      ensures Valid() && onChainEventsByBlock == map[] && retryDedup == {} && submitted == [] && this.hubState == hubState
    {
      onChainEventsByBlock, retryDedup, submitted := map[], {}, [];
      this.hubState := hubState;
    }

    method CacheOnChainEvent(e: Event)
      requires Valid()
      modifies this`onChainEventsByBlock
      ensures Valid()
      ensures onChainEventsByBlock == old(onChainEventsByBlock)[e.block :=
        (if e.block in old(onChainEventsByBlock) then old(onChainEventsByBlock)[e.block] else []) + [e]]
    {
      var onChainEvents := if e.block in onChainEventsByBlock then onChainEventsByBlock[e.block] else [];
      onChainEventsByBlock := onChainEventsByBlock[e.block := onChainEvents + [e]];
    }

    /** A flush that no other flush overlaps; `order` is the order in which the blocks were walked. */
    method WriteCachedBlocks(latest: nat) returns (ghost order: seq<nat>)
      requires Valid()
      modifies this
      ensures Valid()
      ensures multiset(order) == multiset(old(onChainEventsByBlock).Keys) && forall b :: b in order ==> b in old(onChainEventsByBlock)
      ensures Sorted(order, StringOrder)
      ensures forall b :: b in Written(order, latest) <==> b in old(onChainEventsByBlock) && b + 2 <= latest
      ensures submitted == old(submitted) + Emitted(old(onChainEventsByBlock), order, latest)
      ensures onChainEventsByBlock == old(onChainEventsByBlock) - Written(order, latest)
      ensures retryDedup == old(retryDedup) - Written(order, latest)
      ensures hubState == if LastWritten(order, latest) > old(hubState.lastL2Block)
        then old(hubState).(lastL2Block := LastWritten(order, latest)) else old(hubState)
      ensures Increasing(order) <==> DigitsKeepOrder(old(onChainEventsByBlock).Keys)
      ensures DigitsKeepOrder(old(onChainEventsByBlock).Keys) ==>
        InBlockOrder(old(onChainEventsByBlock), order, latest)
    {
      var keys := InSomeOrder(onChainEventsByBlock.Keys);
      var cachedBlocks := Sort(keys, StringOrder);
      order := cachedBlocks;
      SortedBlocks(onChainEventsByBlock, keys, latest);
      var highestBlockWritten := WriteBlocks(cachedBlocks, latest);
      if highestBlockWritten > hubState.lastL2Block {
        hubState := hubState.(lastL2Block := highestBlockWritten);
      }
    }

    method WriteBlocks(cachedBlocks: seq<nat>, latest: nat) returns (highestBlockWritten: nat)
      requires forall b :: b in cachedBlocks ==> b in onChainEventsByBlock
      requires forall i, j :: 0 <= i < j < |cachedBlocks| ==> cachedBlocks[i] != cachedBlocks[j]
      modifies this`onChainEventsByBlock, this`retryDedup, this`submitted
      ensures highestBlockWritten == LastWritten(cachedBlocks, latest)
      ensures submitted == old(submitted) + Emitted(old(onChainEventsByBlock), cachedBlocks, latest)
      ensures onChainEventsByBlock == old(onChainEventsByBlock) - Written(cachedBlocks, latest)
      ensures retryDedup == old(retryDedup) - Written(cachedBlocks, latest)
    {
      ghost var cache := onChainEventsByBlock;
      highestBlockWritten := 0;
      for k := 0 to |cachedBlocks|
        invariant highestBlockWritten == LastWritten(cachedBlocks[..k], latest)
        invariant submitted == old(submitted) + Emitted(cache, cachedBlocks[..k], latest)
        invariant onChainEventsByBlock == cache - Written(cachedBlocks[..k], latest)
        invariant retryDedup == old(retryDedup) - Written(cachedBlocks[..k], latest)
      {
        var cachedBlock := cachedBlocks[k];
        WrittenStep(cachedBlocks, latest, k);
        if Confirmed(cachedBlock, latest) {
          assert cachedBlock in cachedBlocks && cachedBlock !in cachedBlocks[..k];
          var onChainEvents := onChainEventsByBlock[cachedBlock];
          onChainEventsByBlock := onChainEventsByBlock - {cachedBlock};
          highestBlockWritten := cachedBlock;
          SubmitAll(Sort(onChainEvents, EventOrder));
          retryDedup := retryDedup - {cachedBlock};
        }
      }
      assert cachedBlocks[..|cachedBlocks|] == cachedBlocks;
    }

    method SubmitAll(events: seq<Event>)
      modifies this`submitted
      ensures submitted == old(submitted) + events
    {
      for i := 0 to |events|
        invariant submitted == old(submitted) + events[..i]
      {
        submitted := submitted + [events[i]];
      }
      assert events[..|events|] == events;
    }
  }

  /** Blocks 9 and 10 come out in the wrong order, and the lower one is persisted. */
  lemma UnequalDigitsReorder(blocks: seq<nat>)
    requires blocks == [9, 10]
    ensures Sort(blocks, StringOrder) == [10, 9] && LastWritten(Sort(blocks, StringOrder), 12) == 9
  {
    var none: seq<nat>, nine: seq<nat> := [], [9];
    assert Decimal.ToString(10) == Decimal.ToString(1) + [Decimal.ZERO] == [49, 48];
    assert Decimal.ToString(9) == [57] && Less([49, 48], [57]);
    assert !StringOrder(9, 10);
    assert blocks[..1] == nine && nine[..0] == none;
    assert Sort(nine, StringOrder) == Insert(none, 9, StringOrder) == nine;
    assert Insert(nine, 10, StringOrder) == Insert(none, 10, StringOrder) + [9];
  }

  // ---------------------------------------------------------------- batches

  /** The inclusive block ranges that a history sync queries, run by run. */
  method BatchRanges(fromBlock: int, toBlock: int, batchSize: nat) returns (ranges: seq<(int, int)>)
    requires batchSize >= 1
    ensures fromBlock >= toBlock ==> ranges == []
    ensures fromBlock < toBlock ==> ranges != [] && ranges[0].0 == fromBlock && ranges[|ranges| - 1].1 == toBlock
    ensures forall i :: 0 <= i < |ranges| ==> ranges[i].0 <= ranges[i].1 <= ranges[i].0 + batchSize
    ensures forall i :: 0 <= i < |ranges| ==> fromBlock <= ranges[i].0 && ranges[i].1 <= toBlock
    ensures forall i :: 0 < i < |ranges| ==> ranges[i].0 == ranges[i - 1].1 + 1
    ensures forall i :: 0 <= i < |ranges| - 1 ==> ranges[i].1 == fromBlock + (i + 1) * batchSize
  {
    var totalBlocks := toBlock - fromBlock;
    var numOfRuns := if totalBlocks <= 0 then 0 else (totalBlocks + batchSize - 1) / batchSize;
    ranges := [];
    for i := 0 to numOfRuns
      invariant |ranges| == i && forall k :: 0 <= k < i ==> ranges[k] == RunRange(fromBlock, toBlock, batchSize, k)
    {
      var nextFromBlock := fromBlock + i * batchSize;
      var nextToBlock := nextFromBlock + batchSize;
      if nextToBlock > toBlock {
        nextToBlock := toBlock;
      }
      if i > 0 {
        nextFromBlock := nextFromBlock + 1;
      }
      ranges := ranges + [(nextFromBlock, nextToBlock)];
    }
    forall i: nat | i < |ranges|
      ensures RangeHolds(fromBlock, toBlock, batchSize, ranges, i)
    {
      RangeAt(fromBlock, toBlock, batchSize, ranges, i);
    }
    RunsCover(totalBlocks, batchSize);
    AllRanges(fromBlock, toBlock, batchSize, ranges);
  }

  lemma RangeAt(fromBlock: int, toBlock: int, batchSize: nat, ranges: seq<(int, int)>, i: nat)
    requires batchSize >= 1 && fromBlock < toBlock && i < |ranges| == (toBlock - fromBlock + batchSize - 1) / batchSize
    requires ranges[i] == RunRange(fromBlock, toBlock, batchSize, i)
    requires i > 0 ==> ranges[i - 1] == RunRange(fromBlock, toBlock, batchSize, i - 1)
    ensures RangeHolds(fromBlock, toBlock, batchSize, ranges, i)
  {
    RunHolds(fromBlock, toBlock, batchSize, |ranges|, i);
  }

  lemma AllRanges(fromBlock: int, toBlock: int, batchSize: nat, ranges: seq<(int, int)>)
    requires forall i: nat :: i < |ranges| ==> RangeHolds(fromBlock, toBlock, batchSize, ranges, i)
    ensures ranges != [] ==> ranges[0].0 == fromBlock && ranges[|ranges| - 1].1 == toBlock
    ensures forall i :: 0 <= i < |ranges| ==> ranges[i].0 <= ranges[i].1 <= ranges[i].0 + batchSize
    ensures forall i :: 0 <= i < |ranges| ==> fromBlock <= ranges[i].0 && ranges[i].1 <= toBlock
    ensures forall i :: 0 < i < |ranges| ==> ranges[i].0 == ranges[i - 1].1 + 1
    ensures forall i :: 0 <= i < |ranges| - 1 ==> ranges[i].1 == fromBlock + (i + 1) * batchSize
  {
    assert ranges != [] ==> RangeHolds(fromBlock, toBlock, batchSize, ranges, 0);
    assert ranges != [] ==> RangeHolds(fromBlock, toBlock, batchSize, ranges, |ranges| - 1);
    forall i: nat | i < |ranges|
      ensures ranges[i].0 == (if i == 0 then fromBlock else ranges[i - 1].1 + 1)
      ensures fromBlock <= ranges[i].0 <= ranges[i].1 <= ranges[i].0 + batchSize && ranges[i].1 <= toBlock
      ensures i < |ranges| - 1 ==> ranges[i].1 == fromBlock + (i + 1) * batchSize
    {
      assert RangeHolds(fromBlock, toBlock, batchSize, ranges, i);
    }
  }

  /** Where the `i`-th range begins and ends. */
  ghost predicate RangeHolds(fromBlock: int, toBlock: int, batchSize: nat, ranges: seq<(int, int)>, i: nat) {
    && i < |ranges| && fromBlock <= ranges[i].0 <= ranges[i].1 <= ranges[i].0 + batchSize && ranges[i].1 <= toBlock
    && ranges[i].0 == (if i == 0 then fromBlock else ranges[i - 1].1 + 1)
    && ranges[i].1 == (if i + 1 == |ranges| then toBlock else fromBlock + (i + 1) * batchSize)
  }

  /** Run number `k`. */
  function RunRange(fromBlock: int, toBlock: int, batchSize: nat, k: nat): (int, int) {
    var start := fromBlock + k * batchSize;
    (if k > 0 then start + 1 else start, if start + batchSize > toBlock then toBlock else start + batchSize)
  }

  /** Where run number `k` of `runs` begins and ends. */
  ghost predicate RunFacts(fromBlock: int, toBlock: int, batchSize: nat, runs: nat, k: nat) {
    var r := RunRange(fromBlock, toBlock, batchSize, k);
    && fromBlock <= r.0 <= r.1 <= r.0 + batchSize && r.1 <= toBlock
    && r.0 == (if k == 0 then fromBlock else RunRange(fromBlock, toBlock, batchSize, k - 1).1 + 1)
    && r.1 == (if k + 1 == runs then toBlock else fromBlock + (k + 1) * batchSize)
  }

  lemma RunHolds(fromBlock: int, toBlock: int, batchSize: nat, runs: nat, k: nat)
    requires batchSize >= 1 && fromBlock < toBlock && k < runs == (toBlock - fromBlock + batchSize - 1) / batchSize
    ensures RunFacts(fromBlock, toBlock, batchSize, runs, k)
  {
    var total := toBlock - fromBlock;
    RunStarts(total, batchSize, k);
    RunsCover(total, batchSize);
    if k + 1 < runs {
      RunStarts(total, batchSize, k + 1);
    } else {
      assert total <= (k + 1) * batchSize;
    }
    if k > 0 {
      RunStarts(total, batchSize, k - 1);
    }
  }

  lemma RunsCover(total: int, batch: nat)
    requires batch >= 1
    ensures total > 0 ==> var runs := (total + batch - 1) / batch; runs >= 1 && (runs - 1) * batch < total <= runs * batch
  {
    if total > 0 {
      DivisionBounds(total + batch - 1, batch);
      var runs := (total + batch - 1) / batch;
      DivisionAtLeast(total + batch - 1, batch, 1);
      assert (runs - 1) * batch == runs * batch - batch && (runs + 1) * batch == runs * batch + batch;
    }
  }

  lemma RunStarts(total: int, batch: nat, i: nat)
    requires batch >= 1 && total > 0 && i < (total + batch - 1) / batch
    ensures i * batch < total && (i + 1) * batch == i * batch + batch
  {
    RunsCover(total, batch);
    MulMonotone(i, (total + batch - 1) / batch - 1, batch);
  }

  /** Consecutive ranges hold each block between their ends in exactly one of them. */
  lemma {:induction false} RangesPartition(ranges: seq<(int, int)>, b: int) returns (i: nat)
    requires ranges != [] && ranges[0].0 <= b <= ranges[|ranges| - 1].1
    requires forall i :: 0 <= i < |ranges| ==> ranges[i].0 <= ranges[i].1
    requires forall i :: 0 < i < |ranges| ==> ranges[i].0 == ranges[i - 1].1 + 1
    ensures i < |ranges| && ranges[i].0 <= b <= ranges[i].1
    ensures forall j :: 0 <= j < |ranges| && ranges[j].0 <= b <= ranges[j].1 ==> j == i
  {
    var n := |ranges| - 1;
    if ranges[n].0 <= b {
      i := n;
      EarlierRangesEnd(ranges, n);
    } else {
      i := RangesPartition(ranges[..n], b);
    }
  }

  lemma {:induction false} EarlierRangesEnd(ranges: seq<(int, int)>, n: nat)
    requires n < |ranges|
    requires forall i :: 0 <= i < |ranges| ==> ranges[i].0 <= ranges[i].1
    requires forall i :: 0 < i < |ranges| ==> ranges[i].0 == ranges[i - 1].1 + 1
    ensures forall j :: 0 <= j < n ==> ranges[j].1 < ranges[n].0
  {
    if n > 0 {
      EarlierRangesEnd(ranges, n - 1);
    }
  }
}
