/** Range queries over the sync trie (apps/hubble/src/utils/syncHealth.ts). */
module SyncHealth {
  import opened ByteStrings
  import opened Decimal
  import opened FarcasterTime
  import opened SyncTrie
  import opened Wrappers

  // ---------------------------------------------------------------- time prefixes

  function TimePrefix(seconds: nat): Bytes {
    PadStart(ToString(seconds), TIMESTAMP_LENGTH)
  }

  function GetTimePrefix(date: int): Result<Bytes> {
    match ToFarcasterTime(date)
    case Ok(seconds) => Ok(TimePrefix(seconds))
    case Err => Err
  }

  lemma TimePrefixValue(seconds: nat)
    requires seconds <= MAX_SECONDS
    ensures var p := TimePrefix(seconds); |p| == 10 && IsDigits(p) && Value(p) == seconds
  {
    assert MAX_SECONDS < Pow10(TIMESTAMP_LENGTH);
    ToStringLength(seconds, TIMESTAMP_LENGTH);
    ToStringValue(seconds);
    PadStartValue(ToString(seconds), TIMESTAMP_LENGTH);
  }

  ghost function CommonPrefix(a: Bytes, b: Bytes): (c: Bytes)
    ensures c <= a && c <= b
    ensures |c| == |a| || |c| == |b| || a[|c|] != b[|c|]
  {
    if a != [] && b != [] && a[0] == b[0] then [a[0]] + CommonPrefix(a[1..], b[1..]) else []
  }

  lemma {:induction false} CommonPrefixUnique(c: Bytes, a: Bytes, b: Bytes)
    requires c <= a && c <= b
    requires |c| == |a| || |c| == |b| || a[|c|] != b[|c|]
    ensures c == CommonPrefix(a, b)
  {
    if c != [] {
      CommonPrefixUnique(c[1..], a[1..], b[1..]);
    }
  }

  method GetCommonPrefix(a: Bytes, b: Bytes) returns (c: Bytes)
    ensures c == CommonPrefix(a, b)
  {
    c := [];
    while |c| < |a| && |c| < |b| && a[|c|] == b[|c|]
      invariant c <= a && c <= b
      decreases |a| - |c|
    {
      c := c + [a[|c|]];
    }
    CommonPrefixUnique(c, a, b);
  }

  // ---------------------------------------------------------------- the walk

  /** The timestamps whose keys the walk presents. */
  ghost predicate Walked(start: Bytes, stop: Bytes, ts: Bytes) {
    ts == start || (Less(start, ts) && Less(ts, stop))
  }

  ghost function Target(ids: set<SyncId>, prefix: Bytes, start: Bytes, stop: Bytes): set<SyncId>
    requires ValidIds(ids)
  {
    set id | id in ids && prefix <= id && |prefix| < TIMESTAMP_LENGTH && Walked(start, stop, id[..TIMESTAMP_LENGTH])
  }

  ghost function Covered(ids: set<SyncId>, nodes: seq<TrieNode>): set<SyncId> {
    set id | id in ids && exists i :: 0 <= i < |nodes| && nodes[i].prefix <= id
  }

  ghost predicate Incomparable(a: Bytes, b: Bytes) {
    !(a <= b) && !(b <= a)
  }

  /** Presented nodes: real, correctly counted, and no one inside another. */
  ghost predicate Presented(ids: set<SyncId>, nodes: seq<TrieNode>) {
    && (forall i :: 0 <= i < |nodes| ==>
          IsNode(ids, nodes[i].prefix) && nodes[i].numMessages == |Under(ids, nodes[i].prefix)|)
    && (forall i, j :: 0 <= i < j < |nodes| ==> Incomparable(nodes[i].prefix, nodes[j].prefix))
  }

  /** Off both paths, a whole subtree lies on one side of each bound. */
  lemma WalkedOffPath(c: Bytes, start: Bytes, stop: Bytes, ts: Bytes)
    requires |ts| == |start| == |stop| && c <= ts && !(c <= start) && !(c <= stop)
    ensures Walked(start, stop, ts) <==> Less(start, c) && Less(c, stop)
  {
    assert ts == c + ts[|c|..] && start + [] == start && stop + [] == stop;
    LessExtend(start, c, [], ts[|c|..]);
    LessExtend(c, stop, ts[|c|..], []);
  }

  /** What each branch of the loop does with a child matches the part of the target under it. */
  lemma ChildTarget(ids: set<SyncId>, prefix: Bytes, c: Bytes, start: Bytes, stop: Bytes, id: SyncId)
    requires ValidIds(ids) && |start| == |stop| == TIMESTAMP_LENGTH
    requires |prefix| < TIMESTAMP_LENGTH
    requires prefix <= c && |c| == |prefix| + 1 && id in ids && c <= id
    ensures c == start ==> id in Target(ids, prefix, start, stop)
    ensures c != start && (c <= start || c <= stop) ==>
      (id in Target(ids, prefix, start, stop) <==> id in Target(ids, c, start, stop))
    ensures !(c <= start) && !(c <= stop) ==>
      (id in Target(ids, prefix, start, stop) <==> Less(start, c) && Less(c, stop))
  {
    var ts := id[..TIMESTAMP_LENGTH];
    assert c <= ts && prefix <= id;
    if c != start && (c <= start || c <= stop) && |c| == TIMESTAMP_LENGTH {
      assert c == stop == ts;
      LessTotal(stop, stop);
    } else if !(c <= start) && !(c <= stop) {
      WalkedOffPath(c, start, stop, ts);
    }
  }

  lemma CoveredAppend(ids: set<SyncId>, a: seq<TrieNode>, b: seq<TrieNode>)
    ensures Covered(ids, a + b) == Covered(ids, a) + Covered(ids, b)
  {
    forall id | id in ids
      ensures id in Covered(ids, a + b) <==> id in Covered(ids, a) || id in Covered(ids, b)
    {
      if i :| 0 <= i < |a| && a[i].prefix <= id {
        assert (a + b)[i].prefix <= id;
      }
      if i :| 0 <= i < |b| && b[i].prefix <= id {
        assert (a + b)[|a| + i].prefix <= id;
      }
    }
  }

  /** Presenting nodes under the next sibling keeps the presented nodes apart. */
  lemma AppendPresented(ids: set<SyncId>, nodes: seq<TrieNode>, more: seq<TrieNode>, c: Bytes)
    requires Presented(ids, nodes) && Presented(ids, more)
    requires forall i :: 0 <= i < |nodes| ==> Incomparable(nodes[i].prefix, c)
    requires forall i :: 0 <= i < |more| ==> c <= more[i].prefix
    ensures Presented(ids, nodes + more)
  {
    forall i, j | 0 <= i < |nodes| && 0 <= j < |more|
      ensures Incomparable(nodes[i].prefix, more[j].prefix)
    {
      var k := FirstDifference(nodes[i].prefix, c);
      assert more[j].prefix[k] == c[k];
    }
  }

  /** The keys under none of the prefixes. */
  ghost function Outside(keys: set<SyncId>, failed: set<Bytes>): set<SyncId> {
    set id | id in keys && forall p :: p in failed ==> !(p <= id)
  }

  lemma OutsideNone(keys: set<SyncId>)
    ensures Outside(keys, {}) == keys
  {
  }

  /** A prefix of one of the two bounds. */
  ghost predicate OnPath(start: Bytes, stop: Bytes, p: Bytes) {
    p <= start || p <= stop
  }

  /** Nodes right below the paths to the bounds. */
  ghost predicate BelowPath(start: Bytes, stop: Bytes, nodes: seq<TrieNode>) {
    forall i :: 0 <= i < |nodes| ==> nodes[i].prefix != [] && OnPath(start, stop, nodes[i].prefix[..|nodes[i].prefix| - 1])
  }

  /** What a walk below `prefix` presents: disjoint subtrees right below the paths; its lookups fail on the paths only. */
  ghost predicate WalkShape(ids: set<SyncId>, prefix: Bytes, start: Bytes, stop: Bytes, nodes: seq<TrieNode>, failed: set<Bytes>) {
    && Presented(ids, nodes) && (forall i :: 0 <= i < |nodes| ==> prefix <= nodes[i].prefix)
    && BelowPath(start, stop, nodes) && (forall p :: p in failed ==> prefix < p && OnPath(start, stop, p))
  }

  /** Of the keys in `reach` it has presented wanted ones only, and all of those that lie under no failed prefix. */
  ghost predicate WalkCovers(covered: set<SyncId>, target: set<SyncId>, reach: set<SyncId>, failed: set<Bytes>) {
    covered <= target && Outside(reach * target, failed) <= covered
  }

  lemma WalkCoversAll(covered: set<SyncId>, target: set<SyncId>, reach: set<SyncId>, failed: set<Bytes>)
    requires WalkCovers(covered, target, reach, failed) && target <= reach
    ensures Outside(target, failed) <= covered <= target
    ensures failed == {} ==> covered == target
  {
    assert reach * target == target;
    OutsideNone(target);
  }

  /** Once more keys are reached. */
  lemma WalkCoversMore(
    target: set<SyncId>, before: set<SyncId>, here: set<SyncId>,
    failed: set<Bytes>, failedHere: set<Bytes>, covered: set<SyncId>, more: set<SyncId>)
    requires WalkCovers(covered, target, before, failed) && WalkCovers(more, target, here, failedHere)
    ensures WalkCovers(covered + more, target, before + here, failed + failedHere)
  {
    forall id | id in Outside((before + here) * target, failed + failedHere)
      ensures id in covered + more
    {
      assert forall p :: p in failed || p in failedHere ==> p in failed + failedHere;
      assert id in before ==> id in Outside(before * target, failed);
      assert id in here ==> id in Outside(here * target, failedHere);
    }
  }

  /** `failed` is the prefixes, on the paths and below this one, whose nested lookup failed. */
  method TraverseRange(hub: Hub, prefix: Bytes, start: Bytes, stop: Bytes)
    returns (r: Result<()>, nodes: seq<TrieNode>, ghost failed: set<Bytes>)
    requires ValidIds(hub.ids) && |start| == |stop| == TIMESTAMP_LENGTH
    requires prefix <= start || prefix <= stop
    requires |prefix| == TIMESTAMP_LENGTH ==> prefix == stop
    ensures Presented(hub.ids, nodes)
    ensures forall i :: 0 <= i < |nodes| ==> prefix <= nodes[i].prefix
    ensures BelowPath(start, stop, nodes) && (forall p :: p in failed ==> prefix < p && OnPath(start, stop, p))
    ensures Covered(hub.ids, nodes) <= Target(hub.ids, prefix, start, stop)
    ensures r.Ok? ==> Outside(Target(hub.ids, prefix, start, stop), failed) <= Covered(hub.ids, nodes)
    ensures hub.reliable ==> failed == {}
    ensures hub.reliable && r.Ok? ==> Covered(hub.ids, nodes) == Target(hub.ids, prefix, start, stop)
    ensures hub.reliable ==> (r.Ok? <==> IsNode(hub.ids, prefix) || hub.rpc)
    ensures r.Err? ==> nodes == []
    decreases TIMESTAMP_LENGTH - |prefix|, 2
  {
    var metadata := GetMetadata(hub, prefix);
    if metadata.Err? {
      return Err, [], {};
    }
    nodes, failed := TraverseChildren(hub, prefix, metadata.value.children, start, stop);
    forall id | id in Target(hub.ids, prefix, start, stop)
      ensures id in Covered(hub.ids, metadata.value.children)
    {
      assert id in Under(hub.ids, prefix) && IsNode(hub.ids, prefix);
    }
    WalkCoversAll(Covered(hub.ids, nodes), Target(hub.ids, prefix, start, stop), Covered(hub.ids, metadata.value.children), failed);
    r := Ok(());
  }

  /** The nodes presented lie apart from the children still to come. */
  ghost predicate Apart(nodes: seq<TrieNode>, children: seq<TrieNode>, k: nat) {
    forall i, j :: 0 <= i < |nodes| && k <= j < |children| ==> Incomparable(nodes[i].prefix, children[j].prefix)
  }

  /** The loop over the children of `prefix`. */
  method TraverseChildren(hub: Hub, prefix: Bytes, children: seq<TrieNode>, start: Bytes, stop: Bytes)
    returns (nodes: seq<TrieNode>, ghost failed: set<Bytes>)
    requires ValidIds(hub.ids) && |start| == |stop| == TIMESTAMP_LENGTH
    requires prefix <= start || prefix <= stop
    requires |prefix| == TIMESTAMP_LENGTH ==> prefix == stop
    requires AreSiblings(hub.ids, prefix, children)
    ensures WalkShape(hub.ids, prefix, start, stop, nodes, failed)
    ensures WalkCovers(Covered(hub.ids, nodes), Target(hub.ids, prefix, start, stop), Covered(hub.ids, children), failed)
    ensures hub.reliable ==> failed == {}
    decreases TIMESTAMP_LENGTH - |prefix|, 1
  {
    nodes, failed := [], {};
    ghost var target := Target(hub.ids, prefix, start, stop);
    for k := 0 to |children|
      invariant WalkShape(hub.ids, prefix, start, stop, nodes, failed)
      invariant WalkCovers(Covered(hub.ids, nodes), target, Covered(hub.ids, children[..k]), failed)
      invariant Apart(nodes, children, k) && (hub.reliable ==> failed == {})
    {
      ghost var failedHere;
      var more;
      more, failedHere := VisitChild(hub, prefix, children[k], start, stop);
      ShapeOn(hub.ids, prefix, start, stop, children, k, nodes, failed, more, failedHere);
      CoversOn(hub.ids, target, children, k, nodes, failed, more, failedHere);
      nodes, failed := nodes + more, failed + failedHere;
    }
    assert children[..|children|] == children;
  }

  /** The walk with one more child visited. */
  lemma ShapeOn(
    ids: set<SyncId>, prefix: Bytes, start: Bytes, stop: Bytes, children: seq<TrieNode>, k: nat,
    nodes: seq<TrieNode>, failed: set<Bytes>, more: seq<TrieNode>, failedHere: set<Bytes>)
    requires AreSiblings(ids, prefix, children) && k < |children|
    requires WalkShape(ids, prefix, start, stop, nodes, failed) && Apart(nodes, children, k)
    requires WalkShape(ids, prefix, start, stop, more, failedHere)
    requires forall i :: 0 <= i < |more| ==> children[k].prefix <= more[i].prefix
    ensures WalkShape(ids, prefix, start, stop, nodes + more, failed + failedHere)
    ensures Apart(nodes + more, children, k + 1)
  {
    AppendPresented(ids, nodes, more, children[k].prefix);
    SiblingsStayApart(ids, prefix, children, k, more);
  }

  lemma CoversOn(
    ids: set<SyncId>, target: set<SyncId>, children: seq<TrieNode>, k: nat,
    nodes: seq<TrieNode>, failed: set<Bytes>, more: seq<TrieNode>, failedHere: set<Bytes>)
    requires k < |children|
    requires WalkCovers(Covered(ids, nodes), target, Covered(ids, children[..k]), failed)
    requires WalkCovers(Covered(ids, more), target, Under(ids, children[k].prefix), failedHere)
    ensures WalkCovers(Covered(ids, nodes + more), target, Covered(ids, children[..k + 1]), failed + failedHere)
  {
    CoveredAppend(ids, nodes, more);
    assert children[..k + 1] == children[..k] + [children[k]];
    CoveredAppend(ids, children[..k], [children[k]]);
    CoveredOne(ids, children[k]);
    WalkCoversMore(target, Covered(ids, children[..k]), Under(ids, children[k].prefix),
      failed, failedHere, Covered(ids, nodes), Covered(ids, more));
  }

  lemma SiblingsStayApart(ids: set<SyncId>, prefix: Bytes, children: seq<TrieNode>, k: nat, more: seq<TrieNode>)
    requires AreSiblings(ids, prefix, children) && k < |children|
    requires forall i :: 0 <= i < |more| ==> children[k].prefix <= more[i].prefix
    ensures forall i, j :: 0 <= i < |more| && k < j < |children| ==> Incomparable(more[i].prefix, children[j].prefix)
  {
    forall i, j | 0 <= i < |more| && k < j < |children|
      ensures Incomparable(more[i].prefix, children[j].prefix)
    {
      assert IsChild(ids, prefix, children[k]) && IsChild(ids, prefix, children[j]);
      assert more[i].prefix[..|prefix| + 1] == children[k].prefix != children[j].prefix;
    }
  }

  /** One turn of the loop over the children of `prefix`: present, descend or skip. */
  method VisitChild(hub: Hub, prefix: Bytes, child: TrieNode, start: Bytes, stop: Bytes)
    returns (nodes: seq<TrieNode>, ghost failed: set<Bytes>)
    requires ValidIds(hub.ids) && |start| == |stop| == TIMESTAMP_LENGTH
    requires prefix <= start || prefix <= stop
    requires |prefix| == TIMESTAMP_LENGTH ==> prefix == stop
    requires IsChild(hub.ids, prefix, child)
    ensures WalkShape(hub.ids, prefix, start, stop, nodes, failed)
    ensures WalkCovers(Covered(hub.ids, nodes), Target(hub.ids, prefix, start, stop), Under(hub.ids, child.prefix), failed)
    ensures forall i :: 0 <= i < |nodes| ==> child.prefix <= nodes[i].prefix
    ensures hub.reliable ==> failed == {}
    decreases TIMESTAMP_LENGTH - |prefix|, 0
  {
    nodes, failed := [], {};
    var c := child.prefix;
    assert c[..|c| - 1] == prefix;
    ghost var here, target := Under(hub.ids, c), Target(hub.ids, prefix, start, stop);
    VisitTarget(hub.ids, prefix, c, start, stop);
    CoveredOne(hub.ids, child);
    OutsideNone(here * target);
    if c == start {
      nodes := [child];
    } else if c <= start || c <= stop {
      var result, nested;
      result, nested, failed := TraverseRange(hub, c, start, stop);
      nodes := nested;
      if result.Err? {
        failed := {c};
        AllFailed(here * target, c);
      }
    } else if Less(start, c) && Less(c, stop) {
      nodes := [child];
    }
  }

  lemma AllFailed(keys: set<SyncId>, c: Bytes)
    requires forall id :: id in keys ==> c <= id
    ensures Outside(keys, {c}) == {}
  {
  }

  /** What each branch of the loop over the children does with a child, for all keys under it. */
  lemma VisitTarget(ids: set<SyncId>, prefix: Bytes, c: Bytes, start: Bytes, stop: Bytes)
    requires ValidIds(ids) && |start| == |stop| == TIMESTAMP_LENGTH
    requires OnPath(start, stop, prefix) && (|prefix| == TIMESTAMP_LENGTH ==> prefix == stop)
    requires prefix <= c && |c| == |prefix| + 1
    ensures var here, target := Under(ids, c), Target(ids, prefix, start, stop);
      && (c == start ==> here <= target)
      && (c != start && OnPath(start, stop, c) ==> here * target == Target(ids, c, start, stop))
      && (!OnPath(start, stop, c) && Less(start, c) && Less(c, stop) ==> here <= target)
      && (!OnPath(start, stop, c) && !(Less(start, c) && Less(c, stop)) ==> here * target == {})
  {
    if |prefix| == TIMESTAMP_LENGTH {
      PrefixLess(stop, c);
    } else {
      forall id | id in ids && c <= id {
        ChildTarget(ids, prefix, c, start, stop, id);
      }
      assert forall id :: id in Target(ids, c, start, stop) ==> c <= id;
    }
  }

  // ---------------------------------------------------------------- the span

  /**
   * The keys a query from second `start` to second `stop` selects. The bounds are half open; when
   * they are the wrong way round, the walk still presents the node of the start second whole.
   */
  ghost predicate InSpan(start: nat, stop: nat, t: int) {
    if start <= stop then start <= t < stop else t == start
  }

  ghost function SpanIds(ids: set<SyncId>, start: nat, stop: nat): set<SyncId>
    requires ValidIds(ids)
  {
    set id | id in ids && InSpan(start, stop, Timestamp(id))
  }

  ghost function HalfOpenIds(ids: set<SyncId>, start: nat, stop: nat): set<SyncId>
    requires ValidIds(ids)
  {
    set id | id in ids && start <= Timestamp(id) < stop
  }

  /** The span is the documented half-open one unless the bounds are reversed and the start second is in use. */
  lemma SpanIsHalfOpen(ids: set<SyncId>, start: nat, stop: nat)
    requires ValidIds(ids)
    ensures SpanIds(ids, start, stop) == HalfOpenIds(ids, start, stop) <==>
      start <= stop || forall id :: id in ids ==> Timestamp(id) != start
  {
    if start > stop {
      forall id | id in ids && Timestamp(id) == start
        ensures id in SpanIds(ids, start, stop) && id !in HalfOpenIds(ids, start, stop)
      {
      }
    }
  }

  /** A reversed query that selects a key although no key lies between its bounds. */
  lemma ReversedSpanSelects()
    ensures exists ids :: ValidIds(ids) && SpanIds(ids, 5, 3) != {} && HalfOpenIds(ids, 5, 3) == {}
  {
    TimePrefixValue(5);
    var id := TimePrefix(5) + [MESSAGE_ROOT_PREFIX];
    assert id[..TIMESTAMP_LENGTH] == TimePrefix(5);
    assert ValidIds({id}) && id in SpanIds({id}, 5, 3);
  }

  /** Whatever lies between two strings of one width shares their common prefix. */
  lemma BetweenSharesPrefix(p: Bytes, a: Bytes, b: Bytes, ts: Bytes)
    requires p <= a && p <= b && |p| <= |ts| && Less(a, ts) && Less(ts, b)
    ensures p <= ts
  {
    if !(p <= ts) {
      assert a == p + a[|p|..] && b == p + b[|p|..] && ts == ts + [];
      LessExtend(p, ts, a[|p|..], []);
      LessExtend(ts, p, [], b[|p|..]);
      LessTotal(p, ts);
    }
  }

  /** The walk's target is the span, from the common prefix or any ancestor of it. */
  lemma TargetIsSpan(ids: set<SyncId>, prefix: Bytes, start: nat, stop: nat)
    requires ValidIds(ids) && start <= MAX_SECONDS && stop <= MAX_SECONDS
    requires prefix <= CommonPrefix(TimePrefix(start), TimePrefix(stop))
    requires start == stop ==> prefix == TimePrefix(start) || Under(ids, TimePrefix(start)) == {}
    ensures Target(ids, prefix, TimePrefix(start), TimePrefix(stop)) == SpanIds(ids, start, stop)
  {
    var s, e := TimePrefix(start), TimePrefix(stop);
    TimePrefixValue(start);
    TimePrefixValue(stop);
    OrderIsNumeric(s, e);
    forall id | id in ids
      ensures id in Target(ids, prefix, s, e) <==> id in SpanIds(ids, start, stop)
    {
      var ts := id[..TIMESTAMP_LENGTH];
      OrderIsNumeric(s, ts);
      OrderIsNumeric(ts, e);
      assert Walked(s, e, ts) <==> Timestamp(id) == start || start < Timestamp(id) < stop;
      if Walked(s, e, ts) {
        if ts != s {
          BetweenSharesPrefix(prefix, s, e, ts);
        }
        assert prefix <= ts <= id;
        assert ts == s ==> id in Under(ids, s);
      }
    }
  }

  /** The walk has a node to start from: the root, or some key shares the common prefix of the two times. */
  ghost predicate HasCommonNode(ids: set<SyncId>, start: nat, stop: nat) {
    var common := CommonPrefix(TimePrefix(start), TimePrefix(stop));
    common == [] || Under(ids, common) != {}
  }

  lemma CommonNode(ids: set<SyncId>, start: nat, stop: nat)
    requires start <= MAX_SECONDS && stop <= MAX_SECONDS
    ensures HasCommonNode(ids, start, stop) <==> IsNode(ids, CommonPrefix(TimePrefix(start), TimePrefix(stop)))
  {
    TimePrefixValue(start);
  }

  /** The times are in range and, for the in-process retriever, the common prefix has a node. */
  ghost predicate Answers(hub: Hub, startTime: int, stopTime: int) {
    match (ToFarcasterTime(startTime), ToFarcasterTime(stopTime))
    case (Ok(a), Ok(b)) => hub.rpc || HasCommonNode(hub.ids, a, b)
    case _ => false
  }

  /** Looks up the common prefix of the two times and walks the range from the node returned. */
  method WalkSpan(hub: Hub, startTime: int, stopTime: int) returns (r: Result<seq<TrieNode>>, ghost failed: set<Bytes>)
    requires ValidIds(hub.ids)
    ensures r.Ok? ==> ToFarcasterTime(startTime).Ok? && ToFarcasterTime(stopTime).Ok? && Presented(hub.ids, r.value)
    ensures r.Ok? ==> var span := SpanIds(hub.ids, ToFarcasterTime(startTime).value, ToFarcasterTime(stopTime).value);
      Covered(hub.ids, r.value) <= span && (hub.reliable ==> Covered(hub.ids, r.value) == span) &&
      Outside(span, failed) <= Covered(hub.ids, r.value)
    ensures r.Ok? ==> BelowPath(TimePrefix(ToFarcasterTime(startTime).value), TimePrefix(ToFarcasterTime(stopTime).value), r.value)
    ensures hub.reliable ==> failed == {}
    ensures hub.reliable ==> (r.Ok? <==> Answers(hub, startTime, stopTime))
  {
    var startPrefix, stopPrefix := GetTimePrefix(startTime), GetTimePrefix(stopTime);
    failed := {};
    if startPrefix.Err? || stopPrefix.Err? {
      return Err, failed;
    }
    ghost var a, b := ToFarcasterTime(startTime).value, ToFarcasterTime(stopTime).value;
    TimePrefixValue(a);
    TimePrefixValue(b);
    OrderIsNumeric(startPrefix.value, stopPrefix.value);
    var common := GetCommonPrefix(startPrefix.value, stopPrefix.value);
    CommonNode(hub.ids, a, b);
    var metadata := GetMetadata(hub, common);
    if metadata.Err? {
      return Err, failed;
    }
    TargetIsSpan(hub.ids, metadata.value.prefix, a, b);
    var result, nodes;
    result, nodes, failed := TraverseRange(hub, metadata.value.prefix, startPrefix.value, stopPrefix.value);
    r := if result.Ok? then Ok(nodes) else Err;
  }

  /** Presented subtrees are disjoint. */
  lemma PresentedDisjoint(ids: set<SyncId>, nodes: seq<TrieNode>, k: nat, id: SyncId)
    requires k < |nodes| && Presented(ids, nodes) && id in Covered(ids, nodes[..k])
    ensures !(nodes[k].prefix <= id)
  {
    var i :| 0 <= i < k && nodes[..k][i].prefix <= id;
    assert Incomparable(nodes[i].prefix, nodes[k].prefix);
  }

  lemma CoveredOne(ids: set<SyncId>, node: TrieNode)
    ensures Covered(ids, [node]) == Under(ids, node.prefix)
  {
    forall id | id in ids && node.prefix <= id
      ensures id in Covered(ids, [node])
    {
      assert [node][0].prefix <= id;
    }
  }

  lemma DisjointUnion(a: set<SyncId>, b: set<SyncId>)
    requires a !! b
    ensures multiset(a + b) == multiset(a) + multiset(b)
  {
  }

  lemma LastIsDisjoint(ids: set<SyncId>, nodes: seq<TrieNode>, k: nat)
    requires k < |nodes| && Presented(ids, nodes)
    ensures Covered(ids, nodes[..k]) !! Under(ids, nodes[k].prefix)
    ensures Covered(ids, nodes[..k + 1]) == Covered(ids, nodes[..k]) + Under(ids, nodes[k].prefix)
    ensures multiset(Covered(ids, nodes[..k + 1])) ==
      multiset(Covered(ids, nodes[..k])) + multiset(Under(ids, nodes[k].prefix))
  {
    var before, last := Covered(ids, nodes[..k]), Under(ids, nodes[k].prefix);
    forall id | id in before
      ensures id !in last
    {
      PresentedDisjoint(ids, nodes, k, id);
    }
    assert nodes[..k + 1] == nodes[..k] + [nodes[k]];
    CoveredAppend(ids, nodes[..k], [nodes[k]]);
    CoveredOne(ids, nodes[k]);
    DisjointUnion(before, last);
  }

  method GetNumMessagesInSpan(hub: Hub, startTime: int, stopTime: int) returns (r: Result<nat>, ghost failed: set<Bytes>)
    requires ValidIds(hub.ids)
    ensures r.Ok? ==> ToFarcasterTime(startTime).Ok? && ToFarcasterTime(stopTime).Ok?
    ensures r.Ok? ==> var span := SpanIds(hub.ids, ToFarcasterTime(startTime).value, ToFarcasterTime(stopTime).value);
      |Outside(span, failed)| <= r.value <= |span| && (hub.reliable ==> r.value == |span|)
    ensures hub.reliable ==> failed == {}
    ensures hub.reliable ==> (r.Ok? <==> Answers(hub, startTime, stopTime))
  {
    var nodes;
    nodes, failed := WalkSpan(hub, startTime, stopTime);
    if nodes.Err? {
      return Err, failed;
    }
    var numMessages := 0;
    for k := 0 to |nodes.value|
      invariant numMessages == |Covered(hub.ids, nodes.value[..k])|
    {
      LastIsDisjoint(hub.ids, nodes.value, k);
      numMessages := numMessages + nodes.value[k].numMessages;
    }
    assert nodes.value[..|nodes.value|] == nodes.value;
    ghost var span := SpanIds(hub.ids, ToFarcasterTime(startTime).value, ToFarcasterTime(stopTime).value);
    SubsetCardinality(Covered(hub.ids, nodes.value), span);
    SubsetCardinality(Outside(span, failed), Covered(hub.ids, nodes.value));
    r := Ok(numMessages);
  }

  lemma SubsetCardinality<T>(a: set<T>, b: set<T>)
    requires a <= b
    ensures |a| <= |b|
  {
    assert b == a + (b - a);
  }

  // ---------------------------------------------------------------- listing the span

  ghost function MaxLength(ids: set<SyncId>): (n: nat)
    ensures forall id :: id in ids ==> |id| <= n
  {
    if ids == {} then 0
    else
      var id :| id in ids;
      var rest := MaxLength(ids - {id});
      if |id| > rest then |id| else rest
  }

  lemma OnlyKey(ids: set<SyncId>, prefix: Bytes, id: SyncId)
    requires ValidIds(ids) && id in Under(ids, prefix) && |id| <= |prefix|
    ensures Under(ids, prefix) == {id}
  {
    forall x | x in Under(ids, prefix)
      ensures x == id
    {
      assert Extends(id, x);
    }
  }

  /** Two keys under a prefix are both longer than it, as neither is a prefix of the other. */
  lemma ManyKeysAreBelow(ids: set<SyncId>, prefix: Bytes)
    requires ValidIds(ids) && |Under(ids, prefix)| >= 2
    ensures forall id :: id in Under(ids, prefix) ==> |prefix| < |id| <= MaxLength(ids)
    ensures !IsLeaf(ids, prefix) && |prefix| < MaxLength(ids)
  {
    forall id | id in Under(ids, prefix)
      ensures |prefix| < |id|
    {
      if |id| <= |prefix| {
        OnlyKey(ids, prefix, id);
        assert false;
      }
    }
    var id :| id in Under(ids, prefix);
  }

  lemma SiblingsArePresented(ids: set<SyncId>, prefix: Bytes, children: seq<TrieNode>)
    requires AreSiblings(ids, prefix, children)
    ensures Presented(ids, children)
  {
    forall i, j | 0 <= i < j < |children|
      ensures Incomparable(children[i].prefix, children[j].prefix)
    {
      assert IsChild(ids, prefix, children[i]) && IsChild(ids, prefix, children[j]);
    }
  }

  lemma ChildrenCover(ids: set<SyncId>, prefix: Bytes, children: seq<TrieNode>)
    requires AreChildren(ids, prefix, children) && !IsLeaf(ids, prefix)
    requires forall id :: id in Under(ids, prefix) ==> |prefix| < |id|
    ensures Covered(ids, children) == Under(ids, prefix)
  {
    forall i, id | 0 <= i < |children| && id in ids && children[i].prefix <= id
      ensures prefix <= id
    {
      assert IsChild(ids, prefix, children[i]);
    }
  }

  /** The metadata of a node; when it holds several keys, its children split them. */
  method GetSplit(hub: Hub, prefix: Bytes) returns (r: Result<TrieNode>)
    requires ValidIds(hub.ids) && IsNode(hub.ids, prefix)
    ensures r.Ok? ==> r.value.numMessages == |Under(hub.ids, prefix)|
    ensures r.Ok? && r.value.numMessages >= 2 ==>
      Presented(hub.ids, r.value.children) && Covered(hub.ids, r.value.children) == Under(hub.ids, prefix) &&
      |prefix| < MaxLength(hub.ids) &&
      forall i :: 0 <= i < |r.value.children| ==> |r.value.children[i].prefix| == |prefix| + 1 && prefix <= r.value.children[i].prefix
    ensures hub.reliable ==> r.Ok?
  {
    r := GetMetadata(hub, prefix);
    if r.Ok? && r.value.numMessages >= 2 {
      var children := r.value.children;
      ManyKeysAreBelow(hub.ids, prefix);
      SiblingsArePresented(hub.ids, prefix, children);
      ChildrenCover(hub.ids, prefix, children);
      assert forall i :: 0 <= i < |children| ==> IsChild(hub.ids, prefix, children[i]);
    }
  }

  /** Subtrees of at most `cap` keys. */
  ghost predicate SmallSubtrees(ids: set<SyncId>, cap: nat, prefixes: set<Bytes>) {
    forall p :: p in prefixes ==> |Under(ids, p)| <= cap
  }

  /** Every listing call was on a subtree that the native listing returns whole. */
  ghost predicate ListedWhole(ids: set<SyncId>, listed: set<Bytes>) {
    SmallSubtrees(ids, MAX_VALUES_RETURNED, listed)
  }

  lemma SmallerCap(ids: set<SyncId>, cap: nat, limit: nat, listed: set<Bytes>)
    requires SmallSubtrees(ids, cap, listed) && cap <= limit
    ensures SmallSubtrees(ids, limit, listed)
  {
  }

  /** What was listed of a set of keys: at most all of it, and all of it when `complete`. */
  ghost predicate ListedOf(keys: set<SyncId>, complete: bool, listing: seq<SyncId>) {
    multiset(listing) <= multiset(keys) && (complete ==> multiset(listing) == multiset(keys))
  }

  /** One more subtree listed: what the next node covers is added to what was computed so far. */
  lemma AppendBelow(ids: set<SyncId>, nodes: seq<TrieNode>, k: nat, before: bool, here: bool, computed: seq<SyncId>, below: seq<SyncId>)
    requires k < |nodes| && Presented(ids, nodes)
    requires ListedOf(Covered(ids, nodes[..k]), before, computed)
    requires ListedOf(Under(ids, nodes[k].prefix), here, below)
    ensures ListedOf(Covered(ids, nodes[..k + 1]), before && here, computed + below)
  {
    LastIsDisjoint(ids, nodes, k);
  }

  /** Listing calls begin at the root and go below a prefix only where it holds more than `cap` keys. */
  ghost predicate FewCalls(ids: set<SyncId>, cap: nat, root: Bytes, listed: set<Bytes>) {
    forall p :: p in listed ==> root <= p && (p == root || |Under(ids, p[..|p| - 1])| > cap)
  }

  /** One listing call. */
  method ListSmallSubtree(hub: Hub, prefix: Bytes, cap: nat) returns (r: Result<seq<SyncId>>, ghost listed: set<Bytes>)
    requires |Under(hub.ids, prefix)| <= cap
    ensures r.Ok? ==> ListedOf(Under(hub.ids, prefix), ListedWhole(hub.ids, listed), r.value)
    ensures SmallSubtrees(hub.ids, cap, listed) && listed == {prefix}
    ensures hub.reliable ==> r.Ok?
  {
    listed := {prefix};
    r := GetAllSyncIdsByPrefix(hub, prefix);
  }

  /** Lists a subtree; `listed` collects the prefixes of the listing calls, none above `cap` keys. */
  method ComputeSyncIdsUnderPrefix(hub: Hub, prefix: Bytes, cap: nat)
    returns (r: Result<seq<SyncId>>, ghost listed: set<Bytes>)
    requires ValidIds(hub.ids) && cap >= 1 && IsNode(hub.ids, prefix)
    ensures r.Ok? ==> ListedOf(Under(hub.ids, prefix), ListedWhole(hub.ids, listed), r.value)
    ensures SmallSubtrees(hub.ids, cap, listed) && FewCalls(hub.ids, cap, prefix, listed)
    ensures hub.reliable ==> r.Ok?
    decreases MaxLength(hub.ids) - |prefix|, 1
  {
    var metadata := GetSplit(hub, prefix);
    if metadata.Err? {
      r, listed := Err, {};
    } else if metadata.value.numMessages <= cap {
      r, listed := ListSmallSubtree(hub, prefix, cap);
    } else {
      r, listed := ComputeSyncIdsUnderNodes(hub, metadata.value.children, prefix, cap);
    }
  }

  lemma FewCallsBelow(ids: set<SyncId>, cap: nat, prefix: Bytes, child: Bytes, listed: set<Bytes>)
    requires FewCalls(ids, cap, child, listed) && |child| == |prefix| + 1 && prefix <= child && |Under(ids, prefix)| > cap
    ensures FewCalls(ids, cap, prefix, listed)
  {
    assert child[..|child| - 1] == prefix;
  }

  /** The loop over the children of a node that holds more than `cap` keys. */
  method ComputeSyncIdsUnderNodes(hub: Hub, nodes: seq<TrieNode>, ghost parent: Bytes, cap: nat)
    returns (r: Result<seq<SyncId>>, ghost listed: set<Bytes>)
    requires ValidIds(hub.ids) && cap >= 1 && Presented(hub.ids, nodes)
    requires |parent| < MaxLength(hub.ids) && |Under(hub.ids, parent)| > cap
    requires forall i :: 0 <= i < |nodes| ==> |nodes[i].prefix| == |parent| + 1 && parent <= nodes[i].prefix
    ensures r.Ok? ==> ListedOf(Covered(hub.ids, nodes), ListedWhole(hub.ids, listed), r.value)
    ensures SmallSubtrees(hub.ids, cap, listed) && FewCalls(hub.ids, cap, parent, listed)
    ensures hub.reliable ==> r.Ok?
    decreases MaxLength(hub.ids) - |parent|, 0
  {
    var computed: seq<SyncId> := [];
    listed := {};
    for k := 0 to |nodes|
      invariant ListedOf(Covered(hub.ids, nodes[..k]), ListedWhole(hub.ids, listed), computed)
      invariant SmallSubtrees(hub.ids, cap, listed) && FewCalls(hub.ids, cap, parent, listed)
    {
      var below, calls := ComputeSyncIdsUnderPrefix(hub, nodes[k].prefix, cap);
      FewCallsBelow(hub.ids, cap, parent, nodes[k].prefix, calls);
      if below.Ok? {
        AppendBelow(hub.ids, nodes, k, ListedWhole(hub.ids, listed), ListedWhole(hub.ids, calls), computed, below.value);
      }
      listed := listed + calls;
      if below.Err? {
        return Err, listed;
      }
      computed := computed + below.value;
    }
    assert nodes[..|nodes|] == nodes;
    r := Ok(computed);
  }

  ghost predicate HasPrefix(nodes: seq<TrieNode>, p: Bytes) {
    exists i :: 0 <= i < |nodes| && nodes[i].prefix == p
  }

  /** Prefixes of some of the nodes. */
  ghost predicate Among(failed: set<Bytes>, nodes: seq<TrieNode>) {
    forall p :: p in failed ==> HasPrefix(nodes, p)
  }

  /** Every listing call begins at one of the nodes. */
  ghost predicate FewCallsFrom(ids: set<SyncId>, cap: nat, nodes: seq<TrieNode>, listed: set<Bytes>) {
    forall p :: p in listed ==> HasPrefix(nodes, p) || (p != [] && |Under(ids, p[..|p| - 1])| > cap)
  }

  /** No key of the `k`-th node lies under an earlier one, and no key of an earlier one under it. */
  lemma FailedApart(ids: set<SyncId>, nodes: seq<TrieNode>, k: nat, failed: set<Bytes>, id: SyncId)
    requires k < |nodes| && Presented(ids, nodes) && Among(failed, nodes[..k]) && id in ids
    ensures nodes[k].prefix <= id ==> forall p :: p in failed ==> !(p <= id)
    ensures id in Covered(ids, nodes[..k]) ==> !(nodes[k].prefix <= id)
  {
    if id in Covered(ids, nodes[..k]) {
      PresentedDisjoint(ids, nodes, k, id);
    } else {
      forall p | p in failed
        ensures !(p <= id)
      {
        var i :| 0 <= i < |nodes[..k]| && nodes[..k][i].prefix == p;
      }
    }
  }

  lemma OutsideListed(ids: set<SyncId>, nodes: seq<TrieNode>, k: nat, failed: set<Bytes>)
    requires k < |nodes| && Presented(ids, nodes) && Among(failed, nodes[..k])
    ensures var before, last := Outside(Covered(ids, nodes[..k]), failed), Under(ids, nodes[k].prefix);
      before !! last && Outside(Covered(ids, nodes[..k + 1]), failed) == before + last
  {
    LastIsDisjoint(ids, nodes, k);
    forall id | id in ids
      ensures id in Under(ids, nodes[k].prefix) ==> forall p :: p in failed ==> !(p <= id)
    {
      FailedApart(ids, nodes, k, failed, id);
    }
  }

  lemma OutsideFailed(ids: set<SyncId>, nodes: seq<TrieNode>, k: nat, failed: set<Bytes>)
    requires k < |nodes| && Presented(ids, nodes) && Among(failed, nodes[..k])
    ensures Outside(Covered(ids, nodes[..k + 1]), failed + {nodes[k].prefix}) == Outside(Covered(ids, nodes[..k]), failed)
  {
    LastIsDisjoint(ids, nodes, k);
    forall id | id in ids
      ensures id in Covered(ids, nodes[..k]) ==> !(nodes[k].prefix <= id)
    {
      FailedApart(ids, nodes, k, failed, id);
    }
    assert forall p :: p in failed + {nodes[k].prefix} <==> p in failed || p == nodes[k].prefix;
  }

  lemma AppendListing(
    ids: set<SyncId>, nodes: seq<TrieNode>, k: nat, failed: set<Bytes>, before: bool, here: bool,
    syncIds: seq<SyncId>, below: seq<SyncId>)
    requires k < |nodes| && Presented(ids, nodes) && Among(failed, nodes[..k])
    requires ListedOf(Outside(Covered(ids, nodes[..k]), failed), before, syncIds)
    requires ListedOf(Under(ids, nodes[k].prefix), here, below)
    ensures ListedOf(Outside(Covered(ids, nodes[..k + 1]), failed), before && here, syncIds + below)
  {
    OutsideListed(ids, nodes, k, failed);
    DisjointUnion(Outside(Covered(ids, nodes[..k]), failed), Under(ids, nodes[k].prefix));
  }

  lemma AmongMore(nodes: seq<TrieNode>, k: nat, failed: set<Bytes>)
    requires k < |nodes| && Among(failed, nodes[..k])
    ensures Among(failed, nodes[..k + 1]) && Among(failed + {nodes[k].prefix}, nodes[..k + 1])
  {
    forall p | p in failed + {nodes[k].prefix}
      ensures HasPrefix(nodes[..k + 1], p)
    {
      if p in failed {
        var i :| 0 <= i < |nodes[..k]| && nodes[..k][i].prefix == p;
        assert nodes[..k + 1][i].prefix == p;
      } else {
        assert nodes[..k + 1][k].prefix == p;
      }
    }
  }

  lemma MoreCallsFrom(ids: set<SyncId>, cap: nat, nodes: seq<TrieNode>, k: nat, listed: set<Bytes>, calls: set<Bytes>)
    requires k < |nodes| && FewCallsFrom(ids, cap, nodes, listed) && FewCalls(ids, cap, nodes[k].prefix, calls)
    ensures FewCallsFrom(ids, cap, nodes, listed + calls)
  {
  }

  /** Lists every node; one whose listing fails is left out, and `failed` collects those. */
  method ListNodes(hub: Hub, nodes: seq<TrieNode>, cap: nat)
    returns (syncIds: seq<SyncId>, ghost listed: set<Bytes>, ghost failed: set<Bytes>)
    requires ValidIds(hub.ids) && cap >= 1 && Presented(hub.ids, nodes)
    ensures Among(failed, nodes) && ListedOf(Outside(Covered(hub.ids, nodes), failed), ListedWhole(hub.ids, listed), syncIds)
    ensures SmallSubtrees(hub.ids, cap, listed) && FewCallsFrom(hub.ids, cap, nodes, listed)
    ensures hub.reliable ==> failed == {}
  {
    syncIds, listed, failed := [], {}, {};
    for k := 0 to |nodes|
      invariant Among(failed, nodes[..k])
      invariant ListedOf(Outside(Covered(hub.ids, nodes[..k]), failed), ListedWhole(hub.ids, listed), syncIds)
      invariant SmallSubtrees(hub.ids, cap, listed) && FewCallsFrom(hub.ids, cap, nodes, listed)
      invariant hub.reliable ==> failed == {}
    {
      var below, calls := ComputeSyncIdsUnderPrefix(hub, nodes[k].prefix, cap);
      MoreCallsFrom(hub.ids, cap, nodes, k, listed, calls);
      AmongMore(nodes, k, failed);
      if below.Ok? {
        AppendListing(hub.ids, nodes, k, failed, ListedWhole(hub.ids, listed), ListedWhole(hub.ids, calls), syncIds, below.value);
        syncIds := syncIds + below.value;
      } else {
        OutsideFailed(hub.ids, nodes, k, failed);
        failed := failed + {nodes[k].prefix};
      }
      listed := listed + calls;
    }
    assert nodes[..|nodes|] == nodes;
  }

  /** Every listing call is right below the paths to the bounds, or below a prefix of more than `cap` keys. */
  ghost predicate FewCallsInSpan(ids: set<SyncId>, cap: nat, start: nat, stop: nat, listed: set<Bytes>) {
    forall p :: p in listed ==>
      p != [] && (OnPath(TimePrefix(start), TimePrefix(stop), p[..|p| - 1]) || |Under(ids, p[..|p| - 1])| > cap)
  }

  /** What was listed of the span: nothing else, and when listed whole every key outside the failed prefixes. */
  ghost predicate ListedSpan(span: set<SyncId>, failed: set<Bytes>, whole: bool, listing: seq<SyncId>) {
    multiset(listing) <= multiset(span) && (whole ==> multiset(Outside(span, failed)) <= multiset(listing))
  }

  lemma SpanListed(
    span: set<SyncId>, covered: set<SyncId>, walkFailed: set<Bytes>, failed: set<Bytes>, whole: bool, listing: seq<SyncId>)
    requires Outside(span, walkFailed) <= covered <= span && ListedOf(Outside(covered, failed), whole, listing)
    ensures ListedSpan(span, walkFailed + failed, whole, listing)
    ensures walkFailed + failed == {} && whole ==> multiset(listing) == multiset(span)
  {
    SubsetMultiset(Outside(covered, failed), span);
    forall id | id in Outside(span, walkFailed + failed)
      ensures id in Outside(covered, failed)
    {
      assert forall p :: p in walkFailed || p in failed ==> p in walkFailed + failed;
      assert id in Outside(span, walkFailed);
    }
    SubsetMultiset(Outside(span, walkFailed + failed), Outside(covered, failed));
    if walkFailed + failed == {} {
      OutsideNone(span);
      assert walkFailed == {} && failed == {};
      OutsideNone(covered);
    }
  }

  lemma SubsetMultiset(a: set<SyncId>, b: set<SyncId>)
    requires a <= b
    ensures multiset(a) <= multiset(b)
  {
  }

  /** The walk having succeeded the answer is Ok, whatever listings fail. */
  method ComputeSyncIdsInSpan(hub: Hub, startTime: int, stopTime: int, cap: nat)
    returns (r: Result<seq<SyncId>>, ghost listed: set<Bytes>, ghost failed: set<Bytes>, ghost walked: bool)
    requires ValidIds(hub.ids) && cap >= 1
    ensures r.Ok? ==> ToFarcasterTime(startTime).Ok? && ToFarcasterTime(stopTime).Ok?
    ensures r.Ok? ==> var span := SpanIds(hub.ids, ToFarcasterTime(startTime).value, ToFarcasterTime(stopTime).value);
      ListedSpan(span, failed, ListedWhole(hub.ids, listed), r.value) &&
      (failed == {} ==> ListedOf(span, ListedWhole(hub.ids, listed), r.value))
    ensures SmallSubtrees(hub.ids, cap, listed)
    ensures r.Ok? ==>
      FewCallsInSpan(hub.ids, cap, ToFarcasterTime(startTime).value, ToFarcasterTime(stopTime).value, listed)
    ensures r.Ok? <==> walked
    ensures hub.reliable ==> failed == {} && (walked <==> Answers(hub, startTime, stopTime))
  {
    var nodes;
    nodes, failed := WalkSpan(hub, startTime, stopTime);
    listed, walked := {}, nodes.Ok?;
    if nodes.Err? {
      return Err, listed, failed, walked;
    }
    ghost var a, b := ToFarcasterTime(startTime).value, ToFarcasterTime(stopTime).value;
    ghost var failedHere;
    var syncIds;
    syncIds, listed, failedHere := ListNodes(hub, nodes.value, cap);
    SpanListed(SpanIds(hub.ids, a, b), Covered(hub.ids, nodes.value), failed, failedHere, ListedWhole(hub.ids, listed), syncIds);
    failed := failed + failedHere;
    CallsInSpan(hub.ids, cap, a, b, nodes.value, listed);
    r := Ok(syncIds);
  }

  lemma CallsInSpan(ids: set<SyncId>, cap: nat, start: nat, stop: nat, nodes: seq<TrieNode>, listed: set<Bytes>)
    requires FewCallsFrom(ids, cap, nodes, listed) && BelowPath(TimePrefix(start), TimePrefix(stop), nodes)
    ensures FewCallsInSpan(ids, cap, start, stop, listed)
  {
  }
}
