/** Diffing two hubs over a span and pushing across what each lacks (apps/hubble/src/utils/syncHealth.ts). */
module SyncHealthProbe {
  import opened ByteStrings
  import opened FarcasterTime
  import opened SyncTrie
  import opened SyncHealth
  import opened Wrappers

  function NotIn(other: seq<SyncId>): SyncId -> bool {
    (id: SyncId) => id !in other
  }

  /** The ids of the first list that the second lacks, in order. */
  method UniqueSyncIds(mine: seq<SyncId>, other: seq<SyncId>) returns (only: seq<SyncId>)
    ensures only == Filter(mine, NotIn(other))
    ensures forall x :: multiset(only)[x] == if x in other then 0 else multiset(mine)[x]
  {
    var otherSet: set<SyncId> := {};
    for i := 0 to |other|
      invariant forall x :: x in otherSet <==> x in other[..i]
    {
      assert other[..i + 1] == other[..i] + [other[i]];
      otherSet := otherSet + {other[i]};
    }
    assert other[..|other|] == other;
    only := [];
    for i := 0 to |mine|
      invariant only == Filter(mine[..i], NotIn(other))
    {
      assert mine[..i + 1][..i] == mine[..i];
      if mine[i] !in otherSet {
        only := only + [mine[i]];
      }
    }
    assert mine[..|mine|] == mine;
    forall x
      ensures multiset(only)[x] == if x in other then 0 else multiset(mine)[x]
    {
      FilterCount(mine, NotIn(other), x);
    }
  }

  /** The lists being sets, the difference is the set difference. */
  lemma UniqueOfSets(mine: seq<SyncId>, other: seq<SyncId>, only: seq<SyncId>, a: set<SyncId>, b: set<SyncId>)
    requires forall x :: multiset(only)[x] == if x in other then 0 else multiset(mine)[x]
    requires multiset(mine) <= multiset(a) && multiset(other) <= multiset(b)
    ensures multiset(only) <= multiset(a)
    ensures multiset(mine) == multiset(a) && multiset(other) == multiset(b) ==> multiset(only) == multiset(a - b)
  {
    forall x
      ensures multiset(only)[x] <= multiset(a)[x]
    {
    }
    if multiset(mine) == multiset(a) && multiset(other) == multiset(b) {
      assert forall x :: x in other <==> x in multiset(other);
    }
  }

  ghost function MessagesOf(ids: set<SyncId>): set<SyncId> {
    set id | id in ids && IsMessage(id)
  }

  function Min(a: nat, b: nat): nat {
    if a < b then a else b
  }

  ghost function Flatten(requests: seq<seq<SyncId>>): seq<SyncId> {
    if requests == [] then [] else Flatten(requests[..|requests| - 1]) + requests[|requests| - 1]
  }

  lemma {:induction false} FlattenAppend(a: seq<seq<SyncId>>, b: seq<seq<SyncId>>)
    ensures Flatten(a + b) == Flatten(a) + Flatten(b)
  {
    if b == [] {
      assert a + b == a;
    } else {
      FlattenAppend(a, b[..|b| - 1]);
      assert (a + b)[..|a + b| - 1] == a + b[..|b| - 1];
    }
  }

  /** Requests of `cap` ids each, the last of at most so many and not empty. */
  ghost predicate InChunks(requests: seq<seq<SyncId>>, cap: nat) {
    forall i :: 0 <= i < |requests| ==> 0 < |requests[i]| <= cap && (i < |requests| - 1 ==> |requests[i]| == cap)
  }

  ghost predicate AllFull(requests: seq<seq<SyncId>>, cap: nat) {
    forall i :: 0 <= i < |requests| ==> |requests[i]| == cap
  }

  lemma OneMoreRequest(requests: seq<seq<SyncId>>, request: seq<SyncId>, cap: nat)
    requires cap >= 1 && AllFull(requests, cap) && 0 < |request| <= cap
    ensures Flatten(requests + [request]) == Flatten(requests) + request
    ensures InChunks(requests + [request], cap) && (|request| == cap ==> AllFull(requests + [request], cap))
  {
    assert (requests + [request])[..|requests|] == requests;
  }

  /** Fetches the missing messages in requests of at most `cap` ids, in order. */
  method FetchMissing(hub: Hub, missing: seq<SyncId>, cap: nat)
    returns (r: Result<seq<SyncId>>, ghost requests: seq<seq<SyncId>>)
    requires cap >= 1
    ensures Flatten(requests) <= missing && (r.Ok? ==> Flatten(requests) == missing)
    ensures InChunks(requests, cap)
    ensures r.Ok? ==> multiset(r.value) <= multiset(MessagesAmong(hub.ids, missing))
    ensures hub.reliable && (hub.rpc ==> cap <= MAX_VALUES_RETURNED) ==> r == Ok(MessagesAmong(hub.ids, missing))
  {
    requests := [];
    var all: seq<SyncId> := [];
    var i := 0;
    while i < |missing|
      invariant Flatten(requests) == missing[..Min(i, |missing|)]
      invariant InChunks(requests, cap) && (i < |missing| ==> AllFull(requests, cap))
      invariant multiset(all) <= multiset(MessagesAmong(hub.ids, missing[..Min(i, |missing|)]))
      invariant hub.reliable && (hub.rpc ==> cap <= MAX_VALUES_RETURNED) ==>
        all == MessagesAmong(hub.ids, missing[..Min(i, |missing|)])
    {
      var end := Min(i + cap, |missing|);
      var request := missing[i..end];
      assert missing[..i] + request == missing[..end];
      OneMoreRequest(requests, request, cap);
      requests := requests + [request];
      var messages := GetAllMessagesBySyncIds(hub, request);
      if messages.Err? {
        return Err, requests;
      }
      FilterAppend(missing[..i], request, id => id in hub.ids && IsMessage(id));
      all := all + messages.value;
      i := i + cap;
    }
    assert missing[..|missing|] == missing;
    r := Ok(all);
  }

  /** What was submitted: missing messages that the sender holds, each at most as often as it was missing. */
  ghost predicate Pushed(from: Hub, missing: seq<SyncId>, pushed: seq<SyncId>) {
    multiset(pushed) <= multiset(MessagesAmong(from.ids, missing))
  }

  /** The submissions whose result is a success. */
  ghost function Successes(pushed: seq<SyncId>, results: seq<bool>): set<SyncId> {
    set i | 0 <= i < |pushed| && i < |results| && results[i] :: pushed[i]
  }

  /** One result for each submission: the receiver holds just its own ids and those whose result is a success. */
  ghost predicate Accepted(to: Hub, to': Hub, pushed: seq<SyncId>, results: seq<bool>) {
    |results| == |pushed| && to'.ids == to.ids + Successes(pushed, results)
  }

  lemma AcceptedMore(pushed: seq<SyncId>, i: nat, results: seq<bool>, accepted: bool)
    requires |results| == i < |pushed|
    ensures Successes(pushed[..i + 1], results + [accepted]) ==
      Successes(pushed[..i], results) + if accepted then {pushed[i]} else {}
  {
    var now, was, results' := pushed[..i + 1], pushed[..i], results + [accepted];
    forall m | m in Successes(was, results)
      ensures m in Successes(now, results')
    {
      var k :| 0 <= k < i && results[k] && was[k] == m;
      assert results'[k] && now[k] == m;
    }
    if accepted {
      assert results'[i] && now[i] == pushed[i];
    }
    forall m | m in Successes(now, results')
      ensures m in Successes(was, results) || (accepted && m == pushed[i])
    {
      var k :| 0 <= k <= i && results'[k] && now[k] == m;
      assert k < i ==> results[k] && was[k] == m;
    }
  }

  /** Submits what the first hub holds of the missing ids to the second hub. */
  method TryPushingMissingMessages(with: Hub, without: Hub, missing: seq<SyncId>, cap: nat)
    returns (r: Result<seq<bool>>, without': Hub, ghost requests: seq<seq<SyncId>>, ghost pushed: seq<SyncId>)
    requires cap >= 1
    ensures Flatten(requests) <= missing && (r.Ok? ==> Flatten(requests) == missing)
    ensures InChunks(requests, cap)
    ensures r.Ok? ==> Pushed(with, missing, pushed) && Accepted(without, without', pushed, r.value)
    ensures r.Err? ==> pushed == []
    ensures without.reliable && r.Ok? ==> forall i :: 0 <= i < |r.value| ==> r.value[i]
    ensures with.reliable && (with.rpc ==> cap <= MAX_VALUES_RETURNED) ==> pushed == MessagesAmong(with.ids, missing)
    ensures without'.rpc == without.rpc && without'.reliable == without.reliable
    ensures r.Err? ==> without' == without
    ensures without.ids <= without'.ids
    ensures forall m :: m in without'.ids && m !in without.ids ==> m in missing && m in with.ids && IsMessage(m)
    ensures with.reliable && without.reliable && (with.rpc ==> cap <= MAX_VALUES_RETURNED) ==>
      r.Ok? && forall m :: m in missing && m in with.ids && IsMessage(m) ==> m in without'.ids
  {
    var messages, log := FetchMissing(with, missing, cap);
    requests := log;
    without' := without;
    if messages.Err? {
      return Err, without', requests, [];
    }
    pushed := messages.value;
    var results: seq<bool> := [];
    for i := 0 to |messages.value|
      invariant Accepted(without, without', pushed[..i], results)
      invariant without.reliable ==> forall k :: 0 <= k < i ==> results[k]
      invariant without'.rpc == without.rpc && without'.reliable == without.reliable
      invariant without.ids <= without'.ids
      invariant forall m :: m in without'.ids && m !in without.ids ==> m in messages.value
      invariant without.reliable ==> forall k :: 0 <= k < i ==> messages.value[k] in without'.ids
    {
      var accepted;
      without', accepted := SubmitMessage(without', messages.value[i]);
      AcceptedMore(pushed, i, results, accepted);
      results := results + [accepted];
    }
    forall m
      ensures m in messages.value ==> m in missing && m in with.ids && IsMessage(m)
      ensures m in MessagesAmong(with.ids, missing) <==> m in missing && m in with.ids && IsMessage(m)
    {
      FilterCount(missing, id => id in with.ids && IsMessage(id), m);
      assert m in MessagesAmong(with.ids, missing) <==> m in multiset(MessagesAmong(with.ids, missing));
      assert m in messages.value <==> m in multiset(messages.value);
    }
    assert pushed[..|pushed|] == pushed;
    r := Ok(results);
  }

  /** The receiver gained only message ids of the sender's span; `all` says that it gained every one. */
  ghost predicate Gained(from: Hub, to: Hub, to': Hub, start: nat, stop: nat, all: bool)
    requires ValidIds(from.ids)
  {
    && to'.rpc == to.rpc && to'.reliable == to.reliable
    && to.ids <= to'.ids <= to.ids + MessagesOf(SpanIds(from.ids, start, stop))
    && (all ==> to'.ids == to.ids + MessagesOf(SpanIds(from.ids, start, stop)))
  }

  lemma PushGains(from: Hub, to: Hub, to': Hub, missing: seq<SyncId>, start: nat, stop: nat, all: bool)
    requires ValidIds(from.ids + to.ids)
    requires to'.rpc == to.rpc && to'.reliable == to.reliable && to.ids <= to'.ids
    requires forall m :: m in to'.ids && m !in to.ids ==> m in missing && m in from.ids && IsMessage(m)
    requires multiset(missing) <= multiset(SpanIds(from.ids, start, stop))
    requires all ==> multiset(missing) == multiset(SpanIds(from.ids, start, stop) - SpanIds(to.ids, start, stop))
    requires all ==> forall m :: m in missing && m in from.ids && IsMessage(m) ==> m in to'.ids
    ensures Gained(from, to, to', start, stop, all)
    ensures ValidIds(from.ids + to'.ids)
  {
    assert forall m :: m in missing <==> m in multiset(missing);
    assert from.ids + to'.ids == from.ids + to.ids;
  }

  lemma KeepsAnswering(hub: Hub, hub': Hub, startTime: int, stopTime: int)
    requires hub.ids <= hub'.ids && hub.rpc == hub'.rpc && Answers(hub, startTime, stopTime)
    ensures Answers(hub', startTime, stopTime)
  {
    if !hub.rpc {
      var a, b := ToFarcasterTime(startTime).value, ToFarcasterTime(stopTime).value;
      var prefix := CommonPrefix(TimePrefix(a), TimePrefix(b));
      assert Under(hub.ids, prefix) <= Under(hub'.ids, prefix);
    }
  }

  /** One full push each way leaves both sides with the union of the message ids in the span. */
  lemma BothWays(p: set<SyncId>, q: set<SyncId>, p': set<SyncId>, q': set<SyncId>, start: nat, stop: nat)
    requires ValidIds(p + q) && ValidIds(q')
    requires q' == q + MessagesOf(SpanIds(p, start, stop))
    requires p' == p + MessagesOf(SpanIds(q', start, stop))
    ensures ValidIds(p') && p' == p + MessagesOf(SpanIds(q, start, stop))
    ensures SpanIds(q', start, stop) - SpanIds(p, start, stop) == SpanIds(q, start, stop) - SpanIds(p, start, stop)
    ensures MessagesOf(SpanIds(p', start, stop)) == MessagesOf(SpanIds(p, start, stop) + SpanIds(q, start, stop))
    ensures MessagesOf(SpanIds(q', start, stop)) == MessagesOf(SpanIds(p, start, stop) + SpanIds(q, start, stop))
  {
    assert p' == p + MessagesOf(SpanIds(q, start, stop));
    assert p' <= p + q;
  }

  /** What the second push brings back comes from the receiver's own ids, however much of the first arrived. */
  lemma GainedBothWays(p: set<SyncId>, q: set<SyncId>, p': set<SyncId>, q': set<SyncId>, start: nat, stop: nat)
    requires ValidIds(p + q)
    requires q <= q' <= q + MessagesOf(SpanIds(p, start, stop))
    requires ValidIds(q') && p <= p' <= p + MessagesOf(SpanIds(q', start, stop))
    ensures p' <= p + MessagesOf(SpanIds(q, start, stop))
  {
  }

  /**
   * What a push reports: one result for each submission, and the receiver's gain in terms of them.
   * When all goes well every id of the difference is requested once, the message ids among them are
   * submitted once, and every result is a success.
   */
  ghost predicate Reported(
    to: Hub, to': Hub, span: set<SyncId>, difference: set<SyncId>, all: bool,
    requests: seq<seq<SyncId>>, pushed: seq<SyncId>, results: seq<bool>)
  {
    && Accepted(to, to', pushed, results) && multiset(pushed) <= multiset(MessagesOf(span))
    && (all ==> multiset(Flatten(requests)) == multiset(difference) && multiset(pushed) == multiset(MessagesOf(difference)))
    && (all ==> forall i :: 0 <= i < |results| ==> results[i])
  }

  lemma MessagesAmongSet(ids: set<SyncId>, missing: seq<SyncId>, span: set<SyncId>)
    requires span <= ids && multiset(missing) <= multiset(span)
    ensures multiset(MessagesAmong(ids, missing)) <= multiset(MessagesOf(span))
    ensures multiset(missing) == multiset(span) ==> multiset(MessagesAmong(ids, missing)) == multiset(MessagesOf(span))
  {
    forall m
      ensures multiset(MessagesAmong(ids, missing))[m] <= multiset(MessagesOf(span))[m]
      ensures multiset(missing) == multiset(span) ==>
        multiset(MessagesAmong(ids, missing))[m] == multiset(MessagesOf(span))[m]
    {
      FilterCount(missing, id => id in ids && IsMessage(id), m);
      assert multiset(missing)[m] <= multiset(span)[m];
    }
  }

  lemma PushReported(
    from: Hub, to: Hub, to': Hub, missing: seq<SyncId>, span: set<SyncId>, difference: set<SyncId>, all: bool,
    requests: seq<seq<SyncId>>, pushed: seq<SyncId>, results: seq<bool>)
    requires difference <= span <= from.ids && multiset(missing) <= multiset(span)
    requires all ==> multiset(missing) == multiset(difference)
    requires Pushed(from, missing, pushed) && Accepted(to, to', pushed, results) && Flatten(requests) == missing
    requires all ==> pushed == MessagesAmong(from.ids, missing)
    requires all ==> forall i :: 0 <= i < |results| ==> results[i]
    ensures Reported(to, to', span, difference, all, requests, pushed, results)
  {
    MessagesAmongSet(from.ids, missing, span);
    if all {
      MessagesAmongSet(from.ids, missing, difference);
    }
  }

  /** The submitted ids being those of the difference, a smaller span that holds it will do. */
  lemma ReportedFewer(
    to: Hub, to': Hub, span: set<SyncId>, span': set<SyncId>, difference: set<SyncId>,
    requests: seq<seq<SyncId>>, pushed: seq<SyncId>, results: seq<bool>)
    requires Reported(to, to', span, difference, true, requests, pushed, results) && difference <= span'
    ensures Reported(to, to', span', difference, true, requests, pushed, results)
  {
    SubsetMultiset(MessagesOf(difference), MessagesOf(span'));
  }

  lemma SwapSides(a: set<SyncId>, b: set<SyncId>)
    requires ValidIds(a + b)
    ensures ValidIds(b + a)
  {
    assert a + b == b + a;
  }

  /** A push of ids that the receiver lacks in the span; `all` says that they are all of those and nothing fails. */
  method Push(from: Hub, to: Hub, missing: seq<SyncId>, cap: nat, ghost start: nat, ghost stop: nat, ghost all: bool)
    returns (r: Result<seq<bool>>, to': Hub, ghost requests: seq<seq<SyncId>>, ghost pushed: seq<SyncId>)
    requires cap >= 1 && ValidIds(from.ids + to.ids)
    requires multiset(missing) <= multiset(SpanIds(from.ids, start, stop))
    requires all ==> multiset(missing) == multiset(SpanIds(from.ids, start, stop) - SpanIds(to.ids, start, stop))
    requires all ==> from.reliable && to.reliable && cap <= MAX_VALUES_RETURNED
    ensures ValidIds(from.ids + to'.ids) && InChunks(requests, cap) && (all ==> r.Ok?)
    ensures r.Err? ==> to' == to && pushed == []
    ensures r.Ok? ==>
      var span := SpanIds(from.ids, start, stop);
      Gained(from, to, to', start, stop, all) &&
      Reported(to, to', span, span - SpanIds(to.ids, start, stop), all, requests, pushed, r.value)
  {
    r, to', requests, pushed := TryPushingMissingMessages(from, to, missing, cap);
    PushGains(from, to, to', missing, start, stop, all);
    if r.Ok? {
      ghost var span := SpanIds(from.ids, start, stop);
      PushReported(from, to, to', missing, span, span - SpanIds(to.ids, start, stop), all, requests, pushed, r.value);
    }
  }

  datatype Direction = ToPeer | FromPeer

  class Probe {
    var primary: Hub
    var peer: Hub
    const cap: nat

    /** The keys of the two tries can stand in one trie, and the cap is a positive one. */
    ghost predicate Valid()
      reads this
    {
      cap >= 1 && ValidIds(primary.ids + peer.ids)
    }

    /** Neither hub fails a call, and listings and requests stay within the server's limit. */
    ghost predicate Dependable()
      reads this
    {
      primary.reliable && peer.reliable && cap <= MAX_VALUES_RETURNED
    }

    constructor (primary: Hub, peer: Hub, maxValuesReturned: nat)
      requires ValidIds(primary.ids + peer.ids)
      ensures Valid() && this.primary == primary && this.peer == peer
      ensures cap == if maxValuesReturned > 0 then maxValuesReturned else MAX_VALUES_RETURNED
    {
      this.primary, this.peer := primary, peer;
      cap := if maxValuesReturned > 0 then maxValuesReturned else MAX_VALUES_RETURNED;
    }

    /** `mineListed` and `theirsListed` are the prefixes of the listing calls to either side. */
    method DivergingSyncIds(startTime: int, stopTime: int)
      returns (r: Result<(seq<SyncId>, seq<SyncId>)>, ghost mineListed: set<Bytes>, ghost theirsListed: set<Bytes>)
      requires Valid()
      ensures r.Ok? ==> ToFarcasterTime(startTime).Ok? && ToFarcasterTime(stopTime).Ok?
      ensures r.Ok? ==>
        var a, b := ToFarcasterTime(startTime).value, ToFarcasterTime(stopTime).value;
        var here, there := SpanIds(primary.ids, a, b), SpanIds(peer.ids, a, b);
        && multiset(r.value.0) <= multiset(here) && multiset(r.value.1) <= multiset(there)
        && (Dependable() ==> multiset(r.value.0) == multiset(here - there) && multiset(r.value.1) == multiset(there - here))
        && FewCallsInSpan(primary.ids, cap, a, b, mineListed) && FewCallsInSpan(peer.ids, cap, a, b, theirsListed)
      ensures SmallSubtrees(primary.ids, cap, mineListed) && SmallSubtrees(peer.ids, cap, theirsListed)
      ensures primary.reliable && peer.reliable ==>
        (r.Ok? <==> Answers(primary, startTime, stopTime) && Answers(peer, startTime, stopTime))
    {
      mineListed, theirsListed := {}, {};
      var mine, listed, _, _ := ComputeSyncIdsInSpan(primary, startTime, stopTime, cap);
      mineListed := listed;
      if mine.Err? {
        return Err, mineListed, theirsListed;
      }
      var theirs, listed', _, _ := ComputeSyncIdsInSpan(peer, startTime, stopTime, cap);
      theirsListed := listed';
      if theirs.Err? {
        return Err, mineListed, theirsListed;
      }
      if cap <= MAX_VALUES_RETURNED {
        SmallerCap(primary.ids, cap, MAX_VALUES_RETURNED, mineListed);
        SmallerCap(peer.ids, cap, MAX_VALUES_RETURNED, theirsListed);
      }
      var onlyMine := UniqueSyncIds(mine.value, theirs.value);
      var onlyTheirs := UniqueSyncIds(theirs.value, mine.value);
      ghost var a, b := ToFarcasterTime(startTime).value, ToFarcasterTime(stopTime).value;
      UniqueOfSets(mine.value, theirs.value, onlyMine, SpanIds(primary.ids, a, b), SpanIds(peer.ids, a, b));
      UniqueOfSets(theirs.value, mine.value, onlyTheirs, SpanIds(peer.ids, a, b), SpanIds(primary.ids, a, b));
      r := Ok((onlyMine, onlyTheirs));
    }

    /** Pushes in one direction; `requests` are the calls made for messages, `pushed` what was submitted. */
    method TryPushingDivergingSyncIds(startTime: int, stopTime: int, direction: Direction)
      returns (r: Result<seq<bool>>, ghost requests: seq<seq<SyncId>>, ghost pushed: seq<SyncId>)
      requires Valid()
      modifies this
      ensures Valid()
      ensures r.Err? ==> primary == old(primary) && peer == old(peer) && pushed == []
      ensures direction == ToPeer ==> primary == old(primary)
      ensures direction == FromPeer ==> peer == old(peer)
      ensures InChunks(requests, cap)
      ensures r.Ok? ==> ToFarcasterTime(startTime).Ok? && ToFarcasterTime(stopTime).Ok?
      ensures r.Ok? ==>
        var a, b := ToFarcasterTime(startTime).value, ToFarcasterTime(stopTime).value;
        var here, there := SpanIds(old(primary.ids), a, b), SpanIds(old(peer.ids), a, b);
        if direction == ToPeer then
          Gained(primary, old(peer), peer, a, b, old(Dependable())) &&
          Reported(old(peer), peer, here, here - there, old(Dependable()), requests, pushed, r.value)
        else
          Gained(peer, old(primary), primary, a, b, old(Dependable())) &&
          Reported(old(primary), primary, there, there - here, old(Dependable()), requests, pushed, r.value)
      ensures old(Dependable()) ==>
        (r.Ok? <==> Answers(old(primary), startTime, stopTime) && Answers(old(peer), startTime, stopTime))
    {
      requests, pushed := [], [];
      var diff, _, _ := DivergingSyncIds(startTime, stopTime);
      if diff.Err? {
        return Err, requests, pushed;
      }
      ghost var a, b := ToFarcasterTime(startTime).value, ToFarcasterTime(stopTime).value;
      ghost var all := Dependable();
      if direction == ToPeer {
        r, peer, requests, pushed := Push(primary, peer, diff.value.0, cap, a, b, all);
      } else {
        SwapSides(primary.ids, peer.ids);
        r, primary, requests, pushed := Push(peer, primary, diff.value.1, cap, a, b, all);
        SwapSides(peer.ids, primary.ids);
      }
    }

    /**
     * The push to the peer followed by the push from it. Afterwards both hubs hold the union of
     * their message ids in the span, and every id only one of them held was requested once.
     */
    method PushBothWays(startTime: int, stopTime: int)
      returns (
        toPeer: Result<seq<bool>>, fromPeer: Result<seq<bool>>,
        ghost requestsTo: seq<seq<SyncId>>, ghost requestsFrom: seq<seq<SyncId>>,
        ghost pushedTo: seq<SyncId>, ghost pushedFrom: seq<SyncId>)
      requires Valid()
      modifies this
      ensures Valid()
      ensures InChunks(requestsTo, cap) && InChunks(requestsFrom, cap)
      ensures old(Dependable()) ==>
        (toPeer.Ok? <==> Answers(old(primary), startTime, stopTime) && Answers(old(peer), startTime, stopTime)) &&
        (fromPeer.Ok? <==> toPeer.Ok?)
      ensures toPeer.Err? ==> peer == old(peer)
      ensures fromPeer.Err? ==> primary == old(primary)
      ensures toPeer.Ok? ==> Accepted(old(peer), peer, pushedTo, toPeer.value)
      ensures fromPeer.Ok? ==> Accepted(old(primary), primary, pushedFrom, fromPeer.value)
      ensures toPeer.Ok? || fromPeer.Ok? ==> ToFarcasterTime(startTime).Ok? && ToFarcasterTime(stopTime).Ok?
      ensures toPeer.Ok? || fromPeer.Ok? ==>
        var a, b := ToFarcasterTime(startTime).value, ToFarcasterTime(stopTime).value;
        && old(peer.ids) <= peer.ids <= old(peer.ids) + MessagesOf(SpanIds(old(primary.ids), a, b))
        && old(primary.ids) <= primary.ids <= old(primary.ids) + MessagesOf(SpanIds(old(peer.ids), a, b))
      ensures toPeer.Ok? && old(Dependable()) ==>
        var a, b := ToFarcasterTime(startTime).value, ToFarcasterTime(stopTime).value;
        var here, there := SpanIds(old(primary.ids), a, b), SpanIds(old(peer.ids), a, b);
        && MessagesOf(SpanIds(primary.ids, a, b)) == MessagesOf(SpanIds(peer.ids, a, b)) == MessagesOf(here + there)
        && primary.ids == old(primary.ids) + MessagesOf(there)
        && peer.ids == old(peer.ids) + MessagesOf(here)
        && Reported(old(peer), peer, here, here - there, true, requestsTo, pushedTo, toPeer.value)
        && Reported(old(primary), primary, there, there - here, true, requestsFrom, pushedFrom, fromPeer.value)
    {
      toPeer, requestsTo, pushedTo := TryPushingDivergingSyncIds(startTime, stopTime, ToPeer);
      if old(Dependable()) && toPeer.Ok? {
        KeepsAnswering(old(peer), peer, startTime, stopTime);
      }
      ghost var between := peer.ids;
      fromPeer, requestsFrom, pushedFrom := TryPushingDivergingSyncIds(startTime, stopTime, FromPeer);
      if toPeer.Ok? || fromPeer.Ok? {
        ghost var a, b := ToFarcasterTime(startTime).value, ToFarcasterTime(stopTime).value;
        GainedBothWays(old(primary.ids), old(peer.ids), primary.ids, between, a, b);
        if old(Dependable()) && toPeer.Ok? {
          BothWays(old(primary.ids), old(peer.ids), primary.ids, peer.ids, a, b);
          ReportedFewer(old(primary), primary, SpanIds(between, a, b), SpanIds(old(peer.ids), a, b),
            SpanIds(between, a, b) - SpanIds(old(primary.ids), a, b), requestsFrom, pushedFrom, fromPeer.value);
        }
      }
    }
  }
}
