/** Which events a subscription receives (the subscribe handler of apps/hubble/src/rpc/server.ts). */
module Subscription {
  import opened JumpHash
  import opened Sequences

  datatype EventType = NoType | MergeMessage | PruneMessage | RevokeMessage | MergeUsernameProof | MergeOnChainEvent

  datatype EventRecord = EventRecord(id: nat, kind: EventType, fid: nat)

  /** Only typed events are stored and broadcast; a request may name the type `NoType` nevertheless. */
  type HubEvent = e: EventRecord | e.kind != NoType witness EventRecord(0, MergeMessage, 0)

  /** A request as the handler reads it: zero shards means no sharding, no types means every type. */
  datatype Request = Request(eventTypes: seq<EventType>, totalShards: nat, shardIndex: nat)

  ghost predicate ValidRequest(r: Request) {
    r.totalShards <= MAX_SHARDS && (r.totalShards > 0 ==> r.shardIndex < r.totalShards)
  }

  predicate IsOrdered(e: HubEvent) {
    e.kind == MergeOnChainEvent || e.kind == MergeUsernameProof
  }

  /** The shard that owns an event. */
  function Owner(e: HubEvent, shards: nat): (s: nat)
    requires 1 <= shards <= MAX_SHARDS
    ensures s < shards
  {
    if IsOrdered(e) then 0 else Jump(e.fid, 0, shards)
  }

  /** On-chain and username-proof events go to shard 0, the others where the hash of their fid says. */
  lemma OwnerByKind(e: HubEvent, shards: nat)
    requires 1 <= shards <= MAX_SHARDS
    ensures e.kind == MergeOnChainEvent || e.kind == MergeUsernameProof ==> Owner(e, shards) == 0
    ensures e.kind == MergeMessage || e.kind == PruneMessage || e.kind == RevokeMessage ==> Owner(e, shards) == Jump(e.fid, 0, shards)
  {
  }

  predicate OnShard(r: Request, e: HubEvent)
    requires ValidRequest(r)
  {
    r.totalShards == 0 || Owner(e, r.totalShards) == r.shardIndex
  }

  /** With one more shard an ordered event stays on shard 0, and another event stays or moves to the new shard. */
  lemma Resharding(e: HubEvent, n: nat, m: nat)
    requires 1 <= n <= m <= MAX_SHARDS
    ensures Owner(e, m) == Owner(e, n) || (!IsOrdered(e) && n <= Owner(e, m) < m)
  {
    Consistent(e.fid, n, m);
  }

  // ---------------------------------------------------------------- what is to be written

  /** How often a type is listened to. */
  function Registrations(types: seq<EventType>, t: EventType): nat {
    if types == [] then 1 else multiset(types)[t]
  }

  /** How often the live stream writes an event. */
  function LiveCopies(r: Request, e: HubEvent): nat
    requires ValidRequest(r)
  {
    if OnShard(r, e) then Registrations(r.eventTypes, e.kind) else 0
  }

  /** How often the backfill does. */
  function BackfillCopies(r: Request, e: HubEvent): nat
    requires ValidRequest(r)
  {
    if (r.eventTypes == [] || e.kind in r.eventTypes) && OnShard(r, e) then 1 else 0
  }

  function Repeat(e: HubEvent, n: nat): seq<HubEvent> {
    if n == 0 then [] else Repeat(e, n - 1) + [e]
  }

  /** The events in order, each as often as told. */
  function Copied(events: seq<HubEvent>, copies: HubEvent -> nat): seq<HubEvent> {
    if events == [] then []
    else
      var n := |events| - 1;
      Copied(events[..n], copies) + Repeat(events[n], copies(events[n]))
  }

  function RegistrationCount(types: seq<EventType>): EventType -> nat {
    (t: EventType) => Registrations(types, t)
  }

  /** How often an event is written when the listener is on each channel as often as told. */
  function HeardCount(r: Request, listening: EventType -> nat): HubEvent -> nat
    requires ValidRequest(r)
  {
    (e: HubEvent) => if OnShard(r, e) then listening(e.kind) else 0
  }

  function LiveCount(r: Request): HubEvent -> nat
    requires ValidRequest(r)
  {
    HeardCount(r, RegistrationCount(r.eventTypes))
  }

  function BackfillCount(r: Request): HubEvent -> nat
    requires ValidRequest(r)
  {
    (e: HubEvent) => BackfillCopies(r, e)
  }

  function LiveStream(r: Request, events: seq<HubEvent>): seq<HubEvent>
    requires ValidRequest(r)
  {
    Copied(events, LiveCount(r))
  }

  function BackfillStream(r: Request, events: seq<HubEvent>): seq<HubEvent>
    requires ValidRequest(r)
  {
    Copied(events, BackfillCount(r))
  }

  lemma CopiedStep(events: seq<HubEvent>, copies: HubEvent -> nat, k: nat)
    requires k < |events|
    ensures Copied(events[..k + 1], copies) == Copied(events[..k], copies) + Repeat(events[k], copies(events[k]))
  {
    assert events[..k + 1][..k] == events[..k];
  }

  // ---------------------------------------------------------------- the handler

  /** One subscription: its listener on the channels of the event handler, and what was written to its stream. */
  class Subscriber {
    const request: Request
    var listeners: map<EventType, nat>
    var written: seq<HubEvent>

    constructor (request: Request)
      ensures this.request == request && listeners == map[] && written == []
    {
      this.request := request;
      listeners, written := map[], [];
    }

    /** How often the listener is on a channel. */
    function Listening(t: EventType): nat
      reads this`listeners
    {
      if t in listeners then listeners[t] else 0
    }

    /** The listener is on no channel. */
    ghost predicate Unheard()
      reads this`listeners
    {
      forall t :: t != NoType ==> Listening(t) == 0
    }

    /** The listener is on the channels as a close, early or late, leaves it. */
    ghost predicate Left(early: bool)
      reads this`listeners
    {
      forall t :: t != NoType ==> Listening(t) == LeftListening(request.eventTypes, early, t)
    }

    method On(channel: EventType)
      modifies this`listeners
      ensures forall t :: Listening(t) == old(Listening(t)) + if t == channel then 1 else 0
    {
      listeners := listeners[channel := Listening(channel) + 1];
    }

    /** Takes the listener off a channel once, however often it is there. */
    method Off(channel: EventType)
      modifies this`listeners
      ensures forall t :: Listening(t) == if t == channel && old(Listening(t)) > 0 then old(Listening(t)) - 1 else old(Listening(t))
    {
      if Listening(channel) > 0 {
        listeners := listeners[channel := Listening(channel) - 1];
      }
    }

    /** All channels when no type is requested, otherwise the channel of each type that has one. */
    method Register()
      modifies this`listeners
      ensures forall t :: t != NoType ==> Listening(t) == old(Listening(t)) + Registrations(request.eventTypes, t)
    {
      var types := request.eventTypes;
      if types == [] {
        On(MergeMessage);
        On(PruneMessage);
        On(RevokeMessage);
        On(MergeUsernameProof);
        On(MergeOnChainEvent);
      } else {
        for k := 0 to |types|
          invariant forall t :: t != NoType ==> Listening(t) == old(Listening(t)) + multiset(types[..k])[t]
        {
          assert types[..k + 1] == types[..k] + [types[k]];
          if types[k] != NoType {
            On(types[k]);
          }
        }
        assert types[..|types|] == types;
      }
    }

    /** The close handler. */
    method Close()
      modifies this`listeners
      ensures forall t :: t != NoType ==> Listening(t) == if old(Listening(t)) > 0 then old(Listening(t)) - 1 else 0
    {
      Off(MergeMessage);
      Off(PruneMessage);
      Off(RevokeMessage);
      Off(MergeUsernameProof);
      Off(MergeOnChainEvent);
    }

    /** The listener. */
    method EventListener(event: HubEvent)
      requires ValidRequest(request)
      modifies this`written
      ensures written == old(written) + if OnShard(request, event) then [event] else []
      ensures request.totalShards > 0 && (event.kind == MergeOnChainEvent || event.kind == MergeUsernameProof) ==>
        written == old(written) + if request.shardIndex == 0 then [event] else []
    {
      if request.totalShards == 0 || (IsOrdered(event) && request.shardIndex == 0) {
        written := written + [event];
      } else if !IsOrdered(event) {
        var shard, _, _ := JumpConsistentHash(event.fid, request.totalShards);
        if shard == request.shardIndex {
          written := written + [event];
        }
      }
    }

    /** The event handler emits an event on the channel of its type: every registered listener is called. */
    method Emit(event: HubEvent)
      requires ValidRequest(request)
      modifies this`written
      ensures written == old(written) + Repeat(event, if OnShard(request, event) then Listening(event.kind) else 0)
    {
      for i := 0 to Listening(event.kind)
        invariant written == old(written) + Repeat(event, if OnShard(request, event) then i else 0)
      {
        EventListener(event);
      }
    }

    /** A sequence of events emitted while the listeners stay as they are. */
    method Deliver(events: seq<HubEvent>, ghost listening: EventType -> nat)
      requires ValidRequest(request)
      requires forall t :: t != NoType ==> Listening(t) == listening(t)
      modifies this`written
      ensures written == old(written) + Copied(events, HeardCount(request, listening))
    {
      ghost var copies := HeardCount(request, listening);
      for k := 0 to |events|
        invariant written == old(written) + Copied(events[..k], copies)
      {
        CopiedStep(events, copies, k);
        Emit(events[k]);
      }
      assert events[..|events|] == events;
    }

    /** The same with the listeners that the request registered. */
    method Live(events: seq<HubEvent>)
      requires ValidRequest(request)
      requires forall t :: t != NoType ==> Listening(t) == Registrations(request.eventTypes, t)
      modifies this`written
      ensures written == old(written) + LiveStream(request, events)
    {
      Deliver(events, RegistrationCount(request.eventTypes));
    }

    /** The decision of the backfill. */
    method ShouldWriteEvent(event: HubEvent) returns (write: bool)
      requires ValidRequest(request)
      ensures write <==> BackfillCopies(request, event) == 1
      ensures request.totalShards > 0 && (event.kind == MergeOnChainEvent || event.kind == MergeUsernameProof) ==>
        (write <==> request.shardIndex == 0 && (request.eventTypes == [] || event.kind in request.eventTypes))
    {
      var isRequestedType := request.eventTypes == [] || event.kind in request.eventTypes;
      write := request.totalShards == 0 || (IsOrdered(event) && request.shardIndex == 0);
      if !write && !IsOrdered(event) {
        var shard, _, _ := JumpConsistentHash(event.fid, request.totalShards);
        write := shard == request.shardIndex;
      }
      write := isRequestedType && write;
    }

    /** The stored events, each written when the request asks for it. */
    method Backfill(events: seq<HubEvent>)
      requires ValidRequest(request)
      modifies this`written
      ensures written == old(written) + BackfillStream(request, events)
    {
      ghost var copies := BackfillCount(request);
      for k := 0 to |events|
        invariant written == old(written) + Copied(events[..k], copies)
      {
        CopiedStep(events, copies, k);
        var write := ShouldWriteEvent(events[k]);
        assert Repeat(events[k], 1) == Repeat(events[k], 0) + [events[k]] == [events[k]];
        if write {
          written := written + [events[k]];
        }
      }
      assert events[..|events|] == events;
    }

    /** A backfill with a close after `at` events, which finds no listener to take off. */
    method CloseDuringBackfill(stored: seq<HubEvent>, at: nat)
      requires ValidRequest(request) && at <= |stored| && Unheard()
      modifies this
      ensures Unheard() && written == old(written) + BackfillStream(request, stored)
    {
      Backfill(stored[..at]);
      Close();
      assert Unheard();
      Backfill(stored[at..]);
      CopiedAppend(stored[..at], stored[at..], BackfillCount(request));
      assert stored[..at] + stored[at..] == stored;
    }
  }

  /** The handler: the stored events first, then the listeners and what is emitted while they are there. */
  method Subscribe(request: Request, stored: seq<HubEvent>, emitted: seq<HubEvent>) returns (s: Subscriber)
    requires ValidRequest(request)
    ensures fresh(s) && s.request == request && s.written == BackfillStream(request, stored) + LiveStream(request, emitted)
    ensures forall t :: t != NoType ==> s.Listening(t) == Registrations(request.eventTypes, t)
  {
    s := new Subscriber(request);
    s.Backfill(stored);
    s.Register();
    s.Live(emitted);
  }

  // ---------------------------------------------------------------- order and number

  /** The places of the copied events, in order. */
  ghost function Places(events: seq<HubEvent>, copies: HubEvent -> nat): seq<nat> {
    if events == [] then []
    else
      var n := |events| - 1;
      Places(events[..n], copies) + Again(n, copies(events[n]))
  }

  ghost function Again(p: nat, n: nat): (s: seq<nat>)
    ensures |s| == n && (forall i :: 0 <= i < n ==> s[i] == p) && forall q :: multiset(s)[q] == if q == p then n else 0
  {
    if n == 0 then [] else Again(p, n - 1) + [p]
  }

  ghost predicate NonDecreasing(s: seq<nat>) {
    forall i, j :: 0 <= i < j < |s| ==> s[i] <= s[j]
  }

  ghost predicate EachAsOften(events: seq<HubEvent>, copies: HubEvent -> nat, places: seq<nat>) {
    forall p :: 0 <= p < |events| ==> multiset(places)[p] == copies(events[p])
  }

  /** `out` is the events at the places, in the order of the input and each as often as told. */
  ghost predicate InOrder(events: seq<HubEvent>, copies: HubEvent -> nat, places: seq<nat>, out: seq<HubEvent>) {
    At(out, places, events) && NonDecreasing(places) && EachAsOften(events, copies, places)
  }

  lemma {:induction false} RepeatIs(e: HubEvent, n: nat)
    ensures |Repeat(e, n)| == n && forall i :: 0 <= i < n ==> Repeat(e, n)[i] == e
  {
    if n > 0 {
      RepeatIs(e, n - 1);
    }
  }

  lemma EachAsOftenMore(events: seq<HubEvent>, copies: HubEvent -> nat, places: seq<nat>, e: HubEvent)
    requires EachAsOften(events, copies, places) && forall i :: 0 <= i < |places| ==> places[i] < |events|
    ensures EachAsOften(events + [e], copies, places + Again(|events|, copies(e)))
  {
    var more := Again(|events|, copies(e));
    assert multiset(places + more) == multiset(places) + multiset(more);
    assert |events| !in places;
  }

  lemma AtMore(events: seq<HubEvent>, places: seq<nat>, out: seq<HubEvent>, e: HubEvent, n: nat)
    requires At(out, places, events)
    ensures At(out + Repeat(e, n), places + Again(|events|, n), events + [e])
  {
    RepeatIs(e, n);
  }

  lemma NonDecreasingMore(places: seq<nat>, p: nat, n: nat)
    requires NonDecreasing(places) && forall i :: 0 <= i < |places| ==> places[i] < p
    ensures NonDecreasing(places + Again(p, n))
  {
  }

  lemma {:induction false} CopiedInOrder(events: seq<HubEvent>, copies: HubEvent -> nat)
    ensures InOrder(events, copies, Places(events, copies), Copied(events, copies))
  {
    if events != [] {
      var n := |events| - 1;
      CopiedInOrder(events[..n], copies);
      assert events == events[..n] + [events[n]];
      var places, out := Places(events[..n], copies), Copied(events[..n], copies);
      EachAsOftenMore(events[..n], copies, places, events[n]);
      AtMore(events[..n], places, out, events[n], copies(events[n]));
      NonDecreasingMore(places, n, copies(events[n]));
    }
  }

  /** Either stream is the input's events in order, an event as often as its copies say. */
  lemma StreamsInOrder(r: Request, events: seq<HubEvent>)
    requires ValidRequest(r)
    ensures InOrder(events, LiveCount(r), Places(events, LiveCount(r)), LiveStream(r, events))
    ensures InOrder(events, BackfillCount(r), Places(events, BackfillCount(r)), BackfillStream(r, events))
  {
    CopiedInOrder(events, LiveCount(r));
    CopiedInOrder(events, BackfillCount(r));
  }

  lemma {:induction false} CopiedMember(events: seq<HubEvent>, copies: HubEvent -> nat, x: HubEvent)
    ensures x in Copied(events, copies) <==> x in events && copies(x) > 0
  {
    if events != [] {
      var n := |events| - 1;
      CopiedMember(events[..n], copies, x);
      RepeatMember(events[n], copies(events[n]), x);
      assert events == events[..n] + [events[n]];
    }
  }

  lemma {:induction false} RepeatMember(e: HubEvent, n: nat, x: HubEvent)
    ensures x in Repeat(e, n) <==> x == e && n > 0
  {
    if n > 0 {
      RepeatMember(e, n - 1, x);
    }
  }

  lemma {:induction false} RepeatCount(e: HubEvent, n: nat, x: HubEvent)
    ensures multiset(Repeat(e, n))[x] == if x == e then n else 0
  {
    if n > 0 {
      RepeatCount(e, n - 1, x);
    }
  }

  // ---------------------------------------------------------------- shards

  /** The request of one of several shards. */
  function Shard(r: Request, shards: nat, index: nat): Request {
    r.(totalShards := shards, shardIndex := index)
  }

  ghost predicate Wanted(r: Request, e: HubEvent) {
    r.eventTypes == [] || e.kind in r.eventTypes
  }

  lemma WantedCopies(r: Request, x: HubEvent)
    requires ValidRequest(r)
    ensures LiveCopies(r, x) > 0 <==> Wanted(r, x) && OnShard(r, x)
    ensures BackfillCopies(r, x) > 0 <==> Wanted(r, x) && OnShard(r, x)
  {
    assert x.kind in r.eventTypes <==> x.kind in multiset(r.eventTypes);
  }

  /** An event of the live stream or the backfill goes to its owner's shard and to no other. */
  lemma OneShard(r: Request, shards: nat, index: nat, events: seq<HubEvent>, x: HubEvent)
    requires index < shards <= MAX_SHARDS
    ensures var s := Shard(r, shards, index);
      && (x in LiveStream(s, events) <==> x in events && Wanted(r, x) && index == Owner(x, shards))
      && (x in BackfillStream(s, events) <==> x in events && Wanted(r, x) && index == Owner(x, shards))
  {
    var s := Shard(r, shards, index);
    CopiedMember(events, LiveCount(s), x);
    CopiedMember(events, BackfillCount(s), x);
    WantedCopies(s, x);
  }

  /** How often one of several shards writes an event, live and by the backfill. */
  ghost function LiveOn(r: Request, shards: nat, events: seq<HubEvent>, x: HubEvent, index: nat): nat
    requires shards <= MAX_SHARDS
  {
    if index < shards then multiset(LiveStream(Shard(r, shards, index), events))[x] else 0
  }

  ghost function BackfillOn(r: Request, shards: nat, events: seq<HubEvent>, x: HubEvent, index: nat): nat
    requires shards <= MAX_SHARDS
  {
    if index < shards then multiset(BackfillStream(Shard(r, shards, index), events))[x] else 0
  }

  ghost function SumTo(k: nat, count: nat -> nat): nat {
    if k == 0 then 0 else SumTo(k - 1, count) + count(k - 1)
  }

  lemma {:induction false} SumOfOne(k: nat, count: nat -> nat, own: nat)
    requires forall i :: i != own ==> count(i) == 0
    ensures SumTo(k, count) == if own < k then count(own) else 0
  {
    if k > 0 {
      SumOfOne(k - 1, count, own);
    }
  }

  lemma SameCount(events: seq<HubEvent>, f: HubEvent -> nat, g: HubEvent -> nat, x: HubEvent)
    ensures f(x) == g(x) ==> multiset(Copied(events, f))[x] == multiset(Copied(events, g))[x]
    ensures f(x) == 0 ==> multiset(Copied(events, f))[x] == 0
  {
    if f(x) == 0 {
      NoCopies(events, f, x);
    }
    if f(x) == g(x) {
      EquallyMany(events, f, g, x);
    }
  }

  lemma {:induction false} NoCopies(events: seq<HubEvent>, f: HubEvent -> nat, x: HubEvent)
    requires f(x) == 0
    ensures multiset(Copied(events, f))[x] == 0
  {
    if events != [] {
      var n := |events| - 1;
      NoCopies(events[..n], f, x);
      RepeatCount(events[n], f(events[n]), x);
    }
  }

  lemma {:induction false} EquallyMany(events: seq<HubEvent>, f: HubEvent -> nat, g: HubEvent -> nat, x: HubEvent)
    requires f(x) == g(x)
    ensures multiset(Copied(events, f))[x] == multiset(Copied(events, g))[x]
  {
    if events != [] {
      var n := |events| - 1;
      EquallyMany(events[..n], f, g, x);
      RepeatCount(events[n], f(events[n]), x);
      RepeatCount(events[n], g(events[n]), x);
    }
  }

  /** The owner's shard writes an event as often as a subscription without shards, another one never. */
  lemma ShardCounts(r: Request, shards: nat, events: seq<HubEvent>, x: HubEvent, index: nat)
    requires 1 <= shards <= MAX_SHARDS
    ensures ValidRequest(Shard(r, 0, 0))
    ensures LiveOn(r, shards, events, x, index) ==
      if index == Owner(x, shards) then multiset(LiveStream(Shard(r, 0, 0), events))[x] else 0
    ensures BackfillOn(r, shards, events, x, index) ==
      if index == Owner(x, shards) then multiset(BackfillStream(Shard(r, 0, 0), events))[x] else 0
  {
    if index < shards {
      var s, all := Shard(r, shards, index), Shard(r, 0, 0);
      SameCount(events, LiveCount(s), LiveCount(all), x);
      SameCount(events, BackfillCount(s), BackfillCount(all), x);
    }
  }

  /** Taken together, the shards write exactly what one subscription without shards does. */
  lemma ShardsReassemble(r: Request, shards: nat, events: seq<HubEvent>, x: HubEvent)
    requires 1 <= shards <= MAX_SHARDS
    ensures ValidRequest(Shard(r, 0, 0))
    ensures SumTo(shards, i => LiveOn(r, shards, events, x, i)) == multiset(LiveStream(Shard(r, 0, 0), events))[x]
    ensures SumTo(shards, i => BackfillOn(r, shards, events, x, i)) == multiset(BackfillStream(Shard(r, 0, 0), events))[x]
  {
    forall i: nat
      ensures i != Owner(x, shards) ==> LiveOn(r, shards, events, x, i) == 0 == BackfillOn(r, shards, events, x, i)
    {
      ShardCounts(r, shards, events, x, i);
    }
    ShardCounts(r, shards, events, x, Owner(x, shards));
    SumOfOne(shards, i => LiveOn(r, shards, events, x, i), Owner(x, shards));
    SumOfOne(shards, i => BackfillOn(r, shards, events, x, i), Owner(x, shards));
  }

  // ---------------------------------------------------------------- live and backfill

  /** More copies of some event make a longer stream. */
  lemma {:induction false} CopiedEqual(events: seq<HubEvent>, f: HubEvent -> nat, g: HubEvent -> nat)
    requires forall e :: e in events ==> g(e) <= f(e)
    ensures |Copied(events, g)| <= |Copied(events, f)|
    ensures Copied(events, f) == Copied(events, g) <==> forall e :: e in events ==> f(e) == g(e)
  {
    if events != [] {
      var n := |events| - 1;
      var e := events[n];
      CopiedEqual(events[..n], f, g);
      RepeatIs(e, f(e));
      RepeatIs(e, g(e));
      assert events == events[..n] + [e];
      assert forall x :: x in events <==> x in events[..n] || x == e;
      var a, b := Copied(events[..n], f), Copied(events[..n], g);
      if a + Repeat(e, f(e)) == b + Repeat(e, g(e)) {
        assert |a| == |b| && f(e) == g(e);
        assert a == (a + Repeat(e, f(e)))[..|a|] == b;
      }
    }
  }

  /** Of the same events, the live stream and the backfill write the same if and only if no owned type was requested twice. */
  lemma LiveIsBackfill(r: Request, events: seq<HubEvent>)
    requires ValidRequest(r)
    ensures LiveStream(r, events) == BackfillStream(r, events) <==>
      forall e :: e in events && OnShard(r, e) ==> multiset(r.eventTypes)[e.kind] <= 1
  {
    forall e: HubEvent
      ensures BackfillCopies(r, e) <= LiveCopies(r, e)
      ensures BackfillCopies(r, e) == LiveCopies(r, e) <==> (OnShard(r, e) ==> multiset(r.eventTypes)[e.kind] <= 1)
    {
      assert e.kind in r.eventTypes <==> e.kind in multiset(r.eventTypes);
    }
    CopiedEqual(events, LiveCount(r), BackfillCount(r));
  }

  /** A type requested twice: the live stream writes its event twice, the backfill once. */
  lemma DoubledTypeDoubles(e: HubEvent)
    ensures var r := Request([e.kind, e.kind], 0, 0);
      LiveStream(r, [e]) == [e, e] && BackfillStream(r, [e]) == [e]
  {
    var r := Request([e.kind, e.kind], 0, 0);
    assert r.eventTypes[0] == e.kind;
    TwoOf(e.kind);
    assert LiveCopies(r, e) == 2;
    LiveCountIs(r, e);
    CopiedOne(e, LiveCount(r), 2);
    CopiedOne(e, BackfillCount(r), 1);
    RepeatIs(e, 2);
    RepeatIs(e, 1);
  }

  lemma TwoOf(t: EventType)
    ensures multiset([t, t])[t] == 2
  {
    assert multiset([t, t]) == multiset{t, t};
  }

  lemma LiveCountIs(r: Request, e: HubEvent)
    requires ValidRequest(r)
    ensures LiveCount(r)(e) == LiveCopies(r, e)
  {
  }

  lemma CopiedOne(e: HubEvent, copies: HubEvent -> nat, n: nat)
    requires copies(e) == n
    ensures Copied([e], copies) == Repeat(e, n)
  {
    assert [e][..0] == [];
    assert Copied([], copies) + Repeat(e, n) == Repeat(e, n);
  }

  // ---------------------------------------------------------------- closing

  /** How often the listener is still on a channel after the close: registering after it undoes it. */
  function LeftListening(types: seq<EventType>, early: bool, t: EventType): nat {
    var n := Registrations(types, t);
    if early || n == 0 then n else n - 1
  }

  function LeftCount(types: seq<EventType>, early: bool): EventType -> nat {
    (t: EventType) => LeftListening(types, early, t)
  }

  lemma {:induction false} CopiedAppend(a: seq<HubEvent>, b: seq<HubEvent>, copies: HubEvent -> nat)
    ensures Copied(a + b, copies) == Copied(a, copies) + Copied(b, copies)
  {
    if b == [] {
      assert a + b == a;
    } else {
      var n := |b| - 1;
      var c := a + b[..n];
      CopiedAppend(a, b[..n], copies);
      assert a + b == c + [b[n]];
      CopiedMore(c, b[n], copies);
    }
  }

  lemma CopiedMore(events: seq<HubEvent>, e: HubEvent, copies: HubEvent -> nat)
    ensures Copied(events + [e], copies) == Copied(events, copies) + Repeat(e, copies(e))
  {
    assert (events + [e])[..|events|] == events;
  }

  /** What is written when the stream closes during the backfill, or after `at` emitted events. */
  function ClosedStream(r: Request, stored: seq<HubEvent>, emitted: seq<HubEvent>, early: bool, at: nat): seq<HubEvent>
    requires ValidRequest(r) && (early || at <= |emitted|)
  {
    var left := HeardCount(r, LeftCount(r.eventTypes, early));
    BackfillStream(r, stored) +
    if early then Copied(emitted, left) else LiveStream(r, emitted[..at]) + Copied(emitted[at..], left)
  }

  /** The close comes during the backfill, after `at` stored events; the handler goes on to register. */
  method CloseEarly(request: Request, stored: seq<HubEvent>, emitted: seq<HubEvent>, at: nat) returns (s: Subscriber)
    requires ValidRequest(request) && at <= |stored|
    ensures fresh(s) && s.request == request
    ensures s.Left(true) && s.written == ClosedStream(request, stored, emitted, true, at)
  {
    s := new Subscriber(request);
    s.CloseDuringBackfill(stored, at);
    s.Register();
    assert s.Left(true);
    s.Deliver(emitted, LeftCount(request.eventTypes, true));
  }

  /** The close comes after `at` emitted events. */
  method CloseLate(request: Request, stored: seq<HubEvent>, emitted: seq<HubEvent>, at: nat) returns (s: Subscriber)
    requires ValidRequest(request) && at <= |emitted|
    ensures fresh(s) && s.request == request
    ensures s.Left(false) && s.written == ClosedStream(request, stored, emitted, false, at)
  {
    s := Subscribe(request, stored, emitted[..at]);
    s.Close();
    assert s.Left(false);
    s.Deliver(emitted[at..], LeftCount(request.eventTypes, false));
  }

  /** Nothing is left if and only if nothing was registered after the close, and nothing twice before it. */
  lemma NothingLeft(types: seq<EventType>, early: bool)
    ensures (forall t :: t != NoType ==> LeftListening(types, early, t) == 0) <==>
      forall t :: t != NoType ==> Registrations(types, t) <= if early then 0 else 1
  {
    forall t
      ensures LeftListening(types, early, t) == 0 <==> Registrations(types, t) <= if early then 0 else 1
    {
    }
  }

  /** The handler with a close, early or late, and when the listener is then off every channel. */
  method SubscribeAndClose(request: Request, stored: seq<HubEvent>, emitted: seq<HubEvent>, early: bool, at: nat)
    returns (s: Subscriber)
    requires ValidRequest(request) && at <= if early then |stored| else |emitted|
    ensures fresh(s) && s.request == request && s.Left(early)
    ensures s.Unheard() <==> forall t :: t != NoType ==> Registrations(request.eventTypes, t) <= if early then 0 else 1
    ensures s.written == ClosedStream(request, stored, emitted, early, at)
  {
    if early {
      s := CloseEarly(request, stored, emitted, at);
    } else {
      s := CloseLate(request, stored, emitted, at);
    }
    NothingLeft(request.eventTypes, early);
  }

  /** After a close events are still written if and only if some owned one has a type that is left. */
  lemma SilentAfterClose(r: Request, early: bool, events: seq<HubEvent>)
    requires ValidRequest(r)
    ensures Copied(events, HeardCount(r, LeftCount(r.eventTypes, early))) == [] <==>
      forall e :: e in events && OnShard(r, e) ==> LeftListening(r.eventTypes, early, e.kind) == 0
  {
    var copies := HeardCount(r, LeftCount(r.eventTypes, early));
    var out := Copied(events, copies);
    forall e: HubEvent
      ensures e in out <==> e in events && OnShard(r, e) && LeftListening(r.eventTypes, early, e.kind) > 0
    {
      CopiedMember(events, copies, e);
    }
    if out != [] {
      assert out[0] in out;
    }
  }

  /** A stream closed during its backfill keeps its listener, although it asked for one type once. */
  method EarlyCloseLeaks(stored: seq<HubEvent>) returns (s: Subscriber)
    ensures s.request == Request([MergeMessage], 0, 0) && s.Listening(MergeMessage) == 1
  {
    s := SubscribeAndClose(Request([MergeMessage], 0, 0), stored, [], true, 0);
  }

  /** A stream closed while live keeps its listener when it asked for a type twice. */
  method DoubledTypeLeaks(emitted: seq<HubEvent>) returns (s: Subscriber)
    ensures s.request == Request([MergeMessage, MergeMessage], 0, 0) && s.Listening(MergeMessage) == 1
  {
    s := SubscribeAndClose(Request([MergeMessage, MergeMessage], 0, 0), [], emitted, false, |emitted|);
  }
}
