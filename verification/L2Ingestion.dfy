/**
 * On-chain event ingestion as a state machine (apps/hubble/src/eth/l2EventsProvider.ts), with the
 * record that it shares with the name registry provider (apps/hubble/src/eth/fnameRegistryEventsProvider.ts).
 * A step is the code between two awaits; any step may come between two steps of one call.
 */
module L2Ingestion {
  import opened Wrappers

  const NUM_CONFIRMATIONS := 2

  datatype Event = Event(block: nat, logIndex: nat, payload: nat)
  datatype HubState = HubState(lastL2Block: nat, lastFnameProof: nat)

  /** One call of writeCachedBlocks: submitting, about to read the hub state, about to write it. */
  datatype Flush =
    | Writing(todo: seq<nat>, inFlight: seq<Event>, latest: nat, highest: nat)
    | Reading(highest: nat)
    | Putting(record: HubState)
    | Done

  /** Who starts a flush: the history sync, the handler of a new block, or a retry. */
  datatype Caller = History | NewBlock | Retry

  /**
   * History is synced up to `fetched`, and being fetched up to `next`, on the way to block `to`.
   * While it flushes, it awaits flush number `awaited`.
   */
  datatype Phase =
    | Down
    | Fetching(to: nat, fetched: int, next: int)
    | Flushing(to: nat, fetched: int, awaited: nat)
    | Live(to: nat)

  /** `handling` is the flush that a new block's handler awaits; while there is one its flag is set. */
  datatype State = State(
    phase: Phase,
    cache: map<nat, seq<Event>>,
    flushes: seq<Flush>,
    handling: Option<nat>,
    submitted: seq<Event>,
    persisted: HubState,
    lastTransferId: nat,
    merged: set<nat>,
    fnamePut: Option<HubState>,
    received: multiset<Event>,
    lost: multiset<Event>)

  /** What there is to ingest: the chain's events, the registry's transfer ids, the first block. */
  datatype World = World(chain: set<Event>, registry: set<nat>, first: nat)

  datatype Step =
    | Cache(e: Event)
    | BeginFlush(caller: Caller, latest: nat, todo: seq<nat>)
    | TakeBlock(i: nat, order: seq<Event>)
    | Submit(i: nat)
    | EndWriting(i: nat)
    | ReadState(i: nat, ok: bool)
    | PutState(i: nat, ok: bool)
    | BlockHandled
    | FnamePage(last: nat)
    | FnameRead
    | FnamePut(ok: bool)
    | Crash(refetch: bool)
    | Start(to: nat, resync: bool, next: int)
    | NextRun(next: int)
    | Finish

  ghost predicate Init(s: State) {
    && s.phase == Down && s.cache == map[] && s.flushes == [] && s.handling == None && s.submitted == []
    && s.persisted == HubState(0, 0) && s.lastTransferId == 0 && s.merged == {} && s.fnamePut == None
    && s.received == multiset{} && s.lost == multiset{}
  }

  function Cached(s: State, b: nat): seq<Event> {
    if b in s.cache then s.cache[b] else []
  }

  /** Where history sync starts: behind the persisted block, or at the first block. */
  function SyncFrom(w: World, persisted: HubState, resync: bool): int {
    if resync || persisted.lastL2Block == 0 then w.first else persisted.lastL2Block - NUM_CONFIRMATIONS
  }

  /** The flush with this number has ended. */
  ghost predicate Ended(s: State, i: nat) {
    i < |s.flushes| && s.flushes[i] == Done
  }

  /**
   * A history sync flushes what it fetched. The block watcher starts after it, and its handler
   * waits while the flag is set. Nothing holds a retry back.
   */
  ghost predicate MayBegin(s: State, caller: Caller, latest: nat) {
    match caller
    case History => s.phase.Fetching? && latest == s.phase.to
    case NewBlock => s.phase.Live? && s.handling == None
    case Retry => true
  }

  ghost predicate Enabled(w: World, s: State, step: Step) {
    match step
    case BeginFlush(caller, latest, todo) => MayBegin(s, caller, latest) && multiset(todo) == multiset(s.cache.Keys)
    case TakeBlock(i, order) =>
      && i < |s.flushes| && s.flushes[i].Writing? && s.flushes[i].inFlight == [] && s.flushes[i].todo != []
      && multiset(order) == multiset(Cached(s, s.flushes[i].todo[0]))
    case Submit(i) => i < |s.flushes| && s.flushes[i].Writing? && s.flushes[i].inFlight != []
    case EndWriting(i) => i < |s.flushes| && s.flushes[i].Writing? && s.flushes[i].inFlight == [] && s.flushes[i].todo == []
    case ReadState(i, _) => i < |s.flushes| && s.flushes[i].Reading?
    case PutState(i, _) => i < |s.flushes| && s.flushes[i].Putting?
    case BlockHandled => s.handling.Some? && Ended(s, s.handling.value)
    case FnamePage(last) => s.lastTransferId <= last
    case FnamePut(_) => s.fnamePut.Some?
    case Start(to, resync, next) =>
      var from := SyncFrom(w, s.persisted, resync);
      s.phase == Down && (from < to ==> from <= next <= to)
    case NextRun(next) => s.phase.Flushing? && Ended(s, s.phase.awaited) && s.phase.fetched < next <= s.phase.to
    case Finish => s.phase.Flushing? && Ended(s, s.phase.awaited) && s.phase.fetched == s.phase.to
    case _ => true
  }

  ghost function Apply(w: World, s: State, step: Step): State
    requires Enabled(w, s, step)
  {
    match step
    case Cache(e) =>
      s.(cache := s.cache[e.block := Cached(s, e.block) + [e]], received := s.received + multiset{e})
    case BeginFlush(caller, latest, todo) =>
      s.(flushes := s.flushes + [Writing(todo, [], latest, 0)],
         phase := if caller == History then Flushing(s.phase.to, s.phase.next, |s.flushes|) else s.phase,
         handling := if caller == NewBlock then Some(|s.flushes|) else s.handling)
    case TakeBlock(i, order) =>
      var f := s.flushes[i];
      var b := f.todo[0];
      if b + NUM_CONFIRMATIONS <= f.latest then
        s.(cache := s.cache - {b}, flushes := s.flushes[i := Writing(f.todo[1..], order, f.latest, b)])
      else
        s.(flushes := s.flushes[i := f.(todo := f.todo[1..])])
    case Submit(i) =>
      var f := s.flushes[i];
      s.(submitted := s.submitted + [f.inFlight[0]], flushes := s.flushes[i := f.(inFlight := f.inFlight[1..])])
    case EndWriting(i) =>
      var f := s.flushes[i];
      s.(flushes := s.flushes[i := if f.highest > 0 then Reading(f.highest) else Done])
    case ReadState(i, ok) =>
      var h := s.flushes[i].highest;
      s.(flushes := s.flushes[i :=
           if ok && h > s.persisted.lastL2Block then Putting(s.persisted.(lastL2Block := h)) else Done])
    case PutState(i, ok) =>
      s.(persisted := if ok then s.flushes[i].record else s.persisted, flushes := s.flushes[i := Done])
    case BlockHandled =>
      s.(handling := None)
    case FnamePage(last) =>
      s.(merged := s.merged + (set t | t in w.registry && s.lastTransferId < t <= last), lastTransferId := last)
    case FnameRead =>
      s.(fnamePut := Some(s.persisted.(lastFnameProof := s.lastTransferId)))
    case FnamePut(ok) =>
      s.(persisted := if ok then s.fnamePut.value else s.persisted, fnamePut := None)
    case Crash(refetch) =>
      s.(phase := Down, cache := map[], flushes := [], handling := None, fnamePut := None,
         lastTransferId := if refetch then 0 else s.persisted.lastFnameProof, lost := s.received - multiset(s.submitted))
    case Start(to, resync, next) =>
      var from := SyncFrom(w, s.persisted, resync);
      s.(phase := if from < to then Fetching(to, from - 1, next) else Live(to))
    case NextRun(next) =>
      s.(phase := Fetching(s.phase.to, s.phase.fetched, next))
    case Finish =>
      s.(phase := Live(s.phase.to))
  }

  /** Each step is enabled where it is taken. */
  ghost predicate IsPath(w: World, states: seq<State>, steps: seq<Step>) {
    && |states| == |steps| + 1
    && forall k :: 0 <= k < |steps| ==> Enabled(w, states[k], steps[k]) && states[k + 1] == Apply(w, states[k], steps[k])
  }

  /** A run starts in the initial state. */
  ghost predicate IsRun(w: World, states: seq<State>, steps: seq<Step>) {
    IsPath(w, states, steps) && Init(states[0])
  }

  // ---------------------------------------------------------------- conservation

  function Pending(f: Flush): seq<Event> {
    if f.Writing? then f.inFlight else []
  }

  function Sum(ns: seq<nat>): nat {
    if ns == [] then 0 else Sum(ns[..|ns| - 1]) + ns[|ns| - 1]
  }

  lemma {:induction false} SumUpdate(ns: seq<nat>, i: nat, v: nat)
    requires i < |ns|
    ensures Sum(ns[i := v]) == Sum(ns) - ns[i] + v
  {
    var n := |ns| - 1;
    if i < n {
      SumUpdate(ns[..n], i, v);
      assert ns[i := v][..n] == ns[..n][i := v];
    } else {
      assert ns[i := v][..n] == ns[..n];
    }
  }

  function CountIn(f: Flush, e: Event): nat {
    multiset(Pending(f))[e]
  }

  /** How often an event is in flight. */
  function InFlight(flushes: seq<Flush>, e: Event): nat {
    Sum(seq(|flushes|, i requires 0 <= i < |flushes| => CountIn(flushes[i], e)))
  }

  lemma InFlightUpdate(flushes: seq<Flush>, i: nat, f: Flush, e: Event)
    requires i < |flushes|
    ensures InFlight(flushes[i := f], e) == InFlight(flushes, e) - CountIn(flushes[i], e) + CountIn(f, e)
  {
    var counts := seq(|flushes|, i requires 0 <= i < |flushes| => CountIn(flushes[i], e));
    var flushes' := flushes[i := f];
    var counts' := seq(|flushes'|, i requires 0 <= i < |flushes'| => CountIn(flushes'[i], e));
    assert counts' == counts[i := CountIn(f, e)];
    SumUpdate(counts, i, CountIn(f, e));
  }

  lemma InFlightAppend(flushes: seq<Flush>, f: Flush, e: Event)
    ensures InFlight(flushes + [f], e) == InFlight(flushes, e) + CountIn(f, e)
  {
    var counts := seq(|flushes|, i requires 0 <= i < |flushes| => CountIn(flushes[i], e));
    var flushes' := flushes + [f];
    var counts' := seq(|flushes'|, i requires 0 <= i < |flushes'| => CountIn(flushes'[i], e));
    assert counts' == counts + [CountIn(f, e)];
    assert counts'[..|counts|] == counts;
  }

  /** An event was received as often as it is submitted, in flight, cached or was lost in a crash. */
  ghost predicate Balanced(s: State, e: Event) {
    s.received[e] == multiset(s.submitted)[e] + s.lost[e] + InFlight(s.flushes, e) + multiset(Cached(s, e.block))[e]
  }

  ghost predicate Conserved(s: State) {
    && (forall b, e :: b in s.cache && e in s.cache[b] ==> e.block == b)
    && (forall e: Event :: Balanced(s, e))
  }

  lemma TakeBalances(w: World, s: State, i: nat, order: seq<Event>, e: Event)
    requires Enabled(w, s, TakeBlock(i, order)) && Balanced(s, e)
    requires var b := s.flushes[i].todo[0]; b == e.block || e !in Cached(s, b)
    ensures Balanced(Apply(w, s, TakeBlock(i, order)), e)
  {
    var s' := Apply(w, s, TakeBlock(i, order));
    var b := s.flushes[i].todo[0];
    InFlightUpdate(s.flushes, i, s'.flushes[i], e);
    if b + NUM_CONFIRMATIONS <= s.flushes[i].latest {
      assert multiset(order)[e] == multiset(Cached(s, b))[e];
      assert Cached(s', e.block) == if b == e.block then [] else Cached(s, e.block);
    } else {
      assert Cached(s', e.block) == Cached(s, e.block);
    }
  }

  lemma SubmitBalances(w: World, s: State, i: nat, e: Event)
    requires Enabled(w, s, Submit(i)) && Balanced(s, e)
    ensures Balanced(Apply(w, s, Submit(i)), e)
  {
    var s' := Apply(w, s, Submit(i));
    var f := s.flushes[i].inFlight;
    InFlightUpdate(s.flushes, i, s'.flushes[i], e);
    HeadCount(f, e);
    AppendCount(s.submitted, f[0], e);
  }

  lemma HeadCount(f: seq<Event>, e: Event)
    requires f != []
    ensures multiset(f)[e] == multiset(f[1..])[e] + if f[0] == e then 1 else 0
  {
    assert f == [f[0]] + f[1..];
  }

  lemma AppendCount(f: seq<Event>, x: Event, e: Event)
    ensures multiset(f + [x])[e] == multiset(f)[e] + if x == e then 1 else 0
  {
  }

  lemma CacheBalances(w: World, s: State, x: Event, e: Event)
    requires Balanced(s, e)
    ensures Balanced(Apply(w, s, Cache(x)), e)
  {
    AppendCount(Cached(s, x.block), x, e);
  }

  lemma BeginBalances(w: World, s: State, caller: Caller, latest: nat, todo: seq<nat>, e: Event)
    requires Enabled(w, s, BeginFlush(caller, latest, todo)) && Balanced(s, e)
    ensures Balanced(Apply(w, s, BeginFlush(caller, latest, todo)), e)
  {
    InFlightAppend(s.flushes, Writing(todo, [], latest, 0), e);
  }

  /** Steps that touch neither the cache, nor a pending event, nor the histories. */
  lemma QuietBalances(s: State, s': State, i: nat, e: Event)
    requires Balanced(s, e)
    requires s'.cache == s.cache && s'.submitted == s.submitted && s'.received == s.received && s'.lost == s.lost
    requires s'.flushes == s.flushes || (i < |s.flushes| == |s'.flushes| &&
      s'.flushes == s.flushes[i := s'.flushes[i]] && Pending(s.flushes[i]) == Pending(s'.flushes[i]))
    ensures Balanced(s', e)
  {
    if s'.flushes != s.flushes {
      InFlightUpdate(s.flushes, i, s'.flushes[i], e);
    }
  }

  /** One event through one step. */
  lemma StepBalances(w: World, s: State, step: Step, e: Event)
    requires Enabled(w, s, step) && Balanced(s, e)
    requires step.TakeBlock? ==> var b := s.flushes[step.i].todo[0]; b == e.block || e !in Cached(s, b)
    ensures Balanced(Apply(w, s, step), e)
  {
    match step
    case Cache(x) => CacheBalances(w, s, x, e);
    case BeginFlush(caller, latest, todo) => BeginBalances(w, s, caller, latest, todo, e);
    case TakeBlock(i, order) => TakeBalances(w, s, i, order, e);
    case Submit(i) => SubmitBalances(w, s, i, e);
    case EndWriting(i) => QuietBalances(s, Apply(w, s, step), i, e);
    case ReadState(i, _) => QuietBalances(s, Apply(w, s, step), i, e);
    case PutState(i, _) => QuietBalances(s, Apply(w, s, step), i, e);
    case Crash(_) =>
    case _ => QuietBalances(s, Apply(w, s, step), 0, e);
  }

  lemma StepConserves(w: World, s: State, step: Step)
    requires Conserved(s) && Enabled(w, s, step)
    ensures Conserved(Apply(w, s, step))
  {
    forall e: Event
      ensures Balanced(Apply(w, s, step), e)
    {
      StepBalances(w, s, step, e);
    }
  }

  /** Under any interleaving of caching and concurrent flushes every event is accounted for. */
  lemma {:induction false} RunsConserve(w: World, states: seq<State>, steps: seq<Step>, k: nat)
    requires IsRun(w, states, steps) && k < |states|
    ensures Conserved(states[k])
  {
    if k > 0 {
      RunsConserve(w, states, steps, k - 1);
      StepConserves(w, states[k - 1], steps[k - 1]);
    }
  }

  /** A crash loses exactly what is in flight or cached. */
  lemma CrashLoses(w: World, s: State, refetch: bool, e: Event)
    requires Balanced(s, e)
    ensures Apply(w, s, Crash(refetch)).lost[e] == s.lost[e] + InFlight(s.flushes, e) + multiset(Cached(s, e.block))[e]
  {
  }

  lemma {:induction false} OnlyCrashesLose(w: World, states: seq<State>, steps: seq<Step>, k: nat)
    requires IsRun(w, states, steps) && k < |states|
    requires forall j :: 0 <= j < k ==> !steps[j].Crash?
    ensures states[k].lost == multiset{}
  {
    if k > 0 {
      OnlyCrashesLose(w, states, steps, k - 1);
    }
  }

  /** Between crashes no event is lost and none is submitted more often than it was received. */
  lemma NoneLostOrRepeated(w: World, states: seq<State>, steps: seq<Step>, k: nat, e: Event)
    requires IsRun(w, states, steps) && k < |states|
    requires forall j :: 0 <= j < k ==> !steps[j].Crash?
    ensures var s := states[k];
      s.received[e] == multiset(s.submitted)[e] + InFlight(s.flushes, e) + multiset(Cached(s, e.block))[e]
  {
    RunsConserve(w, states, steps, k);
    OnlyCrashesLose(w, states, steps, k);
    assert Balanced(states[k], e);
  }
}
