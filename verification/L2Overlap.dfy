/** What retries, whose flushes overlap others, leave of the restart guarantee (apps/hubble/src/eth/l2EventsProvider.ts). */
module L2Overlap {
  import opened L2Ingestion
  import opened L2Restart
  import opened Wrappers

  ghost predicate InFlightIn(flushes: seq<Flush>, e: Event) {
    exists i :: 0 <= i < |flushes| && e in Pending(flushes[i])
  }

  /** The event was submitted or some flush is about to. */
  ghost predicate Landed(s: State, e: Event) {
    e in s.submitted || InFlightIn(s.flushes, e)
  }

  ghost predicate Known(s: State, e: Event) {
    Landed(s, e) || e in Cached(s, e.block)
  }

  ghost predicate LandedUpTo(w: World, s: State, block: int) {
    forall e :: e in w.chain && e.block <= block ==> Landed(s, e)
  }

  ghost predicate KnownBetween(w: World, s: State, after: int, upTo: int) {
    forall e :: e in w.chain && after < e.block <= upTo ==> Known(s, e)
  }

  /** An event that some flush has taken and not submitted, at or below the persisted block. */
  ghost predicate Exposed(w: World, s: State, e: Event) {
    e in w.chain && e.block <= s.persisted.lastL2Block && e !in s.submitted && InFlightIn(s.flushes, e)
  }

  /**
   * Retries flush when they like, during history sync too, once the confirmed events that they may
   * pass are known; fetches are complete and watchers silent as before; a crash exposes no event.
   */
  ghost predicate Careful(w: World, s: State, step: Step) {
    match step
    case BeginFlush(History, _, _) => s.phase.Fetching? && KnownBetween(w, s, s.phase.fetched, s.phase.next)
    case BeginFlush(_, latest, _) => KnownBetween(w, s, -1, latest - NUM_CONFIRMATIONS)
    case Crash(_) => forall e :: !Exposed(w, s, e)
    case _ => Disciplined(w, s, step)
  }

  // ---------------------------------------------------------------- the invariant

  /** The highest block that flush `i` may come to persist. */
  ghost function Bound(s: State, i: nat, latest: nat): int {
    if s.phase.Flushing? && s.phase.awaited == i then Cover(s, latest) else latest - NUM_CONFIRMATIONS
  }

  ghost predicate FlushLands(w: World, s: State, i: nat, f: Flush) {
    match f
    case Writing(todo, _, latest, highest) =>
      && (highest > 0 ==> highest <= Bound(s, i, latest))
      && (forall b :: b in todo && b + NUM_CONFIRMATIONS <= latest ==> b <= Bound(s, i, latest))
      && (forall e :: e in w.chain && e.block <= Bound(s, i, latest) ==>
            Landed(s, e) || (e.block in todo && e in Cached(s, e.block)))
    case Reading(highest) => LandedUpTo(w, s, highest)
    case Putting(record) => LandedUpTo(w, s, record.lastL2Block)
    case Done => true
  }

  ghost predicate RecordsLand(w: World, s: State) {
    && LandedUpTo(w, s, s.persisted.lastL2Block)
    && (s.fnamePut.Some? ==> LandedUpTo(w, s, s.fnamePut.value.lastL2Block))
  }

  ghost predicate FlushesLand(w: World, s: State) {
    forall i :: 0 <= i < |s.flushes| ==> FlushLands(w, s, i, s.flushes[i])
  }

  /** The flush that history awaits is writing up to its target, or has ended and everything it covers landed. */
  ghost predicate AwaitedLands(w: World, s: State, to: nat, f: Flush) {
    if f.Writing? then f.latest == to else LandedUpTo(w, s, Cover(s, to))
  }

  ghost predicate PhaseLands(w: World, s: State) {
    match s.phase
    case Down => true
    case Fetching(to, fetched, next) =>
      fetched <= next && KnownBetween(w, s, -1, fetched) && CacheWithin(s.cache, next, to)
    case Flushing(to, fetched, awaited) =>
      && KnownBetween(w, s, -1, fetched) && CacheWithin(s.cache, fetched, to)
      && awaited < |s.flushes| && AwaitedLands(w, s, to, s.flushes[awaited])
    case Live(to) => LandedUpTo(w, s, to - NUM_CONFIRMATIONS)
  }

  ghost predicate AllLand(w: World, s: State) {
    RecordsLand(w, s) && FlushesLand(w, s) && PhaseLands(w, s)
  }

  // ---------------------------------------------------------------- every step keeps it

  /** What had landed still has, and what was cached is still known. */
  ghost predicate Forward(s: State, s': State) {
    && (forall e :: Landed(s, e) ==> Landed(s', e))
    && (forall e: Event :: e in Cached(s, e.block) ==> Known(s', e))
  }

  lemma FlushStays(w: World, s: State, s': State, i: nat, f: Flush)
    requires FlushLands(w, s, i, f) && Forward(s, s') && (f.Writing? ==> Bound(s', i, f.latest) == Bound(s, i, f.latest))
    ensures FlushLands(w, s', i, f)
  {
  }

  lemma PhaseStays(w: World, s: State, s': State)
    requires PhaseLands(w, s) && Forward(s, s') && s'.phase == s.phase && |s.flushes| <= |s'.flushes|
    requires s.phase.Fetching? ==> CacheWithin(s'.cache, s.phase.next, s.phase.to)
    requires s.phase.Flushing? ==> CacheWithin(s'.cache, s.phase.fetched, s.phase.to)
    requires s.phase.Flushing? ==> AwaitedLands(w, s', s.phase.to, s'.flushes[s.phase.awaited])
    ensures PhaseLands(w, s')
  {
  }

  lemma AwaitedStays(w: World, s: State, s': State, to: nat, f: Flush)
    requires AwaitedLands(w, s, to, f) && Forward(s, s') && s'.phase == s.phase
    ensures AwaitedLands(w, s', to, f)
  {
  }

  lemma StaysInFlight(flushes: seq<Flush>, i: nat, f: Flush, e: Event)
    requires i < |flushes| && InFlightIn(flushes, e) && (e in Pending(flushes[i]) ==> e in Pending(f))
    ensures InFlightIn(flushes[i := f], e)
  {
    var j :| 0 <= j < |flushes| && e in Pending(flushes[j]);
    assert e in Pending(flushes[i := f][j]);
  }

  /** A step of flush `i`, given what becomes of that flush. */
  lemma FlushStepLands(w: World, s: State, s': State, i: nat, f: Flush)
    requires AllLand(w, s) && Forward(s, s') && i < |s.flushes|
    requires s'.flushes == s.flushes[i := f] && s'.phase == s.phase && s'.cache.Keys <= s.cache.Keys
    requires FlushLands(w, s', i, f) && RecordsLand(w, s')
    requires s.phase.Flushing? && s.phase.awaited == i ==> AwaitedLands(w, s', s.phase.to, f)
    ensures AllLand(w, s')
  {
    forall j | 0 <= j < |s'.flushes|
      ensures FlushLands(w, s', j, s'.flushes[j])
    {
      if j != i {
        FlushStays(w, s, s', j, s.flushes[j]);
      }
    }
    if s.phase.Flushing? && s.phase.awaited != i {
      AwaitedStays(w, s, s', s.phase.to, s.flushes[s.phase.awaited]);
    }
    PhaseStays(w, s, s');
  }

  lemma TakeMovesForward(w: World, s: State, i: nat, order: seq<Event>, e: Event)
    requires Enabled(w, s, TakeBlock(i, order))
    ensures var s' := Apply(w, s, TakeBlock(i, order));
      && (Landed(s, e) ==> Landed(s', e))
      && (e in Cached(s, e.block) ==> Known(s', e))
      && (e.block == s.flushes[i].todo[0] && e.block + NUM_CONFIRMATIONS <= s.flushes[i].latest && e in Cached(s, e.block) ==>
            Landed(s', e))
  {
    var s' := Apply(w, s, TakeBlock(i, order));
    TakeMoves(w, s, i, order, e);
    if InFlightIn(s.flushes, e) {
      StaysInFlight(s.flushes, i, s'.flushes[i], e);
    }
    if e in Pending(s'.flushes[i]) {
      assert InFlightIn(s'.flushes, e);
    }
  }

  /** The flush that takes a block, afterwards. */
  lemma TakerLands(w: World, s: State, i: nat, order: seq<Event>)
    requires AllLand(w, s) && Enabled(w, s, TakeBlock(i, order))
    ensures var s' := Apply(w, s, TakeBlock(i, order)); Forward(s, s') && FlushLands(w, s', i, s'.flushes[i])
  {
    var s' := Apply(w, s, TakeBlock(i, order));
    var f, f' := s.flushes[i], s'.flushes[i];
    assert FlushLands(w, s, i, f) && f.todo[0] in f.todo;
    assert forall b :: b in f.todo <==> b == f.todo[0] || b in f'.todo;
    assert Bound(s', i, f.latest) == Bound(s, i, f.latest) <= f.latest - NUM_CONFIRMATIONS;
    forall e
      ensures Landed(s, e) ==> Landed(s', e)
      ensures e in Cached(s, e.block) ==> Known(s', e)
      ensures e in w.chain && e.block <= Bound(s, i, f.latest) ==>
        Landed(s', e) || (e.block in f'.todo && e in Cached(s', e.block))
    {
      TakeMovesForward(w, s, i, order, e);
    }
  }

  lemma TakeKeepsLanding(w: World, s: State, i: nat, order: seq<Event>)
    requires AllLand(w, s) && Enabled(w, s, TakeBlock(i, order))
    ensures AllLand(w, Apply(w, s, TakeBlock(i, order)))
  {
    var s' := Apply(w, s, TakeBlock(i, order));
    TakerLands(w, s, i, order);
    FlushStepLands(w, s, s', i, s'.flushes[i]);
  }

  lemma SubmitMovesForward(w: World, s: State, i: nat, e: Event)
    requires Enabled(w, s, Submit(i)) && Landed(s, e)
    ensures Landed(Apply(w, s, Submit(i)), e)
  {
    var s' := Apply(w, s, Submit(i));
    var f := s.flushes[i].inFlight;
    assert f == [f[0]] + f[1..];
    if e !in s'.submitted {
      StaysInFlight(s.flushes, i, s'.flushes[i], e);
    }
  }

  lemma SubmitKeepsLanding(w: World, s: State, i: nat)
    requires AllLand(w, s) && Enabled(w, s, Submit(i))
    ensures AllLand(w, Apply(w, s, Submit(i)))
  {
    var s' := Apply(w, s, Submit(i));
    var f, f' := s.flushes[i], s'.flushes[i];
    forall e
      ensures Landed(s, e) ==> Landed(s', e)
    {
      if Landed(s, e) {
        SubmitMovesForward(w, s, i, e);
      }
    }
    assert Forward(s, s');
    FlushStays(w, s, s', i, f);
    assert FlushLands(w, s', i, f');
    FlushStepLands(w, s, s', i, f');
  }

  /** The steps of a flush that neither take nor submit an event. */
  lemma RecordStepKeepsLanding(w: World, s: State, step: Step)
    requires AllLand(w, s) && Enabled(w, s, step) && (step.EndWriting? || step.ReadState? || step.PutState?)
    ensures AllLand(w, Apply(w, s, step))
  {
    var s', i := Apply(w, s, step), step.i;
    var f, f' := s.flushes[i], s'.flushes[i];
    forall e
      ensures Landed(s, e) ==> Landed(s', e)
    {
      if InFlightIn(s.flushes, e) {
        StaysInFlight(s.flushes, i, f', e);
      }
    }
    assert Forward(s, s');
    assert FlushLands(w, s, i, f);
    if step.EndWriting? {
      assert LandedUpTo(w, s', Bound(s, i, f.latest));
    }
    FlushStepLands(w, s, s', i, f');
  }

  lemma BeginMovesForward(w: World, s: State, step: Step)
    requires step.BeginFlush? && Enabled(w, s, step)
    ensures Forward(s, Apply(w, s, step))
  {
    var s' := Apply(w, s, step);
    forall e
      ensures Landed(s, e) ==> Landed(s', e)
    {
      if InFlightIn(s.flushes, e) {
        var j :| 0 <= j < |s.flushes| && e in Pending(s.flushes[j]);
        assert e in Pending(s'.flushes[j]);
      }
    }
  }

  /** The flush that begins. */
  lemma BeginnerLands(w: World, s: State, step: Step)
    requires AllLand(w, s) && step.BeginFlush? && Enabled(w, s, step) && Careful(w, s, step)
    ensures var s' := Apply(w, s, step); FlushLands(w, s', |s.flushes|, s'.flushes[|s.flushes|])
  {
    var s' := Apply(w, s, step);
    var bound := Bound(s', |s.flushes|, step.latest);
    BeginMovesForward(w, s, step);
    forall b
      ensures b in step.todo <==> b in s.cache
    {
      assert b in step.todo <==> b in multiset(step.todo);
    }
    forall e | e in w.chain && e.block <= bound
      ensures Landed(s', e) || (e.block in step.todo && e in Cached(s', e.block))
    {
      assert Known(s, e);
    }
    forall b | b in step.todo && b + NUM_CONFIRMATIONS <= step.latest
      ensures b <= bound
    {
      assert b in s.cache;
    }
  }

  lemma BeginKeepsLanding(w: World, s: State, step: Step)
    requires AllLand(w, s) && step.BeginFlush? && Enabled(w, s, step) && Careful(w, s, step)
    ensures AllLand(w, Apply(w, s, step))
  {
    var s' := Apply(w, s, step);
    BeginMovesForward(w, s, step);
    BeginnerLands(w, s, step);
    forall j | 0 <= j < |s'.flushes|
      ensures FlushLands(w, s', j, s'.flushes[j])
    {
      if j < |s.flushes| {
        OldFlushLands(w, s, s', step, j);
      }
    }
    if step.caller != History {
      if s.phase.Flushing? {
        AwaitedStays(w, s, s', s.phase.to, s.flushes[s.phase.awaited]);
      }
      PhaseStays(w, s, s');
    }
  }

  lemma OldFlushLands(w: World, s: State, s': State, step: Step, j: nat)
    requires AllLand(w, s) && step.BeginFlush? && Enabled(w, s, step) && s' == Apply(w, s, step) && j < |s.flushes|
    requires Forward(s, s')
    ensures FlushLands(w, s', j, s.flushes[j])
  {
    assert FlushLands(w, s, j, s.flushes[j]);
    FlushStays(w, s, s', j, s.flushes[j]);
  }

  /** Steps that touch neither a flush nor the phase. */
  lemma ElsewhereKeepsLanding(w: World, s: State, s': State)
    requires AllLand(w, s) && s'.flushes == s.flushes && s'.submitted == s.submitted && s'.phase == s.phase
    requires forall e: Event :: e in Cached(s, e.block) ==> e in Cached(s', e.block)
    requires s.phase.Fetching? ==> CacheWithin(s'.cache, s.phase.next, s.phase.to)
    requires s.phase.Flushing? ==> CacheWithin(s'.cache, s.phase.fetched, s.phase.to)
    requires LandedUpTo(w, s, s'.persisted.lastL2Block)
    requires s'.fnamePut.Some? ==> LandedUpTo(w, s, s'.fnamePut.value.lastL2Block)
    ensures AllLand(w, s')
  {
    assert Forward(s, s');
    forall j | 0 <= j < |s'.flushes|
      ensures FlushLands(w, s', j, s'.flushes[j])
    {
      FlushStays(w, s, s', j, s.flushes[j]);
    }
    if s.phase.Flushing? {
      AwaitedStays(w, s, s', s.phase.to, s.flushes[s.phase.awaited]);
    }
    PhaseStays(w, s, s');
  }

  /** A crash that exposes nothing loses nothing that the persisted block promises. */
  lemma CrashKeepsLanding(w: World, s: State, refetch: bool)
    requires AllLand(w, s) && Careful(w, s, Crash(refetch))
    ensures AllLand(w, Apply(w, s, Crash(refetch)))
  {
    var s' := Apply(w, s, Crash(refetch));
    forall e | e in w.chain && e.block <= s'.persisted.lastL2Block
      ensures Landed(s', e)
    {
      assert Landed(s, e) && !Exposed(w, s, e);
    }
  }

  /** The steps of history sync that change the phase alone. */
  lemma PhaseStepKeepsLanding(w: World, s: State, step: Step)
    requires ValidWorld(w) && AllLand(w, s) && Enabled(w, s, step) && Careful(w, s, step)
    requires step.Start? || step.NextRun? || step.Finish?
    ensures AllLand(w, Apply(w, s, step))
  {
    var s' := Apply(w, s, step);
    assert Forward(s, s');
    forall j | 0 <= j < |s'.flushes|
      ensures FlushLands(w, s', j, s'.flushes[j])
    {
      FlushStays(w, s, s', j, s.flushes[j]);
    }
    assert forall e :: Landed(s, e) <==> Landed(s', e);
  }

  lemma StepKeepsLanding(w: World, s: State, step: Step)
    requires ValidWorld(w) && AllLand(w, s) && Enabled(w, s, step) && Careful(w, s, step)
    ensures AllLand(w, Apply(w, s, step))
  {
    match step
    case TakeBlock(i, order) => TakeKeepsLanding(w, s, i, order);
    case Submit(i) => SubmitKeepsLanding(w, s, i);
    case BeginFlush(_, _, _) => BeginKeepsLanding(w, s, step);
    case EndWriting(_) => RecordStepKeepsLanding(w, s, step);
    case ReadState(_, _) => RecordStepKeepsLanding(w, s, step);
    case PutState(_, _) => RecordStepKeepsLanding(w, s, step);
    case Crash(refetch) => CrashKeepsLanding(w, s, refetch);
    case Start(_, _, _) => PhaseStepKeepsLanding(w, s, step);
    case NextRun(_) => PhaseStepKeepsLanding(w, s, step);
    case Finish => PhaseStepKeepsLanding(w, s, step);
    case _ => ElsewhereKeepsLanding(w, s, Apply(w, s, step));
  }

  // ---------------------------------------------------------------- whole runs

  ghost predicate IsCarefulRun(w: World, states: seq<State>, steps: seq<Step>) {
    IsRun(w, states, steps) && forall k :: 0 <= k < |steps| ==> Careful(w, states[k], steps[k])
  }

  lemma {:induction false} RunsLand(w: World, states: seq<State>, steps: seq<Step>, k: nat)
    requires ValidWorld(w) && IsCarefulRun(w, states, steps) && k < |states|
    ensures AllLand(w, states[k])
  {
    if k > 0 {
      RunsLand(w, states, steps, k - 1);
      StepKeepsLanding(w, states[k - 1], steps[k - 1]);
    }
  }

  /**
   * With overlapping flushes everything at or below the persisted block is submitted or in flight,
   * so a crash makes a restart miss events if and only if one of those is still in flight.
   */
  lemma OverlapIsExposed(w: World, states: seq<State>, steps: seq<Step>, k: nat, refetch: bool)
    requires ValidWorld(w) && IsCarefulRun(w, states, steps) && k < |states|
    ensures LandedUpTo(w, states[k], states[k].persisted.lastL2Block)
    ensures var crashed := Apply(w, states[k], Crash(refetch));
      SubmittedUpTo(w, crashed, crashed.persisted.lastL2Block) <==> forall e :: !Exposed(w, states[k], e)
  {
    RunsLand(w, states, steps, k);
    var s := states[k];
    forall e | e in w.chain && e.block <= s.persisted.lastL2Block
      ensures e in s.submitted || Exposed(w, s, e)
    {
      assert Landed(s, e);
    }
  }

  /** Once the flushes have ended, the persisted block and, after history sync, its target are sound. */
  lemma SoundWhenIdle(w: World, states: seq<State>, steps: seq<Step>, k: nat)
    requires ValidWorld(w) && IsCarefulRun(w, states, steps) && k < |states| && Idle(states[k])
    ensures SubmittedUpTo(w, states[k], states[k].persisted.lastL2Block)
    ensures states[k].phase.Live? ==> SubmittedUpTo(w, states[k], states[k].phase.to - NUM_CONFIRMATIONS)
  {
    RunsLand(w, states, steps, k);
    assert forall e :: Landed(states[k], e) ==> e in states[k].submitted;
  }
}
