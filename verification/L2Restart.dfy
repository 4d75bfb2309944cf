/**
 * What a restart may rely on: every event at or below the persisted block was submitted
 * (apps/hubble/src/eth/l2EventsProvider.ts, apps/hubble/src/eth/fnameRegistryEventsProvider.ts).
 */
module L2Restart {
  import opened Wrappers
  import opened L2Ingestion

  // ---------------------------------------------------------------- what the environment keeps to

  ghost predicate Idle(s: State) {
    forall i :: 0 <= i < |s.flushes| ==> s.flushes[i] == Done
  }

  /** The event was submitted, is in flight in flush `f`, or is cached. */
  ghost predicate Seen(s: State, f: Flush, e: Event) {
    e in s.submitted || e in Pending(f) || e in Cached(s, e.block)
  }

  /** Every chain event of a range of blocks is accounted for. */
  ghost predicate SeenBetween(w: World, s: State, f: Flush, after: int, upTo: int) {
    forall e :: e in w.chain && after < e.block <= upTo ==> Seen(s, f, e)
  }

  /** During history sync, cached blocks are fetched ones or not yet confirmed. */
  ghost predicate CacheWithin(cache: map<nat, seq<Event>>, fetched: int, to: nat) {
    forall b :: b in cache ==> b <= fetched || b + NUM_CONFIRMATIONS > to
  }

  /**
   * There are no retries; fetches are complete and their logs are cached before the flush;
   * watchers stay silent at or below the confirmed height while history is synced.
   */
  ghost predicate Disciplined(w: World, s: State, step: Step) {
    match step
    case Cache(e) =>
      && e in w.chain
      && (s.phase.Fetching? ==> e.block <= s.phase.next || e.block + NUM_CONFIRMATIONS > s.phase.to)
      && (s.phase.Flushing? ==> e.block <= s.phase.fetched || e.block + NUM_CONFIRMATIONS > s.phase.to)
    case BeginFlush(History, _, _) => s.phase.Fetching? && SeenBetween(w, s, Done, s.phase.fetched, s.phase.next)
    case BeginFlush(NewBlock, latest, _) => SeenBetween(w, s, Done, -1, latest - NUM_CONFIRMATIONS)
    case BeginFlush(Retry, _, _) => false
    case Start(to, _, _) => CacheWithin(s.cache, -1, to)
    case _ => true
  }

  /** Zero stands for nothing persisted, so neither block zero nor transfer zero is in use. */
  ghost predicate ValidWorld(w: World) {
    w.first > 0 && (forall e :: e in w.chain ==> e.block >= w.first) && (forall t :: t in w.registry ==> t > 0)
  }

  // ---------------------------------------------------------------- the invariant

  /** Everything at or below the two marks of a record has been handed over. */
  ghost predicate Sound(w: World, s: State, r: HubState) {
    && (forall e :: e in w.chain && e.block <= r.lastL2Block ==> e in s.submitted)
    && (forall t :: t in w.registry && t <= r.lastFnameProof ==> t in s.merged)
  }

  /** The highest block a flush may come to persist. */
  ghost function Cover(s: State, latest: nat): int {
    if s.phase.Flushing? && s.phase.fetched < latest - NUM_CONFIRMATIONS then s.phase.fetched else latest - NUM_CONFIRMATIONS
  }

  ghost predicate SubmittedUpTo(w: World, s: State, block: int) {
    forall e :: e in w.chain && e.block <= block ==> e in s.submitted
  }

  ghost predicate FlushSound(w: World, s: State, f: Flush) {
    match f
    case Writing(todo, inFlight, latest, highest) =>
      && (s.phase.Live? || (s.phase.Flushing? && latest == s.phase.to))
      && (highest > 0 ==> highest <= Cover(s, latest))
      && (forall b :: b in todo && b + NUM_CONFIRMATIONS <= latest ==> b <= Cover(s, latest))
      && (forall e :: e in w.chain && e.block <= Cover(s, latest) ==>
            e in s.submitted || e in inFlight || (e.block in todo && e in Cached(s, e.block)))
    case Reading(highest) => SubmittedUpTo(w, s, highest)
    case Putting(record) => Sound(w, s, record)
    case Done => true
  }

  /** The flush under way, the others being done. */
  ghost function Active(s: State): Flush {
    if s.flushes == [] then Done else s.flushes[|s.flushes| - 1]
  }

  ghost predicate RecordsSound(w: World, s: State) {
    && Sound(w, s, s.persisted) && (s.fnamePut.Some? ==> Sound(w, s, s.fnamePut.value))
    && (forall t :: t in w.registry && t <= s.lastTransferId ==> t in s.merged)
  }

  ghost predicate FlushesSound(w: World, s: State) {
    && (forall i :: 0 <= i < |s.flushes| - 1 ==> s.flushes[i] == Done)
    && FlushSound(w, s, Active(s))
  }

  ghost predicate PhaseSound(w: World, s: State) {
    match s.phase
    case Down => Idle(s)
    case Fetching(to, fetched, next) =>
      Idle(s) && fetched <= next && SeenBetween(w, s, Done, -1, fetched) && CacheWithin(s.cache, next, to)
    case Flushing(to, fetched, awaited) =>
      && SeenBetween(w, s, Active(s), -1, fetched) && CacheWithin(s.cache, fetched, to)
      && (!Active(s).Writing? ==> SubmittedUpTo(w, s, Cover(s, to)))
    case Live(to) => SubmittedUpTo(w, s, to - NUM_CONFIRMATIONS)
  }

  /** Only the last flush can be under way, and then the history sync or a block's handler awaits it. */
  ghost predicate OneAtATime(s: State) {
    && (s.phase.Flushing? ==> s.phase.awaited == |s.flushes| - 1)
    && (s.handling.Some? ==> s.phase.Live? && s.handling.value == |s.flushes| - 1)
    && (!s.phase.Flushing? && s.handling == None ==> Active(s) == Done)
  }

  ghost predicate Inv(w: World, s: State) {
    RecordsSound(w, s) && FlushesSound(w, s) && PhaseSound(w, s) && OneAtATime(s)
  }

  // ---------------------------------------------------------------- every step keeps it

  lemma CacheKeeps(w: World, s: State, e: Event)
    requires Inv(w, s) && Disciplined(w, s, Cache(e))
    ensures Inv(w, Apply(w, s, Cache(e)))
  {
    var s' := Apply(w, s, Cache(e));
    assert forall x, b :: x in Cached(s, b) ==> x in Cached(s', b);
  }

  /** A disciplined flush begins when no other is under way. */
  lemma BeginsIdle(w: World, s: State, caller: Caller, latest: nat, todo: seq<nat>)
    requires Inv(w, s) && Enabled(w, s, BeginFlush(caller, latest, todo)) && Disciplined(w, s, BeginFlush(caller, latest, todo))
    ensures Idle(s)
  {
  }

  lemma BeginKeeps(w: World, s: State, caller: Caller, latest: nat, todo: seq<nat>)
    requires Inv(w, s) && Enabled(w, s, BeginFlush(caller, latest, todo)) && Disciplined(w, s, BeginFlush(caller, latest, todo))
    ensures Inv(w, Apply(w, s, BeginFlush(caller, latest, todo)))
  {
    var s' := Apply(w, s, BeginFlush(caller, latest, todo));
    BeginsIdle(w, s, caller, latest, todo);
    assert forall b :: b in todo <==> b in multiset(todo);
    assert forall b :: Cached(s', b) == Cached(s, b);
    assert Pending(Done) == [];
  }

  /** Taking a block moves its cached events in flight and leaves the others where they are. */
  lemma TakeMoves(w: World, s: State, i: nat, order: seq<Event>, e: Event)
    requires Enabled(w, s, TakeBlock(i, order))
    ensures var s' := Apply(w, s, TakeBlock(i, order)); var b := s.flushes[i].todo[0];
      if e.block == b && b + NUM_CONFIRMATIONS <= s.flushes[i].latest then
        e in Cached(s, e.block) <==> e in Pending(s'.flushes[i])
      else Cached(s', e.block) == Cached(s, e.block)
  {
    var b := s.flushes[i].todo[0];
    assert e in order <==> e in multiset(order);
    assert e in Cached(s, b) <==> e in multiset(Cached(s, b));
  }

  lemma TakeKeeps(w: World, s: State, i: nat, order: seq<Event>)
    requires Inv(w, s) && Enabled(w, s, TakeBlock(i, order))
    ensures Inv(w, Apply(w, s, TakeBlock(i, order)))
  {
    var s' := Apply(w, s, TakeBlock(i, order));
    var f, f' := s.flushes[i], s'.flushes[i];
    var b := f.todo[0];
    assert i == |s.flushes| - 1 && Active(s) == f && Active(s') == f';
    assert forall x :: x in f.todo <==> x == b || x in f'.todo;
    assert b in f.todo;
    forall e
      ensures Seen(s, f, e) ==> Seen(s', f', e)
      ensures e in w.chain && e.block <= Cover(s, f.latest) ==>
        e in s'.submitted || e in f'.inFlight || (e.block in f'.todo && e in Cached(s', e.block))
    {
      TakeMoves(w, s, i, order, e);
    }
  }

  lemma SubmitKeeps(w: World, s: State, i: nat)
    requires Inv(w, s) && Enabled(w, s, Submit(i))
    ensures Inv(w, Apply(w, s, Submit(i)))
  {
    var s' := Apply(w, s, Submit(i));
    var f := s.flushes[i].inFlight;
    assert i == |s.flushes| - 1;
    assert f == [f[0]] + f[1..];
    assert forall b :: Cached(s', b) == Cached(s, b);
  }

  lemma EndKeeps(w: World, s: State, i: nat)
    requires Inv(w, s) && Enabled(w, s, EndWriting(i))
    ensures Inv(w, Apply(w, s, EndWriting(i)))
  {
    var s' := Apply(w, s, EndWriting(i));
    assert i == |s.flushes| - 1 && Active(s) == s.flushes[i];
    assert SubmittedUpTo(w, s, Cover(s, s.flushes[i].latest));
    assert forall b :: Cached(s', b) == Cached(s, b);
  }

  lemma RecordKeeps(w: World, s: State, step: Step)
    requires Inv(w, s) && Enabled(w, s, step) && (step.ReadState? || step.PutState?)
    ensures Inv(w, Apply(w, s, step))
  {
    var s' := Apply(w, s, step);
    assert step.i == |s.flushes| - 1 && Active(s) == s.flushes[step.i];
    assert forall b :: Cached(s', b) == Cached(s, b);
  }

  /** The name provider's steps change nothing that the flush and the phase speak of. */
  lemma FnameLeaves(w: World, s: State, s': State)
    requires FlushesSound(w, s) && PhaseSound(w, s) && s.merged <= s'.merged
    requires OneAtATime(s) && s'.handling == s.handling
    requires s'.phase == s.phase && s'.cache == s.cache && s'.flushes == s.flushes && s'.submitted == s.submitted
    ensures FlushesSound(w, s') && PhaseSound(w, s') && OneAtATime(s')
  {
    assert forall b :: Cached(s', b) == Cached(s, b);
  }

  lemma FnameKeeps(w: World, s: State, step: Step)
    requires Inv(w, s) && Enabled(w, s, step) && (step.FnamePage? || step.FnameRead? || step.FnamePut?)
    ensures Inv(w, Apply(w, s, step))
  {
    FnameLeaves(w, s, Apply(w, s, step));
  }

  lemma PhaseKeeps(w: World, s: State, step: Step)
    requires ValidWorld(w) && Inv(w, s) && Enabled(w, s, step) && Disciplined(w, s, step)
    requires step.Crash? || step.Start? || step.NextRun? || step.Finish? || step.BlockHandled?
    ensures Inv(w, Apply(w, s, step))
  {
    var s' := Apply(w, s, step);
    if !step.Crash? {
      assert forall b :: Cached(s', b) == Cached(s, b);
    }
  }

  lemma StepKeeps(w: World, s: State, step: Step)
    requires ValidWorld(w) && Inv(w, s) && Enabled(w, s, step) && Disciplined(w, s, step)
    ensures Inv(w, Apply(w, s, step))
  {
    match step
    case Cache(e) => CacheKeeps(w, s, e);
    case BeginFlush(caller, latest, todo) => BeginKeeps(w, s, caller, latest, todo);
    case TakeBlock(i, order) => TakeKeeps(w, s, i, order);
    case Submit(i) => SubmitKeeps(w, s, i);
    case EndWriting(i) => EndKeeps(w, s, i);
    case ReadState(_, _) => RecordKeeps(w, s, step);
    case PutState(_, _) => RecordKeeps(w, s, step);
    case FnamePage(_) => FnameKeeps(w, s, step);
    case FnameRead => FnameKeeps(w, s, step);
    case FnamePut(_) => FnameKeeps(w, s, step);
    case _ => PhaseKeeps(w, s, step);
  }

  ghost predicate IsDisciplinedRun(w: World, states: seq<State>, steps: seq<Step>) {
    IsRun(w, states, steps) && forall k :: 0 <= k < |steps| ==> Disciplined(w, states[k], steps[k])
  }

  lemma {:induction false} RunsKeep(w: World, states: seq<State>, steps: seq<Step>, k: nat)
    requires ValidWorld(w) && IsDisciplinedRun(w, states, steps) && k < |states|
    ensures Inv(w, states[k])
  {
    if k > 0 {
      RunsKeep(w, states, steps, k - 1);
      StepKeeps(w, states[k - 1], steps[k - 1]);
    }
  }

  /**
   * At every point of a run all events at or below the persisted block are submitted and all
   * transfers at or below the persisted id are merged, whatever stale record was written last.
   */
  lemma PersistedIsSound(w: World, states: seq<State>, steps: seq<Step>, k: nat)
    requires ValidWorld(w) && IsDisciplinedRun(w, states, steps) && k < |states|
    ensures Sound(w, states[k], states[k].persisted)
  {
    RunsKeep(w, states, steps, k);
  }

  /** A history sync that starts behind the persisted block misses no confirmed event. */
  lemma RestartMissesNone(w: World, states: seq<State>, steps: seq<Step>, k: nat)
    requires ValidWorld(w) && IsDisciplinedRun(w, states, steps) && k < |states| && states[k].phase.Live?
    ensures SubmittedUpTo(w, states[k], states[k].phase.to - NUM_CONFIRMATIONS)
  {
    RunsKeep(w, states, steps, k);
  }

  /** No flush begins during another: the handler's flag, and awaiting the flushes of history, see to that. */
  lemma FlushesDoNotOverlap(w: World, states: seq<State>, steps: seq<Step>, k: nat)
    requires ValidWorld(w) && IsDisciplinedRun(w, states, steps) && k < |steps| && steps[k].BeginFlush?
    ensures Idle(states[k])
  {
    RunsKeep(w, states, steps, k);
    BeginsIdle(w, states[k], steps[k].caller, steps[k].latest, steps[k].todo);
  }

  /**
   * History is fetched from two blocks behind the persisted one, or from the first block when none
   * is persisted or a resync is asked for, unless that is not below the target.
   */
  lemma HistoryStarts(w: World, s: State, to: nat, resync: bool, next: int)
    requires Enabled(w, s, Start(to, resync, next))
    ensures var p, phase := s.persisted.lastL2Block, Apply(w, s, Start(to, resync, next)).phase;
      && (!resync && p > 0 ==> phase == if p - 2 < to then Fetching(to, p - 3, next) else Live(to))
      && (resync || p == 0 ==> phase == if w.first < to then Fetching(to, w.first - 1, next) else Live(to))
  {
  }

  // ---------------------------------------------------------------- when a persisted mark goes back

  /** A record about to be written: the name provider's has no later block, a flush's a later one. */
  ghost predicate BlocksOrdered(s: State) {
    && (s.fnamePut.Some? ==> s.fnamePut.value.lastL2Block <= s.persisted.lastL2Block)
    && (Active(s).Putting? ==> Active(s).record.lastL2Block > s.persisted.lastL2Block)
  }

  /** The name provider's record has no earlier transfer, a flush's no later one. */
  ghost predicate TransfersOrdered(s: State) {
    && s.persisted.lastFnameProof <= s.lastTransferId
    && (s.fnamePut.Some? ==> s.persisted.lastFnameProof <= s.fnamePut.value.lastFnameProof <= s.lastTransferId)
    && (Active(s).Putting? ==> Active(s).record.lastFnameProof <= s.persisted.lastFnameProof)
  }

  lemma StepOrdersBlocks(w: World, s: State, step: Step)
    requires Inv(w, s) && Enabled(w, s, step) && Disciplined(w, s, step) && BlocksOrdered(s)
    ensures BlocksOrdered(Apply(w, s, step))
  {
  }

  lemma StepOrdersTransfers(w: World, s: State, step: Step)
    requires Inv(w, s) && Enabled(w, s, step) && Disciplined(w, s, step) && TransfersOrdered(s)
    requires step != Crash(true)
    ensures TransfersOrdered(Apply(w, s, step))
  {
  }

  lemma {:induction false} RunsOrderBlocks(w: World, states: seq<State>, steps: seq<Step>, k: nat)
    requires ValidWorld(w) && IsDisciplinedRun(w, states, steps) && k < |states|
    ensures BlocksOrdered(states[k])
  {
    if k > 0 {
      RunsOrderBlocks(w, states, steps, k - 1);
      RunsKeep(w, states, steps, k - 1);
      StepOrdersBlocks(w, states[k - 1], steps[k - 1]);
    }
  }

  lemma {:induction false} RunsOrderTransfers(w: World, states: seq<State>, steps: seq<Step>, k: nat)
    requires ValidWorld(w) && IsDisciplinedRun(w, states, steps) && k < |states|
    requires forall j :: 0 <= j < k ==> steps[j] != Crash(true)
    ensures TransfersOrdered(states[k])
  {
    if k > 0 {
      RunsOrderTransfers(w, states, steps, k - 1);
      RunsKeep(w, states, steps, k - 1);
      StepOrdersTransfers(w, states[k - 1], steps[k - 1]);
    }
  }

  /** The name provider's record is pending from its read at `j` until step `k`. */
  ghost predicate NameRecordPending(steps: seq<Step>, j: nat, k: nat) {
    && j < k <= |steps| && steps[j] == FnameRead
    && forall m :: j < m < k ==> !steps[m].FnameRead? && !steps[m].FnamePut? && !steps[m].Crash?
  }

  ghost predicate BlockPutBetween(steps: seq<Step>, j: nat, k: nat) {
    exists m :: j < m < k <= |steps| && steps[m].PutState? && steps[m].ok
  }

  lemma StepsRaiseBlock(w: World, s: State, step: Step)
    requires Inv(w, s) && Enabled(w, s, step) && BlocksOrdered(s)
    requires !step.FnameRead? && !step.FnamePut? && !step.Crash?
    ensures var s' := Apply(w, s, step);
      s'.fnamePut == s.fnamePut && s.persisted.lastL2Block <= s'.persisted.lastL2Block &&
      (s.persisted.lastL2Block < s'.persisted.lastL2Block <==> step.PutState? && step.ok)
  {
  }

  lemma {:induction false} PendingBlocks(w: World, states: seq<State>, steps: seq<Step>, j: nat, k: nat)
    requires ValidWorld(w) && IsDisciplinedRun(w, states, steps) && NameRecordPending(steps, j, k)
    ensures states[k].fnamePut.Some? && states[k].fnamePut.value.lastL2Block == states[j].persisted.lastL2Block
    ensures states[j].persisted.lastL2Block <= states[k].persisted.lastL2Block
    ensures states[j].persisted.lastL2Block < states[k].persisted.lastL2Block <==> BlockPutBetween(steps, j, k)
  {
    if j < k - 1 {
      PendingBlocks(w, states, steps, j, k - 1);
      RunsKeep(w, states, steps, k - 1);
      RunsOrderBlocks(w, states, steps, k - 1);
      StepsRaiseBlock(w, states[k - 1], steps[k - 1]);
      assert BlockPutBetween(steps, j, k) <==>
        BlockPutBetween(steps, j, k - 1) || (steps[k - 1].PutState? && steps[k - 1].ok);
    }
  }

  /** The persisted block is lowered by the name provider's write of an older record and by nothing else. */
  lemma BlockRegresses(w: World, states: seq<State>, steps: seq<Step>, k: nat)
    requires ValidWorld(w) && IsDisciplinedRun(w, states, steps) && k < |steps|
    ensures states[k + 1].persisted.lastL2Block < states[k].persisted.lastL2Block <==>
      steps[k] == FnamePut(true) && states[k].fnamePut.value.lastL2Block < states[k].persisted.lastL2Block
  {
    RunsKeep(w, states, steps, k);
    RunsOrderBlocks(w, states, steps, k);
  }

  /** That write lowers it if and only if a flush persisted its block since the record was read. */
  lemma BlockRegressesAfterFlush(w: World, states: seq<State>, steps: seq<Step>, j: nat, k: nat)
    requires ValidWorld(w) && IsDisciplinedRun(w, states, steps) && NameRecordPending(steps, j, k)
    requires k < |steps| && steps[k] == FnamePut(true)
    ensures states[k + 1].persisted.lastL2Block < states[k].persisted.lastL2Block <==> BlockPutBetween(steps, j, k)
  {
    PendingBlocks(w, states, steps, j, k);
  }

  /** Flush `i`'s record is pending from its read at `j` until step `k`. */
  ghost predicate FlushRecordPending(steps: seq<Step>, i: nat, j: nat, k: nat) {
    && j < k <= |steps| && steps[j] == ReadState(i, true)
    && forall m :: j < m < k ==> !steps[m].PutState? && !steps[m].Crash?
  }

  /** The transfer of the name provider's last write after step `j` and before step `k`; without one, the transfer at `j`. */
  ghost function LastTransferPut(states: seq<State>, steps: seq<Step>, j: nat, k: nat): nat
    requires j < k <= |steps| < |states|
  {
    if k == j + 1 then states[j].persisted.lastFnameProof
    else if steps[k - 1] == FnamePut(true) && states[k - 1].fnamePut.Some? then states[k - 1].fnamePut.value.lastFnameProof
    else LastTransferPut(states, steps, j, k - 1)
  }

  /** Flush `i` is about to write a record with the transfer `t`, or has nothing to write. */
  ghost predicate HoldsTransfer(s: State, i: nat, t: nat) {
    i < |s.flushes| && (s.flushes[i].Done? || (s.flushes[i].Putting? && s.flushes[i].record.lastFnameProof == t))
  }

  lemma FlushRecordRead(w: World, s: State, i: nat)
    requires Enabled(w, s, ReadState(i, true))
    ensures var s' := Apply(w, s, ReadState(i, true));
      HoldsTransfer(s', i, s.persisted.lastFnameProof) && s'.persisted == s.persisted
  {
  }

  lemma FlushRecordStays(w: World, s: State, step: Step, i: nat, t: nat)
    requires Enabled(w, s, step) && !step.PutState? && !step.Crash? && HoldsTransfer(s, i, t)
    ensures var s' := Apply(w, s, step);
      HoldsTransfer(s', i, t) &&
      s'.persisted == if step == FnamePut(true) && s.fnamePut.Some? then s.fnamePut.value else s.persisted
  {
  }

  lemma {:induction false} PendingTransfers(w: World, states: seq<State>, steps: seq<Step>, i: nat, j: nat, k: nat)
    requires IsRun(w, states, steps) && FlushRecordPending(steps, i, j, k)
    ensures HoldsTransfer(states[k], i, states[j].persisted.lastFnameProof)
    ensures states[k].persisted.lastFnameProof == LastTransferPut(states, steps, j, k)
  {
    if j == k - 1 {
      FlushRecordRead(w, states[j], i);
    } else {
      PendingTransfers(w, states, steps, i, j, k - 1);
      FlushRecordStays(w, states[k - 1], steps[k - 1], i, states[j].persisted.lastFnameProof);
    }
  }

  ghost predicate FlushLowersTransfer(s: State, step: Step) {
    step.PutState? && step.ok && step.i < |s.flushes| && s.flushes[step.i].Putting? &&
    s.flushes[step.i].record.lastFnameProof < s.persisted.lastFnameProof
  }

  ghost predicate NamesLowerTransfer(s: State, step: Step) {
    step == FnamePut(true) && s.fnamePut.Some? && s.fnamePut.value.lastFnameProof < s.persisted.lastFnameProof
  }

  /**
   * The persisted transfer is lowered by a flush's write of an older record, or by the name
   * provider's own, and the latter only after transfers were fetched from the beginning again.
   */
  lemma TransferRegresses(w: World, states: seq<State>, steps: seq<Step>, k: nat)
    requires ValidWorld(w) && IsDisciplinedRun(w, states, steps) && k < |steps|
    ensures states[k + 1].persisted.lastFnameProof < states[k].persisted.lastFnameProof <==>
      FlushLowersTransfer(states[k], steps[k]) || NamesLowerTransfer(states[k], steps[k])
    ensures NamesLowerTransfer(states[k], steps[k]) ==> exists m :: 0 <= m < k && steps[m] == Crash(true)
  {
    if forall m :: 0 <= m < k ==> steps[m] != Crash(true) {
      RunsOrderTransfers(w, states, steps, k);
    }
  }

  /** A flush's write lowers it if and only if the name provider's last write since its read was of a later transfer. */
  lemma TransferRegressesAfterNames(w: World, states: seq<State>, steps: seq<Step>, i: nat, j: nat, k: nat)
    requires IsRun(w, states, steps) && FlushRecordPending(steps, i, j, k)
    requires k < |steps| && steps[k] == PutState(i, true)
    ensures states[k + 1].persisted.lastFnameProof < states[k].persisted.lastFnameProof <==>
      states[j].persisted.lastFnameProof < LastTransferPut(states, steps, j, k)
  {
    PendingTransfers(w, states, steps, i, j, k);
  }

  // ---------------------------------------------------------------- what does not hold

  /** Which of the rules may be broken: none, that no retry flushes during another flush, that watchers are silent. */
  datatype Lapse = NoLapse | Overlap | LoudWatcher

  ghost predicate Allowed(w: World, s: State, step: Step, lapse: Lapse) {
    Enabled(w, s, step) &&
    (|| Disciplined(w, s, step)
     || (lapse == Overlap && step.BeginFlush? && step.caller == Retry && !Idle(s))
     || (lapse == LoudWatcher && step.Cache? && step.e in w.chain))
  }

  ghost predicate RunTo(w: World, states: seq<State>, steps: seq<Step>, s: State, lapse: Lapse) {
    && IsRun(w, states, steps) && states[|steps|] == s
    && forall k :: 0 <= k < |steps| ==> Allowed(w, states[k], steps[k], lapse)
  }

  ghost predicate Reachable(w: World, s: State, lapse: Lapse) {
    exists states, steps :: RunTo(w, states, steps, s, lapse)
  }

  lemma Begin(w: World, lapse: Lapse)
    ensures Reachable(w, START, lapse)
  {
    assert RunTo(w, [START], [], START, lapse);
  }

  lemma Go(w: World, s: State, step: Step, lapse: Lapse) returns (s': State)
    requires Reachable(w, s, lapse) && Allowed(w, s, step, lapse)
    ensures s' == Apply(w, s, step) && Reachable(w, s', lapse)
  {
    s' := Apply(w, s, step);
    var states, steps :| RunTo(w, states, steps, s, lapse);
    assert RunTo(w, states + [s'], steps + [step], s', lapse);
  }

  const START := State(Down, map[], [], None, [], HubState(0, 0), 0, {}, None, multiset{}, multiset{})
  const E5 := Event(5, 0, 0)
  const E6 := Event(6, 0, 0)
  const WORLD := World({E5, E6}, {}, 5)

  /** Live, two events cached, and the name provider holding a record that it read at the start. */
  lemma ReachCached(lapse: Lapse) returns (s: State)
    ensures Reachable(WORLD, s, lapse)
    ensures s.phase == Live(5) && s.flushes == [] && s.handling == None && s.submitted == [] && s.persisted == HubState(0, 0)
    ensures s.fnamePut == Some(HubState(0, 0)) && s.cache.Keys == {5, 6} && s.cache[5] == [E5] && s.cache[6] == [E6]
  {
    Begin(WORLD, lapse);
    s := Go(WORLD, START, FnameRead, lapse);
    s := Go(WORLD, s, Start(5, false, 0), lapse);
    s := Go(WORLD, s, Cache(E5), lapse);
    s := Go(WORLD, s, Cache(E6), lapse);
  }

  /** A flush that has taken block 5 and not yet submitted its event. */
  lemma ReachTaken(lapse: Lapse) returns (s: State)
    ensures Reachable(WORLD, s, lapse)
    ensures s.phase == Live(5) && s.submitted == [] && s.persisted == HubState(0, 0) && s.fnamePut == Some(HubState(0, 0))
    ensures s.flushes == [Writing([6], [E5], 8, 5)] && s.cache.Keys == {6} && s.cache[6] == [E6]
  {
    s := ReachCached(lapse);
    s := Go(WORLD, s, BeginFlush(NewBlock, 8, [5, 6]), lapse);
    assert s.flushes == [Writing([5, 6], [], 8, 0)];
    s := Go(WORLD, s, TakeBlock(0, [E5]), lapse);
    assert [5, 6][1..] == [6];
  }

  /** A flush that is about to persist block 6. */
  lemma ReachFlushed() returns (s: State)
    ensures Reachable(WORLD, s, NoLapse)
    ensures s.flushes == [Putting(HubState(6, 0))] && s.fnamePut == Some(HubState(0, 0))
  {
    s := ReachTaken(NoLapse);
    s := Go(WORLD, s, Submit(0), NoLapse);
    assert [E5][1..] == [];
    s := Go(WORLD, s, TakeBlock(0, [E6]), NoLapse);
    assert [6][1..] == [] && [E6][1..] == [];
    s := Go(WORLD, s, Submit(0), NoLapse);
    s := Go(WORLD, s, EndWriting(0), NoLapse);
    s := Go(WORLD, s, ReadState(0, true), NoLapse);
  }

  ghost predicate Regresses(w: World, s: State, step: Step) {
    Allowed(w, s, step, NoLapse) && Apply(w, s, step).persisted.lastL2Block < s.persisted.lastL2Block
  }

  /** The persisted block may go back: the name provider writes a record it read before the flush. */
  lemma PersistedMayRegress()
    ensures exists s, step :: Reachable(WORLD, s, NoLapse) && Regresses(WORLD, s, step)
  {
    var s := ReachFlushed();
    s := Go(WORLD, s, PutState(0, true), NoLapse);
    assert Regresses(WORLD, s, FnamePut(true));
  }

  ghost predicate RegressesTransfer(w: World, s: State, step: Step) {
    Allowed(w, s, step, NoLapse) && Apply(w, s, step).persisted.lastFnameProof < s.persisted.lastFnameProof
  }

  /** So may the persisted transfer: a flush writes a record it read before the name provider wrote. */
  lemma TransferMayRegress()
    ensures exists s, step :: Reachable(WORLD, s, NoLapse) && RegressesTransfer(WORLD, s, step)
  {
    var s := ReachFlushed();
    s := Go(WORLD, s, FnamePage(s.lastTransferId + 1), NoLapse);
    s := Go(WORLD, s, FnameRead, NoLapse);
    s := Go(WORLD, s, FnamePut(true), NoLapse);
    assert RegressesTransfer(WORLD, s, PutState(0, true));
  }

  lemma ReachOverlapping() returns (s: State)
    ensures Reachable(WORLD, s, Overlap)
    ensures s.submitted == [] && s.persisted == HubState(0, 0)
    ensures s.flushes == [Writing([6], [E5], 8, 5), Writing([], [E6], 8, 6)]
  {
    s := ReachTaken(Overlap);
    assert s.flushes[0] != Done;
    s := Go(WORLD, s, BeginFlush(Retry, 8, [6]), Overlap);
    assert s.flushes == [Writing([6], [E5], 8, 5), Writing([6], [], 8, 0)];
    s := Go(WORLD, s, TakeBlock(1, [E6]), Overlap);
    assert [6][1..] == [];
  }

  lemma ReachOverlapped() returns (s: State)
    ensures Reachable(WORLD, s, Overlap)
    ensures s.submitted == [E6] && |s.flushes| == 2 && s.flushes[1] == Putting(HubState(6, 0))
  {
    s := ReachOverlapping();
    s := Go(WORLD, s, Submit(1), Overlap);
    assert [E6][1..] == [];
    s := Go(WORLD, s, EndWriting(1), Overlap);
    s := Go(WORLD, s, ReadState(1, true), Overlap);
  }

  /** If one flush may begin during another, a block is persisted while an event below it is still in flight. */
  lemma OverlapBreaksSoundness()
    ensures exists s :: Reachable(WORLD, s, Overlap) && !Sound(WORLD, s, s.persisted)
  {
    var s := ReachOverlapped();
    s := Go(WORLD, s, PutState(1, true), Overlap);
    assert E5 in WORLD.chain && E5 !in s.submitted;
    assert !Sound(WORLD, s, s.persisted);
  }

  lemma ReachRefetched() returns (s: State)
    ensures Reachable(WORLD, s, NoLapse)
    ensures s.persisted == HubState(0, 1) && s.lastTransferId == 0
  {
    Begin(WORLD, NoLapse);
    s := Go(WORLD, START, FnamePage(1), NoLapse);
    s := Go(WORLD, s, FnameRead, NoLapse);
    s := Go(WORLD, s, FnamePut(true), NoLapse);
    s := Go(WORLD, s, Crash(true), NoLapse);
  }

  ghost predicate RegressesByNames(w: World, s: State, step: Step) {
    RegressesTransfer(w, s, step) && step.FnamePut?
  }

  /** The name provider restarted from the beginning writes an earlier transfer itself. */
  lemma RefetchMayRegress()
    ensures exists s, step :: Reachable(WORLD, s, NoLapse) && RegressesByNames(WORLD, s, step)
  {
    var s := ReachRefetched();
    s := Go(WORLD, s, FnameRead, NoLapse);
    assert RegressesByNames(WORLD, s, FnamePut(true));
  }

  const E8 := Event(8, 0, 0)
  const E10 := Event(10, 0, 0)
  const AHEAD := World({E8, E10}, {}, 5)

  /** History fetched up to block 6, with an event of the confirmed block 10 in the cache. */
  lemma ReachAhead() returns (s: State)
    ensures Reachable(AHEAD, s, LoudWatcher)
    ensures s.phase == Fetching(20, 4, 6) && s.flushes == [] && s.submitted == [] && s.persisted == HubState(0, 0)
    ensures s.cache.Keys == {10} && s.cache[10] == [E10] && E8 !in s.received
  {
    Begin(AHEAD, LoudWatcher);
    s := Go(AHEAD, START, Start(20, false, 6), LoudWatcher);
    s := Go(AHEAD, s, Cache(E10), LoudWatcher);
  }

  /** Its flush has submitted that event. */
  lemma ReachAheadFlushed() returns (s: State)
    ensures Reachable(AHEAD, s, LoudWatcher)
    ensures s.flushes == [Writing([], [], 20, 10)] && s.submitted == [E10] && s.persisted == HubState(0, 0) && E8 !in s.received
  {
    s := ReachAhead();
    assert multiset([10]) == multiset(s.cache.Keys);
    s := Go(AHEAD, s, BeginFlush(History, 20, [10]), LoudWatcher);
    assert s.flushes == [Writing([10], [], 20, 0)];
    s := Go(AHEAD, s, TakeBlock(0, [E10]), LoudWatcher);
    assert [10][1..] == [] && [E10][1..] == [];
    assert s.flushes == [Writing([], [E10], 20, 10)];
    s := Go(AHEAD, s, Submit(0), LoudWatcher);
  }

  /** A flush that no other overlaps persists a block above an event that was never received. */
  ghost predicate MissedUnseen(w: World, s: State, e: Event) {
    Idle(s) && e in w.chain && e.block <= s.persisted.lastL2Block && e !in s.submitted && e !in s.received
  }

  lemma LoudWatcherBreaksSoundness()
    ensures exists s, e :: Reachable(AHEAD, s, LoudWatcher) && MissedUnseen(AHEAD, s, e)
  {
    var s := ReachAheadFlushed();
    s := Go(AHEAD, s, EndWriting(0), LoudWatcher);
    s := Go(AHEAD, s, ReadState(0, true), LoudWatcher);
    s := Go(AHEAD, s, PutState(0, true), LoudWatcher);
    assert MissedUnseen(AHEAD, s, E8);
  }
}
