/** What a flush of history sync needs of the cache for a restart to miss nothing (apps/hubble/src/eth/l2EventsProvider.ts). */
module L2History {
  import opened L2Ingestion
  import opened L2Flush
  import opened L2Restart
  import opened L2Refinement
  import opened Sequences

  /** A world that the provider may be in: what it persisted is submitted and what it fetched is seen. */
  ghost predicate Possible(w: World, s: State)
    requires s.phase.Fetching?
  {
    ValidWorld(w) && SubmittedUpTo(w, s, s.persisted.lastL2Block) && SeenBetween(w, s, Done, -1, s.phase.next)
  }

  /** The block up to which history is fetched or was persisted before. */
  ghost function Reached(s: State): int
    requires s.phase.Fetching?
  {
    if s.phase.next < s.persisted.lastL2Block then s.persisted.lastL2Block else s.phase.next
  }

  /** The state is ready for the flush of a run of history sync, and this is the order of the walk. */
  ghost predicate ReadyToFlush(s: State, order: seq<nat>) {
    && s.phase.Fetching? && ByBlock(s.cache) && multiset(order) == multiset(s.cache.Keys)
    && forall b :: b in order ==> b in s.cache
  }

  /** Whatever the chain holds, everything up to the block that the flush persists is then submitted. */
  ghost predicate AlwaysSound(s: State, order: seq<nat>)
    requires ReadyToFlush(s, order)
  {
    forall w :: Possible(w, s) ==> SoundAfter(w, s, order)
  }

  ghost predicate SoundAfter(w: World, s: State, order: seq<nat>)
    requires ReadyToFlush(s, order)
  {
    var t := Flushed(w, s, History, s.phase.to, order);
    SubmittedUpTo(w, t, t.persisted.lastL2Block)
  }

  lemma {:induction false} WrittenIsConfirmed(order: seq<nat>, latest: nat)
    ensures LastWritten(order, latest) > 0 ==> LastWritten(order, latest) in order && Confirmed(LastWritten(order, latest), latest)
  {
    if order != [] {
      WrittenIsConfirmed(order[..|order| - 1], latest);
    }
  }

  lemma {:induction false} EmittedHas(cache: map<nat, seq<Event>>, order: seq<nat>, latest: nat, e: Event)
    requires forall b :: b in order ==> b in cache
    requires e.block in order && Confirmed(e.block, latest) && e in cache[e.block]
    ensures e in Emitted(cache, order, latest)
  {
    var n := |order| - 1;
    assert order == order[..n] + [order[n]];
    if order[n] == e.block {
      SortMembers(cache[e.block], EventOrder);
      assert e in multiset(cache[e.block]);
      assert e in multiset(Sort(cache[e.block], EventOrder));
    } else {
      EmittedHas(cache, order[..n], latest, e);
    }
  }

  /** Some event of a block is not among finitely many. */
  lemma {:induction false} FreshEvent(events: seq<Event>, block: nat) returns (x: Event)
    ensures x.block == block && x !in events && forall e :: e in events ==> e.logIndex < x.logIndex
  {
    if events == [] {
      x := Event(block, 0, 0);
    } else {
      var n := |events| - 1;
      x := FreshEvent(events[..n], block);
      assert events == events[..n] + [events[n]];
      if events[n].logIndex >= x.logIndex {
        x := Event(block, events[n].logIndex + 1, 0);
      }
    }
  }

  /** A flush that persists no block beyond what was reached is sound. */
  lemma ReachedIsSound(w: World, s: State, order: seq<nat>)
    requires ReadyToFlush(s, order) && Possible(w, s) && LastWritten(order, s.phase.to) <= Reached(s)
    ensures SoundAfter(w, s, order)
  {
    var h, latest := LastWritten(order, s.phase.to), s.phase.to;
    if h > s.persisted.lastL2Block {
      WrittenIsConfirmed(order, latest);
      forall e | e in w.chain && e.block <= h && e !in s.submitted
        ensures e in Emitted(s.cache, order, latest)
      {
        assert Seen(s, Done, e) && Pending(Done) == [];
        assert e.block in multiset(order) by {
          assert e.block in s.cache;
        }
        EmittedHas(s.cache, order, latest, e);
      }
    }
  }

  /** One that does may pass an event that nobody has fetched. */
  lemma BeyondIsUnsound(s: State, order: seq<nat>) returns (w: World)
    requires ReadyToFlush(s, order) && LastWritten(order, s.phase.to) > Reached(s)
    ensures Possible(w, s) && !SoundAfter(w, s, order)
  {
    var h := LastWritten(order, s.phase.to);
    var x := FreshEvent(s.submitted + Emitted(s.cache, order, s.phase.to), h);
    w := World({x}, {}, h);
    assert x in w.chain;
  }

  lemma SoundExactly(s: State, order: seq<nat>)
    requires ReadyToFlush(s, order)
    ensures AlwaysSound(s, order) <==> LastWritten(order, s.phase.to) <= Reached(s)
  {
    if LastWritten(order, s.phase.to) <= Reached(s) {
      forall w | Possible(w, s)
        ensures SoundAfter(w, s, order)
      {
        ReachedIsSound(w, s, order);
      }
    } else {
      var w := BeyondIsUnsound(s, order);
    }
  }

  /**
   * Blocks walked in order, a flush of history sync is sound whatever the chain holds if and only
   * if every confirmed block in the cache is one that history has reached.
   */
  lemma SoundIffCacheWithin(s: State, order: seq<nat>)
    requires ReadyToFlush(s, order) && Increasing(order)
    ensures AlwaysSound(s, order) <==> CacheWithin(s.cache, Reached(s), s.phase.to)
  {
    var h, latest := LastWritten(order, s.phase.to), s.phase.to;
    SoundExactly(s, order);
    LastWrittenIsHighest(order, latest);
    forall b
      ensures b in s.cache <==> b in order
    {
      assert b in order <==> b in multiset(order);
    }
    assert Reached(s) >= 0;
    if CacheWithin(s.cache, Reached(s), latest) && h > 0 {
      assert h in s.cache;
    }
  }
}
