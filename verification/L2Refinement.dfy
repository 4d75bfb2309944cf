/** The flush method of the provider is a path of the ingestion state machine. */
module L2Refinement {
  import opened L2Ingestion
  import opened L2Flush

  ghost predicate PathTo(w: World, states: seq<State>, steps: seq<Step>, s: State, t: State) {
    IsPath(w, states, steps) && states[0] == s && states[|steps|] == t
  }

  ghost predicate Leads(w: World, s: State, t: State) {
    exists states, steps :: PathTo(w, states, steps, s, t)
  }

  lemma Stay(w: World, s: State)
    ensures Leads(w, s, s)
  {
    assert PathTo(w, [s], [], s, s);
  }

  lemma Step(w: World, s: State, t: State, step: L2Ingestion.Step, u: State)
    requires Leads(w, s, t) && Enabled(w, t, step) && Apply(w, t, step) == u
    ensures Leads(w, s, u)
  {
    var states, steps :| PathTo(w, states, steps, s, t);
    assert PathTo(w, states + [u], steps + [step], s, u);
  }

  /** The state with the last flush replaced. */
  ghost function WithFlush(t: State, flushes: seq<Flush>, f: Flush): State {
    t.(flushes := flushes + [f])
  }

  lemma ReplaceLast(flushes: seq<Flush>, f: Flush, g: Flush)
    ensures (flushes + [f])[|flushes| := g] == flushes + [g] && (flushes + [f])[|flushes|] == f
  {
  }

  /** Submitting all events in flight. */
  lemma {:induction false} SubmitSteps(w: World, s: State, t: State, flushes: seq<Flush>, f: Flush)
    requires f.Writing? && t.flushes == flushes + [f] && Leads(w, s, t)
    ensures Leads(w, s, WithFlush(t, flushes, f.(inFlight := [])).(submitted := t.submitted + f.inFlight))
    decreases |f.inFlight|
  {
    if f.inFlight == [] {
      assert t == WithFlush(t, flushes, f.(inFlight := [])).(submitted := t.submitted + f.inFlight);
    } else {
      var g := f.(inFlight := f.inFlight[1..]);
      var u := WithFlush(t, flushes, g).(submitted := t.submitted + [f.inFlight[0]]);
      ReplaceLast(flushes, f, g);
      Step(w, s, t, Submit(|flushes|), u);
      SubmitSteps(w, s, u, flushes, g);
      assert t.submitted + [f.inFlight[0]] + f.inFlight[1..] == t.submitted + f.inFlight;
    }
  }

  /** The state after a flush has walked the first `k` blocks of `order`. */
  ghost function Walked(w: World, s: State, caller: Caller, latest: nat, order: seq<nat>, k: nat): State
    requires Enabled(w, s, BeginFlush(caller, latest, order)) && k <= |order|
    requires forall b :: b in order[..k] ==> b in s.cache
  {
    Apply(w, s, BeginFlush(caller, latest, order)).(
      submitted := s.submitted + Emitted(s.cache, order[..k], latest),
      cache := s.cache - L2Flush.Written(order[..k], latest),
      flushes := s.flushes + [Writing(order[k..], [], latest, LastWritten(order[..k], latest))])
  }

  lemma {:induction false} WalkSteps(w: World, s: State, caller: Caller, latest: nat, order: seq<nat>, k: nat)
    requires Enabled(w, s, BeginFlush(caller, latest, order)) && k <= |order|
    requires forall b :: b in order ==> b in s.cache
    ensures Leads(w, s, Walked(w, s, caller, latest, order, k))
  {
    if k == 0 {
      Stay(w, s);
      assert order[0..] == order && s.submitted + [] == s.submitted && s.cache - {} == s.cache;
      assert L2Flush.Written(order[..0], latest) == {};
      Step(w, s, s, BeginFlush(caller, latest, order), Walked(w, s, caller, latest, order, 0));
    } else {
      WalkSteps(w, s, caller, latest, order, k - 1);
      WalkOne(w, s, caller, latest, order, k - 1);
    }
  }

  lemma SortedMembers(events: seq<Event>)
    ensures multiset(Sort(events, EventOrder)) == multiset(events)
  {
    SortSorted(events, EventOrder);
  }

  /** What the next block of the walk changes. */
  lemma NextBlock(w: World, s: State, caller: Caller, latest: nat, order: seq<nat>, k: nat)
    requires Enabled(w, s, BeginFlush(caller, latest, order)) && k < |order|
    requires forall b :: b in order ==> b in s.cache
    ensures var t, u := Walked(w, s, caller, latest, order, k), Walked(w, s, caller, latest, order, k + 1);
      var b := order[k];
      var events := if Confirmed(b, latest) then Sort(s.cache[b], EventOrder) else [];
      && Cached(t, b) == s.cache[b] && u.submitted == t.submitted + events
      && u.cache == (if Confirmed(b, latest) then t.cache - {b} else t.cache)
      && u.flushes == s.flushes + [Writing(order[k + 1..], [], latest,
           if Confirmed(b, latest) then b else LastWritten(order[..k], latest))]
  {
    WrittenStep(order, latest, k);
    NoRepeats(order, s.cache.Keys);
    assert order[k] !in order[..k];
  }

  lemma WalkOne(w: World, s: State, caller: Caller, latest: nat, order: seq<nat>, k: nat)
    requires Enabled(w, s, BeginFlush(caller, latest, order)) && k < |order|
    requires forall b :: b in order ==> b in s.cache
    requires Leads(w, s, Walked(w, s, caller, latest, order, k))
    ensures Leads(w, s, Walked(w, s, caller, latest, order, k + 1))
  {
    var t, u := Walked(w, s, caller, latest, order, k), Walked(w, s, caller, latest, order, k + 1);
    var b, i := order[k], |s.flushes|;
    var f := t.flushes[i];
    assert f.todo[0] == b && f.todo[1..] == order[k + 1..];
    NextBlock(w, s, caller, latest, order, k);
    var events := Sort(s.cache[b], EventOrder);
    SortedMembers(s.cache[b]);
    if Confirmed(b, latest) {
      var g := Writing(order[k + 1..], events, latest, b);
      var v := WithFlush(t, s.flushes, g).(cache := t.cache - {b});
      ReplaceLast(s.flushes, f, g);
      Step(w, s, t, TakeBlock(i, events), v);
      SubmitSteps(w, s, v, s.flushes, g);
    } else {
      ReplaceLast(s.flushes, f, f.(todo := order[k + 1..]));
      assert t.submitted + [] == u.submitted;
      Step(w, s, t, TakeBlock(i, events), u);
    }
  }

  /** The state after a whole flush: what the provider's method leaves. */
  ghost function Flushed(w: World, s: State, caller: Caller, latest: nat, order: seq<nat>): State
    requires Enabled(w, s, BeginFlush(caller, latest, order))
    requires forall b :: b in order ==> b in s.cache
  {
    Apply(w, s, BeginFlush(caller, latest, order)).(
      submitted := s.submitted + Emitted(s.cache, order, latest),
      cache := s.cache - L2Flush.Written(order, latest),
      persisted := if LastWritten(order, latest) > s.persisted.lastL2Block
        then s.persisted.(lastL2Block := LastWritten(order, latest)) else s.persisted,
      flushes := s.flushes + [Done])
  }

  /** A whole flush, with the hub state read and written, ends where the provider's method ends. */
  lemma FlushIsPath(w: World, s: State, caller: Caller, latest: nat, order: seq<nat>)
    requires Enabled(w, s, BeginFlush(caller, latest, order))
    requires forall b :: b in order ==> b in s.cache
    ensures Leads(w, s, Flushed(w, s, caller, latest, order))
  {
    var n, i, h := |order|, |s.flushes|, LastWritten(order, latest);
    WalkSteps(w, s, caller, latest, order, n);
    assert order[..n] == order && order[n..] == [];
    var t := Walked(w, s, caller, latest, order, n);
    var f := Writing([], [], latest, h);
    assert t.flushes == s.flushes + [f];
    if h == 0 {
      ReplaceLast(s.flushes, f, Done);
      Step(w, s, t, EndWriting(i), WithFlush(t, s.flushes, Done));
    } else {
      var u := WithFlush(t, s.flushes, Reading(h));
      ReplaceLast(s.flushes, f, Reading(h));
      Step(w, s, t, EndWriting(i), u);
      if h > s.persisted.lastL2Block {
        var record := s.persisted.(lastL2Block := h);
        var v := WithFlush(t, s.flushes, Putting(record));
        ReplaceLast(s.flushes, Reading(h), Putting(record));
        Step(w, s, u, ReadState(i, true), v);
        ReplaceLast(s.flushes, Putting(record), Done);
        Step(w, s, v, PutState(i, true), WithFlush(t, s.flushes, Done).(persisted := record));
      } else {
        ReplaceLast(s.flushes, Reading(h), Done);
        Step(w, s, u, ReadState(i, true), WithFlush(t, s.flushes, Done));
      }
    }
  }
}
