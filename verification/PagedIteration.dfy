/** Paged iteration over the database (apps/hubble/src/rustfunctions.ts, apps/hubble/src/addon/src/db/rocksdb.rs). */
module PagedIteration {
  import opened ByteStrings
  import opened Wrappers

  /** The keys of the store, in the ascending order in which it keeps them. */
  type Db = db: seq<Bytes> | Ascending(db)

  datatype IteratorOpts = IteratorOpts(reverse: bool, gte: Option<Bytes>, gt: Option<Bytes>, lt: Bytes)

  predicate ValidOpts(o: IteratorOpts) {
    o.gte.Some? != o.gt.Some?
  }

  function Lower(o: IteratorOpts): Bytes
    requires ValidOpts(o)
  {
    if o.gte.Some? then o.gte.value else o.gt.value
  }

  ghost predicate Before(reverse: bool, a: Bytes, b: Bytes) {
    if reverse then Less(b, a) else Less(a, b)
  }

  ghost predicate Ordered(reverse: bool, s: seq<Bytes>) {
    forall i, j :: 0 <= i < j < |s| ==> Before(reverse, s[i], s[j])
  }

  ghost predicate Ascending(s: seq<Bytes>) {
    Ordered(false, s)
  }

  function Reverse(s: seq<Bytes>): (r: seq<Bytes>)
    ensures |r| == |s| && forall i :: 0 <= i < |s| ==> r[i] == s[|s| - 1 - i]
  {
    if s == [] then [] else Reverse(s[1..]) + [s[0]]
  }

  predicate InRange(o: IteratorOpts, k: Bytes)
    requires ValidOpts(o)
  {
    !Less(k, Lower(o)) && Less(k, o.lt)
  }

  /**
   * The keys one native call visits. The bounds make the range half open; a `gt` bound is then
   * honoured only by skipping the first key visited when it is the bound itself.
   */
  function NativeKeys(db: Db, o: IteratorOpts): seq<Bytes>
    requires ValidOpts(o)
  {
    var inRange := Filter(db, k => InRange(o, k));
    var order := if o.reverse then Reverse(inRange) else inRange;
    if o.gt.Some? && order != [] && order[0] == o.gt.value then order[1..] else order
  }

  /** The options of the page after the key `token`. */
  function Continue(o: IteratorOpts, token: Option<Bytes>): IteratorOpts {
    if token.None? then o
    else if o.reverse then o.(lt := token.value)
    else o.(gt := token, gte := None)
  }

  lemma {:induction false} FilterOrdered(db: Db, keep: Bytes -> bool)
    ensures Ascending(Filter(db, keep))
    ensures forall k :: k in Filter(db, keep) <==> k in db && keep(k)
  {
    if db != [] {
      var n := |db| - 1;
      FilterOrdered(db[..n], keep);
      assert db == db[..n] + [db[n]];
      assert forall k :: k in db[..n] ==> Less(k, db[n]);
    }
  }

  /** A strictly ordered sequence is determined by its elements. */
  lemma {:induction false} OrderedUnique(reverse: bool, s: seq<Bytes>, t: seq<Bytes>)
    requires Ordered(reverse, s) && Ordered(reverse, t) && forall k :: k in s <==> k in t
    ensures s == t
  {
    assert s != [] ==> s[0] in t;
    assert t != [] ==> t[0] in s;
    if s != [] && t != [] {
      LessTotal(s[0], t[0]);
      assert s[0] == t[0];
      forall k
        ensures k in s[1..] <==> k in t[1..]
      {
        LessTotal(s[0], s[0]);
        assert k in s <==> k == s[0] || k in s[1..];
        assert k in t <==> k == t[0] || k in t[1..];
        assert s[0] !in s[1..] && t[0] !in t[1..];
      }
      OrderedUnique(reverse, s[1..], t[1..]);
    }
  }

  /** Whether the `gt` bound is skipped: always forward, but in reverse only when no other key is in range. */
  ghost predicate BoundSkipped(db: Db, o: IteratorOpts)
    requires ValidOpts(o)
  {
    o.gt.Some? && (o.reverse ==> forall k :: k in db && InRange(o, k) ==> k == o.gt.value)
  }

  lemma NativeFacts(db: Db, o: IteratorOpts)
    requires ValidOpts(o)
    ensures Ordered(o.reverse, NativeKeys(db, o))
    ensures forall k :: k in NativeKeys(db, o) <==> k in db && InRange(o, k) && !(BoundSkipped(db, o) && k == o.gt.value)
  {
    var keep := k => InRange(o, k);
    var inRange := Filter(db, keep);
    FilterOrdered(db, keep);
    var order := if o.reverse then Reverse(inRange) else inRange;
    assert forall k :: k in order <==> k in inRange by {
      assert forall i :: 0 <= i < |inRange| ==> inRange[i] == Reverse(inRange)[|inRange| - 1 - i];
    }
    assert Ordered(o.reverse, order);
    if o.gt.Some? && order != [] {
      FirstIsBound(db, o, order);
      LessTotal(order[0], order[0]);
      assert forall k :: k in order <==> k == order[0] || k in order[1..];
    }
  }

  /** The range in terms of the options: both lower bounds are in it, the upper one is not. */
  lemma RangeBounds(o: IteratorOpts, k: Bytes)
    requires ValidOpts(o)
    ensures InRange(o, k) <==>
      && (o.gte.Some? ==> k == o.gte.value || Less(o.gte.value, k))
      && (o.gt.Some? ==> k == o.gt.value || Less(o.gt.value, k))
      && Less(k, o.lt)
  {
    LessTotal(k, Lower(o));
  }

  /** A stored key at the `gte` bound is visited, one at the `lt` bound is not. */
  lemma BoundsVisited(db: Db, o: IteratorOpts)
    requires ValidOpts(o)
    ensures o.gte.Some? && o.gte.value in db && Less(o.gte.value, o.lt) ==> o.gte.value in NativeKeys(db, o)
    ensures o.gt.Some? && !o.reverse ==> o.gt.value !in NativeKeys(db, o)
    ensures o.lt !in NativeKeys(db, o)
  {
    NativeFacts(db, o);
    RangeBounds(o, Lower(o));
    RangeBounds(o, o.lt);
    LessTotal(o.lt, o.lt);
  }

  lemma FirstIsBound(db: Db, o: IteratorOpts, order: seq<Bytes>)
    requires ValidOpts(o) && o.gt.Some? && order != [] && Ordered(o.reverse, order)
    requires forall k :: k in order <==> k in db && InRange(o, k)
    ensures order[0] == o.gt.value <==> o.gt.value in order && BoundSkipped(db, o)
  {
    var g := o.gt.value;
    assert order[0] in order;
    if g in order && order[0] != g {
      var i :| 0 < i < |order| && order[i] == g;
      LessTotal(order[0], g);
    }
    if o.reverse && order[0] == g {
      forall k | k in order
        ensures k == g
      {
        LessTotal(k, g);
      }
    }
  }

  // ---------------------------------------------------------------- pages

  lemma TailAfter(reverse: bool, s: seq<Bytes>, p: nat, k: Bytes)
    requires 0 < p <= |s| && Ordered(reverse, s)
    ensures k in s[p..] <==> k in s && Before(reverse, s[p - 1], k)
  {
    if k in s {
      var i :| 0 <= i < |s| && s[i] == k;
      LessTotal(s[p - 1], k);
      assert i >= p ==> k == s[p..][i - p];
    }
  }

  /** The `gt` bound is the only key left of a reverse scan. */
  ghost predicate OnlyBoundLeft(o: IteratorOpts, rest: seq<Bytes>) {
    o.reverse && o.gt.Some? && rest == [o.gt.value]
  }

  /** Beyond a key of the page, the range of the next page agrees with the range of this one. */
  lemma BeyondToken(o: IteratorOpts, token: Option<Bytes>, t: Bytes, k: Bytes)
    requires ValidOpts(o)
    requires var c := Continue(o, token); InRange(c, t) && Before(o.reverse, t, k)
    ensures var c, n := Continue(o, token), Continue(o, Some(t)); InRange(c, k) <==> InRange(n, k)
  {
    var c := Continue(o, token);
    LessTotal(t, k);
    if o.reverse {
      LessTransitive(k, t, c.lt);
    } else {
      LessTotal(Lower(c), t);
      LessTotal(Lower(c), k);
      if Less(Lower(c), t) {
        LessTransitive(Lower(c), t, k);
      }
    }
  }

  lemma RestOfPage(db: Db, o: IteratorOpts, token: Option<Bytes>, p: nat, k: Bytes)
    requires ValidOpts(o) && 0 < p <= |NativeKeys(db, Continue(o, token))|
    ensures var keys := NativeKeys(db, Continue(o, token));
      k in keys[p..] <==> k in db && Before(o.reverse, keys[p - 1], k) && InRange(Continue(o, Some(keys[p - 1])), k)
  {
    var c := Continue(o, token);
    var keys := NativeKeys(db, c);
    var t := keys[p - 1];
    NativeFacts(db, c);
    assert t in keys;
    TailAfter(o.reverse, keys, p, k);
    if Before(o.reverse, t, k) {
      BeyondToken(o, token, t, k);
      LessTotal(t, k);
      if c.gt.Some? && k == c.gt.value {
        assert o.reverse && !BoundSkipped(db, c);
      }
    }
  }

  lemma InNextPage(db: Db, o: IteratorOpts, t: Bytes, k: Bytes)
    requires ValidOpts(o)
    ensures var n := Continue(o, Some(t));
      k in NativeKeys(db, n) <==>
      k in db && Before(o.reverse, t, k) && InRange(n, k) && !(o.reverse && BoundSkipped(db, n) && k == n.gt.value)
  {
    NativeFacts(db, Continue(o, Some(t)));
    LessTotal(t, k);
  }

  lemma SkipsOrKeeps(reverse: bool, next: seq<Bytes>, rest: seq<Bytes>, skip: bool, bound: Bytes)
    requires Ordered(reverse, next) && Ordered(reverse, rest)
    requires forall k :: k in next <==> k in rest && !(skip && k == bound)
    requires skip ==> forall k :: k in rest ==> k == bound
    ensures if skip then next == [] && (rest == [] || rest == [bound]) else next == rest
  {
    if skip {
      OrderedUnique(reverse, next, []);
      if rest != [] {
        assert rest[0] in rest;
        OrderedUnique(reverse, rest, [bound]);
      }
    } else {
      OrderedUnique(reverse, next, rest);
    }
  }

  /** What a page and the one after it hold when the latter skips, or keeps, the bound of a reverse scan. */
  lemma NextPageMembers(db: Db, o: IteratorOpts, token: Option<Bytes>, p: nat, t: Bytes, rest: seq<Bytes>, skip: bool)
    requires ValidOpts(o) && 0 < p <= |NativeKeys(db, Continue(o, token))|
    requires var keys := NativeKeys(db, Continue(o, token)); t == keys[p - 1] && rest == keys[p..]
    requires skip <==> o.reverse && BoundSkipped(db, Continue(o, Some(t)))
    ensures forall k :: k in NativeKeys(db, Continue(o, Some(t))) <==> k in rest && !(skip && k == o.gt.value)
    ensures o.reverse ==> forall k :: k in rest <==> k in db && InRange(Continue(o, Some(t)), k)
  {
    forall k
      ensures k in NativeKeys(db, Continue(o, Some(t))) <==> k in rest && !(skip && k == o.gt.value)
      ensures o.reverse ==> (k in rest <==> k in db && InRange(Continue(o, Some(t)), k))
    {
      RestOfPage(db, o, token, p, k);
      InNextPage(db, o, t, k);
    }
  }

  lemma TailOrdered(reverse: bool, s: seq<Bytes>, p: nat)
    requires p <= |s| && Ordered(reverse, s)
    ensures Ordered(reverse, s[p..])
  {
  }

  /** The bound is skipped exactly when nothing else is left of a reverse scan. */
  lemma SkipsLastBound(db: Db, n: IteratorOpts, rest: seq<Bytes>)
    requires ValidOpts(n) && n.reverse
    requires forall k :: k in rest <==> k in db && InRange(n, k)
    ensures BoundSkipped(db, n) ==> forall k :: k in rest ==> k == n.gt.value
    ensures n.gt.Some? && rest == [n.gt.value] ==> BoundSkipped(db, n)
  {
  }

  /** The next page starts where this one stopped, unless only the bound of a reverse scan is left. */
  lemma NextPage(db: Db, o: IteratorOpts, token: Option<Bytes>, p: nat)
    requires ValidOpts(o) && 0 < p <= |NativeKeys(db, Continue(o, token))|
    ensures var keys := NativeKeys(db, Continue(o, token));
      NativeKeys(db, Continue(o, Some(keys[p - 1]))) == if OnlyBoundLeft(o, keys[p..]) then [] else keys[p..]
  {
    var keys := NativeKeys(db, Continue(o, token));
    var t, rest := keys[p - 1], keys[p..];
    var n := Continue(o, Some(t));
    var next := NativeKeys(db, n);
    var skip := o.reverse && BoundSkipped(db, n);
    assert Ordered(o.reverse, rest) by {
      NativeFacts(db, Continue(o, token));
      TailOrdered(o.reverse, keys, p);
    }
    assert Ordered(o.reverse, next) by {
      NativeFacts(db, n);
    }
    NextPageMembers(db, o, token, p, t, rest, skip);
    if o.reverse {
      SkipsLastBound(db, n, rest);
    }
    SkipsOrKeeps(o.reverse, next, rest, skip, if o.gt.Some? then o.gt.value else []);
  }

  // ---------------------------------------------------------------- the paged loop

  /** The store as the next page finds it: it changes finitely often while the iteration runs. */
  function Later(snapshots: seq<Db>): (r: seq<Db>)
    requires snapshots != []
    ensures r != []
  {
    if |snapshots| > 1 then snapshots[1..] else snapshots
  }

  /** All keys the paged loop hands to a callback that never stops it. */
  function Visits(snapshots: seq<Db>, o: IteratorOpts, token: Option<Bytes>, p: nat): seq<Bytes>
    requires snapshots != [] && ValidOpts(o) && p > 0
    decreases |snapshots|, |NativeKeys(snapshots[0], Continue(o, token))|
  {
    var keys := NativeKeys(snapshots[0], Continue(o, token));
    if |keys| < p then keys
    else
      NextPage(snapshots[0], o, token, p);
      keys[..p] + Visits(Later(snapshots), o, Some(keys[p - 1]), p)
  }

  /**
   * The callback was asked about a prefix of the keys, call number `i` about the `i`-th, and asked
   * to stop at the last of them and not before, or not at all.
   */
  ghost predicate UpToStop(all: seq<Bytes>, visited: seq<Bytes>, stopped: bool, stop: (nat, Bytes) -> bool) {
    && visited <= all && (stopped ==> visited != [])
    && (forall i :: 0 <= i < |visited| ==> (stop(i, visited[i]) <==> stopped && i == |visited| - 1))
  }

  /** One native call whose callback collects keys until the page is full. */
  method FetchPage(db: Db, o: IteratorOpts, pageSize: nat) returns (page: seq<Bytes>, allFinished: bool)
    requires ValidOpts(o)
    ensures var p := if pageSize > 0 then pageSize else 1; var keys := NativeKeys(db, o);
      allFinished == (|keys| < p) && page == if allFinished then keys else keys[..p]
  {
    var keys := NativeKeys(db, o);
    page := [];
    for i := 0 to |keys|
      invariant page == keys[..i] && (i == 0 || i < pageSize)
    {
      page := page + [keys[i]];
      if |page| >= pageSize {
        return page, false;
      }
    }
    allFinished := true;
  }

  lemma Regroup(a: seq<Bytes>, b: seq<Bytes>, c: seq<Bytes>)
    ensures a + (b + c) == (a + b) + c && a + b <= a + (b + c)
  {
  }

  /** What is left to visit after a page, and that there is less of it. */
  lemma AfterPage(current: seq<Db>, o: IteratorOpts, token: Option<Bytes>, p: nat, page: seq<Bytes>, allFinished: bool)
    requires current != [] && ValidOpts(o) && p > 0
    requires var keys := NativeKeys(current[0], Continue(o, token));
      allFinished == (|keys| < p) && page == if allFinished then keys else keys[..p]
    ensures allFinished ==> Visits(current, o, token, p) == page + []
    ensures !allFinished ==>
      && page != [] && Visits(current, o, token, p) == page + Visits(Later(current), o, Some(page[|page| - 1]), p)
      && |NativeKeys(current[0], Continue(o, Some(page[|page| - 1])))| < |NativeKeys(current[0], Continue(o, token))|
  {
    if !allFinished {
      NextPage(current[0], o, token, p);
    }
  }

  method ForEachIteratorByOpts(snapshots: seq<Db>, o: IteratorOpts, pageSize: nat, stop: (nat, Bytes) -> bool)
    returns (r: Result<bool>, visited: seq<Bytes>)
    requires snapshots != []
    ensures r.Ok? <==> ValidOpts(o)
    ensures r.Ok? ==>
      var all := Visits(snapshots, o, None, if pageSize > 0 then pageSize else 1);
      UpToStop(all, visited, !r.value, stop) && (r.value ==> visited == all)
  {
    visited := [];
    if !ValidOpts(o) {
      return Err, visited;
    }
    ghost var p := if pageSize > 0 then pageSize else 1;
    ghost var all := Visits(snapshots, o, None, p);
    ghost var rest := all;
    var stopped, allFinished, nextPageToken, current := false, false, None, snapshots;
    while !allFinished && !stopped
      invariant current != [] && UpToStop(all, visited, stopped, stop)
      invariant !stopped ==> all == visited + rest
      invariant rest == if allFinished then [] else Visits(current, o, nextPageToken, p)
      decreases !stopped, !allFinished, |current|, |NativeKeys(current[0], Continue(o, nextPageToken))|
    {
      var page;
      page, allFinished := FetchPage(current[0], Continue(o, nextPageToken), pageSize);
      AfterPage(current, o, nextPageToken, p, page, allFinished);
      ghost var rest' := if allFinished then [] else Visits(Later(current), o, Some(page[|page| - 1]), p);
      Regroup(visited, page, rest');
      rest := rest';
      visited, stopped := CallBack(all, page, visited, stop);
      if !allFinished {
        nextPageToken := Some(page[|page| - 1]);
      }
      current := Later(current);
    }
    r := Ok(!stopped && allFinished);
  }

  /** The callback loop over one page. */
  method CallBack(ghost all: seq<Bytes>, page: seq<Bytes>, before: seq<Bytes>, stop: (nat, Bytes) -> bool)
    returns (visited: seq<Bytes>, stopped: bool)
    requires before + page <= all && UpToStop(all, before, false, stop)
    ensures UpToStop(all, visited, stopped, stop) && (!stopped ==> visited == before + page)
  {
    visited, stopped := before, false;
    for i := 0 to |page|
      invariant visited == before + page[..i] && UpToStop(all, visited, false, stop)
    {
      var shouldStop := stop(|visited|, page[i]);
      assert page[..i + 1] == page[..i] + [page[i]];
      assert before + page[..i + 1] == (before + page)[..|before| + i + 1];
      visited := visited + [page[i]];
      if shouldStop {
        return visited, true;
      }
    }
    assert page[..|page|] == page;
  }

  // ---------------------------------------------------------------- a store that does not change

  /** In a reverse scan with a `gt` bound the bound is never the only key a native call visits. */
  lemma BoundNotAlone(db: Db, o: IteratorOpts)
    requires ValidOpts(o) && o.reverse && o.gt.Some?
    ensures NativeKeys(db, o) != [o.gt.value]
  {
    NativeFacts(db, o);
    var keys := NativeKeys(db, o);
    if BoundSkipped(db, o) {
      assert o.gt.value !in keys;
    } else {
      var k :| k in db && InRange(o, k) && k != o.gt.value;
      assert k in keys;
    }
  }

  ghost predicate FillsPages(n: nat, p: nat)
    requires p > 0
  {
    n == 0 || (n >= p && FillsPages(n - p, p))
  }

  /** Whether a page ends just before the `gt` bound of a reverse scan. */
  ghost predicate BoundOnPageEdge(o: IteratorOpts, keys: seq<Bytes>, p: nat)
    requires p > 0
  {
    o.reverse && o.gt.Some? && keys != [] && keys[|keys| - 1] == o.gt.value && FillsPages(|keys| - 1, p)
  }

  /** What paging visits of the keys that one native call would visit. */
  ghost function Kept(o: IteratorOpts, keys: seq<Bytes>, p: nat): seq<Bytes>
    requires p > 0
  {
    if BoundOnPageEdge(o, keys, p) then keys[..|keys| - 1] else keys
  }

  lemma KeptStep(o: IteratorOpts, keys: seq<Bytes>, p: nat)
    requires 0 < p <= |keys| && (o.reverse && o.gt.Some? ==> keys != [o.gt.value])
    ensures var rest := keys[p..];
      Kept(o, keys, p) == keys[..p] + Kept(o, if OnlyBoundLeft(o, rest) then [] else rest, p)
  {
    var rest := keys[p..];
    assert keys == keys[..p] + rest;
    if rest != [] {
      assert keys[|keys| - 1] == rest[|rest| - 1];
      assert FillsPages(|keys| - 1, p) == FillsPages(|rest| - 1, p);
      assert keys[..|keys| - 1] == keys[..p] + rest[..|rest| - 1];
    } else {
      assert |keys| == 1 ==> keys == [keys[0]];
    }
  }

  lemma {:induction false} FixedVisits(db: Db, o: IteratorOpts, token: Option<Bytes>, p: nat)
    requires ValidOpts(o) && p > 0
    ensures Visits([db], o, token, p) == Kept(o, NativeKeys(db, Continue(o, token)), p)
    decreases |NativeKeys(db, Continue(o, token))|
  {
    var keys := NativeKeys(db, Continue(o, token));
    if o.reverse && o.gt.Some? {
      BoundNotAlone(db, Continue(o, token));
    }
    if |keys| >= p {
      NextPage(db, o, token, p);
      FixedVisits(db, o, Some(keys[p - 1]), p);
      KeptStep(o, keys, p);
    } else {
      assert |keys| == 1 ==> keys == [keys[0]];
    }
  }

  /**
   * On a store that does not change, paging visits exactly what one unpaged native call visits, in
   * the same order, unless a page ends just before the `gt` bound of a reverse scan.
   */
  lemma PagedIsUnpaged(db: Db, o: IteratorOpts, p: nat)
    requires ValidOpts(o) && p > 0
    ensures Visits([db], o, None, p) == NativeKeys(db, o) <==> !BoundOnPageEdge(o, NativeKeys(db, o), p)
  {
    FixedVisits(db, o, None, p);
  }

  /** Two keys in reverse, one a page: paging loses the bound that the unpaged call visits. */
  lemma PagingLosesBound(db: Db, o: IteratorOpts)
    requires db == [[1], [2]] && o == IteratorOpts(true, None, Some([1]), [3])
    ensures NativeKeys(db, o) == [[2], [1]] && Visits([db], o, None, 1) == [[2]]
  {
    var expected: seq<Bytes> := [[2], [1]];
    NativeFacts(db, o);
    forall k
      ensures k in NativeKeys(db, o) <==> k in expected
    {
      assert [2] in db && InRange(o, [2]) && InRange(o, [1]);
    }
    OrderedUnique(true, NativeKeys(db, o), expected);
    FixedVisits(db, o, None, 1);
    assert FillsPages(1, 1);
  }

  // ---------------------------------------------------------------- a store that changes between pages

  lemma BeforeTransitive(reverse: bool, a: Bytes, b: Bytes, c: Bytes)
    requires Before(reverse, a, b) && Before(reverse, b, c)
    ensures Before(reverse, a, c)
  {
    if reverse {
      LessTransitive(c, b, a);
    } else {
      LessTransitive(a, b, c);
    }
  }

  ghost predicate AllAfter(reverse: bool, token: Option<Bytes>, s: seq<Bytes>) {
    token.Some? ==> forall i :: 0 <= i < |s| ==> Before(reverse, token.value, s[i])
  }

  /** A page, then keys that all come after its last one. */
  lemma OrderedJoin(reverse: bool, token: Option<Bytes>, keys: seq<Bytes>, p: nat, rest: seq<Bytes>)
    requires 0 < p <= |keys| && Ordered(reverse, keys) && Ordered(reverse, rest)
    requires AllAfter(reverse, token, keys) && AllAfter(reverse, Some(keys[p - 1]), rest)
    ensures Ordered(reverse, keys[..p] + rest) && AllAfter(reverse, token, keys[..p] + rest)
  {
    var last := keys[p - 1];
    forall x, j | Before(reverse, x, last) && 0 <= j < |rest|
      ensures Before(reverse, x, rest[j])
    {
      BeforeTransitive(reverse, x, last, rest[j]);
    }
  }

  lemma PageOrdered(db: Db, o: IteratorOpts, token: Option<Bytes>)
    requires ValidOpts(o)
    ensures var keys := NativeKeys(db, Continue(o, token)); Ordered(o.reverse, keys) && AllAfter(o.reverse, token, keys)
  {
    var keys := NativeKeys(db, Continue(o, token));
    NativeFacts(db, Continue(o, token));
    if token.Some? {
      forall i | 0 <= i < |keys|
        ensures Before(o.reverse, token.value, keys[i])
      {
        InNextPage(db, o, token.value, keys[i]);
        assert keys[i] in keys;
      }
    }
  }

  /** However the store changes between pages, the keys visited are strictly ordered, so none repeats. */
  lemma {:induction false} VisitsOrdered(snapshots: seq<Db>, o: IteratorOpts, token: Option<Bytes>, p: nat)
    requires snapshots != [] && ValidOpts(o) && p > 0
    ensures Ordered(o.reverse, Visits(snapshots, o, token, p))
    ensures AllAfter(o.reverse, token, Visits(snapshots, o, token, p))
    decreases |snapshots|, |NativeKeys(snapshots[0], Continue(o, token))|
  {
    var keys := NativeKeys(snapshots[0], Continue(o, token));
    PageOrdered(snapshots[0], o, token);
    if |keys| >= p {
      NextPage(snapshots[0], o, token, p);
      VisitsOrdered(Later(snapshots), o, Some(keys[p - 1]), p);
      OrderedJoin(o.reverse, token, keys, p, Visits(Later(snapshots), o, Some(keys[p - 1]), p));
    }
  }

  /** A key present throughout is visited, except a `gt` bound. */
  lemma {:induction false} VisitsComplete(snapshots: seq<Db>, o: IteratorOpts, token: Option<Bytes>, p: nat, k: Bytes)
    requires snapshots != [] && ValidOpts(o) && p > 0
    requires forall i :: 0 <= i < |snapshots| ==> k in snapshots[i]
    requires InRange(Continue(o, token), k) && (token.Some? ==> Before(o.reverse, token.value, k))
    requires o.gt.Some? ==> k != o.gt.value
    ensures k in Visits(snapshots, o, token, p)
    decreases |snapshots|, |NativeKeys(snapshots[0], Continue(o, token))|
  {
    var keys := NativeKeys(snapshots[0], Continue(o, token));
    NativeFacts(snapshots[0], Continue(o, token));
    if token.Some? {
      LessTotal(token.value, k);
    }
    assert k in keys;
    if |keys| >= p {
      NextPage(snapshots[0], o, token, p);
      RestOfPage(snapshots[0], o, token, p, k);
      assert keys == keys[..p] + keys[p..];
      if k in keys[p..] {
        VisitsComplete(Later(snapshots), o, Some(keys[p - 1]), p, k);
      }
    }
  }

  /** Every visited key lies in the requested range and was in the store when its page was read. */
  lemma {:induction false} VisitsSound(snapshots: seq<Db>, o: IteratorOpts, token: Option<Bytes>, p: nat, k: Bytes)
    requires snapshots != [] && ValidOpts(o) && p > 0
    requires k in Visits(snapshots, o, token, p)
    ensures InRange(Continue(o, token), k) && exists i :: 0 <= i < |snapshots| && k in snapshots[i]
    decreases |snapshots|, |NativeKeys(snapshots[0], Continue(o, token))|
  {
    var keys := NativeKeys(snapshots[0], Continue(o, token));
    NativeFacts(snapshots[0], Continue(o, token));
    if |keys| >= p && k !in keys[..p] {
      var t := keys[p - 1];
      assert t in keys;
      NextPage(snapshots[0], o, token, p);
      VisitsSound(Later(snapshots), o, Some(t), p, k);
      VisitsOrdered(Later(snapshots), o, Some(t), p);
      BeyondToken(o, token, t, k);
      var i :| 0 <= i < |Later(snapshots)| && k in Later(snapshots)[i];
      assert k in snapshots[if |snapshots| > 1 then i + 1 else i];
    } else {
      assert k in snapshots[0];
    }
  }
}
