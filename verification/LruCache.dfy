/** The double-buffer cache (apps/hubble/src/utils/lruCache.ts), for gets that do not overlap. */
module LruCache {
  import opened Wrappers

  /** The two buffers. */
  datatype Buffers<K, V> = Buffers(current: map<K, V>, prev: map<K, V>)

  /** A full current buffer becomes the previous one. */
  function Rotate<K, V>(b: Buffers<K, V>, maxSize: nat): Buffers<K, V> {
    if |b.current| >= maxSize then Buffers(map[], b.current) else b
  }

  /** The buffers after a get whose loader, if it is called, answers `loaded`. */
  function AfterGet<K, V>(b: Buffers<K, V>, maxSize: nat, key: K, loaded: Result<V>): Buffers<K, V> {
    var r := Rotate(b, maxSize);
    if key in r.current then r
    else if key in r.prev then Buffers(r.current[key := r.prev[key]], r.prev - {key})
    else if loaded.Ok? then Buffers(r.current[key := loaded.value], r.prev)
    else r
  }

  function Answer<K, V>(b: Buffers<K, V>, maxSize: nat, key: K, loaded: Result<V>): Result<V> {
    var r := Rotate(b, maxSize);
    if key in r.current then Ok(r.current[key]) else if key in r.prev then Ok(r.prev[key]) else loaded
  }

  function Without<K, V>(b: Buffers<K, V>, key: K): Buffers<K, V> {
    Buffers(b.current - {key}, b.prev - {key})
  }

  /** The buffers share no key and neither outgrows the limit. */
  ghost predicate WellFormed<K, V>(b: Buffers<K, V>, maxSize: nat) {
    && b.current.Keys !! b.prev.Keys
    && |b.current| <= Limit(maxSize) && |b.prev| <= Limit(maxSize)
  }

  function Limit(maxSize: nat): nat {
    if maxSize > 0 then maxSize else 1
  }

  class LRUCache<K(==), V> {
    const maxSize: nat
    var current: map<K, V>
    var prev: map<K, V>

    ghost predicate Valid()
      reads this
    {
      WellFormed(Buffers(current, prev), maxSize)
    }

    constructor (maxSize: nat)
      ensures Valid() && current == map[] && prev == map[] && this.maxSize == maxSize
    {
      this.maxSize := maxSize;
      current, prev := map[], map[];
    }

    /** `loaded` is what the loader returns, or that it throws; it is used only on a miss. */
    method Get(key: K, loaded: Result<V>) returns (value: Result<V>)
      requires Valid()
      modifies this
      ensures Valid()
      ensures Buffers(current, prev) == AfterGet(old(Buffers(current, prev)), maxSize, key, loaded)
      ensures value == Answer(old(Buffers(current, prev)), maxSize, key, loaded)
    {
      GetKeepsWellFormed(Buffers(current, prev), maxSize, key, loaded);
      if |current| >= maxSize {
        prev := current;
        current := map[];
      }
      if key in current {
        return Ok(current[key]);
      }
      if key in prev {
        value := Ok(prev[key]);
        prev := prev - {key};
        current := current[key := value.value];
      } else {
        value := loaded;
        if value.Ok? {
          current := current[key := value.value];
        }
      }
    }

    method Invalidate(key: K)
      requires Valid()
      modifies this
      ensures Valid() && Buffers(current, prev) == Without(old(Buffers(current, prev)), key)
    {
      RemoveSize(current, key);
      RemoveSize(prev, key);
      current := current - {key};
      prev := prev - {key};
    }

    method Clear()
      modifies this
      ensures Valid() && current == map[] && prev == map[]
    {
      current, prev := map[], map[];
    }
  }

  lemma RemoveSize<K, V>(m: map<K, V>, key: K)
    ensures |m - {key}| <= |m|
  {
    assert (m - {key}).Keys == m.Keys - {key};
    assert |m.Keys - {key}| <= |m.Keys|;
  }

  lemma AddSize<K, V>(m: map<K, V>, key: K, v: V)
    requires key !in m
    ensures |m[key := v]| == |m| + 1
  {
    assert m[key := v].Keys == m.Keys + {key};
  }

  lemma GetKeepsWellFormed<K, V>(b: Buffers<K, V>, maxSize: nat, key: K, loaded: Result<V>)
    requires WellFormed(b, maxSize)
    ensures WellFormed(AfterGet(b, maxSize, key, loaded), maxSize)
  {
    var r := Rotate(b, maxSize);
    if key !in r.current {
      RemoveSize(r.prev, key);
      if key in r.prev {
        AddSize(r.current, key, r.prev[key]);
      } else if loaded.Ok? {
        AddSize(r.current, key, loaded.value);
      }
    }
  }

  // ---------------------------------------------------------------- runs of gets, changes and clears

  /** A read whose loader may throw; a change of the source followed by an invalidation; a clear. */
  datatype Op<K, V> = Read(key: K, throws: bool) | Change(key: K, value: V) | ClearAll

  datatype Run<K, V> = Run(buffers: Buffers<K, V>, source: map<K, V>)

  /** The loader answers from the source. */
  function Load<K(==), V>(source: map<K, V>, key: K, throws: bool): Result<V> {
    if key in source && !throws then Ok(source[key]) else Err
  }

  function Next<K(==), V>(s: Run<K, V>, maxSize: nat, op: Op<K, V>): Run<K, V> {
    match op
    case Read(key, throws) => s.(buffers := AfterGet(s.buffers, maxSize, key, Load(s.source, key, throws)))
    case Change(key, value) => Run(Without(s.buffers, key), s.source[key := value])
    case ClearAll => s.(buffers := Buffers(map[], map[]))
  }

  function After<K(==), V>(s: Run<K, V>, maxSize: nat, ops: seq<Op<K, V>>): Run<K, V> {
    if ops == [] then s else Next(After(s, maxSize, ops[..|ops| - 1]), maxSize, ops[|ops| - 1])
  }

  /** What is cached is what the source holds. */
  ghost predicate Agrees<K, V>(s: Run<K, V>) {
    && (forall k :: k in s.buffers.current ==> k in s.source && s.buffers.current[k] == s.source[k])
    && (forall k :: k in s.buffers.prev ==> k in s.source && s.buffers.prev[k] == s.source[k])
  }

  lemma {:induction false} RunsAgree<K, V>(s: Run<K, V>, maxSize: nat, ops: seq<Op<K, V>>)
    requires Agrees(s)
    ensures Agrees(After(s, maxSize, ops))
  {
    if ops != [] {
      RunsAgree(s, maxSize, ops[..|ops| - 1]);
    }
  }

  /** After any run, a get answers with the source's value, or fails because its load failed. */
  lemma GetAnswersSource<K, V>(source: map<K, V>, maxSize: nat, ops: seq<Op<K, V>>, key: K, throws: bool)
    ensures var s := After(Run(Buffers(map[], map[]), source), maxSize, ops);
      var answer := Answer(s.buffers, maxSize, key, Load(s.source, key, throws));
      (answer.Ok? ==> key in s.source && answer.value == s.source[key]) && (answer.Err? ==> throws || key !in s.source)
  {
    RunsAgree(Run(Buffers(map[], map[]), source), maxSize, ops);
  }

  // ---------------------------------------------------------------- retention

  /** The keys other than `key` that a sequence of reads touches. */
  function Others<K>(gets: seq<(K, bool)>, key: K): set<K> {
    set r | r in gets && r.0 != key :: r.0
  }

  function AfterReads<K(==), V>(b: Buffers<K, V>, source: map<K, V>, maxSize: nat, gets: seq<(K, bool)>): Buffers<K, V> {
    if gets == [] then b
    else
      var n := |gets| - 1;
      AfterGet(AfterReads(b, source, maxSize, gets[..n]), maxSize, gets[n].0, Load(source, gets[n].0, gets[n].1))
  }

  /** A key is held, and once it is in the previous buffer only newly read keys are in the current one. */
  ghost predicate Held<K, V>(b: Buffers<K, V>, key: K, others: set<K>) {
    key in b.current || (key in b.prev && b.current.Keys <= others)
  }

  lemma OneReadHolds<K, V>(b: Buffers<K, V>, maxSize: nat, key: K, others: set<K>, x: K, loaded: Result<V>)
    requires Held(b, key, others) && |others| < maxSize
    ensures Held(AfterGet(b, maxSize, x, loaded), key, if x == key then others else others + {x})
  {
    if key !in b.current {
      assert |b.current| <= |others| by {
        assert others == b.current.Keys + (others - b.current.Keys);
      }
    }
  }

  /**
   * A key just read is still cached after any reads that touch fewer than `maxSize` distinct other
   * keys.
   */
  lemma {:induction false} JustReadIsRetained<K, V>(b: Buffers<K, V>, source: map<K, V>, maxSize: nat, key: K, gets: seq<(K, bool)>)
    requires key in b.current && |Others(gets, key)| < maxSize
    ensures Held(AfterReads(b, source, maxSize, gets), key, Others(gets, key))
  {
    if gets != [] {
      var n := |gets| - 1;
      var x := gets[n].0;
      var before := Others(gets[..n], key);
      assert gets == gets[..n] + [gets[n]];
      assert Others(gets, key) == if x == key then before else before + {x};
      assert |before| <= |Others(gets, key)| by {
        assert Others(gets, key) == before + (Others(gets, key) - before);
      }
      JustReadIsRetained(b, source, maxSize, key, gets[..n]);
      OneReadHolds(AfterReads(b, source, maxSize, gets[..n]), maxSize, key, before, x, Load(source, x, gets[n].1));
    }
  }

  /** A get that succeeds leaves its key in the current buffer, with the value answered. */
  lemma GetHolds<K, V>(b: Buffers<K, V>, maxSize: nat, key: K, loaded: Result<V>)
    ensures var answer, after := Answer(b, maxSize, key, loaded), AfterGet(b, maxSize, key, loaded);
      answer.Ok? ==> key in after.current && after.current[key] == answer.value
    ensures key in b.current ==> Answer(b, maxSize, key, loaded) == Ok(b.current[key])
  {
  }

  lemma HeldNeedsNoLoad<K, V>(b: Buffers<K, V>, maxSize: nat, key: K, others: set<K>)
    requires Held(b, key, others) && |others| < maxSize
    ensures Answer(b, maxSize, key, Err).Ok?
  {
    if key !in b.current {
      assert |b.current| <= |others| by {
        assert others == b.current.Keys + (others - b.current.Keys);
      }
    }
  }

  /** After a successful get, and reads of fewer than `maxSize` other keys, the key is answered though no load succeeds. */
  lemma ReadAgainNeedsNoLoad<K, V>(
    b: Buffers<K, V>, source: map<K, V>, maxSize: nat, key: K, loaded: Result<V>, gets: seq<(K, bool)>)
    requires Answer(b, maxSize, key, loaded).Ok? && |Others(gets, key)| < maxSize
    ensures Answer(AfterReads(AfterGet(b, maxSize, key, loaded), source, maxSize, gets), maxSize, key, Err).Ok?
  {
    var after := AfterGet(b, maxSize, key, loaded);
    GetHolds(b, maxSize, key, loaded);
    JustReadIsRetained(after, source, maxSize, key, gets);
    HeldNeedsNoLoad(AfterReads(after, source, maxSize, gets), maxSize, key, Others(gets, key));
  }

  // ---------------------------------------------------------------- the bound is tight

  /** The keys of the current buffer after a get whose load, if it is needed, succeeds. */
  function CurrentAfterGet(current: set<nat>, maxSize: nat, key: nat): set<nat> {
    (if |current| >= maxSize then {} else current) + {key}
  }

  lemma PutKeys<V>(m: map<nat, V>, key: nat, v: V)
    ensures m[key := v].Keys == m.Keys + {key}
  {
  }

  lemma RotatedKeys<V>(b: Buffers<nat, V>, maxSize: nat)
    ensures Rotate(b, maxSize).current.Keys == if |b.current.Keys| >= maxSize then {} else b.current.Keys
    ensures |b.current.Keys| >= maxSize ==> Rotate(b, maxSize).prev == b.current
  {
    assert |b.current| == |b.current.Keys|;
  }

  lemma GetKeys<V>(b: Buffers<nat, V>, maxSize: nat, key: nat, loaded: Result<V>)
    requires loaded.Ok?
    ensures AfterGet(b, maxSize, key, loaded).current.Keys == CurrentAfterGet(b.current.Keys, maxSize, key)
    ensures |b.current.Keys| >= maxSize ==> AfterGet(b, maxSize, key, loaded).prev.Keys <= b.current.Keys
  {
    RotatedKeys(b, maxSize);
    var r := Rotate(b, maxSize);
    if key in r.current {
      assert r.current.Keys + {key} == r.current.Keys;
    } else if key in r.prev {
      PutKeys(r.current, key, r.prev[key]);
      assert (r.prev - {key}).Keys <= r.prev.Keys;
    } else {
      PutKeys(r.current, key, loaded.value);
    }
  }

  function CurrentAfterReads(current: set<nat>, maxSize: nat, gets: seq<(nat, bool)>): set<nat> {
    if gets == [] then current
    else CurrentAfterGet(CurrentAfterReads(current, maxSize, gets[..|gets| - 1]), maxSize, gets[|gets| - 1].0)
  }

  lemma {:induction false} ReadKeys<V>(b: Buffers<nat, V>, source: map<nat, V>, maxSize: nat, gets: seq<(nat, bool)>)
    requires forall i :: 0 <= i < |gets| ==> Load(source, gets[i].0, gets[i].1).Ok?
    ensures AfterReads(b, source, maxSize, gets).current.Keys == CurrentAfterReads(b.current.Keys, maxSize, gets)
  {
    if gets != [] {
      var n := |gets| - 1;
      ReadKeys(b, source, maxSize, gets[..n]);
      GetKeys(AfterReads(b, source, maxSize, gets[..n]), maxSize, gets[n].0, Load(source, gets[n].0, gets[n].1));
    }
  }

  lemma {:induction false} ReadsAppend(current: set<nat>, maxSize: nat, a: seq<(nat, bool)>, c: seq<(nat, bool)>)
    ensures CurrentAfterReads(current, maxSize, a + c) == CurrentAfterReads(CurrentAfterReads(current, maxSize, a), maxSize, c)
  {
    if c == [] {
      assert a + c == a;
    } else {
      var n := |c| - 1;
      ReadsAppend(current, maxSize, a, c[..n]);
      assert (a + c)[..|a + c| - 1] == a + c[..n];
    }
  }

  lemma ReadOneMore(current: set<nat>, maxSize: nat, gets: seq<(nat, bool)>, last: (nat, bool))
    ensures CurrentAfterReads(current, maxSize, gets + [last]) ==
      CurrentAfterGet(CurrentAfterReads(current, maxSize, gets), maxSize, last.0)
  {
    assert (gets + [last])[..|gets|] == gets;
  }

  /** Reads of the keys 1 to `n`, in order. */
  function ReadUpTo(n: nat): (gets: seq<(nat, bool)>)
    ensures |gets| == n && forall i :: 0 <= i < n ==> gets[i] == (i + 1, false)
  {
    if n == 0 then [] else ReadUpTo(n - 1) + [(n, false)]
  }

  /** The keys 1 to `m`, then all but the last of them again, then one of them. */
  function TightReads(m: nat): seq<(nat, bool)>
    requires m >= 1
  {
    ReadUpTo(m) + ReadUpTo(m - 1) + [(1, false)]
  }

  /** `key` and the numbers from 1 to `n`. */
  function KeyAndUpTo(key: nat, n: nat): (s: set<nat>)
    requires key == 0 || key > n
    ensures |s| == n + 1 && forall i :: i in s <==> i == key || 1 <= i <= n
  {
    if n == 0 then {key} else KeyAndUpTo(key, n - 1) + {n}
  }

  /** As long as there is room, reads fill the current buffer. */
  lemma {:induction false} Fill(key: nat, m: nat, n: nat)
    requires n < m && (key == 0 || key > n)
    ensures CurrentAfterReads({key}, m, ReadUpTo(n)) == KeyAndUpTo(key, n)
  {
    if n > 0 {
      Fill(key, m, n - 1);
      ReadOneMore({key}, m, ReadUpTo(n - 1), (n, false));
      assert |KeyAndUpTo(key, n - 1)| < m;
    }
  }

  /** Before the last read the current buffer is full and 0 is not in it. */
  lemma TightKeys(m: nat)
    requires m >= 1
    ensures CurrentAfterReads({0}, m, ReadUpTo(m) + ReadUpTo(m - 1)) == KeyAndUpTo(m, m - 1)
  {
    var first := ReadUpTo(m);
    ReadsAppend({0}, m, first, ReadUpTo(m - 1));
    Fill(0, m, m - 1);
    ReadOneMore({0}, m, ReadUpTo(m - 1), (m, false));
    assert CurrentAfterReads({0}, m, first) == {m};
    Fill(m, m, m - 1);
  }

  lemma OthersReadUpTo(n: nat)
    ensures Others(ReadUpTo(n), 0) == KeyAndUpTo(0, n) - {0}
  {
    forall i | 1 <= i <= n
      ensures i in Others(ReadUpTo(n), 0)
    {
      assert ReadUpTo(n)[i - 1] in ReadUpTo(n);
    }
  }

  lemma OthersAppend(a: seq<(nat, bool)>, c: seq<(nat, bool)>)
    ensures Others(a + c, 0) == Others(a, 0) + Others(c, 0)
  {
  }

  /** The reads touch `m` keys beside 0. */
  lemma TightOthers(m: nat)
    requires m >= 1
    ensures |Others(TightReads(m), 0)| == m
  {
    OthersReadUpTo(m);
    OthersReadUpTo(m - 1);
    OthersAppend(ReadUpTo(m), ReadUpTo(m - 1));
    OthersAppend(ReadUpTo(m) + ReadUpTo(m - 1), [(1, false)]);
    assert Others(TightReads(m), 0) == KeyAndUpTo(0, m) - {0};
  }

  /** For every size, reads that touch just `maxSize` other keys drop a key that was just read. */
  lemma RetentionIsTight<V>(source: map<nat, V>, maxSize: nat, v: V)
    requires maxSize >= 1 && forall i :: 1 <= i <= maxSize ==> i in source
    ensures |Others(TightReads(maxSize), 0)| == maxSize
    ensures var after := AfterReads(Buffers(map[0 := v], map[]), source, maxSize, TightReads(maxSize));
      0 !in after.current && 0 !in after.prev
  {
    var b, gets := Buffers(map[0 := v], map[]), ReadUpTo(maxSize) + ReadUpTo(maxSize - 1);
    TightOthers(maxSize);
    TightKeys(maxSize);
    ReadKeys(b, source, maxSize, gets);
    assert b.current.Keys == {0};
    var full := AfterReads(b, source, maxSize, gets);
    assert TightReads(maxSize)[..|gets|] == gets;
    var after := AfterGet(full, maxSize, 1, Load(source, 1, false));
    GetKeys(full, maxSize, 1, Load(source, 1, false));
    assert 0 !in after.current.Keys && 0 !in after.prev.Keys;
  }
}
