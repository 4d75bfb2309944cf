/** The map whose entries expire (apps/hubble/src/utils/ttl_map.ts). Times are the readings of one clock. */
module TtlMap {
  import opened Sequences
  import opened Wrappers

  datatype Entry<V> = Entry(value: V, expiresAt: int)

  /** What was last set under a key, and when it was last set or had its lifetime reset. */
  datatype Touch<V> = Touch(value: V, at: int)

  ghost predicate Consistent<K, V>(entries: map<K, Entry<V>>, touches: map<K, Touch<V>>, ttl: int, clock: int) {
    && (forall k :: k in entries ==> k in touches && entries[k] == Entry(touches[k].value, touches[k].at + ttl))
    && (forall k :: k in touches && clock < touches[k].at + ttl ==> k in entries)
  }

  lemma DeleteConsistent<K, V>(entries: map<K, Entry<V>>, touches: map<K, Touch<V>>, ttl: int, clock: int, key: K, now: int)
    requires Consistent(entries, touches, ttl, clock) && clock <= now
    ensures Consistent(entries - {key}, touches - {key}, ttl, now)
    ensures |entries - {key}| == if key in entries then |entries| - 1 else |entries|
  {
    if key in entries {
      DropSize(entries, key);
    } else {
      assert entries - {key} == entries;
    }
  }

  class TTLMap<K(==), V(==)> {
    const ttl: int
    const cleanupInterval: int
    var entries: map<K, Entry<V>>
    var lastCleanup: int
    var nonExpiredCount: int
    /** The sets and successful resets not followed by a delete or clear, and the latest clock reading. */
    ghost var touches: map<K, Touch<V>>
    ghost var clock: int
    /** How many expired entries were deleted since the count was last recomputed or cleared. */
    ghost var drift: nat

    /**
     * Stored entries come from touches and expire `ttl` after them; a touch still alive at the
     * clock is stored; the count exceeds the number of entries by the drift.
     */
    ghost predicate Valid()
      reads this
    {
      && Consistent(entries, touches, ttl, clock)
      && nonExpiredCount == |entries| + drift
      && lastCleanup <= clock
    }

    /** The value a key has at time `t`. */
    ghost function Live(key: K, t: int): Option<V>
      reads this
    {
      if key in touches && t - touches[key].at < ttl then Some(touches[key].value) else None
    }

    /** A key is alive exactly when an entry is stored that has not expired. */
    lemma LiveIsStored(key: K, now: int)
      requires Valid() && clock <= now
      ensures Live(key, now).Some? <==> key in entries && entries[key].expiresAt > now
    {
    }

    constructor (ttl: nat, cleanupInterval: nat, now: int)
      ensures Valid() && entries == map[] && touches == map[] && clock == lastCleanup == now && drift == 0 && this.ttl == ttl
      ensures this.cleanupInterval == if cleanupInterval > 0 then cleanupInterval else ttl / 2
    {
      this.ttl := ttl;
      this.cleanupInterval := if cleanupInterval > 0 then cleanupInterval else ttl / 2;
      entries, lastCleanup, nonExpiredCount := map[], now, 0;
      touches, clock, drift := map[], now, 0;
    }

    /** Reads the clock twice, the second time in the cleanup. */
    method Set(key: K, value: V, now: int, later: int)
      requires Valid() && clock <= now <= later
      modifies this
      ensures Valid() && touches == old(touches)[key := Touch(value, now)] && clock == later
      ensures drift == if later - old(lastCleanup) > cleanupInterval then 0 else old(drift)
      ensures lastCleanup == if later - old(lastCleanup) > cleanupInterval then later else old(lastCleanup)
      ensures later - old(lastCleanup) <= cleanupInterval ==> entries == old(entries)[key := Entry(value, now + ttl)]
      ensures later - old(lastCleanup) > cleanupInterval ==> entries.Keys == LiveKeys(later)
    {
      if key !in entries {
        nonExpiredCount := nonExpiredCount + 1;
      }
      PutSize(entries, key, Entry(value, now + ttl));
      entries := entries[key := Entry(value, now + ttl)];
      touches, clock := touches[key := Touch(value, now)], now;
      CleanupIfNeeded(later);
    }

    method Get(key: K, now: int) returns (value: Option<V>)
      requires Valid() && clock <= now
      modifies this
      ensures Valid() && touches == old(touches) && clock == now && drift == old(drift) && lastCleanup == old(lastCleanup)
      ensures value == Live(key, now)
      ensures entries == if value.Some? then old(entries) else old(entries) - {key}
    {
      clock := now;
      if key in entries {
        if entries[key].expiresAt > now {
          return Some(entries[key].value);
        }
        DropSize(entries, key);
        entries := entries - {key};
        nonExpiredCount := nonExpiredCount - 1;
      }
      value := None;
    }

    method Delete(key: K, now: int) returns (deleted: bool)
      requires Valid() && clock <= now
      modifies this
      ensures Valid() && touches == old(touches) - {key} && clock == now && lastCleanup == old(lastCleanup)
      ensures old(Live(key, now)).Some? ==> deleted
      ensures deleted <==> key in old(entries)
      ensures entries == old(entries) - {key}
      ensures drift == if deleted && old(Live(key, now)).None? then old(drift) + 1 else old(drift)
    {
      LiveIsStored(key, now);
      DeleteConsistent(entries, touches, ttl, clock, key, now);
      deleted := key in entries;
      if deleted {
        if entries[key].expiresAt > now {
          nonExpiredCount := nonExpiredCount - 1;
        } else {
          drift := drift + 1;
        }
      }
      entries, touches, clock := entries - {key}, touches - {key}, now;
    }

    /** Revives an entry that has expired but is still stored. */
    method ResetTTL(key: K, now: int) returns (reset: bool)
      requires Valid() && clock <= now
      modifies this
      ensures Valid() && clock == now && drift == old(drift) && lastCleanup == old(lastCleanup)
      ensures old(Live(key, now)).Some? ==> reset
      ensures reset <==> key in old(entries)
      ensures reset ==> key in old(touches) && touches == old(touches)[key := Touch(old(touches)[key].value, now)]
      ensures !reset ==> touches == old(touches)
      ensures entries.Keys == old(entries).Keys
    {
      clock := now;
      if key in entries {
        touches := touches[key := Touch(touches[key].value, now)];
        PutSize(entries, key, Entry(entries[key].value, now + ttl));
        entries := entries[key := Entry(entries[key].value, now + ttl)];
        return true;
      }
      reset := false;
    }

    /** Reads the clock twice, the first time in the cleanup. */
    method GetAll(now: int, later: int) returns (all: seq<(K, V)>)
      requires Valid() && clock <= now <= later
      modifies this
      ensures Valid() && touches == old(touches) && clock == later
      ensures drift == if now - old(lastCleanup) > cleanupInterval then 0 else old(drift)
      ensures lastCleanup == if now - old(lastCleanup) > cleanupInterval then now else old(lastCleanup)
      ensures now - old(lastCleanup) <= cleanupInterval ==> entries == old(entries)
      ensures now - old(lastCleanup) > cleanupInterval ==> entries.Keys == LiveKeys(now)
      ensures forall k, v :: (k, v) in all <==> Live(k, later) == Some(v)
      ensures forall i, j :: 0 <= i < j < |all| ==> all[i].0 != all[j].0
    {
      CleanupIfNeeded(now);
      clock := later;
      all := Pairs(later);
      forall k, v
        ensures (k, v) in all <==> Live(k, later) == Some(v)
      {
      }
    }

    /** The stored pairs that have not expired. */
    method Pairs(now: int) returns (all: seq<(K, V)>)
      ensures forall k, v :: (k, v) in all <==> k in entries && entries[k].expiresAt > now && entries[k].value == v
      ensures forall i, j :: 0 <= i < j < |all| ==> all[i].0 != all[j].0
    {
      var live := set k | k in entries && entries[k].expiresAt > now;
      var keys := InSomeOrder(live);
      assert forall k :: k in keys <==> k in multiset(keys);
      all := [];
      for i := 0 to |keys|
        invariant |all| == i && forall j :: 0 <= j < i ==> keys[j] in entries && all[j] == (keys[j], entries[keys[j]].value)
      {
        assert keys[i] in multiset(keys);
        all := all + [(keys[i], entries[keys[i]].value)];
      }
      forall k, v
        ensures (k, v) in all <==> k in live && entries[k].value == v
      {
        if k in live && entries[k].value == v {
          assert k in keys;
          var i :| 0 <= i < |keys| && keys[i] == k;
          assert all[i] == (k, v);
        }
        if (k, v) in all {
          var i :| 0 <= i < |all| && all[i] == (k, v);
          assert keys[i] in multiset(keys);
        }
      }
    }

    method Clear()
      requires Valid()
      modifies this
      ensures Valid() && entries == map[] && touches == map[] && nonExpiredCount == 0 && drift == 0
      ensures clock == old(clock) && lastCleanup == old(lastCleanup)
    {
      entries, nonExpiredCount, touches, drift := map[], 0, map[], 0;
    }

    /** The keys alive at time `t`. */
    ghost function LiveKeys(t: int): set<K>
      reads this
    {
      set k | k in touches && Live(k, t).Some?
    }

    /**
     * The count: the live entries, the expired ones still stored, and the drift. It is the number
     * of live entries exactly when no expired entry is stored and none was deleted.
     */
    method Size(now: int) returns (size: int)
      requires Valid() && clock <= now
      modifies this
      ensures Valid() && touches == old(touches) && clock == now
      ensures size == |LiveKeys(now)| + |entries.Keys - LiveKeys(now)| + drift
      ensures drift == if now - old(lastCleanup) > cleanupInterval then 0 else old(drift)
      ensures lastCleanup == if now - old(lastCleanup) > cleanupInterval then now else old(lastCleanup)
      ensures now - old(lastCleanup) <= cleanupInterval ==> entries == old(entries)
      ensures now - old(lastCleanup) > cleanupInterval ==> entries.Keys == LiveKeys(now)
      ensures size == |LiveKeys(now)| <==> entries.Keys <= LiveKeys(now) && drift == 0
      ensures now - old(lastCleanup) > cleanupInterval ==> size == |LiveKeys(now)|
    {
      CleanupIfNeeded(now);
      ghost var live := LiveKeys(now);
      assert live <= entries.Keys;
      assert entries.Keys == live + (entries.Keys - live);
      size := nonExpiredCount;
    }

    /** Deletes what has expired and counts the rest. */
    method Sweep(now: int) returns (nonExpired: nat)
      modifies this`entries
      ensures forall k :: k in entries <==> k in old(entries) && old(entries)[k].expiresAt > now
      ensures forall k :: k in entries ==> entries[k] == old(entries)[k]
      ensures nonExpired == |entries|
    {
      nonExpired := 0;
      var rest := entries.Keys;
      while rest != {}
        invariant rest <= entries.Keys && |rest| + nonExpired == |entries|
        invariant forall k :: k in entries && k !in rest ==> entries[k].expiresAt > now
        invariant forall k :: k in entries <==> k in old(entries) && (k in rest || old(entries)[k].expiresAt > now)
        invariant forall k :: k in entries ==> entries[k] == old(entries)[k]
        decreases rest
      {
        var key :| key in rest;
        rest := rest - {key};
        if entries[key].expiresAt <= now {
          DropSize(entries, key);
          entries := entries - {key};
        } else {
          nonExpired := nonExpired + 1;
        }
      }
    }

    method CleanupIfNeeded(now: int)
      requires Valid() && clock <= now
      modifies this
      ensures Valid() && touches == old(touches) && clock == now
      ensures drift == if now - old(lastCleanup) > cleanupInterval then 0 else old(drift)
      ensures lastCleanup == if now - old(lastCleanup) > cleanupInterval then now else old(lastCleanup)
      ensures now - old(lastCleanup) <= cleanupInterval ==> entries == old(entries)
      ensures now - old(lastCleanup) > cleanupInterval ==> entries.Keys == LiveKeys(now)
    {
      clock := now;
      if now - lastCleanup > cleanupInterval {
        var nonExpired := Sweep(now);
        lastCleanup := now;
        nonExpiredCount := nonExpired;
        drift := 0;
      }
    }
  }

  lemma PutSize<K, E>(m: map<K, E>, key: K, e: E)
    ensures |m[key := e]| == if key in m then |m| else |m| + 1
  {
    assert m[key := e].Keys == m.Keys + {key};
  }

  lemma DropSize<K, E>(m: map<K, E>, key: K)
    requires key in m
    ensures |m - {key}| == |m| - 1
  {
    assert (m - {key}).Keys == m.Keys - {key};
  }

  /** A size of one for an empty map: the entry was deleted after it had expired. */
  method SizeOvercounts() returns (m: TTLMap<int, int>, size: int)
    ensures size == 1 && m.touches == map[] && m.Valid()
  {
    m := new TTLMap<int, int>(10, 100, 0);
    m.Set(7, 1, 0, 0);
    var deleted := m.Delete(7, 20);
    size := m.Size(20);
    assert m.entries.Keys == {} && m.LiveKeys(20) == {};
  }
}
