/** The shard as an object: its operations, each one atomic step, with the loops of eviction. */
module LruShard {
  import opened Bytes
  import opened Results
  import opened LruState
  import opened LruRuns

  /** Pinned keys at the back of the list are passed over while something is still to be freed. */
  lemma {:induction false} SkipPinned<K(!new), V>(s: Shard<K, V>, n: nat, bytes: nat, count: nat, attempts: nat)
    requires n <= |s.lru| && attempts > 0 && (bytes != 0 || count != 0)
    requires forall i :: n <= i < |s.lru| ==> !Unpinned(s.entries, s.lru[i])
    ensures Evict(s, bytes, count, attempts) == Evict(s.(lru := s.lru[..n]), bytes, count, attempts)
    decreases |s.lru|
  {
    if n < |s.lru| {
      EvictUnfolds(s, bytes, count, attempts);
      assert Popped(s).lru[..n] == s.lru[..n];
      SkipPinned(Popped(s), n, bytes, count, attempts);
    } else {
      assert s.lru[..n] == s.lru;
    }
  }

  lemma PrefixExact<K(!new), V>(s: Shard<K, V>, n: nat)
    requires Exact(s) && n <= |s.lru|
    ensures Exact(s.(lru := s.lru[..n]))
    ensures n < |s.lru| ==> s.lru[n] in s.entries && s.lru[n] !in s.lru[..n]
  {
    if n < |s.lru| {
      assert s.lru[n] in s.lru;
    }
  }

  lemma CoveredByCounters<K(!new), V>(s: Shard<K, V>, k: K)
    requires Exact(s) && k in s.entries
    ensures s.entries[k].size <= s.currentSize && s.currentEntries >= 1
  {
    RemovedExact(s, k);
  }

  /** One turn of the eviction loop. */
  lemma EvictTurn<K(!new), V>(s: Shard<K, V>, n: nat, bytes: nat, count: nat, attempts: nat)
    requires n < |s.lru| && attempts > 0 && (bytes != 0 || count != 0) && Unpinned(s.entries, s.lru[n])
    requires forall i :: n + 1 <= i < |s.lru| ==> !Unpinned(s.entries, s.lru[i])
    ensures var k := s.lru[n];
            Evict(s, bytes, count, attempts)
            == Evict(Removed(s.(lru := s.lru[..n]), k),
                     SaturatingSub(bytes, s.entries[k].size), SaturatingSub(count, 1), attempts - 1)
  {
    SkipPinned(s, n + 1, bytes, count, attempts);
    var t := s.(lru := s.lru[..n + 1]);
    EvictUnfolds(t, bytes, count, attempts);
    assert t.lru[..n] == s.lru[..n];
  }

  /** What is still to be freed, and how many attempts are left. */
  datatype Demand = Demand(bytes: nat, count: nat, attempts: nat)

  predicate Met(d: Demand) {
    d.bytes == 0 && d.count == 0
  }

  function Lowered(d: Demand, size: nat): Demand
    requires d.attempts > 0
  {
    Demand(SaturatingSub(d.bytes, size), SaturatingSub(d.count, 1), d.attempts - 1)
  }

  ghost predicate Reaches<K(!new), V>(s: Shard<K, V>, d: Demand, goal: (bool, Shard<K, V>)) {
    Evict(s, d.bytes, d.count, d.attempts) == goal
  }

  lemma NoneLeft<K(!new), V>(s: Shard<K, V>, d: Demand, goal: (bool, Shard<K, V>))
    requires d.attempts > 0 && !Met(d) && Reaches(s, d, goal)
    requires forall i :: 0 <= i < |s.lru| ==> !Unpinned(s.entries, s.lru[i])
    ensures goal == (false, s.(lru := []))
  {
    SkipPinned(s, 0, d.bytes, d.count, d.attempts);
    EvictStops(s.(lru := []), d.bytes, d.count, d.attempts);
  }

  lemma TurnReaches<K(!new), V>(s: Shard<K, V>, n: nat, d: Demand, goal: (bool, Shard<K, V>))
    requires Exact(s) && d.attempts > 0 && !Met(d) && Reaches(s, d, goal)
    requires n < |s.lru| && Unpinned(s.entries, s.lru[n])
    requires forall i :: n < i < |s.lru| ==> !Unpinned(s.entries, s.lru[i])
    ensures var t, k := s.(lru := s.lru[..n]), s.lru[n];
            && Exact(t) && Exact(Removed(t, k)) && Reaches(Removed(t, k), Lowered(d, s.entries[k].size), goal)
  {
    EvictTurn(s, n, d.bytes, d.count, d.attempts);
    TurnExact(s, n);
  }

  lemma TurnExact<K(!new), V>(s: Shard<K, V>, n: nat)
    requires Exact(s) && n < |s.lru|
    ensures var t, k := s.(lru := s.lru[..n]), s.lru[n]; k in t.entries && Exact(t) && Exact(Removed(t, k))
  {
    PrefixExact(s, n);
    RemovedExact(s.(lru := s.lru[..n]), s.lru[n]);
  }

  class CacheShard<K(==, !new), V> {
    var entries: map<K, Entry<V>>
    var lruList: seq<K>
    var currentSize: nat
    var currentEntries: nat
    var insertions: nat
    var evictions: nat
    const config: Config

    ghost function View(): Shard<K, V>
      reads this
    {
      Shard(entries, lruList, currentSize, currentEntries, insertions, evictions)
    }

    constructor (c: Config)
      ensures View() == Empty() && config == c
    {
      entries, lruList, currentSize, currentEntries, insertions, evictions := map[], [], 0, 0, 0, 0;
      config := c;
    }

    /** Pop from the back, passing over pinned keys, to the first unpinned entry. */
    method EvictLru() returns (victim: Option<(K, nat)>)
      modifies this
      ensures View() == old(View()).(lru := lruList)
      ensures |lruList| <= |old(lruList)| && lruList == old(lruList)[..|lruList|]
      ensures match victim
              case None => lruList == [] && forall i :: 0 <= i < |old(lruList)| ==> !Unpinned(entries, old(lruList)[i])
              case Some((k, size)) =>
                && |lruList| < |old(lruList)| && k == old(lruList)[|lruList|]
                && Unpinned(entries, k) && size == entries[k].size
                && forall i :: |lruList| < i < |old(lruList)| ==> !Unpinned(entries, old(lruList)[i])
    {
      while lruList != []
        invariant View() == old(View()).(lru := lruList)
        invariant |lruList| <= |old(lruList)| && lruList == old(lruList)[..|lruList|]
        invariant forall i :: |lruList| <= i < |old(lruList)| ==> !Unpinned(entries, old(lruList)[i])
        decreases |lruList|
      {
        var n := |lruList| - 1;
        var key := lruList[n];
        lruList := lruList[..n];
        if key in entries {
          if entries[key].pins == 0 {
            return Some((key, entries[key].size));
          }
        }
      }
      return None;
    }

    /** Take an entry out of the map and off the counters; neither subtraction underflows. */
    method RemoveEntry(key: K)
      requires Exact(View()) && key in entries
      modifies this
      ensures View() == Removed(old(View()), key)
    {
      var size := entries[key].size;
      CoveredByCounters(View(), key);
      entries := entries - {key};
      currentSize := currentSize - size;
      currentEntries := currentEntries - 1;
      evictions := evictions + 1;
    }

    /** One attempt: evict the least recently used unpinned entry, if one is tracked. */
    method EvictOne(ghost demand: Demand, ghost goal: (bool, Shard<K, V>)) returns (freed: Option<nat>)
      requires Exact(View()) && demand.attempts > 0 && !Met(demand) && Reaches(View(), demand, goal)
      modifies this
      ensures match freed
              case None => goal == (false, View())
              case Some(size) => Exact(View()) && Reaches(View(), Lowered(demand, size), goal)
    {
      ghost var was := View();
      var victim := EvictLru();
      if victim.None? {
        NoneLeft(was, demand, goal);
        return None;
      }
      var (key, size) := victim.value;
      TurnReaches(was, |lruList|, demand, goal);
      RemoveEntry(key);
      return Some(size);
    }

    /** Evict until enough is freed, at most `maxEntries` times. */
    method EvictFor(requiredBytes: nat, requiredEntries: nat) returns (r: Status)
      requires Exact(View())
      modifies this
      ensures (r.Ok?, View()) == Evict(old(View()), requiredBytes, requiredEntries, config.maxEntries)
      ensures r == Ok(()) || r == Err(CacheFull)
    {
      ghost var goal := Evict(View(), requiredBytes, requiredEntries, config.maxEntries);
      r := EvictUntil(requiredBytes, requiredEntries, goal);
    }

    method EvictUntil(requiredBytes: nat, requiredEntries: nat, ghost goal: (bool, Shard<K, V>)) returns (r: Status)
      requires Exact(View()) && Reaches(View(), Demand(requiredBytes, requiredEntries, config.maxEntries), goal)
      modifies this
      ensures (r.Ok?, View()) == goal
      ensures r == Ok(()) || r == Err(CacheFull)
    {
      var freedBytes: nat, freedEntries: nat, i: nat := 0, 0, 0;
      ghost var demand := Demand(requiredBytes, requiredEntries, config.maxEntries);
      while i < config.maxEntries && !(freedBytes >= requiredBytes && freedEntries >= requiredEntries)
        invariant i <= config.maxEntries && Exact(View()) && Reaches(View(), demand, goal)
        invariant demand == Demand(SaturatingSub(requiredBytes, freedBytes),
                                   SaturatingSub(requiredEntries, freedEntries), config.maxEntries - i)
      {
        var freed := EvictOne(demand, goal);
        if freed.None? {
          return Err(CacheFull);
        }
        freedBytes := freedBytes + freed.value;
        freedEntries := freedEntries + 1;
        i := i + 1;
        demand := Lowered(demand, freed.value);
      }
      EvictStops(View(), demand.bytes, demand.count, demand.attempts);
      return Ok(());
    }

    /** Move or add a key to the front. */
    method Track(key: K)
      modifies this`lruList
      ensures lruList == Touch(old(lruList), key)
    {
      lruList := [key] + Drop(lruList, key);
    }

    method GetValue(key: K) returns (r: Option<V>)
      modifies this
      ensures (r, View()) == Get(old(View()), key)
    {
      if key !in entries {
        return None;
      }
      r := Some(entries[key].value);
      Track(key);
    }

    method PutValue(key: K, value: V, size: nat) returns (r: Status)
      requires Valid(View(), config) && config.maxEntries >= 1
      modifies this
      ensures (r, View()) == Put(old(View()), config, key, value, size)
      ensures Valid(View(), config)
    {
      PutValid(View(), config, key, value, size);
      if size > config.maxSize {
        return Err(EntryTooLarge);
      }
      if key in entries {
        entries := entries[key := entries[key].(value := value)];
        return Ok(());
      }
      r := MakeRoomFor(size);
      if r.Ok? {
        Insert(key, value, size);
      }
    }

    /** Evict when the new entry would exceed a limit. */
    method MakeRoomFor(size: nat) returns (r: Status)
      requires Exact(View())
      modifies this
      ensures (r.Ok?, View()) == MakeRoom(old(View()), config, size)
      ensures r == Ok(()) || r == Err(CacheFull)
    {
      var newSize, newEntries := currentSize + size, currentEntries + 1;
      if newSize > config.maxSize || newEntries > config.maxEntries {
        r := EvictFor(SaturatingSub(newSize, config.maxSize), SaturatingSub(newEntries, config.maxEntries));
      } else {
        r := Ok(());
      }
    }

    method Insert(key: K, value: V, size: nat)
      modifies this
      ensures View() == Inserted(old(View()), key, value, size)
    {
      entries := entries[key := Entry(value, size, 0)];
      insertions := insertions + 1;
      currentSize := currentSize + size;
      currentEntries := currentEntries + 1;
      Track(key);
    }

    method InvalidateKey(key: K) returns (removed: bool)
      requires Exact(View())
      modifies this
      ensures (removed, View()) == Invalidate(old(View()), key) && Exact(View())
    {
      if key !in entries {
        return false;
      }
      RemovedExact(View(), key);
      RemoveEntry(key);
      lruList := Drop(lruList, key);
      return true;
    }

    method PinKey(key: K) returns (found: bool)
      modifies this
      ensures (found, View()) == Pin(old(View()), key)
    {
      found := key in entries;
      if found {
        entries := entries[key := entries[key].(pins := (entries[key].pins + 1) % U64)];
      }
    }

    method UnpinKey(key: K) returns (found: bool)
      modifies this
      ensures (found, View()) == Unpin(old(View()), key)
    {
      found := key in entries;
      if found {
        entries := entries[key := entries[key].(pins := (entries[key].pins + U64 - 1) % U64)];
      }
    }

    method ClearAll() returns (entriesCleared: nat, memoryFreed: nat)
      modifies this
      ensures View() == Clear(old(View()))
      ensures entriesCleared == |old(entries)| && memoryFreed == old(currentSize)
    {
      entriesCleared, memoryFreed := |entries|, currentSize;
      entries := map[];
      currentSize, currentEntries := 0, 0;
      lruList := [];
    }
  }
}
