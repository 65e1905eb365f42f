/** One cache shard under the LRU policy: a bounded map with pinning and a recency list. */
module LruState {
  import opened Bytes
  import opened Results
  import opened Sums

  datatype Entry<V> = Entry(value: V, size: nat, pins: nat)

  datatype Config = Config(maxSize: nat, maxEntries: nat)

  datatype CacheError = EntryTooLarge | CacheFull

  datatype Shard<K(!new), V> = Shard(entries: map<K, Entry<V>>, lru: seq<K>, currentSize: nat, currentEntries: nat,
                                     insertions: nat, evictions: nat)

  type Status = Result<(), CacheError>

  function Empty<K(!new), V>(): Shard<K, V> {
    Shard(map[], [], 0, 0, 0, 0)
  }

  predicate Unpinned<K, V>(e: map<K, Entry<V>>, k: K) {
    k in e && e[k].pins == 0
  }

  // ------------------------------------------------------------------------- the steps

  /** The list without a key. */
  function Drop<K(==)>(ks: seq<K>, k: K): seq<K> {
    if ks == [] then [] else (if ks[0] == k then [] else [ks[0]]) + Drop(ks[1..], k)
  }

  /** Newest first: the key moves, or comes, to the front. */
  function Touch<K(==)>(ks: seq<K>, k: K): seq<K> {
    [k] + Drop(ks, k)
  }

  /** Take an entry out of the map and off the counters. */
  function Removed<K(!new), V>(s: Shard<K, V>, k: K): Shard<K, V>
    requires k in s.entries
  {
    s.(entries := s.entries - {k},
       currentSize := SaturatingSub(s.currentSize, s.entries[k].size),
       currentEntries := SaturatingSub(s.currentEntries, 1),
       evictions := s.evictions + 1)
  }

  /** Evict from the back of the list until `bytes` and `count` are freed; pinned keys fall off the list. */
  function Evict<K(!new), V>(s: Shard<K, V>, bytes: nat, count: nat, attempts: nat): (bool, Shard<K, V>)
    decreases |s.lru|
  {
    if attempts == 0 || (bytes == 0 && count == 0) then (true, s)
    else if s.lru == [] then (false, s)
    else
      var n := |s.lru| - 1;
      var k, t := s.lru[n], s.(lru := s.lru[..n]);
      if Unpinned(s.entries, k) then
        Evict(Removed(t, k), SaturatingSub(bytes, s.entries[k].size), SaturatingSub(count, 1), attempts - 1)
      else Evict(t, bytes, count, attempts)
  }

  function Inserted<K(!new), V>(s: Shard<K, V>, k: K, v: V, size: nat): Shard<K, V> {
    Shard(s.entries[k := Entry(v, size, 0)], Touch(s.lru, k), s.currentSize + size, s.currentEntries + 1,
          s.insertions + 1, s.evictions)
  }

  /** Make room for a new entry, if there is none. */
  function MakeRoom<K(!new), V>(s: Shard<K, V>, c: Config, size: nat): (bool, Shard<K, V>) {
    if s.currentSize + size > c.maxSize || s.currentEntries + 1 > c.maxEntries then
      Evict(s, SaturatingSub(s.currentSize + size, c.maxSize), SaturatingSub(s.currentEntries + 1, c.maxEntries),
            c.maxEntries)
    else (true, s)
  }

  function Put<K(!new), V>(s: Shard<K, V>, c: Config, k: K, v: V, size: nat): (Status, Shard<K, V>) {
    if size > c.maxSize then (Err(EntryTooLarge), s)
    else if k in s.entries then (Ok(()), s.(entries := s.entries[k := s.entries[k].(value := v)]))
    else
      var (ok, t) := MakeRoom(s, c, size);
      if ok then (Ok(()), Inserted(t, k, v, size)) else (Err(CacheFull), t)
  }

  function Get<K(!new), V>(s: Shard<K, V>, k: K): (Option<V>, Shard<K, V>) {
    if k in s.entries then (Some(s.entries[k].value), s.(lru := Touch(s.lru, k))) else (None, s)
  }

  function Invalidate<K(!new), V>(s: Shard<K, V>, k: K): (bool, Shard<K, V>) {
    if k in s.entries then (true, Removed(s, k).(lru := Drop(s.lru, k))) else (false, s)
  }

  /** Pin counts are machine words: unpinning an entry that is not pinned wraps around. */
  function Pin<K(!new), V>(s: Shard<K, V>, k: K): (bool, Shard<K, V>) {
    if k !in s.entries then (false, s)
    else
      var x := s.entries[k];
      (true, s.(entries := s.entries[k := x.(pins := (x.pins + 1) % U64)]))
  }

  function Unpin<K(!new), V>(s: Shard<K, V>, k: K): (bool, Shard<K, V>) {
    if k !in s.entries then (false, s)
    else
      var x := s.entries[k];
      (true, s.(entries := s.entries[k := x.(pins := (x.pins + U64 - 1) % U64)]))
  }

  function Clear<K(!new), V>(s: Shard<K, V>): Shard<K, V> {
    s.(entries := map[], lru := [], currentSize := 0, currentEntries := 0)
  }

  // ------------------------------------------------------------------------ invariant

  ghost function Sizes<K(!new), V>(e: map<K, Entry<V>>): K -> nat {
    k => if k in e then e[k].size else 0
  }

  /** Both counters are exact, and the list tracks entries of the map without repetition. */
  ghost predicate Exact<K(!new), V>(s: Shard<K, V>) {
    && s.currentSize == Sum(s.entries.Keys, Sizes(s.entries))
    && s.currentEntries == |s.entries|
    && NoRepeats(s.lru) && forall k :: k in s.lru ==> k in s.entries
  }

  ghost predicate Valid<K(!new), V>(s: Shard<K, V>, c: Config) {
    Exact(s) && s.currentSize <= c.maxSize && s.currentEntries <= c.maxEntries
  }

  lemma {:induction false} DropMembers<K>(ks: seq<K>, k: K)
    requires NoRepeats(ks)
    ensures NoRepeats(Drop(ks, k)) && forall j :: j in Drop(ks, k) <==> j in ks && j != k
  {
    if ks != [] {
      DropMembers(ks[1..], k);
      assert ks == [ks[0]] + ks[1..];
      assert ks[0] !in Drop(ks[1..], k);
      if ks[0] == k {
        assert Drop(ks, k) == Drop(ks[1..], k);
      } else {
        ConsNoRepeats(ks[0], Drop(ks[1..], k));
      }
    }
  }

  lemma ConsNoRepeats<K>(k: K, ks: seq<K>)
    requires NoRepeats(ks) && k !in ks
    ensures NoRepeats([k] + ks)
  {
  }

  lemma RemovedSums<K(!new), V>(e: map<K, Entry<V>>, k: K)
    requires k in e
    ensures Sum(e.Keys, Sizes(e)) == Sum((e - {k}).Keys, Sizes(e - {k})) + e[k].size
    ensures |e| == |e - {k}| + 1
  {
    SumOut(e.Keys, Sizes(e), k);
    assert (e - {k}).Keys == e.Keys - {k};
    SumAgree(e.Keys - {k}, Sizes(e), Sizes(e - {k}));
    assert |e.Keys| == |e.Keys - {k}| + 1;
  }

  lemma InsertedSums<K(!new), V>(e: map<K, Entry<V>>, k: K, x: Entry<V>)
    requires k !in e
    ensures Sum(e[k := x].Keys, Sizes(e[k := x])) == Sum(e.Keys, Sizes(e)) + x.size
    ensures |e[k := x]| == |e| + 1
  {
    var f := e[k := x];
    assert f - {k} == e;
    RemovedSums(f, k);
  }

  /** Replacing an entry by one of the same size. */
  lemma ReplacedSums<K(!new), V>(e: map<K, Entry<V>>, k: K, x: Entry<V>)
    requires k in e && e[k].size == x.size
    ensures Sum(e[k := x].Keys, Sizes(e[k := x])) == Sum(e.Keys, Sizes(e))
    ensures |e[k := x]| == |e|
  {
    var f := e[k := x];
    assert f.Keys == e.Keys;
    SumAgree(e.Keys, Sizes(e), Sizes(f));
    assert |f.Keys| == |e.Keys|;
  }

  lemma RemovedExact<K(!new), V>(s: Shard<K, V>, k: K)
    requires Exact(s) && k in s.entries
    ensures s.entries[k].size <= s.currentSize && s.currentEntries >= 1
    ensures NoRepeats(s.lru) && (k !in s.lru ==> Exact(Removed(s, k)))
    ensures Exact(Removed(s, k).(lru := Drop(s.lru, k)))
  {
    RemovedSums(s.entries, k);
    DropMembers(s.lru, k);
  }

  lemma PopExact<K(!new), V>(s: Shard<K, V>)
    requires Exact(s) && s.lru != []
    ensures var n := |s.lru| - 1; Exact(s.(lru := s.lru[..n])) && s.lru[n] in s.entries && s.lru[n] !in s.lru[..n]
  {
    var n := |s.lru| - 1;
    assert s.lru[n] in s.lru;
  }

  // ------------------------------------------------------------------------- eviction

  /** Bytes and entries that evicting the unpinned among the listed keys would free. */
  ghost function FreedBytes<K, V>(e: map<K, Entry<V>>, ks: seq<K>): nat {
    if ks == [] then 0
    else FreedBytes(e, ks[..|ks| - 1]) + if Unpinned(e, ks[|ks| - 1]) then e[ks[|ks| - 1]].size else 0
  }

  ghost function FreedCount<K, V>(e: map<K, Entry<V>>, ks: seq<K>): nat {
    if ks == [] then 0
    else FreedCount(e, ks[..|ks| - 1]) + if Unpinned(e, ks[|ks| - 1]) then 1 else 0
  }

  ghost predicate Suffices<K, V>(e: map<K, Entry<V>>, ks: seq<K>, bytes: nat, count: nat) {
    FreedBytes(e, ks) >= bytes && FreedCount(e, ks) >= count
  }

  /** The entries left when the unpinned among the listed keys are gone. */
  ghost function Survivors<K, V>(e: map<K, Entry<V>>, ks: seq<K>): map<K, Entry<V>> {
    map k | k in e && (k in ks ==> e[k].pins > 0) :: e[k]
  }

  /** Exactly the unpinned keys from position `n` of the list on have been evicted. */
  ghost predicate EvictedTail<K(!new), V>(s: Shard<K, V>, t: Shard<K, V>, n: nat) {
    n <= |s.lru| && t.lru == s.lru[..n] && t.entries == Survivors(s.entries, s.lru[n..])
  }

  /** The tail is sufficient and no shorter tail is. */
  ghost predicate ShortestTail<K(!new), V>(s: Shard<K, V>, n: nat, bytes: nat, count: nat) {
    && n <= |s.lru| && Suffices(s.entries, s.lru[n..], bytes, count)
    && forall m :: n < m <= |s.lru| ==> !Suffices(s.entries, s.lru[m..], bytes, count)
  }

  lemma {:induction false} FreedAgree<K, V>(e: map<K, Entry<V>>, f: map<K, Entry<V>>, ks: seq<K>)
    requires forall k :: k in ks ==> k in e && k in f && e[k] == f[k]
    ensures FreedBytes(e, ks) == FreedBytes(f, ks) && FreedCount(e, ks) == FreedCount(f, ks)
  {
    if ks != [] {
      assert ks[|ks| - 1] in ks;
      FreedAgree(e, f, ks[..|ks| - 1]);
    }
  }

  /** What one popped key changes: for every tail, freeing with the key is freeing the rest without it. */
  lemma PopFreed<K(!new), V>(s: Shard<K, V>, m: nat)
    requires Exact(s) && m < |s.lru|
    ensures var n, k := |s.lru| - 1, s.lru[|s.lru| - 1];
            && k in s.entries
            && FreedBytes(s.entries, s.lru[m..])
               == FreedBytes(s.entries - {k}, s.lru[..n][m..])
                  + (if Unpinned(s.entries, k) then s.entries[k].size else 0)
            && FreedCount(s.entries, s.lru[m..])
               == FreedCount(s.entries - {k}, s.lru[..n][m..]) + (if Unpinned(s.entries, k) then 1 else 0)
            && FreedBytes(s.entries - {k}, s.lru[..n][m..]) == FreedBytes(s.entries, s.lru[..n][m..])
            && FreedCount(s.entries - {k}, s.lru[..n][m..]) == FreedCount(s.entries, s.lru[..n][m..])
  {
    var n := |s.lru| - 1;
    var k := s.lru[n];
    assert k in s.lru;
    var tail := s.lru[..n][m..];
    assert s.lru[m..][..|s.lru[m..]| - 1] == tail;
    forall j | j in tail ensures j in s.entries && j != k {
      var i :| 0 <= i < |tail| && tail[i] == j;
      assert s.lru[m + i] == j;
    }
    FreedAgree(s.entries, s.entries - {k}, tail);
  }

  lemma PopSuffices<K(!new), V>(s: Shard<K, V>, m: nat, bytes: nat, count: nat)
    requires Exact(s) && m < |s.lru|
    ensures var n, k := |s.lru| - 1, s.lru[|s.lru| - 1];
            && k in s.entries
            && (Unpinned(s.entries, k) ==>
                  (Suffices(s.entries, s.lru[m..], bytes, count) <==>
                   Suffices(s.entries - {k}, s.lru[..n][m..], SaturatingSub(bytes, s.entries[k].size),
                       SaturatingSub(count, 1))))
            && (!Unpinned(s.entries, k) ==>
                  (Suffices(s.entries, s.lru[m..], bytes, count) <==>
                      Suffices(s.entries, s.lru[..n][m..], bytes, count)))
  {
    PopFreed(s, m);
  }

  lemma PopSurvivors<K(!new), V>(s: Shard<K, V>, m: nat)
    requires Exact(s) && m < |s.lru|
    ensures var n, k := |s.lru| - 1, s.lru[|s.lru| - 1];
            && (Unpinned(s.entries, k) ==>
                  Survivors(s.entries, s.lru[m..]) == Survivors(s.entries - {k}, s.lru[..n][m..]))
            && (!Unpinned(s.entries, k) ==> Survivors(s.entries, s.lru[m..]) == Survivors(s.entries, s.lru[..n][m..]))
  {
    var n := |s.lru| - 1;
    var k := s.lru[n];
    assert k in s.lru;
    assert s.lru[m..] == s.lru[..n][m..] + [k];
  }

  lemma SurvivorsOfNone<K(!new), V>(s: Shard<K, V>)
    ensures EvictedTail(s, s, |s.lru|)
  {
    assert s.lru[..|s.lru|] == s.lru;
    assert s.lru[|s.lru|..] == [];
    assert Survivors(s.entries, []) == s.entries;
  }

  /** Enough attempts for every entry, and no more asked for than is there. */
  ghost predicate Askable<K(!new), V>(s: Shard<K, V>, bytes: nat, count: nat, attempts: nat) {
    Exact(s) && bytes <= s.currentSize && count <= s.currentEntries <= attempts
  }

  /** The state, the demands and the attempts after one key has been popped. */
  ghost function Popped<K(!new), V>(s: Shard<K, V>): Shard<K, V>
    requires s.lru != []
  {
    var n := |s.lru| - 1;
    var t := s.(lru := s.lru[..n]);
    if Unpinned(s.entries, s.lru[n]) then Removed(t, s.lru[n]) else t
  }

  ghost function Less1<K(!new), V>(s: Shard<K, V>, bytes: nat, count: nat, attempts: nat): (nat, nat, nat)
    requires s.lru != [] && attempts > 0
  {
    var k := s.lru[|s.lru| - 1];
    if Unpinned(s.entries, k) then (SaturatingSub(bytes, s.entries[k].size), SaturatingSub(count, 1), attempts - 1)
    else (bytes, count, attempts)
  }

  lemma EvictUnfolds<K(!new), V>(s: Shard<K, V>, bytes: nat, count: nat, attempts: nat)
    requires s.lru != [] && attempts > 0 && (bytes != 0 || count != 0)
    ensures var (b, c, a) := Less1(s, bytes, count, attempts);
            Evict(s, bytes, count, attempts) == Evict(Popped(s), b, c, a)
  {
  }

  lemma EvictStops<K(!new), V>(s: Shard<K, V>, bytes: nat, count: nat, attempts: nat)
    requires s.lru == [] || attempts == 0 || (bytes == 0 && count == 0)
    ensures Evict(s, bytes, count, attempts) == (attempts == 0 || (bytes == 0 && count == 0), s)
  {
  }

  lemma PoppedAskable<K(!new), V>(s: Shard<K, V>, bytes: nat, count: nat, attempts: nat)
    requires Askable(s, bytes, count, attempts) && s.lru != [] && attempts > 0
    ensures var (b, c, a) := Less1(s, bytes, count, attempts); Askable(Popped(s), b, c, a)
  {
    PopExact(s);
    var n := |s.lru| - 1;
    if Unpinned(s.entries, s.lru[n]) {
      RemovedExact(s.(lru := s.lru[..n]), s.lru[n]);
    }
  }

  lemma NothingLeft<K(!new), V>(s: Shard<K, V>)
    requires Exact(s) && s.currentEntries == 0
    ensures s.currentSize == 0 && s.lru == []
  {
    assert s.entries == map[];
    FirstMember(s.lru);
  }

  lemma FirstMember<K>(ks: seq<K>)
    ensures ks == [] || exists k :: k in ks
  {
    assert ks == [] || ks[0] in ks;
  }

  /** Fewer entries, every one that went counted as evicted. */
  ghost predicate Shrunk<K(!new), V>(s: Shard<K, V>, t: Shard<K, V>) {
    && t.insertions == s.insertions && t.evictions + t.currentEntries == s.evictions + s.currentEntries
    && t.currentSize <= s.currentSize && t.currentEntries <= s.currentEntries
  }

  ghost predicate FreedEnough<K(!new), V>(s: Shard<K, V>, t: Shard<K, V>, bytes: nat, count: nat) {
    t.currentSize + bytes <= s.currentSize && t.currentEntries + count <= s.currentEntries
  }

  /** Eviction keeps the counters exact and only removes; when it reports success it has freed enough. */
  lemma {:induction false} EvictExact<K(!new), V>(s: Shard<K, V>, bytes: nat, count: nat, attempts: nat)
    requires Askable(s, bytes, count, attempts)
    ensures var (ok, t) := Evict(s, bytes, count, attempts);
            Exact(t) && Shrunk(s, t) && (ok ==> FreedEnough(s, t, bytes, count))
    decreases |s.lru|
  {
    if s.lru == [] || attempts == 0 || (bytes == 0 && count == 0) {
      EvictStops(s, bytes, count, attempts);
      if attempts == 0 {
        NothingLeft(s);
      }
    } else {
      EvictUnfolds(s, bytes, count, attempts);
      PoppedAskable(s, bytes, count, attempts);
      var (b, c, a) := Less1(s, bytes, count, attempts);
      var p := Popped(s);
      EvictExact(p, b, c, a);
      PoppedShrinks(s, Evict(p, b, c, a).1, bytes, count, attempts);
    }
  }

  lemma PoppedShrinks<K(!new), V>(s: Shard<K, V>, t: Shard<K, V>, bytes: nat, count: nat, attempts: nat)
    requires Exact(s) && s.lru != [] && attempts > 0 && Shrunk(Popped(s), t)
    ensures Shrunk(s, t)
    ensures var (b, c, a) := Less1(s, bytes, count, attempts);
            FreedEnough(Popped(s), t, b, c) ==> FreedEnough(s, t, bytes, count)
  {
    PoppedCounts(s);
  }

  lemma PoppedCounts<K(!new), V>(s: Shard<K, V>)
    requires Exact(s) && s.lru != []
    ensures var t, k := Popped(s), s.lru[|s.lru| - 1];
            && k in s.entries && t.insertions == s.insertions
            && (Unpinned(s.entries, k) ==> t.currentSize + s.entries[k].size == s.currentSize
                                           && t.currentEntries + 1 == s.currentEntries
                                               && t.evictions == s.evictions + 1)
            && (!Unpinned(s.entries, k) ==> t == s.(lru := t.lru))
  {
    PopExact(s);
    RemovedExact(s, s.lru[|s.lru| - 1]);
  }

  /** Eviction succeeds exactly when the tracked unpinned entries suffice, despite the cap on attempts. Then
      the evicted entries are the unpinned ones of the shortest sufficient tail of the recency list: the least
      recently used, and no more than needed. When it fails it has evicted every tracked unpinned entry. */
  lemma {:induction false} EvictIsShortestTail<K(!new), V>(s: Shard<K, V>, bytes: nat, count: nat, attempts: nat)
    requires Askable(s, bytes, count, attempts)
    ensures var (ok, t) := Evict(s, bytes, count, attempts);
            && (ok <==> Suffices(s.entries, s.lru, bytes, count))
            && (ok ==> exists n: nat :: EvictedTail(s, t, n) && ShortestTail(s, n, bytes, count))
            && (!ok ==> EvictedTail(s, t, 0))
    decreases |s.lru|
  {
    if s.lru == [] || attempts == 0 || (bytes == 0 && count == 0) {
      EvictStopsShort(s, bytes, count, attempts);
    } else {
      EvictUnfolds(s, bytes, count, attempts);
      PoppedAskable(s, bytes, count, attempts);
      var (b, c, a) := Less1(s, bytes, count, attempts);
      var p := Popped(s);
      EvictIsShortestTail(p, b, c, a);
      PoppedDecides(s, bytes, count, attempts);
      if Evict(p, b, c, a).0 {
        var n: nat :| EvictedTail(p, Evict(p, b, c, a).1, n) && ShortestTail(p, n, b, c);
        LongerTail(s, Evict(p, b, c, a).1, n, bytes, count, attempts);
      } else {
        PopSurvivors(s, 0);
      }
    }
  }

  lemma EvictStopsShort<K(!new), V>(s: Shard<K, V>, bytes: nat, count: nat, attempts: nat)
    requires Askable(s, bytes, count, attempts)
    requires s.lru == [] || attempts == 0 || (bytes == 0 && count == 0)
    ensures var (ok, t) := Evict(s, bytes, count, attempts);
            && (ok <==> Suffices(s.entries, s.lru, bytes, count))
            && EvictedTail(s, t, |s.lru|) && (ok ==> ShortestTail(s, |s.lru|, bytes, count))
  {
    EvictStops(s, bytes, count, attempts);
    if attempts == 0 {
      NothingLeft(s);
    }
    SurvivorsOfNone(s);
    assert s.lru[|s.lru|..] == [];
  }

  lemma PoppedDecides<K(!new), V>(s: Shard<K, V>, bytes: nat, count: nat, attempts: nat)
    requires Exact(s) && s.lru != [] && attempts > 0
    ensures var (b, c, a) := Less1(s, bytes, count, attempts);
            Suffices(s.entries, s.lru, bytes, count) <==> Suffices(Popped(s).entries, Popped(s).lru, b, c)
  {
    PopSuffices(s, 0, bytes, count);
    assert s.lru[0..] == s.lru && Popped(s).lru[0..] == Popped(s).lru;
  }

  lemma LongerTail<K(!new), V>(s: Shard<K, V>, t: Shard<K, V>, n: nat, bytes: nat, count: nat, attempts: nat)
    requires Exact(s) && s.lru != [] && attempts > 0 && (bytes != 0 || count != 0)
    requires EvictedTail(Popped(s), t, n)
    requires var (b, c, a) := Less1(s, bytes, count, attempts); ShortestTail(Popped(s), n, b, c)
    ensures EvictedTail(s, t, n) && ShortestTail(s, n, bytes, count)
  {
    PopSurvivors(s, n);
    PopSuffices(s, n, bytes, count);
    assert s.lru[..|s.lru| - 1][..n] == s.lru[..n];
    forall m | n < m <= |s.lru| ensures !Suffices(s.entries, s.lru[m..], bytes, count) {
      if m < |s.lru| {
        PopSuffices(s, m, bytes, count);
      } else {
        assert s.lru[m..] == [];
      }
    }
  }
}
