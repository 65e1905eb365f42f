/** What every operation of a shard keeps, and what whole runs of operations keep. */
module LruRuns {
  import opened Results
  import opened Bytes
  import opened Sums
  import opened LruState

  // ------------------------------------------------------------- limits and counters

  lemma InsertedExact<K(!new), V>(s: Shard<K, V>, k: K, v: V, size: nat)
    requires Exact(s) && k !in s.entries
    ensures Exact(Inserted(s, k, v, size))
  {
    InsertedSums(s.entries, k, Entry(v, size, 0));
    DropMembers(s.lru, k);
    ConsNoRepeats(k, Drop(s.lru, k));
  }

  lemma RoomMade<K(!new), V>(s: Shard<K, V>, c: Config, size: nat)
    requires Valid(s, c) && size <= c.maxSize && c.maxEntries >= 1
    ensures var (ok, t) := MakeRoom(s, c, size);
            && Valid(t, c) && Shrunk(s, t)
            && (ok ==> t.currentSize + size <= c.maxSize && t.currentEntries + 1 <= c.maxEntries)
  {
    if s.currentSize + size > c.maxSize || s.currentEntries + 1 > c.maxEntries {
      EvictExact(s, SaturatingSub(s.currentSize + size, c.maxSize), SaturatingSub(s.currentEntries + 1, c.maxEntries),
                 c.maxEntries);
    }
  }

  /** Only entries of the shard survive making room, unchanged, and every pinned one does. */
  lemma RoomKeepsPinned<K(!new), V>(s: Shard<K, V>, c: Config, size: nat)
    requires Valid(s, c) && size <= c.maxSize && c.maxEntries >= 1
    ensures var t := MakeRoom(s, c, size).1;
            && (forall k :: k in t.entries ==> k in s.entries && t.entries[k] == s.entries[k])
            && (forall k :: k in s.entries && s.entries[k].pins > 0 ==> k in t.entries)
            && (exists n: nat :: EvictedTail(s, t, n))
  {
    if s.currentSize + size > c.maxSize || s.currentEntries + 1 > c.maxEntries {
      EvictIsShortestTail(s, SaturatingSub(s.currentSize + size, c.maxSize),
                          SaturatingSub(s.currentEntries + 1, c.maxEntries), c.maxEntries);
    } else {
      SurvivorsOfNone(s);
    }
  }

  lemma PutValid<K(!new), V>(s: Shard<K, V>, c: Config, k: K, v: V, size: nat)
    requires Valid(s, c) && c.maxEntries >= 1
    ensures Valid(Put(s, c, k, v, size).1, c)
  {
    if size <= c.maxSize {
      if k in s.entries {
        ReplacedSums(s.entries, k, s.entries[k].(value := v));
      } else {
        RoomMade(s, c, size);
        RoomKeepsPinned(s, c, size);
        InsertedExact(MakeRoom(s, c, size).1, k, v, size);
      }
    }
  }

  /** A put is accepted exactly when the entry fits the shard at all and either the key is present or the
      tracked unpinned entries leave room for it. */
  lemma PutAcceptedIff<K(!new), V>(s: Shard<K, V>, c: Config, k: K, v: V, size: nat)
    requires Valid(s, c) && c.maxEntries >= 1
    ensures Put(s, c, k, v, size).0.Ok? <==>
            && size <= c.maxSize
            && (k in s.entries
                || (s.currentSize + size <= c.maxSize + FreedBytes(s.entries, s.lru)
                    && s.currentEntries + 1 <= c.maxEntries + FreedCount(s.entries, s.lru)))
  {
    if size <= c.maxSize && (s.currentSize + size > c.maxSize || s.currentEntries + 1 > c.maxEntries) {
      EvictIsShortestTail(s, SaturatingSub(s.currentSize + size, c.maxSize),
                          SaturatingSub(s.currentEntries + 1, c.maxEntries), c.maxEntries);
    }
  }

  /** A full shard of one entry, pinned, refuses another key and stops tracking the entry. */
  lemma PinnedLosesTrack<K(!new), V>(s: Shard<K, V>, c: Config, a: K, b: K, v: V, size: nat)
    requires s.entries.Keys == {a} && s.entries[a].pins > 0 && s.lru == [a] && s.currentEntries == c.maxEntries == 1
    requires size <= c.maxSize && b != a
    ensures Put(s, c, b, v, size) == (Err(CacheFull), s.(lru := []))
  {
    var t, bytes := s.(lru := []), SaturatingSub(s.currentSize + size, c.maxSize);
    assert [a][..0] == [];
    assert Popped(s) == t;
    EvictUnfolds(s, bytes, 1, 1);
    EvictStops(t, bytes, 1, 1);
  }

  /** A pinned entry that eviction skipped is no longer tracked: after one refused put and unpinning, the shard
      still refuses the key although its only entry is unpinned. */
  lemma RefusedWithoutPins<K(!new), V>(a: K, b: K, v: V)
    requires a != b
    ensures var c := Config(10, 1);
            var s := Shard(map[a := Entry(v, 1, 1)], [a], 1, 1, 1, 0);
            && s == Pin(Put(Empty(), c, a, v, 1).1, a).1
            && Put(s, c, b, v, 1) == (Err(CacheFull), s.(lru := []))
            && Unpinned(Unpin(s.(lru := []), a).1.entries, a)
            && Put(Unpin(s.(lru := []), a).1, c, b, v, 1).0 == Err(CacheFull)
  {
    var c := Config(10, 1);
    var s := Shard(map[a := Entry(v, 1, 1)], [a], 1, 1, 1, 0);
    PinnedLosesTrack(s, c, a, b, v, 1);
  }

  // ------------------------------------------------------------------------------ runs

  datatype Op<K, V> =
    | GetOp(key: K)
    | PutOp(key: K, value: V, size: nat)
    | InvalidateOp(key: K)
    | PinOp(key: K)
    | UnpinOp(key: K)
    | ClearOp

  function Step<K(!new), V>(s: Shard<K, V>, c: Config, op: Op<K, V>): Shard<K, V> {
    match op
    case GetOp(k) => Get(s, k).1
    case PutOp(k, v, size) => Put(s, c, k, v, size).1
    case InvalidateOp(k) => Invalidate(s, k).1
    case PinOp(k) => Pin(s, k).1
    case UnpinOp(k) => Unpin(s, k).1
    case ClearOp => Clear(s)
  }

  /** A run with what an observer knows: the time of each key's last insertion or hit, the value of its last
      successful put since it was last invalidated, and how many entries were cleared. */
  datatype Observed<K(!new), V> = Observed(shard: Shard<K, V>, clock: nat, used: map<K, nat>, written: map<K, V>,
      cleared: nat)

  function Used<K(!new), V>(o: Observed<K, V>, c: Config, op: Op<K, V>): map<K, nat> {
    match op
    case GetOp(k) => if k in o.shard.entries then o.used[k := o.clock] else o.used
    case PutOp(k, v, size) =>
      if k !in o.shard.entries && Put(o.shard, c, k, v, size).0.Ok? then o.used[k := o.clock] else o.used
    case _ => o.used
  }

  function Written<K(!new), V>(o: Observed<K, V>, c: Config, op: Op<K, V>): map<K, V> {
    match op
    case PutOp(k, v, size) => if Put(o.shard, c, k, v, size).0.Ok? then o.written[k := v] else o.written
    case InvalidateOp(k) => o.written - {k}
    case ClearOp => map[]
    case _ => o.written
  }

  function Observe<K(!new), V>(o: Observed<K, V>, c: Config, op: Op<K, V>): Observed<K, V> {
    Observed(Step(o.shard, c, op), o.clock + 1, Used(o, c, op), Written(o, c, op),
             if op.ClearOp? then o.cleared + o.shard.currentEntries else o.cleared)
  }

  function Run<K(!new), V>(o: Observed<K, V>, c: Config, ops: seq<Op<K, V>>): Observed<K, V>
    decreases |ops|
  {
    if ops == [] then o else Run(Observe(o, c, ops[0]), c, ops[1..])
  }

  function Start<K(!new), V>(): Observed<K, V> {
    Observed(Empty(), 0, map[], map[], 0)
  }

  // -------------------------------------------------------------------------- recency

  /** The list runs from the most to the least recently used. */
  ghost predicate ByRecency<K>(lru: seq<K>, used: map<K, nat>, clock: nat) {
    && (forall k :: k in lru ==> k in used && used[k] < clock)
    && (forall i, j :: 0 <= i < j < |lru| ==> used[lru[i]] > used[lru[j]])
  }

  lemma {:induction false} DropByRecency<K>(lru: seq<K>, k: K, used: map<K, nat>, clock: nat)
    requires ByRecency(lru, used, clock) && NoRepeats(lru)
    ensures ByRecency(Drop(lru, k), used, clock)
  {
    if lru != [] {
      assert lru == [lru[0]] + lru[1..];
      DropByRecency(lru[1..], k, used, clock);
      DropMembers(lru[1..], k);
      var rest := Drop(lru[1..], k);
      forall j | 0 <= j < |rest| ensures used[lru[0]] > used[rest[j]] {
        assert rest[j] in rest;
        assert rest[j] in lru[1..];
      }
    }
  }

  lemma TouchByRecency<K>(lru: seq<K>, k: K, used: map<K, nat>, clock: nat)
    requires ByRecency(lru, used, clock) && NoRepeats(lru)
    ensures ByRecency(Touch(lru, k), used[k := clock], clock + 1)
  {
    DropByRecency(lru, k, used, clock);
    DropMembers(lru, k);
    var rest := Drop(lru, k);
    forall j | 0 <= j < |rest| ensures rest[j] != k && used[rest[j]] < clock {
      assert rest[j] in rest;
    }
  }

  lemma LaterByRecency<K>(lru: seq<K>, used: map<K, nat>, clock: nat)
    requires ByRecency(lru, used, clock)
    ensures ByRecency(lru, used, clock + 1)
  {
  }

  // ------------------------------------------------------------------ the run invariant

  ghost predicate Holds<K(!new), V>(e: map<K, Entry<V>>, written: map<K, V>) {
    forall k :: k in e ==> k in written && e[k].value == written[k]
  }

  ghost predicate Kept<K(!new), V>(o: Observed<K, V>, c: Config) {
    && Valid(o.shard, c)
    && ByRecency(o.shard.lru, o.used, o.clock)
    && Holds(o.shard.entries, o.written)
    && o.shard.insertions == o.shard.evictions + o.cleared + o.shard.currentEntries
  }

  lemma RoomByRecency<K(!new), V>(o: Observed<K, V>, c: Config, size: nat)
    requires Kept(o, c) && c.maxEntries >= 1 && size <= c.maxSize
    ensures Kept(o.(shard := MakeRoom(o.shard, c, size).1, clock := o.clock + 1), c)
    ensures ByRecency(MakeRoom(o.shard, c, size).1.lru, o.used, o.clock)
  {
    RoomMade(o.shard, c, size);
    RoomHolds(o.shard, c, size, o.written);
    RoomOrdered(o.shard, c, size, o.used, o.clock);
  }

  lemma RoomHolds<K(!new), V>(s: Shard<K, V>, c: Config, size: nat, written: map<K, V>)
    requires Valid(s, c) && size <= c.maxSize && c.maxEntries >= 1 && Holds(s.entries, written)
    ensures Holds(MakeRoom(s, c, size).1.entries, written)
  {
    RoomKeepsPinned(s, c, size);
  }

  lemma RoomOrdered<K(!new), V>(s: Shard<K, V>, c: Config, size: nat, used: map<K, nat>, clock: nat)
    requires Valid(s, c) && size <= c.maxSize && c.maxEntries >= 1 && ByRecency(s.lru, used, clock)
    ensures var lru := MakeRoom(s, c, size).1.lru; ByRecency(lru, used, clock) && ByRecency(lru, used, clock + 1)
  {
    RoomKeepsPinned(s, c, size);
    var n: nat :| EvictedTail(s, MakeRoom(s, c, size).1, n);
    FrontByRecency(s.lru, n, used, clock);
    LaterByRecency(s.lru[..n], used, clock);
  }

  lemma FrontByRecency<K>(lru: seq<K>, n: nat, used: map<K, nat>, clock: nat)
    requires n <= |lru| && ByRecency(lru, used, clock)
    ensures ByRecency(lru[..n], used, clock)
  {
  }

  lemma InsertKept<K(!new), V>(o: Observed<K, V>, c: Config, t: Shard<K, V>, k: K, v: V, size: nat)
    requires Kept(o.(shard := t, clock := o.clock + 1), c) && ByRecency(t.lru, o.used, o.clock) && k !in t.entries
    requires t.currentSize + size <= c.maxSize && t.currentEntries + 1 <= c.maxEntries
    ensures Kept(Observed(Inserted(t, k, v, size), o.clock + 1, o.used[k := o.clock], o.written[k := v], o.cleared), c)
  {
    InsertedExact(t, k, v, size);
    TouchByRecency(t.lru, k, o.used, o.clock);
  }

  lemma UpdateKept<K(!new), V>(o: Observed<K, V>, c: Config, k: K, v: V)
    requires Kept(o, c) && k in o.shard.entries
    ensures var e := o.shard.entries;
            var s := o.shard.(entries := e[k := e[k].(value := v)]);
            Kept(Observed(s, o.clock + 1, o.used, o.written[k := v], o.cleared), c)
  {
    ReplacedSums(o.shard.entries, k, o.shard.entries[k].(value := v));
    LaterByRecency(o.shard.lru, o.used, o.clock);
  }

  lemma PutKept<K(!new), V>(o: Observed<K, V>, c: Config, k: K, v: V, size: nat)
    requires Kept(o, c) && c.maxEntries >= 1
    ensures Kept(Observe(o, c, PutOp(k, v, size)), c)
  {
    var s := o.shard;
    if size > c.maxSize {
      LaterByRecency(s.lru, o.used, o.clock);
    } else if k in s.entries {
      UpdateKept(o, c, k, v);
    } else {
      RoomByRecency(o, c, size);
      RoomMade(s, c, size);
      var (ok, t) := MakeRoom(s, c, size);
      if ok {
        RoomKeepsPinned(s, c, size);
        InsertKept(o, c, t, k, v, size);
      }
    }
  }

  lemma InvalidateKept<K(!new), V>(o: Observed<K, V>, c: Config, k: K)
    requires Kept(o, c)
    ensures Kept(Observe(o, c, InvalidateOp(k)), c)
  {
    LaterByRecency(o.shard.lru, o.used, o.clock);
    if k in o.shard.entries {
      RemovedExact(o.shard, k);
      DropByRecency(o.shard.lru, k, o.used, o.clock);
      LaterByRecency(Drop(o.shard.lru, k), o.used, o.clock);
    }
  }

  lemma GetKept<K(!new), V>(o: Observed<K, V>, c: Config, k: K)
    requires Kept(o, c)
    ensures Kept(Observe(o, c, GetOp(k)), c)
  {
    LaterByRecency(o.shard.lru, o.used, o.clock);
    if k in o.shard.entries {
      TouchByRecency(o.shard.lru, k, o.used, o.clock);
      DropMembers(o.shard.lru, k);
      ConsNoRepeats(k, Drop(o.shard.lru, k));
    }
  }

  lemma PinsKept<K(!new), V>(o: Observed<K, V>, c: Config, k: K, pins: nat)
    requires Kept(o, c) && k in o.shard.entries
    ensures var s := o.shard.(entries := o.shard.entries[k := o.shard.entries[k].(pins := pins)]);
            Kept(o.(shard := s, clock := o.clock + 1), c)
  {
    ReplacedSums(o.shard.entries, k, o.shard.entries[k].(pins := pins));
    LaterByRecency(o.shard.lru, o.used, o.clock);
  }

  lemma PinKept<K(!new), V>(o: Observed<K, V>, c: Config, k: K)
    requires Kept(o, c)
    ensures Kept(Observe(o, c, PinOp(k)), c)
  {
    LaterByRecency(o.shard.lru, o.used, o.clock);
    if k in o.shard.entries {
      PinsKept(o, c, k, (o.shard.entries[k].pins + 1) % U64);
    }
  }

  lemma UnpinKept<K(!new), V>(o: Observed<K, V>, c: Config, k: K)
    requires Kept(o, c)
    ensures Kept(Observe(o, c, UnpinOp(k)), c)
  {
    LaterByRecency(o.shard.lru, o.used, o.clock);
    if k in o.shard.entries {
      PinsKept(o, c, k, (o.shard.entries[k].pins + U64 - 1) % U64);
    }
  }

  lemma ClearKept<K(!new), V>(o: Observed<K, V>, c: Config)
    requires Kept(o, c)
    ensures Kept(Observe(o, c, ClearOp), c)
  {
  }

  lemma StepKept<K(!new), V>(o: Observed<K, V>, c: Config, op: Op<K, V>)
    requires Kept(o, c) && c.maxEntries >= 1
    ensures Kept(Observe(o, c, op), c)
  {
    match op
    case GetOp(k) => GetKept(o, c, k);
    case PutOp(k, v, size) => PutKept(o, c, k, v, size);
    case InvalidateOp(k) => InvalidateKept(o, c, k);
    case PinOp(k) => PinKept(o, c, k);
    case UnpinOp(k) => UnpinKept(o, c, k);
    case ClearOp => ClearKept(o, c);
  }

  /** Over every run: the size is the exact sum of the entry sizes and the count that of the map, both within
      their limits; the recency list is free of repetitions, tracks only entries and is ordered by last
      insertion or hit; a present key has the value last put; every insertion is accounted for by an eviction,
      a clear or an entry. */
  lemma {:induction false} RunKept<K(!new), V>(o: Observed<K, V>, c: Config, ops: seq<Op<K, V>>)
    requires Kept(o, c) && c.maxEntries >= 1
    ensures Kept(Run(o, c, ops), c)
    decreases |ops|
  {
    if ops != [] {
      StepKept(o, c, ops[0]);
      RunKept(Observe(o, c, ops[0]), c, ops[1..]);
    }
  }

  lemma StartKept<K(!new), V>(c: Config)
    ensures Kept<K, V>(Start(), c)
  {
  }

  ghost predicate KeptBy<K(!new), V>(c: Config, ops: seq<Op<K, V>>) {
    Kept(Run(Start(), c, ops), c)
  }

  lemma KeptFromStart<K(!new), V>(c: Config, ops: seq<Op<K, V>>)
    requires c.maxEntries >= 1
    ensures KeptBy(c, ops)
  {
    StartKept<K, V>(c);
    RunKept(Start<K, V>(), c, ops);
  }

  /** With a limit of zero entries the cap on attempts is zero: eviction reports success at once and the entry is
      inserted over the limit. */
  lemma ZeroLimitBreaks<K(!new), V>(c: Config, k: K, v: V)
    requires c.maxEntries == 0
    ensures !KeptBy(c, [PutOp(k, v, 0)])
  {
    var op: Op<K, V> := PutOp(k, v, 0);
    EvictStops(Empty<K, V>(), 0, 1, 0);
    assert Put(Empty<K, V>(), c, k, v, 0).1.currentEntries == 1;
    OneStepRun(Start<K, V>(), c, op);
  }

  lemma OneStepRun<K(!new), V>(o: Observed<K, V>, c: Config, op: Op<K, V>)
    ensures Run(o, c, [op]) == Observe(o, c, op)
  {
    assert [op][1..] == [];
  }

  /** From an empty shard all of this holds of every run if and only if the shard may hold an entry at all. */
  lemma RunsKeptIff<K(!new), V(!new)>(c: Config, k: K, v: V)
    ensures (forall ops: seq<Op<K, V>> :: KeptBy(c, ops)) <==> c.maxEntries >= 1
  {
    if c.maxEntries >= 1 {
      forall ops: seq<Op<K, V>> ensures KeptBy(c, ops) {
        KeptFromStart(c, ops);
      }
    } else {
      ZeroLimitBreaks(c, k, v);
    }
  }

  // ------------------------------------------------------------------ who gets evicted

  ghost predicate Evicted<K(!new), V>(s: Shard<K, V>, t: Shard<K, V>, k: K) {
    k in s.entries && k !in t.entries
  }

  /** In any reachable state, a put evicts no pinned entry, and every entry it evicts was used less recently
      than every tracked unpinned entry it leaves. */
  lemma PutEvictsOldest<K(!new), V>(o: Observed<K, V>, c: Config, k: K, v: V, size: nat, x: K, y: K)
    requires Kept(o, c) && c.maxEntries >= 1
    requires var t := Put(o.shard, c, k, v, size).1; Evicted(o.shard, t, x)
    ensures Unpinned(o.shard.entries, x) && x in o.shard.lru && x in o.used
    ensures var t := Put(o.shard, c, k, v, size).1;
            y in o.shard.lru && Unpinned(o.shard.entries, y) && y in t.entries ==> y in o.used && o.used[x] < o.used[y]
  {
    var s := o.shard;
    RoomKeepsPinned(s, c, size);
    var t := MakeRoom(s, c, size).1;
    var n: nat :| EvictedTail(s, t, n);
    TailMembers(s, t, n, x, y);
    if y in s.lru && Unpinned(s.entries, y) && y in t.entries {
      FrontIsNewer(s.lru, n, o.used, o.clock, x, y);
    }
  }

  lemma TailMembers<K(!new), V>(s: Shard<K, V>, t: Shard<K, V>, n: nat, x: K, y: K)
    requires EvictedTail(s, t, n) && x in s.entries && x !in t.entries
    ensures Unpinned(s.entries, x) && x in s.lru[n..] && x in s.lru
    ensures y in s.lru && Unpinned(s.entries, y) && y in t.entries ==> y in s.lru[..n]
  {
    assert s.lru == s.lru[..n] + s.lru[n..];
  }

  lemma FrontIsNewer<K>(lru: seq<K>, n: nat, used: map<K, nat>, clock: nat, x: K, y: K)
    requires n <= |lru| && ByRecency(lru, used, clock) && x in lru[n..] && y in lru[..n]
    ensures x in used && y in used && used[x] < used[y]
  {
    var i :| 0 <= i < |lru[n..]| && lru[n..][i] == x;
    var j :| 0 <= j < n && lru[j] == y;
    assert lru[n + i] == x;
  }

  /** No operation but invalidating the key itself or clearing takes a pinned entry out or changes its pins or
      size, and only a put of the key changes its value. */
  lemma PinnedStays<K(!new), V>(s: Shard<K, V>, c: Config, op: Op<K, V>, k: K)
    requires Valid(s, c) && c.maxEntries >= 1 && k in s.entries && s.entries[k].pins > 0
    requires op != InvalidateOp(k) && op != ClearOp
    ensures var t := Step(s, c, op);
            && k in t.entries && t.entries[k].size == s.entries[k].size
            && (op != PinOp(k) && op != UnpinOp(k) ==> t.entries[k].pins == s.entries[k].pins)
            && (!(op.PutOp? && op.key == k) ==> t.entries[k].value == s.entries[k].value)
  {
    if op.PutOp? {
      PinnedStaysInPut(s, c, op, k);
    }
  }

  lemma PinnedStaysInPut<K(!new), V>(s: Shard<K, V>, c: Config, op: Op<K, V>, k: K)
    requires Valid(s, c) && c.maxEntries >= 1 && k in s.entries && s.entries[k].pins > 0 && op.PutOp?
    ensures var t := Put(s, c, op.key, op.value, op.size).1;
            && k in t.entries && t.entries[k].size == s.entries[k].size && t.entries[k].pins == s.entries[k].pins
            && (op.key != k ==> t.entries[k].value == s.entries[k].value)
  {
    if op.size <= c.maxSize && op.key !in s.entries {
      RoomKeepsPinned(s, c, op.size);
      var t := MakeRoom(s, c, op.size).1;
      assert k in t.entries && t.entries[k] == s.entries[k];
    }
  }
}
