/** A cache of several shards, each key kept by the shard its hash selects. */
module ShardedCache {
  import opened Results
  import opened Sums
  import opened LruState
  import opened LruRuns

  type Shards<K(!new), !V> = seq<Shard<K, V>>

  /** The shard of a key, for any hash function. */
  function ShardIndex<K>(hash: K -> nat, k: K, n: nat): (i: nat)
    requires n > 0
    ensures i < n
  {
    hash(k) % n
  }

  /** One operation on the cache: routed to one shard, or to all of them for a clear. */
  function CacheStep<K(!new), V>(hash: K -> nat, c: Config, ss: Shards<K, V>, op: Op<K, V>): (r: Shards<K, V>)
    requires |ss| > 0
    ensures |r| == |ss|
  {
    if op.ClearOp? then seq(|ss|, i requires 0 <= i < |ss| => Clear(ss[i]))
    else
      var i := ShardIndex(hash, op.key, |ss|);
      ss[i := Step(ss[i], c, op)]
  }

  /** Whether the operation is a put that is accepted. */
  predicate Accepted<K(!new), V>(hash: K -> nat, c: Config, ss: Shards<K, V>, op: Op<K, V>)
    requires |ss| > 0
  {
    op.PutOp? && Put(ss[ShardIndex(hash, op.key, |ss|)], c, op.key, op.value, op.size).0.Ok?
  }

  /** What `get` returns. */
  function Cached<K(!new), V>(hash: K -> nat, ss: Shards<K, V>, k: K): Option<V>
    requires |ss| > 0
  {
    Get(ss[ShardIndex(hash, k, |ss|)], k).0
  }

  /** Every shard is valid and keeps only keys of its own. */
  ghost predicate Placed<K(!new), V>(hash: K -> nat, c: Config, ss: Shards<K, V>) {
    && |ss| > 0
    && forall i :: 0 <= i < |ss| ==> Valid(ss[i], c) && forall k :: k in ss[i].entries ==> hash(k) % |ss| == i
  }

  // ---------------------------------------------------------------------- one shard

  lemma StepValid<K(!new), V>(s: Shard<K, V>, c: Config, op: Op<K, V>)
    requires Valid(s, c) && c.maxEntries >= 1
    ensures Valid(Step(s, c, op), c)
  {
    if op.PutOp? {
      PutValid(s, c, op.key, op.value, op.size);
    } else if !op.ClearOp? && op.key in s.entries {
      OtherValid(s, c, op);
    }
  }

  lemma OtherValid<K(!new), V>(s: Shard<K, V>, c: Config, op: Op<K, V>)
    requires Valid(s, c) && !op.PutOp? && !op.ClearOp? && op.key in s.entries
    ensures Valid(Step(s, c, op), c)
  {
    var k := op.key;
    DropMembers(s.lru, k);
    match op
    case GetOp(_) => ConsNoRepeats(k, Drop(s.lru, k));
    case InvalidateOp(_) => RemovedExact(s, k);
    case PinOp(_) => ReplacedSums(s.entries, k, Pin(s, k).1.entries[k]);
    case UnpinOp(_) => ReplacedSums(s.entries, k, Unpin(s, k).1.entries[k]);
  }

  /** Where an entry after a step comes from: the accepted put of its key, or unchanged from before. */
  lemma StepOrigin<K(!new), V>(s: Shard<K, V>, c: Config, op: Op<K, V>, k: K)
    requires Valid(s, c) && c.maxEntries >= 1 && k in Step(s, c, op).entries
    ensures op != ClearOp && op != InvalidateOp(k)
    ensures if op.PutOp? && op.key == k && Put(s, c, k, op.value, op.size).0.Ok?
            then Step(s, c, op).entries[k].value == op.value
            else k in s.entries && Step(s, c, op).entries[k].value == s.entries[k].value
  {
    if op.PutOp? && op.size <= c.maxSize {
      RoomKeepsPinned(s, c, op.size);
    }
  }

  // ---------------------------------------------------------------- whole runs

  /** The cache with the value of each key's last accepted put since it was last invalidated or cleared. */
  datatype World<K(!new), !V> = World(shards: Shards<K, V>, written: map<K, V>)

  function WorldStep<K(!new), V>(hash: K -> nat, c: Config, w: World<K, V>, op: Op<K, V>): World<K, V>
    requires |w.shards| > 0
  {
    World(CacheStep(hash, c, w.shards, op),
          match op
          case PutOp(k, v, _) => if Accepted(hash, c, w.shards, op) then w.written[k := v] else w.written
          case InvalidateOp(k) => w.written - {k}
          case ClearOp => map[]
          case _ => w.written)
  }

  function WorldRun<K(!new), V>(hash: K -> nat, c: Config, w: World<K, V>, ops: seq<Op<K, V>>): (r: World<K, V>)
    requires |w.shards| > 0
    ensures |r.shards| == |w.shards|
    decreases |ops|
  {
    if ops == [] then w else WorldRun(hash, c, WorldStep(hash, c, w, ops[0]), ops[1..])
  }

  /** The cache is part of the map of last writes. */
  ghost predicate Truthful<K(!new), V>(hash: K -> nat, w: World<K, V>)
    requires |w.shards| > 0
  {
    forall k :: Cached(hash, w.shards, k).Some? ==> k in w.written && Cached(hash, w.shards, k).value == w.written[k]
  }

  lemma StepPlaced<K(!new), V>(hash: K -> nat, c: Config, ss: Shards<K, V>, op: Op<K, V>)
    requires Placed(hash, c, ss) && c.maxEntries >= 1
    ensures Placed(hash, c, CacheStep(hash, c, ss, op))
  {
    if !op.ClearOp? {
      var i := ShardIndex(hash, op.key, |ss|);
      var t := Step(ss[i], c, op);
      StepValid(ss[i], c, op);
      forall k | k in t.entries ensures ShardIndex(hash, k, |ss|) == i {
        StepOrigin(ss[i], c, op, k);
      }
      ReplacedShard(hash, c, ss, i, t);
    }
  }

  lemma ReplacedShard<K(!new), V>(hash: K -> nat, c: Config, ss: Shards<K, V>, i: nat, t: Shard<K, V>)
    requires Placed(hash, c, ss) && i < |ss| && Valid(t, c) && forall k :: k in t.entries ==>
                ShardIndex(hash, k, |ss|) == i
    ensures Placed(hash, c, ss[i := t])
  {
  }

  lemma CachedAfter<K(!new), V>(hash: K -> nat, c: Config, ss: Shards<K, V>, op: Op<K, V>, k: K)
    requires Placed(hash, c, ss) && c.maxEntries >= 1
    ensures Cached(hash, CacheStep(hash, c, ss, op), k).Some? ==>
              && op != ClearOp && op != InvalidateOp(k)
              && Cached(hash, CacheStep(hash, c, ss, op), k)
                 == if Accepted(hash, c, ss, op) && op.key == k then Some(op.value) else Cached(hash, ss, k)
  {
    if !op.ClearOp? && Cached(hash, CacheStep(hash, c, ss, op), k).Some? {
      var i, j := ShardIndex(hash, op.key, |ss|), ShardIndex(hash, k, |ss|);
      if i == j {
        StepOrigin(ss[i], c, op, k);
      }
    }
  }

  lemma StepTruthful<K(!new), V>(hash: K -> nat, c: Config, w: World<K, V>, op: Op<K, V>)
    requires Placed(hash, c, w.shards) && c.maxEntries >= 1 && Truthful(hash, w)
    ensures Truthful(hash, WorldStep(hash, c, w, op))
  {
    var x := WorldStep(hash, c, w, op);
    forall k | Cached(hash, x.shards, k).Some?
      ensures k in x.written && Cached(hash, x.shards, k).value == x.written[k]
    {
      CachedAfter(hash, c, w.shards, op, k);
    }
  }

  /** For any hash, over every run: a get returns nothing or the value of the last accepted put since the
      key was last invalidated or cleared. */
  lemma {:induction false} RunTruthful<K(!new), V>(hash: K -> nat, c: Config, w: World<K, V>, ops: seq<Op<K, V>>)
    requires Placed(hash, c, w.shards) && c.maxEntries >= 1 && Truthful(hash, w)
    ensures Placed(hash, c, WorldRun(hash, c, w, ops).shards) && Truthful(hash, WorldRun(hash, c, w, ops))
    decreases |ops|
  {
    if ops != [] {
      StepPlaced(hash, c, w.shards, ops[0]);
      StepTruthful(hash, c, w, ops[0]);
      RunTruthful(hash, c, WorldStep(hash, c, w, ops[0]), ops[1..]);
    }
  }

  /** A cache as it is made: shards without entries. */
  function Fresh<K(!new), V>(n: nat): Shards<K, V> {
    seq(n, i => Empty())
  }

  lemma FreshPlaced<K(!new), V>(hash: K -> nat, c: Config, n: nat)
    requires n > 0
    ensures Placed(hash, c, Fresh<K, V>(n)) && forall k :: Cached(hash, Fresh<K, V>(n), k) == None
  {
  }

  lemma RunFromFresh<K(!new), V>(hash: K -> nat, c: Config, n: nat, ops: seq<Op<K, V>>)
    requires n > 0 && c.maxEntries >= 1
    ensures var w := WorldRun(hash, c, World(Fresh(n), map[]), ops); Placed(hash, c, w.shards) && Truthful(hash, w)
  {
    FreshPlaced<K, V>(hash, c, n);
    RunTruthful(hash, c, World(Fresh(n), map[]), ops);
  }

  /** A key stops being cached only by invalidating it, by clearing, or by a put of a new key to the same shard,
      and that evicts none but tracked unpinned entries. */
  lemma LossExplained<K(!new), V>(hash: K -> nat, c: Config, ss: Shards<K, V>, op: Op<K, V>, k: K)
    requires Placed(hash, c, ss) && c.maxEntries >= 1
    requires Cached(hash, ss, k).Some? && Cached(hash, CacheStep(hash, c, ss, op), k).None?
    ensures op == InvalidateOp(k) || op == ClearOp
            || (var s := ss[ShardIndex(hash, k, |ss|)];
                && op.PutOp? && ShardIndex(hash, op.key, |ss|) == ShardIndex(hash, k, |ss|)
                && op.key !in s.entries && k in s.lru && Unpinned(s.entries, k))
  {
    if op.PutOp? {
      var i := ShardIndex(hash, op.key, |ss|);
      if i == ShardIndex(hash, k, |ss|) && op.size <= c.maxSize && op.key !in ss[i].entries {
        RoomKeepsPinned(ss[i], c, op.size);
        var t := MakeRoom(ss[i], c, op.size).1;
        var n: nat :| EvictedTail(ss[i], t, n);
        TailMembers(ss[i], t, n, k, k);
      }
    }
  }

  /** The other direction: an accepted put is read back at once, and reading or pinning loses nothing. */
  lemma PutThenGet<K(!new), V>(hash: K -> nat, c: Config, ss: Shards<K, V>, op: Op<K, V>, k: K)
    requires |ss| > 0
    ensures Accepted(hash, c, ss, op) ==> Cached(hash, CacheStep(hash, c, ss, op), op.key) == Some(op.value)
    ensures op.GetOp? || op.PinOp? || op.UnpinOp? ==> Cached(hash, CacheStep(hash, c, ss, op), k) == Cached(hash, ss, k)
  {
  }

  // ------------------------------------------------------------------------- totals

  function TotalEntries<K(!new), V>(ss: Shards<K, V>): nat {
    if ss == [] then 0 else ss[0].currentEntries + TotalEntries(ss[1..])
  }

  function TotalSize<K(!new), V>(ss: Shards<K, V>): nat {
    if ss == [] then 0 else ss[0].currentSize + TotalSize(ss[1..])
  }

  function Keys<K(!new), V>(ss: Shards<K, V>): set<K> {
    if ss == [] then {} else ss[0].entries.Keys + Keys(ss[1..])
  }

  lemma {:induction false} KeysFrom<K(!new), V>(hash: K -> nat, c: Config, ss: Shards<K, V>, i: nat, k: K)
    requires Placed(hash, c, ss) && i <= |ss|
    ensures k in Keys(ss[i..]) <==> ShardIndex(hash, k, |ss|) >= i && Cached(hash, ss, k).Some?
    decreases |ss| - i
  {
    if i < |ss| {
      assert ss[i..][1..] == ss[i + 1..];
      KeysFrom(hash, c, ss, i + 1, k);
    }
  }

  /** The entry counts of the shards add up to the number of keys the whole cache holds, and the cache holds
      at most the limits times the number of shards. */
  lemma TotalsAddUp<K(!new), V>(hash: K -> nat, c: Config, ss: Shards<K, V>)
    requires Placed(hash, c, ss)
    ensures TotalEntries(ss) == |Keys(ss)| <= |ss| * c.maxEntries
    ensures TotalSize(ss) <= |ss| * c.maxSize
    ensures forall k :: k in Keys(ss) <==> Cached(hash, ss, k).Some?
  {
    assert ss[0..] == ss;
    EntriesAddUp(hash, c, ss, 0);
    TotalsBounded(c, ss);
    forall k ensures k in Keys(ss) <==> Cached(hash, ss, k).Some? {
      KeysFrom(hash, c, ss, 0, k);
    }
  }

  lemma {:induction false} EntriesAddUp<K(!new), V>(hash: K -> nat, c: Config, ss: Shards<K, V>, i: nat)
    requires Placed(hash, c, ss) && i <= |ss|
    ensures TotalEntries(ss[i..]) == |Keys(ss[i..])|
    decreases |ss| - i
  {
    if i < |ss| {
      assert ss[i..][1..] == ss[i + 1..];
      EntriesAddUp(hash, c, ss, i + 1);
      forall k | k in ss[i].entries ensures k !in Keys(ss[i + 1..]) {
        KeysFrom(hash, c, ss, i + 1, k);
      }
      DisjointSizes(ss[i].entries, Keys(ss[i + 1..]));
    }
  }

  lemma DisjointSizes<K, V>(e: map<K, V>, ks: set<K>)
    requires e.Keys !! ks
    ensures |e.Keys + ks| == |e| + |ks|
  {
    assert |e.Keys| == |e|;
  }

  lemma {:induction false} TotalsBounded<K(!new), V>(c: Config, ss: Shards<K, V>)
    requires forall i :: 0 <= i < |ss| ==> Valid(ss[i], c)
    ensures TotalEntries(ss) <= |ss| * c.maxEntries && TotalSize(ss) <= |ss| * c.maxSize
  {
    if ss != [] {
      assert Valid(ss[0], c);
      TotalsBounded(c, ss[1..]);
      OneMoreTime(|ss| - 1, c.maxEntries);
      OneMoreTime(|ss| - 1, c.maxSize);
    }
  }
}
