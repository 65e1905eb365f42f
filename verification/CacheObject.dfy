/** The sharded cache as an object: a list of shard objects, one of which serves each operation. */
module CacheObject {
  import opened Results
  import opened LruState
  import opened LruRuns
  import opened LruShard
  import opened ShardedCache

  /** One shard changed: what that means for the whole. */
  lemma OneChanged<K(!new), V>(hash: K -> nat, c: Config, before: Shards<K, V>, after: Shards<K, V>, op: Op<K, V>)
    requires Placed(hash, c, before) && c.maxEntries >= 1 && !op.ClearOp? && |after| == |before|
    requires forall j :: 0 <= j < |after| ==>
               after[j] == if j == ShardIndex(hash, op.key, |before|) then Step(before[j], c, op) else before[j]
    ensures after == CacheStep(hash, c, before, op) && Placed(hash, c, after)
  {
    StepPlaced(hash, c, before, op);
  }

  class Cache<K(==, !new), V> {
    const shards: seq<CacheShard<K, V>>
    const config: Config
    const hash: K -> nat

    /** What the shards hold. */
    ghost function Views(): (ss: Shards<K, V>)
      reads shards
      ensures |ss| == |shards|
    {
      seq(|shards|, i requires 0 <= i < |shards| reads shards => shards[i].View())
    }

    ghost predicate Ready()
      reads shards
    {
      && (forall i, j :: 0 <= i < j < |shards| ==> shards[i] != shards[j])
      && (forall i :: 0 <= i < |shards| ==> shards[i].config == config)
      && config.maxEntries >= 1 && Placed(hash, config, Views())
    }

    constructor (c: Config, shardCount: nat, h: K -> nat)
      requires c.maxEntries >= 1 && shardCount >= 1
      ensures Ready() && config == c && hash == h && |shards| == shardCount
      ensures forall i :: 0 <= i < |shards| ==> fresh(shards[i])
      ensures forall k :: Cached(hash, Views(), k) == None
    {
      config := c;
      hash := h;
      var ss: seq<CacheShard<K, V>> := [];
      while |ss| < shardCount
        invariant |ss| <= shardCount
        invariant forall i :: 0 <= i < |ss| ==> fresh(ss[i]) && ss[i].View() == Empty() && ss[i].config == c
        invariant forall i, j :: 0 <= i < j < |ss| ==> ss[i] != ss[j]
      {
        var s := new CacheShard(c);
        ss := ss + [s];
      }
      shards := ss;
    }

    method GetValue(key: K) returns (r: Option<V>)
      requires Ready()
      modifies shards
      ensures Ready() && Views() == CacheStep(hash, config, old(Views()), GetOp(key))
      ensures r == Cached(hash, old(Views()), key)
    {
      ghost var before := Views();
      var i := ShardIndex(hash, key, |shards|);
      r := shards[i].GetValue(key);
      OneChanged(hash, config, before, Views(), GetOp(key));
    }

    method PutValue(key: K, value: V, size: nat) returns (r: Status)
      requires Ready()
      modifies shards
      ensures Ready() && Views() == CacheStep(hash, config, old(Views()), PutOp(key, value, size))
      ensures r.Ok? <==> Accepted(hash, config, old(Views()), PutOp(key, value, size))
    {
      ghost var before := Views();
      var i := ShardIndex(hash, key, |shards|);
      assert Valid(before[i], config);
      r := shards[i].PutValue(key, value, size);
      OneChanged(hash, config, before, Views(), PutOp(key, value, size));
    }

    method InvalidateKey(key: K) returns (removed: bool)
      requires Ready()
      modifies shards
      ensures Ready() && Views() == CacheStep(hash, config, old(Views()), InvalidateOp(key))
      ensures removed == Cached(hash, old(Views()), key).Some?
    {
      ghost var before := Views();
      var i := ShardIndex(hash, key, |shards|);
      assert Valid(before[i], config);
      removed := shards[i].InvalidateKey(key);
      OneChanged(hash, config, before, Views(), InvalidateOp(key));
    }

    method PinKey(key: K) returns (found: bool)
      requires Ready()
      modifies shards
      ensures Ready() && Views() == CacheStep(hash, config, old(Views()), PinOp(key))
      ensures found == Cached(hash, old(Views()), key).Some?
    {
      ghost var before := Views();
      var i := ShardIndex(hash, key, |shards|);
      found := shards[i].PinKey(key);
      OneChanged(hash, config, before, Views(), PinOp(key));
    }

    method UnpinKey(key: K) returns (found: bool)
      requires Ready()
      modifies shards
      ensures Ready() && Views() == CacheStep(hash, config, old(Views()), UnpinOp(key))
      ensures found == Cached(hash, old(Views()), key).Some?
    {
      ghost var before := Views();
      var i := ShardIndex(hash, key, |shards|);
      found := shards[i].UnpinKey(key);
      OneChanged(hash, config, before, Views(), UnpinOp(key));
    }

    /** Clear every shard; the result adds up what each held. */
    method ClearAll() returns (entriesCleared: nat, memoryFreed: nat)
      requires Ready()
      modifies shards
      ensures Ready() && Views() == CacheStep(hash, config, old(Views()), ClearOp)
      ensures entriesCleared == TotalEntries(old(Views())) && memoryFreed == TotalSize(old(Views()))
    {
      entriesCleared, memoryFreed := 0, 0;
      ghost var before := Views();
      StepPlaced(hash, config, before, ClearOp);
      assert before[0..] == before;
      for i := 0 to |shards|
        invariant forall j :: 0 <= j < |shards| ==> shards[j].View() == if j < i then Clear(before[j]) else before[j]
        invariant entriesCleared + TotalEntries(before[i..]) == TotalEntries(before)
        invariant memoryFreed + TotalSize(before[i..]) == TotalSize(before)
      {
        assert before[i..][1..] == before[i + 1..];
        assert |before[i].entries| == before[i].currentEntries;
        var entries, memory := shards[i].ClearAll();
        entriesCleared := entriesCleared + entries;
        memoryFreed := memoryFreed + memory;
      }
      assert Views() == CacheStep(hash, config, before, ClearOp);
    }
  }
}
