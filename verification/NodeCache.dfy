/** The node cache as an object. Its index of versions is an object of its own, which a clone shares. */
module NodeCache {
  import opened Results
  import opened LruState
  import opened LruRuns
  import opened ShardedCache
  import opened CacheObject
  import opened NodeVersions
  import opened NodeClones

  class VersionIndex {
    var versions: Index

    constructor ()
      ensures versions == map[]
    {
      versions := map[];
    }
  }

  class NodeCache<V(!new)> {
    const cache: Cache<NodeKey, V>
    const index: VersionIndex

    ghost function View(): Nodes<V>
      reads index, cache.shards
    {
      Nodes(cache.Views(), index.versions)
    }

    /** What every operation relies on, whoever shares the index. */
    ghost predicate Usable()
      reads index, cache.shards
    {
      cache.Ready() && Filed(index.versions)
    }

    constructor (c: Config, shardCount: nat, h: NodeKey -> nat)
      requires c.maxEntries >= 1 && shardCount >= 1
      ensures Usable() && fresh(cache) && fresh(index) && forall i :: 0 <= i < |cache.shards| ==> fresh(cache.shards[i])
      ensures Sound(h, c, View()) && index.versions == map[]
    {
      cache := new Cache(c, shardCount, h);
      index := new VersionIndex();
    }

    /** An empty cache of the same configuration over the same index. */
    constructor Clone(other: NodeCache<V>)
      requires other.Usable()
      ensures index == other.index && fresh(cache) && forall i :: 0 <= i < |cache.shards| ==> fresh(cache.shards[i])
      ensures Usable() && cache.config == other.cache.config && forall k :: Cached(cache.hash, cache.Views(), k) == None
    {
      cache := new Cache(other.cache.config, |other.cache.shards|, other.cache.hash);
      index := other.index;
    }

    method GetVersion(pageId: nat, lsn: nat) returns (r: Option<V>)
      requires Usable()
      modifies cache.shards
      ensures Usable() && Steps(cache.hash, cache.config, old(View()), GetNode(NodeKey(pageId, lsn)), View())
      ensures r == Cached(cache.hash, old(cache.Views()), NodeKey(pageId, lsn))
    {
      r := cache.GetValue(NodeKey(pageId, lsn));
    }

    method PutVersion(pageId: nat, lsn: nat, node: V, size: nat) returns (r: Status)
      requires Usable()
      modifies index, cache.shards
      ensures Usable()
      ensures Steps(cache.hash, cache.config, old(View()), PutNode(NodeKey(pageId, lsn), node, size), View())
      ensures r.Ok? ==> Cached(cache.hash, cache.Views(), NodeKey(pageId, lsn)) == Some(node)
    {
      var key := NodeKey(pageId, lsn);
      ghost var before := cache.Views();
      IndexSteps(index.versions, 0, key);
      PutThenGet(cache.hash, cache.config, before, PutOp(key, node, size), key);
      r := cache.PutValue(key, node, size);
      if r.Ok? {
        var versions := if pageId in index.versions then index.versions[pageId] else {};
        index.versions := index.versions[pageId := versions + {key}];
      }
    }

    /** Take the page off the index and invalidate each of its versions; the result counts the versions indexed.
        No version is left if and only if the index covered them all. */
    method InvalidateVersions(pageId: nat) returns (count: nat)
      requires Usable()
      modifies index, cache.shards
      ensures Usable()
      ensures Steps(cache.hash, cache.config, old(View()), InvalidatePage(pageId), View())
      ensures Absent(cache.hash, cache.Views(), pageId)
              <==> CoversPage(cache.hash, old(cache.Views()), old(index.versions), pageId)
      ensures count == |Versions(old(index.versions), pageId)|
    {
      ghost var s := View();
      IndexSteps(index.versions, pageId, NodeKey(pageId, 0));
      var keys := if pageId in index.versions then index.versions[pageId] else {};
      count := |keys|;
      index.versions := index.versions - {pageId};
      InvalidateKeys(keys);
      InvalidateAbsentIff(cache.hash, cache.config, s, pageId, View());
    }

    /** Invalidate a set of keys, in whatever order the hash set lists them. */
    method InvalidateKeys(keys: set<NodeKey>)
      requires cache.Ready()
      modifies cache.shards
      ensures cache.Ready()
      ensures exists ks: seq<NodeKey> :: Lists(ks, keys)
                && cache.Views() == InvalidateAll(cache.hash, cache.config, old(cache.Views()), ks)
    {
      ghost var before := cache.Views();
      var todo := keys;
      ghost var done: seq<NodeKey> := [];
      while todo != {}
        invariant todo <= keys && cache.Ready()
        invariant Lists(done, keys - todo)
        invariant cache.Views() == InvalidateAll(cache.hash, cache.config, before, done)
      {
        var key :| key in todo;
        InvalidateSnoc(cache.hash, cache.config, before, done, key);
        var _ := cache.InvalidateKey(key);
        todo := todo - {key};
        done := done + [key];
      }
      assert Lists(done, keys);
    }

    method ClearAll() returns (entriesCleared: nat, memoryFreed: nat)
      requires Usable()
      modifies index, cache.shards
      ensures Usable() && Steps(cache.hash, cache.config, old(View()), ClearNodes, View())
      ensures entriesCleared == TotalEntries(old(cache.Views())) && memoryFreed == TotalSize(old(cache.Views()))
    {
      index.versions := map[];
      entriesCleared, memoryFreed := cache.ClearAll();
    }
  }
}
