/** A node cache and its clone: entries of their own, one index between them. */
module NodeClones {
  import opened Results
  import opened LruState
  import opened LruRuns
  import opened ShardedCache
  import opened NodeVersions

  /** All cached versions of one page stand in the index. */
  ghost predicate CoversPage<V>(hash: NodeKey -> nat, ss: Shards<NodeKey, V>, ix: Index, p: nat)
    requires |ss| > 0
  {
    forall k: NodeKey :: k.pageId == p && Cached(hash, ss, k).Some? ==> k in Versions(ix, p)
  }

  /** Invalidating a page removes all its versions if and only if the index covered them. */
  lemma InvalidateAbsentIff<V(!new)>(hash: NodeKey -> nat, c: Config, s: Nodes<V>, p: nat, t: Nodes<V>)
    requires |s.shards| > 0 && Filed(s.pageVersions) && Steps(hash, c, s, InvalidatePage(p), t)
    ensures |t.shards| > 0
    ensures Absent(hash, t.shards, p) <==> CoversPage(hash, s.shards, s.pageVersions, p)
  {
    var ks: seq<NodeKey> :| Lists(ks, Versions(s.pageVersions, p)) && t.shards == InvalidateAll(hash, c, s.shards, ks);
    forall k: NodeKey | k.pageId == p
      ensures Cached(hash, t.shards, k) == if k in Versions(s.pageVersions, p) then None else Cached(hash, s.shards, k)
    {
      InvalidateAllExact(hash, c, s.shards, ks, k);
    }
  }

  /** The two handles. */
  datatype Pair<!V> = Pair(mine: Shards<NodeKey, V>, theirs: Shards<NodeKey, V>, pageVersions: Index)

  datatype Who = Mine | Theirs

  ghost predicate Ready<V>(hash: NodeKey -> nat, c: Config, s: Pair<V>) {
    Placed(hash, c, s.mine) && Placed(hash, c, s.theirs) && c.maxEntries >= 1 && Filed(s.pageVersions)
  }

  /** One operation through one of the two handles. */
  ghost predicate PairSteps<V(!new)>(hash: NodeKey -> nat, c: Config, s: Pair<V>, who: Who, op: NodeOp<V>, t: Pair<V>)
    requires |s.mine| > 0 && |s.theirs| > 0
  {
    match who
    case Mine =>
      t.theirs == s.theirs && Steps(hash, c, Nodes(s.mine, s.pageVersions), op, Nodes(t.mine, t.pageVersions))
    case Theirs =>
      t.mine == s.mine && Steps(hash, c, Nodes(s.theirs, s.pageVersions), op, Nodes(t.theirs, t.pageVersions))
  }

  ghost predicate PairReaches<V(!new)>(hash: NodeKey -> nat, c: Config, s: Pair<V>, ops: seq<(Who, NodeOp<V>)>,
                                       t: Pair<V>)
    decreases |ops|
  {
    && |s.mine| > 0 && |s.theirs| > 0
    && if ops == [] then t == s
       else exists m :: PairSteps(hash, c, s, ops[0].0, ops[0].1, m) && PairReaches(hash, c, m, ops[1..], t)
  }

  /** A step keeps the shards well placed and the index filed, and, unless it invalidates the page or clears,
      every indexed version of the page stays indexed. */
  lemma StepIndex<V(!new)>(hash: NodeKey -> nat, c: Config, s: Nodes<V>, op: NodeOp<V>, t: Nodes<V>, p: nat)
    requires Placed(hash, c, s.shards) && c.maxEntries >= 1 && Filed(s.pageVersions) && Steps(hash, c, s, op, t)
    ensures Placed(hash, c, t.shards) && Filed(t.pageVersions)
    ensures op != InvalidatePage(p) && op != ClearNodes ==> Versions(s.pageVersions, p) <= Versions(t.pageVersions, p)
  {
    match op
    case GetNode(k) => StepPlaced(hash, c, s.shards, GetOp(k));
    case PinNode(k) => StepPlaced(hash, c, s.shards, PinOp(k));
    case UnpinNode(k) => StepPlaced(hash, c, s.shards, UnpinOp(k));
    case ClearNodes => StepPlaced(hash, c, s.shards, ClearOp);
    case PutNode(k, v, size) =>
      StepPlaced(hash, c, s.shards, PutOp(k, v, size));
      IndexSteps(s.pageVersions, 0, k);
    case InvalidatePage(q) =>
      var ks: seq<NodeKey> :| Lists(ks, Versions(s.pageVersions, q))
          && t.shards == InvalidateAll(hash, c, s.shards, ks);
      InvalidateAllPlaced(hash, c, s.shards, ks);
      IndexSteps(s.pageVersions, q, NodeKey(q, 0));
  }

  /** A step through a handle keeps its own pages covered. */
  lemma StepCoversPage<V(!new)>(hash: NodeKey -> nat, c: Config, s: Nodes<V>, op: NodeOp<V>, t: Nodes<V>, p: nat)
    requires Placed(hash, c, s.shards) && c.maxEntries >= 1 && Filed(s.pageVersions) && Steps(hash, c, s, op, t)
    requires CoversPage(hash, s.shards, s.pageVersions, p)
    ensures |t.shards| > 0 && CoversPage(hash, t.shards, t.pageVersions, p)
  {
    StepIndex(hash, c, s, op, t, p);
    match op
    case GetNode(k) => OwnStepCovers(hash, c, s, GetOp(k), p);
    case PinNode(k) => OwnStepCovers(hash, c, s, PinOp(k), p);
    case UnpinNode(k) => OwnStepCovers(hash, c, s, UnpinOp(k), p);
    case ClearNodes => OwnStepCovers(hash, c, s, ClearOp, p);
    case PutNode(k, v, size) => OwnStepCovers(hash, c, s, PutOp(k, v, size), p);
    case InvalidatePage(q) =>
      if q == p {
        InvalidateAbsentIff(hash, c, s, p, t);
      } else {
        OtherPageStays(hash, c, s, q, t, p);
      }
  }

  lemma OwnStepCovers<V>(hash: NodeKey -> nat, c: Config, s: Nodes<V>, op: Op<NodeKey, V>, p: nat)
    requires Placed(hash, c, s.shards) && c.maxEntries >= 1 && CoversPage(hash, s.shards, s.pageVersions, p)
    ensures var t := CacheStep(hash, c, s.shards, op);
            && (op == ClearOp ==> CoversPage(hash, t, map[], p))
            && (Accepted(hash, c, s.shards, op) ==> CoversPage(hash, t, Tracked(s.pageVersions, op.key), p))
            && (!Accepted(hash, c, s.shards, op) ==> CoversPage(hash, t, s.pageVersions, p))
  {
    var t := CacheStep(hash, c, s.shards, op);
    forall k: NodeKey | k.pageId == p && Cached(hash, t, k).Some?
      ensures op != ClearOp && (k in Versions(s.pageVersions, p) || (Accepted(hash, c, s.shards, op) && op.key == k))
    {
      CachedAfter(hash, c, s.shards, op, k);
    }
  }

  lemma OtherPageStays<V(!new)>(hash: NodeKey -> nat, c: Config, s: Nodes<V>, q: nat, t: Nodes<V>, p: nat)
    requires |s.shards| > 0 && Filed(s.pageVersions) && Steps(hash, c, s, InvalidatePage(q), t) && p != q
    requires CoversPage(hash, s.shards, s.pageVersions, p)
    ensures |t.shards| > 0 && CoversPage(hash, t.shards, t.pageVersions, p)
  {
    var ks: seq<NodeKey> :| Lists(ks, Versions(s.pageVersions, q)) && t.shards == InvalidateAll(hash, c, s.shards, ks);
    forall k: NodeKey | k.pageId == p && Cached(hash, t.shards, k).Some? ensures k in Versions(t.pageVersions, p) {
      InvalidateAllExact(hash, c, s.shards, ks, k);
    }
  }

  /** The other handle takes part, but never invalidates the page and never clears. */
  ghost predicate Spares<V(!new)>(ops: seq<(Who, NodeOp<V>)>, p: nat) {
    forall i :: 0 <= i < |ops| && ops[i].0 == Theirs ==> ops[i].1 != InvalidatePage(p) && ops[i].1 != ClearNodes
  }

  lemma PairStepCovers<V(!new)>(hash: NodeKey -> nat, c: Config, s: Pair<V>, who: Who, op: NodeOp<V>, t: Pair<V>,
                                p: nat)
    requires Ready(hash, c, s) && PairSteps(hash, c, s, who, op, t)
    ensures Ready(hash, c, t)
    ensures CoversPage(hash, s.mine, s.pageVersions, p) && (who == Mine || (op != InvalidatePage(p)
                && op != ClearNodes)) ==>
              CoversPage(hash, t.mine, t.pageVersions, p)
  {
    match who
    case Mine =>
      var a, b := Nodes(s.mine, s.pageVersions), Nodes(t.mine, t.pageVersions);
      StepIndex(hash, c, a, op, b, p);
      if CoversPage(hash, s.mine, s.pageVersions, p) {
        StepCoversPage(hash, c, a, op, b, p);
      }
    case Theirs =>
      StepIndex(hash, c, Nodes(s.theirs, s.pageVersions), op, Nodes(t.theirs, t.pageVersions), p);
  }

  /** Over every run of both handles in which the other one spares the page, it stays covered, so invalidating it
      here removes every version of it. */
  lemma {:induction false} SparedStaysCovered<V(!new)>(hash: NodeKey -> nat, c: Config, s: Pair<V>,
                                                       ops: seq<(Who, NodeOp<V>)>, t: Pair<V>, p: nat)
    requires Ready(hash, c, s) && CoversPage(hash, s.mine, s.pageVersions, p)
    requires PairReaches(hash, c, s, ops, t) && Spares(ops, p)
    ensures Ready(hash, c, t) && CoversPage(hash, t.mine, t.pageVersions, p)
    decreases |ops|
  {
    if ops != [] {
      var m :| PairSteps(hash, c, s, ops[0].0, ops[0].1, m) && PairReaches(hash, c, m, ops[1..], t);
      PairStepCovers(hash, c, s, ops[0].0, ops[0].1, m, p);
      SparedStaysCovered(hash, c, m, ops[1..], t, p);
    }
  }

  lemma SparedInvalidates<V(!new)>(hash: NodeKey -> nat, c: Config, s: Pair<V>, ops: seq<(Who, NodeOp<V>)>, t: Pair<V>,
                                   p: nat, u: Pair<V>)
    requires Ready(hash, c, s) && CoversPage(hash, s.mine, s.pageVersions, p)
    requires PairReaches(hash, c, s, ops, t) && Spares(ops, p)
    requires |t.mine| > 0 && |t.theirs| > 0 && PairSteps(hash, c, t, Mine, InvalidatePage(p), u)
    ensures |u.mine| > 0 && Absent(hash, u.mine, p)
  {
    SparedStaysCovered(hash, c, s, ops, t, p);
    InvalidateAbsentIff(hash, c, Nodes(t.mine, t.pageVersions), p, Nodes(u.mine, u.pageVersions));
  }

  /** One invalidation through the other handle uncovers the page here, unless nothing of it is cached here. */
  lemma TheirInvalidationIff<V(!new)>(hash: NodeKey -> nat, c: Config, s: Pair<V>, p: nat, t: Pair<V>, u: Pair<V>)
    requires Ready(hash, c, s) && PairSteps(hash, c, s, Theirs, InvalidatePage(p), t)
    requires |t.mine| > 0 && |t.theirs| > 0 && PairSteps(hash, c, t, Mine, InvalidatePage(p), u)
    ensures |u.mine| > 0 && (Absent(hash, u.mine, p) <==> Absent(hash, s.mine, p))
  {
    PairStepCovers(hash, c, s, Theirs, InvalidatePage(p), t, p);
    InvalidateAbsentIff(hash, c, Nodes(t.mine, t.pageVersions), p, Nodes(u.mine, u.pageVersions));
    assert Versions(t.pageVersions, p) == {};
  }

  lemma FirstPutAccepted<V>(hash: NodeKey -> nat, c: Config, n: nat, k: NodeKey, v: V, size: nat)
    requires n > 0 && c.maxEntries >= 1 && size <= c.maxSize
    ensures Accepted(hash, c, Fresh<NodeKey, V>(n), PutOp(k, v, size))
    ensures Cached(hash, CacheStep(hash, c, Fresh<NodeKey, V>(n), PutOp(k, v, size)), k) == Some(v)
  {
    var i := ShardIndex(hash, k, n);
    assert Fresh<NodeKey, V>(n)[i] == Empty();
    PutThenGet(hash, c, Fresh<NodeKey, V>(n), PutOp(k, v, size), k);
  }

  /** The failure as a run: put a node here, invalidate its page through the clone, invalidate it here; the node
      is still returned, whatever the hash, the page, the LSN and the node. */
  lemma CloneLosesInvalidation<V(!new)>(hash: NodeKey -> nat, c: Config, n: nat, k: NodeKey, v: V,
                                        size: nat) returns (t: Pair<V>)
    requires n > 0 && c.maxEntries >= 1 && size <= c.maxSize
    ensures |t.mine| > 0 && Cached(hash, t.mine, k) == Some(v)
    ensures PairReaches(hash, c, Pair(Fresh(n), Fresh(n), map[]),
                        [(Mine, PutNode(k, v, size)), (Theirs, InvalidatePage(k.pageId)),
                         (Mine, InvalidatePage(k.pageId))], t)
  {
    FirstPutAccepted(hash, c, n, k, v, size);
    var p := k.pageId;
    var full := CacheStep(hash, c, Fresh<NodeKey, V>(n), PutOp(k, v, size));
    var s0: Pair<V> := Pair(Fresh(n), Fresh(n), map[]);
    var s1: Pair<V> := Pair(full, Fresh(n), Tracked(map[], k));
    t := Pair(full, Fresh(n), Tracked(map[], k) - {p});
    ForeignInvalidation(hash, c, full, n, k, t);
    OwnInvalidation(hash, c, t, p);
    var ops := [(Mine, PutNode(k, v, size)), (Theirs, InvalidatePage(p)), (Mine, InvalidatePage(p))];
    ThreeSteps(hash, c, s0, s1, t, t, ops);
  }

  lemma ThreeSteps<V(!new)>(hash: NodeKey -> nat, c: Config, s0: Pair<V>, s1: Pair<V>, s2: Pair<V>, s3: Pair<V>,
                            ops: seq<(Who, NodeOp<V>)>)
    requires |ops| == 3 && |s0.mine| > 0 && |s0.theirs| > 0 && |s1.mine| > 0 && |s1.theirs| > 0
    requires |s2.mine| > 0 && |s2.theirs| > 0 && |s3.mine| > 0 && |s3.theirs| > 0
    requires PairSteps(hash, c, s0, ops[0].0, ops[0].1, s1) && PairSteps(hash, c, s1, ops[1].0, ops[1].1, s2)
    requires PairSteps(hash, c, s2, ops[2].0, ops[2].1, s3)
    ensures PairReaches(hash, c, s0, ops, s3)
  {
    assert ops[1..][1..] == ops[2..] && ops[2..][1..] == [];
    assert PairReaches(hash, c, s3, [], s3);
    assert PairReaches(hash, c, s2, ops[2..], s3);
    assert PairReaches(hash, c, s1, ops[1..], s3);
  }

  lemma InvalidateUncached<V>(hash: NodeKey -> nat, c: Config, n: nat, k: NodeKey)
    requires n > 0
    ensures InvalidateAll(hash, c, Fresh<NodeKey, V>(n), [k]) == Fresh<NodeKey, V>(n)
  {
    var i := ShardIndex(hash, k, n);
    assert Fresh<NodeKey, V>(n)[i] == Empty();
    assert CacheStep(hash, c, Fresh<NodeKey, V>(n), InvalidateOp(k)) == Fresh<NodeKey, V>(n);
    assert [k][1..] == [];
  }

  lemma ForeignInvalidation<V(!new)>(hash: NodeKey -> nat, c: Config, full: Shards<NodeKey, V>, n: nat, k: NodeKey,
                                     t: Pair<V>)
    requires n > 0 && |full| > 0 && t == Pair(full, Fresh(n), Tracked(map[], k) - {k.pageId})
    ensures PairSteps(hash, c, Pair(full, Fresh(n), Tracked(map[], k)), Theirs, InvalidatePage(k.pageId), t)
  {
    InvalidateUncached<V>(hash, c, n, k);
    assert Lists([k], Versions(Tracked(map[], k), k.pageId));
  }

  lemma OwnInvalidation<V(!new)>(hash: NodeKey -> nat, c: Config, t: Pair<V>, p: nat)
    requires |t.mine| > 0 && |t.theirs| > 0 && p !in t.pageVersions
    ensures PairSteps(hash, c, t, Mine, InvalidatePage(p), t)
  {
    assert Lists([], Versions(t.pageVersions, p));
    assert t.pageVersions - {p} == t.pageVersions;
    assert InvalidateAll(hash, c, t.mine, []) == t.mine;
  }
}
