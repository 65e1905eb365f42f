/** Decoded tree nodes cached by page and LSN, with an index from pages to cached versions. */
module NodeVersions {
  import opened Results
  import opened Sums
  import opened LruState
  import opened LruRuns
  import opened ShardedCache

  datatype NodeKey = NodeKey(pageId: nat, lsn: nat)

  type Index = map<nat, set<NodeKey>>

  datatype Nodes<!V> = Nodes(shards: Shards<NodeKey, V>, pageVersions: Index)

  function Versions(ix: Index, p: nat): set<NodeKey> {
    if p in ix then ix[p] else {}
  }

  function Tracked(ix: Index, k: NodeKey): Index {
    ix[k.pageId := Versions(ix, k.pageId) + {k}]
  }

  // ----------------------------------------------------------------------- coverage

  /** Every cached version stands in the index under its page, and the index files keys correctly. */
  ghost predicate Covers<V>(hash: NodeKey -> nat, s: Nodes<V>)
    requires |s.shards| > 0
  {
    Filed(s.pageVersions) && forall k :: Cached(hash, s.shards, k).Some? ==> k in Versions(s.pageVersions, k.pageId)
  }

  ghost predicate Filed(ix: Index) {
    forall p, k :: k in Versions(ix, p) ==> k.pageId == p
  }

  lemma IndexSteps(ix: Index, p: nat, k: NodeKey)
    requires Filed(ix)
    ensures Filed(ix - {p}) && Filed(Tracked(ix, k))
    ensures forall q :: q != p ==> Versions(ix - {p}, q) == Versions(ix, q)
    ensures forall q, j :: j in Versions(ix, q) || (j == k && q == k.pageId) ==> j in Versions(Tracked(ix, k), q)
  {
    forall q, j | j in Versions(ix - {p}, q) ensures j.pageId == q {
      assert j in Versions(ix, q);
    }
    forall q, j | j in Versions(Tracked(ix, k), q) ensures j.pageId == q {
      assert j in Versions(ix, q) || j == k;
    }
  }

  ghost predicate Sound<V>(hash: NodeKey -> nat, c: Config, s: Nodes<V>) {
    Placed(hash, c, s.shards) && c.maxEntries >= 1 && Covers(hash, s)
  }

  /** No version of a page is returned, at any LSN. */
  ghost predicate Absent<V>(hash: NodeKey -> nat, ss: Shards<NodeKey, V>, p: nat)
    requires |ss| > 0
  {
    forall k: NodeKey :: k.pageId == p ==> Cached(hash, ss, k) == None
  }

  // ------------------------------------------------------------------------ the steps

  datatype NodeOp<V> =
    | GetNode(key: NodeKey)
    | PutNode(key: NodeKey, node: V, size: nat)
    | InvalidatePage(pageId: nat)
    | PinNode(key: NodeKey)
    | UnpinNode(key: NodeKey)
    | ClearNodes

  /** Invalidating the listed keys, one after the other. */
  function InvalidateAll<V>(hash: NodeKey -> nat, c: Config, ss: Shards<NodeKey, V>,
                            ks: seq<NodeKey>): (r: Shards<NodeKey, V>)
    requires |ss| > 0
    ensures |r| == |ss|
    decreases |ks|
  {
    if ks == [] then ss else InvalidateAll(hash, c, CacheStep(hash, c, ss, InvalidateOp(ks[0])), ks[1..])
  }

  /** A step from `s` to `t`. The versions of a page are invalidated in whatever order the hash set lists them. */
  ghost predicate Steps<V(!new)>(hash: NodeKey -> nat, c: Config, s: Nodes<V>, op: NodeOp<V>, t: Nodes<V>)
    requires |s.shards| > 0
  {
    match op
    case GetNode(k) => t == s.(shards := CacheStep(hash, c, s.shards, GetOp(k)))
    case PinNode(k) => t == s.(shards := CacheStep(hash, c, s.shards, PinOp(k)))
    case UnpinNode(k) => t == s.(shards := CacheStep(hash, c, s.shards, UnpinOp(k)))
    case ClearNodes => t == Nodes(CacheStep(hash, c, s.shards, ClearOp), map[])
    case PutNode(k, v, size) =>
      var put := PutOp(k, v, size);
      t == Nodes(CacheStep(hash, c, s.shards, put),
                 if Accepted(hash, c, s.shards, put) then Tracked(s.pageVersions, k) else s.pageVersions)
    case InvalidatePage(p) =>
      && t.pageVersions == s.pageVersions - {p}
      && exists ks: seq<NodeKey> :: Lists(ks, Versions(s.pageVersions, p))
          && t.shards == InvalidateAll(hash, c, s.shards, ks)
  }

  ghost predicate Lists(ks: seq<NodeKey>, versions: set<NodeKey>) {
    NoRepeats(ks) && forall k :: k in ks <==> k in versions
  }

  lemma InvalidateOne<V>(hash: NodeKey -> nat, c: Config, ss: Shards<NodeKey, V>, j: NodeKey, k: NodeKey)
    requires |ss| > 0
    ensures Cached(hash, CacheStep(hash, c, ss, InvalidateOp(j)), k) == if j == k then None else Cached(hash, ss, k)
  {
  }

  lemma {:induction false} InvalidateAllPlaced<V>(hash: NodeKey -> nat, c: Config, ss: Shards<NodeKey, V>,
                                                  ks: seq<NodeKey>)
    requires Placed(hash, c, ss) && c.maxEntries >= 1
    ensures Placed(hash, c, InvalidateAll(hash, c, ss, ks))
    decreases |ks|
  {
    if ks != [] {
      StepPlaced(hash, c, ss, InvalidateOp(ks[0]));
      InvalidateAllPlaced(hash, c, CacheStep(hash, c, ss, InvalidateOp(ks[0])), ks[1..]);
    }
  }

  /** The listed keys go, and nothing else does. */
  lemma {:induction false} InvalidateAllExact<V>(hash: NodeKey -> nat, c: Config, ss: Shards<NodeKey, V>,
                                                 ks: seq<NodeKey>, k: NodeKey)
    requires |ss| > 0
    ensures Cached(hash, InvalidateAll(hash, c, ss, ks), k) == if k in ks then None else Cached(hash, ss, k)
    decreases |ks|
  {
    if ks != [] {
      InvalidateOne(hash, c, ss, ks[0], k);
      InvalidateAllExact(hash, c, CacheStep(hash, c, ss, InvalidateOp(ks[0])), ks[1..], k);
      assert ks == [ks[0]] + ks[1..];
    }
  }

  /** What is cached after is covered, when it was cached before or is newly indexed. */
  lemma CoversGrows<V>(hash: NodeKey -> nat, s: Nodes<V>, t: Nodes<V>)
    requires |s.shards| > 0 && |t.shards| > 0 && Covers(hash, s) && Filed(t.pageVersions)
    requires forall k :: Cached(hash, t.shards, k).Some? ==>
               (Cached(hash, s.shards, k).Some?
                && Versions(s.pageVersions, k.pageId) <= Versions(t.pageVersions, k.pageId))
               || k in Versions(t.pageVersions, k.pageId)
    ensures Covers(hash, t)
  {
  }

  lemma CacheStepOrigin<V>(hash: NodeKey -> nat, c: Config, ss: Shards<NodeKey, V>, op: Op<NodeKey, V>, k: NodeKey)
    requires Placed(hash, c, ss) && c.maxEntries >= 1 && Cached(hash, CacheStep(hash, c, ss, op), k).Some?
    ensures Cached(hash, ss, k).Some? || (Accepted(hash, c, ss, op) && op.key == k)
  {
    CachedAfter(hash, c, ss, op, k);
  }

  /** A step that is not an accepted put caches no key that was not cached before. */
  lemma PlainStepCovers<V>(hash: NodeKey -> nat, c: Config, s: Nodes<V>, op: Op<NodeKey, V>)
    requires Sound(hash, c, s) && !Accepted(hash, c, s.shards, op)
    ensures Sound(hash, c, s.(shards := CacheStep(hash, c, s.shards, op)))
  {
    StepPlaced(hash, c, s.shards, op);
    var t := s.(shards := CacheStep(hash, c, s.shards, op));
    forall k | Cached(hash, t.shards, k).Some? ensures Cached(hash, s.shards, k).Some? {
      CacheStepOrigin(hash, c, s.shards, op, k);
    }
    CoversGrows(hash, s, t);
  }

  lemma PutCovers<V>(hash: NodeKey -> nat, c: Config, s: Nodes<V>, op: Op<NodeKey, V>)
    requires Sound(hash, c, s) && Accepted(hash, c, s.shards, op)
    ensures Sound(hash, c, Nodes(CacheStep(hash, c, s.shards, op), Tracked(s.pageVersions, op.key)))
  {
    StepPlaced(hash, c, s.shards, op);
    var t := Nodes(CacheStep(hash, c, s.shards, op), Tracked(s.pageVersions, op.key));
    IndexSteps(s.pageVersions, 0, op.key);
    forall k | Cached(hash, t.shards, k).Some? ensures Cached(hash, s.shards, k).Some? || k == op.key {
      CacheStepOrigin(hash, c, s.shards, op, k);
    }
    CoversGrows(hash, s, t);
  }

  /** Exactly the versions of one page are gone. */
  ghost predicate Purged<V(!new)>(hash: NodeKey -> nat, ss: Shards<NodeKey, V>, tt: Shards<NodeKey, V>, p: nat)
    requires |ss| > 0 && |tt| > 0
  {
    forall k: NodeKey :: Cached(hash, tt, k) == if k.pageId == p then None else Cached(hash, ss, k)
  }

  lemma PurgedAt<V>(hash: NodeKey -> nat, c: Config, s: Nodes<V>, p: nat, ks: seq<NodeKey>, k: NodeKey)
    requires |s.shards| > 0 && Covers(hash, s) && Lists(ks, Versions(s.pageVersions, p))
    ensures Cached(hash, InvalidateAll(hash, c, s.shards, ks), k)
            == if k.pageId == p then None else Cached(hash, s.shards, k)
  {
    InvalidateAllExact(hash, c, s.shards, ks, k);
  }

  lemma PurgedCovers<V(!new)>(hash: NodeKey -> nat, s: Nodes<V>, p: nat, t: Nodes<V>)
    requires |s.shards| > 0 && |t.shards| > 0 && Covers(hash, s) && Purged(hash, s.shards, t.shards, p)
    requires t.pageVersions == s.pageVersions - {p}
    ensures Covers(hash, t) && Absent(hash, t.shards, p)
  {
    IndexSteps(s.pageVersions, p, NodeKey(p, 0));
    CoversGrows(hash, s, t);
  }

  /** Invalidating a page leaves no version of it, whatever was evicted before, and every other key as it was. */
  lemma InvalidateLeavesNone<V(!new)>(hash: NodeKey -> nat, c: Config, s: Nodes<V>, p: nat, t: Nodes<V>)
    requires Sound(hash, c, s) && Steps(hash, c, s, InvalidatePage(p), t)
    ensures Sound(hash, c, t) && Purged(hash, s.shards, t.shards, p) && Absent(hash, t.shards, p)
  {
    var ks: seq<NodeKey> :| Lists(ks, Versions(s.pageVersions, p)) && t.shards == InvalidateAll(hash, c, s.shards, ks);
    InvalidateAllPlaced(hash, c, s.shards, ks);
    forall k: NodeKey
      ensures Cached(hash, t.shards, k) == if k.pageId == p then None else Cached(hash, s.shards, k)
    {
      PurgedAt(hash, c, s, p, ks, k);
    }
    PurgedCovers(hash, s, p, t);
  }

  lemma StepSound<V(!new)>(hash: NodeKey -> nat, c: Config, s: Nodes<V>, op: NodeOp<V>, t: Nodes<V>)
    requires Sound(hash, c, s) && Steps(hash, c, s, op, t)
    ensures Sound(hash, c, t)
  {
    match op
    case GetNode(k) => PlainStepCovers(hash, c, s, GetOp(k));
    case PinNode(k) => PlainStepCovers(hash, c, s, PinOp(k));
    case UnpinNode(k) => PlainStepCovers(hash, c, s, UnpinOp(k));
    case ClearNodes => StepPlaced(hash, c, s.shards, ClearOp);
    case PutNode(k, v, size) =>
      if Accepted(hash, c, s.shards, PutOp(k, v, size)) {
        PutCovers(hash, c, s, PutOp(k, v, size));
      } else {
        PlainStepCovers(hash, c, s, PutOp(k, v, size));
      }
    case InvalidatePage(p) => InvalidateLeavesNone(hash, c, s, p, t);
  }

  lemma CacheStepAbsent<V>(hash: NodeKey -> nat, c: Config, ss: Shards<NodeKey, V>, op: Op<NodeKey, V>, p: nat)
    requires Placed(hash, c, ss) && c.maxEntries >= 1 && Absent(hash, ss, p) && (op.PutOp? ==> op.key.pageId != p)
    ensures Absent(hash, CacheStep(hash, c, ss, op), p)
  {
    forall k: NodeKey | k.pageId == p ensures Cached(hash, CacheStep(hash, c, ss, op), k) == None {
      CachedAfter(hash, c, ss, op, k);
    }
  }

  lemma StepAbsent<V(!new)>(hash: NodeKey -> nat, c: Config, s: Nodes<V>, op: NodeOp<V>, t: Nodes<V>, p: nat)
    requires Sound(hash, c, s) && Steps(hash, c, s, op, t)
    requires Absent(hash, s.shards, p) && (op.PutNode? ==> op.key.pageId != p)
    ensures Absent(hash, t.shards, p)
  {
    match op
    case GetNode(k) => CacheStepAbsent(hash, c, s.shards, GetOp(k), p);
    case PinNode(k) => CacheStepAbsent(hash, c, s.shards, PinOp(k), p);
    case UnpinNode(k) => CacheStepAbsent(hash, c, s.shards, UnpinOp(k), p);
    case ClearNodes => CacheStepAbsent(hash, c, s.shards, ClearOp, p);
    case PutNode(k, v, size) => CacheStepAbsent(hash, c, s.shards, PutOp(k, v, size), p);
    case InvalidatePage(q) => InvalidateLeavesNone(hash, c, s, q, t);
  }

  // ------------------------------------------------------------------------- whole runs

  /** Some run of the operations leads from `s` to `t`. */
  ghost predicate Reaches<V(!new)>(hash: NodeKey -> nat, c: Config, s: Nodes<V>, ops: seq<NodeOp<V>>, t: Nodes<V>)
    decreases |ops|
  {
    && |s.shards| > 0
    && if ops == [] then t == s
       else exists m :: Steps(hash, c, s, ops[0], m) && Reaches(hash, c, m, ops[1..], t)
  }

  /** Over every run the index covers every cached version. */
  lemma {:induction false} RunSound<V(!new)>(hash: NodeKey -> nat, c: Config, s: Nodes<V>, ops: seq<NodeOp<V>>,
                                             t: Nodes<V>)
    requires Sound(hash, c, s) && Reaches(hash, c, s, ops, t)
    ensures Sound(hash, c, t)
    decreases |ops|
  {
    if ops != [] {
      var m :| Steps(hash, c, s, ops[0], m) && Reaches(hash, c, m, ops[1..], t);
      StepSound(hash, c, s, ops[0], m);
      RunSound(hash, c, m, ops[1..], t);
    }
  }

  /** A new cache, whose index is empty, is covered, and so is all that it becomes. */
  lemma RunFromFresh<V(!new)>(hash: NodeKey -> nat, c: Config, n: nat, ops: seq<NodeOp<V>>, t: Nodes<V>)
    requires n > 0 && c.maxEntries >= 1 && Reaches(hash, c, Nodes(Fresh(n), map[]), ops, t)
    ensures Sound(hash, c, t)
  {
    FreshPlaced<NodeKey, V>(hash, c, n);
    RunSound(hash, c, Nodes(Fresh(n), map[]), ops, t);
  }

  ghost predicate NoPutTo<V(!new)>(ops: seq<NodeOp<V>>, p: nat) {
    forall i :: 0 <= i < |ops| && ops[i].PutNode? ==> ops[i].key.pageId != p
  }

  lemma {:induction false} StaysAbsent<V(!new)>(hash: NodeKey -> nat, c: Config, s: Nodes<V>, ops: seq<NodeOp<V>>,
                                                t: Nodes<V>, p: nat)
    requires Sound(hash, c, s) && Reaches(hash, c, s, ops, t) && Absent(hash, s.shards, p) && NoPutTo(ops, p)
    ensures |t.shards| > 0 && Absent(hash, t.shards, p)
    decreases |ops|
  {
    if ops != [] {
      var m :| Steps(hash, c, s, ops[0], m) && Reaches(hash, c, m, ops[1..], t);
      StepSound(hash, c, s, ops[0], m);
      StepAbsent(hash, c, s, ops[0], m, p);
      StaysAbsent(hash, c, m, ops[1..], t, p);
    }
  }

  /** From any reachable state: once a page is invalidated, no LSN of it is returned until the next put to it. */
  lemma InvalidatedUntilPut<V(!new)>(hash: NodeKey -> nat, c: Config, s: Nodes<V>, before: seq<NodeOp<V>>, u: Nodes<V>,
                                     p: nat, v: Nodes<V>, ops: seq<NodeOp<V>>, t: Nodes<V>, lsn: nat)
    requires Sound(hash, c, s) && Reaches(hash, c, s, before, u)
    requires |u.shards| > 0 && Steps(hash, c, u, InvalidatePage(p), v)
    requires Reaches(hash, c, v, ops, t) && NoPutTo(ops, p)
    ensures |t.shards| > 0 && Cached(hash, t.shards, NodeKey(p, lsn)) == None
  {
    RunSound(hash, c, s, before, u);
    InvalidateLeavesNone(hash, c, u, p, v);
    StaysAbsent(hash, c, v, ops, t, p);
    assert NodeKey(p, lsn).pageId == p;
  }

  lemma {:induction false} InvalidateSnoc<V>(hash: NodeKey -> nat, c: Config, ss: Shards<NodeKey, V>, ks: seq<NodeKey>,
                                             k: NodeKey)
    requires |ss| > 0
    ensures InvalidateAll(hash, c, ss, ks + [k]) == CacheStep(hash, c, InvalidateAll(hash, c, ss, ks), InvalidateOp(k))
    decreases |ks|
  {
    if ks == [] {
      assert ks + [k] == [k] && [k][1..] == [];
    } else {
      assert (ks + [k])[1..] == ks[1..] + [k];
      InvalidateSnoc(hash, c, CacheStep(hash, c, ss, InvalidateOp(ks[0])), ks[1..], k);
    }
  }
}
