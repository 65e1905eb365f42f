/** Runs of puts in any order, lossy or not: what a search finds after each of them. */
module AnyOrderRuns {
  import opened Bytes
  import opened Results
  import opened Entries
  import opened LeafNodes
  import opened LeafOps
  import opened SearchTree
  import opened TreeUpdate
  import opened TreePut
  import opened PutAsUpdate
  import opened PutRuns

  // ------------------------------------------------------------------ routing is convex

  lemma ChildIndexMonotone(seps: seq<Key>, a: Key, b: Key)
    requires Ascending(seps) && AtMost(a, b)
    ensures ChildIndex(seps, a) <= ChildIndex(seps, b)
  {
    ChildIndexSplits(seps, a);
    ChildIndexSplits(seps, b);
    var i := ChildIndex(seps, b);
    if i < ChildIndex(seps, a) {
      assert AtMost(seps[i], a) && Less(b, seps[i]);
      BelowBoth(seps[i], a, b);
    }
  }

  lemma BelowBoth(x: Key, a: Key, b: Key)
    requires AtMost(x, a) && AtMost(a, b)
    ensures !Less(b, x)
  {
    KeyOrder();
  }

  /** Two keys that lead to one leaf take every key between them there. */
  lemma {:induction false} RoutingConvex(h: Heap, t: Shape, a: Key, b: Key, c: Key)
    requires Shaped(h, t) && Distinct(t) && AtMost(a, b) && AtMost(b, c) && Target(h, t, a) == Target(h, t, c)
    ensures Target(h, t, b) == Target(h, t, a)
    decreases t
  {
    if t.Branch? {
      var seps := h[t.page].seps;
      ChildIndexMonotone(seps, a, b);
      ChildIndexMonotone(seps, b, c);
      var i, l := ChildIndex(seps, a), ChildIndex(seps, c);
      TargetIsPage(h, t.kids[i], a);
      TargetIsPage(h, t.kids[l], c);
      assert i != l ==> Disjoint(t.kids[i], t.kids[l]);
      RoutingConvex(h, t.kids[i], a, b, c);
    }
  }

  // ---------------------------------------------------------------------- the invariant

  /** Every entry on a leaf that some key leads to is where a search for it looks. */
  ghost predicate Homed(h: Heap, t: Shape)
    requires Shaped(h, t)
  {
    forall k, x :: x in EntriesAt(h, Target(h, t, k)) ==> HomeAt(h, t, x.key, Target(h, t, k))
  }

  ghost predicate HomeAt(h: Heap, t: Shape, k: Key, p: nat)
    requires Shaped(h, t)
  {
    Target(h, t, k) == p
  }

  /** A key that a put makes unreachable: it lies behind the put key on another leaf, and the put splits. */
  ghost predicate Lost(s: State, t: Shape, e: Entry, k: Key)
    requires Placed(s, t)
  {
    PutState(s, t, e).1 && PutSplits(s, t, e) && Less(e.key, k) && Target(s.pages, t, k) != Target(s.pages, t, e.key)
  }

  /** A put that stores its entry: reported as a success and not silently dropped. */
  ghost predicate Stores(s: State, t: Shape, e: Entry)
    requires Placed(s, t)
  {
    PutState(s, t, e).1 && !(PutSplits(s, t, e) && Drops(TargetLeaf(s, t, e.key), e))
  }

  /** What a search for `k` finds after a put, from what it found before. */
  ghost function AfterPut(s: State, t: Shape, e: Entry, k: Key, before: Option<Entry>): Option<Entry>
    requires Placed(s, t)
  {
    if Lost(s, t, e, k) then None else if k == e.key && Stores(s, t, e) then Some(e) else before
  }

  // -------------------------------------------------------------------------- one split

  /** The separator of a split leads to the leaf that was split. */
  lemma SeparatorHome(s: State, t: Shape, e: Entry, o: InsertOutcome)
    requires Placed(s, t) && Homed(s.pages, t) && o.Split? && InsertOutcomeValid(o, s.nextPage)
    requires o.leaf.entries + o.right.entries == TargetLeaf(s, t, e.key).entries
             || o.leaf.entries + o.right.entries == Upsert(TargetLeaf(s, t, e.key).entries, e)
    ensures Target(s.pages, t, o.separator) == Target(s.pages, t, e.key)
  {
    SeparatorOrigin(TargetLeaf(s, t, e.key).entries, e, o.leaf.entries, o.right.entries);
    EntryHome(s, t, e.key, o.right.entries[0]);
  }

  lemma EntryHome(s: State, t: Shape, k: Key, x: Entry)
    requires Placed(s, t) && Homed(s.pages, t)
    ensures x in TargetLeaf(s, t, k).entries ==> Target(s.pages, t, x.key) == Target(s.pages, t, k)
  {
    TargetIsPage(s.pages, t, k);
    assert TargetLeaf(s, t, k).entries == EntriesAt(s.pages, Target(s.pages, t, k));
    if x in TargetLeaf(s, t, k).entries {
      assert HomeAt(s.pages, t, x.key, Target(s.pages, t, k));
    }
  }

  /** Around a split leaf: a key of another leaf is behind the separator exactly when it is behind the put key. */
  lemma SideOfLeaf(h: Heap, t: Shape, a: Key, sep: Key, k: Key)
    requires Shaped(h, t) && Distinct(t) && Target(h, t, sep) == Target(h, t, a) && Target(h, t, k) != Target(h, t, a)
    ensures Less(k, sep) <==> !Less(a, k)
  {
    LessTotal(k, sep);
    LessTotal(a, k);
    if Less(k, sep) && Less(a, k) {
      RoutingConvex(h, t, a, k, sep);
    }
    if !Less(k, sep) && !Less(a, k) {
      RoutingConvex(h, t, sep, k, a);
    }
  }

  lemma SplitEffect(s: State, t: Shape, e: Entry, k: Key)
    requires Placed(s, t) && Homed(s.pages, t) && PutState(s, t, e).1 && PutSplits(s, t, e)
    ensures Placed(PutState(s, t, e).0, PutShape(s, t, e))
    ensures Found(PutState(s, t, e).0.pages, PutShape(s, t, e), k) == AfterPut(s, t, e, k, Found(s.pages, t, k))
  {
    var p := Target(s.pages, t, e.key);
    PutKeepsPlaced(s, t, e);
    TargetIsPage(s.pages, t, e.key);
    var o := SplitPutState(s, t, e);
    SplitFound(s, t, p, o.leaf, o.right, o.separator, k);
    var all := o.leaf.entries + o.right.entries;
    if Target(s.pages, t, k) == p {
      OnSplitLeaf(s, t, e, k, all);
    } else {
      SeparatorHome(s, t, e, o);
      SideOfLeaf(s.pages, t, e.key, o.separator, k);
      OffSplitLeaf(s, t, e, k, all);
    }
  }

  /** What the two halves of a split hold. */
  ghost predicate Halves(s: State, t: Shape, e: Entry, all: seq<Entry>)
    requires Placed(s, t)
  {
    var l := TargetLeaf(s, t, e.key);
    all == if Drops(l, e) then l.entries else Upsert(l.entries, e)
  }

  lemma OnSplitLeaf(s: State, t: Shape, e: Entry, k: Key, all: seq<Entry>)
    requires Placed(s, t) && PutState(s, t, e).1 && PutSplits(s, t, e) && Halves(s, t, e, all)
    requires Target(s.pages, t, k) == Target(s.pages, t, e.key)
    ensures Lookup(all, k) == AfterPut(s, t, e, k, Found(s.pages, t, k))
  {
    TargetIsPage(s.pages, t, e.key);
    UpsertLookup(TargetLeaf(s, t, e.key).entries, e, k);
  }

  lemma OffSplitLeaf(s: State, t: Shape, e: Entry, k: Key, all: seq<Entry>)
    requires Placed(s, t) && Homed(s.pages, t) && PutState(s, t, e).1 && PutSplits(s, t, e) && Halves(s, t, e, all)
    requires Target(s.pages, t, k) != Target(s.pages, t, e.key)
    ensures Lookup(all, k) == None
    ensures AfterPut(s, t, e, k, Found(s.pages, t, k)) == if Less(e.key, k) then None else Found(s.pages, t, k)
  {
    TargetIsPage(s.pages, t, e.key);
    UpsertLookup(TargetLeaf(s, t, e.key).entries, e, k);
    NotOnLeaf(s, t, e.key, k);
  }

  lemma NotOnLeaf(s: State, t: Shape, a: Key, k: Key)
    requires Placed(s, t) && Homed(s.pages, t) && Target(s.pages, t, k) != Target(s.pages, t, a)
    ensures Lookup(TargetLeaf(s, t, a).entries, k) == None
  {
    var m := TargetLeaf(s, t, a).entries;
    if Lookup(m, k).Some? {
      EntryHome(s, t, a, Lookup(m, k).value);
    }
  }

  // ---------------------------------------------------------------------------- one put

  lemma FailedSame(s: State, t: Shape, e: Entry, k: Key)
    requires Placed(s, t) && !PutState(s, t, e).1
    ensures var g := PutState(s, t, e).0.pages;
            && PutShape(s, t, e) == t && Placed(PutState(s, t, e).0, t)
            && Target(g, t, k) == Target(s.pages, t, k)
            && EntriesAt(g, Target(s.pages, t, k)) == EntriesAt(s.pages, Target(s.pages, t, k))
  {
    var g := PutState(s, t, e).0.pages;
    FailedPutChangesNothing(s, t, e);
    PutKeepsPlaced(s, t, e);
    forall q | Uses(t, q) ensures q in s.pages && q in g && Alike(s.pages[q], g[q]) {
      UsedPagesExist(s.pages, t, q);
    }
    SameTree(s.pages, g, t);
    TargetIsPage(s.pages, t, k);
  }

  /** One put of any kind on any reachable tree: a search finds nothing for a key that the put loses, the entry
      put for its key if it is stored, and what it found before for every other key. */
  lemma PutEffect(s: State, t: Shape, e: Entry, k: Key)
    requires Placed(s, t) && Homed(s.pages, t)
    ensures Placed(PutState(s, t, e).0, PutShape(s, t, e))
    ensures Found(PutState(s, t, e).0.pages, PutShape(s, t, e), k) == AfterPut(s, t, e, k, Found(s.pages, t, k))
  {
    if !PutState(s, t, e).1 {
      FailedSame(s, t, e, k);
    } else if PutSplits(s, t, e) {
      SplitEffect(s, t, e, k);
    } else {
      PlainPutIsUpdate(s, t, e, k);
    }
  }

  // ------------------------------------------------------------------ the invariant is kept

  lemma FailedHomed(s: State, t: Shape, e: Entry)
    requires Placed(s, t) && Homed(s.pages, t) && !PutState(s, t, e).1
    ensures Placed(PutState(s, t, e).0, PutShape(s, t, e)) && Homed(PutState(s, t, e).0.pages, PutShape(s, t, e))
  {
    var g := PutState(s, t, e).0.pages;
    FailedSame(s, t, e, []);
    forall k, x | x in EntriesAt(g, Target(g, t, k)) ensures HomeAt(g, t, x.key, Target(g, t, k)) {
      FailedSame(s, t, e, k);
      FailedSame(s, t, e, x.key);
      assert HomeAt(s.pages, t, x.key, Target(s.pages, t, k));
    }
  }

  lemma PlainHomed(s: State, t: Shape, e: Entry)
    requires Placed(s, t) && Homed(s.pages, t) && PutState(s, t, e).1 && !PutSplits(s, t, e)
    ensures Placed(PutState(s, t, e).0, PutShape(s, t, e)) && Homed(PutState(s, t, e).0.pages, PutShape(s, t, e))
  {
    var g, p, l := PutState(s, t, e).0.pages, Target(s.pages, t, e.key), TargetLeaf(s, t, e.key);
    PutKeepsPlaced(s, t, e);
    TargetIsPage(s.pages, t, e.key);
    PlainPutState(s, t, e);
    UpsertMembers(l.entries, e);
    forall k, x | x in EntriesAt(g, Target(g, t, k)) ensures HomeAt(g, t, x.key, Target(g, t, k)) {
      WithLeafTarget(s.pages, t, p, Insert(l, e), k);
      WithLeafTarget(s.pages, t, p, Insert(l, e), x.key);
      if Target(s.pages, t, k) == p {
        EntryHome(s, t, e.key, x);
      } else {
        assert HomeAt(s.pages, t, x.key, Target(s.pages, t, k));
      }
    }
  }

  lemma SplitHomedAt(s: State, t: Shape, e: Entry, o: InsertOutcome, k: Key, x: Entry)
    requires Placed(s, t) && Homed(s.pages, t) && o.Split? && InsertOutcomeValid(o, s.nextPage)
    requires o.leaf.entries + o.right.entries == TargetLeaf(s, t, e.key).entries
             || o.leaf.entries + o.right.entries == Upsert(TargetLeaf(s, t, e.key).entries, e)
    requires Less(k, o.separator)
    requires var q := Target(s.pages, t, k);
             if q == Target(s.pages, t, e.key) then x in o.leaf.entries else x in EntriesAt(s.pages, q)
    ensures Less(x.key, o.separator) && Target(s.pages, t, x.key) == Target(s.pages, t, k)
  {
    var p, q := Target(s.pages, t, e.key), Target(s.pages, t, k);
    SeparatorHome(s, t, e, o);
    if q == p {
      UpsertMembers(TargetLeaf(s, t, e.key).entries, e);
      assert x in o.leaf.entries + o.right.entries;
      EntryHome(s, t, e.key, x);
    } else {
      assert HomeAt(s.pages, t, x.key, q);
      LessTotal(x.key, o.separator);
      if !Less(x.key, o.separator) {
        RoutingConvex(s.pages, t, k, o.separator, x.key);
      }
    }
  }

  lemma SplitHomed(s: State, t: Shape, e: Entry)
    requires Placed(s, t) && Homed(s.pages, t) && PutState(s, t, e).1 && PutSplits(s, t, e)
    ensures Placed(PutState(s, t, e).0, PutShape(s, t, e)) && Homed(PutState(s, t, e).0.pages, PutShape(s, t, e))
  {
    var g, u, p := PutState(s, t, e).0.pages, PutShape(s, t, e), Target(s.pages, t, e.key);
    PutKeepsPlaced(s, t, e);
    TargetIsPage(s.pages, t, e.key);
    var o := SplitPutState(s, t, e);
    SplitEntries(s, t, p, o.leaf, o.right, o.separator);
    forall k, x | x in EntriesAt(g, Target(g, u, k)) ensures HomeAt(g, u, x.key, Target(g, u, k)) {
      SplitRoutes(s, t, p, o.leaf, o.right, o.separator, k);
      SplitRoutes(s, t, p, o.leaf, o.right, o.separator, x.key);
      TargetIsPage(s.pages, t, k);
      if Less(k, o.separator) {
        SplitHomedAt(s, t, e, o, k, x);
      } else {
        FromSeparatorOn(o.right.entries, o.separator, x);
      }
    }
  }

  lemma FromSeparatorOn(es: seq<Entry>, sep: Key, x: Entry)
    requires AllFrom(es, sep) && x in es
    ensures !Less(x.key, sep)
  {
    var i :| 0 <= i < |es| && es[i] == x;
    KeyOrder();
  }

  lemma PutHomed(s: State, t: Shape, e: Entry)
    requires Placed(s, t) && Homed(s.pages, t)
    ensures Placed(PutState(s, t, e).0, PutShape(s, t, e)) && Homed(PutState(s, t, e).0.pages, PutShape(s, t, e))
  {
    if !PutState(s, t, e).1 {
      FailedHomed(s, t, e);
    } else if PutSplits(s, t, e) {
      SplitHomed(s, t, e);
    } else {
      PlainHomed(s, t, e);
    }
  }

  // ------------------------------------------------------------------------- whole runs

  /** What a search for `k` finds after a run, from what it found before it. */
  ghost function AfterRun(s: State, t: Shape, es: seq<Entry>, k: Key, before: Option<Entry>): Option<Entry>
    requires Placed(s, t)
    decreases |es|
  {
    if es == [] then before
    else
      PutKeepsPlaced(s, t, es[0]);
      AfterRun(PutState(s, t, es[0]).0, PutShape(s, t, es[0]), es[1..], k, AfterPut(s, t, es[0], k, before))
  }

  /** The last entry that the run stored for a key. */
  ghost function LastStored(s: State, t: Shape, es: seq<Entry>, k: Key, before: Option<Entry>): Option<Entry>
    requires Placed(s, t)
    decreases |es|
  {
    if es == [] then before
    else
      PutKeepsPlaced(s, t, es[0]);
      LastStored(PutState(s, t, es[0]).0, PutShape(s, t, es[0]), es[1..], k,
                 if k == es[0].key && Stores(s, t, es[0]) then Some(es[0]) else before)
  }

  /** Over every run of puts, in any order and of any sizes, successful or not: a search finds for every key what
      the losses and stores of the run leave, and every entry on a leaf in use is where a search looks for it. */
  lemma {:induction false} RunEffect(s: State, t: Shape, es: seq<Entry>, k: Key)
    requires Placed(s, t) && Homed(s.pages, t)
    ensures var (z, u) := RunPuts(s, t, es);
            && Placed(z, u) && Homed(z.pages, u)
            && Found(z.pages, u, k) == AfterRun(s, t, es, k, Found(s.pages, t, k))
    decreases |es|
  {
    if es != [] {
      PutHomed(s, t, es[0]);
      PutEffect(s, t, es[0], k);
      RunEffect(PutState(s, t, es[0]).0, PutShape(s, t, es[0]), es[1..], k);
    }
  }

  lemma {:induction false} LastOrNothing(s: State, t: Shape, es: seq<Entry>, k: Key, before: Option<Entry>,
                                         last: Option<Entry>)
    requires Placed(s, t) && (before == None || before == last)
    ensures AfterRun(s, t, es, k, before) == None || AfterRun(s, t, es, k, before) == LastStored(s, t, es, k, last)
    decreases |es|
  {
    if es != [] {
      PutKeepsPlaced(s, t, es[0]);
      LastOrNothing(PutState(s, t, es[0]).0, PutShape(s, t, es[0]), es[1..], k, AfterPut(s, t, es[0], k, before),
                    if k == es[0].key && Stores(s, t, es[0]) then Some(es[0]) else last);
    }
  }

  /** From an empty tree, after any run of puts, a search finds nothing or the last entry that was stored for the
      key: never an older one. */
  lemma FoundIsLastOrNothing(page: nat, es: seq<Entry>, k: Key)
    requires page > 0
    ensures Placed(Create(page), Tip(page))
    ensures var (z, u) := RunPuts(Create(page), Tip(page), es);
            && Placed(z, u)
            && (Found(z.pages, u, k) == None
                || Found(z.pages, u, k) == LastStored(Create(page), Tip(page), es, k, None))
  {
    CreatePlaced(page);
    RunEffect(Create(page), Tip(page), es, k);
    LastOrNothing(Create(page), Tip(page), es, k, None, None);
  }
}
