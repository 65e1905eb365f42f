/** What puts do to scans: no leaf is ever linked to another, so a scan sees one leaf. */
module ScanAfterPut {
  import opened Bytes
  import opened Results
  import opened Entries
  import opened LeafNodes
  import opened LeafOps
  import opened SearchTree
  import opened TreeUpdate
  import opened TreePut
  import opened PutRuns
  import opened Scans
  import opened BTree

  /** Over every run of puts, successful or not, no leaf has a successor if none had. */
  lemma {:induction false} RunKeepsUnlinked(s: State, t: Shape, es: seq<Entry>)
    requires Placed(s, t) && Unlinked(s.pages)
    ensures Unlinked(RunPuts(s, t, es).0.pages) && Placed(RunPuts(s, t, es).0, RunPuts(s, t, es).1)
    decreases |es|
  {
    if es != [] {
      TargetIsPage(s.pages, t, es[0].key);
      PutKeepsUnlinked(s, Target(s.pages, t, es[0].key), es[0]);
      PutKeepsPlaced(s, t, es[0]);
      RunKeepsUnlinked(PutState(s, t, es[0]).0, PutShape(s, t, es[0]), es[1..]);
    }
  }

  /** So from an empty tree no run of puts reaches a tree of several leaves whose links thread them. */
  lemma ChainedAfterRunIff(page: nat, es: seq<Entry>)
    requires page > 0
    ensures Placed(Create(page), Tip(page))
    ensures var (s, t) := RunPuts(Create(page), Tip(page), es);
            Unlinked(s.pages) && (Chained(s.pages, Leaves(t)) <==> |Leaves(t)| == 1)
  {
    CreatePlaced(page);
    RunKeepsUnlinked(Create(page), Tip(page), es);
    var (s, t) := RunPuts(Create(page), Tip(page), es);
    ChainedIffOneLeaf(s.pages, t);
  }

  /** After every run of lossless puts from an empty tree, what a scan returns (the wanted entries of its start
      leaf) is what it should return (those of all entries put) if and only if nothing on a later leaf is
      wanted. */
  lemma ScanAfterRunIff(page: nat, es: seq<Entry>, start: Option<Key>, end: Option<Key>, snapshot: nat)
    requires page > 0 && Placed(Create(page), Tip(page)) && AllLossless(Create(page), Tip(page), es)
    ensures var (s, t) := RunPuts(Create(page), Tip(page), es);
            && Placed(s, t) && Unlinked(s.pages)
            && (var first := StartLeaf(s.pages, t, start);
                Select(EntriesAt(s.pages, first), start, end, snapshot)
                == Select(UpsertAll([], es), start, end, snapshot)
                <==> forall x :: x in Stored(s.pages, After(Leaves(t), first)) ==> !Wanted(x, start, end, snapshot))
  {
    CreatePlaced(page);
    RunKeepsUnlinked(Create(page), Tip(page), es);
    LosslessRunRefines(Create(page), Tip(page), es);
    var (s, t) := RunPuts(Create(page), Tip(page), es);
    OneLeafScanIff(s.pages, t, start, end, snapshot);
  }

  /** For the ascending runs that lose nothing, a full scan is complete if and only if no put has split the
      first leaf. */
  lemma FullScanIff(page: nat, es: seq<Entry>, lo: nat, hi: nat, snapshot: nat)
    requires page > 0 && Sorted(es) && es != [] && Comparable(lo, hi) && Sized(es, lo, hi)
    requires forall i :: 0 <= i < |es| ==> es[i].lsn <= snapshot
    ensures Placed(Create(page), Tip(page))
    ensures var (s, t) := RunPuts(Create(page), Tip(page), es);
            && Placed(s, t)
            && (Select(EntriesAt(s.pages, StartLeaf(s.pages, t, None)), None, None, snapshot) == es <==>
                |Leaves(t)| == 1)
  {
    CreateAscended(page);
    assert [] + es == es;
    AscendingRun(Create(page), Tip(page), [], es, lo, hi);
    var (s, t) := RunPuts(Create(page), Tip(page), es);
    AllWantedSelects(es, snapshot);
    OneLeafScanIff(s.pages, t, None, None, snapshot);
    LaterLeaves(s.pages, t, es, snapshot);
  }

  lemma {:induction false} AllWantedSelects(es: seq<Entry>, snapshot: nat)
    requires forall i :: 0 <= i < |es| ==> es[i].lsn <= snapshot
    ensures Select(es, None, None, snapshot) == es
  {
    if es != [] {
      AllWantedSelects(es[1..], snapshot);
    }
  }

  lemma LaterLeaves(h: Heap, t: Shape, es: seq<Entry>, snapshot: nat)
    requires Shaped(h, t) && NoEmptyLeaf(h, Leaves(t)) && Contents(h, t) == es
    requires forall i :: 0 <= i < |es| ==> es[i].lsn <= snapshot
    ensures (forall x :: x in Stored(h, After(Leaves(t), StartLeaf(h, t, None))) ==> !Wanted(x, None, None, snapshot))
            <==> |Leaves(t)| == 1
  {
    ShapedHasLeaves(h, t);
    var ps := Leaves(t);
    var rest := Stored(h, ps[1..]);
    assert After(ps, ps[0]) == ps[1..];
    assert es == EntriesAt(h, ps[0]) + rest;
    if |ps| > 1 {
      assert ps[1..][0] == ps[1];
      var x := EntriesAt(h, ps[1])[0];
      assert rest == EntriesAt(h, ps[1]) + Stored(h, ps[1..][1..]);
      assert rest[0] == x && es[|EntriesAt(h, ps[0])|] == x;
      assert x in rest && Wanted(x, None, None, snapshot);
    } else {
      assert ps[1..] == [];
    }
  }

  // ------------------------------------------------------ a split of a tree that is linked

  lemma KeptLeafNext(l: Leaf, e: Entry, page: nat)
    requires InsertOrSplit(l, e, page).Split?
    ensures InsertOrSplit(l, e, page).leaf.next == l.next
  {
    OutcomeNext(l, e, page);
  }

  /** Every old page keeps its link through a split. */
  lemma SplitKeepsNext(s: State, t: Shape, p: nat, l: Leaf, r: Leaf, sep: Key, q: nat)
    requires Placed(s, t) && p in s.pages && s.pages[p].LeafPage? && l.next == s.pages[p].leaf.next
    requires q in s.pages && s.pages[q].LeafPage?
    ensures var g := SplitState(s, p, l, r, sep).pages;
            q in g && g[q].LeafPage? && g[q].leaf.next == s.pages[q].leaf.next
  {
  }

  /** After a split the links still thread the old leaves only. */
  lemma OldChainKept(s: State, t: Shape, e: Entry)
    requires Placed(s, t) && PutState(s, t, e).1 && PutSplits(s, t, e) && Chained(s.pages, Leaves(t))
    ensures Chained(PutState(s, t, e).0.pages, Leaves(t))
    ensures Leaves(PutShape(s, t, e)) == Leaves(t) + [s.nextPage]
  {
    var p, ps, g := Target(s.pages, t, e.key), Leaves(t), PutState(s, t, e).0.pages;
    TargetIsPage(s.pages, t, e.key);
    var o := SplitPutState(s, t, e);
    KeptLeafNext(TargetLeaf(s, t, e.key), e, s.nextPage);
    SplitEntries(s, t, p, o.leaf, o.right, o.separator);
    LeavesOfPair(t, s.nextPage);
    forall i | 0 <= i < |ps| ensures Link(g, ps, i) {
      assert Link(s.pages, ps, i);
      SplitKeepsNext(s, t, p, o.leaf, o.right, o.separator, ps[i]);
      assert EntriesAt(g, ps[i]) == if ps[i] == p then o.leaf.entries else EntriesAt(s.pages, ps[i]);
    }
  }

  lemma ChainEnds(h: Heap, ps: seq<nat>, n: nat)
    requires Chained(h, ps) && ps != [] && n != 0
    ensures !Chained(h, ps + [n])
  {
    var i := |ps| - 1;
    assert Link(h, ps, i) && Following(ps, i) == 0;
    assert (ps + [n])[i] == ps[i] && Following(ps + [n], i) == n;
    assert !Link(h, ps + [n], i);
  }

  /** Even on a tree whose links thread its leaves, a lossless put that splits ends that: following the links
      from the leftmost leaf stops before the new leaf, so a scan without start key returns all it should if and
      only if nothing on the new leaf is wanted. */
  lemma ScanStopsBeforeNewLeaf(s: State, t: Shape, e: Entry, end: Option<Key>, snapshot: nat)
    requires Placed(s, t) && IsTree(s.pages, t) && PutState(s, t, e).1 && PutSplits(s, t, e)
    requires Lossless(s, t, e) && Chained(s.pages, Leaves(t))
    ensures var g, u := PutState(s, t, e).0.pages, PutShape(s, t, e);
            && IsTree(g, u) && !Chained(g, Leaves(u))
            && Chained(g, Leaves(t)) && Leaves(t) != [] && Leaves(t)[0] == StartLeaf(g, u, None)
            && Contents(g, u) == Stored(g, Leaves(t)) + EntriesAt(g, s.nextPage)
            && EntriesAt(g, s.nextPage) != []
            && (Select(Stored(g, Leaves(t)), None, end, snapshot) == Select(Contents(g, u), None, end, snapshot)
                <==> forall x :: x in EntriesAt(g, s.nextPage) ==> !Wanted(x, None, end, snapshot))
  {
    var p, g := Target(s.pages, t, e.key), PutState(s, t, e).0.pages;
    LosslessPutUpserts(s, t, e);
    OldChainKept(s, t, e);
    ShapedHasLeaves(s.pages, t);
    ChainEnds(g, Leaves(t), s.nextPage);
    StoredConcat(g, Leaves(t), [s.nextPage]);
    StoredOne(g, s.nextPage);
    var o := SplitPutState(s, t, e);
    TargetIsPage(s.pages, t, e.key);
    SplitEntries(s, t, p, o.leaf, o.right, o.separator);
    SelectFrontIff(Stored(g, Leaves(t)), EntriesAt(g, s.nextPage), None, end, snapshot);
  }
}
