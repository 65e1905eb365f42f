/** What runs of `put` do to the form of the tree: every split puts a new root on top, so the tree is a
    comb with one level per leaf, and its height, levels and parent fields follow from that. */
module TreeHeight {
  import opened Bytes
  import opened Entries
  import opened LeafNodes
  import opened LeafOps
  import opened SearchTree
  import opened TreeUpdate
  import opened TreePut
  import opened PutRuns
  import opened TreePages
  import opened BTree

  // ---------------------------------------------------------------------- the form

  /** Every branch has two children, and the second is a leaf. */
  ghost predicate Comb(t: Shape) {
    t.Branch? ==> |t.kids| == 2 && Comb(t.kids[0]) && t.kids[1].Tip?
  }

  /** How many steps down each leaf is, from left to right. */
  ghost function Depths(t: Shape): seq<nat>
    requires Comb(t)
  {
    if t.Tip? then [0] else Deeper(Depths(t.kids[0])) + [1]
  }

  ghost function Deeper(ds: seq<nat>): seq<nat> {
    seq(|ds|, i requires 0 <= i < |ds| => ds[i] + 1)
  }

  ghost predicate Balanced(t: Shape)
    requires Comb(t)
  {
    forall i, j :: 0 <= i < |Depths(t)| && 0 <= j < |Depths(t)| ==> Depths(t)[i] == Depths(t)[j]
  }

  lemma {:induction false} CombDepths(t: Shape)
    requires Comb(t)
    ensures |Depths(t)| == |Leaves(t)| >= 1 && Depths(t)[0] == |Leaves(t)| - 1
    ensures t.Tip? <==> |Leaves(t)| == 1
  {
    if t.Branch? {
      CombDepths(t.kids[0]);
      assert t.kids == [t.kids[0], Tip(t.kids[1].page)];
      LeavesOfPair(t.kids[0], t.kids[1].page);
    }
  }

  /** All leaves of a comb are equally deep exactly when there are at most two. */
  lemma BalancedIff(t: Shape)
    requires Comb(t)
    ensures Balanced(t) <==> |Leaves(t)| <= 2
  {
    CombDepths(t);
    var ds := Depths(t);
    if t.Branch? {
      CombDepths(t.kids[0]);
      assert t.kids == [t.kids[0], Tip(t.kids[1].page)];
      LeavesOfPair(t.kids[0], t.kids[1].page);
      assert ds[|ds| - 1] == 1 && ds[0] == |Leaves(t)| - 1;
    }
  }

  // --------------------------------------------------------------- levels and parents

  /** The level of every node is the number of steps to its leftmost leaf; the parent field of a left child names its
      parent, that of a right child is never set. */
  ghost predicate Levelled(h: Heap, t: Shape)
    requires Comb(t)
  {
    && t.page in h && HeaderOf(h[t.page]).level == |Leaves(t)| - 1
    && (t.Branch? ==>
          && Levelled(h, t.kids[0]) && Levelled(h, t.kids[1])
          && HeaderOf(h[t.kids[0].page]).parent == t.page && HeaderOf(h[t.kids[1].page]).parent == 0)
  }

  /** The same levels on all pages of a tree, and the same parents below its root. */
  ghost predicate SameFrame(h: Heap, g: Heap, t: Shape) {
    forall q :: Uses(t, q) && q in h ==>
      && q in g && HeaderOf(g[q]).level == HeaderOf(h[q]).level
      && (q != t.page ==> HeaderOf(g[q]).parent == HeaderOf(h[q]).parent)
  }

  lemma {:induction false} LevelledSame(h: Heap, g: Heap, t: Shape)
    requires Comb(t) && Distinct(t) && Levelled(h, t) && SameFrame(h, g, t)
    ensures Levelled(g, t)
  {
    assert Uses(t, t.page);
    if t.Branch? {
      KidFrame(h, g, t, 0);
      KidFrame(h, g, t, 1);
      LevelledSame(h, g, t.kids[0]);
      LevelledSame(h, g, t.kids[1]);
    }
  }

  lemma KidFrame(h: Heap, g: Heap, t: Shape, i: nat)
    requires t.Branch? && i < |t.kids| && Distinct(t) && SameFrame(h, g, t)
    ensures SameFrame(h, g, t.kids[i]) && Uses(t, t.kids[i].page) && t.kids[i].page != t.page && Distinct(t.kids[i])
  {
    assert Uses(t.kids[i], t.kids[i].page);
    forall q | Uses(t.kids[i], q) ensures Uses(t, q) && q != t.page {
    }
  }

  // ------------------------------------------------------------------------- one put

  ghost predicate Framed(l: Leaf, level: nat, parent: nat) {
    l.header.level == level && l.header.parent == parent
  }

  ghost predicate OutcomeFramed(o: InsertOutcome, level: nat, parent: nat) {
    match o
    case Done(l) => Framed(l, level, parent)
    case Split(l, r, _) => Framed(l, level, parent) && Framed(r, 0, 0)
    case Failed(_, _) => true
  }

  lemma {:induction false} AllFramed(l: Leaf, es: seq<Entry>)
    requires InsertAll(l, es).Some?
    ensures Framed(InsertAll(l, es).value, l.header.level, l.header.parent)
    decreases |es|
  {
    if es != [] {
      AllFramed(Insert(l, es[0]), es[1..]);
    }
  }

  lemma SplitFrames(l: Leaf, page: nat)
    ensures OutcomeFramed(SplitOutcome(l, page), l.header.level, l.header.parent)
  {
    if SplitOutcome(l, page).Split? {
      AllFramed(NewLeaf(page), l.entries[|l.entries| / 2..]);
    }
  }

  lemma InsertFrames(l: Leaf, e: Entry, page: nat)
    ensures OutcomeFramed(InsertOrSplit(l, e, page), l.header.level, l.header.parent)
  {
    SplitFrames(l, page);
    SplitFrames(Insert(l, e), page);
  }

  lemma HalvesFramed(l: Leaf, e: Entry, page: nat, o: InsertOutcome)
    requires o == InsertOrSplit(l, e, page) && o.Split?
    ensures Framed(o.leaf, l.header.level, l.header.parent) && Framed(o.right, 0, 0)
  {
    InsertFrames(l, e, page);
  }

  /** The form, with the counters of the tree: one level and one internal node for every leaf but the first. */
  ghost predicate Formed(s: State, t: Shape) {
    && Comb(t) && Levelled(s.pages, t)
    && s.height == s.internalCount == |Leaves(t)| - 1
  }

  lemma PlainFormed(s: State, t: Shape, p: nat, l: Leaf)
    requires Placed(s, t) && Formed(s, t) && p in s.pages && s.pages[p].LeafPage?
    requires Framed(l, s.pages[p].leaf.header.level, s.pages[p].leaf.header.parent)
    ensures Formed(Write(s, p, l), t)
  {
    LevelledSame(s.pages, Write(s, p, l).pages, t);
  }

  lemma UnusedFormed(s: State, t: Shape, l: Leaf)
    requires Placed(s, t) && Formed(s, t)
    ensures Formed(Write(Allocate(s), s.nextPage, l), t)
  {
    LevelledSame(s.pages, Write(Allocate(s), s.nextPage, l).pages, t);
  }

  lemma GrowFormed(s: State, t: Shape, sep: Key, right: nat)
    requires Placed(s, t) && Formed(s, t)
    requires right in s.pages && s.pages[right].LeafPage? && !Uses(t, right) && Framed(s.pages[right].leaf, 0, 0)
    ensures Formed(Grow(s, sep, right), Branch(s.nextPage, [t, Tip(right)]))
  {
    var g, u := Grow(s, sep, right), Branch(s.nextPage, [t, Tip(right)]);
    LeavesOfPair(t, right);
    assert Uses(t, t.page);
    LevelledSame(s.pages, g.pages, t);
    assert g.pages[right] == s.pages[right];
    assert Leaves(Tip(right)) == [right];
    assert Levelled(g.pages, Tip(right));
    assert u.kids[0] == t && u.kids[1] == Tip(right);
  }

  lemma SplitFormed(s: State, t: Shape, p: nat, l: Leaf, r: Leaf, sep: Key)
    requires Placed(s, t) && Formed(s, t) && Uses(t, p) && p in s.pages && s.pages[p].LeafPage? && Valid(l) && Valid(r)
    requires Framed(l, s.pages[p].leaf.header.level, s.pages[p].leaf.header.parent) && Framed(r, 0, 0)
    ensures Formed(SplitState(s, p, l, r, sep), Branch(s.nextPage + 1, [t, Tip(s.nextPage)]))
  {
    WriteUnused(s, t, r);
    UnusedFormed(s, t, r);
    PlainFormed(Write(Allocate(s), s.nextPage, r), t, p, l);
    HalvesPlaced(s, t, p, l, r);
    GrowFormed(HalvesWritten(s, p, l, r), t, sep, s.nextPage);
  }

  lemma FailedFormed(s: State, t: Shape, e: Entry)
    requires Placed(s, t) && Formed(s, t) && !PutState(s, t, e).1
    ensures Formed(PutState(s, t, e).0, t)
  {
    var p, l := Target(s.pages, t, e.key), TargetLeaf(s, t, e.key);
    TargetIsPage(s.pages, t, e.key);
    if !FirstEntry(s, p, l) && InsertOrSplit(l, e, s.nextPage).orphan.Some? {
      UnusedFormed(s, t, InsertOrSplit(l, e, s.nextPage).orphan.value);
    }
  }

  /** What a put that splits leaves, with halves that keep the fields of the old leaf. */
  lemma SplitPutFramed(s: State, t: Shape, e: Entry) returns (l: Leaf, r: Leaf, sep: Key)
    requires Placed(s, t) && PutState(s, t, e).1 && PutSplits(s, t, e)
    ensures PutState(s, t, e).0 == SplitState(s, Target(s.pages, t, e.key), l, r, sep) && Valid(l) && Valid(r)
    ensures var old' := TargetLeaf(s, t, e.key).header; Framed(l, old'.level, old'.parent) && Framed(r, 0, 0)
  {
    var o := SplitPutState(s, t, e);
    HalvesFramed(TargetLeaf(s, t, e.key), e, s.nextPage, o);
    l, r, sep := o.leaf, o.right, o.separator;
  }

  lemma SplitPutFormed(s: State, t: Shape, e: Entry) returns (g: State, u: Shape)
    requires Placed(s, t) && Formed(s, t) && PutState(s, t, e).1 && PutSplits(s, t, e)
    ensures g == PutState(s, t, e).0 && u == PutShape(s, t, e) && Formed(g, u)
  {
    var l, r, sep := SplitPutFramed(s, t, e);
    TargetIsPage(s.pages, t, e.key);
    g, u := PutState(s, t, e).0, PutShape(s, t, e);
    SplitIsFormed(s, t, Target(s.pages, t, e.key), l, r, sep, g, u);
  }

  lemma SplitIsFormed(s: State, t: Shape, p: nat, l: Leaf, r: Leaf, sep: Key, g: State, u: Shape)
    requires Placed(s, t) && Formed(s, t) && Uses(t, p) && p in s.pages && s.pages[p].LeafPage? && Valid(l) && Valid(r)
    requires Framed(l, s.pages[p].leaf.header.level, s.pages[p].leaf.header.parent) && Framed(r, 0, 0)
    requires g == SplitState(s, p, l, r, sep) && u == Branch(s.nextPage + 1, [t, Tip(s.nextPage)])
    ensures Formed(g, u)
  {
    SplitFormed(s, t, p, l, r, sep);
  }

  lemma PutFormed(s: State, t: Shape, e: Entry)
    requires Placed(s, t) && Formed(s, t)
    ensures Formed(PutState(s, t, e).0, PutShape(s, t, e))
  {
    if !PutState(s, t, e).1 {
      FailedFormed(s, t, e);
    } else if PutSplits(s, t, e) {
      var g, u := SplitPutFormed(s, t, e);
    } else {
      PlainPutState(s, t, e);
      TargetIsPage(s.pages, t, e.key);
      PlainFormed(s, t, Target(s.pages, t, e.key), Insert(TargetLeaf(s, t, e.key), e));
    }
  }

  // ----------------------------------------------------------------------- whole runs

  lemma {:induction false} RunFormed(s: State, t: Shape, es: seq<Entry>)
    requires Placed(s, t) && Formed(s, t)
    ensures Formed(RunPuts(s, t, es).0, RunPuts(s, t, es).1)
    decreases |es|
  {
    if es != [] {
      PutKeepsPlaced(s, t, es[0]);
      PutFormed(s, t, es[0]);
      RunFormed(PutState(s, t, es[0]).0, PutShape(s, t, es[0]), es[1..]);
    }
  }

  /** After every run of puts on an empty tree, its height and its number of internal nodes are the number of leaves
      less one, the first leaf is as many steps down, and the leaves are equally deep only while there are two. */
  lemma HeightIsLinear(page: nat, es: seq<Entry>)
    requires page > 0
    ensures Placed(Create(page), Tip(page))
    ensures var (s, t) := RunPuts(Create(page), Tip(page), es);
            && Formed(s, t) && |Depths(t)| == |Leaves(t)| && Depths(t)[0] == s.height == |Leaves(t)| - 1
            && (Balanced(t) <==> |Leaves(t)| <= 2)
  {
    CreatePlaced(page);
    RunFormed(Create(page), Tip(page), es);
    var (s, t) := RunPuts(Create(page), Tip(page), es);
    CombDepths(t);
    BalancedIff(t);
  }

  // ------------------------------------------------------------------- what a get costs

  lemma {:induction false} PathUsed(h: Heap, t: Shape, k: Key, q: nat)
    requires Shaped(h, t) && q in Path(h, t, k)
    ensures Uses(t, q)
    decreases t
  {
    if t.Branch? && q != t.page {
      var i := ChildIndex(h[t.page].seps, k);
      PathUsed(h, t.kids[i], k, q);
    }
  }

  /** A key of the first leaf is found only by reading one page for every leaf of the tree. */
  lemma {:induction false} FirstLeafPath(h: Heap, t: Shape, k: Key)
    requires Shaped(h, t) && Comb(t) && Distinct(t)
    requires Leaves(t) != [] && Target(h, t, k) == Leaves(t)[0]
    ensures |Path(h, t, k)| == |Leaves(t)|
    decreases t
  {
    if t.Branch? {
      var c, r := t.kids[0], t.kids[1].page;
      assert t.kids == [c, Tip(r)];
      LeavesOfPair(c, r);
      CombDepths(c);
      LeavesAreUsed(c, Leaves(c)[0]);
      assert Disjoint(t.kids[0], t.kids[1]);
      assert ChildIndex(h[t.page].seps, k) == 0;
      FirstLeafPath(h, c, k);
      assert t.page !in Path(h, c, k) by {
        if t.page in Path(h, c, k) {
          PathUsed(h, c, k, t.page);
        }
      }
    }
  }
}
