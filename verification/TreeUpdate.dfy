/** Changing one page of a search tree: pages a change does not reach keep their
    meaning, and replacing the leaf a key leads to keeps the search order. */
module TreeUpdate {
  import opened Bytes
  import opened Entries
  import opened LeafNodes
  import opened SearchTree

  /** Page `q` is one of the pages of the tree. */
  ghost predicate Uses(t: Shape, q: nat)
    decreases t
  {
    match t
    case Tip(p) => q == p
    case Branch(p, kids) => q == p || exists i :: 0 <= i < |kids| && Uses(kids[i], q)
  }

  ghost predicate Disjoint(a: Shape, b: Shape) {
    forall q :: Uses(a, q) ==> !Uses(b, q)
  }

  /** No page is used twice. */
  ghost predicate Distinct(t: Shape)
    decreases t
  {
    match t
    case Tip(_) => true
    case Branch(p, kids) =>
      && (forall i :: 0 <= i < |kids| ==> !Uses(kids[i], p) && Distinct(kids[i]))
      && (forall i, j :: 0 <= i < |kids| && 0 <= j < |kids| && i != j ==> Disjoint(kids[i], kids[j]))
  }

  // ------------------------------------------------------------- untouched subtrees

  /** Equal up to the header and, for leaves, the sibling links. */
  ghost predicate Alike(a: Node, b: Node) {
    (a.LeafPage? && b.LeafPage? && a.leaf.entries == b.leaf.entries) ||
    (a.Internal? && b.Internal? && a.seps == b.seps && a.children == b.children)
  }

  ghost predicate AlikeOn(h: Heap, g: Heap, t: Shape) {
    forall q :: Uses(t, q) ==> q in h && q in g && Alike(h[q], g[q])
  }

  lemma {:induction false} LeavesAreUsed(t: Shape, q: nat)
    requires q in Leaves(t)
    ensures Uses(t, q)
    decreases t
  {
    match t
    case Tip(_) =>
    case Branch(_, kids) => var i := LeavesOfAreUsed(kids, q);
  }

  lemma {:induction false} LeavesOfAreUsed(ts: seq<Shape>, q: nat) returns (i: nat)
    requires q in LeavesOf(ts)
    ensures i < |ts| && Uses(ts[i], q)
    decreases ts
  {
    if q in Leaves(ts[0]) {
      LeavesAreUsed(ts[0], q);
      i := 0;
    } else {
      i := LeavesOfAreUsed(ts[1..], q);
      i := i + 1;
    }
  }

  lemma {:induction false} StoredAlike(h: Heap, g: Heap, ps: seq<nat>)
    requires forall i :: 0 <= i < |ps| ==> ps[i] in h && ps[i] in g && Alike(h[ps[i]], g[ps[i]])
    ensures Stored(h, ps) == Stored(g, ps)
  {
    if ps != [] {
      StoredAlike(h, g, ps[1..]);
    }
  }

  lemma ContentsAlike(h: Heap, g: Heap, t: Shape)
    requires AlikeOn(h, g, t)
    ensures Contents(h, t) == Contents(g, t)
  {
    forall i | 0 <= i < |Leaves(t)| ensures Uses(t, Leaves(t)[i]) {
      LeavesAreUsed(t, Leaves(t)[i]);
    }
    StoredAlike(h, g, Leaves(t));
  }

  /** A subtree whose pages only changed headers or links is the same tree. */
  lemma {:induction false} ShapedAlike(h: Heap, g: Heap, t: Shape)
    requires Shaped(h, t) && AlikeOn(h, g, t)
    ensures Shaped(g, t)
    ensures Ordered(h, t) ==> Ordered(g, t)
    decreases t
  {
    match t
    case Tip(_) =>
    case Branch(p, kids) =>
      assert BranchShape(g, p, kids);
      forall i | 0 <= i < |kids|
        ensures Shaped(g, kids[i]) && Contents(h, kids[i]) == Contents(g, kids[i])
        ensures Ordered(h, kids[i]) ==> Ordered(g, kids[i])
      {
        ShapedAlike(h, g, kids[i]);
        ContentsAlike(h, g, kids[i]);
      }
  }

  lemma {:induction false} TargetAlike(h: Heap, g: Heap, t: Shape, k: Key)
    requires Shaped(h, t) && Shaped(g, t) && AlikeOn(h, g, t)
    ensures Target(g, t, k) == Target(h, t, k)
    decreases t
  {
    match t
    case Tip(_) =>
    case Branch(p, kids) => TargetAlike(h, g, kids[ChildIndex(h[p].seps, k)], k);
  }

  lemma {:induction false} TargetIsPage(h: Heap, t: Shape, k: Key)
    requires Shaped(h, t)
    ensures Uses(t, Target(h, t, k))
    ensures Target(h, t, k) in h && h[Target(h, t, k)].LeafPage? && Sorted(h[Target(h, t, k)].leaf.entries)
    decreases t
  {
    match t
    case Tip(_) =>
    case Branch(p, kids) => TargetIsPage(h, kids[ChildIndex(h[p].seps, k)], k);
  }

  // --------------------------------------------------------------- replacing a leaf

  /** The heap with another leaf on page `p`. */
  function WithLeaf(h: Heap, p: nat, l: Leaf): Heap {
    h[p := LeafPage(l)]
  }

  /** Routing depends on branches alone: with any sorted leaf in place every key leads where it led. */
  lemma {:induction false} WithLeafShaped(h: Heap, t: Shape, p: nat, l: Leaf)
    requires Shaped(h, t) && p in h && h[p].LeafPage? && Sorted(l.entries)
    ensures Shaped(WithLeaf(h, p, l), t)
    decreases t
  {
    match t
    case Tip(_) =>
    case Branch(b, kids) =>
      assert BranchShape(WithLeaf(h, p, l), b, kids);
      forall i | 0 <= i < |kids| ensures Shaped(WithLeaf(h, p, l), kids[i]) {
        WithLeafShaped(h, kids[i], p, l);
      }
  }

  lemma {:induction false} WithLeafTarget(h: Heap, t: Shape, p: nat, l: Leaf, k: Key)
    requires Shaped(h, t) && p in h && h[p].LeafPage? && Shaped(WithLeaf(h, p, l), t)
    ensures Target(WithLeaf(h, p, l), t, k) == Target(h, t, k)
    decreases t
  {
    match t
    case Tip(_) =>
    case Branch(b, kids) => WithLeafTarget(h, kids[ChildIndex(h[b].seps, k)], p, l, k);
  }

  lemma {:induction false} StoredUntouched(h: Heap, ps: seq<nat>, p: nat, l: Leaf)
    requires p !in ps
    ensures Stored(WithLeaf(h, p, l), ps) == Stored(h, ps)
  {
    if ps != [] {
      StoredUntouched(h, ps[1..], p, l);
    }
  }

  /** Each page occurs once among the leaves of a tree without repeated pages. */
  lemma {:induction false} LeavesDistinct(t: Shape)
    requires Distinct(t)
    ensures forall i, j :: 0 <= i < j < |Leaves(t)| ==> Leaves(t)[i] != Leaves(t)[j]
    decreases t
  {
    match t
    case Tip(_) =>
    case Branch(_, kids) => LeavesOfDistinct(kids);
  }

  lemma {:induction false} LeavesOfDistinct(ts: seq<Shape>)
    requires forall i, j :: 0 <= i < |ts| && 0 <= j < |ts| && i != j ==> Disjoint(ts[i], ts[j])
    requires forall i :: 0 <= i < |ts| ==> Distinct(ts[i])
    ensures forall i, j :: 0 <= i < j < |LeavesOf(ts)| ==> LeavesOf(ts)[i] != LeavesOf(ts)[j]
    decreases ts
  {
    if ts != [] {
      var a, rest := Leaves(ts[0]), ts[1..];
      var b := LeavesOf(rest);
      LeavesDistinct(ts[0]);
      LeavesOfDistinct(rest);
      forall i, j | 0 <= i < |a| && 0 <= j < |b| ensures a[i] != b[j] {
        LeavesAreUsed(ts[0], a[i]);
        var n := LeavesOfAreUsed(rest, b[j]);
        assert Disjoint(ts[0], ts[n + 1]);
      }
      NoRepeats(a, b);
    }
  }

  lemma NoRepeats(a: seq<nat>, b: seq<nat>)
    requires forall i, j :: 0 <= i < j < |a| ==> a[i] != a[j]
    requires forall i, j :: 0 <= i < j < |b| ==> b[i] != b[j]
    requires forall i, j :: 0 <= i < |a| && 0 <= j < |b| ==> a[i] != b[j]
    ensures forall i, j :: 0 <= i < j < |a + b| ==> (a + b)[i] != (a + b)[j]
  {
  }

  lemma AroundDistinct(ps: seq<nat>, pre: seq<nat>, p: nat, post: seq<nat>)
    requires ps == pre + ([p] + post)
    requires forall i, j :: 0 <= i < j < |ps| ==> ps[i] != ps[j]
    ensures p !in pre && p !in post
  {
    assert ps[|pre|] == p;
    assert forall i :: 0 <= i < |pre| ==> ps[i] == pre[i];
    assert forall i :: 0 <= i < |post| ==> ps[|pre| + 1 + i] == post[i];
  }

  /** What the tree stores after the leaf at a cut is replaced. */
  lemma WithLeafContents(h: Heap, t: Shape, pre: seq<nat>, p: nat, post: seq<nat>, l: Leaf)
    requires Distinct(t) && Leaves(t) == pre + ([p] + post)
    ensures Contents(WithLeaf(h, p, l), t) == Stored(h, pre) + (l.entries + Stored(h, post))
  {
    var g := WithLeaf(h, p, l);
    LeavesDistinct(t);
    AroundDistinct(Leaves(t), pre, p, post);
    StoredAround(g, pre, [p], post);
    StoredOne(g, p);
    StoredUntouched(h, pre, p, l);
    StoredUntouched(h, post, p, l);
  }

  /** The new leaf holds nothing but old entries and entries with key `k`. */
  ghost predicate OnlyAdds(l: Leaf, was: seq<Entry>, k: Key) {
    forall i :: 0 <= i < |l.entries| ==> l.entries[i] in was || l.entries[i].key == k
  }

  lemma BoundedAfter(was: seq<Entry>, now: seq<Entry>, seps: seq<Key>, k: Key)
    requires Ascending(seps) && Bounded(was, seps, ChildIndex(seps, k))
    requires forall i :: 0 <= i < |now| ==> now[i] in was || now[i].key == k
    ensures Bounded(now, seps, ChildIndex(seps, k))
  {
    ChildIndexSplits(seps, k);
  }

  lemma ContentsAfter(h: Heap, t: Shape, k: Key, l: Leaf)
    requires IsTree(h, t) && Distinct(t) && OnlyAdds(l, EntriesAt(h, Target(h, t, k)), k)
    ensures forall x :: x in Contents(WithLeaf(h, Target(h, t, k), l), t) ==> x in Contents(h, t) || x.key == k
  {
    var p := Target(h, t, k);
    var pre, post := Descent(h, t, k);
    WithLeafContents(h, t, pre, p, post, l);
    StoredAround(h, pre, [p], post);
    StoredOne(h, p);
  }

  /** Replacing the leaf a key leads to, by one that only adds entries with that key, keeps the tree a
      search tree. */
  lemma {:induction false} ReplaceLeafOrdered(h: Heap, t: Shape, k: Key, l: Leaf)
    requires IsTree(h, t) && Distinct(t) && Sorted(l.entries)
    requires OnlyAdds(l, EntriesAt(h, Target(h, t, k)), k)
    ensures IsTree(WithLeaf(h, Target(h, t, k), l), t)
    decreases t
  {
    var p := Target(h, t, k);
    TargetIsPage(h, t, k);
    WithLeafShaped(h, t, p, l);
    match t
    case Tip(_) =>
    case Branch(b, kids) =>
      ReplaceLeafOrdered(h, kids[ChildIndex(h[b].seps, k)], k, l);
      ReplaceInBranch(h, b, kids, k, l);
  }

  /** At one branch: the child the key leads to keeps its bounds, the others are untouched. */
  lemma ReplaceInBranch(h: Heap, b: nat, kids: seq<Shape>, k: Key, l: Leaf)
    requires IsTree(h, Branch(b, kids)) && Distinct(Branch(b, kids))
    requires OnlyAdds(l, EntriesAt(h, Target(h, Branch(b, kids), k)), k)
    requires Shaped(WithLeaf(h, Target(h, Branch(b, kids), k), l), Branch(b, kids))
    requires IsTree(WithLeaf(h, Target(h, Branch(b, kids), k), l), kids[ChildIndex(h[b].seps, k)])
    ensures IsTree(WithLeaf(h, Target(h, Branch(b, kids), k), l), Branch(b, kids))
  {
    var p, c := Target(h, Branch(b, kids), k), ChildIndex(h[b].seps, k);
    var g := WithLeaf(h, p, l);
    TargetIsPage(h, kids[c], k);
    ContentsAfter(h, kids[c], k, l);
    BoundedAfter(Contents(h, kids[c]), Contents(g, kids[c]), h[b].seps, k);
    forall i | 0 <= i < |kids|
      ensures Ordered(g, kids[i]) && Bounded(Stored(g, Leaves(kids[i])), g[b].seps, i)
    {
      if i != c {
        assert Disjoint(kids[c], kids[i]);
        WithLeafElsewhere(h, kids[i], p, l);
      }
    }
  }

  lemma WithLeafElsewhere(h: Heap, t: Shape, p: nat, l: Leaf)
    requires IsTree(h, t) && !Uses(t, p)
    ensures IsTree(WithLeaf(h, p, l), t) && Contents(WithLeaf(h, p, l), t) == Contents(h, t)
  {
    var g := WithLeaf(h, p, l);
    forall q | Uses(t, q) ensures q in h && q in g && Alike(h[q], g[q]) {
      UsedPagesExist(h, t, q);
    }
    ShapedAlike(h, g, t);
    ContentsAlike(h, g, t);
  }

  lemma {:induction false} UsedPagesExist(h: Heap, t: Shape, q: nat)
    requires Shaped(h, t) && Uses(t, q)
    ensures q in h
    decreases t
  {
    match t
    case Tip(_) =>
    case Branch(p, kids) =>
      if q != p {
        var i :| 0 <= i < |kids| && Uses(kids[i], q);
        UsedPagesExist(h, kids[i], q);
      }
  }
}
