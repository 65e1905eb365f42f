/** Search trees on a page heap: what makes a heap of nodes a search tree, what it
    stores, and where a descent by key ends. */
module SearchTree {
  import opened Bytes
  import opened Entries
  import opened LeafNodes

  datatype Node =
    | LeafPage(leaf: Leaf)
    | Internal(header: Header, seps: seq<Key>, children: seq<nat>)

  type Heap = map<nat, Node>

  // --------------------------------------------------------------------- one branch

  /** `find_child` from the position its binary search reports: an equal separator sends the key right. */
  function ChildIndex(seps: seq<Key>, k: Key): (c: nat)
    ensures c <= |seps|
  {
    var pos := Rank(seps, k);
    if pos < |seps| && seps[pos] == k then pos + 1 else pos
  }

  /** Reference: how many separators are at most `k`, counted one by one. */
  function CountAtMost(seps: seq<Key>, k: Key): nat {
    if seps == [] then 0 else (if AtMost(seps[0], k) then 1 else 0) + CountAtMost(seps[1..], k)
  }

  /** The child chosen has exactly the separators at most `k` on its left. */
  lemma ChildIndexSplits(seps: seq<Key>, k: Key)
    requires Ascending(seps)
    ensures forall i :: 0 <= i < |seps| ==> (i < ChildIndex(seps, k) <==> AtMost(seps[i], k))
    ensures forall i :: ChildIndex(seps, k) <= i < |seps| ==> Less(k, seps[i])
  {
    RankSplits(seps, k);
    forall i | 0 <= i < |seps|
      ensures i < ChildIndex(seps, k) <==> AtMost(seps[i], k)
      ensures ChildIndex(seps, k) <= i ==> Less(k, seps[i])
    {
      if i >= ChildIndex(seps, k) {
        NotBelow(k, seps[i]);
      }
    }
  }

  lemma {:induction false} CountPrefix(seps: seq<Key>, k: Key, c: nat)
    requires c <= |seps|
    requires forall i :: 0 <= i < |seps| ==> (i < c <==> AtMost(seps[i], k))
    ensures CountAtMost(seps, k) == c
  {
    if seps != [] {
      assert AtMost(seps[0], k) <==> 0 < c;
      forall i | 0 <= i < |seps| - 1 ensures i < c - 1 <==> AtMost(seps[1..][i], k) {
        assert seps[1..][i] == seps[i + 1];
      }
      CountPrefix(seps[1..], k, if c > 0 then c - 1 else 0);
    }
  }

  lemma ChildIndexCounts(seps: seq<Key>, k: Key)
    requires Ascending(seps)
    ensures ChildIndex(seps, k) == CountAtMost(seps, k)
  {
    ChildIndexSplits(seps, k);
    CountPrefix(seps, k, ChildIndex(seps, k));
  }

  // ------------------------------------------------------------------------- trees

  /** The arrangement of the pages of a tree. */
  datatype Shape = Tip(page: nat) | Branch(page: nat, kids: seq<Shape>)

  /** The leaf pages, left to right. */
  ghost function Leaves(t: Shape): (ps: seq<nat>)
    ensures t.Tip? ==> ps == [t.page]
    decreases t
  {
    match t
    case Tip(p) => [p]
    case Branch(_, kids) => LeavesOf(kids)
  }

  ghost function LeavesOf(ts: seq<Shape>): seq<nat>
    decreases ts
  {
    if ts == [] then [] else Leaves(ts[0]) + LeavesOf(ts[1..])
  }

  function EntriesAt(h: Heap, p: nat): seq<Entry> {
    if p in h && h[p].LeafPage? then h[p].leaf.entries else []
  }

  /** All entries on a list of leaf pages, in order. */
  function Stored(h: Heap, ps: seq<nat>): seq<Entry> {
    if ps == [] then [] else EntriesAt(h, ps[0]) + Stored(h, ps[1..])
  }

  /** Child number `i` holds only keys between its separators. */
  ghost predicate Bounded(es: seq<Entry>, seps: seq<Key>, i: nat)
    requires i <= |seps|
  {
    (i > 0 ==> AllFrom(es, seps[i - 1])) && (i < |seps| ==> AllBelow(es, seps[i]))
  }

  /** The node on a branch page has these children. */
  ghost predicate BranchShape(h: Heap, p: nat, kids: seq<Shape>) {
    && p in h && h[p].Internal?
    && |h[p].children| == |kids| == |h[p].seps| + 1
    && Ascending(h[p].seps)
    && (forall i :: 0 <= i < |kids| ==> kids[i].page == h[p].children[i])
  }

  /** The heap holds nodes of this shape, each sorted in itself. */
  ghost predicate Shaped(h: Heap, t: Shape)
    decreases t
  {
    match t
    case Tip(p) => p in h && h[p].LeafPage? && Sorted(h[p].leaf.entries)
    case Branch(p, kids) => BranchShape(h, p, kids) && forall i :: 0 <= i < |kids| ==> Shaped(h, kids[i])
  }

  /** Every child of a branch holds only keys between its separators. */
  ghost predicate BranchBounds(h: Heap, p: nat, kids: seq<Shape>)
    requires BranchShape(h, p, kids)
  {
    forall i :: 0 <= i < |kids| ==> Bounded(Stored(h, Leaves(kids[i])), h[p].seps, i)
  }

  ghost predicate Ordered(h: Heap, t: Shape)
    requires Shaped(h, t)
    decreases t
  {
    match t
    case Tip(p) => true
    case Branch(p, kids) => BranchBounds(h, p, kids) && forall i :: 0 <= i < |kids| ==> Ordered(h, kids[i])
  }

  /** The heap holds a search tree of this shape. */
  ghost predicate IsTree(h: Heap, t: Shape) {
    Shaped(h, t) && Ordered(h, t)
  }

  ghost function Contents(h: Heap, t: Shape): seq<Entry> {
    Stored(h, Leaves(t))
  }

  /** The leaf page where a descent for `k` ends. */
  ghost function Target(h: Heap, t: Shape, k: Key): nat
    requires Shaped(h, t)
    decreases t
  {
    match t
    case Tip(p) => p
    case Branch(p, kids) => Target(h, kids[ChildIndex(h[p].seps, k)], k)
  }

  // ------------------------------------------------------------- lists of leaf pages

  lemma {:induction false} StoredConcat(h: Heap, a: seq<nat>, b: seq<nat>)
    ensures Stored(h, a + b) == Stored(h, a) + Stored(h, b)
  {
    if a == [] {
      assert a + b == b;
    } else {
      assert (a + b)[1..] == a[1..] + b;
      StoredConcat(h, a[1..], b);
    }
  }

  lemma {:induction false} LeavesConcat(a: seq<Shape>, b: seq<Shape>)
    ensures LeavesOf(a + b) == LeavesOf(a) + LeavesOf(b)
  {
    if a == [] {
      assert a + b == b;
    } else {
      assert (a + b)[1..] == a[1..] + b;
      LeavesConcat(a[1..], b);
    }
  }

  lemma LeavesAround(ts: seq<Shape>, c: nat)
    requires c < |ts|
    ensures LeavesOf(ts) == LeavesOf(ts[..c]) + (Leaves(ts[c]) + LeavesOf(ts[c + 1..]))
  {
    assert ts == ts[..c] + ts[c..];
    LeavesConcat(ts[..c], ts[c..]);
    assert ts[c..][1..] == ts[c + 1..];
  }

  lemma StoredAround(h: Heap, a: seq<nat>, m: seq<nat>, b: seq<nat>)
    ensures Stored(h, a + (m + b)) == Stored(h, a) + (Stored(h, m) + Stored(h, b))
  {
    StoredConcat(h, a, m + b);
    StoredConcat(h, m, b);
  }

  lemma StoredOne(h: Heap, p: nat)
    ensures Stored(h, [p]) == EntriesAt(h, p)
  {
    assert [p][1..] == [];
  }

  lemma {:induction false} KidsBelow(h: Heap, ts: seq<Shape>, k: Key)
    requires forall i :: 0 <= i < |ts| ==> AllBelow(Contents(h, ts[i]), k)
    ensures AllBelow(Stored(h, LeavesOf(ts)), k)
  {
    if ts != [] {
      KidsBelow(h, ts[1..], k);
      StoredConcat(h, Leaves(ts[0]), LeavesOf(ts[1..]));
    }
  }

  lemma {:induction false} KidsAbove(h: Heap, ts: seq<Shape>, k: Key)
    requires forall i :: 0 <= i < |ts| ==> AllAbove(Contents(h, ts[i]), k)
    ensures AllAbove(Stored(h, LeavesOf(ts)), k)
  {
    if ts != [] {
      KidsAbove(h, ts[1..], k);
      StoredConcat(h, Leaves(ts[0]), LeavesOf(ts[1..]));
    }
  }

  lemma BelowWeaken(es: seq<Entry>, a: Key, b: Key)
    requires AllBelow(es, a) && AtMost(a, b)
    ensures AllBelow(es, b)
  {
    forall i | 0 <= i < |es| ensures Less(es[i].key, b) {
      if a != b {
        LessTransitive(es[i].key, a, b);
      }
    }
  }

  lemma AboveStrengthen(es: seq<Entry>, a: Key, b: Key)
    requires AllFrom(es, b) && Less(a, b)
    ensures AllAbove(es, a)
  {
    forall i | 0 <= i < |es| ensures Less(a, es[i].key) {
      if es[i].key != b {
        LessTransitive(a, b, es[i].key);
      }
    }
  }

  /** At one branch: the children left of the chosen one hold smaller keys, those right of it larger. */
  lemma BranchDivides(h: Heap, p: nat, kids: seq<Shape>, k: Key)
    requires BranchShape(h, p, kids) && BranchBounds(h, p, kids)
    ensures var c := ChildIndex(h[p].seps, k);
            && AllBelow(Stored(h, LeavesOf(kids[..c])), k)
            && AllAbove(Stored(h, LeavesOf(kids[c + 1..])), k)
  {
    var seps, c := h[p].seps, ChildIndex(h[p].seps, k);
    ChildIndexSplits(seps, k);
    forall i | 0 <= i < c ensures AllBelow(Contents(h, kids[..c][i]), k) {
      assert Bounded(Stored(h, Leaves(kids[i])), seps, i);
      BelowWeaken(Contents(h, kids[i]), seps[i], k);
    }
    KidsBelow(h, kids[..c], k);
    var later := kids[c + 1..];
    forall i | 0 <= i < |later| ensures AllAbove(Contents(h, later[i]), k) {
      assert later[i] == kids[c + 1 + i];
      assert Bounded(Stored(h, Leaves(kids[c + 1 + i])), seps, c + 1 + i);
      AboveStrengthen(Contents(h, kids[c + 1 + i]), k, seps[c + i]);
    }
    KidsAbove(h, later, k);
  }

  /** The leaf page `p` sits between pages with only smaller and pages with only larger keys. */
  ghost predicate Cuts(h: Heap, ps: seq<nat>, pre: seq<nat>, p: nat, post: seq<nat>, k: Key) {
    ps == pre + ([p] + post) && AllBelow(Stored(h, pre), k) && AllAbove(Stored(h, post), k)
  }

  lemma CutsWiden(h: Heap, left: seq<nat>, ps: seq<nat>, right: seq<nat>,
                  pre: seq<nat>, p: nat, post: seq<nat>, k: Key)
    requires Cuts(h, ps, pre, p, post, k) && AllBelow(Stored(h, left), k) && AllAbove(Stored(h, right), k)
    ensures Cuts(h, left + (ps + right), left + pre, p, post + right, k)
  {
    StoredConcat(h, left, pre);
    StoredConcat(h, post, right);
    Regroup(left, pre, [p], post, right);
  }

  lemma Regroup<T>(a: seq<T>, b: seq<T>, c: seq<T>, d: seq<T>, e: seq<T>)
    ensures a + ((b + (c + d)) + e) == (a + b) + (c + (d + e))
  {
  }

  /** A descent ends at a leaf of the tree with only smaller keys before it and only larger ones after it. */
  lemma {:induction false} Descent(h: Heap, t: Shape, k: Key) returns (pre: seq<nat>, post: seq<nat>)
    requires IsTree(h, t)
    ensures Cuts(h, Leaves(t), pre, Target(h, t, k), post, k)
    ensures Target(h, t, k) in h && h[Target(h, t, k)].LeafPage? && Sorted(h[Target(h, t, k)].leaf.entries)
    decreases t
  {
    match t
    case Tip(p) =>
      pre, post := [], [];
    case Branch(p, kids) =>
      var c := ChildIndex(h[p].seps, k);
      var inner, outer := Descent(h, kids[c], k);
      var left, right := LeavesOf(kids[..c]), LeavesOf(kids[c + 1..]);
      pre, post := left + inner, outer + right;
      LeavesAround(kids, c);
      BranchDivides(h, p, kids, k);
      CutsWiden(h, left, Leaves(kids[c]), right, inner, Target(h, t, k), outer, k);
  }

  /** Descending and searching one leaf finds exactly what a linear search over all leaves finds. */
  lemma SearchIsLinear(h: Heap, t: Shape, k: Key)
    requires IsTree(h, t)
    ensures Target(h, t, k) in h && h[Target(h, t, k)].LeafPage? && Sorted(h[Target(h, t, k)].leaf.entries)
    ensures Lookup(h[Target(h, t, k)].leaf.entries, k) == Lookup(Contents(h, t), k)
  {
    var pre, post := Descent(h, t, k);
    var p := Target(h, t, k);
    StoredAround(h, pre, [p], post);
    StoredOne(h, p);
    LookupByCut(Stored(h, pre), EntriesAt(h, p), Stored(h, post), k);
    LookupMissing(Stored(h, pre), k);
    LookupMissing(Stored(h, post), k);
  }

  // ------------------------------------------------------------------ global order

  lemma {:induction false} KidsSorted(h: Heap, p: nat, kids: seq<Shape>, c: nat)
    requires BranchShape(h, p, kids) && BranchBounds(h, p, kids) && c <= |kids|
    requires forall i :: 0 <= i < |kids| ==> Sorted(Contents(h, kids[i]))
    ensures Sorted(Stored(h, LeavesOf(kids[..c])))
    ensures 0 < c <= |h[p].seps| ==> AllBelow(Stored(h, LeavesOf(kids[..c])), h[p].seps[c - 1])
  {
    if c > 0 {
      KidsSorted(h, p, kids, c - 1);
      var before, last := kids[..c - 1], kids[c - 1];
      assert kids[..c] == before + [last];
      LeavesConcat(before, [last]);
      assert LeavesOf([last]) == Leaves(last) by { assert [last][1..] == []; }
      StoredConcat(h, LeavesOf(before), Leaves(last));
      var seps := h[p].seps;
      assert Bounded(Stored(h, Leaves(last)), seps, c - 1);
      if c > 1 {
        JoinSorted(Stored(h, LeavesOf(before)), seps[c - 2], Contents(h, last));
        if c <= |seps| {
          BelowWeaken(Stored(h, LeavesOf(before)), seps[c - 2], seps[c - 1]);
        }
      } else {
        assert before == [] && Stored(h, LeavesOf(before)) == [];
      }
    }
  }

  /** A search tree stores its entries in strictly ascending key order. */
  lemma {:induction false} TreeSorted(h: Heap, t: Shape)
    requires IsTree(h, t)
    ensures Sorted(Contents(h, t))
    decreases t
  {
    match t
    case Tip(p) =>
      StoredOne(h, p);
    case Branch(p, kids) =>
      forall i | 0 <= i < |kids| ensures Sorted(Contents(h, kids[i])) {
        TreeSorted(h, kids[i]);
      }
      KidsSorted(h, p, kids, |kids|);
      assert kids[..|kids|] == kids;
  }
}
