/** The tree itself: an object over a page heap with `get`, `scan` and `put`. */
module BTree {
  import opened Bytes
  import opened Results
  import opened Entries
  import opened LeafNodes
  import opened LeafOps
  import opened SearchTree
  import opened TreeUpdate
  import opened TreePut
  import opened Scans
  import opened Overflow

  // -------------------------------------------------------------------------- reads

  datatype Read = Missing | Value(value: seq<byte>) | Unreadable

  /** What a read yields of the entry found. */
  function Visible(cs: Chunks, found: Option<Entry>, snapshot: nat): Read {
    if found.Some? && found.value.lsn <= snapshot then
      match Resolved(cs, found.value.value)
      case Some(v) => Value(v)
      case None => Unreadable
    else Missing
  }

  /** The pages a descent for `k` reads. */
  ghost function Path(h: Heap, t: Shape, k: Key): set<nat>
    requires Shaped(h, t)
    decreases t
  {
    match t
    case Tip(p) => {p}
    case Branch(p, kids) => {p} + Path(h, kids[ChildIndex(h[p].seps, k)], k)
  }

  /** The answer depends on the pages read and on no other: while they stay as they are, so does it. */
  lemma {:induction false} PathDecides(h: Heap, g: Heap, t: Shape, k: Key)
    requires Shaped(h, t) && Shaped(g, t) && forall p :: p in Path(h, t, k) ==> p in h && p in g && g[p] == h[p]
    ensures Target(g, t, k) == Target(h, t, k) && Path(g, t, k) == Path(h, t, k) && Found(g, t, k) == Found(h, t, k)
    decreases t
  {
    if t.Branch? {
      PathDecides(h, g, t.kids[ChildIndex(h[t.page].seps, k)], k);
    }
  }

  /** `find_child`: binary search over the separators, an equal one sends the key to its right child. */
  method FindChild(seps: seq<Key>, k: Key) returns (c: nat)
    requires Ascending(seps)
    ensures c == ChildIndex(seps, k) == CountAtMost(seps, k)
  {
    ChildIndexCounts(seps, k);
    c := BinarySearch(seps, k);
    if c < |seps| && seps[c] == k {
      c := c + 1;
    }
  }

  /** Scan and get agree: the selected entries hold a key exactly when it lies from the start on and before the end
      and a get at the same snapshot does not miss it, and then they hold the entry that the get finds. */
  lemma ScanAgreesWithGet(h: Heap, t: Shape, cs: Chunks, start: Option<Key>, end: Option<Key>, snapshot: nat, k: Key)
    requires IsTree(h, t)
    ensures var items := Select(Contents(h, t), start, end, snapshot);
            && (k in KeysOf(items) <==>
                  && (start.Some? ==> AtMost(start.value, k)) && (end.Some? ==> Less(k, end.value))
                  && Visible(cs, Lookup(Contents(h, t), k), snapshot) != Missing)
            && (k in KeysOf(items) ==> Lookup(items, k) == Lookup(Contents(h, t), k))
            && (end == Some(k) ==> k !in KeysOf(items))
            && (start == Some(k) && (end.Some? ==> Less(k, end.value)) ==>
                  (k in KeysOf(items) <==> Visible(cs, Lookup(Contents(h, t), k), snapshot) != Missing))
  {
    var all, items := Contents(h, t), Select(Contents(h, t), start, end, snapshot);
    TreeSorted(h, t);
    SelectFromTree(h, t, start, end, snapshot);
    LessIrreflexive(k);
    SublistLookup(all, items, k);
  }

  /** A part of a sorted sequence finds a key exactly when it holds the entry that the whole finds. */
  lemma SublistLookup(all: seq<Entry>, items: seq<Entry>, k: Key)
    requires Sorted(all) && forall x :: x in items ==> x in all
    ensures k in KeysOf(items) <==> Lookup(all, k).Some? && Lookup(all, k).value in items
    ensures k in KeysOf(items) ==> Lookup(items, k) == Lookup(all, k)
  {
    if k in KeysOf(items) {
      var x := Lookup(items, k).value;
      var i: nat :| i < |all| && all[i] == x;
      LookupAt(all, i);
    }
    if Lookup(all, k).Some? && Lookup(all, k).value in items {
      var i: nat :| i < |items| && items[i] == Lookup(all, k).value;
      assert KeysOf(items)[i] == k;
    }
  }

  // ------------------------------------------------------------------- putting values

  /** Pages taken by an overflow chain do not concern the tree. */
  lemma SkipKeepsPlaced(s: State, t: Shape, n: nat)
    requires Placed(s, t) && n >= s.nextPage
    ensures Placed(s.(nextPage := n), t)
  {
  }

  /** `put` of a value: refused when too long; otherwise the kept bytes, after any overflow pages are written,
      go into the tree. */
  ghost function PutOutcome(s: State, t: Shape, cs: Chunks, k: Key, v: seq<byte>, lsn: nat): (State, Shape, Chunks,
                            bool)
    requires Placed(s, t)
  {
    if |v| > MAX_VALUE_SIZE then (s, t, cs, false)
    else
      var (kept, ds, n) := Prepared(cs, s.nextPage, v);
      SkipKeepsPlaced(s, t, n);
      var s1, e := s.(nextPage := n), Entry(k, kept, lsn);
      (PutState(s1, t, e).0, PutShape(s1, t, e), ds, PutState(s1, t, e).1)
  }

  // ---------------------------------------------------------------- puts and the links

  /** All leaves of an outcome have the link of the leaf they come from. */
  ghost predicate SameNext(o: InsertOutcome, next: nat) {
    match o
    case Done(l) => l.next == next
    case Split(l, r, _) => l.next == next && r.next == next
    case Failed(_, orphan) => orphan.Some? ==> orphan.value.next == next
  }

  lemma OutcomeNext(l: Leaf, e: Entry, page: nat)
    ensures SameNext(InsertOrSplit(l, e, page), l.next)
  {
    SplitNext(l, page);
    SplitNext(Insert(l, e), page);
  }

  lemma SplitNext(l: Leaf, page: nat)
    ensures SameNext(SplitOutcome(l, page), l.next)
  {
  }

  /** A put gives no leaf a successor. */
  lemma PutKeepsUnlinked(s: State, p: nat, e: Entry)
    requires p in s.pages && s.pages[p].LeafPage? && s.root in s.pages && Unlinked(s.pages)
    ensures Unlinked(PutAt(s, p, e).0.pages)
  {
    var l := s.pages[p].leaf;
    OutcomeNext(l, e, s.nextPage);
    if !FirstEntry(s, p, l) {
      match InsertOrSplit(l, e, s.nextPage) {
        case Done(_) =>
        case Split(l', r, sep) => GrowUnlinked(HalvesWritten(s, p, l', r), sep, s.nextPage);
        case Failed(_, _) =>
      }
    }
  }

  lemma GrowUnlinked(s: State, sep: Key, right: nat)
    requires s.root in s.pages && Unlinked(s.pages)
    ensures Unlinked(Grow(s, sep, right).pages)
  {
  }

  // -------------------------------------------------------------------- the object

  class BTree {
    var pages: Heap
    var chunks: Chunks
    var root: nat
    var height: nat
    var internalCount: nat
    var nextPage: nat
    ghost var shape: Shape

    function View(): State
      reads this
    {
      State(pages, root, height, internalCount, nextPage)
    }

    ghost predicate Ok()
      reads this
    {
      Placed(View(), shape) && forall q :: q in chunks ==> q < nextPage
    }

    /** An empty tree on a fresh page. */
    constructor (page: nat)
      requires page > 0
      ensures View() == Create(page) && shape == Tip(page) && chunks == map[]
      ensures Ok() && IsTree(pages, shape) && Contents(pages, shape) == [] && Unlinked(pages)
    {
      var leaf := NewLeaf(page);
      pages := map[page := LeafPage(leaf)];
      chunks := map[];
      root := page;
      height := 0;
      internalCount := 0;
      nextPage := page + 1;
      shape := Tip(page);
      new;
      CreatePlaced(page);
    }

    /** `get`: descend from the root, search the leaf, show the entry to late enough snapshots only, following
        its overflow chain.  On a search tree the entry is what a linear search over all leaves finds. */
    method Get(k: Key, snapshot: nat) returns (r: Read, pagesRead: set<nat>)
      requires Ok()
      ensures r == Visible(chunks, Found(pages, shape, k), snapshot)
      ensures IsTree(pages, shape) ==> r == Visible(chunks, Lookup(Contents(pages, shape), k), snapshot)
      ensures pagesRead == Path(pages, shape, k)
    {
      if IsTree(pages, shape) {
        SearchIsLinear(pages, shape, k);
      }
      var page;
      page, pagesRead := Descend(k);
      var node := new LeafNode.Of(pages[page].leaf);
      var found := node.Find(k);
      if found.Some? && found.value.lsn <= snapshot {
        var v := found.value.value;
        if IsReference(v) {
          var whole := FollowChain(chunks, FromLe(v[2..]));
          return (match whole case Some(w) => Value(w) case None => Unreadable), pagesRead;
        }
        return Value(v), pagesRead;
      }
      return Missing, pagesRead;
    }

    /** The descent from the root to the leaf of a key. */
    method Descend(k: Key) returns (page: nat, pagesRead: set<nat>)
      requires Ok()
      ensures page == Target(pages, shape, k) && pagesRead == Path(pages, shape, k)
      ensures page in pages && pages[page].LeafPage? && Sorted(pages[page].leaf.entries)
    {
      page := root;
      pagesRead := {page};
      ghost var t := shape;
      while pages[page].Internal?
        invariant Shaped(pages, t) && t.page == page
        invariant Target(pages, t, k) == Target(pages, shape, k)
        invariant pagesRead + Path(pages, t, k) == Path(pages, shape, k) && page in pagesRead
        decreases t
      {
        var c := FindChild(pages[page].seps, k);
        t := t.kids[c];
        page := pages[page].children[c];
        pagesRead := pagesRead + {page};
      }
    }

    /** The leaf page of a key. */
    method FindLeafForKey(k: Key) returns (page: nat)
      requires Ok()
      ensures page == Target(pages, shape, k)
    {
      var pagesRead;
      page, pagesRead := Descend(k);
    }

    method FindLeftmostLeaf() returns (page: nat)
      requires Ok()
      ensures Leaves(shape) != [] && page == Leaves(shape)[0]
    {
      ShapedHasLeaves(pages, shape);
      page := root;
      ghost var t := shape;
      while pages[page].Internal?
        invariant Shaped(pages, t) && t.page == page
        invariant Leaves(t) != [] && Leaves(shape) != [] && Leaves(shape)[0] == Leaves(t)[0]
        decreases t
      {
        ShapedHasLeaves(pages, t);
        ShapedHasLeaves(pages, t.kids[0]);
        t := t.kids[0];
        page := pages[page].children[0];
      }
    }

    /** Follow the sibling links from `first`, whatever list of leaves they thread; the pages read are theirs. */
    method Collect(first: nat, start: Option<Key>, end: Option<Key>, snapshot: nat, ghost chain: seq<nat>)
      returns (items: seq<Entry>, pagesRead: set<nat>)
      requires Chained(pages, chain) && first == if chain == [] then 0 else chain[0]
      ensures items == Select(Stored(pages, chain), start, end, snapshot)
      ensures forall p :: p in pagesRead <==> p in chain
    {
      items := [];
      pagesRead := {};
      var current := first;
      ghost var i := 0;
      while current != 0
        invariant 0 <= i <= |chain|
        invariant current == if i < |chain| then chain[i] else 0
        invariant i < |chain| ==> Link(pages, chain, i)
        invariant items == Select(Stored(pages, chain[..i]), start, end, snapshot)
        invariant forall p :: p in pagesRead <==> p in chain[..i]
        decreases |chain| - i
      {
        pagesRead := pagesRead + {current};
        assert chain[..i + 1] == chain[..i] + [chain[i]];
        var leaf := pages[current].leaf;
        var found := ScanLeaf(leaf.entries, start, end, snapshot);
        CollectNext(pages, chain, i, start, end, snapshot);
        items := items + found;
        current := leaf.next;
        i := i + 1;
      }
      assert chain[..|chain|] == chain;
    }

    /** `scan` on any tree: the wanted entries of the leaves that the links thread from the start leaf on. */
    method ScanChain(start: Option<Key>, end: Option<Key>, snapshot: nat,
                     ghost chain: seq<nat>) returns (items: seq<Entry>)
      requires Ok() && Chained(pages, chain) && chain != [] && chain[0] == StartLeaf(pages, shape, start)
      ensures items == Select(Stored(pages, chain), start, end, snapshot)
    {
      var first;
      if start.Some? {
        first := FindLeafForKey(start.value);
      } else {
        first := FindLeftmostLeaf();
      }
      var collected, pagesRead := Collect(first, start, end, snapshot, chain);
      items := Iterate(collected, end, snapshot);
      SelectedAreYielded(Stored(pages, chain), start, end, snapshot);
    }

    /** `scan` on a search tree whose links thread its leaves left to right: exactly the entries in range and
        visible to the snapshot, in strictly ascending key order. */
    method Scan(start: Option<Key>, end: Option<Key>, snapshot: nat) returns (items: seq<Entry>)
      requires Ok() && IsTree(pages, shape) && Chained(pages, Leaves(shape))
      ensures items == Select(Contents(pages, shape), start, end, snapshot)
      ensures Sorted(items)
      ensures forall x :: x in items <==>
                            x in Contents(pages, shape) && InRange(x.key, start, end) && x.lsn <= snapshot
    {
      ghost var pre, post := StartCut(pages, shape, start);
      ghost var ps := [StartLeaf(pages, shape, start)] + post;
      ChainSuffix(pages, pre, ps);
      items := ScanChain(start, end, snapshot, ps);
      ScanFromTarget(pages, shape, start, end, snapshot, pre, ps);
      SelectFromTree(pages, shape, start, end, snapshot);
    }

    /** `scan` on a tree as `put` leaves it, with no links: the wanted entries of the start leaf.  On a search
        tree these are all wanted entries if and only if none lies on a later leaf. */
    method ScanUnlinked(start: Option<Key>, end: Option<Key>, snapshot: nat) returns (items: seq<Entry>)
      requires Ok() && Unlinked(pages)
      ensures items == Select(EntriesAt(pages, StartLeaf(pages, shape, start)), start, end, snapshot)
      ensures IsTree(pages, shape) ==>
                (items == Select(Contents(pages, shape), start, end, snapshot) <==>
                 forall x :: x in Stored(pages, After(Leaves(shape), StartLeaf(pages, shape, start))) ==>
                   !Wanted(x, start, end, snapshot))
    {
      ghost var first := StartLeaf(pages, shape, start);
      StartIsLeaf(pages, shape, start);
      SingleChain(pages, shape, first);
      items := ScanChain(start, end, snapshot, [first]);
      StoredOne(pages, first);
      if IsTree(pages, shape) {
        OneLeafScanIff(pages, shape, start, end, snapshot);
      }
    }

    /** `put`: the value inline or on overflow pages, the entry inserted or updated in the leaf of the key; a
        split grows a new root.  A refused put leaves every existing page as it was. */
    method Put(k: Key, v: seq<byte>, lsn: nat) returns (ok: bool)
      requires Ok()
      modifies this
      ensures Ok()
      ensures (View(), shape, chunks, ok) == PutOutcome(old(View()), old(shape), old(chunks), k, v, lsn)
      ensures old(Unlinked(pages)) ==> Unlinked(pages)
    {
      if |v| > MAX_VALUE_SIZE {
        return false;
      }
      ghost var s, cs := View(), chunks;
      var kept := PrepareValue(v);
      var e := Entry(k, kept, lsn);
      PutKeepsPlaced(View(), shape, e);
      TargetIsPage(pages, shape, k);
      PutNextPage(View(), shape, e);
      ghost var newShape := PutShape(View(), shape, e);
      var p := FindLeafForKey(k);
      if Unlinked(pages) {
        PutKeepsUnlinked(View(), p, e);
      }
      ok := PutInto(p, e);
      shape := newShape;
    }

    /** Keep a value inline, or write it to overflow pages and keep the reference. */
    method PrepareValue(v: seq<byte>) returns (kept: seq<byte>)
      requires Ok()
      modifies this`chunks, this`nextPage
      ensures Ok() && (kept, chunks, nextPage) == Prepared(old(chunks), old(nextPage), v)
    {
      PreparedBounded(chunks, nextPage, v);
      if |v| <= INLINE_THRESHOLD {
        return v;
      }
      kept := Reference(nextPage);
      chunks, nextPage := AllocateChain(chunks, v, nextPage);
    }

    method PutInto(p: nat, e: Entry) returns (ok: bool)
      requires p in pages && pages[p].LeafPage? && Sorted(pages[p].leaf.entries) && root in pages
      modifies this
      ensures (View(), ok) == PutAt(old(View()), p, e)
      ensures shape == old(shape) && chunks == old(chunks)
    {
      var node := new LeafNode.Of(pages[p].leaf);
      if p == root && |node.entries| == 0 {
        var stored := node.Put(e);
        if stored.Err? {
          return false;
        }
        pages := pages[p := LeafPage(node.View())];
        return true;
      }
      var outcome := InsertIntoLeaf(node, e, nextPage);
      if outcome.Done? {
        pages := pages[p := LeafPage(node.View())];
        return true;
      }
      if outcome.Split? {
        WriteHalves(p, node.View(), outcome.right, outcome.separator);
        return true;
      }
      if outcome.orphan.Some? {
        pages := pages[nextPage := LeafPage(outcome.orphan.value)];
      }
      if outcome.tookPage || outcome.orphan.Some? {
        nextPage := nextPage + 1;
      }
      return false;
    }

    /** The new half on a fresh page, the old one in place, and a new root above both. */
    method WriteHalves(p: nat, left: Leaf, right: Leaf, separator: Key)
      requires p in pages && root in pages
      modifies this
      ensures View() == SplitState(old(View()), p, left, right, separator)
      ensures shape == old(shape) && chunks == old(chunks)
    {
      var page := nextPage;
      nextPage := nextPage + 1;
      pages := pages[page := LeafPage(right)];
      pages := pages[p := LeafPage(left)];
      GrowTree(separator, page);
    }

    method GrowTree(separator: Key, right: nat)
      requires root in pages
      modifies this
      ensures View() == Grow(old(View()), separator, right)
      ensures shape == old(shape) && chunks == old(chunks)
    {
      var newRoot := nextPage;
      nextPage := nextPage + 1;
      var node := Internal(NewHeader(INTERNAL, newRoot, height + 1).(numKeys := 1), [separator], [root, right]);
      pages := pages[root := Demoted(pages[root], newRoot)];
      pages := pages[newRoot := node];
      root := newRoot;
      height := height + 1;
      internalCount := internalCount + 1;
    }
  }

  lemma StartIsLeaf(h: Heap, t: Shape, start: Option<Key>)
    requires Shaped(h, t)
    ensures StartLeaf(h, t, start) in Leaves(t) && StartLeaf(h, t, start) in h
  {
    ShapedHasLeaves(h, t);
    if start.Some? {
      TargetInLeaves(h, t, start.value);
    }
    LeavesOnPages(h, t, StartLeaf(h, t, start));
  }

  lemma {:induction false} TargetInLeaves(h: Heap, t: Shape, k: Key)
    requires Shaped(h, t)
    ensures Target(h, t, k) in Leaves(t)
    decreases t
  {
    if t.Branch? {
      var c := ChildIndex(h[t.page].seps, k);
      TargetInLeaves(h, t.kids[c], k);
      LeavesAround(t.kids, c);
    }
  }

  /** A put never gives pages back. */
  lemma PutNextPage(s: State, t: Shape, e: Entry)
    requires Placed(s, t)
    ensures PutState(s, t, e).0.nextPage >= s.nextPage
  {
    TargetIsPage(s.pages, t, e.key);
  }
}
