/** `put` on a page heap: the leaf a key leads to is changed or split, and a split
    always grows a new root over the old one. */
module TreePut {
  import opened Bytes
  import opened Results
  import opened Entries
  import opened LeafNodes
  import opened LeafOps
  import opened SearchTree
  import opened TreeUpdate

  /** The page heap with the allocator's next page, and the tree's own fields. */
  datatype State = State(pages: Heap, root: nat, height: nat, internalCount: nat, nextPage: nat)

  /** Structure kept by every `put`, whatever it does to the stored keys. */
  ghost predicate Placed(s: State, t: Shape) {
    && Shaped(s.pages, t) && Distinct(t) && t.page == s.root && s.nextPage > 0
    && (forall q :: q in s.pages ==> 0 < q < s.nextPage)
    && (forall q :: q in s.pages && s.pages[q].LeafPage? ==> Valid(s.pages[q].leaf))
  }

  function Create(page: nat): State {
    State(map[page := LeafPage(NewLeaf(page))], page, 0, 0, page + 1)
  }

  lemma CreatePlaced(page: nat)
    requires page > 0
    ensures Placed(Create(page), Tip(page)) && IsTree(Create(page).pages, Tip(page))
    ensures Contents(Create(page).pages, Tip(page)) == []
  {
    NewLeafValid(page);
    StoredOne(Create(page).pages, page);
  }

  /** What a search for `k` finds: the leaf it leads to, searched. */
  ghost function Found(h: Heap, t: Shape, k: Key): Option<Entry>
    requires Shaped(h, t)
  {
    Lookup(EntriesAt(h, Target(h, t, k)), k)
  }

  // ---------------------------------------------------------------------- one put

  function Demoted(n: Node, parent: nat): Node {
    match n
    case LeafPage(l) => LeafPage(l.(header := l.header.(isRoot := 0, parent := parent)))
    case Internal(h, seps, children) => Internal(h.(isRoot := 0, parent := parent), seps, children)
  }

  /** `grow_tree`: a new root over the old root and the new right leaf. */
  function Grow(s: State, separator: Key, right: nat): State
    requires s.root in s.pages
  {
    var id := s.nextPage;
    var node := Internal(NewHeader(INTERNAL, id, s.height + 1).(numKeys := 1), [separator], [s.root, right]);
    State(s.pages[s.root := Demoted(s.pages[s.root], id)][id := node],
          id, s.height + 1, s.internalCount + 1, id + 1)
  }

  function Write(s: State, page: nat, l: Leaf): State {
    s.(pages := WithLeaf(s.pages, page, l))
  }

  function Allocate(s: State): State {
    s.(nextPage := s.nextPage + 1)
  }

  /** After a split: the new leaf on its page, the trimmed one back on its own, a new root over both. */
  function SplitState(s: State, p: nat, l: Leaf, r: Leaf, sep: Key): State
    requires s.root in s.pages
  {
    Grow(Write(Write(Allocate(s), s.nextPage, r), p, l), sep, s.nextPage)
  }

  /** The state after inserting `e` into the leaf on page `p`, as `put` does it; and whether it reports success. */
  function PutAt(s: State, p: nat, e: Entry): (State, bool)
    requires p in s.pages && s.pages[p].LeafPage? && s.root in s.pages
  {
    var l := s.pages[p].leaf;
    if p == s.root && l.entries == [] then
      if HasSpace(l.header, Size(e)) then (Write(s, p, Insert(l, e)), true) else (s, false)
    else
      match InsertOrSplit(l, e, s.nextPage)
      case Done(l') => (Write(s, p, l'), true)
      case Split(l', r, sep) => (SplitState(s, p, l', r, sep), true)
      case Failed(tookPage, orphan) =>
        (match orphan
         case Some(r) => Write(Allocate(s), s.nextPage, r)
         case None => if tookPage then Allocate(s) else s, false)
  }

  ghost function TargetLeaf(s: State, t: Shape, k: Key): Leaf
    requires Placed(s, t)
  {
    TargetIsPage(s.pages, t, k);
    s.pages[Target(s.pages, t, k)].leaf
  }

  lemma RootPresent(s: State, t: Shape)
    requires Placed(s, t)
    ensures s.root in s.pages
  {
  }

  ghost function PutState(s: State, t: Shape, e: Entry): (State, bool)
    requires Placed(s, t)
  {
    RootPresent(s, t);
    TargetIsPage(s.pages, t, e.key);
    PutAt(s, Target(s.pages, t, e.key), e)
  }

  /** A successful put splits its leaf. */
  predicate Splits(l: Leaf, e: Entry) {
    if HasSpace(l.header, Size(e)) then !Present(l.entries, e.key) && NeedsSplit(Insert(l, e).header)
    else true
  }

  /** The empty root leaf takes its first entry without the split check. */
  predicate FirstEntry(s: State, p: nat, l: Leaf) {
    p == s.root && l.entries == []
  }

  ghost predicate PutSplits(s: State, t: Shape, e: Entry)
    requires Placed(s, t)
  {
    var p, l := Target(s.pages, t, e.key), TargetLeaf(s, t, e.key);
    !FirstEntry(s, p, l) && Splits(l, e)
  }

  ghost function PutShape(s: State, t: Shape, e: Entry): Shape
    requires Placed(s, t)
  {
    if PutState(s, t, e).1 && PutSplits(s, t, e) then Branch(s.nextPage + 1, [t, Tip(s.nextPage)]) else t
  }

  // --------------------------------------------------------------- structure is kept

  /** Writing a valid leaf over the leaf on a page keeps the structure. */
  lemma WriteKeepsPlaced(s: State, t: Shape, p: nat, l: Leaf)
    requires Placed(s, t) && p in s.pages && s.pages[p].LeafPage? && Valid(l)
    ensures Placed(Write(s, p, l), t)
  {
    WithLeafShaped(s.pages, t, p, l);
  }

  /** Writing to an unused page does not touch the tree. */
  lemma WriteUnused(s: State, t: Shape, l: Leaf)
    requires Placed(s, t) && Valid(l)
    ensures Placed(Write(Allocate(s), s.nextPage, l), t)
    ensures IsTree(s.pages, t) ==> IsTree(WithLeaf(s.pages, s.nextPage, l), t)
    ensures Contents(WithLeaf(s.pages, s.nextPage, l), t) == Contents(s.pages, t)
    ensures forall k :: Target(WithLeaf(s.pages, s.nextPage, l), t, k) == Target(s.pages, t, k)
    ensures !Uses(t, s.nextPage)
  {
    var g := WithLeaf(s.pages, s.nextPage, l);
    forall q | Uses(t, q) ensures q in s.pages && q in g && Alike(s.pages[q], g[q]) && q != s.nextPage {
      UsedPagesExist(s.pages, t, q);
    }
    SameTree(s.pages, g, t);
  }

  /** Pages that are alike make the same tree. */
  lemma SameTree(h: Heap, g: Heap, t: Shape)
    requires Shaped(h, t) && AlikeOn(h, g, t)
    ensures Shaped(g, t) && (Ordered(h, t) ==> Ordered(g, t)) && Contents(g, t) == Contents(h, t)
    ensures forall k :: Target(g, t, k) == Target(h, t, k)
  {
    ShapedAlike(h, g, t);
    ContentsAlike(h, g, t);
    forall k ensures Target(g, t, k) == Target(h, t, k) {
      TargetAlike(h, g, t, k);
    }
  }

  /** Growing a root keeps the old tree as its left child, unchanged but for one header. */
  lemma GrowKeepsOld(s: State, t: Shape, sep: Key, right: nat)
    requires Placed(s, t) && right in s.pages && s.pages[right].LeafPage? && !Uses(t, right)
    ensures var g, u := Grow(s, sep, right), Branch(s.nextPage, [t, Tip(right)]);
            && AlikeOn(s.pages, g.pages, t)
            && g.pages[right] == s.pages[right]
            && Placed(g, u)
  {
    var g, u := Grow(s, sep, right), Branch(s.nextPage, [t, Tip(right)]);
    GrowAlike(s, t, sep, right);
    assert right != s.root;
    GrownShape(s, t, sep, right);
    GrownPages(s, sep, right);
  }

  lemma GrownShape(s: State, t: Shape, sep: Key, right: nat)
    requires Placed(s, t) && right in s.pages && s.pages[right].LeafPage? && !Uses(t, right)
    ensures var u := Branch(s.nextPage, [t, Tip(right)]); Shaped(Grow(s, sep, right).pages, u) && Distinct(u)
  {
    var g, u := Grow(s, sep, right), Branch(s.nextPage, [t, Tip(right)]);
    GrowAlike(s, t, sep, right);
    SameTree(s.pages, g.pages, t);
    TwoDistinct(t, right, s.nextPage);
    assert right != s.root && Shaped(g.pages, Tip(right));
    assert BranchShape(g.pages, s.nextPage, u.kids);
  }

  lemma GrownPages(s: State, sep: Key, right: nat)
    requires s.root in s.pages && s.nextPage > 0 && (forall q :: q in s.pages ==> 0 < q < s.nextPage)
    requires forall q :: q in s.pages && s.pages[q].LeafPage? ==> Valid(s.pages[q].leaf)
    ensures var g := Grow(s, sep, right);
            && (forall q :: q in g.pages ==> 0 < q < g.nextPage)
            && (forall q :: q in g.pages && g.pages[q].LeafPage? ==> Valid(g.pages[q].leaf))
  {
  }

  lemma GrowAlike(s: State, t: Shape, sep: Key, right: nat)
    requires Placed(s, t)
    ensures s.root in s.pages && AlikeOn(s.pages, Grow(s, sep, right).pages, t) && !Uses(t, s.nextPage)
  {
    forall q | Uses(t, q)
      ensures q in s.pages && q in Grow(s, sep, right).pages && q != s.nextPage
      ensures Alike(s.pages[q], Grow(s, sep, right).pages[q])
    {
      UsedPagesExist(s.pages, t, q);
    }
  }

  lemma TwoDistinct(t: Shape, right: nat, id: nat)
    requires Distinct(t) && !Uses(t, right) && !Uses(t, id) && id != right
    ensures Distinct(Branch(id, [t, Tip(right)]))
  {
    assert Disjoint(t, Tip(right)) && Disjoint(Tip(right), t);
  }

  /** Under the grown root, keys below the separator lead where they led, all others to the new leaf. */
  lemma GrowTarget(s: State, t: Shape, sep: Key, right: nat, k: Key)
    requires Placed(s, t) && right in s.pages && s.pages[right].LeafPage? && !Uses(t, right)
    ensures var g, u := Grow(s, sep, right), Branch(s.nextPage, [t, Tip(right)]);
            Shaped(g.pages, u) && Target(g.pages, u, k) == if Less(k, sep) then Target(s.pages, t, k) else right
  {
    var g, u := Grow(s, sep, right), Branch(s.nextPage, [t, Tip(right)]);
    GrowKeepsOld(s, t, sep, right);
    SameTree(s.pages, g.pages, t);
    ChildIndexSplits([sep], k);
    LessTotal(k, sep);
    if Less(k, sep) {
      NotBelow(k, sep);
    } else {
      LessIrreflexive(k);
    }
  }

  // ------------------------------------------------------------- a split, seen by get

  /** The state between the two page writes of a split and the new root. */
  function HalvesWritten(s: State, p: nat, l: Leaf, r: Leaf): State {
    Write(Write(Allocate(s), s.nextPage, r), p, l)
  }

  lemma HalvesPlaced(s: State, t: Shape, p: nat, l: Leaf, r: Leaf)
    requires Placed(s, t) && Uses(t, p) && p in s.pages && s.pages[p].LeafPage? && Valid(l) && Valid(r)
    ensures Placed(HalvesWritten(s, p, l, r), t) && !Uses(t, s.nextPage) && p != s.nextPage
    ensures forall k :: Target(HalvesWritten(s, p, l, r).pages, t, k) == Target(s.pages, t, k)
  {
    var s1 := Write(Allocate(s), s.nextPage, r);
    WriteUnused(s, t, r);
    WriteKeepsPlaced(s1, t, p, l);
    forall k ensures Target(HalvesWritten(s, p, l, r).pages, t, k) == Target(s.pages, t, k) {
      WithLeafTarget(s1.pages, t, p, l, k);
    }
  }

  /** Structure and routing after the leaf on page `p` was split into `l` and `r`. */
  lemma SplitRoutes(s: State, t: Shape, p: nat, l: Leaf, r: Leaf, sep: Key, k: Key)
    requires Placed(s, t) && Uses(t, p) && p in s.pages && s.pages[p].LeafPage? && Valid(l) && Valid(r)
    ensures var g, u := SplitState(s, p, l, r, sep), Branch(s.nextPage + 1, [t, Tip(s.nextPage)]);
            && Placed(g, u)
            && Target(g.pages, u, k) == (if Less(k, sep) then Target(s.pages, t, k) else s.nextPage)
  {
    HalvesPlaced(s, t, p, l, r);
    var s2 := HalvesWritten(s, p, l, r);
    GrowKeepsOld(s2, t, sep, s.nextPage);
    GrowTarget(s2, t, sep, s.nextPage, k);
  }

  lemma SplitEntries(s: State, t: Shape, p: nat, l: Leaf, r: Leaf, sep: Key)
    requires Placed(s, t) && p in s.pages
    ensures var g := SplitState(s, p, l, r, sep);
            && EntriesAt(g.pages, s.nextPage) == r.entries
            && (forall q :: q in s.pages ==>
                  EntriesAt(g.pages, q) == if q == p then l.entries else EntriesAt(s.pages, q))
  {
    GrowEntries(HalvesWritten(s, p, l, r), sep, s.nextPage);
  }

  lemma GrowEntries(s: State, sep: Key, right: nat)
    requires s.root in s.pages && (forall q :: q in s.pages ==> q < s.nextPage)
    ensures forall q :: q in s.pages ==> EntriesAt(Grow(s, sep, right).pages, q) == EntriesAt(s.pages, q)
  {
  }

  /** What a search finds after a split, from the entries `all` of the two halves. */
  lemma SplitFound(s: State, t: Shape, p: nat, l: Leaf, r: Leaf, sep: Key, k: Key)
    requires Placed(s, t) && Uses(t, p) && p in s.pages && s.pages[p].LeafPage? && Valid(l) && Valid(r)
    requires AllBelow(l.entries, sep) && AllFrom(r.entries, sep)
    ensures var g, u := SplitState(s, p, l, r, sep), Branch(s.nextPage + 1, [t, Tip(s.nextPage)]);
            && Placed(g, u)
            && Found(g.pages, u, k) == (if Less(k, sep) && Target(s.pages, t, k) != p then Found(s.pages, t, k)
                                        else Lookup(l.entries + r.entries, k))
  {
    SplitRoutes(s, t, p, l, r, sep, k);
    SplitEntries(s, t, p, l, r, sep);
    TargetIsPage(s.pages, t, k);
    LookupConcat(l.entries, r.entries, k);
    if Less(k, sep) {
      FromSeparator(r.entries, sep, k);
      LookupMissing(r.entries, k);
    } else {
      LessTotal(k, sep);
      BelowWeaken(l.entries, sep, k);
      LookupMissing(l.entries, k);
    }
  }

  // ----------------------------------------------------------- put as a map update

  /** No stored key lies beyond the leaf that the key leads to. */
  ghost predicate Latest(s: State, t: Shape, k: Key)
    requires Placed(s, t)
  {
    forall x :: x in Contents(s.pages, t) && Less(k, x.key) ==> x in TargetLeaf(s, t, k).entries
  }

  /** When a successful put is a map update, in terms of the tree before it: no split, or a split of the
      last non-empty leaf that does not drop the entry. */
  ghost predicate Lossless(s: State, t: Shape, e: Entry)
    requires Placed(s, t)
  {
    var l := TargetLeaf(s, t, e.key);
    PutSplits(s, t, e) ==> Latest(s, t, e.key) && (!Drops(l, e) || Lookup(l.entries, e.key) == Some(e))
  }

  ghost predicate IsUpdateAt(s: State, t: Shape, e: Entry, k: Key)
    requires Placed(s, t) && Placed(PutState(s, t, e).0, PutShape(s, t, e))
  {
    Found(PutState(s, t, e).0.pages, PutShape(s, t, e), k)
    == if k == e.key then Some(e) else Found(s.pages, t, k)
  }

  /** Every put, successful or not, keeps the structure. */
  lemma PutKeepsPlaced(s: State, t: Shape, e: Entry)
    requires Placed(s, t)
    ensures Placed(PutState(s, t, e).0, PutShape(s, t, e))
  {
    if !PutState(s, t, e).1 {
      FailedKeepsPlaced(s, t, e);
    } else if PutSplits(s, t, e) {
      SplitKeepsPlaced(s, t, e);
    } else {
      PlainKeepsPlaced(s, t, e);
    }
  }

  lemma SplitKeepsPlaced(s: State, t: Shape, e: Entry)
    requires Placed(s, t) && PutState(s, t, e).1 && PutSplits(s, t, e)
    ensures Placed(PutState(s, t, e).0, PutShape(s, t, e))
  {
    var o := SplitPutState(s, t, e);
    TargetIsPage(s.pages, t, e.key);
    SplitRoutes(s, t, Target(s.pages, t, e.key), o.leaf, o.right, o.separator, e.key);
  }

  lemma PlainKeepsPlaced(s: State, t: Shape, e: Entry)
    requires Placed(s, t) && PutState(s, t, e).1 && !PutSplits(s, t, e)
    ensures Placed(PutState(s, t, e).0, t)
  {
    var p := Target(s.pages, t, e.key);
    TargetIsPage(s.pages, t, e.key);
    PlainPutState(s, t, e);
    InsertKeepsValid(TargetLeaf(s, t, e.key), e);
    WriteKeepsPlaced(s, t, p, Insert(TargetLeaf(s, t, e.key), e));
  }

  /** A successful put that splits: its halves, valid and divided by the separator. */
  lemma SplitPutState(s: State, t: Shape, e: Entry) returns (o: InsertOutcome)
    requires Placed(s, t) && PutState(s, t, e).1 && PutSplits(s, t, e)
    ensures o == InsertOrSplit(TargetLeaf(s, t, e.key), e, s.nextPage) && o.Split?
    ensures PutState(s, t, e).0 == SplitState(s, Target(s.pages, t, e.key), o.leaf, o.right, o.separator)
    ensures InsertOutcomeValid(o, s.nextPage)
    ensures o.leaf.entries + o.right.entries
            == if Drops(TargetLeaf(s, t, e.key), e) then TargetLeaf(s, t, e.key).entries
               else Upsert(TargetLeaf(s, t, e.key).entries, e)
  {
    var l := TargetLeaf(s, t, e.key);
    TargetIsPage(s.pages, t, e.key);
    o := InsertOrSplit(l, e, s.nextPage);
    OutcomeKind(l, e, s.nextPage);
    InsertOrSplitStores(l, e, s.nextPage);
  }

  lemma OutcomeKind(l: Leaf, e: Entry, page: nat)
    requires Valid(l) && !InsertOrSplit(l, e, page).Failed?
    ensures InsertOrSplit(l, e, page).Split? <==> Splits(l, e)
  {
    if HasSpace(l.header, Size(e)) {
      InsertKeepsValid(l, e);
      UpsertMembers(l.entries, e);
      SplitOutcomeFacts(Insert(l, e), page);
    }
  }

  lemma FailedKeepsPlaced(s: State, t: Shape, e: Entry)
    requires Placed(s, t) && !PutState(s, t, e).1
    ensures Placed(PutState(s, t, e).0, t)
  {
    var p, l := Target(s.pages, t, e.key), TargetLeaf(s, t, e.key);
    TargetIsPage(s.pages, t, e.key);
    if !FirstEntry(s, p, l) && InsertOrSplit(l, e, s.nextPage).orphan.Some? {
      OrphanValid(l, e, s.nextPage);
      WriteUnused(s, t, InsertOrSplit(l, e, s.nextPage).orphan.value);
    }
  }

  lemma OrphanValid(l: Leaf, e: Entry, page: nat)
    requires Valid(l) && InsertOrSplit(l, e, page).Failed? && InsertOrSplit(l, e, page).orphan.Some?
    ensures Valid(InsertOrSplit(l, e, page).orphan.value)
  {
    if HasSpace(l.header, Size(e)) {
      InsertWithSpace(l, e, page);
    } else {
      SplitConserves(l, page);
      OrphanIsNewHalf(l, e, page);
    }
  }

  lemma OrphanIsNewHalf(l: Leaf, e: Entry, page: nat)
    requires !HasSpace(l.header, Size(e))
    requires InsertOrSplit(l, e, page).Failed? && InsertOrSplit(l, e, page).orphan.Some?
    ensures InsertOrSplit(l, e, page).orphan == SplitRight(l, page)
  {
    var o := SplitOutcome(l, page);
    if o.Split? {
      assert o.right == SplitRight(l, page).value;
    }
  }

  /** A put that does not split is a map update. */
  lemma PlainPutIsUpdate(s: State, t: Shape, e: Entry, k: Key)
    requires Placed(s, t) && PutState(s, t, e).1 && !PutSplits(s, t, e)
    ensures Placed(PutState(s, t, e).0, PutShape(s, t, e)) && IsUpdateAt(s, t, e, k)
  {
    PutKeepsPlaced(s, t, e);
    var p, l := Target(s.pages, t, e.key), TargetLeaf(s, t, e.key);
    TargetIsPage(s.pages, t, e.key);
    TargetIsPage(s.pages, t, k);
    PlainPutState(s, t, e);
    WithLeafTarget(s.pages, t, p, Insert(l, e), k);
    UpsertLookup(l.entries, e, k);
  }

  lemma PlainPutState(s: State, t: Shape, e: Entry)
    requires Placed(s, t) && PutState(s, t, e).1 && !PutSplits(s, t, e)
    ensures var p, l := Target(s.pages, t, e.key), TargetLeaf(s, t, e.key);
            && HasSpace(l.header, Size(e))
            && PutState(s, t, e).0 == Write(s, p, Insert(l, e))
  {
    var p, l := Target(s.pages, t, e.key), TargetLeaf(s, t, e.key);
    TargetIsPage(s.pages, t, e.key);
    if !FirstEntry(s, p, l) {
      OutcomeKind(l, e, s.nextPage);
    }
  }
}
