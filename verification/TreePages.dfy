/** The pages of a tree as bytes: keeping nodes on the heap loses nothing, because
    every page a run of puts can write is read back as the same node. */
module TreePages {
  import opened Bytes
  import opened Results
  import opened Entries
  import opened LeafNodes
  import opened LeafOps
  import opened SearchTree
  import opened TreeUpdate
  import opened TreePut
  import opened PutRuns
  import opened PageCodec
  import opened PageRuns

  ghost predicate NodeReady(n: Node) {
    match n
    case LeafPage(l) => Framed(l) && Storable(l.entries)
    case Internal(_, _, _) => InternalReady(n)
  }

  ghost predicate AllReady(h: Heap) {
    forall q :: q in h ==> NodeReady(h[q])
  }

  function Image(n: Node): seq<byte>
    requires n.LeafPage? ==> Total(n.leaf.entries) <= BODY_SIZE
    requires n.Internal? ==> |n.children| == |n.seps| + 1 && |PairsBytes(n.seps, n.children)| + 8 <= BODY_SIZE
  {
    match n
    case LeafPage(l) => LeafImage(l)
    case Internal(h, seps, children) => InternalImage(h, seps, children)
  }

  /** The node with the checksum of its image in its header, as `to_bytes` writes it. */
  function SealedNode(n: Node, crc: seq<byte> -> u32): Node
    requires n.LeafPage? ==> Total(n.leaf.entries) <= BODY_SIZE
    requires n.Internal? ==> |n.children| == |n.seps| + 1 && |PairsBytes(n.seps, n.children)| + 8 <= BODY_SIZE
  {
    match n
    case LeafPage(l) => LeafPage(Sealed(l, crc))
    case Internal(h, seps, children) => Internal(h.(checksum := crc(Image(n))), seps, children)
  }

  lemma ReadyWritable(n: Node)
    requires NodeReady(n) && (n.LeafPage? ==> Valid(n.leaf))
    ensures n.LeafPage? ==> Total(n.leaf.entries) <= LEAF_AREA
    ensures n.Internal? ==> |n.children| == |n.seps| + 1 && |PairsBytes(n.seps, n.children)| + 8 <= BODY_SIZE
  {
  }

  /** Sealed or not, a ready node is read back from its page as it was written. */
  lemma ReadyRoundTrip(n: Node, crc: seq<byte> -> u32)
    requires NodeReady(n) && (n.LeafPage? ==> Valid(n.leaf))
    ensures Parse(Image(n)) == Ok(n)
    ensures var sealed := SealedNode(n, crc);
            NodeReady(sealed) && Parse(Image(sealed)) == Ok(sealed)
  {
    match n
    case LeafPage(l) => LeafSealed(l, crc);
    case Internal(_, _, _) => InternalSealed(n, crc);
  }

  lemma LeafSealed(l: Leaf, crc: seq<byte> -> u32)
    requires Framed(l) && Storable(l.entries) && Valid(l)
    ensures Total(l.entries) <= LEAF_AREA && Parse(LeafImage(l)) == Ok(LeafPage(l))
    ensures var sealed := Sealed(l, crc);
            Framed(sealed) && sealed.entries == l.entries && Parse(LeafImage(sealed)) == Ok(LeafPage(sealed))
  {
    ReadyIff(l);
    LeafRoundTrip(l, crc);
  }

  lemma InternalSealed(n: Node, crc: seq<byte> -> u32)
    requires n.Internal? && InternalReady(n)
    ensures Parse(Image(n)) == Ok(n)
    ensures InternalReady(SealedNode(n, crc)) && Parse(Image(SealedNode(n, crc))) == Ok(SealedNode(n, crc))
  {
    InternalRoundTrip(n);
    InternalRoundTrip(SealedNode(n, crc));
  }

  lemma PartStorable(a: seq<Entry>, b: seq<Entry>)
    requires Storable(a + b)
    ensures Storable(a) && Storable(b)
  {
    assert forall i :: 0 <= i < |a| ==> (a + b)[i] == a[i];
    assert forall i :: 0 <= i < |b| ==> (a + b)[|a| + i] == b[i];
  }

  lemma UpsertStorable(es: seq<Entry>, e: Entry)
    requires Storable(es) && |e.key| <= 255 && e.lsn < U64
    ensures Storable(Upsert(es, e))
  {
    UpsertMembers(es, e);
    var u := Upsert(es, e);
    forall i | 0 <= i < |u| ensures |u[i].key| <= 255 && u[i].lsn < U64 {
      assert u[i] == e || u[i] in es;
    }
  }

  lemma SplitReady(l: Leaf, page: nat)
    requires Valid(l) && Framed(l) && Storable(l.entries) && page < U64 && SplitOutcome(l, page).Split?
    ensures NodeReady(LeafPage(SplitOutcome(l, page).leaf)) && NodeReady(LeafPage(SplitOutcome(l, page).right))
  {
    SplitFramed(l, page);
    SplitCuts(l, page);
    PartStorable(SplitOutcome(l, page).leaf.entries, SplitOutcome(l, page).right.entries);
  }

  lemma InsertReady(l: Leaf, e: Entry)
    requires Framed(l) && Storable(l.entries) && |e.key| <= 255 && e.lsn < U64
    ensures NodeReady(LeafPage(Insert(l, e)))
  {
    InsertFramed(l, e);
    UpsertStorable(l.entries, e);
  }

  ghost predicate OutcomeReady(o: InsertOutcome) {
    match o
    case Done(l) => NodeReady(LeafPage(l))
    case Split(l, r, sep) => NodeReady(LeafPage(l)) && NodeReady(LeafPage(r)) && |sep| <= 255
    case Failed(_, orphan) => orphan.Some? ==> NodeReady(LeafPage(orphan.value))
  }

  lemma SplitOutcomeReady(l: Leaf, page: nat)
    requires Valid(l) && Framed(l) && Storable(l.entries) && page < U64
    ensures OutcomeReady(SplitOutcome(l, page))
  {
    if SplitOutcome(l, page).Split? {
      SplitReady(l, page);
    } else {
      NewLeafFramed(page);
      SplitConserves(l, page);
      InsertAllFramed(NewLeaf(page), l.entries[|l.entries| / 2..]);
    }
  }

  lemma InsertOrSplitReady(l: Leaf, e: Entry, page: nat)
    requires Valid(l) && Framed(l) && Storable(l.entries) && page < U64 && |e.key| <= 255 && e.lsn < U64
    ensures OutcomeReady(InsertOrSplit(l, e, page))
  {
    if HasSpace(l.header, Size(e)) {
      InsertReady(l, e);
      InsertKeepsValid(l, e);
      SplitOutcomeReady(Insert(l, e), page);
    } else {
      SplitOutcomeReady(l, page);
      var o := SplitOutcome(l, page);
      if o.Split? {
        InsertReady(o.leaf, e);
      }
    }
  }

  /** Page numbers and the level of the root fit their fields. */
  predicate Within(s: State) {
    s.nextPage < U64 && s.height < U16
  }

  /** A put takes no page back and makes no tree lower. */
  lemma PutGrows(s: State, t: Shape, e: Entry)
    requires Placed(s, t)
    ensures PutState(s, t, e).0.nextPage >= s.nextPage && PutState(s, t, e).0.height >= s.height
  {
    TargetIsPage(s.pages, t, e.key);
  }

  lemma {:induction false} RunGrows(s: State, t: Shape, es: seq<Entry>)
    requires Placed(s, t)
    ensures RunPuts(s, t, es).0.nextPage >= s.nextPage && RunPuts(s, t, es).0.height >= s.height
    decreases |es|
  {
    if es != [] {
      PutKeepsPlaced(s, t, es[0]);
      PutGrows(s, t, es[0]);
      RunGrows(PutState(s, t, es[0]).0, PutShape(s, t, es[0]), es[1..]);
    }
  }

  lemma NewRootReady(id: nat, level: nat, sep: Key, left: nat, right: nat)
    requires id < U64 && level < U16 && |sep| <= 255 && left < U64 && right < U64
    ensures NodeReady(Internal(NewHeader(INTERNAL, id, level).(numKeys := 1), [sep], [left, right]))
  {
    var zs := Zip([sep], [left, right]);
    assert zs == [(sep, left)] && zs[1..] == [];
    assert |PutMany(PairBytes, zs)| == |PairBytes((sep, left))| + |PutMany(PairBytes, zs[1..])|;
  }

  /** Demoting the old root only touches header fields that may take the new values. */
  lemma DemotedReady(n: Node, parent: nat)
    requires NodeReady(n) && parent < U64 && HeaderOf(n).isRoot == 0
    ensures NodeReady(Demoted(n, parent)) && HeaderOf(Demoted(n, parent)).isRoot == 0
  {
  }

  function HeaderOf(n: Node): Header {
    match n
    case LeafPage(l) => l.header
    case Internal(h, _, _) => h
  }

  /** Nodes made by the tree never carry the root flag. */
  ghost predicate Unflagged(h: Heap) {
    forall q :: q in h ==> HeaderOf(h[q]).isRoot == 0
  }

  ghost predicate PagesReady(s: State) {
    AllReady(s.pages) && Unflagged(s.pages)
  }

  lemma WriteReady(s: State, p: nat, l: Leaf)
    requires PagesReady(s) && NodeReady(LeafPage(l)) && l.header.isRoot == 0
    ensures PagesReady(Write(s, p, l))
  {
  }

  lemma GrowReady(s: State, sep: Key, right: nat)
    requires PagesReady(s) && s.root in s.pages && s.root < U64 && right < U64 && |sep| <= 255
    requires s.nextPage < U64 && s.height + 1 < U16
    ensures PagesReady(Grow(s, sep, right))
  {
    NewRootReady(s.nextPage, s.height + 1, sep, s.root, right);
    DemotedReady(s.pages[s.root], s.nextPage);
  }

  ghost predicate OutcomeUnflagged(o: InsertOutcome) {
    match o
    case Done(l) => l.header.isRoot == 0
    case Split(l, r, _) => l.header.isRoot == 0 && r.header.isRoot == 0
    case Failed(_, orphan) => orphan.Some? ==> orphan.value.header.isRoot == 0
  }

  lemma SplitUnflagged(l: Leaf, page: nat)
    requires l.header.isRoot == 0
    ensures OutcomeUnflagged(SplitOutcome(l, page))
  {
    UnflaggedAll(NewLeaf(page), l.entries[|l.entries| / 2..]);
  }

  lemma InsertUnflagged(l: Leaf, e: Entry, page: nat)
    requires l.header.isRoot == 0
    ensures OutcomeUnflagged(InsertOrSplit(l, e, page))
  {
    if HasSpace(l.header, Size(e)) {
      SplitUnflagged(Insert(l, e), page);
    } else {
      SplitUnflagged(l, page);
    }
  }

  lemma {:induction false} UnflaggedAll(l: Leaf, es: seq<Entry>)
    requires l.header.isRoot == 0
    ensures InsertAll(l, es).Some? ==> InsertAll(l, es).value.header.isRoot == 0
    decreases |es|
  {
    if es != [] && HasSpace(l.header, Size(es[0])) {
      UnflaggedAll(Insert(l, es[0]), es[1..]);
    }
  }

  lemma SplitStateReady(s: State, p: nat, l: Leaf, r: Leaf, sep: Key)
    requires PagesReady(s) && s.root in s.pages && s.root < U64 && |sep| <= 255
    requires Within(SplitState(s, p, l, r, sep))
    requires NodeReady(LeafPage(l)) && NodeReady(LeafPage(r)) && l.header.isRoot == 0 && r.header.isRoot == 0
    ensures PagesReady(SplitState(s, p, l, r, sep))
  {
    var s1 := Write(Allocate(s), s.nextPage, r);
    WriteReady(Allocate(s), s.nextPage, r);
    WriteReady(s1, p, l);
    GrowReady(Write(s1, p, l), sep, s.nextPage);
  }

  lemma PutAtReady(s: State, p: nat, e: Entry)
    requires PagesReady(s) && |e.key| <= 255 && e.lsn < U64
    requires p in s.pages && s.pages[p].LeafPage? && Valid(s.pages[p].leaf) && s.root in s.pages && s.root < U64
    requires Within(PutAt(s, p, e).0)
    ensures PagesReady(PutAt(s, p, e).0)
  {
    var l := s.pages[p].leaf;
    assert NodeReady(s.pages[p]) && HeaderOf(s.pages[p]).isRoot == 0;
    if FirstEntry(s, p, l) {
      InsertReady(l, e);
      WriteReady(s, p, Insert(l, e));
    } else {
      InsertOrSplitReady(l, e, s.nextPage);
      InsertUnflagged(l, e, s.nextPage);
      match InsertOrSplit(l, e, s.nextPage)
      case Done(l') => WriteReady(s, p, l');
      case Split(l', r, sep) => SplitStateReady(s, p, l', r, sep);
      case Failed(_, orphan) =>
        if orphan.Some? {
          WriteReady(Allocate(s), s.nextPage, orphan.value);
        }
    }
  }

  /** Every put leaves only pages that survive the byte layout. */
  lemma PutKeepsPagesReady(s: State, t: Shape, e: Entry)
    requires Placed(s, t) && PagesReady(s) && |e.key| <= 255 && e.lsn < U64 && Within(PutState(s, t, e).0)
    ensures PagesReady(PutState(s, t, e).0)
  {
    PutGrows(s, t, e);
    TargetIsPage(s.pages, t, e.key);
    PutAtReady(s, Target(s.pages, t, e.key), e);
  }

  /** After any run of puts whose pages and levels fit their fields, every page on the heap, sealed with its
      checksum, is read back from its bytes as
      the node that was written. */
  lemma {:induction false} PutRunSurvivesPages(s: State, t: Shape, es: seq<Entry>, q: nat, crc: seq<byte> -> u32)
    requires Placed(s, t) && PagesReady(s) && Within(RunPuts(s, t, es).0)
    requires forall i :: 0 <= i < |es| ==> |es[i].key| <= 255 && es[i].lsn < U64
    requires q in RunPuts(s, t, es).0.pages
    ensures var n := RunPuts(s, t, es).0.pages[q];
            && (n.LeafPage? ==> Total(n.leaf.entries) <= LEAF_AREA)
            && (n.Internal? ==> InternalReady(n))
            && Parse(Image(SealedNode(n, crc))) == Ok(SealedNode(n, crc))
    decreases |es|
  {
    if es == [] {
      ReadyRoundTrip(s.pages[q], crc);
    } else {
      PutKeepsPlaced(s, t, es[0]);
      RunGrows(PutState(s, t, es[0]).0, PutShape(s, t, es[0]), es[1..]);
      PutKeepsPagesReady(s, t, es[0]);
      PutRunSurvivesPages(PutState(s, t, es[0]).0, PutShape(s, t, es[0]), es[1..], q, crc);
    }
  }

  lemma CreateReady(page: nat)
    requires 0 < page < U64
    ensures PagesReady(Create(page))
  {
    NewLeafFramed(page);
  }

  /** From an empty tree. */
  lemma RunFromCreateSurvives(page: nat, es: seq<Entry>, q: nat, crc: seq<byte> -> u32)
    requires page > 0 && Placed(Create(page), Tip(page)) && Within(RunPuts(Create(page), Tip(page), es).0)
    requires forall i :: 0 <= i < |es| ==> |es[i].key| <= 255 && es[i].lsn < U64
    requires q in RunPuts(Create(page), Tip(page), es).0.pages
    ensures var n := RunPuts(Create(page), Tip(page), es).0.pages[q];
            && (n.LeafPage? ==> Total(n.leaf.entries) <= LEAF_AREA) && (n.Internal? ==> InternalReady(n))
            && Parse(Image(SealedNode(n, crc))) == Ok(SealedNode(n, crc))
  {
    RunGrows(Create(page), Tip(page), es);
    CreateReady(page);
    PutRunSurvivesPages(Create(page), Tip(page), es, q, crc);
  }
}
