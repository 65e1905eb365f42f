/** When `put` reports success: the exact condition for one put, and runs in any
    order of keys with comparable entry sizes, none of which is ever refused. */
module PutAccepted {
  import opened Bytes
  import opened Results
  import opened Entries
  import opened LeafNodes
  import opened LeafOps
  import opened SearchTree
  import opened TreeUpdate
  import opened TreePut
  import opened PutRuns
  import opened ValueRuns

  // ------------------------------------------------------------------------- one put

  /** A put is refused exactly when the leaf its key leads to shows too little room and either is the empty root
      leaf or cannot be split to make room. */
  lemma PutRefusedIff(s: State, t: Shape, e: Entry)
    requires Placed(s, t)
    ensures !PutState(s, t, e).1 <==>
              var l := TargetLeaf(s, t, e.key);
              && l.header.freeSpace < Size(e)
              && (l.header.freeSpace > 3264 || l.entries == [] || HalfTooFull(l, e))
  {
    TargetIsPage(s.pages, t, e.key);
    InsertFailsIff(TargetLeaf(s, t, e.key), e, s.nextPage);
  }

  lemma HeightByOutcome(s: State, t: Shape, e: Entry)
    requires Placed(s, t)
    ensures var p, l := Target(s.pages, t, e.key), TargetLeaf(s, t, e.key);
            var splits := !FirstEntry(s, p, l) && InsertOrSplit(l, e, s.nextPage).Split?;
            PutState(s, t, e).0.height == if splits then s.height + 1 else s.height
  {
    TargetIsPage(s.pages, t, e.key);
  }

  lemma PageByOutcome(s: State, t: Shape, e: Entry)
    requires Placed(s, t) && !PutState(s, t, e).1
    ensures var p, l := Target(s.pages, t, e.key), TargetLeaf(s, t, e.key);
            var o := InsertOrSplit(l, e, s.nextPage);
            && (!FirstEntry(s, p, l) ==> o.Failed?)
            && PutState(s, t, e).0.nextPage
               == if !FirstEntry(s, p, l) && (o.tookPage || o.orphan.Some?) then s.nextPage + 1 else s.nextPage
  {
    TargetIsPage(s.pages, t, e.key);
  }

  lemma FailureTakesPage(l: Leaf, e: Entry, page: nat)
    requires Valid(l) && InsertOrSplit(l, e, page).Failed?
    ensures var o := InsertOrSplit(l, e, page); o.tookPage || o.orphan.Some? <==> l.header.freeSpace <= 3264
  {
    InsertFailsIff(l, e, page);
    assert NeedsSplit(l.header) <==> l.header.freeSpace <= 3264;
  }

  /** A put makes the tree higher exactly when it splits its leaf: never the empty root leaf; otherwise when a new
      entry leaves at most a fifth of the page free, or there is too little room and a half takes or drops the entry. */
  lemma PutGrowsIff(s: State, t: Shape, e: Entry)
    requires Placed(s, t)
    ensures var l, h := TargetLeaf(s, t, e.key), PutState(s, t, e).0.height;
            && s.height <= h <= s.height + 1
            && (h == s.height + 1 <==>
                  && !(Target(s.pages, t, e.key) == s.root && l.entries == [])
                  && if l.header.freeSpace >= Size(e) then
                       Lookup(l.entries, e.key) == None && l.header.freeSpace - Size(e) <= 3264
                     else l.header.freeSpace <= 3264 && l.entries != [] && !HalfTooFull(l, e))
  {
    HeightByOutcome(s, t, e);
    TargetIsPage(s.pages, t, e.key);
    InsertSplitsIff(TargetLeaf(s, t, e.key), e, s.nextPage);
  }

  /** A refused put has taken a page exactly when the split was tried. */
  lemma RefusedTakesPage(s: State, t: Shape, e: Entry)
    requires Placed(s, t) && !PutState(s, t, e).1
    ensures var l := TargetLeaf(s, t, e.key);
            PutState(s, t, e).0.nextPage
            == s.nextPage + if FirstEntry(s, Target(s.pages, t, e.key), l) || l.header.freeSpace > 3264 then 0 else 1
  {
    PageByOutcome(s, t, e);
    TargetIsPage(s.pages, t, e.key);
    if !FirstEntry(s, Target(s.pages, t, e.key), TargetLeaf(s, t, e.key)) {
      FailureTakesPage(TargetLeaf(s, t, e.key), e, s.nextPage);
    }
  }

  // ----------------------------------------------------------------- leaves with room

  /** Entries of the given sizes, and an empty leaf that knows it is empty. */
  ghost predicate Roomy(l: Leaf, lo: nat, hi: nat) {
    Sized(l.entries, lo, hi) && (l.entries == [] ==> l.header.freeSpace == LEAF_AREA)
  }

  ghost predicate AllRoomy(h: Heap, lo: nat, hi: nat) {
    forall q :: q in h && h[q].LeafPage? ==> Roomy(h[q].leaf, lo, hi)
  }

  /** What is moved in a split of many entries weighs at least one entry. */
  lemma MovedHalfWeighs(es: seq<Entry>, lo: nat, hi: nat)
    requires Comparable(lo, hi) && Sized(es, lo, hi) && |es| * hi > QUIET
    ensures hi <= Total(es[|es| / 2..])
  {
    var n, m := |es|, |es| / 2;
    HalfWeighsAnEntry(n, lo, hi);
    SizedTotal(es[m..], lo, hi);
    MulMonotone(m, n - m, lo);
  }

  /** Of a leaf with comparable entries, the first half always has room for one more. */
  lemma FirstHalfHasRoom(es: seq<Entry>, size: nat, lo: nat, hi: nat)
    requires Comparable(lo, hi) && Sized(es, lo, hi) && size <= hi && Total(es) <= LEAF_AREA
    ensures Total(es[..|es| / 2]) + size <= LEAF_AREA
  {
    assert hi <= MAX_ENTRY;
    CutAtMiddle(es, |es| / 2);
    TotalConcat(es[..|es| / 2], es[|es| / 2..]);
    if |es| * hi > QUIET {
      MovedHalfWeighs(es, lo, hi);
    } else {
      SizedTotal(es, lo, hi);
    }
  }

  lemma RoomyAccepts(l: Leaf, e: Entry, page: nat, lo: nat, hi: nat)
    requires Valid(l) && Roomy(l, lo, hi) && Comparable(lo, hi) && Size(e) <= hi
    ensures !InsertOrSplit(l, e, page).Failed?
  {
    InsertFailsIff(l, e, page);
    if l.entries != [] {
      FirstHalfHasRoom(l.entries, Size(e), lo, hi);
    }
  }

  lemma PartSized(a: seq<Entry>, b: seq<Entry>, lo: nat, hi: nat)
    requires Sized(a + b, lo, hi)
    ensures Sized(a, lo, hi) && Sized(b, lo, hi)
  {
    assert forall i :: 0 <= i < |a| ==> (a + b)[i] == a[i];
    assert forall i :: 0 <= i < |b| ==> (a + b)[|a| + i] == b[i];
  }

  lemma UpsertSized(es: seq<Entry>, e: Entry, lo: nat, hi: nat)
    requires Sized(es, lo, hi) && lo <= Size(e) <= hi
    ensures Sized(Upsert(es, e), lo, hi) && Upsert(es, e) != []
  {
    UpsertMembers(es, e);
    var u := Upsert(es, e);
    forall i | 0 <= i < |u| ensures lo <= Size(u[i]) <= hi {
      assert u[i] == e || u[i] in es;
    }
  }

  lemma SplitRoomy(l: Leaf, page: nat, lo: nat, hi: nat)
    requires Valid(l) && Sized(l.entries, lo, hi) && l.entries != []
    ensures var o := SplitOutcome(l, page); o.Split? && Roomy(o.leaf, lo, hi) && Roomy(o.right, lo, hi)
  {
    SplitOutcomeFacts(l, page);
    var o := SplitOutcome(l, page);
    PartSized(o.leaf.entries, o.right.entries, lo, hi);
  }

  ghost predicate OutcomeRoomy(o: InsertOutcome, lo: nat, hi: nat) {
    match o
    case Done(l) => Roomy(l, lo, hi)
    case Split(l, r, _) => Roomy(l, lo, hi) && Roomy(r, lo, hi)
    case Failed(_, _) => false
  }

  /** An accepted insert leaves only leaves with room. */
  lemma InsertKeepsRoomy(l: Leaf, e: Entry, page: nat, lo: nat, hi: nat)
    requires Valid(l) && Roomy(l, lo, hi) && Comparable(lo, hi) && lo <= Size(e) <= hi
    ensures OutcomeRoomy(InsertOrSplit(l, e, page), lo, hi)
  {
    RoomyAccepts(l, e, page, lo, hi);
    UpsertSized(l.entries, e, lo, hi);
    if HasSpace(l.header, Size(e)) {
      InsertKeepsValid(l, e);
      SplitRoomy(Insert(l, e), page, lo, hi);
    } else {
      InsertFailsIff(l, e, page);
      SplitRoomy(l, page, lo, hi);
      UpsertSized(SplitOutcome(l, page).leaf.entries, e, lo, hi);
    }
  }

  // ---------------------------------------------------------------------- whole runs

  lemma WriteRoomy(s: State, p: nat, l: Leaf, lo: nat, hi: nat)
    requires AllRoomy(s.pages, lo, hi) && Roomy(l, lo, hi)
    ensures AllRoomy(Write(s, p, l).pages, lo, hi)
  {
  }

  lemma GrowRoomy(s: State, sep: Key, right: nat, lo: nat, hi: nat)
    requires AllRoomy(s.pages, lo, hi) && s.root in s.pages
    ensures AllRoomy(Grow(s, sep, right).pages, lo, hi)
  {
  }

  lemma SplitStateRoomy(s: State, p: nat, l: Leaf, r: Leaf, sep: Key, lo: nat, hi: nat)
    requires AllRoomy(s.pages, lo, hi) && s.root in s.pages && Roomy(l, lo, hi) && Roomy(r, lo, hi)
    ensures AllRoomy(SplitState(s, p, l, r, sep).pages, lo, hi)
  {
    WriteRoomy(Allocate(s), s.nextPage, r, lo, hi);
    WriteRoomy(Write(Allocate(s), s.nextPage, r), p, l, lo, hi);
    GrowRoomy(HalvesWritten(s, p, l, r), sep, s.nextPage, lo, hi);
  }

  /** One put of a comparable entry is accepted, update or not, and leaves every leaf with room. */
  lemma RoomyPut(s: State, t: Shape, e: Entry, lo: nat, hi: nat)
    requires Placed(s, t) && AllRoomy(s.pages, lo, hi) && Comparable(lo, hi) && lo <= Size(e) <= hi
    ensures PutState(s, t, e).1 && AllRoomy(PutState(s, t, e).0.pages, lo, hi)
  {
    var p, l := Target(s.pages, t, e.key), TargetLeaf(s, t, e.key);
    TargetIsPage(s.pages, t, e.key);
    InsertKeepsRoomy(l, e, s.nextPage, lo, hi);
    UpsertSized(l.entries, e, lo, hi);
    if FirstEntry(s, p, l) {
      WriteRoomy(s, p, Insert(l, e), lo, hi);
    } else {
      match InsertOrSplit(l, e, s.nextPage)
      case Done(l') => WriteRoomy(s, p, l', lo, hi);
      case Split(l', r, sep) => SplitStateRoomy(s, p, l', r, sep, lo, hi);
    }
  }

  lemma {:induction false} RoomyRun(s: State, t: Shape, es: seq<Entry>, lo: nat, hi: nat)
    requires Placed(s, t) && AllRoomy(s.pages, lo, hi) && Comparable(lo, hi) && Sized(es, lo, hi)
    ensures AllReported(s, t, es) && AllRoomy(RunPuts(s, t, es).0.pages, lo, hi)
    decreases |es|
  {
    if es != [] {
      PutKeepsPlaced(s, t, es[0]);
      RoomyPut(s, t, es[0], lo, hi);
      RoomyRun(PutState(s, t, es[0]).0, PutShape(s, t, es[0]), es[1..], lo, hi);
    }
  }

  /** For every run of puts on an empty tree, with keys in any order and repeated as often as you like, no put is
      refused, provided the entry sizes are comparable. */
  lemma AnyRunAccepted(page: nat, es: seq<Entry>, lo: nat, hi: nat)
    requires page > 0 && Comparable(lo, hi) && Sized(es, lo, hi)
    ensures Placed(Create(page), Tip(page)) && AllReported(Create(page), Tip(page), es)
  {
    CreatePlaced(page);
    RoomyRun(Create(page), Tip(page), es, lo, hi);
  }

  // -------------------------------------------------------------------------- values

  /** The bytes that a key and its value take in a leaf: a value of more than 2000 bytes leaves a reference of ten. */
  function StoredSize(k: Key, v: seq<byte>): nat {
    11 + |k| + if |v| <= 2000 then |v| else 10
  }

  lemma KeptSize(w: Store, op: Op)
    ensures Size(KeptEntry(w, op)) == StoredSize(op.key, op.value)
  {
  }

  /** A put of a value is refused exactly when the value is too long or its leaf has no room for what is stored. */
  lemma PutValueRefusedIff(w: Store, op: Op)
    requires ValueRuns.Sound(w)
    ensures !PutValue(w, op).1 <==>
              || |op.value| > 16_777_215
              || (var l, size := TargetLeaf(w.state, w.shape, op.key), StoredSize(op.key, op.value);
                  && l.header.freeSpace < size
                  && (l.header.freeSpace > 3264 || l.entries == [] || HalfTooFull(l, KeptEntry(w, op))))
  {
    if |op.value| <= 16_777_215 {
      ReadyPlaced(w, op);
      KeptSize(w, op);
      PutRefusedIff(Ready(w, op), w.shape, KeptEntry(w, op));
    }
  }

  ghost predicate AllValuesAccepted(w: Store, ops: seq<Op>)
    requires ValueRuns.Sound(w)
    decreases |ops|
  {
    ops != [] ==>
      PutValue(w, ops[0]).1 && (PutSound(w, ops[0]); AllValuesAccepted(PutValue(w, ops[0]).0, ops[1..]))
  }

  /** For every run of puts of values, in any order of keys, no put is refused when the values are not too long and
      what they take in the leaves is of comparable size. */
  lemma {:induction false} AnyValueRunAccepted(w: Store, ops: seq<Op>, lo: nat, hi: nat)
    requires ValueRuns.Sound(w) && AllRoomy(w.state.pages, lo, hi) && Comparable(lo, hi)
    requires forall i :: 0 <= i < |ops| ==>
               |ops[i].value| <= 16_777_215 && lo <= StoredSize(ops[i].key, ops[i].value) <= hi
    ensures AllValuesAccepted(w, ops)
    decreases |ops|
  {
    if ops != [] {
      var op := ops[0];
      PutSound(w, op);
      ReadyPlaced(w, op);
      KeptSize(w, op);
      RoomyPut(Ready(w, op), w.shape, KeptEntry(w, op), lo, hi);
      AnyValueRunAccepted(PutValue(w, op).0, ops[1..], lo, hi);
    }
  }
}
