/** Splitting a leaf in two, and inserting with a split. */
module LeafOps {
  import opened Bytes
  import opened Results
  import opened Entries
  import opened LeafNodes

  // -------------------------------------------------------------------------- split

  /** What stays in the split leaf. */
  function SplitLeft(l: Leaf): Leaf {
    var kept := l.entries[..|l.entries| / 2];
    var h := Touched(l.header.(numKeys := AsU16(|kept|)));
    l.(entries := kept, header := h.(freeSpace := AsU16(LEAF_AREA - Total(kept))))
  }

  /** The new leaf, unless some moved entry finds no space there. */
  function SplitRight(l: Leaf, page: nat): Option<Leaf> {
    match InsertAll(NewLeaf(page), l.entries[|l.entries| / 2..])
    case None => None
    case Some(r) => Some(r.(next := l.next, prev := l.header.nodeId))
  }

  /** A split of a valid leaf always succeeds when it has an entry; it cuts the entry sequence in two,
      loses nothing, and leaves both halves valid with an exact free-space figure. */
  lemma SplitConserves(l: Leaf, page: nat)
    requires Valid(l)
    ensures SplitRight(l, page).Some?
    ensures var a, b := SplitLeft(l), SplitRight(l, page).value;
            && a.entries + b.entries == l.entries
            && |a.entries| == |l.entries| / 2
            && Valid(a) && Exact(a) && Valid(b) && Exact(b)
            && a.next == l.next && a.prev == l.prev && a.header.nodeId == l.header.nodeId
            && b.next == l.next && b.prev == l.header.nodeId && b.header.nodeId == page
  {
    var m := |l.entries| / 2;
    var moved := l.entries[m..];
    assert l.entries[..m] + moved == l.entries;
    TotalConcat(l.entries[..m], moved);
    SortedDrop(l.entries, m);
    SortedTake(l.entries, m);
    CountFits(l.entries);
    var blank := NewLeaf(page);
    NewLeafValid(page);
    assert blank.entries + moved == moved;
    InsertAllFits(blank, moved);
    InsertAllAppends(blank, moved);
  }

  /** The separator (first key of the new leaf) sends every remaining key left and every moved key right. */
  lemma SplitSeparates(l: Leaf, page: nat)
    requires Valid(l) && l.entries != []
    ensures SplitRight(l, page).Some? && SplitRight(l, page).value.entries != []
    ensures var sep := SplitRight(l, page).value.entries[0].key;
            && AllBelow(SplitLeft(l).entries, sep)
            && AllFrom(SplitRight(l, page).value.entries, sep)
  {
    SplitConserves(l, page);
    DividesAt(l.entries, |l.entries| / 2);
    var b := SplitRight(l, page).value;
    assert l.entries[|l.entries| / 2..] == b.entries by {
      assert (SplitLeft(l).entries + b.entries)[|l.entries| / 2..] == b.entries;
    }
  }

  datatype SplitError = NewLeafFull | SplitHasNoEntries(orphan: Leaf)

  /** Split `node` in place, moving its upper half to a new leaf on page `page`. */
  method SplitLeafNode(node: LeafNode, page: nat) returns (r: Result<LeafNode, SplitError>, separator: Key)
    modifies node
    ensures r.Ok? ==> fresh(r.value) && node.View() == SplitLeft(old(node.View()))
    ensures r.Ok? ==> SplitOutcome(old(node.View()), page) == Split(node.View(), r.value.View(), separator)
    ensures r.Err? ==> SplitOutcome(old(node.View()), page)
                       == Failed(true, if r.error.NewLeafFull? then None else Some(r.error.orphan))
  {
    separator := [];
    var splitPoint := |node.entries| / 2;
    var newNode := new LeafNode(page);
    var moved := node.entries[splitPoint..];
    ghost var start := newNode.View();
    var ok := newNode.PutAll(moved);
    if !ok {
      return Err(NewLeafFull), separator;
    }

    node.entries := node.entries[..splitPoint];
    node.header := Touched(node.header.(numKeys := AsU16(|node.entries|)));
    node.header := node.header.(freeSpace := AsU16(LEAF_AREA - Total(node.entries)));

    newNode.next := node.next;
    newNode.prev := node.header.nodeId;
    if |newNode.entries| == 0 {
      return Err(SplitHasNoEntries(newNode.View())), separator;
    }
    return Ok(newNode), newNode.entries[0].key;
  }

  // -------------------------------------------------------------- insert with split

  /** A failure may come after a page was allocated and even written for the new half. */
  datatype InsertOutcome =
    | Done(leaf: Leaf)
    | Split(leaf: Leaf, right: Leaf, separator: Key)
    | Failed(tookPage: bool, orphan: Option<Leaf>)

  function SplitOutcome(l: Leaf, page: nat): InsertOutcome {
    match SplitRight(l, page)
    case None => Failed(true, None)
    case Some(r) => if r.entries == [] then Failed(true, Some(r)) else Split(SplitLeft(l), r, r.entries[0].key)
  }

  /** `insert_into_leaf`.  With too little space the leaf is split first, and an entry that belongs to
      the new half is not stored at all. */
  function InsertOrSplit(l: Leaf, e: Entry, page: nat): InsertOutcome {
    if HasSpace(l.header, Size(e)) then
      var stored := Insert(l, e);
      if !Present(l.entries, e.key) && NeedsSplit(stored.header) then SplitOutcome(stored, page)
      else Done(stored)
    else if NeedsSplit(l.header) then
      match SplitOutcome(l, page)
      case Split(left, right, sep) =>
        if !Less(e.key, sep) then Split(left, right, sep)
        else if HasSpace(left.header, Size(e)) then Split(Insert(left, e), right, sep)
        else Failed(true, Some(right))
      case failed => failed
    else Failed(false, None)
  }

  /** The entry is silently left out: no space, and its key belongs to the new half. */
  predicate Drops(l: Leaf, e: Entry) {
    && !HasSpace(l.header, Size(e))
    && NeedsSplit(l.header)
    && l.entries != []
    && !Less(e.key, l.entries[|l.entries| / 2].key)
  }

  ghost function OutcomeEntries(o: InsertOutcome): seq<Entry> {
    match o
    case Done(l) => l.entries
    case Split(l, r, _) => l.entries + r.entries
    case Failed(_, _) => []
  }

  /** Whatever the headers say, a split that succeeds only cuts the entry sequence. */
  lemma SplitCuts(l: Leaf, page: nat)
    requires Sorted(l.entries) && SplitOutcome(l, page).Split?
    ensures SplitOutcome(l, page).leaf.entries + SplitOutcome(l, page).right.entries == l.entries
  {
    var m := |l.entries| / 2;
    SortedDrop(l.entries, m);
    FillBlank(page, l.entries[m..]);
    CutAtMiddle(l.entries, m);
  }

  lemma FillBlank(page: nat, es: seq<Entry>)
    requires Sorted(es) && InsertAll(NewLeaf(page), es).Some?
    ensures InsertAll(NewLeaf(page), es).value.entries == es
  {
    EmptyPrefix(es);
    InsertAllAppends(NewLeaf(page), es);
  }

  lemma CutAtMiddle<T>(s: seq<T>, m: nat)
    requires m <= |s|
    ensures s[..m] + s[m..] == s
  {
  }

  lemma SplitOutcomeFacts(l: Leaf, page: nat)
    requires Valid(l) && l.entries != []
    ensures var o := SplitOutcome(l, page);
            && o.Split?
            && o.leaf.entries + o.right.entries == l.entries
            && o.separator == l.entries[|l.entries| / 2].key
            && AllBelow(o.leaf.entries, o.separator) && AllFrom(o.right.entries, o.separator)
            && o.right.entries != []
            && Valid(o.leaf) && Exact(o.leaf) && Valid(o.right) && Exact(o.right)
            && o.leaf.next == l.next && o.leaf.header.nodeId == l.header.nodeId
            && o.right.next == l.next && o.right.header.nodeId == page
  {
    SplitConserves(l, page);
    SplitSeparates(l, page);
    var b := SplitRight(l, page).value;
    assert (SplitLeft(l).entries + b.entries)[|l.entries| / 2] == b.entries[0];
  }

  /** What an insert stores.  Unless it fails, the entries afterwards, read across the split, are the
      old ones with the new entry upserted — except in the dropping case, where they are the old ones. */
  lemma InsertOrSplitStores(l: Leaf, e: Entry, page: nat)
    requires Valid(l) && !InsertOrSplit(l, e, page).Failed?
    ensures OutcomeEntries(InsertOrSplit(l, e, page)) == if Drops(l, e) then l.entries else Upsert(l.entries, e)
    ensures InsertOutcomeValid(InsertOrSplit(l, e, page), page)
  {
    if HasSpace(l.header, Size(e)) {
      InsertWithSpace(l, e, page);
    } else {
      InsertAfterSplit(l, e, page);
    }
  }

  lemma InsertWithSpace(l: Leaf, e: Entry, page: nat)
    requires Valid(l) && HasSpace(l.header, Size(e))
    ensures !InsertOrSplit(l, e, page).Failed?
    ensures OutcomeEntries(InsertOrSplit(l, e, page)) == Upsert(l.entries, e)
    ensures InsertOutcomeValid(InsertOrSplit(l, e, page), page)
  {
    InsertKeepsValid(l, e);
    UpsertMembers(l.entries, e);
    SplitOutcomeFacts(Insert(l, e), page);
  }

  lemma InsertAfterSplit(l: Leaf, e: Entry, page: nat)
    requires Valid(l) && !HasSpace(l.header, Size(e)) && !InsertOrSplit(l, e, page).Failed?
    ensures OutcomeEntries(InsertOrSplit(l, e, page)) == if Drops(l, e) then l.entries else Upsert(l.entries, e)
    ensures InsertOutcomeValid(InsertOrSplit(l, e, page), page)
  {
    SplitConserves(l, page);
    var o := SplitOutcome(l, page);
    assert o.Split?;
    SplitOutcomeFacts(l, page);
    if Less(e.key, o.separator) {
      AddedBelow(o, e, page);
    }
  }

  /** An entry below the separator goes into the left half. */
  lemma AddedBelow(o: InsertOutcome, e: Entry, page: nat)
    requires o.Split? && InsertOutcomeValid(o, page) && Less(e.key, o.separator) && HasSpace(o.leaf.header, Size(e))
    ensures var s := Split(Insert(o.leaf, e), o.right, o.separator);
            InsertOutcomeValid(s, page) && OutcomeEntries(s) == Upsert(OutcomeEntries(o), e)
  {
    InsertKeepsValid(o.leaf, e);
    InsertBelowSeparator(o.leaf.entries, o.right.entries, o.separator, e);
  }

  /** An entry finds no place beside the middle entry: it belongs before it, where the kept half is too full. */
  ghost predicate HalfTooFull(l: Leaf, e: Entry)
    requires l.entries != []
  {
    var m := |l.entries| / 2;
    Less(e.key, l.entries[m].key) && Total(l.entries[..m]) + Size(e) > LEAF_AREA
  }

  /** The kept half after a split has room exactly for what its bytes leave of the leaf area. */
  lemma KeptHalfRoom(l: Leaf, page: nat, size: nat)
    requires Valid(l) && l.entries != []
    ensures var o := SplitOutcome(l, page);
            && o.Split? && o.separator == l.entries[|l.entries| / 2].key
            && (HasSpace(o.leaf.header, size) <==> Total(l.entries[..|l.entries| / 2]) + size <= LEAF_AREA)
  {
    SplitOutcomeFacts(l, page);
    assert SplitOutcome(l, page).leaf == SplitLeft(l);
  }

  lemma FailsAfterSplit(l: Leaf, e: Entry, page: nat)
    requires Valid(l) && !HasSpace(l.header, Size(e)) && NeedsSplit(l.header)
    ensures InsertOrSplit(l, e, page).Failed? <==> l.entries == [] || HalfTooFull(l, e)
  {
    if l.entries == [] {
      SplitConserves(l, page);
    } else {
      KeptHalfRoom(l, page, Size(e));
    }
  }

  /** The exact condition for a refusal: the header shows too little room, and no split helps, because more than
      a fifth of the page is free, nothing is stored, or the half the entry belongs to is too full as well. */
  lemma InsertFailsIff(l: Leaf, e: Entry, page: nat)
    requires Valid(l)
    ensures InsertOrSplit(l, e, page).Failed? <==>
              && l.header.freeSpace < Size(e)
              && (l.header.freeSpace > 3264 || l.entries == [] || HalfTooFull(l, e))
  {
    assert NeedsSplit(l.header) <==> l.header.freeSpace <= 3264;
    if HasSpace(l.header, Size(e)) {
      InsertWithSpace(l, e, page);
    } else if NeedsSplit(l.header) {
      FailsAfterSplit(l, e, page);
    }
  }

  /** The exact condition for a split: a new entry leaves at most a fifth of the page free, or there is too little
      room and a half can take the entry or drop it. */
  lemma InsertSplitsIff(l: Leaf, e: Entry, page: nat)
    requires Valid(l)
    ensures InsertOrSplit(l, e, page).Split? <==>
              if l.header.freeSpace >= Size(e) then
                Lookup(l.entries, e.key) == None && l.header.freeSpace - Size(e) <= 3264
              else l.header.freeSpace <= 3264 && l.entries != [] && !HalfTooFull(l, e)
  {
    InsertFailsIff(l, e, page);
    if HasSpace(l.header, Size(e)) {
      PositionFinds(l.entries, e.key);
      InsertSpace(l, e);
      InsertKeepsValid(l, e);
      UpsertMembers(l.entries, e);
      SplitOutcomeFacts(Insert(l, e), page);
    } else {
      SplitConserves(l, page);
    }
  }

  ghost predicate InsertOutcomeValid(o: InsertOutcome, page: nat) {
    match o
    case Done(l) => Valid(l)
    case Split(l, r, sep) =>
      && Valid(l) && Valid(r) && r.entries != [] && r.header.nodeId == page
      && AllBelow(l.entries, sep) && AllFrom(r.entries, sep) && sep == r.entries[0].key
    case Failed(_, _) => true
  }

  /** Upserting below a separator touches the left part only. */
  lemma InsertBelowSeparator(a: seq<Entry>, b: seq<Entry>, sep: Key, e: Entry)
    requires AllBelow(a, sep) && AllFrom(b, sep) && Less(e.key, sep)
    ensures Upsert(a, e) + b == Upsert(a + b, e)
    ensures AllBelow(Upsert(a, e), sep)
  {
    UpsertBelow(a, sep, e);
    FromSeparator(b, sep, e.key);
    UpsertInMiddle([], a, b, e);
    EmptyPrefix(a + b);
    EmptyPrefix(Upsert(a, e) + b);
  }

  lemma UpsertBelow(a: seq<Entry>, sep: Key, e: Entry)
    requires AllBelow(a, sep) && Less(e.key, sep)
    ensures AllBelow(Upsert(a, e), sep)
  {
    UpsertMembers(a, e);
    var u := Upsert(a, e);
    forall i | 0 <= i < |u| ensures Less(u[i].key, sep) {
      assert u[i] == e || u[i] in a;
    }
  }

  lemma FromSeparator(b: seq<Entry>, sep: Key, k: Key)
    requires AllFrom(b, sep) && Less(k, sep)
    ensures AllAbove(b, k)
  {
    forall i | 0 <= i < |b| ensures Less(k, b[i].key) {
      if b[i].key != sep {
        LessTransitive(k, sep, b[i].key);
      }
    }
  }

  lemma EmptyPrefix<T>(s: seq<T>)
    ensures [] + s == s
  {
  }

  /** `insert_into_leaf` on a leaf in memory. */
  method InsertIntoLeaf(node: LeafNode, e: Entry, page: nat) returns (outcome: InsertOutcome)
    requires Sorted(node.entries)
    modifies node
    ensures outcome == InsertOrSplit(old(node.View()), e, page)
    ensures !outcome.Failed? ==> node.View() == outcome.leaf
  {
    if HasSpace(node.header, Size(e)) {
      var isUpdate := node.Put(e);
      if isUpdate.value {
        return Done(node.View());
      }
      if NeedsSplit(node.header) {
        var r, sep := SplitLeafNode(node, page);
        if r.Err? {
          return Failed(true, if r.error.NewLeafFull? then None else Some(r.error.orphan));
        }
        return Split(node.View(), r.value.View(), sep);
      }
      return Done(node.View());
    }
    if NeedsSplit(node.header) {
      var r, sep := SplitLeafNode(node, page);
      if r.Err? {
        return Failed(true, if r.error.NewLeafFull? then None else Some(r.error.orphan));
      }
      SortedTake(old(node.entries), |old(node.entries)| / 2);
      if Less(e.key, sep) {
        var stored := node.Put(e);
        if stored.Err? {
          return Failed(true, Some(r.value.View()));
        }
      }
      return Split(node.View(), r.value.View(), sep);
    }
    return Failed(false, None);
  }
}
