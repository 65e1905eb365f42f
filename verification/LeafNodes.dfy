/** Leaf nodes: the in-memory page with its header, its sorted entries and its
    sibling links, and the free-space accounting in the 16-bit header field. */
module LeafNodes {
  import opened Bytes
  import opened Results
  import opened Entries

  const PAGE_SIZE: nat := 16384
  const HEADER_SIZE: nat := 60
  const BODY_SIZE: nat := PAGE_SIZE - HEADER_SIZE
  const LINK_BYTES: nat := 16
  const LEAF_AREA: nat := BODY_SIZE - LINK_BYTES
  const NODE_MAGIC: nat := 0x4E53_5452
  const INTERNAL: nat := 1
  const LEAF: nat := 2
  const ROOT_INTERNAL: nat := 3
  const ROOT_LEAF: nat := 4
  const FLAG_UNDERFULL_BELOW: nat := BODY_SIZE / 100

  datatype Header = Header(
    magic: nat, nodeType: nat, isRoot: nat, numKeys: nat, parent: nat, rightSibling: nat,
    freeSpace: nat, level: nat, checksum: nat, flags: nat, generation: nat, reserved: nat, nodeId: nat)

  function NewHeader(nodeType: nat, page: nat, level: nat): Header {
    Header(NODE_MAGIC, nodeType, if nodeType == ROOT_INTERNAL || nodeType == ROOT_LEAF then 1 else 0,
           0, 0, 0, BODY_SIZE, level, 0, 0, 1, 0, page)
  }

  predicate HasSpace(h: Header, bytes: nat) {
    h.freeSpace >= bytes
  }

  /** At least 80% of the body used: (body - free) / body >= 0.8, compared exactly. */
  predicate NeedsSplit(h: Header) {
    5 * (BODY_SIZE - h.freeSpace) >= 4 * BODY_SIZE
  }

  predicate IsUnderfull(h: Header, minEntries: nat) {
    h.isRoot == 0 && h.numKeys < minEntries
  }

  /** Setting bit 0 (DIRTY) of the flag word. */
  function SetDirty(flags: nat): nat {
    if flags % 2 == 1 then flags else flags + 1
  }

  /** Setting bit 1 (UNDERFULL) of the flag word. */
  function SetUnderfull(flags: nat): nat {
    if flags % 4 >= 2 then flags else flags + 2
  }

  /** What every change of a node does to its header: DIRTY set, generation advanced modulo 2^64. */
  function Touched(h: Header): Header {
    h.(flags := SetDirty(h.flags), generation := (h.generation + 1) % U64)
  }

  /** The value of a leaf: what a page holds. */
  datatype Leaf = Leaf(header: Header, entries: seq<Entry>, next: nat, prev: nat)

  function NewLeaf(page: nat): Leaf {
    var h := NewHeader(LEAF, page, 0);
    Leaf(h.(freeSpace := SaturatingSub(h.freeSpace, LINK_BYTES)), [], 0, 0)
  }

  // --------------------------------------------------------- specification functions

  /** The header after an insert or update that passed the space check. */
  function InsertHeader(l: Leaf, e: Entry): Header {
    var h := l.header;
    if Present(l.entries, e.key) then
      Touched(h.(freeSpace := SaturatingSub(h.freeSpace, AsU16(Size(e) - HitSize(l.entries, e.key)))))
    else
      Touched(h.(numKeys := AsU16(|l.entries| + 1), freeSpace := SaturatingSub(h.freeSpace, AsU16(Size(e)))))
  }

  function Insert(l: Leaf, e: Entry): Leaf {
    l.(header := InsertHeader(l, e), entries := Upsert(l.entries, e))
  }

  function RemoveHeader(l: Leaf, k: Key): Header {
    var h := l.header.(numKeys := AsU16(|l.entries| - 1),
                       freeSpace := AsU16(l.header.freeSpace + AsU16(HitSize(l.entries, k))));
    var t := Touched(h);
    if IsUnderfull(t, FLAG_UNDERFULL_BELOW) then t.(flags := SetUnderfull(t.flags)) else t
  }

  function Remove(l: Leaf, k: Key): Leaf {
    if Present(l.entries, k) then l.(header := RemoveHeader(l, k), entries := Without(l.entries, k)) else l
  }

  /** Insert a list of entries one by one; nothing comes back when one of them finds no space. */
  function InsertAll(l: Leaf, es: seq<Entry>): Option<Leaf>
    decreases |es|
  {
    if es == [] then Some(l)
    else if HasSpace(l.header, Size(es[0])) then InsertAll(Insert(l, es[0]), es[1..])
    else None
  }

  // ---------------------------------------------------------------------- invariants

  /** The header never promises more room than the entries leave. */
  ghost predicate Sound(l: Leaf) {
    Total(l.entries) + l.header.freeSpace <= LEAF_AREA
  }

  ghost predicate Exact(l: Leaf) {
    Total(l.entries) + l.header.freeSpace == LEAF_AREA
  }

  ghost predicate Valid(l: Leaf) {
    Sorted(l.entries) && l.header.numKeys == |l.entries| && Sound(l)
  }

  /** An update that makes the entry of its key smaller. */
  predicate Shrinks(l: Leaf, e: Entry) {
    Present(l.entries, e.key) && Size(e) < HitSize(l.entries, e.key)
  }

  lemma NewLeafValid(page: nat)
    ensures Valid(NewLeaf(page)) && Exact(NewLeaf(page))
  {
  }

  lemma CountFits(es: seq<Entry>)
    requires Total(es) <= LEAF_AREA
    ensures |es| <= 1482
  {
    TotalBoundsCount(es);
  }

  /** Every successful insert or update keeps the leaf valid: sorted, counted, and with a free-space
      figure that is never too large.  The figure stays exact unless the update shrinks its entry,
      in which case the 16-bit cast of the negative difference empties it to 0. */
  lemma InsertKeepsValid(l: Leaf, e: Entry)
    requires Valid(l) && HasSpace(l.header, Size(e))
    ensures Valid(Insert(l, e))
    ensures Shrinks(l, e) ==> Insert(l, e).header.freeSpace == 0 && !Exact(Insert(l, e))
    ensures !Shrinks(l, e) ==> (Exact(Insert(l, e)) <==> Exact(l))
  {
    UpsertIsUpdate(l.entries, e);
    InsertSpace(l, e);
  }

  lemma InsertSpace(l: Leaf, e: Entry)
    requires Sound(l) && l.header.numKeys == |l.entries| && HasSpace(l.header, Size(e))
    ensures Shrinks(l, e) ==> Insert(l, e).header.freeSpace == 0
    ensures !Shrinks(l, e) ==> Insert(l, e).header.freeSpace
                               == l.header.freeSpace - Size(e) + HitSize(l.entries, e.key)
    ensures Total(Upsert(l.entries, e)) == Total(l.entries) + Size(e) - HitSize(l.entries, e.key)
    ensures Insert(l, e).header.numKeys == |Upsert(l.entries, e)|
  {
    UpsertTotal(l.entries, e);
    CountFits(l.entries);
  }

  /** Removal gives back exactly the entry's bytes; the 16-bit addition cannot overflow. */
  lemma RemoveKeepsValid(l: Leaf, k: Key)
    requires Valid(l)
    ensures Valid(Remove(l, k))
    ensures Exact(Remove(l, k)) <==> Exact(l)
    ensures Remove(l, k).header.freeSpace == l.header.freeSpace + HitSize(l.entries, k)
  {
    WithoutIsDeletion(l.entries, k);
    WithoutTotal(l.entries, k);
    CountFits(l.entries);
  }

  /** What every change of a leaf leaves as it was: all of the header but the count, the free space, the flags and
      the generation, and the links. */
  ghost predicate SameIdentity(a: Leaf, b: Leaf) {
    && b.next == a.next && b.prev == a.prev
    && b.header == a.header.(numKeys := b.header.numKeys, freeSpace := b.header.freeSpace,
                             flags := b.header.flags, generation := b.header.generation)
  }

  /** A flag word is bit 0, bit 1 and the others. */
  lemma FlagParts(f: nat, b: nat, q: nat)
    requires f == 4 * q + b && b < 4
    ensures f % 4 == b && f / 4 == q && f % 2 == b % 2 && f / 2 == 2 * q + b / 2
  {
    ByFour(f, q, b);
    ByTwo(b, b / 2, b % 2);
    ByTwo(f, 2 * q + b / 2, b % 2);
  }

  lemma ByFour(f: nat, q: nat, b: nat)
    requires f == 4 * q + b && b < 4
    ensures f % 4 == b && f / 4 == q
  {
  }

  lemma ByTwo(f: nat, q: nat, b: nat)
    requires f == 2 * q + b && b < 2
    ensures f % 2 == b && f / 2 == q
  {
  }

  lemma FlagBits(f: nat)
    ensures SetDirty(f) % 2 == 1 && SetDirty(f) / 2 == f / 2 && SetDirty(f) / 4 == f / 4
    ensures (SetUnderfull(f) / 2) % 2 == 1 && SetUnderfull(f) % 2 == f % 2 && SetUnderfull(f) / 4 == f / 4
  {
    var q, b := f / 4, f % 4;
    FlagParts(f, b, q);
    FlagParts(SetDirty(f), if b % 2 == 1 then b else b + 1, q);
    FlagParts(SetUnderfull(f), if b >= 2 then b else b + 2, q);
    ByTwo(SetUnderfull(f) / 2, q, 1);
  }

  /** An insert or update sets DIRTY, changes no other flag and advances the generation by one. */
  lemma InsertMarks(l: Leaf, e: Entry)
    ensures var a := Insert(l, e);
            && SameIdentity(l, a) && a.header.generation == (l.header.generation + 1) % U64
            && a.header.flags % 2 == 1 && a.header.flags / 2 == l.header.flags / 2
  {
    FlagBits(l.header.flags);
  }

  /** A removal sets DIRTY, and UNDERFULL when it leaves a leaf that is not a root with fewer than 163 entries, and
      advances the generation by one; a removal of nothing changes nothing. */
  lemma RemoveMarks(l: Leaf, k: Key)
    requires Valid(l)
    ensures Lookup(l.entries, k) == None ==> Remove(l, k) == l
    ensures var f, b := l.header.flags, Remove(l, k);
            Lookup(l.entries, k) != None ==>
              && SameIdentity(l, b) && b.header.generation == (l.header.generation + 1) % U64
              && b.header.flags % 2 == 1 && b.header.flags / 4 == f / 4
              && ((b.header.flags / 2) % 2 == 1 <==>
                  (f / 2) % 2 == 1 || (l.header.isRoot == 0 && |l.entries| - 1 < 163))
  {
    PositionFinds(l.entries, k);
    if Present(l.entries, k) {
      RemoveFlags(l, k);
      RemovedFlags(l.header.flags, l.header.isRoot == 0 && |l.entries| - 1 < 163);
    }
  }

  lemma RemoveFlags(l: Leaf, k: Key)
    requires Valid(l) && Present(l.entries, k)
    ensures RemoveHeader(l, k).flags
            == var f := SetDirty(l.header.flags);
               if l.header.isRoot == 0 && |l.entries| - 1 < 163 then SetUnderfull(f) else f
  {
    CountFits(l.entries);
  }

  lemma RemovedFlags(f: nat, underfull: bool)
    ensures var g := if underfull then SetUnderfull(SetDirty(f)) else SetDirty(f);
            g % 2 == 1 && g / 4 == f / 4 && ((g / 2) % 2 == 1 <==> (f / 2) % 2 == 1 || underfull)
  {
    FlagBits(f);
    FlagBits(SetDirty(f));
  }

  lemma InsertAllSplits(l: Leaf, es: seq<Entry>)
    requires es != []
    ensures InsertAll(l, es).Some? ==> HasSpace(l.header, Size(es[0]))
    ensures HasSpace(l.header, Size(es[0])) ==> InsertAll(l, es) == InsertAll(Insert(l, es[0]), es[1..])
  {
  }

  lemma HeadIsLast(a: seq<Entry>, es: seq<Entry>)
    requires Sorted(a + es) && es != []
    ensures AllBelow(a, es[0].key) && Sorted(a) && Sorted((a + [es[0]]) + es[1..])
  {
    assert (a + [es[0]]) + es[1..] == a + es;
    assert (a + es)[..|a|] == a;
    forall i | 0 <= i < |a| ensures Less(a[i].key, es[0].key) {
      assert (a + es)[i] == a[i] && (a + es)[|a|] == es[0];
    }
  }

  lemma AppendStep(l: Leaf, e: Entry)
    requires AllBelow(l.entries, e.key) && HasSpace(l.header, Size(e))
    ensures Insert(l, e).entries == l.entries + [e]
    ensures Valid(l) ==> Valid(Insert(l, e)) && (Exact(l) <==> Exact(Insert(l, e)))
  {
    UpsertAtEnd(l.entries, e);
    if Valid(l) {
      InsertKeepsValid(l, e);
    }
  }

  /** Inserting entries that continue a leaf's order appends them, keeps links and identity, and keeps
      validity and exactness. */
  lemma {:induction false} InsertAllAppends(l: Leaf, es: seq<Entry>)
    requires Sorted(l.entries + es)
    requires InsertAll(l, es).Some?
    ensures var r := InsertAll(l, es).value;
            && r.entries == l.entries + es
            && r.next == l.next && r.prev == l.prev && r.header.nodeId == l.header.nodeId
            && (Valid(l) ==> Valid(r) && (Exact(l) <==> Exact(r)))
    decreases |es|
  {
    if es == [] {
      assert l.entries + es == l.entries;
    } else {
      var l1 := Insert(l, es[0]);
      InsertAllSplits(l, es);
      HeadIsLast(l.entries, es);
      AppendStep(l, es[0]);
      InsertAllAppends(l1, es[1..]);
      assert (l.entries + [es[0]]) + es[1..] == l.entries + es;
    }
  }

  /** A leaf accepts a continuation of its order if and only if its header shows the room for all of it. */
  lemma {:induction false} InsertAllIff(l: Leaf, es: seq<Entry>)
    requires Sorted(l.entries + es) && Valid(l)
    ensures InsertAll(l, es).Some? <==> Total(es) <= l.header.freeSpace
    decreases |es|
  {
    if es != [] {
      HeadIsLast(l.entries, es);
      InsertAllSplits(l, es);
      if HasSpace(l.header, Size(es[0])) {
        AppendStep(l, es[0]);
        AppendSpace(l, es[0]);
        InsertAllIff(Insert(l, es[0]), es[1..]);
      }
    }
  }

  lemma AppendSpace(l: Leaf, e: Entry)
    requires AllBelow(l.entries, e.key) && HasSpace(l.header, Size(e)) && Valid(l)
    ensures Insert(l, e).header.freeSpace == l.header.freeSpace - Size(e)
  {
    AppendStep(l, e);
    KeyOrder();
  }

  /** An exact leaf accepts every continuation of its order that fits in the leaf area. */
  lemma InsertAllFits(l: Leaf, es: seq<Entry>)
    requires Sorted(l.entries + es) && Valid(l) && Exact(l)
    requires Total(l.entries) + Total(es) <= LEAF_AREA
    ensures InsertAll(l, es).Some?
  {
    InsertAllIff(l, es);
  }

  // ----------------------------------------------------------------------- the node

  datatype NodeError = NoSpace

  /** A leaf being edited: `LeafNode` with its fields updated in place. */
  class LeafNode {
    var header: Header
    var entries: seq<Entry>
    var next: nat
    var prev: nat

    function View(): Leaf
      reads this
    {
      Leaf(header, entries, next, prev)
    }

    constructor (page: nat)
      ensures View() == NewLeaf(page)
    {
      var h := NewHeader(LEAF, page, 0);
      header := h.(freeSpace := SaturatingSub(h.freeSpace, LINK_BYTES));
      entries := [];
      next := 0;
      prev := 0;
    }

    constructor Of(l: Leaf)
      ensures View() == l
    {
      header := l.header;
      entries := l.entries;
      next := l.next;
      prev := l.prev;
    }

    /** Binary search over the entries, as the sorted slice demands. */
    method Search(k: Key) returns (pos: nat)
      requires Sorted(entries)
      ensures pos == Position(entries, k)
    {
      pos := BinarySearch(KeysOf(entries), k);
    }

    /** Insert or update: refused without change when the header shows too little space. */
    method Put(e: Entry) returns (r: Result<bool, NodeError>)
      requires Sorted(entries)
      modifies this
      ensures Sorted(entries)
      ensures r.Ok? <==> HasSpace(old(header), Size(e))
      ensures r.Ok? ==> r.value == Present(old(entries), e.key) && View() == Insert(old(View()), e)
      ensures r.Err? ==> View() == old(View())
    {
      var entrySize := Size(e);
      if !HasSpace(header, entrySize) {
        return Err(NoSpace);
      }
      UpsertIsUpdate(entries, e);
      var pos := Search(e.key);
      var isUpdate := pos < |entries| && entries[pos].key == e.key;
      if isUpdate {
        var oldSize: int := Size(entries[pos]);
        entries := entries[pos := e];
        var sizeDelta: int := entrySize as int - oldSize;
        header := header.(freeSpace := SaturatingSub(header.freeSpace, AsU16(sizeDelta)));
      } else {
        entries := entries[..pos] + [e] + entries[pos..];
        header := header.(numKeys := AsU16(|entries|),
                          freeSpace := SaturatingSub(header.freeSpace, AsU16(entrySize)));
      }
      header := Touched(header);
      return Ok(isUpdate);
    }

    /** Insert a list of entries one by one, stopping at the first that finds no space. */
    method PutAll(es: seq<Entry>) returns (ok: bool)
      requires Sorted(entries)
      modifies this
      ensures ok <==> InsertAll(old(View()), es).Some?
      ensures ok ==> InsertAll(old(View()), es) == Some(View())
    {
      ghost var start := View();
      var i := 0;
      while i < |es|
        invariant 0 <= i <= |es|
        invariant Sorted(entries) && InsertAll(start, es) == InsertAll(View(), es[i..])
      {
        var rest := es[i..];
        assert rest[0] == es[i] && rest[1..] == es[i + 1..];
        var stored := Put(es[i]);
        if stored.Err? {
          return false;
        }
        i := i + 1;
      }
      return true;
    }

    /** Search by key: the same answer as a linear search. */
    method Find(k: Key) returns (r: Option<Entry>)
      requires Sorted(entries)
      ensures r == Lookup(entries, k)
    {
      PositionFinds(entries, k);
      var pos := Search(k);
      if pos < |entries| && entries[pos].key == k {
        r := Some(entries[pos]);
      } else {
        r := None;
      }
    }

    /** Remove by key, returning the entry that was stored. */
    method Delete(k: Key) returns (r: Option<Entry>)
      requires Sorted(entries)
      modifies this
      ensures View() == Remove(old(View()), k)
      ensures r == Lookup(old(entries), k)
    {
      PositionFinds(entries, k);
      var pos := Search(k);
      if pos >= |entries| || entries[pos].key != k {
        return None;
      }
      r := Some(entries[pos]);
      var entrySize := Size(entries[pos]);
      var rest := entries[..pos] + entries[pos + 1..];
      assert rest == Without(entries, k) && |rest| == |entries| - 1 && entrySize == HitSize(entries, k);
      var h := Touched(header.(numKeys := AsU16(|rest|), freeSpace := AsU16(header.freeSpace + AsU16(entrySize))));
      if IsUnderfull(h, FLAG_UNDERFULL_BELOW) {
        h := h.(flags := SetUnderfull(h.flags));
      }
      entries := rest;
      header := h;
    }
  }
}
