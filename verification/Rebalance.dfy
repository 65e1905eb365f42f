/** Redistribution between two neighbouring leaves: borrowing one entry and merging. */
module Rebalance {
  import opened Bytes
  import opened Results
  import opened Entries
  import opened LeafNodes

  /** 40% of the number of 50-byte entries that fit the page body. */
  const MIN_KEYS: nat := (BODY_SIZE / 50) * 4 / 10

  predicate CanBorrow(donorKeys: nat, borrowerKeys: nat) {
    var excess, need := SaturatingSub(donorKeys, MIN_KEYS), SaturatingSub(MIN_KEYS, borrowerKeys);
    excess > 0 && excess >= need
  }

  predicate CanMerge(left: Leaf, right: Leaf) {
    Total(left.entries) + Total(right.entries) <= BODY_SIZE && |left.entries| + |right.entries| < U16
  }

  /** The donor after giving up entries: counted anew, but with its old free-space figure. */
  function Donated(donor: Leaf, kept: seq<Entry>): Leaf {
    donor.(entries := kept, header := donor.header.(numKeys := AsU16(|kept|)))
  }

  datatype Outcome =
    | Moved(left: Leaf, right: Leaf, separator: Key)
    | NotPossible
    | NoRoom

  /** The left leaf takes the right leaf's first entry. */
  function BorrowFromRight(left: Leaf, right: Leaf): Outcome {
    if right.entries == [] || !CanBorrow(right.header.numKeys, left.header.numKeys) then NotPossible
    else if !HasSpace(left.header, Size(right.entries[0])) then NoRoom
    else
      var l, r := Insert(left, right.entries[0]), Donated(right, right.entries[1..]);
      UpsertMembers(left.entries, right.entries[0]);
      Moved(l, r, if r.entries != [] then r.entries[0].key else l.entries[|l.entries| - 1].key)
  }

  /** The right leaf takes the left leaf's last entry. */
  function BorrowFromLeft(left: Leaf, right: Leaf): Outcome {
    if left.entries == [] || !CanBorrow(left.header.numKeys, right.header.numKeys) then NotPossible
    else
      var n := |left.entries| - 1;
      if !HasSpace(right.header, Size(left.entries[n])) then NoRoom
      else
        var l, r := Donated(left, left.entries[..n]), Insert(right, left.entries[n]);
        UpsertMembers(right.entries, left.entries[n]);
        Moved(l, r, if n > 0 then l.entries[n - 1].key else r.entries[0].key)
  }

  /** The right leaf's entries go into the left one; nothing when the check or an insert refuses. */
  function MergeRight(left: Leaf, right: Leaf): Option<Leaf> {
    if !CanMerge(left, right) then None
    else match InsertAll(left, right.entries)
      case None => None
      case Some(l) => Some(l.(next := right.next))
  }

  /** The left leaf's entries go in front of the right ones; free space is left as it was. */
  function MergeLeft(left: Leaf, right: Leaf): Option<Leaf> {
    if !CanMerge(left, right) then None
    else
      var es := left.entries + right.entries;
      Some(right.(entries := es, header := right.header.(numKeys := AsU16(|es|)), prev := left.prev))
  }

  // ------------------------------------------------------------------ conservation

  lemma FirstOfRight(a: seq<Entry>, b: seq<Entry>)
    requires Sorted(a + b) && b != []
    ensures AllBelow(a, b[0].key) && (a + [b[0]]) + b[1..] == a + b
    ensures Sorted(a + [b[0]]) && Sorted(b[1..])
    ensures |b| > 1 ==> AllBelow(a + [b[0]], b[1].key) && AllFrom(b[1..], b[1].key)
  {
    HeadIsLast(a, b);
    var s, x := a + b, a + [b[0]];
    assert x + b[1..] == s;
    assert s[..|x|] == x && s[|x|..] == b[1..];
    SortedTake(s, |x|);
    SortedDrop(s, |x|);
    if |b| > 1 {
      DividesAt(s, |x|);
    }
  }

  lemma LastOfLeft(a: seq<Entry>, b: seq<Entry>)
    requires Sorted(a + b) && a != []
    ensures var n := |a| - 1; AllAbove(b, a[n].key) && a[..n] + ([a[n]] + b) == a + b
    ensures var n := |a| - 1; Sorted(a[..n]) && Sorted([a[n]] + b)
  {
    var n := |a| - 1;
    var s := a + b;
    assert a[..n] + ([a[n]] + b) == s;
    assert s[..n] == a[..n] && s[n..] == [a[n]] + b;
    SortedTake(s, n);
    SortedDrop(s, n);
    forall i | 0 <= i < |b| ensures Less(a[n].key, b[i].key) {
      assert s[n] == a[n] && s[|a| + i] == b[i];
    }
  }

  lemma DonorStaysValid(donor: Leaf, kept: seq<Entry>, e: Entry)
    requires Valid(donor) && Sorted(kept)
    requires Total(kept) + Size(e) == Total(donor.entries) && |kept| < |donor.entries|
    ensures Valid(Donated(donor, kept)) && !Exact(Donated(donor, kept))
  {
    CountFits(donor.entries);
  }

  /** A borrow from the right moves one entry across the boundary and changes nothing else: the entries
      of the two leaves, read in order, stay the same. */
  lemma BorrowFromRightConserves(left: Leaf, right: Leaf)
    requires Sorted(left.entries + right.entries) && BorrowFromRight(left, right).Moved?
    ensures var o := BorrowFromRight(left, right);
            o.left.entries + o.right.entries == left.entries + right.entries
  {
    FirstOfRight(left.entries, right.entries);
    AppendStep(left, right.entries[0]);
  }

  /** On valid leaves it keeps both valid; the borrower's figure stays as exact as it was, the donor's
      becomes inexact; and the new separator divides them. */
  lemma BorrowFromRightDivides(left: Leaf, right: Leaf)
    requires Valid(left) && Valid(right) && Sorted(left.entries + right.entries)
    requires BorrowFromRight(left, right).Moved?
    ensures var o := BorrowFromRight(left, right);
            && Valid(o.left) && (Exact(o.left) <==> Exact(left))
            && Valid(o.right) && !Exact(o.right) && o.right.entries != []
            && AllBelow(o.left.entries, o.separator) && AllFrom(o.right.entries, o.separator)
  {
    var e := right.entries[0];
    FirstOfRight(left.entries, right.entries);
    AppendStep(left, e);
    assert right.entries == [e] + right.entries[1..];
    TotalConcat([e], right.entries[1..]);
    TotalOne(e);
    DonorStaysValid(right, right.entries[1..], e);
  }

  /** The mirror image. */
  lemma BorrowFromLeftConserves(left: Leaf, right: Leaf)
    requires Sorted(left.entries + right.entries) && BorrowFromLeft(left, right).Moved?
    ensures var o := BorrowFromLeft(left, right);
            o.left.entries + o.right.entries == left.entries + right.entries
  {
    LastOfLeft(left.entries, right.entries);
    UpsertAtFront(right.entries, left.entries[|left.entries| - 1]);
  }

  lemma BorrowFromLeftValid(left: Leaf, right: Leaf)
    requires Valid(left) && Valid(right) && Sorted(left.entries + right.entries)
    requires BorrowFromLeft(left, right).Moved?
    ensures var o := BorrowFromLeft(left, right);
            && Valid(o.right) && (Exact(o.right) <==> Exact(right))
            && Valid(o.left) && !Exact(o.left) && o.left.entries != []
  {
    var n := |left.entries| - 1;
    BorrowerStaysValid(left, right);
    LastTotal(left.entries);
    DonorStaysValid(left, left.entries[..n], left.entries[n]);
  }

  lemma BorrowerStaysValid(left: Leaf, right: Leaf)
    requires Valid(right) && Sorted(left.entries + right.entries) && left.entries != []
    requires HasSpace(right.header, Size(left.entries[|left.entries| - 1]))
    ensures var r := Insert(right, left.entries[|left.entries| - 1]); Valid(r) && (Exact(r) <==> Exact(right))
  {
    var e := left.entries[|left.entries| - 1];
    LastOfLeft(left.entries, right.entries);
    UpsertAtFront(right.entries, e);
    InsertKeepsValid(right, e);
  }

  lemma LastTotal(es: seq<Entry>)
    requires es != []
    ensures Total(es) == Total(es[..|es| - 1]) + Size(es[|es| - 1]) && es == es[..|es| - 1] + [es[|es| - 1]]
  {
    var n := |es| - 1;
    var front, last := es[..n], [es[n]];
    SplitLast(es);
    TotalConcat(front, last);
    TotalOne(es[n]);
  }

  lemma SplitLast<T>(s: seq<T>)
    requires s != []
    ensures s == s[..|s| - 1] + [s[|s| - 1]]
  {
  }

  /** Its separator never divides the leaves: it is the donor's own last key, and the donor keeps it, while a
      search for a key equal to a separator goes to the right child. */
  lemma BorrowFromLeftMisroutes(left: Leaf, right: Leaf)
    requires Valid(left) && Valid(right) && Sorted(left.entries + right.entries)
    requires BorrowFromLeft(left, right).Moved?
    ensures var o := BorrowFromLeft(left, right);
            && o.separator in KeysOf(o.left.entries)
            && o.separator !in KeysOf(o.right.entries)
            && !AllBelow(o.left.entries, o.separator)
  {
    var o := BorrowFromLeft(left, right);
    BorrowFromLeftConserves(left, right);
    BorrowFromLeftValid(left, right);
    var n := |left.entries| - 1;
    var s := left.entries + right.entries;
    assert o.left.entries[n - 1].key == o.separator && KeysOf(o.left.entries)[n - 1] == o.separator;
    LessIrreflexive(o.separator);
    forall i | 0 <= i < |o.right.entries| ensures KeysOf(o.right.entries)[i] != o.separator {
      assert s[n + i] == o.right.entries[i] && s[n - 1] == o.left.entries[n - 1];
    }
  }

  /** When an entry is borrowed: the donor has more than the minimum of 130 entries, both have twice that together,
      and the borrower's header shows room for the entry.  The donor never goes below the minimum. */
  lemma BorrowFromRightIff(left: Leaf, right: Leaf)
    requires Valid(left) && Valid(right)
    ensures BorrowFromRight(left, right).Moved? <==>
              && |right.entries| > 130 && |left.entries| + |right.entries| >= 260
              && Size(right.entries[0]) <= left.header.freeSpace
    ensures BorrowFromRight(left, right).Moved? ==> |BorrowFromRight(left, right).right.entries| >= 130
  {
    MinimumIs();
  }

  lemma BorrowFromLeftIff(left: Leaf, right: Leaf)
    requires Valid(left) && Valid(right)
    ensures BorrowFromLeft(left, right).Moved? <==>
              && |left.entries| > 130 && |left.entries| + |right.entries| >= 260
              && Size(left.entries[|left.entries| - 1]) <= right.header.freeSpace
    ensures BorrowFromLeft(left, right).Moved? ==> |BorrowFromLeft(left, right).left.entries| >= 130
  {
    MinimumIs();
  }

  lemma MinimumIs()
    ensures MIN_KEYS == 130
  {
  }

  lemma MergeRightConserves(left: Leaf, right: Leaf)
    requires Sorted(left.entries + right.entries) && MergeRight(left, right).Some?
    ensures var m := MergeRight(left, right).value;
            && m.entries == left.entries + right.entries
            && m.next == right.next && m.prev == left.prev && m.header.nodeId == left.header.nodeId
            && (Valid(left) ==> Valid(m) && (Exact(m) <==> Exact(left)))
  {
    InsertAllAppends(left, right.entries);
  }

  /** Merging into the right leaf keeps the header honest exactly when the stale figure still is a
      lower bound; for a leaf with an exact figure, exactly when there was nothing to merge. */
  lemma MergeLeftSoundIff(left: Leaf, right: Leaf)
    requires Valid(left) && Valid(right) && MergeLeft(left, right).Some?
    ensures var m := MergeLeft(left, right).value;
            && m.entries == left.entries + right.entries && m.header.numKeys == |m.entries|
            && m.next == right.next && m.prev == left.prev && m.header.nodeId == right.header.nodeId
            && (Sound(m) <==> Total(left.entries) + Total(right.entries) + right.header.freeSpace <= LEAF_AREA)
            && (Exact(right) ==> (Sound(m) <==> left.entries == []))
  {
    TotalConcat(left.entries, right.entries);
    TotalBoundsCount(left.entries);
    if left.entries == [] {
      assert Total(left.entries) == 0;
    }
  }

  /** The size check alone does not decide: a merge into a valid left leaf succeeds if and only if the header of
      that leaf shows the room, which for an exact figure means that both leaves together fit the leaf area. */
  lemma MergeRightSucceedsIff(left: Leaf, right: Leaf)
    requires Valid(left) && Sorted(left.entries + right.entries)
    ensures MergeRight(left, right).Some? <==> Total(right.entries) <= left.header.freeSpace
    ensures Exact(left) ==>
              (MergeRight(left, right).Some? <==> Total(left.entries) + Total(right.entries) <= LEAF_AREA)
  {
    InsertAllIff(left, right.entries);
    TotalBoundsCount(left.entries);
    TotalBoundsCount(right.entries);
  }

  /** A merge into the right leaf is done exactly when the entries take at most 16324 bytes together, 16 more than the
      leaf area; the check on their number never decides. */
  lemma MergeLeftDoneIff(left: Leaf, right: Leaf)
    ensures MergeLeft(left, right).Some? <==> Total(left.entries) + Total(right.entries) <= 16324
  {
    TotalBoundsCount(left.entries);
    TotalBoundsCount(right.entries);
  }

  /** Leaves that the check admits although they do not fit: two entries of 8156 bytes. */
  lemma TwoLargeLeaves(next: nat) returns (left: Leaf, right: Leaf)
    ensures Valid(left) && Valid(right) && Exact(left) && Exact(right) && CanMerge(left, right)
    ensures left.entries == [LargeEntry(0)] && right.entries == [LargeEntry(1)]
    ensures left.header.nodeType == right.header.nodeType == LEAF && right.next == next && left.prev == 0
    ensures Total(left.entries) + Total(right.entries) == LEAF_AREA + 4
    ensures right.header == InsertHeader(NewLeaf(5), LargeEntry(1))
  {
    left, right := Insert(NewLeaf(4), LargeEntry(0)), Insert(NewLeaf(5), LargeEntry(1)).(next := next);
    SingletonLeaf(4, LargeEntry(0));
    SingletonLeaf(5, LargeEntry(1));
  }

  function LargeEntry(k: byte): Entry {
    Entry([k], Zeros(8144), 0)
  }

  /** So the check is too weak for what follows it: leaves pass it whose merge to the left is refused half-way
      and whose merge to the right runs over the leaf area. */
  lemma MergeCheckTooWeak()
    ensures exists left, right ::
              && Valid(left) && Valid(right) && Exact(left) && Exact(right)
              && CanMerge(left, right) && Sorted(left.entries + right.entries)
              && MergeRight(left, right).None?
              && MergeLeft(left, right).Some? && Total(MergeLeft(left, right).value.entries) > LEAF_AREA
  {
    var left, right := TwoLargeLeaves(0);
    assert Less([0], [1]);
    assert Sorted(left.entries + right.entries);
    MergeRightSucceedsIff(left, right);
    TotalConcat(left.entries, right.entries);
  }

  lemma SingletonLeaf(page: nat, e: Entry)
    requires Size(e) <= LEAF_AREA
    ensures var l := Insert(NewLeaf(page), e); Valid(l) && Exact(l) && l.entries == [e] && Total(l.entries) == Size(e)
  {
    NewLeafValid(page);
    AppendStep(NewLeaf(page), e);
    TotalOne(e);
  }

  // ------------------------------------------------------------------- the methods

  /** `borrow_from_right_leaf` and its mirror.  When the borrower turns out to be full the donor has
      already lost the entry: the two nodes must then be thrown away, not written back. */
  method BorrowFromRightLeaf(underfull: LeafNode, donor: LeafNode) returns (r: Outcome)
    requires underfull != donor && Sorted(underfull.entries)
    modifies underfull, donor
    ensures r == BorrowFromRight(old(underfull.View()), old(donor.View()))
    ensures r.Moved? ==> underfull.View() == r.left && donor.View() == r.right
    ensures r.NotPossible? ==> underfull.View() == old(underfull.View()) && donor.View() == old(donor.View())
    ensures r.NoRoom? ==> underfull.View() == old(underfull.View())
                          && donor.View() == Donated(old(donor.View()), old(donor.entries)[1..])
  {
    if |donor.entries| == 0 {
      return NotPossible;
    }
    if !CanBorrow(donor.header.numKeys, underfull.header.numKeys) {
      return NotPossible;
    }
    var e := donor.entries[0];
    Donate(donor, donor.entries[1..]);
    var stored := underfull.Put(e);
    if stored.Err? {
      return NoRoom;
    }
    UpsertMembers(old(underfull.entries), e);
    var sep := if |donor.entries| > 0 then donor.entries[0].key else underfull.entries[|underfull.entries| - 1].key;
    return Moved(underfull.View(), donor.View(), sep);
  }

  method Donate(donor: LeafNode, kept: seq<Entry>)
    modifies donor
    ensures donor.View() == Donated(old(donor.View()), kept)
  {
    donor.entries := kept;
    donor.header := donor.header.(numKeys := AsU16(|donor.entries|));
  }

  method BorrowFromLeftLeaf(underfull: LeafNode, donor: LeafNode) returns (r: Outcome)
    requires underfull != donor && Sorted(underfull.entries)
    modifies underfull, donor
    ensures r == BorrowFromLeft(old(donor.View()), old(underfull.View()))
    ensures r.Moved? ==> donor.View() == r.left && underfull.View() == r.right
    ensures r.NotPossible? ==> underfull.View() == old(underfull.View()) && donor.View() == old(donor.View())
    ensures r.NoRoom? ==> underfull.View() == old(underfull.View())
                          && donor.View() == Donated(old(donor.View()), old(donor.entries)[..|old(donor.entries)| - 1])
  {
    if |donor.entries| == 0 {
      return NotPossible;
    }
    if !CanBorrow(donor.header.numKeys, underfull.header.numKeys) {
      return NotPossible;
    }
    var n := |donor.entries| - 1;
    var e := donor.entries[n];
    Donate(donor, donor.entries[..n]);
    var stored := underfull.Put(e);
    if stored.Err? {
      return NoRoom;
    }
    assert donor.View() == Donated(old(donor.View()), old(donor.entries)[..n]);
    assert underfull.View() == Insert(old(underfull.View()), e);
    UpsertMembers(old(underfull.entries), e);
    var sep := if n > 0 then donor.entries[n - 1].key else underfull.entries[0].key;
    return Moved(donor.View(), underfull.View(), sep);
  }

  /** `merge_leaf_right_into_left`, up to the relinking of the following page. */
  method MergeRightIntoLeft(left: LeafNode, right: LeafNode) returns (ok: bool)
    requires left != right && Sorted(left.entries)
    modifies left, right
    ensures ok <==> MergeRight(old(left.View()), old(right.View())).Some?
    ensures ok ==> MergeRight(old(left.View()), old(right.View())) == Some(left.View()) && right.entries == []
    ensures !CanMerge(old(left.View()), old(right.View())) ==>
              left.View() == old(left.View()) && right.View() == old(right.View())
  {
    if !CanMerge(left.View(), right.View()) {
      return false;
    }
    var moved := right.entries;
    right.entries := [];
    ok := left.PutAll(moved);
    if !ok {
      return false;
    }
    left.next := right.next;
    return true;
  }

  /** Insert entries at the front, the last one first. */
  method PutInFront(node: LeafNode, es: seq<Entry>)
    modifies node
    ensures node.View() == old(node.View()).(entries := es + old(node.entries))
  {
    var i := |es|;
    while i > 0
      invariant 0 <= i <= |es|
      invariant node.View() == old(node.View()).(entries := es[i..] + old(node.entries))
    {
      i := i - 1;
      node.entries := [es[i]] + node.entries;
      assert [es[i]] + es[i + 1..] == es[i..];
    }
    assert es[0..] == es;
  }

  /** `merge_leaf_left_into_right`, up to the relinking of the preceding page. */
  method MergeLeftIntoRight(left: LeafNode, right: LeafNode) returns (ok: bool)
    requires left != right
    modifies left, right
    ensures ok <==> MergeLeft(old(left.View()), old(right.View())).Some?
    ensures ok ==> MergeLeft(old(left.View()), old(right.View())) == Some(right.View()) && left.entries == []
    ensures !ok ==> left.View() == old(left.View()) && right.View() == old(right.View())
  {
    if !CanMerge(left.View(), right.View()) {
      return false;
    }
    var moved := left.entries;
    left.entries := [];
    PutInFront(right, moved);
    right.header := right.header.(numKeys := AsU16(|right.entries|));
    right.prev := left.prev;
    return true;
  }
}
