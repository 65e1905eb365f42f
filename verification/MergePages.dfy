/** What the merge check means for pages: a merge to the right may write entries under the link fields. */
module MergePages {
  import opened Bytes
  import opened Results
  import opened Entries
  import opened LeafNodes
  import opened Rebalance
  import opened SearchTree
  import opened PageCodec

  /** The leaf left by a merge to the right is read back from its page if and only if its keys have at most 255
      bytes and both leaves together fit the leaf area, or the bytes of the last entry that reach into the
      link fields are the bytes of the links. */
  lemma MergeLeftReadableIff(left: Leaf, right: Leaf)
    requires MergeLeft(left, right).Some? && LeafWritable(MergeLeft(left, right).value)
    ensures var m, n := MergeLeft(left, right).value, Total(left.entries) + Total(right.entries);
            && n == Total(m.entries)
            && (Parse(LeafImage(m)) == Ok(LeafPage(m)) <==>
                KeysShort(left.entries) && KeysShort(right.entries)
                && (n <= LEAF_AREA
                    || EntriesBytes(m.entries)[LEAF_AREA..]
                       == (ToLe(right.next, 8) + ToLe(left.prev, 8))[..n - LEAF_AREA]))
  {
    var m := MergeLeft(left, right).value;
    TotalConcat(left.entries, right.entries);
    LeafRoundTripIff(m);
    BothShort(left.entries, right.entries);
  }

  lemma BothShort(a: seq<Entry>, b: seq<Entry>)
    ensures KeysShort(a + b) <==> KeysShort(a) && KeysShort(b)
  {
    forall i | 0 <= i < |a| ensures (a + b)[i] == a[i] { }
    forall i | 0 <= i < |b| ensures (a + b)[|a| + i] == b[i] { }
  }

  /** The entries end with the LSN of the last one. */
  lemma EndsWithLsn(a: Entry, b: Entry)
    ensures |EntriesBytes([a, b])| == Size(a) + Size(b)
    ensures EntriesBytes([a, b])[Size(a) + Size(b) - 8..] == ToLe(b.lsn, 8)
  {
    var es := [a, b];
    assert es[1..] == [b] && [b][1..] == [];
    assert PutMany(EntryBytes, [b]) == EntryBytes(b) + [];
    assert EntriesBytes(es) == EntryBytes(a) + EntryBytes(b);
    var front := ToLe(|b.key|, 1) + (b.key + (ToLe(|b.value|, 2) + b.value));
    assert EntryBytes(b) == front + ToLe(b.lsn, 8);
    assert EntriesBytes(es) == (EntryBytes(a) + front) + ToLe(b.lsn, 8);
  }

  /** Such a page is among those the check admits: two valid leaves with exact figures whose merge is written
      to a page that does not hold what was merged. */
  lemma MergeCorruptsPage()
    ensures exists left, right ::
              && Valid(left) && Valid(right) && Exact(left) && Exact(right) && CanMerge(left, right)
              && Sorted(left.entries + right.entries)
              && MergeLeft(left, right).Some? && LeafWritable(MergeLeft(left, right).value)
              && Parse(LeafImage(MergeLeft(left, right).value)) != Ok(LeafPage(MergeLeft(left, right).value))
  {
    var left, right := TwoLargeLeaves(7);
    var a, b := LargeEntry(0), LargeEntry(1);
    assert Less([0], [1]);
    assert Sorted(left.entries + right.entries);
    var m := MergeLeft(left, right).value;
    assert m.entries == [a, b];
    TotalConcat(left.entries, right.entries);
    LargeMergeWritable(left, right);
    MergeLeftReadableIff(left, right);
    EndsWithLsn(a, b);
    ZeroBytes(8, 4);
    TailDiffers(EntriesBytes([a, b]), LEAF_AREA, ToLe(0, 8), ToLe(7, 8), ToLe(0, 8));
  }

  lemma TailDiffers(bytes: seq<byte>, area: nat, lsn: seq<byte>, next: seq<byte>, prev: seq<byte>)
    requires |bytes| == area + 4 >= 8 && |lsn| == 8 && bytes[|bytes| - 8..] == lsn
    requires |next| == 8 && lsn[4] != next[0]
    ensures bytes[area..] != (next + prev)[..4]
  {
    assert bytes[area..][0] == bytes[|bytes| - 8..][4];
  }

  lemma {:induction false} ZeroBytes(n: nat, i: nat)
    requires i < n
    ensures ToLe(0, n)[i] == 0
  {
    if i > 0 {
      ZeroBytes(n - 1, i - 1);
    }
  }

  lemma LargeMergeWritable(left: Leaf, right: Leaf)
    requires left.entries == [LargeEntry(0)] && right.entries == [LargeEntry(1)] && CanMerge(left, right)
    requires right.header == InsertHeader(NewLeaf(5), LargeEntry(1)) && right.next == 7 && left.prev == 0
    ensures LeafWritable(MergeLeft(left, right).value)
  {
    TotalConcat(left.entries, right.entries);
  }
}
