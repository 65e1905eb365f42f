/** Exactly when a `put` on a search tree is a map update as seen by `get`. */
module PutAsUpdate {
  import opened Bytes
  import opened Results
  import opened Entries
  import opened LeafOps
  import opened SearchTree
  import opened TreeUpdate
  import opened TreePut

  /** The contents of a tree around the leaf a key leads to. */
  ghost predicate Around(s: State, t: Shape, k: Key, before: seq<Entry>, after: seq<Entry>)
    requires Placed(s, t)
  {
    && Contents(s.pages, t) == before + (TargetLeaf(s, t, k).entries + after)
    && Sorted(before + (TargetLeaf(s, t, k).entries + after))
    && AllBelow(before, k) && AllAbove(after, k)
  }

  lemma CutAround(s: State, t: Shape, k: Key) returns (before: seq<Entry>, after: seq<Entry>)
    requires Placed(s, t) && IsTree(s.pages, t)
    ensures Around(s, t, k, before, after)
  {
    var pre, post := Descent(s.pages, t, k);
    before, after := Stored(s.pages, pre), Stored(s.pages, post);
    StoredAround(s.pages, pre, [Target(s.pages, t, k)], post);
    StoredOne(s.pages, Target(s.pages, t, k));
    TreeSorted(s.pages, t);
  }

  lemma MiddleBeforeTail(a: seq<Entry>, m: seq<Entry>, b: seq<Entry>)
    requires Sorted(a + (m + b))
    ensures forall i, j :: 0 <= i < |m| && 0 <= j < |b| ==> Less(m[i].key, b[j].key)
    ensures forall i, j :: 0 <= i < |a| && 0 <= j < |m| ==> Less(a[i].key, m[j].key)
  {
    var s := a + (m + b);
    forall i, j | 0 <= i < |m| && 0 <= j < |b| ensures Less(m[i].key, b[j].key) {
      assert s[|a| + i] == m[i] && s[|a| + |m| + j] == b[j];
    }
    forall i, j | 0 <= i < |a| && 0 <= j < |m| ensures Less(a[i].key, m[j].key) {
      assert s[i] == a[i] && s[|a| + j] == m[j];
    }
  }

  /** The condition a caller can check is that nothing is stored after the leaf. */
  lemma LatestIsNoTail(s: State, t: Shape, k: Key, before: seq<Entry>, after: seq<Entry>)
    requires Placed(s, t) && Around(s, t, k, before, after)
    ensures Latest(s, t, k) <==> after == []
  {
    var m := TargetLeaf(s, t, k).entries;
    var all := before + (m + after);
    if after == [] {
      forall x | x in all && Less(k, x.key) ensures x in m {
        if x in before {
          NotBelow(x.key, k);
        }
      }
    } else {
      var x := after[0];
      assert all[|before| + |m|] == x;
      MiddleBeforeTail(before, m, after);
      if x in m {
        LessIrreflexive(x.key);
      }
    }
  }

  /** A search for a key at or above some key of the leaf sees the leaf and what follows it. */
  lemma FoundFrom(s: State, t: Shape, k: Key, before: seq<Entry>, after: seq<Entry>, sep: Key, q: Key)
    requires Placed(s, t) && IsTree(s.pages, t) && Around(s, t, k, before, after)
    requires AllBelow(before, sep) && AtMost(sep, q)
    ensures Found(s.pages, t, q) == Lookup(TargetLeaf(s, t, k).entries + after, q)
  {
    SearchIsLinear(s.pages, t, q);
    LookupConcat(before, TargetLeaf(s, t, k).entries + after, q);
    BelowWeaken(before, sep, q);
    LookupMissing(before, q);
  }

  lemma BeforeSeparator(before: seq<Entry>, m: seq<Entry>, after: seq<Entry>, k: Key, x: Entry)
    requires Sorted(before + (m + after)) && AllBelow(before, k) && (x in m || x.key == k)
    ensures AllBelow(before, x.key)
  {
    MiddleBeforeTail(before, m, after);
  }

  lemma SeparatorOrigin(m: seq<Entry>, e: Entry, l: seq<Entry>, r: seq<Entry>)
    requires r != [] && (l + r == m || l + r == Upsert(m, e))
    ensures r[0] in m || r[0].key == e.key
  {
    assert (l + r)[|l|] == r[0];
    UpsertMembers(m, e);
  }

  // ------------------------------------------------------------------- the two cases

  /** With nothing after the leaf, the put is an update at `q` unless `q` is a key it drops. */
  lemma LastSplitAt(s: State, t: Shape, e: Entry, before: seq<Entry>, q: Key)
    requires Placed(s, t) && IsTree(s.pages, t) && PutState(s, t, e).1 && PutSplits(s, t, e)
    requires Around(s, t, e.key, before, [])
    ensures Placed(PutState(s, t, e).0, PutShape(s, t, e))
    ensures var l := TargetLeaf(s, t, e.key);
            IsUpdateAt(s, t, e, q) <==> (q != e.key || !Drops(l, e) || Lookup(l.entries, q) == Some(e))
  {
    var p, l := Target(s.pages, t, e.key), TargetLeaf(s, t, e.key);
    PutKeepsPlaced(s, t, e);
    TargetIsPage(s.pages, t, e.key);
    var o := SplitPutState(s, t, e);
    SplitFound(s, t, p, o.leaf, o.right, o.separator, q);
    if Less(q, o.separator) && Target(s.pages, t, q) != p {
    } else {
      if Target(s.pages, t, q) != p {
        SeparatorOrigin(l.entries, e, o.leaf.entries, o.right.entries);
        BeforeSeparator(before, l.entries, [], e.key, o.right.entries[0]);
        LessTotal(q, o.separator);
        FoundFrom(s, t, e.key, before, [], o.separator, q);
        assert l.entries + [] == l.entries;
      }
      UpsertLookup(l.entries, e, q);
    }
  }

  /** With something after the leaf, the first such key is lost. */
  lemma InnerSplitLoses(s: State, t: Shape, e: Entry, before: seq<Entry>, after: seq<Entry>)
    requires Placed(s, t) && IsTree(s.pages, t) && PutState(s, t, e).1 && PutSplits(s, t, e)
    requires Around(s, t, e.key, before, after) && after != []
    ensures Placed(PutState(s, t, e).0, PutShape(s, t, e))
    ensures Found(s.pages, t, after[0].key) == Some(after[0])
    ensures Found(PutState(s, t, e).0.pages, PutShape(s, t, e), after[0].key) == None
    ensures after[0].key != e.key
  {
    var p, l, q := Target(s.pages, t, e.key), TargetLeaf(s, t, e.key), after[0].key;
    PutKeepsPlaced(s, t, e);
    TargetIsPage(s.pages, t, e.key);
    var o := SplitPutState(s, t, e);
    var all := o.leaf.entries + o.right.entries;
    TailKeyAbove(s, t, e, before, after, all);
    assert all[|o.leaf.entries|] == o.right.entries[0];
    NotBelow(o.separator, q);
    NotBelow(e.key, q);
    SplitFound(s, t, p, o.leaf, o.right, o.separator, q);
    LookupMissing(all, q);
    StoredAfter(s, t, e.key, before, after);
  }

  lemma TailKeyAbove(s: State, t: Shape, e: Entry, before: seq<Entry>, after: seq<Entry>, all: seq<Entry>)
    requires Placed(s, t) && Around(s, t, e.key, before, after) && after != []
    requires var m := TargetLeaf(s, t, e.key).entries; all == m || all == Upsert(m, e)
    ensures AllBelow(all, after[0].key)
  {
    var m := TargetLeaf(s, t, e.key).entries;
    MiddleBeforeTail(before, m, after);
    UpsertMembers(m, e);
    forall i | 0 <= i < |all| ensures Less(all[i].key, after[0].key) {
      assert all[i] in m || all[i] == e;
    }
  }

  lemma StoredAfter(s: State, t: Shape, k: Key, before: seq<Entry>, after: seq<Entry>)
    requires Placed(s, t) && IsTree(s.pages, t) && Around(s, t, k, before, after) && after != []
    ensures Found(s.pages, t, after[0].key) == Some(after[0])
  {
    var all := before + (TargetLeaf(s, t, k).entries + after);
    var i := |before| + |TargetLeaf(s, t, k).entries|;
    assert all[i] == after[0];
    LookupAt(all, i);
    SearchIsLinear(s.pages, t, after[0].key);
  }

  /** A successful put on a search tree is a map update for every search if and only if it does not
      split, or it splits the last non-empty leaf and does not drop the entry. */
  lemma PutIsUpdateIff(s: State, t: Shape, e: Entry)
    requires Placed(s, t) && IsTree(s.pages, t) && PutState(s, t, e).1
    ensures Placed(PutState(s, t, e).0, PutShape(s, t, e))
    ensures (forall k :: IsUpdateAt(s, t, e, k)) <==> Lossless(s, t, e)
  {
    PutKeepsPlaced(s, t, e);
    if !PutSplits(s, t, e) {
      forall k ensures IsUpdateAt(s, t, e, k) {
        PlainPutIsUpdate(s, t, e, k);
      }
    } else {
      var before, after := CutAround(s, t, e.key);
      LatestIsNoTail(s, t, e.key, before, after);
      if after == [] {
        forall k
          ensures IsUpdateAt(s, t, e, k) <==>
                  (k != e.key || !Drops(TargetLeaf(s, t, e.key), e)
                      || Lookup(TargetLeaf(s, t, e.key).entries, k) == Some(e))
        {
          LastSplitAt(s, t, e, before, k);
        }
        assert IsUpdateAt(s, t, e, e.key) ==> Lossless(s, t, e);
      } else {
        InnerSplitLoses(s, t, e, before, after);
        assert !IsUpdateAt(s, t, e, after[0].key);
      }
    }
  }

  /** A put that reports an error changes nothing a search can see. */
  lemma FailedPutChangesNothing(s: State, t: Shape, e: Entry)
    requires Placed(s, t) && !PutState(s, t, e).1
    ensures PutShape(s, t, e) == t && PutState(s, t, e).0.root == s.root
    ensures forall q :: q in s.pages ==> q in PutState(s, t, e).0.pages && PutState(s, t, e).0.pages[q] == s.pages[q]
  {
    TargetIsPage(s.pages, t, e.key);
  }
}
