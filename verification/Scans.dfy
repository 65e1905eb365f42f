/** Scans over leaves: which entries are wanted, how a list of leaves is threaded by its links, and what
    following the links from a leaf yields. */
module Scans {
  import opened Bytes
  import opened Results
  import opened Entries
  import opened SearchTree
  import opened TreeUpdate

  // ---------------------------------------------------------------- wanted entries

  predicate Wanted(e: Entry, start: Option<Key>, end: Option<Key>, snapshot: nat) {
    && (start.Some? ==> !Less(e.key, start.value))
    && (end.Some? ==> Less(e.key, end.value))
    && e.lsn <= snapshot
  }

  /** Reference: the wanted entries, in order. */
  function Select(es: seq<Entry>, start: Option<Key>, end: Option<Key>, snapshot: nat): seq<Entry> {
    if es == [] then []
    else (if Wanted(es[0], start, end, snapshot) then [es[0]] else []) + Select(es[1..], start, end, snapshot)
  }

  lemma {:induction false} SelectConcat(a: seq<Entry>, b: seq<Entry>, start: Option<Key>, end: Option<Key>,
                                        snapshot: nat)
    ensures Select(a + b, start, end, snapshot) == Select(a, start, end, snapshot) + Select(b, start, end, snapshot)
  {
    if a == [] {
      assert a + b == b;
    } else {
      assert (a + b)[1..] == a[1..] + b && (a + b)[0] == a[0];
      SelectConcat(a[1..], b, start, end, snapshot);
      Assoc(if Wanted(a[0], start, end, snapshot) then [a[0]] else [], Select(a[1..], start, end, snapshot),
            Select(b, start, end, snapshot));
    }
  }

  lemma {:induction false} SelectNone(es: seq<Entry>, start: Option<Key>, end: Option<Key>, snapshot: nat)
    requires forall i :: 0 <= i < |es| ==> !Wanted(es[i], start, end, snapshot)
    ensures Select(es, start, end, snapshot) == []
  {
    if es != [] {
      SelectNone(es[1..], start, end, snapshot);
    }
  }

  lemma {:induction false} SelectMembers(es: seq<Entry>, start: Option<Key>, end: Option<Key>, snapshot: nat)
    ensures forall x :: x in Select(es, start, end, snapshot) <==> x in es && Wanted(x, start, end, snapshot)
  {
    if es != [] {
      SelectMembers(es[1..], start, end, snapshot);
      assert es == [es[0]] + es[1..];
    }
  }

  lemma {:induction false} SelectSorted(es: seq<Entry>, start: Option<Key>, end: Option<Key>, snapshot: nat)
    requires Sorted(es)
    ensures Sorted(Select(es, start, end, snapshot))
  {
    if es != [] {
      var rest := Select(es[1..], start, end, snapshot);
      SortedDrop(es, 1);
      SelectSorted(es[1..], start, end, snapshot);
      SelectMembers(es[1..], start, end, snapshot);
      forall i | 0 <= i < |rest| ensures Less(es[0].key, rest[i].key) {
        assert rest[i] in es[1..];
      }
      if Wanted(es[0], start, end, snapshot) {
        ConsSorted(es[0], rest);
      }
    }
  }

  /** The bounds of a scan: the start is included, the end is not. */
  predicate InRange(k: Key, start: Option<Key>, end: Option<Key>) {
    && (start.Some? ==> k == start.value || Less(start.value, k))
    && (end.Some? ==> Less(k, end.value))
  }

  /** What page `i` of a list should link to. */
  function Following(ps: seq<nat>, i: nat): nat {
    if i + 1 < |ps| then ps[i + 1] else 0
  }

  ghost predicate Link(h: Heap, ps: seq<nat>, i: nat)
    requires i < |ps|
  {
    && ps[i] != 0 && ps[i] in h && h[ps[i]].LeafPage? && Sorted(h[ps[i]].leaf.entries)
    && h[ps[i]].leaf.next == Following(ps, i)
  }

  /** Each page of the list is a sorted leaf that points to the next, the last one to nothing. */
  ghost predicate Chained(h: Heap, ps: seq<nat>) {
    forall i :: 0 <= i < |ps| ==> Link(h, ps, i)
  }

  /** The wanted entries of one leaf: once a key reaches the end bound, no later one is wanted. */
  method ScanLeaf(es: seq<Entry>, start: Option<Key>, end: Option<Key>, snapshot: nat) returns (items: seq<Entry>)
    requires Sorted(es)
    ensures items == Select(es, start, end, snapshot)
  {
    items := [];
    var i := 0;
    while i < |es|
      invariant 0 <= i <= |es|
      invariant items == Select(es[..i], start, end, snapshot)
    {
      var e := es[i];
      SelectNext(es, i, start, end, snapshot);
      if start.Some? && Less(e.key, start.value) {
        i := i + 1;
        continue;
      }
      if end.Some? && !Less(e.key, end.value) {
        SelectStops(es, i, start, end, snapshot);
        break;
      }
      if e.lsn <= snapshot {
        items := items + [e];
      }
      i := i + 1;
    }
    assert es[..|es|] == es;
  }

  lemma SelectNext(es: seq<Entry>, i: nat, start: Option<Key>, end: Option<Key>, snapshot: nat)
    requires i < |es|
    ensures Select(es[..i + 1], start, end, snapshot)
            == Select(es[..i], start, end, snapshot) + (if Wanted(es[i], start, end, snapshot) then [es[i]] else [])
  {
    assert es[..i + 1] == es[..i] + [es[i]];
    SelectConcat(es[..i], [es[i]], start, end, snapshot);
    assert [es[i]][1..] == [];
  }

  lemma SelectStops(es: seq<Entry>, i: nat, start: Option<Key>, end: Option<Key>, snapshot: nat)
    requires Sorted(es) && i < |es| && end.Some? && !Less(es[i].key, end.value)
    ensures Select(es, start, end, snapshot) == Select(es[..i], start, end, snapshot)
  {
    var rest := es[i..];
    forall j | 0 <= j < |rest| ensures !Wanted(rest[j], start, end, snapshot) {
      if j > 0 && Less(es[i + j].key, end.value) {
        LessTransitive(es[i].key, es[i + j].key, end.value);
      }
    }
    SelectNone(rest, start, end, snapshot);
    assert es == es[..i] + rest;
    SelectConcat(es[..i], rest, start, end, snapshot);
  }

  /** What the iterator yields: it stops at the first key past the end and skips what the snapshot does not see. */
  function Yielded(items: seq<Entry>, end: Option<Key>, snapshot: nat): seq<Entry> {
    if items == [] || (end.Some? && !Less(items[0].key, end.value)) then []
    else (if items[0].lsn <= snapshot then [items[0]] else []) + Yielded(items[1..], end, snapshot)
  }

  /** `ScanIter`: the items it yields one after the other. */
  method Iterate(items: seq<Entry>, end: Option<Key>, snapshot: nat) returns (yielded: seq<Entry>)
    ensures yielded == Yielded(items, end, snapshot)
  {
    yielded := [];
    var i := 0;
    while i < |items|
      invariant 0 <= i <= |items|
      invariant Yielded(items, end, snapshot) == yielded + Yielded(items[i..], end, snapshot)
    {
      YieldNext(items, i, yielded, end, snapshot);
      var goOn := end.None? || Less(items[i].key, end.value);
      if !goOn {
        break;
      }
      yielded := yielded + if items[i].lsn <= snapshot then [items[i]] else [];
      i := i + 1;
    }
    assert items[|items|..] == [];
  }

  lemma YieldNext(items: seq<Entry>, i: nat, yielded: seq<Entry>, end: Option<Key>, snapshot: nat)
    requires i < |items|
    ensures yielded + Yielded(items[i..], end, snapshot)
            == if end.Some? && !Less(items[i].key, end.value) then yielded
               else (yielded + if items[i].lsn <= snapshot then [items[i]] else [])
                    + Yielded(items[i + 1..], end, snapshot)
  {
    assert items[i..][0] == items[i] && items[i..][1..] == items[i + 1..];
    Assoc(yielded, if items[i].lsn <= snapshot then [items[i]] else [], Yielded(items[i + 1..], end, snapshot));
  }

  /** On items that were selected already, the iterator's own filter drops nothing. */
  lemma {:induction false} YieldsAll(items: seq<Entry>, end: Option<Key>, snapshot: nat)
    requires forall i :: 0 <= i < |items| ==> Wanted(items[i], None, end, snapshot)
    ensures Yielded(items, end, snapshot) == items
  {
    if items != [] {
      YieldsAll(items[1..], end, snapshot);
    }
  }

  lemma SelectedAreYielded(es: seq<Entry>, start: Option<Key>, end: Option<Key>, snapshot: nat)
    ensures var items := Select(es, start, end, snapshot); Yielded(items, end, snapshot) == items
  {
    var items := Select(es, start, end, snapshot);
    SelectMembers(es, start, end, snapshot);
    forall i | 0 <= i < |items| ensures Wanted(items[i], None, end, snapshot) {
      assert items[i] in items;
    }
    YieldsAll(items, end, snapshot);
  }

  lemma BeforeStart(es: seq<Entry>, start: Option<Key>, end: Option<Key>, snapshot: nat)
    requires start.Some? && AllBelow(es, start.value)
    ensures Select(es, start, end, snapshot) == []
  {
    SelectNone(es, start, end, snapshot);
  }

  /** A scan that starts at the leaf of its start key selects from the whole tree. */
  lemma ScanFromTarget(h: Heap, t: Shape, start: Option<Key>, end: Option<Key>, snapshot: nat,
                       pre: seq<nat>, ps: seq<nat>)
    requires Leaves(t) == pre + ps && (pre == [] || (start.Some? && AllBelow(Stored(h, pre), start.value)))
    ensures Select(Stored(h, ps), start, end, snapshot) == Select(Contents(h, t), start, end, snapshot)
  {
    StoredConcat(h, pre, ps);
    SelectConcat(Stored(h, pre), Stored(h, ps), start, end, snapshot);
    if pre != [] {
      BeforeStart(Stored(h, pre), start, end, snapshot);
    }
  }

  // --------------------------------------------------------------- along the links

  lemma SelectFromTree(h: Heap, t: Shape, start: Option<Key>, end: Option<Key>, snapshot: nat)
    requires IsTree(h, t)
    ensures var items := Select(Contents(h, t), start, end, snapshot);
            && Sorted(items)
            && (forall x :: x in items <==> x in Contents(h, t) && InRange(x.key, start, end) && x.lsn <= snapshot)
  {
    KeyOrder();
    TreeSorted(h, t);
    SelectSorted(Contents(h, t), start, end, snapshot);
    SelectMembers(Contents(h, t), start, end, snapshot);
  }

  lemma CollectNext(h: Heap, chain: seq<nat>, i: nat, start: Option<Key>, end: Option<Key>, snapshot: nat)
    requires i < |chain|
    ensures Select(Stored(h, chain[..i + 1]), start, end, snapshot)
            == Select(Stored(h, chain[..i]), start, end, snapshot)
               + Select(EntriesAt(h, chain[i]), start, end, snapshot)
  {
    assert chain[..i + 1] == chain[..i] + [chain[i]];
    StoredConcat(h, chain[..i], [chain[i]]);
    StoredOne(h, chain[i]);
    SelectConcat(Stored(h, chain[..i]), EntriesAt(h, chain[i]), start, end, snapshot);
  }

  lemma ChainSuffix(h: Heap, pre: seq<nat>, ps: seq<nat>)
    requires Chained(h, pre + ps)
    ensures Chained(h, ps)
  {
    var all := pre + ps;
    forall i | 0 <= i < |ps| ensures Link(h, ps, i) {
      assert all[|pre| + i] == ps[i] && Link(h, all, |pre| + i);
      assert Following(all, |pre| + i) == Following(ps, i);
    }
  }

  lemma {:induction false} ShapedHasLeaves(h: Heap, t: Shape)
    requires Shaped(h, t)
    ensures Leaves(t) != []
    ensures t.Branch? ==> Leaves(t.kids[0]) != [] && Leaves(t)[0] == Leaves(t.kids[0])[0]
    decreases t
  {
    if t.Branch? {
      ShapedHasLeaves(h, t.kids[0]);
    }
  }

  /** Where a scan starts: the leaf of its start key, or the leftmost. */
  ghost function StartLeaf(h: Heap, t: Shape, start: Option<Key>): nat
    requires Shaped(h, t)
  {
    ShapedHasLeaves(h, t);
    if start.Some? then Target(h, t, start.value) else Leaves(t)[0]
  }

  /** On a search tree everything on the leaves before the start leaf is below the start key. */
  lemma StartCut(h: Heap, t: Shape, start: Option<Key>) returns (pre: seq<nat>, post: seq<nat>)
    requires IsTree(h, t)
    ensures Leaves(t) == pre + ([StartLeaf(h, t, start)] + post)
    ensures pre == [] || (start.Some? && AllBelow(Stored(h, pre), start.value))
  {
    ShapedHasLeaves(h, t);
    if start.Some? {
      pre, post := Descent(h, t, start.value);
    } else {
      pre, post := [], Leaves(t)[1..];
    }
  }

  /** The leaves behind a page. */
  ghost function After(ps: seq<nat>, p: nat): seq<nat> {
    if ps == [] then [] else if ps[0] == p then ps[1..] else After(ps[1..], p)
  }

  lemma {:induction false} AfterCut(pre: seq<nat>, p: nat, post: seq<nat>)
    requires p !in pre
    ensures After(pre + ([p] + post), p) == post
  {
    var ps := pre + ([p] + post);
    if pre == [] {
      assert ps[1..] == post;
    } else {
      assert ps[1..] == pre[1..] + ([p] + post);
      AfterCut(pre[1..], p, post);
    }
  }

  /** Leaving out a tail loses something exactly when something in the tail is wanted. */
  lemma SelectFrontIff(a: seq<Entry>, b: seq<Entry>, start: Option<Key>, end: Option<Key>, snapshot: nat)
    ensures Select(a, start, end, snapshot) == Select(a + b, start, end, snapshot)
            <==> forall x :: x in b ==> !Wanted(x, start, end, snapshot)
  {
    SelectConcat(a, b, start, end, snapshot);
    SelectMembers(b, start, end, snapshot);
    var all, rest := Select(a + b, start, end, snapshot), Select(b, start, end, snapshot);
    if rest == [] {
      assert all == Select(a, start, end, snapshot);
    } else {
      assert |all| > |Select(a, start, end, snapshot)|;
      assert rest[0] in rest;
    }
  }

  // ---------------------------------------------------------------- leaves without links

  /** No leaf has a successor. */
  ghost predicate Unlinked(h: Heap) {
    forall q :: q in h && h[q].LeafPage? ==> h[q].leaf.next == 0
  }

  /** Without links a scan sees its start leaf only: that is all there is to see if and only if no entry on
      the leaves behind it is wanted. */
  lemma OneLeafScanIff(h: Heap, t: Shape, start: Option<Key>, end: Option<Key>, snapshot: nat)
    requires IsTree(h, t) && Distinct(t)
    ensures var first := StartLeaf(h, t, start);
            Select(EntriesAt(h, first), start, end, snapshot) == Select(Contents(h, t), start, end, snapshot)
            <==> forall x :: x in Stored(h, After(Leaves(t), first)) ==> !Wanted(x, start, end, snapshot)
  {
    var first := StartLeaf(h, t, start);
    var pre, post := StartCut(h, t, start);
    LeavesDistinct(t);
    AroundDistinct(Leaves(t), pre, first, post);
    AfterCut(pre, first, post);
    ScanFromTarget(h, t, start, end, snapshot, pre, [first] + post);
    StoredConcat(h, [first], post);
    StoredOne(h, first);
    SelectFrontIff(EntriesAt(h, first), Stored(h, post), start, end, snapshot);
  }

  lemma {:induction false} LeavesOnPages(h: Heap, t: Shape, p: nat)
    requires Shaped(h, t) && p in Leaves(t)
    ensures p in h && h[p].LeafPage? && Sorted(h[p].leaf.entries)
    decreases t, 0
  {
    if t.Branch? {
      LeavesOfOnPages(h, t.kids, p);
    }
  }

  lemma {:induction false} LeavesOfOnPages(h: Heap, ts: seq<Shape>, p: nat)
    requires (forall i :: 0 <= i < |ts| ==> Shaped(h, ts[i])) && p in LeavesOf(ts)
    ensures p in h && h[p].LeafPage? && Sorted(h[p].leaf.entries)
    decreases ts, 1
  {
    if p in Leaves(ts[0]) {
      LeavesOnPages(h, ts[0], p);
    } else {
      LeavesOfOnPages(h, ts[1..], p);
    }
  }

  lemma SingleChain(h: Heap, t: Shape, p: nat)
    requires Shaped(h, t) && p in Leaves(t) && p != 0 && Unlinked(h)
    ensures Chained(h, [p])
  {
    LeavesOnPages(h, t, p);
  }

  /** Without links, and with the pages numbered from one, the links thread the leaves exactly when there is one. */
  lemma ChainedIffOneLeaf(h: Heap, t: Shape)
    requires Shaped(h, t) && Unlinked(h) && 0 !in h
    ensures Chained(h, Leaves(t)) <==> |Leaves(t)| == 1
  {
    var ps := Leaves(t);
    ShapedHasLeaves(h, t);
    LeavesOnPages(h, t, ps[0]);
    if |ps| > 1 {
      LeavesOnPages(h, t, ps[1]);
      assert Following(ps, 0) == ps[1];
      assert !Link(h, ps, 0);
    } else {
      assert ps == [ps[0]];
    }
  }
}
