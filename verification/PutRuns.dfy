/** Whole runs of `put`: lossless steps refine upserts into one sorted sequence, and
    runs with ascending keys of comparable entry sizes are lossless. */
module PutRuns {
  import opened Bytes
  import opened Results
  import opened Entries
  import opened LeafNodes
  import opened LeafOps
  import opened SearchTree
  import opened TreeUpdate
  import opened TreePut
  import opened PutAsUpdate

  // --------------------------------------------------------------- one lossless put

  lemma InsertOnlyAdds(l: Leaf, e: Entry)
    ensures OnlyAdds(Insert(l, e), l.entries, e.key)
  {
    UpsertMembers(l.entries, e);
  }

  lemma PlainPutKeepsTree(s: State, t: Shape, e: Entry)
    requires Placed(s, t) && IsTree(s.pages, t) && PutState(s, t, e).1 && !PutSplits(s, t, e)
    ensures IsTree(PutState(s, t, e).0.pages, PutShape(s, t, e))
    ensures Contents(PutState(s, t, e).0.pages, PutShape(s, t, e)) == Upsert(Contents(s.pages, t), e)
  {
    var p, l := Target(s.pages, t, e.key), TargetLeaf(s, t, e.key);
    PlainPutState(s, t, e);
    TargetIsPage(s.pages, t, e.key);
    InsertOnlyAdds(l, e);
    UpsertIsUpdate(l.entries, e);
    ReplaceLeafOrdered(s.pages, t, e.key, Insert(l, e));
    var pre, post := Descent(s.pages, t, e.key);
    WithLeafContents(s.pages, t, pre, p, post, Insert(l, e));
    StoredAround(s.pages, pre, [p], post);
    StoredOne(s.pages, p);
    UpsertInMiddle(Stored(s.pages, pre), l.entries, Stored(s.pages, post), e);
  }

  /** A tree below a separator and a leaf from it on make a search tree under a new root. */
  lemma GrowKeepsTree(s: State, t: Shape, sep: Key, right: nat)
    requires Placed(s, t) && IsTree(s.pages, t)
    requires right in s.pages && s.pages[right].LeafPage? && !Uses(t, right)
    requires AllBelow(Contents(s.pages, t), sep) && AllFrom(EntriesAt(s.pages, right), sep)
    ensures var g, u := Grow(s, sep, right), Branch(s.nextPage, [t, Tip(right)]);
            IsTree(g.pages, u) && Contents(g.pages, u) == Contents(s.pages, t) + EntriesAt(s.pages, right)
  {
    var g, u := Grow(s, sep, right), Branch(s.nextPage, [t, Tip(right)]);
    GrowKeepsOld(s, t, sep, right);
    SameTree(s.pages, g.pages, t);
    StoredOne(g.pages, right);
    assert BranchBounds(g.pages, s.nextPage, u.kids);
    LeavesOfPair(t, right);
    StoredConcat(g.pages, Leaves(t), [right]);
  }

  lemma LeavesOfPair(t: Shape, right: nat)
    ensures LeavesOf([t, Tip(right)]) == Leaves(t) + [right]
  {
    var ts := [t, Tip(right)];
    assert ts[1..] == [Tip(right)];
    assert LeavesOf([Tip(right)]) == [right] + LeavesOf([]) by { assert [Tip(right)][1..] == []; }
  }

  /** Replacing the target leaf in the written halves. */
  lemma HalvesTree(s: State, t: Shape, k: Key, l: Leaf, r: Leaf, before: seq<Entry>)
    requires Placed(s, t) && IsTree(s.pages, t) && Valid(l) && Valid(r)
    requires OnlyAdds(l, TargetLeaf(s, t, k).entries, k) && Around(s, t, k, before, [])
    ensures var h := HalvesWritten(s, Target(s.pages, t, k), l, r).pages;
            IsTree(h, t) && Contents(h, t) == before + l.entries
  {
    var p := Target(s.pages, t, k);
    TargetIsPage(s.pages, t, k);
    WriteUnused(s, t, r);
    var h1 := WithLeaf(s.pages, s.nextPage, r);
    ReplaceLeafOrdered(h1, t, k, l);
    ReplacedContents(h1, t, k, l, before);
  }

  /** Replacing the last non-empty leaf replaces the end of the stored sequence. */
  lemma ReplacedContents(h: Heap, t: Shape, k: Key, l: Leaf, before: seq<Entry>)
    requires IsTree(h, t) && Distinct(t) && AllBelow(before, k)
    requires Contents(h, t) == before + (EntriesAt(h, Target(h, t, k)) + [])
    ensures Contents(WithLeaf(h, Target(h, t, k), l), t) == before + l.entries
  {
    var p := Target(h, t, k);
    var pre, post := Descent(h, t, k);
    WithLeafContents(h, t, pre, p, post, l);
    StoredAround(h, pre, [p], post);
    StoredOne(h, p);
    TreeSorted(h, t);
    SamePrefix(Stored(h, pre), before, EntriesAt(h, p), Stored(h, post), k);
  }

  /** Two ways to cut a sorted sequence around the same run agree. */
  lemma SamePrefix(a: seq<Entry>, b: seq<Entry>, m: seq<Entry>, c: seq<Entry>, k: Key)
    requires a + (m + c) == b + (m + []) && AllAbove(c, k) && AllBelow(b, k) && AllBelow(a, k)
    requires Sorted(b + (m + []))
    ensures a == b && c == []
  {
    var x, y := a + (m + c), b + (m + []);
    assert |a| + |c| == |b|;
    if c != [] {
      if m == [] {
        assert x[|a|] == c[0] && y[|a|] == b[|a|];
        NotBelow(k, c[0].key);
      } else {
        assert x[|x| - 1] == c[|c| - 1] && y[|x| - 1] == m[|m| - 1];
        LastOfMiddle(a, m, c);
      }
    } else {
      assert x[..|a|] == a && y[..|b|] == b;
    }
  }

  lemma LastOfMiddle(a: seq<Entry>, m: seq<Entry>, c: seq<Entry>)
    requires Sorted(a + (m + c)) && m != [] && c != []
    ensures c[|c| - 1] != m[|m| - 1]
  {
    MiddleBeforeTail(a, m, c);
    LessIrreflexive(c[|c| - 1].key);
  }

  lemma OnlyAddsPart(m: seq<Entry>, e: Entry, l: Leaf, r: seq<Entry>)
    requires l.entries + r == m || l.entries + r == Upsert(m, e)
    ensures OnlyAdds(l, m, e.key)
  {
    UpsertMembers(m, e);
    forall i | 0 <= i < |l.entries| ensures l.entries[i] in m || l.entries[i].key == e.key {
      assert (l.entries + r)[i] == l.entries[i];
    }
  }

  /** Upserting an entry that is stored already changes nothing. */
  lemma UpsertSame(es: seq<Entry>, e: Entry)
    requires Sorted(es) && Lookup(es, e.key) == Some(e)
    ensures Upsert(es, e) == es
  {
    PositionFinds(es, e.key);
  }

  lemma SplitPutKeepsTree(s: State, t: Shape, e: Entry)
    requires Placed(s, t) && IsTree(s.pages, t) && PutState(s, t, e).1 && PutSplits(s, t, e) && Lossless(s, t, e)
    ensures IsTree(PutState(s, t, e).0.pages, PutShape(s, t, e))
    ensures Contents(PutState(s, t, e).0.pages, PutShape(s, t, e)) == Upsert(Contents(s.pages, t), e)
  {
    var before, after := CutAround(s, t, e.key);
    LatestIsNoTail(s, t, e.key, before, after);
    var o := SplitPutState(s, t, e);
    SplitStateTree(s, t, e, before, o.leaf, o.right, o.separator);
    SplitPutContents(before, TargetLeaf(s, t, e.key).entries, e, o.leaf.entries, o.right.entries);
  }

  /** Splitting the last non-empty leaf around a separator gives a search tree. */
  lemma SplitStateTree(s: State, t: Shape, e: Entry, before: seq<Entry>, l: Leaf, r: Leaf, sep: Key)
    requires Placed(s, t) && IsTree(s.pages, t) && Around(s, t, e.key, before, [])
    requires Valid(l) && Valid(r) && AllBelow(l.entries, sep) && AllFrom(r.entries, sep)
    requires r.entries != [] && sep == r.entries[0].key
    requires var m := TargetLeaf(s, t, e.key).entries;
             l.entries + r.entries == m || l.entries + r.entries == Upsert(m, e)
    ensures var g := SplitState(s, Target(s.pages, t, e.key), l, r, sep);
            var u := Branch(s.nextPage + 1, [t, Tip(s.nextPage)]);
            IsTree(g.pages, u) && Contents(g.pages, u) == (before + l.entries) + r.entries
  {
    var p, m := Target(s.pages, t, e.key), TargetLeaf(s, t, e.key).entries;
    TargetIsPage(s.pages, t, e.key);
    OnlyAddsPart(m, e, l, r.entries);
    HalvesTree(s, t, e.key, l, r, before);
    HalvesPlaced(s, t, p, l, r);
    SeparatorAbove(before, m, e, l.entries, r.entries);
    RightHalf(s, p, l, r);
    GrowKeepsTree(HalvesWritten(s, p, l, r), t, sep, s.nextPage);
  }

  lemma SeparatorAbove(before: seq<Entry>, m: seq<Entry>, e: Entry, l: seq<Entry>, r: seq<Entry>)
    requires Sorted(before + (m + [])) && AllBelow(before, e.key)
    requires r != [] && (l + r == m || l + r == Upsert(m, e)) && AllBelow(l, r[0].key)
    ensures AllBelow(before + l, r[0].key)
  {
    SeparatorOrigin(m, e, l, r);
    BeforeSeparator(before, m, [], e.key, r[0]);
    JoinBelow(before, l, r[0].key);
  }

  lemma JoinBelow(a: seq<Entry>, b: seq<Entry>, k: Key)
    requires AllBelow(a, k) && AllBelow(b, k)
    ensures AllBelow(a + b, k)
  {
  }

  lemma RightHalf(s: State, p: nat, l: Leaf, r: Leaf)
    requires p != s.nextPage
    ensures var h := HalvesWritten(s, p, l, r).pages;
            s.nextPage in h && h[s.nextPage] == LeafPage(r) && EntriesAt(h, s.nextPage) == r.entries
  {
  }

  lemma SplitPutContents(before: seq<Entry>, m: seq<Entry>, e: Entry, l: seq<Entry>, r: seq<Entry>)
    requires Sorted(before + (m + [])) && AllBelow(before, e.key)
    requires l + r == Upsert(m, e) || (l + r == m && Lookup(m, e.key) == Some(e))
    ensures (before + l) + r == Upsert(before + (m + []), e)
  {
    Assoc(before, l, r);
    NothingAfter(m);
    if l + r != Upsert(m, e) {
      TailOfSorted(before, m);
      UpsertSame(m, e);
    }
    UpsertInTail(before, m, e);
  }

  lemma NothingAfter(m: seq<Entry>)
    ensures m + [] == m
  {
  }

  lemma TailOfSorted(a: seq<Entry>, m: seq<Entry>)
    requires Sorted(a + m)
    ensures Sorted(m)
  {
    assert (a + m)[|a|..] == m;
    SortedDrop(a + m, |a|);
  }

  lemma UpsertInTail(before: seq<Entry>, m: seq<Entry>, e: Entry)
    requires AllBelow(before, e.key)
    ensures Upsert(before + m, e) == before + Upsert(m, e)
  {
    UpsertInMiddle(before, m, [], e);
    NothingAfter(m);
    NothingAfter(Upsert(m, e));
  }

  /** A lossless put keeps the tree a search tree and upserts its entry into the stored sequence. */
  lemma LosslessPutUpserts(s: State, t: Shape, e: Entry)
    requires Placed(s, t) && IsTree(s.pages, t) && PutState(s, t, e).1 && Lossless(s, t, e)
    ensures Placed(PutState(s, t, e).0, PutShape(s, t, e))
    ensures IsTree(PutState(s, t, e).0.pages, PutShape(s, t, e))
    ensures Contents(PutState(s, t, e).0.pages, PutShape(s, t, e)) == Upsert(Contents(s.pages, t), e)
  {
    PutKeepsPlaced(s, t, e);
    if PutSplits(s, t, e) {
      SplitPutKeepsTree(s, t, e);
    } else {
      PlainPutKeepsTree(s, t, e);
    }
  }

  // -------------------------------------------------------------------- lossless runs

  ghost function RunPuts(s: State, t: Shape, es: seq<Entry>): (State, Shape)
    requires Placed(s, t)
    decreases |es|
  {
    if es == [] then (s, t)
    else
      PutKeepsPlaced(s, t, es[0]);
      RunPuts(PutState(s, t, es[0]).0, PutShape(s, t, es[0]), es[1..])
  }

  /** Every put of the run succeeds and meets the condition for being a map update. */
  ghost predicate AllLossless(s: State, t: Shape, es: seq<Entry>)
    requires Placed(s, t)
    decreases |es|
  {
    es == [] || (
      && PutState(s, t, es[0]).1 && Lossless(s, t, es[0])
      && (PutKeepsPlaced(s, t, es[0]);
          AllLossless(PutState(s, t, es[0]).0, PutShape(s, t, es[0]), es[1..])))
  }

  function UpsertAll(es: seq<Entry>, more: seq<Entry>): seq<Entry>
    decreases |more|
  {
    if more == [] then es else UpsertAll(Upsert(es, more[0]), more[1..])
  }

  /** Over every run of lossless puts, the tree stays a search tree and stores exactly the upserts of the
      run, so a search finds for every key the last entry put for it. */
  lemma {:induction false} LosslessRunRefines(s: State, t: Shape, es: seq<Entry>)
    requires Placed(s, t) && IsTree(s.pages, t) && AllLossless(s, t, es)
    ensures var (s', t') := RunPuts(s, t, es);
            && Placed(s', t') && IsTree(s'.pages, t')
            && Contents(s'.pages, t') == UpsertAll(Contents(s.pages, t), es)
            && forall k :: Found(s'.pages, t', k) == Lookup(UpsertAll(Contents(s.pages, t), es), k)
    decreases |es|
  {
    if es == [] {
      forall k ensures Found(s.pages, t, k) == Lookup(Contents(s.pages, t), k) {
        SearchIsLinear(s.pages, t, k);
      }
    } else {
      LosslessPutUpserts(s, t, es[0]);
      LosslessRunRefines(PutState(s, t, es[0]).0, PutShape(s, t, es[0]), es[1..]);
    }
  }

  // ------------------------------------------------------------------- ascending runs

  /** Largest entry for which a leaf that did not ask for a split surely has room. */
  const MAX_ENTRY: nat := 3265

  /** The most entry bytes a leaf with an exact header holds without asking for a split. */
  const QUIET: nat := 13043

  /** Entry sizes between `lo` and `hi` are comparable: the half that stays behind in a split of a full
      leaf is at least as large as one entry.  Any single size will do. */
  predicate Comparable(lo: nat, hi: nat) {
    11 <= lo <= hi <= MAX_ENTRY && hi <= (((QUIET + hi) / hi) / 2) * lo
  }

  lemma SingleSizeComparable(size: nat)
    requires 11 <= size <= MAX_ENTRY
    ensures Comparable(size, size)
  {
    assert (QUIET + size) / size >= 2;
    AtLeastOnce(((QUIET + size) / size) / 2, size);
  }

  lemma AtLeastOnce(n: nat, size: nat)
    requires n >= 1
    ensures size <= n * size
  {
  }

  ghost predicate Sized(es: seq<Entry>, lo: nat, hi: nat) {
    forall i :: 0 <= i < |es| ==> lo <= Size(es[i]) <= hi
  }

  lemma {:induction false} SizedTotal(es: seq<Entry>, lo: nat, hi: nat)
    requires Sized(es, lo, hi)
    ensures |es| * lo <= Total(es) <= |es| * hi
  {
    if es != [] {
      SizedTotal(es[1..], lo, hi);
      assert |es| * lo == lo + |es[1..]| * lo && |es| * hi == hi + |es[1..]| * hi;
    }
  }

  lemma MulMonotone(a: nat, b: nat, c: nat)
    requires a <= b
    ensures a * c <= b * c
  {
  }

  lemma MulCancel(a: nat, b: nat, c: nat)
    requires a * c < b * c
    ensures a < b
  {
    if b <= a {
      MulMonotone(b, a, c);
    }
  }

  /** How many entries of at most `hi` bytes it takes to pass the threshold. */
  lemma CountBound(n: nat, hi: nat)
    requires hi > 0 && n * hi > QUIET
    ensures n >= (QUIET + hi) / hi
  {
    var c := (QUIET + hi) / hi;
    assert c * hi <= QUIET + hi;
    assert (n + 1) * hi == n * hi + hi;
    MulCancel(c, n + 1, hi);
  }

  lemma HalfWeighsAnEntry(n: nat, lo: nat, hi: nat)
    requires Comparable(lo, hi) && n * hi > QUIET
    ensures n >= 2 && (n / 2) * lo >= hi
  {
    var c := (QUIET + hi) / hi;
    CountBound(n, hi);
    MulMonotone(c / 2, n / 2, lo);
    MulCancel(0, n / 2, lo);
  }

  /** A leaf pushed just over the split threshold leaves a right half that is quiet again. */
  lemma SplitBalance(es: seq<Entry>, lo: nat, hi: nat)
    requires Comparable(lo, hi) && Sized(es, lo, hi)
    requires QUIET < Total(es) <= QUIET + hi
    ensures |es| >= 2 && Total(es[|es| / 2..]) <= QUIET
  {
    var n := |es|;
    SizedTotal(es, lo, hi);
    HalfWeighsAnEntry(n, lo, hi);
    var kept := es[..n / 2];
    SizedTotal(kept, lo, hi);
    CutAtMiddle(es, n / 2);
    TotalConcat(kept, es[n / 2..]);
  }

  // ---- the invariant

  ghost predicate NoEmptyLeaf(h: Heap, ps: seq<nat>) {
    forall i :: 0 <= i < |ps| ==> EntriesAt(h, ps[i]) != []
  }

  /** The rightmost leaf is ready for another entry. */
  ghost predicate LastLeafQuiet(h: Heap, ps: seq<nat>) {
    && ps != [] && ps[|ps| - 1] in h && h[ps[|ps| - 1]].LeafPage?
    && Exact(h[ps[|ps| - 1]].leaf) && Total(h[ps[|ps| - 1]].leaf.entries) <= QUIET
  }

  /** After the entries `done` have been put in ascending order. */
  ghost predicate Ascended(s: State, t: Shape, done: seq<Entry>) {
    && Placed(s, t) && IsTree(s.pages, t) && Contents(s.pages, t) == done
    && LastLeafQuiet(s.pages, Leaves(t))
    && (if done == [] then t.Tip? else NoEmptyLeaf(s.pages, Leaves(t)))
  }

  lemma CreateAscended(page: nat)
    requires page > 0
    ensures Ascended(Create(page), Tip(page), [])
  {
    CreatePlaced(page);
    NewLeafValid(page);
  }

  lemma EmptyStored(h: Heap, ps: seq<nat>)
    requires Stored(h, ps) == [] && NoEmptyLeaf(h, ps)
    ensures ps == []
  {
  }

  /** A key above everything stored leads to the rightmost leaf. */
  lemma AscendingTarget(s: State, t: Shape, done: seq<Entry>, k: Key)
    requires Ascended(s, t, done) && AllBelow(done, k)
    ensures Target(s.pages, t, k) == Leaves(t)[|Leaves(t)| - 1]
    ensures AllBelow(TargetLeaf(s, t, k).entries, k)
  {
    var p := Target(s.pages, t, k);
    TargetIsPage(s.pages, t, k);
    var pre, post := Descent(s.pages, t, k);
    StoredAround(s.pages, pre, [p], post);
    StoredOne(s.pages, p);
    BetweenNothing(Stored(s.pages, pre), EntriesAt(s.pages, p), Stored(s.pages, post), k);
    if done == [] {
      assert |Leaves(t)| == 1;
    } else {
      SuffixNotEmpty(s.pages, Leaves(t), pre, p, post);
      EmptyStored(s.pages, post);
    }
  }

  lemma SuffixNotEmpty(h: Heap, ps: seq<nat>, pre: seq<nat>, p: nat, post: seq<nat>)
    requires ps == pre + ([p] + post) && NoEmptyLeaf(h, ps)
    ensures NoEmptyLeaf(h, post)
  {
    forall i | 0 <= i < |post| ensures EntriesAt(h, post[i]) != [] {
      assert ps[|pre| + 1 + i] == post[i];
    }
  }

  lemma AscendingLatest(s: State, t: Shape, done: seq<Entry>, k: Key)
    requires Ascended(s, t, done) && AllBelow(done, k)
    ensures Latest(s, t, k)
  {
    forall x | x in done ensures !Less(k, x.key) {
      NotBelow(x.key, k);
    }
  }

  lemma BetweenNothing(a: seq<Entry>, m: seq<Entry>, b: seq<Entry>, k: Key)
    requires AllBelow(a + (m + b), k) && AllAbove(b, k)
    ensures b == [] && AllBelow(m, k)
  {
    var s := a + (m + b);
    if b != [] {
      assert s[|a| + |m|] == b[0];
      NotBelow(k, b[0].key);
    }
    forall i | 0 <= i < |m| ensures Less(m[i].key, k) {
      assert s[|a| + i] == m[i];
    }
  }

  /** The next ascending put finds space, is not an update, and is lossless. */
  lemma AscendingAccepts(s: State, t: Shape, done: seq<Entry>, e: Entry)
    requires Ascended(s, t, done) && AllBelow(done, e.key) && Size(e) <= MAX_ENTRY
    ensures var l := TargetLeaf(s, t, e.key);
            && Valid(l) && Exact(l) && Total(l.entries) <= QUIET
            && HasSpace(l.header, Size(e)) && !Present(l.entries, e.key)
            && Insert(l, e).entries == l.entries + [e] && Valid(Insert(l, e)) && Exact(Insert(l, e))
            && Total(Insert(l, e).entries) == Total(l.entries) + Size(e)
    ensures PutState(s, t, e).1 && Lossless(s, t, e)
  {
    var l := TargetLeaf(s, t, e.key);
    TargetIsPage(s.pages, t, e.key);
    AscendingTarget(s, t, done, e.key);
    AscendingLatest(s, t, done, e.key);
    AppendStep(l, e);
    UpsertAtEnd(l.entries, e);
    TotalConcat(l.entries, [e]);
    TotalOne(e);
    InsertWithSpace(l, e, s.nextPage);
  }

  lemma QuietUnlessSplit(l: Leaf)
    requires Exact(l)
    ensures NeedsSplit(l.header) <==> Total(l.entries) > QUIET
  {
  }

  lemma AscendingPlain(s: State, t: Shape, done: seq<Entry>, e: Entry)
    requires Ascended(s, t, done) && AllBelow(done, e.key) && Size(e) <= MAX_ENTRY
    requires PutState(s, t, e).1 && !PutSplits(s, t, e)
    ensures var h := PutState(s, t, e).0.pages;
            PutShape(s, t, e) == t && LastLeafQuiet(h, Leaves(t)) && NoEmptyLeaf(h, Leaves(t))
  {
    var p, l := Target(s.pages, t, e.key), TargetLeaf(s, t, e.key);
    AscendingTarget(s, t, done, e.key);
    AscendingAccepts(s, t, done, e);
    PlainPutState(s, t, e);
    PlainPutQuiet(s, p, l, e);
    AscendingLeavesExist(s, t, done, e.key);
    LastLeafWritten(s.pages, Leaves(t), p, Insert(l, e));
  }

  lemma PlainPutQuiet(s: State, p: nat, l: Leaf, e: Entry)
    requires Exact(Insert(l, e)) && Size(e) <= MAX_ENTRY && HasSpace(l.header, Size(e)) && !Present(l.entries, e.key)
    requires Total(Insert(l, e).entries) == Total(l.entries) + Size(e)
    requires FirstEntry(s, p, l) || !Splits(l, e)
    ensures Total(Insert(l, e).entries) <= QUIET
  {
    QuietUnlessSplit(Insert(l, e));
  }

  lemma LastLeafWritten(h: Heap, ps: seq<nat>, p: nat, l: Leaf)
    requires ps != [] && ps[|ps| - 1] == p && (NoEmptyLeaf(h, ps) || ps == [p])
    requires Exact(l) && Total(l.entries) <= QUIET && l.entries != []
    ensures LastLeafQuiet(WithLeaf(h, p, l), ps) && NoEmptyLeaf(WithLeaf(h, p, l), ps)
  {
  }

  /** The halves of an ascending split: the left one not empty, the right one quiet. */
  lemma AscendingHalves(s: State, t: Shape, done: seq<Entry>, e: Entry, lo: nat, hi: nat) returns (o: InsertOutcome)
    requires Ascended(s, t, done) && AllBelow(done, e.key) && Comparable(lo, hi) && Sized(done + [e], lo, hi)
    requires PutState(s, t, e).1 && PutSplits(s, t, e)
    ensures o.Split? && o.leaf.entries != [] && o.right.entries != []
    ensures Exact(o.right) && Total(o.right.entries) <= QUIET
    ensures PutState(s, t, e).0 == SplitState(s, Target(s.pages, t, e.key), o.leaf, o.right, o.separator)
  {
    var l := TargetLeaf(s, t, e.key);
    assert (done + [e])[|done|] == e;
    AscendingAccepts(s, t, done, e);
    QuietUnlessSplit(Insert(l, e));
    LeafSized(s, t, done, e, lo, hi);
    SplitBalance(Insert(l, e).entries, lo, hi);
    o := SplitPutState(s, t, e);
    BalancedHalves(Insert(l, e), s.nextPage);
  }

  lemma BalancedHalves(l: Leaf, page: nat)
    requires Valid(l) && SplitOutcome(l, page).Split?
    ensures var o, n := SplitOutcome(l, page), |l.entries| / 2;
            && o.leaf.entries == l.entries[..n] && o.right.entries == l.entries[n..] && Exact(o.right)
  {
    SplitConserves(l, page);
    BothParts(l.entries, SplitLeft(l).entries, SplitRight(l, page).value.entries);
  }

  lemma AscendingSplit(s: State, t: Shape, done: seq<Entry>, e: Entry, lo: nat, hi: nat)
    requires Ascended(s, t, done) && AllBelow(done, e.key) && Comparable(lo, hi) && Sized(done + [e], lo, hi)
    requires PutState(s, t, e).1 && PutSplits(s, t, e)
    ensures var h, u := PutState(s, t, e).0.pages, PutShape(s, t, e);
            LastLeafQuiet(h, Leaves(u)) && NoEmptyLeaf(h, Leaves(u))
  {
    var p, n := Target(s.pages, t, e.key), s.nextPage;
    TargetIsPage(s.pages, t, e.key);
    var o := AscendingHalves(s, t, done, e, lo, hi);
    SplitEntries(s, t, p, o.leaf, o.right, o.separator);
    AscendingLeavesExist(s, t, done, e.key);
    NewLeafOnPage(s, p, o.leaf, o.right, o.separator);
    LeavesOfPair(t, n);
    NoEmptyAfterSplit(s.pages, PutState(s, t, e).0.pages, Leaves(t), p, n);
  }

  lemma NoEmptyAfterSplit(h: Heap, g: Heap, ps: seq<nat>, p: nat, n: nat)
    requires NoEmptyLeaf(h, ps) || ps == [p]
    requires EntriesAt(g, p) != [] && EntriesAt(g, n) != []
    requires forall i :: 0 <= i < |ps| && ps[i] != p ==> EntriesAt(g, ps[i]) == EntriesAt(h, ps[i])
    ensures NoEmptyLeaf(g, ps + [n])
  {
  }

  lemma NewLeafOnPage(s: State, p: nat, l: Leaf, r: Leaf, sep: Key)
    requires p != s.nextPage && s.root in s.pages && s.root != s.nextPage
    ensures var h := SplitState(s, p, l, r, sep).pages; s.nextPage in h && h[s.nextPage] == LeafPage(r)
  {
  }

  lemma BothParts(es: seq<Entry>, a: seq<Entry>, b: seq<Entry>)
    requires a + b == es && |a| == |es| / 2
    ensures a == es[..|es| / 2] && b == es[|es| / 2..]
  {
  }

  lemma LeafSized(s: State, t: Shape, done: seq<Entry>, e: Entry, lo: nat, hi: nat)
    requires Ascended(s, t, done) && Sized(done + [e], lo, hi)
    ensures Sized(TargetLeaf(s, t, e.key).entries + [e], lo, hi)
  {
    var p := Target(s.pages, t, e.key);
    TargetIsPage(s.pages, t, e.key);
    var pre, post := Descent(s.pages, t, e.key);
    StoredAround(s.pages, pre, [p], post);
    StoredOne(s.pages, p);
    MiddleSized(Stored(s.pages, pre), EntriesAt(s.pages, p), Stored(s.pages, post), e, lo, hi);
  }

  lemma MiddleSized(a: seq<Entry>, m: seq<Entry>, b: seq<Entry>, e: Entry, lo: nat, hi: nat)
    requires Sized((a + (m + b)) + [e], lo, hi)
    ensures Sized(m + [e], lo, hi)
  {
    var s := (a + (m + b)) + [e];
    forall i | 0 <= i < |m| ensures lo <= Size(m[i]) <= hi {
      assert s[|a| + i] == m[i];
    }
    assert s[|s| - 1] == e;
  }

  lemma AscendingLeavesExist(s: State, t: Shape, done: seq<Entry>, k: Key)
    requires Ascended(s, t, done)
    ensures forall i :: 0 <= i < |Leaves(t)| ==> Leaves(t)[i] in s.pages
    ensures done == [] ==> Leaves(t) == [Target(s.pages, t, k)]
  {
    forall i | 0 <= i < |Leaves(t)| ensures Leaves(t)[i] in s.pages {
      LeavesAreUsed(t, Leaves(t)[i]);
      UsedPagesExist(s.pages, t, Leaves(t)[i]);
    }
  }

  /** One ascending put appends its entry to what the tree stores. */
  lemma AscendingStep(s: State, t: Shape, done: seq<Entry>, e: Entry, lo: nat, hi: nat)
    requires Ascended(s, t, done) && AllBelow(done, e.key) && Comparable(lo, hi) && Sized(done + [e], lo, hi)
    ensures PutState(s, t, e).1 && Lossless(s, t, e)
    ensures Ascended(PutState(s, t, e).0, PutShape(s, t, e), done + [e])
  {
    assert (done + [e])[|done|] == e;
    AscendingAccepts(s, t, done, e);
    LosslessPutUpserts(s, t, e);
    UpsertAtEnd(done, e);
    if PutSplits(s, t, e) {
      AscendingSplit(s, t, done, e, lo, hi);
    } else {
      AscendingPlain(s, t, done, e);
    }
  }

  /** For every run of puts, from a tree that such a run made, with strictly ascending keys and comparable entry
      sizes, no put fails or loses anything: the tree is a search tree and stores exactly the entries put, in order. */
  lemma {:induction false} AscendingRun(s: State, t: Shape, done: seq<Entry>, more: seq<Entry>, lo: nat, hi: nat)
    requires Ascended(s, t, done) && Sorted(done + more) && Comparable(lo, hi) && Sized(done + more, lo, hi)
    ensures AllLossless(s, t, more)
    ensures var (s', t') := RunPuts(s, t, more); Ascended(s', t', done + more)
    decreases |more|
  {
    if more == [] {
      assert done + more == done;
    } else {
      var e := more[0];
      HeadIsLast(done, more);
      assert (done + [e]) + more[1..] == done + more;
      assert forall i :: 0 <= i < |done + [e]| ==> (done + [e])[i] == (done + more)[i];
      AscendingStep(s, t, done, e, lo, hi);
      AscendingRun(PutState(s, t, e).0, PutShape(s, t, e), done + [e], more[1..], lo, hi);
    }
  }

  /** ... so every search finds exactly what was put, and nothing else. */
  lemma AscendingRunFinds(page: nat, es: seq<Entry>, lo: nat, hi: nat)
    requires page > 0 && Sorted(es) && Comparable(lo, hi) && Sized(es, lo, hi)
    ensures Placed(Create(page), Tip(page))
    ensures var (s, t) := RunPuts(Create(page), Tip(page), es);
            && Placed(s, t) && IsTree(s.pages, t) && Contents(s.pages, t) == es
            && forall k :: Found(s.pages, t, k) == Lookup(es, k)
  {
    CreateAscended(page);
    assert [] + es == es;
    AscendingRun(Create(page), Tip(page), [], es, lo, hi);
    var (s, t) := RunPuts(Create(page), Tip(page), es);
    forall k ensures Found(s.pages, t, k) == Lookup(es, k) {
      SearchIsLinear(s.pages, t, k);
    }
  }

  // ---- the limits of the promise

  /** Every put of the run reports success. */
  ghost predicate AllReported(s: State, t: Shape, es: seq<Entry>)
    requires Placed(s, t)
    decreases |es|
  {
    es != [] ==>
      && PutState(s, t, es[0]).1
      && (PutKeepsPlaced(s, t, es[0]); AllReported(PutState(s, t, es[0]).0, PutShape(s, t, es[0]), es[1..]))
  }

  /** A single-leaf tree. */
  ghost predicate OneLeaf(s: State, page: nat, l: Leaf) {
    Placed(s, Tip(page)) && s.pages[page] == LeafPage(l)
  }

  lemma OneLeafPut(s: State, page: nat, l: Leaf, e: Entry)
    requires OneLeaf(s, page, l) && HasSpace(l.header, Size(e))
    requires l.entries == [] || Present(l.entries, e.key)
    ensures PutState(s, Tip(page), e).1 && PutShape(s, Tip(page), e) == Tip(page)
    ensures OneLeaf(PutState(s, Tip(page), e).0, page, Insert(l, e))
  {
    PutKeepsPlaced(s, Tip(page), e);
  }

  lemma OneLeafDrop(s: State, page: nat, l: Leaf, e: Entry)
    requires OneLeaf(s, page, l) && Drops(l, e) && Lookup(l.entries, e.key) == None
    ensures PutState(s, Tip(page), e).1
    ensures Placed(PutState(s, Tip(page), e).0, PutShape(s, Tip(page), e))
    ensures Found(PutState(s, Tip(page), e).0.pages, PutShape(s, Tip(page), e), e.key) == None
  {
    PutKeepsPlaced(s, Tip(page), e);
    SplitOutcomeFacts(l, s.nextPage);
    var o := SplitPutState(s, Tip(page), e);
    SplitFound(s, Tip(page), page, o.leaf, o.right, o.separator, e.key);
  }

  /** A leaf with one entry, updated with a smaller one: its header shows no free space at all. */
  lemma ShrunkLeaf(page: nat, a: Entry, b: Entry)
    requires a.key == b.key && Size(b) < Size(a) <= MAX_ENTRY
    ensures var l := Insert(NewLeaf(page), a);
            && HasSpace(NewLeaf(page).header, Size(a))
            && Present(l.entries, b.key) && HasSpace(l.header, Size(b))
            && Insert(l, b).entries == [b] && Insert(l, b).header.freeSpace == 0
  {
    NewLeafValid(page);
    AppendStep(NewLeaf(page), a);
    var l := Insert(NewLeaf(page), a);
    TotalOne(a);
    assert l.entries == [a];
    PositionUnique([a], b.key, 0) by { LessIrreflexive(b.key); }
    InsertKeepsValid(l, b);
  }

  lemma FullLeafDrops(l: Leaf, b: Entry, c: Entry)
    requires l.entries == [b] && l.header.freeSpace == 0 && Less(b.key, c.key)
    ensures Drops(l, c) && Lookup(l.entries, c.key) == None
  {
    NotBelow(b.key, c.key);
    LookupOne(b, c.key);
  }

  lemma RunThree(s: State, t: Shape, a: Entry, b: Entry, c: Entry)
    requires Placed(s, t)
    ensures Placed(PutState(s, t, a).0, PutShape(s, t, a))
    ensures RunPuts(s, t, [a, b, c]) == RunPuts(PutState(s, t, a).0, PutShape(s, t, a), [b, c])
    ensures AllReported(s, t, [a, b, c])
            <==> PutState(s, t, a).1 && AllReported(PutState(s, t, a).0, PutShape(s, t, a), [b, c])
  {
    PutKeepsPlaced(s, t, a);
    assert [a, b, c][1..] == [b, c];
  }

  lemma RunTwo(s: State, t: Shape, b: Entry, c: Entry)
    requires Placed(s, t)
    ensures Placed(PutState(s, t, b).0, PutShape(s, t, b))
    ensures RunPuts(s, t, [b, c]) == RunPuts(PutState(s, t, b).0, PutShape(s, t, b), [c])
    ensures AllReported(s, t, [b, c])
            <==> PutState(s, t, b).1 && AllReported(PutState(s, t, b).0, PutShape(s, t, b), [c])
  {
    PutKeepsPlaced(s, t, b);
    assert [b, c][1..] == [c];
  }

  lemma RunOne(s: State, t: Shape, c: Entry)
    requires Placed(s, t)
    ensures RunPuts(s, t, [c]) == (PutState(s, t, c).0, PutShape(s, t, c))
    ensures AllReported(s, t, [c]) <==> PutState(s, t, c).1
  {
    PutKeepsPlaced(s, t, c);
    assert [c][1..] == [];
  }

  /** The promise cannot be extended to updates: putting a key, updating it with a shorter value and then
      putting a larger key reports success each time and loses the last entry. */
  lemma ShrinkingUpdateLosesNext(page: nat, a: Entry, b: Entry, c: Entry)
    requires page > 0 && a.key == b.key && Size(b) < Size(a) <= MAX_ENTRY && Less(a.key, c.key)
    ensures Placed(Create(page), Tip(page)) && AllReported(Create(page), Tip(page), [a, b, c])
    ensures var (s, t) := RunPuts(Create(page), Tip(page), [a, b, c]);
            Placed(s, t) && Found(s.pages, t, c.key) == None
  {
    CreatePlaced(page);
    ShrunkLeaf(page, a, b);
    var s0, l0 := Create(page), NewLeaf(page);
    RunThree(s0, Tip(page), a, b, c);
    OneLeafPut(s0, page, l0, a);
    var s1, l1 := PutState(s0, Tip(page), a).0, Insert(l0, a);
    RunTwo(s1, Tip(page), b, c);
    OneLeafPut(s1, page, l1, b);
    var s2, l2 := PutState(s1, Tip(page), b).0, Insert(l1, b);
    RunOne(s2, Tip(page), c);
    FullLeafDrops(l2, b, c);
    OneLeafDrop(s2, page, l2, c);
  }
}
