/** Leaf entries and the theory of key-sorted entry sequences: lookup, upsert,
    removal and byte totals. */
module Entries {
  import opened Bytes
  import opened Results

  datatype Entry = Entry(key: Key, value: seq<byte>, lsn: nat)

  /** key_len (1) + key + value_len (2) + value + lsn (8). */
  function Size(e: Entry): (n: nat)
    ensures n >= 11
  {
    1 + |e.key| + 2 + |e.value| + 8
  }

  function KeysOf(es: seq<Entry>): (ks: seq<Key>)
    ensures |ks| == |es|
    ensures forall i :: 0 <= i < |es| ==> ks[i] == es[i].key
  {
    seq(|es|, i requires 0 <= i < |es| => es[i].key)
  }

  ghost predicate Sorted(es: seq<Entry>) {
    forall i, j :: 0 <= i < j < |es| ==> Less(es[i].key, es[j].key)
  }

  ghost predicate AllBelow(es: seq<Entry>, k: Key) {
    forall i :: 0 <= i < |es| ==> Less(es[i].key, k)
  }

  ghost predicate AllFrom(es: seq<Entry>, k: Key) {
    forall i :: 0 <= i < |es| ==> AtMost(k, es[i].key)
  }

  ghost predicate AllAbove(es: seq<Entry>, k: Key) {
    forall i :: 0 <= i < |es| ==> Less(k, es[i].key)
  }

  // --------------------------------------------------------------- byte totals

  function Total(es: seq<Entry>): nat {
    if es == [] then 0 else Size(es[0]) + Total(es[1..])
  }

  lemma {:induction false} TotalConcat(a: seq<Entry>, b: seq<Entry>)
    ensures Total(a + b) == Total(a) + Total(b)
  {
    if a == [] {
      assert a + b == b;
    } else {
      TotalConcat(a[1..], b);
      assert (a + b)[1..] == a[1..] + b;
    }
  }

  /** Every entry takes at least 11 bytes, so a bounded total bounds the entry count. */
  lemma {:induction false} TotalBoundsCount(es: seq<Entry>)
    ensures 11 * |es| <= Total(es)
  {
    if es != [] {
      TotalBoundsCount(es[1..]);
    }
  }

  // -------------------------------------------------------------------- lookup

  /** Linear search: the reference meaning of every search in the tree. */
  function Lookup(es: seq<Entry>, k: Key): (r: Option<Entry>)
    ensures r.Some? ==> r.value in es && r.value.key == k
    ensures r.None? <==> k !in KeysOf(es)
  {
    if es == [] then None
    else if es[0].key == k then assert KeysOf(es)[0] == k; Some(es[0])
    else
      assert KeysOf(es) == [es[0].key] + KeysOf(es[1..]);
      Lookup(es[1..], k)
  }

  lemma {:induction false} LookupConcat(a: seq<Entry>, b: seq<Entry>, k: Key)
    ensures Lookup(a + b, k) == if Lookup(a, k).Some? then Lookup(a, k) else Lookup(b, k)
  {
    if a == [] {
      assert a + b == b;
    } else {
      assert (a + b)[1..] == a[1..] + b;
      LookupConcat(a[1..], b, k);
    }
  }

  /** In a sorted sequence each key names one entry. */
  lemma LookupAt(es: seq<Entry>, i: nat)
    requires Sorted(es) && i < |es|
    ensures Lookup(es, es[i].key) == Some(es[i])
  {
    var r := Lookup(es, es[i].key);
    assert KeysOf(es)[i] == es[i].key;
    var j :| 0 <= j < |es| && es[j] == r.value;
    LessIrreflexive(es[i].key);
  }

  lemma LookupMissing(es: seq<Entry>, k: Key)
    requires AllBelow(es, k) || AllAbove(es, k)
    ensures Lookup(es, k) == None
  {
    LessIrreflexive(k);
    assert forall i :: 0 <= i < |es| ==> KeysOf(es)[i] != k;
  }

  // ------------------------------------------------------------ upsert, removal

  /** The position a binary search by key reports. */
  function Position(es: seq<Entry>, k: Key): (r: nat)
    ensures r <= |es|
    ensures forall i :: 0 <= i < r ==> Less(es[i].key, k)
    ensures r < |es| ==> !Less(es[r].key, k)
  {
    assert forall i :: 0 <= i < |es| ==> KeysOf(es)[i] == es[i].key;
    Rank(KeysOf(es), k)
  }

  predicate Present(es: seq<Entry>, k: Key) {
    var r := Position(es, k);
    r < |es| && es[r].key == k
  }

  /** Insert `e`, or replace the entry that has its key. */
  function Upsert(es: seq<Entry>, e: Entry): seq<Entry> {
    var r := Position(es, e.key);
    if Present(es, e.key) then es[r := e] else es[..r] + [e] + es[r..]
  }

  function Without(es: seq<Entry>, k: Key): seq<Entry> {
    var r := Position(es, k);
    if Present(es, k) then es[..r] + es[r + 1..] else es
  }

  /** How a key cuts a sequence: what lies before it, its entry if present, what lies after it. */
  datatype Cut = Cut(below: seq<Entry>, hit: seq<Entry>, above: seq<Entry>)

  ghost predicate IsCut(c: Cut, es: seq<Entry>, k: Key) {
    && es == c.below + (c.hit + c.above)
    && Sorted(c.below) && Sorted(c.above)
    && AllBelow(c.below, k) && AllAbove(c.above, k)
    && (c.hit == [] || (|c.hit| == 1 && c.hit[0].key == k))
  }

  function CutAt(es: seq<Entry>, k: Key): Cut {
    var r := Position(es, k);
    if Present(es, k) then Cut(es[..r], [es[r]], es[r + 1..]) else Cut(es[..r], [], es[r..])
  }

  lemma FromPosition(es: seq<Entry>, k: Key, i: nat)
    requires Sorted(es) && Position(es, k) <= i < |es|
    ensures es[i].key == k ==> i == Position(es, k)
    ensures es[i].key != k ==> Less(k, es[i].key)
  {
    var r := Position(es, k);
    LessTotal(es[r].key, k);
    if r < i && es[r].key != k {
      LessTransitive(k, es[r].key, es[i].key);
      LessIrreflexive(k);
    }
    LessIrreflexive(es[i].key);
  }

  lemma SortedTake(es: seq<Entry>, n: nat)
    requires Sorted(es) && n <= |es|
    ensures Sorted(es[..n])
  {
  }

  lemma SortedDrop(es: seq<Entry>, n: nat)
    requires Sorted(es) && n <= |es|
    ensures Sorted(es[n..])
  {
    forall i, j | 0 <= i < j < |es| - n ensures Less(es[n..][i].key, es[n..][j].key) {
      assert Less(es[n + i].key, es[n + j].key);
    }
  }

  lemma DividesAt(es: seq<Entry>, m: nat)
    requires Sorted(es) && m < |es|
    ensures AllBelow(es[..m], es[m].key) && AllFrom(es[m..], es[m].key)
  {
  }

  lemma AboveFrom(es: seq<Entry>, k: Key, n: nat)
    requires Sorted(es) && Position(es, k) <= n <= |es|
    requires n < |es| ==> es[n].key != k
    ensures AllAbove(es[n..], k)
  {
    forall i | 0 <= i < |es| - n ensures Less(k, es[n..][i].key) {
      FromPosition(es, k, n + i);
      if es[n + i].key == k {
        FromPosition(es, k, n);
      }
    }
  }

  lemma CutAtIsCut(es: seq<Entry>, k: Key)
    requires Sorted(es)
    ensures IsCut(CutAt(es, k), es, k)
  {
    var r := Position(es, k);
    var n := if Present(es, k) then r + 1 else r;
    if Present(es, k) && n < |es| {
      FromPosition(es, k, n);
    }
    SortedTake(es, r);
    SortedDrop(es, n);
    AboveFrom(es, k, n);
    CutJoins(es, k);
  }

  lemma CutJoins(es: seq<Entry>, k: Key)
    ensures var c := CutAt(es, k); es == c.below + (c.hit + c.above)
  {
    var r := Position(es, k);
    if Present(es, k) {
      SplitAround(es, r);
    } else {
      SplitBefore(es, r);
    }
  }

  lemma SplitAround<T>(s: seq<T>, i: nat)
    requires i < |s|
    ensures s == s[..i] + ([s[i]] + s[i + 1..])
  {
  }

  lemma SplitBefore<T>(s: seq<T>, i: nat)
    requires i <= |s|
    ensures s == s[..i] + ([] + s[i..])
  {
  }

  lemma UpsertByCut(es: seq<Entry>, e: Entry)
    ensures Upsert(es, e) == CutAt(es, e.key).below + ([e] + CutAt(es, e.key).above)
    ensures Present(es, e.key) <==> CutAt(es, e.key).hit != []
  {
  }

  lemma WithoutByCut(es: seq<Entry>, k: Key)
    ensures Without(es, k) == CutAt(es, k).below + CutAt(es, k).above
    ensures Present(es, k) <==> CutAt(es, k).hit != []
  {
  }

  lemma ConsSorted(e: Entry, b: seq<Entry>)
    requires Sorted(b) && AllAbove(b, e.key)
    ensures Sorted([e] + b) && AllFrom([e] + b, e.key)
  {
    var s := [e] + b;
    forall i, j | 0 <= i < j < |s| ensures Less(s[i].key, s[j].key) {
      assert s[j] == b[j - 1];
    }
  }

  lemma JoinSorted(a: seq<Entry>, k: Key, b: seq<Entry>)
    requires Sorted(a) && Sorted(b) && AllBelow(a, k) && AllFrom(b, k)
    ensures Sorted(a + b)
  {
    forall i, j | 0 <= i < |a| && 0 <= j < |b| ensures Less(a[i].key, b[j].key) {
      if b[j].key != k {
        LessTransitive(a[i].key, k, b[j].key);
      }
    }
    var s := a + b;
    forall i, j | 0 <= i < j < |s| ensures Less(s[i].key, s[j].key) {
      assert j >= |a| ==> s[j] == b[j - |a|];
    }
  }

  lemma LookupByCut(a: seq<Entry>, m: seq<Entry>, b: seq<Entry>, k: Key)
    ensures Lookup(a + (m + b), k) ==
            if Lookup(a, k).Some? then Lookup(a, k) else if Lookup(m, k).Some? then Lookup(m, k) else Lookup(b, k)
  {
    LookupConcat(a, m + b, k);
    LookupConcat(m, b, k);
  }

  lemma LookupOne(e: Entry, k: Key)
    ensures Lookup([e], k) == if k == e.key then Some(e) else None
    ensures Lookup([], k) == None
  {
  }

  /** A present key is found where the binary search points, an absent one nowhere. */
  lemma PositionFinds(es: seq<Entry>, k: Key)
    requires Sorted(es)
    ensures Lookup(es, k) == if Present(es, k) then Some(es[Position(es, k)]) else None
  {
    var c := CutAt(es, k);
    CutAtIsCut(es, k);
    LookupByCut(c.below, c.hit, c.above, k);
    LookupMissing(c.below, k);
    LookupMissing(c.above, k);
    if Present(es, k) {
      LookupOne(c.hit[0], k);
    }
  }

  lemma UpsertLookup(es: seq<Entry>, e: Entry, k: Key)
    requires Sorted(es)
    ensures Lookup(Upsert(es, e), k) == if k == e.key then Some(e) else Lookup(es, k)
  {
    var c := CutAt(es, e.key);
    CutAtIsCut(es, e.key);
    UpsertByCut(es, e);
    LookupByCut(c.below, [e], c.above, k);
    LookupByCut(c.below, c.hit, c.above, k);
    LookupMissing(c.below, e.key);
    LookupOne(e, k);
    if c.hit != [] {
      LookupOne(c.hit[0], k);
    }
  }

  /** Upsert is map update on sorted sequences, and keeps them sorted. */
  lemma UpsertIsUpdate(es: seq<Entry>, e: Entry)
    requires Sorted(es)
    ensures Sorted(Upsert(es, e))
    ensures forall k :: Lookup(Upsert(es, e), k) == if k == e.key then Some(e) else Lookup(es, k)
  {
    var c := CutAt(es, e.key);
    CutAtIsCut(es, e.key);
    UpsertByCut(es, e);
    ConsSorted(e, c.above);
    JoinSorted(c.below, e.key, [e] + c.above);
    forall k ensures Lookup(Upsert(es, e), k) == if k == e.key then Some(e) else Lookup(es, k) {
      UpsertLookup(es, e, k);
    }
  }

  lemma UpsertMembers(es: seq<Entry>, e: Entry)
    ensures e in Upsert(es, e)
    ensures forall x :: x in Upsert(es, e) ==> x == e || x in es
  {
    UpsertByCut(es, e);
    var c := CutAt(es, e.key);
    assert (c.below + ([e] + c.above))[|c.below|] == e;
  }

  lemma WithoutLookup(es: seq<Entry>, key: Key, k: Key)
    requires Sorted(es)
    ensures Lookup(Without(es, key), k) == if k == key then None else Lookup(es, k)
  {
    var c := CutAt(es, key);
    CutAtIsCut(es, key);
    WithoutByCut(es, key);
    LookupConcat(c.below, c.above, k);
    LookupByCut(c.below, c.hit, c.above, k);
    LookupMissing(c.below, key);
    LookupMissing(c.above, key);
    if c.hit != [] {
      LookupOne(c.hit[0], k);
    }
  }

  /** Removal is map deletion on sorted sequences, and keeps them sorted. */
  lemma WithoutIsDeletion(es: seq<Entry>, key: Key)
    requires Sorted(es)
    ensures Sorted(Without(es, key))
    ensures forall k :: Lookup(Without(es, key), k) == if k == key then None else Lookup(es, k)
  {
    var c := CutAt(es, key);
    CutAtIsCut(es, key);
    WithoutByCut(es, key);
    JoinSorted(c.below, key, c.above);
    forall k ensures Lookup(Without(es, key), k) == if k == key then None else Lookup(es, k) {
      WithoutLookup(es, key, k);
    }
  }

  lemma TotalOfCut(a: seq<Entry>, m: seq<Entry>, b: seq<Entry>)
    ensures Total(a + (m + b)) == Total(a) + Total(m) + Total(b)
  {
    TotalConcat(a, m + b);
    TotalConcat(m, b);
  }

  lemma TotalOne(e: Entry)
    ensures Total([e]) == Size(e) && Total([]) == 0
  {
  }

  function HitSize(es: seq<Entry>, k: Key): nat {
    if Present(es, k) then Size(es[Position(es, k)]) else 0
  }

  lemma UpsertTotal(es: seq<Entry>, e: Entry)
    ensures Total(Upsert(es, e)) + HitSize(es, e.key) == Total(es) + Size(e)
    ensures |Upsert(es, e)| == if Present(es, e.key) then |es| else |es| + 1
    ensures HitSize(es, e.key) <= Total(es)
  {
    var c := CutAt(es, e.key);
    UpsertByCut(es, e);
    CutJoins(es, e.key);
    TotalOfCut(c.below, [e], c.above);
    TotalOfCut(c.below, c.hit, c.above);
    TotalOne(e);
    if c.hit != [] {
      TotalOne(c.hit[0]);
    }
  }

  lemma WithoutTotal(es: seq<Entry>, k: Key)
    ensures Total(Without(es, k)) + HitSize(es, k) == Total(es)
    ensures |Without(es, k)| == if Present(es, k) then |es| - 1 else |es|
  {
    var c := CutAt(es, k);
    WithoutByCut(es, k);
    CutJoins(es, k);
    TotalConcat(c.below, c.above);
    TotalOfCut(c.below, c.hit, c.above);
    if c.hit != [] {
      TotalOne(c.hit[0]);
    }
  }

  /** The position of a key is the only cut of this kind. */
  lemma PositionUnique(es: seq<Entry>, k: Key, r: nat)
    requires r <= |es| && AllBelow(es[..r], k) && (r < |es| ==> !Less(es[r].key, k))
    ensures Position(es, k) == r
  {
    assert forall i :: 0 <= i < r ==> es[..r][i] == es[i];
  }

  /** A key that belongs between two runs of entries has its position inside the middle run. */
  lemma PositionInMiddle(a: seq<Entry>, m: seq<Entry>, b: seq<Entry>, k: Key)
    requires AllBelow(a, k) && AllAbove(b, k)
    ensures Position(a + (m + b), k) == |a| + Position(m, k)
    ensures Present(a + (m + b), k) <==> Present(m, k)
  {
    var es, p := a + (m + b), Position(m, k);
    var r := |a| + p;
    forall i | 0 <= i < r ensures Less(es[i].key, k) {
      assert i >= |a| ==> es[i] == m[i - |a|];
    }
    if p < |m| {
      assert es[r] == m[p];
    } else if r < |es| {
      assert es[r] == b[0];
      NotBelow(k, b[0].key);
    }
    PositionUnique(es, k, r);
  }

  lemma NotBelow(a: Key, b: Key)
    requires Less(a, b)
    ensures !Less(b, a) && a != b
  {
    LessIrreflexive(a);
    if Less(b, a) {
      LessTransitive(a, b, a);
    }
  }

  /** ... so upserting it changes the middle run alone. */
  lemma UpsertInMiddle(a: seq<Entry>, m: seq<Entry>, b: seq<Entry>, e: Entry)
    requires AllBelow(a, e.key) && AllAbove(b, e.key)
    ensures Upsert(a + (m + b), e) == a + (Upsert(m, e) + b)
  {
    PositionInMiddle(a, m, b, e.key);
    if Present(m, e.key) {
      ReplaceInMiddle(a, m, b, Position(m, e.key), e);
    } else {
      InsertInMiddle(a, m, b, Position(m, e.key), e);
    }
  }

  /** ... and removing it does too. */
  lemma WithoutInMiddle(a: seq<Entry>, m: seq<Entry>, b: seq<Entry>, k: Key)
    requires AllBelow(a, k) && AllAbove(b, k)
    ensures Without(a + (m + b), k) == a + (Without(m, k) + b)
  {
    PositionInMiddle(a, m, b, k);
    if Present(m, k) {
      WithoutAtSame(a, m, b, k, Position(m, k));
    }
  }

  lemma WithoutAtSame(a: seq<Entry>, m: seq<Entry>, b: seq<Entry>, k: Key, p: nat)
    requires Present(m, k) && Present(a + (m + b), k)
    requires p == Position(m, k) < |m| && Position(a + (m + b), k) == |a| + p
    ensures Without(a + (m + b), k) == a + (Without(m, k) + b)
  {
    RemoveInMiddle(a, m, b, p);
    WithoutPresent(m, k, p);
    WithoutPresent(a + (m + b), k, |a| + p);
  }

  lemma WithoutPresent(es: seq<Entry>, k: Key, p: nat)
    requires Present(es, k) && p == Position(es, k) < |es|
    ensures Without(es, k) == es[..p] + es[p + 1..]
  {
  }

  lemma ReplaceInMiddle<T>(a: seq<T>, m: seq<T>, b: seq<T>, p: nat, x: T)
    requires p < |m|
    ensures (a + (m + b))[|a| + p := x] == a + (m[p := x] + b)
  {
  }

  lemma InsertInMiddle<T>(a: seq<T>, m: seq<T>, b: seq<T>, p: nat, x: T)
    requires p <= |m|
    ensures (a + (m + b))[..|a| + p] + [x] + (a + (m + b))[|a| + p..] == a + (m[..p] + [x] + m[p..] + b)
  {
    assert (a + (m + b))[..|a| + p] == a + m[..p];
    assert (a + (m + b))[|a| + p..] == m[p..] + b;
  }

  lemma RemoveInMiddle<T>(a: seq<T>, m: seq<T>, b: seq<T>, p: nat)
    requires p < |m|
    ensures (a + (m + b))[..|a| + p] + (a + (m + b))[|a| + p + 1..] == a + (m[..p] + m[p + 1..] + b)
  {
    assert (a + (m + b))[..|a| + p] == a + m[..p];
    assert (a + (m + b))[|a| + p + 1..] == m[p + 1..] + b;
  }

  /** A key above every stored key is appended. */
  lemma UpsertAtEnd(es: seq<Entry>, e: Entry)
    requires AllBelow(es, e.key)
    ensures !Present(es, e.key) && Upsert(es, e) == es + [e]
  {
    assert Position(es, e.key) == |es|;
  }

  /** A key below every stored key is put first. */
  lemma UpsertAtFront(es: seq<Entry>, e: Entry)
    requires AllAbove(es, e.key)
    ensures !Present(es, e.key) && Upsert(es, e) == [e] + es
  {
    LessIrreflexive(e.key);
    if es != [] && Less(es[0].key, e.key) {
      LessTransitive(e.key, es[0].key, e.key);
    }
    assert Position(es, e.key) == 0;
  }
}
