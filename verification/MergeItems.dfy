/** Merging sorted lists of scan items into one. */
module MergeItems {
  import opened Bytes
  import opened Results
  import opened Entries
  import opened Filters

  type Lists = seq<seq<Entry>>

  /** All items, list after list. */
  function Concat(vs: Lists): seq<Entry> {
    if vs == [] then [] else vs[0] + Concat(vs[1..])
  }

  /** Having one key: `Only` with it gives the items of that key. */
  function Of(k: Key): Entry -> bool {
    (e: Entry) => e.key == k
  }

  /** Keys never decrease. */
  ghost predicate Ordered(es: seq<Entry>) {
    forall i, j :: 0 <= i < j < |es| ==> AtMost(es[i].key, es[j].key)
  }

  ghost predicate AllOrdered(vs: Lists) {
    forall i :: 0 <= i < |vs| ==> Ordered(vs[i])
  }

  /** The same items, and those of one key in the same order. */
  ghost predicate SameByKey(a: seq<Entry>, b: seq<Entry>) {
    forall k :: Only(a, Of(k)) == Only(b, Of(k))
  }

  // -------------------------------------------------------------------- list theory

  lemma {:induction false} ConcatSplit(a: Lists, b: Lists)
    ensures Concat(a + b) == Concat(a) + Concat(b)
  {
    if a == [] {
      assert a + b == b;
    } else {
      assert (a + b)[1..] == a[1..] + b && (a + b)[0] == a[0];
      ConcatSplit(a[1..], b);
      Assoc(a[0], Concat(a[1..]), Concat(b));
    }
  }

  lemma ConcatAt(vs: Lists, m: nat)
    requires m < |vs|
    ensures Concat(vs) == Concat(vs[..m]) + (vs[m] + Concat(vs[m + 1..]))
  {
    assert vs == vs[..m] + vs[m..];
    ConcatSplit(vs[..m], vs[m..]);
    assert vs[m..][1..] == vs[m + 1..];
  }

  lemma {:induction false} OnlyConcatAbsent(vs: Lists, k: Key)
    requires forall i, j :: 0 <= i < |vs| && 0 <= j < |vs[i]| ==> vs[i][j].key != k
    ensures Only(Concat(vs), Of(k)) == []
  {
    if vs != [] {
      OnlyConcatAbsent(vs[1..], k);
      OnlyNone(vs[0], Of(k));
      OnlySplit(vs[0], Concat(vs[1..]), Of(k));
    }
  }

  // ---------------------------------------------------------------- taking one item

  function Advanced(vs: Lists, m: nat): Lists
    requires m < |vs| && vs[m] != []
  {
    vs[m := vs[m][1..]]
  }

  /** List `m` holds the smallest next key, and the first such. */
  ghost predicate Smallest(vs: Lists, m: nat) {
    && m < |vs| && vs[m] != []
    && forall i :: 0 <= i < |vs| && vs[i] != [] ==>
         AtMost(vs[m][0].key, vs[i][0].key) && (i < m ==> Less(vs[m][0].key, vs[i][0].key))
  }

  lemma AdvancedParts(vs: Lists, m: nat)
    requires m < |vs| && vs[m] != []
    ensures Concat(vs) == Concat(vs[..m]) + ([vs[m][0]] + (vs[m][1..] + Concat(vs[m + 1..])))
    ensures Concat(Advanced(vs, m)) == Concat(vs[..m]) + (vs[m][1..] + Concat(vs[m + 1..]))
  {
    ConcatAt(vs, m);
    Regroup(Concat(vs[..m]), vs[m], Concat(vs[m + 1..]));
    AroundAdvanced(vs, m);
    ConcatAt(Advanced(vs, m), m);
  }

  lemma Regroup(a: seq<Entry>, b: seq<Entry>, c: seq<Entry>)
    requires b != []
    ensures a + (b + c) == a + ([b[0]] + (b[1..] + c))
  {
    assert b == [b[0]] + b[1..];
  }

  lemma AroundAdvanced(vs: Lists, m: nat)
    requires m < |vs| && vs[m] != []
    ensures Advanced(vs, m)[..m] == vs[..m] && Advanced(vs, m)[m + 1..] == vs[m + 1..]
  {
  }

  /** Whatever list an item is taken from, nothing is lost or made up. */
  lemma AdvancedCounts(vs: Lists, m: nat)
    requires m < |vs| && vs[m] != []
    ensures multiset(Concat(vs)) == multiset{vs[m][0]} + multiset(Concat(Advanced(vs, m)))
    ensures |Concat(vs)| == |Concat(Advanced(vs, m))| + 1
  {
    AdvancedParts(vs, m);
  }

  /** The item taken is the first of its key among all that remain. */
  lemma AdvancedByKey(vs: Lists, m: nat, k: Key)
    requires AllOrdered(vs) && Smallest(vs, m)
    ensures Only(Concat(vs), Of(k))
            == (if vs[m][0].key == k then [vs[m][0]] else []) + Only(Concat(Advanced(vs, m)), Of(k))
  {
    var x := vs[m][0];
    var before, after := Concat(vs[..m]), vs[m][1..] + Concat(vs[m + 1..]);
    AdvancedParts(vs, m);
    if x.key == k {
      EarlierLack(vs, m);
      OnlyConcatAbsent(vs[..m], k);
    }
    OnlyTaken(before, x, after, k);
  }

  /** An item comes first of its key when nothing before it has that key. */
  lemma OnlyTaken(before: seq<Entry>, x: Entry, after: seq<Entry>, k: Key)
    requires x.key == k ==> Only(before, Of(k)) == []
    ensures Only(before + ([x] + after), Of(k)) == (if x.key == k then [x] else []) + Only(before + after, Of(k))
  {
    OnlySplit(before, [x] + after, Of(k));
    OnlySplit([x], after, Of(k));
    OnlyOne(x, Of(k));
    OnlySplit(before, after, Of(k));
  }

  lemma EarlierLack(vs: Lists, m: nat)
    requires AllOrdered(vs) && Smallest(vs, m)
    ensures forall i, j :: 0 <= i < m && 0 <= j < |vs[i]| ==> vs[i][j].key != vs[m][0].key
  {
    KeyOrder();
    forall i, j | 0 <= i < m && 0 <= j < |vs[i]| ensures vs[i][j].key != vs[m][0].key {
      assert Less(vs[m][0].key, vs[i][0].key);
      assert j > 0 ==> AtMost(vs[i][0].key, vs[i][j].key);
    }
  }

  // ------------------------------------------------------------------ the invariant

  ghost predicate UpTo(done: seq<Entry>, rest: Lists) {
    forall d, i, j :: 0 <= d < |done| && 0 <= i < |rest| && 0 <= j < |rest[i]| ==> AtMost(done[d].key, rest[i][j].key)
  }

  /** What has been merged is in order and below the rest, and together they are the input key by key. */
  ghost predicate Merging(all: seq<Entry>, done: seq<Entry>, rest: Lists) {
    && AllOrdered(rest) && Ordered(done) && UpTo(done, rest)
    && forall k :: Only(done, Of(k)) + Only(Concat(rest), Of(k)) == Only(all, Of(k))
  }

  lemma TakenIsLeast(rest: Lists, m: nat, i: nat, j: nat)
    requires AllOrdered(rest) && Smallest(rest, m) && i < |rest| && j < |rest[i]|
    ensures AtMost(rest[m][0].key, rest[i][j].key)
  {
    KeyOrder();
    assert AtMost(rest[m][0].key, rest[i][0].key);
    assert j > 0 ==> AtMost(rest[i][0].key, rest[i][j].key);
  }

  lemma AdvancedItem(rest: Lists, m: nat, i: nat, j: nat) returns (n: nat)
    requires m < |rest| && rest[m] != [] && i < |rest| && j < |Advanced(rest, m)[i]|
    ensures n < |rest[i]| && Advanced(rest, m)[i][j] == rest[i][n]
  {
    n := if i == m then j + 1 else j;
  }

  lemma AdvancedOrdered(rest: Lists, m: nat)
    requires AllOrdered(rest) && m < |rest| && rest[m] != []
    ensures AllOrdered(Advanced(rest, m))
  {
    assert Ordered(rest[m][1..]);
  }

  lemma TakeOne(all: seq<Entry>, done: seq<Entry>, rest: Lists, m: nat)
    requires Merging(all, done, rest) && Smallest(rest, m)
    ensures Merging(all, done + [rest[m][0]], Advanced(rest, m))
  {
    var x: Entry, next: Lists := rest[m][0], Advanced(rest, m);
    AdvancedOrdered(rest, m);
    forall d, i, j | 0 <= d < |done + [x]| && 0 <= i < |next| && 0 <= j < |next[i]|
      ensures AtMost((done + [x])[d].key, next[i][j].key)
    {
      var n := AdvancedItem(rest, m, i, j);
      TakenIsLeast(rest, m, i, n);
    }
    forall k ensures Only(done + [x], Of(k)) + Only(Concat(next), Of(k)) == Only(all, Of(k)) {
      AdvancedByKey(rest, m, k);
      OnlySplit(done, [x], Of(k));
      OnlyOne(x, Of(k));
    }
  }

  // ---------------------------------------------------------------------- the loops

  /** The list with the smallest next key, the first among equals; nothing when all are used up. */
  method FindSmallest(rest: Lists) returns (smallest: Option<nat>)
    ensures smallest.None? ==> forall i :: 0 <= i < |rest| ==> rest[i] == []
    ensures smallest.Some? ==> Smallest(rest, smallest.value)
  {
    smallest := None;
    for i := 0 to |rest|
      invariant smallest.None? ==> forall j :: 0 <= j < i ==> rest[j] == []
      invariant smallest.Some? ==> smallest.value < i && Smallest(rest[..i], smallest.value)
    {
      if rest[i] != [] {
        if smallest.None? || Less(rest[i][0].key, rest[smallest.value][0].key) {
          BetterSmallest(rest, i, smallest);
          smallest := Some(i);
        } else {
          SameSmallest(rest, i, smallest.value);
        }
      }
    }
    assert rest[..|rest|] == rest;
  }

  lemma BetterSmallest(rest: Lists, i: nat, smallest: Option<nat>)
    requires i < |rest| && rest[i] != []
    requires smallest.None? ==> forall j :: 0 <= j < i ==> rest[j] == []
    requires smallest.Some? ==> Smallest(rest[..i], smallest.value) && Less(rest[i][0].key, rest[smallest.value][0].key)
    ensures Smallest(rest[..i + 1], i)
  {
    KeyOrder();
    forall j | 0 <= j < i && rest[j] != [] ensures Less(rest[i][0].key, rest[j][0].key) {
      assert rest[..i][j] == rest[j];
    }
  }

  lemma SameSmallest(rest: Lists, i: nat, m: nat)
    requires i < |rest| && rest[i] != [] && m < i && Smallest(rest[..i], m) && !Less(rest[i][0].key, rest[m][0].key)
    ensures Smallest(rest[..i + 1], m)
  {
    LessTotal(rest[i][0].key, rest[m][0].key);
    forall j | 0 <= j < i && rest[j] != []
      ensures AtMost(rest[m][0].key, rest[j][0].key) && (j < m ==> Less(rest[m][0].key, rest[j][0].key))
    {
      assert rest[..i][j] == rest[j];
    }
  }

  lemma {:induction false} ConcatUsedUp(vs: Lists)
    requires forall i :: 0 <= i < |vs| ==> vs[i] == []
    ensures Concat(vs) == []
  {
    if vs != [] {
      ConcatUsedUp(vs[1..]);
    }
  }

  lemma MergingStarts(vs: Lists)
    requires AllOrdered(vs)
    ensures Merging(Concat(vs), [], vs)
  {
  }

  lemma MergingEnds(all: seq<Entry>, done: seq<Entry>, rest: Lists)
    requires Merging(all, done, rest) && Concat(rest) == []
    ensures Ordered(done) && SameByKey(done, all)
  {
    forall k ensures Only(done, Of(k)) == Only(all, Of(k)) {
      assert Only(done, Of(k)) + Only(Concat(rest), Of(k)) == Only(all, Of(k));
      assert Only(done, Of(k)) + [] == Only(done, Of(k));
    }
  }

  lemma SingleList(vs: Lists)
    requires |vs| == 1
    ensures Concat(vs) == vs[0]
  {
    assert vs[1..] == [];
  }

  /** Merge any number of lists. Nothing is lost or made up; when the inputs are in order, so is the result,
      and items of one key keep the order of the input lists. */
  method MergeSortedItems(vs: Lists) returns (result: seq<Entry>)
    ensures multiset(result) == multiset(Concat(vs))
    ensures AllOrdered(vs) ==> Ordered(result) && SameByKey(result, Concat(vs))
  {
    if |vs| == 0 {
      return [];
    }
    if |vs| == 1 {
      SingleList(vs);
      return vs[0];
    }
    result := [];
    var rest := vs;
    if AllOrdered(vs) {
      MergingStarts(vs);
    }
    while true
      invariant multiset(result) + multiset(Concat(rest)) == multiset(Concat(vs))
      invariant AllOrdered(vs) ==> Merging(Concat(vs), result, rest)
      decreases |Concat(rest)|
    {
      var smallest := FindSmallest(rest);
      if smallest.None? {
        ConcatUsedUp(rest);
        if AllOrdered(vs) {
          MergingEnds(Concat(vs), result, rest);
        }
        return;
      }
      var m := smallest.value;
      AdvancedCounts(rest, m);
      if AllOrdered(vs) {
        TakeOne(Concat(vs), result, rest, m);
      }
      result := result + [rest[m][0]];
      rest := rest[m := rest[m][1..]];
    }
  }

  // ---------------------------------------------------------------- only one such list

  lemma {:induction false} OnlyHead(es: seq<Entry>, k: Key)
    requires Only(es, Of(k)) != []
    ensures exists i :: 0 <= i < |es| && es[i].key == k
  {
    if es != [] && es[0].key != k {
      OnlyHead(es[1..], k);
      var i :| 0 <= i < |es[1..]| && es[1..][i].key == k;
      assert es[i + 1].key == k;
    }
  }

  /** The stable sort is determined: two lists in order with the same items key by key are equal. */
  lemma {:induction false} StableSortUnique(a: seq<Entry>, b: seq<Entry>)
    requires Ordered(a) && Ordered(b) && SameByKey(a, b)
    ensures a == b
  {
    if a != [] || b != [] {
      BothNonEmpty(a, b);
      SameFirstKey(a, b);
      var k := a[0].key;
      assert Only(a, Of(k))[0] == a[0] && Only(b, Of(k))[0] == b[0];
      forall j ensures Only(a[1..], Of(j)) == Only(b[1..], Of(j)) {
        TailByKey(a, b, j);
      }
      StableSortUnique(a[1..], b[1..]);
      assert a == [a[0]] + a[1..] && b == [b[0]] + b[1..];
    }
  }

  lemma BothNonEmpty(a: seq<Entry>, b: seq<Entry>)
    requires SameByKey(a, b)
    ensures a == [] <==> b == []
  {
    if a != [] {
      assert Only(a, Of(a[0].key)) != [];
      assert Only(b, Of(a[0].key)) != [];
    }
    if b != [] {
      assert Only(b, Of(b[0].key)) != [];
      assert Only(a, Of(b[0].key)) != [];
    }
  }

  lemma SameFirstKey(a: seq<Entry>, b: seq<Entry>)
    requires Ordered(a) && Ordered(b) && SameByKey(a, b) && a != [] && b != []
    ensures a[0].key == b[0].key
  {
    assert Only(a, Of(a[0].key)) != [] && Only(b, Of(b[0].key)) != [];
    OnlyHead(b, a[0].key);
    OnlyHead(a, b[0].key);
    var i :| 0 <= i < |b| && b[i].key == a[0].key;
    var j :| 0 <= j < |a| && a[j].key == b[0].key;
    Antisymmetric(a[0].key, b[0].key);
  }

  lemma Antisymmetric(k: Key, j: Key)
    requires AtMost(k, j) && AtMost(j, k)
    ensures k == j
  {
    if k != j {
      LessTransitive(k, j, k);
      LessIrreflexive(k);
    }
  }

  lemma TailByKey(a: seq<Entry>, b: seq<Entry>, j: Key)
    requires a != [] && b != [] && a[0] == b[0] && Only(a, Of(j)) == Only(b, Of(j))
    ensures Only(a[1..], Of(j)) == Only(b[1..], Of(j))
  {
    if a[0].key == j {
      assert Only(a, Of(j))[1..] == Only(a[1..], Of(j)) && Only(b, Of(j))[1..] == Only(b[1..], Of(j));
    } else {
      assert Only(a, Of(j)) == Only(a[1..], Of(j)) && Only(b, Of(j)) == Only(b[1..], Of(j));
    }
  }
}
