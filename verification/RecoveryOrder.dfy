/** When the order of the log matters to recovery, and when it does not. */
module RecoveryOrder {
  import opened Bytes
  import opened Results
  import opened Recovery

  // ----------------------------------------------------------- what a commit does to a key

  ghost predicate Touches(c: Commit, k: Key) {
    exists i :: 0 <= i < |c.mutations| && c.mutations[i].key == k
  }

  /** The last write of a commit to a key. */
  function Outcome(c: Commit, k: Key): Option<Cell> {
    LastWrite(Writes(c), k, None)
  }

  ghost predicate WritesTo(ws: seq<Write>, k: Key) {
    exists i :: 0 <= i < |ws| && ws[i].key == k
  }

  lemma TouchesWrites(c: Commit, k: Key)
    ensures Touches(c, k) <==> WritesTo(Writes(c), k)
  {
    var ws := Writes(c);
    forall i | 0 <= i < |ws| ensures ws[i].key == c.mutations[i].key { }
  }

  lemma {:induction false} LastWriteBefore(ws: seq<Write>, k: Key, a: Option<Cell>, b: Option<Cell>)
    ensures WritesTo(ws, k) ==> LastWrite(ws, k, a) == LastWrite(ws, k, b)
    ensures !WritesTo(ws, k) ==> LastWrite(ws, k, a) == a
  {
    if ws != [] {
      var n := |ws| - 1;
      LastWriteBefore(ws[..n], k, a, b);
      if WritesTo(ws, k) && ws[n].key != k {
        var i :| 0 <= i < |ws| && ws[i].key == k;
        assert ws[..n][i].key == k;
      }
      if WritesTo(ws[..n], k) {
        var i :| 0 <= i < n && ws[..n][i].key == k;
        assert ws[i].key == k;
      }
    }
  }

  lemma {:induction false} LastWriteConcat(a: seq<Write>, b: seq<Write>, k: Key, before: Option<Cell>)
    ensures LastWrite(a + b, k, before) == LastWrite(b, k, LastWrite(a, k, before))
    decreases |b|
  {
    if b == [] {
      assert a + b == a;
    } else {
      var n := |b| - 1;
      assert (a + b)[..|a + b| - 1] == a + b[..n] && (a + b)[|a + b| - 1] == b[n];
      LastWriteConcat(a, b[..n], k, before);
    }
  }

  // ------------------------------------------------------------------ the deciding commits

  /** A commit that writes a key and has the greatest transaction id of all that do. */
  ghost predicate Decides(cs: seq<Commit>, c: Commit, k: Key) {
    c in cs && Touches(c, k) && forall d :: d in cs && Touches(d, k) ==> d.txnId <= c.txnId
  }

  /** For every key the deciding commits agree on its last write. */
  ghost predicate Agreed(cs: seq<Commit>) {
    forall k, c, d :: Decides(cs, c, k) && Decides(cs, d, k) ==> Outcome(c, k) == Outcome(d, k)
  }

  /** Of commits in order, the outcome for a key is that of some deciding commit, or what was there before. */
  lemma {:induction false} SomeDecides(cs: seq<Commit>, k: Key, before: Option<Cell>)
    requires NonDecreasing(cs)
    ensures (forall c :: c in cs ==> !Touches(c, k)) ==> LastWrite(AllWrites(cs), k, before) == before
    ensures (exists c :: c in cs && Touches(c, k)) ==>
              exists c :: Decides(cs, c, k) && LastWrite(AllWrites(cs), k, before) == Outcome(c, k)
    decreases |cs|
  {
    if cs != [] {
      var n := |cs| - 1;
      var front, last := cs[..n], cs[n];
      LastCommitDecides(cs, k, before);
      SomeDecides(front, k, before);
      if Touches(last, k) {
        LastIsDeciding(cs, k);
      } else if c :| c in cs && Touches(c, k) {
        assert cs == front + [last];
        assert c in front;
        var d :| Decides(front, d, k) && LastWrite(AllWrites(front), k, before) == Outcome(d, k);
        DecidingInFront(cs, d, k);
      } else {
        forall c | c in front ensures !Touches(c, k) {
          assert c in cs;
        }
      }
    }
  }

  lemma LastIsDeciding(cs: seq<Commit>, k: Key)
    requires NonDecreasing(cs) && cs != [] && Touches(cs[|cs| - 1], k)
    ensures Decides(cs, cs[|cs| - 1], k)
  {
    forall d | d in cs && Touches(d, k) ensures d.txnId <= cs[|cs| - 1].txnId {
      var i :| 0 <= i < |cs| && cs[i] == d;
    }
  }

  lemma DecidingInFront(cs: seq<Commit>, d: Commit, k: Key)
    requires cs != [] && !Touches(cs[|cs| - 1], k) && Decides(cs[..|cs| - 1], d, k)
    ensures Decides(cs, d, k)
  {
    assert cs == cs[..|cs| - 1] + [cs[|cs| - 1]];
  }

  lemma LastCommitDecides(cs: seq<Commit>, k: Key, before: Option<Cell>)
    requires cs != []
    ensures var n := |cs| - 1;
            LastWrite(AllWrites(cs), k, before)
            == if Touches(cs[n], k) then Outcome(cs[n], k) else LastWrite(AllWrites(cs[..n]), k, before)
  {
    var n := |cs| - 1;
    assert cs == cs[..n] + [cs[n]];
    AllWritesSplit(cs[..n], [cs[n]]);
    assert AllWrites([cs[n]]) == Writes(cs[n]) + [] == Writes(cs[n]);
    LastWriteConcat(AllWrites(cs[..n]), Writes(cs[n]), k, before);
    LastWriteBefore(Writes(cs[n]), k, LastWrite(AllWrites(cs[..n]), k, before), None);
    TouchesWrites(cs[n], k);
  }

  // ------------------------------------------------------------ agreement is enough

  lemma SameMembers(a: seq<Commit>, b: seq<Commit>)
    requires multiset(a) == multiset(b)
    ensures forall c :: c in a <==> c in b
  {
    forall c ensures c in a <==> c in b {
      assert c in a <==> c in multiset(a);
      assert c in b <==> c in multiset(b);
    }
  }

  lemma SameOutcome(a: seq<Commit>, b: seq<Commit>, k: Key, before: Option<Cell>)
    requires NonDecreasing(a) && NonDecreasing(b) && multiset(a) == multiset(b) && Agreed(a)
    ensures LastWrite(AllWrites(a), k, before) == LastWrite(AllWrites(b), k, before)
  {
    SameMembers(a, b);
    SomeDecides(a, k, before);
    SomeDecides(b, k, before);
    if exists c :: c in a && Touches(c, k) {
      var c :| Decides(a, c, k) && LastWrite(AllWrites(a), k, before) == Outcome(c, k);
      var d :| Decides(b, d, k) && LastWrite(AllWrites(b), k, before) == Outcome(d, k);
      assert Decides(a, d, k);
    }
  }

  lemma AgreedSame(a: seq<Commit>, b: seq<Commit>)
    requires multiset(a) == multiset(b) && Agreed(a)
    ensures Agreed(b)
  {
    SameMembers(a, b);
    forall k, c, d | Decides(b, c, k) && Decides(b, d, k) ensures Outcome(c, k) == Outcome(d, k) {
      assert Decides(a, c, k) && Decides(a, d, k);
    }
  }

  lemma SameTableRecovered(crc: Checksum, base: Table, a: seq<Commit>, b: seq<Commit>)
    requires multiset(a) == multiset(b) && Agreed(Committed(crc, a))
    ensures ApplyWrites(base, AllWrites(Replayed(crc, a))) == ApplyWrites(base, AllWrites(Replayed(crc, b)))
  {
    var x, y := Replayed(crc, a), Replayed(crc, b);
    SameCommitted(crc, a, b);
    SortByIdKeeps(Committed(crc, a));
    SortByIdKeeps(Committed(crc, b));
    SortByIdSorts(Committed(crc, a));
    SortByIdSorts(Committed(crc, b));
    AgreedSame(Committed(crc, a), x);
    forall k ensures LookUp(ApplyWrites(base, AllWrites(x)), k) == LookUp(ApplyWrites(base, AllWrites(y)), k) {
      ReplayIsLastWrite(base, AllWrites(x), k);
      ReplayIsLastWrite(base, AllWrites(y), k);
      SameOutcome(x, y, k, LookUp(base, k));
    }
    SameTable(ApplyWrites(base, AllWrites(x)), ApplyWrites(base, AllWrites(y)));
  }

  // ------------------------------------------------- the counters never depend on the order

  function TotalPuts(cs: seq<Commit>): nat {
    if cs == [] then 0 else Puts(Writes(cs[0])) + TotalPuts(cs[1..])
  }

  lemma {:induction false} PutsAdd(cs: seq<Commit>)
    ensures Puts(AllWrites(cs)) == TotalPuts(cs)
  {
    if cs != [] {
      PutsAdd(cs[1..]);
      ApplyWritesSplit(map[], Writes(cs[0]), AllWrites(cs[1..]));
    }
  }

  lemma {:induction false} TakeOut(cs: seq<Commit>, i: nat)
    requires i < |cs|
    ensures TotalPuts(cs) == Puts(Writes(cs[i])) + TotalPuts(cs[..i] + cs[i + 1..])
    ensures TotalMutations(cs) == |cs[i].mutations| + TotalMutations(cs[..i] + cs[i + 1..])
  {
    if i == 0 {
      assert cs[..0] + cs[1..] == cs[1..];
    } else {
      var rest := cs[..i] + cs[i + 1..];
      assert rest[0] == cs[0] && rest[1..] == cs[1..][..i - 1] + cs[1..][i..];
      TakeOut(cs[1..], i - 1);
    }
  }

  lemma OutOfMultiset(cs: seq<Commit>, i: nat)
    requires i < |cs|
    ensures multiset(cs[..i] + cs[i + 1..]) == multiset(cs) - multiset{cs[i]}
  {
    assert cs == cs[..i] + ([cs[i]] + cs[i + 1..]);
    assert multiset(cs) == multiset(cs[..i] + cs[i + 1..]) + multiset{cs[i]};
  }

  lemma {:induction false} SameTotals(a: seq<Commit>, b: seq<Commit>)
    requires multiset(a) == multiset(b)
    ensures TotalPuts(a) == TotalPuts(b) && TotalMutations(a) == TotalMutations(b) && |a| == |b|
    decreases |a|
  {
    assert |a| == |multiset(a)| == |multiset(b)| == |b|;
    if a != [] {
      var i := PairOff(a, b);
      TakeOut(b, i);
      SameTotals(a[1..], b[..i] + b[i + 1..]);
    }
  }

  lemma PairOff(a: seq<Commit>, b: seq<Commit>) returns (i: nat)
    requires a != [] && multiset(a) == multiset(b)
    ensures i < |b| && b[i] == a[0] && multiset(a[1..]) == multiset(b[..i] + b[i + 1..])
  {
    SameMembers(a, b);
    assert a[0] in b;
    i :| 0 <= i < |b| && b[i] == a[0];
    HeadOut(a);
    OutOfMultiset(b, i);
  }

  lemma HeadOut(cs: seq<Commit>)
    requires cs != []
    ensures multiset(cs[1..]) == multiset(cs) - multiset{cs[0]}
  {
    assert cs == [cs[0]] + cs[1..];
  }

  lemma SameCounters(crc: Checksum, base: Table, a: seq<Commit>, b: seq<Commit>)
    requires multiset(a) == multiset(b)
    ensures Recover(crc, base, a).Some? <==> Recover(crc, base, b).Some?
    ensures Recover(crc, base, a).Some? ==> Recover(crc, base, a).value.1 == Recover(crc, base, b).value.1
  {
    var x, y := Replayed(crc, a), Replayed(crc, b);
    SameCommitted(crc, a, b);
    SortByIdKeeps(Committed(crc, a));
    SortByIdKeeps(Committed(crc, b));
    SameTotals(x, y);
    SameTotals(a, b);
    PutsAdd(x);
    PutsAdd(y);
    AllWritesLength(x);
    AllWritesLength(y);
  }

  // --------------------------------------------------------------- agreement is needed

  /** Sorting puts the last record of its id behind all others of that id. */
  lemma {:induction false} LastOfItsId(cs: seq<Commit>, d: Commit) returns (front: seq<Commit>, back: seq<Commit>)
    ensures SortById(cs + [d]) == front + ([d] + back)
    ensures (forall c :: c in front ==> c.txnId <= d.txnId) && (forall c :: c in back ==> d.txnId < c.txnId)
    decreases |cs|
  {
    if cs == [] {
      front, back := [], [];
      assert cs + [d] == [d] && [d][1..] == [];
      assert SortById([d]) == InsertById(d, SortById([])) == [d];
    } else {
      assert (cs + [d])[0] == cs[0] && (cs + [d])[1..] == cs[1..] + [d];
      var f, b := LastOfItsId(cs[1..], d);
      front, back := InsertAround(cs[0], f, d, b);
    }
  }

  lemma {:induction false} InsertAround(x: Commit, f: seq<Commit>, d: Commit, b: seq<Commit>)
    returns (front: seq<Commit>, back: seq<Commit>)
    requires (forall c :: c in f ==> c.txnId <= d.txnId) && (forall c :: c in b ==> d.txnId < c.txnId)
    ensures InsertById(x, f + ([d] + b)) == front + ([d] + back)
    ensures (forall c :: c in front ==> c.txnId <= d.txnId) && (forall c :: c in back ==> d.txnId < c.txnId)
    decreases |f|
  {
    var all := f + ([d] + b);
    if f == [] {
      assert all == [d] + b && all[1..] == b;
      if x.txnId <= d.txnId {
        front, back := [x], b;
      } else {
        front, back := [], InsertById(x, b);
        forall c | c in back ensures d.txnId < c.txnId {
          InsertByIdMember(x, b, c);
        }
      }
    } else if x.txnId <= f[0].txnId {
      assert f[0] in f;
      front, back := [x] + f, b;
    } else {
      assert all[1..] == f[1..] + ([d] + b);
      var g, h := InsertAround(x, f[1..], d, b);
      front, back := [f[0]] + g, h;
    }
  }

  /** A deciding commit that comes last in the log is the one whose write stays. */
  lemma LastDecides(cs: seq<Commit>, d: Commit, k: Key, before: Option<Cell>)
    requires Decides(cs + [d], d, k)
    ensures LastWrite(AllWrites(SortById(cs + [d])), k, before) == Outcome(d, k)
  {
    var front, back := LastOfItsId(cs, d);
    var all := front + ([d] + back);
    SortByIdKeeps(cs + [d]);
    SameMembers(all, cs + [d]);
    forall c | c in back ensures !Touches(c, k) {
      assert c in all;
    }
    AllWritesSplit(front + [d], back);
    Assoc(front, [d], back);
    LastWriteConcat(AllWrites(front + [d]), AllWrites(back), k, before);
    UntouchedBy(back, k, LastWrite(AllWrites(front + [d]), k, before));
    LastCommitDecides(front + [d], k, before);
  }

  lemma {:induction false} UntouchedBy(cs: seq<Commit>, k: Key, before: Option<Cell>)
    requires forall c :: c in cs ==> !Touches(c, k)
    ensures LastWrite(AllWrites(cs), k, before) == before
    decreases |cs|
  {
    if cs != [] {
      var n := |cs| - 1;
      LastCommitDecides(cs, k, before);
      assert cs[n] in cs;
      forall c | c in cs[..n] ensures !Touches(c, k) {
        assert c in cs;
      }
      UntouchedBy(cs[..n], k, before);
    }
  }

  /** The log with one of its deciding commits moved to the end. */
  lemma MovedLast(crc: Checksum, base: Table, rs: seq<Commit>, d: Commit, k: Key) returns (b: seq<Commit>)
    requires Decides(Committed(crc, rs), d, k)
    ensures multiset(b) == multiset(rs) && Recover(crc, base, b).Some?
    ensures LookUp(Recover(crc, base, b).value.0, k) == Outcome(d, k)
  {
    CommittedCounts(crc, rs, d);
    assert d in multiset(Committed(crc, rs)) && d in multiset(rs);
    var i :| 0 <= i < |rs| && rs[i] == d;
    var rest := rs[..i] + rs[i + 1..];
    b := rest + [d];
    OutOfMultiset(rs, i);
    assert multiset(b) == multiset(rest) + multiset{d};
    CommittedSplit(crc, rest, [d]);
    assert Committed(crc, [d]) == [d] by { assert [d][1..] == []; }
    SameCommitted(crc, rs, b);
    SameMembers(Committed(crc, rs), Committed(crc, b));
    assert Decides(Committed(crc, b), d, k);
    LastDecides(Committed(crc, rest), d, k, LookUp(base, k));
    ReplayIsLastWrite(base, AllWrites(Replayed(crc, b)), k);
  }

  lemma DisagreementShows(crc: Checksum, base: Table, rs: seq<Commit>)
    requires !Agreed(Committed(crc, rs))
    ensures exists b :: multiset(b) == multiset(rs) && Recover(crc, base, b) != Recover(crc, base, rs)
  {
    var k, c, d :| Decides(Committed(crc, rs), c, k) && Decides(Committed(crc, rs), d, k)
        && Outcome(c, k) != Outcome(d, k);
    var x := MovedLast(crc, base, rs, c, k);
    var y := MovedLast(crc, base, rs, d, k);
    if Recover(crc, base, x) == Recover(crc, base, rs) {
      assert Recover(crc, base, y) != Recover(crc, base, rs);
    }
  }

  // -------------------------------------------------------------------------- the theorem

  /** Recovery gives the same table and counters for every reordering of the log if and only if, for every key,
      the valid commits of the greatest transaction id that write it agree on their last write to it. */
  lemma LogOrderIrrelevantIff(crc: Checksum, base: Table, rs: seq<Commit>)
    ensures (forall b :: multiset(b) == multiset(rs) ==> Recover(crc, base, b) == Recover(crc, base, rs))
            <==> Agreed(Committed(crc, rs))
  {
    if Agreed(Committed(crc, rs)) {
      forall b | multiset(b) == multiset(rs) ensures Recover(crc, base, b) == Recover(crc, base, rs) {
        SameCounters(crc, base, rs, b);
        SameTableRecovered(crc, base, rs, b);
        EmptyTogether(crc, rs, b);
      }
    } else {
      DisagreementShows(crc, base, rs);
    }
  }

  lemma EmptyTogether(crc: Checksum, a: seq<Commit>, b: seq<Commit>)
    requires multiset(a) == multiset(b)
    ensures a == [] <==> b == []
  {
    assert |a| == |multiset(a)| == |multiset(b)| == |b|;
  }

  lemma DistinctAgree(cs: seq<Commit>)
    requires DistinctIds(cs)
    ensures Agreed(cs)
  {
    forall k, c, d | Decides(cs, c, k) && Decides(cs, d, k) ensures Outcome(c, k) == Outcome(d, k) {
      var i :| 0 <= i < |cs| && cs[i] == c;
      var j :| 0 <= j < |cs| && cs[j] == d;
      assert i == j;
    }
  }

  /** With distinct transaction ids among the valid commits the order of the log does not matter. */
  lemma LogOrderIrrelevant(crc: Checksum, base: Table, a: seq<Commit>, b: seq<Commit>)
    requires multiset(a) == multiset(b) && DistinctIds(Committed(crc, a))
    ensures Recover(crc, base, a) == Recover(crc, base, b)
  {
    DistinctAgree(Committed(crc, a));
    LogOrderIrrelevantIff(crc, base, a);
  }
}
