/** What recovery makes of a log, said on the records of the log themselves: for every key
    the last mutation of the last valid commit that touches it, and counters that count the mutations. */
module RecoveryMeaning {
  import opened Bytes
  import opened Results
  import opened Filters
  import opened Recovery
  import opened RecoveryOrder

  // ----------------------------------------------------------------- one commit, one key

  /** The last mutation of a commit to a key. */
  ghost predicate LastIn(c: Commit, m: nat, k: Key) {
    && m < |c.mutations| && c.mutations[m].key == k
    && (forall j :: m < j < |c.mutations| ==> c.mutations[j].key != k)
  }

  /** What a mutation of a commit leaves under its key. */
  function Left(c: Commit, m: nat): Option<Cell>
    requires m < |c.mutations|
  {
    match c.mutations[m]
    case PutMutation(_, v) => Some(Cell(v, c.txnId))
    case DeleteMutation(_) => None
  }

  lemma {:induction false} LastWriteAt(ws: seq<Write>, m: nat, k: Key, before: Option<Cell>)
    requires m < |ws| && ws[m].key == k && (forall j :: m < j < |ws| ==> ws[j].key != k)
    ensures LastWrite(ws, k, before) == ws[m].cell
    decreases |ws|
  {
    if m < |ws| - 1 {
      LastWriteAt(ws[..|ws| - 1], m, k, before);
    }
  }

  lemma OutcomeIsLeft(c: Commit, m: nat, k: Key)
    requires LastIn(c, m, k)
    ensures Touches(c, k) && Outcome(c, k) == Left(c, m)
  {
    var ws := Writes(c);
    forall j | m < j < |ws| ensures ws[j].key != k {
      assert c.mutations[j].key != k;
    }
    LastWriteAt(ws, m, k, None);
  }

  // ---------------------------------------------------------------- a list of commits

  /** Replaying commits leaves for a key what the last mutation of the last commit that touches it says. */
  lemma ReplayLeaves(t: Table, front: seq<Commit>, c: Commit, back: seq<Commit>, m: nat, k: Key)
    requires LastIn(c, m, k) && forall d :: d in back ==> !Touches(d, k)
    ensures LookUp(ApplyWrites(t, AllWrites(front + ([c] + back))), k) == Left(c, m)
  {
    var before := LookUp(t, k);
    OutcomeIsLeft(c, m, k);
    Assoc(front, [c], back);
    ReplayIsLastWrite(t, AllWrites(front + ([c] + back)), k);
    AllWritesSplit(front + [c], back);
    LastWriteConcat(AllWrites(front + [c]), AllWrites(back), k, before);
    UntouchedBy(back, k, LastWrite(AllWrites(front + [c]), k, before));
    LastCommitDecides(front + [c], k, before);
  }

  /** The same by position in the list. */
  lemma ReplayLeavesAt(t: Table, cs: seq<Commit>, i: nat, m: nat, k: Key)
    requires i < |cs| && LastIn(cs[i], m, k) && forall j :: i < j < |cs| ==> !Touches(cs[j], k)
    ensures LookUp(ApplyWrites(t, AllWrites(cs)), k) == Left(cs[i], m)
  {
    assert cs == cs[..i] + ([cs[i]] + cs[i + 1..]);
    ReplayLeaves(t, cs[..i], cs[i], cs[i + 1..], m, k);
  }

  /** A key that no commit touches keeps what it had. */
  lemma ReplayKeeps(t: Table, cs: seq<Commit>, k: Key)
    requires forall c :: c in cs ==> !Touches(c, k)
    ensures LookUp(ApplyWrites(t, AllWrites(cs)), k) == LookUp(t, k)
  {
    ReplayIsLastWrite(t, AllWrites(cs), k);
    UntouchedBy(cs, k, LookUp(t, k));
  }

  // ------------------------------------------------------------ where sorting puts a record

  /** Inserting a record in front of the others leaves it before all that have its id. */
  lemma {:induction false} InsertSelf(d: Commit, cs: seq<Commit>) returns (front: seq<Commit>, back: seq<Commit>)
    requires NonDecreasing(cs)
    ensures InsertById(d, cs) == front + ([d] + back)
    ensures forall c :: c in front ==> c.txnId <= d.txnId
    ensures forall c :: c in back ==> c in cs && d.txnId <= c.txnId
    decreases |cs|
  {
    if cs == [] || d.txnId <= cs[0].txnId {
      front, back := [], cs;
    } else {
      var f, b := InsertSelf(d, cs[1..]);
      front, back := [cs[0]] + f, b;
    }
  }

  /** Inserting another record: it goes behind the one in the middle only when its id is greater. */
  lemma {:induction false} InsertBeside(x: Commit, f: seq<Commit>, d: Commit, b: seq<Commit>)
    returns (front: seq<Commit>, back: seq<Commit>)
    requires forall c :: c in f ==> c.txnId <= d.txnId
    ensures InsertById(x, f + ([d] + b)) == front + ([d] + back)
    ensures forall c :: c in front ==> c.txnId <= d.txnId
    ensures forall c :: c in back ==> c in b || (c == x && d.txnId < x.txnId)
    decreases |f|
  {
    var all := f + ([d] + b);
    if f == [] {
      assert all == [d] + b && all[1..] == b;
      if x.txnId <= d.txnId {
        front, back := [x], b;
      } else {
        front, back := [], InsertById(x, b);
        forall c | c in back ensures c in b || c == x {
          InsertByIdMember(x, b, c);
        }
      }
    } else if x.txnId <= f[0].txnId {
      assert f[0] in f;
      front, back := [x] + f, b;
    } else {
      assert all[1..] == f[1..] + ([d] + b);
      var g, h := InsertBeside(x, f[1..], d, b);
      front, back := [f[0]] + g, h;
    }
  }

  /** Sorting is stable: behind a record come only greater ids, and those of its own id that followed it. */
  lemma {:induction false} SortedAround(a: seq<Commit>, d: Commit, b: seq<Commit>)
    returns (front: seq<Commit>, back: seq<Commit>)
    ensures SortById(a + ([d] + b)) == front + ([d] + back)
    ensures forall c :: c in front ==> c.txnId <= d.txnId
    ensures forall c :: c in back ==> (c in a && d.txnId < c.txnId) || (c in b && d.txnId <= c.txnId)
    decreases |a|
  {
    var all := a + ([d] + b);
    if a == [] {
      assert all[0] == d && all[1..] == b;
      SortByIdSorts(b);
      SortByIdKeeps(b);
      SameMembers(SortById(b), b);
      front, back := InsertSelf(d, SortById(b));
    } else {
      assert all[0] == a[0] && all[1..] == a[1..] + ([d] + b);
      var f, h := SortedAround(a[1..], d, b);
      front, back := InsertBeside(a[0], f, d, h);
    }
  }

  // -------------------------------------------------------------------- the whole log

  lemma CommittedMember(crc: Checksum, rs: seq<Commit>, c: Commit)
    ensures c in Committed(crc, rs) <==> c in rs && crc(c.txnId, c.rootPageId, c.mutations) == c.checksum
  {
    CommittedCounts(crc, rs, c);
    assert c in Committed(crc, rs) <==> c in multiset(Committed(crc, rs));
    assert c in rs <==> c in multiset(rs);
  }

  /** A valid record of the log that touches a key. */
  ghost predicate Counts(crc: Checksum, rs: seq<Commit>, i: nat, k: Key) {
    && i < |rs| && Touches(rs[i], k)
    && crc(rs[i].txnId, rs[i].rootPageId, rs[i].mutations) == rs[i].checksum
  }

  /** The record that speaks last about a key: the greatest transaction id and, of equal ones, the latest in the log. */
  ghost predicate SpeaksLast(crc: Checksum, rs: seq<Commit>, i: nat, k: Key) {
    && Counts(crc, rs, i, k)
    && (forall j: nat :: Counts(crc, rs, j, k) && j != i ==>
          rs[j].txnId < rs[i].txnId || (rs[j].txnId == rs[i].txnId && j < i))
  }

  lemma BehindTheLast(crc: Checksum, rs: seq<Commit>, i: nat, k: Key, c: Commit)
    requires SpeaksLast(crc, rs, i, k)
    requires (c in Committed(crc, rs[..i]) && rs[i].txnId < c.txnId)
             || (c in Committed(crc, rs[i + 1..]) && rs[i].txnId <= c.txnId)
    ensures !Touches(c, k)
  {
    CommittedMember(crc, rs[..i], c);
    CommittedMember(crc, rs[i + 1..], c);
    if c in Committed(crc, rs[..i]) && rs[i].txnId < c.txnId {
      var j: nat :| j < i && rs[..i][j] == c;
      assert rs[j] == c && !Counts(crc, rs, j, k);
    } else {
      var j: nat :| j < |rs[i + 1..]| && rs[i + 1..][j] == c;
      assert rs[i + 1 + j] == c && !Counts(crc, rs, i + 1 + j, k);
    }
  }

  lemma CommittedAround(crc: Checksum, rs: seq<Commit>, i: nat)
    requires i < |rs| && crc(rs[i].txnId, rs[i].rootPageId, rs[i].mutations) == rs[i].checksum
    ensures Committed(crc, rs) == Committed(crc, rs[..i]) + ([rs[i]] + Committed(crc, rs[i + 1..]))
  {
    assert rs == rs[..i] + rs[i..];
    CommittedSplit(crc, rs[..i], rs[i..]);
    assert rs[i..][0] == rs[i] && rs[i..][1..] == rs[i + 1..];
  }

  /** Recovery stores under every touched key what the last mutation of the record that speaks last says: its value
      with the transaction id as LSN for a put, and nothing for a delete. */
  lemma RecoversLastMutation(crc: Checksum, base: Table, rs: seq<Commit>, i: nat, m: nat, k: Key)
    requires SpeaksLast(crc, rs, i, k) && LastIn(rs[i], m, k)
    ensures Recover(crc, base, rs).Some?
    ensures LookUp(Recover(crc, base, rs).value.0, k)
            == match rs[i].mutations[m]
               case PutMutation(_, v) => Some(Cell(v, rs[i].txnId))
               case DeleteMutation(_) => None
  {
    CommittedAround(crc, rs, i);
    var a, b := Committed(crc, rs[..i]), Committed(crc, rs[i + 1..]);
    var front, back := SortedAround(a, rs[i], b);
    forall c | c in back ensures !Touches(c, k) {
      BehindTheLast(crc, rs, i, k, c);
    }
    ReplayLeaves(base, front, rs[i], back, m, k);
  }

  /** A key that no valid record touches keeps what the tree had. */
  lemma RecoveryKeepsUntouched(crc: Checksum, base: Table, rs: seq<Commit>, k: Key)
    requires Recover(crc, base, rs).Some? && (forall i: nat :: !Counts(crc, rs, i, k))
    ensures LookUp(Recover(crc, base, rs).value.0, k) == LookUp(base, k)
  {
    var cs := Replayed(crc, rs);
    SortByIdKeeps(Committed(crc, rs));
    SameMembers(cs, Committed(crc, rs));
    forall c | c in cs ensures !Touches(c, k) {
      CommittedMember(crc, rs, c);
      var i: nat :| i < |rs| && rs[i] == c;
      assert !Counts(crc, rs, i, k);
    }
    if rs != [] {
      ReplayKeeps(base, cs, k);
    }
  }

  /** The two cases cover every key: a touched key has a record that speaks last, with a last mutation. */
  lemma {:induction false} TouchedHasLast(crc: Checksum, rs: seq<Commit>, i: nat, k: Key) returns (l: nat, m: nat)
    requires Counts(crc, rs, i, k)
    ensures SpeaksLast(crc, rs, l, k) && LastIn(rs[l], m, k)
    decreases |rs|
  {
    var n := |rs| - 1;
    l := i;
    if h: nat :| h < n && Counts(crc, rs, h, k) {
      assert Counts(crc, rs[..n], h, k);
      var f, _ := TouchedHasLast(crc, rs[..n], h, k);
      l := if Counts(crc, rs, n, k) && rs[f].txnId <= rs[n].txnId then n else f;
      forall j: nat | Counts(crc, rs, j, k) && j != l
        ensures rs[j].txnId < rs[l].txnId || (rs[j].txnId == rs[l].txnId && j < l)
      {
        assert j < n ==> Counts(crc, rs[..n], j, k);
      }
    }
    m := LastMutation(rs[l], k);
  }

  lemma LastMutation(c: Commit, k: Key) returns (m: nat)
    requires Touches(c, k)
    ensures LastIn(c, m, k)
  {
    m :| m < |c.mutations| && c.mutations[m].key == k;
    var j := m + 1;
    while j < |c.mutations|
      invariant m < j <= |c.mutations| && c.mutations[m].key == k
      invariant forall h :: m < h < j ==> c.mutations[h].key != k
    {
      if c.mutations[j].key == k {
        m := j;
      }
      j := j + 1;
    }
  }

  // ------------------------------------------------------------------------ counters

  /** How many mutations of one kind the valid records hold. */
  function Logged(crc: Checksum, rs: seq<Commit>, kind: Mutation -> bool): nat {
    if rs == [] then 0
    else
      (if crc(rs[0].txnId, rs[0].rootPageId, rs[0].mutations) == rs[0].checksum
       then |Only(rs[0].mutations, kind)| else 0) + Logged(crc, rs[1..], kind)
  }

  const IsPut := (m: Mutation) => m.PutMutation?
  const IsDelete := (m: Mutation) => m.DeleteMutation?

  lemma {:induction false} PutsCounted(ms: seq<Mutation>, ws: seq<Write>)
    requires |ws| == |ms| && forall i :: 0 <= i < |ms| ==> (ws[i].cell.Some? <==> ms[i].PutMutation?)
    ensures Puts(ws) == |Only(ms, IsPut)| && |ms| == |Only(ms, IsPut)| + |Only(ms, IsDelete)|
  {
    if ms != [] {
      PutsCounted(ms[1..], ws[1..]);
    }
  }

  lemma {:induction false} PutsLogged(crc: Checksum, rs: seq<Commit>)
    ensures TotalPuts(Committed(crc, rs)) == Logged(crc, rs, IsPut)
    ensures TotalMutations(Committed(crc, rs)) == Logged(crc, rs, IsPut) + Logged(crc, rs, IsDelete)
  {
    if rs != [] {
      PutsLogged(crc, rs[1..]);
      if Sound(crc, rs[0]) {
        PutsCounted(rs[0].mutations, Writes(rs[0]));
        assert Committed(crc, rs)[1..] == Committed(crc, rs[1..]);
      } else {
        assert Committed(crc, rs) == Committed(crc, rs[1..]);
      }
    }
  }

  lemma {:induction false} CommittedAreValid(crc: Checksum, rs: seq<Commit>)
    ensures |Committed(crc, rs)|
            == |Only(rs, (c: Commit) => crc(c.txnId, c.rootPageId, c.mutations) == c.checksum)|
  {
    if rs != [] {
      CommittedAreValid(crc, rs[1..]);
    }
  }

  /** The counters count the records of the log with a right checksum, and the puts and the deletes in them. */
  lemma CountersCount(crc: Checksum, base: Table, rs: seq<Commit>)
    requires Recover(crc, base, rs).Some?
    ensures var s := Recover(crc, base, rs).value.1;
            && s.putOperations == Logged(crc, rs, IsPut) && s.deleteOperations == Logged(crc, rs, IsDelete)
            && s.validCommits == |Only(rs, (c: Commit) => crc(c.txnId, c.rootPageId, c.mutations) == c.checksum)|
            && s.skippedCommits == |rs| - s.validCommits
  {
    var cs := Committed(crc, rs);
    PutsLogged(crc, rs);
    SortByIdKeeps(cs);
    SameTotals(Replayed(crc, rs), cs);
    PutsAdd(Replayed(crc, rs));
    AllWritesLength(Replayed(crc, rs));
    CommittedAreValid(crc, rs);
  }
}
