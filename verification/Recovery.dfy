/** Recovery from the log: keep the commits whose checksum holds, order them by transaction id and replay
    their mutations into the tree, taken here as a map. */
module Recovery {
  import opened Bytes
  import opened Results

  datatype Mutation = PutMutation(key: Key, value: seq<byte>) | DeleteMutation(key: Key)

  datatype Commit = Commit(txnId: nat, rootPageId: nat, mutations: seq<Mutation>, checksum: nat)

  /** The payload checksum, whatever its polynomial. */
  type Checksum = (nat, nat, seq<Mutation>) -> nat

  datatype Cell = Cell(value: seq<byte>, lsn: nat)

  type Table = map<Key, Cell>

  datatype Stats = Stats(commitsScanned: nat, validCommits: nat, skippedCommits: nat, checksumErrors: nat,
                         mutationsApplied: nat, putOperations: nat, deleteOperations: nat)

  datatype Progress = Progress(currentLsn: nat, commitsProcessed: nat, mutationsApplied: nat, isComplete: bool)

  const NO_STATS := Stats(0, 0, 0, 0, 0, 0, 0)

  // ------------------------------------------------------------- filtering and sorting

  predicate Sound(crc: Checksum, c: Commit) {
    crc(c.txnId, c.rootPageId, c.mutations) == c.checksum
  }

  function Committed(crc: Checksum, rs: seq<Commit>): (cs: seq<Commit>)
    ensures |cs| <= |rs|
  {
    if rs == [] then []
    else (if Sound(crc, rs[0]) then [rs[0]] else []) + Committed(crc, rs[1..])
  }

  function InsertById(c: Commit, cs: seq<Commit>): seq<Commit> {
    if cs == [] || c.txnId <= cs[0].txnId then [c] + cs else [cs[0]] + InsertById(c, cs[1..])
  }

  /** The stable sort by transaction id. */
  function SortById(cs: seq<Commit>): (r: seq<Commit>)
    ensures |r| == |cs|
  {
    if cs == [] then []
    else
      InsertByIdKeeps(cs[0], SortById(cs[1..]));
      InsertById(cs[0], SortById(cs[1..]))
  }

  lemma {:induction false} InsertByIdKeeps(c: Commit, cs: seq<Commit>)
    ensures multiset(InsertById(c, cs)) == multiset(cs) + multiset{c}
    ensures |InsertById(c, cs)| == |cs| + 1
  {
    if cs != [] && !(c.txnId <= cs[0].txnId) {
      InsertByIdKeeps(c, cs[1..]);
      assert cs == [cs[0]] + cs[1..];
    }
  }

  ghost predicate NonDecreasing(cs: seq<Commit>) {
    forall i, j :: 0 <= i < j < |cs| ==> cs[i].txnId <= cs[j].txnId
  }

  ghost predicate DistinctIds(cs: seq<Commit>) {
    forall i, j :: 0 <= i < j < |cs| ==> cs[i].txnId != cs[j].txnId
  }

  lemma {:induction false} SortByIdKeeps(cs: seq<Commit>)
    ensures multiset(SortById(cs)) == multiset(cs)
  {
    if cs != [] {
      SortByIdKeeps(cs[1..]);
      InsertByIdKeeps(cs[0], SortById(cs[1..]));
      assert cs == [cs[0]] + cs[1..];
    }
  }

  lemma {:induction false} InsertByIdSorts(c: Commit, cs: seq<Commit>)
    requires NonDecreasing(cs)
    ensures NonDecreasing(InsertById(c, cs))
  {
    if cs != [] && !(c.txnId <= cs[0].txnId) {
      var tail := cs[1..];
      InsertByIdSorts(c, tail);
      forall d | d in InsertById(c, tail) ensures cs[0].txnId <= d.txnId {
        InsertByIdMember(c, tail, d);
      }
    }
  }

  lemma {:induction false} SortByIdSorts(cs: seq<Commit>)
    ensures NonDecreasing(SortById(cs))
  {
    if cs != [] {
      SortByIdSorts(cs[1..]);
      InsertByIdSorts(cs[0], SortById(cs[1..]));
    }
  }

  lemma InsertByIdMember(c: Commit, cs: seq<Commit>, d: Commit)
    requires d in InsertById(c, cs)
    ensures d == c || d in cs
  {
    InsertByIdKeeps(c, cs);
    assert d in multiset(InsertById(c, cs));
  }

  lemma {:induction false} CommittedCounts(crc: Checksum, rs: seq<Commit>, c: Commit)
    ensures multiset(Committed(crc, rs))[c] == if Sound(crc, c) then multiset(rs)[c] else 0
  {
    if rs != [] {
      CommittedCounts(crc, rs[1..], c);
      assert rs == [rs[0]] + rs[1..];
    }
  }

  lemma SameCommitted(crc: Checksum, a: seq<Commit>, b: seq<Commit>)
    requires multiset(a) == multiset(b)
    ensures multiset(Committed(crc, a)) == multiset(Committed(crc, b))
  {
    forall c ensures multiset(Committed(crc, a))[c] == multiset(Committed(crc, b))[c] {
      CommittedCounts(crc, a, c);
      CommittedCounts(crc, b, c);
    }
  }

  // ------------------------------------------------------------------------- replay

  /** One mutation under its commit's LSN: a cell to store, or nothing to leave. */
  datatype Write = Write(key: Key, cell: Option<Cell>)

  function AsWrite(m: Mutation, lsn: nat): Write {
    match m
    case PutMutation(k, v) => Write(k, Some(Cell(v, lsn)))
    case DeleteMutation(k) => Write(k, None)
  }

  function Writes(c: Commit): (ws: seq<Write>)
    ensures |ws| == |c.mutations|
  {
    seq(|c.mutations|, i requires 0 <= i < |c.mutations| => AsWrite(c.mutations[i], c.txnId))
  }

  function AllWrites(cs: seq<Commit>): seq<Write> {
    if cs == [] then [] else Writes(cs[0]) + AllWrites(cs[1..])
  }

  function ApplyWrite(t: Table, w: Write): Table {
    match w.cell
    case Some(c) => t[w.key := c]
    case None => t - {w.key}
  }

  function ApplyWrites(t: Table, ws: seq<Write>): Table
    decreases |ws|
  {
    if ws == [] then t else ApplyWrites(ApplyWrite(t, ws[0]), ws[1..])
  }

  function Puts(ws: seq<Write>): (p: nat)
    ensures p <= |ws|
  {
    if ws == [] then 0 else (if ws[0].cell.Some? then 1 else 0) + Puts(ws[1..])
  }

  lemma {:induction false} ApplyWritesSplit(t: Table, a: seq<Write>, b: seq<Write>)
    ensures ApplyWrites(t, a + b) == ApplyWrites(ApplyWrites(t, a), b)
    ensures Puts(a + b) == Puts(a) + Puts(b)
    decreases |a|
  {
    if a == [] {
      assert a + b == b;
    } else {
      assert (a + b)[1..] == a[1..] + b;
      ApplyWritesSplit(ApplyWrite(t, a[0]), a[1..], b);
    }
  }

  lemma {:induction false} AllWritesSplit(a: seq<Commit>, b: seq<Commit>)
    ensures AllWrites(a + b) == AllWrites(a) + AllWrites(b)
  {
    if a == [] {
      assert a + b == b;
    } else {
      assert (a + b)[1..] == a[1..] + b && (a + b)[0] == a[0];
      AllWritesSplit(a[1..], b);
      Assoc(Writes(a[0]), AllWrites(a[1..]), AllWrites(b));
    }
  }

  // ------------------------------------------------------------------ last write wins

  function LookUp(t: Table, k: Key): Option<Cell> {
    if k in t then Some(t[k]) else None
  }

  /** The outcome for one key: its last write, or what was there before. */
  function LastWrite(ws: seq<Write>, k: Key, before: Option<Cell>): Option<Cell> {
    if ws == [] then before
    else if ws[|ws| - 1].key == k then ws[|ws| - 1].cell
    else LastWrite(ws[..|ws| - 1], k, before)
  }

  /** Replay leaves for every key exactly its last write. */
  lemma {:induction false} ReplayIsLastWrite(t: Table, ws: seq<Write>, k: Key)
    ensures LookUp(ApplyWrites(t, ws), k) == LastWrite(ws, k, LookUp(t, k))
    decreases |ws|
  {
    if ws != [] {
      var n := |ws| - 1;
      assert ws == ws[..n] + [ws[n]];
      ApplyWritesSplit(t, ws[..n], [ws[n]]);
      assert ApplyWrites(t, ws) == ApplyWrite(ApplyWrites(t, ws[..n]), ws[n]);
      ReplayIsLastWrite(t, ws[..n], k);
    }
  }

  lemma {:induction false} LastWriteAgain(ws: seq<Write>, n: nat, k: Key, before: Option<Cell>)
    requires n <= |ws|
    ensures LastWrite(ws, k, LastWrite(ws[..n], k, before)) == LastWrite(ws, k, before)
    decreases |ws|
  {
    if ws != [] {
      var m := |ws| - 1;
      if n <= m {
        assert ws[..m][..n] == ws[..n];
        LastWriteAgain(ws[..m], n, k, before);
      } else {
        assert ws[..n] == ws && ws[..m][..m] == ws[..m];
        LastWriteAgain(ws[..m], m, k, before);
      }
    }
  }

  lemma SameTable(a: Table, b: Table)
    requires forall k :: LookUp(a, k) == LookUp(b, k)
    ensures a == b
  {
    forall k ensures k in a <==> k in b {
      assert LookUp(a, k) == LookUp(b, k);
    }
    forall k | k in a ensures a[k] == b[k] {
      assert LookUp(a, k) == LookUp(b, k);
    }
  }

  /** A recovery that stopped after any number of mutations is completed by running it again from the start;
      with all of them done, running it again changes nothing. */
  lemma ReplayResumes(t: Table, ws: seq<Write>, n: nat)
    requires n <= |ws|
    ensures ApplyWrites(ApplyWrites(t, ws[..n]), ws) == ApplyWrites(t, ws)
  {
    var u := ApplyWrites(t, ws[..n]);
    forall k ensures LookUp(ApplyWrites(u, ws), k) == LookUp(ApplyWrites(t, ws), k) {
      ReplayIsLastWrite(u, ws, k);
      ReplayIsLastWrite(t, ws[..n], k);
      ReplayIsLastWrite(t, ws, k);
      LastWriteAgain(ws, n, k, LookUp(t, k));
    }
    SameTable(ApplyWrites(u, ws), ApplyWrites(t, ws));
  }

  // --------------------------------------------------------------- recovery as a whole

  /** The commits that get replayed, in replay order. */
  function Replayed(crc: Checksum, rs: seq<Commit>): seq<Commit> {
    SortById(Committed(crc, rs))
  }

  /** The recovered table and the counters, or the error of a log without a single valid commit. */
  function Recover(crc: Checksum, base: Table, rs: seq<Commit>): Option<(Table, Stats)> {
    var cs := Replayed(crc, rs);
    if rs == [] then Some((base, NO_STATS))
    else if cs == [] then None
    else
      var ws := AllWrites(cs);
      Some((ApplyWrites(base, ws),
            Stats(|rs|, |cs|, |rs| - |cs|, |rs| - |cs|, |ws|, Puts(ws), |ws| - Puts(ws))))
  }

  // -------------------------------------------------------------- one log after another

  lemma {:induction false} CommittedSplit(crc: Checksum, a: seq<Commit>, b: seq<Commit>)
    ensures Committed(crc, a + b) == Committed(crc, a) + Committed(crc, b)
  {
    if a == [] {
      assert a + b == b;
    } else {
      assert (a + b)[1..] == a[1..] + b && (a + b)[0] == a[0];
      CommittedSplit(crc, a[1..], b);
      Assoc(if Sound(crc, a[0]) then [a[0]] else [], Committed(crc, a[1..]), Committed(crc, b));
    }
  }

  ghost predicate IdsUpTo(a: seq<Commit>, b: seq<Commit>) {
    forall c, d :: c in a && d in b ==> c.txnId <= d.txnId
  }

  lemma {:induction false} InsertByIdFirst(c: Commit, a: seq<Commit>, b: seq<Commit>)
    requires forall d :: d in b ==> c.txnId <= d.txnId
    ensures InsertById(c, a + b) == InsertById(c, a) + b
  {
    if a == [] {
      assert a + b == b;
    } else {
      assert (a + b)[1..] == a[1..] + b;
      InsertByIdFirst(c, a[1..], b);
    }
  }

  lemma {:induction false} SortByIdSplit(a: seq<Commit>, b: seq<Commit>)
    requires IdsUpTo(a, b)
    ensures SortById(a + b) == SortById(a) + SortById(b)
  {
    if a == [] {
      assert a + b == b;
    } else {
      assert (a + b)[1..] == a[1..] + b;
      SortByIdSplit(a[1..], b);
      SortByIdKeeps(b);
      forall d | d in SortById(b) ensures a[0].txnId <= d.txnId {
        assert d in multiset(SortById(b));
      }
      InsertByIdFirst(a[0], SortById(a[1..]), SortById(b));
    }
  }

  /** Recovering a log and then a later one is recovering the two logs as one. */
  lemma RecoverInStages(crc: Checksum, base: Table, a: seq<Commit>, b: seq<Commit>)
    requires IdsUpTo(Committed(crc, a), Committed(crc, b))
    requires Recover(crc, base, a).Some? && Recover(crc, Recover(crc, base, a).value.0, b).Some?
    ensures Recover(crc, base, a + b).Some?
    ensures Recover(crc, base, a + b).value.0 == Recover(crc, Recover(crc, base, a).value.0, b).value.0
  {
    CommittedSplit(crc, a, b);
    SortByIdSplit(Committed(crc, a), Committed(crc, b));
    AllWritesSplit(Replayed(crc, a), Replayed(crc, b));
    ApplyWritesSplit(base, AllWrites(Replayed(crc, a)), AllWrites(Replayed(crc, b)));
  }

  /** Recovering again from the same log changes nothing, counters included. */
  lemma RecoverIdempotent(crc: Checksum, base: Table, rs: seq<Commit>)
    requires Recover(crc, base, rs).Some?
    ensures Recover(crc, Recover(crc, base, rs).value.0, rs) == Recover(crc, base, rs)
  {
    var ws := AllWrites(Replayed(crc, rs));
    assert ws[..|ws|] == ws;
    ReplayResumes(base, ws, |ws|);
  }

  // ----------------------------------------------------------------- counters add up

  function TotalMutations(cs: seq<Commit>): nat {
    if cs == [] then 0 else |cs[0].mutations| + TotalMutations(cs[1..])
  }

  lemma {:induction false} AllWritesLength(cs: seq<Commit>)
    ensures |AllWrites(cs)| == TotalMutations(cs)
  {
    if cs != [] {
      AllWritesLength(cs[1..]);
    }
  }

  lemma {:induction false} InsertByIdTotal(c: Commit, cs: seq<Commit>)
    ensures TotalMutations(InsertById(c, cs)) == TotalMutations(cs) + |c.mutations|
  {
    if cs != [] && !(c.txnId <= cs[0].txnId) {
      InsertByIdTotal(c, cs[1..]);
    } else {
      assert ([c] + cs)[1..] == cs;
    }
  }

  lemma {:induction false} SortByIdTotal(cs: seq<Commit>)
    ensures TotalMutations(SortById(cs)) == TotalMutations(cs)
  {
    if cs != [] {
      SortByIdTotal(cs[1..]);
      InsertByIdTotal(cs[0], SortById(cs[1..]));
    }
  }

  /** Scanned = valid + skipped, and applied = puts + deletes = the mutations of the valid commits of the log. */
  lemma CountersAddUp(crc: Checksum, base: Table, rs: seq<Commit>)
    requires Recover(crc, base, rs).Some?
    ensures var s := Recover(crc, base, rs).value.1;
            && s.commitsScanned == |rs| == s.validCommits + s.skippedCommits
            && s.checksumErrors == s.skippedCommits
            && s.mutationsApplied == s.putOperations + s.deleteOperations == TotalMutations(Committed(crc, rs))
  {
    AllWritesLength(Replayed(crc, rs));
    SortByIdTotal(Committed(crc, rs));
  }

  /** Recovery fails exactly on a non-empty log in which every checksum is wrong. */
  lemma RecoverFailsIff(crc: Checksum, base: Table, rs: seq<Commit>)
    ensures Recover(crc, base, rs).None? <==> rs != [] && forall c :: c in rs ==> !Sound(crc, c)
  {
    var cs := Committed(crc, rs);
    if c :| c in rs && Sound(crc, c) {
      CommittedCounts(crc, rs, c);
      assert c in multiset(cs);
    }
    if cs != [] {
      CommittedCounts(crc, rs, cs[0]);
      assert cs[0] in multiset(cs);
      assert cs[0] in multiset(rs);
    }
  }

  // ------------------------------------------------------------------- the loops

  lemma {:induction false} CommittedSnoc(crc: Checksum, rs: seq<Commit>, i: nat)
    requires i < |rs|
    ensures Committed(crc, rs[..i + 1]) == Committed(crc, rs[..i]) + if Sound(crc, rs[i]) then [rs[i]] else []
  {
    assert rs[..i + 1] == rs[..i] + [rs[i]];
    CommittedSplit(crc, rs[..i], [rs[i]]);
  }

  lemma OneCommitMore(t: Table, cs: seq<Commit>, i: nat)
    requires i < |cs|
    ensures AllWrites(cs[..i + 1]) == AllWrites(cs[..i]) + Writes(cs[i])
    ensures ApplyWrites(t, AllWrites(cs[..i + 1])) == ApplyWrites(ApplyWrites(t, AllWrites(cs[..i])), Writes(cs[i]))
    ensures Puts(AllWrites(cs[..i + 1])) == Puts(AllWrites(cs[..i])) + Puts(Writes(cs[i]))
  {
    assert cs[..i + 1] == cs[..i] + [cs[i]];
    AllWritesSplit(cs[..i], [cs[i]]);
    assert AllWrites([cs[i]]) == Writes(cs[i]) + [];
    ApplyWritesSplit(t, AllWrites(cs[..i]), Writes(cs[i]));
  }

  lemma OneWriteMore(t: Table, ws: seq<Write>, i: nat)
    requires i < |ws|
    ensures ApplyWrites(t, ws[..i + 1]) == ApplyWrite(ApplyWrites(t, ws[..i]), ws[i])
    ensures Puts(ws[..i + 1]) == Puts(ws[..i]) + if ws[i].cell.Some? then 1 else 0
  {
    assert ws[..i + 1] == ws[..i] + [ws[i]];
    ApplyWritesSplit(t, ws[..i], [ws[i]]);
    var last := [ws[i]];
    assert last[1..] == [];
    assert ApplyWrites(ApplyWrites(t, ws[..i]), last) == ApplyWrite(ApplyWrites(t, ws[..i]), ws[i]);
  }

  /** The tree under recovery with its counters. */
  class RecoveryContext {
    var tree: Table
    var stats: Stats
    var state: Progress

    constructor (t: Table)
      ensures tree == t && stats == NO_STATS && state == Progress(0, 0, 0, false)
    {
      tree := t;
      stats := NO_STATS;
      state := Progress(0, 0, 0, false);
    }

    method FilterCommittedTransactions(crc: Checksum, records: seq<Commit>) returns (r: Option<seq<Commit>>)
      modifies this
      ensures tree == old(tree)
      ensures r == if Replayed(crc, records) == [] && records != [] then None else Some(Replayed(crc, records))
      ensures var n := |Replayed(crc, records)|;
              && state == old(state).(commitsProcessed := old(state).commitsProcessed + n)
              && stats == old(stats).(validCommits := old(stats).validCommits + n,
                                      skippedCommits := old(stats).skippedCommits + (|records| - n),
                                      checksumErrors := old(stats).checksumErrors + (|records| - n))
    {
      var valid: seq<Commit> := [];
      for i := 0 to |records|
        invariant valid == Committed(crc, records[..i]) && tree == old(tree) && state == old(state)
        invariant stats == old(stats).(skippedCommits := old(stats).skippedCommits + (i - |valid|),
                                       checksumErrors := old(stats).checksumErrors + (i - |valid|))
      {
        CommittedSnoc(crc, records, i);
        if !Sound(crc, records[i]) {
          stats := stats.(checksumErrors := stats.checksumErrors + 1, skippedCommits := stats.skippedCommits + 1);
        } else {
          valid := valid + [records[i]];
        }
      }
      assert records[..|records|] == records;
      valid := SortById(valid);
      if valid == [] && |records| > 0 {
        return None;
      }
      for i := 0 to |valid|
        invariant tree == old(tree) && state == old(state).(commitsProcessed := old(state).commitsProcessed + i)
        invariant stats == old(stats).(validCommits := old(stats).validCommits + i,
                                       skippedCommits := old(stats).skippedCommits + (|records| - |valid|),
                                       checksumErrors := old(stats).checksumErrors + (|records| - |valid|))
      {
        stats := stats.(validCommits := stats.validCommits + 1);
        state := state.(commitsProcessed := state.commitsProcessed + 1);
      }
      return Some(valid);
    }

    /** Replay one commit's mutations, counting each. */
    method ReplayCommit(c: Commit)
      modifies this
      ensures tree == ApplyWrites(old(tree), Writes(c))
      ensures Counted(old(stats), stats, Writes(c))
      ensures state == old(state).(currentLsn := c.txnId,
                                   mutationsApplied := old(state).mutationsApplied + |Writes(c)|)
    {
      var lsn := c.txnId;
      state := state.(currentLsn := lsn);
      ghost var ws := Writes(c);
      for i := 0 to |c.mutations|
        invariant tree == ApplyWrites(old(tree), ws[..i]) && Counted(old(stats), stats, ws[..i])
        invariant state == old(state).(currentLsn := lsn, mutationsApplied := old(state).mutationsApplied + i)
      {
        OneWriteMore(old(tree), ws, i);
        match c.mutations[i] {
          case PutMutation(k, v) =>
            tree := tree[k := Cell(v, lsn)];
            stats := stats.(putOperations := stats.putOperations + 1);
          case DeleteMutation(k) =>
            tree := tree - {k};
            stats := stats.(deleteOperations := stats.deleteOperations + 1);
        }
        stats := stats.(mutationsApplied := stats.mutationsApplied + 1);
        state := state.(mutationsApplied := state.mutationsApplied + 1);
      }
      assert ws[..|c.mutations|] == ws;
    }

    method ReplayMutations(commits: seq<Commit>)
      modifies this
      ensures tree == ApplyWrites(old(tree), AllWrites(commits))
      ensures Counted(old(stats), stats, AllWrites(commits))
      ensures state.mutationsApplied == old(state).mutationsApplied + |AllWrites(commits)|
      ensures state.commitsProcessed == old(state).commitsProcessed && state.isComplete == old(state).isComplete
      ensures commits != [] ==> state.currentLsn == commits[|commits| - 1].txnId
    {
      for i := 0 to |commits|
        invariant tree == ApplyWrites(old(tree), AllWrites(commits[..i]))
        invariant Counted(old(stats), stats, AllWrites(commits[..i]))
        invariant state.mutationsApplied == old(state).mutationsApplied + |AllWrites(commits[..i])|
        invariant state.commitsProcessed == old(state).commitsProcessed && state.isComplete == old(state).isComplete
        invariant i > 0 ==> state.currentLsn == commits[i - 1].txnId
      {
        OneCommitMore(old(tree), commits, i);
        ReplayCommit(commits[i]);
      }
      assert commits[..|commits|] == commits;
    }

    /** The whole of recovery on a fresh context. */
    method RecoverTree(crc: Checksum, records: seq<Commit>) returns (r: Option<Stats>)
      requires stats == NO_STATS
      modifies this
      ensures match Recover(crc, old(tree), records)
              case None => r == None && tree == old(tree) && state.isComplete == old(state).isComplete
              case Some((t, s)) => r == Some(s) && tree == t && state.isComplete
    {
      stats := stats.(commitsScanned := |records|);
      if |records| == 0 {
        state := state.(isComplete := true);
        return Some(stats);
      }
      var committed := FilterCommittedTransactions(crc, records);
      if committed.None? {
        return None;
      }
      ReplayMutations(committed.value);
      state := state.(isComplete := true);
      return Some(stats);
    }
  }

  /** The counters after some writes more. */
  ghost predicate Counted(before: Stats, now: Stats, ws: seq<Write>) {
    now == before.(mutationsApplied := before.mutationsApplied + |ws|,
                   putOperations := before.putOperations + Puts(ws),
                   deleteOperations := before.deleteOperations + (|ws| - Puts(ws)))
  }
}
