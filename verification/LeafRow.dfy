/** Whole runs of leaf operations on a row of neighbouring leaves: what the row
    stores, how honest its headers stay, and how its sibling links fare. */
module LeafRow {
  import opened Bytes
  import opened Results
  import opened Entries
  import opened LeafNodes
  import opened LeafOps
  import opened Rebalance

  type Row = seq<Leaf>

  /** One operation; `i` is the leaf it starts from, the neighbour is leaf `i + 1`. */
  datatype RowOp =
    | PutEntry(i: nat, e: Entry)
    | DeleteKey(i: nat, k: Key)
    | SplitAt(i: nat, page: nat)
    | BorrowRight(i: nat)
    | BorrowLeft(i: nat)
    | JoinRight(i: nat)
    | JoinLeft(i: nat)

  function Flatten(row: Row): seq<Entry> {
    if row == [] then [] else row[0].entries + Flatten(row[1..])
  }

  function Splice(row: Row, i: nat, n: nat, new': Row): Row
    requires i + n <= |row|
  {
    row[..i] + (new' + row[i + n..])
  }

  predicate InRange(row: Row, op: RowOp) {
    match op
    case PutEntry(i, _) => i < |row|
    case DeleteKey(i, _) => i < |row|
    case SplitAt(i, _) => i < |row|
    case _ => op.i + 1 < |row|
  }

  /** A key belongs to leaf `i`: everything before it is smaller, everything after it larger. */
  ghost predicate Routed(row: Row, i: nat, k: Key)
    requires i < |row|
  {
    AllBelow(Flatten(row[..i]), k) && AllAbove(Flatten(row[i + 1..]), k)
  }

  /** The caller's part: indices exist, keys go to their leaf, a split gets an unused page. */
  ghost predicate Enabled(row: Row, op: RowOp) {
    && InRange(row, op)
    && (op.PutEntry? ==> Routed(row, op.i, op.e.key))
    && (op.DeleteKey? ==> Routed(row, op.i, op.k))
    && (op.SplitAt? ==> op.page != 0 && forall j :: 0 <= j < |row| ==> row[j].header.nodeId != op.page)
  }

  // ------------------------------------------------------------------ one operation

  predicate OnOneLeaf(op: RowOp) {
    op.PutEntry? || op.DeleteKey? || op.SplitAt?
  }

  function Width(op: RowOp): nat {
    if OnOneLeaf(op) then 1 else 2
  }

  /** The leaves that replace the touched leaf, or nothing when the operation refuses. */
  function ReplaceOne(l: Leaf, op: RowOp): Option<Row>
    requires OnOneLeaf(op)
  {
    match op
    case PutEntry(_, e) => if HasSpace(l.header, Size(e)) then Some([Insert(l, e)]) else None
    case DeleteKey(_, k) => if Present(l.entries, k) then Some([Remove(l, k)]) else None
    case SplitAt(_, page) => match SplitOutcome(l, page) case Split(a, b, _) => Some([a, b]) case _ => None
  }

  /** The leaves that replace two touched neighbours. */
  function ReplaceTwo(a: Leaf, b: Leaf, op: RowOp): Option<Row>
    requires !OnOneLeaf(op)
  {
    match op
    case BorrowRight(_) => (match BorrowFromRight(a, b) case Moved(l, r, _) => Some([l, r]) case _ => None)
    case BorrowLeft(_) => (match BorrowFromLeft(a, b) case Moved(l, r, _) => Some([l, r]) case _ => None)
    case JoinRight(_) => (match MergeRight(a, b) case Some(m) => Some([m]) case None => None)
    case JoinLeft(_) => (match MergeLeft(a, b) case Some(m) => Some([m]) case None => None)
  }

  function Replacement(row: Row, op: RowOp): Option<Row>
    requires InRange(row, op)
  {
    if OnOneLeaf(op) then ReplaceOne(row[op.i], op) else ReplaceTwo(row[op.i], row[op.i + 1], op)
  }

  predicate Succeeds(row: Row, op: RowOp) {
    InRange(row, op) && Replacement(row, op).Some?
  }

  /** After a merge at `i` the neighbour on the far side is told its new sibling. */
  function Relink(row: Row, op: RowOp): Row
    requires op.i < |row|
  {
    var l := row[op.i];
    if op.JoinRight? && l.next != 0 then
      seq(|row|, j requires 0 <= j < |row| =>
        if row[j].header.nodeId == l.next then row[j].(prev := l.header.nodeId) else row[j])
    else if op.JoinLeft? && l.prev != 0 then
      seq(|row|, j requires 0 <= j < |row| =>
        if row[j].header.nodeId == l.prev then row[j].(next := l.header.nodeId) else row[j])
    else row
  }

  function Apply(row: Row, op: RowOp): Row {
    if Succeeds(row, op) then Relink(Splice(row, op.i, Width(op), Replacement(row, op).value), op) else row
  }

  /** What the operation should do to the stored entries. */
  function Meaning(op: RowOp, es: seq<Entry>): seq<Entry> {
    match op
    case PutEntry(_, e) => Upsert(es, e)
    case DeleteKey(_, k) => Without(es, k)
    case _ => es
  }

  // ------------------------------------------------------------------ flattening

  lemma {:induction false} FlattenConcat(a: Row, b: Row)
    ensures Flatten(a + b) == Flatten(a) + Flatten(b)
  {
    if a == [] {
      assert a + b == b;
    } else {
      assert (a + b)[1..] == a[1..] + b;
      FlattenConcat(a[1..], b);
    }
  }

  lemma FlattenSplice(row: Row, i: nat, n: nat, new': Row)
    requires i + n <= |row|
    ensures Flatten(Splice(row, i, n, new')) == Flatten(row[..i]) + (Flatten(new') + Flatten(row[i + n..]))
    ensures Flatten(row) == Flatten(row[..i]) + (Flatten(row[i..i + n]) + Flatten(row[i + n..]))
  {
    FlattenConcat(row[..i], new' + row[i + n..]);
    FlattenConcat(new', row[i + n..]);
    assert row == row[..i] + (row[i..i + n] + row[i + n..]);
    FlattenConcat(row[..i], row[i..i + n] + row[i + n..]);
    FlattenConcat(row[i..i + n], row[i + n..]);
  }

  lemma FlattenSmall(a: Leaf, b: Leaf)
    ensures Flatten([a]) == a.entries && Flatten([a, b]) == a.entries + b.entries
  {
    assert [a][1..] == [] && [a, b][1..] == [b] && [b][1..] == [];
  }

  lemma {:induction false} FlattenSame(a: Row, b: Row)
    requires |a| == |b| && forall j :: 0 <= j < |a| ==> a[j].entries == b[j].entries
    ensures Flatten(a) == Flatten(b)
  {
    if a != [] {
      FlattenSame(a[1..], b[1..]);
    }
  }

  lemma RelinkKeepsEntries(row: Row, op: RowOp)
    requires op.i < |row|
    ensures Flatten(Relink(row, op)) == Flatten(row)
    ensures |Relink(row, op)| == |row|
    ensures forall j :: 0 <= j < |row| ==> Relink(row, op)[j].entries == row[j].entries
                                           && Relink(row, op)[j].header == row[j].header
  {
    FlattenSame(Relink(row, op), row);
  }

  // ---------------------------------------------------------- what a step preserves

  ghost predicate AllValid(row: Row) {
    forall j :: 0 <= j < |row| ==> Valid(row[j])
  }

  /** One flag per leaf: is its free-space figure exact? */
  ghost predicate Tracks(row: Row, flags: seq<bool>) {
    |flags| == |row| && forall j :: 0 <= j < |row| ==> (flags[j] <==> Exact(row[j]))
  }

  /** A merge into the right leaf whose old figure and all the entries do not fit the leaf area together: the
      one operation that leaves a header promising room that is gone. */
  predicate StalesSpace(row: Row, op: RowOp) {
    op.JoinLeft? && Succeeds(row, op)
    && Total(row[op.i].entries) + Total(row[op.i + 1].entries) + row[op.i + 1].header.freeSpace > LEAF_AREA
  }

  /** How exactness moves: lost by a shrinking update and by donating, regained by a split, otherwise kept; a
      merge into the right leaf leaves it to chance. */
  function FlagOne(l: Leaf, flag: bool, op: RowOp): seq<bool>
    requires OnOneLeaf(op)
  {
    match op
    case PutEntry(_, e) => [flag && !Shrinks(l, e)]
    case DeleteKey(_, _) => [flag]
    case SplitAt(_, _) => [true, true]
  }

  function FlagTwo(a: Leaf, b: Leaf, fa: bool, fb: bool, op: RowOp): seq<bool>
    requires !OnOneLeaf(op)
  {
    match op
    case BorrowRight(_) => [fa, false]
    case BorrowLeft(_) => [false, fb]
    case JoinRight(_) => [fa]
    case JoinLeft(_) => [Total(a.entries) + Total(b.entries) + b.header.freeSpace == LEAF_AREA]
  }

  /** An operation on one leaf does to its entries what it means. */
  lemma OneLeafMeans(l: Leaf, op: RowOp)
    requires OnOneLeaf(op) && Sorted(l.entries) && ReplaceOne(l, op).Some?
    ensures Flatten(ReplaceOne(l, op).value) == Meaning(op, l.entries)
  {
    var row := ReplaceOne(l, op).value;
    FlattenSmall(row[0], row[|row| - 1]);
    if op.SplitAt? {
      SplitCuts(l, op.page);
    }
  }

  /** On a valid leaf it keeps validity and moves exactness as described. */
  lemma OneLeafHonest(l: Leaf, flag: bool, op: RowOp)
    requires OnOneLeaf(op) && Valid(l) && ReplaceOne(l, op).Some? && (flag <==> Exact(l))
    ensures AllValid(ReplaceOne(l, op).value) && Tracks(ReplaceOne(l, op).value, FlagOne(l, flag, op))
  {
    match op
    case PutEntry(_, e) => InsertKeepsValid(l, e);
    case DeleteKey(_, k) => RemoveKeepsValid(l, k);
    case SplitAt(_, page) =>
      SplitConserves(l, page);
      SplitOutcomeFacts(l, page);
  }

  /** Moving entries between two ordered neighbours changes nothing that is stored. */
  lemma TwoLeavesMean(a: Leaf, b: Leaf, op: RowOp)
    requires !OnOneLeaf(op) && Sorted(a.entries + b.entries) && ReplaceTwo(a, b, op).Some?
    ensures Flatten(ReplaceTwo(a, b, op).value) == a.entries + b.entries
  {
    var row := ReplaceTwo(a, b, op).value;
    FlattenSmall(row[0], row[|row| - 1]);
    match op
    case BorrowRight(_) => BorrowFromRightConserves(a, b);
    case BorrowLeft(_) => BorrowFromLeftConserves(a, b);
    case JoinRight(_) => MergeRightConserves(a, b);
    case JoinLeft(_) =>
  }

  lemma TwoLeavesHonest(a: Leaf, b: Leaf, fa: bool, fb: bool, op: RowOp)
    requires !OnOneLeaf(op) && Valid(a) && Valid(b) && Sorted(a.entries + b.entries)
    requires ReplaceTwo(a, b, op).Some? && (fa <==> Exact(a)) && (fb <==> Exact(b))
    requires op.JoinLeft? ==> Total(a.entries) + Total(b.entries) + b.header.freeSpace <= LEAF_AREA
    ensures AllValid(ReplaceTwo(a, b, op).value) && Tracks(ReplaceTwo(a, b, op).value, FlagTwo(a, b, fa, fb, op))
  {
    match op
    case BorrowRight(_) => BorrowFromRightDivides(a, b);
    case BorrowLeft(_) => BorrowFromLeftValid(a, b);
    case JoinRight(_) => MergeRightConserves(a, b);
    case JoinLeft(_) =>
      MergeLeftSoundIff(a, b);
      TotalConcat(a.entries, b.entries);
  }

  function FlagMiddle(row: Row, flags: seq<bool>, op: RowOp): seq<bool>
    requires |flags| == |row| && InRange(row, op)
  {
    if OnOneLeaf(op) then FlagOne(row[op.i], flags[op.i], op)
    else FlagTwo(row[op.i], row[op.i + 1], flags[op.i], flags[op.i + 1], op)
  }

  function FlagsAfter(row: Row, flags: seq<bool>, op: RowOp): seq<bool>
    requires |flags| == |row|
  {
    if !Succeeds(row, op) then flags
    else flags[..op.i] + (FlagMiddle(row, flags, op) + flags[op.i + Width(op)..])
  }

  lemma SortedMiddle(a: seq<Entry>, m: seq<Entry>, b: seq<Entry>)
    requires Sorted(a + (m + b))
    ensures Sorted(m)
  {
    assert (a + (m + b))[|a|..] == m + b;
    SortedDrop(a + (m + b), |a|);
    assert (m + b)[..|m|] == m;
    SortedTake(m + b, |m|);
  }

  ghost function TouchedEntries(row: Row, op: RowOp): seq<Entry>
    requires InRange(row, op)
  {
    if OnOneLeaf(op) then row[op.i].entries else row[op.i].entries + row[op.i + 1].entries
  }

  lemma TouchedSegment(row: Row, op: RowOp)
    requires InRange(row, op)
    ensures Flatten(row[op.i..op.i + Width(op)]) == TouchedEntries(row, op)
  {
    var i := op.i;
    if OnOneLeaf(op) {
      assert row[i..i + 1] == [row[i]];
      FlattenSmall(row[i], row[i]);
    } else {
      assert row[i..i + 2] == [row[i], row[i + 1]];
      FlattenSmall(row[i], row[i + 1]);
    }
  }

  lemma SegmentSorted(row: Row, op: RowOp)
    requires InRange(row, op) && Sorted(Flatten(row))
    ensures Sorted(TouchedEntries(row, op))
  {
    var i, n := op.i, Width(op);
    FlattenSplice(row, i, n, []);
    SortedMiddle(Flatten(row[..i]), Flatten(row[i..i + n]), Flatten(row[i + n..]));
    TouchedSegment(row, op);
  }

  lemma ReplacementMeans(row: Row, op: RowOp)
    requires Succeeds(row, op) && Sorted(TouchedEntries(row, op))
    ensures Flatten(Replacement(row, op).value) == Meaning(op, TouchedEntries(row, op))
  {
    if OnOneLeaf(op) {
      OneLeafMeans(row[op.i], op);
    } else {
      TwoLeavesMean(row[op.i], row[op.i + 1], op);
    }
  }

  lemma ApplyFlattens(row: Row, op: RowOp)
    requires Succeeds(row, op)
    ensures var i, n := op.i, Width(op);
            && Flatten(Apply(row, op))
               == Flatten(row[..i]) + (Flatten(Replacement(row, op).value) + Flatten(row[i + n..]))
            && Flatten(row) == Flatten(row[..i]) + (TouchedEntries(row, op) + Flatten(row[i + n..]))
  {
    TouchedSegment(row, op);
    SplicedFlattens(row, op, Replacement(row, op).value);
  }

  lemma SplicedFlattens(row: Row, op: RowOp, new': Row)
    requires InRange(row, op) && new' != []
    ensures var i, n := op.i, Width(op);
            && Flatten(Relink(Splice(row, i, n, new'),
                op)) == Flatten(row[..i]) + (Flatten(new') + Flatten(row[i + n..]))
            && Flatten(row) == Flatten(row[..i]) + (Flatten(row[i..i + n]) + Flatten(row[i + n..]))
  {
    FlattenSplice(row, op.i, Width(op), new');
    RelinkKeepsEntries(Splice(row, op.i, Width(op), new'), op);
  }

  /** One successful operation changes the stored entries exactly as it means: an insert or update is an
      upsert into the whole row, a delete a removal from it, everything else changes nothing. */
  lemma StepMeaning(row: Row, op: RowOp)
    requires Enabled(row, op) && Sorted(Flatten(row))
    ensures Succeeds(row, op) ==> Flatten(Apply(row, op)) == Meaning(op, Flatten(row))
    ensures Sorted(Flatten(Apply(row, op)))
  {
    if Succeeds(row, op) {
      SegmentSorted(row, op);
      ReplacementMeans(row, op);
      ApplyFlattens(row, op);
      RoutedOp(row, op);
      MeaningInMiddle(op, Flatten(row[..op.i]), TouchedEntries(row, op), Flatten(row[op.i + Width(op)..]));
      MeaningSorted(op, Flatten(row));
    }
  }

  lemma RoutedOp(row: Row, op: RowOp)
    requires Enabled(row, op)
    ensures op.PutEntry? ==>
              AllBelow(Flatten(row[..op.i]), op.e.key) && AllAbove(Flatten(row[op.i + Width(op)..]), op.e.key)
    ensures op.DeleteKey? ==>
              AllBelow(Flatten(row[..op.i]), op.k) && AllAbove(Flatten(row[op.i + Width(op)..]), op.k)
  {
  }

  lemma MeaningSorted(op: RowOp, es: seq<Entry>)
    requires Sorted(es)
    ensures Sorted(Meaning(op, es))
  {
    if op.PutEntry? {
      UpsertIsUpdate(es, op.e);
    } else if op.DeleteKey? {
      WithoutIsDeletion(es, op.k);
    }
  }

  lemma MeaningInMiddle(op: RowOp, pre: seq<Entry>, mid: seq<Entry>, post: seq<Entry>)
    requires op.PutEntry? ==> AllBelow(pre, op.e.key) && AllAbove(post, op.e.key)
    requires op.DeleteKey? ==> AllBelow(pre, op.k) && AllAbove(post, op.k)
    ensures pre + (Meaning(op, mid) + post) == Meaning(op, pre + (mid + post))
  {
    if op.PutEntry? {
      UpsertInMiddle(pre, mid, post, op.e);
    } else if op.DeleteKey? {
      WithoutInMiddle(pre, mid, post, op.k);
    }
  }

  /** Every operation except the stale-making merge keeps every leaf valid (so every header an honest
      lower bound within the 16308-byte area) and exactness is precisely what the flags say. */
  lemma StepHonest(row: Row, flags: seq<bool>, op: RowOp)
    requires Enabled(row, op) && AllValid(row) && Tracks(row, flags) && Sorted(Flatten(row))
    requires !StalesSpace(row, op)
    ensures AllValid(Apply(row, op))
    ensures Tracks(Apply(row, op), FlagsAfter(row, flags, op))
  {
    if Succeeds(row, op) {
      var i, n, new' := op.i, Width(op), Replacement(row, op).value;
      SegmentSorted(row, op);
      ReplacementHonest(row, flags, op);
      SpliceTracks(row, flags, i, n, new', FlagMiddle(row, flags, op));
      RelinkKeepsEntries(Splice(row, i, n, new'), op);
      TracksSame(Splice(row, i, n, new'), Relink(Splice(row, i, n, new'), op), FlagsAfter(row, flags, op));
    }
  }

  /** ... and the merges left out are exactly those that break it. */
  lemma StepValidIff(row: Row, flags: seq<bool>, op: RowOp)
    requires Enabled(row, op) && AllValid(row) && Tracks(row, flags) && Sorted(Flatten(row))
    ensures AllValid(Apply(row, op)) <==> !StalesSpace(row, op)
  {
    if StalesSpace(row, op) {
      var mid := Splice(row, op.i, 2, Replacement(row, op).value);
      MergeLeftSoundIff(row[op.i], row[op.i + 1]);
      RelinkKeepsEntries(mid, op);
      assert mid[op.i] == MergeLeft(row[op.i], row[op.i + 1]).value;
      assert !Valid(Apply(row, op)[op.i]);
    } else {
      StepHonest(row, flags, op);
    }
  }

  lemma ReplacementHonest(row: Row, flags: seq<bool>, op: RowOp)
    requires Succeeds(row, op) && AllValid(row) && Tracks(row, flags) && !StalesSpace(row, op)
    requires Sorted(TouchedEntries(row, op))
    ensures AllValid(Replacement(row, op).value)
    ensures Tracks(Replacement(row, op).value, FlagMiddle(row, flags, op))
  {
    if OnOneLeaf(op) {
      OneLeafHonest(row[op.i], flags[op.i], op);
    } else {
      TwoLeavesHonest(row[op.i], row[op.i + 1], flags[op.i], flags[op.i + 1], op);
    }
  }

  lemma SpliceTracks(row: Row, flags: seq<bool>, i: nat, n: nat, new': Row, mid: seq<bool>)
    requires i + n <= |row| && AllValid(row) && Tracks(row, flags) && AllValid(new') && Tracks(new', mid)
    ensures AllValid(Splice(row, i, n, new'))
    ensures Tracks(Splice(row, i, n, new'), flags[..i] + (mid + flags[i + n..]))
  {
  }

  lemma TracksSame(a: Row, b: Row, flags: seq<bool>)
    requires AllValid(a) && Tracks(a, flags) && |a| == |b|
    requires forall j :: 0 <= j < |a| ==> b[j].entries == a[j].entries && b[j].header == a[j].header
    ensures AllValid(b) && Tracks(b, flags)
  {
  }

  // ---------------------------------------------------------------------- whole runs

  function Run(row: Row, ops: seq<RowOp>): Row
    decreases |ops|
  {
    if ops == [] then row else Run(Apply(row, ops[0]), ops[1..])
  }

  function RunFlags(row: Row, flags: seq<bool>, ops: seq<RowOp>): seq<bool>
    requires |flags| == |row|
    decreases |ops|
  {
    if ops == [] then flags
    else
      var f, r := FlagsAfter(row, flags, ops[0]), Apply(row, ops[0]);
      if |f| == |r| then RunFlags(r, f, ops[1..]) else []
  }

  /** Every operation of the run is enabled where it is issued. */
  ghost predicate Proper(row: Row, ops: seq<RowOp>)
    decreases |ops|
  {
    ops == [] || (Enabled(row, ops[0]) && Proper(Apply(row, ops[0]), ops[1..]))
  }

  /** ... and none is the stale-making merge. */
  ghost predicate Unstale(row: Row, ops: seq<RowOp>)
    decreases |ops|
  {
    ops == [] || (!StalesSpace(row, ops[0]) && Unstale(Apply(row, ops[0]), ops[1..]))
  }

  /** The run's successful operations. */
  function Accepted(row: Row, ops: seq<RowOp>): seq<RowOp>
    decreases |ops|
  {
    if ops == [] then []
    else (if Succeeds(row, ops[0]) then [ops[0]] else []) + Accepted(Apply(row, ops[0]), ops[1..])
  }

  /** Their meaning, one after the other, on one sorted sequence. */
  function Replay(es: seq<Entry>, ops: seq<RowOp>): seq<Entry>
    decreases |ops|
  {
    if ops == [] then es else Replay(Meaning(ops[0], es), ops[1..])
  }

  /** Over every run of enabled operations, whatever the headers say: the row stores, in strictly
      ascending order, exactly what replaying the accepted inserts and deletes on one sorted sequence
      gives.  No split, borrow or merge ever loses, duplicates or reorders an entry. */
  lemma {:induction false} RunRefinesReplay(row: Row, ops: seq<RowOp>)
    requires Sorted(Flatten(row)) && Proper(row, ops)
    ensures Flatten(Run(row, ops)) == Replay(Flatten(row), Accepted(row, ops))
    ensures Sorted(Flatten(Run(row, ops)))
    decreases |ops|
  {
    if ops != [] {
      var op, rest := ops[0], ops[1..];
      var next := Apply(row, op);
      StepMeaning(row, op);
      RunRefinesReplay(next, rest);
      if Succeeds(row, op) {
        assert ([op] + Accepted(next, rest))[1..] == Accepted(next, rest);
      } else {
        assert [] + Accepted(next, rest) == Accepted(next, rest);
      }
    }
  }

  /** Over every such run without a stale-making merge: every leaf stays valid, so no header ever
      promises more than the true free space and no leaf outgrows its page; and the figure of a leaf is
      exact precisely when its flag says so. */
  lemma {:induction false} RunStaysHonest(row: Row, flags: seq<bool>, ops: seq<RowOp>)
    requires AllValid(row) && Tracks(row, flags) && Sorted(Flatten(row)) && Proper(row, ops) && Unstale(row, ops)
    ensures AllValid(Run(row, ops)) && Tracks(Run(row, ops), RunFlags(row, flags, ops))
    ensures forall j :: 0 <= j < |Run(row, ops)| ==> Total(Run(row, ops)[j].entries) <= LEAF_AREA
    decreases |ops|
  {
    if ops != [] {
      StepMeaning(row, ops[0]);
      StepHonest(row, flags, ops[0]);
      RunStaysHonest(Apply(row, ops[0]), FlagsAfter(row, flags, ops[0]), ops[1..]);
    }
  }

  /** Every run that starts from one new leaf. */
  lemma RunFromNewLeaf(page: nat, ops: seq<RowOp>)
    requires Proper([NewLeaf(page)], ops) && Unstale([NewLeaf(page)], ops)
    ensures var row := Run([NewLeaf(page)], ops);
            && AllValid(row) && Tracks(row, RunFlags([NewLeaf(page)], [true], ops))
            && Flatten(row) == Replay([], Accepted([NewLeaf(page)], ops)) && Sorted(Flatten(row))
  {
    NewLeafValid(page);
    FlattenSmall(NewLeaf(page), NewLeaf(page));
    RunStaysHonest([NewLeaf(page)], [true], ops);
    RunRefinesReplay([NewLeaf(page)], ops);
  }

  // ------------------------------------------------------------------- sibling links

  /** The page of the leaf at `j`, 0 beyond either end. */
  function PageAt(row: Row, j: int): nat {
    if 0 <= j < |row| then row[j].header.nodeId else 0
  }

  /** Each leaf points at its neighbours. */
  ghost predicate LinksAt(row: Row, j: nat)
    requires j < |row|
  {
    row[j].next == PageAt(row, j + 1) && row[j].prev == PageAt(row, j - 1)
  }

  ghost predicate DistinctPages(row: Row) {
    && (forall j :: 0 <= j < |row| ==> row[j].header.nodeId != 0)
    && (forall j, k :: 0 <= j < k < |row| ==> row[j].header.nodeId != row[k].header.nodeId)
  }

  /** The row is one doubly linked list with distinct non-zero page ids. */
  ghost predicate Linked(row: Row) {
    DistinctPages(row) && forall j :: 0 <= j < |row| ==> LinksAt(row, j)
  }

  lemma InsertAllKeepsIdentity(l: Leaf, es: seq<Entry>)
    requires InsertAll(l, es).Some?
    ensures var r := InsertAll(l, es).value;
            r.header.nodeId == l.header.nodeId && r.next == l.next && r.prev == l.prev
    decreases |es|
  {
    if es != [] {
      InsertAllKeepsIdentity(Insert(l, es[0]), es[1..]);
    }
  }

  ghost predicate SamePlace(a: Leaf, b: Leaf) {
    a.header.nodeId == b.header.nodeId && a.next == b.next && a.prev == b.prev
  }

  /** Inserts, deletes and borrows leave every link alone, merges relink: the list stays doubly linked. */
  lemma StepKeepsLinks(row: Row, op: RowOp)
    requires InRange(row, op) && Linked(row) && !op.SplitAt?
    ensures Linked(Apply(row, op))
  {
    if Succeeds(row, op) {
      var i := op.i;
      if op.JoinRight? {
        InsertAllKeepsIdentity(row[i], row[i + 1].entries);
        JoinRightLinks(row, op, MergeRight(row[i], row[i + 1]).value);
      } else if op.JoinLeft? {
        JoinLeftLinks(row, op, MergeLeft(row[i], row[i + 1]).value);
      } else {
        PlainStepLinks(row, op);
      }
    }
  }

  lemma PlainStepLinks(row: Row, op: RowOp)
    requires Linked(row) && Succeeds(row, op)
    requires op.PutEntry? || op.DeleteKey? || op.BorrowRight? || op.BorrowLeft?
    ensures Linked(Apply(row, op))
  {
    PlainReplacement(row, op);
    SamePlaces(row, op.i, Replacement(row, op).value);
    SameLinks(row, Splice(row, op.i, Width(op), Replacement(row, op).value));
  }

  lemma SamePlaces(row: Row, i: nat, new': Row)
    requires i + |new'| <= |row| && forall j :: 0 <= j < |new'| ==> SamePlace(new'[j], row[i + j])
    ensures var mid := Splice(row, i, |new'|, new');
            |mid| == |row| && forall j :: 0 <= j < |row| ==> SamePlace(mid[j], row[j])
  {
    var mid := Splice(row, i, |new'|, new');
    forall j | 0 <= j < |row| ensures SamePlace(mid[j], row[j]) {
      if i <= j < i + |new'| {
        assert mid[j] == new'[j - i] && SamePlace(new'[j - i], row[i + (j - i)]);
      }
    }
  }

  lemma PlainReplacement(row: Row, op: RowOp)
    requires Succeeds(row, op) && (op.PutEntry? || op.DeleteKey? || op.BorrowRight? || op.BorrowLeft?)
    ensures |Replacement(row, op).value| == Width(op)
    ensures forall j :: 0 <= j < Width(op) ==> SamePlace(Replacement(row, op).value[j], row[op.i + j])
  {
    if op.PutEntry? {
      assert Replacement(row, op).value == [Insert(row[op.i], op.e)];
    } else if op.DeleteKey? {
      assert Replacement(row, op).value == [Remove(row[op.i], op.k)];
    }
  }

  lemma SameLinks(a: Row, b: Row)
    requires Linked(a) && |a| == |b| && forall j :: 0 <= j < |a| ==> SamePlace(b[j], a[j])
    ensures Linked(b)
  {
    forall j | 0 <= j < |b| ensures LinksAt(b, j) {
      assert LinksAt(a, j) && SamePlace(b[j], a[j]);
      assert PageAt(b, j + 1) == PageAt(a, j + 1) && PageAt(b, j - 1) == PageAt(a, j - 1);
    }
  }

  /** Where a leaf of the joined row came from. */
  function Origin(i: nat, j: int): int {
    if j <= i then j else j + 1
  }

  lemma JoinShape(row: Row, i: nat, m: Leaf)
    requires i + 1 < |row| && DistinctPages(row)
    requires m.header.nodeId == row[i].header.nodeId || m.header.nodeId == row[i + 1].header.nodeId
    ensures var mid := Splice(row, i, 2, [m]);
            && |mid| == |row| - 1 && mid[i] == m
            && (forall j :: 0 <= j < |mid| && j != i ==> mid[j] == row[Origin(i, j)])
            && DistinctPages(mid)
  {
    var mid := Splice(row, i, 2, [m]);
    assert forall j :: 0 <= j < |mid| && j != i ==> mid[j] == row[Origin(i, j)];
  }

  lemma RelinkPages(mid: Row, op: RowOp, j: int)
    requires op.i < |mid|
    ensures PageAt(Relink(mid, op), j) == PageAt(mid, j)
  {
  }

  lemma RelinkDistinct(mid: Row, op: RowOp)
    requires op.i < |mid| && DistinctPages(mid)
    ensures DistinctPages(Relink(mid, op))
  {
  }

  lemma JoinRightLinksAt(row: Row, op: RowOp, m: Leaf, j: nat)
    requires op.JoinRight? && InRange(row, op) && Linked(row) && j < |row| - 1
    requires m.header.nodeId == row[op.i].header.nodeId && m.next == row[op.i + 1].next && m.prev == row[op.i].prev
    ensures var out := Relink(Splice(row, op.i, 2, [m]), op); |out| == |row| - 1 && LinksAt(out, j)
  {
    var i := op.i;
    var mid := Splice(row, i, 2, [m]);
    JoinShape(row, i, m);
    RelinkPages(mid, op, j + 1);
    RelinkPages(mid, op, j - 1);
    assert LinksAt(row, i) && LinksAt(row, i + 1) && LinksAt(row, Origin(i, j));
  }

  lemma JoinRightLinks(row: Row, op: RowOp, m: Leaf)
    requires op.JoinRight? && InRange(row, op) && Linked(row)
    requires m.header.nodeId == row[op.i].header.nodeId && m.next == row[op.i + 1].next && m.prev == row[op.i].prev
    ensures Linked(Relink(Splice(row, op.i, 2, [m]), op))
  {
    var mid := Splice(row, op.i, 2, [m]);
    JoinShape(row, op.i, m);
    RelinkDistinct(mid, op);
    var out := Relink(mid, op);
    forall j | 0 <= j < |out| ensures LinksAt(out, j) {
      JoinRightLinksAt(row, op, m, j);
    }
  }

  lemma JoinLeftLinksAt(row: Row, op: RowOp, m: Leaf, j: nat)
    requires op.JoinLeft? && InRange(row, op) && Linked(row) && j < |row| - 1
    requires m.header.nodeId == row[op.i + 1].header.nodeId && m.next == row[op.i + 1].next && m.prev == row[op.i].prev
    ensures var out := Relink(Splice(row, op.i, 2, [m]), op); |out| == |row| - 1 && LinksAt(out, j)
  {
    var i := op.i;
    var mid := Splice(row, i, 2, [m]);
    JoinShape(row, i, m);
    RelinkPages(mid, op, j + 1);
    RelinkPages(mid, op, j - 1);
    assert LinksAt(row, i) && LinksAt(row, i + 1) && LinksAt(row, Origin(i, j));
  }

  lemma JoinLeftLinks(row: Row, op: RowOp, m: Leaf)
    requires op.JoinLeft? && InRange(row, op) && Linked(row)
    requires m.header.nodeId == row[op.i + 1].header.nodeId && m.next == row[op.i + 1].next && m.prev == row[op.i].prev
    ensures Linked(Relink(Splice(row, op.i, 2, [m]), op))
  {
    var mid := Splice(row, op.i, 2, [m]);
    JoinShape(row, op.i, m);
    RelinkDistinct(mid, op);
    var out := Relink(mid, op);
    forall j | 0 <= j < |out| ensures LinksAt(out, j) {
      JoinLeftLinksAt(row, op, m, j);
    }
  }

  /** A split never leaves the row linked: nobody tells the old leaf about the new one. */
  lemma SplitBreaksLinks(row: Row, op: RowOp)
    requires Enabled(row, op) && Linked(row) && op.SplitAt? && Succeeds(row, op)
    ensures !Linked(Apply(row, op))
    ensures Apply(row, op)[op.i].next == row[op.i].next != PageAt(Apply(row, op), op.i + 1)
  {
    InsertAllKeepsIdentity(NewLeaf(op.page), row[op.i].entries[|row[op.i].entries| / 2..]);
    var out := Apply(row, op);
    assert LinksAt(row, op.i);
    assert out[op.i].next == row[op.i].next;
    assert out[op.i + 1].header.nodeId == op.page;
    assert !LinksAt(out, op.i);
  }
}
