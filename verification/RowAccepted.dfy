/** When an operation on a row of leaves is done, and runs seen without the notion of acceptance: only a put
    that finds too little room falls short of its meaning. */
module RowAccepted {
  import opened Results
  import opened Entries
  import opened LeafNodes
  import opened LeafOps
  import opened Rebalance
  import opened LeafRow

  /** What each operation asks of the leaves it touches. */
  ghost predicate Possible(row: Row, op: RowOp)
    requires InRange(row, op)
  {
    var i := op.i;
    match op
    case PutEntry(_, e) => Size(e) <= row[i].header.freeSpace
    case DeleteKey(_, k) => Lookup(row[i].entries, k) != None
    case SplitAt(_, _) => row[i].entries != []
    case BorrowRight(_) =>
      && |row[i + 1].entries| > 130 && |row[i].entries| + |row[i + 1].entries| >= 260
      && Size(row[i + 1].entries[0]) <= row[i].header.freeSpace
    case BorrowLeft(_) =>
      && |row[i].entries| > 130 && |row[i].entries| + |row[i + 1].entries| >= 260
      && Size(row[i].entries[|row[i].entries| - 1]) <= row[i + 1].header.freeSpace
    case JoinRight(_) => Total(row[i + 1].entries) <= row[i].header.freeSpace
    case JoinLeft(_) => Total(row[i].entries) + Total(row[i + 1].entries) <= 16324
  }

  /** On valid leaves an operation is done exactly when it is possible. */
  lemma SucceedsIff(row: Row, op: RowOp)
    requires Enabled(row, op) && AllValid(row) && Sorted(Flatten(row))
    ensures Succeeds(row, op) <==> Possible(row, op)
  {
    SegmentSorted(row, op);
    match op
    case PutEntry(_, _) =>
    case DeleteKey(i, k) => PositionFinds(row[i].entries, k);
    case SplitAt(i, page) => SplitDoneIff(row[i], page);
    case BorrowRight(i) => BorrowFromRightIff(row[i], row[i + 1]);
    case BorrowLeft(i) => BorrowFromLeftIff(row[i], row[i + 1]);
    case JoinRight(i) => MergeRightSucceedsIff(row[i], row[i + 1]);
    case JoinLeft(i) => MergeLeftDoneIff(row[i], row[i + 1]);
  }

  lemma SplitDoneIff(l: Leaf, page: nat)
    requires Valid(l)
    ensures SplitOutcome(l, page).Split? <==> l.entries != []
  {
    SplitConserves(l, page);
    if l.entries != [] {
      SplitOutcomeFacts(l, page);
    }
  }

  /** A put for which the header of its leaf shows too little room. */
  predicate Cramped(row: Row, op: RowOp) {
    op.PutEntry? && InRange(row, op) && row[op.i].header.freeSpace < Size(op.e)
  }

  /** Every other operation does what it means, also when it is refused: then there was nothing to do. */
  lemma UncrampedMeans(row: Row, op: RowOp)
    requires Enabled(row, op) && Sorted(Flatten(row)) && !Cramped(row, op)
    ensures Flatten(Apply(row, op)) == Meaning(op, Flatten(row))
  {
    StepMeaning(row, op);
    if op.DeleteKey? && !Succeeds(row, op) {
      TouchedSegment(row, op);
      FlattenSplice(row, op.i, 1, []);
      WithoutInMiddle(Flatten(row[..op.i]), row[op.i].entries, Flatten(row[op.i + 1..]), op.k);
    }
  }

  /** A cramped put changes nothing, so it falls short exactly when its entry was not stored already. */
  lemma MeansIff(row: Row, op: RowOp)
    requires Enabled(row, op) && Sorted(Flatten(row))
    ensures Flatten(Apply(row, op)) == Meaning(op, Flatten(row))
            <==> (Cramped(row, op) ==> Lookup(Flatten(row), op.e.key) == Some(op.e))
  {
    var es := Flatten(row);
    if !Cramped(row, op) {
      UncrampedMeans(row, op);
    } else if Lookup(es, op.e.key) == Some(op.e) {
      PositionFinds(es, op.e.key);
    } else {
      UpsertLookup(es, op.e, op.e.key);
    }
  }

  /** No put of the run is cramped where it is issued. */
  ghost predicate NeverCramped(row: Row, ops: seq<RowOp>)
    decreases |ops|
  {
    ops != [] ==> !Cramped(row, ops[0]) && NeverCramped(Apply(row, ops[0]), ops[1..])
  }

  /** Over every run of enabled operations whose puts find room, the row stores what all the operations, one after
      the other, make of one sorted sequence. */
  lemma {:induction false} RunMeansAll(row: Row, ops: seq<RowOp>)
    requires Sorted(Flatten(row)) && Proper(row, ops) && NeverCramped(row, ops)
    ensures Flatten(Run(row, ops)) == Replay(Flatten(row), ops)
    decreases |ops|
  {
    if ops != [] {
      StepMeaning(row, ops[0]);
      UncrampedMeans(row, ops[0]);
      RunMeansAll(Apply(row, ops[0]), ops[1..]);
    }
  }
}
