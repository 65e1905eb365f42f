/** Reachable pages survive the byte layout: every run of leaf operations, and every
    `put`, leaves only pages that are read back as they were written. */
module PageRuns {
  import opened Bytes
  import opened Results
  import opened Entries
  import opened LeafNodes
  import opened LeafOps
  import opened Rebalance
  import opened LeafRow
  import opened SearchTree
  import opened PageCodec

  /** The part of readiness that concerns header fields and links. */
  ghost predicate Framed(l: Leaf) {
    && HeaderFits(l.header) && HeaderValid(l.header) && (l.header.nodeType == LEAF || l.header.nodeType == ROOT_LEAF)
    && l.next < U64 && l.prev < U64
  }

  /** The part that concerns the entries. */
  ghost predicate Storable(es: seq<Entry>) {
    forall i :: 0 <= i < |es| ==> |es[i].key| <= 255 && es[i].lsn < U64
  }

  lemma ReadyIff(l: Leaf)
    requires Valid(l)
    ensures Framed(l) && Storable(l.entries) ==> LeafReady(l)
  {
  }

  lemma NewLeafFramed(page: nat)
    requires page < U64
    ensures Framed(NewLeaf(page))
  {
  }

  lemma InsertFramed(l: Leaf, e: Entry)
    requires Framed(l)
    ensures Framed(Insert(l, e))
  {
  }

  lemma RemoveFramed(l: Leaf, k: Key)
    requires Framed(l)
    ensures Framed(Remove(l, k))
  {
  }

  lemma {:induction false} InsertAllFramed(l: Leaf, es: seq<Entry>)
    requires Framed(l) && InsertAll(l, es).Some?
    ensures Framed(InsertAll(l, es).value)
    decreases |es|
  {
    if es != [] {
      InsertFramed(l, es[0]);
      InsertAllFramed(Insert(l, es[0]), es[1..]);
    }
  }

  lemma SplitFramed(l: Leaf, page: nat)
    requires Framed(l) && page < U64 && SplitOutcome(l, page).Split?
    ensures Framed(SplitOutcome(l, page).leaf) && Framed(SplitOutcome(l, page).right)
  {
    NewLeafFramed(page);
    InsertAllFramed(NewLeaf(page), l.entries[|l.entries| / 2..]);
  }

  lemma MergeRightFramed(a: Leaf, b: Leaf)
    requires Framed(a) && Framed(b) && MergeRight(a, b).Some?
    ensures Framed(MergeRight(a, b).value)
  {
    InsertAllFramed(a, b.entries);
  }

  ghost predicate AllFramed(row: Row) {
    forall j :: 0 <= j < |row| ==> Framed(row[j])
  }

  /** Arguments within their types: page numbers, LSNs, key lengths. */
  predicate OpFits(op: RowOp) {
    && (op.SplitAt? ==> op.page < U64)
    && (op.PutEntry? ==> |op.e.key| <= 255 && op.e.lsn < U64)
  }

  lemma ReplaceOneFramed(l: Leaf, op: RowOp)
    requires Framed(l) && OpFits(op) && OnOneLeaf(op) && ReplaceOne(l, op).Some?
    ensures AllFramed(ReplaceOne(l, op).value)
  {
    match op
    case PutEntry(_, e) => InsertFramed(l, e);
    case DeleteKey(_, k) => RemoveFramed(l, k);
    case SplitAt(_, page) => SplitFramed(l, page);
  }

  lemma ReplaceTwoFramed(a: Leaf, b: Leaf, op: RowOp)
    requires Framed(a) && Framed(b) && !OnOneLeaf(op) && ReplaceTwo(a, b, op).Some?
    ensures AllFramed(ReplaceTwo(a, b, op).value)
  {
    match op
    case BorrowRight(_) => InsertFramed(a, b.entries[0]);
    case BorrowLeft(_) => InsertFramed(b, a.entries[|a.entries| - 1]);
    case JoinRight(_) => MergeRightFramed(a, b);
    case JoinLeft(_) =>
  }

  lemma ReplacementFramed(row: Row, op: RowOp)
    requires AllFramed(row) && OpFits(op) && Succeeds(row, op)
    ensures AllFramed(Replacement(row, op).value)
  {
    if OnOneLeaf(op) {
      ReplaceOneFramed(row[op.i], op);
    } else {
      ReplaceTwoFramed(row[op.i], row[op.i + 1], op);
    }
  }

  lemma SpliceFramed(row: Row, i: nat, n: nat, new': Row)
    requires i + n <= |row| && AllFramed(row) && AllFramed(new')
    ensures AllFramed(Splice(row, i, n, new'))
  {
  }

  lemma RelinkFramed(row: Row, op: RowOp)
    requires op.i < |row| && AllFramed(row)
    ensures AllFramed(Relink(row, op))
  {
  }

  lemma StepFramed(row: Row, op: RowOp)
    requires AllFramed(row) && OpFits(op)
    ensures AllFramed(Apply(row, op))
  {
    if Succeeds(row, op) {
      ReplacementFramed(row, op);
      SpliceFramed(row, op.i, Width(op), Replacement(row, op).value);
      RelinkFramed(Splice(row, op.i, Width(op), Replacement(row, op).value), op);
    }
  }

  lemma MeaningStorable(op: RowOp, es: seq<Entry>)
    requires Storable(es) && OpFits(op)
    ensures Storable(Meaning(op, es))
  {
    if op.PutEntry? {
      UpsertMembers(es, op.e);
      var u := Upsert(es, op.e);
      forall i | 0 <= i < |u| ensures |u[i].key| <= 255 && u[i].lsn < U64 {
        assert u[i] == op.e || u[i] in es;
      }
    } else if op.DeleteKey? {
      WithoutByCut(es, op.k);
      CutJoins(es, op.k);
      WithoutSubset(CutAt(es, op.k), es);
    }
  }

  lemma WithoutSubset(c: Cut, es: seq<Entry>)
    requires es == c.below + (c.hit + c.above) && Storable(es)
    ensures Storable(c.below + c.above)
  {
    var u := c.below + c.above;
    forall i | 0 <= i < |u| ensures |u[i].key| <= 255 && u[i].lsn < U64 {
      if i < |c.below| {
        assert es[i] == u[i];
      } else {
        assert es[i + |c.hit|] == u[i];
      }
    }
  }

  lemma {:induction false} LeafOfStorable(row: Row, j: nat)
    requires j < |row| && Storable(Flatten(row))
    ensures Storable(row[j].entries)
  {
    var a, b := row[0].entries, Flatten(row[1..]);
    if j == 0 {
      assert forall i :: 0 <= i < |a| ==> (a + b)[i] == a[i];
    } else {
      assert forall i :: 0 <= i < |b| ==> (a + b)[|a| + i] == b[i];
      LeafOfStorable(row[1..], j - 1);
    }
  }

  /** Over every run of enabled leaf operations whose arguments fit their types and that makes no stale
      merge, every leaf of the row is read back from its page exactly as it was written. */
  lemma {:induction false} RunSurvivesPages(row: Row, flags: seq<bool>, ops: seq<RowOp>, j: nat, crc: seq<byte> -> u32)
    requires AllValid(row) && Tracks(row, flags) && Sorted(Flatten(row)) && AllFramed(row) && Storable(Flatten(row))
    requires Proper(row, ops) && Unstale(row, ops) && (forall i :: 0 <= i < |ops| ==> OpFits(ops[i]))
    requires j < |Run(row, ops)|
    ensures Total(Run(row, ops)[j].entries) <= LEAF_AREA
    ensures var l := Sealed(Run(row, ops)[j], crc);
            && Parse(LeafImage(l)) == Ok(LeafPage(l))
            && l == Run(row, ops)[j].(header := Run(row, ops)[j].header.(checksum := l.header.checksum))
    decreases |ops|
  {
    if ops == [] {
      LeafOfStorable(row, j);
      ReadyIff(row[j]);
      LeafRoundTrip(row[j], crc);
    } else {
      StepMeaning(row, ops[0]);
      StepHonest(row, flags, ops[0]);
      StepFramed(row, ops[0]);
      MeaningStorable(ops[0], Flatten(row));
      RunSurvivesPages(Apply(row, ops[0]), FlagsAfter(row, flags, ops[0]), ops[1..], j, crc);
    }
  }

  /** From one new leaf. */
  lemma RunFromNewLeafSurvives(page: nat, ops: seq<RowOp>, j: nat, crc: seq<byte> -> u32)
    requires 0 < page < U64 && Proper([NewLeaf(page)], ops) && Unstale([NewLeaf(page)], ops)
    requires (forall i :: 0 <= i < |ops| ==> OpFits(ops[i])) && j < |Run([NewLeaf(page)], ops)|
    ensures var n := Run([NewLeaf(page)], ops)[j];
            && Total(n.entries) <= LEAF_AREA
            && Parse(LeafImage(Sealed(n, crc))) == Ok(LeafPage(Sealed(n, crc)))
  {
    NewRow(page);
    RunSurvivesPages([NewLeaf(page)], [true], ops, j, crc);
  }

  lemma NewRow(page: nat)
    requires 0 < page < U64
    ensures var row := [NewLeaf(page)];
            AllValid(row) && Tracks(row, [true]) && Sorted(Flatten(row)) && AllFramed(row) && Storable(Flatten(row))
  {
    NewLeafValid(page);
    NewLeafFramed(page);
    FlattenSmall(NewLeaf(page), NewLeaf(page));
  }
}
