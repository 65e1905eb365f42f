/** The write-set of a transaction: last write wins per key, with exact accounting of
    bytes and operations. */
module DeltaLayer {
  import opened Bytes
  import opened Results
  import opened Sums

  const MAX_KEY_SIZE: nat := 255
  const MAX_VALUE_SIZE: nat := 16_777_215
  const MAX_OPERATIONS: nat := 100_000
  const MAX_DELTA_SIZE: nat := 16_777_216
  const OVERHEAD: nat := 32

  datatype Mutation =
    | PutMutation(key: Key, value: seq<byte>, lsn: nat, size: nat)
    | DeleteMutation(key: Key, lsn: nat, size: nat)

  datatype DeltaError = KeyTooLarge | ValueTooLarge | TooManyOperations | BufferTooSmall

  datatype Delta = Delta(mutations: map<Key, Mutation>, size: nat, operationCount: nat)

  const EMPTY: Delta := Delta(map[], 0, 0)

  function OldSize(d: Delta, k: Key): nat {
    if k in d.mutations then d.mutations[k].size else 0
  }

  /** Replace or add the mutation of a key. */
  function Record(d: Delta, k: Key, m: Mutation): Delta {
    Delta(d.mutations[k := m],
          SaturatingSub(d.size, OldSize(d, k)) + m.size,
          if k in d.mutations then d.operationCount else d.operationCount + 1)
  }

  function NewPut(k: Key, v: seq<byte>, lsn: nat): Mutation {
    PutMutation(k, v, lsn, |k| + |v| + OVERHEAD)
  }

  function NewDelete(k: Key, lsn: nat): Mutation {
    DeleteMutation(k, lsn, |k| + OVERHEAD)
  }

  function RecordPut(d: Delta, k: Key, v: seq<byte>, lsn: nat): Result<Delta, DeltaError> {
    if |k| > MAX_KEY_SIZE then Err(KeyTooLarge)
    else if |v| > MAX_VALUE_SIZE then Err(ValueTooLarge)
    else if d.operationCount >= MAX_OPERATIONS then Err(TooManyOperations)
    else if d.size + |k| + |v| + OVERHEAD > MAX_DELTA_SIZE then Err(BufferTooSmall)
    else Ok(Record(d, k, NewPut(k, v, lsn)))
  }

  function RecordDelete(d: Delta, k: Key, lsn: nat): Result<Delta, DeltaError> {
    if |k| > MAX_KEY_SIZE then Err(KeyTooLarge)
    else if d.operationCount >= MAX_OPERATIONS then Err(TooManyOperations)
    else Ok(Record(d, k, NewDelete(k, lsn)))
  }

  // --------------------------------------------------------------------- accounting

  ghost function SizeAt(m: map<Key, Mutation>): Key -> nat {
    k => if k in m then m[k].size else 0
  }

  ghost function PutSizeAt(m: map<Key, Mutation>): Key -> nat {
    k => if k in m && m[k].PutMutation? then m[k].size else 0
  }

  ghost function DeleteSizeAt(m: map<Key, Mutation>): Key -> nat {
    k => if k in m && m[k].DeleteMutation? then m[k].size else 0
  }

  predicate WellFormed(k: Key, m: Mutation) {
    && m.key == k && |k| <= MAX_KEY_SIZE
    && (m.PutMutation? ==> |m.value| <= MAX_VALUE_SIZE && m.size == |k| + |m.value| + OVERHEAD)
    && (m.DeleteMutation? ==> m.size == |k| + OVERHEAD)
  }

  ghost predicate Accounted(d: Delta) {
    && (forall k :: k in d.mutations ==> WellFormed(k, d.mutations[k]))
    && d.size == Sum(d.mutations.Keys, SizeAt(d.mutations))
    && d.operationCount == |d.mutations| <= MAX_OPERATIONS
    && Sum(d.mutations.Keys, PutSizeAt(d.mutations)) <= MAX_DELTA_SIZE
  }

  lemma EmptyAccounted()
    ensures Accounted(EMPTY)
  {
  }

  lemma RecordSums(m: map<Key, Mutation>, k: Key, x: Mutation)
    ensures Sum(m[k := x].Keys, SizeAt(m[k := x]))
            == Sum(m.Keys, SizeAt(m)) - (if k in m then m[k].size else 0) + x.size
    ensures k in m ==> m[k].size <= Sum(m.Keys, SizeAt(m))
    ensures Sum(m[k := x].Keys, PutSizeAt(m[k := x]))
            <= Sum(m.Keys, PutSizeAt(m)) + (if x.PutMutation? then x.size else 0)
  {
    var n := m[k := x];
    assert n.Keys == m.Keys + {k};
    SumChange(m.Keys, SizeAt(m), SizeAt(n), k);
    SumChange(m.Keys, PutSizeAt(m), PutSizeAt(n), k);
  }

  lemma PutsWithinTotal(m: map<Key, Mutation>)
    ensures Sum(m.Keys, PutSizeAt(m)) + Sum(m.Keys, DeleteSizeAt(m)) == Sum(m.Keys, SizeAt(m))
  {
    SumSplit(m.Keys, SizeAt(m), PutSizeAt(m), DeleteSizeAt(m));
  }

  lemma CountAfter(m: map<Key, Mutation>, k: Key, x: Mutation)
    ensures |m[k := x]| == if k in m then |m| else |m| + 1
  {
    assert m[k := x].Keys == m.Keys + {k};
    if k in m {
      assert m.Keys + {k} == m.Keys;
    }
  }

  lemma RecordAccounted(d: Delta, k: Key, x: Mutation)
    requires Accounted(d) && WellFormed(k, x) && d.operationCount < MAX_OPERATIONS
    requires x.PutMutation? ==> d.size + x.size <= MAX_DELTA_SIZE
    ensures Accounted(Record(d, k, x))
  {
    RecordSums(d.mutations, k, x);
    PutsWithinTotal(d.mutations);
    CountAfter(d.mutations, k, x);
  }

  lemma OldSizeWithin(d: Delta, k: Key)
    requires Accounted(d)
    ensures OldSize(d, k) <= d.size
  {
    if k in d.mutations {
      SumOut(d.mutations.Keys, SizeAt(d.mutations), k);
    }
  }

  // ----------------------------------------------------------------------- the object

  /** The layer: a map of mutations with a byte count and an operation count, updated in place. */
  class DeltaLayer {
    var mutations: map<Key, Mutation>
    var size: nat
    var operationCount: nat

    function View(): Delta
      reads this
    {
      Delta(mutations, size, operationCount)
    }

    constructor ()
      ensures View() == EMPTY && Accounted(View())
    {
      mutations := map[];
      size := 0;
      operationCount := 0;
      new;
      EmptyAccounted();
    }

    /** Record a put; the subtraction of the replaced entry's size never underflows. */
    method Put(k: Key, v: seq<byte>, lsn: nat) returns (r: Result<(), DeltaError>)
      requires Accounted(View())
      modifies this
      ensures Accounted(View())
      ensures match RecordPut(old(View()), k, v, lsn)
              case Ok(d) => r.Ok? && View() == d
              case Err(e) => r == Err(e) && View() == old(View())
      ensures r.Ok? <==> |k| <= 255 && |v| <= 16_777_215 && |old(mutations)| < 100_000
                         && old(size) + |k| + |v| + 32 <= 16_777_216
      ensures r.Ok? ==> mutations == old(mutations)[k := PutMutation(k, v, lsn, |k| + |v| + 32)]
    {
      if |k| > MAX_KEY_SIZE {
        return Err(KeyTooLarge);
      }
      if |v| > MAX_VALUE_SIZE {
        return Err(ValueTooLarge);
      }
      if operationCount >= MAX_OPERATIONS {
        return Err(TooManyOperations);
      }
      var mutationSize := |k| + |v| + OVERHEAD;
      if size + mutationSize > MAX_DELTA_SIZE {
        return Err(BufferTooSmall);
      }
      var m := NewPut(k, v, lsn);
      assert m.size == mutationSize;
      Store(k, m);
      return Ok(());
    }

    /** Record a delete; no byte limit applies. */
    method Delete(k: Key, lsn: nat) returns (r: Result<(), DeltaError>)
      requires Accounted(View())
      modifies this
      ensures Accounted(View())
      ensures match RecordDelete(old(View()), k, lsn)
              case Ok(d) => r.Ok? && View() == d
              case Err(e) => r == Err(e) && View() == old(View())
      ensures r.Ok? <==> |k| <= 255 && |old(mutations)| < 100_000
      ensures r.Ok? ==> mutations == old(mutations)[k := DeleteMutation(k, lsn, |k| + 32)]
    {
      if |k| > MAX_KEY_SIZE {
        return Err(KeyTooLarge);
      }
      if operationCount >= MAX_OPERATIONS {
        return Err(TooManyOperations);
      }
      Store(k, DeleteMutation(k, lsn, |k| + OVERHEAD));
      return Ok(());
    }

    method Store(k: Key, m: Mutation)
      requires Accounted(View()) && WellFormed(k, m) && operationCount < MAX_OPERATIONS
      requires m.PutMutation? ==> size + m.size <= MAX_DELTA_SIZE
      modifies this
      ensures View() == Record(old(View()), k, m) && Accounted(View())
    {
      RecordAccounted(View(), k, m);
      OldSizeWithin(View(), k);
      if k in mutations {
        size := size - mutations[k].size;
      } else {
        operationCount := operationCount + 1;
      }
      mutations := mutations[k := m];
      size := size + m.size;
    }

    method Clear()
      modifies this
      ensures View() == EMPTY
    {
      mutations := map[];
      size := 0;
      operationCount := 0;
    }
  }

  // ----------------------------------------------------------------------- whole runs

  datatype Op = Put(k: Key, v: seq<byte>, lsn: nat) | Delete(k: Key, lsn: nat) | Clear

  function Attempt(d: Delta, op: Op): Result<Delta, DeltaError> {
    match op
    case Put(k, v, lsn) => RecordPut(d, k, v, lsn)
    case Delete(k, lsn) => RecordDelete(d, k, lsn)
    case Clear => Ok(EMPTY)
  }

  function Step(d: Delta, op: Op): Delta {
    match Attempt(d, op)
    case Ok(d') => d'
    case Err(_) => d
  }

  function Run(d: Delta, ops: seq<Op>): Delta
    decreases |ops|
  {
    if ops == [] then d else Run(Step(d, ops[0]), ops[1..])
  }

  lemma StepAccounted(d: Delta, op: Op)
    requires Accounted(d)
    ensures Accounted(Step(d, op))
  {
    match op
    case Put(k, v, lsn) =>
      if RecordPut(d, k, v, lsn).Ok? {
        RecordAccounted(d, k, NewPut(k, v, lsn));
      }
    case Delete(k, lsn) =>
      if RecordDelete(d, k, lsn).Ok? {
        RecordAccounted(d, k, NewDelete(k, lsn));
      }
    case Clear =>
      EmptyAccounted();
  }

  /** Over every run: the size is the exact sum of the entry sizes, the operation count is the number of
      distinct keys and at most 100000, the puts hold at most 16777216 bytes, and everything together at
      most 16777216 + 287 * 100000, since deletes are not checked. */
  lemma {:induction false} RunAccounts(d: Delta, ops: seq<Op>)
    requires Accounted(d)
    ensures Accounted(Run(d, ops))
    ensures Run(d, ops).size <= MAX_DELTA_SIZE + (MAX_KEY_SIZE + OVERHEAD) * MAX_OPERATIONS
    decreases |ops|
  {
    if ops == [] {
      PutsWithinTotal(d.mutations);
      SumBound(d.mutations.Keys, DeleteSizeAt(d.mutations), MAX_KEY_SIZE + OVERHEAD);
      assert |d.mutations.Keys| == |d.mutations|;
    } else {
      StepAccounted(d, ops[0]);
      RunAccounts(Step(d, ops[0]), ops[1..]);
    }
  }

  // ----------------------------------------------------------------------- compaction

  type Store = map<Key, seq<byte>>

  function ApplyMutation(s: Store, m: Mutation): Store {
    match m
    case PutMutation(k, v, _, _) => s[k := v]
    case DeleteMutation(k, _, _) => s - {k}
  }

  /** What a write-set leaves of a store. */
  function Overlay(s: Store, m: map<Key, Mutation>): Store {
    map k | k in s.Keys + m.Keys && (k in m ==> m[k].PutMutation?) :: if k in m then m[k].value else s[k]
  }

  function ReplayOp(s: Store, base: Store, op: Op): Store {
    match op
    case Put(k, v, _) => s[k := v]
    case Delete(k, _) => s - {k}
    case Clear => base
  }

  /** Apply the accepted operations one after the other in time order; clearing goes back to the base. */
  function ReplayAll(s: Store, base: Store, d: Delta, ops: seq<Op>): Store
    decreases |ops|
  {
    if ops == [] then s
    else ReplayAll(if Attempt(d, ops[0]).Ok? then ReplayOp(s, base, ops[0]) else s, base, Step(d, ops[0]), ops[1..])
  }

  lemma OverlayRecord(s: Store, d: Delta, k: Key, x: Mutation)
    requires x.key == k
    ensures Overlay(s, Record(d, k, x).mutations) == ApplyMutation(Overlay(s, d.mutations), x)
  {
  }

  lemma OverlayNothing(s: Store)
    ensures Overlay(s, map[]) == s
  {
  }

  /** The compacted write-set has the same effect as the whole run in time order. */
  lemma {:induction false} OverlayIsReplay(base: Store, d: Delta, ops: seq<Op>)
    ensures Overlay(base, Run(d, ops).mutations) == ReplayAll(Overlay(base, d.mutations), base, d, ops)
    decreases |ops|
  {
    if ops != [] {
      match ops[0] {
        case Put(k, v, lsn) => OverlayRecord(base, d, k, NewPut(k, v, lsn));
        case Delete(k, lsn) => OverlayRecord(base, d, k, NewDelete(k, lsn));
        case Clear => OverlayNothing(base);
      }
      OverlayIsReplay(base, Step(d, ops[0]), ops[1..]);
    }
  }

  /** The mutations applied in the order in which their keys are listed. */
  function ApplyListed(s: Store, order: seq<Key>, m: map<Key, Mutation>): Store
    requires forall k :: k in order ==> k in m
    decreases |order|
  {
    if order == [] then s else ApplyListed(ApplyMutation(s, m[order[0]]), order[1..], m)
  }

  ghost predicate Enumerates(order: seq<Key>, m: map<Key, Mutation>) {
    NoRepeats(order) && forall k :: k in order <==> k in m
  }

  /** One key of the result, before and after it has been listed. */
  lemma {:induction false} ListedAt(s: Store, order: seq<Key>, m: map<Key, Mutation>, k: Key)
    requires (forall j :: j in order ==> j in m) && (forall j :: j in m ==> m[j].key == j)
    ensures var r := ApplyListed(s, order, m);
            if k in order then (if m[k].PutMutation? then k in r && r[k] == m[k].value else k !in r)
            else (k in r <==> k in s) && (k in s ==> r[k] == s[k])
    decreases |order|
  {
    if order != [] {
      var s1 := ApplyMutation(s, m[order[0]]);
      ListedAt(s1, order[1..], m, k);
      assert m[order[0]].key == order[0];
    }
  }

  lemma ListedIsOverlay(s: Store, order: seq<Key>, m: map<Key, Mutation>)
    requires Enumerates(order, m) && forall j :: j in m ==> m[j].key == j
    ensures ApplyListed(s, order, m) == Overlay(s, m)
  {
    var r, o := ApplyListed(s, order, m), Overlay(s, m);
    forall k ensures (k in r <==> k in o) && (k in r ==> r[k] == o[k]) {
      ListedAt(s, order, m, k);
      assert k in order <==> k in m;
    }
    assert r.Keys == o.Keys;
  }

  /** In whatever order the write-set is applied, the result is the same: that of the run. */
  lemma AnyOrderIsReplay(base: Store, ops: seq<Op>, order: seq<Key>)
    requires Enumerates(order, Run(EMPTY, ops).mutations)
    ensures ApplyListed(base, order, Run(EMPTY, ops).mutations) == ReplayAll(base, base, EMPTY, ops)
  {
    EmptyAccounted();
    RunAccounts(EMPTY, ops);
    OverlayIsReplay(base, EMPTY, ops);
    OverlayNothing(base);
    ListedIsOverlay(base, order, Run(EMPTY, ops).mutations);
  }

  // ----------------------------------------------------------------------- acceptance

  /** The bytes that the mutations of a write-set take, from their keys and values. */
  ghost function Bytes32(m: map<Key, Mutation>): Key -> nat {
    k => if k !in m then 0 else |k| + (if m[k].PutMutation? then |m[k].value| else 0) + 32
  }

  /** What an operation asks of a write-set: of a put that its key and value are not too long, that fewer than 100000
      keys are held and that its bytes fit beside all that are held; of a delete nothing about the bytes. */
  ghost predicate Acceptable(d: Delta, op: Op) {
    match op
    case Put(k, v, _) =>
      && |k| <= 255 && |v| <= 16_777_215 && |d.mutations| < 100_000
      && Sum(d.mutations.Keys, Bytes32(d.mutations)) + |k| + |v| + 32 <= 16_777_216
    case Delete(k, _) => |k| <= 255 && |d.mutations| < 100_000
    case Clear => true
  }

  /** Exactly those operations are accepted. */
  lemma AcceptedIff(d: Delta, op: Op)
    requires Accounted(d)
    ensures Attempt(d, op).Ok? <==> Acceptable(d, op)
  {
    SumAgree(d.mutations.Keys, SizeAt(d.mutations), Bytes32(d.mutations));
  }

  function OpSize(op: Op): nat {
    match op
    case Put(k, v, _) => |k| + |v| + 32
    case Delete(k, _) => |k| + 32
    case Clear => 0
  }

  function OpSizes(ops: seq<Op>): nat {
    if ops == [] then 0 else OpSize(ops[0]) + OpSizes(ops[1..])
  }

  predicate WithinLimits(op: Op) {
    match op
    case Put(k, v, _) => |k| <= 255 && |v| <= 16_777_215
    case Delete(k, _) => |k| <= 255
    case Clear => true
  }

  predicate AllAccepted(d: Delta, ops: seq<Op>)
    decreases |ops|
  {
    ops == [] || (Attempt(d, ops[0]).Ok? && AllAccepted(Step(d, ops[0]), ops[1..]))
  }

  lemma StepGrowth(d: Delta, op: Op)
    requires Accounted(d)
    ensures |Step(d, op).mutations| <= |d.mutations| + 1 && Step(d, op).size <= d.size + OpSize(op)
  {
    match op
    case Put(k, v, lsn) => CountAfter(d.mutations, k, NewPut(k, v, lsn));
    case Delete(k, lsn) => CountAfter(d.mutations, k, NewDelete(k, lsn));
    case Clear =>
  }

  /** A run that stays within the limits as a whole has every operation accepted. */
  lemma {:induction false} RunAccepted(d: Delta, ops: seq<Op>)
    requires Accounted(d) && |d.mutations| + |ops| <= 100_000 && d.size + OpSizes(ops) <= 16_777_216
    requires forall i :: 0 <= i < |ops| ==> WithinLimits(ops[i])
    ensures AllAccepted(d, ops)
    decreases |ops|
  {
    if ops != [] {
      AcceptedIff(d, ops[0]);
      SumAgree(d.mutations.Keys, SizeAt(d.mutations), Bytes32(d.mutations));
      assert WithinLimits(ops[0]);
      StepAccounted(d, ops[0]);
      StepGrowth(d, ops[0]);
      RunAccepted(Step(d, ops[0]), ops[1..]);
    }
  }

  /** All operations one after the other on a store; clearing goes back to the base. */
  function Fold(s: Store, base: Store, ops: seq<Op>): Store
    decreases |ops|
  {
    if ops == [] then s
    else Fold(match ops[0]
              case Put(k, v, _) => s[k := v]
              case Delete(k, _) => s - {k}
              case Clear => base, base, ops[1..])
  }

  lemma {:induction false} AcceptedIsFold(s: Store, base: Store, d: Delta, ops: seq<Op>)
    requires AllAccepted(d, ops)
    ensures ReplayAll(s, base, d, ops) == Fold(s, base, ops)
    decreases |ops|
  {
    if ops != [] {
      AcceptedIsFold(ReplayOp(s, base, ops[0]), base, Step(d, ops[0]), ops[1..]);
    }
  }

  /** For every transaction of at most 100000 operations, with keys and values within their limits and at most
      16777216 bytes together, no operation is refused, and applying the write-set in any order of its keys leaves
      the store as applying every single operation in turn. */
  lemma CommitIsFold(base: Store, ops: seq<Op>, order: seq<Key>)
    requires |ops| <= 100_000 && OpSizes(ops) <= 16_777_216 && forall i :: 0 <= i < |ops| ==> WithinLimits(ops[i])
    requires Enumerates(order, Run(EMPTY, ops).mutations)
    ensures AllAccepted(EMPTY, ops)
    ensures ApplyListed(base, order, Run(EMPTY, ops).mutations) == Fold(base, base, ops)
  {
    EmptyAccounted();
    RunAccepted(EMPTY, ops);
    AnyOrderIsReplay(base, ops, order);
    AcceptedIsFold(base, base, EMPTY, ops);
  }
}
