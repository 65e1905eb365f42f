/** Runs of puts as a client sees them: values in, values out, of any length. */
module ValueRuns {
  import opened Bytes
  import opened Results
  import opened Entries
  import opened SearchTree
  import opened TreePut
  import opened PutAsUpdate
  import opened PutRuns
  import opened Overflow
  import opened BTree

  datatype Op = Op(key: Key, value: seq<byte>, lsn: nat)

  /** The pages, the arrangement of the tree and the overflow pages. */
  datatype Store = Store(state: State, shape: Shape, chunks: Chunks)

  ghost predicate Sound(w: Store) {
    Placed(w.state, w.shape) && forall q :: q in w.chunks ==> q < w.state.nextPage
  }

  ghost function PutValue(w: Store, op: Op): (Store, bool)
    requires Sound(w)
  {
    var (s, t, cs, ok) := PutOutcome(w.state, w.shape, w.chunks, op.key, op.value, op.lsn);
    (Store(s, t, cs), ok)
  }

  /** The state the entry is put into: after any overflow pages were taken. */
  ghost function Ready(w: Store, op: Op): State {
    w.state.(nextPage := Prepared(w.chunks, w.state.nextPage, op.value).2)
  }

  ghost function KeptEntry(w: Store, op: Op): Entry {
    Entry(op.key, Prepared(w.chunks, w.state.nextPage, op.value).0, op.lsn)
  }

  lemma ReadyPlaced(w: Store, op: Op)
    requires Sound(w)
    ensures Placed(Ready(w, op), w.shape)
  {
    SkipKeepsPlaced(w.state, w.shape, Ready(w, op).nextPage);
  }

  lemma PutSound(w: Store, op: Op)
    requires Sound(w)
    ensures Sound(PutValue(w, op).0)
  {
    if |op.value| <= MAX_VALUE_SIZE {
      ReadyPlaced(w, op);
      PreparedBounded(w.chunks, w.state.nextPage, op.value);
      PutKeepsPlaced(Ready(w, op), w.shape, KeptEntry(w, op));
      PutNextPage(Ready(w, op), w.shape, KeptEntry(w, op));
    }
  }

  ghost function RunValues(w: Store, ops: seq<Op>): Store
    requires Sound(w)
    decreases |ops|
  {
    if ops == [] then w
    else
      PutSound(w, ops[0]);
      RunValues(PutValue(w, ops[0]).0, ops[1..])
  }

  // --------------------------------------------------------------- what a client knows

  datatype Version = Version(value: seq<byte>, lsn: nat)

  type Known = map<Key, Version>

  function Noted(m: Known, ops: seq<Op>): Known
    decreases |ops|
  {
    if ops == [] then m else Noted(m[ops[0].key := Version(ops[0].value, ops[0].lsn)], ops[1..])
  }

  function Shown(m: Known, k: Key, snapshot: nat): Read {
    if k in m && m[k].lsn <= snapshot then Value(m[k].value) else Missing
  }

  /** A search finds for every key an entry that stands for the value noted, and nothing for other keys. */
  ghost predicate StandsFor(cs: Chunks, found: Option<Entry>, m: Known, k: Key) {
    match found
    case None => k !in m
    case Some(e) => k in m && e.lsn == m[k].lsn && Resolved(cs, e.value) == Some(m[k].value)
  }

  ghost predicate Represents(w: Store, m: Known) {
    Sound(w) && IsTree(w.state.pages, w.shape)
    && forall k :: StandsFor(w.chunks, Found(w.state.pages, w.shape, k), m, k)
  }

  /** A put that stores what it is given: accepted, lossless, and not a short value that reads as a reference. */
  ghost predicate Gentle(w: Store, op: Op)
    requires Sound(w)
  {
    && |op.value| <= MAX_VALUE_SIZE && !IsReference(op.value) && w.state.nextPage < U64
    && PutValue(w, op).1
    && (ReadyPlaced(w, op); Lossless(Ready(w, op), w.shape, KeptEntry(w, op)))
  }

  ghost predicate AllGentle(w: Store, ops: seq<Op>)
    requires Sound(w)
    decreases |ops|
  {
    ops != [] ==> Gentle(w, ops[0]) && (PutSound(w, ops[0]); AllGentle(PutValue(w, ops[0]).0, ops[1..]))
  }

  lemma GentlePut(w: Store, m: Known, op: Op)
    requires Represents(w, m) && Gentle(w, op)
    ensures Represents(PutValue(w, op).0, m[op.key := Version(op.value, op.lsn)])
  {
    var s, t, e := Ready(w, op), w.shape, KeptEntry(w, op);
    PutSound(w, op);
    ReadyPlaced(w, op);
    PutIsUpdateIff(s, t, e);
    LosslessPutUpserts(s, t, e);
    PreparedResolves(w.chunks, w.state.nextPage, op.value);
    var u, n := PutValue(w, op).0, m[op.key := Version(op.value, op.lsn)];
    forall k ensures StandsFor(u.chunks, Found(u.state.pages, u.shape, k), n, k) {
      assert IsUpdateAt(s, t, e, k);
      assert StandsFor(w.chunks, Found(w.state.pages, w.shape, k), m, k);
      var was := Found(w.state.pages, w.shape, k);
      if k != op.key && was.Some? {
        PreparedKeeps(w.chunks, w.state.nextPage, op.value, was.value.value);
      }
    }
  }

  /** Over every run of such puts, with values of any length up to the maximum, a read returns for every key
      the last value put if its LSN is not later than the snapshot, and nothing otherwise. */
  lemma {:induction false} ValuesReadBack(w: Store, m: Known, ops: seq<Op>, k: Key, snapshot: nat)
    requires Represents(w, m) && AllGentle(w, ops)
    ensures Represents(RunValues(w, ops), Noted(m, ops))
    ensures var r := RunValues(w, ops);
            Visible(r.chunks, Found(r.state.pages, r.shape, k), snapshot) == Shown(Noted(m, ops), k, snapshot)
    decreases |ops|
  {
    if ops == [] {
      assert StandsFor(w.chunks, Found(w.state.pages, w.shape, k), m, k);
    } else {
      GentlePut(w, m, ops[0]);
      ValuesReadBack(PutValue(w, ops[0]).0, m[ops[0].key := Version(ops[0].value, ops[0].lsn)], ops[1..], k, snapshot);
    }
  }

  // -------------------------------------------------------------------- ascending keys

  /** The size of the entry kept for a put. */
  function KeptSize(op: Op): nat {
    11 + |op.key| + if |op.value| <= INLINE_THRESHOLD then |op.value| else 10
  }

  lemma KeptSizes(w: Store, op: Op)
    ensures Size(KeptEntry(w, op)) == KeptSize(op)
  {
  }

  ghost predicate AscendingOps(ops: seq<Op>) {
    forall i, j :: 0 <= i < j < |ops| ==> Less(ops[i].key, ops[j].key)
  }

  /** Values that can be told from references, of kept sizes between `lo` and `hi`. */
  ghost predicate Plain(ops: seq<Op>, lo: nat, hi: nat) {
    forall i :: 0 <= i < |ops| ==>
      && lo <= KeptSize(ops[i]) <= hi && |ops[i].value| <= MAX_VALUE_SIZE && !IsReference(ops[i].value)
  }

  /** A put takes no page back. */
  lemma {:induction false} RunTakes(w: Store, ops: seq<Op>)
    requires Sound(w)
    ensures RunValues(w, ops).state.nextPage >= w.state.nextPage
    decreases |ops|
  {
    if ops != [] {
      PutSound(w, ops[0]);
      PutTakes(w, ops[0]);
      RunTakes(PutValue(w, ops[0]).0, ops[1..]);
    }
  }

  lemma PutTakes(w: Store, op: Op)
    requires Sound(w)
    ensures PutValue(w, op).0.state.nextPage >= w.state.nextPage
  {
    if |op.value| <= MAX_VALUE_SIZE {
      ReadyPlaced(w, op);
      PutNextPage(Ready(w, op), w.shape, KeptEntry(w, op));
    }
  }

  lemma SkipAscended(s: State, t: Shape, done: seq<Entry>, n: nat)
    requires Ascended(s, t, done) && n >= s.nextPage
    ensures Ascended(s.(nextPage := n), t, done)
  {
    SkipKeepsPlaced(s, t, n);
  }

  lemma AscendingPut(w: Store, done: seq<Entry>, op: Op, lo: nat, hi: nat)
    requires Sound(w) && Ascended(w.state, w.shape, done) && AllBelow(done, op.key)
    requires Comparable(lo, hi) && Sized(done, lo, hi) && Plain([op], lo, hi) && w.state.nextPage < U64
    ensures Gentle(w, op) && Sound(PutValue(w, op).0)
    ensures Ascended(PutValue(w, op).0.state, PutValue(w, op).0.shape, done + [KeptEntry(w, op)])
    ensures Sized(done + [KeptEntry(w, op)], lo, hi)
  {
    var s, e := Ready(w, op), KeptEntry(w, op);
    PutSound(w, op);
    ReadyPlaced(w, op);
    SkipAscended(w.state, w.shape, done, s.nextPage);
    assert [op][0] == op;
    KeptSizes(w, op);
    AscendingStep(s, w.shape, done, e, lo, hi);
  }

  /** What holds of a run holds of the rest of it after its first put. */
  lemma RestOfRun(done: seq<Entry>, ops: seq<Op>, e: Entry, lo: nat, hi: nat)
    requires ops != [] && e.key == ops[0].key && AscendingOps(ops) && Plain(ops, lo, hi)
    requires forall i :: 0 <= i < |ops| ==> AllBelow(done, ops[i].key)
    ensures AscendingOps(ops[1..]) && Plain(ops[1..], lo, hi) && Plain([ops[0]], lo, hi)
    ensures forall i :: 0 <= i < |ops[1..]| ==> AllBelow(done + [e], ops[1..][i].key)
  {
    forall i | 0 <= i < |ops[1..]| ensures AllBelow(done + [e], ops[1..][i].key) {
      assert ops[1..][i] == ops[i + 1];
    }
  }

  /** Strictly ascending keys with comparable kept sizes make only such puts, as long as the pages taken have
      64-bit numbers. */
  lemma {:induction false} AscendingGentle(w: Store, done: seq<Entry>, ops: seq<Op>, lo: nat, hi: nat)
    requires Sound(w) && Ascended(w.state, w.shape, done) && Sized(done, lo, hi)
    requires Comparable(lo, hi) && AscendingOps(ops) && Plain(ops, lo, hi)
    requires forall i :: 0 <= i < |ops| ==> AllBelow(done, ops[i].key)
    requires RunValues(w, ops).state.nextPage < U64
    ensures AllGentle(w, ops)
    decreases |ops|
  {
    if ops != [] {
      RunTakes(w, ops);
      var op, u := ops[0], PutValue(w, ops[0]).0;
      var now := done + [KeptEntry(w, op)];
      RestOfRun(done, ops, KeptEntry(w, op), lo, hi);
      AscendingPut(w, done, op, lo, hi);
      AscendingGentle(u, now, ops[1..], lo, hi);
    }
  }

  /** From an empty tree, every run of puts with strictly ascending keys and comparable kept sizes is read back:
      for every key the value put, of any length up to the maximum, and nothing for other keys. */
  lemma AscendingValuesReadBack(page: nat, ops: seq<Op>, lo: nat, hi: nat, k: Key, snapshot: nat)
    requires Sound(Store(Create(page), Tip(page), map[])) && page > 0
    requires Comparable(lo, hi) && AscendingOps(ops) && Plain(ops, lo, hi)
    requires RunValues(Store(Create(page), Tip(page), map[]), ops).state.nextPage < U64
    ensures var r := RunValues(Store(Create(page), Tip(page), map[]), ops);
            Sound(r) && Visible(r.chunks, Found(r.state.pages, r.shape, k), snapshot)
                        == Shown(Noted(map[], ops), k, snapshot)
  {
    var w := Store(Create(page), Tip(page), map[]);
    CreateAscended(page);
    EmptyRepresents(page);
    AscendingGentle(w, [], ops, lo, hi);
    ValuesReadBack(w, map[], ops, k, snapshot);
  }

  lemma EmptyRepresents(page: nat)
    requires page > 0
    ensures Represents(Store(Create(page), Tip(page), map[]), map[])
  {
    CreatePlaced(page);
  }
}
