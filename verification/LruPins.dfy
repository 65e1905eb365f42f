/** What the pin count of an entry counts: the pins minus the unpins since the entry was inserted,
    and what that means for who may be evicted. */
module LruPins {
  import opened Bytes
  import opened LruState
  import opened LruRuns
  import opened ShardedCache

  /** A shard with the pins minus the unpins of each key since its last insertion. */
  datatype Tallied<K(!new), V> = Tallied(shard: Shard<K, V>, net: map<K, int>)

  function Tally<K(!new), V>(o: Tallied<K, V>, c: Config, op: Op<K, V>): Tallied<K, V> {
    var t := Step(o.shard, c, op);
    match op
    case PinOp(k) => Tallied(t, if k in o.shard.entries && k in o.net then o.net[k := o.net[k] + 1] else o.net)
    case UnpinOp(k) => Tallied(t, if k in o.shard.entries && k in o.net then o.net[k := o.net[k] - 1] else o.net)
    case PutOp(k, v, size) =>
      Tallied(t, if k !in o.shard.entries && Put(o.shard, c, k, v, size).0.Ok? then o.net[k := 0] else o.net)
    case _ => Tallied(t, o.net)
  }

  function RunTallied<K(!new), V>(o: Tallied<K, V>, c: Config, ops: seq<Op<K, V>>): Tallied<K, V>
    decreases |ops|
  {
    if ops == [] then o else RunTallied(Tally(o, c, ops[0]), c, ops[1..])
  }

  /** Every entry has the pins that were put on it and not taken off, as a machine word. */
  ghost predicate CountsPins<K(!new), V>(o: Tallied<K, V>) {
    forall k :: k in o.shard.entries ==> k in o.net && o.shard.entries[k].pins == o.net[k] % U64
  }

  lemma WordUp(n: int)
    ensures (n % U64 + 1) % U64 == (n + 1) % U64
  {
  }

  lemma WordDown(n: int)
    ensures (n % U64 + U64 - 1) % U64 == (n - 1) % U64
  {
  }

  /** Where the pins of an entry after a step come from. */
  lemma PinsOrigin<K(!new), V>(s: Shard<K, V>, c: Config, op: Op<K, V>, k: K)
    requires Valid(s, c) && c.maxEntries >= 1 && k in Step(s, c, op).entries
    ensures k !in s.entries ==>
              && op.PutOp? && op.key == k && Put(s, c, k, op.value, op.size).0.Ok?
              && Step(s, c, op).entries[k].pins == 0
    ensures k in s.entries ==>
              Step(s, c, op).entries[k].pins
              == if op == PinOp(k) then (s.entries[k].pins + 1) % U64
                 else if op == UnpinOp(k) then (s.entries[k].pins + U64 - 1) % U64
                 else s.entries[k].pins
  {
    StepOrigin(s, c, op, k);
    if op.PutOp? && op.size <= c.maxSize {
      RoomKeepsPinned(s, c, op.size);
    }
  }

  lemma TallyAt<K(!new), V>(o: Tallied<K, V>, c: Config, op: Op<K, V>, k: K)
    requires k in o.net && k in o.shard.entries
    ensures var t := Tally(o, c, op);
            k in t.net && t.net[k] == o.net[k] + if op == PinOp(k) then 1 else if op == UnpinOp(k) then -1 else 0
  {
  }

  lemma CountsPinsAt<K(!new), V>(o: Tallied<K, V>, c: Config, op: Op<K, V>, k: K)
    requires Valid(o.shard, c) && c.maxEntries >= 1 && CountsPins(o) && k in Step(o.shard, c, op).entries
    ensures var t := Tally(o, c, op); k in t.net && Step(o.shard, c, op).entries[k].pins == t.net[k] % U64
  {
    PinsOrigin(o.shard, c, op, k);
    if k in o.shard.entries {
      TallyAt(o, c, op, k);
      WordUp(o.net[k]);
      WordDown(o.net[k]);
    }
  }

  lemma StepCountsPins<K(!new), V>(o: Tallied<K, V>, c: Config, op: Op<K, V>)
    requires Valid(o.shard, c) && c.maxEntries >= 1 && CountsPins(o)
    ensures Valid(Tally(o, c, op).shard, c) && CountsPins(Tally(o, c, op))
  {
    StepValid(o.shard, c, op);
    var t := Tally(o, c, op);
    assert t.shard == Step(o.shard, c, op);
    forall k | k in t.shard.entries ensures k in t.net && t.shard.entries[k].pins == t.net[k] % U64 {
      CountsPinsAt(o, c, op, k);
    }
  }

  /** Over every run, the pin count of every entry is the number of pins minus the number of unpins since its
      insertion, modulo 2^64: as many unpins as pins leave it unpinned, and an unpin beyond that wraps around. */
  lemma {:induction false} RunCountsPins<K(!new), V>(o: Tallied<K, V>, c: Config, ops: seq<Op<K, V>>)
    requires Valid(o.shard, c) && c.maxEntries >= 1 && CountsPins(o)
    ensures var r := RunTallied(o, c, ops); Valid(r.shard, c) && CountsPins(r)
    ensures var r := RunTallied(o, c, ops);
            forall k :: k in r.shard.entries ==> k in r.net && (r.net[k] == 0 ==> r.shard.entries[k].pins == 0)
    decreases |ops|
  {
    if ops != [] {
      StepCountsPins(o, c, ops[0]);
      RunCountsPins(Tally(o, c, ops[0]), c, ops[1..]);
    }
  }

  // ------------------------------------------------------------------- holding an entry

  /** The pins minus the unpins of a key in a list of operations. */
  function Net<K(==), V>(ops: seq<Op<K, V>>, k: K): int {
    if ops == [] then 0
    else (match ops[0]
          case PinOp(j) => if j == k then 1 else 0
          case UnpinOp(j) => if j == k then -1 else 0
          case _ => 0) + Net(ops[1..], k)
  }

  function RunShard<K(!new), V>(s: Shard<K, V>, c: Config, ops: seq<Op<K, V>>): Shard<K, V>
    decreases |ops|
  {
    if ops == [] then s else RunShard(Step(s, c, ops[0]), c, ops[1..])
  }

  /** Neither invalidated nor cleared, and at every moment before the end pinned more often than unpinned. */
  ghost predicate HeldThrough<K(!new), V>(ops: seq<Op<K, V>>, k: K, pins: nat) {
    && (forall i :: 0 <= i < |ops| ==> ops[i] != InvalidateOp(k) && ops[i] != ClearOp)
    && (forall n :: 0 <= n < |ops| ==> 0 < pins + Net(ops[..n], k) < U64)
    && 0 <= pins + Net(ops, k) < U64
  }

  lemma HeldLater<K(!new), V>(ops: seq<Op<K, V>>, k: K, pins: nat)
    requires ops != [] && HeldThrough(ops, k, pins)
    ensures pins > 0 && 0 <= pins + Net(ops[..1], k) < U64
    ensures HeldThrough(ops[1..], k, pins + Net(ops[..1], k))
  {
    var one := ops[..1];
    assert one[1..] == [] && Net(one[1..], k) == 0;
    assert Net(ops, k) == Net(one, k) + Net(ops[1..], k);
    assert Net(ops[..0], k) == 0;
    forall n | 0 <= n < |ops[1..]| ensures 0 < pins + Net(one, k) + Net(ops[1..][..n], k) < U64 {
      assert ops[..n + 1][1..] == ops[1..][..n] && ops[..n + 1][0] == ops[0];
      assert Net(ops[..n + 1], k) == Net(one, k) + Net(ops[1..][..n], k);
    }
    assert forall i :: 0 <= i < |ops[1..]| ==> ops[1..][i] == ops[i + 1];
  }

  lemma NetOne<K(!new), V>(op: Op<K, V>, k: K)
    ensures Net([op], k) == if op == PinOp(k) then 1 else if op == UnpinOp(k) then -1 else 0
  {
    assert [op][1..] == [];
  }

  /** Whatever else is put, read or evicted, an entry that at every moment has been pinned more often than unpinned
      stays, with exactly the pins left on it; when they reach zero at the end it is there still, unpinned. */
  lemma {:induction false} HeldStays<K(!new), V>(s: Shard<K, V>, c: Config, ops: seq<Op<K, V>>, k: K)
    requires Valid(s, c) && c.maxEntries >= 1 && k in s.entries && HeldThrough(ops, k, s.entries[k].pins)
    ensures var t := RunShard(s, c, ops);
            k in t.entries && t.entries[k].pins == s.entries[k].pins + Net(ops, k)
    decreases |ops|
  {
    if ops != [] {
      var op := ops[0];
      HeldLater(ops, k, s.entries[k].pins);
      assert ops[..1] == [op];
      NetOne(op, k);
      assert op != InvalidateOp(k) && op != ClearOp;
      PinnedStays(s, c, op, k);
      PinsOrigin(s, c, op, k);
      StepValid(s, c, op);
      NextPins(s.entries[k].pins, op, k);
      assert Net(ops, k) == Net([op], k) + Net(ops[1..], k);
      HeldStays(Step(s, c, op), c, ops[1..], k);
    }
  }

  /** Within a machine word nothing wraps. */
  lemma NextPins<K(!new), V>(pins: nat, op: Op<K, V>, k: K)
    requires 0 < pins && 0 <= pins + Net([op], k) < U64
    ensures op == PinOp(k) ==> (pins + 1) % U64 == pins + Net([op], k)
    ensures op == UnpinOp(k) ==> (pins + U64 - 1) % U64 == pins + Net([op], k)
  {
    NetOne(op, k);
  }
}
