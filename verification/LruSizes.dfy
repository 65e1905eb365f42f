/** What the size counter of a shard counts: the sizes given when entries were inserted, since an update keeps
    the recorded size whatever size it is given. */
module LruSizes {
  import opened Sums
  import opened LruState
  import opened LruRuns
  import opened ShardedCache

  /** A shard with the size of each key's inserting put and of its last accepted put. */
  datatype Weighed<K(!new), V> = Weighed(shard: Shard<K, V>, inserted: map<K, nat>, latest: map<K, nat>)

  function Weigh<K(!new), V>(w: Weighed<K, V>, c: Config, op: Op<K, V>): Weighed<K, V> {
    var t := Step(w.shard, c, op);
    if op.PutOp? && Put(w.shard, c, op.key, op.value, op.size).0.Ok? then
      Weighed(t, if op.key in w.shard.entries then w.inserted else w.inserted[op.key := op.size],
          w.latest[op.key := op.size])
    else w.(shard := t)
  }

  function RunWeighed<K(!new), V>(w: Weighed<K, V>, c: Config, ops: seq<Op<K, V>>): Weighed<K, V>
    decreases |ops|
  {
    if ops == [] then w else RunWeighed(Weigh(w, c, ops[0]), c, ops[1..])
  }

  function SizeIn<K>(sizes: map<K, nat>): K -> nat {
    k => if k in sizes then sizes[k] else 0
  }

  /** The recorded size of every entry is that of its inserting put. */
  ghost predicate Recorded<K(!new), V>(w: Weighed<K, V>) {
    forall k :: k in w.shard.entries ==> k in w.inserted && k in w.latest && w.shard.entries[k].size == w.inserted[k]
  }

  /** Every present key was last put with the size it was inserted with. */
  ghost predicate Steady<K(!new), V>(w: Weighed<K, V>) {
    forall k :: k in w.shard.entries ==> k in w.inserted && k in w.latest && w.latest[k] == w.inserted[k]
  }

  /** An accepted put that gives a present key another size than the recorded one. */
  ghost predicate Resizes<K(!new), V>(s: Shard<K, V>, c: Config, op: Op<K, V>) {
    op.PutOp? && op.size <= c.maxSize && op.key in s.entries && op.size != s.entries[op.key].size
  }

  lemma StepRecorded<K(!new), V>(w: Weighed<K, V>, c: Config, op: Op<K, V>)
    requires Valid(w.shard, c) && c.maxEntries >= 1 && Recorded(w)
    ensures Recorded(Weigh(w, c, op)) && Valid(Weigh(w, c, op).shard, c)
  {
    StepValid(w.shard, c, op);
    forall k | k in Step(w.shard, c, op).entries
      ensures if op.PutOp? && op.key == k && k !in w.shard.entries
              then Put(w.shard, c, k, op.value, op.size).0.Ok? && Step(w.shard, c, op).entries[k].size == op.size
              else k in w.shard.entries && Step(w.shard, c, op).entries[k].size == w.shard.entries[k].size
    {
      SizeOrigin(w.shard, c, op, k);
    }
  }

  lemma SizeOrigin<K(!new), V>(s: Shard<K, V>, c: Config, op: Op<K, V>, k: K)
    requires Valid(s, c) && c.maxEntries >= 1 && k in Step(s, c, op).entries
    ensures if op.PutOp? && op.key == k && k !in s.entries
            then Put(s, c, k, op.value, op.size).0.Ok? && Step(s, c, op).entries[k].size == op.size
            else k in s.entries && Step(s, c, op).entries[k].size == s.entries[k].size
  {
    StepOrigin(s, c, op, k);
    if op.PutOp? && op.size <= c.maxSize && op.key !in s.entries {
      RoomKeepsPinned(s, c, op.size);
    }
  }

  /** Over every run the counter is the sum of the sizes that the present keys were inserted with. */
  lemma {:induction false} CountsInserted<K(!new), V>(w: Weighed<K, V>, c: Config, ops: seq<Op<K, V>>)
    requires Valid(w.shard, c) && c.maxEntries >= 1 && Recorded(w)
    ensures var r := RunWeighed(w, c, ops);
            && Valid(r.shard, c) && Recorded(r)
            && r.shard.currentSize == Sum(r.shard.entries.Keys, SizeIn(r.inserted))
    decreases |ops|
  {
    if ops == [] {
      SumAgree(w.shard.entries.Keys, Sizes(w.shard.entries), SizeIn(w.inserted));
    } else {
      StepRecorded(w, c, ops[0]);
      CountsInserted(Weigh(w, c, ops[0]), c, ops[1..]);
    }
  }

  ghost predicate NoResize<K(!new), V>(w: Weighed<K, V>, c: Config, ops: seq<Op<K, V>>)
    decreases |ops|
  {
    ops != [] ==> !Resizes(w.shard, c, ops[0]) && NoResize(Weigh(w, c, ops[0]), c, ops[1..])
  }

  lemma StepSteady<K(!new), V>(w: Weighed<K, V>, c: Config, op: Op<K, V>)
    requires Valid(w.shard, c) && c.maxEntries >= 1 && Recorded(w) && Steady(w)
    ensures Steady(Weigh(w, c, op)) <==> !Resizes(w.shard, c, op)
  {
    var t := Weigh(w, c, op);
    if Resizes(w.shard, c, op) {
      assert op.key in t.shard.entries && t.latest[op.key] != t.inserted[op.key];
    } else {
      forall k | k in t.shard.entries ensures k in t.inserted && k in t.latest && t.latest[k] == t.inserted[k] {
        SteadyAt(w, c, op, k);
      }
    }
  }

  lemma SteadyAt<K(!new), V>(w: Weighed<K, V>, c: Config, op: Op<K, V>, k: K)
    requires Valid(w.shard, c) && c.maxEntries >= 1 && Recorded(w) && Steady(w) && !Resizes(w.shard, c, op)
    requires k in Step(w.shard, c, op).entries
    ensures var t := Weigh(w, c, op); k in t.inserted && k in t.latest && t.latest[k] == t.inserted[k]
  {
    SizeOrigin(w.shard, c, op, k);
  }

  /** A run that starts with every key at its inserted size ends so, and the counter is the sum of the sizes last
      put, when no accepted update changed a size. */
  lemma {:induction false} SteadyRun<K(!new), V>(w: Weighed<K, V>, c: Config, ops: seq<Op<K, V>>)
    requires Valid(w.shard, c) && c.maxEntries >= 1 && Recorded(w) && Steady(w) && NoResize(w, c, ops)
    ensures var r := RunWeighed(w, c, ops);
            Steady(r) && r.shard.currentSize == Sum(r.shard.entries.Keys, SizeIn(r.latest))
    decreases |ops|
  {
    if ops == [] {
      SumAgree(w.shard.entries.Keys, Sizes(w.shard.entries), SizeIn(w.latest));
    } else {
      StepRecorded(w, c, ops[0]);
      StepSteady(w, c, ops[0]);
      SteadyRun(Weigh(w, c, ops[0]), c, ops[1..]);
    }
  }

  /** One step from such a state: the counter is still the sum of the sizes last put if and only if the step
      is not an accepted update to another size; then it is off by the difference. */
  lemma CounterStepIff<K(!new), V>(w: Weighed<K, V>, c: Config, op: Op<K, V>)
    requires Valid(w.shard, c) && c.maxEntries >= 1 && Recorded(w) && Steady(w)
    ensures var t := Weigh(w, c, op);
            var total := Sum(t.shard.entries.Keys, SizeIn(t.latest));
            && (t.shard.currentSize == total <==> !Resizes(w.shard, c, op))
            && (Resizes(w.shard, c, op) ==> total == t.shard.currentSize + op.size - w.shard.entries[op.key].size)
  {
    var t := Weigh(w, c, op);
    StepRecorded(w, c, op);
    StepSteady(w, c, op);
    if Resizes(w.shard, c, op) {
      var keys := w.shard.entries.Keys;
      assert t.shard.entries.Keys == keys;
      SumAgree(keys, Sizes(w.shard.entries), SizeIn(w.latest));
      SumChange(keys, SizeIn(w.latest), SizeIn(t.latest), op.key);
      assert keys + {op.key} == keys;
    } else {
      SumAgree(t.shard.entries.Keys, Sizes(t.shard.entries), SizeIn(t.latest));
    }
  }

  /** From an empty shard. */
  lemma CountsFromEmpty<K(!new), V>(c: Config, ops: seq<Op<K, V>>)
    requires c.maxEntries >= 1
    ensures var w := Weighed(Empty(), map[], map[]);
            var r := RunWeighed(w, c, ops);
            && r.shard.currentSize == Sum(r.shard.entries.Keys, SizeIn(r.inserted))
            && (NoResize(w, c, ops) ==> r.shard.currentSize == Sum(r.shard.entries.Keys, SizeIn(r.latest)))
  {
    var w: Weighed<K, V> := Weighed(Empty(), map[], map[]);
    CountsInserted(w, c, ops);
    if NoResize(w, c, ops) {
      SteadyRun(w, c, ops);
    }
  }
}
