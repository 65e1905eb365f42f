/** Version chains: newest version first, at most ten per key, old ones reclaimed. */
module VersionStore {
  import opened Bytes
  import opened Results
  import opened Sums

  const MAX_CHAIN: nat := 10

  datatype Version = Version(value: seq<byte>, lsn: nat, isTombstone: bool)

  type Chain = seq<Version>

  predicate Visible(v: Version, snapshot: nat) {
    v.lsn <= snapshot
  }

  // -------------------------------------------------------------------- one chain

  function Truncate(c: Chain): Chain {
    if |c| > MAX_CHAIN then c[..MAX_CHAIN] else c
  }

  function AddTo(c: Chain, v: Version): Chain {
    Truncate([v] + c)
  }

  /** The versions at or above the horizon, in order. */
  function Retain(c: Chain, oldest: nat): (r: Chain)
    ensures |r| <= |c|
  {
    if c == [] then []
    else (if c[0].lsn >= oldest then [c[0]] else []) + Retain(c[1..], oldest)
  }

  /** The first visible version. */
  function Resolve(c: Chain, snapshot: nat): Option<Version> {
    if c == [] then None
    else if Visible(c[0], snapshot) then Some(c[0])
    else Resolve(c[1..], snapshot)
  }

  // ------------------------------------------------------- the full history of a key

  /** A version ever written, with the highest horizon reclaimed since it was written. */
  datatype Mark = Mark(version: Version, horizon: nat)

  type History = seq<Mark>

  function Max(a: nat, b: nat): nat {
    if a >= b then a else b
  }

  datatype Op = Add(key: Key, version: Version) | Reclaim(oldest: nat) | Remove(key: Key)

  /** Nothing is ever dropped from the history, except that removing a chain starts it anew. */
  function Remember(h: History, k: Key, op: Op): History {
    match op
    case Add(j, v) => if j == k then [Mark(v, 0)] + h else h
    case Reclaim(oldest) => seq(|h|, i requires 0 <= i < |h| => Mark(h[i].version, Max(h[i].horizon, oldest)))
    case Remove(j) => if j == k then [] else h
  }

  function HistoryOf(h: History, k: Key, ops: seq<Op>): History
    decreases |ops|
  {
    if ops == [] then h else HistoryOf(Remember(h, k, ops[0]), k, ops[1..])
  }

  /** What the log promises: a key's versions come with non-decreasing LSNs. */
  ghost predicate InOrder(h: History) {
    forall i, j :: 0 <= i < j < |h| ==> h[i].version.lsn >= h[j].version.lsn && h[i].horizon <= h[j].horizon
  }

  predicate Extends(h: History, k: Key, op: Op) {
    op.Add? && op.key == k && h != [] ==> h[0].version.lsn <= op.version.lsn
  }

  ghost predicate Monotone(h: History, k: Key, ops: seq<Op>)
    decreases |ops|
  {
    ops != [] ==> Extends(h, k, ops[0]) && Monotone(Remember(h, k, ops[0]), k, ops[1..])
  }

  /** Whether the `i`-th newest version is still kept: fewer than ten are newer, and no horizon above its LSN
      has been reclaimed since it was written. */
  predicate Kept(h: History, i: nat)
    requires i < |h|
  {
    i < 10 && h[i].version.lsn >= h[i].horizon
  }

  /** A chain is the newest part of the history, and holds exactly the versions still kept. */
  ghost predicate NewestPart(c: Chain, h: History) {
    && |c| <= |h|
    && (forall i :: 0 <= i < |c| ==> c[i] == h[i].version)
    && (forall i :: 0 <= i < |h| ==> (Kept(h, i) <==> i < |c|))
  }

  // ------------------------------------------------------------------- store as a map

  type Chains = map<Key, Chain>

  function ChainOf(s: Chains, k: Key): Chain {
    if k in s then s[k] else []
  }

  function Apply(s: Chains, op: Op): Chains {
    match op
    case Add(k, v) => s[k := AddTo(ChainOf(s, k), v)]
    case Reclaim(oldest) => map k | k in s :: Retain(s[k], oldest)
    case Remove(k) => s - {k}
  }

  function Run(s: Chains, ops: seq<Op>): Chains
    decreases |ops|
  {
    if ops == [] then s else Run(Apply(s, ops[0]), ops[1..])
  }

  lemma RememberInOrder(h: History, k: Key, op: Op)
    requires InOrder(h) && Extends(h, k, op)
    ensures InOrder(Remember(h, k, op))
  {
  }

  lemma AddKeepsNewest(c: Chain, h: History, v: Version)
    requires InOrder(h) && NewestPart(c, h)
    ensures NewestPart(AddTo(c, v), [Mark(v, 0)] + h)
  {
    var c1, h1 := [v] + c, [Mark(v, 0)] + h;
    if c != [] {
      assert Kept(h, |c| - 1);
    }
    forall i | 0 <= i < |h1| ensures Kept(h1, i) <==> i < |AddTo(c, v)| {
      if i > 0 {
        assert h1[i] == h[i - 1];
        assert Kept(h, i - 1) <==> i - 1 < |c|;
      }
    }
  }

  /** On versions in order the retained ones are a prefix. */
  lemma {:induction false} RetainIsPrefix(c: Chain, oldest: nat)
    requires forall i, j :: 0 <= i < j < |c| ==> c[i].lsn >= c[j].lsn
    ensures forall i :: 0 <= i < |c| ==> (c[i].lsn >= oldest <==> i < |Retain(c, oldest)|)
    ensures forall i :: 0 <= i < |Retain(c, oldest)| ==> Retain(c, oldest)[i] == c[i]
  {
    if c != [] {
      RetainIsPrefix(c[1..], oldest);
      var tail := Retain(c[1..], oldest);
      forall i | 0 <= i < |c| ensures c[i].lsn >= oldest <==> i < |Retain(c, oldest)| {
        if i > 0 {
          assert c[i] == c[1..][i - 1];
        } else if c[0].lsn < oldest && |c| > 1 {
          assert c[1..][0].lsn < oldest;
        }
      }
    }
  }

  lemma ReclaimKeepsNewest(c: Chain, h: History, k: Key, oldest: nat)
    requires InOrder(h) && NewestPart(c, h)
    ensures NewestPart(Retain(c, oldest), Remember(h, k, Reclaim(oldest)))
  {
    RetainIsPrefix(c, oldest);
    var h1 := Remember(h, k, Reclaim(oldest));
    forall i | 0 <= i < |h1| ensures Kept(h1, i) <==> i < |Retain(c, oldest)| {
      assert Kept(h, i) <==> i < |c|;
    }
  }

  lemma StepKeepsNewest(s: Chains, h: History, k: Key, op: Op)
    requires InOrder(h) && NewestPart(ChainOf(s, k), h)
    ensures NewestPart(ChainOf(Apply(s, op), k), Remember(h, k, op))
  {
    match op
    case Add(j, v) =>
      if j == k {
        AddKeepsNewest(ChainOf(s, k), h, v);
      }
    case Reclaim(oldest) =>
      ReclaimKeepsNewest(ChainOf(s, k), h, k, oldest);
    case Remove(j) =>
  }

  /** Over every run with non-decreasing LSNs for a key, its chain is the newest part of its history: exactly
      the versions with fewer than ten newer ones and no later reclaim above their LSN. */
  lemma {:induction false} RunKeepsNewest(s: Chains, h: History, k: Key, ops: seq<Op>)
    requires InOrder(h) && NewestPart(ChainOf(s, k), h) && Monotone(h, k, ops)
    ensures InOrder(HistoryOf(h, k, ops))
    ensures NewestPart(ChainOf(Run(s, ops), k), HistoryOf(h, k, ops))
    decreases |ops|
  {
    if ops != [] {
      RememberInOrder(h, k, ops[0]);
      StepKeepsNewest(s, h, k, ops[0]);
      RunKeepsNewest(Apply(s, ops[0]), Remember(h, k, ops[0]), k, ops[1..]);
    }
  }

  // ------------------------------------------------------------------ snapshot reads

  /** The version a snapshot should see: the greatest LSN at or below it, the later written of equals. */
  ghost predicate IsAnswer(h: History, snapshot: nat, i: nat) {
    && i < |h| && h[i].version.lsn <= snapshot
    && forall j :: 0 <= j < |h| && j != i && h[j].version.lsn <= snapshot ==>
         h[j].version.lsn < h[i].version.lsn || (h[j].version.lsn == h[i].version.lsn && i < j)
  }

  lemma AnswerIsFirst(h: History, snapshot: nat, i: nat, j: nat)
    requires InOrder(h) && IsAnswer(h, snapshot, i) && j < i
    ensures !Visible(h[j].version, snapshot)
  {
  }

  lemma {:induction false} ResolveFindsFirst(c: Chain, snapshot: nat, i: nat)
    requires i <= |c| && (forall j :: 0 <= j < i ==> !Visible(c[j], snapshot))
    ensures i < |c| && Visible(c[i], snapshot) ==> Resolve(c, snapshot) == Some(c[i])
    ensures i == |c| ==> Resolve(c, snapshot) == None
  {
    if i > 0 {
      ResolveFindsFirst(c[1..], snapshot, i - 1);
    }
  }

  /** A read returns the full-history answer when that version is kept, and nothing otherwise; when the
      history has no visible version it returns nothing. It never returns a wrong version. */
  lemma ResolveAfterRun(k: Key, ops: seq<Op>, snapshot: nat, i: nat)
    requires Monotone([], k, ops)
    ensures var h := HistoryOf([], k, ops);
            var r := Resolve(ChainOf(Run(map[], ops), k), snapshot);
            && (IsAnswer(h, snapshot, i) ==> r == if Kept(h, i) then Some(h[i].version) else None)
            && ((forall j :: 0 <= j < |h| ==> h[j].version.lsn > snapshot) ==> r == None)
  {
    RunKeepsNewest(map[], [], k, ops);
    var h, c := HistoryOf([], k, ops), ChainOf(Run(map[], ops), k);
    if IsAnswer(h, snapshot, i) {
      forall j | 0 <= j < i ensures !Visible(h[j].version, snapshot) {
        AnswerIsFirst(h, snapshot, i, j);
      }
      ResolveFindsFirst(c, snapshot, if i < |c| then i else |c|);
    }
    if forall j :: 0 <= j < |h| ==> h[j].version.lsn > snapshot {
      ResolveFindsFirst(c, snapshot, |c|);
    }
  }

  /** Some version answers as soon as one is visible, so the two cases of a read are exhaustive. */
  lemma {:induction false} AnswerExists(h: History, snapshot: nat, n: nat)
    requires InOrder(h) && n < |h| && h[n].version.lsn <= snapshot
    ensures exists i: nat :: IsAnswer(h, snapshot, i)
    decreases n
  {
    if j :| 0 <= j < n && h[j].version.lsn <= snapshot {
      AnswerExists(h, snapshot, j);
    } else {
      assert IsAnswer(h, snapshot, n);
    }
  }

  /** Without the promised order a read can return a version older than one it should see. */
  lemma OutOfOrderReadsStale(k: Key, v: seq<byte>, w: seq<byte>)
    ensures var ops := [Add(k, Version(v, 20, false)), Add(k, Version(w, 10, false))];
            && Resolve(ChainOf(Run(map[], ops), k), 30) == Some(Version(w, 10, false))
            && IsAnswer(HistoryOf([], k, ops), 30, 1)
            && HistoryOf([], k, ops)[1].version == Version(v, 20, false)
  {
    var a, b := Add(k, Version(v, 20, false)), Add(k, Version(w, 10, false));
    var ops := [a, b];
    assert ops[1..] == [b] && [b][1..] == [];
    var s := Apply(map[], a);
    assert ChainOf(s, k) == [Version(v, 20, false)];
    assert Run(map[], ops) == Run(s, [b]) == Apply(s, b);
    assert HistoryOf([], k, ops) == HistoryOf(Remember([], k, a), k, [b]) == Remember(Remember([], k, a), k, b);
  }

  // ----------------------------------------------------------------------- the object

  ghost function Lengths(s: Chains): Key -> nat {
    k => |ChainOf(s, k)|
  }

  class VersionStore {
    var chains: Chains

    constructor ()
      ensures chains == map[]
    {
      chains := map[];
    }

    method AddVersion(k: Key, v: Version)
      modifies this
      ensures chains == Apply(old(chains), Add(k, v))
    {
      var versions := if k in chains then chains[k] else [];
      versions := [v] + versions;
      if |versions| > MAX_CHAIN {
        versions := versions[..MAX_CHAIN];
      }
      chains := chains[k := versions];
    }

    method Delete(k: Key, lsn: nat)
      modifies this
      ensures chains == Apply(old(chains), Add(k, Version([], lsn, true)))
    {
      AddVersion(k, Version([], lsn, true));
    }

    method ResolveAt(k: Key, snapshot: nat) returns (r: Option<Version>)
      ensures r == Resolve(ChainOf(chains, k), snapshot)
    {
      if k !in chains {
        return None;
      }
      var versions := chains[k];
      var i := 0;
      while i < |versions|
        invariant 0 <= i <= |versions|
        invariant Resolve(versions, snapshot) == Resolve(versions[i..], snapshot)
      {
        assert versions[i..][1..] == versions[i + 1..];
        if Visible(versions[i], snapshot) {
          return Some(versions[i]);
        }
        i := i + 1;
      }
      return None;
    }

    method Exists(k: Key, snapshot: nat) returns (r: bool)
      ensures r <==> Resolve(ChainOf(chains, k), snapshot).Some?
                     && !Resolve(ChainOf(chains, k), snapshot).value.isTombstone
    {
      var v := ResolveAt(k, snapshot);
      return v.Some? && !v.value.isTombstone;
    }

    method RemoveChain(k: Key) returns (removed: bool)
      modifies this
      ensures chains == Apply(old(chains), Remove(k)) && removed == (k in old(chains))
    {
      removed := k in chains;
      chains := chains - {k};
    }

    /** Reclaim in every chain, in whatever order the hash map lists them; the result is the number of
        versions dropped. */
    method ReclaimAll(oldest: nat) returns (reclaimed: nat)
      modifies this
      ensures chains == Apply(old(chains), Reclaim(oldest))
      ensures Sum(old(chains).Keys, Lengths(old(chains)))
              == Sum(old(chains).Keys, Lengths(chains)) + reclaimed
    {
      reclaimed := 0;
      var todo := chains.Keys;
      ghost var before := chains;
      ghost var keys := chains.Keys;
      while todo != {}
        invariant chains.Keys == keys && todo <= keys
        invariant forall k :: k in keys ==> chains[k] == if k in todo then before[k] else Retain(before[k], oldest)
        invariant Sum(keys, Lengths(before)) == Sum(keys, Lengths(chains)) + reclaimed
      {
        var k :| k in todo;
        ghost var was := chains;
        var kept := Retain(chains[k], oldest);
        reclaimed := reclaimed + (|chains[k]| - |kept|);
        chains := chains[k := kept];
        todo := todo - {k};
        ShorterChain(keys, was, chains, k);
      }
    }
  }

  lemma ShorterChain(keys: set<Key>, a: Chains, b: Chains, k: Key)
    requires k in keys && forall j :: j in keys && j != k ==> ChainOf(a, j) == ChainOf(b, j)
    ensures Sum(keys, Lengths(a)) == Sum(keys, Lengths(b)) + |ChainOf(a, k)| - |ChainOf(b, k)|
  {
    SumChange(keys, Lengths(a), Lengths(b), k);
    assert keys + {k} == keys;
  }
}
