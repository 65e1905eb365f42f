/** Snapshot reads over every run, in whatever order the LSNs come: exactly when no read returns a wrong version. */
module VersionReads {
  import opened Bytes
  import opened Results
  import opened VersionStore

  // ------------------------------------------------------------- which versions are kept

  /** One flag per version of the history: is it still in the chain? */
  type Flags = seq<bool>

  /** The flagged versions, in order. */
  function KeptOf(h: History, f: Flags): Chain
    requires |f| == |h|
  {
    if h == [] then [] else (if f[0] then [h[0].version] else []) + KeptOf(h[1..], f[1..])
  }

  /** Only the first `n` flags stay up. */
  function FirstUp(f: Flags, n: nat): (r: Flags)
    ensures |r| == |f|
  {
    if f == [] then []
    else if f[0] && n > 0 then [true] + FirstUp(f[1..], n - 1)
    else [false] + FirstUp(f[1..], n)
  }

  function Above(h: History, f: Flags, oldest: nat): (r: Flags)
    requires |f| == |h|
    ensures |r| == |f|
  {
    seq(|h|, i requires 0 <= i < |h| => f[i] && h[i].version.lsn >= oldest)
  }

  function FlagsAfter(h: History, f: Flags, k: Key, op: Op): (r: Flags)
    requires |f| == |h|
    ensures |r| == |Remember(h, k, op)|
  {
    match op
    case Add(j, _) => if j == k then FirstUp([true] + f, MAX_CHAIN) else f
    case Reclaim(oldest) => Above(h, f, oldest)
    case Remove(j) => if j == k then [] else f
  }

  function RunFlags(h: History, f: Flags, k: Key, ops: seq<Op>): (r: Flags)
    requires |f| == |h|
    ensures |r| == |HistoryOf(h, k, ops)|
    decreases |ops|
  {
    if ops == [] then f else RunFlags(Remember(h, k, ops[0]), FlagsAfter(h, f, k, ops[0]), k, ops[1..])
  }

  /** What is dropped ahead of a kept version has a smaller LSN: reclaiming goes by LSN, and the limit on the
      length of a chain takes the oldest. */
  ghost predicate DroppedBelow(h: History, f: Flags)
    requires |f| == |h|
  {
    forall j, i :: 0 <= j < i < |h| && !f[j] && f[i] ==> h[j].version.lsn < h[i].version.lsn
  }

  lemma {:induction false} FirstUpKeeps(h: History, f: Flags, n: nat)
    requires |f| == |h|
    ensures KeptOf(h, FirstUp(f, n)) == if |KeptOf(h, f)| > n then KeptOf(h, f)[..n] else KeptOf(h, f)
  {
    if h != [] {
      FirstUpKeeps(h[1..], f[1..], if f[0] && n > 0 then n - 1 else n);
      var r := FirstUp(f, n);
      assert r[1..] == FirstUp(f[1..], if f[0] && n > 0 then n - 1 else n);
    }
  }

  lemma {:induction false} FirstUpOrder(f: Flags, n: nat, j: nat, i: nat)
    requires j < i < |f| && !FirstUp(f, n)[j] && FirstUp(f, n)[i]
    ensures !f[j] && f[i]
  {
    if j > 0 {
      FirstUpOrder(f[1..], if f[0] && n > 0 then n - 1 else n, j - 1, i - 1);
    } else {
      FirstUpSome(f[1..], n, i - 1);
    }
  }

  lemma {:induction false} FirstUpSome(f: Flags, n: nat, i: nat)
    requires i < |f| && FirstUp(f, n)[i]
    ensures n > 0 && f[i]
  {
    if i > 0 {
      FirstUpSome(f[1..], if f[0] && n > 0 then n - 1 else n, i - 1);
    }
  }

  lemma {:induction false} AboveKeeps(h: History, f: Flags, oldest: nat)
    requires |f| == |h|
    ensures KeptOf(h, Above(h, f, oldest)) == Retain(KeptOf(h, f), oldest)
  {
    if h != [] {
      AboveKeeps(h[1..], f[1..], oldest);
      assert Above(h, f, oldest)[1..] == Above(h[1..], f[1..], oldest);
      KeptHead(h, f);
      KeptHead(h, Above(h, f, oldest));
    }
  }

  lemma KeptHead(h: History, f: Flags)
    requires |f| == |h| && h != []
    ensures var rest := KeptOf(h[1..], f[1..]);
            if f[0] then KeptOf(h, f) != [] && KeptOf(h, f)[0] == h[0].version
                && KeptOf(h, f)[1..] == rest else KeptOf(h, f) == rest
  {
  }

  lemma {:induction false} SameVersionsKept(h: History, g: History, f: Flags)
    requires |f| == |h| == |g| && forall i :: 0 <= i < |h| ==> h[i].version == g[i].version
    ensures KeptOf(h, f) == KeptOf(g, f)
  {
    if h != [] {
      SameVersionsKept(h[1..], g[1..], f[1..]);
    }
  }

  lemma AddFlags(h: History, f: Flags, v: Version)
    requires |f| == |h| && DroppedBelow(h, f)
    ensures var g, r := [Mark(v, 0)] + h, FirstUp([true] + f, MAX_CHAIN);
            KeptOf(g, r) == AddTo(KeptOf(h, f), v) && DroppedBelow(g, r)
  {
    var g, up := [Mark(v, 0)] + h, [true] + f;
    assert g[1..] == h && up[1..] == f;
    FirstUpKeeps(g, up, MAX_CHAIN);
    var r := FirstUp(up, MAX_CHAIN);
    forall j, i | 0 <= j < i < |g| && !r[j] && r[i] ensures g[j].version.lsn < g[i].version.lsn {
      FirstUpOrder(up, MAX_CHAIN, j, i);
      assert g[j] == h[j - 1] && g[i] == h[i - 1];
    }
  }

  lemma StepFlags(s: Chains, h: History, f: Flags, k: Key, op: Op)
    requires |f| == |h| && DroppedBelow(h, f) && ChainOf(s, k) == KeptOf(h, f)
    ensures var g, r := Remember(h, k, op), FlagsAfter(h, f, k, op);
            ChainOf(Apply(s, op), k) == KeptOf(g, r) && DroppedBelow(g, r)
  {
    match op
    case Add(j, v) =>
      if j == k {
        AddFlags(h, f, v);
      }
    case Reclaim(oldest) =>
      AboveKeeps(h, f, oldest);
      SameVersionsKept(h, Remember(h, k, op), Above(h, f, oldest));
    case Remove(j) =>
  }

  /** Over every run a chain holds the flagged versions of the history, whatever the LSNs. */
  lemma {:induction false} RunKeepsFlags(s: Chains, h: History, f: Flags, k: Key, ops: seq<Op>)
    requires |f| == |h| && DroppedBelow(h, f) && ChainOf(s, k) == KeptOf(h, f)
    ensures var g, r := HistoryOf(h, k, ops), RunFlags(h, f, k, ops);
            ChainOf(Run(s, ops), k) == KeptOf(g, r) && DroppedBelow(g, r)
    decreases |ops|
  {
    if ops != [] {
      StepFlags(s, h, f, k, ops[0]);
      RunKeepsFlags(Apply(s, ops[0]), Remember(h, k, ops[0]), FlagsAfter(h, f, k, ops[0]), k, ops[1..]);
    }
  }

  // ------------------------------------------------------------------- what a read returns

  /** The first kept version that the snapshot sees. */
  ghost predicate FirstSeen(h: History, f: Flags, snapshot: nat, i: nat)
    requires |f| == |h|
  {
    && i < |h| && f[i] && Visible(h[i].version, snapshot)
    && forall m :: 0 <= m < i && f[m] ==> !Visible(h[m].version, snapshot)
  }

  lemma {:induction false} ResolveIsFirstSeen(h: History, f: Flags, snapshot: nat)
    requires |f| == |h|
    ensures Resolve(KeptOf(h, f), snapshot).Some? ==>
              exists i: nat :: FirstSeen(h, f, snapshot, i) && Resolve(KeptOf(h, f), snapshot) == Some(h[i].version)
    ensures forall i :: 0 <= i < |h| && f[i] && Visible(h[i].version, snapshot) ==>
                Resolve(KeptOf(h, f), snapshot).Some?
  {
    if h != [] {
      ResolveIsFirstSeen(h[1..], f[1..], snapshot);
      var c, rest := KeptOf(h, f), KeptOf(h[1..], f[1..]);
      if f[0] && Visible(h[0].version, snapshot) {
        assert FirstSeen(h, f, snapshot, 0);
      } else {
        KeptHead(h, f);
        assert Resolve(c, snapshot) == Resolve(rest, snapshot);
        if Resolve(rest, snapshot).Some? {
          var i: nat :| FirstSeen(h[1..], f[1..], snapshot, i) && Resolve(rest, snapshot) == Some(h[1..][i].version);
          SeenInTail(h, f, snapshot, i);
        }
      }
    }
  }

  lemma SeenInTail(h: History, f: Flags, snapshot: nat, i: nat)
    requires |f| == |h| && h != [] && FirstSeen(h[1..], f[1..], snapshot, i)
    requires !(f[0] && Visible(h[0].version, snapshot))
    ensures FirstSeen(h, f, snapshot, i + 1) && h[i + 1] == h[1..][i]
  {
    forall m | 0 <= m < i + 1 && f[m] ensures !Visible(h[m].version, snapshot) {
      assert m > 0 ==> h[1..][m - 1] == h[m] && f[1..][m - 1];
    }
  }

  /** A read returns nothing, or the version that the whole history says the snapshot should see. */
  ghost predicate RightAt(c: Chain, h: History, snapshot: nat) {
    Resolve(c, snapshot).Some? ==>
      exists i: nat :: IsAnswer(h, snapshot, i) && Resolve(c, snapshot) == Some(h[i].version)
  }

  /** Whenever some version, kept or not, has a greater LSN than a kept one, a kept version of that greater LSN
      stands before it in the chain. */
  ghost predicate Trusty(h: History, f: Flags)
    requires |f| == |h|
  {
    forall i, j :: 0 <= i < |h| && 0 <= j < |h| && f[i] && h[i].version.lsn < h[j].version.lsn ==> Shields(h, f, i, j)
  }

  ghost predicate Shields(h: History, f: Flags, i: nat, j: nat)
    requires |f| == |h| && i < |h| && j < |h|
  {
    exists m :: 0 <= m < i && f[m] && h[m].version.lsn == h[j].version.lsn
  }

  lemma FirstSeenAnswers(h: History, f: Flags, snapshot: nat, i: nat)
    requires |f| == |h| && Trusty(h, f) && DroppedBelow(h, f) && FirstSeen(h, f, snapshot, i)
    ensures IsAnswer(h, snapshot, i)
  {
    forall j | 0 <= j < |h| && j != i && Visible(h[j].version, snapshot)
      ensures h[j].version.lsn < h[i].version.lsn || (h[j].version.lsn == h[i].version.lsn && i < j)
    {
      NotShielded(h, f, snapshot, i, j);
    }
  }

  lemma NotShielded(h: History, f: Flags, snapshot: nat, i: nat, j: nat)
    requires |f| == |h| && FirstSeen(h, f, snapshot, i) && j < |h| && Visible(h[j].version, snapshot)
    ensures !Shields(h, f, i, j)
  {
  }

  /** A kept version that nothing shields from a greater LSN is returned, or another such, where the greater is due. */
  lemma UnshieldedReadsWrong(h: History, f: Flags, i: nat, j: nat)
    requires |f| == |h| && i < |h| && j < |h| && f[i]
    requires h[i].version.lsn < h[j].version.lsn && !Shields(h, f, i, j)
    ensures !RightAt(KeptOf(h, f), h, h[j].version.lsn)
  {
    var snapshot := h[j].version.lsn;
    ResolveIsFirstSeen(h, f, snapshot);
    var r: nat :| FirstSeen(h, f, snapshot, r) && Resolve(KeptOf(h, f), snapshot) == Some(h[r].version);
    assert r <= i;
    assert h[r].version.lsn < snapshot;
    forall n: nat | IsAnswer(h, snapshot, n) ensures h[n].version != h[r].version {
      assert n == j || h[j].version.lsn <= h[n].version.lsn;
    }
  }

  lemma ReadsRightIffTrusty(h: History, f: Flags)
    requires |f| == |h| && DroppedBelow(h, f)
    ensures (forall snapshot :: RightAt(KeptOf(h, f), h, snapshot)) <==> Trusty(h, f)
  {
    if Trusty(h, f) {
      forall snapshot ensures RightAt(KeptOf(h, f), h, snapshot) {
        ResolveIsFirstSeen(h, f, snapshot);
        if Resolve(KeptOf(h, f), snapshot).Some? {
          var i: nat :| FirstSeen(h, f, snapshot, i) && Resolve(KeptOf(h, f), snapshot) == Some(h[i].version);
          FirstSeenAnswers(h, f, snapshot, i);
        }
      }
    } else {
      var i, j :| 0 <= i < |h| && 0 <= j < |h| && f[i] && h[i].version.lsn < h[j].version.lsn && !Shields(h, f, i, j);
      UnshieldedReadsWrong(h, f, i, j);
    }
  }

  /** After every run of adds, deletes, reclaims and removals, in any order of LSNs: no snapshot reads a wrong
      version if and only if every kept version with a smaller LSN than some version ever written is preceded
      in the chain by one of that greater LSN. */
  lemma ReadsRightAfterRunIff(k: Key, ops: seq<Op>)
    ensures var h, f := HistoryOf([], k, ops), RunFlags([], [], k, ops);
            && ChainOf(Run(map[], ops), k) == KeptOf(h, f)
            && ((forall snapshot :: RightAt(ChainOf(Run(map[], ops), k), h, snapshot)) <==> Trusty(h, f))
  {
    RunKeepsFlags(map[], [], [], k, ops);
    ReadsRightIffTrusty(HistoryOf([], k, ops), RunFlags([], [], k, ops));
  }

  // ----------------------------------------------------------------------- two special cases

  /** Without reclaiming, the kept versions are the newest ten. */
  ghost predicate NoReclaim(ops: seq<Op>) {
    forall i :: 0 <= i < |ops| ==> !ops[i].Reclaim?
  }

  ghost predicate NewestUp(f: Flags) {
    forall i :: 0 <= i < |f| ==> (f[i] <==> i < MAX_CHAIN)
  }

  lemma {:induction false} FirstUpAt(f: Flags, n: nat, m: nat, i: nat)
    requires i < |f| && n <= m && forall j :: 0 <= j < |f| ==> (f[j] <==> j < m)
    ensures FirstUp(f, n)[i] <==> i < n
  {
    if i > 0 {
      var rest := f[1..];
      assert forall j :: 0 <= j < |rest| ==> rest[j] == f[j + 1];
      if n > 0 {
        FirstUpAt(rest, n - 1, m - 1, i - 1);
      } else if FirstUp(f, n)[i] {
        FirstUpSome(f, n, i);
      }
    }
  }

  lemma NewestStayUp(f: Flags)
    requires NewestUp(f)
    ensures NewestUp(FirstUp([true] + f, MAX_CHAIN))
  {
    var up := [true] + f;
    forall i | 0 <= i < |up| ensures FirstUp(up, MAX_CHAIN)[i] <==> i < MAX_CHAIN {
      FirstUpAt(up, MAX_CHAIN, MAX_CHAIN + 1, i);
    }
  }

  lemma {:induction false} NoReclaimFlags(h: History, f: Flags, k: Key, ops: seq<Op>)
    requires |f| == |h| && NewestUp(f) && NoReclaim(ops)
    ensures NewestUp(RunFlags(h, f, k, ops))
    decreases |ops|
  {
    if ops != [] {
      if ops[0].Add? && ops[0].key == k {
        NewestStayUp(f);
      }
      NoReclaimFlags(Remember(h, k, ops[0]), FlagsAfter(h, f, k, ops[0]), k, ops[1..]);
    }
  }

  /** The condition in terms of the history alone: a version among the newest ten with a smaller LSN than
      another, older or newer, comes after one of that greater LSN. */
  ghost predicate Guarded(h: History) {
    forall i, j :: 0 <= i < |h| && i < MAX_CHAIN && 0 <= j < |h| && h[i].version.lsn < h[j].version.lsn ==>
      exists m :: 0 <= m < i && h[m].version.lsn == h[j].version.lsn
  }

  lemma GuardedIsTrusty(h: History, f: Flags)
    requires |f| == |h| && NewestUp(f)
    ensures Trusty(h, f) <==> Guarded(h)
  {
    if Guarded(h) {
      forall i, j | 0 <= i < |h| && 0 <= j < |h| && f[i] && h[i].version.lsn < h[j].version.lsn
        ensures Shields(h, f, i, j)
      {
        var m :| 0 <= m < i && h[m].version.lsn == h[j].version.lsn;
        assert f[m];
      }
    }
    if Trusty(h, f) {
      forall i, j | 0 <= i < |h| && i < MAX_CHAIN && 0 <= j < |h| && h[i].version.lsn < h[j].version.lsn
        ensures exists m :: 0 <= m < i && h[m].version.lsn == h[j].version.lsn
      {
        assert Shields(h, f, i, j);
      }
    }
  }

  /** Without reclaiming no snapshot reads a wrong version if and only if the history meets that condition. */
  lemma NoReclaimReadsRightIff(k: Key, ops: seq<Op>)
    requires NoReclaim(ops)
    ensures var h := HistoryOf([], k, ops);
            (forall snapshot :: RightAt(ChainOf(Run(map[], ops), k), h, snapshot)) <==> Guarded(h)
  {
    ReadsRightAfterRunIff(k, ops);
    NoReclaimFlags([], [], k, ops);
    GuardedIsTrusty(HistoryOf([], k, ops), RunFlags([], [], k, ops));
  }

  /** LSNs that never decrease meet the condition, with any reclaiming. */
  lemma InOrderIsTrusty(h: History, f: Flags)
    requires |f| == |h| && InOrder(h) && DroppedBelow(h, f)
    ensures Trusty(h, f)
  {
    forall i, j | 0 <= i < |h| && 0 <= j < |h| && f[i] && h[i].version.lsn < h[j].version.lsn
      ensures Shields(h, f, i, j)
    {
      assert j < i && f[j];
    }
  }

  /** So no run that keeps a key's LSNs in order reads a wrong version of it. */
  lemma InOrderReadsRight(k: Key, ops: seq<Op>, snapshot: nat)
    requires Monotone([], k, ops)
    ensures RightAt(ChainOf(Run(map[], ops), k), HistoryOf([], k, ops), snapshot)
  {
    RunKeepsFlags(map[], [], [], k, ops);
    RunKeepsNewest(map[], [], k, ops);
    InOrderIsTrusty(HistoryOf([], k, ops), RunFlags([], [], k, ops));
    ReadsRightAfterRunIff(k, ops);
  }
}
