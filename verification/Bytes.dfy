/** Bytes, byte-string keys with their lexicographic order, and fixed-width
    little-endian integers: the vocabulary shared by the pages, the log records
    and the in-memory structures. */
module Bytes {
  import opened Results

  type byte = x: int | 0 <= x < 256

  type Key = seq<byte>

  // ---------------------------------------------------------------- key order

  /** The order of Rust's `[u8]` comparison: lexicographic, a proper prefix first. */
  predicate Less(a: Key, b: Key) {
    if b == [] then false
    else if a == [] then true
    else if a[0] != b[0] then a[0] < b[0]
    else Less(a[1..], b[1..])
  }

  predicate AtMost(a: Key, b: Key) {
    a == b || Less(a, b)
  }

  /** The first `n` bytes agree, and then the first key ends or has the smaller byte. */
  ghost predicate DivergeAt(a: Key, b: Key, n: nat) {
    && n <= |a| && n < |b| && (forall i :: 0 <= i < n ==> a[i] == b[i])
    && (n == |a| || a[n] < b[n])
  }

  lemma {:induction false} LessIff(a: Key, b: Key)
    ensures Less(a, b) <==> exists n: nat :: DivergeAt(a, b, n)
  {
    if a == [] && b != [] {
      assert DivergeAt(a, b, 0);
    } else if a != [] && b != [] {
      if a[0] == b[0] {
        LessIff(a[1..], b[1..]);
        if n: nat :| DivergeAt(a[1..], b[1..], n) {
          assert DivergeAt(a, b, n + 1);
        }
        if n: nat :| DivergeAt(a, b, n) {
          assert DivergeAt(a[1..], b[1..], n - 1);
        }
      } else if a[0] < b[0] {
        assert DivergeAt(a, b, 0);
      }
    }
  }

  lemma {:induction false} LessIrreflexive(a: Key)
    ensures !Less(a, a)
  {
    if a != [] {
      LessIrreflexive(a[1..]);
    }
  }

  lemma {:induction false} LessTransitive(a: Key, b: Key, c: Key)
    requires Less(a, b) && Less(b, c)
    ensures Less(a, c)
  {
    if a != [] && a[0] == b[0] && b[0] == c[0] {
      LessTransitive(a[1..], b[1..], c[1..]);
    }
  }

  lemma {:induction false} LessTotal(a: Key, b: Key)
    ensures a == b || Less(a, b) || Less(b, a)
  {
    if a != [] && b != [] && a[0] == b[0] {
      LessTotal(a[1..], b[1..]);
      assert a == [a[0]] + a[1..] && b == [b[0]] + b[1..];
    }
  }

  /** `Less` is a strict total order; one call makes the three laws available. */
  lemma KeyOrder()
    ensures forall a: Key :: !Less(a, a)
    ensures forall a: Key, b: Key, c: Key :: Less(a, b) && Less(b, c) ==> Less(a, c)
    ensures forall a: Key, b: Key :: a == b || Less(a, b) || Less(b, a)
  {
    forall a: Key ensures !Less(a, a) { LessIrreflexive(a); }
    forall a: Key, b: Key, c: Key | Less(a, b) && Less(b, c) ensures Less(a, c) { LessTransitive(a, b, c); }
    forall a: Key, b: Key ensures a == b || Less(a, b) || Less(b, a) { LessTotal(a, b); }
  }

  predicate Ascending(ks: seq<Key>) {
    forall i, j :: 0 <= i < j < |ks| ==> Less(ks[i], ks[j])
  }

  /** The position a binary search for `k` reports: the number of leading keys below `k`. */
  function Rank(ks: seq<Key>, k: Key): (r: nat)
    ensures r <= |ks|
    ensures forall i :: 0 <= i < r ==> Less(ks[i], k)
    ensures r < |ks| ==> !Less(ks[r], k)
  {
    if ks == [] || !Less(ks[0], k) then 0 else 1 + Rank(ks[1..], k)
  }

  /** On ascending keys everything from the reported position on is at least `k`,
      and `k` occurs, if anywhere, exactly there. */
  lemma RankSplits(ks: seq<Key>, k: Key)
    requires Ascending(ks)
    ensures forall i :: Rank(ks, k) <= i < |ks| ==> ks[i] == k || Less(k, ks[i])
    ensures forall i :: Rank(ks, k) < i < |ks| ==> Less(k, ks[i])
    ensures k in ks <==> Rank(ks, k) < |ks| && ks[Rank(ks, k)] == k
  {
    var r := Rank(ks, k);
    KeyOrder();
  }

  /** The binary search itself, halving the range between a key below `k` and one that is not. */
  method BinarySearch(ks: seq<Key>, k: Key) returns (r: nat)
    requires Ascending(ks)
    ensures r == Rank(ks, k)
  {
    var lo, hi := 0, |ks|;
    while lo < hi
      invariant 0 <= lo <= hi <= |ks|
      invariant lo > 0 ==> Less(ks[lo - 1], k)
      invariant hi < |ks| ==> !Less(ks[hi], k)
    {
      var mid := lo + (hi - lo) / 2;
      if Less(ks[mid], k) {
        lo := mid + 1;
      } else {
        hi := mid;
      }
    }
    RankAt(ks, k, lo);
    r := lo;
  }

  /** On ascending keys, a key below `k` directly before one that is not marks the rank. */
  lemma RankAt(ks: seq<Key>, k: Key, n: nat)
    requires Ascending(ks) && n <= |ks|
    requires (n > 0 ==> Less(ks[n - 1], k)) && (n < |ks| ==> !Less(ks[n], k))
    ensures Rank(ks, k) == n
  {
    var r := Rank(ks, k);
    if r < n - 1 {
      LessTransitive(ks[r], ks[n - 1], k);
    }
  }

  lemma Assoc<T>(a: seq<T>, b: seq<T>, c: seq<T>)
    ensures a + (b + c) == (a + b) + c
  {
  }

  // ------------------------------------------------- fixed-width little endian

  /** A number as `n` little-endian bytes, keeping only the low `n` bytes (Rust `as` then `to_le_bytes`). */
  function ToLe(x: nat, n: nat): (s: seq<byte>)
    ensures |s| == n
  {
    if n == 0 then [] else [x % 256] + ToLe(x / 256, n - 1)
  }

  function FromLe(s: seq<byte>): nat {
    if s == [] then 0 else s[0] + 256 * FromLe(s[1..])
  }

  function Pow256(n: nat): (p: nat)
    ensures p >= 1
  {
    if n == 0 then 1 else 256 * Pow256(n - 1)
  }

  lemma {:induction false} LeRoundTrip(x: nat, n: nat)
    requires x < Pow256(n)
    ensures FromLe(ToLe(x, n)) == x
  {
    if n != 0 {
      LeRoundTrip(x / 256, n - 1);
    }
  }

  const U16: nat := 0x1_0000
  const U32: nat := 0x1_0000_0000
  const U64: nat := 0x1_0000_0000_0000_0000

  /** Rust's `as u16`: reduction modulo 2^16, also of a negative number. */
  function AsU16(x: int): (r: nat)
    ensures r < U16
    ensures 0 <= x < U16 ==> r == x
    ensures -0x1_0000 <= x < 0 ==> r == x + U16
  {
    x % U16
  }

  function SaturatingSub(a: nat, b: nat): nat {
    if a >= b then a - b else 0
  }

  lemma Widths()
    ensures Pow256(1) == 256 && Pow256(2) == U16 && Pow256(4) == U32 && Pow256(8) == U64
  {
    assert Pow256(3) == 256 * Pow256(2);
    assert Pow256(4) == 256 * Pow256(3);
    assert Pow256(5) == 256 * Pow256(4);
    assert Pow256(6) == 256 * Pow256(5);
    assert Pow256(7) == 256 * Pow256(6);
    assert Pow256(8) == 256 * Pow256(7);
  }

  function Zeros(n: nat): (s: seq<byte>)
    ensures |s| == n
  {
    seq(n, _ => 0)
  }

  // ---------------------------------------------------------- reading from the front

  /** The first `n` bytes and the rest, if there are that many. */
  function Take(s: seq<byte>, n: nat): Option<(seq<byte>, seq<byte>)> {
    if n <= |s| then Some((s[..n], s[n..])) else None
  }

  function TakeLe(s: seq<byte>, n: nat): Option<(nat, seq<byte>)> {
    var (a, rest) :- Take(s, n);
    Some((FromLe(a), rest))
  }

  lemma TakeBack(a: seq<byte>, rest: seq<byte>)
    ensures Take(a + rest, |a|) == Some((a, rest))
  {
    assert (a + rest)[..|a|] == a && (a + rest)[|a|..] == rest;
  }

  lemma TakeLeBack(x: nat, n: nat, rest: seq<byte>)
    requires x < Pow256(n)
    ensures TakeLe(ToLe(x, n) + rest, n) == Some((x, rest))
  {
    TakeBack(ToLe(x, n), rest);
    LeRoundTrip(x, n);
  }

  // ------------------------------------------------------------- runs of like records

  type Reader<T> = seq<byte> -> Option<(T, seq<byte>)>

  /** `n` records, one after the other. */
  function TakeMany<T>(take: Reader<T>, s: seq<byte>, n: nat): Option<(seq<T>, seq<byte>)>
    decreases n
  {
    if n == 0 then Some(([], s))
    else
      var (x, s) :- take(s);
      var (xs, s) :- TakeMany(take, s, n - 1);
      Some(([x] + xs, s))
  }

  function PutMany<T>(put: T -> seq<byte>, xs: seq<T>): seq<byte> {
    if xs == [] then [] else put(xs[0]) + PutMany(put, xs[1..])
  }

  /** Reading undoes writing, record by record, whatever follows. */
  lemma {:induction false} ManyRoundTrip<T(!new)>(take: Reader<T>, put: T -> seq<byte>, xs: seq<T>, rest: seq<byte>)
    requires forall x, r :: x in xs ==> take(put(x) + r) == Some((x, r))
    ensures TakeMany(take, PutMany(put, xs) + rest, |xs|) == Some((xs, rest))
  {
    if xs == [] {
      assert PutMany(put, xs) + rest == rest;
    } else {
      var tail := PutMany(put, xs[1..]) + rest;
      assert PutMany(put, xs) + rest == put(xs[0]) + tail;
      ManyRoundTrip(take, put, xs[1..], rest);
      assert take(put(xs[0]) + tail) == Some((xs[0], tail));
      assert [xs[0]] + xs[1..] == xs;
    }
  }

  /** Writing undoes reading: what was read is all that stood before the rest. */
  lemma {:induction false} ManyInverse<T(!new)>(take: Reader<T>, put: T -> seq<byte>, ok: T -> bool, s: seq<byte>,
                                                n: nat)
    requires forall s :: take(s).Some? ==> s == put(take(s).value.0) + take(s).value.1 && ok(take(s).value.0)
    requires TakeMany(take, s, n).Some?
    ensures s == PutMany(put, TakeMany(take, s, n).value.0) + TakeMany(take, s, n).value.1
    ensures forall x :: x in TakeMany(take, s, n).value.0 ==> ok(x)
    ensures |TakeMany(take, s, n).value.0| == n
    decreases n
  {
    if n == 0 {
      assert [] + s == s;
    } else {
      var (x, s1) := take(s).value;
      ManyInverse(take, put, ok, s1, n - 1);
      var (xs, rest) := TakeMany(take, s1, n - 1).value;
      assert ([x] + xs)[1..] == xs;
      assert put(x) + (PutMany(put, xs) + rest) == (put(x) + PutMany(put, xs)) + rest;
    }
  }

  lemma {:induction false} PutManySnoc<T>(put: T -> seq<byte>, xs: seq<T>, i: nat)
    requires i < |xs|
    ensures PutMany(put, xs[..i + 1]) == PutMany(put, xs[..i]) + put(xs[i])
  {
    if i == 0 {
      assert xs[..1] == [xs[0]] && xs[..1][1..] == [] && xs[..0] == [];
    } else {
      PutManySnoc(put, xs[1..], i - 1);
      assert xs[..i + 1][1..] == xs[1..][..i] && xs[..i][1..] == xs[1..][..i - 1];
      assert xs[..i + 1][0] == xs[0];
    }
  }

  /** A reader that succeeds reads the same from a longer input, and leaves the rest. */
  ghost predicate Extends<T(!new)>(take: Reader<T>) {
    forall s, q :: take(s).Some? ==> take(s + q) == Some((take(s).value.0, take(s).value.1 + q))
  }

  lemma {:induction false} ManyExtends<T(!new)>(take: Reader<T>, s: seq<byte>, q: seq<byte>, n: nat)
    requires Extends(take) && TakeMany(take, s, n).Some?
    ensures TakeMany(take, s + q, n) == Some((TakeMany(take, s, n).value.0, TakeMany(take, s, n).value.1 + q))
    decreases n
  {
    if n > 0 {
      assert take(s + q) == Some((take(s).value.0, take(s).value.1 + q));
      ManyExtends(take, take(s).value.1, q, n - 1);
    }
  }

  lemma TakeExtends(s: seq<byte>, q: seq<byte>, n: nat)
    requires Take(s, n).Some?
    ensures Take(s + q, n) == Some((Take(s, n).value.0, Take(s, n).value.1 + q))
  {
    assert (s + q)[..n] == s[..n] && (s + q)[n..] == s[n..] + q;
  }

  lemma TakeLeExtends(s: seq<byte>, q: seq<byte>, n: nat)
    requires TakeLe(s, n).Some?
    ensures TakeLe(s + q, n) == Some((TakeLe(s, n).value.0, TakeLe(s, n).value.1 + q))
  {
    TakeExtends(s, q, n);
  }

  /** Records read before, put in front of the records still to be read. */
  ghost function Joined<T>(done: seq<T>, r: Option<(seq<T>, seq<byte>)>): Option<(seq<T>, seq<byte>)> {
    match r
    case None => None
    case Some((xs, rest)) => Some((done + xs, rest))
  }

  lemma JoinedNothing<T>(r: Option<(seq<T>, seq<byte>)>)
    ensures Joined([], r) == r
  {
    if r.Some? {
      assert [] + r.value.0 == r.value.0;
    }
  }

  lemma TakeManyUnfold<T>(take: Reader<T>, s: seq<byte>, n: nat, done: seq<T>)
    requires n > 0
    ensures take(s).None? ==> Joined(done, TakeMany(take, s, n)) == None
    ensures take(s).Some? ==> Joined(done, TakeMany(take, s, n))
                              == Joined(done + [take(s).value.0], TakeMany(take, take(s).value.1, n - 1))
  {
    if take(s).Some? && TakeMany(take, take(s).value.1, n - 1).Some? {
      var xs := TakeMany(take, take(s).value.1, n - 1).value.0;
      assert done + ([take(s).value.0] + xs) == (done + [take(s).value.0]) + xs;
    }
  }

  /** The reading loop: `n` records from the cursor on, or nothing once one runs past the buffer. */
  method ReadMany<T>(take: Reader<T>, s: seq<byte>, n: nat) returns (r: Option<(seq<T>, seq<byte>)>)
    ensures r == TakeMany(take, s, n)
  {
    var cursor: seq<byte>, i: nat := s, 0;
    var xs: seq<T> := [];
    JoinedNothing(TakeMany(take, s, n));
    while i < n
      invariant i <= n
      invariant TakeMany(take, s, n) == Joined(xs, TakeMany(take, cursor, n - i))
    {
      TakeManyUnfold(take, cursor, n - i, xs);
      var next := take(cursor);
      if next.None? {
        return None;
      }
      xs := xs + [next.value.0];
      cursor := next.value.1;
      i := i + 1;
    }
    assert xs + [] == xs;
    return Some((xs, cursor));
  }

}
