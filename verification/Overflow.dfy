/** Large values: chains of overflow pages, and how a leaf entry refers to one. */
module Overflow {
  import opened Bytes
  import opened Results

  const INLINE_THRESHOLD: nat := 2000
  const MAX_VALUE_SIZE: nat := 16_777_215
  const DATA_SIZE: nat := 16_332
  const MAX_CHAIN: nat := 2000

  /** An overflow page: the next page of its chain, 0 at the end, and its part of the value. */
  datatype Chunk = Chunk(next: nat, data: seq<byte>)

  type Chunks = map<nat, Chunk>

  function PagesNeeded(length: nat): nat {
    if length == 0 then 0 else (length + DATA_SIZE - 1) / DATA_SIZE
  }

  // ------------------------------------------------------------------------- writing

  /** A value on consecutive fresh pages from `p` on. */
  function ChainOn(cs: Chunks, v: seq<byte>, p: nat): Chunks
    decreases |v|
  {
    if |v| <= DATA_SIZE then cs[p := Chunk(0, v)]
    else ChainOn(cs[p := Chunk(p + 1, v[..DATA_SIZE])], v[DATA_SIZE..], p + 1)
  }

  /** Pages below the first one are left alone, and so are those already written. */
  lemma {:induction false} ChainOnKeeps(cs: Chunks, v: seq<byte>, p: nat, q: nat)
    requires q < p
    ensures q in ChainOn(cs, v, p) <==> q in cs
    ensures q in cs ==> ChainOn(cs, v, p)[q] == cs[q]
    decreases |v|
  {
    if |v| > DATA_SIZE {
      ChainOnKeeps(cs[p := Chunk(p + 1, v[..DATA_SIZE])], v[DATA_SIZE..], p + 1, q);
    }
  }

  lemma OneChunkLess(n: nat)
    requires n > DATA_SIZE
    ensures PagesNeeded(n) == PagesNeeded(n - DATA_SIZE) + 1
  {
  }

  lemma {:induction false} ChainOnPages(cs: Chunks, v: seq<byte>, p: nat, q: nat)
    requires v != [] && q in ChainOn(cs, v, p)
    ensures q in cs || p <= q < p + PagesNeeded(|v|)
    decreases |v|
  {
    if |v| > DATA_SIZE {
      OneChunkLess(|v|);
      ChainOnPages(cs[p := Chunk(p + 1, v[..DATA_SIZE])], v[DATA_SIZE..], p + 1, q);
    }
  }

  /** As many pages as it takes: all but the last are full, and the last is not empty. */
  lemma PagesAreNeeded(length: nat)
    requires length > 0
    ensures var n := PagesNeeded(length); n >= 1 && (n - 1) * 16332 < length <= n * 16332
  {
  }

  /** What stands on page `i` of a chain: the bytes from 16332 * i on, as many as fit, and the number of the next
      page unless it is the last. */
  lemma {:induction false} ChunkAt(cs: Chunks, v: seq<byte>, p: nat, i: nat)
    requires i * 16332 < |v|
    ensures p + i in ChainOn(cs, v, p)
    ensures var c, at := ChainOn(cs, v, p)[p + i], i * 16332;
            if |v| <= at + 16332 then c == Chunk(0, v[at..]) else c == Chunk(p + i + 1, v[at..at + 16332])
    decreases |v|
  {
    if |v| > DATA_SIZE {
      var rest, next := v[DATA_SIZE..], cs[p := Chunk(p + 1, v[..DATA_SIZE])];
      ChainUnfolds(cs, v, p);
      if i == 0 {
        ChainOnKeeps(next, rest, p + 1, p);
      } else {
        ChunkAt(next, rest, p + 1, i - 1);
        DropTwice(v, DATA_SIZE, (i - 1) * 16332);
      }
    }
  }

  lemma DropTwice(v: seq<byte>, m: nat, n: nat)
    requires m + n <= |v|
    ensures v[m..][n..] == v[m + n..]
    ensures forall k :: n <= k <= |v| - m ==> v[m..][n..k] == v[m + n..m + k]
  {
  }

  // ------------------------------------------------------------------------- reading

  /** `read_overflow_chain` after the pages in `seen`: nothing on a missing page, a page seen before, or a
      chain longer than 2000 pages. */
  function ReadFrom(cs: Chunks, p: nat, seen: set<nat>): Option<seq<byte>>
    decreases MAX_CHAIN - |seen|
  {
    if p in seen || |seen| >= MAX_CHAIN || p !in cs then None
    else if cs[p].next == 0 then Some(cs[p].data)
    else
      var rest :- ReadFrom(cs, cs[p].next, seen + {p});
      Some(cs[p].data + rest)
  }

  function ReadChain(cs: Chunks, p: nat): Option<seq<byte>> {
    ReadFrom(cs, p, {})
  }

  /** What was written is read back, with room to spare below the limit on pages. */
  lemma {:induction false} ChainReadsBack(cs: Chunks, v: seq<byte>, p: nat, seen: set<nat>)
    requires v != [] && |seen| + PagesNeeded(|v|) <= MAX_CHAIN && forall q :: q in seen ==> q < p
    ensures ReadFrom(ChainOn(cs, v, p), p, seen) == Some(v)
    decreases |v|
  {
    if |v| > DATA_SIZE {
      var rest, next := v[DATA_SIZE..], cs[p := Chunk(p + 1, v[..DATA_SIZE])];
      OneChunkLess(|v|);
      assert |seen + {p}| == |seen| + 1;
      ChainReadsBack(next, rest, p + 1, seen + {p});
      ChainOnKeeps(next, rest, p + 1, p);
      assert v == v[..DATA_SIZE] + rest;
    }
  }

  /** A chain that was read stays readable when pages are added. */
  lemma {:induction false} ReadExtends(cs: Chunks, ds: Chunks, p: nat, seen: set<nat>)
    requires ReadFrom(cs, p, seen).Some? && forall q :: q in cs ==> q in ds && ds[q] == cs[q]
    ensures ReadFrom(ds, p, seen) == ReadFrom(cs, p, seen)
    decreases MAX_CHAIN - |seen|
  {
    if cs[p].next != 0 {
      ReadExtends(cs, ds, cs[p].next, seen + {p});
    }
  }

  // ---------------------------------------------------------------------- references

  /** The ten bytes kept in the leaf for a large value. */
  function Reference(p: nat): seq<byte> {
    [255, 255] + ToLe(p, 8)
  }

  /** Ten bytes starting FF FF are taken for a reference. */
  predicate IsReference(v: seq<byte>) {
    |v| == 10 && v[0] == 255 && v[1] == 255
  }

  /** The value a leaf keeps, the overflow pages after storing it, and the next free page. */
  function Prepared(cs: Chunks, nextPage: nat, v: seq<byte>): (seq<byte>, Chunks, nat) {
    if |v| <= INLINE_THRESHOLD then (v, cs, nextPage)
    else (Reference(nextPage), ChainOn(cs, v, nextPage), nextPage + PagesNeeded(|v|))
  }

  /** A value stays in its leaf exactly up to 2000 bytes; a longer one takes as many pages as it needs and leaves a
      reference to the first of them. */
  lemma KeptInlineIff(cs: Chunks, nextPage: nat, v: seq<byte>)
    requires nextPage < U64
    ensures var (kept, ds, n) := Prepared(cs, nextPage, v);
            if |v| <= 2000 then kept == v && ds == cs && n == nextPage
            else IsReference(kept) && FromLe(kept[2..]) == nextPage && nextPage < n
                 && (n - nextPage - 1) * 16332 < |v| <= (n - nextPage) * 16332
  {
    if |v| > 2000 {
      PagesAreNeeded(|v|);
      Widths();
      assert Reference(nextPage)[2..] == ToLe(nextPage, 8);
      LeRoundTrip(nextPage, 8);
    }
  }

  /** What a kept value stands for. */
  function Resolved(cs: Chunks, kept: seq<byte>): Option<seq<byte>> {
    if IsReference(kept) then ReadChain(cs, FromLe(kept[2..])) else Some(kept)
  }

  /** Storing and resolving gives the value back, of any length up to the maximum, unless it is a short value
      that looks like a reference: that one is resolved as whatever chain it happens to name. */
  lemma PreparedResolves(cs: Chunks, nextPage: nat, v: seq<byte>)
    requires |v| <= MAX_VALUE_SIZE && nextPage < U64
    ensures var (kept, ds, _) := Prepared(cs, nextPage, v);
            Resolved(ds, kept) == if IsReference(v) then ReadChain(cs, FromLe(v[2..])) else Some(v)
  {
    if |v| > INLINE_THRESHOLD {
      var r := Reference(nextPage);
      assert r[2..] == ToLe(nextPage, 8);
      Widths();
      LeRoundTrip(nextPage, 8);
      ChainReadsBack(cs, v, nextPage, {});
    }
  }

  /** A value stored before is resolved as before. */
  lemma PreparedKeeps(cs: Chunks, nextPage: nat, v: seq<byte>, kept: seq<byte>)
    requires (forall q :: q in cs ==> q < nextPage) && Resolved(cs, kept).Some?
    ensures Resolved(Prepared(cs, nextPage, v).1, kept) == Resolved(cs, kept)
  {
    var ds := Prepared(cs, nextPage, v).1;
    forall q | q in cs ensures q in ds && ds[q] == cs[q] {
      if |v| > INLINE_THRESHOLD {
        ChainOnKeeps(cs, v, nextPage, q);
      }
    }
    if IsReference(kept) {
      ReadExtends(cs, ds, FromLe(kept[2..]), {});
    }
  }

  lemma PreparedBounded(cs: Chunks, nextPage: nat, v: seq<byte>)
    requires forall q :: q in cs ==> q < nextPage
    ensures var (_, ds, n) := Prepared(cs, nextPage, v); n >= nextPage && forall q :: q in ds ==> q < n
  {
    var (_, ds, n) := Prepared(cs, nextPage, v);
    forall q | q in ds ensures q < n {
      if |v| > INLINE_THRESHOLD {
        ChainOnPages(cs, v, nextPage, q);
      }
    }
  }

  // ----------------------------------------------------------------------- the loops

  /** The part of a value that goes on one page. */
  function First(v: seq<byte>): seq<byte> {
    if |v| <= DATA_SIZE then v else v[..DATA_SIZE]
  }

  /** The writing loop: each page is written with no successor, then its predecessor is linked to it. */
  method AllocateChain(cs: Chunks, v: seq<byte>, nextPage: nat) returns (out: Chunks, next: nat)
    requires v != []
    ensures out == ChainOn(cs, v, nextPage) && next == nextPage + PagesNeeded(|v|)
  {
    var rest, page := v, nextPage;
    out := cs[page := Chunk(0, First(v))];
    ghost var done: Chunks := cs;
    while |rest| > DATA_SIZE
      invariant rest != [] && page + PagesNeeded(|rest|) == nextPage + PagesNeeded(|v|)
      invariant out == done[page := Chunk(0, First(rest))]
      invariant ChainOn(cs, v, nextPage) == ChainOn(done, rest, page)
      decreases |rest|
    {
      OneChunkLess(|rest|);
      ChainUnfolds(done, rest, page);
      var newPage := page + 1;
      out := LinkChunk(out, page, newPage, First(rest[DATA_SIZE..]));
      done := done[page := Chunk(newPage, rest[..DATA_SIZE])];
      rest := rest[DATA_SIZE..];
      page := newPage;
    }
    next := page + 1;
  }

  /** Write a page and make it the successor of another. */
  method LinkChunk(cs: Chunks, page: nat, newPage: nat, data: seq<byte>) returns (out: Chunks)
    requires page in cs && page != newPage
    ensures out == cs[page := cs[page].(next := newPage)][newPage := Chunk(0, data)]
  {
    out := cs[newPage := Chunk(0, data)];
    out := out[page := out[page].(next := newPage)];
  }

  lemma ChainUnfolds(cs: Chunks, v: seq<byte>, p: nat)
    requires |v| > DATA_SIZE
    ensures ChainOn(cs, v, p) == ChainOn(cs[p := Chunk(p + 1, v[..DATA_SIZE])], v[DATA_SIZE..], p + 1)
  {
  }

  /** The reading loop with its guards against cycles and overlong chains. */
  method FollowChain(cs: Chunks, first: nat) returns (r: Option<seq<byte>>)
    ensures r == ReadChain(cs, first)
  {
    var buffer: seq<byte> := [];
    var current := first;
    var visited: set<nat> := {};
    PrependedNothing(ReadFrom(cs, first, {}));
    while true
      invariant |visited| <= MAX_CHAIN
      invariant ReadChain(cs, first) == Prepended(buffer, ReadFrom(cs, current, visited))
      decreases MAX_CHAIN - |visited|
    {
      if current in visited || |visited| + 1 > MAX_CHAIN || current !in cs {
        return None;
      }
      visited := visited + {current};
      var page := cs[current];
      if page.next == 0 {
        return Some(buffer + page.data);
      }
      ghost var rest := ReadFrom(cs, page.next, visited);
      if rest.Some? {
        assert buffer + (page.data + rest.value) == (buffer + page.data) + rest.value;
      }
      buffer := buffer + page.data;
      current := page.next;
    }
  }

  ghost function Prepended(a: seq<byte>, r: Option<seq<byte>>): Option<seq<byte>> {
    match r
    case None => None
    case Some(b) => Some(a + b)
  }

  lemma PrependedNothing(r: Option<seq<byte>>)
    ensures Prepended([], r) == r
  {
    if r.Some? {
      assert [] + r.value == r.value;
    }
  }
}
