/** The byte layout of pages: a 60-byte header, the entries or separators from
    there on, and for leaves the two sibling links in the last 16 bytes. */
module PageCodec {
  import opened Bytes
  import opened Results
  import opened Entries
  import opened LeafNodes
  import opened SearchTree

  // ------------------------------------------------------------------------- header

  /** The packed fields in declaration order; the checksum is bytes 28 to 31. */
  function HeaderFront(h: Header): (s: seq<byte>)
    ensures |s| == 28
  {
    ToLe(h.magic, 4) + (ToLe(h.nodeType, 1) + (ToLe(h.isRoot, 1) + (ToLe(h.numKeys, 2) + (ToLe(h.parent, 8)
    + (ToLe(h.rightSibling, 8) + (ToLe(h.freeSpace, 2) + ToLe(h.level, 2)))))))
  }

  function HeaderBack(h: Header): (s: seq<byte>)
    ensures |s| == 28
  {
    ToLe(h.flags, 4) + (ToLe(h.generation, 8) + (ToLe(h.reserved, 8) + ToLe(h.nodeId, 8)))
  }

  function HeaderBytes(h: Header): (s: seq<byte>)
    ensures |s| == HEADER_SIZE
  {
    HeaderFront(h) + (ToLe(h.checksum, 4) + HeaderBack(h))
  }

  function TakeHeader(s: seq<byte>): Option<(Header, seq<byte>)> {
    var (magic, s) :- TakeLe(s, 4);
    var (nodeType, s) :- TakeLe(s, 1);
    var (isRoot, s) :- TakeLe(s, 1);
    var (numKeys, s) :- TakeLe(s, 2);
    var (parent, s) :- TakeLe(s, 8);
    var (rightSibling, s) :- TakeLe(s, 8);
    var (freeSpace, s) :- TakeLe(s, 2);
    var (level, s) :- TakeLe(s, 2);
    var (checksum, s) :- TakeLe(s, 4);
    var (flags, s) :- TakeLe(s, 4);
    var (generation, s) :- TakeLe(s, 8);
    var (reserved, s) :- TakeLe(s, 8);
    var (nodeId, s) :- TakeLe(s, 8);
    Some((Header(magic, nodeType, isRoot, numKeys, parent, rightSibling, freeSpace, level, checksum,
                 flags, generation, reserved, nodeId), s))
  }

  /** Every field fits its width. */
  predicate HeaderFits(h: Header) {
    && h.magic < U32 && h.nodeType < 256 && h.isRoot < 256 && h.numKeys < U16
    && h.parent < U64 && h.rightSibling < U64 && h.freeSpace < U16 && h.level < U16
    && h.checksum < U32 && h.flags < U32 && h.generation < U64 && h.reserved < U64 && h.nodeId < U64
  }

  /** `NodeHeader::validate`. */
  predicate HeaderValid(h: Header) {
    && h.magic == NODE_MAGIC
    && 1 <= h.nodeType <= 4
    && ((h.nodeType == ROOT_INTERNAL || h.nodeType == ROOT_LEAF) <==> h.isRoot != 0)
    && (h.isRoot != 0 ==> h.parent == 0)
    && ((h.nodeType == LEAF || h.nodeType == ROOT_LEAF) ==> h.level == 0)
    && h.reserved == 0
  }

  lemma HeaderRoundTrip(h: Header, rest: seq<byte>)
    requires HeaderFits(h)
    ensures TakeHeader(HeaderBytes(h) + rest) == Some((h, rest))
  {
    Widths();
    var s13 := ToLe(h.nodeId, 8) + rest;
    var s12 := ToLe(h.reserved, 8) + s13;
    var s11 := ToLe(h.generation, 8) + s12;
    var s10 := ToLe(h.flags, 4) + s11;
    var s9 := ToLe(h.checksum, 4) + s10;
    var s8 := ToLe(h.level, 2) + s9;
    var s7 := ToLe(h.freeSpace, 2) + s8;
    var s6 := ToLe(h.rightSibling, 8) + s7;
    var s5 := ToLe(h.parent, 8) + s6;
    var s4 := ToLe(h.numKeys, 2) + s5;
    var s3 := ToLe(h.isRoot, 1) + s4;
    var s2 := ToLe(h.nodeType, 1) + s3;
    var s1 := ToLe(h.magic, 4) + s2;
    assert HeaderBytes(h) + rest == s1;
    TakeLeBack(h.magic, 4, s2);
    TakeLeBack(h.nodeType, 1, s3);
    TakeLeBack(h.isRoot, 1, s4);
    TakeLeBack(h.numKeys, 2, s5);
    TakeLeBack(h.parent, 8, s6);
    TakeLeBack(h.rightSibling, 8, s7);
    TakeLeBack(h.freeSpace, 2, s8);
    TakeLeBack(h.level, 2, s9);
    TakeLeBack(h.checksum, 4, s10);
    TakeLeBack(h.flags, 4, s11);
    TakeLeBack(h.generation, 8, s12);
    TakeLeBack(h.reserved, 8, s13);
    TakeLeBack(h.nodeId, 8, rest);
  }

  // ------------------------------------------------------------------------ entries

  /** Key length in one byte, key, value length in two, value, LSN in eight. */
  function EntryBytes(e: Entry): (s: seq<byte>)
    ensures |s| == Size(e)
  {
    ToLe(|e.key|, 1) + (e.key + (ToLe(|e.value|, 2) + (e.value + ToLe(e.lsn, 8))))
  }

  function TakeEntry(s: seq<byte>): Option<(Entry, seq<byte>)> {
    var (keyLen, s) :- TakeLe(s, 1);
    var (key, s) :- Take(s, keyLen);
    var (valueLen, s) :- TakeLe(s, 2);
    var (value, s) :- Take(s, valueLen);
    var (lsn, s) :- TakeLe(s, 8);
    Some((Entry(key, value, lsn), s))
  }

  function EntriesBytes(es: seq<Entry>): (s: seq<byte>)
    ensures |s| == Total(es)
  {
    EntriesLength(es);
    PutMany(EntryBytes, es)
  }

  lemma {:induction false} EntriesLength(es: seq<Entry>)
    ensures |PutMany(EntryBytes, es)| == Total(es)
  {
    if es != [] {
      EntriesLength(es[1..]);
    }
  }

  function TakeEntries(s: seq<byte>, n: nat): Option<(seq<Entry>, seq<byte>)> {
    TakeMany(TakeEntry, s, n)
  }

  /** An entry whose lengths fit their fields. */
  predicate EntryFits(e: Entry) {
    |e.key| <= 255 && |e.value| < U16 && e.lsn < U64
  }

  lemma EntryRoundTrip(e: Entry, rest: seq<byte>)
    requires EntryFits(e)
    ensures TakeEntry(EntryBytes(e) + rest) == Some((e, rest))
  {
    Widths();
    var s5 := ToLe(e.lsn, 8) + rest;
    var s4 := e.value + s5;
    var s3 := ToLe(|e.value|, 2) + s4;
    var s2 := e.key + s3;
    var s1 := ToLe(|e.key|, 1) + s2;
    assert EntryBytes(e) + rest == s1;
    TakeLeBack(|e.key|, 1, s2);
    TakeBack(e.key, s3);
    TakeLeBack(|e.value|, 2, s4);
    TakeBack(e.value, s5);
    TakeLeBack(e.lsn, 8, rest);
  }

  lemma EntriesRoundTrip(es: seq<Entry>, rest: seq<byte>)
    requires forall i :: 0 <= i < |es| ==> EntryFits(es[i])
    ensures TakeEntries(EntriesBytes(es) + rest, |es|) == Some((es, rest))
  {
    forall x, r | x in es ensures TakeEntry(EntryBytes(x) + r) == Some((x, r)) {
      EntryRoundTrip(x, r);
    }
    ManyRoundTrip(TakeEntry, EntryBytes, es, rest);
  }

  // --------------------------------------------------------------------- leaf pages

  type u32 = x: nat | x < 0x1_0000_0000

  function Links(l: Leaf): (s: seq<byte>)
    ensures |s| == LINK_BYTES
  {
    ToLe(l.next, 8) + ToLe(l.prev, 8)
  }

  /** Entries from the header on, zeros after them, and the links over the last 16 bytes. */
  function LeafBody(l: Leaf): (s: seq<byte>)
    requires Total(l.entries) <= BODY_SIZE
    ensures |s| == BODY_SIZE
  {
    (EntriesBytes(l.entries) + Zeros(BODY_SIZE - Total(l.entries)))[..LEAF_AREA] + Links(l)
  }

  function LeafImage(l: Leaf): (s: seq<byte>)
    requires Total(l.entries) <= BODY_SIZE
    ensures |s| == PAGE_SIZE
  {
    HeaderBytes(l.header) + LeafBody(l)
  }

  /** The leaf with the checksum of its image in its header. */
  function Sealed(l: Leaf, crc: seq<byte> -> u32): Leaf
    requires Total(l.entries) <= BODY_SIZE
  {
    l.(header := l.header.(checksum := crc(LeafImage(l))))
  }

  // ----------------------------------------------------------------- internal pages

  type Pair = (Key, nat)

  function PairBytes(p: Pair): (s: seq<byte>)
    ensures |s| == 9 + |p.0|
  {
    ToLe(|p.0|, 1) + (p.0 + ToLe(p.1, 8))
  }

  function TakePair(s: seq<byte>): Option<(Pair, seq<byte>)> {
    var (keyLen, s) :- TakeLe(s, 1);
    var (key, s) :- Take(s, keyLen);
    var (child, s) :- TakeLe(s, 8);
    Some(((key, child), s))
  }

  /** Separators paired with the children left of them. */
  function Zip(seps: seq<Key>, children: seq<nat>): (ps: seq<Pair>)
    requires |children| >= |seps|
    ensures |ps| == |seps|
  {
    seq(|seps|, i requires 0 <= i < |seps| => (seps[i], children[i]))
  }

  function Firsts(ps: seq<Pair>): seq<Key> {
    seq(|ps|, i requires 0 <= i < |ps| => ps[i].0)
  }

  function Seconds(ps: seq<Pair>): seq<nat> {
    seq(|ps|, i requires 0 <= i < |ps| => ps[i].1)
  }

  lemma Unzip(seps: seq<Key>, children: seq<nat>)
    requires |children| >= |seps|
    ensures Firsts(Zip(seps, children)) == seps && Seconds(Zip(seps, children)) == children[..|seps|]
  {
  }

  function PairsBytes(seps: seq<Key>, children: seq<nat>): seq<byte>
    requires |children| >= |seps|
  {
    PutMany(PairBytes, Zip(seps, children))
  }

  /** Separator and child in turn, the last child, zeros. */
  function InternalBody(seps: seq<Key>, children: seq<nat>): (s: seq<byte>)
    requires |children| == |seps| + 1 && |PairsBytes(seps, children)| + 8 <= BODY_SIZE
    ensures |s| == BODY_SIZE
  {
    var pairs := PairsBytes(seps, children);
    pairs + (ToLe(children[|seps|], 8) + Zeros(BODY_SIZE - |pairs| - 8))
  }

  function InternalImage(h: Header, seps: seq<Key>, children: seq<nat>): (s: seq<byte>)
    requires |children| == |seps| + 1 && |PairsBytes(seps, children)| + 8 <= BODY_SIZE
    ensures |s| == PAGE_SIZE
  {
    HeaderBytes(h) + InternalBody(seps, children)
  }

  ghost predicate InternalReady(n: Node)
    requires n.Internal?
  {
    && HeaderFits(n.header) && HeaderValid(n.header)
    && (n.header.nodeType == INTERNAL || n.header.nodeType == ROOT_INTERNAL)
    && n.header.numKeys == |n.seps| && |n.children| == |n.seps| + 1 && |PairsBytes(n.seps, n.children)| + 8 <= BODY_SIZE
    && (forall i :: 0 <= i < |n.seps| ==> |n.seps[i]| <= 255)
    && (forall i :: 0 <= i < |n.children| ==> n.children[i] < U64)
  }

  lemma PairRoundTrip(p: Pair, rest: seq<byte>)
    requires |p.0| <= 255 && p.1 < U64
    ensures TakePair(PairBytes(p) + rest) == Some((p, rest))
  {
    Widths();
    var s3 := ToLe(p.1, 8) + rest;
    var s2 := p.0 + s3;
    assert PairBytes(p) + rest == ToLe(|p.0|, 1) + s2;
    TakeLeBack(|p.0|, 1, s2);
    TakeBack(p.0, s3);
    TakeLeBack(p.1, 8, rest);
  }

  lemma PairsRoundTrip(seps: seq<Key>, children: seq<nat>, rest: seq<byte>)
    requires |children| >= |seps|
    requires forall i :: 0 <= i < |seps| ==> |seps[i]| <= 255
    requires forall i :: 0 <= i < |children| ==> children[i] < U64
    ensures TakeMany(TakePair, PairsBytes(seps, children) + rest, |seps|) == Some((Zip(seps, children), rest))
  {
    forall x, r | x in Zip(seps, children) ensures TakePair(PairBytes(x) + r) == Some((x, r)) {
      PairRoundTrip(x, r);
    }
    ManyRoundTrip(TakePair, PairBytes, Zip(seps, children), rest);
  }

  // ------------------------------------------------------------------------ parsing

  /** Errors of `from_bytes`; `OutOfRange` stands for an index past the end of the buffer. */
  datatype PageError = TooShort | InvalidHeader | OutOfRange

  function ParseLeaf(h: Header, body: seq<byte>): Result<Node, PageError> {
    match TakeEntries(body, h.numKeys)
    case None => Err(OutOfRange)
    case Some((es, _)) =>
      if |body| < BODY_SIZE then Err(OutOfRange)
      else Ok(LeafPage(Leaf(h, es, FromLe(body[LEAF_AREA..LEAF_AREA + 8]), FromLe(body[LEAF_AREA + 8..BODY_SIZE]))))
  }

  function ParseInternal(h: Header, body: seq<byte>): Result<Node, PageError> {
    match TakeMany(TakePair, body, h.numKeys)
    case None => Err(OutOfRange)
    case Some((ps, rest)) =>
      Ok(Internal(h, Firsts(ps), if |rest| >= 8 then Seconds(ps) + [FromLe(rest[..8])] else Seconds(ps)))
  }

  function Parse(bytes: seq<byte>): Result<Node, PageError> {
    match TakeHeader(bytes)
    case None => Err(TooShort)
    case Some((h, body)) =>
      if !HeaderValid(h) then Err(InvalidHeader)
      else if h.nodeType == INTERNAL || h.nodeType == ROOT_INTERNAL then ParseInternal(h, body)
      else ParseLeaf(h, body)
  }

  // ------------------------------------------------------------------- round trips

  lemma {:induction false} OneOfTotal(es: seq<Entry>, i: nat)
    requires i < |es|
    ensures Size(es[i]) <= Total(es)
  {
    if i > 0 {
      OneOfTotal(es[1..], i - 1);
    }
  }

  /** Within the leaf area the links overwrite nothing but zeros. */
  lemma BodyOfReady(l: Leaf)
    requires Total(l.entries) <= LEAF_AREA
    ensures LeafBody(l) == EntriesBytes(l.entries) + (Zeros(LEAF_AREA - Total(l.entries)) + Links(l))
  {
    var b, n := EntriesBytes(l.entries), Total(l.entries);
    assert (b + Zeros(BODY_SIZE - n))[..LEAF_AREA] == b + Zeros(LEAF_AREA - n);
  }

  lemma LinksRoundTrip(l: Leaf)
    requires Total(l.entries) <= BODY_SIZE && l.next < U64 && l.prev < U64
    ensures FromLe(LeafBody(l)[LEAF_AREA..LEAF_AREA + 8]) == l.next
    ensures FromLe(LeafBody(l)[LEAF_AREA + 8..BODY_SIZE]) == l.prev
  {
    Widths();
    LeRoundTrip(l.next, 8);
    LeRoundTrip(l.prev, 8);
    LastTwo((EntriesBytes(l.entries) + Zeros(BODY_SIZE - Total(l.entries)))[..LEAF_AREA], ToLe(l.next, 8),
        ToLe(l.prev, 8));
  }

  lemma LastTwo(front: seq<byte>, a: seq<byte>, b: seq<byte>)
    ensures var s, n := front + (a + b), |front|;
            s[n..n + |a|] == a && s[n + |a|..n + |a| + |b|] == b
  {
  }

  lemma LastChildBack(child: nat, pad: seq<byte>)
    requires child < U64
    ensures |ToLe(child, 8) + pad| >= 8 && FromLe((ToLe(child, 8) + pad)[..8]) == child
  {
    Widths();
    TakeLeBack(child, 8, pad);
  }

  lemma ParseInternalFrom(h: Header, body: seq<byte>, seps: seq<Key>, children: seq<nat>, rest: seq<byte>)
    requires |children| == |seps| + 1 && h.numKeys == |seps|
    requires TakeMany(TakePair, body, |seps|) == Some((Zip(seps, children), rest))
    requires |rest| >= 8 && FromLe(rest[..8]) == children[|seps|]
    ensures ParseInternal(h, body) == Ok(Internal(h, seps, children))
  {
    Unzip(seps, children);
    assert children[..|seps|] + [children[|seps|]] == children;
  }

  lemma InternalBodyBack(n: Node)
    requires n.Internal? && InternalReady(n)
    ensures ParseInternal(n.header, InternalBody(n.seps, n.children)) == Ok(n)
  {
    var pairs := PairsBytes(n.seps, n.children);
    assert n == Internal(n.header, n.seps, n.children);
    PairsThenChild(n.header, n.seps, n.children, pairs, Zeros(BODY_SIZE - |pairs| - 8));
  }

  lemma PairsThenChild(h: Header, seps: seq<Key>, children: seq<nat>, pairs: seq<byte>, pad: seq<byte>)
    requires |children| == |seps| + 1 && h.numKeys == |seps| && pairs == PairsBytes(seps, children)
    requires (forall i :: 0 <= i < |seps| ==> |seps[i]| <= 255) && (forall i :: 0 <= i < |children| ==>
                children[i] < U64)
    ensures ParseInternal(h, pairs + (ToLe(children[|seps|], 8) + pad)) == Ok(Internal(h, seps, children))
  {
    var last := ToLe(children[|seps|], 8) + pad;
    PairsRoundTrip(seps, children, last);
    LastChildBack(children[|seps|], pad);
    ParseInternalFrom(h, pairs + last, seps, children, last);
  }

  /** Internal nodes with one more child than separators that fit the page survive theirs. */
  lemma InternalRoundTrip(n: Node)
    requires n.Internal? && InternalReady(n)
    ensures Parse(InternalImage(n.header, n.seps, n.children)) == Ok(n)
  {
    HeaderRoundTrip(n.header, InternalBody(n.seps, n.children));
    InternalBodyBack(n);
  }

  // ------------------------------------------------- exactly when a leaf survives

  lemma {:induction false} LeInverse(s: seq<byte>)
    ensures ToLe(FromLe(s), |s|) == s && FromLe(s) < Pow256(|s|)
  {
    if s != [] {
      LeInverse(s[1..]);
      LowByte(s[0], FromLe(s[1..]), Pow256(|s| - 1));
      assert s == [s[0]] + s[1..];
    }
  }

  lemma LowByte(low: byte, high: nat, bound: nat)
    requires high < bound
    ensures (low + 256 * high) % 256 == low && (low + 256 * high) / 256 == high && low + 256 * high < 256 * bound
  {
  }

  lemma TakeLeInverse(s: seq<byte>, n: nat)
    requires TakeLe(s, n).Some?
    ensures s == ToLe(TakeLe(s, n).value.0, n) + TakeLe(s, n).value.1 && TakeLe(s, n).value.0 < Pow256(n)
  {
    LeInverse(s[..n]);
    assert s == s[..n] + s[n..];
  }

  lemma Regroup<T>(a: seq<T>, b: seq<T>, c: seq<T>, d: seq<T>, e: seq<T>, r: seq<T>)
    ensures (a + (b + (c + (d + e)))) + r == a + (b + (c + (d + (e + r))))
    ensures (((a + b) + c) + d) + e == a + (b + (c + (d + e)))
  {
  }

  lemma TakeInverse(s: seq<byte>, n: nat)
    requires Take(s, n).Some?
    ensures s == Take(s, n).value.0 + Take(s, n).value.1 && |Take(s, n).value.0| == n
  {
  }

  /** Whatever is read as an entry was written as that entry, with a key of at most 255 bytes. */
  lemma EntryInverse(s: seq<byte>)
    requires TakeEntry(s).Some?
    ensures s == EntryBytes(TakeEntry(s).value.0) + TakeEntry(s).value.1
    ensures |TakeEntry(s).value.0.key| <= 255
  {
    Widths();
    TakeLeInverse(s, 1);
    var (keyLen, s1) := TakeLe(s, 1).value;
    TakeInverse(s1, keyLen);
    var (key, s2) := Take(s1, keyLen).value;
    TakeLeInverse(s2, 2);
    var (valueLen, s3) := TakeLe(s2, 2).value;
    TakeInverse(s3, valueLen);
    var (value, s4) := Take(s3, valueLen).value;
    TakeLeInverse(s4, 8);
    var (lsn, s5) := TakeLe(s4, 8).value;
    Regroup(ToLe(keyLen, 1), key, ToLe(valueLen, 2), value, ToLe(lsn, 8), s5);
  }

  lemma EntriesInverse(s: seq<byte>, n: nat)
    requires TakeEntries(s, n).Some?
    ensures s == EntriesBytes(TakeEntries(s, n).value.0) + TakeEntries(s, n).value.1
    ensures KeysShort(TakeEntries(s, n).value.0)
  {
    var short := (e: Entry) => |e.key| <= 255;
    forall s | TakeEntry(s).Some?
      ensures s == EntryBytes(TakeEntry(s).value.0) + TakeEntry(s).value.1 && short(TakeEntry(s).value.0)
    {
      EntryInverse(s);
    }
    ManyInverse(TakeEntry, EntryBytes, short, s, n);
    var es := TakeEntries(s, n).value.0;
    forall i | 0 <= i < |es| ensures |es[i].key| <= 255 {
      assert short(es[i]);
    }
  }

  /** The entries end before the link fields, or happen to have the links' own bytes where they do not. */
  ghost predicate LinksSpare(l: Leaf)
    requires Total(l.entries) <= BODY_SIZE
  {
    Total(l.entries) <= LEAF_AREA
    || EntriesBytes(l.entries)[LEAF_AREA..] == Links(l)[..Total(l.entries) - LEAF_AREA]
  }

  /** That is when the entry bytes are still there after the links are written over the end of the body. */
  lemma SparedIff(l: Leaf)
    requires Total(l.entries) <= BODY_SIZE
    ensures LeafBody(l)[..Total(l.entries)] == EntriesBytes(l.entries) <==> LinksSpare(l)
  {
    var n := Total(l.entries);
    if n <= LEAF_AREA {
      BodyOfReady(l);
    } else {
      OverwrittenTail(EntriesBytes(l.entries), Zeros(BODY_SIZE - n), Links(l), LEAF_AREA);
    }
  }

  lemma OverwrittenTail(b: seq<byte>, pad: seq<byte>, links: seq<byte>, area: nat)
    requires area <= |b| <= area + |links|
    ensures ((b + pad)[..area] + links)[..|b|] == b <==> b[area..] == links[..|b| - area]
  {
    var body := (b + pad)[..area] + links;
    assert body[..|b|] == b[..area] + links[..|b| - area];
    assert b == b[..area] + b[area..];
  }

  ghost predicate KeysShort(es: seq<Entry>) {
    forall i :: 0 <= i < |es| ==> |es[i].key| <= 255
  }

  /** A leaf whose header and links fit their fields, of any content that can be written at all. */
  ghost predicate LeafWritable(l: Leaf) {
    && HeaderFits(l.header) && HeaderValid(l.header) && (l.header.nodeType == LEAF || l.header.nodeType == ROOT_LEAF)
    && l.header.numKeys == |l.entries| && Total(l.entries) <= BODY_SIZE
    && (forall i :: 0 <= i < |l.entries| ==> l.entries[i].lsn < U64)
    && l.next < U64 && l.prev < U64
  }

  lemma ParseOfImage(l: Leaf)
    requires LeafWritable(l)
    ensures Parse(LeafImage(l)) == ParseLeaf(l.header, LeafBody(l))
  {
    ParseAfterHeader(l.header, LeafBody(l));
  }

  lemma ParseAfterHeader(h: Header, body: seq<byte>)
    requires HeaderFits(h) && HeaderValid(h) && (h.nodeType == LEAF || h.nodeType == ROOT_LEAF)
    ensures Parse(HeaderBytes(h) + body) == ParseLeaf(h, body)
  {
    HeaderRoundTrip(h, body);
  }

  lemma ParseLeafIff(l: Leaf)
    requires LeafWritable(l)
    ensures ParseLeaf(l.header, LeafBody(l)) == Ok(LeafPage(l)) <==>
            TakeEntries(LeafBody(l), |l.entries|).Some? && TakeEntries(LeafBody(l), |l.entries|).value.0 == l.entries
  {
    LinksRoundTrip(l);
  }

  lemma EntriesBack(body: seq<byte>, es: seq<Entry>)
    requires Total(es) <= |body| && Total(es) < U16 && forall i :: 0 <= i < |es| ==> es[i].lsn < U64
    requires KeysShort(es) && body[..Total(es)] == EntriesBytes(es)
    ensures TakeEntries(body, |es|) == Some((es, body[Total(es)..]))
  {
    var n := Total(es);
    forall i | 0 <= i < |es| ensures EntryFits(es[i]) {
      OneOfTotal(es, i);
    }
    EntriesRoundTrip(es, body[n..]);
    TakeInverse(body, n);
  }

  lemma EntriesWereThere(body: seq<byte>, es: seq<Entry>, rest: seq<byte>)
    requires TakeEntries(body, |es|) == Some((es, rest)) && Total(es) <= |body|
    ensures KeysShort(es) && body[..Total(es)] == EntriesBytes(es)
  {
    EntriesInverse(body, |es|);
    TakeBack(EntriesBytes(es), rest);
  }

  /** A writable leaf is read back unchanged if and only if its keys have at most 255 bytes and its entries
      end within the 16308-byte leaf area or repeat the links' own bytes beyond it. */
  lemma LeafRoundTripIff(l: Leaf)
    requires LeafWritable(l)
    ensures Parse(LeafImage(l)) == Ok(LeafPage(l)) <==> KeysShort(l.entries) && LinksSpare(l)
  {
    ParseOfImage(l);
    ParseLeafIff(l);
    SparedIff(l);
    if KeysShort(l.entries) && LinksSpare(l) {
      EntriesBack(LeafBody(l), l.entries);
    }
    if Parse(LeafImage(l)) == Ok(LeafPage(l)) {
      EntriesWereThere(LeafBody(l), l.entries, TakeEntries(LeafBody(l), |l.entries|).value.1);
    }
  }

  /** What a leaf must satisfy to be written and read back unchanged. */
  ghost predicate LeafReady(l: Leaf) {
    LeafWritable(l) && KeysShort(l.entries) && Total(l.entries) <= LEAF_AREA
  }

  /** Every ready leaf survives its page; with the checksum written in, what is read back differs from the
      leaf in that field only. */
  lemma LeafRoundTrip(l: Leaf, crc: seq<byte> -> u32)
    requires LeafReady(l)
    ensures Parse(LeafImage(l)) == Ok(LeafPage(l))
    ensures Parse(LeafImage(Sealed(l, crc))) == Ok(LeafPage(Sealed(l, crc)))
    ensures Sealed(l, crc) == l.(header := l.header.(checksum := Sealed(l, crc).header.checksum))
  {
    LeafRoundTripIff(l);
    LeafRoundTripIff(Sealed(l, crc));
  }

  // -------------------------------------------------------------------- the methods

  /** Copy `src` into the buffer at `offset`, after `front`. */
  method WriteAt(bytes: array<byte>, offset: nat, src: seq<byte>, ghost front: seq<byte>)
    requires offset + |src| <= bytes.Length && bytes[..offset] == front
    modifies bytes
    ensures bytes[..offset + |src|] == front + src
    ensures bytes[offset + |src|..] == old(bytes[offset + |src|..])
  {
    forall i | 0 <= i < |src| {
      bytes[offset + i] := src[i];
    }
  }

  lemma DropDrop<T>(s: seq<T>, m: nat, n: nat)
    requires m <= n <= |s|
    ensures s[m..][n - m..] == s[n..]
  {
  }

  /** A length field and what it measures. */
  method WriteSized(bytes: array<byte>, offset: nat, len: seq<byte>, data: seq<byte>, ghost front: seq<byte>)
    requires offset + |len| + |data| <= bytes.Length && bytes[..offset] == front
    modifies bytes
    ensures bytes[..offset + |len| + |data|] == front + (len + data)
    ensures bytes[offset + |len| + |data|..] == old(bytes[offset + |len| + |data|..])
  {
    ghost var mid, end := offset + |len|, offset + |len| + |data|;
    DropDrop(bytes[..], mid, end);
    WriteAt(bytes, offset, len, front);
    DropDrop(bytes[..], mid, end);
    WriteAt(bytes, offset + |len|, data, front + len);
    Assoc(front, len, data);
  }

  /** One entry, field by field; the fields' positions add up to the entry's size. */
  method WriteEntry(bytes: array<byte>, offset: nat, e: Entry, ghost front: seq<byte>) returns (next: nat)
    requires offset + Size(e) <= bytes.Length && bytes[..offset] == front
    modifies bytes
    ensures next == offset + Size(e)
    ensures bytes[..next] == front + EntryBytes(e)
    ensures bytes[next..] == old(bytes[next..])
  {
    var key, value, end := offset + 1 + |e.key|, offset + 3 + |e.key| + |e.value|, offset + Size(e);
    ghost var k, v := ToLe(|e.key|, 1) + e.key, ToLe(|e.value|, 2) + e.value;
    DropDrop(bytes[..], key, end);
    WriteSized(bytes, offset, ToLe(|e.key|, 1), e.key, front);
    DropDrop(bytes[..], key, end);
    DropDrop(bytes[..], value, end);
    WriteSized(bytes, key, ToLe(|e.value|, 2), e.value, front + k);
    DropDrop(bytes[..], value, end);
    WriteAt(bytes, value, ToLe(e.lsn, 8), front + k + v);
    next := end;
    EntryFields(front, ToLe(|e.key|, 1), e.key, ToLe(|e.value|, 2), e.value, ToLe(e.lsn, 8));
  }

  lemma EntryFields<T>(p: seq<T>, a: seq<T>, b: seq<T>, c: seq<T>, d: seq<T>, e: seq<T>)
    ensures ((p + (a + b)) + (c + d)) + e == p + (a + (b + (c + (d + e))))
  {
  }

  /** All entries, one after the other, behind the header. */
  method WriteEntries(bytes: array<byte>, es: seq<Entry>, ghost head: seq<byte>)
    requires HEADER_SIZE + Total(es) <= bytes.Length == PAGE_SIZE
    requires bytes[..HEADER_SIZE] == head && forall j :: HEADER_SIZE <= j < PAGE_SIZE ==> bytes[j] == 0
    modifies bytes
    ensures bytes[..HEADER_SIZE + Total(es)] == head + EntriesBytes(es)
    ensures forall j :: HEADER_SIZE + Total(es) <= j < PAGE_SIZE ==> bytes[j] == 0
  {
    var offset := HEADER_SIZE;
    var i := 0;
    while i < |es|
      invariant 0 <= i <= |es|
      invariant offset == HEADER_SIZE + Total(es[..i]) <= PAGE_SIZE
      invariant bytes[..offset] == head + EntriesBytes(es[..i])
      invariant forall j :: offset <= j < PAGE_SIZE ==> bytes[j] == 0
    {
      PutManySnoc(EntryBytes, es, i);
      PrefixTotal(es, i);
      ghost var zeros := bytes[..];
      offset := WriteEntry(bytes, offset, es[i], bytes[..offset]);
      forall j | offset <= j < PAGE_SIZE ensures bytes[j] == 0 {
        assert bytes[j] == bytes[offset..][j - offset] == zeros[offset..][j - offset];
      }
      Assoc(head, EntriesBytes(es[..i]), EntryBytes(es[i]));
      i := i + 1;
    }
    assert es[..|es|] == es;
  }

  /** `to_bytes` of a leaf: the page image with its checksum. */
  method LeafToBytes(l: Leaf, crc: seq<byte> -> u32) returns (bytes: array<byte>)
    requires Total(l.entries) <= BODY_SIZE
    ensures fresh(bytes) && bytes[..] == LeafImage(Sealed(l, crc))
  {
    bytes := new byte[PAGE_SIZE](_ => 0);
    WriteAt(bytes, 0, HeaderBytes(l.header), []);
    assert bytes[..HEADER_SIZE] == HeaderBytes(l.header);
    WriteEntries(bytes, l.entries, HeaderBytes(l.header));
    PlainImage(bytes[..], l);
    WriteLinks(bytes, l);
    var checksum := crc(bytes[..]);
    WriteAt(bytes, 28, ToLe(checksum, 4), bytes[..28]);
    SealedImage(bytes[..], l, checksum);
  }

  method WriteLinks(bytes: array<byte>, l: Leaf)
    requires Total(l.entries) <= BODY_SIZE && bytes[..] == PlainPage(l)
    modifies bytes
    ensures bytes[..] == LeafImage(l)
  {
    WriteSized(bytes, PAGE_SIZE - 16, ToLe(l.next, 8), ToLe(l.prev, 8), bytes[..PAGE_SIZE - 16]);
    LinkedImage(bytes[..], l);
  }

  /** The page before the links are written. */
  function PlainPage(l: Leaf): (s: seq<byte>)
    requires Total(l.entries) <= BODY_SIZE
    ensures |s| == PAGE_SIZE
  {
    HeaderBytes(l.header) + (EntriesBytes(l.entries) + Zeros(BODY_SIZE - Total(l.entries)))
  }

  lemma PlainImage(s: seq<byte>, l: Leaf)
    requires Total(l.entries) <= BODY_SIZE && |s| == PAGE_SIZE
    requires s[..HEADER_SIZE + Total(l.entries)] == HeaderBytes(l.header) + EntriesBytes(l.entries)
    requires forall j :: HEADER_SIZE + Total(l.entries) <= j < PAGE_SIZE ==> s[j] == 0
    ensures s == PlainPage(l)
  {
    var n := HEADER_SIZE + Total(l.entries);
    assert s[n..] == Zeros(PAGE_SIZE - n);
    assert s == s[..n] + s[n..];
  }

  lemma LinkedImage(s: seq<byte>, l: Leaf)
    requires Total(l.entries) <= BODY_SIZE && |s| == PAGE_SIZE
    requires s[..PAGE_SIZE] == PlainPage(l)[..PAGE_SIZE - 16] + Links(l)
    ensures s == LeafImage(l)
  {
    var b := EntriesBytes(l.entries) + Zeros(BODY_SIZE - Total(l.entries));
    assert PlainPage(l)[..PAGE_SIZE - 16] == HeaderBytes(l.header) + b[..LEAF_AREA];
    Assoc(HeaderBytes(l.header), b[..LEAF_AREA], Links(l));
    assert s[..PAGE_SIZE] == s;
  }

  lemma SealedImage(s: seq<byte>, l: Leaf, checksum: u32)
    requires Total(l.entries) <= BODY_SIZE && |s| == PAGE_SIZE
    requires s[..32] == LeafImage(l)[..28] + ToLe(checksum, 4) && s[32..] == LeafImage(l)[32..]
    ensures s == LeafImage(l.(header := l.header.(checksum := checksum)))
  {
    var h := l.header;
    PatchBytes(HeaderFront(h), ToLe(h.checksum, 4), HeaderBack(h), LeafBody(l), ToLe(checksum, 4), s);
    var patched := l.(header := h.(checksum := checksum));
    assert HeaderFront(patched.header) == HeaderFront(h) && HeaderBack(patched.header) == HeaderBack(h);
    assert LeafBody(patched) == LeafBody(l);
  }

  /** Overwriting a field in the middle. */
  lemma PatchBytes(a: seq<byte>, x: seq<byte>, b: seq<byte>, c: seq<byte>, y: seq<byte>, s: seq<byte>)
    requires |x| == |y| && |s| >= |a| + |x|
    requires var old' := (a + (x + b)) + c;
             s[..|a| + |x|] == old'[..|a|] + y && s[|a| + |x|..] == old'[|a| + |x|..]
    ensures s == (a + (y + b)) + c
  {
    FieldAround(a, x, b, c);
    FieldAround(a, y, b, c);
    var n := |a| + |x|;
    assert s == s[..n] + s[n..];
  }

  lemma FieldAround(a: seq<byte>, x: seq<byte>, b: seq<byte>, c: seq<byte>)
    ensures var s := (a + (x + b)) + c;
            s[..|a|] == a && s[|a| + |x|..] == b + c && s == (a + x) + (b + c)
  {
  }

  lemma PrefixTotal(es: seq<Entry>, i: nat)
    requires i < |es|
    ensures Total(es[..i + 1]) == Total(es[..i]) + Size(es[i]) && Total(es[..i + 1]) <= Total(es)
  {
    TotalParts(es, i);
    TotalParts(es, i + 1);
    TailTotal(es, i);
  }

  lemma TotalParts(es: seq<Entry>, n: nat)
    requires n <= |es|
    ensures Total(es) == Total(es[..n]) + Total(es[n..])
  {
    var a, b := es[..n], es[n..];
    assert es == a + b;
    TotalConcat(a, b);
  }

  lemma TailTotal(es: seq<Entry>, i: nat)
    requires i < |es|
    ensures Total(es[i..]) == Size(es[i]) + Total(es[i + 1..])
  {
    var tail := es[i..];
    assert tail[0] == es[i] && tail[1..] == es[i + 1..];
  }

  /** `from_bytes`: header, then entries or separators, then links or last child. */
  method FromBytes(bytes: seq<byte>) returns (r: Result<Node, PageError>)
    ensures r == Parse(bytes)
  {
    var header := TakeHeader(bytes);
    if header.None? {
      return Err(TooShort);
    }
    var (h, body) := header.value;
    if !HeaderValid(h) {
      return Err(InvalidHeader);
    }
    if h.nodeType == INTERNAL || h.nodeType == ROOT_INTERNAL {
      var pairs := ReadMany(TakePair, body, h.numKeys);
      if pairs.None? {
        return Err(OutOfRange);
      }
      var (ps, rest) := pairs.value;
      return Ok(Internal(h, Firsts(ps), if |rest| >= 8 then Seconds(ps) + [FromLe(rest[..8])] else Seconds(ps)));
    }
    var entries := ReadMany(TakeEntry, body, h.numKeys);
    if entries.None? || |body| < BODY_SIZE {
      return Err(OutOfRange);
    }
    var next, prev := FromLe(body[LEAF_AREA..LEAF_AREA + 8]), FromLe(body[LEAF_AREA + 8..BODY_SIZE]);
    return Ok(LeafPage(Leaf(h, entries.value.0, next, prev)));
  }
}
