/** Where everything stands on a written page: each field at its offset, low byte first, and the checksum
    of the page as it was before it. */
module PageLayout {
  import opened Bytes
  import opened Results
  import opened Entries
  import opened LeafNodes
  import opened SearchTree
  import opened PageCodec
  import opened TreePages

  /** The bytes of a number are its digits to the base 256, the lowest first. */
  lemma {:induction false} LowByteFirst(x: nat, n: nat, i: nat)
    requires i < n
    ensures ToLe(x, n)[i] == (x / Pow256(i)) % 256
    decreases n
  {
    if i > 0 {
      LowByteFirst(x / 256, n - 1, i - 1);
      DivideTwice(x, 256, Pow256(i - 1));
    }
  }

  lemma DivideTwice(x: nat, a: nat, b: nat)
    requires a > 0 && b > 0
    ensures a * b > 0 && (x / a) / b == x / (a * b)
  {
    var q := x / a;
    var r, p, s := x % a, q / b, q % b;
    assert x == q * a + r && q == p * b + s;
    Distribute(p, b, s, a);
    RestBelow(s, a, b, r);
    QuotientIs(x, a * b, p, s * a + r);
  }

  lemma Distribute(p: int, b: int, s: int, a: int)
    ensures (p * b + s) * a == p * (a * b) + s * a
  {
  }

  lemma RestBelow(s: nat, a: nat, b: nat, r: nat)
    requires s < b && r < a
    ensures s * a + r < a * b
  {
    assert (s + 1) * a <= b * a;
  }

  lemma QuotientIs(x: nat, m: nat, p: nat, rest: nat)
    requires m > 0 && x == p * m + rest && rest < m
    ensures x / m == p
  {
    SameQuotient(m, p, rest, x / m, x % m);
  }

  lemma SameQuotient(m: nat, p: nat, r: nat, q: nat, s: nat)
    requires p * m + r == q * m + s && r < m && s < m
    ensures p == q
  {
    if p < q {
      RestBelow(p, m, q, r);
    } else if q < p {
      RestBelow(q, m, p, s);
    }
  }

  /** Reading on behind a position: the next field and what follows it. */
  lemma NextField(s: seq<byte>, i: nat, field: seq<byte>, rest: seq<byte>)
    requires i <= |s| && s[i..] == field + rest
    ensures i + |field| <= |s| && s[i..i + |field|] == field && s[i + |field|..] == rest
  {
    assert s[i..i + |field|] == s[i..][..|field|];
    assert s[i + |field|..] == s[i..][|field|..];
  }

  /** The header fields, packed in the order of their declaration. */
  lemma HeaderLayout(h: Header)
    ensures var s := HeaderBytes(h);
            && s[0..4] == ToLe(h.magic, 4) && s[4..5] == ToLe(h.nodeType, 1) && s[5..6] == ToLe(h.isRoot, 1)
            && s[6..8] == ToLe(h.numKeys, 2) && s[8..16] == ToLe(h.parent, 8)
            && s[16..24] == ToLe(h.rightSibling, 8) && s[24..26] == ToLe(h.freeSpace, 2)
            && s[26..28] == ToLe(h.level, 2) && s[28..32] == ToLe(h.checksum, 4) && s[32..36] == ToLe(h.flags, 4)
            && s[36..44] == ToLe(h.generation, 8) && s[44..52] == ToLe(h.reserved, 8)
            && s[52..60] == ToLe(h.nodeId, 8)
  {
    FrontLayout(h);
    BackLayout(h);
    var s, f, b := HeaderBytes(h), HeaderFront(h), HeaderBack(h);
    NextField(s, 0, f, ToLe(h.checksum, 4) + b);
    NextField(s, 28, ToLe(h.checksum, 4), b);
    InPart(s, 0, f);
    InPart(s, 32, b);
  }

  lemma InPart(s: seq<byte>, at: nat, part: seq<byte>)
    requires at + |part| <= |s| && s[at..at + |part|] == part
    ensures forall i, j :: 0 <= i <= j <= |part| ==> s[at + i..at + j] == part[i..j]
  {
    assert forall x :: 0 <= x < |part| ==> s[at..at + |part|][x] == s[at + x] == part[x];
  }

  lemma FrontLayout(h: Header)
    ensures var s := HeaderFront(h);
            && s[0..4] == ToLe(h.magic, 4) && s[4..5] == ToLe(h.nodeType, 1) && s[5..6] == ToLe(h.isRoot, 1)
            && s[6..8] == ToLe(h.numKeys, 2) && s[8..16] == ToLe(h.parent, 8)
            && s[16..24] == ToLe(h.rightSibling, 8) && s[24..26] == ToLe(h.freeSpace, 2)
            && s[26..28] == ToLe(h.level, 2)
  {
    var s := HeaderFront(h);
    var s7 := ToLe(h.freeSpace, 2) + ToLe(h.level, 2);
    var s6 := ToLe(h.rightSibling, 8) + s7;
    var s5 := ToLe(h.parent, 8) + s6;
    var s4 := ToLe(h.numKeys, 2) + s5;
    var s3 := ToLe(h.isRoot, 1) + s4;
    var s2 := ToLe(h.nodeType, 1) + s3;
    NextField(s, 0, ToLe(h.magic, 4), s2);
    NextField(s, 4, ToLe(h.nodeType, 1), s3);
    NextField(s, 5, ToLe(h.isRoot, 1), s4);
    NextField(s, 6, ToLe(h.numKeys, 2), s5);
    NextField(s, 8, ToLe(h.parent, 8), s6);
    NextField(s, 16, ToLe(h.rightSibling, 8), s7);
    NextField(s, 24, ToLe(h.freeSpace, 2), ToLe(h.level, 2));
  }

  lemma BackLayout(h: Header)
    ensures var s := HeaderBack(h);
            && s[0..4] == ToLe(h.flags, 4) && s[4..12] == ToLe(h.generation, 8)
            && s[12..20] == ToLe(h.reserved, 8) && s[20..28] == ToLe(h.nodeId, 8)
  {
    var s := HeaderBack(h);
    var s3 := ToLe(h.reserved, 8) + ToLe(h.nodeId, 8);
    var s2 := ToLe(h.generation, 8) + s3;
    NextField(s, 0, ToLe(h.flags, 4), s2);
    NextField(s, 4, ToLe(h.generation, 8), s3);
    NextField(s, 12, ToLe(h.reserved, 8), ToLe(h.nodeId, 8));
  }

  /** An entry: key length in one byte, key, value length in two, value, LSN in eight. */
  lemma EntryLayout(e: Entry)
    ensures var s, v := EntryBytes(e), 1 + |e.key|;
            && s[0..1] == ToLe(|e.key|, 1) && s[1..v] == e.key && s[v..v + 2] == ToLe(|e.value|, 2)
            && s[v + 2..v + 2 + |e.value|] == e.value && s[v + 2 + |e.value|..] == ToLe(e.lsn, 8)
  {
    var s, v := EntryBytes(e), 1 + |e.key|;
    var s4 := e.value + ToLe(e.lsn, 8);
    var s3 := ToLe(|e.value|, 2) + s4;
    NextField(s, 0, ToLe(|e.key|, 1), e.key + s3);
    NextField(s, 1, e.key, s3);
    NextField(s, v, ToLe(|e.value|, 2), s4);
    NextField(s, v + 2, e.value, ToLe(e.lsn, 8));
  }

  lemma {:induction false} EntryInList(es: seq<Entry>, i: nat)
    requires i < |es|
    ensures var at := Total(es[..i]);
            at + Size(es[i]) <= |EntriesBytes(es)| && EntriesBytes(es)[at..at + Size(es[i])] == EntryBytes(es[i])
  {
    PutManySnoc(EntryBytes, es, i);
    ManyPrefix(es, i + 1);
    EntriesLength(es[..i]);
    var s, at := EntriesBytes(es), Total(es[..i]);
    assert s[..at + Size(es[i])] == EntriesBytes(es[..i]) + EntryBytes(es[i]);
    assert s[at..at + Size(es[i])] == s[..at + Size(es[i])][at..];
  }

  lemma {:induction false} ManyPrefix(es: seq<Entry>, n: nat)
    requires n <= |es|
    ensures |PutMany(EntryBytes, es[..n])| <= |PutMany(EntryBytes, es)|
    ensures PutMany(EntryBytes, es)[..|PutMany(EntryBytes, es[..n])|] == PutMany(EntryBytes, es[..n])
    decreases |es|
  {
    if n > 0 {
      assert es[..n][0] == es[0] && es[..n][1..] == es[1..][..n - 1];
      ManyPrefix(es[1..], n - 1);
    }
  }

  /** A leaf page: the header first, every entry behind those before it from byte 60 on, and the two links in the
      last 16 bytes. */
  lemma LeafLayout(l: Leaf, i: nat)
    requires Total(l.entries) <= LEAF_AREA && i < |l.entries|
    ensures var s, at := LeafImage(l), 60 + Total(l.entries[..i]);
            && |s| == 16384 && at + Size(l.entries[i]) <= 16368
            && s[..60] == HeaderBytes(l.header) && s[at..at + Size(l.entries[i])] == EntryBytes(l.entries[i])
            && s[16368..16376] == ToLe(l.next, 8) && s[16376..] == ToLe(l.prev, 8)
  {
    var s, es := LeafImage(l), EntriesBytes(l.entries);
    var body := (es + Zeros(BODY_SIZE - Total(l.entries)))[..LEAF_AREA];
    EntryInList(l.entries, i);
    assert body[..|es|] == es;
    assert s == HeaderBytes(l.header) + (body + Links(l));
    NextField(s, 0, HeaderBytes(l.header), body + Links(l));
    NextField(s, 60, body, Links(l));
    NextField(s, 16368, ToLe(l.next, 8), ToLe(l.prev, 8));
    assert s[60..60 + |es|] == es by {
      assert s[60..60 + |es|] == s[60..][..|es|];
      assert s[60..] == body + Links(l);
    }
    InPart(s, 60, es);
  }

  // ------------------------------------------------------------------------- reading

  lemma NextLe(s: seq<byte>, at: nat, n: nat)
    requires at + n <= |s|
    ensures TakeLe(s[at..], n) == Some((FromLe(s[at..at + n]), s[at + n..]))
  {
    assert s[at..][..n] == s[at..at + n] && s[at..][n..] == s[at + n..];
  }

  /** A header is read from the first 60 bytes, every field from its offset. */
  lemma HeaderReads(s: seq<byte>)
    ensures TakeHeader(s).Some? <==> |s| >= 60
    ensures |s| >= 60 ==>
              TakeHeader(s) == Some((Header(FromLe(s[0..4]), FromLe(s[4..5]), FromLe(s[5..6]), FromLe(s[6..8]),
                                            FromLe(s[8..16]), FromLe(s[16..24]), FromLe(s[24..26]), FromLe(s[26..28]),
                                            FromLe(s[28..32]), FromLe(s[32..36]), FromLe(s[36..44]),
                                            FromLe(s[44..52]), FromLe(s[52..60])), s[60..]))
  {
    if |s| >= 60 {
      assert s[0..] == s;
      NextLe(s, 0, 4);
      NextLe(s, 4, 1);
      NextLe(s, 5, 1);
      NextLe(s, 6, 2);
      NextLe(s, 8, 8);
      NextLe(s, 16, 8);
      NextLe(s, 24, 2);
      NextLe(s, 26, 2);
      NextLe(s, 28, 4);
      NextLe(s, 32, 4);
      NextLe(s, 36, 8);
      NextLe(s, 44, 8);
      NextLe(s, 52, 8);
    } else if TakeHeader(s).Some? {
      HeaderTakes(s);
    }
  }

  /** Reading a header takes 60 bytes. */
  lemma HeaderTakes(s: seq<byte>)
    requires TakeHeader(s).Some?
    ensures |s| == 60 + |TakeHeader(s).value.1|
  {
  }

  /** What the header of a page must show: the magic number, one of four types, the root flag exactly on the root types
      and then no parent, level 0 on leaves, and nothing in the reserved field. */
  ghost predicate GoodHeader(s: seq<byte>)
    requires |s| >= 60
  {
    var kind, isRoot := s[4], s[5];
    && s[0..4] == [0x52, 0x54, 0x53, 0x4E] && 1 <= kind <= 4
    && (isRoot != 0 <==> kind >= 3) && (isRoot != 0 ==> FromLe(s[8..16]) == 0)
    && (kind % 2 == 0 ==> FromLe(s[26..28]) == 0) && FromLe(s[44..52]) == 0
  }

  lemma MagicBytes(s: seq<byte>)
    requires |s| == 4
    ensures FromLe(s) == NODE_MAGIC <==> s == [0x52, 0x54, 0x53, 0x4E]
  {
    FourBytes(s[0], s[1], s[2], s[3]);
    assert s == [s[0], s[1], s[2], s[3]];
  }

  lemma FourBytes(a: byte, b: byte, c: byte, d: byte)
    ensures FromLe([a, b, c, d]) == a as int + 256 * b as int + 65536 * c as int + 16777216 * d as int
  {
    assert [d][1..] == [] && FromLe([d]) == d;
    assert [c, d][1..] == [d] && FromLe([c, d]) == c as int + 256 * d as int;
    assert [b, c, d][1..] == [c, d] && FromLe([b, c, d]) == b as int + 256 * c as int + 65536 * d as int;
    assert [a, b, c, d][1..] == [b, c, d];
  }

  lemma OneByte(s: seq<byte>, i: nat)
    requires i < |s|
    ensures FromLe(s[i..i + 1]) == s[i]
  {
    assert s[i..i + 1][1..] == [];
  }

  /** A page is rejected for its length exactly below 60 bytes, and for its header exactly when that is not good. */
  lemma RejectedIff(s: seq<byte>)
    ensures Parse(s) == Err(TooShort) <==> |s| < 60
    ensures Parse(s) == Err(InvalidHeader) <==> |s| >= 60 && !GoodHeader(s)
  {
    HeaderReads(s);
    if |s| >= 60 {
      GoodIsValid(s, TakeHeader(s).value.0);
    }
  }

  lemma GoodIsValid(s: seq<byte>, h: Header)
    requires |s| >= 60 && h.magic == FromLe(s[0..4]) && h.nodeType == FromLe(s[4..5]) && h.isRoot == FromLe(s[5..6])
    requires h.parent == FromLe(s[8..16]) && h.level == FromLe(s[26..28]) && h.reserved == FromLe(s[44..52])
    ensures HeaderValid(h) <==> GoodHeader(s)
  {
    MagicBytes(s[0..4]);
    OneByte(s, 4);
    OneByte(s, 5);
  }

  // ---------------------------------------------------------------------- the checksum

  lemma ChecksumField(h: Header, sum: u32, body: seq<byte>)
    ensures var s, t := HeaderBytes(h) + body, HeaderBytes(h.(checksum := sum)) + body;
            && t[..28] == s[..28] && t[28..32] == ToLe(sum, 4) && t[32..] == s[32..]
  {
    var f, b := HeaderFront(h), HeaderBack(h);
    var s, t := HeaderBytes(h) + body, HeaderBytes(h.(checksum := sum)) + body;
    assert HeaderFront(h.(checksum := sum)) == f && HeaderBack(h.(checksum := sum)) == b;
    FieldAround(f, ToLe(h.checksum, 4), b, body);
    FieldAround(f, ToLe(sum, 4), b, body);
    assert t[28..32] == t[..32][28..];
  }

  /** A page is written with the checksum of all its bytes, the old checksum field among them, in bytes 28 to 31, and
      with every other byte as the node says. */
  lemma WrittenChecksum(n: Node, crc: seq<byte> -> u32)
    requires n.LeafPage? ==> Total(n.leaf.entries) <= BODY_SIZE
    requires n.Internal? ==> |n.children| == |n.seps| + 1 && |PairsBytes(n.seps, n.children)| + 8 <= BODY_SIZE
    ensures var old', page := Image(n), Image(SealedNode(n, crc));
            && |page| == |old'| == 16384
            && page[28..32] == ToLe(crc(old'), 4)
            && page[..28] == old'[..28] && page[32..] == old'[32..]
  {
    match n
    case LeafPage(l) =>
      ChecksumField(l.header, crc(LeafImage(l)), LeafBody(l));
      assert LeafBody(Sealed(l, crc)) == LeafBody(l);
    case Internal(h, seps, children) =>
      ChecksumField(h, crc(InternalImage(h, seps, children)), InternalBody(seps, children));
  }
}
