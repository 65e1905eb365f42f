/** The write-set as a commit record: a count and the mutations in key order. */
module DeltaCodec {
  import opened Bytes
  import opened Results
  import opened Sums
  import opened DeltaLayer

  const TYPE_PUT: nat := 1
  const TYPE_DELETE: nat := 2

  // -------------------------------------------------------------------- sorting keys

  function InsertKey(ks: seq<Key>, k: Key): seq<Key> {
    ks[..Rank(ks, k)] + [k] + ks[Rank(ks, k)..]
  }

  function SortKeys(ks: seq<Key>): seq<Key> {
    if ks == [] then [] else InsertKey(SortKeys(ks[1..]), ks[0])
  }

  lemma InsertKeyAscends(ks: seq<Key>, k: Key)
    requires Ascending(ks) && k !in ks
    ensures Ascending(InsertKey(ks, k)) && forall j :: j in InsertKey(ks, k) <==> j in ks || j == k
  {
    RankSplits(ks, k);
    var r, out := Rank(ks, k), InsertKey(ks, k);
    assert ks == ks[..r] + ks[r..];
    forall i, j | 0 <= i < j < |out| ensures Less(out[i], out[j]) {
      AroundKey(ks, k, r, i, j);
    }
  }

  lemma AroundKey(ks: seq<Key>, k: Key, r: nat, i: nat, j: nat)
    requires r <= |ks| && Ascending(ks) && i < j <= |ks|
    requires (forall n :: 0 <= n < r ==> Less(ks[n], k)) && (forall n :: r <= n < |ks| ==> Less(k, ks[n]))
    ensures Less((ks[..r] + [k] + ks[r..])[i], (ks[..r] + [k] + ks[r..])[j])
  {
  }

  lemma {:induction false} SortKeysAscends(ks: seq<Key>)
    requires NoRepeats(ks)
    ensures Ascending(SortKeys(ks)) && forall j :: j in SortKeys(ks) <==> j in ks
  {
    if ks != [] {
      SortKeysAscends(ks[1..]);
      assert ks == [ks[0]] + ks[1..];
      assert ks[0] !in ks[1..];
      InsertKeyAscends(SortKeys(ks[1..]), ks[0]);
    }
  }

  lemma AscendingDistinct(ks: seq<Key>)
    requires Ascending(ks)
    ensures NoRepeats(ks)
  {
    forall i, j | 0 <= i < j < |ks| ensures ks[i] != ks[j] {
      LessIrreflexive(ks[i]);
    }
  }

  /** The first of an ascending list is below all others, so two such lists with the same keys agree. */
  lemma {:induction false} AscendingUnique(a: seq<Key>, b: seq<Key>)
    requires Ascending(a) && Ascending(b) && forall k :: k in a <==> k in b
    ensures a == b
  {
    if a != [] {
      assert a[0] in b;
    }
    if b != [] {
      assert b[0] in a;
      SameFirst(a, b);
      AscendingDistinct(a);
      AscendingDistinct(b);
      assert a == [a[0]] + a[1..] && b == [b[0]] + b[1..];
      forall k ensures k in a[1..] <==> k in b[1..] {
        InTail(a, k);
        InTail(b, k);
      }
      AscendingUnique(a[1..], b[1..]);
    }
  }

  lemma InTail(a: seq<Key>, k: Key)
    requires a != [] && NoRepeats(a)
    ensures k in a[1..] <==> k in a && k != a[0]
  {
    if k in a && k != a[0] {
      var i :| 0 <= i < |a| && a[i] == k;
      assert a[1..][i - 1] == k;
    }
  }

  lemma SameFirst(a: seq<Key>, b: seq<Key>)
    requires Ascending(a) && Ascending(b) && a != [] && b != [] && forall k :: k in a <==> k in b
    ensures a[0] == b[0]
  {
    assert a[0] in a && b[0] in b;
    var i :| 0 <= i < |b| && b[i] == a[0];
    var j :| 0 <= j < |a| && a[j] == b[0];
    if i > 0 && j > 0 {
      LessTransitive(b[0], b[i], a[j]);
      LessIrreflexive(b[0]);
    }
  }

  // ------------------------------------------------------------------------- records

  function ValueOf(m: Mutation): seq<byte> {
    if m.PutMutation? then m.value else []
  }

  /** Type, key length in one byte, key, value length in four bytes, value (none for a delete). */
  function RecordBytes(m: Mutation): seq<byte> {
    ToLe(if m.PutMutation? then TYPE_PUT else TYPE_DELETE, 1)
    + (ToLe(|m.key|, 1) + (m.key + (ToLe(|ValueOf(m)|, 4) + ValueOf(m))))
  }

  function TakeRecord(s: seq<byte>): Option<(Mutation, seq<byte>)> {
    var (kind, s) :- TakeLe(s, 1);
    var (keyLen, s) :- TakeLe(s, 1);
    var (key, s) :- Take(s, keyLen);
    var (valueLen, s) :- TakeLe(s, 4);
    if kind == TYPE_PUT then
      var (value, s) :- Take(s, valueLen);
      Some((NewPut(key, value, 0), s))
    else if kind == TYPE_DELETE && valueLen == 0 then Some((NewDelete(key, 0), s))
    else None
  }

  /** A mutation as the log keeps it: without its LSN. */
  function WithoutLsn(m: Mutation): Mutation {
    m.(lsn := 0)
  }

  lemma RecordRoundTrip(m: Mutation, rest: seq<byte>)
    requires WellFormed(m.key, m)
    ensures TakeRecord(RecordBytes(WithoutLsn(m)) + rest) == Some((WithoutLsn(m), rest))
  {
    Widths();
    var kind := if m.PutMutation? then TYPE_PUT else TYPE_DELETE;
    var v := ValueOf(m);
    var s4 := v + rest;
    var s3 := ToLe(|v|, 4) + s4;
    var s2 := m.key + s3;
    var s1 := ToLe(|m.key|, 1) + s2;
    Regrouped(ToLe(kind, 1), ToLe(|m.key|, 1), m.key, ToLe(|v|, 4), v, rest);
    TakeLeBack(kind, 1, s1);
    TakeLeBack(|m.key|, 1, s2);
    TakeBack(m.key, s3);
    TakeLeBack(|v|, 4, s4);
    TakeBack(v, rest);
  }

  lemma Regrouped(a: seq<byte>, b: seq<byte>, c: seq<byte>, d: seq<byte>, e: seq<byte>, rest: seq<byte>)
    ensures (a + (b + (c + (d + e)))) + rest == a + (b + (c + (d + (e + rest))))
  {
    Assoc(a, b + (c + (d + e)), rest);
    Assoc(b, c + (d + e), rest);
    Assoc(c, d + e, rest);
    Assoc(d, e, rest);
  }

  lemma RecordExtends(s: seq<byte>, q: seq<byte>)
    requires TakeRecord(s).Some?
    ensures TakeRecord(s + q) == Some((TakeRecord(s).value.0, TakeRecord(s).value.1 + q))
  {
    TakeLeExtends(s, q, 1);
    var (kind, s1) := TakeLe(s, 1).value;
    TakeLeExtends(s1, q, 1);
    var (keyLen, s2) := TakeLe(s1, 1).value;
    TakeExtends(s2, q, keyLen);
    var (key, s3) := Take(s2, keyLen).value;
    TakeLeExtends(s3, q, 4);
    var (valueLen, s4) := TakeLe(s3, 4).value;
    if kind == TYPE_PUT {
      TakeExtends(s4, q, valueLen);
    }
  }

  // ---------------------------------------------------------------------- the layer

  /** The mutations of the listed keys, as the log keeps them. */
  function Records(ks: seq<Key>, m: map<Key, Mutation>): (rs: seq<Mutation>)
    requires forall k :: k in ks ==> k in m
    ensures |rs| == |ks|
  {
    seq(|ks|, i requires 0 <= i < |ks| => assert ks[i] in ks; WithoutLsn(m[ks[i]]))
  }

  /** `serialize`, from the keys in the order the hash map happens to list them. */
  ghost function Serialize(m: map<Key, Mutation>, order: seq<Key>): seq<byte>
    requires Enumerates(order, m)
  {
    SortKeysAscends(order);
    ToLe(|m|, 4) + PutMany(RecordBytes, Records(SortKeys(order), m))
  }

  /** The bytes of a write-set: its count in four bytes, then the records in ascending order of the keys, whatever
      way they are listed in. */
  lemma SerializedInKeyOrder(m: map<Key, Mutation>, order: seq<Key>, ks: seq<Key>)
    requires Enumerates(order, m) && Ascending(ks) && forall k :: k in ks <==> k in m
    ensures Serialize(m, order) == ToLe(|m|, 4) + PutMany(RecordBytes, Records(ks, m))
  {
    SortKeysAscends(order);
    AscendingUnique(SortKeys(order), ks);
  }

  /** A record: type 1 or 2, key length in one byte, key, value length in four bytes, value. */
  lemma RecordLayout(m: Mutation)
    ensures var s, v, n := RecordBytes(m), if m.PutMutation? then m.value else [], 2 + |m.key|;
            && |s| == 6 + |m.key| + |v|
            && s[0] == (if m.PutMutation? then 1 else 2) && s[1] == |m.key| % 256
            && s[2..n] == m.key && s[n..n + 4] == ToLe(|v|, 4) && s[n + 4..] == v
  {
    var s, v := RecordBytes(m), ValueOf(m);
    var kind, len := ToLe(if m.PutMutation? then TYPE_PUT else TYPE_DELETE, 1), ToLe(|m.key|, 1);
    FieldsApart(s, kind, len, m.key, ToLe(|v|, 4), v);
  }

  lemma FieldsApart(s: seq<byte>, a: seq<byte>, b: seq<byte>, c: seq<byte>, d: seq<byte>, e: seq<byte>)
    requires s == a + (b + (c + (d + e))) && |a| == |b| == 1
    ensures |s| == 2 + |c| + |d| + |e| && s[0] == a[0] && s[1] == b[0]
    ensures s[2..2 + |c|] == c && s[2 + |c|..2 + |c| + |d|] == d && s[2 + |c| + |d|..] == e
  {
  }

  /** One record read into the layer. */
  function Load1(d: Delta, m: Mutation): Delta {
    Delta(d.mutations[m.key := m], d.size + m.size, d.operationCount + 1)
  }

  function Load(d: Delta, ms: seq<Mutation>): Delta
    decreases |ms|
  {
    if ms == [] then d else Load(Load1(d, ms[0]), ms[1..])
  }

  /** `deserialize`: nothing when the data is incomplete or holds an invalid record. */
  function Deserialize(s: seq<byte>): Option<Delta> {
    var (n, s) :- TakeLe(s, 4);
    var (ms, _) :- TakeMany(TakeRecord, s, n);
    Some(Load(EMPTY, ms))
  }

  function Reset(d: Delta): Delta {
    d.(mutations := map k | k in d.mutations :: WithoutLsn(d.mutations[k]))
  }

  /** Loading records of distinct keys adds them all and counts each once. */
  lemma {:induction false} LoadListed(d: Delta, ks: seq<Key>, m: map<Key, Mutation>)
    requires (forall k :: k in ks ==> k in m) && (forall k :: k in m ==> m[k].key == k)
    ensures var r := Load(d, Records(ks, m));
            && (forall k :: k in r.mutations <==> k in d.mutations || k in ks)
            && (forall k :: k in ks ==> r.mutations[k] == WithoutLsn(m[k]))
            && (forall k :: k in d.mutations && k !in ks ==> r.mutations[k] == d.mutations[k])
            && r.size == d.size + SumSeq(ks, SizeAt(m))
            && r.operationCount == d.operationCount + |ks|
    decreases |ks|
  {
    if ks != [] {
      var k := ks[0];
      assert k in ks;
      assert Records(ks, m)[1..] == Records(ks[1..], m);
      assert ks == [k] + ks[1..];
      LoadListed(Load1(d, Records(ks, m)[0]), ks[1..], m);
    }
  }

  lemma RecordsBack(ks: seq<Key>, m: map<Key, Mutation>, rest: seq<byte>)
    requires (forall k :: k in ks ==> k in m) && (forall k :: k in m ==> WellFormed(k, m[k]))
    ensures TakeMany(TakeRecord, PutMany(RecordBytes, Records(ks, m)) + rest, |ks|) == Some((Records(ks, m), rest))
  {
    var rs := Records(ks, m);
    forall x, r | x in rs ensures TakeRecord(RecordBytes(x) + r) == Some((x, r)) {
      var i :| 0 <= i < |rs| && rs[i] == x;
      assert ks[i] in ks;
      RecordRoundTrip(m[ks[i]], r);
    }
    ManyRoundTrip(TakeRecord, RecordBytes, rs, rest);
  }

  lemma LoadIsReset(d: Delta, ks: seq<Key>)
    requires Accounted(d) && NoRepeats(ks) && forall k :: k in ks <==> k in d.mutations
    ensures Load(EMPTY, Records(ks, d.mutations)) == Reset(d) && |ks| == |d.mutations|
  {
    LoadListed(EMPTY, ks, d.mutations);
    SumListed(ks, d.mutations.Keys, SizeAt(d.mutations));
    assert Load(EMPTY, Records(ks, d.mutations)).mutations == Reset(d).mutations;
  }

  /** Every accounted write-set is read back from its bytes with nothing lost but the LSNs: the same keys,
      values and deletions, the same size and the same operation count. */
  lemma DeltaRoundTrip(d: Delta, order: seq<Key>)
    requires Accounted(d) && Enumerates(order, d.mutations)
    ensures Deserialize(Serialize(d.mutations, order)) == Some(Reset(d))
  {
    var ks := SortKeys(order);
    SortKeysAscends(order);
    AscendingDistinct(ks);
    LoadIsReset(d, ks);
    Widths();
    var body := PutMany(RecordBytes, Records(ks, d.mutations));
    TakeLeBack(|d.mutations|, 4, body);
    RecordsBack(ks, d.mutations, []);
    assert body + [] == body;
  }

  /** Two write-sets with the same effect per key. */
  ghost predicate SameContents(a: map<Key, Mutation>, b: map<Key, Mutation>) {
    a.Keys == b.Keys && forall k :: k in a ==> WithoutLsn(a[k]) == WithoutLsn(b[k])
  }

  /** The bytes depend on the contents alone: not on LSNs, not on how the hash map lists its keys, not on
      the order in which the operations came. */
  lemma SerializeIsCanonical(a: map<Key, Mutation>, orderA: seq<Key>, b: map<Key, Mutation>, orderB: seq<Key>)
    requires Enumerates(orderA, a) && Enumerates(orderB, b) && SameContents(a, b)
    ensures Serialize(a, orderA) == Serialize(b, orderB)
  {
    SortKeysAscends(orderA);
    SortKeysAscends(orderB);
    AscendingUnique(SortKeys(orderA), SortKeys(orderB));
    assert |a.Keys| == |b.Keys|;
    SameRecords(SortKeys(orderA), a, b);
  }

  lemma SameRecords(ks: seq<Key>, a: map<Key, Mutation>, b: map<Key, Mutation>)
    requires (forall k :: k in ks ==> k in a) && SameContents(a, b)
    ensures Records(ks, a) == Records(ks, b)
  {
    forall i | 0 <= i < |ks| ensures Records(ks, a)[i] == Records(ks, b)[i] {
      assert ks[i] in ks;
    }
  }

  /** No truncated record is accepted. */
  lemma StrictPrefixRejected(d: Delta, order: seq<Key>, n: nat)
    requires Accounted(d) && Enumerates(order, d.mutations) && n < |Serialize(d.mutations, order)|
    ensures Deserialize(Serialize(d.mutations, order)[..n]) == None
  {
    SortKeysAscends(order);
    SortedCount(d, order);
    CutListRejected(SortKeys(order), d.mutations, n);
  }

  lemma SortedCount(d: Delta, order: seq<Key>)
    requires Accounted(d) && Enumerates(order, d.mutations)
    ensures |SortKeys(order)| == |d.mutations| <= MAX_OPERATIONS
  {
    SortKeysAscends(order);
    AscendingDistinct(SortKeys(order));
    LoadIsReset(d, SortKeys(order));
  }

  lemma CutListRejected(ks: seq<Key>, m: map<Key, Mutation>, n: nat)
    requires (forall k :: k in ks ==> k in m) && (forall k :: k in m ==> WellFormed(k, m[k])) && |ks| < U32
    requires n < 4 + |PutMany(RecordBytes, Records(ks, m))|
    ensures Deserialize((ToLe(|ks|, 4) + PutMany(RecordBytes, Records(ks, m)))[..n]) == None
  {
    if n >= 4 {
      ShortBodyRejected(ks, m, n - 4);
    }
    CutRejected(|ks|, PutMany(RecordBytes, Records(ks, m)), n);
  }

  /** A count cut short is not read; behind a whole count the records decide. */
  lemma CutRejected(count: nat, body: seq<byte>, n: nat)
    requires count < U32 && n < 4 + |body|
    requires n >= 4 ==> TakeMany(TakeRecord, body[..n - 4], count) == None
    ensures Deserialize((ToLe(count, 4) + body)[..n]) == None
  {
    if n >= 4 {
      assert (ToLe(count, 4) + body)[..n] == ToLe(count, 4) + body[..n - 4];
      Widths();
      TakeLeBack(count, 4, body[..n - 4]);
    }
  }

  lemma RecordsExtend()
    ensures Extends(TakeRecord)
  {
    forall s, t | TakeRecord(s).Some?
      ensures TakeRecord(s + t) == Some((TakeRecord(s).value.0, TakeRecord(s).value.1 + t))
    {
      RecordExtends(s, t);
    }
  }

  lemma ShortBodyRejected(ks: seq<Key>, m: map<Key, Mutation>, n: nat)
    requires (forall k :: k in ks ==> k in m) && (forall k :: k in m ==> WellFormed(k, m[k]))
    requires n < |PutMany(RecordBytes, Records(ks, m))|
    ensures TakeMany(TakeRecord, PutMany(RecordBytes, Records(ks, m))[..n], |ks|) == None
  {
    var body := PutMany(RecordBytes, Records(ks, m));
    assert body[..n] + body[n..] == body && body + [] == body;
    RecordsBack(ks, m, []);
    RecordsExtend();
    PrefixFails(TakeRecord, body[..n], body[n..], |ks|);
  }

  /** What is read to the very end of the input is not read from a strict prefix of it. */
  lemma PrefixFails<T(!new)>(take: Reader<T>, p: seq<byte>, q: seq<byte>, n: nat)
    requires Extends(take) && q != []
    requires TakeMany(take, p + q, n).Some? && TakeMany(take, p + q, n).value.1 == []
    ensures TakeMany(take, p, n) == None
  {
    if TakeMany(take, p, n).Some? {
      ManyExtends(take, p, q, n);
    }
  }

  // ----------------------------------------------------------------- the two loops

  /** Append one mutation to the buffer, field by field. */
  method WriteRecord(buffer: seq<byte>, m: Mutation) returns (out: seq<byte>)
    ensures out == buffer + RecordBytes(WithoutLsn(m))
  {
    match m {
      case PutMutation(key, value, _, _) =>
        out := buffer + ToLe(TYPE_PUT, 1);
        out := out + ToLe(|key|, 1);
        out := out + key;
        out := out + ToLe(|value|, 4);
        out := out + value;
      case DeleteMutation(key, _, _) =>
        out := buffer + ToLe(TYPE_DELETE, 1);
        out := out + ToLe(|key|, 1);
        out := out + key;
        out := out + ToLe(0, 4);
    }
  }

  /** The writing loop over the sorted mutations. */
  method SerializeLayer(m: map<Key, Mutation>, order: seq<Key>) returns (buffer: seq<byte>)
    requires Enumerates(order, m)
    ensures buffer == Serialize(m, order)
  {
    buffer := ToLe(|m|, 4);
    var sorted := SortKeys(order);
    SortKeysAscends(order);
    ghost var rs := Records(sorted, m);
    var i := 0;
    assert rs[..0] == [];
    while i < |sorted|
      invariant 0 <= i <= |sorted|
      invariant buffer == ToLe(|m|, 4) + PutMany(RecordBytes, rs[..i])
    {
      var k := sorted[i];
      assert k in sorted;
      OneMore(rs, i, ToLe(|m|, 4));
      buffer := WriteRecord(buffer, m[k]);
      i := i + 1;
    }
    assert rs[..i] == rs;
  }

  lemma OneMore(rs: seq<Mutation>, i: nat, head: seq<byte>)
    requires i < |rs|
    ensures head + PutMany(RecordBytes, rs[..i + 1]) == (head + PutMany(RecordBytes, rs[..i])) + RecordBytes(rs[i])
  {
    PutManySnoc(RecordBytes, rs, i);
  }

  /** The reading loop over a cursor, updating the map and both counters record by record. */
  method DeserializeLayer(data: seq<byte>) returns (r: Option<Delta>)
    ensures r == Deserialize(data)
  {
    var head := TakeLe(data, 4);
    if head.None? {
      return None;
    }
    var (n, cursor) := head.value;
    var d := EMPTY;
    var i: nat := 0;
    ghost var start := cursor;
    while i < n
      invariant i <= n
      invariant Loaded(EMPTY, TakeMany(TakeRecord, start, n)) == Loaded(d, TakeMany(TakeRecord, cursor, n - i))
    {
      LoadedUnfold(d, cursor, n - i);
      var next := TakeRecord(cursor);
      if next.None? {
        return None;
      }
      d := Load1(d, next.value.0);
      cursor := next.value.1;
      i := i + 1;
    }
    return Some(d);
  }

  ghost function Loaded(d: Delta, r: Option<(seq<Mutation>, seq<byte>)>): Option<Delta> {
    match r
    case None => None
    case Some((ms, _)) => Some(Load(d, ms))
  }

  lemma LoadedUnfold(d: Delta, s: seq<byte>, n: nat)
    requires n > 0
    ensures TakeRecord(s).None? ==> Loaded(d, TakeMany(TakeRecord, s, n)) == None
    ensures TakeRecord(s).Some? ==> Loaded(d, TakeMany(TakeRecord, s, n))
                                    == Loaded(Load1(d, TakeRecord(s).value.0),
                                              TakeMany(TakeRecord, TakeRecord(s).value.1, n - 1))
  {
    LoadedUnfoldAny(d, TakeRecord, s, n);
  }

  lemma LoadedUnfoldAny(d: Delta, take: Reader<Mutation>, s: seq<byte>, n: nat)
    requires n > 0
    ensures take(s).None? ==> Loaded(d, TakeMany(take, s, n)) == None
    ensures take(s).Some? ==> Loaded(d, TakeMany(take, s, n))
                              == Loaded(Load1(d, take(s).value.0), TakeMany(take, take(s).value.1, n - 1))
  {
    if take(s).Some? && TakeMany(take, take(s).value.1, n - 1).Some? {
      var (ms, _) := TakeMany(take, take(s).value.1, n - 1).value;
      assert ([take(s).value.0] + ms)[1..] == ms;
    }
  }
}
