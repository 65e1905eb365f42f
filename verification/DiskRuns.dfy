/** The tree on disk: every put reads pages as bytes, parses them, changes nodes and writes them back sealed.
    Such runs do what the runs on nodes do. */
module DiskRuns {
  import opened Bytes
  import opened Results
  import opened Entries
  import opened LeafNodes
  import opened LeafOps
  import opened SearchTree
  import opened TreeUpdate
  import opened TreePut
  import opened PutRuns
  import opened PageCodec
  import opened TreePages

  // ------------------------------------------------------- nodes without their checksum

  function BlindLeaf(l: Leaf): Leaf {
    l.(header := l.header.(checksum := 0))
  }

  function Blind(n: Node): Node {
    match n
    case LeafPage(l) => LeafPage(BlindLeaf(l))
    case Internal(h, seps, children) => Internal(h.(checksum := 0), seps, children)
  }

  function BlindState(s: State): State {
    s.(pages := map p | p in s.pages :: Blind(s.pages[p]))
  }

  function BlindOutcome(o: InsertOutcome): InsertOutcome {
    match o
    case Done(l) => Done(BlindLeaf(l))
    case Split(l, r, sep) => Split(BlindLeaf(l), BlindLeaf(r), sep)
    case Failed(took, orphan) => Failed(took, if orphan.Some? then Some(BlindLeaf(orphan.value)) else None)
  }

  // ----------------------------------------------------- no operation looks at a checksum

  lemma BlindInsert(l: Leaf, e: Entry)
    ensures Insert(BlindLeaf(l), e) == BlindLeaf(Insert(l, e))
  {
  }

  lemma {:induction false} InsertAllChecksum(l: Leaf, es: seq<Entry>)
    ensures InsertAll(l, es).Some? ==> InsertAll(l, es).value.header.checksum == l.header.checksum
    decreases |es|
  {
    if es != [] && HasSpace(l.header, Size(es[0])) {
      InsertAllChecksum(Insert(l, es[0]), es[1..]);
    }
  }

  lemma BlindSplit(l: Leaf, page: nat)
    ensures SplitOutcome(BlindLeaf(l), page) == BlindOutcome(SplitOutcome(l, page))
  {
    InsertAllChecksum(NewLeaf(page), l.entries[|l.entries| / 2..]);
    var r := SplitRight(l, page);
    assert SplitRight(BlindLeaf(l), page) == r;
    assert r.Some? ==> BlindLeaf(r.value) == r.value;
    assert SplitLeft(BlindLeaf(l)) == BlindLeaf(SplitLeft(l));
  }

  lemma BlindInsertOrSplit(l: Leaf, e: Entry, page: nat)
    ensures InsertOrSplit(BlindLeaf(l), e, page) == BlindOutcome(InsertOrSplit(l, e, page))
  {
    BlindInsert(l, e);
    if HasSpace(l.header, Size(e)) {
      BlindSplit(Insert(l, e), page);
    } else {
      BlindSplit(l, page);
      var o := SplitOutcome(l, page);
      if o.Split? {
        BlindInsert(o.leaf, e);
      }
    }
  }

  lemma BlindWrite(s: State, p: nat, l: Leaf)
    ensures Write(BlindState(s), p, BlindLeaf(l)) == BlindState(Write(s, p, l))
    ensures Allocate(BlindState(s)) == BlindState(Allocate(s))
  {
    assert Write(BlindState(s), p, BlindLeaf(l)).pages == BlindState(Write(s, p, l)).pages;
  }

  lemma BlindGrow(s: State, sep: Key, right: nat)
    requires s.root in s.pages
    ensures Grow(BlindState(s), sep, right) == BlindState(Grow(s, sep, right))
  {
    assert Demoted(Blind(s.pages[s.root]), s.nextPage) == Blind(Demoted(s.pages[s.root], s.nextPage));
    assert Grow(BlindState(s), sep, right).pages == BlindState(Grow(s, sep, right)).pages;
  }

  lemma BlindPutAt(s: State, p: nat, e: Entry)
    requires p in s.pages && s.pages[p].LeafPage? && s.root in s.pages
    ensures PutAt(BlindState(s), p, e) == (BlindState(PutAt(s, p, e).0), PutAt(s, p, e).1)
  {
    var l := s.pages[p].leaf;
    BlindInsert(l, e);
    BlindInsertOrSplit(l, e, s.nextPage);
    if FirstEntry(s, p, l) {
      BlindWrite(s, p, Insert(l, e));
    } else {
      match InsertOrSplit(l, e, s.nextPage)
      case Done(l') => BlindWrite(s, p, l');
      case Split(l', r, sep) => BlindSplitState(s, p, l', r, sep);
      case Failed(_, orphan) =>
        if orphan.Some? {
          BlindWrite(Allocate(s), s.nextPage, orphan.value);
        }
        BlindWrite(s, p, l);
    }
  }

  lemma BlindSplitState(s: State, p: nat, l: Leaf, r: Leaf, sep: Key)
    requires s.root in s.pages
    ensures SplitState(BlindState(s), p, BlindLeaf(l), BlindLeaf(r), sep) == BlindState(SplitState(s, p, l, r, sep))
  {
    BlindWrite(s, p, l);
    BlindWrite(Allocate(s), s.nextPage, r);
    var s1 := Write(Allocate(s), s.nextPage, r);
    BlindWrite(s1, p, l);
    BlindGrow(Write(s1, p, l), sep, s.nextPage);
  }

  // -------------------------------------------------------------- the same tree

  lemma SameBlind(a: State, b: State, p: nat)
    requires BlindState(a) == BlindState(b) && p in a.pages
    ensures p in b.pages && Blind(a.pages[p]) == Blind(b.pages[p])
  {
    assert BlindState(a).pages[p] == BlindState(b).pages[p];
  }

  lemma BlindAlike(a: State, b: State, t: Shape)
    requires BlindState(a) == BlindState(b) && Shaped(a.pages, t)
    ensures AlikeOn(a.pages, b.pages, t)
  {
    forall q | Uses(t, q) ensures q in a.pages && q in b.pages && Alike(a.pages[q], b.pages[q]) {
      UsedPagesExist(a.pages, t, q);
      SameBlind(a, b, q);
    }
  }

  /** States that differ in checksums only hold the same tree, and searches find the same. */
  lemma BlindTree(a: State, b: State, t: Shape, k: Key)
    requires BlindState(a) == BlindState(b) && Placed(a, t)
    ensures Placed(b, t) && Target(b.pages, t, k) == Target(a.pages, t, k)
                && Found(b.pages, t, k) == Found(a.pages, t, k)
  {
    BlindAlike(a, b, t);
    SameTree(a.pages, b.pages, t);
    forall q | q in b.pages ensures q in a.pages && (b.pages[q].LeafPage? ==> Valid(b.pages[q].leaf)) {
      SameBlind(b, a, q);
    }
    TargetIsPage(a.pages, t, k);
    SameBlind(a, b, Target(a.pages, t, k));
  }

  /** A put on either gives states that differ in checksums only, the same shape and the same report. */
  lemma BlindPut(a: State, b: State, t: Shape, e: Entry)
    requires BlindState(a) == BlindState(b) && Placed(a, t) && Placed(b, t)
    ensures BlindState(PutState(a, t, e).0) == BlindState(PutState(b, t, e).0)
    ensures PutState(a, t, e).1 == PutState(b, t, e).1 && PutShape(a, t, e) == PutShape(b, t, e)
  {
    BlindTree(a, b, t, e.key);
    TargetIsPage(a.pages, t, e.key);
    SamePutAt(a, b, Target(a.pages, t, e.key), e);
    SamePutSplits(a, b, t, e);
  }

  lemma SamePutSplits(a: State, b: State, t: Shape, e: Entry)
    requires BlindState(a) == BlindState(b) && Placed(a, t) && Placed(b, t)
    requires Target(a.pages, t, e.key) == Target(b.pages, t, e.key)
    ensures PutSplits(a, t, e) == PutSplits(b, t, e)
  {
    var p := Target(a.pages, t, e.key);
    TargetIsPage(a.pages, t, e.key);
    TargetIsPage(b.pages, t, e.key);
    SameFields(a, b);
    SameBlind(a, b, p);
    BlindSplits(a.pages[p].leaf, b.pages[p].leaf, e);
  }

  lemma SamePutAt(a: State, b: State, p: nat, e: Entry)
    requires BlindState(a) == BlindState(b) && p in a.pages && a.pages[p].LeafPage? && a.root in a.pages
    ensures p in b.pages && b.pages[p].LeafPage? && b.root in b.pages
    ensures BlindState(PutAt(a, p, e).0) == BlindState(PutAt(b, p, e).0) && PutAt(a, p, e).1 == PutAt(b, p, e).1
    ensures a.root == b.root && a.nextPage == b.nextPage
  {
    SameFields(a, b);
    SameBlind(a, b, p);
    SameBlind(a, b, a.root);
    BlindPutAt(a, p, e);
    BlindPutAt(b, p, e);
  }

  lemma SameFields(a: State, b: State)
    requires BlindState(a) == BlindState(b)
    ensures a.root == b.root && a.nextPage == b.nextPage
  {
    assert BlindState(a).root == BlindState(b).root && BlindState(a).nextPage == BlindState(b).nextPage;
  }

  lemma BlindSplits(a: Leaf, b: Leaf, e: Entry)
    requires BlindLeaf(a) == BlindLeaf(b)
    ensures Splits(a, e) == Splits(b, e) && a.entries == b.entries
  {
    assert a.entries == BlindLeaf(a).entries && b.entries == BlindLeaf(b).entries;
    BlindInsert(a, e);
    BlindInsert(b, e);
    assert BlindLeaf(Insert(a, e)).header.freeSpace == BlindLeaf(Insert(b, e)).header.freeSpace;
    assert BlindLeaf(a).header.freeSpace == BlindLeaf(b).header.freeSpace;
  }

  // ------------------------------------------------------------------------- the disk

  type WritePage = Node -> seq<byte>

  type ReadPage = seq<byte> -> Result<Node, PageError>

  /** A node that puts leave on the heap. */
  ghost predicate Writable(n: Node) {
    NodeReady(n) && HeaderOf(n).isRoot == 0 && (n.LeafPage? ==> Valid(n.leaf))
  }

  ghost predicate Kept(r: Result<Node, PageError>, n: Node) {
    r.Ok? && Blind(r.value) == Blind(n) && Writable(r.value)
  }

  /** What is written is read back as it was but for the checksum. */
  ghost predicate Faithful(write: WritePage, read: ReadPage) {
    forall n {:trigger write(n)} :: Writable(n) ==> Kept(read(write(n)), n)
  }

  type Disk = map<nat, seq<byte>>

  datatype DiskState = DiskState(disk: Disk, root: nat, height: nat, internalCount: nat, nextPage: nat)

  ghost predicate Readable(read: ReadPage, d: Disk) {
    forall p :: p in d ==> read(d[p]).Ok?
  }

  /** All pages parsed. */
  ghost function Decoded(read: ReadPage, x: DiskState): State
    requires Readable(read, x.disk)
  {
    State(map p | p in x.disk :: read(x.disk[p]).value, x.root, x.height, x.internalCount, x.nextPage)
  }

  ghost predicate DiskOk(read: ReadPage, x: DiskState, t: Shape) {
    Readable(read, x.disk) && Placed(Decoded(read, x), t) && AllWritable(Decoded(read, x).pages)
  }

  ghost predicate AllWritable(h: Heap) {
    forall p :: p in h ==> Writable(h[p])
  }

  lemma WritableReady(s: State, t: Shape)
    requires Placed(s, t)
    ensures AllWritable(s.pages) <==> PagesReady(s)
  {
  }

  /** The state after a put, written back: a page keeps its bytes if its node is what it was, and is written
      anew otherwise. */
  ghost function WrittenBack(write: WritePage, read: ReadPage, x: DiskState, s: State): DiskState {
    DiskState(map p | p in s.pages :: if p in x.disk
        && read(x.disk[p]) == Ok(s.pages[p]) then x.disk[p] else write(s.pages[p]),
              s.root, s.height, s.internalCount, s.nextPage)
  }

  lemma BlindMaps(a: Heap, b: Heap)
    requires a.Keys == b.Keys && forall p :: p in a ==> Blind(a[p]) == Blind(b[p])
    ensures (map p | p in a :: Blind(a[p])) == (map p | p in b :: Blind(b[p]))
  {
  }

  /** Writing back and parsing again loses nothing but checksums. */
  lemma WrittenBackOk(write: WritePage, read: ReadPage, x: DiskState, s: State, t: Shape)
    requires Faithful(write, read) && Placed(s, t) && AllWritable(s.pages)
    ensures var y := WrittenBack(write, read, x, s); DiskOk(read, y, t) && BlindState(Decoded(read, y)) == BlindState(s)
  {
    var y := WrittenBack(write, read, x, s);
    forall p | p in s.pages ensures Kept(read(y.disk[p]), s.pages[p]) {
      assert Writable(s.pages[p]);
      assert Kept(read(write(s.pages[p])), s.pages[p]);
    }
    AllKept(read, y, s);
    BlindTree(s, Decoded(read, y), t, []);
  }

  lemma AllKept(read: ReadPage, y: DiskState, s: State)
    requires y.disk.Keys == s.pages.Keys && forall p :: p in s.pages ==> Kept(read(y.disk[p]), s.pages[p])
    requires y.root == s.root && y.height == s.height && y.internalCount == s.internalCount && y.nextPage == s.nextPage
    ensures Readable(read, y.disk) && AllWritable(Decoded(read, y).pages)
                && BlindState(Decoded(read, y)) == BlindState(s)
  {
    forall p | p in y.disk ensures read(y.disk[p]).Ok? {
      assert Kept(read(y.disk[p]), s.pages[p]);
    }
    var g := Decoded(read, y).pages;
    forall p | p in g ensures Writable(g[p]) && Blind(g[p]) == Blind(s.pages[p]) {
      assert Kept(read(y.disk[p]), s.pages[p]);
    }
    BlindMaps(g, s.pages);
  }

  // ------------------------------------------------------------------------------ runs

  ghost predicate Fits(e: Entry) {
    |e.key| <= 255 && e.lsn < U64
  }

  /** One put on disk: parse, put, write back. */
  ghost function DiskPut(write: WritePage, read: ReadPage, x: DiskState, t: Shape, e: Entry): (DiskState, Shape, bool)
    requires DiskOk(read, x, t)
  {
    var s := Decoded(read, x);
    (WrittenBack(write, read, x, PutState(s, t, e).0), PutShape(s, t, e), PutState(s, t, e).1)
  }

  lemma DiskPutOk(write: WritePage, read: ReadPage, x: DiskState, t: Shape, e: Entry)
    requires Faithful(write, read) && DiskOk(read, x, t) && Fits(e) && Within(PutState(Decoded(read, x), t, e).0)
    ensures var (y, u, _) := DiskPut(write, read, x, t, e);
            && DiskOk(read, y, u)
            && BlindState(Decoded(read, y)) == BlindState(PutState(Decoded(read, x), t, e).0)
  {
    var s := Decoded(read, x);
    WritableReady(s, t);
    PutKeepsPlaced(s, t, e);
    PutKeepsPagesReady(s, t, e);
    WritableReady(PutState(s, t, e).0, PutShape(s, t, e));
    WrittenBackOk(write, read, x, PutState(s, t, e).0, PutShape(s, t, e));
  }

  ghost predicate AllFit(es: seq<Entry>) {
    forall i :: 0 <= i < |es| ==> Fits(es[i])
  }

  /** Runs on states that differ in checksums only end so, with the same shape. */
  lemma {:induction false} BlindRun(a: State, b: State, t: Shape, es: seq<Entry>)
    requires BlindState(a) == BlindState(b) && Placed(a, t) && Placed(b, t)
    ensures BlindState(RunPuts(a, t, es).0) == BlindState(RunPuts(b, t, es).0)
    ensures RunPuts(a, t, es).1 == RunPuts(b, t, es).1
    decreases |es|
  {
    if es != [] {
      PutKeepsPlaced(a, t, es[0]);
      PutKeepsPlaced(b, t, es[0]);
      BlindPut(a, b, t, es[0]);
      BlindRun(PutState(a, t, es[0]).0, PutState(b, t, es[0]).0, PutShape(a, t, es[0]), es[1..]);
    }
  }

  lemma SameWithin(a: State, b: State)
    requires BlindState(a) == BlindState(b)
    ensures Within(a) <==> Within(b)
  {
    assert BlindState(a).nextPage == BlindState(b).nextPage && BlindState(a).height == BlindState(b).height;
  }

  /** One put of a run: all is well after it, and the rest of the run is the rest of the run on nodes. */
  lemma DiskPutFirst(write: WritePage, read: ReadPage, x: DiskState, t: Shape, es: seq<Entry>)
    requires Faithful(write, read) && DiskOk(read, x, t) && AllFit(es) && es != []
    requires Within(RunPuts(Decoded(read, x), t, es).0)
    ensures var (y, u, _) := DiskPut(write, read, x, t, es[0]);
            && DiskOk(read, y, u) && Within(RunPuts(Decoded(read, y), u, es[1..]).0)
            && BlindState(Decoded(read, y)) == BlindState(PutState(Decoded(read, x), t, es[0]).0)
  {
    var s := Decoded(read, x);
    var s1, u := PutState(s, t, es[0]).0, PutShape(s, t, es[0]);
    PutKeepsPlaced(s, t, es[0]);
    RunGrows(s1, u, es[1..]);
    DiskPutOk(write, read, x, t, es[0]);
    var y := DiskPut(write, read, x, t, es[0]).0;
    BlindRun(Decoded(read, y), s1, u, es[1..]);
    SameWithin(RunPuts(Decoded(read, y), u, es[1..]).0, RunPuts(s1, u, es[1..]).0);
  }

  /** A run on disk, as long as pages and levels fit their fields. */
  ghost function DiskRun(write: WritePage, read: ReadPage, x: DiskState, t: Shape, es: seq<Entry>): (DiskState, Shape)
    requires Faithful(write, read) && DiskOk(read, x, t) && AllFit(es) && Within(RunPuts(Decoded(read, x), t, es).0)
    decreases |es|
  {
    if es == [] then (x, t)
    else
      DiskPutFirst(write, read, x, t, es);
      var (y, u, _) := DiskPut(write, read, x, t, es[0]);
      DiskRun(write, read, y, u, es[1..])
  }

  lemma {:induction false} DiskRunTracks(write: WritePage, read: ReadPage, x: DiskState, s: State, t: Shape,
                                         es: seq<Entry>)
    requires Faithful(write, read) && DiskOk(read, x, t) && AllFit(es) && Within(RunPuts(Decoded(read, x), t, es).0)
    requires Placed(s, t) && BlindState(Decoded(read, x)) == BlindState(s)
    ensures var (y, u) := DiskRun(write, read, x, t, es);
            var (z, v) := RunPuts(s, t, es);
            DiskOk(read, y, u) && u == v && BlindState(Decoded(read, y)) == BlindState(z)
    decreases |es|
  {
    if es != [] {
      DiskPutFirst(write, read, x, t, es);
      DiskPutTracks(write, read, x, s, t, es);
      var (y, u, _) := DiskPut(write, read, x, t, es[0]);
      DiskRunTracks(write, read, y, PutState(s, t, es[0]).0, u, es[1..]);
    }
  }

  lemma DiskPutTracks(write: WritePage, read: ReadPage, x: DiskState, s: State, t: Shape, es: seq<Entry>)
    requires Faithful(write, read) && DiskOk(read, x, t) && AllFit(es) && es != []
    requires Within(RunPuts(Decoded(read, x), t, es).0) && Placed(s, t) && BlindState(Decoded(read, x)) == BlindState(s)
    ensures var (y, u, _) := DiskPut(write, read, x, t, es[0]);
            && DiskOk(read, y, u) && u == PutShape(s, t, es[0]) && Placed(PutState(s, t, es[0]).0, u)
            && BlindState(Decoded(read, y)) == BlindState(PutState(s, t, es[0]).0)
  {
    DiskPutFirst(write, read, x, t, es);
    PutKeepsPlaced(s, t, es[0]);
    BlindPut(Decoded(read, x), s, t, es[0]);
  }

  /** Over every run of puts, the tree on disk, parsed, is the tree on nodes but for checksums; it has the same
      shape, and every search finds the same. */
  lemma DiskRunSimulates(write: WritePage, read: ReadPage, x: DiskState, s: State, t: Shape, es: seq<Entry>, k: Key)
    requires Faithful(write, read) && DiskOk(read, x, t) && AllFit(es) && Within(RunPuts(Decoded(read, x), t, es).0)
    requires Placed(s, t) && BlindState(Decoded(read, x)) == BlindState(s)
    ensures var (y, u) := DiskRun(write, read, x, t, es);
            var (z, v) := RunPuts(s, t, es);
            && DiskOk(read, y, u) && u == v && Placed(z, v) && BlindState(Decoded(read, y)) == BlindState(z)
            && Found(Decoded(read, y).pages, u, k) == Found(z.pages, v, k)
  {
    DiskRunTracks(write, read, x, s, t, es);
    var (y, u) := DiskRun(write, read, x, t, es);
    BlindTree(Decoded(read, y), RunPuts(s, t, es).0, u, k);
  }

  // ----------------------------------------------------------------- the page format

  /** `to_bytes`: the sealed image. */
  ghost function ToPage(crc: seq<byte> -> u32): WritePage {
    n => if ImageFits(n) then Image(SealedNode(n, crc)) else []
  }

  ghost predicate ImageFits(n: Node) {
    && (n.LeafPage? ==> Total(n.leaf.entries) <= BODY_SIZE)
    && (n.Internal? ==> |n.children| == |n.seps| + 1 && |PairsBytes(n.seps, n.children)| + 8 <= BODY_SIZE)
  }

  /** Pages written by `to_bytes` and read by `from_bytes` are faithful, whatever the checksum function. */
  lemma PagesFaithful(crc: seq<byte> -> u32)
    ensures Faithful(ToPage(crc), Parse)
  {
    forall n | Writable(n) ensures Kept(Parse(ToPage(crc)(n)), n) {
      NodeKept(n, crc);
    }
  }

  lemma NodeKept(n: Node, crc: seq<byte> -> u32)
    requires Writable(n)
    ensures Kept(Parse(ToPage(crc)(n)), n)
  {
    ReadyWritable(n);
    ReadyRoundTrip(n, crc);
    SealedWritable(n, crc);
  }

  lemma SealedWritable(n: Node, crc: seq<byte> -> u32)
    requires Writable(n) && ImageFits(n) && NodeReady(SealedNode(n, crc))
    ensures Writable(SealedNode(n, crc)) && Blind(SealedNode(n, crc)) == Blind(n)
  {
  }

  /** The disk of a new tree. */
  ghost function NewDisk(write: WritePage, read: ReadPage, page: nat): DiskState {
    WrittenBack(write, read, DiskState(map[], 0, 0, 0, 0), Create(page))
  }

  /** From an empty tree, ascending runs on disk lose nothing: every search finds exactly what was put. */
  lemma AscendingDiskRunFinds(page: nat, es: seq<Entry>, lo: nat, hi: nat, crc: seq<byte> -> u32, k: Key)
    requires page > 0 && Sorted(es) && Comparable(lo, hi) && Sized(es, lo, hi) && AllFit(es)
    requires Placed(Create(page), Tip(page)) && Within(RunPuts(Create(page), Tip(page), es).0)
    ensures Faithful(ToPage(crc), Parse)
    ensures var x := NewDisk(ToPage(crc), Parse, page);
            DiskOk(Parse, x, Tip(page)) && Within(RunPuts(Decoded(Parse, x), Tip(page), es).0)
    ensures var (y, u) := DiskRun(ToPage(crc), Parse, NewDisk(ToPage(crc), Parse, page), Tip(page), es);
            DiskOk(Parse, y, u) && Found(Decoded(Parse, y).pages, u, k) == Lookup(es, k)
  {
    PagesFaithful(crc);
    FaithfulAscendingRun(ToPage(crc), Parse, page, es, lo, hi, k);
  }

  lemma NewDiskOk(write: WritePage, read: ReadPage, page: nat, es: seq<Entry>)
    requires Faithful(write, read) && page > 0
    requires Placed(Create(page), Tip(page)) && Within(RunPuts(Create(page), Tip(page), es).0)
    ensures var x := NewDisk(write, read, page);
            && DiskOk(read, x, Tip(page)) && BlindState(Decoded(read, x)) == BlindState(Create(page))
            && Within(RunPuts(Decoded(read, x), Tip(page), es).0)
  {
    var x := NewDisk(write, read, page);
    RunGrows(Create(page), Tip(page), es);
    CreateReady(page);
    WritableReady(Create(page), Tip(page));
    WrittenBackOk(write, read, DiskState(map[], 0, 0, 0, 0), Create(page), Tip(page));
    BlindRun(Decoded(read, x), Create(page), Tip(page), es);
    SameWithin(RunPuts(Decoded(read, x), Tip(page), es).0, RunPuts(Create(page), Tip(page), es).0);
  }

  lemma FaithfulAscendingRun(write: WritePage, read: ReadPage, page: nat, es: seq<Entry>, lo: nat, hi: nat, k: Key)
    requires Faithful(write, read)
    requires page > 0 && Sorted(es) && Comparable(lo, hi) && Sized(es, lo, hi) && AllFit(es)
    requires Placed(Create(page), Tip(page)) && Within(RunPuts(Create(page), Tip(page), es).0)
    ensures var x := NewDisk(write, read, page);
            DiskOk(read, x, Tip(page)) && Within(RunPuts(Decoded(read, x), Tip(page), es).0)
    ensures var (y, u) := DiskRun(write, read, NewDisk(write, read, page), Tip(page), es);
            DiskOk(read, y, u) && Found(Decoded(read, y).pages, u, k) == Lookup(es, k)
  {
    NewDiskOk(write, read, page, es);
    DiskRunSimulates(write, read, NewDisk(write, read, page), Create(page), Tip(page), es, k);
    AscendingRunFinds(page, es, lo, hi);
  }
}
