/** The bounded prefetch queue: one list in priority order, refining three FIFO queues. */
module Prefetch {
  import opened Results
  import opened Filters

  datatype Priority = Low | Normal | High

  datatype Request = Request(pageId: nat, priority: Priority, timestamp: nat)

  function Level(p: Priority): nat {
    match p
    case Low => 0
    case Normal => 1
    case High => 2
  }

  // -------------------------------------------------------------------- the one list

  datatype Queue = Queue(items: seq<Request>, total: nat, dropped: nat, currentSize: nat)

  /** Position of the first request below a priority, or the end. */
  function InsertAt(items: seq<Request>, p: Priority): (i: nat)
    ensures i <= |items|
  {
    if items == [] || Level(items[0].priority) < Level(p) then 0 else 1 + InsertAt(items[1..], p)
  }

  function FirstLow(items: seq<Request>): (i: nat)
    ensures i <= |items|
  {
    if items == [] || items[0].priority == Low then 0 else 1 + FirstLow(items[1..])
  }

  function Placed(items: seq<Request>, r: Request): seq<Request> {
    var i := InsertAt(items, r.priority);
    items[..i] + [r] + items[i..]
  }

  function Enqueue(q: Queue, max: nat, r: Request): (bool, Queue) {
    var low := FirstLow(q.items);
    if |q.items| < max then
      var items := Placed(q.items, r);
      (true, Queue(items, q.total + 1, q.dropped, |items|))
    else if low < |q.items| then
      var items := Placed(q.items[..low] + q.items[low + 1..], r);
      (true, Queue(items, q.total + 1, q.dropped + 1, |items|))
    else (false, q.(total := q.total + 1, dropped := q.dropped + 1))
  }

  function Dequeue(q: Queue): (Option<Request>, Queue) {
    if q.items == [] then (None, q)
    else (Some(q.items[0]), q.(items := q.items[1..], currentSize := |q.items| - 1))
  }

  function Cleared(q: Queue): Queue {
    q.(items := [], currentSize := 0)
  }

  // ----------------------------------------------------------------- the three queues

  /** One FIFO queue per priority. */
  datatype Fifos = Fifos(high: seq<Request>, normal: seq<Request>, low: seq<Request>)

  ghost predicate All(rs: seq<Request>, p: Priority) {
    forall i :: 0 <= i < |rs| ==> rs[i].priority == p
  }

  ghost predicate Tidy(f: Fifos) {
    All(f.high, High) && All(f.normal, Normal) && All(f.low, Low)
  }

  function Flat(f: Fifos): seq<Request> {
    f.high + f.normal + f.low
  }

  function Lane(f: Fifos, p: Priority): seq<Request> {
    match p
    case High => f.high
    case Normal => f.normal
    case Low => f.low
  }

  /** Join the end of the queue of one's own priority. */
  function Join(f: Fifos, r: Request): Fifos {
    match r.priority
    case High => f.(high := f.high + [r])
    case Normal => f.(normal := f.normal + [r])
    case Low => f.(low := f.low + [r])
  }

  lemma {:induction false} InsertAtLevel(items: seq<Request>, p: Priority, n: nat)
    requires n <= |items| && (forall i :: 0 <= i < n ==> Level(items[i].priority) >= Level(p))
    requires n < |items| ==> Level(items[n].priority) < Level(p)
    ensures InsertAt(items, p) == n
  {
    if n > 0 {
      InsertAtLevel(items[1..], p, n - 1);
    }
  }

  lemma {:induction false} FirstLowAt(items: seq<Request>, n: nat)
    requires n <= |items| && (forall i :: 0 <= i < n ==> items[i].priority != Low)
    requires n < |items| ==> items[n].priority == Low
    ensures FirstLow(items) == n
  {
    if n > 0 {
      FirstLowAt(items[1..], n - 1);
    }
  }

  lemma PlacedBetween(a: seq<Request>, b: seq<Request>, r: Request)
    requires forall i :: 0 <= i < |a| ==> Level(a[i].priority) >= Level(r.priority)
    requires forall i :: 0 <= i < |b| ==> Level(b[i].priority) < Level(r.priority)
    ensures Placed(a + b, r) == a + [r] + b
  {
    InsertAtLevel(a + b, r.priority, |a|);
    assert (a + b)[..|a|] == a && (a + b)[|a|..] == b;
  }

  /** Insertion before the first lower request is joining the end of one's own queue. */
  lemma PlacedIsJoin(f: Fifos, r: Request)
    requires Tidy(f)
    ensures Placed(Flat(f), r) == Flat(Join(f, r)) && Tidy(Join(f, r))
  {
    match r.priority
    case High =>
      PlacedBetween(f.high, f.normal + f.low, r);
      assert Flat(f) == f.high + (f.normal + f.low);
    case Normal =>
      PlacedBetween(f.high + f.normal, f.low, r);
    case Low =>
      PlacedBetween(Flat(f), [], r);
      assert Flat(f) + [] == Flat(f);
  }

  lemma FirstLowIsLane(f: Fifos)
    requires Tidy(f)
    ensures FirstLow(Flat(f)) == |f.high| + |f.normal|
  {
    FirstLowAt(Flat(f), |f.high| + |f.normal|);
  }

  lemma DropLow(f: Fifos)
    requires Tidy(f) && f.low != []
    ensures var n := |f.high| + |f.normal|;
            Flat(f)[..n] + Flat(f)[n + 1..] == Flat(f.(low := f.low[1..])) && Tidy(f.(low := f.low[1..]))
  {
  }

  // -------------------------------------------------------- what leaves, and how

  datatype Exit = Dequeued | ClearedOut | Displaced

  datatype Departure = Departure(request: Request, exit: Exit)

  /** The reference: the three queues, everything accepted and everything gone, in time order. */
  datatype World = World(fifos: Fifos, accepted: seq<Request>, gone: seq<Departure>, total: nat, rejected: nat)

  datatype Op = EnqueueOp(request: Request) | DequeueOp | ClearOp

  function Size(f: Fifos): nat {
    |f.high| + |f.normal| + |f.low|
  }

  function AcceptInto(w: World, r: Request): World {
    w.(fifos := Join(w.fifos, r), accepted := w.accepted + [r], total := w.total + 1)
  }

  /** A full queue displaces its oldest low request, and rejects when there is none. */
  function WorldEnqueue(w: World, max: nat, r: Request): World {
    if Size(w.fifos) < max then AcceptInto(w, r)
    else if w.fifos.low != [] then
      AcceptInto(w.(fifos := w.fifos.(low := w.fifos.low[1..]),
                    gone := w.gone + [Departure(w.fifos.low[0], Displaced)]), r)
    else w.(total := w.total + 1, rejected := w.rejected + 1)
  }

  function WorldDequeue(w: World): World {
    var f := w.fifos;
    if f.high != [] then w.(fifos := f.(high := f.high[1..]), gone := w.gone + [Departure(f.high[0], Dequeued)])
    else if f.normal != [] then
      w.(fifos := f.(normal := f.normal[1..]), gone := w.gone + [Departure(f.normal[0], Dequeued)])
    else if f.low != [] then w.(fifos := f.(low := f.low[1..]), gone := w.gone + [Departure(f.low[0], Dequeued)])
    else w
  }

  function Departures(rs: seq<Request>): (ds: seq<Departure>)
    ensures |ds| == |rs|
  {
    seq(|rs|, i requires 0 <= i < |rs| => Departure(rs[i], ClearedOut))
  }

  function WorldStep(w: World, max: nat, op: Op): World {
    match op
    case EnqueueOp(r) => WorldEnqueue(w, max, r)
    case DequeueOp => WorldDequeue(w)
    case ClearOp => w.(fifos := Fifos([], [], []), gone := w.gone + Departures(Flat(w.fifos)))
  }

  function QueueStep(q: Queue, max: nat, op: Op): Queue {
    match op
    case EnqueueOp(r) => Enqueue(q, max, r).1
    case DequeueOp => Dequeue(q).1
    case ClearOp => Cleared(q)
  }

  function Displacements(ds: seq<Departure>): nat {
    if ds == [] then 0 else (if ds[|ds| - 1].exit == Displaced then 1 else 0) + Displacements(ds[..|ds| - 1])
  }

  // ----------------------------------------------------------------- step by step

  /** The list is the three queues one after the other, its length is within bounds and recorded, and its
      counters count. */
  ghost predicate Refines(q: Queue, w: World, max: nat) {
    && Tidy(w.fifos) && q.items == Flat(w.fifos)
    && |q.items| <= max && q.currentSize == |q.items|
    && q.total == w.total && q.dropped == w.rejected + Displacements(w.gone)
  }

  lemma DisplacementsSnoc(ds: seq<Departure>, d: Departure)
    ensures Displacements(ds + [d]) == Displacements(ds) + if d.exit == Displaced then 1 else 0
  {
    assert (ds + [d])[..|ds|] == ds;
  }

  lemma {:induction false} DisplacementsCleared(ds: seq<Departure>, rs: seq<Request>)
    ensures Displacements(ds + Departures(rs)) == Displacements(ds)
    decreases |rs|
  {
    if rs == [] {
      assert ds + Departures(rs) == ds;
    } else {
      var n := |rs| - 1;
      assert ds + Departures(rs) == (ds + Departures(rs[..n])) + [Departure(rs[n], ClearedOut)];
      DisplacementsSnoc(ds + Departures(rs[..n]), Departure(rs[n], ClearedOut));
      DisplacementsCleared(ds, rs[..n]);
    }
  }

  lemma EnqueueRefines(q: Queue, w: World, max: nat, r: Request)
    requires Refines(q, w, max)
    ensures Refines(Enqueue(q, max, r).1, WorldEnqueue(w, max, r), max)
    ensures Enqueue(q, max, r).0 <==> |WorldEnqueue(w, max, r).accepted| == |w.accepted| + 1
  {
    var f := w.fifos;
    FirstLowIsLane(f);
    if |q.items| < max {
      PlacedIsJoin(f, r);
    } else if f.low != [] {
      DropLow(f);
      PlacedIsJoin(f.(low := f.low[1..]), r);
      DisplacementsSnoc(w.gone, Departure(f.low[0], Displaced));
    }
  }

  lemma DequeueRefines(q: Queue, w: World, max: nat)
    requires Refines(q, w, max)
    ensures Refines(Dequeue(q).1, WorldDequeue(w), max)
    ensures match Dequeue(q).0
            case None => WorldDequeue(w) == w
            case Some(r) => WorldDequeue(w).gone == w.gone + [Departure(r, Dequeued)]
  {
    if q.items != [] {
      FlatFront(w.fifos);
      DisplacementsSnoc(w.gone, Departure(q.items[0], Dequeued));
    }
  }

  /** The front of the list is the front of the first queue that is not empty. */
  lemma FlatFront(f: Fifos)
    requires Tidy(f) && Flat(f) != []
    ensures f.high != [] ==> Flat(f)[0] == f.high[0] && Flat(f)[1..] == Flat(f.(high := f.high[1..]))
    ensures f.high == [] && f.normal != [] ==>
              Flat(f)[0] == f.normal[0] && Flat(f)[1..] == Flat(f.(normal := f.normal[1..]))
    ensures f.high == [] && f.normal == [] ==>
              f.low != [] && Flat(f)[0] == f.low[0] && Flat(f)[1..] == Flat(f.(low := f.low[1..]))
  {
  }

  lemma StepRefines(q: Queue, w: World, max: nat, op: Op)
    requires Refines(q, w, max)
    ensures Refines(QueueStep(q, max, op), WorldStep(w, max, op), max)
  {
    match op
    case EnqueueOp(r) => EnqueueRefines(q, w, max, r);
    case DequeueOp => DequeueRefines(q, w, max);
    case ClearOp => DisplacementsCleared(w.gone, Flat(w.fifos));
  }

  // ------------------------------------------------------------------- conservation

  /** Being of one priority: `Only` with it gives the requests of that priority. */
  function Of(p: Priority): Request -> bool {
    (r: Request) => r.priority == p
  }

  function Requests(ds: seq<Departure>): (rs: seq<Request>)
    ensures |rs| == |ds|
  {
    seq(|ds|, i requires 0 <= i < |ds| => ds[i].request)
  }

  lemma OnlyLane(a: seq<Request>, p: Priority, q: Priority)
    requires All(a, q)
    ensures Only(a, Of(p)) == if p == q then a else []
  {
    if p == q {
      OnlyAll(a, Of(p));
    } else {
      OnlyNone(a, Of(p));
    }
  }

  lemma OnlyFlat(f: Fifos, p: Priority)
    requires Tidy(f)
    ensures Only(Flat(f), Of(p)) == Lane(f, p)
  {
    OnlySplit(f.high + f.normal, f.low, Of(p));
    OnlySplit(f.high, f.normal, Of(p));
    OnlyLane(f.high, p, High);
    OnlyLane(f.normal, p, Normal);
    OnlyLane(f.low, p, Low);
  }

  /** First in, first out for each priority: the accepted requests are those gone followed by those waiting,
      in order; only low requests were displaced; and every request is accounted for. */
  ghost predicate Conserved(w: World) {
    && Tidy(w.fifos)
    && (forall p :: Only(w.accepted, Of(p)) == Only(Requests(w.gone), Of(p)) + Lane(w.fifos, p))
    && (forall i :: 0 <= i < |w.gone| && w.gone[i].exit == Displaced ==> w.gone[i].request.priority == Low)
    && |w.accepted| == |w.gone| + Size(w.fifos)
    && w.total == |w.accepted| + w.rejected
  }

  lemma OnlySnoc(rs: seq<Request>, r: Request, p: Priority)
    ensures Only(rs + [r], Of(p)) == Only(rs, Of(p)) + if r.priority == p then [r] else []
  {
    OnlySplit(rs, [r], Of(p));
    OnlyOne(r, Of(p));
  }

  lemma RequestsSnoc(ds: seq<Departure>, d: Departure)
    ensures Requests(ds + [d]) == Requests(ds) + [d.request]
  {
  }

  lemma AcceptConserved(w: World, r: Request)
    requires Conserved(w)
    ensures Conserved(AcceptInto(w, r))
  {
    forall p
      ensures Only(AcceptInto(w, r).accepted, Of(p)) == Only(Requests(w.gone), Of(p)) + Lane(Join(w.fifos, r), p)
    {
      OnlySnoc(w.accepted, r, p);
    }
  }

  ghost predicate OneLess(f: Fifos, g: Fifos, r: Request) {
    forall p :: Lane(f, p) == (if p == r.priority then [r] else []) + Lane(g, p)
  }

  lemma OneLessSize(f: Fifos, g: Fifos, r: Request)
    requires OneLess(f, g, r)
    ensures Size(f) == Size(g) + 1
  {
    assert |Lane(f, High)| + |Lane(f, Normal)| + |Lane(f, Low)|
           == |Lane(g, High)| + |Lane(g, Normal)| + |Lane(g, Low)| + 1;
  }

  lemma LeaveLane(gone: seq<Request>, lane: seq<Request>, rest: seq<Request>, r: Request, p: Priority)
    requires lane == (if p == r.priority then [r] else []) + rest
    ensures Only(gone, Of(p)) + lane == Only(gone + [r], Of(p)) + rest
  {
    OnlySnoc(gone, r, p);
  }

  /** One request leaves from the front of its queue. */
  lemma LeaveConserved(w: World, v: World, d: Departure)
    requires Conserved(w) && Tidy(v.fifos) && v == w.(fifos := v.fifos, gone := w.gone + [d])
    requires d.exit == Displaced ==> d.request.priority == Low
    requires OneLess(w.fifos, v.fifos, d.request)
    ensures Conserved(v)
  {
    RequestsSnoc(w.gone, d);
    OneLessSize(w.fifos, v.fifos, d.request);
    forall p ensures Only(v.accepted, Of(p)) == Only(Requests(v.gone), Of(p)) + Lane(v.fifos, p) {
      LeaveLane(Requests(w.gone), Lane(w.fifos, p), Lane(v.fifos, p), d.request, p);
    }
  }

  lemma EnqueueConserved(w: World, max: nat, r: Request)
    requires Conserved(w)
    ensures Conserved(WorldEnqueue(w, max, r))
  {
    var f := w.fifos;
    if Size(f) < max {
      AcceptConserved(w, r);
    } else if f.low != [] {
      var v := w.(fifos := f.(low := f.low[1..]), gone := w.gone + [Departure(f.low[0], Displaced)]);
      LeaveConserved(w, v, Departure(f.low[0], Displaced));
      AcceptConserved(v, r);
    }
  }

  lemma DequeueConserved(w: World)
    requires Conserved(w)
    ensures Conserved(WorldDequeue(w))
  {
    var f := w.fifos;
    if f.high != [] {
      LeaveConserved(w, WorldDequeue(w), Departure(f.high[0], Dequeued));
    } else if f.normal != [] {
      LeaveConserved(w, WorldDequeue(w), Departure(f.normal[0], Dequeued));
    } else if f.low != [] {
      LeaveConserved(w, WorldDequeue(w), Departure(f.low[0], Dequeued));
    }
  }

  lemma ClearConserved(w: World, max: nat)
    requires Conserved(w)
    ensures Conserved(WorldStep(w, max, ClearOp))
  {
    var v := WorldStep(w, max, ClearOp);
    assert Requests(v.gone) == Requests(w.gone) + Flat(w.fifos);
    forall p ensures Only(v.accepted, Of(p)) == Only(Requests(v.gone), Of(p)) + Lane(v.fifos, p) {
      OnlySplit(Requests(w.gone), Flat(w.fifos), Of(p));
      OnlyFlat(w.fifos, p);
    }
  }

  // ---------------------------------------------------------------------- whole runs

  function QueueRun(q: Queue, max: nat, ops: seq<Op>): Queue
    decreases |ops|
  {
    if ops == [] then q else QueueRun(QueueStep(q, max, ops[0]), max, ops[1..])
  }

  function WorldRun(w: World, max: nat, ops: seq<Op>): World
    decreases |ops|
  {
    if ops == [] then w else WorldRun(WorldStep(w, max, ops[0]), max, ops[1..])
  }

  /** Over every run the list refines the three queues and no request is lost or reordered within its priority. */
  lemma {:induction false} RunRefines(q: Queue, w: World, max: nat, ops: seq<Op>)
    requires Refines(q, w, max) && Conserved(w)
    ensures Refines(QueueRun(q, max, ops), WorldRun(w, max, ops), max) && Conserved(WorldRun(w, max, ops))
    decreases |ops|
  {
    if ops != [] {
      StepRefines(q, w, max, ops[0]);
      match ops[0] {
        case EnqueueOp(r) => EnqueueConserved(w, max, r);
        case DequeueOp => DequeueConserved(w);
        case ClearOp => ClearConserved(w, max);
      }
      RunRefines(QueueStep(q, max, ops[0]), WorldStep(w, max, ops[0]), max, ops[1..]);
    }
  }

  const EMPTY_QUEUE := Queue([], 0, 0, 0)
  const EMPTY_WORLD := World(Fifos([], [], []), [], [], 0, 0)

  function Left(ds: seq<Departure>, e: Exit): nat {
    if ds == [] then 0 else (if ds[|ds| - 1].exit == e then 1 else 0) + Left(ds[..|ds| - 1], e)
  }

  lemma {:induction false} LeftAddsUp(ds: seq<Departure>)
    ensures Left(ds, Dequeued) + Left(ds, ClearedOut) + Displacements(ds) == |ds|
  {
    if ds != [] {
      LeftAddsUp(ds[..|ds| - 1]);
    }
  }

  /** From an empty queue, over every run: length within the maximum and equal to the recorded size, and
      total = queued + dequeued + dropped + cleared. */
  lemma TotalsAddUp(max: nat, ops: seq<Op>)
    ensures var q, w := QueueRun(EMPTY_QUEUE, max, ops), WorldRun(EMPTY_WORLD, max, ops);
            && |q.items| <= max && q.currentSize == |q.items|
            && q.total == |q.items| + Left(w.gone, Dequeued) + q.dropped + Left(w.gone, ClearedOut)
  {
    var w := WorldRun(EMPTY_WORLD, max, ops);
    assert Refines(EMPTY_QUEUE, EMPTY_WORLD, max) && Conserved(EMPTY_WORLD) by {
      assert forall p :: Lane(Fifos([], [], []), p) == [];
    }
    RunRefines(EMPTY_QUEUE, EMPTY_WORLD, max, ops);
    LeftAddsUp(w.gone);
  }

  // --------------------------------------------------------------------- the object

  class PrefetchQueue {
    var queue: seq<Request>
    var totalRequests: nat
    var droppedRequests: nat
    var currentQueueSize: nat
    const maxSize: nat

    function View(): Queue
      reads this
    {
      Queue(queue, totalRequests, droppedRequests, currentQueueSize)
    }

    constructor (max: nat)
      ensures View() == EMPTY_QUEUE && maxSize == max
    {
      queue, totalRequests, droppedRequests, currentQueueSize := [], 0, 0, 0;
      maxSize := max;
    }

    method Push(request: Request) returns (accepted: bool)
      modifies this
      ensures (accepted, View()) == Enqueue(old(View()), maxSize, request)
    {
      totalRequests := totalRequests + 1;
      if |queue| >= maxSize {
        var pos := FirstLow(queue);
        droppedRequests := droppedRequests + 1;
        if pos < |queue| {
          queue := queue[..pos] + queue[pos + 1..];
        } else {
          return false;
        }
      }
      var insertPos := InsertAt(queue, request.priority);
      queue := queue[..insertPos] + [request] + queue[insertPos..];
      currentQueueSize := |queue|;
      return true;
    }

    method Pop() returns (request: Option<Request>)
      modifies this
      ensures (request, View()) == Dequeue(old(View()))
    {
      if queue == [] {
        return None;
      }
      request := Some(queue[0]);
      queue := queue[1..];
      currentQueueSize := |queue|;
    }

    method ClearAll()
      modifies this
      ensures View() == Cleared(old(View()))
    {
      queue := [];
      currentQueueSize := 0;
    }
  }
}
