/** Time windows over a range of timestamps, and the counting query over them. */
module Windows {
  import opened Results
  import opened Filters

  datatype TimeWindow = TimeWindow(start: int, end: int)

  datatype Tumbling = Tumbling(size: int, offset: int)

  datatype Sliding = Sliding(size: int, slide: int, offset: int)

  /** What the constructors of the two configurations accept. */
  predicate ValidTumbling(c: Tumbling) {
    c.size > 0 && 0 <= c.offset < c.size
  }

  predicate ValidSliding(c: Sliding) {
    c.size > 0 && 0 < c.slide <= c.size && 0 <= c.offset < c.size
  }

  predicate Contains(w: TimeWindow, t: int) {
    w.start <= t < w.end
  }

  function Min(a: int, b: int): int {
    if a <= b then a else b
  }

  // ------------------------------------------------------------------------ alignment

  /** Rust's division rounds toward zero. */
  function Quotient(a: int, b: int): int
    requires b > 0
  {
    if a >= 0 then a / b else -((-a) / b)
  }

  /** The first window start: `start` moved up to the grid of `step` through `offset`. */
  function Aligned(start: int, step: int, offset: int): int
    requires step > 0
  {
    Quotient(start - offset + step - 1, step) * step + offset
  }

  lemma DivMod(a: int, b: int)
    requires b > 0
    ensures a == (a / b) * b + a % b && 0 <= a % b < b
  {
  }

  lemma QuotientBounds(a: int, b: int)
    requires b > 0
    ensures a >= 0 ==> a - b < Quotient(a, b) * b <= a
    ensures a < 0 ==> a <= Quotient(a, b) * b < a + b
    ensures a < 0 ==> (Quotient(a, b) * b == a <==> a % b == 0)
  {
    if a >= 0 {
      DivMod(a, b);
    } else {
      DivMod(-a, b);
      assert -((-a) / b) * b == -(((-a) / b) * b);
      NegatedMultiple(a, b);
    }
  }

  lemma NegatedMultiple(a: int, b: int)
    requires b > 0
    ensures (-a) % b == 0 <==> a % b == 0
  {
    DivMod(a, b);
    DivMod(-a, b);
    var p, q := a / b, (-a) / b;
    Sums(p, q, b);
    if a % b == 0 {
      SmallMultiple(p + q, b, (-a) % b);
    }
    if (-a) % b == 0 {
      SmallMultiple(p + q, b, a % b);
    }
  }

  lemma Sums(p: int, q: int, b: int)
    ensures (p + q) * b == p * b + q * b
  {
  }

  lemma Monotone(m: int, n: int, b: int)
    requires m <= n && b > 0
    ensures m * b <= n * b
  {
  }

  /** The first window never starts before `start`. It starts less than one step after it, so that no window
      that fits is skipped, exactly when `start` is later than a step before the offset or one past the grid;
      any other `start` loses a whole window to the rounding of negative numbers. */
  lemma AlignedTightIff(start: int, step: int, offset: int)
    requires step > 0
    ensures start <= Aligned(start, step, offset) < start + 2 * step
    ensures Aligned(start, step, offset) < start + step <==>
                start > offset - step || (start - offset + step - 1) % step == 0
  {
    QuotientBounds(start - offset + step - 1, step);
  }

  lemma MultipleMod(n: int, b: int)
    requires b > 0
    ensures (n * b) % b == 0
  {
    DivMod(n * b, b);
    var q, r := (n * b) / b, (n * b) % b;
    Sums(q, -n, b);
    SmallMultiple(q - n, b, r);
  }

  predicate OnGrid(t: int, step: int, offset: int)
    requires step > 0
  {
    (t - offset) % step == 0
  }

  /** The first window starts on the grid of the steps through the offset. */
  lemma AlignedOnGrid(start: int, step: int, offset: int)
    requires step > 0
    ensures (Aligned(start, step, offset) - offset) % step == 0
  {
    MultipleMod(Quotient(start - offset + step - 1, step), step);
  }

  lemma GridGap(a: int, b: int, step: int, offset: int)
    requires step > 0 && OnGrid(a, step, offset) && OnGrid(b, step, offset) && b < a
    ensures b + step <= a
  {
    DivMod(a - offset, step);
    DivMod(b - offset, step);
    var m, n := (a - offset) / step, (b - offset) / step;
    if m <= n {
      Monotone(m, n, step);
    } else {
      Monotone(n + 1, m, step);
      Sums(n, 1, step);
    }
  }

  lemma GridStep(a: int, step: int, offset: int)
    requires step > 0 && OnGrid(a, step, offset)
    ensures OnGrid(a - step, step, offset) && OnGrid(a + step, step, offset)
  {
    OneStepLess(a - offset, step);
    OneStepLess(a - offset + step, step);
  }

  /** Against every grid point at or after `start`: the first window starts at the least of them when the start is
      later than a step before the offset or one past the grid, and one step after the least of them otherwise. */
  lemma AlignedIsLeast(start: int, step: int, offset: int, g: int)
    requires step > 0 && start <= g && (g - offset) % step == 0
    ensures start > offset - step || (start - offset + step - 1) % step == 0 ==> Aligned(start, step, offset) <= g
    ensures !(start > offset - step || (start - offset + step - 1) % step == 0) ==>
              start <= Aligned(start, step, offset) - step <= g
  {
    var a := Aligned(start, step, offset);
    AlignedTightIff(start, step, offset);
    AlignedOnGrid(start, step, offset);
    if g < a {
      GridGap(a, g, step, offset);
      GridStep(a, step, offset);
      if g < a - step {
        GridGap(a - step, g, step, offset);
      }
    }
  }

  // ----------------------------------------------------------------------- the windows

  /** Windows laid out from a first start: each a step after the one before, of the given size but cut off at the
      end, and as many as start before the end. */
  ghost predicate LaidOut(ws: seq<TimeWindow>, first: int, end: int, size: int, step: int) {
    && (ws == [] <==> end <= first)
    && (ws != [] ==> ws[0].start == first && ws[|ws| - 1].start < end <= ws[|ws| - 1].start + step)
    && (forall i :: 0 < i < |ws| ==> ws[i].start == ws[i - 1].start + step)
    && (forall i :: 0 <= i < |ws| ==> ws[i].end == Min(ws[i].start + size, end))
  }

  lemma {:induction false} WindowsLaidOut(current: int, end: int, size: int, step: int)
    requires size > 0 && step > 0
    ensures LaidOut(WindowsFrom(current, end, size, step), current, end, size, step)
    decreases end - current
  {
    if current < end {
      WindowsLaidOut(current + step, end, size, step);
      var rest := WindowsFrom(current + step, end, size, step);
      var ws := WindowsFrom(current, end, size, step);
      assert ws == [TimeWindow(current, Min(current + size, end))] + rest;
      assert forall i :: 1 <= i < |ws| ==> ws[i] == rest[i - 1];
    }
  }

  /** Every window that is laid out starts on the grid, not before the first start, and ends by the end. */
  lemma {:induction false} LaidOnGrid(ws: seq<TimeWindow>, i: nat, first: int, end: int, size: int, step: int,
                                      offset: int)
    requires size > 0 && step > 0 && i < |ws| && LaidOut(ws, first, end, size, step) && OnGrid(first, step, offset)
    ensures OnGrid(ws[i].start, step, offset) && first <= ws[i].start < ws[i].end <= end
    decreases i
  {
    if i > 0 {
      LaidOnGrid(ws, i - 1, first, end, size, step, offset);
      GridStep(ws[i - 1].start, step, offset);
    }
    LaidBefore(ws, i, first, end, size, step);
  }

  lemma {:induction false} LaidBefore(ws: seq<TimeWindow>, i: nat, first: int, end: int, size: int, step: int)
    requires step > 0 && i < |ws| && LaidOut(ws, first, end, size, step)
    ensures ws[i].start < end
    decreases |ws| - i
  {
    if i < |ws| - 1 {
      LaidBefore(ws, i + 1, first, end, size, step);
    }
  }

  /** The windows of a configuration: laid out from the first start, on the grid of the offset. */
  ghost predicate Generated(ws: seq<TimeWindow>, start: int, end: int, size: int, step: int, offset: int)
    requires step > 0
  {
    && LaidOut(ws, Aligned(start, step, offset), end, size, step)
    && (forall i :: 0 <= i < |ws| ==> start <= ws[i].start < ws[i].end <= end && OnGrid(ws[i].start, step, offset))
  }

  lemma WindowsGenerated(start: int, end: int, size: int, step: int, offset: int)
    requires size > 0 && step > 0
    ensures Generated(WindowsFrom(Aligned(start, step, offset), end, size, step), start, end, size, step, offset)
  {
    var first := Aligned(start, step, offset);
    var ws := WindowsFrom(first, end, size, step);
    WindowsLaidOut(first, end, size, step);
    AlignedTightIff(start, step, offset);
    AlignedOnGrid(start, step, offset);
    forall i | 0 <= i < |ws|
      ensures start <= ws[i].start < ws[i].end <= end && OnGrid(ws[i].start, step, offset)
    {
      LaidOnGrid(ws, i, first, end, size, step, offset);
    }
  }

  /** Windows of one size starting at every step, cut off at the end. */
  function WindowsFrom(current: int, end: int, size: int, step: int): seq<TimeWindow>
    requires size > 0 && step > 0
    decreases end - current
  {
    if current >= end then []
    else [TimeWindow(current, Min(current + size, end))] + WindowsFrom(current + step, end, size, step)
  }

  /** How many of the windows contain a time. */
  function Holding(ws: seq<TimeWindow>, t: int): nat {
    if ws == [] then 0 else (if Contains(ws[0], t) then 1 else 0) + Holding(ws[1..], t)
  }

  /** The number of windows holding a time `u` after the first start. */
  function Multiplicity(u: nat, size: int, step: int): int
    requires size > 0 && step > 0
  {
    Min(u / step + 1, size / step + if u % step < size % step then 1 else 0)
  }

  lemma OneStepLess(u: int, step: int)
    requires step > 0
    ensures (u - step) / step == u / step - 1 && (u - step) % step == u % step
  {
    DivMod(u, step);
    DivMod(u - step, step);
    var p, q := u / step, (u - step) / step;
    DifferenceTimes(p, q, step);
    SmallMultiple(p - q - 1, step, u % step - (u - step) % step);
  }

  lemma DifferenceTimes(p: int, q: int, b: int)
    ensures (p - q - 1) * b == p * b - q * b - b
  {
  }

  lemma SmallMultiple(n: int, b: int, r: int)
    requires b > 0 && -b < r < b && n * b + r == 0
    ensures n == 0
  {
    if n <= -1 {
      Monotone(n, -1, b);
    } else if n >= 1 {
      Monotone(1, n, b);
    }
  }

  /** Lexicographic comparison by quotient and remainder. */
  lemma CompareByQuotient(u: int, size: int, step: int)
    requires step > 0
    ensures u < size <==> u / step < size / step || (u / step == size / step && u % step < size % step)
  {
    DivMod(u, step);
    DivMod(size, step);
    var p, q := u / step, size / step;
    if p < q {
      Monotone(p + 1, q, step);
      Sums(p, 1, step);
    } else if q < p {
      Monotone(q + 1, p, step);
      Sums(q, 1, step);
    }
  }

  lemma SelfQuotient(b: int)
    requires b > 0
    ensures b / b == 1 && b % b == 0
  {
    DivMod(b, b);
    SmallMultiple(b / b - 1, b, b % b);
  }

  lemma MultiplicityStep(u: nat, size: int, step: int)
    requires 0 < step <= size
    ensures Multiplicity(u, size, step)
            == (if u < size then 1 else 0) + if u < step then 0 else Multiplicity(u - step, size, step)
  {
    CompareByQuotient(u, size, step);
    CompareByQuotient(u, step, step);
    CompareByQuotient(size, step, step);
    SelfQuotient(step);
    if u >= step {
      OneStepLess(u, step);
    }
  }

  /** Every time of the range lies in exactly the stated number of windows, and no window reaches outside. */
  lemma {:induction false} HoldingIsMultiplicity(current: int, end: int, size: int, step: int, t: int)
    requires 0 < step <= size
    ensures Holding(WindowsFrom(current, end, size, step), t)
            == if current <= t < end then Multiplicity(t - current, size, step) else 0
    decreases end - current
  {
    if current < end {
      HoldingIsMultiplicity(current + step, end, size, step, t);
      if current <= t < end {
        MultiplicityStep(t - current, size, step);
      }
    }
  }

  // ------------------------------------------------------------------------- tumbling

  function TumblingWindows(start: int, end: int, c: Tumbling): seq<TimeWindow>
    requires ValidTumbling(c)
  {
    WindowsFrom(Aligned(start, c.size, c.offset), end, c.size, c.size)
  }

  /** Tumbling windows partition the range from the first start to the end: each time in exactly one. */
  lemma TumblingPartition(start: int, end: int, c: Tumbling, t: int)
    requires ValidTumbling(c)
    ensures Holding(TumblingWindows(start, end, c), t) == if Aligned(start, c.size, c.offset) <= t < end then 1 else 0
  {
    var current := Aligned(start, c.size, c.offset);
    HoldingIsMultiplicity(current, end, c.size, c.size, t);
    if current <= t < end {
      OnceEach(t - current, c.size);
    }
  }

  lemma OnceEach(u: nat, size: int)
    requires size > 0
    ensures Multiplicity(u, size, size) == 1
  {
    SelfQuotient(size);
    DivMod(u, size);
    if u / size < 0 {
      Monotone(u / size, -1, size);
    }
  }

  /** Tumbling windows start on the grid of the sizes and are laid out from the first start. */
  lemma TumblingGenerated(start: int, end: int, c: Tumbling)
    requires ValidTumbling(c)
    ensures Generated(TumblingWindows(start, end, c), start, end, c.size, c.size, c.offset)
  {
    WindowsGenerated(start, end, c.size, c.size, c.offset);
  }

  // -------------------------------------------------------------------------- sliding

  function SlidingWindows(start: int, end: int, c: Sliding): seq<TimeWindow>
    requires ValidSliding(c)
  {
    WindowsFrom(Aligned(start, c.slide, c.offset), end, c.size, c.slide)
  }

  /** When the slide divides the size, every time from `size - slide` past the first start on lies in exactly
      size / slide windows; earlier ones in fewer. */
  lemma SlidingMultiplicity(start: int, end: int, c: Sliding, t: int)
    requires ValidSliding(c) && c.size % c.slide == 0
    ensures var first := Aligned(start, c.slide, c.offset);
            && (first + c.size - c.slide <= t < end ==> Holding(SlidingWindows(start, end, c), t) == c.size / c.slide)
            && (first <= t < end && t < first + c.size - c.slide ==>
                  Holding(SlidingWindows(start, end, c), t) == (t - first) / c.slide + 1 < c.size / c.slide)
  {
    var first := Aligned(start, c.slide, c.offset);
    HoldingIsMultiplicity(first, end, c.size, c.slide, t);
    if first <= t < end {
      var u := t - first;
      OneStepLess(c.size, c.slide);
      CompareByQuotient(u, c.size - c.slide, c.slide);
      DivMod(u, c.slide);
    }
  }

  /** Sliding windows start on the grid of the slides and are laid out from the first start. */
  lemma SlidingGenerated(start: int, end: int, c: Sliding)
    requires ValidSliding(c)
    ensures Generated(SlidingWindows(start, end, c), start, end, c.size, c.slide, c.offset)
  {
    WindowsGenerated(start, end, c.size, c.slide, c.offset);
  }

  // ------------------------------------------------------------- counts add up

  /** How many of the times lie in a window. */
  function CountIn(w: TimeWindow, ts: seq<int>): nat {
    if ts == [] then 0 else (if Contains(w, ts[0]) then 1 else 0) + CountIn(w, ts[1..])
  }

  function CountsSum(ws: seq<TimeWindow>, ts: seq<int>): nat {
    if ws == [] then 0 else CountIn(ws[0], ts) + CountsSum(ws[1..], ts)
  }

  function HoldingSum(ws: seq<TimeWindow>, ts: seq<int>): nat {
    if ts == [] then 0 else Holding(ws, ts[0]) + HoldingSum(ws, ts[1..])
  }

  /** Counting by windows or by times is the same. */
  lemma {:induction false} DoubleCount(ws: seq<TimeWindow>, ts: seq<int>)
    ensures CountsSum(ws, ts) == HoldingSum(ws, ts)
    decreases |ws|
  {
    if ws == [] {
      NoWindows(ts);
    } else {
      DoubleCount(ws[1..], ts);
      OneWindow(ws, ts);
    }
  }

  lemma {:induction false} NoWindows(ts: seq<int>)
    ensures HoldingSum([], ts) == 0
  {
    if ts != [] {
      NoWindows(ts[1..]);
    }
  }

  lemma {:induction false} OneWindow(ws: seq<TimeWindow>, ts: seq<int>)
    requires ws != []
    ensures HoldingSum(ws, ts) == CountIn(ws[0], ts) + HoldingSum(ws[1..], ts)
  {
    if ts != [] {
      OneWindow(ws, ts[1..]);
    }
  }

  function CountFrom(ts: seq<int>, first: int): nat {
    if ts == [] then 0 else (if first <= ts[0] then 1 else 0) + CountFrom(ts[1..], first)
  }

  lemma {:induction false} TumblingHoldingSum(start: int, end: int, c: Tumbling, ts: seq<int>)
    requires ValidTumbling(c) && forall i :: 0 <= i < |ts| ==> ts[i] < end
    ensures HoldingSum(TumblingWindows(start, end, c), ts) == CountFrom(ts, Aligned(start, c.size, c.offset))
  {
    if ts != [] {
      TumblingPartition(start, end, c, ts[0]);
      TumblingHoldingSum(start, end, c, ts[1..]);
    }
  }

  // ---------------------------------------------------------------------------- loops

  /** One window more moves from the rest to the front. */
  lemma OneWindowMore(ws: seq<TimeWindow>, current: int, end: int, size: int, step: int)
    requires size > 0 && step > 0 && current < end
    ensures Min(current + size, end) > current
    ensures ws + WindowsFrom(current, end, size, step)
            == (ws + [TimeWindow(current, Min(current + size, end))]) + WindowsFrom(current + step, end, size, step)
  {
  }

  method GenerateTumblingWindows(start: int, end: int, c: Tumbling) returns (ws: seq<TimeWindow>)
    requires ValidTumbling(c)
    ensures ws == TumblingWindows(start, end, c)
    ensures Generated(ws, start, end, c.size, c.size, c.offset)
  {
    ghost var all := TumblingWindows(start, end, c);
    ws := [];
    var current := Aligned(start, c.size, c.offset);
    while current < end
      invariant all == ws + WindowsFrom(current, end, c.size, c.size)
      decreases end - current
    {
      OneWindowMore(ws, current, end, c.size, c.size);
      var windowEnd := Min(current + c.size, end);
      if windowEnd > current {
        ws := ws + [TimeWindow(current, windowEnd)];
      }
      current := current + c.size;
    }
    TumblingGenerated(start, end, c);
  }

  method GenerateSlidingWindows(start: int, end: int, c: Sliding) returns (ws: seq<TimeWindow>)
    requires ValidSliding(c)
    ensures ws == SlidingWindows(start, end, c)
    ensures Generated(ws, start, end, c.size, c.slide, c.offset)
  {
    ghost var all := SlidingWindows(start, end, c);
    ws := [];
    var current := Aligned(start, c.slide, c.offset);
    while current + c.size <= end || current < end
      invariant all == ws + WindowsFrom(current, end, c.size, c.slide)
      decreases end - current
    {
      OneWindowMore(ws, current, end, c.size, c.slide);
      var windowEnd := Min(current + c.size, end);
      if windowEnd > current {
        ws := ws + [TimeWindow(current, windowEnd)];
      }
      current := current + c.slide;
    }
    SlidingGenerated(start, end, c);
  }

  // ------------------------------------------------------------------- counting query

  datatype Point = Point(timestamp: int, tags: map<string, string>)

  datatype Aggregate = Aggregate(window: TimeWindow, count: nat)

  datatype QueryResult = QueryResult(aggregates: seq<Aggregate>, totalPoints: nat, windowsGenerated: nat,
      emptyWindows: nat)

  datatype QueryError = InvalidTimeRange

  /** The times of the points the query selects; `matches` stands for the tag filters. */
  function Selected(data: seq<Point>, start: int, end: int, matches: Point -> bool): (ts: seq<int>)
    ensures forall i :: 0 <= i < |ts| ==> start <= ts[i] < end
  {
    if data == [] then []
    else (if start <= data[0].timestamp < end && matches(data[0]) then [data[0].timestamp] else [])
         + Selected(data[1..], start, end, matches)
  }

  /** How many points of the data match and have a time in a range. */
  function Points(data: seq<Point>, from: int, to: int, matches: Point -> bool): nat {
    |Only(data, (p: Point) => from <= p.timestamp < to && matches(p))|
  }

  lemma PointsCons(data: seq<Point>, from: int, to: int, matches: Point -> bool)
    requires data != []
    ensures Points(data, from, to, matches)
            == (if from <= data[0].timestamp < to && matches(data[0]) then 1 else 0)
               + Points(data[1..], from, to, matches)
  {
  }

  lemma {:induction false} SelectedCounts(data: seq<Point>, start: int, end: int, matches: Point -> bool,
                                          w: TimeWindow, first: int)
    requires start <= w.start && w.end <= end && start <= first
    ensures |Selected(data, start, end, matches)| == Points(data, start, end, matches)
    ensures CountIn(w, Selected(data, start, end, matches)) == Points(data, w.start, w.end, matches)
    ensures CountFrom(Selected(data, start, end, matches), first) == Points(data, first, end, matches)
  {
    if data != [] {
      SelectedCounts(data[1..], start, end, matches, w, first);
      PointsCons(data, start, end, matches);
      PointsCons(data, w.start, w.end, matches);
      PointsCons(data, first, end, matches);
      var rest := Selected(data[1..], start, end, matches);
      if start <= data[0].timestamp < end && matches(data[0]) {
        assert Selected(data, start, end, matches) == [data[0].timestamp] + rest;
        assert ([data[0].timestamp] + rest)[1..] == rest;
      } else {
        assert Selected(data, start, end, matches) == rest;
      }
    }
  }

  function AggregateSum(xs: seq<Aggregate>): nat {
    if xs == [] then 0 else AggregateSum(xs[..|xs| - 1]) + xs[|xs| - 1].count
  }

  lemma AggregateSumSnoc(xs: seq<Aggregate>, x: Aggregate)
    ensures AggregateSum(xs + [x]) == AggregateSum(xs) + x.count
  {
    assert (xs + [x])[..|xs|] == xs;
  }

  /** Every window with the number of matching points in it, in order. */
  function CountEach(ws: seq<TimeWindow>, data: seq<Point>, matches: Point -> bool): (xs: seq<Aggregate>)
    ensures |xs| == |ws|
  {
    seq(|ws|, i requires 0 <= i < |ws| => Aggregate(ws[i], Points(data, ws[i].start, ws[i].end, matches)))
  }

  const NotEmpty := (x: Aggregate) => x.count > 0

  lemma CountEachSnoc(ws: seq<TimeWindow>, i: nat, data: seq<Point>, matches: Point -> bool)
    requires i < |ws|
    ensures var x := Aggregate(ws[i], Points(data, ws[i].start, ws[i].end, matches));
            Only(CountEach(ws[..i + 1], data, matches), NotEmpty)
            == Only(CountEach(ws[..i], data, matches), NotEmpty) + if x.count > 0 then [x] else []
  {
    var x := Aggregate(ws[i], Points(data, ws[i].start, ws[i].end, matches));
    assert CountEach(ws[..i + 1], data, matches) == CountEach(ws[..i], data, matches) + [x];
    OnlySplit(CountEach(ws[..i], data, matches), [x], NotEmpty);
    OnlyOne(x, NotEmpty);
  }

  function CountsUpTo(ws: seq<TimeWindow>, i: nat, data: seq<Point>, matches: Point -> bool): nat
    requires i <= |ws|
  {
    AggregateSum(Only(CountEach(ws[..i], data, matches), NotEmpty))
  }

  lemma OneCountMore(ws: seq<TimeWindow>, i: nat, data: seq<Point>, matches: Point -> bool)
    requires i < |ws|
    ensures CountsUpTo(ws, i + 1, data, matches)
            == CountsUpTo(ws, i, data, matches) + Points(data, ws[i].start, ws[i].end, matches)
  {
    var x := Aggregate(ws[i], Points(data, ws[i].start, ws[i].end, matches));
    var xs := Only(CountEach(ws[..i], data, matches), NotEmpty);
    CountEachSnoc(ws, i, data, matches);
    AggregateSumSnoc(xs, x);
    assert xs + [] == xs;
  }

  lemma OneCountLess(ws: seq<TimeWindow>, i: nat, ts: seq<int>)
    requires i < |ws|
    ensures CountsSum(ws[i..], ts) == CountIn(ws[i], ts) + CountsSum(ws[i + 1..], ts)
  {
    assert ws[i..][1..] == ws[i + 1..];
  }

  /** The counts of the first `i` windows and those of the others make up the whole. */
  lemma {:induction false} CountsSoFar(ws: seq<TimeWindow>, i: nat, data: seq<Point>, start: int, end: int,
                                       matches: Point -> bool, ts: seq<int>)
    requires i <= |ws| && forall j :: 0 <= j < |ws| ==> start <= ws[j].start && ws[j].end <= end
    requires ts == Selected(data, start, end, matches)
    ensures CountsUpTo(ws, i, data, matches) + CountsSum(ws[i..], ts) == CountsSum(ws, ts)
    decreases i
  {
    if i == 0 {
      assert ws[..0] == [] && ws[0..] == ws;
    } else {
      CountsSoFar(ws, i - 1, data, start, end, matches, ts);
      OneCountMore(ws, i - 1, data, matches);
      OneCountLess(ws, i - 1, ts);
      SelectedCounts(data, start, end, matches, ws[i - 1], start);
    }
  }

  /** The counts of all tumbling windows sum to the number of matching points from the first start on. */
  lemma TumblingCounts(start: int, end: int, c: Tumbling, data: seq<Point>, matches: Point -> bool)
    requires ValidTumbling(c) && start < end
    ensures AggregateSum(Only(CountEach(TumblingWindows(start, end, c), data, matches), NotEmpty))
            == Points(data, Aligned(start, c.size, c.offset), end, matches)
    ensures |Selected(data, start, end, matches)| == Points(data, start, end, matches)
  {
    var ws, ts := TumblingWindows(start, end, c), Selected(data, start, end, matches);
    TumblingGenerated(start, end, c);
    CountsSoFar(ws, |ws|, data, start, end, matches, ts);
    assert ws[..|ws|] == ws && ws[|ws|..] == [];
    DoubleCount(ws, ts);
    TumblingHoldingSum(start, end, c, ts);
    AlignedTightIff(start, c.size, c.offset);
    SelectedCounts(data, start, end, matches, TimeWindow(start, end), Aligned(start, c.size, c.offset));
  }

  /** A count query over tumbling windows, without fill or limit: one aggregate for each window with points, in
      the order of the windows, with the number of matching points in it.  The counts sum to the number of matching
      points from the first window on; every window has an aggregate or is counted empty. */
  method ExecuteCountQuery(start: int, end: int, c: Tumbling, data: seq<Point>, matches: Point -> bool)
    returns (r: Result<QueryResult, QueryError>)
    requires ValidTumbling(c)
    ensures r.Err? <==> end <= start
    ensures r.Ok? ==>
              var ws := TumblingWindows(start, end, c);
              && r.value.aggregates == Only(CountEach(ws, data, matches), NotEmpty)
              && AggregateSum(r.value.aggregates) == Points(data, Aligned(start, c.size, c.offset), end, matches)
              && r.value.totalPoints == Points(data, start, end, matches)
              && |r.value.aggregates| + r.value.emptyWindows == r.value.windowsGenerated == |ws|
              && Generated(ws, start, end, c.size, c.size, c.offset)
  {
    if end <= start {
      return Err(InvalidTimeRange);
    }
    var ts := Selected(data, start, end, matches);
    var ws := GenerateTumblingWindows(start, end, c);
    var aggregates: seq<Aggregate> := [];
    var emptyWindows: nat := 0;
    var i := 0;
    assert ws[..0] == [];
    while i < |ws|
      invariant 0 <= i <= |ws|
      invariant |aggregates| + emptyWindows == i
      invariant aggregates == Only(CountEach(ws[..i], data, matches), NotEmpty)
    {
      CountEachSnoc(ws, i, data, matches);
      SelectedCounts(data, start, end, matches, ws[i], start);
      var count := CountIn(ws[i], ts);
      if count == 0 {
        emptyWindows := emptyWindows + 1;
      } else {
        aggregates := aggregates + [Aggregate(ws[i], count)];
      }
      i := i + 1;
    }
    assert ws[..|ws|] == ws;
    TumblingCounts(start, end, c, data, matches);
    return Ok(QueryResult(aggregates, |ts|, |ws|, emptyWindows));
  }
}
