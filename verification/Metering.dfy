/** The in-memory metrics store: prefix-keyed buffers and window aggregation. */
module Metering {
  import Division
  import opened Wrappers

  /** Times are in nanoseconds, quantities are exact. */
  datatype UsageEvent = UsageEvent(customerId: string, resourceType: string, quantity: real, timestamp: int)

  datatype MeteringError = CustomerRequired | ResourceRequired | InvalidRange

  datatype Granularity = Raw | Minute | Hour | Day | Month

  datatype DataPoint = DataPoint(timestamp: int, value: real)

  const SECOND := 1_000_000_000
  const DAY := 86_400 * SECOND

  function Duration(g: Granularity): (d: int)
    ensures d >= SECOND
  {
    match g
    case Raw => SECOND
    case Minute => 60 * SECOND
    case Hour => 3600 * SECOND
    case Day => DAY
    case Month => 30 * DAY
  }

  function Key(customer: string, resource: string): string { customer + [':'] + resource }

  function EventKey(e: UsageEvent): string { Key(e.customerId, e.resourceType) }

  function InsertError(e: UsageEvent): Option<MeteringError> {
    if e.customerId == [] then Some(CustomerRequired)
    else if e.resourceType == [] then Some(ResourceRequired)
    else None
  }

  function Logged(log: seq<UsageEvent>, e: UsageEvent): seq<UsageEvent> {
    if InsertError(e).Some? then log else log + [e]
  }

  /** The events of the log that carry the key, in insertion order. */
  function EventsAt(log: seq<UsageEvent>, key: string): seq<UsageEvent> {
    if log == [] then []
    else
      var front := EventsAt(log[..|log| - 1], key);
      if EventKey(log[|log| - 1]) == key then front + [log[|log| - 1]] else front
  }

  predicate InWindow(e: UsageEvent, from: int, to: int) { from <= e.timestamp < to }

  function TimeSum(events: seq<UsageEvent>, from: int, to: int): real {
    if events == [] then 0.0
    else
      var last := events[|events| - 1];
      TimeSum(events[..|events| - 1], from, to) + (if InWindow(last, from, to) then last.quantity else 0.0)
  }

  /** The quantity of all events in [from, to) whose key starts with the prefix. */
  function WindowSum(log: seq<UsageEvent>, prefix: string, from: int, to: int): real {
    if log == [] then 0.0
    else
      var last := log[|log| - 1];
      WindowSum(log[..|log| - 1], prefix, from, to)
      + (if prefix <= EventKey(last) && InWindow(last, from, to) then last.quantity else 0.0)
  }

  /** The same, over the keys of a set only. */
  ghost function KeyedSum(log: seq<UsageEvent>, keys: set<string>, prefix: string, from: int, to: int): real {
    if log == [] then 0.0
    else
      var last := log[|log| - 1];
      KeyedSum(log[..|log| - 1], keys, prefix, from, to)
      + (if EventKey(last) in keys && prefix <= EventKey(last) && InWindow(last, from, to) then last.quantity else 0.0)
  }

  /** One data point for each window with a positive sum, from `from` until `end` is reached. */
  function Points(log: seq<UsageEvent>, prefix: string, from: int, end: int, step: int): seq<DataPoint>
    requires step > 0
    decreases end - from
  {
    if from >= end then []
    else
      var total := WindowSum(log, prefix, from, from + step);
      var rest := Points(log, prefix, from + step, end, step);
      if total > 0.0 then [DataPoint(from, total)] + rest else rest
  }

  ghost predicate Buffered(buffer: map<string, seq<UsageEvent>>, log: seq<UsageEvent>) {
    forall key: string {:trigger key in buffer} ::
      (key in buffer <==> EventsAt(log, key) != []) && (key in buffer ==> buffer[key] == EventsAt(log, key))
  }

  lemma BufferedPush(buffer: map<string, seq<UsageEvent>>, log: seq<UsageEvent>, e: UsageEvent)
    requires Buffered(buffer, log)
    ensures var key := EventKey(e);
      Buffered(buffer[key := (if key in buffer then buffer[key] else []) + [e]], log + [e])
  {
    var key := EventKey(e);
    var next := buffer[key := (if key in buffer then buffer[key] else []) + [e]];
    forall k: string
      ensures (k in next <==> EventsAt(log + [e], k) != []) && (k in next ==> next[k] == EventsAt(log + [e], k))
    {
      EventsPush(log, e, k);
      assert k in buffer <==> EventsAt(log, k) != [];
    }
  }

  lemma EventsPush(log: seq<UsageEvent>, e: UsageEvent, key: string)
    ensures EventsAt(log + [e], key) == if EventKey(e) == key then EventsAt(log, key) + [e] else EventsAt(log, key)
  {
    assert (log + [e])[..|log|] == log;
  }

  lemma {:induction false} KeyedSumGrows(
    log: seq<UsageEvent>, keys: set<string>, key: string, prefix: string, from: int, to: int)
    requires key !in keys
    ensures KeyedSum(log, keys + {key}, prefix, from, to) ==
      KeyedSum(log, keys, prefix, from, to) + if prefix <= key then TimeSum(EventsAt(log, key), from, to) else 0.0
  {
    if log != [] {
      KeyedSumGrows(log[..|log| - 1], keys, key, prefix, from, to);
      var front := EventsAt(log[..|log| - 1], key);
      assert (front + [log[|log| - 1]])[..|front|] == front;
    }
  }

  lemma {:induction false} KeyedSumNone(log: seq<UsageEvent>, prefix: string, from: int, to: int)
    ensures KeyedSum(log, {}, prefix, from, to) == 0.0
  {
    if log != [] {
      KeyedSumNone(log[..|log| - 1], prefix, from, to);
    }
  }

  lemma {:induction false} KeyedSumAll(log: seq<UsageEvent>, keys: set<string>, prefix: string, from: int, to: int)
    requires forall i | 0 <= i < |log| :: EventKey(log[i]) in keys
    ensures KeyedSum(log, keys, prefix, from, to) == WindowSum(log, prefix, from, to)
  {
    if log != [] {
      KeyedSumAll(log[..|log| - 1], keys, prefix, from, to);
    }
  }

  lemma {:induction false} LoggedIsBuffered(log: seq<UsageEvent>, i: nat)
    requires i < |log|
    ensures EventsAt(log, EventKey(log[i])) != []
    decreases |log|
  {
    if i < |log| - 1 {
      LoggedIsBuffered(log[..|log| - 1], i);
    }
  }

  class MetricsStore {
    var buffer: map<string, seq<UsageEvent>>
    ghost var log: seq<UsageEvent>

    ghost predicate Valid()
      reads this
    {
      Buffered(buffer, log)
    }

    constructor ()
      ensures Valid() && log == []
    {
      buffer, log := map[], [];
    }

    method Insert(e: UsageEvent) returns (r: Result<(), MeteringError>)
      requires Valid()
      modifies this
      ensures Valid()
      ensures log == Logged(old(log), e)
      ensures r == match InsertError(e) { case Some(error) => Err(error) case None => Ok(()) }
    {
      if e.customerId == [] {
        return Err(CustomerRequired);
      }
      if e.resourceType == [] {
        return Err(ResourceRequired);
      }
      BufferedPush(buffer, log, e);
      var key := EventKey(e);
      buffer := buffer[key := (if key in buffer then buffer[key] else []) + [e]];
      log := log + [e];
      return Ok(());
    }

    /** The sum over all buffers whose key starts with the prefix, walked in arbitrary order. */
    method SumWindow(prefix: string, from: int, to: int) returns (total: real)
      requires Valid()
      ensures total == WindowSum(log, prefix, from, to)
    {
      total := 0.0;
      var left := buffer.Keys;
      ghost var done: set<string> := {};
      KeyedSumNone(log, prefix, from, to);
      while left != {}
        invariant done + left == buffer.Keys && done !! left
        invariant total == KeyedSum(log, done, prefix, from, to)
        decreases left
      {
        var key :| key in left;
        assert key in buffer;
        KeyedSumGrows(log, done, key, prefix, from, to);
        if prefix <= key {
          total := total + TimeSum(buffer[key], from, to);
        }
        left, done := left - {key}, done + {key};
      }
      forall i | 0 <= i < |log| ensures EventKey(log[i]) in buffer.Keys {
        LoggedIsBuffered(log, i);
        assert EventKey(log[i]) in buffer;
      }
      assert done == buffer.Keys;
      KeyedSumAll(log, done, prefix, from, to);
    }

    method Query(customer: string, resource: string, start: int, end: int, g: Granularity)
      returns (r: Result<seq<DataPoint>, MeteringError>)
      requires Valid()
      ensures r == if start >= end then Err(InvalidRange)
                   else Ok(Points(log, Key(customer, resource), start, end, Duration(g)))
    {
      if start >= end {
        return Err(InvalidRange);
      }
      var points := [];
      var current := start;
      var step := Duration(g);
      ghost var prefix := Key(customer, resource);
      ghost var all := Points(log, prefix, start, end, step);
      while current < end
        invariant points + Points(log, prefix, current, end, step) == all
        decreases end - current
      {
        var next := current + step;
        var total := SumWindow(Key(customer, resource), current, next);
        ghost var rest := Points(log, prefix, next, end, step);
        assert Points(log, prefix, current, end, step) ==
          if total > 0.0 then [DataPoint(current, total)] + rest else rest;
        if total > 0.0 {
          assert points + ([DataPoint(current, total)] + rest) == (points + [DataPoint(current, total)]) + rest;
          points := points + [DataPoint(current, total)];
        }
        current := next;
      }
      assert points + [] == points;
      return Ok(points);
    }
  }

  // ------------------------------------------------------ what a query covers

  ghost predicate NonNegative(log: seq<UsageEvent>) {
    forall i | 0 <= i < |log| :: log[i].quantity >= 0.0
  }

  /** Where the last window ends. */
  function Cover(from: int, end: int, step: int): (to: int)
    requires step > 0
    ensures to >= from && to >= end
    ensures from <= end ==> to < end + step
    decreases end - from
  {
    if from >= end then from else Cover(from + step, end, step)
  }

  function Total(points: seq<DataPoint>): real {
    if points == [] then 0.0 else points[0].value + Total(points[1..])
  }

  lemma {:induction false} WindowsAdd(log: seq<UsageEvent>, prefix: string, a: int, b: int, c: int)
    requires a <= b <= c
    ensures WindowSum(log, prefix, a, c) == WindowSum(log, prefix, a, b) + WindowSum(log, prefix, b, c)
  {
    if log != [] {
      WindowsAdd(log[..|log| - 1], prefix, a, b, c);
    }
  }

  lemma {:induction false} EmptyWindow(log: seq<UsageEvent>, prefix: string, at: int)
    ensures WindowSum(log, prefix, at, at) == 0.0
  {
    if log != [] {
      EmptyWindow(log[..|log| - 1], prefix, at);
    }
  }

  lemma {:induction false} WindowNonNegative(log: seq<UsageEvent>, prefix: string, a: int, b: int)
    requires NonNegative(log)
    ensures WindowSum(log, prefix, a, b) >= 0.0
  {
    if log != [] {
      WindowNonNegative(log[..|log| - 1], prefix, a, b);
    }
  }

  /** No window from `from` until `end` has a negative sum. */
  predicate NoDebit(log: seq<UsageEvent>, prefix: string, from: int, end: int, step: int)
    requires step > 0
    decreases end - from
  {
    from >= end || (WindowSum(log, prefix, from, from + step) >= 0.0 && NoDebit(log, prefix, from + step, end, step))
  }

  /** The points of a query sum to at least the selected events up to the end of the last window, and to exactly those
      iff no window's sum is negative. */
  lemma {:induction false} QueryIsExactIff(log: seq<UsageEvent>, prefix: string, from: int, end: int, step: int)
    requires step > 0
    ensures Total(Points(log, prefix, from, end, step)) >= WindowSum(log, prefix, from, Cover(from, end, step))
    ensures Total(Points(log, prefix, from, end, step)) == WindowSum(log, prefix, from, Cover(from, end, step)) <==>
      NoDebit(log, prefix, from, end, step)
    decreases end - from
  {
    if from >= end {
      EmptyWindow(log, prefix, from);
    } else {
      QueryIsExactIff(log, prefix, from + step, end, step);
      WindowsAdd(log, prefix, from, from + step, Cover(from, end, step));
      var total, rest := WindowSum(log, prefix, from, from + step), Points(log, prefix, from + step, end, step);
      assert ([DataPoint(from, total)] + rest)[1..] == rest;
    }
  }

  lemma {:induction false} NonNegativeHasNoDebit(log: seq<UsageEvent>, prefix: string, from: int, end: int, step: int)
    requires step > 0 && NonNegative(log)
    ensures NoDebit(log, prefix, from, end, step)
    decreases end - from
  {
    if from < end {
      WindowNonNegative(log, prefix, from, from + step);
      NonNegativeHasNoDebit(log, prefix, from + step, end, step);
    }
  }

  /** Without negative quantities the points always sum to exactly those events. */
  lemma QueryIsExact(log: seq<UsageEvent>, prefix: string, from: int, end: int, step: int)
    requires step > 0 && NonNegative(log)
    ensures Total(Points(log, prefix, from, end, step)) == WindowSum(log, prefix, from, Cover(from, end, step))
  {
    NonNegativeHasNoDebit(log, prefix, from, end, step);
    QueryIsExactIff(log, prefix, from, end, step);
  }

  lemma {:induction false} TotalIsNonNegative(log: seq<UsageEvent>, prefix: string, from: int, end: int, step: int)
    requires step > 0
    ensures Total(Points(log, prefix, from, end, step)) >= 0.0
    decreases end - from
  {
    if from < end {
      TotalIsNonNegative(log, prefix, from + step, end, step);
      var total, rest := WindowSum(log, prefix, from, from + step), Points(log, prefix, from + step, end, step);
      assert ([DataPoint(from, total)] + rest)[1..] == rest;
    }
  }

  /** The points are the windows of the grid with a positive sum, in order, each with its exact sum. */
  lemma {:induction false} PointsAreWindows(log: seq<UsageEvent>, prefix: string, from: int, end: int, step: int)
    requires step > 0
    ensures var points := Points(log, prefix, from, end, step);
      && (forall i | 0 <= i < |points| :: IsWindow(log, prefix, from, end, step, points[i]))
      && (forall i, j | 0 <= i < j < |points| :: points[i].timestamp < points[j].timestamp)
      && (forall p | IsWindow(log, prefix, from, end, step, p) :: p in points)
    decreases end - from
  {
    if from < end {
      PointsAreWindows(log, prefix, from + step, end, step);
      var points, rest := Points(log, prefix, from, end, step), Points(log, prefix, from + step, end, step);
      forall p | IsWindow(log, prefix, from, end, step, p) ensures p in points {
        if p.timestamp == from {
          assert points[0] == p;
        } else {
          GridAbove(from, p.timestamp, step);
          assert IsWindow(log, prefix, from + step, end, step, p);
        }
      }
      forall p | IsWindow(log, prefix, from + step, end, step, p) ensures IsWindow(log, prefix, from, end, step, p) {}
    }
  }

  ghost predicate IsWindow(log: seq<UsageEvent>, prefix: string, from: int, end: int, step: int, p: DataPoint)
    requires step > 0
  {
    && from <= p.timestamp < end && OnGrid(from, p.timestamp, step)
    && p.value == WindowSum(log, prefix, p.timestamp, p.timestamp + step) && p.value > 0.0
  }

  /** t is reached from `from` by whole steps. */
  predicate OnGrid(from: int, t: int, step: int)
    requires step > 0
    decreases t - from
  {
    t == from || (from < t && OnGrid(from + step, t, step))
  }

  lemma GridAbove(from: int, t: int, step: int)
    requires step > 0 && from < t && OnGrid(from, t, step)
    ensures from + step <= t
  {
  }

  /** The grid is the arithmetic one. */
  lemma {:induction false} GridIsDivisibility(from: int, t: int, step: int)
    requires step > 0 && from <= t
    ensures OnGrid(from, t, step) <==> (t - from) % step == 0
    decreases t - from
  {
    if t < from + step {
      Division.DivisionIsUnique(t - from, step, 0, t - from);
    } else {
      GridIsDivisibility(from + step, t, step);
      Division.AddMultiple(t - from - step, 1, step);
    }
  }

  // ------------------------------------------------- when windows line up

  lemma {:induction false} CoverEnds(from: int, end: int, step: int)
    requires step > 0 && from <= end
    ensures Cover(from, end, step) == end <==> OnGrid(from, end, step)
    decreases end - from
  {
    if from < end {
      if from + step <= end {
        CoverEnds(from + step, end, step);
      } else if OnGrid(from, end, step) {
        GridAbove(from, end, step);
      }
    }
  }

  lemma {:induction false} CoverPasses(a: int, b: int, c: int, step: int)
    requires step > 0 && a <= b <= c && OnGrid(a, b, step)
    ensures Cover(a, c, step) == Cover(b, c, step)
    decreases b - a
  {
    if a < b {
      GridAbove(a, b, step);
      CoverPasses(a + step, b, c, step);
    }
  }

  ghost function QueryTotal(log: seq<UsageEvent>, prefix: string, from: int, end: int, step: int): real
    requires step > 0
  {
    Total(Points(log, prefix, from, end, step))
  }

  lemma OneEvent(e: UsageEvent, prefix: string, from: int, end: int, step: int)
    requires step > 0 && e.quantity >= 0.0 && prefix <= EventKey(e)
    ensures QueryTotal([e], prefix, from, end, step) ==
      if InWindow(e, from, Cover(from, end, step)) then e.quantity else 0.0
  {
    QueryIsExact([e], prefix, from, end, step);
    assert [e][..0] == [];
  }

  /** A query is exact up to `end` for every log precisely when the windows end there. */
  lemma ExactUpToEndIff(customer: string, resource: string, from: int, end: int, step: int)
    requires step > 0 && from < end
    ensures (forall log | NonNegative(log) :: QueryTotal(log, Key(customer, resource), from, end, step)
                                           == WindowSum(log, Key(customer, resource), from, end))
       <==> OnGrid(from, end, step)
  {
    var prefix := Key(customer, resource);
    CoverEnds(from, end, step);
    if OnGrid(from, end, step) {
      forall log | NonNegative(log)
        ensures QueryTotal(log, prefix, from, end, step) == WindowSum(log, prefix, from, end)
      {
        QueryIsExact(log, prefix, from, end, step);
      }
    } else {
      var e := UsageEvent(customer, resource, 1.0, end);
      OneEvent(e, prefix, from, end, step);
      assert [e][..0] == [];
      assert NonNegative([e]) && WindowSum([e], prefix, from, end) == 0.0;
    }
  }

  ghost predicate Adds(log: seq<UsageEvent>, prefix: string, a: int, b: int, c: int, step: int)
    requires step > 0
  {
    QueryTotal(log, prefix, a, b, step) + QueryTotal(log, prefix, b, c, step) == QueryTotal(log, prefix, a, c, step)
  }

  /** Adjacent queries add up for every log precisely when the first one's windows end at the seam. */
  lemma AdjacentQueriesAddIff(customer: string, resource: string, a: int, b: int, c: int, step: int)
    requires step > 0 && a < b < c
    ensures (forall log | NonNegative(log) :: Adds(log, Key(customer, resource), a, b, c, step)) <==> OnGrid(a, b, step)
  {
    var prefix := Key(customer, resource);
    CoverEnds(a, b, step);
    if OnGrid(a, b, step) {
      CoverPasses(a, b, c, step);
      forall log | NonNegative(log) ensures Adds(log, prefix, a, b, c, step) {
        QueryIsExact(log, prefix, a, b, step);
        QueryIsExact(log, prefix, b, c, step);
        QueryIsExact(log, prefix, a, c, step);
        WindowsAdd(log, prefix, a, b, Cover(b, c, step));
      }
    } else {
      var e := UsageEvent(customer, resource, 1.0, b);
      OneEvent(e, prefix, a, b, step);
      OneEvent(e, prefix, b, c, step);
      OneEvent(e, prefix, a, c, step);
      assert NonNegative([e]) && !Adds([e], prefix, a, b, c, step);
    }
  }

  // ------------------------------------------------- one event, written out

  /** The lengths of the windows, in seconds and days of 24 hours; a month has thirty. */
  lemma WindowLengths()
    ensures Duration(Raw) == 1_000_000_000 && Duration(Minute) == 60 * Duration(Raw)
    ensures Duration(Hour) == 60 * Duration(Minute) && Duration(Day) == 24 * Duration(Hour)
    ensures Duration(Month) == 30 * Duration(Day)
  {
  }

  /** Windows hold their start and not their end. */
  lemma WindowEdges(log: seq<UsageEvent>, e: UsageEvent, from: int, to: int)
    requires log == [e]
    ensures WindowSum(log, EventKey(e), from, to) == if from <= e.timestamp < to then e.quantity else 0.0
  {
    assert log[..0] == [] && WindowSum(log[..0], EventKey(e), from, to) == 0.0;
  }

  /** The query for one event between its start and its end has one point: the window that holds the event. */
  lemma {:induction false} OneEventIsOnePoint(log: seq<UsageEvent>, e: UsageEvent, from: int, end: int, step: int)
    requires log == [e] && e.quantity > 0.0 && step > 0 && from <= e.timestamp < end
    ensures var k := (e.timestamp - from) / step;
      Points(log, EventKey(e), from, end, step) == [DataPoint(from + k * step, e.quantity)]
    decreases end - from
  {
    WindowEdges(log, e, from, from + step);
    if e.timestamp < from + step {
      assert (e.timestamp - from) / step == 0;
      PointsAfter(log, e, from + step, end, step);
    } else {
      OneEventIsOnePoint(log, e, from + step, end, step);
      OneStepLess(e.timestamp - from, step);
    }
  }

  lemma OneStepLess(x: nat, step: nat)
    requires step > 0 && x >= step
    ensures x / step == (x - step) / step + 1 && ((x - step) / step + 1) * step == (x - step) / step * step + step
  {
    Division.AddMultiple(x - step, 1, step);
    Division.Add((x - step) / step, 1, step);
  }

  lemma {:induction false} PointsAfter(log: seq<UsageEvent>, e: UsageEvent, from: int, end: int, step: int)
    requires log == [e] && step > 0 && e.timestamp < from
    ensures Points(log, EventKey(e), from, end, step) == []
    decreases end - from
  {
    if from < end {
      WindowEdges(log, e, from, from + step);
      PointsAfter(log, e, from + step, end, step);
    }
  }

  /** An event is stored iff it names a customer and a resource; the customer is missed first. */
  lemma StoredIff(log: seq<UsageEvent>, e: UsageEvent)
    ensures Logged(log, e) == log + [e] <==> e.customerId != [] && e.resourceType != []
    ensures Logged(log, e) == log <==> e.customerId == [] || e.resourceType == []
    ensures InsertError(e) == Some(CustomerRequired) <==> e.customerId == []
    ensures InsertError(e) == Some(ResourceRequired) <==> e.customerId != [] && e.resourceType == []
  {
    assert |log + [e]| == |log| + 1;
  }
}
