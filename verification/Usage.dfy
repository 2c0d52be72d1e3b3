/** Recording usage twice over: in the real-time counters and in the metrics store. */
module Usage {
  import opened Metering
  import opened Wrappers

  /** Customer to resource to amount. */
  type Counters = map<string, map<string, real>>

  datatype UsageError = EmptyCustomer | NegativeQuantity | Rejected(cause: MeteringError)

  /** One counter: customer and resource. */
  type Slot = (string, string)

  predicate Has(counters: Counters, slot: Slot) { slot.0 in counters && slot.1 in counters[slot.0] }

  function Pending(counters: Counters, slot: Slot): real {
    if Has(counters, slot) then counters[slot.0][slot.1] else 0.0
  }

  function Incremented(counters: Counters, slot: Slot, amount: real): Counters {
    var resources := if slot.0 in counters then counters[slot.0] else map[];
    counters[slot.0 := resources[slot.1 := (if slot.1 in resources then resources[slot.1] else 0.0) + amount]]
  }

  class RealtimeCounter {
    var counters: Counters

    constructor ()
      ensures counters == map[]
    {
      counters := map[];
    }

    method Increment(customer: string, resource: string, amount: real)
      modifies this
      ensures counters == Incremented(old(counters), (customer, resource), amount)
    {
      var resources := if customer in counters then counters[customer] else map[];
      resources := resources[resource := if resource in resources then resources[resource] + amount else amount];
      counters := counters[customer := resources];
    }

    method FlushAll() returns (all: Counters)
      modifies this
      ensures all == old(counters) && counters == map[]
    {
      all := counters;
      counters := map[];
    }
  }

  function RecordError(e: UsageEvent): Option<UsageError> {
    if e.customerId == [] then Some(EmptyCustomer)
    else if e.quantity < 0.0 then Some(NegativeQuantity)
    else None
  }

  function SlotOf(e: UsageEvent): Slot { (e.customerId, e.resourceType) }

  /** The store refuses a counter without a customer or without a resource name. */
  predicate Nameless(slot: Slot) { slot.0 == [] || slot.1 == [] }

  ghost predicate DistinctSlots(slots: seq<Slot>) {
    forall i, j | 0 <= i < j < |slots| :: slots[i] != slots[j]
  }

  /** The slots a flush visited: all of them if it succeeded, else up to the first nameless one. */
  ghost predicate Visits(counters: Counters, slots: seq<Slot>, ok: bool) {
    && DistinctSlots(slots)
    && (forall i | 0 <= i < |slots| :: Has(counters, slots[i]))
    && (ok ==> forall s: Slot | Has(counters, s) :: s in slots)
    && (ok ==> forall i | 0 <= i < |slots| :: !Nameless(slots[i]))
    && (!ok ==> |slots| > 0 && Nameless(slots[|slots| - 1]) && forall i | 0 <= i < |slots| - 1 :: !Nameless(slots[i]))
  }

  function Inserted(slots: seq<Slot>, ok: bool): seq<Slot> {
    if ok || slots == [] then slots else slots[..|slots| - 1]
  }

  function FlushEvents(counters: Counters, slots: seq<Slot>, now: int): seq<UsageEvent> {
    if slots == [] then []
    else
      var s := slots[|slots| - 1];
      FlushEvents(counters, slots[..|slots| - 1], now) + [UsageEvent(s.0, s.1, Pending(counters, s), now)]
  }

  class UsageMeter {
    const metrics: MetricsStore
    const counter: RealtimeCounter

    ghost predicate Valid()
      reads metrics
    {
      metrics.Valid()
    }

    constructor ()
      ensures Valid() && fresh(metrics) && fresh(counter)
      ensures metrics.log == [] && counter.counters == map[]
    {
      metrics := new MetricsStore();
      counter := new RealtimeCounter();
    }

    method RecordUsage(e: UsageEvent) returns (r: Result<(), UsageError>)
      requires Valid()
      modifies metrics, counter
      ensures Valid()
      ensures RecordError(e).Some? ==> r == Err(RecordError(e).value)
      ensures RecordError(e).None? ==> r == if e.resourceType == [] then Err(Rejected(ResourceRequired)) else Ok(())
      ensures metrics.log == if RecordError(e).Some? then old(metrics.log) else Logged(old(metrics.log), e)
      ensures counter.counters == if RecordError(e).Some? then old(counter.counters)
        else Incremented(old(counter.counters), SlotOf(e), e.quantity)
    {
      if e.customerId == [] {
        return Err(EmptyCustomer);
      }
      if e.quantity < 0.0 {
        return Err(NegativeQuantity);
      }
      counter.Increment(e.customerId, e.resourceType, e.quantity);
      var inserted := metrics.Insert(e);
      if inserted.Err? {
        return Err(Rejected(inserted.error));
      }
      return Ok(());
    }

    /** Moves every counter into the store, customers and resources in arbitrary order. */
    method FlushCounters(now: int) returns (r: Result<(), UsageError>, ghost slots: seq<Slot>)
      requires Valid()
      modifies metrics, counter
      ensures Valid()
      ensures counter.counters == map[]
      ensures Visits(old(counter.counters), slots, r.Ok?)
      ensures metrics.log == old(metrics.log) + FlushEvents(old(counter.counters), Inserted(slots, r.Ok?), now)
      ensures r.Ok? <==> forall s: Slot | Has(old(counter.counters), s) :: !Nameless(s)
    {
      var all := counter.FlushAll();
      slots := [];
      var customers := all.Keys;
      r := Ok(());
      assert metrics.log + [] == metrics.log;
      while customers != {}
        invariant Valid() && customers <= all.Keys && counter.counters == map[] && r.Ok?
        invariant VisitedAll(all, slots, customers)
        invariant metrics.log == old(metrics.log) + FlushEvents(all, slots, now)
        decreases customers
      {
        var c :| c in customers;
        assert customers == (customers - {c}) + {c};
        customers := customers - {c};
        r, slots := FlushCustomer(all, c, now, slots, customers, old(metrics.log));
        if r.Err? {
          return;
        }
      }
    }

    /** The loop over one customer's counters. */
    method FlushCustomer(all: Counters, c: string, now: int, ghost before: seq<Slot>, ghost left: set<string>,
                         ghost was: seq<UsageEvent>)
      returns (r: Result<(), UsageError>, ghost slots: seq<Slot>)
      requires Valid() && c in all && c !in left
      requires VisitedAll(all, before, left + {c})
      requires metrics.log == was + FlushEvents(all, before, now)
      modifies metrics
      ensures Valid()
      ensures r.Ok? ==> VisitedAll(all, slots, left)
      ensures r.Err? ==> Visits(all, slots, false)
      ensures metrics.log == was + FlushEvents(all, Inserted(slots, r.Ok?), now)
    {
      slots := before;
      var resources := all[c].Keys;
      while resources != {}
        invariant Valid() && resources <= all[c].Keys && VisitedExactly(all, slots, left, c, resources)
        invariant metrics.log == was + FlushEvents(all, slots, now)
        decreases resources
      {
        var resource :| resource in resources;
        FlushPush(all, slots, (c, resource), now);
        assert was + FlushEvents(all, slots + [(c, resource)], now)
            == (was + FlushEvents(all, slots, now)) + [UsageEvent(c, resource, all[c][resource], now)];
        var inserted := metrics.Insert(UsageEvent(c, resource, all[c][resource], now));
        ghost var visited := slots;
        slots := slots + [(c, resource)];
        VisitOne(all, visited, left, c, resources, resource);
        if inserted.Err? {
          assert slots[..|visited|] == visited;
          return Err(Rejected(inserted.error)), slots;
        }
        resources := resources - {resource};
      }
      r := Ok(());
    }
  }

  ghost predicate VisitedAll(all: Counters, slots: seq<Slot>, left: set<string>) {
    Clean(all, slots) && forall s: Slot :: s in slots <==> Has(all, s) && s.0 !in left
  }

  /** The counters visited are those of no customer still to come, less the given resources of customer c. */
  ghost predicate VisitedExactly(
    all: Counters, slots: seq<Slot>, left: set<string>, c: string, resources: set<string>)
  {
    && Clean(all, slots)
    && forall s: Slot :: s in slots <==> Has(all, s) && s.0 !in left && !(s.0 == c && s.1 in resources)
  }

  lemma VisitOne(
    all: Counters, slots: seq<Slot>, left: set<string>, c: string, resources: set<string>, resource: string)
    requires VisitedExactly(all, slots, left, c, resources)
    requires c in all && c !in left && resource in resources && resources <= all[c].Keys
    ensures if Nameless((c, resource)) then Visits(all, slots + [(c, resource)], false)
            else VisitedExactly(all, slots + [(c, resource)], left, c, resources - {resource})
  {
    var s: Slot := (c, resource);
    assert s !in slots && Has(all, s);
    assert forall x: Slot :: x in slots + [s] <==> x in slots || x == s;
  }

  lemma FlushPush(counters: Counters, slots: seq<Slot>, s: Slot, now: int)
    ensures FlushEvents(counters, slots + [s], now)
      == FlushEvents(counters, slots, now) + [UsageEvent(s.0, s.1, Pending(counters, s), now)]
  {
    assert (slots + [s])[..|slots|] == slots;
  }

  ghost predicate Clean(counters: Counters, slots: seq<Slot>) {
    && DistinctSlots(slots)
    && forall i | 0 <= i < |slots| :: Has(counters, slots[i]) && !Nameless(slots[i])
  }

  // ------------------------------------------------------------- the ledger

  datatype Ledger = Ledger(counters: Counters, log: seq<UsageEvent>)

  datatype Op = Record(event: UsageEvent) | Flush(now: int, slots: seq<Slot>, ok: bool)

  function After(l: Ledger, op: Op): Ledger {
    match op
    case Record(e) =>
      if RecordError(e).Some? then l
      else Ledger(Incremented(l.counters, SlotOf(e), e.quantity), Logged(l.log, e))
    case Flush(now, slots, ok) =>
      Ledger(map[], l.log + FlushEvents(l.counters, Inserted(slots, ok), now))
  }

  function Run(ops: seq<Op>): Ledger {
    if ops == [] then Ledger(map[], []) else After(Run(ops[..|ops| - 1]), ops[|ops| - 1])
  }

  /** Each flush visits the counters as `FlushCounters` does, in whatever order. */
  ghost predicate Possible(ops: seq<Op>) {
    ops != [] ==>
      var front, last := ops[..|ops| - 1], ops[|ops| - 1];
      Possible(front) && (last.Flush? ==> Visits(Run(front).counters, last.slots, last.ok))
  }

  function RecordedBy(op: Op, slot: Slot): real {
    if op.Record? && RecordError(op.event).None? && SlotOf(op.event) == slot then op.event.quantity else 0.0
  }

  /** The quantity of all recorded usage of the slot. */
  function Recorded(ops: seq<Op>, slot: Slot): real {
    if ops == [] then 0.0 else Recorded(ops[..|ops| - 1], slot) + RecordedBy(ops[|ops| - 1], slot)
  }

  function FlushedBy(l: Ledger, op: Op, slot: Slot): real {
    if op.Flush? && slot in Inserted(op.slots, op.ok) then Pending(l.counters, slot) else 0.0
  }

  /** What flushes moved from the slot's counter into the store. */
  function Flushed(ops: seq<Op>, slot: Slot): real {
    if ops == [] then 0.0
    else Flushed(ops[..|ops| - 1], slot) + FlushedBy(Run(ops[..|ops| - 1]), ops[|ops| - 1], slot)
  }

  function DroppedBy(l: Ledger, op: Op, slot: Slot): real {
    if op.Flush? && slot !in Inserted(op.slots, op.ok) then Pending(l.counters, slot) else 0.0
  }

  /** What failing flushes cleared from the slot's counter without storing it. */
  function Dropped(ops: seq<Op>, slot: Slot): real {
    if ops == [] then 0.0
    else Dropped(ops[..|ops| - 1], slot) + DroppedBy(Run(ops[..|ops| - 1]), ops[|ops| - 1], slot)
  }

  function Stored(log: seq<UsageEvent>, slot: Slot): real {
    if log == [] then 0.0
    else Stored(log[..|log| - 1], slot) + (if SlotOf(log[|log| - 1]) == slot then log[|log| - 1].quantity else 0.0)
  }

  lemma {:induction false} StoredAppend(a: seq<UsageEvent>, b: seq<UsageEvent>, slot: Slot)
    ensures Stored(a + b, slot) == Stored(a, slot) + Stored(b, slot)
  {
    if b == [] {
      assert a + b == a;
    } else {
      StoredAppend(a, b[..|b| - 1], slot);
      assert (a + b)[..|a + b| - 1] == a + b[..|b| - 1];
    }
  }

  lemma StoredPush(log: seq<UsageEvent>, e: UsageEvent, slot: Slot)
    ensures Stored(log + [e], slot) == Stored(log, slot) + if SlotOf(e) == slot then e.quantity else 0.0
  {
    assert (log + [e])[..|log|] == log;
  }

  lemma {:induction false} FlushEventsStore(counters: Counters, slots: seq<Slot>, now: int, slot: Slot)
    requires DistinctSlots(slots)
    ensures Stored(FlushEvents(counters, slots, now), slot) == if slot in slots then Pending(counters, slot) else 0.0
  {
    if slots != [] {
      var front, last := slots[..|slots| - 1], slots[|slots| - 1];
      FlushEventsStore(counters, front, now, slot);
      var e := UsageEvent(last.0, last.1, Pending(counters, last), now);
      StoredPush(FlushEvents(counters, front, now), e, slot);
      assert slots == front + [last];
      assert slot in slots <==> slot in front || slot == last;
      assert slot == last ==> slot !in front;
    }
  }

  /** One step: the counter's change and the store's change, in terms of what was recorded and flushed. */
  lemma StepBalances(l: Ledger, op: Op, slot: Slot)
    requires op.Flush? ==> Visits(l.counters, op.slots, op.ok)
    ensures Pending(After(l, op).counters, slot) + FlushedBy(l, op, slot) + DroppedBy(l, op, slot)
         == Pending(l.counters, slot) + RecordedBy(op, slot)
    ensures Stored(After(l, op).log, slot)
         == Stored(l.log, slot) + FlushedBy(l, op, slot) + if slot.1 == [] then 0.0 else RecordedBy(op, slot)
  {
    match op
    case Record(e) =>
      if RecordError(e).None? {
        StoredPush(l.log, e, slot);
      }
    case Flush(now, slots, ok) =>
      var inserted := Inserted(slots, ok);
      StoredAppend(l.log, FlushEvents(l.counters, inserted, now), slot);
      FlushEventsStore(l.counters, inserted, now, slot);
  }

  /** Over any run, per customer and resource: recorded = pending + flushed + dropped, and the store
      holds the recorded usage and, on top of it, everything flushed. */
  lemma {:induction false} LedgerBalances(ops: seq<Op>, slot: Slot)
    requires Possible(ops)
    ensures Recorded(ops, slot) == Pending(Run(ops).counters, slot) + Flushed(ops, slot) + Dropped(ops, slot)
    ensures Stored(Run(ops).log, slot) == (if slot.1 == [] then 0.0 else Recorded(ops, slot)) + Flushed(ops, slot)
  {
    if ops != [] {
      LedgerBalances(ops[..|ops| - 1], slot);
      StepBalances(Run(ops[..|ops| - 1]), ops[|ops| - 1], slot);
    }
  }

  /** Every event of the run names its resource. */
  ghost predicate AllNamed(ops: seq<Op>) {
    forall i | 0 <= i < |ops| && ops[i].Record? :: ops[i].event.resourceType != []
  }

  lemma {:induction false} NamedCounters(ops: seq<Op>, slot: Slot)
    requires AllNamed(ops) && Has(Run(ops).counters, slot)
    ensures !Nameless(slot)
  {
    if ops != [] {
      var l, op := Run(ops[..|ops| - 1]), ops[|ops| - 1];
      if Has(l.counters, slot) {
        NamedCounters(ops[..|ops| - 1], slot);
      } else {
        assert op.Record? && SlotOf(op.event) == slot;
      }
    }
  }

  lemma {:induction false} NamedRunsDropNothing(ops: seq<Op>, slot: Slot)
    requires Possible(ops) && AllNamed(ops)
    ensures Dropped(ops, slot) == 0.0
  {
    if ops != [] {
      var front, op := ops[..|ops| - 1], ops[|ops| - 1];
      NamedRunsDropNothing(front, slot);
      if op.Flush? {
        FlushesEverything(front, op, slot);
      }
    }
  }

  lemma FlushesEverything(ops: seq<Op>, op: Op, slot: Slot)
    requires AllNamed(ops) && op.Flush? && Visits(Run(ops).counters, op.slots, op.ok)
    ensures DroppedBy(Run(ops), op, slot) == 0.0
  {
    if !op.ok {
      NamedCounters(ops, op.slots[|op.slots| - 1]);
      assert false;
    }
  }

  /** With every resource named: what was recorded is pending or flushed, and the store has counted
      the flushed part twice. */
  lemma FlushedUsageIsStoredTwice(ops: seq<Op>, slot: Slot)
    requires Possible(ops) && AllNamed(ops) && slot.1 != []
    ensures Recorded(ops, slot) == Pending(Run(ops).counters, slot) + Flushed(ops, slot)
    ensures Stored(Run(ops).log, slot) == Recorded(ops, slot) + Flushed(ops, slot)
    ensures Stored(Run(ops).log, slot) == 2.0 * Recorded(ops, slot) - Pending(Run(ops).counters, slot)
  {
    LedgerBalances(ops, slot);
    NamedRunsDropNothing(ops, slot);
  }

  /** One nameless event makes a flush lose another resource's counter. */
  lemma NamelessEventLosesOthers(customer: string, resource: string, amount: real)
    requires customer != [] && resource != [] && amount >= 0.0
    ensures var ops := [Record(UsageEvent(customer, resource, amount, 0)),
                        Record(UsageEvent(customer, [], 0.0, 0)),
                        Flush(1, [(customer, [])], false)];
      Possible(ops) && Dropped(ops, (customer, resource)) == amount
  {
    var slot: Slot := (customer, resource);
    var first, second := UsageEvent(customer, resource, amount, 0), UsageEvent(customer, [], 0.0, 0);
    var ops := [Record(first), Record(second), Flush(1, [(customer, [])], false)];
    assert ops[..2] == [Record(first), Record(second)];
    assert [Record(first), Record(second)][..1] == [Record(first)] && [Record(first)][..0] == [];
    var none: seq<Op> := [];
    var l1 := Run([Record(first)]);
    var l2 := Run([Record(first), Record(second)]);
    assert l1 == After(Run(none), Record(first)) && l2 == After(l1, Record(second));
    assert Pending(l2.counters, slot) == amount;
    assert Has(l2.counters, (customer, []));
    assert Possible(none) && Possible([Record(first)]) && Possible([Record(first), Record(second)]);
    assert Dropped(none, slot) == 0.0 && Dropped([Record(first)], slot) == 0.0;
    assert Dropped([Record(first), Record(second)], slot) == 0.0;
  }

  /** A flush of these counters can leave a named one out of the store iff they hold a nameless one: then some order
      of the walk meets the nameless counter first. */
  lemma FlushLosesIff(counters: Counters, slot: Slot)
    requires Has(counters, slot) && !Nameless(slot)
    ensures (exists slots, ok :: Visits(counters, slots, ok) && slot !in Inserted(slots, ok)) <==>
      exists s: Slot :: Has(counters, s) && Nameless(s)
  {
    if s: Slot :| Has(counters, s) && Nameless(s) {
      assert Visits(counters, [s], false) && slot !in Inserted([s], false);
    }
    if slots, ok :| Visits(counters, slots, ok) && slot !in Inserted(slots, ok) {
      assert !ok;
      assert Has(counters, slots[|slots| - 1]);
    }
  }

  lemma IncrementedSlot(counters: Counters, slot: Slot, amount: real, s: Slot)
    ensures Has(Incremented(counters, slot, amount), s) <==> Has(counters, s) || s == slot
    ensures Pending(Incremented(counters, slot, amount), s) == Pending(counters, s) + if s == slot then amount else 0.0
  {
  }

  /** An event without a resource name, which the store refuses, was added to a counter since the last flush. */
  predicate NamelessSinceFlush(ops: seq<Op>) {
    ops != [] &&
    match ops[|ops| - 1]
    case Record(e) => NamelessSinceFlush(ops[..|ops| - 1]) || (RecordError(e).None? && e.resourceType == [])
    case Flush(_, _, _) => false
  }

  lemma {:induction false} NamelessCounterIff(ops: seq<Op>)
    ensures (exists s: Slot :: Has(Run(ops).counters, s) && Nameless(s)) <==> NamelessSinceFlush(ops)
  {
    if ops != [] {
      var front, op := ops[..|ops| - 1], ops[|ops| - 1];
      NamelessCounterIff(front);
      if op.Record? && RecordError(op.event).None? {
        var before, after := Run(front).counters, Run(ops).counters;
        forall s: Slot ensures Has(after, s) <==> Has(before, s) || s == SlotOf(op.event) {
          IncrementedSlot(before, SlotOf(op.event), op.event.quantity, s);
        }
        assert Nameless(SlotOf(op.event)) <==> op.event.resourceType == [];
        assert Has(after, SlotOf(op.event));
      } else {
        assert op.Record? ==> Run(ops) == Run(front);
      }
    }
  }

  /** Over any run: the next flush can lose a named counter iff a counter took an event without a resource name since
      the last. */
  lemma NextFlushLosesIff(ops: seq<Op>, slot: Slot)
    requires Has(Run(ops).counters, slot) && !Nameless(slot)
    ensures (exists slots, ok :: Visits(Run(ops).counters, slots, ok) && slot !in Inserted(slots, ok)) <==>
      NamelessSinceFlush(ops)
  {
    FlushLosesIff(Run(ops).counters, slot);
    NamelessCounterIff(ops);
  }

  // ------------------------------------------------ quantities stay nonnegative

  ghost predicate NoneNegative(counters: Counters) {
    forall s: Slot | Has(counters, s) :: Pending(counters, s) >= 0.0
  }

  lemma {:induction false} FlushedIsNonNegative(counters: Counters, slots: seq<Slot>, now: int)
    requires NoneNegative(counters)
    ensures NonNegative(FlushEvents(counters, slots, now))
  {
    if slots != [] {
      FlushedIsNonNegative(counters, slots[..|slots| - 1], now);
    }
  }

  /** The store of every run holds only nonnegative quantities. */
  lemma {:induction false} RunIsNonNegative(ops: seq<Op>)
    ensures NonNegative(Run(ops).log) && NoneNegative(Run(ops).counters)
  {
    if ops != [] {
      var l, op := Run(ops[..|ops| - 1]), ops[|ops| - 1];
      RunIsNonNegative(ops[..|ops| - 1]);
      match op
      case Flush(now, slots, ok) =>
        FlushedIsNonNegative(l.counters, Inserted(slots, ok), now);
        assert Run(ops).log == l.log + FlushEvents(l.counters, Inserted(slots, ok), now);
      case Record(e) =>
        if RecordError(e).None? {
          forall s: Slot | Has(Run(ops).counters, s) ensures Pending(Run(ops).counters, s) >= 0.0 {
            IncrementedSlot(l.counters, SlotOf(e), e.quantity, s);
          }
        }
    }
  }

  // ---------------------------------------------------------- what is recorded

  /** A usage event is refused iff it names no customer or its quantity is negative, in that order. */
  lemma RefusedIff(e: UsageEvent)
    ensures RecordError(e) == Some(EmptyCustomer) <==> e.customerId == []
    ensures RecordError(e) == Some(NegativeQuantity) <==> e.customerId != [] && e.quantity < 0.0
    ensures RecordError(e) == None <==> e.customerId != [] && e.quantity >= 0.0
  {
  }

  /** A flush stores the counters it visits, one event each, at the time of the flush. */
  lemma {:induction false} FlushedAtOnce(counters: Counters, slots: seq<Slot>, now: int, i: nat)
    requires i < |slots|
    ensures |FlushEvents(counters, slots, now)| == |slots|
    ensures FlushEvents(counters, slots, now)[i] ==
      UsageEvent(slots[i].0, slots[i].1, Pending(counters, slots[i]), now)
  {
    if |slots| > 1 {
      FlushedAtOnce(counters, slots[..|slots| - 1], now, if i < |slots| - 1 then i else 0);
    }
  }
}
