/** From recording to billing: what a usage line holds of the usage that was recorded. */
module UsageBilling {
  import opened Invoicing
  import opened Metering
  import opened Usage

  ghost predicate AllWithin(log: seq<UsageEvent>, from: int, to: int) {
    forall i | 0 <= i < |log| :: InWindow(log[i], from, to)
  }

  /** The slots of the stored usage whose keys begin with the prefix, each once. */
  function SlotsOfLine(log: seq<UsageEvent>, prefix: string): seq<Slot> {
    if log == [] then []
    else
      var front, s := SlotsOfLine(log[..|log| - 1], prefix), SlotOf(log[|log| - 1]);
      if prefix <= Key(s.0, s.1) && s !in front then front + [s] else front
  }

  /** The slots are distinct, and are those of the events whose keys begin with the prefix. */
  ghost predicate SlotsBehind(slots: seq<Slot>, log: seq<UsageEvent>, prefix: string) {
    && DistinctSlots(slots)
    && (forall i | 0 <= i < |log| :: SlotOf(log[i]) in slots <==> prefix <= EventKey(log[i]))
  }

  ghost predicate HoldsSlot(log: seq<UsageEvent>, slot: Slot) { exists i :: 0 <= i < |log| && SlotOf(log[i]) == slot }

  lemma HoldsSlotPush(log: seq<UsageEvent>, e: UsageEvent, slot: Slot)
    ensures HoldsSlot(log + [e], slot) <==> HoldsSlot(log, slot) || SlotOf(e) == slot
  {
    var all := log + [e];
    assert all[|log|] == e && forall i | 0 <= i < |log| :: all[i] == log[i];
  }

  lemma {:induction false} SlotsOfLineMember(log: seq<UsageEvent>, prefix: string)
    ensures DistinctSlots(SlotsOfLine(log, prefix))
    ensures forall s: Slot :: s in SlotsOfLine(log, prefix) <==> HoldsSlot(log, s) && prefix <= Key(s.0, s.1)
  {
    if log != [] {
      var front, last := log[..|log| - 1], log[|log| - 1];
      SlotsOfLineMember(front, prefix);
      assert front + [last] == log;
      forall s: Slot ensures HoldsSlot(log, s) <==> HoldsSlot(front, s) || SlotOf(last) == s {
        HoldsSlotPush(front, last, s);
      }
    }
  }

  lemma SlotsOfLineAreBehind(log: seq<UsageEvent>, prefix: string)
    ensures SlotsBehind(SlotsOfLine(log, prefix), log, prefix)
  {
    SlotsOfLineMember(log, prefix);
    forall i | 0 <= i < |log| ensures HoldsSlot(log, SlotOf(log[i])) {
    }
  }

  function StoredIn(log: seq<UsageEvent>, slots: seq<Slot>): real {
    if slots == [] then 0.0 else StoredIn(log, slots[..|slots| - 1]) + Stored(log, slots[|slots| - 1])
  }

  lemma {:induction false} StoredInNone(slots: seq<Slot>)
    ensures StoredIn([], slots) == 0.0
  {
    if slots != [] {
      StoredInNone(slots[..|slots| - 1]);
    }
  }

  lemma {:induction false} StoredInPush(log: seq<UsageEvent>, e: UsageEvent, slots: seq<Slot>)
    requires DistinctSlots(slots)
    ensures StoredIn(log + [e], slots) == StoredIn(log, slots) + if SlotOf(e) in slots then e.quantity else 0.0
  {
    if slots != [] {
      var front, last := slots[..|slots| - 1], slots[|slots| - 1];
      StoredInPush(log, e, front);
      StoredPush(log, e, last);
      assert slots == front + [last];
    }
  }

  /** A window over all events sums the stored usage of every slot the prefix selects. */
  lemma {:induction false} WindowHoldsStored(
    log: seq<UsageEvent>, slots: seq<Slot>, prefix: string, from: int, to: int)
    requires SlotsBehind(slots, log, prefix) && AllWithin(log, from, to)
    ensures WindowSum(log, prefix, from, to) == StoredIn(log, slots)
  {
    if log == [] {
      StoredInNone(slots);
    } else {
      var front, last := log[..|log| - 1], log[|log| - 1];
      assert last == log[|front|] && forall i | 0 <= i < |front| :: front[i] == log[i];
      WindowHoldsStored(front, slots, prefix, from, to);
      StoredInPush(front, last, slots);
      assert front + [last] == log;
    }
  }

  /** What was recorded for the slots and, once more, what was flushed from them. */
  function RecordedAndFlushed(ops: seq<Op>, slots: seq<Slot>): real {
    if slots == [] then 0.0
    else
      var last := slots[|slots| - 1];
      RecordedAndFlushed(ops, slots[..|slots| - 1]) + Recorded(ops, last) + Flushed(ops, last)
  }

  lemma {:induction false} StoredInRun(ops: seq<Op>, slots: seq<Slot>)
    requires Possible(ops) && forall i | 0 <= i < |slots| :: slots[i].1 != []
    ensures StoredIn(Run(ops).log, slots) == RecordedAndFlushed(ops, slots)
  {
    if slots != [] {
      StoredInRun(ops, slots[..|slots| - 1]);
      LedgerBalances(ops, slots[|slots| - 1]);
    }
  }

  ghost predicate AllStoredNamed(log: seq<UsageEvent>) { forall i | 0 <= i < |log| :: log[i].resourceType != [] }

  lemma {:induction false} FlushedIsNamed(counters: Counters, slots: seq<Slot>, now: int)
    requires forall i | 0 <= i < |slots| :: !Nameless(slots[i])
    ensures AllStoredNamed(FlushEvents(counters, slots, now))
  {
    if slots != [] {
      FlushedIsNamed(counters, slots[..|slots| - 1], now);
    }
  }

  /** The store of every run holds named usage only. */
  lemma {:induction false} RunIsNamed(ops: seq<Op>)
    requires Possible(ops)
    ensures AllStoredNamed(Run(ops).log)
  {
    if ops != [] {
      var l, op := Run(ops[..|ops| - 1]), ops[|ops| - 1];
      RunIsNamed(ops[..|ops| - 1]);
      if op.Flush? {
        FlushedIsNamed(l.counters, Inserted(op.slots, op.ok), op.now);
        assert Run(ops).log == l.log + FlushEvents(l.counters, Inserted(op.slots, op.ok), op.now);
      }
    }
  }

  lemma NamedSlots(log: seq<UsageEvent>, prefix: string)
    requires AllStoredNamed(log)
    ensures forall i | 0 <= i < |SlotsOfLine(log, prefix)| :: SlotsOfLine(log, prefix)[i].1 != []
  {
    SlotsOfLineMember(log, prefix);
    var slots := SlotsOfLine(log, prefix);
    forall i | 0 <= i < |slots| ensures slots[i].1 != [] {
      assert slots[i] in slots;
    }
  }

  /** After any run, a line over all of its time holds what was recorded and, once more, what was flushed, of every
      customer and resource whose key the line's own key begins. */
  lemma LineHoldsRecordedAndFlushed(ops: seq<Op>, customer: string, resource: string, start: int, end: int)
    requires Possible(ops) && AllWithin(Run(ops).log, start, Cover(start, end, Duration(Month)))
    ensures LineQuantity(Run(ops).log, customer, resource, start, end) ==
      RecordedAndFlushed(ops, SlotsOfLine(Run(ops).log, Key(customer, resource)))
  {
    var log, prefix, to := Run(ops).log, Key(customer, resource), Cover(start, end, Duration(Month));
    RunIsNonNegative(ops);
    RunIsNamed(ops);
    NamedSlots(log, prefix);
    SlotsOfLineAreBehind(log, prefix);
    QueryIsExact(log, prefix, start, end, Duration(Month));
    WindowHoldsStored(log, SlotsOfLine(log, prefix), prefix, start, to);
    StoredInRun(ops, SlotsOfLine(log, prefix));
  }

  /** So it holds its own usage only, if its key begins no other that was stored. */
  lemma LineHoldsItsOwn(ops: seq<Op>, slot: Slot, start: int, end: int)
    requires Possible(ops) && slot.1 != []
    requires var log := Run(ops).log;
      && AllWithin(log, start, Cover(start, end, Duration(Month)))
      && forall i | 0 <= i < |log| && Key(slot.0, slot.1) <= EventKey(log[i]) :: SlotOf(log[i]) == slot
    ensures LineQuantity(Run(ops).log, slot.0, slot.1, start, end) == Recorded(ops, slot) + Flushed(ops, slot)
  {
    var log, prefix := Run(ops).log, Key(slot.0, slot.1);
    RunIsNonNegative(ops);
    QueryIsExact(log, prefix, start, end, Duration(Month));
    WindowHoldsStored(log, [slot], prefix, start, Cover(start, end, Duration(Month)));
    StoredInRun(ops, [slot]);
    assert [slot][..0] == [];
  }
}
