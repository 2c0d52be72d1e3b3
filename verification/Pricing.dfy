/** What usage costs: prices, discounts and credits, from recorded quantities to the total of an invoice. */
module Pricing {
  import opened Invoicing
  import opened LineSelection
  import opened Metering
  import opened Wrappers

  // ------------------------------------------------------------- the rates

  /** The fallback price list. */
  lemma PriceList()
    ensures Price("cpu_hours") == 0.025 && Price("memory_gb_hours") == 0.005
    ensures Price("storage_gb") == 0.1 && Price("bandwidth_gb") == 0.08
    ensures Price("database_gb") == 0.15 && Price("requests") == 0.0000002
  {
    assert "cpu_hours"[0] != "requests"[0] && "memory_gb_hours"[0] != "requests"[0];
    assert "cpu_hours"[0] != "memory_gb_hours"[0] && "cpu_hours"[0] != "storage_gb"[0];
    assert "cpu_hours"[0] != "bandwidth_gb"[0] && "cpu_hours"[0] != "database_gb"[0];
    assert "memory_gb_hours"[0] != "storage_gb"[0] && "memory_gb_hours"[0] != "bandwidth_gb"[0];
    assert "memory_gb_hours"[0] != "database_gb"[0] && "storage_gb"[0] != "bandwidth_gb"[0];
    assert "storage_gb"[0] != "database_gb"[0] && "storage_gb"[0] != "requests"[0];
    assert "bandwidth_gb"[0] != "database_gb"[0] && "bandwidth_gb"[0] != "requests"[0];
    assert "database_gb"[0] != "requests"[0];
  }

  /** A resource that is not on the list costs one cent a unit. */
  lemma UnlistedPrice(resource: string)
    requires resource !in ["cpu_hours", "memory_gb_hours", "storage_gb", "bandwidth_gb", "database_gb", "requests"]
    ensures Price(resource) == 0.01
  {
    var listed := ["cpu_hours", "memory_gb_hours", "storage_gb", "bandwidth_gb", "database_gb", "requests"];
    assert listed[0] in listed && listed[1] in listed && listed[2] in listed;
    assert listed[3] in listed && listed[4] in listed && listed[5] in listed;
  }

  /** What each tier pays of a cost. */
  ghost predicate AfterDiscount(subtotal: real, cost: real, tier: Tier) {
    match tier
    case Free => subtotal == cost
    case Starter => subtotal == 0.95 * cost
    case Growth => subtotal == 0.9 * cost
    case Enterprise => subtotal == 0.8 * cost
    case Custom => subtotal == 0.85 * cost
  }

  // ------------------------------------------------------ lines and subtotals

  /** Every line costs its quantity times the price of its resource. */
  lemma {:induction false} LinesArePriced(
    log: seq<UsageEvent>, customer: string, types: seq<string>, start: int, end: int, i: nat)
    requires i < |UsageLines(log, customer, types, start, end)|
    ensures var l := UsageLines(log, customer, types, start, end)[i];
      && l.amount == l.quantity * l.unitPrice && l.unitPrice == Price(l.resourceType)
      && l.resourceType in types && l.quantity == LineQuantity(log, customer, l.resourceType, start, end) > 0.0
  {
    var front := types[..|types| - 1];
    if i < |UsageLines(log, customer, front, start, end)| {
      LinesArePriced(log, customer, front, start, end, i);
    }
  }

  function Cost(log: seq<UsageEvent>, customer: string, types: seq<string>, from: int, to: int): real {
    if types == [] then 0.0
    else
      var t := types[|types| - 1];
      Cost(log, customer, types[..|types| - 1], from, to) + WindowSum(log, Key(customer, t), from, to) * Price(t)
  }

  /** The lines together cost the price of the usage that each of them selects. */
  lemma {:induction false} LinesCost(log: seq<UsageEvent>, customer: string, types: seq<string>, start: int, end: int)
    requires NonNegative(log)
    ensures Amounts(UsageLines(log, customer, types, start, end)) ==
      Cost(log, customer, types, start, Cover(start, end, Duration(Month)))
  {
    if types != [] {
      var front, t := types[..|types| - 1], types[|types| - 1];
      LinesCost(log, customer, front, start, end);
      QueryIsExact(log, Key(customer, t), start, end, Duration(Month));
      TotalIsNonNegative(log, Key(customer, t), start, end, Duration(Month));
      var q := LineQuantity(log, customer, t, start, end);
      AmountsPush(UsageLines(log, customer, front, start, end), LineItem(t, q, Price(t), q * Price(t)));
    }
  }

  /** A usage summary comes to what the tier pays of its lines. */
  lemma SubtotalAfterDiscount(lines: seq<LineItem>, tier: Tier)
    ensures AfterDiscount(Discounted(lines, tier).subtotal, Amounts(lines), tier)
  {
  }

  /** It lists the lines, and behind them what the tier is let off, if that is anything, as one item without a price. */
  lemma DiscountIsLast(lines: seq<LineItem>, tier: Tier)
    ensures Discounted(lines, tier).lines == lines +
      if tier == Free then [] else [LineItem("discount", 1.0, 0.0, -(Amounts(lines) * Discount(tier)))]
  {
    assert lines + [] == lines;
  }

  // -------------------------------------------------------------- end to end

  /** What `GetUsage` returns for a customer of the tier. */
  ghost predicate Summarizes(
    usage: UsageSummary, log: seq<UsageEvent>, customer: string, tier: Tier, start: int, end: int)
  {
    exists keys :: Lists(keys, log, customer) &&
                   usage == Discounted(UsageLines(log, customer, TypesOf(keys), start, end), tier)
  }

  /** The customer pays the tier's part of what the lines select. */
  lemma SummaryCosts(usage: UsageSummary, log: seq<UsageEvent>, customer: string, tier: Tier, start: int, end: int)
    returns (keys: seq<string>)
    requires Summarizes(usage, log, customer, tier, start, end) && NonNegative(log)
    ensures Lists(keys, log, customer)
    ensures AfterDiscount(
      usage.subtotal, Cost(log, customer, TypesOf(keys), start, Cover(start, end, Duration(Month))), tier)
  {
    keys :| Lists(keys, log, customer) &&
      usage == Discounted(UsageLines(log, customer, TypesOf(keys), start, end), tier);
    LinesCost(log, customer, TypesOf(keys), start, end);
    SubtotalAfterDiscount(UsageLines(log, customer, TypesOf(keys), start, end), tier);
  }

  lemma OneKey(keys: seq<string>, log: seq<UsageEvent>, e: UsageEvent)
    requires log == [e] && Lists(keys, log, e.customerId)
    ensures keys == [EventKey(e)]
  {
    assert log[..0] == [];
    PrefixOfOwnKey(e.customerId, [], e.resourceType);
    forall k: string ensures k in keys <==> k == EventKey(e) {
      assert EventsAt(log, k) != [] <==> k == EventKey(e);
    }
    assert keys != [] by { assert EventKey(e) in keys; }
    assert |keys| > 1 ==> keys[0] != keys[1];
    forall i | 0 <= i < |keys| ensures keys[i] == EventKey(e) {
      assert keys[i] in keys;
    }
    if |keys| > 1 {
      assert false;
    }
  }

  lemma OneType(keys: seq<string>, e: UsageEvent)
    requires keys == [EventKey(e)] && ColonFree(e.customerId) && ColonFree(e.resourceType)
    ensures TypesOf(keys) == [e.resourceType]
  {
    var k := EventKey(e);
    PrefixOfOwnKey(e.customerId, [], e.resourceType);
    FieldAfterCustomer(e.customerId, k);
    assert k[|e.customerId| + 1..] == e.resourceType;
    FieldBegins(e.resourceType);
    assert keys[..0] == [] && TypesOf(keys[..0]) == [];
    assert TypesOf(keys) == TypesOf(keys[..0]) + [e.resourceType];
  }

  lemma CostOfOne(log: seq<UsageEvent>, types: seq<string>, e: UsageEvent, from: int, to: int)
    requires log == [e] && types == [e.resourceType] && from <= e.timestamp < to
    ensures Cost(log, e.customerId, types, from, to) == e.quantity * Price(e.resourceType)
  {
    assert log[..0] == [] && types[..0] == [];
    PrefixOfOwnKey(e.customerId, e.resourceType, e.resourceType);
    assert WindowSum(log[..0], EventKey(e), from, to) == 0.0;
    assert Cost(log, e.customerId, types[..0], from, to) == 0.0;
  }

  /** One event in the period costs its quantity at the price of its resource, less the tier's discount. */
  lemma OneEventCosts(usage: UsageSummary, log: seq<UsageEvent>, e: UsageEvent, tier: Tier, start: int, end: int)
    requires log == [e] && Summarizes(usage, log, e.customerId, tier, start, end)
    requires start <= e.timestamp < end && e.quantity >= 0.0 && ColonFree(e.customerId) && ColonFree(e.resourceType)
    ensures AfterDiscount(usage.subtotal, e.quantity * Price(e.resourceType), tier)
  {
    var keys := SummaryCosts(usage, log, e.customerId, tier, start, end);
    OneKey(keys, log, e);
    OneType(keys, e);
    CostOfOne(log, TypesOf(keys), e, start, Cover(start, end, Duration(Month)));
  }

  /** q CPU hours come to 0.025 q, of which an enterprise customer pays 0.02 q. */
  lemma CpuHoursCost(usage: UsageSummary, log: seq<UsageEvent>, e: UsageEvent, tier: Tier, start: int, end: int)
    requires log == [e] && Summarizes(usage, log, e.customerId, tier, start, end)
    requires start <= e.timestamp < end && e.quantity >= 0.0 && ColonFree(e.customerId)
    requires e.resourceType == "cpu_hours"
    ensures tier == Free ==> usage.subtotal == 0.025 * e.quantity
    ensures tier == Enterprise ==> usage.subtotal == 0.02 * e.quantity
  {
    assert ColonFree("cpu_hours");
    OneEventCosts(usage, log, e, tier, start, end);
  }

  /** Credits are cents: an invoice comes to its subtotal less a hundredth of them, and never to less than nothing. */
  lemma TotalAfterCredits(invoice: Invoice, usage: UsageSummary, credits: int)
    requires Settles(invoice, usage, credits)
    ensures credits <= 0 ==> invoice.total == usage.subtotal
    ensures credits > 0 ==>
      invoice.total ==
        if 100.0 * usage.subtotal >= credits as real then usage.subtotal - credits as real / 100.0 else 0.0
  {
  }
}
