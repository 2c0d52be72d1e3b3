/** Usage summaries and invoices over the in-memory store. */
module Invoicing {
  import opened Metering
  import opened Wrappers

  datatype Tier = Free | Starter | Growth | Enterprise | Custom

  datatype Customer = Customer(id: string, tier: Tier, credits: int)

  datatype LineItem = LineItem(resourceType: string, quantity: real, unitPrice: real, amount: real)

  datatype UsageSummary = UsageSummary(lines: seq<LineItem>, subtotal: real)

  datatype Invoice = Invoice(
    customerId: string, start: int, end: int, lines: seq<LineItem>,
    subtotal: real, creditApplied: real, total: real, dueDate: int)

  datatype BillingError = InvalidPeriod | CustomerNotFound

  function Discount(tier: Tier): (d: real)
    ensures 0.0 <= d <= 0.2
  {
    match tier
    case Free => 0.0
    case Starter => 0.05
    case Growth => 0.1
    case Enterprise => 0.2
    case Custom => 0.15
  }

  /** The fallback prices used without a database. */
  function Price(resource: string): (p: real)
    ensures p > 0.0
  {
    if resource == "cpu_hours" then 0.025
    else if resource == "memory_gb_hours" then 0.005
    else if resource == "storage_gb" then 0.1
    else if resource == "bandwidth_gb" then 0.08
    else if resource == "database_gb" then 0.15
    else if resource == "requests" then 0.0000002
    else 0.01
  }

  // --------------------------------------------------- resource types of a key

  function BeforeColon(s: string): string {
    if s == [] || s[0] == ':' then [] else [s[0]] + BeforeColon(s[1..])
  }

  function AfterColon(s: string): Option<string> {
    if s == [] then None else if s[0] == ':' then Some(s[1..]) else AfterColon(s[1..])
  }

  /** The second field of a key split at its colons. */
  function SecondField(key: string): Option<string> {
    match AfterColon(key)
    case None => None
    case Some(rest) => Some(BeforeColon(rest))
  }

  function TypesOf(keys: seq<string>): seq<string> {
    if keys == [] then []
    else
      var front := TypesOf(keys[..|keys| - 1]);
      match SecondField(keys[|keys| - 1])
      case Some(t) => front + [t]
      case None => front
  }

  /** An enumeration of the buffered keys that start with the customer's id and a colon. */
  ghost predicate Lists(keys: seq<string>, log: seq<UsageEvent>, customer: string) {
    && (forall i, j | 0 <= i < j < |keys| :: keys[i] != keys[j])
    && (forall k: string :: k in keys <==> EventsAt(log, k) != [] && customer + [':'] <= k)
  }

  /** Some buffered key of the customer has the name as its second field. */
  ghost predicate Typed(log: seq<UsageEvent>, customer: string, t: string) {
    exists k: string :: EventsAt(log, k) != [] && customer + [':'] <= k && SecondField(k) == Some(t)
  }

  lemma {:induction false} TypesMember(keys: seq<string>, t: string)
    ensures t in TypesOf(keys) <==> exists i :: 0 <= i < |keys| && SecondField(keys[i]) == Some(t)
  {
    if keys != [] {
      TypesMember(keys[..|keys| - 1], t);
    }
  }

  lemma ListedTypes(keys: seq<string>, log: seq<UsageEvent>, customer: string)
    requires Lists(keys, log, customer)
    ensures forall t: string :: t in TypesOf(keys) <==> Typed(log, customer, t)
  {
    forall t: string ensures t in TypesOf(keys) <==> Typed(log, customer, t) {
      TypesMember(keys, t);
      if t in TypesOf(keys) {
        var i :| 0 <= i < |keys| && SecondField(keys[i]) == Some(t);
        assert keys[i] in keys;
      }
      if Typed(log, customer, t) {
        var k: string :| EventsAt(log, k) != [] && customer + [':'] <= k && SecondField(k) == Some(t);
        var i :| 0 <= i < |keys| && keys[i] == k;
        assert SecondField(keys[i]) == Some(t);
      }
    }
  }

  // ------------------------------------------------------------- line items

  function LineQuantity(log: seq<UsageEvent>, customer: string, resource: string, start: int, end: int): real {
    Total(Points(log, Key(customer, resource), start, end, Duration(Month)))
  }

  /** No line for a resource without usage. */
  function LineFor(log: seq<UsageEvent>, customer: string, resource: string, start: int, end: int): Option<LineItem> {
    var q := LineQuantity(log, customer, resource, start, end);
    if q > 0.0 then Some(LineItem(resource, q, Price(resource), q * Price(resource))) else None
  }

  function UsageLines(log: seq<UsageEvent>, customer: string, types: seq<string>, start: int, end: int): seq<LineItem> {
    if types == [] then []
    else
      var front := UsageLines(log, customer, types[..|types| - 1], start, end);
      match LineFor(log, customer, types[|types| - 1], start, end)
      case Some(line) => front + [line]
      case None => front
  }

  lemma {:induction false} NextLine(
    log: seq<UsageEvent>, customer: string, types: seq<string>, i: nat, start: int, end: int)
    requires i < |types|
    ensures UsageLines(log, customer, types[..i + 1], start, end) ==
      match LineFor(log, customer, types[i], start, end)
      case Some(line) => UsageLines(log, customer, types[..i], start, end) + [line]
      case None => UsageLines(log, customer, types[..i], start, end)
  {
    assert types[..i + 1][..i] == types[..i];
  }

  function Amounts(lines: seq<LineItem>): real {
    if lines == [] then 0.0 else Amounts(lines[..|lines| - 1]) + lines[|lines| - 1].amount
  }

  function Quantities(lines: seq<LineItem>): real {
    if lines == [] then 0.0 else Quantities(lines[..|lines| - 1]) + lines[|lines| - 1].quantity
  }

  const DISCOUNT_LINE := "discount"

  function Discounted(lines: seq<LineItem>, tier: Tier): UsageSummary { Reduced(lines, Amounts(lines), Discount(tier)) }

  function Reduced(lines: seq<LineItem>, total: real, discount: real): UsageSummary {
    if discount > 0.0 then
      UsageSummary(lines + [LineItem(DISCOUNT_LINE, 1.0, 0.0, -(total * discount))], total - total * discount)
    else UsageSummary(lines, total)
  }

  function Max(a: real, b: real): real { if a >= b then a else b }

  class BillingSystem {
    const metrics: MetricsStore
    const paymentTerms: nat
    var customers: map<string, Customer>
    var invoices: seq<Invoice>

    constructor (metrics: MetricsStore, paymentTerms: nat)
      ensures this.metrics == metrics && this.paymentTerms == paymentTerms
      ensures customers == map[] && invoices == []
    {
      this.metrics, this.paymentTerms := metrics, paymentTerms;
      customers, invoices := map[], [];
    }

    method GetResourceTypes(customer: string) returns (types: seq<string>, ghost keys: seq<string>)
      requires metrics.Valid()
      ensures types == TypesOf(keys) && Lists(keys, metrics.log, customer)
      ensures forall t: string :: t in types <==> Typed(metrics.log, customer, t)
    {
      types, keys := [], [];
      var left := metrics.buffer.Keys;
      while left != {}
        invariant left <= metrics.buffer.Keys && types == TypesOf(keys)
        invariant forall i, j | 0 <= i < j < |keys| :: keys[i] != keys[j]
        invariant forall k: string :: k in keys <==> k in metrics.buffer && k !in left && customer + [':'] <= k
        decreases left
      {
        var key :| key in left;
        if customer + [':'] <= key {
          assert (keys + [key])[..|keys|] == keys;
          keys := keys + [key];
          var field := SecondField(key);
          if field.Some? {
            types := types + [field.value];
          }
        }
        left := left - {key};
      }
      forall k: string ensures k in keys <==> EventsAt(metrics.log, k) != [] && customer + [':'] <= k {
        assert k in metrics.buffer <==> EventsAt(metrics.log, k) != [];
      }
      ListedTypes(keys, metrics.log, customer);
    }

    method GetUsage(customer: string, start: int, end: int)
      returns (r: Result<UsageSummary, BillingError>, ghost keys: seq<string>)
      requires metrics.Valid()
      ensures start >= end ==> r == Err(InvalidPeriod)
      ensures start < end && (customer == [] || customer !in customers) ==> r == Err(CustomerNotFound)
      ensures start < end && customer != [] && customer in customers ==>
        && Lists(keys, metrics.log, customer)
        && r == Ok(Discounted(UsageLines(metrics.log, customer, TypesOf(keys), start, end), customers[customer].tier))
      ensures r.Ok? ==> r.value.subtotal == Amounts(r.value.lines) && r.value.subtotal >= 0.0
    {
      keys := [];
      if start >= end {
        return Err(InvalidPeriod), keys;
      }
      if customer == [] {
        return Err(CustomerNotFound), keys;
      }
      var types;
      types, keys := GetResourceTypes(customer);
      var lines, total := CollectLines(customer, types, start, end);
      if customer !in customers {
        return Err(CustomerNotFound), keys;
      }
      var usage := ApplyDiscount(lines, total, Discount(customers[customer].tier));
      UsageIsBalanced(metrics.log, customer, types, start, end, customers[customer].tier);
      return Ok(usage), keys;
    }

    /** The body of the loop over the resource types. */
    method PriceUsage(customer: string, resource: string, start: int, end: int) returns (line: Option<LineItem>)
      requires metrics.Valid() && start < end
      ensures line == LineFor(metrics.log, customer, resource, start, end)
    {
      var points := metrics.Query(customer, resource, start, end, Month);
      var quantity := Total(points.value);
      var price := Price(resource);
      if quantity > 0.0 {
        return Some(LineItem(resource, quantity, price, quantity * price));
      }
      return None;
    }

    /** The loop over the resource types. */
    method CollectLines(customer: string, types: seq<string>, start: int, end: int)
      returns (lines: seq<LineItem>, total: real)
      requires metrics.Valid() && start < end
      ensures lines == UsageLines(metrics.log, customer, types, start, end) && total == Amounts(lines)
    {
      lines, total := [], 0.0;
      for i := 0 to |types|
        invariant lines == UsageLines(metrics.log, customer, types[..i], start, end) && total == Amounts(lines)
      {
        NextLine(metrics.log, customer, types, i, start, end);
        var line := PriceUsage(customer, types[i], start, end);
        if line.Some? {
          AmountsPush(lines, line.value);
          lines, total := lines + [line.value], total + line.value.amount;
        }
      }
      assert types[..|types|] == types;
    }

    method GenerateInvoice(customer: string, start: int, end: int)
      returns (r: Result<Invoice, BillingError>, ghost keys: seq<string>)
      requires metrics.Valid()
      modifies this`invoices
      ensures customer !in customers ==> r == Err(CustomerNotFound)
      ensures customer in customers && start >= end ==> r == Err(InvalidPeriod)
      ensures customer in customers && start < end && customer == [] ==> r == Err(CustomerNotFound)
      ensures r.Err? ==> invoices == old(invoices)
      ensures customer in customers && start < end && customer != [] ==>
        && r.Ok? && invoices == old(invoices) + [r.value] && Lists(keys, metrics.log, customer)
        && r.value.customerId == customer && r.value.start == start && r.value.end == end
        && r.value.dueDate == end + paymentTerms * DAY
        && var lines := UsageLines(metrics.log, customer, TypesOf(keys), start, end);
           Settles(r.value, Discounted(lines, customers[customer].tier), customers[customer].credits)
    {
      keys := [];
      if customer !in customers {
        return Err(CustomerNotFound), keys;
      }
      var usage;
      usage, keys := GetUsage(customer, start, end);
      if usage.Err? {
        return Err(usage.error), keys;
      }
      var invoice := NewInvoice(customer, start, end, usage.value, customers[customer].credits);
      invoices := invoices + [invoice];
      return Ok(invoice), keys;
    }

    /** The invoice before it is stored. */
    method NewInvoice(customer: string, start: int, end: int, usage: UsageSummary, credits: int)
      returns (invoice: Invoice)
      requires usage.subtotal == Amounts(usage.lines) && usage.subtotal >= 0.0
      ensures invoice.customerId == customer && invoice.start == start && invoice.end == end
      ensures invoice.dueDate == end + paymentTerms * DAY
      ensures Settles(invoice, usage, credits)
    {
      var total, credit := ApplyCredits(usage.subtotal, credits);
      invoice := Invoice(customer, start, end, usage.lines, usage.subtotal, credit, total, end + paymentTerms * DAY);
      FiguresSettle(invoice, usage, credits);
    }
  }

  /** The discount line of the customer's tier. */
  method ApplyDiscount(lines: seq<LineItem>, total: real, discount: real) returns (usage: UsageSummary)
    ensures usage == Reduced(lines, total, discount)
  {
    if discount > 0.0 {
      var off := total * discount;
      return UsageSummary(lines + [LineItem(DISCOUNT_LINE, 1.0, 0.0, -off)], total - off);
    }
    return UsageSummary(lines, total);
  }

  function Available(credits: int): real { Max(0.0, credits as real / 100.0) }

  /** Credits are in cents. */
  method ApplyCredits(subtotal: real, credits: int) returns (total: real, credit: real)
    requires subtotal >= 0.0
    ensures total + credit == subtotal
    ensures total == Max(0.0, subtotal - Available(credits))
    ensures 0.0 <= credit <= Available(credits)
  {
    total, credit := subtotal, 0.0;
    if credits > 0 {
      var available := credits as real / 100.0;
      credit := if available <= total then available else total;
      total := total - credit;
    }
  }

  /** The invoice's figures against the usage and the customer's credits, in cents. */
  ghost predicate Settles(invoice: Invoice, usage: UsageSummary, credits: int) {
    && invoice.lines == usage.lines && invoice.subtotal == usage.subtotal == Amounts(invoice.lines)
    && invoice.total + invoice.creditApplied == invoice.subtotal
    && invoice.total == Max(0.0, invoice.subtotal - Available(credits))
    && 0.0 <= invoice.creditApplied <= Available(credits)
  }

  lemma FiguresSettle(invoice: Invoice, usage: UsageSummary, credits: int)
    requires invoice.lines == usage.lines && invoice.subtotal == usage.subtotal == Amounts(usage.lines)
    requires invoice.total + invoice.creditApplied == usage.subtotal
    requires invoice.total == Max(0.0, usage.subtotal - Available(credits))
    requires 0.0 <= invoice.creditApplied <= Available(credits)
    ensures Settles(invoice, usage, credits)
  {
  }

  lemma UsageIsBalanced(
    log: seq<UsageEvent>, customer: string, types: seq<string>, start: int, end: int, tier: Tier)
    ensures var usage := Discounted(UsageLines(log, customer, types, start, end), tier);
      usage.subtotal == Amounts(usage.lines) && usage.subtotal >= 0.0
  {
    DiscountedIsBalanced(UsageLines(log, customer, types, start, end), tier);
    LinesArePositive(log, customer, types, start, end);
  }

  lemma {:induction false} LinesArePositive(
    log: seq<UsageEvent>, customer: string, types: seq<string>, start: int, end: int)
    ensures Amounts(UsageLines(log, customer, types, start, end)) >= 0.0
  {
    if types != [] {
      var front := types[..|types| - 1];
      LinesArePositive(log, customer, front, start, end);
      var t := types[|types| - 1];
      var q := LineQuantity(log, customer, t, start, end);
      if q > 0.0 {
        assert q * Price(t) > 0.0;
        AmountsPush(UsageLines(log, customer, front, start, end), LineItem(t, q, Price(t), q * Price(t)));
      }
    }
  }

  lemma AmountsPush(lines: seq<LineItem>, line: LineItem)
    ensures Amounts(lines + [line]) == Amounts(lines) + line.amount
    ensures Quantities(lines + [line]) == Quantities(lines) + line.quantity
  {
    assert (lines + [line])[..|lines|] == lines;
  }

  /** The lines, the discount line among them, sum to the subtotal, which a discount never makes negative. */
  lemma DiscountedIsBalanced(lines: seq<LineItem>, tier: Tier)
    ensures Amounts(Discounted(lines, tier).lines) == Discounted(lines, tier).subtotal
    ensures Amounts(lines) >= 0.0 ==> 0.0 <= Discounted(lines, tier).subtotal <= Amounts(lines)
  {
    var total, d := Amounts(lines), Discount(tier);
    AmountsPush(lines, LineItem(DISCOUNT_LINE, 1.0, 0.0, -(total * d)));
    if total >= 0.0 {
      assert 0.0 <= total * d <= total;
    }
  }

  // ------------------------------------- which lines an event is counted in

  /** How many of the lines' queries select an event with the key. */
  function Selections(types: seq<string>, customer: string, key: string): nat {
    if types == [] then 0
    else Selections(types[..|types| - 1], customer, key) + if Key(customer, types[|types| - 1]) <= key then 1 else 0
  }

  function Times(q: real, n: nat): real {
    if n == 0 then 0.0 else Times(q, n - 1) + q
  }

  lemma {:induction false} TimesIsProduct(q: real, n: nat)
    ensures Times(q, n) == q * n as real
  {
    if n > 0 {
      TimesIsProduct(q, n - 1);
      assert q * n as real == q * (n - 1) as real + q;
    }
  }

  /** Every event of the interval, as often as lines select it. */
  function Weighted(log: seq<UsageEvent>, types: seq<string>, customer: string, from: int, to: int): real {
    if log == [] then 0.0
    else
      var e := log[|log| - 1];
      Weighted(log[..|log| - 1], types, customer, from, to)
      + if InWindow(e, from, to) then Times(e.quantity, Selections(types, customer, EventKey(e))) else 0.0
  }

  lemma SelectionsPush(types: seq<string>, t: string, customer: string, key: string)
    ensures Selections(types + [t], customer, key)
         == Selections(types, customer, key) + if Key(customer, t) <= key then 1 else 0
  {
    assert (types + [t])[..|types|] == types;
  }

  lemma {:induction false} WeightedPush(
    log: seq<UsageEvent>, types: seq<string>, t: string, customer: string, from: int, to: int)
    ensures Weighted(log, types + [t], customer, from, to)
         == Weighted(log, types, customer, from, to) + WindowSum(log, Key(customer, t), from, to)
  {
    if log != [] {
      var e := log[|log| - 1];
      WeightedPush(log[..|log| - 1], types, t, customer, from, to);
      SelectionsPush(types, t, customer, EventKey(e));
    }
  }

  lemma {:induction false} WeightedNone(log: seq<UsageEvent>, customer: string, from: int, to: int)
    ensures Weighted(log, [], customer, from, to) == 0.0
  {
    if log != [] {
      WeightedNone(log[..|log| - 1], customer, from, to);
    }
  }

  /** No month of any line's query has a negative sum. */
  ghost predicate NoDebits(log: seq<UsageEvent>, customer: string, types: seq<string>, start: int, end: int) {
    forall i | 0 <= i < |types| :: NoDebit(log, Key(customer, types[i]), start, end, Duration(Month))
  }

  lemma NoDebitsPush(log: seq<UsageEvent>, customer: string, types: seq<string>, t: string, start: int, end: int)
    ensures NoDebits(log, customer, types + [t], start, end) <==>
      NoDebits(log, customer, types, start, end) && NoDebit(log, Key(customer, t), start, end, Duration(Month))
  {
    var all := types + [t];
    assert all[|types|] == t && forall i | 0 <= i < |types| :: all[i] == types[i];
  }

  lemma LinesPush(log: seq<UsageEvent>, customer: string, types: seq<string>, t: string, start: int, end: int)
    ensures Quantities(UsageLines(log, customer, types + [t], start, end)) ==
      Quantities(UsageLines(log, customer, types, start, end)) + LineQuantity(log, customer, t, start, end)
  {
    assert (types + [t])[..|types|] == types;
    TotalIsNonNegative(log, Key(customer, t), start, end, Duration(Month));
    var q := LineQuantity(log, customer, t, start, end);
    AmountsPush(UsageLines(log, customer, types, start, end), LineItem(t, q, Price(t), q * Price(t)));
  }

  /** The line quantities sum to at least every covered event times the number of lines that select it, and to exactly
      that iff no month of a line has a negative sum. */
  lemma {:induction false} LinesWeighEventsIff(
    log: seq<UsageEvent>, customer: string, types: seq<string>, start: int, end: int)
    ensures var lines, to := UsageLines(log, customer, types, start, end), Cover(start, end, Duration(Month));
      && Quantities(lines) >= Weighted(log, types, customer, start, to)
      && (Quantities(lines) == Weighted(log, types, customer, start, to) <==>
            NoDebits(log, customer, types, start, end))
  {
    var to := Cover(start, end, Duration(Month));
    if types == [] {
      WeightedNone(log, customer, start, to);
    } else {
      var front, t := types[..|types| - 1], types[|types| - 1];
      assert types == front + [t];
      LinesWeighEventsIff(log, customer, front, start, end);
      LinesPush(log, customer, front, t, start, end);
      WeightedPush(log, front, t, customer, start, to);
      NoDebitsPush(log, customer, front, t, start, end);
      QueryIsExactIff(log, Key(customer, t), start, end, Duration(Month));
    }
  }

  lemma LinesWeighEvents(log: seq<UsageEvent>, customer: string, types: seq<string>, start: int, end: int)
    requires NonNegative(log)
    ensures Quantities(UsageLines(log, customer, types, start, end)) ==
      Weighted(log, types, customer, start, Cover(start, end, Duration(Month)))
  {
    forall i | 0 <= i < |types| ensures NoDebit(log, Key(customer, types[i]), start, end, Duration(Month)) {
      NonNegativeHasNoDebit(log, Key(customer, types[i]), start, end, Duration(Month));
    }
    LinesWeighEventsIff(log, customer, types, start, end);
  }
}
