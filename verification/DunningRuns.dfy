/** Dunning over whole runs: the worker's row-by-row retries interleaved with payments and webhooks. */
module DunningRuns {
  import opened Dunning
  import opened Powers
  import opened Totals

  /** The tables, the rows the worker's current pass has still to retry, the clock, and for each row
      the times at which retries charged it. */
  datatype Machine = Machine(
    payments: Payments, invoices: Invoices, suspended: set<string>,
    queue: seq<(string, Payment)>, clock: int, attempts: map<string, seq<int>>)

  datatype Step =
    | Pay(id: string, invoice: string, customer: string, success: bool)
    | WebhookSucceeded(paid: string)
    | WebhookFailed(failed: string)
    | Select(now: int, ids: seq<string>)
    | Retry(charge: Charge)

  function Tries(attempts: map<string, seq<int>>, id: string): seq<int> {
    if id in attempts then attempts[id] else []
  }

  function Rows(payments: Payments, ids: seq<string>): seq<(string, Payment)>
    requires forall i | 0 <= i < |ids| :: ids[i] in payments
  {
    seq(|ids|, i requires 0 <= i < |ids| => (ids[i], payments[ids[i]]))
  }

  /** New rows get fresh ids, one pass runs at a time, and time does not run backwards. */
  ghost predicate Enabled(m: Machine, config: Config, step: Step) {
    match step
    case Pay(id, _, _, _) => id !in m.payments
    case WebhookSucceeded(_) => true
    case WebhookFailed(_) => true
    case Select(now, ids) => m.queue == [] && m.clock <= now && Selects(m.payments, config, now, ids)
    case Retry(c) => m.queue != [] && m.clock <= c.at <= c.doneAt
  }

  function Next(m: Machine, config: Config, step: Step): Machine {
    match step
    case Pay(id, invoice, customer, success) =>
      if invoice !in m.invoices || m.invoices[invoice] == Paid then m
      else m.(payments := m.payments[id := FirstAttempt(invoice, customer, success)],
              invoices := if success then MarkedPaid(m.invoices, invoice) else m.invoices)
    case WebhookSucceeded(invoice) => m.(invoices := MarkedPaid(m.invoices, invoice))
    case WebhookFailed(invoice) => m.(invoices := MarkedFailed(m.invoices, invoice))
    case Select(now, ids) =>
      if forall i | 0 <= i < |ids| :: ids[i] in m.payments then m.(queue := Rows(m.payments, ids), clock := now) else m
    case Retry(c) =>
      if m.queue == [] then m
      else
        var (id, row) := m.queue[0];
        m.(payments := m.payments[id := RetriedRow(row, c)],
           invoices := RetriedInvoices(m.invoices, row, c),
           suspended := RetriedSuspensions(m.suspended, row, c, config),
           queue := m.queue[1..], clock := c.doneAt,
           attempts := m.attempts[id := Tries(m.attempts, id) + [c.at]])
  }

  function Start(invoices: Invoices, clock: int): Machine { Machine(map[], invoices, {}, [], clock, map[]) }

  function Run(m: Machine, config: Config, steps: seq<Step>): Machine {
    if steps == [] then m else Next(Run(m, config, steps[..|steps| - 1]), config, steps[|steps| - 1])
  }

  ghost predicate Legal(m: Machine, config: Config, steps: seq<Step>) {
    steps != [] ==>
      var front := steps[..|steps| - 1];
      Legal(m, config, front) && Enabled(Run(m, config, front), config, steps[|steps| - 1])
  }

  // ---------------------------------------------------------- the invariant

  /** Successive retries n and n + 1 of a row are at least 60 * 2^n seconds apart. */
  ghost predicate Spaced(tries: seq<int>) {
    forall n | 1 <= n < |tries| :: tries[n] >= tries[n - 1] + Backoff(n)
  }

  ghost predicate RowOk(p: Payment, tries: seq<int>, max: nat, clock: int) {
    && p.retryCount <= max
    && |tries| == p.retryCount + (if p.status == Succeeded && |tries| > p.retryCount then 1 else 0)
    && |tries| <= max
    && Spaced(tries)
    && (tries != [] ==> tries[|tries| - 1] <= clock)
    && (p.status == Failed && tries != [] ==>
          p.nextRetryAt.Some? && p.nextRetryAt.value >= tries[|tries| - 1] + Backoff(|tries|))
  }

  ghost predicate QueueOk(m: Machine, config: Config) {
    && (forall i, j | 0 <= i < j < |m.queue| :: m.queue[i].0 != m.queue[j].0)
    && (forall i | 0 <= i < |m.queue| ::
          && m.queue[i].0 in m.payments && m.payments[m.queue[i].0] == m.queue[i].1
          && Eligible(m.queue[i].1, config, m.clock))
  }

  ghost predicate RowsOk(m: Machine, config: Config) {
    && (forall id | id in m.payments :: RowOk(m.payments[id], Tries(m.attempts, id), config.maxRetries, m.clock))
    && (forall id | id in m.attempts :: id in m.payments)
  }

  /** Some row of the customer has used up its retries. */
  ghost predicate Exhausted(payments: Payments, max: nat, customer: string) {
    exists id :: id in payments && payments[id].customer == customer && payments[id].retryCount == max
  }

  ghost predicate SuspensionsOk(m: Machine, config: Config) {
    forall c :: c in m.suspended <==> config.suspendAfterMaxRetries && Exhausted(m.payments, config.maxRetries, c)
  }

  ghost predicate Inv(m: Machine, config: Config) {
    RowsOk(m, config) && QueueOk(m, config) && (config.maxRetries >= 1 ==> SuspensionsOk(m, config))
  }

  lemma RetryKeepsRow(p: Payment, tries: seq<int>, max: nat, clock: int, c: Charge)
    requires RowOk(p, tries, max, clock) && p.status == Failed && p.retryCount < max && Due(p, clock)
    requires clock <= c.at <= c.doneAt
    ensures RowOk(RetriedRow(p, c), tries + [c.at], max, c.doneAt)
  {
    var next := tries + [c.at];
    forall n | 1 <= n < |next| ensures next[n] >= next[n - 1] + Backoff(n) {
      if n < |tries| {
        assert next[n] == tries[n] && next[n - 1] == tries[n - 1];
      }
    }
  }

  lemma RetryKeepsRows(m: Machine, config: Config, c: Charge)
    requires Inv(m, config) && Enabled(m, config, Retry(c))
    ensures RowsOk(Next(m, config, Retry(c)), config)
  {
    var (id, row) := m.queue[0];
    assert m.queue[0].0 == id && m.queue[0].1 == row;
    RetryKeepsRow(row, Tries(m.attempts, id), config.maxRetries, m.clock, c);
    var next := Next(m, config, Retry(c));
    forall other | other in next.payments
      ensures RowOk(next.payments[other], Tries(next.attempts, other), config.maxRetries, next.clock)
    {
      if other != id {
        assert RowOk(m.payments[other], Tries(m.attempts, other), config.maxRetries, m.clock);
      }
    }
  }

  lemma RetryKeepsQueue(m: Machine, config: Config, c: Charge)
    requires QueueOk(m, config) && Enabled(m, config, Retry(c))
    ensures QueueOk(Next(m, config, Retry(c)), config)
  {
    var next := Next(m, config, Retry(c));
    forall i | 0 <= i < |next.queue|
      ensures next.queue[i] == m.queue[i + 1] && next.queue[i].0 != m.queue[0].0
      ensures Eligible(next.queue[i].1, config, next.clock)
    {
    }
  }

  lemma RetryKeepsSuspensions(m: Machine, config: Config, c: Charge)
    requires Inv(m, config) && Enabled(m, config, Retry(c)) && config.maxRetries >= 1
    ensures SuspensionsOk(Next(m, config, Retry(c)), config)
  {
    var id, row := m.queue[0].0, m.queue[0].1;
    var next, max := Next(m, config, Retry(c)), config.maxRetries;
    assert row.retryCount < max && m.payments[id] == row;
    assert next.payments[id] == RetriedRow(row, c);
    forall customer
      ensures Exhausted(next.payments, max, customer) <==>
        Exhausted(m.payments, max, customer) || (!c.success && row.retryCount + 1 >= max && customer == row.customer)
    {
      if x :| x in m.payments && m.payments[x].customer == customer && m.payments[x].retryCount == max {
        assert next.payments[x] == m.payments[x];
      }
      if x :| x in next.payments && next.payments[x].customer == customer && next.payments[x].retryCount == max {
        assert x != id ==> m.payments[x] == next.payments[x];
      }
    }
  }

  lemma PayKeepsInv(m: Machine, config: Config, id: string, invoice: string, customer: string, success: bool)
    requires Inv(m, config) && id !in m.payments
    ensures Inv(Next(m, config, Pay(id, invoice, customer, success)), config)
  {
    var next := Next(m, config, Pay(id, invoice, customer, success));
    assert Tries(m.attempts, id) == [];
    forall c ensures config.maxRetries >= 1 ==>
      (Exhausted(next.payments, config.maxRetries, c) <==> Exhausted(m.payments, config.maxRetries, c))
    {
      if x :| x in m.payments && m.payments[x].customer == c && m.payments[x].retryCount == config.maxRetries {
        assert next.payments[x] == m.payments[x];
      }
    }
  }

  lemma SelectKeepsInv(m: Machine, config: Config, now: int, ids: seq<string>)
    requires Inv(m, config) && Enabled(m, config, Select(now, ids))
    ensures Inv(Next(m, config, Select(now, ids)), config)
  {
    var next := Next(m, config, Select(now, ids));
    forall i | 0 <= i < |ids| ensures ids[i] in m.payments && Eligible(m.payments[ids[i]], config, now) {
      assert ids[i] in ids;
    }
    forall id | id in m.payments
      ensures RowOk(m.payments[id], Tries(m.attempts, id), config.maxRetries, next.clock)
    {
      assert RowOk(m.payments[id], Tries(m.attempts, id), config.maxRetries, m.clock);
    }
  }

  lemma StepKeepsInv(m: Machine, config: Config, step: Step)
    requires Inv(m, config) && Enabled(m, config, step)
    ensures Inv(Next(m, config, step), config)
  {
    match step
    case Pay(id, invoice, customer, success) => PayKeepsInv(m, config, id, invoice, customer, success);
    case WebhookSucceeded(_) =>
    case WebhookFailed(_) =>
    case Select(now, ids) => SelectKeepsInv(m, config, now, ids);
    case Retry(c) =>
      RetryKeepsRows(m, config, c);
      RetryKeepsQueue(m, config, c);
      if config.maxRetries >= 1 {
        RetryKeepsSuspensions(m, config, c);
      }
  }

  lemma {:induction false} RunKeepsInv(invoices: Invoices, clock: int, config: Config, steps: seq<Step>)
    requires Legal(Start(invoices, clock), config, steps)
    ensures Inv(Run(Start(invoices, clock), config, steps), config)
  {
    if steps != [] {
      RunKeepsInv(invoices, clock, config, steps[..|steps| - 1]);
      StepKeepsInv(Run(Start(invoices, clock), config, steps[..|steps| - 1]), config, steps[|steps| - 1]);
    }
  }

  // ------------------------------------------- the worker's loop is such a run

  /** The machine after a selection and k of its retries. */
  function Pass(m: Machine, config: Config, now: int, ids: seq<string>, charges: string -> Charge, k: nat): Machine
    requires k <= |ids|
  {
    if k == 0 then Next(m, config, Select(now, ids))
    else Next(Pass(m, config, now, ids, charges, k - 1), config, Retry(charges(ids[k - 1])))
  }

  lemma {:induction false} PassQueue(
    m: Machine, config: Config, now: int, ids: seq<string>, charges: string -> Charge, k: nat)
    requires k <= |ids| && m.queue == [] && forall i | 0 <= i < |ids| :: ids[i] in m.payments
    ensures Pass(m, config, now, ids, charges, k).queue == Rows(m.payments, ids)[k..]
  {
    if k > 0 {
      PassQueue(m, config, now, ids, charges, k - 1);
      assert Rows(m.payments, ids)[k - 1..][1..] == Rows(m.payments, ids)[k..];
    }
  }

  lemma PassStep(m: Machine, config: Config, ids: seq<string>, id: string, charges: string -> Charge)
    requires id in m.payments
    ensures PassPayments(m.payments, ids + [id], charges)
      == PassPayments(m.payments, ids, charges)[id := RetriedRow(m.payments[id], charges(id))]
    ensures PassInvoices(m.payments, m.invoices, ids + [id], charges)
      == RetriedInvoices(PassInvoices(m.payments, m.invoices, ids, charges), m.payments[id], charges(id))
    ensures var before := PassSuspensions(m.payments, m.suspended, ids, charges, config);
      PassSuspensions(m.payments, m.suspended, ids + [id], charges, config) ==
        RetriedSuspensions(before, m.payments[id], charges(id), config)
  {
    assert (ids + [id])[..|ids|] == ids;
  }

  /** The tables `RetryFailedPayments` leaves are those of the steps of one uninterrupted pass. */
  lemma {:induction false} PassIsRun(
    m: Machine, config: Config, now: int, ids: seq<string>, charges: string -> Charge, k: nat)
    requires k <= |ids| && m.queue == [] && forall i | 0 <= i < |ids| :: ids[i] in m.payments
    ensures var after := Pass(m, config, now, ids, charges, k);
      && after.payments == PassPayments(m.payments, ids[..k], charges)
      && after.invoices == PassInvoices(m.payments, m.invoices, ids[..k], charges)
      && after.suspended == PassSuspensions(m.payments, m.suspended, ids[..k], charges, config)
  {
    if k > 0 {
      PassIsRun(m, config, now, ids, charges, k - 1);
      PassQueue(m, config, now, ids, charges, k - 1);
      var before, id := Pass(m, config, now, ids, charges, k - 1), ids[k - 1];
      assert before.queue[0] == (id, m.payments[id]);
      PassStep(m, config, ids[..k - 1], id, charges);
      assert ids[..k] == ids[..k - 1] + [id];
    }
  }

  // ------------------------------------------------------------- theorems

  lemma {:induction false} SpacedFromFirst(tries: seq<int>, n: nat)
    requires Spaced(tries) && 1 <= n <= |tries|
    ensures tries[n - 1] >= tries[0] + 60 * (Pow2(n) - 2)
  {
    if n > 1 {
      SpacedFromFirst(tries, n - 1);
    }
  }

  /** In every reachable state: retry counts and attempts stay within the maximum, and attempt n of a row
      comes at least 60 * (2^n - 2) seconds after its first. */
  lemma RetriesAreBoundedAndSpaced(invoices: Invoices, clock: int, config: Config, steps: seq<Step>, id: string, n: nat)
    requires Legal(Start(invoices, clock), config, steps)
    requires id in Run(Start(invoices, clock), config, steps).payments
    ensures var m := Run(Start(invoices, clock), config, steps);
      && m.payments[id].retryCount <= config.maxRetries
      && |Tries(m.attempts, id)| <= config.maxRetries
      && (1 <= n <= |Tries(m.attempts, id)| ==>
            Tries(m.attempts, id)[n - 1] >= Tries(m.attempts, id)[0] + 60 * (Pow2(n) - 2))
  {
    RunKeepsInv(invoices, clock, config, steps);
    var m := Run(Start(invoices, clock), config, steps);
    assert RowOk(m.payments[id], Tries(m.attempts, id), config.maxRetries, m.clock);
    if 1 <= n <= |Tries(m.attempts, id)| {
      SpacedFromFirst(Tries(m.attempts, id), n);
    }
  }

  /** A customer is suspended exactly when configured so and some row of theirs is exhausted. */
  lemma SuspendedIffExhausted(invoices: Invoices, clock: int, config: Config, steps: seq<Step>, customer: string)
    requires Legal(Start(invoices, clock), config, steps) && config.maxRetries >= 1
    ensures var m := Run(Start(invoices, clock), config, steps);
      customer in m.suspended <==> config.suspendAfterMaxRetries && Exhausted(m.payments, config.maxRetries, customer)
  {
    RunKeepsInv(invoices, clock, config, steps);
  }

  /** A succeeded row is final: no step changes it or charges it again. */
  lemma SucceededRowsAreFinal(m: Machine, config: Config, step: Step, id: string)
    requires Inv(m, config) && Enabled(m, config, step)
    requires id in m.payments && m.payments[id].status == Succeeded
    ensures var next := Next(m, config, step);
      id in next.payments && next.payments[id] == m.payments[id] && Tries(next.attempts, id) == Tries(m.attempts, id)
  {
    if step.Retry? {
      assert m.queue[0].0 != id;
    }
  }

  /** Invoices only move from Draft to Open and from anything to Paid; Paid is final. */
  lemma InvoicesOnlyAdvance(m: Machine, config: Config, step: Step, invoice: string)
    requires invoice in m.invoices
    ensures var next := Next(m, config, step);
      && invoice in next.invoices
      && var (was, now) := (m.invoices[invoice], next.invoices[invoice]);
         now == was || now == Paid || (was == Draft && now == Open)
  {
  }

  lemma {:induction false} PaidIsFinal(m: Machine, config: Config, steps: seq<Step>, invoice: string)
    requires invoice in m.invoices && m.invoices[invoice] == Paid
    ensures var last := Run(m, config, steps); invoice in last.invoices && last.invoices[invoice] == Paid
  {
    if steps != [] {
      PaidIsFinal(m, config, steps[..|steps| - 1], invoice);
      InvoicesOnlyAdvance(Run(m, config, steps[..|steps| - 1]), config, steps[|steps| - 1], invoice);
    }
  }

  // ------------------------------------------------------------ termination

  function RetriesLeft(max: nat): Payment -> int {
    (p: Payment) => if p.status == Failed && p.retryCount <= max then max - p.retryCount else 0
  }

  /** The retries that the failed rows of the table still allow. */
  ghost function Remaining(m: Machine, config: Config): int {
    SumOf(m.payments, RetriesLeft(config.maxRetries))
  }

  predicate FailsFirst(step: Step) { step.Pay? && !step.success }

  /** Every retry uses up at least one remaining retry, so a pass and the dunning of any set of rows ends;
      only a new failed payment adds any, and it adds exactly the maximum. */
  lemma RetriesRunOut(m: Machine, config: Config, step: Step)
    requires Inv(m, config) && Enabled(m, config, step)
    ensures Remaining(m, config) >= 0
    ensures step.Retry? ==> Remaining(Next(m, config, step), config) < Remaining(m, config)
    ensures var added :=
        if FailsFirst(step) && Next(m, config, step).payments != m.payments then config.maxRetries else 0;
      step.Pay? ==> Remaining(Next(m, config, step), config) == Remaining(m, config) + added
    ensures !step.Retry? && !step.Pay? ==> Remaining(Next(m, config, step), config) == Remaining(m, config)
  {
    var f := RetriesLeft(config.maxRetries);
    SumNonNegative(m.payments, f);
    match step
    case Retry(c) =>
      var id, row := m.queue[0].0, m.queue[0].1;
      SumUpdate(m.payments, f, id, RetriedRow(row, c));
    case Pay(id, invoice, customer, success) =>
      SumUpdate(m.payments, f, id, FirstAttempt(invoice, customer, success));
      assert m.payments[id := FirstAttempt(invoice, customer, success)] != m.payments;
    case _ =>
  }

  function CountRetries(steps: seq<Step>): nat {
    if steps == [] then 0 else CountRetries(steps[..|steps| - 1]) + if steps[|steps| - 1].Retry? then 1 else 0
  }

  function CountFailures(steps: seq<Step>): nat {
    if steps == [] then 0
    else CountFailures(steps[..|steps| - 1]) + if FailsFirst(steps[|steps| - 1]) then 1 else 0
  }

  lemma StepSpends(m: Machine, config: Config, step: Step)
    requires Inv(m, config) && Enabled(m, config, step)
    ensures (if step.Retry? then 1 else 0) + Remaining(Next(m, config, step), config) <=
      Remaining(m, config) + if FailsFirst(step) then config.maxRetries else 0
  {
    RetriesRunOut(m, config, step);
  }

  lemma OneMoreFailure(max: nat, n: nat)
    ensures max * (n + 1) == max * n + max
  {
  }

  /** Over any run the worker charges at most maxRetries times per failed first payment. */
  lemma {:induction false} RetriesPerFailure(invoices: Invoices, clock: int, config: Config, steps: seq<Step>)
    requires Legal(Start(invoices, clock), config, steps)
    ensures CountRetries(steps) + Remaining(Run(Start(invoices, clock), config, steps), config) <=
      config.maxRetries * CountFailures(steps)
    ensures CountRetries(steps) <= config.maxRetries * CountFailures(steps)
  {
    if steps != [] {
      var front, step := steps[..|steps| - 1], steps[|steps| - 1];
      RetriesPerFailure(invoices, clock, config, front);
      RunKeepsInv(invoices, clock, config, front);
      StepSpends(Run(Start(invoices, clock), config, front), config, step);
      OneMoreFailure(config.maxRetries, CountFailures(front));
    }
    SumNonNegative(Run(Start(invoices, clock), config, steps).payments, RetriesLeft(config.maxRetries));
  }

  /** The worker does not look at the invoice: a failed row is charged again although its invoice was paid
      in the meantime. */
  lemma PaidInvoiceIsChargedAgain(invoice: string, customer: string, config: Config)
    requires config.maxRetries >= 1
    ensures var m := Start(map[invoice := Open], 0);
      var before := [Pay("a", invoice, customer, false), Pay("b", invoice, customer, true), Select(0, ["a"])];
      && Legal(m, config, before + [Retry(Charge(true, 1, 2))])
      && Run(m, config, before).invoices == map[invoice := Paid]
      && Tries(Run(m, config, before + [Retry(Charge(true, 1, 2))]).attempts, "a") == [1]
  {
    var m := Start(map[invoice := Open], 0);
    var s1, s2 := Pay("a", invoice, customer, false), Pay("b", invoice, customer, true);
    var s3, s4 := Select(0, ["a"]), Retry(Charge(true, 1, 2));
    var m1 := Next(m, config, s1);
    var m2 := Next(m1, config, s2);
    var m3 := Next(m2, config, s3);
    var row := FirstAttempt(invoice, customer, false);
    DistinctNames();
    assert m1.payments == map["a" := row];
    assert m2.payments["a"] == row && m2.invoices == map[invoice := Paid];
    assert Selects(m2.payments, config, 0, ["a"]);
    assert m3.queue == [("a", row)];
    RunPush(m, config, [], s1);
    RunPush(m, config, [s1], s2);
    RunPush(m, config, [s1, s2], s3);
    RunPush(m, config, [s1, s2, s3], s4);
    assert [] + [s1] == [s1] && [s1] + [s2] == [s1, s2] && [s1, s2] + [s3] == [s1, s2, s3];
  }

  lemma DistinctNames()
    ensures "a" != "b"
  {
    assert "a"[0] != "b"[0];
  }

  lemma RunPush(m: Machine, config: Config, steps: seq<Step>, step: Step)
    ensures Run(m, config, steps + [step]) == Next(Run(m, config, steps), config, step)
    ensures Legal(m, config, steps + [step]) <==>
      Legal(m, config, steps) && Enabled(Run(m, config, steps), config, step)
  {
    assert (steps + [step])[..|steps|] == steps;
  }
}
