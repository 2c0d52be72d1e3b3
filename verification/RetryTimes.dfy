/** When the worker retries a failed payment: the waiting times, over whole runs. */
module RetryTimes {
  import opened Dunning
  import opened DunningCharges
  import opened DunningRuns
  import opened Powers
  import opened Wrappers

  /** After failed charge n a row with retries left is due again 2^n minutes after the charge ended, and no sooner. */
  lemma FailedRowWaits(p: Payment, c: Charge, config: Config, now: int)
    requires !c.success && p.retryCount + 1 < config.maxRetries
    ensures Eligible(RetriedRow(p, c), config, now) <==> now >= c.doneAt + 60 * Pow2(p.retryCount + 1)
  {
  }

  function NewDone(m: Machine, step: Step, id: string, done: Option<int>): Option<int> {
    if step.Retry? && m.queue != [] && m.queue[0].0 == id then Some(step.charge.doneAt) else done
  }

  /** When the last retry of the row ended, if there was one. */
  function LastDone(m: Machine, config: Config, steps: seq<Step>, id: string): Option<int> {
    if steps == [] then None
    else
      var front, last := steps[..|steps| - 1], steps[|steps| - 1];
      NewDone(Run(m, config, front), last, id, LastDone(m, config, front, id))
  }

  /** A failed row that was never retried has no date, one after n retries is due 2^n minutes after the last. */
  ghost predicate Dated(p: Payment, done: Option<int>) {
    p.status == Failed ==>
      if p.retryCount == 0 then p.nextRetryAt.None?
      else done.Some? && p.nextRetryAt == Some(done.value + 60 * Pow2(p.retryCount))
  }

  lemma StepDates(m: Machine, config: Config, step: Step, id: string, done: Option<int>)
    requires QueueOk(m, config) && id in Next(m, config, step).payments
    requires id in m.payments ==> Dated(m.payments[id], done)
    ensures Dated(Next(m, config, step).payments[id], NewDone(m, step, id, done))
  {
    match step
    case Pay(_, _, _, _) =>
    case WebhookSucceeded(_) =>
    case WebhookFailed(_) =>
    case Select(_, _) =>
    case Retry(c) =>
      if m.queue != [] {
        assert m.queue[0].0 in m.payments && m.payments[m.queue[0].0] == m.queue[0].1;
      }
  }

  lemma {:induction false} RowsAreDated(invoices: Invoices, clock: int, config: Config, steps: seq<Step>, id: string)
    requires Legal(Start(invoices, clock), config, steps)
    requires id in Run(Start(invoices, clock), config, steps).payments
    ensures var m := Start(invoices, clock);
      Dated(Run(m, config, steps).payments[id], LastDone(m, config, steps, id))
  {
    var front, last := steps[..|steps| - 1], steps[|steps| - 1];
    var start := Start(invoices, clock);
    RunKeepsInv(invoices, clock, config, front);
    if id in Run(start, config, front).payments {
      RowsAreDated(invoices, clock, config, front, id);
    }
    StepDates(Run(start, config, front), config, last, id, LastDone(start, config, front, id));
  }

  /** In every reachable state a selection takes exactly the failed rows with retries left that have waited: a row that
      was retried n times, 2^n minutes after the end of its last retry, and a new one not at all. */
  lemma SelectedIffWaited(
    invoices: Invoices, clock: int, config: Config, steps: seq<Step>, now: int, ids: seq<string>, id: string)
    requires Legal(Start(invoices, clock), config, steps)
    requires Enabled(Run(Start(invoices, clock), config, steps), config, Select(now, ids))
    ensures var start := Start(invoices, clock);
      var m, done := Run(start, config, steps), LastDone(start, config, steps, id);
      var n := |Tries(m.attempts, id)|;
      id in ids <==>
        && id in m.payments && m.payments[id].status == Failed && n < config.maxRetries
        && (n > 0 ==> done.Some? && now >= done.value + 60 * Pow2(n))
  {
    RunKeepsInv(invoices, clock, config, steps);
    var m := Run(Start(invoices, clock), config, steps);
    if id in m.payments {
      RowsAreDated(invoices, clock, config, steps, id);
      assert RowOk(m.payments[id], Tries(m.attempts, id), config.maxRetries, m.clock);
    }
  }

  /** A payment that fails at first is in every selection until it is retried, one that succeeds is in none. */
  lemma FirstFailureIsSelected(invoices: Invoices, clock: int, config: Config, steps: seq<Step>, step: Step,
                               now: int, ids: seq<string>)
    requires Legal(Start(invoices, clock), config, steps + [step]) && step.Pay? && config.maxRetries >= 1
    requires var m := Run(Start(invoices, clock), config, steps);
      step.invoice in m.invoices && m.invoices[step.invoice] != Paid
    requires Enabled(Run(Start(invoices, clock), config, steps + [step]), config, Select(now, ids))
    ensures step.id in ids <==> !step.success
  {
    RunPush(Start(invoices, clock), config, steps, step);
  }

  // -------------------------------------------------------- rows and invoices

  lemma StepKeepsOwner(m: Machine, config: Config, step: Step, id: string)
    requires QueueOk(m, config) && id in Next(m, config, step).payments
    ensures var row := Next(m, config, step).payments[id];
      if id in m.payments && !(step.Pay? && step.id == id) then
        row.invoice == m.payments[id].invoice && row.customer == m.payments[id].customer
      else id in m.payments || (step.Pay? && step.id == id && row.invoice == Some(step.invoice) &&
                                row.customer == step.customer)
  {
    match step
    case Pay(_, _, _, _) =>
    case WebhookSucceeded(_) =>
    case WebhookFailed(_) =>
    case Select(_, _) =>
    case Retry(c) =>
      if m.queue != [] {
        assert m.queue[0].0 in m.payments && m.payments[m.queue[0].0] == m.queue[0].1;
      }
  }

  /** Every row was written by a payment with its id, and is for that payment's invoice and customer. */
  lemma {:induction false} RowsComeFromPayments(
    m: Machine, config: Config, steps: seq<Step>, id: string) returns (n: nat)
    requires Inv(m, config) && Legal(m, config, steps) && id in Run(m, config, steps).payments && id !in m.payments
    ensures n < |steps| && steps[n].Pay? && steps[n].id == id
    ensures var row := Run(m, config, steps).payments[id];
      row.invoice == Some(steps[n].invoice) && row.customer == steps[n].customer
  {
    var front, last := steps[..|steps| - 1], steps[|steps| - 1];
    InvAlongRun(m, config, front);
    StepKeepsOwner(Run(m, config, front), config, last, id);
    if id in Run(m, config, front).payments {
      n := RowsComeFromPayments(m, config, front, id);
    } else {
      n := |front|;
    }
  }

  /** Where each step takes a known invoice: to Paid by what pays it, from Draft to Open by a failure reported for it,
      and nowhere otherwise. */
  lemma InvoiceAfterStep(m: Machine, config: Config, step: Step, invoice: string)
    requires invoice in m.invoices
    ensures var next := Next(m, config, step).invoices;
      && next.Keys == m.invoices.Keys
      && next[invoice] ==
         if Pays(m, step, invoice) then Paid
         else if step == WebhookFailed(invoice) && m.invoices[invoice] == Draft then Open
         else m.invoices[invoice]
  {
  }
}
