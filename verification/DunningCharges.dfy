/** When the retry worker charges a row whose invoice is paid, and how its passes sit in whole runs. */
module DunningCharges {
  import opened Dunning
  import opened DunningRuns
  import opened Wrappers

  ghost predicate IsPaid(invoices: Invoices, invoice: string) { invoice in invoices && invoices[invoice] == Paid }

  ghost predicate InvoiceIsPaid(invoices: Invoices, row: Payment) {
    row.invoice.Some? && IsPaid(invoices, row.invoice.value)
  }

  // -------------------------------------------------------------- one pass

  /** One of the rows was charged with success for the invoice. */
  ghost predicate PaidBy(payments: Payments, ids: seq<string>, charges: string -> Charge, invoice: string) {
    exists i :: 0 <= i < |ids| && ids[i] in payments && charges(ids[i]).success &&
      payments[ids[i]].invoice == Some(invoice)
  }

  lemma {:induction false} PassPaysIff(
    payments: Payments, invoices: Invoices, ids: seq<string>, charges: string -> Charge, invoice: string)
    ensures invoice in PassInvoices(payments, invoices, ids, charges) <==> invoice in invoices
    ensures IsPaid(PassInvoices(payments, invoices, ids, charges), invoice) <==>
      IsPaid(invoices, invoice) || (invoice in invoices && PaidBy(payments, ids, charges, invoice))
  {
    if ids != [] {
      var front, last := ids[..|ids| - 1], ids[|ids| - 1];
      PassPaysIff(payments, invoices, front, charges, invoice);
      assert PaidBy(payments, ids, charges, invoice) <==>
        PaidBy(payments, front, charges, invoice) ||
        (last in payments && charges(last).success && payments[last].invoice == Some(invoice)) by {
        PaidByPush(payments, front, last, charges, invoice);
        assert front + [last] == ids;
      }
    }
  }

  lemma PaidByPush(payments: Payments, ids: seq<string>, last: string, charges: string -> Charge, invoice: string)
    ensures PaidBy(payments, ids + [last], charges, invoice) <==>
      PaidBy(payments, ids, charges, invoice) ||
      (last in payments && charges(last).success && payments[last].invoice == Some(invoice))
  {
    var all := ids + [last];
    assert all[|ids|] == last;
    if PaidBy(payments, ids, charges, invoice) {
      var i :| 0 <= i < |ids| && ids[i] in payments && charges(ids[i]).success &&
        payments[ids[i]].invoice == Some(invoice);
      assert all[i] == ids[i];
    }
  }

  /** In the pass, row k is charged although its invoice is paid by then. */
  ghost predicate ChargesPaid(
    m: Machine, config: Config, now: int, ids: seq<string>, charges: string -> Charge, k: nat)
  {
    k < |ids| && ids[k] in m.payments &&
    InvoiceIsPaid(Pass(m, config, now, ids, charges, k).invoices, m.payments[ids[k]])
  }

  /** Two selected rows are for one known invoice, and charging the earlier one succeeds. */
  ghost predicate PaysForLater(m: Machine, ids: seq<string>, charges: string -> Charge, i: nat, j: nat) {
    && i < j < |ids| && ids[i] in m.payments && ids[j] in m.payments
    && m.payments[ids[i]].invoice == m.payments[ids[j]].invoice
    && m.payments[ids[j]].invoice.Some? && m.payments[ids[j]].invoice.value in m.invoices
    && charges(ids[i]).success
  }

  lemma RowChargedPaidIff(m: Machine, config: Config, now: int, ids: seq<string>, charges: string -> Charge, k: nat)
    requires k < |ids| && m.queue == [] && forall i | 0 <= i < |ids| :: ids[i] in m.payments
    ensures ChargesPaid(m, config, now, ids, charges, k) <==>
      InvoiceIsPaid(m.invoices, m.payments[ids[k]]) || exists i: nat :: PaysForLater(m, ids, charges, i, k)
  {
    PassIsRun(m, config, now, ids, charges, k);
    var row := m.payments[ids[k]];
    if row.invoice.Some? {
      var invoice := row.invoice.value;
      PassPaysIff(m.payments, m.invoices, ids[..k], charges, invoice);
      if PaidBy(m.payments, ids[..k], charges, invoice) && invoice in m.invoices {
        var i :| 0 <= i < k && ids[..k][i] in m.payments && charges(ids[..k][i]).success
                 && m.payments[ids[..k][i]].invoice == Some(invoice);
        assert PaysForLater(m, ids, charges, i, k);
      }
      if i: nat :| PaysForLater(m, ids, charges, i, k) {
        assert ids[..k][i] == ids[i];
      }
    }
  }

  /** A pass charges some row whose invoice is paid iff a selected row's invoice was paid before the pass, or two
      selected rows are for one invoice and charging the earlier one succeeds. */
  lemma PassChargesPaidIff(m: Machine, config: Config, now: int, ids: seq<string>, charges: string -> Charge)
    requires m.queue == [] && forall i | 0 <= i < |ids| :: ids[i] in m.payments
    ensures (exists k: nat :: ChargesPaid(m, config, now, ids, charges, k)) <==>
      || (exists k: nat :: k < |ids| && InvoiceIsPaid(m.invoices, m.payments[ids[k]]))
      || (exists i: nat, j: nat :: PaysForLater(m, ids, charges, i, j))
  {
    if k: nat :| ChargesPaid(m, config, now, ids, charges, k) {
      RowChargedPaidIff(m, config, now, ids, charges, k);
    }
    if k: nat :| k < |ids| && InvoiceIsPaid(m.invoices, m.payments[ids[k]]) {
      RowChargedPaidIff(m, config, now, ids, charges, k);
    }
    if i: nat, j: nat :| PaysForLater(m, ids, charges, i, j) {
      RowChargedPaidIff(m, config, now, ids, charges, j);
    }
  }

  // ------------------------------------------------------------ whole runs

  /** The step pays the invoice, if it is in the table. */
  predicate Pays(m: Machine, step: Step, invoice: string) {
    match step
    case Pay(_, paid, _, success) => paid == invoice && success
    case WebhookSucceeded(paid) => paid == invoice
    case WebhookFailed(_) => false
    case Select(_, _) => false
    case Retry(c) => m.queue != [] && c.success && m.queue[0].1.invoice == Some(invoice)
  }

  lemma StepPaysIff(m: Machine, config: Config, step: Step, invoice: string)
    ensures invoice in Next(m, config, step).invoices <==> invoice in m.invoices
    ensures IsPaid(Next(m, config, step).invoices, invoice) <==>
      IsPaid(m.invoices, invoice) || (invoice in m.invoices && Pays(m, step, invoice))
  {
  }

  /** Some step of the run pays the invoice. */
  ghost predicate PaidDuring(m: Machine, config: Config, steps: seq<Step>, invoice: string) {
    exists i :: 0 <= i < |steps| && Pays(Run(m, config, steps[..i]), steps[i], invoice)
  }

  lemma PaidDuringPush(m: Machine, config: Config, steps: seq<Step>, step: Step, invoice: string)
    ensures PaidDuring(m, config, steps + [step], invoice) <==>
      PaidDuring(m, config, steps, invoice) || Pays(Run(m, config, steps), step, invoice)
  {
    var all := steps + [step];
    assert all[..|steps|] == steps && all[|steps|] == step;
    forall i | 0 <= i < |steps| ensures all[..i] == steps[..i] && all[i] == steps[i] {
    }
  }

  lemma {:induction false} RunPaysIff(m: Machine, config: Config, steps: seq<Step>, invoice: string)
    ensures invoice in Run(m, config, steps).invoices <==> invoice in m.invoices
    ensures IsPaid(Run(m, config, steps).invoices, invoice) <==>
      IsPaid(m.invoices, invoice) || (invoice in m.invoices && PaidDuring(m, config, steps, invoice))
  {
    if steps != [] {
      var front, last := steps[..|steps| - 1], steps[|steps| - 1];
      RunPaysIff(m, config, front, invoice);
      StepPaysIff(Run(m, config, front), config, last, invoice);
      PaidDuringPush(m, config, front, last, invoice);
      assert front + [last] == steps;
    }
  }

  /** Step n of the run is a retry of a row for the invoice. */
  ghost predicate RetriesFor(m: Machine, config: Config, steps: seq<Step>, n: nat, invoice: string) {
    && n < |steps| && steps[n].Retry?
    && var queue := Run(m, config, steps[..n]).queue; queue != [] && queue[0].1.invoice == Some(invoice)
  }

  /** Over every run, payments and webhooks interleaved with the worker: a retry charges a row whose invoice is paid
      iff the invoice is in the table and was paid at the start or by an earlier step. */
  lemma RetryChargesPaidIff(m: Machine, config: Config, steps: seq<Step>, n: nat, invoice: string)
    requires RetriesFor(m, config, steps, n, invoice)
    ensures IsPaid(Run(m, config, steps[..n]).invoices, invoice) <==>
      IsPaid(m.invoices, invoice) || (invoice in m.invoices && PaidDuring(m, config, steps[..n], invoice))
  {
    RunPaysIff(m, config, steps[..n], invoice);
  }

  /** So the worker charges unpaid invoices only, over a whole run, iff no retry for an invoice of the table comes
      after a step that pays it, and none is for an invoice paid at the start. */
  lemma RunChargesPaidIff(m: Machine, config: Config, steps: seq<Step>)
    ensures (exists n: nat, invoice :: RetriesFor(m, config, steps, n, invoice) &&
                                       IsPaid(Run(m, config, steps[..n]).invoices, invoice)) <==>
      (exists n: nat, invoice :: RetriesFor(m, config, steps, n, invoice) &&
                                 (IsPaid(m.invoices, invoice) ||
                                  (invoice in m.invoices && PaidDuring(m, config, steps[..n], invoice))))
  {
    forall n: nat, invoice | RetriesFor(m, config, steps, n, invoice)
      ensures IsPaid(Run(m, config, steps[..n]).invoices, invoice) <==>
        IsPaid(m.invoices, invoice) || (invoice in m.invoices && PaidDuring(m, config, steps[..n], invoice))
    {
      RetryChargesPaidIff(m, config, steps, n, invoice);
    }
  }

  // ------------------------------------------------- a pass is a legal run

  /** The steps of a pass: the selection, then the retries of the first k rows. */
  ghost predicate ArePassSteps(steps: seq<Step>, now: int, ids: seq<string>, charges: string -> Charge, k: nat)
    requires k <= |ids|
  {
    && |steps| == k + 1 && steps[0] == Select(now, ids)
    && forall i | 0 <= i < k :: steps[i + 1] == Retry(charges(ids[i]))
  }

  /** When charge k - 1 is done, or the selection if there is none. */
  function DoneBefore(now: int, ids: seq<string>, charges: string -> Charge, k: nat): int
    requires k <= |ids|
  {
    if k == 0 then now else charges(ids[k - 1]).doneAt
  }

  /** The charges are made one after the other, and time does not run backwards. */
  ghost predicate InTime(now: int, ids: seq<string>, charges: string -> Charge) {
    forall k | 0 <= k < |ids| :: DoneBefore(now, ids, charges, k) <= charges(ids[k]).at <= charges(ids[k]).doneAt
  }

  lemma SelectedAreHeld(payments: Payments, config: Config, now: int, ids: seq<string>)
    requires Selects(payments, config, now, ids)
    ensures forall i | 0 <= i < |ids| :: ids[i] in payments
  {
    forall i | 0 <= i < |ids| ensures ids[i] in payments {
      assert ids[i] in ids;
    }
  }

  /** x is the machine m after a selection of the rows and k of their retries. */
  ghost predicate MidPass(m: Machine, config: Config, x: Machine, now: int, ids: seq<string>, charges: string -> Charge,
                          k: nat)
    requires k <= |ids| && forall i | 0 <= i < |ids| :: ids[i] in m.payments
  {
    && x.queue == Rows(m.payments, ids)[k..]
    && x.clock == DoneBefore(now, ids, charges, k)
    && x.payments == PassPayments(m.payments, ids[..k], charges)
    && x.invoices == PassInvoices(m.payments, m.invoices, ids[..k], charges)
    && x.suspended == PassSuspensions(m.payments, m.suspended, ids[..k], charges, config)
  }

  lemma RetryInPass(m: Machine, config: Config, x: Machine, now: int, ids: seq<string>,
                    charges: string -> Charge, k: nat)
    requires k < |ids| && forall i | 0 <= i < |ids| :: ids[i] in m.payments
    requires InTime(now, ids, charges) && MidPass(m, config, x, now, ids, charges, k)
    ensures Enabled(x, config, Retry(charges(ids[k])))
    ensures MidPass(m, config, Next(x, config, Retry(charges(ids[k]))), now, ids, charges, k + 1)
  {
    var rows := Rows(m.payments, ids);
    assert rows[k..][0] == rows[k] == (ids[k], m.payments[ids[k]]);
    assert rows[k..][1..] == rows[k + 1..];
    PassStep(m, config, ids[..k], ids[k], charges);
    assert ids[..k + 1] == ids[..k] + [ids[k]];
  }

  lemma OneMoreStep(steps: seq<Step>, now: int, ids: seq<string>, charges: string -> Charge, k: nat)
    requires k < |ids| && ArePassSteps(steps, now, ids, charges, k)
    ensures ArePassSteps(steps + [Retry(charges(ids[k]))], now, ids, charges, k + 1)
  {
  }

  lemma SelectFirst(m: Machine, config: Config, now: int, ids: seq<string>, charges: string -> Charge)
    requires forall i | 0 <= i < |ids| :: ids[i] in m.payments
    requires Enabled(m, config, Select(now, ids))
    ensures Legal(m, config, [Select(now, ids)])
    ensures MidPass(m, config, Run(m, config, [Select(now, ids)]), now, ids, charges, 0)
  {
    RunPush(m, config, [], Select(now, ids));
    assert [] + [Select(now, ids)] == [Select(now, ids)];
    assert ids[..0] == [];
  }

  lemma RetryNext(m: Machine, config: Config, steps: seq<Step>, now: int, ids: seq<string>,
                  charges: string -> Charge, k: nat)
    requires k < |ids| && forall i | 0 <= i < |ids| :: ids[i] in m.payments
    requires InTime(now, ids, charges) && Legal(m, config, steps)
    requires MidPass(m, config, Run(m, config, steps), now, ids, charges, k)
    ensures Legal(m, config, steps + [Retry(charges(ids[k]))])
    ensures MidPass(m, config, Run(m, config, steps + [Retry(charges(ids[k]))]), now, ids, charges, k + 1)
  {
    RetryInPass(m, config, Run(m, config, steps), now, ids, charges, k);
    RunPush(m, config, steps, Retry(charges(ids[k])));
  }

  lemma NextInPass(m: Machine, config: Config, front: seq<Step>, now: int, ids: seq<string>,
                   charges: string -> Charge, k: nat) returns (steps: seq<Step>)
    requires k < |ids| && forall i | 0 <= i < |ids| :: ids[i] in m.payments
    requires InTime(now, ids, charges) && Legal(m, config, front) && ArePassSteps(front, now, ids, charges, k)
    requires MidPass(m, config, Run(m, config, front), now, ids, charges, k)
    ensures Legal(m, config, steps) && ArePassSteps(steps, now, ids, charges, k + 1)
    ensures MidPass(m, config, Run(m, config, steps), now, ids, charges, k + 1)
  {
    RetryNext(m, config, front, now, ids, charges, k);
    OneMoreStep(front, now, ids, charges, k);
    steps := front + [Retry(charges(ids[k]))];
  }

  /** The worker's pass is a legal run: its steps are the selection and the retries, and it leaves the tables that
      `RetryFailedPayments` leaves. */
  lemma {:induction false} PassIsLegal(
    m: Machine, config: Config, now: int, ids: seq<string>, charges: string -> Charge, k: nat)
    returns (steps: seq<Step>)
    requires k <= |ids| && forall i | 0 <= i < |ids| :: ids[i] in m.payments
    requires Enabled(m, config, Select(now, ids)) && InTime(now, ids, charges)
    ensures Legal(m, config, steps) && ArePassSteps(steps, now, ids, charges, k)
    ensures MidPass(m, config, Run(m, config, steps), now, ids, charges, k)
  {
    if k == 0 {
      SelectFirst(m, config, now, ids, charges);
      steps := [Select(now, ids)];
    } else {
      var front := PassIsLegal(m, config, now, ids, charges, k - 1);
      steps := NextInPass(m, config, front, now, ids, charges, k - 1);
    }
  }

  lemma {:induction false} RunAppend(m: Machine, config: Config, a: seq<Step>, b: seq<Step>)
    ensures Run(m, config, a + b) == Run(Run(m, config, a), config, b)
    ensures Legal(m, config, a + b) <==> Legal(m, config, a) && Legal(Run(m, config, a), config, b)
  {
    if b == [] {
      assert a + b == a;
    } else {
      var front, last := b[..|b| - 1], b[|b| - 1];
      RunAppend(m, config, a, front);
      RunPush(m, config, a + front, last);
      assert a + b == (a + front) + [last];
    }
  }

  /** From every reachable state, what `RetryFailedPayments` leaves is reached by going on with a legal run of steps:
      the theorems over runs hold of the worker's passes. */
  lemma PassExtendsRun(invoices: Invoices, clock: int, config: Config, steps: seq<Step>, now: int,
                       ids: seq<string>, charges: string -> Charge) returns (pass: seq<Step>)
    requires Legal(Start(invoices, clock), config, steps)
    requires var m := Run(Start(invoices, clock), config, steps);
      m.queue == [] && m.clock <= now && Selects(m.payments, config, now, ids)
    requires InTime(now, ids, charges)
    ensures ArePassSteps(pass, now, ids, charges, |ids|) && Legal(Start(invoices, clock), config, steps + pass)
    ensures var m := Run(Start(invoices, clock), config, steps);
      var after := Run(Start(invoices, clock), config, steps + pass);
      && after.payments == PassPayments(m.payments, ids, charges)
      && after.invoices == PassInvoices(m.payments, m.invoices, ids, charges)
      && after.suspended == PassSuspensions(m.payments, m.suspended, ids, charges, config)
      && after.queue == []
  {
    var m := Run(Start(invoices, clock), config, steps);
    SelectedAreHeld(m.payments, config, now, ids);
    pass := PassIsLegal(m, config, now, ids, charges, |ids|);
    RunAppend(Start(invoices, clock), config, steps, pass);
    assert ids[..|ids|] == ids;
  }

  // ------------------------------------------------------- succeeded rows

  lemma {:induction false} InvAlongRun(m: Machine, config: Config, steps: seq<Step>)
    requires Inv(m, config) && Legal(m, config, steps)
    ensures Inv(Run(m, config, steps), config)
  {
    if steps != [] {
      InvAlongRun(m, config, steps[..|steps| - 1]);
      StepKeepsInv(Run(m, config, steps[..|steps| - 1]), config, steps[|steps| - 1]);
    }
  }

  /** Whatever happens after a row has succeeded, it stays as it is and is not charged again. */
  lemma {:induction false} SucceededRowsStay(m: Machine, config: Config, steps: seq<Step>, id: string)
    requires Inv(m, config) && Legal(m, config, steps)
    requires id in m.payments && m.payments[id].status == Succeeded
    ensures var last := Run(m, config, steps);
      id in last.payments && last.payments[id] == m.payments[id] && Tries(last.attempts, id) == Tries(m.attempts, id)
  {
    if steps != [] {
      var front := steps[..|steps| - 1];
      SucceededRowsStay(m, config, front, id);
      InvAlongRun(m, config, front);
      SucceededRowsAreFinal(Run(m, config, front), config, steps[|steps| - 1], id);
    }
  }
}
