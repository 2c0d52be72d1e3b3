/** Payments, webhooks and the retry worker over the billing tables. */
module Dunning {
  import opened Powers
  import opened Wrappers

  datatype PaymentStatus = Succeeded | Failed

  datatype Payment = Payment(
    invoice: Option<string>, customer: string, status: PaymentStatus, retryCount: nat, nextRetryAt: Option<int>)

  datatype InvoiceStatus = Draft | Open | Paid | Void | Uncollectible

  datatype Config = Config(maxRetries: nat, suspendAfterMaxRetries: bool)

  /** What the provider answers to one charge, with the times before and after it, in seconds. */
  datatype Charge = Charge(success: bool, at: int, doneAt: int)

  type Payments = map<string, Payment>
  type Invoices = map<string, InvoiceStatus>

  function Backoff(n: nat): nat { Pow2(n) * 60 }

  // ------------------------------------------------------------ table updates

  function MarkedPaid(invoices: Invoices, invoice: string): Invoices {
    if invoice in invoices then invoices[invoice := Paid] else invoices
  }

  function MarkedFailed(invoices: Invoices, invoice: string): Invoices {
    if invoice in invoices && invoices[invoice] == Draft then invoices[invoice := Open] else invoices
  }

  /** The new row of a first payment attempt. */
  function FirstAttempt(invoice: string, customer: string, success: bool): Payment {
    Payment(Some(invoice), customer, if success then Succeeded else Failed, 0, None)
  }

  predicate Due(p: Payment, now: int) { p.nextRetryAt.None? || p.nextRetryAt.value <= now }

  predicate Eligible(p: Payment, config: Config, now: int) {
    p.status == Failed && p.retryCount < config.maxRetries && Due(p, now)
  }

  /** A row as one retry leaves it. */
  function RetriedRow(p: Payment, c: Charge): Payment {
    if c.success then p.(status := Succeeded)
    else p.(status := Failed, retryCount := p.retryCount + 1, nextRetryAt := Some(c.doneAt + Backoff(p.retryCount + 1)))
  }

  function RetriedInvoices(invoices: Invoices, p: Payment, c: Charge): Invoices {
    if c.success && p.invoice.Some? then MarkedPaid(invoices, p.invoice.value) else invoices
  }

  function RetriedSuspensions(suspended: set<string>, p: Payment, c: Charge, config: Config): set<string> {
    if !c.success && p.retryCount + 1 >= config.maxRetries && config.suspendAfterMaxRetries
    then suspended + {p.customer} else suspended
  }

  /** The rows a worker pass selects, in whatever order the database returns them. */
  ghost predicate Selects(payments: Payments, config: Config, now: int, ids: seq<string>) {
    && (forall i, j | 0 <= i < j < |ids| :: ids[i] != ids[j])
    && (forall id: string :: id in ids <==> id in payments && Eligible(payments[id], config, now))
  }

  function PassPayments(payments: Payments, ids: seq<string>, charges: string -> Charge): Payments {
    if ids == [] then payments
    else
      var id := ids[|ids| - 1];
      var before := PassPayments(payments, ids[..|ids| - 1], charges);
      if id in payments then before[id := RetriedRow(payments[id], charges(id))] else before
  }

  function PassInvoices(payments: Payments, invoices: Invoices, ids: seq<string>, charges: string -> Charge): Invoices {
    if ids == [] then invoices
    else
      var id := ids[|ids| - 1];
      var before := PassInvoices(payments, invoices, ids[..|ids| - 1], charges);
      if id in payments then RetriedInvoices(before, payments[id], charges(id)) else before
  }

  function PassSuspensions(
    payments: Payments, suspended: set<string>, ids: seq<string>, charges: string -> Charge, config: Config)
    : set<string>
  {
    if ids == [] then suspended
    else
      var id := ids[|ids| - 1];
      var before := PassSuspensions(payments, suspended, ids[..|ids| - 1], charges, config);
      if id in payments then RetriedSuspensions(before, payments[id], charges(id), config) else before
  }

  lemma {:induction false} UntouchedRow(payments: Payments, ids: seq<string>, charges: string -> Charge, id: string)
    requires id !in ids
    ensures id in PassPayments(payments, ids, charges) <==> id in payments
    ensures id in payments ==> PassPayments(payments, ids, charges)[id] == payments[id]
  {
    if ids != [] {
      assert ids == ids[..|ids| - 1] + [ids[|ids| - 1]];
      UntouchedRow(payments, ids[..|ids| - 1], charges, id);
    }
  }

  datatype BillingError = InvoiceNotFound

  class BillingTables {
    const config: Config
    var payments: Payments
    var invoices: Invoices
    var suspended: set<string>

    constructor (config: Config)
      ensures this.config == config && payments == map[] && invoices == map[] && suspended == {}
    {
      this.config := config;
      payments, invoices, suspended := map[], map[], {};
    }

    method MarkInvoicePaid(invoice: string)
      modifies `invoices
      ensures invoices == MarkedPaid(old(invoices), invoice)
    {
      if invoice in invoices {
        invoices := invoices[invoice := Paid];
      }
    }

    method HandlePaymentFailure(invoice: string)
      modifies `invoices
      ensures invoices == MarkedFailed(old(invoices), invoice)
    {
      if invoice in invoices && invoices[invoice] == Draft {
        invoices := invoices[invoice := Open];
      }
    }

    /** The new row's id is a fresh UUID; an invoice already paid is not charged. */
    method ProcessPayment(invoice: string, customer: string, id: string, success: bool)
      returns (r: Result<bool, BillingError>)
      requires id !in payments
      modifies `payments, `invoices
      ensures invoice !in old(invoices) ==>
        r == Err(InvoiceNotFound) && payments == old(payments) && invoices == old(invoices)
      ensures invoice in old(invoices) && old(invoices)[invoice] == Paid ==>
        r == Ok(true) && payments == old(payments) && invoices == old(invoices)
      ensures invoice in old(invoices) && old(invoices)[invoice] != Paid ==>
        && r == Ok(success) && payments == old(payments)[id := FirstAttempt(invoice, customer, success)]
        && invoices == if success then MarkedPaid(old(invoices), invoice) else old(invoices)
    {
      if invoice !in invoices {
        return Err(InvoiceNotFound);
      }
      if invoices[invoice] == Paid {
        return Ok(true);
      }
      payments := payments[id := FirstAttempt(invoice, customer, success)];
      if success {
        MarkInvoicePaid(invoice);
      }
      return Ok(success);
    }

    method SelectEligible(now: int) returns (ids: seq<string>)
      ensures Selects(payments, config, now, ids)
    {
      ids := [];
      var left := payments.Keys;
      while left != {}
        invariant left <= payments.Keys
        invariant forall i, j | 0 <= i < j < |ids| :: ids[i] != ids[j]
        invariant forall id: string :: id in ids <==>
          id in payments && id !in left && Eligible(payments[id], config, now)
        decreases left
      {
        var id :| id in left;
        if Eligible(payments[id], config, now) {
          ids := ids + [id];
        }
        left := left - {id};
      }
    }

    /** One pass of the worker: select, then charge and update row by row. */
    method RetryFailedPayments(now: int, charges: string -> Charge) returns (ghost ids: seq<string>)
      modifies this
      ensures Selects(old(payments), config, now, ids)
      ensures payments == PassPayments(old(payments), ids, charges)
      ensures invoices == PassInvoices(old(payments), old(invoices), ids, charges)
      ensures suspended == PassSuspensions(old(payments), old(suspended), ids, charges, config)
    {
      var rows := SelectEligible(now);
      ids := rows;
      ghost var was := payments;
      for i := 0 to |rows|
        invariant payments == PassPayments(was, rows[..i], charges)
        invariant invoices == PassInvoices(was, old(invoices), rows[..i], charges)
        invariant suspended == PassSuspensions(was, old(suspended), rows[..i], charges, config)
      {
        assert rows[..i + 1][..i] == rows[..i];
        assert rows[i] in rows && rows[i] !in rows[..i];
        UntouchedRow(was, rows[..i], charges, rows[i]);
        RetryRow(rows[i], charges(rows[i]));
      }
      assert rows[..|rows|] == rows;
    }

    method RetryRow(id: string, c: Charge)
      requires id in payments
      modifies this
      ensures payments == old(payments)[id := RetriedRow(old(payments)[id], c)]
      ensures invoices == RetriedInvoices(old(invoices), old(payments)[id], c)
      ensures suspended == RetriedSuspensions(old(suspended), old(payments)[id], c, config)
    {
      var row := payments[id];
      payments := payments[id := row.(status := if c.success then Succeeded else Failed)];
      if c.success {
        if row.invoice.Some? {
          MarkInvoicePaid(row.invoice.value);
        }
      } else {
        var count := row.retryCount + 1;
        payments := payments[id := payments[id].(retryCount := count, nextRetryAt := Some(c.doneAt + Backoff(count)))];
        if count >= config.maxRetries && config.suspendAfterMaxRetries {
          suspended := suspended + {row.customer};
        }
      }
    }
  }
}
