/** What becomes of a customer's credits over several invoices: no invoice takes what it applies from the balance. */
module CreditRuns {
  import opened Invoicing

  /** What one invoice applies of the available credits. */
  function Applied(subtotal: real, available: real): real { if available <= subtotal then available else subtotal }

  /** The invoice is settled against the credits, as `GenerateInvoice` settles it. */
  ghost predicate SettledWith(invoice: Invoice, credits: int) {
    exists usage :: Settles(invoice, usage, credits)
  }

  function AppliedTo(subtotals: seq<real>, available: real): real {
    if subtotals == [] then 0.0
    else AppliedTo(subtotals[..|subtotals| - 1], available) + Applied(subtotals[|subtotals| - 1], available)
  }

  function Sum(subtotals: seq<real>): real {
    if subtotals == [] then 0.0 else Sum(subtotals[..|subtotals| - 1]) + subtotals[|subtotals| - 1]
  }

  function CreditsTaken(invoices: seq<Invoice>): real {
    if invoices == [] then 0.0
    else CreditsTaken(invoices[..|invoices| - 1]) + invoices[|invoices| - 1].creditApplied
  }

  function Subtotals(invoices: seq<Invoice>): seq<real> {
    if invoices == [] then [] else Subtotals(invoices[..|invoices| - 1]) + [invoices[|invoices| - 1].subtotal]
  }

  ghost predicate NoneNegative(subtotals: seq<real>) { forall i | 0 <= i < |subtotals| :: subtotals[i] >= 0.0 }

  /** At most one of the invoices is for anything. */
  ghost predicate OnePositive(subtotals: seq<real>) {
    forall i, j | 0 <= i < j < |subtotals| :: subtotals[i] == 0.0 || subtotals[j] == 0.0
  }

  ghost predicate AllZero(subtotals: seq<real>) { forall i | 0 <= i < |subtotals| :: subtotals[i] == 0.0 }

  lemma {:induction false} NothingApplied(subtotals: seq<real>, available: real)
    requires available >= 0.0 && (available == 0.0 || AllZero(subtotals)) && NoneNegative(subtotals)
    ensures AppliedTo(subtotals, available) == 0.0
  {
    if subtotals != [] {
      NothingApplied(subtotals[..|subtotals| - 1], available);
    }
  }

  lemma {:induction false} AppliedAtMostSum(subtotals: seq<real>, available: real)
    ensures AppliedTo(subtotals, available) <= Sum(subtotals)
  {
    if subtotals != [] {
      AppliedAtMostSum(subtotals[..|subtotals| - 1], available);
    }
  }

  lemma {:induction false} OneIsWithin(subtotals: seq<real>, available: real)
    requires available >= 0.0 && NoneNegative(subtotals) && OnePositive(subtotals)
    ensures AppliedTo(subtotals, available) <= available
  {
    if subtotals != [] {
      var front := subtotals[..|subtotals| - 1];
      if subtotals[|subtotals| - 1] == 0.0 {
        OneIsWithin(front, available);
      } else {
        NothingApplied(front, available);
      }
    }
  }

  lemma {:induction false} SmallAreWhollyPaid(subtotals: seq<real>, available: real)
    requires forall i | 0 <= i < |subtotals| :: subtotals[i] <= available
    ensures AppliedTo(subtotals, available) == Sum(subtotals)
  {
    if subtotals != [] {
      SmallAreWhollyPaid(subtotals[..|subtotals| - 1], available);
    }
  }

  lemma {:induction false} OneTerm(subtotals: seq<real>, available: real, i: nat)
    requires available >= 0.0 && NoneNegative(subtotals) && i < |subtotals|
    ensures AppliedTo(subtotals, available) >= Applied(subtotals[i], available) >= 0.0
  {
    var front := subtotals[..|subtotals| - 1];
    if i < |front| {
      OneTerm(front, available, i);
    } else if |front| > 0 {
      OneTerm(front, available, 0);
    }
  }

  lemma {:induction false} TwoTerms(subtotals: seq<real>, available: real, i: nat, j: nat)
    requires available >= 0.0 && NoneNegative(subtotals) && i < j < |subtotals|
    ensures AppliedTo(subtotals, available) >= Applied(subtotals[i], available) + Applied(subtotals[j], available)
  {
    var front := subtotals[..|subtotals| - 1];
    if j < |front| {
      TwoTerms(front, available, i, j);
    } else {
      OneTerm(front, available, i);
    }
  }

  lemma TwoExceed(subtotals: seq<real>, available: real, i: nat, j: nat)
    requires available > 0.0 && NoneNegative(subtotals) && Sum(subtotals) > available
    requires i < j < |subtotals| && subtotals[i] > 0.0 && subtotals[j] > 0.0
    ensures AppliedTo(subtotals, available) > available
  {
    if k :| 0 <= k < |subtotals| && subtotals[k] > available {
      var other := if k == i then j else i;
      if k < other {
        TwoTerms(subtotals, available, k, other);
      } else {
        TwoTerms(subtotals, available, other, k);
      }
    } else {
      SmallAreWhollyPaid(subtotals, available);
    }
  }

  lemma AppliedOnceIff(subtotals: seq<real>, available: real)
    requires available >= 0.0 && NoneNegative(subtotals)
    ensures AppliedTo(subtotals, available) <= available <==>
      available == 0.0 || Sum(subtotals) <= available || OnePositive(subtotals)
  {
    AppliedAtMostSum(subtotals, available);
    if available == 0.0 {
      NothingApplied(subtotals, available);
    } else if OnePositive(subtotals) {
      OneIsWithin(subtotals, available);
    } else if Sum(subtotals) > available {
      var i, j :| 0 <= i < j < |subtotals| && subtotals[i] != 0.0 && subtotals[j] != 0.0;
      TwoExceed(subtotals, available, i, j);
    }
  }

  lemma {:induction false} SettledAmounts(invoices: seq<Invoice>, credits: int)
    requires forall i | 0 <= i < |invoices| :: SettledWith(invoices[i], credits)
    ensures CreditsTaken(invoices) == AppliedTo(Subtotals(invoices), Available(credits))
    ensures |Subtotals(invoices)| == |invoices|
    ensures forall i | 0 <= i < |invoices| :: Subtotals(invoices)[i] == invoices[i].subtotal >= 0.0
  {
    if invoices != [] {
      var front, last := invoices[..|invoices| - 1], invoices[|invoices| - 1];
      SettledAmounts(front, credits);
      var usage :| Settles(last, usage, credits);
      assert (Subtotals(front) + [last.subtotal])[..|front|] == Subtotals(front);
      assert last.creditApplied == Applied(last.subtotal, Available(credits));
    }
  }

  /** Over any invoices of a customer whose credits stay as they are, the credits applied stay within the credits iff
      there are none, or they cover all the subtotals together, or at most one subtotal is positive. */
  lemma CreditsSpentOnceIff(invoices: seq<Invoice>, credits: int)
    requires forall i | 0 <= i < |invoices| :: SettledWith(invoices[i], credits)
    ensures CreditsTaken(invoices) <= Available(credits) <==>
      Available(credits) == 0.0 || Sum(Subtotals(invoices)) <= Available(credits) || OnePositive(Subtotals(invoices))
  {
    SettledAmounts(invoices, credits);
    AppliedOnceIff(Subtotals(invoices), Available(credits));
  }

  /** Two invoices that each reach the credits apply them twice. */
  lemma TwoInvoicesApplyCreditsTwice(a: Invoice, b: Invoice, credits: int)
    requires SettledWith(a, credits) && SettledWith(b, credits)
    requires credits > 0 && a.subtotal >= Available(credits) && b.subtotal >= Available(credits)
    ensures CreditsTaken([a, b]) == 2.0 * Available(credits) > Available(credits)
  {
    SettledAmounts([a, b], credits);
    assert [a, b][..1] == [a] && [a][..0] == [];
    assert CreditsTaken([a]) == a.creditApplied;
    SettledAmounts([a], credits);
    SettledAmounts([b], credits);
    assert [b][..0] == [];
    assert CreditsTaken([b]) == b.creditApplied;
  }
}
