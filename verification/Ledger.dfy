/**
 Payments, refunds and SAP invoices, and their totals over stretches of time
 (apps/portal/lib/crm.ts). Money is whole kobo, on which the source's rounding to
 two decimals of a naira changes nothing; an amount that is not a finite number
 is kept apart, because the source's computations treat it differently.
 */
module Ledger {
  import opened Wrappers

  datatype Amount = Kobo(n: int) | NotFinite

  function Plus(a: Amount, b: Amount): Amount {
    if a.Kobo? && b.Kobo? then Kobo(a.n + b.n) else NotFinite
  }

  function Minus(a: Amount, b: Amount): Amount {
    if a.Kobo? && b.Kobo? then Kobo(a.n - b.n) else NotFinite
  }

  datatype Entry = Entry(at: int, amount: Amount)

  datatype Job = Job(receivedAt: Option<int>, finishedAt: Option<int>, cancelled: bool, customerBilled: int,
                     payments: seq<Entry>, refunds: seq<Entry>)

  predicate Finished(j: Job) {
    !j.cancelled && j.finishedAt.Some?
  }

  /** Customer-billed work, dated by when the job was finished. */
  function BilledOf(j: Job): seq<Entry> {
    if Finished(j) then [Entry(j.finishedAt.value, Kobo(j.customerBilled))] else []
  }

  function Payments(jobs: seq<Job>): seq<Entry> {
    if jobs == [] then [] else Payments(jobs[..|jobs| - 1]) + jobs[|jobs| - 1].payments
  }

  function Refunds(jobs: seq<Job>): seq<Entry> {
    if jobs == [] then [] else Refunds(jobs[..|jobs| - 1]) + jobs[|jobs| - 1].refunds
  }

  function Billed(jobs: seq<Job>): seq<Entry> {
    if jobs == [] then [] else Billed(jobs[..|jobs| - 1]) + BilledOf(jobs[|jobs| - 1])
  }

  // ----- totals

  /** `total`: amounts that are not finite are skipped. */
  function Total(xs: seq<Entry>): int {
    if xs == [] then 0
    else Total(xs[..|xs| - 1]) + match xs[|xs| - 1].amount case Kobo(n) => n case NotFinite => 0
  }

  /** The entries from `from` until just before `until`. */
  function Within(xs: seq<Entry>, from: int, until: int): seq<Entry> {
    if xs == [] then []
    else
      Within(xs[..|xs| - 1], from, until) +
      if from <= xs[|xs| - 1].at < until then [xs[|xs| - 1]] else []
  }

  /** The money that moves a customer's spend. */
  datatype Streams = Streams(payments: seq<Entry>, refunds: seq<Entry>, sap: seq<Entry>)

  /** Payments less refunds plus SAP invoices, in a stretch of time. */
  function Net(st: Streams, from: int, until: int): int {
    Total(Within(st.payments, from, until)) - Total(Within(st.refunds, from, until))
      + Total(Within(st.sap, from, until))
  }

  /** Every amount in the stretch is finite. */
  ghost predicate AllFinite(xs: seq<Entry>, from: int, until: int) {
    forall i :: 0 <= i < |xs| && from <= xs[i].at < until ==> xs[i].amount.Kobo?
  }

  ghost predicate NetFinite(st: Streams, from: int, until: int) {
    AllFinite(st.payments, from, until) && AllFinite(st.refunds, from, until) && AllFinite(st.sap, from, until)
  }

  function Finite(n: int, ok: bool): Amount {
    if ok then Kobo(n) else NotFinite
  }

  /** A stretch's total as one sum of amounts would leave it. */
  ghost function Sum(xs: seq<Entry>, from: int, until: int): Amount {
    Finite(Total(Within(xs, from, until)), AllFinite(xs, from, until))
  }

  lemma {:induction false} WithinStep(xs: seq<Entry>, from: int, until: int)
    requires xs != []
    ensures var e := xs[|xs| - 1];
            Total(Within(xs, from, until)) == Total(Within(xs[..|xs| - 1], from, until))
              + if from <= e.at < until && e.amount.Kobo? then e.amount.n else 0
  {
    var ys := Within(xs, from, until);
    if from <= xs[|xs| - 1].at < until {
      assert ys[..|ys| - 1] == Within(xs[..|xs| - 1], from, until);
    } else {
      assert ys == Within(xs[..|xs| - 1], from, until);
    }
  }

  lemma {:induction false} AllFiniteStep(xs: seq<Entry>, from: int, until: int)
    requires xs != []
    ensures var e := xs[|xs| - 1];
            AllFinite(xs, from, until) <==>
            AllFinite(xs[..|xs| - 1], from, until) && (from <= e.at < until ==> e.amount.Kobo?)
  {
    var init := xs[..|xs| - 1];
    assert forall i :: 0 <= i < |init| ==> init[i] == xs[i];
  }

  /** Booking one more entry. */
  lemma {:induction false} SumStep(xs: seq<Entry>, from: int, until: int)
    requires xs != []
    ensures var e, rest := xs[|xs| - 1], Sum(xs[..|xs| - 1], from, until);
            Sum(xs, from, until) == if from <= e.at < until then Plus(rest, e.amount) else rest
  {
    WithinStep(xs, from, until);
    AllFiniteStep(xs, from, until);
  }

  /** Cutting a stretch in two cuts its total in two. */
  lemma {:induction false} WithinSplit(xs: seq<Entry>, from: int, mid: int, until: int)
    requires from <= mid <= until
    ensures Total(Within(xs, from, until)) == Total(Within(xs, from, mid)) + Total(Within(xs, mid, until))
  {
    if xs != [] {
      WithinSplit(xs[..|xs| - 1], from, mid, until);
      WithinStep(xs, from, mid);
      WithinStep(xs, mid, until);
      WithinStep(xs, from, until);
    }
  }

  lemma {:induction false} NetSplit(st: Streams, from: int, mid: int, until: int)
    requires from <= mid <= until
    ensures Net(st, from, until) == Net(st, from, mid) + Net(st, mid, until)
    ensures NetFinite(st, from, until) <==> NetFinite(st, from, mid) && NetFinite(st, mid, until)
  {
    WithinSplit(st.payments, from, mid, until);
    WithinSplit(st.refunds, from, mid, until);
    WithinSplit(st.sap, from, mid, until);
  }

  lemma {:induction false} NothingWithin(xs: seq<Entry>, from: int, until: int)
    requires forall i :: 0 <= i < |xs| ==> xs[i].at < from
    ensures Total(Within(xs, from, until)) == 0
  {
    if xs != [] {
      NothingWithin(xs[..|xs| - 1], from, until);
      WithinStep(xs, from, until);
    }
  }

  /** The net of a stretch as sums of amounts would leave it. */
  ghost function NetOver(st: Streams, from: int, until: int): Amount {
    Finite(Net(st, from, until), NetFinite(st, from, until))
  }

  lemma {:induction false} NetOfSums(st: Streams, from: int, until: int)
    ensures Plus(Minus(Sum(st.payments, from, until), Sum(st.refunds, from, until)), Sum(st.sap, from, until))
            == NetOver(st, from, until)
  {
  }

  lemma {:induction false} NetOverJoins(st: Streams, from: int, mid: int, until: int)
    requires from <= mid <= until
    ensures Plus(NetOver(st, from, mid), NetOver(st, mid, until)) == NetOver(st, from, until)
  {
    NetSplit(st, from, mid, until);
  }

  lemma {:induction false} NetOverNothing(st: Streams, from: int)
    ensures NetOver(st, from, from) == Kobo(0)
  {
    NetSplit(st, from, from, from);
  }

  /** Consecutive stretches, the k-th from `starts(k)` until `starts(k + 1)`, summed. */
  ghost function SumOfStretches(st: Streams, starts: int -> int, first: int, last: int): Amount
    decreases last - first
  {
    if last < first then Kobo(0)
    else Plus(SumOfStretches(st, starts, first, last - 1), NetOver(st, starts(last), starts(last + 1)))
  }

  predicate InOrder(starts: int -> int, j: int, k: int) {
    j <= k ==> starts(j) <= starts(k)
  }

  /** No entry is lost or counted twice between consecutive stretches. */
  lemma {:induction false} StretchesPartition(st: Streams, starts: int -> int, first: int, last: int)
    requires first <= last + 1
    requires forall j, k :: InOrder(starts, j, k)
    ensures SumOfStretches(st, starts, first, last) == NetOver(st, starts(first), starts(last + 1))
    decreases last - first
  {
    if last < first {
      NetOverNothing(st, starts(first));
    } else {
      StretchesPartition(st, starts, first, last - 1);
      assert InOrder(starts, first, last) && InOrder(starts, last, last + 1);
      NetOverJoins(st, starts(first), starts(last), starts(last + 1));
    }
  }

  // ----- one entry more, one job more

  lemma {:induction false} TotalAnd(xs: seq<Entry>, e: Entry, from: int, until: int)
    ensures Total(Within(xs + [e], from, until))
         == Total(Within(xs, from, until)) + if from <= e.at < until && e.amount.Kobo? then e.amount.n else 0
  {
    assert (xs + [e])[..|xs + [e]| - 1] == xs;
    WithinStep(xs + [e], from, until);
  }

  lemma {:induction false} TotalWith(x: seq<Entry>, e: Entry, y: seq<Entry>, from: int, until: int)
    ensures Total(Within(x + [e] + y, from, until))
         == Total(Within(x + y, from, until)) + if from <= e.at < until && e.amount.Kobo? then e.amount.n else 0
  {
    if y == [] {
      assert x + y == x && x + [e] + y == x + [e];
      TotalAnd(x, e, from, until);
    } else {
      var init, last := y[..|y| - 1], y[|y| - 1];
      TotalWith(x, e, init, from, until);
      assert x + [e] + y == x + [e] + init + [last] && x + y == x + init + [last];
      TotalAnd(x + [e] + init, last, from, until);
      TotalAnd(x + init, last, from, until);
    }
  }

  lemma {:induction false} LastOfBoth<T>(a: seq<T>, b: seq<T>)
    requires b != []
    ensures (a + b)[..|a + b| - 1] == a + b[..|b| - 1] && (a + b)[|a + b| - 1] == b[|b| - 1]
  {
  }

  lemma {:induction false} PaymentsConcat(a: seq<Job>, b: seq<Job>)
    ensures Payments(a + b) == Payments(a) + Payments(b)
  {
    if b == [] {
      assert a + b == a && Payments(a) + Payments(b) == Payments(a);
    } else {
      LastOfBoth(a, b);
      PaymentsConcat(a, b[..|b| - 1]);
      Associate(Payments(a), Payments(b[..|b| - 1]), b[|b| - 1].payments);
    }
  }

  lemma {:induction false} RefundsConcat(a: seq<Job>, b: seq<Job>)
    ensures Refunds(a + b) == Refunds(a) + Refunds(b)
  {
    if b == [] {
      assert a + b == a && Refunds(a) + Refunds(b) == Refunds(a);
    } else {
      LastOfBoth(a, b);
      RefundsConcat(a, b[..|b| - 1]);
      Associate(Refunds(a), Refunds(b[..|b| - 1]), b[|b| - 1].refunds);
    }
  }

  lemma {:induction false} BilledConcat(a: seq<Job>, b: seq<Job>)
    ensures Billed(a + b) == Billed(a) + Billed(b)
  {
    if b == [] {
      assert a + b == a && Billed(a) + Billed(b) == Billed(a);
    } else {
      LastOfBoth(a, b);
      BilledConcat(a, b[..|b| - 1]);
      Associate(Billed(a), Billed(b[..|b| - 1]), BilledOf(b[|b| - 1]));
    }
  }

  lemma {:induction false} Associate<T>(a: seq<T>, b: seq<T>, c: seq<T>)
    ensures a + b + c == a + (b + c)
  {
  }

  lemma {:induction false} EntriesOfOne(j: Job)
    ensures Payments([j]) == j.payments && Refunds([j]) == j.refunds && Billed([j]) == BilledOf(j)
  {
    assert [j][..0] == [];
  }

  /** The entries of a list of jobs, seen from one of them. */
  lemma {:induction false} EntriesAround(before: seq<Job>, j: Job, after: seq<Job>)
    ensures Payments(before + [j] + after) == Payments(before) + j.payments + Payments(after)
    ensures Refunds(before + [j] + after) == Refunds(before) + j.refunds + Refunds(after)
    ensures Billed(before + [j] + after) == Billed(before) + BilledOf(j) + Billed(after)
  {
    PaymentsConcat(before + [j], after);
    PaymentsConcat(before, [j]);
    RefundsConcat(before + [j], after);
    RefundsConcat(before, [j]);
    BilledConcat(before + [j], after);
    BilledConcat(before, [j]);
    EntriesOfOne(j);
  }

  /** The entries with one more at some place. */
  function With(xs: seq<Entry>, p: nat, e: Entry): seq<Entry>
    requires p <= |xs|
  {
    xs[..p] + [e] + xs[p..]
  }

  lemma {:induction false} WithAround(a: seq<Entry>, xs: seq<Entry>, p: nat, e: Entry, b: seq<Entry>)
    requires p <= |xs|
    ensures a + xs + b == (a + xs[..p]) + (xs[p..] + b)
    ensures a + With(xs, p, e) + b == (a + xs[..p]) + [e] + (xs[p..] + b)
  {
    assert xs == xs[..p] + xs[p..];
  }

  /** A job with one more payment, and one with one more refund: whatever else the job is. */
  function Paying(j: Job, p: nat, e: Entry): Job
    requires p <= |j.payments|
  {
    j.(payments := With(j.payments, p, e))
  }

  function Refunding(j: Job, p: nat, e: Entry): Job
    requires p <= |j.refunds|
  {
    j.(refunds := With(j.refunds, p, e))
  }

  lemma {:induction false} OneMorePayment(before: seq<Job>, j: Job, after: seq<Job>, p: nat, e: Entry)
    requires p <= |j.payments|
    ensures var x, y := Payments(before) + j.payments[..p], j.payments[p..] + Payments(after);
            && Payments(before + [j] + after) == x + y
            && Payments(before + [Paying(j, p, e)] + after) == x + [e] + y
    ensures Refunds(before + [Paying(j, p, e)] + after) == Refunds(before + [j] + after)
  {
    EntriesAround(before, j, after);
    EntriesAround(before, Paying(j, p, e), after);
    WithAround(Payments(before), j.payments, p, e, Payments(after));
  }

  lemma {:induction false} OneMoreRefund(before: seq<Job>, j: Job, after: seq<Job>, p: nat, e: Entry)
    requires p <= |j.refunds|
    ensures var x, y := Refunds(before) + j.refunds[..p], j.refunds[p..] + Refunds(after);
            && Refunds(before + [j] + after) == x + y
            && Refunds(before + [Refunding(j, p, e)] + after) == x + [e] + y
    ensures Payments(before + [Refunding(j, p, e)] + after) == Payments(before + [j] + after)
  {
    EntriesAround(before, j, after);
    EntriesAround(before, Refunding(j, p, e), after);
    WithAround(Refunds(before), j.refunds, p, e, Refunds(after));
  }

  /**
   One more payment, of any job, adds to a stretch's net just when it is finite and dated in it; one more refund
   takes away.
   */
  lemma {:induction false} NetWithPayment(before: seq<Job>, j: Job, after: seq<Job>, p: nat, e: Entry, sap: seq<Entry>,
                                          from: int, until: int)
    requires p <= |j.payments|
    ensures var jobs, more := before + [j] + after, before + [Paying(j, p, e)] + after;
            Net(Streams(Payments(more), Refunds(more), sap), from, until)
            == Net(Streams(Payments(jobs), Refunds(jobs), sap), from, until)
             + if from <= e.at < until && e.amount.Kobo? then e.amount.n else 0
  {
    OneMorePayment(before, j, after, p, e);
    TotalWith(Payments(before) + j.payments[..p], e, j.payments[p..] + Payments(after), from, until);
  }

  lemma {:induction false} NetWithRefund(before: seq<Job>, j: Job, after: seq<Job>, p: nat, e: Entry, sap: seq<Entry>,
                                         from: int, until: int)
    requires p <= |j.refunds|
    ensures var jobs, more := before + [j] + after, before + [Refunding(j, p, e)] + after;
            Net(Streams(Payments(more), Refunds(more), sap), from, until)
            == Net(Streams(Payments(jobs), Refunds(jobs), sap), from, until)
             - if from <= e.at < until && e.amount.Kobo? then e.amount.n else 0
  {
    OneMoreRefund(before, j, after, p, e);
    TotalWith(Refunds(before) + j.refunds[..p], e, j.refunds[p..] + Refunds(after), from, until);
  }

  lemma {:induction false} NoEntries(jobs: seq<Job>)
    requires forall i :: 0 <= i < |jobs| ==> jobs[i].payments == [] && jobs[i].refunds == []
    ensures Payments(jobs) == [] && Refunds(jobs) == []
  {
    if jobs != [] {
      NoEntries(jobs[..|jobs| - 1]);
    }
  }

  // ----- what is owed

  /** What a finished job still owes; over-payment counts as nothing owed. */
  function Owed(j: Job): int {
    var due := j.customerBilled - (Total(j.payments) - Total(j.refunds));
    if due > 0 then due else 0
  }

  function Outstanding(jobs: seq<Job>): int {
    if jobs == [] then 0
    else Outstanding(jobs[..|jobs| - 1]) + if Finished(jobs[|jobs| - 1]) then Owed(jobs[|jobs| - 1]) else 0
  }

  /** Customer-billed work less net payments, over the finished jobs. */
  function NetOwed(jobs: seq<Job>): int {
    if jobs == [] then 0
    else
      var j := jobs[|jobs| - 1];
      NetOwed(jobs[..|jobs| - 1]) + if Finished(j) then j.customerBilled - (Total(j.payments) - Total(j.refunds)) else 0
  }

  predicate OverPaid(j: Job) {
    Total(j.payments) - Total(j.refunds) > j.customerBilled
  }

  /** Never negative, never below the net, and equal to it exactly when no finished job is over-paid. */
  lemma {:induction false} OutstandingBounds(jobs: seq<Job>)
    ensures Outstanding(jobs) >= 0
    ensures Outstanding(jobs) >= NetOwed(jobs)
    ensures Outstanding(jobs) == NetOwed(jobs)
            <==> forall i :: 0 <= i < |jobs| && Finished(jobs[i]) ==> !OverPaid(jobs[i])
  {
    if jobs != [] {
      var init, n := jobs[..|jobs| - 1], |jobs| - 1;
      OutstandingBounds(init);
      assert forall i :: 0 <= i < n ==> init[i] == jobs[i];
      assert (forall i :: 0 <= i < |jobs| && Finished(jobs[i]) ==> !OverPaid(jobs[i]))
        <==> ((forall i :: 0 <= i < n && Finished(init[i]) ==> !OverPaid(init[i]))
              && (Finished(jobs[n]) ==> !OverPaid(jobs[n])));
    }
  }

  lemma {:induction false} OutstandingConcat(a: seq<Job>, b: seq<Job>)
    ensures Outstanding(a + b) == Outstanding(a) + Outstanding(b)
  {
    if b == [] {
      assert a + b == a;
    } else {
      assert (a + b)[..|a + b| - 1] == a + b[..|b| - 1];
      OutstandingConcat(a, b[..|b| - 1]);
    }
  }

  lemma {:induction false} OwedOfOne(j: Job)
    ensures Outstanding([j]) == if Finished(j) then Owed(j) else 0
  {
    assert [j][..0] == [];
  }

  /** The amounts of the entries that are finite, in order of the list. */
  function Sums(xs: seq<Entry>): int {
    if xs == [] then 0 else (if xs[0].amount.Kobo? then xs[0].amount.n else 0) + Sums(xs[1..])
  }

  lemma {:induction false} SumsAnd(xs: seq<Entry>, e: Entry)
    ensures Sums(xs + [e]) == Sums(xs) + if e.amount.Kobo? then e.amount.n else 0
  {
    if xs == [] {
      assert xs + [e] == [e];
    } else {
      assert (xs + [e])[1..] == xs[1..] + [e];
      SumsAnd(xs[1..], e);
    }
  }

  lemma {:induction false} TotalIsSums(xs: seq<Entry>)
    ensures Total(xs) == Sums(xs)
  {
    if xs != [] {
      TotalIsSums(xs[..|xs| - 1]);
      SumsAnd(xs[..|xs| - 1], xs[|xs| - 1]);
      assert xs == xs[..|xs| - 1] + [xs[|xs| - 1]];
    }
  }

  /**
   One more job, anywhere in the list, adds what it was billed less what was paid
   and not refunded, if that is positive and the job is finished and not
   cancelled; otherwise nothing. With no jobs nothing is owed.
   */
  lemma {:induction false} OutstandingWithJob(before: seq<Job>, j: Job, after: seq<Job>)
    ensures Outstanding([]) == 0
    ensures var due := j.customerBilled - (Sums(j.payments) - Sums(j.refunds));
            Outstanding(before + [j] + after) == Outstanding(before + after)
            + if !j.cancelled && j.finishedAt.Some? && due > 0 then due else 0
  {
    OutstandingConcat(before + [j], after);
    OutstandingConcat(before, [j]);
    OutstandingConcat(before, after);
    OwedOfOne(j);
    TotalIsSums(j.payments);
    TotalIsSums(j.refunds);
  }

  /** A job's over-payment hides no other job's debt, wherever the job stands in the list. */
  lemma {:induction false} OverPaymentHidesNothing(before: seq<Job>, j: Job, after: seq<Job>)
    requires OverPaid(j)
    ensures Outstanding(before + [j] + after) == Outstanding(before + after)
  {
    OutstandingConcat(before + [j], after);
    OutstandingConcat(before, [j]);
    OutstandingConcat(before, after);
    assert [j][..0] == [];
  }
}
