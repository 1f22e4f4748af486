/**
 The two computations of a customer's yearly spend: `monthlySpend`'s buckets by
 Lagos month key, and `customerMoney`'s `netPaidThisYear` by comparing instants
 (apps/portal/lib/crm.ts).
 */
module CustomerMoney {
  import opened Calendar
  import opened Ledger
  import opened SpendBuckets

  function StreamsOf(jobs: seq<Job>, sap: seq<Entry>): Streams {
    Streams(Payments(jobs), Refunds(jobs), sap)
  }

  /** `netPaidThisYear`: from Lagos midnight of 1 January up to and including `now`. */
  function NetPaidThisYear(jobs: seq<Job>, now: int, sap: seq<Entry>): int
    requires 0 <= LagosMonth(now) / 12 <= 9999
  {
    Net(StreamsOf(jobs, sap), LagosYearStart(now), now + 1)
  }

  /** What the source's loops add up under a month's key. */
  function MonthBucket(xs: seq<Entry>, k: int): Amount {
    Bucket(LagosMonthKey, xs, Key(k))
  }

  function NetOfMonth(jobs: seq<Job>, sap: seq<Entry>, k: int): Amount {
    NetBucket(LagosMonthKey, jobs, sap, Key(k))
  }

  /** `Date.UTC(year, month - i, 1)` normalises to i months before; the keys of consecutive months are all different. */
  lemma {:induction false} KeysDistinct(last: int, months: int)
    requires last / 12 <= 9999 && last - months + 1 >= 0
    ensures forall i, j :: 0 <= i < j < months ==> KeysBefore(Key, last)(i) != KeysBefore(Key, last)(j)
  {
    forall i, j | 0 <= i < j < months ensures KeysBefore(Key, last)(i) != KeysBefore(Key, last)(j) {
      KeyIdentifiesMonth(last - i, last - j);
    }
  }

  /** Key and net of a Lagos month. */
  function LagosRow(jobs: seq<Job>, sap: seq<Entry>): int -> (string, Amount) {
    MonthRow(LagosMonthKey, Key, jobs, sap)
  }

  lemma {:induction false} LagosRowAt(jobs: seq<Job>, sap: seq<Entry>, k: int)
    ensures LagosRow(jobs, sap)(k) == (Key(k), NetOfMonth(jobs, sap, k))
  {
  }

  lemma {:induction false} LagosRowKeys(jobs: seq<Job>, sap: seq<Entry>)
    ensures forall k :: HasKey(LagosRow(jobs, sap), k)
  {
  }

  /** The buckets of the `months` Lagos months up to `last`. */
  method MonthsUpTo(jobs: seq<Job>, last: int, months: int, sap: seq<Entry>) returns (out: seq<SpendMonth>)
    requires last / 12 <= 9999 && last - months + 1 >= 0
    ensures forall i :: 0 <= i < |out| ==> fresh(out[i])
    ensures RowsOf(out) == Listed(LagosRow(jobs, sap), last - months + 1, last)
    ensures AllHold(out, LagosMonthKey, jobs, sap)
  {
    KeysDistinct(last, months);
    out := SpendUpTo(LagosMonthKey, Key, last, months, jobs, sap);
  }

  /**
   The last `months` Lagos months, oldest first; with twelve or more, the nets
   of those under the current year's key add up as `YearOfBuckets` says. The
   year of `now` has three or four digits: `Date.UTC` reads smaller years as
   19xx, and ISO strings write larger ones with a sign; likewise no month
   before the year 0 is asked for.
   */
  method MonthlySpend(jobs: seq<Job>, now: int, months: int, sap: seq<Entry>) returns (out: seq<SpendMonth>)
    requires 100 <= LagosMonth(now) / 12 <= 9999
    requires LagosMonth(now) - months + 1 >= 0
    ensures forall i :: 0 <= i < |out| ==> fresh(out[i])
    ensures RowsOf(out) == Listed(LagosRow(jobs, sap), LagosMonth(now) - months + 1, LagosMonth(now))
    ensures months >= 12 ==>
              SumOfYear(RowsOf(out), LagosMonthKey(now)[..4]) == SumOfNets(jobs, sap, January(now), LagosMonth(now))
    ensures AllHold(out, LagosMonthKey, jobs, sap)
  {
    out := MonthsUpTo(jobs, LagosMonth(now), months, sap);
    if months >= 12 {
      YearOfMonths(jobs, sap, now, months);
    }
  }

  lemma {:induction false} YearOfMonths(jobs: seq<Job>, sap: seq<Entry>, now: int, months: int)
    requires 0 <= LagosMonth(now) / 12 <= 9999 && months >= 12 && LagosMonth(now) - months + 1 >= 0
    ensures |LagosMonthKey(now)| >= 4
    ensures var rows := Listed(LagosRow(jobs, sap), LagosMonth(now) - months + 1, LagosMonth(now));
            SumOfYear(rows, LagosMonthKey(now)[..4]) == SumOfNets(jobs, sap, January(now), LagosMonth(now))
  {
    LagosRowKeys(jobs, sap);
    YearOfRowsUpTo(LagosRow(jobs, sap), LagosMonth(now), months);
  }

  // ----- buckets by key are stretches of time

  /** A month's bucket collects exactly the entries between its midnights. */
  lemma {:induction false} BucketIsStretch(xs: seq<Entry>, k: int)
    requires 0 <= k / 12 <= 9999
    ensures MonthBucket(xs, k) == Sum(xs, Midnight(k), Midnight(k + 1))
  {
    if xs != [] {
      var e := xs[|xs| - 1];
      BucketIsStretch(xs[..|xs| - 1], k);
      InMonths(e.at, k, k);
      KeyIdentifiesMonth(k, LagosMonth(e.at));
      SumStep(xs, Midnight(k), Midnight(k + 1));
    }
  }

  lemma {:induction false} NetIsStretch(jobs: seq<Job>, sap: seq<Entry>, k: int)
    requires 0 <= k / 12 <= 9999
    ensures NetOfMonth(jobs, sap, k) == NetOver(StreamsOf(jobs, sap), Midnight(k), Midnight(k + 1))
  {
    BucketIsStretch(Payments(jobs), k);
    BucketIsStretch(Refunds(jobs), k);
    BucketIsStretch(sap, k);
    NetOfSums(StreamsOf(jobs, sap), Midnight(k), Midnight(k + 1));
  }

  /** The sum of a run of buckets' `net`, oldest first. */
  function SumOfNets(jobs: seq<Job>, sap: seq<Entry>, first: int, last: int): Amount {
    NetsOf(LagosRow(jobs, sap), first, last)
  }

  lemma {:induction false} MidnightsInOrder()
    ensures forall j, k :: InOrder(Midnight, j, k)
  {
    MidnightsRise();
    forall j, k ensures InOrder(Midnight, j, k) {
      RisesIncrease(Midnight, j, k);
    }
  }

  /**
   Between the first and the last midnight no entry is lost or counted twice: the buckets' nets add up to the
   whole.
   */
  lemma {:induction false} BucketsPartition(jobs: seq<Job>, sap: seq<Entry>, first: int, last: int)
    requires 0 <= first <= last + 1 && last / 12 <= 9999
    ensures SumOfNets(jobs, sap, first, last) == NetOver(StreamsOf(jobs, sap), Midnight(first), Midnight(last + 1))
  {
    forall k | first <= k <= last ensures IsStretch(LagosRow(jobs, sap), StreamsOf(jobs, sap), Midnight, k) {
      LagosRowAt(jobs, sap, k);
      NetIsStretch(jobs, sap, k);
    }
    NetsOfStretches(LagosRow(jobs, sap), StreamsOf(jobs, sap), Midnight, first, last);
    MidnightsInOrder();
    StretchesPartition(StreamsOf(jobs, sap), Midnight, first, last);
  }

  // ----- the two computations agree

  /** The month number of the January before `now`. */
  function January(now: int): int {
    12 * (LagosMonth(now) / 12)
  }

  /**
   The yearly figure, plus what is dated later in the month, is the net from January's midnight to the next
   month's.
   */
  lemma {:induction false} YearAndRestOfMonth(jobs: seq<Job>, sap: seq<Entry>, now: int)
    requires 0 <= LagosMonth(now) / 12 <= 9999
    ensures var st, nextMonth := StreamsOf(jobs, sap), Midnight(LagosMonth(now) + 1);
            NetPaidThisYear(jobs, now, sap) + Net(st, now + 1, nextMonth) == Net(st, Midnight(January(now)), nextMonth)
  {
    YearStartsInJanuary(now);
    LagosMonthBounds(now);
    MidnightsInOrder();
    assert InOrder(Midnight, January(now), LagosMonth(now));
    NetSplit(StreamsOf(jobs, sap), Midnight(January(now)), now + 1, Midnight(LagosMonth(now) + 1));
  }

  /**
   The current year's buckets against the yearly figure, for any entries: they
   differ exactly by what is dated later than `now` in the current month, and
   are not a number when one of the year's amounts is not.
   */
  lemma {:induction false} YearOfBuckets(jobs: seq<Job>, sap: seq<Entry>, now: int)
    requires 0 <= LagosMonth(now) / 12 <= 9999
    ensures var st, nextMonth := StreamsOf(jobs, sap), Midnight(LagosMonth(now) + 1);
            SumOfNets(jobs, sap, January(now), LagosMonth(now)) ==
              Finite(NetPaidThisYear(jobs, now, sap) + Net(st, now + 1, nextMonth),
                     NetFinite(st, Midnight(January(now)), nextMonth))
  {
    BucketsPartition(jobs, sap, January(now), LagosMonth(now));
    YearAndRestOfMonth(jobs, sap, now);
  }

  /** They agree exactly when the year's amounts are finite and nothing nets in after `now`. */
  lemma {:induction false} YearAgrees(jobs: seq<Job>, sap: seq<Entry>, now: int)
    requires 0 <= LagosMonth(now) / 12 <= 9999
    ensures var st, nextMonth := StreamsOf(jobs, sap), Midnight(LagosMonth(now) + 1);
            SumOfNets(jobs, sap, January(now), LagosMonth(now)) == Kobo(NetPaidThisYear(jobs, now, sap)) <==>
            NetFinite(st, Midnight(January(now)), nextMonth) && Net(st, now + 1, nextMonth) == 0
  {
    YearOfBuckets(jobs, sap, now);
    var st, nextMonth := StreamsOf(jobs, sap), Midnight(LagosMonth(now) + 1);
    EqualExactly(NetPaidThisYear(jobs, now, sap), Net(st, now + 1, nextMonth),
                 NetFinite(st, Midnight(January(now)), nextMonth));
  }

  lemma {:induction false} EqualExactly(year: int, rest: int, ok: bool)
    ensures Finite(year + rest, ok) == Kobo(year) <==> ok && rest == 0
  {
  }

  /** Finite amounts, none dated later than `now`. */
  predicate Past(xs: seq<Entry>, now: int) {
    forall i :: 0 <= i < |xs| ==> xs[i].at <= now && xs[i].amount.Kobo?
  }

  lemma {:induction false} PastStreams(st: Streams, now: int, from: int, until: int)
    requires Past(st.payments, now) && Past(st.refunds, now) && Past(st.sap, now)
    ensures Net(st, now + 1, until) == 0 && NetFinite(st, from, until)
  {
    NothingWithin(st.payments, now + 1, until);
    NothingWithin(st.refunds, now + 1, until);
    NothingWithin(st.sap, now + 1, until);
  }

  /** With finite amounts and no entry later than `now`, the year's buckets add up to the yearly figure. */
  lemma {:induction false} YearAgreesOnPastEvents(jobs: seq<Job>, sap: seq<Entry>, now: int)
    requires 0 <= LagosMonth(now) / 12 <= 9999
    requires Past(Payments(jobs), now) && Past(Refunds(jobs), now) && Past(sap, now)
    ensures SumOfNets(jobs, sap, January(now), LagosMonth(now)) == Kobo(NetPaidThisYear(jobs, now, sap))
  {
    PastStreams(StreamsOf(jobs, sap), now, Midnight(January(now)), Midnight(LagosMonth(now) + 1));
    YearAgrees(jobs, sap, now);
  }

  // ----- what one entry and one job change

  lemma {:induction false} KeyOfMonth(t: int, k: int)
    requires 0 <= k / 12 <= 9999
    ensures LagosMonthKey(t) == Key(k) <==> LagosMonth(t) == k
  {
    KeyIdentifiesMonth(k, LagosMonth(t));
  }

  /** The finite amount of an entry dated from the start of the year of `now` up to and including `now`. */
  function CountsForYear(e: Entry, now: int): int
    requires 0 <= LagosMonth(now) / 12 <= 9999
  {
    if Midnight(12 * (LagosMonth(now) / 12)) <= e.at <= now && e.amount.Kobo? then e.amount.n else 0
  }

  /**
   A payment more, at any place of any job, cancelled or not, adds its amount to
   the yearly figure exactly when it is finite and dated from the year's start to
   `now`, and to a month's net exactly when it is dated in that month.
   */
  lemma {:induction false} PaymentCounts(before: seq<Job>, j: Job, after: seq<Job>, p: nat, e: Entry,
                                         sap: seq<Entry>, now: int)
    requires p <= |j.payments| && 0 <= LagosMonth(now) / 12 <= 9999
    ensures var jobs, more := before + [j] + after, before + [Paying(j, p, e)] + after;
            NetPaidThisYear(more, now, sap) == NetPaidThisYear(jobs, now, sap) + CountsForYear(e, now)
  {
    YearStartsInJanuary(now);
    NetWithPayment(before, j, after, p, e, sap, LagosYearStart(now), now + 1);
  }

  lemma {:induction false} PaymentInMonth(before: seq<Job>, j: Job, after: seq<Job>, p: nat, e: Entry,
                                          sap: seq<Entry>, k: int)
    requires p <= |j.payments| && 0 <= k / 12 <= 9999
    ensures var jobs, more := before + [j] + after, before + [Paying(j, p, e)] + after;
            NetOfMonth(more, sap, k)
            == if LagosMonth(e.at) == k then Plus(NetOfMonth(jobs, sap, k), e.amount) else NetOfMonth(jobs, sap, k)
  {
    KeyOfMonth(e.at, k);
    BucketWithPayment(LagosMonthKey, before, j, after, p, e, sap, Key(k));
  }

  /** A refund more takes its amount away likewise. */
  lemma {:induction false} RefundCounts(before: seq<Job>, j: Job, after: seq<Job>, p: nat, e: Entry, sap: seq<Entry>,
                                        now: int)
    requires p <= |j.refunds| && 0 <= LagosMonth(now) / 12 <= 9999
    ensures var jobs, more := before + [j] + after, before + [Refunding(j, p, e)] + after;
            NetPaidThisYear(more, now, sap) == NetPaidThisYear(jobs, now, sap) - CountsForYear(e, now)
  {
    YearStartsInJanuary(now);
    NetWithRefund(before, j, after, p, e, sap, LagosYearStart(now), now + 1);
  }

  lemma {:induction false} RefundInMonth(before: seq<Job>, j: Job, after: seq<Job>, p: nat, e: Entry,
                                         sap: seq<Entry>, k: int)
    requires p <= |j.refunds| && 0 <= k / 12 <= 9999
    ensures var jobs, more := before + [j] + after, before + [Refunding(j, p, e)] + after;
            NetOfMonth(more, sap, k)
            == if LagosMonth(e.at) == k then Minus(NetOfMonth(jobs, sap, k), e.amount) else NetOfMonth(jobs, sap, k)
  {
    KeyOfMonth(e.at, k);
    BucketWithRefund(LagosMonthKey, before, j, after, p, e, sap, Key(k));
  }

  /** A SAP invoice more counts like a payment. */
  lemma {:induction false} InvoiceCounts(jobs: seq<Job>, x: seq<Entry>, e: Entry, y: seq<Entry>, now: int)
    requires 0 <= LagosMonth(now) / 12 <= 9999
    ensures NetPaidThisYear(jobs, now, x + [e] + y) == NetPaidThisYear(jobs, now, x + y) + CountsForYear(e, now)
  {
    YearStartsInJanuary(now);
    TotalWith(x, e, y, LagosYearStart(now), now + 1);
  }

  lemma {:induction false} InvoiceInMonth(jobs: seq<Job>, x: seq<Entry>, e: Entry, y: seq<Entry>, k: int)
    requires 0 <= k / 12 <= 9999
    ensures NetOfMonth(jobs, x + [e] + y, k)
         == if LagosMonth(e.at) == k then Plus(NetOfMonth(jobs, x + y, k), e.amount) else NetOfMonth(jobs, x + y, k)
  {
    KeyOfMonth(e.at, k);
    BucketWithInvoice(LagosMonthKey, jobs, x, e, y, Key(k));
  }

  /** Jobs without payments and refunds, and no invoices, come to nothing. */
  lemma {:induction false} NothingCounts(jobs: seq<Job>, now: int, k: int)
    requires forall i :: 0 <= i < |jobs| ==> jobs[i].payments == [] && jobs[i].refunds == []
    ensures 0 <= LagosMonth(now) / 12 <= 9999 ==> NetPaidThisYear(jobs, now, []) == 0
    ensures NetOfMonth(jobs, [], k) == Kobo(0)
  {
    NoEntries(jobs);
  }

  /** What is billed in a month: each finished job that is not cancelled, in the month it was finished. */
  function BilledOfMonth(jobs: seq<Job>, k: int): Amount {
    MonthBucket(Billed(jobs), k)
  }

  lemma {:induction false} JobBilledInMonth(before: seq<Job>, j: Job, after: seq<Job>, k: int)
    requires 0 <= k / 12 <= 9999
    ensures BilledOfMonth([], k) == Kobo(0)
    ensures BilledOfMonth(before + [j] + after, k)
         == if !j.cancelled && j.finishedAt.Some? && LagosMonth(j.finishedAt.value) == k
            then Plus(BilledOfMonth(before + after, k), Kobo(j.customerBilled))
            else BilledOfMonth(before + after, k)
  {
    if j.finishedAt.Some? {
      KeyOfMonth(j.finishedAt.value, k);
    }
    BilledWithJob(LagosMonthKey, before, j, after, Key(k));
  }

  // ----- which buckets are the current year's

  lemma {:induction false} SameYear(j: int, k: int)
    requires j <= k
    ensures j / 12 == k / 12 <==> 12 * (k / 12) <= j
    ensures k - 11 <= 12 * (k / 12) <= k
  {
    var q := k / 12;
    if 12 * q <= j {
      assert j / 12 == q;
    } else {
      assert j / 12 < q;
    }
  }

  /** Of all months up to `last`, exactly those from its January on have a key that begins with its year's digits. */
  lemma {:induction false} KeysOfYear(k: int, last: int)
    requires 0 <= k / 12 && last / 12 <= 9999 && k <= last
    ensures |Key(last)| >= 4 && (Key(last)[..4] <= Key(k) <==> 12 * (last / 12) <= k)
  {
    KeyParts(k);
    KeyParts(last);
    SameYear(k, last);
    assert Key(last)[..4] <= Key(k) <==> Key(last)[..4] == Key(k)[..4];
  }

  predicate HasKey(rowOf: int -> (string, Amount), k: int) {
    rowOf(k).0 == Key(k)
  }

  lemma {:induction false} RowsOfYear(rowOf: int -> (string, Amount), first: int, last: int, year: string)
    requires 0 <= first / 12 && last / 12 <= 9999 && forall k :: HasKey(rowOf, k)
    requires year <= Key(last) && |year| == 4
    ensures forall k :: first <= k <= last ==> (RowOfYear(rowOf, year, k) <==> 12 * (last / 12) <= k)
  {
    forall k | first <= k <= last ensures RowOfYear(rowOf, year, k) <==> 12 * (last / 12) <= k {
      KeysOfYear(k, last);
      assert HasKey(rowOf, k);
    }
  }

  /**
   Twelve months or more always reach back to January, and the rows under the last one's year sum to the nets from
   there.
   */
  lemma {:induction false} YearOfRowsUpTo(rowOf: int -> (string, Amount), last: int, months: int)
    requires 0 <= last / 12 <= 9999 && months >= 12 && last - months + 1 >= 0 && forall k :: HasKey(rowOf, k)
    ensures |Key(last)| >= 4
    ensures SumOfYear(Listed(rowOf, last - months + 1, last), Key(last)[..4]) == NetsOf(rowOf, 12 * (last / 12), last)
  {
    KeysOfYear(last, last);
    var first, january, year := last - months + 1, 12 * (last / 12), Key(last)[..4];
    assert first <= january by {
      SameYear(last, last);
    }
    assert forall k :: first <= k <= last ==> (RowOfYear(rowOf, year, k) <==> january <= k) by {
      RowsOfYear(rowOf, first, last, year);
    }
    YearOfRows(rowOf, first, last, january, year);
  }
}
