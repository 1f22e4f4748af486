/**
 The month buckets of `monthlySpend` (apps/portal/lib/crm.ts): objects updated in
 place, found through a map from month key to bucket. How an instant gets its
 key is a parameter here.
 */
module SpendBuckets {
  import opened Ledger

  /** What repeated `+=` leaves under a key: one amount that is not finite spoils it. */
  function Bucket(keyOf: int -> string, xs: seq<Entry>, key: string): Amount {
    if xs == [] then Kobo(0)
    else
      var rest := Bucket(keyOf, xs[..|xs| - 1], key);
      if keyOf(xs[|xs| - 1].at) == key then Plus(rest, xs[|xs| - 1].amount) else rest
  }

  lemma {:induction false} BucketAnd(keyOf: int -> string, xs: seq<Entry>, e: Entry, key: string)
    ensures Bucket(keyOf, xs + [e], key)
         == if keyOf(e.at) == key then Plus(Bucket(keyOf, xs, key), e.amount) else Bucket(keyOf, xs, key)
  {
    assert (xs + [e])[..|xs + [e]| - 1] == xs;
  }

  datatype Column = Paid | Refunded | BilledWork | Sap

  /** The entries booked so far, column by column. */
  datatype Books = Books(paid: seq<Entry>, refunded: seq<Entry>, billed: seq<Entry>, sap: seq<Entry>) {
    function Of(c: Column): seq<Entry> {
      match c
      case Paid => paid
      case Refunded => refunded
      case BilledWork => billed
      case Sap => sap
    }

    function And(c: Column, xs: seq<Entry>): Books {
      match c
      case Paid => this.(paid := paid + xs)
      case Refunded => this.(refunded := refunded + xs)
      case BilledWork => this.(billed := billed + xs)
      case Sap => this.(sap := sap + xs)
    }
  }

  lemma {:induction false} AndNothing(books: Books, c: Column)
    ensures books.And(c, []) == books
  {
    assert books.Of(c) + [] == books.Of(c);
  }

  lemma {:induction false} AndOneMore(books: Books, c: Column, xs: seq<Entry>, p: nat)
    requires p < |xs|
    ensures books.And(c, xs[..p]).And(c, [xs[p]]) == books.And(c, xs[..p + 1])
  {
    assert books.Of(c) + xs[..p] + [xs[p]] == books.Of(c) + xs[..p + 1];
  }

  lemma {:induction false} BooksAnd(keyOf: int -> string, books: Books, c: Column, e: Entry, d: Column, key: string)
    ensures Bucket(keyOf, books.And(c, [e]).Of(d), key)
         == if d == c && keyOf(e.at) == key then Plus(Bucket(keyOf, books.Of(d), key), e.amount)
           else Bucket(keyOf, books.Of(d), key)
  {
    BucketAnd(keyOf, books.Of(c), e, key);
  }

  class SpendMonth {
    const key: string
    var paid: Amount
    var refunds: Amount
    var net: Amount
    var billed: Amount
    var sap: Amount

    constructor (key: string)
      ensures this.key == key && net == Kobo(0)
      ensures forall c :: Get(c) == Kobo(0)
    {
      this.key := key;
      paid, refunds, net, billed, sap := Kobo(0), Kobo(0), Kobo(0), Kobo(0), Kobo(0);
    }

    function Get(c: Column): Amount
      reads this
    {
      match c
      case Paid => paid
      case Refunded => refunds
      case BilledWork => billed
      case Sap => sap
    }

    method Add(c: Column, amount: Amount)
      modifies this
      ensures Get(c) == Plus(old(Get(c)), amount) && net == old(net)
      ensures forall d :: d != c ==> Get(d) == old(Get(d))
    {
      match c
      case Paid => paid := Plus(paid, amount);
      case Refunded => refunds := Plus(refunds, amount);
      case BilledWork => billed := Plus(billed, amount);
      case Sap => sap := Plus(sap, amount);
    }

    /** `m.net = m.paid - m.refunds + m.sap` */
    method Close()
      modifies this
      ensures net == NetOf()
      ensures forall c :: Get(c) == old(Get(c))
    {
      net := Plus(Minus(paid, refunds), sap);
    }

    function NetOf(): Amount
      reads this
    {
      Plus(Minus(Get(Paid), Get(Refunded)), Get(Sap))
    }
  }

  ghost predicate IsZero(m: SpendMonth)
    reads m
  {
    forall c :: m.Get(c) == Kobo(0)
  }

  /** `out` has one bucket per key, and `at` finds each by its key. */
  ghost predicate Indexed(out: seq<SpendMonth>, at: map<string, SpendMonth>) {
    && (forall i, j :: 0 <= i < j < |out| ==> out[i].key != out[j].key)
    && (forall i :: 0 <= i < |out| ==> out[i].key in at && at[out[i].key] == out[i])
    && (forall key :: key in at ==> at[key] in out && at[key].key == key)
  }

  /** Every bucket holds, column by column, what its key collects from the books. */
  ghost predicate Booked(out: seq<SpendMonth>, keyOf: int -> string, books: Books)
    reads out
  {
    forall i, c :: 0 <= i < |out| ==> out[i].Get(c) == Bucket(keyOf, books.Of(c), out[i].key)
  }

  lemma {:induction false} IndexedAlso(out: seq<SpendMonth>, at: map<string, SpendMonth>, m: SpendMonth)
    requires Indexed(out, at) && m.key !in at
    ensures Indexed(out + [m], at[m.key := m])
  {
  }

  /** The source's first loop: one bucket per month, oldest first. */
  method NewBuckets(keyAgo: int -> string, months: int) returns (out: seq<SpendMonth>, at: map<string, SpendMonth>)
    requires forall i, j :: 0 <= i < j < months ==> keyAgo(i) != keyAgo(j)
    ensures |out| == (if months > 0 then months else 0) && Indexed(out, at)
    ensures forall j :: 0 <= j < |out| ==> fresh(out[j]) && out[j].key == keyAgo(months - 1 - j)
    ensures forall j :: 0 <= j < |out| ==> IsZero(out[j])
  {
    out := [];
    at := map[];
    var i := months - 1;
    while i >= 0
      invariant i == months - 1 - |out| && (out != [] ==> i >= -1)
      invariant Indexed(out, at)
      invariant forall j :: 0 <= j < |out| ==> fresh(out[j]) && out[j].key == keyAgo(months - 1 - j)
      invariant forall j :: 0 <= j < |out| ==> IsZero(out[j])
    {
      var m := new SpendMonth(keyAgo(i));
      forall j | 0 <= j < |out| ensures out[j].key != m.key {
        assert keyAgo(i) != keyAgo(months - 1 - j);
      }
      IndexedAlso(out, at, m);
      out := out + [m];
      at := at[m.key := m];
      i := i - 1;
    }
  }

  /** `const m = at.get(key); if (m) m.column += amount` */
  method Book(ghost out: seq<SpendMonth>, at: map<string, SpendMonth>, c: Column, keyOf: int -> string, e: Entry,
              ghost books: Books)
    requires Indexed(out, at) && Booked(out, keyOf, books)
    modifies out
    ensures Booked(out, keyOf, books.And(c, [e]))
  {
    var key := keyOf(e.at);
    if key in at {
      at[key].Add(c, e.amount);
    }
    forall i, d | 0 <= i < |out|
      ensures out[i].Get(d) == Bucket(keyOf, books.And(c, [e]).Of(d), out[i].key)
    {
      BooksAnd(keyOf, books, c, e, d, out[i].key);
      assert old(out[i].Get(d)) == Bucket(keyOf, books.Of(d), out[i].key);
      assert out[i].key == key ==> out[i] == at[key];
    }
  }

  /** An inner loop: every entry goes to the bucket of its month, if there is one. */
  method BookAll(ghost out: seq<SpendMonth>, at: map<string, SpendMonth>, c: Column, keyOf: int -> string,
                 xs: seq<Entry>, ghost books: Books)
    requires Indexed(out, at) && Booked(out, keyOf, books)
    modifies out
    ensures Booked(out, keyOf, books.And(c, xs))
  {
    AndNothing(books, c);
    for p := 0 to |xs|
      invariant Booked(out, keyOf, books.And(c, xs[..p]))
    {
      Book(out, at, c, keyOf, xs[p], books.And(c, xs[..p]));
      AndOneMore(books, c, xs, p);
    }
    assert xs[..|xs|] == xs;
  }

  function BooksOf(jobs: seq<Job>, sap: seq<Entry>): Books {
    Books(Payments(jobs), Refunds(jobs), Billed(jobs), sap)
  }

  function BooksAfter(books: Books, j: Job): Books {
    books.And(Paid, j.payments).And(Refunded, j.refunds).And(BilledWork, BilledOf(j))
  }

  lemma {:induction false} BooksOfNext(jobs: seq<Job>, n: nat)
    requires n < |jobs|
    ensures BooksAfter(BooksOf(jobs[..n], []), jobs[n]) == BooksOf(jobs[..n + 1], [])
  {
    assert jobs[..n + 1][..n] == jobs[..n];
  }

  /** One job's three loops. */
  method BookJob(ghost out: seq<SpendMonth>, at: map<string, SpendMonth>, keyOf: int -> string, j: Job,
                 ghost books: Books)
    requires Indexed(out, at) && Booked(out, keyOf, books)
    modifies out
    ensures Booked(out, keyOf, BooksAfter(books, j))
  {
    BookAll(out, at, Paid, keyOf, j.payments, books);
    BookAll(out, at, Refunded, keyOf, j.refunds, books.And(Paid, j.payments));
    BookAll(out, at, BilledWork, keyOf, BilledOf(j), books.And(Paid, j.payments).And(Refunded, j.refunds));
  }

  /** The loops over the jobs, the SAP invoices, and finally the buckets themselves. */
  method Fill(out: seq<SpendMonth>, at: map<string, SpendMonth>, keyOf: int -> string, jobs: seq<Job>, sap: seq<Entry>)
    requires Indexed(out, at)
    requires forall j :: 0 <= j < |out| ==> IsZero(out[j])
    modifies out
    ensures Booked(out, keyOf, BooksOf(jobs, sap))
    ensures forall j :: 0 <= j < |out| ==> out[j].net == out[j].NetOf()
  {
    NothingBooked(out, keyOf);
    for j := 0 to |jobs|
      invariant Booked(out, keyOf, BooksOf(jobs[..j], []))
    {
      BookJob(out, at, keyOf, jobs[j], BooksOf(jobs[..j], []));
      BooksOfNext(jobs, j);
    }
    assert jobs[..|jobs|] == jobs;
    BookAll(out, at, Sap, keyOf, sap, BooksOf(jobs, []));
    assert BooksOf(jobs, []).And(Sap, sap) == BooksOf(jobs, sap);
    CloseAll(out, keyOf, BooksOf(jobs, sap));
  }

  lemma {:induction false} NothingBooked(out: seq<SpendMonth>, keyOf: int -> string)
    requires forall j :: 0 <= j < |out| ==> IsZero(out[j])
    ensures forall jobs: seq<Job> :: jobs == [] ==> Booked(out, keyOf, BooksOf(jobs, []))
  {
    assert BooksOf([], []) == Books([], [], [], []);
    forall i, c | 0 <= i < |out| ensures out[i].Get(c) == Bucket(keyOf, BooksOf([], []).Of(c), out[i].key) {
      assert IsZero(out[i]);
      assert BooksOf([], []).Of(c) == [];
    }
  }

  method CloseAll(out: seq<SpendMonth>, ghost keyOf: int -> string, ghost books: Books)
    requires Booked(out, keyOf, books)
    modifies out
    ensures Booked(out, keyOf, books)
    ensures forall j :: 0 <= j < |out| ==> out[j].net == out[j].NetOf()
  {
    for n := 0 to |out|
      invariant Booked(out, keyOf, books)
      invariant forall j :: 0 <= j < n ==> out[j].net == out[j].NetOf()
    {
      out[n].Close();
    }
  }

  /** `monthlySpend`, given the keys of the months: `keyAgo(i)` is the key of i months before the current one. */
  method Spend(keyOf: int -> string, keyAgo: int -> string, months: int, jobs: seq<Job>, sap: seq<Entry>)
    returns (out: seq<SpendMonth>)
    requires forall i, j :: 0 <= i < j < months ==> keyAgo(i) != keyAgo(j)
    ensures |out| == if months > 0 then months else 0
    ensures forall j :: 0 <= j < |out| ==> fresh(out[j]) && out[j].key == keyAgo(months - 1 - j)
    ensures Booked(out, keyOf, BooksOf(jobs, sap))
    ensures forall j :: 0 <= j < |out| ==> out[j].net == NetBucket(keyOf, jobs, sap, keyAgo(months - 1 - j))
  {
    var at;
    out, at := NewBuckets(keyAgo, months);
    Fill(out, at, keyOf, jobs, sap);
    forall j | 0 <= j < |out| ensures out[j].net == NetBucket(keyOf, jobs, sap, out[j].key) {
      NetOfBucket(out, keyOf, jobs, sap, j);
    }
  }

  /** Payments less refunds plus SAP invoices, under one key. */
  function NetBucket(keyOf: int -> string, jobs: seq<Job>, sap: seq<Entry>, key: string): Amount {
    Plus(Minus(Bucket(keyOf, Payments(jobs), key), Bucket(keyOf, Refunds(jobs), key)), Bucket(keyOf, sap, key))
  }

  lemma {:induction false} NetOfBucket(out: seq<SpendMonth>, keyOf: int -> string, jobs: seq<Job>, sap: seq<Entry>,
                                       j: nat)
    requires Booked(out, keyOf, BooksOf(jobs, sap))
    requires j < |out| && out[j].net == out[j].NetOf()
    ensures out[j].net == NetBucket(keyOf, jobs, sap, out[j].key)
  {
    var books := BooksOf(jobs, sap);
    assert out[j].Get(Paid) == Bucket(keyOf, books.Of(Paid), out[j].key);
    assert out[j].Get(Refunded) == Bucket(keyOf, books.Of(Refunded), out[j].key);
    assert out[j].Get(Sap) == Bucket(keyOf, books.Of(Sap), out[j].key);
  }

  // ----- the buckets as rows of key and net

  ghost function RowsOf(out: seq<SpendMonth>): (rows: seq<(string, Amount)>)
    reads out
    ensures |rows| == |out|
  {
    seq(|out|, i requires 0 <= i < |out| reads out => (out[i].key, out[i].net))
  }

  /** The rows of the months from `first` to `last`. */
  function Listed(rowOf: int -> (string, Amount), first: int, last: int): (rows: seq<(string, Amount)>)
    ensures |rows| == if first <= last then last - first + 1 else 0
    decreases last - first
  {
    if last < first then [] else Listed(rowOf, first, last - 1) + [rowOf(last)]
  }

  lemma {:induction false} ListedAt(rowOf: int -> (string, Amount), first: int, last: int, i: nat)
    requires first + i <= last
    ensures Listed(rowOf, first, last)[i] == rowOf(first + i)
    decreases last - first
  {
    if first + i < last {
      ListedAt(rowOf, first, last - 1, i);
    }
  }

  ghost predicate IsRow(m: SpendMonth, rowOf: int -> (string, Amount), k: int)
    reads m
  {
    (m.key, m.net) == rowOf(k)
  }

  lemma {:induction false} RowsAreListed(out: seq<SpendMonth>, rowOf: int -> (string, Amount), last: int, months: int)
    requires |out| == if months > 0 then months else 0
    requires forall j :: 0 <= j < |out| ==> IsRow(out[j], rowOf, last - (months - 1 - j))
    ensures RowsOf(out) == Listed(rowOf, last - months + 1, last)
  {
    forall j | 0 <= j < |out| ensures RowsOf(out)[j] == Listed(rowOf, last - months + 1, last)[j] {
      assert IsRow(out[j], rowOf, last - (months - 1 - j));
      ListedAt(rowOf, last - months + 1, last, j);
    }
  }

  predicate RowOfYear(rowOf: int -> (string, Amount), year: string, k: int) {
    year <= rowOf(k).0
  }

  /** The nets of the rows whose key begins with these digits. */
  function SumOfYear(rows: seq<(string, Amount)>, year: string): Amount {
    if rows == [] then Kobo(0)
    else
      var rest, row := SumOfYear(rows[..|rows| - 1], year), rows[|rows| - 1];
      if year <= row.0 then Plus(rest, row.1) else rest
  }

  function NetsOf(rowOf: int -> (string, Amount), first: int, last: int): Amount
    decreases last - first
  {
    if last < first then Kobo(0) else Plus(NetsOf(rowOf, first, last - 1), rowOf(last).1)
  }

  ghost predicate IsStretch(rowOf: int -> (string, Amount), st: Streams, starts: int -> int, k: int) {
    rowOf(k).1 == NetOver(st, starts(k), starts(k + 1))
  }

  lemma {:induction false} NetsOfStretches(rowOf: int -> (string, Amount), st: Streams, starts: int -> int,
                                           first: int, last: int)
    requires forall k :: first <= k <= last ==> IsStretch(rowOf, st, starts, k)
    ensures NetsOf(rowOf, first, last) == SumOfStretches(st, starts, first, last)
    decreases last - first
  {
    if first <= last {
      assert IsStretch(rowOf, st, starts, last);
      NetsOfStretches(rowOf, st, starts, first, last - 1);
    }
  }

  /** When the year's rows are those from `january` on, they sum to the nets from there. */
  lemma {:induction false} YearOfRows(rowOf: int -> (string, Amount), first: int, last: int, january: int, year: string)
    requires first <= january
    requires forall k :: first <= k <= last ==> (RowOfYear(rowOf, year, k) <==> january <= k)
    ensures SumOfYear(Listed(rowOf, first, last), year) == NetsOf(rowOf, january, last)
    decreases last - first
  {
    if first <= last {
      var rows := Listed(rowOf, first, last);
      YearOfRows(rowOf, first, last - 1, january, year);
      assert rows[..|rows| - 1] == Listed(rowOf, first, last - 1);
      assert RowOfYear(rowOf, year, last) <==> january <= last;
    }
  }

  // ----- the columns, field by field

  /** A bucket's fields hold what its key collects: payments, refunds, billed work and invoices. */
  ghost predicate Holds(m: SpendMonth, keyOf: int -> string, jobs: seq<Job>, sap: seq<Entry>)
    reads m
  {
    && m.paid == Bucket(keyOf, Payments(jobs), m.key)
    && m.refunds == Bucket(keyOf, Refunds(jobs), m.key)
    && m.billed == Bucket(keyOf, Billed(jobs), m.key)
    && m.sap == Bucket(keyOf, sap, m.key)
  }

  ghost predicate AllHold(out: seq<SpendMonth>, keyOf: int -> string, jobs: seq<Job>, sap: seq<Entry>)
    reads out
  {
    forall i :: 0 <= i < |out| ==> Holds(out[i], keyOf, jobs, sap)
  }

  lemma {:induction false} ColumnFields(m: SpendMonth)
    ensures m.Get(Paid) == m.paid && m.Get(Refunded) == m.refunds && m.Get(BilledWork) == m.billed
            && m.Get(Sap) == m.sap
  {
  }

  /** The same of any books. */
  ghost predicate HoldsBooks(m: SpendMonth, keyOf: int -> string, books: Books)
    reads m
  {
    && m.paid == Bucket(keyOf, books.paid, m.key) && m.refunds == Bucket(keyOf, books.refunded, m.key)
    && m.billed == Bucket(keyOf, books.billed, m.key) && m.sap == Bucket(keyOf, books.sap, m.key)
  }

  lemma {:induction false} BookedHolds(out: seq<SpendMonth>, keyOf: int -> string, books: Books, i: nat)
    requires Booked(out, keyOf, books) && i < |out|
    ensures HoldsBooks(out[i], keyOf, books)
  {
    ColumnFields(out[i]);
    assert out[i].Get(Paid) == Bucket(keyOf, books.Of(Paid), out[i].key);
    assert out[i].Get(Refunded) == Bucket(keyOf, books.Of(Refunded), out[i].key);
    assert out[i].Get(BilledWork) == Bucket(keyOf, books.Of(BilledWork), out[i].key);
    assert out[i].Get(Sap) == Bucket(keyOf, books.Of(Sap), out[i].key);
  }

  lemma {:induction false} HoldsOfBooks(m: SpendMonth, keyOf: int -> string, jobs: seq<Job>, sap: seq<Entry>)
    requires HoldsBooks(m, keyOf, BooksOf(jobs, sap))
    ensures Holds(m, keyOf, jobs, sap)
  {
  }

  lemma {:induction false} BookedAllHold(out: seq<SpendMonth>, keyOf: int -> string, jobs: seq<Job>, sap: seq<Entry>)
    requires Booked(out, keyOf, BooksOf(jobs, sap))
    ensures AllHold(out, keyOf, jobs, sap)
  {
    forall i | 0 <= i < |out| ensures Holds(out[i], keyOf, jobs, sap) {
      BookedHolds(out, keyOf, BooksOf(jobs, sap), i);
      HoldsOfBooks(out[i], keyOf, jobs, sap);
    }
  }

  // ----- the months up to a given one

  /** The key of `i` months before `last`, `keyOfMonth` being the key of a month. */
  function KeysBefore(keyOfMonth: int -> string, last: int): int -> string {
    i => keyOfMonth(last - i)
  }

  /** Key and net of a month. */
  function MonthRow(keyOf: int -> string, keyOfMonth: int -> string, jobs: seq<Job>, sap: seq<Entry>)
    : int -> (string, Amount)
  {
    k => (keyOfMonth(k), NetBucket(keyOf, jobs, sap, keyOfMonth(k)))
  }

  method SpendUpTo(keyOf: int -> string, keyOfMonth: int -> string, last: int, months: int, jobs: seq<Job>,
                   sap: seq<Entry>)
    returns (out: seq<SpendMonth>)
    requires forall i, j :: 0 <= i < j < months ==> KeysBefore(keyOfMonth, last)(i) != KeysBefore(keyOfMonth, last)(j)
    ensures forall i :: 0 <= i < |out| ==> fresh(out[i])
    ensures RowsOf(out) == Listed(MonthRow(keyOf, keyOfMonth, jobs, sap), last - months + 1, last)
    ensures AllHold(out, keyOf, jobs, sap)
  {
    out := Spend(keyOf, KeysBefore(keyOfMonth, last), months, jobs, sap);
    SpendRows(out, keyOf, keyOfMonth, last, months, jobs, sap);
    BookedAllHold(out, keyOf, jobs, sap);
  }

  lemma {:induction false} SpendRows(out: seq<SpendMonth>, keyOf: int -> string, keyOfMonth: int -> string, last: int,
                                     months: int, jobs: seq<Job>, sap: seq<Entry>)
    requires |out| == if months > 0 then months else 0
    requires forall j :: 0 <= j < |out| ==> out[j].key == KeysBefore(keyOfMonth, last)(months - 1 - j)
    requires forall j :: 0 <= j < |out| ==>
               out[j].net == NetBucket(keyOf, jobs, sap, KeysBefore(keyOfMonth, last)(months - 1 - j))
    ensures RowsOf(out) == Listed(MonthRow(keyOf, keyOfMonth, jobs, sap), last - months + 1, last)
  {
    forall j | 0 <= j < |out|
      ensures IsRow(out[j], MonthRow(keyOf, keyOfMonth, jobs, sap), last - (months - 1 - j))
    {
      KeysBeforeAt(keyOfMonth, last, months - 1 - j);
      BucketIsRow(out[j], keyOf, keyOfMonth, jobs, sap, last - (months - 1 - j));
    }
    RowsAreListed(out, MonthRow(keyOf, keyOfMonth, jobs, sap), last, months);
  }

  lemma {:induction false} KeysBeforeAt(keyOfMonth: int -> string, last: int, i: int)
    ensures KeysBefore(keyOfMonth, last)(i) == keyOfMonth(last - i)
  {
  }

  lemma {:induction false} BucketIsRow(m: SpendMonth, keyOf: int -> string, keyOfMonth: int -> string, jobs: seq<Job>,
                                       sap: seq<Entry>, k: int)
    requires m.key == keyOfMonth(k) && m.net == NetBucket(keyOf, jobs, sap, keyOfMonth(k))
    ensures IsRow(m, MonthRow(keyOf, keyOfMonth, jobs, sap), k)
  {
  }

  // ----- one entry more, one job more

  lemma {:induction false} PlusSwaps(a: Amount, b: Amount, c: Amount)
    ensures Plus(Plus(a, b), c) == Plus(Plus(a, c), b)
  {
  }

  lemma {:induction false} BucketWith(keyOf: int -> string, x: seq<Entry>, e: Entry, y: seq<Entry>, key: string)
    ensures Bucket(keyOf, x + [e] + y, key)
         == if keyOf(e.at) == key then Plus(Bucket(keyOf, x + y, key), e.amount) else Bucket(keyOf, x + y, key)
  {
    if y == [] {
      assert x + [e] + y == x + [e] && x + y == x;
      BucketAnd(keyOf, x, e, key);
    } else {
      var init, last := y[..|y| - 1], y[|y| - 1];
      assert x + [e] + y == x + [e] + init + [last] && x + y == x + init + [last];
      BucketWith(keyOf, x, e, init, key);
      BucketAnd(keyOf, x + [e] + init, last, key);
      BucketAnd(keyOf, x + init, last, key);
      PlusSwaps(Bucket(keyOf, x + init, key), e.amount, last.amount);
    }
  }

  lemma {:induction false} NetOfMore(p: Amount, r: Amount, s: Amount, e: Amount)
    ensures Plus(Minus(Plus(p, e), r), s) == Plus(Plus(Minus(p, r), s), e)
    ensures Plus(Minus(p, Plus(r, e)), s) == Minus(Plus(Minus(p, r), s), e)
    ensures Plus(Minus(p, r), Plus(s, e)) == Plus(Plus(Minus(p, r), s), e)
  {
  }

  /** One more payment of any job goes to the bucket of its key and no other. */
  lemma {:induction false} BucketWithPayment(keyOf: int -> string, before: seq<Job>, j: Job, after: seq<Job>, p: nat,
                                             e: Entry, sap: seq<Entry>, key: string)
    requires p <= |j.payments|
    ensures var jobs, more := before + [j] + after, before + [Paying(j, p, e)] + after;
            NetBucket(keyOf, more, sap, key)
            == if keyOf(e.at) == key then Plus(NetBucket(keyOf, jobs, sap, key), e.amount)
              else NetBucket(keyOf, jobs, sap, key)
  {
    OneMorePayment(before, j, after, p, e);
    BucketWith(keyOf, Payments(before) + j.payments[..p], e, j.payments[p..] + Payments(after), key);
    var jobs := before + [j] + after;
    NetOfMore(Bucket(keyOf, Payments(jobs), key), Bucket(keyOf, Refunds(jobs), key), Bucket(keyOf, sap, key), e.amount);
  }

  lemma {:induction false} BucketWithRefund(keyOf: int -> string, before: seq<Job>, j: Job, after: seq<Job>, p: nat,
                                            e: Entry, sap: seq<Entry>, key: string)
    requires p <= |j.refunds|
    ensures var jobs, more := before + [j] + after, before + [Refunding(j, p, e)] + after;
            NetBucket(keyOf, more, sap, key)
            == if keyOf(e.at) == key then Minus(NetBucket(keyOf, jobs, sap, key), e.amount)
              else NetBucket(keyOf, jobs, sap, key)
  {
    OneMoreRefund(before, j, after, p, e);
    BucketWith(keyOf, Refunds(before) + j.refunds[..p], e, j.refunds[p..] + Refunds(after), key);
    var jobs := before + [j] + after;
    NetOfMore(Bucket(keyOf, Payments(jobs), key), Bucket(keyOf, Refunds(jobs), key), Bucket(keyOf, sap, key), e.amount);
  }

  lemma {:induction false} BucketWithInvoice(keyOf: int -> string, jobs: seq<Job>, x: seq<Entry>, e: Entry,
                                             y: seq<Entry>,
                                             key: string)
    ensures NetBucket(keyOf, jobs, x + [e] + y, key)
         == if keyOf(e.at) == key then Plus(NetBucket(keyOf, jobs, x + y, key), e.amount)
           else NetBucket(keyOf, jobs, x + y, key)
  {
    BucketWith(keyOf, x, e, y, key);
    NetOfMore(Bucket(keyOf, Payments(jobs), key), Bucket(keyOf, Refunds(jobs), key), Bucket(keyOf, x + y, key),
              e.amount);
  }

  /**
   One more job's billed amount goes to the bucket of the key of its finishing, if it is finished and not
   cancelled.
   */
  lemma {:induction false} BilledWithJob(keyOf: int -> string, before: seq<Job>, j: Job, after: seq<Job>, key: string)
    ensures Bucket(keyOf, Billed([]), key) == Kobo(0)
    ensures Bucket(keyOf, Billed(before + [j] + after), key)
         == if !j.cancelled && j.finishedAt.Some? && keyOf(j.finishedAt.value) == key
            then Plus(Bucket(keyOf, Billed(before + after), key), Kobo(j.customerBilled))
            else Bucket(keyOf, Billed(before + after), key)
  {
    EntriesAround(before, j, after);
    BilledConcat(before, after);
    if !j.cancelled && j.finishedAt.Some? {
      BucketWith(keyOf, Billed(before), Entry(j.finishedAt.value, Kobo(j.customerBilled)), Billed(after), key);
    } else {
      assert Billed(before) + [] + Billed(after) == Billed(before) + Billed(after);
    }
  }
}
