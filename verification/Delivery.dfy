/**
 One delivery run: `deliverDueBroadcastEmails` and `emailCustomers`
 (apps/portal/lib/broadcast-delivery.ts), and `sendDueAppointmentReminders`
 (apps/portal/lib/appointment-reminders.ts). The mail server, the people in the
 database and what other runs do meanwhile are parameters.
 */
module Delivery {
  import opened Wrappers
  import opened Claims

  const CUSTOMER_BATCH := 5

  datatype Broadcast = Broadcast(organisation: string, isActive: bool, sendEmail: bool, startsAt: int,
                                 endsAt: Option<int>, audience: string, audienceIds: seq<string>)

  /** Live, marked for email and not ended (its stamp is the item's). */
  predicate BroadcastDue(b: Broadcast, now: int) {
    b.isActive && b.sendEmail && b.startsAt <= now && (b.endsAt == None || b.endsAt.value > now)
  }

  datatype Customer = Customer(id: string, organisation: string, isActive: bool, notifyByEmail: bool,
                               email: Option<string>)

  datatype User = User(organisation: string, isActive: bool, email: string, branchId: Option<string>,
                       departmentId: Option<string>, roleSlugs: seq<string>)

  // ----- who is written to

  predicate IsEligible(b: Broadcast, c: Customer) {
    && c.organisation == b.organisation && c.isActive && c.notifyByEmail && c.email.Some?
    && (b.audience == "CUSTOMERS_SELECTED" ==> c.id in b.audienceIds)
  }

  predicate IsCustomerAudience(audience: string) {
    audience == "CUSTOMERS_ALL" || audience == "CUSTOMERS_SELECTED"
  }

  predicate Reaches(b: Broadcast, u: User) {
    if b.audience == "ALL" then true
    else if b.audience == "BRANCH" then u.branchId.Some? && u.branchId.value != "" && u.branchId.value in b.audienceIds
    else if b.audience == "DEPARTMENT" then u.departmentId.Some? && u.departmentId.value != ""
            && u.departmentId.value in b.audienceIds
    else if b.audience == "ROLE" then exists r :: r in u.roleSlugs && r in b.audienceIds
    else false
  }

  predicate IsReached(b: Broadcast, u: User) {
    u.organisation == b.organisation && u.isActive && u.email != "" && Reaches(b, u)
  }

  function EligibleFor(b: Broadcast): Customer -> bool {
    c => IsEligible(b, c)
  }

  function ReachedBy(b: Broadcast): User -> bool {
    u => IsReached(b, u)
  }

  function Not<T>(test: T -> bool): T -> bool {
    x => !test(x)
  }

  /** Those of a list that pass a test, in order. */
  function Filter<T>(xs: seq<T>, test: T -> bool): seq<T> {
    if xs == [] then []
    else if test(xs[|xs| - 1]) then Filter(xs[..|xs| - 1], test) + [xs[|xs| - 1]]
    else Filter(xs[..|xs| - 1], test)
  }

  /** A list is what passes a test together with what does not. */
  lemma {:induction false} FilterPartition<T>(xs: seq<T>, test: T -> bool)
    ensures |Filter(xs, test)| + |Filter(xs, Not(test))| == |xs|
    ensures multiset(Filter(xs, test)) + multiset(Filter(xs, Not(test))) == multiset(xs)
  {
    if xs != [] {
      FilterPartition(xs[..|xs| - 1], test);
      assert xs == xs[..|xs| - 1] + [xs[|xs| - 1]];
    }
  }

  /** Everyone is filtered as often as listed: exactly those who pass. */
  lemma {:induction false} FilterExactly<T>(xs: seq<T>, test: T -> bool, x: T)
    ensures multiset(Filter(xs, test))[x] == if test(x) then multiset(xs)[x] else 0
  {
    if xs != [] {
      FilterExactly(xs[..|xs| - 1], test, x);
      assert xs == xs[..|xs| - 1] + [xs[|xs| - 1]];
    }
  }

  // ----- emailCustomers

  function Eligible(b: Broadcast, table: seq<Customer>): seq<Customer> {
    Filter(table, EligibleFor(b))
  }

  function Arrived<T>(xs: seq<T>, arrives: T -> bool): seq<T> {
    Filter(xs, arrives)
  }

  function Bounced<T>(xs: seq<T>, arrives: T -> bool): seq<T> {
    Filter(xs, Not(arrives))
  }

  /** Who is picked, by the record's fields: as often as the table lists them, and nobody else. */
  lemma {:induction false} EligibleExactly(b: Broadcast, table: seq<Customer>)
    ensures forall c :: multiset(Eligible(b, table))[c] ==
              if && c.organisation == b.organisation && c.isActive && c.notifyByEmail && c.email.Some?
                 && (b.audience == "CUSTOMERS_SELECTED" ==> c.id in b.audienceIds)
              then multiset(table)[c] else 0
  {
    forall c ensures multiset(Eligible(b, table))[c] == if IsEligible(b, c) then multiset(table)[c] else 0 {
      FilterExactly(table, EligibleFor(b), c);
    }
  }

  /** `attempts` are the emails handed to the mail server, `logged` the failures written to the log, both in order. */
  method EmailCustomers(b: Broadcast, table: seq<Customer>, arrives: Customer -> bool)
    returns (sent: nat, failed: nat, attempts: seq<Customer>, logged: seq<Customer>)
    ensures attempts == Eligible(b, table)
    ensures forall c :: multiset(attempts)[c] ==
              if && c.organisation == b.organisation && c.isActive && c.notifyByEmail && c.email.Some?
                 && (b.audience == "CUSTOMERS_SELECTED" ==> c.id in b.audienceIds)
              then multiset(table)[c] else 0
    ensures logged == Bounced(attempts, arrives)
    ensures sent == |Arrived(attempts, arrives)| && failed == |logged| && sent + failed == |attempts|
  {
    var customers := Eligible(b, table);
    sent, failed, attempts, logged := 0, 0, [], [];
    var i := 0;
    while i < |customers|
      invariant attempts == customers[..if i < |customers| then i else |customers|]
      invariant logged == Bounced(attempts, arrives)
      invariant sent == |Arrived(attempts, arrives)| && failed == |logged|
    {
      var end := if i + CUSTOMER_BATCH < |customers| then i + CUSTOMER_BATCH else |customers|;
      var batch := customers[i..end];
      assert attempts + batch[..0] == attempts;
      for k := 0 to |batch|
        invariant logged == Bounced(attempts + batch[..k], arrives)
        invariant sent == |Arrived(attempts + batch[..k], arrives)| && failed == |logged|
      {
        assert (attempts + batch[..k + 1])[..|attempts| + k] == attempts + batch[..k];
        if arrives(batch[k]) {
          sent := sent + 1;
        } else {
          failed := failed + 1;
          logged := logged + [batch[k]];
        }
      }
      assert batch[..|batch|] == batch;
      assert customers[..end] == customers[..i] + batch;
      attempts := attempts + batch;
      i := i + CUSTOMER_BATCH;
    }
    assert customers[..|customers|] == customers;
    FilterPartition(attempts, arrives);
    EligibleExactly(b, table);
  }

  // ----- the loop over the staff

  /** Which staff are reached, audience by audience; no customer broadcast reaches any. */
  lemma {:induction false} ReachedExactly(b: Broadcast, users: seq<User>)
    ensures forall u :: multiset(Filter(users, ReachedBy(b)))[u] ==
              if && u.organisation == b.organisation && u.isActive && u.email != ""
                 && (|| b.audience == "ALL"
                     || (b.audience == "BRANCH" && u.branchId.Some? && u.branchId.value != ""
                         && u.branchId.value in b.audienceIds)
                     || (b.audience == "DEPARTMENT" && u.departmentId.Some? && u.departmentId.value != ""
                         && u.departmentId.value in b.audienceIds)
                     || (b.audience == "ROLE" && exists r :: r in u.roleSlugs && r in b.audienceIds))
              then multiset(users)[u] else 0
  {
    forall u ensures multiset(Filter(users, ReachedBy(b)))[u] == if IsReached(b, u) then multiset(users)[u] else 0 {
      FilterExactly(users, ReachedBy(b), u);
    }
  }

  method EmailStaff(b: Broadcast, users: seq<User>, arrives: User -> bool)
    returns (sent: nat, failed: nat, attempts: seq<User>)
    ensures attempts == Filter(users, ReachedBy(b))
    ensures forall u :: multiset(attempts)[u] ==
              if && u.organisation == b.organisation && u.isActive && u.email != ""
                 && (|| b.audience == "ALL"
                     || (b.audience == "BRANCH" && u.branchId.Some? && u.branchId.value != ""
                         && u.branchId.value in b.audienceIds)
                     || (b.audience == "DEPARTMENT" && u.departmentId.Some? && u.departmentId.value != ""
                         && u.departmentId.value in b.audienceIds)
                     || (b.audience == "ROLE" && exists r :: r in u.roleSlugs && r in b.audienceIds))
              then multiset(users)[u] else 0
    ensures sent == |Arrived(attempts, arrives)| && sent + failed == |attempts|
  {
    var audience := Filter(users, ReachedBy(b));
    sent, failed, attempts := 0, 0, [];
    for i := 0 to |audience|
      invariant attempts == audience[..i]
      invariant sent == |Arrived(attempts, arrives)| && sent + failed == i
    {
      assert audience[..i + 1][..i] == audience[..i];
      attempts := attempts + [audience[i]];
      assert attempts == audience[..i + 1];
      if arrives(audience[i]) {
        sent := sent + 1;
      } else {
        failed := failed + 1;
      }
    }
    assert audience[..|audience|] == audience;
    ReachedExactly(b, users);
  }

  // ----- deliverDueBroadcastEmails

  /**
   What a run meets: what others do to the records before its i-th claim, the
   customers it can read for a broadcast (`None` when the query fails), the
   users, and whether an email arrives.
   */
  datatype World = World(others: (nat, Db<Broadcast>) -> Db<Broadcast>, customers: string -> Option<seq<Customer>>,
                         users: string -> seq<User>, toCustomer: Customer -> bool, toUser: User -> bool)

  /** What one claimed broadcast adds to the total. */
  function SentFor(w: World, id: string, b: Broadcast): nat {
    if IsCustomerAudience(b.audience) then
      match w.customers(id)
      case None => 0
      case Some(table) => |Arrived(Eligible(b, table), w.toCustomer)|
    else
      |Arrived(Filter(w.users(id), ReachedBy(b)), w.toUser)|
  }

  /** How many of a list pass a test. */
  function Count<T>(xs: seq<T>, test: T -> bool): nat {
    if xs == [] then 0 else (if test(xs[0]) then 1 else 0) + Count(xs[1..], test)
  }

  lemma {:induction false} CountAnd<T>(xs: seq<T>, x: T, test: T -> bool)
    ensures Count(xs + [x], test) == Count(xs, test) + if test(x) then 1 else 0
  {
    if xs == [] {
      assert xs + [x] == [x];
    } else {
      assert (xs + [x])[1..] == xs[1..] + [x];
      CountAnd(xs[1..], x, test);
    }
  }

  lemma {:induction false} FilteredTwice<T>(xs: seq<T>, first: T -> bool, second: T -> bool, both: T -> bool)
    requires forall x :: x in xs ==> (both(x) <==> first(x) && second(x))
    ensures |Filter(Filter(xs, first), second)| == Count(xs, both)
  {
    if xs != [] {
      var init, x := xs[..|xs| - 1], xs[|xs| - 1];
      FilteredTwice(init, first, second, both);
      assert xs == init + [x];
      CountAnd(init, x, both);
      if first(x) {
        FilterAnd(Filter(init, first), x, second);
      }
    }
  }

  lemma {:induction false} FilterAnd<T>(xs: seq<T>, x: T, test: T -> bool)
    ensures Filter(xs + [x], test) == if test(x) then Filter(xs, test) + [x] else Filter(xs, test)
  {
    assert (xs + [x])[..|xs + [x]| - 1] == xs;
  }

  /** A customer is written to, and the email arrives. */
  function GetsAsCustomer(b: Broadcast, arrives: Customer -> bool): Customer -> bool {
    (c: Customer) =>
      && c.organisation == b.organisation && c.isActive && c.notifyByEmail && c.email.Some?
      && (b.audience == "CUSTOMERS_SELECTED" ==> c.id in b.audienceIds) && arrives(c)
  }

  /** A member of staff is written to, and the email arrives. */
  function GetsAsStaff(b: Broadcast, arrives: User -> bool): User -> bool {
    (u: User) =>
      && u.organisation == b.organisation && u.isActive && u.email != ""
      && (|| b.audience == "ALL"
          || (b.audience == "BRANCH" && u.branchId.Some? && u.branchId.value != "" && u.branchId.value in b.audienceIds)
          || (b.audience == "DEPARTMENT" && u.departmentId.Some? && u.departmentId.value != ""
              && u.departmentId.value in b.audienceIds)
          || (b.audience == "ROLE" && exists r :: r in u.roleSlugs && r in b.audienceIds))
      && arrives(u)
  }

  /**
   What one broadcast adds, by its fields: a customer broadcast the customers it gets to, if they can be read; any
   other the staff.
   */
  lemma {:induction false} SentForExactly(w: World, id: string, b: Broadcast)
    ensures b.audience in {"CUSTOMERS_ALL", "CUSTOMERS_SELECTED"} && w.customers(id) == None ==> SentFor(w, id, b) == 0
    ensures b.audience in {"CUSTOMERS_ALL", "CUSTOMERS_SELECTED"} && w.customers(id).Some? ==>
              SentFor(w, id, b) == Count(w.customers(id).value, GetsAsCustomer(b, w.toCustomer))
    ensures b.audience !in {"CUSTOMERS_ALL", "CUSTOMERS_SELECTED"} ==>
              SentFor(w, id, b) == Count(w.users(id), GetsAsStaff(b, w.toUser))
  {
    if b.audience in {"CUSTOMERS_ALL", "CUSTOMERS_SELECTED"} {
      if w.customers(id).Some? {
        FilteredTwice(w.customers(id).value, EligibleFor(b), w.toCustomer, GetsAsCustomer(b, w.toCustomer));
      }
    } else {
      FilteredTwice(w.users(id), ReachedBy(b), w.toUser, GetsAsStaff(b, w.toUser));
    }
  }

  /** The same, by id, from the copy of the broadcasts read with the snapshot. */
  function SentById(w: World, read: Db<Broadcast>): string -> nat {
    id => if id in read then SentFor(w, id, read[id].body) else 0
  }

  class Table<V> {
    var rows: Db<V>

    constructor (rows: Db<V>)
      ensures this.rows == rows
    {
      this.rows := rows;
    }

    method UpdateManyUnstamped(id: string, now: int) returns (count: nat)
      modifies this
      ensures rows == Claim(old(rows), id, now)
      ensures rows == if id in old(rows) && old(rows)[id].stamp == None
                      then old(rows)[id := Item(Some(now), old(rows)[id].body)] else old(rows)
      ensures count == if CanClaim(old(rows), id) then 1 else 0
    {
      if id in rows && rows[id].stamp == None {
        rows := rows[id := rows[id].(stamp := Some(now))];
        return 1;
      }
      return 0;
    }

    /** Everyone else's turn. */
    method Meanwhile(others: (nat, Db<V>) -> Db<V>, i: nat)
      modifies this
      ensures rows == others(i, old(rows))
    {
      rows := others(i, rows);
    }
  }

  /** `findMany`: of all ids, in the database's order, those that are unstamped and due. */
  function IsDueIn<V>(db: Db<V>, due: (V, int) -> bool, now: int): string -> bool {
    id => CanClaim(db, id) && due(db[id].body, now)
  }

  function FindDue<V>(db: Db<V>, due: (V, int) -> bool, now: int, order: seq<string>): seq<string> {
    Filter(order, IsDueIn(db, due, now))
  }

  /** Every id of the table once. */
  ghost predicate Lists<V>(order: seq<string>, db: Db<V>) {
    NoRepeats(order) && forall id :: id in order <==> id in db
  }

  lemma {:induction false} FilterKeeps(xs: seq<string>, test: string -> bool)
    ensures forall x :: x in Filter(xs, test) <==> x in xs && test(x)
    ensures NoRepeats(xs) ==> NoRepeats(Filter(xs, test))
  {
    if xs != [] {
      var init, x := xs[..|xs| - 1], xs[|xs| - 1];
      FilterKeeps(init, test);
      assert xs == init + [x];
      assert NoRepeats(xs) ==> NoRepeats(init) && x !in init;
    }
  }

  lemma {:induction false} FoundDue<V>(db: Db<V>, due: (V, int) -> bool, now: int, order: seq<string>)
    requires Lists(order, db)
    ensures IsSnapshot(db, due, now, FindDue(db, due, now, order)) && NoRepeats(FindDue(db, due, now, order))
    ensures forall id :: id in FindDue(db, due, now, order) <==>
              id in db && db[id].stamp == None && due(db[id].body, now)
  {
    FilterKeeps(order, IsDueIn(db, due, now));
    var found := FindDue(db, due, now, order);
    forall i | 0 <= i < |found| ensures CanClaim(db, found[i]) && due(db[found[i]].body, now) {
      assert found[i] in found;
    }
  }

  /** Nobody else does anything meanwhile. */
  ghost predicate Alone<V(!new)>(others: (nat, Db<V>) -> Db<V>) {
    forall i, db :: others(i, db) == db
  }

  /** Left alone, a run claims all it found. */
  lemma {:induction false} AloneClaimsAll<V(!new)>(db: Db<V>, now: int, snapshot: seq<string>,
                                                   others: (nat, Db<V>) -> Db<V>, sent: string -> nat)
    requires Alone(others) && NoRepeats(snapshot) && forall id :: id in snapshot ==> CanClaim(db, id)
    ensures var p := Deliver(db, now, snapshot, others, sent);
            && p.claimed == snapshot
            && forall id :: id !in snapshot && CanClaim(db, id) ==> CanClaim(p.db, id)
  {
    if snapshot != [] {
      var init, last := snapshot[..|snapshot| - 1], snapshot[|snapshot| - 1];
      assert snapshot == init + [last];
      assert NoRepeats(init) && last !in init;
      AloneClaimsAll(db, now, init, others, sent);
    }
  }

  /** A broadcast is due: unstamped, active, marked for email, begun, and not ended. */
  predicate IsDueBroadcast(row: Item<Broadcast>, now: int) {
    && row.stamp == None && row.body.isActive && row.body.sendEmail
    && row.body.startsAt <= now && (row.body.endsAt == None || row.body.endsAt.value > now)
  }

  /** The loop over the snapshot. */
  method DeliverEach(table: Table<Broadcast>, now: int, due: seq<string>, w: World)
    returns (total: nat, claimed: seq<string>)
    requires forall id :: id in due ==> id in table.rows
    modifies table
    ensures var p := Deliver(old(table.rows), now, due, w.others, SentById(w, old(table.rows)));
            table.rows == p.db && claimed == p.claimed && total == p.total
  {
    var read := table.rows;
    var sentFor := SentById(w, read);
    total, claimed := 0, [];
    for i := 0 to |due|
      invariant Progress(table.rows, claimed, total) == Deliver(read, now, due[..i], w.others, sentFor)
    {
      var id := due[i];
      assert id in due;
      assert due[..i + 1][..i] == due[..i];
      table.Meanwhile(w.others, i);
      var count := table.UpdateManyUnstamped(id, now);
      if count == 0 {
        continue;
      }
      claimed := claimed + [id];
      var sent := SendBroadcast(id, read[id].body, w);
      total := total + sent;
    }
    assert due[..|due|] == due;
  }

  /** What a run claims was due when it read its snapshot; and if nobody else acts, all of that. */
  lemma {:induction false} ClaimsDue<V(!new)>(db: Db<V>, due: (V, int) -> bool, now: int, order: seq<string>,
                                              others: (nat, Db<V>) -> Db<V>, sent: string -> nat)
    requires Lists(order, db)
    ensures var p := Deliver(db, now, FindDue(db, due, now, order), others, sent);
            && NoRepeats(p.claimed) && p.total == Sum(p.claimed, sent)
            && (forall id :: id in p.claimed ==> id in db && db[id].stamp == None && due(db[id].body, now))
            && (Alone(others) ==> forall id :: id in db && db[id].stamp == None && due(db[id].body, now) ==>
                id in p.claimed)
  {
    var found := FindDue(db, due, now, order);
    FoundDue(db, due, now, order);
    TotalOverClaimed(db, now, found, others, sent);
    if Alone(others) {
      AloneClaimsAll(db, now, found, others, sent);
    }
  }

  /** `order` is the database's order of the broadcasts. */
  method DeliverDueBroadcastEmails(table: Table<Broadcast>, now: int, order: seq<string>, w: World)
    returns (total: nat, claimed: seq<string>)
    requires Lists(order, table.rows)
    modifies table
    ensures var due := FindDue(old(table.rows), BroadcastDue, now, order);
            var p := Deliver(old(table.rows), now, due, w.others, SentById(w, old(table.rows)));
            table.rows == p.db && claimed == p.claimed && total == p.total
    ensures total == Sum(claimed, SentById(w, old(table.rows)))
    ensures NoRepeats(claimed)
    ensures forall id :: id in claimed ==> id in old(table.rows) && IsDueBroadcast(old(table.rows)[id], now)
    ensures Alone(w.others) ==>
              forall id :: id in old(table.rows) && IsDueBroadcast(old(table.rows)[id], now) ==> id in claimed
  {
    ghost var read := table.rows;
    FoundDue(read, BroadcastDue, now, order);
    ClaimsDue(read, BroadcastDue, now, order, w.others, SentById(w, read));
    var due := FindDue(table.rows, BroadcastDue, now, order);
    total, claimed := DeliverEach(table, now, due, w);
  }

  /** One claimed broadcast: to the customers or to the staff; a failed reading of the customers sends nothing. */
  method SendBroadcast(id: string, b: Broadcast, w: World) returns (sent: nat)
    ensures sent == SentFor(w, id, b)
  {
    sent := 0;
    if IsCustomerAudience(b.audience) {
      var customers := w.customers(id);
      if customers.Some? {
        var failed, attempts, logged;
        sent, failed, attempts, logged := EmailCustomers(b, customers.value, w.toCustomer);
      }
    } else {
      var failed, attempts;
      sent, failed, attempts := EmailStaff(b, w.users(id), w.toUser);
    }
  }

  // ----- sendDueAppointmentReminders

  datatype Appointment = Appointment(status: string, startsAt: int)

  const REMINDER_WINDOW_MS := 65 * 60_000

  predicate ReminderDue(a: Appointment, now: int) {
    a.status == "SCHEDULED" && a.startsAt > now && a.startsAt <= now + REMINDER_WINDOW_MS
  }

  function OneEach(): string -> nat {
    id => 1
  }

  /** An appointment is due a reminder: unstamped, scheduled, and beginning within 65 minutes. */
  predicate IsDueAppointment(row: Item<Appointment>, now: int) {
    row.stamp == None && row.body.status == "SCHEDULED" && now < row.body.startsAt <= now + 3_900_000
  }

  method RemindEach(table: Table<Appointment>, now: int, due: seq<string>,
                    others: (nat, Db<Appointment>) -> Db<Appointment>)
    returns (sent: nat, claimed: seq<string>)
    modifies table
    ensures var p := Deliver(old(table.rows), now, due, others, OneEach());
            table.rows == p.db && claimed == p.claimed && sent == p.total
    ensures sent == |claimed|
  {
    var read, one := table.rows, OneEach();
    sent, claimed := 0, [];
    for i := 0 to |due|
      invariant Progress(table.rows, claimed, sent) == Deliver(read, now, due[..i], others, one)
      invariant sent == |claimed|
    {
      assert due[..i + 1][..i] == due[..i];
      table.Meanwhile(others, i);
      var count := table.UpdateManyUnstamped(due[i], now);
      if count == 0 {
        continue;
      }
      claimed := claimed + [due[i]];
      sent := sent + 1;
    }
    assert due[..|due|] == due;
  }

  /** Every claim is one reminder sent. */
  method SendDueAppointmentReminders(table: Table<Appointment>, now: int, order: seq<string>,
                                     others: (nat, Db<Appointment>) -> Db<Appointment>)
    returns (sent: nat, claimed: seq<string>)
    requires Lists(order, table.rows)
    modifies table
    ensures var due := FindDue(old(table.rows), ReminderDue, now, order);
            var p := Deliver(old(table.rows), now, due, others, OneEach());
            table.rows == p.db && claimed == p.claimed && sent == p.total
    ensures sent == |claimed| && NoRepeats(claimed)
    ensures forall id :: id in claimed ==> id in old(table.rows) && IsDueAppointment(old(table.rows)[id], now)
    ensures Alone(others) ==>
              forall id :: id in old(table.rows) && IsDueAppointment(old(table.rows)[id], now) ==> id in claimed
  {
    ClaimsDue(table.rows, ReminderDue, now, order, others, OneEach());
    var due := FindDue(table.rows, ReminderDue, now, order);
    sent, claimed := RemindEach(table, now, due, others);
  }
}
