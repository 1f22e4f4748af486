/**
 Claim, then send: the protocol shared by broadcasts
 (apps/portal/lib/broadcast-delivery.ts) and appointment reminders
 (apps/portal/lib/appointment-reminders.ts). A run reads a snapshot of the
 records that are due, then for each one sets its stamp only where the stamp is
 still empty (one atomic database step), and sends only when that changed a row.

 Any number of runs interleave with each other, with edits, and with the
 actions elsewhere in the portal that empty a stamp on purpose.
 */
module Claims {
  import opened Wrappers

  datatype Item<V> = Item(stamp: Option<int>, body: V)

  type Db<V> = map<string, Item<V>>

  /** `updateMany({ where: { id, stamp: null }, data: { stamp: now } })`: did it change a row? */
  predicate CanClaim<V>(db: Db<V>, id: string) {
    id in db && db[id].stamp == None
  }

  function Claim<V>(db: Db<V>, id: string, now: int): Db<V> {
    if CanClaim(db, id) then db[id := db[id].(stamp := Some(now))] else db
  }

  // ----- all interleavings

  datatype Run = Run(now: int, snapshot: seq<string>, next: nat)

  datatype Step<V> =
    | Start(run: nat, now: int, snapshot: seq<string>)
    | ClaimNext(run: nat, completes: bool)
    | Edit(id: string, body: V)
    | Create(id: string, body: V)
    | Reset(id: string)

  /** `claims` and `sends` list who claimed and who sent what, in order; `resets` the stamps emptied. */
  datatype State<V> = State(db: Db<V>, runs: map<nat, Run>, claims: seq<(nat, string)>, sends: seq<(nat, string)>,
                            resets: seq<string>)

  /** A snapshot lists records that are due and unstamped at that moment. */
  ghost predicate IsSnapshot<V>(db: Db<V>, due: (V, int) -> bool, now: int, ids: seq<string>) {
    forall i :: 0 <= i < |ids| ==> CanClaim(db, ids[i]) && due(db[ids[i]].body, now)
  }

  ghost predicate Enabled<V>(s: State<V>, due: (V, int) -> bool, step: Step<V>) {
    match step
    case Start(r, now, ids) => r !in s.runs && IsSnapshot(s.db, due, now, ids)
    case ClaimNext(r, _) => r in s.runs && s.runs[r].next < |s.runs[r].snapshot|
    case Edit(id, _) => id in s.db
    case Create(id, _) => id !in s.db
    case Reset(id) => id in s.db
  }

  function Apply<V>(s: State<V>, step: Step<V>): State<V> {
    match step
    case Start(r, now, ids) => s.(runs := s.runs[r := Run(now, ids, 0)])
    case ClaimNext(r, completes) =>
      if r !in s.runs || s.runs[r].next >= |s.runs[r].snapshot| then s
      else
        var run := s.runs[r];
        var id := run.snapshot[run.next];
        var moved := s.(runs := s.runs[r := run.(next := run.next + 1)]);
        if !CanClaim(s.db, id) then moved
        else
          moved.(db := Claim(s.db, id, run.now), claims := s.claims + [(r, id)],
                 sends := if completes then s.sends + [(r, id)] else s.sends)
    case Edit(id, body) => if id in s.db then s.(db := s.db[id := s.db[id].(body := body)]) else s
    case Create(id, body) => s.(db := s.db[id := Item(None, body)])
    case Reset(id) =>
      if id !in s.db then s
      else s.(db := s.db[id := s.db[id].(stamp := None)],
              resets := if s.db[id].stamp.Some? then s.resets + [id] else s.resets)
  }

  function After<V>(db: Db<V>, steps: seq<Step<V>>): State<V> {
    if steps == [] then State(db, map[], [], [], [])
    else Apply(After(db, steps[..|steps| - 1]), steps[|steps| - 1])
  }

  ghost predicate Possible<V>(db: Db<V>, due: (V, int) -> bool, steps: seq<Step<V>>) {
    steps == [] ||
    (var before := steps[..|steps| - 1];
     Possible(db, due, before) && Enabled(After(db, before), due, steps[|steps| - 1]))
  }

  // ----- conservation of stamps

  function ClaimsOf(log: seq<(nat, string)>, id: string): nat {
    if log == [] then 0
    else ClaimsOf(log[..|log| - 1], id) + if log[|log| - 1].1 == id then 1 else 0
  }

  function ResetsOf(log: seq<string>, id: string): nat {
    if log == [] then 0
    else ResetsOf(log[..|log| - 1], id) + if log[|log| - 1] == id then 1 else 0
  }

  function Stamped<V>(db: Db<V>, id: string): nat {
    if id in db && db[id].stamp.Some? then 1 else 0
  }

  lemma {:induction false} LogStep(log: seq<(nat, string)>, entry: (nat, string), id: string)
    ensures ClaimsOf(log + [entry], id) == ClaimsOf(log, id) + if entry.1 == id then 1 else 0
  {
    assert (log + [entry])[..|log + [entry]| - 1] == log;
  }

  lemma {:induction false} ResetStep(log: seq<string>, entry: string, id: string)
    ensures ResetsOf(log + [entry], id) == ResetsOf(log, id) + if entry == id then 1 else 0
  {
    assert (log + [entry])[..|log + [entry]| - 1] == log;
  }

  /** Successful claims plus the stamp there was equal the stamps emptied plus the stamp there is. */
  ghost predicate Balanced<V>(db: Db<V>, s: State<V>, id: string) {
    && ClaimsOf(s.claims, id) + Stamped(db, id) == ResetsOf(s.resets, id) + Stamped(s.db, id)
    && ClaimsOf(s.sends, id) <= ClaimsOf(s.claims, id)
  }

  lemma {:induction false} ClaimStamps<V>(db: Db<V>, claimed: string, now: int, id: string)
    requires CanClaim(db, claimed)
    ensures Stamped(Claim(db, claimed, now), id) == Stamped(db, id) + if id == claimed then 1 else 0
  {
  }

  lemma {:induction false} ClaimBalanced<V>(db: Db<V>, s: State<V>, r: nat, completes: bool, id: string)
    requires Balanced(db, s, id)
    ensures Balanced(db, Apply(s, ClaimNext(r, completes)), id)
  {
    if r in s.runs && s.runs[r].next < |s.runs[r].snapshot| {
      var claimed := s.runs[r].snapshot[s.runs[r].next];
      var t := Apply(s, ClaimNext(r, completes));
      if CanClaim(s.db, claimed) {
        ClaimStamps(s.db, claimed, s.runs[r].now, id);
        LogStep(s.claims, (r, claimed), id);
        LogStep(s.sends, (r, claimed), id);
      } else {
        assert t.db == s.db && t.claims == s.claims && t.sends == s.sends && t.resets == s.resets;
      }
    }
  }

  lemma {:induction false} ResetStamps<V>(db: Db<V>, reset: string, id: string)
    requires reset in db
    ensures Stamped(db[reset := db[reset].(stamp := None)], id)
         == Stamped(db, id) - if id == reset && db[reset].stamp.Some? then 1 else 0
  {
  }

  lemma {:induction false} ResetBalanced<V>(db: Db<V>, s: State<V>, reset: string, id: string)
    requires Balanced(db, s, id) && reset in s.db
    ensures Balanced(db, Apply(s, Reset(reset)), id)
  {
    var t := Apply(s, Reset(reset));
    assert t.claims == s.claims && t.sends == s.sends;
    ResetStamps(s.db, reset, id);
    if s.db[reset].stamp.Some? {
      assert t.resets == s.resets + [reset];
      ResetStep(s.resets, reset, id);
    } else {
      assert t.resets == s.resets;
    }
  }

  /** Every step of every run keeps the balance. */
  lemma {:induction false} StepBalanced<V>(db: Db<V>, s: State<V>, due: (V, int) -> bool, step: Step<V>, id: string)
    requires Balanced(db, s, id) && Enabled(s, due, step)
    ensures Balanced(db, Apply(s, step), id)
  {
    if step.ClaimNext? {
      ClaimBalanced(db, s, step.run, step.completes, id);
    } else if step.Reset? {
      ResetBalanced(db, s, step.id, id);
    } else {
      var t := Apply(s, step);
      assert t.claims == s.claims && t.sends == s.sends && t.resets == s.resets;
    }
  }

  lemma {:induction false} StampsConserved<V>(db: Db<V>, due: (V, int) -> bool, steps: seq<Step<V>>, id: string)
    requires Possible(db, due, steps)
    ensures Balanced(db, After(db, steps), id)
  {
    if steps != [] {
      var before := steps[..|steps| - 1];
      StampsConserved(db, due, before, id);
      StepBalanced(db, After(db, before), due, steps[|steps| - 1], id);
    }
  }

  /** Sent at most once more often than its stamp was emptied; so at most once when nothing else empties it. */
  lemma {:induction false} SentAtMostOnce<V>(db: Db<V>, due: (V, int) -> bool, steps: seq<Step<V>>, id: string)
    requires Possible(db, due, steps)
    ensures var s := After(db, steps);
            && ClaimsOf(s.sends, id) <= ResetsOf(s.resets, id) + 1
            && (id !in s.resets ==> ClaimsOf(s.sends, id) <= 1)
  {
    var s := After(db, steps);
    StampsConserved(db, due, steps, id);
    if id !in s.resets {
      NoResets(s.resets, id);
    }
  }

  lemma {:induction false} NoResets(log: seq<string>, id: string)
    requires id !in log
    ensures ResetsOf(log, id) == 0
  {
    if log != [] {
      NoResets(log[..|log| - 1], id);
    }
  }

  lemma {:induction false} OneMore<V>(db: Db<V>, due: (V, int) -> bool, steps: seq<Step<V>>, step: Step<V>)
    requires Possible(db, due, steps) && Enabled(After(db, steps), due, step)
    ensures Possible(db, due, steps + [step]) && After(db, steps + [step]) == Apply(After(db, steps), step)
  {
    var all := steps + [step];
    assert all[..|all| - 1] == steps && all[|all| - 1] == step;
    assert all != [];
  }

  /** `t` follows from `s` by one new run claiming and sending the record. */
  ghost predicate SentBy<V>(s: State<V>, t: State<V>, now: int, id: string, r: nat) {
    && id in s.db && t.db == s.db[id := s.db[id].(stamp := Some(now))]
    && (forall q :: q in t.runs ==> q in s.runs || q == r)
    && t.sends == s.sends + [(r, id)] && t.resets == s.resets
  }

  lemma {:induction false} StartThenClaim<V>(s: State<V>, now: int, id: string, r: nat)
    requires CanClaim(s.db, id) && r !in s.runs
    ensures var u := Apply(s, Start(r, now, [id]));
            && u.db == s.db && r in u.runs && u.runs[r] == Run(now, [id], 0)
            && SentBy(s, Apply(u, ClaimNext(r, true)), now, id, r)
  {
  }

  /** A new run finds an unstamped record due, claims it and sends it. */
  lemma {:induction false} SendsOnce<V>(db: Db<V>, due: (V, int) -> bool, steps: seq<Step<V>>, now: int, id: string,
                                        r: nat)
    returns (more: seq<Step<V>>)
    requires Possible(db, due, steps)
    requires var s := After(db, steps); CanClaim(s.db, id) && due(s.db[id].body, now) && r !in s.runs
    ensures Possible(db, due, more) && SentBy(After(db, steps), After(db, more), now, id, r)
  {
    StartThenClaim(After(db, steps), now, id, r);
    OneMore(db, due, steps, Start(r, now, [id]));
    OneMore(db, due, steps + [Start(r, now, [id])], ClaimNext(r, true));
    more := steps + [Start(r, now, [id])] + [ClaimNext(r, true)];
  }

  /** The record has been sent once more than its stamp was emptied, by runs numbered up to that. */
  ghost predicate SentOnceMore<V>(s: State<V>, id: string, body: V, now: int, resets: nat) {
    && ClaimsOf(s.sends, id) == resets + 1 && ResetsOf(s.resets, id) == resets
    && id in s.db && s.db[id] == Item(Some(now), body)
    && forall r :: r in s.runs ==> r <= resets
  }

  lemma {:induction false} FirstSend<V>(due: (V, int) -> bool, body: V, now: int, id: string)
    returns (db: Db<V>, steps: seq<Step<V>>)
    requires due(body, now)
    ensures Possible(db, due, steps) && SentOnceMore(After(db, steps), id, body, now, 0)
  {
    db := map[id := Item(None, body)];
    steps := SendsOnce(db, due, [], now, id, 0);
    LogStep([], (0, id), id);
  }

  lemma {:induction false} ResetThenSent<V>(s: State<V>, u: State<V>, t: State<V>, id: string, body: V, now: int,
                                            resets: nat)
    requires SentOnceMore(s, id, body, now, resets) && u == Apply(s, Reset(id)) && SentBy(u, t, now, id, resets + 1)
    ensures SentOnceMore(t, id, body, now, resets + 1)
  {
    ResetStep(s.resets, id, id);
    LogStep(s.sends, (resets + 1, id), id);
  }

  lemma {:induction false} ResetAndSend<V>(db: Db<V>, due: (V, int) -> bool, steps: seq<Step<V>>, body: V, now: int,
                                           id: string, resets: nat)
    returns (more: seq<Step<V>>)
    requires Possible(db, due, steps) && SentOnceMore(After(db, steps), id, body, now, resets) && due(body, now)
    ensures Possible(db, due, more) && SentOnceMore(After(db, more), id, body, now, resets + 1)
  {
    OneMore(db, due, steps, Reset(id));
    more := SendsOnce(db, due, steps + [Reset(id)], now, id, resets + 1);
    ResetThenSent(After(db, steps), After(db, steps + [Reset(id)]), After(db, more), id, body, now, resets);
  }

  /**
   The bound is reached: however often the stamp is emptied, as resending a broadcast does, it can be sent once
   more than that.
   */
  lemma {:induction false} ResentAfterResets<V>(due: (V, int) -> bool, body: V, now: int, id: string, resets: nat)
    returns (db: Db<V>, steps: seq<Step<V>>)
    requires due(body, now)
    ensures Possible(db, due, steps) && SentOnceMore(After(db, steps), id, body, now, resets)
  {
    if resets == 0 {
      db, steps := FirstSend(due, body, now, id);
    } else {
      db, steps := ResentAfterResets(due, body, now, id, resets - 1);
      steps := ResetAndSend(db, due, steps, body, now, id, resets - 1);
    }
  }

  // ----- who sends what

  /**
   The log entry belongs to a run that had the record in its snapshot, taken when the record was due and unstamped.
   */
  ghost predicate Justified<V>(db: Db<V>, due: (V, int) -> bool, steps: seq<Step<V>>, entry: (nat, string)) {
    exists i :: 0 <= i < |steps| && StartsWith(db, due, steps, i, entry)
  }

  ghost predicate StartsWith<V>(db: Db<V>, due: (V, int) -> bool, steps: seq<Step<V>>, i: int, entry: (nat, string))
    requires 0 <= i < |steps|
  {
    && steps[i].Start? && steps[i].run == entry.0 && entry.1 in steps[i].snapshot
    && var seen := After(db, steps[..i]).db;
       CanClaim(seen, entry.1) && due(seen[entry.1].body, steps[i].now)
  }

  lemma {:induction false} JustifiedLater<V>(db: Db<V>, due: (V, int) -> bool, steps: seq<Step<V>>, step: Step<V>,
                                             entry: (nat, string))
    requires Justified(db, due, steps, entry)
    ensures Justified(db, due, steps + [step], entry)
  {
    var i :| 0 <= i < |steps| && StartsWith(db, due, steps, i, entry);
    assert (steps + [step])[..i] == steps[..i];
    assert StartsWith(db, due, steps + [step], i, entry);
  }

  /** Whatever is in a run's snapshot is justified. */
  ghost predicate RunsJustified<V>(db: Db<V>, due: (V, int) -> bool, steps: seq<Step<V>>) {
    forall r, k :: r in After(db, steps).runs && 0 <= k < |After(db, steps).runs[r].snapshot| ==>
      Justified(db, due, steps, (r, After(db, steps).runs[r].snapshot[k]))
  }

  lemma {:induction false} SnapshotsJustified<V>(db: Db<V>, due: (V, int) -> bool, steps: seq<Step<V>>)
    requires Possible(db, due, steps)
    ensures RunsJustified(db, due, steps)
  {
    if steps != [] {
      var before, step := steps[..|steps| - 1], steps[|steps| - 1];
      var s, t := After(db, before), After(db, steps);
      SnapshotsJustified(db, due, before);
      assert before + [step] == steps;
      forall r, k | r in t.runs && 0 <= k < |t.runs[r].snapshot|
        ensures Justified(db, due, steps, (r, t.runs[r].snapshot[k]))
      {
        if step.Start? && step.run == r {
          assert steps[..|steps| - 1] == before;
          assert StartsWith(db, due, steps, |steps| - 1, (r, t.runs[r].snapshot[k]));
        } else {
          assert t.runs[r].snapshot == s.runs[r].snapshot;
          JustifiedLater(db, due, before, step, (r, s.runs[r].snapshot[k]));
        }
      }
    }
  }

  /** Every send follows a claim by the same run that changed the row, of a record in that run's snapshot. */
  lemma {:induction false} SendsAreClaimed<V>(db: Db<V>, due: (V, int) -> bool, steps: seq<Step<V>>,
                                              entry: (nat, string))
    requires Possible(db, due, steps)
    ensures entry in After(db, steps).sends ==> entry in After(db, steps).claims
    ensures entry in After(db, steps).claims ==> Justified(db, due, steps, entry)
  {
    if steps != [] {
      var before, step := steps[..|steps| - 1], steps[|steps| - 1];
      var s := After(db, before);
      SendsAreClaimed(db, due, before, entry);
      assert before + [step] == steps;
      if entry in s.claims {
        JustifiedLater(db, due, before, step, entry);
      } else if entry in After(db, steps).claims {
        SnapshotsJustified(db, due, before);
        var run := s.runs[step.run];
        assert entry == (step.run, run.snapshot[run.next]);
        JustifiedLater(db, due, before, step, entry);
      }
    }
  }

  // ----- one run among others

  /** What a run has done so far: the records as it leaves them, what it claimed, and its total. */
  datatype Progress<V> = Progress(db: Db<V>, claimed: seq<string>, total: nat)

  /**
   A run over its snapshot. `others(i, db)` is the database after whatever
   everyone else does before this run's i-th claim; `sent` is what sending a
   claimed record adds to the total.
   */
  ghost function Deliver<V>(db: Db<V>, now: int, snapshot: seq<string>, others: (nat, Db<V>) -> Db<V>,
                            sent: string -> nat): Progress<V>
  {
    if snapshot == [] then Progress(db, [], 0)
    else
      var n := |snapshot| - 1;
      var p := Deliver(db, now, snapshot[..n], others, sent);
      var seen := others(n, p.db);
      if CanClaim(seen, snapshot[n]) then
        Progress(Claim(seen, snapshot[n], now), p.claimed + [snapshot[n]], p.total + sent(snapshot[n]))
      else
        p.(db := seen)
  }

  function Sum(ids: seq<string>, sent: string -> nat): nat {
    if ids == [] then 0 else Sum(ids[..|ids| - 1], sent) + sent(ids[|ids| - 1])
  }

  ghost predicate NoRepeats(ids: seq<string>) {
    forall i, j :: 0 <= i < j < |ids| ==> ids[i] != ids[j]
  }

  lemma {:induction false} ClaimedFromSnapshot<V>(db: Db<V>, now: int, snapshot: seq<string>,
                                                  others: (nat, Db<V>) -> Db<V>, sent: string -> nat)
    ensures forall id :: id in Deliver(db, now, snapshot, others, sent).claimed ==> id in snapshot
    ensures NoRepeats(snapshot) ==> NoRepeats(Deliver(db, now, snapshot, others, sent).claimed)
  {
    if snapshot != [] {
      var init := snapshot[..|snapshot| - 1];
      ClaimedFromSnapshot(db, now, init, others, sent);
      assert NoRepeats(snapshot) ==> NoRepeats(init) && snapshot[|snapshot| - 1] !in init;
    }
  }

  /** The total is the sum over exactly the records this run claimed, each from its snapshot and none twice. */
  lemma {:induction false} TotalOverClaimed<V>(db: Db<V>, now: int, snapshot: seq<string>,
                                               others: (nat, Db<V>) -> Db<V>, sent: string -> nat)
    ensures var p := Deliver(db, now, snapshot, others, sent);
            && p.total == Sum(p.claimed, sent)
            && (forall id :: id in p.claimed ==> id in snapshot)
            && (NoRepeats(snapshot) ==> NoRepeats(p.claimed))
  {
    ClaimedFromSnapshot(db, now, snapshot, others, sent);
    SumOfClaimed(db, now, snapshot, others, sent);
  }

  lemma {:induction false} SumOfClaimed<V>(db: Db<V>, now: int, snapshot: seq<string>, others: (nat, Db<V>) -> Db<V>,
                                           sent: string -> nat)
    ensures Deliver(db, now, snapshot, others, sent).total
            == Sum(Deliver(db, now, snapshot, others, sent).claimed, sent)
  {
    if snapshot != [] {
      var init, id := snapshot[..|snapshot| - 1], snapshot[|snapshot| - 1];
      SumOfClaimed(db, now, init, others, sent);
      var claimed := Deliver(db, now, init, others, sent).claimed;
      assert (claimed + [id])[..|claimed|] == claimed;
    }
  }

  lemma {:induction false} DeliverOneMore<V>(db: Db<V>, now: int, snapshot: seq<string>, n: nat,
                                             others: (nat, Db<V>) -> Db<V>, sent: string -> nat)
    requires n < |snapshot|
    ensures var p := Deliver(db, now, snapshot[..n], others, sent);
            var q, seen := Deliver(db, now, snapshot[..n + 1], others, sent), others(n, p.db);
            && q.db == Claim(seen, snapshot[n], now)
            && q.claimed == if CanClaim(seen, snapshot[n]) then p.claimed + [snapshot[n]] else p.claimed
  {
    assert snapshot[..n + 1][..n] == snapshot[..n];
  }

  lemma {:induction false} ClaimedAtTurn<V>(db: Db<V>, now: int, snapshot: seq<string>, others: (nat, Db<V>) -> Db<V>,
                                            sent: string -> nat, n: nat, id: string)
    requires n < |snapshot|
    ensures var p, q := Deliver(db, now, snapshot[..n], others, sent),
            Deliver(db, now, snapshot[..n + 1], others, sent);
            id in q.claimed <==> id in p.claimed || (id == snapshot[n] && CanClaim(others(n, p.db), id))
  {
    DeliverOneMore(db, now, snapshot, n, others, sent);
  }

  /** Later turns claim other records. */
  lemma {:induction false} ClaimedAlready<V>(db: Db<V>, now: int, snapshot: seq<string>, others: (nat, Db<V>) -> Db<V>,
                                             sent: string -> nat, n: nat, id: string)
    requires n <= |snapshot| && id !in snapshot[n..]
    ensures id in Deliver(db, now, snapshot, others, sent).claimed
       <==> id in Deliver(db, now, snapshot[..n], others, sent).claimed
    decreases |snapshot| - n
  {
    if n < |snapshot| {
      assert snapshot[n..][0] == snapshot[n];
      ClaimedAtTurn(db, now, snapshot, others, sent, n, id);
      ClaimedAlready(db, now, snapshot, others, sent, n + 1, id);
    } else {
      assert snapshot[..n] == snapshot;
    }
  }

  /**
   A record is claimed exactly when it is in the snapshot and its stamp is still empty when its turn comes; the
   claim leaves it stamped.
   */
  lemma {:induction false} ClaimedWhenEmpty<V>(db: Db<V>, now: int, snapshot: seq<string>,
                                               others: (nat, Db<V>) -> Db<V>, sent: string -> nat, i: nat)
    requires NoRepeats(snapshot) && i < |snapshot|
    ensures var seen := others(i, Deliver(db, now, snapshot[..i], others, sent).db);
            && (snapshot[i] in Deliver(db, now, snapshot, others, sent).claimed <==> CanClaim(seen, snapshot[i]))
            && Deliver(db, now, snapshot[..i + 1], others, sent).db == Claim(seen, snapshot[i], now)
  {
    var id := snapshot[i];
    DeliverOneMore(db, now, snapshot, i, others, sent);
    ClaimedAtTurn(db, now, snapshot, others, sent, i, id);
    ClaimedFromSnapshot(db, now, snapshot[..i], others, sent);
    assert id !in snapshot[..i] && id !in snapshot[i + 1..];
    ClaimedAlready(db, now, snapshot, others, sent, i + 1, id);
  }

  // ----- a run of the machine is a run among others

  /**
   What a step does to a database, whatever that holds: which record, and when, is as the run stands in the
   machine.
   */
  function Effect<V>(s: State<V>, step: Step<V>, left: Db<V>): Db<V> {
    match step
    case Start(_, _, _) => left
    case ClaimNext(r, _) =>
      if r !in s.runs || s.runs[r].next >= |s.runs[r].snapshot| then left
      else Claim(left, s.runs[r].snapshot[s.runs[r].next], s.runs[r].now)
    case Edit(id, body) => if id in left then left[id := left[id].(body := body)] else left
    case Create(id, body) => left[id := Item(None, body)]
    case Reset(id) => if id in left then left[id := left[id].(stamp := None)] else left
  }

  predicate IsTurn<V>(step: Step<V>, r: nat) {
    (step.Start? && step.run == r) || (step.ClaimNext? && step.run == r)
  }

  /** What the others' steps since the run's own last one make of the database it left. */
  ghost function Since<V>(db: Db<V>, steps: seq<Step<V>>, r: nat, left: Db<V>): Db<V> {
    if steps == [] then left
    else
      var before, step := steps[..|steps| - 1], steps[|steps| - 1];
      if IsTurn(step, r) then left else Effect(After(db, before), step, Since(db, before, r, left))
  }

  /** What the others' steps before the run's i-th claim make of the database it left. */
  ghost function BeforeClaim<V>(db: Db<V>, steps: seq<Step<V>>, r: nat, i: nat, left: Db<V>): Db<V> {
    if steps == [] then left
    else
      var before, step := steps[..|steps| - 1], steps[|steps| - 1];
      var s := After(db, before);
      if step.ClaimNext? && step.run == r && r in s.runs && s.runs[r].next == i then Since(db, before, r, left)
      else BeforeClaim(db, before, r, i, left)
  }

  /** The others of a run, as an interleaving has them act between its claims. */
  ghost function OthersOf<V>(db: Db<V>, steps: seq<Step<V>>, r: nat): (nat, Db<V>) -> Db<V> {
    (i: nat, left: Db<V>) => BeforeClaim(db, steps, r, i, left)
  }

  /** The database the run starts from. */
  ghost function StartedFrom<V>(db: Db<V>, steps: seq<Step<V>>, r: nat): Db<V> {
    if steps == [] then db
    else
      var before, step := steps[..|steps| - 1], steps[|steps| - 1];
      if step.Start? && step.run == r then After(db, before).db else StartedFrom(db, before, r)
  }

  /** The records a run claimed, in order. */
  function ClaimsBy(log: seq<(nat, string)>, r: nat): seq<string> {
    if log == [] then []
    else if log[|log| - 1].0 == r then ClaimsBy(log[..|log| - 1], r) + [log[|log| - 1].1]
    else ClaimsBy(log[..|log| - 1], r)
  }

  lemma {:induction false} ClaimsByStep(log: seq<(nat, string)>, entry: (nat, string), r: nat)
    ensures ClaimsBy(log + [entry], r) == if entry.0 == r then ClaimsBy(log, r) + [entry.1] else ClaimsBy(log, r)
  {
    assert (log + [entry])[..|log + [entry]| - 1] == log;
  }

  /** Only what others do before a run's own turns matters to it. */
  lemma {:induction false} SameOthers<V>(db: Db<V>, now: int, snapshot: seq<string>, sent: string -> nat,
                                         others: (nat, Db<V>) -> Db<V>, others': (nat, Db<V>) -> Db<V>)
    requires forall i: nat, seen: Db<V> :: i < |snapshot| ==> others(i, seen) == others'(i, seen)
    ensures Deliver(db, now, snapshot, others, sent) == Deliver(db, now, snapshot, others', sent)
  {
    if snapshot != [] {
      SameOthers(db, now, snapshot[..|snapshot| - 1], sent, others, others');
    }
  }

  /** A run not yet started has claimed nothing, and no run goes past its snapshot. */
  ghost predicate WellRun<V>(s: State<V>, r: nat) {
    && (r !in s.runs ==> ClaimsBy(s.claims, r) == [])
    && (r in s.runs ==> s.runs[r].next <= |s.runs[r].snapshot|)
  }

  lemma {:induction false} StepWellRun<V>(s: State<V>, step: Step<V>, r: nat)
    requires WellRun(s, r)
    ensures WellRun(Apply(s, step), r)
  {
    if step.ClaimNext? && step.run in s.runs && s.runs[step.run].next < |s.runs[step.run].snapshot| {
      ClaimsByStep(s.claims, (step.run, s.runs[step.run].snapshot[s.runs[step.run].next]), r);
    }
  }

  /** The loop of a run, as far as the run has come, among its others. */
  ghost function AsDeliver<V>(db: Db<V>, steps: seq<Step<V>>, r: nat, sent: string -> nat): Progress<V>
    requires r in After(db, steps).runs && After(db, steps).runs[r].next <= |After(db, steps).runs[r].snapshot|
  {
    var run := After(db, steps).runs[r];
    Deliver(StartedFrom(db, steps, r), run.now, run.snapshot[..run.next], OthersOf(db, steps, r), sent)
  }

  /** What a run claimed is what its loop claims, and the database is what the others made of the one its loop left. */
  ghost predicate RunsAsDeliver<V>(db: Db<V>, steps: seq<Step<V>>, r: nat, sent: string -> nat) {
    var s := After(db, steps);
    r in s.runs && s.runs[r].next <= |s.runs[r].snapshot| ==>
      var p := AsDeliver(db, steps, r, sent);
      ClaimsBy(s.claims, r) == p.claimed && s.db == Since(db, steps, r, p.db)
  }

  lemma {:induction false} EffectIsApply<V>(s: State<V>, step: Step<V>)
    ensures Apply(s, step).db == Effect(s, step, s.db)
  {
  }

  lemma {:induction false} OwnTurn<V>(s: State<V>, r: nat, completes: bool)
    requires r in s.runs && s.runs[r].next < |s.runs[r].snapshot|
    ensures var t, run := Apply(s, ClaimNext(r, completes)), s.runs[r];
            var id := run.snapshot[run.next];
            && r in t.runs && t.runs[r] == run.(next := run.next + 1) && t.db == Claim(s.db, id, run.now)
            && ClaimsBy(t.claims, r) == ClaimsBy(s.claims, r) + if CanClaim(s.db, id) then [id] else []
  {
    ClaimsByStep(s.claims, (r, s.runs[r].snapshot[s.runs[r].next]), r);
  }

  ghost predicate IsOwnTurn<V>(s: State<V>, step: Step<V>, r: nat) {
    step.ClaimNext? && step.run == r && r in s.runs && s.runs[r].next < |s.runs[r].snapshot|
  }

  /** The run's own claim adds one turn of the others before it, and leaves nothing of theirs since. */
  lemma {:induction false} TurnOthers<V>(db: Db<V>, steps: seq<Step<V>>, step: Step<V>, r: nat, left: Db<V>, i: nat)
    requires IsOwnTurn(After(db, steps), step, r)
    ensures OthersOf(db, steps + [step], r)(i, left)
         == if i == After(db, steps).runs[r].next then Since(db, steps, r, left) else OthersOf(db, steps, r)(i, left)
    ensures Since(db, steps + [step], r, left) == left
    ensures StartedFrom(db, steps + [step], r) == StartedFrom(db, steps, r)
    ensures After(db, steps + [step]) == Apply(After(db, steps), step)
  {
    var all := steps + [step];
    assert all[..|all| - 1] == steps && all[|all| - 1] == step;
  }

  lemma {:induction false} TurnDeliver<V>(db: Db<V>, steps: seq<Step<V>>, step: Step<V>, r: nat, sent: string -> nat)
    requires IsOwnTurn(After(db, steps), step, r)
    ensures var run, others := After(db, steps).runs[r], OthersOf(db, steps + [step], r);
            Deliver(StartedFrom(db, steps, r), run.now, run.snapshot[..run.next], others, sent)
            == AsDeliver(db, steps, r, sent)
  {
    var run := After(db, steps).runs[r];
    forall i: nat, left: Db<V> | i < run.next
      ensures OthersOf(db, steps, r)(i, left) == OthersOf(db, steps + [step], r)(i, left)
    {
      TurnOthers(db, steps, step, r, left, i);
    }
    SameOthers(StartedFrom(db, steps, r), run.now, run.snapshot[..run.next], sent,
               OthersOf(db, steps, r), OthersOf(db, steps + [step], r));
  }

  lemma {:induction false} TurnLoop<V>(db: Db<V>, steps: seq<Step<V>>, step: Step<V>, r: nat, sent: string -> nat)
    requires IsOwnTurn(After(db, steps), step, r)
    ensures var t := After(db, steps + [step]); r in t.runs && t.runs[r].next <= |t.runs[r].snapshot|
    ensures var run := After(db, steps).runs[r];
            AsDeliver(db, steps + [step], r, sent)
            == Deliver(StartedFrom(db, steps, r), run.now, run.snapshot[..run.next + 1],
                       OthersOf(db, steps + [step], r), sent)
  {
    OwnTurn(After(db, steps), r, step.completes);
    TurnOthers(db, steps, step, r, db, 0);
  }

  /** `q` is `p` after one more turn, taken when the database is `seen`. */
  ghost predicate IsNext<V>(p: Progress<V>, q: Progress<V>, seen: Db<V>, id: string, now: int) {
    q.db == Claim(seen, id, now) && q.claimed == if CanClaim(seen, id) then p.claimed + [id] else p.claimed
  }

  lemma {:induction false} TurnIsNext<V>(db: Db<V>, now: int, snapshot: seq<string>, n: nat, sent: string -> nat,
                                         others: (nat, Db<V>) -> Db<V>, p: Progress<V>, q: Progress<V>)
    requires n < |snapshot| && p == Deliver(db, now, snapshot[..n], others, sent)
    requires q == Deliver(db, now, snapshot[..n + 1], others, sent)
    ensures IsNext(p, q, others(n, p.db), snapshot[n], now)
  {
    DeliverOneMore(db, now, snapshot, n, others, sent);
  }

  lemma {:induction false} NextProgress<V>(db: Db<V>, steps: seq<Step<V>>, step: Step<V>, r: nat, sent: string -> nat)
    requires IsOwnTurn(After(db, steps), step, r)
    ensures var t := After(db, steps + [step]); r in t.runs && t.runs[r].next <= |t.runs[r].snapshot|
    ensures var run, p := After(db, steps).runs[r], AsDeliver(db, steps, r, sent);
            IsNext(p, AsDeliver(db, steps + [step], r, sent), Since(db, steps, r, p.db),
                   run.snapshot[run.next], run.now)
  {
    var run, p := After(db, steps).runs[r], AsDeliver(db, steps, r, sent);
    var start, others := StartedFrom(db, steps, r), OthersOf(db, steps + [step], r);
    TurnDeliver(db, steps, step, r, sent);
    TurnLoop(db, steps, step, r, sent);
    TurnOthers(db, steps, step, r, p.db, run.next);
    TurnIsNext(start, run.now, run.snapshot, run.next, sent, others, p, AsDeliver(db, steps + [step], r, sent));
  }

  lemma {:induction false} OwnClaim<V>(db: Db<V>, steps: seq<Step<V>>, step: Step<V>, r: nat, sent: string -> nat)
    requires RunsAsDeliver(db, steps, r, sent) && IsOwnTurn(After(db, steps), step, r)
    ensures RunsAsDeliver(db, steps + [step], r, sent)
  {
    NextProgress(db, steps, step, r, sent);
    OwnTurn(After(db, steps), r, step.completes);
    TurnOthers(db, steps, step, r, AsDeliver(db, steps + [step], r, sent).db, 0);
  }

  lemma {:induction false} OwnStart<V>(db: Db<V>, steps: seq<Step<V>>, step: Step<V>, r: nat, sent: string -> nat)
    requires WellRun(After(db, steps), r) && r !in After(db, steps).runs
    requires step.Start? && step.run == r
    ensures RunsAsDeliver(db, steps + [step], r, sent)
  {
    var all := steps + [step];
    assert all[..|all| - 1] == steps && all[|all| - 1] == step;
    assert After(db, all) == Apply(After(db, steps), step);
  }

  lemma {:induction false} OtherKeepsRun<V>(s: State<V>, step: Step<V>, r: nat)
    requires !(step.ClaimNext? && step.run == r) && (step.Start? ==> step.run !in s.runs)
    ensures var t := Apply(s, step);
            && ClaimsBy(t.claims, r) == ClaimsBy(s.claims, r)
            && (r in s.runs ==> r in t.runs && t.runs[r] == s.runs[r])
            && (r !in s.runs && r in t.runs ==> t.runs[r].next == 0)
  {
    if step.ClaimNext? && step.run in s.runs && s.runs[step.run].next < |s.runs[step.run].snapshot| {
      ClaimsByStep(s.claims, (step.run, s.runs[step.run].snapshot[s.runs[step.run].next]), r);
    }
  }

  lemma {:induction false} OtherStep<V>(db: Db<V>, steps: seq<Step<V>>, step: Step<V>, r: nat, sent: string -> nat)
    requires RunsAsDeliver(db, steps, r, sent) && WellRun(After(db, steps), r)
    requires !IsTurn(step, r) && (step.Start? ==> step.run !in After(db, steps).runs)
    ensures RunsAsDeliver(db, steps + [step], r, sent)
  {
    var s, all := After(db, steps), steps + [step];
    assert all[..|all| - 1] == steps && all[|all| - 1] == step;
    assert After(db, all) == Apply(s, step) && StartedFrom(db, all, r) == StartedFrom(db, steps, r);
    OtherKeepsRun(s, step, r);
    EffectIsApply(s, step);
    if r in s.runs {
      SameOthers(StartedFrom(db, steps, r), s.runs[r].now, s.runs[r].snapshot[..s.runs[r].next], sent,
                 OthersOf(db, steps, r), OthersOf(db, all, r));
    }
  }

  /**
   In every interleaving, each run claims what its loop claims when started from
   the database it read its snapshot in, the others doing in between to whatever
   it left what they do in that interleaving; and the database is then theirs
   and its work together.
   */
  lemma {:induction false} RunIsDeliver<V>(db: Db<V>, due: (V, int) -> bool, steps: seq<Step<V>>, r: nat,
                                           sent: string -> nat)
    requires Possible(db, due, steps)
    ensures WellRun(After(db, steps), r) && RunsAsDeliver(db, steps, r, sent)
  {
    if steps != [] {
      var before, step := steps[..|steps| - 1], steps[|steps| - 1];
      RunIsDeliver(db, due, before, r, sent);
      StepWellRun(After(db, before), step, r);
      assert before + [step] == steps;
      if step.ClaimNext? && step.run == r {
        OwnClaim(db, before, step, r, sent);
      } else if step.Start? && step.run == r {
        OwnStart(db, before, step, r, sent);
      } else {
        OtherStep(db, before, step, r, sent);
      }
    }
  }
}
