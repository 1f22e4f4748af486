/**
 The access-changed notices, `deliverRoleAccessNotices`
 (apps/portal/lib/access-notices.ts): each run reads the role-permission changes
 logged since the previous run, and tells each role the last state of every
 permission that changed.
 */
module AccessNotices {
  import opened Wrappers

  const WEEK_MS := 7 * 86_400_000
  const FIRST_RUN_MS := 15 * 60_000
  const TAKE := 2000

  /** One logged grant or revocation; any of the texts may be missing. */
  datatype Change = Change(at: int, roleId: Option<string>, role: Option<string>, permission: Option<string>,
                           granted: bool)

  /** What the job log says of the previous run: its own `upTo`, if it wrote a readable one, and when it was logged. */
  datatype UpTo = At(t: int) | Unreadable | Missing

  datatype JobRun = JobRun(upTo: UpTo, createdAt: int)

  // ----- the window of a run

  /** Changes after this moment are read: where the previous run stopped, but no more than a week back. */
  function WindowStart(last: Option<JobRun>, clock: int): int {
    var weekAgo := clock - WEEK_MS;
    var from :=
      match last
      case None => Some(clock - FIRST_RUN_MS)
      case Some(JobRun(At(t), _)) => Some(t)
      case Some(JobRun(Unreadable, _)) => None
      case Some(JobRun(Missing, createdAt)) => Some(createdAt);
    if from == None || from.value < weekAgo then weekAgo else from.value
  }

  /** `createdAt > from && createdAt <= upTo`, oldest first. */
  function Within(log: seq<Change>, from: int, upTo: int): seq<Change> {
    if log == [] then []
    else
      var c := log[|log| - 1];
      if from < c.at <= upTo then Within(log[..|log| - 1], from, upTo) + [c] else Within(log[..|log| - 1], from, upTo)
  }

  function Read(log: seq<Change>, from: int, upTo: int): seq<Change> {
    var changes := Within(log, from, upTo);
    if |changes| <= TAKE then changes else changes[..TAKE]
  }

  /** Where a run starts, in milliseconds: a quarter of an hour back at first; a week back at most. */
  lemma {:induction false} StartInNumbers(last: Option<JobRun>, clock: int)
    ensures last == None ==> WindowStart(last, clock) == clock - 900_000
    ensures last.Some? && last.value.upTo == Unreadable ==> WindowStart(last, clock) == clock - 604_800_000
    ensures last.Some? && last.value.upTo != Unreadable ==>
              var from := if last.value.upTo.At? then last.value.upTo.t else last.value.createdAt;
              WindowStart(last, clock) == if from < clock - 604_800_000 then clock - 604_800_000 else from
  {
  }

  /** The window holds the changes after its start and up to its end, as often as logged, and no others. */
  lemma {:induction false} WithinExactly(log: seq<Change>, from: int, upTo: int, c: Change)
    ensures multiset(Within(log, from, upTo))[c] == if from < c.at <= upTo then multiset(log)[c] else 0
  {
    if log != [] {
      WithinExactly(log[..|log| - 1], from, upTo, c);
      assert log == log[..|log| - 1] + [log[|log| - 1]];
    }
  }

  lemma {:induction false} WithinAll(log: seq<Change>, from: int, upTo: int)
    ensures forall i :: 0 <= i < |Within(log, from, upTo)| ==> Within(log, from, upTo)[i] in log
  {
    if log != [] {
      WithinAll(log[..|log| - 1], from, upTo);
    }
  }

  /** Of an ordered log the window is in order, and what is read of it are its oldest 2,000. */
  lemma {:induction false} ReadsOldest(log: seq<Change>, from: int, upTo: int)
    requires Sorted(log)
    ensures Sorted(Within(log, from, upTo))
    ensures Read(log, from, upTo) <= Within(log, from, upTo)
    ensures |Read(log, from, upTo)| == if |Within(log, from, upTo)| <= 2000 then |Within(log, from, upTo)| else 2000
  {
    if log != [] {
      var before, c := log[..|log| - 1], log[|log| - 1];
      assert Sorted(before);
      ReadsOldest(before, from, upTo);
      WithinAll(before, from, upTo);
      forall i | 0 <= i < |Within(before, from, upTo)| ensures Within(before, from, upTo)[i].at <= c.at {
        assert Within(before, from, upTo)[i] in before;
      }
    }
  }

  /** Oldest first. */
  predicate Sorted(log: seq<Change>) {
    forall i, j :: 0 <= i < j < |log| ==> log[i].at <= log[j].at
  }

  // ----- one notice per role

  datatype Notice = Notice(role: string, final: map<string, bool>)

  predicate Counts(c: Change) {
    c.roleId.Some? && c.roleId.value != "" && c.permission.Some? && c.permission.value != ""
  }

  /** The source's loop: later changes overwrite earlier ones. */
  function Notices(changes: seq<Change>): map<string, Notice> {
    if changes == [] then map[]
    else
      var c, before := changes[|changes| - 1], Notices(changes[..|changes| - 1]);
      if !Counts(c) then before
      else
        var name := if c.role.Some? then c.role.value else "your role";
        var entry := if c.roleId.value in before then before[c.roleId.value] else Notice(name, map[]);
        before[c.roleId.value := entry.(final := entry.final[c.permission.value := c.granted])]
  }

  function Added(n: Notice): set<string> {
    set p | p in n.final && n.final[p]
  }

  function Removed(n: Notice): set<string> {
    set p | p in n.final && !n.final[p]
  }

  method DeliverRoleAccessNotices(log: seq<Change>, last: Option<JobRun>, upTo: int, clock: int)
    returns (byRole: map<string, Notice>, added: map<string, set<string>>, removed: map<string, set<string>>)
    ensures byRole == Notices(Read(log, WindowStart(last, clock), upTo))
    ensures added.Keys == byRole.Keys == removed.Keys
    ensures forall r :: r in byRole ==> added[r] == Added(byRole[r]) && removed[r] == Removed(byRole[r])
  {
    var from := WindowStart(last, clock);
    var changes := Read(log, from, upTo);
    byRole := map[];
    for i := 0 to |changes|
      invariant byRole == Notices(changes[..i])
    {
      var c := changes[i];
      assert changes[..i + 1][..i] == changes[..i];
      if c.roleId == None || c.roleId.value == "" {
        continue;
      }
      if c.permission == None || c.permission.value == "" {
        continue;
      }
      var entry;
      if c.roleId.value in byRole {
        entry := byRole[c.roleId.value];
      } else {
        entry := Notice(if c.role.Some? then c.role.value else "your role", map[]);
      }
      entry := entry.(final := entry.final[c.permission.value := c.granted]);
      byRole := byRole[c.roleId.value := entry];
    }
    assert changes[..|changes|] == changes;
    added := map r | r in byRole :: Added(byRole[r]);
    removed := map r | r in byRole :: Removed(byRole[r]);
  }

  // ----- a notice says each permission's last change

  predicate Concerns(c: Change, roleId: string, permission: string) {
    c.roleId == Some(roleId) && roleId != "" && c.permission == Some(permission) && permission != ""
  }

  /** The last change to a role's permission, read off the log. */
  ghost predicate LastChange(changes: seq<Change>, i: int, roleId: string, permission: string) {
    && 0 <= i < |changes| && Concerns(changes[i], roleId, permission)
    && forall j :: i < j < |changes| ==> !Concerns(changes[j], roleId, permission)
  }

  function Final(notices: map<string, Notice>, roleId: string, permission: string): Option<bool> {
    if roleId in notices && permission in notices[roleId].final then Some(notices[roleId].final[permission]) else None
  }

  lemma {:induction false} FinalIsLastChange(changes: seq<Change>, roleId: string, permission: string)
    ensures match Final(Notices(changes), roleId, permission)
            case Some(granted) =>
              exists i :: LastChange(changes, i, roleId, permission) && changes[i].granted == granted
            case None => forall i :: 0 <= i < |changes| ==> !Concerns(changes[i], roleId, permission)
  {
    if changes != [] {
      var before, n := changes[..|changes| - 1], |changes| - 1;
      FinalIsLastChange(before, roleId, permission);
      if Concerns(changes[n], roleId, permission) {
        assert LastChange(changes, n, roleId, permission);
      } else {
        assert Final(Notices(changes), roleId, permission) == Final(Notices(before), roleId, permission);
        if Final(Notices(before), roleId, permission).Some? {
          var i :| LastChange(before, i, roleId, permission)
              && before[i].granted == Final(Notices(before), roleId, permission).value;
          assert LastChange(changes, i, roleId, permission);
        }
      }
    }
  }

  /**
   Listed as added exactly when the last change was a grant, as removed exactly when it was a revocation; never
   both.
   */
  lemma {:induction false} NoticeListsLastChanges(changes: seq<Change>, roleId: string, permission: string)
    ensures var notices := Notices(changes);
            && (roleId in notices && permission in Added(notices[roleId]) <==>
                 exists i :: LastChange(changes, i, roleId, permission) && changes[i].granted)
            && (roleId in notices && permission in Removed(notices[roleId]) <==>
                 exists i :: LastChange(changes, i, roleId, permission) && !changes[i].granted)
            && (roleId in notices ==> Added(notices[roleId]) !! Removed(notices[roleId]))
  {
    FinalIsLastChange(changes, roleId, permission);
    forall i, j | LastChange(changes, i, roleId, permission) && LastChange(changes, j, roleId, permission)
      ensures i == j
    {
    }
  }

  predicate ChangesRole(c: Change, roleId: string) {
    c.roleId == Some(roleId) && roleId != "" && c.permission.Some? && c.permission.value != ""
  }

  /** A role gets a notice exactly when one of its permissions changed, and the notice is never empty. */
  lemma {:induction false} NoticedRoles(changes: seq<Change>, roleId: string)
    ensures roleId in Notices(changes) <==> exists i :: 0 <= i < |changes| && ChangesRole(changes[i], roleId)
    ensures roleId in Notices(changes) ==> Notices(changes)[roleId].final != map[]
  {
    if changes != [] {
      var before, n := changes[..|changes| - 1], |changes| - 1;
      NoticedRoles(before, roleId);
      assert forall i :: 0 <= i < n ==> before[i] == changes[i];
      NoticedOneMore(before, changes[n], roleId);
      assert before + [changes[n]] == changes;
    }
  }

  /** The first change to one of a role's permissions. */
  ghost predicate FirstChange(changes: seq<Change>, i: int, roleId: string) {
    && 0 <= i < |changes| && ChangesRole(changes[i], roleId)
    && forall j :: 0 <= j < i ==> !ChangesRole(changes[j], roleId)
  }

  /** A notice calls the role by the name logged with its first change, if there was one. */
  lemma {:induction false} NoticeName(changes: seq<Change>, roleId: string)
    ensures roleId in Notices(changes) ==>
              exists i :: FirstChange(changes, i, roleId) && Notices(changes)[roleId].role ==
                            match changes[i].role case Some(name) => name case None => "your role"
  {
    if changes != [] {
      var before, c := changes[..|changes| - 1], changes[|changes| - 1];
      NoticeName(before, roleId);
      NoticedRoles(before, roleId);
      NameKept(before, c, roleId);
      assert changes == before + [c];
      if roleId in Notices(before) {
        var i :| FirstChange(before, i, roleId) && Notices(before)[roleId].role ==
                   match before[i].role case Some(name) => name case None => "your role";
        assert FirstChange(changes, i, roleId);
      } else if ChangesRole(c, roleId) {
        assert forall j :: 0 <= j < |before| ==> !ChangesRole(before[j], roleId);
        assert FirstChange(changes, |before|, roleId);
      }
    }
  }

  lemma {:induction false} NameKept(before: seq<Change>, c: Change, roleId: string)
    ensures var notices := Notices(before + [c]);
            && (roleId in Notices(before) ==> roleId in notices && notices[roleId].role == Notices(before)[roleId].role)
            && (roleId !in Notices(before) && roleId in notices ==>
                 ChangesRole(c, roleId) &&
                 notices[roleId].role == match c.role case Some(name) => name case None => "your role")
  {
    assert (before + [c])[..|before + [c]| - 1] == before;
  }

  lemma {:induction false} NoticedOneMore(before: seq<Change>, c: Change, roleId: string)
    ensures var notices := Notices(before + [c]);
            && (roleId in notices <==> roleId in Notices(before) || ChangesRole(c, roleId))
            && (ChangesRole(c, roleId) ==> c.permission.value in notices[roleId].final)
            && (roleId in Notices(before) && !ChangesRole(c, roleId) ==> notices[roleId] == Notices(before)[roleId])
  {
    assert (before + [c])[..|before + [c]| - 1] == before;
  }

  // ----- successive runs tile time

  /** A successful run: the moment it reads up to, and the clock a little later. */
  datatype Run = Run(upTo: int, clock: int)

  /** Runs do not overlap, and none takes a week. */
  predicate Sequential(runs: seq<Run>) {
    && (forall i :: 0 <= i < |runs| ==> runs[i].upTo <= runs[i].clock <= runs[i].upTo + WEEK_MS)
    && (forall i, j :: 0 <= i < j < |runs| ==> runs[i].clock <= runs[j].upTo)
  }

  /** What the i-th run finds in the job log: every run stores its `upTo` for the next. */
  function LastOf(runs: seq<Run>, first: Option<JobRun>, i: nat): Option<JobRun>
    requires i < |runs|
  {
    if i == 0 then first else Some(JobRun(At(runs[i - 1].upTo), runs[i - 1].clock))
  }

  function From(runs: seq<Run>, first: Option<JobRun>, i: nat): int
    requires i < |runs|
  {
    WindowStart(LastOf(runs, first, i), runs[i].clock)
  }

  predicate InWindow(runs: seq<Run>, first: Option<JobRun>, i: int, t: int) {
    0 <= i < |runs| && From(runs, first, i) < t <= runs[i].upTo
  }

  /** A run starts reading no earlier than any previous run stopped. */
  lemma {:induction false} WindowsInOrder(runs: seq<Run>, first: Option<JobRun>)
    requires Sequential(runs)
    ensures forall i, j {:trigger runs[i], From(runs, first, j)} :: 0 <= i < j < |runs| ==>
            runs[i].upTo <= From(runs, first, j)
  {
    forall i, j | 0 <= i < j < |runs| ensures runs[i].upTo <= From(runs, first, j) {
      assert runs[j - 1].upTo <= From(runs, first, j);
      assert i < j - 1 ==> runs[i].clock <= runs[j - 1].upTo;
    }
  }

  /** No moment is read twice. */
  lemma {:induction false} WindowsDisjoint(runs: seq<Run>, first: Option<JobRun>, i: int, j: int, t: int)
    requires Sequential(runs)
    requires InWindow(runs, first, i, t) && InWindow(runs, first, j, t)
    ensures i == j
  {
    WindowsInOrder(runs, first);
  }

  /** The moments no run reads: those a run finds more than a week old, though later than the previous run's. */
  predicate TooLate(runs: seq<Run>, i: int, t: int) {
    1 <= i < |runs| && runs[i - 1].upTo < t <= runs[i].clock - WEEK_MS
  }

  /**
   From the first window's start to the last run, a moment is read by some run exactly when it never came too late.
   */
  lemma {:induction false} ReadUnlessTooLate(runs: seq<Run>, first: Option<JobRun>, t: int)
    requires Sequential(runs) && runs != []
    requires From(runs, first, 0) < t <= runs[|runs| - 1].upTo
    ensures (exists i :: InWindow(runs, first, i, t)) <==> !exists i :: TooLate(runs, i, t)
  {
    var i := FirstReaching(runs, t, 0);
    WindowsInOrder(runs, first);
    assert InWindow(runs, first, i, t) <==> !TooLate(runs, i, t);
    forall j | InWindow(runs, first, j, t) ensures j == i {
    }
    forall j | TooLate(runs, j, t) ensures j == i {
    }
  }

  /** The first run reading up to `t` or later. */
  lemma {:induction false} FirstReaching(runs: seq<Run>, t: int, k: nat) returns (i: nat)
    requires k < |runs| && t <= runs[|runs| - 1].upTo
    requires k > 0 ==> runs[k - 1].upTo < t
    ensures k <= i < |runs| && t <= runs[i].upTo && (i > 0 ==> i == k || runs[i - 1].upTo < t)
    decreases |runs| - k
  {
    if t <= runs[k].upTo {
      i := k;
    } else {
      i := FirstReaching(runs, t, k + 1);
    }
  }

  // ----- and so each change is noticed once

  /** Everything the first `n` runs read, in the order they read it. */
  function ReadBy(log: seq<Change>, runs: seq<Run>, first: Option<JobRun>, n: nat): seq<Change>
    requires n <= |runs|
  {
    if n == 0 then [] else ReadBy(log, runs, first, n - 1) + Read(log, From(runs, first, n - 1), runs[n - 1].upTo)
  }

  lemma {:induction false} NothingWithin(log: seq<Change>, from: int, upTo: int)
    requires forall i :: 0 <= i < |log| ==> log[i].at <= from
    ensures Within(log, from, upTo) == []
  {
    if log != [] {
      NothingWithin(log[..|log| - 1], from, upTo);
    }
  }

  lemma {:induction false} WithinJoins(log: seq<Change>, from: int, mid: int, upTo: int)
    requires Sorted(log) && from <= mid <= upTo
    ensures Within(log, from, upTo) == Within(log, from, mid) + Within(log, mid, upTo)
  {
    if log != [] {
      var before, c := log[..|log| - 1], log[|log| - 1];
      assert Sorted(before);
      WithinJoins(before, from, mid, upTo);
      if c.at <= mid {
        assert forall i :: 0 <= i < |before| ==> before[i] == log[i] && log[i].at <= log[|log| - 1].at;
        NothingWithin(before, mid, upTo);
      }
    }
  }

  /** The changes the i-th run finds over a week old, though later than the previous run's. */
  function FoundTooLate(log: seq<Change>, runs: seq<Run>, first: Option<JobRun>, i: nat): seq<Change>
    requires 1 <= i < |runs|
  {
    Within(log, runs[i - 1].upTo, From(runs, first, i))
  }

  /**
   What the runs up to the n-th should read is what the earlier ones should, what this one finds too late, and its
   window.
   */
  lemma {:induction false} OneMoreWindow(log: seq<Change>, runs: seq<Run>, first: Option<JobRun>, n: nat)
    requires Sorted(log) && Sequential(runs) && 1 <= n < |runs|
    requires From(runs, first, 0) <= runs[n - 1].upTo
    ensures runs[n - 1].upTo <= runs[n].upTo
    ensures Within(log, From(runs, first, 0), runs[n].upTo)
         == Within(log, From(runs, first, 0), runs[n - 1].upTo)
            + (FoundTooLate(log, runs, first, n) + Within(log, From(runs, first, n), runs[n].upTo))
  {
    assert runs[n - 1].clock <= runs[n].upTo;
    WithinJoins(log, From(runs, first, 0), runs[n - 1].upTo, runs[n].upTo);
    WithinJoins(log, runs[n - 1].upTo, From(runs, first, n), runs[n].upTo);
  }

  lemma {:induction false} ReadPrefix(log: seq<Change>, from: int, upTo: int)
    ensures |Read(log, from, upTo)| <= |Within(log, from, upTo)|
    ensures |Within(log, from, upTo)| <= TAKE ==> Read(log, from, upTo) == Within(log, from, upTo)
    ensures |Within(log, from, upTo)| > TAKE ==> |Read(log, from, upTo)| < |Within(log, from, upTo)|
  {
  }

  lemma {:induction false} OneMoreRead<T>(a: seq<T>, all: seq<T>, lost: seq<T>, read: seq<T>, window: seq<T>)
    requires a == all || |a| < |all|
    requires read == window || |read| < |window|
    ensures a + read == all + (lost + window) <==> a == all && lost == [] && read == window
    ensures a + read == all + (lost + window) || |a + read| < |all + (lost + window)|
  {
    if a == all && lost == [] && read == window {
      assert lost + window == window;
    }
  }

  /** The i-th run finds no more changes than it takes, and none over a week old. */
  predicate FindsAll(log: seq<Change>, runs: seq<Run>, first: Option<JobRun>, i: nat)
    requires i < |runs|
  {
    && |Within(log, From(runs, first, i), runs[i].upTo)| <= TAKE
    && (i >= 1 ==> FoundTooLate(log, runs, first, i) == [])
  }

  ghost predicate Complete(log: seq<Change>, runs: seq<Run>, first: Option<JobRun>, n: nat)
    requires n <= |runs|
  {
    forall i :: 0 <= i < n ==> FindsAll(log, runs, first, i)
  }

  /**
   Successive runs read every change from the first window on exactly once,
   none lost, repeated or out of order, if and only if no run finds more
   changes than it takes and none finds a change over a week old; otherwise
   some are never read.
   */
  lemma {:induction false} EachChangeReadOnce(log: seq<Change>, runs: seq<Run>, first: Option<JobRun>, n: nat)
    requires Sorted(log) && Sequential(runs)
    requires 0 < n <= |runs| && From(runs, first, 0) <= runs[0].upTo
    ensures var all := Within(log, From(runs, first, 0), runs[n - 1].upTo);
            && From(runs, first, 0) <= runs[n - 1].upTo
            && (ReadBy(log, runs, first, n) == all <==> Complete(log, runs, first, n))
            && (!Complete(log, runs, first, n) ==> |ReadBy(log, runs, first, n)| < |all|)
  {
    var from, upTo := From(runs, first, n - 1), runs[n - 1].upTo;
    ReadPrefix(log, from, upTo);
    assert Complete(log, runs, first, n) <==> Complete(log, runs, first, n - 1) && FindsAll(log, runs, first, n - 1);
    if n > 1 {
      EachChangeReadOnce(log, runs, first, n - 1);
      OneMoreWindow(log, runs, first, n - 1);
      OneMoreRead(ReadBy(log, runs, first, n - 1), Within(log, From(runs, first, 0), runs[n - 2].upTo),
                  FoundTooLate(log, runs, first, n - 1), Read(log, from, upTo), Within(log, from, upTo));
    } else {
      assert ReadBy(log, runs, first, 0) + Read(log, from, upTo) == Read(log, from, upTo);
    }
  }

  // ----- a run that fails part of the way

  /**
   A run that fails stores nothing, so the next one starts from the same record
   `last`: of the moments the failed run read, it reads again those less than a
   week old, or without any record those of the last fifteen minutes.
   */
  lemma {:induction false} FailedRunReadAgain(last: Option<JobRun>, failed: Run, next: Run, t: int)
    requires Sequential([failed, next]) && WindowStart(last, failed.clock) < t <= failed.upTo
    ensures WindowStart(last, next.clock) < t <= next.upTo
       <==> next.clock - (if last == None then FIRST_RUN_MS else WEEK_MS) < t
  {
    assert [failed, next][0].clock <= [failed, next][1].upTo;
  }
}
