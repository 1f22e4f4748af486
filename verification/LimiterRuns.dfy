/**
 Whole runs of the submission limiter (apps/portal/middleware.ts): what a key
 gets through when full clears do fire, and when the limits per person, per
 shared address and per anonymous address hold over 60 seconds.
 */
module LimiterRuns {
  import opened Wrappers
  import opened JsStrings
  import opened RateLimiter

  // ----- with full clears

  /** The full clear fires on this request. */
  predicate Fires(run: seq<Event>, e: Event) {
    e.r.verb == "POST" && Clears(Posts(run), e.now)
  }

  /** How often it fires during `later`. */
  function Clearings(before: seq<Event>, later: seq<Event>): nat {
    if later == [] then 0
    else
      var init, e := later[..|later| - 1], later[|later| - 1];
      Clearings(before, init) + if Fires(before + init, e) then 1 else 0
  }

  /** The requests of `later`, by place, on which it fires. */
  ghost function FiringPlaces(before: seq<Event>, later: seq<Event>): set<nat> {
    set i: nat | i < |later| && Fires(before + later[..i], later[i])
  }

  lemma {:induction false} OneMorePlace(before: seq<Event>, init: seq<Event>, e: Event)
    ensures FiringPlaces(before, init + [e])
         == FiringPlaces(before, init) + if Fires(before + init, e) then {|init|} else {}
  {
    var later := init + [e];
    assert later[..|init|] == init;
    forall i: nat | i < |init| ensures later[..i] == init[..i] {
    }
  }

  lemma {:induction false} ClearingsAnd(before: seq<Event>, init: seq<Event>, e: Event)
    ensures Clearings(before, init + [e]) == Clearings(before, init) + if Fires(before + init, e) then 1 else 0
  {
    assert (init + [e])[..|init|] == init;
  }

  lemma {:induction false} CountedAnd(before: seq<Event>, init: seq<Event>, e: Event)
    requires Clearings(before, init) == |FiringPlaces(before, init)|
    ensures Clearings(before, init + [e]) == |FiringPlaces(before, init + [e])|
  {
    ClearingsAnd(before, init, e);
    OneMorePlace(before, init, e);
    assert |init| !in FiringPlaces(before, init);
  }

  /** One for each request that finds more than 20,000 keys posted under in the 60 seconds before it. */
  lemma {:induction false} ClearingsCounted(before: seq<Event>, later: seq<Event>)
    ensures Clearings(before, later) == |FiringPlaces(before, later)|
  {
    if later != [] {
      var init, e := later[..|later| - 1], later[|later| - 1];
      ClearingsCounted(before, init);
      CountedAnd(before, init, e);
      assert later == init + [e];
    }
  }

  lemma {:induction false} FiresInNumbers(run: seq<Event>, e: Event)
    ensures Fires(run, e) <==>
              && e.r.verb == "POST" && |Posts(run)| > 5000
              && |map k | k in Posts(run) && e.now - Posts(run)[k].start <= 60_000 :: Posts(run)[k]| > 20000
  {
    if |Posts(run)| > 5000 {
      assert Swept(Posts(run), e.now)
          == map k | k in Posts(run) && e.now - Posts(run)[k].start <= 60_000 :: Posts(run)[k];
    }
  }

  /** The most a window and what follows it can let through until 60 seconds after `from`, if nothing is cleared. */
  function Most(w: Option<Window>, max: nat, from: int): nat {
    if w.Some? && w.value.start >= from then (if w.value.n < max then max - w.value.n else 0)
    else Room(w, max, from) + max
  }

  lemma {:induction false} PreparedGet(posts: Windows, key: string, now: int)
    ensures Clears(posts, now) ==> Get(Prepared(posts, now), key) == None
    ensures !Clears(posts, now) ==>
              var w, p := Get(posts, key), Get(Prepared(posts, now), key);
              p == w || (p == None && w.Some? && Expired(w.value, now))
  {
  }

  lemma {:induction false} MostKept(w: Option<Window>, max: nat, from: int, now: int)
    requires from <= now <= from + WINDOW_MS && w.Some? && Expired(w.value, now)
    ensures Most(None, max, from) <= Most(w, max, from)
  {
  }

  lemma {:induction false} MostSpent(w: Option<Window>, max: nat, from: int, now: int)
    requires from <= now <= from + WINDOW_MS && max >= 1
    ensures Most(Some(Next(w, now)), max, from) + (if Refuses(w, max, now) then 0 else 1) <= Most(w, max, from)
  {
  }

  /**
   One post: what gets through is taken from what its window had left, or from one more limit when the clear fires.
   */
  lemma {:induction false} PostSpends(posts: Windows, r: Request, now: int, key: string, max: nat, from: int)
    requires r.verb == "POST" && from <= now <= from + WINDOW_MS && max >= 1 && max == Limit(key)
    ensures Most(Get(After(posts, r, now), key), max, from)
            + (if Counts(r, key) && !TooMany(posts, r, now) then 1 else 0)
         <= if Clears(posts, now) then max else Most(Get(posts, key), max, from)
  {
    var w, p := Get(posts, key), Get(Prepared(posts, now), key);
    PreparedGet(posts, key, now);
    AfterGet(posts, r, now, key);
    if !Clears(posts, now) && p != w {
      MostKept(w, max, from, now);
    }
    if Counts(r, key) {
      MostSpent(p, max, from, now);
      assert Refuses(p, max, now) ==> RefusedUnder(posts, r, now, key);
    }
  }

  lemma {:induction false} NothingBefore(run: seq<Event>, key: string, from: int)
    requires forall i :: 0 <= i < |run| ==> run[i].now < from
    ensures LetThrough(run, key, from) == 0
  {
    if run != [] {
      NothingBefore(run[..|run| - 1], key, from);
    }
  }

  lemma {:induction false} OneMoreLimit(clears: nat, max: nat)
    ensures (clears + 1) * max == clears * max + max
  {
  }

  lemma {:induction false} ClearsSpend(before: seq<Event>, later: seq<Event>, key: string, from: int)
    requires forall i :: 0 <= i < |before| ==> before[i].now < from
    requires forall i :: 0 <= i < |later| ==> from <= later[i].now <= from + WINDOW_MS
    ensures LetThrough(before + later, key, from) + Most(Get(Posts(before + later), key), Limit(key), from)
         <= Most(Get(Posts(before), key), Limit(key), from) + Clearings(before, later) * Limit(key)
  {
    var max := Limit(key);
    if later == [] {
      assert before + later == before;
      NothingBefore(before, key, from);
    } else {
      var init, e := later[..|later| - 1], later[|later| - 1];
      var run := before + init;
      assert (before + later)[..|before + later| - 1] == run && (before + later)[|before + later| - 1] == e;
      ClearsSpend(before, init, key, from);
      if e.r.verb == "POST" {
        PostSpends(Posts(run), e.r, e.now, key, max, from);
        OneMoreLimit(Clearings(before, init), max);
      }
    }
  }

  /**
   Any run at all: in 60 seconds a key gets through at most the room its window
   in the map has left, its limit, and its limit again for each full clear.
   */
  lemma {:induction false} RunAdmitsWithClears(before: seq<Event>, later: seq<Event>, key: string, from: int)
    requires forall i :: 0 <= i < |before| ==> before[i].now < from
    requires forall i :: 0 <= i < |later| ==> from <= later[i].now <= from + WINDOW_MS
    ensures LetThrough(before + later, key, from)
         <= Room(Get(Posts(before), key), Limit(key), from) + (1 + Clearings(before, later)) * Limit(key)
  {
    ClearsSpend(before, later, key, from);
    OneMoreLimit(Clearings(before, later), Limit(key));
  }

  // ----- traffic that only one key can stop

  /** The request may come next without a full clear, counts under the key, and leaves room under its other keys. */
  ghost predicate Follows(run: seq<Event>, e: Event, key: string) {
    && (run != [] ==> run[|run| - 1].now <= e.now)
    && !Fires(run, e) && Counts(e.r, key)
    && forall other :: other != key && Counts(e.r, other) ==> |Times(run, other)| < Limit(other)
  }

  ghost predicate AllFollow(before: seq<Event>, later: seq<Event>, key: string) {
    later == [] ||
    (var init := later[..|later| - 1];
     AllFollow(before, init, key) && Follows(before + init, later[|later| - 1], key))
  }

  lemma {:induction false} OrderedOneMore(run: seq<Event>, e: Event)
    requires Ordered(run) && (run != [] ==> run[|run| - 1].now <= e.now)
    ensures Ordered(run + [e])
  {
    assert forall i :: 0 <= i < |run| ==> run[i].now <= run[|run| - 1].now;
  }

  lemma {:induction false} RunOneMore(before: seq<Event>, later: seq<Event>)
    requires later != []
    ensures before + later == before + later[..|later| - 1] + [later[|later| - 1]]
  {
  }

  lemma {:induction false} FollowingRun(before: seq<Event>, later: seq<Event>, key: string)
    requires Ordered(before) && NeverCleared(before) && AllFollow(before, later, key)
    ensures Ordered(before + later) && NeverCleared(before + later)
  {
    if later == [] {
      assert before + later == before;
    } else {
      var run, e := before + later[..|later| - 1], later[|later| - 1];
      FollowingRun(before, later[..|later| - 1], key);
      OrderedOneMore(run, e);
      NeverClearedOneMore(run, e);
      RunOneMore(before, later);
    }
  }

  lemma {:induction false} WindowHolds(times: seq<int>)
    ensures times != [] ==> WindowAfter(times).Some? && WindowAfter(times).value.n <= |times|
  {
    if times != [] {
      WindowHolds(times[..|times| - 1]);
    }
  }

  lemma {:induction false} RoomyKey(run: seq<Event>, e: Event, key: string)
    requires |Times(run, key)| < Limit(key)
    ensures !RefusedByHistory(run, e, key)
  {
    WindowHolds(Times(run, key));
  }

  /** Where only one key can be at its limit, that key decides. */
  lemma {:induction false} OneKeyDecides(run: seq<Event>, e: Event, key: string)
    requires Ordered(run) && NeverCleared(run) && Follows(run, e, key)
    ensures TooMany(Posts(run), e.r, e.now) <==> Refuses(WindowAfter(Times(run, key)), Limit(key), e.now)
  {
    OrderedOneMore(run, e);
    NeverClearedOneMore(run, e);
    VerdictIsPerKey(run, e);
    assert RefusedByHistory(run, e, key) <==> Refuses(WindowAfter(Times(run, key)), Limit(key), e.now);
    forall other | other != key ensures !RefusedByHistory(run, e, other) {
      if Counts(e.r, other) {
        RoomyKey(run, e, other);
      }
    }
  }

  function Nows(run: seq<Event>): seq<int> {
    if run == [] then [] else Nows(run[..|run| - 1]) + [run[|run| - 1].now]
  }

  lemma {:induction false} TimesOneMore(run: seq<Event>, e: Event, key: string)
    ensures Times(run + [e], key) == if Counts(e.r, key) then Times(run, key) + [e.now] else Times(run, key)
  {
    assert (run + [e])[..|run + [e]| - 1] == run;
  }

  lemma {:induction false} LetThroughOneMore(run: seq<Event>, e: Event, key: string, from: int)
    ensures LetThrough(run + [e], key, from) == LetThrough(run, key, from)
         + if Counts(e.r, key) && e.now >= from && !TooMany(Posts(run), e.r, e.now) then 1 else 0
  {
    assert (run + [e])[..|run + [e]| - 1] == run;
  }

  /** The run lets through under the key what the key's own history admits. */
  ghost predicate AdmitsExactly(run: seq<Event>, key: string, from: int) {
    LetThrough(run, key, from) == Admitted(Times(run, key), Limit(key), from)
  }

  lemma {:induction false} AdmitsOneMore(run: seq<Event>, e: Event, key: string, from: int)
    requires Ordered(run) && NeverCleared(run) && Follows(run, e, key) && AdmitsExactly(run, key, from)
    ensures AdmitsExactly(run + [e], key, from)
  {
    OneKeyDecides(run, e, key);
    LetThroughOneMore(run, e, key, from);
    TimesOneMore(run, e, key);
    OneMorePost(Times(run, key), e.now, Limit(key), from);
  }

  lemma {:induction false} AdmitsNothing(before: seq<Event>, key: string, from: int)
    requires Ordered(before) && forall i :: 0 <= i < |before| ==> before[i].now < from
    ensures AdmitsExactly(before, key, from)
  {
    NothingBefore(before, key, from);
    TimesInOrder(before, key);
    TimesBefore(before, key, from);
    WindowHasBegun(Times(before, key), Limit(key), from);
  }

  /** Such traffic gets through under the key exactly as its history admits. */
  lemma {:induction false} FollowingAdmitted(before: seq<Event>, later: seq<Event>, key: string, from: int)
    requires Ordered(before) && NeverCleared(before) && AllFollow(before, later, key)
    requires AdmitsExactly(before, key, from)
    ensures AdmitsExactly(before + later, key, from)
  {
    if later == [] {
      assert before + later == before;
    } else {
      var init, e := later[..|later| - 1], later[|later| - 1];
      FollowingAdmitted(before, init, key, from);
      FollowingRun(before, init, key);
      AdmitsOneMore(before + init, e, key, from);
      RunOneMore(before, later);
    }
  }

  lemma {:induction false} CountedTimes(later: seq<Event>, key: string)
    requires forall i :: 0 <= i < |later| ==> Counts(later[i].r, key)
    ensures Times(later, key) == Nows(later)
  {
    if later != [] {
      CountedTimes(later[..|later| - 1], key);
    }
  }

  lemma {:induction false} TimesAfter(before: seq<Event>, later: seq<Event>, key: string)
    requires forall i :: 0 <= i < |later| ==> Counts(later[i].r, key)
    ensures Times(before + later, key) == Times(before, key) + Nows(later)
  {
    CountedTimes(later, key);
    TimesConcat(before, later, key);
  }

  // ----- requests that could come

  /** The requests, sent at these times. */
  function Sent(rs: seq<Request>, times: seq<int>): (run: seq<Event>)
    requires |rs| == |times|
    ensures |run| == |rs|
  {
    if rs == [] then []
    else Sent(rs[..|rs| - 1], times[..|rs| - 1]) + [Event(rs[|rs| - 1], times[|rs| - 1])]
  }

  lemma {:induction false} SentAt(rs: seq<Request>, times: seq<int>, i: nat)
    requires |rs| == |times| && i < |rs|
    ensures Sent(rs, times)[i] == Event(rs[i], times[i])
  {
    if i < |rs| - 1 {
      SentAt(rs[..|rs| - 1], times[..|rs| - 1], i);
    }
  }

  lemma {:induction false} NowsOfSent(rs: seq<Request>, times: seq<int>)
    requires |rs| == |times|
    ensures Nows(Sent(rs, times)) == times
  {
    if rs != [] {
      var n, run := |rs| - 1, Sent(rs, times);
      NowsOfSent(rs[..n], times[..n]);
      assert run[..n] == Sent(rs[..n], times[..n]);
      assert times == times[..n] + [times[n]];
    }
  }

  lemma {:induction false} SentCount(rs: seq<Request>, times: seq<int>, key: string)
    requires |rs| == |times| && forall i :: 0 <= i < |rs| ==> Counts(rs[i], key)
    ensures forall i :: 0 <= i < |rs| ==> Counts(Sent(rs, times)[i].r, key)
  {
    forall i | 0 <= i < |rs| ensures Counts(Sent(rs, times)[i].r, key) {
      SentAt(rs, times, i);
    }
  }

  /** How many of the requests count under a key. */
  function Uses(rs: seq<Request>, key: string): nat {
    if rs == [] then 0 else Uses(rs[..|rs| - 1], key) + if Counts(rs[|rs| - 1], key) then 1 else 0
  }

  ghost predicate HasRoom(run: seq<Event>, rs: seq<Request>, r: Request, key: string) {
    Counts(r, key) && forall other :: Counts(r, other) && other != key ==> OtherRoom(run, rs, other)
  }

  predicate OtherRoom(run: seq<Event>, rs: seq<Request>, other: string) {
    |Times(run, other)| + Uses(rs, other) < Limit(other)
  }

  /** Posts that all count under the key, and reach no other key's limit. */
  ghost predicate Ample(before: seq<Event>, rs: seq<Request>, key: string) {
    rs == [] || (Ample(before, rs[..|rs| - 1], key) && HasRoom(before, rs[..|rs| - 1], rs[|rs| - 1], key))
  }

  lemma {:induction false} AmpleCount(before: seq<Event>, rs: seq<Request>, key: string)
    requires Ample(before, rs, key)
    ensures forall i :: 0 <= i < |rs| ==> Counts(rs[i], key)
  {
    if rs != [] {
      AmpleCount(before, rs[..|rs| - 1], key);
    }
  }

  lemma {:induction false} SentTimes(before: seq<Event>, rs: seq<Request>, times: seq<int>, key: string)
    requires |rs| == |times|
    ensures |Times(before + Sent(rs, times), key)| == |Times(before, key)| + Uses(rs, key)
  {
    if rs == [] {
      assert before + Sent(rs, times) == before;
    } else {
      var n := |rs| - 1;
      var init := Sent(rs[..n], times[..n]);
      SentTimes(before, rs[..n], times[..n], key);
      TimesOneMore(before + init, Event(rs[n], times[n]), key);
      assert before + Sent(rs, times) == before + init + [Event(rs[n], times[n])];
    }
  }

  /** The other keys the requests count under: no more than there are requests. */
  ghost function OtherKeys(rs: seq<Request>, key: string): (keys: set<string>)
    ensures |keys| <= |rs|
  {
    if rs == [] then {}
    else
      var r := rs[|rs| - 1];
      var rest := OtherKeys(rs[..|rs| - 1], key);
      if !SignedIn(r) then rest
      else if key == AddressKey(r) then rest + {PersonKey(r)}
      else rest + {AddressKey(r)}
  }

  lemma {:induction false} RecentLater(run: seq<Event>, from: int, since: int)
    requires from <= since
    ensures RecentKeys(run, since) <= RecentKeys(run, from)
  {
    if run != [] {
      RecentLater(run[..|run| - 1], from, since);
    }
  }

  lemma {:induction false} RecentOneMore(run: seq<Event>, e: Event, key: string, since: int)
    requires Counts(e.r, key)
    ensures RecentKeys(run + [e], since) <= RecentKeys(run, since) + {key} + OtherKeys([e.r], key)
  {
    assert (run + [e])[..|run + [e]| - 1] == run;
    assert [e.r][..0] == [];
  }

  lemma {:induction false} OtherKeysOneMore(rs: seq<Request>, key: string)
    requires rs != []
    ensures OtherKeys(rs[..|rs| - 1], key) + OtherKeys([rs[|rs| - 1]], key) == OtherKeys(rs, key)
  {
    assert [rs[|rs| - 1]][..0] == [];
  }

  lemma {:induction false} RecentOfSent(before: seq<Event>, rs: seq<Request>, times: seq<int>, key: string,
                                        from: int, since: int)
    requires |rs| == |times| && from <= since && Ample(before, rs, key)
    ensures RecentKeys(before + Sent(rs, times), since) <= RecentKeys(before, from) + {key} + OtherKeys(rs, key)
  {
    if rs == [] {
      assert before + Sent(rs, times) == before;
      RecentLater(before, from, since);
    } else {
      var n := |rs| - 1;
      var init, e := Sent(rs[..n], times[..n]), Event(rs[n], times[n]);
      RecentOfSent(before, rs[..n], times[..n], key, from, since);
      RecentOneMore(before + init, e, key, since);
      OtherKeysOneMore(rs, key);
      assert before + Sent(rs, times) == before + init + [e];
    }
  }

  lemma {:induction false} UnionSize(a: set<string>, key: string, b: set<string>)
    ensures |a + {key} + b| <= |a| + 1 + |b|
  {
    assert a + {key} + b == (a + {key}) + (b - (a + {key}));
  }

  lemma {:induction false} FewRecent(before: seq<Event>, rs: seq<Request>, times: seq<int>, key: string, from: int,
                                     now: int)
    requires |rs| == |times| && from <= now && Ample(before, rs, key)
    ensures |RecentKeys(before + Sent(rs, times), now - WINDOW_MS)| <= |RecentKeys(before, from - WINDOW_MS)| + |rs| + 1
  {
    var known, others := RecentKeys(before, from - WINDOW_MS), OtherKeys(rs, key);
    RecentOfSent(before, rs, times, key, from - WINDOW_MS, now - WINDOW_MS);
    SubsetSize(RecentKeys(before + Sent(rs, times), now - WINDOW_MS), known + {key} + others);
    UnionSize(known, key, others);
  }

  lemma {:induction false} NoCrowdNoClear(run: seq<Event>, now: int)
    requires Ordered(run) && (run != [] ==> run[|run| - 1].now <= now)
    requires |RecentKeys(run, now - WINDOW_MS)| <= CLEAR_ABOVE
    ensures !Clears(Posts(run), now)
  {
    if Clears(Posts(run), now) {
      ClearNeedsCrowd(run, now);
    }
  }

  /** Times in order, none before `from`. */
  ghost predicate InOrderFrom(times: seq<int>, from: int) {
    times == [] ||
    (var init, t := times[..|times| - 1], times[|times| - 1];
     InOrderFrom(init, from) && t >= from && (init != [] ==> init[|init| - 1] <= t))
  }

  lemma {:induction false} InOrderIsFrom(times: seq<int>, from: int)
    requires InOrder(times) && forall i :: 0 <= i < |times| ==> from <= times[i]
    ensures InOrderFrom(times, from)
  {
    if times != [] {
      InOrderIsFrom(times[..|times| - 1], from);
    }
  }

  /** The next of the requests follows the earlier ones. */
  lemma {:induction false} NextFollows(before: seq<Event>, rs: seq<Request>, times: seq<int>, r: Request, now: int,
                                       key: string, from: int)
    requires |rs| == |times| && Ordered(before + Sent(rs, times)) && Ample(before, rs, key)
             && HasRoom(before, rs, r, key)
    requires (before != [] ==> before[|before| - 1].now <= now) && (times != [] ==> times[|times| - 1] <= now)
             && from <= now
    requires |RecentKeys(before, from - WINDOW_MS)| + |rs| + 1 <= CLEAR_ABOVE
    ensures Follows(before + Sent(rs, times), Event(r, now), key)
  {
    var run := before + Sent(rs, times);
    if rs != [] {
      SentAt(rs, times, |rs| - 1);
    }
    assert run != [] ==> run[|run| - 1].now <= now;
    FewRecent(before, rs, times, key, from, now);
    NoCrowdNoClear(run, now);
    forall other | other != key && Counts(r, other) ensures |Times(run, other)| < Limit(other) {
      SentTimes(before, rs, times, other);
      assert OtherRoom(before, rs, other);
    }
  }

  /** With room under their other keys, and few keys posted under in the minute before, the requests can come. */
  lemma {:induction false} SentFollow(before: seq<Event>, rs: seq<Request>, times: seq<int>, key: string, from: int)
    requires |rs| == |times| && Ordered(before) && NeverCleared(before) && Ample(before, rs, key)
             && InOrderFrom(times, from)
    requires before != [] ==> before[|before| - 1].now < from
    requires |RecentKeys(before, from - WINDOW_MS)| + |rs| + 1 <= CLEAR_ABOVE
    ensures AllFollow(before, Sent(rs, times), key)
  {
    if rs != [] {
      var n := |rs| - 1;
      var init := Sent(rs[..n], times[..n]);
      SentFollow(before, rs[..n], times[..n], key, from);
      FollowingRun(before, init, key);
      NextFollows(before, rs[..n], times[..n], rs[n], times[n], key, from);
      assert Sent(rs, times)[..n] == init;
    }
  }

  // ----- when a limit holds over 60 seconds of a run

  /** What may follow `before` in the 60 seconds from `from`: any traffic in order, short of a full clear. */
  ghost predicate MinuteOf(before: seq<Event>, later: seq<Event>, from: int) {
    && Ordered(before + later) && NeverCleared(before + later)
    && (forall i :: 0 <= i < |later| ==> from <= later[i].now <= from + 60_000)
  }

  lemma {:induction false} AmplePart(before: seq<Event>, rs: seq<Request>, key: string, n: nat)
    requires Ample(before, rs, key) && n <= |rs|
    ensures Ample(before, rs[..n], key)
    decreases |rs|
  {
    if n < |rs| {
      AmplePart(before, rs[..|rs| - 1], key, n);
      assert rs[..|rs| - 1][..n] == rs[..n];
    } else {
      assert rs[..n] == rs;
    }
  }

  lemma {:induction false} LaterInOrder(before: seq<int>, later: seq<int>)
    requires InOrder(before + later)
    ensures InOrder(later)
  {
    forall i, j | 0 <= i < j < |later| ensures later[i] <= later[j] {
      assert (before + later)[|before| + i] <= (before + later)[|before| + j];
    }
  }

  lemma {:induction false} SentWithin(rs: seq<Request>, times: seq<int>, least: int, most: int)
    requires |rs| == |times| && forall i :: 0 <= i < |times| ==> least <= times[i] <= most
    ensures forall i :: 0 <= i < |rs| ==> least <= Sent(rs, times)[i].now <= most
  {
    forall i | 0 <= i < |rs| ensures least <= Sent(rs, times)[i].now <= most {
      SentAt(rs, times, i);
    }
  }

  /** Requests sent at such times make such a run, and get through as their times admit. */
  lemma {:induction false} SentAdmitted(before: seq<Event>, rs: seq<Request>, times: seq<int>, key: string, from: int)
    requires Ordered(before) && NeverCleared(before) && forall i :: 0 <= i < |before| ==> before[i].now < from
    requires |rs| == |times| && Ample(before, rs, key) && InOrder(times)
    requires forall i :: 0 <= i < |times| ==> from <= times[i] <= from + WINDOW_MS
    requires |RecentKeys(before, from - WINDOW_MS)| + |rs| + 1 <= CLEAR_ABOVE
    ensures MinuteOf(before, Sent(rs, times), from)
    ensures LetThrough(before + Sent(rs, times), key, from) == Admitted(Times(before, key) + times, Limit(key), from)
  {
    InOrderIsFrom(times, from);
    SentFollow(before, rs, times, key, from);
    FollowingRun(before, Sent(rs, times), key);
    AdmitsNothing(before, key, from);
    FollowingAdmitted(before, Sent(rs, times), key, from);
    AmpleCount(before, rs, key);
    SentCount(rs, times, key);
    TimesAfter(before, Sent(rs, times), key);
    NowsOfSent(rs, times);
    SentWithin(rs, times, from, from + WINDOW_MS);
  }

  /** A run in which the key gets through all its window has room for, and its limit. */
  lemma {:induction false} RoomAndLimitReached(before: seq<Event>, rs: seq<Request>, key: string, from: int)
    returns (later: seq<Event>)
    requires Ordered(before) && NeverCleared(before) && forall i :: 0 <= i < |before| ==> before[i].now < from
    requires |rs| == 2 * Limit(key) && Ample(before, rs, key)
    requires |RecentKeys(before, from - WINDOW_MS)| + |rs| + 1 <= CLEAR_ABOVE
    ensures MinuteOf(before, later, from)
    ensures LetThrough(before + later, key, from) == Room(Get(Posts(before), key), Limit(key), from) + Limit(key)
  {
    TimesInOrder(before, key);
    TimesBefore(before, key, from);
    var times := RoomAndMaxReached(Times(before, key), Limit(key), from);
    later := Sent(rs[..|times|], times);
    LaterInOrder(Times(before, key), times);
    AmplePart(before, rs, key, |times|);
    SentAdmitted(before, rs[..|times|], times, key, from);
    SweepUnobservable(before, key, from);
  }

  /**
   After any run without a full clear, for a person's key, a shared address's or
   an anonymous one: its limit holds for the 60 seconds from `from`, whatever
   comes in them, exactly when the map then holds no live window for it or a
   full one. `rs` are requests that could come: enough to reach the bound, with
   room under their other keys, and too few to make a full clear fire.
   */
  lemma {:induction false} LimitHoldsExactlyInRuns(before: seq<Event>, rs: seq<Request>, key: string, from: int)
    requires Ordered(before) && NeverCleared(before) && forall i :: 0 <= i < |before| ==> before[i].now < from
    requires |rs| == 2 * Limit(key) && Ample(before, rs, key)
    requires |RecentKeys(before, from - WINDOW_MS)| + |rs| + 1 <= CLEAR_ABOVE
    ensures var w := Live(Get(Posts(before), key), from);
            (forall later :: MinuteOf(before, later, from) ==> LetThrough(before + later, key, from) <= Limit(key))
            <==> w == None || w.value.n >= Limit(key)
  {
    forall later | MinuteOf(before, later, from)
      ensures LetThrough(before + later, key, from) <= Room(Get(Posts(before), key), Limit(key), from) + Limit(key)
    {
      RunAdmitsRoomAndLimit(before, later, key, from);
    }
    var most := RoomAndLimitReached(before, rs, key, from);
  }

  // ----- more than the limit in a minute, for each kind of key

  /**
   All of these requests but the first, sent as two bursts, come within the 60 seconds from time 1 on, and get
   through but for one.
   */
  ghost predicate OverLimit(rs: seq<Request>, key: string) {
    var max := Limit(key);
    && |rs| == 2 * max == |TwoBursts(max)| && TwoBursts(max)[0] == 0
    && (forall i :: 1 <= i < 2 * max ==> 1 <= TwoBursts(max)[i] <= 60_001)
    && Ordered(Sent(rs, TwoBursts(max))) && NeverCleared(Sent(rs, TwoBursts(max)))
    && LetThrough(Sent(rs, TwoBursts(max)), key, 1) == 2 * max - 1
  }

  lemma {:induction false} FromNothing(later: seq<Event>, key: string, from: int)
    requires AllFollow([], later, key) && forall i :: 0 <= i < |later| ==> Counts(later[i].r, key)
    ensures Ordered(later) && NeverCleared(later)
    ensures LetThrough(later, key, from) == Admitted(Nows(later), Limit(key), from)
  {
    assert [] + later == later;
    FollowingRun([], later, key);
    AdmitsNothing([], key, from);
    FollowingAdmitted([], later, key, from);
    TimesAfter([], later, key);
    assert [] + Nows(later) == Nows(later);
  }

  lemma {:induction false} BurstsFollow(rs: seq<Request>, times: seq<int>, key: string)
    requires |rs| == |times| && Ample([], rs, key) && InOrder(times) && |rs| + 1 <= CLEAR_ABOVE
    requires forall i :: 0 <= i < |times| ==> 0 <= times[i]
    ensures Ordered(Sent(rs, times)) && NeverCleared(Sent(rs, times))
    ensures LetThrough(Sent(rs, times), key, 1) == Admitted(times, Limit(key), 1)
  {
    InOrderIsFrom(times, 0);
    SentFollow([], rs, times, key, 0);
    AmpleCount([], rs, key);
    SentCount(rs, times, key);
    FromNothing(Sent(rs, times), key, 1);
    NowsOfSent(rs, times);
  }

  lemma {:induction false} TwiceLimitLessOne(rs: seq<Request>, key: string)
    requires |rs| == 2 * Limit(key) && Ample([], rs, key)
    ensures OverLimit(rs, key)
  {
    var times := TwoBursts(Limit(key));
    TwoBurstsInOrder(Limit(key));
    TwiceMaxLessOneReached(Limit(key));
    BurstsFollow(rs, times, key);
  }

  lemma {:induction false} UsesAtMost(rs: seq<Request>, key: string)
    ensures Uses(rs, key) <= |rs|
  {
    if rs != [] {
      UsesAtMost(rs[..|rs| - 1], key);
    }
  }

  function Repeated(r: Request, count: nat): (rs: seq<Request>)
    ensures |rs| == count
  {
    if count == 0 then [] else Repeated(r, count - 1) + [r]
  }

  /** A person's posts from one address leave that address room as long as they are fewer than its limit. */
  lemma {:induction false} PersonAmple(r: Request, count: nat)
    requires r.verb == "POST" && SignedIn(r) && count <= MAX_POSTS_PER_ADDRESS
    ensures Ample([], Repeated(r, count), PersonKey(r))
  {
    if count > 0 {
      var rs, key := Repeated(r, count), PersonKey(r);
      PersonAmple(r, count - 1);
      assert rs[..count - 1] == Repeated(r, count - 1);
      forall other | Counts(r, other) && other != key ensures OtherRoom([], rs[..count - 1], other) {
        KeyFamilies(r, other);
        UsesAtMost(rs[..count - 1], other);
      }
    }
  }

  /**
   One person at one address sends 240 posts, and 239 get through in 60 seconds; the address's 1,500 never come
   into it.
   */
  lemma {:induction false} PersonOverLimit(r: Request)
    requires r.verb == "POST" && SignedIn(r)
    ensures Limit(PersonKey(r)) == 120 && OverLimit(Repeated(r, 240), PersonKey(r))
  {
    KeyFamilies(r, PersonKey(r));
    PersonAmple(r, 240);
    TwiceLimitLessOne(Repeated(r, 240), PersonKey(r));
  }

  /** Signed-in posts from one address, no two by the same person. */
  ghost predicate OneOffice(rs: seq<Request>, key: string) {
    && (forall i :: 0 <= i < |rs| ==> rs[i].verb == "POST" && SignedIn(rs[i]) && AddressKey(rs[i]) == key)
    && forall i, j :: 0 <= i < j < |rs| ==> PersonKey(rs[i]) != PersonKey(rs[j])
  }

  lemma {:induction false} NotUsed(rs: seq<Request>, key: string)
    requires forall i :: 0 <= i < |rs| ==> !Counts(rs[i], key)
    ensures Uses(rs, key) == 0
  {
    if rs != [] {
      NotUsed(rs[..|rs| - 1], key);
    }
  }

  lemma {:induction false} OfficeAmple(rs: seq<Request>, key: string)
    requires OneOffice(rs, key)
    ensures Ample([], rs, key)
  {
    if rs != [] {
      var init, r := rs[..|rs| - 1], rs[|rs| - 1];
      assert OneOffice(init, key);
      OfficeAmple(init, key);
      forall other | Counts(r, other) && other != key ensures OtherRoom([], init, other) {
        KeyFamilies(r, other);
        forall j | 0 <= j < |init| ensures !Counts(init[j], other) {
          assert PersonKey(rs[j]) != PersonKey(r) && init[j] == rs[j];
        }
        NotUsed(init, other);
      }
    }
  }

  /** 3,000 different people behind one address send one post each, and 2,999 get through in 60 seconds. */
  lemma {:induction false} OfficeOverLimit(rs: seq<Request>, key: string)
    requires |rs| == 3000 && OneOffice(rs, key)
    ensures Limit(key) == 1500 && OverLimit(rs, key)
  {
    KeyFamilies(rs[0], key);
    OfficeAmple(rs, key);
    TwiceLimitLessOne(rs, key);
  }
}
