/**
 The submission limiter `tooManyPosts` (apps/portal/middleware.ts): one map of
 fixed windows for three families of keys, swept when it grows and cleared when
 it grows too far. Times are milliseconds; a run is a sequence of requests.
 */
module RateLimiter {
  import opened Wrappers
  import opened JsStrings

  const WINDOW_MS := 60_000
  const MAX_POSTS := 120
  const MAX_POSTS_PER_ADDRESS := 1500
  const SWEEP_ABOVE := 5000
  const CLEAR_ABOVE := 20000

  datatype Window = Window(n: nat, start: int)

  type Windows = map<string, Window>

  datatype Request = Request(verb: string, forwardedFor: Option<string>, realIp: Option<string>, token: Option<string>)

  // ----- one window

  predicate Expired(w: Window, now: int) {
    now - w.start > WINDOW_MS
  }

  /** An expired window counts for nothing. */
  function Live(w: Option<Window>, now: int): Option<Window> {
    if w.Some? && !Expired(w.value, now) then w else None
  }

  function Next(w: Option<Window>, now: int): Window {
    if Live(w, now) == None then Window(1, now) else Window(w.value.n + 1, w.value.start)
  }

  predicate Refuses(w: Option<Window>, max: nat, now: int) {
    Live(w, now).Some? && w.value.n + 1 > max
  }

  // ----- requests and keys

  function Address(r: Request): string {
    var forwarded := if r.forwardedFor.Some? then TrimEnd(TrimStart(Split(r.forwardedFor.value)[0])) else "";
    if forwarded != "" then forwarded
    else if r.realIp.Some? && r.realIp.value != "" then r.realIp.value
    else "unknown"
  }

  predicate SignedIn(r: Request) {
    r.token.Some? && r.token.value != ""
  }

  function AnonymousKey(r: Request): string {
    "anon:" + Address(r)
  }

  function AddressKey(r: Request): string {
    "auth:" + Address(r)
  }

  function PersonKey(r: Request): string
    requires SignedIn(r)
  {
    "s:" + Take(r.token.value, 32)
  }

  /** Does the request count under the key? */
  predicate Counts(r: Request, key: string) {
    && r.verb == "POST"
    && if SignedIn(r) then key == AddressKey(r) || key == PersonKey(r) else key == AnonymousKey(r)
  }

  /** A key's limit, by its family. */
  function Limit(key: string): nat {
    if "auth:" <= key then MAX_POSTS_PER_ADDRESS else MAX_POSTS
  }

  // ----- the map

  function Get(posts: Windows, key: string): Option<Window> {
    if key in posts then Some(posts[key]) else None
  }

  function Swept(posts: Windows, now: int): Windows {
    if |posts| > SWEEP_ABOVE then map k | k in posts && !Expired(posts[k], now) :: posts[k] else posts
  }

  predicate Clears(posts: Windows, now: int) {
    |Swept(posts, now)| > CLEAR_ABOVE
  }

  function Prepared(posts: Windows, now: int): Windows {
    if Clears(posts, now) then map[] else Swept(posts, now)
  }

  /** Up to 5,000 keys nothing goes; beyond, windows over 60 seconds old go; if more than 20,000 are left, all go. */
  lemma {:induction false} PreparedInNumbers(posts: Windows, now: int)
    ensures |posts| <= 5000 ==> Prepared(posts, now) == posts
    ensures |posts| > 5000 ==>
              var live := map k | k in posts && now - posts[k].start <= 60_000 :: posts[k];
              Prepared(posts, now) == if |live| > 20000 then map[] else live
  {
    if |posts| > 5000 {
      assert Swept(posts, now) == map k | k in posts && now - posts[k].start <= 60_000 :: posts[k];
    }
  }

  /** The map after a request: every key it counts under has moved on. */
  function After(posts: Windows, r: Request, now: int): Windows {
    if r.verb != "POST" then posts
    else
      var p := Prepared(posts, now);
      if SignedIn(r) then
        p[AddressKey(r) := Next(Get(p, AddressKey(r)), now)][PersonKey(r) := Next(Get(p, PersonKey(r)), now)]
      else
        p[AnonymousKey(r) := Next(Get(p, AnonymousKey(r)), now)]
  }

  /** The request counts under this key, and the key is over its limit. */
  predicate RefusedUnder(posts: Windows, r: Request, now: int, key: string) {
    Counts(r, key) && Refuses(Get(Prepared(posts, now), key), Limit(key), now)
  }

  /** The verdict: some key it counts under is over its limit. */
  ghost predicate TooMany(posts: Windows, r: Request, now: int) {
    exists key :: RefusedUnder(posts, r, now, key)
  }

  class Limiter {
    var posts: Windows

    constructor ()
      ensures posts == map[]
    {
      posts := map[];
    }

    /** The inner `over`: counts one post under one key. */
    method Over(key: string, max: nat, now: int) returns (over: bool)
      modifies this
      ensures posts == old(posts)[key := Next(old(Get(posts, key)), now)]
      ensures over == Refuses(old(Get(posts, key)), max, now)
    {
      if key !in posts || now - posts[key].start > WINDOW_MS {
        posts := posts[key := Window(1, now)];
        return false;
      }
      posts := posts[key := Window(posts[key].n + 1, posts[key].start)];
      return posts[key].n > max;
    }

    method Sweep(now: int)
      modifies this
      ensures posts == Prepared(old(posts), now)
    {
      if |posts| > SWEEP_ABOVE {
        var todo := posts.Keys;
        while todo != {}
          invariant todo <= posts.Keys <= old(posts).Keys
          invariant forall k :: k in old(posts) ==> (k in posts <==> k in todo || !Expired(old(posts)[k], now))
          invariant forall k :: k in posts ==> posts[k] == old(posts)[k]
          decreases todo
        {
          var k :| k in todo;
          if now - posts[k].start > WINDOW_MS {
            posts := posts - {k};
          }
          todo := todo - {k};
        }
      }
      assert posts == Swept(old(posts), now);
      if |posts| > CLEAR_ABOVE {
        posts := map[];
      }
    }

    method TooManyPosts(r: Request, now: int) returns (refused: bool)
      modifies this
      ensures posts == After(old(posts), r, now)
      ensures refused == TooMany(old(posts), r, now)
    {
      if r.verb != "POST" {
        return false;
      }
      Sweep(now);
      if !SignedIn(r) {
        refused := Over(AnonymousKey(r), MAX_POSTS, now);
        KeyFamilies(r, AnonymousKey(r));
        assert RefusedUnder(old(posts), r, now, AnonymousKey(r)) == refused;
        return;
      }
      KeyFamilies(r, AddressKey(r));
      KeyFamilies(r, PersonKey(r));
      var perAddress := Over(AddressKey(r), MAX_POSTS_PER_ADDRESS, now);
      var perPerson := Over(PersonKey(r), MAX_POSTS, now);
      assert RefusedUnder(old(posts), r, now, AddressKey(r)) == perAddress;
      assert RefusedUnder(old(posts), r, now, PersonKey(r)) == perPerson;
      return perPerson || perAddress;
    }
  }

  /** The three families never share a key. */
  lemma {:induction false} KeyFamilies(r: Request, key: string)
    requires Counts(r, key)
    ensures SignedIn(r) ==> AddressKey(r) != PersonKey(r)
    ensures SignedIn(r) <==> !("anon:" <= key)
    ensures Limit(key) == if SignedIn(r) && key == AddressKey(r) then MAX_POSTS_PER_ADDRESS else MAX_POSTS
  {
    if SignedIn(r) {
      assert AddressKey(r)[..5] == "auth:" && AddressKey(r)[1] == 'u';
      assert PersonKey(r)[0] == 's';
    } else {
      assert key[..5] == "anon:" && key[1] == 'n';
    }
  }

  // ----- one key's history, with nothing ever deleted

  /** The window of a key after its posts at these times. */
  function WindowAfter(times: seq<int>): Option<Window> {
    if times == [] then None else Some(Next(WindowAfter(times[..|times| - 1]), times[|times| - 1]))
  }

  predicate InOrder(times: seq<int>) {
    forall i, j :: 0 <= i < j < |times| ==> times[i] <= times[j]
  }

  /** The posts at or after `from` that the limit lets through. */
  function Admitted(times: seq<int>, max: nat, from: int): nat {
    if times == [] then 0
    else
      var before, t := times[..|times| - 1], times[|times| - 1];
      Admitted(before, max, from) + if t >= from && !Refuses(WindowAfter(before), max, t) then 1 else 0
  }

  /** Within one window the first `max` posts are let through and every later one is refused. */
  lemma {:induction false} WindowAdmitsFirstMax(times: seq<int>, i: nat, j: nat, max: nat)
    requires i < j <= |times|
    requires Live(WindowAfter(times[..i]), times[i]) == None
    requires forall k :: i < k < j ==> times[k] - times[i] <= WINDOW_MS
    ensures WindowAfter(times[..j]) == Some(Window(j - i, times[i]))
    ensures j < |times| && times[j] - times[i] <= WINDOW_MS ==>
            (Refuses(WindowAfter(times[..j]), max, times[j]) <==> j - i >= max)
    decreases j
  {
    assert times[..j][..j - 1] == times[..j - 1];
    if j > i + 1 {
      WindowAdmitsFirstMax(times, i, j - 1, max);
    }
  }

  ghost predicate AdmissionState(times: seq<int>, max: nat, from: int) {
    var w, n := WindowAfter(times), Admitted(times, max, from);
    if times == [] then n == 0
    else
      && w.Some? && w.value.start <= times[|times| - 1] <= w.value.start + WINDOW_MS && w.value.n >= 1
      && (times[|times| - 1] < from ==> n == 0)
      && (w.value.start < from ==> n < w.value.n && n < max)
      && (w.value.start == from ==> n <= w.value.n && n <= max)
      && (w.value.start > from ==> n < max + w.value.n && n < 2 * max)
  }

  lemma {:induction false} AdmissionStep(times: seq<int>, max: nat, from: int)
    requires InOrder(times) && max >= 1
    requires times != [] ==> times[|times| - 1] <= from + WINDOW_MS
    ensures AdmissionState(times, max, from)
  {
    if times != [] {
      var before := times[..|times| - 1];
      assert InOrder(before);
      AdmissionStep(before, max, from);
      if before != [] {
        assert before[|before| - 1] <= times[|times| - 1];
      }
    }
  }

  /** Fewer than 2 * max posts of one key are let through in any 60 seconds. */
  lemma {:induction false} UnderTwiceMaxPerMinute(times: seq<int>, max: nat, from: int)
    requires InOrder(times) && max >= 1
    requires forall i :: 0 <= i < |times| ==> times[i] <= from + WINDOW_MS
    ensures Admitted(times, max, from) < 2 * max
  {
    AdmissionStep(times, max, from);
  }

  lemma {:induction false} OneMorePost(times: seq<int>, t: int, max: nat, from: int)
    ensures WindowAfter(times + [t]) == Some(Next(WindowAfter(times), t))
    ensures Admitted(times + [t], max, from)
         == Admitted(times, max, from) + if t >= from && !Refuses(WindowAfter(times), max, t) then 1 else 0
  {
    assert (times + [t])[..|times + [t]| - 1] == times;
  }

  function Burst(t: int, count: nat): seq<int> {
    seq(count, _ => t)
  }

  /** The posts leave this window, `n` of them let through since `from`. */
  predicate Leaves(times: seq<int>, max: nat, from: int, w: Window, n: nat) {
    WindowAfter(times) == Some(w) && Admitted(times, max, from) == n
  }

  lemma {:induction false} LeavesOneMore(times: seq<int>, w: Window, n: nat, t: int, max: nat, from: int)
    requires Leaves(times, max, from, w, n)
    requires !Expired(w, t) && t >= from && w.n < max
    ensures Leaves(times + [t], max, from, Window(w.n + 1, w.start), n + 1)
  {
    OneMorePost(times, t, max, from);
  }

  lemma {:induction false} BurstGrows(times: seq<int>, t: int, count: nat)
    ensures times + Burst(t, 0) == times
    ensures times + Burst(t, count) + [t] == times + Burst(t, count + 1)
  {
  }

  lemma {:induction false} BurstAdmitted(times: seq<int>, w: Window, n: nat, t: int, count: nat, max: nat, from: int)
    requires Leaves(times, max, from, w, n)
    requires !Expired(w, t) && t >= from && w.n + count <= max
    ensures Leaves(times + Burst(t, count), max, from, Window(w.n + count, w.start), n + count)
  {
    if count == 0 {
      BurstGrows(times, t, 0);
    } else {
      BurstGrows(times, t, count - 1);
      BurstAdmitted(times, w, n, t, count - 1, max, from);
      LeavesOneMore(times + Burst(t, count - 1), Window(w.n + count - 1, w.start), n + count - 1, t, max, from);
    }
  }

  // ----- when the limit does hold over 60 seconds

  /** What a window that is live at `from` still lets through. */
  function Room(w: Option<Window>, max: nat, from: int): nat {
    if Live(w, from).Some? && w.value.n < max then max - w.value.n else 0
  }

  /** The key's posts `later` come within 60 seconds from `from`, after its posts `before`. */
  ghost predicate MinuteFrom(before: seq<int>, later: seq<int>, from: int) {
    && InOrder(before + later)
    && (forall i :: 0 <= i < |before| ==> before[i] < from)
    && (forall i :: 0 <= i < |later| ==> from <= later[i] <= from + 60_000)
  }

  lemma {:induction false} WindowHasBegun(times: seq<int>, max: nat, from: int)
    requires InOrder(times) && forall i :: 0 <= i < |times| ==> times[i] < from
    ensures Admitted(times, max, from) == 0
    ensures times != [] ==> WindowAfter(times).Some? && WindowAfter(times).value.start <= times[|times| - 1]
  {
    if times != [] {
      var init := times[..|times| - 1];
      WindowHasBegun(init, max, from);
      assert init != [] ==> init[|init| - 1] <= times[|times| - 1];
    }
  }

  /** Either the window that was live at `from` still runs, or a new one has begun since. */
  ghost predicate MinuteState(w: Option<Window>, posts: nat, now: Option<Window>, n: nat, max: nat, from: int) {
    if posts == 0 then now == w && n == 0
    else
      && now.Some? && now.value.n >= 1
      && if now.value.start >= from then n <= Room(w, max, from) + now.value.n && n <= Room(w, max, from) + max
         else
           && Live(w, from).Some? && now.value == Window(w.value.n + posts, w.value.start)
           && n <= posts && n <= Room(w, max, from)
  }

  lemma {:induction false} MinuteStep(w: Option<Window>, posts: nat, now: Option<Window>, n: nat, t: int, max: nat,
                                      from: int)
    requires max >= 1 && MinuteState(w, posts, now, n, max, from)
    requires from <= t <= from + WINDOW_MS && (w.Some? ==> w.value.start < from)
    ensures MinuteState(w, posts + 1, Some(Next(now, t)), n + (if Refuses(now, max, t) then 0 else 1), max, from)
  {
  }

  lemma {:induction false} MinuteBefore(before: seq<int>, later: seq<int>, from: int)
    requires MinuteFrom(before, later, from)
    ensures InOrder(before)
    ensures later != [] ==>
              && MinuteFrom(before, later[..|later| - 1], from)
              && before + later == before + later[..|later| - 1] + [later[|later| - 1]]
  {
    assert forall i :: 0 <= i < |before| ==> (before + later)[i] == before[i];
    if later != [] {
      var init := later[..|later| - 1];
      assert before + init == (before + later)[..|before + init|];
    }
  }

  lemma {:induction false} MinuteRun(before: seq<int>, later: seq<int>, max: nat, from: int)
    requires max >= 1 && MinuteFrom(before, later, from)
    ensures MinuteState(WindowAfter(before), |later|, WindowAfter(before + later),
                        Admitted(before + later, max, from), max, from)
  {
    MinuteBefore(before, later, from);
    WindowHasBegun(before, max, from);
    if later == [] {
      assert before + later == before;
    } else {
      var init, t := later[..|later| - 1], later[|later| - 1];
      MinuteRun(before, init, max, from);
      OneMorePost(before + init, t, max, from);
      MinuteStep(WindowAfter(before), |init|, WindowAfter(before + init), Admitted(before + init, max, from),
                 t, max, from);
    }
  }

  /** In any 60 seconds a key gets through what its window still has room for, and one limit more. */
  lemma {:induction false} AtMostRoomAndMax(before: seq<int>, later: seq<int>, max: nat, from: int)
    requires max >= 1 && MinuteFrom(before, later, from)
    ensures Admitted(before + later, max, from) <= Room(WindowAfter(before), max, from) + max
  {
    MinuteRun(before, later, max, from);
  }

  /** A burst that opens a new window fills it. */
  lemma {:induction false} NewWindowBurst(times: seq<int>, t: int, max: nat, from: int)
    requires max >= 1 && t >= from && Live(WindowAfter(times), t) == None
    ensures Admitted(times + Burst(t, max), max, from) == Admitted(times, max, from) + max
  {
    var n := Admitted(times, max, from);
    OneMorePost(times, t, max, from);
    BurstAdmitted(times + [t], Window(1, t), n + 1, t, max - 1, max, from);
    assert times + [t] + Burst(t, max - 1) == times + Burst(t, max);
  }

  /** One early post, then the rest of its window's allowance, then all of the next window's. */
  function TwoBursts(max: nat): seq<int>
    requires max >= 1
  {
    [0] + Burst(WINDOW_MS, max - 1) + Burst(WINDOW_MS + 1, max)
  }

  lemma {:induction false} TwoBurstsInOrder(max: nat)
    requires max >= 1
    ensures InOrder(TwoBursts(max)) && |TwoBursts(max)| == 2 * max && TwoBursts(max)[0] == 0
    ensures forall i :: 1 <= i < |TwoBursts(max)| ==> 1 <= TwoBursts(max)[i] <= 1 + WINDOW_MS
  {
  }

  lemma {:induction false} OneEarlyPost(max: nat)
    ensures Leaves([0], max, 1, Window(1, 0), 0)
  {
    assert [0][..0] == [];
  }

  /** A key can get 2 * max - 1 posts through in 60 seconds, so the limit is not per minute. */
  lemma {:induction false} TwiceMaxLessOneReached(max: nat)
    requires max >= 1
    ensures Admitted(TwoBursts(max), max, 1) == 2 * max - 1
  {
    OneEarlyPost(max);
    BurstAdmitted([0], Window(1, 0), 0, WINDOW_MS, max - 1, max, 1);
    NewWindowBurst([0] + Burst(WINDOW_MS, max - 1), WINDOW_MS + 1, max, 1);
  }

  lemma {:induction false} BurstsInOrder(before: seq<int>, t: int, m: nat, u: int, n: nat, from: int)
    requires InOrder(before) && forall i :: 0 <= i < |before| ==> before[i] < from
    requires from <= t <= u <= from + WINDOW_MS
    ensures MinuteFrom(before, Burst(t, m) + Burst(u, n), from)
  {
  }

  /** And it can get that much through. */
  lemma {:induction false} RoomAndMaxReached(before: seq<int>, max: nat, from: int) returns (later: seq<int>)
    requires max >= 1 && InOrder(before) && forall i :: 0 <= i < |before| ==> before[i] < from
    ensures MinuteFrom(before, later, from)
    ensures Admitted(before + later, max, from) == Room(WindowAfter(before), max, from) + max
    ensures |later| == Room(WindowAfter(before), max, from) + max
  {
    var w, room := WindowAfter(before), Room(WindowAfter(before), max, from);
    WindowHasBegun(before, max, from);
    var u := if Live(w, from).Some? then w.value.start + WINDOW_MS + 1 else from;
    later := Burst(from, room) + Burst(u, max);
    BurstsInOrder(before, from, room, u, max, from);
    if room > 0 {
      BurstAdmitted(before, w.value, 0, from, room, max, from);
    } else {
      assert before + Burst(from, room) == before;
    }
    NewWindowBurst(before + Burst(from, room), u, max, from);
    assert before + Burst(from, room) + Burst(u, max) == before + later;
  }

  /** The limit holds over the 60 seconds from `from` exactly when no window is then live, or the live one is full. */
  lemma {:induction false} LimitHoldsExactly(before: seq<int>, max: nat, from: int)
    requires max >= 1 && InOrder(before) && forall i :: 0 <= i < |before| ==> before[i] < from
    ensures (forall later :: MinuteFrom(before, later, from) ==> Admitted(before + later, max, from) <= max)
       <==> Live(WindowAfter(before), from) == None || WindowAfter(before).value.n >= max
  {
    forall later | MinuteFrom(before, later, from)
      ensures Admitted(before + later, max, from) <= Room(WindowAfter(before), max, from) + max
    {
      AtMostRoomAndMax(before, later, max, from);
    }
    var most := RoomAndMaxReached(before, max, from);
  }

  // ----- runs

  datatype Event = Event(r: Request, now: int)

  function Posts(run: seq<Event>): Windows {
    if run == [] then map[] else After(Posts(run[..|run| - 1]), run[|run| - 1].r, run[|run| - 1].now)
  }

  predicate Ordered(run: seq<Event>) {
    forall i, j :: 0 <= i < j < |run| ==> run[i].now <= run[j].now
  }

  /** When each post counted under the key. */
  function Times(run: seq<Event>, key: string): (times: seq<int>)
    ensures |times| <= |run|
  {
    if run == [] then []
    else
      var e := run[|run| - 1];
      if Counts(e.r, key) then Times(run[..|run| - 1], key) + [e.now] else Times(run[..|run| - 1], key)
  }

  /** The full clear did not fire. */
  ghost predicate NeverCleared(run: seq<Event>) {
    forall i :: 0 <= i < |run| && run[i].r.verb == "POST" ==> !Clears(Posts(run[..i]), run[i].now)
  }

  lemma {:induction false} OrderedPrefix(run: seq<Event>)
    requires run != []
    ensures Ordered(run) ==> Ordered(run[..|run| - 1])
    ensures NeverCleared(run) ==> NeverCleared(run[..|run| - 1])
  {
    var before := run[..|run| - 1];
    forall i | 0 <= i < |before| ensures before[i] == run[i] && before[..i] == run[..i] {
    }
  }

  lemma {:induction false} TimesInOrder(run: seq<Event>, key: string)
    requires Ordered(run)
    ensures InOrder(Times(run, key))
    ensures forall i :: 0 <= i < |Times(run, key)| ==> Times(run, key)[i] <= run[|run| - 1].now
  {
    if run != [] {
      OrderedPrefix(run);
      TimesInOrder(run[..|run| - 1], key);
    }
  }

  // ----- sweeping is unobservable

  lemma {:induction false} SweptLive(posts: Windows, key: string, now: int)
    ensures Live(Get(Swept(posts, now), key), now) == Live(Get(posts, key), now)
  {
  }

  lemma {:induction false} AfterGet(posts: Windows, r: Request, now: int, key: string)
    requires r.verb == "POST"
    ensures Get(After(posts, r, now), key)
         == if Counts(r, key) then Some(Next(Get(Prepared(posts, now), key), now)) else Get(Prepared(posts, now), key)
  {
    if SignedIn(r) {
      KeyFamilies(r, AddressKey(r));
    }
  }

  /** Absent a clear, from any moment on a key's live window is what its own posts alone would have left. */
  lemma {:induction false} SweepUnobservable(run: seq<Event>, key: string, now: int)
    requires Ordered(run) && NeverCleared(run)
    requires run != [] ==> run[|run| - 1].now <= now
    ensures Live(Get(Posts(run), key), now) == Live(WindowAfter(Times(run, key)), now)
  {
    if run != [] {
      var before, e := run[..|run| - 1], run[|run| - 1];
      OrderedPrefix(run);
      assert before != [] ==> before[|before| - 1].now <= e.now;
      SweepUnobservable(before, key, e.now);
      SweepUnobservable(before, key, now);
      if e.r.verb == "POST" {
        assert !Clears(Posts(run[..|run| - 1]), e.now);
        SweptLive(Posts(before), key, e.now);
        AfterGet(Posts(before), e.r, e.now, key);
        SweptOnlyExpired(Posts(before), key, e.now, now);
      }
      var times := Times(run, key);
      assert Counts(e.r, key) ==> times[..|times| - 1] == Times(before, key);
    }
  }

  lemma {:induction false} SweptOnlyExpired(posts: Windows, key: string, sweptAt: int, now: int)
    requires sweptAt <= now
    ensures Live(Get(Swept(posts, sweptAt), key), now) == Live(Get(posts, key), now)
  {
  }

  /** The verdict on a post, from the earlier posts under its own keys alone. */
  ghost predicate TooManyByHistory(run: seq<Event>, e: Event) {
    exists key :: RefusedByHistory(run, e, key)
  }

  predicate RefusedByHistory(run: seq<Event>, e: Event, key: string) {
    Counts(e.r, key) && Refuses(WindowAfter(Times(run, key)), Limit(key), e.now)
  }

  lemma {:induction false} VerdictIsPerKey(run: seq<Event>, e: Event)
    requires Ordered(run + [e]) && NeverCleared(run + [e])
    ensures TooMany(Posts(run), e.r, e.now) <==> TooManyByHistory(run, e)
  {
    var all := run + [e];
    OrderedPrefix(all);
    assert all[..|all| - 1] == run && all[|run|] == e;
    assert run != [] ==> all[|run| - 1].now <= e.now;
    if e.r.verb == "POST" {
      assert !Clears(Posts(all[..|run|]), e.now);
    }
    forall key ensures RefusedUnder(Posts(run), e.r, e.now, key) <==> RefusedByHistory(run, e, key) {
      SweepUnobservable(run, key, e.now);
      SweptLive(Posts(run), key, e.now);
    }
  }

  // ----- anonymous and signed-in traffic never affect each other

  /** The requests of one kind, the others left out. */
  function Only(run: seq<Event>, signedIn: bool): seq<Event> {
    if run == [] then []
    else
      var e := run[|run| - 1];
      if SignedIn(e.r) == signedIn then Only(run[..|run| - 1], signedIn) + [e] else Only(run[..|run| - 1], signedIn)
  }

  lemma {:induction false} TimesOfKind(run: seq<Event>, key: string, signedIn: bool)
    requires signedIn <==> !("anon:" <= key)
    ensures Times(Only(run, signedIn), key) == Times(run, key)
  {
    if run != [] {
      var before, e := run[..|run| - 1], run[|run| - 1];
      TimesOfKind(before, key, signedIn);
      if Counts(e.r, key) {
        KeyFamilies(e.r, key);
      }
      if SignedIn(e.r) == signedIn {
        var only := Only(run, signedIn);
        assert only[..|only| - 1] == Only(before, signedIn) && only[|only| - 1] == e;
      }
    }
  }

  lemma {:induction false} TimesOfOtherKind(run: seq<Event>, key: string, signedIn: bool)
    requires signedIn <==> "anon:" <= key
    ensures Times(Only(run, signedIn), key) == []
  {
    if run != [] {
      var before, e := run[..|run| - 1], run[|run| - 1];
      TimesOfOtherKind(before, key, signedIn);
      if SignedIn(e.r) == signedIn {
        if Counts(e.r, key) {
          KeyFamilies(e.r, key);
        }
        var only := Only(run, signedIn);
        assert only[..|only| - 1] == Only(before, signedIn) && only[|only| - 1] == e;
      }
    }
  }

  lemma {:induction false} OnlyOrdered(run: seq<Event>, signedIn: bool)
    requires Ordered(run)
    ensures Ordered(Only(run, signedIn))
    ensures Only(run, signedIn) != [] ==>
            run != [] && Only(run, signedIn)[|Only(run, signedIn)| - 1].now <= run[|run| - 1].now
  {
    if run != [] {
      var before, e := run[..|run| - 1], run[|run| - 1];
      OrderedPrefix(run);
      OnlyOrdered(before, signedIn);
      var own := Only(before, signedIn);
      assert own != [] ==> before[|before| - 1] == run[|run| - 2] && run[|run| - 2].now <= e.now;
      assert own != [] ==> own[|own| - 1].now <= e.now;
    }
  }

  /** With one kind of traffic left out, a live window is still there. */
  lemma {:induction false} LiveInBoth(run: seq<Event>, signedIn: bool, key: string, now: int)
    requires Ordered(run) && NeverCleared(run) && NeverCleared(Only(run, signedIn))
    requires run != [] ==> run[|run| - 1].now <= now
    requires Live(Get(Posts(Only(run, signedIn)), key), now).Some?
    ensures Live(Get(Posts(run), key), now).Some?
  {
    OnlyOrdered(run, signedIn);
    SweepUnobservable(run, key, now);
    SweepUnobservable(Only(run, signedIn), key, now);
    if signedIn <==> !("anon:" <= key) {
      TimesOfKind(run, key, signedIn);
    } else {
      TimesOfOtherKind(run, key, signedIn);
    }
  }

  /** Less traffic clears no sooner. */
  lemma {:induction false} ClearsWithMoreTraffic(run: seq<Event>, signedIn: bool, now: int)
    requires Ordered(run) && NeverCleared(run) && NeverCleared(Only(run, signedIn))
    requires run != [] ==> run[|run| - 1].now <= now
    requires Clears(Posts(Only(run, signedIn)), now)
    ensures Clears(Posts(run), now)
  {
    var own, all := Swept(Posts(Only(run, signedIn)), now), Swept(Posts(run), now);
    forall key | key in own.Keys ensures key in all.Keys {
      LiveInBoth(run, signedIn, key, now);
      SweptLive(Posts(run), key, now);
    }
    SubsetSize(own.Keys, all.Keys);
  }

  lemma {:induction false} OnlyNeverCleared(run: seq<Event>, signedIn: bool)
    requires Ordered(run) && NeverCleared(run)
    ensures NeverCleared(Only(run, signedIn))
  {
    if run != [] {
      var before, e := run[..|run| - 1], run[|run| - 1];
      OrderedPrefix(run);
      OnlyNeverCleared(before, signedIn);
      if SignedIn(e.r) == signedIn {
        var own := Only(before, signedIn);
        assert before != [] ==> before[|before| - 1].now <= e.now;
        if e.r.verb == "POST" {
          assert !Clears(Posts(run[..|run| - 1]), e.now);
          if Clears(Posts(own), e.now) {
            ClearsWithMoreTraffic(before, signedIn, e.now);
          }
        }
        NeverClearedOneMore(own, e);
      }
    }
  }

  lemma {:induction false} NeverClearedOneMore(run: seq<Event>, e: Event)
    requires NeverCleared(run) && (e.r.verb == "POST" ==> !Clears(Posts(run), e.now))
    ensures NeverCleared(run + [e])
  {
    var all := run + [e];
    forall i | 0 <= i < |all| && all[i].r.verb == "POST" ensures !Clears(Posts(all[..i]), all[i].now) {
      if i < |run| {
        assert all[..i] == run[..i];
      } else {
        assert all[..i] == run;
      }
    }
  }

  /** A post's verdict is the same when all traffic of the other kind never happened. */
  lemma {:induction false} KindsDoNotInterfere(run: seq<Event>, e: Event)
    requires Ordered(run + [e]) && NeverCleared(run + [e])
    ensures TooMany(Posts(run), e.r, e.now) <==> TooMany(Posts(Only(run, SignedIn(e.r))), e.r, e.now)
  {
    var all, kind := run + [e], SignedIn(e.r);
    var own := Only(run, kind);
    assert all[..|all| - 1] == run && all[|all| - 1] == e;
    assert Only(all, kind) == own + [e];
    OnlyOrdered(all, kind);
    OnlyNeverCleared(all, kind);
    VerdictIsPerKey(run, e);
    VerdictIsPerKey(own, e);
    forall key ensures RefusedByHistory(run, e, key) <==> RefusedByHistory(own, e, key) {
      if Counts(e.r, key) {
        KeyFamilies(e.r, key);
        TimesOfKind(run, key, kind);
      }
    }
  }

  // ----- the admission bound, over runs

  /** Requests counting under the key, at or after `from`, that were let through. */
  ghost function LetThrough(run: seq<Event>, key: string, from: int): nat {
    if run == [] then 0
    else
      var before, e := run[..|run| - 1], run[|run| - 1];
      LetThrough(before, key, from) +
      if Counts(e.r, key) && e.now >= from && !TooMany(Posts(before), e.r, e.now) then 1 else 0
  }

  lemma {:induction false} OverKeyIsRefused(before: seq<Event>, e: Event, key: string)
    requires Ordered(before + [e]) && NeverCleared(before + [e])
    requires Counts(e.r, key) && Refuses(WindowAfter(Times(before, key)), Limit(key), e.now)
    ensures TooMany(Posts(before), e.r, e.now)
  {
    assert RefusedByHistory(before, e, key);
    VerdictIsPerKey(before, e);
  }

  lemma {:induction false} LetThroughAdmitted(run: seq<Event>, key: string, from: int)
    requires Ordered(run) && NeverCleared(run)
    ensures LetThrough(run, key, from) <= Admitted(Times(run, key), Limit(key), from)
  {
    if run != [] {
      var before, e := run[..|run| - 1], run[|run| - 1];
      assert run == before + [e];
      OrderedPrefix(run);
      LetThroughAdmitted(before, key, from);
      if Counts(e.r, key) {
        var times := Times(before, key);
        OneMorePost(times, e.now, Limit(key), from);
        if Refuses(WindowAfter(times), Limit(key), e.now) {
          OverKeyIsRefused(before, e, key);
        }
      }
    }
  }

  /** Every key gets fewer than twice its limit through in any 60 seconds of a run without a clear. */
  lemma {:induction false} RunAdmitsUnderTwiceLimit(run: seq<Event>, key: string, from: int)
    requires Ordered(run) && NeverCleared(run)
    requires run != [] ==> run[|run| - 1].now <= from + WINDOW_MS
    ensures LetThrough(run, key, from) < 2 * Limit(key)
  {
    LetThroughAdmitted(run, key, from);
    TimesInOrder(run, key);
    UnderTwiceMaxPerMinute(Times(run, key), Limit(key), from);
  }

  // ----- the same over runs

  lemma {:induction false} TimesConcat(before: seq<Event>, later: seq<Event>, key: string)
    ensures Times(before + later, key) == Times(before, key) + Times(later, key)
  {
    if later == [] {
      assert before + later == before;
    } else {
      assert (before + later)[..|before + later| - 1] == before + later[..|later| - 1];
      TimesConcat(before, later[..|later| - 1], key);
    }
  }

  lemma {:induction false} TimesWithin(run: seq<Event>, key: string, least: int, most: int)
    requires forall i :: 0 <= i < |run| ==> least <= run[i].now <= most
    ensures forall i :: 0 <= i < |Times(run, key)| ==> least <= Times(run, key)[i] <= most
  {
    if run != [] {
      TimesWithin(run[..|run| - 1], key, least, most);
    }
  }

  lemma {:induction false} TimesBefore(run: seq<Event>, key: string, from: int)
    requires forall i :: 0 <= i < |run| ==> run[i].now < from
    ensures forall i :: 0 <= i < |Times(run, key)| ==> Times(run, key)[i] < from
  {
    if run != [] {
      TimesBefore(run[..|run| - 1], key, from);
    }
  }

  lemma {:induction false} EarlierPart(before: seq<Event>, later: seq<Event>)
    requires Ordered(before + later) && NeverCleared(before + later)
    ensures Ordered(before) && NeverCleared(before)
  {
    var run := before + later;
    forall i | 0 <= i < |before| ensures run[i] == before[i] && run[..i] == before[..i] {
    }
  }

  /**
   Requests in 60 seconds without a clear, whatever came before: each key gets at most its window's room and its
   limit through.
   */
  lemma {:induction false} RunAdmitsRoomAndLimit(before: seq<Event>, later: seq<Event>, key: string, from: int)
    requires Ordered(before + later) && NeverCleared(before + later)
    requires forall i :: 0 <= i < |before| ==> before[i].now < from
    requires forall i :: 0 <= i < |later| ==> from <= later[i].now <= from + WINDOW_MS
    ensures LetThrough(before + later, key, from) <= Room(Get(Posts(before), key), Limit(key), from) + Limit(key)
  {
    TimesConcat(before, later, key);
    TimesInOrder(before + later, key);
    TimesWithin(later, key, from, from + WINDOW_MS);
    TimesBefore(before, key, from);
    LetThroughAdmitted(before + later, key, from);
    AtMostRoomAndMax(Times(before, key), Times(later, key), Limit(key), from);
    EarlierPart(before, later);
    SweepUnobservable(before, key, from);
  }

  lemma {:induction false} AnonymousVerdict(run: seq<Event>, e: Event, key: string)
    requires Ordered(run + [e]) && NeverCleared(run + [e])
    requires "anon:" <= key && Counts(e.r, key)
    ensures TooMany(Posts(run), e.r, e.now) <==> Refuses(WindowAfter(Times(run, key)), Limit(key), e.now)
  {
    KeyFamilies(e.r, key);
    VerdictIsPerKey(run, e);
    assert RefusedByHistory(run, e, key) <==> Refuses(WindowAfter(Times(run, key)), Limit(key), e.now);
    assert forall k :: RefusedByHistory(run, e, k) ==> k == key;
  }

  /** An anonymous key gets through exactly what its history admits: its requests count under no other key. */
  lemma {:induction false} AnonymousLetThrough(run: seq<Event>, key: string, from: int)
    requires Ordered(run) && NeverCleared(run) && "anon:" <= key
    ensures LetThrough(run, key, from) == Admitted(Times(run, key), Limit(key), from)
  {
    if run != [] {
      var before, e := run[..|run| - 1], run[|run| - 1];
      assert run == before + [e];
      OrderedPrefix(run);
      AnonymousLetThrough(before, key, from);
      if Counts(e.r, key) {
        AnonymousVerdict(before, e, key);
        OneMorePost(Times(before, key), e.now, Limit(key), from);
      }
    }
  }

  /** The same request, sent at these times. */
  function PostsAt(r: Request, times: seq<int>): seq<Event> {
    seq(|times|, i requires 0 <= i < |times| => Event(r, times[i]))
  }

  predicate IsAnonymousPost(r: Request) {
    r.verb == "POST" && !SignedIn(r)
  }

  lemma {:induction false} OneKey(r: Request, times: seq<int>)
    requires IsAnonymousPost(r)
    ensures Posts(PostsAt(r, times)).Keys <= {AnonymousKey(r)}
    ensures Times(PostsAt(r, times), AnonymousKey(r)) == times
  {
    if times != [] {
      var init, run := times[..|times| - 1], PostsAt(r, times);
      assert run[..|run| - 1] == PostsAt(r, init);
      OneKey(r, init);
      assert times == init + [times[|times| - 1]];
    }
  }

  lemma {:induction false} OneKeyClearsNothing(posts: Windows, key: string, now: int)
    requires posts.Keys <= {key}
    ensures !Clears(posts, now)
  {
    SubsetSize(Swept(posts, now).Keys, {key});
  }

  /** One address's anonymous posts get through exactly as its history of times admits. */
  lemma {:induction false} OneAddress(r: Request, times: seq<int>, from: int)
    requires IsAnonymousPost(r) && InOrder(times)
    ensures Ordered(PostsAt(r, times)) && NeverCleared(PostsAt(r, times))
    ensures LetThrough(PostsAt(r, times), AnonymousKey(r), from) == Admitted(times, MAX_POSTS, from)
  {
    var run, key := PostsAt(r, times), AnonymousKey(r);
    forall i | 0 <= i < |run| ensures !Clears(Posts(run[..i]), run[i].now) {
      assert run[..i] == PostsAt(r, times[..i]);
      OneKey(r, times[..i]);
      OneKeyClearsNothing(Posts(run[..i]), key, run[i].now);
    }
    KeyFamilies(r, key);
    OneKey(r, times);
    AnonymousLetThrough(run, key, from);
  }

  /** 240 anonymous posts in order, of which 239 get through in the 60 seconds from time 1 on. */
  lemma {:induction false} MoreThanLimitInAMinute(r: Request)
    requires IsAnonymousPost(r)
    ensures var run := PostsAt(r, TwoBursts(MAX_POSTS));
            && |run| == 240 && Ordered(run) && NeverCleared(run) && run[0].now == 0
            && (forall i :: 1 <= i < |run| ==> 1 <= run[i].now <= 60_001)
            && LetThrough(run, AnonymousKey(r), 1) == 239
  {
    var times := TwoBursts(MAX_POSTS);
    TwoBurstsInOrder(MAX_POSTS);
    TwiceMaxLessOneReached(MAX_POSTS);
    OneAddress(r, times, 1);
    assert forall i :: 0 <= i < |times| ==> PostsAt(r, times)[i].now == times[i];
  }

  /**
   Over an address's anonymous requests: its limit holds for the 60 seconds
   from `from`, whenever it posts in them, exactly when the map then holds no
   live window for it or a full one.
   */
  lemma {:induction false} AddressLimitHoldsExactly(r: Request, before: seq<int>, from: int)
    requires IsAnonymousPost(r) && InOrder(before) && forall i :: 0 <= i < |before| ==> before[i] < from
    ensures var key := AnonymousKey(r);
            var w := Live(Get(Posts(PostsAt(r, before)), key), from);
            (forall later :: MinuteFrom(before, later, from) ==>
               LetThrough(PostsAt(r, before + later), key, from) <= MAX_POSTS)
            <==> w == None || w.value.n >= MAX_POSTS
  {
    var key := AnonymousKey(r);
    forall later | MinuteFrom(before, later, from)
      ensures LetThrough(PostsAt(r, before + later), key, from) == Admitted(before + later, MAX_POSTS, from)
    {
      OneAddress(r, before + later, from);
    }
    LimitHoldsExactly(before, MAX_POSTS, from);
    OneAddress(r, before, from);
    OneKey(r, before);
    SweepUnobservable(PostsAt(r, before), key, from);
  }

  // ----- a refusal is earned, clears or not

  function CountSince(times: seq<int>, from: int): nat {
    if times == [] then 0
    else CountSince(times[..|times| - 1], from) + if times[|times| - 1] >= from then 1 else 0
  }

  /** That is one for each post, by place, from that time on. */
  lemma {:induction false} CountSinceCounts(times: seq<int>, from: int)
    ensures CountSince(times, from) == |set i | 0 <= i < |times| && times[i] >= from|
  {
    if times != [] {
      var init, n := times[..|times| - 1], |times| - 1;
      CountSinceCounts(init, from);
      var all, before := set i | 0 <= i < |times| && times[i] >= from, set i | 0 <= i < |init| && init[i] >= from;
      assert all == before + if times[n] >= from then {n} else {};
    }
  }

  lemma {:induction false} CountSinceEarlier(times: seq<int>, from: int, earlier: int)
    requires earlier <= from
    ensures CountSince(times, earlier) >= CountSince(times, from)
  {
    if times != [] {
      CountSinceEarlier(times[..|times| - 1], from, earlier);
    }
  }

  /** A window never counts more posts than there were since it began. */
  lemma {:induction false} WindowsCountPosts(run: seq<Event>, key: string)
    requires Ordered(run) && key in Posts(run)
    ensures var w := Posts(run)[key];
            && 1 <= w.n <= CountSince(Times(run, key), w.start)
            && run != [] && w.start <= run[|run| - 1].now
  {
    var before, e := run[..|run| - 1], run[|run| - 1];
    OrderedPrefix(run);
    if key in Posts(before) {
      WindowsCountPosts(before, key);
    }
    if e.r.verb == "POST" {
      AfterGet(Posts(before), e.r, e.now, key);
    }
    var times := Times(run, key);
    assert Counts(e.r, key) ==> times[..|times| - 1] == Times(before, key);
  }

  /** The request counts under this key, which had its limit's worth of posts in the last 60 seconds. */
  predicate IsBusy(run: seq<Event>, e: Event, key: string) {
    Counts(e.r, key) && CountSince(Times(run, key), e.now - 60_000) >= Limit(key)
  }

  lemma {:induction false} RefusingKeyIsBusy(run: seq<Event>, key: string, max: nat, now: int)
    requires Ordered(run) && Refuses(Get(Prepared(Posts(run), now), key), max, now)
    ensures CountSince(Times(run, key), now - WINDOW_MS) >= max
  {
    var w := Prepared(Posts(run), now)[key];
    assert key in Posts(run) && Posts(run)[key] == w;
    WindowsCountPosts(run, key);
    CountSinceEarlier(Times(run, key), w.start, now - WINDOW_MS);
  }

  /**
   Clears or not, a post is refused only when one of its keys has its limit's worth of posts in the last 60
   seconds.
   */
  lemma {:induction false} RefusalIsEarned(run: seq<Event>, e: Event)
    requires Ordered(run) && TooMany(Posts(run), e.r, e.now)
    ensures exists key :: IsBusy(run, e, key)
  {
    var key :| RefusedUnder(Posts(run), e.r, e.now, key);
    RefusingKeyIsBusy(run, key, Limit(key), e.now);
    assert IsBusy(run, e, key);
  }

  // ----- when the clear can fire

  /** The keys posted under at or after `from`. */
  ghost function RecentKeys(run: seq<Event>, from: int): set<string> {
    if run == [] then {}
    else
      var e := run[|run| - 1];
      RecentKeys(run[..|run| - 1], from) +
      if e.now < from || e.r.verb != "POST" then {}
      else if SignedIn(e.r) then {AddressKey(e.r), PersonKey(e.r)}
      else {AnonymousKey(e.r)}
  }

  lemma {:induction false} CountedIsRecent(run: seq<Event>, key: string, from: int)
    requires CountSince(Times(run, key), from) >= 1
    ensures key in RecentKeys(run, from)
  {
    if run != [] {
      var before, e := run[..|run| - 1], run[|run| - 1];
      var times := Times(run, key);
      assert Counts(e.r, key) ==> times[..|times| - 1] == Times(before, key);
      if CountSince(Times(before, key), from) >= 1 {
        CountedIsRecent(before, key, from);
      }
    }
  }

  lemma {:induction false} SubsetSize<T>(a: set<T>, b: set<T>)
    requires a <= b
    ensures |a| <= |b|
  {
    if a != {} {
      var x :| x in a;
      SubsetSize(a - {x}, b - {x});
    }
  }

  /** Whatever a clear would drop is live: the sweep before it leaves nothing else. */
  lemma {:induction false} ClearedIsLive(posts: Windows, key: string, now: int)
    requires Clears(posts, now) && key in Swept(posts, now)
    ensures key in posts && !Expired(posts[key], now)
  {
  }

  lemma {:induction false} LiveIsRecent(run: seq<Event>, key: string, now: int)
    requires Ordered(run) && key in Posts(run) && !Expired(Posts(run)[key], now)
    ensures key in RecentKeys(run, now - WINDOW_MS)
  {
    WindowsCountPosts(run, key);
    CountSinceEarlier(Times(run, key), Posts(run)[key].start, now - WINDOW_MS);
    CountedIsRecent(run, key, now - WINDOW_MS);
  }

  /** The full clear fires only when more than 20,000 different keys were posted under in the last 60 seconds. */
  lemma {:induction false} ClearNeedsCrowd(run: seq<Event>, now: int)
    requires Ordered(run) && (run != [] ==> run[|run| - 1].now <= now)
    requires Clears(Posts(run), now)
    ensures |RecentKeys(run, now - WINDOW_MS)| > CLEAR_ABOVE
  {
    var live, recent := Swept(Posts(run), now).Keys, RecentKeys(run, now - WINDOW_MS);
    forall key | key in live ensures key in recent {
      ClearedIsLive(Posts(run), key, now);
      LiveIsRecent(run, key, now);
    }
    SubsetSize(live, recent);
  }
}
