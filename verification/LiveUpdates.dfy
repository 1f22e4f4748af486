/**
 The live-update refs of apps/portal/components/NotificationProvider.tsx: the
 remembered server pulse, the time of the last summary load, the guard of the
 regular check and the timer of push pings.

 The server's pulse changes with every change and never returns to an earlier
 value, so it is modelled by a counter. An answer to a check may be as old as
 the moment the check was sent. Times are milliseconds.
 */
module LiveUpdates {
  import opened Wrappers

  const MIN_LOAD_GAP_MS := 30_000
  const PING_GAP_MS := 2000
  const PING_WAIT_MS := 300

  /** What a pulse request returns: signed out, unreachable (the empty pulse), or a pulse. */
  datatype Answer = SignedOut | Unreachable | Pulse(version: nat)

  datatype Refs = Refs(pulse: Option<nat>, lastLoad: int, busy: bool, pingTimer: Option<int>)

  // ----- the callbacks, on the refs

  function CheckBegins(r: Refs, visible: bool): Refs {
    if r.busy || !visible then r else r.(busy := true)
  }

  /** Does this answer make the check load? */
  predicate CheckLoads(r: Refs, answer: Answer, now: int) {
    answer.Pulse? && r.pulse.Some? && Some(answer.version) != r.pulse && now - r.lastLoad >= MIN_LOAD_GAP_MS
  }

  function CheckAnswered(r: Refs, answer: Answer, now: int): Refs {
    if CheckLoads(r, answer, now) then r.(pulse := Some(answer.version), lastLoad := now)
    else if answer.Pulse? && r.pulse == None then r.(pulse := Some(answer.version), busy := false)
    else r.(busy := false)
  }

  function CheckLoaded(r: Refs): Refs {
    r.(busy := false)
  }

  function Load(r: Refs, now: int): Refs {
    r.(lastLoad := now)
  }

  function PingArrives(r: Refs, now: int): Refs {
    if r.pingTimer.Some? then r
    else
      var gap := PING_GAP_MS - (now - r.lastLoad);
      r.(pingTimer := Some(now + if gap > PING_WAIT_MS then gap else PING_WAIT_MS))
  }

  function TimerFires(r: Refs, now: int, visible: bool): Refs {
    if visible then Load(r.(pingTimer := None), now) else r.(pingTimer := None)
  }

  class Provider {
    var pulse: Option<nat>
    var lastLoad: int
    var busy: bool
    var pingTimer: Option<int>

    constructor ()
      ensures View() == Refs(None, 0, false, None)
    {
      pulse, lastLoad, busy, pingTimer := None, 0, false, None;
    }

    ghost function View(): Refs
      reads this
    {
      Refs(pulse, lastLoad, busy, pingTimer)
    }

    /** `check`, up to sending the request. */
    method BeginCheck(visible: bool) returns (asks: bool)
      modifies this
      ensures View() == CheckBegins(old(View()), visible)
      ensures asks == (!old(busy) && visible)
    {
      if busy || !visible {
        return false;
      }
      busy := true;
      return true;
    }

    /** `check`, from the answer on; when it loads, `busy` stays set until the load ends. */
    method AnswerCheck(answer: Answer, now: int) returns (loads: bool)
      modifies this
      ensures View() == CheckAnswered(old(View()), answer, now)
      ensures loads == CheckLoads(old(View()), answer, now)
    {
      if !answer.Pulse? {
        busy := false;
        return false;
      }
      if pulse == None {
        pulse := Some(answer.version);
      } else if Some(answer.version) != pulse && now - lastLoad >= MIN_LOAD_GAP_MS {
        pulse := Some(answer.version);
        lastLoad := now;
        return true;
      }
      busy := false;
      return false;
    }

    method EndCheckLoad()
      modifies this
      ensures View() == CheckLoaded(old(View()))
    {
      busy := false;
    }

    /** `load`, as far as the refs go. */
    method BeginLoad(now: int)
      modifies this
      ensures View() == Load(old(View()), now)
    {
      lastLoad := now;
    }

    /**
     A ping's load comes 0.3 to 2 seconds after it, and at least 2 seconds after the last load; later pings share
     it.
     */
    method OnPing(now: int)
      modifies this
      ensures View() == PingArrives(old(View()), now)
      ensures old(pingTimer).Some? ==> pingTimer == old(pingTimer)
      ensures old(pingTimer) == None ==>
                pingTimer == Some(if now - lastLoad < 1700 then lastLoad + 2000 else now + 300)
      ensures old(pingTimer) == None ==>
                && pingTimer.Some? && now + PING_WAIT_MS <= pingTimer.value && lastLoad + PING_GAP_MS <= pingTimer.value
                && (lastLoad <= now ==> pingTimer.value <= now + PING_GAP_MS)
    {
      if pingTimer.Some? {
        return;
      }
      var wait := PING_GAP_MS - (now - lastLoad);
      if wait < PING_WAIT_MS {
        wait := PING_WAIT_MS;
      }
      pingTimer := Some(now + wait);
    }

    method OnPingTimer(now: int, visible: bool)
      modifies this
      ensures View() == TimerFires(old(View()), now, visible)
    {
      pingTimer := None;
      if visible {
        BeginLoad(now);
      }
    }
  }

  // ----- all interleavings

  datatype Phase = Idle | Asking(sent: nat) | CheckLoading

  /**
   `server` is the current pulse; `covered` the pulse when the last load
   started (loads return at least that); `first` what the first successful
   check remembered.
   */
  datatype State = State(refs: Refs, phase: Phase, now: int, server: nat, covered: nat, first: Option<nat>)

  datatype Event =
    | Tick(ms: nat)
    | ServerChanges
    | Check(visible: bool)
    | Answered(answer: Answer)
    | CheckLoadEnds
    | OtherLoad
    | Ping
    | PingTimer(visible: bool)

  ghost predicate Enabled(s: State, e: Event) {
    match e
    case Answered(answer) => s.phase.Asking? && (answer.Pulse? ==> s.phase.sent <= answer.version <= s.server)
    case CheckLoadEnds => s.phase.CheckLoading?
    case PingTimer(_) => s.refs.pingTimer.Some? && s.refs.pingTimer.value <= s.now
    case _ => true
  }

  predicate StartsLoad(s: State, e: Event) {
    match e
    case Answered(answer) => CheckLoads(s.refs, answer, s.now)
    case OtherLoad => true
    case PingTimer(visible) => visible
    case _ => false
  }

  function Apply(s: State, e: Event): State {
    var t := if StartsLoad(s, e) then s.(covered := s.server) else s;
    match e
    case Tick(ms) => t.(now := s.now + ms)
    case ServerChanges => t.(server := s.server + 1)
    case Check(visible) =>
      t.(refs := CheckBegins(s.refs, visible), phase := if s.refs.busy || !visible then s.phase else Asking(s.server))
    case Answered(answer) =>
      t.(refs := CheckAnswered(s.refs, answer, s.now),
         phase := if CheckLoads(s.refs, answer, s.now) then CheckLoading else Idle,
         first := if s.refs.pulse == None && answer.Pulse? then Some(answer.version) else s.first)
    case CheckLoadEnds => t.(refs := CheckLoaded(s.refs), phase := Idle)
    case OtherLoad => t.(refs := Load(s.refs, s.now))
    case Ping => t.(refs := PingArrives(s.refs, s.now))
    case PingTimer(visible) => t.(refs := TimerFires(s.refs, s.now, visible))
  }

  /** Mounting: nothing remembered, nothing loaded. */
  function Initial(now: int, server: nat): State {
    State(Refs(None, 0, false, None), Idle, now, server, 0, None)
  }

  function After(s: State, events: seq<Event>): State {
    if events == [] then s else Apply(After(s, events[..|events| - 1]), events[|events| - 1])
  }

  ghost predicate Possible(s: State, events: seq<Event>) {
    events == [] ||
    (Possible(s, events[..|events| - 1]) && Enabled(After(s, events[..|events| - 1]), events[|events| - 1]))
  }

  ghost predicate Invariant(s: State) {
    && (s.refs.busy <==> !s.phase.Idle?)
    && s.covered <= s.server && s.refs.lastLoad <= s.now
    && (s.first.Some? <==> s.refs.pulse.Some?)
    && (s.phase.Asking? ==> s.phase.sent <= s.server)
    && (s.refs.pulse.Some? ==>
          && s.first.value <= s.refs.pulse.value <= s.server
          && (s.phase.Asking? ==> s.refs.pulse.value <= s.phase.sent)
          && (s.refs.pulse == s.first || s.refs.pulse.value <= s.covered))
  }

  lemma {:induction false} StepKeepsInvariant(s: State, e: Event)
    requires Invariant(s) && Enabled(s, e)
    ensures Invariant(Apply(s, e))
  {
  }

  lemma {:induction false} RunKeepsInvariant(now: int, server: nat, events: seq<Event>)
    requires now >= 0 && Possible(Initial(now, server), events)
    ensures Invariant(After(Initial(now, server), events))
  {
    if events != [] {
      var before := events[..|events| - 1];
      RunKeepsInvariant(now, server, before);
      StepKeepsInvariant(After(Initial(now, server), before), events[|events| - 1]);
    }
  }

  /**
   What each step does to the refs, in numbers: a load starts when anything
   else asks for one, when a ping's timer fires on a visible page, and when a
   check finds a pulse other than the remembered one 30 seconds or more after
   the last load.
   */
  lemma {:induction false} StepInNumbers(s: State, e: Event)
    requires Invariant(s) && Enabled(s, e)
    ensures var r, t := s.refs, Apply(s, e).refs;
            && (StartsLoad(s, e) <==>
                  || e == OtherLoad || e == PingTimer(true)
                  || (e.Answered? && e.answer.Pulse? && r.pulse.Some? && e.answer.version != r.pulse.value
                      && s.now >= r.lastLoad + 30_000))
            && (t.lastLoad, Apply(s, e).covered) == (if StartsLoad(s, e) then (s.now, s.server)
                                                     else (r.lastLoad, s.covered))
            && t.pulse == (if e.Answered? && e.answer.Pulse? && (r.pulse == None || StartsLoad(s, e))
                           then Some(e.answer.version) else r.pulse)
            && t.pingTimer == (if e.PingTimer? then None
                               else if e != Ping || r.pingTimer.Some? then r.pingTimer
                               else Some(if s.now - r.lastLoad < 1700 then r.lastLoad + 2000 else s.now + 300))
            && t.busy == (if e.Check? then r.busy || e.visible
                          else if e.Answered? then StartsLoad(s, e)
                          else e != CheckLoadEnds && r.busy)
  {
  }

  /** A step that overwrites a remembered pulse starts a load in the same step. */
  lemma {:induction false} OverwriteStartsLoad(s: State, e: Event)
    requires s.refs.pulse.Some? && Apply(s, e).refs.pulse != s.refs.pulse
    ensures e.Answered? && StartsLoad(s, e)
    ensures var t := Apply(s, e); t.refs.lastLoad == s.now && t.covered == s.server
  {
  }

  // ----- the gap between loads

  /** The i-th step of a run starts a load at this time. */
  ghost predicate LoadsAt(s: State, events: seq<Event>, i: int, time: int) {
    0 <= i < |events| && StartsLoad(After(s, events[..i]), events[i]) && After(s, events[..i]).now == time
  }

  /** From its step on, the last load is no older than this one. */
  lemma {:induction false} LoadRemembered(now: int, server: nat, events: seq<Event>, i: int, time: int)
    requires now >= 0 && Possible(Initial(now, server), events)
    requires LoadsAt(Initial(now, server), events, i, time)
    ensures After(Initial(now, server), events).refs.lastLoad >= time
    decreases |events|
  {
    var before := events[..|events| - 1];
    RunKeepsInvariant(now, server, before);
    if i < |before| {
      assert before[..i] == events[..i];
      LoadRemembered(now, server, before, i, time);
    }
  }

  lemma {:induction false} PossibleBefore(s: State, events: seq<Event>, n: nat)
    requires Possible(s, events) && n <= |events|
    ensures Possible(s, events[..n]) && (n < |events| ==> Enabled(After(s, events[..n]), events[n]))
    decreases |events|
  {
    if n < |events| - 1 {
      assert events[..|events| - 1][..n] == events[..n];
      PossibleBefore(s, events[..|events| - 1], n);
    } else if n == |events| {
      assert events[..n] == events;
    }
  }

  /**
   Over every run, a load a check starts begins 30 seconds or more after any load before it, whatever started that.
   */
  lemma {:induction false} CheckLoadsKeepGap(now: int, server: nat, events: seq<Event>, i: int, earlier: int, j: int,
                                             later: int)
    requires now >= 0 && Possible(Initial(now, server), events)
    requires i < j && LoadsAt(Initial(now, server), events, i, earlier)
             && LoadsAt(Initial(now, server), events, j, later)
    requires events[j].Answered?
    ensures later - earlier >= 30_000
  {
    var s0 := Initial(now, server);
    PossibleBefore(s0, events, j);
    assert events[..j][..i] == events[..i];
    LoadRemembered(now, server, events[..j], i, earlier);
  }

  /** The remembered pulse that the j-th step of a run finds is replaced by another. */
  ghost predicate OverwritesAt(s: State, events: seq<Event>, j: int) {
    && 0 <= j < |events|
    && After(s, events[..j]).refs.pulse.Some?
    && After(s, events[..j + 1]).refs.pulse != After(s, events[..j]).refs.pulse
  }

  /**
   Over every run, a remembered pulse is overwritten only by a step that starts
   a load then and there, 30 seconds or more after any load before it.
   */
  lemma {:induction false} OverwritesLoad(now: int, server: nat, events: seq<Event>, j: int)
    requires now >= 0 && Possible(Initial(now, server), events) && OverwritesAt(Initial(now, server), events, j)
    ensures var s0, later := Initial(now, server), After(Initial(now, server), events[..j]).now;
            && LoadsAt(s0, events, j, later)
            && forall i, earlier :: i < j && LoadsAt(s0, events, i, earlier) ==> later - earlier >= MIN_LOAD_GAP_MS
  {
    var s0, later := Initial(now, server), After(Initial(now, server), events[..j]).now;
    assert events[..j + 1][..j] == events[..j];
    OverwriteStartsLoad(After(s0, events[..j]), events[j]);
    forall i, earlier | i < j && LoadsAt(s0, events, i, earlier) ensures later - earlier >= MIN_LOAD_GAP_MS {
      CheckLoadsKeepGap(now, server, events, i, earlier, j, later);
    }
  }

  // ----- which changes stay pending

  /** The server's present pulse is remembered though no load covers it: later checks see nothing new. */
  ghost predicate Hidden(s: State) {
    s.refs.pulse == Some(s.server) && s.covered < s.server
  }

  /**
   Over every run, a change no load has covered is unlike the remembered pulse unless it is the one the first check
   saw.
   */
  lemma {:induction false} UncoveredStaysPending(now: int, server: nat, events: seq<Event>)
    requires now >= 0 && Possible(Initial(now, server), events)
    ensures var s := After(Initial(now, server), events);
            s.refs.pulse.Some? && s.covered < s.server ==>
              (s.refs.pulse == Some(s.server) <==> s.first == Some(s.server))
  {
    RunKeepsInvariant(now, server, events);
  }

  /**
   The first answer hides a change exactly when the server has moved past the last load, and no further since
   answering.
   */
  lemma {:induction false} FirstAnswerHides(s: State, version: nat)
    requires Invariant(s) && s.refs.pulse == None && Enabled(s, Answered(Pulse(version)))
    ensures Hidden(Apply(s, Answered(Pulse(version)))) <==> s.covered < s.server && version == s.server
  {
  }

  /** And if it hides nothing, no change is hidden in any run from there. */
  lemma {:induction false} NothingHiddenLater(s: State, events: seq<Event>)
    requires Invariant(s) && s.refs.pulse.Some? && !Hidden(s) && Possible(s, events)
    ensures var t := After(s, events); Invariant(t) && t.refs.pulse.Some? && !Hidden(t)
  {
    if events != [] {
      var before := events[..|events| - 1];
      NothingHiddenLater(s, before);
      StepKeepsInvariant(After(s, before), events[|events| - 1]);
    }
  }

  /**
   Once 30 seconds have passed since the last load, the next effective check loads a change exactly when it is not
   hidden.
   */
  lemma {:induction false} NextCheckLoads(now: int, server: nat, events: seq<Event>)
    requires now >= 0 && Possible(Initial(now, server), events)
    requires var s := After(Initial(now, server), events);
             && s.refs.pulse.Some? && s.covered < s.server
             && !s.refs.busy && s.now - s.refs.lastLoad >= 30_000
    ensures var s := After(Initial(now, server), events);
            var t := After(s, [Check(true), Answered(Pulse(s.server))]);
            && Possible(s, [Check(true), Answered(Pulse(s.server))])
            && (t.covered == s.server <==> s.first != Some(s.server))
            && (t.covered == s.server ==> t.refs.pulse == Some(s.server) && t.refs.lastLoad == s.now)
  {
    var s := After(Initial(now, server), events);
    UncoveredStaysPending(now, server, events);
    RunKeepsInvariant(now, server, events);
    var both := [Check(true), Answered(Pulse(s.server))];
    assert both[..1] == [Check(true)] && both[..1][..0] == [];
    assert Possible(s, []) && Possible(s, [Check(true)]);
    assert After(s, [Check(true)]) == Apply(s, Check(true));
  }

  /** A run whose first check hides a change. */
  lemma {:induction false} FirstCheckCanHideAChange(now: int)
    requires now >= 0
    ensures var events := [OtherLoad, ServerChanges, Check(true), Answered(Pulse(1))];
            Possible(Initial(now, 0), events) && Hidden(After(Initial(now, 0), events))
  {
    var events := [OtherLoad, ServerChanges, Check(true), Answered(Pulse(1))];
    var s0 := Initial(now, 0);
    assert events[..1] == [OtherLoad] && events[..1][..0] == [];
    assert events[..2] == [OtherLoad, ServerChanges] && events[..2][..1] == events[..1];
    assert events[..3][..2] == events[..2];
    assert Possible(s0, []) && Possible(s0, events[..1]) && Possible(s0, events[..2]);
    assert After(s0, events[..2]).server == 1;
    assert Possible(s0, events[..3]);
    assert After(s0, events[..3]).phase == Asking(1);
  }
}
