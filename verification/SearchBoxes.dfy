/**
 Search-as-you-type boxes that keep a request counter and drop answers to
 superseded requests: apps/portal/components/SearchableSelect.tsx and
 apps/portal/components/GlobalSearch.tsx.

 In the first, a short query either offers default options or empties the box;
 in the second an empty query empties it and an aborted request is ignored.
 */
module SearchBoxes {
  import opened Wrappers

  /** `success` and `done` are Finished, `loading` and `busy` are Waiting. */
  datatype Status = Idle | Waiting | Finished | Failed

  datatype Box<R> = Box(latest: nat, results: seq<R>, status: Status, showingDefaults: bool)

  /**
   What the query effect does: empty the box, or ask for default options or
   search results. Which of these a text leads to makes no difference here.
   */
  datatype Query = Clear | Defaults | Search

  datatype Event<R> =
    | Asks(query: Query)
    | Answers(id: nat, results: seq<R>)
    | Fails(id: nat, aborted: bool)

  function Apply<R>(b: Box<R>, e: Event<R>): Box<R> {
    match e
    case Asks(Clear) => Box(b.latest + 1, [], Idle, false)
    case Asks(q) => Box(b.latest + 1, b.results, Waiting, q.Defaults?)
    case Answers(id, results) => if id == b.latest then b.(results := results, status := Finished) else b
    case Fails(id, aborted) => if id == b.latest && !aborted then b.(results := [], status := Failed) else b
  }

  class SearchBox<R> {
    var latest: nat
    var results: seq<R>
    var status: Status
    var showingDefaults: bool

    constructor ()
      ensures View() == Box(0, [], Idle, false)
    {
      latest, results, status, showingDefaults := 0, [], Idle, false;
    }

    ghost function View(): Box<R>
      reads this
    {
      Box(latest, results, status, showingDefaults)
    }

    /** The effect: every query, asked or not, supersedes the one before. */
    method Ask(query: Query) returns (id: nat)
      modifies this
      ensures View() == Apply(old(View()), Asks(query))
      ensures id == latest == old(latest) + 1
      ensures query == Clear ==> results == [] && status == Idle && !showingDefaults
      ensures query != Clear ==>
                results == old(results) && status == Waiting && (showingDefaults <==> query == Defaults)
    {
      latest := latest + 1;
      id := latest;
      if query.Clear? {
        results, status, showingDefaults := [], Idle, false;
        return;
      }
      status, showingDefaults := Waiting, query.Defaults?;
    }

    method Answer(id: nat, found: seq<R>)
      modifies this
      ensures View() == Apply(old(View()), Answers(id, found))
      ensures latest == old(latest) && showingDefaults == old(showingDefaults)
      ensures (results, status) == if id == latest then (found, Finished) else old((results, status))
    {
      if id != latest {
        return;
      }
      results, status := found, Finished;
    }

    method Fail(id: nat, aborted: bool)
      modifies this
      ensures View() == Apply(old(View()), Fails(id, aborted))
      ensures latest == old(latest) && showingDefaults == old(showingDefaults)
      ensures (results, status) == if id == latest && !aborted then ([], Failed) else old((results, status))
    {
      if !aborted && id == latest {
        results, status := [], Failed;
      }
    }
  }

  // ----- runs: requests are answered at most once, in any order

  function After<R>(events: seq<Event<R>>): Box<R> {
    if events == [] then Box(0, [], Idle, false)
    else Apply(After(events[..|events| - 1]), events[|events| - 1])
  }

  /** The requests sent and not yet settled. */
  function Pending<R>(events: seq<Event<R>>): set<nat> {
    if events == [] then {}
    else
      var before := events[..|events| - 1];
      match events[|events| - 1]
      case Asks(q) => if q.Clear? then Pending(before) else Pending(before) + {After(before).latest + 1}
      case Answers(id, _) => Pending(before) - {id}
      case Fails(id, _) => Pending(before) - {id}
  }

  ghost predicate Possible<R>(events: seq<Event<R>>) {
    events == [] ||
    (var before, e := events[..|events| - 1], events[|events| - 1];
     Possible(before) && (e.Answers? ==> e.id in Pending(before)) && (e.Fails? ==> e.id in Pending(before)))
  }

  /** How the request `id` was settled: the answer, if it has come. */
  function AnswerTo<R>(events: seq<Event<R>>, id: nat): Option<seq<R>> {
    if events == [] then None
    else
      var e := events[|events| - 1];
      if e.Answers? && e.id == id then Some(e.results) else AnswerTo(events[..|events| - 1], id)
  }

  /** The newest query asked, if any. */
  function LastQuery<R>(events: seq<Event<R>>): Option<Query> {
    if events == [] then None
    else if events[|events| - 1].Asks? then Some(events[|events| - 1].query)
    else LastQuery(events[..|events| - 1])
  }

  ghost predicate BoxInvariant<R>(events: seq<Event<R>>) {
    var b := After(events);
    && (forall id :: id in Pending(events) ==> 1 <= id <= b.latest)
    && (forall id :: id > b.latest ==> AnswerTo(events, id) == None)
    && (b.latest in Pending(events) ==> AnswerTo(events, b.latest) == None)
    && (b.status == Finished <==> AnswerTo(events, b.latest).Some?)
    && (b.status == Finished ==> Some(b.results) == AnswerTo(events, b.latest))
    && (b.status == Idle || b.status == Failed ==> b.results == [])
  }

  /** What failures have done to the box. */
  ghost predicate FailureInvariant<R>(events: seq<Event<R>>) {
    var b := After(events);
    && (forall id: nat, aborted :: Fails(id, aborted) in events ==> id <= b.latest && id !in Pending(events))
    && (b.status == Waiting <==> b.latest in Pending(events) || Fails(b.latest, true) in events)
    && (b.status == Failed <==> Fails(b.latest, false) in events)
    && (b.status == Idle <==> LastQuery(events) == None || LastQuery(events) == Some(Clear))
    && (b.showingDefaults <==> LastQuery(events) == Some(Defaults))
  }

  lemma {:induction false} RunKeepsInvariant<R>(events: seq<Event<R>>)
    requires Possible(events)
    ensures BoxInvariant(events)
  {
    if events != [] {
      var before, e, latest := events[..|events| - 1], events[|events| - 1], After(events).latest;
      RunKeepsInvariant(before);
      RunKeepsFailures(before);
      assert AnswerTo(events, latest)
             == if e.Answers? && e.id == latest then Some(e.results) else AnswerTo(before, latest);
    }
  }

  lemma {:induction false} RunKeepsFailures<R>(events: seq<Event<R>>)
    requires Possible(events)
    ensures FailureInvariant(events)
  {
    if events != [] {
      var before, e := events[..|events| - 1], events[|events| - 1];
      RunKeepsFailures(before);
      PendingBounds(before);
      assert events == before + [e];
      forall f: Event<R> ensures f in events <==> f in before || f == e {
      }
    }
  }

  lemma {:induction false} PendingBounds<R>(events: seq<Event<R>>)
    ensures forall id :: id in Pending(events) ==> 1 <= id <= After(events).latest
  {
    if events != [] {
      PendingBounds(events[..|events| - 1]);
    }
  }

  /**
   A box waits exactly as long as the newest request is neither answered nor
   failed, or was aborted; it says so exactly when that request failed; and it is
   idle exactly when nothing was asked or the newest query was cleared.
   */
  lemma {:induction false} WaitsForNewest<R>(events: seq<Event<R>>)
    requires Possible(events)
    ensures var b := After(events);
            && (b.status == Waiting <==> b.latest in Pending(events) || Fails(b.latest, true) in events)
            && (b.status == Failed <==> Fails(b.latest, false) in events)
            && (b.status == Idle <==> LastQuery(events) == None || LastQuery(events) == Some(Clear))
            && (b.showingDefaults <==> LastQuery(events) == Some(Defaults))
  {
    RunKeepsFailures(events);
  }

  /**
   A finished box shows the answer to the newest request, whatever order the answers came in; and it is finished
   once that answer is there.
   */
  lemma {:induction false} FinishedShowsNewest<R>(events: seq<Event<R>>)
    requires Possible(events)
    ensures var b := After(events);
            && (b.status == Finished <==> AnswerTo(events, b.latest).Some?)
            && (b.status == Finished ==> AnswerTo(events, b.latest) == Some(b.results))
  {
    RunKeepsInvariant(events);
  }

  /** Answers and failures of superseded or cleared queries: anything but the newest request's. */
  predicate Superseded<R>(e: Event<R>, latest: nat) {
    match e
    case Asks(_) => false
    case Answers(id, _) => id != latest
    case Fails(id, _) => id != latest
  }

  /** The run without the settlements that were superseded when they came. */
  function Effective<R>(events: seq<Event<R>>): seq<Event<R>> {
    if events == [] then []
    else
      var before, e := events[..|events| - 1], events[|events| - 1];
      if Superseded(e, After(before).latest) then Effective(before) else Effective(before) + [e]
  }

  /** Superseded settlements might as well never have come: the box is the same without them. */
  lemma {:induction false} SupersededChangeNothing<R>(events: seq<Event<R>>)
    ensures After(Effective(events)) == After(events)
  {
    if events != [] {
      var before, e := events[..|events| - 1], events[|events| - 1];
      SupersededChangeNothing(before);
      if !Superseded(e, After(before).latest) {
        assert (Effective(before) + [e])[..|Effective(before)|] == Effective(before);
      }
    }
  }
}
