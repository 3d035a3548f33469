/**
 The event loop and the server as one state machine (`run.rs`): background
 fetches answered out of order over a log that keeps growing, deduplicated per
 resource by `in_flight`, and merged into the activity list.
 */
module EventLoop {
  import opened Outcomes
  import opened Search
  import opened Activity
  import opened TuiApp

  /** The keys of `in_flight`. A next activity page is requested without a key. */
  datatype Resource = StatusKey | DownloadsKey | SourcesKey | ProfilesKey | ActivityKey | SettingsKey

  datatype Request = Fetch(key: Resource, filter: ActivityFilter) | NextPage(filter: ActivityFilter, offset: nat)

  /**
   A request on its way. An activity page is computed once, on the log of that
   moment; `seen` records how many events matched the filter then.
   */
  datatype Flight = Asked(req: Request) | Answered(req: Request, page: Response, seen: nat)

  datatype State = State(
    log: seq<Event>,
    tab: Tab,
    view: View,
    inFlight: set<Resource>,
    flights: map<nat, Flight>,
    nextId: nat)

  const START := State([], Downloads, EMPTY_VIEW, {}, map[], 0)

  datatype Step =
    | Grow(more: seq<Event>)          // the server logs events
    | RefreshAll                      // a poll, F5, or a finished action
    | ShowTab(tab: Tab)
    | MoveTo(row: nat)                // the selection moves on the activity tab
    | AskMore                         // ... and reaches the bottom
    | Filtered(filter: ActivityFilter)  // a changed activity query is sent
    | Answer(id: nat, counted: nat)   // the server computes a page
    | Deliver(id: nat)                // the response reaches the loop
    | Fail(id: nat)                   // ... or an error does

  predicate IsActivity(r: Request) {
    r.NextPage? || r.key == ActivityKey
  }

  function Offset(r: Request): nat {
    if r.NextPage? then r.offset else 0
  }

  function Add(s: State, r: Request): State {
    s.(flights := s.flights[s.nextId := Asked(r)], nextId := s.nextId + 1)
  }

  /** One guarded fetch of `spawn_refresh`. */
  function Spawn(s: State, key: Resource): State {
    if key in s.inFlight then s else Add(s.(inFlight := s.inFlight + {key}), Fetch(key, s.view.filter))
  }

  function SpawnRefresh(s: State): State {
    var s := Spawn(s, StatusKey);
    match s.tab
    case Downloads => Spawn(s, DownloadsKey)
    case Sources => Spawn(Spawn(s, SourcesKey), ProfilesKey)
    case Profiles => Spawn(s, ProfilesKey)
    case Settings => Spawn(s, SettingsKey)
    case ActivityLog => Spawn(s, ActivityKey)
  }

  /** The response or error has been received: its flight and its key are gone. */
  function Land(s: State, id: nat): State
    requires id in s.flights
  {
    var r := s.flights[id].req;
    s.(flights := s.flights - {id}, inFlight := if r.Fetch? then s.inFlight - {r.key} else s.inFlight)
  }

  predicate Enabled(s: State, step: Step) {
    match step
    case Grow(more) => DistinctIds(s.log + more)
    case RefreshAll => true
    case ShowTab(_) => true
    case MoveTo(row) => s.tab == ActivityLog && row < |s.view.events|
    case AskMore => s.tab == ActivityLog && WantsMore(s.view)
    case Filtered(f) => s.tab == ActivityLog && f != s.view.filter
    case Answer(id, counted) =>
      && id in s.flights && s.flights[id].Asked? && IsActivity(s.flights[id].req)
      && counted >= |Matching(s.flights[id].req.filter, s.log)|
    case Deliver(id) => id in s.flights && (IsActivity(s.flights[id].req) ==> s.flights[id].Answered?)
    case Fail(id) => id in s.flights
  }

  function Apply(s: State, step: Step): State
    requires Enabled(s, step)
  {
    match step
    case Grow(more) => s.(log := s.log + more)
    case RefreshAll => SpawnRefresh(s)
    case ShowTab(t) => SpawnRefresh(s.(tab := t))
    case MoveTo(row) => s.(view := s.view.(selected := Some(row)))
    case AskMore => Add(s.(view := s.view.(paging := Loading)), NextPage(s.view.filter, |s.view.events|))
    case Filtered(f) => SpawnRefresh(s.(view := ApplySearch(s.view, f)))
    case Answer(id, counted) =>
      var r := s.flights[id].req;
      var log := Matching(r.filter, s.log);
      s.(flights := s.flights[id := Answered(r, ActivityPage(log, ACTIVITY_PAGE, Offset(r), counted), |log|)])
    case Deliver(id) => Receive(Land(s, id), s.flights[id])
    case Fail(id) =>
      var landed := Land(s, id);
      if s.flights[id].req.NextPage? then landed.(view := landed.view.(paging := Idle)) else landed
  }

  /** What `handle_loop_msg` does with a response, once its key has been released. */
  function Receive(s: State, fl: Flight): State
    requires IsActivity(fl.req) ==> fl.Answered?
  {
    if fl.req.NextPage? then s.(view := AppendActivity(s.view, fl.req.filter, fl.page))
    else if fl.req.key == ActivityKey then
      var (view, current) := SetActivity(s.view, fl.req.filter, fl.page);
      // The refetch for a changed search was deduplicated against this request.
      if current then s.(view := view) else SpawnRefresh(s)
    else s
  }

  ghost predicate Legal(s: State, steps: seq<Step>)
    decreases |steps|
  {
    steps == [] || (Enabled(s, steps[0]) && Legal(Apply(s, steps[0]), steps[1..]))
  }

  ghost function Run(s: State, steps: seq<Step>): State
    requires Legal(s, steps)
    decreases |steps|
  {
    if steps == [] then s else Run(Apply(s, steps[0]), steps[1..])
  }

  // ---------------------------------------------------------------- one request per resource

  ghost predicate Carries(s: State, id: nat, key: Resource) {
    id in s.flights && s.flights[id].req.Fetch? && s.flights[id].req.key == key
  }

  /** `in_flight` is exactly the set of outstanding keyed fetches, one flight per key. */
  ghost predicate Disciplined(s: State) {
    && (forall id | id in s.flights :: id < s.nextId)
    && (forall id, key | Carries(s, id, key) :: key in s.inFlight)
    && (forall key | key in s.inFlight :: exists id :: Carries(s, id, key))
    && (forall i, j, key | Carries(s, i, key) && Carries(s, j, key) :: i == j)
  }

  lemma AddKeepsDiscipline(s: State, key: Resource)
    requires Disciplined(s)
    ensures Disciplined(Spawn(s, key))
  {
    if key !in s.inFlight {
      var s' := Spawn(s, key);
      assert Carries(s', s.nextId, key);
      forall k | k in s'.inFlight && k != key
        ensures exists id :: Carries(s', id, k)
      {
        var id :| Carries(s, id, k);
        assert Carries(s', id, k);
      }
      assert forall id, k | Carries(s', id, k) :: if id == s.nextId then k == key else Carries(s, id, k);
    }
  }

  lemma SpawnRefreshKeepsDiscipline(s: State)
    requires Disciplined(s)
    ensures Disciplined(SpawnRefresh(s))
  {
    AddKeepsDiscipline(s, StatusKey);
    var s := Spawn(s, StatusKey);
    match s.tab
    case Downloads => AddKeepsDiscipline(s, DownloadsKey);
    case Sources =>
      AddKeepsDiscipline(s, SourcesKey);
      AddKeepsDiscipline(Spawn(s, SourcesKey), ProfilesKey);
    case Profiles => AddKeepsDiscipline(s, ProfilesKey);
    case Settings => AddKeepsDiscipline(s, SettingsKey);
    case ActivityLog => AddKeepsDiscipline(s, ActivityKey);
  }

  lemma LandKeepsDiscipline(s: State, id: nat)
    requires Disciplined(s) && id in s.flights
    ensures Disciplined(Land(s, id))
  {
    var s' := Land(s, id);
    forall key | key in s'.inFlight
      ensures exists i :: Carries(s', i, key)
    {
      var i :| Carries(s, i, key);
      assert Carries(s', i, key);
    }
    forall i, key | Carries(s', i, key)
      ensures Carries(s, i, key) && key in s'.inFlight
    {
      assert Carries(s, i, key) && i != id;
      if s.flights[id].req.Fetch? {
        assert Carries(s, id, s.flights[id].req.key);
      }
    }
  }

  /** Same flights, keys and requests: nothing the discipline speaks of changed. */
  lemma SameFlightsKeepDiscipline(s: State, s': State)
    requires Disciplined(s) && s'.inFlight == s.inFlight && s'.nextId == s.nextId
    requires s'.flights.Keys == s.flights.Keys && forall id | id in s.flights :: s'.flights[id].req == s.flights[id].req
    ensures Disciplined(s')
  {
    forall key | key in s'.inFlight
      ensures exists id :: Carries(s', id, key)
    {
      var id :| Carries(s, id, key);
      assert Carries(s', id, key);
    }
    assert forall id, key | Carries(s', id, key) :: Carries(s, id, key);
  }

  lemma NextPageKeepsDiscipline(s: State, r: Request)
    requires Disciplined(s) && r.NextPage?
    ensures Disciplined(Add(s, r))
  {
    var s' := Add(s, r);
    forall key | key in s'.inFlight
      ensures exists id :: Carries(s', id, key)
    {
      var id :| Carries(s, id, key);
      assert Carries(s', id, key);
    }
    assert forall id, key | Carries(s', id, key) :: Carries(s, id, key);
  }

  lemma StepKeepsDiscipline(s: State, step: Step)
    requires Disciplined(s) && Enabled(s, step)
    ensures Disciplined(Apply(s, step))
  {
    match step
    case Grow(more) => SameFlightsKeepDiscipline(s, Apply(s, step));
    case RefreshAll => SpawnRefreshKeepsDiscipline(s);
    case ShowTab(t) =>
      SameFlightsKeepDiscipline(s, s.(tab := t));
      SpawnRefreshKeepsDiscipline(s.(tab := t));
    case MoveTo(row) => SameFlightsKeepDiscipline(s, Apply(s, step));
    case AskMore =>
      var loading := s.(view := s.view.(paging := Loading));
      SameFlightsKeepDiscipline(s, loading);
      NextPageKeepsDiscipline(loading, NextPage(s.view.filter, |s.view.events|));
    case Filtered(f) =>
      SameFlightsKeepDiscipline(s, s.(view := ApplySearch(s.view, f)));
      SpawnRefreshKeepsDiscipline(s.(view := ApplySearch(s.view, f)));
    case Answer(id, counted) => SameFlightsKeepDiscipline(s, Apply(s, step));
    case Deliver(id) =>
      LandKeepsDiscipline(s, id);
      SpawnRefreshKeepsDiscipline(Land(s, id));
      if Apply(s, step) != SpawnRefresh(Land(s, id)) {
        SameFlightsKeepDiscipline(Land(s, id), Apply(s, step));
      }
    case Fail(id) =>
      LandKeepsDiscipline(s, id);
      SameFlightsKeepDiscipline(Land(s, id), Apply(s, step));
  }

  /** Every run of the loop keeps `in_flight` equal to the outstanding keyed fetches. */
  lemma {:induction false} RunsAreDisciplined(s: State, steps: seq<Step>)
    requires Disciplined(s) && Legal(s, steps)
    ensures Disciplined(Run(s, steps))
    decreases |steps|
  {
    if steps != [] {
      StepKeepsDiscipline(s, steps[0]);
      RunsAreDisciplined(Apply(s, steps[0]), steps[1..]);
    }
  }

  // ---------------------------------------------------------------- late responses

  /** A response to a request for the filter in force. */
  predicate IsCurrent(s: State, id: nat) {
    id in s.flights && IsActivity(s.flights[id].req) && s.flights[id].req.filter == s.view.filter
  }

  /** Steps that are neither the user's nor the arrival of a response for the filter in force. */
  predicate Late(s: State, step: Step) {
    match step
    case Deliver(id) => !IsCurrent(s, id)
    case MoveTo(_) => false
    case Filtered(_) => false
    case _ => true
  }

  ghost predicate LateRun(s: State, steps: seq<Step>)
    requires Legal(s, steps)
    decreases |steps|
  {
    steps == [] || (Late(s, steps[0]) && LateRun(Apply(s, steps[0]), steps[1..]))
  }

  lemma LateStepChangesNothing(s: State, step: Step)
    requires Enabled(s, step) && Late(s, step)
    ensures Apply(s, step).view == s.view.(paging := Apply(s, step).view.paging)
  {}

  /** Through any number of late responses, failures and polls the list, its total and the selection stay. */
  lemma {:induction false} LateResponsesChangeNothing(s: State, steps: seq<Step>)
    requires Legal(s, steps) && LateRun(s, steps)
    ensures var view := Run(s, steps).view; view == s.view.(paging := view.paging)
    decreases |steps|
  {
    if steps != [] {
      LateStepChangesNothing(s, steps[0]);
      LateResponsesChangeNothing(Apply(s, steps[0]), steps[1..]);
    }
  }

  /** Steps after a search that neither leave the tab or the filter nor answer the search, or fail to. */
  predicate Unanswered(s: State, step: Step) {
    match step
    case ShowTab(_) => false
    case Filtered(_) => false
    case Deliver(id) => IsCurrent(s, id) ==> s.flights[id].req.NextPage?
    case Fail(id) => id in s.flights && s.flights[id].req.Fetch? ==> s.flights[id].req.key != ActivityKey
    case _ => true
  }

  ghost predicate UnansweredRun(s: State, steps: seq<Step>)
    requires Legal(s, steps)
    decreases |steps|
  {
    steps == [] || (Unanswered(s, steps[0]) && UnansweredRun(Apply(s, steps[0]), steps[1..]))
  }

  lemma UnansweredStep(s: State, step: Step)
    requires Enabled(s, step) && Unanswered(s, step) && s.tab == ActivityLog && ActivityKey in s.inFlight
    ensures Apply(s, step).tab == ActivityLog && ActivityKey in Apply(s, step).inFlight
  {}

  /**
   A search is never forgotten. Its first page may not be asked for at once,
   because a request for the old filter is still in flight; but until the new
   filter's first page has arrived, an activity request is always outstanding.
   */
  lemma SearchStaysAsked(s: State, f: ActivityFilter, steps: seq<Step>)
    requires Disciplined(s) && Enabled(s, Filtered(f))
    requires Legal(Apply(s, Filtered(f)), steps) && UnansweredRun(Apply(s, Filtered(f)), steps)
    ensures exists id :: Carries(Run(Apply(s, Filtered(f)), steps), id, ActivityKey)
  {
    var s1 := Apply(s, Filtered(f));
    StepKeepsDiscipline(s, Filtered(f));
    RunsAreDisciplined(s1, steps);
    KeyStays(s1, steps);
  }

  lemma {:induction false} KeyStays(s: State, steps: seq<Step>)
    requires Legal(s, steps) && UnansweredRun(s, steps) && s.tab == ActivityLog && ActivityKey in s.inFlight
    ensures ActivityKey in Run(s, steps).inFlight
    decreases |steps|
  {
    if steps != [] {
      UnansweredStep(s, steps[0]);
      KeyStays(Apply(s, steps[0]), steps[1..]);
    }
  }
}
