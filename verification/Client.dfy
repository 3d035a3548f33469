/**
 The client as it runs: the application and its outstanding requests, driven by
 keys, responses, failures and polls (`run_loop`, `dispatch_action` and
 `handle_loop_msg` in `run.rs`).

 Whatever the client does is a run of the state machine `EventLoop`, so what is
 proved there holds for the application's own keys and responses.
 */
module ClientLoop {
  import opened Outcomes
  import opened Search
  import opened Activity
  import opened TuiApp
  import opened EventLoop
  import opened ActivityPaging

  /** `log` is the server's; the rest is the client's. */
  datatype Client = Client(
    app: AppState,
    log: seq<Event>,
    inFlight: set<Resource>,
    flights: map<nat, Flight>,
    nextId: nat)

  /** The lists a response brings; each resource uses its own. */
  datatype Lists = Lists(
    downloads: seq<Download>,
    sources: seq<Source>,
    profiles: seq<Profile>,
    settings: seq<SettingsRow>)

  datatype Happening =
    | KeyPressed(key: Key)
    | ResponseArrived(id: nat, lists: Lists)
    | RequestFailed(id: nat)
    | PollDue                         // or an action has finished
    | ServerLogs(more: seq<Event>)
    | ServerAnswers(id: nat, counted: nat)

  function Begun(rules: RowRules): Client {
    Client(Started(rules), [], {}, map[], 0)
  }

  /** What the event loop's state machine sees of the client. */
  function Loop(c: Client): State {
    State(c.log, c.app.tab, c.app.view, c.inFlight, c.flights, c.nextId)
  }

  /** The client with the requests and the log of `s`. */
  function Requesting(c: Client, s: State): Client {
    c.(log := s.log, inFlight := s.inFlight, flights := s.flights, nextId := s.nextId)
  }

  /** `dispatch_action`; other actions run in the background and end in a poll. */
  function Dispatched(c: Client, action: Option<Action>): Client {
    if action == Some(Refresh) then Requesting(c, SpawnRefresh(Loop(c)))
    else if action == Some(LoadMoreActivity) then
      Requesting(c, Add(Loop(c), NextPage(c.app.view.filter, |c.app.view.events|)))
    else c
  }

  function AfterKey(c: Client, key: Key): Client
    requires |c.app.queries| == 5
  {
    var (app, action) := OnKey(c.app, key);
    Dispatched(c.(app := app), action)
  }

  /** The application after a response. */
  function Updated(app: AppState, fl: Flight, lists: Lists): AppState
    requires |app.queries| == 5 && (IsActivity(fl.req) ==> fl.Answered?)
  {
    match fl.req
    case NextPage(f, _) => Handle(app, GotNextPage(f, fl.page))
    case Fetch(key, f) =>
      match key
      case StatusKey => app
      case DownloadsKey => Handle(app, GotDownloads(lists.downloads))
      case SourcesKey => Handle(app, GotSources(lists.sources))
      case ProfilesKey => Handle(app, GotProfiles(lists.profiles))
      case SettingsKey => Handle(app, GotSettings(lists.settings))
      case ActivityKey => Handle(app, GotFirstPage(f, fl.page))
  }

  /** `set_activity` has turned a first page away. */
  predicate Refused(app: AppState, fl: Flight)
    requires IsActivity(fl.req) ==> fl.Answered?
  {
    fl.req.Fetch? && fl.req.key == ActivityKey && !SetActivity(app.view, fl.req.filter, fl.page).1
  }

  /** `handle_loop_msg` with a response. */
  function AfterResponse(c: Client, id: nat, lists: Lists): Client
    requires |c.app.queries| == 5 && Enabled(Loop(c), Deliver(id))
  {
    var fl := c.flights[id];
    var updated := Requesting(c, Land(Loop(c), id)).(app := Updated(c.app, fl, lists));
    if Refused(c.app, fl) then Dispatched(updated, Some(Refresh)) else updated
  }

  /** ... and with an error. */
  function AfterError(c: Client, id: nat): Client
    requires |c.app.queries| == 5 && id in c.flights
  {
    var landed := Requesting(c, Land(Loop(c), id));
    if c.flights[id].req.NextPage? then landed.(app := Handle(c.app, NextPageFailed)) else landed
  }

  predicate CanHappen(c: Client, h: Happening) {
    match h
    case KeyPressed(_) => true
    case ResponseArrived(id, _) => Enabled(Loop(c), Deliver(id))
    case RequestFailed(id) => id in c.flights
    case PollDue => true
    case ServerLogs(more) => Enabled(Loop(c), Grow(more))
    case ServerAnswers(id, counted) => Enabled(Loop(c), Answer(id, counted))
  }

  function Next(c: Client, h: Happening): Client
    requires |c.app.queries| == 5 && CanHappen(c, h)
  {
    match h
    case KeyPressed(key) => AfterKey(c, key)
    case ResponseArrived(id, lists) => AfterResponse(c, id, lists)
    case RequestFailed(id) => AfterError(c, id)
    case PollDue => Dispatched(c, Some(Refresh))
    case ServerLogs(more) => Requesting(c, Apply(Loop(c), Grow(more)))
    case ServerAnswers(id, counted) => Requesting(c, Apply(Loop(c), Answer(id, counted)))
  }

  // ---------------------------------------------------------------- a key is a run of at most two steps

  /** The loop's steps for a change of the application from `a` to `b` that asks for `action`. */
  function StepsOf(a: AppState, b: AppState, action: Option<Action>): seq<Step> {
    if b.tab != a.tab then [ShowTab(b.tab)]
    else if b.view.filter != a.view.filter then [Filtered(b.view.filter)]
    else if action == Some(Refresh) then [RefreshAll]
    else
      (if b.view.selected.Some? && b.view.selected != a.view.selected then [MoveTo(b.view.selected.value)] else [])
      + (if action == Some(LoadMoreActivity) then [AskMore] else [])
  }

  /** The selection may have moved on the activity tab, and the next page may be asked for. */
  predicate Moved(a: AppState, b: AppState, action: Option<Action>) {
    && b.tab == a.tab
    && (b.view.selected != a.view.selected ==>
          a.tab == ActivityLog && b.view.selected.Some? && b.view.selected.value < |a.view.events|)
    && var moved := a.view.(selected := b.view.selected);
       if action == Some(LoadMoreActivity) then
         a.tab == ActivityLog && WantsMore(moved) && b.view == moved.(paging := Loading)
       else action == None && b.view == moved
  }

  /** The four ways a key can change what the loop sees. */
  predicate Explained(a: AppState, b: AppState, action: Option<Action>) {
    || (b.tab != a.tab && b.view == a.view && action == Some(Refresh))
    || (b.tab == a.tab == ActivityLog && b.view.filter != a.view.filter
        && b.view == ApplySearch(a.view, b.view.filter) && action == Some(Refresh))
    || (b.tab == a.tab && b.view == a.view && action != Some(LoadMoreActivity))
    || Moved(a, b, action)
  }

  lemma RunsOne(s: State, step: Step)
    requires Enabled(s, step)
    ensures Legal(s, [step]) && Run(s, [step]) == Apply(s, step)
  {
    assert [step][1..] == [];
    assert Legal(Apply(s, step), []);
  }

  lemma RunsTwo(s: State, first: Step, second: Step)
    requires Enabled(s, first) && Enabled(Apply(s, first), second)
    ensures Legal(s, [first, second]) && Run(s, [first, second]) == Apply(Apply(s, first), second)
  {
    RunsOne(Apply(s, first), second);
    assert [first, second][1..] == [second];
  }

  lemma MovedIsRun(c: Client, b: AppState, action: Option<Action>)
    requires Moved(c.app, b, action)
    ensures var steps := StepsOf(c.app, b, action);
            Legal(Loop(c), steps) && Run(Loop(c), steps) == Loop(Dispatched(c.(app := b), action))
  {
    var s := Loop(c);
    var moves, asks := b.view.selected != c.app.view.selected, action == Some(LoadMoreActivity);
    if moves && asks {
      RunsTwo(s, MoveTo(b.view.selected.value), AskMore);
      assert [MoveTo(b.view.selected.value)] + [AskMore] == [MoveTo(b.view.selected.value), AskMore];
    } else if moves {
      RunsOne(s, MoveTo(b.view.selected.value));
    } else if asks {
      RunsOne(s, AskMore);
    }
  }

  lemma ExplainedIsRun(c: Client, b: AppState, action: Option<Action>)
    requires Explained(c.app, b, action)
    ensures var steps := StepsOf(c.app, b, action);
            && |steps| <= 2 && Legal(Loop(c), steps) && Run(Loop(c), steps) == Loop(Dispatched(c.(app := b), action))
  {
    if Moved(c.app, b, action) {
      MovedIsRun(c, b, action);
    } else if b.tab != c.app.tab {
      RunsOne(Loop(c), ShowTab(b.tab));
    } else if b.view.filter != c.app.view.filter {
      RunsOne(Loop(c), Filtered(b.view.filter));
    } else if action == Some(Refresh) {
      RunsOne(Loop(c), RefreshAll);
    }
  }

  lemma WrapIsMove(a: AppState, down: bool)
    requires a.Valid()
    ensures Moved(a, Wrap(a, down), None)
  {
    assert InRange(a.Row(ActivityLog), a.RowCount(ActivityLog));
  }

  lemma LoadMoreIsMove(a: AppState, b: AppState)
    requires Moved(a, b, None)
    ensures Moved(a, LoadMore(b).0, LoadMore(b).1)
  {}

  lemma MovesAreExplained(a: AppState)
    requires a.Valid()
    ensures Moved(a, MovedDown(a).0, MovedDown(a).1) && Moved(a, MovedUp(a).0, MovedUp(a).1)
  {
    WrapIsMove(a, true);
    WrapIsMove(a, false);
    LoadMoreIsMove(a, a);
    LoadMoreIsMove(a, Wrap(a, true));
    LoadMoreIsMove(a, Wrap(a, false));
  }

  lemma JumpsAreExplained(a: AppState)
    requires a.Valid()
    ensures Moved(a, AtTop(a), None) && Moved(a, AtEnd(a).0, AtEnd(a).1)
  {
    LoadMoreIsMove(a, a);
    if a.RowCount(a.tab) > 0 {
      LoadMoreIsMove(a, a.Select(Some(a.RowCount(a.tab) - 1)));
    }
  }

  lemma EditsAreExplained(a: AppState, query: string)
    requires a.Valid()
    ensures Edited(a, query).tab == a.tab && Edited(a, query).view == a.view
    ensures Explained(a, Searched(a).0, Searched(a).1)
  {}

  lemma ClearIsExplained(a: AppState)
    requires a.Valid()
    ensures Explained(a, Cleared(a).0, Cleared(a).1)
  {
    var closed := a.(input := Normal);
    ModeKeepsValid(a, a.tab, Normal, a.shouldQuit);
    EditsAreExplained(closed, "");
    EditedKeepsValid(closed, "");
    EditsAreExplained(Edited(closed, ""), "");
  }

  lemma {:induction false} SearchKeyIsExplained(a: AppState, key: Key)
    requires a.Valid()
    ensures var (b, action) := SearchKey(a, key); Explained(a, b, action)
  {
    var query := a.queries[Index(a.tab)];
    var closed := a.(input := Normal);
    ModeKeepsValid(a, a.tab, Normal, a.shouldQuit);
    match key
    case Esc => ClearIsExplained(a);
    case Enter => EditsAreExplained(closed, "");
    case Down => MovesAreExplained(a);
    case Up => MovesAreExplained(a);
    case Backspace =>
      if query == "" { EditsAreExplained(closed, ""); } else { EditsAreExplained(a, query[..|query| - 1]); }
    case Char(c, ctrl) =>
      EditsAreExplained(a, query + [c]);
      EditsAreExplained(a, "");
    case _ =>
  }

  lemma CharIsExplained(a: AppState, c: char, ctrl: bool)
    requires a.Valid()
    ensures var (b, action) := NormalKey(a, Char(c, ctrl)); Explained(a, b, action)
  {
    if c == 'j' || c == 'k' {
      MovesAreExplained(a);
    } else if c == 'g' || c == 'G' {
      JumpsAreExplained(a);
    }
  }

  lemma NormalKeyIsExplained(a: AppState, key: Key)
    requires a.Valid()
    ensures var (b, action) := NormalKey(a, key); Explained(a, b, action)
  {
    match key
    case Char(c, ctrl) => CharIsExplained(a, c, ctrl);
    case Esc => ClearIsExplained(a);
    case Down => MovesAreExplained(a);
    case Up => MovesAreExplained(a);
    case Home => JumpsAreExplained(a);
    case Bottom => JumpsAreExplained(a);
    case _ =>
  }

  lemma {:induction false} KeyIsExplained(a: AppState, key: Key)
    requires a.Valid()
    ensures Explained(a, OnKey(a, key).0, OnKey(a, key).1)
  {
    if a.input == Typing {
      SearchKeyIsExplained(a, key);
    } else {
      NormalKeyIsExplained(a, key);
    }
  }

  /** The steps of the loop for one key. */
  function KeySteps(a: AppState, key: Key): seq<Step>
    requires |a.queries| == 5
  {
    StepsOf(a, OnKey(a, key).0, OnKey(a, key).1)
  }

  /** Any key in any valid state, with the action it asks for, is a legal run of at most two steps. */
  lemma {:induction false} KeyIsRun(c: Client, key: Key)
    requires c.app.Valid()
    ensures var steps := KeySteps(c.app, key);
            && |steps| <= 2 && Legal(Loop(c), steps) && Run(Loop(c), steps) == Loop(AfterKey(c, key))
            && AfterKey(c, key).app.Valid()
  {
    var (b, action) := OnKey(c.app, key);
    KeyIsExplained(c.app, key);
    ExplainedIsRun(c, b, action);
    HandleKeepsValid(c.app, Pressed(key));
  }

  // ---------------------------------------------------------------- so is everything else

  /** A response that is no activity page updates a list that the loop does not see. */
  lemma {:induction false} ListIsUnseen(app: AppState, fl: Flight, lists: Lists)
    requires app.Valid() && !IsActivity(fl.req)
    ensures var r := Updated(app, fl, lists); r.Valid() && r.tab == app.tab && r.view == app.view
  {
    match fl.req.key
    case StatusKey =>
    case DownloadsKey => HandleKeepsValid(app, GotDownloads(lists.downloads));
    case SourcesKey => HandleKeepsValid(app, GotSources(lists.sources));
    case ProfilesKey => HandleKeepsValid(app, GotProfiles(lists.profiles));
    case SettingsKey => HandleKeepsValid(app, GotSettings(lists.settings));
  }

  lemma {:induction false} PageIsSeen(app: AppState, fl: Flight, lists: Lists)
    requires app.Valid() && IsActivity(fl.req) && fl.Answered?
    ensures var view := if fl.req.NextPage? then AppendActivity(app.view, fl.req.filter, fl.page)
                        else SetActivity(app.view, fl.req.filter, fl.page).0;
            Updated(app, fl, lists) == app.(view := view) && Updated(app, fl, lists).Valid()
  {
    PageKeepsValid(app, fl.req.filter, fl.page);
  }

  lemma {:induction false} ResponseIsStep(c: Client, id: nat, lists: Lists)
    requires c.app.Valid() && Enabled(Loop(c), Deliver(id))
    ensures Loop(AfterResponse(c, id, lists)) == Apply(Loop(c), Deliver(id)) && AfterResponse(c, id, lists).app.Valid()
  {
    if IsActivity(c.flights[id].req) {
      PageIsSeen(c.app, c.flights[id], lists);
    } else {
      ListIsUnseen(c.app, c.flights[id], lists);
    }
  }

  /** The steps of the loop for one happening. */
  function Steps(c: Client, h: Happening): seq<Step>
    requires |c.app.queries| == 5
  {
    match h
    case KeyPressed(key) => KeySteps(c.app, key)
    case ResponseArrived(id, _) => [Deliver(id)]
    case RequestFailed(id) => [Fail(id)]
    case PollDue => [RefreshAll]
    case ServerLogs(more) => [Grow(more)]
    case ServerAnswers(id, counted) => [Answer(id, counted)]
  }

  lemma {:induction false} HappeningIsRun(c: Client, h: Happening)
    requires c.app.Valid() && CanHappen(c, h)
    ensures Legal(Loop(c), Steps(c, h)) && Run(Loop(c), Steps(c, h)) == Loop(Next(c, h)) && Next(c, h).app.Valid()
  {
    match h
    case KeyPressed(key) => KeyIsRun(c, key);
    case ResponseArrived(id, lists) =>
      ResponseIsStep(c, id, lists);
      RunsOne(Loop(c), Deliver(id));
    case RequestFailed(id) =>
      HandleKeepsValid(c.app, NextPageFailed);
      RunsOne(Loop(c), Fail(id));
    case PollDue => RunsOne(Loop(c), RefreshAll);
    case ServerLogs(more) => RunsOne(Loop(c), Grow(more));
    case ServerAnswers(id, counted) => RunsOne(Loop(c), Answer(id, counted));
  }

  ghost predicate History(c: Client, hs: seq<Happening>)
    requires c.app.Valid()
    decreases |hs|
  {
    hs == [] || (CanHappen(c, hs[0]) && (HappeningIsRun(c, hs[0]); History(Next(c, hs[0]), hs[1..])))
  }

  ghost function After(c: Client, hs: seq<Happening>): Client
    requires c.app.Valid() && History(c, hs)
    decreases |hs|
  {
    if hs == [] then c
    else
      HappeningIsRun(c, hs[0]);
      After(Next(c, hs[0]), hs[1..])
  }

  /** The loop's steps over a whole history. */
  ghost function Trace(c: Client, hs: seq<Happening>): seq<Step>
    requires c.app.Valid() && History(c, hs)
    decreases |hs|
  {
    if hs == [] then []
    else
      HappeningIsRun(c, hs[0]);
      Steps(c, hs[0]) + Trace(Next(c, hs[0]), hs[1..])
  }

  lemma {:induction false} RunsAppend(s: State, a: seq<Step>, b: seq<Step>)
    requires Legal(s, a) && Legal(Run(s, a), b)
    ensures Legal(s, a + b) && Run(s, a + b) == Run(Run(s, a), b)
    decreases |a|
  {
    if a == [] {
      assert a + b == b;
    } else {
      assert (a + b)[1..] == a[1..] + b;
      RunsAppend(Apply(s, a[0]), a[1..], b);
    }
  }

  /** Every history of the client, keys and responses interleaved at will, is a run of the loop. */
  lemma {:induction false} HistoriesAreRuns(c: Client, hs: seq<Happening>)
    requires c.app.Valid() && History(c, hs)
    ensures Legal(Loop(c), Trace(c, hs)) && Run(Loop(c), Trace(c, hs)) == Loop(After(c, hs)) && After(c, hs).app.Valid()
    decreases |hs|
  {
    if hs != [] {
      HappeningIsRun(c, hs[0]);
      var c1 := Next(c, hs[0]);
      HistoriesAreRuns(c1, hs[1..]);
      RunsAppend(Loop(c), Steps(c, hs[0]), Trace(c1, hs[1..]));
    }
  }

  // ---------------------------------------------------------------- what the user sees

  lemma BegunIsValid(rules: RowRules)
    ensures Begun(rules).app.Valid() && Loop(Begun(rules)) == START
  {}

  /**
   In every history of the client: the requests are those of `in_flight`, one per
   resource; every selection is a visible row; every listed event is in the
   server's log and matches the filter in force.
   */
  lemma ClientIsSound(rules: RowRules, hs: seq<Happening>)
    requires Begun(rules).app.Valid() && History(Begun(rules), hs)
    ensures var c := After(Begun(rules), hs);
            && c.app.Valid() && Disciplined(Loop(c)) && Sound(Loop(c))
            && forall e | e in c.app.view.events :: e in c.log && MatchesFilter(c.app.view.filter, e)
  {
    var trace, c := Trace(Begun(rules), hs), After(Begun(rules), hs);
    BegunIsValid(rules);
    HistoriesAreRuns(Begun(rules), hs);
    RunsAreSound(START, trace);
    forall e | e in c.app.view.events { ListedEventsMatchFilter(trace, e); }
  }

  /**
   ... and if its trace is calm, the user sees one newest-first run of the
   matching events without gaps or duplicates, down to the oldest one when a
   non-empty list says that it has ended.
   */
  lemma ClientListsAreContiguous(rules: RowRules, hs: seq<Happening>)
    requires Begun(rules).app.Valid() && History(Begun(rules), hs)
    requires Legal(START, Trace(Begun(rules), hs)) && CalmRun(START, Trace(Begun(rules), hs))
    ensures var c := After(Begun(rules), hs); var view := c.app.view; var matching := Matching(view.filter, c.log);
            && Contiguous(matching, view.events) && DistinctIds(view.events)
            && (view.paging == End && view.events != [] ==>
                  matching != [] && view.events[|view.events| - 1] == matching[0])
  {
    BegunIsValid(rules);
    HistoriesAreRuns(Begun(rules), hs);
    RunsAreSound(START, Trace(Begun(rules), hs));
    CalmListsAreContiguous(Trace(Begun(rules), hs));
  }

  // ---------------------------------------------------------------- exactly when it stays contiguous

  /** The activity tab shows one newest-first run of the matching events. */
  ghost predicate ShowsRun(c: Client) {
    Contiguous(Matching(c.app.view.filter, c.log), c.app.view.events)
  }

  /** A response that is appended continues the list. */
  ghost predicate Continuing(c: Client, h: Happening)
    requires CanHappen(c, h)
  {
    h.ResponseArrived? && AppendsPage(Loop(c), Deliver(h.id)) ==> Continues(Loop(c), h.id)
  }

  lemma {:induction false} ExplainedKeepsRun(c: Client, b: AppState, action: Option<Action>)
    requires Explained(c.app, b, action) && ShowsRun(c)
    ensures ShowsRun(c.(app := b))
  {
    if b.view.filter != c.app.view.filter {
      assert b.view.events == Newest(Matching(b.view.filter, c.log), 0, 0);
    } else {
      assert b.view.events == c.app.view.events;
    }
  }

  lemma {:induction false} KeyKeepsRun(c: Client, key: Key)
    requires c.app.Valid() && ShowsRun(c)
    ensures ShowsRun(AfterKey(c, key))
  {
    KeyIsExplained(c.app, key);
    ExplainedKeepsRun(c, OnKey(c.app, key).0, OnKey(c.app, key).1);
    assert AfterKey(c, key).app == OnKey(c.app, key).0 && AfterKey(c, key).log == c.log;
  }

  lemma {:induction false} HappeningKeepsRunIff(c: Client, h: Happening)
    requires c.app.Valid() && Sound(Loop(c)) && CanHappen(c, h) && ShowsRun(c)
    ensures ShowsRun(Next(c, h)) <==> Continuing(c, h)
  {
    match h
    case KeyPressed(key) => KeyKeepsRun(c, key);
    case ResponseArrived(id, lists) =>
      ResponseIsStep(c, id, lists);
      StepKeepsContiguousIff(Loop(c), Deliver(id));
    case RequestFailed(id) => StepKeepsContiguousIff(Loop(c), Fail(id));
    case PollDue => StepKeepsContiguousIff(Loop(c), RefreshAll);
    case ServerLogs(more) => StepKeepsContiguousIff(Loop(c), Grow(more));
    case ServerAnswers(id, counted) => StepKeepsContiguousIff(Loop(c), Answer(id, counted));
  }

  ghost predicate AlwaysShowsRun(c: Client, hs: seq<Happening>)
    requires c.app.Valid() && History(c, hs)
    decreases |hs|
  {
    && ShowsRun(c)
    && (hs != [] ==> (HappeningIsRun(c, hs[0]); AlwaysShowsRun(Next(c, hs[0]), hs[1..])))
  }

  ghost predicate AllContinue(c: Client, hs: seq<Happening>)
    requires c.app.Valid() && History(c, hs)
    decreases |hs|
  {
    hs != [] ==> Continuing(c, hs[0]) && (HappeningIsRun(c, hs[0]); AllContinue(Next(c, hs[0]), hs[1..]))
  }

  lemma {:induction false} ShowsRunIff(c: Client, hs: seq<Happening>)
    requires c.app.Valid() && Sound(Loop(c)) && Disciplined(Loop(c)) && History(c, hs) && ShowsRun(c)
    ensures AlwaysShowsRun(c, hs) <==> AllContinue(c, hs)
    decreases |hs|
  {
    if hs != [] {
      HappeningIsRun(c, hs[0]);
      RunsAreSound(Loop(c), Steps(c, hs[0]));
      HappeningKeepsRunIff(c, hs[0]);
      if ShowsRun(Next(c, hs[0])) {
        ShowsRunIff(Next(c, hs[0]), hs[1..]);
      }
    }
  }

  /**
   For every history of the client: the user always sees one gap-free run of the
   matching events if and only if every next page that is appended begins inside
   the list or right after its end.
   */
  lemma ClientShowsRunIff(rules: RowRules, hs: seq<Happening>)
    requires Begun(rules).app.Valid() && History(Begun(rules), hs)
    ensures AlwaysShowsRun(Begun(rules), hs) <==> AllContinue(Begun(rules), hs)
  {
    BegunIsValid(rules);
    assert Begun(rules).app.view.events == Newest(Matching(NO_FILTER, []), 0, 0);
    ShowsRunIff(Begun(rules), hs);
  }
}
