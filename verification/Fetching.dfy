/**
 What the client fetches and shows (`spawn_refresh` and `handle_loop_msg` in
 `run.rs`): a refresh asks for exactly what the shown tab needs and is not already
 on its way, each fetch stays outstanding until its own answer, and each list
 shown is the one delivered last.
 */
module ClientFetching {
  import opened Outcomes
  import opened Activity
  import opened TuiApp
  import opened EventLoop
  import opened ActivityPaging
  import opened ClientLoop

  // ---------------------------------------------------------------- what a refresh asks for

  /** The lists that each tab shows. The sources' rows name their profiles. */
  ghost function Shown(tab: Tab): set<Resource> {
    match tab
    case Downloads => {DownloadsKey}
    case Sources => {SourcesKey, ProfilesKey}
    case Profiles => {ProfilesKey}
    case ActivityLog => {ActivityKey}
    case Settings => {SettingsKey}
  }

  /** A request for the resource is outstanding. */
  ghost predicate Outstanding(s: State, key: Resource) {
    exists id :: Carries(s, id, key)
  }

  /** A new flight asks, for the filter in force, for one of `asked` that was not on its way. */
  ghost predicate NewAsk(s: State, s': State, asked: set<Resource>, id: nat)
    requires id in s'.flights
  {
    var fl := s'.flights[id];
    fl.Asked? && fl.req.Fetch? && fl.req.key in asked && fl.req.key !in s.inFlight && fl.req.filter == s.view.filter
  }

  /** From `s` to `s'` the resources `asked` were requested if they were not on their way, and nothing else changed. */
  ghost predicate AsksExactly(s: State, s': State, asked: set<Resource>) {
    && s' == s.(inFlight := s.inFlight + asked, flights := s'.flights, nextId := s'.nextId)
    && (forall id | id in s.flights :: id in s'.flights && s'.flights[id] == s.flights[id])
    && (forall id | id in s'.flights && id !in s.flights :: NewAsk(s, s', asked, id))
  }

  ghost predicate Bounded(s: State) {
    forall id | id in s.flights :: id < s.nextId
  }

  lemma {:induction false} SpawnAsks(s: State, s1: State, asked: set<Resource>, key: Resource)
    requires Bounded(s1) && AsksExactly(s, s1, asked) && key !in asked
    ensures AsksExactly(s, Spawn(s1, key), asked + {key}) && Bounded(Spawn(s1, key))
  {
    var s2 := Spawn(s1, key);
    assert s2.inFlight == s.inFlight + (asked + {key});
    forall id | id in s2.flights && id !in s.flights
      ensures NewAsk(s, s2, asked + {key}, id)
    {
      if id in s1.flights {
        assert NewAsk(s, s1, asked, id) && s2.flights[id] == s1.flights[id];
      }
    }
  }

  lemma {:induction false} AsksOneMore(s: State, key: Resource)
    requires Bounded(s) && key != StatusKey
    ensures AsksExactly(s, Spawn(Spawn(s, StatusKey), key), {StatusKey, key})
    ensures Bounded(Spawn(Spawn(s, StatusKey), key))
  {
    assert s.inFlight + {} == s.inFlight && {} + {StatusKey} == {StatusKey} && {StatusKey} + {key} == {StatusKey, key};
    SpawnAsks(s, s, {}, StatusKey);
    SpawnAsks(s, Spawn(s, StatusKey), {StatusKey}, key);
  }

  lemma {:induction false} AsksTwoMore(s: State)
    requires Bounded(s)
    ensures AsksExactly(s, Spawn(Spawn(Spawn(s, StatusKey), SourcesKey), ProfilesKey),
                        {StatusKey, SourcesKey, ProfilesKey})
  {
    AsksOneMore(s, SourcesKey);
    SpawnAsks(s, Spawn(Spawn(s, StatusKey), SourcesKey), {StatusKey, SourcesKey}, ProfilesKey);
    assert {StatusKey, SourcesKey} + {ProfilesKey} == {StatusKey, SourcesKey, ProfilesKey};
  }

  lemma {:induction false} RefreshAsks(s: State, tab: Tab)
    requires Bounded(s) && s.tab == tab
    ensures AsksExactly(s, SpawnRefresh(s), {StatusKey} + Shown(tab))
  {
    match tab
    case Downloads => AsksOneMore(s, DownloadsKey); assert {StatusKey} + {DownloadsKey} == {StatusKey, DownloadsKey};
    case Sources =>
      AsksTwoMore(s);
      assert {StatusKey} + {SourcesKey, ProfilesKey} == {StatusKey, SourcesKey, ProfilesKey};
    case Profiles => AsksOneMore(s, ProfilesKey); assert {StatusKey} + {ProfilesKey} == {StatusKey, ProfilesKey};
    case Settings => AsksOneMore(s, SettingsKey); assert {StatusKey} + {SettingsKey} == {StatusKey, SettingsKey};
    case ActivityLog => AsksOneMore(s, ActivityKey); assert {StatusKey} + {ActivityKey} == {StatusKey, ActivityKey};
  }

  /**
   A refresh asks for the status and what the shown tab shows, unless it is on its
   way, and for nothing else; afterwards each of them has exactly one request
   outstanding.
   */
  lemma {:induction false} RefreshAsksExactly(s: State)
    requires Disciplined(s)
    ensures var s' := SpawnRefresh(s); var asked := {StatusKey} + Shown(s.tab);
            && AsksExactly(s, s', asked) && Disciplined(s')
            && (forall key | key in asked :: Outstanding(s', key))
            && (forall i, j, key | Carries(s', i, key) && Carries(s', j, key) :: i == j)
  {
    RefreshAsks(s, s.tab);
    SpawnRefreshKeepsDiscipline(s);
  }

  // ---------------------------------------------------------------- when the client refreshes

  /** A poll, F5, or a key that shows another tab or another choice of downloads. */
  predicate Refreshes(a: AppState, h: Happening) {
    || h == PollDue
    || (h.KeyPressed? && a.input == Normal &&
        (|| h.key in {F5, NextTabKey, PrevTabKey}
         || (h.key.Char? && '1' <= h.key.c <= '5' && h.key.c as int - '1' as int != Index(a.tab))
         || (h.key.Char? && h.key.c == 'f' && a.tab == Downloads)))
  }

  lemma {:induction false} KeyRefreshes(a: AppState, key: Key)
    requires |a.queries| == 5 && Refreshes(a, KeyPressed(key))
    ensures OnKey(a, key) == (a.(tab := OnKey(a, key).0.tab), Some(Refresh))
  {}

  /** Its effect on the loop: the tab it shows, refreshed. */
  lemma {:induction false} RefreshesTab(c: Client, h: Happening)
    requires |c.app.queries| == 5 && Refreshes(c.app, h)
    ensures CanHappen(c, h)
    ensures var c' := Next(c, h);
            c'.app == c.app.(tab := c'.app.tab) && Loop(c') == SpawnRefresh(Loop(c).(tab := c'.app.tab))
  {
    match h
    case KeyPressed(key) => KeyRefreshes(c.app, key);
    case PollDue =>
  }

  /**
   After it, every resource of the tab shown then is outstanding, and the status;
   the requests added are those of them that were not on their way.
   */
  lemma {:induction false} ShownIsAsked(c: Client, h: Happening)
    requires c.app.Valid() && Disciplined(Loop(c)) && Refreshes(c.app, h)
    ensures CanHappen(c, h)
    ensures var c' := Next(c, h); var asked := {StatusKey} + Shown(c'.app.tab);
            && AsksExactly(Loop(c).(tab := c'.app.tab), Loop(c'), asked)
            && c'.app == c.app.(tab := c'.app.tab)
            && (forall key | key in asked :: Outstanding(Loop(c'), key))
  {
    RefreshesTab(c, h);
    var shown := Loop(c).(tab := Next(c, h).app.tab);
    SameFlightsKeepDiscipline(Loop(c), shown);
    RefreshAsksExactly(shown);
  }

  // ---------------------------------------------------------------- until its own answer

  /** The flight `id` has arrived or failed in none of the happenings. */
  predicate NotLanded(hs: seq<Happening>, id: nat) {
    forall h | h in hs :: !(h.ResponseArrived? && h.id == id) && !(h.RequestFailed? && h.id == id)
  }

  predicate Lands(step: Step, id: nat) {
    (step.Deliver? || step.Fail?) && step.id == id
  }

  lemma {:induction false} StepKeepsFlight(s: State, step: Step, id: nat, key: Resource)
    requires Disciplined(s) && Enabled(s, step) && !Lands(step, id) && Carries(s, id, key)
    ensures Carries(Apply(s, step), id, key)
  {
    match step
    case RefreshAll => SpawnRefreshOnlyAsks(s);
    case ShowTab(t) =>
      SameFlightsKeepDiscipline(s, s.(tab := t));
      SpawnRefreshOnlyAsks(s.(tab := t));
    case Filtered(f) =>
      SameFlightsKeepDiscipline(s, s.(view := ApplySearch(s.view, f)));
      SpawnRefreshOnlyAsks(s.(view := ApplySearch(s.view, f)));
    case Deliver(i) =>
      LandKeepsDiscipline(s, i);
      SpawnRefreshOnlyAsks(Land(s, i));
    case _ =>
  }

  lemma {:induction false} RunKeepsFlight(s: State, steps: seq<Step>, id: nat, key: Resource)
    requires Disciplined(s) && Legal(s, steps) && Carries(s, id, key)
    requires forall i | 0 <= i < |steps| :: !Lands(steps[i], id)
    ensures Carries(Run(s, steps), id, key)
    decreases |steps|
  {
    if steps != [] {
      StepKeepsFlight(s, steps[0], id, key);
      StepKeepsDiscipline(s, steps[0]);
      RunKeepsFlight(Apply(s, steps[0]), steps[1..], id, key);
    }
  }

  /** In every history a fetch stays outstanding, under its key, until its own response or failure. */
  lemma {:induction false} FetchStaysOutstanding(c: Client, hs: seq<Happening>, id: nat, key: Resource)
    requires c.app.Valid() && Disciplined(Loop(c)) && History(c, hs)
    requires Carries(Loop(c), id, key) && NotLanded(hs, id)
    ensures Carries(Loop(After(c, hs)), id, key) && key in After(c, hs).inFlight
    decreases |hs|
  {
    if hs != [] {
      var h := hs[0];
      HappeningIsRun(c, h);
      RunKeepsFlight(Loop(c), Steps(c, h), id, key);
      RunsAreDisciplined(Loop(c), Steps(c, h));
      assert forall x | x in hs[1..] :: x in hs;
      FetchStaysOutstanding(Next(c, h), hs[1..], id, key);
    }
  }

  /**
   Whatever happened before a refresh and happens after it: each resource of the
   tab shown has a request that stays outstanding until that request is answered
   or fails.
   */
  lemma {:induction false} ShownStaysAsked(rules: RowRules, before: seq<Happening>, h: Happening, key: Resource)
    returns (id: nat)
    requires Begun(rules).app.Valid() && History(Begun(rules), before)
    requires var c := After(Begun(rules), before);
             c.app.Valid() && Refreshes(c.app, h) && CanHappen(c, h) && key in {StatusKey} + Shown(Next(c, h).app.tab)
    ensures var c := Next(After(Begun(rules), before), h);
            && c.app.Valid() && Carries(Loop(c), id, key)
            && forall after | History(c, after) && NotLanded(after, id) :: Carries(Loop(After(c, after)), id, key)
  {
    var c0 := After(Begun(rules), before);
    var c := Next(c0, h);
    ClientIsSound(rules, before);
    ShownIsAsked(c0, h);
    HappeningIsRun(c0, h);
    RunsAreDisciplined(Loop(c0), Steps(c0, h));
    id :| Carries(Loop(c), id, key);
    forall after | History(c, after) && NotLanded(after, id)
      ensures Carries(Loop(After(c, after)), id, key)
    {
      FetchStaysOutstanding(c, after, id, key);
    }
  }

  // ---------------------------------------------------------------- what is shown

  /** The lists of the last response for `key` in a history. */
  ghost function LastDelivered(c: Client, hs: seq<Happening>, key: Resource): Option<Lists>
    requires c.app.Valid() && History(c, hs)
    decreases |hs|
  {
    if hs == [] then None
    else
      HappeningIsRun(c, hs[0]);
      var later := LastDelivered(Next(c, hs[0]), hs[1..], key);
      if later.Some? then later
      else if hs[0].ResponseArrived? && Carries(Loop(c), hs[0].id, key) then Some(hs[0].lists)
      else None
  }

  /** Only its own response replaces a list. */
  ghost predicate Replaces(c: Client, h: Happening, key: Resource) {
    h.ResponseArrived? && Carries(Loop(c), h.id, key)
  }

  lemma {:induction false} ResponseShows(a: AppState, fl: Flight, lists: Lists)
    requires |a.queries| == 5 && (IsActivity(fl.req) ==> fl.Answered?)
    ensures var b := Updated(a, fl, lists); var key := if fl.req.Fetch? then fl.req.key else StatusKey;
            && b.downloads == (if key == DownloadsKey then lists.downloads else a.downloads)
            && b.sources == (if key == SourcesKey then lists.sources else a.sources)
            && b.profiles == (if key == ProfilesKey then lists.profiles else a.profiles)
            && b.settings == (if key == SettingsKey then Some(lists.settings) else a.settings)
  {}

  lemma {:induction false} HappeningShows(c: Client, h: Happening)
    requires c.app.Valid() && CanHappen(c, h)
    ensures var a, b := c.app, Next(c, h).app;
            && b.downloads == (if Replaces(c, h, DownloadsKey) then h.lists.downloads else a.downloads)
            && b.sources == (if Replaces(c, h, SourcesKey) then h.lists.sources else a.sources)
            && b.profiles == (if Replaces(c, h, ProfilesKey) then h.lists.profiles else a.profiles)
            && b.settings == (if Replaces(c, h, SettingsKey) then Some(h.lists.settings) else a.settings)
  {
    if h.ResponseArrived? {
      ResponseShows(c.app, c.flights[h.id], h.lists);
    }
  }

  /** In every history each list is the one its last response brought, or still the first one. */
  lemma {:induction false} ListsAreLastDelivered(c: Client, hs: seq<Happening>)
    requires c.app.Valid() && History(c, hs)
    ensures var a, b := c.app, After(c, hs).app;
            var d, s, p, t := LastDelivered(c, hs, DownloadsKey), LastDelivered(c, hs, SourcesKey),
                              LastDelivered(c, hs, ProfilesKey), LastDelivered(c, hs, SettingsKey);
            && b.downloads == (if d.Some? then d.value.downloads else a.downloads)
            && b.sources == (if s.Some? then s.value.sources else a.sources)
            && b.profiles == (if p.Some? then p.value.profiles else a.profiles)
            && b.settings == (if t.Some? then Some(t.value.settings) else a.settings)
    decreases |hs|
  {
    if hs != [] {
      HappeningIsRun(c, hs[0]);
      HappeningShows(c, hs[0]);
      ListsAreLastDelivered(Next(c, hs[0]), hs[1..]);
    }
  }
}
