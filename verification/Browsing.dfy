/**
 Paging to the end of the activity log: what each delivery leaves in the view, when
 the list says that there is more, and how many rounds of "go to the end, answer,
 deliver" list the whole log.
 */
module ActivityBrowsing {
  import opened Outcomes
  import opened Search
  import opened Activity
  import opened TuiApp
  import opened EventLoop
  import opened ActivityPaging
  import opened ClientLoop
  import opened ClientHistories
  import TuiKeys

  // ---------------------------------------------------------------- what a delivery leaves

  /** A page for another filter changes nothing, except that a next page frees the list for another request. */
  lemma {:induction false} RefusedPageSets(s: State, id: nat)
    requires Enabled(s, Deliver(id)) && IsActivity(s.flights[id].req) && s.flights[id].req.filter != s.view.filter
    ensures Apply(s, Deliver(id)).view == s.view.(paging := if s.flights[id].req.NextPage? then Idle else s.view.paging)
  {}

  /** A next page for the filter in force: its total is shown, and a short one ends the list. */
  lemma {:induction false} NextPageSets(s: State, id: nat)
    requires Enabled(s, Deliver(id)) && Awaited(s, id)
    ensures var v, v', page := s.view, Apply(s, Deliver(id)).view, s.flights[id].page;
            && v'.filter == v.filter && v'.total == page.total
            && v'.paging == (if |page.events| < 50 then End else Idle)
            && v.events <= v'.events
            && (forall e | e in v'.events[|v.events|..] :: e in page.events && e.id !in Ids(v.events))
            && (forall e | e in page.events && e.id !in Ids(v.events) :: e in v'.events)
            && v'.selected == (if v'.events == [] then None
                               else if v.selected.None? then Some(0)
                               else if v.selected.value < |v'.events| then v.selected
                               else Some(|v'.events| - 1))
  {
    var v, v', page := s.view, Apply(s, Deliver(id)).view, s.flights[id].page;
    var added := Unseen(page.events, v.events);
    assert v'.events[|v.events|..] == added;
    forall e: Event
      ensures e in added <==> e in page.events && e.id !in Ids(v.events)
    {
      UnseenOnly(page.events, v.events, e);
      PositionIffListed(v.events, e.id);
    }
  }

  ghost function Ids(s: seq<Event>): set<nat> {
    set e | e in s :: e.id
  }

  lemma PositionIffListed(s: seq<Event>, id: nat)
    ensures Position(s, id).None? <==> id !in Ids(s)
  {
    if Position(s, id).Some? {
      assert s[Position(s, id).value] in s;
    }
  }

  /** A first page for it: its total is shown; only a list that is this page, and not loading, takes its end from it. */
  lemma {:induction false} FirstPageSets(s: State, id: nat)
    requires Enabled(s, Deliver(id)) && Carries(s, id, ActivityKey) && s.flights[id].req.filter == s.view.filter
    ensures var v, v', page := s.view, Apply(s, Deliver(id)).view, s.flights[id].page;
            && v'.filter == v.filter && v'.total == page.total && page.events <= v'.events
            && v'.paging == (if |v'.events| == |page.events| && v.paging != Loading
                             then (if |page.events| < 50 then End else Idle) else v.paging)
  {}

  /**
   It keeps the selected event selected while that is listed. Otherwise the row
   stays, or moves to the last one, or to the first if there was none.
   */
  lemma {:induction false} FirstPageSelects(s: State, id: nat)
    requires Enabled(s, Deliver(id)) && Carries(s, id, ActivityKey) && s.flights[id].req.filter == s.view.filter
    ensures var v, v' := s.view, Apply(s, Deliver(id)).view;
            var was := if v.selected.Some? && v.selected.value < |v.events| then {v.events[v.selected.value].id}
                       else {};
            if was != {} && was <= Ids(v'.events) then
              v'.selected.Some? && v'.selected.value < |v'.events| && v'.events[v'.selected.value].id in was
            else
              v'.selected == if v'.events == [] then None
                             else if v.selected.None? then Some(0)
                             else if v.selected.value < |v'.events| then v.selected
                             else Some(|v'.events| - 1)
  {
    var v, v' := s.view, Apply(s, Deliver(id)).view;
    if v.selected.Some? && v.selected.value < |v.events| {
      PositionIffListed(v'.events, v.events[v.selected.value].id);
    }
  }

  // ---------------------------------------------------------------- no page understates its log

  ghost predicate FlightCounted(fl: Flight) {
    fl.Answered? ==> fl.page.total >= fl.seen
  }

  ghost predicate Counted(s: State) {
    forall id | id in s.flights :: FlightCounted(s.flights[id])
  }

  lemma OnlyAsksKeepCounted(s: State, s': State)
    requires Counted(s) && OnlyNewAsks(s, s')
    ensures Counted(s')
  {
    forall id | id in s'.flights
      ensures FlightCounted(s'.flights[id])
    {
      assert id in s.flights ==> FlightCounted(s.flights[id]);
    }
  }

  lemma {:induction false} StepKeepsCounted(s: State, step: Step)
    requires Disciplined(s) && Counted(s) && Enabled(s, step)
    ensures Counted(Apply(s, step))
  {
    match step
    case RefreshAll =>
      SpawnRefreshOnlyAsks(s);
      OnlyAsksKeepCounted(s, SpawnRefresh(s));
    case ShowTab(t) =>
      SameFlightsKeepDiscipline(s, s.(tab := t));
      SpawnRefreshOnlyAsks(s.(tab := t));
      OnlyAsksKeepCounted(s.(tab := t), Apply(s, step));
    case Filtered(f) =>
      var filtered := s.(view := ApplySearch(s.view, f));
      SameFlightsKeepDiscipline(s, filtered);
      SpawnRefreshOnlyAsks(filtered);
      OnlyAsksKeepCounted(filtered, Apply(s, step));
    case Answer(id, counted) =>
      var r := s.flights[id].req;
      TotalIsExact(Matching(r.filter, s.log), ACTIVITY_PAGE, Offset(r), counted);
      forall i | i in Apply(s, step).flights
        ensures FlightCounted(Apply(s, step).flights[i])
      {
        assert FlightCounted(s.flights[i]);
      }
    case Deliver(id) =>
      LandKeepsDiscipline(s, id);
      SpawnRefreshOnlyAsks(Land(s, id));
      assert Counted(Land(s, id)) by { assert forall i | i in Land(s, id).flights :: FlightCounted(s.flights[i]); }
      OnlyAsksKeepCounted(Land(s, id), SpawnRefresh(Land(s, id)));
    case _ => assert forall i | i in Apply(s, step).flights && i in s.flights :: FlightCounted(s.flights[i]);
  }

  // ---------------------------------------------------------------- a list that says more

  /** The number of events the list goes by counts its newest event. */
  ghost predicate Told(s: State) {
    s.view.events != [] ==> exists p | 0 <= p < |Log(s)| && p < s.view.total :: Log(s)[p] == s.view.events[0]
  }

  /** A list that does not reach the oldest matching event says that there is more. */
  ghost predicate SaysMore(s: State) {
    var v := s.view;
    v.events != [] && Log(s) != [] && v.events[|v.events| - 1] != Log(s)[0] ==> v.paging != End && |v.events| < v.total
  }

  /** An appended page was computed when the newest listed event had been logged already. */
  ghost predicate Fresh(s: State, step: Step) {
    AppendsPage(s, step) && s.flights[step.id].Answered? && s.view.events != [] ==>
      s.flights[step.id].seen <= |Log(s)| && s.view.events[0] in Log(s)[..s.flights[step.id].seen]
  }

  ghost predicate FreshRun(s: State, steps: seq<Step>)
    requires Legal(s, steps)
    decreases |steps|
  {
    steps == [] || (Fresh(s, steps[0]) && FreshRun(Apply(s, steps[0]), steps[1..]))
  }

  lemma {:induction false} RefreshIsTold(s: State, id: nat)
    requires Sound(s) && Counted(s) && Enabled(s, Deliver(id)) && Carries(s, id, ActivityKey)
    requires s.flights[id].req.filter == s.view.filter
    ensures Told(Apply(s, Deliver(id)))
  {
    var fl, s' := s.flights[id], Apply(s, Deliver(id));
    assert FlightSound(s.log, fl) && FlightCounted(fl);
    PrefixPage(Log(s), fl.seen, 0);
    assert fl.page.events == Newest(Log(s), Minus(fl.seen, ACTIVITY_PAGE), fl.seen);
    if s'.view.events != [] {
      assert fl.page.events != [] && s'.view.events[0] == fl.page.events[0] == Log(s)[fl.seen - 1];
      assert Log(s') == Log(s);
    }
  }

  lemma {:induction false} NextPageIsTold(s: State, id: nat, p: nat)
    requires Sound(s) && Counted(s) && Enabled(s, Deliver(id)) && Awaited(s, id) && s.view.events != []
    requires p < s.flights[id].seen <= |Log(s)| && Log(s)[p] == s.view.events[0]
    ensures Told(Apply(s, Deliver(id)))
  {
    var s' := Apply(s, Deliver(id));
    assert FlightCounted(s.flights[id]);
    NextPageSets(s, id);
    assert Log(s') == Log(s) && Log(s')[p] == s'.view.events[0];
  }

  /** A next page that starts a list. */
  lemma {:induction false} PageOnNothing(s: State, id: nat)
    requires Sound(s) && Enabled(s, Deliver(id)) && Awaited(s, id) && s.view.events == []
    ensures var fl, s' := s.flights[id], Apply(s, Deliver(id)); var b := Minus(fl.seen, fl.req.offset);
            && fl.seen <= |Log(s)| && Log(s') == Log(s) && s'.view.total == fl.page.total
            && s'.view.events == Newest(Log(s), Minus(b, ACTIVITY_PAGE), b)
  {
    AppendedEvents(s, id, 0, 0);
    UnseenAll(s.flights[id].page.events);
  }

  lemma {:induction false} PageOnNothingIsTold(s: State, id: nat)
    requires Sound(s) && Counted(s) && Enabled(s, Deliver(id)) && Awaited(s, id) && s.view.events == []
    ensures Told(Apply(s, Deliver(id)))
  {
    var fl := s.flights[id];
    var b := Minus(fl.seen, fl.req.offset);
    PageOnNothing(s, id);
    assert FlightCounted(fl);
    if b > 0 {
      assert Log(s)[b - 1] == Apply(s, Deliver(id)).view.events[0];
    }
  }

  lemma {:induction false} FreshPageIsTold(s: State, id: nat)
    requires Sound(s) && Counted(s) && Enabled(s, Deliver(id)) && Awaited(s, id) && Fresh(s, Deliver(id))
    ensures Told(Apply(s, Deliver(id)))
  {
    if s.view.events == [] {
      PageOnNothingIsTold(s, id);
    } else {
      var seen := s.flights[id].seen;
      var p :| 0 <= p < seen && Log(s)[..seen][p] == s.view.events[0];
      NextPageIsTold(s, id, p);
    }
  }

  lemma {:induction false} StepKeepsTold(s: State, step: Step)
    requires Sound(s) && Counted(s) && Told(s) && Enabled(s, step) && Fresh(s, step)
    ensures Told(Apply(s, step))
  {
    var s' := Apply(s, step);
    if step.Deliver? && IsCurrent(s, step.id) {
      if s.flights[step.id].req.NextPage? {
        FreshPageIsTold(s, step.id);
      } else {
        RefreshIsTold(s, step.id);
      }
    } else if !step.Filtered? {
      LogKeepsOldest(s, step);
      if s'.view.events != [] {
        OtherStepsKeepList(s, step);
        var p :| 0 <= p < |Log(s)| && p < s.view.total && Log(s)[p] == s.view.events[0];
        assert Log(s')[p] == s'.view.events[0];
      }
    }
  }

  lemma {:induction false} OtherStepsKeepList(s: State, step: Step)
    requires Enabled(s, step) && !step.Filtered? && !(step.Deliver? && IsCurrent(s, step.id))
    ensures Apply(s, step).view.events == s.view.events && Apply(s, step).view.total == s.view.total
  {
    if !step.MoveTo? {
      LateStepChangesNothing(s, step);
    }
  }

  lemma {:induction false} FreshRunsAreTold(s: State, steps: seq<Step>)
    requires Sound(s) && Disciplined(s) && Counted(s) && Told(s) && Legal(s, steps) && FreshRun(s, steps)
    ensures Told(Run(s, steps))
    decreases |steps|
  {
    if steps != [] {
      StepKeepsTold(s, steps[0]);
      StepKeepsCounted(s, steps[0]);
      StepKeepsSound(s, steps[0]);
      StepKeepsDiscipline(s, steps[0]);
      FreshRunsAreTold(Apply(s, steps[0]), steps[1..]);
    }
  }

  lemma {:induction false} ToldSaysMore(s: State, lo: nat, hi: nat)
    requires Sound(s) && Aligned(s, lo, hi) && Told(s)
    ensures SaysMore(s)
  {
    var v, log := s.view, Log(s);
    if v.events != [] && v.events[|v.events| - 1] != log[0] {
      var p :| 0 <= p < |log| && p < v.total && log[p] == v.events[0];
      assert v.events[0] == log[hi - 1] && v.events[|v.events| - 1] == log[lo];
      MatchingDistinct(v.filter, s.log);
    }
  }

  /**
   In every calm run in which no appended page is older than the newest listed
   event: a list that does not reach the oldest matching event says that there is
   more, so that its end asks for it.
   */
  lemma {:induction false} CalmListsSayMore(steps: seq<Step>)
    requires Legal(START, steps) && CalmRun(START, steps) && FreshRun(START, steps)
    ensures SaysMore(Run(START, steps))
  {
    assert Aligned(START, 0, 0);
    var lo, hi := CalmRunsStayAligned(START, steps, 0, 0);
    FreshRunsAreTold(START, steps);
    ToldSaysMore(Run(START, steps), lo, hi);
  }

  // ---------------------------------------------------------------- exactly when it does not

  lemma {:induction false} RunSays(s: State, lo: nat, hi: nat)
    requires DistinctIds(Log(s)) && lo < hi <= |Log(s)| && s.view.events == Newest(Log(s), lo, hi)
    requires s.view.paging == End ==> lo == 0
    ensures SaysMore(s) <==> lo == 0 || hi - lo < s.view.total
  {
    assert s.view.events[|s.view.events| - 1] == Log(s)[lo];
  }

  /**
   A next page counted when it was computed leaves a list that says more, or that is
   complete, if and only if fewer listed events are newer than the page than older
   ones are missing.
   */
  lemma {:induction false} NextPageSaysMoreIff(s: State, id: nat, lo: nat, hi: nat) returns (lo': nat)
    requires Sound(s) && Aligned(s, lo, hi) && Enabled(s, Deliver(id)) && Awaited(s, id)
    requires s.flights[id].page.total == s.flights[id].seen
    ensures var s', seen := Apply(s, Deliver(id)), s.flights[id].seen;
            && lo' <= lo && lo' < hi && Log(s') == Log(s) && s'.view.events == Newest(Log(s), lo', hi)
            && (SaysMore(s') <==> lo' == 0 || hi - seen < lo')
  {
    var s' := Apply(s, Deliver(id));
    lo' := ExtendedRun(s, id, lo, hi);
    assert Log(s') == Log(s) && s'.view.total == s.flights[id].page.total;
    MatchingDistinct(s.view.filter, s.log);
    RunSays(s', lo', hi);
  }

  /** The server counted for each page what matched when it computed the page. */
  ghost predicate Exact(s: State) {
    forall id | id in s.flights && s.flights[id].Answered? :: s.flights[id].page.total == s.flights[id].seen
  }

  predicate Counts(s: State, step: Step) {
    step.Answer? && step.id in s.flights && IsActivity(s.flights[step.id].req) ==>
      step.counted == |Matching(s.flights[step.id].req.filter, s.log)|
  }

  /** The appended page leaves events unlisted, and at least as many of the listed ones are newer than it. */
  ghost predicate TooLate(s: State, step: Step)
    requires Enabled(s, step)
  {
    AppendsPage(s, step) &&
      exists lo: nat, hi: nat | 0 < lo <= hi <= |Log(s)| && s.flights[step.id].seen <= |Log(s)| ::
        Apply(s, step).view.events == Newest(Log(s), lo, hi) && lo <= hi - s.flights[step.id].seen
  }

  lemma {:induction false} OneRun(log: seq<Event>, lo: nat, hi: nat, lo': nat, hi': nat)
    requires DistinctIds(log) && lo < hi <= |log| && lo' <= hi' <= |log| && Newest(log, lo, hi) == Newest(log, lo', hi')
    ensures lo == lo' && hi == hi'
  {
    assert |Newest(log, lo, hi)| == hi - lo == hi' - lo';
    assert Newest(log, lo, hi)[0] == log[hi - 1] && Newest(log, lo', hi')[0] == log[hi' - 1];
  }

  lemma {:induction false} PageSaysMoreIff(s: State, id: nat, lo: nat, hi: nat)
    requires Sound(s) && Exact(s) && Aligned(s, lo, hi) && Enabled(s, Deliver(id)) && Awaited(s, id)
    ensures SaysMore(Apply(s, Deliver(id))) <==> !TooLate(s, Deliver(id))
  {
    var lo' := NextPageSaysMoreIff(s, id, lo, hi);
    assert FlightSound(s.log, s.flights[id]);
    MatchingDistinct(s.view.filter, s.log);
    forall a: nat, b: nat | a <= b <= |Log(s)| && Newest(Log(s), lo', hi) == Newest(Log(s), a, b)
      ensures a == lo' && b == hi
    {
      OneRun(Log(s), lo', hi, a, b);
    }
  }

  lemma {:induction false} RefreshSaysMore(s: State, id: nat, lo: nat, hi: nat)
    requires Sound(s) && Disciplined(s) && Exact(s) && Aligned(s, lo, hi) && Enabled(s, Deliver(id))
    requires Carries(s, id, ActivityKey) && s.flights[id].req.filter == s.view.filter
    ensures SaysMore(Apply(s, Deliver(id)))
  {
    var lo', hi' := RefreshKeepsAligned(s, id, lo, hi);
    assert Counted(s);
    RefreshIsTold(s, id);
    StepKeepsSound(s, Deliver(id));
    ToldSaysMore(Apply(s, Deliver(id)), lo', hi');
  }

  lemma {:induction false} OtherStepsKeepEnd(s: State, step: Step)
    requires Enabled(s, step) && !step.Filtered? && !(step.Deliver? && IsCurrent(s, step.id))
    ensures Apply(s, step).view.paging == End ==> s.view.paging == End
  {}

  lemma {:induction false} OtherStepsSayMore(s: State, step: Step)
    requires Sound(s) && Enabled(s, step) && SaysMore(s)
    requires !(step.Deliver? && IsCurrent(s, step.id))
    ensures SaysMore(Apply(s, step))
  {
    if !step.Filtered? && s.view.events != [] {
      OtherStepsKeepList(s, step);
      OtherStepsKeepEnd(s, step);
      LogKeepsOldest(s, step);
      assert s.view.events[0] in Log(s);
    }
  }

  lemma {:induction false} StepKeepsExact(s: State, step: Step)
    requires Disciplined(s) && Exact(s) && Enabled(s, step) && Counts(s, step)
    ensures Exact(Apply(s, step))
  {
    match step
    case RefreshAll => SpawnRefreshOnlyAsks(s);
    case ShowTab(t) =>
      SameFlightsKeepDiscipline(s, s.(tab := t));
      SpawnRefreshOnlyAsks(s.(tab := t));
    case Filtered(f) =>
      SameFlightsKeepDiscipline(s, s.(view := ApplySearch(s.view, f)));
      SpawnRefreshOnlyAsks(s.(view := ApplySearch(s.view, f)));
    case Answer(id, counted) =>
      var r := s.flights[id].req;
      TotalIsExact(Matching(r.filter, s.log), ACTIVITY_PAGE, Offset(r), counted);
    case Deliver(id) =>
      LandKeepsDiscipline(s, id);
      SpawnRefreshOnlyAsks(Land(s, id));
    case _ =>
  }

  lemma {:induction false} StepSaysMoreIff(s: State, step: Step, lo: nat, hi: nat)
    requires Sound(s) && Disciplined(s) && Exact(s) && Aligned(s, lo, hi) && Enabled(s, step) && SaysMore(s)
    ensures SaysMore(Apply(s, step)) <==> !TooLate(s, step)
  {
    if step.Deliver? && IsCurrent(s, step.id) {
      if s.flights[step.id].req.NextPage? {
        PageSaysMoreIff(s, step.id, lo, hi);
      } else {
        RefreshSaysMore(s, step.id, lo, hi);
      }
    } else {
      OtherStepsSayMore(s, step);
    }
  }

  ghost predicate CountedRun(s: State, steps: seq<Step>)
    requires Legal(s, steps)
    decreases |steps|
  {
    steps == [] || (Counts(s, steps[0]) && CountedRun(Apply(s, steps[0]), steps[1..]))
  }

  ghost predicate AlwaysSaysMore(s: State, steps: seq<Step>)
    requires Legal(s, steps)
    decreases |steps|
  {
    SaysMore(s) && (steps != [] ==> AlwaysSaysMore(Apply(s, steps[0]), steps[1..]))
  }

  ghost predicate NoneTooLate(s: State, steps: seq<Step>)
    requires Legal(s, steps)
    decreases |steps|
  {
    steps != [] ==> !TooLate(s, steps[0]) && NoneTooLate(Apply(s, steps[0]), steps[1..])
  }

  lemma {:induction false} RunSaysMoreIff(s: State, steps: seq<Step>, lo: nat, hi: nat)
    requires Sound(s) && Disciplined(s) && Exact(s) && Aligned(s, lo, hi) && SaysMore(s)
    requires Legal(s, steps) && CalmRun(s, steps) && CountedRun(s, steps)
    ensures AlwaysSaysMore(s, steps) <==> NoneTooLate(s, steps)
    decreases |steps|
  {
    if steps != [] {
      var s1 := Apply(s, steps[0]);
      StepSaysMoreIff(s, steps[0], lo, hi);
      var lo1, hi1 := StepKeepsAligned(s, steps[0], lo, hi);
      StepKeepsExact(s, steps[0]);
      StepKeepsSound(s, steps[0]);
      StepKeepsDiscipline(s, steps[0]);
      if SaysMore(s1) {
        RunSaysMoreIff(s1, steps[1..], lo1, hi1);
      }
    }
  }

  /**
   In every calm run with exact counts, an incomplete list says in every state that
   there is more if and only if no appended page comes too late.
   */
  lemma {:induction false} SaysMoreIff(steps: seq<Step>)
    requires Legal(START, steps) && CalmRun(START, steps) && CountedRun(START, steps)
    ensures AlwaysSaysMore(START, steps) <==> NoneTooLate(START, steps)
  {
    assert Aligned(START, 0, 0);
    RunSaysMoreIff(START, steps, 0, 0);
  }

  // ---------------------------------------------------------------- the client's own end of the list

  lemma {:induction false} EndKeyAsks(a: AppState, key: Key)
    requires a.Valid() && a.tab == ActivityLog && TuiKeys.MotionOf(a.input, key) == Some(TuiKeys.ToLast)
    requires a.view.paging == Idle && 0 < |a.view.events| < a.view.total
    ensures OnKey(a, key).1 == Some(LoadMoreActivity)
  {
    TuiKeys.MotionOnActivity(a, key, TuiKeys.ToLast);
  }

  /**
   In every history with such a trace, when the list is idle and does not reach the
   oldest matching event, both keys to its end ask for the next page.
   */
  lemma {:induction false} EndKeysAsk(rules: RowRules, hs: seq<Happening>, key: Key)
    requires Begun(rules).app.Valid() && History(Begun(rules), hs)
    requires var trace := Trace(Begun(rules), hs);
             Legal(START, trace) && CalmRun(START, trace) && FreshRun(START, trace)
    requires var a := After(Begun(rules), hs).app;
             && a.tab == ActivityLog && TuiKeys.MotionOf(a.input, key) == Some(TuiKeys.ToLast)
             && a.view.paging == Idle && a.view.events != []
    ensures var c := After(Begun(rules), hs); var v := c.app.view; var matching := Matching(v.filter, c.log);
            && matching != [] && |c.app.queries| == 5
            && (v.events[|v.events| - 1] != matching[0] ==> OnKey(c.app, key).1 == Some(LoadMoreActivity))
  {
    var trace, c := Trace(Begun(rules), hs), After(Begun(rules), hs);
    BegunIsValid(rules);
    HistoriesAreRuns(Begun(rules), hs);
    RunsAreSound(START, trace);
    CalmListsSayMore(trace);
    assert Loop(c) == Run(START, trace) && c.app.view.events[0] in Log(Loop(c));
    if |c.app.view.events| < c.app.view.total {
      EndKeyAsks(c.app, key);
    }
  }

  // ---------------------------------------------------------------- rounds to the end

  /** An idle list of the newest events that leaves out the `lo` oldest, with an exact total. */
  ghost predicate LeavesOut(c: Client, f: ActivityFilter, lo: nat) {
    var matching := Matching(f, c.log);
    && OnActivity(c.app, Normal) && DistinctIds(c.log) && 0 < lo < |matching|
    && c.app.view == View(f, Newest(matching, lo, |matching|), |matching|, Idle, c.app.view.selected)
  }

  ghost predicate Lists(c: Client, f: ActivityFilter, lo: nat) {
    var matching := Matching(f, c.log);
    lo <= |matching| && c.app.view.filter == f && c.app.view.events == Newest(matching, lo, |matching|)
  }

  /** To the end of the list; the server answers the request and its answer arrives. */
  function Round(id: nat, counted: nat): seq<Happening> {
    [TO_BOTTOM, ServerAnswers(id, counted), Arrival(id)]
  }

  function Rounds(id: nat, counted: nat, k: nat): seq<Happening> {
    if k == 0 then [] else Rounds(id, counted, k - 1) + Round(id + k - 1, counted)
  }

  /** The next page of an unfinished list is what lies right below it, with the exact total. */
  lemma {:induction false} PageBelow(matching: seq<Event>, lo: nat)
    requires DistinctIds(matching) && 0 < lo < |matching|
    ensures var loaded := Newest(matching, lo, |matching|);
            var r := ActivityPage(matching, ACTIVITY_PAGE, |loaded|, |matching|);
            && r == Response(Newest(matching, Minus(lo, 50), lo), |matching|)
            && loaded + Unseen(r.events, loaded) == Newest(matching, Minus(lo, 50), |matching|)
  {
    var loaded := Newest(matching, lo, |matching|);
    UnseenBelow(matching, loaded, lo, |matching|, Minus(lo, 50), lo);
  }

  lemma {:induction false} AskAtEnd(rules: RowRules, hs: seq<Happening>, c: Client, f: ActivityFilter, lo: nat)
    returns (c': Client)
    requires Reached(rules, hs, c) && LeavesOut(c, f, lo)
    ensures Reached(rules, hs + [TO_BOTTOM], c') && c'.log == c.log && c'.nextId == c.nextId + 1
    ensures OnActivity(c'.app, Normal)
    ensures c'.app.view == c.app.view.(paging := Loading, selected := c'.app.view.selected)
    ensures c'.flights == c.flights[c.nextId := Asked(NextPage(f, |c.app.view.events|))]
  {
    BottomKeyAsks(c.app);
    c' := Go(rules, hs, c, TO_BOTTOM);
  }

  lemma {:induction false} PageArrives(c: Client, id: nat, f: ActivityFilter, lo: nat)
    requires var matching := Matching(f, c.log);
             && OnActivity(c.app, Normal) && DistinctIds(c.log) && 0 < lo < |matching|
             && c.app.view == View(f, Newest(matching, lo, |matching|), |matching|, Loading, c.app.view.selected)
    requires var matching := Matching(f, c.log); var offset := |matching| - lo;
             id in c.flights && c.flights[id] == Answered(NextPage(f, offset),
                                                          ActivityPage(matching, ACTIVITY_PAGE, offset, |matching|),
                                                          |matching|)
    ensures var c' := Next(c, Arrival(id));
            && c'.log == c.log && c'.nextId == c.nextId && Lists(c', f, Minus(lo, 50))
            && (lo > 50 ==> LeavesOut(c', f, lo - 50))
  {
    MatchingDistinct(f, c.log);
    PageBelow(Matching(f, c.log), lo);
  }

  /** One round lists the 50 next older events, or all of them if there are fewer. */
  lemma {:induction false} RoundListsPage(rules: RowRules, hs: seq<Happening>, c: Client, f: ActivityFilter, lo: nat)
    returns (c': Client)
    requires Reached(rules, hs, c) && LeavesOut(c, f, lo)
    ensures Reached(rules, hs + Round(c.nextId, |Matching(f, c.log)|), c')
    ensures c'.log == c.log && c'.nextId == c.nextId + 1 && Lists(c', f, Minus(lo, 50))
    ensures lo > 50 ==> LeavesOut(c', f, lo - 50)
  {
    var n := |Matching(f, c.log)|;
    var id, answer := c.nextId, ServerAnswers(c.nextId, n);
    var c1 := AskAtEnd(rules, hs, c, f, lo);
    var c2 := AnswerOne(rules, hs + [TO_BOTTOM], c1, id);
    PageArrives(c2, id, f, lo);
    c' := Go(rules, hs + [TO_BOTTOM] + [answer], c2, Arrival(id));
    assert hs + [TO_BOTTOM] + [answer] + [Arrival(id)] == hs + Round(id, n);
  }

  lemma OneMoreRound(hs: seq<Happening>, id: nat, n: nat, k: nat)
    requires k > 0
    ensures hs + Rounds(id, n, k - 1) + Round(id + k - 1, n) == hs + Rounds(id, n, k)
  {}

  /** From any unfinished list, `k` rounds list exactly `50 * k` more events, down to the oldest. */
  lemma {:induction false} RoundsList(rules: RowRules, hs: seq<Happening>, c: Client, f: ActivityFilter, lo: nat,
                                      k: nat)
    returns (c': Client)
    requires Reached(rules, hs, c) && LeavesOut(c, f, lo) && 50 * (k - 1) < lo
    ensures Reached(rules, hs + Rounds(c.nextId, |Matching(f, c.log)|, k), c')
    ensures c'.log == c.log && c'.nextId == c.nextId + k && Lists(c', f, Minus(lo, 50 * k))
    ensures lo > 50 * k ==> LeavesOut(c', f, lo - 50 * k)
    decreases k
  {
    var n := |Matching(f, c.log)|;
    if k == 0 {
      c' := c;
      assert hs + Rounds(c.nextId, n, 0) == hs;
    } else {
      var c1 := RoundsList(rules, hs, c, f, lo, k - 1);
      c' := RoundListsPage(rules, hs + Rounds(c.nextId, n, k - 1), c1, f, lo - 50 * (k - 1));
      OneMoreRound(hs, c.nextId, n, k);
    }
  }

  /** The log is opened and its first page listed. */
  function Reading(log: seq<Event>): seq<Happening> {
    [ServerLogs(log), ACTIVITY_TAB, ServerAnswers(1, |log|), Arrival(1)]
  }

  lemma {:induction false} MergeOnNothing(page: seq<Event>)
    ensures MergeFirstPage(page, []) == page
  {}

  /** A log of at most a page is listed at once. */
  lemma {:induction false} ShortLogIsListed(rules: RowRules, log: seq<Event>) returns (c: Client)
    requires DistinctIds(log) && |log| <= 50
    ensures Reached(rules, Reading(log), c) && c.log == log && c.app.view.events == Newest(log, 0, |log|)
  {
    var hs := [ServerLogs(log), ACTIVITY_TAB];
    c := OpenTab(rules, log);
    c := AnswerAll(rules, hs, c, 1);
    MergeOnNothing(c.flights[1].page.events);
    c := Go(rules, hs + [ServerAnswers(1, |log|)], c, Arrival(1));
    assert hs + [ServerAnswers(1, |log|)] + [Arrival(1)] == Reading(log);
  }

  lemma {:induction false} LongLogIsListed(rules: RowRules, log: seq<Event>, k: nat) returns (c: Client)
    requires DistinctIds(log) && |log| > 50 && 50 * k < |log|
    ensures Reached(rules, Reading(log) + Rounds(2, |log|, k), c) && c.log == log
    ensures Lists(c, NO_FILTER, Minus(|log| - 50, 50 * k))
  {
    var hs := [ServerLogs(log), ACTIVITY_TAB];
    c := OpenTab(rules, log);
    c := LoadFirstPage(rules, hs, c, 1);
    assert hs + [ServerAnswers(1, |log|), Arrival(1)] == Reading(log);
    AllMatch(log);
    c := RoundsList(rules, Reading(log), c, NO_FILTER, |log| - 50, k);
  }

  /**
   From the client's start, `k` rounds after the first page the newest `50 * (k + 1)`
   events are listed: every log is listed down to its oldest event after exactly as
   many rounds as it has further pages, the last one possibly short.
   */
  lemma {:induction false} RoundsListTheLog(rules: RowRules, log: seq<Event>, k: nat)
    requires DistinctIds(log) && (k > 0 ==> 50 * k < |log|)
    ensures Begun(rules).app.Valid() && History(Begun(rules), Reading(log) + Rounds(2, |log|, k))
    ensures var c := After(Begun(rules), Reading(log) + Rounds(2, |log|, k));
            && c.log == log && c.app.view.events == Newest(log, Minus(|log|, 50 * (k + 1)), |log|)
  {
    if |log| <= 50 {
      var c := ShortLogIsListed(rules, log);
      assert Reading(log) + Rounds(2, |log|, 0) == Reading(log);
    } else {
      var c := LongLogIsListed(rules, log, k);
      AllMatch(log);
    }
  }
}
