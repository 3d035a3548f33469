/**
 What the activity list holds in every run of the event loop.

 `Sound` holds in all runs: the list shows only events of the server's log that
 match the current filter. `Aligned` says more: the list is one gap-free run of
 that log. It is kept by every step of a run that meets two conditions (`Calm`).
 `ContiguousIffPagesContinue` is the exact condition for every run: only an
 appended next page can break the list, and does so unless it continues it.
 */
module ActivityPaging {
  import opened Search
  import opened Activity
  import opened EventLoop

  /** The log the list is a window on, oldest first. */
  function Log(s: State): seq<Event> {
    Matching(s.view.filter, s.log)
  }

  ghost predicate Awaited(s: State, id: nat) {
    id in s.flights && s.flights[id].req.NextPage? && s.flights[id].req.filter == s.view.filter
  }

  /** An answered page is the page of some prefix of the log, and a short first page counts exactly. */
  ghost predicate FlightSound(log: seq<Event>, fl: Flight) {
    fl.Answered? ==>
      var all := Matching(fl.req.filter, log);
      && fl.seen <= |all|
      && fl.page.events == Page(all[..fl.seen], ACTIVITY_PAGE, Offset(fl.req))
      && (fl.req.Fetch? && |fl.page.events| < ACTIVITY_PAGE ==> fl.page.total == |fl.page.events|)
  }

  ghost predicate FlightsSound(s: State) {
    forall id | id in s.flights :: FlightSound(s.log, s.flights[id])
  }

  ghost predicate Sound(s: State) {
    && DistinctIds(s.log)
    && FlightsSound(s)
    && SelectionInRange(s.view)
    && (forall e | e in s.view.events :: e in Log(s))
    && (s.view.paging == Loading ==> exists id :: Awaited(s, id))
  }

  // ---------------------------------------------------------------- soundness of each step

  lemma PrefixPage(all: seq<Event>, seen: nat, offset: nat)
    requires seen <= |all|
    ensures var top := Minus(seen, offset);
            Page(all[..seen], ACTIVITY_PAGE, offset) == Newest(all, Minus(top, ACTIVITY_PAGE), top)
  {}

  lemma GrowFlight(log: seq<Event>, more: seq<Event>, fl: Flight)
    requires FlightSound(log, fl)
    ensures FlightSound(log + more, fl)
  {
    if fl.Answered? {
      var all := Matching(fl.req.filter, log);
      MatchingAppends(fl.req.filter, log, more);
      assert (all + Matching(fl.req.filter, more))[..fl.seen] == all[..fl.seen];
    }
  }

  /** Spawned fetches are unanswered, and no answered or awaited flight is lost. */
  ghost predicate OnlyNewAsks(s: State, s': State) {
    && s' == s.(inFlight := s'.inFlight, flights := s'.flights, nextId := s'.nextId)
    && (forall id | id in s.flights :: id in s'.flights && s'.flights[id] == s.flights[id])
    && (forall id | id in s'.flights && id !in s.flights :: s'.flights[id].Asked? && s'.flights[id].req.Fetch?)
  }

  lemma SpawnOnlyAsks(s: State, s1: State, key: Resource)
    requires Disciplined(s1) && OnlyNewAsks(s, s1)
    ensures OnlyNewAsks(s, Spawn(s1, key)) && Disciplined(Spawn(s1, key))
  {
    AddKeepsDiscipline(s1, key);
  }

  lemma SpawnRefreshOnlyAsks(s: State)
    requires Disciplined(s)
    ensures OnlyNewAsks(s, SpawnRefresh(s))
  {
    SpawnOnlyAsks(s, s, StatusKey);
    var s1 := Spawn(s, StatusKey);
    match s1.tab
    case Downloads => SpawnOnlyAsks(s, s1, DownloadsKey);
    case Sources =>
      SpawnOnlyAsks(s, s1, SourcesKey);
      SpawnOnlyAsks(s, Spawn(s1, SourcesKey), ProfilesKey);
    case Profiles => SpawnOnlyAsks(s, s1, ProfilesKey);
    case Settings => SpawnOnlyAsks(s, s1, SettingsKey);
    case ActivityLog => SpawnOnlyAsks(s, s1, ActivityKey);
  }

  lemma OnlyAsksKeepSound(s: State, s': State)
    requires Sound(s) && OnlyNewAsks(s, s')
    ensures Sound(s')
  {
    if s.view.paging == Loading {
      var id :| Awaited(s, id);
      assert Awaited(s', id);
    }
  }

  lemma MergedFromEither(page: seq<Event>, loaded: seq<Event>, e: Event)
    requires e in MergeFirstPage(page, loaded)
    ensures e in page || e in loaded
  {}

  lemma PageFromLog(all: seq<Event>, seen: nat, offset: nat, e: Event)
    requires seen <= |all| && e in Page(all[..seen], ACTIVITY_PAGE, offset)
    ensures e in all
  {}

  lemma ReceivedEventsAreLogged(s: State, id: nat, e: Event)
    requires Sound(s) && Enabled(s, Deliver(id)) && IsActivity(s.flights[id].req)
    requires s.flights[id].req.filter == s.view.filter && e in Apply(s, Deliver(id)).view.events
    ensures e in Log(s)
  {
    var fl := s.flights[id];
    if e !in s.view.events {
      if fl.req.NextPage? {
        UnseenOnly(fl.page.events, s.view.events, e);
      } else {
        MergedFromEither(fl.page.events, s.view.events, e);
      }
      PageFromLog(Log(s), fl.seen, Offset(fl.req), e);
    }
  }

  lemma ReceiveKeepsSound(s: State, id: nat)
    requires Sound(s) && Disciplined(s) && Enabled(s, Deliver(id)) && IsActivity(s.flights[id].req)
    ensures Sound(Apply(s, Deliver(id)))
  {
    var fl := s.flights[id];
    var landed, s' := Land(s, id), Apply(s, Deliver(id));
    if fl.req.filter == s.view.filter {
      forall e | e in s'.view.events { ReceivedEventsAreLogged(s, id, e); }
      if s'.view.paging == Loading {
        var i :| Awaited(s, i);
        assert Awaited(s', i);
      }
    } else if fl.req.Fetch? {
      if s.view.paging == Loading {
        var i :| Awaited(s, i);
        assert Awaited(landed, i);
      }
      LandKeepsDiscipline(s, id);
      SpawnRefreshOnlyAsks(landed);
      OnlyAsksKeepSound(landed, SpawnRefresh(landed));
    }
  }

  lemma StepKeepsSound(s: State, step: Step)
    requires Sound(s) && Disciplined(s) && Enabled(s, step)
    ensures Sound(Apply(s, step))
  {
    var s' := Apply(s, step);
    match step
    case Grow(more) =>
      forall id | id in s.flights { GrowFlight(s.log, more, s.flights[id]); }
      MatchingAppends(s.view.filter, s.log, more);
      if s.view.paging == Loading { var id :| Awaited(s, id); assert Awaited(s', id); }
    case RefreshAll =>
      SpawnRefreshOnlyAsks(s);
      OnlyAsksKeepSound(s, s');
    case ShowTab(t) =>
      var shown := s.(tab := t);
      SameFlightsKeepDiscipline(s, shown);
      SpawnRefreshOnlyAsks(shown);
      if s.view.paging == Loading { var id :| Awaited(s, id); assert Awaited(shown, id); }
      OnlyAsksKeepSound(shown, s');
    case MoveTo(row) =>
      if s.view.paging == Loading { var id :| Awaited(s, id); assert Awaited(s', id); }
    case AskMore => assert Awaited(s', s.nextId);
    case Filtered(f) =>
      var filtered := s.(view := ApplySearch(s.view, f));
      SameFlightsKeepDiscipline(s, filtered);
      SpawnRefreshOnlyAsks(filtered);
      OnlyAsksKeepSound(filtered, s');
    case Answer(id, counted) =>
      assert Log(s)[..|Log(s)|] == Log(s);
      var all := Matching(s.flights[id].req.filter, s.log);
      assert all[..|all|] == all;
      if s.view.paging == Loading { var i :| Awaited(s, i); assert Awaited(s', i); }
    case Deliver(id) =>
      if IsActivity(s.flights[id].req) {
        ReceiveKeepsSound(s, id);
      } else if s.view.paging == Loading {
        var i :| Awaited(s, i);
        assert Awaited(s', i);
      }
    case Fail(id) =>
      if s'.view.paging == Loading { var i :| Awaited(s, i); assert Awaited(s', i); }
  }

  /**
   In every run, whatever arrives in whatever order: the list shows only events
   that match the current filter, the selection is one of them, and a list that
   says it is loading has a request outstanding that will end that.
   */
  lemma {:induction false} RunsAreSound(s: State, steps: seq<Step>)
    requires Sound(s) && Disciplined(s) && Legal(s, steps)
    ensures Sound(Run(s, steps)) && Disciplined(Run(s, steps))
    decreases |steps|
  {
    if steps != [] {
      StepKeepsSound(s, steps[0]);
      StepKeepsDiscipline(s, steps[0]);
      RunsAreSound(Apply(s, steps[0]), steps[1..]);
    }
  }

  lemma ListedEventsMatchFilter(steps: seq<Step>, e: Event)
    requires Legal(START, steps) && e in Run(START, steps).view.events
    ensures e in Run(START, steps).log && MatchesFilter(Run(START, steps).view.filter, e)
  {
    var s := Run(START, steps);
    RunsAreSound(START, steps);
    MatchingOnly(s.view.filter, s.log, e);
  }

  // ---------------------------------------------------------------- one gap-free run of the log

  /** What an outstanding request for the current filter may rely on when it is answered or delivered. */
  ghost predicate FlightAligned(s: State, fl: Flight, lo: nat, hi: nat) {
    fl.req.filter == s.view.filter ==>
      match fl.req
      case Fetch(key, _) =>
        key == ActivityKey && fl.Answered? ==> hi <= fl.seen && (s.view.events == [] || fl.seen - hi < ACTIVITY_PAGE)
      case NextPage(_, offset) =>
        && ACTIVITY_PAGE <= offset <= |s.view.events|
        && (if fl.Asked? then lo + offset <= |Log(s)| else lo + offset <= fl.seen && fl.seen - offset <= hi)
  }

  /** The list is `Newest(log, lo, hi)`; a list marked as ended, or shorter than a page, reaches the oldest event. */
  ghost predicate Aligned(s: State, lo: nat, hi: nat) {
    && lo <= hi <= |Log(s)|
    && s.view.events == Newest(Log(s), lo, hi)
    && (s.view.events == [] ==> hi == 0)
    && (|s.view.events| < ACTIVITY_PAGE ==> lo == 0 && s.view.total <= |s.view.events|)
    && (s.view.paging == End ==> lo == 0)
    && (forall id | id in s.flights :: FlightAligned(s, s.flights[id], lo, hi))
  }

  /**
   The two conditions a run must meet. When the server answers a request for the
   current filter, the newest listed event is still on its first page: fewer than
   a page of events are unseen. And a search does not return to a filter while a
   next page for that filter is on its way.
   */
  ghost predicate Calm(s: State, step: Step) {
    match step
    case Answer(id, _) =>
      id in s.flights && s.flights[id].req.filter == s.view.filter && s.view.events != [] ==>
        s.view.events[0] in Page(Log(s), ACTIVITY_PAGE, 0)
    case Filtered(f) => forall id | id in s.flights && s.flights[id].req.NextPage? :: s.flights[id].req.filter != f
    case _ => true
  }

  /** The server's first page still shows the newest listed event exactly when less than a page is unseen. */
  lemma FirstPageShows(log: seq<Event>, lo: nat, hi: nat)
    requires DistinctIds(log) && lo < hi <= |log|
    ensures Newest(log, lo, hi)[0] in Page(log, ACTIVITY_PAGE, 0) <==> |log| - hi < ACTIVITY_PAGE
  {
    var newest := Newest(log, lo, hi)[0];
    var page := Page(log, ACTIVITY_PAGE, 0);
    assert newest == log[hi - 1];
    if |log| - hi < ACTIVITY_PAGE {
      assert page[|log| - hi] == newest;
    } else {
      assert forall k | 0 <= k < |page| :: page[k] == log[|log| - 1 - k];
    }
  }

  lemma GrowKeepsAligned(s: State, more: seq<Event>, lo: nat, hi: nat)
    requires Sound(s) && Aligned(s, lo, hi) && Enabled(s, Grow(more))
    ensures Aligned(Apply(s, Grow(more)), lo, hi)
  {
    var s' := Apply(s, Grow(more));
    MatchingAppends(s.view.filter, s.log, more);
    RunOfPrefix(Log(s), Matching(s.view.filter, more), lo, hi);
    forall id | id in s'.flights
      ensures FlightAligned(s', s'.flights[id], lo, hi)
    {
      assert FlightAligned(s, s.flights[id], lo, hi);
    }
  }

  lemma OnlyAsksKeepAligned(s: State, s': State, lo: nat, hi: nat)
    requires Aligned(s, lo, hi) && OnlyNewAsks(s, s')
    ensures Aligned(s', lo, hi)
  {
    forall id | id in s'.flights
      ensures FlightAligned(s', s'.flights[id], lo, hi)
    {
      if id in s.flights {
        assert FlightAligned(s, s.flights[id], lo, hi);
      }
    }
  }

  /** Dropping a flight and changing what alignment does not mention. */
  lemma LessKeepsAligned(s: State, s': State, lo: nat, hi: nat)
    requires Aligned(s, lo, hi) && s'.log == s.log && s'.view.filter == s.view.filter
    requires s'.view.events == s.view.events && s'.view.total == s.view.total
    requires s'.view.paging == End ==> s.view.paging == End
    requires forall id | id in s'.flights :: id in s.flights && s'.flights[id] == s.flights[id]
    ensures Aligned(s', lo, hi)
  {
    forall id | id in s'.flights
      ensures FlightAligned(s', s'.flights[id], lo, hi)
    {
      assert FlightAligned(s, s.flights[id], lo, hi);
    }
  }

  lemma AskMoreKeepsAligned(s: State, lo: nat, hi: nat)
    requires Sound(s) && Disciplined(s) && Aligned(s, lo, hi) && Enabled(s, AskMore)
    ensures Aligned(Apply(s, AskMore), lo, hi)
  {
    var s' := Apply(s, AskMore);
    forall id | id in s'.flights
      ensures FlightAligned(s', s'.flights[id], lo, hi)
    {
      if id != s.nextId {
        assert FlightAligned(s, s.flights[id], lo, hi);
      }
    }
  }

  lemma AnswerKeepsAligned(s: State, id: nat, counted: nat, lo: nat, hi: nat)
    requires Sound(s) && Aligned(s, lo, hi) && Enabled(s, Answer(id, counted)) && Calm(s, Answer(id, counted))
    ensures Aligned(Apply(s, Answer(id, counted)), lo, hi)
  {
    var s' := Apply(s, Answer(id, counted));
    if s.view.events != [] {
      MatchingDistinct(s.view.filter, s.log);
      FirstPageShows(Log(s), lo, hi);
    }
    forall i | i in s'.flights
      ensures FlightAligned(s', s'.flights[i], lo, hi)
    {
      assert FlightAligned(s, s.flights[i], lo, hi);
    }
  }

  /** What the list is after a refresh for its filter, whatever run it was before. */
  lemma RefreshedEvents(s: State, id: nat, lo: nat, hi: nat)
    requires Sound(s) && Enabled(s, Deliver(id)) && Carries(s, id, ActivityKey)
    requires s.flights[id].req.filter == s.view.filter
    requires lo <= hi <= |Log(s)| && s.view.events == Newest(Log(s), lo, hi)
    ensures var seen := s.flights[id].seen; var oldest := Minus(seen, ACTIVITY_PAGE);
            && seen <= |Log(s)|
            && s.flights[id].page.events == Newest(Log(s), oldest, seen)
            && Apply(s, Deliver(id)).view.events == Newest(Log(s), if lo <= oldest < hi then lo else oldest, seen)
  {
    var fl := s.flights[id];
    assert FlightSound(s.log, fl);
    MatchingDistinct(s.view.filter, s.log);
    PrefixPage(Log(s), fl.seen, 0);
    MergeRuns(Log(s), lo, hi, fl.seen);
  }

  /** A refreshed first page moves the newest end up and never the oldest end. */
  lemma RefreshKeepsAligned(s: State, id: nat, lo: nat, hi: nat) returns (lo': nat, hi': nat)
    requires Sound(s) && Disciplined(s) && Aligned(s, lo, hi) && Enabled(s, Deliver(id))
    requires Carries(s, id, ActivityKey) && s.flights[id].req.filter == s.view.filter
    ensures Aligned(Apply(s, Deliver(id)), lo', hi')
    ensures hi <= hi' && (s.view.events != [] ==> lo' == lo)
  {
    var s', fl := Apply(s, Deliver(id)), s.flights[id];
    assert FlightSound(s.log, fl) && FlightAligned(s, fl, lo, hi);
    var oldest := Minus(fl.seen, ACTIVITY_PAGE);
    RefreshedEvents(s, id, lo, hi);
    lo', hi' := if lo <= oldest < hi then lo else oldest, fl.seen;
    forall i | i in s'.flights
      ensures FlightAligned(s', s'.flights[i], lo', hi')
    {
      RefreshKeepsFlight(s, id, i, lo, hi);
    }
  }

  lemma RefreshKeepsFlight(s: State, id: nat, i: nat, lo: nat, hi: nat)
    requires Sound(s) && Disciplined(s) && Aligned(s, lo, hi) && Enabled(s, Deliver(id))
    requires Carries(s, id, ActivityKey) && s.flights[id].req.filter == s.view.filter
    requires i in s.flights && i != id
    requires hi <= s.flights[id].seen && |s.view.events| <= |Apply(s, Deliver(id)).view.events|
    ensures FlightAligned(Apply(s, Deliver(id)), s.flights[i],
                          if s.view.events == [] then Minus(s.flights[id].seen, ACTIVITY_PAGE) else lo,
                          s.flights[id].seen)
  {
    assert FlightAligned(s, s.flights[i], lo, hi);
    assert s.flights[i].req.Fetch? && s.flights[i].req.key == ActivityKey ==> Carries(s, i, ActivityKey);
  }

  /** What the list is after a next page for its filter, whatever run it was before. */
  lemma AppendedEvents(s: State, id: nat, lo: nat, hi: nat)
    requires Sound(s) && Enabled(s, Deliver(id)) && Awaited(s, id)
    requires lo <= hi <= |Log(s)| && s.view.events == Newest(Log(s), lo, hi)
    ensures var fl := s.flights[id]; var b := Minus(fl.seen, fl.req.offset); var a := Minus(b, ACTIVITY_PAGE);
            && fl.seen <= |Log(s)| && fl.page.events == Newest(Log(s), a, b)
            && Apply(s, Deliver(id)).view.events == s.view.events + Unseen(Newest(Log(s), a, b), s.view.events)
  {
    var fl := s.flights[id];
    assert FlightSound(s.log, fl);
    PrefixPage(Log(s), fl.seen, fl.req.offset);
  }

  /** What else a next page for the current filter does to the view. */
  lemma AppendedState(s: State, id: nat)
    requires Enabled(s, Deliver(id)) && Awaited(s, id)
    ensures var view := Apply(s, Deliver(id)).view;
            && view.filter == s.view.filter && s.view.events <= view.events
            && (view.paging == End <==> |s.flights[id].page.events| < ACTIVITY_PAGE)
  {}

  /** A next page moves the oldest end down. */
  lemma NextPageKeepsAligned(s: State, id: nat, lo: nat, hi: nat) returns (lo': nat)
    requires Sound(s) && Aligned(s, lo, hi) && Enabled(s, Deliver(id)) && Awaited(s, id)
    ensures Aligned(Apply(s, Deliver(id)), lo', hi) && lo' <= lo
  {
    var s', fl := Apply(s, Deliver(id)), s.flights[id];
    lo' := ExtendedRun(s, id, lo, hi);
    forall i | i in s'.flights
      ensures FlightAligned(s', s'.flights[i], lo', hi)
    {
      ExtendKeepsFlight(s, s', s.flights[i], lo, hi, lo');
    }
  }

  lemma ExtendKeepsFlight(s: State, s': State, fl: Flight, lo: nat, hi: nat, lo': nat)
    requires FlightAligned(s, fl, lo, hi) && lo' <= lo
    requires s'.view.filter == s.view.filter && s'.log == s.log && s.view.events <= s'.view.events
    requires s.view.events == [] ==> s'.view.events == []
    ensures FlightAligned(s', fl, lo', hi)
  {}

  /** Where the oldest end is after a page from `a` to `b`. */
  function Lowered(lo: nat, a: nat, b: nat): (r: nat)
    ensures r <= lo
  {
    if a < b && a <= lo then a else lo
  }

  /** A list that has reached a short page has reached the oldest event. */
  lemma ShortPageEnds(log: seq<Event>, lo: nat, a: nat, b: nat)
    requires lo <= b <= |log| && a == Minus(b, ACTIVITY_PAGE) && |Newest(log, a, b)| < ACTIVITY_PAGE
    ensures Lowered(lo, a, b) == 0
  {}

  /** Where a next page for which the client waited begins. */
  lemma AwaitedPage(s: State, id: nat, lo: nat, hi: nat)
    requires Aligned(s, lo, hi) && Enabled(s, Deliver(id)) && Awaited(s, id)
    ensures var fl := s.flights[id];
            && ACTIVITY_PAGE <= |s.view.events| && fl.req.offset <= fl.seen && lo <= fl.seen - fl.req.offset <= hi
  {
    assert FlightAligned(s, s.flights[id], lo, hi);
  }

  lemma {:induction false} AppendedRun(s: State, id: nat, lo: nat, hi: nat, a: nat, b: nat)
    requires Sound(s) && Enabled(s, Deliver(id)) && Awaited(s, id)
    requires lo < hi <= |Log(s)| && s.view.events == Newest(Log(s), lo, hi)
    requires b == s.flights[id].seen - s.flights[id].req.offset && a == Minus(b, ACTIVITY_PAGE) && lo <= b <= hi
    ensures Apply(s, Deliver(id)).view.events == Newest(Log(s), Lowered(lo, a, b), hi)
    ensures s.flights[id].page.events == Newest(Log(s), a, b)
  {
    AppendedEvents(s, id, lo, hi);
    MatchingDistinct(s.view.filter, s.log);
    AppendRuns(Log(s), lo, hi, a, b);
  }

  /** The run after a next page for which the client waited. */
  lemma {:induction false} ExtendedRun(s: State, id: nat, lo: nat, hi: nat) returns (lo': nat)
    requires Sound(s) && Aligned(s, lo, hi) && Enabled(s, Deliver(id)) && Awaited(s, id)
    ensures var view := Apply(s, Deliver(id)).view;
            && lo' <= lo && view.filter == s.view.filter && view.events == Newest(Log(s), lo', hi)
            && s.view.events != [] && s.view.events <= view.events && |view.events| >= ACTIVITY_PAGE
            && (view.paging == End ==> lo' == 0)
  {
    AwaitedPage(s, id, lo, hi);
    var b := s.flights[id].seen - s.flights[id].req.offset;
    var a := Minus(b, ACTIVITY_PAGE);
    lo' := Lowered(lo, a, b);
    AppendedRun(s, id, lo, hi, a, b);
    AppendedState(s, id);
    if |Newest(Log(s), a, b)| < ACTIVITY_PAGE {
      ShortPageEnds(Log(s), lo, a, b);
    }
  }

  lemma FilteredKeepsAligned(s: State, f: ActivityFilter, lo: nat, hi: nat)
    requires Sound(s) && Disciplined(s) && Aligned(s, lo, hi) && Enabled(s, Filtered(f)) && Calm(s, Filtered(f))
    ensures Aligned(Apply(s, Filtered(f)), 0, 0)
  {
    var filtered := s.(view := ApplySearch(s.view, f));
    assert Aligned(filtered, 0, 0);
    SameFlightsKeepDiscipline(s, filtered);
    SpawnRefreshOnlyAsks(filtered);
    OnlyAsksKeepAligned(filtered, Apply(s, Filtered(f)), 0, 0);
  }

  lemma DeliverKeepsAligned(s: State, id: nat, lo: nat, hi: nat) returns (lo': nat, hi': nat)
    requires Sound(s) && Disciplined(s) && Aligned(s, lo, hi) && Enabled(s, Deliver(id))
    ensures Aligned(Apply(s, Deliver(id)), lo', hi')
    ensures hi <= hi' && (s.view.events != [] ==> lo' <= lo)
  {
    var s', req, landed := Apply(s, Deliver(id)), s.flights[id].req, Land(s, id);
    lo', hi' := lo, hi;
    if !IsActivity(req) {
      LessKeepsAligned(s, s', lo, hi);
    } else if req.filter == s.view.filter {
      if req.NextPage? {
        lo' := NextPageKeepsAligned(s, id, lo, hi);
      } else {
        lo', hi' := RefreshKeepsAligned(s, id, lo, hi);
      }
    } else if req.NextPage? {
      LessKeepsAligned(s, s', lo, hi);
    } else {
      LessKeepsAligned(s, landed, lo, hi);
      LandKeepsDiscipline(s, id);
      SpawnRefreshOnlyAsks(landed);
      OnlyAsksKeepAligned(landed, s', lo, hi);
    }
  }

  lemma StepKeepsAligned(s: State, step: Step, lo: nat, hi: nat) returns (lo': nat, hi': nat)
    requires Sound(s) && Disciplined(s) && Aligned(s, lo, hi) && Enabled(s, step) && Calm(s, step)
    ensures Aligned(Apply(s, step), lo', hi')
    ensures !step.Filtered? ==> hi <= hi' && (s.view.events != [] ==> lo' <= lo)
  {
    var s' := Apply(s, step);
    lo', hi' := lo, hi;
    match step
    case Grow(more) => GrowKeepsAligned(s, more, lo, hi);
    case RefreshAll =>
      SpawnRefreshOnlyAsks(s);
      OnlyAsksKeepAligned(s, s', lo, hi);
    case ShowTab(t) =>
      var shown := s.(tab := t);
      LessKeepsAligned(s, shown, lo, hi);
      SameFlightsKeepDiscipline(s, shown);
      SpawnRefreshOnlyAsks(shown);
      OnlyAsksKeepAligned(shown, s', lo, hi);
    case MoveTo(row) => LessKeepsAligned(s, s', lo, hi);
    case AskMore => AskMoreKeepsAligned(s, lo, hi);
    case Filtered(f) =>
      FilteredKeepsAligned(s, f, lo, hi);
      lo', hi' := 0, 0;
    case Answer(id, counted) => AnswerKeepsAligned(s, id, counted, lo, hi);
    case Deliver(id) => lo', hi' := DeliverKeepsAligned(s, id, lo, hi);
    case Fail(id) => LessKeepsAligned(s, s', lo, hi);
  }

  ghost predicate CalmRun(s: State, steps: seq<Step>)
    requires Legal(s, steps)
    decreases |steps|
  {
    steps == [] || (Calm(s, steps[0]) && CalmRun(Apply(s, steps[0]), steps[1..]))
  }

  lemma {:induction false} CalmRunsStayAligned(s: State, steps: seq<Step>, lo: nat, hi: nat)
    returns (lo': nat, hi': nat)
    requires Sound(s) && Disciplined(s) && Aligned(s, lo, hi) && Legal(s, steps) && CalmRun(s, steps)
    ensures Aligned(Run(s, steps), lo', hi') && Sound(Run(s, steps))
    ensures s.view.events != [] && (forall i | 0 <= i < |steps| :: !steps[i].Filtered?) ==>
              lo' <= lo && hi <= hi' && Run(s, steps).view.filter == s.view.filter
    decreases |steps|
  {
    lo', hi' := lo, hi;
    if steps != [] {
      var s1 := Apply(s, steps[0]);
      var lo1, hi1 := StepKeepsAligned(s, steps[0], lo, hi);
      StepKeepsSound(s, steps[0]);
      StepKeepsDiscipline(s, steps[0]);
      SpawnKeepsFilter(s, steps[0]);
      lo', hi' := CalmRunsStayAligned(s1, steps[1..], lo1, hi1);
    }
  }

  lemma SpawnKeepsFilter(s: State, step: Step)
    requires Enabled(s, step)
    ensures !step.Filtered? ==> Apply(s, step).view.filter == s.view.filter
  {}

  /**
   In every calm run the loaded list is one newest-first, duplicate-free run of
   the matching log without gaps, and a non-empty list marked as ended has
   reached the oldest event.
   */
  lemma CalmListsAreContiguous(steps: seq<Step>)
    requires Legal(START, steps) && CalmRun(START, steps)
    ensures var s := Run(START, steps);
            && Contiguous(Log(s), s.view.events) && DistinctIds(s.view.events)
            && (s.view.paging == End && s.view.events != [] ==> s.view.events[|s.view.events| - 1] == Log(s)[0])
  {
    var s := Run(START, steps);
    assert Aligned(START, 0, 0);
    var lo, hi := CalmRunsStayAligned(START, steps, 0, 0);
    MatchingDistinct(s.view.filter, s.log);
  }

  lemma RunsNest(log: seq<Event>, log': seq<Event>, lo: nat, hi: nat, lo': nat, hi': nat)
    requires log <= log' && lo' <= lo <= hi <= hi' && hi <= |log| && hi' <= |log'|
    ensures forall e | e in Newest(log, lo, hi) :: e in Newest(log', lo', hi')
  {
    forall e | e in Newest(log, lo, hi)
      ensures e in Newest(log', lo', hi')
    {
      var k :| 0 <= k < hi - lo && Newest(log, lo, hi)[k] == e;
      assert Newest(log', lo', hi')[hi' - hi + k] == e;
    }
  }

  /** While the filter stays, a calm run only adds: every listed event stays listed. */
  lemma {:induction false} CalmListsOnlyGrow(before: seq<Step>, after: seq<Step>)
    requires Legal(START, before) && CalmRun(START, before)
    requires Legal(Run(START, before), after) && CalmRun(Run(START, before), after)
    requires forall i | 0 <= i < |after| :: !after[i].Filtered?
    ensures var s, s' := Run(START, before), Run(Run(START, before), after);
            forall e | e in s.view.events :: e in s'.view.events
  {
    var s := Run(START, before);
    var s' := Run(s, after);
    assert Aligned(START, 0, 0);
    var lo, hi := CalmRunsStayAligned(START, before, 0, 0);
    RunsAreSound(START, before);
    if s.view.events != [] {
      var lo', hi' := CalmRunsStayAligned(s, after, lo, hi);
      LogOnlyGrows(s, after);
      RunsNest(Log(s), Log(s'), lo, hi, lo', hi');
    }
  }

  lemma {:induction false} LogKeepsOldest(s: State, step: Step)
    requires Enabled(s, step) && !step.Filtered?
    ensures Log(s) <= Log(Apply(s, step))
  {
    SpawnKeepsFilter(s, step);
    if step.Grow? {
      MatchingAppends(s.view.filter, s.log, step.more);
    }
  }

  lemma {:induction false} LogOnlyGrows(s: State, steps: seq<Step>)
    requires Legal(s, steps) && forall i | 0 <= i < |steps| :: !steps[i].Filtered?
    ensures Run(s, steps).view.filter == s.view.filter && Log(s) <= Log(Run(s, steps))
    decreases |steps|
  {
    if steps != [] {
      SpawnKeepsFilter(s, steps[0]);
      LogKeepsOldest(s, steps[0]);
      LogOnlyGrows(Apply(s, steps[0]), steps[1..]);
    }
  }

  // ---------------------------------------------------------------- the selection in a calm run

  lemma {:induction false} RefreshedRun(s: State, id: nat, lo: nat, hi: nat)
    requires Sound(s) && Aligned(s, lo, hi) && Enabled(s, Deliver(id)) && s.view.events != []
    requires Carries(s, id, ActivityKey) && s.flights[id].req.filter == s.view.filter
    ensures var seen := s.flights[id].seen;
            hi <= seen <= |Log(s)| && Apply(s, Deliver(id)).view.events == Newest(Log(s), lo, seen)
  {
    assert FlightAligned(s, s.flights[id], lo, hi);
    RefreshedEvents(s, id, lo, hi);
  }

  lemma {:induction false} SelectedAgain(v: View, r: Response)
    requires SelectedEvent(v).Some?
    requires Position(SetActivity(v, v.filter, r).0.events, SelectedEvent(v).value.id).Some?
    ensures var v' := SetActivity(v, v.filter, r).0; v'.selected == Position(v'.events, SelectedEvent(v).value.id)
  {}

  /** A longer run of the same log lists the selected event, once. */
  lemma {:induction false} SelectedStays(v: View, v': View, log: seq<Event>, lo: nat, hi: nat, seen: nat)
    requires DistinctIds(log) && lo <= hi <= seen <= |log| && SelectedEvent(v).Some?
    requires v.events == Newest(log, lo, hi) && v'.events == Newest(log, lo, seen)
    requires v'.selected == Position(v'.events, SelectedEvent(v).value.id)
    ensures SelectedEvent(v') == SelectedEvent(v)
  {
    PositionInRun(log, lo, seen, hi - 1 - v.selected.value);
  }

  lemma {:induction false} MergeKeepsSelected(v: View, r: Response, log: seq<Event>, lo: nat, hi: nat, seen: nat)
    requires DistinctIds(log) && lo <= hi <= seen <= |log| && SelectedEvent(v).Some?
    requires v.events == Newest(log, lo, hi) && SetActivity(v, v.filter, r).0.events == Newest(log, lo, seen)
    ensures SelectedEvent(SetActivity(v, v.filter, r).0) == SelectedEvent(v)
  {
    var v' := SetActivity(v, v.filter, r).0;
    PositionInRun(log, lo, seen, hi - 1 - v.selected.value);
    SelectedAgain(v, r);
    SelectedStays(v, v', log, lo, hi, seen);
  }

  lemma {:induction false} RefreshedView(s: State, id: nat)
    requires Enabled(s, Deliver(id)) && Carries(s, id, ActivityKey) && s.flights[id].req.filter == s.view.filter
    ensures Apply(s, Deliver(id)).view == SetActivity(s.view, s.view.filter, s.flights[id].page).0
  {}

  lemma {:induction false} RefreshKeepsSelected(s: State, id: nat, lo: nat, hi: nat)
    requires Sound(s) && Aligned(s, lo, hi) && Enabled(s, Deliver(id))
    requires Carries(s, id, ActivityKey) && s.flights[id].req.filter == s.view.filter && SelectedEvent(s.view).Some?
    ensures SelectedEvent(Apply(s, Deliver(id)).view) == SelectedEvent(s.view)
  {
    RefreshedRun(s, id, lo, hi);
    RefreshedView(s, id);
    MatchingDistinct(s.view.filter, s.log);
    MergeKeepsSelected(s.view, s.flights[id].page, Log(s), lo, hi, s.flights[id].seen);
  }

  lemma {:induction false} StepKeepsSelected(s: State, step: Step, lo: nat, hi: nat)
    requires Sound(s) && Disciplined(s) && Aligned(s, lo, hi) && Enabled(s, step) && Calm(s, step)
    requires !step.Filtered? && !step.MoveTo? && SelectedEvent(s.view).Some?
    ensures SelectedEvent(Apply(s, step).view) == SelectedEvent(s.view)
  {
    if step.Deliver? && IsCurrent(s, step.id) {
      if s.flights[step.id].req.NextPage? {
        AppendedState(s, step.id);
      } else {
        RefreshKeepsSelected(s, step.id, lo, hi);
      }
    } else {
      LateStepChangesNothing(s, step);
    }
  }

  lemma {:induction false} AlignedSelectionStays(s: State, steps: seq<Step>, lo: nat, hi: nat)
    requires Sound(s) && Disciplined(s) && Aligned(s, lo, hi) && Legal(s, steps) && CalmRun(s, steps)
    requires forall i | 0 <= i < |steps| :: !steps[i].Filtered? && !steps[i].MoveTo?
    requires SelectedEvent(s.view).Some?
    ensures SelectedEvent(Run(s, steps).view) == SelectedEvent(s.view)
    decreases |steps|
  {
    if steps != [] {
      StepKeepsSelected(s, steps[0], lo, hi);
      var lo', hi' := StepKeepsAligned(s, steps[0], lo, hi);
      StepKeepsSound(s, steps[0]);
      StepKeepsDiscipline(s, steps[0]);
      AlignedSelectionStays(Apply(s, steps[0]), steps[1..], lo', hi');
    }
  }

  /**
   The same event stays selected through any calm run in which the user neither
   moves nor searches, whatever pages and refreshes arrive.
   */
  lemma CalmSelectionStays(before: seq<Step>, after: seq<Step>)
    requires Legal(START, before) && CalmRun(START, before)
    requires Legal(Run(START, before), after) && CalmRun(Run(START, before), after)
    requires forall i | 0 <= i < |after| :: !after[i].Filtered? && !after[i].MoveTo?
    requires SelectedEvent(Run(START, before).view).Some?
    ensures SelectedEvent(Run(Run(START, before), after).view) == SelectedEvent(Run(START, before).view)
  {
    assert Aligned(START, 0, 0);
    var lo, hi := CalmRunsStayAligned(START, before, 0, 0);
    RunsAreSound(START, before);
    AlignedSelectionStays(Run(START, before), after, lo, hi);
  }

  // ---------------------------------------------------------------- exactly when a delivery keeps the run

  /** A refresh keeps any contiguous list contiguous, calm or not. */
  lemma RefreshAlwaysContiguous(s: State, id: nat)
    requires Sound(s) && Enabled(s, Deliver(id)) && Carries(s, id, ActivityKey)
    requires Contiguous(Log(s), s.view.events) && s.flights[id].req.filter == s.view.filter
    ensures Contiguous(Log(s), Apply(s, Deliver(id)).view.events)
  {
    var lo: nat, hi: nat :| lo <= hi <= |Log(s)| && s.view.events == Newest(Log(s), lo, hi);
    RefreshedEvents(s, id, lo, hi);
  }

  /**
   A next page keeps the list contiguous if and only if, among the events the
   server had when it computed the page, the requested offset led to a place
   inside the list or right at its end (or one of the two is empty).
   */
  lemma DeliveryKeepsRunIff(s: State, id: nat, lo: nat, hi: nat)
    requires Sound(s) && Enabled(s, Deliver(id)) && Awaited(s, id)
    requires lo <= hi <= |Log(s)| && s.view.events == Newest(Log(s), lo, hi)
    ensures var fl := s.flights[id];
            Contiguous(Log(s), Apply(s, Deliver(id)).view.events)
            <==> s.view.events == [] || fl.seen <= fl.req.offset || lo + fl.req.offset <= fl.seen <= hi + fl.req.offset
  {
    var fl := s.flights[id];
    var b := Minus(fl.seen, fl.req.offset);
    AppendedEvents(s, id, lo, hi);
    MatchingDistinct(s.view.filter, s.log);
    AppendContiguousIff(Log(s), lo, hi, Minus(b, ACTIVITY_PAGE), b);
  }

  // ---------------------------------------------------------------- exactly when a whole run keeps it

  /** In the log, `next` is the event just before `e`. */
  ghost predicate Precedes(log: seq<Event>, next: Event, e: Event) {
    exists p | 0 < p < |log| :: log[p] == e && log[p - 1] == next
  }

  /** The page's newest event is listed already, or is the one that comes after the end of the list. */
  ghost predicate Continues(s: State, id: nat)
    requires id in s.flights && s.flights[id].Answered?
  {
    var events, page := s.view.events, s.flights[id].page.events;
    events == [] || page == [] || page[0] in events || Precedes(Log(s), page[0], events[|events| - 1])
  }

  lemma StartsInside(log: seq<Event>, lo: nat, hi: nat, b: nat)
    requires DistinctIds(log) && lo < hi <= |log| && 0 < b <= |log|
    ensures log[b - 1] in Newest(log, lo, hi) <==> lo < b <= hi
    ensures Precedes(log, log[b - 1], log[lo]) <==> lo == b
  {
    if lo < b <= hi {
      assert Newest(log, lo, hi)[hi - b] == log[b - 1];
    }
    if lo == b {
      assert log[b] == log[lo];
    }
  }

  lemma ContinuesIff(s: State, id: nat, lo: nat, hi: nat)
    requires Sound(s) && Enabled(s, Deliver(id)) && Awaited(s, id)
    requires lo <= hi <= |Log(s)| && s.view.events == Newest(Log(s), lo, hi)
    ensures Continues(s, id) <==> Contiguous(Log(s), Apply(s, Deliver(id)).view.events)
  {
    var fl, log := s.flights[id], Log(s);
    var b := Minus(fl.seen, fl.req.offset);
    AppendedEvents(s, id, lo, hi);
    DeliveryKeepsRunIff(s, id, lo, hi);
    MatchingDistinct(s.view.filter, s.log);
    if lo < hi && 0 < b {
      assert fl.page.events[0] == log[b - 1];
      StartsInside(log, lo, hi, b);
    }
  }

  /** The one step that can break a contiguous list. */
  predicate AppendsPage(s: State, step: Step) {
    step.Deliver? && step.id in s.flights && s.flights[step.id].req.NextPage? && IsCurrent(s, step.id)
  }

  lemma {:induction false} OtherStepsKeepContiguous(s: State, step: Step)
    requires Sound(s) && Enabled(s, step) && !AppendsPage(s, step)
    requires Contiguous(Log(s), s.view.events)
    ensures Contiguous(Log(Apply(s, step)), Apply(s, step).view.events)
  {
    match step
    case Grow(more) =>
      var lo: nat, hi: nat :| lo <= hi <= |Log(s)| && s.view.events == Newest(Log(s), lo, hi);
      MatchingAppends(s.view.filter, s.log, more);
      RunOfPrefix(Log(s), Matching(s.view.filter, more), lo, hi);
    case Filtered(f) => assert Apply(s, step).view.events == Newest(Log(Apply(s, step)), 0, 0);
    case Deliver(id) =>
      if IsCurrent(s, id) {
        RefreshAlwaysContiguous(s, id);
      } else {
        LateStepChangesNothing(s, step);
      }
    case MoveTo(_) =>
    case _ => LateStepChangesNothing(s, step);
  }

  lemma {:induction false} StepKeepsContiguousIff(s: State, step: Step)
    requires Sound(s) && Enabled(s, step) && Contiguous(Log(s), s.view.events)
    ensures Contiguous(Log(Apply(s, step)), Apply(s, step).view.events)
            <==> (AppendsPage(s, step) ==> Continues(s, step.id))
  {
    if AppendsPage(s, step) {
      var lo: nat, hi: nat :| lo <= hi <= |Log(s)| && s.view.events == Newest(Log(s), lo, hi);
      ContinuesIff(s, step.id, lo, hi);
      assert Log(Apply(s, step)) == Log(s);
    } else {
      OtherStepsKeepContiguous(s, step);
    }
  }

  /** The list is one gap-free run of the matching log in every state of the run. */
  ghost predicate AlwaysContiguous(s: State, steps: seq<Step>)
    requires Legal(s, steps)
    decreases |steps|
  {
    && Contiguous(Log(s), s.view.events)
    && (steps != [] ==> AlwaysContiguous(Apply(s, steps[0]), steps[1..]))
  }

  /** Every next page that is appended continues the list. */
  ghost predicate PagesContinue(s: State, steps: seq<Step>)
    requires Legal(s, steps)
    decreases |steps|
  {
    steps != [] ==>
      && (AppendsPage(s, steps[0]) ==> Continues(s, steps[0].id))
      && PagesContinue(Apply(s, steps[0]), steps[1..])
  }

  lemma {:induction false} RunStaysContiguousIff(s: State, steps: seq<Step>)
    requires Sound(s) && Disciplined(s) && Legal(s, steps) && Contiguous(Log(s), s.view.events)
    ensures AlwaysContiguous(s, steps) <==> PagesContinue(s, steps)
    decreases |steps|
  {
    if steps != [] {
      var s1 := Apply(s, steps[0]);
      StepKeepsContiguousIff(s, steps[0]);
      StepKeepsSound(s, steps[0]);
      StepKeepsDiscipline(s, steps[0]);
      if Contiguous(Log(s1), s1.view.events) {
        RunStaysContiguousIff(s1, steps[1..]);
      }
    }
  }

  /**
   For every run, calm or not: the list is contiguous in every state of the run if
   and only if every next page appended in it continues the list.
   */
  lemma ContiguousIffPagesContinue(steps: seq<Step>)
    requires Legal(START, steps)
    ensures AlwaysContiguous(START, steps) <==> PagesContinue(START, steps)
  {
    assert START.view.events == Newest(Log(START), 0, 0);
    RunStaysContiguousIff(START, steps);
  }
}
