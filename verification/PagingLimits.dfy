/**
 Histories of the client whose activity list goes wrong. Two end out of order or
 with a gap; each breaks one of the two conditions of a calm run. A third is calm
 and ends with an incomplete list that does not say so.
 */
module PagingLimits {
  import opened Outcomes
  import opened Search
  import opened Activity
  import opened TuiApp
  import opened EventLoop
  import opened ActivityPaging
  import opened ClientLoop
  import opened ClientHistories
  import opened ActivityBrowsing

  /** A next page that starts neither inside the list nor right after it. */
  lemma BreakRun(rules: RowRules, hs: seq<Happening>, c: Client, id: nat, lo: nat, hi: nat)
    requires Reached(rules, hs, c) && CanHappen(c, Arrival(id)) && Awaited(Loop(c), id)
    requires lo < hi <= |Log(Loop(c))| && c.app.view.events == Newest(Log(Loop(c)), lo, hi)
    requires var fl := c.flights[id]; fl.req.offset < fl.seen && !(lo + fl.req.offset <= fl.seen <= hi + fl.req.offset)
    ensures Reached(rules, hs + [Arrival(id)], Next(c, Arrival(id))) && !ShowsRun(Next(c, Arrival(id)))
  {
    ClientIsSound(rules, hs);
    DeliveryKeepsRunIff(Loop(c), id, lo, hi);
    ResponseIsStep(c, id, NO_LISTS);
    var c' := Go(rules, hs, c, Arrival(id));
  }

  // ---------------------------------------------------------------- a burst

  function Burst(log: seq<Event>, more: seq<Event>): seq<Happening> {
    Opening(log) + [ServerLogs(more), ServerAnswers(2, |log + more|), Arrival(2)]
  }

  lemma AnswerAfterBurst(rules: RowRules, log: seq<Event>, more: seq<Event>) returns (c: Client)
    requires DistinctIds(log + more) && |log| > ACTIVITY_PAGE
    ensures Reached(rules, Opening(log) + [ServerLogs(more), ServerAnswers(2, |log + more|)], c)
    ensures c.log == log + more && c.app.view.filter == NO_FILTER && 2 in c.flights && c.flights[2].Answered?
    ensures c.app.view.events == Newest(log + more, |log| - ACTIVITY_PAGE, |log|)
    ensures c.flights[2].req == NextPage(NO_FILTER, ACTIVITY_PAGE) && c.flights[2].seen == |log + more|
  {
    PrefixIsDistinct(log, more);
    c := NextPageAsked(rules, log);
    var hs := Opening(log);
    c := Go(rules, hs, c, ServerLogs(more));
    RunOfPrefix(log, more, |log| - ACTIVITY_PAGE, |log|);
    c := AnswerAll(rules, hs + [ServerLogs(more)], c, 2);
    assert (hs + [ServerLogs(more)]) + [ServerAnswers(2, |log + more|)]
        == hs + [ServerLogs(more), ServerAnswers(2, |log + more|)];
  }

  /** More than a page of events between a request and its answer: newer events end up below older ones. */
  lemma {:induction false} BurstBreaksOrder(rules: RowRules, log: seq<Event>, more: seq<Event>)
    requires DistinctIds(log + more) && |log| > ACTIVITY_PAGE && |more| > ACTIVITY_PAGE
    ensures Begun(rules).app.Valid() && History(Begun(rules), Burst(log, more))
    ensures !ShowsRun(After(Begun(rules), Burst(log, more)))
  {
    var c := AnswerAfterBurst(rules, log, more);
    var hs := Opening(log) + [ServerLogs(more), ServerAnswers(2, |log + more|)];
    AllMatch(c.log);
    BreakRun(rules, hs, c, 2, |log| - ACTIVITY_PAGE, |log|);
    assert hs + [Arrival(2)] == Burst(log, more);
  }

  // ---------------------------------------------------------------- a detour

  function Typed(query: string): seq<Happening> {
    seq(|query|, i requires 0 <= i < |query| => KeyPressed(Char(query[i], false)))
  }

  /** Typing a search changes the query and nothing else. */
  lemma {:induction false} TypeQuery(rules: RowRules, hs: seq<Happening>, c: Client, query: string) returns (c': Client)
    requires Reached(rules, hs, c) && OnActivity(c.app, Typing)
    ensures Reached(rules, hs + Typed(query), c') && OnActivity(c'.app, Typing)
    ensures c' == c.(app := c.app.(queries := c.app.queries[3 := c.app.queries[3] + query]))
    decreases |query|
  {
    if query == "" {
      assert hs + Typed(query) == hs && c.app.queries[3] + query == c.app.queries[3];
      assert c.app.queries[3 := c.app.queries[3]] == c.app.queries;
      c' := c;
    } else {
      var key := KeyPressed(Char(query[0], false));
      CharIsTyped(c.app, query[0]);
      var c1 := Go(rules, hs, c, key);
      c' := TypeQuery(rules, hs + [key], c1, query[1..]);
      assert (hs + [key]) + Typed(query[1..]) == hs + Typed(query);
      assert (c.app.queries[3] + [query[0]]) + query[1..] == c.app.queries[3] + query;
      assert c1.app.queries[3 := c.app.queries[3] + query] == c.app.queries[3 := c.app.queries[3] + query];
    }
  }

  function ThereAndBack(query: string): seq<Happening> {
    [KeyPressed(Char('/', false))] + Typed(query) + [KeyPressed(Enter), KeyPressed(Esc)]
  }

  /** The prompt is opened and the search typed. */
  lemma {:induction false} EnterQuery(rules: RowRules, hs: seq<Happening>, c: Client, query: string)
    returns (c': Client)
    requires Reached(rules, hs, c) && OnActivity(c.app, Normal) && c.app.queries[3] == ""
    ensures Reached(rules, (hs + [KeyPressed(Char('/', false))]) + Typed(query), c') && OnActivity(c'.app, Typing)
    ensures c' == c.(app := c'.app) && c'.app.view == c.app.view && c'.app.queries[3] == query
  {
    SlashOpensPrompt(c.app);
    c' := Go(rules, hs, c, KeyPressed(Char('/', false)));
    c' := TypeQuery(rules, hs + [KeyPressed(Char('/', false))], c', query);
    assert "" + query == query;
  }

  /** A search for a new filter asks for its first page. */
  lemma {:induction false} SendSearch(rules: RowRules, hs: seq<Happening>, c: Client) returns (c': Client)
    requires Reached(rules, hs, c) && OnActivity(c.app, Typing) && c.inFlight == {StatusKey}
    requires Filter(c.app.queries[3]) != c.app.view.filter
    ensures var f := Filter(c.app.queries[3]);
            && Reached(rules, hs + [KeyPressed(Enter)], c') && OnActivity(c'.app, Normal) && c'.app.view.filter == f
            && c'.log == c.log && c'.inFlight == {StatusKey, ActivityKey} && c'.nextId == c.nextId + 1
            && c'.flights == c.flights[c.nextId := Asked(Fetch(ActivityKey, f))]
  {
    EnterSearches(c.app);
    c' := Go(rules, hs, c, KeyPressed(Enter));
  }

  /** Clearing a search whose first page is still on its way asks for nothing new. */
  lemma {:induction false} ClearAtOnce(rules: RowRules, hs: seq<Happening>, c: Client) returns (c': Client)
    requires Reached(rules, hs, c) && OnActivity(c.app, Normal) && c.app.view.filter != NO_FILTER
    requires c.inFlight == {StatusKey, ActivityKey}
    ensures Reached(rules, hs + [KeyPressed(Esc)], c') && Blank(c') && c' == c.(app := c'.app)
  {
    EscapeClears(c.app);
    c' := Go(rules, hs, c, KeyPressed(Esc));
  }

  /** The search is entered, sent, and cleared again at once. */
  lemma {:induction false} SearchAndClear(rules: RowRules, hs: seq<Happening>, c: Client, query: string)
    returns (c': Client)
    requires Reached(rules, hs, c) && OnActivity(c.app, Normal) && c.app.queries[3] == "" && c.inFlight == {StatusKey}
    requires c.app.view.filter == NO_FILTER != Filter(query)
    ensures Reached(rules, hs + ThereAndBack(query), c') && c'.log == c.log && Blank(c')
    ensures c'.flights == c.flights[c.nextId := Asked(Fetch(ActivityKey, Filter(query)))] && c'.nextId == c.nextId + 1
    ensures c'.inFlight == {StatusKey, ActivityKey}
  {
    var typed := (hs + [KeyPressed(Char('/', false))]) + Typed(query);
    c' := EnterQuery(rules, hs, c, query);
    c' := SendSearch(rules, typed, c');
    c' := ClearAtOnce(rules, typed + [KeyPressed(Enter)], c');
    assert (typed + [KeyPressed(Enter)]) + [KeyPressed(Esc)] == hs + ThereAndBack(query);
  }

  function Detour(log: seq<Event>, query: string): seq<Happening> {
    Opening(log) + [ServerAnswers(2, |log|)] + ThereAndBack(query)
    + [ServerAnswers(3, |Matching(Filter(query), log)|), Arrival(3)]
  }

  /** A first page for the filter that was left is refused, and the current one is asked for. */
  lemma {:induction false} FirstPageRefused(c: Client, id: nat, f: ActivityFilter)
    requires Blank(c) && f != NO_FILTER && c.inFlight == {StatusKey, ActivityKey} && c.nextId !in c.flights
    requires id in c.flights && c.flights[id].Answered? && c.flights[id].req == Fetch(ActivityKey, f)
    ensures var c' := Next(c, Arrival(id));
            && c'.log == c.log && Blank(c')
            && c'.flights == (c.flights - {id})[c.nextId := Asked(Fetch(ActivityKey, NO_FILTER))]
  {}

  lemma {:induction false} RefuseFirstPage(rules: RowRules, hs: seq<Happening>, c: Client, id: nat, f: ActivityFilter)
    returns (c': Client)
    requires Reached(rules, hs, c) && Blank(c) && f != NO_FILTER && c.inFlight == {StatusKey, ActivityKey}
    requires id in c.flights && c.flights[id] == Asked(Fetch(ActivityKey, f)) && c.nextId !in c.flights
    ensures Reached(rules, hs + [ServerAnswers(id, |Matching(f, c.log)|), Arrival(id)], c')
    ensures c'.log == c.log && Blank(c')
    ensures c'.flights == (c.flights - {id})[c.nextId := Asked(Fetch(ActivityKey, NO_FILTER))]
  {
    var answer := ServerAnswers(id, |Matching(f, c.log)|);
    var c1 := AnswerOne(rules, hs, c, id);
    FirstPageRefused(c1, id, f);
    c' := Go(rules, hs + [answer], c1, Arrival(id));
    assert c1.flights - {id} == c.flights - {id};
    assert (hs + [answer]) + [Arrival(id)] == hs + [answer, Arrival(id)];
  }

  /** The search is changed and changed back while the answered next page is still on its way. */
  lemma TakeDetour(rules: RowRules, log: seq<Event>, query: string) returns (c: Client)
    requires DistinctIds(log) && |log| > ACTIVITY_PAGE && Filter(query) != NO_FILTER
    ensures Reached(rules, Detour(log, query), c) && c.log == log && Blank(c)
    ensures c.flights.Keys == {0, 2, 4} && c.flights[4] == Asked(Fetch(ActivityKey, NO_FILTER))
    ensures c.flights[2].Answered?
    ensures c.flights[2].req == NextPage(NO_FILTER, ACTIVITY_PAGE) && c.flights[2].seen == |log|
  {
    c := NextPageAsked(rules, log);
    var hs := Opening(log);
    c := AnswerAll(rules, hs, c, 2);
    hs := hs + [ServerAnswers(2, |log|)];
    c := SearchAndClear(rules, hs, c, query);
    assert c.flights.Keys == {0, 2, 3};
    c := RefuseFirstPage(rules, hs + ThereAndBack(query), c, 3, Filter(query));
  }

  function Return(log: seq<Event>, more: seq<Event>, query: string): seq<Happening> {
    Detour(log, query) + [ServerLogs(more), ServerAnswers(4, |log + more|), Arrival(4)]
  }

  lemma {:induction false} ComeBack(rules: RowRules, log: seq<Event>, more: seq<Event>, query: string)
    returns (c: Client)
    requires DistinctIds(log + more) && |log| > ACTIVITY_PAGE && Filter(query) != NO_FILTER
    ensures Reached(rules, Return(log, more, query), c) && c.log == log + more && FirstPageListed(c, |log + more|)
    ensures 2 in c.flights && c.flights[2].Answered?
    ensures c.flights[2].req == NextPage(NO_FILTER, ACTIVITY_PAGE) && c.flights[2].seen == |log|
  {
    PrefixIsDistinct(log, more);
    c := TakeDetour(rules, log, query);
    var hs := Detour(log, query);
    c := LogMore(rules, hs, c, more);
    c := LoadFirstPage(rules, hs + [ServerLogs(more)], c, 4);
    assert (hs + [ServerLogs(more)]) + [ServerAnswers(4, |log + more|), Arrival(4)] == Return(log, more, query);
  }

  /** A next page that was answered before the log grew lands below a newer first page. */
  lemma {:induction false} GapBelowFirstPage(rules: RowRules, hs: seq<Happening>, c: Client)
    requires Reached(rules, hs, c) && FirstPageListed(c, |c.log|) && 2 in c.flights && c.flights[2].Answered?
    requires c.flights[2].req == NextPage(NO_FILTER, ACTIVITY_PAGE) && ACTIVITY_PAGE < c.flights[2].seen < |c.log|
    ensures Awaited(Loop(c), 2) && OnKey(c.app, Char('G', false)).1 == Some(LoadMoreActivity)
    ensures Reached(rules, hs + [Arrival(2)], Next(c, Arrival(2))) && !ShowsRun(Next(c, Arrival(2)))
  {
    BottomKeyAsks(c.app);
    AllMatch(c.log);
    BreakRun(rules, hs, c, 2, |c.log| - ACTIVITY_PAGE, |c.log|);
  }

  /**
   A filter left and returned to, with any number of new events: the old next page
   lands under a newer list and leaves a gap. Just before, that page is still
   outstanding although the list is idle, and going to its end asks for another.
   */
  lemma {:induction false} DetourLeavesGap(rules: RowRules, log: seq<Event>, more: seq<Event>, query: string)
    requires DistinctIds(log + more) && |log| > ACTIVITY_PAGE && more != [] && Filter(query) != NO_FILTER
    ensures Begun(rules).app.Valid() && History(Begun(rules), Return(log, more, query))
    ensures var c := After(Begun(rules), Return(log, more, query));
            && Awaited(Loop(c), 2) && c.app.view.paging == Idle && |c.app.queries| == 5
            && OnKey(c.app, Char('G', false)).1 == Some(LoadMoreActivity)
    ensures History(Begun(rules), Return(log, more, query) + [Arrival(2)])
    ensures !ShowsRun(After(Begun(rules), Return(log, more, query) + [Arrival(2)]))
  {
    var c := ComeBack(rules, log, more, query);
    GapBelowFirstPage(rules, Return(log, more, query), c);
  }

  // ---------------------------------------------------------------- a page that comes too late

  lemma {:induction false} TraceOneMore(c: Client, hs: seq<Happening>, h: Happening)
    requires c.app.Valid() && History(c, hs) && After(c, hs).app.Valid() && CanHappen(After(c, hs), h)
    requires History(c, hs + [h])
    ensures Trace(c, hs + [h]) == Trace(c, hs) + Steps(After(c, hs), h)
    decreases |hs|
  {
    if hs == [] {
      HappeningIsRun(c, h);
      assert [] + [h] == [h] && [h][1..] == [];
      assert History(Next(c, h), []);
    } else {
      HappeningIsRun(c, hs[0]);
      assert (hs + [h])[1..] == hs[1..] + [h] && (hs + [h])[0] == hs[0];
      TraceOneMore(Next(c, hs[0]), hs[1..], h);
    }
  }

  lemma {:induction false} CalmAppends(s: State, a: seq<Step>, b: seq<Step>)
    requires Legal(s, a) && CalmRun(s, a) && Legal(Run(s, a), b) && CalmRun(Run(s, a), b)
    ensures Legal(s, a + b) && CalmRun(s, a + b)
    decreases |a|
  {
    if a == [] {
      assert a + b == b;
    } else {
      assert (a + b)[1..] == a[1..] + b;
      CalmAppends(Apply(s, a[0]), a[1..], b);
    }
  }

  /** A history with a calm trace. */
  ghost predicate Calmly(rules: RowRules, hs: seq<Happening>, c: Client) {
    && Reached(rules, hs, c)
    && Legal(START, Trace(Begun(rules), hs)) && CalmRun(START, Trace(Begun(rules), hs))
  }

  lemma {:induction false} GoCalmly(rules: RowRules, hs: seq<Happening>, c: Client, h: Happening)
    requires Calmly(rules, hs, c) && CanHappen(c, h)
    requires Legal(Loop(c), Steps(c, h)) ==> CalmRun(Loop(c), Steps(c, h))
    ensures Calmly(rules, hs + [h], Next(c, h))
  {
    var c' := Go(rules, hs, c, h);
    HappeningIsRun(c, h);
    HistoriesAreRuns(Begun(rules), hs);
    TraceOneMore(Begun(rules), hs, h);
    CalmAppends(START, Trace(Begun(rules), hs), Steps(c, h));
  }

  lemma {:induction false} QuietRunIsCalm(s: State, steps: seq<Step>)
    requires Legal(s, steps) && forall i | 0 <= i < |steps| :: !steps[i].Answer? && !steps[i].Filtered?
    ensures CalmRun(s, steps)
    decreases |steps|
  {
    if steps != [] {
      QuietRunIsCalm(Apply(s, steps[0]), steps[1..]);
    }
  }

  /** Only an answer and a new search can break the calm. */
  lemma {:induction false} GoQuietly(rules: RowRules, hs: seq<Happening>, c: Client, h: Happening)
    requires Calmly(rules, hs, c) && CanHappen(c, h) && !h.ServerAnswers?
    requires h.KeyPressed? ==> OnKey(c.app, h.key).0.view.filter == c.app.view.filter
    ensures Calmly(rules, hs + [h], Next(c, h))
  {
    HappeningIsRun(c, h);
    QuietRunIsCalm(Loop(c), Steps(c, h));
    GoCalmly(rules, hs, c, h);
  }

  lemma {:induction false} GoAnswering(rules: RowRules, hs: seq<Happening>, c: Client, id: nat, counted: nat)
    requires Calmly(rules, hs, c) && CanHappen(c, ServerAnswers(id, counted)) && Calm(Loop(c), Answer(id, counted))
    ensures Calmly(rules, hs + [ServerAnswers(id, counted)], Next(c, ServerAnswers(id, counted)))
  {
    RunsOne(Loop(c), Answer(id, counted));
    assert [Answer(id, counted)][1..] == [];
    GoCalmly(rules, hs, c, ServerAnswers(id, counted));
  }

  lemma {:induction false} CalmTab(rules: RowRules, log: seq<Event>) returns (c: Client)
    requires DistinctIds(log)
    ensures Calmly(rules, [ServerLogs(log), ACTIVITY_TAB], c)
  {
    BegunIsValid(rules);
    assert [] + log == log && [] + [ServerLogs(log)] == [ServerLogs(log)];
    assert Calmly(rules, [], Begun(rules));
    GoQuietly(rules, [], Begun(rules), ServerLogs(log));
    c := Next(Begun(rules), ServerLogs(log));
    ActivityKeyOpens(c.app);
    GoQuietly(rules, [ServerLogs(log)], c, ACTIVITY_TAB);
    c := Next(c, ACTIVITY_TAB);
    assert [ServerLogs(log)] + [ACTIVITY_TAB] == [ServerLogs(log), ACTIVITY_TAB];
  }

  lemma {:induction false} CalmAnswer(rules: RowRules, log: seq<Event>) returns (c: Client)
    requires DistinctIds(log)
    ensures Calmly(rules, [ServerLogs(log), ACTIVITY_TAB] + [ServerAnswers(1, |log|)], c)
    ensures 1 in c.flights && c.flights[1].Answered?
  {
    var hs := [ServerLogs(log), ACTIVITY_TAB];
    var quiet := CalmTab(rules, log);
    var c1 := OpenTab(rules, log);
    AllMatch(log);
    GoAnswering(rules, hs, c1, 1, |log|);
    c := Next(c1, ServerAnswers(1, |log|));
  }

  lemma {:induction false} CalmFirstPage(rules: RowRules, log: seq<Event>) returns (c: Client)
    requires DistinctIds(log) && |log| > ACTIVITY_PAGE
    ensures Calmly(rules, [ServerLogs(log), ACTIVITY_TAB] + [ServerAnswers(1, |log|), Arrival(1)], c)
    ensures FirstPageListed(c, |log|) && c.log == log
  {
    var hs := [ServerLogs(log), ACTIVITY_TAB];
    var c2 := CalmAnswer(rules, log);
    GoQuietly(rules, hs + [ServerAnswers(1, |log|)], c2, Arrival(1));
    assert hs + [ServerAnswers(1, |log|)] + [Arrival(1)] == hs + [ServerAnswers(1, |log|), Arrival(1)];
    var c1 := OpenTab(rules, log);
    c := LoadFirstPage(rules, hs, c1, 1);
  }

  lemma {:induction false} CalmOpening(rules: RowRules, log: seq<Event>) returns (c: Client)
    requires DistinctIds(log) && |log| > ACTIVITY_PAGE
    ensures Calmly(rules, Opening(log), c)
  {
    var hs := [ServerLogs(log), ACTIVITY_TAB] + [ServerAnswers(1, |log|), Arrival(1)];
    var c1 := CalmFirstPage(rules, log);
    BottomKeyAsks(c1.app);
    GoQuietly(rules, hs, c1, TO_BOTTOM);
    c := Next(c1, TO_BOTTOM);
    assert hs + [TO_BOTTOM] == Opening(log);
  }

  function Polled(log: seq<Event>, more: seq<Event>): seq<Happening> {
    Opening(log) + [ServerAnswers(2, |log|), ServerLogs(more), PollDue]
  }

  function LatePage(log: seq<Event>, more: seq<Event>): seq<Happening> {
    Polled(log, more) + [ServerAnswers(3, |log + more|), Arrival(3), Arrival(2)]
  }

  /** The next page of `log`, computed and on its way as flight 2. */
  ghost predicate NextPageOnItsWay(c: Client, log: seq<Event>) {
    2 in c.flights && c.flights[2] == Answered(NextPage(NO_FILTER, ACTIVITY_PAGE),
                                               ActivityPage(log, ACTIVITY_PAGE, ACTIVITY_PAGE, |log|), |log|)
  }

  ghost predicate FirstPageLoading(c: Client, log: seq<Event>) {
    && OnActivity(c.app, Normal) && |log| > ACTIVITY_PAGE
    && c.app.view == View(NO_FILTER, Newest(log, |log| - ACTIVITY_PAGE, |log|), |log|, Loading, Some(ACTIVITY_PAGE - 1))
  }

  ghost predicate RefreshAnswered(c: Client, log: seq<Event>, more: seq<Event>) {
    && c.log == log + more && FirstPageLoading(c, log) && NextPageOnItsWay(c, log) && 3 in c.flights
    && c.flights[3] == Answered(Fetch(ActivityKey, NO_FILTER), ActivityPage(c.log, ACTIVITY_PAGE, 0, |c.log|), |c.log|)
  }

  /** The older next page is still on its way under a refreshed list. */
  ghost predicate OvertakenPage(c: Client, log: seq<Event>, more: seq<Event>) {
    && c.log == log + more && |log| > ACTIVITY_PAGE && NextPageOnItsWay(c, log) && OnActivity(c.app, Normal)
    && c.app.view == View(NO_FILTER, Newest(c.log, |log| - ACTIVITY_PAGE, |c.log|), |c.log|, Loading,
                          c.app.view.selected)
  }

  lemma {:induction false} CalmNextAnswer(rules: RowRules, log: seq<Event>, c: Client)
    requires DistinctIds(log) && |log| > ACTIVITY_PAGE && Calmly(rules, Opening(log), c) && c.log == log
    requires FirstPageLoading(c, log) && 2 in c.flights && c.flights[2] == Asked(NextPage(NO_FILTER, ACTIVITY_PAGE))
    ensures Matching(NO_FILTER, log) == log
    ensures Calmly(rules, Opening(log) + [ServerAnswers(2, |log|)], Next(c, ServerAnswers(2, |log|)))
  {
    AllMatch(log);
    FirstPageShows(log, |log| - ACTIVITY_PAGE, |log|);
    GoAnswering(rules, Opening(log), c, 2, |log|);
  }

  lemma {:induction false} AnswerNextPage(rules: RowRules, log: seq<Event>) returns (c: Client)
    requires DistinctIds(log) && |log| > ACTIVITY_PAGE
    ensures Calmly(rules, Opening(log) + [ServerAnswers(2, |log|)], c)
    ensures c.log == log && FirstPageLoading(c, log) && NextPageOnItsWay(c, log)
    ensures c.inFlight == {StatusKey} && c.nextId == 3
  {
    var quiet := CalmOpening(rules, log);
    var c1 := NextPageAsked(rules, log);
    CalmNextAnswer(rules, log, c1);
    c := AnswerAll(rules, Opening(log), c1, 2);
  }

  lemma {:induction false} PollAfterGrowth(rules: RowRules, log: seq<Event>, more: seq<Event>) returns (c: Client)
    requires DistinctIds(log + more) && |log| > ACTIVITY_PAGE
    ensures Calmly(rules, Polled(log, more), c)
    ensures c.log == log + more && FirstPageLoading(c, log) && NextPageOnItsWay(c, log)
    ensures 3 in c.flights && c.flights[3] == Asked(Fetch(ActivityKey, NO_FILTER))
  {
    var hs := Opening(log) + [ServerAnswers(2, |log|)];
    PrefixIsDistinct(log, more);
    var c1 := AnswerNextPage(rules, log);
    GoQuietly(rules, hs, c1, ServerLogs(more));
    var c2 := Next(c1, ServerLogs(more));
    GoQuietly(rules, hs + [ServerLogs(more)], c2, PollDue);
    c := Next(c2, PollDue);
    assert hs + [ServerLogs(more)] + [PollDue] == Polled(log, more);
  }

  /** A first page with fewer than a page of new events on top of a list that is loading. */
  lemma {:induction false} MergedWhileLoading(v: View, log: seq<Event>, lo: nat, hi: nat)
    requires DistinctIds(log) && lo < hi <= |log| && lo + ACTIVITY_PAGE <= |log| < hi + ACTIVITY_PAGE
    requires v.events == Newest(log, lo, hi) && v.filter == NO_FILTER && v.paging == Loading
    ensures var (v', current) := SetActivity(v, NO_FILTER, ActivityPage(log, ACTIVITY_PAGE, 0, |log|));
            current && v' == View(NO_FILTER, Newest(log, lo, |log|), |log|, Loading, v'.selected)
  {
    MergeRuns(log, lo, hi, |log|);
  }

  lemma {:induction false} FirstPageArrives(c: Client, id: nat)
    requires c.app.Valid() && id in c.flights && c.flights[id].Answered?
    requires c.flights[id].req == Fetch(ActivityKey, NO_FILTER) && c.app.view.filter == NO_FILTER
    ensures var c' := Next(c, Arrival(id));
            && c'.log == c.log && c'.flights == c.flights - {id}
            && c'.app == c.app.(view := SetActivity(c.app.view, NO_FILTER, c.flights[id].page).0)
  {
    PageIsSeen(c.app, c.flights[id], NO_LISTS);
    assert !Refused(c.app, c.flights[id]);
    assert Next(c, Arrival(id)) == AfterResponse(c, id, NO_LISTS);
  }

  lemma {:induction false} AnswerRefresh(rules: RowRules, log: seq<Event>, more: seq<Event>) returns (c: Client)
    requires DistinctIds(log + more) && |log| > ACTIVITY_PAGE && |more| < ACTIVITY_PAGE
    ensures Calmly(rules, Polled(log, more) + [ServerAnswers(3, |log + more|)], c)
    ensures RefreshAnswered(c, log, more)
  {
    var c1 := PollAfterGrowth(rules, log, more);
    AllMatch(c1.log);
    RunOfPrefix(log, more, |log| - ACTIVITY_PAGE, |log|);
    FirstPageShows(c1.log, |log| - ACTIVITY_PAGE, |log|);
    GoAnswering(rules, Polled(log, more), c1, 3, |log + more|);
    c := AnswerAll(rules, Polled(log, more), c1, 3);
  }

  lemma {:induction false} RefreshDelivered(c: Client, log: seq<Event>, more: seq<Event>)
    requires c.app.Valid() && DistinctIds(log + more) && RefreshAnswered(c, log, more) && |more| < ACTIVITY_PAGE
    ensures CanHappen(c, Arrival(3)) && OvertakenPage(Next(c, Arrival(3)), log, more)
  {
    RunOfPrefix(log, more, |log| - ACTIVITY_PAGE, |log|);
    MergedWhileLoading(c.app.view, c.log, |log| - ACTIVITY_PAGE, |log|);
    FirstPageArrives(c, 3);
  }

  lemma {:induction false} RefreshBeforePage(rules: RowRules, log: seq<Event>, more: seq<Event>) returns (c: Client)
    requires DistinctIds(log + more) && |log| > ACTIVITY_PAGE && |more| < ACTIVITY_PAGE
    ensures Calmly(rules, Polled(log, more) + [ServerAnswers(3, |log + more|)] + [Arrival(3)], c)
    ensures OvertakenPage(c, log, more)
  {
    var c1 := AnswerRefresh(rules, log, more);
    RefreshDelivered(c1, log, more);
    GoQuietly(rules, Polled(log, more) + [ServerAnswers(3, |log + more|)], c1, Arrival(3));
    c := Next(c1, Arrival(3));
  }

  /** The older page is appended, and the total goes back to what it was then. */
  lemma {:induction false} OlderPageArrives(c: Client, log: seq<Event>, more: seq<Event>)
    requires DistinctIds(log + more) && OvertakenPage(c, log, more) && |log| >= 2 * ACTIVITY_PAGE
    ensures var c' := Next(c, Arrival(2));
            && c'.log == c.log && OnActivity(c'.app, Normal)
            && c'.app.view == View(NO_FILTER, Newest(c.log, |log| - 2 * ACTIVITY_PAGE, |c.log|), |log|, Idle,
                                   c'.app.view.selected)
  {
    var lo := |log| - ACTIVITY_PAGE;
    RunOfPrefix(log, more, lo - ACTIVITY_PAGE, lo);
    assert c.flights[2].page == Response(Newest(c.log, lo - ACTIVITY_PAGE, lo), |log|);
    AppendRuns(c.log, lo, |c.log|, lo - ACTIVITY_PAGE, lo);
  }

  lemma {:induction false} BottomKeyAsksNothing(a: AppState)
    requires OnActivity(a, Normal) && a.view.events != [] && |a.view.events| >= a.view.total
    ensures OnKey(a, Char('G', false)).1 == None
  {}

  lemma {:induction false} RestIsHidden(c: Client, lo: nat)
    requires OnActivity(c.app, Normal) && DistinctIds(c.log) && 0 < lo < |c.log|
    requires c.app.view.filter == NO_FILTER && c.app.view.events == Newest(c.log, lo, |c.log|)
    requires |c.app.view.events| >= c.app.view.total
    ensures var v := c.app.view;
            && v.events[|v.events| - 1] != c.log[0] && !SaysMore(Loop(c)) && OnKey(c.app, Char('G', false)).1 == None
  {
    AllMatch(c.log);
    BottomKeyAsksNothing(c.app);
  }

  /**
   A next page that arrives after a newer first page sets the total back. In this
   calm history, for any log of more than two pages and fewer than a page of new
   events that outnumber what lies beyond the two, the list then leaves out the oldest
   events, says that there is no more, and the key to its end asks for nothing.
   */
  lemma {:induction false} LatePageHidesRest(rules: RowRules, log: seq<Event>, more: seq<Event>)
    requires DistinctIds(log + more) && 2 * ACTIVITY_PAGE < |log| <= 2 * ACTIVITY_PAGE + |more|
    requires |more| < ACTIVITY_PAGE
    ensures exists c :: Calmly(rules, LatePage(log, more), c)
    ensures Begun(rules).app.Valid() && History(Begun(rules), LatePage(log, more))
    ensures var c := After(Begun(rules), LatePage(log, more)); var v := c.app.view;
            && c.log == log + more && v.events != [] && v.events[|v.events| - 1] != log[0] && v.paging == Idle
            && !SaysMore(Loop(c)) && OnActivity(c.app, Normal) && OnKey(c.app, Char('G', false)).1 == None
  {
    var hs := Polled(log, more) + [ServerAnswers(3, |log + more|)] + [Arrival(3)];
    var c := RefreshBeforePage(rules, log, more);
    OlderPageArrives(c, log, more);
    GoQuietly(rules, hs, c, Arrival(2));
    assert hs + [Arrival(2)] == LatePage(log, more);
    assert (log + more)[0] == log[0];
    RestIsHidden(Next(c, Arrival(2)), |log| - 2 * ACTIVITY_PAGE);
  }
}
