/** Histories of the client built happening by happening, from its start up to its first next page. */
module ClientHistories {
  import opened Outcomes
  import opened Search
  import opened Activity
  import opened TuiApp
  import opened EventLoop
  import opened ClientLoop

  const ACTIVITY_TAB := KeyPressed(Char('4', false))
  const TO_BOTTOM := KeyPressed(Char('G', false))
  const NO_LISTS := Lists([], [], [], [])

  function Arrival(id: nat): Happening {
    ResponseArrived(id, NO_LISTS)
  }

  lemma {:induction false} AllMatch(log: seq<Event>)
    ensures Matching(NO_FILTER, log) == log
    decreases |log|
  {
    if log != [] {
      AllMatch(log[..|log| - 1]);
    }
  }

  lemma PrefixIsDistinct(log: seq<Event>, more: seq<Event>)
    requires DistinctIds(log + more)
    ensures DistinctIds(log)
  {
    assert forall i | 0 <= i < |log| :: (log + more)[i] == log[i];
  }

  // ---------------------------------------------------------------- building a history

  ghost predicate Reached(rules: RowRules, hs: seq<Happening>, c: Client) {
    Begun(rules).app.Valid() && History(Begun(rules), hs) && c == After(Begun(rules), hs) && c.app.Valid()
  }

  /** A history can be read from its end. */
  lemma {:induction false} OneMore(c: Client, hs: seq<Happening>, h: Happening)
    requires c.app.Valid() && History(c, hs) && After(c, hs).app.Valid() && CanHappen(After(c, hs), h)
    ensures History(c, hs + [h]) && After(c, hs + [h]) == Next(After(c, hs), h)
    decreases |hs|
  {
    if hs == [] {
      HappeningIsRun(c, h);
      assert [h][1..] == [] && [] + [h] == [h];
      assert History(Next(c, h), []);
    } else {
      HappeningIsRun(c, hs[0]);
      assert (hs + [h])[1..] == hs[1..] + [h];
      OneMore(Next(c, hs[0]), hs[1..], h);
    }
  }

  lemma Go(rules: RowRules, hs: seq<Happening>, c: Client, h: Happening) returns (c': Client)
    requires Reached(rules, hs, c) && CanHappen(c, h)
    ensures c' == Next(c, h) && Reached(rules, hs + [h], c')
  {
    OneMore(Begun(rules), hs, h);
    HappeningIsRun(c, h);
    c' := Next(c, h);
  }

  // ---------------------------------------------------------------- the keys

  predicate OnActivity(a: AppState, input: InputMode) {
    a.tab == ActivityLog && a.input == input && |a.queries| == 5
  }

  lemma ActivityKeyOpens(a: AppState)
    requires a.tab == Downloads && a.input == Normal && |a.queries| == 5
    ensures OnKey(a, Char('4', false)) == (a.(tab := ActivityLog), Some(Refresh))
  {}

  /** From anywhere in a list that has more, the key to its end asks for the next page. */
  lemma BottomKeyAsks(a: AppState)
    requires OnActivity(a, Normal) && a.view.events != [] && a.view.paging == Idle && |a.view.events| < a.view.total
    ensures var last := Some((|a.view.events| - 1) as nat);
            OnKey(a, Char('G', false))
            == (a.(view := a.view.(selected := last, paging := Loading)), Some(LoadMoreActivity))
  {}

  lemma SlashOpensPrompt(a: AppState)
    requires OnActivity(a, Normal)
    ensures OnKey(a, Char('/', false)) == (a.(input := Typing), None)
  {}

  lemma CharIsTyped(a: AppState, ch: char)
    requires OnActivity(a, Typing)
    ensures OnKey(a, Char(ch, false)) == (a.(queries := a.queries[3 := a.queries[3] + [ch]]), None)
  {}

  lemma EnterSearches(a: AppState)
    requires OnActivity(a, Typing) && Filter(a.queries[3]) != a.view.filter
    ensures OnKey(a, Enter)
            == (a.(input := Normal, view := View(Filter(a.queries[3]), [], 0, Idle, None)), Some(Refresh))
  {}

  lemma EscapeClears(a: AppState)
    requires OnActivity(a, Normal) && a.view.filter != NO_FILTER
    ensures OnKey(a, Esc) == (a.(queries := a.queries[3 := ""], view := EMPTY_VIEW), Some(Refresh))
  {
    assert Filter("") == NO_FILTER;
  }

  // ---------------------------------------------------------------- up to the first next page

  /** The tab is shown, empty and unfiltered. */
  predicate Blank(c: Client) {
    OnActivity(c.app, Normal) && c.app.view == EMPTY_VIEW
  }

  ghost predicate FirstPageListed(c: Client, n: nat) {
    && OnActivity(c.app, Normal) && ACTIVITY_PAGE <= n <= |c.log|
    && c.app.view == View(NO_FILTER, Newest(c.log, n - ACTIVITY_PAGE, n), n, Idle, Some(0))
  }

  /** The tab is opened on a log, which asks for the status and the first page. */
  lemma OpenTab(rules: RowRules, log: seq<Event>) returns (c: Client)
    requires DistinctIds(log)
    ensures Reached(rules, [ServerLogs(log), ACTIVITY_TAB], c) && c.log == log && Blank(c) && c.app.queries[3] == ""
    ensures c.inFlight == {StatusKey, ActivityKey} && c.nextId == 2
    ensures c.flights == map[0 := Asked(Fetch(StatusKey, NO_FILTER)), 1 := Asked(Fetch(ActivityKey, NO_FILTER))]
  {
    BegunIsValid(rules);
    assert [] + log == log && [] + [ServerLogs(log)] == [ServerLogs(log)];
    c := Go(rules, [], Begun(rules), ServerLogs(log));
    ActivityKeyOpens(c.app);
    c := Go(rules, [ServerLogs(log)], c, ACTIVITY_TAB);
    assert [ServerLogs(log)] + [ACTIVITY_TAB] == [ServerLogs(log), ACTIVITY_TAB];
  }

  /** The server answers one request for its filter, with an exact count. */
  lemma {:induction false} AnswerOne(rules: RowRules, hs: seq<Happening>, c: Client, id: nat) returns (c': Client)
    requires Reached(rules, hs, c) && id in c.flights && c.flights[id].Asked? && IsActivity(c.flights[id].req)
    ensures var r := c.flights[id].req; var matching := Matching(r.filter, c.log);
            var page := ActivityPage(matching, ACTIVITY_PAGE, Offset(r), |matching|);
            && Reached(rules, hs + [ServerAnswers(id, |matching|)], c')
            && c' == c.(flights := c.flights[id := Answered(r, page, |matching|)])
  {
    c' := Go(rules, hs, c, ServerAnswers(id, |Matching(c.flights[id].req.filter, c.log)|));
  }

  /** The server answers one request for the unfiltered log. */
  lemma AnswerAll(rules: RowRules, hs: seq<Happening>, c: Client, id: nat) returns (c': Client)
    requires Reached(rules, hs, c) && id in c.flights && c.flights[id].Asked?
    requires IsActivity(c.flights[id].req) && c.flights[id].req.filter == NO_FILTER
    ensures var r := c.flights[id].req; var page := ActivityPage(c.log, ACTIVITY_PAGE, Offset(r), |c.log|);
            c' == c.(flights := c.flights[id := Answered(r, page, |c.log|)])
    ensures Reached(rules, hs + [ServerAnswers(id, |c.log|)], c')
  {
    AllMatch(c.log);
    c' := AnswerOne(rules, hs, c, id);
  }

  /** The server answers an outstanding first page, and it is delivered to an empty list. */
  lemma LoadFirstPage(rules: RowRules, hs: seq<Happening>, c: Client, id: nat) returns (c': Client)
    requires Reached(rules, hs, c) && Blank(c) && |c.log| > ACTIVITY_PAGE
    requires id in c.flights && c.flights[id] == Asked(Fetch(ActivityKey, NO_FILTER))
    ensures Reached(rules, hs + [ServerAnswers(id, |c.log|), Arrival(id)], c') && FirstPageListed(c', |c.log|)
    ensures c'.log == c.log && c'.nextId == c.nextId && c'.app.queries == c.app.queries
    ensures c'.flights == c.flights - {id} && c'.inFlight == c.inFlight - {ActivityKey}
  {
    var c1 := AnswerAll(rules, hs, c, id);
    assert c1.flights[id].page.events == Newest(c.log, |c.log| - ACTIVITY_PAGE, |c.log|);
    c' := Go(rules, hs + [ServerAnswers(id, |c.log|)], c1, Arrival(id));
    assert c'.flights == c1.flights - {id} == c.flights - {id};
    assert (hs + [ServerAnswers(id, |c.log|)]) + [Arrival(id)] == hs + [ServerAnswers(id, |c.log|), Arrival(id)];
  }

  function Opening(log: seq<Event>): seq<Happening> {
    [ServerLogs(log), ACTIVITY_TAB, ServerAnswers(1, |log|), Arrival(1), TO_BOTTOM]
  }

  /** A list of one page on a longer log, with the next page asked for. */
  lemma NextPageAsked(rules: RowRules, log: seq<Event>) returns (c: Client)
    requires DistinctIds(log) && |log| > ACTIVITY_PAGE
    ensures Reached(rules, Opening(log), c) && c.log == log && OnActivity(c.app, Normal) && c.app.queries[3] == ""
    ensures c.app.view == View(NO_FILTER, Newest(log, |log| - ACTIVITY_PAGE, |log|), |log|, Loading,
                               Some(ACTIVITY_PAGE - 1))
    ensures c.inFlight == {StatusKey} && c.nextId == 3
    ensures c.flights == map[0 := Asked(Fetch(StatusKey, NO_FILTER)), 2 := Asked(NextPage(NO_FILTER, ACTIVITY_PAGE))]
  {
    c := OpenTab(rules, log);
    var hs := [ServerLogs(log), ACTIVITY_TAB];
    c := LoadFirstPage(rules, hs, c, 1);
    hs := hs + [ServerAnswers(1, |log|), Arrival(1)];
    BottomKeyAsks(c.app);
    c := Go(rules, hs, c, TO_BOTTOM);
    assert hs + [TO_BOTTOM] == Opening(log);
  }

  /** The server logs more events. */
  lemma {:induction false} LogMore(rules: RowRules, hs: seq<Happening>, c: Client, more: seq<Event>)
    returns (c': Client)
    requires Reached(rules, hs, c) && DistinctIds(c.log + more)
    ensures Reached(rules, hs + [ServerLogs(more)], c') && c' == c.(log := c.log + more)
  {
    c' := Go(rules, hs, c, ServerLogs(more));
  }
}
