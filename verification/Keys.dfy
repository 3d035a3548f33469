/** What every key does to the client (`handle_key` and `handle_search_key` in `app.rs`), field by field. */
module TuiKeys {
  import opened Outcomes
  import opened Search
  import opened Activity
  import opened TuiApp

  // ---------------------------------------------------------------- keys that move the selection

  datatype Motion = Downward | Upward | ToFirst | ToLast

  /** Which keys move the selection; in the search prompt only the arrows do. */
  ghost function MotionOf(input: InputMode, key: Key): Option<Motion> {
    if key == Down || (input == Normal && key.Char? && key.c == 'j') then Some(Downward)
    else if key == Up || (input == Normal && key.Char? && key.c == 'k') then Some(Upward)
    else if input == Normal && (key == Home || (key.Char? && key.c == 'g')) then Some(ToFirst)
    else if input == Normal && (key == Bottom || (key.Char? && key.c == 'G')) then Some(ToLast)
    else None
  }

  /** Where a motion leads among `len` rows: around either end, by the remainder. */
  ghost function Target(m: Motion, row: Option<nat>, len: nat): Option<nat> {
    if len == 0 then (if m == Downward || m == Upward then None else row)
    else
      var i := if row.Some? then row.value else 0;
      match m
      case Downward => Some((i + 1) % len)
      case Upward => Some((i - 1) % len)
      case ToFirst => Some(0)
      case ToLast => Some(len - 1)
  }

  lemma {:induction false} WrappedIsTarget(row: Option<nat>, len: nat)
    requires InRange(row, len)
    ensures Wrapped(row, len, true) == Target(Downward, row, len)
    ensures Wrapped(row, len, false) == Target(Upward, row, len)
  {
    if len > 0 {
      WrappedIsRemainder(if row.Some? then row.value else 0, len);
    }
  }

  lemma MotionKeys(s: AppState, key: Key, m: Motion)
    requires |s.queries| == 5 && MotionOf(s.input, key) == Some(m)
    ensures OnKey(s, key) == match m
                             case Downward => MovedDown(s)
                             case Upward => MovedUp(s)
                             case ToFirst => (AtTop(s), None)
                             case ToLast => AtEnd(s)
  {}

  /** On the other tabs a motion changes that tab's row and nothing else. */
  lemma {:induction false} MotionElsewhere(s: AppState, key: Key, m: Motion)
    requires s.Valid() && s.tab != ActivityLog && MotionOf(s.input, key) == Some(m)
    ensures OnKey(s, key).1 == None
    ensures s.tab == Downloads ==>
              var len := |s.rules.downloads(s.downloads, s.queries[0])|;
              OnKey(s, key).0 == s.(downloadsRow := Target(m, s.downloadsRow, len))
    ensures s.tab == Sources ==>
              var len := |s.rules.sources(s.sources, s.profiles, s.queries[1])|;
              OnKey(s, key).0 == s.(sourcesRow := Target(m, s.sourcesRow, len))
    ensures s.tab == Profiles ==>
              var len := |s.rules.profiles(s.profiles, s.queries[2])|;
              OnKey(s, key).0 == s.(profilesRow := Target(m, s.profilesRow, len))
    ensures s.tab == Settings ==>
              var len := |s.rules.settings(s.settings, s.queries[4])|;
              OnKey(s, key).0 == s.(settingsRow := Target(m, s.settingsRow, len))
  {
    assert InRange(s.Row(s.tab), s.RowCount(s.tab));
    MotionKeys(s, key, m);
    WrappedIsTarget(s.Row(s.tab), s.RowCount(s.tab));
  }

  /** The selection goes to `row`, and if `mayAsk` the last row of an idle list with more to come asks for it. */
  ghost predicate MovesTo(s: AppState, r: (AppState, Option<Action>), row: Option<nat>, mayAsk: bool) {
    var v, len := s.view, |s.view.events|;
    var asks := mayAsk && row.Some? && row.value + 1 == len && v.paging == Idle && len < v.total;
    && r.0 == s.(view := v.(selected := row, paging := if asks then Loading else v.paging))
    && r.1 == if asks then Some(LoadMoreActivity) else None
  }

  lemma {:induction false} LoadsMore(s: AppState, row: Option<nat>)
    requires s.tab == ActivityLog && InRange(row, |s.view.events|)
    ensures MovesTo(s, LoadMore(s.(view := s.view.(selected := row))), row, true)
  {}

  lemma {:induction false} StepMoves(s: AppState)
    requires s.Valid() && s.tab == ActivityLog
    ensures var v, len := s.view, |s.view.events|;
            var stays := v.selected.Some? && v.selected.value + 1 == len && v.paging != End && len < v.total;
            && MovesTo(s, MovedDown(s), if stays then v.selected else Target(Downward, v.selected, len), true)
            && MovesTo(s, MovedUp(s), Target(Upward, v.selected, len), true)
  {
    assert InRange(s.Row(ActivityLog), s.RowCount(ActivityLog));
    WrappedIsTarget(s.view.selected, |s.view.events|);
    LoadsMore(s, s.view.selected);
    LoadsMore(s, Wrapped(s.view.selected, |s.view.events|, true));
    LoadsMore(s, Wrapped(s.view.selected, |s.view.events|, false));
  }

  lemma {:induction false} JumpMoves(s: AppState)
    requires s.Valid() && s.tab == ActivityLog
    ensures MovesTo(s, (AtTop(s), None), Target(ToFirst, s.view.selected, |s.view.events|), false)
    ensures MovesTo(s, AtEnd(s), Target(ToLast, s.view.selected, |s.view.events|), true)
  {
    assert InRange(s.Row(ActivityLog), s.RowCount(ActivityLog));
    LoadsMore(s, Target(ToLast, s.view.selected, |s.view.events|));
  }

  /**
   On the activity tab: Down on the last row stays there while there is more. The
   next page is asked for exactly when the motion, other than to the first row,
   ends on the last row of an idle list that is shorter than its total. Nothing
   else changes.
   */
  lemma {:induction false} MotionOnActivity(s: AppState, key: Key, m: Motion)
    requires s.Valid() && s.tab == ActivityLog && MotionOf(s.input, key) == Some(m)
    ensures var v, len := s.view, |s.view.events|;
            var onLast := v.selected.Some? && v.selected.value + 1 == len;
            var stays := m == Downward && onLast && v.paging != End && len < v.total;
            var row := if stays then v.selected else Target(m, v.selected, len);
            var asks := m != ToFirst && row.Some? && row.value + 1 == len && v.paging == Idle && len < v.total;
            OnKey(s, key) == (s.(view := v.(selected := row, paging := if asks then Loading else v.paging)),
                              if asks then Some(LoadMoreActivity) else None)
  {
    MotionKeys(s, key, m);
    StepMoves(s);
    JumpMoves(s);
  }

  /** Above the last row, Down goes one row on, and asks if that is the last row of an idle list with more to come. */
  lemma {:induction false} DownAboveLast(s: AppState, key: Key, i: nat)
    requires s.Valid() && s.tab == ActivityLog && MotionOf(s.input, key) == Some(Downward)
    requires s.view.selected == Some(i) && i + 1 < |s.view.events|
    ensures OnKey(s, key).0 == s.(view := s.view.(selected := Some(i + 1), paging := OnKey(s, key).0.view.paging))
    ensures OnKey(s, key).1 == Some(LoadMoreActivity)
            <==> i + 2 == |s.view.events| && s.view.paging == Idle && |s.view.events| < s.view.total
    ensures OnKey(s, key).1 in {None, Some(LoadMoreActivity)}
    ensures OnKey(s, key).0.view.paging == if OnKey(s, key).1 == None then s.view.paging else Loading
  {
    MotionOnActivity(s, key, Downward);
    RemainderInside(i + 1, |s.view.events|);
  }

  /** On the last row, Down stays while there is more and asks once; otherwise it goes around. */
  lemma {:induction false} DownOnLast(s: AppState, key: Key, i: nat)
    requires s.Valid() && s.tab == ActivityLog && MotionOf(s.input, key) == Some(Downward)
    requires s.view.selected == Some(i) && i + 1 == |s.view.events|
    ensures var more := s.view.paging != End && |s.view.events| < s.view.total;
            OnKey(s, key).0.view.selected == Some(if more then i else 0)
    ensures OnKey(s, key).1 == Some(LoadMoreActivity) <==> s.view.paging == Idle && |s.view.events| < s.view.total
  {
    MotionOnActivity(s, key, Downward);
    RemainderAtEnds(i + 1);
  }

  /** Up goes one row back and asks for nothing, except from the first row around to the last. */
  lemma {:induction false} UpOnActivity(s: AppState, key: Key, i: nat)
    requires s.Valid() && s.tab == ActivityLog && MotionOf(s.input, key) == Some(Upward) && s.view.selected == Some(i)
    ensures OnKey(s, key).0.view.selected == Some(if i == 0 then |s.view.events| - 1 else i - 1)
    ensures OnKey(s, key).1 == Some(LoadMoreActivity)
            <==> i == 0 && s.view.paging == Idle && |s.view.events| < s.view.total
  {
    assert InRange(s.Row(ActivityLog), s.RowCount(ActivityLog));
    MotionOnActivity(s, key, Upward);
    if i == 0 {
      RemainderAtEnds(|s.view.events|);
    } else {
      RemainderInside(i - 1, |s.view.events|);
    }
  }

  // ---------------------------------------------------------------- keys that show a tab

  /** The tabs in the order of the tab bar. */
  ghost predicate Follows(next: Tab, tab: Tab) {
    || (tab == Downloads && next == Sources)
    || (tab == Sources && next == Profiles)
    || (tab == Profiles && next == ActivityLog)
    || (tab == ActivityLog && next == Settings)
    || (tab == Settings && next == Downloads)
  }

  /** A tab key shows the next or the previous tab and refreshes; nothing else changes. */
  lemma {:induction false} TabKeys(s: AppState, next: Tab)
    requires |s.queries| == 5 && s.input == Normal
    ensures Follows(next, s.tab) ==> OnKey(s, NextTabKey) == (s.(tab := next), Some(Refresh))
    ensures Follows(s.tab, next) ==> OnKey(s, PrevTabKey) == (s.(tab := next), Some(Refresh))
  {
    TabsFollow(s.tab, next);
  }

  lemma TabsFollow(tab: Tab, next: Tab)
    ensures Follows(next, tab) ==> NextTab(tab) == next
    ensures Follows(tab, next) ==> PrevTab(tab) == next
  {}

  /** A digit shows its tab, and refreshes if that is another one. */
  lemma DigitKeys(s: AppState, tab: Tab, c: char, ctrl: bool)
    requires |s.queries| == 5 && s.input == Normal
    requires c == match tab case Downloads => '1' case Sources => '2' case Profiles => '3' case ActivityLog => '4'
                            case Settings => '5'
    ensures OnKey(s, Char(c, ctrl)) == (s.(tab := tab), if tab == s.tab then None else Some(Refresh))
  {}

  /** The remaining keys outside the prompt; no other one touches the state, the requests or the tab. */
  lemma {:induction false} OtherKeys(s: AppState, key: Key)
    requires |s.queries| == 5 && s.input == Normal && MotionOf(Normal, key) == None && key != Esc
    requires key != NextTabKey && key != PrevTabKey && !(key.Char? && '1' <= key.c <= '5')
    ensures var (s', action) := OnKey(s, key);
            && (key == F5 ==> s' == s && action == Some(Refresh))
            && (key.Char? && key.c == 'q' ==> s' == s.(shouldQuit := true) && action == None)
            && (key.Char? && key.c == 'c' && key.ctrl ==> s' == s.(shouldQuit := true) && action == None)
            && (key.Char? && key.c == '/' ==> s' == s.(input := Typing) && action == None)
            && (s' != s ==> key.Char? && (key.c == 'q' || (key.c == 'c' && key.ctrl) || key.c == '/'))
            && (action == Some(Refresh) <==> key == F5 || (key.Char? && key.c == 'f' && s.tab == Downloads))
            && action != Some(LoadMoreActivity)
  {}

  // ---------------------------------------------------------------- the search prompt

  /** The query of a tab is the one that its keys edit. */
  ghost predicate QuerySet(s: AppState, s': AppState, query: string)
    requires |s.queries| == 5
  {
    s'.queries == match s.tab
      case Downloads => [query, s.queries[1], s.queries[2], s.queries[3], s.queries[4]]
      case Sources => [s.queries[0], query, s.queries[2], s.queries[3], s.queries[4]]
      case Profiles => [s.queries[0], s.queries[1], query, s.queries[3], s.queries[4]]
      case ActivityLog => [s.queries[0], s.queries[1], s.queries[2], query, s.queries[4]]
      case Settings => [s.queries[0], s.queries[1], s.queries[2], s.queries[3], query]
  }

  ghost function TopOf(rows: seq<nat>): Option<nat> {
    if rows == [] then None else Some(0)
  }

  /** The state with a new query: its tab shows the first match selected, but activity waits for Enter. */
  ghost predicate NewQuery(s: AppState, s': AppState, query: string)
    requires |s.queries| == 5
  {
    && QuerySet(s, s', query)
    && match s.tab
       case Downloads => s' == s.(queries := s'.queries, downloadsRow := TopOf(s.rules.downloads(s.downloads, query)))
       case Sources => s' == s.(queries := s'.queries,
                                sourcesRow := TopOf(s.rules.sources(s.sources, s.profiles, query)))
       case Profiles => s' == s.(queries := s'.queries, profilesRow := TopOf(s.rules.profiles(s.profiles, query)))
       case ActivityLog => s' == s.(queries := s'.queries)
       case Settings => s' == s.(queries := s'.queries, settingsRow := TopOf(s.rules.settings(s.settings, query)))
  }

  lemma {:induction false} EditedIs(s: AppState, query: string)
    requires |s.queries| == 5
    ensures NewQuery(s, Edited(s, query), query)
  {}

  /** The query that the tab's keys edit. */
  ghost predicate Queries(s: AppState, query: string)
    requires |s.queries| == 5
  {
    match s.tab
    case Downloads => s.queries[0] == query
    case Sources => s.queries[1] == query
    case Profiles => s.queries[2] == query
    case ActivityLog => s.queries[3] == query
    case Settings => s.queries[4] == query
  }

  /** Typing appends a character, Backspace drops the last, Ctrl-U drops all; nothing is asked for. */
  lemma {:induction false} EditingKeys(s: AppState, query: string, c: char)
    requires |s.queries| == 5 && s.input == Typing && Queries(s, query)
    ensures OnKey(s, Char(c, false)).1 == None && NewQuery(s, OnKey(s, Char(c, false)).0, query + [c])
    ensures query != "" ==>
              OnKey(s, Backspace).1 == None && NewQuery(s, OnKey(s, Backspace).0, query[..|query| - 1])
    ensures OnKey(s, Char('u', true)).1 == None && NewQuery(s, OnKey(s, Char('u', true)).0, "")
    ensures OnKey(s, Char('c', true)) == (s.(shouldQuit := true), None)
    ensures c != 'c' && c != 'u' ==> OnKey(s, Char(c, true)) == (s, None)
    ensures forall key | key in {NextTabKey, PrevTabKey, Home, Bottom, F5} :: OnKey(s, key) == (s, None)
  {
    EditedIs(s, query + [c]);
    EditedIs(s, "");
    if query != "" {
      EditedIs(s, query[..|query| - 1]);
    }
  }

  /**
   Enter closes the prompt, as does Backspace on an empty query. On the activity
   tab a query with a new filter then empties the list and asks for that
   filter's first page.
   */
  lemma {:induction false} EnterKey(s: AppState, key: Key)
    requires |s.queries| == 5 && s.input == Typing && (key == Enter || (key == Backspace && Queries(s, "")))
    ensures var f := Filter(s.queries[3]);
            OnKey(s, key)
            == if s.tab == ActivityLog && f != s.view.filter
               then (s.(input := Normal, view := View(f, [], 0, Idle, None)), Some(Refresh))
               else (s.(input := Normal), None)
  {}

  /**
   Esc, with or without the prompt, closes it and clears the query. On the
   activity tab it also drops a filter in force and asks for the unfiltered first
   page.
   */
  lemma {:induction false} EscapeKey(s: AppState)
    requires |s.queries| == 5
    ensures var (s', action) := OnKey(s, Esc); var closed := s.(input := Normal);
            && (s.tab == ActivityLog && s.view.filter != NO_FILTER ==>
                  action == Some(Refresh) && QuerySet(s, s', "")
                  && s' == closed.(queries := s'.queries, view := View(NO_FILTER, [], 0, Idle, None)))
            && (s.tab != ActivityLog || s.view.filter == NO_FILTER ==>
                  action == None && if Queries(s, "") then s' == closed else NewQuery(closed, s', ""))
  {
    var closed := s.(input := Normal);
    EditedIs(closed, "");
    assert Filter("") == NO_FILTER;
  }

  // ---------------------------------------------------------------- delivered lists

  /** A selection after its list was replaced by one with `len` rows. */
  ghost function Kept(row: Option<nat>, len: nat): Option<nat> {
    if len == 0 then None
    else if row.None? then Some(0)
    else if row.value < len then row
    else Some(len - 1)
  }

  /**
   A delivered list replaces the old one. Its tab's selection stays if its row
   still exists, and else moves to the last row, or to the first if there was none.
   */
  lemma DownloadsDelivered(s: AppState, l: seq<Download>)
    requires |s.queries| == 5
    ensures Handle(s, GotDownloads(l))
            == s.(downloads := l, downloadsRow := Kept(s.downloadsRow, |s.rules.downloads(l, s.queries[0])|))
  {}

  lemma SourcesDelivered(s: AppState, l: seq<Source>)
    requires |s.queries| == 5
    ensures Handle(s, GotSources(l))
            == s.(sources := l, sourcesRow := Kept(s.sourcesRow, |s.rules.sources(l, s.profiles, s.queries[1])|))
  {}

  /** Profiles name the sources' rows too, so that selection is kept as well. */
  lemma ProfilesDelivered(s: AppState, l: seq<Profile>)
    requires |s.queries| == 5
    ensures Handle(s, GotProfiles(l))
            == s.(profiles := l,
                  profilesRow := Kept(s.profilesRow, |s.rules.profiles(l, s.queries[2])|),
                  sourcesRow := Kept(s.sourcesRow, |s.rules.sources(s.sources, l, s.queries[1])|))
  {}

  lemma SettingsDelivered(s: AppState, l: seq<SettingsRow>)
    requires |s.queries| == 5
    ensures Handle(s, GotSettings(l))
            == s.(settings := Some(l), settingsRow := Kept(s.settingsRow, |s.rules.settings(Some(l), s.queries[4])|))
  {}
}
