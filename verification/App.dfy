/**
 The terminal client's application state (`app.rs`): lists, queries, and the
 selected row of each tab. A selection indexes the rows a tab shows, which
 depend on the data, on the tab's query and, for sources, on the profiles.
 */
module TuiApp {
  import opened Outcomes
  import opened Text
  import opened Search
  import opened Activity

  datatype Tab = Downloads | Sources | Profiles | ActivityLog | Settings

  const TABS: seq<Tab> := [Downloads, Sources, Profiles, ActivityLog, Settings]

  function Index(tab: Tab): nat {
    match tab
    case Downloads => 0
    case Sources => 1
    case Profiles => 2
    case ActivityLog => 3
    case Settings => 4
  }

  function NextTab(tab: Tab): Tab {
    TABS[(Index(tab) + 1) % 5]
  }

  function PrevTab(tab: Tab): Tab {
    TABS[(Index(tab) + 4) % 5]
  }

  datatype Download = Download(title: string, sourceName: Option<string>)
  datatype Source = Source(customName: Option<string>, url: string, profileId: string, enabled: bool)
  datatype Profile = Profile(id: string, name: string)
  datatype SettingsRow = SettingsRow(caption: string, value: string)

  datatype InputMode = Normal | Typing

  datatype Key =
    | Char(c: char, ctrl: bool) | NextTabKey | PrevTabKey | Up | Down | Home | Bottom | Esc | Enter | Backspace | F5

  datatype Action = Refresh | LoadMoreActivity | OtherAction

  // ---------------------------------------------------------------- visible rows

  /** `matching`: indices of the items that `keep` accepts, in order. */
  function Rows<T>(items: seq<T>, keep: T -> bool): seq<nat> {
    if items == [] then []
    else
      var last := |items| - 1;
      Rows(items[..last], keep) + (if keep(items[last]) then [last] else [])
  }

  lemma {:induction false} RowsAreTheKeptOnes<T>(items: seq<T>, keep: T -> bool)
    ensures var r := Rows(items, keep);
            && (forall i :: i in r <==> 0 <= i < |items| && keep(items[i]))
            && (forall i, j | 0 <= i < j < |r| :: r[i] < r[j])
  {
    if items != [] {
      var last := |items| - 1;
      RowsAreTheKeptOnes(items[..last], keep);
      OneMoreRow(Rows(items[..last], keep), items, keep);
    }
  }

  /** The rows of all items but the last, and then the last if it is kept. */
  lemma OneMoreRow<T>(before: seq<nat>, items: seq<T>, keep: T -> bool)
    requires items != [] && forall i :: i in before <==> 0 <= i < |items| - 1 && keep(items[i])
    requires forall i, j | 0 <= i < j < |before| :: before[i] < before[j]
    ensures var last := |items| - 1; var r := before + (if keep(items[last]) then [last] else []);
            && (forall i :: i in r <==> 0 <= i < |items| && keep(items[i]))
            && (forall i, j | 0 <= i < j < |r| :: r[i] < r[j])
  {
    assert forall k | 0 <= k < |before| :: before[k] in before;
  }

  function SourceName(s: Source): string {
    if s.customName.Some? then s.customName.value else s.url
  }

  function ProfileName(profiles: seq<Profile>, id: string): string {
    if profiles == [] then "" else if profiles[0].id == id then profiles[0].name else ProfileName(profiles[1..], id)
  }

  predicate DownloadMatches(d: Download, query: string) {
    Matches(Terms(query), [d.title, if d.sourceName.Some? then d.sourceName.value else ""], [])
  }

  predicate SourceMatches(s: Source, profiles: seq<Profile>, query: string) {
    Matches(Terms(query), [SourceName(s), ProfileName(profiles, s.profileId)],
            [if s.enabled then "enabled" else "disabled"])
  }

  predicate ProfileMatches(p: Profile, query: string) {
    Matches(Terms(query), [p.name], [])
  }

  predicate SettingMatches(r: SettingsRow, query: string) {
    Matches(Terms(query), [r.caption, r.value], [])
  }

  /** A word of the search occurs in a text, in any case. */
  ghost predicate Occurs(word: string, text: string) {
    Contains(Lower(text), Lower(word))
  }

  lemma InEither(word: string, a: string, b: string)
    ensures (exists f | f in [a, b] :: Occurs(word, f)) <==> Occurs(word, a) || Occurs(word, b)
  {
    assert a in [a, b] && b in [a, b];
  }

  /** Every word of the search must occur in the title or the source's name. */
  lemma {:induction false} DownloadMatchesWords(d: Download, query: string)
    ensures DownloadMatches(d, query) <==>
            forall w | w in SplitWhitespace(query) ::
              Occurs(w, d.title) || (d.sourceName.Some? && Occurs(w, d.sourceName.value))
  {
    var name := if d.sourceName.Some? then d.sourceName.value else "";
    WordsAreWords(query, "");
    MatchesWords(query, [d.title, name], []);
    forall w | w in SplitWhitespace(query)
      ensures !Occurs(w, "")
      ensures (exists f | f in [d.title, name] :: Occurs(w, f)) <==> Occurs(w, d.title) || Occurs(w, name)
    {
      InEither(w, d.title, name);
    }
  }

  /** ... in the source's name, or its URL without one, or its profile's name, or begin its state. */
  lemma {:induction false} SourceMatchesWords(s: Source, profiles: seq<Profile>, query: string)
    ensures SourceMatches(s, profiles, query) <==>
            forall w | w in SplitWhitespace(query) ::
              || Occurs(w, if s.customName.Some? then s.customName.value else s.url)
              || Occurs(w, ProfileName(profiles, s.profileId))
              || Lower(w) <= if s.enabled then "enabled" else "disabled"
  {
    var fields := [SourceName(s), ProfileName(profiles, s.profileId)];
    var states := [if s.enabled then "enabled" else "disabled"];
    MatchesWords(query, fields, states);
    assert fields[0] in fields && fields[1] in fields && states[0] in states;
    assert forall f | f in fields :: f == fields[0] || f == fields[1];
  }

  lemma {:induction false} OthersMatchWords(p: Profile, r: SettingsRow, query: string)
    ensures ProfileMatches(p, query) <==> forall w | w in SplitWhitespace(query) :: Occurs(w, p.name)
    ensures SettingMatches(r, query) <==>
            forall w | w in SplitWhitespace(query) :: Occurs(w, r.caption) || Occurs(w, r.value)
  {
    MatchesWords(query, [p.name], []);
    MatchesWords(query, [r.caption, r.value], []);
  }

  /** The name of the first profile with the id. */
  lemma {:induction false} ProfileNameIs(profiles: seq<Profile>, k: nat)
    requires k < |profiles| && forall i | 0 <= i < k :: profiles[i].id != profiles[k].id
    ensures ProfileName(profiles, profiles[k].id) == profiles[k].name
    decreases |profiles|
  {
    if k > 0 {
      ProfileNameIs(profiles[1..], k - 1);
    }
  }

  lemma {:induction false} MatchesWords(query: string, fields: seq<string>, keywords: seq<string>)
    ensures Matches(Terms(query), fields, keywords) <==>
            forall w | w in SplitWhitespace(query) ::
              || (exists f | f in fields :: Occurs(w, f))
              || (exists k | k in keywords :: Lower(w) <= k)
  {
    var words, terms := SplitWhitespace(query), Terms(query);
    assert forall i | 0 <= i < |words| :: terms[i] == Lower(words[i]) && terms[i] in terms && words[i] in words;
    forall t | t in terms
      ensures exists w | w in words :: Lower(w) == t
    {
      var i :| 0 <= i < |terms| && terms[i] == t;
      assert words[i] in words;
    }
  }

  function DownloadRows(downloads: seq<Download>, query: string): seq<nat> {
    Rows(downloads, d => DownloadMatches(d, query))
  }

  function SourceRows(sources: seq<Source>, profiles: seq<Profile>, query: string): seq<nat> {
    Rows(sources, s => SourceMatches(s, profiles, query))
  }

  function ProfileRows(profiles: seq<Profile>, query: string): seq<nat> {
    Rows(profiles, p => ProfileMatches(p, query))
  }

  function SettingRows(settings: Option<seq<SettingsRow>>, query: string): seq<nat> {
    if settings.None? then []
    else Rows(settings.value, r => SettingMatches(r, query))
  }

  /** Which rows each tab shows. `App` is right for every such rule; `SEARCH_RULES` is the client's. */
  datatype RowRules = RowRules(
    downloads: (seq<Download>, string) -> seq<nat>,
    sources: (seq<Source>, seq<Profile>, string) -> seq<nat>,
    profiles: (seq<Profile>, string) -> seq<nat>,
    settings: (Option<seq<SettingsRow>>, string) -> seq<nat>)

  const SEARCH_RULES := RowRules(DownloadRows, SourceRows, ProfileRows, SettingRows)

  /** A tab shows exactly the items that match, each once and in the order of the list. */
  ghost predicate ShowsExactly<T>(items: seq<T>, rows: seq<nat>, keep: T -> bool) {
    && (forall i :: i in rows <==> 0 <= i < |items| && keep(items[i]))
    && (forall i, j | 0 <= i < j < |rows| :: rows[i] < rows[j])
  }

  lemma {:induction false} SearchShowsExactly(d: seq<Download>, x: seq<Source>, p: seq<Profile>,
                                              t: Option<seq<SettingsRow>>, query: string)
    ensures ShowsExactly(d, SEARCH_RULES.downloads(d, query), i => DownloadMatches(i, query))
    ensures ShowsExactly(x, SEARCH_RULES.sources(x, p, query), i => SourceMatches(i, p, query))
    ensures ShowsExactly(p, SEARCH_RULES.profiles(p, query), i => ProfileMatches(i, query))
    ensures t.Some? ==> ShowsExactly(t.value, SEARCH_RULES.settings(t, query), i => SettingMatches(i, query))
    ensures t.None? ==> SEARCH_RULES.settings(t, query) == []
  {
    RowsAreTheKeptOnes(d, i => DownloadMatches(i, query));
    RowsAreTheKeptOnes(x, i => SourceMatches(i, p, query));
    RowsAreTheKeptOnes(p, i => ProfileMatches(i, query));
    if t.Some? {
      RowsAreTheKeptOnes(t.value, i => SettingMatches(i, query));
    }
  }

  // ---------------------------------------------------------------- moving the selection

  predicate InRange(selected: Option<nat>, len: nat) {
    selected.Some? ==> selected.value < len
  }

  /** `select_wrapping`: one row down or up, around either end. */
  function Wrapped(selected: Option<nat>, len: nat, down: bool): (r: Option<nat>)
    requires InRange(selected, len)
    ensures InRange(r, len) && (r.None? <==> len == 0)
  {
    if len == 0 then None
    else
      var i := if selected.Some? then selected.value else 0;
      if down then Some(if i + 1 == len then 0 else i + 1)
      else Some(if i == 0 then len - 1 else i - 1)
  }

  function FirstRow(len: nat): Option<nat> {
    if len == 0 then None else Some(0)
  }

  lemma RemainderInside(x: int, len: nat)
    requires 0 <= x < len
    ensures x % len == x
  {}

  lemma RemainderAtEnds(len: nat)
    requires len > 0
    ensures len % len == 0 && -1 % len == len - 1
  {
    assert -1 == -1 * len + (len - 1);
  }

  /** The step is the Euclidean remainder of the moved position, and Up undoes Down. */
  lemma WrappedIsRemainder(i: nat, len: nat)
    requires i < len
    ensures Wrapped(Some(i), len, true) == Some((i + 1) % len)
    ensures Wrapped(Some(i), len, false) == Some((i - 1) % len)
    ensures Wrapped(Wrapped(Some(i), len, true), len, false) == Some(i)
    ensures Wrapped(Wrapped(Some(i), len, false), len, true) == Some(i)
  {
    RemainderAtEnds(len);
    if i + 1 < len {
      RemainderInside(i + 1, len);
    }
    if i > 0 {
      RemainderInside(i - 1, len);
    }
  }

  // ---------------------------------------------------------------- state and its steps

  datatype AppState = AppState(
    rules: RowRules,
    tab: Tab,
    input: InputMode,
    shouldQuit: bool,
    queries: seq<string>,
    downloads: seq<Download>,
    sources: seq<Source>,
    profiles: seq<Profile>,
    settings: Option<seq<SettingsRow>>,
    view: View,
    downloadsRow: Option<nat>,
    sourcesRow: Option<nat>,
    profilesRow: Option<nat>,
    settingsRow: Option<nat>) {

    /** How many rows a tab shows; the activity tab is filtered by the server. */
    function RowCount(t: Tab): nat
      requires |queries| == 5
    {
      match t
      case Downloads => |rules.downloads(downloads, queries[0])|
      case Sources => |rules.sources(sources, profiles, queries[1])|
      case Profiles => |rules.profiles(profiles, queries[2])|
      case ActivityLog => |view.events|
      case Settings => |rules.settings(settings, queries[4])|
    }

    function Row(t: Tab): Option<nat> {
      match t
      case Downloads => downloadsRow
      case Sources => sourcesRow
      case Profiles => profilesRow
      case ActivityLog => view.selected
      case Settings => settingsRow
    }

    /** Every tab's selection is empty or a row that the tab shows. */
    ghost predicate Valid() {
      |queries| == 5 && forall t: Tab :: InRange(Row(t), RowCount(t))
    }

    function Select(row: Option<nat>): AppState {
      match tab
      case Downloads => this.(downloadsRow := row)
      case Sources => this.(sourcesRow := row)
      case Profiles => this.(profilesRow := row)
      case ActivityLog => this.(view := view.(selected := row))
      case Settings => this.(settingsRow := row)
    }

    function Query(query: string): AppState
      requires |queries| == 5
    {
      this.(queries := queries[Index(tab) := query])
    }
  }

  function Started(rules: RowRules): AppState {
    AppState(rules, Downloads, Normal, false, ["", "", "", "", ""], [], [], [], None,
             EMPTY_VIEW, None, None, None, None)
  }

  /** A fetched list replaces the old one and its selection is kept in range. */
  function OnDownloads(s: AppState, incoming: seq<Download>): AppState
    requires |s.queries| == 5
  {
    var s := s.(downloads := incoming);
    s.(downloadsRow := Clamp(s.downloadsRow, s.RowCount(Downloads)))
  }

  function OnSources(s: AppState, incoming: seq<Source>): AppState
    requires |s.queries| == 5
  {
    var s := s.(sources := incoming);
    s.(sourcesRow := Clamp(s.sourcesRow, s.RowCount(Sources)))
  }

  /** Sources match on profile names, so their selection is clamped as well. */
  function OnProfiles(s: AppState, incoming: seq<Profile>): AppState
    requires |s.queries| == 5
  {
    var s := s.(profiles := incoming);
    s.(profilesRow := Clamp(s.profilesRow, s.RowCount(Profiles)),
       sourcesRow := Clamp(s.sourcesRow, s.RowCount(Sources)))
  }

  function OnSettings(s: AppState, incoming: seq<SettingsRow>): AppState
    requires |s.queries| == 5
  {
    var s := s.(settings := Some(incoming));
    s.(settingsRow := Clamp(s.settingsRow, s.RowCount(Settings)))
  }

  /** No key replaces a list. */
  ghost predicate SameData(s: AppState, r: AppState) {
    && r.rules == s.rules && r.downloads == s.downloads && r.sources == s.sources
    && r.profiles == s.profiles && r.settings == s.settings
  }

  function Wrap(s: AppState, down: bool): (r: AppState)
    requires |s.queries| == 5
    ensures SameData(s, r)
  {
    if InRange(s.Row(s.tab), s.RowCount(s.tab)) then s.Select(Wrapped(s.Row(s.tab), s.RowCount(s.tab), down)) else s
  }

  /** `load_more_at_bottom`. */
  function LoadMore(s: AppState): (r: (AppState, Option<Action>))
    ensures SameData(s, r.0)
  {
    if s.tab == ActivityLog && WantsMore(s.view) then (s.(view := s.view.(paging := Loading)), Some(LoadMoreActivity))
    else (s, None)
  }

  /** At the bottom of the loaded activity the next page is asked for instead of wrapping. */
  function MovedDown(s: AppState): (r: (AppState, Option<Action>))
    requires |s.queries| == 5
    ensures SameData(s, r.0)
  {
    if s.tab == ActivityLog && AtBottom(s.view) && HasMore(s.view) then LoadMore(s) else LoadMore(Wrap(s, true))
  }

  function MovedUp(s: AppState): (r: (AppState, Option<Action>))
    requires |s.queries| == 5
    ensures SameData(s, r.0)
  {
    LoadMore(Wrap(s, false))
  }

  function AtTop(s: AppState): (r: AppState)
    requires |s.queries| == 5
    ensures SameData(s, r)
  {
    if s.RowCount(s.tab) > 0 then s.Select(Some(0)) else s
  }

  function AtEnd(s: AppState): (r: (AppState, Option<Action>))
    requires |s.queries| == 5
    ensures SameData(s, r.0)
  {
    LoadMore(if s.RowCount(s.tab) > 0 then s.Select(Some(s.RowCount(s.tab) - 1)) else s)
  }

  /** A changed query selects its first match; activity keeps its rows until Enter. */
  function Edited(s: AppState, query: string): (r: AppState)
    requires |s.queries| == 5
    ensures SameData(s, r)
  {
    var s := s.Query(query);
    if s.tab == ActivityLog then s else s.Select(FirstRow(s.RowCount(s.tab)))
  }

  /** On activity, a changed query drops the loaded pages and asks for the first one. */
  function Searched(s: AppState): (r: (AppState, Option<Action>))
    requires |s.queries| == 5
    ensures SameData(s, r.0)
  {
    if s.tab != ActivityLog || Filter(s.queries[3]) == s.view.filter then (s, None)
    else (s.(view := ApplySearch(s.view, Filter(s.queries[3]))), Some(Refresh))
  }

  function Cleared(s: AppState): (r: (AppState, Option<Action>))
    requires |s.queries| == 5
    ensures SameData(s, r.0)
  {
    var s := s.(input := Normal);
    if s.queries[Index(s.tab)] == "" && !(s.tab == ActivityLog && s.view.filter != NO_FILTER) then (s, None)
    else Searched(Edited(s, ""))
  }

  /** Keys while the `/` prompt is open. */
  function SearchKey(s: AppState, key: Key): (r: (AppState, Option<Action>))
    requires |s.queries| == 5
    ensures SameData(s, r.0)
  {
    var query := s.queries[Index(s.tab)];
    match key
    case Esc => Cleared(s)
    case Enter => Searched(s.(input := Normal))
    case Down => MovedDown(s)
    case Up => MovedUp(s)
    case Backspace => if query == "" then Searched(s.(input := Normal)) else (Edited(s, query[..|query| - 1]), None)
    case Char(c, ctrl) =>
      if !ctrl then (Edited(s, query + [c]), None)
      else if c == 'c' then (s.(shouldQuit := true), None)
      else if c == 'u' then (Edited(s, ""), None)
      else (s, None)
    case _ => (s, None)
  }

  /**
   Keys outside popups; a tab's row actions (`OtherAction`) never touch the lists.
   `f` changes the status filter of the downloads, which the server applies.
   */
  function NormalKey(s: AppState, key: Key): (r: (AppState, Option<Action>))
    requires |s.queries| == 5
    ensures SameData(s, r.0)
  {
    match key
    case NextTabKey => (s.(tab := NextTab(s.tab)), Some(Refresh))
    case PrevTabKey => (s.(tab := PrevTab(s.tab)), Some(Refresh))
    case Down => MovedDown(s)
    case Up => MovedUp(s)
    case Home => (AtTop(s), None)
    case Bottom => AtEnd(s)
    case Esc => Cleared(s)
    case F5 => (s, Some(Refresh))
    case Enter => (s, if s.tab == Settings then Some(OtherAction) else None)
    case Backspace => (s, None)
    case Char(c, ctrl) =>
      if c == 'q' || (c == 'c' && ctrl) then (s.(shouldQuit := true), None)
      else if '1' <= c <= '5' then
        var t := TABS[c as int - '1' as int];
        (s.(tab := t), if t == s.tab then None else Some(Refresh))
      else if c == 'j' then MovedDown(s)
      else if c == 'k' then MovedUp(s)
      else if c == 'g' then (AtTop(s), None)
      else if c == 'G' then AtEnd(s)
      else if c == '/' then (s.(input := Typing), None)
      else if c == 'f' && s.tab == Downloads then (s, Some(Refresh))
      else (s, Some(OtherAction))
  }

  function OnKey(s: AppState, key: Key): (r: (AppState, Option<Action>))
    requires |s.queries| == 5
    ensures SameData(s, r.0)
  {
    if s.input == Typing then SearchKey(s, key) else NormalKey(s, key)
  }

  /** Whatever reaches the application: a key, or the answer to one of its requests. */
  datatype Input =
    | Pressed(key: Key)
    | GotDownloads(downloads: seq<Download>)
    | GotSources(sources: seq<Source>)
    | GotProfiles(profiles: seq<Profile>)
    | GotSettings(settings: seq<SettingsRow>)
    | GotFirstPage(filter: ActivityFilter, page: Response)
    | GotNextPage(filter: ActivityFilter, page: Response)
    | NextPageFailed

  function Handle(s: AppState, i: Input): (r: AppState)
    requires |s.queries| == 5
    ensures r.rules == s.rules
  {
    match i
    case Pressed(key) => OnKey(s, key).0
    case GotDownloads(l) => OnDownloads(s, l)
    case GotSources(l) => OnSources(s, l)
    case GotProfiles(l) => OnProfiles(s, l)
    case GotSettings(l) => OnSettings(s, l)
    case GotFirstPage(f, p) => s.(view := SetActivity(s.view, f, p).0)
    case GotNextPage(f, p) => s.(view := AppendActivity(s.view, f, p))
    case NextPageFailed => s.(view := s.view.(paging := Idle))
  }

  // ---------------------------------------------------------------- the selection invariant

  lemma SelectKeepsValid(s: AppState, row: Option<nat>)
    requires |s.queries| == 5 && InRange(row, s.RowCount(s.tab))
    requires forall t: Tab | t != s.tab :: InRange(s.Row(t), s.RowCount(t))
    ensures s.Select(row).Valid()
  {
    var s' := s.Select(row);
    forall t: Tab
      ensures InRange(s'.Row(t), s'.RowCount(t))
    {
      if t != s.tab {
        assert InRange(s.Row(t), s.RowCount(t));
      }
    }
  }

  lemma WrapKeepsValid(s: AppState, down: bool)
    requires s.Valid()
    ensures Wrap(s, down).Valid()
  {
    SelectKeepsValid(s, Wrapped(s.Row(s.tab), s.RowCount(s.tab), down));
  }

  lemma LoadMoreKeepsValid(s: AppState)
    requires s.Valid()
    ensures LoadMore(s).0.Valid()
  {
    var s' := LoadMore(s).0;
    forall t: Tab
      ensures InRange(s'.Row(t), s'.RowCount(t))
    {
      assert InRange(s.Row(t), s.RowCount(t));
    }
  }

  lemma EditedKeepsValid(s: AppState, query: string)
    requires s.Valid()
    ensures Edited(s, query).Valid()
  {
    var edited := s.Query(query);
    forall t: Tab | t != s.tab || t == ActivityLog
      ensures InRange(edited.Row(t), edited.RowCount(t))
    {
      assert InRange(s.Row(t), s.RowCount(t));
    }
    if s.tab != ActivityLog {
      SelectKeepsValid(edited, FirstRow(edited.RowCount(s.tab)));
    }
  }

  lemma ViewKeepsValid(s: AppState, view: View)
    requires s.Valid() && InRange(view.selected, |view.events|)
    ensures s.(view := view).Valid()
  {
    var s' := s.(view := view);
    forall t: Tab
      ensures InRange(s'.Row(t), s'.RowCount(t))
    {
      assert InRange(s.Row(t), s.RowCount(t));
    }
  }

  /** Fields that no selection depends on. */
  lemma ModeKeepsValid(s: AppState, tab: Tab, input: InputMode, quit: bool)
    requires s.Valid()
    ensures s.(tab := tab, input := input, shouldQuit := quit).Valid()
  {
    var s' := s.(tab := tab, input := input, shouldQuit := quit);
    forall t: Tab
      ensures InRange(s'.Row(t), s'.RowCount(t))
    {
      assert InRange(s.Row(t), s.RowCount(t));
    }
  }

  lemma SearchedKeepsValid(s: AppState)
    requires s.Valid()
    ensures Searched(s).0.Valid()
  {
    assert InRange(s.Row(ActivityLog), s.RowCount(ActivityLog));
    ViewKeepsValid(s, Searched(s).0.view);
  }

  lemma ClearedKeepsValid(s: AppState)
    requires s.Valid()
    ensures Cleared(s).0.Valid()
  {
    ModeKeepsValid(s, s.tab, Normal, s.shouldQuit);
    EditedKeepsValid(s.(input := Normal), "");
    SearchedKeepsValid(Edited(s.(input := Normal), ""));
  }

  lemma MovesKeepValid(s: AppState)
    requires s.Valid()
    ensures MovedDown(s).0.Valid() && MovedUp(s).0.Valid() && AtTop(s).Valid() && AtEnd(s).0.Valid()
  {
    WrapKeepsValid(s, true);
    WrapKeepsValid(s, false);
    LoadMoreKeepsValid(s);
    LoadMoreKeepsValid(Wrap(s, true));
    LoadMoreKeepsValid(Wrap(s, false));
    if s.RowCount(s.tab) > 0 {
      SelectKeepsValid(s, Some(0));
      SelectKeepsValid(s, Some(s.RowCount(s.tab) - 1));
      LoadMoreKeepsValid(s.Select(Some(s.RowCount(s.tab) - 1)));
    }
  }

  lemma SearchKeyKeepsValid(s: AppState, key: Key)
    requires s.Valid()
    ensures SearchKey(s, key).0.Valid()
  {
    var query := s.queries[Index(s.tab)];
    var closed := s.(input := Normal);
    ModeKeepsValid(s, s.tab, Normal, s.shouldQuit);
    match key
    case Esc => ClearedKeepsValid(s);
    case Enter => SearchedKeepsValid(closed);
    case Down => MovesKeepValid(s);
    case Up => MovesKeepValid(s);
    case Backspace => if query == "" { SearchedKeepsValid(closed); } else { EditedKeepsValid(s, query[..|query| - 1]); }
    case Char(c, ctrl) =>
      EditedKeepsValid(s, query + [c]);
      EditedKeepsValid(s, "");
      ModeKeepsValid(s, s.tab, s.input, true);
    case _ =>
  }

  lemma NormalKeyKeepsValid(s: AppState, key: Key)
    requires s.Valid()
    ensures NormalKey(s, key).0.Valid()
  {
    match key
    case Char(c, ctrl) => CharKeepsValid(s, c, ctrl);
    case Esc => ClearedKeepsValid(s);
    case NextTabKey => ModeKeepsValid(s, NextTab(s.tab), s.input, s.shouldQuit);
    case PrevTabKey => ModeKeepsValid(s, PrevTab(s.tab), s.input, s.shouldQuit);
    case _ => MovesKeepValid(s);
  }

  lemma CharKeepsValid(s: AppState, c: char, ctrl: bool)
    requires s.Valid()
    ensures NormalKey(s, Char(c, ctrl)).0.Valid()
  {
    if c == 'q' || (c == 'c' && ctrl) {
      ModeKeepsValid(s, s.tab, s.input, true);
    } else if '1' <= c <= '5' {
      ModeKeepsValid(s, TABS[c as int - '1' as int], s.input, s.shouldQuit);
    } else if c == '/' {
      ModeKeepsValid(s, s.tab, Typing, s.shouldQuit);
    } else {
      MovesKeepValid(s);
    }
  }

  lemma ListsKeepValid(s: AppState, i: Input)
    requires s.Valid() && (i.GotDownloads? || i.GotSources? || i.GotProfiles? || i.GotSettings?)
    ensures Handle(s, i).Valid()
  {
    var s' := Handle(s, i);
    forall t: Tab
      ensures InRange(s'.Row(t), s'.RowCount(t))
    {
      assert InRange(s.Row(t), s.RowCount(t));
    }
  }

  lemma PageKeepsValid(s: AppState, f: ActivityFilter, p: Response)
    requires s.Valid()
    ensures s.(view := SetActivity(s.view, f, p).0).Valid() && s.(view := AppendActivity(s.view, f, p)).Valid()
  {
    assert InRange(s.Row(ActivityLog), s.RowCount(ActivityLog));
    ViewKeepsValid(s, SetActivity(s.view, f, p).0);
    ViewKeepsValid(s, AppendActivity(s.view, f, p));
  }

  lemma {:induction false} HandleKeepsValid(s: AppState, i: Input)
    requires s.Valid()
    ensures Handle(s, i).Valid()
  {
    match i
    case Pressed(key) => if s.input == Typing { SearchKeyKeepsValid(s, key); } else { NormalKeyKeepsValid(s, key); }
    case GotFirstPage(f, p) => PageKeepsValid(s, f, p);
    case GotNextPage(f, p) => PageKeepsValid(s, f, p);
    case NextPageFailed =>
      assert InRange(s.Row(ActivityLog), s.RowCount(ActivityLog));
      ViewKeepsValid(s, s.view.(paging := Idle));
    case _ => ListsKeepValid(s, i);
  }

  ghost predicate Reaches(s: AppState, inputs: seq<Input>, r: AppState)
    decreases |inputs|
  {
    if inputs == [] then r == s
    else |s.queries| == 5 && Reaches(Handle(s, inputs[0]), inputs[1..], r)
  }

  /** In every state the client can reach, each tab's selection is empty or one of its visible rows. */
  lemma {:induction false} SelectionsAlwaysValid(s: AppState, inputs: seq<Input>, r: AppState)
    requires s.Valid() && Reaches(s, inputs, r)
    ensures r.Valid()
    decreases |inputs|
  {
    if inputs != [] {
      HandleKeepsValid(s, inputs[0]);
      SelectionsAlwaysValid(Handle(s, inputs[0]), inputs[1..], r);
    }
  }

  lemma StartsValid(rules: RowRules, inputs: seq<Input>, r: AppState)
    requires Reaches(Started(rules), inputs, r)
    ensures r.Valid()
  {
    SelectionsAlwaysValid(Started(rules), inputs, r);
  }

  // ---------------------------------------------------------------- what a selected row shows

  /** Position `k` of a tab's rows holds an item that `keep` accepts. */
  predicate Shows<T>(items: seq<T>, rows: seq<nat>, k: nat, keep: T -> bool) {
    k < |rows| && rows[k] < |items| && keep(items[rows[k]])
  }

  lemma RowShows<T>(items: seq<T>, keep: T -> bool, k: nat)
    requires k < |Rows(items, keep)|
    ensures Shows(items, Rows(items, keep), k, keep)
  {
    RowsAreTheKeptOnes(items, keep);
    assert Rows(items, keep)[k] in Rows(items, keep);
  }

  /**
   The selected row of a tab is an item that matches the tab's query, sources
   under the profiles of the moment. Activity is searched by the server.
   */
  ghost predicate RowMatches(s: AppState, t: Tab)
    requires |s.queries| == 5
  {
    s.Row(t).Some? ==>
      var k := s.Row(t).value;
      match t
      case Downloads =>
        Shows(s.downloads, s.rules.downloads(s.downloads, s.queries[0]), k, d => DownloadMatches(d, s.queries[0]))
      case Sources =>
        Shows(s.sources, s.rules.sources(s.sources, s.profiles, s.queries[1]), k,
              x => SourceMatches(x, s.profiles, s.queries[1]))
      case Profiles =>
        Shows(s.profiles, s.rules.profiles(s.profiles, s.queries[2]), k, p => ProfileMatches(p, s.queries[2]))
      case ActivityLog => k < |s.view.events|
      case Settings =>
        && s.settings.Some?
        && Shows(s.settings.value, s.rules.settings(s.settings, s.queries[4]), k, r => SettingMatches(r, s.queries[4]))
  }

  lemma ValidRowMatches(s: AppState, t: Tab)
    requires s.Valid() && s.rules == SEARCH_RULES
    ensures RowMatches(s, t)
  {
    assert InRange(s.Row(t), s.RowCount(t));
    if s.Row(t).Some? {
      var k := s.Row(t).value;
      match t
      case Downloads => RowShows(s.downloads, d => DownloadMatches(d, s.queries[0]), k);
      case Sources => RowShows(s.sources, x => SourceMatches(x, s.profiles, s.queries[1]), k);
      case Profiles => RowShows(s.profiles, p => ProfileMatches(p, s.queries[2]), k);
      case ActivityLog =>
      case Settings => RowShows(s.settings.value, r => SettingMatches(r, s.queries[4]), k);
    }
  }

  lemma {:induction false} RulesStay(s: AppState, inputs: seq<Input>, r: AppState)
    requires Reaches(s, inputs, r)
    ensures r.rules == s.rules
    decreases |inputs|
  {
    if inputs != [] {
      RulesStay(Handle(s, inputs[0]), inputs[1..], r);
    }
  }

  /** In every state the client can reach, whatever changed last, each selected row matches the search in force. */
  lemma SelectionsAlwaysMatch(inputs: seq<Input>, r: AppState, t: Tab)
    requires Reaches(Started(SEARCH_RULES), inputs, r)
    ensures |r.queries| == 5 && RowMatches(r, t)
  {
    StartsValid(SEARCH_RULES, inputs, r);
    RulesStay(Started(SEARCH_RULES), inputs, r);
    ValidRowMatches(r, t);
  }

  // ---------------------------------------------------------------- the object

  class App {
    const rules: RowRules
    var tab: Tab
    var input: InputMode
    var shouldQuit: bool
    var queries: seq<string>
    var downloads: seq<Download>
    var sources: seq<Source>
    var profiles: seq<Profile>
    var settings: Option<seq<SettingsRow>>
    var activity: seq<Event>
    var activityTotal: nat
    var activityPaging: Paging
    var activityFilter: ActivityFilter
    var downloadsState: Option<nat>
    var sourcesState: Option<nat>
    var profilesState: Option<nat>
    var activityState: Option<nat>
    var settingsState: Option<nat>

    /** The activity tab. */
    function Listed(): View
      reads `activityFilter, `activity, `activityTotal, `activityPaging, `activityState
    {
      View(activityFilter, activity, activityTotal, activityPaging, activityState)
    }

    function Value(): AppState
      reads this
    {
      AppState(rules, tab, input, shouldQuit, queries, downloads, sources, profiles, settings, Listed(),
               downloadsState, sourcesState, profilesState, settingsState)
    }

    constructor (rules: RowRules)
      ensures Value() == Started(rules) && Value().Valid()
    {
      this.rules := rules;
      tab, input, shouldQuit := Downloads, Normal, false;
      queries := ["", "", "", "", ""];
      downloads, sources, profiles, settings := [], [], [], None;
      activity, activityTotal, activityPaging, activityFilter := [], 0, Idle, NO_FILTER;
      downloadsState, sourcesState, profilesState, activityState, settingsState := None, None, None, None, None;
    }

    method SetDownloads(incoming: seq<Download>)
      requires Value().Valid()
      modifies this
      ensures Value() == OnDownloads(old(Value()), incoming)
      ensures Value().Valid()
    {
      ListsKeepValid(Value(), GotDownloads(incoming));
      downloads := incoming;
      downloadsState := Clamp(downloadsState, Value().RowCount(Downloads));
    }

    method SetSources(incoming: seq<Source>)
      requires Value().Valid()
      modifies this
      ensures Value() == OnSources(old(Value()), incoming)
      ensures Value().Valid()
    {
      ListsKeepValid(Value(), GotSources(incoming));
      sources := incoming;
      sourcesState := Clamp(sourcesState, Value().RowCount(Sources));
    }

    method SetSettings(incoming: seq<SettingsRow>)
      requires Value().Valid()
      modifies this
      ensures Value() == OnSettings(old(Value()), incoming)
      ensures Value().Valid()
    {
      ListsKeepValid(Value(), GotSettings(incoming));
      settings := Some(incoming);
      settingsState := Clamp(settingsState, Value().RowCount(Settings));
    }

    method SetProfiles(incoming: seq<Profile>)
      requires Value().Valid()
      modifies this
      ensures Value() == OnProfiles(old(Value()), incoming)
      ensures Value().Valid()
    {
      ListsKeepValid(Value(), GotProfiles(incoming));
      profiles := incoming;
      profilesState := Clamp(profilesState, Value().RowCount(Profiles));
      sourcesState := Clamp(sourcesState, Value().RowCount(Sources));
    }

    /** A first page for the current filter. */
    method MergePage(resp: Response)
      modifies `activity, `activityTotal, `activityPaging, `activityState
      ensures Listed() == SetActivity(old(Listed()), activityFilter, resp).0
    {
      var selected := SelectedEvent(Listed());
      activityTotal := resp.total;
      activity := MergeFirstPage(resp.events, activity);
      // Only the fresh page is loaded: it alone says whether more exist.
      if |activity| == |resp.events| && activityPaging != Loading {
        activityPaging := if IsLastPage(resp) then End else Idle;
      }
      activityState := Reselected(activity, selected, activityState);
    }

    method SetActivityPage(filter: ActivityFilter, resp: Response) returns (current: bool)
      requires Value().Valid()
      modifies this
      ensures var (view, accepted) := SetActivity(old(Value()).view, filter, resp);
              current == accepted && Value() == old(Value()).(view := view)
      ensures Value().Valid()
    {
      PageKeepsValid(Value(), filter, resp);
      current := filter == activityFilter;
      if current {
        MergePage(resp);
      }
    }

    /** A next page for the current filter. */
    method AppendPage(resp: Response)
      modifies `activity, `activityTotal, `activityPaging, `activityState
      ensures Listed() == AppendActivity(old(Listed()), activityFilter, resp)
    {
      activityTotal := resp.total;
      activityPaging := if IsLastPage(resp) then End else Idle;
      activity := activity + Unseen(resp.events, activity);
      activityState := Clamp(activityState, |activity|);
    }

    method AppendActivityPage(filter: ActivityFilter, resp: Response)
      requires Value().Valid()
      modifies this
      ensures Value() == old(Value()).(view := AppendActivity(old(Value()).view, filter, resp))
      ensures Value().Valid()
    {
      PageKeepsValid(Value(), filter, resp);
      if filter != activityFilter {
        activityPaging := Idle;
      } else {
        AppendPage(resp);
      }
    }

    /** A next page could not be fetched. */
    method FailPaging()
      requires Value().Valid()
      modifies this
      ensures Value() == Handle(old(Value()), NextPageFailed)
      ensures Value().Valid()
    {
      HandleKeepsValid(Value(), NextPageFailed);
      activityPaging := Idle;
    }

    method Select(row: Option<nat>)
      modifies this
      ensures Value() == old(Value()).Select(row)
    {
      match tab
      case Downloads => downloadsState := row;
      case Sources => sourcesState := row;
      case Profiles => profilesState := row;
      case ActivityLog => activityState := row;
      case Settings => settingsState := row;
    }

    method SelectWrapping(down: bool)
      requires Value().Valid()
      modifies this
      ensures Value() == Wrap(old(Value()), down)
      ensures Value().Valid()
    {
      WrapKeepsValid(Value(), down);
      var s := Value();
      Select(Wrapped(s.Row(tab), s.RowCount(tab), down));
    }

    method LoadMoreAtBottom() returns (action: Option<Action>)
      requires Value().Valid()
      modifies this
      ensures (Value(), action) == LoadMore(old(Value()))
      ensures Value().Valid()
    {
      LoadMoreKeepsValid(Value());
      var view := Value().view;
      if tab != ActivityLog || !AtBottom(view) || activityPaging == Loading || !HasMore(view) {
        return None;
      }
      activityPaging := Loading;
      action := Some(LoadMoreActivity);
    }

    method MoveDown() returns (action: Option<Action>)
      requires Value().Valid()
      modifies this
      ensures (Value(), action) == MovedDown(old(Value()))
      ensures Value().Valid()
    {
      MovesKeepValid(Value());
      if tab == ActivityLog && AtBottom(Value().view) && HasMore(Value().view) {
        action := LoadMoreAtBottom();
        return;
      }
      SelectWrapping(true);
      action := LoadMoreAtBottom();
    }

    method MoveUp() returns (action: Option<Action>)
      requires Value().Valid()
      modifies this
      ensures (Value(), action) == MovedUp(old(Value()))
      ensures Value().Valid()
    {
      MovesKeepValid(Value());
      SelectWrapping(false);
      action := LoadMoreAtBottom();
    }

    method EditQuery(query: string)
      requires Value().Valid()
      modifies this
      ensures Value() == Edited(old(Value()), query)
      ensures Value().Valid()
    {
      EditedKeepsValid(Value(), query);
      queries := queries[Index(tab) := query];
      // Activity keeps its rows until the query is sent on Enter.
      if tab != ActivityLog {
        Select(FirstRow(Value().RowCount(tab)));
      }
    }

    method ApplyActivitySearch() returns (action: Option<Action>)
      requires Value().Valid()
      modifies this
      ensures (Value(), action) == Searched(old(Value()))
      ensures Value().Valid()
    {
      SearchedKeepsValid(Value());
      if tab != ActivityLog {
        return None;
      }
      var filter := ParseFilter(queries[3]);
      if filter == activityFilter {
        return None;
      }
      activityFilter := filter;
      activity, activityTotal, activityPaging, activityState := [], 0, Idle, None;
      action := Some(Refresh);
    }

    method ClearSearch() returns (action: Option<Action>)
      requires Value().Valid()
      modifies this
      ensures (Value(), action) == Cleared(old(Value()))
      ensures Value().Valid()
    {
      ClearedKeepsValid(Value());
      ModeKeepsValid(Value(), tab, Normal, shouldQuit);
      input := Normal;
      var filtered := tab == ActivityLog && activityFilter != NO_FILTER;
      if queries[Index(tab)] == "" && !filtered {
        return None;
      }
      EditQuery("");
      action := ApplyActivitySearch();
    }

    method HandleKey(key: Key) returns (action: Option<Action>)
      requires Value().Valid()
      modifies this
      ensures (Value(), action) == OnKey(old(Value()), key)
      ensures Value().Valid()
    {
      HandleKeepsValid(Value(), Pressed(key));
      if input == Typing {
        action := HandleSearchKey(key);
      } else {
        action := HandleNormalKey(key);
      }
    }

    method HandleSearchKey(key: Key) returns (action: Option<Action>)
      requires Value().Valid()
      modifies this
      ensures (Value(), action) == SearchKey(old(Value()), key)
      ensures Value().Valid()
    {
      SearchKeyKeepsValid(Value(), key);
      ModeKeepsValid(Value(), tab, Normal, shouldQuit);
      action := None;
      var query := queries[Index(tab)];
      match key {
        case Esc => action := ClearSearch();
        case Enter =>
          input := Normal;
          action := ApplyActivitySearch();
        case Down => action := MoveDown();
        case Up => action := MoveUp();
        case Backspace =>
          if query == "" {
            input := Normal;
            action := ApplyActivitySearch();
          } else {
            EditQuery(query[..|query| - 1]);
          }
        case Char(c, ctrl) =>
          if !ctrl {
            EditQuery(query + [c]);
          } else if c == 'c' {
            shouldQuit := true;
          } else if c == 'u' {
            EditQuery("");
          }
        case _ =>
      }
    }

    method HandleNormalKey(key: Key) returns (action: Option<Action>)
      requires Value().Valid()
      modifies this
      ensures (Value(), action) == NormalKey(old(Value()), key)
      ensures Value().Valid()
    {
      NormalKeyKeepsValid(Value(), key);
      action := None;
      match key {
        case NextTabKey =>
          tab := NextTab(tab);
          action := Some(Refresh);
        case PrevTabKey =>
          tab := PrevTab(tab);
          action := Some(Refresh);
        case Down => action := MoveDown();
        case Up => action := MoveUp();
        case Home => GoTop();
        case Bottom => action := GoBottom();
        case Esc => action := ClearSearch();
        case F5 => action := Some(Refresh);
        case Enter => action := if tab == Settings then Some(OtherAction) else None;
        case Backspace =>
        case Char(c, ctrl) => action := HandleChar(c, ctrl);
      }
    }

    method HandleChar(c: char, ctrl: bool) returns (action: Option<Action>)
      requires Value().Valid()
      modifies this
      ensures (Value(), action) == NormalKey(old(Value()), Char(c, ctrl))
      ensures Value().Valid()
    {
      CharKeepsValid(Value(), c, ctrl);
      action := None;
      if c == 'q' || (c == 'c' && ctrl) {
        shouldQuit := true;
      } else if '1' <= c <= '5' {
        var t := TABS[c as int - '1' as int];
        action := if t == tab then None else Some(Refresh);
        tab := t;
      } else if c == 'j' {
        action := MoveDown();
      } else if c == 'k' {
        action := MoveUp();
      } else if c == 'g' {
        GoTop();
      } else if c == 'G' {
        action := GoBottom();
      } else if c == '/' {
        input := Typing;
      } else if c == 'f' && tab == Downloads {
        action := Some(Refresh);
      } else {
        action := Some(OtherAction);
      }
    }

    method GoTop()
      requires Value().Valid()
      modifies this
      ensures Value() == AtTop(old(Value()))
      ensures Value().Valid()
    {
      MovesKeepValid(Value());
      if Value().RowCount(tab) > 0 {
        Select(Some(0));
      }
    }

    method GoBottom() returns (action: Option<Action>)
      requires Value().Valid()
      modifies this
      ensures (Value(), action) == AtEnd(old(Value()))
      ensures Value().Valid()
    {
      MovesKeepValid(Value());
      var len := Value().RowCount(tab);
      if len > 0 {
        SelectKeepsValid(Value(), Some(len - 1));
        Select(Some(len - 1));
      }
      action := LoadMoreAtBottom();
    }
  }
}
