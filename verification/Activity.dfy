/**
 The activity log as the server pages it (`activity.rs`) and the list the
 terminal client builds from those pages (`app.rs`).

 A log is oldest first and append-only; a page and the client's list are newest
 first. `Newest(log, lo, hi)` is the run of the log from position `lo` up to
 `hi`, newest first, and "contiguous" means being such a run.
 */
module Activity {
  import opened Outcomes
  import opened Text
  import opened Search

  const ACTIVITY_PAGE: nat := 50

  datatype Event = Event(id: nat, severity: Severity, message: string)

  // ---------------------------------------------------------------- the server's log

  /** The predicate of the listing and counting queries. */
  predicate MatchesFilter(f: ActivityFilter, e: Event) {
    && (f.severity.Some? ==> f.severity.value == e.severity)
    && (f.search.Some? ==> Contains(Lower(e.message), Lower(f.search.value)))
  }

  /** The severity must be the filter's, and its text must stand somewhere in the message, letters in either case. */
  lemma {:induction false} MatchesFilterIff(f: ActivityFilter, e: Event)
    ensures MatchesFilter(f, e) <==>
            && (f.severity == None || f.severity == Some(e.severity))
            && (f.search == None ||
                exists i | 0 <= i <= |e.message| - |f.search.value| :: StandsAt(f.search.value, e.message, i))
  {
    if f.search.Some? {
      var part, text := f.search.value, e.message;
      forall i | 0 <= i <= |text|
        ensures Lower(part) <= Lower(text)[i..] <==> i <= |text| - |part| && StandsAt(part, text, i)
      {
        if i <= |text| - |part| {
          assert forall k | 0 <= k < |part| ::
              Lower(text)[i..][k] == LowerChar(text[i + k]) && Lower(part)[k] == LowerChar(part[k]);
          if StandsAt(part, text, i) {
            assert Lower(text)[i..][..|part|] == Lower(part);
          }
        }
      }
    }
  }

  ghost predicate StandsAt(part: string, text: string, i: int) {
    0 <= i <= |text| - |part| && forall k | 0 <= k < |part| :: LowerChar(text[i + k]) == LowerChar(part[k])
  }

  function Matching(f: ActivityFilter, log: seq<Event>): seq<Event> {
    if log == [] then []
    else
      var last := log[|log| - 1];
      Matching(f, log[..|log| - 1]) + (if MatchesFilter(f, last) then [last] else [])
  }

  predicate DistinctIds(s: seq<Event>) {
    forall i, j | 0 <= i < j < |s| :: s[i].id != s[j].id
  }

  function Newest(log: seq<Event>, lo: nat, hi: nat): (r: seq<Event>)
    requires lo <= hi <= |log|
    ensures |r| == hi - lo && forall k | 0 <= k < |r| :: r[k] == log[hi - 1 - k]
  {
    seq(hi - lo, k requires 0 <= k < hi - lo => log[hi - 1 - k])
  }

  ghost predicate Contiguous(log: seq<Event>, s: seq<Event>) {
    exists lo: nat, hi: nat | lo <= hi <= |log| :: s == Newest(log, lo, hi)
  }

  function Minus(a: nat, b: nat): nat {
    if b <= a then a - b else 0
  }

  /** `ORDER BY created_at DESC LIMIT limit OFFSET offset` over the matching events. */
  function Page(log: seq<Event>, limit: nat, offset: nat): seq<Event> {
    var top := Minus(|log|, offset);
    Newest(log, Minus(top, limit), top)
  }

  datatype Response = Response(events: seq<Event>, total: nat)

  /** One page plus the total; `counted` is what a `COUNT(*)` issued after the page would see. */
  function ActivityPage(log: seq<Event>, limit: nat, offset: nat, counted: nat): Response {
    var events := Page(log, limit, offset);
    Response(events, if |events| < limit && (|events| > 0 || offset == 0) then offset + |events| else counted)
  }

  /** Skipping the count never changes the total, and a short page is always exact. */
  lemma TotalIsExact(log: seq<Event>, limit: nat, offset: nat, counted: nat)
    ensures var r := ActivityPage(log, limit, offset, counted);
            && (counted == |log| ==> r.total == |log|)
            && (|r.events| < limit && r.events != [] ==> r.total == |log|)
            && r.total in {|log|, counted}
  {}

  lemma {:induction false} MatchingAppends(f: ActivityFilter, log: seq<Event>, more: seq<Event>)
    ensures Matching(f, log + more) == Matching(f, log) + Matching(f, more)
    decreases |more|
  {
    if more == [] {
      assert log + more == log;
    } else {
      var all := log + more;
      assert all[..|all| - 1] == log + more[..|more| - 1];
      MatchingAppends(f, log, more[..|more| - 1]);
    }
  }

  lemma {:induction false} MatchingOnly(f: ActivityFilter, log: seq<Event>, e: Event)
    ensures e in Matching(f, log) <==> e in log && MatchesFilter(f, e)
    decreases |log|
  {
    if log != [] {
      var before := log[..|log| - 1];
      MatchingOnly(f, before, e);
      assert log == before + [log[|log| - 1]];
    }
  }

  lemma {:induction false} MatchingDistinct(f: ActivityFilter, log: seq<Event>)
    requires DistinctIds(log)
    ensures DistinctIds(Matching(f, log))
    decreases |log|
  {
    if log != [] {
      var before := log[..|log| - 1];
      MatchingDistinct(f, before);
      forall e | e in Matching(f, before)
        ensures e.id != log[|log| - 1].id
      {
        MatchingOnly(f, before, e);
      }
      assert forall i | 0 <= i < |Matching(f, before)| :: Matching(f, before)[i] in Matching(f, before);
    }
  }

  // ---------------------------------------------------------------- the client's list

  datatype Paging = Idle | Loading | End

  /** The fields of `App` that hold the activity tab. */
  datatype View = View(filter: ActivityFilter, events: seq<Event>, total: nat, paging: Paging, selected: Option<nat>)

  const EMPTY_VIEW := View(NO_FILTER, [], 0, Idle, None)

  function Position(s: seq<Event>, id: nat): (r: Option<nat>)
    ensures r.Some? ==> r.value < |s| && s[r.value].id == id && forall k | 0 <= k < r.value :: s[k].id != id
    ensures r.None? ==> forall k | 0 <= k < |s| :: s[k].id != id
  {
    if s == [] then None
    else if s[0].id == id then Some(0)
    else
      match Position(s[1..], id)
      case None => None
      case Some(i) => Some(i + 1)
  }

  predicate IsLastPage(r: Response) {
    |r.events| < ACTIVITY_PAGE
  }

  /** A refreshed first page on top of the loaded events it lines up with. */
  function MergeFirstPage(page: seq<Event>, loaded: seq<Event>): seq<Event> {
    if page == [] then page
    else
      match Position(loaded, page[|page| - 1].id)
      case Some(pos) => page + loaded[pos + 1..]
      case None => page
  }

  /** The events of `page` that are not loaded, in order. */
  function Unseen(page: seq<Event>, loaded: seq<Event>): seq<Event> {
    if page == [] then []
    else (if Position(loaded, page[0].id).None? then [page[0]] else []) + Unseen(page[1..], loaded)
  }

  /** Keep a selection in range after the list changed. */
  function Clamp(selected: Option<nat>, len: nat): (r: Option<nat>)
    ensures r.Some? ==> r.value < len
    ensures r.None? <==> len == 0
    ensures selected.Some? && selected.value < len ==> r == selected
  {
    match selected
    case None => if len == 0 then None else Some(0)
    case Some(i) => if len == 0 then None else if i >= len then Some(len - 1) else selected
  }

  function SelectedEvent(v: View): Option<Event> {
    if v.selected.Some? && v.selected.value < |v.events| then Some(v.events[v.selected.value]) else None
  }

  /** `reselect_activity`: the row of the event that was selected, or the selection kept in range. */
  function Reselected(events: seq<Event>, was: Option<Event>, row: Option<nat>): Option<nat> {
    var kept := match was case Some(e) => Position(events, e.id) case None => None;
    if kept.Some? then kept else Clamp(row, |events|)
  }

  /** `set_activity`: the new view, and whether the response was for the current filter. */
  function SetActivity(v: View, f: ActivityFilter, r: Response): (View, bool) {
    if f != v.filter then (v, false)
    else
      var events := MergeFirstPage(r.events, v.events);
      var paging :=
        if |events| == |r.events| && v.paging != Loading then (if IsLastPage(r) then End else Idle) else v.paging;
      (View(f, events, r.total, paging, Reselected(events, SelectedEvent(v), v.selected)), true)
  }

  /** `append_activity`: a next page under the list, without what is already there. */
  function AppendActivity(v: View, f: ActivityFilter, r: Response): View {
    if f != v.filter then v.(paging := Idle)
    else
      var events := v.events + Unseen(r.events, v.events);
      View(f, events, r.total, if IsLastPage(r) then End else Idle, Clamp(v.selected, |events|))
  }

  predicate HasMore(v: View) {
    v.paging != End && |v.events| < v.total
  }

  predicate AtBottom(v: View) {
    v.selected.Some? && v.selected.value + 1 >= |v.events|
  }

  /** Whether `load_more_at_bottom` asks for a page when the activity tab is shown. */
  predicate WantsMore(v: View) {
    AtBottom(v) && v.paging != Loading && HasMore(v)
  }

  function ApplySearch(v: View, f: ActivityFilter): View {
    if f == v.filter then v else View(f, [], 0, Idle, None)
  }

  // ---------------------------------------------------------------- runs of a log

  lemma PositionInRun(log: seq<Event>, lo: nat, hi: nat, p: nat)
    requires DistinctIds(log) && lo <= hi <= |log| && p < |log|
    ensures Position(Newest(log, lo, hi), log[p].id) == if lo <= p < hi then Some(hi - 1 - p) else None
  {
    var s := Newest(log, lo, hi);
    if lo <= p < hi {
      assert s[hi - 1 - p] == log[p];
    }
  }

  lemma RunOfPrefix(log: seq<Event>, more: seq<Event>, lo: nat, hi: nat)
    requires lo <= hi <= |log|
    ensures Newest(log + more, lo, hi) == Newest(log, lo, hi)
  {}

  /** A page on top of a run that it reaches into. */
  lemma JoinRuns(log: seq<Event>, lo: nat, oldest: nat, hi: nat, at: nat)
    requires lo <= oldest < hi <= |log| && oldest <= at <= |log|
    ensures Newest(log, oldest, at) + Newest(log, lo, hi)[hi - oldest..] == Newest(log, lo, at)
  {}

  /** The newest end `hi` of a refresh always wins; the list keeps its oldest end when they overlap. */
  lemma {:induction false} MergeRuns(log: seq<Event>, lo: nat, hi: nat, at: nat)
    requires DistinctIds(log) && lo <= hi <= |log| && at <= |log|
    ensures var oldest := Minus(at, ACTIVITY_PAGE);
            MergeFirstPage(Newest(log, oldest, at), Newest(log, lo, hi))
            == Newest(log, if lo <= oldest < hi then lo else oldest, at)
  {
    var oldest := Minus(at, ACTIVITY_PAGE);
    var page := Newest(log, oldest, at);
    if at > 0 {
      assert page[|page| - 1] == log[oldest];
      PositionInRun(log, lo, hi, oldest);
      if lo <= oldest < hi {
        JoinRuns(log, lo, oldest, hi, at);
      }
    } else if lo <= oldest < hi {
      assert lo == 0;
    }
  }

  lemma UnseenHead(log: seq<Event>, loaded: seq<Event>, lo: nat, hi: nat, a: nat, b: nat)
    requires DistinctIds(log) && lo <= hi <= |log| && a < b <= |log| && loaded == Newest(log, lo, hi)
    ensures Unseen(Newest(log, a, b), loaded)
            == (if lo <= b - 1 < hi then [] else [log[b - 1]]) + Unseen(Newest(log, a, b - 1), loaded)
  {
    PositionInRun(log, lo, hi, b - 1);
    var page := Newest(log, a, b);
    assert page[0] == log[b - 1];
    assert page[1..] == Newest(log, a, b - 1);
  }

  lemma {:induction false} UnseenBelow(log: seq<Event>, loaded: seq<Event>, lo: nat, hi: nat, a: nat, b: nat)
    requires DistinctIds(log) && lo <= hi <= |log| && a <= b <= lo && loaded == Newest(log, lo, hi)
    ensures Unseen(Newest(log, a, b), loaded) == Newest(log, a, b)
    decreases b
  {
    if a < b {
      UnseenHead(log, loaded, lo, hi, a, b);
      UnseenBelow(log, loaded, lo, hi, a, b - 1);
      assert Newest(log, a, b) == [log[b - 1]] + Newest(log, a, b - 1);
    }
  }

  lemma {:induction false} UnseenOfRun(log: seq<Event>, loaded: seq<Event>, lo: nat, hi: nat, a: nat, b: nat)
    requires DistinctIds(log) && a <= b && lo <= b <= hi <= |log| && loaded == Newest(log, lo, hi)
    ensures Unseen(Newest(log, a, b), loaded) == Newest(log, if a <= lo then a else lo, lo)
    decreases b
  {
    if b == lo {
      UnseenBelow(log, loaded, lo, hi, a, b);
    } else if a < b {
      UnseenHead(log, loaded, lo, hi, a, b);
      UnseenOfRun(log, loaded, lo, hi, a, b - 1);
    }
  }

  /**
   When appending a next page keeps the list one newest-first run of the log.

   `b` is where the page starts, counted from the oldest event. It must not lie
   above the newest loaded event (more events arrived unseen than the request's
   offset) and must not lie below the oldest (the list was replaced while the
   page was on its way).
   */
  lemma AppendContiguousIff(log: seq<Event>, lo: nat, hi: nat, a: nat, b: nat)
    requires DistinctIds(log) && lo <= hi <= |log| && a <= b <= |log|
    ensures var loaded, page := Newest(log, lo, hi), Newest(log, a, b);
            Contiguous(log, loaded + Unseen(page, loaded)) <==> loaded == [] || page == [] || lo <= b <= hi
  {
    var loaded, page := Newest(log, lo, hi), Newest(log, a, b);
    if lo == hi {
      UnseenAll(page);
      assert loaded + Unseen(page, loaded) == page;
    } else if a == b || lo <= b <= hi {
      AppendRuns(log, lo, hi, a, b);
    } else {
      AppendBreaks(log, lo, hi, a, b);
    }
  }

  lemma AppendRuns(log: seq<Event>, lo: nat, hi: nat, a: nat, b: nat)
    requires DistinctIds(log) && lo < hi <= |log| && a <= b <= |log| && (a == b || lo <= b <= hi)
    ensures var loaded, page := Newest(log, lo, hi), Newest(log, a, b);
            loaded + Unseen(page, loaded) == Newest(log, if a < b && a <= lo then a else lo, hi)
  {
    var loaded := Newest(log, lo, hi);
    if a < b {
      UnseenOfRun(log, loaded, lo, hi, a, b);
    }
  }

  lemma AppendBreaks(log: seq<Event>, lo: nat, hi: nat, a: nat, b: nat)
    requires DistinctIds(log) && lo < hi <= |log| && a < b <= |log| && !(lo <= b <= hi)
    ensures var loaded, page := Newest(log, lo, hi), Newest(log, a, b);
            !Contiguous(log, loaded + Unseen(page, loaded))
  {
    var loaded, page := Newest(log, lo, hi), Newest(log, a, b);
    UnseenHead(log, loaded, lo, hi, a, b);
    var after := loaded + Unseen(page, loaded);
    assert after[hi - lo - 1] == log[lo] && after[hi - lo] == log[b - 1];
    NextInRun(log, after, hi - lo, lo);
  }

  /** In a contiguous run the event after position `p` is the one at `p - 1`. */
  lemma NextInRun(log: seq<Event>, s: seq<Event>, k: nat, p: nat)
    requires DistinctIds(log) && 0 < k < |s| && p < |log| && s[k - 1] == log[p]
    ensures Contiguous(log, s) ==> p > 0 && s[k] == log[p - 1]
  {
    if Contiguous(log, s) {
      var lo: nat, hi: nat :| lo <= hi <= |log| && s == Newest(log, lo, hi);
      assert s[k - 1] == log[hi - k];
    }
  }

  lemma {:induction false} UnseenOnly(page: seq<Event>, loaded: seq<Event>, e: Event)
    ensures e in Unseen(page, loaded) <==> e in page && Position(loaded, e.id).None?
  {
    if page != [] {
      UnseenOnly(page[1..], loaded, e);
    }
  }

  lemma {:induction false} UnseenAll(page: seq<Event>)
    ensures Unseen(page, []) == page
  {
    if page != [] {
      UnseenAll(page[1..]);
    }
  }

  // ---------------------------------------------------------------- selection

  /** A refresh keeps the same event selected as long as it is still listed. */
  lemma RefreshKeepsSelection(v: View, r: Response)
    requires SelectedEvent(v).Some?
    ensures var v' := SetActivity(v, v.filter, r).0; var e := SelectedEvent(v).value;
            if Position(v'.events, e.id).Some?
            then SelectedEvent(v').Some? && SelectedEvent(v').value.id == e.id
            else v'.selected == Clamp(v.selected, |v'.events|)
  {}

  ghost predicate SelectionInRange(v: View) {
    v.selected.Some? ==> v.selected.value < |v.events|
  }
}
