# Hofvarpnir in Dafny

A Dafny model of the parts of Hofvarpnir where several functions, processes or
in-flight requests have to agree, with proofs about every run or every input.
`dafny verify dfyconfig.toml` checks the whole project.

| file | models | main result |
|---|---|---|
| `Activity`, `EventLoop`, `Paging`, `PagingLimits` | the activity log, the terminal client's paging over it, and the event loop between them | the list is one gap-free run of a log that keeps growing, with the exact condition for every run of the loop and every history of the client |
| `Browsing` | what each delivered page leaves in the view, and paging to the end | exactly when an incomplete list says so, and how many rounds list the whole log |
| `App`, `Keys` | the terminal client's state and keys | every tab's selection is a row that matches its search, in every reachable state; what every key changes and asks for, field by field |
| `Client`, `Session`, `Histories` | the application driven by keys and responses, its handlers in place, and histories built step by step | every history of the client is a run of the event loop, so the paging results hold for what the user sees |
| `Fetching` | what the client asks for and shows | a refresh asks for exactly what the shown tab needs; each fetch stays outstanding until its own answer, and each list is the one delivered last |
| `RuntimeConfig`, `SettingsListener` | settings resolution, pause deadlines, the LISTEN/NOTIFY listener | exactly when a settled listener has published the current row, silent reconnects and failed reloads included |
| `SettingsApi`, `Knobs` | the settings endpoints and the client's editor for them | what the editor accepts is what the server stores and resolves |
| `Sse`, `ZeroRun` | the two streaming decoders | the result depends only on the bytes, not on how they were cut |
| `Watchdog`, `Drain`, `QualityGate` | protocols bounded in time | exits per hour, polls per drain, waits per video |
| `OutputPath`, `Templates` | naming templates and the paths they render to | every path is safe; exactly which path the documented templates give |
| `ChannelUrl`, `XmlEscape`, `Search` | text rewriting and parsing | safety, idempotence, round trips |
| `BulkAction` | one action on many downloads | each requested id is reported exactly once |
| `Text`, `Outcomes` | string operations of the Rust library; `Option` and `Result` | |

Code that updates state in place is a class or a method with loops, proved equal
to a function (`App`, `Session`, `SseParser`, `DrainToken`, the zero-run scan, the
bulk action, the knob parser and printer, the end of the path rendering). Concurrent
protocols are state machines: `Enabled` and `Apply` give the steps, `Legal` and
`Run` the runs, and an invariant is shown for each step and lifted to all runs.

## What was found

- **Paging.** The user always sees one gap-free list if and only if every next page
  that is appended begins inside the list or right after its end
  (`ClientLoop.ClientShowsRunIff`, and `ActivityPaging.ContiguousIffPagesContinue`
  for the loop alone). Refreshes, searches and keys never do harm. A page fails to
  continue the list in two ways, both shown as histories of the client from its
  start: more than a page of events arrive between a request and its answer
  (`PagingLimits.BurstBreaksOrder`), or the filter is left and returned to while a
  next page for it is outstanding (`PagingLimits.DetourLeavesGap`). A calm run
  avoids both: when an answer for the current filter is computed, the newest
  listed event is still on the server's first page, and a search does not return
  to a filter whose next page is on its way.
- **A late page hides the rest.** A next page sets the total to what the server
  counted for it. One that arrives after a newer first page sets the total back. The
  list can then leave out the oldest events and still say that there is no more, and
  its end asks for nothing until the next refresh (`PagingLimits.LatePageHidesRest`,
  a calm history). `ActivityBrowsing.SaysMoreIff` is the exact condition. Pages computed
  when the newest listed event was already logged do no harm
  (`ActivityBrowsing.CalmListsSayMore`).
- **Next pages have no `in_flight` key.** A list marked as loading always has a
  request outstanding, but not the other way round: after the detour the list is
  idle while the old next page is still on its way, and going to its end asks for
  another (`PagingLimits.DetourLeavesGap`).
- **Settings.** The listener notices a broken session only when the connection
  library's `recv` reports it. `recv` can also reconnect by itself; then what was
  announced in between is lost and no reload follows
  (`SettingsListener.SilentReconnectLosesPatch`). A reload that fails is not
  repeated either (`FailedReloadStaysStale`). In both cases the listener goes on
  with the old settings. `SettledIsCurrentIff` is the exact condition for every
  run: since the row was last read, no version's announcement was lost, or
  received without a read that succeeded. The next reload that succeeds repairs
  both.
- **Placeholders in names.** A title that contains a placeholder is substituted
  again: a video titled `{id}` is named after its id twice
  (`OutputPath.PlaceholderTitleIsReplaced`). For ids without `{` and `%` that always
  shows in the path (`OutputPath.DocumentedTemplateRenders`, an if and only if); an
  id that is itself a placeholder can hide it
  (`OutputPath.PlaceholderIdHidesPlaceholder`).
- **Watchdog.** "Three self-exits per hour" holds for the decisions and for the
  recorded events. The processes are gone only after their drains, and four of
  these moments can fall within an hour. The bound on them is an hour minus one
  drain, and `Watchdog.FourExitsWithinAnHour` misses it by a millisecond for
  every drain.
- **Pauses.** The next deadline is the first change of a verdict for every row
  the API can write. A row with an expiry past the sentinel next to an indefinite
  pause is the only exception (`RuntimeConfig.DeadlineIsFirstFlipIff`).
- **Progress stream.** Printing and decoding frames is exact if and only if no
  payload line ends in a carriage return (`Sse.DecodePrintIff`).

## Model

| member | source | states |
|---|---|---|
| Activity.TotalIsExact | crates/hof-api/src/routes/activity.rs:275-312 | a page that skips its count still reports the true number of matching events |
| Activity.MatchingAppends | crates/hof-core/src/db/activity.rs:163-197 | appending to the log only appends to what a filter matches, so older matches keep their places |
| Activity.MatchingOnly | crates/hof-core/src/db/activity.rs:273-305 | an event is listed for a filter if and only if it is in the log and matches |
| Activity.MatchesFilterIff | crates/hof-core/src/db/activity.rs:273-305 | what matching means: the severity is the filter's, and the text stands somewhere in the message, in either case |
| Activity.MergeRuns | crates/hof-tui/src/app.rs:1173-1192 | a refreshed page on top of a contiguous list gives a contiguous list, and which one: the old bottom is kept exactly if the page reaches into the list |
| Activity.AppendContiguousIff | crates/hof-tui/src/app.rs:637-652 | appending a page without the loaded events leaves one newest-first run if and only if the page starts inside the list or right below it, or one of them is empty |
| Activity.RefreshKeepsSelection | crates/hof-tui/src/app.rs:615-659 | a refresh keeps the same event selected while it is loaded, and otherwise only clamps |
| EventLoop.StepKeepsDiscipline | crates/hof-tui/src/run.rs:383-462 | each request, response, failure and key keeps `in_flight` equal to the outstanding keyed fetches, one per resource |
| EventLoop.RunsAreDisciplined | crates/hof-tui/src/run.rs:598-687 | the same over every run |
| EventLoop.LateResponsesChangeNothing | crates/hof-tui/src/app.rs:619-640 | through any run of late responses, failures, polls and answers, the list, its total and the selection stay as they are |
| EventLoop.SearchStaysAsked | crates/hof-tui/src/run.rs:644-659 | after a new search an activity request is outstanding until its first page has arrived, although the refetch may be deduplicated against an older request |
| ClientLoop.KeyIsRun | crates/hof-tui/src/run.rs:513-520 | for every key in every valid state, handling it and dispatching its action is a legal run of at most two steps of the event loop |
| ClientLoop.ResponseIsStep | crates/hof-tui/src/run.rs:598-676 | handling a response, refused first pages included, is one step of the event loop |
| ClientLoop.HappeningIsRun | crates/hof-tui/src/run.rs:506-524 | whatever happens to the client is a run of the event loop and keeps every selection valid |
| ClientLoop.HistoriesAreRuns | crates/hof-tui/src/run.rs:465-557 | every history of keys, responses, failures and polls is a run of the event loop |
| ClientLoop.ClientIsSound | crates/hof-tui/src/run.rs:465-557 | in every history, requests are those of `in_flight`, selections are visible rows, and listed events are logged and match the filter in force |
| ClientLoop.ClientListsAreContiguous | crates/hof-tui/src/app.rs:615-665 | in every history whose trace is calm, the user sees one gap-free run of the matching events, complete when it says so |
| ClientLoop.HappeningKeepsRunIff | crates/hof-tui/src/app.rs:637-652 | one key, response, failure or poll keeps a contiguous list contiguous if and only if it is not a next page that fails to continue it |
| ClientLoop.ClientShowsRunIff | crates/hof-tui/src/app.rs:615-665 | for every history: the list is contiguous in all its states if and only if every appended next page continues the list |
| ClientFetching.RefreshAsksExactly | crates/hof-tui/src/run.rs:383-462 | a refresh asks for the status and the lists of the shown tab that are not on their way, with the filter in force, and for nothing else; afterwards each has exactly one request outstanding |
| ClientFetching.ShownIsAsked | crates/hof-tui/src/run.rs:465-520 | after a poll, F5, a tab key or a change of the status filter every list of the shown tab is outstanding |
| ClientFetching.FetchStaysOutstanding | crates/hof-tui/src/run.rs:598-687 | in every history a fetch stays outstanding, under its key, until its own response or failure |
| ClientFetching.ShownStaysAsked | crates/hof-tui/src/run.rs:465-557 | both together: whatever happens before and after a refresh, each list of the tab shown has a request that stays outstanding until it is answered or fails |
| ClientFetching.ListsAreLastDelivered | crates/hof-tui/src/run.rs:598-676 | in every history each list is the one its last response brought |
| ClientSession.Session.SpawnAll | crates/hof-tui/src/run.rs:383-462 | the guarded fetches in place are the specified requests, which `ClientFetching.RefreshAsksExactly` fixes |
| ClientSession.Session.DispatchAction | crates/hof-tui/src/run.rs:562-594 | dispatching in place is the specified change of requests |
| ClientSession.Session.PressKey | crates/hof-tui/src/run.rs:513-520 | a key handled in place is the loop's run for it, and every selection stays valid |
| ClientSession.Session.HandleResponse | crates/hof-tui/src/run.rs:598-676 | a response handled in place is the loop's delivery, and every selection stays valid |
| ClientSession.Session.HandleError | crates/hof-tui/src/run.rs:598-676 | an error handled in place is the loop's failure; a failed next page can be asked for again |
| ActivityPaging.StepKeepsSound | crates/hof-tui/src/run.rs:562-581 | one step keeps: listed events are logged and match the current filter, the selection is a listed row, and a loading list has a next page for its filter outstanding |
| ActivityPaging.RunsAreSound | crates/hof-tui/src/run.rs:598-687 | the same in every run, in whatever order responses arrive |
| ActivityPaging.ListedEventsMatchFilter | crates/hof-tui/src/app.rs:896-909 | across all filter changes and late responses, every listed event matches the filter now in force |
| ActivityPaging.FirstPageShows | crates/hof-api/src/routes/activity.rs:282-312 | the condition of a calm run, as a client could see it: the newest listed event is on the first page exactly when less than a page is unseen |
| ActivityPaging.RefreshedEvents | crates/hof-tui/src/app.rs:619-635 | the exact list after a delivered refresh, from a page computed at some earlier moment |
| ActivityPaging.AppendedEvents | crates/hof-tui/src/app.rs:637-652 | the exact list after a delivered next page, whose offset counts from the log of the moment it was computed |
| ActivityPaging.RefreshKeepsAligned | crates/hof-tui/src/app.rs:619-635 | a refresh moves the newest end up and leaves the oldest end of a non-empty list where it was |
| ActivityPaging.NextPageKeepsAligned | crates/hof-tui/src/app.rs:637-652 | a next page moves the oldest end down and leaves the newest |
| ActivityPaging.StepKeepsAligned | crates/hof-tui/src/run.rs:598-687 | every calm step keeps the list one run of the log; without a new search its ends only move apart |
| ActivityPaging.CalmRunsStayAligned | crates/hof-tui/src/run.rs:598-687 | the same over every calm run |
| ActivityPaging.CalmListsAreContiguous | crates/hof-tui/src/app.rs:615-665 | in every calm run from the start the list is contiguous, newest first and free of duplicates, and a non-empty list marked as ended shows the oldest matching event |
| ActivityPaging.CalmListsOnlyGrow | crates/hof-tui/src/app.rs:1173-1192 | while the filter stays, no listed event is lost |
| ActivityPaging.CalmSelectionStays | crates/hof-tui/src/app.rs:615-659 | through any calm run in which the user neither moves nor searches, the same event stays selected |
| ActivityPaging.RefreshAlwaysContiguous | crates/hof-tui/src/app.rs:1173-1192 | a refresh keeps any contiguous list contiguous, in any run |
| ActivityPaging.DeliveryKeepsRunIff | crates/hof-tui/src/app.rs:637-652 | the exact condition, on the offset and on what the server had seen, under which a next page keeps the list contiguous |
| ActivityPaging.ContinuesIff | crates/hof-tui/src/app.rs:637-652 | the same condition on what is listed: the page begins with a listed event or with the one after the end |
| ActivityPaging.OtherStepsKeepContiguous | crates/hof-tui/src/run.rs:598-687 | every step but an appended next page keeps any contiguous list contiguous, calm or not |
| ActivityPaging.ContiguousIffPagesContinue | crates/hof-tui/src/app.rs:615-665 | for every run: the list is contiguous in all its states if and only if every appended next page continues it |
| PagingLimits.BurstBreaksOrder | crates/hof-tui/src/app.rs:811-826 | a history of the client, opening the tab and going to its end, whose list is not contiguous, for every log and every burst longer than a page |
| PagingLimits.DetourLeavesGap | crates/hof-tui/src/app.rs:884-910 | a history of the client that types, sends and clears any search and ends with a gap, for any number of new events; just before, a next page is outstanding while the idle list would ask for another |
| PagingLimits.LatePageHidesRest | crates/hof-tui/src/app.rs:637-665 | a calm history, for every log and enough new events: a next page that arrives after a newer first page leaves an incomplete list that says there is no more, and the key to its end asks for nothing |
| ActivityBrowsing.NextPageSets | crates/hof-tui/src/app.rs:637-652 | a delivered next page sets the total to its own, ends the list exactly if it is short, adds exactly its events that are not listed, at the end, and keeps the selected row |
| ActivityBrowsing.FirstPageSets | crates/hof-tui/src/app.rs:619-635 | a delivered first page sets the total to its own and stands on top; it decides the end only of a list that is this page and not loading |
| ActivityBrowsing.FirstPageSelects | crates/hof-tui/src/app.rs:615-659 | the selected event stays selected while it is listed, else the row is kept in range |
| ActivityBrowsing.RefusedPageSets | crates/hof-tui/src/app.rs:619-641 | a page for another filter changes nothing, except that a next page frees the list |
| ActivityBrowsing.CalmListsSayMore | crates/hof-tui/src/app.rs:661-665 | in every calm run without late pages, a list that does not reach the oldest matching event is not marked as ended and is shorter than its total |
| ActivityBrowsing.NextPageSaysMoreIff | crates/hof-tui/src/app.rs:637-665 | exactly when a next page leaves that so: it is complete, or fewer listed events are newer than the page than older ones are missing |
| ActivityBrowsing.SaysMoreIff | crates/hof-tui/src/app.rs:637-665 | for every calm run with exact counts: the list says so in all its states if and only if no appended page is too late |
| ActivityBrowsing.EndKeysAsk | crates/hof-tui/src/app.rs:764-826 | in every such history, on an idle list that does not reach the oldest event both keys to its end ask for the next page |
| ActivityBrowsing.RoundsList | crates/hof-tui/src/app.rs:811-826 | from any idle, unfinished list with an exact total: `k` rounds of going to the end, answer and delivery list exactly the next 50 k events |
| ActivityBrowsing.RoundsListTheLog | crates/hof-tui/src/app.rs:811-826 | from the client's start, every log is listed down to its oldest event in as many rounds as it has pages after the first |
| TuiApp.RowsAreTheKeptOnes | crates/hof-tui/src/app.rs:1159-1166 | the visible rows are exactly the accepted ones, each once, in order |
| TuiApp.WrappedIsRemainder | crates/hof-tui/src/app.rs:555-567 | moving is addition modulo the number of rows, and Up and Down undo each other |
| TuiApp.EditedKeepsValid | crates/hof-tui/src/app.rs:872-881 | a changed query leaves every tab with a valid selection |
| TuiApp.ListsKeepValid | crates/hof-tui/src/app.rs:584-613 | so does every refreshed list, including profiles that change which sources match |
| TuiApp.HandleKeepsValid | crates/hof-tui/src/app.rs:731-790 | every key and every response keeps each selection empty or on a visible row |
| TuiApp.SelectionsAlwaysValid | crates/hof-tui/src/app.rs:502-578 | the same over every sequence of inputs, for every rule of which rows are visible |
| TuiApp.StartsValid | crates/hof-tui/src/app.rs:406-460 | it holds in everything reachable from the initial state |
| TuiApp.ValidRowMatches | crates/hof-tui/src/app.rs:502-540 | under the client's search rules a valid selection is an item that matches the tab's query, sources under the current profiles |
| TuiApp.SelectionsAlwaysMatch | crates/hof-tui/src/app.rs:502-613 | that is so in every reachable state, whichever of data, query and profiles changed last |
| TuiApp.SearchShowsExactly | crates/hof-tui/src/app.rs:502-540 | under the client's search rules each tab shows exactly its matching items, in order |
| TuiApp.DownloadMatchesWords | crates/hof-tui/src/app.rs:502-540 | a download is shown when every word of the search occurs in its title or its source's name, in any case |
| TuiApp.SourceMatchesWords | crates/hof-tui/src/app.rs:502-540 | likewise for sources, their profiles and their state |
| TuiKeys.MotionOnActivity | crates/hof-tui/src/app.rs:731-826 | for every key that moves the selection on the activity tab: the row it leads to, and that it asks for a page exactly when it ends on the last row of an idle list shorter than its total; nothing else changes |
| TuiKeys.MotionElsewhere | crates/hof-tui/src/app.rs:555-567 | on the other tabs: the row by the remainder, and nothing else changes |
| TuiKeys.DownAboveLast | crates/hof-tui/src/app.rs:792-803 | above the last row Down goes one row on, and asks exactly if that row is the last of an idle list with more to come |
| TuiKeys.DownOnLast | crates/hof-tui/src/app.rs:792-803 | on the last row it stays while there is more, and otherwise goes around |
| TuiKeys.UpOnActivity | crates/hof-tui/src/app.rs:805-826 | Up goes one row back and asks only when it goes around to the last row |
| TuiKeys.TabKeys | crates/hof-tui/src/app.rs:61-80 | a tab key shows the next or the previous tab and refreshes |
| TuiKeys.DigitKeys | crates/hof-tui/src/app.rs:912-919 | a digit shows its tab, and refreshes if that is another one |
| TuiKeys.OtherKeys | crates/hof-tui/src/app.rs:739-790 | what the remaining keys do; no other key changes the state, refreshes or asks for a page |
| TuiKeys.EditingKeys | crates/hof-tui/src/app.rs:835-881 | typing, Backspace and Ctrl-U change the shown tab's query and select its first match, except on the activity tab |
| TuiKeys.EnterKey | crates/hof-tui/src/app.rs:835-910 | Enter closes the prompt and, on the activity tab, sends a changed filter |
| TuiKeys.EscapeKey | crates/hof-tui/src/app.rs:883-910 | Esc clears the query and a filter in force |
| TuiKeys.DownloadsDelivered | crates/hof-tui/src/app.rs:570-592 | a delivered list replaces the old one, and the row is kept in range |
| TuiKeys.SourcesDelivered | crates/hof-tui/src/app.rs:594-598 | likewise |
| TuiKeys.ProfilesDelivered | crates/hof-tui/src/app.rs:606-613 | likewise, for two selections |
| TuiKeys.SettingsDelivered | crates/hof-tui/src/app.rs:600-604 | likewise |
| TuiApp.App.SetDownloads | crates/hof-tui/src/app.rs:584-592 | the object's new state is that of the specified step, and the selection invariant is kept |
| TuiApp.App.SetSources | crates/hof-tui/src/app.rs:594-598 | likewise |
| TuiApp.App.SetSettings | crates/hof-tui/src/app.rs:600-604 | likewise |
| TuiApp.App.SetProfiles | crates/hof-tui/src/app.rs:606-613 | likewise; two selections are clamped |
| TuiApp.App.SetActivityPage | crates/hof-tui/src/app.rs:619-635 | merging, paging state and reselection in place are the specified view, and nothing else changes; the result says whether the filter was current |
| TuiApp.App.AppendActivityPage | crates/hof-tui/src/app.rs:637-652 | appending in place is the specified view, which `ActivityBrowsing.NextPageSets` fixes, and nothing else changes |
| TuiApp.App.SelectWrapping | crates/hof-tui/src/app.rs:555-567 | moves only the shown tab's selection |
| TuiApp.App.LoadMoreAtBottom | crates/hof-tui/src/app.rs:813-826 | the specified request in place; `TuiKeys.MotionOnActivity` fixes when a page is asked for |
| TuiApp.App.MoveDown | crates/hof-tui/src/app.rs:792-803 | the specified move in place; `TuiKeys.DownAboveLast` and `DownOnLast` fix the row and the request |
| TuiApp.App.MoveUp | crates/hof-tui/src/app.rs:805-809 | the specified move in place; `TuiKeys.UpOnActivity` fixes the row and the request |
| TuiApp.App.EditQuery | crates/hof-tui/src/app.rs:872-881 | the specified edit in place; `TuiKeys.EditingKeys` fixes the query and the selected match |
| TuiApp.App.ClearSearch | crates/hof-tui/src/app.rs:884-892 | clears a query, and an activity filter that is still in force without one |
| TuiApp.App.ApplyActivitySearch | crates/hof-tui/src/app.rs:896-910 | a changed filter drops the loaded pages and refreshes; the same filter does nothing |
| TuiApp.App.HandleSearchKey | crates/hof-tui/src/app.rs:835-869 | the prompt's keys are the specified step |
| TuiApp.App.HandleNormalKey | crates/hof-tui/src/app.rs:739-790 | the other keys are the specified step |
| TuiApp.App.HandleKey | crates/hof-tui/src/app.rs:731-739 | a key goes to the prompt while it is open; the invariant holds after every key |
| Search.ParseFilter | crates/hof-tui/src/search.rs:47-60 | the one-pass loop finds the first severity word and keeps the other terms |
| Search.FilterKeepsTerms | crates/hof-tui/src/search.rs:47-60 | every term but the first severity word stays in the message search, in order, later severity words included |
| Search.ParseDescribe | crates/hof-tui/src/search.rs:47-70 | parsing a described filter gives the filter back, for every query |
| Search.LabelNamesItself | crates/hof-tui/src/types.rs:159-166 | each severity's label is one word that names that severity |
| Search.SeverityWords | crates/hof-tui/src/search.rs:77-86 | exactly which words name a severity |
| RuntimeConfig.DeadlineIsFirstFlip | crates/hof-core/src/runtime_config.rs:86-107 | no pause verdict changes before the deadline, one module resumes at it, and without a deadline none changes before the sentinel |
| RuntimeConfig.DeadlineIsFirstFlipIff | crates/hof-core/src/runtime_config.rs:96-107 | exactly which rows make the deadline the first change without any bound |
| RuntimeConfig.SleepDurationUntil | crates/hof-core/src/runtime_config.rs:193-198 | sleeping ends at the deadline, or at once when it has passed |
| RuntimeConfig.ResolveLayers | crates/hof-core/src/runtime_config.rs:145-190 | every knob is its own non-negative column, else its own variable, else its default, with that provenance; the pauses are the row's |
| SettingsListener.StepKeepsInv | crates/hof-core/src/runtime_config.rs:230-294 | each version is read or its announcement waits, unless one has gone unread, which is remembered until the row is read; published versions never go back |
| SettingsListener.RunsKeepInv | crates/hof-core/src/runtime_config.rs:242-294 | the same over every run |
| SettingsListener.SettledIsCurrentIff | crates/hof-core/src/runtime_config.rs:230-294 | in every run, silent reconnects and failed reloads included, an idle listener has published the current version if and only if no announcement of an unread version has gone since it last read the row |
| SettingsListener.NoticedBreaksLoseNothing | crates/hof-core/src/runtime_config.rs:242-294 | when `recv` reports every break and reloads succeed, an idle listener has published the current row, through any patches, breaks and reconnects |
| SettingsListener.SilentReconnectLosesPatch | crates/hof-core/src/runtime_config.rs:269-280 | a run without a failed reload whose idle listener is out of date |
| SettingsListener.FailedReloadStaysStale | crates/hof-core/src/runtime_config.rs:230-240 | after a failed reload an idle listener can be behind the row, and is whenever the patch changed what is resolved |
| SettingsListener.ListenerStops | crates/hof-core/src/runtime_config.rs:242-294 | left alone the listener takes at most a stated number of steps, whichever way it reconnects, and can stop only when idle and connected |
| SettingsListener.ListenerConverges | crates/hof-core/src/runtime_config.rs:242-294 | once at rest it has published the current row if it has read the row on the way |
| SettingsListener.WakingReloads | crates/hof-core/src/runtime_config.rs:242-294 | an announcement, a lapsed pause and a new session each lead to one read, whose row is published |
| SettingsListener.TimersCoverEveryLapse | crates/hof-core/src/runtime_config.rs:262-290 | while the timer is not due no verdict has changed, and a timer is re-armed strictly later |
| SettingsApi.ValidPatchesTakeEffect | crates/hof-api/src/routes/settings.rs:301-360 | a validated patch satisfies the table's checks, and each knob resolves to the new value, after a reset to the environment's value or else the default, or to what it was |
| SettingsApi.KnobTakesEffect | crates/hof-core/src/runtime_config.rs:149-180 | the same for one knob |
| SettingsApi.RejectedFor | crates/hof-api/src/routes/settings.rs:301-330 | exactly which values of a field are refused, and for which reason |
| SettingsApi.FirstBadFieldIsReported | crates/hof-api/src/routes/settings.rs:334-360 | a patch is refused exactly for a bad field, and for the first one in order |
| SettingsApi.PauseTakesEffect | crates/hof-api/src/routes/settings.rs:582-720 | a pause holds exactly the modules it names until its expiry, a resume lets them go; nothing else changes |
| SettingsApi.PausesAreReportedAsRequested | crates/hof-api/src/routes/settings.rs:94-112 | through the database's microseconds a pause is reported indefinite exactly if no duration was given, and a finite one with its own end |
| SettingsApi.PauseAcceptedIff | crates/hof-api/src/routes/settings.rs:414-437 | exactly the non-zero durations that end before the sentinel are accepted |
| SettingsApi.PauseRefusedFor | crates/hof-api/src/routes/settings.rs:414-437 | the reason for which each other duration is refused |
| SettingsApi.PauseIsReported | crates/hof-api/src/routes/settings.rs:94-112 | what is reported of each row, lapsed pauses included |
| SettingsApi.ReportAgreesWithVerdict | crates/hof-api/src/routes/settings.rs:94-112 | the reported state is the one the workers act on |
| SettingsApi.ApiPausesHaveExactDeadlines | crates/hof-api/src/routes/settings.rs:414-437 | pauses written by the API meet the condition of the exact deadline |
| Knobs.PrintHumanSecs | crates/hof-tui/src/app.rs:272-286 | the printing loop equals the recursive printer of the round trip |
| Knobs.HumanSecsIs | crates/hof-tui/src/app.rs:272-286 | a duration is printed as its days, hours of the day, minutes of the hour and seconds, without zero parts |
| Knobs.ParseKnob | crates/hof-tui/src/app.rs:172-215 | the parser equals its specification, errors and their order included |
| Knobs.AddAll | crates/hof-tui/src/app.rs:184-205 | the checked running total equals its specification |
| Knobs.ParseIsExact | crates/hof-tui/src/app.rs:172-215 | exactly the inputs whose parts are numbers with an in-range sum are accepted, with that sum in unbounded arithmetic |
| Knobs.PartMeans | crates/hof-tui/src/app.rs:184-203 | a part is a number in one of four units, or a number of seconds |
| Knobs.ParseCountIsExact | crates/hof-tui/src/app.rs:172-215 | a count is one number within bounds |
| Knobs.InvalidMeans | crates/hof-tui/src/app.rs:172-215 | exactly which inputs are invalid: a part that is no number makes one unless the total has overflowed before it |
| Knobs.TooSmallMeans | crates/hof-tui/src/app.rs:172-215 | exactly which durations are too small |
| Knobs.ParseFormat | crates/hof-tui/src/app.rs:157-215 | every value a knob can have parses back from its printed form |
| Knobs.EditorAndServerAgree | crates/hof-tui/src/app.rs:138-143 | the editor's bounds are the server's, both ways |
| Knobs.AcceptedInputTakesEffect | crates/hof-api/src/routes/settings.rs:334-360 | an accepted input becomes the resolved value of that knob, from the database, changes no other setting, and prints and parses to itself |
| Sse.SseParser.Feed | crates/hof-tui/src/sse.rs:27-46 | one line updates the held data lines and completes a payload as specified |
| Sse.Drain | crates/hof-tui/src/client.rs:376-393 | the inner loop feeds every terminated line in order and leaves what follows the last newline |
| Sse.Consume | crates/hof-tui/src/client.rs:370-396 | the payloads are those of the concatenated chunks, however they were cut |
| Sse.LinesAppend | crates/hof-tui/src/client.rs:376-384 | the lines of a stream are those of any prefix followed by those of its remainder and the rest |
| Sse.IgnoredLinesChangeNothing | crates/hof-tui/src/sse.rs:27-46 | a comment or other field at any line boundary changes no payload |
| Sse.FeedAllIsEvents | crates/hof-tui/src/sse.rs:27-46 | the payloads of a list of lines are its events: per blank line the data fields since the last one, if there are any |
| Sse.DecodedIsEvents | crates/hof-tui/src/client.rs:370-396 | the same for a stream of bytes |
| Sse.DecodePrint | crates/hof-tui/src/sse.rs:27-46 | printed frames decode to their payloads without the carriage returns that end their lines |
| Sse.DecodePrintIff | crates/hof-tui/src/sse.rs:27-46 | decoding inverts printing if and only if no payload line ends in a carriage return |
| ZeroRun.ScanForZeroRuns | crates/hof-core/src/verify.rs:272-319 | it gives up if and only if a read failed; otherwise it is clean if and only if no window of zeros exists, and a hit is the first window with exactly the threshold as length, for every way of reading |
| ZeroRun.ScanFile | crates/hof-core/src/verify.rs:272-319 | the same with the program's threshold and buffer |
| ZeroRun.ScanChunk | crates/hof-core/src/verify.rs:288-317 | one read carries the run and its start across the chunk boundary |
| ZeroRun.FirstWindowIsUnique | crates/hof-core/src/verify.rs:272-319 | two reports about one file name the same offset |
| Watchdog.ExitsAreJustified | crates/hof-core/src/watchdog.rs:195-213 | a process decides to exit if and only if an actor is unrecoverable, the minimum uptime has passed, and a readable budget has room |
| Watchdog.EvaluateIff | crates/hof-core/src/watchdog.rs:195-213 | the decision for each uptime and budget |
| Watchdog.NextProcessBoots | crates/hof-core/src/watchdog.rs:318-371 | however a process ends, the next one can boot and finds the records as they were |
| Watchdog.PollsAreApart | crates/hof-core/src/watchdog.rs:223-291 | half a minute lies before each poll |
| Watchdog.StepKeepsInv | crates/hof-core/src/watchdog.rs:223-291 | the spacing of records and decisions through polls, writes, drains, kills and boots |
| Watchdog.RunsKeepInv | crates/hof-core/src/watchdog.rs:223-291 | the same over every run of successive processes |
| Watchdog.RecordedRestartsAreBounded | crates/hof-core/src/watchdog.rs:298-312 | any four recorded restarts span more than an hour, even if other writes failed |
| Watchdog.DecisionsPerHour | crates/hof-core/src/watchdog.rs:298-361 | with every event written, no hour holds more than three decisions |
| Watchdog.ExitsPerHour | crates/hof-core/src/watchdog.rs:318-371 | the bound on the moments the processes are gone: an hour minus the first one's drain |
| Watchdog.DecisionsPerHourWithoutLog | crates/hof-core/src/watchdog.rs:195-213 | without any successful write, decisions are still a minimum uptime apart |
| Watchdog.FourExitsWithinAnHour | crates/hof-core/src/watchdog.rs:318-371 | for every drain up to a minute a run with every event written whose fourth exit comes an hour minus the drain plus a millisecond after its first: the bound above is tight |
| Drain.TokenIsStable | crates/hof-core/src/runtime_config.rs:361-400 | start, deadline and completion never change once set, through any calls |
| Drain.FirstBeginWins | crates/hof-core/src/runtime_config.rs:361-378 | for any sequence of calls the drain is the one of the first `begin` |
| Drain.WatchdogCapIff | crates/hof-core/src/watchdog.rs:355-361 | the watchdog's minute caps its drain exactly if none was in progress or that one ends by then |
| Drain.DrainToken.Begin | crates/hof-core/src/runtime_config.rs:361-378 | the token's state is that of the step above; an unrepresentable deadline falls on the start |
| Drain.DrainToken.SignalComplete | crates/hof-core/src/runtime_config.rs:398-400 | completion is set and nothing else |
| Drain.PollUntilQuiescent | crates/hof-core/src/startup.rs:660-683 | completion is signalled at the first probe without work or once the deadline has passed, within a number of polls bounded by the time left |
| Drain.WatchDrain | crates/hof-core/src/startup.rs:735-765 | the same against the frozen deadline of the token |
| Drain.QuiescentIff | crates/hof-core/src/startup.rs:631-635 | a drain waits as long as there is any work at all |
| Drain.DrainIsReported | crates/hof-api/src/routes/settings.rs:125-141 | the reported start and deadline are the token's |
| Drain.CountdownIsMonotone | crates/hof-api/src/routes/settings.rs:125-141 | the reported countdown never grows, reaches zero within the last second, and ignores later calls |
| QualityGate.WaitsEndInTime | crates/hof-core/src/quality_gate.rs:119-136 | a wait ends after now and by the deadline, also when the date arithmetic saturates |
| QualityGate.DownloadIsMonotone | crates/hof-core/src/quality_gate.rs:119-136 | better formats and a later time never turn a download into a wait |
| QualityGate.WaitsAdvance | crates/hof-core/src/quality_gate.rs:119-136 | successive waits are an interval apart, whatever is seen |
| QualityGate.WaitsAreBounded | crates/hof-core/src/quality_gate.rs:119-136 | at most one wait per six hours left, rounded up, then a download |
| QualityGate.GateBoundsTheWait | crates/hof-core/src/quality_gate.rs:91-117 | a video's whole wait stays within its hours |
| QualityGate.GateAppliesIff | crates/hof-core/src/quality_gate.rs:41-114 | exactly which profiles and defaults switch the gate on |
| QualityGate.GateDecides | crates/hof-core/src/quality_gate.rs:41-136 | the whole decision for each quality with a height: when a video is held, until when, and what lets it through |
| OutputPath.Render | crates/hof-core/src/ytdlp.rs:1146-1261 | the rendering is the specified path, which `OutputTemplates` fixes for joined names, placeholders and a directory per source |
| OutputPath.Finish | crates/hof-core/src/ytdlp.rs:1228-1254 | the in-place work on the last segment, whose loop ends, is the specified one |
| OutputPath.PathIsSafe | crates/hof-core/src/ytdlp.rs:1208-1261 | for every template, title, id and source name: at least one component, none empty, `.`, `..` or with a reserved or control character; with a forced extension the last ends in it exactly once |
| OutputPath.WithExtensionIsSafe | crates/hof-core/src/ytdlp.rs:1232-1247 | the same for the forced extension alone |
| OutputPath.UndoubleEnds | crates/hof-core/src/ytdlp.rs:1241-1247 | trimming duplicates keeps one extension and cuts nothing else |
| OutputPath.SanitizeTight | crates/hof-core/src/ytdlp.rs:1359-1370 | sanitizing a trimmed segment never makes it empty or a dot component, and leaves clean text alone |
| OutputPath.DocumentedTemplateSubstitutes | crates/hof-core/src/ytdlp.rs:1173-1198 | what `{title}-{id}.{ext}` renders to for all names, placeholders inside the title and the id included |
| OutputPath.DocumentedTemplateRenders | crates/hof-core/src/ytdlp.rs:1173-1261 | for every title, and every id and year without `{` and `%`: the path is the one component `title-id.ext` if and only if no placeholder occurs in the title and the id does not end in the extension itself |
| OutputPath.PlainNamesRender | crates/hof-core/src/ytdlp.rs:1173-1261 | for any names in which no placeholder occurs: the same, if and only if the id does not end in the extension |
| OutputPath.SubstituteTakesMarks | crates/hof-core/src/ytdlp.rs:1173-1198 | substituting placeholders changes a text exactly when one of them occurs in it, if none can begin in a value |
| OutputPath.PlaceholderTitleIsReplaced | crates/hof-core/src/ytdlp.rs:1173-1198 | a title for which the template does not give what it reads as |
| OutputPath.PlaceholderIdHidesPlaceholder | crates/hof-core/src/ytdlp.rs:1173-1198 | an id that is a placeholder itself, for which the path reads as documented although the title's was replaced |
| OutputTemplates.JoinedTemplateRenders | crates/hof-core/src/ytdlp.rs:1208-1260 | a template of names without placeholders is kept name by name; only the last gets the extension or loses trailing dots |
| OutputTemplates.BySourceRenders | crates/hof-core/src/ytdlp.rs:1173-1260 | for all names without placeholders, a directory per source gives exactly the source and `title.ext` if and only if the source can be a directory and the title does not end in the extension |
| OutputTemplates.PlaceholdersRender | crates/hof-core/src/ytdlp.rs:1173-1198 | what each placeholder in double braces stands for |
| OutputTemplates.ShortPlaceholdersRender | crates/hof-core/src/ytdlp.rs:1173-1198 | what each short placeholder stands for |
| OutputTemplates.NothingNamedFallsBack | crates/hof-core/src/ytdlp.rs:1200-1225 | a template that names nothing falls back to the title and the id |
| OutputTemplates.BlankFallsBack | crates/hof-core/src/ytdlp.rs:1200-1225 | so does a blank one |
| OutputTemplates.PathIsFree | crates/hof-core/src/ytdlp.rs:1146-1261 | no component holds a separator, a reserved or a control character, or is a dot component |
| OutputTemplates.SanitizeMeans | crates/hof-core/src/ytdlp.rs:1359-1370 | sanitizing replaces exactly the forbidden characters and then cuts the white space at both ends |
| OutputTemplates.WithExtensionMeans | crates/hof-core/src/ytdlp.rs:1232-1247 | the extension is added exactly when it is missing |
| ChannelUrl.NormalizeOnlyInserts | crates/hof-core/src/ytdlp.rs:839-878 | the only change is `/videos` in place of the base's trailing slashes; query and fragment stay |
| ChannelUrl.NormalizeIsIdempotent | crates/hof-core/src/ytdlp.rs:839-878 | normalizing twice is normalizing once, for every string |
| ChannelUrl.NormalizedIsNeverBare | crates/hof-core/src/ytdlp.rs:839-878 | no result is a URL that would still be rewritten |
| ChannelUrl.HandlesAreRewritten | crates/hof-core/src/ytdlp.rs:839-878 | the address of a handle gets its tab, before any query or fragment |
| ChannelUrl.NamedChannelsAreRewritten | crates/hof-core/src/ytdlp.rs:839-878 | so does that of a named channel |
| ChannelUrl.TabsAreLeftAlone | crates/hof-core/src/ytdlp.rs:839-878 | an address with a tab stays as it is |
| ChannelUrl.PagesAreLeftAlone | crates/hof-core/src/ytdlp.rs:839-878 | so does any other page of the site |
| ChannelUrl.OthersAreLeftAlone | crates/hof-core/src/ytdlp.rs:839-878 | so do other sites, playlists, single videos and short links |
| XmlEscape.EscapeIsOnePass | crates/hof-core/src/jellyfin.rs:143-149 | five sequential replacements are one pass over the characters |
| XmlEscape.DecodeEscape | crates/hof-core/src/jellyfin.rs:143-149 | reading the predefined entities recovers the text |
| XmlEscape.EscapeIsInjective | crates/hof-core/src/jellyfin.rs:143-149 | different texts never give the same markup |
| XmlEscape.EscapedIsSafe | crates/hof-core/src/jellyfin.rs:143-149 | no bare `<`, `>` or quote, and every `&` starts a predefined entity |
| BulkAction.BulkDownloadAction | crates/hof-api/src/routes/downloads.rs:1445-1539 | each well-formed id is reported in one place, decided by its status at the start; only rows that allow the action change; a success has the action's status; a failed delete leaves its row and a failed retry leaves it or its reset status |
| BulkAction.ParseIds | crates/hof-api/src/routes/downloads.rs:1466-1475 | malformed ids are reported as they came, the others kept in order |
| BulkAction.ApplyToAll | crates/hof-api/src/routes/downloads.rs:1498-1520 | the loop partitions the loaded videos and touches no ineligible row |
| BulkAction.ChosenPartition | crates/hof-api/src/routes/downloads.rs:304-318 | allowed and not allowed together are each loaded video once |
| BulkAction.ReportIsFaithful | crates/hof-api/src/routes/downloads.rs:1476-1535 | the four lists conserve the request |
| BulkAction.ReportMeans | crates/hof-api/src/routes/downloads.rs:1466-1535 | text by text, where each one sent is reported |
| BulkAction.OnlyRequestedIsReported | crates/hof-api/src/routes/downloads.rs:1466-1535 | nothing is reported that was not requested |
| BulkAction.OneActionPerStatus | crates/hof-api/src/routes/downloads.rs:304-318 | the table of statuses and actions |
| BulkAction.Store.ListVideosByIds | crates/hof-core/src/db/video.rs:745-769 | each existing requested video once, duplicates in the request or not |
| BulkAction.Store.RetryOne | crates/hof-api/src/routes/downloads.rs:1542-1577 | the status reset comes first and survives a later failure |
| BulkAction.Store.DeleteOne | crates/hof-api/src/routes/downloads.rs:1580-1594 | the row is marked only on success |

## Left out

- ActivityPaging.CalmListsAreContiguous: speaks of calm runs, because in other runs the list need not be contiguous; `ContiguousIffPagesContinue` is the condition for every run. An empty list marked as ended says nothing about events logged since.
- ActivityBrowsing.CalmListsSayMore: speaks of runs without late pages, because `LatePageHidesRest` shows it false otherwise; `SaysMoreIff` is the condition for every calm run with exact counts.
- ActivityBrowsing.RoundsListTheLog: the server logs nothing between the rounds; with new events the calm-run results apply.
- OutputTemplates.BySourceRenders: asks for names without placeholders, because names that hold one are substituted again, as `PlaceholderTitleIsReplaced` shows for the other template.
- OutputPath.DocumentedTemplateRenders: asks for an id without `{` and `%`, because `PlaceholderIdHidesPlaceholder` shows it false otherwise; the year is a parameter without separators, as the program's is.
- SettingsListener.SettledIsCurrentIff: that `recv` may reconnect without a report is taken from the connection library's documentation; the library is not part of this model beyond that.
- Activity.MatchingAppends: the log only grows. The retention delete of old events (`cleanup_old_activity_events`), and events that commit out of the order of their timestamps, are not modelled.
- Watchdog.DecisionsPerHour: assumes that every event was written, because a failed write is only logged; `DecisionsPerHourWithoutLog` needs no such assumption. Clean-up of old events and the process's uptime clock are taken as the one clock of the model.
- Search.ParseDescribe: case folding is ASCII, because the severity words are; a non-ASCII letter that lower-cases to one of theirs is not recognised in the model.
- Activity.MatchingOnly: SQL pattern wildcards in a search text, and events with equal timestamps, are not modelled; the log is a total order.
- OutputPath.PathIsSafe: the container extension is lower-case letters and digits, as all of the program's are; the date strings are parameters.
- Sse.Consume: per-line UTF-8 decoding, JSON parsing of the payloads and the receiver hanging up are not modelled; a character stands for a byte.
- Drain.PollUntilQuiescent: the probe is a parameter and never runs back in time; a probe of an actor that is gone reports no work in the source, which is one of the model's probes.
- BulkAction.BulkDownloadAction: status changes by workers between loading and acting are not modelled, nor is what a cancellation leaves in the row.
- The listener is a step machine over values, and so is the server's side of the event loop: task scheduling inside a step and the channel between tasks are not modelled.
- Popups and row actions of the terminal client, and what the status filter selects; they do not touch lists or selections.
- Poll delays, reconnect back-off and outage messages.
- Choosing formats and falling back between them when a download fails.
- Artwork URLs for channels, and all rendering of pages, tables and progress.
- Media probes, durations and sizes in floating point, and the external tools.
- Handlers, authentication, telemetry, configuration files and message wording.
- Checking of naming templates before they are saved: the checker and the renderer disagree about spaces, so a checked template need not render every placeholder.
