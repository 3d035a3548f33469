/** The event loop's own state and its handlers, which update it and the application in place (`run.rs`). */
module ClientSession {
  import opened Outcomes
  import opened Activity
  import opened TuiApp
  import opened EventLoop
  import opened ClientLoop

  class Session {
    const app: App
    var inFlight: set<Resource>
    var flights: map<nat, Flight>
    var nextId: nat
    ghost var log: seq<Event>     // the server's

    ghost function Value(): Client
      reads this, app
    {
      Client(app.Value(), log, inFlight, flights, nextId)
    }

    constructor (rules: RowRules)
      ensures Value() == Begun(rules) && Value().app.Valid() && fresh(app)
    {
      app := new App(rules);
      inFlight, flights, nextId, log := {}, map[], 0, [];
    }

    /** One guarded fetch. */
    method SpawnFetch(key: Resource)
      modifies this`inFlight, this`flights, this`nextId
      ensures Value() == Requesting(old(Value()), Spawn(Loop(old(Value())), key))
    {
      if key !in inFlight {
        inFlight := inFlight + {key};
        flights, nextId := flights[nextId := Asked(Fetch(key, app.activityFilter))], nextId + 1;
      }
    }

    method SpawnAll()
      modifies this`inFlight, this`flights, this`nextId
      ensures Value() == Requesting(old(Value()), SpawnRefresh(Loop(old(Value()))))
    {
      SpawnFetch(StatusKey);
      match app.tab {
        case Downloads => SpawnFetch(DownloadsKey);
        case Sources =>
          SpawnFetch(SourcesKey);
          SpawnFetch(ProfilesKey);
        case Profiles => SpawnFetch(ProfilesKey);
        case Settings => SpawnFetch(SettingsKey);
        case ActivityLog => SpawnFetch(ActivityKey);
      }
    }

    method DispatchAction(action: Action)
      modifies this`inFlight, this`flights, this`nextId
      ensures Value() == Dispatched(old(Value()), Some(action))
    {
      if action == Refresh {
        SpawnAll();
      } else if action == LoadMoreActivity {
        flights := flights[nextId := Asked(NextPage(app.activityFilter, |app.activity|))];
        nextId := nextId + 1;
      }
    }

    /** A key press is what the loop's steps for it say. */
    method PressKey(key: Key)
      requires Value().app.Valid()
      modifies this`inFlight, this`flights, this`nextId, app
      ensures Value() == AfterKey(old(Value()), key) && Value().app.Valid()
      ensures var steps := KeySteps(old(Value()).app, key);
              Legal(Loop(old(Value())), steps) && Loop(Value()) == Run(Loop(old(Value())), steps)
    {
      KeyIsRun(Value(), key);
      var action := app.HandleKey(key);
      if action.Some? {
        DispatchAction(action.value);
      }
    }

    /** The key of a landed request is free again. */
    method Release(id: nat) returns (fl: Flight)
      requires id in flights
      modifies this`inFlight, this`flights
      ensures fl == old(flights)[id] && Value() == Requesting(old(Value()), Land(Loop(old(Value())), id))
    {
      fl := flights[id];
      flights := flights - {id};
      if fl.req.Fetch? {
        inFlight := inFlight - {fl.req.key};
      }
    }

    method UpdateApp(fl: Flight, lists: Lists) returns (refused: bool)
      requires app.Value().Valid() && (IsActivity(fl.req) ==> fl.Answered?)
      modifies app
      ensures app.Value() == Updated(old(app.Value()), fl, lists) && refused == Refused(old(app.Value()), fl)
    {
      refused := false;
      match fl.req {
        case NextPage(filter, _) => app.AppendActivityPage(filter, fl.page);
        case Fetch(key, filter) =>
          match key {
            case StatusKey =>
            case DownloadsKey => app.SetDownloads(lists.downloads);
            case SourcesKey => app.SetSources(lists.sources);
            case ProfilesKey => app.SetProfiles(lists.profiles);
            case SettingsKey => app.SetSettings(lists.settings);
            case ActivityKey =>
              var current := app.SetActivityPage(filter, fl.page);
              refused := !current;
          }
      }
    }

    method HandleResponse(id: nat, lists: Lists)
      requires Value().app.Valid() && Enabled(Loop(Value()), Deliver(id))
      modifies this`inFlight, this`flights, this`nextId, app
      ensures Value() == AfterResponse(old(Value()), id, lists) && Value().app.Valid()
      ensures Loop(Value()) == Apply(Loop(old(Value())), Deliver(id))
    {
      ResponseIsStep(Value(), id, lists);
      var fl := Release(id);
      var refused := UpdateApp(fl, lists);
      // The refetch for a changed search was deduplicated against this request.
      if refused {
        SpawnAll();
      }
    }

    method HandleError(id: nat)
      requires Value().app.Valid() && id in flights
      modifies this`inFlight, this`flights, app
      ensures Value() == AfterError(old(Value()), id) && Value().app.Valid()
      ensures Loop(Value()) == Apply(Loop(old(Value())), Fail(id))
    {
      HappeningIsRun(Value(), RequestFailed(id));
      RunsOne(Loop(Value()), Fail(id));
      var fl := Release(id);
      if fl.req.NextPage? {
        app.FailPaging();
      }
    }
  }
}
