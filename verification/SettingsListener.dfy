/**
 Propagation of the settings row to the published settings (`spawn_listener`,
 `reload`): a lossy NOTIFY, reconnects, and timers for lapsing pauses.

 A broken session is noticed in one of two ways. `recv` can report it, and the
 listener connects again and reloads. Or the connection library opens a new
 session inside `recv` and goes on waiting, and the listener never knows.
 */
module SettingsListener {
  import opened RuntimeConfig

  /** Where the listener task is. `Reading` holds which version of the row its query returned. */
  datatype Phase =
    | Down                      // not connected, or between two attempts
    | Resync                    // a reload is due
    | Reading(version: nat)     // the row was read and is about to be published
    | Waiting(armed: int)       // in the inner loop, deadline computed at `armed`

  datatype State = State(
    env: EnvOverrides,
    rows: seq<SettingsRow>,     // every version of the row, the current one last
    published: EffectiveSettings,
    version: nat,               // the version that was published
    phase: Phase,
    live: bool,                 // the LISTEN session still exists on the server
    queue: seq<nat>,            // versions announced to the session and not received
    reloadFailed: bool,         // the last reload could not read the row
    missed: bool,               // an unread version's announcement is gone, and the row not read since
    now: int)

  datatype Step =
    | Patch(row: SettingsRow)
    | Listen
    | ReadRow
    | ReadFails
    | Publish
    | Notified
    | Lapsed
    | Break(kept: nat)          // the session dies; `kept` announcements had reached the client
    | NoticeBreak               // `recv` reports it
    | Relisten                  // `recv` opens a new session by itself
    | Tick(t: int)

  function Current(s: State): EffectiveSettings
    requires s.rows != []
  {
    Resolve(s.rows[|s.rows| - 1], s.env)
  }

  /** The version last read; it is published before anything else is done. */
  function LastRead(s: State): nat {
    if s.phase.Reading? then s.phase.version else s.version
  }

  /** The state `RuntimeConfig::new` and `spawn_listener` start in. */
  function Start(env: EnvOverrides, row: SettingsRow, now: int): State {
    State(env, [row], Resolve(row, env), 0, Down, false, [], false, false, now)
  }

  predicate Enabled(s: State, step: Step) {
    match step
    case Patch(_) => true
    case Listen => s.phase.Down?
    case ReadRow => s.phase.Resync? && s.rows != []
    case ReadFails => s.phase.Resync?
    case Publish => s.phase.Reading? && s.phase.version < |s.rows|
    case Notified => s.phase.Waiting? && s.queue != []
    case Lapsed =>
      s.phase.Waiting?
      && var deadline := NextPauseDeadline(s.published, s.phase.armed);
         deadline.Some? && SleepDurationUntil(deadline.value, s.now) == 0
    case Break(kept) => s.live && kept <= |s.queue|
    case NoticeBreak => s.phase.Waiting? && !s.live && s.queue == []
    case Relisten => s.phase.Waiting? && !s.live && s.queue == []
    case Tick(t) => t >= s.now
  }

  function Apply(s: State, step: Step): State
    requires Enabled(s, step)
  {
    match step
    case Patch(row) =>
      s.(rows := s.rows + [row], queue := if s.live then s.queue + [|s.rows|] else s.queue,
         missed := s.missed || !s.live)
    case Listen => s.(phase := Resync, live := true, queue := [])
    case ReadRow => s.(phase := Reading(|s.rows| - 1), missed := false)
    case ReadFails => s.(phase := Waiting(s.now), reloadFailed := true)
    case Publish =>
      s.(published := Resolve(s.rows[s.phase.version], s.env), version := s.phase.version,
         phase := Waiting(s.now), reloadFailed := false)
    case Notified => s.(phase := Resync, queue := s.queue[1..], missed := s.missed || s.queue[0] > LastRead(s))
    case Lapsed => s.(phase := Resync)
    case Break(kept) =>
      s.(live := false, queue := s.queue[..kept],
         missed := s.missed || exists i | kept <= i < |s.queue| :: s.queue[i] > LastRead(s))
    case NoticeBreak => s.(phase := Down)
    case Relisten => s.(live := true)
    case Tick(t) => s.(now := t)
  }

  ghost predicate Legal(s: State, steps: seq<Step>)
    decreases |steps|
  {
    steps == [] || (Enabled(s, steps[0]) && Legal(Apply(s, steps[0]), steps[1..]))
  }

  ghost function Run(s: State, steps: seq<Step>): State
    requires Legal(s, steps)
    decreases |steps|
  {
    if steps == [] then s else Run(Apply(s, steps[0]), steps[1..])
  }

  // ---------------------------------------------------------------- what every step keeps

  /** Announcements come in the order of the versions. */
  ghost predicate Announced(s: State) {
    && (forall i | 0 <= i < |s.queue| :: s.queue[i] < |s.rows|)
    && (forall i, j | 0 <= i < j < |s.queue| :: s.queue[i] < s.queue[j])
  }

  /** The current row was read, or a notification will still lead to reading it. */
  predicate Covered(s: State) {
    LastRead(s) == |s.rows| - 1 || (s.queue != [] && s.queue[|s.queue| - 1] == |s.rows| - 1)
  }

  ghost predicate Inv(s: State) {
    && s.version < |s.rows|
    && s.published == Resolve(s.rows[s.version], s.env)
    && (s.phase.Reading? ==> s.version <= s.phase.version < |s.rows|)
    && (s.phase.Waiting? ==> s.phase.armed <= s.now)
    && (s.phase.Down? ==> !s.live && s.queue == [])
    && Announced(s)
    && (s.missed ==> LastRead(s) < |s.rows| - 1)
    && (!s.missed ==> Covered(s))
  }

  lemma BreakKeepsInv(s: State, kept: nat)
    requires Inv(s) && Enabled(s, Break(kept))
    ensures Inv(Apply(s, Break(kept)))
  {
    var s' := Apply(s, Break(kept));
    if kept < |s.queue| && s.queue[|s.queue| - 1] > LastRead(s) {
      assert s'.missed;
    }
  }

  lemma PatchKeepsInv(s: State, row: SettingsRow)
    requires Inv(s)
    ensures Inv(Apply(s, Patch(row)))
  {
    var s' := Apply(s, Patch(row));
    assert s'.rows[s.version] == s.rows[s.version];
  }

  lemma NotifiedKeepsInv(s: State)
    requires Inv(s) && Enabled(s, Notified)
    ensures Inv(Apply(s, Notified))
  {}

  /** Reading and publishing. */
  lemma ReloadKeepsInv(s: State, step: Step)
    requires Inv(s) && Enabled(s, step) && (step.ReadRow? || step.ReadFails? || step.Publish?)
    ensures Inv(Apply(s, step)) && s.version <= Apply(s, step).version
  {}

  lemma ConnectionKeepsInv(s: State, step: Step)
    requires Inv(s) && Enabled(s, step) && (step.Listen? || step.NoticeBreak? || step.Relisten?)
    ensures Inv(Apply(s, step))
  {}

  lemma StepKeepsInv(s: State, step: Step)
    requires Inv(s) && Enabled(s, step)
    ensures var s' := Apply(s, step);
            && Inv(s') && s.version <= s'.version && s.env == s'.env
            && s.rows <= s'.rows && s.now <= s'.now
  {
    match step
    case Patch(row) => PatchKeepsInv(s, row);
    case Notified => NotifiedKeepsInv(s);
    case Break(kept) => BreakKeepsInv(s, kept);
    case ReadRow => ReloadKeepsInv(s, step);
    case ReadFails => ReloadKeepsInv(s, step);
    case Publish => ReloadKeepsInv(s, step);
    case Lapsed =>
    case Tick(_) =>
    case _ => ConnectionKeepsInv(s, step);
  }

  /** In every run the published settings are those of some version of the row, and versions never go back. */
  lemma {:induction false} RunsKeepInv(s: State, steps: seq<Step>)
    requires Inv(s) && Legal(s, steps)
    ensures var r := Run(s, steps); Inv(r) && s.version <= r.version && s.env == r.env && s.rows <= r.rows
    decreases |steps|
  {
    if steps != [] {
      StepKeepsInv(s, steps[0]);
      RunsKeepInv(Apply(s, steps[0]), steps[1..]);
    }
  }

  /** Connected, waiting, and with nothing left to receive. */
  predicate Settled(s: State) {
    s.live && s.phase.Waiting? && s.queue == []
  }

  /**
   A settled listener has published the current row if and only if no version's
   announcement has gone since it last read the row: lost with a session, or
   received and followed by a reload that failed. This covers every run, failed
   reloads and silent reconnects included.
   */
  lemma SettledIsCurrentIff(env: EnvOverrides, row: SettingsRow, now: int, steps: seq<Step>)
    requires Legal(Start(env, row, now), steps)
    ensures var s := Run(Start(env, row, now), steps);
            && s.version < |s.rows| && s.published == Resolve(s.rows[s.version], env)
            && (Settled(s) ==> (s.version == |s.rows| - 1 <==> !s.missed))
            && (Settled(s) && !s.missed ==> s.published == Current(s))
  {
    RunsKeepInv(Start(env, row, now), steps);
  }

  // ---------------------------------------------------------------- without silent reconnects

  /** Missed announcements are about to be repaired. */
  ghost predicate Repairs(s: State) {
    s.missed && s.live ==> s.phase.Resync?
  }

  lemma {:induction false} NoisyRunsRepair(s: State, steps: seq<Step>)
    requires Inv(s) && Repairs(s) && !s.reloadFailed && Legal(s, steps)
    requires forall i | 0 <= i < |steps| :: !steps[i].Relisten? && !steps[i].ReadFails?
    ensures Repairs(Run(s, steps)) && !Run(s, steps).reloadFailed
    decreases |steps|
  {
    if steps != [] {
      StepKeepsInv(s, steps[0]);
      NoisyRunsRepair(Apply(s, steps[0]), steps[1..]);
    }
  }

  /**
   When every reload succeeds and every broken session is reported by `recv`, no
   patch is lost: a settled listener has published the current row.
   */
  lemma NoticedBreaksLoseNothing(env: EnvOverrides, row: SettingsRow, now: int, steps: seq<Step>)
    requires Legal(Start(env, row, now), steps)
    requires forall i | 0 <= i < |steps| :: !steps[i].Relisten? && !steps[i].ReadFails?
    ensures var s := Run(Start(env, row, now), steps);
            s.rows != [] && (Settled(s) ==> s.published == Current(s))
  {
    SettledIsCurrentIff(env, row, now, steps);
    NoisyRunsRepair(Start(env, row, now), steps);
  }

  // ---------------------------------------------------------------- runs that end out of date

  ghost predicate Reached(start: State, steps: seq<Step>, s: State) {
    Legal(start, steps) && s == Run(start, steps)
  }

  lemma {:induction false} OneMore(s: State, steps: seq<Step>, step: Step)
    requires Legal(s, steps) && Enabled(Run(s, steps), step)
    ensures Legal(s, steps + [step]) && Run(s, steps + [step]) == Apply(Run(s, steps), step)
    decreases |steps|
  {
    if steps == [] {
      assert [step][1..] == [] && [] + [step] == [step];
      assert Legal(Apply(s, step), []);
    } else {
      assert (steps + [step])[1..] == steps[1..] + [step];
      OneMore(Apply(s, steps[0]), steps[1..], step);
    }
  }

  lemma Go(start: State, steps: seq<Step>, s: State, step: Step) returns (steps': seq<Step>, s': State)
    requires Reached(start, steps, s) && Enabled(s, step)
    ensures steps' == steps + [step] && s' == Apply(s, step) && Reached(start, steps', s')
  {
    OneMore(start, steps, step);
    steps', s' := steps + [step], Apply(s, step);
  }

  /** A first connection and reload. */
  lemma Connected(start: State) returns (steps: seq<Step>, s: State)
    requires Inv(start) && start.phase.Down?
    ensures Reached(start, steps, s) && forall i | 0 <= i < |steps| :: !steps[i].ReadFails?
    ensures Settled(s) && !s.missed && !s.reloadFailed && s.version == |s.rows| - 1
    ensures s.rows == start.rows && s.published == Current(s) && s.env == start.env
  {
    steps, s := Go(start, [], start, Listen);
    steps, s := Go(start, steps, s, ReadRow);
    steps, s := Go(start, steps, s, Publish);
  }

  /**
   A session that breaks and is replaced inside `recv` loses every patch made in
   between, although no reload fails: the listener is settled and out of date.
   */
  lemma SilentReconnectLosesPatch(env: EnvOverrides, old_: SettingsRow, row: SettingsRow, now: int)
    returns (steps: seq<Step>)
    ensures Legal(Start(env, old_, now), steps) && forall i | 0 <= i < |steps| :: !steps[i].ReadFails?
    ensures var s := Run(Start(env, old_, now), steps);
            && Settled(s) && !s.reloadFailed && s.missed && s.rows == [old_, row] && s.published == Resolve(old_, env)
            && (s.published == Current(s) <==> Resolve(old_, env) == Resolve(row, env))
  {
    var start := Start(env, old_, now);
    var s: State;
    steps, s := Connected(start);
    steps, s := Go(start, steps, s, Break(0));
    steps, s := Go(start, steps, s, Patch(row));
    steps, s := Go(start, steps, s, Relisten);
  }

  /**
   A reload that fails is not repeated: after any patch that changes the settings,
   one failed read leaves them out of date until something else causes a reload.
   */
  lemma FailedReloadStaysStale(env: EnvOverrides, old_: SettingsRow, row: SettingsRow, now: int)
    returns (steps: seq<Step>)
    ensures Legal(Start(env, old_, now), steps) && forall i | 0 <= i < |steps| :: !steps[i].Relisten?
    ensures var s := Run(Start(env, old_, now), steps);
            && Settled(s) && s.reloadFailed && s.missed && s.rows == [old_, row] && s.published == Resolve(old_, env)
            && (s.published == Current(s) <==> Resolve(old_, env) == Resolve(row, env))
  {
    var start := Start(env, old_, now);
    var s: State;
    steps, s := Go(start, [], start, Listen);
    steps, s := Go(start, steps, s, ReadRow);
    steps, s := Go(start, steps, s, Publish);
    steps, s := Go(start, steps, s, Patch(row));
    steps, s := Go(start, steps, s, Notified);
    steps, s := Go(start, steps, s, ReadFails);
  }

  // ---------------------------------------------------------------- the listener left alone

  /** The listener's own steps, with reloads that succeed; time and patches stand still. */
  predicate Own(step: Step) {
    step in {Listen, ReadRow, Publish, Notified, NoticeBreak, Relisten}
  }

  /** An upper bound on them. */
  function Distance(s: State): nat {
    match s.phase
    case Down => 3
    case Resync => 2 + 3 * |s.queue| + if s.live then 0 else 4
    case Reading(_) => 1 + 3 * |s.queue| + if s.live then 0 else 4
    case Waiting(_) => 3 * |s.queue| + if s.live then 0 else 4
  }

  /** The listener can always go on until it has settled. */
  lemma SettledIff(s: State)
    requires Inv(s)
    ensures Settled(s) <==> !exists step :: Own(step) && Enabled(s, step)
  {
    if !Settled(s) {
      var step :=
        match s.phase
        case Down => Listen
        case Resync => ReadRow
        case Reading(_) => Publish
        case Waiting(_) => if s.queue != [] then Notified else NoticeBreak;
      assert Own(step) && Enabled(s, step);
    }
  }

  lemma OwnStep(s: State, step: Step)
    requires Inv(s) && Enabled(s, step) && Own(step)
    ensures var s' := Apply(s, step);
            && Inv(s') && s'.rows == s.rows && Distance(s') < Distance(s)
            && (step == ReadRow || LastRead(s) == |s.rows| - 1 ==> LastRead(s') == |s.rows| - 1)
  {
    StepKeepsInv(s, step);
  }

  lemma {:induction false} OwnStepsGetNearer(s: State, steps: seq<Step>)
    requires Inv(s) && Legal(s, steps) && forall i | 0 <= i < |steps| :: Own(steps[i])
    ensures |steps| + Distance(Run(s, steps)) <= Distance(s)
    decreases |steps|
  {
    if steps != [] {
      OwnStep(s, steps[0]);
      OwnStepsGetNearer(Apply(s, steps[0]), steps[1..]);
    }
  }

  /** Left alone, it takes at most `Distance(s)` steps, whatever it does, and can stop only once it has settled. */
  lemma {:induction false} ListenerStops(s: State, steps: seq<Step>)
    requires Inv(s) && Legal(s, steps) && forall i | 0 <= i < |steps| :: Own(steps[i])
    ensures |steps| <= Distance(s)
    ensures Settled(Run(s, steps)) <==> !exists step :: Own(step) && Enabled(Run(s, steps), step)
  {
    OwnStepsGetNearer(s, steps);
    RunsKeepInv(s, steps);
    SettledIff(Run(s, steps));
  }

  lemma {:induction false} OwnStepsStayCurrent(s: State, steps: seq<Step>)
    requires Inv(s) && Legal(s, steps) && forall i | 0 <= i < |steps| :: Own(steps[i])
    ensures var r := Run(s, steps);
            && Inv(r) && r.rows == s.rows
            && (ReadRow in steps || LastRead(s) == |s.rows| - 1 ==> LastRead(r) == |r.rows| - 1)
    decreases |steps|
  {
    if steps != [] {
      OwnStep(s, steps[0]);
      OwnStepsStayCurrent(Apply(s, steps[0]), steps[1..]);
      assert ReadRow in steps ==> steps[0] == ReadRow || ReadRow in steps[1..];
    }
  }

  /** Once it has settled, it has published the current row if it has read the row on the way. */
  lemma {:induction false} ListenerConverges(s: State, steps: seq<Step>)
    requires Inv(s) && Legal(s, steps) && forall i | 0 <= i < |steps| :: Own(steps[i])
    ensures var r := Run(s, steps);
            && |steps| <= Distance(s) && s.rows == r.rows != []
            && (Settled(r) && (ReadRow in steps || LastRead(s) == |s.rows| - 1) ==> r.published == Current(r))
  {
    ListenerStops(s, steps);
    OwnStepsStayCurrent(s, steps);
  }

  // ---------------------------------------------------------------- pause timers

  /**
   Whatever wakes the listener, an announcement, a lapsed pause or a new session,
   the one thing it then does is to read the row; and what it has read it publishes,
   be it news or not.
   */
  lemma WakingReloads(s: State, step: Step, next: Step)
    requires Inv(s) && Enabled(s, step) && (step.Notified? || step.Lapsed? || step.Listen?)
    ensures var s1 := Apply(s, step);
            && (Enabled(s1, next) ==> next.ReadRow? || next.ReadFails? || next.Patch? || next.Break? || next.Tick?)
            && Enabled(s1, ReadRow) && Enabled(Apply(s1, ReadRow), Publish)
            && Apply(Apply(s1, ReadRow), Publish).published == Current(s)
            && Apply(Apply(s1, ReadRow), Publish).phase.Waiting?
  {}

  /**
   While the listener waits and its timer is not due, no pause verdict has
   changed since the timer was armed, so nobody needs to be told; and a timer
   that was due is re-armed strictly in the future.
   */
  lemma TimersCoverEveryLapse(s: State)
    requires Inv(s) && s.phase.Waiting? && s.now < INDEFINITE_PAUSE
    ensures !Enabled(s, Lapsed) ==> SameVerdicts(s.published, s.now, s.phase.armed)
    ensures var again := NextPauseDeadline(s.published, s.now); again.Some? ==> again.value > s.now
  {
    DeadlineIsFirstFlip(s.published, s.phase.armed);
  }
}
