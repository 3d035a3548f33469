/**
 The watchdog's self-exit policy over the successive processes of one container
 (`watchdog.rs`). Times are milliseconds on one clock.
 */
module Watchdog {
  import opened Outcomes

  const POLL_INTERVAL: nat := 30_000
  const MIN_UPTIME_BEFORE_EXIT: nat := 600_000
  const MAX_SELF_EXITS_PER_HOUR: nat := 3
  const HOUR: nat := 3_600_000

  datatype Decision = Fine | StayDegraded | Exit

  function Evaluate(uptime: nat, recentSelfExits: Option<nat>, anyUnrecoverable: bool): Decision {
    if !anyUnrecoverable then Fine
    else if uptime < MIN_UPTIME_BEFORE_EXIT then StayDegraded
    else if recentSelfExits.Some? && recentSelfExits.value < MAX_SELF_EXITS_PER_HOUR then Exit
    else StayDegraded
  }

  /** Only an unrecoverable actor counts; it ends the process after ten minutes and with fewer than three restarts. */
  lemma EvaluateIff(uptime: nat, recentSelfExits: Option<nat>, anyUnrecoverable: bool)
    ensures Evaluate(uptime, recentSelfExits, anyUnrecoverable) == Fine <==> !anyUnrecoverable
    ensures Evaluate(uptime, recentSelfExits, anyUnrecoverable) == Exit
            <==> anyUnrecoverable && uptime >= 600_000 && recentSelfExits in {Some(0), Some(1), Some(2)}
  {}

  /** A `SelfRestart` event: when it was written, and when the exit it records was decided. */
  datatype Restart = Restart(decided: int, at: int)

  datatype Phase =
    | Stopped
    | Running(booted: int, pollAt: int)
    | Exiting(decided: int)               // decided, the event not yet written
    | Draining(decided: int)              // in-flight work is given a little time

  datatype State = State(
    now: int,
    phase: Phase,
    log: seq<Restart>,                    // survives restarts, oldest first
    decisions: seq<int>,                  // when each self-exit was decided, over all processes
    exits: seq<int>,                      // when each of those processes was gone
    lost: bool)                           // some event could not be written

  datatype Step =
    | Tick(t: int)
    | Boot
    | Poll(unrecoverable: bool, readable: bool)
    | SkipPoll                            // the root supervisor did not answer
    | Write(ok: bool)
    | Gone                                // the drain ended, or the process died during it
    | Killed                              // anything else that stops a running process

  /** `count_activity_events_since`. */
  function CountSince(log: seq<Restart>, since: int): nat {
    if log == [] then 0
    else CountSince(log[..|log| - 1], since) + if log[|log| - 1].at >= since then 1 else 0
  }

  function Budget(s: State, unrecoverable: bool, readable: bool): Option<nat> {
    if unrecoverable && readable then Some(CountSince(s.log, s.now - HOUR)) else None
  }

  function Start(now: int): State {
    State(now, Stopped, [], [], [], false)
  }

  predicate Enabled(s: State, step: Step) {
    match step
    case Tick(t) => t >= s.now
    case Boot => s.phase.Stopped?
    case Poll(_, _) => s.phase.Running? && s.now >= s.phase.pollAt && s.now >= s.phase.booted
    case SkipPoll => s.phase.Running? && s.now >= s.phase.pollAt
    case Write(_) => s.phase.Exiting?
    case Gone => s.phase.Draining?
    case Killed => s.phase.Running?
  }

  /** The state after a decision to exit. */
  function Decided(s: State): State {
    s.(phase := Exiting(s.now), decisions := s.decisions + [s.now])
  }

  function Apply(s: State, step: Step): State
    requires Enabled(s, step)
  {
    match step
    case Tick(t) => s.(now := t)
    case Boot => s.(phase := Running(s.now, s.now + POLL_INTERVAL))
    case Poll(unrecoverable, readable) =>
      if Evaluate(s.now - s.phase.booted, Budget(s, unrecoverable, readable), unrecoverable) == Exit
      then Decided(s)
      else s.(phase := s.phase.(pollAt := s.now + POLL_INTERVAL))
    case SkipPoll => s.(phase := s.phase.(pollAt := s.now + POLL_INTERVAL))
    case Write(ok) =>
      s.(phase := Draining(s.phase.decided), lost := s.lost || !ok,
         log := if ok then s.log + [Restart(s.phase.decided, s.now)] else s.log)
    case Gone => s.(phase := Stopped, exits := s.exits + [s.now])
    case Killed => s.(phase := Stopped)
  }

  ghost predicate Legal(s: State, steps: seq<Step>)
    decreases |steps|
  {
    steps == [] || (Enabled(s, steps[0]) && Legal(Apply(s, steps[0]), steps[1..]))
  }

  ghost function Run(s: State, steps: seq<Step>): State
    requires Legal(s, steps)
    decreases |steps|
  {
    if steps == [] then s else Run(Apply(s, steps[0]), steps[1..])
  }

  // ---------------------------------------------------------------- what every step keeps

  ghost predicate Ordered(log: seq<Restart>) {
    && (forall i | 0 <= i < |log| :: log[i].decided <= log[i].at)
    && (forall i, j | 0 <= i < j < |log| :: log[i].at <= log[j].decided)
  }

  /** Any four recorded restarts span more than an hour. */
  ghost predicate RecordsSpaced(log: seq<Restart>) {
    forall i | 0 <= i < |log| - 3 :: log[i].at + HOUR < log[i + 3].decided
  }

  ghost predicate DecisionsSpaced(decisions: seq<int>) {
    forall i | 0 <= i < |decisions| - 1 :: decisions[i] + MIN_UPTIME_BEFORE_EXIT <= decisions[i + 1]
  }

  /** Without a lost write, the log lists every decision whose event is due. */
  ghost predicate Complete(s: State) {
    && |s.decisions| == |s.log| + (if s.phase.Exiting? then 1 else 0)
    && forall i | 0 <= i < |s.log| :: s.log[i].decided == s.decisions[i]
  }

  ghost predicate LogInv(s: State) {
    Ordered(s.log) && RecordsSpaced(s.log) && forall i | 0 <= i < |s.log| :: s.log[i].at <= s.now
  }

  ghost predicate DecisionsInv(s: State) {
    DecisionsSpaced(s.decisions) && (s.decisions != [] ==> s.decisions[|s.decisions| - 1] <= s.now)
  }

  /** A running process booted after everything recorded; an exiting one had room in its budget. */
  ghost predicate PhaseInv(s: State) {
    && (s.phase.Running? ==>
          && s.phase.booted <= s.now
          && (s.decisions != [] ==> s.decisions[|s.decisions| - 1] <= s.phase.booted)
          && (forall i | 0 <= i < |s.log| :: s.log[i].at <= s.phase.booted))
    && (s.phase.Exiting? ==>
          && s.phase.decided <= s.now && s.decisions != [] && s.decisions[|s.decisions| - 1] == s.phase.decided
          && (forall i | 0 <= i < |s.log| :: s.log[i].at <= s.phase.decided)
          && (|s.log| >= 3 ==> s.log[|s.log| - 3].at + HOUR < s.phase.decided))
  }

  ghost predicate ExitsInv(s: State) {
    && |s.decisions| == |s.exits| + (if s.phase.Exiting? || s.phase.Draining? then 1 else 0)
    && (forall i | 0 <= i < |s.exits| :: s.exits[i] <= s.now)
    && (!s.lost ==> Complete(s))
    && (!s.lost ==> forall i | 0 <= i < |s.exits| :: s.log[i].at <= s.exits[i])
  }

  ghost predicate Inv(s: State) {
    LogInv(s) && DecisionsInv(s) && PhaseInv(s) && ExitsInv(s)
  }

  /** With fewer than `k` recent records in an ordered log, the `k`-th newest is not recent. */
  lemma {:induction false} FewRecent(log: seq<Restart>, since: int, k: nat)
    requires Ordered(log) && 0 < k <= |log| && CountSince(log, since) < k
    ensures log[|log| - k].at < since
    decreases |log|
  {
    var last := |log| - 1;
    if log[last].at >= since && k > 1 {
      FewRecent(log[..last], since, k - 1);
    } else if k > 1 {
      assert log[|log| - k].at <= log[last].decided <= log[last].at;
    }
  }

  lemma DecisionKeepsSpacing(decisions: seq<int>, now: int)
    requires DecisionsSpaced(decisions)
    requires decisions != [] ==> decisions[|decisions| - 1] + MIN_UPTIME_BEFORE_EXIT <= now
    ensures DecisionsSpaced(decisions + [now])
  {}

  lemma {:induction false} DecideKeepsPhase(s: State)
    requires LogInv(s) && PhaseInv(s) && s.phase.Running?
    requires CountSince(s.log, s.now - HOUR) < MAX_SELF_EXITS_PER_HOUR
    ensures PhaseInv(Decided(s))
  {
    if |s.log| >= 3 {
      FewRecent(s.log, s.now - HOUR, 3);
    }
  }

  lemma {:induction false} DecideKeepsExits(s: State)
    requires ExitsInv(s) && s.phase.Running?
    ensures ExitsInv(Decided(s))
  {}

  lemma {:induction false} DecideKeepsDecisions(s: State)
    requires DecisionsInv(s) && PhaseInv(s) && s.phase.Running? && s.now - s.phase.booted >= MIN_UPTIME_BEFORE_EXIT
    ensures DecisionsInv(Decided(s))
  {
    DecisionKeepsSpacing(s.decisions, s.now);
  }

  lemma {:induction false} DecideKeepsInv(s: State)
    requires Inv(s) && s.phase.Running? && s.now - s.phase.booted >= MIN_UPTIME_BEFORE_EXIT
    requires CountSince(s.log, s.now - HOUR) < MAX_SELF_EXITS_PER_HOUR
    ensures Inv(Decided(s))
  {
    DecideKeepsPhase(s);
    DecideKeepsExits(s);
    DecideKeepsDecisions(s);
  }

  lemma {:induction false} WaitKeepsInv(s: State, pollAt: int)
    requires Inv(s) && s.phase.Running?
    ensures Inv(s.(phase := s.phase.(pollAt := pollAt)))
  {}

  /** Whether a poll decides to exit. */
  predicate Decides(s: State, unrecoverable: bool, readable: bool)
    requires s.phase.Running?
  {
    && unrecoverable && readable && s.now - s.phase.booted >= MIN_UPTIME_BEFORE_EXIT
    && CountSince(s.log, s.now - HOUR) < MAX_SELF_EXITS_PER_HOUR
  }

  lemma {:induction false} PollDoes(s: State, unrecoverable: bool, readable: bool)
    requires Enabled(s, Poll(unrecoverable, readable))
    ensures Apply(s, Poll(unrecoverable, readable))
            == if Decides(s, unrecoverable, readable) then Decided(s)
               else s.(phase := s.phase.(pollAt := s.now + POLL_INTERVAL))
  {}

  lemma {:induction false} PollKeepsInv(s: State, unrecoverable: bool, readable: bool)
    requires Inv(s) && Enabled(s, Poll(unrecoverable, readable))
    ensures Inv(if Decides(s, unrecoverable, readable) then Decided(s)
                else s.(phase := s.phase.(pollAt := s.now + POLL_INTERVAL)))
  {
    if Decides(s, unrecoverable, readable) {
      DecideKeepsInv(s);
    } else {
      WaitKeepsInv(s, s.now + POLL_INTERVAL);
    }
  }

  lemma {:induction false} BootKeepsInv(s: State)
    requires Inv(s) && Enabled(s, Boot)
    ensures Inv(Apply(s, Boot))
  {}

  lemma {:induction false} GoneKeepsInv(s: State)
    requires Inv(s) && Enabled(s, Gone)
    ensures Inv(Apply(s, Gone))
  {}

  lemma RecordKeepsOrder(log: seq<Restart>, decided: int, at: int)
    requires Ordered(log) && RecordsSpaced(log) && decided <= at
    requires forall i | 0 <= i < |log| :: log[i].at <= decided
    requires |log| >= 3 ==> log[|log| - 3].at + HOUR < decided
    ensures var log' := log + [Restart(decided, at)];
            && Ordered(log') && RecordsSpaced(log')
            && (forall i | 0 <= i < |log'| :: log'[i].at <= at)
  {}

  lemma {:induction false} WriteKeepsInv(s: State, ok: bool)
    requires Inv(s) && Enabled(s, Write(ok))
    ensures Inv(Apply(s, Write(ok)))
  {
    var s' := Apply(s, Write(ok));
    if ok {
      RecordKeepsOrder(s.log, s.phase.decided, s.now);
      assert Complete(s) ==> Complete(s');
    }
  }

  lemma {:induction false} StepKeepsInv(s: State, step: Step)
    requires Inv(s) && Enabled(s, step)
    ensures Inv(Apply(s, step))
  {
    match step
    case Poll(unrecoverable, readable) =>
      PollDoes(s, unrecoverable, readable);
      PollKeepsInv(s, unrecoverable, readable);
    case Write(ok) => WriteKeepsInv(s, ok);
    case SkipPoll => WaitKeepsInv(s, s.now + POLL_INTERVAL);
    case Boot => BootKeepsInv(s);
    case Gone => GoneKeepsInv(s);
    case _ =>
  }

  lemma {:induction false} RunsKeepInv(s: State, steps: seq<Step>)
    requires Inv(s) && Legal(s, steps)
    ensures Inv(Run(s, steps))
    decreases |steps|
  {
    if steps != [] {
      StepKeepsInv(s, steps[0]);
      RunsKeepInv(Apply(s, steps[0]), steps[1..]);
    }
  }

  // ---------------------------------------------------------------- bounds over every run

  /**
   A process ends itself only for an unrecoverable actor, with a budget it could
   read and that had room, and after the minimum uptime; in every other case the
   poll leaves it running.
   */
  lemma ExitsAreJustified(s: State, step: Step)
    requires Enabled(s, step) && Inv(s)
    ensures Apply(s, step).decisions != s.decisions <==>
            && step == Poll(true, true)
            && s.now - s.phase.booted >= MIN_UPTIME_BEFORE_EXIT
            && CountSince(s.log, s.now - HOUR) < MAX_SELF_EXITS_PER_HOUR
  {}

  /** However a process ends, the next one can boot and finds the records as they were. */
  lemma NextProcessBoots(s: State, step: Step)
    requires Enabled(s, step) && (step.Gone? || step.Killed?)
    ensures Enabled(Apply(s, step), Boot) && Apply(s, step).log == s.log && Apply(s, step).decisions == s.decisions
  {}

  /** A process polls half a minute after its start and after each poll or skipped poll, and not before. */
  lemma PollsAreApart(s: State, step: Step, later: int, unrecoverable: bool, readable: bool)
    requires Enabled(s, step) && (step.Boot? || step.Poll? || step.SkipPoll?) && Apply(s, step).phase.Running?
    requires later >= s.now && Inv(s)
    ensures Enabled(Apply(s, step).(now := later), Poll(unrecoverable, readable)) <==> later >= s.now + 30_000
  {}

  /** Whatever writes fail, any four events in the log span more than an hour. */
  lemma RecordedRestartsAreBounded(now: int, steps: seq<Step>, i: nat)
    requires Legal(Start(now), steps) && i + 3 < |Run(Start(now), steps).log|
    ensures var log := Run(Start(now), steps).log; log[i + 3].at - log[i].at > HOUR
  {
    RunsKeepInv(Start(now), steps);
    var log := Run(Start(now), steps).log;
    assert log[i].at + HOUR < log[i + 3].decided;
  }

  /** When every event is written, no hour sees more than three self-exit decisions, in any run of any processes. */
  lemma DecisionsPerHour(now: int, steps: seq<Step>, i: nat)
    requires Legal(Start(now), steps) && !Run(Start(now), steps).lost
    requires i + MAX_SELF_EXITS_PER_HOUR < |Run(Start(now), steps).decisions|
    ensures var decisions := Run(Start(now), steps).decisions;
            decisions[i + MAX_SELF_EXITS_PER_HOUR] - decisions[i] > HOUR
  {
    RunsKeepInv(Start(now), steps);
    var s := Run(Start(now), steps);
    if i + 3 < |s.log| {
      assert s.log[i].at + HOUR < s.log[i + 3].decided;
    }
  }

  /**
   The instants at which the processes are gone come after their drains, so the
   same bound holds for them only up to the length of a drain.
   */
  lemma ExitsPerHour(now: int, steps: seq<Step>, i: nat, drain: nat)
    requires Legal(Start(now), steps) && !Run(Start(now), steps).lost
    requires i + MAX_SELF_EXITS_PER_HOUR < |Run(Start(now), steps).exits|
    requires var s := Run(Start(now), steps); i < |s.log| && s.exits[i] <= s.log[i].at + drain
    ensures var exits := Run(Start(now), steps).exits;
            exits[i + MAX_SELF_EXITS_PER_HOUR] - exits[i] > HOUR - drain
  {
    RunsKeepInv(Start(now), steps);
    var s := Run(Start(now), steps);
    assert s.log[i].at + HOUR < s.log[i + 3].decided <= s.log[i + 3].at <= s.exits[i + 3];
  }

  lemma {:induction false} DecisionsApart(decisions: seq<int>, i: nat, n: nat)
    requires DecisionsSpaced(decisions) && i + n < |decisions|
    ensures decisions[i + n] - decisions[i] >= n * MIN_UPTIME_BEFORE_EXIT
    decreases n
  {
    if n > 0 {
      DecisionsApart(decisions, i, n - 1);
      assert decisions[i + n - 1] + MIN_UPTIME_BEFORE_EXIT <= decisions[i + n];
    }
  }

  /** Even if no event is ever written, successive decisions are a minimum uptime apart: at most six in an hour. */
  lemma DecisionsPerHourWithoutLog(now: int, steps: seq<Step>, i: nat, n: nat)
    requires Legal(Start(now), steps) && i + n < |Run(Start(now), steps).decisions|
    ensures var decisions := Run(Start(now), steps).decisions;
            && decisions[i + n] - decisions[i] >= n * MIN_UPTIME_BEFORE_EXIT
            && (n >= 6 ==> decisions[i + n] - decisions[i] >= HOUR)
  {
    RunsKeepInv(Start(now), steps);
    DecisionsApart(Run(Start(now), steps).decisions, i, n);
  }

  // ---------------------------------------------------------------- the bound on exits is no better

  ghost predicate Reached(steps: seq<Step>, s: State) {
    Legal(Start(0), steps) && s == Run(Start(0), steps)
  }

  lemma {:induction false} OneMore(s: State, steps: seq<Step>, step: Step)
    requires Legal(s, steps) && Enabled(Run(s, steps), step)
    ensures Legal(s, steps + [step]) && Run(s, steps + [step]) == Apply(Run(s, steps), step)
    decreases |steps|
  {
    if steps == [] {
      assert [step][1..] == [] && [] + [step] == [step];
      assert Legal(Apply(s, step), []);
    } else {
      assert (steps + [step])[1..] == steps[1..] + [step];
      OneMore(Apply(s, steps[0]), steps[1..], step);
    }
  }

  lemma Go(steps: seq<Step>, s: State, step: Step) returns (steps': seq<Step>, s': State)
    requires Reached(steps, s) && Enabled(s, step)
    ensures s' == Apply(s, step) && Reached(steps', s')
  {
    OneMore(Start(0), steps, step);
    steps', s' := steps + [step], Apply(s, step);
  }

  /** One whole process: it boots, decides to exit at `q`, writes its event, and drains. */
  lemma Lifetime(steps: seq<Step>, s: State, q: int, drain: nat) returns (steps': seq<Step>, s': State)
    requires Reached(steps, s) && s.phase.Stopped? && q - s.now >= MIN_UPTIME_BEFORE_EXIT
    requires CountSince(s.log, q - HOUR) < MAX_SELF_EXITS_PER_HOUR
    ensures Reached(steps', s') && s'.phase.Stopped? && s'.now == q + drain && s'.lost == s.lost
    ensures s'.log == s.log + [Restart(q, q)] && s'.exits == s.exits + [q + drain]
  {
    steps', s' := Go(steps, s, Boot);
    steps', s' := Go(steps', s', Tick(q));
    steps', s' := Go(steps', s', Poll(true, true));
    steps', s' := Go(steps', s', Write(true));
    steps', s' := Go(steps', s', Tick(q + drain));
    steps', s' := Go(steps', s', Gone);
  }

  lemma CountAppend(log: seq<Restart>, r: Restart, since: int)
    ensures CountSince(log + [r], since) == CountSince(log, since) + if r.at >= since then 1 else 0
  {
    assert (log + [r])[..|log|] == log;
  }

  /**
   With every event written, four processes can be gone within an hour: for any
   drain of the first one, the bound on exits is missed by a millisecond only.
   A drain is at most a minute.
   */
  lemma FourExitsWithinAnHour(drain: nat) returns (steps: seq<Step>, s: State)
    requires drain <= 60_000
    ensures Reached(steps, s) && !s.lost && |s.exits| == |s.log| == 4 && s.exits[0] == s.log[0].at + drain
    ensures s.exits[3] - s.exits[0] == HOUR - drain + 1
  {
    var q1, q2, q3, q4 := 600_000, 1_200_000 + drain, 1_800_000 + drain, 4_200_001;
    steps, s := [], Start(0);
    steps, s := Lifetime(steps, s, q1, drain);
    var log1 := s.log;
    CountAppend([], Restart(q1, q1), q2 - HOUR);
    steps, s := Lifetime(steps, s, q2, 0);
    var log2 := s.log;
    CountAppend([], Restart(q1, q1), q3 - HOUR);
    CountAppend(log1, Restart(q2, q2), q3 - HOUR);
    steps, s := Lifetime(steps, s, q3, 0);
    CountAppend([], Restart(q1, q1), q4 - HOUR);
    CountAppend(log1, Restart(q2, q2), q4 - HOUR);
    CountAppend(log2, Restart(q3, q3), q4 - HOUR);
    steps, s := Lifetime(steps, s, q4, 0);
  }
}
