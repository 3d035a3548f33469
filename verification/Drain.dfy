/**
 Draining before shutdown: the process-local token (`DrainToken` in
 `runtime_config.rs`) and the watcher that polls until work is done or the
 deadline passes (`startup.rs`). Times are nanoseconds.
 */
module Drain {
  import opened Outcomes
  import opened RuntimeConfig
  import opened SettingsApi

  const MILLISECOND: nat := 1_000_000
  const DRAIN_POLL_INTERVAL: nat := 500 * MILLISECOND
  const MAX_WATCHDOG_DRAIN: nat := 60 * SECOND

  /** The longest `chrono::Duration`. */
  const MAX_DELTA: nat := 0x7FFF_FFFF_FFFF_FFFF * MILLISECOND

  datatype DrainStart = DrainStart(startedAt: int, deadline: int)

  /** An absurd timeout forces the shutdown at once instead of losing the drain. */
  function DeadlineFor(now: int, timeout: nat): int {
    if timeout > MAX_DELTA || now + timeout > MAX_UTC then now else now + timeout
  }

  datatype TokenState = TokenState(started: Option<DrainStart>, complete: bool)

  datatype TokenStep = Begin(now: int, timeout: nat) | SignalComplete

  function TokenApply(t: TokenState, step: TokenStep): TokenState {
    match step
    case Begin(now, timeout) =>
      if t.started.Some? then t else t.(started := Some(DrainStart(now, DeadlineFor(now, timeout))))
    case SignalComplete => t.(complete := true)
  }

  function TokenRun(t: TokenState, steps: seq<TokenStep>): TokenState
    decreases |steps|
  {
    if steps == [] then t else TokenRun(TokenApply(t, steps[0]), steps[1..])
  }

  /** Start and deadline once set, and completion once signalled, stay as they are through any further calls. */
  lemma {:induction false} TokenIsStable(t: TokenState, steps: seq<TokenStep>)
    ensures var r := TokenRun(t, steps);
            && (t.started.Some? ==> r.started == t.started)
            && (t.complete ==> r.complete)
            && (r.complete <==> t.complete || SignalComplete in steps)
    decreases |steps|
  {
    if steps != [] {
      TokenIsStable(TokenApply(t, steps[0]), steps[1..]);
      assert SignalComplete in steps <==> steps[0] == SignalComplete || SignalComplete in steps[1..];
    }
  }

  function FirstBegin(steps: seq<TokenStep>): Option<TokenStep> {
    if steps == [] then None
    else if steps[0].Begin? then Some(steps[0])
    else FirstBegin(steps[1..])
  }

  /** The drain that a call asks for: its timeout from now on, or at once if no such time can be represented. */
  ghost predicate AsksFor(b: TokenStep, d: DrainStart) {
    && b.Begin? && d.startedAt == b.now
    && (b.timeout <= MAX_DELTA && b.now + b.timeout <= MAX_UTC ==> d.deadline - d.startedAt == b.timeout)
    && (b.timeout > MAX_DELTA || b.now + b.timeout > MAX_UTC ==> d.deadline == d.startedAt)
  }

  /** For any sequence of calls the drain is the one the first `begin` asked for. */
  lemma {:induction false} FirstBeginWins(t: TokenState, steps: seq<TokenStep>)
    requires t.started.None?
    ensures TokenRun(t, steps).started.Some? <==> FirstBegin(steps).Some?
    ensures FirstBegin(steps).Some? ==> AsksFor(FirstBegin(steps).value, TokenRun(t, steps).started.value)
    decreases |steps|
  {
    if steps != [] {
      if steps[0].Begin? {
        TokenIsStable(TokenApply(t, steps[0]), steps[1..]);
      } else {
        FirstBeginWins(TokenApply(t, steps[0]), steps[1..]);
      }
    }
  }

  /** The watchdog's own drain is capped exactly when it is the first, or the one in progress already ends by then. */
  lemma WatchdogCapIff(t: TokenState, now: int, operatorTimeout: nat)
    ensures var capped := if operatorTimeout <= MAX_WATCHDOG_DRAIN then operatorTimeout else MAX_WATCHDOG_DRAIN;
            TokenApply(t, Begin(now, capped)).started.value.deadline <= now + MAX_WATCHDOG_DRAIN
            <==> t.started.None? || t.started.value.deadline <= now + MAX_WATCHDOG_DRAIN
  {}

  class DrainToken {
    var started: Option<DrainStart>
    var complete: bool

    function Value(): TokenState
      reads this
    {
      TokenState(started, complete)
    }

    constructor ()
      ensures Value() == TokenState(None, false)
    {
      started, complete := None, false;
    }

    method Begin(now: int, timeout: nat)
      modifies `started
      ensures Value() == TokenApply(old(Value()), TokenStep.Begin(now, timeout))
    {
      var deadline := DeadlineFor(now, timeout);
      if started.None? {
        started := Some(DrainStart(now, deadline));
      }
    }

    method SignalComplete()
      modifies `complete
      ensures Value() == TokenApply(old(Value()), TokenStep.SignalComplete)
    {
      complete := true;
    }
  }

  // ---------------------------------------------------------------- the watcher

  datatype QuiescenceCounts = QuiescenceCounts(activeDownloads: nat, dispatching: nat, activeIndexers: nat)

  predicate IsQuiescent(c: QuiescenceCounts) {
    c.activeDownloads == 0 && c.dispatching == 0 && c.activeIndexers == 0
  }

  /** A drain waits as long as there is any work at all: a download running or being dispatched, or an indexer. */
  lemma QuiescentIff(c: QuiescenceCounts)
    ensures IsQuiescent(c) <==> c.activeDownloads + c.dispatching + c.activeIndexers == 0
  {}

  /** The wall clock: it never goes back, and a sleep takes at least as long as asked. */
  class Clock {
    var now: int
    ghost var asked: nat          // how long it was asked to sleep, in all

    method Pass()
      modifies `now
      ensures now >= old(now)
    {
      var elapsed: nat :| elapsed >= 0;
      now := now + elapsed;
    }

    method Sleep(duration: nat)
      modifies this
      ensures now >= old(now) + duration && asked == old(asked) + duration
    {
      var extra: nat :| extra >= 0;
      now, asked := now + duration + extra, asked + duration;
    }
  }

  function CeilDiv(n: int, d: nat): nat
    requires d > 0
  {
    if n <= 0 then 0 else (n + d - 1) / d
  }

  lemma PollsBound(polls: nat, span: int)
    requires polls <= 1 || (polls - 2) * DRAIN_POLL_INTERVAL < span
    ensures polls <= CeilDiv(span, DRAIN_POLL_INTERVAL) + 1
  {}

  /**
   Polls until a probe reports no work or the deadline has passed, and signals
   completion either way. `probe(k)` is what the k-th probe reports. It never asks
   to sleep past the deadline.
   */
  method PollUntilQuiescent(probe: nat -> QuiescenceCounts, drain: DrainToken, deadline: int, clock: Clock)
    returns (polls: nat, quiescent: bool)
    modifies drain`complete, clock
    ensures drain.complete && clock.now >= old(clock.now)
    ensures polls > 0 && forall k | 0 <= k < polls - 1 :: !IsQuiescent(probe(k))
    ensures quiescent <==> IsQuiescent(probe(polls - 1))
    ensures !quiescent ==> clock.now >= deadline
    ensures polls <= CeilDiv(deadline - old(clock.now), DRAIN_POLL_INTERVAL) + 1
    ensures clock.asked - old(clock.asked) <= if deadline > old(clock.now) then deadline - old(clock.now) else 0
  {
    ghost var start, asked := clock.now, clock.asked;
    ghost var span := if deadline > start then deadline - start else 0;
    polls := 0;
    while true
      invariant 0 <= clock.asked - asked <= clock.now - start && clock.asked - asked <= span
      invariant clock.now >= deadline || clock.now >= start + polls * DRAIN_POLL_INTERVAL
      invariant polls == 0 || (polls - 1) * DRAIN_POLL_INTERVAL < deadline - start
      invariant forall k | 0 <= k < polls :: !IsQuiescent(probe(k))
      decreases if clock.now < deadline then deadline - clock.now else 0,
                if clock.now < deadline then 1 else 0
    {
      var counts := probe(polls);
      polls := polls + 1;
      clock.Pass();
      if IsQuiescent(counts) {
        drain.SignalComplete();
        PollsBound(polls, deadline - start);
        return polls, true;
      }
      if clock.now >= deadline {
        drain.SignalComplete();
        PollsBound(polls, deadline - start);
        return polls, false;
      }
      Pause(deadline, clock);
    }
  }

  /** The sleep between two polls: an interval, or what is left before the deadline. */
  method Pause(deadline: int, clock: Clock)
    requires clock.now < deadline
    modifies clock
    ensures var slept := clock.asked - old(clock.asked);
            && 0 < slept <= deadline - old(clock.now) && clock.now >= old(clock.now) + slept
            && (slept == DRAIN_POLL_INTERVAL || (slept < DRAIN_POLL_INTERVAL && clock.now >= deadline))
  {
    var remaining := SleepDurationUntil(deadline, clock.now);
    clock.Sleep(if remaining < DRAIN_POLL_INTERVAL then remaining else DRAIN_POLL_INTERVAL);
  }

  /**
   The watcher of a started drain: it enforces the frozen deadline, so a drain
   begun with a sane timeout is signalled complete within that many polls of it.
   */
  method WatchDrain(probe: nat -> QuiescenceCounts, drain: DrainToken, clock: Clock)
    returns (polls: nat, quiescent: bool)
    requires drain.started.Some?
    modifies drain`complete, clock
    ensures drain.Value() == old(drain.Value()).(complete := true)
    ensures polls > 0 && forall k | 0 <= k < polls - 1 :: !IsQuiescent(probe(k))
    ensures quiescent <==> IsQuiescent(probe(polls - 1))
    ensures !quiescent ==> clock.now >= drain.started.value.deadline
    ensures polls <= CeilDiv(drain.started.value.deadline - old(clock.now), DRAIN_POLL_INTERVAL) + 1
  {
    polls, quiescent := PollUntilQuiescent(probe, drain, drain.started.value.deadline, clock);
  }

  // ---------------------------------------------------------------- the reported status

  datatype DrainStatus =
    DrainStatus(draining: bool, startedAt: Option<int>, deadline: Option<int>, remainingSecs: Option<nat>)

  function Status(t: TokenState, now: int): DrainStatus {
    match t.started
    case None => DrainStatus(false, None, None, None)
    case Some(d) =>
      DrainStatus(true, Some(d.startedAt), Some(d.deadline), Some(SleepDurationUntil(d.deadline, now) / SECOND))
  }

  /** The status reports the token's drain, if there is one. */
  lemma DrainIsReported(t: TokenState, now: int)
    ensures var s := Status(t, now);
            && (s.draining <==> t.started.Some?)
            && (s.startedAt.Some? <==> s.draining) && (s.deadline.Some? <==> s.draining)
            && (s.remainingSecs.Some? <==> s.draining)
            && (s.draining ==> t.started.value == DrainStart(s.startedAt.value, s.deadline.value))
  {}

  /**
   The countdown is the whole seconds left, never runs backwards, reaches zero
   within the last second, and does not move with later calls.
   */
  lemma CountdownIsMonotone(t: TokenState, steps: seq<TokenStep>, now: int, later: int)
    requires t.started.Some? && now <= later
    ensures var a, b := Status(t, now), Status(TokenRun(t, steps), later);
            && b.draining && a.startedAt == b.startedAt && a.deadline == b.deadline
            && b.remainingSecs.value <= a.remainingSecs.value
            && (b.remainingSecs.value == 0 <==> later + SECOND > t.started.value.deadline)
            && (later <= b.deadline.value ==>
                  b.remainingSecs.value * SECOND <= b.deadline.value - later < (b.remainingSecs.value + 1) * SECOND)
  {
    TokenIsStable(t, steps);
  }
}
