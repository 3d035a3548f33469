/**
 Holding a fresh video until its profile's resolution is available
 (`quality_gate.rs`). Times are nanoseconds.
 */
module QualityGate {
  import opened Outcomes
  import opened RuntimeConfig
  import opened SettingsApi

  const RECHECK_INTERVAL: nat := 6 * 3600 * SECOND

  datatype Quality = Q4320p | Q2160p | Q1440p | Q1080p | Q720p | Q480p | Best | AudioOnly

  function EffectiveWaitHours(profileOverride: Option<int>, global: nat): nat {
    if profileOverride.Some? && profileOverride.value >= 0 then profileOverride.value else global
  }

  function RequestedHeight(q: Quality): Option<int> {
    match q
    case Q4320p => Some(4320)
    case Q2160p => Some(2160)
    case Q1440p => Some(1440)
    case Q1080p => Some(1080)
    case Q720p => Some(720)
    case Q480p => Some(480)
    case Best => None
    case AudioOnly => None
  }

  datatype Gate = Gate(targetHeight: int, deadline: int, sourceBestHeight: Option<int>)

  datatype Decision = Download | Wait(recheckAt: int)

  /** An out-of-range deadline saturates to the end of time. */
  function NewGate(q: Quality, waitHours: nat, publishedAt: Option<int>, firstSeen: int, sourceBest: Option<int>)
    : Option<Gate>
  {
    if waitHours == 0 || RequestedHeight(q).None? then None
    else
      var start := if publishedAt.Some? then publishedAt.value else firstSeen;
      var end := start + waitHours * 3600 * SECOND;
      Some(Gate(RequestedHeight(q).value, if end > MAX_UTC then MAX_UTC else end, sourceBest))
  }

  function Evaluate(g: Gate, available: Option<int>, now: int): Decision {
    if (available.Some? && available.value >= g.targetHeight) || now >= g.deadline then Download
    else if g.sourceBestHeight.Some? && available.Some? && available.value >= g.sourceBestHeight.value then Download
    else
      var next := now + RECHECK_INTERVAL;
      Wait(if next > MAX_UTC || next > g.deadline then g.deadline else next)
  }

  // ---------------------------------------------------------------- one check

  /** A wait always ends later than now and never after the deadline. */
  lemma WaitsEndInTime(g: Gate, available: Option<int>, now: int)
    ensures var d := Evaluate(g, available, now);
            d.Wait? ==> now < d.recheckAt <= g.deadline
                        && (d.recheckAt < g.deadline ==> d.recheckAt == now + RECHECK_INTERVAL)
  {}

  /**
   A video whose profile asks for `height` is held if and only if its hours since
   publication, or since it was first seen, are not over and what is on offer is
   below that height and below the source's best; it is looked at again in six
   hours or at the end of the wait. The hours are the profile's own, if it has any.
   */
  lemma GateDecides(q: Quality, height: int, override: Option<int>, global: nat, publishedAt: Option<int>,
                    firstSeen: int, best: Option<int>, available: Option<int>, now: int)
    requires (q, height) in {(Q4320p, 4320), (Q2160p, 2160), (Q1440p, 1440), (Q1080p, 1080), (Q720p, 720), (Q480p, 480)}
    requires if override.Some? && override.value >= 0 then override.value > 0 else global > 0
    ensures var hours := if override.Some? && override.value >= 0 then override.value else global;
            var g := NewGate(q, EffectiveWaitHours(override, global), publishedAt, firstSeen, best);
            && g.Some?
            && var over := (if publishedAt.Some? then publishedAt.value else firstSeen) + hours * 3600 * SECOND;
               var end := if over <= MAX_UTC then over else MAX_UTC;
               var below := available.None? || available.value < height;
               var short := below && (available.None? || best.None? || available.value < best.value);
               Evaluate(g.value, available, now)
               == if now < end && short
                  then Wait(if now + 6 * 3600 * SECOND <= end then now + 6 * 3600 * SECOND else end)
                  else Download
  {}

  predicate AtLeastAsGood(a: Option<int>, b: Option<int>) {
    a.None? || (b.Some? && a.value <= b.value)
  }

  /** Once a gate lets a video through, better formats and a later time still do. */
  lemma DownloadIsMonotone(g: Gate, a: Option<int>, b: Option<int>, now: int, later: int)
    requires Evaluate(g, a, now).Download? && AtLeastAsGood(a, b) && now <= later
    ensures Evaluate(g, b, later).Download?
  {}

  // ---------------------------------------------------------------- whole waits

  /** One recheck: the formats on offer, the source's history, and when it ran. */
  datatype Check = Check(available: Option<int>, sourceBest: Option<int>, at: int)

  function Outcome(target: int, deadline: int, c: Check): Decision {
    Evaluate(Gate(target, deadline, c.sourceBest), c.available, c.at)
  }

  /** Every check of the run waited, and the next came no earlier than asked. */
  ghost predicate AllWaited(target: int, deadline: int, checks: seq<Check>) {
    && (forall i | 0 <= i < |checks| :: Outcome(target, deadline, checks[i]).Wait?)
    && (forall i | 0 <= i < |checks| - 1 :: Outcome(target, deadline, checks[i]).recheckAt <= checks[i + 1].at)
  }

  lemma {:induction false} WaitsAdvance(target: int, deadline: int, checks: seq<Check>, k: nat)
    requires AllWaited(target, deadline, checks) && k < |checks|
    ensures checks[0].at + k * RECHECK_INTERVAL <= checks[k].at < deadline
    decreases k
  {
    WaitsEndInTime(Gate(target, deadline, checks[k].sourceBest), checks[k].available, checks[k].at);
    if k > 0 {
      WaitsAdvance(target, deadline, checks, k - 1);
      var before := checks[k - 1];
      WaitsEndInTime(Gate(target, deadline, before.sourceBest), before.available, before.at);
      assert Outcome(target, deadline, before).recheckAt <= checks[k].at;
      assert Outcome(target, deadline, checks[k]).Wait?;
    } else {
      assert Outcome(target, deadline, checks[k]).Wait?;
    }
  }

  /**
   Whatever formats and histories are seen, a video waits at most once per
   interval left before its deadline, rounded up, and at the deadline it is
   downloaded.
   */
  lemma WaitsAreBounded(target: int, deadline: int, checks: seq<Check>)
    requires AllWaited(target, deadline, checks) && checks != []
    ensures checks[0].at < deadline
    ensures |checks| <= (deadline - checks[0].at + RECHECK_INTERVAL - 1) / RECHECK_INTERVAL
    ensures forall c: Check | c.at >= deadline :: Outcome(target, deadline, c).Download?
  {
    WaitsAdvance(target, deadline, checks, |checks| - 1);
    WaitsAdvance(target, deadline, checks, 0);
  }

  /** With the gate of a video, the whole wait is at most its hours, from publication or first sighting. */
  lemma GateBoundsTheWait(q: Quality, waitHours: nat, publishedAt: Option<int>, firstSeen: int, best: Option<int>,
                          checks: seq<Check>)
    requires var g := NewGate(q, waitHours, publishedAt, firstSeen, best);
             g.Some? && AllWaited(g.value.targetHeight, g.value.deadline, checks) && checks != []
    ensures var start := if publishedAt.Some? then publishedAt.value else firstSeen;
            && checks[|checks| - 1].at < start + waitHours * 3600 * SECOND
            && (checks[0].at >= start ==> 6 * (|checks| - 1) < waitHours)
  {
    var g := NewGate(q, waitHours, publishedAt, firstSeen, best).value;
    WaitsAdvance(g.targetHeight, g.deadline, checks, |checks| - 1);
    WaitsAdvance(g.targetHeight, g.deadline, checks, 0);
  }

  /** The gate is off exactly for a zero wait or a quality without a height; a profile's override decides the wait. */
  lemma GateAppliesIff(q: Quality, override: Option<int>, global: nat, publishedAt: Option<int>, firstSeen: int,
                       best: Option<int>)
    ensures var hours := EffectiveWaitHours(override, global);
            NewGate(q, hours, publishedAt, firstSeen, best).Some?
            <==> (q != Best && q != AudioOnly)
                 && (if override.Some? && override.value >= 0 then override.value > 0 else global > 0)
  {}
}
