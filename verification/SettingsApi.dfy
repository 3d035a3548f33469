/** Validation of settings patches and pause requests (`routes/settings.rs`). */
module SettingsApi {
  import opened Outcomes
  import opened Text
  import opened RuntimeConfig

  // ---------------------------------------------------------------- knob patches

  /** Absent leaves a column alone, `Some(None)` resets it, `Some(Some(v))` sets it. */
  type Field<T> = Option<Option<T>>

  datatype Reason = BelowMinimum | BeyondColumn

  datatype PatchRequest = PatchRequest(
    maxConcurrentDownloads: Field<nat>,
    maxIndexersPerTick: Field<nat>,
    rateLimitDelaySecs: Field<nat>,
    checkIntervalSecs: Field<nat>,
    cleanupIntervalSecs: Field<nat>,
    drainTimeoutSecs: Field<nat>)

  const EMPTY_REQUEST := PatchRequest(None, None, None, None, None, None)

  datatype RowPatch = RowPatch(
    indexingPausedUntil: Field<int>,
    downloadsPausedUntil: Field<int>,
    maxConcurrentDownloads: Field<int>,
    maxIndexersPerTick: Field<int>,
    rateLimitDelaySecs: Field<int>,
    checkIntervalSecs: Field<int>,
    cleanupIntervalSecs: Field<int>,
    drainTimeoutSecs: Field<int>)

  function ValidateMin(field: Field<nat>, min: nat): Result<Field<int>, Reason> {
    match field
    case None => Ok(None)
    case Some(None) => Ok(Some(None))
    case Some(Some(v)) =>
      if v < min then Err(BelowMinimum) else if v <= I32_MAX then Ok(Some(Some(v))) else Err(BeyondColumn)
  }

  /** The first field out of bounds is reported; pauses have their own endpoints. */
  function ValidatePatch(r: PatchRequest): Result<RowPatch, Reason> {
    var a := ValidateMin(r.maxConcurrentDownloads, 1);
    var b := ValidateMin(r.maxIndexersPerTick, 1);
    var c := ValidateMin(r.rateLimitDelaySecs, 0);
    var d := ValidateMin(r.checkIntervalSecs, 1);
    var e := ValidateMin(r.cleanupIntervalSecs, 1);
    var f := ValidateMin(r.drainTimeoutSecs, 1);
    if a.Err? then Err(a.error)
    else if b.Err? then Err(b.error)
    else if c.Err? then Err(c.error)
    else if d.Err? then Err(d.error)
    else if e.Err? then Err(e.error)
    else if f.Err? then Err(f.error)
    else Ok(RowPatch(None, None, a.value, b.value, c.value, d.value, e.value, f.value))
  }

  function Patched<T>(field: Field<T>, column: Option<T>): Option<T> {
    if field.Some? then field.value else column
  }

  /** A request fails for its first field out of bounds: below its minimum, or beyond the column's width. */
  lemma RejectedFor(field: Field<nat>, min: nat)
    ensures ValidateMin(field, min).Err? <==> field.Some? && field.value.Some? && !(min <= field.value.value <= I32_MAX)
    ensures ValidateMin(field, min) == Err(BelowMinimum)
            <==> field.Some? && field.value.Some? && field.value.value < min
  {}

  /** A patch is refused for its first bad field, in the order of the settings, and only for a bad field. */
  lemma FirstBadFieldIsReported(r: PatchRequest)
    ensures var checks := [ValidateMin(r.maxConcurrentDownloads, 1), ValidateMin(r.maxIndexersPerTick, 1),
                           ValidateMin(r.rateLimitDelaySecs, 0), ValidateMin(r.checkIntervalSecs, 1),
                           ValidateMin(r.cleanupIntervalSecs, 1), ValidateMin(r.drainTimeoutSecs, 1)];
            && (ValidatePatch(r).Ok? <==> forall i | 0 <= i < 6 :: checks[i].Ok?)
            && (ValidatePatch(r).Err? ==>
                  exists i | 0 <= i < 6 :: checks[i].Err? && checks[i].error == ValidatePatch(r).error
                                           && forall j | 0 <= j < i :: checks[j].Ok?)
  {
    var a, b := ValidateMin(r.maxConcurrentDownloads, 1), ValidateMin(r.maxIndexersPerTick, 1);
    var c, d := ValidateMin(r.rateLimitDelaySecs, 0), ValidateMin(r.checkIntervalSecs, 1);
    var e, f := ValidateMin(r.cleanupIntervalSecs, 1), ValidateMin(r.drainTimeoutSecs, 1);
    var checks := [a, b, c, d, e, f];
    assert checks[0] == a && checks[1] == b && checks[2] == c && checks[3] == d && checks[4] == e && checks[5] == f;
    if ValidatePatch(r).Err? {
      var i := if a.Err? then 0 else if b.Err? then 1 else if c.Err? then 2
               else if d.Err? then 3 else if e.Err? then 4 else 5;
      assert checks[i].Err? && checks[i].error == ValidatePatch(r).error;
    }
  }

  /** `patch_runtime_settings`: one SET clause per field that is present. */
  function ApplyPatch(row: SettingsRow, p: RowPatch): SettingsRow {
    SettingsRow(
      Patched(p.indexingPausedUntil, row.indexingPausedUntil),
      Patched(p.downloadsPausedUntil, row.downloadsPausedUntil),
      Patched(p.maxConcurrentDownloads, row.maxConcurrentDownloads),
      Patched(p.maxIndexersPerTick, row.maxIndexersPerTick),
      Patched(p.rateLimitDelaySecs, row.rateLimitDelaySecs),
      Patched(p.checkIntervalSecs, row.checkIntervalSecs),
      Patched(p.cleanupIntervalSecs, row.cleanupIntervalSecs),
      Patched(p.drainTimeoutSecs, row.drainTimeoutSecs))
  }

  /** The column checks of the table. */
  ghost predicate RowInBounds(row: SettingsRow) {
    && AtLeast(row.maxConcurrentDownloads, 1) && AtLeast(row.maxIndexersPerTick, 1)
    && AtLeast(row.rateLimitDelaySecs, 0) && AtLeast(row.checkIntervalSecs, 1)
    && AtLeast(row.cleanupIntervalSecs, 1) && AtLeast(row.drainTimeoutSecs, 1)
  }

  predicate AtLeast(column: Option<int>, min: int) {
    column.Some? ==> min <= column.value <= I32_MAX
  }

  /**
   A patch that passes validation is one the database accepts, and afterwards
   each knob is what was asked for: the new value with provenance `Database`, the
   environment or default value after a reset, the old one if it was not named.
   */
  lemma {:induction false} ValidPatchesTakeEffect(r: PatchRequest, row: SettingsRow, env: EnvOverrides)
    requires RowInBounds(row) && ValidatePatch(r).Ok?
    ensures var row' := ApplyPatch(row, ValidatePatch(r).value);
            var was, after := Resolve(row, env), Resolve(row', env);
            && RowInBounds(row')
            && after.indexingPausedUntil == was.indexingPausedUntil
            && after.downloadsPausedUntil == was.downloadsPausedUntil
            && Effect(r.maxConcurrentDownloads, was.maxConcurrentDownloads,
                      env.maxConcurrentDownloads, DEFAULT_MAX_CONCURRENT, after.maxConcurrentDownloads)
            && Effect(r.maxIndexersPerTick, was.maxIndexersPerTick,
                      env.maxIndexersPerTick, DEFAULT_MAX_INDEXERS_PER_TICK, after.maxIndexersPerTick)
            && Effect(r.rateLimitDelaySecs, was.rateLimitDelaySecs,
                      env.rateLimitDelaySecs, DEFAULT_RATE_LIMIT_DELAY_SECS, after.rateLimitDelaySecs)
            && Effect(r.checkIntervalSecs, was.checkIntervalSecs,
                      env.checkIntervalSecs, DEFAULT_CHECK_INTERVAL_SECS, after.checkIntervalSecs)
            && Effect(r.cleanupIntervalSecs, was.cleanupIntervalSecs,
                      env.cleanupIntervalSecs, DEFAULT_CLEANUP_INTERVAL_SECS, after.cleanupIntervalSecs)
            && Effect(r.drainTimeoutSecs, was.drainTimeoutSecs,
                      env.drainTimeoutSecs, DEFAULT_DRAIN_TIMEOUT_SECS, after.drainTimeoutSecs)
  {
    KnobTakesEffect(r.maxConcurrentDownloads, 1,
                    row.maxConcurrentDownloads, env.maxConcurrentDownloads, DEFAULT_MAX_CONCURRENT);
    KnobTakesEffect(r.maxIndexersPerTick, 1,
                    row.maxIndexersPerTick, env.maxIndexersPerTick, DEFAULT_MAX_INDEXERS_PER_TICK);
    KnobTakesEffect(r.rateLimitDelaySecs, 0,
                    row.rateLimitDelaySecs, env.rateLimitDelaySecs, DEFAULT_RATE_LIMIT_DELAY_SECS);
    KnobTakesEffect(r.checkIntervalSecs, 1,
                    row.checkIntervalSecs, env.checkIntervalSecs, DEFAULT_CHECK_INTERVAL_SECS);
    KnobTakesEffect(r.cleanupIntervalSecs, 1,
                    row.cleanupIntervalSecs, env.cleanupIntervalSecs, DEFAULT_CLEANUP_INTERVAL_SECS);
    KnobTakesEffect(r.drainTimeoutSecs, 1,
                    row.drainTimeoutSecs, env.drainTimeoutSecs, DEFAULT_DRAIN_TIMEOUT_SECS);
  }

  lemma KnobTakesEffect(field: Field<nat>, min: nat, column: Option<int>, env: Option<nat>, default: nat)
    requires ValidateMin(field, min).Ok? && AtLeast(column, min)
    ensures var column' := Patched(ValidateMin(field, min).value, column);
            && AtLeast(column', min)
            && Effect(field, Pick(column, env, default), env, default, Pick(column', env, default))
  {}

  /** How a knob must end up, given the request, its old value, and what stands behind its column. */
  ghost predicate Effect(field: Field<nat>, was: Resolved, env: Option<nat>, default: nat, after: Resolved) {
    match field
    case None => after == was
    case Some(None) => after == if env.Some? then Resolved(env.value, Env) else Resolved(default, Default)
    case Some(Some(v)) => after == Resolved(v, Database)
  }

  // ---------------------------------------------------------------- pauses

  /** `DateTime::<Utc>::MAX_UTC` and the longest `TimeDelta` in whole seconds. */
  const MAX_UTC: nat := 8_210_266_876_799 * SECOND + 999_999_999
  const MAX_DELTA_SECS: nat := 0x7FFF_FFFF_FFFF_FFFF / 1000

  datatype PauseError = Zero | DurationTooLarge | ExpiryOverflows | ReachesSentinel

  /** When a pause requested at `now` ends; `None` seconds means indefinitely. */
  function PauseExpiry(durationSecs: Option<nat>, now: int): Result<int, PauseError> {
    match durationSecs
    case None => Ok(INDEFINITE_PAUSE)
    case Some(secs) =>
      if secs == 0 then Err(Zero)
      else if secs > MAX_DELTA_SECS then Err(DurationTooLarge)
      else if now + secs * SECOND > MAX_UTC then Err(ExpiryOverflows)
      else if now + secs * SECOND >= INDEFINITE_PAUSE then Err(ReachesSentinel)
      else Ok(now + secs * SECOND)
  }

  datatype PauseModule = Indexing | Downloads | All

  const EMPTY_PATCH := RowPatch(None, None, None, None, None, None, None, None)

  /** The patch of a pause or, without an expiry, of a resume. */
  function PausePatch(m: PauseModule, until: Option<int>): RowPatch {
    match m
    case Indexing => EMPTY_PATCH.(indexingPausedUntil := Some(until))
    case Downloads => EMPTY_PATCH.(downloadsPausedUntil := Some(until))
    case All => EMPTY_PATCH.(indexingPausedUntil := Some(until), downloadsPausedUntil := Some(until))
  }

  /**
   A pause holds exactly the modules it names, from then until its expiry; a
   resume lets them go at once. The other module and every knob stay as they were.
   */
  lemma PauseTakesEffect(m: PauseModule, until: Option<int>, row: SettingsRow, env: EnvOverrides, now: int)
    ensures var was, after := Resolve(row, env), Resolve(ApplyPatch(row, PausePatch(m, until)), env);
            && (IndexingPaused(after, now) <==> if m.Downloads? then IndexingPaused(was, now)
                                                else until.Some? && now < until.value)
            && (DownloadsPaused(after, now) <==> if m.Indexing? then DownloadsPaused(was, now)
                                                 else until.Some? && now < until.value)
            && after == was.(indexingPausedUntil := after.indexingPausedUntil,
                             downloadsPausedUntil := after.downloadsPausedUntil)
  {}

  datatype PauseStateResponse = PauseStateResponse(paused: bool, until: Option<int>, indefinite: bool)

  function PauseState(until: Option<int>, now: int): PauseStateResponse {
    if until.None? then PauseStateResponse(false, None, false)
    else if until.value == INDEFINITE_PAUSE then PauseStateResponse(true, None, true)
    else PauseStateResponse(until.value > now, until, false)
  }

  /** What a timestamp column returns: whole microseconds. */
  function Stored(t: int): int {
    t - t % 1000
  }

  /**
   A pause goes through the database and is reported as indefinite exactly when
   the request named no duration. A finite pause is reported with its own end,
   never later than asked and less than a microsecond early, and is in force
   exactly until then.
   */
  lemma PausesAreReportedAsRequested(durationSecs: Option<nat>, requested: int, now: int)
    requires PauseExpiry(durationSecs, requested).Ok?
    ensures var stored := Stored(PauseExpiry(durationSecs, requested).value); var r := PauseState(Some(stored), now);
            && stored % 1000 == 0 && (r.indefinite <==> durationSecs.None?)
            && (durationSecs.None? ==> r.paused && r.until.None?)
            && (durationSecs.Some? ==>
                  && r.until == Some(stored) && (r.paused <==> now < stored)
                  && 0 <= requested + durationSecs.value * SECOND - stored < 1000)
  {
    assert INDEFINITE_PAUSE % 1000 == 0;
  }

  /** Exactly the durations that end before the sentinel are accepted. */
  lemma PauseAcceptedIff(secs: nat, now: nat)
    ensures PauseExpiry(Some(secs), now).Ok? <==> 0 < secs && now + secs * SECOND < INDEFINITE_PAUSE
  {}

  /** ... and every other one is refused for a reason of its own. */
  lemma PauseRefusedFor(secs: nat, now: nat)
    ensures var r, end := PauseExpiry(Some(secs), now), now + secs * SECOND;
            && (r == Err(Zero) <==> secs == 0)
            && (r == Err(DurationTooLarge) <==> secs > 9_223_372_036_854_775)
            && (r == Err(ExpiryOverflows) <==> 0 < secs <= 9_223_372_036_854_775 && end > MAX_UTC)
            && (r == Err(ReachesSentinel) <==> 0 < secs && INDEFINITE_PAUSE <= end <= MAX_UTC)
  {}

  /** What is reported of a row: no pause, the indefinite one, or the end of a finite one, lapsed or not. */
  lemma PauseIsReported(until: Option<int>, now: int)
    ensures var r := PauseState(until, now);
            && (r.indefinite <==> until == Some(INDEFINITE_PAUSE as int))
            && (r.until == if r.indefinite then None else until)
            && (r.paused <==> r.indefinite || (until.Some? && now < until.value))
  {}

  /** A reported pause agrees with the settings' own verdict before the sentinel. */
  lemma ReportAgreesWithVerdict(until: Option<int>, now: int)
    requires now < INDEFINITE_PAUSE
    ensures PauseState(until, now).paused == PausedAt(until, now)
  {}

  /** With pauses written by the API, nothing at all changes before the next deadline. */
  lemma ApiPausesHaveExactDeadlines(s: EffectiveSettings, now: int)
    requires s.indexingPausedUntil.Some? ==> s.indexingPausedUntil.value <= INDEFINITE_PAUSE
    requires s.downloadsPausedUntil.Some? ==> s.downloadsPausedUntil.value <= INDEFINITE_PAUSE
    ensures var deadline := NextPauseDeadline(s, now);
            deadline.Some? ==> forall t | now <= t < deadline.value :: SameVerdicts(s, t, now)
  {
    if NextPauseDeadline(s, now).Some? {
      DeadlineIsFirstFlipIff(s, now);
    }
  }
}
