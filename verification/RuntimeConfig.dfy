/**
 Resolution of the runtime settings and the timing of pauses (`runtime_config.rs`).

 Instants and durations are whole nanoseconds; an instant counts from the Unix epoch.
 */
module RuntimeConfig {
  import opened Outcomes

  const SECOND: nat := 1_000_000_000

  /** 9999-12-31T23:59:59Z, which stands for "paused indefinitely". */
  const INDEFINITE_PAUSE: nat := 253_402_300_799 * SECOND

  const DEFAULT_MAX_CONCURRENT: nat := 3
  const DEFAULT_MAX_INDEXERS_PER_TICK: nat := 5
  const DEFAULT_RATE_LIMIT_DELAY_SECS: nat := 5
  const DEFAULT_CHECK_INTERVAL_SECS: nat := 60
  const DEFAULT_CLEANUP_INTERVAL_SECS: nat := 60 * 60 * 3
  const DEFAULT_DRAIN_TIMEOUT_SECS: nat := 1800

  datatype Provenance = Default | Env | Database

  datatype Resolved = Resolved(value: nat, provenance: Provenance)

  /** The single settings row; `None` in a knob falls through to the next layer. */
  datatype SettingsRow = SettingsRow(
    indexingPausedUntil: Option<int>,
    downloadsPausedUntil: Option<int>,
    maxConcurrentDownloads: Option<int>,
    maxIndexersPerTick: Option<int>,
    rateLimitDelaySecs: Option<int>,
    checkIntervalSecs: Option<int>,
    cleanupIntervalSecs: Option<int>,
    drainTimeoutSecs: Option<int>)

  datatype EnvOverrides = EnvOverrides(
    maxConcurrentDownloads: Option<nat>,
    maxIndexersPerTick: Option<nat>,
    rateLimitDelaySecs: Option<nat>,
    checkIntervalSecs: Option<nat>,
    cleanupIntervalSecs: Option<nat>,
    drainTimeoutSecs: Option<nat>)

  datatype EffectiveSettings = EffectiveSettings(
    indexingPausedUntil: Option<int>,
    downloadsPausedUntil: Option<int>,
    maxConcurrentDownloads: Resolved,
    maxIndexersPerTick: Resolved,
    rateLimitDelaySecs: Resolved,
    checkIntervalSecs: Resolved,
    cleanupIntervalSecs: Resolved,
    drainTimeoutSecs: Resolved)

  /** A non-negative database value wins over the environment, which wins over the default. */
  function Pick(db: Option<int>, env: Option<nat>, default: nat): Resolved {
    if db.Some? && db.value >= 0 then Resolved(db.value, Database)
    else if env.Some? then Resolved(env.value, Env)
    else Resolved(default, Default)
  }

  function Resolve(row: SettingsRow, env: EnvOverrides): EffectiveSettings {
    EffectiveSettings(
      row.indexingPausedUntil,
      row.downloadsPausedUntil,
      Pick(row.maxConcurrentDownloads, env.maxConcurrentDownloads, DEFAULT_MAX_CONCURRENT),
      Pick(row.maxIndexersPerTick, env.maxIndexersPerTick, DEFAULT_MAX_INDEXERS_PER_TICK),
      Pick(row.rateLimitDelaySecs, env.rateLimitDelaySecs, DEFAULT_RATE_LIMIT_DELAY_SECS),
      Pick(row.checkIntervalSecs, env.checkIntervalSecs, DEFAULT_CHECK_INTERVAL_SECS),
      Pick(row.cleanupIntervalSecs, env.cleanupIntervalSecs, DEFAULT_CLEANUP_INTERVAL_SECS),
      Pick(row.drainTimeoutSecs, env.drainTimeoutSecs, DEFAULT_DRAIN_TIMEOUT_SECS))
  }

  /** The documented order of a knob's layers: the column, the environment, the default. */
  ghost predicate Layered(column: Option<int>, env: Option<nat>, default: nat, r: Resolved) {
    var overridden := column.Some? && column.value >= 0;
    && (overridden ==> r == Resolved(column.value, Database))
    && (!overridden && env.Some? ==> r == Resolved(env.value, Env))
    && (!overridden && env.None? ==> r == Resolved(default, Default))
  }

  /** Every knob resolves from its own column, variable and default, and the pauses are the row's own. */
  lemma ResolveLayers(row: SettingsRow, env: EnvOverrides)
    ensures var s := Resolve(row, env);
            && s.indexingPausedUntil == row.indexingPausedUntil && s.downloadsPausedUntil == row.downloadsPausedUntil
            && Layered(row.maxConcurrentDownloads, env.maxConcurrentDownloads, 3, s.maxConcurrentDownloads)
            && Layered(row.maxIndexersPerTick, env.maxIndexersPerTick, 5, s.maxIndexersPerTick)
            && Layered(row.rateLimitDelaySecs, env.rateLimitDelaySecs, 5, s.rateLimitDelaySecs)
            && Layered(row.checkIntervalSecs, env.checkIntervalSecs, 60, s.checkIntervalSecs)
            && Layered(row.cleanupIntervalSecs, env.cleanupIntervalSecs, 10_800, s.cleanupIntervalSecs)
            && Layered(row.drainTimeoutSecs, env.drainTimeoutSecs, 1800, s.drainTimeoutSecs)
  {}

  // ---------------------------------------------------------------- pauses

  predicate PausedAt(until: Option<int>, now: int) {
    until.Some? && until.value > now
  }

  predicate IndexingPaused(s: EffectiveSettings, now: int) {
    PausedAt(s.indexingPausedUntil, now)
  }

  predicate DownloadsPaused(s: EffectiveSettings, now: int) {
    PausedAt(s.downloadsPausedUntil, now)
  }

  predicate Lapses(until: Option<int>, now: int) {
    until.Some? && until.value > now && until.value != INDEFINITE_PAUSE
  }

  /** The nearest future pause expiry; an indefinite pause has none. */
  function NextPauseDeadline(s: EffectiveSettings, now: int): Option<int> {
    var i, d := s.indexingPausedUntil, s.downloadsPausedUntil;
    if Lapses(i, now) && Lapses(d, now) then Some(if i.value <= d.value then i.value else d.value)
    else if Lapses(i, now) then i
    else if Lapses(d, now) then d
    else None
  }

  function SleepDurationUntil(deadline: int, now: int): (wait: nat)
    ensures now + wait == if deadline > now then deadline else now
  {
    if deadline > now then deadline - now else 0
  }

  predicate SameVerdicts(s: EffectiveSettings, t: int, u: int) {
    (IndexingPaused(s, t) <==> IndexingPaused(s, u)) && (DownloadsPaused(s, t) <==> DownloadsPaused(s, u))
  }

  /**
   The deadline is the first moment at which a module resumes: nothing changes
   before it, at least one module resumes at it, and without one nothing changes
   before the sentinel.
   */
  lemma DeadlineIsFirstFlip(s: EffectiveSettings, now: int)
    ensures var deadline := NextPauseDeadline(s, now);
            && (deadline.Some? ==>
                  && now < deadline.value
                  && (forall t | now <= t < deadline.value && t < INDEFINITE_PAUSE :: SameVerdicts(s, t, now))
                  && ((IndexingPaused(s, now) && !IndexingPaused(s, deadline.value))
                      || (DownloadsPaused(s, now) && !DownloadsPaused(s, deadline.value))))
            && (deadline.None? ==> forall t | now <= t < INDEFINITE_PAUSE :: SameVerdicts(s, t, now))
  {}

  /**
   The bound at the sentinel is needed only for a row no pause request can write:
   an expiry past the sentinel next to an indefinite pause. Otherwise nothing at
   all changes before the deadline.
   */
  lemma DeadlineIsFirstFlipIff(s: EffectiveSettings, now: int)
    requires NextPauseDeadline(s, now).Some?
    ensures var deadline := NextPauseDeadline(s, now).value;
            (forall t | now <= t < deadline :: SameVerdicts(s, t, now))
            <==> deadline <= INDEFINITE_PAUSE || now >= INDEFINITE_PAUSE
                 || (s.indexingPausedUntil != Some(INDEFINITE_PAUSE as int)
                     && s.downloadsPausedUntil != Some(INDEFINITE_PAUSE as int))
  {
    var deadline := NextPauseDeadline(s, now).value;
    if now < INDEFINITE_PAUSE < deadline {
      assert SameVerdicts(s, INDEFINITE_PAUSE, now) <==>
             s.indexingPausedUntil != Some(INDEFINITE_PAUSE as int)
             && s.downloadsPausedUntil != Some(INDEFINITE_PAUSE as int);
    }
  }
}
