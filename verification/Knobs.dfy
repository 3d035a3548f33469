/**
 The settings editor of the terminal client: printing and parsing knob values
 (`Knob`, `human_secs` in `app.rs`), and their way to the server and back.
 */
module Knobs {
  import opened Outcomes
  import opened Text
  import opened RuntimeConfig
  import opened SettingsApi

  datatype Knob =
    | MaxConcurrentDownloads | MaxIndexersPerTick | RateLimitDelay | CheckInterval | CleanupInterval | DrainTimeout

  predicate IsDuration(k: Knob) {
    !k.MaxConcurrentDownloads? && !k.MaxIndexersPerTick?
  }

  function Min(k: Knob): nat {
    if k.RateLimitDelay? then 0 else 1
  }

  // ---------------------------------------------------------------- printing

  const UNITS: string := "dhms"

  /** How many whole units fit, and what is left: division by 86400, 3600, 60 and 1. */
  function Whole(rest: nat, symbol: char): nat {
    match symbol
    case 'd' => rest / 86_400
    case 'h' => rest / 3600
    case 'm' => rest / 60
    case _ => rest
  }

  function Left(rest: nat, symbol: char): nat {
    match symbol
    case 'd' => rest % 86_400
    case 'h' => rest % 3600
    case 'm' => rest % 60
    case _ => 0
  }

  /** The parts of a duration, largest unit first, without zero parts. */
  function DurationParts(rest: nat, units: string): seq<string> {
    if units == [] then []
    else if Whole(rest, units[0]) > 0 then
      [ToDecimal(Whole(rest, units[0])) + [units[0]]] + DurationParts(Left(rest, units[0]), units[1..])
    else DurationParts(rest, units[1..])
  }

  function HumanSecs(secs: nat): string {
    if secs == 0 then "0s" else Join(DurationParts(secs, UNITS), " ")
  }

  method PrintHumanSecs(secs: nat) returns (text: string)
    ensures text == HumanSecs(secs)
  {
    if secs == 0 {
      return "0s";
    }
    var rest := secs;
    var parts: seq<string> := [];
    for i := 0 to |UNITS|
      invariant parts + DurationParts(rest, UNITS[i..]) == DurationParts(secs, UNITS)
    {
      var symbol := UNITS[i];
      assert UNITS[i..][0] == symbol && UNITS[i..][1..] == UNITS[i + 1..];
      var n := Whole(rest, symbol);
      if n > 0 {
        var part := ToDecimal(n) + [symbol];
        ghost var tail := DurationParts(Left(rest, symbol), UNITS[i + 1..]);
        assert parts + ([part] + tail) == (parts + [part]) + tail;
        parts := parts + [part];
        rest := Left(rest, symbol);
      }
    }
    assert parts + [] == parts;
    text := Join(parts, " ");
  }

  /** A part of a printed duration; a zero part is left out. */
  function Part(n: nat, symbol: char): seq<string> {
    if n == 0 then [] else [ToDecimal(n) + [symbol]]
  }

  lemma FirstPart(rest: nat, symbol: char, units: string)
    requires symbol in {'d', 'h', 'm', 's'}
    ensures DurationParts(rest, [symbol] + units)
            == Part(Whole(rest, symbol), symbol) + DurationParts(Left(rest, symbol), units)
  {
    assert ([symbol] + units)[1..] == units;
    if Whole(rest, symbol) == 0 {
      assert rest == Left(rest, symbol);
      assert [] + DurationParts(rest, units) == DurationParts(rest, units);
    }
  }

  /** A day has 24 hours, and what is left of each unit is counted in the next. */
  lemma Clockwork(secs: nat)
    ensures secs % 86_400 / 3600 == secs / 3600 % 24 && secs % 86_400 % 3600 == secs % 3600
    ensures secs % 3600 / 60 == secs / 60 % 60 && secs % 3600 % 60 == secs % 60
  {
    HoursOfDay(secs);
    MinutesOfHour(secs);
  }

  lemma HoursOfDay(secs: nat)
    ensures secs % 86_400 / 3600 == secs / 3600 % 24 && secs % 86_400 % 3600 == secs % 3600
  {
    var d, h, rest := secs / 86_400, secs % 86_400 / 3600, secs % 86_400 % 3600;
    assert secs == 3600 * (24 * d + h) + rest && h < 24;
    assert secs / 3600 == 24 * d + h;
  }

  lemma MinutesOfHour(secs: nat)
    ensures secs % 3600 / 60 == secs / 60 % 60 && secs % 3600 % 60 == secs % 60
  {
    var h, m, rest := secs / 3600, secs % 3600 / 60, secs % 3600 % 60;
    assert secs == 60 * (60 * h + m) + rest && m < 60;
    assert secs / 60 == 60 * h + m;
  }

  lemma {:induction false} AllParts(secs: nat)
    ensures DurationParts(secs, UNITS)
            == Part(Whole(secs, 'd'), 'd') + (Part(Whole(secs % 86_400, 'h'), 'h')
               + (Part(Whole(secs % 86_400 % 3600, 'm'), 'm') + Part(secs % 86_400 % 3600 % 60, 's')))
  {
    var h, m, s := ['h', 'm', 's'], ['m', 's'], ['s'];
    assert ['d'] + h == UNITS && ['h'] + m == h && ['m'] + s == m && ['s'] + [] == s;
    FirstPart(secs, 'd', h);
    FirstPart(secs % 86_400, 'h', m);
    FirstPart(secs % 86_400 % 3600, 'm', s);
    FirstPart(secs % 86_400 % 3600 % 60, 's', []);
    var last := Part(secs % 86_400 % 3600 % 60, 's');
    assert last + [] == last;
  }

  /** A duration is printed in whole days and the hours, minutes and seconds of the day, without zero parts. */
  lemma {:induction false} HumanSecsIs(secs: nat)
    ensures secs == 0 ==> HumanSecs(secs) == "0s"
    ensures secs > 0 ==>
              HumanSecs(secs) == Join(Part(secs / 86_400, 'd') + (Part(secs / 3600 % 24, 'h')
                                      + (Part(secs / 60 % 60, 'm') + Part(secs % 60, 's'))), " ")
  {
    Clockwork(secs);
    AllParts(secs);
  }

  function Format(k: Knob, value: nat): string {
    if IsDuration(k) then HumanSecs(value) else ToDecimal(value)
  }

  // ---------------------------------------------------------------- parsing

  datatype KnobError = Invalid | TooLarge | TooSmall

  /** Seconds in `n` units; a part without a unit is in seconds. */
  function Scaled(n: nat, symbol: char): nat {
    match symbol
    case 'd' => n * 86_400
    case 'h' => n * 3600
    case 'm' => n * 60
    case _ => n
  }

  function Digits(part: string): string {
    if part != "" && part[|part| - 1] in {'s', 'm', 'h', 'd'} then part[..|part| - 1] else part
  }

  /** The seconds a part denotes, in unbounded arithmetic; `None` if its digits are not a `u64`. */
  function PartSeconds(part: string): Option<nat> {
    var n := ParseU64(Digits(part));
    if n.None? then None else Some(Scaled(n.value, if part == "" then 's' else part[|part| - 1]))
  }

  function Each<T, U>(f: T -> U, s: seq<T>): seq<U> {
    seq(|s|, i requires 0 <= i < |s| => f(s[i]))
  }

  lemma EachCons<T, U>(f: T -> U, first: T, rest: seq<T>)
    ensures Each(f, [first] + rest) == [f(first)] + Each(f, rest)
  {
    var all := [first] + rest;
    assert all[0] == first && forall i | 0 <= i < |rest| :: all[i + 1] == rest[i];
  }

  function Seconds(parts: seq<string>): seq<Option<nat>> {
    Each(PartSeconds, parts)
  }

  /** The running total of the parts, with the overflow checks of `u64`. */
  function AddParts(values: seq<Option<nat>>, total: nat): Result<nat, KnobError> {
    if values == [] then Ok(total)
    else if values[0].None? then Err(Invalid)
    else if values[0].value > U64_MAX || total + values[0].value > U64_MAX then Err(TooLarge)
    else AddParts(values[1..], total + values[0].value)
  }

  function CheckBounds(k: Knob, value: nat): Result<nat, KnobError> {
    if value > I32_MAX then Err(TooLarge) else if value < Min(k) then Err(TooSmall) else Ok(value)
  }

  function Words(input: string): seq<string> {
    SplitWhitespace(Trim(input))
  }

  function Parse(k: Knob, input: string): Result<nat, KnobError> {
    if IsDuration(k) then
      var parts := Words(input);
      if parts == [] then Err(Invalid)
      else
        var total := AddParts(Seconds(parts), 0);
        if total.Err? then total else CheckBounds(k, total.value)
    else
      match ParseU64(Trim(input))
      case None => Err(Invalid)
      case Some(n) => CheckBounds(k, n)
  }

  method ParseKnob(k: Knob, input: string) returns (r: Result<nat, KnobError>)
    ensures r == Parse(k, input)
  {
    if !IsDuration(k) {
      var n := ParseU64(Trim(input));
      return if n.None? then Err(Invalid) else CheckBounds(k, n.value);
    }
    var parts := Words(input);
    if parts == [] {
      return Err(Invalid);
    }
    var total := AddAll(parts);
    r := if total.Err? then total else CheckBounds(k, total.value);
  }

  lemma AddNext(values: seq<Option<nat>>, i: nat, total: nat)
    requires i < |values|
    ensures AddParts(values[i..], total) ==
            if values[i].None? then Err(Invalid)
            else if values[i].value > U64_MAX || total + values[i].value > U64_MAX then Err(TooLarge)
            else AddParts(values[i + 1..], total + values[i].value)
  {
    assert values[i..][1..] == values[i + 1..];
  }

  /** The accumulator loop over the parts. */
  method AddAll(parts: seq<string>) returns (r: Result<nat, KnobError>)
    ensures r == AddParts(Seconds(parts), 0)
  {
    r := AddValues(Seconds(parts));
  }

  method AddValues(values: seq<Option<nat>>) returns (r: Result<nat, KnobError>)
    ensures r == AddParts(values, 0)
  {
    var total: nat := 0;
    assert values[0..] == values;
    for i := 0 to |values|
      invariant AddParts(values, 0) == AddParts(values[i..], total)
    {
      AddNext(values, i, total);
      var seconds := values[i];
      if seconds.None? {
        return Err(Invalid);
      }
      if seconds.value > U64_MAX || total + seconds.value > U64_MAX {
        return Err(TooLarge);
      }
      total := total + seconds.value;
    }
    r := Ok(total);
  }

  // ---------------------------------------------------------------- what parsing means

  /** The sum of the parts, in unbounded arithmetic, if each of them is a number. */
  ghost function Sum(values: seq<Option<nat>>): Option<nat> {
    if values == [] then Some(0)
    else if values[0].Some? && Sum(values[1..]).Some? then Some(values[0].value + Sum(values[1..]).value)
    else None
  }

  lemma {:induction false} AddPartsIsSum(values: seq<Option<nat>>, total: nat)
    requires total <= U64_MAX
    ensures AddParts(values, total).Ok? <==> Sum(values).Some? && total + Sum(values).value <= U64_MAX
    ensures AddParts(values, total).Ok? ==> AddParts(values, total).value == total + Sum(values).value
    decreases |values|
  {
    if values != [] && values[0].Some? && total + values[0].value <= U64_MAX {
      AddPartsIsSum(values[1..], total + values[0].value);
    }
  }

  /** Seconds per unit. */
  ghost function Per(unit: char): nat {
    match unit
    case 'd' => 24 * 60 * 60
    case 'h' => 60 * 60
    case 'm' => 60
    case _ => 1
  }

  /** A part is a number followed by one of four units, or a number of seconds. */
  lemma PartMeans(part: string, digits: string, unit: char)
    ensures unit in {'s', 'm', 'h', 'd'} ==>
              var n := ParseU64(digits);
              PartSeconds(digits + [unit]) == if n.Some? then Some(n.value * Per(unit)) else None
    ensures part == "" || part[|part| - 1] !in {'s', 'm', 'h', 'd'} ==> PartSeconds(part) == ParseU64(part)
  {
    var whole := digits + [unit];
    assert whole[|whole| - 1] == unit && whole[..|whole| - 1] == digits;
  }

  /** A part that is no number makes the input invalid unless the total has overflowed before it. */
  lemma {:induction false} AddPartsInvalid(values: seq<Option<nat>>, total: nat)
    requires total <= U64_MAX
    ensures AddParts(values, total) == Err(Invalid) <==>
            exists i | 0 <= i < |values| :: values[i].None? && Sum(values[..i]).Some?
                                            && total + Sum(values[..i]).value <= U64_MAX
    decreases |values|
  {
    if values != [] {
      if values[0].None? {
        assert Sum(values[..0]) == Some(0);
      } else {
        var v, rest := values[0].value, values[1..];
        forall i | 1 <= i <= |values|
          ensures Sum(values[..i]) == if Sum(rest[..i - 1]).Some? then Some(v + Sum(rest[..i - 1]).value) else None
        {
          assert values[..i][1..] == rest[..i - 1];
        }
        if total + v <= U64_MAX {
          AddPartsInvalid(rest, total + v);
          if AddParts(rest, total + v) == Err(Invalid) {
            var i :| 0 <= i < |rest| && rest[i].None? && Sum(rest[..i]).Some?
                     && total + v + Sum(rest[..i]).value <= U64_MAX;
            assert values[i + 1].None? && Sum(values[..i + 1]) == Some(v + Sum(rest[..i]).value);
          }
        }
      }
    }
  }

  /** Exactly which inputs are called invalid; whatever else is refused is too large or too small. */
  lemma {:induction false} InvalidMeans(k: Knob, input: string)
    ensures IsDuration(k) ==>
              (Parse(k, input) == Err(Invalid) <==>
               var values := Seconds(Words(input));
               values == [] || exists i | 0 <= i < |values| :: values[i].None? && Sum(values[..i]).Some?
                                                               && Sum(values[..i]).value <= U64_MAX)
    ensures !IsDuration(k) ==> (Parse(k, input) == Err(Invalid) <==> ParseU64(Trim(input)).None?)
  {
    AddPartsInvalid(Seconds(Words(input)), 0);
  }

  /**
   Exactly the inputs made of number parts are accepted, with exactly their sum:
   no intermediate step wraps around or cuts a value off.
   */
  lemma ParseIsExact(k: Knob, input: string, v: nat)
    requires IsDuration(k)
    ensures Parse(k, input) == Ok(v)
            <==> Words(input) != [] && Sum(Seconds(Words(input))) == Some(v) && Min(k) <= v <= I32_MAX
  {
    AddPartsIsSum(Seconds(Words(input)), 0);
  }

  /** A count is one number, without a unit and within bounds. */
  lemma ParseCountIsExact(k: Knob, input: string, v: nat)
    requires !IsDuration(k)
    ensures Parse(k, input) == Ok(v) <==> ParseU64(Trim(input)) == Some(v) && Min(k) <= v <= I32_MAX
  {}

  lemma {:induction false} AddPartsErrors(values: seq<Option<nat>>, total: nat)
    ensures AddParts(values, total) != Err(TooSmall)
    decreases |values|
  {
    if values != [] && values[0].Some? {
      AddPartsErrors(values[1..], total + values[0].value);
    }
  }

  /** Only a zero duration is too small, and only for a knob that must not be zero. */
  lemma TooSmallMeans(k: Knob, input: string)
    requires IsDuration(k)
    ensures Parse(k, input) == Err(TooSmall)
            <==> k != RateLimitDelay && Words(input) != [] && Sum(Seconds(Words(input))) == Some(0)
  {
    AddPartsIsSum(Seconds(Words(input)), 0);
    AddPartsErrors(Seconds(Words(input)), 0);
  }

  // ---------------------------------------------------------------- printing, then parsing

  predicate IsUnit(symbol: char) {
    symbol == 'd' || symbol == 'h' || symbol == 'm' || symbol == 's'
  }

  lemma PartIsWord(digits: string, symbol: char)
    requires AllDigits(digits) && IsUnit(symbol)
    ensures IsWord(digits + [symbol])
  {
    var part := digits + [symbol];
    assert forall i | 0 <= i < |part| :: if i < |digits| then IsDigit(part[i]) else IsUnit(part[i]);
  }

  lemma PartValue(digits: string, symbol: char, n: nat)
    requires ParseU64(digits) == Some(n) && IsUnit(symbol)
    ensures PartSeconds(digits + [symbol]) == Some(Scaled(n, symbol))
  {
    var part := digits + [symbol];
    assert part[|part| - 1] == symbol && part[..|part| - 1] == digits;
    assert Digits(part) == digits;
  }

  /** What a part `n` with a unit of the table denotes. */
  lemma PartDenotes(n: nat, symbol: char)
    requires IsUnit(symbol) && n <= U64_MAX
    ensures var part := ToDecimal(n) + [symbol]; IsWord(part) && PartSeconds(part) == Some(Scaled(n, symbol))
  {
    DecimalRoundTrip(n);
    PartIsWord(ToDecimal(n), symbol);
    PartValue(ToDecimal(n), symbol, n);
  }

  lemma {:induction false} SumCons(first: nat, values: seq<Option<nat>>, rest: nat)
    requires Sum(values) == Some(rest)
    ensures Sum([Some(first)] + values) == Some(first + rest)
  {
    assert ([Some(first)] + values)[1..] == values;
  }

  lemma {:induction false} SumOfFirst(part: string, tail: seq<string>, first: nat, rest: nat)
    requires PartSeconds(part) == Some(first) && Sum(Seconds(tail)) == Some(rest)
    ensures Sum(Seconds([part] + tail)) == Some(first + rest)
  {
    EachCons(PartSeconds, part, tail);
    SumCons(first, Seconds(tail), rest);
  }

  lemma {:induction false} PartsSumBack(rest: nat, units: string)
    requires rest <= U64_MAX && (units == "" ==> rest == 0) && (units != "" ==> units[|units| - 1] == 's')
    requires forall i | 0 <= i < |units| :: IsUnit(units[i])
    ensures Sum(Seconds(DurationParts(rest, units))) == Some(rest)
    decreases |units|
  {
    if units != "" {
      var u := units[0];
      if Whole(rest, u) > 0 {
        PartDenotes(Whole(rest, u), u);
        PartsSumBack(Left(rest, u), units[1..]);
        SumOfFirst(ToDecimal(Whole(rest, u)) + [u], DurationParts(Left(rest, u), units[1..]),
                   Scaled(Whole(rest, u), u), Left(rest, u));
        Divided(rest, u);
      } else {
        PartsSumBack(rest, units[1..]);
      }
    }
  }

  lemma Divided(rest: nat, u: char)
    ensures Scaled(Whole(rest, u), u) + Left(rest, u) == rest
  {}

  lemma {:induction false} PartsAreWords(rest: nat, units: string)
    requires rest <= U64_MAX && forall i | 0 <= i < |units| :: IsUnit(units[i])
    ensures AllWords(DurationParts(rest, units))
    decreases |units|
  {
    if units != "" {
      PartDenotes(Whole(rest, units[0]), units[0]);
      PartsAreWords(Left(rest, units[0]), units[1..]);
      PartsAreWords(rest, units[1..]);
    }
  }

  /** A joined list of words starts and ends with a word's character, so trimming changes nothing. */
  lemma {:induction false} JoinedIsTrimmed(ws: seq<string>)
    requires AllWords(ws)
    ensures Trim(Join(ws, " ")) == Join(ws, " ")
    ensures ws != [] ==> var s := Join(ws, " "); s != "" && !IsWhitespace(s[0]) && !IsWhitespace(s[|s| - 1])
    decreases |ws|
  {
    if ws != [] {
      assert IsWord(ws[0]);
      if |ws| > 1 {
        JoinedIsTrimmed(ws[1..]);
        assert AllWords(ws[1..]);
      }
    }
  }

  lemma {:induction false} PrintedPartsNonEmpty(rest: nat, units: string)
    requires rest > 0 && units != "" && units[|units| - 1] == 's'
    ensures DurationParts(rest, units) != []
    decreases |units|
  {
    if Whole(rest, units[0]) == 0 && |units| > 1 {
      PrintedPartsNonEmpty(rest, units[1..]);
    }
  }

  lemma {:induction false} ZeroSumsBack()
    ensures AllWords(["0s"]) && Sum(Seconds(["0s"])) == Some(0)
  {
    PartDenotes(0, 's');
    assert ToDecimal(0) + ['s'] == "0s";
    assert Seconds([]) == [];
    SumOfFirst("0s", [], 0, 0);
    assert ["0s"] + [] == ["0s"];
  }

  /** Parts that sum to a value parse to it, once joined. */
  lemma {:induction false} ParseJoined(k: Knob, parts: seq<string>, v: nat)
    requires IsDuration(k) && parts != [] && AllWords(parts) && Sum(Seconds(parts)) == Some(v) && Min(k) <= v <= I32_MAX
    ensures Parse(k, Join(parts, " ")) == Ok(v)
  {
    JoinedIsTrimmed(parts);
    SplitJoin(parts);
    ParseIsExact(k, Join(parts, " "), v);
  }

  /** A printed value parses back to itself, for every knob and every value it can have. */
  lemma {:induction false} ParseFormat(k: Knob, v: nat)
    requires Min(k) <= v <= I32_MAX
    ensures Parse(k, Format(k, v)) == Ok(v)
  {
    if !IsDuration(k) {
      DecimalRoundTrip(v);
      var s := ToDecimal(v);
      assert IsDigit(s[0]) && IsDigit(s[|s| - 1]);
      assert Trim(s) == s;
    } else if v == 0 {
      ZeroSumsBack();
      ParseJoined(k, ["0s"], 0);
    } else {
      PartsSumBack(v, UNITS);
      PartsAreWords(v, UNITS);
      PrintedPartsNonEmpty(v, UNITS);
      ParseJoined(k, DurationParts(v, UNITS), v);
    }
  }

  // ---------------------------------------------------------------- to the server and back

  /** The body the client sends for one knob. */
  function Request(k: Knob, v: nat): PatchRequest {
    match k
    case MaxConcurrentDownloads => EMPTY_REQUEST.(maxConcurrentDownloads := Some(Some(v)))
    case MaxIndexersPerTick => EMPTY_REQUEST.(maxIndexersPerTick := Some(Some(v)))
    case RateLimitDelay => EMPTY_REQUEST.(rateLimitDelaySecs := Some(Some(v)))
    case CheckInterval => EMPTY_REQUEST.(checkIntervalSecs := Some(Some(v)))
    case CleanupInterval => EMPTY_REQUEST.(cleanupIntervalSecs := Some(Some(v)))
    case DrainTimeout => EMPTY_REQUEST.(drainTimeoutSecs := Some(Some(v)))
  }

  function Get(k: Knob, s: EffectiveSettings): Resolved {
    match k
    case MaxConcurrentDownloads => s.maxConcurrentDownloads
    case MaxIndexersPerTick => s.maxIndexersPerTick
    case RateLimitDelay => s.rateLimitDelaySecs
    case CheckInterval => s.checkIntervalSecs
    case CleanupInterval => s.cleanupIntervalSecs
    case DrainTimeout => s.drainTimeoutSecs
  }

  /** The editor's bounds are the server's: whatever it lets through is accepted, and nothing more would be. */
  lemma EditorAndServerAgree(k: Knob, v: nat)
    ensures CheckBounds(k, v) == Ok(v) <==> ValidatePatch(Request(k, v)).Ok?
  {}

  /**
   Any input the editor accepts becomes the knob's value, with provenance
   `Database`, and no other setting changes; shown in the editor again it parses
   to the same value.
   */
  lemma AcceptedInputTakesEffect(k: Knob, input: string, row: SettingsRow, env: EnvOverrides)
    requires Parse(k, input).Ok? && RowInBounds(row)
    ensures var v := Parse(k, input).value; var patch := ValidatePatch(Request(k, v));
            && patch.Ok?
            && var was, after := Resolve(row, env), Resolve(ApplyPatch(row, patch.value), env);
               && Get(k, after) == Resolved(v, Database)
               && (forall other: Knob | other != k :: Get(other, after) == Get(other, was))
               && after.indexingPausedUntil == was.indexingPausedUntil
               && after.downloadsPausedUntil == was.downloadsPausedUntil
               && Parse(k, Format(k, Get(k, after).value)) == Ok(v)
  {
    var v := Parse(k, input).value;
    EditorAndServerAgree(k, v);
    RequestTakesEffect(k, v, row, env);
    ParseFormat(k, v);
  }

  lemma RequestTakesEffect(k: Knob, v: nat, row: SettingsRow, env: EnvOverrides)
    requires ValidatePatch(Request(k, v)).Ok? && RowInBounds(row)
    ensures var was, after := Resolve(row, env), Resolve(ApplyPatch(row, ValidatePatch(Request(k, v)).value), env);
            && Get(k, after) == Resolved(v, Database)
            && (forall other: Knob | other != k :: Get(other, after) == Get(other, was))
            && after.indexingPausedUntil == was.indexingPausedUntil
            && after.downloadsPausedUntil == was.downloadsPausedUntil
  {
    ValidPatchesTakeEffect(Request(k, v), row, env);
  }
}
