/** String operations of the Rust standard library, on sequences of characters. */
module Text {
  import opened Outcomes

  // ---------------------------------------------------------------- characters

  /** The Unicode `White_Space` property, which `trim` and `split_whitespace` use. */
  predicate IsWhitespace(c: char) {
    var n := c as int;
    || 0x09 <= n <= 0x0D || n == 0x20 || n == 0x85 || n == 0xA0 || n == 0x1680
    || 0x2000 <= n <= 0x200A || n == 0x2028 || n == 0x2029 || n == 0x202F || n == 0x205F || n == 0x3000
  }

  /** The Unicode `Cc` category, which `char::is_control` uses. */
  predicate IsControl(c: char) {
    var n := c as int;
    n <= 0x1F || 0x7F <= n <= 0x9F
  }

  /** ASCII case folding of one character; every other character is itself. */
  function LowerChar(c: char): char {
    if 'A' <= c <= 'Z' then ((c as int) + 32) as char else c
  }

  function Lower(s: string): string {
    seq(|s|, i requires 0 <= i < |s| => LowerChar(s[i]))
  }

  // ---------------------------------------------------------------- substrings

  predicate StartsWith(s: string, prefix: string) {
    prefix <= s
  }

  predicate EndsWith(s: string, suffix: string) {
    |suffix| <= |s| && s[|s| - |suffix|..] == suffix
  }

  predicate Contains(s: string, part: string) {
    exists i | 0 <= i <= |s| :: part <= s[i..]
  }

  /** `str::replace`: leftmost occurrences first, never overlapping. */
  function Replace(s: string, from: string, to: string): string
    requires from != ""
  {
    if s == "" then ""
    else if from <= s then to + Replace(s[|from|..], from, to)
    else [s[0]] + Replace(s[1..], from, to)
  }

  /** `str::split` on one character: always at least one piece. */
  function SplitOn(s: string, sep: char): (r: seq<string>)
    ensures |r| >= 1
  {
    if s == "" then [""]
    else if s[0] == sep then [""] + SplitOn(s[1..], sep)
    else
      var rest := SplitOn(s[1..], sep);
      [[s[0]] + rest[0]] + rest[1..]
  }

  lemma {:induction false} SplitNothing(s: string, sep: char)
    requires sep !in s
    ensures SplitOn(s, sep) == [s]
  {
    if s != "" {
      SplitNothing(s[1..], sep);
      assert [s[0]] + s[1..] == s;
    }
  }

  function Join(parts: seq<string>, sep: string): string {
    if parts == [] then ""
    else if |parts| == 1 then parts[0]
    else parts[0] + sep + Join(parts[1..], sep)
  }

  // ---------------------------------------------------------------- white space

  function TrimStart(s: string): string {
    if s != "" && IsWhitespace(s[0]) then TrimStart(s[1..]) else s
  }

  function TrimEnd(s: string): string {
    if s != "" && IsWhitespace(s[|s| - 1]) then TrimEnd(s[..|s| - 1]) else s
  }

  function Trim(s: string): string {
    TrimEnd(TrimStart(s))
  }

  lemma {:induction false} TrimStartMeans(s: string, i: nat)
    requires i <= |s| && (forall k | 0 <= k < i :: IsWhitespace(s[k])) && (i < |s| ==> !IsWhitespace(s[i]))
    ensures TrimStart(s) == s[i..]
    decreases i
  {
    if i > 0 {
      TrimStartMeans(s[1..], i - 1);
      assert s[1..][i - 1..] == s[i..];
    }
  }

  lemma {:induction false} TrimEndMeans(s: string, j: nat)
    requires j <= |s| && (forall k | j <= k < |s| :: IsWhitespace(s[k])) && (j > 0 ==> !IsWhitespace(s[j - 1]))
    ensures TrimEnd(s) == s[..j]
    decreases |s|
  {
    if j < |s| {
      TrimEndMeans(s[..|s| - 1], j);
      assert s[..|s| - 1][..j] == s[..j];
    }
  }

  /** Trimming cuts the white space at both ends and nothing else; of blank text nothing is left. */
  lemma {:induction false} TrimMeans(s: string, i: nat, j: nat)
    requires i <= j <= |s| && forall k | 0 <= k < i || j <= k < |s| :: IsWhitespace(s[k])
    requires i < j ==> !IsWhitespace(s[i]) && !IsWhitespace(s[j - 1])
    ensures Trim(s) == s[i..j]
  {
    if i < j {
      TrimStartMeans(s, i);
      TrimEndMeans(s[i..], j - i);
    } else {
      TrimStartMeans(s, |s|);
    }
  }

  /** A piece `split_whitespace` can yield. */
  ghost predicate IsWord(w: string) {
    w != "" && forall i | 0 <= i < |w| :: !IsWhitespace(w[i])
  }

  ghost predicate AllWords(ws: seq<string>) {
    forall i | 0 <= i < |ws| :: IsWord(ws[i])
  }

  function SplitWhitespace(s: string): seq<string> {
    WordsFrom(s, "")
  }

  /** The words of `pending + s`, where `pending` is the word read so far. */
  function WordsFrom(s: string, pending: string): seq<string>
    decreases |s|
  {
    if s == "" then (if pending == "" then [] else [pending])
    else if IsWhitespace(s[0]) then
      (if pending == "" then [] else [pending]) + WordsFrom(s[1..], "")
    else WordsFrom(s[1..], pending + [s[0]])
  }

  lemma {:induction false} WordsAreWords(s: string, pending: string)
    requires forall i | 0 <= i < |pending| :: !IsWhitespace(pending[i])
    ensures AllWords(WordsFrom(s, pending))
    decreases |s|
  {
    if s != "" {
      WordsAreWords(s[1..], if IsWhitespace(s[0]) then "" else pending + [s[0]]);
    }
  }

  lemma {:induction false} ReadWord(w: string, rest: string, pending: string)
    requires forall i | 0 <= i < |w| :: !IsWhitespace(w[i])
    ensures WordsFrom(w + rest, pending) == WordsFrom(rest, pending + w)
    decreases |w|
  {
    if w == "" {
      assert w + rest == rest && pending + w == pending;
    } else {
      assert (w + rest)[0] == w[0] && (w + rest)[1..] == w[1..] + rest;
      ReadWord(w[1..], rest, pending + [w[0]]);
      assert pending + [w[0]] + w[1..] == pending + w;
    }
  }

  /** Words are read off one by one: white space in front is skipped, and each word ends before white space. */
  lemma {:induction false} SplitReadsOff(w: string, c: char, rest: string)
    requires IsWord(w) && IsWhitespace(c)
    ensures SplitWhitespace("") == [] && SplitWhitespace(w) == [w]
    ensures SplitWhitespace([c] + rest) == SplitWhitespace(rest)
    ensures SplitWhitespace(w + ([c] + rest)) == [w] + SplitWhitespace(rest)
  {
    ReadWord(w, "", "");
    ReadWord(w, [c] + rest, "");
    assert w + "" == w && "" + w == w && ([c] + rest)[1..] == rest;
  }

  /** Joining words with single spaces is undone by splitting on white space. */
  lemma {:induction false} SplitJoin(ws: seq<string>)
    requires AllWords(ws)
    ensures SplitWhitespace(Join(ws, " ")) == ws
    decreases |ws|
  {
    if |ws| == 1 {
      ReadWord(ws[0], "", "");
      assert ws[0] + "" == ws[0] && "" + ws[0] == ws[0];
    } else if |ws| > 1 {
      var tail := Join(ws[1..], " ");
      assert Join(ws, " ") == ws[0] + (" " + tail);
      ReadWord(ws[0], " " + tail, "");
      assert (" " + tail)[1..] == tail && "" + ws[0] == ws[0];
      SplitJoin(ws[1..]);
      assert ws == [ws[0]] + ws[1..];
    }
  }

  // ---------------------------------------------------------------- decimal numbers

  const U64_MAX: nat := 0xFFFF_FFFF_FFFF_FFFF
  const I32_MAX: nat := 0x7FFF_FFFF

  predicate IsDigit(c: char) {
    '0' <= c <= '9'
  }

  predicate AllDigits(s: string) {
    forall i | 0 <= i < |s| :: IsDigit(s[i])
  }

  function DigitChar(d: nat): char
    requires d < 10
  {
    (d + '0' as int) as char
  }

  /** `u64::to_string`. */
  function ToDecimal(n: nat): string {
    if n < 10 then [DigitChar(n)] else ToDecimal(n / 10) + [DigitChar(n % 10)]
  }

  function DecimalValue(s: string): nat
    requires AllDigits(s)
  {
    if s == "" then 0 else 10 * DecimalValue(s[..|s| - 1]) + (s[|s| - 1] as int - '0' as int)
  }

  /** `str::parse::<u64>`: one optional `+`, then at least one digit, then the range check. */
  function ParseU64(s: string): Option<nat> {
    var digits := if s != "" && s[0] == '+' then s[1..] else s;
    if digits == "" || !AllDigits(digits) then None
    else if DecimalValue(digits) > U64_MAX then None
    else Some(DecimalValue(digits))
  }

  lemma {:induction false} DecimalRoundTrip(n: nat)
    ensures ToDecimal(n) != "" && AllDigits(ToDecimal(n)) && DecimalValue(ToDecimal(n)) == n
    ensures n <= U64_MAX ==> ParseU64(ToDecimal(n)) == Some(n)
  {
    if n >= 10 {
      DecimalRoundTrip(n / 10);
      var s := ToDecimal(n);
      assert s[..|s| - 1] == ToDecimal(n / 10);
    }
  }

  function Zeros(k: nat): string {
    seq(k, i requires 0 <= i < k => '0')
  }

  lemma {:induction false} LeadingZeros(k: nat, n: nat)
    ensures AllDigits(Zeros(k) + ToDecimal(n)) && DecimalValue(Zeros(k) + ToDecimal(n)) == n
    decreases n, k
  {
    DecimalRoundTrip(n);
    var s := Zeros(k) + ToDecimal(n);
    if n >= 10 {
      LeadingZeros(k, n / 10);
      assert s[..|s| - 1] == Zeros(k) + ToDecimal(n / 10);
    } else if k > 0 {
      LeadingZeros(k - 1, 0);
      assert s[..|s| - 1] == Zeros(k) == Zeros(k - 1) + ToDecimal(0);
    } else {
      assert s[..|s| - 1] == "";
    }
  }

  lemma {:induction false} DigitsAreDecimal(s: string) returns (k: nat)
    requires s != "" && AllDigits(s)
    ensures s == Zeros(k) + ToDecimal(DecimalValue(s))
    decreases |s|
  {
    var t, d := s[..|s| - 1], s[|s| - 1];
    k := 0;
    if t == "" {
      assert s == [d];
    } else {
      k := DigitsAreDecimal(t);
      if DecimalValue(t) == 0 {
        assert t == Zeros(k + 1);
        k := k + 1;
      } else {
        assert ToDecimal(DecimalValue(s)) == ToDecimal(DecimalValue(t)) + [d];
      }
    }
  }

  /** A number in decimal, with any number of zeros and at most one `+` in front. */
  ghost predicate Denotes(s: string, n: nat) {
    exists k: nat :: s == Zeros(k) + ToDecimal(n) || s == "+" + (Zeros(k) + ToDecimal(n))
  }

  lemma {:induction false} DigitsParse(digits: string)
    requires digits != "" && AllDigits(digits) && DecimalValue(digits) <= U64_MAX
    ensures ParseU64(digits) == ParseU64("+" + digits) == Some(DecimalValue(digits))
  {
    assert IsDigit(digits[0]);
    assert ("+" + digits)[1..] == digits;
  }

  lemma {:induction false} DenotedParses(s: string, n: nat)
    requires Denotes(s, n) && n <= U64_MAX
    ensures ParseU64(s) == Some(n)
  {
    var k: nat :| s == Zeros(k) + ToDecimal(n) || s == "+" + (Zeros(k) + ToDecimal(n));
    LeadingZeros(k, n);
    DecimalRoundTrip(n);
    DigitsParse(Zeros(k) + ToDecimal(n));
  }

  lemma {:induction false} ParsedDenotes(s: string, n: nat)
    requires ParseU64(s) == Some(n)
    ensures Denotes(s, n) && n <= U64_MAX
  {
    var digits := if s[0] == '+' then s[1..] else s;
    var k := DigitsAreDecimal(digits);
    assert s == digits || s == "+" + digits;
  }

  /** Exactly these texts parse, to that number, if it fits. */
  lemma {:induction false} ParseU64Iff(s: string, n: nat)
    ensures ParseU64(s) == Some(n) <==> Denotes(s, n) && n <= U64_MAX
  {
    if ParseU64(s) == Some(n) {
      ParsedDenotes(s, n);
    }
    if Denotes(s, n) && n <= U64_MAX {
      DenotedParses(s, n);
    }
  }
}
