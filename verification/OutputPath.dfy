/**
 Rendering a user's naming template to a relative output path
 (`render_output_relative_path`, `sanitize_filename_component` in `ytdlp.rs`).
 The path is the sequence of its components.
 */
module OutputPath {
  import opened Text

  // ---------------------------------------------------------------- safe components

  predicate IsReserved(c: char) {
    c in {'/', '\\', ':', '*', '?', '"', '<', '>', '|'}
  }

  function SanitizeChar(c: char): char {
    if IsReserved(c) || IsControl(c) then '_' else c
  }

  function SanitizeChars(s: string): string {
    seq(|s|, i requires 0 <= i < |s| => SanitizeChar(s[i]))
  }

  /** `sanitize_filename_component`. */
  function Sanitize(s: string): string {
    Trim(SanitizeChars(s))
  }

  ghost predicate Clean(s: string) {
    forall i | 0 <= i < |s| :: !IsReserved(s[i]) && !IsControl(s[i])
  }

  /** A component that names one file or directory below its parent. */
  ghost predicate SafeComponent(s: string) {
    Clean(s) && s != "" && s != "." && s != ".."
  }

  ghost predicate AllSafe(segments: seq<string>) {
    forall i | 0 <= i < |segments| :: SafeComponent(segments[i])
  }

  lemma {:induction false} TrimmedIsSlice(s: string)
    ensures exists i, j :: 0 <= i <= j <= |s| && Trim(s) == s[i..j]
  {
    var i := TrimmedStart(s);
    var j := TrimmedEnd(s[i..]);
    assert s[i..][..j] == s[i..i + j];
  }

  lemma {:induction false} TrimmedStart(s: string) returns (i: nat)
    ensures i <= |s| && TrimStart(s) == s[i..]
  {
    i := 0;
    if s != "" && IsWhitespace(s[0]) {
      i := TrimmedStart(s[1..]);
      i := i + 1;
    }
  }

  lemma {:induction false} TrimmedEnd(s: string) returns (j: nat)
    ensures j <= |s| && TrimEnd(s) == s[..j]
  {
    j := |s|;
    if s != "" && IsWhitespace(s[|s| - 1]) {
      j := TrimmedEnd(s[..|s| - 1]);
      assert s[..|s| - 1][..j] == s[..j];
    }
  }

  lemma SanitizedIsClean(s: string)
    ensures Clean(Sanitize(s))
  {
    TrimmedIsSlice(SanitizeChars(s));
  }

  ghost predicate Tight(s: string) {
    s != "" ==> !IsWhitespace(s[0]) && !IsWhitespace(s[|s| - 1])
  }

  lemma {:induction false} TrimmedIsTight(s: string)
    ensures Tight(Trim(s))
  {
    StartIsTight(s);
    EndIsTight(TrimStart(s));
  }

  lemma {:induction false} StartIsTight(s: string)
    ensures TrimStart(s) != "" ==> !IsWhitespace(TrimStart(s)[0])
  {
    if s != "" && IsWhitespace(s[0]) {
      StartIsTight(s[1..]);
    }
  }

  lemma {:induction false} EndIsTight(s: string)
    requires s != "" ==> !IsWhitespace(s[0])
    ensures Tight(TrimEnd(s))
  {
    if s != "" && IsWhitespace(s[|s| - 1]) {
      EndIsTight(s[..|s| - 1]);
    }
  }

  lemma TightIsTrimmed(s: string)
    requires Tight(s)
    ensures Trim(s) == s
  {}

  /** Sanitizing a trimmed text keeps its length, so it can neither vanish nor become a dot component. */
  lemma SanitizeTight(s: string)
    requires Tight(s)
    ensures Sanitize(s) == SanitizeChars(s)
    ensures s != "" && s != "." && s != ".." ==> SafeComponent(Sanitize(s))
    ensures Clean(s) ==> Sanitize(s) == s
  {
    var t := SanitizeChars(s);
    assert Tight(t);
    TightIsTrimmed(t);
    SanitizedIsClean(s);
    if t == "." {
      assert s[0] == '.';
    }
    if t == ".." {
      assert s[0] == '.' && s[1] == '.';
      assert s == "..";
    }
    if Clean(s) {
      assert t == s;
    }
  }

  // ---------------------------------------------------------------- from the template to components

  datatype Names = Names(title: string, id: string, source: string, year: string, seasonEpisode: string)

  function Braced(name: string): string {
    "{{" + name + "}}"
  }

  predicate DoubleBraced(pattern: string) {
    |pattern| >= 2 && pattern[0] == '{' && pattern[1] == '{'
  }

  /** Double-brace placeholders go first, or `{ext}` would match inside `{{ext}}`. */
  function DoubleBraces(n: Names, ext: string): (r: seq<(string, string)>)
    ensures forall i | 0 <= i < |r| :: DoubleBraced(r[i].0)
  {
    [(Braced(" ext "), ext), (Braced("ext"), ext),
     (Braced(" title "), n.title), (Braced("title"), n.title),
     (Braced(" id "), n.id), (Braced("id"), n.id),
     (Braced(" year "), n.year), (Braced("year"), n.year),
     (Braced(" source_custom_name/or default "), n.source), (Braced("source_custom_name/or default"), n.source),
     (Braced(" source_custom_name_or_default "), n.source), (Braced("source_custom_name_or_default"), n.source),
     (Braced(" season_by_year__episode_by_date_and_index "), n.seasonEpisode),
     (Braced("season_by_year__episode_by_date_and_index"), n.seasonEpisode)]
  }

  function SingleBraces(n: Names, ext: string): (r: seq<(string, string)>)
    ensures forall i | 0 <= i < |r| :: r[i].0 != ""
  {
    [("{title}", n.title), ("{id}", n.id), ("{year}", n.year), ("{ext}", ext), ("%(ext)s", ext)]
  }

  function Substitutions(n: Names, ext: string): (r: seq<(string, string)>)
    ensures forall i | 0 <= i < |r| :: r[i].0 != ""
  {
    DoubleBraces(n, ext) + SingleBraces(n, ext)
  }

  function Substitute(template: string, subs: seq<(string, string)>): string
    requires forall i | 0 <= i < |subs| :: subs[i].0 != ""
    decreases |subs|
  {
    if subs == [] then template
    else Substitute(Replace(template, subs[0].0, subs[0].1), subs[1..])
  }

  /** The components of a rendered template: trimmed, without empty and dot components, sanitized. */
  function Components(pieces: seq<string>): seq<string> {
    if pieces == [] then []
    else
      var piece := Trim(pieces[0]);
      var rest := Components(pieces[1..]);
      if piece == "" || piece == "." || piece == ".." || Sanitize(piece) == "" then rest else [Sanitize(piece)] + rest
  }

  lemma {:induction false} ComponentsAreSafe(pieces: seq<string>)
    ensures AllSafe(Components(pieces))
  {
    if pieces != [] {
      TrimmedIsTight(pieces[0]);
      SanitizeTight(Trim(pieces[0]));
      ComponentsAreSafe(pieces[1..]);
    }
  }

  // ---------------------------------------------------------------- the extension

  /** Container extensions are lower-case letters and digits (`mkv`, `mp4`). */
  predicate ValidExt(ext: string) {
    ext != "" && forall i | 0 <= i < |ext| :: 'a' <= ext[i] <= 'z' || '0' <= ext[i] <= '9'
  }

  function LastDot(s: string): (k: nat)
    ensures k <= |s| && (k < |s| ==> s[k] == '.') && forall i | k < i < |s| :: s[i] != '.'
    ensures k == |s| ==> '.' !in s
  {
    if '.' !in s then |s| else if s[|s| - 1] == '.' then |s| - 1 else LastDot(s[..|s| - 1])
  }

  /** `Path::extension` compared without ASCII case; a leading dot starts no extension. */
  predicate HasExtension(s: string, ext: string) {
    var k := LastDot(s);
    0 < k < |s| && Lower(s[k + 1..]) == Lower(ext)
  }

  predicate EndsWithFolded(s: string, suffix: string) {
    EndsWith(Lower(s), Lower(suffix))
  }

  predicate Doubled(s: string, ext: string) {
    EndsWithFolded(s, "." + ext + "." + ext)
  }

  /** Drop one extension for as long as it is doubled. */
  function Undouble(s: string, ext: string): string
    decreases |s|
  {
    if Doubled(s, ext) && |s| >= |ext| + 1 then Undouble(s[..|s| - (|ext| + 1)], ext) else s
  }

  function WithExtension(s: string, ext: string): string {
    Undouble(if HasExtension(s, ext) then s else s + "." + ext, ext)
  }

  function TrimDots(s: string): string {
    if s != "" && s[|s| - 1] == '.' then TrimDots(s[..|s| - 1]) else s
  }

  lemma FoldedSuffix(s: string, suffix: string)
    ensures EndsWithFolded(s, suffix) <==> |suffix| <= |s| && Lower(s[|s| - |suffix|..]) == Lower(suffix)
  {
    if |suffix| <= |s| {
      assert Lower(s)[|s| - |suffix|..] == Lower(s[|s| - |suffix|..]);
    }
  }

  lemma DoubledIsTwice(s: string, ext: string)
    requires Doubled(s, ext)
    ensures |s| >= 2 * (|ext| + 1) && EndsWithFolded(s[..|s| - (|ext| + 1)], "." + ext)
  {
    var n, one, two := |ext| + 1, "." + ext, "." + ext + "." + ext;
    FoldedSuffix(s, two);
    var front := s[..|s| - n];
    FoldedSuffix(front, one);
    assert front[|front| - n..] == s[|s| - 2 * n..][..n];
    assert Lower(s[|s| - 2 * n..])[..n] == Lower(two)[..n];
    assert Lower(front[|front| - n..]) == Lower(s[|s| - 2 * n..])[..n];
    assert Lower(two)[..n] == Lower(one);
  }

  /** What is left carries the extension once, and is what was there with only extensions cut off. */
  lemma {:induction false} UndoubleEnds(s: string, ext: string)
    requires EndsWithFolded(s, "." + ext)
    ensures var r := Undouble(s, ext);
            EndsWithFolded(r, "." + ext) && !Doubled(r, ext) && r <= s
    decreases |s|
  {
    if Doubled(s, ext) {
      DoubledIsTwice(s, ext);
      UndoubleEnds(s[..|s| - (|ext| + 1)], ext);
    }
  }

  lemma ExtensionEnds(s: string, ext: string)
    ensures EndsWithFolded(if HasExtension(s, ext) then s else s + "." + ext, "." + ext)
  {
    if HasExtension(s, ext) {
      var k := LastDot(s);
      FoldedSuffix(s, "." + ext);
      assert |s[k + 1..]| == |Lower(s[k + 1..])| == |ext|;
      assert Lower(s[k..])[0] == '.' && Lower(s[k..])[1..] == Lower(s[k + 1..]);
      assert Lower("." + ext)[0] == '.' && Lower("." + ext)[1..] == Lower(ext);
      assert Lower(s[k..]) == Lower("." + ext);
      assert k == |s| - |"." + ext|;
    } else {
      var t := s + "." + ext;
      FoldedSuffix(t, "." + ext);
      assert t[|t| - |"." + ext|..] == "." + ext;
    }
  }

  lemma EndsInExtIsNoDots(s: string, ext: string)
    requires ValidExt(ext) && EndsWithFolded(s, "." + ext)
    ensures s != "" && s != "." && s != ".."
  {
    FoldedSuffix(s, "." + ext);
    var tail := s[|s| - |"." + ext|..];
    assert Lower(tail)[|ext|] == Lower("." + ext)[|ext|] == LowerChar(ext[|ext| - 1]) != '.';
    assert LowerChar(s[|s| - 1]) != '.';
  }

  lemma WithExtensionIsSafe(s: string, ext: string)
    requires Clean(s) && ValidExt(ext)
    ensures var r := WithExtension(s, ext);
            SafeComponent(r) && EndsWithFolded(r, "." + ext) && !Doubled(r, ext)
  {
    var t := if HasExtension(s, ext) then s else s + "." + ext;
    ExtensionEnds(s, ext);
    UndoubleEnds(t, ext);
    ExtendedIsClean(s, ext);
    EndsInExtIsNoDots(Undouble(t, ext), ext);
  }

  lemma ExtendedIsClean(s: string, ext: string)
    requires Clean(s) && ValidExt(ext)
    ensures Clean(s + "." + ext)
  {}

  lemma {:induction false} TrimDotsIsSafe(s: string)
    requires Clean(s)
    ensures TrimDots(s) != "" ==> SafeComponent(TrimDots(s))
    ensures TrimDots(s) <= s && (TrimDots(s) != "" ==> TrimDots(s)[|TrimDots(s)| - 1] != '.')
  {
    if s != "" && s[|s| - 1] == '.' {
      TrimDotsIsSafe(s[..|s| - 1]);
    }
  }

  // ---------------------------------------------------------------- the whole rendering

  function Fallback(n: Names, ext: string, forced: bool): string {
    if forced then n.title + "-" + n.id + "." + ext else n.title + "-" + n.id
  }

  /** The components before the last one is finished. */
  function Segments(template: string, n: Names, ext: string, forced: bool): seq<string> {
    var raw := Substitute(template, Substitutions(n, if forced then ext else ""));
    var rendered := if Trim(raw) == "" then Fallback(n, ext, forced) else raw;
    var segments := Components(SplitOn(Replace(rendered, "\\", "/"), '/'));
    if segments == [] then [Fallback(n, ext, forced)] else segments
  }

  function Finished(last: string, n: Names, ext: string, forced: bool): string {
    if forced then WithExtension(last, ext)
    else if TrimDots(last) == "" then Fallback(n, ext, false)
    else TrimDots(last)
  }

  function Path(template: string, n: Names, ext: string, forced: bool): seq<string> {
    var segments := Segments(template, n, ext, forced);
    if segments == [] then []
    else segments[..|segments| - 1] + [Finished(segments[|segments| - 1], n, ext, forced)]
  }

  function SanitizedNames(title: string, id: string, source: string, year: string, seasonEpisode: string): Names {
    Names(Sanitize(title), Sanitize(id), Sanitize(source), year, seasonEpisode)
  }

  /** `render_output_relative_path`. */
  method Render(template: string, title: string, id: string, source: string, year: string, seasonEpisode: string,
                ext: string, forced: bool)
    returns (segments: seq<string>)
    requires ValidExt(ext)
    ensures segments == Path(template, SanitizedNames(title, id, source, year, seasonEpisode), ext, forced)
  {
    var n := SanitizedNames(title, id, source, year, seasonEpisode);
    segments := Segments(template, n, ext, forced);
    if segments == [] {
      return;
    }
    var last := Finish(segments[|segments| - 1], n, ext, forced);
    segments := segments[..|segments| - 1] + [last];
  }

  /** The in-place work on the last segment. */
  method Finish(segment: string, n: Names, ext: string, forced: bool) returns (last: string)
    ensures last == Finished(segment, n, ext, forced)
  {
    last := segment;
    if forced {
      if !HasExtension(last, ext) {
        last := last + "." + ext;
      }
      ghost var whole := last;
      while Doubled(last, ext)
        invariant Undouble(last, ext) == Undouble(whole, ext)
        decreases |last|
      {
        DoubledIsTwice(last, ext);
        last := last[..|last| - (|ext| + 1)];
      }
    } else {
      last := TrimDots(last);
      if last == "" {
        last := n.title + "-" + n.id;
      }
    }
  }

  lemma FallbackIsSafe(n: Names, ext: string, forced: bool)
    requires Clean(n.title) && Clean(n.id) && ValidExt(ext)
    ensures SafeComponent(Fallback(n, ext, forced))
  {
    var s := n.title + "-" + n.id;
    assert s[|n.title|] == '-';
    assert Fallback(n, ext, forced)[|n.title|] == '-';
  }

  /**
   Whatever the template, title, id and source name: the path has at least one
   component, each of them safe, and with a forced extension the last one ends in
   it exactly once.
   */
  lemma PathIsSafe(template: string, title: string, id: string, source: string, year: string, seasonEpisode: string,
                   ext: string, forced: bool)
    requires ValidExt(ext)
    ensures var path := Path(template, SanitizedNames(title, id, source, year, seasonEpisode), ext, forced);
            && path != [] && AllSafe(path)
            && (forced ==> EndsWithFolded(path[|path| - 1], "." + ext) && !Doubled(path[|path| - 1], ext))
  {
    var n := SanitizedNames(title, id, source, year, seasonEpisode);
    SanitizedIsClean(title);
    SanitizedIsClean(id);
    var segments := Segments(template, n, ext, forced);
    FallbackIsSafe(n, ext, forced);
    FallbackIsSafe(n, ext, false);
    SegmentsAreSafe(template, n, ext, forced);
    assert SafeComponent(segments[|segments| - 1]);
    FinishedIsSafe(segments[|segments| - 1], n, ext, forced);
  }

  lemma FinishedIsSafe(last: string, n: Names, ext: string, forced: bool)
    requires ValidExt(ext) && Clean(last) && SafeComponent(Fallback(n, ext, false))
    ensures var r := Finished(last, n, ext, forced);
            SafeComponent(r) && (forced ==> EndsWithFolded(r, "." + ext) && !Doubled(r, ext))
  {
    if forced {
      WithExtensionIsSafe(last, ext);
    } else {
      TrimDotsIsSafe(last);
    }
  }

  lemma SegmentsAreSafe(template: string, n: Names, ext: string, forced: bool)
    requires SafeComponent(Fallback(n, ext, forced))
    ensures Segments(template, n, ext, forced) != [] && AllSafe(Segments(template, n, ext, forced))
  {
    var raw := Substitute(template, Substitutions(n, if forced then ext else ""));
    var rendered := if Trim(raw) == "" then Fallback(n, ext, forced) else raw;
    ComponentsAreSafe(SplitOn(Replace(rendered, "\\", "/"), '/'));
  }

  // ---------------------------------------------------------------- the documented template

  const DOCUMENTED_TEMPLATE := "{title}-{id}.{ext}"

  lemma FirstTwo(s: string, from: string)
    requires |from| >= 2
    ensures from <= s ==> |s| >= 2 && s[0] == from[0] && s[1] == from[1]
  {}

  /** A pattern whose first two characters never stand together in a text does not occur in it. */
  lemma {:induction false} NotReplaced(s: string, from: string, to: string)
    requires |from| >= 2 && forall i | 0 <= i < |s| - 1 :: !(s[i] == from[0] && s[i + 1] == from[1])
    ensures Replace(s, from, to) == s
  {
    if s != "" {
      FirstTwo(s, from);
      NotReplaced(s[1..], from, to);
    }
  }

  lemma {:induction false} NothingToReplace(s: string, from: string, to: string)
    requires from != "" && !Contains(s, from)
    ensures Replace(s, from, to) == s
  {
    if s != "" {
      assert s[0..] == s;
      assert forall i | 0 <= i <= |s[1..]| :: s[1..][i..] == s[i + 1..];
      NothingToReplace(s[1..], from, to);
    }
  }

  lemma ReplacedWhole(from: string, to: string)
    requires from != ""
    ensures Replace(from, from, to) == to
  {
    assert from[..|from|] == from && from[|from|..] == "";
    assert to + "" == to;
  }

  /** No occurrence of a pattern reaches across a character that it does not contain. */
  lemma {:induction false} ReplacedAcross(a: string, c: char, b: string, from: string, to: string)
    requires from != "" && c !in from
    ensures Replace(a + [c] + b, from, to) == Replace(a, from, to) + [c] + Replace(b, from, to)
    decreases |a|
  {
    var s := a + [c] + b;
    if a == "" {
      assert s[0] == c && s[1..] == b;
    } else if from <= s {
      PatternBefore(a, c, b, from);
      var rest := a[|from|..];
      assert s[|from|..] == rest + [c] + b;
      ReplacedAcross(rest, c, b, from, to);
      Reassociate(to, Replace(rest, from, to), c, Replace(b, from, to));
    } else {
      assert from <= a ==> from <= s;
      assert s[1..] == a[1..] + [c] + b;
      ReplacedAcross(a[1..], c, b, from, to);
      Reassociate([a[0]], Replace(a[1..], from, to), c, Replace(b, from, to));
    }
  }

  lemma Reassociate(x: string, y: string, c: char, z: string)
    ensures x + (y + [c] + z) == (x + y) + [c] + z
  {}

  lemma PatternBefore(a: string, c: char, b: string, from: string)
    requires c !in from && from <= a + [c] + b
    ensures from <= a
  {
    var s := a + [c] + b;
    assert s[|a|] == c;
    assert forall i | 0 <= i < |from| :: s[i] == from[i] && from[i] in from;
  }

  ghost predicate Across(c: char, subs: seq<(string, string)>) {
    forall i | 0 <= i < |subs| :: subs[i].0 != "" && c !in subs[i].0
  }

  lemma {:induction false} SubstitutedAcross(a: string, c: char, b: string, subs: seq<(string, string)>)
    requires Across(c, subs)
    ensures Substitute(a + [c] + b, subs) == Substitute(a, subs) + [c] + Substitute(b, subs)
    decreases |subs|
  {
    if subs != [] {
      var (from, to) := subs[0];
      ReplacedAcross(a, c, b, from, to);
      SubstitutedAcross(Replace(a, from, to), c, Replace(b, from, to), subs[1..]);
    }
  }

  /** None of the patterns occurs in the text. */
  ghost predicate Untouched(s: string, subs: seq<(string, string)>) {
    forall i | 0 <= i < |subs| :: subs[i].0 != "" && !Contains(s, subs[i].0)
  }

  lemma {:induction false} NothingSubstituted(s: string, subs: seq<(string, string)>)
    requires Untouched(s, subs)
    ensures Substitute(s, subs) == s
    decreases |subs|
  {
    if subs != [] {
      NothingToReplace(s, subs[0].0, subs[0].1);
      NothingSubstituted(s, subs[1..]);
    }
  }

  lemma {:induction false} NoSubstitution(s: string, subs: seq<(string, string)>, rest: seq<(string, string)>)
    requires forall i | 0 <= i < |subs| :: DoubleBraced(subs[i].0)
    requires forall i | 0 <= i < |rest| :: rest[i].0 != ""
    requires forall i | 0 <= i < |subs + rest| :: (subs + rest)[i].0 != ""
    requires forall i | 0 <= i < |s| - 1 :: !(s[i] == '{' && s[i + 1] == '{')
    ensures Substitute(s, subs + rest) == Substitute(s, rest)
    decreases |subs|
  {
    if subs == [] {
      assert subs + rest == rest;
    } else {
      NotReplaced(s, subs[0].0, subs[0].1);
      assert (subs + rest)[1..] == subs[1..] + rest;
      NoSubstitution(s, subs[1..], rest);
    }
  }

  /** The substitutions that are still to come once the title, or the id, has been put in. */
  function AfterTitle(n: Names, ext: string): (r: seq<(string, string)>)
    ensures Across('-', r) && Across('.', r)
  {
    [("{id}", n.id)] + AfterId(n, ext)
  }

  function AfterId(n: Names, ext: string): (r: seq<(string, string)>)
    ensures Across('-', r) && Across('.', r)
  {
    [("{year}", n.year), ("{ext}", ext), ("%(ext)s", ext)]
  }

  lemma NoDoubleBraces()
    ensures forall i | 0 <= i < |DOCUMENTED_TEMPLATE| - 1 ::
              !(DOCUMENTED_TEMPLATE[i] == '{' && DOCUMENTED_TEMPLATE[i + 1] == '{')
  {}

  const AFTER_TITLE := "-{id}.{ext}"

  lemma NoTitleAfterTitle()
    ensures forall i | 0 <= i < |AFTER_TITLE| - 1 :: !(AFTER_TITLE[i] == '{' && AFTER_TITLE[i + 1] == 't')
  {}

  /** A pattern at the front is replaced and the rest of the text is gone through. */
  lemma ReplacedFirst(from: string, rest: string, to: string)
    requires from != ""
    ensures Replace(from + rest, from, to) == to + Replace(rest, from, to)
  {
    assert (from + rest)[..|from|] == from && (from + rest)[|from|..] == rest;
  }

  lemma AfterTitleStays(t: string)
    ensures Replace(AFTER_TITLE, "{title}", t) == AFTER_TITLE
  {
    NoTitleAfterTitle();
    NotReplaced(AFTER_TITLE, "{title}", t);
  }

  lemma TitleIsFirst()
    ensures DOCUMENTED_TEMPLATE == "{title}" + AFTER_TITLE
  {}

  lemma TitleStep(t: string)
    ensures Replace(DOCUMENTED_TEMPLATE, "{title}", t) == t + AFTER_TITLE
  {
    TitleIsFirst();
    ReplacedFirst("{title}", AFTER_TITLE, t);
    AfterTitleStays(t);
  }

  lemma FirstSubstituted(s: string, from: string, to: string, rest: seq<(string, string)>)
    requires from != "" && forall i | 0 <= i < |rest| :: rest[i].0 != ""
    ensures forall i | 0 <= i < |[(from, to)] + rest| :: ([(from, to)] + rest)[i].0 != ""
    ensures Substitute(s, [(from, to)] + rest) == Substitute(Replace(s, from, to), rest)
  {
    assert ([(from, to)] + rest)[1..] == rest;
  }

  /** `{id}` becomes the id, which the later substitutions go through again. */
  lemma IdSubstituted(n: Names, ext: string)
    ensures Substitute("{id}", AfterTitle(n, ext)) == Substitute(n.id, AfterId(n, ext))
  {
    FirstSubstituted("{id}", "{id}", n.id, AfterId(n, ext));
    ReplacedWhole("{id}", n.id);
  }

  lemma ExtSubstituted(n: Names, ext: string)
    requires ValidExt(ext)
    ensures Substitute("{ext}", AfterTitle(n, ext)) == ext
  {
    var from := "{ext}";
    var pct: seq<(string, string)> := [("%(ext)s", ext)];
    var exts := [("{ext}", ext)] + pct;
    assert AfterId(n, ext) == [("{year}", n.year)] + exts;
    FirstSubstituted(from, "{id}", n.id, AfterId(n, ext));
    NotReplaced(from, "{id}", n.id);
    FirstSubstituted(from, "{year}", n.year, exts);
    NotReplaced(from, "{year}", n.year);
    FirstSubstituted(from, "{ext}", ext, pct);
    ReplacedWhole(from, ext);
    FirstSubstituted(ext, "%(ext)s", ext, []);
    assert pct + [] == pct;
    NotReplaced(ext, "%(ext)s", ext);
  }

  lemma RestSubstituted(n: Names, ext: string)
    requires ValidExt(ext)
    ensures Substitute(n.title + AFTER_TITLE, AfterTitle(n, ext))
            == Substitute(n.title, AfterTitle(n, ext)) + "-" + Substitute(n.id, AfterId(n, ext)) + "." + ext
  {
    var later, from, last := AfterTitle(n, ext), "{id}", "{ext}";
    assert n.title + AFTER_TITLE == n.title + ['-'] + (from + ['.'] + last);
    SubstitutedAcross(n.title, '-', from + ['.'] + last, later);
    SubstitutedAcross(from, '.', last, later);
    IdSubstituted(n, ext);
    ExtSubstituted(n, ext);
    Regrouped(Substitute(n.title, later), Substitute(n.id, AfterId(n, ext)), ext);
  }

  /**
   What the documented template renders to, for all names: the title, a dash, the
   id, a dot and the extension, where placeholders inside the title and the id
   are substituted as well.
   */
  lemma DocumentedTemplateSubstitutes(n: Names, ext: string)
    requires ValidExt(ext)
    ensures Substitute(DOCUMENTED_TEMPLATE, Substitutions(n, ext))
            == Substitute(n.title, AfterTitle(n, ext)) + "-" + Substitute(n.id, AfterId(n, ext)) + "." + ext
  {
    NoDoubleBraces();
    NoSubstitution(DOCUMENTED_TEMPLATE, DoubleBraces(n, ext), SingleBraces(n, ext));
    assert SingleBraces(n, ext) == [("{title}", n.title)] + AfterTitle(n, ext);
    FirstSubstituted(DOCUMENTED_TEMPLATE, "{title}", n.title, AfterTitle(n, ext));
    TitleStep(n.title);
    RestSubstituted(n, ext);
  }

  lemma Regrouped(a: string, b: string, ext: string)
    ensures a + ['-'] + (b + ['.'] + ext) == a + "-" + b + "." + ext
  {}

  // ---------------------------------------------------------------- its path

  /** Only a stem that already ends in the extension is cut. */
  lemma DoubledStem(stem: string, ext: string)
    ensures Doubled(stem + "." + ext, ext) <==> EndsWithFolded(stem, "." + ext)
  {
    var s, one, two := stem + "." + ext, "." + ext, "." + ext + "." + ext;
    if Doubled(s, ext) {
      DoubledIsTwice(s, ext);
      assert s[..|s| - |one|] == stem;
    } else if EndsWithFolded(stem, one) {
      FoldedSuffix(stem, one);
      FoldedSuffix(s, two);
      var tail := stem[|stem| - |one|..];
      assert s[|s| - |two|..] == tail + one && two == one + one;
      LowerConcat(tail, one);
      LowerConcat(one, one);
    }
  }

  lemma LowerConcat(a: string, b: string)
    ensures Lower(a + b) == Lower(a) + Lower(b)
  {}

  /** What follows the last dash decides whether the stem ends in an extension. */
  lemma StemEndsLikeId(title: string, id: string, ext: string)
    requires ValidExt(ext)
    ensures EndsWithFolded(title + "-" + id, "." + ext) <==> EndsWithFolded(id, "." + ext)
  {
    var stem, dotted := title + "-" + id, "." + ext;
    FoldedSuffix(stem, dotted);
    FoldedSuffix(id, dotted);
    if |dotted| <= |id| {
      assert stem[|stem| - |dotted|..] == id[|id| - |dotted|..];
    } else {
      assert stem[|title|] == '-';
      assert forall i | 0 <= i < |dotted| :: LowerChar(dotted[i]) != '-';
      FoldedTail(stem, dotted, |title|);
    }
  }

  /** A folded suffix agrees with the text's tail, character by character. */
  lemma FoldedTail(s: string, suffix: string, j: nat)
    ensures EndsWithFolded(s, suffix) && |s| - |suffix| <= j < |s| ==>
              LowerChar(s[j]) == LowerChar(suffix[j - (|s| - |suffix|)])
  {
    FoldedSuffix(s, suffix);
    if EndsWithFolded(s, suffix) && |s| - |suffix| <= j < |s| {
      FoldedChars(s[|s| - |suffix|..], suffix);
      assert s[j] == s[|s| - |suffix|..][j - (|s| - |suffix|)];
    }
  }

  lemma FoldedChars(a: string, b: string)
    requires Lower(a) == Lower(b)
    ensures |a| == |b| && forall i | 0 <= i < |a| :: LowerChar(a[i]) == LowerChar(b[i])
  {
    assert |Lower(a)| == |Lower(b)|;
    assert forall i | 0 <= i < |a| :: Lower(a)[i] == LowerChar(a[i]) && Lower(b)[i] == LowerChar(b[i]);
  }

  lemma StemHasExtension(stem: string, ext: string)
    requires ValidExt(ext) && stem != ""
    ensures HasExtension(stem + "." + ext, ext)
  {
    var s := stem + "." + ext;
    assert s[|stem|] == '.' && forall i | |stem| < i < |s| :: s[i] == ext[i - |stem| - 1];
    assert LastDot(s) == |stem| && s[|stem| + 1..] == ext;
  }

  lemma UndoubledIffDoubled(s: string, ext: string)
    ensures Undouble(s, ext) == s <==> !Doubled(s, ext)
  {
    if Doubled(s, ext) {
      DoubledIsTwice(s, ext);
      UndoubleEnds(s[..|s| - (|ext| + 1)], ext);
    }
  }

  lemma StemExtension(title: string, id: string, ext: string)
    requires ValidExt(ext)
    ensures var s := title + "-" + id + "." + ext; WithExtension(s, ext) == s <==> !EndsWithFolded(id, "." + ext)
  {
    var stem := title + "-" + id;
    var s := stem + "." + ext;
    StemHasExtension(stem, ext);
    StemEndsLikeId(title, id, ext);
    DoubledStem(stem, ext);
    UndoubledIffDoubled(s, ext);
  }

  lemma {:induction false} TrimStartKeepsEnd(s: string)
    requires s != "" && !IsWhitespace(s[|s| - 1])
    ensures var r := TrimStart(s); r != "" && r[|r| - 1] == s[|s| - 1]
  {
    if IsWhitespace(s[0]) {
      TrimStartKeepsEnd(s[1..]);
    }
  }

  /** Trimming a text that ends in no white space keeps its end. */
  lemma TrimKeepsEnd(s: string)
    requires s != "" && !IsWhitespace(s[|s| - 1])
    ensures Trim(s) == TrimStart(s) != "" && Trim(s)[|Trim(s)| - 1] == s[|s| - 1]
  {
    TrimStartKeepsEnd(s);
  }

  /** A template that renders to one clean stem gives that stem, trimmed, as the only component. */
  lemma PathOfStem(n: Names, title: string, id: string, ext: string)
    requires ValidExt(ext) && Clean(title) && Clean(id)
    requires Substitute(DOCUMENTED_TEMPLATE, Substitutions(n, ext)) == title + "-" + id + "." + ext
    ensures Path(DOCUMENTED_TEMPLATE, n, ext, true) == [WithExtension(Trim(title + "-" + id + "." + ext), ext)]
    ensures Tight(title) ==> Trim(title + "-" + id + "." + ext) == title + "-" + id + "." + ext
  {
    OneComponent(title, id, ext);
  }

  /**
   When no placeholder occurs in the title or the id, the documented template gives
   the single component `title-id.ext` if and only if the id does not itself end
   in the extension.
   */
  lemma PlainNamesRender(title: string, id: string, source: string, year: string, seasonEpisode: string, ext: string)
    requires var n := SanitizedNames(title, id, source, year, seasonEpisode);
             ValidExt(ext) && Untouched(n.title, AfterTitle(n, ext)) && Untouched(n.id, AfterId(n, ext))
    ensures var n := SanitizedNames(title, id, source, year, seasonEpisode);
            Path(DOCUMENTED_TEMPLATE, n, ext, true) == [n.title + "-" + n.id + "." + ext]
            <==> !EndsWithFolded(n.id, "." + ext)
  {
    var n := SanitizedNames(title, id, source, year, seasonEpisode);
    SanitizedIsNeat(title);
    SanitizedIsNeat(id);
    NothingSubstituted(n.title, AfterTitle(n, ext));
    NothingSubstituted(n.id, AfterId(n, ext));
    DocumentedTemplateSubstitutes(n, ext);
    PathOfStem(n, n.title, n.id, ext);
    StemExtension(n.title, n.id, ext);
  }

  lemma PlaceholderStem(n: Names, ext: string)
    requires ValidExt(ext) && n.title == "{id}" && Untouched(n.id, AfterId(n, ext))
    ensures Substitute(DOCUMENTED_TEMPLATE, Substitutions(n, ext)) == n.id + "-" + n.id + "." + ext
  {
    NothingSubstituted(n.id, AfterId(n, ext));
    DocumentedTemplateSubstitutes(n, ext);
    IdSubstituted(n, ext);
  }

  lemma PlaceholderIsNeat()
    ensures Sanitize("{id}") == "{id}"
  {
    SanitizeTight("{id}");
  }

  /** A title that is itself a placeholder is replaced: the file is named after its id twice. */
  lemma PlaceholderTitleIsReplaced(id: string, source: string, year: string, seasonEpisode: string, ext: string)
    requires ValidExt(ext) && var n := SanitizedNames("{id}", id, source, year, seasonEpisode);
             Untouched(n.id, AfterId(n, ext)) && !EndsWithFolded(n.id, "." + ext)
    ensures Path(DOCUMENTED_TEMPLATE, SanitizedNames("{id}", id, source, year, seasonEpisode), ext, true)
            == [Sanitize(id) + "-" + Sanitize(id) + "." + ext]
  {
    var n := SanitizedNames("{id}", id, source, year, seasonEpisode);
    SanitizedIsNeat(id);
    PlaceholderIsNeat();
    PlaceholderStem(n, ext);
    PathOfStem(n, n.id, n.id, ext);
    StemExtension(n.id, n.id, ext);
  }

  lemma SanitizedIsNeat(s: string)
    ensures Clean(Sanitize(s)) && Tight(Sanitize(s))
  {
    SanitizedIsClean(s);
    TrimmedIsTight(SanitizeChars(s));
  }

  lemma OneComponent(title: string, id: string, ext: string)
    requires ValidExt(ext) && Clean(title) && Clean(id)
    ensures var s := title + "-" + id + "." + ext;
            && Trim(s) != "" && Components(SplitOn(Replace(s, "\\", "/"), '/')) == [Trim(s)]
            && (Tight(title) ==> Trim(s) == s)
  {
    var s := title + "-" + id + "." + ext;
    assert s[|title|] == '-' && s[|s| - 1] == ext[|ext| - 1];
    assert Clean(s);
    assert Tight(title) ==> Tight(s);
    if Tight(title) {
      TightIsTrimmed(s);
    }
    CleanIsOneComponent(s);
  }

  lemma {:induction false} SafePieceIsComponent(s: string)
    requires SafeComponent(Trim(s))
    ensures Components([s]) == [Trim(s)]
  {
    TrimmedIsTight(s);
    SanitizeTight(Trim(s));
    assert Components([s][1..]) == [];
  }

  /** What trimming leaves of a clean text that ends in neither white space nor a dot. */
  lemma {:induction false} TrimmedIsSafe(s: string)
    requires Clean(s) && s != "" && !IsWhitespace(s[|s| - 1]) && s[|s| - 1] != '.'
    ensures SafeComponent(Trim(s))
  {
    TrimKeepsEnd(s);
    TrimmedIsSlice(s);
  }

  lemma {:induction false} CleanIsOneComponent(s: string)
    requires Clean(s) && s != "" && !IsWhitespace(s[|s| - 1]) && s[|s| - 1] != '.'
    ensures Trim(s) != "" && Components(SplitOn(Replace(s, "\\", "/"), '/')) == [Trim(s)]
  {
    NoBackslash(s);
    SplitNothing(s, '/');
    TrimmedIsSafe(s);
    SafePieceIsComponent(s);
  }

  lemma {:induction false} NoBackslash(s: string)
    requires '\\' !in s
    ensures Replace(s, "\\", "/") == s
  {
    if s != "" {
      NoBackslash(s[1..]);
    }
  }

  // ---------------------------------------------------------------- exactly when it renders as documented

  /** The characters that placeholders begin with. */
  predicate IsMark(c: char) {
    c == '{' || c == '%'
  }

  ghost predicate Unmarked(s: string) {
    forall i | 0 <= i < |s| :: !IsMark(s[i])
  }

  function Marks(s: string): nat {
    if s == "" then 0 else (if IsMark(s[0]) then 1 else 0) + Marks(s[1..])
  }

  lemma {:induction false} MarksAppend(a: string, b: string)
    ensures Marks(a + b) == Marks(a) + Marks(b)
  {
    if a == "" {
      assert a + b == b;
    } else {
      assert (a + b)[1..] == a[1..] + b;
      MarksAppend(a[1..], b);
    }
  }

  lemma {:induction false} UnmarkedHasNone(s: string)
    requires Unmarked(s)
    ensures Marks(s) == 0
  {
    if s != "" {
      UnmarkedHasNone(s[1..]);
    }
  }

  lemma PrefixMarks(a: string, b: string)
    requires a <= b
    ensures Marks(a) <= Marks(b)
  {
    assert b == a + b[|a|..];
    MarksAppend(a, b[|a|..]);
  }

  lemma ContainsLater(s: string, part: string)
    requires s != "" && !(part <= s)
    ensures Contains(s, part) <==> Contains(s[1..], part)
  {
    assert s[0..] == s;
    if Contains(s, part) {
      var i :| 0 <= i <= |s| && part <= s[i..];
      assert s[1..][i - 1..] == s[i..];
    }
    if Contains(s[1..], part) {
      var i :| 0 <= i <= |s[1..]| && part <= s[1..][i..];
      assert s[1..][i..] == s[i + 1..];
    }
  }

  /** Replacing a placeholder by an unmarked value takes marks away, some if it occurs at all. */
  lemma {:induction false} ReplaceTakesMarks(s: string, from: string, to: string)
    requires from != "" && IsMark(from[0]) && Unmarked(to)
    ensures Marks(Replace(s, from, to)) <= Marks(s)
    ensures Contains(s, from) ==> Marks(Replace(s, from, to)) < Marks(s)
    decreases |s|
  {
    if s != "" {
      if from <= s {
        var rest := s[|from|..];
        assert s == from + rest;
        MarksAppend(from, rest);
        MarksAppend(to, Replace(rest, from, to));
        UnmarkedHasNone(to);
        ReplaceTakesMarks(rest, from, to);
      } else {
        ContainsLater(s, from);
        ReplaceTakesMarks(s[1..], from, to);
        assert ([s[0]] + Replace(s[1..], from, to))[1..] == Replace(s[1..], from, to);
      }
    }
  }

  /** Placeholders, with values in which none can begin. */
  ghost predicate Plain(subs: seq<(string, string)>) {
    forall i | 0 <= i < |subs| :: subs[i].0 != "" && IsMark(subs[i].0[0]) && Unmarked(subs[i].1)
  }

  lemma UntouchedFirst(s: string, subs: seq<(string, string)>)
    requires subs != [] && subs[0].0 != ""
    ensures Untouched(s, subs) <==> !Contains(s, subs[0].0) && Untouched(s, subs[1..])
  {
    assert subs == [subs[0]] + subs[1..];
    assert forall i | 0 < i < |subs| :: subs[i] == subs[1..][i - 1];
  }

  /** Substituting changes a text exactly when one of the placeholders occurs in it, and then loses marks. */
  lemma {:induction false} SubstituteTakesMarks(s: string, subs: seq<(string, string)>)
    requires Plain(subs)
    ensures Marks(Substitute(s, subs)) <= Marks(s)
    ensures Untouched(s, subs) ==> Substitute(s, subs) == s
    ensures !Untouched(s, subs) ==> Marks(Substitute(s, subs)) < Marks(s)
    decreases |subs|
  {
    if subs != [] {
      var (from, to) := subs[0];
      ReplaceTakesMarks(s, from, to);
      UntouchedFirst(s, subs);
      SubstituteTakesMarks(Replace(s, from, to), subs[1..]);
      if !Contains(s, from) {
        NothingToReplace(s, from, to);
      }
    }
  }

  lemma {:induction false} ReplaceKeepsClean(s: string, from: string, to: string)
    requires from != "" && Clean(s) && Clean(to)
    ensures Clean(Replace(s, from, to))
    decreases |s|
  {
    if s != "" {
      if from <= s {
        ReplaceKeepsClean(s[|from|..], from, to);
      } else {
        ReplaceKeepsClean(s[1..], from, to);
      }
    }
  }

  lemma {:induction false} SubstituteKeepsClean(s: string, subs: seq<(string, string)>)
    requires Clean(s) && forall i | 0 <= i < |subs| :: subs[i].0 != "" && Clean(subs[i].1)
    ensures Clean(Substitute(s, subs))
    decreases |subs|
  {
    if subs != [] {
      ReplaceKeepsClean(s, subs[0].0, subs[0].1);
      SubstituteKeepsClean(Replace(s, subs[0].0, subs[0].1), subs[1..]);
    }
  }

  lemma {:induction false} TrimStartMarks(s: string)
    ensures Marks(TrimStart(s)) <= Marks(s)
  {
    if s != "" && IsWhitespace(s[0]) {
      TrimStartMarks(s[1..]);
    }
  }

  lemma StemMarks(title: string, id: string, ext: string)
    requires ValidExt(ext)
    ensures Marks(title + "-" + id + "." + ext) == Marks(title) + Marks(id)
  {
    ExtendedMarks(title + "-" + id, ext);
    MarksAppend(title + "-", id);
    MarksAppend(title, "-");
    UnmarkedHasNone("-");
  }

  lemma ExtendedMarks(s: string, ext: string)
    requires ValidExt(ext)
    ensures Marks(s + "." + ext) == Marks(s)
  {
    MarksAppend(s + ".", ext);
    MarksAppend(s, ".");
    UnmarkedHasNone(".");
    UnmarkedHasNone(ext);
  }

  lemma UndoubledMarks(s: string, ext: string)
    requires EndsWithFolded(s, "." + ext)
    ensures Marks(Undouble(s, ext)) <= Marks(s)
  {
    UndoubleEnds(s, ext);
    PrefixMarks(Undouble(s, ext), s);
  }

  lemma ExtensionMarks(s: string, ext: string)
    requires ValidExt(ext)
    ensures Marks(WithExtension(s, ext)) <= Marks(s)
  {
    ExtensionEnds(s, ext);
    if HasExtension(s, ext) {
      UndoubledMarks(s, ext);
    } else {
      UndoubledMarks(s + "." + ext, ext);
      ExtendedMarks(s, ext);
    }
  }

  /** Neither trimming nor the extension gives a path back the marks that its stem has lost. */
  lemma PathMarks(title: string, id: string, ext: string)
    requires ValidExt(ext)
    ensures Marks(WithExtension(Trim(title + "-" + id + "." + ext), ext)) <= Marks(title) + Marks(id)
  {
    var s := title + "-" + id + "." + ext;
    assert s[|s| - 1] == ext[|ext| - 1];
    TrimKeepsEnd(s);
    TrimStartMarks(s);
    StemMarks(title, id, ext);
    ExtensionMarks(Trim(s), ext);
  }

  lemma NamesArePlain(n: Names, ext: string)
    requires ValidExt(ext) && Unmarked(n.id) && Unmarked(n.year)
    ensures Plain(AfterTitle(n, ext)) && Plain(AfterId(n, ext))
  {}

  lemma {:induction false} UnmarkedIsUntouched(s: string, subs: seq<(string, string)>)
    requires Unmarked(s) && Plain(subs)
    ensures Untouched(s, subs)
  {
    UnmarkedHasNone(s);
    SubstituteTakesMarks(s, subs);
  }

  lemma TouchedTitleShows(n: Names, ext: string)
    requires ValidExt(ext) && Clean(n.title) && Clean(n.id) && Clean(n.year) && Unmarked(n.id) && Unmarked(n.year)
    requires !Untouched(n.title, AfterTitle(n, ext))
    ensures Path(DOCUMENTED_TEMPLATE, n, ext, true) != [n.title + "-" + n.id + "." + ext]
  {
    NamesArePlain(n, ext);
    var title := Substitute(n.title, AfterTitle(n, ext));
    SubstituteTakesMarks(n.title, AfterTitle(n, ext));
    SubstituteKeepsClean(n.title, AfterTitle(n, ext));
    UnmarkedIsUntouched(n.id, AfterId(n, ext));
    NothingSubstituted(n.id, AfterId(n, ext));
    DocumentedTemplateSubstitutes(n, ext);
    PathOfStem(n, title, n.id, ext);
    PathMarks(title, n.id, ext);
    StemMarks(n.title, n.id, ext);
  }

  /**
   For every title, and every id and year without `{` and `%`: the documented
   template gives the single component `title-id.ext` if and only if no
   placeholder occurs in the title and the id does not end in the extension.
   */
  lemma DocumentedTemplateRenders(title: string, id: string, source: string, year: string, seasonEpisode: string,
                                  ext: string)
    requires ValidExt(ext) && Clean(year) && Unmarked(year) && Unmarked(Sanitize(id))
    ensures var n := SanitizedNames(title, id, source, year, seasonEpisode);
            Path(DOCUMENTED_TEMPLATE, n, ext, true) == [n.title + "-" + n.id + "." + ext]
            <==> Untouched(n.title, AfterTitle(n, ext)) && !EndsWithFolded(n.id, "." + ext)
  {
    var n := SanitizedNames(title, id, source, year, seasonEpisode);
    SanitizedIsNeat(title);
    SanitizedIsNeat(id);
    NamesArePlain(n, ext);
    UnmarkedIsUntouched(n.id, AfterId(n, ext));
    if Untouched(n.title, AfterTitle(n, ext)) {
      PlainNamesRender(title, id, source, year, seasonEpisode, ext);
    } else {
      TouchedTitleShows(n, ext);
    }
  }

  lemma TooLongToOccur(s: string, part: string)
    requires |part| > |s|
    ensures !Contains(s, part)
  {}

  lemma IdPlaceholderIsPlain(n: Names, ext: string)
    requires ValidExt(ext)
    ensures Untouched("{id}", AfterId(n, ext)) && !EndsWithFolded("{id}", "." + ext)
  {
    var s := "{id}";
    TooLongToOccur(s, "{year}");
    TooLongToOccur(s, "{ext}");
    TooLongToOccur(s, "%(ext)s");
    FoldedTail(s, "." + ext, 3);
    assert LowerChar(s[3]) == '}' != LowerChar(ext[|ext| - 1]);
  }

  /** Why the id must be unmarked: an id that is its own placeholder hides that the title's was replaced. */
  lemma PlaceholderIdHidesPlaceholder(source: string, year: string, seasonEpisode: string, ext: string)
    requires ValidExt(ext)
    ensures Path(DOCUMENTED_TEMPLATE, SanitizedNames("{id}", "{id}", source, year, seasonEpisode), ext, true)
            == ["{id}" + "-" + "{id}" + "." + ext]
    ensures !Untouched("{id}", AfterTitle(SanitizedNames("{id}", "{id}", source, year, seasonEpisode), ext))
  {
    var id := "{id}";
    var n := SanitizedNames(id, id, source, year, seasonEpisode);
    PlaceholderIsNeat();
    IdPlaceholderIsPlain(n, ext);
    PlaceholderTitleIsReplaced(id, source, year, seasonEpisode, ext);
    assert id[0..] == id && AfterTitle(n, ext)[0].0 == id;
  }
}
