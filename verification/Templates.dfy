/**
 What naming templates render to: directories, each placeholder, and the template
 with a directory per source (`render_output_relative_path` in `ytdlp.rs`).
 */
module OutputTemplates {
  import opened Text
  import opened OutputPath

  // ---------------------------------------------------------------- characters, extensions and dots

  /** Names a character that a component must not hold. */
  ghost predicate Forbidden(c: char) {
    c in "/\\:*?\"<>|" || c as int < 0x20 || 0x7F <= c as int < 0xA0
  }

  /** No component of any rendered path holds a separator, a reserved or a control character. */
  lemma PathIsFree(template: string, title: string, id: string, source: string, year: string, seasonEpisode: string,
                   ext: string, forced: bool, i: nat, j: nat)
    requires ValidExt(ext)
    requires var path := Path(template, SanitizedNames(title, id, source, year, seasonEpisode), ext, forced);
             i < |path| && j < |path[i]|
    ensures var path := Path(template, SanitizedNames(title, id, source, year, seasonEpisode), ext, forced);
            !Forbidden(path[i][j]) && path[i] != "." && path[i] != ".."
  {
    PathIsSafe(template, title, id, source, year, seasonEpisode, ext, forced);
    var path := Path(template, SanitizedNames(title, id, source, year, seasonEpisode), ext, forced);
    assert SafeComponent(path[i]);
    ForbiddenIff(path[i][j]);
  }

  lemma ForbiddenIff(c: char)
    ensures Forbidden(c) <==> IsReserved(c) || IsControl(c)
  {
    var table := "/\\:*?\"<>|";
    assert table[0] == '/' && table[1] == '\\' && table[2] == ':' && table[3] == '*' && table[4] == '?';
    assert table[5] == '"' && table[6] == '<' && table[7] == '>' && table[8] == '|';
  }

  /** Sanitizing a trimmed name replaces the forbidden characters one by one and keeps every other. */
  lemma SanitizeIsPerChar(s: string, i: nat)
    requires Tight(s) && i < |s|
    ensures |Sanitize(s)| == |s| && Sanitize(s)[i] == if Forbidden(s[i]) then '_' else s[i]
  {
    SanitizeTight(s);
    ForbiddenIff(s[i]);
  }

  /** ... and then cuts the white space at both ends. */
  lemma SanitizeMeans(s: string, t: string, i: nat, j: nat)
    requires |t| == |s| && forall k | 0 <= k < |s| :: t[k] == if Forbidden(s[k]) then '_' else s[k]
    requires i <= j <= |t| && forall k | 0 <= k < i || j <= k < |t| :: IsWhitespace(t[k])
    requires i < j ==> !IsWhitespace(t[i]) && !IsWhitespace(t[j - 1])
    ensures Sanitize(s) == t[i..j]
  {
    forall k | 0 <= k < |s|
      ensures SanitizeChars(s)[k] == t[k]
    {
      ForbiddenIff(s[k]);
    }
    assert SanitizeChars(s) == t;
    TrimMeans(t, i, j);
  }

  /** The extension is added unless it is there, and is there once afterwards. */
  lemma WithExtensionMeans(s: string, ext: string)
    requires ValidExt(ext)
    ensures WithExtension(s, ext) == s <==> EndsWithFolded(s, "." + ext) && !Doubled(s, ext)
    ensures !EndsWithFolded(s, "." + ext) ==> WithExtension(s, ext) == s + "." + ext
  {
    ExtensionEnds(s, ext);
    DoubledStem(s, ext);
    var t := if HasExtension(s, ext) then s else s + "." + ext;
    UndoubleEnds(t, ext);
    if EndsWithFolded(s, "." + ext) && !Doubled(s, ext) && !HasExtension(s, ext) {
      assert (s + "." + ext)[..|s + "." + ext| - (|ext| + 1)] == s;
    }
  }

  /** Only trailing dots are cut. */
  lemma {:induction false} TrimDotsMeans(s: string, k: nat)
    requires k <= |s| && (k > 0 ==> s[k - 1] != '.') && forall i | k <= i < |s| :: s[i] == '.'
    ensures TrimDots(s) == s[..k]
    decreases |s|
  {
    if k < |s| {
      TrimDotsMeans(s[..|s| - 1], k);
      assert s[..|s| - 1][..k] == s[..k];
    }
  }

  // ---------------------------------------------------------------- directories

  /** A text that stands for itself as a directory or file name. */
  ghost predicate Component(s: string) {
    Tight(s) && SafeComponent(s)
  }

  ghost predicate AllComponents(texts: seq<string>) {
    forall i | 0 <= i < |texts| :: Component(texts[i])
  }

  lemma {:induction false} SplitFirst(a: string, b: string, sep: char)
    requires sep !in a
    ensures SplitOn(a + [sep] + b, sep) == [a] + SplitOn(b, sep)
  {
    var s := a + [sep] + b;
    if a == "" {
      assert s[1..] == b;
    } else {
      assert s[1..] == a[1..] + [sep] + b;
      SplitFirst(a[1..], b, sep);
      assert [a[0]] + a[1..] == a;
    }
  }

  lemma {:induction false} SplitJoined(texts: seq<string>)
    requires texts != [] && AllComponents(texts)
    ensures SplitOn(Join(texts, "/"), '/') == texts
    decreases |texts|
  {
    assert Component(texts[0]);
    if |texts| == 1 {
      SplitNothing(texts[0], '/');
    } else {
      SplitJoined(texts[1..]);
      SplitFirst(texts[0], Join(texts[1..], "/"), '/');
      assert texts == [texts[0]] + texts[1..];
    }
  }

  lemma ComponentStays(s: string)
    requires Component(s)
    ensures Trim(s) == s && Sanitize(s) == s && s != "" && s != "." && s != ".."
  {
    TightIsTrimmed(s);
    SanitizeTight(s);
  }

  lemma {:induction false} ComponentsStay(texts: seq<string>)
    requires AllComponents(texts)
    ensures Components(texts) == texts
    decreases |texts|
  {
    if texts != [] {
      ComponentStays(texts[0]);
      ComponentsStay(texts[1..]);
      assert texts == [texts[0]] + texts[1..];
    }
  }

  lemma {:induction false} JoinedHasNoBackslash(texts: seq<string>)
    requires AllComponents(texts)
    ensures '\\' !in Join(texts, "/")
    decreases |texts|
  {
    if texts != [] {
      assert Component(texts[0]);
      JoinedHasNoBackslash(texts[1..]);
    }
  }

  lemma {:induction false} TrimEndKeepsStart(s: string)
    requires s != "" && !IsWhitespace(s[0])
    ensures TrimEnd(s) != ""
  {
    if IsWhitespace(s[|s| - 1]) {
      TrimEndKeepsStart(s[..|s| - 1]);
    }
  }

  lemma JoinedIsNotBlank(texts: seq<string>)
    requires texts != [] && AllComponents(texts)
    ensures Trim(Join(texts, "/")) != ""
  {
    var s := Join(texts, "/");
    assert Component(texts[0]) && s != "" && s[0] == texts[0][0];
    TrimEndKeepsStart(s);
  }

  lemma JoinedSegments(texts: seq<string>, n: Names, ext: string, forced: bool)
    requires texts != [] && AllComponents(texts)
    requires Untouched(Join(texts, "/"), Substitutions(n, if forced then ext else ""))
    ensures Segments(Join(texts, "/"), n, ext, forced) == texts
  {
    NothingSubstituted(Join(texts, "/"), Substitutions(n, if forced then ext else ""));
    JoinedIsNotBlank(texts);
    JoinedHasNoBackslash(texts);
    NoBackslash(Join(texts, "/"));
    SplitJoined(texts);
    ComponentsStay(texts);
  }

  /**
   A template made of names without placeholders is kept name by name. Only the
   last one changes: it gets the forced extension if it lacks it, or else loses
   trailing dots.
   */
  lemma JoinedTemplateRenders(texts: seq<string>, n: Names, ext: string, forced: bool)
    requires texts != [] && AllComponents(texts) && ValidExt(ext)
    requires Untouched(Join(texts, "/"), Substitutions(n, if forced then ext else ""))
    ensures var path := Path(Join(texts, "/"), n, ext, forced); var last := |texts| - 1;
            && |path| == |texts| && (forall i | 0 <= i < last :: path[i] == texts[i])
            && (forced && !EndsWithFolded(texts[last], "." + ext) ==> path[last] == texts[last] + "." + ext)
            && (forced && EndsWithFolded(texts[last], "." + ext) && !Doubled(texts[last], ext) ==>
                  path[last] == texts[last])
            && (!forced ==> forall k | 0 < k <= |texts[last]| && texts[last][k - 1] != '.'
                                       && (forall i | k <= i < |texts[last]| :: texts[last][i] == '.') ::
                              path[last] == texts[last][..k])
  {
    var last := |texts| - 1;
    JoinedSegments(texts, n, ext, forced);
    WithExtensionMeans(texts[last], ext);
    if !forced {
      forall k | 0 < k <= |texts[last]| && texts[last][k - 1] != '.'
                 && (forall i | k <= i < |texts[last]| :: texts[last][i] == '.')
        ensures TrimDots(texts[last]) == texts[last][..k]
      {
        TrimDotsMeans(texts[last], k);
      }
    }
  }

  // ---------------------------------------------------------------- templates that name nothing

  ghost predicate NamesNothing(pieces: seq<string>) {
    forall i | 0 <= i < |pieces| :: Trim(pieces[i]) == "" || Trim(pieces[i]) == "." || Trim(pieces[i]) == ".."
  }

  lemma {:induction false} DotsNameNothing(pieces: seq<string>)
    requires NamesNothing(pieces)
    ensures Components(pieces) == []
    decreases |pieces|
  {
    if pieces != [] {
      DotsNameNothing(pieces[1..]);
    }
  }

  /** A template that names nothing, like `/` or `./..`, falls back to the title and the id. */
  lemma NothingNamedFallsBack(template: string, n: Names, ext: string, forced: bool)
    requires Untouched(template, Substitutions(n, if forced then ext else "")) && ValidExt(ext) && Trim(template) != ""
    requires NamesNothing(SplitOn(Replace(template, "\\", "/"), '/'))
    ensures forced ==> Path(template, n, ext, forced) == [WithExtension(n.title + "-" + n.id + "." + ext, ext)]
    ensures !forced && (n.id != "" ==> n.id[|n.id| - 1] != '.') ==>
              Path(template, n, ext, forced) == [n.title + "-" + n.id]
  {
    NothingSubstituted(template, Substitutions(n, if forced then ext else ""));
    DotsNameNothing(SplitOn(Replace(template, "\\", "/"), '/'));
    var stem := n.title + "-" + n.id;
    if !forced && (n.id != "" ==> n.id[|n.id| - 1] != '.') {
      assert stem[|stem| - 1] != '.';
    }
  }

  /** A blank template does so too. */
  lemma BlankFallsBack(template: string, n: Names, ext: string)
    requires Untouched(template, Substitutions(n, ext)) && ValidExt(ext) && Trim(template) == ""
    requires Clean(n.title) && Clean(n.id) && Tight(n.title)
    ensures Path(template, n, ext, true) == [WithExtension(n.title + "-" + n.id + "." + ext, ext)]
  {
    NothingSubstituted(template, Substitutions(n, ext));
    OneComponent(n.title, n.id, ext);
  }

  // ---------------------------------------------------------------- each placeholder

  /** What may stand between the braces of a placeholder. */
  ghost predicate Bare(s: string) {
    forall i | 0 <= i < |s| :: s[i] != '{' && s[i] != '}' && s[i] != '.'
  }

  lemma BracedShape(a: string)
    requires Bare(a)
    ensures var p := Braced(a);
            && |p| == |a| + 4 && p[2..|a| + 2] == a
            && forall k | 0 <= k < |p| :: (p[k] == '{' <==> k < 2) && (p[k] == '}' <==> k >= |p| - 2)
  {
    var p := Braced(a);
    assert forall k | 0 <= k < |p| :: p[k] == if k < 2 then '{' else if k < |p| - 2 then a[k - 2] else '}';
  }

  /** Braced names occur in each other only if they are the same. */
  lemma BracedOccurs(a: string, b: string)
    requires Bare(a) && Bare(b)
    ensures Contains(Braced(a), Braced(b)) ==> a == b
  {
    var p, q := Braced(a), Braced(b);
    BracedShape(a);
    BracedShape(b);
    if Contains(p, q) {
      var i :| 0 <= i <= |p| && q <= p[i..];
      assert p[i..][1] == q[1];
      assert i == 0 && p[i..] == p;
      assert p[|q| - 2] == q[|q| - 2] == '}';
      assert p == q;
    }
  }

  lemma ExtNames()
    ensures Bare(" ext ") && Bare("ext") && '/' !in " ext " && '/' !in "ext"
  {}

  lemma TitleNames()
    ensures Bare(" title ") && Bare("title") && '/' !in " title " && '/' !in "title"
  {}

  lemma IdNames()
    ensures Bare(" id ") && Bare("id") && '/' !in " id " && '/' !in "id"
  {}

  lemma YearNames()
    ensures Bare(" year ") && Bare("year") && '/' !in " year " && '/' !in "year"
  {}

  lemma SpacedSourceName()
    ensures Bare(" source_custom_name/or default ")
  {}

  lemma SourceName()
    ensures Bare("source_custom_name/or default")
  {}

  lemma SpacedOtherSourceName()
    ensures Bare(" source_custom_name_or_default ")
  {}

  lemma OtherSourceName()
    ensures Bare("source_custom_name_or_default")
  {}

  lemma SeasonName()
    ensures Bare("season_by_year__episode_by_date_and_index")
  {}

  lemma SpacedSeasonName()
    ensures Bare(" season_by_year__episode_by_date_and_index ")
  {}

  /** What stands between double braces, in the order of substitution. */
  const NAMES: seq<string> :=
    [" ext ", "ext", " title ", "title", " id ", "id", " year ", "year",
     " source_custom_name/or default ", "source_custom_name/or default",
     " source_custom_name_or_default ", "source_custom_name_or_default",
     " season_by_year__episode_by_date_and_index ", "season_by_year__episode_by_date_and_index"]

  lemma NamesAreBare(i: nat)
    requires i < 14
    ensures |NAMES| == 14 && Bare(NAMES[i]) && (i < 8 ==> '/' !in NAMES[i])
  {
    ExtNames();
    TitleNames();
    IdNames();
    YearNames();
    SpacedSourceName();
    SourceName();
    SpacedOtherSourceName();
    OtherSourceName();
    SeasonName();
    SpacedSeasonName();
  }

  lemma NamesDiffer(i: nat, j: nat)
    requires i < j < 14
    ensures |NAMES| == 14 && NAMES[i] != NAMES[j]
  {}

  /** The value of the `i`-th name. */
  function NameValue(n: Names, ext: string, i: nat): string {
    if i < 2 then ext else if i < 4 then n.title else if i < 6 then n.id else if i < 8 then n.year
    else if i < 12 then n.source else n.seasonEpisode
  }

  lemma DoubleBracesAre(n: Names, ext: string, i: nat)
    requires i < 14
    ensures |DoubleBraces(n, ext)| == 14 == |NAMES|
    ensures DoubleBraces(n, ext)[i] == (Braced(NAMES[i]), NameValue(n, ext, i))
  {}

  /** A pattern in which no earlier one occurs gives its value, if that is left alone by the later ones. */
  lemma {:induction false} PatternRenders(subs: seq<(string, string)>, k: nat)
    requires k < |subs| && forall i | 0 <= i < |subs| :: subs[i].0 != ""
    requires forall i | 0 <= i < k :: !Contains(subs[k].0, subs[i].0)
    requires Untouched(subs[k].1, subs[k + 1..])
    ensures Substitute(subs[k].0, subs) == subs[k].1
    decreases |subs|
  {
    if k == 0 {
      ReplacedWhole(subs[0].0, subs[0].1);
      NothingSubstituted(subs[0].1, subs[1..]);
    } else {
      NothingToReplace(subs[k].0, subs[0].0, subs[0].1);
      assert subs[1..][k - 1 + 1..] == subs[k + 1..];
      PatternRenders(subs[1..], k - 1);
    }
  }

  lemma LaterUntouched(s: string, subs: seq<(string, string)>, k: nat)
    requires k <= |subs| && Untouched(s, subs)
    ensures Untouched(s, subs[k..])
  {}

  lemma NameRenders(n: Names, ext: string, k: nat)
    requires k < 14 && Untouched(NameValue(n, ext, k), Substitutions(n, ext))
    ensures Substitute(Braced(NAMES[k]), Substitutions(n, ext)) == NameValue(n, ext, k)
  {
    var subs := Substitutions(n, ext);
    DoubleBracesAre(n, ext, k);
    forall i | 0 <= i < k
      ensures !Contains(subs[k].0, subs[i].0)
    {
      DoubleBracesAre(n, ext, i);
      NamesAreBare(i);
      NamesAreBare(k);
      NamesDiffer(i, k);
      BracedOccurs(NAMES[k], NAMES[i]);
    }
    LaterUntouched(NameValue(n, ext, k), subs, k + 1);
    PatternRenders(subs, k);
  }

  /** No placeholder occurs in any of the values. */
  ghost predicate PlainValues(n: Names, ext: string) {
    var subs := Substitutions(n, ext);
    && Untouched(ext, subs) && Untouched(n.title, subs) && Untouched(n.id, subs) && Untouched(n.year, subs)
    && Untouched(n.source, subs) && Untouched(n.seasonEpisode, subs)
  }

  /** What each placeholder in double braces stands for, with and without inner spaces. */
  lemma PlaceholdersRender(n: Names, ext: string)
    requires PlainValues(n, ext)
    ensures var subs := Substitutions(n, ext);
            && Substitute(Braced(" ext "), subs) == Substitute(Braced("ext"), subs) == ext
            && Substitute(Braced(" title "), subs) == Substitute(Braced("title"), subs) == n.title
            && Substitute(Braced(" id "), subs) == Substitute(Braced("id"), subs) == n.id
            && Substitute(Braced(" year "), subs) == Substitute(Braced("year"), subs) == n.year
            && Substitute(Braced(" source_custom_name/or default "), subs) == n.source
            && Substitute(Braced("source_custom_name/or default"), subs) == n.source
            && Substitute(Braced(" source_custom_name_or_default "), subs) == n.source
            && Substitute(Braced("source_custom_name_or_default"), subs) == n.source
            && Substitute(Braced(" season_by_year__episode_by_date_and_index "), subs) == n.seasonEpisode
            && Substitute(Braced("season_by_year__episode_by_date_and_index"), subs) == n.seasonEpisode
  {
    forall k: nat | k < 14
      ensures Substitute(Braced(NAMES[k]), Substitutions(n, ext)) == NameValue(n, ext, k)
    {
      NameRenders(n, ext, k);
    }
    assert NAMES[0] == " ext " && NAMES[1] == "ext" && NAMES[2] == " title " && NAMES[3] == "title";
    assert NAMES[4] == " id " && NAMES[5] == "id" && NAMES[6] == " year " && NAMES[7] == "year";
    assert NAMES[8] == " source_custom_name/or default " && NAMES[9] == "source_custom_name/or default";
    assert NAMES[10] == " source_custom_name_or_default " && NAMES[11] == "source_custom_name_or_default";
    assert NAMES[12] == " season_by_year__episode_by_date_and_index ";
    assert NAMES[13] == "season_by_year__episode_by_date_and_index";
  }

  const SHORT: seq<string> := ["{title}", "{id}", "{year}", "{ext}", "%(ext)s"]

  lemma ShortAre(n: Names, ext: string)
    ensures |Substitutions(n, ext)| == 19 && Substitutions(n, ext)[14..] == SingleBraces(n, ext)
    ensures |SingleBraces(n, ext)| == 5 && forall i | 0 <= i < 5 :: SingleBraces(n, ext)[i].0 == SHORT[i]
    ensures SingleBraces(n, ext)[0].1 == n.title && SingleBraces(n, ext)[1].1 == n.id
    ensures SingleBraces(n, ext)[2].1 == n.year && SingleBraces(n, ext)[3].1 == SingleBraces(n, ext)[4].1 == ext
  {
    DoubleBracesAre(n, ext, 0);
  }

  /** A short placeholder has one opening brace or percent sign, at its start. */
  lemma ShortShape(k: nat)
    requires k < 5
    ensures |SHORT| == 5 && SHORT[k] != "" && SHORT[k][0] == (if k < 4 then '{' else '%')
    ensures forall j | 1 <= j < |SHORT[k]| :: SHORT[k][j] != '{' && SHORT[k][j] != '%'
  {}

  lemma ShortDiffer(i: nat, k: nat)
    requires i < k < 5
    ensures |SHORT| == 5 && !(SHORT[i] <= SHORT[k])
  {
    if k == 4 {
      ShortShape(i);
      ShortShape(4);
    } else {
      assert SHORT[0][1] == 't' && SHORT[1][1] == 'i' && SHORT[2][1] == 'y' && SHORT[3][1] == 'e';
    }
  }

  lemma ShortApart(k: nat, part: string)
    requires k < 5 && part != "" && (part[0] == '{' || part[0] == '%') && |SHORT| == 5 && !(part <= SHORT[k])
    ensures !Contains(SHORT[k], part)
  {
    ShortShape(k);
    forall i | 0 <= i <= |SHORT[k]|
      ensures !(part <= SHORT[k][i..])
    {
      if 0 < i < |SHORT[k]| {
        assert SHORT[k][i..][0] == SHORT[k][i];
      } else if i == 0 {
        assert SHORT[k][0..] == SHORT[k];
      }
    }
  }

  lemma NoDoubleInShort(i: nat, k: nat)
    requires i < 14 && k < 5
    ensures |SHORT| == 5 && |NAMES| == 14 && !Contains(SHORT[k], Braced(NAMES[i]))
  {
    NamesAreBare(i);
    BracedShape(NAMES[i]);
    ShortShape(k);
    var part := Braced(NAMES[i]);
    assert part[0] == part[1] == '{';
    ShortApart(k, part);
  }

  lemma ShortRenders(n: Names, ext: string, k: nat)
    requires k < 5 && Untouched(SingleBraces(n, ext)[k].1, Substitutions(n, ext))
    ensures Substitute(SHORT[k], Substitutions(n, ext)) == SingleBraces(n, ext)[k].1
  {
    var subs := Substitutions(n, ext);
    ShortAre(n, ext);
    assert subs[14 + k] == subs[14..][k];
    forall i | 0 <= i < 14 + k
      ensures !Contains(subs[14 + k].0, subs[i].0)
    {
      if i < 14 {
        DoubleBracesAre(n, ext, i);
        NoDoubleInShort(i, k);
      } else {
        assert subs[i] == subs[14..][i - 14];
        ShortShape(i - 14);
        ShortDiffer(i - 14, k);
        ShortApart(k, SHORT[i - 14]);
      }
    }
    LaterUntouched(subs[14 + k].1, subs, 14 + k + 1);
    PatternRenders(subs, 14 + k);
  }

  /** What each short placeholder stands for. */
  lemma ShortPlaceholdersRender(n: Names, ext: string)
    requires PlainValues(n, ext)
    ensures var subs := Substitutions(n, ext);
            && Substitute("{title}", subs) == n.title && Substitute("{id}", subs) == n.id
            && Substitute("{year}", subs) == n.year
            && Substitute("{ext}", subs) == Substitute("%(ext)s", subs) == ext
  {
    ShortAre(n, ext);
    forall k: nat | k < 5
      ensures Substitute(SHORT[k], Substitutions(n, ext)) == SingleBraces(n, ext)[k].1
    {
      ShortRenders(n, ext, k);
    }
    assert SHORT[0] == "{title}" && SHORT[1] == "{id}" && SHORT[2] == "{year}" && SHORT[3] == "{ext}";
    assert SHORT[4] == "%(ext)s";
  }

  // ---------------------------------------------------------------- a directory per source

  lemma NotIn(s: string, part: string)
    requires part != "" && part[0] !in s
    ensures !Contains(s, part)
  {
    forall i | 0 <= i < |s|
      ensures !(part <= s[i..])
    {
      assert s[i..][0] == s[i];
    }
  }

  lemma PatternsStart(n: Names, ext: string, i: nat)
    requires i < |Substitutions(n, ext)|
    ensures |Substitutions(n, ext)| == 19 && IsMark(Substitutions(n, ext)[i].0[0])
  {}

  lemma ExtIsUntouched(n: Names, ext: string)
    requires ValidExt(ext)
    ensures Untouched(ext, Substitutions(n, ext))
  {
    var subs := Substitutions(n, ext);
    forall i | 0 <= i < |subs|
      ensures !Contains(ext, subs[i].0)
    {
      PatternsStart(n, ext, i);
      NotIn(ext, subs[i].0);
    }
  }

  lemma SinglesHaveNoDots(n: Names, ext: string)
    ensures Across('.', SingleBraces(n, ext))
  {}

  lemma NoPatternHasDots(n: Names, ext: string)
    ensures Across('.', Substitutions(n, ext))
  {
    var subs := Substitutions(n, ext);
    SinglesHaveNoDots(n, ext);
    forall i | 0 <= i < |subs|
      ensures subs[i].0 != "" && '.' !in subs[i].0
    {
      if i < 14 {
        DoubleBracesAre(n, ext, i);
        NamesAreBare(i);
      } else {
        DoubleBracesAre(n, ext, 0);
        assert subs[i] == SingleBraces(n, ext)[i - 14];
      }
    }
  }

  /** The substitutions of the extension, the title, the id and the year; no slash stands in their names. */
  function EarlySubstitutions(n: Names, ext: string): (r: seq<(string, string)>)
    ensures |r| == 8 && forall i | 0 <= i < |r| :: r[i].0 != ""
  {
    DoubleBracesAre(n, ext, 0);
    DoubleBraces(n, ext)[..8]
  }

  lemma EarlyAre(n: Names, ext: string)
    ensures Across('/', EarlySubstitutions(n, ext)) && |Substitutions(n, ext)| == 19
    ensures EarlySubstitutions(n, ext) == Substitutions(n, ext)[..8]
    ensures forall i | 0 <= i < 8 :: EarlySubstitutions(n, ext)[i] == (Braced(NAMES[i]), NameValue(n, ext, i))
  {
    forall i: nat | i < 8
      ensures EarlySubstitutions(n, ext)[i] == (Braced(NAMES[i]), NameValue(n, ext, i))
      ensures '/' !in EarlySubstitutions(n, ext)[i].0
    {
      DoubleBracesAre(n, ext, i);
      NamesAreBare(i);
    }
    PatternsStart(n, ext, 0);
  }

  lemma {:induction false} SubstituteInTwo(s: string, subs: seq<(string, string)>, k: nat)
    requires k <= |subs| && forall i | 0 <= i < |subs| :: subs[i].0 != ""
    ensures Substitute(s, subs) == Substitute(Substitute(s, subs[..k]), subs[k..])
    decreases k
  {
    if k > 0 {
      var s1 := Replace(s, subs[0].0, subs[0].1);
      assert subs[..k][1..] == subs[1..][..k - 1] && subs[1..][k - 1..] == subs[k..] && subs[..k][0] == subs[0];
      SubstituteInTwo(s1, subs[1..], k - 1);
    } else {
      assert subs[0..] == subs;
    }
  }

  /** The early substitutions find nothing in the placeholder of the source. */
  lemma SourceStaysEarly(n: Names, ext: string, si: nat)
    requires si == 8 || si == 9
    ensures Untouched(Braced(NAMES[si]), EarlySubstitutions(n, ext))
  {
    EarlyAre(n, ext);
    forall i: nat | i < 8
      ensures !Contains(Braced(NAMES[si]), EarlySubstitutions(n, ext)[i].0)
    {
      NamesAreBare(i);
      NamesAreBare(si);
      NamesDiffer(i, si);
      BracedOccurs(NAMES[si], NAMES[i]);
    }
  }

  lemma TitleRendersEarly(n: Names, ext: string, ti: nat)
    requires (ti == 2 || ti == 3) && Untouched(n.title, Substitutions(n, ext))
    ensures Substitute(Braced(NAMES[ti]), EarlySubstitutions(n, ext)) == n.title
  {
    var early := EarlySubstitutions(n, ext);
    EarlyAre(n, ext);
    forall i: nat | i < ti
      ensures !Contains(early[ti].0, early[i].0)
    {
      NamesAreBare(i);
      NamesAreBare(ti);
      NamesDiffer(i, ti);
      BracedOccurs(NAMES[ti], NAMES[i]);
    }
    assert forall i | 0 <= i < 8 :: early[i] == Substitutions(n, ext)[i];
    PatternRenders(early, ti);
  }

  lemma {:induction false} OccursInPart(a: string, b: string, c: string, part: string)
    requires Contains(b, part)
    ensures Contains(a + b + c, part)
  {
    var i :| 0 <= i <= |b| && part <= b[i..];
    assert (a + b + c)[|a| + i..] == b[i..] + c;
    assert part <= b[i..] + c;
  }

  /** What does not occur in a text does not occur in a part of it. */
  lemma PartIsUntouched(a: string, b: string, c: string, subs: seq<(string, string)>)
    requires Untouched(a + b + c, subs)
    ensures Untouched(b, subs)
  {
    forall i | 0 <= i < |subs|
      ensures !Contains(b, subs[i].0)
    {
      if Contains(b, subs[i].0) {
        OccursInPart(a, b, c, subs[i].0);
      }
    }
  }

  /** The placeholder of the source with inner spaces does not begin in the one without. */
  lemma SpacedIsNotFound(rest: string)
    requires !Contains(rest, Braced(NAMES[8]))
    ensures !Contains(Braced(NAMES[9]) + rest, Braced(NAMES[8]))
  {
    var p, q := Braced(NAMES[9]), Braced(NAMES[8]);
    NamesAreBare(8);
    NamesAreBare(9);
    BracedShape(NAMES[8]);
    BracedShape(NAMES[9]);
    var s := p + rest;
    forall i | 0 <= i <= |s|
      ensures !(q <= s[i..])
    {
      if i >= |p| {
        assert s[i..] == rest[i - |p|..];
      } else if i + 1 < |s| {
        assert s[i..][0] == p[i] && s[i..][1] == s[i + 1];
        if i == 0 {
          assert s[2] == p[2] == 's' && q[2] == ' ';
        }
      }
    }
  }

  lemma SourceFound(n: Names, ext: string, si: nat)
    requires si == 8 || si == 9
    ensures |Substitutions(n, ext)| == 19 && Substitutions(n, ext)[si] == (Braced(NAMES[si]), n.source)
    ensures Substitutions(n, ext)[8].0 == Braced(NAMES[8])
  {
    PatternsStart(n, ext, 0);
    DoubleBracesAre(n, ext, 8);
    DoubleBracesAre(n, ext, si);
  }

  lemma {:induction false} FrontReplaced(subs: seq<(string, string)>, rest: string)
    requires subs != [] && subs[0].0 != "" && !Contains(rest, subs[0].0)
    requires Untouched(subs[0].1 + rest, subs[1..]) && forall i | 0 <= i < |subs| :: subs[i].0 != ""
    ensures Substitute(subs[0].0 + rest, subs) == subs[0].1 + rest
  {
    ReplacedFirst(subs[0].0, rest, subs[0].1);
    NothingToReplace(rest, subs[0].0, subs[0].1);
    NothingSubstituted(subs[0].1 + rest, subs[1..]);
  }

  lemma {:induction false} SourceReplaced(n: Names, ext: string, si: nat, rest: string)
    requires si == 8 || si == 9
    requires Untouched(n.source + rest, Substitutions(n, ext)) && Untouched(rest, Substitutions(n, ext))
    ensures |Substitutions(n, ext)| == 19
    ensures Substitute(Braced(NAMES[si]) + rest, Substitutions(n, ext)[8..]) == n.source + rest
  {
    var subs := Substitutions(n, ext);
    SourceFound(n, ext, si);
    assert !Contains(rest, subs[8].0) && !Contains(rest, subs[si].0);
    LaterUntouched(n.source + rest, subs, si + 1);
    assert subs[si..][0] == subs[si] && subs[si..][1..] == subs[si + 1..];
    FrontReplaced(subs[si..], rest);
    if si == 9 {
      SpacedIsNotFound(rest);
      NothingToReplace(Braced(NAMES[9]) + rest, subs[8].0, subs[8].1);
      assert subs[8..][0] == subs[8] && subs[8..][1..] == subs[9..];
    }
  }

  /** The template with a directory per source, with or without inner spaces. */
  function BySource(spaced: bool): string {
    if spaced then "{{ source_custom_name/or default }}/{{ title }}.{{ ext }}"
    else "{{source_custom_name/or default}}/{{title}}.{{ext}}"
  }

  lemma BracedAre()
    ensures Braced(" title ") == "{{ title }}" && Braced("title") == "{{title}}"
    ensures Braced(" ext ") == "{{ ext }}" && Braced("ext") == "{{ext}}"
  {}

  lemma SpacedSourceIs()
    ensures Braced(" source_custom_name/or default ") == "{{ source_custom_name/or default }}"
  {}

  lemma SourceIs()
    ensures Braced("source_custom_name/or default") == "{{source_custom_name/or default}}"
  {}

  lemma SpacedWhole()
    ensures BySource(true) == "{{ source_custom_name/or default }}" + ['/'] + "{{ title }}" + ['.'] + "{{ ext }}"
  {}

  lemma UnspacedWhole()
    ensures BySource(false) == "{{source_custom_name/or default}}" + ['/'] + "{{title}}" + ['.'] + "{{ext}}"
  {}

  lemma SpacedIs()
    ensures BySource(true) == Braced(NAMES[8]) + ['/'] + Braced(NAMES[2]) + ['.'] + Braced(NAMES[0])
  {
    BracedAre();
    SpacedSourceIs();
    SpacedWhole();
  }

  lemma UnspacedIs()
    ensures BySource(false) == Braced(NAMES[9]) + ['/'] + Braced(NAMES[3]) + ['.'] + Braced(NAMES[1])
  {
    BracedAre();
    SourceIs();
    UnspacedWhole();
  }

  lemma BySourceSubstitutes(spaced: bool, n: Names, ext: string)
    requires ValidExt(ext) && Untouched(n.source + "/" + n.title, Substitutions(n, ext))
    ensures Substitute(BySource(spaced), Substitutions(n, ext)) == n.source + "/" + n.title + "." + ext
  {
    var subs, early := Substitutions(n, ext), EarlySubstitutions(n, ext);
    var si, ti, ei := if spaced then 8 else 9, if spaced then 2 else 3, if spaced then 0 else 1;
    var a, b, c := Braced(NAMES[si]), Braced(NAMES[ti]), Braced(NAMES[ei]);
    SpacedIs();
    UnspacedIs();
    assert BySource(spaced) == (a + ['/'] + b) + ['.'] + c;
    NoPatternHasDots(n, ext);
    SubstitutedAcross(a + ['/'] + b, '.', c, subs);
    ExtIsUntouched(n, ext);
    NameRenders(n, ext, ei);
    HeadSubstitutes(n, ext, si, ti);
  }

  lemma HeadSubstitutesEarly(n: Names, ext: string, si: nat, ti: nat)
    requires (si == 8 || si == 9) && (ti == 2 || ti == 3) && Untouched(n.title, Substitutions(n, ext))
    ensures Substitute(Braced(NAMES[si]) + ['/'] + Braced(NAMES[ti]), EarlySubstitutions(n, ext))
            == Braced(NAMES[si]) + ['/'] + n.title
  {
    var early := EarlySubstitutions(n, ext);
    var a, b := Braced(NAMES[si]), Braced(NAMES[ti]);
    EarlyAre(n, ext);
    SubstitutedAcross(a, '/', b, early);
    SourceStaysEarly(n, ext, si);
    NothingSubstituted(a, early);
    TitleRendersEarly(n, ext, ti);
  }

  lemma PartsAreUntouched(n: Names, ext: string)
    requires Untouched(n.source + "/" + n.title, Substitutions(n, ext))
    ensures n.source + "/" + n.title == n.source + (['/'] + n.title)
    ensures Untouched(n.title, Substitutions(n, ext)) && Untouched(['/'] + n.title, Substitutions(n, ext))
  {
    var rest := ['/'] + n.title;
    assert n.source + "/" + n.title == (n.source + "/") + n.title + "" == n.source + rest + "" == n.source + rest;
    PartIsUntouched(n.source + "/", n.title, "", Substitutions(n, ext));
    PartIsUntouched(n.source, rest, "", Substitutions(n, ext));
  }

  lemma HeadSubstitutes(n: Names, ext: string, si: nat, ti: nat)
    requires (si == 8 || si == 9) && (ti == 2 || ti == 3) && Untouched(n.source + "/" + n.title, Substitutions(n, ext))
    ensures Substitute(Braced(NAMES[si]) + ['/'] + Braced(NAMES[ti]), Substitutions(n, ext)) == n.source + "/" + n.title
  {
    var subs := Substitutions(n, ext);
    var a, b, rest := Braced(NAMES[si]), Braced(NAMES[ti]), ['/'] + n.title;
    EarlyAre(n, ext);
    PartsAreUntouched(n, ext);
    SubstituteInTwo(a + ['/'] + b, subs, 8);
    HeadSubstitutesEarly(n, ext, si, ti);
    assert a + ['/'] + n.title == a + rest;
    SourceReplaced(n, ext, si, rest);
  }

  lemma PlainFileIsComponent(title: string, ext: string)
    requires ValidExt(ext) && Clean(title) && Tight(title)
    ensures Component(title + "." + ext)
  {
    var s := title + "." + ext;
    assert s[|s| - 1] == ext[|ext| - 1] && s[|title|] == '.';
  }

  lemma TwoComponents(source: string, file: string)
    requires Clean(source) && Tight(source) && Component(file)
    ensures Components([source, file])
            == if source == "" || source == "." || source == ".." then [file] else [source, file]
  {
    ComponentStays(file);
    TightIsTrimmed(source);
    SanitizeTight(source);
    assert [source, file][1..] == [file] && [file][1..] == [];
    assert Components([]) == [];
    assert Components([file]) == [file];
    if source != "" && source != "." && source != ".." {
      ComponentStays(source);
    }
  }

  lemma TwoPieces(source: string, file: string)
    requires Clean(source) && Tight(source) && Component(file)
    ensures var s := source + ['/'] + file;
            Trim(s) != "" && SplitOn(Replace(s, "\\", "/"), '/') == [source, file]
  {
    var s := source + ['/'] + file;
    NoBackslash(s);
    SplitFirst(source, file, '/');
    SplitNothing(file, '/');
    assert s[0] == if source == "" then '/' else source[0];
    TrimEndKeepsStart(s);
  }

  lemma SegmentsOf(template: string, n: Names, ext: string, raw: string, pieces: seq<string>)
    requires Substitute(template, Substitutions(n, ext)) == raw && Trim(raw) != ""
    requires SplitOn(Replace(raw, "\\", "/"), '/') == pieces && Components(pieces) != []
    ensures Segments(template, n, ext, true) == Components(pieces)
  {}

  lemma FileIsLast(source: string, title: string, ext: string)
    ensures source + "/" + title + "." + ext == source + ['/'] + (title + "." + ext)
  {}

  lemma BySourceRaw(spaced: bool, n: Names, ext: string)
    requires ValidExt(ext) && Untouched(n.source + "/" + n.title, Substitutions(n, ext))
    ensures Substitute(BySource(spaced), Substitutions(n, ext)) == n.source + ['/'] + (n.title + "." + ext)
  {
    BySourceSubstitutes(spaced, n, ext);
    FileIsLast(n.source, n.title, ext);
  }

  lemma TwoSegments(template: string, n: Names, ext: string, file: string)
    requires Substitute(template, Substitutions(n, ext)) == n.source + ['/'] + file
    requires Clean(n.source) && Tight(n.source) && Component(file)
    ensures Segments(template, n, ext, true)
            == if n.source == "" || n.source == "." || n.source == ".." then [file] else [n.source, file]
  {
    TwoPieces(n.source, file);
    TwoComponents(n.source, file);
    SegmentsOf(template, n, ext, n.source + ['/'] + file, [n.source, file]);
  }

  lemma BySourceSegments(spaced: bool, n: Names, ext: string)
    requires ValidExt(ext) && Untouched(n.source + "/" + n.title, Substitutions(n, ext))
    requires Clean(n.source) && Tight(n.source) && Clean(n.title) && Tight(n.title)
    ensures var file := n.title + "." + ext;
            Segments(BySource(spaced), n, ext, true)
            == if n.source == "" || n.source == "." || n.source == ".." then [file] else [n.source, file]
  {
    BySourceRaw(spaced, n, ext);
    PlainFileIsComponent(n.title, ext);
    TwoSegments(BySource(spaced), n, ext, n.title + "." + ext);
  }

  lemma BySourcePath(spaced: bool, n: Names, ext: string)
    requires ValidExt(ext) && Untouched(n.source + "/" + n.title, Substitutions(n, ext))
    requires Clean(n.source) && Tight(n.source) && Clean(n.title) && Tight(n.title)
    ensures var file := WithExtension(n.title + "." + ext, ext);
            Path(BySource(spaced), n, ext, true)
            == if n.source == "" || n.source == "." || n.source == ".." then [file] else [n.source, file]
  {
    BySourceSegments(spaced, n, ext);
  }

  lemma FileKeepsExtension(title: string, ext: string)
    requires ValidExt(ext)
    ensures WithExtension(title + "." + ext, ext) == title + "." + ext <==> !EndsWithFolded(title, "." + ext)
  {
    var file := title + "." + ext;
    WithExtensionMeans(file, ext);
    DoubledStem(title, ext);
    FoldedSuffix(file, "." + ext);
    assert file[|file| - |"." + ext|..] == "." + ext;
  }

  /**
   For every title and source name without placeholders, the template with a
   directory per source gives the two components `source` and `title.ext` if and
   only if the source's name can be a directory and the title does not itself end
   in the extension.
   */
  lemma {:induction false} BySourceRenders(spaced: bool, title: string, id: string, source: string, year: string,
                                           seasonEpisode: string, ext: string)
    requires ValidExt(ext)
    requires var n := SanitizedNames(title, id, source, year, seasonEpisode);
             Untouched(n.source + "/" + n.title, Substitutions(n, ext))
    ensures var n := SanitizedNames(title, id, source, year, seasonEpisode);
            Path(BySource(spaced), n, ext, true) == [n.source, n.title + "." + ext]
            <==> n.source != "" && n.source != "." && n.source != ".." && !EndsWithFolded(n.title, "." + ext)
  {
    var n := SanitizedNames(title, id, source, year, seasonEpisode);
    SanitizedIsNeat(title);
    SanitizedIsNeat(source);
    BySourcePath(spaced, n, ext);
    FileKeepsExtension(n.title, ext);
    assert [WithExtension(n.title + "." + ext, ext)] != [n.source, n.title + "." + ext];
  }
}
