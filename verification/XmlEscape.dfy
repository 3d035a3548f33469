/** Escaping text for an NFO file (`xml_escape` in `jellyfin.rs`; sections 2.4 and 4.6 of XML 1.0). */
module XmlEscape {
  import opened Outcomes
  import opened Text

  /** Five replacements over the whole text, the ampersand first. */
  function Escape(s: string): string {
    var s := Replace(s, "&", "&amp;");
    var s := Replace(s, "<", "&lt;");
    var s := Replace(s, ">", "&gt;");
    var s := Replace(s, "\"", "&quot;");
    Replace(s, "'", "&apos;")
  }

  /** The reference for the predefined entities. */
  function Entity(c: char): string {
    match c
    case '&' => "&amp;"
    case '<' => "&lt;"
    case '>' => "&gt;"
    case '"' => "&quot;"
    case '\'' => "&apos;"
    case _ => [c]
  }

  /** One pass, character by character. */
  function EscapeChars(s: string): string {
    if s == "" then "" else Entity(s[0]) + EscapeChars(s[1..])
  }

  /** What an XML reader makes of a text with the predefined entities; `None` if it is not one. */
  function Decode(s: string): Option<string>
    decreases |s|
  {
    if s == "" then Some("")
    else if "&amp;" <= s then Prepend('&', Decode(s[5..]))
    else if "&lt;" <= s then Prepend('<', Decode(s[4..]))
    else if "&gt;" <= s then Prepend('>', Decode(s[4..]))
    else if "&quot;" <= s then Prepend('"', Decode(s[6..]))
    else if "&apos;" <= s then Prepend('\'', Decode(s[6..]))
    else if s[0] in {'&', '<', '>', '"', '\''} then None
    else Prepend(s[0], Decode(s[1..]))
  }

  function Prepend(c: char, rest: Option<string>): Option<string> {
    if rest.None? then None else Some([c] + rest.value)
  }

  // ---------------------------------------------------------------- the sequential form is the one-pass form

  /** Replacing one character, one character at a time. */
  function ReplaceChar(s: string, c: char, to: string): string {
    if s == "" then "" else (if s[0] == c then to else [s[0]]) + ReplaceChar(s[1..], c, to)
  }

  lemma {:induction false} ReplaceIsPerChar(s: string, c: char, to: string)
    ensures Replace(s, [c], to) == ReplaceChar(s, c, to)
  {
    if s != "" {
      assert [c] <= s <==> s[0] == c;
      ReplaceIsPerChar(s[1..], c, to);
    }
  }

  lemma {:induction false} ReplaceCharAppend(a: string, b: string, c: char, to: string)
    ensures ReplaceChar(a + b, c, to) == ReplaceChar(a, c, to) + ReplaceChar(b, c, to)
  {
    if a == "" {
      assert a + b == b;
    } else {
      assert (a + b)[1..] == a[1..] + b;
      ReplaceCharAppend(a[1..], b, c, to);
    }
  }

  lemma {:induction false} Untouched(s: string, c: char, to: string)
    requires c !in s
    ensures ReplaceChar(s, c, to) == s
  {
    if s != "" {
      Untouched(s[1..], c, to);
    }
  }

  function Sequential(s: string): string {
    var s := ReplaceChar(ReplaceChar(ReplaceChar(s, '&', "&amp;"), '<', "&lt;"), '>', "&gt;");
    ReplaceChar(ReplaceChar(s, '"', "&quot;"), '\'', "&apos;")
  }

  lemma SequentialAppend(a: string, b: string)
    ensures Sequential(a + b) == Sequential(a) + Sequential(b)
  {
    ReplaceCharAppend(a, b, '&', "&amp;");
    var a1, b1 := ReplaceChar(a, '&', "&amp;"), ReplaceChar(b, '&', "&amp;");
    ReplaceCharAppend(a1, b1, '<', "&lt;");
    var a2, b2 := ReplaceChar(a1, '<', "&lt;"), ReplaceChar(b1, '<', "&lt;");
    ReplaceCharAppend(a2, b2, '>', "&gt;");
    var a3, b3 := ReplaceChar(a2, '>', "&gt;"), ReplaceChar(b2, '>', "&gt;");
    ReplaceCharAppend(a3, b3, '"', "&quot;");
    ReplaceCharAppend(ReplaceChar(a3, '"', "&quot;"), ReplaceChar(b3, '"', "&quot;"), '\'', "&apos;");
  }

  lemma One(c: char, d: char, to: string)
    ensures ReplaceChar([c], d, to) == if c == d then to else [c]
  {
    assert ReplaceChar([c][1..], d, to) == "";
    assert to + "" == to;
  }

  /** One round on a text that is still the character `c`, or that an earlier round has replaced. */
  lemma Round(c: char, text: string, d: char, to: string)
    requires text == [c] || (c != d && d !in text)
    ensures ReplaceChar(text, d, to) == if text == [c] && c == d then to else text
  {
    if text == [c] {
      One(c, d, to);
    } else {
      Untouched(text, d, to);
    }
  }

  /** The rounds after the first, on a text none of them finds anything in. */
  lemma LastFour(text: string)
    requires '<' !in text && '>' !in text && '"' !in text && '\'' !in text
    ensures var s := ReplaceChar(ReplaceChar(text, '<', "&lt;"), '>', "&gt;");
            ReplaceChar(ReplaceChar(s, '"', "&quot;"), '\'', "&apos;") == text
  {
    Untouched(text, '<', "&lt;");
    Untouched(text, '>', "&gt;");
    Untouched(text, '"', "&quot;");
    Untouched(text, '\'', "&apos;");
  }

  lemma LastThree(text: string)
    requires '>' !in text && '"' !in text && '\'' !in text
    ensures ReplaceChar(ReplaceChar(ReplaceChar(text, '>', "&gt;"), '"', "&quot;"), '\'', "&apos;") == text
  {
    Untouched(text, '>', "&gt;");
    Untouched(text, '"', "&quot;");
    Untouched(text, '\'', "&apos;");
  }

  lemma LessChar()
    ensures Sequential("<") == "&lt;"
  {
    Round('<', "<", '&', "&amp;");
    Round('<', "<", '<', "&lt;");
    LastThree("&lt;");
  }

  lemma GreaterChar()
    ensures Sequential(">") == "&gt;"
  {
    Round('>', ">", '&', "&amp;");
    Round('>', ">", '<', "&lt;");
    Round('>', ">", '>', "&gt;");
    var e := "&gt;";
    Untouched(e, '"', "&quot;");
    Untouched(e, '\'', "&apos;");
  }

  lemma QuoteChar()
    ensures Sequential("\"") == "&quot;"
  {
    Round('"', "\"", '&', "&amp;");
    Round('"', "\"", '<', "&lt;");
    Round('"', "\"", '>', "&gt;");
    Round('"', "\"", '"', "&quot;");
    Untouched("&quot;", '\'', "&apos;");
  }

  lemma ApostropheChar()
    ensures Sequential("'") == "&apos;"
  {
    Round('\'', "'", '&', "&amp;");
    Round('\'', "'", '<', "&lt;");
    Round('\'', "'", '>', "&gt;");
    Round('\'', "'", '"', "&quot;");
    Round('\'', "'", '\'', "&apos;");
  }

  /** A character that is replaced in one round is left alone by the later ones. */
  lemma SequentialChar(c: char)
    ensures Sequential([c]) == Entity(c)
  {
    match c
    case '<' => LessChar();
    case '>' => GreaterChar();
    case '"' => QuoteChar();
    case '\'' => ApostropheChar();
    case _ =>
      Round(c, [c], '&', "&amp;");
      LastFour(if c == '&' then "&amp;" else [c]);
  }

  lemma EscapeIsSequential(s: string)
    ensures Escape(s) == Sequential(s)
  {
    ReplaceIsPerChar(s, '&', "&amp;");
    var s1 := ReplaceChar(s, '&', "&amp;");
    ReplaceIsPerChar(s1, '<', "&lt;");
    var s2 := ReplaceChar(s1, '<', "&lt;");
    ReplaceIsPerChar(s2, '>', "&gt;");
    var s3 := ReplaceChar(s2, '>', "&gt;");
    ReplaceIsPerChar(s3, '"', "&quot;");
    ReplaceIsPerChar(ReplaceChar(s3, '"', "&quot;"), '\'', "&apos;");
  }

  /** The five sequential replacements are one pass over the characters. */
  lemma {:induction false} EscapeIsOnePass(s: string)
    ensures Escape(s) == EscapeChars(s)
  {
    EscapeIsSequential(s);
    if s != "" {
      EscapeIsSequential(s[1..]);
      EscapeIsOnePass(s[1..]);
      SequentialAppend([s[0]], s[1..]);
      assert [s[0]] + s[1..] == s;
      SequentialChar(s[0]);
    }
  }

  // ---------------------------------------------------------------- reading it back

  lemma DecodeEntity(c: char, rest: string)
    ensures Decode(Entity(c) + rest) == Prepend(c, Decode(rest))
  {
    var e := Entity(c);
    var s := e + rest;
    assert s[..|e|] == e && s[|e|..] == rest;
    assert c == '"' ==> s[1] == 'q';
    assert c == '\'' ==> s[1] == 'a' && s[2] == 'p';
    assert c == '&' ==> s[1] == 'a' && s[2] == 'm';
    assert c == '<' ==> s[1] == 'l';
    assert c == '>' ==> s[1] == 'g';
  }

  /** A reader recovers exactly the escaped text; in particular the output is well formed throughout. */
  lemma {:induction false} DecodeEscape(s: string)
    ensures Decode(Escape(s)) == Some(s)
  {
    EscapeIsOnePass(s);
    if s != "" {
      EscapeIsOnePass(s[1..]);
      DecodeEscape(s[1..]);
      DecodeEntity(s[0], EscapeChars(s[1..]));
      assert [s[0]] + s[1..] == s;
    }
  }

  /** Escaping is injective: different titles never give the same markup. */
  lemma EscapeIsInjective(a: string, b: string)
    requires Escape(a) == Escape(b)
    ensures a == b
  {
    DecodeEscape(a);
    DecodeEscape(b);
  }

  predicate StartsEntity(s: string) {
    "&amp;" <= s || "&lt;" <= s || "&gt;" <= s || "&quot;" <= s || "&apos;" <= s
  }

  lemma EntityIsSafe(c: char, rest: string, i: nat)
    requires i < |Entity(c)|
    ensures var s := Entity(c) + rest; s[i] !in {'<', '>', '"', '\''} && (s[i] == '&' ==> i == 0 && StartsEntity(s))
  {
    var e := Entity(c);
    assert (e + rest)[..|e|] == e;
    assert (e + rest)[i] == e[i];
    assert e[i] == '&' ==> i == 0 && c in {'&', '<', '>', '"', '\''};
  }

  /** No markup character is left bare: no `<`, `>`, or quote occurs, and every `&` starts an entity. */
  lemma {:induction false} EscapedIsSafe(s: string, i: nat)
    requires i < |Escape(s)|
    ensures var e := Escape(s); e[i] !in {'<', '>', '"', '\''} && (e[i] == '&' ==> StartsEntity(e[i..]))
    decreases |s|
  {
    EscapeIsOnePass(s);
    var n := |Entity(s[0])|;
    var rest := EscapeChars(s[1..]);
    EscapeIsOnePass(s[1..]);
    if i < n {
      EntityIsSafe(s[0], rest, i);
    } else {
      EscapedIsSafe(s[1..], i - n);
      assert Escape(s)[i..] == rest[i - n..];
    }
  }
}
