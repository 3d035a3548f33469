/** `/` search: row matching and the server-side activity filter (`search.rs`). */
module Search {
  import opened Outcomes
  import opened Text

  // ---------------------------------------------------------------- row matching

  /** Whether every term is a substring of a field or a prefix of a keyword. */
  predicate Matches(terms: seq<string>, fields: seq<string>, keywords: seq<string>) {
    forall t | t in terms ::
      || (exists f | f in fields :: Contains(Lower(f), t))
      || (exists k | k in keywords :: StartsWith(k, t))
  }

  function Terms(query: string): seq<string> {
    var words := SplitWhitespace(query);
    seq(|words|, i requires 0 <= i < |words| => Lower(words[i]))
  }

  // ---------------------------------------------------------------- activity filter

  datatype Severity = Info | Success | Warning | Error

  datatype ActivityFilter = ActivityFilter(severity: Option<Severity>, search: Option<string>)

  const NO_FILTER := ActivityFilter(None, None)

  /** The label of a severity in the table, which also names it in a query. */
  function Label(s: Severity): string {
    match s
    case Info => "info"
    case Success => "ok"
    case Warning => "warn"
    case Error => "error"
  }

  /** A severity named by its label or full name, in any case. */
  function SeverityWord(term: string): Option<Severity> {
    var word := Lower(term);
    if word == "info" then Some(Info)
    else if word == "ok" || word == "success" then Some(Success)
    else if word == "warn" || word == "warning" then Some(Warning)
    else if word == "err" || word == "error" then Some(Error)
    else None
  }

  /** Position of the first term that names a severity, or the number of terms. */
  function FirstSeverity(terms: seq<string>): (k: nat)
    ensures k <= |terms|
    ensures k < |terms| ==> SeverityWord(terms[k]).Some?
    ensures forall i | 0 <= i < k :: SeverityWord(terms[i]).None?
  {
    if terms == [] || SeverityWord(terms[0]).Some? then 0 else 1 + FirstSeverity(terms[1..])
  }

  /** The terms that stay in the message search, in their order: all but the first severity. */
  function MessageTerms(terms: seq<string>): seq<string> {
    var k := FirstSeverity(terms);
    if k == |terms| then terms else terms[..k] + terms[k + 1..]
  }

  function Filter(query: string): ActivityFilter {
    var terms := SplitWhitespace(query);
    var k := FirstSeverity(terms);
    var rest := MessageTerms(terms);
    FilterOf(if k == |terms| then None else SeverityWord(terms[k]), rest)
  }

  lemma FirstSeverityIs(terms: seq<string>, n: nat)
    requires n <= |terms|
    requires forall i | 0 <= i < n :: SeverityWord(terms[i]).None?
    requires n < |terms| ==> SeverityWord(terms[n]).Some?
    ensures FirstSeverity(terms) == n
  {}

  function FilterOf(severity: Option<Severity>, rest: seq<string>): ActivityFilter {
    ActivityFilter(severity, if rest == [] then None else Some(Join(rest, " ")))
  }

  /** What a pass over the first `n` terms has found, the severity at `first`. */
  ghost predicate Scanned(terms: seq<string>, n: nat, severity: Option<Severity>, rest: seq<string>, first: nat)
    requires n <= |terms|
  {
    && (severity.None? ==> first == n && rest == terms[..n])
    && (severity.Some? ==>
          first < n && severity == SeverityWord(terms[first]) && rest == terms[..first] + terms[first + 1..n])
    && (forall i | 0 <= i < n && i < first :: SeverityWord(terms[i]).None?)
  }

  lemma ScansNext(terms: seq<string>, n: nat, severity: Option<Severity>, rest: seq<string>, first: nat)
    requires n < |terms| && Scanned(terms, n, severity, rest, first)
    ensures var word := SeverityWord(terms[n]);
            if word.Some? && severity.None? then Scanned(terms, n + 1, word, rest, n)
            else Scanned(terms, n + 1, severity, rest + [terms[n]], if severity.None? then n + 1 else first)
  {
    if severity.Some? {
      assert terms[first + 1..n + 1] == terms[first + 1..n] + [terms[n]];
    } else {
      assert terms[n + 1..n + 1] == [];
      assert terms[..n + 1] == terms[..n] + [terms[n]];
    }
  }

  lemma ScannedAll(query: string, terms: seq<string>, severity: Option<Severity>, rest: seq<string>, first: nat)
    requires terms == SplitWhitespace(query) && Scanned(terms, |terms|, severity, rest, first)
    ensures FilterOf(severity, rest) == Filter(query)
  {
    FirstSeverityIs(terms, first);
    assert terms[..|terms|] == terms;
    if severity.Some? {
      assert terms[first + 1..|terms|] == terms[first + 1..];
    }
  }

  /** `ActivityFilter::parse`: one pass that takes the first severity out of the terms. */
  method ParseFilter(query: string) returns (filter: ActivityFilter)
    ensures filter == Filter(query)
  {
    var terms := SplitWhitespace(query);
    var severity: Option<Severity> := None;
    var rest: seq<string> := [];
    ghost var first := 0;
    for n := 0 to |terms|
      invariant Scanned(terms, n, severity, rest, first)
    {
      ScansNext(terms, n, severity, rest, first);
      var word := SeverityWord(terms[n]);
      if word.Some? && severity.None? {
        severity, first := word, n;
      } else {
        rest := rest + [terms[n]];
        first := if severity.None? then n + 1 else first;
      }
    }
    ScannedAll(query, terms, severity, rest, first);
    filter := FilterOf(severity, rest);
  }

  /** `ActivityFilter::describe`. */
  function Describe(f: ActivityFilter): string {
    Join((if f.severity.Some? then [Label(f.severity.value)] else [])
         + (if f.search.Some? then [f.search.value] else []), " ")
  }

  /** The words `Describe` shows for the filter of `terms`. */
  function DescribedTerms(terms: seq<string>): seq<string> {
    var k := FirstSeverity(terms);
    if k == |terms| then terms else [Label(SeverityWord(terms[k]).value)] + MessageTerms(terms)
  }

  /** The words that name a severity, in any case. */
  lemma SeverityWords(term: string, s: Severity)
    ensures SeverityWord(term) == Some(s)
            <==> Lower(term) in match s
                                case Info => {"info"}
                                case Success => {"ok", "success"}
                                case Warning => {"warn", "warning"}
                                case Error => {"err", "error"}
  {}

  lemma LabelNamesItself(s: Severity)
    ensures IsWord(Label(s)) && SeverityWord(Label(s)) == Some(s)
  {
    var l := Label(s);
    assert Lower(l) == l;
  }

  /** Every message term survives in order; only the first severity word is taken out. */
  lemma FilterKeepsTerms(query: string)
    ensures var terms := SplitWhitespace(query); var f := Filter(query); var k := FirstSeverity(terms);
            && f.severity.Some? == (k < |terms|)
            && (f.search.Some? ==> SplitWhitespace(f.search.value) == MessageTerms(terms))
            && (f.search.None? ==> MessageTerms(terms) == [])
            && (k < |terms| ==>
                  MessageTerms(terms) == terms[..k] + terms[k + 1..] && f.severity == SeverityWord(terms[k]))
            && (k == |terms| ==> MessageTerms(terms) == terms)
  {
    WordsAreWords(query, "");
    SplitJoin(MessageTerms(SplitWhitespace(query)));
  }

  lemma DescribeJoins(query: string)
    ensures Describe(Filter(query)) == Join(DescribedTerms(SplitWhitespace(query)), " ")
  {
    var terms := SplitWhitespace(query);
    var rest := MessageTerms(terms);
    if FirstSeverity(terms) < |terms| && rest != [] {
      var shown := Label(SeverityWord(terms[FirstSeverity(terms)]).value);
      assert DescribedTerms(terms)[1..] == rest;
      var parts := [shown] + [Join(rest, " ")];
      assert parts[1..] == [Join(rest, " ")];
      assert Describe(Filter(query)) == Join(parts, " ") == shown + " " + Join(rest, " ");
    }
  }

  /** A filter shown to the user and parsed again is the same filter. */
  lemma {:induction false} ParseDescribe(query: string)
    ensures Filter(Describe(Filter(query))) == Filter(query)
  {
    var terms := SplitWhitespace(query);
    var shown := DescribedTerms(terms);
    var k := FirstSeverity(terms);
    WordsAreWords(query, "");
    DescribeJoins(query);
    if k < |terms| {
      LabelNamesItself(SeverityWord(terms[k]).value);
      FirstSeverityIs(shown, 0);
      assert shown[..0] + shown[1..] == MessageTerms(terms);
    }
    SplitJoin(shown);
  }
}
