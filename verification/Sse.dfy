/**
 The progress stream: bytes to lines to `text/event-stream` frames (`sse.rs`,
 `consume_progress_stream` in `client.rs`).

 A character stands for one byte. Everything here looks only at line feeds,
 carriage returns, spaces and the field name `data:`, which the per-line UTF-8
 decoding leaves as they are.
 */
module Sse {
  import opened Outcomes
  import opened Text

  // ---------------------------------------------------------------- one line

  function StripCR(line: string): string {
    if line != "" && line[|line| - 1] == '\r' then line[..|line| - 1] else line
  }

  /** One line fed to a parser that holds `pending` data lines: its new lines, and a completed payload. */
  function FeedLine(pending: seq<string>, line: string): (seq<string>, Option<string>) {
    var line := StripCR(line);
    if line == "" then
      if pending == [] then ([], None) else ([], Some(Join(pending, "\n")))
    else if "data:" <= line then
      var data := line[5..];
      (pending + [if data != "" && data[0] == ' ' then data[1..] else data], None)
    else (pending, None)
  }

  class SseParser {
    var dataLines: seq<string>

    constructor ()
      ensures dataLines == []
    {
      dataLines := [];
    }

    method Feed(raw: string) returns (payload: Option<string>)
      modifies this
      ensures (dataLines, payload) == FeedLine(old(dataLines), raw)
    {
      var line := StripCR(raw);
      if line == "" {
        if dataLines == [] {
          return None;
        }
        payload := Some(Join(dataLines, "\n"));
        dataLines := [];
        return;
      }
      if "data:" <= line {
        var data := line[5..];
        dataLines := dataLines + [if data != "" && data[0] == ' ' then data[1..] else data];
      }
      payload := None;
    }
  }

  // ---------------------------------------------------------------- a whole stream

  /** The parser after `lines`, and the payloads they completed. */
  function FeedAll(pending: seq<string>, lines: seq<string>): (seq<string>, seq<string>)
    decreases |lines|
  {
    if lines == [] then (pending, [])
    else
      var (pending', payload) := FeedLine(pending, lines[0]);
      var (end, rest) := FeedAll(pending', lines[1..]);
      (end, (if payload.Some? then [payload.value] else []) + rest)
  }

  function FirstNewline(s: string): (k: nat)
    ensures k <= |s| && (forall i | 0 <= i < k :: s[i] != '\n') && (k < |s| ==> s[k] == '\n')
  {
    if s == "" || s[0] == '\n' then 0 else 1 + FirstNewline(s[1..])
  }

  /** The newline-terminated lines of a stream, without their newlines. */
  function Lines(s: string): seq<string>
    decreases |s|
  {
    var k := FirstNewline(s);
    if k == |s| then [] else [s[..k]] + Lines(s[k + 1..])
  }

  /** What follows the last newline. */
  function Remainder(s: string): string
    decreases |s|
  {
    var k := FirstNewline(s);
    if k == |s| then s else Remainder(s[k + 1..])
  }

  /** What a stream means: the payloads of its terminated lines. */
  function Decoded(s: string): seq<string> {
    FeedAll([], Lines(s)).1
  }

  function Flatten(chunks: seq<string>): string {
    if chunks == [] then "" else Flatten(chunks[..|chunks| - 1]) + chunks[|chunks| - 1]
  }

  lemma FirstNewlineIs(s: string, k: nat)
    requires k <= |s| && (forall i | 0 <= i < k :: s[i] != '\n') && (k < |s| ==> s[k] == '\n')
    ensures FirstNewline(s) == k
  {}

  lemma FirstLine(line: string, rest: string)
    requires '\n' !in line
    ensures Lines(line + "\n" + rest) == [line] + Lines(rest)
    ensures FirstNewline(line + "\n" + rest) == |line| && (line + "\n" + rest)[..|line|] == line
    ensures (line + "\n" + rest)[|line| + 1..] == rest && Remainder(line + "\n" + rest) == Remainder(rest)
  {
    var s := line + "\n" + rest;
    FirstNewlineIs(s, |line|);
    assert s[..|line|] == line && s[|line| + 1..] == rest;
  }

  lemma LeftToRight(line: string, middle: string, rest: string)
    ensures (line + "\n" + middle) + rest == line + "\n" + (middle + rest)
  {}

  lemma {:induction false} LinesAppend(a: string, b: string)
    ensures Lines(a + b) == Lines(a) + Lines(Remainder(a) + b)
    ensures Remainder(a + b) == Remainder(Remainder(a) + b)
    decreases |a|
  {
    var k := FirstNewline(a);
    if k == |a| {
      NoLineYet(a);
      assert [] + Lines(a + b) == Lines(a + b);
    } else {
      var line, rest := a[..k], a[k + 1..];
      assert a == line + "\n" + rest;
      LeftToRight(line, rest, b);
      FirstLine(line, rest);
      FirstLine(line, rest + b);
      LinesAppend(rest, b);
      PrefixLine(line, Lines(rest), Lines(Remainder(rest) + b));
    }
  }

  lemma NoLineYet(a: string)
    requires FirstNewline(a) == |a|
    ensures Lines(a) == [] && Remainder(a) == a
  {}

  lemma PrefixLine(line: string, lines: seq<string>, rest: seq<string>)
    ensures [line] + (lines + rest) == ([line] + lines) + rest
  {}

  lemma {:induction false} FeedAllAppend(pending: seq<string>, xs: seq<string>, ys: seq<string>)
    ensures var (mid, first) := FeedAll(pending, xs);
            FeedAll(pending, xs + ys) == (FeedAll(mid, ys).0, first + FeedAll(mid, ys).1)
    decreases |xs|
  {
    if xs == [] {
      assert xs + ys == ys && [] + FeedAll(pending, ys).1 == FeedAll(pending, ys).1;
    } else {
      assert (xs + ys)[1..] == xs[1..] + ys;
      var (pending', payload) := FeedLine(pending, xs[0]);
      FeedAllAppend(pending', xs[1..], ys);
      var (mid, first) := FeedAll(pending', xs[1..]);
      var head := if payload.Some? then [payload.value] else [];
      assert head + (first + FeedAll(mid, ys).1) == (head + first) + FeedAll(mid, ys).1;
    }
  }

  lemma FeedOne(pending: seq<string>, line: string, lines: seq<string>)
    ensures var (pending', payload) := FeedLine(pending, line); var rest := FeedAll(pending', lines);
            FeedAll(pending, [line] + lines) == (rest.0, (if payload.Some? then [payload.value] else []) + rest.1)
  {
    assert ([line] + lines)[1..] == lines;
  }

  /** A line and the rest of the buffer, as the inner loop takes them apart. */
  lemma FeedFirstLine(pending: seq<string>, buf: string, k: nat)
    requires k < |buf| && k == FirstNewline(buf)
    ensures var (pending', payload) := FeedLine(pending, buf[..k]); var rest := FeedAll(pending', Lines(buf[k + 1..]));
            FeedAll(pending, Lines(buf)) == (rest.0, (if payload.Some? then [payload.value] else []) + rest.1)
  {
    FeedOne(pending, buf[..k], Lines(buf[k + 1..]));
  }

  lemma Reassociate(xs: seq<string>, x: string, ys: seq<string>)
    ensures xs + ([x] + ys) == (xs + [x]) + ys
  {}

  /** One turn of the inner loop keeps what is still to come. */
  lemma DrainStep(pending: seq<string>, buf: string, pos: nat, payloads: seq<string>)
    requires pos < |buf| && pos == FirstNewline(buf)
    ensures var (pending', payload) := FeedLine(pending, buf[..pos]);
            var rest := FeedAll(pending', Lines(buf[pos + 1..]));
            && FeedAll(pending, Lines(buf)).0 == rest.0
            && payloads + FeedAll(pending, Lines(buf)).1
               == (if payload.Some? then payloads + [payload.value] else payloads) + rest.1
            && Remainder(buf) == Remainder(buf[pos + 1..])
  {
    FeedFirstLine(pending, buf, pos);
    var (pending', payload) := FeedLine(pending, buf[..pos]);
    var rest := FeedAll(pending', Lines(buf[pos + 1..])).1;
    if payload.Some? {
      Reassociate(payloads, payload.value, rest);
    } else {
      assert [] + rest == rest;
    }
  }

  /** The inner loop: every terminated line is taken off the front of the buffer and fed to the parser. */
  method Drain(parser: SseParser, received: string) returns (buf: string, payloads: seq<string>)
    modifies parser
    ensures (parser.dataLines, payloads) == FeedAll(old(parser.dataLines), Lines(received))
    ensures buf == Remainder(received) && FirstNewline(buf) == |buf|
  {
    ghost var want := FeedAll(parser.dataLines, Lines(received));
    assert [] + want.1 == want.1;
    buf, payloads := received, [];
    var pos := FirstNewline(buf);
    while pos < |buf|
      invariant pos == FirstNewline(buf) && Remainder(buf) == Remainder(received)
      invariant FeedAll(parser.dataLines, Lines(buf)).0 == want.0
      invariant payloads + FeedAll(parser.dataLines, Lines(buf)).1 == want.1
      decreases |buf|
    {
      DrainStep(parser.dataLines, buf, pos, payloads);
      var payload := parser.Feed(buf[..pos]);
      buf := buf[pos + 1..];
      if payload.Some? {
        payloads := payloads + [payload.value];
      }
      pos := FirstNewline(buf);
    }
    NoLineYet(buf);
    assert payloads + [] == payloads;
  }

  /**
   The loop over the chunks of a response. The payloads are those of the
   concatenated bytes, however they were cut into chunks.
   */
  method Consume(chunks: seq<string>) returns (payloads: seq<string>)
    ensures payloads == Decoded(Flatten(chunks))
  {
    var parser := new SseParser();
    var buf := "";
    payloads := [];
    for i := 0 to |chunks|
      invariant fresh(parser)
      invariant buf == Remainder(Flatten(chunks[..i]))
      invariant FeedAll([], Lines(Flatten(chunks[..i]))) == (parser.dataLines, payloads)
    {
      ghost var before := Flatten(chunks[..i]);
      assert chunks[..i + 1][..i] == chunks[..i];
      LinesAppend(before, chunks[i]);
      FeedAllAppend([], Lines(before), Lines(buf + chunks[i]));
      var more: seq<string>;
      buf, more := Drain(parser, buf + chunks[i]);
      payloads := payloads + more;
    }
    assert chunks[..|chunks|] == chunks;
  }

  // ---------------------------------------------------------------- the events of a stream

  /** The value of a line that is a data field, whichever way its line ends. */
  function DataOf(line: string): Option<string> {
    var field := if line != "" && line[|line| - 1] == '\r' then line[..|line| - 1] else line;
    if |field| < 5 || field[..5] != "data:" then None
    else if |field| > 5 && field[5] == ' ' then Some(field[6..])
    else Some(field[5..])
  }

  function AllData(lines: seq<string>): seq<string> {
    if lines == [] then []
    else AllData(lines[..|lines| - 1])
         + match DataOf(lines[|lines| - 1]) case Some(data) => [data] case None => []
  }

  function FirstBlank(lines: seq<string>): (k: nat)
    ensures k <= |lines| && forall i | 0 <= i < k :: lines[i] != "" && lines[i] != "\r"
    ensures k < |lines| ==> lines[k] == "" || lines[k] == "\r"
  {
    if lines == [] || lines[0] == "" || lines[0] == "\r" then 0 else 1 + FirstBlank(lines[1..])
  }

  /** The reference: each blank line ends an event, whose payload is its data lines, if it has any. */
  function Events(lines: seq<string>): seq<string>
    decreases |lines|
  {
    var k := FirstBlank(lines);
    if k == |lines| then []
    else (if AllData(lines[..k]) == [] then [] else [Join(AllData(lines[..k]), "\n")]) + Events(lines[k + 1..])
  }

  lemma FeedKeeps(pending: seq<string>, line: string)
    requires line != "" && line != "\r"
    ensures FeedLine(pending, line)
            == (pending + match DataOf(line) case Some(data) => [data] case None => [], None)
  {
    var field := StripCR(line);
    assert field != "";
    assert "data:" <= field <==> |field| >= 5 && field[..5] == "data:";
    if "data:" <= field {
      assert field[5..] != "" ==> field[5..][0] == field[5] && field[5..][1..] == field[6..];
    } else {
      assert pending + [] == pending;
    }
  }

  /** Lines without a blank one complete nothing and hold their data. */
  lemma {:induction false} FeedOpen(lines: seq<string>)
    requires forall i | 0 <= i < |lines| :: lines[i] != "" && lines[i] != "\r"
    ensures FeedAll([], lines) == (AllData(lines), [])
    decreases |lines|
  {
    if lines != [] {
      var before, last := lines[..|lines| - 1], lines[|lines| - 1];
      FeedOpen(before);
      assert lines == before + [last];
      FeedAllAppend([], before, [last]);
      FeedKeeps(AllData(before), last);
      FeedNext(AllData(before), AllData(lines), last, []);
      assert [last] + [] == [last];
    }
  }

  /** The parser's payloads are the events of its lines: none for a blank line with no data before it. */
  lemma {:induction false} FeedAllIsEvents(lines: seq<string>)
    ensures FeedAll([], lines).1 == Events(lines)
    decreases |lines|
  {
    var k := FirstBlank(lines);
    if k == |lines| {
      FeedOpen(lines);
    } else {
      var open, rest := lines[..k], lines[k + 1..];
      assert lines == open + ([lines[k]] + rest);
      FeedOpen(open);
      FeedAllAppend([], open, [lines[k]] + rest);
      FeedOne(AllData(open), lines[k], rest);
      FeedAllIsEvents(rest);
    }
  }

  /** Whatever the chunks, the payloads are those of the reference on the stream's terminated lines. */
  lemma DecodedIsEvents(s: string)
    ensures Decoded(s) == Events(Lines(s))
  {
    FeedAllIsEvents(Lines(s));
  }

  // ---------------------------------------------------------------- lines that mean nothing

  /** Comments and every field but `data`. */
  predicate Ignored(line: string) {
    StripCR(line) != "" && !("data:" <= StripCR(line))
  }

  /** An ignored line at any line boundary changes nothing. */
  lemma IgnoredLinesChangeNothing(before: string, line: string, after: string)
    requires Remainder(before) == "" && '\n' !in line && Ignored(line)
    ensures Decoded(before + (line + "\n" + after)) == Decoded(before + after)
  {
    var inserted := line + "\n" + after;
    var (pending, first) := FeedAll([], Lines(before));
    DecodedAfter(before, inserted, pending, first);
    DecodedAfter(before, after, pending, first);
    FirstLine(line, after);
    FeedNext(pending, pending, line, Lines(after));
  }

  lemma DecodedAfter(before: string, rest: string, pending: seq<string>, first: seq<string>)
    requires Remainder(before) == "" && FeedAll([], Lines(before)) == (pending, first)
    ensures Decoded(before + rest) == first + FeedAll(pending, Lines(rest)).1
  {
    LinesAppend(before, rest);
    assert "" + rest == rest;
    FeedAllAppend([], Lines(before), Lines(rest));
  }

  // ---------------------------------------------------------------- printing frames

  /** The lines of a frame: one `data:` field per line of the payload, then a blank line. */
  function FieldLines(payloadLines: seq<string>): seq<string> {
    if payloadLines == [] then [""] else ["data: " + payloadLines[0]] + FieldLines(payloadLines[1..])
  }

  function Terminated(lines: seq<string>): string {
    if lines == [] then "" else lines[0] + "\n" + Terminated(lines[1..])
  }

  function PrintFrame(payload: string): string {
    Terminated(FieldLines(SplitOn(payload, '\n')))
  }

  function PrintAll(payloads: seq<string>): string {
    if payloads == [] then "" else PrintFrame(payloads[0]) + PrintAll(payloads[1..])
  }

  function StripAll(lines: seq<string>): seq<string> {
    if lines == [] then [] else [StripCR(lines[0])] + StripAll(lines[1..])
  }

  /** A payload without the carriage returns that end its lines. */
  function Cleaned(payload: string): string {
    Join(StripAll(SplitOn(payload, '\n')), "\n")
  }

  function CleanedAll(payloads: seq<string>): seq<string> {
    if payloads == [] then [] else [Cleaned(payloads[0])] + CleanedAll(payloads[1..])
  }

  ghost predicate NoNewlines(lines: seq<string>) {
    forall i | 0 <= i < |lines| :: '\n' !in lines[i]
  }

  lemma PrependLine(line: string, middle: string, lines: seq<string>, rest: string)
    requires '\n' !in line && Lines(middle + rest) == lines + Lines(rest)
    ensures Lines((line + "\n" + middle) + rest) == ([line] + lines) + Lines(rest)
  {
    LeftToRight(line, middle, rest);
    FirstLine(line, middle + rest);
    PrefixLine(line, lines, Lines(rest));
  }

  lemma {:induction false} TerminatedLines(lines: seq<string>, rest: string)
    requires NoNewlines(lines)
    ensures Lines(Terminated(lines) + rest) == lines + Lines(rest)
    decreases |lines|
  {
    if lines == [] {
      assert Terminated(lines) + rest == rest && lines + Lines(rest) == Lines(rest);
    } else {
      TerminatedLines(lines[1..], rest);
      PrependLine(lines[0], Terminated(lines[1..]), lines[1..], rest);
      assert [lines[0]] + lines[1..] == lines;
    }
  }

  lemma {:induction false} SplitHasNoNewlines(s: string)
    ensures NoNewlines(SplitOn(s, '\n')) && NoNewlines(FieldLines(SplitOn(s, '\n')))
  {
    if s != "" {
      SplitHasNoNewlines(s[1..]);
    }
    FieldsHaveNoNewlines(SplitOn(s, '\n'));
  }

  lemma {:induction false} FieldsHaveNoNewlines(lines: seq<string>)
    requires NoNewlines(lines)
    ensures NoNewlines(FieldLines(lines))
  {
    if lines != [] {
      FieldsHaveNoNewlines(lines[1..]);
    }
  }

  lemma FeedField(pending: seq<string>, line: string)
    ensures FeedLine(pending, "data: " + line) == (pending + [StripCR(line)], None)
  {
    var field := "data: " + line;
    var stripped := StripCR(field);
    assert line != "" ==> field[|field| - 1] == line[|line| - 1];
    assert stripped == "data: " + StripCR(line);
    assert stripped[5..] == " " + StripCR(line);
  }

  lemma FeedNext(pending: seq<string>, pending': seq<string>, line: string, rest: seq<string>)
    requires FeedLine(pending, line) == (pending', None)
    ensures FeedAll(pending, [line] + rest) == FeedAll(pending', rest)
  {
    assert ([line] + rest)[1..] == rest;
    assert [] + FeedAll(pending', rest).1 == FeedAll(pending', rest).1;
  }

  lemma FeedBlank(pending: seq<string>)
    requires pending != []
    ensures FeedAll(pending, [""]) == ([], [Join(pending, "\n")])
  {
    assert FeedAll([], [""][1..]) == ([], []);
    assert [Join(pending, "\n")] + [] == [Join(pending, "\n")];
  }

  lemma {:induction false} FeedFields(pending: seq<string>, lines: seq<string>)
    requires pending + lines != []
    ensures FeedAll(pending, FieldLines(lines)) == ([], [Join(pending + StripAll(lines), "\n")])
    decreases |lines|
  {
    if lines == [] {
      assert pending + [] == pending;
      FeedBlank(pending);
    } else {
      var pending' := pending + [StripCR(lines[0])];
      FeedField(pending, lines[0]);
      FeedFields(pending', lines[1..]);
      FeedNext(pending, pending', "data: " + lines[0], FieldLines(lines[1..]));
      StripFirst(pending, lines);
    }
  }

  lemma StripFirst(pending: seq<string>, lines: seq<string>)
    requires lines != []
    ensures pending + StripAll(lines) == (pending + [StripCR(lines[0])]) + StripAll(lines[1..])
  {}

  /** Whatever is printed, each frame decodes to its payload without the carriage returns ending its lines. */
  lemma {:induction false} DecodePrint(payloads: seq<string>)
    ensures Decoded(PrintAll(payloads)) == CleanedAll(payloads)
    decreases |payloads|
  {
    if payloads != [] {
      var lines := SplitOn(payloads[0], '\n');
      var fields, rest := FieldLines(lines), PrintAll(payloads[1..]);
      SplitHasNoNewlines(payloads[0]);
      TerminatedLines(fields, rest);
      FeedFields([], lines);
      assert [] + StripAll(lines) == StripAll(lines);
      FeedAllAppend([], fields, Lines(rest));
      DecodePrint(payloads[1..]);
    }
  }

  // ---------------------------------------------------------------- when printing is undone exactly

  /** No line of the payload ends in a carriage return. */
  ghost predicate NoCRAtLineEnd(payload: string) {
    NoneEndsInCR(SplitOn(payload, '\n'))
  }

  ghost predicate NoneEndsInCR(lines: seq<string>) {
    forall i | 0 <= i < |lines| && lines[i] != "" :: lines[i][|lines[i]| - 1] != '\r'
  }

  lemma SameHeadAndTail(x: string, xs: seq<string>, y: string, ys: seq<string>)
    ensures [x] + xs == [y] + ys <==> x == y && xs == ys
  {
    assert ([x] + xs)[0] == x && ([x] + xs)[1..] == xs;
    assert ([y] + ys)[0] == y && ([y] + ys)[1..] == ys;
  }

  lemma FirstEndsInCR(line: string, lines: seq<string>)
    ensures NoneEndsInCR([line] + lines) <==> StripCR(line) == line && NoneEndsInCR(lines)
  {
    var all := [line] + lines;
    assert all[0] == line && forall i | 0 <= i < |lines| :: all[i + 1] == lines[i];
  }

  lemma {:induction false} StripAllIff(lines: seq<string>)
    ensures StripAll(lines) == lines <==> NoneEndsInCR(lines)
    decreases |lines|
  {
    if lines != [] {
      var first, rest := lines[0], lines[1..];
      assert lines == [first] + rest;
      StripAllIff(rest);
      FirstEndsInCR(first, rest);
      SameHeadAndTail(StripCR(first), StripAll(rest), first, rest);
    }
  }

  lemma {:induction false} JoinSplit(s: string)
    ensures Join(SplitOn(s, '\n'), "\n") == s
  {
    if s != "" {
      JoinSplit(s[1..]);
      var rest := SplitOn(s[1..], '\n');
      if s[0] == '\n' {
        assert ([""] + rest)[1..] == rest;
        assert Join([""] + rest, "\n") == "" + "\n" + Join(rest, "\n");
      } else {
        var first := [s[0]] + rest[0];
        assert ([first] + rest[1..])[1..] == rest[1..];
        assert s == [s[0]] + s[1..];
      }
    }
  }

  /** Stripping shortens the joined text by one character per stripped line. */
  lemma {:induction false} StripShortens(lines: seq<string>)
    ensures |StripAll(lines)| == |lines|
    ensures |Join(StripAll(lines), "\n")| <= |Join(lines, "\n")|
    ensures |Join(StripAll(lines), "\n")| == |Join(lines, "\n")| <==> StripAll(lines) == lines
    decreases |lines|
  {
    if lines != [] {
      StripShortens(lines[1..]);
      assert StripAll(lines)[1..] == StripAll(lines[1..]);
      assert StripAll(lines) == lines <==> StripCR(lines[0]) == lines[0] && StripAll(lines[1..]) == lines[1..];
    }
  }

  /** Decoding inverts printing exactly for the payloads none of whose lines ends in a carriage return. */
  lemma {:induction false} DecodePrintIff(payloads: seq<string>)
    ensures Decoded(PrintAll(payloads)) == payloads <==> forall i | 0 <= i < |payloads| :: NoCRAtLineEnd(payloads[i])
  {
    DecodePrint(payloads);
    CleanedAllIff(payloads);
  }

  lemma {:induction false} CleanedAllIff(payloads: seq<string>)
    ensures CleanedAll(payloads) == payloads <==> forall i | 0 <= i < |payloads| :: NoCRAtLineEnd(payloads[i])
    decreases |payloads|
  {
    if payloads != [] {
      var p := payloads[0];
      JoinSplit(p);
      StripShortens(SplitOn(p, '\n'));
      StripAllIff(SplitOn(p, '\n'));
      CleanedAllIff(payloads[1..]);
      assert CleanedAll(payloads)[0] == Cleaned(p) && CleanedAll(payloads)[1..] == CleanedAll(payloads[1..]);
      assert payloads == [p] + payloads[1..];
      assert (forall i | 0 <= i < |payloads| :: NoCRAtLineEnd(payloads[i]))
        <==> NoCRAtLineEnd(p) && forall i | 0 <= i < |payloads[1..]| :: NoCRAtLineEnd(payloads[1..][i]) by {
        assert forall i | 0 < i < |payloads| :: payloads[i] == payloads[1..][i - 1];
      }
    }
  }
}
