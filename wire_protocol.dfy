/** The private wire protocol between a generated Rust entry point and the
    engine: a start-marker line, one line of payload and an end-marker line, on
    stdout for a success and on stderr for a failure; and the classification of
    a finished run in a fixed priority order. `JSON.parse` is an oracle: a
    function from text to a JSON value, `None` where it would throw. */
module WireProtocol {
  import opened JsText
  import opened Results
  import opened EngineTypes

  const START_OK: string := "__JS_RESULT__=OK<<<EOT"
  const START_ERR: string := "__JS_RESULT__=ERR<<<EOT"
  const END_MARKER: string := "EOT"

  type Parser = string -> Option<Json>

  /** The text `extractDelimited` slices out before trimming it: from the line
      after the first start marker (or right after the marker when no newline
      follows it) up to the next end marker; `None` when there is no start
      marker or no end marker after it. When no newline follows the marker,
      the end marker is looked for after the start marker (see
      `DelimitedContentAsWritten` for the search as the source writes it). */
  function DelimitedContent(text: string, startMarker: string, endMarker: string): (r: Option<string>)
    ensures IndexOf(text, startMarker, 0) == -1 ==> r.None?
  {
    var startIdx := IndexOf(text, startMarker, 0);
    if startIdx == -1 then None
    else
      var afterStart := IndexOf(text, "\n", startIdx);
      if afterStart == -1 then
        var endIdx := IndexOf(text, endMarker, startIdx + |startMarker|);
        if endIdx == -1 then None else Some(Slice(text, startIdx + |startMarker|, endIdx))
      else
        var endIdx := IndexOf(text, endMarker, afterStart + 1);
        if endIdx == -1 then None else Some(Slice(text, afterStart + 1, endIdx))
  }

  /** The same extraction with the end marker looked for from the start of
      the start marker when no newline follows it, as `extractDelimited`
      does. */
  function DelimitedContentAsWritten(text: string, startMarker: string, endMarker: string): (r: Option<string>)
    ensures IndexOf(text, startMarker, 0) == -1 ==> r.None?
  {
    var startIdx := IndexOf(text, startMarker, 0);
    if startIdx == -1 then None
    else
      var afterStart := IndexOf(text, "\n", startIdx);
      if afterStart == -1 then
        var endIdx := IndexOf(text, endMarker, startIdx);
        if endIdx == -1 then None else Some(Slice(text, startIdx + |startMarker|, endIdx))
      else
        var endIdx := IndexOf(text, endMarker, afterStart + 1);
        if endIdx == -1 then None else Some(Slice(text, afterStart + 1, endIdx))
  }

  /** `extractDelimited` with the corrected end-marker search of
      `DelimitedContent`: the delimited content, trimmed. The engine uses this
      one; `ExtractDelimitedAsWritten` is the search as the source writes it. */
  function ExtractDelimited(text: string, startMarker: string, endMarker: string): (r: Option<string>)
    ensures r.None? <==> DelimitedContent(text, startMarker, endMarker).None?
    ensures r.Some? ==> IsTrimmed(r.value)
    ensures r.Some? ==> r.value == Trim(DelimitedContent(text, startMarker, endMarker).value)
  {
    match DelimitedContent(text, startMarker, endMarker)
    case None => None
    case Some(c) => Some(Trim(c))
  }

  /** `extractDelimited` as the source writes it: the content of
      `DelimitedContentAsWritten`, trimmed. */
  function ExtractDelimitedAsWritten(text: string, startMarker: string, endMarker: string): (r: Option<string>)
    ensures r.None? <==> DelimitedContentAsWritten(text, startMarker, endMarker).None?
    ensures r.Some? ==> IsTrimmed(r.value)
    ensures r.Some? ==> r.value == Trim(DelimitedContentAsWritten(text, startMarker, endMarker).value)
  {
    match DelimitedContentAsWritten(text, startMarker, endMarker)
    case None => None
    case Some(c) => Some(Trim(c))
  }

  /** Whatever is extracted lies after the first start marker and ends where
      an end marker begins. */
  lemma ContentFollowsMarker(text: string, startMarker: string, endMarker: string) returns (c: nat, e: nat)
    requires '\n' !in startMarker
    requires DelimitedContent(text, startMarker, endMarker).Some?
    ensures IndexOf(text, startMarker, 0) != -1
    ensures IndexOf(text, startMarker, 0) + |startMarker| <= c <= e <= |text|
    ensures OccursAt(text, endMarker, e)
    ensures DelimitedContent(text, startMarker, endMarker).value == text[c..e]
  {
    var startIdx := IndexOf(text, startMarker, 0);
    var afterStart := IndexOf(text, "\n", startIdx);
    if afterStart == -1 {
      c, e := startIdx + |startMarker|, IndexOf(text, endMarker, startIdx + |startMarker|);
    } else {
      OccursAtIndex(text, "\n", afterStart, 0);
      OccursAtIndex(text, startMarker, startIdx, afterStart - startIdx);
      c, e := afterStart + 1, IndexOf(text, endMarker, afterStart + 1);
    }
  }

  /** An occurrence found inside a prefix is also the first one in the whole
      text. */
  lemma FirstOccurrenceInPrefix(t: string, n: nat, p: string, from: nat)
    requires from <= n <= |t| && IndexOf(t[..n], p, from) != -1
    ensures IndexOf(t, p, from) == IndexOf(t[..n], p, from)
  {
    var k := IndexOf(t[..n], p, from);
    assert t[..n] == t[0..n];
    OccursInSlice(t, 0, n, p, k);
    forall j | from <= j < k ensures !OccursAt(t, p, j) {
      OccursInSlice(t, 0, n, p, j);
      IndexOfFirst(t[..n], p, from, j);
    }
    IndexOfIs(t, p, from, k);
  }

  /** The first newline at or after `lo`. */
  lemma FirstNewline(t: string, lo: nat, a: nat)
    requires lo <= a < |t| && t[a] == '\n'
    requires forall j :: lo <= j < a ==> t[j] != '\n'
    ensures IndexOf(t, "\n", lo) == a
  {
    forall j | lo <= j < a ensures !OccursAt(t, "\n", j) {
      assert t[j..j + 1][0] == t[j];
    }
    assert t[a..a + 1] == "\n";
    IndexOfIs(t, "\n", lo, a);
  }

  /** A line `t[b..n]` free of the end marker, followed by the end-marker
      line: the first end marker from `b` on starts that line. */
  lemma EndMarkerAfterLine(t: string, line: string, b: nat, n: nat)
    requires b <= n && n + 4 <= |t| && t[n] == '\n' && t[n + 1..n + 4] == END_MARKER
    requires t[b..n] == line && !Contains(line, END_MARKER)
    ensures IndexOf(t, END_MARKER, b) == n + 1
  {
    forall j | b <= j < n + 1 ensures !OccursAt(t, END_MARKER, j) {
      if j + 3 <= n {
        OccursInSlice(t, b, n, END_MARKER, j);
        ContainsAt(line, END_MARKER, j - b);
      } else {
        assert t[j..j + 3][n - j] == t[n];
      }
    }
    IndexOfIs(t, END_MARKER, b, n + 1);
  }

  /** The content once the three searches are known to succeed. */
  lemma DelimitedAt(text: string, marker: string, s: nat, a: nat, x: nat)
    requires s <= a < x <= |text|
    requires IndexOf(text, marker, 0) == s && IndexOf(text, "\n", s) == a
    requires IndexOf(text, END_MARKER, a + 1) == x
    ensures DelimitedContent(text, marker, END_MARKER) == Some(text[a + 1..x])
  {
  }

  /** The three searches of `extractDelimited` on a text laid out by index:
      the first start marker lies in `text[..a]` at `s`, the marker line ends
      with the newline at `a`, and `text[a + 1..e]` is a line free of the end
      marker followed by the end-marker line. */
  lemma SearchesAtIndices(text: string, marker: string, line: string, s: nat, a: nat, e: nat)
    requires s <= a < e && e + 4 <= |text|
    requires IndexOf(text[..a], marker, 0) == s
    requires forall j :: s <= j < a ==> text[j] != '\n'
    requires text[a] == '\n' && text[e] == '\n' && text[e + 1..e + 4] == END_MARKER
    requires text[a + 1..e] == line && !Contains(line, END_MARKER)
    ensures IndexOf(text, marker, 0) == s
    ensures IndexOf(text, "\n", s) == a
    ensures IndexOf(text, END_MARKER, a + 1) == e + 1
  {
    FirstOccurrenceInPrefix(text, a, marker, 0);
    FirstNewline(text, s, a);
    EndMarkerAfterLine(text, line, a + 1, e);
  }

  /** The content between a marker line and the end-marker line, on a text
      laid out by index as for `SearchesAtIndices`. The content runs up to the
      end marker, so it keeps the newline at `e`. */
  lemma ContentAtIndices(text: string, marker: string, line: string, s: nat, a: nat, e: nat)
    requires s <= a < e && e + 4 <= |text|
    requires IndexOf(text[..a], marker, 0) == s
    requires forall j :: s <= j < a ==> text[j] != '\n'
    requires text[a] == '\n' && text[e] == '\n' && text[e + 1..e + 4] == END_MARKER
    requires text[a + 1..e] == line && !Contains(line, END_MARKER)
    ensures DelimitedContent(text, marker, END_MARKER) == Some(text[a + 1..e + 1])
  {
    SearchesAtIndices(text, marker, line, s, a, e);
    DelimitedAt(text, marker, s, a, e + 1);
  }

  /** The marker line of a framed value: the text up to its newline is what
      preceded the marker, then the marker. */
  lemma FramedMarkerLine(text: string, before: string, marker: string, a: nat)
    requires a == |before| + |marker| <= |text| && text[..a] == before + marker
    requires '\n' !in marker
    requires IndexOf(before + marker, marker, 0) == |before|
    ensures IndexOf(text[..a], marker, 0) == |before|
    ensures forall j :: |before| <= j < a ==> text[j] != '\n'
  {
    forall j | |before| <= j < a ensures text[j] != '\n' {
      assert text[j] == text[..a][j] == marker[j - |before|];
    }
  }

  /** The lines after the marker: a newline at `a`, the payload, a newline at
      `e`, then the end marker. */
  lemma FramedLines(text: string, head: string, payload: string, after: string, a: nat, e: nat)
    requires text == head + "\n" + payload + "\n" + END_MARKER + after
    requires a == |head| && e == a + 1 + |payload|
    ensures e + 4 <= |text| && text[..a] == head
    ensures text[a] == '\n' && text[e] == '\n' && text[e + 1..e + 4] == END_MARKER
    ensures text[a + 1..e] == payload && text[a + 1..e + 1] == payload + "\n"
  {
  }

  /** Trimming the content drops the newline that ends the payload line. */
  lemma TrimmedContent(text: string, marker: string, payload: string, a: nat, e: nat)
    requires a < e < |text| && text[a + 1..e + 1] == payload + "\n"
    requires DelimitedContent(text, marker, END_MARKER) == Some(text[a + 1..e + 1])
    ensures ExtractDelimited(text, marker, END_MARKER) == Some(Trim(payload))
  {
    TrimDropsTrailingSpace(payload, "\n");
  }

  /** The scaffold's framing of a value, preceded by whatever the program
      printed before and followed by anything, is read back as the trimmed
      value: provided the first start marker is the scaffold's own, the
      marker holds no newline and the value holds no end marker. */
  lemma ExtractFramedPayload(text: string, before: string, marker: string, payload: string, after: string)
    requires text == before + marker + "\n" + payload + "\n" + END_MARKER + after
    requires '\n' !in marker
    requires IndexOf(before + marker, marker, 0) == |before|
    requires !Contains(payload, END_MARKER)
    ensures ExtractDelimited(text, marker, END_MARKER) == Some(Trim(payload))
  {
    var a := |before| + |marker|;
    var e := a + 1 + |payload|;
    FramedLines(text, before + marker, payload, after, a, e);
    FramedMarkerLine(text, before, marker, a);
    ContentAtIndices(text, marker, payload, |before|, a, e);
    TrimmedContent(text, marker, payload, a, e);
  }

  /** The scaffold's start markers are single lines that begin with a
      visible character. */
  lemma MarkersAreOneLine()
    ensures START_OK != [] && !IsSpace(START_OK[0]) && '\n' !in START_OK
    ensures START_ERR != [] && !IsSpace(START_ERR[0]) && '\n' !in START_ERR
  {
  }

  predicate LooksStructured(s: string) {
    (StartsWith(s, "{") && EndsWith(s, "}")) || (StartsWith(s, "[") && EndsWith(s, "]"))
  }

  /** `try { v = JSON.parse(text) } catch {}` starting from `v = text`. */
  function ParseOr(text: string, parse: Parser): (v: Json)
    ensures parse(text).Some? ==> v == parse(text).value
    ensures parse(text).None? ==> v == JString(text)
  {
    match parse(text)
    case Some(v) => v
    case None => JString(text)
  }

  /** The second parse of a string value that looks like an object or array
      literal once trimmed; every other value is kept. */
  function Reparse(v: Json, parse: Parser): (w: Json)
    ensures v.JValue? ==> w == v
    ensures v.JString? && !LooksStructured(Trim(v.s)) ==> w == v
    ensures v.JString? && LooksStructured(Trim(v.s)) && parse(Trim(v.s)).None? ==> w == v
    ensures v.JString? && LooksStructured(Trim(v.s)) && parse(Trim(v.s)).Some? ==> w == parse(Trim(v.s)).value
  {
    match v
    case JValue(_) => v
    case JString(s) =>
      var t := Trim(s);
      if LooksStructured(t) && parse(t).Some? then parse(t).value else v
  }

  /** A success payload: parsed once, and parsed again when it is a string that
      looks like structured data. */
  function DecodePayload(payload: string, parse: Parser): (v: Json)
    ensures parse(payload).Some? && parse(payload).value.JValue? ==> v == parse(payload).value
    ensures parse(payload).None? && !LooksStructured(Trim(payload)) ==> v == JString(payload)
    ensures parse(payload).None? && LooksStructured(Trim(payload)) && parse(Trim(payload)).Some? ==>
              v == parse(Trim(payload)).value
    ensures parse(payload).Some? && parse(payload).value.JString? ==>
              v == Reparse(parse(payload).value, parse)
    ensures parse(payload).Some? && parse(payload).value.JString?
            && LooksStructured(Trim(parse(payload).value.s)) && parse(Trim(parse(payload).value.s)).Some? ==>
              v == parse(Trim(parse(payload).value.s)).value
    ensures parse(payload).Some? && parse(payload).value.JString?
            && !LooksStructured(Trim(parse(payload).value.s)) ==>
              v == parse(payload).value
  {
    Reparse(ParseOr(payload, parse), parse)
  }

  /** The value of a successful run without a payload: the whole stdout, parsed
      when it is not empty. */
  function LegacyValue(stdout: string, parse: Parser): (v: Json)
    ensures stdout == [] ==> v == JString([])
    ensures stdout != [] && parse(stdout).Some? && parse(stdout).value.JValue? ==> v == parse(stdout).value
    ensures stdout != [] && parse(stdout).None? && !LooksStructured(Trim(stdout)) ==> v == JString(stdout)
  {
    if stdout == [] then JString(stdout) else DecodePayload(stdout, parse)
  }

  /** The decision that follows the two searches: a success payload wins,
      then a failure payload, then the exit status; a successful run without
      payload falls back to the whole of stdout. */
  function Classify(okPayload: Option<string>, errPayload: Option<string>,
                    exitCode: int, stdout: string, stderr: string, parse: Parser): (r: Outcome)
    ensures okPayload.Some? ==> r == Ok(DecodePayload(okPayload.value, parse))
    ensures okPayload.None? && errPayload.Some? ==>
              r == Err(RunFailed(exitCode, stdout, stderr, Some(ParseOr(errPayload.value, parse))))
    ensures okPayload.None? && errPayload.None? && exitCode != 0 ==>
              r == Err(RunFailed(exitCode, stdout, stderr, None))
    ensures okPayload.None? && errPayload.None? && exitCode == 0 ==>
              r == Ok(LegacyValue(stdout, parse))
  {
    if okPayload.Some? then Ok(DecodePayload(okPayload.value, parse))
    else if errPayload.Some? then Err(RunFailed(exitCode, stdout, stderr, Some(ParseOr(errPayload.value, parse))))
    else if exitCode != 0 then Err(RunFailed(exitCode, stdout, stderr, None))
    else Ok(LegacyValue(stdout, parse))
  }

  /** Result resolution of a finished run: both streams trimmed, the success
      payload looked for on stdout and the failure payload on stderr, with
      the corrected end-marker search. Every failure is a run failure that
      carries the exit status and both trimmed streams. */
  function ResolveRun(run: Execution, parse: Parser): (r: Outcome)
    ensures r.IsErr() ==> r.error.RunFailed? && r.error.code == run.exitCode
                          && r.error.stdout == Trim(run.stdout) && r.error.stderr == Trim(run.stderr)
    ensures r.IsErr() <==> ExtractDelimited(Trim(run.stdout), START_OK, END_MARKER).None?
                           && (ExtractDelimited(Trim(run.stderr), START_ERR, END_MARKER).Some? || run.exitCode != 0)
  {
    var stdout := Trim(run.stdout);
    var stderr := Trim(run.stderr);
    Classify(ExtractDelimited(stdout, START_OK, END_MARKER),
             ExtractDelimited(stderr, START_ERR, END_MARKER),
             run.exitCode, stdout, stderr, parse)
  }

  /** The same resolution with `extractDelimited` as the source writes it. */
  function ResolveRunAsWritten(run: Execution, parse: Parser): (r: Outcome)
    ensures r.IsErr() ==> r.error.RunFailed? && r.error.code == run.exitCode
                          && r.error.stdout == Trim(run.stdout) && r.error.stderr == Trim(run.stderr)
    ensures r.IsErr() <==> ExtractDelimitedAsWritten(Trim(run.stdout), START_OK, END_MARKER).None?
                           && (ExtractDelimitedAsWritten(Trim(run.stderr), START_ERR, END_MARKER).Some? || run.exitCode != 0)
    ensures ExtractDelimitedAsWritten(Trim(run.stdout), START_OK, END_MARKER).Some? ==> r.IsOk()
  {
    var stdout := Trim(run.stdout);
    var stderr := Trim(run.stderr);
    Classify(ExtractDelimitedAsWritten(stdout, START_OK, END_MARKER),
             ExtractDelimitedAsWritten(stderr, START_ERR, END_MARKER),
             run.exitCode, stdout, stderr, parse)
  }

  /** A start marker followed by nothing: no newline after it. */
  lemma NoNewlineAfterFinalMarker(before: string, marker: string)
    requires '\n' !in marker
    ensures IndexOf(before + marker, "\n", |before|) == -1
  {
    var t := before + marker;
    var r := IndexOf(t, "\n", |before|);
    OccursAtIndex(t, "\n", r, 0);
  }

  /** Where `END_MARKER` occurs inside `START_OK`: first at offset 19. */
  lemma EndMarkerInStartOk()
    ensures forall i :: 0 <= i < 19 ==> !OccursAt(START_OK, END_MARKER, i)
    ensures OccursAt(START_OK, END_MARKER, 19)
  {
    forall i | 0 <= i < 19 ensures !OccursAt(START_OK, END_MARKER, i) {
      OccursAtIndex(START_OK, END_MARKER, i, 0);
      OccursAtIndex(START_OK, END_MARKER, i, 1);
    }
  }

  /** The as-written search once its three results are known: an end marker
      found inside the start marker gives an empty slice. */
  lemma AsWrittenAt(text: string, marker: string, s: nat, x: nat)
    requires s + |marker| <= |text| && s <= x < s + |marker|
    requires IndexOf(text, marker, 0) == s && IndexOf(text, "\n", s) == -1
    requires IndexOf(text, END_MARKER, s) == x
    ensures DelimitedContentAsWritten(text, marker, END_MARKER) == Some([])
  {
  }

  /** In a text ending with `START_OK` at `s`, the first end marker from `s`
      on is the one inside the start marker. */
  lemma EndMarkerInFinalStartOk(t: string, s: nat)
    requires s + |START_OK| == |t| && t[s..] == START_OK
    ensures IndexOf(t, END_MARKER, s) == s + 19
  {
    EndMarkerInStartOk();
    assert t[s..s + 22] == START_OK;
    forall j | s <= j < s + 19 ensures !OccursAt(t, END_MARKER, j) {
      OccursInSlice(t, s, s + 22, END_MARKER, j);
    }
    OccursInSlice(t, s, s + 22, END_MARKER, s + 19);
    IndexOfIs(t, END_MARKER, s, s + 19);
  }

  /** As written, the end marker inside `START_OK` itself ends the content
      when the marker is the last thing printed: the content is empty, not
      absent. */
  lemma FinalMarkerAsWritten(before: string)
    requires IndexOf(before + START_OK, START_OK, 0) == |before|
    ensures DelimitedContentAsWritten(before + START_OK, START_OK, END_MARKER) == Some([])
  {
    var t := before + START_OK;
    MarkersAreOneLine();
    NoNewlineAfterFinalMarker(before, START_OK);
    assert t[|before|..] == START_OK;
    EndMarkerInFinalStartOk(t, |before|);
    AsWrittenAt(t, START_OK, |before|, |before| + 19);
  }

  /** With the end marker looked for after the start marker, a marker that is
      the last thing printed frames no content. */
  lemma FinalMarkerFramesNothing(before: string)
    requires IndexOf(before + START_OK, START_OK, 0) == |before|
    ensures DelimitedContent(before + START_OK, START_OK, END_MARKER).None?
  {
    MarkersAreOneLine();
    NoNewlineAfterFinalMarker(before, START_OK);
    NothingAfterFinalMarker(before + START_OK, START_OK, |before|);
  }

  /** A start marker that ends the text, with no newline after it, frames
      nothing. */
  lemma NothingAfterFinalMarker(text: string, marker: string, s: nat)
    requires s + |marker| == |text|
    requires IndexOf(text, marker, 0) == s && IndexOf(text, "\n", s) == -1
    ensures DelimitedContent(text, marker, END_MARKER).None?
  {
  }

  /** As written: a Rust program that fails (a panic exits with status 101)
      right after printing the success marker is reported as a success with an
      empty payload, whatever its exit status and stderr. */
  lemma PanicAfterMarkerAsWritten(run: Execution, before: string, parse: Parser)
    requires Trim(run.stdout) == before + START_OK
    requires IndexOf(before + START_OK, START_OK, 0) == |before|
    requires run.exitCode != 0
    ensures ExtractDelimitedAsWritten(Trim(run.stdout), START_OK, END_MARKER) == Some([])
    ensures ResolveRunAsWritten(run, parse) == Ok(DecodePayload([], parse))
  {
    FinalMarkerAsWritten(before);
    TrimOfTrimmed([]);
  }

  /** Corrected: the same failing run, without a failure payload on stderr, is
      reported as a failure of the run stage carrying its exit status and both
      trimmed streams. */
  lemma PanicAfterMarkerIsFailure(run: Execution, before: string, parse: Parser)
    requires Trim(run.stdout) == before + START_OK
    requires IndexOf(before + START_OK, START_OK, 0) == |before|
    requires run.exitCode != 0
    requires !Contains(run.stderr, START_ERR)
    ensures ResolveRun(run, parse) == Err(RunFailed(run.exitCode, Trim(run.stdout), Trim(run.stderr), None))
  {
    FinalMarkerFramesNothing(before);
    ContainsTrimmed(run.stderr, START_ERR);
  }

  /** Trimming a framed output removes only the final line break. */
  lemma TrimFramedOutput(out: string, framed: string, before: string, marker: string, payload: string)
    requires framed == before + marker + "\n" + payload + "\n" + END_MARKER
    requires out == framed + "\n"
    requires before == [] || !IsSpace(before[0])
    requires marker != [] && !IsSpace(marker[0])
    ensures Trim(out) == framed
  {
    assert framed[|framed| - 1] == 'T';
    assert framed[0] == if before == [] then marker[0] else before[0];
    assert [] + framed + "\n" == out;
    TrimPadded([], framed, "\n");
  }

  /** The success branch of the resolution, once the success payload is known. */
  lemma ResolvedSuccess(run: Execution, v: string, parse: Parser)
    requires ExtractDelimited(Trim(run.stdout), START_OK, END_MARKER) == Some(v)
    ensures ResolveRun(run, parse) == Ok(DecodePayload(v, parse))
  {
  }

  /** The failure-payload branch of the resolution. */
  lemma ResolvedFailure(run: Execution, v: string, parse: Parser)
    requires ExtractDelimited(Trim(run.stdout), START_OK, END_MARKER).None?
    requires ExtractDelimited(Trim(run.stderr), START_ERR, END_MARKER) == Some(v)
    ensures ResolveRun(run, parse)
            == Err(RunFailed(run.exitCode, Trim(run.stdout), Trim(run.stderr), Some(ParseOr(v, parse))))
  {
  }

  /** What the scaffold's arm prints after whatever the program printed
      before: the marker line, the value's line and the end-marker line. */
  function Framed(before: string, marker: string, payload: string): (r: string)
    ensures |r| == |before| + |marker| + |payload| + 6
    ensures r[..|before| + |marker|] == before + marker
  {
    before + marker + "\n" + payload + "\n" + END_MARKER + "\n"
  }

  /** A framed output, trimmed, gives back its trimmed payload. */
  lemma ExtractFramedOutput(out: string, before: string, marker: string, payload: string)
    requires out == Framed(before, marker, payload)
    requires before == [] || !IsSpace(before[0])
    requires marker != [] && !IsSpace(marker[0]) && '\n' !in marker
    requires IndexOf(before + marker, marker, 0) == |before|
    requires !Contains(payload, END_MARKER)
    ensures ExtractDelimited(Trim(out), marker, END_MARKER) == Some(Trim(payload))
  {
    var framed := before + marker + "\n" + payload + "\n" + END_MARKER;
    TrimFramedOutput(out, framed, before, marker, payload);
    assert framed == before + marker + "\n" + payload + "\n" + END_MARKER + [];
    ExtractFramedPayload(framed, before, marker, payload, []);
  }

  /** Round trip of a success: the scaffold prints the start marker, the
      value's line and the end marker after whatever the program printed; the
      engine reads back that line, decoded. */
  lemma SuccessFrameRoundTrip(run: Execution, before: string, payload: string, parse: Parser)
    requires run.stdout == Framed(before, START_OK, payload)
    requires before == [] || !IsSpace(before[0])
    requires IndexOf(before + START_OK, START_OK, 0) == |before|
    requires !Contains(payload, END_MARKER)
    ensures ResolveRun(run, parse) == Ok(DecodePayload(Trim(payload), parse))
  {
    MarkersAreOneLine();
    ExtractFramedOutput(run.stdout, before, START_OK, payload);
    ResolvedSuccess(run, Trim(payload), parse);
  }

  /** Round trip of a failure: the error's line, framed on stderr, comes back
      parsed as the error value, provided stdout carries no success marker. */
  lemma FailureFrameRoundTrip(run: Execution, before: string, payload: string, parse: Parser)
    requires run.stderr == Framed(before, START_ERR, payload)
    requires before == [] || !IsSpace(before[0])
    requires IndexOf(before + START_ERR, START_ERR, 0) == |before|
    requires !Contains(payload, END_MARKER)
    requires !Contains(run.stdout, START_OK)
    ensures ResolveRun(run, parse)
            == Err(RunFailed(run.exitCode, Trim(run.stdout), Trim(run.stderr), Some(ParseOr(Trim(payload), parse))))
  {
    MarkersAreOneLine();
    ExtractFramedOutput(run.stderr, before, START_ERR, payload);
    ContainsTrimmed(run.stdout, START_OK);
    ResolvedFailure(run, Trim(payload), parse);
  }
}
