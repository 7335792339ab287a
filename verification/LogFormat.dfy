/** The text of a run's event log: one encoded event per newline-terminated line, possibly followed by a
    torn fragment, together with the two readers of that text. */
module LogFormat {
  import opened Wrappers
  import opened Lines
  import Redact

  /** The caller-supplied fields of an event other than its payload. */
  datatype Meta = Meta(ts: string, runId: string, kind: string, causedBy: Option<nat>)

  /** An event as stored: its assigned sequence number and its redacted payload. */
  datatype Event = Event(seqNo: nat, meta: Meta, payload: Redact.Tree)

  /** The serialiser and the line parser. `parse` returns None for text that is not JSON or fails the shape
      check of `parseEventLine`. */
  datatype Codec = Codec(encode: Event -> string, parse: string -> Option<Event>)
  {
    /** Section 7 of RFC 8259 has control characters escaped inside strings, so a serialised event is one
        non-empty line; a well-formed event is read back as it was written; the shape check admits only
        positive sequence numbers. */
    ghost predicate Valid() {
      && (forall e: Event :: encode(e) != "" && '\n' !in encode(e))
      && (forall e: Event :: e.seqNo >= 1 ==> parse(encode(e)) == Some(e))
      && (forall l: string :: parse(l).Some? ==> parse(l).value.seqNo >= 1)
    }

    function Line(e: Event): string {
      encode(e) + "\n"
    }
  }

  // ----- Reading -----

  predicate EndsWithNewline(content: string) {
    content != "" && content[|content| - 1] == '\n'
  }

  /** `splitCompleteLines`: a last segment without its newline is dropped. */
  function CompleteLines(content: string): seq<string> {
    var lines := NonEmpty(Split(content, '\n'));
    if EndsWithNewline(content) || lines == [] then lines else lines[..|lines| - 1]
  }

  datatype ReadError = Corrupt | SeqGap(expected: nat, found: nat)

  /** What a reader saw: the events yielded, and the error that ended the stream if there was one. */
  datatype ReadOutcome = ReadOutcome(events: seq<Event>, error: Option<ReadError>)

  function ReadLines(c: Codec, lines: seq<string>, expected: nat): ReadOutcome {
    if lines == [] then ReadOutcome([], None)
    else
      match c.parse(lines[0])
      case None => ReadOutcome([], Some(Corrupt))
      case Some(e) =>
        if e.seqNo != expected then ReadOutcome([], Some(SeqGap(expected, e.seqNo)))
        else
          var rest := ReadLines(c, lines[1..], expected + 1);
          ReadOutcome([e] + rest.events, rest.error)
  }

  /** `readEvents` on the given file content. */
  function ReadAll(c: Codec, content: string): ReadOutcome {
    ReadLines(c, CompleteLines(content), 1)
  }

  function EventsIn(c: Codec, content: string): seq<Event> {
    ReadAll(c, content).events
  }

  /** The number `determineLastSeq` takes from a file it has read: that of the last complete line. */
  function LastSeq(c: Codec, content: string): Option<nat> {
    var lines := CompleteLines(content);
    if lines == [] then Some(0)
    else
      match c.parse(lines[|lines| - 1])
      case None => None
      case Some(e) => Some(e.seqNo)
  }

  /** `content.slice(0, content.lastIndexOf('\n') + 1)`: the text torn-write recovery keeps. */
  function UpToLastNewline(content: string): (r: string)
    ensures r <= content
    ensures r == "" || EndsWithNewline(r)
    ensures '\n' !in content[|r|..]
  {
    if content == "" || EndsWithNewline(content) then content
    else
      var r := UpToLastNewline(content[..|content| - 1]);
      assert content[|r|..] == content[|r|..|content| - 1] + [content[|content| - 1]];
      r
  }

  /** `readEvents` as a loop over the complete lines that advances the expected number. */
  method ReadEvents(c: Codec, content: string) returns (events: seq<Event>, error: Option<ReadError>)
    ensures ReadOutcome(events, error) == ReadAll(c, content)
  {
    var lines := CompleteLines(content);
    var expectedSeq := 1;
    events, error := [], None;
    var i := 0;
    while i < |lines|
      invariant 0 <= i <= |lines| && expectedSeq == i + 1 && error == None
      invariant ReadAll(c, content).events == events + ReadLines(c, lines[i..], expectedSeq).events
      invariant ReadAll(c, content).error == ReadLines(c, lines[i..], expectedSeq).error
    {
      assert lines[i..][0] == lines[i] && lines[i..][1..] == lines[i + 1..];
      var parsed := c.parse(lines[i]);
      if parsed == None {
        error := Some(Corrupt);
        return;
      }
      if parsed.value.seqNo != expectedSeq {
        error := Some(SeqGap(expectedSeq, parsed.value.seqNo));
        return;
      }
      events := events + [parsed.value];
      expectedSeq := expectedSeq + 1;
      i := i + 1;
    }
  }

  /** The complete lines of any text are the non-empty lines of it up to its last newline. */
  lemma CompleteLinesExactly(content: string)
    ensures CompleteLines(content) == NonEmpty(Split(UpToLastNewline(content), '\n'))
  {
    var kept := UpToLastNewline(content);
    var torn := content[|kept|..];
    assert content == kept + torn;
    if torn == "" {
      assert content == kept;
      EmptyLines();
    } else {
      assert torn[|torn| - 1] == content[|content| - 1] && torn[|torn| - 1] in torn;
      hide Split, UpToLastNewline, NonEmpty;
      TornLine(kept, torn);
      var lines := NonEmpty(Split(kept, '\n'));
      assert (lines + [torn])[..|lines|] == lines;
    }
  }

  lemma EmptyLines()
    ensures NonEmpty(Split("", '\n')) == []
  {
  }

  /** A fragment after whole lines is one more line of the split. */
  lemma TornLine(kept: string, torn: string)
    requires (kept == "" || EndsWithNewline(kept)) && torn != "" && '\n' !in torn
    ensures NonEmpty(Split(kept + torn, '\n')) == NonEmpty(Split(kept, '\n')) + [torn]
  {
    hide Split;
    SplitWithoutSeparator(torn, '\n');
    SplitWithoutSeparator("", '\n');
    OneLine(torn);
    if kept == "" {
      assert kept + torn == torn;
    } else {
      hide NonEmpty;
      var body := kept[..|kept| - 1];
      assert kept == body + ['\n'] + "" && kept + torn == body + ['\n'] + torn;
      SplitConcat(body, '\n', "");
      SplitConcat(body, '\n', torn);
      NonEmptyConcat(Split(body, '\n'), [""]);
      NonEmptyConcat(Split(body, '\n'), [torn]);
      assert NonEmpty(Split(body, '\n')) + [] == NonEmpty(Split(body, '\n'));
    }
  }

  lemma OneLine(line: string)
    requires line != ""
    ensures NonEmpty([line]) == [line] && NonEmpty([""]) == []
  {
    assert NonEmpty([line]) == [line] + NonEmpty([]);
  }

  /** Reading yields the longest run of lines that parse to events numbered from 1, and fails exactly when a line is
      left: as corrupt if that line does not parse, as a gap, with both numbers, if it parses to another number. */
  lemma ReadStopsExactly(c: Codec, content: string)
    ensures var lines, r := CompleteLines(content), ReadAll(c, content);
      var n := |r.events|;
      && n <= |lines| && (forall i | 0 <= i < n :: c.parse(lines[i]) == Some(r.events[i]) && r.events[i].seqNo == i + 1)
      && (n < |lines| ==> c.parse(lines[n]).Some? ==> c.parse(lines[n]).value.seqNo != n + 1)
      && r.error ==
         if n == |lines| then None
         else if c.parse(lines[n]).None? then Some(Corrupt)
         else Some(SeqGap(n + 1, c.parse(lines[n]).value.seqNo))
  {
    ReadLinesStop(c, CompleteLines(content), 1);
  }

  lemma {:induction false} ReadLinesStop(c: Codec, lines: seq<string>, expected: nat)
    ensures var r := ReadLines(c, lines, expected);
      var n := |r.events|;
      && n <= |lines|
      && (forall i | 0 <= i < n :: c.parse(lines[i]) == Some(r.events[i]) && r.events[i].seqNo == expected + i)
      && (n < |lines| ==> c.parse(lines[n]).Some? ==> c.parse(lines[n]).value.seqNo != expected + n)
      && r.error ==
         if n == |lines| then None
         else if c.parse(lines[n]).None? then Some(Corrupt)
         else Some(SeqGap(expected + n, c.parse(lines[n]).value.seqNo))
  {
    if lines != [] && c.parse(lines[0]).Some? && c.parse(lines[0]).value.seqNo == expected {
      ReadLinesStop(c, lines[1..], expected + 1);
      var r := ReadLines(c, lines[1..], expected + 1);
      assert ReadLines(c, lines, expected).events == [c.parse(lines[0]).value] + r.events;
      assert forall i | 0 <= i < |lines[1..]| :: lines[1..][i] == lines[i + 1];
    }
  }

  // ----- The shape every log has -----

  ghost predicate Gapless(es: seq<Event>) {
    forall i | 0 <= i < |es| :: es[i].seqNo == i + 1
  }

  /** The text of the given events, one line each. */
  function LogText(c: Codec, es: seq<Event>): string {
    if es == [] then "" else LogText(c, es[..|es| - 1]) + c.Line(es[|es| - 1])
  }

  function Encodings(c: Codec, es: seq<Event>): (r: seq<string>)
    ensures |r| == |es|
  {
    seq(|es|, i requires 0 <= i < |es| => c.encode(es[i]))
  }

  /** `content` is the complete lines of `es` followed by a fragment with no newline. */
  ghost predicate IsLog(c: Codec, content: string, es: seq<Event>) {
    && Gapless(es)
    && LogText(c, es) <= content
    && '\n' !in content[|LogText(c, es)|..]
  }

  /** The invariant of the file: what a reader would return is exactly what the complete lines hold. */
  ghost predicate Good(c: Codec, content: string) {
    IsLog(c, content, EventsIn(c, content))
  }

  /** A good log with no torn fragment. */
  ghost predicate Whole(c: Codec, content: string) {
    Good(c, content) && content == LogText(c, EventsIn(c, content))
  }

  lemma {:induction false} SplitLog(c: Codec, es: seq<Event>, tail: string)
    requires c.Valid()
    ensures Split(LogText(c, es) + tail, '\n') == Encodings(c, es) + Split(tail, '\n')
  {
    hide Split;
    if es == [] {
      assert "" + tail == tail;
      assert Encodings(c, es) + Split(tail, '\n') == Split(tail, '\n');
    } else {
      var front, last := es[..|es| - 1], es[|es| - 1];
      var line := c.encode(last);
      SplitLog(c, front, line + ['\n'] + tail);
      assert LogText(c, es) + tail == LogText(c, front) + (line + ['\n'] + tail);
      SplitAtSeparator(line, '\n', tail);
      assert Encodings(c, es) == Encodings(c, front) + [line];
    }
  }

  lemma LogEndsWithNewline(c: Codec, es: seq<Event>)
    ensures LogText(c, es) == "" <==> es == []
    ensures es != [] ==> EndsWithNewline(LogText(c, es))
  {
  }

  lemma NewlineFreeSuffix(content: string, a: string)
    requires a <= content && '\n' !in content[|a|..]
    ensures forall i | |a| <= i < |content| :: content[i] != '\n'
  {
    assert forall i | |a| <= i < |content| :: content[i] == content[|a|..][i - |a|];
  }

  /** With no fragment every line is complete; with one, the last segment is exactly that fragment. */
  lemma DropFragment(content: string, lines: seq<string>, torn: string)
    requires "" !in lines && NonEmpty(Split(content, '\n')) == lines + (if torn == "" then [] else [torn])
    requires EndsWithNewline(content) <==> lines != [] && torn == ""
    requires torn == "" && lines == [] ==> content == ""
    ensures CompleteLines(content) == lines
  {
    if torn == "" {
      assert lines + [] == lines;
    } else {
      assert (lines + [torn])[..|lines|] == lines;
    }
  }

  lemma CompleteLinesOfLog(c: Codec, content: string, es: seq<Event>)
    requires c.Valid() && IsLog(c, content, es)
    ensures CompleteLines(content) == Encodings(c, es)
  {
    var text := LogText(c, es);
    var torn := content[|text|..];
    var lines := Encodings(c, es);
    assert content == text + torn;
    SplitLog(c, es, torn);
    SplitWithoutSeparator(torn, '\n');
    NonEmptyConcat(lines, [torn]);
    NonEmptyIdentity(lines);
    LogEndsWithNewline(c, es);
    NewlineFreeSuffix(content, text);
    DropFragment(content, lines, torn);
  }

  lemma {:induction false} ReadEncodings(c: Codec, es: seq<Event>, expected: nat)
    requires c.Valid() && expected >= 1
    requires forall i | 0 <= i < |es| :: es[i].seqNo == expected + i
    ensures ReadLines(c, Encodings(c, es), expected) == ReadOutcome(es, None)
  {
    if es != [] {
      assert Encodings(c, es)[1..] == Encodings(c, es[1..]);
      assert forall i | 0 <= i < |es[1..]| :: es[1..][i] == es[i + 1];
      ReadEncodings(c, es[1..], expected + 1);
    }
  }

  /** Reading a log returns its events, with no gap and no corruption, whatever the torn fragment is. */
  lemma ReadLog(c: Codec, content: string, es: seq<Event>)
    requires c.Valid() && IsLog(c, content, es)
    ensures ReadAll(c, content) == ReadOutcome(es, None)
    ensures Good(c, content)
    ensures LastSeq(c, content) == Some(|es|)
  {
    CompleteLinesOfLog(c, content, es);
    ReadEncodings(c, es, 1);
  }

  /** Conversely a good log is read without error. */
  lemma ReadGood(c: Codec, content: string)
    requires c.Valid() && Good(c, content)
    ensures ReadAll(c, content).error == None && Gapless(EventsIn(c, content))
    ensures LastSeq(c, content) == Some(|EventsIn(c, content)|)
  {
    ReadLog(c, content, EventsIn(c, content));
  }

  lemma EmptyLog(c: Codec)
    requires c.Valid()
    ensures Whole(c, "") && EventsIn(c, "") == []
  {
    ReadLog(c, "", []);
  }

  /** Any truncation of a log is a log of a prefix of its events; truncating inside the torn fragment loses
      none of them. */
  lemma {:induction false} TruncatedLog(c: Codec, content: string, es: seq<Event>, k: nat)
    requires c.Valid() && IsLog(c, content, es) && k <= |content|
    ensures Good(c, content[..k]) && EventsIn(c, content[..k]) <= es
    ensures k >= |LogText(c, es)| ==> EventsIn(c, content[..k]) == es
    decreases |es|
  {
    var text := LogText(c, es);
    if k >= |text| {
      assert content[..k][|text|..] == content[|text|..k];
      assert forall ch | ch in content[|text|..k] :: ch in content[|text|..];
      ReadLog(c, content[..k], es);
    } else {
      var front, last := es[..|es| - 1], es[|es| - 1];
      var shorter := content[..|text| - 1];
      var front' := LogText(c, front);
      assert text == front' + c.encode(last) + "\n";
      assert shorter == text[..|text| - 1] == front' + c.encode(last);
      assert shorter[|front'|..] == c.encode(last);
      TruncatedLog(c, shorter, front, k);
      assert shorter[..k] == content[..k];
    }
  }

  lemma TruncatedGood(c: Codec, content: string, k: nat)
    requires c.Valid() && Good(c, content) && k <= |content|
    ensures Good(c, content[..k]) && EventsIn(c, content[..k]) <= EventsIn(c, content)
  {
    TruncatedLog(c, content, EventsIn(c, content), k);
  }

  /** What `text` can read back as when only some of its bytes are there: its first characters, and then possibly what
      decoding makes of one cut in two, of which nothing is assumed but that it is no newline. */
  ghost predicate CutOf(text: string, cut: string) {
    exists k: nat :: k <= |text| && text[..k] <= cut && '\n' !in cut[k..] && (k == |text| ==> cut == text)
  }

  lemma CutAt(text: string, k: nat, remnant: string)
    requires k <= |text| && '\n' !in remnant && (k == |text| ==> remnant == "")
    ensures CutOf(text, text[..k] + remnant)
  {
    assert text[..k] <= text[..k] + remnant && (text[..k] + remnant)[k..] == remnant;
    if k == |text| {
      assert text[..k] + remnant == text;
    }
  }

  lemma NothingLeft(text: string)
    ensures CutOf(text, "") && CutOf(text, text)
  {
    CutAt(text, 0, "");
    CutAt(text, |text|, "");
    assert text[..0] + "" == "" && text[..|text|] + "" == text;
  }

  lemma CutOfCut(text: string, cut: string, shorter: string)
    requires CutOf(text, cut) && CutOf(cut, shorter)
    ensures CutOf(text, shorter)
  {
    var k: nat :| k <= |text| && text[..k] <= cut && '\n' !in cut[k..] && (k == |text| ==> cut == text);
    var m: nat :| m <= |cut| && cut[..m] <= shorter && '\n' !in shorter[m..] && (m == |cut| ==> shorter == cut);
    if m == |cut| {
    } else if m <= k {
      assert text[..m] == cut[..m];
    } else {
      assert text[..k] == cut[..k] && cut[..k] <= shorter;
      forall i | k <= i < |shorter|
        ensures shorter[i] != '\n'
      {
        assert shorter[i] == if i < m then cut[k..][i - k] else shorter[m..][i - m];
      }
    }
  }

  /** However a log is cut, it reads back as a log of a prefix of its events. */
  lemma CutGood(c: Codec, content: string, cut: string)
    requires c.Valid() && Good(c, content) && CutOf(content, cut)
    ensures Good(c, cut) && EventsIn(c, cut) <= EventsIn(c, content)
  {
    hide ReadAll, LogText, Codec.Valid;
    var k: nat :| k <= |content| && content[..k] <= cut && '\n' !in cut[k..] && (k == |content| ==> cut == content);
    TruncatedGood(c, content, k);
    var es := EventsIn(c, content[..k]);
    var text := LogText(c, es);
    forall i | |text| <= i < |cut|
      ensures cut[i] != '\n'
    {
      assert cut[i] == if i < k then content[..k][|text|..][i - |text|] else cut[k..][i - k];
    }
    ReadLog(c, cut, es);
  }

  /** Appending any cut of the next event's line to a whole log gives a log; only the full line, newline included, adds
      the event. */
  lemma ExtendedLog(c: Codec, pre: string, e: Event, cut: string)
    requires c.Valid() && Whole(c, pre) && e.seqNo == |EventsIn(c, pre)| + 1 && CutOf(c.Line(e), cut)
    ensures Good(c, pre + cut)
    ensures EventsIn(c, pre + cut) == EventsIn(c, pre) + (if cut == c.Line(e) then [e] else [])
    ensures cut == c.Line(e) ==> Whole(c, pre + c.Line(e))
  {
    var es := EventsIn(c, pre);
    if cut == c.Line(e) {
      assert (es + [e])[..|es|] == es;
      assert pre + cut == LogText(c, es + [e]);
      ReadLog(c, pre + cut, es + [e]);
    } else {
      PartHasNoNewline(c, e, cut);
      assert (pre + cut)[|pre|..] == cut;
      ReadLog(c, pre + cut, es);
      assert es + [] == es;
    }
  }

  lemma PartHasNoNewline(c: Codec, e: Event, cut: string)
    requires c.Valid() && CutOf(c.Line(e), cut) && cut != c.Line(e)
    ensures '\n' !in cut
  {
    var line := c.Line(e);
    var k: nat :| k <= |line| && line[..k] <= cut && '\n' !in cut[k..] && (k == |line| ==> cut == line);
    assert line[..k] == c.encode(e)[..k];
    forall i | 0 <= i < |cut|
      ensures cut[i] != '\n'
    {
      assert cut[i] == if i < k then c.encode(e)[i] else cut[k..][i - k];
    }
  }

  /** What recovery keeps of a log is exactly its complete lines. */
  lemma RecoveredLog(c: Codec, content: string)
    requires c.Valid() && Good(c, content)
    ensures UpToLastNewline(content) == LogText(c, EventsIn(c, content))
    ensures Whole(c, UpToLastNewline(content))
    ensures EventsIn(c, UpToLastNewline(content)) == EventsIn(c, content)
    ensures Whole(c, content) <==> content == "" || EndsWithNewline(content)
  {
    var es := EventsIn(c, content);
    var text, kept := LogText(c, es), UpToLastNewline(content);
    LogEndsWithNewline(c, es);
    NewlineFreeSuffix(content, text);
    NewlineFreeSuffix(content, kept);
    assert |kept| == |text|;
    assert kept == content[..|kept|] == text;
    ReadLog(c, text, es);
  }
}
