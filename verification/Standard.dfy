/**
 * Event stream parsing and interpretation as sections 9.2.5 and 9.2.6 of the WHATWG HTML Living Standard
 * define them, and the agreement of the SDKs with it.
 */
module Standard {
  import opened Json
  import opened Seqs
  import opened Lines
  import opened Numbers
  import opened Frames
  import opened Reading

  datatype Message = Message(name: string, data: string, lastEventId: string)

  /** The buffers of section 9.2.6, the event source's last event id and reconnection time, and what was dispatched. */
  datatype Source = Source(data: string, eventType: string, idBuffer: string,
                           lastEventId: string, reconnection: int, dispatched: seq<Message>)

  /** The UTF-8 byte order mark, one character for a byte. */
  const MARK: string := "\U{EF}\U{BB}\U{BF}"

  /** Go's scanner hands a leading mark on; TypeScript's decoder has removed it before the text begins. */
  predicate Unmarked(sdk: Sdk, text: string) {
    sdk.Go? ==> !(MARK <= text)
  }

  /** Decoding a stream takes one leading byte order mark off. */
  function StdText(sdk: Sdk, text: string): string {
    if Unmarked(sdk, text) then text else text[|MARK|..]
  }

  /** Lines end at CRLF, LF or CR; what no line ending closes is discarded. */
  function StdLines(sdk: Sdk, text: string): seq<string> {
    StdLinesFrom("", StdText(sdk, text))
  }

  function StdLinesFrom(line: string, s: string): seq<string>
    decreases |s|
  {
    if s == "" then []
    else if s[0] == '\r' && |s| > 1 && s[1] == '\n' then [line] + StdLinesFrom("", s[2..])
    else if s[0] == '\r' || s[0] == '\n' then [line] + StdLinesFrom("", s[1..])
    else StdLinesFrom(line + [s[0]], s[1..])
  }

  function BeforeColon(line: string): string {
    if line == "" || line[0] == ':' then "" else [line[0]] + BeforeColon(line[1..])
  }

  function AfterColon(line: string): string {
    if line == "" then "" else if line[0] == ':' then line[1..] else AfterColon(line[1..])
  }

  function Dispatch(s: Source): Source {
    var t := s.(lastEventId := s.idBuffer, data := "", eventType := "");
    if s.data == "" then t
    else
      var data := if s.data[|s.data| - 1] == '\n' then s.data[..|s.data| - 1] else s.data;
      var name := if s.eventType == "" then "message" else s.eventType;
      t.(dispatched := s.dispatched + [Message(name, data, s.idBuffer)])
  }

  function ProcessField(s: Source, name: string, value: string): Source {
    if name == "event" then s.(eventType := value)
    else if name == "data" then s.(data := s.data + value + "\n")
    else if name == "id" then (if '\0' in value then s else s.(idBuffer := value))
    else if name == "retry" then (if AllDigits(value) then s.(reconnection := Decimal(value)) else s)
    else s
  }

  function Process(s: Source, line: string): Source {
    if line == "" then Dispatch(s)
    else if line[0] == ':' then s
    else
      var value := AfterColon(line);
      ProcessField(s, BeforeColon(line), if value != "" && value[0] == ' ' then value[1..] else value)
  }

  function Interpret(s: Source, lines: seq<string>): Source
    decreases |lines|
  {
    if lines == [] then s else Interpret(Process(s, lines[0]), lines[1..])
  }

  // ----- Lines -----

  /** Every CR belongs to a CRLF. */
  predicate PlainEndings(s: string) {
    forall i | 0 <= i < |s| && s[i] == '\r' :: i + 1 < |s| && s[i + 1] == '\n'
  }

  lemma PlainTail(s: string, k: nat)
    requires PlainEndings(s) && k <= |s|
    ensures PlainEndings(s[k..])
  {
  }

  /** The lines of an SDK, once trimmed, are these. */
  predicate SameLines(sdk: Sdk, raws: seq<string>, lines: seq<string>) {
    if raws == [] || lines == [] then raws == lines
    else Trim(sdk, raws[0]) == lines[0] && SameLines(sdk, raws[1..], lines[1..])
  }

  /** The lines of the standard are the SDKs' trimmed lines. */
  lemma {:induction false} LinesAgree(sdk: Sdk, line: string, s: string)
    requires '\n' !in line && '\r' !in line && PlainEndings(s)
    ensures SameLines(sdk, Cut(line + s), StdLinesFrom(line, s))
    decreases |s|
  {
    if s == "" {
      Nil(line);
      IndexOfUnique(line, '\n', |line|);
    } else if s[0] == '\r' || s[0] == '\n' {
      var rest := s[EndingLength(s)..];
      PlainTail(s, EndingLength(s));
      LinesAgree(sdk, "", rest);
      Nil(rest);
      LineEnds(sdk, line, s, rest);
    } else {
      PlainTail(s, 1);
      HeadTail(s);
      Assoc(line, [s[0]], s[1..]);
      LinesAgree(sdk, line + [s[0]], s[1..]);
    }
  }

  /** How long the line ending is that a text with plain endings starts with. */
  function EndingLength(s: string): (k: nat)
    requires s != "" && PlainEndings(s)
    ensures k <= |s|
  {
    if s[0] == '\r' then 2 else 1
  }

  lemma EndingSplits(line: string, s: string, rest: string)
    requires PlainEndings(s) && s != "" && (s[0] == '\r' || s[0] == '\n') && rest == s[EndingLength(s)..]
    ensures line + s == (if s[0] == '\r' then line + "\r" else line) + "\n" + rest
    ensures StdLinesFrom(line, s) == [line] + StdLinesFrom("", rest)
  {
    if s[0] == '\r' {
      assert s == "\r" + "\n" + rest;
    } else {
      assert s == "\n" + rest;
    }
  }

  lemma LineEnds(sdk: Sdk, line: string, s: string, rest: string)
    requires '\n' !in line && '\r' !in line && PlainEndings(s)
    requires s != "" && (s[0] == '\r' || s[0] == '\n') && rest == s[EndingLength(s)..]
    requires SameLines(sdk, Cut(rest), StdLinesFrom("", rest))
    ensures SameLines(sdk, Cut(line + s), StdLinesFrom(line, s))
  {
    var raw := if s[0] == '\r' then line + "\r" else line;
    EndingSplits(line, s, rest);
    CutLine(raw, rest);
    TrimPlain(sdk, line);
    SameLinesCons(sdk, raw, Cut(rest), line, StdLinesFrom("", rest));
  }

  lemma SameLinesCons(sdk: Sdk, raw: string, raws: seq<string>, line: string, lines: seq<string>)
    requires Trim(sdk, raw) == line && SameLines(sdk, raws, lines)
    ensures SameLines(sdk, [raw] + raws, [line] + lines)
  {
    assert ([raw] + raws)[1..] == raws && ([line] + lines)[1..] == lines;
  }

  // ----- Exactly which streams have the same lines -----

  /** CRs that no LF follows. */
  function LoneCRs(s: string): nat {
    if s == "" then 0
    else if s[0] == '\r' && |s| > 1 && s[1] == '\n' then LoneCRs(s[2..])
    else (if s[0] == '\r' then 1 else 0) + LoneCRs(s[1..])
  }

  lemma {:induction false} PlainMeansNoLoneCR(s: string)
    ensures PlainEndings(s) <==> LoneCRs(s) == 0
    decreases |s|
  {
    if s != "" {
      var k := if s[0] == '\r' && |s| > 1 && s[1] == '\n' then 2 else 1;
      PlainMeansNoLoneCR(s[k..]);
      if PlainEndings(s) { PlainTail(s, k); }
      if PlainEndings(s[k..]) {
        assert forall i | k <= i < |s| :: s[i] == s[k..][i - k];
      }
    }
  }

  /** What stands before the first LF does not change how many lines are cut. */
  lemma SameCount(line: string, s: string)
    requires '\n' !in line
    ensures |Cut(line + s)| == |Cut(s)|
  {
    var i, t := IndexOf(s, '\n'), line + s;
    assert forall k | |line| <= k < |t| :: t[k] == s[k - |line|];
    IndexOfUnique(t, '\n', |line| + i);
    if i < |s| {
      assert t[|line| + i + 1..] == s[i + 1..];
    }
  }

  lemma CountFirst(s: string)
    requires s != ""
    ensures |Cut(s)| == (if s[0] == '\n' then 1 else 0) + |Cut(s[1..])|
  {
    HeadTail(s);
    if s[0] == '\n' {
      Nil("\n");
      CutLine("", s[1..]);
    } else {
      SameCount([s[0]], s[1..]);
    }
  }

  /** The standard has one more line for every lone CR. */
  lemma {:induction false} LoneCRsAddLines(line: string, s: string)
    ensures |StdLinesFrom(line, s)| == |Cut(s)| + LoneCRs(s)
    decreases |s|
  {
    if s != "" {
      CountFirst(s);
      if s[0] == '\r' && |s| > 1 && s[1] == '\n' {
        CountFirst(s[1..]);
        assert s[1..][1..] == s[2..];
        LoneCRsAddLines("", s[2..]);
      } else if s[0] == '\r' || s[0] == '\n' {
        LoneCRsAddLines("", s[1..]);
      } else {
        LoneCRsAddLines(line + [s[0]], s[1..]);
      }
    }
  }

  lemma {:induction false} SameLinesSameCount(sdk: Sdk, raws: seq<string>, lines: seq<string>)
    requires SameLines(sdk, raws, lines)
    ensures |raws| == |lines|
    decreases |raws|
  {
    if raws != [] && lines != [] { SameLinesSameCount(sdk, raws[1..], lines[1..]); }
  }

  lemma {:induction false} TrimAfterMark(line: string)
    ensures TrimAll(MARK + line) == MARK + TrimAll(line)
    decreases |line|
  {
    var s := MARK + line;
    if line != "" && line[|line| - 1] == '\r' {
      assert s[..|s| - 1] == MARK + line[..|line| - 1];
      TrimAfterMark(line[..|line| - 1]);
    }
  }

  /** A marked stream is a mark before its first line. */
  lemma MarkedLines(s: string)
    requires Cut(s) != []
    ensures Cut(MARK + s) == [MARK + Cut(s)[0]] + Cut(s)[1..]
  {
    var i := IndexOf(s, '\n');
    assert MARK + s == (MARK + s[..i]) + "\n" + s[i + 1..];
    CutLine(MARK + s[..i], s[i + 1..]);
  }

  /** Every line that an LF ends, whatever its length. */
  lemma CutLinesAgree(sdk: Sdk, text: string)
    ensures |StdLines(sdk, text)| >= |Cut(text)|
    ensures SameLines(sdk, Cut(text), StdLines(sdk, text)) <==>
            PlainEndings(text) && (Unmarked(sdk, text) || Cut(text) == [])
  {
    var s := StdText(sdk, text);
    Nil(s);
    LoneCRsAddLines("", s);
    PlainMeansNoLoneCR(s);
    if PlainEndings(s) { LinesAgree(sdk, "", s); }
    if Unmarked(sdk, text) {
      if SameLines(sdk, Cut(text), StdLines(sdk, text)) { SameLinesSameCount(sdk, Cut(text), StdLines(sdk, text)); }
    } else {
      SameCount(MARK, s);
      MarkedLinesDiffer(text, s);
    }
  }

  /**
   * The finished lines that reach an SDK's interpreter are those of the standard exactly on streams without
   * a lone CR whose lines, for Go, fit the scanner and that start with no mark or hold no finished line.
   */
  lemma LinesExactlyAgree(sdk: Sdk, text: string)
    ensures SameLines(sdk, Whole(sdk, text), StdLines(sdk, text)) <==>
            && PlainEndings(text) && (Unmarked(sdk, text) || Cut(text) == [])
            && FitsScanner(sdk, text)
  {
    CutLinesAgree(sdk, text);
    WholeIsCut(sdk, text);
    if SameLines(sdk, Whole(sdk, text), StdLines(sdk, text)) {
      SameLinesSameCount(sdk, Whole(sdk, text), StdLines(sdk, text));
    }
  }

  lemma MarkedLinesDiffer(text: string, s: string)
    requires text == MARK + s && |StdLinesFrom("", s)| == |Cut(s)| + LoneCRs(s)
    requires PlainEndings(s) <==> LoneCRs(s) == 0
    requires PlainEndings(s) ==> SameLines(Go, Cut(s), StdLinesFrom("", s))
    ensures SameLines(Go, Cut(text), StdLinesFrom("", s)) <==> PlainEndings(text) && Cut(text) == []
  {
    SameCount(MARK, s);
    MarkedEndings(s);
    var lines := StdLinesFrom("", s);
    if SameLines(Go, Cut(text), lines) {
      SameLinesSameCount(Go, Cut(text), lines);
      if Cut(s) != [] {
        MarkedLines(s);
        TrimAfterMark(Cut(s)[0]);
        assert false;
      }
    }
  }

  lemma MarkedEndings(s: string)
    ensures PlainEndings(MARK + s) <==> PlainEndings(s)
  {
    var t := MARK + s;
    if PlainEndings(t) { PlainTail(t, |MARK|); }
    if PlainEndings(s) {
      forall i | 0 <= i < |t| && t[i] == '\r' ensures i + 1 < |t| && t[i + 1] == '\n' {
        assert i >= |MARK| && s[i - |MARK|] == '\r';
      }
    }
  }

  /** What a mark does to Go: the first line is lost, whatever it says. */
  lemma MarkDropsFirstLine(p: Frame, retry: int, line: string, rest: string)
    requires '\n' !in line
    ensures Assemble(Go, p, retry, Cut(MARK + line + "\n" + rest)) == Assemble(Go, p, retry, Cut(rest))
  {
    var raw := MARK + line;
    CutLine(raw, rest);
    TrimAfterMark(line);
    var read := TrimAll(raw);
    assert read[0] == MARK[0] && read[0] != ':';
    assert ReadLine(read).Field? && (ReadLine(read).name == "" || ReadLine(read).name[0] == MARK[0]);
    Cons(raw, Cut(rest));
  }

  // ----- Fields -----

  lemma {:induction false} ColonSplitAgrees(line: string)
    ensures
      var colon := IndexOf(line, ':');
      && BeforeColon(line) == line[..colon]
      && AfterColon(line) == (if colon == |line| then "" else line[colon + 1..])
  {
    if line != "" && line[0] != ':' {
      ColonSplitAgrees(line[1..]);
      var colon := IndexOf(line[1..], ':');
      assert line[..colon + 1] == [line[0]] + line[1..][..colon];
    }
  }

  // ----- Interpretation -----

  function DataBuffer(data: seq<string>): string {
    if data == [] then "" else DataBuffer(data[..|data| - 1]) + data[|data| - 1] + "\n"
  }

  /** An empty event name is read as `message`. */
  function EventName(event: string): string {
    if event == "" then "message" else event
  }

  function NextId(lastEventId: string, frame: Frame): string {
    if frame.id.Some? then frame.id.value else lastEventId
  }

  function LastId(lastEventId: string, frames: seq<Frame>): string
    decreases |frames|
  {
    if frames == [] then lastEventId else LastId(NextId(lastEventId, frames[0]), frames[1..])
  }

  /** The messages that completed frames stand for: frames without data only commit their id. */
  function Messages(lastEventId: string, frames: seq<Frame>): seq<Message>
    decreases |frames|
  {
    if frames == [] then []
    else
      var id := NextId(lastEventId, frames[0]);
      (if frames[0].data == [] then [] else [Message(EventName(frames[0].event), Join(frames[0].data, "\n"), id)])
      + Messages(id, frames[1..])
  }

  lemma {:induction false} JoinSnoc(data: seq<string>, last: string)
    ensures Join(data + [last], "\n") == (if data == [] then last else Join(data, "\n") + "\n" + last)
  {
    if |data| > 0 {
      assert (data + [last])[1..] == data[1..] + [last];
      JoinSnoc(data[1..], last);
      if |data| > 1 {
        Assoc(data[0] + "\n", Join(data[1..], "\n"), "\n" + last);
        Assoc(data[0] + "\n" + Join(data[1..], "\n"), "\n", last);
        Assoc(Join(data[1..], "\n"), "\n", last);
      }
    }
  }

  /** The data buffer is the joined data lines and one LF more. */
  lemma {:induction false} DataBufferIsJoin(data: seq<string>)
    requires data != []
    ensures DataBuffer(data) == Join(data, "\n") + "\n"
  {
    var front, last := data[..|data| - 1], data[|data| - 1];
    FrontLast(data);
    JoinSnoc(front, last);
    if front != [] {
      DataBufferIsJoin(front);
      Assoc(Join(front, "\n") + "\n", last, "\n");
    }
  }

  /** The pending frame of an SDK and the buffers of the standard hold the same. */
  ghost predicate Corresponds(s: Source, p: Frame) {
    && s.data == DataBuffer(p.data)
    && EventName(s.eventType) == EventName(p.event)
    && s.idBuffer == NextId(s.lastEventId, p)
  }

  lemma DispatchAgrees(s: Source, p: Frame)
    requires Corresponds(s, p)
    ensures
      var t := Dispatch(s);
      && Corresponds(t, FRESH) && t.reconnection == s.reconnection
      && t.lastEventId == NextId(s.lastEventId, p)
      && t.dispatched == s.dispatched + Messages(s.lastEventId, [p])
  {
    assert [p][1..] == [];
    if p.data != [] {
      DataBufferIsJoin(p.data);
      var joined := Join(p.data, "\n");
      assert (joined + "\n")[..|joined|] == joined;
    }
  }

  /** A whole number of milliseconds in the SDK's time unit, without overflow. */
  function Units(sdk: Sdk, ms: int): int {
    match sdk
    case TypeScript => ms
    case Go => ms * 1_000_000
  }

  /** Retry fields on which Go's number parsing and the standard agree. */
  predicate RetryAgrees(sdk: Sdk, value: string) {
    RetryValue(sdk, value) == if AllDigits(value) then Some(Units(sdk, Decimal(value))) else None
  }

  /** TypeScript always agrees; Go departs on numbers too large for 64 bits and on signed non-negative ones. */
  lemma RetryAgreesExactly(sdk: Sdk, value: string)
    ensures RetryAgrees(TypeScript, value)
    ensures RetryAgrees(Go, value) <==>
            if AllDigits(value) then Decimal(value) * 1_000_000 < TWO_63
            else ParseInt64(value).None? || ParseInt64(value).value < 0
  {
    if AllDigits(value) {
      assert value[0] in value && IsDigit(value[0]);
    }
  }

  /** Every `retry:` line among the lines is one on which the SDK and the standard agree. */
  predicate RetriesAgree(sdk: Sdk, raws: seq<string>) {
    raws == [] ||
    (var line := ReadLine(Trim(sdk, raws[0]));
     && (line.Field? && line.name == "retry" ==> RetryAgrees(sdk, line.value))
     && RetriesAgree(sdk, raws[1..]))
  }

  lemma FieldAgrees(sdk: Sdk, s: Source, p: Frame, retry: int, name: string, value: string)
    requires Corresponds(s, p) && retry == Units(sdk, s.reconnection)
    requires name == "retry" ==> RetryAgrees(sdk, value)
    ensures
      var t := ProcessField(s, name, value);
      && Corresponds(t, Absorb(p, name, value)) && Retry(sdk, retry, name, value) == Units(sdk, t.reconnection)
      && t.lastEventId == s.lastEventId && t.dispatched == s.dispatched
  {
    assert (p.data + [value])[..|p.data|] == p.data;
  }

  ghost predicate Agree(sdk: Sdk, s: Source, a: Assembly, t: Source) {
    && t.dispatched == s.dispatched + Messages(s.lastEventId, a.frames)
    && t.lastEventId == LastId(s.lastEventId, a.frames)
    && a.retry == Units(sdk, t.reconnection)
    && Corresponds(t, a.pending)
  }

  lemma AgreeAfterDispatch(sdk: Sdk, s: Source, p: Frame, a: Assembly, t: Source)
    requires Corresponds(s, p) && Agree(sdk, Dispatch(s), a, t)
    ensures Agree(sdk, s, a.(frames := [p] + a.frames), t)
  {
    DispatchAgrees(s, p);
    assert ([p] + a.frames)[1..] == a.frames && [p][1..] == [];
    var id := NextId(s.lastEventId, p);
    assert Messages(s.lastEventId, [p] + a.frames) == Messages(s.lastEventId, [p]) + Messages(id, a.frames);
  }

  /** The standard splits a field line as the SDKs do. */
  lemma ProcessReadsField(s: Source, line: string)
    ensures
      match ReadLine(line)
      case Blank => Process(s, line) == Dispatch(s)
      case Comment => Process(s, line) == s
      case Field(name, value) => Process(s, line) == ProcessField(s, name, value)
  {
    ColonSplitAgrees(line);
  }

  /** One line other than a blank one: both sides take it in alike. */
  lemma LineProcessed(sdk: Sdk, s: Source, p: Frame, retry: int, line: string)
    requires Corresponds(s, p) && retry == Units(sdk, s.reconnection)
    requires ReadLine(line).Field? && (ReadLine(line).name == "retry" ==> RetryAgrees(sdk, ReadLine(line).value))
    ensures
      var t := Process(s, line);
      var Field(name, value) := ReadLine(line);
      && Corresponds(t, Absorb(p, name, value)) && Retry(sdk, retry, name, value) == Units(sdk, t.reconnection)
      && t.lastEventId == s.lastEventId && t.dispatched == s.dispatched
  {
    ProcessReadsField(s, line);
    FieldAgrees(sdk, s, p, retry, ReadLine(line).name, ReadLine(line).value);
  }

  lemma {:induction false} InterpretAgrees(sdk: Sdk, s: Source, p: Frame, retry: int, raws: seq<string>,
                                           lines: seq<string>)
    requires Corresponds(s, p) && retry == Units(sdk, s.reconnection) && RetriesAgree(sdk, raws)
    requires SameLines(sdk, raws, lines)
    ensures Agree(sdk, s, Assemble(sdk, p, retry, raws), Interpret(s, lines))
    decreases |raws|
  {
    if raws != [] {
      var line, t := lines[0], Process(s, lines[0]);
      match ReadLine(line)
      case Blank =>
        DispatchAgrees(s, p);
        InterpretAgrees(sdk, t, FRESH, retry, raws[1..], lines[1..]);
        AgreeAfterDispatch(sdk, s, p, Assemble(sdk, FRESH, retry, raws[1..]), Interpret(t, lines[1..]));
      case Comment =>
        InterpretAgrees(sdk, t, p, retry, raws[1..], lines[1..]);
      case Field(name, value) =>
        LineProcessed(sdk, s, p, retry, line);
        InterpretAgrees(sdk, t, Absorb(p, name, value), Retry(sdk, retry, name, value), raws[1..], lines[1..]);
    }
  }

  function NewSource(lastEventId: string, reconnection: int): Source {
    Source("", "", lastEventId, lastEventId, reconnection, [])
  }

  /** A stream on which the finished lines and retry values of an SDK are those of the standard. */
  predicate StandardText(sdk: Sdk, text: string) {
    PlainEndings(text) && Unmarked(sdk, text) && FitsScanner(sdk, text) && RetriesAgree(sdk, Cut(text))
  }

  /**
   * On a stream whose CRs all belong to CRLFs and that, for Go, no mark precedes and whose lines fit the
   * scanner, both SDKs complete exactly the frames the standard dispatches (and the data-less ones that
   * only commit an id), end with the same last event id and the same reconnection time. The id buffer
   * starts as the last event id of the connection.
   */
  lemma InterpreterRefinesStandard(sdk: Sdk, text: string, lastEventId: string, reconnection: int)
    requires StandardText(sdk, text)
    ensures
      var a := Assemble(sdk, FRESH, Units(sdk, reconnection), Whole(sdk, text));
      var t := Interpret(NewSource(lastEventId, reconnection), StdLines(sdk, text));
      && t.dispatched == Messages(lastEventId, a.frames)
      && t.lastEventId == LastId(lastEventId, a.frames)
      && a.retry == Units(sdk, t.reconnection)
  {
    var raws, source := Whole(sdk, text), NewSource(lastEventId, reconnection);
    WholeIsCut(sdk, text);
    LinesExactlyAgree(sdk, text);
    InterpretAgrees(sdk, source, FRESH, Units(sdk, reconnection), raws, StdLines(sdk, text));
  }
}
