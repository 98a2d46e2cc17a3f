/** Inputs on which the SDKs leave the standard, one for each condition that `Standard` and `Conformance` ask for. */
module Departures {
  import opened Json
  import opened Seqs
  import opened Lines
  import opened Numbers
  import opened Frames
  import opened Delivery
  import opened Reading
  import opened Session
  import opened Printing
  import opened Standard

  /** A line without line endings is read to its end. */
  lemma {:induction false} StdReadsLine(start: string, line: string, rest: string)
    requires OneLine(line)
    ensures StdLinesFrom(start, line + rest) == StdLinesFrom(start + line, rest)
    decreases |line|
  {
    if line == "" {
      Nil(rest);
      Nil(start);
    } else {
      ConcatTail(line, rest);
      HeadTail(line);
      Assoc(start, [line[0]], line[1..]);
      StdReadsLine(start + [line[0]], line[1..], rest);
    }
  }

  /** A line and a blank line, ended alike by LF or by CR. */
  lemma StdTwoLines(line: string, ending: char)
    requires OneLine(line) && ending in {'\n', '\r'}
    ensures StdLinesFrom("", line + [ending, ending]) == [line, ""]
  {
    var e := [ending, ending];
    StdReadsLine("", line, e);
    Nil(line);
    assert e[1..] == [ending] && [ending][1..] == "";
    assert StdLinesFrom("", [ending]) == [""] + StdLinesFrom("", "");
    assert StdLinesFrom(line, e) == [line] + StdLinesFrom("", [ending]);
  }

  /** The standard dispatches a message of one data line. */
  lemma StdDispatches(s: Source, data: string)
    requires OneLine(data) && s.data == "" && s.eventType == ""
    ensures Interpret(s, [PrintField("data", data), ""]).dispatched ==
            s.dispatched + [Message("message", data, s.idBuffer)]
  {
    var line := PrintField("data", data);
    ReadPrintedField("data", data);
    ProcessReadsField(s, line);
    var t := Process(s, line);
    assert t.data == data + "\n" && t.data[..|t.data| - 1] == data;
    Cons(line, [""]);
    assert [line, ""][1..] == [""] && [""][1..] == [];
    assert Interpret(s, [line, ""]) == Interpret(t, [""]) == Interpret(Process(t, ""), []);
  }

  lemma {:induction false} InterpretConcat(s: Source, a: seq<string>, b: seq<string>)
    ensures Interpret(s, a + b) == Interpret(Interpret(s, a), b)
    decreases |a|
  {
    if a == [] {
      Nil(b);
    } else {
      ConcatTail(a, b);
      InterpretConcat(Process(s, a[0]), a[1..], b);
    }
  }

  // ----- Lone CRs -----

  /** A data line and a blank line, both ended by lone CRs: a message to the standard, nothing to TypeScript. */
  lemma LoneCRsHideAMessage(cfg: Config, s: Stream, data: string, ending: Ending, reconnection: int)
    requires cfg.sdk.TypeScript? && OneLine(data)
    ensures
      var text := PrintField("data", data) + "\r\r";
      && Interpret(NewSource(CursorText(s.cursor), reconnection), StdLines(cfg.sdk, text)).dispatched ==
         [Message("message", data, CursorText(s.cursor))]
      && ReadBody(cfg, Open(s), text, ending).feed == Open(s).feed
  {
    var line := PrintField("data", data);
    var text := line + "\r\r";
    assert OneLine(line);
    assert '\n' !in text;
    IndexOfUnique(text, '\n', |text|);
    StdTwoLines(line, '\r');
    assert ['\r', '\r'] == "\r\r";
    StdDispatches(NewSource(CursorText(s.cursor), reconnection), data);
    assert FramesOf(cfg.sdk, Whole(cfg.sdk, text)) == [] && LastFrame(cfg.sdk, text) == FRESH;
    BodySplits(cfg, Open(s), text, ending);
    DeliverIdle(cfg, Open(s).feed, FRESH);
  }

  /** The same with a comment after it, on which the SDKs find their first LF. */
  function JoinedLines(data: string): string {
    PrintField("data", data) + "\r\r:\n"
  }

  lemma StdOfJoinedLines(s: Source, data: string)
    requires OneLine(data) && s.data == "" && s.eventType == ""
    ensures Interpret(s, StdLinesFrom("", JoinedLines(data))).dispatched ==
            s.dispatched + [Message("message", data, s.idBuffer)]
  {
    var line := PrintField("data", data);
    assert OneLine(line);
    assert JoinedLines(data) == line + "\r\r:\n";
    StdReadsLine("", line, "\r\r:\n");
    Nil(line);
    assert "\r\r:\n"[1..] == "\r:\n" && "\r:\n"[1..] == ":\n" && ":\n"[1..] == "\n" && "\n"[1..] == "";
    Nil(":");
    assert StdLinesFrom("", ":\n") == StdLinesFrom(":", "\n") == [":"] + StdLinesFrom("", "");
    assert StdLinesFrom("", "\r:\n") == ["", ":"];
    assert StdLinesFrom(line, "\r\r:\n") == [line, ""] + [":"];
    InterpretConcat(s, [line, ""], [":"]);
    StdDispatches(s, data);
    Cons(":", []);
  }

  /** A line that fits and the LF that ends it. */
  lemma OneFinishedLine(sdk: Sdk, line: string)
    requires '\n' !in line && Fits(line)
    ensures Cut(line + "\n") == Whole(sdk, line + "\n") == [line] && Tail(sdk, line + "\n") == []
  {
    Nil(line + "\n");
    CutLine(line, "");
    Cons(line, []);
    assert Scannable([line]) == [line] + Scannable([]);
  }

  lemma AssembleOneField(sdk: Sdk, retry: int, name: string, value: string)
    requires name in {"id", "event", "data", "retry"}
    requires Trim(sdk, PrintField(name, value)) == PrintField(name, value)
    ensures Assemble(sdk, FRESH, retry, [PrintField(name, value)]) ==
            Assembly([], Absorb(FRESH, name, value), Retry(sdk, retry, name, value))
  {
    ReadPrintedField(name, value);
    Cons(PrintField(name, value), []);
  }

  lemma JoinedIsOneLine(sdk: Sdk, data: string)
    requires OneLine(data) && Fits(PrintField("data", data + "\r\r:"))
    ensures
      var text := JoinedLines(data);
      && FramesOf(sdk, Whole(sdk, text)) == []
      && LastFrame(sdk, text) == Frame("message", [data + "\r\r:"], None)
  {
    var raw := PrintField("data", data + "\r\r:");
    assert JoinedLines(data) == raw + "\n" && raw[|raw| - 1] == ':' && '\n' !in raw;
    OneFinishedLine(sdk, raw);
    AssembleOneField(sdk, 0, "data", data + "\r\r:");
  }

  /** Both SDKs read it as one data line, which no blank line follows and which holds what no JSON text does. */
  lemma LoneCRsJoinLines(cfg: Config, s: Stream, data: string, ending: Ending, reconnection: int)
    requires OneLine(data) && Fits(PrintField("data", data + "\r\r:")) && cfg.parse(data + "\r\r:") == None
    ensures
      var text := JoinedLines(data);
      && Interpret(NewSource(CursorText(s.cursor), reconnection), StdLines(cfg.sdk, text)).dispatched ==
         [Message("message", data, CursorText(s.cursor))]
      && FramesOf(cfg.sdk, Whole(cfg.sdk, text)) == []
      && LastFrame(cfg.sdk, text) == Frame("message", [data + "\r\r:"], None)
      && ReadBody(cfg, Open(s), text, ending).feed.out == s.out
  {
    var text, frame := JoinedLines(data), Frame("message", [data + "\r\r:"], None);
    assert text[0] == 'd';
    StdOfJoinedLines(NewSource(CursorText(s.cursor), reconnection), data);
    JoinedIsOneLine(cfg.sdk, data);
    BodySplits(cfg, Open(s), text, ending);
    assert Documents(cfg, frame) == [];
    DeliverEffect(cfg, Open(s).feed, frame);
    Nil(s.out);
  }

  // ----- A byte order mark -----

  /** The same message behind a byte order mark: Go loses its only data line. */
  lemma MarkHidesAMessage(data: string, lastEventId: string, reconnection: int)
    requires OneLine(data)
    ensures
      var text := MARK + PrintField("data", data) + "\n\n";
      && !Unmarked(Go, text) && Messages(lastEventId, FramesOf(Go, Cut(text))) == []
      && Interpret(NewSource(lastEventId, reconnection), StdLines(Go, text)).dispatched ==
         [Message("message", data, lastEventId)]
  {
    var line := PrintField("data", data);
    var text := MARK + line + "\n\n";
    assert OneLine(line);
    assert text == MARK + line + "\n" + "\n" && text[|MARK|..] == line + ['\n', '\n'];
    MarkDropsFirstLine(FRESH, 0, line, "\n");
    assert "\n" == "" + "\n" + "";
    CutLine("", "");
    AssembleBlank(Go, FRESH, 0, []);
    assert [""] + [] == [""] == Cut("\n");
    assert FramesOf(Go, Cut(text)) == [FRESH] && [FRESH][1..] == [];
    StdTwoLines(line, '\n');
    StdDispatches(NewSource(lastEventId, reconnection), data);
  }

  // ----- A line that the scanner cannot hold -----

  /** A message whose data line is a mebibyte or more: Go reads nothing of the body and reports a read error. */
  lemma OversizedLineHidesAMessage(cfg: Config, s: Stream, data: string, ending: Ending, reconnection: int)
    requires cfg.sdk.Go? && OneLine(data) && !Fits(PrintField("data", data))
    ensures
      var text := PrintField("data", data) + "\n\n";
      && PlainEndings(text) && Unmarked(Go, text) && SameLines(Go, Cut(text), StdLines(Go, text))
      && Interpret(NewSource(CursorText(s.cursor), reconnection), StdLines(Go, text)).dispatched ==
         [Message("message", data, CursorText(s.cursor))]
      && Whole(Go, text) == Raws(Go, text) == [] && Failed(Go, text, ending)
      && ReadBody(cfg, Open(s), text, ending).feed == Open(s).feed
  {
    var text := PrintField("data", data) + "\n\n";
    FinishedMessage(Go, data);
    StdDispatches(NewSource(CursorText(s.cursor), reconnection), data);
    CutLinesAgree(Go, text);
    ScanStops(text);
    BodySplits(cfg, Open(s), text, ending);
    DeliverIdle(cfg, Open(s).feed, FRESH);
  }

  /** A data line and a blank line, to the standard and to the cutter. */
  lemma FinishedMessage(sdk: Sdk, data: string)
    requires OneLine(data)
    ensures
      var line, text := PrintField("data", data), PrintField("data", data) + "\n\n";
      && PlainEndings(text) && Unmarked(sdk, text)
      && StdLines(sdk, text) == [line, ""] && Cut(text) != [] && Cut(text)[0] == line
  {
    var line := PrintField("data", data);
    assert OneLine(line);
    assert line + "\n\n" == line + "\n" + "\n" && ['\n', '\n'] == "\n\n" && line[0] == 'd';
    CutLine(line, "\n");
    StdTwoLines(line, '\n');
  }

  lemma ScanStops(text: string)
    requires Cut(text) != [] && !Fits(Cut(text)[0])
    ensures Whole(Go, text) == Raws(Go, text) == [] != ScanLines(text)
  {
    assert ScanLines(text)[0] == Cut(text)[0];
  }

  // ----- A signed retry value -----

  lemma SignedNumber(n: nat)
    requires IsInt64(n)
    ensures
      var value := "+" + ShowNat(n);
      OneLine(value) && !AllDigits(value) && ParseInt64(value) == Some(n)
  {
    var digits, value := ShowNat(n), "+" + ShowNat(n);
    ShowNatReads(n);
    assert value[1..] == digits && value[0] == '+' && value[0] in value && !IsDigit('+');
    assert !IsDigit('\n') && !IsDigit('\r');
    assert forall c <- digits :: IsDigit(c);
    assert forall c <- value :: c == '+' || c in digits;
  }

  /** `retry: +n` sets Go's delay; the standard, and TypeScript, take digits only. */
  lemma SignedRetryIsTaken(n: nat, retry: int, s: Source)
    requires n * 1_000_000 < TWO_63 && Fits(PrintField("retry", "+" + ShowNat(n)))
    ensures
      var text := PrintField("retry", "+" + ShowNat(n)) + "\n";
      && Assemble(Go, FRESH, retry, Whole(Go, text)).retry == n * 1_000_000
      && Assemble(TypeScript, FRESH, retry, Whole(TypeScript, text)).retry == retry
      && Interpret(s, StdLines(Go, text)).reconnection == s.reconnection
  {
    var value := "+" + ShowNat(n);
    SignedNumber(n);
    RetryOfOneLine(Go, retry, value);
    RetryOfOneLine(TypeScript, retry, value);
    StdRetryOfOneLine(s, value);
  }

  lemma RetryOfOneLine(sdk: Sdk, retry: int, value: string)
    requires OneLine(value) && Fits(PrintField("retry", value))
    ensures Assemble(sdk, FRESH, retry, Whole(sdk, PrintField("retry", value) + "\n")).retry ==
            Retry(sdk, retry, "retry", value)
  {
    var line := PrintField("retry", value);
    assert OneLine(line);
    TrimPlain(sdk, line);
    OneFinishedLine(sdk, line);
    AssembleOneField(sdk, retry, "retry", value);
  }

  lemma StdRetryOfOneLine(s: Source, value: string)
    requires OneLine(value) && !AllDigits(value)
    ensures Interpret(s, StdLines(Go, PrintField("retry", value) + "\n")).reconnection == s.reconnection
  {
    var line := PrintField("retry", value);
    assert OneLine(line) && (line + "\n")[0] == 'r';
    StdOneLine(line);
    ReadPrintedField("retry", value);
    ProcessReadsField(s, line);
    assert Process(s, line).reconnection == s.reconnection;
    Cons(line, []);
  }

  lemma StdOneLine(line: string)
    requires OneLine(line)
    ensures StdLinesFrom("", line + "\n") == [line]
  {
    StdReadsLine("", line, "\n");
    Nil(line);
    assert StdLinesFrom(line, "\n") == [line] + StdLinesFrom("", "");
  }

  // ----- An unfinished frame -----

  /** What a text of one data line is to both sides. */
  lemma OneDataLine(sdk: Sdk, retry: int, data: string)
    requires OneLine(data) && Fits(PrintField("data", data))
    ensures
      var line, text := PrintField("data", data), PrintField("data", data) + "\n";
      && Whole(sdk, text) == [line] && Tail(sdk, text) == [] && StandardText(sdk, text)
      && Assemble(sdk, FRESH, retry, [line]) == Assembly([], Frame("message", [data], None), retry)
  {
    var line := PrintField("data", data);
    assert OneLine(line) && line[0] == 'd';
    TrimPlain(sdk, line);
    OneFinishedLine(sdk, line);
    AssembleOneField(sdk, retry, "data", data);
    Nil([data]);
    Cons(line, []);
  }

  /** A data line that no blank line follows: nothing to the standard, a document to a client that flushes. */
  lemma UnfinishedFrameIsHandedOver(cfg: Config, s: Stream, data: string, doc: Value, ending: Ending, reconnection: int)
    requires OneLine(data) && Fits(PrintField("data", data))
    requires cfg.parse(data) == Some(doc) && !Stale(cfg, s.maxSequence, doc)
    ensures
      var text := PrintField("data", data) + "\n";
      && Interpret(NewSource(CursorText(s.cursor), reconnection), StdLines(cfg.sdk, text)).dispatched == []
      && ReadBody(cfg, Open(s), text, ending).feed.out ==
         s.out + (if FlushesAtEnd(cfg.sdk, ending) then Accepted(cfg, [doc]) else [])
  {
    var text, frame := PrintField("data", data) + "\n", Frame("message", [data], None);
    OneDataLine(cfg.sdk, 0, data);
    OneDataLine(cfg.sdk, Units(cfg.sdk, reconnection), data);
    InterpreterRefinesStandard(cfg.sdk, text, CursorText(s.cursor), reconnection);
    BodySplits(cfg, Open(s), text, ending);
    DeliverSingle(cfg, Open(s).feed, frame, doc);
    AcceptedOne(cfg, doc);
    Nil(s.out);
  }
}
