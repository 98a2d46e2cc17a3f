/** Writing frames in the wire format, and reading them back. */
module Printing {
  import opened Json
  import opened Seqs
  import opened Lines
  import opened Frames
  import opened Reading

  predicate OneLine(s: string) {
    '\n' !in s && '\r' !in s
  }

  predicate AllOneLine(lines: seq<string>) {
    lines == [] || (OneLine(lines[0]) && AllOneLine(lines[1..]))
  }

  /** A frame the format can express: nothing breaks a line, and the id has no NUL. */
  predicate Printable(f: Frame) {
    && OneLine(f.event)
    && AllOneLine(f.data)
    && (f.id.Some? ==> OneLine(f.id.value) && '\0' !in f.id.value)
  }

  function PrintField(name: string, value: string): string {
    name + ": " + value
  }

  function PrintData(data: seq<string>): (lines: seq<string>)
    ensures |lines| == |data|
  {
    if data == [] then [] else [PrintField("data", data[0])] + PrintData(data[1..])
  }

  function PrintId(id: Option<string>): seq<string> {
    if id.Some? then [PrintField("id", id.value)] else []
  }

  /** The lines of a frame, without the blank line that completes it. */
  function PrintFields(f: Frame): seq<string> {
    PrintId(f.id) + [PrintField("event", f.event)] + PrintData(f.data)
  }

  function PrintFrame(f: Frame): seq<string> {
    PrintFields(f) + [""]
  }

  function PrintAll(frames: seq<Frame>): seq<string> {
    if frames == [] then [] else PrintFrame(frames[0]) + PrintAll(frames[1..])
  }

  predicate IsComment(line: string) {
    line != "" && line[0] == ':'
  }

  function WithoutComments(lines: seq<string>): seq<string> {
    if lines == [] then []
    else (if IsComment(lines[0]) then [] else [lines[0]]) + WithoutComments(lines[1..])
  }

  /** The text of some lines, each ended by LF or by CRLF. */
  function Written(lines: seq<string>, crlf: seq<bool>): string
    requires |lines| == |crlf|
  {
    if lines == [] then ""
    else Ended(lines[0], crlf[0]) + "\n" + Written(lines[1..], crlf[1..])
  }

  lemma ReadPrintedField(name: string, value: string)
    requires name != "" && ':' !in name
    ensures ReadLine(PrintField(name, value)) == Field(name, value)
  {
    var line := PrintField(name, value);
    assert forall k | 0 <= k < |name| :: line[k] == name[k];
    IndexOfUnique(line, ':', |name|);
    assert line[..|name|] == name && line[|name| + 1..] == " " + value;
    assert (" " + value)[1..] == value;
  }

  /** A line as it is written, up to the LF. */
  function Ended(line: string, crlf: bool): string {
    if crlf then line + "\r" else line
  }

  lemma CutWritten(lines: seq<string>, crlf: seq<bool>)
    requires |lines| == |crlf| && lines != [] && OneLine(lines[0])
    ensures Cut(Written(lines, crlf)) == [Ended(lines[0], crlf[0])] + Cut(Written(lines[1..], crlf[1..]))
    ensures Rest(Written(lines, crlf)) == Rest(Written(lines[1..], crlf[1..]))
  {
    CutLine(Ended(lines[0], crlf[0]), Written(lines[1..], crlf[1..]));
  }

  /** The lines of a written text, up to the CR that a trim removes. */
  lemma {:induction false} AssembleWritten(sdk: Sdk, p: Frame, retry: int, lines: seq<string>, crlf: seq<bool>)
    requires |lines| == |crlf| && AllOneLine(lines)
    ensures Assemble(sdk, p, retry, Cut(Written(lines, crlf))) == Assemble(sdk, p, retry, lines)
    ensures Rest(Written(lines, crlf)) == ""
    decreases |lines|
  {
    if lines != [] {
      var raws, later := Cut(Written(lines, crlf)), Written(lines[1..], crlf[1..]);
      CutWritten(lines, crlf);
      Cons(raws[0], Cut(later));
      TrimPlain(sdk, lines[0]);
      match ReadLine(lines[0])
      case Blank => AssembleWritten(sdk, FRESH, retry, lines[1..], crlf[1..]);
      case Comment => AssembleWritten(sdk, p, retry, lines[1..], crlf[1..]);
      case Field(name, value) =>
        AssembleWritten(sdk, Absorb(p, name, value), Retry(sdk, retry, name, value), lines[1..], crlf[1..]);
    }
  }

  lemma {:induction false} CommentsVanish(sdk: Sdk, p: Frame, retry: int, lines: seq<string>)
    requires AllOneLine(lines)
    ensures Assemble(sdk, p, retry, lines) == Assemble(sdk, p, retry, WithoutComments(lines))
    decreases |lines|
  {
    if lines != [] {
      var line, rest := lines[0], WithoutComments(lines[1..]);
      TrimPlain(sdk, line);
      assert WithoutComments(lines) == if IsComment(line) then rest else [line] + rest;
      match ReadLine(line)
      case Blank => CommentsVanish(sdk, FRESH, retry, lines[1..]);
      case Comment => CommentsVanish(sdk, p, retry, lines[1..]);
      case Field(name, value) =>
        CommentsVanish(sdk, Absorb(p, name, value), Retry(sdk, retry, name, value), lines[1..]);
    }
  }

  lemma AssembleField(sdk: Sdk, p: Frame, retry: int, name: string, value: string, rest: seq<string>)
    requires name in {"id", "event", "data"} && OneLine(value)
    ensures Assemble(sdk, p, retry, [PrintField(name, value)] + rest) ==
            Assemble(sdk, Absorb(p, name, value), retry, rest)
  {
    var raws := [PrintField(name, value)] + rest;
    ReadPrintedField(name, value);
    TrimPlain(sdk, PrintField(name, value));
    assert raws[1..] == rest;
  }

  lemma {:induction false} PrintDataIsOneLine(data: seq<string>)
    requires AllOneLine(data)
    ensures AllOneLine(PrintData(data))
  {
    if data != [] { PrintDataIsOneLine(data[1..]); }
  }

  lemma PrintFieldsAreOneLine(f: Frame)
    requires Printable(f)
    ensures AllOneLine(PrintFields(f))
  {
    var body := [PrintField("event", f.event)] + PrintData(f.data);
    PrintDataIsOneLine(f.data);
    assert body[1..] == PrintData(f.data);
    assert PrintFields(f) == PrintId(f.id) + body;
    if f.id.Some? {
      assert PrintFields(f)[1..] == body;
    }
  }

  lemma AssembleDataLine(sdk: Sdk, p: Frame, retry: int, value: string, rest: seq<string>)
    requires OneLine(value)
    ensures Assemble(sdk, p, retry, [PrintField("data", value)] + rest) ==
            Assemble(sdk, p.(data := p.data + [value]), retry, rest)
  {
    AssembleField(sdk, p, retry, "data", value, rest);
  }

  lemma {:induction false} AssembleData(sdk: Sdk, p: Frame, retry: int, data: seq<string>, rest: seq<string>)
    requires AllOneLine(data)
    ensures Assemble(sdk, p, retry, PrintData(data) + rest) == Assemble(sdk, p.(data := p.data + data), retry, rest)
    decreases |data|
  {
    if data == [] {
      Nil(rest);
      Nil(p.data);
    } else {
      var first, others := data[0], PrintData(data[1..]) + rest;
      var q := p.(data := p.data + [first]);
      Assoc([PrintField("data", first)], PrintData(data[1..]), rest);
      AssembleDataLine(sdk, p, retry, first, others);
      AssembleData(sdk, q, retry, data[1..], rest);
      Assoc(p.data, [first], data[1..]);
      HeadTail(data);
    }
  }

  lemma AssembleId(sdk: Sdk, retry: int, id: Option<string>, rest: seq<string>)
    requires id.Some? ==> OneLine(id.value) && '\0' !in id.value
    ensures Assemble(sdk, FRESH, retry, PrintId(id) + rest) == Assemble(sdk, FRESH.(id := id), retry, rest)
  {
    if id.Some? {
      AssembleField(sdk, FRESH, retry, "id", id.value, rest);
    } else {
      assert PrintId(id) + rest == rest;
    }
  }

  lemma AssembleEvent(sdk: Sdk, p: Frame, retry: int, event: string, rest: seq<string>)
    requires OneLine(event)
    ensures Assemble(sdk, p, retry, [PrintField("event", event)] + rest) ==
            Assemble(sdk, p.(event := event), retry, rest)
  {
    AssembleField(sdk, p, retry, "event", event, rest);
  }

  lemma AssembleBlank(sdk: Sdk, p: Frame, retry: int, rest: seq<string>)
    ensures
      var a := Assemble(sdk, FRESH, retry, rest);
      Assemble(sdk, p, retry, [""] + rest) == a.(frames := [p] + a.frames)
  {
    assert ([""] + rest)[1..] == rest && Trim(sdk, "") == "";
  }

  lemma AssembleFields(sdk: Sdk, retry: int, f: Frame, rest: seq<string>)
    requires Printable(f)
    ensures Assemble(sdk, FRESH, retry, PrintFields(f) + rest) == Assemble(sdk, f, retry, rest)
  {
    var afterEvent := PrintData(f.data) + rest;
    var afterId := [PrintField("event", f.event)] + afterEvent;
    assert PrintFields(f) + rest == PrintId(f.id) + afterId;
    AssembleId(sdk, retry, f.id, afterId);
    AssembleEvent(sdk, FRESH.(id := f.id), retry, f.event, afterEvent);
    var p := FRESH.(id := f.id, event := f.event);
    AssembleData(sdk, p, retry, f.data, rest);
    Nil(f.data);
  }

  lemma AssembleFrame(sdk: Sdk, retry: int, f: Frame, rest: seq<string>)
    requires Printable(f)
    ensures
      var a := Assemble(sdk, FRESH, retry, rest);
      Assemble(sdk, FRESH, retry, PrintFrame(f) + rest) == a.(frames := [f] + a.frames)
  {
    Assoc(PrintFields(f), [""], rest);
    AssembleFields(sdk, retry, f, [""] + rest);
    AssembleBlank(sdk, f, retry, rest);
  }

  lemma {:induction false} AssemblePrinted(sdk: Sdk, retry: int, frames: seq<Frame>)
    requires forall f <- frames :: Printable(f)
    ensures Assemble(sdk, FRESH, retry, PrintAll(frames)) == Assembly(frames, FRESH, retry)
    decreases |frames|
  {
    if frames != [] {
      assert Printable(frames[0]);
      AssembleFrame(sdk, retry, frames[0], PrintAll(frames[1..]));
      AssemblePrinted(sdk, retry, frames[1..]);
    }
  }

  /** The lines of such a text, the scanner's limit apart. */
  lemma PrintedLines(sdk: Sdk, retry: int, frames: seq<Frame>, lines: seq<string>, crlf: seq<bool>)
    requires forall f <- frames :: Printable(f)
    requires |lines| == |crlf| && AllOneLine(lines)
    requires WithoutComments(lines) == PrintAll(frames)
    ensures Assemble(sdk, FRESH, retry, Cut(Written(lines, crlf))) == Assembly(frames, FRESH, retry)
    ensures Rest(Written(lines, crlf)) == ""
  {
    AssembleWritten(sdk, FRESH, retry, lines, crlf);
    CommentsVanish(sdk, FRESH, retry, lines);
    AssemblePrinted(sdk, retry, frames);
  }

  /** Every blank line completes a frame. */
  function Blanks(sdk: Sdk, raws: seq<string>): nat {
    if raws == [] then 0 else (if Trim(sdk, raws[0]) == "" then 1 else 0) + Blanks(sdk, raws[1..])
  }

  lemma {:induction false} BlanksComplete(sdk: Sdk, p: Frame, retry: int, raws: seq<string>)
    ensures |Assemble(sdk, p, retry, raws).frames| == Blanks(sdk, raws)
    decreases |raws|
  {
    if raws != [] {
      match ReadLine(Trim(sdk, raws[0]))
      case Blank => BlanksComplete(sdk, FRESH, retry, raws[1..]);
      case Comment => BlanksComplete(sdk, p, retry, raws[1..]);
      case Field(name, value) =>
        BlanksComplete(sdk, Absorb(p, name, value), Retry(sdk, retry, name, value), raws[1..]);
    }
  }

  lemma {:induction false} BlanksConcat(sdk: Sdk, a: seq<string>, b: seq<string>)
    ensures Blanks(sdk, a + b) == Blanks(sdk, a) + Blanks(sdk, b)
    decreases |a|
  {
    if a == [] {
      Nil(b);
    } else {
      ConcatTail(a, b);
      BlanksConcat(sdk, a[1..], b);
    }
  }

  /** Lines of which the last is blank complete more frames than any fewer of them. */
  lemma FewerFrames(sdk: Sdk, retry: int, raws: seq<string>, fewer: seq<string>)
    requires fewer < raws && Trim(sdk, raws[|raws| - 1]) == ""
    ensures |Assemble(sdk, FRESH, retry, fewer).frames| < |Assemble(sdk, FRESH, retry, raws).frames|
  {
    var front, last := raws[|fewer|..|raws| - 1], [raws[|raws| - 1]];
    assert raws == fewer + (front + last);
    BlanksComplete(sdk, FRESH, retry, fewer);
    BlanksComplete(sdk, FRESH, retry, raws);
    BlanksConcat(sdk, fewer, front + last);
    BlanksConcat(sdk, front, last);
    Cons(raws[|raws| - 1], []);
  }

  /** The last line of a written text, before it is trimmed. */
  lemma {:induction false} LastWritten(lines: seq<string>, crlf: seq<bool>)
    requires |lines| == |crlf| && lines != [] && AllOneLine(lines)
    ensures |Cut(Written(lines, crlf))| == |lines|
    ensures
      Cut(Written(lines, crlf))[|lines| - 1] == Ended(lines[|lines| - 1], crlf[|lines| - 1])
    decreases |lines|
  {
    CutWritten(lines, crlf);
    if |lines| > 1 {
      LastWritten(lines[1..], crlf[1..]);
    } else {
      assert Cut(Written(lines[1..], crlf[1..])) == [];
    }
  }

  /**
   * Frames written as `field: value` lines, with comments anywhere between the lines and either line
   * ending, are read back unchanged, and nothing is left pending. The lines must fit Go's scanner: when
   * the text ends in a blank line, as it does without comments after the last frame, the frames are read
   * back exactly when they do.
   */
  lemma PrintThenParse(sdk: Sdk, retry: int, frames: seq<Frame>, lines: seq<string>, crlf: seq<bool>)
    requires forall f <- frames :: Printable(f)
    requires |lines| == |crlf| && AllOneLine(lines)
    requires WithoutComments(lines) == PrintAll(frames)
    ensures
      var text := Written(lines, crlf);
      var a := Assemble(sdk, FRESH, retry, Whole(sdk, text));
      && Rest(text) == ""
      && (FitsScanner(sdk, text) ==> a == Assembly(frames, FRESH, retry) && LastFrame(sdk, text) == FRESH)
      && (lines != [] && lines[|lines| - 1] == "" ==> (a.frames == frames <==> FitsScanner(sdk, text)))
  {
    var text := Written(lines, crlf);
    var raws := Cut(text);
    PrintedLines(sdk, retry, frames, lines, crlf);
    PrintedLines(sdk, 0, frames, lines, crlf);
    WholeIsCut(sdk, text);
    if FitsScanner(sdk, text) {
      assert LastFrame(sdk, text) == FRESH;
    } else if lines != [] && lines[|lines| - 1] == "" {
      LastIsBlank(sdk, lines, crlf);
      FewerFrames(sdk, retry, raws, Whole(sdk, text));
    }
  }

  lemma LastIsBlank(sdk: Sdk, lines: seq<string>, crlf: seq<bool>)
    requires |lines| == |crlf| && lines != [] && AllOneLine(lines) && lines[|lines| - 1] == ""
    ensures
      var raws := Cut(Written(lines, crlf));
      raws != [] && Trim(sdk, raws[|raws| - 1]) == ""
  {
    LastWritten(lines, crlf);
    TrimPlain(sdk, "");
  }
}
