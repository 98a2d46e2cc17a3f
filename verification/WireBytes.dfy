/**
 * Go reads bytes where the model reads characters. On valid UTF-8 whose lines fit the scanner the difference
 * is one of encoding only: a run on the bytes is the encoded run on the characters.
 */
module WireBytes {
  import opened Json
  import opened Seqs
  import opened Utf8
  import opened Numbers
  import opened Lines
  import opened Frames
  import opened Delivery
  import opened Reading
  import opened Controller
  import opened Session

  // ----- Text -----

  function BytesOf(c: char): (s: string)
    ensures |s| >= 1
  {
    var e := EncodeChar(c);
    seq(|e|, i requires 0 <= i < |e| => e[i] as char)
  }

  /** The UTF-8 bytes of a text, one character for a byte. */
  function OnWire(s: string): string {
    if s == "" then "" else BytesOf(s[0]) + OnWire(s[1..])
  }

  predicate Ascii(s: string) {
    forall c <- s :: c < '\U{80}'
  }

  lemma AsciiByte(c: char)
    ensures c < '\U{80}' ==> BytesOf(c) == [c]
    ensures c >= '\U{80}' ==> forall b <- BytesOf(c) :: b >= '\U{80}'
  {
  }

  lemma {:induction false} OnWireConcat(s: string, t: string)
    ensures OnWire(s + t) == OnWire(s) + OnWire(t)
  {
    if s == "" {
      Nil(OnWire(t));
      Nil(t);
    } else {
      ConcatTail(s, t);
      OnWireConcat(s[1..], t);
      Assoc(BytesOf(s[0]), OnWire(s[1..]), OnWire(t));
    }
  }

  lemma OnWireOne(c: char)
    ensures OnWire([c]) == BytesOf(c)
  {
    Cons(c, []);
    Nil(BytesOf(c));
  }

  lemma {:induction false} LongerOnWire(s: string)
    ensures |OnWire(s)| >= |s|
  {
    if s != "" { LongerOnWire(s[1..]); }
  }

  /** An ASCII character stands in the bytes exactly when it stands in the text. */
  lemma {:induction false} AsciiSurvives(s: string, c: char)
    requires c < '\U{80}'
    ensures c in OnWire(s) <==> c in s
  {
    if s != "" {
      AsciiByte(s[0]);
      AsciiSurvives(s[1..], c);
    }
  }

  lemma {:induction false} AsciiIsKept(s: string)
    ensures Ascii(s) <==> Ascii(OnWire(s))
    ensures Ascii(s) ==> OnWire(s) == s
  {
    if s != "" {
      var b := BytesOf(s[0]);
      AsciiByte(s[0]);
      AsciiIsKept(s[1..]);
      assert b[0] in b && s[0] in [s[0]];
      assert Ascii(b) <==> Ascii([s[0]]);
      AsciiConcat(b, OnWire(s[1..]));
      HeadTail(s);
      AsciiConcat([s[0]], s[1..]);
    }
  }

  lemma AsciiConcat(s: string, t: string)
    ensures Ascii(s + t) <==> Ascii(s) && Ascii(t)
  {
    if Ascii(s + t) {
      assert forall c <- s :: c in s + t;
      assert forall c <- t :: c in s + t;
    }
  }

  /** A name of the format is read off the bytes as off the text. */
  lemma SameName(s: string, name: string)
    requires Ascii(name)
    ensures OnWire(s) == name <==> s == name
  {
    AsciiIsKept(s);
    AsciiIsKept(name);
  }

  function AllOnWire(lines: seq<string>): seq<string> {
    if lines == [] then [] else [OnWire(lines[0])] + AllOnWire(lines[1..])
  }

  lemma {:induction false} AllOnWireConcat(a: seq<string>, b: seq<string>)
    ensures AllOnWire(a + b) == AllOnWire(a) + AllOnWire(b)
    decreases |a|
  {
    if a == [] {
      Nil(AllOnWire(b));
      Nil(b);
    } else {
      ConcatTail(a, b);
      AllOnWireConcat(a[1..], b);
      Assoc([OnWire(a[0])], AllOnWire(a[1..]), AllOnWire(b));
    }
  }

  // ----- Lines -----

  /** The text before the first `c`, and after it. */
  lemma SplitAt(s: string, c: char) returns (u: string, v: string)
    requires c in s
    ensures s == u + [c] + v && c !in u && |v| < |s|
  {
    var i := IndexOf(s, c);
    var k :| 0 <= k < |s| && s[k] == c;
    assert i <= k;
    u, v := s[..i], s[i + 1..];
  }

  lemma PiecesOnWire(u: string, c: char, v: string)
    requires c < '\U{80}'
    ensures OnWire(u + [c] + v) == OnWire(u) + [c] + OnWire(v)
    ensures c !in u ==> c !in OnWire(u)
  {
    OnWireConcat(u + [c], v);
    OnWireConcat(u, [c]);
    OnWireOne(c);
    AsciiByte(c);
    AsciiSurvives(u, c);
  }

  /** A text without an LF is an unfinished line. */
  lemma NoLine(s: string)
    requires '\n' !in s
    ensures Cut(s) == [] && Rest(s) == s
  {
    IndexOfUnique(s, '\n', |s|);
  }

  lemma {:induction false} CutOnWire(s: string)
    ensures Cut(OnWire(s)) == AllOnWire(Cut(s)) && Rest(OnWire(s)) == OnWire(Rest(s))
    decreases |s|
  {
    if '\n' in s {
      var u, v := SplitAt(s, '\n');
      assert "\n" == ['\n'];
      PiecesOnWire(u, '\n', v);
      CutLine(u, v);
      CutLine(OnWire(u), OnWire(v));
      CutOnWire(v);
      AllOnWireCons(u, Cut(v));
    } else {
      AsciiSurvives(s, '\n');
      NoLine(s);
      NoLine(OnWire(s));
    }
  }

  lemma AllOnWireCons(line: string, lines: seq<string>)
    ensures AllOnWire([line] + lines) == [OnWire(line)] + AllOnWire(lines)
  {
    Cons(line, lines);
  }

  lemma {:induction false} TrimOnWire(line: string)
    ensures TrimAll(OnWire(line)) == OnWire(TrimAll(line))
    decreases |line|
  {
    if line != "" {
      var front, last := line[..|line| - 1], line[|line| - 1];
      FrontLast(line);
      OnWireConcat(front, [last]);
      OnWireOne(last);
      AsciiByte(last);
      var b := BytesOf(last);
      assert b[|b| - 1] in b;
      if last == '\r' {
        assert (OnWire(front) + ['\r'])[..|OnWire(front)|] == OnWire(front);
        TrimOnWire(front);
      } else {
        assert OnWire(line)[|OnWire(line)| - 1] == b[|b| - 1] != '\r';
      }
    }
  }

  function LineOnWire(line: Line): Line {
    match line
    case Field(name, value) => Field(OnWire(name), OnWire(value))
    case _ => line
  }

  lemma FirstOnWire(s: string, c: char)
    requires s != "" && c < '\U{80}'
    ensures OnWire(s) != "" && (OnWire(s)[0] == c <==> s[0] == c)
    ensures s[0] == c ==> OnWire(s)[1..] == OnWire(s[1..])
  {
    AsciiByte(s[0]);
    var b := BytesOf(s[0]);
    assert OnWire(s)[0] == b[0] && b[0] in b;
  }

  function DropSpace(s: string): string {
    if s != "" && s[0] == ' ' then s[1..] else s
  }

  lemma DropSpaceOnWire(s: string)
    ensures DropSpace(OnWire(s)) == OnWire(DropSpace(s))
  {
    if s != "" { FirstOnWire(s, ' '); }
  }

  lemma ReadNameAndValue(name: string, value: string)
    requires name != "" && ':' !in name
    ensures ReadLine(name + ":" + value) == Field(name, DropSpace(value))
  {
    var line := name + ":" + value;
    assert forall k | 0 <= k < |name| :: line[k] == name[k];
    IndexOfUnique(line, ':', |name|);
    assert line[..|name|] == name && line[|name| + 1..] == value;
  }

  lemma ReadNameOnly(line: string)
    requires line != "" && ':' !in line
    ensures ReadLine(line) == Field(line, "")
  {
    IndexOfUnique(line, ':', |line|);
    assert line[0] in line;
  }

  lemma ReadOnWire(line: string)
    ensures ReadLine(OnWire(line)) == LineOnWire(ReadLine(line))
  {
    if line != "" {
      FirstOnWire(line, ':');
      if line[0] != ':' { ReadFieldOnWire(line); }
    }
  }

  lemma ReadFieldOnWire(line: string)
    requires line != "" && line[0] != ':'
    ensures ReadLine(OnWire(line)) == LineOnWire(ReadLine(line))
  {
    if ':' in line {
      var name, value := SplitAt(line, ':');
      assert ":" == [':'];
      PiecesOnWire(name, ':', value);
      ReadNameAndValue(name, value);
      LongerOnWire(name);
      ReadNameAndValue(OnWire(name), OnWire(value));
      DropSpaceOnWire(value);
    } else {
      AsciiSurvives(line, ':');
      LongerOnWire(line);
      ReadNameOnly(line);
      ReadNameOnly(OnWire(line));
    }
  }

  // ----- Frames -----

  function TextOnWire(text: Option<string>): Option<string> {
    if text.Some? then Some(OnWire(text.value)) else None
  }

  function FrameOnWire(frame: Frame): Frame {
    Frame(OnWire(frame.event), AllOnWire(frame.data), TextOnWire(frame.id))
  }

  lemma AbsorbOnWire(p: Frame, name: string, value: string)
    ensures Absorb(FrameOnWire(p), OnWire(name), OnWire(value)) == FrameOnWire(Absorb(p, name, value))
  {
    SameName(name, "event");
    SameName(name, "data");
    SameName(name, "id");
    AsciiSurvives(value, '\0');
    AllOnWireConcat(p.data, [value]);
    Cons(value, []);
    Nil([OnWire(value)]);
  }

  /** Only ASCII text is a number. */
  lemma NumberIsAscii(s: string)
    requires !Ascii(s)
    ensures ParseInt64(s) == None
  {
    var c :| c in s && c >= '\U{80}';
    var digits := if s[0] in {'+', '-'} then s[1..] else s;
    assert c in digits && !IsDigit(c);
  }

  lemma RetryValueOnWire(value: string)
    ensures RetryValue(Go, OnWire(value)) == RetryValue(Go, value)
  {
    AsciiIsKept(value);
    if !Ascii(value) {
      NumberIsAscii(value);
      NumberIsAscii(OnWire(value));
    }
  }

  lemma RetryOnWire(retry: int, name: string, value: string)
    ensures Retry(Go, retry, OnWire(name), OnWire(value)) == Retry(Go, retry, name, value)
  {
    SameName(name, "retry");
    RetryValueOnWire(value);
  }

  lemma FreshOnWire()
    ensures FrameOnWire(FRESH) == FRESH
  {
    AsciiIsKept("message");
  }

  lemma {:induction false} JoinOnWire(parts: seq<string>)
    ensures Join(AllOnWire(parts), "\n") == OnWire(Join(parts, "\n"))
  {
    if |parts| == 1 {
      Cons(OnWire(parts[0]), []);
    } else if parts != [] {
      JoinOnWire(parts[1..]);
      AsciiIsKept("\n");
      OnWireConcat(parts[0] + "\n", Join(parts[1..], "\n"));
      OnWireConcat(parts[0], "\n");
    }
  }

  // ----- Delivery -----

  /** Go's parser on bytes reads what the model's parser reads on characters. */
  ghost predicate ReadsBytes(wire: Config, cfg: Config) {
    && cfg.sdk.Go? && wire == cfg.(parse := wire.parse)
    && forall s: string :: wire.parse(OnWire(s)) == cfg.parse(s)
  }

  function FeedOnWire(f: Feed): Feed {
    f.(cursor := TextOnWire(f.cursor))
  }

  lemma DocumentsOnWire(wire: Config, cfg: Config, frame: Frame)
    requires ReadsBytes(wire, cfg)
    ensures Documents(wire, FrameOnWire(frame)) == Documents(cfg, frame)
  {
    JoinOnWire(frame.data);
    SameName(frame.event, "batch");
    assert wire.parse(OnWire(Join(frame.data, "\n"))) == cfg.parse(Join(frame.data, "\n"));
  }

  lemma {:induction false} SendAllOnWire(wire: Config, cfg: Config, f: Feed, event: string, docs: seq<Value>)
    requires ReadsBytes(wire, cfg)
    ensures SendAll(wire, FeedOnWire(f), OnWire(event), docs) == FeedOnWire(SendAll(cfg, f, event, docs))
    decreases |docs|
  {
    if docs != [] {
      SameName(event, "state.snapshot");
      assert Send(wire, FeedOnWire(f), OnWire(event), docs[0]) == FeedOnWire(Send(cfg, f, event, docs[0]));
      SendAllOnWire(wire, cfg, Send(cfg, f, event, docs[0]), event, docs[1..]);
    }
  }

  lemma DeliverOnWire(wire: Config, cfg: Config, f: Feed, frame: Frame)
    requires ReadsBytes(wire, cfg)
    ensures Deliver(wire, FeedOnWire(f), FrameOnWire(frame)) == FeedOnWire(Deliver(cfg, f, frame))
  {
    DocumentsOnWire(wire, cfg, frame);
    SendAllOnWire(wire, cfg, Commit(cfg, f, frame), frame.event, Documents(cfg, frame));
    assert Commit(wire, FeedOnWire(f), FrameOnWire(frame)) == FeedOnWire(Commit(cfg, f, frame));
  }

  // ----- A connection -----

  function ReaderOnWire(r: Reader): Reader {
    Reader(FrameOnWire(r.pending), r.retry, FeedOnWire(r.feed))
  }

  lemma TakeOnWire(wire: Config, cfg: Config, r: Reader, raw: string)
    requires ReadsBytes(wire, cfg)
    ensures Take(wire, ReaderOnWire(r), OnWire(raw)) == ReaderOnWire(Take(cfg, r, raw))
  {
    TrimOnWire(raw);
    ReadOnWire(TrimAll(raw));
    match ReadLine(TrimAll(raw))
    case Blank =>
      FreshOnWire();
      DeliverOnWire(wire, cfg, r.feed, r.pending);
    case Comment =>
    case Field(name, value) =>
      AbsorbOnWire(r.pending, name, value);
      RetryOnWire(r.retry, name, value);
  }

  lemma {:induction false} TakeAllOnWire(wire: Config, cfg: Config, r: Reader, raws: seq<string>)
    requires ReadsBytes(wire, cfg)
    ensures TakeAll(wire, ReaderOnWire(r), AllOnWire(raws)) == ReaderOnWire(TakeAll(cfg, r, raws))
    decreases |raws|
  {
    if raws != [] {
      TakeOnWire(wire, cfg, r, raws[0]);
      Cons(OnWire(raws[0]), AllOnWire(raws[1..]));
      TakeAllOnWire(wire, cfg, Take(cfg, r, raws[0]), raws[1..]);
    }
  }

  /** Every line, as bytes, fits the scanner. */
  predicate FitsOnWire(text: string) {
    Scannable(ScanLines(OnWire(text))) == ScanLines(OnWire(text))
  }

  lemma {:induction false} ScannableOnWire(lines: seq<string>)
    requires Scannable(AllOnWire(lines)) == AllOnWire(lines)
    ensures Scannable(lines) == lines
  {
    if lines != [] {
      Cons(OnWire(lines[0]), AllOnWire(lines[1..]));
      LongerOnWire(lines[0]);
      assert Scannable(AllOnWire(lines)) == [OnWire(lines[0])] + Scannable(AllOnWire(lines[1..]));
      Cons(OnWire(lines[0]), Scannable(AllOnWire(lines[1..])));
      ScannableOnWire(lines[1..]);
      HeadTail(lines);
    }
  }

  lemma RawsOnWire(text: string, ending: Ending)
    requires FitsOnWire(text)
    ensures Raws(Go, OnWire(text)) == AllOnWire(Raws(Go, text))
    ensures Failed(Go, OnWire(text), ending) == Failed(Go, text, ending)
  {
    CutOnWire(text);
    var rest := if Rest(text) == "" then [] else [Rest(text)];
    LongerOnWire(Rest(text));
    Cons(OnWire(Rest(text)), []);
    AllOnWireConcat(Cut(text), rest);
    Nil([OnWire(Rest(text))]);
    assert ScanLines(OnWire(text)) == AllOnWire(ScanLines(text));
    ScannableOnWire(ScanLines(text));
  }

  lemma ReadBodyOnWire(wire: Config, cfg: Config, r: Reader, text: string, ending: Ending)
    requires ReadsBytes(wire, cfg) && FitsOnWire(text)
    ensures ReadBody(wire, ReaderOnWire(r), OnWire(text), ending) == ReaderOnWire(ReadBody(cfg, r, text, ending))
  {
    var last := TakeAll(cfg, r, Raws(Go, text));
    RawsOnWire(text, ending);
    TakeAllOnWire(wire, cfg, r, Raws(Go, text));
    FreshOnWire();
    DeliverOnWire(wire, cfg, last.feed, last.pending);
  }

  // ----- A run -----

  function StreamOnWire(s: Stream): Stream {
    s.(cursor := TextOnWire(s.cursor))
  }

  function AttemptOnWire(a: Attempt): Attempt {
    if a.net.Body? then a.(net := a.net.(text := OnWire(a.net.text))) else a
  }

  function ScriptOnWire(script: seq<Attempt>): seq<Attempt> {
    if script == [] then [] else [AttemptOnWire(script[0])] + ScriptOnWire(script[1..])
  }

  predicate AllFitOnWire(script: seq<Attempt>) {
    script == [] || ((script[0].net.Body? ==> FitsOnWire(script[0].net.text)) && AllFitOnWire(script[1..]))
  }

  /** A header is the encoded cursor. */
  function ActOnWire(a: Act): Act {
    match a
    case Connect(id) => Connect(TextOnWire(id))
    case _ => a
  }

  function ActsOnWire(acts: seq<Act>): seq<Act> {
    if acts == [] then [] else [ActOnWire(acts[0])] + ActsOnWire(acts[1..])
  }

  lemma {:induction false} ActsOnWireConcat(a: seq<Act>, b: seq<Act>)
    ensures ActsOnWire(a + b) == ActsOnWire(a) + ActsOnWire(b)
    decreases |a|
  {
    if a == [] {
      Nil(ActsOnWire(b));
      Nil(b);
    } else {
      ConcatTail(a, b);
      ActsOnWireConcat(a[1..], b);
      Assoc([ActOnWire(a[0])], ActsOnWire(a[1..]), ActsOnWire(b));
    }
  }

  function RunOnWire(run: Run): Run {
    Run(StreamOnWire(run.stream), ActsOnWire(run.acts), run.used)
  }

  lemma StepOnWire(wire: Config, cfg: Config, policy: Option<Policy>, s: Stream, a: Attempt)
    requires ReadsBytes(wire, cfg) && (a.net.Body? ==> FitsOnWire(a.net.text))
    ensures
      var (t, v) := Step(cfg, policy, s, a);
      Step(wire, policy, StreamOnWire(s), AttemptOnWire(a)) == (StreamOnWire(t), v)
  {
    FreshOnWire();
    assert Open(StreamOnWire(s)) == ReaderOnWire(Open(s));
    if a.net.Body? && !a.before { ReadBodyOnWire(wire, cfg, Open(s), a.net.text, a.net.ending); }
    var r := if a.net.Body? && !a.before then ReadBody(cfg, Open(s), a.net.text, a.net.ending) else Open(s);
    assert Close(StreamOnWire(s), ReaderOnWire(r)) == StreamOnWire(Close(s, r));
    ObserveOnWire(wire, cfg, r, a);
  }

  lemma ObserveOnWire(wire: Config, cfg: Config, r: Reader, a: Attempt)
    requires ReadsBytes(wire, cfg) && (a.net.Body? ==> FitsOnWire(a.net.text))
    ensures Observe(wire, ReaderOnWire(r), AttemptOnWire(a).net) == Observe(cfg, r, a.net)
  {
    if a.net.Body? { RawsOnWire(a.net.text, a.net.ending); }
  }

  lemma DialOnWire(s: Stream, a: Attempt, v: Verdict)
    ensures Dial(StreamOnWire(s), AttemptOnWire(a)) == ActsOnWire(Dial(s, a))
    ensures ActsOnWire([ActOf(v)]) == [ActOf(v)]
  {
    if s.cursor.Some? { LongerOnWire(s.cursor.value); }
    Cons(Connect(Header(s.cursor)), []);
    Cons(ActOf(v), []);
    Nil([ActOf(v)]);
  }

  /** The Go program on the bytes of a script does what the model does on its characters, encoded. */
  lemma {:induction false} PlayOnWire(wire: Config, cfg: Config, policy: Option<Policy>, s: Stream,
                                      script: seq<Attempt>)
    requires ReadsBytes(wire, cfg) && AllFitOnWire(script)
    ensures Play(wire, policy, StreamOnWire(s), ScriptOnWire(script)) == RunOnWire(Play(cfg, policy, s, script))
    decreases |script|
  {
    if script != [] {
      var (t, v) := Step(cfg, policy, s, script[0]);
      var rest := if v.Wait? then Play(cfg, policy, t, script[1..]) else Run(t, [], 0);
      StepOnWire(wire, cfg, policy, s, script[0]);
      DialOnWire(s, script[0], v);
      Cons(AttemptOnWire(script[0]), ScriptOnWire(script[1..]));
      ActsOnWireConcat(Dial(s, script[0]) + [ActOf(v)], rest.acts);
      ActsOnWireConcat(Dial(s, script[0]), [ActOf(v)]);
      if v.Wait? { PlayOnWire(wire, cfg, policy, t, script[1..]); }
    }
  }
}
