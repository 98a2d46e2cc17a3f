/**
 * The two SDKs side by side: on the streams both read alike, a whole run is the same for the caller and the
 * host. First both read characters; then Go reads the UTF-8 bytes of what TypeScript reads decoded.
 */
module Parity {
  import opened Json
  import opened Seqs
  import opened Lines
  import opened Frames
  import opened Delivery
  import opened Reading
  import opened Controller
  import opened ControllerProofs
  import opened Session
  import opened Standard
  import opened WireBytes

  function AsTypeScript(cfg: Config): Config {
    cfg.(sdk := TypeScript)
  }

  function AsGo(cfg: Config): Config {
    cfg.(sdk := Go)
  }

  // ----- Delivery -----

  /** A document both hand over, and on which the two terminal tests agree. */
  predicate OrdinaryDoc(cfg: Config, event: string, doc: Value) {
    cfg.decode(doc) && IsRunTerminalFrame(event, doc) == IsTerminalFrame(event, doc)
  }

  /** A frame that both read as the same documents; a batch is neither empty nor null. */
  predicate OrdinaryFrame(cfg: Config, frame: Frame) {
    match Parsed(cfg, frame)
    case None => true
    case Some(v) =>
      && (frame.event == "batch" ==> v != Null && v != Array([]))
      && OrdinaryDocs(cfg, frame.event, Unbatch(TypeScript, frame.event, v))
  }

  predicate OrdinaryDocs(cfg: Config, event: string, docs: seq<Value>) {
    docs == [] || (OrdinaryDoc(cfg, event, docs[0]) && OrdinaryDocs(cfg, event, docs[1..]))
  }

  predicate OrdinaryFrames(cfg: Config, frames: seq<Frame>) {
    frames == [] || (OrdinaryFrame(cfg, frames[0]) && OrdinaryFrames(cfg, frames[1..]))
  }

  /**
   * Feeds that differ at most in how they write a cursor that sends no header, and in how they count
   * frames, though not in whether there were any.
   */
  predicate SameFeed(ts: Feed, go: Feed) {
    && go == ts.(cursor := go.cursor, frames := go.frames)
    && Header(ts.cursor) == Header(go.cursor)
    && (ts.frames == 0 <==> go.frames == 0)
  }

  lemma {:induction false} SendParity(cfg: Config, ts: Feed, go: Feed, event: string, docs: seq<Value>)
    requires SameFeed(ts, go) && OrdinaryDocs(cfg, event, docs)
    ensures SameFeed(SendAll(AsTypeScript(cfg), ts, event, docs), SendAll(AsGo(cfg), go, event, docs))
    decreases |docs|
  {
    if docs != [] {
      SendParity(cfg, Send(AsTypeScript(cfg), ts, event, docs[0]), Send(AsGo(cfg), go, event, docs[0]), event,
                 docs[1..]);
    }
  }

  lemma DeliverParity(cfg: Config, ts: Feed, go: Feed, frame: Frame)
    requires SameFeed(ts, go) && OrdinaryFrame(cfg, frame)
    ensures SameFeed(Deliver(AsTypeScript(cfg), ts, frame), Deliver(AsGo(cfg), go, frame))
  {
    var docs := Documents(AsTypeScript(cfg), frame);
    assert Parsed(AsTypeScript(cfg), frame) == Parsed(AsGo(cfg), frame) == Parsed(cfg, frame);
    assert Documents(AsGo(cfg), frame) == docs;
    assert Parsed(cfg, frame).Some? ==> docs != [];
    var t, g := Commit(AsTypeScript(cfg), ts, frame), Commit(AsGo(cfg), go, frame);
    assert SameFeed(t, g);
    SendParity(cfg, t, g, frame.event, docs);
  }

  // ----- Reading -----

  ghost predicate SameReader(ts: Reader, go: Reader) {
    && SameFeed(ts.feed, go.feed) && ts.pending == go.pending
    && go.retry == Units(Go, ts.retry)
  }

  /** Lines that both trim alike and whose `retry:` values both read alike. */
  predicate PlainLines(raws: seq<string>) {
    raws == [] || (TrimOne(raws[0]) == TrimAll(raws[0]) && Fits(raws[0]) && PlainLines(raws[1..]))
  }

  lemma {:induction false} TakeParity(cfg: Config, ts: Reader, go: Reader, raws: seq<string>)
    requires SameReader(ts, go) && PlainLines(raws) && RetriesAgree(Go, raws)
    requires OrdinaryFrames(cfg, Assemble(Go, go.pending, go.retry, raws).frames)
    ensures SameReader(TakeAll(AsTypeScript(cfg), ts, raws), TakeAll(AsGo(cfg), go, raws))
    decreases |raws|
  {
    if ts.feed.terminal {
      TakeAllStops(AsTypeScript(cfg), ts, raws);
      TakeAllStops(AsGo(cfg), go, raws);
    } else if raws != [] {
      TakeOneParity(cfg, ts, go, raws[0]);
      var line := TrimAll(raws[0]);
      if ReadLine(line).Blank? {
        var later := Assemble(Go, FRESH, go.retry, raws[1..]);
        Cons(go.pending, later.frames);
        DeliverParity(cfg, ts.feed, go.feed, go.pending);
      }
      TakeParity(cfg, Take(AsTypeScript(cfg), ts, raws[0]), Take(AsGo(cfg), go, raws[0]), raws[1..]);
    }
  }

  lemma TakeOneParity(cfg: Config, ts: Reader, go: Reader, raw: string)
    requires SameReader(ts, go) && TrimOne(raw) == TrimAll(raw)
    requires var line := ReadLine(TrimAll(raw)); line.Field? && line.name == "retry" ==> RetryAgrees(Go, line.value)
    requires ReadLine(TrimAll(raw)).Blank? ==> ts.feed.terminal || OrdinaryFrame(cfg, go.pending)
    ensures SameReader(Take(AsTypeScript(cfg), ts, raw), Take(AsGo(cfg), go, raw))
  {
    match ReadLine(TrimAll(raw))
    case Blank => if !ts.feed.terminal { DeliverParity(cfg, ts.feed, go.feed, go.pending); }
    case Comment =>
    case Field(name, value) => RetryAgreesExactly(TypeScript, value);
  }

  /** Bodies that both read alike: whole plain lines, no mark, ordinary frames, no half frame if the read fails. */
  predicate PlainBody(cfg: Config, text: string, ending: Ending) {
    var a := Assemble(Go, FRESH, 0, Cut(text));
    && Unmarked(Go, OnWire(text)) && Rest(text) == "" && PlainLines(Cut(text)) && RetriesAgree(Go, Cut(text))
    && OrdinaryFrames(cfg, a.frames) && OrdinaryFrame(cfg, a.pending)
    && (ending.Dropped? ==> a.pending.id == None && a.pending.data == [])
  }

  lemma {:induction false} PlainLinesFit(raws: seq<string>)
    requires PlainLines(raws)
    ensures Scannable(raws) == raws
  {
    if raws != [] {
      PlainLinesFit(raws[1..]);
      HeadTail(raws);
    }
  }

  lemma BodyParity(cfg: Config, ts: Reader, go: Reader, text: string, ending: Ending)
    requires SameReader(ts, go) && ts.pending == FRESH && PlainBody(cfg, text, ending)
    ensures Failed(TypeScript, text, ending) == Failed(Go, text, ending)
    ensures
      var t, g := ReadBody(AsTypeScript(cfg), ts, text, ending), ReadBody(AsGo(cfg), go, text, ending);
      SameFeed(t.feed, g.feed) && g.retry == Units(Go, t.retry)
  {
    var raws := Cut(text);
    Nil(raws);
    assert ScanLines(text) == raws;
    PlainLinesFit(raws);
    RetryIrrelevant(Go, FRESH, go.retry, 0, raws);
    TakeParity(cfg, ts, go, raws);
    var t, g := TakeAll(AsTypeScript(cfg), ts, raws), TakeAll(AsGo(cfg), go, raws);
    TakeAllFactors(AsGo(cfg), go, raws);
    if !g.feed.terminal {
      if ending.Dropped? {
        DeliverIdle(AsGo(cfg), g.feed, g.pending);
      } else {
        DeliverParity(cfg, t.feed, g.feed, g.pending);
      }
    }
  }

  // ----- Whole runs -----

  predicate SameStream(ts: Stream, go: Stream) {
    && Header(ts.cursor) == Header(go.cursor) && ts.maxSequence == go.maxSequence && ts.out == go.out
    && SameControl(ts.control, go.control)
  }

  /** What the TypeScript controller learns of an attempt. */
  function Heading(cfg: Config, ts: Stream, a: Attempt): Event {
    var r :=
      if a.net.Body? && !a.before then ReadBody(AsTypeScript(cfg), Open(ts), a.net.text, a.net.ending) else Open(ts);
    Event(Observe(AsTypeScript(cfg), r, a.net), None, a.before, a.after)
  }

  /** An attempt on which nothing sets the SDKs apart. */
  predicate Alike(cfg: Config, policy: Option<Policy>, ts: Stream, a: Attempt) {
    var e := Heading(cfg, ts, a);
    && Representable(e) && !Divergent(cfg.runStream, policy, ts.control, e)
    && (a.net.Bodiless? ==> a.before)
    && (a.net.Body? && !a.before ==> PlainBody(cfg, a.net.text, a.net.ending))
  }

  /** Every attempt of a run is such, as long as the run lasts. */
  predicate AllAlike(cfg: Config, policy: Option<Policy>, ts: Stream, script: seq<Attempt>)
    decreases |script|
  {
    script == [] ||
    (&& Alike(cfg, policy, ts, script[0])
     && var (t, v) := Step(AsTypeScript(cfg), policy, ts, script[0]);
        (v.Wait? ==> AllAlike(cfg, policy, t, script[1..])))
  }

  /** The controller asks only whether there were frames, not how many. */
  lemma CountIrrelevant(sdk: Sdk, runStream: bool, policy: Option<Policy>, c: Control, n: nat, m: nat,
                        terminal: bool, failed: bool, lived: nat, before: bool, after: bool)
    requires n == 0 <==> m == 0
    ensures Respond(sdk, runStream, policy, c, Served(n, terminal, failed, lived), before, after) ==
            Respond(sdk, runStream, policy, c, Served(m, terminal, failed, lived), before, after)
  {
  }

  lemma RespondParity(runStream: bool, policy: Option<Policy>, ts: Control, go: Control, e: Event, g: Observation)
    requires SameControl(ts, go) && Representable(e) && !Divergent(runStream, policy, ts, e)
    requires e.hostRetry == None && (e.observation.Bodiless? ==> e.before) && CapFits(policy)
    requires
      var t := e.observation;
      if t.Served? && g.Served? then t == g.(frames := t.frames) && (t.frames == 0 <==> g.frames == 0) else t == g
    ensures
      var (ts', v) := Respond(TypeScript, runStream, policy, ts, e.observation, e.before, e.after);
      var (go', w) := Respond(Go, runStream, GoPolicy(policy), go, g, e.before, e.after);
      SameVerdict(v, w) && SameControl(ts', go')
  {
    var t := e.observation;
    RespondsAgree(runStream, policy, ts, go, e);
    if t.Served? && g.Served? {
      CountIrrelevant(Go, runStream, GoPolicy(policy), go, t.frames, g.frames, t.terminal, t.failed, t.lived,
                      e.before, e.after);
    }
  }

  lemma StepParity(cfg: Config, policy: Option<Policy>, ts: Stream, go: Stream, a: Attempt)
    requires SameStream(ts, go) && Alike(cfg, policy, ts, a) && CapFits(policy)
    ensures
      var (ts', v) := Step(AsTypeScript(cfg), policy, ts, a);
      var (go', w) := Step(AsGo(cfg), GoPolicy(policy), go, a);
      SameStream(ts', go') && SameVerdict(v, w)
  {
    var t, g := Open(ts), Open(go);
    if a.net.Body? && !a.before {
      BodyParity(cfg, t, g, a.net.text, a.net.ending);
      t := ReadBody(AsTypeScript(cfg), t, a.net.text, a.net.ending);
      g := ReadBody(AsGo(cfg), g, a.net.text, a.net.ending);
    }
    if !a.before {
      RespondParity(cfg.runStream, policy, Close(ts, t).control, Close(go, g).control,
                    Heading(cfg, ts, a), Observe(AsGo(cfg), g, a.net));
    }
  }

  predicate SameAct(ts: Act, go: Act) {
    match ts
    case Sleep(time) => go == Sleep(time * 1_000_000)
    case _ => go == ts
  }

  ghost predicate SameActs(ts: seq<Act>, go: seq<Act>) {
    |ts| == |go| && forall i | 0 <= i < |ts| :: SameAct(ts[i], go[i])
  }

  lemma SameActsJoin(d: seq<Act>, v: Verdict, w: Verdict, a: seq<Act>, b: seq<Act>)
    requires SameVerdict(v, w) && SameActs(a, b) && (forall x <- d :: x.Connect?)
    ensures SameActs(d + [ActOf(v)] + a, d + [ActOf(w)] + b)
  {
    var l, r := d + [ActOf(v)] + a, d + [ActOf(w)] + b;
    forall i | 0 <= i < |l| ensures SameAct(l[i], r[i]) {
      if i < |d| {
        assert l[i] == d[i] == r[i] && d[i] in d;
      } else if i > |d| {
        assert l[i] == a[i - |d| - 1] && r[i] == b[i - |d| - 1];
      }
    }
  }

  /**
   * Whole runs, with reconnect on or off: both SDKs make the same connects with the same `Last-Event-ID`,
   * wait the same times, end alike, and hand over the same documents.
   */
  lemma {:induction false} RunParity(cfg: Config, policy: Option<Policy>, ts: Stream, go: Stream, script: seq<Attempt>)
    requires SameStream(ts, go) && CapFits(policy) && AllAlike(cfg, policy, ts, script)
    ensures
      var a := Play(AsTypeScript(cfg), policy, ts, script);
      var b := Play(AsGo(cfg), GoPolicy(policy), go, script);
      SameStream(a.stream, b.stream) && SameActs(a.acts, b.acts) && a.used == b.used
    decreases |script|
  {
    if script != [] {
      StepParity(cfg, policy, ts, go, script[0]);
      var (ts', v) := Step(AsTypeScript(cfg), policy, ts, script[0]);
      var (go', w) := Step(AsGo(cfg), GoPolicy(policy), go, script[0]);
      var dial := Dial(ts, script[0]);
      assert dial == Dial(go, script[0]);
      if v.Wait? {
        RunParity(cfg, policy, ts', go', script[1..]);
        SameActsJoin(dial, v, w, Play(AsTypeScript(cfg), policy, ts', script[1..]).acts,
                     Play(AsGo(cfg), GoPolicy(policy), go', script[1..]).acts);
      } else {
        SameActsJoin(dial, v, w, [], []);
      }
    }
  }

  /** What the caller and the host see of two runs is the same. */
  ghost predicate SameRun(ts: Run, go: Run) {
    && ts.stream.out == go.stream.out && Header(ts.stream.cursor) == Header(go.stream.cursor)
    && SameActs(ts.acts, go.acts) && ts.used == go.used
  }

  /**
   * From the caller's options, with or without a cursor: the streams that the two constructors set up from
   * the same positive settings make the same run. Go's absent cursor is the empty string.
   */
  lemma SdkParity(cfg: Config, o: Options, lastEventId: Option<string>, script: seq<Attempt>)
    requires WholeOptions(o) && CapFits(Some(Resolve(TypeScript, o)))
    requires
      var p := Some(Resolve(TypeScript, o));
      AllAlike(cfg, p, Start(lastEventId, TypeScript, p), script)
    ensures
      var p, q := Some(Resolve(TypeScript, o)), Some(Resolve(Go, o));
      SameRun(Play(AsTypeScript(cfg), p, Start(lastEventId, TypeScript, p), script),
              Play(AsGo(cfg), q, Start(Some(CursorText(lastEventId)), Go, q), script))
  {
    var p, q := Some(Resolve(TypeScript, o)), Some(Resolve(Go, o));
    PositiveSettingsAgree(o);
    RunParity(cfg, p, Start(lastEventId, TypeScript, p), Start(Some(CursorText(lastEventId)), Go, q), script);
  }

  /** With reconnect off a run is one attempt, on which the retry delay has no say. */
  lemma OneAttempt(cfg: Config, s: Stream, script: seq<Attempt>, retry: int)
    ensures
      var a, b := Play(cfg, None, s, script), Play(cfg, None, WithRetry(s, retry), script);
      a.acts == b.acts && a.used == b.used && a.stream.out == b.stream.out && a.stream.cursor == b.stream.cursor
  {
    if script != [] { StepIgnoresRetry(cfg, s, script[0], retry); }
  }

  function WithRetry(s: Stream, retry: int): Stream {
    s.(control := s.control.(retry := retry))
  }

  lemma StepIgnoresRetry(cfg: Config, s: Stream, a: Attempt, retry: int)
    ensures
      var (t, v) := Step(cfg, None, s, a);
      var (t', v') := Step(cfg, None, WithRetry(s, retry), a);
      !v.Wait? && v == v' && t.out == t'.out && t.cursor == t'.cursor
  {
    if a.net.Body? && !a.before { ReadBodyIgnoresRetry(cfg, Open(s), a.net.text, a.net.ending, retry); }
  }

  /** The same with reconnect disabled, where the two constructors do not even start from the same retry delay. */
  lemma DisabledParity(cfg: Config, lastEventId: Option<string>, script: seq<Attempt>)
    requires AllAlike(cfg, None, Start(lastEventId, TypeScript, None), script)
    ensures SameRun(Play(AsTypeScript(cfg), None, Start(lastEventId, TypeScript, None), script),
                    Play(AsGo(cfg), None, Start(Some(CursorText(lastEventId)), Go, None), script))
  {
    var ts, go := Start(lastEventId, TypeScript, None), Start(Some(CursorText(lastEventId)), Go, None);
    OneAttempt(AsGo(cfg), go, script, 0);
    RunParity(cfg, None, ts, WithRetry(go, 0), script);
  }

  // ----- Characters and bytes -----

  /** The same act, Go's header being the encoded one. */
  predicate SameActOnWire(ts: Act, go: Act) {
    match ts
    case Connect(id) => go == Connect(TextOnWire(id))
    case _ => SameAct(ts, go)
  }

  ghost predicate SameRunOnWire(ts: Run, go: Run) {
    && ts.stream.out == go.stream.out && TextOnWire(Header(ts.stream.cursor)) == Header(go.stream.cursor)
    && ts.used == go.used
    && |ts.acts| == |go.acts| && forall i | 0 <= i < |ts.acts| :: SameActOnWire(ts.acts[i], go.acts[i])
  }

  lemma {:induction false} ActsOnWireAt(acts: seq<Act>)
    ensures |ActsOnWire(acts)| == |acts| && forall i | 0 <= i < |acts| :: ActsOnWire(acts)[i] == ActOnWire(acts[i])
  {
    if acts != [] { ActsOnWireAt(acts[1..]); }
  }

  lemma ParityOnBytes(wire: Config, cfg: Config, policy: Option<Policy>, ts: Run, go: Stream, script: seq<Attempt>)
    requires ReadsBytes(wire, AsGo(cfg)) && AllFitOnWire(script)
    requires SameRun(ts, Play(AsGo(cfg), policy, go, script))
    ensures SameRunOnWire(ts, Play(wire, policy, StreamOnWire(go), ScriptOnWire(script)))
  {
    var b, w := Play(AsGo(cfg), policy, go, script), Play(wire, policy, StreamOnWire(go), ScriptOnWire(script));
    PlayOnWire(wire, AsGo(cfg), policy, go, script);
    ActsOnWireAt(b.acts);
    if b.stream.cursor.Some? { LongerOnWire(b.stream.cursor.value); }
    forall i | 0 <= i < |ts.acts| ensures SameActOnWire(ts.acts[i], w.acts[i]) {
      assert SameAct(ts.acts[i], b.acts[i]);
    }
  }

  /**
   * The programs themselves, on streams of any characters: TypeScript on the decoded text and Go on its
   * UTF-8 bytes hand over the same documents, wait the same and end alike; the headers they send are the
   * same id, encoded.
   */
  lemma SdkParityOnBytes(wire: Config, cfg: Config, o: Options, lastEventId: Option<string>, script: seq<Attempt>)
    requires ReadsBytes(wire, AsGo(cfg)) && AllFitOnWire(script)
    requires WholeOptions(o) && CapFits(Some(Resolve(TypeScript, o)))
    requires
      var p := Some(Resolve(TypeScript, o));
      AllAlike(cfg, p, Start(lastEventId, TypeScript, p), script)
    ensures
      var p, q := Some(Resolve(TypeScript, o)), Some(Resolve(Go, o));
      SameRunOnWire(Play(AsTypeScript(cfg), p, Start(lastEventId, TypeScript, p), script),
                    Play(wire, q, Start(Some(OnWire(CursorText(lastEventId))), Go, q), ScriptOnWire(script)))
  {
    var p, q := Some(Resolve(TypeScript, o)), Some(Resolve(Go, o));
    SdkParity(cfg, o, lastEventId, script);
    ParityOnBytes(wire, cfg, q, Play(AsTypeScript(cfg), p, Start(lastEventId, TypeScript, p), script),
                  Start(Some(CursorText(lastEventId)), Go, q), script);
  }

  lemma DisabledParityOnBytes(wire: Config, cfg: Config, lastEventId: Option<string>, script: seq<Attempt>)
    requires ReadsBytes(wire, AsGo(cfg)) && AllFitOnWire(script)
    requires AllAlike(cfg, None, Start(lastEventId, TypeScript, None), script)
    ensures SameRunOnWire(Play(AsTypeScript(cfg), None, Start(lastEventId, TypeScript, None), script),
                          Play(wire, None, Start(Some(OnWire(CursorText(lastEventId))), Go, None),
                               ScriptOnWire(script)))
  {
    DisabledParity(cfg, lastEventId, script);
    ParityOnBytes(wire, cfg, None, Play(AsTypeScript(cfg), None, Start(lastEventId, TypeScript, None), script),
                  Start(Some(CursorText(lastEventId)), Go, None), script);
  }
}
