/** A whole stream: connections, deliveries and reconnects, driven by a script of what the network does. */
module Session {
  import opened Json
  import opened Seqs
  import opened Lines
  import opened Frames
  import opened Delivery
  import opened Reading
  import opened Controller

  /**
   * What a connection attempt meets: an HTTP refusal, no answer, a success without a body, or a body that
   * ends somehow. `lived` is the time from the connect to the end, in milliseconds.
   */
  datatype Net =
    | Refusal(status: int, retryAfter: Option<nat>)
    | Silence
    | Bodiless(lived: nat)
    | Body(text: string, ending: Ending, lived: nat)

  /** Go takes every success for an open connection; TypeScript asks for a body. */
  predicate Opens(net: Net) {
    net.Body? || net.Bodiless?
  }

  /** `before` and `after`: the caller has aborted when the attempt would start, and when it is over. */
  datatype Attempt = Attempt(before: bool, net: Net, after: bool)

  /** The state that survives a connection. `out` is everything handed to the caller. */
  datatype Stream = Stream(control: Control, cursor: Option<string>, maxSequence: int, out: seq<Value>)

  /** What an observer sees between deliveries. */
  datatype Act = Connect(lastEventId: Option<string>) | Sleep(time: int) | Ended | Broke

  /** The `Last-Event-ID` header: an absent or empty cursor sends none. */
  function Header(cursor: Option<string>): Option<string> {
    if cursor == Some("") then None else cursor
  }

  /** The cursor as a string: Go keeps no other. */
  function CursorText(cursor: Option<string>): string {
    if cursor.Some? then cursor.value else ""
  }

  function Start(lastEventId: Option<string>, sdk: Sdk, policy: Option<Policy>): Stream {
    var retry := if policy.Some? then policy.value.delay else if sdk.Go? then 1_000_000_000 else 0;
    Stream(Control(false, 0, retry), lastEventId, -1, [])
  }

  function Open(s: Stream): Reader {
    Reader(FRESH, s.control.retry, Feed(s.cursor, s.maxSequence, 0, false, s.out))
  }

  /** The stream after a body has been read. */
  function Close(s: Stream, r: Reader): Stream {
    Stream(s.control.(retry := r.retry), r.feed.cursor, r.feed.maxSequence, r.feed.out)
  }

  function Observe(cfg: Config, r: Reader, net: Net): Observation {
    match net
    case Refusal(status, retryAfter) => Observation.Refused(status, retryAfter)
    case Silence => Unreachable
    case Bodiless(lived) => Observation.Bodiless(lived)
    case Body(text, ending, lived) =>
      Served(r.feed.frames, r.feed.terminal, Reading.Failed(cfg.sdk, text, ending), lived)
  }

  /** The state an attempt leaves behind, and its verdict. */
  function Step(cfg: Config, policy: Option<Policy>, s: Stream, a: Attempt): (Stream, Verdict) {
    var r := if a.net.Body? && !a.before then ReadBody(cfg, Open(s), a.net.text, a.net.ending) else Open(s);
    var t := Close(s, r);
    var (c, v) := Respond(cfg.sdk, cfg.runStream, policy, t.control, Observe(cfg, r, a.net), a.before, a.after);
    (t.(control := c), v)
  }

  /** `used` attempts were consumed, the last of them with `verdict` unless the script ran out. */
  datatype Run = Run(stream: Stream, acts: seq<Act>, used: nat)

  function Dial(s: Stream, a: Attempt): seq<Act> {
    if a.before then [] else [Connect(Header(s.cursor))]
  }

  /** What an observer sees of a verdict. */
  function ActOf(v: Verdict): Act {
    match v
    case End => Ended
    case Fail => Broke
    case Wait(time) => Sleep(time)
  }

  function Play(cfg: Config, policy: Option<Policy>, s: Stream, script: seq<Attempt>): Run
    decreases |script|
  {
    if script == [] then Run(s, [], 0)
    else
      var (t, v) := Step(cfg, policy, s, script[0]);
      var rest := if v.Wait? then Play(cfg, policy, t, script[1..]) else Run(t, [], 0);
      Run(rest.stream, Dial(s, script[0]) + [ActOf(v)] + rest.acts, 1 + rest.used)
  }

  /** A run of which `past` has been seen goes on from attempt `i` with stream `s`. */
  ghost predicate Continues(cfg: Config, policy: Option<Policy>, script: seq<Attempt>, run: Run, past: seq<Act>,
                            s: Stream, i: nat)
    requires i <= |script|
  {
    var rest := Play(cfg, policy, s, script[i..]);
    run.stream == rest.stream && run.acts == past + rest.acts
  }

  /** The acts seen lead up to the verdict on attempt `i`; `settled` is the stream it leaves and the verdict. */
  ghost predicate Awaits(cfg: Config, policy: Option<Policy>, script: seq<Attempt>, run: Run, seen: seq<Act>,
                         settled: (Stream, Verdict), i: nat)
    requires i < |script|
  {
    var (t, v) := settled;
    if v.Wait? then Continues(cfg, policy, script, run, seen + [ActOf(v)], t, i + 1)
    else run.stream == t && run.acts == seen + [ActOf(v)]
  }

  /** The verdict is known: the run goes on after a wait, if the script does, and is over otherwise. */
  lemma VerdictReached(cfg: Config, policy: Option<Policy>, script: seq<Attempt>, run: Run, seen: seq<Act>,
                       t: Stream, v: Verdict, i: nat)
    requires i < |script| && Awaits(cfg, policy, script, run, seen, (t, v), i)
    ensures v.Wait? ==> Continues(cfg, policy, script, run, seen + [ActOf(v)], t, i + 1)
    ensures !v.Wait? || i + 1 == |script| ==> run.stream == t && run.acts == seen + [ActOf(v)]
  {
    if v.Wait? && i + 1 == |script| { Nil(seen + [ActOf(v)]); }
  }

  /** One more attempt of a run. */
  lemma PlayOn(cfg: Config, policy: Option<Policy>, script: seq<Attempt>, run: Run, past: seq<Act>, s: Stream, i: nat)
    requires i < |script| && Continues(cfg, policy, script, run, past, s, i)
    ensures Awaits(cfg, policy, script, run, past + Dial(s, script[i]), Step(cfg, policy, s, script[i]), i)
  {
    Next(script, i);
    var (t, v) := Step(cfg, policy, s, script[i]);
    var rest := if v.Wait? then Play(cfg, policy, t, script[i + 1..]) else Run(t, [], 0);
    Assoc(past, Dial(s, script[i]) + [ActOf(v)], rest.acts);
    Assoc(past, Dial(s, script[i]), [ActOf(v)]);
  }

  // ----- Strictly increasing output over all connections -----

  lemma StepKeepsOrder(cfg: Config, policy: Option<Policy>, s: Stream, a: Attempt)
    requires cfg.runStream && Ordered(Open(s).feed)
    ensures Ordered(Open(Step(cfg, policy, s, a).0).feed)
    ensures a.net.Body? && !a.before ==> Ordered(ReadBody(cfg, Open(s), a.net.text, a.net.ending).feed)
  {
    if a.net.Body? && !a.before {
      ReadBodyKeepsOrder(cfg, Open(s), a.net.text, a.net.ending);
    }
  }

  lemma {:induction false} PlayKeepsOrder(cfg: Config, policy: Option<Policy>, s: Stream, script: seq<Attempt>)
    requires cfg.runStream && Ordered(Open(s).feed)
    ensures Ordered(Open(Play(cfg, policy, s, script).stream).feed)
    decreases |script|
  {
    if script != [] {
      StepKeepsOrder(cfg, policy, s, script[0]);
      var (t, v) := Step(cfg, policy, s, script[0]);
      if v.Wait? { PlayKeepsOrder(cfg, policy, t, script[1..]); }
    }
  }

  /**
   * Whatever the network and the host do, over all connections of a run stream, the sequence numbers
   * handed to the caller are strictly increasing.
   */
  lemma OutputStrictlyIncreases(cfg: Config, policy: Option<Policy>, lastEventId: Option<string>, script: seq<Attempt>)
    requires cfg.runStream
    ensures StrictlyIncreasing(Sequences(Play(cfg, policy, Start(lastEventId, cfg.sdk, policy), script).stream.out))
  {
    PlayKeepsOrder(cfg, policy, Start(lastEventId, cfg.sdk, policy), script);
  }

  // ----- How a stream ends -----

  /** The reasons a resuming run stream ends without an error. A bodiless success is an empty connection to Go. */
  predicate EndsQuietly(cfg: Config, s: Stream, a: Attempt) {
    || a.before || a.after
    || (cfg.sdk.Go? && a.net.Bodiless? && a.net.lived < BOUNDED_CLOSE_FLOOR_MS)
    || (&& a.net.Body?
        && var r := ReadBody(cfg, Open(s), a.net.text, a.net.ending);
           (|| r.feed.terminal
            || (&& !Reading.Failed(cfg.sdk, a.net.text, a.net.ending)
                && r.feed.frames == 0 && a.net.lived < BOUNDED_CLOSE_FLOOR_MS)))
  }

  /**
   * With reconnect on, a run stream that ends normally consumed its last attempt after a terminal frame,
   * an abort, or a clean close without a frame within the floor. Every attempt before it was waited out.
   */
  lemma {:induction false} ExitClassified(cfg: Config, p: Policy, s: Stream, script: seq<Attempt>)
    returns (last: Stream)
    requires cfg.runStream
    requires Play(cfg, Some(p), s, script).acts != []
    requires var acts := Play(cfg, Some(p), s, script).acts; acts[|acts| - 1] == Ended
    ensures
      var run := Play(cfg, Some(p), s, script);
      && 0 < run.used <= |script|
      && EndsQuietly(cfg, last, script[run.used - 1])
      && Play(cfg, Some(p), s, script[..run.used - 1]).stream == last
      && run.stream == Step(cfg, Some(p), last, script[run.used - 1]).0
    decreases |script|
  {
    var (t, v) := Step(cfg, Some(p), s, script[0]);
    if v.Wait? {
      var rest := Play(cfg, Some(p), t, script[1..]);
      assert rest.acts != [];
      last := ExitClassified(cfg, p, t, script[1..]);
      assert script[..rest.used][1..] == script[1..][..rest.used - 1];
    } else {
      last := s;
      assert script[..0] == [];
    }
  }

  /** A body whose terminal frame has been flushed is the last thing the client asks for or hands over. */
  lemma {:induction false} TerminalStops(cfg: Config, policy: Option<Policy>, s: Stream, a: Attempt,
                                         later: seq<Attempt>)
    requires a.net.Body? && !a.before
    requires ReadBody(cfg, Open(s), a.net.text, a.net.ending).feed.terminal
    ensures
      var run := Play(cfg, policy, s, [a] + later);
      && run.used == 1 && run.acts == [Connect(Header(s.cursor)), Ended]
      && run.stream.out == ReadBody(cfg, Open(s), a.net.text, a.net.ending).feed.out
  {
    var script := [a] + later;
    assert script[0] == a;
  }

  /** The finished lines of a text come first among the lines of any text it begins. */
  lemma WholePrefix(sdk: Sdk, text: string, more: string)
    ensures Whole(sdk, text) <= Raws(sdk, text + more)
  {
    assert text <= text + more;
    CutPrefix(text, text + more);
    var later := Cut(text + more)[|Cut(text)|..];
    assert Cut(text) + later == Cut(text + more);
    if sdk.Go? {
      var rest := if Rest(text + more) == "" then [] else [Rest(text + more)];
      ScannableConcat(Cut(text), later);
      ScannableConcat(Cut(text + more), rest);
    }
  }

  /** Once the finished lines of a text have ended the run, what follows it in the body changes nothing at all. */
  lemma LinesAfterTerminal(cfg: Config, r: Reader, text: string, more: string, ending: Ending, ending': Ending)
    requires TakeAll(cfg, r, Whole(cfg.sdk, text)).feed.terminal
    ensures ReadBody(cfg, r, text + more, ending') == ReadBody(cfg, r, text, ending)
  {
    LinesIgnored(cfg, r, text, "", ending);
    LinesIgnored(cfg, r, text, more, ending');
    Nil(text);
  }

  lemma LinesIgnored(cfg: Config, r: Reader, text: string, more: string, ending: Ending)
    requires TakeAll(cfg, r, Whole(cfg.sdk, text)).feed.terminal
    ensures ReadBody(cfg, r, text + more, ending) == TakeAll(cfg, r, Whole(cfg.sdk, text))
  {
    var a, b := Whole(cfg.sdk, text), Raws(cfg.sdk, text + more);
    WholePrefix(cfg.sdk, text, more);
    TakeAllConcat(cfg, r, a, b[|a|..]);
    assert a + b[|a|..] == b;
    TakeAllStops(cfg, TakeAll(cfg, r, a), b[|a|..]);
  }
}
