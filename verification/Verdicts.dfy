/** What the reconnect decision comes to, told by what an attempt met: the waits of a streak, the ends, the errors. */
module Verdicts {
  import opened Json
  import opened Seqs
  import opened Frames
  import opened Delivery
  import opened Reading
  import opened Controller
  import opened ControllerProofs
  import opened Session
  import opened Standard
  import opened Conformance

  // ----- The waits of a streak of failures -----

  /** The first failure waits `first`, each further one twice as long, until the cap is reached. */
  function WaitAfter(first: int, maxDelay: int, earlier: nat): int {
    if earlier == 0 then (if first < maxDelay then first else maxDelay)
    else
      var wait := WaitAfter(first, maxDelay, earlier - 1);
      if wait >= maxDelay || 2 * wait >= maxDelay then maxDelay else 2 * wait
  }

  /** A streak starts from the retry delay, or from one millisecond when there is none. */
  function StreakStart(sdk: Sdk, retry: int): int {
    match sdk
    case TypeScript => if retry < 1 then 1 else retry
    case Go => if retry <= 0 then 1_000_000 else retry
  }

  /** A host's `Retry-After`, in milliseconds, is waited out when it is the longer. */
  function AtLeast(sdk: Sdk, wait: int, retryAfter: Option<nat>): int {
    match retryAfter
    case None => wait
    case Some(ms) =>
      var asked := if sdk.Go? then ms * 1_000_000 else ms;
      if asked > wait then asked else wait
  }

  lemma DoublePower(first: int, n: nat)
    requires first > 0
    ensures first * Pow2(0) == first && first * Pow2(n) > 0 && first * Pow2(n + 1) == 2 * (first * Pow2(n))
  {
    TimesPow2(first, n);
    var p := Pow2(n);
    assert Pow2(n + 1) == 2 * p;
    assert first * (2 * p) == 2 * (first * p);
  }

  lemma {:induction false} WaitIsCappedPower(first: int, maxDelay: int, earlier: nat)
    requires first > 0
    ensures WaitAfter(first, maxDelay, earlier) == Min(maxDelay, first * Pow2(earlier))
  {
    if earlier == 0 {
      DoublePower(first, 0);
    } else {
      DoublePower(first, earlier - 1);
      WaitIsCappedPower(first, maxDelay, earlier - 1);
    }
  }

  lemma BackoffWaits(sdk: Sdk, retry: int, failures: nat, maxDelay: int)
    requires failures > 0 && (sdk.Go? ==> Doublable(StreakStart(Go, retry), maxDelay))
    ensures Backoff(sdk, retry, failures, maxDelay) == WaitAfter(StreakStart(sdk, retry), maxDelay, failures - 1)
  {
    WaitIsCappedPower(StreakStart(sdk, retry), maxDelay, failures - 1);
    if sdk.Go? { DoubledClosedForm(StreakStart(Go, retry), failures - 1, maxDelay); }
  }

  function RetryAfterOf(o: Observation): Option<nat> {
    if o.Refused? then o.retryAfter else None
  }

  /** A failure of a streak: what it waits, and when it is one too many. */
  lemma StreakStep(sdk: Sdk, runStream: bool, p: Policy, c: Control, e: Event)
    requires FramelessFailure(sdk, runStream, e) && (c.established || e.observation.Served?) && e.hostRetry.None?
    requires RetryAfterOf(e.observation).Some? ==> FitsNanoseconds(RetryAfterOf(e.observation).value)
    requires sdk.Go? ==> Doublable(StreakStart(Go, c.retry), p.maxDelay)
    ensures
      var (d, v) := RespondTo(sdk, runStream, Some(p), c, e);
      && d == Controller.Control.Control(true, c.failures + 1, c.retry)
      && v ==
         if c.failures >= p.maxAttempts then Fail
         else
           var wait := WaitAfter(StreakStart(sdk, c.retry), p.maxDelay, c.failures);
           Wait(AtLeast(sdk, wait, RetryAfterOf(e.observation)))
  {
    BackoffWaits(sdk, c.retry, c.failures + 1, p.maxDelay);
  }

  /** The verdict on failure `i` of a streak that goes on. */
  function StreakVerdict(sdk: Sdk, p: Policy, c: Control, e: Event, i: nat): Verdict {
    Wait(AtLeast(sdk, WaitAfter(StreakStart(sdk, c.retry), p.maxDelay, c.failures + i), RetryAfterOf(e.observation)))
  }

  /** Every failure that the allowance lasts for has that verdict. */
  ghost predicate WaitsOut(sdk: Sdk, p: Policy, c: Control, events: seq<Event>, verdicts: seq<Verdict>) {
    forall i | 0 <= i < |events| && c.failures + i < p.maxAttempts ::
      i < |verdicts| && verdicts[i] == StreakVerdict(sdk, p, c, events[i], i)
  }

  lemma LaterVerdict(sdk: Sdk, p: Policy, c: Control, events: seq<Event>, later: seq<Verdict>, j: nat)
    requires j + 1 < |events| && c.failures + 1 + j < p.maxAttempts
    requires WaitsOut(sdk, p, c.(established := true, failures := c.failures + 1), events[1..], later)
    ensures j < |later| && later[j] == StreakVerdict(sdk, p, c, events[j + 1], j + 1)
  {
    var d := c.(established := true, failures := c.failures + 1);
    assert events[1..][j] == events[j + 1];
    assert later[j] == StreakVerdict(sdk, p, d, events[1..][j], j);
    assert d.failures + j == c.failures + (j + 1);
  }

  lemma WaitsOutCons(sdk: Sdk, p: Policy, c: Control, events: seq<Event>, v: Verdict, later: seq<Verdict>)
    requires events != [] && v == StreakVerdict(sdk, p, c, events[0], 0)
    requires WaitsOut(sdk, p, c.(established := true, failures := c.failures + 1), events[1..], later)
    ensures WaitsOut(sdk, p, c, events, [v] + later)
  {
    forall i | 0 < i < |events| && c.failures + i < p.maxAttempts
      ensures i < |[v] + later| && ([v] + later)[i] == StreakVerdict(sdk, p, c, events[i], i)
    {
      LaterVerdict(sdk, p, c, events, later, i - 1);
    }
  }

  /**
   * The verdicts on a streak of failures without a frame: from no failures behind it, the waits start at
   * the retry delay and double up to the cap, each no shorter than the host asks for.
   */
  lemma {:induction false} StreakWaits(sdk: Sdk, runStream: bool, p: Policy, c: Control, events: seq<Event>)
    requires c.established
    requires forall e <- events :: FramelessFailure(sdk, runStream, e) && e.hostRetry.None?
    requires
      forall e <- events ::
        RetryAfterOf(e.observation).Some? ==> FitsNanoseconds(RetryAfterOf(e.observation).value)
    requires sdk.Go? ==> Doublable(StreakStart(Go, c.retry), p.maxDelay)
    ensures WaitsOut(sdk, p, c, events, Verdicts(sdk, runStream, Some(p), c, events))
    decreases |events|
  {
    if events != [] {
      assert events[0] in events;
      StreakStep(sdk, runStream, p, c, events[0]);
      var (d, v) := RespondTo(sdk, runStream, Some(p), c, events[0]);
      if v.Wait? {
        StreakWaits(sdk, runStream, p, d, events[1..]);
        WaitsOutCons(sdk, p, c, events, v, Verdicts(sdk, runStream, Some(p), d, events[1..]));
      }
    }
  }

  // ----- The same of a whole run -----

  function Sleeps(acts: seq<Act>): seq<int> {
    if acts == [] then [] else (if acts[0].Sleep? then [acts[0].time] else []) + Sleeps(acts[1..])
  }

  /** An attempt of a streak: a retryable refusal, no answer, or a frameless body that breaks off or ends at once. */
  predicate Fruitless(cfg: Config, s: Stream, a: Attempt) {
    && !a.before && !a.after
    && match a.net
       case Refusal(status, retryAfter) =>
         && s.control.established && (retryAfter.Some? ==> FitsNanoseconds(retryAfter.value))
         && (status in {429, 502, 503, 504} || (cfg.sdk.TypeScript? && status == 0))
       case Silence => s.control.established
       case Bodiless(lived) => s.control.established && cfg.sdk.Go? && !cfg.runStream && lived < 1_000
       case Body(text, ending, lived) =>
         var r := ReadBody(cfg, Open(s), text, ending);
         && r.feed.frames == 0 && !r.feed.terminal && r.retry == s.control.retry
         && (ending == Dropped || (!cfg.runStream && lived < 1_000))
  }

  predicate AllFruitless(cfg: Config, policy: Option<Policy>, s: Stream, script: seq<Attempt>)
    decreases |script|
  {
    script == [] ||
    (&& Fruitless(cfg, s, script[0])
     && var (t, v) := Step(cfg, policy, s, script[0]);
        (v.Wait? ==> AllFruitless(cfg, policy, t, script[1..])))
  }

  /** The `Retry-After` of an attempt. */
  function Asked(a: Attempt): Option<nat> {
    if a.net.Refusal? then a.net.retryAfter else None
  }

  lemma FruitlessStep(cfg: Config, p: Policy, s: Stream, a: Attempt)
    requires Fruitless(cfg, s, a)
    requires cfg.sdk.Go? ==> Doublable(StreakStart(Go, s.control.retry), p.maxDelay)
    ensures
      var (t, v) := Step(cfg, Some(p), s, a);
      var c := s.control;
      && t.control == Controller.Control.Control(true, c.failures + 1, c.retry)
      && v ==
         if c.failures >= p.maxAttempts then Fail
         else Wait(AtLeast(cfg.sdk, WaitAfter(StreakStart(cfg.sdk, c.retry), p.maxDelay, c.failures), Asked(a)))
  {
    var r := if a.net.Body? then ReadBody(cfg, Open(s), a.net.text, a.net.ending) else Open(s);
    var o := Observe(cfg, r, a.net);
    var e := Event(o, None, false, false);
    assert Close(s, r).control == s.control;
    assert FramelessFailure(cfg.sdk, cfg.runStream, e);
    StreakStep(cfg.sdk, cfg.runStream, p, s.control, e);
  }

  /** The wait that attempt `i` of a streak is followed by, `failures` of which lie before the script. */
  function WaitOf(sdk: Sdk, p: Policy, c: Control, a: Attempt, i: nat): int {
    AtLeast(sdk, WaitAfter(StreakStart(sdk, c.retry), p.maxDelay, c.failures + i), Asked(a))
  }

  lemma {:induction false} SleepsConcat(a: seq<Act>, b: seq<Act>)
    ensures Sleeps(a + b) == Sleeps(a) + Sleeps(b)
    decreases |a|
  {
    if a == [] {
      Nil(b);
      Nil(Sleeps(b));
    } else {
      ConcatTail(a, b);
      SleepsConcat(a[1..], b);
      Assoc(if a[0].Sleep? then [a[0].time] else [], Sleeps(a[1..]), Sleeps(b));
    }
  }

  /** What one attempt adds to the sleeps of a run. */
  lemma SleepsOfStep(s: Stream, a: Attempt, v: Verdict, later: seq<Act>)
    ensures Sleeps(Dial(s, a) + [ActOf(v)] + later) == (if v.Wait? then [v.time] else []) + Sleeps(later)
  {
    SleepsConcat(Dial(s, a) + [ActOf(v)], later);
    SleepsConcat(Dial(s, a), [ActOf(v)]);
    Cons(ActOf(v), []);
    if !a.before { Cons(Connect(Header(s.cursor)), []); }
    assert Sleeps(Dial(s, a)) == [];
    Nil(Sleeps([ActOf(v)]));
  }

  /** The sleeps of a streak, attempt by attempt. */
  ghost predicate SleepsAs(sdk: Sdk, p: Policy, c: Control, script: seq<Attempt>, sleeps: seq<int>) {
    && |sleeps| <= |script|
    && forall i | 0 <= i < |sleeps| :: sleeps[i] == WaitOf(sdk, p, c, script[i], i)
  }

  lemma SleepsAsCons(sdk: Sdk, p: Policy, c: Control, script: seq<Attempt>, first: int, sleeps: seq<int>)
    requires script != [] && first == WaitOf(sdk, p, c, script[0], 0)
    requires SleepsAs(sdk, p, c.(established := true, failures := c.failures + 1), script[1..], sleeps)
    ensures SleepsAs(sdk, p, c, script, [first] + sleeps)
  {
    var d := c.(established := true, failures := c.failures + 1);
    forall i | 0 < i < |[first] + sleeps| ensures ([first] + sleeps)[i] == WaitOf(sdk, p, c, script[i], i) {
      var j := i - 1;
      assert script[i] == script[1..][j] && d.failures + j == c.failures + i;
      assert sleeps[j] == WaitOf(sdk, p, d, script[1..][j], j);
    }
  }

  /** A run that waits its failures out as `WaitOf` says, and breaks when its allowance is used up. */
  ghost predicate RunsOut(sdk: Sdk, p: Policy, c: Control, script: seq<Attempt>, run: Run) {
    var left := p.maxAttempts - c.failures;
    && SleepsAs(sdk, p, c, script, Sleeps(run.acts))
    && |Sleeps(run.acts)| == (if |script| <= left then |script| else left)
    && (|script| > left ==> run.used == left + 1 && run.acts != [] && run.acts[|run.acts| - 1] == Broke)
  }

  lemma RunsOutCons(sdk: Sdk, p: Policy, s: Stream, script: seq<Attempt>, rest: Run, run: Run, time: int)
    requires script != [] && s.control.failures < p.maxAttempts && time == WaitOf(sdk, p, s.control, script[0], 0)
    requires RunsOut(sdk, p, s.control.(established := true, failures := s.control.failures + 1), script[1..], rest)
    requires run == Run(rest.stream, Dial(s, script[0]) + [Act.Sleep(time)] + rest.acts, 1 + rest.used)
    ensures RunsOut(sdk, p, s.control, script, run)
  {
    SleepsOfStep(s, script[0], Wait(time), rest.acts);
    SleepsAsCons(sdk, p, s.control, script, time, Sleeps(rest.acts));
    assert rest.acts != [] ==> run.acts[|run.acts| - 1] == rest.acts[|rest.acts| - 1];
  }

  lemma RunsOutLast(sdk: Sdk, p: Policy, s: Stream, script: seq<Attempt>, run: Run)
    requires script != [] && s.control.failures == p.maxAttempts
    requires run.acts == Dial(s, script[0]) + [Broke] && run.used == 1
    ensures RunsOut(sdk, p, s.control, script, run)
  {
    SleepsOfStep(s, script[0], Fail, []);
    Nil(run.acts);
    assert Sleeps([]) == [];
  }

  /** Every run of such attempts is one. */
  lemma {:induction false} FruitlessRun(cfg: Config, p: Policy, s: Stream, script: seq<Attempt>)
    requires s.control.failures <= p.maxAttempts && AllFruitless(cfg, Some(p), s, script)
    requires cfg.sdk.Go? ==> Doublable(StreakStart(Go, s.control.retry), p.maxDelay)
    ensures RunsOut(cfg.sdk, p, s.control, script, Play(cfg, Some(p), s, script))
    decreases |script|
  {
    if script != [] {
      var run := Play(cfg, Some(p), s, script);
      var (t, v) := Step(cfg, Some(p), s, script[0]);
      FruitlessStep(cfg, p, s, script[0]);
      if v.Wait? {
        FruitlessRun(cfg, p, t, script[1..]);
        RunsOutCons(cfg.sdk, p, s, script, Play(cfg, Some(p), t, script[1..]), run, v.time);
      } else {
        Nil(Dial(s, script[0]) + [Broke]);
        RunsOutLast(cfg.sdk, p, s, script, run);
      }
    }
  }

  /**
   * With the settings left out, the eleventh failure in a row breaks a run, after waits of one, two, four,
   * eight and sixteen seconds and five of thirty.
   */
  lemma DefaultWaits(cfg: Config, lastEventId: Option<string>, script: seq<Attempt>)
    requires |script| == 11 && forall a <- script :: Asked(a) == None
    requires
      var p := Some(Resolve(cfg.sdk, Options(None, None, None)));
      AllFruitless(cfg, p, Start(lastEventId, cfg.sdk, p), script)
    ensures
      var p := Some(Resolve(cfg.sdk, Options(None, None, None)));
      var run := Play(cfg, p, Start(lastEventId, cfg.sdk, p), script);
      var ms := if cfg.sdk.Go? then 1_000_000 else 1;
      && Sleeps(run.acts) == [1_000 * ms, 2_000 * ms, 4_000 * ms, 8_000 * ms, 16_000 * ms,
                              30_000 * ms, 30_000 * ms, 30_000 * ms, 30_000 * ms, 30_000 * ms]
      && run.used == 11 && run.acts[|run.acts| - 1] == Broke
  {
    var p := Resolve(cfg.sdk, Options(None, None, None));
    var s := Start(lastEventId, cfg.sdk, Some(p));
    SmallCapIsDoublable(StreakStart(Go, s.control.retry), p.maxDelay);
    FruitlessRun(cfg, p, s, script);
    var sleeps := Sleeps(Play(cfg, Some(p), s, script).acts);
    assert |sleeps| == 10;
    forall i | 0 <= i < 10 ensures sleeps[i] == WaitAfter(p.delay, p.maxDelay, i) {
      assert script[i] in script;
      assert sleeps[i] == WaitOf(cfg.sdk, p, s.control, script[i], i);
    }
    DefaultLadder(cfg.sdk, sleeps);
  }

  lemma DefaultLadder(sdk: Sdk, sleeps: seq<int>)
    requires |sleeps| == 10
    requires
      var p := Resolve(sdk, Options(None, None, None));
      forall i | 0 <= i < 10 :: sleeps[i] == WaitAfter(p.delay, p.maxDelay, i)
    ensures
      var ms := if sdk.Go? then 1_000_000 else 1;
      sleeps == [1_000 * ms, 2_000 * ms, 4_000 * ms, 8_000 * ms, 16_000 * ms,
                 30_000 * ms, 30_000 * ms, 30_000 * ms, 30_000 * ms, 30_000 * ms]
  {
    DefaultSteps(sdk);
  }

  lemma DefaultSteps(sdk: Sdk)
    ensures
      var p := Resolve(sdk, Options(None, None, None));
      var ms := if sdk.Go? then 1_000_000 else 1;
      && WaitAfter(p.delay, p.maxDelay, 0) == 1_000 * ms && WaitAfter(p.delay, p.maxDelay, 1) == 2_000 * ms
      && WaitAfter(p.delay, p.maxDelay, 2) == 4_000 * ms && WaitAfter(p.delay, p.maxDelay, 3) == 8_000 * ms
      && WaitAfter(p.delay, p.maxDelay, 4) == 16_000 * ms && WaitAfter(p.delay, p.maxDelay, 5) == 30_000 * ms
      && WaitAfter(p.delay, p.maxDelay, 6) == 30_000 * ms && WaitAfter(p.delay, p.maxDelay, 7) == 30_000 * ms
      && WaitAfter(p.delay, p.maxDelay, 8) == 30_000 * ms && WaitAfter(p.delay, p.maxDelay, 9) == 30_000 * ms
  {
    var p := Resolve(sdk, Options(None, None, None));
    assert WaitAfter(p.delay, p.maxDelay, 3) == 2 * WaitAfter(p.delay, p.maxDelay, 2);
    assert WaitAfter(p.delay, p.maxDelay, 5) == p.maxDelay;
    assert WaitAfter(p.delay, p.maxDelay, 7) == p.maxDelay;
    assert WaitAfter(p.delay, p.maxDelay, 9) == p.maxDelay;
  }

  // ----- The other verdicts -----

  /** The first connect fails fast, whatever the settings: one connect, and an error. */
  lemma FirstConnectFailsFast(cfg: Config, policy: Option<Policy>, lastEventId: Option<string>, script: seq<Attempt>)
    requires script != [] && !script[0].before && !script[0].after
    requires script[0].net.Refusal? || script[0].net.Silence? || (cfg.sdk.TypeScript? && script[0].net.Bodiless?)
    ensures
      var run := Play(cfg, policy, Start(lastEventId, cfg.sdk, policy), script);
      run.acts == [Connect(Header(lastEventId)), Broke] && run.used == 1 && run.stream.out == []
  {
  }

  /** Later, a refusal breaks the stream unless its status is worth another attempt and the allowance lasts. */
  lemma RefusalExactly(sdk: Sdk, runStream: bool, p: Policy, c: Control, status: int, retryAfter: Option<nat>)
    requires c.established
    ensures
      var (_, v) := Respond(sdk, runStream, Some(p), c, Observation.Refused(status, retryAfter), false, false);
      && (v.Fail? || v.Wait?)
      && (v.Wait? <==>
          (status in {429, 502, 503, 504} || (sdk.TypeScript? && status == 0)) && c.failures < p.maxAttempts)
  {
  }

  /** A clean close without a frame ends a run stream within 15 seconds; on a host stream it is a failure within one. */
  lemma QuietCloseExactly(sdk: Sdk, runStream: bool, p: Policy, c: Control, lived: nat)
    ensures
      var (d, v) := Respond(sdk, runStream, Some(p), c, Served(0, false, false, lived), false, false);
      if runStream && lived < 15_000 then v == End
      else if !runStream && lived < 1_000 then
        d.failures == c.failures + 1 && (v.Fail? <==> c.failures >= p.maxAttempts)
      else d.failures == 0 && v == Wait(c.retry)
  {
  }

  /** A connection that brought a frame and did not end the run is followed by the plain retry delay. */
  lemma FramesAreProgress(sdk: Sdk, runStream: bool, p: Policy, c: Control, frames: nat, failed: bool, lived: nat)
    requires frames > 0
    ensures Respond(sdk, runStream, Some(p), c, Served(frames, false, failed, lived), false, false) ==
            (Controller.Control.Control(true, 0, c.retry), Wait(c.retry))
  {
  }

  /** A terminal frame ends the stream, and so does an abort of an established one. */
  lemma EndsExactly(sdk: Sdk, runStream: bool, policy: Option<Policy>, c: Control, o: Observation,
                    before: bool, after: bool)
    requires
      || (!before && o.Served? && (o.terminal || after))
      || (c.established && before)
      || (c.established && !before && after && o.Unreachable?)
    ensures Respond(sdk, runStream, policy, c, o, before, after).1 == End
  {
  }

  /** With reconnect off nothing is waited for: a body read to its end is the end, in Go a broken one too. */
  lemma DisabledEnds(sdk: Sdk, runStream: bool, c: Control, o: Observation, before: bool, after: bool)
    ensures
      var (_, v) := Respond(sdk, runStream, None, c, o, before, after);
      && !v.Wait?
      && (!before && !after && o.Served? ==> (v == Fail <==> sdk.TypeScript? && o.failed && !o.terminal))
      && (!before && !after && !o.Served? ==> v == if o.Bodiless? && sdk.Go? then End else Fail)
  {
  }

  /** An attempt that is aborted before it starts makes no connect and is the last. */
  lemma AbortedBefore(cfg: Config, policy: Option<Policy>, s: Stream, script: seq<Attempt>)
    requires script != [] && script[0].before
    ensures
      var run := Play(cfg, policy, s, script);
      && run.acts == [if cfg.sdk.Go? && !s.control.established then Broke else Ended]
      && run.used == 1 && run.stream.out == s.out && run.stream.cursor == s.cursor
  {
  }

  /** A wait is followed by the next connect, with the cursor the attempt left. */
  lemma WaitsThenConnects(cfg: Config, p: Policy, s: Stream, script: seq<Attempt>)
    requires |script| >= 2 && !script[0].before && !script[1].before && Step(cfg, Some(p), s, script[0]).1.Wait?
    ensures
      var run := Play(cfg, Some(p), s, script);
      var (t, v) := Step(cfg, Some(p), s, script[0]);
      && |run.acts| >= 4
      && run.acts[..3] == [Connect(Header(s.cursor)), Act.Sleep(v.time), Connect(Header(t.cursor))]
  {
    var (t, v) := Step(cfg, Some(p), s, script[0]);
    var rest := Play(cfg, Some(p), t, script[1..]);
    assert rest.acts[0] == Connect(Header(t.cursor)) && |rest.acts| >= 2;
  }

  /**
   * The host's `retry:` holds from then on: after a connection that brought a frame, the run waits the
   * reconnection time of the standard, and keeps it for what comes later.
   */
  lemma HostRetryIsKept(cfg: Config, p: Policy, s: Stream, a: Attempt, reconnection: int)
    requires a.net.Body? && !a.before && !a.after
    requires StandardText(cfg.sdk, a.net.text) && Tail(cfg.sdk, a.net.text) == []
    requires s.control.retry == Units(cfg.sdk, reconnection)
    requires var f := ReadBody(cfg, Open(s), a.net.text, a.net.ending).feed; f.frames > 0 && !f.terminal
    ensures
      var (t, v) := Step(cfg, Some(p), s, a);
      var source := Interpret(NewSource(CursorText(s.cursor), reconnection), StdLines(cfg.sdk, a.net.text));
      v == Wait(Units(cfg.sdk, source.reconnection)) && t.control.retry == Units(cfg.sdk, source.reconnection)
  {
    var r := ReadBody(cfg, Open(s), a.net.text, a.net.ending);
    BodyConforms(cfg, Open(s), a.net.text, a.net.ending, reconnection);
    BodySplits(cfg, Open(s), a.net.text, a.net.ending);
    CompletedIsBefore(cfg, Open(s), a.net.text, a.net.ending);
    FramesAreProgress(cfg.sdk, cfg.runStream, p, Close(s, r).control, r.feed.frames,
                      Reading.Failed(cfg.sdk, a.net.text, a.net.ending), a.net.lived);
  }

  lemma CompletedIsBefore(cfg: Config, r: Reader, text: string, ending: Ending)
    requires r.pending == FRESH && !ReadBody(cfg, r, text, ending).feed.terminal
    ensures !Completed(cfg, r.feed, text).terminal
  {
    BodySplits(cfg, r, text, ending);
  }

  // ----- Which frames end a run -----

  /** The body brings one frame, and the run stream is resumed with the plain delay unless that frame ended it. */
  ghost predicate BringsOne(cfg: Config, s: Stream, a: Attempt, frame: Frame, doc: Value) {
    && cfg.runStream && a.net.Body? && !a.before && !a.after
    && var last := LastFrame(cfg.sdk, a.net.text);
    && FramesOf(cfg.sdk, Whole(cfg.sdk, a.net.text)) == [frame] && last.id.None? && last.data == []
    && frame.event != "batch" && Parsed(cfg, frame) == Some(doc)
    && (Sequence(doc).None? || Sequence(doc).value > s.maxSequence)
  }

  lemma OneFrameVerdict(cfg: Config, p: Policy, s: Stream, a: Attempt, frame: Frame, doc: Value)
    requires BringsOne(cfg, s, a, frame, doc)
    ensures
      var (_, v) := Step(cfg, Some(p), s, a);
      if EndsRun(cfg, frame.event, doc) then v == End else v.Wait?
  {
    var f := Open(s).feed;
    assert Documents(cfg, frame) == [doc];
    BodySplits(cfg, Open(s), a.net.text, a.net.ending);
    DeliverSingle(cfg, f, frame, doc);
    var g := Deliver(cfg, f, frame);
    assert [frame][1..] == [] && DeliverAll(cfg, f, [frame]) == DeliverAll(cfg, g, []) == g;
    DeliverIdle(cfg, g, LastFrame(cfg.sdk, a.net.text));
  }

  /** A snapshot of a run stream ends it exactly when its status is none of those of a run under way. */
  lemma SnapshotVerdict(cfg: Config, p: Policy, s: Stream, a: Attempt, frame: Frame, doc: Value, status: string)
    requires BringsOne(cfg, s, a, frame, doc) && frame.event == "state.snapshot"
    requires doc.Object? && doc.status == Text(status) && status != "" && !doc.typ.Mistyped?
    requires doc.typ !in {Text("run.completed"), Text("run.failed"), Text("run.cancelled")}
    ensures
      var (_, v) := Step(cfg, Some(p), s, a);
      if status in {
           "pending", "running", "paused", "waiting-approval", "waiting-input", "waiting-external", "cancelling"}
      then v.Wait? else v == End
    ensures status in {"completed", "failed", "cancelled", "unheard-of"} ==> Step(cfg, Some(p), s, a).1 == End
  {
    OneFrameVerdict(cfg, p, s, a, frame, doc);
    SnapshotEndsRun(doc, status);
  }

  /** Any other well-typed document ends it exactly by one of the three event types. */
  lemma EventVerdict(cfg: Config, p: Policy, s: Stream, a: Attempt, frame: Frame, doc: Value)
    requires BringsOne(cfg, s, a, frame, doc) && frame.event != "state.snapshot"
    requires doc.Object? ==> !doc.typ.Mistyped? && !doc.status.Mistyped?
    ensures
      var (_, v) := Step(cfg, Some(p), s, a);
      if doc.Object? && doc.typ in {Text("run.completed"), Text("run.failed"), Text("run.cancelled")}
      then v == End else v.Wait?
  {
    OneFrameVerdict(cfg, p, s, a, frame, doc);
    EventEndsRun(frame.event, doc);
  }
}
