/** Backoff, failure streaks, and the agreement of the two controllers. */
module ControllerProofs {
  import opened Json
  import opened Seqs
  import opened Numbers
  import opened Frames
  import opened Controller

  // ----- Backoff -----

  lemma {:induction false} Pow2Positive(n: nat)
    ensures Pow2(n) >= 1
  {
    if n > 0 { Pow2Positive(n - 1); }
  }

  lemma TimesPow2(w: int, n: nat)
    requires w > 0
    ensures w * Pow2(n) >= w
    ensures n > 0 ==> (w * 2) * Pow2(n - 1) == w * Pow2(n)
  {
    Pow2Positive(n);
    assert w * Pow2(n) - w == w * (Pow2(n) - 1);
  }

  /** The doubling after `k` doublings leaves the 64-bit range: the value is below the cap but too large to double. */
  predicate Overflows(wait: int, k: nat, maxDelay: int) {
    TWO_63 / 2 <= wait * Pow2(k) < maxDelay
  }

  /** No wait that the loop doubles is too large for it. */
  ghost predicate Doublable(wait: int, maxDelay: int) {
    forall k: nat :: !Overflows(wait, k, maxDelay)
  }

  lemma DoublableNext(wait: int, maxDelay: int)
    requires 0 < wait < maxDelay && Doublable(wait, maxDelay)
    ensures wait * 2 < TWO_63 && Doublable(wait * 2, maxDelay)
  {
    assert !Overflows(wait, 0, maxDelay);
    forall k: nat ensures !Overflows(wait * 2, k, maxDelay) {
      TimesPow2(wait, k + 1);
      assert !Overflows(wait, k + 1, maxDelay);
    }
  }

  /** A cap of at most half the 64-bit range is one under which nothing overflows. */
  lemma SmallCapIsDoublable(wait: int, maxDelay: int)
    requires maxDelay <= TWO_63 / 2
    ensures Doublable(wait, maxDelay)
  {
  }

  /** As long as no doubling overflows, the loop is a capped power of two. */
  lemma {:induction false} DoubledClosedForm(wait: int, times: nat, maxDelay: int)
    requires wait > 0 && Doublable(wait, maxDelay)
    ensures Min(Doubled(wait, times, maxDelay), maxDelay) == Min(maxDelay, wait * Pow2(times))
    decreases times
  {
    TimesPow2(wait, times);
    if times > 0 && wait < maxDelay {
      DoublableNext(wait, maxDelay);
      DoubledClosedForm(wait * 2, times - 1, maxDelay);
    }
  }

  /** Up to the first value too large to double, each doubling is exact; the next one is negative. */
  lemma {:induction false} DoubledOverflows(wait: int, k: nat, maxDelay: int)
    requires 0 < wait < TWO_63 && maxDelay < TWO_63 && Overflows(wait, k, maxDelay)
    ensures exists times: nat :: Doubled(wait, times, maxDelay) < 0
    decreases k
  {
    TimesPow2(wait, k);
    if wait >= TWO_63 / 2 {
      assert Doubled(wait, 1, maxDelay) == Doubled(Wrap64(wait * 2), 0, maxDelay);
    } else {
      DoubledOverflows(wait * 2, k - 1, maxDelay);
      var times: nat :| Doubled(wait * 2, times, maxDelay) < 0;
      assert Doubled(wait, times + 1, maxDelay) < 0;
    }
  }

  /** The loop waits the capped power of two after any number of failures exactly when no doubling overflows. */
  lemma DoublingIsExact(wait: int, maxDelay: int)
    requires 0 < wait < TWO_63 && maxDelay < TWO_63
    ensures
      (forall times: nat :: Min(Doubled(wait, times, maxDelay), maxDelay) == Min(maxDelay, wait * Pow2(times))) <==>
      Doublable(wait, maxDelay)
  {
    if Doublable(wait, maxDelay) {
      forall times: nat {
        DoubledClosedForm(wait, times, maxDelay);
      }
    } else {
      var k: nat :| Overflows(wait, k, maxDelay);
      DoubledOverflows(wait, k, maxDelay);
      var times: nat :| Doubled(wait, times, maxDelay) < 0;
      TimesPow2(wait, times);
    }
  }

  /** Go's loop and TypeScript's formula wait the same time, whatever the host's retry value. */
  lemma BackoffsAgree(retry: int, failures: nat, maxDelay: int)
    requires failures > 0
    requires Doublable(Max(retry, 1) * 1_000_000, maxDelay * 1_000_000)
    ensures Backoff(Go, retry * 1_000_000, failures, maxDelay * 1_000_000) ==
            Backoff(TypeScript, retry, failures, maxDelay) * 1_000_000
  {
    var wait := Max(retry, 1);
    DoubledClosedForm(wait * 1_000_000, failures - 1, maxDelay * 1_000_000);
    var p := Pow2(failures - 1);
    assert (wait * 1_000_000) * p == (wait * p) * 1_000_000;
  }

  /** Where Go's loop starts: the retry delay, or one millisecond. */
  function FirstWait(retry: int): int {
    if retry <= 0 then Millisecond(Go) else retry
  }

  /** Waits never shrink as failures accumulate, and only `Retry-After` exceeds the cap. */
  lemma BackoffGrowsToCap(sdk: Sdk, retry: int, failures: nat, maxDelay: int, retryAfter: Option<nat>)
    requires failures > 0 && (sdk.Go? ==> Doublable(FirstWait(retry), maxDelay))
    ensures Backoff(sdk, retry, failures, maxDelay) <= Backoff(sdk, retry, failures + 1, maxDelay) <= maxDelay
    ensures Lengthen(sdk, Backoff(sdk, retry, failures, maxDelay), retryAfter) <=
            Lengthen(sdk, maxDelay, retryAfter)
  {
    var wait := if sdk.Go? then FirstWait(retry) else Max(retry, 1);
    if sdk.Go? {
      DoubledClosedForm(wait, failures - 1, maxDelay);
      DoubledClosedForm(wait, failures, maxDelay);
    }
    Pow2Positive(failures - 1);
    assert wait * Pow2(failures) == wait * Pow2(failures - 1) + wait * Pow2(failures - 1);
    TimesPow2(wait, failures - 1);
  }

  /** An overflow for one: the wait becomes negative, which is no wait at all. */
  lemma DoublingCanOverflow()
    ensures DoublingLoop(TWO_63 / 2 + 1, 2, TWO_63 - 1) < 0
    ensures CappedPower(TWO_63 / 2 + 1, 1, 2, TWO_63 - 1) == TWO_63 - 1
  {
    var w := TWO_63 / 2 + 1;
    assert Pow2(1) == 2 * Pow2(0);
    assert Wrap64(w * 2) == 2 - TWO_63;
    assert Doubled(w, 1, TWO_63 - 1) == Doubled(Wrap64(w * 2), 0, TWO_63 - 1);
  }

  // ----- Sequences of attempts -----

  /** An attempt as both SDKs may meet it; `hostRetry` is the last `retry:` of a served connection, if any. */
  datatype Event = Event(observation: Observation, hostRetry: Option<nat>, before: bool, after: bool)

  function Heard(sdk: Sdk, c: Control, e: Event): Control {
    if e.observation.Served? && !e.before && e.hostRetry.Some? then c.(retry := Duration(sdk, e.hostRetry.value)) else c
  }

  function RespondTo(sdk: Sdk, runStream: bool, policy: Option<Policy>, c: Control, e: Event): (Control, Verdict) {
    Respond(sdk, runStream, policy, Heard(sdk, c, e), e.observation, e.before, e.after)
  }

  /** The verdicts on a sequence of attempts, up to the one that ends or fails the stream. */
  function Verdicts(sdk: Sdk, runStream: bool, policy: Option<Policy>, c: Control, events: seq<Event>): seq<Verdict>
    decreases |events|
  {
    if events == [] then []
    else
      var (d, v) := RespondTo(sdk, runStream, policy, c, events[0]);
      if v.Wait? then [v] + Verdicts(sdk, runStream, policy, d, events[1..]) else [v]
  }

  // ----- Bounded failure streaks -----

  /** What counts as a failure and brought no frame: for a stream of host events, a quick clean close does. */
  predicate FramelessFailure(sdk: Sdk, runStream: bool, e: Event) {
    && !e.before && !e.after
    && match e.observation
       case Unreachable => true
       case Refused(status, _) => Retryable(sdk, status)
       case Bodiless(lived) => sdk.Go? && !runStream && lived < QUICK_CLOSE_MS
       case Served(frames, terminal, failed, lived) =>
         frames == 0 && !terminal && (failed || (!runStream && lived < QUICK_CLOSE_MS))
  }

  /**
   * A streak of frameless failures is waited out exactly `maxAttempts - failures` times; one more ends
   * the stream with an error.
   */
  lemma {:induction false} StreakIsBounded(sdk: Sdk, runStream: bool, p: Policy, c: Control, events: seq<Event>)
    requires c.established && c.failures <= p.maxAttempts
    requires forall e <- events :: FramelessFailure(sdk, runStream, e)
    ensures
      var v := Verdicts(sdk, runStream, Some(p), c, events);
      var left := p.maxAttempts - c.failures;
      && (|events| <= left ==> |v| == |events| && forall w <- v :: w.Wait?)
      && (|events| > left ==> |v| == left + 1 && v[left].Fail? && forall i | 0 <= i < left :: v[i].Wait?)
    decreases |events|
  {
    if events != [] {
      var e := events[0];
      assert FramelessFailure(sdk, runStream, e);
      var (d, v) := RespondTo(sdk, runStream, Some(p), c, e);
      assert d.established && d.failures == c.failures + 1;
      if v.Wait? {
        StreakIsBounded(sdk, runStream, p, d, events[1..]);
      }
    }
  }

  /** A connection that brought a frame, or closed cleanly after long enough; an empty one to Go has no body at all. */
  predicate Progresses(sdk: Sdk, runStream: bool, o: Observation) {
    var floor := if runStream then BOUNDED_CLOSE_FLOOR_MS else QUICK_CLOSE_MS;
    match o
    case Served(frames, terminal, failed, lived) => !terminal && (frames > 0 || (!failed && lived >= floor))
    case Bodiless(lived) => sdk.Go? && lived >= floor
    case _ => false
  }

  /** Such a connection resets the streak and is followed by the plain retry delay. */
  lemma ProgressResets(sdk: Sdk, runStream: bool, p: Policy, c: Control, e: Event)
    requires Progresses(sdk, runStream, e.observation) && !e.before && !e.after
    ensures
      var (d, v) := RespondTo(sdk, runStream, Some(p), c, e);
      d.established && d.failures == 0 && v == Wait(Heard(sdk, c, e).retry)
  {
  }

  // ----- The two controllers agree -----

  predicate WholeOptions(o: Options) {
    && (o.delay.Some? ==> o.delay.value > 0)
    && (o.maxDelay.Some? ==> o.maxDelay.value > 0)
    && (o.maxAttempts.Some? ==> o.maxAttempts.value > 0)
  }

  function InNanoseconds(p: Policy): Policy {
    Policy(p.delay * 1_000_000, p.maxDelay * 1_000_000, p.maxAttempts)
  }

  /** Settings that are absent or positive mean the same in both SDKs. */
  lemma PositiveSettingsAgree(o: Options)
    requires WholeOptions(o)
    ensures Resolve(Go, o) == InNanoseconds(Resolve(TypeScript, o))
  {
  }

  /** Times that fit a 64-bit count of nanoseconds. */
  predicate FitsNanoseconds(ms: int) {
    ms * 1_000_000 < TWO_63
  }

  /** An event both can meet: its times fit, and what is refused is an HTTP status other than success. */
  predicate Representable(e: Event) {
    && (e.observation.Refused? ==> e.observation.status != 0 && !(200 <= e.observation.status < 300))
    && (e.hostRetry.Some? ==> FitsNanoseconds(e.hostRetry.value))
    && (e.observation.Refused? && e.observation.retryAfter.Some? ==> FitsNanoseconds(e.observation.retryAfter.value))
  }

  predicate SameControl(ts: Control, go: Control) {
    go == ts.(retry := ts.retry * 1_000_000)
  }

  predicate SameVerdict(ts: Verdict, go: Verdict) {
    match ts
    case Wait(time) => go == Wait(time * 1_000_000)
    case _ => go == ts
  }

  /** A bodiless success on which Go fails the stream too: a quick close of host events, one too many. */
  predicate BothFailBodiless(runStream: bool, policy: Option<Policy>, failures: nat, lived: nat, after: bool) {
    policy.Some? && !after && !runStream && lived < QUICK_CLOSE_MS && failures >= policy.value.maxAttempts
  }

  /** The attempts on which the controllers part ways: aborts, a disabled reconnect, and a success without a body. */
  predicate Divergent(runStream: bool, policy: Option<Policy>, c: Control, e: Event) {
    if e.before then !c.established
    else
      match e.observation
      case Unreachable => e.after && !c.established
      case Refused(status, _) =>
        e.after && c.established && (policy.None? || !Retryable(TypeScript, status))
      case Bodiless(lived) => !BothFailBodiless(runStream, policy, c.failures, lived, e.after)
      case Served(_, terminal, failed, _) => policy.None? && failed && !terminal && !e.after
  }

  function GoPolicy(policy: Option<Policy>): Option<Policy> {
    if policy.Some? then Some(InNanoseconds(policy.value)) else None
  }

  /** The cap leaves Go's doublings within 64 bits. */
  predicate CapFits(policy: Option<Policy>) {
    policy.Some? ==> policy.value.maxDelay * 1_000_000 <= TWO_63 / 2
  }

  /** When neither aborts nor settings interfere, both take the same decision. */
  lemma DecidesAgree(runStream: bool, p: Policy, ts: Control, go: Control,
                     frames: nat, failed: bool, retryAfter: Option<nat>, lived: nat)
    requires SameControl(ts, go) && CapFits(Some(p))
    requires retryAfter.Some? ==> FitsNanoseconds(retryAfter.value)
    ensures
      var (ts', v) := Decide(TypeScript, runStream, p, ts, frames, failed, retryAfter, lived);
      var (go', w) := Decide(Go, runStream, InNanoseconds(p), go, frames, failed, retryAfter, lived);
      SameVerdict(v, w) && SameControl(ts', go')
  {
    SmallCapIsDoublable(Max(ts.retry, 1) * 1_000_000, p.maxDelay * 1_000_000);
    BackoffsAgree(ts.retry, ts.failures + 1, p.maxDelay);
  }

  /**
   * One attempt: the controllers give the same verdict exactly on the attempts that are not divergent, and
   * then hold the same state while the stream goes on.
   */
  lemma RespondsAgree(runStream: bool, policy: Option<Policy>, ts: Control, go: Control, e: Event)
    requires SameControl(ts, go) && Representable(e) && CapFits(policy)
    ensures
      var (ts', v) := RespondTo(TypeScript, runStream, policy, ts, e);
      var (go', w) := RespondTo(Go, runStream, GoPolicy(policy), go, e);
      && (SameVerdict(v, w) <==> !Divergent(runStream, policy, ts, e))
      && (SameVerdict(v, w) && (v.Wait? || !e.observation.Bodiless?) ==> SameControl(ts', go'))
  {
    var c, d := Heard(TypeScript, ts, e), Heard(Go, go, e);
    assert SameControl(c, d);
    if policy.Some? {
      match e.observation
      case Unreachable => DecidesAgree(runStream, policy.value, c, d, 0, true, None, 0);
      case Refused(_, retryAfter) => DecidesAgree(runStream, policy.value, c, d, 0, true, retryAfter, 0);
      case Bodiless(lived) =>
      case Served(frames, _, failed, lived) =>
        var c', d' := c.(established := true), d.(established := true);
        DecidesAgree(runStream, policy.value, c', d', frames, failed, None, lived);
    }
  }

  /** For one: a 204 within the floor, while a run stream resumes, is an error to TypeScript and the quiet end to Go. */
  lemma BodilessDiverges(p: Policy, c: Control, lived: nat)
    requires lived < BOUNDED_CLOSE_FLOOR_MS
    ensures Respond(TypeScript, true, Some(p), c, Observation.Bodiless(lived), false, false).1 == Fail
    ensures Respond(Go, true, Some(p), c, Observation.Bodiless(lived), false, false).1 == End
  {
  }

  /** No attempt of a sequence, up to the one that ends or fails the stream, is divergent. */
  predicate NoneDivergent(runStream: bool, policy: Option<Policy>, c: Control, events: seq<Event>)
    decreases |events|
  {
    events == [] ||
    (&& !Divergent(runStream, policy, c, events[0])
     && var (d, v) := RespondTo(TypeScript, runStream, policy, c, events[0]);
        (v.Wait? ==> NoneDivergent(runStream, policy, d, events[1..])))
  }

  predicate SameVerdicts(ts: seq<Verdict>, go: seq<Verdict>) {
    if ts == [] || go == [] then ts == go
    else SameVerdict(ts[0], go[0]) && SameVerdicts(ts[1..], go[1..])
  }

  /** Any sequence of attempts: the same choice each time, and the same wait, exactly when none is divergent. */
  lemma {:induction false} ControllersAgree(runStream: bool, policy: Option<Policy>, ts: Control, go: Control,
                                            events: seq<Event>)
    requires SameControl(ts, go) && CapFits(policy) && forall e <- events :: Representable(e)
    ensures SameVerdicts(Verdicts(TypeScript, runStream, policy, ts, events),
                         Verdicts(Go, runStream, GoPolicy(policy), go, events)) <==>
            NoneDivergent(runStream, policy, ts, events)
    decreases |events|
  {
    if events != [] {
      var e := events[0];
      assert Representable(e);
      RespondsAgree(runStream, policy, ts, go, e);
      var (ts', v) := RespondTo(TypeScript, runStream, policy, ts, e);
      var (go', w) := RespondTo(Go, runStream, GoPolicy(policy), go, e);
      var later := Verdicts(TypeScript, runStream, policy, ts', events[1..]);
      var later' := Verdicts(Go, runStream, GoPolicy(policy), go', events[1..]);
      if v.Wait? && w.Wait? && SameVerdict(v, w) {
        ControllersAgree(runStream, policy, ts', go', events[1..]);
        Cons(v, later);
        Cons(w, later');
      }
    }
  }

  /** TypeScript takes every number it is given, Go replaces those that are not positive by the defaults. */
  lemma SettingsExactly(delay: int, maxDelay: int, maxAttempts: int)
    ensures
      var o := Options(Some(delay), Some(maxDelay), Some(maxAttempts));
      && Resolve(TypeScript, o) == Policy(delay, maxDelay, maxAttempts)
      && Resolve(Go, o) == Policy((if delay > 0 then delay else 1_000) * 1_000_000,
                                  (if maxDelay > 0 then maxDelay else 30_000) * 1_000_000,
                                  if maxAttempts > 0 then maxAttempts else 10)
  {
  }
}
