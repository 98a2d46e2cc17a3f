/** The reconnect controller: end, fail, or wait and connect again. */
module Controller {
  import opened Json
  import opened Numbers
  import opened Frames

  /** The reconnect settings in force, in the SDK's own time unit. */
  datatype Policy = Policy(delay: int, maxDelay: int, maxAttempts: int)

  /** The settings a caller may pass, in milliseconds. */
  datatype Options = Options(delay: Option<int>, maxDelay: Option<int>, maxAttempts: Option<int>)

  /** TypeScript takes every number the caller gives; Go replaces zero and negative ones by the defaults. */
  function Setting(sdk: Sdk, given: Option<int>, default: int): int {
    if given.None? || (sdk.Go? && given.value <= 0) then default else given.value
  }

  function Resolve(sdk: Sdk, o: Options): Policy {
    Policy(Setting(sdk, o.delay, 1_000) * Millisecond(sdk),
           Setting(sdk, o.maxDelay, 30_000) * Millisecond(sdk),
           Setting(sdk, o.maxAttempts, 10))
  }

  /**
   * What the controller learns of one attempt to connect. Times are whole milliseconds. `Bodiless` is a
   * success status that allows no body, such as 204.
   */
  datatype Observation =
    | Refused(status: int, retryAfter: Option<nat>)
    | Unreachable
    | Bodiless(lived: nat)
    | Served(frames: nat, terminal: bool, failed: bool, lived: nat)

  datatype Control = Control(established: bool, failures: nat, retry: int)

  datatype Verdict = End | Fail | Wait(time: int)

  const BOUNDED_CLOSE_FLOOR_MS := 15_000
  const QUICK_CLOSE_MS := 1_000
  const RETRYABLE_STATUSES: set<int> := {429, 502, 503, 504}

  /** A status 0 stands for a network error in TypeScript. */
  predicate Retryable(sdk: Sdk, status: int) {
    status in RETRYABLE_STATUSES || (sdk.TypeScript? && status == 0)
  }

  function Max(a: int, b: int): int {
    if a < b then b else a
  }

  function Min(a: int, b: int): int {
    if a < b then a else b
  }

  function Pow2(n: nat): nat {
    if n == 0 then 1 else 2 * Pow2(n - 1)
  }

  /** TypeScript: exponential growth from the retry delay, capped. */
  function CappedPower(retry: int, unit: int, failures: nat, maxDelay: int): int
    requires failures > 0
  {
    Min(maxDelay, Max(retry, unit) * Pow2(failures - 1))
  }

  /** Go: the delay is doubled in 64 bits, once per earlier failure, until it reaches the cap. */
  function Doubled(wait: int, times: nat, maxDelay: int): int
    decreases times
  {
    if times == 0 || wait >= maxDelay then wait else Doubled(Wrap64(wait * 2), times - 1, maxDelay)
  }

  function DoublingLoop(retry: int, failures: nat, maxDelay: int): int
    requires failures > 0
  {
    Min(Doubled(if retry <= 0 then Millisecond(Go) else retry, failures - 1, maxDelay), maxDelay)
  }

  function Backoff(sdk: Sdk, retry: int, failures: nat, maxDelay: int): int
    requires failures > 0
  {
    match sdk
    case TypeScript => CappedPower(retry, 1, failures, maxDelay)
    case Go => DoublingLoop(retry, failures, maxDelay)
  }

  /** `Retry-After` can only lengthen a wait. */
  function Lengthen(sdk: Sdk, time: int, retryAfter: Option<nat>): int {
    if retryAfter.None? then time else Max(time, Duration(sdk, retryAfter.value))
  }

  /** An attempt is over and the run is not: what now? */
  function Decide(sdk: Sdk, runStream: bool, p: Policy, c: Control,
                  frames: nat, failed: bool, retryAfter: Option<nat>, lived: nat): (Control, Verdict)
  {
    var empty := !failed && frames == 0;
    if empty && runStream && lived < BOUNDED_CLOSE_FLOOR_MS then (c, End)
    else
      var failure := failed || (empty && !runStream && lived < QUICK_CLOSE_MS);
      if !failure || frames > 0 then (c.(failures := 0), Wait(Lengthen(sdk, c.retry, retryAfter)))
      else
        var d := c.(failures := c.failures + 1);
        if d.failures > p.maxAttempts then (d, Fail)
        else (d, Wait(Lengthen(sdk, Backoff(sdk, c.retry, d.failures, p.maxDelay), retryAfter)))
  }

  /** A connection was open and is over. */
  function Settle(sdk: Sdk, runStream: bool, policy: Option<Policy>, c: Control,
                  frames: nat, terminal: bool, failed: bool, lived: nat, after: bool): (Control, Verdict)
  {
    var d := c.(established := true);
    if terminal || after then (d, End)
    else if policy.None? then (d, if failed && sdk.TypeScript? then Fail else End)
    else Decide(sdk, runStream, policy.value, d, frames, failed, None, lived)
  }

  /** One attempt. `before` and `after`: the caller has aborted when it starts, and when it ends. */
  function Respond(sdk: Sdk, runStream: bool, policy: Option<Policy>, c: Control,
                   o: Observation, before: bool, after: bool): (Control, Verdict)
  {
    if before then (c, if sdk.Go? && !c.established then Fail else End)
    else
      match o
      case Unreachable =>
        if after && (sdk.TypeScript? || c.established) then (c, End)
        else if policy.None? || !c.established then (c, Fail)
        else Decide(sdk, runStream, policy.value, c, 0, true, None, 0)
      case Refused(status, retryAfter) =>
        if after && sdk.Go? && c.established then (c, End)
        else if policy.None? || !c.established || !Retryable(sdk, status) then (c, Fail)
        else if after then (c, End)
        else Decide(sdk, runStream, policy.value, c, 0, true, retryAfter, 0)
      case Bodiless(lived) =>
        // TypeScript throws for want of a body, Go reads an empty one.
        if sdk.TypeScript? then (c, Fail) else Settle(Go, runStream, policy, c, 0, false, false, lived, after)
      case Served(frames, terminal, failed, lived) =>
        Settle(sdk, runStream, policy, c, frames, terminal, failed, lived, after)
  }
}
