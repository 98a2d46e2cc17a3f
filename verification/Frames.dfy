/** The frame interpreter: lines are read into a pending frame, a blank line completes it. */
module Frames {
  import opened Json
  import opened Seqs
  import opened Lines
  import opened Numbers

  datatype Sdk = TypeScript | Go

  datatype Line = Blank | Comment | Field(name: string, value: string)

  /** A frame: its event name, its data lines and the id it carries, if any. */
  datatype Frame = Frame(event: string, data: seq<string>, id: Option<string>)

  const FRESH := Frame("message", [], None)

  function Trim(sdk: Sdk, raw: string): string {
    match sdk
    case TypeScript => TrimOne(raw)
    case Go => TrimAll(raw)
  }

  /** A line without CRs survives either trim, whichever line ending it had. */
  lemma TrimPlain(sdk: Sdk, line: string)
    requires '\r' !in line
    ensures Trim(sdk, line) == line && Trim(sdk, line + "\r") == line
  {
    if line != [] { assert line[|line| - 1] in line; }
    assert (line + "\r")[..|line|] == line;
  }

  function ReadLine(line: string): Line {
    if line == "" then Blank
    else if line[0] == ':' then Comment
    else
      var colon := IndexOf(line, ':');
      if colon == |line| then Field(line, "")
      else
        var value := line[colon + 1..];
        Field(line[..colon], if value != "" && value[0] == ' ' then value[1..] else value)
  }

  /** Both programs split a field line at its first colon and drop one space after it. */
  method SplitField(line: string) returns (field: string, value: string)
    requires line != "" && line[0] != ':'
    ensures ReadLine(line) == Field(field, value)
  {
    var colon := IndexOf(line, ':');
    if colon == |line| { return line, ""; }
    field, value := line[..colon], line[colon + 1..];
    if value != "" && value[0] == ' ' { value := value[1..]; }
  }

  /** How one field changes the pending frame. A NUL-bearing id is ignored. */
  function Absorb(p: Frame, name: string, value: string): Frame {
    if name == "event" then p.(event := value)
    else if name == "data" then p.(data := p.data + [value])
    else if name == "id" && '\0' !in value then p.(id := Some(value))
    else p
  }

  /** One millisecond in the unit of the SDK's timers: TypeScript counts milliseconds, Go nanoseconds. */
  function Millisecond(sdk: Sdk): nat {
    match sdk
    case TypeScript => 1
    case Go => 1_000_000
  }

  /** A number of milliseconds as a timer value; Go multiplies in 64 bits. */
  function Duration(sdk: Sdk, ms: int): int {
    match sdk
    case TypeScript => ms
    case Go => Wrap64(ms * 1_000_000)
  }

  /** The value a `retry:` line sets: TypeScript accepts ASCII digits, Go what Atoi reads as non-negative. */
  function RetryValue(sdk: Sdk, value: string): Option<int> {
    match sdk
    case TypeScript => if AllDigits(value) then Some(Decimal(value)) else None
    case Go =>
      var ms := ParseInt64(value);
      if ms.Some? && ms.value >= 0 then Some(Duration(Go, ms.value)) else None
  }

  function Retry(sdk: Sdk, retry: int, name: string, value: string): int {
    if name == "retry" && RetryValue(sdk, value).Some? then RetryValue(sdk, value).value else retry
  }

  /** The frames that a run of lines completes, the frame left pending and the retry value left in force. */
  datatype Assembly = Assembly(frames: seq<Frame>, pending: Frame, retry: int)

  function Assemble(sdk: Sdk, pending: Frame, retry: int, raws: seq<string>): Assembly
    decreases |raws|
  {
    if raws == [] then Assembly([], pending, retry)
    else
      match ReadLine(Trim(sdk, raws[0]))
      case Blank =>
        var a := Assemble(sdk, FRESH, retry, raws[1..]);
        a.(frames := [pending] + a.frames)
      case Comment => Assemble(sdk, pending, retry, raws[1..])
      case Field(name, value) => Assemble(sdk, Absorb(pending, name, value), Retry(sdk, retry, name, value), raws[1..])
  }

  /** Frames completed earlier stand before what the rest of the lines assemble to. */
  function Before(frames: seq<Frame>, a: Assembly): Assembly {
    a.(frames := frames + a.frames)
  }

  lemma {:induction false} AssembleConcat(sdk: Sdk, pending: Frame, retry: int, a: seq<string>, b: seq<string>)
    ensures
      var first := Assemble(sdk, pending, retry, a);
      Assemble(sdk, pending, retry, a + b) == Before(first.frames, Assemble(sdk, first.pending, first.retry, b))
    decreases |a|
  {
    if a == [] {
      Nil(b);
      Nil(Assemble(sdk, pending, retry, b).frames);
    } else {
      ConcatTail(a, b);
      match ReadLine(Trim(sdk, a[0]))
      case Blank =>
        AssembleConcat(sdk, FRESH, retry, a[1..], b);
        var first := Assemble(sdk, FRESH, retry, a[1..]);
        Assoc([pending], first.frames, Assemble(sdk, first.pending, first.retry, b).frames);
      case Comment => AssembleConcat(sdk, pending, retry, a[1..], b);
      case Field(name, value) =>
        AssembleConcat(sdk, Absorb(pending, name, value), Retry(sdk, retry, name, value), a[1..], b);
    }
  }

  /** The retry value in force changes neither the frames nor the pending frame. */
  lemma {:induction false} RetryIrrelevant(sdk: Sdk, pending: Frame, r: int, r': int, raws: seq<string>)
    ensures
      var a, b := Assemble(sdk, pending, r, raws), Assemble(sdk, pending, r', raws);
      a.frames == b.frames && a.pending == b.pending
    decreases |raws|
  {
    if raws != [] {
      match ReadLine(Trim(sdk, raws[0]))
      case Blank => RetryIrrelevant(sdk, FRESH, r, r', raws[1..]);
      case Comment => RetryIrrelevant(sdk, pending, r, r', raws[1..]);
      case Field(name, value) =>
        RetryIrrelevant(sdk, Absorb(pending, name, value), Retry(sdk, r, name, value), Retry(sdk, r', name, value),
                        raws[1..]);
    }
  }

  /** The frames that lines complete from a fresh start. */
  function FramesOf(sdk: Sdk, raws: seq<string>): seq<Frame> {
    Assemble(sdk, FRESH, 0, raws).frames
  }

  /** The frame they leave pending. */
  function PendingOf(sdk: Sdk, raws: seq<string>): Frame {
    Assemble(sdk, FRESH, 0, raws).pending
  }

  function Join(parts: seq<string>, separator: string): string {
    if parts == [] then ""
    else if |parts| == 1 then parts[0]
    else parts[0] + separator + Join(parts[1..], separator)
  }

  /** What each program trims of a line that ends in two CRs. */
  lemma TrimOfTwoCRs(line: string)
    requires line == "" || line[|line| - 1] != '\r'
    ensures Trim(TypeScript, line + "\r\r") == line + "\r"
    ensures Trim(Go, line + "\r\r") == line
  {
    assert (line + "\r\r")[..|line| + 1] == line + "\r" && (line + "\r")[..|line|] == line;
    assert TrimAll(line + "\r\r") == TrimAll(line + "\r") == TrimAll(line);
  }
}
