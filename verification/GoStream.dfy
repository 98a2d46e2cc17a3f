/** `streamSSE` of the Go SDK, version 2, and the one-connection loop of version 1. */
module GoStream {
  import opened Json
  import opened Seqs
  import opened Lines
  import opened Numbers
  import opened Frames
  import opened Delivery
  import opened Reading
  import opened Controller
  import opened Session
  import opened Versions

  /** A success without a body is an empty body that closes cleanly. */
  function BodyText(net: Net): string {
    if net.Body? then net.text else ""
  }

  function BodyEnding(net: Net): Ending {
    if net.Body? then net.ending else Closed
  }

  lemma EmptyBody(cfg: Config, r: Reader)
    requires cfg.sdk.Go? && r.pending == FRESH
    ensures ReadBody(cfg, r, "", Closed) == r && !Reading.Failed(Go, "", Closed)
  {
    assert Cut("") == [] && Rest("") == "" && ScanLines("") == [];
    DeliverIdle(cfg, r.feed, FRESH);
  }

  /** An attempt whose connect succeeds is a body that is read and a connection to settle. */
  lemma StepOfOpen(cfg: Config, policy: Option<Policy>, s: Stream, a: Attempt)
    requires cfg.sdk.Go? && Opens(a.net) && !a.before
    ensures
      var text, ending := BodyText(a.net), BodyEnding(a.net);
      var r := ReadBody(cfg, Open(s), text, ending);
      var t := Close(s, r);
      var (c, v) := Settle(Go, cfg.runStream, policy, t.control, r.feed.frames, r.feed.terminal,
                           Reading.Failed(Go, text, ending), a.net.lived, a.after);
      Step(cfg, policy, s, a) == (t.(control := c), v)
  {
    if a.net.Bodiless? { EmptyBody(cfg, Open(s)); }
  }

  class EventStream {
    const cfg: Config
    const policy: Option<Policy>  // none: reconnect is disabled

    // Of the goroutine.
    var cursor: string
    var retry: int
    var failures: nat
    var maxSequence: int

    // Of one connection.
    var pendingData: seq<string>
    var pendingEvent: string
    var pendingID: Option<string>
    var frames: nat
    var terminal: bool

    // What has gone down the channel.
    var sent: seq<Value>

    // Whether the first connect has succeeded; in the program, a position in the code.
    ghost var connected: bool

    constructor (cfg: Config, policy: Option<Policy>, lastEventID: string)
      requires cfg.sdk.Go?
      ensures this.cfg == cfg && this.policy == policy && Across() == Start(Some(lastEventID), Go, policy)
    {
      this.cfg, this.policy := cfg, policy;
      cursor := lastEventID;
      retry := if policy.Some? then policy.value.delay else 1_000_000_000;
      failures, maxSequence := 0, -1;
      pendingData, pendingEvent, pendingID := [], "message", None;
      frames, terminal, sent, connected := 0, false, [], false;
    }

    ghost function Control(): Control
      reads this
    {
      Controller.Control.Control(connected, failures, retry)
    }

    ghost function Across(): Stream
      reads this
    {
      Stream(Control(), Some(cursor), maxSequence, sent)
    }

    ghost function Fed(count: nat): Feed
      reads this
    {
      Feed(Some(cursor), maxSequence, count, terminal, sent)
    }

    ghost function Reader(): Reader
      reads this
    {
      Reading.Reader.Reader(Frame(pendingEvent, pendingData, pendingID), retry, Fed(frames))
    }

    /** One document: counted, guarded, tested for the end of the run, then sent if it decodes. */
    method SendOne(eventType: string, doc: Value)
      requires cfg.sdk.Go?
      modifies this`frames, this`maxSequence, this`terminal, this`sent
      ensures frames == old(frames) + 1
      ensures forall n: nat :: Fed(n) == Send(cfg, old(Fed(n)), eventType, doc)
    {
      frames := frames + 1;
      if cfg.runStream {
        var sequence := Sequence(doc);
        if sequence.Some? {
          if sequence.value <= maxSequence { return; }
          maxSequence := sequence.value;
        }
        if IsTerminalFrame(eventType, doc) { terminal := true; }
      }
      if !cfg.decode(doc) { return; }
      sent := sent + [doc];
    }

    method SendBatch(eventType: string, batch: seq<Value>)
      requires cfg.sdk.Go?
      modifies this`frames, this`maxSequence, this`terminal, this`sent
      ensures frames == old(frames) + |batch|
      ensures forall n: nat :: Fed(n) == SendAll(cfg, old(Fed(n)), eventType, batch)
    {
      assert batch[0..] == batch;
      for i := 0 to |batch|
        invariant frames == old(frames) + i
        invariant
          forall n: nat :: SendAll(cfg, Fed(n), eventType, batch[i..]) == SendAll(cfg, old(Fed(n)), eventType, batch)
      {
        Next(batch, i);
        SendOne(eventType, batch[i]);
      }
    }

    method Flush()
      requires cfg.sdk.Go?
      modifies this`cursor, this`maxSequence, this`pendingEvent, this`pendingData, this`pendingID,
               this`frames, this`terminal, this`sent
      ensures Reader() == Reading.Flush(cfg, old(Reader()))
    {
      ghost var f, p := Fed(frames), Frame(pendingEvent, pendingData, pendingID);
      if pendingID.Some? {
        cursor := pendingID.value;
        pendingID := None;
      }
      if |pendingData| == 0 {
        pendingEvent := "message";
        return;
      }
      var parsed := cfg.parse(Join(pendingData, "\n"));
      var eventType := pendingEvent;
      pendingData := [];
      pendingEvent := "message";
      if parsed.None? { return; }
      ghost var g := Fed(f.frames + |Documents(cfg, p)|);
      assert g == Commit(cfg, f, p);
      if eventType == "batch" && (parsed.value.Array? || parsed.value.Null?) {
        SendBatch(eventType, if parsed.value.Array? then parsed.value.items else []);
      } else {
        SendBatch(eventType, [parsed.value]);
      }
    }

    /** One line that is not blank. */
    method TakeField(line: string)
      requires cfg.sdk.Go? && line != ""
      modifies this`pendingEvent, this`pendingData, this`pendingID, this`retry
      ensures
        match ReadLine(line)
        case Field(name, value) =>
          Reader() == Reading.Reader.Reader(Absorb(old(Reader()).pending, name, value),
                                            Retry(Go, old(retry), name, value), old(Reader()).feed)
        case _ => Reader() == old(Reader())
    {
      if line[0] == ':' { return; }
      var field, value := SplitField(line);
      if field == "data" {
        pendingData := pendingData + [value];
      } else if field == "event" {
        pendingEvent := value;
      } else if field == "id" {
        if '\0' !in value { pendingID := Some(value); }
      } else if field == "retry" {
        var ms := ParseInt64(value);
        if ms.Some? && ms.value >= 0 { retry := Wrap64(ms.value * 1_000_000); }
      }
    }

    /** One response body; `failed` tells a read error, the scanner's own included. */
    method Read(text: string, ending: Ending) returns (failed: bool)
      requires cfg.sdk.Go?
      modifies this`cursor, this`retry, this`maxSequence, this`pendingEvent, this`pendingData, this`pendingID,
               this`frames, this`terminal, this`sent
      ensures Reader() == ReadBody(cfg, Open(old(Across())), text, ending)
      ensures !terminal ==> failed == Reading.Failed(Go, text, ending)
    {
      pendingData, pendingEvent, pendingID, frames, terminal := [], "message", None, 0, false;
      ghost var r := Open(old(Across()));
      assert Reader() == r;
      var lines := ScanLines(text);
      var i, tooLong := 0, false;
      assert lines[0..] == lines;
      while i < |lines|
        invariant 0 <= i <= |lines| && !terminal && !tooLong
        invariant TakeAll(cfg, Reader(), Scannable(lines[i..])) == TakeAll(cfg, r, Scannable(lines))
        invariant Scannable(lines[i..]) == lines[i..] <==> Scannable(lines) == lines
      {
        Next(lines, i);
        if !Fits(lines[i]) {
          tooLong := true;
          break;
        }
        ghost var before, later := Reader(), Scannable(lines[i + 1..]);
        assert Scannable(lines[i..])[0] == lines[i] && Scannable(lines[i..])[1..] == later;
        var line := TrimAll(lines[i]);
        if line == "" {
          Flush();
          assert Reader() == Take(cfg, before, lines[i]);
          if terminal {
            TakeAllStops(cfg, Reader(), later);
            return false;
          }
        } else {
          TakeField(line);
          assert Reader() == Take(cfg, before, lines[i]);
        }
        i := i + 1;
      }
      Flush();
      failed := ending.Dropped? || tooLong;
    }

    /** The wait before the next connect: the retry delay, or after failures its doublings up to the cap. */
    method NextWait(failed: bool, retryAfterNext: Option<nat>, lived: nat, ghost settled: (Stream, Verdict))
      returns (verdict: Verdict)
      requires cfg.sdk.Go? && Undecided(settled, failed, retryAfterNext, lived)
      modifies this`failures
      ensures settled == (Across(), verdict)
    {
      var failure := failed;
      if !failure && frames == 0 {
        if cfg.runStream && lived < BOUNDED_CLOSE_FLOOR_MS { return End; }
        if !cfg.runStream && lived < QUICK_CLOSE_MS { failure := true; }
      }
      var wait := retry;
      if !failure || frames > 0 {
        failures := 0;
      } else {
        failures := failures + 1;
        if failures > policy.value.maxAttempts { return Fail; }
        if wait <= 0 { wait := 1_000_000; }
        ghost var first := wait;
        var i := 1;
        while i < failures && wait < policy.value.maxDelay
          invariant 1 <= i <= failures
          invariant
            Doubled(wait, failures - i, policy.value.maxDelay) == Doubled(first, failures - 1, policy.value.maxDelay)
        {
          wait := Wrap64(wait * 2);
          i := i + 1;
        }
        if wait > policy.value.maxDelay { wait := policy.value.maxDelay; }
      }
      if retryAfterNext.Some? && Duration(Go, retryAfterNext.value) > wait {
        wait := Duration(Go, retryAfterNext.value);
      }
      verdict := Wait(wait);
    }

    ghost function Decision(failed: bool, retryAfterNext: Option<nat>, lived: nat): (Control, Verdict)
      requires policy.Some?
      reads this
    {
      Decide(Go, cfg.runStream, policy.value, Control(), frames, failed, retryAfterNext, lived)
    }

    /** What is left of an attempt is the decision on what it brought. */
    ghost predicate Undecided(settled: (Stream, Verdict), failed: bool, retryAfterNext: Option<nat>, lived: nat)
      reads this
    {
      && policy.Some? && connected
      && var (c, v) := Decision(failed, retryAfterNext, lived);
         settled == (Across().(control := c), v)
    }

    /** Consumes an open connection; a success without a body reads as an empty one. */
    method Serve(a: Attempt) returns (ended: bool, failure: bool, lived: nat)
      requires cfg.sdk.Go? && Opens(a.net) && !a.before
      modifies this
      ensures ended ==> Step(cfg, policy, old(Across()), a) == (Across(), End)
      ensures !ended ==> Undecided(Step(cfg, policy, old(Across()), a), failure, None, lived)
    {
      lived := a.net.lived;
      StepOfOpen(cfg, policy, Across(), a);
      failure := Read(BodyText(a.net), BodyEnding(a.net));
      connected := true;
      ended := terminal || a.after || policy.None?;
    }

    /** A wait that was aborted or a connect that failed: the stream is over, or the failure is to be waited out. */
    method Refuse(a: Attempt) returns (over: Option<Verdict>, retryAfterNext: Option<nat>)
      requires cfg.sdk.Go? && policy.Some? && connected && (a.before || !Opens(a.net)) && frames == 0
      ensures over.Some? ==> Step(cfg, policy, Across(), a) == (Across(), over.value) && !over.value.Wait?
      ensures over.None? ==> Undecided(Step(cfg, policy, Across(), a), true, retryAfterNext, 0)
    {
      over, retryAfterNext := None, None;
      if a.before || a.after { return Some(End), None; }
      if a.net.Refusal? {
        if a.net.status !in RETRYABLE_STATUSES { return Some(Fail), None; }
        retryAfterNext := a.net.retryAfter;
      }
    }

    /** The script is played out: nothing is left to do or to say. */
    ghost predicate Over(run: Run, acts: seq<Act>)
      reads this
    {
      Across() == run.stream && acts == run.acts
    }

    /** The program is about to read the connection that attempt `i` opened. */
    ghost predicate AtBody(script: seq<Attempt>, run: Run, past: seq<Act>, acts: seq<Act>, i: nat)
      reads this
    {
      && i < |script| && Opens(script[i].net) && !script[i].before
      && acts == past + [Act.Connect(Header(Some(cursor)))]
      && Continues(cfg, policy, script, run, past, Across(), i)
    }

    /** The first half of a turn of the inner loop: the decision, and the wait before the next connect. */
    method Pause(script: seq<Attempt>, i: nat, before: seq<Act>, failed: bool, retryAfterNext: Option<nat>, lived: nat,
                 ghost run: Run, ghost settled: (Stream, Verdict))
      returns (acts: seq<Act>, over: bool)
      requires cfg.sdk.Go? && i < |script|
      requires Undecided(settled, failed, retryAfterNext, lived)
      requires Awaits(cfg, policy, script, run, before, settled, i)
      modifies this`failures
      ensures over ==> Over(run, acts)
      ensures !over ==> i + 1 < |script| && Continues(cfg, policy, script, run, acts, Across(), i + 1)
    {
      var verdict := NextWait(failed, retryAfterNext, lived, settled);
      VerdictReached(cfg, policy, script, run, before, Across(), verdict, i);
      acts := before + [ActOf(verdict)];
      over := !verdict.Wait? || i + 1 == |script|;
    }

    /** The second half: the next connect. It is open, or the stream is over, or there is a failure to decide on. */
    method Redial(script: seq<Attempt>, i: nat, past: seq<Act>, ghost run: Run)
      returns (acts: seq<Act>, open: bool, over: bool, retryAfterNext: Option<nat>, ghost settled: (Stream, Verdict))
      requires cfg.sdk.Go? && i < |script| && policy.Some? && connected
      requires Continues(cfg, policy, script, run, past, Across(), i)
      modifies this`frames
      ensures open ==> !over && AtBody(script, run, past, acts, i)
      ensures over ==> Over(run, acts)
      ensures !open && !over ==>
                Undecided(settled, true, retryAfterNext, 0) && Awaits(cfg, policy, script, run, acts, settled, i)
    {
      settled := Step(cfg, policy, Across(), script[i]);
      PlayOn(cfg, policy, script, run, past, Across(), i);
      acts, over, retryAfterNext := past, false, None;
      if !script[i].before { acts := acts + [Act.Connect(Header(Some(cursor)))]; }
      open := Opens(script[i].net) && !script[i].before;
      if !open {
        assert acts == past + Dial(Across(), script[i]);
        frames := 0;
        var refused;
        refused, retryAfterNext := Refuse(script[i]);
        if refused.Some? {
          VerdictReached(cfg, policy, script, run, acts, Across(), refused.value, i);
          acts, over := acts + [ActOf(refused.value)], true;
        }
      }
    }

    /** The inner loop: decide, wait and connect again, until a connect succeeds or the stream is over. */
    method Reconnect(script: seq<Attempt>, start: nat, before: seq<Act>, failed: bool, livedFor: nat,
                     ghost run: Run, ghost first: (Stream, Verdict))
      returns (acts: seq<Act>, i: nat, open: bool, ghost past: seq<Act>)
      requires cfg.sdk.Go? && start < |script|
      requires Undecided(first, failed, None, livedFor)
      requires Awaits(cfg, policy, script, run, before, first, start)
      modifies this`failures, this`frames
      ensures open ==> start < i && AtBody(script, run, past, acts, i)
      ensures !open ==> Over(run, acts)
    {
      ghost var settled := first;
      acts, i, past, open := before, start, [], false;
      var failure, retryAfterNext: Option<nat>, lived, over := failed, None, livedFor, false;
      while !open
        invariant start <= i < |script|
        invariant open ==> start < i && AtBody(script, run, past, acts, i)
        invariant !open ==> Undecided(settled, failure, retryAfterNext, lived)
        invariant !open ==> Awaits(cfg, policy, script, run, acts, settled, i)
        decreases |script| - i, !open
      {
        acts, over := Pause(script, i, acts, failure, retryAfterNext, lived, run, settled);
        if over { return; }
        i, past := i + 1, acts;
        acts, open, over, retryAfterNext, settled := Redial(script, i, acts, run);
        if over { return; }
        failure, lived := true, 0;
      }
    }

    /** The first connect fails fast. */
    method FirstConnect(a: Attempt) returns (acts: seq<Act>, open: bool)
      requires cfg.sdk.Go? && !connected
      ensures acts == Dial(Across(), a) + (if open then [] else [Broke])
      ensures open <==> Opens(a.net) && !a.before
      ensures !open ==> Step(cfg, policy, Across(), a) == (Across(), Fail)
    {
      if a.before { return [Broke], false; }
      acts := [Act.Connect(Header(Some(cursor)))];
      open := Opens(a.net);
      if !open { acts := acts + [Broke]; }
    }

    /**
     * The first connect, then an outer loop that reads one connection a turn and leaves it to the inner
     * loop to get the next. Together the two loops are the single loop of `Play`.
     */
    method StreamSSE(script: seq<Attempt>) returns (acts: seq<Act>)
      requires cfg.sdk.Go? && !connected
      modifies this
      ensures
        var run := Play(cfg, policy, old(Across()), script);
        Across() == run.stream && acts == run.acts
    {
      ghost var run := Play(cfg, policy, Across(), script);
      acts := [];
      if |script| == 0 { return; }
      var open;
      assert script[0..] == script;
      ghost var past: seq<Act> := [];
      PlayOn(cfg, policy, script, run, past, Across(), 0);
      acts, open := FirstConnect(script[0]);
      if !open { return; }
      var i := 0;
      while true
        invariant 0 <= i < |script| && AtBody(script, run, past, acts, i)
        decreases |script| - i
      {
        ghost var settled := Step(cfg, policy, Across(), script[i]);
        PlayOn(cfg, policy, script, run, past, Across(), i);
        var ended, failure, lived := Serve(script[i]);
        if ended { return acts + [Ended]; }
        acts, i, open, past := Reconnect(script, i, acts, failure, lived, run, settled);
        if !open { return; }
      }
    }
  }

  /** Version 1 has flushed these frames, holds this one pending and still has the lines from `i` on to read. */
  ghost predicate ToFlush(text: string, flushed: seq<Frame>, pending: Frame, rest: seq<string>) {
    var a := Assemble(Go, pending, 0, rest);
    FlushedFrames(text) == flushed + (a.frames + [a.pending])
  }

  lemma ToFlushStep(text: string, flushed: seq<Frame>, pending: Frame, rest: seq<string>)
    requires rest != [] && ToFlush(text, flushed, pending, rest)
    ensures
      match ReadLine(TrimAll(rest[0]))
      case Blank => ToFlush(text, flushed + [pending], FRESH, rest[1..])
      case Comment => ToFlush(text, flushed, pending, rest[1..])
      case Field(name, value) => ToFlush(text, flushed, Absorb(pending, name, value), rest[1..])
  {
    match ReadLine(TrimAll(rest[0]))
    case Blank =>
      var a := Assemble(Go, FRESH, 0, rest[1..]);
      Assoc([pending], a.frames, [a.pending]);
      Assoc(flushed, [pending], a.frames + [a.pending]);
    case Comment =>
    case Field(name, value) =>
      RetryIrrelevant(Go, Absorb(pending, name, value), Retry(Go, 0, name, value), 0, rest[1..]);
  }

  /** Version 1: one connection, no guard and no cursor; `id` and `retry` lines are ignored. */
  class EventStreamV1 {
    const cfg: Config
    var pendingData: seq<string>
    var pendingEvent: string
    var sent: seq<Value>

    constructor (cfg: Config)
      requires cfg.sdk.Go?
      ensures this.cfg == cfg && pendingData == [] && pendingEvent == "message" && sent == []
    {
      this.cfg, pendingData, pendingEvent, sent := cfg, [], "message", [];
    }

    method SendOne(doc: Value)
      requires cfg.sdk.Go?
      modifies this`sent
      ensures sent == old(sent) + Accepted(cfg, [doc])
    {
      if cfg.decode(doc) { sent := sent + [doc]; }
    }

    method Flush()
      requires cfg.sdk.Go?
      modifies this
      ensures Frame(pendingEvent, pendingData, None) == FRESH
      ensures sent == old(sent) + Accepted(cfg, Documents(cfg, Frame(old(pendingEvent), old(pendingData), None)))
    {
      if |pendingData| == 0 {
        pendingEvent := "message";
        return;
      }
      var parsed := cfg.parse(Join(pendingData, "\n"));
      var eventType := pendingEvent;
      pendingData, pendingEvent := [], "message";
      if parsed.None? { return; }
      if eventType == "batch" && (parsed.value.Array? || parsed.value.Null?) {
        var batch := if parsed.value.Array? then parsed.value.items else [];
        for i := 0 to |batch|
          invariant pendingData == [] && pendingEvent == "message"
          invariant sent + Accepted(cfg, batch[i..]) == old(sent) + Accepted(cfg, batch)
        {
          AcceptedNext(cfg, batch, i);
          Assoc(sent, Accepted(cfg, [batch[i]]), Accepted(cfg, batch[i + 1..]));
          SendOne(batch[i]);
        }
        return;
      }
      SendOne(parsed.value);
    }

    method TakeField(line: string)
      requires line != ""
      modifies this`pendingData, this`pendingEvent
      ensures
        var before, after := Frame(old(pendingEvent), old(pendingData), None), Frame(pendingEvent, pendingData, None);
        match ReadLine(line)
        case Field(name, value) => after == Absorb(before, name, value).(id := None)
        case _ => after == before
    {
      if line[0] == ':' { return; }
      var field, value := SplitField(line);
      if field == "data" {
        pendingData := pendingData + [value];
      } else if field == "event" {
        pendingEvent := value;
      }
    }

    /** One turn of the line loop; `pending` is the frame with the id that version 1 does not keep. */
    method TakeLine(raw: string, ghost pending: Frame)
      requires cfg.sdk.Go? && pending.event == pendingEvent && pending.data == pendingData
      modifies this
      ensures
        match ReadLine(TrimAll(raw))
        case Blank =>
          && pendingEvent == "message" && pendingData == []
          && sent == old(sent) + Accepted(cfg, Documents(cfg, pending))
        case Comment => pendingEvent == pending.event && pendingData == pending.data && sent == old(sent)
        case Field(name, value) =>
          var p := Absorb(pending, name, value);
          pendingEvent == p.event && pendingData == p.data && sent == old(sent)
    {
      var line := TrimAll(raw);
      if line == "" {
        Flush();
      } else {
        TakeField(line);
      }
    }

    method StreamEvents(text: string)
      requires cfg.sdk.Go? && pendingData == [] && pendingEvent == "message" && sent == []
      modifies this
      ensures sent == ReadV1(cfg, text)
    {
      var lines := Scannable(ScanLines(text));
      ghost var pending, flushed := FRESH, [];
      assert lines[0..] == lines;
      for i := 0 to |lines|
        invariant pending.event == pendingEvent && pending.data == pendingData
        invariant sent == Accepted(cfg, AllDocuments(cfg, flushed))
        invariant ToFlush(text, flushed, pending, lines[i..])
      {
        Next(lines, i);
        ToFlushStep(text, flushed, pending, lines[i..]);
        AllDocumentsSnoc(cfg, flushed, pending);
        TakeLine(lines[i], pending);
        match ReadLine(TrimAll(lines[i])) {
          case Blank => flushed, pending := flushed + [pending], FRESH;
          case Comment =>
          case Field(name, value) => pending := Absorb(pending, name, value);
        }
      }
      assert lines[|lines|..] == [] && FlushedFrames(text) == flushed + [pending];
      AllDocumentsSnoc(cfg, flushed, pending);
      Flush();
    }
  }
}
