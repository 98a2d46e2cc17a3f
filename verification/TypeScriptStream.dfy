/** `streamSse` of the TypeScript SDK: its fields, its loops, and the specification they meet. */
module TypeScriptStream {
  import opened Json
  import opened Seqs
  import opened Lines
  import opened Numbers
  import opened Frames
  import opened Delivery
  import opened Reading
  import opened Controller
  import opened Session

  class EventStream {
    const cfg: Config
    const policy: Option<Policy>

    // Kept across connections.
    var cursor: Option<string>
    var retryMs: int
    var failures: nat
    var established: bool
    var maxSequence: int

    // Of the current connection.
    var buffer: string
    var pendingEvent: string
    var pendingData: seq<string>
    var pendingId: Option<string>
    var frames: nat
    var terminal: bool

    // What has been yielded to the caller.
    var yielded: seq<Value>

    constructor (cfg: Config, policy: Option<Policy>, lastEventId: Option<string>)
      requires cfg.sdk.TypeScript?
      ensures this.cfg == cfg && this.policy == policy && Across() == Start(lastEventId, TypeScript, policy)
    {
      this.cfg, this.policy := cfg, policy;
      cursor := lastEventId;
      retryMs := if policy.Some? then policy.value.delay else 0;
      failures, established, maxSequence := 0, false, -1;
      buffer, pendingEvent, pendingData, pendingId := "", "message", [], None;
      frames, terminal, yielded := 0, false, [];
    }

    ghost function Control(): Control
      reads this
    {
      Controller.Control.Control(established, failures, retryMs)
    }

    ghost function Across(): Stream
      reads this
    {
      Stream(Control(), cursor, maxSequence, yielded)
    }

    ghost function Reader(): Reader
      reads this
    {
      Reading.Reader.Reader(Frame(pendingEvent, pendingData, pendingId), retryMs,
                            Feed(cursor, maxSequence, frames, terminal, yielded))
    }

    ghost function Fed(out: seq<Value>): Feed
      reads this
    {
      Feed(cursor, maxSequence, frames, terminal, yielded + out)
    }

    /** The loop over a frame's documents: the duplicate guard and the terminal test. */
    method Collect(eventName: string, docs: seq<Value>) returns (out: seq<Value>)
      requires cfg.sdk.TypeScript?
      modifies this`maxSequence, this`terminal
      ensures Fed(out) == SendAll(cfg, old(Fed([])), eventName, docs)
    {
      out := [];
      ghost var goal := SendAll(cfg, Fed([]), eventName, docs);
      assert docs[0..] == docs;
      for i := 0 to |docs|
        invariant SendAll(cfg, Fed(out), eventName, docs[i..]) == goal
      {
        var doc := docs[i];
        ghost var f := Fed(out);
        Next(docs, i);
        var sequence := Sequence(doc);
        if cfg.runStream && sequence.Some? {
          if sequence.value <= maxSequence { continue; }
          maxSequence := sequence.value;
        }
        if cfg.runStream && IsRunTerminalFrame(eventName, doc) { terminal := true; }
        Assoc(yielded, out, [doc]);
        out := out + [doc];
        assert Fed(out) == Send(cfg, f, eventName, doc);
      }
    }

    /** Turns the pending frame into documents, which the caller of this method yields; moves the cursor. */
    method Flush() returns (out: seq<Value>)
      requires cfg.sdk.TypeScript? && !terminal
      modifies this`cursor, this`maxSequence, this`pendingEvent, this`pendingData, this`pendingId, this`frames,
               this`terminal
      ensures Frame(pendingEvent, pendingData, pendingId) == FRESH
      ensures Fed(out) == Deliver(cfg, old(Reader()).feed, old(Reader()).pending)
    {
      var eventName, id, data := pendingEvent, pendingId, pendingData;
      pendingEvent, pendingData, pendingId := "message", [], None;
      if id.Some? { cursor := id; }
      out := [];
      assert yielded + out == yielded;
      if |data| == 0 { return; }
      var parsed := cfg.parse(Join(data, "\n"));
      if parsed.None? { return; }
      frames := frames + 1;
      assert Fed([]) == Commit(cfg, old(Reader()).feed, old(Reader()).pending);
      var docs := if eventName == "batch" && parsed.value.Array? then parsed.value.items else [parsed.value];
      out := Collect(eventName, docs);
    }

    /** One line that is not blank: a comment or a field. */
    method TakeField(rawLine: string)
      requires cfg.sdk.TypeScript? && !terminal && rawLine != ""
      modifies this`pendingEvent, this`pendingData, this`pendingId, this`retryMs
      ensures
        match ReadLine(rawLine)
        case Field(name, value) =>
          Reader() == Reading.Reader.Reader(Absorb(old(Reader()).pending, name, value),
                                            Retry(TypeScript, old(retryMs), name, value), old(Reader()).feed)
        case _ => Reader() == old(Reader())
    {
      if rawLine[0] == ':' { return; }
      var field, value := SplitField(rawLine);
      if field == "event" {
        pendingEvent := value;
      } else if field == "data" {
        pendingData := pendingData + [value];
      } else if field == "id" {
        if '\0' !in value { pendingId := Some(value); }
      } else if field == "retry" {
        if AllDigits(value) { retryMs := Decimal(value); }
      }
    }

    /** One chunk: every line it finishes is taken, and the loop stops for good at a terminal frame. */
    method ReadChunk(value: string)
      requires cfg.sdk.TypeScript? && !terminal
      modifies this`cursor, this`retryMs, this`maxSequence, this`buffer, this`pendingEvent, this`pendingData,
               this`pendingId, this`frames, this`terminal, this`yielded
      ensures Reader() == TakeAll(cfg, old(Reader()), Cut(old(buffer) + value))
      ensures !terminal ==> buffer == Rest(old(buffer) + value)
    {
      ghost var goal := TakeAll(cfg, Reader(), Cut(buffer + value));
      buffer := buffer + value;
      var nlIdx := IndexOf(buffer, '\n');
      while nlIdx < |buffer|
        invariant nlIdx == IndexOf(buffer, '\n') && !terminal
        invariant TakeAll(cfg, Reader(), Cut(buffer)) == goal
        invariant Rest(buffer) == Rest(old(buffer) + value)
        decreases |buffer|
      {
        ghost var r, raws := Reader(), Cut(buffer);
        var rawLine := TrimOne(buffer[..nlIdx]);
        assert raws[0] == buffer[..nlIdx] && raws[1..] == Cut(buffer[nlIdx + 1..]);
        buffer := buffer[nlIdx + 1..];
        nlIdx := IndexOf(buffer, '\n');
        if rawLine == "" {
          var events := Flush();
          yielded := yielded + events;
          assert Reader() == Take(cfg, r, raws[0]);
          if terminal {
            TakeAllStops(cfg, Reader(), Cut(buffer));
            return;
          }
        } else {
          TakeField(rawLine);
          assert Reader() == Take(cfg, r, raws[0]);
        }
      }
    }

    /** One response body, in whatever chunks it arrives. */
    method ReadResponse(chunks: seq<string>, ending: Ending)
      requires cfg.sdk.TypeScript?
      modifies this`cursor, this`retryMs, this`maxSequence, this`buffer, this`pendingEvent, this`pendingData,
               this`pendingId, this`frames, this`terminal, this`yielded
      ensures Reader() == ReadBody(cfg, Open(old(Across())), Concat(chunks), ending) || terminal
      ensures Reader().feed == ReadBody(cfg, Open(old(Across())), Concat(chunks), ending).feed
      ensures retryMs == ReadBody(cfg, Open(old(Across())), Concat(chunks), ending).retry
    {
      buffer, pendingEvent, pendingData, pendingId, frames, terminal := "", "message", [], None, 0, false;
      ghost var r := Open(old(Across()));
      assert Reader() == r;
      for i := 0 to |chunks|
        invariant !terminal && ReadChunks(cfg, Reader(), buffer, chunks[i..]) == ReadChunks(cfg, r, "", chunks)
      {
        Next(chunks, i);
        ReadChunk(chunks[i]);
        if terminal { break; }
      }
      ChunkingIndependence(cfg, r, "", chunks);
      assert "" + Concat(chunks) == Concat(chunks);
      if terminal || ending.Dropped? { return; }
      var final := Flush();
      yielded := yielded + final;
    }

    /** The reconnect decision after an attempt that did not end the stream by itself. */
    method Reconnect(p: Policy, failed: bool, retryAfter: Option<nat>, lived: nat) returns (verdict: Verdict)
      requires cfg.sdk.TypeScript?
      modifies this`failures
      ensures (Control(), verdict) ==
              Decide(TypeScript, cfg.runStream, p, old(Control()), frames, failed, retryAfter, lived)
    {
      var failure := failed;
      if !failure && frames == 0 {
        if cfg.runStream && lived < BOUNDED_CLOSE_FLOOR_MS { return End; }
        if !cfg.runStream && lived < QUICK_CLOSE_MS { failure := true; }
      }
      var delay := retryMs;
      if !failure || frames > 0 {
        failures := 0;
      } else {
        failures := failures + 1;
        if failures > p.maxAttempts { return Fail; }
        delay := Min(p.maxDelay, Max(retryMs, 1) * Pow2(failures - 1));
      }
      if retryAfter.Some? { delay := Max(delay, retryAfter.value); }
      verdict := Wait(delay);
    }

    /** One turn of the outer loop. */
    method Connect(a: Attempt, chunks: seq<string>) returns (verdict: Verdict)
      requires cfg.sdk.TypeScript? && (a.net.Body? ==> Concat(chunks) == a.net.text)
      modifies this
      ensures (Across(), verdict) == Step(cfg, policy, old(Across()), a)
    {
      if a.before { return End; }
      frames, terminal := 0, false;
      match a.net
      case Silence =>
        if a.after { return End; }
        if policy.None? || !established { return Fail; }
        verdict := Reconnect(policy.value, true, None, 0);
      case Refusal(status, retryAfter) =>
        if policy.None? || !established || (status != 0 && status !in RETRYABLE_STATUSES) { return Fail; }
        if a.after { return End; }
        verdict := Reconnect(policy.value, true, retryAfter, 0);
      case Bodiless(_) =>
        return Fail;
      case Body(text, ending, lived) =>
        established := true;
        ReadResponse(chunks, ending);
        if terminal { return End; }
        if ending.Dropped? {
          if a.after { return End; }
          if policy.None? { return Fail; }
        }
        if policy.None? || a.after { return End; }
        verdict := Reconnect(policy.value, ending.Dropped?, None, lived);
    }

    /** The whole stream, on a network that behaves as the script says and cuts each body as `cuts` says. */
    method StreamSse(script: seq<Attempt>, cuts: seq<seq<string>>) returns (acts: seq<Act>)
      requires cfg.sdk.TypeScript? && |cuts| == |script|
      requires forall i | 0 <= i < |script| && script[i].net.Body? :: Concat(cuts[i]) == script[i].net.text
      modifies this
      ensures
        var run := Play(cfg, policy, old(Across()), script);
        Across() == run.stream && acts == run.acts
    {
      ghost var run := Play(cfg, policy, Across(), script);
      acts := [];
      assert script[0..] == script;
      for i := 0 to |script|
        invariant Continues(cfg, policy, script, run, acts, Across(), i)
      {
        PlayOn(cfg, policy, script, run, acts, Across(), i);
        if !script[i].before { acts := acts + [Act.Connect(Header(cursor))]; }
        var verdict := Connect(script[i], cuts[i]);
        acts := acts + [ActOf(verdict)];
        if !verdict.Wait? { return; }
      }
    }
  }
}
