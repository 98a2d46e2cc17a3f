/** Reading one connection: the line loop, the early return on a terminal frame and the final flush. */
module Reading {
  import opened Seqs
  import opened Lines
  import opened Frames
  import opened Delivery

  datatype Reader = Reader(pending: Frame, retry: int, feed: Feed)

  /** How a response body stops: a clean close, or a read error. */
  datatype Ending = Closed | Dropped

  /** A blank line, or the end of the body, hands the pending frame over. */
  function Flush(cfg: Config, r: Reader): Reader {
    Reader(FRESH, r.retry, Deliver(cfg, r.feed, r.pending))
  }

  function Take(cfg: Config, r: Reader, raw: string): Reader {
    if r.feed.terminal then r
    else
      match ReadLine(Trim(cfg.sdk, raw))
      case Blank => Flush(cfg, r)
      case Comment => r
      case Field(name, value) =>
        Reader(Absorb(r.pending, name, value), Retry(cfg.sdk, r.retry, name, value), r.feed)
  }

  function TakeAll(cfg: Config, r: Reader, raws: seq<string>): Reader
    decreases |raws|
  {
    if raws == [] then r else TakeAll(cfg, Take(cfg, r, raws[0]), raws[1..])
  }

  /** The lines that reach the interpreter: TypeScript leaves an unfinished last line in its buffer. */
  function Raws(sdk: Sdk, text: string): seq<string> {
    match sdk
    case TypeScript => Cut(text)
    case Go => Scannable(ScanLines(text))
  }

  /** Go reports a line its scanner cannot hold as a read error. */
  predicate Failed(sdk: Sdk, text: string, ending: Ending) {
    ending.Dropped? || (sdk.Go? && Scannable(ScanLines(text)) != ScanLines(text))
  }

  /** TypeScript skips the final flush when the read fails; Go flushes whatever happened. */
  predicate FlushesAtEnd(sdk: Sdk, ending: Ending) {
    sdk.Go? || ending.Closed?
  }

  function ReadBody(cfg: Config, r: Reader, text: string, ending: Ending): Reader {
    var last := TakeAll(cfg, r, Raws(cfg.sdk, text));
    if last.feed.terminal || !FlushesAtEnd(cfg.sdk, ending) then last else Flush(cfg, last)
  }

  lemma {:induction false} TakeAllConcat(cfg: Config, r: Reader, a: seq<string>, b: seq<string>)
    ensures TakeAll(cfg, r, a + b) == TakeAll(cfg, TakeAll(cfg, r, a), b)
    decreases |a|
  {
    if a == [] {
      Nil(b);
    } else {
      ConcatTail(a, b);
      TakeAllConcat(cfg, Take(cfg, r, a[0]), a[1..], b);
    }
  }

  lemma {:induction false} TakeAllStops(cfg: Config, r: Reader, raws: seq<string>)
    requires r.feed.terminal
    ensures TakeAll(cfg, r, raws) == r
    decreases |raws|
  {
    if raws != [] { TakeAllStops(cfg, r, raws[1..]); }
  }

  /** The one-pass line loop is frame assembly followed by delivery up to the terminal frame. */
  lemma {:induction false} TakeAllFactors(cfg: Config, r: Reader, raws: seq<string>)
    ensures
      var a := Assemble(cfg.sdk, r.pending, r.retry, raws);
      var last := TakeAll(cfg, r, raws);
      && last.feed == DeliverAll(cfg, r.feed, a.frames)
      && (!last.feed.terminal ==> last.pending == a.pending && last.retry == a.retry)
    decreases |raws|
  {
    if r.feed.terminal {
      TakeAllStops(cfg, r, raws);
    } else if raws != [] {
      TakeAllFactors(cfg, Take(cfg, r, raws[0]), raws[1..]);
    }
  }

  /** The retry delay in force changes nothing but itself. */
  lemma {:induction false} TakeAllIgnoresRetry(cfg: Config, r: Reader, raws: seq<string>, retry: int)
    ensures
      var a, b := TakeAll(cfg, r, raws), TakeAll(cfg, r.(retry := retry), raws);
      a.feed == b.feed && a.pending == b.pending
    decreases |raws|
  {
    if raws != [] {
      var a, b := Take(cfg, r, raws[0]), Take(cfg, r.(retry := retry), raws[0]);
      assert b == a.(retry := b.retry);
      TakeAllIgnoresRetry(cfg, a, raws[1..], b.retry);
    }
  }

  lemma ReadBodyIgnoresRetry(cfg: Config, r: Reader, text: string, ending: Ending, retry: int)
    ensures ReadBody(cfg, r, text, ending).feed == ReadBody(cfg, r.(retry := retry), text, ending).feed
  {
    TakeAllIgnoresRetry(cfg, r, Raws(cfg.sdk, text), retry);
  }

  // ----- The completed frames and the last one -----

  /** The finished lines that reach the interpreter. */
  function Whole(sdk: Sdk, text: string): (raws: seq<string>)
    ensures raws <= Cut(text)
  {
    ScannablePrefix(Cut(text));
    match sdk
    case TypeScript => Cut(text)
    case Go => Scannable(Cut(text))
  }

  /** Every finished line fits the scanner; TypeScript has none. */
  predicate FitsScanner(sdk: Sdk, text: string) {
    sdk.Go? ==> Scannable(Cut(text)) == Cut(text)
  }

  /** The finished lines all reach the interpreter exactly when they fit. */
  lemma WholeIsCut(sdk: Sdk, text: string)
    ensures Whole(sdk, text) == Cut(text) <==> FitsScanner(sdk, text)
    ensures |Whole(sdk, text)| == |Cut(text)| <==> FitsScanner(sdk, text)
  {
    if |Whole(sdk, text)| == |Cut(text)| {
      assert Whole(sdk, text) == Cut(text)[..|Whole(sdk, text)|];
    }
  }

  /** An unfinished last line that is taken for a line: Go does so with one that fits. */
  function Tail(sdk: Sdk, text: string): seq<string> {
    if sdk.Go? && Scannable(Cut(text)) == Cut(text) && Rest(text) != "" && Fits(Rest(text)) then [Rest(text)] else []
  }

  lemma RawsSplit(sdk: Sdk, text: string)
    ensures Raws(sdk, text) == Whole(sdk, text) + Tail(sdk, text)
  {
    var lines, rest := Cut(text), Rest(text);
    Nil(lines);
    Nil(Whole(sdk, text));
    if sdk.Go? && rest != "" {
      ScannableConcat(lines, [rest]);
      Cons(rest, []);
      Nil([rest]);
    }
  }

  /** The frame that is pending when a body ends, its unfinished last line included. */
  function LastFrame(sdk: Sdk, text: string): Frame {
    var p := PendingOf(sdk, Whole(sdk, text));
    if Tail(sdk, text) == [] then p
    else
      match ReadLine(Trim(sdk, Tail(sdk, text)[0]))
      case Field(name, value) => Absorb(p, name, value)
      case _ => p
  }

  /** The feed once the frames that the body completes have been delivered. */
  function Completed(cfg: Config, f: Feed, text: string): Feed {
    DeliverAll(cfg, f, FramesOf(cfg.sdk, Whole(cfg.sdk, text)))
  }

  /** The connection ends without the last frame being flushed. */
  predicate Unflushed(cfg: Config, f: Feed, text: string, ending: Ending) {
    Completed(cfg, f, text).terminal || !FlushesAtEnd(cfg.sdk, ending)
  }

  lemma TakeWhole(cfg: Config, r: Reader, text: string)
    requires r.pending == FRESH
    ensures
      var whole := TakeAll(cfg, r, Whole(cfg.sdk, text));
      && whole.feed == Completed(cfg, r.feed, text)
      && (!whole.feed.terminal ==> whole.pending == PendingOf(cfg.sdk, Whole(cfg.sdk, text)))
  {
    TakeAllFactors(cfg, r, Whole(cfg.sdk, text));
    RetryIrrelevant(cfg.sdk, FRESH, r.retry, 0, Whole(cfg.sdk, text));
  }

  /** A connection delivers the frames its finished lines complete, then the last one if it is flushed. */
  lemma BodySplits(cfg: Config, r: Reader, text: string, ending: Ending)
    requires r.pending == FRESH
    ensures
      var f := Completed(cfg, r.feed, text);
      ReadBody(cfg, r, text, ending).feed ==
      if Unflushed(cfg, r.feed, text, ending) then f else Deliver(cfg, f, LastFrame(cfg.sdk, text))
  {
    var whole, tail := TakeAll(cfg, r, Whole(cfg.sdk, text)), Tail(cfg.sdk, text);
    TakeWhole(cfg, r, text);
    RawsSplit(cfg.sdk, text);
    TakeAllConcat(cfg, r, Whole(cfg.sdk, text), tail);
    if whole.feed.terminal {
      TakeAllStops(cfg, whole, tail);
    } else if tail != [] {
      Cons(tail[0], []);
      var g := Flush(cfg, whole);
      DeliverIdle(cfg, g.feed, g.pending);
    }
  }

  /** The frames a body hands over unless one of them ends the run. */
  function FramesRead(sdk: Sdk, text: string, ending: Ending): seq<Frame> {
    FramesOf(sdk, Whole(sdk, text)) + (if FlushesAtEnd(sdk, ending) then [LastFrame(sdk, text)] else [])
  }

  lemma BodyIsFrames(cfg: Config, r: Reader, text: string, ending: Ending)
    requires r.pending == FRESH
    ensures ReadBody(cfg, r, text, ending).feed == DeliverAll(cfg, r.feed, FramesRead(cfg.sdk, text, ending))
  {
    var frames, last := FramesOf(cfg.sdk, Whole(cfg.sdk, text)), LastFrame(cfg.sdk, text);
    BodySplits(cfg, r, text, ending);
    DeliverAllConcat(cfg, r.feed, frames, [last]);
    Nil(frames);
    Cons(last, []);
  }

  // ----- Chunking -----

  /** The TypeScript loop: each chunk is appended to the buffer, then every finished line is taken. */
  function ReadChunks(cfg: Config, r: Reader, buffer: string, chunks: seq<string>): Reader
    decreases |chunks|
  {
    if chunks == [] || r.feed.terminal then r
    else
      var text := buffer + chunks[0];
      ReadChunks(cfg, TakeAll(cfg, r, Cut(text)), Rest(text), chunks[1..])
  }

  function Concat(chunks: seq<string>): string {
    if chunks == [] then "" else chunks[0] + Concat(chunks[1..])
  }

  /** However the text is cut into chunks, the same lines are taken and the same state is reached. */
  lemma {:induction false} ChunkingIndependence(cfg: Config, r: Reader, buffer: string, chunks: seq<string>)
    requires Cut(buffer) == []
    ensures ReadChunks(cfg, r, buffer, chunks) == TakeAll(cfg, r, Cut(buffer + Concat(chunks)))
    decreases |chunks|
  {
    if r.feed.terminal {
      TakeAllStops(cfg, r, Cut(buffer + Concat(chunks)));
    } else if chunks == [] {
      assert buffer + Concat(chunks) == buffer;
    } else {
      var text, later := buffer + chunks[0], Concat(chunks[1..]);
      assert buffer + Concat(chunks) == text + later;
      CutConcat(text, later);
      RestUncut(text);
      TakeAllConcat(cfg, r, Cut(text), Cut(Rest(text) + later));
      ChunkingIndependence(cfg, TakeAll(cfg, r, Cut(text)), Rest(text), chunks[1..]);
    }
  }

  lemma {:induction false} RestUncut(s: string)
    ensures Cut(Rest(s)) == [] && Rest(Rest(s)) == Rest(s)
    decreases |s|
  {
    var i := IndexOf(s, '\n');
    if i < |s| { RestUncut(s[i + 1..]); }
  }

  /** Two cuttings of one text are indistinguishable to the caller. */
  lemma AnyTwoCuttingsAgree(cfg: Config, r: Reader, a: seq<string>, b: seq<string>)
    requires Concat(a) == Concat(b)
    ensures ReadChunks(cfg, r, "", a) == ReadChunks(cfg, r, "", b)
  {
    ChunkingIndependence(cfg, r, "", a);
    ChunkingIndependence(cfg, r, "", b);
  }

  /** Reading a body keeps the output strictly increasing. */
  lemma ReadBodyKeepsOrder(cfg: Config, r: Reader, text: string, ending: Ending)
    requires cfg.runStream && Ordered(r.feed)
    ensures Ordered(ReadBody(cfg, r, text, ending).feed)
  {
    var raws := Raws(cfg.sdk, text);
    var last := TakeAll(cfg, r, raws);
    TakeAllFactors(cfg, r, raws);
    DeliverAllKeepsOrder(cfg, r.feed, Assemble(cfg.sdk, r.pending, r.retry, raws).frames);
    if !last.feed.terminal {
      DeliverAllKeepsOrder(cfg, last.feed, [last.pending]);
      assert DeliverAll(cfg, last.feed, [last.pending]) == Deliver(cfg, last.feed, last.pending);
    }
  }

  // ----- Which frames are flushed -----

  /**
   * Unless a frame ended the run, what a body leaves unfinished is flushed on every ending in Go and on a
   * clean close in TypeScript; a read error makes TypeScript drop it.
   */
  lemma FlushedExactly(cfg: Config, r: Reader, text: string, ending: Ending)
    requires r.pending == FRESH && !Completed(cfg, r.feed, text).terminal
    ensures
      var f := Completed(cfg, r.feed, text);
      ReadBody(cfg, r, text, ending).feed ==
      if cfg.sdk.TypeScript? && ending == Dropped then f else Deliver(cfg, f, LastFrame(cfg.sdk, text))
  {
    BodySplits(cfg, r, text, ending);
  }

  /** After a read error TypeScript holds what the completed frames brought, whatever was left unfinished. */
  lemma DroppedKeepsCompleted(cfg: Config, r: Reader, text: string)
    requires cfg.sdk.TypeScript? && r.pending == FRESH
    ensures ReadBody(cfg, r, text, Dropped).feed == Completed(cfg, r.feed, text)
    ensures Failed(TypeScript, text, Dropped) && !Failed(TypeScript, text, Closed)
  {
    BodySplits(cfg, r, text, Dropped);
  }

  /** In Go a read error is a broken connection, or a finished or unfinished line of a mebibyte or more. */
  lemma {:induction false} TooLongExactly(lines: seq<string>)
    ensures Scannable(lines) != lines <==> exists line <- lines :: |line| >= 1_048_576
  {
    ScannablePrefix(lines);
    if line :| line in lines && |line| >= 1_048_576 {
      assert !Fits(line);
    }
    if forall line <- lines :: |line| < 1_048_576 {
      assert forall line <- lines :: Fits(line);
    }
  }

  /** An unfinished last line is a line to Go and stays in the buffer of TypeScript. */
  lemma UnfinishedLine(line: string)
    requires '\n' !in line && line != "" && |line| < 1_048_576
    ensures Raws(Go, line) == [line] && Raws(TypeScript, line) == []
    ensures Raws(Go, line + "\n") == Raws(TypeScript, line + "\n") == [line]
  {
    IndexOfUnique(line, '\n', |line|);
    Nil([line]);
    Cons(line, []);
    Nil(line + "\n");
    CutLine(line, "");
    assert Scannable([line]) == [line] + Scannable([]);
  }
}
