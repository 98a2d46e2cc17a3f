/**
 * A host that writes its log one frame an entry: the cuts of its connections that exactly-once delivery
 * can rely on. For Go every line must fit the scanner as well.
 */
module HonestHost {
  import opened Json
  import opened Seqs
  import opened Lines
  import opened Frames
  import opened Delivery
  import opened Reading
  import opened Session
  import opened Printing
  import opened Resume

  /** The frames of the entries from `a` on, each with the entry's id and a body that parses to its document. */
  ghost predicate Presents(cfg: Config, log: seq<Entry>, frames: seq<Frame>, a: nat)
    decreases |frames|
  {
    frames == [] ||
    (&& a < |log| && Printable(frames[0])
     && frames[0].id == Some(log[a].id) && Documents(cfg, frames[0]) == [log[a].doc]
     && Presents(cfg, log, frames[1..], a + 1))
  }

  lemma {:induction false} PresentedTransmits(cfg: Config, log: seq<Entry>, frames: seq<Frame>, a: nat)
    requires Presents(cfg, log, frames, a)
    ensures Transmits(cfg, log, frames, a) && forall f <- frames :: Printable(f)
    decreases |frames|
  {
    if frames != [] {
      PresentedTransmits(cfg, log, frames[1..], a + 1);
      HeadTail(frames);
      assert log[a..a + 1] == [log[a]];
      assert Docs(log[a..a + 1]) == [log[a].doc];
    }
  }

  /**
   * Written out with any line endings and any comments between the lines, such frames make a connection
   * of the kind exactly-once delivery asks for, wherever the text is cut.
   */
  lemma PrintedLogServes(cfg: Config, log: seq<Entry>, start: nat, s: Stream, a: nat,
                         frames: seq<Frame>, lines: seq<string>, crlf: seq<bool>, text: string)
    requires Presents(cfg, log, frames, a)
    requires |lines| == |crlf| && AllOneLine(lines) && WithoutComments(lines) == PrintAll(frames)
    requires a <= ResumePoint(log, s.cursor) && (s.maxSequence == -1 ==> a >= start)
    requires text <= Written(lines, crlf)
    ensures HostServes(cfg, log, start, s, text, Written(lines, crlf), a)
  {
    PresentedTransmits(cfg, log, frames, a);
    PrintedLines(cfg.sdk, 0, frames, lines, crlf);
  }

  // ----- Cuts between frames -----

  /** A connection that ends between frames leaves nothing behind, whatever the ending. */
  lemma BoundaryCuts(cfg: Config, log: seq<Entry>, start: nat, s: Stream, a: nat, frames: seq<Frame>,
                     lines: seq<string>, crlf: seq<bool>, ending: Ending, k: nat)
    requires ValidLog(log) && start <= k <= |log| && Presents(cfg, log, frames, a)
    requires |lines| == |crlf| && AllOneLine(lines) && WithoutComments(lines) == PrintAll(frames)
    requires FitsScanner(cfg.sdk, Written(lines, crlf))
    ensures BringsNothing(cfg, LastFrame(cfg.sdk, Written(lines, crlf)))
    ensures CopesWith(cfg, log, start, s, Written(lines, crlf), ending, k)
  {
    PresentedTransmits(cfg, log, frames, a);
    PrintThenParse(cfg.sdk, 0, frames, lines, crlf);
    SilentFrame(cfg, log, start, LastFrame(cfg.sdk, Written(lines, crlf)), k);
  }

  // ----- Cuts inside a frame -----

  /** Frame `frame` written in full except for the blank line that would complete it. */
  function WithoutBlankLine(frame: Frame, crlf: seq<bool>): string
    requires |crlf| == |PrintFields(frame)|
  {
    Written(PrintFields(frame), crlf)
  }

  /** Such a text completes no frame and leaves the frame itself behind. */
  lemma LeavesFrame(sdk: Sdk, frame: Frame, crlf: seq<bool>)
    requires Printable(frame) && |crlf| == |PrintFields(frame)|
    requires FitsScanner(sdk, WithoutBlankLine(frame, crlf))
    ensures
      var text := WithoutBlankLine(frame, crlf);
      FramesOf(sdk, Whole(sdk, text)) == [] && LastFrame(sdk, text) == frame
  {
    PrintFieldsAreOneLine(frame);
    AssembleWritten(sdk, FRESH, 0, PrintFields(frame), crlf);
    AssembleFields(sdk, 0, frame, []);
    Nil(PrintFields(frame));
  }

  /** A cut that takes only the blank line of the next entry loses nothing: the flush delivers the entry. */
  lemma BlankLineMayBeMissing(cfg: Config, log: seq<Entry>, start: nat, s: Stream, n: nat, frame: Frame,
                              crlf: seq<bool>, ending: Ending)
    requires cfg.runStream && ValidLog(log) && CursorBehind(cfg, log, start, Open(s).feed, n) && n < |log|
    requires Presents(cfg, log, [frame], n) && |crlf| == |PrintFields(frame)|
    requires FitsScanner(cfg.sdk, WithoutBlankLine(frame, crlf))
    ensures CursorBehind(cfg, log, start, ReadBody(cfg, Open(s), WithoutBlankLine(frame, crlf), ending).feed,
                         if FlushesAtEnd(cfg.sdk, ending) then n + 1 else n)
  {
    var f := Open(s).feed;
    LeavesFrame(cfg.sdk, frame, crlf);
    BodySplits(cfg, Open(s), WithoutBlankLine(frame, crlf), ending);
    PresentedTransmits(cfg, log, [frame], n);
    DeliverCarried(cfg, log, start, f, n, frame, n, n + 1);
  }

  /** What the first `i` lines of a frame with an id leave pending. */
  function Part(frame: Frame, i: nat): Frame
    requires frame.id.Some? && i <= |PrintFields(frame)|
  {
    if i == 0 then FRESH
    else if i == 1 then FRESH.(id := frame.id)
    else frame.(data := frame.data[..i - 2])
  }

  lemma {:induction false} PrintDataPrefix(data: seq<string>, i: nat)
    requires i <= |data|
    ensures |PrintData(data)| == |data| && PrintData(data)[..i] == PrintData(data[..i])
  {
    if data != [] {
      PrintDataPrefix(data[1..], if i == 0 then 0 else i - 1);
      if i > 0 {
        assert data[..i][1..] == data[1..][..i - 1];
      }
    }
  }

  lemma AssemblePart(sdk: Sdk, frame: Frame, i: nat)
    requires Printable(frame) && frame.id.Some? && i <= |PrintFields(frame)|
    ensures Assemble(sdk, FRESH, 0, PrintFields(frame)[..i]) == Assembly([], Part(frame, i), 0)
  {
    var lines := PrintFields(frame)[..i];
    if i == 1 {
      AssembleId(sdk, 0, frame.id, []);
      assert lines == PrintId(frame.id) + [];
    } else if i >= 2 {
      var part := Part(frame, i);
      PrintDataPrefix(frame.data, i - 2);
      PrintablePart(frame.data, i - 2);
      assert PrintFields(part) == lines;
      AssembleFields(sdk, 0, part, []);
      Nil(lines);
    }
  }

  lemma {:induction false} PrintablePart(data: seq<string>, i: nat)
    requires AllOneLine(data) && i <= |data|
    ensures AllOneLine(data[..i])
  {
    if i > 0 {
      PrintablePart(data[1..], i - 1);
      assert data[..i][1..] == data[1..][..i - 1];
    }
  }

  /** The text of some whole frames, of the first `i` lines of another one, and of an unfinished line for TypeScript. */
  ghost predicate CutInside(sdk: Sdk, text: string, done: seq<Frame>, frame: Frame, i: nat,
                            lines: seq<string>, crlf: seq<bool>, partial: string)
  {
    && |lines| == |crlf| && AllOneLine(lines) && i <= |PrintFields(frame)|
    && WithoutComments(lines) == PrintAll(done) + PrintFields(frame)[..i]
    && text == Written(lines, crlf) + partial && '\n' !in partial
    && FitsScanner(sdk, text) && (sdk.Go? ==> partial == "")
  }

  lemma LeavesPart(sdk: Sdk, text: string, done: seq<Frame>, frame: Frame, i: nat,
                   lines: seq<string>, crlf: seq<bool>, partial: string)
    requires CutInside(sdk, text, done, frame, i, lines, crlf, partial)
    requires (forall f <- done :: Printable(f)) && Printable(frame) && frame.id.Some?
    ensures FramesOf(sdk, Whole(sdk, text)) == done && LastFrame(sdk, text) == Part(frame, i)
  {
    var written, inside := Written(lines, crlf), PrintFields(frame)[..i];
    CommentsVanish(sdk, FRESH, 0, lines);
    AssembleWritten(sdk, FRESH, 0, lines, crlf);
    AssemblePrinted(sdk, 0, done);
    AssembleConcat(sdk, FRESH, 0, PrintAll(done), inside);
    AssemblePart(sdk, frame, i);
    Nil(done);
    CutConcat(written, partial);
    IndexOfUnique(partial, '\n', |partial|);
    Nil(partial);
    Nil(Cut(written));
    assert Cut(text) == Cut(written);
    WholeIsCut(sdk, text);
  }

  /** Transmitted one entry a frame, the frames flushed without ending the run reach the entry after the last. */
  lemma {:induction false} ReachedByAll(cfg: Config, log: seq<Entry>, f: Feed, frames: seq<Frame>, a: nat)
    requires Presents(cfg, log, frames, a) && !DeliverAll(cfg, f, frames).terminal
    ensures Reached(cfg, f, frames, a) == a + |frames|
    decreases |frames|
  {
    if frames != [] { ReachedByAll(cfg, log, Deliver(cfg, f, frames[0]), frames[1..], a + 1); }
  }

  /** No part of the frame's data is a JSON text by itself. */
  ghost predicate WholeDataOnly(cfg: Config, frame: Frame) {
    forall j | 0 < j < |frame.data| :: cfg.parse(Join(frame.data[..j], "\n")) == None
  }

  lemma PartIsSilent(cfg: Config, frame: Frame, i: nat)
    requires frame.id.Some? && i < |PrintFields(frame)| && WholeDataOnly(cfg, frame)
    ensures Documents(cfg, Part(frame, i)) == []
  {
    PrintDataPrefix(frame.data, 0);
  }

  /**
   * A connection cut inside the frame of entry `e`: delivery stays exact precisely when nothing is flushed,
   * when none of the frame's lines arrived or all but the blank one did, or when the entry was a repetition.
   * So a flushed cut loses an entry exactly when its id arrived and some of its data did not.
   */
  lemma CutsInsideExactly(cfg: Config, log: seq<Entry>, start: nat, s: Stream, n: nat, a: nat,
                          done: seq<Frame>, frame: Frame, i: nat, lines: seq<string>, crlf: seq<bool>, partial: string,
                          text: string, wire: string, ending: Ending)
    requires cfg.runStream && ValidLog(log) && CursorBehind(cfg, log, start, Open(s).feed, n)
    requires HostServes(cfg, log, start, s, text, wire, a)
    requires Presents(cfg, log, done, a) && Presents(cfg, log, [frame], a + |done|)
    requires WholeDataOnly(cfg, frame) && log[a + |done|].id != ""
    requires CutInside(cfg.sdk, text, done, frame, i, lines, crlf, partial)
    ensures
      var e := a + |done|;
      (exists m: nat :: CursorBehind(cfg, log, start, ReadBody(cfg, Open(s), text, ending).feed, m)) <==>
      Unflushed(cfg, Open(s).feed, text, ending) || i == 0 || i == |PrintFields(frame)| || e < n
  {
    InsideFacts(cfg, log, text, done, frame, i, lines, crlf, partial, a, a + |done|);
    PartCuts(cfg, log, start, s, n, a, done, frame, i, text, wire, ending, a + |done|);
  }

  /** The frame is that of entry `e`. */
  ghost predicate IsEntry(cfg: Config, log: seq<Entry>, frame: Frame, e: nat) {
    && e < |log| && log[e].id != ""
    && frame.id == Some(log[e].id) && Documents(cfg, frame) == [log[e].doc]
  }

  lemma InsideFacts(cfg: Config, log: seq<Entry>, text: string, done: seq<Frame>, frame: Frame, i: nat,
                    lines: seq<string>, crlf: seq<bool>, partial: string, a: nat, e: nat)
    requires Presents(cfg, log, done, a) && Presents(cfg, log, [frame], e) && e == a + |done|
    requires WholeDataOnly(cfg, frame) && log[e].id != ""
    requires CutInside(cfg.sdk, text, done, frame, i, lines, crlf, partial)
    ensures FramesOf(cfg.sdk, Whole(cfg.sdk, text)) == done && IsEntry(cfg, log, frame, e)
    ensures i <= |PrintFields(frame)| && LastFrame(cfg.sdk, text) == Part(frame, i)
    ensures i < |PrintFields(frame)| ==> Documents(cfg, Part(frame, i)) == []
  {
    LeavesFrames(cfg, log, text, done, frame, i, lines, crlf, partial, a);
    PresentedIsEntry(cfg, log, frame, e);
    if i < |PrintFields(frame)| { PartIsSilent(cfg, frame, i); }
  }

  lemma PresentedIsEntry(cfg: Config, log: seq<Entry>, frame: Frame, e: nat)
    requires Presents(cfg, log, [frame], e) && log[e].id != ""
    ensures IsEntry(cfg, log, frame, e)
  {
  }

  lemma PartCuts(cfg: Config, log: seq<Entry>, start: nat, s: Stream, n: nat, a: nat, done: seq<Frame>, frame: Frame,
                 i: nat, text: string, wire: string, ending: Ending, e: nat)
    requires cfg.runStream && ValidLog(log) && CursorBehind(cfg, log, start, Open(s).feed, n)
    requires HostServes(cfg, log, start, s, text, wire, a) && Presents(cfg, log, done, a) && e == a + |done|
    requires FramesOf(cfg.sdk, Whole(cfg.sdk, text)) == done && IsEntry(cfg, log, frame, e)
    requires i <= |PrintFields(frame)| && LastFrame(cfg.sdk, text) == Part(frame, i)
    requires i < |PrintFields(frame)| ==> Documents(cfg, Part(frame, i)) == []
    ensures
      (exists m: nat :: CursorBehind(cfg, log, start, ReadBody(cfg, Open(s), text, ending).feed, m)) <==>
      Unflushed(cfg, Open(s).feed, text, ending) || i == 0 || i == |PrintFields(frame)| || e < n
  {
    if !Unflushed(cfg, Open(s).feed, text, ending) {
      PartVerdict(cfg, log, start, s, n, a, done, frame, i, text, wire, ending, e);
    }
    SafeCuts(cfg, log, start, s, text, ending, wire, a, n);
  }

  lemma PartVerdict(cfg: Config, log: seq<Entry>, start: nat, s: Stream, n: nat, a: nat, done: seq<Frame>,
                    frame: Frame, i: nat, text: string, wire: string, ending: Ending, e: nat)
    requires cfg.runStream && ValidLog(log) && CursorBehind(cfg, log, start, Open(s).feed, n)
    requires HostServes(cfg, log, start, s, text, wire, a) && Presents(cfg, log, done, a) && e == a + |done|
    requires FramesOf(cfg.sdk, Whole(cfg.sdk, text)) == done && IsEntry(cfg, log, frame, e)
    requires i <= |PrintFields(frame)| && LastFrame(cfg.sdk, text) == Part(frame, i)
    requires i < |PrintFields(frame)| ==> Documents(cfg, Part(frame, i)) == []
    requires !Unflushed(cfg, Open(s).feed, text, ending)
    ensures CopesWith(cfg, log, start, s, text, ending, Gained(cfg, s, text, a, n)) <==>
            i == 0 || i == |PrintFields(frame)| || e < n
  {
    PartFacts(cfg, log, start, s, n, a, done, text, wire, ending, e);
    PartCopes(cfg, log, start, s, text, ending, Gained(cfg, s, text, a, n), e, frame, i);
  }

  /** Whether a part of it that was left behind and is flushed does harm. */
  lemma PartCopes(cfg: Config, log: seq<Entry>, start: nat, s: Stream, text: string, ending: Ending,
                  k: nat, e: nat, frame: Frame, i: nat)
    requires cfg.runStream && ValidLog(log) && CursorBehind(cfg, log, start, Completed(cfg, Open(s).feed, text), k)
    requires IsEntry(cfg, log, frame, e) && e <= k && (k == start ==> e >= start)
    requires i <= |PrintFields(frame)| && LastFrame(cfg.sdk, text) == Part(frame, i)
    requires i < |PrintFields(frame)| ==> Documents(cfg, Part(frame, i)) == []
    requires !Unflushed(cfg, Open(s).feed, text, ending)
    ensures CopesWith(cfg, log, start, s, text, ending, k) <==> i == 0 || i == |PrintFields(frame)| || e < k
  {
    PositionOfEntry(log, e);
    if i == |PrintFields(frame)| {
      PartIsWhole(frame);
      WholeHandsOver(cfg, log, start, Completed(cfg, Open(s).feed, text), k, frame, e);
    } else {
      SilentFrame(cfg, log, start, Part(frame, i), k);
    }
  }

  lemma PartFacts(cfg: Config, log: seq<Entry>, start: nat, s: Stream, n: nat, a: nat, done: seq<Frame>,
                  text: string, wire: string, ending: Ending, e: nat)
    requires cfg.runStream && ValidLog(log) && CursorBehind(cfg, log, start, Open(s).feed, n)
    requires HostServes(cfg, log, start, s, text, wire, a) && Presents(cfg, log, done, a) && e == a + |done|
    requires FramesOf(cfg.sdk, Whole(cfg.sdk, text)) == done && !Unflushed(cfg, Open(s).feed, text, ending)
    ensures CursorBehind(cfg, log, start, Completed(cfg, Open(s).feed, text), Gained(cfg, s, text, a, n))
    ensures
      var k := Gained(cfg, s, text, a, n);
      k == Furthest(n, e) && (k == start ==> e >= start)
  {
    PartStarts(cfg, log, start, s, text, wire, a, n, e);
    PartGained(cfg, log, s, n, a, done, text, ending);
    CompletedDelivers(cfg, log, start, s, text, wire, a, n);
  }

  lemma PartStarts(cfg: Config, log: seq<Entry>, start: nat, s: Stream, text: string, wire: string, a: nat, n: nat,
                   e: nat)
    requires ValidLog(log) && CursorBehind(cfg, log, start, Open(s).feed, n)
    requires HostServes(cfg, log, start, s, text, wire, a) && a <= e
    ensures e <= Furthest(n, e) && (Furthest(n, e) == start ==> e >= start)
  {
    assert n == start ==> s.maxSequence == -1;
  }

  lemma PartGained(cfg: Config, log: seq<Entry>, s: Stream, n: nat, a: nat, done: seq<Frame>, text: string,
                   ending: Ending)
    requires Presents(cfg, log, done, a) && FramesOf(cfg.sdk, Whole(cfg.sdk, text)) == done
    ensures !Unflushed(cfg, Open(s).feed, text, ending) ==> Gained(cfg, s, text, a, n) == Furthest(n, a + |done|)
  {
    if !Completed(cfg, Open(s).feed, text).terminal { ReachedByAll(cfg, log, Open(s).feed, done, a); }
  }

  lemma LeavesFrames(cfg: Config, log: seq<Entry>, text: string, done: seq<Frame>, frame: Frame, i: nat,
                     lines: seq<string>, crlf: seq<bool>, partial: string, a: nat)
    requires Presents(cfg, log, done, a) && Presents(cfg, log, [frame], a + |done|)
    requires CutInside(cfg.sdk, text, done, frame, i, lines, crlf, partial)
    ensures FramesOf(cfg.sdk, Whole(cfg.sdk, text)) == done
    ensures frame.id.Some? && LastFrame(cfg.sdk, text) == Part(frame, i)
  {
    PresentedTransmits(cfg, log, done, a);
    LeavesPart(cfg.sdk, text, done, frame, i, lines, crlf, partial);
  }

  lemma WholeHandsOver(cfg: Config, log: seq<Entry>, start: nat, f: Feed, k: nat, frame: Frame, e: nat)
    requires cfg.runStream && ValidLog(log) && CursorBehind(cfg, log, start, f, k)
    requires IsEntry(cfg, log, frame, e) && e <= k && (k == start ==> e >= start)
    ensures exists m: nat :: HandsOver(cfg, log, start, frame, k, m)
  {
    PositionOfEntry(log, e);
    assert log[e..e + 1] == [log[e]];
    CarryingFrame(cfg, log, start, f, frame, k, e, e + 1);
  }

  lemma PartIsWhole(frame: Frame)
    requires frame.id.Some?
    ensures Part(frame, |PrintFields(frame)|) == frame
  {
    assert frame.data[..|frame.data|] == frame.data;
  }
}
