/** A whole connection against the standard: what reaches the caller, the cursor and the retry delay. */
module Conformance {
  import opened Json
  import opened Seqs
  import opened Lines
  import opened Frames
  import opened Delivery
  import opened Reading
  import opened Session
  import opened Standard

  // ----- A consumer of the standard's messages -----

  /** The documents of one message that the standard dispatches. */
  function DocumentsOf(cfg: Config, m: Message): seq<Value> {
    match cfg.parse(m.data)
    case None => []
    case Some(v) => Unbatch(cfg.sdk, m.name, v)
  }

  /** Messages are handled until one ends the run. The cursor is the event source's own business. */
  function HandleAll(cfg: Config, f: Feed, messages: seq<Message>): Feed
    decreases |messages|
  {
    if messages == [] || f.terminal then f
    else HandleAll(cfg, SendAll(cfg, f, messages[0].name, DocumentsOf(cfg, messages[0])), messages[1..])
  }

  /** How many messages that is. */
  function Handled(cfg: Config, f: Feed, messages: seq<Message>): (j: nat)
    ensures j <= |messages|
    decreases |messages|
  {
    if messages == [] || f.terminal then 0
    else 1 + Handled(cfg, SendAll(cfg, f, messages[0].name, DocumentsOf(cfg, messages[0])), messages[1..])
  }

  /** The documents in the messages that the standard dispatches. */
  function MessageDocuments(cfg: Config, messages: seq<Message>): seq<Value> {
    if messages == [] then [] else DocumentsOf(cfg, messages[0]) + MessageDocuments(cfg, messages[1..])
  }

  /** It hands over the documents of the messages up to the one that ends the run, those that the guard lets through. */
  lemma {:induction false} HandledFilters(cfg: Config, f: Feed, messages: seq<Message>)
    ensures
      HandleAll(cfg, f, messages).out ==
      f.out + Accepted(cfg, Unguarded(cfg, f.maxSequence, MessageDocuments(cfg, messages[..Handled(cfg, f, messages)])))
    ensures Handled(cfg, f, messages) < |messages| ==> HandleAll(cfg, f, messages).terminal
    decreases |messages|
  {
    if messages != [] && !f.terminal {
      var docs := DocumentsOf(cfg, messages[0]);
      var g := SendAll(cfg, f, messages[0].name, docs);
      var k := Handled(cfg, g, messages[1..]);
      var later := MessageDocuments(cfg, messages[1..][..k]);
      HandledFilters(cfg, g, messages[1..]);
      assert messages[..k + 1][0] == messages[0] && messages[..k + 1][1..] == messages[1..][..k];
      SendAllFilters(cfg, f, messages[0].name, docs);
      UnguardedConcat(cfg, f, messages[0].name, docs, later);
      AcceptedConcat(cfg, Unguarded(cfg, f.maxSequence, docs), Unguarded(cfg, g.maxSequence, later));
      Assoc(f.out, Accepted(cfg, Unguarded(cfg, f.maxSequence, docs)),
            Accepted(cfg, Unguarded(cfg, g.maxSequence, later)));
    }
  }

  // ----- The completed frames -----

  /** Two feeds that the caller cannot tell apart; cursor and frame count are not part of it. */
  predicate SameForCaller(f: Feed, g: Feed) {
    f.out == g.out && f.maxSequence == g.maxSequence && f.terminal == g.terminal
  }

  /** An event name matters to delivery only by being that of a snapshot. */
  lemma {:induction false} SendAllAlike(cfg: Config, f: Feed, g: Feed, event: string, name: string, docs: seq<Value>)
    requires SameForCaller(f, g) && (event == "state.snapshot" <==> name == "state.snapshot")
    ensures SameForCaller(SendAll(cfg, f, event, docs), SendAll(cfg, g, name, docs))
    decreases |docs|
  {
    if docs != [] {
      SendAllAlike(cfg, Send(cfg, f, event, docs[0]), Send(cfg, g, name, docs[0]), event, name, docs[1..]);
    }
  }

  /** The last event id once the messages have been handled: that of the one that ended the run, if any did. */
  function IdHandled(cfg: Config, f: Feed, messages: seq<Message>, lastEventId: string): string {
    var j := Handled(cfg, f, messages);
    if j > 0 && HandleAll(cfg, f, messages).terminal then messages[j - 1].lastEventId else lastEventId
  }

  /** One frame with data is one message. */
  lemma FrameIsMessage(cfg: Config, f: Feed, g: Feed, frame: Frame)
    requires SameForCaller(f, g) && frame.data != []
    ensures
      var id := NextId(CursorText(f.cursor), frame);
      var m := Message(EventName(frame.event), Join(frame.data, "\n"), id);
      var f', g' := Deliver(cfg, f, frame), SendAll(cfg, g, m.name, DocumentsOf(cfg, m));
      SameForCaller(f', g') && CursorText(f'.cursor) == id
  {
    var docs := Documents(cfg, frame);
    DeliverEffect(cfg, f, frame);
    SendAllAlike(cfg, Commit(cfg, f, frame), g, frame.event, EventName(frame.event), docs);
  }

  /** A frame without data is no message; it only commits its id. */
  lemma DatalessFrame(cfg: Config, f: Feed, frame: Frame)
    requires frame.data == []
    ensures SameForCaller(f, Deliver(cfg, f, frame))
    ensures CursorText(Deliver(cfg, f, frame).cursor) == NextId(CursorText(f.cursor), frame)
  {
    assert Documents(cfg, frame) == [];
  }

  ghost predicate HandlesAlike(cfg: Config, f: Feed, g: Feed, frames: seq<Frame>, id: string) {
    var messages, last := Messages(id, frames), DeliverAll(cfg, f, frames);
    && SameForCaller(last, HandleAll(cfg, g, messages))
    && CursorText(last.cursor) == IdHandled(cfg, g, messages, LastId(id, frames))
  }

  lemma {:induction false} FramesAreMessages(cfg: Config, f: Feed, g: Feed, frames: seq<Frame>)
    requires SameForCaller(f, g) && !f.terminal
    ensures HandlesAlike(cfg, f, g, frames, CursorText(f.cursor))
    decreases |frames|
  {
    if frames != [] {
      var frame, id := frames[0], NextId(CursorText(f.cursor), frames[0]);
      var f', later := Deliver(cfg, f, frame), Messages(id, frames[1..]);
      if frame.data == [] {
        DatalessFrame(cfg, f, frame);
        assert Messages(CursorText(f.cursor), frames) == later;
        FramesAreMessages(cfg, f', g, frames[1..]);
      } else {
        var m := Message(EventName(frame.event), Join(frame.data, "\n"), id);
        var g' := SendAll(cfg, g, m.name, DocumentsOf(cfg, m));
        FrameIsMessage(cfg, f, g, frame);
        Cons(m, later);
        assert Messages(CursorText(f.cursor), frames) == [m] + later;
        if !f'.terminal { FramesAreMessages(cfg, f', g', frames[1..]); }
      }
    }
  }

  // ----- A connection -----

  /** The feed and the event source agree: the same for the caller, and the cursor is the last event id. */
  ghost predicate Follows(cfg: Config, r: Reader, f: Feed, t: Source) {
    && f.out == HandleAll(cfg, r.feed, t.dispatched).out
    && CursorText(f.cursor) == IdHandled(cfg, r.feed, t.dispatched, t.lastEventId)
  }

  /** The frame left unfinished comes to nothing, as in the standard: unflushed, or no document and no other id. */
  predicate ComesToNothing(cfg: Config, r: Reader, text: string, ending: Ending) {
    var f, last := Completed(cfg, r.feed, text), LastFrame(cfg.sdk, text);
    || Unflushed(cfg, r.feed, text, ending)
    || (&& Accepted(cfg, Unguarded(cfg, f.maxSequence, Documents(cfg, last))) == []
        && NextId(CursorText(f.cursor), last) == CursorText(f.cursor))
  }

  /**
   * On a stream that both read alike the completed frames hand over what a consumer of the standard's
   * messages hands over, up to the message that ends the run, and leave its last event id as the cursor.
   * The standard drops an unfinished frame and the SDKs flush it: the whole connection follows the standard
   * exactly when that frame comes to nothing. While the run goes on the retry delay is the standard's
   * reconnection time, unless Go finds another one on an unfinished line.
   */
  lemma BodyConforms(cfg: Config, r: Reader, text: string, ending: Ending, reconnection: int)
    requires r.pending == FRESH && r.retry == Units(cfg.sdk, reconnection) && !r.feed.terminal
    requires StandardText(cfg.sdk, text)
    ensures
      var last, f := ReadBody(cfg, r, text, ending), Completed(cfg, r.feed, text);
      var t := Interpret(NewSource(CursorText(r.feed.cursor), reconnection), StdLines(cfg.sdk, text));
      && Follows(cfg, r, f, t) && f.terminal == HandleAll(cfg, r.feed, t.dispatched).terminal
      && (Follows(cfg, r, last.feed, t) <==> ComesToNothing(cfg, r, text, ending))
      && (!f.terminal && Tail(cfg.sdk, text) == [] && !last.feed.terminal ==>
            last.retry == Units(cfg.sdk, t.reconnection))
  {
    var f, frames := Completed(cfg, r.feed, text), FramesOf(cfg.sdk, Cut(text));
    RetryIrrelevant(cfg.sdk, FRESH, r.retry, 0, Cut(text));
    InterpreterRefinesStandard(cfg.sdk, text, CursorText(r.feed.cursor), reconnection);
    FramesAreMessages(cfg, r.feed, r.feed, frames);
    BodySplits(cfg, r, text, ending);
    FlushComesToNothing(cfg, f, LastFrame(cfg.sdk, text));
    if !f.terminal && Tail(cfg.sdk, text) == [] { RetryIsKept(cfg, r, text, ending); }
  }

  lemma FlushComesToNothing(cfg: Config, f: Feed, frame: Frame)
    ensures
      var g := Deliver(cfg, f, frame);
      g.out == f.out && CursorText(g.cursor) == CursorText(f.cursor) <==>
      && Accepted(cfg, Unguarded(cfg, f.maxSequence, Documents(cfg, frame))) == []
      && NextId(CursorText(f.cursor), frame) == CursorText(f.cursor)
  {
    var sent := Accepted(cfg, Unguarded(cfg, f.maxSequence, Documents(cfg, frame)));
    DeliverEffect(cfg, f, frame);
    assert f.out + sent == f.out ==> |sent| == 0;
    Nil(f.out);
  }

  lemma RetryIsKept(cfg: Config, r: Reader, text: string, ending: Ending)
    requires r.pending == FRESH && !Completed(cfg, r.feed, text).terminal && Tail(cfg.sdk, text) == []
    requires Whole(cfg.sdk, text) == Cut(text)
    ensures ReadBody(cfg, r, text, ending).retry == Assemble(cfg.sdk, FRESH, r.retry, Cut(text)).retry
  {
    TakeWhole(cfg, r, text);
    TakeAllFactors(cfg, r, Cut(text));
    RawsSplit(cfg.sdk, text);
    Nil(Cut(text));
  }

  /** For one, a stream that ends in a blank line leaves nothing unfinished. */
  lemma BlankLastLine(cfg: Config, r: Reader, text: string, ending: Ending)
    requires FitsScanner(cfg.sdk, text)
    requires Rest(text) == "" && (Cut(text) == [] || Trim(cfg.sdk, Cut(text)[|Cut(text)| - 1]) == "")
    ensures LastFrame(cfg.sdk, text) == FRESH && ComesToNothing(cfg, r, text, ending)
  {
    var raws := Cut(text);
    if raws != [] {
      var front, last := raws[..|raws| - 1], [raws[|raws| - 1]];
      FrontLast(raws);
      Cons(raws[|raws| - 1], []);
      AssembleConcat(cfg.sdk, FRESH, 0, front, last);
    }
  }
}
