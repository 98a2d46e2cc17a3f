/** From frames to documents: parsing, batches, the duplicate guard and the terminal frame. */
module Delivery {
  import opened Json
  import opened Seqs
  import opened Frames

  /** What does not change during a stream. `parse` stands for the JSON parser and `decode` for Go's typed decoder. */
  datatype Config = Config(sdk: Sdk, runStream: bool, parse: string -> Option<Value>, decode: Value -> bool)

  /** The part of the consumer's state that frames act on. `out` is everything handed to the caller so far. */
  datatype Feed = Feed(cursor: Option<string>, maxSequence: int, frames: nat, terminal: bool, out: seq<Value>)

  predicate Accepts(cfg: Config, doc: Value) {
    cfg.sdk.TypeScript? || cfg.decode(doc)
  }

  predicate EndsRun(cfg: Config, event: string, doc: Value) {
    && cfg.runStream
    && match cfg.sdk
       case TypeScript => IsRunTerminalFrame(event, doc)
       case Go => IsTerminalFrame(event, doc)
  }

  /** The documents a parsed frame stands for. Go also reads `null` as an empty batch. */
  function Unbatch(sdk: Sdk, event: string, v: Value): seq<Value> {
    if event == "batch" && v.Array? then v.items
    else if event == "batch" && v.Null? && sdk.Go? then []
    else [v]
  }

  function Parsed(cfg: Config, frame: Frame): Option<Value> {
    if frame.data == [] then None else cfg.parse(Join(frame.data, "\n"))
  }

  function Documents(cfg: Config, frame: Frame): seq<Value> {
    match Parsed(cfg, frame)
    case None => []
    case Some(v) => Unbatch(cfg.sdk, frame.event, v)
  }

  predicate Stale(cfg: Config, maxSequence: int, doc: Value) {
    cfg.runStream && Sequence(doc).Some? && Sequence(doc).value <= maxSequence
  }

  function Raise(cfg: Config, maxSequence: int, doc: Value): int {
    if cfg.runStream && Sequence(doc).Some? then Sequence(doc).value else maxSequence
  }

  function Send(cfg: Config, f: Feed, event: string, doc: Value): Feed {
    if Stale(cfg, f.maxSequence, doc) then f
    else
      f.(maxSequence := Raise(cfg, f.maxSequence, doc),
         terminal := f.terminal || EndsRun(cfg, event, doc),
         out := if Accepts(cfg, doc) then f.out + [doc] else f.out)
  }

  function SendAll(cfg: Config, f: Feed, event: string, docs: seq<Value>): Feed
    decreases |docs|
  {
    if docs == [] then f else SendAll(cfg, Send(cfg, f, event, docs[0]), event, docs[1..])
  }

  /** TypeScript counts a frame whose data parses, Go counts each document. */
  function Counted(cfg: Config, frame: Frame): nat {
    match cfg.sdk
    case TypeScript => if Parsed(cfg, frame).Some? then 1 else 0
    case Go => |Documents(cfg, frame)|
  }

  /** A flushed frame moves the cursor before anything is known of its data. */
  function Commit(cfg: Config, f: Feed, frame: Frame): Feed {
    f.(cursor := if frame.id.Some? then frame.id else f.cursor, frames := f.frames + Counted(cfg, frame))
  }

  /** Flushing a frame: its id is committed first, then its documents are sent. */
  function Deliver(cfg: Config, f: Feed, frame: Frame): Feed {
    SendAll(cfg, Commit(cfg, f, frame), frame.event, Documents(cfg, frame))
  }

  /** Frames are delivered until one ends the run. */
  function DeliverAll(cfg: Config, f: Feed, frames: seq<Frame>): Feed
    decreases |frames|
  {
    if frames == [] || f.terminal then f else DeliverAll(cfg, Deliver(cfg, f, frames[0]), frames[1..])
  }

  /** How many frames are flushed before one ends the run. */
  function Delivered(cfg: Config, f: Feed, frames: seq<Frame>): (k: nat)
    ensures k <= |frames|
    decreases |frames|
  {
    if frames == [] || f.terminal then 0 else 1 + Delivered(cfg, Deliver(cfg, f, frames[0]), frames[1..])
  }

  lemma {:induction false} SendAllKeeps(cfg: Config, f: Feed, event: string, docs: seq<Value>)
    ensures
      var g := SendAll(cfg, f, event, docs);
      g.cursor == f.cursor && g.frames == f.frames && (f.terminal ==> g.terminal) && f.out <= g.out
    decreases |docs|
  {
    if docs != [] { SendAllKeeps(cfg, Send(cfg, f, event, docs[0]), event, docs[1..]); }
  }

  lemma {:induction false} SendAllConcat(cfg: Config, f: Feed, event: string, a: seq<Value>, b: seq<Value>)
    ensures SendAll(cfg, f, event, a + b) == SendAll(cfg, SendAll(cfg, f, event, a), event, b)
    decreases |a|
  {
    if a == [] {
      Nil(b);
    } else {
      ConcatTail(a, b);
      SendAllConcat(cfg, Send(cfg, f, event, a[0]), event, a[1..], b);
    }
  }

  lemma {:induction false} DeliverAllConcat(cfg: Config, f: Feed, a: seq<Frame>, b: seq<Frame>)
    ensures DeliverAll(cfg, f, a + b) == DeliverAll(cfg, DeliverAll(cfg, f, a), b)
    decreases |a|
  {
    if a == [] || f.terminal {
      if a == [] { Nil(b); }
    } else {
      ConcatTail(a, b);
      DeliverAllConcat(cfg, Deliver(cfg, f, a[0]), a[1..], b);
    }
  }

  /** A frame with a single document. */
  lemma DeliverSingle(cfg: Config, f: Feed, frame: Frame, doc: Value)
    requires Documents(cfg, frame) == [doc]
    ensures Deliver(cfg, f, frame) == Send(cfg, Commit(cfg, f, frame), frame.event, doc)
  {
    var docs := Documents(cfg, frame);
    assert docs[0] == doc && docs[1..] == [];
    var g := Send(cfg, Commit(cfg, f, frame), frame.event, doc);
    assert SendAll(cfg, g, frame.event, []) == g;
  }

  /** What a frame without documents does to the feed: nothing but commit its id and be counted. */
  lemma DeliverIdle(cfg: Config, f: Feed, frame: Frame)
    requires frame.id == None && frame.data == []
    ensures Deliver(cfg, f, frame) == f
  {
  }

  /** The documents the caller can be given: all of them in TypeScript, the decodable ones in Go. */
  function Accepted(cfg: Config, docs: seq<Value>): seq<Value> {
    if docs == [] then []
    else (if Accepts(cfg, docs[0]) then [docs[0]] else []) + Accepted(cfg, docs[1..])
  }

  lemma {:induction false} AcceptedConcat(cfg: Config, a: seq<Value>, b: seq<Value>)
    ensures Accepted(cfg, a + b) == Accepted(cfg, a) + Accepted(cfg, b)
    decreases |a|
  {
    if a == [] {
      Nil(b);
    } else {
      ConcatTail(a, b);
      AcceptedConcat(cfg, a[1..], b);
      Assoc(if Accepts(cfg, a[0]) then [a[0]] else [], Accepted(cfg, a[1..]), Accepted(cfg, b));
    }
  }

  lemma AcceptedOne(cfg: Config, doc: Value)
    ensures Accepted(cfg, [doc]) == if Accepts(cfg, doc) then [doc] else []
  {
    Cons(doc, []);
  }

  lemma AcceptedNext(cfg: Config, docs: seq<Value>, i: nat)
    requires i < |docs|
    ensures Accepted(cfg, docs[i..]) == Accepted(cfg, [docs[i]]) + Accepted(cfg, docs[i + 1..])
  {
    Next(docs, i);
    AcceptedConcat(cfg, [docs[i]], docs[i + 1..]);
  }

  /** TypeScript hands over every document. */
  lemma {:induction false} TypeScriptAcceptsAll(cfg: Config, docs: seq<Value>)
    requires cfg.sdk.TypeScript?
    ensures Accepted(cfg, docs) == docs
  {
    if docs != [] {
      TypeScriptAcceptsAll(cfg, docs[1..]);
      HeadTail(docs);
    }
  }

  /** Go hands over those that decode, and no other. */
  lemma {:induction false} GoAcceptsDecodable(cfg: Config, docs: seq<Value>, doc: Value)
    requires cfg.sdk.Go?
    ensures doc in Accepted(cfg, docs) <==> doc in docs && cfg.decode(doc)
  {
    if docs != [] { GoAcceptsDecodable(cfg, docs[1..], doc); }
  }

  // ----- The duplicate guard as a filter -----

  /** The documents that pass the duplicate guard when it starts at `maxSequence`. */
  function Unguarded(cfg: Config, maxSequence: int, docs: seq<Value>): seq<Value>
    decreases |docs|
  {
    if docs == [] then []
    else if Stale(cfg, maxSequence, docs[0]) then Unguarded(cfg, maxSequence, docs[1..])
    else [docs[0]] + Unguarded(cfg, Raise(cfg, maxSequence, docs[0]), docs[1..])
  }

  lemma {:induction false} SendAllFilters(cfg: Config, f: Feed, event: string, docs: seq<Value>)
    ensures SendAll(cfg, f, event, docs).out == f.out + Accepted(cfg, Unguarded(cfg, f.maxSequence, docs))
    decreases |docs|
  {
    if docs != [] {
      var d, g := docs[0], Send(cfg, f, event, docs[0]);
      SendAllFilters(cfg, g, event, docs[1..]);
      if !Stale(cfg, f.maxSequence, d) {
        AcceptedConcat(cfg, [d], Unguarded(cfg, g.maxSequence, docs[1..]));
        assert [d][1..] == [];
      }
    }
  }

  lemma {:induction false} UnguardedConcat(cfg: Config, f: Feed, event: string, docs: seq<Value>, more: seq<Value>)
    ensures Unguarded(cfg, f.maxSequence, docs + more) ==
            Unguarded(cfg, f.maxSequence, docs) + Unguarded(cfg, SendAll(cfg, f, event, docs).maxSequence, more)
    decreases |docs|
  {
    if docs == [] {
      assert docs + more == more;
    } else {
      ConcatTail(docs, more);
      UnguardedConcat(cfg, Send(cfg, f, event, docs[0]), event, docs[1..], more);
    }
  }

  lemma DeliverFilters(cfg: Config, f: Feed, frame: Frame, more: seq<Value>)
    ensures
      var g, docs := Deliver(cfg, f, frame), Documents(cfg, frame);
      && g.out == f.out + Accepted(cfg, Unguarded(cfg, f.maxSequence, docs))
      && Accepted(cfg, Unguarded(cfg, f.maxSequence, docs + more)) ==
         Accepted(cfg, Unguarded(cfg, f.maxSequence, docs)) + Accepted(cfg, Unguarded(cfg, g.maxSequence, more))
  {
    var g, docs := Deliver(cfg, f, frame), Documents(cfg, frame);
    SendAllFilters(cfg, Commit(cfg, f, frame), frame.event, docs);
    UnguardedConcat(cfg, Commit(cfg, f, frame), frame.event, docs, more);
    AcceptedConcat(cfg, Unguarded(cfg, f.maxSequence, docs), Unguarded(cfg, g.maxSequence, more));
  }

  /** A stream of host events has no guard and no end: it hands over every document it accepts. */
  lemma {:induction false} HostStreamIsUnguarded(cfg: Config, f: Feed, event: string, docs: seq<Value>)
    requires !cfg.runStream
    ensures SendAll(cfg, f, event, docs) == f.(out := f.out + Accepted(cfg, docs))
    decreases |docs|
  {
    if docs == [] {
      Nil(f.out);
    } else {
      HostStreamIsUnguarded(cfg, Send(cfg, f, event, docs[0]), event, docs[1..]);
      Assoc(f.out, if Accepts(cfg, docs[0]) then [docs[0]] else [], Accepted(cfg, docs[1..]));
      Nil(f.out);
    }
  }

  /** On a run stream a document without a sequence always passes; one with a sequence must be above the guard. */
  lemma GuardExactly(cfg: Config, f: Feed, event: string, doc: Value)
    requires cfg.runStream
    ensures
      var g := Send(cfg, f, event, doc);
      if !doc.Object? || doc.sequence.None? then
        g.out == f.out + Accepted(cfg, [doc]) && g.maxSequence == f.maxSequence
      else if doc.sequence.value > f.maxSequence then
        g.out == f.out + Accepted(cfg, [doc]) && g.maxSequence == doc.sequence.value
      else g == f
  {
    AcceptedOne(cfg, doc);
    Nil(f.out);
  }

  /** The guard once documents have been through it. */
  function GuardAfter(cfg: Config, maxSequence: int, docs: seq<Value>): int
    decreases |docs|
  {
    if docs == [] then maxSequence
    else
      var raised := if Stale(cfg, maxSequence, docs[0]) then maxSequence else Raise(cfg, maxSequence, docs[0]);
      GuardAfter(cfg, raised, docs[1..])
  }

  lemma {:induction false} SendAllRaises(cfg: Config, f: Feed, event: string, docs: seq<Value>)
    ensures SendAll(cfg, f, event, docs).maxSequence == GuardAfter(cfg, f.maxSequence, docs) >= f.maxSequence
    decreases |docs|
  {
    if docs != [] { SendAllRaises(cfg, Send(cfg, f, event, docs[0]), event, docs[1..]); }
  }

  /** Everything a flush does to what the consumer keeps. */
  lemma DeliverEffect(cfg: Config, f: Feed, frame: Frame)
    ensures
      var g, docs := Deliver(cfg, f, frame), Documents(cfg, frame);
      && g.out == f.out + Accepted(cfg, Unguarded(cfg, f.maxSequence, docs))
      && g.maxSequence == GuardAfter(cfg, f.maxSequence, docs) >= f.maxSequence
      && g.cursor == (if frame.id.Some? then frame.id else f.cursor)
  {
    var c, docs := Commit(cfg, f, frame), Documents(cfg, frame);
    SendAllFilters(cfg, c, frame.event, docs);
    SendAllRaises(cfg, c, frame.event, docs);
    SendAllKeeps(cfg, c, frame.event, docs);
  }

  // ----- Strictly increasing output -----

  /** The sequence numbers the documents carry, in order. */
  function Sequences(docs: seq<Value>): seq<int> {
    if docs == [] then []
    else (if Sequence(docs[0]).Some? then [Sequence(docs[0]).value] else []) + Sequences(docs[1..])
  }

  ghost predicate StrictlyIncreasing(s: seq<int>) {
    forall i, j | 0 <= i < j < |s| :: s[i] < s[j]
  }

  /** Everything sent so far is strictly increasing and nothing exceeds the guard. */
  ghost predicate Ordered(f: Feed) {
    && StrictlyIncreasing(Sequences(f.out))
    && forall n <- Sequences(f.out) :: n <= f.maxSequence
  }

  lemma {:induction false} SequencesConcat(a: seq<Value>, b: seq<Value>)
    ensures Sequences(a + b) == Sequences(a) + Sequences(b)
  {
    if a == [] {
      Nil(b);
    } else {
      ConcatTail(a, b);
      SequencesConcat(a[1..], b);
      Assoc(if Sequence(a[0]).Some? then [Sequence(a[0]).value] else [], Sequences(a[1..]), Sequences(b));
    }
  }

  lemma SendKeepsOrder(cfg: Config, f: Feed, event: string, doc: Value)
    requires cfg.runStream && Ordered(f)
    ensures Ordered(Send(cfg, f, event, doc))
  {
    SequencesConcat(f.out, [doc]);
    var s, t := Sequences(f.out), Sequences(Send(cfg, f, event, doc).out);
    assert forall i | 0 <= i < |s| :: s[i] in s;
    assert t == s || (Sequence(doc).Some? && t == s + [Sequence(doc).value]);
  }

  lemma {:induction false} SendAllKeepsOrder(cfg: Config, f: Feed, event: string, docs: seq<Value>)
    requires cfg.runStream && Ordered(f)
    ensures Ordered(SendAll(cfg, f, event, docs))
    decreases |docs|
  {
    if docs != [] {
      SendKeepsOrder(cfg, f, event, docs[0]);
      SendAllKeepsOrder(cfg, Send(cfg, f, event, docs[0]), event, docs[1..]);
    }
  }

  lemma {:induction false} DeliverAllKeepsOrder(cfg: Config, f: Feed, frames: seq<Frame>)
    requires cfg.runStream && Ordered(f)
    ensures Ordered(DeliverAll(cfg, f, frames))
    decreases |frames|
  {
    if frames != [] && !f.terminal {
      SendAllKeepsOrder(cfg, Commit(cfg, f, frames[0]), frames[0].event, Documents(cfg, frames[0]));
      DeliverAllKeepsOrder(cfg, Deliver(cfg, f, frames[0]), frames[1..]);
    }
  }
}
