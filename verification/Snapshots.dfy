/**
 * Streams that mix documents without a sequence, such as state snapshots, into the log. Nothing guards those
 * against duplicates; the numbered documents are still delivered exactly once.
 */
module Snapshots {
  import opened Json
  import opened Seqs
  import opened Lines
  import opened Frames
  import opened Delivery
  import opened Reading
  import opened Controller
  import opened Session
  import opened Resume

  /** The documents that carry a sequence. */
  function Numbered(docs: seq<Value>): seq<Value> {
    if docs == [] then []
    else (if Sequence(docs[0]).Some? then [docs[0]] else []) + Numbered(docs[1..])
  }

  lemma {:induction false} NumberedConcat(a: seq<Value>, b: seq<Value>)
    ensures Numbered(a + b) == Numbered(a) + Numbered(b)
    decreases |a|
  {
    if a == [] {
      Nil(b);
    } else {
      ConcatTail(a, b);
      NumberedConcat(a[1..], b);
      Assoc(if Sequence(a[0]).Some? then [a[0]] else [], Numbered(a[1..]), Numbered(b));
    }
  }

  /** A feed as if the caller had kept only the numbered documents. */
  function NumberedFeed(f: Feed): Feed {
    f.(out := Numbered(f.out))
  }

  /** Feeds with the same numbered output and guard. */
  predicate SameNumbers(f: Feed, g: Feed) {
    Numbered(f.out) == g.out && f.maxSequence == g.maxSequence
  }

  lemma SendNumbered(cfg: Config, f: Feed, g: Feed, event: string, doc: Value)
    requires SameNumbers(f, g)
    ensures SameNumbers(Send(cfg, f, event, doc), if Sequence(doc).Some? then Send(cfg, g, event, doc) else g)
  {
    NumberedConcat(f.out, [doc]);
    Cons(doc, []);
    Nil(Numbered(f.out));
  }

  /** Documents without a sequence leave guard and numbered output alone. */
  lemma {:induction false} SendAllNumbered(cfg: Config, f: Feed, g: Feed, event: string, docs: seq<Value>)
    requires SameNumbers(f, g)
    ensures SameNumbers(SendAll(cfg, f, event, docs), SendAll(cfg, g, event, Numbered(docs)))
    decreases |docs|
  {
    if docs != [] {
      var doc := docs[0];
      SendNumbered(cfg, f, g, event, doc);
      if Sequence(doc).Some? {
        Cons(doc, Numbered(docs[1..]));
        SendAllNumbered(cfg, Send(cfg, f, event, doc), Send(cfg, g, event, doc), event, docs[1..]);
      } else {
        Nil(Numbered(docs[1..]));
        SendAllNumbered(cfg, Send(cfg, f, event, doc), g, event, docs[1..]);
      }
    }
  }

  // ----- The host -----

  /** The position after a frame that starts at position `a`. */
  function After(cfg: Config, frame: Frame, a: nat): (b: nat)
    ensures b >= a
  {
    a + |Numbered(Documents(cfg, frame))|
  }

  /** A frame whose numbered documents are the log from `a` on, under an id that names no later entry. */
  ghost predicate CarriesNumbered(cfg: Config, log: seq<Entry>, frame: Frame, a: nat) {
    var b := After(cfg, frame, a);
    && b <= |log| && Numbered(Documents(cfg, frame)) == Docs(log[a..b])
    && ResumePoint(log, frame.id) <= b
  }

  ghost predicate TransmitsNumbered(cfg: Config, log: seq<Entry>, frames: seq<Frame>, a: nat)
    decreases |frames|
  {
    frames == [] ||
    (&& CarriesNumbered(cfg, log, frames[0], a)
     && TransmitsNumbered(cfg, log, frames[1..], After(cfg, frames[0], a)))
  }

  /** The position after the last frame flushed before the run ends. */
  function NumberReached(cfg: Config, f: Feed, frames: seq<Frame>, a: nat): (b: nat)
    ensures b >= a
    decreases |frames|
  {
    if frames == [] || f.terminal then a
    else NumberReached(cfg, Deliver(cfg, f, frames[0]), frames[1..], After(cfg, frames[0], a))
  }

  /** As for a plain log: no later than the cursor, nor earlier than asked for until a sequence has been seen. */
  ghost predicate HostServesNumbered(cfg: Config, log: seq<Entry>, start: nat, s: Stream, text: string, wire: string,
                                     a: nat)
  {
    && a <= ResumePoint(log, s.cursor)
    && (s.maxSequence == -1 ==> a >= start)
    && TransmitsNumbered(cfg, log, FramesOf(cfg.sdk, Cut(wire)), a)
    && text <= wire
  }

  // ----- The invariant -----

  /** The numbered documents are those of the log from `start` to `n`, and the cursor is behind them. */
  ghost predicate NumbersBehind(cfg: Config, log: seq<Entry>, start: nat, f: Feed, n: nat)
    requires ValidLog(log)
  {
    CursorBehind(cfg, log, start, NumberedFeed(f), n)
  }

  lemma DeliverNumbered(cfg: Config, log: seq<Entry>, start: nat, f: Feed, n: nat, frame: Frame, a: nat)
    requires cfg.runStream && ValidLog(log) && NumbersBehind(cfg, log, start, f, n)
    requires a <= n && (n == start ==> a >= start) && CarriesNumbered(cfg, log, frame, a)
    ensures NumbersBehind(cfg, log, start, Deliver(cfg, f, frame),
                          Furthest(n, After(cfg, frame, a)))
  {
    MovesNumbers(cfg, log, start, f, n, frame, a);
    DeliverCommits(cfg, f, frame);
  }

  lemma MovesNumbers(cfg: Config, log: seq<Entry>, start: nat, f: Feed, n: nat, frame: Frame, a: nat)
    requires cfg.runStream && ValidLog(log) && At(cfg, log, start, NumberedFeed(f), n)
    requires a <= n && (n == start ==> a >= start) && CarriesNumbered(cfg, log, frame, a)
    ensures At(cfg, log, start, NumberedFeed(Deliver(cfg, f, frame)), Furthest(n, After(cfg, frame, a)))
  {
    var c := Commit(cfg, f, frame);
    SendAllNumbered(cfg, c, NumberedFeed(c), frame.event, Documents(cfg, frame));
    SendEntries(cfg, log, start, NumberedFeed(c), n, frame.event, a, After(cfg, frame, a));
  }

  lemma StillStarts(n: nat, start: nat, a: nat, b: nat)
    requires start <= n && a <= b && (n == start ==> a >= start)
    ensures b <= Furthest(n, b) && (Furthest(n, b) == start ==> b >= start)
  {
  }

  lemma {:induction false} TransmissionNumbered(cfg: Config, log: seq<Entry>, start: nat, f: Feed, n: nat,
                                                frames: seq<Frame>, a: nat)
    requires cfg.runStream && ValidLog(log) && NumbersBehind(cfg, log, start, f, n)
    requires a <= n && (n == start ==> a >= start) && TransmitsNumbered(cfg, log, frames, a)
    ensures NumbersBehind(cfg, log, start, DeliverAll(cfg, f, frames),
                          Furthest(n, NumberReached(cfg, f, frames, a)))
    decreases |frames|
  {
    if frames != [] && !f.terminal {
      var g, b := Deliver(cfg, f, frames[0]), After(cfg, frames[0], a);
      DeliverNumbered(cfg, log, start, f, n, frames[0], a);
      StillStarts(n, start, a, b);
      TransmissionNumbered(cfg, log, start, g, Furthest(n, b), frames[1..], b);
      FurthestTwice(n, b, NumberReached(cfg, g, frames[1..], b));
    }
  }

  lemma {:induction false} TransmitsNumberedPrefix(cfg: Config, log: seq<Entry>, frames: seq<Frame>, more: seq<Frame>,
                                                   a: nat)
    requires TransmitsNumbered(cfg, log, frames + more, a)
    ensures TransmitsNumbered(cfg, log, frames, a)
    decreases |frames|
  {
    if frames != [] {
      ConcatTail(frames, more);
      TransmitsNumberedPrefix(cfg, log, frames[1..], more, After(cfg, frames[0], a));
    }
  }

  // ----- Connections and runs -----

  /** A connection to such a host that flushes no id and no numbered document of a half frame. */
  ghost predicate ServedNumbered(cfg: Config, log: seq<Entry>, start: nat, s: Stream, a: Attempt, service: Service) {
    a.net.Body? && !a.before ==>
      var last := LastFrame(cfg.sdk, a.net.text);
      && HostServesNumbered(cfg, log, start, s, a.net.text, service.wire, service.from)
      && (|| Unflushed(cfg, Open(s).feed, a.net.text, a.net.ending)
          || (last.id.None? && Numbered(Documents(cfg, last)) == []))
  }

  /** How far one attempt takes the numbered documents from position `n`. */
  function NumbersGained(cfg: Config, s: Stream, a: Attempt, service: Service, n: nat): nat {
    if a.net.Body? && !a.before then
      Furthest(n, NumberReached(cfg, Open(s).feed, FramesOf(cfg.sdk, Whole(cfg.sdk, a.net.text)), service.from))
    else n
  }

  lemma ConnectionNumbered(cfg: Config, log: seq<Entry>, start: nat, s: Stream, a: Attempt, service: Service, n: nat)
    requires cfg.runStream && ValidLog(log) && NumbersBehind(cfg, log, start, Open(s).feed, n)
    requires a.net.Body? && !a.before && ServedNumbered(cfg, log, start, s, a, service)
    ensures NumbersBehind(cfg, log, start, ReadBody(cfg, Open(s), a.net.text, a.net.ending).feed,
                          NumbersGained(cfg, s, a, service, n))
  {
    var f, raws, text := Open(s).feed, Whole(cfg.sdk, a.net.text), a.net.text;
    NumberedWire(cfg, log, raws, text, service.wire, service.from);
    TransmissionNumbered(cfg, log, start, f, n, FramesOf(cfg.sdk, raws), service.from);
    BodySplits(cfg, Open(s), text, a.net.ending);
    if !Unflushed(cfg, f, text, a.net.ending) {
      FlushesNoNumber(cfg, log, start, Completed(cfg, f, text), LastFrame(cfg.sdk, text),
                      NumbersGained(cfg, s, a, service, n));
    }
  }

  lemma NumberedWire(cfg: Config, log: seq<Entry>, raws: seq<string>, text: string, wire: string, a: nat)
    requires raws <= Cut(text) && text <= wire && TransmitsNumbered(cfg, log, FramesOf(cfg.sdk, Cut(wire)), a)
    ensures TransmitsNumbered(cfg, log, FramesOf(cfg.sdk, raws), a)
  {
    CutPrefix(text, wire);
    var more := Cut(wire)[|raws|..];
    assert raws + more == Cut(wire);
    AssembleConcat(cfg.sdk, FRESH, 0, raws, more);
    var first := Assemble(cfg.sdk, FRESH, 0, raws);
    TransmitsNumberedPrefix(cfg, log, first.frames, Assemble(cfg.sdk, first.pending, first.retry, more).frames, a);
  }

  lemma FlushesNoNumber(cfg: Config, log: seq<Entry>, start: nat, f: Feed, frame: Frame, n: nat)
    requires ValidLog(log) && NumbersBehind(cfg, log, start, f, n)
    requires frame.id.None? && Numbered(Documents(cfg, frame)) == []
    ensures NumbersBehind(cfg, log, start, Deliver(cfg, f, frame), n)
  {
    var c := Commit(cfg, f, frame);
    SendAllNumbered(cfg, c, NumberedFeed(c), frame.event, Documents(cfg, frame));
    DeliverCommits(cfg, f, frame);
  }

  ghost predicate AllServedNumbered(cfg: Config, policy: Option<Policy>, log: seq<Entry>, start: nat, s: Stream,
                                    script: seq<Attempt>, services: seq<Service>)
    requires |services| == |script|
    decreases |script|
  {
    script == [] ||
    (&& ServedNumbered(cfg, log, start, s, script[0], services[0])
     && var (t, v) := Step(cfg, policy, s, script[0]);
        (v.Wait? ==> AllServedNumbered(cfg, policy, log, start, t, script[1..], services[1..])))
  }

  function NumbersProgress(cfg: Config, policy: Option<Policy>, s: Stream, script: seq<Attempt>, services: seq<Service>,
                           n: nat): nat
    requires |services| == |script|
    decreases |script|
  {
    if script == [] then n
    else
      var m := NumbersGained(cfg, s, script[0], services[0], n);
      var (t, v) := Step(cfg, policy, s, script[0]);
      if v.Wait? then NumbersProgress(cfg, policy, t, script[1..], services[1..], m) else m
  }

  lemma StepNumbered(cfg: Config, policy: Option<Policy>, log: seq<Entry>, start: nat, s: Stream,
                     a: Attempt, service: Service, n: nat)
    requires cfg.runStream && ValidLog(log) && NumbersBehind(cfg, log, start, Open(s).feed, n)
    requires ServedNumbered(cfg, log, start, s, a, service)
    ensures NumbersBehind(cfg, log, start, Open(Step(cfg, policy, s, a).0).feed, NumbersGained(cfg, s, a, service, n))
  {
    if a.net.Body? && !a.before {
      ConnectionNumbered(cfg, log, start, s, a, service, n);
      StepReads(cfg, policy, s, a);
    }
  }

  lemma {:induction false} PlayNumbered(cfg: Config, policy: Option<Policy>, log: seq<Entry>, start: nat, s: Stream,
                                        script: seq<Attempt>, services: seq<Service>, n: nat)
    requires cfg.runStream && ValidLog(log) && |services| == |script|
    requires NumbersBehind(cfg, log, start, Open(s).feed, n)
    requires AllServedNumbered(cfg, policy, log, start, s, script, services)
    ensures NumbersBehind(cfg, log, start, Open(Play(cfg, policy, s, script).stream).feed,
                          NumbersProgress(cfg, policy, s, script, services, n))
    decreases |script|
  {
    if script != [] {
      StepNumbered(cfg, policy, log, start, s, script[0], services[0], n);
      var (t, v) := Step(cfg, policy, s, script[0]);
      if v.Wait? {
        PlayNumbered(cfg, policy, log, start, t, script[1..], services[1..],
                     NumbersGained(cfg, s, script[0], services[0], n));
      }
    }
  }

  /**
   * Exactly-once delivery of the numbered documents: whatever comes between them, they are the log from the
   * entry after the starting cursor up to the furthest one that a completed frame brought, in order, and
   * the client would not resume past it.
   */
  lemma NumberedExactlyOnce(cfg: Config, policy: Option<Policy>, log: seq<Entry>, lastEventId: Option<string>,
                            script: seq<Attempt>, services: seq<Service>, s: Stream, start: nat)
    requires cfg.runStream && ValidLog(log) && |services| == |script|
    requires s == Start(lastEventId, cfg.sdk, policy) && start == ResumePoint(log, lastEventId)
    requires AllServedNumbered(cfg, policy, log, start, s, script, services)
    ensures
      var t, m := Play(cfg, policy, s, script).stream, NumbersProgress(cfg, policy, s, script, services, start);
      && start <= m <= |log|
      && Numbered(t.out) == Accepted(cfg, Docs(log[start..m])) && ResumePoint(log, t.cursor) <= m
  {
    StartsBehind(cfg, policy, log, lastEventId);
    PlayNumbered(cfg, policy, log, start, s, script, services, start);
  }
}
