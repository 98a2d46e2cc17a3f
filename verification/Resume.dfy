/** Exactly-once, in-order delivery over any number of connections. */
module Resume {
  import opened Json
  import opened Seqs
  import opened Lines
  import opened Frames
  import opened Delivery
  import opened Reading
  import opened Controller
  import opened Session

  // ----- The host -----

  /** An entry of the host's event log: the id its frame carries and its document. */
  datatype Entry = Entry(id: string, doc: Value)

  function Docs(entries: seq<Entry>): seq<Value> {
    seq(|entries|, i requires 0 <= i < |entries| => entries[i].doc)
  }

  /** Ids name one entry each; every document carries a sequence, from 0 and strictly increasing. */
  ghost predicate ValidLog(log: seq<Entry>) {
    && (forall i, j | 0 <= i < j < |log| :: log[i].id != log[j].id)
    && (forall i | 0 <= i < |log| :: Sequence(log[i].doc).Some? && Sequence(log[i].doc).value >= 0)
    && (forall i, j | 0 <= i < j < |log| :: Sequence(log[i].doc).value < Sequence(log[j].doc).value)
  }

  /** The position just after the entry that an id names; 0 for an id the log does not hold. */
  function PositionAfter(log: seq<Entry>, id: string): (p: nat)
    ensures p <= |log|
    ensures p > 0 ==> log[p - 1].id == id
  {
    if log == [] then 0
    else if log[|log| - 1].id == id then |log|
    else PositionAfter(log[..|log| - 1], id)
  }

  /** Where a host resumes for a cursor, at the latest: right after it, or at the start without a header. */
  function ResumePoint(log: seq<Entry>, cursor: Option<string>): (p: nat)
    ensures p <= |log|
  {
    match Header(cursor)
    case None => 0
    case Some(id) => PositionAfter(log, id)
  }

  lemma {:induction false} PositionOfEntry(log: seq<Entry>, k: nat)
    requires ValidLog(log) && k < |log|
    ensures PositionAfter(log, log[k].id) == k + 1
    decreases |log|
  {
    var front := log[..|log| - 1];
    if k < |log| - 1 {
      assert front[k].id == log[k].id;
      PositionOfEntry(front, k);
    }
  }

  /** A frame that carries the log from `a` on: its documents, and an id that names no later entry. */
  ghost predicate Carries(cfg: Config, log: seq<Entry>, frame: Frame, a: nat) {
    var b := a + |Documents(cfg, frame)|;
    && b <= |log|
    && Documents(cfg, frame) == Docs(log[a..b])
    && (frame.id.Some? ==> exists k | 0 <= k < b :: log[k].id == frame.id.value)
  }

  /** Frames that carry the log on from `a` without a gap; frames without documents may stand anywhere. */
  ghost predicate Transmits(cfg: Config, log: seq<Entry>, frames: seq<Frame>, a: nat)
    decreases |frames|
  {
    frames == [] ||
    (Carries(cfg, log, frames[0], a) && Transmits(cfg, log, frames[1..], a + |Documents(cfg, frames[0])|))
  }

  /** A frame of one entry transmits it. */
  lemma EntryTransmits(cfg: Config, log: seq<Entry>, frame: Frame, a: nat)
    requires a < |log| && frame.id == Some(log[a].id) && Documents(cfg, frame) == [log[a].doc]
    ensures Transmits(cfg, log, [frame], a)
  {
    assert log[a..a + 1] == [log[a]];
    assert Docs(log[a..a + 1]) == [log[a].doc];
    Cons(frame, []);
  }

  /** The position after the last frame of a transmission from `a` that is flushed before the run ends. */
  function Reached(cfg: Config, f: Feed, frames: seq<Frame>, a: nat): nat
    decreases |frames|
  {
    if frames == [] || f.terminal then a
    else Reached(cfg, Deliver(cfg, f, frames[0]), frames[1..], a + |Documents(cfg, frames[0])|)
  }

  /**
   * A connection to a host that keeps its contract: it resumes at `a`, no later than the entry after
   * the cursor, transmits the log from there, and `text` is what arrives of that, cut anywhere. Until
   * a sequence has been seen the duplicate guard is off, so until then the host must not start earlier.
   */
  ghost predicate HostServes(cfg: Config, log: seq<Entry>, start: nat, s: Stream, text: string, wire: string, a: nat) {
    && a <= ResumePoint(log, s.cursor)
    && (s.maxSequence == -1 ==> a >= start)
    && Transmits(cfg, log, FramesOf(cfg.sdk, Cut(wire)), a)
    && text <= wire
  }

  function Furthest(n: nat, b: nat): nat {
    if n < b then b else n
  }

  // ----- The invariant -----

  /** The duplicate guard of a stream that has delivered the log from `start` to `n`. */
  ghost function GuardAt(log: seq<Entry>, start: nat, n: nat): int
    requires ValidLog(log) && n <= |log|
  {
    if n <= start then -1 else Sequence(log[n - 1].doc).value
  }

  /** Delivery has reached position `n`: the caller holds exactly the log from `start` to `n`. */
  ghost predicate At(cfg: Config, log: seq<Entry>, start: nat, f: Feed, n: nat)
    requires ValidLog(log)
  {
    && start <= n <= |log|
    && f.out == Accepted(cfg, Docs(log[start..n]))
    && f.maxSequence == GuardAt(log, start, n)
  }

  /** The invariant: the resume cursor never runs ahead of what has been delivered. */
  ghost predicate CursorBehind(cfg: Config, log: seq<Entry>, start: nat, f: Feed, n: nat)
    requires ValidLog(log)
  {
    At(cfg, log, start, f, n) && ResumePoint(log, f.cursor) <= n
  }

  lemma DocsSnoc(log: seq<Entry>, a: nat, b: nat)
    requires a <= b < |log|
    ensures Docs(log[a..b + 1]) == Docs(log[a..b]) + [log[b].doc]
  {
    assert log[a..b + 1] == log[a..b] + [log[b]];
  }

  lemma DocsCons(log: seq<Entry>, a: nat, b: nat)
    requires a < b <= |log|
    ensures Docs(log[a..b]) == [log[a].doc] + Docs(log[a + 1..b])
  {
    assert log[a..b] == [log[a]] + log[a + 1..b];
  }

  /** The document at the position reached is new: delivery moves on by one. */
  lemma SendNew(cfg: Config, log: seq<Entry>, start: nat, f: Feed, n: nat, event: string)
    requires cfg.runStream && ValidLog(log) && At(cfg, log, start, f, n) && n < |log|
    ensures At(cfg, log, start, Send(cfg, f, event, log[n].doc), n + 1)
  {
    var doc := log[n].doc;
    assert !Stale(cfg, f.maxSequence, doc) by {
      if n > start { assert Sequence(log[n - 1].doc).value < Sequence(doc).value; }
    }
    DocsSnoc(log, start, n);
    AcceptedConcat(cfg, Docs(log[start..n]), [doc]);
    AcceptedOne(cfg, doc);
    Nil(f.out);
  }

  /** A document before it is a duplicate: nothing changes. */
  lemma SendOld(cfg: Config, log: seq<Entry>, start: nat, f: Feed, n: nat, event: string, a: nat)
    requires cfg.runStream && ValidLog(log) && At(cfg, log, start, f, n)
    requires start < n && a < n
    ensures Send(cfg, f, event, log[a].doc) == f
  {
    assert a < n - 1 ==> Sequence(log[a].doc).value < Sequence(log[n - 1].doc).value;
  }

  lemma SendEntry(cfg: Config, log: seq<Entry>, f: Feed, event: string, a: nat, b: nat)
    requires a < b <= |log|
    ensures SendAll(cfg, f, event, Docs(log[a..b])) ==
            SendAll(cfg, Send(cfg, f, event, log[a].doc), event, Docs(log[a + 1..b]))
  {
    DocsCons(log, a, b);
    Cons(log[a].doc, Docs(log[a + 1..b]));
  }

  /** The entry at the position reached moves it on, an earlier one leaves it. */
  lemma SendReached(cfg: Config, log: seq<Entry>, start: nat, f: Feed, n: nat, event: string, a: nat)
    requires cfg.runStream && ValidLog(log) && At(cfg, log, start, f, n)
    requires a <= n && a < |log| && (n == start ==> a >= start)
    ensures At(cfg, log, start, Send(cfg, f, event, log[a].doc), Furthest(n, a + 1))
  {
    if a == n {
      SendNew(cfg, log, start, f, n, event);
    } else {
      SendOld(cfg, log, start, f, n, event, a);
    }
  }

  lemma {:induction false} SendEntries(cfg: Config, log: seq<Entry>, start: nat, f: Feed, n: nat,
                                       event: string, a: nat, b: nat)
    requires cfg.runStream && ValidLog(log) && At(cfg, log, start, f, n)
    requires a <= n && a <= b <= |log| && (n == start ==> a >= start)
    ensures At(cfg, log, start, SendAll(cfg, f, event, Docs(log[a..b])), Furthest(n, b))
    decreases b - a
  {
    if a == b {
      assert Docs(log[a..b]) == [];
    } else {
      var g, m := Send(cfg, f, event, log[a].doc), Furthest(n, a + 1);
      SendEntry(cfg, log, f, event, a, b);
      SendReached(cfg, log, start, f, n, event, a);
      assert Furthest(m, b) == Furthest(n, b);
      SendEntries(cfg, log, start, g, m, event, a + 1, b);
    }
  }

  lemma DeliverMoves(cfg: Config, log: seq<Entry>, start: nat, f: Feed, n: nat, frame: Frame, a: nat, b: nat)
    requires cfg.runStream && ValidLog(log) && At(cfg, log, start, f, n)
    requires a <= n && a <= b <= |log| && (n == start ==> a >= start)
    requires Documents(cfg, frame) == Docs(log[a..b])
    ensures At(cfg, log, start, Deliver(cfg, f, frame), Furthest(n, b))
  {
    var g := Commit(cfg, f, frame);
    SendEntries(cfg, log, start, g, n, frame.event, a, b);
  }

  lemma DeliverCommits(cfg: Config, f: Feed, frame: Frame)
    ensures Deliver(cfg, f, frame).cursor == if frame.id.Some? then frame.id else f.cursor
  {
    var g := Commit(cfg, f, frame);
    SendAllKeeps(cfg, g, frame.event, Documents(cfg, frame));
  }

  /** A frame that carries the log from `a` moves delivery to its end, or leaves it where it was. */
  lemma DeliverCarried(cfg: Config, log: seq<Entry>, start: nat, f: Feed, n: nat, frame: Frame, a: nat, b: nat)
    requires cfg.runStream && ValidLog(log) && CursorBehind(cfg, log, start, f, n)
    requires a <= n && (n == start ==> a >= start) && Carries(cfg, log, frame, a) && b == a + |Documents(cfg, frame)|
    ensures CursorBehind(cfg, log, start, Deliver(cfg, f, frame), Furthest(n, b))
  {
    var g := Deliver(cfg, f, frame);
    DeliverMoves(cfg, log, start, f, n, frame, a, b);
    assert At(cfg, log, start, g, Furthest(n, b));
    DeliverCommits(cfg, f, frame);
    if frame.id.Some? {
      CarriedIdBehind(cfg, log, frame, a, b);
      assert ResumePoint(log, g.cursor) <= b <= Furthest(n, b);
    } else {
      assert ResumePoint(log, g.cursor) <= n <= Furthest(n, b);
    }
  }

  lemma CarriedIdBehind(cfg: Config, log: seq<Entry>, frame: Frame, a: nat, b: nat)
    requires ValidLog(log) && frame.id.Some?
    requires Carries(cfg, log, frame, a) && b == a + |Documents(cfg, frame)|
    ensures ResumePoint(log, frame.id) <= b
  {
    IdBehind(log, frame.id.value, b);
  }

  lemma IdBehind(log: seq<Entry>, id: string, b: nat)
    requires ValidLog(log) && b <= |log| && exists k | 0 <= k < b :: log[k].id == id
    ensures ResumePoint(log, Some(id)) <= b
  {
    var k :| 0 <= k < b && log[k].id == id;
    PositionOfEntry(log, k);
  }

  lemma FurthestTwice(n: nat, b: nat, end: nat)
    requires b <= end
    ensures Furthest(Furthest(n, b), end) == Furthest(n, end)
  {
  }

  /** Delivery alone, wherever the ids lead: a transmission moves it to the furthest entry flushed. */
  lemma {:induction false} TransmissionMoves(cfg: Config, log: seq<Entry>, start: nat, f: Feed, n: nat,
                                             frames: seq<Frame>, a: nat)
    requires cfg.runStream && ValidLog(log) && At(cfg, log, start, f, n)
    requires a <= n && (n == start ==> a >= start) && Transmits(cfg, log, frames, a)
    ensures At(cfg, log, start, DeliverAll(cfg, f, frames), Furthest(n, Reached(cfg, f, frames, a)))
    decreases |frames|
  {
    if frames != [] && !f.terminal {
      var g, b := Deliver(cfg, f, frames[0]), a + |Documents(cfg, frames[0])|;
      var m, end := Furthest(n, b), Reached(cfg, g, frames[1..], b);
      assert Carries(cfg, log, frames[0], a) && Transmits(cfg, log, frames[1..], b);
      DeliverMoves(cfg, log, start, f, n, frames[0], a, b);
      ReachedGrows(cfg, g, frames[1..], b);
      FurthestTwice(n, b, end);
      assert Reached(cfg, f, frames, a) == end;
      TransmissionMoves(cfg, log, start, g, m, frames[1..], b);
    }
  }

  /** A transmission delivers exactly what its flushed frames add to the log so far. */
  lemma {:induction false} DeliverTransmission(cfg: Config, log: seq<Entry>, start: nat, f: Feed, n: nat,
                                               frames: seq<Frame>, a: nat)
    requires cfg.runStream && ValidLog(log) && CursorBehind(cfg, log, start, f, n)
    requires a <= n && (n == start ==> a >= start) && Transmits(cfg, log, frames, a)
    ensures CursorBehind(cfg, log, start, DeliverAll(cfg, f, frames), Furthest(n, Reached(cfg, f, frames, a)))
    decreases |frames|
  {
    if frames != [] && !f.terminal {
      var g, b := Deliver(cfg, f, frames[0]), a + |Documents(cfg, frames[0])|;
      var m, end := Furthest(n, b), Reached(cfg, g, frames[1..], b);
      assert Carries(cfg, log, frames[0], a) && Transmits(cfg, log, frames[1..], b);
      DeliverCarried(cfg, log, start, f, n, frames[0], a, b);
      ReachedGrows(cfg, g, frames[1..], b);
      FurthestTwice(n, b, end);
      assert Reached(cfg, f, frames, a) == end;
      DeliverTransmission(cfg, log, start, g, m, frames[1..], b);
    }
  }

  lemma {:induction false} ReachedGrows(cfg: Config, f: Feed, frames: seq<Frame>, a: nat)
    ensures Reached(cfg, f, frames, a) >= a
    decreases |frames|
  {
    if frames != [] && !f.terminal {
      ReachedGrows(cfg, Deliver(cfg, f, frames[0]), frames[1..], a + |Documents(cfg, frames[0])|);
    }
  }

  lemma {:induction false} TransmitsPrefix(cfg: Config, log: seq<Entry>, frames: seq<Frame>, more: seq<Frame>, a: nat)
    requires Transmits(cfg, log, frames + more, a)
    ensures Transmits(cfg, log, frames, a)
    decreases |frames|
  {
    if frames != [] {
      ConcatTail(frames, more);
      TransmitsPrefix(cfg, log, frames[1..], more, a + |Documents(cfg, frames[0])|);
    }
  }

  /** The frames completed before a cut are the first frames of the stream that was cut. */
  lemma FramesOfPrefix(cfg: Config, log: seq<Entry>, raws: seq<string>, text: string, wire: string, a: nat)
    requires raws <= Cut(text) && text <= wire
    requires Transmits(cfg, log, FramesOf(cfg.sdk, Cut(wire)), a)
    ensures Transmits(cfg, log, FramesOf(cfg.sdk, raws), a)
  {
    CutPrefix(text, wire);
    var more := Cut(wire)[|raws|..];
    assert raws + more == Cut(wire);
    AssembleConcat(cfg.sdk, FRESH, 0, raws, more);
    var first := Assemble(cfg.sdk, FRESH, 0, raws);
    TransmitsPrefix(cfg, log, first.frames, Assemble(cfg.sdk, first.pending, first.retry, more).frames, a);
  }

  // ----- The frame that a cut leaves behind -----

  /**
   * A frame takes delivery from position `k` to position `m`: the documents that pass the duplicate
   * guard are the entries between, as far as they can be handed over, and its id names no entry after `m`.
   */
  ghost predicate HandsOver(cfg: Config, log: seq<Entry>, start: nat, frame: Frame, k: nat, m: nat)
    requires ValidLog(log)
  {
    var docs := Documents(cfg, frame);
    && k <= m <= |log|
    && Accepted(cfg, Unguarded(cfg, GuardAt(log, start, k), docs)) == Accepted(cfg, Docs(log[k..m]))
    && GuardAfter(cfg, GuardAt(log, start, k), docs) == GuardAt(log, start, m)
    && (frame.id.Some? ==> ResumePoint(log, frame.id) <= m)
  }

  lemma GuardRises(log: seq<Entry>, start: nat, k: nat, m: nat)
    requires ValidLog(log) && start <= k <= |log| && start <= m <= |log|
    ensures GuardAt(log, start, k) <= GuardAt(log, start, m) <==> k <= m
  {
  }

  lemma DocsSplit(cfg: Config, log: seq<Entry>, start: nat, k: nat, m: nat)
    requires start <= k <= m <= |log|
    ensures Accepted(cfg, Docs(log[start..m])) == Accepted(cfg, Docs(log[start..k])) + Accepted(cfg, Docs(log[k..m]))
  {
    assert Docs(log[start..m]) == Docs(log[start..k]) + Docs(log[k..m]);
    AcceptedConcat(cfg, Docs(log[start..k]), Docs(log[k..m]));
  }

  lemma Cancel<T>(x: seq<T>, a: seq<T>, b: seq<T>)
    ensures x + a == x + b <==> a == b
  {
    if x + a == x + b {
      assert a == (x + a)[|x|..] && b == (x + b)[|x|..];
    }
  }

  /** Flushing any frame at all keeps delivery exact, up to `m`, exactly when the frame takes it there. */
  lemma FlushExact(cfg: Config, log: seq<Entry>, start: nat, f: Feed, frame: Frame, k: nat, m: nat)
    requires cfg.runStream && ValidLog(log) && CursorBehind(cfg, log, start, f, k)
    ensures CursorBehind(cfg, log, start, Deliver(cfg, f, frame), m) <==> HandsOver(cfg, log, start, frame, k, m)
  {
    DeliverEffect(cfg, f, frame);
    if start <= m <= |log| {
      GuardRises(log, start, k, m);
      if k <= m {
        DocsSplit(cfg, log, start, k, m);
        Cancel(f.out, Accepted(cfg, Unguarded(cfg, f.maxSequence, Documents(cfg, frame))),
               Accepted(cfg, Docs(log[k..m])));
      }
    }
  }

  /** A frame without documents: only its id can do harm. */
  lemma SilentFrame(cfg: Config, log: seq<Entry>, start: nat, frame: Frame, k: nat)
    requires ValidLog(log) && start <= k <= |log| && Documents(cfg, frame) == []
    ensures
      (exists m: nat :: HandsOver(cfg, log, start, frame, k, m)) <==>
      frame.id.None? || ResumePoint(log, frame.id) <= k
  {
    assert Docs(log[k..k]) == [];
    forall m: nat | HandsOver(cfg, log, start, frame, k, m) ensures m == k {
      GuardRises(log, start, m, k);
    }
    if frame.id.None? || ResumePoint(log, frame.id) <= k {
      assert HandsOver(cfg, log, start, frame, k, k);
    }
  }

  /** A frame that carries entries from a position already reached: its id must name none after them. */
  lemma CarryingFrame(cfg: Config, log: seq<Entry>, start: nat, f: Feed, frame: Frame, k: nat, a: nat, b: nat)
    requires cfg.runStream && ValidLog(log) && CursorBehind(cfg, log, start, f, k)
    requires a <= k && a <= b <= |log| && (k == start ==> a >= start) && Documents(cfg, frame) == Docs(log[a..b])
    ensures
      (exists m: nat :: HandsOver(cfg, log, start, frame, k, m)) <==>
      frame.id.None? || ResumePoint(log, frame.id) <= Furthest(k, b)
  {
    var g, n := Deliver(cfg, f, frame), Furthest(k, b);
    DeliverMoves(cfg, log, start, f, k, frame, a, b);
    DeliverCommits(cfg, f, frame);
    FlushExact(cfg, log, start, f, frame, k, n);
    forall m: nat | HandsOver(cfg, log, start, frame, k, m) ensures m == n {
      FlushExact(cfg, log, start, f, frame, k, m);
      GuardRises(log, start, m, n);
      GuardRises(log, start, n, m);
    }
  }

  // ----- One connection -----

  /** How far the frames that a connection completes take delivery from position `n`; it resumed from `a`. */
  function Gained(cfg: Config, s: Stream, text: string, a: nat, n: nat): nat {
    Furthest(n, Reached(cfg, Open(s).feed, FramesOf(cfg.sdk, Whole(cfg.sdk, text)), a))
  }

  /** The client copes with a cut: the frame left behind is not flushed, or hands over entries, if any, as it should. */
  ghost predicate CopesWith(cfg: Config, log: seq<Entry>, start: nat, s: Stream, text: string, ending: Ending, k: nat)
    requires ValidLog(log)
  {
    || Unflushed(cfg, Open(s).feed, text, ending)
    || exists m: nat :: HandsOver(cfg, log, start, LastFrame(cfg.sdk, text), k, m)
  }

  /** How far the flush of the last frame takes delivery from position `k`. */
  ghost function Landed(cfg: Config, log: seq<Entry>, start: nat, s: Stream, text: string, ending: Ending, k: nat): nat
    requires ValidLog(log) && CopesWith(cfg, log, start, s, text, ending, k)
  {
    if Unflushed(cfg, Open(s).feed, text, ending) then k
    else
      var m: nat :| HandsOver(cfg, log, start, LastFrame(cfg.sdk, text), k, m);
      m
  }

  /** The completed frames of any cut of a lawful transmission deliver exactly what they add to the log so far. */
  lemma CompletedDelivers(cfg: Config, log: seq<Entry>, start: nat, s: Stream, text: string, wire: string,
                          a: nat, n: nat)
    requires cfg.runStream && ValidLog(log) && CursorBehind(cfg, log, start, Open(s).feed, n)
    requires HostServes(cfg, log, start, s, text, wire, a)
    ensures CursorBehind(cfg, log, start, Completed(cfg, Open(s).feed, text), Gained(cfg, s, text, a, n))
  {
    var raws := Whole(cfg.sdk, text);
    FramesOfPrefix(cfg, log, raws, text, wire, a);
    DeliverTransmission(cfg, log, start, Open(s).feed, n, FramesOf(cfg.sdk, raws), a);
  }

  /**
   * Any cut of a lawful transmission: delivery stays exact and the cursor behind it exactly when the
   * client copes with the cut.
   */
  lemma SafeCuts(cfg: Config, log: seq<Entry>, start: nat, s: Stream, text: string, ending: Ending,
                 wire: string, a: nat, n: nat)
    requires cfg.runStream && ValidLog(log) && CursorBehind(cfg, log, start, Open(s).feed, n)
    requires HostServes(cfg, log, start, s, text, wire, a)
    ensures
      var g, k := ReadBody(cfg, Open(s), text, ending).feed, Gained(cfg, s, text, a, n);
      (exists m: nat :: CursorBehind(cfg, log, start, g, m)) <==> CopesWith(cfg, log, start, s, text, ending, k)
  {
    var f, k := Completed(cfg, Open(s).feed, text), Gained(cfg, s, text, a, n);
    var g := ReadBody(cfg, Open(s), text, ending).feed;
    CompletedDelivers(cfg, log, start, s, text, wire, a, n);
    BodySplits(cfg, Open(s), text, ending);
    if !Unflushed(cfg, Open(s).feed, text, ending) {
      forall m: nat
        ensures CursorBehind(cfg, log, start, g, m) <==> HandsOver(cfg, log, start, LastFrame(cfg.sdk, text), k, m)
      {
        FlushExact(cfg, log, start, f, LastFrame(cfg.sdk, text), k, m);
      }
    } else {
      assert CursorBehind(cfg, log, start, g, k);
    }
  }

  /** A cut that leaves no documents behind: it does harm exactly by an id that runs ahead. */
  lemma SilentCuts(cfg: Config, log: seq<Entry>, start: nat, s: Stream, text: string, ending: Ending,
                   wire: string, a: nat, n: nat)
    requires cfg.runStream && ValidLog(log) && CursorBehind(cfg, log, start, Open(s).feed, n)
    requires HostServes(cfg, log, start, s, text, wire, a)
    requires Documents(cfg, LastFrame(cfg.sdk, text)) == []
    ensures
      var g, id := ReadBody(cfg, Open(s), text, ending).feed, LastFrame(cfg.sdk, text).id;
      (exists m: nat :: CursorBehind(cfg, log, start, g, m)) <==>
      || Unflushed(cfg, Open(s).feed, text, ending)
      || id.None? || ResumePoint(log, id) <= Gained(cfg, s, text, a, n)
  {
    CompletedDelivers(cfg, log, start, s, text, wire, a, n);
    SafeCuts(cfg, log, start, s, text, ending, wire, a, n);
    SilentFrame(cfg, log, start, LastFrame(cfg.sdk, text), Gained(cfg, s, text, a, n));
  }

  /** A cut that leaves whole entries behind, as when only a blank line is missing. */
  lemma CarryingCuts(cfg: Config, log: seq<Entry>, start: nat, s: Stream, text: string, ending: Ending,
                     wire: string, a: nat, n: nat, c: nat, b: nat)
    requires cfg.runStream && ValidLog(log) && CursorBehind(cfg, log, start, Open(s).feed, n)
    requires HostServes(cfg, log, start, s, text, wire, a)
    requires c <= b <= |log| && Documents(cfg, LastFrame(cfg.sdk, text)) == Docs(log[c..b])
    requires var k := Gained(cfg, s, text, a, n); c <= k && (k == start ==> c >= start)
    ensures
      var g, id := ReadBody(cfg, Open(s), text, ending).feed, LastFrame(cfg.sdk, text).id;
      (exists m: nat :: CursorBehind(cfg, log, start, g, m)) <==>
      || Unflushed(cfg, Open(s).feed, text, ending)
      || id.None? || ResumePoint(log, id) <= Furthest(Gained(cfg, s, text, a, n), b)
  {
    CompletedDelivers(cfg, log, start, s, text, wire, a, n);
    SafeCuts(cfg, log, start, s, text, ending, wire, a, n);
    CarryingFrame(cfg, log, start, Completed(cfg, Open(s).feed, text), LastFrame(cfg.sdk, text),
                  Gained(cfg, s, text, a, n), c, b);
  }

  /** One connection: the caller's documents grow by exactly what arrived, and the cursor stays behind them. */
  lemma ConnectionDelivers(cfg: Config, log: seq<Entry>, start: nat, s: Stream, text: string, ending: Ending,
                           wire: string, a: nat, n: nat)
    requires cfg.runStream && ValidLog(log) && CursorBehind(cfg, log, start, Open(s).feed, n)
    requires HostServes(cfg, log, start, s, text, wire, a)
    requires CopesWith(cfg, log, start, s, text, ending, Gained(cfg, s, text, a, n))
    ensures CursorBehind(cfg, log, start, ReadBody(cfg, Open(s), text, ending).feed,
                         Landed(cfg, log, start, s, text, ending, Gained(cfg, s, text, a, n)))
  {
    var f, k := Completed(cfg, Open(s).feed, text), Gained(cfg, s, text, a, n);
    CompletedDelivers(cfg, log, start, s, text, wire, a, n);
    BodySplits(cfg, Open(s), text, ending);
    if !Unflushed(cfg, Open(s).feed, text, ending) {
      FlushExact(cfg, log, start, f, LastFrame(cfg.sdk, text), k, Landed(cfg, log, start, s, text, ending, k));
    }
  }

  // ----- Whole runs -----

  /** What the host does on one attempt: the text it would send, and the position it resumes from. */
  datatype Service = Service(wire: string, from: nat)

  /** One attempt is with such a host, and its connection, if any, is cut where the client copes. */
  ghost predicate LawfulStep(cfg: Config, log: seq<Entry>, start: nat, s: Stream, a: Attempt, service: Service, n: nat)
    requires ValidLog(log)
  {
    a.net.Body? && !a.before ==>
      && HostServes(cfg, log, start, s, a.net.text, service.wire, service.from)
      && CopesWith(cfg, log, start, s, a.net.text, a.net.ending, Gained(cfg, s, a.net.text, service.from, n))
  }

  /** How far one attempt takes delivery from position `n`. */
  ghost function StepProgress(cfg: Config, log: seq<Entry>, start: nat, s: Stream, a: Attempt, service: Service,
                              n: nat): nat
    requires ValidLog(log) && LawfulStep(cfg, log, start, s, a, service, n)
  {
    if a.net.Body? && !a.before then
      Landed(cfg, log, start, s, a.net.text, a.net.ending, Gained(cfg, s, a.net.text, service.from, n))
    else n
  }

  /** Every connection of a run that has reached position `n` is lawful, as long as the run lasts. */
  ghost predicate Lawful(cfg: Config, policy: Option<Policy>, log: seq<Entry>, start: nat, s: Stream,
                         script: seq<Attempt>, services: seq<Service>, n: nat)
    requires ValidLog(log) && |services| == |script|
    decreases |script|
  {
    script == [] ||
    (&& LawfulStep(cfg, log, start, s, script[0], services[0], n)
     && var (t, v) := Step(cfg, policy, s, script[0]);
        (v.Wait? ==> Lawful(cfg, policy, log, start, t, script[1..], services[1..],
                            StepProgress(cfg, log, start, s, script[0], services[0], n))))
  }

  /** How far the attempts of a run got together, from position `n`. */
  ghost function Progress(cfg: Config, policy: Option<Policy>, log: seq<Entry>, start: nat, s: Stream,
                          script: seq<Attempt>, services: seq<Service>, n: nat): nat
    requires ValidLog(log) && |services| == |script|
    requires Lawful(cfg, policy, log, start, s, script, services, n)
    decreases |script|
  {
    if script == [] then n
    else
      var m := StepProgress(cfg, log, start, s, script[0], services[0], n);
      var (t, v) := Step(cfg, policy, s, script[0]);
      if v.Wait? then Progress(cfg, policy, log, start, t, script[1..], services[1..], m) else m
  }

  lemma StepDelivers(cfg: Config, policy: Option<Policy>, log: seq<Entry>, start: nat, s: Stream,
                     a: Attempt, service: Service, n: nat)
    requires cfg.runStream && ValidLog(log) && CursorBehind(cfg, log, start, Open(s).feed, n)
    requires LawfulStep(cfg, log, start, s, a, service, n)
    ensures CursorBehind(cfg, log, start, Open(Step(cfg, policy, s, a).0).feed,
                         StepProgress(cfg, log, start, s, a, service, n))
  {
    var m, after := StepProgress(cfg, log, start, s, a, service, n), Open(Step(cfg, policy, s, a).0).feed;
    if a.net.Body? && !a.before {
      ConnectionDelivers(cfg, log, start, s, a.net.text, a.net.ending, service.wire, service.from, n);
      StepReads(cfg, policy, s, a);
      SameFeed(cfg, log, start, ReadBody(cfg, Open(s), a.net.text, a.net.ending).feed, after, m);
    } else {
      SameFeed(cfg, log, start, Open(s).feed, after, m);
    }
  }

  /** What a served attempt leaves in the stream is what its body left in the reader. */
  lemma StepReads(cfg: Config, policy: Option<Policy>, s: Stream, a: Attempt)
    requires a.net.Body? && !a.before
    ensures
      var f, g := ReadBody(cfg, Open(s), a.net.text, a.net.ending).feed, Open(Step(cfg, policy, s, a).0).feed;
      g.cursor == f.cursor && g.maxSequence == f.maxSequence && g.out == f.out
  {
  }

  lemma SameFeed(cfg: Config, log: seq<Entry>, start: nat, f: Feed, g: Feed, n: nat)
    requires ValidLog(log) && CursorBehind(cfg, log, start, f, n)
    requires g.cursor == f.cursor && g.maxSequence == f.maxSequence && g.out == f.out
    ensures CursorBehind(cfg, log, start, g, n)
  {
  }

  lemma {:induction false} PlayDelivers(cfg: Config, policy: Option<Policy>, log: seq<Entry>, start: nat, s: Stream,
                                        script: seq<Attempt>, services: seq<Service>, n: nat)
    requires cfg.runStream && ValidLog(log) && |services| == |script|
    requires CursorBehind(cfg, log, start, Open(s).feed, n)
    requires Lawful(cfg, policy, log, start, s, script, services, n)
    ensures CursorBehind(cfg, log, start, Open(Play(cfg, policy, s, script).stream).feed,
                         Progress(cfg, policy, log, start, s, script, services, n))
    decreases |script|
  {
    if script != [] {
      StepDelivers(cfg, policy, log, start, s, script[0], services[0], n);
      var (t, v) := Step(cfg, policy, s, script[0]);
      if v.Wait? {
        PlayDelivers(cfg, policy, log, start, t, script[1..], services[1..],
                     StepProgress(cfg, log, start, s, script[0], services[0], n));
      }
    }
  }

  /** The caller holds exactly the log from `start` to `m`, and would resume no later than after `m`. */
  ghost predicate HoldsExactly(cfg: Config, log: seq<Entry>, start: nat, s: Stream, m: nat) {
    && start <= m <= |log|
    && s.out == Accepted(cfg, Docs(log[start..m]))
    && ResumePoint(log, s.cursor) <= m
  }

  /**
   * Exactly-once delivery: after any lawful run from a cursor, the caller holds exactly the log from the
   * entry after that cursor up to the furthest entry that arrived in a flushed frame (for Go: those of
   * them it can decode), in order, with no gap and no duplicate, and the client would not resume past it.
   */
  lemma ExactlyOnce(cfg: Config, policy: Option<Policy>, log: seq<Entry>, lastEventId: Option<string>,
                    script: seq<Attempt>, services: seq<Service>, s: Stream, start: nat)
    requires cfg.runStream && ValidLog(log) && |services| == |script|
    requires s == Start(lastEventId, cfg.sdk, policy) && start == ResumePoint(log, lastEventId)
    requires Lawful(cfg, policy, log, start, s, script, services, start)
    ensures HoldsExactly(cfg, log, start, Play(cfg, policy, s, script).stream,
                         Progress(cfg, policy, log, start, s, script, services, start))
  {
    StartsBehind(cfg, policy, log, lastEventId);
    PlayDelivers(cfg, policy, log, start, s, script, services, start);
    BehindHolds(cfg, log, start, Play(cfg, policy, s, script).stream,
                Progress(cfg, policy, log, start, s, script, services, start));
  }

  lemma BehindHolds(cfg: Config, log: seq<Entry>, start: nat, s: Stream, m: nat)
    requires ValidLog(log) && CursorBehind(cfg, log, start, Open(s).feed, m)
    ensures HoldsExactly(cfg, log, start, s, m)
  {
  }

  lemma StartsBehind(cfg: Config, policy: Option<Policy>, log: seq<Entry>, lastEventId: Option<string>)
    requires ValidLog(log)
    ensures
      var start := ResumePoint(log, lastEventId);
      CursorBehind(cfg, log, start, Open(Start(lastEventId, cfg.sdk, policy)).feed, start)
  {
    var start := ResumePoint(log, lastEventId);
    assert Docs(log[start..start]) == [];
  }

  // ----- Runs cut between frames -----

  predicate BringsNothing(cfg: Config, frame: Frame) {
    frame.id.None? && Documents(cfg, frame) == []
  }

  /** A connection to a host that keeps its contract, of which no frame is flushed half. */
  ghost predicate ServedWhole(cfg: Config, log: seq<Entry>, start: nat, s: Stream, a: Attempt, service: Service) {
    a.net.Body? && !a.before ==>
      && HostServes(cfg, log, start, s, a.net.text, service.wire, service.from)
      && (|| Unflushed(cfg, Open(s).feed, a.net.text, a.net.ending)
          || BringsNothing(cfg, LastFrame(cfg.sdk, a.net.text)))
  }

  ghost predicate AllServedWhole(cfg: Config, policy: Option<Policy>, log: seq<Entry>, start: nat, s: Stream,
                                 script: seq<Attempt>, services: seq<Service>)
    requires |services| == |script|
    decreases |script|
  {
    script == [] ||
    (&& ServedWhole(cfg, log, start, s, script[0], services[0])
     && var (t, v) := Step(cfg, policy, s, script[0]);
        (v.Wait? ==> AllServedWhole(cfg, policy, log, start, t, script[1..], services[1..])))
  }

  /** How far the completed frames of a run's connections take delivery from position `n`. */
  function FramesProgress(cfg: Config, policy: Option<Policy>, s: Stream, script: seq<Attempt>, services: seq<Service>,
                          n: nat): nat
    requires |services| == |script|
    decreases |script|
  {
    if script == [] then n
    else
      var a, from := script[0], services[0].from;
      var m := if a.net.Body? && !a.before then Gained(cfg, s, a.net.text, from, n) else n;
      var (t, v) := Step(cfg, policy, s, a);
      if v.Wait? then FramesProgress(cfg, policy, t, script[1..], services[1..], m) else m
  }

  lemma WholeStepIsLawful(cfg: Config, log: seq<Entry>, start: nat, s: Stream, a: Attempt, service: Service, n: nat)
    requires cfg.runStream && ValidLog(log) && CursorBehind(cfg, log, start, Open(s).feed, n)
    requires ServedWhole(cfg, log, start, s, a, service)
    ensures LawfulStep(cfg, log, start, s, a, service, n)
    ensures StepProgress(cfg, log, start, s, a, service, n) ==
            if a.net.Body? && !a.before then Gained(cfg, s, a.net.text, service.from, n) else n
  {
    if a.net.Body? && !a.before {
      var last, k := LastFrame(cfg.sdk, a.net.text), Gained(cfg, s, a.net.text, service.from, n);
      CompletedDelivers(cfg, log, start, s, a.net.text, service.wire, service.from, n);
      if !Unflushed(cfg, Open(s).feed, a.net.text, a.net.ending) {
        SilentFrame(cfg, log, start, last, k);
        forall m: nat | HandsOver(cfg, log, start, last, k, m) ensures m == k {
          GuardRises(log, start, m, k);
        }
      }
    }
  }

  lemma {:induction false} WholeRunIsLawful(cfg: Config, policy: Option<Policy>, log: seq<Entry>, start: nat, s: Stream,
                                            script: seq<Attempt>, services: seq<Service>, n: nat)
    requires cfg.runStream && ValidLog(log) && |services| == |script|
    requires CursorBehind(cfg, log, start, Open(s).feed, n)
    requires AllServedWhole(cfg, policy, log, start, s, script, services)
    ensures Lawful(cfg, policy, log, start, s, script, services, n)
    ensures Progress(cfg, policy, log, start, s, script, services, n) ==
            FramesProgress(cfg, policy, s, script, services, n)
    decreases |script|
  {
    if script != [] {
      WholeStepIsLawful(cfg, log, start, s, script[0], services[0], n);
      StepDelivers(cfg, policy, log, start, s, script[0], services[0], n);
      var (t, v) := Step(cfg, policy, s, script[0]);
      if v.Wait? {
        WholeRunIsLawful(cfg, policy, log, start, t, script[1..], services[1..],
                         StepProgress(cfg, log, start, s, script[0], services[0], n));
      }
    }
  }

  /**
   * Exactly-once delivery under a condition on the connections alone: a host that keeps its contract, and
   * no connection flushed in the middle of a frame. The caller then holds the log up to the furthest entry
   * that a completed frame brought.
   */
  lemma ExactlyOnceOnWholeFrames(cfg: Config, policy: Option<Policy>, log: seq<Entry>, lastEventId: Option<string>,
                                 script: seq<Attempt>, services: seq<Service>, s: Stream, start: nat)
    requires cfg.runStream && ValidLog(log) && |services| == |script|
    requires s == Start(lastEventId, cfg.sdk, policy) && start == ResumePoint(log, lastEventId)
    requires AllServedWhole(cfg, policy, log, start, s, script, services)
    ensures HoldsExactly(cfg, log, start, Play(cfg, policy, s, script).stream,
                         FramesProgress(cfg, policy, s, script, services, start))
  {
    StartsBehind(cfg, policy, log, lastEventId);
    WholeRunIsLawful(cfg, policy, log, start, s, script, services, start);
    ExactlyOnce(cfg, policy, log, lastEventId, script, services, s, start);
  }

  // ----- Runs of read errors -----

  /** Every served connection is with a host that keeps its contract, and breaks off with a read error. */
  ghost predicate AllBreakOff(cfg: Config, policy: Option<Policy>, log: seq<Entry>, start: nat, s: Stream,
                              script: seq<Attempt>, services: seq<Service>)
    requires |services| == |script|
    decreases |script|
  {
    script == [] ||
    (var a := script[0];
     && (a.net.Body? && !a.before ==>
           && a.net.ending == Dropped
           && HostServes(cfg, log, start, s, a.net.text, services[0].wire, services[0].from))
     && var (t, v) := Step(cfg, policy, s, a);
        (v.Wait? ==> AllBreakOff(cfg, policy, log, start, t, script[1..], services[1..])))
  }

  lemma {:induction false} BreakingOffIsWhole(cfg: Config, policy: Option<Policy>, log: seq<Entry>, start: nat,
                                              s: Stream, script: seq<Attempt>, services: seq<Service>)
    requires cfg.sdk.TypeScript? && |services| == |script|
    requires AllBreakOff(cfg, policy, log, start, s, script, services)
    ensures AllServedWhole(cfg, policy, log, start, s, script, services)
    decreases |script|
  {
    if script != [] {
      var (t, v) := Step(cfg, policy, s, script[0]);
      if v.Wait? { BreakingOffIsWhole(cfg, policy, log, start, t, script[1..], services[1..]); }
    }
  }

  /** To TypeScript connections may break off anywhere at all, in the middle of a frame or of a line. */
  lemma ExactlyOnceOnReadErrors(cfg: Config, policy: Option<Policy>, log: seq<Entry>, lastEventId: Option<string>,
                                script: seq<Attempt>, services: seq<Service>, s: Stream, start: nat)
    requires cfg.sdk.TypeScript? && cfg.runStream && ValidLog(log) && |services| == |script|
    requires s == Start(lastEventId, cfg.sdk, policy) && start == ResumePoint(log, lastEventId)
    requires AllBreakOff(cfg, policy, log, start, s, script, services)
    ensures HoldsExactly(cfg, log, start, Play(cfg, policy, s, script).stream,
                         FramesProgress(cfg, policy, s, script, services, start))
  {
    BreakingOffIsWhole(cfg, policy, log, start, s, script, services);
    ExactlyOnceOnWholeFrames(cfg, policy, log, lastEventId, script, services, s, start);
  }

  // ----- Runs that reach their end -----

  /** Only the last entry of the log can end the run. */
  ghost predicate EndsAtLast(cfg: Config, log: seq<Entry>) {
    forall event, i | 0 <= i < |log| - 1 :: !EndsRun(cfg, event, log[i].doc)
  }

  lemma {:induction false} SendEndsAtLast(cfg: Config, log: seq<Entry>, f: Feed, event: string, a: nat, b: nat)
    requires EndsAtLast(cfg, log) && a <= b <= |log| && !f.terminal
    ensures SendAll(cfg, f, event, Docs(log[a..b])).terminal ==> b == |log|
    decreases b - a
  {
    if a == b {
      assert Docs(log[a..b]) == [];
    } else {
      SendEntry(cfg, log, f, event, a, b);
      var g := Send(cfg, f, event, log[a].doc);
      if !g.terminal { SendEndsAtLast(cfg, log, g, event, a + 1, b); }
    }
  }

  /** A transmission that ends the run has reached the end of the log. */
  lemma {:induction false} EndIsReached(cfg: Config, log: seq<Entry>, f: Feed, frames: seq<Frame>, a: nat)
    requires EndsAtLast(cfg, log) && Transmits(cfg, log, frames, a)
    requires !f.terminal && DeliverAll(cfg, f, frames).terminal
    ensures Reached(cfg, f, frames, a) == |log|
    decreases |frames|
  {
    var g, b := Deliver(cfg, f, frames[0]), a + |Documents(cfg, frames[0])|;
    if g.terminal {
      SendEndsAtLast(cfg, log, Commit(cfg, f, frames[0]), frames[0].event, a, b);
    } else {
      EndIsReached(cfg, log, g, frames[1..], b);
    }
  }

  /** The run is over because the completed frames of its last connection ended it. */
  predicate Completes(cfg: Config, policy: Option<Policy>, s: Stream, script: seq<Attempt>)
    decreases |script|
  {
    && script != []
    && var a := script[0];
       var (t, v) := Step(cfg, policy, s, a);
       if v.Wait? then Completes(cfg, policy, t, script[1..])
       else a.net.Body? && !a.before && Completed(cfg, Open(s).feed, a.net.text).terminal
  }

  lemma {:induction false} ProgressIsComplete(cfg: Config, policy: Option<Policy>, log: seq<Entry>, start: nat,
                                              s: Stream, script: seq<Attempt>, services: seq<Service>, n: nat)
    requires cfg.runStream && ValidLog(log) && EndsAtLast(cfg, log) && |services| == |script|
    requires CursorBehind(cfg, log, start, Open(s).feed, n)
    requires Lawful(cfg, policy, log, start, s, script, services, n) && Completes(cfg, policy, s, script)
    ensures Progress(cfg, policy, log, start, s, script, services, n) == |log|
    decreases |script|
  {
    var a := script[0];
    var (t, v) := Step(cfg, policy, s, a);
    if v.Wait? {
      StepDelivers(cfg, policy, log, start, s, a, services[0], n);
      ProgressIsComplete(cfg, policy, log, start, t, script[1..], services[1..],
                         StepProgress(cfg, log, start, s, a, services[0], n));
    } else {
      var raws := Whole(cfg.sdk, a.net.text);
      FramesOfPrefix(cfg, log, raws, a.net.text, services[0].wire, services[0].from);
      EndIsReached(cfg, log, Open(s).feed, FramesOf(cfg.sdk, raws), services[0].from);
    }
  }

  /** A lawful run that the last entry of the log ended holds the whole log after its starting cursor. */
  lemma CompletedRunHoldsAll(cfg: Config, policy: Option<Policy>, log: seq<Entry>, lastEventId: Option<string>,
                             script: seq<Attempt>, services: seq<Service>, s: Stream, start: nat)
    requires cfg.runStream && ValidLog(log) && EndsAtLast(cfg, log) && |services| == |script|
    requires s == Start(lastEventId, cfg.sdk, policy) && start == ResumePoint(log, lastEventId)
    requires Lawful(cfg, policy, log, start, s, script, services, start) && Completes(cfg, policy, s, script)
    ensures HoldsExactly(cfg, log, start, Play(cfg, policy, s, script).stream, |log|)
  {
    StartsBehind(cfg, policy, log, lastEventId);
    ProgressIsComplete(cfg, policy, log, start, s, script, services, start);
    ExactlyOnce(cfg, policy, log, lastEventId, script, services, s, start);
  }
}
