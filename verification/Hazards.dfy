/** Why exactly-once delivery needs its hypotheses. */
module Hazards {
  import opened Json
  import opened Seqs
  import opened Lines
  import opened Frames
  import opened Delivery
  import opened Reading
  import opened Controller
  import opened Session
  import opened Printing
  import opened Resume

  /**
   * A connection that ends right after the `id:` line of a frame: a client that flushes commits the id
   * of a document it never saw. TypeScript does so on a clean close, Go on every ending.
   */
  lemma HalfFrameCommitsItsId(cfg: Config, s: Stream, id: string, ending: Ending)
    requires OneLine(id) && '\0' !in id && Fits(PrintField("id", id))
    ensures
      var r := ReadBody(cfg, Open(s), PrintField("id", id) + "\n", ending);
      && r.feed.out == s.out && r.feed.maxSequence == s.maxSequence && !r.feed.terminal
      && r.feed.cursor == (if FlushesAtEnd(cfg.sdk, ending) then Some(id) else s.cursor)
  {
    var line := PrintField("id", id);
    var text := line + "\n";
    assert text + "" == text;
    CutLine(line, "");
    assert Cut(text) == [line] && Rest(text) == "";
    assert Raws(cfg.sdk, text) == [line] by {
      assert Scannable([line]) == [line] + Scannable([line][1..]);
    }
    ReadPrintedField("id", id);
    TrimPlain(cfg.sdk, line);
    var r := Open(s);
    assert TakeAll(cfg, r, [line]) == TakeAll(cfg, Take(cfg, r, line), [line][1..]);
    assert TakeAll(cfg, r, [line]) == Take(cfg, r, line);
  }

  /**
   * The cursor then runs ahead: with the id of the next entry alone, wherever the stream stands, delivery
   * stays behind no position exactly when the ending flushes. A host that keeps its contract need never
   * send that entry again.
   */
  lemma HalfFrameLosesAnEntry(cfg: Config, log: seq<Entry>, start: nat, s: Stream, n: nat, ending: Ending)
    requires ValidLog(log) && CursorBehind(cfg, log, start, Open(s).feed, n) && n < |log| && log[n].id != ""
    requires OneLine(log[n].id) && '\0' !in log[n].id && Fits(PrintField("id", log[n].id))
    ensures
      var f := ReadBody(cfg, Open(s), PrintField("id", log[n].id) + "\n", ending).feed;
      && At(cfg, log, start, f, n)
      && ((exists m: nat :: CursorBehind(cfg, log, start, f, m)) <==> !FlushesAtEnd(cfg.sdk, ending))
      && (FlushesAtEnd(cfg.sdk, ending) ==> ResumePoint(log, f.cursor) == n + 1)
  {
    var f := ReadBody(cfg, Open(s), PrintField("id", log[n].id) + "\n", ending).feed;
    HalfFrameCommitsItsId(cfg, s, log[n].id, ending);
    PositionOfEntry(log, n);
    if FlushesAtEnd(cfg.sdk, ending) {
      forall m: nat | At(cfg, log, start, f, m) ensures m == n {
        GuardRises(log, start, m, n);
        GuardRises(log, start, n, m);
      }
    } else {
      assert CursorBehind(cfg, log, start, f, n);
    }
  }

  // ----- A line that Go's scanner cannot hold -----

  /** The next entry, written as an honest host writes it, in full. */
  function Oversized(id: string, data: string): string {
    PrintField("id", id) + "\n" + (PrintField("data", data) + "\n" + "\n")
  }

  lemma OversizedLines(id: string, data: string)
    requires OneLine(id) && OneLine(data)
    ensures Cut(Oversized(id, data)) == [PrintField("id", id), PrintField("data", data), ""]
  {
    var first, second := PrintField("id", id), PrintField("data", data);
    assert OneLine(first) && OneLine(second);
    CutLine(first, second + "\n" + "\n");
    CutLine(second, "\n");
    assert "\n" == "" + "\n" + "";
    CutLine("", "");
  }

  /** All of it is one frame. */
  lemma OversizedIsFrame(sdk: Sdk, id: string, data: string)
    requires OneLine(id) && '\0' !in id && OneLine(data)
    ensures FramesOf(sdk, [PrintField("id", id), PrintField("data", data), ""]) == [Frame("message", [data], Some(id))]
  {
    var first, second := PrintField("id", id), PrintField("data", data);
    assert [first, second, ""] == [first] + [second, ""] && [second, ""] == [second] + [""] && [""] == [""] + [];
    AssembleField(sdk, FRESH, 0, "id", id, [second, ""]);
    AssembleDataLine(sdk, FRESH.(id := Some(id)), 0, data, [""]);
    AssembleBlank(sdk, Frame("message", [data], Some(id)), 0, []);
    Nil([data]);
  }

  /** The lines that reach Go's interpreter are only its id. */
  lemma OversizedIsCutOff(id: string, data: string)
    requires OneLine(id) && '\0' !in id && Fits(PrintField("id", id))
    requires OneLine(data) && !Fits(PrintField("data", data))
    ensures
      var text := Oversized(id, data);
      FramesOf(Go, Whole(Go, text)) == [] && LastFrame(Go, text) == FRESH.(id := Some(id))
  {
    var text, first := Oversized(id, data), PrintField("id", id);
    OversizedLines(id, data);
    ScansFirst(first, PrintField("data", data), [""]);
    assert Cut(text) == [first] + ([PrintField("data", data)] + [""]);
    assert Whole(Go, text) == [first] && Tail(Go, text) == [];
    AssembleField(Go, FRESH, 0, "id", id, []);
    Nil([first]);
  }

  lemma ScansFirst(first: string, second: string, rest: seq<string>)
    requires Fits(first) && !Fits(second)
    ensures Scannable([first] + ([second] + rest)) == [first]
  {
    Cons(first, [second] + rest);
    Cons(second, rest);
  }

  /**
   * A data line of a mebibyte or more ends Go's scan, and the final flush commits the id of the entry that
   * was never read. The host has kept its contract and the connection was cut nowhere, yet the entry is lost.
   */
  lemma OversizedEntryIsLost(cfg: Config, log: seq<Entry>, start: nat, s: Stream, n: nat, data: string, ending: Ending)
    requires cfg.sdk.Go? && ValidLog(log) && CursorBehind(cfg, log, start, Open(s).feed, n) && n < |log|
    requires n <= ResumePoint(log, s.cursor) && log[n].id != "" && OneLine(log[n].id) && '\0' !in log[n].id
    requires Fits(PrintField("id", log[n].id)) && OneLine(data) && !Fits(PrintField("data", data))
    requires cfg.parse(data) == Some(log[n].doc)
    ensures
      var text := Oversized(log[n].id, data);
      var f := ReadBody(cfg, Open(s), text, ending).feed;
      && HostServes(cfg, log, start, s, text, text, n)
      && f.out == s.out && f.cursor == Some(log[n].id) && ResumePoint(log, f.cursor) == n + 1
      && !CopesWith(cfg, log, start, s, text, ending, n)
  {
    var id, text := log[n].id, Oversized(log[n].id, data);
    var whole := Frame("message", [data], Some(id));
    OversizedLines(id, data);
    OversizedIsFrame(Go, id, data);
    EntryTransmits(cfg, log, whole, n);
    OversizedIsCutOff(id, data);
    PositionOfEntry(log, n);
    LosesEntry(cfg, log, start, s, n, text, ending);
  }

  /** A text that leaves nothing but the id of the next entry behind. */
  lemma LosesEntry(cfg: Config, log: seq<Entry>, start: nat, s: Stream, n: nat, text: string, ending: Ending)
    requires cfg.sdk.Go? && ValidLog(log) && CursorBehind(cfg, log, start, Open(s).feed, n) && n < |log|
    requires FramesOf(Go, Whole(Go, text)) == [] && LastFrame(Go, text) == FRESH.(id := Some(log[n].id))
    requires ResumePoint(log, Some(log[n].id)) == n + 1
    ensures
      var f := ReadBody(cfg, Open(s), text, ending).feed;
      f.out == s.out && f.cursor == Some(log[n].id) && !CopesWith(cfg, log, start, s, text, ending, n)
  {
    BodySplits(cfg, Open(s), text, ending);
    DeliverEffect(cfg, Open(s).feed, LastFrame(Go, text));
    Nil(s.out);
    SilentFrame(cfg, log, start, LastFrame(Go, text), n);
  }

  // ----- A host that starts early -----

  /** Entries of a later stretch of the log have higher sequences, so that no output is two stretches at once. */
  lemma {:induction false} HandedOverAreEntries(cfg: Config, log: seq<Entry>, a: nat, b: nat, doc: Value)
    requires a <= b <= |log| && doc in Accepted(cfg, Docs(log[a..b]))
    ensures exists i | a <= i < b :: log[i].doc == doc
    decreases b - a
  {
    if a < b {
      DocsCons(log, a, b);
      Cons(log[a].doc, Docs(log[a + 1..b]));
      if doc != log[a].doc { HandedOverAreEntries(cfg, log, a + 1, b, doc); }
    }
  }

  lemma StretchesDiffer(cfg: Config, log: seq<Entry>, a: nat, start: nat, early: nat, m: nat)
    requires ValidLog(log) && a <= early <= start <= m <= |log|
    requires Accepted(cfg, Docs(log[a..early])) <= Accepted(cfg, Docs(log[start..m]))
    ensures Accepted(cfg, Docs(log[a..early])) == []
  {
    var x, y := Accepted(cfg, Docs(log[a..early])), Accepted(cfg, Docs(log[start..m]));
    if x != [] {
      assert x[0] in x && x[0] == y[0] && y[0] in y;
      HandedOverAreEntries(cfg, log, a, early, x[0]);
      HandedOverAreEntries(cfg, log, start, m, x[0]);
    }
  }

  /** What a connection that starts at `a` hands over to a stream that has seen nothing and asked for `start`. */
  lemma EarlyOutput(cfg: Config, log: seq<Entry>, start: nat, s: Stream, text: string, ending: Ending, a: nat)
    requires cfg.runStream && ValidLog(log) && At(cfg, log, start, Open(s).feed, start) && a <= start
    requires Transmits(cfg, log, FramesRead(cfg.sdk, text, ending), a)
    ensures
      var c := Reached(cfg, Open(s).feed, FramesRead(cfg.sdk, text, ending), a);
      a <= c && At(cfg, log, a, ReadBody(cfg, Open(s), text, ending).feed, c)
  {
    var f, frames := Open(s).feed, FramesRead(cfg.sdk, text, ending);
    BodyIsFrames(cfg, Open(s), text, ending);
    StartsAnywhere(cfg, log, start, f, a);
    TransmissionMoves(cfg, log, a, f, a, frames, a);
    ReachedGrows(cfg, f, frames, a);
  }

  /**
   * Until a sequence has been seen nothing guards against duplicates. A connection that starts at `a`,
   * no later than the position `start` the caller asked for, then hands over the log from `a`. What the
   * caller holds is a stretch of the log from `start` exactly when none of the entries that arrived from
   * before `start` can be handed over.
   */
  lemma EarlyResumeRepeats(cfg: Config, log: seq<Entry>, start: nat, s: Stream, text: string, ending: Ending, a: nat)
    requires cfg.runStream && ValidLog(log) && At(cfg, log, start, Open(s).feed, start) && a <= start
    requires Transmits(cfg, log, FramesRead(cfg.sdk, text, ending), a)
    ensures
      var g := ReadBody(cfg, Open(s), text, ending).feed;
      var c := Reached(cfg, Open(s).feed, FramesRead(cfg.sdk, text, ending), a);
      && a <= c <= |log| && g.out == Accepted(cfg, Docs(log[a..c]))
      && ((exists m: nat :: start <= m <= |log| && g.out == Accepted(cfg, Docs(log[start..m]))) <==>
          Accepted(cfg, Docs(log[a..Min(c, start)])) == [])
  {
    EarlyOutput(cfg, log, start, s, text, ending, a);
    EarlyStretch(cfg, log, a, start, Reached(cfg, Open(s).feed, FramesRead(cfg.sdk, text, ending), a));
  }

  /** When the log from `a` to `c` is a stretch of the log from `start`. */
  lemma EarlyStretch(cfg: Config, log: seq<Entry>, a: nat, start: nat, c: nat)
    requires ValidLog(log) && a <= start <= |log| && a <= c <= |log|
    ensures
      (exists m: nat ::
         start <= m <= |log| && Accepted(cfg, Docs(log[a..c])) == Accepted(cfg, Docs(log[start..m]))) <==>
      Accepted(cfg, Docs(log[a..Min(c, start)])) == []
  {
    var out, mid := Accepted(cfg, Docs(log[a..c])), Min(c, start);
    var early, late := Accepted(cfg, Docs(log[a..mid])), Accepted(cfg, Docs(log[mid..c]));
    DocsSplit(cfg, log, a, mid, c);
    forall m: nat | start <= m <= |log| && out == Accepted(cfg, Docs(log[start..m])) ensures early == [] {
      StretchesDiffer(cfg, log, a, start, mid, m);
    }
    if early == [] {
      Nil(late);
      assert Docs(log[start..start]) == [] && Docs(log[c..c]) == [];
      assert out == Accepted(cfg, Docs(log[start..Max(c, start)]));
    }
  }

  /** For the delivery invariant, which fixes the duplicate guard too, such a connection must also go past `start`. */
  lemma EarlyResumeInvariant(cfg: Config, log: seq<Entry>, start: nat, s: Stream, text: string, ending: Ending, a: nat)
    requires cfg.runStream && ValidLog(log) && At(cfg, log, start, Open(s).feed, start) && a <= start
    requires Transmits(cfg, log, FramesRead(cfg.sdk, text, ending), a)
    ensures
      var g := ReadBody(cfg, Open(s), text, ending).feed;
      var c := Reached(cfg, Open(s).feed, FramesRead(cfg.sdk, text, ending), a);
      (exists m: nat :: At(cfg, log, start, g, m)) <==>
      c == a || (start < c && Accepted(cfg, Docs(log[a..start])) == [])
  {
    var g := ReadBody(cfg, Open(s), text, ending).feed;
    var c := Reached(cfg, Open(s).feed, FramesRead(cfg.sdk, text, ending), a);
    EarlyOutput(cfg, log, start, s, text, ending, a);
    if c == a {
      StartsAnywhere(cfg, log, a, g, start);
    } else {
      EarlyGuard(cfg, log, a, start, g, c);
    }
  }

  /** A stream that has delivered nothing stands wherever one likes. */
  lemma StartsAnywhere(cfg: Config, log: seq<Entry>, start: nat, f: Feed, a: nat)
    requires ValidLog(log) && At(cfg, log, start, f, start) && a <= |log|
    ensures At(cfg, log, a, f, a)
  {
    assert Docs(log[start..start]) == [] == Docs(log[a..a]);
  }

  /** With the log from `a` to `c` handed over, what remains to be said of a stream that asked for `start`. */
  lemma EarlyGuard(cfg: Config, log: seq<Entry>, a: nat, start: nat, g: Feed, c: nat)
    requires ValidLog(log) && a <= start <= |log| && a < c && At(cfg, log, a, g, c)
    ensures (exists m: nat :: At(cfg, log, start, g, m)) <==> start < c && Accepted(cfg, Docs(log[a..start])) == []
  {
    forall m: nat | At(cfg, log, start, g, m) ensures m == c > start {
      assert start < m;
      GuardRises(log, a, m, c);
      GuardRises(log, a, c, m);
    }
    if start < c {
      var early, late := Accepted(cfg, Docs(log[a..start])), Accepted(cfg, Docs(log[start..c]));
      DocsSplit(cfg, log, a, start, c);
      assert g.out == early + late;
      assert early + late == late ==> |early| == 0;
      Nil(late);
      assert At(cfg, log, start, g, c) <==> early == [];
    }
  }

  /** In TypeScript a start before the position asked for is harmless only if nothing arrives. */
  lemma EarlyResumeInTypeScript(cfg: Config, log: seq<Entry>, start: nat, s: Stream, text: string, ending: Ending,
                                a: nat)
    requires cfg.sdk.TypeScript?
    requires cfg.runStream && ValidLog(log) && At(cfg, log, start, Open(s).feed, start) && a <= start
    requires Transmits(cfg, log, FramesRead(cfg.sdk, text, ending), a)
    ensures
      var g := ReadBody(cfg, Open(s), text, ending).feed;
      var harmless := a == start || Reached(cfg, Open(s).feed, FramesRead(cfg.sdk, text, ending), a) == a;
      && ((exists m: nat :: start <= m <= |log| && g.out == Accepted(cfg, Docs(log[start..m]))) <==> harmless)
      && ((exists m: nat :: At(cfg, log, start, g, m)) <==> harmless)
  {
    var c := Reached(cfg, Open(s).feed, FramesRead(cfg.sdk, text, ending), a);
    EarlyResumeRepeats(cfg, log, start, s, text, ending, a);
    EarlyResumeInvariant(cfg, log, start, s, text, ending, a);
    TypeScriptAcceptsAll(cfg, Docs(log[a..start]));
    TypeScriptAcceptsAll(cfg, Docs(log[a..Min(c, start)]));
  }

  /** For one: the first entry, which the caller names as its starting cursor, is handed over again. */
  lemma EarlyResumeRepeatsAnEntry(cfg: Config, policy: Option<Policy>, log: seq<Entry>, frame: Frame)
    requires cfg.runStream && ValidLog(log) && log != [] && log[0].id != ""
    requires Documents(cfg, frame) == [log[0].doc] && Accepts(cfg, log[0].doc)
    ensures
      var start := Start(Some(log[0].id), cfg.sdk, policy);
      var f := Deliver(cfg, Open(start).feed, frame);
      && ResumePoint(log, start.cursor) == 1
      && f.out == [log[0].doc] && forall n: nat :: !At(cfg, log, 1, f, n)
  {
    var start := Start(Some(log[0].id), cfg.sdk, policy);
    var f := Deliver(cfg, Open(start).feed, frame);
    PositionOfEntry(log, 0);
    DeliverSingle(cfg, Open(start).feed, frame, log[0].doc);
    forall n: nat ensures !At(cfg, log, 1, f, n) {
      if 1 < n <= |log| {
        assert Sequence(log[0].doc).value < Sequence(log[n - 1].doc).value;
      }
    }
  }
}
