/** The single-connection consumer of version 1, and what version 2 with reconnect disabled makes of it. */
module Versions {
  import opened Json
  import opened Seqs
  import opened Frames
  import opened Delivery
  import opened Reading
  import opened Session

  /** All the frames a Go consumer flushes for a body: the completed ones and what is pending at the end. */
  function FlushedFrames(text: string): seq<Frame> {
    var a := Assemble(Go, FRESH, 0, Raws(Go, text));
    a.frames + [a.pending]
  }

  function AllDocuments(cfg: Config, frames: seq<Frame>): seq<Value> {
    if frames == [] then [] else Documents(cfg, frames[0]) + AllDocuments(cfg, frames[1..])
  }

  /** Version 1: every decodable document of every frame; no guard, no cursor, no terminal frame. */
  function ReadV1(cfg: Config, text: string): seq<Value> {
    Accepted(cfg, AllDocuments(cfg, FlushedFrames(text)))
  }

  lemma {:induction false} AllDocumentsSnoc(cfg: Config, frames: seq<Frame>, last: Frame)
    ensures Accepted(cfg, AllDocuments(cfg, frames + [last])) ==
            Accepted(cfg, AllDocuments(cfg, frames)) + Accepted(cfg, Documents(cfg, last))
  {
    AllDocumentsSplit(cfg, frames + [last], |frames|);
    assert (frames + [last])[..|frames|] == frames && (frames + [last])[|frames|..] == [last] && [last][1..] == [];
    assert AllDocuments(cfg, [last]) == Documents(cfg, last);
    AcceptedConcat(cfg, AllDocuments(cfg, frames), Documents(cfg, last));
  }

  /** Version 2 delivers version 1's documents up to the terminal frame, those the guard lets through. */
  lemma {:induction false} DeliverAllFilters(cfg: Config, f: Feed, frames: seq<Frame>)
    ensures
      var k := Delivered(cfg, f, frames);
      && DeliverAll(cfg, f, frames).out ==
         f.out + Accepted(cfg, Unguarded(cfg, f.maxSequence, AllDocuments(cfg, frames[..k])))
      && (k < |frames| ==> DeliverAll(cfg, f, frames).terminal)
    decreases |frames|
  {
    if frames != [] && !f.terminal {
      var g, k := Deliver(cfg, f, frames[0]), Delivered(cfg, Deliver(cfg, f, frames[0]), frames[1..]);
      var docs, more := Documents(cfg, frames[0]), AllDocuments(cfg, frames[1..][..k]);
      assert frames[..k + 1][0] == frames[0] && frames[..k + 1][1..] == frames[1..][..k];
      assert AllDocuments(cfg, frames[..k + 1]) == docs + more;
      DeliverFilters(cfg, f, frames[0], more);
      DeliverAllFilters(cfg, g, frames[1..]);
      Assoc(f.out, Accepted(cfg, Unguarded(cfg, f.maxSequence, docs)),
            Accepted(cfg, Unguarded(cfg, g.maxSequence, more)));
    }
  }

  lemma {:induction false} AllDocumentsSplit(cfg: Config, frames: seq<Frame>, k: nat)
    requires k <= |frames|
    ensures AllDocuments(cfg, frames) == AllDocuments(cfg, frames[..k]) + AllDocuments(cfg, frames[k..])
    decreases k
  {
    if k == 0 {
      assert frames[..k] == [] && frames[k..] == frames;
    } else {
      AllDocumentsSplit(cfg, frames[1..], k - 1);
      Assoc(Documents(cfg, frames[0]), AllDocuments(cfg, frames[1..][..k - 1]), AllDocuments(cfg, frames[k..]));
      assert frames[..k][1..] == frames[1..][..k - 1] && frames[k..] == frames[1..][k - 1..];
    }
  }

  /** A Go body is delivered frame by frame, the one pending at the end included. */
  lemma FlushedInOrder(cfg: Config, r: Reader, text: string)
    requires cfg.sdk.Go? && r.pending == FRESH && r.retry == 0
    ensures forall ending :: ReadBody(cfg, r, text, ending).feed == DeliverAll(cfg, r.feed, FlushedFrames(text))
  {
    var a := Assemble(Go, FRESH, 0, Raws(Go, text));
    TakeAllFactors(cfg, r, Raws(Go, text));
    DeliverAllConcat(cfg, r.feed, a.frames, [a.pending]);
    assert [a.pending][1..] == [];
  }

  /** The guard lets a list of documents through untouched exactly when their sequences rise above it. */
  lemma {:induction false} UnguardedIsAll(cfg: Config, maxSequence: int, docs: seq<Value>)
    requires cfg.runStream
    ensures |Unguarded(cfg, maxSequence, docs)| <= |docs|
    ensures Unguarded(cfg, maxSequence, docs) == docs <==>
            StrictlyIncreasing(Sequences(docs)) && forall n <- Sequences(docs) :: n > maxSequence
    decreases |docs|
  {
    if docs != [] {
      var d, rest := docs[0], Sequences(docs[1..]);
      UnguardedIsAll(cfg, Raise(cfg, maxSequence, d), docs[1..]);
      UnguardedIsAll(cfg, maxSequence, docs[1..]);
      assert docs == [d] + docs[1..];
      if Sequence(d).Some? {
        var n := Sequence(d).value;
        assert Sequences(docs) == [n] + rest;
        RisingCons(n, rest);
        assert n in Sequences(docs);
        if forall m <- Sequences(docs) :: m > maxSequence {
          assert forall m <- rest :: m in Sequences(docs);
        }
        if StrictlyIncreasing(Sequences(docs)) && n > maxSequence {
          forall m | m in Sequences(docs) ensures m > maxSequence {
            assert m == n || m in rest;
          }
        }
      } else {
        assert Sequences(docs) == rest;
      }
    }
  }

  lemma RisingCons(n: int, rest: seq<int>)
    ensures StrictlyIncreasing([n] + rest) <==> (StrictlyIncreasing(rest) && forall m <- rest :: m > n)
  {
    var s := [n] + rest;
    if StrictlyIncreasing(s) {
      forall i, j | 0 <= i < j < |rest| ensures rest[i] < rest[j] { assert s[i + 1] < s[j + 1]; }
      forall m | m in rest ensures m > n {
        var i :| 0 <= i < |rest| && rest[i] == m;
        assert s[0] < s[i + 1];
      }
    }
    if StrictlyIncreasing(rest) && forall m <- rest :: m > n {
      forall i, j | 0 <= i < j < |s| ensures s[i] < s[j] {
        assert s[j] == rest[j - 1] && rest[j - 1] in rest;
        if i > 0 { assert s[i] == rest[i - 1]; }
      }
    }
  }

  function Single(cfg: Config, lastEventId: Option<string>, text: string, ending: Ending, lived: nat): Run {
    Play(cfg, None, Start(lastEventId, Go, None), [Attempt(false, Body(text, ending, lived), false)])
  }

  /** How many of a body's frames version 2 flushes before one ends the run. */
  function Heeded(cfg: Config, lastEventId: Option<string>, text: string): (k: nat)
    ensures k <= |FlushedFrames(text)|
  {
    Delivered(cfg, Open(Start(lastEventId, Go, None)).feed, FlushedFrames(text))
  }

  lemma SingleReads(cfg: Config, lastEventId: Option<string>, text: string, ending: Ending, lived: nat)
    requires cfg.sdk.Go?
    ensures
      var run := Single(cfg, lastEventId, text, ending, lived);
      && run.acts == [Connect(Header(lastEventId)), Ended]
      && run.stream.out == ReadBody(cfg, Open(Start(lastEventId, Go, None)), text, ending).feed.out
  {
  }

  /**
   * Version 2 with reconnect disabled, on one connection: version 1's documents up to the frame that
   * ends the run, without those whose sequence does not rise.
   */
  lemma VersionTwoFiltersVersionOne(cfg: Config, lastEventId: Option<string>, text: string, ending: Ending, lived: nat)
    requires cfg.sdk.Go?
    ensures
      var run, frames := Single(cfg, lastEventId, text, ending, lived), FlushedFrames(text);
      var k := Heeded(cfg, lastEventId, text);
      && run.acts == [Connect(Header(lastEventId)), Ended]
      && run.stream.out == Accepted(cfg, Unguarded(cfg, -1, AllDocuments(cfg, frames[..k])))
      && ReadV1(cfg, text) == Accepted(cfg, AllDocuments(cfg, frames[..k]) + AllDocuments(cfg, frames[k..]))
      && (k < |frames| ==> ReadBody(cfg, Open(Start(lastEventId, Go, None)), text, ending).feed.terminal)
  {
    var r := Open(Start(lastEventId, Go, None));
    SingleReads(cfg, lastEventId, text, ending, lived);
    ReadBodyIgnoresRetry(cfg, r, text, ending, 0);
    FlushedInOrder(cfg, r.(retry := 0), text);
    DeliverAllFilters(cfg, r.feed, FlushedFrames(text));
    AllDocumentsSplit(cfg, FlushedFrames(text), Heeded(cfg, lastEventId, text));
  }

  /**
   * When the sequences are non-negative and strictly increasing and no document follows the frame that
   * ends the run, version 2 with reconnect disabled delivers exactly what version 1 delivers.
   */
  lemma VersionsAgree(cfg: Config, lastEventId: Option<string>, text: string, ending: Ending, lived: nat)
    requires cfg.sdk.Go? && cfg.runStream
    requires
      var s := Sequences(AllDocuments(cfg, FlushedFrames(text)));
      StrictlyIncreasing(s) && forall n <- s :: n >= 0
    requires AllDocuments(cfg, FlushedFrames(text)[Heeded(cfg, lastEventId, text)..]) == []
    ensures Single(cfg, lastEventId, text, ending, lived).stream.out == ReadV1(cfg, text)
  {
    var frames, k := FlushedFrames(text), Heeded(cfg, lastEventId, text);
    VersionTwoFiltersVersionOne(cfg, lastEventId, text, ending, lived);
    AllDocumentsSplit(cfg, frames, k);
    assert AllDocuments(cfg, frames) == AllDocuments(cfg, frames[..k]);
    UnguardedIsAll(cfg, -1, AllDocuments(cfg, frames));
  }
}
