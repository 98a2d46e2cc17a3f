/** Batched delivery is transparent. */
module Batches {
  import opened Json
  import opened Seqs
  import opened Frames
  import opened Delivery
  import opened Versions

  /** Frames that carry the items one by one under their own event names, as an unbuffered stream would. */
  ghost predicate SentSeparately(cfg: Config, frames: seq<Frame>, items: seq<Value>)
    decreases |frames|
  {
    if frames == [] || items == [] then frames == [] && items == []
    else
      && frames[0].event != "batch" && frames[0].event != "state.snapshot"
      && Parsed(cfg, frames[0]) == Some(items[0])
      && SentSeparately(cfg, frames[1..], items[1..])
  }

  /** No item but the last ends the run. */
  predicate OnlyLastEnds(cfg: Config, items: seq<Value>) {
    |items| <= 1 || (!EndsRun(cfg, "batch", items[0]) && OnlyLastEnds(cfg, items[1..]))
  }

  /** What both ways of sending must agree on; the count of frames is not part of it. */
  predicate SameDelivery(a: Feed, b: Feed) {
    a.out == b.out && a.maxSequence == b.maxSequence && a.terminal == b.terminal
  }

  lemma {:induction false} SeparatelyIsTogether(cfg: Config, f: Feed, g: Feed, frames: seq<Frame>, items: seq<Value>)
    requires SentSeparately(cfg, frames, items) && SameDelivery(f, g) && !f.terminal
    requires OnlyLastEnds(cfg, items)
    ensures SameDelivery(DeliverAll(cfg, f, frames), SendAll(cfg, g, "batch", items))
    ensures frames != [] && frames[|frames| - 1].id.Some? ==>
              DeliverAll(cfg, f, frames).cursor == frames[|frames| - 1].id
    decreases |frames|
  {
    if frames != [] {
      var frame, item := frames[0], items[0];
      assert Documents(cfg, frame) == [item];
      DeliverSingle(cfg, f, frame, item);
      var f', g' := Deliver(cfg, f, frame), Send(cfg, g, "batch", item);
      assert SameDelivery(f', g');
      if |items| > 1 {
        SeparatelyIsTogether(cfg, f', g', frames[1..], items[1..]);
      } else {
        assert items[1..] == [] && frames[1..] == [];
      }
    }
  }

  /**
   * A batch frame delivers what the items of its array would deliver one frame each: the same documents in
   * the same order, the same duplicate guard, the same end of the run and, when its id is the last item's,
   * the same cursor. No item but the last may end the run: the stream of single frames would stop there.
   */
  lemma BatchIsTransparent(cfg: Config, f: Feed, batch: Frame, items: seq<Value>, frames: seq<Frame>)
    requires batch.event == "batch" && Parsed(cfg, batch) == Some(Array(items)) && !f.terminal
    requires SentSeparately(cfg, frames, items)
    requires OnlyLastEnds(cfg, items)
    ensures SameDelivery(DeliverAll(cfg, f, frames), Deliver(cfg, f, batch))
    ensures frames != [] && batch.id.Some? && frames[|frames| - 1].id == batch.id ==>
              DeliverAll(cfg, f, frames).cursor == Deliver(cfg, f, batch).cursor
  {
    var g := Commit(cfg, f, batch);
    BatchSends(cfg, f, batch, items);
    SeparatelyIsTogether(cfg, f, g, frames, items);
    SendAllKeeps(cfg, g, "batch", items);
  }

  lemma BatchSends(cfg: Config, f: Feed, batch: Frame, items: seq<Value>)
    requires batch.event == "batch" && Parsed(cfg, batch) == Some(Array(items))
    ensures Deliver(cfg, f, batch) == SendAll(cfg, Commit(cfg, f, batch), "batch", items)
  {
  }

  /** Version 1: every decodable item of the array, in order. */
  lemma BatchInVersionOne(cfg: Config, batch: Frame, items: seq<Value>)
    requires cfg.sdk.Go? && batch.event == "batch" && Parsed(cfg, batch) == Some(Array(items))
    ensures AllDocuments(cfg, [batch]) == items
  {
    Cons(batch, []);
    Nil(items);
  }

  lemma {:induction false} SeparateInVersionOne(cfg: Config, frames: seq<Frame>, items: seq<Value>)
    requires SentSeparately(cfg, frames, items)
    ensures AllDocuments(cfg, frames) == items
    decreases |frames|
  {
    if frames != [] {
      SeparateInVersionOne(cfg, frames[1..], items[1..]);
      HeadTail(items);
    }
  }

  /** Version 1 makes nothing else of a body with a batch than of the body with single frames in its place. */
  lemma BatchIsTransparentInVersionOne(cfg: Config, batch: Frame, items: seq<Value>, frames: seq<Frame>,
                                       batched: string, single: string, before: seq<Frame>, after: seq<Frame>)
    requires cfg.sdk.Go? && batch.event == "batch" && Parsed(cfg, batch) == Some(Array(items))
    requires SentSeparately(cfg, frames, items)
    requires FlushedFrames(batched) == before + [batch] + after && FlushedFrames(single) == before + frames + after
    ensures ReadV1(cfg, batched) == ReadV1(cfg, single)
    ensures ReadV1(cfg, batched) ==
            Accepted(cfg, AllDocuments(cfg, before)) + Accepted(cfg, items) + Accepted(cfg, AllDocuments(cfg, after))
  {
    BatchInVersionOne(cfg, batch, items);
    SeparateInVersionOne(cfg, frames, items);
    DocumentsOfThree(cfg, before, [batch], after);
    DocumentsOfThree(cfg, before, frames, after);
  }

  lemma DocumentsOfThree(cfg: Config, a: seq<Frame>, b: seq<Frame>, c: seq<Frame>)
    ensures Accepted(cfg, AllDocuments(cfg, a + b + c)) ==
            Accepted(cfg, AllDocuments(cfg, a)) + Accepted(cfg, AllDocuments(cfg, b))
            + Accepted(cfg, AllDocuments(cfg, c))
  {
    AllDocumentsConcat(cfg, a + b, c);
    AllDocumentsConcat(cfg, a, b);
    AcceptedConcat(cfg, AllDocuments(cfg, a) + AllDocuments(cfg, b), AllDocuments(cfg, c));
    AcceptedConcat(cfg, AllDocuments(cfg, a), AllDocuments(cfg, b));
  }

  lemma AllDocumentsConcat(cfg: Config, a: seq<Frame>, b: seq<Frame>)
    ensures AllDocuments(cfg, a + b) == AllDocuments(cfg, a) + AllDocuments(cfg, b)
  {
    AllDocumentsSplit(cfg, a + b, |a|);
    assert (a + b)[..|a|] == a && (a + b)[|a|..] == b;
  }

  /** A batch of no items, or `null` for a batch. */
  predicate EmptyBatch(cfg: Config, frame: Frame) {
    frame.event == "batch" && (Parsed(cfg, frame) == Some(Array([])) || Parsed(cfg, frame) == Some(Null))
  }

  /**
   * The reconnect decision asks whether a connection brought a frame. The SDKs give a frame the same
   * answer exactly when it is no empty batch.
   */
  lemma EmptyBatchCounts(cfg: Config, frame: Frame)
    ensures
      var ts, go := Counted(cfg.(sdk := TypeScript), frame), Counted(cfg.(sdk := Go), frame);
      ((ts == 0 <==> go == 0) <==> !EmptyBatch(cfg, frame)) && (EmptyBatch(cfg, frame) ==> ts == 1 && go == 0)
  {
    var ts, go := cfg.(sdk := TypeScript), cfg.(sdk := Go);
    assert Parsed(ts, frame) == Parsed(go, frame) == Parsed(cfg, frame);
  }

  /** What an empty batch hands over: nothing, but for `null`, which TypeScript yields as it is. */
  lemma EmptyBatchDelivers(cfg: Config, f: Feed, frame: Frame)
    requires EmptyBatch(cfg, frame)
    ensures Deliver(cfg, f, frame).out ==
            f.out + (if cfg.sdk.TypeScript? && Parsed(cfg, frame) == Some(Null) then [Null] else [])
  {
    var docs := Documents(cfg, frame);
    Nil(f.out);
    if docs != [] {
      assert docs == [Null];
      DeliverSingle(cfg, f, frame, Null);
    }
  }
}
