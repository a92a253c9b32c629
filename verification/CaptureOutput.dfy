/** The mailbox as the capture layer keeps it: an object several queues update under one lock,
    holding references to captured frames that it must give back exactly once. */
module CaptureOutput {
  import opened Common
  import opened Strips
  import opened Mailbox

  ghost function One(b: bool): nat {
    if b then 1 else 0
  }

  class OizysCaptureOutput {
    var enabled: bool
    var failed: bool
    var failure: string
    var pending: Option<Sample>
    var last: Option<Sample>
    const pendingRects: array<Rect>
    var pendingRectCount: int
    var scheduled: bool
    var dropped: nat

    /** Consume blocks on the worker queue. */
    ghost var queued: nat
    /** The frame the serial worker has in hand. */
    ghost var inHand: Option<Sample>
    /** Any one frame, and how often a reference to it was taken and given back. */
    ghost const watched: Sample
    ghost var retained: nat
    ghost var released: nat
    /** Frames accepted, handed to the worker, and thrown away by disabling. */
    ghost var accepted: nat
    ghost var consumed: nat
    ghost var discarded: nat

    ghost predicate Valid()
      reads this, pendingRects
    {
      && pendingRects.Length == MAX_RECTS
      && -1 <= pendingRectCount <= MAX_RECTS
      && (pending.None? && enabled ==> pendingRectCount == 0)
      && queued == (if scheduled then 1 else 0)
      && (pending.Some? ==> scheduled)
      && retained == released + Refs(pending) + Refs(last) + Refs(inHand)
      && accepted == consumed + dropped + discarded + One(pending.Some?)
    }

    ghost function Refs(s: Option<Sample>): nat {
      One(s == Some(watched))
    }

    ghost function Model(): Output
      requires pendingRects.Length == MAX_RECTS && -1 <= pendingRectCount <= MAX_RECTS
      reads this, pendingRects
    {
      Output(enabled, failed, failure, pending, last,
             HintNow(),
             scheduled, dropped)
    }

    ghost function HintNow(): Hint
      requires pendingRects.Length == MAX_RECTS && -1 <= pendingRectCount <= MAX_RECTS
      reads this`pendingRectCount, pendingRects
    {
      if pendingRectCount < 0 then Unknown else Known(pendingRects[..pendingRectCount])
    }

    constructor (ghost anyFrame: Sample)
      ensures Valid() && Model() == CREATED && watched == anyFrame
      ensures retained == released == 0 && accepted == 0 && inHand.None? && fresh(pendingRects)
    {
      watched := anyFrame;
      enabled, failed, failure := true, false, "";
      pending, last := None, None;
      pendingRects := new Rect[MAX_RECTS](_ => Rect(0, 0, 0, 0));
      pendingRectCount, scheduled, dropped := 0, false, 0;
      queued, accepted, consumed, discarded := 0, 0, 0, 0;
      retained, released, inHand := 0, 0, None;
      new;
      assert pendingRects[..0] == [];
    }

    method Append(rects: seq<Rect>)
      requires pendingRects.Length == MAX_RECTS && 0 <= pendingRectCount && pendingRectCount + |rects| <= MAX_RECTS
      modifies this`pendingRectCount, pendingRects
      ensures pendingRectCount == old(pendingRectCount) + |rects|
      ensures pendingRects[..pendingRectCount] == old(pendingRects[..pendingRectCount]) + rects
    {
      var n := pendingRectCount;
      for k := 0 to |rects|
        invariant pendingRects[..n] == old(pendingRects[..pendingRectCount])
        invariant forall j :: 0 <= j < k ==> pendingRects[n + j] == rects[j]
        modifies pendingRects
      {
        pendingRects[n + k] := rects[k];
      }
      pendingRectCount := n + |rects|;
    }

    /** Union the rectangles with those of the frame being replaced, if there is one. */
    method MergeRects(rects: seq<Rect>)
      requires pendingRects.Length == MAX_RECTS && -1 <= pendingRectCount <= MAX_RECTS && |rects| <= MAX_RECTS
      modifies this`pendingRectCount, pendingRects
      ensures -1 <= pendingRectCount <= MAX_RECTS
      ensures HintNow() == old(Model().Merge(rects))
    {
      if pending.None? {
        pendingRectCount := 0;
        assert pendingRects[..0] == [];
      }
      if |rects| == 0 || pendingRectCount + |rects| > MAX_RECTS {
        pendingRectCount := -1;
      } else if pendingRectCount >= 0 {
        Append(rects);
      }
    }

    /** Borrows the sample; keeps at most one pending frame. */
    method Enqueue(sample: Sample, status: int, valid: bool, rects: seq<Rect>)
      requires Valid()
      modifies this, pendingRects
      ensures Valid() && Model() == old(Model()).Enqueue(sample, status, valid, rects)
      ensures pending == if status == 0 && valid && old(enabled) then Some(sample) else old(pending)
      ensures accepted == old(accepted) + One(status == 0 && valid && old(enabled))
      ensures consumed == old(consumed) && discarded == old(discarded) && inHand == old(inHand)
    {
      if status != 0 || !valid {
        return;
      }
      var said := if |rects| > MAX_RECTS then [] else rects;
      if !enabled {
        return;
      }
      if pending.Some? {
        released := released + Refs(pending);
        dropped := dropped + 1;
      }
      MergeRects(said);
      Post(sample);
    }

    /** The frame now waits, and a consume block is queued for it unless one already is. */
    method Post(sample: Sample)
      modifies this`retained, this`pending, this`accepted, this`scheduled, this`queued
      ensures pending == Some(sample) && scheduled && accepted == old(accepted) + 1
      ensures retained == old(retained) + Refs(Some(sample))
      ensures queued == old(queued) + if old(scheduled) then 0 else 1
    {
      retained := retained + Refs(Some(sample));
      pending := Some(sample);
      accepted := accepted + 1;
      var schedule := !scheduled;
      scheduled := true;
      if schedule {
        queued := queued + 1;
      }
    }

    /** The queued block takes the waiting frame, if any, and its rectangles. */
    method Take() returns (sample: Option<Sample>, rects: seq<Rect>)
      requires Valid() && queued > 0 && inHand.None?
      modifies this
      ensures Valid() && Model() == old(Model()).Take() && queued == 0
      ensures pending.None? && !scheduled && enabled == old(enabled) && last == old(last)
      ensures sample == old(pending) && rects == old(Model()).TakenRects()
      ensures inHand == sample
      ensures accepted == old(accepted) && discarded == old(discarded) && consumed == old(consumed) + One(sample.Some?)
    {
      sample := pending;
      var rectCount := if pendingRectCount < 0 then 0 else pendingRectCount;
      rects := pendingRects[..rectCount];
      inHand := pending;
      consumed := consumed + One(pending.Some?);
      pending := None;
      scheduled := false;
      pendingRectCount := 0;
      queued := queued - 1;
      assert pendingRects[..0] == [];
    }

    /** Hold the frame just presented, so that it can be presented again. */
    method Keep(sample: Sample)
      requires Valid() && inHand == Some(sample)
      modifies this
      ensures Valid() && Model() == old(Model()).Keep(sample)
      ensures last == Some(sample) && pending == old(pending) && enabled == old(enabled)
      ensures queued == old(queued) && inHand == old(inHand)
      ensures accepted == old(accepted) && discarded == old(discarded) && consumed == old(consumed)
    {
      var previous := last;
      retained := retained + Refs(Some(sample));
      last := Some(sample);
      if previous.Some? {
        released := released + Refs(previous);
      }
    }

    /** The worker gives back its own reference. */
    method Release(sample: Sample)
      requires Valid() && inHand == Some(sample)
      modifies this
      ensures Valid() && Model() == old(Model())
      ensures queued == old(queued) && inHand.None?
      ensures accepted == old(accepted) && discarded == old(discarded) && consumed == old(consumed)
    {
      released := released + Refs(Some(sample));
      inHand := None;
    }

    /** One more reference to the last presented frame, for a repaint. */
    method Retake() returns (sample: Option<Sample>)
      requires Valid() && inHand.None?
      modifies this
      ensures Valid() && Model() == old(Model())
      ensures sample == if enabled then last else None
      ensures queued == old(queued) && inHand == sample
      ensures accepted == old(accepted) && discarded == old(discarded) && consumed == old(consumed)
    {
      if !enabled {
        return None;
      }
      sample := last;
      retained := retained + Refs(sample);
      inHand := sample;
    }

    /** The last frame again, whole: it is not a report of what moved. */
    method Repaint(driverFails: bool) returns (shown: Option<Sample>)
      requires Valid() && inHand.None?
      modifies this
      ensures Valid() && inHand.None? && queued == old(queued)
      ensures shown == if old(enabled) then old(last) else None
      ensures !(driverFails && shown.Some?) ==> Model() == old(Model())
      ensures driverFails && shown.Some? ==> Model() == old(Model()).Fail(PRESENT_FAILED)
    {
      shown := Retake();
      if shown.None? {
        return;
      }
      if driverFails {
        Fail(PRESENT_FAILED);
      }
      Release(shown.value);
    }

    method Disable()
      requires Valid()
      modifies this
      ensures Valid() && Model() == old(Model()).Disable()
      ensures !enabled && pending.None? && last.None? && failed == old(failed)
      ensures queued == old(queued) && inHand == old(inHand)
      ensures accepted == old(accepted) && consumed == old(consumed)
      ensures discarded == old(discarded) + One(old(pending).Some?)
    {
      enabled := false;
      released := released + Refs(pending) + Refs(last);
      discarded := discarded + One(pending.Some?);
      pending := None;
      last := None;
    }

    method Fail(message: string)
      requires Valid()
      modifies this
      ensures Valid() && Model() == old(Model()).Fail(message)
      ensures failed && failure == if old(failed) then old(failure) else message
      ensures !old(failed) ==> !enabled && pending.None? && last.None?
      ensures queued == old(queued) && inHand == old(inHand)
      ensures accepted == old(accepted) && consumed == old(consumed)
    {
      if failed {
        return;
      }
      failure := message;
      failed := true;
      Disable();
    }

    /** The whole consume block, undisturbed: what was shown to the driver, and the frame kept
        for repainting even when showing it failed and disabled the output. */
    method Consume(driverFails: bool) returns (shown: Option<Sample>, rects: seq<Rect>)
      requires Valid() && queued > 0 && inHand.None?
      modifies this
      ensures Valid() && queued == 0 && inHand.None?
      ensures shown == if old(enabled) then old(pending) else None
      ensures rects == old(Model()).TakenRects()
      ensures last == if old(pending).Some? && old(enabled) then old(pending) else old(last)
      ensures old(enabled) && !old(failed) && old(pending).Some? ==> (enabled <==> !driverFails)
    {
      var sample;
      sample, rects := Take();
      shown := None;
      if sample.None? {
        return;
      }
      if enabled {
        shown := sample;
        if driverFails {
          Fail(PRESENT_FAILED);
        }
        Keep(sample.value);
      }
      Release(sample.value);
    }

    /** Called once the producer and worker queues have drained: every reference taken has been
        given back, once. */
    method Destroy()
      requires Valid() && inHand.None?
      modifies this
      ensures Valid() && retained == released
      ensures accepted == consumed + dropped + discarded
    {
      Disable();
    }
  }
}
