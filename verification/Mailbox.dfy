/** The one-deep mailbox between screen capture and the encoder, on values: a newer frame
    replaces an unconsumed one, and what the replaced frame's rectangles said survives it. */
module Mailbox {
  import opened Common
  import opened Strips

  const MAX_RECTS := 64

  /** A captured frame; the identity tells apart frames that happen to look alike. */
  datatype Sample = Sample(id: nat, surface: Surface)

  /** What is known of the changes since the last consumed frame. */
  datatype Hint = Unknown | Known(rects: seq<Rect>)

  datatype Output = Output(
    enabled: bool,
    failed: bool,
    failure: string,
    pending: Option<Sample>,
    last: Option<Sample>,
    hint: Hint,
    scheduled: bool,
    dropped: nat)
  {
    /** Lists too long to be worth carrying say nothing, like empty ones. */
    function Usable(rects: seq<Rect>): seq<Rect> {
      if |rects| > MAX_RECTS then [] else rects
    }

    function Merge(rects: seq<Rect>): Hint {
      var before := if pending.Some? then hint else Known([]);
      if |rects| == 0 then Unknown
      else if before.Unknown? then Unknown
      else if |before.rects| + |rects| > MAX_RECTS then Unknown
      else Known(before.rects + rects)
    }

    /** Frames that are not complete, or that arrive once disabled, are not accepted. */
    predicate Accepts(status: int, valid: bool) {
      status == 0 && valid && enabled
    }

    function Enqueue(sample: Sample, status: int, valid: bool, rects: seq<Rect>): Output {
      if !Accepts(status, valid) then this
      else this.(
        pending := Some(sample),
        hint := Merge(Usable(rects)),
        scheduled := true,
        dropped := if pending.Some? then dropped + 1 else dropped)
    }

    /** The consumer empties the mailbox. */
    function Take(): Output {
      this.(pending := None, hint := Known([]), scheduled := false)
    }

    /** The rectangles handed to the driver with the frame; none means read everything. */
    function TakenRects(): seq<Rect> {
      if hint.Known? then hint.rects else []
    }

    function Keep(sample: Sample): Output {
      this.(last := Some(sample))
    }

    function Disable(): Output {
      this.(enabled := false, pending := None, last := None)
    }

    function Fail(message: string): Output {
      if failed then this else this.(failed := true, failure := message).Disable()
    }
  }

  const PRESENT_FAILED := "desktop presentation failed; see logs/run.log"

  const CREATED: Output := Output(true, false, "", None, None, Known([]), false, 0)

  function Flatten(lists: seq<seq<Rect>>): seq<Rect> {
    if lists == [] then [] else Flatten(lists[..|lists| - 1]) + lists[|lists| - 1]
  }

  /** A frame that is not complete or not valid, or that comes once disabled, changes nothing; any other
      waits, in the place of the one that did, with a consume block on its way. */
  lemma EnqueueIff(o: Output, sample: Sample, status: int, valid: bool, rects: seq<Rect>)
    ensures status != 0 || !valid || !o.enabled ==> o.Enqueue(sample, status, valid, rects) == o
    ensures status == 0 && valid && o.enabled ==>
              var n := o.Enqueue(sample, status, valid, rects);
              && n.pending == Some(sample) && n.scheduled
              && n.dropped == (if o.pending.Some? then o.dropped + 1 else o.dropped)
              && n == o.(pending := n.pending, scheduled := n.scheduled, dropped := n.dropped, hint := n.hint)
  {
  }

  /** What several lists of rectangles say together: nothing if one of them says nothing or is longer than
      64, or all of them together are. */
  function Saying(lists: seq<seq<Rect>>): Hint {
    if (forall k :: 0 <= k < |lists| ==> 0 < |lists[k]| <= 64) && |Flatten(lists)| <= 64
    then Known(Flatten(lists)) else Unknown
  }

  /** Enqueueing keeps the hint equal to the whole history since the last consume: `lists` is what the
      frames accepted since came with. */
  lemma EnqueueKeepsHistory(o: Output, sample: Sample, rects: seq<Rect>, lists: seq<seq<Rect>>)
    requires o.enabled
    requires if o.pending.Some? then lists != [] && o.hint == Saying(lists) else lists == []
    ensures o.Enqueue(sample, 0, true, rects).hint == Saying(lists + [rects])
  {
    var all := lists + [rects];
    assert all[..|all| - 1] == lists && Flatten(all) == Flatten(lists) + rects;
    assert forall k :: 0 <= k < |all| ==> all[k] == if k < |lists| then lists[k] else rects;
    assert all[|lists|] == rects;
  }
}
