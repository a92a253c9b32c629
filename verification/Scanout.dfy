/** One head's scanout as a protocol between the driver and the dock's rotating frame buffers:
    plan, encode into the strip cache, send, publish. Values only, one state per step. */
module Scanout {
  import opened Common
  import opened Strips
  import opened DamageLedger

  /** Everything that changes how a strip is encoded: gain, contrast, warmth, colour tables. */
  type Settings = nat

  /** A cached encoding: the fingerprint it is filed under, what was encoded, and how. */
  datatype Body = Body(key: Fingerprint, image: Fingerprint, made: Settings)

  /** One strip's place in one dock buffer. */
  datatype Cell = Undefined | Black | Image(image: Fingerprint, made: Settings)

  type Slot = seq<Cell>

  function NextSeq(s: nat): nat {
    (s + 1) % UINT32
  }

  /** The next `d` presentations from sequence number `s` include one into slot `k`. */
  predicate InWindow(s: nat, buffers: nat, d: nat, k: nat)
    requires buffers > 0
    decreases d
  {
    d > 0 && (s % buffers == k || InWindow(NextSeq(s), buffers, d - 1, k))
  }

  /** Rotating over three buffers, the 32-bit sequence number must not wrap inside a keyframe:
      2^32 is not a multiple of three. */
  predicate Rotates(s: nat, buffers: nat) {
    buffers == 2 || s + 3 <= UINT32
  }

  lemma WindowUnrolled(s: nat, buffers: nat, k: nat)
    requires buffers > 0
    ensures var a, b := NextSeq(s), NextSeq(NextSeq(s));
            && (InWindow(s, buffers, 1, k) <==> s % buffers == k)
            && (InWindow(s, buffers, 2, k) <==> s % buffers == k || a % buffers == k)
            && (InWindow(s, buffers, 3, k) <==> s % buffers == k || a % buffers == k || b % buffers == k)
  {
    var a, b := NextSeq(s), NextSeq(NextSeq(s));
    assert !InWindow(NextSeq(b), buffers, 0, k) && !InWindow(b, buffers, 0, k) && !InWindow(a, buffers, 0, k);
    assert InWindow(b, buffers, 1, k) <==> b % buffers == k;
    assert InWindow(a, buffers, 1, k) <==> a % buffers == k;
    assert InWindow(a, buffers, 2, k) <==> a % buffers == k || b % buffers == k;
  }

  lemma PhasesDiffer(s: nat, buffers: nat)
    requires s < UINT32 && 2 <= buffers <= 3
    ensures var a, b := NextSeq(s), NextSeq(NextSeq(s));
            if buffers == 2 then s % 2 != a % 2
            else Rotates(s, buffers) <==> s % 3 != a % 3 && a % 3 != b % 3 && s % 3 != b % 3
  {
  }

  /** Exactly when as many presentations as there are buffers reach all of them; and since the
      repeats exceed the buffers by one at most, exactly when three presentations do. */
  lemma RotationReachesAll(s: nat, buffers: nat)
    requires s < UINT32 && 2 <= buffers <= 3
    ensures Rotates(s, buffers) <==> forall k :: 0 <= k < buffers ==> InWindow(s, buffers, buffers, k)
    ensures Rotates(s, buffers) <==> forall k :: 0 <= k < buffers ==> InWindow(s, buffers, REPEATS, k)
  {
    PhasesDiffer(s, buffers);
    WindowUnrolled(s, buffers, 0);
    WindowUnrolled(s, buffers, 1);
    WindowUnrolled(s, buffers, 2);
    forall k | 0 <= k < buffers
      ensures Rotates(s, buffers) ==> InWindow(s, buffers, buffers, k) && InWindow(s, buffers, REPEATS, k)
    {
      WindowUnrolled(s, buffers, k);
    }
  }

  lemma {:induction d} WindowGrows(s: nat, buffers: nat, d: nat, e: nat, k: nat)
    requires buffers > 0 && d <= e
    requires InWindow(s, buffers, d, k)
    ensures InWindow(s, buffers, e, k)
    decreases d
  {
    if s % buffers != k {
      WindowGrows(NextSeq(s), buffers, d - 1, e - 1, k);
    }
  }

  lemma Reached(s: nat, buffers: nat, d: nat, k: nat)
    requires s < UINT32 && 2 <= buffers <= 3 && Rotates(s, buffers)
    requires buffers <= d && k < buffers
    ensures InWindow(s, buffers, d, k)
  {
    PhasesDiffer(s, buffers);
    WindowUnrolled(s, buffers, k);
    WindowGrows(s, buffers, buffers, d, k);
  }

  datatype Head = Head(
    ledger: Ledger,
    bodies: seq<Option<Body>>,
    buffers: nat,
    frameSeq: nat,
    slots: seq<Slot>,
    applied: Settings,
    recode: bool,
    blanked: bool)
  {
    function Count(): nat {
      ledger.grid.Count()
    }

    ghost predicate Shaped() {
      && ledger.Valid()
      && |bodies| == Count()
      && 2 <= buffers <= 3
      && frameSeq < UINT32
      && |slots| == buffers
      && forall k :: 0 <= k < buffers ==> |slots[k]| == Count()
    }

    function Cached(i: nat): Cell
      requires i < |bodies|
    {
      if bodies[i].Some? then Image(bodies[i].value.image, bodies[i].value.made) else Undefined
    }

    /** One buffer after a presentation: the owed strips replaced from the cache. */
    function Written(slot: Slot): Slot
      requires Shaped() && |slot| == Count()
    {
      seq(Count(), i requires 0 <= i < Count() => if ledger.Owes(i) then Cached(i) else slot[i])
    }

    /** The same records sent `n` times under an advancing trailer phase. */
    function Send(n: nat): (h: Head)
      requires Shaped()
      ensures h.Shaped() && h == this.(slots := h.slots, frameSeq := h.frameSeq)
      decreases n
    {
      if n == 0 then this
      else
        var p := frameSeq % buffers;
        this.(slots := slots[p := Written(slots[p])], frameSeq := NextSeq(frameSeq)).Send(n - 1)
    }

    function SendBlack(n: nat): (h: Head)
      requires Shaped()
      ensures h.Shaped() && h == this.(slots := h.slots, frameSeq := h.frameSeq)
      decreases n
    {
      if n == 0 then this
      else
        var p := frameSeq % buffers;
        this.(slots := slots[p := seq(Count(), _ => Black)], frameSeq := NextSeq(frameSeq)).SendBlack(n - 1)
    }

    function OweKeyframe(): Head {
      this.(ledger := ledger.(keyframeOwed := true))
    }

    /** Take up the settings in force; a change re-encodes everything and repaints. */
    function ApplyCorrection(current: Settings): Head {
      var h := if applied != current then this.(applied := current, recode := true) else this;
      if h.recode then h.OweKeyframe() else h
    }

    predicate NothingOwed()
      requires |ledger.debt| == Count()
    {
      forall i :: 0 <= i < Count() ==> !ledger.Owes(i)
    }

    /** Re-encode the owed strips whose cached body is missing, old, or of other content. */
    function Encode(surface: Surface): (h: Head)
      requires Shaped() && ledger.grid.Shows(surface)
    {
      this.(bodies := seq(Count(), i requires 0 <= i < Count() =>
        if !ledger.Owes(i) || (!recode && bodies[i].Some? && bodies[i].value.key == ledger.pending[i]) then bodies[i]
        else Some(Body(ledger.pending[i], ledger.grid.Fingerprint(surface, i), applied))))
    }

    /** A blanked head comes back with a full repaint. */
    function Wake(): Head {
      if blanked then this.(blanked := false).OweKeyframe() else this
    }

    /** Send what is owed and publish it. */
    function Transmit(): (h: Head)
      requires Shaped()
      ensures h.Shaped() && h.ledger.grid == ledger.grid && h.buffers == buffers
    {
      var sent := Send(ledger.Presentations());
      sent.(ledger := sent.ledger.Presented(), recode := false)
    }

    /** A plan is carried out, unless it owes nothing. */
    function CarryOut(surface: Surface): (h: Head)
      requires Shaped() && ledger.grid.Shows(surface)
      ensures h.Shaped() && h.ledger.grid == ledger.grid && h.buffers == buffers
    {
      if NothingOwed() then this else Encode(surface).Transmit()
    }

    /** A captured frame arrives at the driver. */
    function Present(surface: Surface, rects: seq<Rect>, current: Settings): (h: Head)
      requires Shaped() && ledger.grid.Shows(surface)
    {
      var ready := Wake().ApplyCorrection(current);
      ready.ledger.PlanDirtyValid(surface, rects);
      ready.(ledger := ready.ledger.PlanDirty(surface, rects)).CarryOut(surface)
    }

    /** Repay from the cache, or repaint all of it when a keepalive is due. */
    function Repay(keepaliveDue: bool): (h: Head)
      requires Shaped()
    {
      var due := if keepaliveDue then OweKeyframe() else this;
      if due.NothingOwed() then due else due.Transmit()
    }

    /** The refresh clock: blank, wake, keep alive, or pay outstanding debt from the cache. */
    function Refresh(current: Settings, standbyDue: bool, keepaliveDue: bool): (h: Head)
      requires Shaped()
    {
      if ledger.keyframeOwed && !blanked then this
      else if standbyDue then
        if blanked then this else SendBlack(2).(blanked := true)
      else
        var woken := Wake();
        if woken.ledger.keyframeOwed && (Count() == 0 || bodies[0].None?) then woken
        else
          var ready := woken.ApplyCorrection(current);
          if ready.recode then ready else ready.Repay(keepaliveDue)
    }

    /** No cached body lies about its content, nor, unless a recode is due, about its settings. */
    ghost predicate BodiesHonest()
      requires Shaped()
    {
      forall i :: 0 <= i < Count() && bodies[i].Some? ==>
        bodies[i].value.key == bodies[i].value.image && (recode || bodies[i].value.made == applied)
    }

    /** Every cached body is the recorded content at the settings in force. */
    ghost predicate BodiesMatch()
      requires Shaped()
    {
      forall i :: 0 <= i < Count() ==> bodies[i] == Some(Body(ledger.hashes[i], ledger.hashes[i], applied))
    }

    /** A slot that does not hold the cached strip is reached with `margin` repeats to spare. */
    ghost predicate SlotsPaid(margin: nat)
      requires Shaped()
    {
      forall k, i :: 0 <= k < buffers && 0 <= i < Count() && slots[k][i] != Cached(i) ==>
        ledger.debt[i] >= margin && InWindow(frameSeq, buffers, ledger.debt[i] - margin, k)
    }

    ghost predicate Inv(margin: nat) {
      && Shaped()
      && margin + buffers <= REPEATS
      && ledger.pending == ledger.hashes
      && BodiesHonest()
      && (recode ==> ledger.keyframeOwed && !blanked)
      && (!ledger.keyframeOwed || blanked ==> BodiesMatch())
      && (!ledger.keyframeOwed && !blanked ==> SlotsPaid(margin))
    }

    /** Nothing is owed and the head is lit. */
    ghost predicate Quiet()
      requires Shaped()
    {
      !blanked && !ledger.keyframeOwed && NothingOwed()
    }
  }

  /** A head before its first frame; the dock's buffers hold anything at all. */
  ghost predicate Fresh(h: Head) {
    h.Shaped() && h.ledger == Start(h.ledger.grid) && !h.blanked && !h.recode
    && forall i :: 0 <= i < |h.bodies| ==> h.bodies[i].None?
  }

  lemma FreshInv(h: Head, margin: nat)
    requires Fresh(h) && margin + h.buffers <= REPEATS
    ensures h.Inv(margin)
  {
  }

  /** What repeated presentations leave in each buffer. */
  lemma {:induction false} SendReaches(h: Head, n: nat, k: nat, i: nat)
    requires h.Shaped() && k < h.buffers && i < h.Count()
    ensures h.Send(n).slots[k][i] ==
            if h.ledger.Owes(i) && InWindow(h.frameSeq, h.buffers, n, k) then h.Cached(i) else h.slots[k][i]
    decreases n
  {
    if n > 0 {
      var p := h.frameSeq % h.buffers;
      var g := h.(slots := h.slots[p := h.Written(h.slots[p])], frameSeq := NextSeq(h.frameSeq));
      SendReaches(g, n - 1, k, i);
    }
  }

  lemma {:induction false} BlackReaches(h: Head, n: nat, k: nat, i: nat)
    requires h.Shaped() && k < h.buffers && i < h.Count()
    ensures h.SendBlack(n).slots[k][i] == if InWindow(h.frameSeq, h.buffers, n, k) then Black else h.slots[k][i]
    decreases n
  {
    if n > 0 {
      var p := h.frameSeq % h.buffers;
      var g := h.(slots := h.slots[p := seq(h.Count(), _ => Black)], frameSeq := NextSeq(h.frameSeq));
      BlackReaches(g, n - 1, k, i);
    }
  }

  /** A paid-up cache about to be sent: recorded content, with slots waiting inside the debt. */
  ghost predicate ReadyToSend(h: Head, margin: nat) {
    && h.Shaped()
    && margin + h.buffers <= REPEATS
    && (forall i :: 0 <= i < h.Count() ==>
          h.bodies[i] == Some(Body(h.ledger.pending[i], h.ledger.pending[i], h.applied)))
    && (h.ledger.keyframeOwed ==> Rotates(h.frameSeq, h.buffers))
    && (!h.ledger.keyframeOwed ==> h.SlotsPaid(margin))
  }

  /** Sending and publishing from there keeps every promise. */
  lemma SendKeepsInv(h: Head, margin: nat)
    requires ReadyToSend(h, margin) && !h.blanked
    ensures h.Transmit().Inv(margin)
  {
    var n := h.ledger.Presentations();
    var sent := h.Send(n);
    var end := sent.(ledger := sent.ledger.Presented(), recode := false);
    forall k, i | 0 <= k < h.buffers && 0 <= i < h.Count() && end.slots[k][i] != end.Cached(i)
      ensures end.ledger.debt[i] >= margin && InWindow(end.frameSeq, h.buffers, end.ledger.debt[i] - margin, k)
    {
      SendReaches(h, n, k, i);
      if h.ledger.keyframeOwed {
        Reached(h.frameSeq, h.buffers, n, k);
        assert false;
      } else {
        assert h.Send(1) == h.(slots := h.slots[h.frameSeq % h.buffers := h.Written(h.slots[h.frameSeq % h.buffers])],
                               frameSeq := NextSeq(h.frameSeq)).Send(0);
        assert InWindow(h.frameSeq, h.buffers, 1, k) <==> h.frameSeq % h.buffers == k;
      }
    }
  }

  /** What the driver relies on in a plan, whichever form made it. */
  ghost predicate PlanOf(l: Ledger, p: Ledger, surface: Surface) {
    && l.Valid() && p.Valid() && l.grid.Shows(surface)
    && p == l.(pending := p.pending, debt := p.debt, sweep := p.sweep)
    && forall i :: 0 <= i < l.grid.Count() ==>
         && (p.pending[i] == l.grid.Fingerprint(surface, i) || (p.pending[i] == l.hashes[i] && !l.keyframeOwed))
         && (p.pending[i] != l.hashes[i] ==> p.debt[i] == REPEATS)
         && (p.debt[i] == REPEATS || p.debt[i] == l.debt[i])
  }

  lemma PlanDirtyIsPlanOf(l: Ledger, surface: Surface, rects: seq<Rect>)
    requires l.Valid() && l.grid.Shows(surface)
    ensures PlanOf(l, l.PlanDirty(surface, rects), surface)
  {
    var p := l.PlanDirty(surface, rects);
    l.PlanDirtyValid(surface, rects);
    forall i | 0 <= i < l.grid.Count()
      ensures && (p.pending[i] == l.grid.Fingerprint(surface, i) || (p.pending[i] == l.hashes[i] && !l.keyframeOwed))
              && (p.pending[i] != l.hashes[i] ==> p.debt[i] == REPEATS)
    {
      PlanReadsOrCarries(l, surface, rects, i);
    }
  }

  /** Charging leaves every outdated buffer inside the strip's debt. */
  lemma DeltaSlotsPaid(h: Head, p: Ledger, surface: Surface, margin: nat)
    requires h.Inv(margin) && !h.blanked && !h.ledger.keyframeOwed
    requires PlanOf(h.ledger, p, surface) && Rotates(h.frameSeq, h.buffers)
    ensures h.(ledger := p).Encode(surface).SlotsPaid(margin)
  {
    var e := h.(ledger := p).Encode(surface);
    forall k, i | 0 <= k < h.buffers && 0 <= i < h.Count() && e.slots[k][i] != e.Cached(i)
      ensures p.debt[i] >= margin && InWindow(h.frameSeq, h.buffers, p.debt[i] - margin, k)
    {
      DeltaSlotPaid(h, p, surface, margin, k, i);
    }
    hide InWindow, Rotates, Head.BodiesHonest, Head.BodiesMatch, Ledger.Presentations;
  }

  lemma DeltaSlotPaid(h: Head, p: Ledger, surface: Surface, margin: nat, k: nat, i: nat)
    requires h.Inv(margin) && !h.blanked && !h.ledger.keyframeOwed && k < h.buffers && i < h.Count()
    requires PlanOf(h.ledger, p, surface) && Rotates(h.frameSeq, h.buffers)
    requires h.slots[k][i] != h.(ledger := p).Encode(surface).Cached(i)
    ensures p.debt[i] >= margin && InWindow(h.frameSeq, h.buffers, p.debt[i] - margin, k)
  {
    hide InWindow, Rotates, NextSeq;
    if p.debt[i] == REPEATS {
      Reached(h.frameSeq, h.buffers, REPEATS - margin, k);
    } else {
      assert p.pending[i] == h.ledger.hashes[i];
      assert h.(ledger := p).Encode(surface).bodies[i] == h.bodies[i];
      assert h.slots[k][i] != h.Cached(i);
    }
  }

  /** After encoding, every body is the planned content at the settings in force. */
  lemma EncodeMatchesPlan(h: Head, p: Ledger, surface: Surface)
    requires h.Shaped() && h.BodiesHonest() && PlanOf(h.ledger, p, surface)
    requires !h.ledger.keyframeOwed ==> h.BodiesMatch() && !h.recode
    ensures var e := h.(ledger := p).Encode(surface);
            forall i :: 0 <= i < h.Count() ==> e.bodies[i] == Some(Body(p.pending[i], p.pending[i], h.applied))
  {
    var e := h.(ledger := p).Encode(surface);
    forall i | 0 <= i < h.Count()
      ensures e.bodies[i] == Some(Body(p.pending[i], p.pending[i], h.applied))
    {
      if !h.ledger.keyframeOwed {
        assert h.bodies[i] == Some(Body(h.ledger.hashes[i], h.ledger.hashes[i], h.applied));
      }
    }
  }

  /** A frame keeps the ledger's promise, whatever its rectangles claim. */
  lemma PresentKeepsInv(h: Head, surface: Surface, rects: seq<Rect>, current: Settings, margin: nat)
    requires h.Inv(margin) && h.ledger.grid.Shows(surface) && Rotates(h.frameSeq, h.buffers)
    ensures h.Present(surface, rects, current).Inv(margin)
  {
    var ready := h.Wake().ApplyCorrection(current);
    PlanDirtyIsPlanOf(ready.ledger, surface, rects);
    PlannedKeepsInv(ready, ready.ledger.PlanDirty(surface, rects), surface, margin);
  }

  lemma PlannedKeepsInv(h: Head, p: Ledger, surface: Surface, margin: nat)
    requires h.Inv(margin) && !h.blanked
    requires PlanOf(h.ledger, p, surface) && Rotates(h.frameSeq, h.buffers)
    ensures var planned := h.(ledger := p);
            planned.CarryOut(surface).Inv(margin)
  {
    var planned := h.(ledger := p);
    if planned.NothingOwed() {
      forall i | 0 <= i < h.Count()
        ensures p.pending[i] == h.ledger.hashes[i] && p.debt[i] == h.ledger.debt[i]
      {
        assert !planned.ledger.Owes(i);
      }
      assert p.pending == h.ledger.hashes && p.debt == h.ledger.debt;
    } else {
      EncodeMatchesPlan(h, p, surface);
      if !h.ledger.keyframeOwed {
        DeltaSlotsPaid(h, p, surface, margin);
      }
      SendKeepsInv(planned.Encode(surface), margin);
    }
  }

  /** So does every tick of the refresh clock. */
  lemma RefreshKeepsInv(h: Head, current: Settings, standbyDue: bool, keepaliveDue: bool, margin: nat)
    requires h.Inv(margin) && Rotates(h.frameSeq, h.buffers)
    ensures h.Refresh(current, standbyDue, keepaliveDue).Inv(margin)
  {
    if !(h.ledger.keyframeOwed && !h.blanked) && !standbyDue {
      var ready := h.Wake().ApplyCorrection(current);
      if !ready.recode {
        RepayKeepsInv(ready, keepaliveDue, margin);
      }
    }
  }

  lemma RepayKeepsInv(h: Head, keepaliveDue: bool, margin: nat)
    requires h.Inv(margin) && Rotates(h.frameSeq, h.buffers)
    requires !h.blanked && !h.recode && h.BodiesMatch()
    ensures h.Repay(keepaliveDue).Inv(margin)
  {
    var due := if keepaliveDue then h.OweKeyframe() else h;
    if !due.NothingOwed() {
      SendKeepsInv(due, margin);
    }
  }

  /** Nothing owed means nothing outdated: every dock buffer holds every strip as recorded. */
  lemma QuietHeadIsShown(h: Head, margin: nat, k: nat, i: nat)
    requires h.Inv(margin) && h.Quiet() && k < h.buffers && i < h.Count()
    ensures h.slots[k][i] == Image(h.ledger.hashes[i], h.applied)
  {
    assert !h.ledger.Owes(i);
  }

  /** A frame's content is on record once presented, if a full pass was due anyway or the
      rectangles cover what changed since the surface on record. */
  lemma PresentRecords(h: Head, last: Surface, surface: Surface, rects: seq<Rect>, current: Settings)
    requires h.Shaped() && h.ledger.grid.Shows(surface) && h.ledger.grid.Shows(last)
    requires || h.ledger.keyframeOwed || h.blanked || h.recode || h.applied != current
             || (h.ledger.hashes == h.ledger.grid.Fingerprints(last)
                 && CoverChanges(h.ledger.grid, rects, last, surface))
    ensures h.Present(surface, rects, current).ledger.hashes == h.ledger.grid.Fingerprints(surface)
  {
    var ready := h.Wake().ApplyCorrection(current);
    if !ready.ledger.keyframeOwed {
      FastPlanIsFullPlan(ready.ledger, last, surface, rects);
    }
    var p := ready.ledger.PlanDirty(surface, rects);
    assert p == ready.ledger.Plan(surface);
    if ready.(ledger := p).NothingOwed() {
      NothingOwedNothingMoved(ready.ledger, surface);
    }
  }

  lemma NothingOwedNothingMoved(l: Ledger, surface: Surface)
    requires l.Valid() && l.grid.Shows(surface)
    requires forall i :: 0 <= i < l.grid.Count() ==> !l.Plan(surface).Owes(i)
    ensures l.hashes == l.grid.Fingerprints(surface)
  {
    forall i | 0 <= i < l.grid.Count()
      ensures l.hashes[i] == l.grid.Fingerprints(surface)[i]
    {
      PlanOwesExactly(l, surface, i);
      assert l.grid.SameMacroTile(i, i);
    }
  }

  /** After a frame the head is lit, at the settings in force, with no full repaint pending. */
  lemma PresentSettles(h: Head, surface: Surface, rects: seq<Rect>, current: Settings, margin: nat)
    requires h.Inv(margin) && h.ledger.grid.Shows(surface) && Rotates(h.frameSeq, h.buffers) && h.Count() > 0
    ensures var n := h.Present(surface, rects, current);
            n.applied == current && !n.recode && !n.blanked && !n.ledger.keyframeOwed
  {
    var ready := h.Wake().ApplyCorrection(current);
    assert ready.ledger.keyframeOwed ==> ready.ledger.PlanDirty(surface, rects).Owes(0);
  }

  /** The refresh clock resends; it never changes what is on record. */
  lemma RefreshKeepsRecord(h: Head, current: Settings, standbyDue: bool, keepaliveDue: bool, margin: nat)
    requires h.Inv(margin)
    ensures h.Refresh(current, standbyDue, keepaliveDue).ledger.hashes == h.ledger.hashes
  {
  }

  /** After a frame, a keyframe is owed by a lit head only while changed settings wait for the next. */
  ghost predicate Caught(h: Head) {
    h.ledger.keyframeOwed && !h.blanked ==> h.recode
  }

  lemma RefreshKeepsCaught(h: Head, current: Settings, standbyDue: bool, keepaliveDue: bool, margin: nat)
    requires h.Inv(margin) && h.Count() > 0 && Caught(h)
    ensures Caught(h.Refresh(current, standbyDue, keepaliveDue))
  {
    if !(h.ledger.keyframeOwed && !h.blanked) && !standbyDue {
      assert h.bodies[0].Some?;
      var ready := h.Wake().ApplyCorrection(current);
      if !ready.recode {
        var due := if keepaliveDue then ready.OweKeyframe() else ready;
        assert due.ledger.keyframeOwed ==> due.ledger.Owes(0);
      }
    }
  }

  /** A tick wakes a head and takes up the settings in force; a keyframe is then owed only if a recode is. */
  lemma RefreshWakes(h: Head, current: Settings, margin: nat)
    requires h.Inv(margin) && h.Count() > 0 && Caught(h) && !h.recode
    ensures var n := h.Refresh(current, false, false);
            n.applied == current && !n.blanked && (n.recode || !n.ledger.keyframeOwed)
  {
    var ready := h.Wake().ApplyCorrection(current);
    assert h.bodies[0].Some?;
    assert !ready.recode && ready.ledger.keyframeOwed ==> ready.ledger.Owes(0);
  }

  lemma RefreshSpends(h: Head, current: Settings, margin: nat)
    requires h.Inv(margin) && Caught(h) && !h.recode
    requires h.buffers == 2 || h.frameSeq + REPEATS < UINT32
    ensures h.buffers == 2 || h.Refresh(current, false, false).frameSeq <= h.frameSeq + REPEATS
  {
    var ready := h.Wake().ApplyCorrection(current);
    SendAdvances(ready, ready.ledger.Presentations());
  }

  datatype Frame = Frame(surface: Surface, rects: seq<Rect>, current: Settings)

  /** A frame moves the ledger by one plan taken up, full if the driver forced a repaint. */
  lemma PresentTakesPlan(h: Head, f: Frame, margin: nat)
    requires h.Inv(margin) && h.ledger.grid.Shows(f.surface)
    ensures PlanTaken(h.ledger, h.Present(f.surface, f.rects, f.current).ledger,
                      Scan(f.surface, f.rects,
                           h.ledger.keyframeOwed || h.blanked || h.recode || h.applied != f.current))
  {
    var ready := h.Wake().ApplyCorrection(f.current);
    ReadyLedger(h, f.current);
    CarriedOutIsRecorded(ready, f.surface, f.rects);
  }

  lemma CarriedOutIsRecorded(h: Head, surface: Surface, rects: seq<Rect>)
    requires h.Shaped() && h.ledger.grid.Shows(surface)
    ensures var p := h.ledger.PlanDirty(surface, rects);
            p.Valid() && p.grid == h.ledger.grid
    ensures var p := h.ledger.PlanDirty(surface, rects);
            var m := h.(ledger := p).CarryOut(surface).ledger;
            m.Valid() && m.grid == h.ledger.grid && m.sweep == h.ledger.NextSweep() && m.hashes == p.pending
  {
    PlanDirtyIsPlanOf(h.ledger, surface, rects);
    PlannedIsRecorded(h, h.ledger.PlanDirty(surface, rects), surface);
  }

  lemma ReadyLedger(h: Head, current: Settings)
    requires h.recode ==> h.ledger.keyframeOwed
    ensures h.Wake().ApplyCorrection(current).ledger ==
            h.ledger.(keyframeOwed := h.ledger.keyframeOwed || h.blanked || h.recode || h.applied != current)
  {
  }

  lemma PlannedIsRecorded(h: Head, p: Ledger, surface: Surface)
    requires h.Shaped() && PlanOf(h.ledger, p, surface)
    ensures var planned := h.(ledger := p);
            var m := planned.CarryOut(surface).ledger;
            m.Valid() && m.grid == h.ledger.grid && m.sweep == p.sweep && m.hashes == p.pending
  {
    var planned := h.(ledger := p);
    if planned.NothingOwed() {
      forall i | 0 <= i < h.Count()
        ensures p.pending[i] == p.hashes[i]
      {
        assert !planned.ledger.Owes(i);
      }
      assert p.pending == p.hashes;
    }
  }

  lemma {:induction false} SendAdvances(h: Head, n: nat)
    requires h.Shaped()
    ensures h.frameSeq + n < UINT32 ==> h.Send(n).frameSeq == h.frameSeq + n
    decreases n
  {
    if n > 0 && h.frameSeq + n < UINT32 {
      var p := h.frameSeq % h.buffers;
      assert NextSeq(h.frameSeq) == h.frameSeq + 1;
      SendAdvances(h.(slots := h.slots[p := h.Written(h.slots[p])], frameSeq := NextSeq(h.frameSeq)), n - 1);
    }
  }

  lemma PresentSpends(h: Head, surface: Surface, rects: seq<Rect>, current: Settings)
    requires h.Shaped() && h.ledger.grid.Shows(surface)
    requires h.buffers == 2 || h.frameSeq + REPEATS < UINT32
    ensures h.buffers == 2 || h.Present(surface, rects, current).frameSeq <= h.frameSeq + REPEATS
  {
    var ready := h.Wake().ApplyCorrection(current);
    var planned := ready.(ledger := ready.ledger.PlanDirty(surface, rects));
    PlanDirtyIsPlanOf(ready.ledger, surface, rects);
    if !planned.NothingOwed() {
      SendAdvances(planned.Encode(surface), planned.ledger.Presentations());
    }
  }

  /** Paying: with nothing else going on, each tick takes one off every debt, so three ticks
      after the last change the head is quiet. */
  lemma RefreshPaysDebt(h: Head, margin: nat, i: nat)
    requires h.Inv(margin) && !h.blanked && !h.ledger.keyframeOwed && i < h.Count()
    ensures var n := h.Refresh(h.applied, false, false);
            && !n.blanked && !n.ledger.keyframeOwed && n.applied == h.applied
            && n.ledger.debt[i] == if h.ledger.debt[i] == 0 then 0 else h.ledger.debt[i] - 1
  {
    if h.NothingOwed() {
      assert !h.ledger.Owes(i);
    }
  }

  lemma ThreeTicksMakeQuiet(h: Head, margin: nat)
    requires h.Inv(margin) && !h.blanked && !h.ledger.keyframeOwed && Rotates(h.frameSeq, h.buffers)
    requires h.buffers == 2 || h.frameSeq + 2 * REPEATS <= UINT32
    ensures var a := h.Refresh(h.applied, false, false);
            var b := a.Refresh(h.applied, false, false);
            b.Refresh(h.applied, false, false).Quiet()
  {
    var a := h.Refresh(h.applied, false, false);
    var b := a.Refresh(h.applied, false, false);
    var c := b.Refresh(h.applied, false, false);
    RefreshKeepsInv(h, h.applied, false, false, margin);
    RefreshAdvances(h, margin);
    PaysAll(h, margin);
    RefreshKeepsInv(a, h.applied, false, false, margin);
    RefreshAdvances(a, margin);
    PaysAll(a, margin);
    PaysAll(b, margin);
    forall i | 0 <= i < h.Count()
      ensures !c.ledger.Owes(i)
    {
      assert c.ledger.debt[i] == 0;
    }
  }

  lemma PaysAll(h: Head, margin: nat)
    requires h.Inv(margin) && !h.blanked && !h.ledger.keyframeOwed
    ensures var n := h.Refresh(h.applied, false, false);
            && !n.blanked && !n.ledger.keyframeOwed && n.applied == h.applied
            && forall i :: 0 <= i < h.Count() ==>
                 n.ledger.debt[i] == if h.ledger.debt[i] == 0 then 0 else h.ledger.debt[i] - 1
  {
    var n := h.Refresh(h.applied, false, false);
    forall i | 0 <= i < h.Count()
      ensures n.ledger.debt[i] == if h.ledger.debt[i] == 0 then 0 else h.ledger.debt[i] - 1
    {
      RefreshPaysDebt(h, margin, i);
    }
    if h.Count() > 0 {
      RefreshPaysDebt(h, margin, 0);
    }
  }

  lemma RefreshAdvances(h: Head, margin: nat)
    requires h.Inv(margin) && !h.blanked && !h.ledger.keyframeOwed
    requires h.buffers == 2 || h.frameSeq + 1 < UINT32
    ensures h.buffers == 2 || h.Refresh(h.applied, false, false).frameSeq <= h.frameSeq + 1
  {
    if !h.NothingOwed() {
      SendAdvances(h, 1);
    }
  }

  // --- what one frame sends ---

  /** Of a lit head without a keyframe: the strips that owe after its plan, once, to the next buffer, at
      the content planned; nothing if none does. */
  lemma FrameSends(h: Head, surface: Surface, rects: seq<Rect>, margin: nat)
    requires h.Inv(margin) && !h.blanked && !h.ledger.keyframeOwed && h.ledger.grid.Shows(surface)
    ensures var n, p := h.Present(surface, rects, h.applied), h.ledger.PlanDirty(surface, rects);
            && n.Shaped() && p.Valid() && p.grid == h.ledger.grid && n.ledger.grid == h.ledger.grid
            && n.buffers == h.buffers
            && n.frameSeq == (if exists i :: 0 <= i < h.Count() && p.debt[i] > 0 then NextSeq(h.frameSeq)
                              else h.frameSeq)
            && forall k, i :: 0 <= k < h.buffers && 0 <= i < h.Count() ==>
                 n.slots[k][i] == if k == h.frameSeq % h.buffers && p.debt[i] > 0
                                  then Image(p.pending[i], h.applied) else h.slots[k][i]
  {
    PlanDirtyIsPlanOf(h.ledger, surface, rects);
    assert h.Wake().ApplyCorrection(h.applied) == h && !h.recode;
    hide Ledger.PlanDirty, Head.Wake, Head.ApplyCorrection, Head.CarryOut, PlanOf;
    PlannedSends(h, h.ledger.PlanDirty(surface, rects), surface, margin);
  }

  lemma PlannedSends(h: Head, p: Ledger, surface: Surface, margin: nat)
    requires h.Inv(margin) && !h.blanked && !h.ledger.keyframeOwed && PlanOf(h.ledger, p, surface)
    ensures var n := h.(ledger := p).CarryOut(surface);
            && n.Shaped() && p.Valid() && p.grid == h.ledger.grid && n.ledger.grid == h.ledger.grid
            && n.buffers == h.buffers
            && n.frameSeq == (if exists i :: 0 <= i < h.Count() && p.debt[i] > 0 then NextSeq(h.frameSeq)
                              else h.frameSeq)
            && forall k, i :: 0 <= k < h.buffers && 0 <= i < h.Count() ==>
                 n.slots[k][i] == if k == h.frameSeq % h.buffers && p.debt[i] > 0
                                  then Image(p.pending[i], h.applied) else h.slots[k][i]
  {
    var planned := h.(ledger := p);
    EncodeMatchesPlan(h, p, surface);
    hide Head.Inv;
    if planned.NothingOwed() {
      assert forall i :: 0 <= i < h.Count() ==> !planned.ledger.Owes(i);
    } else {
      SendOne(planned.Encode(surface));
      var i :| 0 <= i < h.Count() && planned.ledger.Owes(i);
      assert p.debt[i] > 0;
    }
  }

  /** Under a keyframe, waking or recoding: every strip, to every buffer, at the content of the frame and
      the settings in force. */
  lemma FrameRepaintsAll(h: Head, surface: Surface, rects: seq<Rect>, current: Settings, margin: nat)
    requires h.Inv(margin) && h.ledger.grid.Shows(surface) && Rotates(h.frameSeq, h.buffers)
    requires h.blanked || h.ledger.keyframeOwed || h.applied != current
    ensures var n := h.Present(surface, rects, current);
            && n.Shaped() && n.Count() == h.Count() && n.buffers == h.buffers
            && forall k, i :: 0 <= k < h.buffers && 0 <= i < h.Count() ==>
                 n.slots[k][i] == Image(h.ledger.grid.Fingerprint(surface, i), current)
  {
    var ready := h.Wake().ApplyCorrection(current);
    PlanDirtyIsPlanOf(ready.ledger, surface, rects);
    assert ready.ledger.keyframeOwed && ready.applied == current && ready.frameSeq == h.frameSeq;
    assert ready.Shaped() && ready.BodiesHonest() && ready.buffers == h.buffers && ready.ledger.grid == h.ledger.grid;
    hide Head.Inv, Head.Wake, Head.ApplyCorrection, Ledger.PlanDirty, Head.CarryOut, PlanOf, Head.BodiesHonest;
    KeyframeSends(ready, ready.ledger.PlanDirty(surface, rects), surface);
  }

  lemma KeyframeSends(h: Head, p: Ledger, surface: Surface)
    requires h.Shaped() && h.BodiesHonest() && h.ledger.keyframeOwed && PlanOf(h.ledger, p, surface)
    requires Rotates(h.frameSeq, h.buffers)
    ensures var n := h.(ledger := p).CarryOut(surface);
            && n.Shaped() && n.Count() == h.Count() && n.buffers == h.buffers
            && forall k, i :: 0 <= k < h.buffers && 0 <= i < h.Count() ==>
                 n.slots[k][i] == Image(h.ledger.grid.Fingerprint(surface, i), h.applied)
  {
    var planned := h.(ledger := p);
    EncodeMatchesPlan(h, p, surface);
    forall k, i | 0 <= k < h.buffers && 0 <= i < h.Count()
      ensures planned.CarryOut(surface).slots[k][i] == Image(h.ledger.grid.Fingerprint(surface, i), h.applied)
    {
      assert planned.ledger.Owes(i);
      SendReaches(planned.Encode(surface), REPEATS, k, i);
      Reached(h.frameSeq, h.buffers, REPEATS, k);
    }
  }

  // --- what one tick does ---

  /** Nothing: before the first frame or while a recode waits, on a head that stays blank, and on one that
      owes nothing. */
  lemma TickSilent(h: Head, current: Settings, standbyDue: bool, keepaliveDue: bool)
    requires h.Shaped()
    requires || (!h.blanked && h.ledger.keyframeOwed)
             || (standbyDue && h.blanked)
             || (!standbyDue && !h.blanked && !h.recode && h.applied == current && h.NothingOwed() && !keepaliveDue)
    ensures h.Refresh(current, standbyDue, keepaliveDue) == h
  {
  }

  /** Two black copies, to the next two buffers; what is owed and on record stays. */
  lemma TickBlanks(h: Head, current: Settings, keepaliveDue: bool)
    requires h.Shaped() && !h.blanked && !h.ledger.keyframeOwed
    ensures var n := h.Refresh(current, true, keepaliveDue);
            && n == h.(blanked := true, slots := n.slots, frameSeq := NextSeq(NextSeq(h.frameSeq)))
            && |n.slots| == h.buffers
            && forall k, i :: 0 <= k < h.buffers && 0 <= i < h.Count() ==>
                 |n.slots[k]| == h.Count()
                 && n.slots[k][i] == if k == h.frameSeq % h.buffers || k == NextSeq(h.frameSeq) % h.buffers then Black
                                     else h.slots[k][i]
  {
    var n := h.Refresh(current, true, keepaliveDue);
    forall k, i | 0 <= k < h.buffers && 0 <= i < h.Count()
      ensures n.slots[k][i] == if k == h.frameSeq % h.buffers || k == NextSeq(h.frameSeq) % h.buffers then Black
                               else h.slots[k][i]
    {
      BlackReaches(h, 2, k, i);
      WindowUnrolled(h.frameSeq, h.buffers, k);
    }
    var p := h.frameSeq % h.buffers;
    var one := h.(slots := h.slots[p := seq(h.Count(), _ => Black)], frameSeq := NextSeq(h.frameSeq));
    assert one.SendBlack(1).frameSeq == NextSeq(one.frameSeq);
  }

  /** Changed settings: nothing is sent, and a recode waits for the next frame. */
  lemma TickFindsSettings(h: Head, current: Settings, keepaliveDue: bool, margin: nat)
    requires h.Inv(margin) && h.Count() > 0 && current != h.applied && (h.blanked || !h.ledger.keyframeOwed)
    ensures var n := h.Refresh(current, false, keepaliveDue);
            n == h.(applied := current, recode := true, blanked := false, ledger := h.ledger.(keyframeOwed := true))
  {
    assert h.bodies[0].Some?;
  }

  /** A keepalive that is due, or waking from black: every strip is sent again to every buffer, and then
      nothing is owed. */
  lemma TickRepaintsAll(h: Head, keepaliveDue: bool, margin: nat)
    requires h.Inv(margin) && h.Count() > 0 && Rotates(h.frameSeq, h.buffers)
    requires h.blanked || (!h.ledger.keyframeOwed && keepaliveDue)
    ensures var n := h.Refresh(h.applied, false, keepaliveDue);
            && n.Quiet() && n.applied == h.applied && n.ledger.hashes == h.ledger.hashes
            && n.frameSeq == NextSeq(NextSeq(NextSeq(h.frameSeq)))
            && forall k, i :: 0 <= k < h.buffers && 0 <= i < h.Count() ==>
                 n.slots[k][i] == Image(h.ledger.hashes[i], h.applied)
  {
    assert h.bodies[0].Some?;
    var due := h.(blanked := false).OweKeyframe();
    assert due.ledger.Owes(0);
    assert h.Refresh(h.applied, false, keepaliveDue) == due.Transmit();
    forall k, i | 0 <= k < h.buffers && 0 <= i < h.Count()
      ensures due.Transmit().slots[k][i] == Image(h.ledger.hashes[i], h.applied)
    {
      SendReaches(due, REPEATS, k, i);
      Reached(h.frameSeq, h.buffers, REPEATS, k);
    }
    SendThree(due);
  }

  lemma SendThree(h: Head)
    requires h.Shaped()
    ensures h.Send(3).frameSeq == NextSeq(NextSeq(NextSeq(h.frameSeq)))
  {
    var p := h.frameSeq % h.buffers;
    var one := h.(slots := h.slots[p := h.Written(h.slots[p])], frameSeq := NextSeq(h.frameSeq));
    var q := one.frameSeq % h.buffers;
    var two := one.(slots := one.slots[q := one.Written(one.slots[q])], frameSeq := NextSeq(one.frameSeq));
    assert h.Send(3) == one.Send(2) && one.Send(2) == two.Send(1);
    SendOne(two);
  }

  /** Outstanding debt: the strips that owe are sent once, to the next buffer, each at its recorded
      content, and owe one less. */
  lemma TickRepays(h: Head, margin: nat)
    requires h.Inv(margin) && !h.blanked && !h.ledger.keyframeOwed && !h.NothingOwed()
    ensures var n := h.Refresh(h.applied, false, false);
            && n == h.(slots := n.slots, frameSeq := NextSeq(h.frameSeq), ledger := h.ledger.(debt := n.ledger.debt))
            && n.Shaped()
            && (forall i :: 0 <= i < h.Count() ==>
                  n.ledger.debt[i] == if h.ledger.debt[i] > 0 then h.ledger.debt[i] - 1 else 0)
            && forall k, i :: 0 <= k < h.buffers && 0 <= i < h.Count() ==>
                 n.slots[k][i] == if k == h.frameSeq % h.buffers && h.ledger.debt[i] > 0
                                  then Image(h.ledger.hashes[i], h.applied) else h.slots[k][i]
  {
    SendOne(h);
  }

  /** What a repayment by the refresh clock leaves when its transfer fails: the sequence number is spent,
      and nothing else has changed. A captured frame that fails leaves more, as `Abandoned` has it. */
  function NumberSpent(h: Head): Head {
    h.(frameSeq := NextSeq(h.frameSeq))
  }

  /** Three repeats over two buffers leave one to spare, and that is what it buys: a single failed
      repayment still leaves every outdated buffer inside its strip's debt. */
  lemma TwoBuffersSurviveFailedRepay(h: Head)
    requires h.Inv(1)
    ensures NumberSpent(h).Inv(0)
  {
    var n := NumberSpent(h);
    if !h.ledger.keyframeOwed && !h.blanked {
      forall k, i | 0 <= k < n.buffers && 0 <= i < n.Count() && n.slots[k][i] != n.Cached(i)
        ensures InWindow(n.frameSeq, n.buffers, n.ledger.debt[i], k)
      {
        SpareRepeat(h.frameSeq, h.ledger.debt[i], k);
      }
    }
  }

  lemma SpareRepeat(s: nat, d: nat, k: nat)
    requires s < UINT32 && 1 <= d <= REPEATS && InWindow(s, 2, d - 1, k)
    ensures InWindow(NextSeq(s), 2, d, k)
  {
    WindowUnrolled(s, 2, k);
    WindowUnrolled(NextSeq(s), 2, k);
    PhasesDiffer(s, 2);
    assert d == 2 || d == 3 by {
      assert !InWindow(s, 2, 0, k);
    }
  }

  /** So, with as many repeats to spare as the buffers leave, a repayment that fails while a strip still
      owes two repeats and the next buffer lacks it is made up for exactly when there are two buffers. */
  lemma FailedRepayMadeUpIff(h: Head, i: nat)
    requires 2 <= h.buffers <= REPEATS && h.Inv(REPEATS - h.buffers) && OwesTwo(h, i)
    requires h.frameSeq + REPEATS < UINT32
    ensures NumberSpent(h).Inv(0) <==> h.buffers == 2
  {
    var n := NumberSpent(h);
    if h.buffers == 2 {
      TwoBuffersSurviveFailedRepay(h);
    } else {
      var k := h.frameSeq % 3;
      WindowUnrolled(n.frameSeq, 3, k);
      PhasesDiffer(h.frameSeq, 3);
      PhasesDiffer(n.frameSeq, 3);
      assert n.slots[k][i] != n.Cached(i) && !InWindow(n.frameSeq, 3, 2, k);
    }
  }

  lemma SendOne(h: Head)
    requires h.Shaped()
    ensures var k := h.frameSeq % h.buffers;
            h.Send(1) == h.(slots := h.slots[k := h.Written(h.slots[k])], frameSeq := NextSeq(h.frameSeq))
  {
    var k := h.frameSeq % h.buffers;
    var sent := h.(slots := h.slots[k := h.Written(h.slots[k])], frameSeq := NextSeq(h.frameSeq));
    assert sent.Send(0) == sent;
  }

  /** A head with a surface planned in full and encoded, ready to send. */
  function Readied(h: Head, surface: Surface): (e: Head)
    requires h.Shaped() && h.ledger.grid.Shows(surface)
    ensures e.Shaped() && e == h.(ledger := e.ledger, bodies := e.bodies) && e.ledger.grid == h.ledger.grid
  {
    PlanDirtyIsPlanOf(h.ledger, surface, []);
    assert h.ledger.PlanDirty(surface, []) == h.ledger.Plan(surface);
    h.(ledger := h.ledger.Plan(surface)).Encode(surface)
  }

  /** A change has reached a quiet head's strip. */
  ghost predicate Changes(h: Head, surface: Surface, i: nat) {
    && h.Shaped() && h.Quiet() && !h.recode && h.ledger.grid.Shows(surface) && i < h.Count()
    && h.ledger.grid.Fingerprint(surface, i) != h.ledger.hashes[i]
  }

  /** It is planned, encoded and sent once. */
  lemma ChangePresents(h: Head, surface: Surface, i: nat)
    requires Changes(h, surface, i)
    ensures var e := Readied(h, surface);
            && !e.ledger.keyframeOwed && e.ledger.debt[i] == REPEATS
            && h.Present(surface, [], h.applied) == e.Transmit()
  {
    PlanOwesExactly(h.ledger, surface, i);
    assert h.ledger.grid.SameMacroTile(i, i);
    assert h.ledger.PlanDirty(surface, []) == h.ledger.Plan(surface);
    assert h.Wake().ApplyCorrection(h.applied) == h;
    assert h.ledger.Plan(surface).Owes(i);
    assert !h.(ledger := h.ledger.Plan(surface)).NothingOwed();
    hide Head.Encode, Head.Transmit;
  }

  /** And every buffer still holds something else. */
  lemma ChangeDiffers(h: Head, surface: Surface, margin: nat, k: nat, i: nat)
    requires h.Inv(margin) && Changes(h, surface, i) && k < h.buffers
    ensures h.slots[k][i] != Readied(h, surface).Cached(i)
  {
    var p := h.ledger.Plan(surface);
    PlanDirtyIsPlanOf(h.ledger, surface, []);
    assert h.ledger.PlanDirty(surface, []) == p;
    EncodeMatchesPlan(h, p, surface);
    QuietHeadIsShown(h, margin, k, i);
  }

  /** One buffer behind, with two repeats to come. */
  ghost predicate OwesTwo(h: Head, i: nat) {
    && h.Shaped() && !h.blanked && !h.ledger.keyframeOwed && i < h.Count()
    && h.ledger.debt[i] == 2 && h.slots[h.frameSeq % h.buffers][i] != h.Cached(i)
  }

  /** Such is the head that any change leaves of a quiet one. */
  lemma ChangeOwesTwo(h: Head, surface: Surface, margin: nat, i: nat)
    requires h.Inv(margin) && Changes(h, surface, i) && h.frameSeq + REPEATS < UINT32
    ensures var n := h.Present(surface, [], h.applied);
            OwesTwo(n, i) && n.frameSeq == h.frameSeq + 1 && n.buffers == h.buffers
  {
    ChangePresents(h, surface, i);
    ChangeDiffers(h, surface, margin, (h.frameSeq + 1) % h.buffers, i);
    hide Head.Inv, Head.Present, Head.Transmit, Readied, Head.Cached, OwesTwo;
    SentOnceOwesTwo(h, Readied(h, surface), i);
  }

  lemma NextPhase(s: nat, buffers: nat)
    requires s + 1 < UINT32 && 2 <= buffers <= 3
    ensures (s + 1) % buffers != s % buffers && NextSeq(s) == s + 1
  {
    PhasesDiffer(s, buffers);
  }

  lemma SentOnceOwesTwo(h: Head, e: Head, i: nat)
    requires h.Shaped() && e.Shaped() && i < e.Count() && e.frameSeq + REPEATS < UINT32
    requires !e.blanked && !e.ledger.keyframeOwed && e.ledger.debt[i] == REPEATS
    requires e.slots == h.slots && e.buffers == h.buffers && e.Count() == h.Count()
    requires h.slots[(e.frameSeq + 1) % e.buffers][i] != e.Cached(i)
    ensures var n := e.Transmit();
            OwesTwo(n, i) && n.frameSeq == e.frameSeq + 1 && n.buffers == e.buffers
  {
    NextPhase(e.frameSeq, e.buffers);
    SendOne(e);
    hide NextSeq, Head.Written, Head.Send;
    var now, next := e.frameSeq % e.buffers, (e.frameSeq + 1) % e.buffers;
    assert next != now && e.ledger.Presentations() == 1;
    var n := e.Transmit();
    assert n.slots == e.slots[now := e.Written(e.slots[now])];
    assert n.slots[next] == h.slots[next] && n.Cached(i) == e.Cached(i);
  }

  /** A repayment that fails right behind the frame of a change is made up for by the next exactly over
      two buffers. */
  lemma LostRepeatIff(h: Head, surface: Surface, i: nat)
    requires 2 <= h.buffers <= REPEATS && h.Inv(REPEATS - h.buffers) && Changes(h, surface, i)
    requires h.frameSeq + 2 * REPEATS < UINT32
    ensures NumberSpent(h.Present(surface, [], h.applied)).Inv(0) <==> h.buffers == 2
  {
    hide Head.Present, Head.Inv, OwesTwo, NumberSpent;
    PresentKeepsInv(h, surface, [], h.applied, REPEATS - h.buffers);
    ChangeOwesTwo(h, surface, REPEATS - h.buffers, i);
    FailedRepayMadeUpIff(h.Present(surface, [], h.applied), i);
  }

  /** Blanking sends two black frames, which darkens every buffer exactly when there are two. */
  lemma BlankReachesEveryBuffer(h: Head, current: Settings, keepaliveDue: bool)
    requires h.Shaped() && h.Count() > 0 && !h.blanked && !h.ledger.keyframeOwed
    requires forall k, i :: 0 <= k < h.buffers && 0 <= i < h.Count() ==> h.slots[k][i] != Black
    requires Rotates(h.frameSeq, h.buffers)
    ensures var n := h.Refresh(current, true, keepaliveDue);
            h.buffers == 2 <==>
              forall k, i :: 0 <= k < h.buffers && 0 <= i < h.Count() ==> n.slots[k][i] == Black
  {
    var n := h.Refresh(current, true, keepaliveDue);
    forall k, i | 0 <= k < h.buffers && 0 <= i < h.Count()
      ensures n.slots[k][i] == Black <==> InWindow(h.frameSeq, h.buffers, 2, k)
    {
      BlackReaches(h, 2, k, i);
    }
    PhasesDiffer(h.frameSeq, h.buffers);
    forall k | 0 <= k < h.buffers
      ensures InWindow(h.frameSeq, h.buffers, 2, k)
         <==> h.frameSeq % h.buffers == k || NextSeq(h.frameSeq) % h.buffers == k
    {
      WindowUnrolled(h.frameSeq, h.buffers, k);
    }
    if h.buffers == 3 {
      var k := NextSeq(NextSeq(h.frameSeq)) % 3;
      assert n.slots[k][0] != Black;
    }
  }
}
