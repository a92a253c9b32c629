/** Frames that failed on their way to the dock: what an abandoned plan leaves behind, and exactly when
    the next frame makes it good. */
module Abandoned {
  import opened Common
  import opened Strips
  import opened DamageLedger
  import opened Scanout

  // --- in the ledger ---

  /** A plan puts a surface on record exactly when it reads all of it, or at least every strip that
      differs from the record. */
  lemma PlanRecordsIff(l: Ledger, b: Surface, rects: seq<Rect>)
    requires l.Valid() && l.grid.Shows(b)
    ensures l.PlanDirty(b, rects).pending == l.grid.Fingerprints(b) <==>
            || !l.Trusts(rects)
            || forall i: nat :: i < l.grid.Count() && l.grid.Fingerprint(b, i) != l.hashes[i] ==> l.Reads(rects, i)
  {
    if l.Trusts(rects) && l.FastPending(b, rects) == l.grid.Fingerprints(b) {
      forall i: nat | i < l.grid.Count() && l.grid.Fingerprint(b, i) != l.hashes[i]
        ensures l.Reads(rects, i)
      {
        assert l.FastPending(b, rects)[i] == l.grid.Fingerprints(b)[i];
      }
    }
  }

  /** An abandoned fast plan leaves the record where it was and everything it owed still owed; and the
      next one puts its surface on record exactly when it reads in full, or every strip that differs
      from the record still. */
  lemma AbandonedFastPlan(l: Ledger, a: Surface, r: seq<Rect>, b: Surface, rects: seq<Rect>)
    requires l.Valid() && l.grid.Shows(a) && l.grid.Shows(b)
    ensures var p := l.PlanDirty(a, r);
            && p.Valid() && p.hashes == l.hashes
            && (forall i :: 0 <= i < l.grid.Count() && p.Owes(i) ==> p.PlanDirty(b, rects).Owes(i))
            && (p.PlanDirty(b, rects).pending == l.grid.Fingerprints(b) <==>
                || !p.Trusts(rects)
                || forall i: nat :: i < l.grid.Count() && l.grid.Fingerprint(b, i) != l.hashes[i] ==> p.Reads(rects, i))
  {
    var p := l.PlanDirty(a, r);
    l.PlanDirtyValid(a, r);
    PlanRecordsIff(p, b, rects);
    p.PlanDirtyValid(b, rects);
    forall i | 0 <= i < l.grid.Count() && p.Owes(i)
      ensures p.PlanDirty(b, rects).Owes(i)
    {
    }
  }

  // --- a frame that fails ---

  /** A strip that would not encode or a frame that could not be put together, after some strips that
      did encode; or a transfer that failed, after some that did not. */
  datatype Failure = InEncoding(done: set<nat>) | InTransfer(sent: nat)

  /** The owed strips that were reached encoded; no number is spent. */
  function EncodedPart(h: Head, surface: Surface, done: set<nat>): (e: Head)
    requires h.Shaped() && h.ledger.grid.Shows(surface)
    ensures e.Shaped() && e == h.(bodies := e.bodies)
  {
    var all := h.Encode(surface);
    h.(bodies := seq(h.Count(), i requires 0 <= i < h.Count() => if i in done then all.bodies[i] else h.bodies[i]))
  }

  predicate CanFail(h: Head, surface: Surface, rects: seq<Rect>, current: Settings, failure: Failure)
    requires h.Shaped() && h.ledger.grid.Shows(surface)
  {
    var p := Planned(h, surface, rects, current);
    !p.NothingOwed() && (failure.InTransfer? ==> failure.sent < p.ledger.Presentations())
  }

  /** A frame as far as its plan. */
  function Planned(h: Head, surface: Surface, rects: seq<Rect>, current: Settings): (p: Head)
    requires h.Shaped() && h.ledger.grid.Shows(surface)
    ensures p.Shaped() && p.ledger.grid == h.ledger.grid && p.buffers == h.buffers
  {
    var ready := h.Wake().ApplyCorrection(current);
    ready.ledger.PlanDirtyValid(surface, rects);
    ready.(ledger := ready.ledger.PlanDirty(surface, rects))
  }

  /** Nothing is published: the plan, the encodings and the number spent are what is left. */
  function Failed(h: Head, surface: Surface, rects: seq<Rect>, current: Settings, failure: Failure): (f: Head)
    requires h.Shaped() && h.ledger.grid.Shows(surface)
    ensures f.Shaped() && f.ledger.grid == h.ledger.grid && f.buffers == h.buffers
  {
    var p := Planned(h, surface, rects, current);
    match failure
    case InEncoding(done) => EncodedPart(p, surface, done)
    case InTransfer(sent) => NumberSpent(p.Encode(surface).Send(sent))
  }

  /** What a failed frame leaves. Bodies may be ahead of the record, but then their strips owe full
      repeats; and whatever a buffer holds besides the record is inside the debt. */
  ghost predicate Adrift(h: Head, margin: nat) {
    && h.Shaped() && margin + h.buffers <= REPEATS
    && !h.blanked && h.BodiesHonest() && (h.recode ==> h.ledger.keyframeOwed)
    && (!h.ledger.keyframeOwed ==> forall i :: 0 <= i < h.Count() ==> StripAdrift(h, margin, i))
  }

  ghost predicate StripAdrift(h: Head, margin: nat, i: nat)
    requires h.Shaped() && i < h.Count()
  {
    && h.bodies[i].Some? && h.bodies[i].value.made == h.applied
    && (Ahead(h, i) || h.ledger.pending[i] != h.ledger.hashes[i] ==> h.ledger.debt[i] == REPEATS)
    && (h.ledger.debt[i] == REPEATS || SlotsBehind(h, margin, i))
  }

  /** Every buffer that lacks the recorded strip is reached within its debt. */
  ghost predicate SlotsBehind(h: Head, margin: nat, i: nat)
    requires h.Shaped() && i < h.Count()
  {
    forall k :: 0 <= k < h.buffers && h.slots[k][i] != Image(h.ledger.hashes[i], h.applied) ==>
      h.ledger.debt[i] >= margin && InWindow(h.frameSeq, h.buffers, h.ledger.debt[i] - margin, k)
  }

  /** The cache holds something newer than the record. */
  predicate Ahead(h: Head, i: nat)
    requires h.Shaped() && i < h.Count()
  {
    h.bodies[i].Some? && h.bodies[i].value.key != h.ledger.hashes[i]
  }

  /** A failed frame leaves that, if the head could have lost the number spent alone. */
  lemma FailedIsAdrift(h: Head, surface: Surface, rects: seq<Rect>, current: Settings, failure: Failure,
                       margin: nat, m: nat)
    requires h.Inv(margin) && h.ledger.grid.Shows(surface) && CanFail(h, surface, rects, current, failure)
    requires if failure.InEncoding? then m == margin else NumberSpent(h).Inv(m)
    ensures Adrift(Failed(h, surface, rects, current, failure), m)
  {
    var f := Failed(h, surface, rects, current, failure);
    FailedHonest(h, surface, rects, current, failure, margin);
    if !f.ledger.keyframeOwed {
      var p := Planned(h, surface, rects, current);
      PlanDirtyIsPlanOf(h.ledger, surface, rects);
      assert h.Wake().ApplyCorrection(current) == h;
      forall i | 0 <= i < f.Count()
        ensures StripAdrift(f, m, i)
      {
        FailedStrip(h, p, surface, failure, margin, m, i);
      }
    }
    hide Head.Inv, Planned, CanFail, StripAdrift;
  }

  /** A head as the plan finds it: awake, at the settings in force, and its cache honest. */
  lemma ReadyHead(h: Head, surface: Surface, rects: seq<Rect>, current: Settings, margin: nat)
    requires h.Inv(margin) && h.ledger.grid.Shows(surface)
    ensures var ready, p := h.Wake().ApplyCorrection(current), Planned(h, surface, rects, current);
            && ready.Shaped() && ready.BodiesHonest() && !ready.blanked && (ready.recode ==> ready.ledger.keyframeOwed)
            && (!ready.ledger.keyframeOwed ==> ready.BodiesMatch() && !ready.recode)
            && p == ready.(ledger := p.ledger) && PlanOf(ready.ledger, p.ledger, surface)
  {
    PlanDirtyIsPlanOf(h.Wake().ApplyCorrection(current).ledger, surface, rects);
  }

  lemma FailedHonest(h: Head, surface: Surface, rects: seq<Rect>, current: Settings, failure: Failure, margin: nat)
    requires h.Inv(margin) && h.ledger.grid.Shows(surface)
    ensures var f, ready := Failed(h, surface, rects, current, failure), h.Wake().ApplyCorrection(current);
            && f.Shaped() && f.BodiesHonest() && !f.blanked
            && f.recode == ready.recode && f.ledger.keyframeOwed == ready.ledger.keyframeOwed
            && (f.recode ==> f.ledger.keyframeOwed)
  {
    ReadyHead(h, surface, rects, current, margin);
    var ready, p := h.Wake().ApplyCorrection(current), Planned(h, surface, rects, current);
    EncodeMatchesPlan(ready, p.ledger, surface);
    hide Head.Inv, Head.Wake, Head.ApplyCorrection, Planned, PlanOf;
  }

  lemma FailedStrip(h: Head, p: Head, surface: Surface, failure: Failure, margin: nat, m: nat, i: nat)
    requires h.Inv(margin) && !h.blanked && !h.ledger.keyframeOwed && i < h.Count()
    requires p == h.(ledger := p.ledger) && PlanOf(h.ledger, p.ledger, surface)
    requires if failure.InEncoding? then m == margin else failure.sent == 0 && NumberSpent(h).Inv(m)
    ensures var f := match failure
                     case InEncoding(done) => EncodedPart(p, surface, done)
                     case InTransfer(sent) => NumberSpent(p.Encode(surface).Send(sent));
            StripAdrift(f, m, i)
  {
    EncodeMatchesPlan(h, p.ledger, surface);
    assert h.Cached(i) == Image(h.ledger.hashes[i], h.applied);
  }

  /** A change that was planned and encoded before its transfer failed is ahead of the record. */
  lemma FailedChange(h: Head, surface: Surface, rects: seq<Rect>, margin: nat, i: nat)
    requires h.Inv(margin) && !h.blanked && !h.ledger.keyframeOwed && h.ledger.grid.Shows(surface) && i < h.Count()
    requires h.ledger.PlanDirty(surface, rects).Valid()
    requires h.ledger.PlanDirty(surface, rects).grid == h.ledger.grid
    requires h.ledger.PlanDirty(surface, rects).pending[i] != h.ledger.hashes[i]
    ensures var f := Failed(h, surface, rects, h.applied, InTransfer(0));
            && CanFail(h, surface, rects, h.applied, InTransfer(0))
            && f.ledger == h.ledger.PlanDirty(surface, rects) && f.ledger.hashes == h.ledger.hashes
            && f.applied == h.applied && f.frameSeq == NextSeq(h.frameSeq)
            && !f.ledger.keyframeOwed && Ahead(f, i)
  {
    ReadyHead(h, surface, rects, h.applied, margin);
    assert h.Wake().ApplyCorrection(h.applied) == h;
    var p := Planned(h, surface, rects, h.applied);
    EncodeMatchesPlan(h, p.ledger, surface);
    assert p.ledger.Owes(i);
    hide Head.Inv, Head.Wake, Head.ApplyCorrection;
  }

  // --- the next frame ---

  /** Every strip whose cached body is ahead of the record is read, or is as recorded again. */
  ghost predicate Rereads(f: Head, l: Ledger, b: Surface, rects: seq<Rect>)
    requires f.Shaped() && l.Valid() && l.grid == f.ledger.grid && l.grid.Shows(b)
  {
    || !l.Trusts(rects)
    || forall i: nat :: i < f.Count() && Ahead(f, i) && l.grid.Fingerprint(b, i) != l.hashes[i] ==> l.Reads(rects, i)
  }

  /** A strip that is ahead, differs from the record and is not read gets a body that lies about it. */
  lemma UnreadBodyLies(f: Head, b: Surface, rects: seq<Rect>, m: nat, i: nat)
    requires Adrift(f, m) && !f.ledger.keyframeOwed && f.ledger.grid.Shows(b) && i < f.Count() && Ahead(f, i)
    requires f.ledger.Trusts(rects) && !f.ledger.Reads(rects, i)
    requires f.ledger.grid.Fingerprint(b, i) != f.ledger.hashes[i]
    ensures var p := f.(ledger := f.ledger.PlanDirty(b, rects));
            && p.Shaped() && p.ledger.Owes(i) && p.ledger.pending[i] == f.ledger.hashes[i]
            && p.Encode(b).bodies[i] == Some(Body(f.ledger.hashes[i], f.ledger.grid.Fingerprint(b, i), f.applied))
  {
    PlanDirtyIsPlanOf(f.ledger, b, rects);
    assert StripAdrift(f, m, i);
  }

  /** Otherwise every body is the planned content. */
  lemma RereadBodyHonest(f: Head, b: Surface, rects: seq<Rect>, m: nat, i: nat)
    requires Adrift(f, m) && !f.ledger.keyframeOwed && f.ledger.grid.Shows(b) && i < f.Count()
    requires Rereads(f, f.ledger, b, rects)
    ensures var p := f.(ledger := f.ledger.PlanDirty(b, rects));
            && p.Shaped()
            && p.Encode(b).bodies[i] == Some(Body(p.ledger.pending[i], p.ledger.pending[i], f.applied))
            && (p.ledger.debt[i] == REPEATS || (p.ledger.debt[i] == f.ledger.debt[i]
                                                && p.ledger.pending[i] == f.ledger.hashes[i]))
  {
    PlanDirtyIsPlanOf(f.ledger, b, rects);
    assert StripAdrift(f, m, i);
    var p := f.ledger.PlanDirty(b, rects);
    if p.pending[i] != f.ledger.grid.Fingerprint(b, i) {
      assert p.pending[i] == f.ledger.hashes[i];
      assert f.ledger.Trusts(rects) && !f.ledger.Reads(rects, i);
    }
  }

  lemma RereadSlotsPaid(f: Head, b: Surface, rects: seq<Rect>, m: nat)
    requires Adrift(f, m) && !f.ledger.keyframeOwed && f.ledger.grid.Shows(b) && Rotates(f.frameSeq, f.buffers)
    requires Rereads(f, f.ledger, b, rects)
    ensures var p := f.(ledger := f.ledger.PlanDirty(b, rects));
            p.Shaped() && p.Encode(b).SlotsPaid(m)
  {
    var p := f.(ledger := f.ledger.PlanDirty(b, rects));
    PlanDirtyIsPlanOf(f.ledger, b, rects);
    var e := p.Encode(b);
    forall i | 0 <= i < e.Count()
      ensures e.bodies[i] == Some(Body(p.ledger.pending[i], p.ledger.pending[i], f.applied))
      ensures p.ledger.debt[i] == REPEATS
           || (p.ledger.debt[i] == f.ledger.debt[i] && p.ledger.pending[i] == f.ledger.hashes[i])
    {
      RereadBodyHonest(f, b, rects, m, i);
    }
    assert e.ledger == p.ledger && e.slots == f.slots && e.frameSeq == f.frameSeq && e.applied == f.applied;
    CaughtUpPaid(f, e, m);
  }

  /** A cache caught up with its plan, over the buffers a failed frame left. */
  lemma CaughtUpPaid(f: Head, e: Head, m: nat)
    requires Adrift(f, m) && !f.ledger.keyframeOwed && Rotates(f.frameSeq, f.buffers)
    requires e.Shaped() && e.slots == f.slots && e.frameSeq == f.frameSeq && e.buffers == f.buffers
    requires e.applied == f.applied && e.ledger.grid == f.ledger.grid
    requires forall i :: 0 <= i < e.Count() ==>
               && e.Cached(i) == Image(e.ledger.pending[i], f.applied)
               && (e.ledger.debt[i] == REPEATS
                   || (e.ledger.debt[i] == f.ledger.debt[i] && e.ledger.pending[i] == f.ledger.hashes[i]))
    ensures e.SlotsPaid(m)
  {
    forall k, i | 0 <= k < e.buffers && 0 <= i < e.Count() && e.slots[k][i] != e.Cached(i)
      ensures e.ledger.debt[i] >= m && InWindow(e.frameSeq, e.buffers, e.ledger.debt[i] - m, k)
    {
      if e.ledger.debt[i] == REPEATS {
        Reached(f.frameSeq, f.buffers, REPEATS - m, k);
      } else {
        assert StripAdrift(f, m, i);
      }
    }
  }

  /** The next frame makes good exactly when it rereads, or a keyframe is owed. */
  lemma MadeGoodIff(f: Head, b: Surface, rects: seq<Rect>, current: Settings, m: nat)
    requires Adrift(f, m) && f.ledger.grid.Shows(b) && Rotates(f.frameSeq, f.buffers)
    ensures var ready := f.ApplyCorrection(current);
            f.Present(b, rects, current).Inv(m) <==> Rereads(f, ready.ledger, b, rects)
  {
    var ready := f.ApplyCorrection(current);
    assert f.Wake() == f;
    if ready.ledger.keyframeOwed {
      KeyframeMakesGood(ready, b, rects, m);
    } else if Rereads(f, ready.ledger, b, rects) {
      assert ready == f;
      RereadMakesGood(f, b, rects, m);
    } else {
      assert ready == f;
      var i: nat :| i < f.Count() && Ahead(f, i) && f.ledger.grid.Fingerprint(b, i) != f.ledger.hashes[i]
                    && !f.ledger.Reads(rects, i);
      UnreadSpoils(f, b, rects, m, i);
    }
  }

  /** In particular when it puts its surface on record, and that it does exactly when it reads in full, or
      every strip that differs from the record. */
  lemma NextRecordsIff(f: Head, b: Surface, rects: seq<Rect>, current: Settings, m: nat)
    requires Adrift(f, m) && f.ledger.grid.Shows(b) && Rotates(f.frameSeq, f.buffers)
    ensures var l, n := f.ApplyCorrection(current).ledger, f.Present(b, rects, current);
            && (n.ledger.hashes == f.ledger.grid.Fingerprints(b) <==>
                || !l.Trusts(rects)
                || forall i: nat :: i < f.Count() && l.grid.Fingerprint(b, i) != l.hashes[i] ==> l.Reads(rects, i))
            && (n.ledger.hashes == f.ledger.grid.Fingerprints(b) ==> n.Inv(m))
  {
    var ready := f.ApplyCorrection(current);
    assert f.Wake() == f;
    CarriedOutIsRecorded(ready, b, rects);
    PlanRecordsIff(ready.ledger, b, rects);
    MadeGoodIff(f, b, rects, current, m);
    hide Head.Inv, Adrift, Head.CarryOut, Ledger.PlanDirty;
  }

  lemma KeyframeMakesGood(h: Head, b: Surface, rects: seq<Rect>, m: nat)
    requires h.Shaped() && m + h.buffers <= REPEATS && !h.blanked && h.BodiesHonest() && h.ledger.keyframeOwed
    requires h.ledger.grid.Shows(b) && Rotates(h.frameSeq, h.buffers)
    ensures h.(ledger := h.ledger.PlanDirty(b, rects)).CarryOut(b).Inv(m)
  {
    var p := h.(ledger := h.ledger.PlanDirty(b, rects));
    PlanDirtyIsPlanOf(h.ledger, b, rects);
    if p.NothingOwed() {
      assert h.Count() == 0 by {
        if h.Count() > 0 {
          assert p.ledger.Owes(0);
        }
      }
    } else {
      EncodeMatchesPlan(h, p.ledger, b);
      SendKeepsInv(p.Encode(b), m);
    }
  }

  lemma RereadMakesGood(f: Head, b: Surface, rects: seq<Rect>, m: nat)
    requires Adrift(f, m) && !f.ledger.keyframeOwed && f.ledger.grid.Shows(b) && Rotates(f.frameSeq, f.buffers)
    requires Rereads(f, f.ledger, b, rects)
    ensures f.(ledger := f.ledger.PlanDirty(b, rects)).CarryOut(b).Inv(m)
  {
    var p := f.(ledger := f.ledger.PlanDirty(b, rects));
    PlanDirtyIsPlanOf(f.ledger, b, rects);
    RereadSlotsPaid(f, b, rects, m);
    forall i | 0 <= i < f.Count()
      ensures p.Encode(b).bodies[i] == Some(Body(p.ledger.pending[i], p.ledger.pending[i], f.applied))
    {
      RereadBodyHonest(f, b, rects, m, i);
    }
    if p.NothingOwed() {
      forall i | 0 <= i < f.Count()
        ensures p.Encode(b).bodies[i] == p.bodies[i] && p.ledger.pending[i] == f.ledger.hashes[i]
      {
        assert !p.ledger.Owes(i);
      }
      assert p.Encode(b).bodies == p.bodies;
      assert p.Encode(b) == p;
      assert p.ledger.pending == f.ledger.hashes;
    } else {
      SendKeepsInv(p.Encode(b), m);
    }
  }

  lemma UnreadSpoils(f: Head, b: Surface, rects: seq<Rect>, m: nat, i: nat)
    requires Adrift(f, m) && !f.ledger.keyframeOwed && f.ledger.grid.Shows(b) && i < f.Count() && Ahead(f, i)
    requires f.ledger.Trusts(rects) && !f.ledger.Reads(rects, i)
    requires f.ledger.grid.Fingerprint(b, i) != f.ledger.hashes[i]
    ensures var n := f.(ledger := f.ledger.PlanDirty(b, rects)).CarryOut(b);
            && !n.BodiesHonest()
            && n.ledger.hashes[i] == f.ledger.hashes[i] && n.ledger.debt[i] == REPEATS - 1
            && n.bodies[i] == Some(Body(f.ledger.hashes[i], f.ledger.grid.Fingerprint(b, i), f.applied))
  {
    UnreadBodyLies(f, b, rects, m, i);
    PlanDirtyIsPlanOf(f.ledger, b, rects);
    assert StripAdrift(f, m, i);
    var n := f.(ledger := f.ledger.PlanDirty(b, rects)).CarryOut(b);
    assert n.bodies[i].value.key != n.bodies[i].value.image;
  }

  /** The cache holds what the plan says. */
  ghost predicate CaughtUp(f: Head)
    requires f.Shaped()
  {
    forall i :: 0 <= i < f.Count() ==> f.bodies[i].Some? && f.bodies[i].value.key == f.ledger.pending[i]
  }

  /** A tick of the refresh clock before the next frame publishes the abandoned plan: that makes good
      exactly when everything planned had been encoded. */
  lemma TickPublishesIff(f: Head, m: nat)
    requires Adrift(f, m) && !f.ledger.keyframeOwed && Rotates(f.frameSeq, f.buffers)
    ensures f.Refresh(f.applied, false, false).Inv(m) <==> CaughtUp(f)
  {
    assert forall i :: 0 <= i < f.Count() ==> StripAdrift(f, m, i);
    assert f.Refresh(f.applied, false, false) == f.Repay(false);
    if f.NothingOwed() {
      forall i | 0 <= i < f.Count()
        ensures f.bodies[i] == Some(Body(f.ledger.hashes[i], f.ledger.hashes[i], f.applied))
        ensures f.ledger.pending[i] == f.ledger.hashes[i]
      {
        assert StripAdrift(f, m, i) && !f.ledger.Owes(i);
      }
      assert f.ledger.pending == f.ledger.hashes;
      CaughtUpPaid(f, f, m);
    } else if CaughtUp(f) {
      forall i | 0 <= i < f.Count()
        ensures f.bodies[i] == Some(Body(f.ledger.pending[i], f.ledger.pending[i], f.applied))
        ensures f.ledger.debt[i] == REPEATS || f.ledger.pending[i] == f.ledger.hashes[i]
      {
        assert StripAdrift(f, m, i);
      }
      CaughtUpPaid(f, f, m);
      SendKeepsInv(f, m);
    } else {
      var i :| 0 <= i < f.Count() && (f.bodies[i].Some? ==> f.bodies[i].value.key != f.ledger.pending[i]);
      var n := f.Transmit();
      assert n.ledger.hashes[i] == f.ledger.pending[i] && n.bodies[i] == f.bodies[i];
      assert !n.BodiesMatch();
    }
  }

  /** A failed transfer had everything encoded, so a tick makes it good. */
  lemma TickAfterTransfer(h: Head, surface: Surface, rects: seq<Rect>, current: Settings, sent: nat,
                          margin: nat, m: nat)
    requires h.Inv(margin) && h.ledger.grid.Shows(surface) && NumberSpent(h).Inv(m)
    requires CanFail(h, surface, rects, current, InTransfer(sent))
    ensures var f := Failed(h, surface, rects, current, InTransfer(sent));
            !f.ledger.keyframeOwed && Rotates(f.frameSeq, f.buffers) ==> f.Refresh(f.applied, false, false).Inv(m)
  {
    var f := Failed(h, surface, rects, current, InTransfer(sent));
    FailedIsAdrift(h, surface, rects, current, InTransfer(sent), margin, m);
    TransferCaughtUp(h, surface, rects, current, sent, margin);
    hide Head.Inv, Head.Refresh, Failed, CanFail, Adrift, CaughtUp;
    if !f.ledger.keyframeOwed && Rotates(f.frameSeq, f.buffers) {
      TickPublishesIff(f, m);
    }
  }

  lemma TransferCaughtUp(h: Head, surface: Surface, rects: seq<Rect>, current: Settings, sent: nat, margin: nat)
    requires h.Inv(margin) && h.ledger.grid.Shows(surface)
    ensures CaughtUp(Failed(h, surface, rects, current, InTransfer(sent)))
  {
    ReadyHead(h, surface, rects, current, margin);
    EncodeMatchesPlan(h.Wake().ApplyCorrection(current), Planned(h, surface, rects, current).ledger, surface);
    hide Head.Inv, Head.Wake, Head.ApplyCorrection, Planned, PlanOf;
  }

  // --- and when it does not ---

  /** A lit head without a keyframe to send. */
  ghost predicate Steady(h: Head) {
    h.Shaped() && !h.blanked && !h.recode && !h.ledger.keyframeOwed
  }

  /** One presentation of what it owes: one buffer written, one off each debt. */
  lemma SentOnce(h: Head, i: nat)
    requires Steady(h) && i < h.Count() && h.ledger.Owes(i)
    ensures var n := h.Transmit();
            && Steady(n) && n.Count() == h.Count() && n.buffers == h.buffers && n.frameSeq == NextSeq(h.frameSeq)
            && n.ledger.hashes == n.ledger.pending == h.ledger.pending && n.bodies == h.bodies && n.applied == h.applied
            && n.ledger.debt[i] == h.ledger.debt[i] - 1
            && forall k :: 0 <= k < h.buffers ==>
                 n.slots[k][i] == if k == h.frameSeq % h.buffers then h.Cached(i) else h.slots[k][i]
  {
    SendOne(h);
  }

  lemma TickSends(h: Head, i: nat)
    requires Steady(h) && i < h.Count() && h.ledger.Owes(i)
    ensures h.Refresh(h.applied, false, false) == h.Transmit()
  {
    assert h.ApplyCorrection(h.applied) == h;
  }

  /** Every buffer shows something else than what is on record, and so does the cache, under the name of
      what is on record. */
  ghost predicate Stuck(h: Head, i: nat, image: Fingerprint) {
    && h.Shaped() && !h.blanked && !h.recode && i < h.Count()
    && h.ledger.hashes[i] != image && h.ledger.pending[i] == h.ledger.hashes[i]
    && h.bodies[i] == Some(Body(h.ledger.hashes[i], image, h.applied))
    && forall k :: 0 <= k < h.buffers ==> h.slots[k][i] == Image(image, h.applied)
  }

  function TwoTicks(h: Head): (r: Head)
    requires h.Shaped()
    ensures r.Shaped() && r.ledger.grid == h.ledger.grid
  {
    var once := h.Refresh(h.applied, false, false);
    once.Refresh(once.applied, false, false)
  }

  /** A change whose frame failed, in a strip the next frame does not read: that frame and two ticks
      later its debt is paid, every buffer shows the change, and the record still has what was there
      before. */
  lemma UnrereadGetsStuck(f: Head, b: Surface, rects: seq<Rect>, m: nat, i: nat)
    requires Adrift(f, m) && !f.ledger.keyframeOwed && Rotates(f.frameSeq, f.buffers)
    requires f.ledger.grid.Shows(b) && i < f.Count() && Ahead(f, i)
    requires f.ledger.Trusts(rects) && !f.ledger.Reads(rects, i)
    requires f.ledger.grid.Fingerprint(b, i) != f.ledger.hashes[i]
    ensures var twice := TwoTicks(f.Present(b, rects, f.applied));
            && Stuck(twice, i, f.ledger.grid.Fingerprint(b, i))
            && twice.ledger.hashes[i] == f.ledger.hashes[i] && twice.ledger.debt[i] == 0
  {
    var e := f.(ledger := f.ledger.PlanDirty(b, rects)).Encode(b);
    LiarReady(f, b, rects, m, i);
    forall k | 0 <= k < f.buffers
      ensures InWindow(e.frameSeq, e.buffers, REPEATS, k)
    {
      Reached(f.frameSeq, f.buffers, REPEATS, k);
    }
    hide Head.Present, Head.Encode, Head.Transmit, Head.Refresh, Adrift, Ledger.PlanDirty, InWindow;
    SentThrice(e, e.Transmit(), i);
  }

  lemma LiarReady(f: Head, b: Surface, rects: seq<Rect>, m: nat, i: nat)
    requires Adrift(f, m) && !f.ledger.keyframeOwed
    requires f.ledger.grid.Shows(b) && i < f.Count() && Ahead(f, i)
    requires f.ledger.Trusts(rects) && !f.ledger.Reads(rects, i)
    requires f.ledger.grid.Fingerprint(b, i) != f.ledger.hashes[i]
    ensures f.ledger.PlanDirty(b, rects).Valid() && f.ledger.PlanDirty(b, rects).grid == f.ledger.grid
    ensures var e := f.(ledger := f.ledger.PlanDirty(b, rects)).Encode(b);
            && Steady(e) && e.frameSeq == f.frameSeq && e.buffers == f.buffers && e.Count() == f.Count()
            && e.applied == f.applied && e.ledger.debt[i] == REPEATS && e.ledger.pending[i] == f.ledger.hashes[i]
            && e.bodies[i] == Some(Body(f.ledger.hashes[i], f.ledger.grid.Fingerprint(b, i), f.applied))
            && f.Present(b, rects, f.applied) == e.Transmit()
  {
    UnreadBodyLies(f, b, rects, m, i);
    PlanDirtyIsPlanOf(f.ledger, b, rects);
    assert StripAdrift(f, m, i);
    assert f.Wake().ApplyCorrection(f.applied) == f;
    assert !f.(ledger := f.ledger.PlanDirty(b, rects)).NothingOwed();
    hide Head.Transmit;
  }

  lemma SentThrice(e: Head, n: Head, i: nat)
    requires Steady(e) && i < e.Count() && e.ledger.debt[i] == REPEATS && n == e.Transmit()
    ensures var twice := TwoTicks(n);
            && Steady(twice) && twice.Count() == e.Count() && twice.buffers == e.buffers && twice.applied == e.applied
            && twice.bodies == e.bodies && twice.ledger.debt[i] == 0
            && twice.ledger.hashes == twice.ledger.pending == e.ledger.pending
            && forall k :: 0 <= k < e.buffers && InWindow(e.frameSeq, e.buffers, REPEATS, k) ==>
                 twice.slots[k][i] == e.Cached(i)
  {
    SentOnce(e, i);
    TickSends(n, i);
    SentOnce(n, i);
    var once := n.Transmit();
    TickSends(once, i);
    SentOnce(once, i);
    forall k | 0 <= k < e.buffers
      ensures InWindow(e.frameSeq, e.buffers, REPEATS, k)
         <==> (k == e.frameSeq % e.buffers || k == NextSeq(e.frameSeq) % e.buffers
               || k == NextSeq(NextSeq(e.frameSeq)) % e.buffers)
    {
      WindowUnrolled(e.frameSeq, e.buffers, k);
    }
    hide Head.Transmit, Head.Refresh, InWindow;
  }

  /** And so it stays, for as long as the strip is as recorded: no frame finds it, whatever its
      rectangles, ... */
  lemma FrameKeepsStuck(h: Head, i: nat, image: Fingerprint, c: Surface, rects: seq<Rect>)
    requires Stuck(h, i, image) && h.ledger.grid.Shows(c) && h.ledger.grid.Fingerprint(c, i) == h.ledger.hashes[i]
    ensures Stuck(h.Present(c, rects, h.applied), i, image)
    ensures h.Present(c, rects, h.applied).ledger.hashes[i] == h.ledger.hashes[i]
  {
    PlanDirtyIsPlanOf(h.ledger, c, rects);
    assert h.Wake().ApplyCorrection(h.applied) == h;
    var p := h.(ledger := h.ledger.PlanDirty(c, rects));
    if !p.NothingOwed() {
      var e := p.Encode(c);
      assert e.bodies[i] == h.bodies[i];
      ResentStuck(e, i, image);
    }
  }

  lemma ResentStuck(e: Head, i: nat, image: Fingerprint)
    requires Stuck(e, i, image)
    ensures Stuck(e.Transmit(), i, image) && e.Transmit().ledger.hashes[i] == e.ledger.hashes[i]
  {
    var n := e.ledger.Presentations();
    forall k | 0 <= k < e.buffers
      ensures e.Send(n).slots[k][i] == Image(image, e.applied)
    {
      SendReaches(e, n, k, i);
    }
  }

  /** ... and no tick mends it, a keepalive repaint of everything included. */
  lemma TickKeepsStuck(h: Head, i: nat, image: Fingerprint, keepaliveDue: bool)
    requires Stuck(h, i, image)
    ensures Stuck(h.Refresh(h.applied, false, keepaliveDue), i, image)
    ensures h.Refresh(h.applied, false, keepaliveDue).ledger.hashes[i] == h.ledger.hashes[i]
  {
    if !h.ledger.keyframeOwed {
      assert h.ApplyCorrection(h.applied) == h;
      var due := if keepaliveDue then h.OweKeyframe() else h;
      if !due.NothingOwed() {
        ResentStuck(due, i, image);
      }
    }
  }
}
