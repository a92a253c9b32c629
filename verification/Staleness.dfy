/** How far behind the dock can be when rectangles are wrong: at any time every dock buffer shows every
    strip as it was in one of the last ten frames, and of the last eight once its repeats are paid. */
module Staleness {
  import opened Common
  import opened Strips
  import opened DamageLedger
  import opened Scanout

  /** A captured frame, with rectangles that may claim anything, or a tick of the refresh clock. */
  datatype Step =
    | Capture(f: Frame)
    | Tick(current: Settings, standbyDue: bool, keepaliveDue: bool)

  ghost predicate Possible(h: Head, s: Step) {
    && h.Shaped() && Rotates(h.frameSeq, h.buffers)
    && (s.Capture? ==> h.ledger.grid.Shows(s.f.surface))
  }

  function Next(h: Head, s: Step): Head
    requires Possible(h, s)
  {
    match s
    case Capture(f) => h.Present(f.surface, f.rects, f.current)
    case Tick(current, standbyDue, keepaliveDue) => h.Refresh(current, standbyDue, keepaliveDue)
  }

  /** A head through any steps in any order. */
  ghost predicate History(hs: seq<Head>, steps: seq<Step>, margin: nat) {
    && |hs| == |steps| + 1
    && hs[0].Inv(margin)
    && forall j :: 0 <= j < |steps| ==> Possible(hs[j], steps[j]) && hs[j + 1] == Next(hs[j], steps[j])
  }

  /** The captured frames among the first `n` steps, as the ledger took them. */
  function Scans(hs: seq<Head>, steps: seq<Step>, n: nat): seq<Scan>
    requires n <= |steps| < |hs|
  {
    if n == 0 then []
    else
      var before, h := Scans(hs, steps, n - 1), hs[n - 1];
      match steps[n - 1]
      case Tick(_, _, _) => before
      case Capture(f) =>
        before + [Scan(f.surface, f.rects, h.ledger.keyframeOwed || h.blanked || h.recode || h.applied != f.current)]
  }

  /** The ledger at first, and after each of them. */
  function Ledgers(hs: seq<Head>, steps: seq<Step>, n: nat): (r: seq<Ledger>)
    requires n <= |steps| < |hs|
    ensures |r| == |Scans(hs, steps, n)| + 1
  {
    if n == 0 then [hs[0].ledger]
    else Ledgers(hs, steps, n - 1) + if steps[n - 1].Capture? then [hs[n].ledger] else []
  }

  ghost predicate SameRecord(a: Ledger, b: Ledger) {
    a.grid == b.grid && a.hashes == b.hashes && a.sweep == b.sweep
  }

  /** What a plan finds depends on the record, the sweep and whether a keyframe is owed alone. */
  lemma SamePending(a: Ledger, b: Ledger, surface: Surface, rects: seq<Rect>)
    requires a.Valid() && b.Valid() && SameRecord(a, b) && a.keyframeOwed == b.keyframeOwed && a.grid.Shows(surface)
    ensures a.PlanDirty(surface, rects).pending == b.PlanDirty(surface, rects).pending
  {
    assert a.Trusts(rects) <==> b.Trusts(rects);
    if a.Trusts(rects) {
      assert a.FastPending(surface, rects) == b.FastPending(surface, rects);
    }
  }

  lemma PlanTakenFrom(a: Ledger, b: Ledger, m: Ledger, f: Scan)
    requires PlanTaken(a, m, f) && SameRecord(a, b) && b.Valid()
    ensures PlanTaken(b, m, f)
  {
    SamePending(a.(keyframeOwed := f.keyframe), b.(keyframeOwed := f.keyframe), f.surface, f.rects);
    hide Ledger.PlanDirty;
  }

  lemma TickKeepsRecord(h: Head, s: Step, margin: nat)
    requires h.Inv(margin) && Possible(h, s) && s.Tick?
    ensures SameRecord(Next(h, s).ledger, h.ledger)
  {
    RefreshKeepsRecord(h, s.current, s.standbyDue, s.keepaliveDue, margin);
  }

  /** A head somewhere in a history that began with `first`: the invariant and the grid are kept, and
      the ledgers after each frame so far are a run that ends in its record. */
  ghost predicate Follows(first: Head, h: Head, ls: seq<Ledger>, scans: seq<Scan>, margin: nat) {
    && h.Inv(margin) && h.ledger.grid == first.ledger.grid && h.buffers == first.buffers
    && Run(ls, scans) && ls[0] == first.ledger
    && ls[|scans|].Valid() && SameRecord(ls[|scans|], h.ledger)
    && (scans != [] && first.Count() > 0 ==> Caught(h))
  }

  lemma TickFollows(first: Head, h: Head, s: Step, ls: seq<Ledger>, scans: seq<Scan>, margin: nat)
    requires Follows(first, h, ls, scans, margin) && Possible(h, s) && s.Tick?
    ensures Follows(first, Next(h, s), ls, scans, margin)
  {
    RefreshKeepsInv(h, s.current, s.standbyDue, s.keepaliveDue, margin);
    TickKeepsRecord(h, s, margin);
    assert Next(h, s).buffers == h.buffers;
    if h.Count() > 0 && Caught(h) {
      RefreshKeepsCaught(h, s.current, s.standbyDue, s.keepaliveDue, margin);
    }
    hide Head.Inv, Head.Refresh, Possible, Run, Caught;
  }

  lemma CaptureFollows(first: Head, h: Head, f: Frame, ls: seq<Ledger>, scans: seq<Scan>, margin: nat)
    requires Follows(first, h, ls, scans, margin) && Possible(h, Capture(f))
    ensures var scan := Scan(f.surface, f.rects,
                             h.ledger.keyframeOwed || h.blanked || h.recode || h.applied != f.current);
            var n := Next(h, Capture(f));
            Follows(first, n, ls + [n.ledger], scans + [scan], margin)
  {
    CaptureAlong(h, f, margin);
    var scan := Scan(f.surface, f.rects, h.ledger.keyframeOwed || h.blanked || h.recode || h.applied != f.current);
    var n := Next(h, Capture(f));
    PlanTakenFrom(h.ledger, ls[|scans|], n.ledger, scan);
    RunGrows(ls, scans, n.ledger, scan);
    hide Head.Inv, Head.Present, Possible, Run, PlanTaken;
  }

  lemma RunGrows(ls: seq<Ledger>, scans: seq<Scan>, m: Ledger, scan: Scan)
    requires Run(ls, scans) && PlanTaken(ls[|scans|], m, scan)
    ensures Run(ls + [m], scans + [scan]) && m.Valid()
  {
    var more, all := ls + [m], scans + [scan];
    forall j | 0 <= j < |all|
      ensures PlanTaken(more[j], more[j + 1], all[j])
    {
      if j < |scans| {
        assert PlanTaken(ls[j], ls[j + 1], scans[j]);
      }
    }
  }

  lemma {:induction false} Along(hs: seq<Head>, steps: seq<Step>, margin: nat, n: nat)
    requires History(hs, steps, margin) && n <= |steps|
    ensures Follows(hs[0], hs[n], Ledgers(hs, steps, n), Scans(hs, steps, n), margin)
    decreases n
  {
    if n > 0 {
      Along(hs, steps, margin, n - 1);
      var h, s := hs[n - 1], steps[n - 1];
      assert Possible(h, s) && hs[n] == Next(h, s);
      hide Follows, Possible, Next, History;
      if s.Tick? {
        TickFollows(hs[0], h, s, Ledgers(hs, steps, n - 1), Scans(hs, steps, n - 1), margin);
      } else {
        CaptureFollows(hs[0], h, s.f, Ledgers(hs, steps, n - 1), Scans(hs, steps, n - 1), margin);
      }
    }
  }

  lemma CaptureAlong(h: Head, f: Frame, margin: nat)
    requires h.Inv(margin) && Possible(h, Capture(f))
    ensures var n := Next(h, Capture(f));
            && n.Inv(margin) && n.ledger.grid == h.ledger.grid && n.buffers == h.buffers
            && PlanTaken(h.ledger, n.ledger,
                         Scan(f.surface, f.rects,
                              h.ledger.keyframeOwed || h.blanked || h.recode || h.applied != f.current))
            && (h.Count() > 0 ==> !n.ledger.keyframeOwed)
  {
    PresentKeepsInv(h, f.surface, f.rects, f.current, margin);
    PresentTakesPlan(h, f, margin);
    if h.Count() > 0 {
      PresentSettles(h, f.surface, f.rects, f.current, margin);
    }
  }

  // --- in a stream of frames ---

  /** A buffer's strip is the record of `a` frames ago, and its buffer is about to come round. */
  ghost predicate Behind(h: Head, ls: seq<Ledger>, a: nat, k: nat, i: nat)
    requires h.Shaped() && k < h.buffers && i < h.Count() && a <= REPEATS
  {
    && a < |ls|
    && i < |ls[|ls| - 1 - a].hashes|
    && h.slots[k][i] == Image(ls[|ls| - 1 - a].hashes[i], h.applied)
    && (a > 0 ==> InWindow(h.frameSeq, h.buffers, REPEATS - a, k))
  }

  /** Two frames ago at most, unless what it holds is older than the history. */
  ghost predicate Near(h: Head, ls: seq<Ledger>, k: nat, i: nat)
    requires h.Shaped() && k < h.buffers && i < h.Count()
  {
    || Behind(h, ls, 0, k, i)
    || Behind(h, ls, 1, k, i)
    || Behind(h, ls, 2, k, i)
    || (|ls| <= REPEATS && InWindow(h.frameSeq, h.buffers, REPEATS + 1 - |ls|, k))
  }

  /** The ledgers so far end in what is about to be put on record. */
  ghost predicate EndsIn(ls: seq<Ledger>, i: nat, content: Fingerprint) {
    ls != [] && i < |ls[|ls| - 1].hashes| && ls[|ls| - 1].hashes[i] == content
  }

  /** One frame more, or none. */
  ghost predicate OneOn(ls: seq<Ledger>, more: seq<Ledger>) {
    more == ls || (|more| == |ls| + 1 && more[..|ls|] == ls)
  }

  /** Sending leaves each buffer near: written, or one nearer to its turn. */
  lemma SendKeepsNear(e: Head, ls: seq<Ledger>, more: seq<Ledger>, k: nat, i: nat)
    requires e.Shaped() && !e.ledger.keyframeOwed && Rotates(e.frameSeq, e.buffers) && k < e.buffers && i < e.Count()
    requires ls != [] && Near(e, ls, k, i) && OneOn(ls, more) && EndsIn(more, i, e.ledger.pending[i])
    requires e.Cached(i) == Image(e.ledger.pending[i], e.applied)
    requires !e.ledger.Owes(i) ==> e.slots[k][i] == e.Cached(i)
    ensures Near(e.Transmit(), more, k, i)
  {
    var n := e.Transmit();
    SendOne(e);
    Reached(e.frameSeq, e.buffers, REPEATS, k);
    if e.ledger.Owes(i) && e.frameSeq % e.buffers != k {
      TurnNears(e.frameSeq, e.buffers, k);
    } else {
      assert Behind(n, more, 0, k, i);
    }
  }

  lemma TurnNears(s: nat, buffers: nat, k: nat)
    requires 2 <= buffers <= 3 && s % buffers != k && InWindow(s, buffers, REPEATS, k)
    ensures InWindow(NextSeq(s), buffers, 2, k) && InWindow(NextSeq(s), buffers, 3, k)
    ensures InWindow(s, buffers, 2, k) ==> InWindow(NextSeq(s), buffers, 1, k)
    ensures !InWindow(s, buffers, 1, k)
  {
    WindowUnrolled(s, buffers, k);
    WindowUnrolled(NextSeq(s), buffers, k);
  }

  /** A keyframe leaves none behind. */
  lemma KeyframeNear(e: Head, more: seq<Ledger>, k: nat, i: nat)
    requires e.Shaped() && e.ledger.keyframeOwed && Rotates(e.frameSeq, e.buffers) && k < e.buffers && i < e.Count()
    requires EndsIn(more, i, e.ledger.pending[i]) && e.Cached(i) == Image(e.ledger.pending[i], e.applied)
    ensures Near(e.Transmit(), more, k, i)
  {
    SendReaches(e, REPEATS, k, i);
    Reached(e.frameSeq, e.buffers, REPEATS, k);
    assert Behind(e.Transmit(), more, 0, k, i);
  }

  /** Lit, with no full repaint pending: what a buffer shows was captured. */
  ghost predicate Lit(h: Head) {
    !h.ledger.keyframeOwed && !h.blanked
  }

  ghost predicate AllNear(h: Head, ls: seq<Ledger>) {
    && h.Shaped()
    && (Lit(h) ==> forall k: nat, i: nat :: k < h.buffers && i < h.Count() ==> Near(h, ls, k, i))
  }

  lemma PlannedNear(h: Head, p: Ledger, surface: Surface, ls: seq<Ledger>, more: seq<Ledger>, margin: nat,
                    k: nat, i: nat)
    requires h.Inv(margin) && !h.blanked && AllNear(h, ls) && Rotates(h.frameSeq, h.buffers)
    requires PlanOf(h.ledger, p, surface) && k < h.buffers && i < h.Count()
    requires ls != [] && OneOn(ls, more) && EndsIn(more, i, p.pending[i])
    ensures Near(h.(ledger := p).CarryOut(surface), more, k, i)
  {
    var planned := h.(ledger := p);
    EncodeMatchesPlan(h, p, surface);
    if planned.NothingOwed() {
      assert !planned.ledger.Owes(i);
      assert p.pending[i] == h.ledger.hashes[i] && p.debt[i] == h.ledger.debt[i];
      assert Behind(planned, more, 0, k, i);
    } else if p.keyframeOwed {
      KeyframeNear(planned.Encode(surface), more, k, i);
    } else {
      assert Near(planned.Encode(surface), ls, k, i) by {
        assert Near(h, ls, k, i);
      }
      SendKeepsNear(planned.Encode(surface), ls, more, k, i);
    }
  }

  lemma PlanNear(h: Head, p: Ledger, surface: Surface, ls: seq<Ledger>, margin: nat)
    requires h.Inv(margin) && !h.blanked && AllNear(h, ls) && Rotates(h.frameSeq, h.buffers)
    requires PlanOf(h.ledger, p, surface) && ls != []
    ensures var n := h.(ledger := p).CarryOut(surface);
            AllNear(n, ls + [n.ledger])
  {
    PlannedIsRecorded(h, p, surface);
    var n := h.(ledger := p).CarryOut(surface);
    assert n.ledger.hashes == p.pending && n.ledger.Valid() && n.Count() == h.Count();
    hide Head.Inv, PlanOf, Near, Ledger.Valid, Head.CarryOut;
    forall k: nat, i: nat | k < n.buffers && i < n.Count()
      ensures Near(n, ls + [n.ledger], k, i)
    {
      PlannedNear(h, p, surface, ls, ls + [n.ledger], margin, k, i);
    }
  }

  lemma CaptureNear(h: Head, f: Frame, ls: seq<Ledger>, margin: nat)
    requires h.Inv(margin) && Possible(h, Capture(f)) && AllNear(h, ls) && ls != []
    ensures var n := Next(h, Capture(f));
            AllNear(n, ls + [n.ledger])
  {
    var ready := h.Wake().ApplyCorrection(f.current);
    PlanDirtyIsPlanOf(ready.ledger, f.surface, f.rects);
    assert ready.Inv(margin) && AllNear(ready, ls);
    hide Head.Inv, AllNear, PlanOf, Ledger.PlanDirty, Head.CarryOut;
    PlanNear(ready, ready.ledger.PlanDirty(f.surface, f.rects), f.surface, ls, margin);
  }

  lemma TickNear(h: Head, s: Step, ls: seq<Ledger>, margin: nat)
    requires h.Inv(margin) && Possible(h, s) && s.Tick? && AllNear(h, ls) && ls != []
    requires SameRecord(ls[|ls| - 1], h.ledger)
    ensures AllNear(Next(h, s), ls)
  {
    var n := Next(h, s);
    RefreshKeepsInv(h, s.current, s.standbyDue, s.keepaliveDue, margin);
    if Lit(n) && n != h {
      var ready := h.Wake().ApplyCorrection(s.current);
      assert n == ready.Repay(s.keepaliveDue);
      forall k: nat, i: nat | k < n.buffers && i < n.Count()
        ensures Near(n, ls, k, i)
      {
        RepayNear(ready, s.keepaliveDue, ls, margin, k, i);
      }
    }
  }

  lemma RepayNear(h: Head, keepaliveDue: bool, ls: seq<Ledger>, margin: nat, k: nat, i: nat)
    requires h.Inv(margin) && !h.blanked && !h.recode && h.BodiesMatch() && AllNear(h, ls)
    requires Rotates(h.frameSeq, h.buffers) && k < h.buffers && i < h.Count()
    requires ls != [] && SameRecord(ls[|ls| - 1], h.ledger) && Lit(h.Repay(keepaliveDue))
    ensures h.Repay(keepaliveDue).Shaped() && Near(h.Repay(keepaliveDue), ls, k, i)
  {
    var due := if keepaliveDue then h.OweKeyframe() else h;
    if due.NothingOwed() {
      assert Near(h, ls, k, i);
    } else if due.ledger.keyframeOwed {
      KeyframeNear(due, ls, k, i);
    } else {
      assert Near(h, ls, k, i);
      SendKeepsNear(due, ls, ls, k, i);
    }
  }

  lemma FirstNear(h: Head, margin: nat)
    requires h.Inv(margin)
    ensures AllNear(h, [h.ledger])
  {
    forall k: nat, i: nat | Lit(h) && k < h.buffers && i < h.Count()
      ensures Near(h, [h.ledger], k, i)
    {
      if h.slots[k][i] == h.Cached(i) {
        assert Behind(h, [h.ledger], 0, k, i);
      } else {
        WindowGrows(h.frameSeq, h.buffers, h.ledger.debt[i] - margin, REPEATS, k);
      }
    }
  }

  lemma {:induction false} AlongNear(hs: seq<Head>, steps: seq<Step>, margin: nat, n: nat)
    requires History(hs, steps, margin) && n <= |steps|
    ensures AllNear(hs[n], Ledgers(hs, steps, n))
    decreases n
  {
    if n == 0 {
      FirstNear(hs[0], margin);
    } else {
      AlongNear(hs, steps, margin, n - 1);
      Along(hs, steps, margin, n - 1);
      var h, s := hs[n - 1], steps[n - 1];
      assert Possible(h, s) && hs[n] == Next(h, s);
      hide AllNear, Follows, Possible, Next, History, Head.Inv;
      StepNear(hs[0], h, s, Ledgers(hs, steps, n - 1), Scans(hs, steps, n - 1), margin);
    }
  }

  lemma StepNear(first: Head, h: Head, s: Step, ls: seq<Ledger>, scans: seq<Scan>, margin: nat)
    requires Follows(first, h, ls, scans, margin) && Possible(h, s) && AllNear(h, ls)
    ensures AllNear(Next(h, s), ls + if s.Capture? then [Next(h, s).ledger] else [])
  {
    assert h.Inv(margin) && ls != [] && SameRecord(ls[|ls| - 1], h.ledger);
    hide AllNear, Follows, Possible, Next, Head.Inv;
    if s.Tick? {
      TickNear(h, s, ls, margin);
      assert ls + [] == ls;
    } else {
      CaptureNear(h, s.f, ls, margin);
    }
  }

  /** A part of a run from its start is a run. */
  lemma RunUpTo(ls: seq<Ledger>, scans: seq<Scan>, m: nat)
    requires Run(ls, scans) && m <= |scans|
    ensures Run(ls[..m + 1], scans[..m])
  {
    forall j | 0 <= j < m
      ensures PlanTaken(ls[..m + 1][j], ls[..m + 1][j + 1], scans[..m][j])
    {
      assert PlanTaken(ls[j], ls[j + 1], scans[j]);
    }
  }

  lemma NearIsBehind(h: Head, ls: seq<Ledger>, k: nat, i: nat) returns (a: nat)
    requires AllNear(h, ls) && Lit(h) && |ls| > REPEATS && k < h.buffers && i < h.Count()
    ensures a < REPEATS && i < |ls[|ls| - 1 - a].hashes|
    ensures h.slots[k][i] == Image(ls[|ls| - 1 - a].hashes[i], h.applied)
  {
    assert Near(h, ls, k, i);
    a := if Behind(h, ls, 0, k, i) then 0 else if Behind(h, ls, 1, k, i) then 1 else 2;
  }

  lemma RecordUpTo(ls: seq<Ledger>, scans: seq<Scan>, m: nat, i: nat) returns (j: nat)
    requires Run(ls, scans) && 8 <= m <= |scans| && i < ls[0].grid.Count()
    ensures m - 8 <= j < m && ls[m].Valid() && ls[m].grid == ls[0].grid && ls[0].grid.Shows(scans[j].surface)
    ensures ls[m].hashes[i] == ls[0].grid.Fingerprint(scans[j].surface, i)
  {
    RunUpTo(ls, scans, m);
    hide Run;
    j := RecordAmongLastEight(ls[..m + 1], scans[..m], i);
  }

  lemma NearRecord(first: Head, h: Head, ls: seq<Ledger>, scans: seq<Scan>, margin: nat, k: nat, i: nat)
    returns (j: nat)
    requires Follows(first, h, ls, scans, margin) && AllNear(h, ls) && Lit(h) && |scans| >= 10
    requires k < first.buffers && i < first.Count()
    ensures h.Shaped() && h.buffers == first.buffers && h.Count() == first.Count()
    ensures |scans| - 10 <= j < |scans| && first.ledger.grid.Shows(scans[j].surface)
    ensures h.slots[k][i] == Image(first.ledger.grid.Fingerprint(scans[j].surface, i), h.applied)
  {
    hide AllNear, Caught, Lit, SameRecord;
    assert h.Shaped() && |ls| == |scans| + 1;
    hide Head.Inv, Run;
    var a := NearIsBehind(h, ls, k, i);
    j := RecordUpTo(ls, scans, |scans| - a, i);
  }

  /** And in the middle of a stream of frames, nothing paid up: while no full repaint is pending, every
      dock buffer holds every strip as it truly was in one of the last ten frames, whatever their
      rectangles claimed. */
  lemma AtMostTenFramesBehind(hs: seq<Head>, steps: seq<Step>, margin: nat, k: nat, i: nat) returns (j: nat)
    requires History(hs, steps, margin) && |Scans(hs, steps, |steps|)| >= 10 && Lit(hs[|steps|])
    requires k < hs[0].buffers && i < hs[0].Count()
    ensures var scans, h := Scans(hs, steps, |steps|), hs[|steps|];
            && h.Shaped() && h.buffers == hs[0].buffers && h.Count() == hs[0].Count()
            && |scans| - 10 <= j < |scans|
            && hs[0].ledger.grid.Shows(scans[j].surface)
            && h.slots[k][i] == Image(hs[0].ledger.grid.Fingerprint(scans[j].surface, i), h.applied)
  {
    var n := |steps|;
    Along(hs, steps, margin, n);
    AlongNear(hs, steps, margin, n);
    hide AllNear, History, Lit;
    j := NearRecord(hs[0], hs[n], Ledgers(hs, steps, n), Scans(hs, steps, n), margin, k, i);
  }

  /** No full repaint is pending right behind a frame. */
  lemma FrameLights(hs: seq<Head>, steps: seq<Step>, margin: nat)
    requires History(hs, steps, margin) && steps != [] && steps[|steps| - 1].Capture? && hs[0].Count() > 0
    ensures Lit(hs[|steps|])
  {
    var n := |steps| - 1;
    Along(hs, steps, margin, n);
    var h, f := hs[n], steps[n].f;
    assert Possible(h, steps[n]) && hs[n + 1] == Next(h, steps[n]);
    PresentSettles(h, f.surface, f.rects, f.current, margin);
  }

  // --- paying up ---

  /** Three ticks with nothing else going on. */
  function ThreeTicks(h: Head): (r: Head)
    requires h.Shaped()
  {
    Paid(Paid(Paid(h)))
  }

  function Paid(h: Head): (r: Head)
    requires h.Shaped()
    ensures r.Shaped()
  {
    h.Refresh(h.applied, false, false)
  }

  lemma QuietStays(h: Head, margin: nat)
    requires h.Inv(margin) && h.Quiet()
    ensures Paid(h) == h
  {
  }

  /** The first wakes a blanked head with a keyframe. */
  lemma PaidFromBlank(h: Head, margin: nat)
    requires h.Inv(margin) && h.blanked && h.Count() > 0 && Rotates(h.frameSeq, h.buffers)
    ensures Paid(h).Inv(margin) && Paid(h).Quiet() && Paid(h).applied == h.applied
  {
    RefreshKeepsInv(h, h.applied, false, false, margin);
    assert h.bodies[0].Some?;
    var woken := h.Wake();
    assert woken.ledger.Owes(0);
    assert forall i :: 0 <= i < h.Count() ==> !Paid(h).ledger.Owes(i);
  }

  /** Whatever is owed is paid, and the record is what the buffers then hold. */
  lemma ThreeTicksShow(h: Head, margin: nat)
    requires h.Inv(margin) && Caught(h) && !h.recode && h.Count() > 0 && Rotates(h.frameSeq, h.buffers)
    requires h.buffers == 2 || h.frameSeq + 2 * REPEATS <= UINT32
    ensures ThreeTicks(h).Inv(margin) && ThreeTicks(h).Quiet()
    ensures ThreeTicks(h).ledger.hashes == h.ledger.hashes && ThreeTicks(h).ledger.grid == h.ledger.grid
    ensures ThreeTicks(h).applied == h.applied && ThreeTicks(h).buffers == h.buffers
  {
    PaidKeeps(h, margin);
    if h.blanked {
      PaidFromBlank(h, margin);
      QuietStays(Paid(h), margin);
    } else {
      RefreshAdvances(h, margin);
      PaysAll(h, margin);
      PaidKeeps(Paid(h), margin);
      RefreshAdvances(Paid(h), margin);
      PaysAll(Paid(h), margin);
      PaidKeeps(Paid(Paid(h)), margin);
      PaysAll(Paid(Paid(h)), margin);
      ThreeTicksMakeQuiet(h, margin);
    }
  }

  lemma PaidKeeps(h: Head, margin: nat)
    requires h.Inv(margin) && Rotates(h.frameSeq, h.buffers)
    ensures Paid(h).Inv(margin) && Paid(h).ledger.hashes == h.ledger.hashes
    ensures Paid(h).ledger.grid == h.ledger.grid && Paid(h).buffers == h.buffers
  {
    RefreshKeepsInv(h, h.applied, false, false, margin);
    RefreshKeepsRecord(h, h.applied, false, false, margin);
  }

  /** Bounded staleness, to the dock: after any steps among which eight frames or more, with rectangles
      that may claim anything, and with no change of settings waiting, three ticks later every dock
      buffer holds every strip as it truly was in one of the last eight frames. */
  lemma AtMostEightFramesBehind(hs: seq<Head>, steps: seq<Step>, margin: nat, k: nat, i: nat) returns (j: nat)
    requires History(hs, steps, margin) && |Scans(hs, steps, |steps|)| >= 8
    requires var h := hs[|steps|];
             && !h.recode && Rotates(h.frameSeq, h.buffers)
             && (h.buffers == 2 || h.frameSeq + 2 * REPEATS <= UINT32)
    requires k < hs[0].buffers && i < hs[0].Count()
    ensures var scans, h := Scans(hs, steps, |steps|), hs[|steps|];
            && h.Shaped() && h.buffers == hs[0].buffers && h.Count() == hs[0].Count()
            && |scans| - 8 <= j < |scans|
            && ThreeTicks(h).Shaped()
            && ThreeTicks(h).buffers == hs[0].buffers && ThreeTicks(h).Count() == hs[0].Count()
            && hs[0].ledger.grid.Shows(scans[j].surface)
            && ThreeTicks(h).slots[k][i] == Image(hs[0].ledger.grid.Fingerprint(scans[j].surface, i), h.applied)
  {
    var n := |steps|;
    Along(hs, steps, margin, n);
    j := RecordAmongLastEight(Ledgers(hs, steps, n), Scans(hs, steps, n), i);
    ThreeTicksShow(hs[n], margin);
    QuietHeadIsShown(ThreeTicks(hs[n]), margin, k, i);
  }

  /** So a surface held for eight frames is on every dock buffer, however wrong the rectangles. */
  lemma HeldSurfaceIsShown(hs: seq<Head>, steps: seq<Step>, margin: nat, surface: Surface, k: nat, i: nat)
    requires History(hs, steps, margin) && |Scans(hs, steps, |steps|)| >= 8
    requires var scans := Scans(hs, steps, |steps|);
             forall j :: |scans| - 8 <= j < |scans| ==> scans[j].surface == surface
    requires var h := hs[|steps|];
             && !h.recode && Rotates(h.frameSeq, h.buffers)
             && (h.buffers == 2 || h.frameSeq + 2 * REPEATS <= UINT32)
    requires k < hs[0].buffers && i < hs[0].Count()
    ensures var h := hs[|steps|];
            && h.Shaped() && h.buffers == hs[0].buffers && h.Count() == hs[0].Count()
            && hs[0].ledger.grid.Shows(surface)
            && ThreeTicks(h).Shaped()
            && ThreeTicks(h).buffers == hs[0].buffers && ThreeTicks(h).Count() == hs[0].Count()
            && ThreeTicks(h).slots[k][i] == Image(hs[0].ledger.grid.Fingerprint(surface, i), h.applied)
  {
    var j := AtMostEightFramesBehind(hs, steps, margin, k, i);
  }
}
