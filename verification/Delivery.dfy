/** Capture queue, worker queue, refresh clock and dock together: whatever the interleaving, once
    everything has drained the dock shows the last captured frame. */
module Delivery {
  import opened Common
  import opened Strips
  import opened DamageLedger
  import opened Scanout
  import opened Mailbox

  /** Where the serial worker is in its consume block. */
  datatype Worker =
    | Idle
    | Taken(sample: Sample, rects: seq<Rect>)
    | Presented(sample: Sample)

  /** `shown` is the frame the driver saw last, `newest` the one accepted last, and `since` the
      rectangle lists accepted since the mailbox was last emptied. */
  datatype System = System(
    output: Output,
    worker: Worker,
    head: Head,
    current: Settings,
    shown: Option<Sample>,
    newest: Option<Sample>,
    since: seq<seq<Rect>>)

  /** A step of one of the queues. A failing transfer leaves the head in any state at all. */
  datatype Event =
    | Arrive(sample: Sample, status: int, valid: bool, rects: seq<Rect>)
    | Take
    | Show
    | ShowFails(wreck: Head)
    | Keep
    | Repaint
    | RepaintFails(wreck: Head)
    | Tick(standbyDue: bool, keepaliveDue: bool)
    | TickFails(wreck: Head)
    | Configure(settings: Settings)
    | Disable

  const REFRESH_FAILED := "cached desktop refresh failed"

  /** The clock, which runs between consume blocks, repaints a head whose cache is due for recoding ... */
  predicate Repaints(s: System) {
    s.worker.Idle? && s.output.enabled && s.head.recode && s.output.last.Some?
  }

  /** ... and refreshes any other behind which no frame is waiting. */
  predicate Refreshes(s: System) {
    s.worker.Idle? && s.output.enabled && !s.head.recode && s.output.pending.None?
  }

  function Present(s: System, sample: Sample, rects: seq<Rect>): System
    requires s.head.Shaped() && s.head.ledger.grid.Shows(sample.surface)
  {
    s.(head := s.head.Present(sample.surface, rects, s.current), shown := Some(sample))
  }

  /** The frames in play fit the head's grid. */
  ghost predicate Framed(s: System) {
    && s.head.Shaped()
    && (!s.worker.Idle? ==> s.head.ledger.grid.Shows(s.worker.sample.surface))
    && (s.output.pending.Some? ==> s.head.ledger.grid.Shows(s.output.pending.value.surface))
    && (s.output.last.Some? ==> s.head.ledger.grid.Shows(s.output.last.value.surface))
  }

  function Next(s: System, e: Event): System
    requires Framed(s)
  {
    match e
    case Arrive(sample, status, valid, rects) =>
      if !s.output.Accepts(status, valid) then s
      else s.(output := s.output.Enqueue(sample, status, valid, rects),
              newest := Some(sample),
              since := s.since + [rects])
    case Take =>
      if !s.worker.Idle? || !s.output.scheduled then s
      else s.(output := s.output.Take(), since := [],
              worker := if s.output.pending.Some? then Taken(s.output.pending.value, s.output.TakenRects()) else Idle)
    case Show =>
      if !s.worker.Taken? then s
      else if !s.output.enabled then s.(worker := Idle)
      else Present(s, s.worker.sample, s.worker.rects).(worker := Presented(s.worker.sample))
    case ShowFails(wreck) =>
      if !s.worker.Taken? || !s.output.enabled then s
      else s.(head := wreck, output := s.output.Fail(PRESENT_FAILED), worker := Presented(s.worker.sample))
    case Keep =>
      if !s.worker.Presented? then s
      else s.(output := s.output.Keep(s.worker.sample), worker := Idle)
    case Repaint =>
      if !Repaints(s) then s
      else Present(s, s.output.last.value, [])
    case RepaintFails(wreck) =>
      if !Repaints(s) then s
      else s.(head := wreck, output := s.output.Fail(PRESENT_FAILED))
    case Tick(standbyDue, keepaliveDue) =>
      if !Refreshes(s) then s
      else s.(head := s.head.Refresh(s.current, standbyDue, keepaliveDue))
    case TickFails(wreck) =>
      if !Refreshes(s) then s
      else s.(head := wreck, output := s.output.Fail(REFRESH_FAILED))
    case Configure(settings) => s.(current := settings)
    case Disable => s.(output := s.output.Disable())
  }

  /** What the outside promises of an event: frames of the right size, whose rectangles cover what
      changed since the previous accepted frame, and no sequence-number wrap inside a rotation. */
  ghost predicate Admissible(s: System, e: Event) {
    match e
    case Arrive(sample, status, valid, rects) =>
      status == 0 && valid && s.output.enabled ==>
        && s.head.ledger.grid.Shows(sample.surface)
        && (s.newest.Some? && s.head.ledger.grid.Shows(s.newest.value.surface) && 0 < |rects| <= 64 ==>
              CoverChanges(s.head.ledger.grid, rects, s.newest.value.surface, sample.surface))
    case ShowFails(wreck) => SameShape(s.head, wreck)
    case RepaintFails(wreck) => SameShape(s.head, wreck)
    case TickFails(wreck) => SameShape(s.head, wreck)
    case _ => Rotates(s.head.frameSeq, s.head.buffers)
  }

  ghost predicate SameShape(h: Head, wreck: Head) {
    wreck.Shaped() && wreck.ledger.grid == h.ledger.grid
  }

  /** The frame the mailbox's hint is measured from. */
  function Base(s: System): Option<Sample> {
    if s.worker.Taken? then Some(s.worker.sample) else s.shown
  }

  /** Rectangles reach from one frame to another: nothing to compare with, nothing said, or cover. */
  ghost predicate Reaches(g: Grid, from: Option<Sample>, rects: seq<Rect>, to: Sample) {
    && g.Shows(to.surface)
    && (from.Some? ==> g.Shows(from.value.surface))
    && (from.Some? && rects != [] ==> CoverChanges(g, rects, from.value.surface, to.surface))
  }

  /** The mailbox never forgets a change. */
  ghost predicate MailInv(s: System) {
    var g := s.head.ledger.grid;
    && (s.output.pending.Some? <==> s.since != [])
    && (s.output.pending.Some? ==>
          && s.output.scheduled
          && s.newest == s.output.pending
          && s.output.hint == Saying(s.since)
          && (s.output.hint.Known? ==> s.output.hint.rects != [])
          && Reaches(g, Base(s), s.output.TakenRects(), s.output.pending.value))
    && (s.output.pending.None? ==> s.newest == Base(s))
    && (s.worker.Taken? ==> Reaches(g, s.shown, s.worker.rects, s.worker.sample))
    && (s.worker.Presented? ==> s.shown == Some(s.worker.sample))
    && (s.worker.Idle? ==> s.output.last == s.shown)
    && (s.shown.Some? ==> g.Shows(s.shown.value.surface))
  }

  /** The ledger is true to the frame the driver saw last. */
  ghost predicate RecordInv(s: System, margin: nat)
    requires s.head.Shaped()
  {
    && s.head.Inv(margin)
    && s.head.Count() > 0
    && (s.shown.Some? ==>
          && Caught(s.head)
          && s.head.ledger.grid.Shows(s.shown.value.surface)
          && s.head.ledger.hashes == s.head.ledger.grid.Fingerprints(s.shown.value.surface))
    && (s.shown.None? ==> s.head.ledger.keyframeOwed && !s.head.blanked)
  }

  ghost predicate SysInv(s: System, margin: nat) {
    && Framed(s)
    && (s.output.enabled ==> !s.output.failed && MailInv(s) && RecordInv(s, margin))
  }

  lemma StartInv(head: Head, current: Settings, margin: nat)
    requires Fresh(head) && head.Count() > 0 && margin + head.buffers <= REPEATS
    ensures SysInv(System(CREATED, Idle, head, current, None, None, []), margin)
  {
    FreshInv(head, margin);
  }

  lemma ArriveKeepsInv(s: System, e: Event, margin: nat)
    requires SysInv(s, margin) && e.Arrive? && Admissible(s, e)
    ensures SysInv(Next(s, e), margin)
  {
    if s.output.Accepts(e.status, e.valid) {
      var g := s.head.ledger.grid;
      var said := e.rects;
      var n := Next(s, e);
      EnqueueKeepsHistory(s.output, e.sample, e.rects, s.since);
      assert s.since + [said] != [];
      assert [] + said == said;
      if s.output.pending.Some? && n.output.hint.Known? && Base(s).Some? {
        assert n.output.hint.rects == s.output.hint.rects + said;
        CoverCompose(g, s.output.hint.rects, said,
                     Base(s).value.surface, s.output.pending.value.surface, e.sample.surface);
      }
    }
  }

  lemma PresentKeepsRecord(s: System, sample: Sample, rects: seq<Rect>, margin: nat)
    requires s.head.Shaped() && RecordInv(s, margin) && Rotates(s.head.frameSeq, s.head.buffers)
    requires s.head.ledger.grid.Shows(sample.surface)
    requires s.shown.Some? && rects != [] ==>
               CoverChanges(s.head.ledger.grid, rects, s.shown.value.surface, sample.surface)
    ensures var h := s.head.Present(sample.surface, rects, s.current);
            && h.Shaped() && h.ledger.grid == s.head.ledger.grid && h.Inv(margin)
            && h.ledger.hashes == h.ledger.grid.Fingerprints(sample.surface)
            && Caught(h)
  {
    PresentKeepsInv(s.head, sample.surface, rects, s.current, margin);
    PresentSettles(s.head, sample.surface, rects, s.current, margin);
    if rects == [] {
      NoHintReadsAll(s.head, sample.surface, s.current);
    } else {
      PresentRecords(s.head, if s.shown.Some? then s.shown.value.surface else sample.surface,
                     sample.surface, rects, s.current);
    }
  }

  /** Without rectangles everything is read, whatever was on record. */
  lemma NoHintReadsAll(h: Head, surface: Surface, current: Settings)
    requires h.Shaped() && h.ledger.grid.Shows(surface)
    ensures h.Present(surface, [], current).ledger.hashes == h.ledger.grid.Fingerprints(surface)
  {
    var ready := h.Wake().ApplyCorrection(current);
    assert ready.ledger.PlanDirty(surface, []) == ready.ledger.Plan(surface);
    CarriedOutIsRecorded(ready, surface, []);
  }

  /** Every step of every queue keeps the system's promises. */
  lemma NextKeepsInv(s: System, e: Event, margin: nat)
    requires SysInv(s, margin) && Admissible(s, e)
    ensures SysInv(Next(s, e), margin)
  {
    match e
    case Arrive(_, _, _, _) => ArriveKeepsInv(s, e, margin);
    case Take => TakeKeepsInv(s, margin);
    case Show => ShowKeepsInv(s, margin);
    case Repaint => RepaintKeepsInv(s, margin);
    case Tick(standbyDue, keepaliveDue) => TickKeepsInv(s, standbyDue, keepaliveDue, margin);
    case Keep => KeepKeepsInv(s, margin);
    case _ =>
  }

  lemma ShowKeepsInv(s: System, margin: nat)
    requires SysInv(s, margin) && Admissible(s, Show)
    ensures SysInv(Next(s, Show), margin)
  {
    if s.worker.Taken? && s.output.enabled {
      PresentKeepsRecord(s, s.worker.sample, s.worker.rects, margin);
    }
  }

  lemma RepaintKeepsInv(s: System, margin: nat)
    requires SysInv(s, margin) && Admissible(s, Repaint)
    ensures SysInv(Next(s, Repaint), margin)
  {
    if Repaints(s) {
      PresentKeepsRecord(s, s.output.last.value, [], margin);
    }
  }

  lemma TickKeepsInv(s: System, standbyDue: bool, keepaliveDue: bool, margin: nat)
    requires SysInv(s, margin) && Rotates(s.head.frameSeq, s.head.buffers)
    ensures SysInv(Next(s, Tick(standbyDue, keepaliveDue)), margin)
  {
    if Refreshes(s) {
      RefreshKeepsInv(s.head, s.current, standbyDue, keepaliveDue, margin);
      if s.shown.Some? {
        RefreshKeepsCaught(s.head, s.current, standbyDue, keepaliveDue, margin);
      }
      RefreshKeepsRecord(s.head, s.current, standbyDue, keepaliveDue, margin);
    }
  }

  lemma KeepKeepsInv(s: System, margin: nat)
    requires SysInv(s, margin)
    ensures SysInv(Next(s, Keep), margin)
  {
  }

  lemma TakeKeepsInv(s: System, margin: nat)
    requires SysInv(s, margin)
    ensures SysInv(Next(s, Take), margin)
  {
  }

  ghost predicate AdmissibleRun(s: System, es: seq<Event>, margin: nat)
    requires SysInv(s, margin)
    decreases |es|
  {
    es == [] ||
    (Admissible(s, es[0]) &&
     (NextKeepsInv(s, es[0], margin); AdmissibleRun(Next(s, es[0]), es[1..], margin)))
  }

  function Run(s: System, es: seq<Event>, ghost margin: nat): System
    requires SysInv(s, margin) && AdmissibleRun(s, es, margin)
    decreases |es|
  {
    if es == [] then s
    else
      NextKeepsInv(s, es[0], margin);
      Run(Next(s, es[0]), es[1..], margin)
  }

  lemma {:induction false} RunKeepsInv(s: System, es: seq<Event>, margin: nat)
    requires SysInv(s, margin) && AdmissibleRun(s, es, margin)
    ensures SysInv(Run(s, es, margin), margin)
    decreases |es|
  {
    if es != [] {
      NextKeepsInv(s, es[0], margin);
      RunKeepsInv(Next(s, es[0]), es[1..], margin);
    }
  }

  /** The last frame of a run that was complete and valid and met an enabled output, told from the
      events. */
  function LastCapture(s: System, es: seq<Event>, ghost margin: nat): (r: Option<Sample>)
    requires SysInv(s, margin) && AdmissibleRun(s, es, margin)
    decreases |es|
  {
    if es == [] then None
    else
      NextKeepsInv(s, es[0], margin);
      var later := LastCapture(Next(s, es[0]), es[1..], margin);
      if later.Some? then later
      else if es[0].Arrive? && es[0].status == 0 && es[0].valid && s.output.enabled then Some(es[0].sample)
      else None
  }

  /** That is the newest frame; without one it is what it was. */
  lemma {:induction false} NewestIsLastCapture(s: System, es: seq<Event>, margin: nat)
    requires SysInv(s, margin) && AdmissibleRun(s, es, margin)
    ensures var last := LastCapture(s, es, margin);
            Run(s, es, margin).newest == if last.Some? then last else s.newest
    decreases |es|
  {
    if es != [] {
      NextKeepsInv(s, es[0], margin);
      NewestIsLastCapture(Next(s, es[0]), es[1..], margin);
      assert Next(s, es[0]).newest == if es[0].Arrive? && es[0].status == 0 && es[0].valid && s.output.enabled
        then Some(es[0].sample) else s.newest;
    }
  }

  /** An output ends with being disabled or with a presentation, repaint or refresh that fails, and with
      nothing else; and it never begins again. */
  lemma EnabledIff(s: System, e: Event)
    requires Framed(s) && (s.output.enabled ==> !s.output.failed)
    ensures Next(s, e).output.enabled <==> && s.output.enabled && !e.Disable?
                                           && !(e.ShowFails? && s.worker.Taken?)
                                           && !(e.RepaintFails? && Repaints(s))
                                           && !(e.TickFails? && Refreshes(s))
  {
  }

  /** Nothing waiting, nothing in hand, nothing owed, and no change of settings still to be taken up. */
  ghost predicate Drained(s: System)
    requires s.head.Shaped()
  {
    s.output.enabled && s.worker.Idle? && s.output.pending.None? && s.head.Quiet() && s.head.applied == s.current
  }

  /** One pixel of one dock buffer, through the strip that carries it. */
  ghost predicate PixelShown(h: Head, surface: Surface, k: nat, x: nat, y: nat)
    requires h.Shaped() && h.ledger.grid.Shows(surface)
    requires k < h.buffers && x < h.ledger.grid.width && y < h.ledger.grid.height
  {
    var i := h.ledger.grid.Index(y / STRIP_H, x / STRIP_W);
    && i < h.Count()
    && h.slots[k][i].Image?
    && h.slots[k][i].made == h.applied
    && |h.slots[k][i].image| > y % STRIP_H
    && |h.slots[k][i].image[y % STRIP_H]| > x % STRIP_W
    && h.slots[k][i].image[y % STRIP_H][x % STRIP_W] == surface[y][x]
  }

  /** Every dock buffer shows the frame, pixel for pixel, at those settings. */
  ghost predicate DockShows(h: Head, sample: Sample, settings: Settings) {
    && h.Shaped() && h.applied == settings && h.ledger.grid.Shows(sample.surface)
    && forall k: nat, x: nat, y: nat :: k < h.buffers && x < h.ledger.grid.width && y < h.ledger.grid.height ==>
         PixelShown(h, sample.surface, k, x, y)
  }

  /** End to end: after any admissible run, once all is drained the dock shows the last frame that was
      complete and valid and met an enabled output, at the settings in force. */
  lemma DockShowsLastCapture(s: System, es: seq<Event>, margin: nat)
    requires SysInv(s, margin) && AdmissibleRun(s, es, margin)
    ensures var e, last := Run(s, es, margin), LastCapture(s, es, margin);
            && e.head.Shaped()
            && (Drained(e) && last.Some? ==> DockShows(e.head, last.value, e.current))
            && (Drained(e) && last.None? && s.newest.Some? ==> DockShows(e.head, s.newest.value, e.current))
  {
    RunKeepsInv(s, es, margin);
    NewestIsLastCapture(s, es, margin);
    var e := Run(s, es, margin);
    if Drained(e) && e.newest.Some? {
      DrainedShowsNewest(e, margin);
    }
  }

  lemma DrainedShowsNewest(s: System, margin: nat)
    requires SysInv(s, margin) && Drained(s) && s.newest.Some?
    ensures DockShows(s.head, s.newest.value, s.current)
  {
    forall k: nat, x: nat, y: nat | k < s.head.buffers && x < s.head.ledger.grid.width && y < s.head.ledger.grid.height
      ensures PixelShown(s.head, s.newest.value.surface, k, x, y)
    {
      QuietPixelShown(s.head, s.newest.value.surface, margin, k, x, y);
    }
  }

  lemma QuietPixelShown(h: Head, surface: Surface, margin: nat, k: nat, x: nat, y: nat)
    requires h.Inv(margin) && h.Quiet() && h.ledger.grid.Shows(surface)
    requires h.ledger.hashes == h.ledger.grid.Fingerprints(surface)
    requires k < h.buffers && x < h.ledger.grid.width && y < h.ledger.grid.height
    ensures PixelShown(h, surface, k, x, y)
  {
    var g := h.ledger.grid;
    var i := g.Index(y / STRIP_H, x / STRIP_W);
    StripsTileSurface(g, x, y);
    StripIsCell(g, i, x, y);
    g.IndexRoundTrip(y / STRIP_H, x / STRIP_W);
    QuietHeadIsShown(h, margin, k, i);
    assert h.ledger.hashes[i] == g.Fingerprints(surface)[i] == g.Fingerprint(surface, i);
    var strip := g.StripAt(i);
    assert y == strip.y + y % STRIP_H && x == strip.x + x % STRIP_W;
  }

  /** The driver has been shown the newest frame at the settings in force, and only owes repeats. */
  ghost predicate Repaying(s: System, margin: nat, debt: nat) {
    && SysInv(s, margin)
    && s.output.enabled && s.worker.Idle? && s.output.pending.None?
    && !s.head.blanked && !s.head.recode && !s.head.ledger.keyframeOwed && s.head.applied == s.current
    && (s.head.buffers == 2 || s.head.frameSeq + 3 + debt <= UINT32)
    && forall i :: 0 <= i < s.head.Count() ==> s.head.ledger.debt[i] <= debt
  }

  lemma TickRepays(s: System, margin: nat, debt: nat)
    requires Repaying(s, margin, debt) && debt > 0
    ensures Admissible(s, Tick(false, false))
    ensures Repaying(Next(s, Tick(false, false)), margin, debt - 1)
    ensures Next(s, Tick(false, false)).newest == s.newest && Next(s, Tick(false, false)).current == s.current
  {
    NextKeepsInv(s, Tick(false, false), margin);
    PaysAll(s.head, margin);
    RefreshAdvances(s.head, margin);
  }

  lemma ShowLeavesRepaying(s: System, margin: nat)
    requires SysInv(s, margin) && s.output.enabled && s.worker.Taken? && s.output.pending.None?
    requires s.head.buffers == 2 || s.head.frameSeq + 4 * REPEATS <= UINT32
    ensures Admissible(s, Show) && SysInv(Next(s, Show), margin) && Admissible(Next(s, Show), Keep)
    ensures Repaying(Next(Next(s, Show), Keep), margin, REPEATS)
    ensures Next(Next(s, Show), Keep).newest == s.newest && Next(Next(s, Show), Keep).current == s.current
  {
    NextKeepsInv(s, Show, margin);
    PresentSettles(s.head, s.worker.sample.surface, s.worker.rects, s.current, margin);
    PresentSpends(s.head, s.worker.sample.surface, s.worker.rects, s.current);
    NextKeepsInv(Next(s, Show), Keep, margin);
  }

  lemma RunCons(s: System, e: Event, es: seq<Event>, margin: nat)
    requires SysInv(s, margin) && Admissible(s, e) && SysInv(Next(s, e), margin)
    requires AdmissibleRun(Next(s, e), es, margin)
    ensures AdmissibleRun(s, [e] + es, margin) && Run(s, [e] + es, margin) == Run(Next(s, e), es, margin)
  {
    assert ([e] + es)[1..] == es;
  }

  lemma {:induction false} TicksDrain(s: System, margin: nat, debt: nat)
    requires Repaying(s, margin, debt)
    ensures AdmissibleRun(s, seq(debt, _ => Tick(false, false)), margin)
    ensures var e := Run(s, seq(debt, _ => Tick(false, false)), margin);
            e.head.Shaped() && Drained(e) && e.newest == s.newest && e.current == s.current
    decreases debt
  {
    if debt > 0 {
      TickRepays(s, margin, debt);
      TicksDrain(Next(s, Tick(false, false)), margin, debt - 1);
      RunCons(s, Tick(false, false), seq(debt - 1, _ => Tick(false, false)), margin);
      assert seq(debt, _ => Tick(false, false)) == [Tick(false, false)] + seq(debt - 1, _ => Tick(false, false));
    }
  }

  /** One step in front of a run that drains is a run that drains. */
  lemma DrainsBefore(s: System, e: Event, n: System, es: seq<Event>, margin: nat)
    requires SysInv(s, margin) && Admissible(s, e) && Next(s, e) == n
    requires n.newest == s.newest && n.current == s.current
    requires SysInv(n, margin) && Drains(n, es, margin)
    ensures Drains(s, [e] + es, margin)
  {
    RunCons(s, e, es, margin);
  }

  /** A run that ends drained, with the same frame the newest and the same settings in force. */
  ghost predicate Drains(s: System, es: seq<Event>, margin: nat) {
    && SysInv(s, margin) && AdmissibleRun(s, es, margin)
    && var e := Run(s, es, margin);
       e.head.Shaped() && Drained(e) && e.newest == s.newest && e.current == s.current
  }

  /** The waiting frame taken, shown and kept, three ticks are enough. */
  lemma WaitingDrains(s: System, margin: nat) returns (es: seq<Event>)
    requires SysInv(s, margin) && s.output.enabled && s.worker.Idle? && s.output.pending.Some?
    requires s.head.buffers == 2 || s.head.frameSeq + 4 * REPEATS <= UINT32
    ensures Drains(s, es, margin)
  {
    TakeKeepsInv(s, margin);
    var t := Next(s, Take);
    ShowLeavesRepaying(t, margin);
    var shown := Next(t, Show);
    var kept := Next(shown, Keep);
    TicksDrain(kept, margin, REPEATS);
    var ticks := seq(REPEATS, _ => Tick(false, false));
    DrainsBefore(shown, Keep, kept, ticks, margin);
    DrainsBefore(t, Show, shown, [Keep] + ticks, margin);
    es := [Take] + ([Show] + ([Keep] + ticks));
    DrainsBefore(s, Take, t, [Show] + ([Keep] + ticks), margin);
  }

  /** With none waiting, a head due for recoding is repainted with the frame shown last. */
  lemma RepaintDrains(s: System, margin: nat) returns (es: seq<Event>)
    requires SysInv(s, margin) && s.output.enabled && s.worker.Idle? && s.output.pending.None? && s.shown.Some?
    requires s.head.recode
    requires s.head.buffers == 2 || s.head.frameSeq + 4 * REPEATS <= UINT32
    ensures Drains(s, es, margin)
  {
    var n := Next(s, Repaint);
    RepaintKeepsInv(s, margin);
    PresentSettles(s.head, s.shown.value.surface, [], s.current, margin);
    PresentSpends(s.head, s.shown.value.surface, [], s.current);
    TicksDrain(n, margin, REPEATS);
    var ticks := seq(REPEATS, _ => Tick(false, false));
    es := [Repaint] + ticks;
    DrainsBefore(s, Repaint, n, ticks, margin);
  }

  /** Any other is refreshed: that wakes a blanked one, and finds out about changed settings. */
  lemma TickWakes(s: System, margin: nat)
    requires SysInv(s, margin) && Refreshes(s) && s.shown.Some?
    requires s.head.buffers == 2 || s.head.frameSeq + 5 * REPEATS <= UINT32
    ensures var n := Next(s, Tick(false, false));
            && SysInv(n, margin) && n == s.(head := n.head) && (n.head.recode || Repaying(n, margin, REPEATS))
            && (n.head.buffers == 2 || n.head.frameSeq + 4 * REPEATS <= UINT32)
  {
    TickKeepsInv(s, false, false, margin);
    RefreshWakes(s.head, s.current, margin);
    RefreshSpends(s.head, s.current, margin);
  }

  lemma RefreshDrains(s: System, margin: nat) returns (es: seq<Event>)
    requires SysInv(s, margin) && Refreshes(s) && s.shown.Some?
    requires s.head.buffers == 2 || s.head.frameSeq + 5 * REPEATS <= UINT32
    ensures Drains(s, es, margin)
  {
    TickWakes(s, margin);
    var n := Next(s, Tick(false, false));
    var rest := seq(REPEATS, _ => Tick(false, false));
    if n.head.recode {
      rest := RepaintDrains(n, margin);
    } else {
      TicksDrain(n, margin, REPEATS);
    }
    es := [Tick(false, false)] + rest;
    DrainsBefore(s, Tick(false, false), n, rest, margin);
  }

  lemma IdleDrains(s: System, margin: nat) returns (es: seq<Event>)
    requires SysInv(s, margin) && s.output.enabled && s.worker.Idle? && s.newest.Some?
    requires s.head.buffers == 2 || s.head.frameSeq + 5 * REPEATS <= UINT32
    ensures Drains(s, es, margin)
  {
    if s.output.pending.Some? {
      es := WaitingDrains(s, margin);
    } else if s.head.recode {
      es := RepaintDrains(s, margin);
    } else {
      es := RefreshDrains(s, margin);
    }
  }

  lemma ShowSpends(s: System, margin: nat)
    requires SysInv(s, margin) && s.output.enabled && s.worker.Taken?
    requires s.head.buffers == 2 || s.head.frameSeq + 6 * REPEATS <= UINT32
    ensures var n := Next(s, Show);
            && SysInv(n, margin) && n.worker.Presented? && n.output == s.output
            && n.newest == s.newest && n.current == s.current
            && (n.head.buffers == 2 || n.head.frameSeq + 5 * REPEATS <= UINT32)
  {
    ShowKeepsInv(s, margin);
    PresentSpends(s.head, s.worker.sample.surface, s.worker.rects, s.current);
  }

  /** Every state of an enabled output can drain, once anything was captured: whatever the worker has
      in hand, whatever waits, blanked or not, and with settings changed meanwhile. */
  lemma DrainingTerminates(s: System, margin: nat) returns (es: seq<Event>)
    requires SysInv(s, margin) && s.output.enabled && s.newest.Some?
    requires s.head.buffers == 2 || s.head.frameSeq + 6 * REPEATS <= UINT32
    ensures Drains(s, es, margin)
  {
    if s.worker.Taken? {
      ShowSpends(s, margin);
      var shown := Next(s, Show);
      KeepKeepsInv(shown, margin);
      var kept := Next(shown, Keep);
      var rest := IdleDrains(kept, margin);
      DrainsBefore(shown, Keep, kept, rest, margin);
      es := [Show] + ([Keep] + rest);
      DrainsBefore(s, Show, shown, [Keep] + rest, margin);
    } else if s.worker.Presented? {
      KeepKeepsInv(s, margin);
      var kept := Next(s, Keep);
      var rest := IdleDrains(kept, margin);
      es := [Keep] + rest;
      DrainsBefore(s, Keep, kept, rest, margin);
    } else {
      es := IdleDrains(s, margin);
    }
  }
}
