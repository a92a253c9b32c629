/** What the damage ledger promises, on values: which strips a frame owes the dock, how a
    changed strip is charged, and why reading less of the surface loses nothing. */
module DamageLedger {
  import opened Common
  import opened Strips

  const DOCK_BUFFERS := 2
  const REPEATS := DOCK_BUFFERS + 1
  const SWEEP := 8

  datatype Ledger = Ledger(
    grid: Grid,
    sweep: nat,
    hashes: seq<Fingerprint>,
    pending: seq<Fingerprint>,
    debt: seq<nat>,
    keyframeOwed: bool)
  {
    ghost predicate Valid() {
      && |hashes| == |pending| == |debt| == grid.Count()
      && sweep < UINT32
      && forall i :: 0 <= i < |debt| ==> debt[i] <= REPEATS
    }

    /** The strip has to ride on the next frame. */
    predicate Owes(i: nat)
      requires i < |debt|
    {
      keyframeOwed || debt[i] > 0
    }

    /** Some strip of the same macro tile has new content. */
    predicate TileMoved(i: nat)
      requires |hashes| == |pending| == grid.Count() && i < grid.Count()
    {
      exists j :: 0 <= j < grid.Count() && grid.SameMacroTile(i, j) && pending[j] != hashes[j]
    }

    /** Debts once every macro tile that moved has been charged. */
    function Charged(): (d: seq<nat>)
      requires |hashes| == |pending| == |debt| == grid.Count()
    {
      seq(grid.Count(), i requires 0 <= i < grid.Count() => if TileMoved(i) then REPEATS else debt[i])
    }

    function OwedUpTo(k: nat): (s: seq<Strip>)
      requires k <= |debt| == grid.Count()
    {
      if k == 0 then []
      else if Owes(k - 1) then OwedUpTo(k - 1) + [grid.StripAt(k - 1)]
      else OwedUpTo(k - 1)
    }

    /** The strips of the next frame, in raster order. */
    function OwedStrips(): seq<Strip>
      requires |debt| == grid.Count()
    {
      OwedUpTo(grid.Count())
    }

    function Presentations(): nat {
      if keyframeOwed then REPEATS else 1
    }

    function NextSweep(): nat {
      (sweep + 1) % UINT32
    }

    /** The full pass: fingerprint everything, then charge what moved. */
    function Plan(s: Surface): Ledger
      requires Valid() && grid.Shows(s)
    {
      var l := this.(pending := grid.Fingerprints(s), sweep := NextSweep());
      l.(debt := l.Charged())
    }

    /** A rectangle list says something, and nothing in it leaves the surface. */
    predicate Trusts(rects: seq<Rect>) {
      && !keyframeOwed
      && |rects| > 0
      && forall k :: 0 <= k < |rects| ==> rects[k].Empty() || grid.Fits(rects[k])
    }

    /** The fast pass re-reads this strip: a rectangle touches it, or it is the sweep's turn. */
    predicate Reads(rects: seq<Rect>, i: nat)
      requires i < grid.Count()
    {
      || (exists k :: 0 <= k < |rects| && grid.Touches(rects[k], i))
      || grid.RowOf(i) % SWEEP == sweep % SWEEP
    }

    function FastPending(s: Surface, rects: seq<Rect>): (p: seq<Fingerprint>)
      requires Valid() && grid.Shows(s)
    {
      seq(grid.Count(), i requires 0 <= i < grid.Count() =>
        if Reads(rects, i) then grid.Fingerprint(s, i) else hashes[i])
    }

    function PlanDirty(s: Surface, rects: seq<Rect>): Ledger
      requires Valid() && grid.Shows(s)
    {
      if Trusts(rects) then
        var l := this.(pending := FastPending(s, rects), sweep := NextSweep());
        l.(debt := l.Charged())
      else Plan(s)
    }

    /** One frame reached the dock: a keyframe clears the ledger, a delta pays one repeat. */
    function Presented(): Ledger
      requires Valid()
    {
      this.(
        hashes := pending,
        keyframeOwed := false,
        debt := seq(|debt|, i requires 0 <= i < |debt| =>
          if keyframeOwed || debt[i] == 0 then 0 else debt[i] - 1))
    }

    lemma PlanDirtyValid(s: Surface, rects: seq<Rect>)
      requires Valid() && grid.Shows(s)
      ensures PlanDirty(s, rects).Valid() && Plan(s).Valid()
    {
    }
  }

  /** A fresh ledger: the dock's buffers are undefined, so a keyframe is owed. */
  function Start(grid: Grid): (l: Ledger)
    ensures l.Valid() && l.keyframeOwed && l.grid == grid
  {
    Ledger(grid, 0, seq(grid.Count(), _ => []), seq(grid.Count(), _ => []), seq(grid.Count(), _ => 0), true)
  }

  /** The owed list holds exactly the owing strips, once each and in raster order. */
  lemma {:induction false} OwedListExact(l: Ledger, k: nat)
    requires k <= |l.debt| == l.grid.Count()
    ensures forall i :: 0 <= i < k ==> (l.Owes(i) <==> l.grid.StripAt(i) in l.OwedUpTo(k))
    ensures forall s :: s in l.OwedUpTo(k) ==>
              s.row < l.grid.Rows() && s.col < l.grid.Cols() && l.grid.Index(s.row, s.col) < k
              && s == l.grid.StripAt(l.grid.Index(s.row, s.col))
    ensures forall a, b :: 0 <= a < b < |l.OwedUpTo(k)| ==>
              l.grid.Index(l.OwedUpTo(k)[a].row, l.OwedUpTo(k)[a].col)
              < l.grid.Index(l.OwedUpTo(k)[b].row, l.OwedUpTo(k)[b].col)
  {
    if k > 0 {
      OwedListExact(l, k - 1);
      l.grid.IndexBounds(k - 1);
      forall i | 0 <= i < k - 1
        ensures l.grid.StripAt(i) != l.grid.StripAt(k - 1)
      {
        l.grid.IndexBounds(i);
      }
    }
  }

  /** What a plan reads, in pixels: everything while a keyframe is owed, without rectangles, or with one
      that leaves the surface; else the strips that share a pixel with a rectangle, and one row in eight. */
  ghost predicate ReadByPlan(l: Ledger, rects: seq<Rect>, i: nat)
    requires i < l.grid.Count()
  {
    || l.keyframeOwed
    || rects == []
    || (exists k :: 0 <= k < |rects| && Leaves(l.grid, rects[k]))
    || (exists k :: 0 <= k < |rects| && Meets(l.grid, rects[k], i))
    || l.grid.StripAt(i).y / 16 % 8 == l.sweep % 8
  }

  ghost predicate Leaves(g: Grid, r: Rect) {
    r.w > 0 && r.h > 0 && (r.x + r.w > g.width || r.y + r.h > g.height)
  }

  ghost predicate Meets(g: Grid, r: Rect, i: nat)
    requires i < g.Count()
  {
    exists x: nat, y: nat :: r.Contains(x, y) && g.StripAt(i).Contains(x, y)
  }

  /** Strips whose content the plan finds other than recorded. */
  ghost predicate FoundMoved(l: Ledger, s: Surface, rects: seq<Rect>, j: nat)
    requires l.Valid() && l.grid.Shows(s) && j < l.grid.Count()
  {
    ReadByPlan(l, rects, j) && l.grid.Fingerprint(s, j) != l.hashes[j]
  }

  lemma ReadsInPixels(l: Ledger, rects: seq<Rect>, i: nat)
    requires i < l.grid.Count()
    ensures ReadByPlan(l, rects, i) <==> !l.Trusts(rects) || l.Reads(rects, i)
  {
    l.grid.IndexBounds(i);
    assert l.grid.StripAt(i).y / 16 == l.grid.RowOf(i);
    forall k | 0 <= k < |rects|
      ensures Leaves(l.grid, rects[k]) <==> !(rects[k].Empty() || l.grid.Fits(rects[k]))
      ensures l.grid.Fits(rects[k]) ==> (Meets(l.grid, rects[k], i) <==> l.grid.Touches(rects[k], i))
      ensures rects[k].Empty() ==> !Meets(l.grid, rects[k], i) && !l.grid.Touches(rects[k], i)
    {
      if l.grid.Fits(rects[k]) {
        TouchesWhatItOverlaps(l.grid, rects[k], i);
      }
    }
    hide Leaves, Meets, Rect.Empty, Grid.Fits, Grid.Touches;
  }

  /** A plan puts on record what it reads and carries the rest over, and owes what was owed already and
      three repeats of each strip that shares 256 by 64 pixels with one found moved. */
  lemma PlanDirtyOwesExactly(l: Ledger, s: Surface, rects: seq<Rect>, i: nat)
    requires l.Valid() && l.grid.Shows(s) && i < l.grid.Count()
    ensures var p := l.PlanDirty(s, rects);
            && p == l.(pending := p.pending, debt := p.debt, sweep := (l.sweep + 1) % 0x1_0000_0000)
            && p.pending[i] == (if ReadByPlan(l, rects, i) then l.grid.Fingerprint(s, i) else l.hashes[i])
            && p.debt[i] == (if exists j: nat :: j < l.grid.Count() && FoundMoved(l, s, rects, j)
                                  && l.grid.StripAt(j).x / 256 == l.grid.StripAt(i).x / 256
                                  && l.grid.StripAt(j).y / 64 == l.grid.StripAt(i).y / 64
                             then 3 else l.debt[i])
            && (p.Owes(i) <==> p.keyframeOwed || p.debt[i] > 0)
  {
    var p := l.PlanDirty(s, rects);
    forall j: nat | j < l.grid.Count()
      ensures p.pending[j] == if ReadByPlan(l, rects, j) then l.grid.Fingerprint(s, j) else l.hashes[j]
      ensures p.pending[j] != l.hashes[j] <==> FoundMoved(l, s, rects, j)
      ensures l.grid.SameMacroTile(i, j) <==>
              && l.grid.StripAt(j).x / 256 == l.grid.StripAt(i).x / 256
              && l.grid.StripAt(j).y / 64 == l.grid.StripAt(i).y / 64
    {
      ReadsInPixels(l, rects, j);
      MacroTileIsSquare(l.grid, i, j);
    }
    PlannedDebt(l, s, rects, i);
    hide ReadByPlan, FoundMoved, Ledger.PlanDirty, Grid.SameMacroTile;
  }

  lemma PlannedDebt(l: Ledger, s: Surface, rects: seq<Rect>, i: nat)
    requires l.Valid() && l.grid.Shows(s) && i < l.grid.Count()
    ensures var p := l.PlanDirty(s, rects);
            && p == l.(pending := p.pending, debt := p.debt, sweep := l.NextSweep()) && p.Valid()
            && p.debt[i] == (if exists j: nat :: j < l.grid.Count() && l.grid.SameMacroTile(i, j)
                                  && p.pending[j] != l.hashes[j]
                             then REPEATS else l.debt[i])
  {
    var p := l.PlanDirty(s, rects);
    l.PlanDirtyValid(s, rects);
    var q := p.(debt := l.debt);
    assert p.debt[i] == if q.TileMoved(i) then REPEATS else l.debt[i];
  }

  /** So a plan that reads everything owes exactly what was already owed plus the macro tiles that moved. */
  lemma PlanOwesExactly(l: Ledger, s: Surface, i: nat)
    requires l.Valid() && l.grid.Shows(s) && i < l.grid.Count()
    ensures l.Plan(s).Owes(i) <==>
              l.Owes(i) || exists j: nat :: j < l.grid.Count() && l.grid.Fingerprint(s, j) != l.hashes[j]
                             && l.grid.StripAt(j).x / 256 == l.grid.StripAt(i).x / 256
                             && l.grid.StripAt(j).y / 64 == l.grid.StripAt(i).y / 64
  {
    PlanDirtyOwesExactly(l, s, [], i);
    assert l.PlanDirty(s, []) == l.Plan(s);
    hide Ledger.PlanDirty, Ledger.Plan;
  }

  /** Full plans that never reach the dock lose no damage: the recorded fingerprints stand still, so
      whatever the abandoned plan owed is owed again on top of what the next surface moved. Of fast
      plans, which read only part of the surface, `Abandoned` says when it holds. */
  lemma AbandonedFullPlanLosesNothing(l: Ledger, a: Surface, b: Surface, i: nat)
    requires l.Valid() && l.grid.Shows(a) && l.grid.Shows(b) && i < l.grid.Count()
    ensures l.Plan(a).Plan(b).hashes == l.hashes
    ensures l.Plan(a).Plan(b).Owes(i) <==> l.Plan(a).Owes(i) || l.Plan(b).Owes(i)
  {
    PlanOwesExactly(l, b, i);
    PlanOwesExactly(l.Plan(a), b, i);
  }

  /** The fast form refines the full one: rectangles that cover the change since the surface
      the fingerprints were taken from give the same ledger, so the same owed strips too. */
  lemma FastPlanIsFullPlan(l: Ledger, last: Surface, s: Surface, rects: seq<Rect>)
    requires l.Valid() && l.grid.Shows(last) && l.grid.Shows(s)
    requires l.hashes == l.grid.Fingerprints(last)
    requires CoverChanges(l.grid, rects, last, s)
    ensures l.PlanDirty(s, rects) == l.Plan(s)
  {
    if l.Trusts(rects) {
      forall i | 0 <= i < l.grid.Count()
        ensures l.FastPending(s, rects)[i] == l.grid.Fingerprints(s)[i]
      {
        if !l.Reads(rects, i) {
          UntouchedStripUnchanged(l.grid, rects, last, s, i);
          assert l.hashes[i] == l.grid.Fingerprint(last, i);
        }
      }
      assert l.FastPending(s, rects) == l.grid.Fingerprints(s);
    }
  }

  /** Whatever the rectangles claim, a plan on a strip's sweep turn sees its real content. */
  lemma SweepTurnReads(l: Ledger, s: Surface, rects: seq<Rect>, i: nat)
    requires l.Valid() && l.grid.Shows(s) && i < l.grid.Count()
    requires l.grid.StripAt(i).y / 16 % 8 == l.sweep % 8
    ensures l.PlanDirty(s, rects).pending[i] == l.grid.Fingerprint(s, i)
  {
    PlanDirtyOwesExactly(l, s, rects, i);
    hide Ledger.PlanDirty;
  }

  /** A plan records either what it read or what was recorded before. */
  lemma PlanReadsOrCarries(l: Ledger, s: Surface, rects: seq<Rect>, i: nat)
    requires l.Valid() && l.grid.Shows(s) && i < l.grid.Count()
    ensures var p := l.PlanDirty(s, rects);
            && (p.pending[i] == l.grid.Fingerprint(s, i) || p.pending[i] == l.hashes[i])
            && (p.pending[i] != l.hashes[i] ==> p.debt[i] == REPEATS)
  {
    var p := l.PlanDirty(s, rects);
    if p.pending[i] != l.hashes[i] {
      assert p.(debt := l.debt).TileMoved(i) by {
        assert l.grid.SameMacroTile(i, i);
      }
    }
  }

  /** One frame's input to the ledger; a keyframe is read in full. */
  datatype Scan = Scan(surface: Surface, rects: seq<Rect>, keyframe: bool)

  /** A plan made and taken up: its fingerprints are now on record. */
  ghost predicate PlanTaken(l: Ledger, m: Ledger, f: Scan) {
    && l.Valid() && m.Valid() && m.grid == l.grid && l.grid.Shows(f.surface)
    && m.sweep == l.NextSweep()
    && m.hashes == l.(keyframeOwed := f.keyframe).PlanDirty(f.surface, f.rects).pending
  }

  lemma SweepTick(l: Ledger, m: Ledger, f: Scan)
    requires PlanTaken(l, m, f)
    ensures m.grid == l.grid && l.sweep < UINT32 && m.sweep == (l.sweep + 1) % UINT32
  {
  }

  /** The sweep's phase moves on by one, across the 32-bit wrap as well. */
  lemma SweepPhaseAdvances(sweep: nat, n: nat)
    requires sweep < UINT32 && sweep % SWEEP == n % SWEEP
    ensures ((sweep + 1) % UINT32) % SWEEP == (n + 1) % SWEEP
  {
  }

  ghost predicate Run(ls: seq<Ledger>, frames: seq<Scan>) {
    && |ls| == |frames| + 1
    && forall j :: 0 <= j < |frames| ==> PlanTaken(ls[j], ls[j + 1], frames[j])
  }

  /** Plans a strip waits before the sweep reaches its row. */
  function SweepWait(l: Ledger, i: nat): (w: nat)
    requires i < l.grid.Count()
    ensures w < SWEEP && (l.sweep + w) % SWEEP == l.grid.RowOf(i) % SWEEP
  {
    TurnsUntil(l.grid.RowOf(i), l.sweep)
  }

  function TurnsUntil(row: nat, sweep: nat): (w: nat)
    ensures w < SWEEP && (sweep + w) % SWEEP == row % SWEEP
  {
    var turn, now := row % SWEEP, sweep % SWEEP;
    if turn >= now then turn - now else turn + SWEEP - now
  }

  lemma {:induction false} SweepAdvances(ls: seq<Ledger>, frames: seq<Scan>, j: nat)
    requires Run(ls, frames) && j <= |frames| && |frames| > 0
    ensures ls[j].grid == ls[0].grid && ls[j].sweep % SWEEP == (ls[0].sweep + j) % SWEEP
  {
    if j > 0 {
      SweepAdvances(ls, frames, j - 1);
      SweepTick(ls[j - 1], ls[j], frames[j - 1]);
      hide PlanTaken, Run;
      SweepPhaseAdvances(ls[j - 1].sweep, ls[0].sweep + j - 1);
    }
  }

  /** Bounded staleness: whatever the rectangles claim, within eight consecutive frames every
      strip's record has been its true content as of one of them. */
  lemma RecordAtMostEightFramesOld(ls: seq<Ledger>, frames: seq<Scan>, i: nat)
    requires Run(ls, frames) && |frames| >= 8 && i < ls[0].grid.Count()
    ensures exists j :: 0 <= j < 8 && ls[j].grid == ls[0].grid && PlanTaken(ls[j], ls[j + 1], frames[j])
              && ls[j + 1].hashes[i] == ls[0].grid.Fingerprint(frames[j].surface, i)
  {
    var w := SweepWait(ls[0], i);
    SweepAdvances(ls, frames, w);
    assert PlanTaken(ls[w], ls[w + 1], frames[w]);
    var l := ls[w].(keyframeOwed := frames[w].keyframe);
    l.grid.IndexBounds(i);
    assert l.grid.StripAt(i).y / 16 == l.grid.RowOf(i);
    SweepTurnReads(l, frames[w].surface, frames[w].rects, i);
  }

  /** A strip's record is its content in a given frame. */
  ghost predicate RecordFrom(l: Ledger, grid: Grid, frame: Scan, i: nat) {
    && l.Valid() && l.grid == grid && grid.Shows(frame.surface) && i < grid.Count()
    && l.hashes[i] == grid.Fingerprint(frame.surface, i)
  }

  lemma RecordOneOn(l: Ledger, m: Ledger, f: Scan, grid: Grid, before: Scan, i: nat)
    requires PlanTaken(l, m, f) && RecordFrom(l, grid, before, i)
    ensures RecordFrom(m, grid, before, i) || RecordFrom(m, grid, f, i)
  {
    PlanReadsOrCarries(l.(keyframeOwed := f.keyframe), f.surface, f.rects, i);
  }

  /** What it was at one point of a run it stays, until a later frame is read in its place. */
  lemma {:induction false} RecordFollows(ls: seq<Ledger>, frames: seq<Scan>, grid: Grid, i: nat, w: nat, n: nat)
    returns (j: nat)
    requires Run(ls, frames) && w < n <= |frames| && RecordFrom(ls[w + 1], grid, frames[w], i)
    ensures w <= j < n && RecordFrom(ls[n], grid, frames[j], i)
    decreases n
  {
    hide RecordFrom, PlanTaken;
    j := w;
    if n > w + 1 {
      j := RecordFollows(ls, frames, grid, i, w, n - 1);
      RecordOneOn(ls[n - 1], ls[n], frames[n - 1], grid, frames[j], i);
      if !RecordFrom(ls[n], grid, frames[j], i) {
        j := n - 1;
      }
    }
  }

  /** So at the end of any run of eight frames or more, every strip's record is its true content as of
      one of the last eight. */
  lemma RecordAmongLastEight(ls: seq<Ledger>, frames: seq<Scan>, i: nat) returns (j: nat)
    requires Run(ls, frames) && |frames| >= 8 && i < ls[0].grid.Count()
    ensures |frames| - 8 <= j < |frames|
    ensures ls[|frames|].Valid() && ls[|frames|].grid == ls[0].grid && ls[0].grid.Shows(frames[j].surface)
    ensures ls[|frames|].hashes[i] == ls[0].grid.Fingerprint(frames[j].surface, i)
  {
    var n := |frames| - SWEEP;
    SweepAdvances(ls, frames, n);
    var late, rest := ls[n..], frames[n..];
    assert Run(late, rest) by {
      assert forall k :: n <= k < |frames| ==> PlanTaken(ls[k], ls[k + 1], frames[k]);
    }
    RecordAtMostEightFramesOld(late, rest, i);
    var w :| 0 <= w < SWEEP && late[w].grid == late[0].grid && PlanTaken(late[w], late[w + 1], rest[w])
             && late[w + 1].hashes[i] == late[0].grid.Fingerprint(rest[w].surface, i);
    assert late[w + 1] == ls[n + w + 1] && rest[w] == frames[n + w] && late[w] == ls[n + w];
    assert RecordFrom(ls[n + w + 1], ls[0].grid, frames[n + w], i);
    hide PlanTaken, Run;
    j := RecordFollows(ls, frames, ls[0].grid, i, n + w, |frames|);
  }

  /** A surface held still for eight frames is on record in full, however wrong the rectangles. */
  lemma SweepRepairs(ls: seq<Ledger>, frames: seq<Scan>, s: Surface, i: nat)
    requires Run(ls, frames) && |frames| >= 8 && i < ls[0].grid.Count() && ls[0].grid.Shows(s)
    requires forall j :: |frames| - 8 <= j < |frames| ==> frames[j].surface == s
    ensures ls[|frames|].Valid() && ls[|frames|].grid == ls[0].grid
    ensures ls[|frames|].hashes[i] == ls[0].grid.Fingerprint(s, i)
  {
    var j := RecordAmongLastEight(ls, frames, i);
  }
}
