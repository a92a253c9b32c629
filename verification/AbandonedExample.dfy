/** A failed frame whose change the next one does not reread, on a head of three strips. */
module AbandonedExample {
  import opened Common
  import opened Strips
  import opened DamageLedger
  import opened Scanout
  import opened Abandoned

  /** Three strips, one above the other, one pixel wide. */
  const TINY := Grid(1, 33)

  function Screen(top: Pixel, bottom: Pixel): (s: Surface)
    ensures TINY.Shows(s)
  {
    seq(33, y => [if y == 0 then top else if y == 32 then bottom else 0])
  }

  lemma TinyGrid()
    ensures TINY.Count() == 3
    ensures forall i: nat :: i < TINY.Count() ==> TINY.RowOf(i) == i && TINY.ColOf(i) == 0
  {
    assert TINY.Cols() == 1 && TINY.Rows() == 3;
  }

  /** The lowest strip is the bottom row. */
  lemma LowestSees(a: Pixel, b: Pixel, c: Pixel, d: Pixel)
    ensures TINY.Count() == 3
    ensures TINY.Fingerprint(Screen(a, b), 2) == TINY.Fingerprint(Screen(c, d), 2) <==> b == d
  {
    TinyGrid();
    FingerprintSeesCell(TINY, Screen(a, b), Screen(c, d), 2);
    StripIsCell(TINY, 2, 0, 32);
    assert Screen(a, b)[32][0] == b && Screen(c, d)[32][0] == d;
    forall x: nat, y: nat | x < 1 && y < 33 && TINY.StripAt(2).Contains(x, y)
      ensures x == 0 && y == 32
    {
    }
  }

  /** A head that owes nothing and shows a surface in both buffers. */
  function Showing(s: Surface): (h: Head)
    requires TINY.Shows(s)
    ensures h.Shaped() && h.ledger.grid == TINY
  {
    var prints := TINY.Fingerprints(s);
    var slot := seq(TINY.Count(), i requires 0 <= i < |prints| => Image(prints[i], 0));
    Head(Ledger(TINY, 0, prints, prints, seq(TINY.Count(), _ => 0), false),
         seq(TINY.Count(), i requires 0 <= i < |prints| => Some(Body(prints[i], prints[i], 0))),
         2, 0, [slot, slot], 0, false, false)
  }

  lemma ShowingInv(s: Surface)
    requires TINY.Shows(s)
    ensures Showing(s).Inv(1) && Showing(s).Quiet()
  {
  }

  const LOW := [Rect(0, 32, 1, 1)]
  const HIGH := [Rect(0, 0, 1, 1)]

  /** Rectangles of one pixel: the lower reads the lowest strip, and the upper does not. */
  lemma RectsRead(l: Ledger)
    requires l.grid == TINY && !l.keyframeOwed && TINY.Count() == 3
    ensures l.Trusts(LOW) && l.Reads(LOW, 2)
    ensures l.Trusts(HIGH) && (l.sweep == 1 ==> !l.Reads(HIGH, 2))
  {
    TinyGrid();
    assert TINY.Touches(LOW[0], 2);
  }

  lemma FailedLowest(h: Head)
    requires h == Showing(Screen(0, 0)) && h.Inv(1) && h.Quiet()
    ensures TINY.Count() == 3
    ensures var f := Failed(h, Screen(0, 1), LOW, 0, InTransfer(0));
            && CanFail(h, Screen(0, 1), LOW, 0, InTransfer(0))
            && f.ledger.grid == TINY && f.ledger.sweep == 1 && !f.ledger.keyframeOwed
            && f.ledger.hashes[2] == TINY.Fingerprint(Screen(0, 0), 2)
            && f.applied == 0 && f.buffers == 2 && f.frameSeq == 1 && Ahead(f, 2)
  {
    TinyGrid();
    LowestSees(0, 1, 0, 0);
    RectsRead(h.ledger);
    PlannedLowest(h.ledger);
    FailedChange(h, Screen(0, 1), LOW, 1, 2);
    hide Failed, CanFail, Ahead, Head.Inv, Screen, Ledger.Valid, Ledger.PlanDirty;
  }

  lemma PlannedLowest(l: Ledger)
    requires l.Valid() && l.grid == TINY && TINY.Count() == 3 && l.Trusts(LOW) && l.Reads(LOW, 2)
    ensures var p := l.PlanDirty(Screen(0, 1), LOW);
            p.Valid() && p.grid == TINY && p.sweep == l.NextSweep() && p.pending[2] == TINY.Fingerprint(Screen(0, 1), 2)
  {
    l.PlanDirtyValid(Screen(0, 1), LOW);
  }

  lemma HighCovers()
    ensures CoverChanges(TINY, HIGH, Screen(0, 1), Screen(1, 1))
  {
    forall x: nat, y: nat | x < TINY.width && y < TINY.height && Screen(0, 1)[y][x] != Screen(1, 1)[y][x]
      ensures HIGH[0].Contains(x, y)
    {
    }
  }

  /** The lowest strip changes, and the frame fails; ... */
  function AfterFailure(): (f: Head)
    ensures f.Shaped() && f.ledger.grid == TINY
  {
    Failed(Showing(Screen(0, 0)), Screen(0, 1), LOW, 0, InTransfer(0))
  }

  /** ... then the highest one does, that frame arrives, and the clock ticks twice. */
  function AfterNext(): (n: Head)
    ensures n.Shaped() && n.ledger.grid == TINY
  {
    TwoTicks(AfterFailure().Present(Screen(1, 1), HIGH, 0))
  }

  /** Before it all is well, and the rectangles of the second frame cover all that changed since the one
      that failed. Still the lowest strip is stuck: it owes nothing, and put back as it was it goes on
      showing what it showed in between. */
  lemma ChangeLost()
    ensures var h := Showing(Screen(0, 0));
            h.Inv(1) && h.Quiet() && CanFail(h, Screen(0, 1), LOW, 0, InTransfer(0))
    ensures CoverChanges(TINY, HIGH, Screen(0, 1), Screen(1, 1))
    ensures TINY.Count() == 3
    ensures Stuck(AfterNext(), 2, TINY.Fingerprint(Screen(0, 1), 2)) && AfterNext().ledger.debt[2] == 0
    ensures AfterNext().ledger.hashes[2] == TINY.Fingerprint(Screen(1, 0), 2)
  {
    var h := Showing(Screen(0, 0));
    ShowingInv(Screen(0, 0));
    FailedLowest(h);
    HighCovers();
    TwoBuffersSurviveFailedRepay(h);
    FailedIsAdrift(h, Screen(0, 1), LOW, 0, InTransfer(0), 1, 0);
    LowestSees(1, 1, 0, 1);
    LowestSees(1, 1, 0, 0);
    LowestSees(1, 0, 0, 0);
    var f := Failed(h, Screen(0, 1), LOW, 0, InTransfer(0));
    RectsRead(f.ledger);
    hide Failed, Screen, Showing, Adrift, Stuck, Head.Inv, Head.Quiet, CanFail, Ledger.Trusts, Ledger.Reads, Ahead,
         TwoTicks;
    UnrereadGetsStuck(f, Screen(1, 1), HIGH, 0, 2);
  }
}
