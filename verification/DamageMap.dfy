/** The damage ledger as the driver keeps it: fixed-size tables updated in place by nested row
    and column loops, each operation proved against DamageLedger. */
module DamageMap {
  import opened Common
  import opened Strips
  import opened DamageLedger

  class OizysDamageMap {
    const grid: Grid
    const cols: nat
    const rows: nat
    var sweep: nat
    const hashes: array<Fingerprint>
    const pending: array<Fingerprint>
    const debt: array<nat>
    var keyframeOwed: bool

    ghost predicate Valid()
      reads this, hashes, pending, debt
    {
      && cols == grid.Cols() && rows == grid.Rows()
      && grid.Count() <= MAX_STRIPS
      && hashes.Length == pending.Length == debt.Length == MAX_STRIPS
      && hashes != pending
      && Model().Valid()
    }

    /** The ledger these tables hold. */
    ghost function Model(): Ledger
      requires grid.Count() <= MAX_STRIPS
      requires hashes.Length == pending.Length == debt.Length == MAX_STRIPS
      reads this, hashes, pending, debt
    {
      var n := grid.Count();
      Ledger(grid, sweep, hashes[..n], pending[..n], debt[..n], keyframeOwed)
    }

    constructor (width: nat, height: nat)
      requires Grid(width, height).Count() <= MAX_STRIPS
      ensures Valid() && Model() == Start(Grid(width, height))
      ensures fresh(hashes) && fresh(pending) && fresh(debt)
    {
      grid := Grid(width, height);
      cols := (width + STRIP_W - 1) / STRIP_W;
      rows := (height + STRIP_H - 1) / STRIP_H;
      sweep := 0;
      hashes := new Fingerprint[MAX_STRIPS](_ => []);
      pending := new Fingerprint[MAX_STRIPS](_ => []);
      debt := new nat[MAX_STRIPS](_ => 0);
      keyframeOwed := true;
      new;
      assert Model() == Start(Grid(width, height));
    }

    method ChargeMacroTile(col: nat, row: nat)
      requires Valid() && col < cols && row < rows
      modifies debt
      ensures Valid()
      ensures Model() == old(Model()).(debt := Model().debt)
      ensures forall i :: 0 <= i < grid.Count() ==>
                debt[i] == if grid.StripAt(i).y / 64 == row / 4 && grid.StripAt(i).x / 256 == col / 4
                           then 3 else old(debt[i])
    {
      AllBounds();
      AllTiles();
      AllWithin(col, row);
      hide Grid.StripAt, Grid.RowOf, Grid.ColOf;
      var firstCol := col - col % MACRO_STRIPS;
      var firstRow := row - row % MACRO_STRIPS;
      var r := firstRow;
      while r < firstRow + MACRO_STRIPS && r < rows
        invariant firstRow <= r <= firstRow + MACRO_STRIPS && Valid()
        invariant forall i :: 0 <= i < grid.Count() ==>
                    debt[i] == if firstRow <= grid.RowOf(i) < r && grid.ColOf(i) / MACRO_STRIPS == col / MACRO_STRIPS
                               then REPEATS else old(debt[i])
      {
        ChargeTileRow(r, firstCol);
        r := r + 1;
      }
    }

    /** One row of it. */
    method ChargeTileRow(r: nat, firstCol: nat)
      requires Valid() && r < rows
      modifies debt
      ensures Valid()
      ensures forall i :: 0 <= i < grid.Count() ==>
                debt[i] == if grid.RowOf(i) == r && firstCol <= grid.ColOf(i) < firstCol + MACRO_STRIPS
                           then REPEATS else old(debt[i])
    {
      var c := firstCol;
      while c < firstCol + MACRO_STRIPS && c < cols
        invariant firstCol <= c <= firstCol + MACRO_STRIPS
        invariant forall i :: 0 <= i < grid.Count() ==>
                    debt[i] == if grid.RowOf(i) == r && firstCol <= grid.ColOf(i) < c then REPEATS else old(debt[i])
      {
        grid.IndexRoundTrip(r, c);
        OnlyIndex(r, c);
        debt[r * cols + c] := REPEATS;
        c := c + 1;
      }
      AllBounds();
    }

    lemma AllWithin(col: nat, row: nat)
      ensures forall i: nat :: i < grid.Count() ==>
                (col - col % MACRO_STRIPS <= grid.ColOf(i) < col - col % MACRO_STRIPS + MACRO_STRIPS
                 <==> grid.ColOf(i) / MACRO_STRIPS == col / MACRO_STRIPS)
      ensures forall i: nat :: i < grid.Count() ==>
                (row - row % MACRO_STRIPS <= grid.RowOf(i) < row - row % MACRO_STRIPS + MACRO_STRIPS
                 <==> grid.RowOf(i) / MACRO_STRIPS == row / MACRO_STRIPS)
    {
      hide Grid.RowOf, Grid.ColOf;
    }

    lemma AllTiles()
      ensures forall i: nat :: i < grid.Count() ==>
                && grid.RowOf(i) / MACRO_STRIPS == grid.StripAt(i).y / 64
                && grid.ColOf(i) / MACRO_STRIPS == grid.StripAt(i).x / 256
    {
      forall i: nat | i < grid.Count()
        ensures grid.RowOf(i) / MACRO_STRIPS == grid.StripAt(i).y / 64
        ensures grid.ColOf(i) / MACRO_STRIPS == grid.StripAt(i).x / 256
      {
        TileOfStrip(grid, i);
      }
    }

    lemma OnlyIndex(r: nat, c: nat)
      requires cols == grid.Cols() && rows == grid.Rows() && r < rows && c < cols
      ensures forall i: nat :: i < grid.Count() && grid.RowOf(i) == r && grid.ColOf(i) == c ==> i == r * cols + c
    {
      AllBounds();
    }

    lemma AllBounds()
      ensures forall i: nat :: i < grid.Count() ==>
                && grid.RowOf(i) < grid.Rows() && grid.ColOf(i) < grid.Cols()
                && i == grid.RowOf(i) * grid.Cols() + grid.ColOf(i)
    {
      forall i: nat | i < grid.Count()
        ensures && grid.RowOf(i) < grid.Rows() && grid.ColOf(i) < grid.Cols()
                && i == grid.RowOf(i) * grid.Cols() + grid.ColOf(i)
      {
        grid.IndexBounds(i);
      }
    }

    lemma StripThere(row: nat, col: nat)
      requires cols == grid.Cols() && rows == grid.Rows() && row < rows && col < cols
      ensures row * cols + col < grid.Count() && grid.StripAt(row * cols + col) == grid.Geom(col, row)
    {
      grid.IndexRoundTrip(row, col);
    }

    lemma RowFits(row: nat)
      requires cols == grid.Cols() && rows == grid.Rows() && row < rows
      ensures (row + 1) * cols == row * cols + cols <= grid.Count()
    {
      MulMono(row + 1, rows, cols);
    }

    lemma AllRows()
      requires cols == grid.Cols() && rows == grid.Rows()
      ensures rows * cols == grid.Count()
    {
    }

    /** Reports the owed strips; the count may exceed the room given for them. */
    method Owed(out: array<Strip>) returns (n: nat)
      requires Valid()
      modifies out
      ensures Valid() && Model() == old(Model())
      ensures n == |Model().OwedStrips()|
      ensures forall k :: 0 <= k < out.Length ==>
                out[k] == if k < n then Model().OwedStrips()[k] else old(out[k])
    {
      hide Grid.StripAt, Grid.Geom, Grid.Count;
      n := 0;
      ghost var l := Model();
      var row := 0;
      while row < rows
        invariant row <= rows && row * cols <= grid.Count() && Model() == l
        invariant n == |l.OwedUpTo(row * cols)|
        invariant forall k :: 0 <= k < out.Length ==>
                    out[k] == if k < n then l.OwedUpTo(row * cols)[k] else old(out[k])
      {
        RowFits(row);
        var col := 0;
        while col < cols
          invariant col <= cols && row * cols + col <= grid.Count() && Model() == l
          invariant n == |l.OwedUpTo(row * cols + col)|
          invariant forall k :: 0 <= k < out.Length ==>
                      out[k] == if k < n then l.OwedUpTo(row * cols + col)[k] else old(out[k])
        {
          StripThere(row, col);
          assert l.debt[row * cols + col] == debt[row * cols + col];
          if keyframeOwed || debt[row * cols + col] != 0 {
            if n < out.Length {
              out[n] := grid.Geom(col, row);
            }
            n := n + 1;
          }
          col := col + 1;
        }
        row := row + 1;
      }
      AllRows();
    }

    /** Charge every macro tile whose fingerprint moved, then report what is owed. */
    method SettlePlan(out: array<Strip>) returns (n: nat, presentations: nat)
      requires Valid()
      modifies debt, out
      ensures Valid()
      ensures Model() == old(Model()).(debt := old(Model()).Charged())
      ensures n == |Model().OwedStrips()| && presentations == Model().Presentations()
      ensures forall k :: 0 <= k < n && k < out.Length ==> out[k] == Model().OwedStrips()[k]
    {
      ChargeMoved();
      presentations := if keyframeOwed then REPEATS else 1;
      n := Owed(out);
    }

    method ChargeMoved()
      requires Valid()
      modifies debt
      ensures Valid() && Model() == old(Model()).(debt := old(Model()).Charged())
    {
      ghost var l := Model();
      ChargedEnds(l);
      hide ChargedBefore;
      var row := 0;
      while row < rows
        invariant row <= rows && row * cols <= grid.Count()
        invariant Valid() && Model() == l.(debt := Model().debt)
        invariant forall i :: 0 <= i < grid.Count() ==> debt[i] == ChargedBefore(l, row * cols, i)
      {
        RowFits(row);
        ChargeRow(l, row, row * cols, (row + 1) * cols);
        row := row + 1;
      }
      assert Model().debt == l.Charged();
    }

    method ChargeRow(ghost l: Ledger, row: nat, ghost from: nat, ghost to: nat)
      requires Valid() && l.Valid() && Model() == l.(debt := Model().debt)
      requires row < rows && from == row * cols && to == from + cols && to <= grid.Count()
      requires forall i :: 0 <= i < grid.Count() ==> debt[i] == ChargedBefore(l, from, i)
      modifies debt
      ensures Valid() && Model() == l.(debt := Model().debt)
      ensures forall i :: 0 <= i < grid.Count() ==> debt[i] == ChargedBefore(l, to, i)
    {
      hide ChargedBefore, Grid.SameMacroTile, Grid.Count, Grid.Rows, Grid.Cols;
      var col := 0;
      while col < cols
        invariant col <= cols && Valid() && Model() == l.(debt := Model().debt)
        invariant forall i :: 0 <= i < grid.Count() ==> debt[i] == ChargedBefore(l, from + col, i)
      {
        ghost var at := from + col;
        ChargeStrip(row, col);
        assert l.pending[at] == pending[at] && l.hashes[at] == hashes[at];
        forall i | 0 <= i < grid.Count()
          ensures debt[i] == ChargedBefore(l, at + 1, i)
        {
          ChargeStep(l, at, i);
          MacroTileIsSquare(grid, i, at);
        }
        col := col + 1;
      }
    }

    /** The debt once the strips before `k` have been looked at. */
    ghost function ChargedBefore(l: Ledger, k: nat, i: nat): nat
      requires l.Valid() && k <= l.grid.Count() && i < l.grid.Count()
    {
      if exists j :: 0 <= j < k && l.grid.SameMacroTile(i, j) && l.pending[j] != l.hashes[j]
      then REPEATS else l.debt[i]
    }

    /** One strip's turn: if its fingerprint moved, the 256 by 64 pixels around it are charged. */
    method ChargeStrip(row: nat, col: nat)
      requires Valid() && row < rows && col < cols && row * cols + col < grid.Count()
      modifies debt
      ensures Valid() && Model() == old(Model()).(debt := Model().debt)
      ensures var at := row * cols + col;
              forall i :: 0 <= i < grid.Count() ==>
                debt[i] == if && pending[at] != hashes[at]
                              && grid.StripAt(i).x / 256 == grid.StripAt(at).x / 256
                              && grid.StripAt(i).y / 64 == grid.StripAt(at).y / 64
                           then 3 else old(debt[i])
    {
      grid.IndexRoundTrip(row, col);
      TileOfStrip(grid, row * cols + col);
      if pending[row * cols + col] != hashes[row * cols + col] {
        ChargeMacroTile(col, row);
      }
    }

    /** At first no debt has moved, and in the end all of them are as charged. */
    lemma ChargedEnds(l: Ledger)
      requires l.Valid()
      ensures forall i :: 0 <= i < l.grid.Count() ==>
                ChargedBefore(l, 0, i) == l.debt[i] && ChargedBefore(l, l.grid.Count(), i) == l.Charged()[i]
    {
    }

    lemma ChargeStep(l: Ledger, k: nat, i: nat)
      requires l.Valid() && k < l.grid.Count() && i < l.grid.Count()
      ensures ChargedBefore(l, k + 1, i) ==
              if l.grid.SameMacroTile(i, k) && l.pending[k] != l.hashes[k] then REPEATS
              else ChargedBefore(l, k, i)
    {
    }

    /** Fingerprints the marked strips and carries every other strip's record forward. */
    method FingerprintMarked(surface: Surface, mark: array<bool>)
      requires Valid() && grid.Shows(surface) && mark.Length == MAX_STRIPS
      modifies pending
      ensures forall i :: 0 <= i < grid.Count() ==>
                pending[i] == if mark[i] then grid.Fingerprint(surface, i) else hashes[i]
    {
      var row := 0;
      while row < rows
        invariant row <= rows && row * cols <= grid.Count()
        invariant forall i :: 0 <= i < row * cols ==>
                    pending[i] == if mark[i] then grid.Fingerprint(surface, i) else hashes[i]
      {
        MulMono(row + 1, rows, cols);
        var col := 0;
        while col < cols
          invariant col <= cols && row * cols + col <= grid.Count()
          invariant forall i :: 0 <= i < row * cols + col ==>
                      pending[i] == if mark[i] then grid.Fingerprint(surface, i) else hashes[i]
        {
          grid.IndexRoundTrip(row, col);
          var index := row * cols + col;
          pending[index] := if mark[index] then grid.FingerprintOf(surface, grid.Geom(col, row)) else hashes[index];
          col := col + 1;
        }
        row := row + 1;
      }
    }

    method FingerprintAll(surface: Surface)
      requires Valid() && grid.Shows(surface)
      modifies pending
      ensures forall i :: 0 <= i < grid.Count() ==> pending[i] == grid.Fingerprint(surface, i)
    {
      var row := 0;
      while row < rows
        invariant row <= rows && row * cols <= grid.Count()
        invariant forall i :: 0 <= i < row * cols ==> pending[i] == grid.Fingerprint(surface, i)
      {
        MulMono(row + 1, rows, cols);
        var col := 0;
        while col < cols
          invariant col <= cols && row * cols + col <= grid.Count()
          invariant forall i :: 0 <= i < row * cols + col ==> pending[i] == grid.Fingerprint(surface, i)
        {
          grid.IndexRoundTrip(row, col);
          pending[row * cols + col] := grid.FingerprintOf(surface, grid.Geom(col, row));
          col := col + 1;
        }
        row := row + 1;
      }
    }

    /** Fingerprint the whole surface and settle. */
    method Plan(surface: Surface, out: array<Strip>) returns (n: nat, presentations: nat)
      requires Valid() && grid.Shows(surface)
      modifies this`sweep, pending, debt, out
      ensures Valid() && Model() == old(Model()).Plan(surface)
      ensures n == |Model().OwedStrips()| && presentations == Model().Presentations()
      ensures forall k :: 0 <= k < n && k < out.Length ==> out[k] == Model().OwedStrips()[k]
    {
      ghost var l := Model();
      FingerprintAll(surface);
      sweep := (sweep + 1) % UINT32;
      assert Model() == l.(pending := grid.Fingerprints(surface), sweep := l.NextSweep());
      n, presentations := SettlePlan(out);
    }

    /** Marks the strips a rectangle covers; false when it leaves the surface. */
    method MarkRect(rect: Rect, mark: array<bool>) returns (ok: bool)
      requires Valid() && mark.Length == MAX_STRIPS
      modifies mark
      ensures ok <==> rect.Empty() || grid.Fits(rect)
      ensures ok ==> forall i :: 0 <= i < grid.Count() ==> (mark[i] <==> old(mark[i]) || grid.Touches(rect, i))
    {
      if rect.w == 0 || rect.h == 0 {
        return true;
      }
      if rect.x >= grid.width || rect.y >= grid.height || rect.w > grid.width - rect.x
         || rect.h > grid.height - rect.y {
        return false;
      }
      var firstCol := rect.x / STRIP_W;
      var firstRow := rect.y / STRIP_H;
      var lastCol := (rect.x + rect.w - 1) / STRIP_W;
      var lastRow := (rect.y + rect.h - 1) / STRIP_H;
      var row := firstRow;
      while row <= lastRow && row < rows
        invariant firstRow <= row <= lastRow + 1
        invariant forall i :: 0 <= i < grid.Count() ==>
                    (mark[i] <==> || old(mark[i])
                                  || (firstRow <= grid.RowOf(i) < row && firstCol <= grid.ColOf(i) <= lastCol))
      {
        var col := firstCol;
        while col <= lastCol && col < cols
          invariant firstCol <= col <= lastCol + 1
          invariant forall i :: 0 <= i < grid.Count() ==>
                      (mark[i] <==> || old(mark[i])
                                    || (firstRow <= grid.RowOf(i) < row && firstCol <= grid.ColOf(i) <= lastCol)
                                    || (grid.RowOf(i) == row && firstCol <= grid.ColOf(i) < col))
        {
          grid.IndexRoundTrip(row, col);
          OnlyIndex(row, col);
          mark[row * cols + col] := true;
          col := col + 1;
        }
        AllBounds();
        row := row + 1;
      }
      AllBounds();
      return true;
    }

    /** Marks one whole row of strips. */
    method MarkRow(row: nat, mark: array<bool>)
      requires Valid() && mark.Length == MAX_STRIPS && row < rows
      modifies mark
      ensures forall i :: 0 <= i < grid.Count() ==> (mark[i] <==> old(mark[i]) || grid.RowOf(i) == row)
    {
      MulMono(row + 1, rows, cols);
      for col := 0 to cols
        invariant forall i :: 0 <= i < grid.Count() ==>
                    (mark[i] <==> old(mark[i]) || (grid.RowOf(i) == row && grid.ColOf(i) < col))
      {
        grid.IndexRoundTrip(row, col);
        OnlyIndex(row, col);
        mark[row * cols + col] := true;
      }
      AllBounds();
    }

    /** Marks this frame's share of the verification sweep. */
    method MarkSweep(mark: array<bool>)
      requires Valid() && mark.Length == MAX_STRIPS
      modifies mark
      ensures forall i :: 0 <= i < grid.Count() ==>
                (mark[i] <==> old(mark[i]) || grid.RowOf(i) % SWEEP == sweep % SWEEP)
    {
      var row := sweep % SWEEP;
      while row < rows
        invariant row % SWEEP == sweep % SWEEP
        invariant forall i :: 0 <= i < grid.Count() ==>
                    (mark[i] <==> || old(mark[i])
                                  || (grid.RowOf(i) < row && grid.RowOf(i) % SWEEP == sweep % SWEEP))
        decreases rows + SWEEP - row
      {
        MarkRow(row, mark);
        NextTurn(row);
        row := row + SWEEP;
      }
      AllBounds();
    }

    /** Between one sweep row and the next no row has the same phase. */
    lemma NextTurn(row: nat)
      ensures (row + SWEEP) % SWEEP == row % SWEEP
      ensures forall r: nat :: row < r < row + SWEEP ==> r % SWEEP != row % SWEEP
    {
    }

    /** As Plan, but re-reads only what the rectangles touch plus this frame's sweep rows. */
    method PlanDirty(surface: Surface, rects: seq<Rect>, out: array<Strip>) returns (n: nat, presentations: nat)
      requires Valid() && grid.Shows(surface)
      modifies this`sweep, pending, debt, out
      ensures Valid() && Model() == old(Model()).PlanDirty(surface, rects)
      ensures n == |Model().OwedStrips()| && presentations == Model().Presentations()
      ensures forall k :: 0 <= k < n && k < out.Length ==> out[k] == Model().OwedStrips()[k]
    {
      if keyframeOwed || |rects| == 0 {
        n, presentations := Plan(surface, out);
        return;
      }
      var mark := new bool[MAX_STRIPS](_ => false);
      for k := 0 to |rects|
        invariant Valid() && Model() == old(Model())
        invariant forall j :: 0 <= j < k ==> rects[j].Empty() || grid.Fits(rects[j])
        invariant forall i :: 0 <= i < grid.Count() ==>
                    (mark[i] <==> exists j :: 0 <= j < k && grid.Touches(rects[j], i))
      {
        var ok := MarkRect(rects[k], mark);
        if !ok {
          n, presentations := Plan(surface, out);
          return;
        }
      }
      ghost var l := Model();
      MarkSweep(mark);
      assert forall i :: 0 <= i < grid.Count() ==> (mark[i] <==> l.Reads(rects, i));
      FingerprintMarked(surface, mark);
      sweep := (sweep + 1) % UINT32;
      assert Model() == l.(pending := l.FastPending(surface, rects), sweep := l.NextSweep());
      n, presentations := SettlePlan(out);
    }

    /** The frame reached the dock: clear the keyframe or pay one repeat, then publish. */
    method Presented()
      requires Valid()
      modifies this`keyframeOwed, hashes, debt
      ensures Valid() && Model() == old(Model()).Presented()
    {
      ghost var l := Model();
      if keyframeOwed {
        for k := 0 to MAX_STRIPS
          invariant forall i :: 0 <= i < k ==> debt[i] == 0
          modifies debt
        {
          debt[k] := 0;
        }
        keyframeOwed := false;
      } else {
        for index := 0 to rows * cols
          invariant forall i :: 0 <= i < grid.Count() ==>
                      debt[i] == if i < index && old(debt[i]) != 0 then old(debt[i]) - 1 else old(debt[i])
          modifies debt
        {
          if debt[index] != 0 {
            debt[index] := debt[index] - 1;
          }
        }
      }
      for k := 0 to MAX_STRIPS
        invariant forall i :: 0 <= i < k ==> hashes[i] == pending[i]
        modifies hashes
      {
        hashes[k] := pending[k];
      }
      assert Model().debt == l.Presented().debt;
      assert Model().hashes == l.pending;
    }
  }
}
