/** The grid of 64x16 strips that tiles a captured surface, the rectangles the compositor
    reports as changed, and what a strip's fingerprint sees of the surface. */
module Strips {
  const STRIP_W := 64
  const STRIP_H := 16
  const MACRO_STRIPS := 4
  const MAX_STRIPS := 30 * 68

  type Pixel = bv32

  /** Rows of pixels. A row may be longer than the grid is wide: that is the stride. */
  type Surface = seq<seq<Pixel>>

  /** A fingerprint is taken to be injective, so it is the strip's own pixels. */
  type Fingerprint = seq<seq<Pixel>>

  datatype Strip = Strip(col: nat, row: nat, x: nat, y: nat, w: nat, h: nat) {
    predicate Contains(px: nat, py: nat) {
      x <= px < x + w && y <= py < y + h
    }
  }

  datatype Rect = Rect(x: nat, y: nat, w: nat, h: nat) {
    predicate Empty() {
      w == 0 || h == 0
    }

    predicate Contains(px: nat, py: nat) {
      x <= px < x + w && y <= py < y + h
    }
  }

  datatype Grid = Grid(width: nat, height: nat) {
    function Cols(): nat {
      (width + STRIP_W - 1) / STRIP_W
    }

    function Rows(): nat {
      (height + STRIP_H - 1) / STRIP_H
    }

    function Count(): nat {
      Rows() * Cols()
    }

    function Index(row: nat, col: nat): nat {
      row * Cols() + col
    }

    function RowOf(i: nat): nat
      requires i < Count()
    {
      i / Cols()
    }

    function ColOf(i: nat): nat
      requires i < Count()
    {
      i % Cols()
    }

    /** The strip at one grid position, clipped to the surface. */
    function Geom(col: nat, row: nat): Strip
      requires col < Cols() && row < Rows()
    {
      var x, y := col * STRIP_W, row * STRIP_H;
      Strip(col, row, x, y,
            if x + STRIP_W > width then width - x else STRIP_W,
            if y + STRIP_H > height then height - y else STRIP_H)
    }

    function StripAt(i: nat): Strip
      requires i < Count()
    {
      IndexBounds(i);
      Geom(ColOf(i), RowOf(i))
    }

    predicate Shows(s: Surface) {
      |s| >= height && forall y :: 0 <= y < height ==> |s[y]| >= width
    }

    /** The pixel lies in the strip's cell of the grid. */
    predicate InStrip(i: nat, x: nat, y: nat)
      requires i < Count()
    {
      x < width && y < height && x / STRIP_W == ColOf(i) && y / STRIP_H == RowOf(i)
    }

    predicate Fits(r: Rect) {
      r.x < width && r.y < height && r.w <= width - r.x && r.h <= height - r.y
    }

    /** The rectangle spans the strip's column and row. */
    predicate Touches(r: Rect, i: nat)
      requires i < Count()
    {
      && !r.Empty()
      && r.x / STRIP_W <= ColOf(i) <= (r.x + r.w - 1) / STRIP_W
      && r.y / STRIP_H <= RowOf(i) <= (r.y + r.h - 1) / STRIP_H
    }

    predicate SameMacroTile(i: nat, j: nat)
      requires i < Count() && j < Count()
    {
      && RowOf(i) / MACRO_STRIPS == RowOf(j) / MACRO_STRIPS
      && ColOf(i) / MACRO_STRIPS == ColOf(j) / MACRO_STRIPS
    }

    function FingerprintOf(s: Surface, strip: Strip): Fingerprint
      requires Shows(s) && strip.x + strip.w <= width && strip.y + strip.h <= height
    {
      seq(strip.h, dy requires 0 <= dy < strip.h => s[strip.y + dy][strip.x..strip.x + strip.w])
    }

    function Fingerprint(s: Surface, i: nat): Fingerprint
      requires Shows(s) && i < Count()
    {
      IndexBounds(i);
      FingerprintOf(s, StripAt(i))
    }

    function Fingerprints(s: Surface): (f: seq<Fingerprint>)
      requires Shows(s)
    {
      seq(Count(), i requires 0 <= i < Count() => Fingerprint(s, i))
    }

    lemma IndexBounds(i: nat)
      requires i < Count()
      ensures Cols() > 0 && RowOf(i) < Rows() && ColOf(i) < Cols()
      ensures i == Index(RowOf(i), ColOf(i))
    {
      var c := Cols();
      if c == 0 {
        assert false;
      }
      if i / c >= Rows() {
        MulMono(Rows(), i / c, c);
        assert false;
      }
    }

    lemma IndexRoundTrip(row: nat, col: nat)
      requires row < Rows() && col < Cols()
      ensures Index(row, col) < Count()
      ensures RowOf(Index(row, col)) == row && ColOf(Index(row, col)) == col
    {
      MulMono(row + 1, Rows(), Cols());
      DivMod(row, col, Cols());
    }
  }

  lemma MulMono(a: nat, b: nat, c: nat)
    requires a <= b
    ensures a * c <= b * c
  {
  }

  lemma DivMod(q: nat, r: nat, d: nat)
    requires r < d
    ensures (q * d + r) / d == q && (q * d + r) % d == r
  {
    var n := q * d + r;
    assert n == n / d * d + n % d;
    if n / d < q {
      MulMono(n / d + 1, q, d);
      assert false;
    } else if n / d > q {
      MulMono(q + 1, n / d, d);
      assert false;
    }
  }

  /** Two surfaces that agree on every pixel the grid covers. */
  ghost predicate SamePixels(g: Grid, a: Surface, b: Surface)
    requires g.Shows(a) && g.Shows(b)
  {
    forall x: nat, y: nat :: x < g.width && y < g.height ==> a[y][x] == b[y][x]
  }

  lemma StripIsCell(g: Grid, i: nat, x: nat, y: nat)
    requires i < g.Count() && x < g.width && y < g.height
    ensures g.StripAt(i).Contains(x, y) <==> g.InStrip(i, x, y)
  {
    g.IndexBounds(i);
  }

  /** No strip is empty or leaves the surface. */
  lemma StripOnSurface(g: Grid, i: nat)
    requires i < g.Count()
    ensures var s := g.StripAt(i);
            s.w > 0 && s.h > 0 && s.x + s.w <= g.width && s.y + s.h <= g.height
  {
    g.IndexBounds(i);
  }

  /** Strips of 64 by 16 pixels tile the surface in raster order: every pixel belongs to exactly one. */
  lemma StripsTileSurface(g: Grid, x: nat, y: nat)
    requires x < g.width && y < g.height
    ensures var i := y / 16 * ((g.width + 63) / 64) + x / 64;
            && i < g.Count()
            && forall j: nat :: j < g.Count() ==> (g.StripAt(j).Contains(x, y) <==> j == i)
  {
    g.IndexRoundTrip(y / STRIP_H, x / STRIP_W);
    forall j: nat | j < g.Count()
      ensures g.StripAt(j).Contains(x, y) <==> j == g.Index(y / STRIP_H, x / STRIP_W)
    {
      g.IndexBounds(j);
      StripIsCell(g, j, x, y);
    }
  }

  /** Strips share a macro tile when they lie in the same 256 by 64 pixels. */
  lemma MacroTileIsSquare(g: Grid, i: nat, j: nat)
    requires i < g.Count() && j < g.Count()
    ensures g.SameMacroTile(i, j) <==>
            g.StripAt(i).x / 256 == g.StripAt(j).x / 256 && g.StripAt(i).y / 64 == g.StripAt(j).y / 64
  {
    TileOfStrip(g, i);
    TileOfStrip(g, j);
  }

  lemma TileOfStrip(g: Grid, i: nat)
    requires i < g.Count()
    ensures g.ColOf(i) / MACRO_STRIPS == g.StripAt(i).x / 256 && g.RowOf(i) / MACRO_STRIPS == g.StripAt(i).y / 64
  {
    g.IndexBounds(i);
    FourInARow(g.ColOf(i), g.RowOf(i));
    hide Grid.ColOf, Grid.RowOf;
  }

  lemma FourInARow(col: nat, row: nat)
    ensures col / MACRO_STRIPS == col * STRIP_W / 256 && row / MACRO_STRIPS == row * STRIP_H / 64
  {
  }

  /** A strip's fingerprint sees exactly the pixels of its cell. */
  lemma FingerprintSeesCell(g: Grid, a: Surface, b: Surface, i: nat)
    requires g.Shows(a) && g.Shows(b) && i < g.Count()
    ensures g.Fingerprint(a, i) == g.Fingerprint(b, i)
       <==> forall x: nat, y: nat :: x < g.width && y < g.height && g.StripAt(i).Contains(x, y) ==> a[y][x] == b[y][x]
  {
    StripOnSurface(g, i);
    var s := g.StripAt(i);
    var fa, fb := g.Fingerprint(a, i), g.Fingerprint(b, i);
    if fa == fb {
      forall x: nat, y: nat | s.Contains(x, y)
        ensures a[y][x] == b[y][x]
      {
        assert fa[y - s.y][x - s.x] == fb[y - s.y][x - s.x];
      }
    }
    if forall x: nat, y: nat :: x < g.width && y < g.height && s.Contains(x, y) ==> a[y][x] == b[y][x] {
      forall dy | 0 <= dy < s.h
        ensures fa[dy] == fb[dy]
      {
        forall dx | 0 <= dx < s.w
          ensures fa[dy][dx] == fb[dy][dx]
        {
          assert s.Contains(s.x + dx, s.y + dy);
        }
      }
    }
  }

  /** The fingerprints of all strips together determine the surface, and nothing more. */
  lemma FingerprintsDetermineSurface(g: Grid, a: Surface, b: Surface)
    requires g.Shows(a) && g.Shows(b)
    ensures g.Fingerprints(a) == g.Fingerprints(b) <==> SamePixels(g, a, b)
  {
    if g.Fingerprints(a) == g.Fingerprints(b) {
      forall x: nat, y: nat | x < g.width && y < g.height
        ensures a[y][x] == b[y][x]
      {
        StripsTileSurface(g, x, y);
        var i: nat := y / 16 * ((g.width + 63) / 64) + x / 64;
        assert g.StripAt(i).Contains(x, y);
        assert g.Fingerprint(a, i) == g.Fingerprints(a)[i] == g.Fingerprint(b, i);
        FingerprintSeesCell(g, a, b, i);
      }
    }
    if SamePixels(g, a, b) {
      forall i | 0 <= i < g.Count()
        ensures g.Fingerprints(a)[i] == g.Fingerprints(b)[i]
      {
        FingerprintSeesCell(g, a, b, i);
      }
    }
  }

  /** A rectangle on the surface touches exactly the strips it shares a pixel with. */
  lemma TouchesWhatItOverlaps(g: Grid, r: Rect, i: nat)
    requires g.Fits(r) && i < g.Count()
    ensures g.Touches(r, i) <==> exists x: nat, y: nat :: r.Contains(x, y) && g.StripAt(i).Contains(x, y)
  {
    StripOnSurface(g, i);
    g.IndexBounds(i);
    var s := g.StripAt(i);
    if g.Touches(r, i) {
      var x := if r.x < s.x then s.x else r.x;
      var y := if r.y < s.y then s.y else r.y;
      assert r.Contains(x, y) && s.Contains(x, y);
    }
    if x: nat, y: nat :| r.Contains(x, y) && s.Contains(x, y) {
      StripIsCell(g, i, x, y);
    }
  }

  /** The rectangles account for every pixel that differs between two surfaces. */
  ghost predicate CoverChanges(g: Grid, rects: seq<Rect>, a: Surface, b: Surface)
    requires g.Shows(a) && g.Shows(b)
  {
    forall x: nat, y: nat :: x < g.width && y < g.height && a[y][x] != b[y][x]
      ==> exists k :: 0 <= k < |rects| && rects[k].Contains(x, y)
  }

  /** Rectangles of consecutive frames, concatenated, cover the changes across both. */
  lemma CoverCompose(g: Grid, p: seq<Rect>, q: seq<Rect>, a: Surface, b: Surface, c: Surface)
    requires g.Shows(a) && g.Shows(b) && g.Shows(c)
    requires CoverChanges(g, p, a, b) && CoverChanges(g, q, b, c)
    ensures CoverChanges(g, p + q, a, c)
  {
    forall x: nat, y: nat | x < g.width && y < g.height && a[y][x] != c[y][x]
      ensures exists k :: 0 <= k < |p + q| && (p + q)[k].Contains(x, y)
    {
      if a[y][x] != b[y][x] {
        var k :| 0 <= k < |p| && p[k].Contains(x, y);
        assert (p + q)[k].Contains(x, y);
      } else {
        var k :| 0 <= k < |q| && q[k].Contains(x, y);
        assert (p + q)[|p| + k].Contains(x, y);
      }
    }
  }

  /** A strip none of the covering rectangles touches kept its fingerprint. */
  lemma UntouchedStripUnchanged(g: Grid, rects: seq<Rect>, a: Surface, b: Surface, i: nat)
    requires g.Shows(a) && g.Shows(b) && i < g.Count()
    requires forall k :: 0 <= k < |rects| ==> rects[k].Empty() || g.Fits(rects[k])
    requires CoverChanges(g, rects, a, b)
    requires forall k :: 0 <= k < |rects| ==> !g.Touches(rects[k], i)
    ensures g.Fingerprint(a, i) == g.Fingerprint(b, i)
  {
    forall x: nat, y: nat | x < g.width && y < g.height && g.StripAt(i).Contains(x, y)
      ensures a[y][x] == b[y][x]
    {
      if a[y][x] != b[y][x] {
        var k :| 0 <= k < |rects| && rects[k].Contains(x, y);
        TouchesWhatItOverlaps(g, rects[k], i);
        assert false;
      }
    }
    FingerprintSeesCell(g, a, b, i);
  }
}
