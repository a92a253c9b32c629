/** The colour fit: one straight line per channel through the logarithms of what was shown and what
    the camera reported, and why that line is the best there is. */
module Calibration {
  import opened Common

  const CHANNELS := 3
  const MIN_PATCHES := 4
  const MAX_PATCHES := 32
  /** Below this a level carries no signal. */
  const FLOOR := 0.02
  /** Below this a denominator counts as zero. */
  const LEAST_SPREAD := 0.000000000001

  datatype Patch = Patch(input: real, measured: seq<real>)

  datatype Point = Point(x: real, y: real)

  /** log(measured) = intercept + exponent * log(input). */
  datatype Line = Line(exponent: real, intercept: real)

  // --- products of reals ---

  function Times(a: real, b: real): real {
    a * b
  }

  lemma Distribute(a: real, b: real, c: real)
    ensures Times(a, b + c) == Times(a, b) + Times(a, c)
    ensures Times(a, b - c) == Times(a, b) - Times(a, c)
  {
  }

  lemma Swap(a: real, b: real)
    ensures Times(a, b) == Times(b, a) && Times(a, -b) == -Times(a, b)
  {
  }

  lemma Regroup(a: real, b: real, c: real)
    ensures Times(a, Times(b, c)) == Times(b, Times(a, c)) == Times(Times(a, b), c)
  {
  }

  lemma Cancel(a: real, b: real)
    requires a != 0.0
    ensures Times(a, b) == 0.0 <==> b == 0.0
  {
    if b == 0.0 {
    } else {
      assert a * b / b == a;
    }
  }

  function Square(a: real): (r: real)
    ensures r >= 0.0 && (r == 0.0 <==> a == 0.0)
  {
    if a != 0.0 then Cancel(a, a); Times(a, a) else Times(a, a)
  }

  lemma Expand(u: real, v: real)
    ensures Square(u - v) == Square(u) + Square(v) - 2.0 * Times(v, u)
  {
    hide Times;
    Distribute(u - v, u, v);
    Swap(u - v, u);
    Swap(u - v, v);
    Distribute(u, u, v);
    Distribute(v, u, v);
    Swap(u, v);
  }

  // --- sums over points ---

  function SumX(p: seq<Point>): real { if p == [] then 0.0 else SumX(p[..|p| - 1]) + p[|p| - 1].x }
  function SumY(p: seq<Point>): real { if p == [] then 0.0 else SumY(p[..|p| - 1]) + p[|p| - 1].y }
  function SumXX(p: seq<Point>): real { if p == [] then 0.0 else SumXX(p[..|p| - 1]) + Square(p[|p| - 1].x) }
  function SumXY(p: seq<Point>): real {
    if p == [] then 0.0 else SumXY(p[..|p| - 1]) + Times(p[|p| - 1].x, p[|p| - 1].y)
  }

  function Denominator(p: seq<Point>): real {
    Times(|p| as real, SumXX(p)) - Square(SumX(p))
  }

  function FitLine(p: seq<Point>): Line
    requires p != [] && Denominator(p) != 0.0
  {
    var exponent := (Times(|p| as real, SumXY(p)) - Times(SumX(p), SumY(p))) / Denominator(p);
    Line(exponent, (SumY(p) - Times(exponent, SumX(p))) / |p| as real)
  }

  // --- the best line ---

  function Residual(q: Point, l: Line): real {
    q.y - Times(l.exponent, q.x) - l.intercept
  }

  /** The sum of squared vertical distances from the points to the line. */
  function Error(p: seq<Point>, l: Line): (r: real)
    ensures r >= 0.0
  {
    if p == [] then 0.0 else Error(p[..|p| - 1], l) + Square(Residual(p[|p| - 1], l))
  }

  function Gap(q: Point, a: Line, b: Line): real {
    Times(a.exponent - b.exponent, q.x) + (a.intercept - b.intercept)
  }

  /** The sum of squared vertical distances between two lines at the points. */
  function Apart(p: seq<Point>, a: Line, b: Line): (r: real)
    ensures r >= 0.0
  {
    if p == [] then 0.0 else Apart(p[..|p| - 1], a, b) + Square(Gap(p[|p| - 1], a, b))
  }

  /** The two sums the fit sets to zero: the residuals weighted by the inputs, and the residuals. */
  function Lean(p: seq<Point>, l: Line): real {
    if p == [] then 0.0 else Lean(p[..|p| - 1], l) + Times(p[|p| - 1].x, Residual(p[|p| - 1], l))
  }

  function Offset(p: seq<Point>, l: Line): real {
    if p == [] then 0.0 else Offset(p[..|p| - 1], l) + Residual(p[|p| - 1], l)
  }

  lemma ErrorStep(q: Point, l: Line, m: Line)
    ensures Square(Residual(q, m))
         == Square(Residual(q, l)) + Square(Gap(q, m, l))
            - 2.0 * Times(m.exponent - l.exponent, Times(q.x, Residual(q, l)))
            - 2.0 * Times(m.intercept - l.intercept, Residual(q, l))
  {
    hide Times, Square;
    var d, e, u := m.exponent - l.exponent, m.intercept - l.intercept, Residual(q, l);
    Distribute(q.x, m.exponent, l.exponent);
    Swap(q.x, d);
    Swap(q.x, m.exponent);
    Swap(q.x, l.exponent);
    Expand(u, Gap(q, m, l));
    Swap(Gap(q, m, l), u);
    Distribute(u, Times(d, q.x), e);
    Swap(u, e);
    Swap(u, Times(d, q.x));
    Regroup(d, q.x, u);
  }

  lemma {:induction false} ErrorSplits(p: seq<Point>, l: Line, m: Line)
    ensures Error(p, m) == Error(p, l) + Apart(p, m, l)
                           - 2.0 * Times(m.exponent - l.exponent, Lean(p, l))
                           - 2.0 * Times(m.intercept - l.intercept, Offset(p, l))
    decreases |p|
  {
    if p != [] {
      hide Times, Square, Residual, Gap;
      var front, q := p[..|p| - 1], p[|p| - 1];
      ErrorSplits(front, l, m);
      ErrorStep(q, l, m);
      Distribute(m.exponent - l.exponent, Lean(front, l), Times(q.x, Residual(q, l)));
      Distribute(m.intercept - l.intercept, Offset(front, l), Residual(q, l));
    }
  }

  /** The two sums in terms of the four the driver keeps. */
  lemma {:induction false} LeanSums(p: seq<Point>, l: Line)
    ensures Lean(p, l) == SumXY(p) - Times(l.exponent, SumXX(p)) - Times(l.intercept, SumX(p))
    ensures Offset(p, l) == SumY(p) - Times(l.exponent, SumX(p)) - Times(l.intercept, |p| as real)
    decreases |p|
  {
    if p != [] {
      var front, q := p[..|p| - 1], p[|p| - 1];
      LeanSums(front, l);
      Distribute(l.exponent, SumXX(front), Square(q.x));
      Distribute(l.intercept, SumX(front), q.x);
      Distribute(l.exponent, SumX(front), q.x);
      Distribute(l.intercept, |front| as real, 1.0);
      assert Times(l.intercept, 1.0) == l.intercept;
      Distribute(q.x, q.y - Times(l.exponent, q.x), l.intercept);
      Distribute(q.x, q.y, Times(l.exponent, q.x));
      Regroup(q.x, l.exponent, q.x);
      Swap(q.x, l.intercept);
      hide Times;
    }
  }

  lemma FitBalances(p: seq<Point>)
    requires p != [] && Denominator(p) != 0.0
    ensures Lean(p, FitLine(p)) == 0.0 && Offset(p, FitLine(p)) == 0.0
  {
    var l := FitLine(p);
    LeanSums(p, l);
    Balances(|p| as real, SumX(p), SumY(p), SumXX(p), SumXY(p), l.exponent, l.intercept);
  }

  lemma Balances(n: real, x: real, y: real, xx: real, xy: real, a: real, b: real)
    requires n > 0.0
    requires Times(n, xx) - Square(x) != 0.0
    requires a == (Times(n, xy) - Times(x, y)) / (Times(n, xx) - Square(x))
    requires b == (y - Times(a, x)) / n
    ensures y - Times(a, x) - Times(b, n) == 0.0
    ensures xy - Times(a, xx) - Times(b, x) == 0.0
  {
    Divided(y - Times(a, x), n);
    Divided(Times(n, xy) - Times(x, y), Times(n, xx) - Square(x));
    hide Times;
    Distribute(n, xy - Times(a, xx), Times(b, x));
    Distribute(n, xy, Times(a, xx));
    Distribute(a, Times(n, xx), Square(x));
    Regroup(n, a, xx);
    Regroup(a, x, x);
    Swap(n, b);
    Regroup(n, b, x);
    Swap(Times(n, b), x);
    Distribute(x, y, Times(a, x));
    Regroup(x, a, x);
    Cancel(n, xy - Times(a, xx) - Times(b, x));
  }

  lemma Divided(a: real, b: real)
    requires b != 0.0
    ensures Times(a / b, b) == a
  {
  }

  /** No line comes closer to the points than the fitted one, and no other line comes as close. */
  lemma FitIsBest(p: seq<Point>, m: Line)
    requires p != [] && Denominator(p) != 0.0
    ensures Error(p, FitLine(p)) <= Error(p, m)
    ensures Error(p, FitLine(p)) == Error(p, m) <==> m == FitLine(p)
  {
    var l := FitLine(p);
    FitBalances(p);
    ErrorSplits(p, l, m);
    hide FitLine, Denominator;
    assert Error(p, m) == Error(p, l) + Apart(p, m, l);
    if Apart(p, m, l) == 0.0 && m != l {
      ApartZero(p, m, l);
      DenominatorSpread(p);
    }
  }

  /** Two different lines that agree at every point have only one abscissa to agree at. */
  lemma {:induction false} ApartZero(p: seq<Point>, a: Line, b: Line)
    requires Apart(p, a, b) == 0.0
    ensures forall i :: 0 <= i < |p| ==> Gap(p[i], a, b) == 0.0
    ensures a != b ==> SameInputs(p)
    decreases |p|
  {
    if p != [] {
      var front := p[..|p| - 1];
      ApartZero(front, a, b);
      assert forall i :: 0 <= i < |front| ==> p[i] == front[i];
      if a != b {
        forall i | 0 <= i < |p|
          ensures p[i].x == p[0].x
        {
          Distribute(a.exponent - b.exponent, p[i].x, p[0].x);
          assert Times(a.exponent - b.exponent, p[i].x - p[0].x) == Gap(p[i], a, b) - Gap(p[0], a, b) == 0.0;
          if a.exponent == b.exponent {
            assert Gap(p[i], a, b) == a.intercept - b.intercept;
          } else {
            Cancel(a.exponent - b.exponent, p[i].x - p[0].x);
          }
        }
      }
    }
  }

  // --- the denominator ---

  ghost predicate SameInputs(p: seq<Point>) {
    forall i :: 0 <= i < |p| ==> p[i].x == p[0].x
  }

  function SpreadFrom(p: seq<Point>, x: real): (r: real)
    ensures r >= 0.0
  {
    if p == [] then 0.0 else SpreadFrom(p[..|p| - 1], x) + Square(p[|p| - 1].x - x)
  }

  lemma {:induction false} SpreadExpands(p: seq<Point>, x: real)
    ensures SpreadFrom(p, x) == SumXX(p) + Times(Square(x), |p| as real) - 2.0 * Times(x, SumX(p))
    ensures SpreadFrom(p, x) == 0.0 <==> forall i :: 0 <= i < |p| ==> p[i].x == x
    decreases |p|
  {
    if p != [] {
      var front, q := p[..|p| - 1], p[|p| - 1].x;
      SpreadExpands(front, x);
      Expand(q, x);
      Distribute(x, SumX(front), q);
      Distribute(Square(x), |front| as real, 1.0);
      assert Times(Square(x), 1.0) == Square(x);
      assert forall i :: 0 <= i < |front| ==> p[i] == front[i];
      hide Times, Square;
    }
  }

  /** The denominator is never negative, and it is zero exactly when all points have one abscissa. */
  lemma {:induction false} DenominatorSpread(p: seq<Point>)
    ensures Denominator(p) >= 0.0
    ensures Denominator(p) == 0.0 <==> SameInputs(p)
    decreases |p|
  {
    if p == [] {
      Cancel(1.0, 0.0);
    } else {
      var front, x := p[..|p| - 1], p[|p| - 1].x;
      DenominatorSpread(front);
      SpreadExpands(front, x);
      DenominatorStep(p);
      hide Denominator, SpreadFrom, SumX, SumXX, Times, Square;
      assert forall i :: 0 <= i < |front| ==> p[i] == front[i];
      if SameInputs(p) {
        assert forall i :: 0 <= i < |front| ==> front[i].x == x;
      }
    }
  }

  lemma DenominatorStep(p: seq<Point>)
    requires p != []
    ensures var front, x := p[..|p| - 1], p[|p| - 1].x;
            Denominator(p) == Denominator(front) + SumXX(front) + Times(Square(x), |front| as real)
                              - 2.0 * Times(x, SumX(front))
  {
    var front, x := p[..|p| - 1], p[|p| - 1].x;
    var n, s, ss := |front| as real, SumX(front), SumXX(front);
    hide Times, Square;
    Distribute(ss + Square(x), n, 1.0);
    assert Times(ss + Square(x), 1.0) == ss + Square(x) by { One(ss + Square(x)); }
    Swap(n + 1.0, ss + Square(x));
    Swap(n, ss + Square(x));
    Distribute(n, ss, Square(x));
    Swap(n, Square(x));
    Expand(s, -x);
    SquareNegated(x);
    Swap(s, -x);
    Swap(s, x);
  }

  lemma One(a: real)
    ensures Times(a, 1.0) == a
  {
  }

  lemma SquareNegated(a: real)
    ensures Square(-a) == Square(a)
  {
  }

  /** Data that already lies on a line is given back that line. */
  lemma LawRecovered(p: seq<Point>, law: Line)
    requires p != [] && !SameInputs(p)
    requires forall i :: 0 <= i < |p| ==> p[i].y == law.intercept + Times(law.exponent, p[i].x)
    ensures Denominator(p) != 0.0 && FitLine(p) == law
    ensures Accepted(p) <==> |p| >= 4 && Denominator(p) >= 0.000000000001 && 0.05 < law.exponent <= 6.0
  {
    DenominatorSpread(p);
    NoError(p, law);
    FitIsBest(p, law);
  }

  lemma {:induction false} NoError(p: seq<Point>, law: Line)
    requires forall i :: 0 <= i < |p| ==> p[i].y == law.intercept + Times(law.exponent, p[i].x)
    ensures Error(p, law) == 0.0
    decreases |p|
  {
    if p != [] {
      NoError(p[..|p| - 1], law);
    }
  }

  // --- as the driver computes it ---

  /** A reading for each channel. */
  predicate Channelled(patches: seq<Patch>) {
    forall i :: 0 <= i < |patches| ==> |patches[i].measured| == CHANNELS
  }

  predicate Usable(patch: Patch, channel: nat)
    requires channel < |patch.measured|
  {
    FLOOR <= patch.input <= 1.0 && FLOOR <= patch.measured[channel] <= 1.0
  }

  /** The patches of one channel that carry a signal, in log space. */
  function Points(patches: seq<Patch>, channel: nat, log: real -> real): seq<Point>
    requires channel < CHANNELS && Channelled(patches)
  {
    if patches == [] then []
    else
      var front, last := Points(patches[..|patches| - 1], channel, log), patches[|patches| - 1];
      if Usable(last, channel) then front + [Point(log(last.input), log(last.measured[channel]))] else front
  }

  /** A logarithm tells levels apart. */
  ghost predicate TellsApart(log: real -> real) {
    forall a, b | a > 0.0 && b > 0.0 && log(a) == log(b) :: a == b
  }

  /** A patch that carries a signal in a channel: shown and measured between two hundredths and full. */
  predicate Carries(patch: Patch, channel: nat)
    requires channel < |patch.measured|
  {
    0.02 <= patch.input && patch.input <= 1.0 && 0.02 <= patch.measured[channel] && patch.measured[channel] <= 1.0
  }

  /** How many of the first `n` patches do. */
  function Carrying(patches: seq<Patch>, channel: nat, n: nat): nat
    requires channel < CHANNELS && Channelled(patches) && n <= |patches|
  {
    if n == 0 then 0 else Carrying(patches, channel, n - 1) + if Carries(patches[n - 1], channel) then 1 else 0
  }

  /** The points are those patches, in order: for each the logarithms of what was shown and of what was
      measured in that channel. */
  lemma {:induction false} PointsArePatches(patches: seq<Patch>, channel: nat, log: real -> real)
    requires channel < CHANNELS && Channelled(patches)
    ensures var p := Points(patches, channel, log);
            && |p| == Carrying(patches, channel, |patches|)
            && forall i: nat :: i < |patches| && Carries(patches[i], channel) ==>
                 && Carrying(patches, channel, i) < |p|
                 && p[Carrying(patches, channel, i)] == Point(log(patches[i].input), log(patches[i].measured[channel]))
    decreases |patches|
  {
    if patches != [] {
      var front := patches[..|patches| - 1];
      PointsArePatches(front, channel, log);
      forall i: nat | i < |patches|
        ensures Carrying(front, channel, i) == Carrying(patches, channel, i)
      {
        CarryingInFront(patches, channel, i);
      }
      assert forall i: nat :: i < |front| ==> front[i] == patches[i];
    }
  }

  lemma {:induction false} CarryingInFront(patches: seq<Patch>, channel: nat, n: nat)
    requires channel < CHANNELS && Channelled(patches) && n < |patches|
    ensures Carrying(patches[..|patches| - 1], channel, n) == Carrying(patches, channel, n)
    decreases n
  {
    if n > 0 {
      CarryingInFront(patches, channel, n - 1);
    }
  }

  /** Every point comes from a usable patch, and every usable patch gives a point. */
  lemma {:induction false} PatchOf(patches: seq<Patch>, channel: nat, log: real -> real, k: nat) returns (i: nat)
    requires channel < CHANNELS && Channelled(patches) && k < |Points(patches, channel, log)|
    ensures i < |patches| && Usable(patches[i], channel)
    ensures Points(patches, channel, log)[k] == Point(log(patches[i].input), log(patches[i].measured[channel]))
    decreases |patches|
  {
    i := |patches| - 1;
    var front := patches[..i];
    if k < |Points(front, channel, log)| {
      i := PatchOf(front, channel, log, k);
    }
  }

  lemma {:induction false} PointOf(patches: seq<Patch>, channel: nat, log: real -> real, i: nat) returns (k: nat)
    requires channel < CHANNELS && Channelled(patches) && i < |patches| && Usable(patches[i], channel)
    ensures k < |Points(patches, channel, log)|
    ensures Points(patches, channel, log)[k] == Point(log(patches[i].input), log(patches[i].measured[channel]))
    decreases |patches|
  {
    var front := patches[..|patches| - 1];
    k := |Points(front, channel, log)|;
    if i < |front| {
      k := PointOf(front, channel, log, i);
    }
  }

  /** The denominator of the fit is zero exactly when every usable patch was shown at the same level. */
  lemma NoSpreadIffOneLevel(patches: seq<Patch>, channel: nat, log: real -> real)
    requires channel < CHANNELS && Channelled(patches) && TellsApart(log)
    ensures Denominator(Points(patches, channel, log)) == 0.0 <==>
            forall i, j :: 0 <= i < |patches| && 0 <= j < |patches|
                           && Usable(patches[i], channel) && Usable(patches[j], channel) ==>
                             patches[i].input == patches[j].input
  {
    var p := Points(patches, channel, log);
    DenominatorSpread(p);
    hide Denominator, Points;
    forall i, j | 0 <= i < |patches| && 0 <= j < |patches|
                  && Usable(patches[i], channel) && Usable(patches[j], channel) && SameInputs(p)
      ensures patches[i].input == patches[j].input
    {
      var k := PointOf(patches, channel, log, i);
      var l := PointOf(patches, channel, log, j);
      assert p[k].x == p[0].x == p[l].x;
    }
    if !SameInputs(p) {
      var k: nat :| k < |p| && p[k].x != p[0].x;
      var i := PatchOf(patches, channel, log, k);
      var j := PatchOf(patches, channel, log, 0);
      assert patches[i].input != patches[j].input;
    }
  }

  /** The conditions under which a channel's line is kept. */
  predicate Accepted(p: seq<Point>) {
    && |p| >= MIN_PATCHES
    && Denominator(p) >= LEAST_SPREAD
    && 0.05 < FitLine(p).exponent <= 6.0
  }

  method FitChannel(patches: seq<Patch>, channel: nat, log: real -> real) returns (r: Option<Line>)
    requires channel < CHANNELS && Channelled(patches)
    ensures var p := Points(patches, channel, log);
            && r == (if Accepted(p) then Some(FitLine(p)) else None)
            && (r.Some? <==> |p| >= 4 && Denominator(p) >= 0.000000000001 && 0.05 < FitLine(p).exponent <= 6.0)
  {
    hide Times, Square;
    var sumX, sumY, sumXX, sumXY := 0.0, 0.0, 0.0, 0.0;
    var used := 0;
    ghost var p: seq<Point> := [];
    for i := 0 to |patches|
      invariant p == Points(patches[..i], channel, log) && used == |p|
      invariant sumX == SumX(p) && sumY == SumY(p) && sumXX == SumXX(p) && sumXY == SumXY(p)
    {
      assert patches[..i + 1][..i] == patches[..i];
      var input, measured := patches[i].input, patches[i].measured[channel];
      if input < FLOOR || measured < FLOOR || input > 1.0 || measured > 1.0 {
        continue;
      }
      var x, y := log(input), log(measured);
      ghost var q := p + [Point(x, y)];
      assert q[..|q| - 1] == p;
      sumX, sumY, sumXX, sumXY := sumX + x, sumY + y, sumXX + Square(x), sumXY + Times(x, y);
      used := used + 1;
      p := q;
    }
    assert patches[..|patches|] == patches;
    hide SumX, SumY, SumXX, SumXY;
    if used < MIN_PATCHES {
      return None;
    }
    var denominator := Times(used as real, sumXX) - Square(sumX);
    DenominatorSpread(p);
    if (if denominator < 0.0 then -denominator else denominator) < LEAST_SPREAD {
      return None;
    }
    var exponent := (Times(used as real, sumXY) - Times(sumX, sumY)) / denominator;
    var intercept := (sumY - Times(exponent, sumX)) / used as real;
    if exponent <= 0.05 || exponent > 6.0 {
      return None;
    }
    return Some(Line(exponent, intercept));
  }

  /** A logarithm turns products and powers into sums and multiples. */
  ghost predicate LogLaws(log: real -> real, pow: Power) {
    forall a, x, e | a > 0.0 && x > 0.0 :: LogOfLaw(log, pow, a, x, e)
  }

  predicate LogOfLaw(log: real -> real, pow: Power, a: real, x: real, e: real) {
    log(Times(a, pow(x, e))) == log(a) + Times(e, log(x))
  }

  /** So a channel that follows a power law is fitted with that law. */
  lemma PowerLawFitted(patches: seq<Patch>, channel: nat, log: real -> real, pow: Power, scale: real, exponent: real)
    requires channel < CHANNELS && Channelled(patches) && LogLaws(log, pow) && scale > 0.0
    requires forall i :: 0 <= i < |patches| && Usable(patches[i], channel) ==>
               patches[i].measured[channel] == Shows(scale, exponent, patches[i].input, pow)
    requires var p := Points(patches, channel, log); p != [] && !SameInputs(p)
    ensures var p := Points(patches, channel, log);
            Denominator(p) != 0.0 && FitLine(p) == Line(exponent, log(scale))
  {
    var p := Points(patches, channel, log);
    forall k | 0 <= k < |p|
      ensures p[k].y == log(scale) + Times(exponent, p[k].x)
    {
      var i := PatchOf(patches, channel, log, k);
      assert LogOfLaw(log, pow, scale, patches[i].input, exponent);
    }
    LawRecovered(p, Line(exponent, log(scale)));
  }

  datatype Response = Response(scale: seq<real>, exponent: seq<real>, valid: bool)

  /** One line a channel, or nothing: a response is marked valid only with all three fitted. */
  method Fit(patches: seq<Patch>, before: Response, log: real -> real, exp: real -> real)
    returns (ok: bool, out: Response)
    requires Channelled(patches)
    ensures ok <==> 4 <= |patches| <= 32
                    && forall c :: 0 <= c < CHANNELS ==> Accepted(Points(patches, c, log))
    ensures if 4 <= |patches| <= 32 then out.valid == ok else out == before
    ensures ok ==> |out.scale| == |out.exponent| == 3
    ensures ok ==> forall c :: 0 <= c < 3 ==>
                     var line := FitLine(Points(patches, c, log));
                     out.exponent[c] == line.exponent && out.scale[c] == exp(line.intercept)
  {
    if |patches| < MIN_PATCHES || |patches| > MAX_PATCHES {
      return false, before;
    }
    out := Response([0.0, 0.0, 0.0], [0.0, 0.0, 0.0], false);
    for c := 0 to CHANNELS
      invariant !out.valid && |out.scale| == |out.exponent| == CHANNELS
      invariant forall d :: 0 <= d < c ==>
                  && Accepted(Points(patches, d, log))
                  && out.exponent[d] == FitLine(Points(patches, d, log)).exponent
                  && out.scale[d] == exp(FitLine(Points(patches, d, log)).intercept)
    {
      var line := FitChannel(patches, c, log);
      if line.None? {
        return false, out;
      }
      out := out.(exponent := out.exponent[c := line.value.exponent],
                  scale := out.scale[c := exp(line.value.intercept)]);
    }
    return true, out.(valid := true);
  }

  // --- matching one display to another ---

  type Power = (real, real) -> real

  /** What the solver needs of exponentiation. */
  ghost predicate PowerLaws(pow: Power) {
    && (forall x, a | x > 0.0 :: pow(x, a) > 0.0)
    && (forall x | x > 0.0 :: pow(x, 1.0) == x)
    && (forall a :: pow(1.0, a) == 1.0)
    && (forall a | a > 0.0 :: pow(0.0, a) == 0.0)
    && (forall x, a, b | x > 0.0 :: PowerOfPower(pow, x, a, b))
    && (forall x, y, a | x > 0.0 && y > 0.0 :: PowerOfProduct(pow, x, y, a))
    && (forall x, a | x > 0.0 && a > 0.0 :: pow(x, a) > 1.0 <==> x > 1.0)
  }

  predicate PowerOfPower(pow: Power, x: real, a: real, b: real) {
    pow(pow(x, a), b) == pow(x, Times(a, b))
  }

  predicate PowerOfProduct(pow: Power, x: real, y: real, a: real) {
    pow(Times(x, y), a) == Times(pow(x, a), pow(y, a))
  }

  datatype Correction = Correction(gain: real, exponent: real)

  /** What a display shows of level `x`. */
  function Shows(scale: real, exponent: real, x: real, pow: Power): real {
    Times(scale, pow(x, exponent))
  }

  /** The level sent in its place: none for none, and never beyond full. */
  function Corrected(c: Correction, x: real, pow: Power): real {
    if x <= 0.0 then 0.0
    else
      var level := Times(c.gain, pow(x, c.exponent));
      if level < 0.0 then 0.0 else if level > 1.0 then 1.0 else level
  }

  /** Whatever the correction and the level, what is sent is a level. */
  lemma CorrectedIsLevel(c: Correction, x: real, pow: Power)
    ensures 0.0 <= Corrected(c, x, pow) <= 1.0
    ensures x <= 0.0 ==> Corrected(c, x, pow) == 0.0
    ensures x > 0.0 && 0.0 <= Times(c.gain, pow(x, c.exponent)) <= 1.0 ==>
              Corrected(c, x, pow) == Times(c.gain, pow(x, c.exponent))
  {
  }

  function Dimmer(a: real, b: real): real {
    if a <= b then a else b
  }

  /** Corrected, the display follows the reference's curve at every level, at the reference's scale
      unless that is brighter than the display can be driven. */
  ghost predicate Follows(c: Correction, scale: real, exponent: real, targetScale: real, targetExponent: real,
                          pow: Power) {
    && 0.0 < c.gain <= 1.0
    && forall x | 0.0 <= x <= 1.0 ::
         Shows(scale, exponent, Corrected(c, x, pow), pow)
         == Shows(Dimmer(targetScale, scale), targetExponent, x, pow)
  }

  method SolveChannel(scale: real, exponent: real, targetScale: real, targetExponent: real, pow: Power)
    returns (r: Option<Correction>)
    requires PowerLaws(pow)
    ensures r.Some? <==> scale > 0.0 && exponent > 0.0 && targetScale > 0.0 && targetExponent > 0.0
    ensures r.Some? ==> Follows(r.value, scale, exponent, targetScale, targetExponent, pow)
  {
    if scale <= 0.0 || exponent <= 0.0 || targetScale <= 0.0 || targetExponent <= 0.0 {
      return None;
    }
    hide PowerLaws, Follows;
    var gain := pow(targetScale / scale, 1.0 / exponent);
    var power := targetExponent / exponent;
    SolutionFollows(scale, exponent, targetScale, targetExponent, pow);
    return Some(Correction(if gain > 1.0 then 1.0 else gain, power));
  }

  function Solution(scale: real, exponent: real, targetScale: real, targetExponent: real, pow: Power): Correction
    requires scale > 0.0 && exponent > 0.0
  {
    var gain := pow(targetScale / scale, 1.0 / exponent);
    Correction(if gain > 1.0 then 1.0 else gain, targetExponent / exponent)
  }

  lemma SolutionFollows(scale: real, exponent: real, targetScale: real, targetExponent: real, pow: Power)
    requires PowerLaws(pow)
    requires scale > 0.0 && exponent > 0.0 && targetScale > 0.0 && targetExponent > 0.0
    ensures Follows(Solution(scale, exponent, targetScale, targetExponent, pow),
                    scale, exponent, targetScale, targetExponent, pow)
  {
    var c := Solution(scale, exponent, targetScale, targetExponent, pow);
    GainScales(scale, exponent, targetScale, pow);
    Divided(targetExponent, exponent);
    RatioAboveOne(targetExponent, exponent);
    forall x | 0.0 <= x <= 1.0
      ensures Shows(scale, exponent, Corrected(c, x, pow), pow)
           == Shows(Dimmer(targetScale, scale), targetExponent, x, pow)
    {
      if x == 0.0 {
        assert pow(0.0, exponent) == 0.0 == pow(0.0, targetExponent);
        Nothing(scale);
        Nothing(Dimmer(targetScale, scale));
      } else {
        var curve := pow(x, targetExponent);
        assert 0.0 < pow(x, c.exponent) <= 1.0;
        Within(c.gain, pow(x, c.exponent));
        assert PowerOfPower(pow, x, c.exponent, exponent);
        assert PowerOfProduct(pow, c.gain, pow(x, c.exponent), exponent);
        hide PowerLaws, Times, Solution;
        Regroup(scale, pow(c.gain, exponent), curve);
      }
    }
  }

  lemma Nothing(a: real)
    ensures Times(a, 0.0) == 0.0
  {
  }

  lemma Within(a: real, b: real)
    requires 0.0 < a <= 1.0 && 0.0 < b <= 1.0
    ensures 0.0 < Times(a, b) <= 1.0
  {
    assert a * b <= 1.0 * b;
  }

  /** The gain, raised to the display's exponent, brings its scale down to the reference's. */
  lemma GainScales(scale: real, exponent: real, targetScale: real, pow: Power)
    requires PowerLaws(pow) && scale > 0.0 && exponent > 0.0 && targetScale > 0.0
    ensures var gain := Solution(scale, exponent, targetScale, exponent, pow).gain;
            0.0 < gain <= 1.0 && Times(scale, pow(gain, exponent)) == Dimmer(targetScale, scale)
  {
    var ratio := targetScale / scale;
    Divided(targetScale, scale);
    Divided(1.0, exponent);
    assert ratio > 0.0 && 1.0 / exponent > 0.0;
    var full := pow(ratio, 1.0 / exponent);
    RatioAboveOne(targetScale, scale);
    assert full > 1.0 <==> ratio > 1.0;
    assert PowerOfPower(pow, ratio, 1.0 / exponent, exponent);
    assert pow(full, exponent) == pow(ratio, 1.0) == ratio;
    assert pow(1.0, exponent) == 1.0 && full > 0.0;
    One(scale);
    Swap(ratio, scale);
  }

  lemma RatioAboveOne(a: real, b: real)
    requires a > 0.0 && b > 0.0
    ensures a / b > 0.0 && (a / b > 1.0 <==> a > b)
  {
    var r := a / b;
    assert r * b == a;
  }

  method Solve(display: Response, reference: Response, before: seq<Correction>, pow: Power)
    returns (ok: bool, out: seq<Correction>)
    requires PowerLaws(pow)
    requires |display.scale| == |display.exponent| == |reference.scale| == |reference.exponent| == CHANNELS
    ensures !(display.valid && reference.valid) ==> !ok && out == before
    ensures ok <==> display.valid && reference.valid
                    && forall c :: 0 <= c < CHANNELS ==>
                         display.scale[c] > 0.0 && display.exponent[c] > 0.0
                         && reference.scale[c] > 0.0 && reference.exponent[c] > 0.0
    ensures ok ==> |out| == CHANNELS && forall c :: 0 <= c < CHANNELS ==>
                     Follows(out[c], display.scale[c], display.exponent[c],
                             reference.scale[c], reference.exponent[c], pow)
  {
    hide PowerLaws, Follows;
    if !display.valid || !reference.valid {
      return false, before;
    }
    out := [];
    for c := 0 to CHANNELS
      invariant |out| == c
      invariant forall d :: 0 <= d < c ==>
                  && display.scale[d] > 0.0 && display.exponent[d] > 0.0
                  && reference.scale[d] > 0.0 && reference.exponent[d] > 0.0
                  && Follows(out[d], display.scale[d], display.exponent[d],
                             reference.scale[d], reference.exponent[d], pow)
    {
      var r := SolveChannel(display.scale[c], display.exponent[c], reference.scale[c], reference.exponent[c], pow);
      if r.None? {
        return false, out;
      }
      out := out + [r.value];
    }
    return true, out;
  }
}
