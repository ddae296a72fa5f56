/** Least-squares regression over exact reals. */
module LinearRegressions {

  datatype Point = Point(x: real, y: real)
  datatype Line = Line(slope: real, intercept: real)

  // ---------------------------------------------------------------- sums

  /** What the loop accumulates, with the number of points. */
  datatype Sums = Sums(n: real, x: real, y: real, xx: real, xy: real)

  const ZERO := Sums(0.0, 0.0, 0.0, 0.0, 0.0)

  function Add(s: Sums, p: Point): Sums {
    Sums(s.n + 1.0, s.x + p.x, s.y + p.y, s.xx + p.x * p.x, s.xy + p.x * p.y)
  }

  function SumsOf(ps: seq<Point>): (s: Sums)
    ensures s.n == |ps| as real
  {
    if ps == [] then ZERO else Add(SumsOf(ps[..|ps| - 1]), ps[|ps| - 1])
  }

  function Denominator(s: Sums): real { s.n * s.xx - s.x * s.x }

  function SlopeOf(s: Sums): real {
    if Denominator(s) == 0.0 then 0.0 else (s.n * s.xy - s.x * s.y) / Denominator(s)
  }

  /** The line through the sums, as the code computes it. */
  function LineOf(s: Sums): Line
    requires s.n > 0.0
  {
    Line(SlopeOf(s), (s.y - SlopeOf(s) * s.x) / s.n)
  }

  function Fit(ps: seq<Point>): Line
    requires ps != []
  {
    LineOf(SumsOf(ps))
  }

  method LinearRegression(ps: seq<Point>) returns (line: Line)
    requires ps != []
    ensures line == Fit(ps)
  {
    var sumX, sumXX, sumXY, sumY := 0.0, 0.0, 0.0, 0.0;
    for i := 0 to |ps|
      invariant Sums(i as real, sumX, sumY, sumXX, sumXY) == SumsOf(ps[..i])
    {
      assert ps[..i + 1][..i] == ps[..i];
      sumX := sumX + ps[i].x;
      sumXX := sumXX + ps[i].x * ps[i].x;
      sumXY := sumXY + ps[i].x * ps[i].y;
      sumY := sumY + ps[i].y;
    }
    assert ps[..|ps|] == ps;
    line := LineOf(Sums(|ps| as real, sumX, sumY, sumXX, sumXY));
  }

  // ---------------------------------------------------------------- the order of the points

  function Plus(s: Sums, t: Sums): Sums {
    Sums(s.n + t.n, s.x + t.x, s.y + t.y, s.xx + t.xx, s.xy + t.xy)
  }

  lemma {:induction false} SumsOfConcatenation(ps: seq<Point>, qs: seq<Point>)
    ensures SumsOf(ps + qs) == Plus(SumsOf(ps), SumsOf(qs))
  {
    if qs == [] {
      assert ps + qs == ps;
    } else {
      var init, q := qs[..|qs| - 1], qs[|qs| - 1];
      assert (ps + qs)[..|ps + qs| - 1] == ps + init;
      SumsOfConcatenation(ps, init);
      assert SumsOf(ps + qs) == Add(Plus(SumsOf(ps), SumsOf(init)), q);
    }
  }

  /** The fit does not depend on where a ring of points is cut. */
  lemma FitOfRotation(ps: seq<Point>, qs: seq<Point>)
    requires ps + qs != []
    ensures qs + ps != [] && Fit(ps + qs) == Fit(qs + ps)
  {
    hide Add, LineOf;
    SumsOfConcatenation(ps, qs);
    SumsOfConcatenation(qs, ps);
  }

  // ---------------------------------------------------------------- the squared residuals

  function Square(z: real): real { z * z }

  /** How far the point lies above the line. */
  function Error(p: Point, l: Line): real { p.y - (l.slope * p.x + l.intercept) }

  /** The sum of the squared residuals. */
  function Residuals(ps: seq<Point>, l: Line): real {
    if ps == [] then 0.0 else Residuals(ps[..|ps| - 1], l) + Square(Error(ps[|ps| - 1], l))
  }

  /** The squares of the values that the line takes at the points. */
  function Squares(ps: seq<Point>, l: Line): real {
    if ps == [] then 0.0 else Squares(ps[..|ps| - 1], l) + Square(At(l, ps[|ps| - 1].x))
  }

  function At(l: Line, x: real): real { l.slope * x + l.intercept }

  lemma SquareSign(z: real)
    ensures Square(z) >= 0.0 && (Square(z) == 0.0 <==> z == 0.0)
  {
    if z > 0.0 {
      SquareOfPositive(z);
    } else if z < 0.0 {
      SquareOfPositive(-z);
    }
  }

  lemma SquareOfPositive(z: real)
    requires z > 0.0
    ensures Square(z) > 0.0 && Square(-z) == Square(z)
  {
    SignOfFactor(z, z);
    assert (-z) * (-z) == z * z;
  }

  /** A sum of squares is not negative, and is zero only if the line vanishes at every point. */
  lemma {:induction false} SquaresSign(ps: seq<Point>, l: Line)
    ensures Squares(ps, l) >= 0.0
    ensures Squares(ps, l) == 0.0 <==> forall i :: 0 <= i < |ps| ==> At(l, ps[i].x) == 0.0
  {
    hide At, Square;
    if ps != [] {
      var init, p := ps[..|ps| - 1], ps[|ps| - 1];
      SquaresSign(init, l);
      SquareSign(At(l, p.x));
      assert forall i :: 0 <= i < |init| ==> init[i] == ps[i];
      assert Squares(ps, l) == 0.0 ==> forall i :: 0 <= i < |ps| ==> i < |init| || ps[i] == p;
    }
  }

  /** A sum of squared residuals is not negative, and is zero exactly for points on the line. */
  lemma {:induction false} ResidualsSign(ps: seq<Point>, l: Line)
    ensures Residuals(ps, l) >= 0.0
    ensures Residuals(ps, l) == 0.0 <==> forall i :: 0 <= i < |ps| ==> Error(ps[i], l) == 0.0
  {
    hide Error, Square;
    if ps != [] {
      var init, p := ps[..|ps| - 1], ps[|ps| - 1];
      ResidualsSign(init, l);
      SquareSign(Error(p, l));
      assert forall i :: 0 <= i < |init| ==> init[i] == ps[i];
      assert Residuals(ps, l) == 0.0 ==> forall i :: 0 <= i < |ps| ==> i < |init| || ps[i] == p;
    }
  }

  function SquaresOf(s: Sums, l: Line): real {
    l.slope * l.slope * s.xx + 2.0 * l.slope * l.intercept * s.x + l.intercept * l.intercept * s.n
  }

  lemma SquaresStep(s: Sums, p: Point, l: Line)
    ensures SquaresOf(Add(s, p), l) == SquaresOf(s, l) + Square(At(l, p.x))
  {
    var u, v := l.slope, l.intercept;
    var uu, uv, vv, xx := u * u, 2.0 * u * v, v * v, p.x * p.x;
    assert uu * (s.xx + xx) == uu * s.xx + uu * xx;
    assert uv * (s.x + p.x) == uv * s.x + uv * p.x;
    assert vv * (s.n + 1.0) == vv * s.n + vv;
    assert Square(u * p.x + v) == uu * xx + uv * p.x + vv;
  }

  lemma SquaresOfZero(l: Line)
    ensures SquaresOf(ZERO, l) == 0.0
  {
  }

  lemma {:induction false} SquaresFromSums(ps: seq<Point>, l: Line)
    ensures Squares(ps, l) == SquaresOf(SumsOf(ps), l)
  {
    hide At, Square, SquaresOf, Add;
    if ps == [] {
      SquaresOfZero(l);
    } else {
      SquaresFromSums(ps[..|ps| - 1], l);
      SquaresStep(SumsOf(ps[..|ps| - 1]), ps[|ps| - 1], l);
    }
  }

  // ---------------------------------------------------------------- the denominator

  ghost predicate SameX(ps: seq<Point>) {
    forall i, j :: 0 <= i < j < |ps| ==> ps[i].x == ps[j].x
  }

  /** The line n x - sum of the x vanishes at every point exactly if all x are equal. */
  function Deviation(s: Sums): Line { Line(s.n, -s.x) }

  lemma DeviationSquares(s: Sums)
    ensures SquaresOf(s, Deviation(s)) == s.n * Denominator(s)
  {
    var n, x, xx := s.n, s.x, s.xx;
    assert n * n * xx == n * (n * xx);
    assert 2.0 * n * (-x) * x == -2.0 * (n * (x * x));
    assert (-x) * (-x) * n == n * (x * x);
    assert n * (n * xx - x * x) == n * (n * xx) - n * (x * x);
  }

  lemma {:induction false} SumOfSameX(ps: seq<Point>, c: real)
    requires forall i :: 0 <= i < |ps| ==> ps[i].x == c
    ensures SumsOf(ps).x == SumsOf(ps).n * c && SumsOf(ps).xy == c * SumsOf(ps).y
  {
    if ps != [] {
      var init, p := ps[..|ps| - 1], ps[|ps| - 1];
      SumOfSameX(init, c);
      var s := SumsOf(init);
      assert (s.n + 1.0) * c == s.n * c + c;
      assert c * (s.y + p.y) == c * s.y + c * p.y;
    }
  }

  lemma VanishingMeansSameX(n: real, sum: real, a: real, b: real)
    requires n > 0.0 && n * a - sum == 0.0 && n * b - sum == 0.0
    ensures a == b
  {
    assert n * (a - b) == n * a - n * b;
  }

  /** The denominator is not negative, and is zero exactly if all x are equal. */
  lemma DenominatorIsZero(ps: seq<Point>)
    requires ps != []
    ensures Denominator(SumsOf(ps)) >= 0.0
    ensures Denominator(SumsOf(ps)) == 0.0 <==> SameX(ps)
  {
    hide SumsOf, Denominator, SquaresOf, Squares, Square, SameX, At;
    var s := SumsOf(ps);
    SquaresFromSums(ps, Deviation(s));
    SquaresSign(ps, Deviation(s));
    DeviationSquares(s);
    SignOfFactor(s.n, Denominator(s));
    DeviationVanishes(ps);
  }

  lemma DeviationVanishes(ps: seq<Point>)
    requires ps != []
    ensures SameX(ps) <==> forall i :: 0 <= i < |ps| ==> At(Deviation(SumsOf(ps)), ps[i].x) == 0.0
  {
    hide SumsOf;
    var s := SumsOf(ps);
    if SameX(ps) {
      SumOfSameX(ps, ps[0].x);
    } else {
      var i, j :| 0 <= i < j < |ps| && ps[i].x != ps[j].x;
      if At(Deviation(s), ps[i].x) == 0.0 && At(Deviation(s), ps[j].x) == 0.0 {
        VanishingMeansSameX(s.n, s.x, ps[i].x, ps[j].x);
      }
    }
  }

  lemma SignOfFactor(n: real, d: real)
    requires n > 0.0
    ensures (n * d >= 0.0 <==> d >= 0.0) && (n * d == 0.0 <==> d == 0.0)
  {
    if d < 0.0 {
      assert n * (-d) > 0.0;
    } else if d > 0.0 {
      assert n * d > 0.0;
    }
  }

  // ---------------------------------------------------------------- optimality

  /** The sum of the errors, and the sum of the errors weighted by x. */
  function Total(s: Sums, l: Line): real { s.y - l.slope * s.x - l.intercept * s.n }
  function Moment(s: Sums, l: Line): real { s.xy - l.slope * s.xx - l.intercept * s.x }

  /** The sum of the errors weighted by the values of another line. */
  function Weighted(s: Sums, l: Line, d: Line): real { d.slope * Moment(s, l) + d.intercept * Total(s, l) }

  function Minus(theirs: Line, mine: Line): Line {
    Line(theirs.slope - mine.slope, theirs.intercept - mine.intercept)
  }

  lemma QuotientTimes(a: real, b: real)
    requires b != 0.0
    ensures (a / b) * b == a
  {
  }

  /** The solution of the two normal equations, the denominator being n xx - x x. */
  lemma Eliminate(n: real, x: real, y: real, xx: real, xy: real, slope: real, intercept: real)
    requires n != 0.0
    requires intercept * n == y - slope * x
    requires slope * (n * xx - x * x) == n * xy - x * y
    ensures xy - slope * xx - intercept * x == 0.0
  {
    var m := xy - slope * xx - intercept * x;
    assert n * m == n * xy - slope * (n * xx) - (intercept * n) * x;
    assert (y - slope * x) * x == x * y - slope * (x * x);
    assert slope * (n * xx - x * x) == slope * (n * xx) - slope * (x * x);
    assert n * m == 0.0;
  }

  /** The fitted line leaves no total error and no moment. */
  lemma NormalEquations(ps: seq<Point>)
    requires ps != []
    ensures Total(SumsOf(ps), Fit(ps)) == 0.0 && Moment(SumsOf(ps), Fit(ps)) == 0.0
  {
    hide SumsOf;
    var s, l := SumsOf(ps), Fit(ps);
    QuotientTimes(s.y - l.slope * s.x, s.n);
    DenominatorIsZero(ps);
    if Denominator(s) == 0.0 {
      SumOfSameX(ps, ps[0].x);
      FlatNumerator(s, ps[0].x);
    } else {
      QuotientTimes(s.n * s.xy - s.x * s.y, Denominator(s));
    }
    Eliminate(s.n, s.x, s.y, s.xx, s.xy, l.slope, l.intercept);
  }

  lemma FlatNumerator(s: Sums, c: real)
    requires s.x == s.n * c && s.xy == c * s.y
    ensures s.n * s.xy - s.x * s.y == 0.0
  {
    assert s.n * (c * s.y) == (s.n * c) * s.y;
  }

  /** One more point: its error and its value on the other line. */
  lemma WeightedStep(s: Sums, p: Point, l: Line, d: Line)
    ensures Weighted(Add(s, p), l, d) == Weighted(s, l, d) + At(d, p.x) * Error(p, l)
  {
    var u, v, a, b, x, y := d.slope, d.intercept, l.slope, l.intercept, p.x, p.y;
    var e := Error(p, l);
    assert Total(Add(s, p), l) == Total(s, l) + e by {
      assert a * (s.x + x) == a * s.x + a * x;
      assert b * (s.n + 1.0) == b * s.n + b;
    }
    assert Moment(Add(s, p), l) == Moment(s, l) + x * e by {
      assert a * (s.xx + x * x) == a * s.xx + a * (x * x);
      assert b * (s.x + x) == b * s.x + b * x;
      assert x * e == x * y - a * (x * x) - b * x;
    }
    SumOfProducts(u, v, Moment(s, l), Total(s, l), x, e);
  }

  lemma SumOfProducts(u: real, v: real, m: real, t: real, x: real, e: real)
    ensures u * (m + x * e) + v * (t + e) == u * m + v * t + (u * x + v) * e
  {
    assert u * (m + x * e) == u * m + u * (x * e);
    assert v * (t + e) == v * t + v * e;
    assert (u * x + v) * e == u * (x * e) + v * e;
  }

  lemma ErrorDiffers(p: Point, mine: Line, theirs: Line)
    ensures Square(Error(p, theirs))
         == Square(Error(p, mine)) - 2.0 * (At(Minus(theirs, mine), p.x) * Error(p, mine))
            + Square(At(Minus(theirs, mine), p.x))
  {
    var e, w := Error(p, mine), At(Minus(theirs, mine), p.x);
    assert (theirs.slope - mine.slope) * p.x == theirs.slope * p.x - mine.slope * p.x;
    assert Error(p, theirs) == e - w;
    assert (e - w) * (e - w) == e * e - 2.0 * (w * e) + w * w;
  }

  lemma WeightedZero(l: Line, d: Line)
    ensures Weighted(ZERO, l, d) == 0.0
  {
  }

  /** How the sums of squared residuals of two lines differ. */
  lemma {:induction false} ResidualsDiffer(ps: seq<Point>, mine: Line, theirs: Line)
    ensures Residuals(ps, theirs)
         == Residuals(ps, mine) - 2.0 * Weighted(SumsOf(ps), mine, Minus(theirs, mine))
            + Squares(ps, Minus(theirs, mine))
  {
    hide Square, Error, At, Weighted, Add, Minus;
    var d := Minus(theirs, mine);
    if ps == [] {
      WeightedZero(mine, d);
    } else {
      var init, p := ps[..|ps| - 1], ps[|ps| - 1];
      ResidualsDiffer(init, mine, theirs);
      WeightedStep(SumsOf(init), p, mine, d);
      ErrorDiffers(p, mine, theirs);
    }
  }

  /** No line has a smaller sum of squared residuals than the fitted one, and unless all
      x are equal no other line has the same. */
  lemma FitIsOptimal(ps: seq<Point>, other: Line)
    requires ps != []
    ensures Residuals(ps, Fit(ps)) <= Residuals(ps, other)
    ensures !SameX(ps) && Residuals(ps, Fit(ps)) == Residuals(ps, other) ==> other == Fit(ps)
  {
    hide SumsOf, Residuals, Squares, LineOf, Total, Moment;
    var d := Minus(other, Fit(ps));
    NormalEquations(ps);
    ResidualsDiffer(ps, Fit(ps), other);
    SquaresSign(ps, d);
    if !SameX(ps) && Squares(ps, d) == 0.0 {
      var i, j :| 0 <= i < j < |ps| && ps[i].x != ps[j].x;
      TwoRoots(d, ps[i].x, ps[j].x);
    }
  }

  lemma TwoRoots(d: Line, a: real, b: real)
    requires a != b && At(d, a) == 0.0 && At(d, b) == 0.0
    ensures d == Line(0.0, 0.0)
  {
    assert d.slope * (a - b) == d.slope * a - d.slope * b;
    assert d.slope == 0.0;
  }

  /** Points on a line with two different x give that line back. */
  lemma AffineIsRecovered(ps: seq<Point>, line: Line)
    requires !SameX(ps)
    requires forall i :: 0 <= i < |ps| ==> ps[i].y == line.slope * ps[i].x + line.intercept
    ensures Fit(ps) == line
  {
    hide Residuals, LineOf;
    ResidualsSign(ps, line);
    ResidualsSign(ps, Fit(ps));
    FitIsOptimal(ps, line);
  }

  /** Points with the same x give the horizontal line through the mean of the y. */
  lemma FitOfSameX(ps: seq<Point>)
    requires ps != [] && SameX(ps)
    ensures Fit(ps) == Line(0.0, SumsOf(ps).y / |ps| as real)
  {
    DenominatorIsZero(ps);
  }
}
