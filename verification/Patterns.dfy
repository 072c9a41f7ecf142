/** The effect estimate of a pattern population, over real numbers and before rounding. */
module Patterns {
  import opened Basics
  import opened Order

  datatype Observation = Observation(observationId: string, periodId: string, x: real, y: real)

  datatype Direction = NullEffect | Positive | Negative

  datatype Estimate = Estimate(n: nat, periods: nat, slope: real, magnitude: real, direction: Direction)

  function ObservationKey(o: Observation): Key {
    [o.observationId]
  }

  function Times(a: real, b: real): real {
    a * b
  }

  function SumX(rows: seq<Observation>): real {
    if rows == [] then 0.0 else rows[0].x + SumX(rows[1..])
  }

  function SumY(rows: seq<Observation>): real {
    if rows == [] then 0.0 else rows[0].y + SumY(rows[1..])
  }

  function Covariation(rows: seq<Observation>, meanX: real, meanY: real): real {
    if rows == [] then 0.0
    else Times(rows[0].x - meanX, rows[0].y - meanY) + Covariation(rows[1..], meanX, meanY)
  }

  function Variation(rows: seq<Observation>, meanX: real): real {
    if rows == [] then 0.0 else Times(rows[0].x - meanX, rows[0].x - meanX) + Variation(rows[1..], meanX)
  }

  function MeanX(rows: seq<Observation>): real
    requires rows != []
  {
    SumX(rows) / |rows| as real
  }

  function MeanY(rows: seq<Observation>): real
    requires rows != []
  {
    SumY(rows) / |rows| as real
  }

  function Slope(rows: seq<Observation>): real
    requires rows != []
  {
    var variation := Variation(rows, MeanX(rows));
    if variation == 0.0 then 0.0 else Covariation(rows, MeanX(rows), MeanY(rows)) / variation
  }

  function Intercept(rows: seq<Observation>): real
    requires rows != []
  {
    MeanY(rows) - Times(Slope(rows), MeanX(rows))
  }

  function Rows(ids: seq<string>, byId: map<Key, Observation>): Result<seq<Observation>> {
    if ids == [] then Ok([])
    else if [ids[0]] !in byId then Err("unknown observation id")
    else match Rows(ids[1..], byId)
      case Ok(rest) => Ok([byId[[ids[0]]]] + rest)
      case Err(e) => Err(e)
  }

  function Abs(r: real): real {
    if r < 0.0 then -r else r
  }

  function EstimatePattern(ids: seq<string>, observations: seq<Observation>, threshold: real): Result<Estimate> {
    match Rows(ids, Dict(observations, ObservationKey))
    case Err(e) => Err(e)
    case Ok(rows) =>
      if rows == [] then Err("pattern population is empty") else
        var slope := Slope(rows);
        var direction := if Abs(slope) < threshold then NullEffect else if slope > 0.0 then Positive else Negative;
        Ok(Estimate(|rows|, |set r | r in rows :: r.periodId|, slope, Abs(slope), direction))
  }

  // ---- moments ----

  /** The squared error of the line `a + b*x`. */
  function SquaredError(rows: seq<Observation>, a: real, b: real): real {
    if rows == [] then 0.0 else Square(Residual(rows[0], a, b)) + SquaredError(rows[1..], a, b)
  }

  function Residual(o: Observation, a: real, b: real): real {
    o.y - a - Times(b, o.x)
  }

  function Square(r: real): real {
    Times(r, r)
  }

  /** Count and power sums of a list of observations. */
  datatype Moments = Moments(n: real, x: real, y: real, xx: real, xy: real, yy: real)

  function MomentsOf(rows: seq<Observation>): Moments {
    if rows == [] then Moments(0.0, 0.0, 0.0, 0.0, 0.0, 0.0) else Add(rows[0].x, rows[0].y, MomentsOf(rows[1..]))
  }

  function Add(x: real, y: real, m: Moments): Moments {
    AddTerms(m, x, y, Times(x, x), Times(x, y), Times(y, y))
  }

  function AddTerms(m: Moments, x: real, y: real, xx: real, xy: real, yy: real): Moments {
    Moments(m.n + 1.0, m.x + x, m.y + y, m.xx + xx, m.xy + xy, m.yy + yy)
  }

  function CovariationOf(m: Moments, mx: real, my: real): real {
    m.xy - mx * m.y - my * m.x + m.n * (mx * my)
  }

  function VariationOf(m: Moments, mx: real): real {
    m.xx - 2.0 * (mx * m.x) + m.n * (mx * mx)
  }

  function ErrorOf(m: Moments, a: real, b: real): real {
    Weighted(m, a, b, Times(a, a), Times(b, b), Times(a, b))
  }

  function Weighted(m: Moments, a: real, b: real, aa: real, bb: real, ab: real): real {
    m.yy + m.n * aa + bb * m.xx - 2.0 * (a * m.y) - 2.0 * (b * m.xy) + 2.0 * (ab * m.x)
  }

  lemma CovariationStep(m: Moments, x: real, y: real, mx: real, my: real)
    ensures CovariationOf(Add(x, y, m), mx, my) == Times(x - mx, y - my) + CovariationOf(m, mx, my)
  {
    var p := mx * my;
    assert (m.n + 1.0) * p == m.n * p + p;
    assert mx * (m.y + y) == mx * m.y + mx * y;
    assert my * (m.x + x) == my * m.x + my * x;
  }

  lemma VariationStep(m: Moments, x: real, y: real, mx: real)
    ensures VariationOf(Add(x, y, m), mx) == Times(x - mx, x - mx) + VariationOf(m, mx)
  {
    var p := mx * mx;
    assert (m.n + 1.0) * p == m.n * p + p;
    assert mx * (m.x + x) == mx * m.x + mx * x;
  }

  lemma SquareExpands(y: real, a: real, b: real, x: real)
    ensures Square(y - a - Times(b, x))
         == Weighted(Moments(1.0, x, y, Times(x, x), Times(x, y), Times(y, y)), a, b, Times(a, a), Times(b, b), Times(a, b))
  {
    var u := b * x;
    assert Square(y - a - u) == y * y + a * a + u * u - 2.0 * (a * y) - 2.0 * (u * y) + 2.0 * (a * u);
    assert u * u == (b * b) * (x * x);
    assert u * y == b * (x * y);
    assert a * u == (a * b) * x;
  }

  lemma Distribute(p: real, q: real, r: real)
    ensures p * (q + r) == p * q + p * r
  {
  }

  lemma WeightedStep(m: Moments, x: real, y: real, xx: real, xy: real, yy: real, a: real, b: real, aa: real, bb: real, ab: real)
    ensures Weighted(AddTerms(m, x, y, xx, xy, yy), a, b, aa, bb, ab)
         == Weighted(m, a, b, aa, bb, ab) + Weighted(Moments(1.0, x, y, xx, xy, yy), a, b, aa, bb, ab)
  {
    assert (m.n + 1.0) * aa == m.n * aa + aa;
    Distribute(bb, m.xx, xx);
    Distribute(a, m.y, y);
    Distribute(b, m.xy, xy);
    Distribute(ab, m.x, x);
  }

  lemma ErrorStep(m: Moments, o: Observation, a: real, b: real)
    ensures ErrorOf(Add(o.x, o.y, m), a, b) == Square(Residual(o, a, b)) + ErrorOf(m, a, b)
  {
    hide Square, Times, Weighted, AddTerms;
    var x, y := o.x, o.y;
    SquareExpands(y, a, b, x);
    WeightedStep(m, x, y, Times(x, x), Times(x, y), Times(y, y), a, b, Times(a, a), Times(b, b), Times(a, b));
  }

  /** Every sum of the estimate is a polynomial in the moments. */
  lemma {:induction false} ByMoments(rows: seq<Observation>, mx: real, my: real, a: real, b: real)
    ensures Covariation(rows, mx, my) == CovariationOf(MomentsOf(rows), mx, my)
    ensures Variation(rows, mx) == VariationOf(MomentsOf(rows), mx)
    ensures SquaredError(rows, a, b) == ErrorOf(MomentsOf(rows), a, b)
    ensures MomentsOf(rows).n == |rows| as real && MomentsOf(rows).x == SumX(rows) && MomentsOf(rows).y == SumY(rows)
  {
    if rows == [] {
      NoMoments(mx, my, a, b);
    } else {
      hide CovariationOf, VariationOf, ErrorOf, Times, Square, Residual;
      var m := MomentsOf(rows[1..]);
      ByMoments(rows[1..], mx, my, a, b);
      CovariationStep(m, rows[0].x, rows[0].y, mx, my);
      VariationStep(m, rows[0].x, rows[0].y, mx);
      ErrorStep(m, rows[0], a, b);
      assert |rows| as real == |rows[1..]| as real + 1.0;
    }
  }

  lemma NoMoments(mx: real, my: real, a: real, b: real)
    ensures var m := Moments(0.0, 0.0, 0.0, 0.0, 0.0, 0.0);
            CovariationOf(m, mx, my) == 0.0 && VariationOf(m, mx) == 0.0 && ErrorOf(m, a, b) == 0.0
  {
  }

  // ---- completing the square ----

  /** What the means leave of the outcome's own variation. */
  function Residue(m: Moments, my: real): real {
    m.yy - m.n * (my * my)
  }

  lemma CompleteSquare(m: Moments, mx: real, my: real, a: real, b: real)
    requires m.x == m.n * mx && m.y == m.n * my
    ensures ErrorOf(m, a, b)
         == Times(m.n, Square(a - my + Times(b, mx))) + Times(b * b, VariationOf(m, mx))
            - 2.0 * Times(b, CovariationOf(m, mx, my)) + Residue(m, my)
  {
    var n, u := m.n, b * mx;
    var aa, yy, uu, ay, au, yu := a * a, my * my, u * u, a * my, a * u, my * u;
    assert Square(a - my + u) == aa + yy + uu - 2.0 * ay + 2.0 * au - 2.0 * yu;
    assert n * (aa + yy + uu - 2.0 * ay + 2.0 * au - 2.0 * yu)
        == n * aa + n * yy + n * uu - 2.0 * (n * ay) + 2.0 * (n * au) - 2.0 * (n * yu);
    MeansVariation(m, mx);
    MeansCovariation(m, mx, my);
    ScaledVariation(b, n, mx, m.xx);
    ScaledCovariation(b, n, mx, my, m.xy);
    assert a * (n * my) == n * ay;
    TripleProduct(a, b, n, mx);
  }

  lemma MeansVariation(m: Moments, mx: real)
    requires m.x == m.n * mx
    ensures VariationOf(m, mx) == m.xx - m.n * (mx * mx)
  {
    assert mx * (m.n * mx) == m.n * (mx * mx);
  }

  lemma MeansCovariation(m: Moments, mx: real, my: real)
    requires m.x == m.n * mx && m.y == m.n * my
    ensures CovariationOf(m, mx, my) == m.xy - m.n * (mx * my)
  {
    assert mx * (m.n * my) == m.n * (mx * my);
    assert my * (m.n * mx) == m.n * (mx * my);
  }

  lemma ScaledVariation(b: real, n: real, mx: real, xx: real)
    ensures (b * b) * (xx - n * (mx * mx)) == (b * b) * xx - n * ((b * mx) * (b * mx))
  {
    var p, q := b * b, mx * mx;
    assert p * (n * q) == n * (p * q);
    assert p * q == (b * mx) * (b * mx);
    assert p * (xx - n * q) == p * xx - p * (n * q);
  }

  lemma ScaledCovariation(b: real, n: real, mx: real, my: real, xy: real)
    ensures b * (xy - n * (mx * my)) == b * xy - n * (my * (b * mx))
  {
    var q := mx * my;
    assert b * (n * q) == n * (b * q);
    assert b * q == my * (b * mx);
    assert b * (xy - n * q) == b * xy - b * (n * q);
  }

  lemma TripleProduct(a: real, b: real, n: real, mx: real)
    ensures (a * b) * (n * mx) == n * (a * (b * mx))
  {
    var u := b * mx;
    assert b * (n * mx) == n * u;
    assert (a * b) * (n * mx) == a * (b * (n * mx));
    assert a * (n * u) == n * (a * u);
  }

  lemma MeansAreMeans(rows: seq<Observation>)
    requires rows != []
    ensures MomentsOf(rows).n == |rows| as real
    ensures MomentsOf(rows).x == MomentsOf(rows).n * MeanX(rows) && MomentsOf(rows).y == MomentsOf(rows).n * MeanY(rows)
  {
    ByMoments(rows, 0.0, 0.0, 0.0, 0.0);
    hide MomentsOf, SumX, SumY, CovariationOf, VariationOf, ErrorOf, Covariation, Variation, SquaredError;
    Quotient(SumX(rows), |rows| as real);
    Quotient(SumY(rows), |rows| as real);
  }

  lemma Quotient(s: real, n: real)
    requires n != 0.0
    ensures s == n * (s / n)
  {
  }

  /** The squared error of any line, around the means. */
  lemma ErrorAroundMeans(rows: seq<Observation>, a: real, b: real)
    requires rows != []
    ensures SquaredError(rows, a, b)
         == Times(|rows| as real, Square(a - MeanY(rows) + Times(b, MeanX(rows)))) + Times(b * b, Variation(rows, MeanX(rows)))
            - 2.0 * Times(b, Covariation(rows, MeanX(rows), MeanY(rows))) + Residue(MomentsOf(rows), MeanY(rows))
  {
    hide ErrorOf, SquaredError, SumX, SumY, Covariation, Variation, Square, Times, MomentsOf, CovariationOf, VariationOf, Residue, MeanX, MeanY;
    MeansAreMeans(rows);
    ByMoments(rows, MeanX(rows), MeanY(rows), a, b);
    CompleteSquare(MomentsOf(rows), MeanX(rows), MeanY(rows), a, b);
  }

  // ---- variation ----

  lemma ZeroTimes(p: real)
    ensures Times(0.0, p) == 0.0
  {
  }

  lemma PositiveProduct(p: real, q: real)
    requires p > 0.0 && q > 0.0
    ensures Times(p, q) > 0.0
  {
  }

  lemma NegatedFactors(p: real, q: real)
    ensures Times(-p, -q) == Times(p, q)
  {
  }

  lemma SquareSign(r: real)
    ensures Square(r) >= 0.0 && (Square(r) == 0.0 <==> r == 0.0)
  {
    ZeroTimes(0.0);
    NegatedFactors(r, r);
    hide Times;
    if r > 0.0 { PositiveProduct(r, r); }
    if r < 0.0 { PositiveProduct(-r, -r); }
  }

  lemma {:induction false} VariationFacts(rows: seq<Observation>, m: real)
    ensures Variation(rows, m) >= 0.0
    ensures Variation(rows, m) == 0.0 <==> forall o | o in rows :: o.x == m
  {
    if rows != [] {
      VariationFacts(rows[1..], m);
      SquareSign(rows[0].x - m);
      hide Times;
      assert rows == [rows[0]] + rows[1..];
      assert forall o | o in rows :: o == rows[0] || o in rows[1..];
    }
  }

  lemma {:induction false} NoCovariation(rows: seq<Observation>, mx: real, my: real)
    requires forall o | o in rows :: o.x == mx
    ensures Covariation(rows, mx, my) == 0.0
  {
    if rows != [] {
      NoCovariation(rows[1..], mx, my);
      assert rows[0] in rows;
    }
  }

  /** Slope times variation is covariation, also for constant exposure. */
  lemma NormalEquation(rows: seq<Observation>)
    requires rows != []
    ensures Covariation(rows, MeanX(rows), MeanY(rows)) == Times(Slope(rows), Variation(rows, MeanX(rows)))
  {
    hide Covariation, Variation, MeanX, MeanY;
    var mx := MeanX(rows);
    VariationFacts(rows, mx);
    if Variation(rows, mx) == 0.0 {
      NoCovariation(rows, mx, MeanY(rows));
    } else {
      Quotient(Covariation(rows, mx, MeanY(rows)), Variation(rows, mx));
    }
  }

  lemma QuadraticGap(v: real, c: real, b: real, s: real)
    requires c == Times(s, v)
    ensures Times(b * b, v) - 2.0 * Times(b, c) - (Times(s * s, v) - 2.0 * Times(s, c)) == Times(v, Square(b - s))
  {
    var p, q, r := b * b, b * s, s * s;
    assert b * (s * v) == q * v && s * (s * v) == r * v;
    assert Square(b - s) == p - 2.0 * q + r;
    assert v * (p - 2.0 * q + r) == p * v - 2.0 * (q * v) + r * v;
  }

  // ---- main results ----

  /** How much worse any line is than the fitted one. */
  lemma ErrorGap(rows: seq<Observation>, a: real, b: real)
    requires rows != []
    ensures SquaredError(rows, a, b) - SquaredError(rows, Intercept(rows), Slope(rows))
         == Times(|rows| as real, Square(a - MeanY(rows) + Times(b, MeanX(rows))))
            + Times(Variation(rows, MeanX(rows)), Square(b - Slope(rows)))
  {
    var s := Slope(rows);
    assert Intercept(rows) - MeanY(rows) + Times(s, MeanX(rows)) == 0.0;
    assert Times(|rows| as real, Square(0.0)) == 0.0;
    hide SquaredError, Covariation, Variation, Residue, Slope, MeanX, MeanY, Intercept, MomentsOf, Square, Times;
    ErrorAroundMeans(rows, a, b);
    ErrorAroundMeans(rows, Intercept(rows), s);
    NormalEquation(rows);
    QuadraticGap(Variation(rows, MeanX(rows)), Covariation(rows, MeanX(rows), MeanY(rows)), b, s);
  }

  lemma ProductSign(m: real, p: real)
    requires m >= 0.0 && p >= 0.0
    ensures Times(m, p) >= 0.0 && (Times(m, p) == 0.0 <==> m == 0.0 || p == 0.0)
  {
    if m > 0.0 && p > 0.0 { assert m * p > 0.0; }
  }

  ghost predicate ExposureVaries(rows: seq<Observation>) {
    exists o, p | o in rows && p in rows :: o.x != p.x
  }

  lemma VariesAboutMean(rows: seq<Observation>)
    requires rows != [] && ExposureVaries(rows)
    ensures Variation(rows, MeanX(rows)) > 0.0
  {
    hide Variation, MeanX;
    VariationFacts(rows, MeanX(rows));
    var o, p :| o in rows && p in rows && o.x != p.x;
    assert o.x != MeanX(rows) || p.x != MeanX(rows);
  }

  /** The fitted line has the least squared error of all lines, and when exposure varies it is
      the only line that has it. */
  lemma LeastSquares(rows: seq<Observation>, a: real, b: real)
    requires rows != []
    ensures SquaredError(rows, Intercept(rows), Slope(rows)) <= SquaredError(rows, a, b)
    ensures ExposureVaries(rows) ==>
              (SquaredError(rows, a, b) <= SquaredError(rows, Intercept(rows), Slope(rows))
               <==> a == Intercept(rows) && b == Slope(rows))
  {
    hide SquaredError, Square, Variation, Slope, MeanX, MeanY, Times;
    var mx := MeanX(rows);
    var da, db := a - MeanY(rows) + Times(b, mx), b - Slope(rows);
    ErrorGap(rows, a, b);
    VariationFacts(rows, mx);
    SquareSign(da);
    SquareSign(db);
    ProductSign(|rows| as real, Square(da));
    ProductSign(Variation(rows, mx), Square(db));
    if ExposureVaries(rows) { VariesAboutMean(rows); }
  }

  lemma {:induction false} NoError(rows: seq<Observation>, a: real, b: real)
    requires forall o | o in rows :: o.y == a + Times(b, o.x)
    ensures SquaredError(rows, a, b) == 0.0
  {
    if rows != [] {
      assert rows[0] in rows;
      assert Residual(rows[0], a, b) == 0.0;
      NoError(rows[1..], a, b);
    }
  }

  lemma {:induction false} ErrorSign(rows: seq<Observation>, a: real, b: real)
    ensures SquaredError(rows, a, b) >= 0.0
  {
    if rows != [] {
      SquareSign(Residual(rows[0], a, b));
      ErrorSign(rows[1..], a, b);
    }
  }

  /** Exactly linear data with varying exposure gives back its line. */
  lemma RecoversLine(rows: seq<Observation>, a: real, b: real)
    requires rows != [] && ExposureVaries(rows) && forall o | o in rows :: o.y == a + b * o.x
    ensures Slope(rows) == b && Intercept(rows) == a
  {
    assert forall o | o in rows :: o.y == a + Times(b, o.x);
    hide SquaredError, Slope, Intercept, Times;
    NoError(rows, a, b);
    ErrorSign(rows, Intercept(rows), Slope(rows));
    LeastSquares(rows, a, b);
  }

  // ---- order and sign ----

  lemma SameMomentsSameFit(rows: seq<Observation>, others: seq<Observation>)
    requires rows != [] && |rows| == |others| && MomentsOf(rows) == MomentsOf(others)
    ensures Slope(rows) == Slope(others) && Intercept(rows) == Intercept(others)
  {
    ByMoments(rows, 0.0, 0.0, 0.0, 0.0);
    ByMoments(others, 0.0, 0.0, 0.0, 0.0);
    hide CovariationOf, VariationOf, ErrorOf, MomentsOf, Covariation, Variation, SquaredError, SumX, SumY, Times;
    assert MeanX(rows) == MeanX(others) && MeanY(rows) == MeanY(others);
    ByMoments(rows, MeanX(rows), MeanY(rows), 0.0, 0.0);
    ByMoments(others, MeanX(rows), MeanY(rows), 0.0, 0.0);
  }

  lemma AddTwice(x: real, y: real, p: real, q: real, m: Moments)
    ensures Add(x, y, Add(p, q, m)) == Add(p, q, Add(x, y, m))
  {
  }

  lemma {:induction false} MovedToFront(rows: seq<Observation>, k: nat)
    requires k < |rows|
    ensures MomentsOf(rows) == Add(rows[k].x, rows[k].y, MomentsOf(rows[..k] + rows[k + 1..]))
  {
    hide Add;
    if k == 0 {
      assert rows[..0] + rows[1..] == rows[1..];
    } else {
      var tail := rows[1..];
      var rest := tail[..k - 1] + tail[k..];
      MovedToFront(tail, k - 1);
      assert rows[..k] + rows[k + 1..] == [rows[0]] + rest;
      assert ([rows[0]] + rest)[1..] == rest;
      AddTwice(rows[0].x, rows[0].y, rows[k].x, rows[k].y, MomentsOf(rest));
    }
  }

  lemma {:induction false} PermutedMoments(rows: seq<Observation>, others: seq<Observation>)
    requires multiset(rows) == multiset(others)
    ensures |rows| == |others| && MomentsOf(rows) == MomentsOf(others)
    decreases |rows|
  {
    hide Add;
    SameLength(rows, others);
    if rows == [] {
      assert others == [];
    } else {
      assert rows[0] in multiset(others);
      var k :| 0 <= k < |others| && others[k] == rows[0];
      var rest := others[..k] + others[k + 1..];
      RemoveAt(rows, 0, rows[1..]);
      RemoveAt(others, k, rest);
      Cancel(rows[0], rows, others, rows[1..], rest);
      PermutedMoments(rows[1..], rest);
      MovedToFront(others, k);
    }
  }

  /** The fitted line does not see the order of the observations. */
  lemma OrderDoesNotMatter(rows: seq<Observation>, others: seq<Observation>)
    requires rows != [] && multiset(rows) == multiset(others)
    ensures others != [] && Slope(rows) == Slope(others) && Intercept(rows) == Intercept(others)
  {
    hide Slope, Intercept, MomentsOf;
    PermutedMoments(rows, others);
    SameMomentsSameFit(rows, others);
  }

  function Negated(rows: seq<Observation>): (r: seq<Observation>)
    ensures |r| == |rows|
  {
    if rows == [] then [] else [rows[0].(y := -rows[0].y)] + Negated(rows[1..])
  }

  lemma {:induction false} NegatedSums(rows: seq<Observation>, mx: real, my: real)
    ensures SumX(Negated(rows)) == SumX(rows) && SumY(Negated(rows)) == -SumY(rows)
    ensures Variation(Negated(rows), mx) == Variation(rows, mx)
    ensures Covariation(Negated(rows), mx, -my) == -Covariation(rows, mx, my)
  {
    if rows != [] {
      NegatedSums(rows[1..], mx, my);
      assert Negated(rows)[1..] == Negated(rows[1..]);
      NegatedTimes(rows[0].x - mx, rows[0].y - my);
      hide Times;
      assert -rows[0].y - (-my) == -(rows[0].y - my);
    }
  }

  lemma NegatedTimes(a: real, b: real)
    ensures Times(a, -b) == -Times(a, b)
  {
  }

  lemma NegatedQuotient(s: real, n: real)
    requires n != 0.0
    ensures (-s) / n == -(s / n)
  {
  }

  /** Negating every outcome negates the slope. */
  lemma NegationNegates(rows: seq<Observation>)
    requires rows != []
    ensures Slope(Negated(rows)) == -Slope(rows)
  {
    var neg, n := Negated(rows), |rows| as real;
    NegatedSums(rows, MeanX(rows), MeanY(rows));
    hide SumX, SumY, Variation, Covariation, Negated;
    NegatedQuotient(SumY(rows), n);
    assert MeanX(neg) == MeanX(rows) && MeanY(neg) == -MeanY(rows);
    var v := Variation(rows, MeanX(rows));
    if v != 0.0 { NegatedQuotient(Covariation(rows, MeanX(rows), MeanY(rows)), v); }
  }

  // ---- the estimate ----

  /** The rows of an estimate are looked up one by one. */
  lemma {:induction false} RowsAt(ids: seq<string>, byId: map<Key, Observation>)
    ensures Rows(ids, byId).Ok? <==> forall id | id in ids :: [id] in byId
    ensures Rows(ids, byId).Err? ==> Rows(ids, byId) == Err("unknown observation id")
    ensures Rows(ids, byId).Ok? ==> |Rows(ids, byId).value| == |ids|
    ensures Rows(ids, byId).Ok? ==> forall i | 0 <= i < |ids| :: [ids[i]] in byId && Rows(ids, byId).value[i] == byId[[ids[i]]]
  {
    if ids != [] {
      RowsAt(ids[1..], byId);
      assert ids == [ids[0]] + ids[1..];
      if Rows(ids, byId).Ok? {
        forall i | 0 <= i < |ids| ensures [ids[i]] in byId && Rows(ids, byId).value[i] == byId[[ids[i]]] {
          if i > 0 { assert ids[i] == ids[1..][i - 1]; }
        }
      }
    }
  }

  lemma RowsWithout(ids: seq<string>, k: nat, rest: seq<string>, byId: map<Key, Observation>)
    requires k < |ids| && rest == ids[..k] + ids[k + 1..] && Rows(ids, byId).Ok?
    ensures Rows(rest, byId).Ok? && [ids[k]] in byId
    ensures multiset(Rows(ids, byId).value) == multiset{byId[[ids[k]]]} + multiset(Rows(rest, byId).value)
  {
    hide Rows;
    RowsAt(ids, byId);
    RowsAt(rest, byId);
    assert forall id | id in rest :: id in ids;
    var rows := Rows(ids, byId).value;
    assert Rows(rest, byId).value == rows[..k] + rows[k + 1..];
    RemoveAt(rows, k, Rows(rest, byId).value);
  }

  lemma {:induction false} PermutedRows(ids: seq<string>, others: seq<string>, byId: map<Key, Observation>)
    requires multiset(ids) == multiset(others)
    ensures Rows(ids, byId).Ok? <==> Rows(others, byId).Ok?
    ensures Rows(ids, byId).Ok? ==> multiset(Rows(ids, byId).value) == multiset(Rows(others, byId).value)
    decreases |ids|
  {
    hide Rows;
    RowsAt(ids, byId);
    RowsAt(others, byId);
    forall id ensures id in ids <==> id in others { assert id in multiset(ids) <==> id in multiset(others); }
    SameLength(ids, others);
    if ids != [] && Rows(ids, byId).Ok? {
      assert ids[0] in others;
      var k :| 0 <= k < |others| && others[k] == ids[0];
      var rest := others[..k] + others[k + 1..];
      RemoveAt(ids, 0, ids[1..]);
      RemoveAt(others, k, rest);
      Cancel(ids[0], ids, others, ids[1..], rest);
      PermutedRows(ids[1..], rest, byId);
      RowsWithout(ids, 0, ids[1..], byId);
      RowsWithout(others, k, rest, byId);
    }
  }

  lemma SamePeriods(rows: seq<Observation>, others: seq<Observation>)
    requires multiset(rows) == multiset(others)
    ensures (set r | r in rows :: r.periodId) == (set r | r in others :: r.periodId) && |rows| == |others|
  {
    SameLength(rows, others);
    forall r ensures r in rows <==> r in others { assert r in multiset(rows) <==> r in multiset(others); }
  }

  /** The estimate, or its refusal, depends neither on the order of the population's ids nor on the
      order of the observations. */
  lemma EstimateIgnoresOrder(
    ids: seq<string>, otherIds: seq<string>, observations: seq<Observation>, others: seq<Observation>, threshold: real)
    requires multiset(ids) == multiset(otherIds)
    requires DistinctKeys(observations, ObservationKey) && SameElements(observations, others)
    ensures EstimatePattern(ids, observations, threshold) == EstimatePattern(otherIds, others, threshold)
  {
    hide Slope, Rows, Dict;
    DistinctUnique(observations, ObservationKey);
    SameElementsSameDict(observations, others, ObservationKey);
    var byId := Dict(observations, ObservationKey);
    RowsAt(ids, byId);
    RowsAt(otherIds, byId);
    PermutedRows(ids, otherIds, byId);
    if Rows(ids, byId).Ok? {
      var rows, moved := Rows(ids, byId).value, Rows(otherIds, byId).value;
      SamePeriods(rows, moved);
      if rows != [] { OrderDoesNotMatter(rows, moved); }
    }
  }

  lemma {:induction false} NegatedAt(rows: seq<Observation>, i: nat)
    requires i < |rows|
    ensures Negated(rows)[i] == rows[i].(y := -rows[i].y)
  {
    if i > 0 { NegatedAt(rows[1..], i - 1); }
  }

  lemma {:induction false} NegatedDict(observations: seq<Observation>, k: Key)
    ensures var d, neg := Dict(observations, ObservationKey), Dict(Negated(observations), ObservationKey);
            (k in d <==> k in neg) && (k in d ==> neg[k] == d[k].(y := -d[k].y))
    decreases |observations|
  {
    hide Dict, Negated;
    if observations == [] {
      NothingNegated();
    } else {
      var n := |observations| - 1;
      NegatedDict(observations[..n], k);
      NegatedPrefix(observations, n);
      NegatedAt(observations, n);
      DictLast(observations);
      DictLast(Negated(observations));
      hide ObservationKey;
    }
  }

  lemma NothingNegated()
    ensures Dict([], ObservationKey) == map[] && Negated([]) == []
  {
  }

  lemma DictLast(s: seq<Observation>)
    requires s != []
    ensures var n := |s| - 1; Dict(s, ObservationKey) == Dict(s[..n], ObservationKey)[[s[n].observationId] := s[n]]
  {
  }

  lemma NegatedPrefix(rows: seq<Observation>, n: nat)
    requires n <= |rows|
    ensures Negated(rows)[..n] == Negated(rows[..n])
  {
    hide Negated;
    forall i | 0 <= i < n ensures Negated(rows)[i] == Negated(rows[..n])[i] {
      NegatedAt(rows, i);
      NegatedAt(rows[..n], i);
    }
  }

  lemma NegatedRows(ids: seq<string>, observations: seq<Observation>)
    ensures var rows := Rows(ids, Dict(observations, ObservationKey));
            Rows(ids, Dict(Negated(observations), ObservationKey)) == if rows.Ok? then Ok(Negated(rows.value)) else rows
  {
    hide Dict, Rows, Negated;
    var d, neg := Dict(observations, ObservationKey), Dict(Negated(observations), ObservationKey);
    forall k ensures (k in d <==> k in neg) && (k in d ==> neg[k] == d[k].(y := -d[k].y)) { NegatedDict(observations, k); }
    RowsAt(ids, d);
    RowsAt(ids, neg);
    if Rows(ids, d).Ok? {
      var rows, other := Rows(ids, d).value, Rows(ids, neg).value;
      forall i | 0 <= i < |rows| ensures other[i] == Negated(rows)[i] { NegatedAt(rows, i); }
      assert other == Negated(rows);
    }
  }

  lemma NegatedPeriods(rows: seq<Observation>)
    ensures (set r | r in Negated(rows) :: r.periodId) == (set r | r in rows :: r.periodId)
  {
    hide Negated;
    forall r | r in rows ensures exists s :: s in Negated(rows) && s.periodId == r.periodId {
      var i :| 0 <= i < |rows| && rows[i] == r;
      NegatedAt(rows, i);
      assert Negated(rows)[i] in Negated(rows);
    }
    forall s | s in Negated(rows) ensures exists r :: r in rows && s.periodId == r.periodId {
      var i :| 0 <= i < |rows| && Negated(rows)[i] == s;
      NegatedAt(rows, i);
      assert rows[i] in rows;
    }
  }

  function Opposite(d: Direction): Direction {
    match d case NullEffect => NullEffect case Positive => Negative case Negative => Positive
  }

  /** Negating every outcome keeps counts and magnitude, swaps positive and negative and keeps a null
      effect; a zero slope under a threshold that is not positive is NEGATIVE both ways. */
  lemma NegatedEstimate(ids: seq<string>, observations: seq<Observation>, threshold: real)
    ensures var e, neg := EstimatePattern(ids, observations, threshold), EstimatePattern(ids, Negated(observations), threshold);
            if e.Err? then neg == e else
              && neg.Ok? && neg.value.n == e.value.n && neg.value.periods == e.value.periods
              && neg.value.slope == -e.value.slope && neg.value.magnitude == e.value.magnitude
              && (neg.value.direction == Opposite(e.value.direction) <==> e.value.slope != 0.0 || threshold > 0.0)
  {
    hide Slope, Rows, Dict, Negated;
    NegatedRows(ids, observations);
    var rows := Rows(ids, Dict(observations, ObservationKey));
    if rows.Ok? && rows.value != [] {
      NegationNegates(rows.value);
      NegatedPeriods(rows.value);
    }
  }
}
