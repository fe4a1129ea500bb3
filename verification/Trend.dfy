// The monthly series of manager/api/usage.py `monthly`: running totals and the
// least-squares line through the hours, in exact arithmetic.
module Trend {
  import opened Rounding
  import opened Text

  // -------------------------------------------------------------- the fit

  datatype Line = Line(intercept: real, slope: real)

  function At(l: Line, x: real): real { l.intercept + l.slope * x }

  function Mul(a: real, b: real): real { a * b }

  function Sum(ys: seq<real>): real {
    if ys == [] then 0.0 else Sum(ys[..|ys| - 1]) + ys[|ys| - 1]
  }

  function Mean(ys: seq<real>): real
    requires ys != []
  {
    Sum(ys) / |ys| as real
  }

  // sum((x - cx) ** 2 for x in xs)
  function Around(xs: seq<real>, cx: real): real {
    if xs == [] then 0.0
    else Around(xs[..|xs| - 1], cx) + Mul(xs[|xs| - 1] - cx, xs[|xs| - 1] - cx)
  }

  // sum((x - cx) * (y - cy) for x, y in zip(xs, ys))
  function Cross(xs: seq<real>, ys: seq<real>, cx: real, cy: real): real
    requires |xs| == |ys|
  {
    if xs == [] then 0.0
    else Cross(xs[..|xs| - 1], ys[..|ys| - 1], cx, cy) + Mul(xs[|xs| - 1] - cx, ys[|ys| - 1] - cy)
  }

  function Denominator(xs: seq<real>): real
    requires xs != []
  {
    Around(xs, Mean(xs))
  }

  function Slope(xs: seq<real>, ys: seq<real>): real
    requires |xs| == |ys| > 0
  {
    if Denominator(xs) != 0.0 then Cross(xs, ys, Mean(xs), Mean(ys)) / Denominator(xs) else 0.0
  }

  function Fit(xs: seq<real>, ys: seq<real>): Line
    requires |xs| == |ys| > 0
  {
    Line(Mean(ys) - Mul(Slope(xs, ys), Mean(xs)), Slope(xs, ys))
  }

  // xs = list(range(n))
  function Range(n: nat): (xs: seq<real>)
    ensures |xs| == n && forall i :: 0 <= i < n ==> xs[i] == i as real
  {
    if n == 0 then [] else Range(n - 1) + [(n - 1) as real]
  }

  // --------------------------------------------------- what a fit is judged by

  function SumOfResiduals(l: Line, xs: seq<real>, ys: seq<real>): real
    requires |xs| == |ys|
  {
    if xs == [] then 0.0
    else SumOfResiduals(l, xs[..|xs| - 1], ys[..|ys| - 1]) + (ys[|ys| - 1] - At(l, xs[|xs| - 1]))
  }

  function SquaredError(l: Line, xs: seq<real>, ys: seq<real>): real
    requires |xs| == |ys|
  {
    if xs == [] then 0.0
    else
      var r := ys[|ys| - 1] - At(l, xs[|xs| - 1]);
      SquaredError(l, xs[..|xs| - 1], ys[..|ys| - 1]) + Mul(r, r)
  }

  // The squared distance between two lines at the points.
  function Distance(l: Line, m: Line, xs: seq<real>): real {
    if xs == [] then 0.0
    else
      var gap := At(m, xs[|xs| - 1]) - At(l, xs[|xs| - 1]);
      Distance(l, m, xs[..|xs| - 1]) + Mul(gap, gap)
  }

  // ---------------------------------------------------------------- moments

  // How many points, and the sums of x, y, x x, x y and y y.
  datatype Moments = Moments(n: real, x: real, y: real, xx: real, xy: real, yy: real)

  function Add(m: Moments, x: real, y: real): Moments {
    Moments(m.n + 1.0, m.x + x, m.y + y, m.xx + x * x, m.xy + x * y, m.yy + y * y)
  }

  function MomentsOf(xs: seq<real>, ys: seq<real>): Moments
    requires |xs| == |ys|
  {
    if xs == [] then Moments(0.0, 0.0, 0.0, 0.0, 0.0, 0.0)
    else Add(MomentsOf(xs[..|xs| - 1], ys[..|ys| - 1]), xs[|xs| - 1], ys[|ys| - 1])
  }

  // Every sum over the points is a function of the moments.
  function ErrorFrom(l: Line, m: Moments): real {
    var a, b := l.intercept, l.slope;
    m.yy - 2.0 * (a * m.y + b * m.xy) + a * a * m.n + 2.0 * (a * b * m.x) + b * b * m.xx
  }

  function ResidualsFrom(l: Line, m: Moments): real { m.y - l.intercept * m.n - l.slope * m.x }

  function DistanceFrom(a: real, b: real, m: Moments): real {
    a * a * m.n + 2.0 * (a * b * m.x) + b * b * m.xx
  }

  function AroundFrom(m: Moments, cx: real): real { m.xx - 2.0 * (m.x * cx) + m.n * (cx * cx) }

  function CrossFrom(m: Moments, cx: real, cy: real): real { m.xy - m.x * cy - cx * m.y + m.n * (cx * cy) }

  lemma OnePointMore(l: Line, m: Moments, x: real, y: real)
    ensures ErrorFrom(l, Add(m, x, y)) == ErrorFrom(l, m) + Mul(y - At(l, x), y - At(l, x))
  {
  }

  lemma OneResidualMore(l: Line, m: Moments, x: real, y: real)
    ensures ResidualsFrom(l, Add(m, x, y)) == ResidualsFrom(l, m) + (y - At(l, x))
  {
  }

  lemma OneGapMore(l: Line, o: Line, m: Moments, x: real, y: real)
    ensures var a, b := o.intercept - l.intercept, o.slope - l.slope;
            DistanceFrom(a, b, Add(m, x, y)) == DistanceFrom(a, b, m) + Mul(At(o, x) - At(l, x), At(o, x) - At(l, x))
  {
    var a, b := o.intercept - l.intercept, o.slope - l.slope;
    assert At(o, x) - At(l, x) == a + b * x;
  }

  lemma OneDeviationMore(m: Moments, x: real, y: real, cx: real, cy: real)
    ensures AroundFrom(Add(m, x, y), cx) == AroundFrom(m, cx) + Mul(x - cx, x - cx)
    ensures CrossFrom(Add(m, x, y), cx, cy) == CrossFrom(m, cx, cy) + Mul(x - cx, y - cy)
  {
  }

  lemma {:induction false} SumsFromMoments(l: Line, o: Line, cx: real, cy: real, xs: seq<real>, ys: seq<real>)
    requires |xs| == |ys|
    ensures var m := MomentsOf(xs, ys);
            && SquaredError(l, xs, ys) == ErrorFrom(l, m)
            && SumOfResiduals(l, xs, ys) == ResidualsFrom(l, m)
            && Distance(l, o, xs) == DistanceFrom(o.intercept - l.intercept, o.slope - l.slope, m)
            && Around(xs, cx) == AroundFrom(m, cx) && Cross(xs, ys, cx, cy) == CrossFrom(m, cx, cy)
            && m.n == |xs| as real && m.x == Sum(xs) && m.y == Sum(ys)
    decreases |xs|
  {
    if xs != [] {
      var init, last := xs[..|xs| - 1], ys[..|ys| - 1];
      var x, y := xs[|xs| - 1], ys[|ys| - 1];
      SumsFromMoments(l, o, cx, cy, init, last);
      OnePointMore(l, MomentsOf(init, last), x, y);
      OneResidualMore(l, MomentsOf(init, last), x, y);
      OneGapMore(l, o, MomentsOf(init, last), x, y);
      OneDeviationMore(MomentsOf(init, last), x, y, cx, cy);
    }
  }

  // ------------------------------------------------------ normal equations

  ghost predicate Normal(l: Line, m: Moments) {
    m.y == l.intercept * m.n + l.slope * m.x && m.xy == l.intercept * m.x + l.slope * m.xx
  }

  lemma NormalFrom(l: Line, m: Moments, mx: real, my: real)
    requires Mul(m.n, mx) == m.x && Mul(m.n, my) == m.y
    requires Mul(l.slope, AroundFrom(m, mx)) == CrossFrom(m, mx, my)
    requires l.intercept == my - Mul(l.slope, mx)
    ensures Normal(l, m)
  {
    MeansReduce(m, mx, my);
    SlopeReduces(l.slope, m, mx, my);
  }

  lemma MeansReduce(m: Moments, mx: real, my: real)
    requires Mul(m.n, mx) == m.x && Mul(m.n, my) == m.y
    ensures AroundFrom(m, mx) == m.xx - Mul(m.x, mx)
    ensures CrossFrom(m, mx, my) == m.xy - Mul(m.x, my)
  {
    assert m.n * (mx * mx) == m.x * mx && m.n * (mx * my) == m.x * my && mx * m.y == m.x * my;
  }

  lemma SlopeReduces(b: real, m: Moments, mx: real, my: real)
    requires Mul(b, m.xx - Mul(m.x, mx)) == m.xy - Mul(m.x, my) && Mul(m.n, mx) == m.x && Mul(m.n, my) == m.y
    ensures Normal(Line(my - Mul(b, mx), b), m)
  {
  }

  lemma NormalIsBest(l: Line, o: Line, m: Moments)
    requires Normal(l, m)
    ensures ResidualsFrom(l, m) == 0.0
    ensures ErrorFrom(o, m) == ErrorFrom(l, m) + DistanceFrom(o.intercept - l.intercept, o.slope - l.slope, m)
  {
  }

  lemma Quotient(c: real, d: real)
    requires d != 0.0
    ensures Mul(c / d, d) == c
  {
  }

  lemma MeanTimes(ys: seq<real>)
    requires ys != []
    ensures Mul(|ys| as real, Mean(ys)) == Sum(ys)
  {
    Quotient(Sum(ys), |ys| as real);
  }

  lemma SlopeTimes(xs: seq<real>, ys: seq<real>)
    requires |xs| == |ys| > 0 && Denominator(xs) != 0.0
    ensures Mul(Slope(xs, ys), Around(xs, Mean(xs))) == Cross(xs, ys, Mean(xs), Mean(ys))
  {
    Quotient(Cross(xs, ys, Mean(xs), Mean(ys)), Denominator(xs));
  }

  lemma AroundMoments(xs: seq<real>, ys: seq<real>, cx: real, cy: real)
    requires |xs| == |ys|
    ensures var m := MomentsOf(xs, ys);
            && Around(xs, cx) == AroundFrom(m, cx) && Cross(xs, ys, cx, cy) == CrossFrom(m, cx, cy)
            && m.n == |xs| as real && m.x == Sum(xs) && m.y == Sum(ys)
  {
    var l := Line(0.0, 0.0);
    SumsFromMoments(l, l, cx, cy, xs, ys);
  }

  lemma FitIsNormal(xs: seq<real>, ys: seq<real>)
    requires |xs| == |ys| > 0 && Denominator(xs) != 0.0
    ensures Normal(Fit(xs, ys), MomentsOf(xs, ys))
  {
    var mx, my := Mean(xs), Mean(ys);
    AroundMoments(xs, ys, mx, my);
    SlopeTimes(xs, ys);
    MeanTimes(xs);
    MeanTimes(ys);
    NormalFrom(Fit(xs, ys), MomentsOf(xs, ys), mx, my);
  }

  // -------------------------------------------------------------- optimality

  lemma SquareNotNegative(d: real)
    ensures Mul(d, d) >= 0.0
    ensures d != 0.0 ==> Mul(d, d) > 0.0
  {
    if d != 0.0 {
      SameSign(d, d, Mul(d, d));
    }
  }

  lemma SameSign(a: real, b: real, c: real)
    requires ((a > 0.0 && b > 0.0) || (a < 0.0 && b < 0.0)) && c == a * b
    ensures c > 0.0
  {
  }

  lemma {:induction false} DistanceNotNegative(l: Line, m: Line, xs: seq<real>)
    ensures Distance(l, m, xs) >= 0.0
    decreases |xs|
  {
    if xs != [] {
      DistanceNotNegative(l, m, xs[..|xs| - 1]);
      SquareNotNegative(At(m, xs[|xs| - 1]) - At(l, xs[|xs| - 1]));
    }
  }

  // Lines that differ at some point are a positive distance apart.
  lemma {:induction false} DistancePositive(l: Line, m: Line, xs: seq<real>, i: nat)
    requires i < |xs| && At(l, xs[i]) != At(m, xs[i])
    ensures Distance(l, m, xs) > 0.0
    decreases |xs|
  {
    SquareNotNegative(At(m, xs[|xs| - 1]) - At(l, xs[|xs| - 1]));
    if i < |xs| - 1 {
      DistancePositive(l, m, xs[..|xs| - 1], i);
    } else {
      DistanceNotNegative(l, m, xs[..|xs| - 1]);
    }
  }

  lemma LinesDiffer(l: Line, m: Line)
    requires l != m
    ensures At(l, 0 as real) != At(m, 0 as real) || At(l, 1 as real) != At(m, 1 as real)
  {
  }

  // The fitted line's residuals sum to zero, and any other line adds to its
  // squared error the squared distance between the two.
  lemma FitIsLeastSquares(xs: seq<real>, ys: seq<real>, o: Line)
    requires |xs| == |ys| > 0 && Denominator(xs) != 0.0
    ensures SumOfResiduals(Fit(xs, ys), xs, ys) == 0.0
    ensures SquaredError(o, xs, ys) == SquaredError(Fit(xs, ys), xs, ys) + Distance(Fit(xs, ys), o, xs)
    ensures SquaredError(Fit(xs, ys), xs, ys) <= SquaredError(o, xs, ys)
  {
    var l := Fit(xs, ys);
    FitIsNormal(xs, ys);
    SumsFromMoments(l, o, 0.0, 0.0, xs, ys);
    SumsFromMoments(o, o, 0.0, 0.0, xs, ys);
    NormalIsBest(l, o, MomentsOf(xs, ys));
    DistanceNotNegative(l, o, xs);
  }

  lemma {:induction false} DenominatorPositive(n: nat, c: real)
    requires n >= 2
    ensures Around(Range(n), c) > 0.0
  {
    var xs := Range(n);
    assert xs[..n - 1] == Range(n - 1);
    SquareNotNegative(xs[n - 1] - c);
    if n > 2 {
      DenominatorPositive(n - 1, c);
    } else {
      assert xs[..1][..0] == [];
      SquareNotNegative(xs[0] - c);
      assert Around(xs[..1], c) == Mul(xs[0] - c, xs[0] - c);
      assert xs[0] == 0 as real && xs[1] == 1 as real;
    }
  }

  // For the months of a report, two at least: the division is always possible,
  // the residuals cancel, and every other line fits strictly worse.
  lemma MonthsTrend(ys: seq<real>, o: Line)
    requires |ys| >= 2
    ensures Denominator(Range(|ys|)) > 0.0
    ensures SumOfResiduals(Fit(Range(|ys|), ys), Range(|ys|), ys) == 0.0
    ensures o != Fit(Range(|ys|), ys) ==>
      SquaredError(Fit(Range(|ys|), ys), Range(|ys|), ys) < SquaredError(o, Range(|ys|), ys)
  {
    var xs := Range(|ys|);
    DenominatorPositive(|ys|, Mean(xs));
    FitIsLeastSquares(xs, ys, o);
    if o != Fit(xs, ys) {
      LinesDiffer(Fit(xs, ys), o);
      DistancePositive(Fit(xs, ys), o, xs, if At(Fit(xs, ys), 0 as real) != At(o, 0 as real) then 0 else 1);
    }
  }

  // ------------------------------------------------------------- the report

  datatype Row = Row(calls: Option<nat>, hours: Option<real>)

  datatype Reported = Reported(row: Row, cumulativeCalls: nat, cumulativeHours: real)

  function Hours(rows: seq<Row>): (ys: seq<real>)
    ensures |ys| == |rows|
  {
    seq(|rows|, i requires 0 <= i < |rows| => ValueOr(rows[i].hours, 0.0))
  }

  function CallsUpTo(rows: seq<Row>, n: nat): nat
    requires n <= |rows|
  {
    if n == 0 then 0
    else CallsUpTo(rows, n - 1) + ValueOr(rows[n - 1].calls, 0)
  }

  lemma SumStep(ys: seq<real>, k: nat)
    requires k < |ys|
    ensures Sum(ys[..k + 1]) == Sum(ys[..k]) + ys[k]
  {
    assert ys[..k + 1][..k] == ys[..k];
  }

  // A month's line of the report.
  ghost predicate Totalled(rows: seq<Row>, ys: seq<real>, i: nat, r: Reported)
    requires i < |rows| == |ys|
  {
    && r.row == rows[i] && r.cumulativeCalls == CallsUpTo(rows, i + 1)
    && r.cumulativeHours == Round1(Sum(ys[..i + 1])) && Abs(r.cumulativeHours - Sum(ys[..i + 1])) <= 0.05
  }

  // A month adds its calls and, roundings apart, its hours to the month before;
  // an unknown figure adds nothing.
  predicate Adds(row: Row, before: Option<Reported>, now: Reported) {
    var calls, hours := match before case Some(b) => b.cumulativeCalls case None => 0,
                        match before case Some(b) => b.cumulativeHours case None => 0.0;
    && (match row.calls case Some(n) => now.cumulativeCalls == calls + n case None => now.cumulativeCalls == calls)
    && (match row.hours case Some(h) => Abs(now.cumulativeHours - hours - h) <= 0.1
                        case None => Abs(now.cumulativeHours - hours) <= 0.1)
  }

  predicate AddsAt(rows: seq<Row>, months: seq<Reported>, i: nat)
    requires i < |rows| && i < |months|
  {
    Adds(rows[i], if i == 0 then None else Some(months[i - 1]), months[i])
  }

  // Running totals up to each month.
  method Totals(rows: seq<Row>) returns (months: seq<Reported>)
    ensures |months| == |rows|
    ensures forall i :: 0 <= i < |rows| ==> Totalled(rows, Hours(rows), i, months[i])
    ensures forall i :: 0 <= i < |rows| ==> AddsAt(rows, months, i)
  {
    months := [];
    var calls, hours := 0, 0.0;
    ghost var ys := Hours(rows);
    for k := 0 to |rows|
      invariant |months| == k && calls == CallsUpTo(rows, k) && hours == Sum(ys[..k])
      invariant forall i :: 0 <= i < k ==> Totalled(rows, ys, i, months[i])
      invariant if k == 0 then calls == 0 && hours == 0.0
                else Abs(months[k - 1].cumulativeHours - hours) <= 0.05 && months[k - 1].cumulativeCalls == calls
      invariant forall i :: 0 <= i < k ==> AddsAt(rows, months, i)
    {
      SumStep(ys, k);
      ghost var before := if k == 0 then None else Some(months[k - 1]);
      MonthAdds(rows[k], before, calls, hours);
      calls := calls + ValueOr(rows[k].calls, 0);
      hours := hours + ValueOr(rows[k].hours, 0.0);
      Round1IsNear(hours);
      OneMonthMore(rows, months, Reported(rows[k], calls, Round1(hours)));
      months := months + [Reported(rows[k], calls, Round1(hours))];
    }
  }

  lemma MonthAdds(row: Row, before: Option<Reported>, calls: nat, hours: real)
    requires match before
             case Some(b) => b.cumulativeCalls == calls && Abs(b.cumulativeHours - hours) <= 0.05
             case None => calls == 0 && hours == 0.0
    ensures var now := hours + ValueOr(row.hours, 0.0);
            Adds(row, before, Reported(row, calls + ValueOr(row.calls, 0), Round1(now)))
  {
    Round1IsNear(hours + ValueOr(row.hours, 0.0));
  }

  lemma OneMonthMore(rows: seq<Row>, months: seq<Reported>, r: Reported)
    requires |months| < |rows| && forall i :: 0 <= i < |months| ==> AddsAt(rows, months, i)
    requires Adds(rows[|months|], if months == [] then None else Some(months[|months| - 1]), r)
    ensures forall i :: 0 <= i < |months| + 1 ==> AddsAt(rows, months + [r], i)
  {
    forall i | 0 <= i < |months| + 1
      ensures AddsAt(rows, months + [r], i)
    {
      assert i < |months| ==> AddsAt(rows, months, i);
    }
  }

  // A month's point of the drawn trend.
  ghost predicate Drawn(ys: seq<real>, i: nat, point: real)
    requires ys != []
  {
    var y := At(Fit(Range(|ys|), ys), i as real);
    point == Round1(y) && Abs(point - y) <= 0.05
  }

  // Each trend point is the least-squares line rounded to a tenth; a single
  // month has no trend.
  method TrendOf(ys: seq<real>) returns (trend: seq<real>)
    ensures |trend| == if |ys| >= 2 then |ys| else 0
    ensures forall i :: 0 <= i < |trend| ==> Drawn(ys, i, trend[i])
  {
    trend := [];
    if |ys| >= 2 {
      var line := Fit(Range(|ys|), ys);
      for k := 0 to |ys|
        invariant |trend| == k
        invariant forall i :: 0 <= i < k ==> Drawn(ys, i, trend[i])
      {
        Round1IsNear(At(line, k as real));
        trend := trend + [Round1(At(line, k as real))];
      }
    }
  }
}
