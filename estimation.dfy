/** The estimation rules of the dashboard (dashboard/app.py): summary statistics, the
    quarter-over-quarter trend, panel production and count, array peak power and savings. */
module Estimation {
  import opened Wrappers
  import opened RealMath
  import opened Stats
  import Loader
  import Months

  /** The panel ratings the sidebar offers, in Wp. */
  const PanelOptions: set<int> := {330, 370, 400, 450, 500}

  /** The sidebar parameters: cost per kWh, coverage in percent, peak sun hours per day,
      panel rating in Wp and the moving-average window in months. */
  datatype Params = Params(costKwh: real, coverage: int, hsp: real, wp: int, window: nat)

  /** The ranges the sidebar widgets allow. */
  predicate ValidParams(p: Params)
  {
    p.costKwh >= 0.0 && 10 <= p.coverage <= 100 && 3.0 <= p.hsp <= 6.0
    && p.wp in PanelOptions && 2 <= p.window <= 6
  }

  /** The values the widgets start with. */
  const Defaults := Params(650.0, 80, 4.0, 400, 3)

  /** The `kwh` column of a loaded series. */
  function Column(series: seq<Loader.Record>): (kwh: seq<Option<real>>)
    ensures |kwh| == |series|
  {
    if series == [] then [] else [series[0].kwh] + Column(series[1..])
  }

  /** Entry `i` of the column is the `kwh` of row `i`. */
  lemma {:induction false} ColumnAt(series: seq<Loader.Record>)
    ensures forall i :: 0 <= i < |series| ==> Column(series)[i] == series[i].kwh
  {
    if series != [] {
      ColumnAt(series[1..]);
    }
  }

  /** The column of a series with one more row in front. */
  lemma ColumnCons(y: Loader.Record, t: seq<Loader.Record>)
    ensures Column([y] + t) == [y.kwh] + Column(t)
  {
    assert ([y] + t)[0] == y && ([y] + t)[1..] == t;
  }

  /** A row in front adds its value to the sum and its presence to the count. */
  lemma ColumnConsTotals(y: Loader.Record, t: seq<Loader.Record>)
    ensures Sum(Present(Column([y] + t))) == ValueOf(y.kwh) + Sum(Present(Column(t)))
    ensures |Present(Column([y] + t))| == CountOf(y.kwh) + |Present(Column(t))|
  {
    ColumnCons(y, t);
    var c := [y.kwh] + Column(t);
    assert c[0] == y.kwh && c[1..] == Column(t);
    Shrink(c);
  }

  /** Inserting a row by month adds its value to the sum and its presence to the count,
      wherever it lands. */
  lemma {:induction false} InsertTotals(x: Loader.Record, s: seq<Loader.Record>)
    ensures Sum(Present(Column(Loader.Insert(x, s)))) == ValueOf(x.kwh) + Sum(Present(Column(s)))
    ensures |Present(Column(Loader.Insert(x, s)))| == CountOf(x.kwh) + |Present(Column(s))|
  {
    if s == [] {
      assert Loader.Insert(x, s) == [x] + s;
      ColumnConsTotals(x, s);
    } else if Months.Index(x.fecha) <= Months.Index(s[0].fecha) {
      ColumnConsTotals(x, s);
    } else {
      InsertTotals(x, s[1..]);
      ColumnConsTotals(s[0], Loader.Insert(x, s[1..]));
      ColumnConsTotals(s[0], s[1..]);
      assert s == [s[0]] + s[1..];
    }
  }

  /** Sorting by month keeps the sum and the count of the present `kwh` values. */
  lemma {:induction false} SortKeepsTotals(s: seq<Loader.Record>)
    ensures Sum(Present(Column(Loader.SortByDate(s)))) == Sum(Present(Column(s)))
    ensures |Present(Column(Loader.SortByDate(s)))| == |Present(Column(s))|
  {
    if s != [] {
      SortKeepsTotals(s[1..]);
      InsertTotals(s[0], Loader.SortByDate(s[1..]));
      ColumnConsTotals(s[0], s[1..]);
      assert s == [s[0]] + s[1..];
    }
  }

  /** A value is present in the sorted column exactly when it is present in the column. */
  lemma SortKeepsValues(s: seq<Loader.Record>)
    ensures forall x :: Some(x) in Column(Loader.SortByDate(s)) <==> Some(x) in Column(s)
  {
    var sorted := Loader.SortByDate(s);
    forall x ensures Some(x) in Column(sorted) <==> Some(x) in Column(s) {
      if Some(x) in Column(sorted) {
        ValueCarried(sorted, s, x);
      }
      if Some(x) in Column(s) {
        ValueCarried(s, sorted, x);
      }
    }
  }

  /** A rearrangement of the rows carries each present value along. */
  lemma ValueCarried(a: seq<Loader.Record>, b: seq<Loader.Record>, x: real)
    requires multiset(a) == multiset(b) && Some(x) in Column(a)
    ensures Some(x) in Column(b)
  {
    ColumnAt(a);
    ColumnAt(b);
    var i :| 0 <= i < |a| && Column(a)[i] == Some(x);
    assert a[i] in multiset(b);
    var j :| 0 <= j < |b| && b[j] == a[i];
    assert Column(b)[j] == Some(x);
  }

  /** The mean, maximum and minimum the dashboard shows for the loaded series are those of
      the coerced `kwh` values in file order: sorting by month does not move them. */
  lemma LoadedAggregates(data: seq<Loader.RawRecord>)
    requires Loader.Load(Some(data)).Success?
    ensures var loaded := Column(Loader.Load(Some(data)).value);
            var inFileOrder := Column(Loader.CoerceAll(Loader.Resolve(data).value));
            Mean(loaded) == Mean(inFileOrder) && Max(loaded) == Max(inFileOrder) && Min(loaded) == Min(inFileOrder)
  {
    var rows := Loader.Resolve(data).value;
    var coerced := Loader.CoerceAll(rows);
    Loader.LoadValue(Some(data));
    Loader.CoerceSort(rows);
    assert Loader.Load(Some(data)).value == Loader.SortByDate(coerced);
    SortKeepsTotals(coerced);
    SortKeepsValues(coerced);
    ExtremesDetermined(Column(Loader.SortByDate(coerced)), Column(coerced));
  }

  // ---------------------------------------------------------------------------------------
  // Trend (`tendencia_pct`)

  /** Mean of the last three records: missing only when all three are. */
  function Recent(kwh: seq<Option<real>>): (r: Option<real>)
    requires |kwh| >= 6
    ensures r.None? <==> forall i :: |kwh| - 3 <= i < |kwh| ==> kwh[i].None?
  {
    var w := kwh[|kwh| - 3..];
    assert forall i :: |kwh| - 3 <= i < |kwh| ==> kwh[i] == w[i - (|kwh| - 3)];
    Mean(w)
  }

  /** Mean of the three records before those: missing only when all three are. */
  function Prior(kwh: seq<Option<real>>): (r: Option<real>)
    requires |kwh| >= 6
    ensures r.None? <==> forall i :: |kwh| - 6 <= i < |kwh| - 3 ==> kwh[i].None?
  {
    var w := kwh[|kwh| - 6..|kwh| - 3];
    assert forall i :: |kwh| - 6 <= i < |kwh| - 3 ==> kwh[i] == w[i - (|kwh| - 6)];
    Mean(w)
  }

  /** Percentage change of the last three months against the three before; undefined with
      fewer than six records, when the earlier mean is zero, and when either mean is missing. */
  function Trend(kwh: seq<Option<real>>): (r: Option<real>)
    ensures |kwh| < 6 ==> r.None?
    ensures |kwh| >= 6 ==>
              (r.Some? <==> Recent(kwh).Some? && Prior(kwh).Some? && Prior(kwh).value != 0.0)
  {
    if |kwh| < 6 then None
    else
      match (Recent(kwh), Prior(kwh))
      case (Some(recent), Some(prior)) =>
        if prior == 0.0 then None else Some((recent - prior) / prior * 100.0)
      case _ => None
  }

  /** With a non-zero earlier mean the trend scales the difference by the earlier mean; with
      a positive one it is positive exactly when the recent mean is higher, and zero exactly
      when they are equal. */
  lemma TrendSign(kwh: seq<Option<real>>)
    requires |kwh| >= 6 && Recent(kwh).Some? && Prior(kwh).Some? && Prior(kwh).value != 0.0
    ensures Trend(kwh).Some?
    ensures Trend(kwh).value * Prior(kwh).value == (Recent(kwh).value - Prior(kwh).value) * 100.0
    ensures Prior(kwh).value > 0.0 ==> (Trend(kwh).value > 0.0 <==> Recent(kwh).value > Prior(kwh).value)
    ensures Trend(kwh).value == 0.0 <==> Recent(kwh).value == Prior(kwh).value
  {
    var recent, prior := Recent(kwh).value, Prior(kwh).value;
    var t := Trend(kwh).value;
    assert t == (recent - prior) / prior * 100.0;
    QuotientSign(recent - prior, prior);
  }

  lemma QuotientSign(d: real, p: real)
    requires p != 0.0
    ensures d / p * 100.0 * p == d * 100.0
    ensures p > 0.0 ==> (d / p * 100.0 > 0.0 <==> d > 0.0)
    ensures d / p * 100.0 == 0.0 <==> d == 0.0
  {
    assert d / p * p == d;
  }

  // ---------------------------------------------------------------------------------------
  // Sizing

  /** Monthly energy of one panel in kWh: rating in kW times sun hours times 30 days. */
  function PanelProduction(wp: int, hsp: real): (r: real)
    ensures wp > 0 && hsp > 0.0 ==> r > 0.0
  {
    (wp as real / 1000.0) * hsp * 30.0
  }

  /** For every panel and sun-hours setting of the sidebar, a panel produces between
      29.7 and 90 kWh a month, so the panel count never divides by zero. */
  lemma ProductionRange(wp: int, hsp: real)
    requires wp in PanelOptions && 3.0 <= hsp <= 6.0
    ensures 29.7 <= PanelProduction(wp, hsp) <= 90.0
  {
    var k := wp as real / 1000.0;
    assert 0.33 <= k <= 0.5;
    assert k * 3.0 <= k * hsp <= k * 6.0;
  }

  /** Energy to cover each month: the mean consumption times the coverage fraction. It is
      never negative for a non-negative mean, never more than the mean, and all of it at 100 %. */
  function Target(mean: real, coverage: int): (r: real)
    ensures mean >= 0.0 && coverage >= 0 ==> r >= 0.0
    ensures mean >= 0.0 && coverage <= 100 ==> r <= mean
    ensures coverage == 100 ==> r == mean
  {
    mean * (coverage as real / 100.0)
  }

  /** Panels needed: the least whole number of panels whose production reaches the target. */
  function PanelsNeeded(target: real, production: real): (n: int)
    requires production > 0.0
    ensures n as real * production >= target
    ensures (n - 1) as real * production < target
    ensures target >= 0.0 ==> n >= 0
  {
    var n := Ceil(target / production);
    ScaleByPositive(target / production, n, production);
    n
  }

  lemma ScaleByPositive(q: real, n: int, p: real)
    requires p > 0.0 && q <= n as real && (n - 1) as real < q
    ensures n as real * p >= q * p && (n - 1) as real * p < q * p && q * p * (1.0 / p) == q
  {
  }

  /** Nominal peak power of the array in kWp; never negative for a non-negative count. */
  function PeakPower(panels: int, wp: int): (r: real)
    ensures panels >= 0 && wp >= 0 ==> r >= 0.0
  {
    panels as real * wp as real / 1000.0
  }

  /** The array the dashboard recommends, run for 30 days at the chosen sun hours, covers the
      target, and one panel fewer would not. */
  lemma ArrayCoversTarget(mean: real, p: Params)
    requires ValidParams(p)
    ensures var production := PanelProduction(p.wp, p.hsp);
            production > 0.0 &&
            var n := PanelsNeeded(Target(mean, p.coverage), production);
            PeakPower(n, p.wp) * p.hsp * 30.0 >= Target(mean, p.coverage) &&
            PeakPower(n - 1, p.wp) * p.hsp * 30.0 < Target(mean, p.coverage)
  {
    ProductionRange(p.wp, p.hsp);
    var production := PanelProduction(p.wp, p.hsp);
    var n := PanelsNeeded(Target(mean, p.coverage), production);
    PeakIsProduction(n, p.wp, p.hsp);
    PeakIsProduction(n - 1, p.wp, p.hsp);
  }

  lemma PeakIsProduction(n: int, wp: int, hsp: real)
    ensures PeakPower(n, wp) * hsp * 30.0 == n as real * PanelProduction(wp, hsp)
  {
  }

  /** Monthly savings: the covered energy priced at the cost per kWh; never negative for a
      non-negative mean and cost. */
  function Savings(mean: real, coverage: int, costKwh: real): (r: real)
    ensures mean >= 0.0 && coverage >= 0 && costKwh >= 0.0 ==> r >= 0.0
  {
    Target(mean, coverage) * costKwh
  }

  /** Savings are never negative for a non-negative mean, never exceed the whole bill, and
      grow with the coverage. */
  lemma SavingsBounds(mean: real, coverage: int, higher: int, costKwh: real)
    requires mean >= 0.0 && costKwh >= 0.0 && 10 <= coverage <= higher <= 100
    ensures 0.0 <= Savings(mean, coverage, costKwh) <= Savings(mean, higher, costKwh)
    ensures Savings(mean, higher, costKwh) <= mean * costKwh
  {
    var bill := mean * costKwh;
    var low, high := coverage as real / 100.0, higher as real / 100.0;
    assert Savings(mean, coverage, costKwh) == bill * low by { Reassociate(mean, low, costKwh); }
    assert Savings(mean, higher, costKwh) == bill * high by { Reassociate(mean, high, costKwh); }
    assert bill >= 0.0 by { ScaleMonotone(mean, 0.0, costKwh); }
    ScaleMonotone(bill, low, high);
    ScaleMonotone(bill, high, 1.0);
    assert bill * 1.0 == bill;
  }

  lemma Reassociate(a: real, f: real, c: real)
    ensures a * f * c == a * c * f
  {
  }

  lemma ScaleMonotone(b: real, x: real, y: real)
    requires b >= 0.0 && 0.0 <= x <= y
    ensures 0.0 <= b * x <= b * y
  {
  }

  // ---------------------------------------------------------------------------------------
  // The report

  /** Everything the dashboard shows for one series and one set of parameters. A missing
      mean (no present value) leaves the dependent figures missing. */
  datatype Report = Report(
    mean: Option<real>, max: Option<real>, min: Option<real>, trend: Option<real>,
    production: real, panels: Option<int>, peakPower: Option<real>, savings: Option<real>,
    movingAverage: seq<Option<real>>)

  function Estimate(kwh: seq<Option<real>>, p: Params): (r: Report)
    requires ValidParams(p)
    ensures r.mean == Mean(kwh) && r.max == Max(kwh) && r.min == Min(kwh) && r.trend == Trend(kwh)
    ensures r.production == PanelProduction(p.wp, p.hsp) && r.production > 0.0
    ensures r.mean.Some? ==>
              r.panels == Some(PanelsNeeded(Target(r.mean.value, p.coverage), r.production)) &&
              r.peakPower == Some(PeakPower(r.panels.value, p.wp)) &&
              r.savings == Some(Savings(r.mean.value, p.coverage, p.costKwh))
    ensures r.mean.None? ==> r.panels.None? && r.peakPower.None? && r.savings.None?
    ensures r.panels.Some? <==> r.mean.Some?
    ensures r.mean.Some? ==> r.min.Some? && r.max.Some? && r.min.value <= r.mean.value <= r.max.value
    ensures r.mean.Some? && r.mean.value >= 0.0 ==>
              r.panels.Some? && r.panels.value >= 0 && r.savings.Some? && r.savings.value >= 0.0
    ensures |r.movingAverage| == |kwh|
    ensures forall i :: 0 <= i < |kwh| ==> r.movingAverage[i] == RollingAt(kwh, p.window, i)
  {
    ProductionRange(p.wp, p.hsp);
    var mean := Mean(kwh);
    assert mean.Some? ==> Min(kwh).Some? && Max(kwh).Some? && Min(kwh).value <= mean.value <= Max(kwh).value by {
      if mean.Some? { MeanBetween(kwh); }
    }
    var production := PanelProduction(p.wp, p.hsp);
    var panels := if mean.Some? then Some(PanelsNeeded(Target(mean.value, p.coverage), production)) else None;
    Report(
      mean, Max(kwh), Min(kwh), Trend(kwh),
      production, panels,
      if panels.Some? then Some(PeakPower(panels.value, p.wp)) else None,
      if mean.Some? then Some(Savings(mean.value, p.coverage, p.costKwh)) else None,
      seq(|kwh|, i requires 0 <= i < |kwh| => RollingAt(kwh, p.window, i)))
  }

  // ---------------------------------------------------------------------------------------
  // The report for the sample series with the default parameters

  /** The `kwh` column of the sample series. */
  const SampleKwh: seq<Option<real>> :=
    [Some(410.2), Some(398.7), Some(450.1), Some(430.0), Some(470.8), Some(455.6)]

  lemma SampleColumn()
    ensures Column(Loader.SampleSeries) == SampleKwh
  {
    var c := Column(Loader.SampleSeries);
    ColumnAt(Loader.SampleSeries);
    forall i | 0 <= i < 6 ensures c[i] == SampleKwh[i] {
      assert c[i] == Loader.SampleSeries[i].kwh;
    }
  }

  lemma SamplePresent()
    ensures Present(SampleKwh) == [410.2, 398.7, 450.1, 430.0, 470.8, 455.6]
  {
    var s := SampleKwh;
    assert Present(s[5..]) == [455.6];
    assert Present(s[4..]) == [470.8, 455.6];
    assert Present(s[3..]) == [430.0, 470.8, 455.6];
    assert Present(s[2..]) == [450.1, 430.0, 470.8, 455.6];
    assert Present(s[1..]) == [398.7, 450.1, 430.0, 470.8, 455.6];
  }

  lemma SampleMean()
    ensures Mean(SampleKwh) == Some(435.9)
  {
    SamplePresent();
    var p: seq<real> := [410.2, 398.7, 450.1, 430.0, 470.8, 455.6];
    assert Sum(p[5..]) == 455.6;
    assert Sum(p[4..]) == 926.4;
    assert Sum(p[3..]) == 1356.4;
    assert Sum(p[2..]) == 1806.5;
    assert Sum(p[1..]) == 2205.2;
    assert Sum(p) == 2615.4;
  }

  lemma SampleExtremes()
    ensures Max(SampleKwh) == Some(470.8)
    ensures Min(SampleKwh) == Some(398.7)
  {
    var s := SampleKwh;
    assert Max(s[5..]) == Some(455.6) && Min(s[5..]) == Some(455.6);
    assert Max(s[4..]) == Some(470.8) && Min(s[4..]) == Some(455.6);
    assert Max(s[3..]) == Some(470.8) && Min(s[3..]) == Some(430.0);
    assert Max(s[2..]) == Some(470.8) && Min(s[2..]) == Some(430.0);
    assert Max(s[1..]) == Some(470.8) && Min(s[1..]) == Some(398.7);
  }

  /** The last quarter of the sample averages 1356.4 / 3 kWh against 1259.0 / 3 before it:
      a rise of 9740 / 1259 percent (about 7.7 %). */
  lemma SampleTrend()
    ensures Trend(SampleKwh) == Some(9740.0 / 1259.0)
  {
    SampleRecent();
    SamplePrior();
  }

  lemma SampleRecent()
    ensures Recent(SampleKwh) == Some(1356.4 / 3.0)
  {
    var recent := SampleKwh[3..];
    assert Present(recent[2..]) == [455.6];
    assert Present(recent[1..]) == [470.8, 455.6];
    assert Present(recent) == [430.0, 470.8, 455.6];
    var rp: seq<real> := [430.0, 470.8, 455.6];
    assert Sum(rp[2..]) == 455.6 && Sum(rp[1..]) == 926.4 && Sum(rp) == 1356.4;
  }

  lemma SamplePrior()
    ensures Prior(SampleKwh) == Some(1259.0 / 3.0)
  {
    var prior := SampleKwh[0..3];
    assert Present(prior[2..]) == [450.1];
    assert Present(prior[1..]) == [398.7, 450.1];
    assert Present(prior) == [410.2, 398.7, 450.1];
    var pp: seq<real> := [410.2, 398.7, 450.1];
    assert Sum(pp[2..]) == 450.1 && Sum(pp[1..]) == 848.8 && Sum(pp) == 1259.0;
  }

  /** With the default parameters the sample needs 8 panels of 400 Wp (a 3.2 kWp array) to
      cover 80 % of its 435.9 kWh mean, saving 226668 a month at 650 per kWh. */
  lemma SampleSizing()
    ensures PanelProduction(Defaults.wp, Defaults.hsp) == 48.0
    ensures Target(435.9, Defaults.coverage) == 348.72
    ensures PanelsNeeded(348.72, 48.0) == 8
    ensures PeakPower(8, Defaults.wp) == 3.2
    ensures Savings(435.9, Defaults.coverage, Defaults.costKwh) == 226668.0
  {
    var n := PanelsNeeded(348.72, 48.0);
    assert 7.0 * 48.0 < 348.72 <= 8.0 * 48.0;
  }

  lemma SampleReport()
    ensures var r := Estimate(SampleKwh, Defaults);
            r.mean == Some(435.9) && r.max == Some(470.8) && r.min == Some(398.7)
            && r.trend == Some(9740.0 / 1259.0) && r.production == 48.0
            && r.panels == Some(8) && r.peakPower == Some(3.2) && r.savings == Some(226668.0)
  {
    SampleMean();
    SampleExtremes();
    SampleTrend();
    SampleSizing();
  }
}
