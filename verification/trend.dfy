/**
 The deep dive into the focused country: for each of the six age bands a
 bar chart of its rates over the years and an indicator pairing the rate at
 the latest recorded year with the rate at the earliest one.
 */
module Trend {
  import opened Records
  import opened Focus

  /** What the view hands to the chart layer: a bar series or an indicator pair. */
  datatype Figure =
    | Bar(band: Band, series: seq<Record>)
    | Indicator(band: Band, value: int, reference: int)

  /** `s["year"].min()` of a non-empty frame. */
  function EarliestYear(s: seq<Record>): (y: int)
    requires |s| > 0
    ensures forall i :: 0 <= i < |s| ==> y <= s[i].year
  {
    if |s| == 1 then s[0].year
    else
      var rest := EarliestYear(s[1..]);
      if s[0].year <= rest then s[0].year else rest
  }

  /** `s["year"].max()` of a non-empty frame. */
  function LatestYear(s: seq<Record>): (y: int)
    requires |s| > 0
    ensures forall i :: 0 <= i < |s| ==> s[i].year <= y
  {
    if |s| == 1 then s[0].year
    else
      var rest := LatestYear(s[1..]);
      if s[0].year >= rest then s[0].year else rest
  }

  /** Both bounds are years some row of the frame carries. */
  lemma {:induction false} YearBoundsAttained(s: seq<Record>)
    requires |s| > 0
    ensures exists i :: 0 <= i < |s| && s[i].year == EarliestYear(s)
    ensures exists i :: 0 <= i < |s| && s[i].year == LatestYear(s)
  {
    if |s| > 1 {
      YearBoundsAttained(s[1..]);
      var i :| 0 <= i < |s| - 1 && s[1..][i].year == EarliestYear(s[1..]);
      var j :| 0 <= j < |s| - 1 && s[1..][j].year == LatestYear(s[1..]);
      assert s[i + 1] == s[1..][i] && s[j + 1] == s[1..][j];
      assert s[0].year == EarliestYear(s) || s[i + 1].year == EarliestYear(s);
      assert s[0].year == LatestYear(s) || s[j + 1].year == LatestYear(s);
    } else {
      assert s[0].year == EarliestYear(s) && s[0].year == LatestYear(s);
    }
  }

  /** The focused country's rows in one band, in frame order (main.py:437, 446). */
  function BandSeries(df: seq<Record>, country: string, band: Band): (s: seq<Record>)
    ensures forall x :: x in s <==> x in df && x.name == country && x.age == band
  {
    Where(Where(df, CountryIs(country)), AgeIs(band))
  }

  /**
   `int(frame['rate'].values)` needs exactly one row at the earliest and
   exactly one at the latest year of the band's series.
   */
  predicate Ready(s: seq<Record>)
  {
    |s| > 0 && CountAt(s, EarliestYear(s)) == 1 && CountAt(s, LatestYear(s)) == 1
  }

  /** The number of rows of `s` in year y. */
  function CountAt(s: seq<Record>, y: int): nat
  {
    if s == [] then 0 else (if s[0].year == y then 1 else 0) + CountAt(s[1..], y)
  }

  /** The rows selected by `year == y` are as many as CountAt says. */
  lemma {:induction false} CountAtWhere(s: seq<Record>, y: int)
    ensures |Where(s, YearIs(y))| == CountAt(s, y)
  {
    if s != [] {
      CountAtWhere(s[1..], y);
    }
  }

  /** Every band's series of the country is Ready. */
  predicate TrendReady(df: seq<Record>, country: string)
  {
    forall b: Band {:trigger Ready(BandSeries(df, country, b))} :: Ready(BandSeries(df, country, b))
  }

  function TrendBar(df: seq<Record>, country: string, band: Band): Figure
  {
    Bar(band, BandSeries(df, country, band))
  }

  /**
   The indicator of one band: the truncated rate of the series' row at its
   latest year as value, of its row at its earliest year as reference.
   */
  function TrendIndicator(df: seq<Record>, country: string, band: Band): (f: Figure)
    requires Ready(BandSeries(df, country, band))
    ensures f.Indicator? && f.band == band
  {
    var s := BandSeries(df, country, band);
    var atMin := Where(s, YearIs(EarliestYear(s)));
    var atMax := Where(s, YearIs(LatestYear(s)));
    CountAtWhere(s, LatestYear(s));
    CountAtWhere(s, EarliestYear(s));
    Indicator(band, Trunc(atMax[0].rate), Trunc(atMin[0].rate))
  }

  /**
   Every row of the band's series lies between its earliest and latest
   year; the indicator's value is the truncated rate of the (only) row at
   the latest year and its reference that of the (only) row at the earliest.
   */
  lemma IndicatorPairsEnds(df: seq<Record>, country: string, band: Band)
    requires Ready(BandSeries(df, country, band))
    ensures var s := BandSeries(df, country, band);
            forall x :: x in s ==> EarliestYear(s) <= x.year <= LatestYear(s)
    ensures var s := BandSeries(df, country, band);
            forall x :: x in s && x.year == LatestYear(s) ==> TrendIndicator(df, country, band).value == Trunc(x.rate)
    ensures var s := BandSeries(df, country, band);
            forall x :: x in s && x.year == EarliestYear(s) ==> TrendIndicator(df, country, band).reference == Trunc(x.rate)
  {
    var s := BandSeries(df, country, band);
    CountAtWhere(s, LatestYear(s));
    CountAtWhere(s, EarliestYear(s));
    OnlyRowAt(s, LatestYear(s));
    OnlyRowAt(s, EarliestYear(s));
    forall x | x in s ensures EarliestYear(s) <= x.year <= LatestYear(s) {
      var i :| 0 <= i < |s| && s[i] == x;
    }
  }

  /** When one row of `s` has year y, every row of `s` with year y is that row. */
  lemma OnlyRowAt(s: seq<Record>, y: int)
    requires |Where(s, YearIs(y))| == 1
    ensures forall x :: x in s && x.year == y ==> x == Where(s, YearIs(y))[0]
  {
    var w := Where(s, YearIs(y));
    forall x | x in s && x.year == y ensures x == w[0] {
      assert YearIs(y).Holds(x);
      assert x in w;
    }
  }

  lemma TakeAll<T>(s: seq<T>)
    ensures s[..|s|] == s
  {
  }

  /** Python's `s[start::2]`. */
  function EveryOther<T>(s: seq<T>, start: nat): (r: seq<T>)
    ensures |r| == if start < |s| then (|s| - start + 1) / 2 else 0
    ensures forall i :: 0 <= i < |r| ==> r[i] == s[start + 2 * i]
  {
    var n := if start < |s| then (|s| - start + 1) / 2 else 0;
    seq(n, i requires 0 <= i < n => s[start + 2 * i])
  }

  const TrendPrefix: string := "Development of Fertility Rates: "

  /**
   One pass of the callback's loop (main.py:437-470): the band's slice of
   the country's rows, its bar, and its indicator built from the rows at the
   slice's earliest and latest years.
   */
  method BandFigures(df: seq<Record>, country: string, dff: seq<Record>, age: Band)
    returns (bar: Figure, indicator: Figure)
    requires dff == Where(df, CountryIs(country))
    requires Ready(BandSeries(df, country, age))
    ensures bar == TrendBar(df, country, age)
    ensures indicator == TrendIndicator(df, country, age)
  {
    var dffAge := Where(dff, AgeIs(age));
    var dffMinYear := Where(dffAge, YearIs(EarliestYear(dffAge)));
    var dffMaxYear := Where(dffAge, YearIs(LatestYear(dffAge)));
    CountAtWhere(dffAge, EarliestYear(dffAge));
    CountAtWhere(dffAge, LatestYear(dffAge));
    bar := Bar(age, dffAge);
    indicator := Indicator(age, Trunc(dffMaxYear[0].rate), Trunc(dffMinYear[0].rate));
  }

  /** The bars of `bands`, in band order. */
  function TrendBars(df: seq<Record>, country: string, bands: seq<Band>): (fs: seq<Figure>)
    ensures |fs| == |bands|
  {
    if bands == [] then []
    else TrendBars(df, country, bands[..|bands| - 1]) + [TrendBar(df, country, bands[|bands| - 1])]
  }

  /** The indicators of `bands`, in band order. */
  function TrendIndicators(df: seq<Record>, country: string, bands: seq<Band>): (fs: seq<Figure>)
    requires TrendReady(df, country)
    ensures |fs| == |bands|
  {
    if bands == [] then []
    else TrendIndicators(df, country, bands[..|bands| - 1]) + [TrendIndicator(df, country, bands[|bands| - 1])]
  }

  lemma {:induction false} TrendBarsAt(df: seq<Record>, country: string, bands: seq<Band>)
    ensures forall k :: 0 <= k < |bands| ==> TrendBars(df, country, bands)[k] == TrendBar(df, country, bands[k])
  {
    if bands != [] {
      var init := bands[..|bands| - 1];
      TrendBarsAt(df, country, init);
      assert forall k :: 0 <= k < |init| ==> init[k] == bands[k];
    }
  }

  lemma {:induction false} TrendIndicatorsAt(df: seq<Record>, country: string, bands: seq<Band>)
    requires TrendReady(df, country)
    ensures forall k :: 0 <= k < |bands| ==>
              TrendIndicators(df, country, bands)[k] == TrendIndicator(df, country, bands[k])
  {
    if bands != [] {
      var init := bands[..|bands| - 1];
      TrendIndicatorsAt(df, country, init);
      assert forall k :: 0 <= k < |init| ==> init[k] == bands[k];
    }
  }

  /** `xs[0], ys[0], xs[1], ys[1], ...`: how the callback's loop collects its figures. */
  function Interleave<T>(xs: seq<T>, ys: seq<T>): (r: seq<T>)
    requires |xs| == |ys|
    ensures |r| == 2 * |xs|
  {
    if xs == [] then []
    else Interleave(xs[..|xs| - 1], ys[..|ys| - 1]) + [xs[|xs| - 1], ys[|ys| - 1]]
  }

  lemma {:induction false} InterleaveAt<T>(xs: seq<T>, ys: seq<T>)
    requires |xs| == |ys|
    ensures forall i :: 0 <= i < |xs| ==> Interleave(xs, ys)[2 * i] == xs[i] && Interleave(xs, ys)[2 * i + 1] == ys[i]
  {
    if xs != [] {
      var n := |xs| - 1;
      InterleaveAt(xs[..n], ys[..n]);
      var r := Interleave(xs, ys);
      var pre := Interleave(xs[..n], ys[..n]);
      forall i | 0 <= i < n ensures r[2 * i] == xs[i] && r[2 * i + 1] == ys[i] {
        assert r[2 * i] == pre[2 * i] && r[2 * i + 1] == pre[2 * i + 1];
      }
    }
  }

  lemma InterleaveSnoc<T>(xs: seq<T>, ys: seq<T>, x: T, y: T)
    requires |xs| == |ys|
    ensures Interleave(xs + [x], ys + [y]) == Interleave(xs, ys) + [x, y]
  {
    assert (xs + [x])[..|xs|] == xs && (ys + [y])[..|ys|] == ys;
  }

  /** One more band appends its bar and its indicator to the collected figures. */
  lemma TrendStep(df: seq<Record>, country: string, bands: seq<Band>, k: nat)
    requires TrendReady(df, country) && k < |bands|
    ensures Interleave(TrendBars(df, country, bands[..k + 1]), TrendIndicators(df, country, bands[..k + 1]))
         == Interleave(TrendBars(df, country, bands[..k]), TrendIndicators(df, country, bands[..k]))
            + [TrendBar(df, country, bands[k]), TrendIndicator(df, country, bands[k])]
  {
    assert bands[..k + 1][..k] == bands[..k];
    InterleaveSnoc(TrendBars(df, country, bands[..k]), TrendIndicators(df, country, bands[..k]),
                   TrendBar(df, country, bands[k]), TrendIndicator(df, country, bands[k]));
  }

  /** Taking every other item from 0 and from 1 splits an interleaving back into its halves. */
  lemma EveryOtherInterleave<T>(xs: seq<T>, ys: seq<T>)
    requires |xs| == |ys|
    ensures EveryOther(Interleave(xs, ys), 0) == xs
    ensures EveryOther(Interleave(xs, ys), 1) == ys
  {
    InterleaveAt(xs, ys);
  }

  /**
   The per-band callback (main.py:429-474). The loop appends a bar and an
   indicator per band; the callback returns the headline, then the six bars,
   then the six indicators, each in band order.
   */
  method UpdateTrend(df: seq<Record>, click: Click)
    returns (headline: string, bars: seq<Figure>, indicators: seq<Figure>)
    requires click.WellFormed() && TrendReady(df, FocusedCountry(click))
    ensures headline == TrendPrefix + FocusedCountry(click)
    ensures bars == TrendBars(df, FocusedCountry(click), Bands)
    ensures indicators == TrendIndicators(df, FocusedCountry(click), Bands)
  {
    var country := FocusedCountry(click);
    var dff := Where(df, CountryIs(country));
    var figures: seq<Figure> := [];
    headline := TrendPrefix + country;
    for k := 0 to |Bands|
      invariant figures == Interleave(TrendBars(df, country, Bands[..k]), TrendIndicators(df, country, Bands[..k]))
    {
      var bar, indicator := BandFigures(df, country, dff, Bands[k]);
      TrendStep(df, country, Bands, k);
      figures := figures + [bar, indicator];
    }
    TakeAll(Bands);
    EveryOtherInterleave(TrendBars(df, country, Bands), TrendIndicators(df, country, Bands));
    bars := EveryOther(figures, 0);
    indicators := EveryOther(figures, 1);
  }
}
