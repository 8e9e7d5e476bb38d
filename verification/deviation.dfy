/**
 The deviation chart: for one age band, every row's rate minus the mean
 rate of all countries in that year, truncated to an integer, shown for the
 focused country only.
 */
module Deviation {
  import opened Records
  import opened Focus
  import opened Trend

  /** A row of the band's frame with its `mean` and `deviation` columns. */
  datatype DevRow = DevRow(rec: Record, mean: real, deviation: int)

  /** The rows of a frame that share year y (one `groupby('year')` group). */
  function YearGroup(slice: seq<Record>, y: int): seq<Record>
  {
    Where(slice, YearIs(y))
  }

  /**
   `groupby('year')['rate'].transform('mean')` for a row of year y: the mean
   rate of that row's year group.
   */
  function YearMean(slice: seq<Record>, y: int): real
    requires exists i :: 0 <= i < |slice| && slice[i].year == y
  {
    var i :| 0 <= i < |slice| && slice[i].year == y;
    assert slice[i] in YearGroup(slice, y);
    Mean(Rates(YearGroup(slice, y)))
  }

  /** A year's mean lies within any bounds of the rates of that year's rows. */
  lemma YearMeanBetween(slice: seq<Record>, y: int, lo: real, hi: real)
    requires exists i :: 0 <= i < |slice| && slice[i].year == y
    requires forall x :: x in slice && x.year == y ==> lo <= x.rate <= hi
    ensures lo <= YearMean(slice, y) <= hi
  {
    var g := YearGroup(slice, y);
    forall i | 0 <= i < |g| ensures lo <= Rates(g)[i] <= hi {
      assert g[i] in g;
    }
    var i :| 0 <= i < |slice| && slice[i].year == y;
    assert slice[i] in g;
    MeanBetween(Rates(g), lo, hi);
  }

  /**
   The `mean` and `deviation` columns (main.py:523-524). Every row gets the
   mean of its own year's group; the deviation is the difference truncated
   toward zero.
   */
  method AddDeviation(slice: seq<Record>) returns (rows: seq<DevRow>)
    ensures |rows| == |slice|
    ensures forall i :: 0 <= i < |rows| ==> rows[i].rec == slice[i]
    ensures forall i :: 0 <= i < |rows| ==>
              rows[i].mean == YearMean(slice, slice[i].year) &&
              rows[i].deviation == Trunc(slice[i].rate - rows[i].mean)
  {
    rows := [];
    for i := 0 to |slice|
      invariant |rows| == i
      invariant forall k :: 0 <= k < i ==>
                  rows[k].rec == slice[k] &&
                  rows[k].mean == YearMean(slice, slice[k].year) &&
                  rows[k].deviation == Trunc(slice[k].rate - rows[k].mean)
    {
      var mean := YearMean(slice, slice[i].year);
      rows := rows + [DevRow(slice[i], mean, Trunc(slice[i].rate - mean))];
    }
  }

  /**
   The signed bar of a row: zero when the rate is within one of its year's
   mean, at least one above it when positive, at least one below when
   negative, less than one away from the exact difference and never
   larger in magnitude.
   */
  lemma DeviationSign(row: DevRow)
    requires row.deviation == Trunc(row.rec.rate - row.mean)
    ensures row.deviation == 0 <==> row.mean - 1.0 < row.rec.rate < row.mean + 1.0
    ensures row.deviation > 0 <==> row.rec.rate >= row.mean + 1.0
    ensures row.deviation < 0 <==> row.rec.rate <= row.mean - 1.0
    ensures -1.0 < (row.rec.rate - row.mean) - row.deviation as real < 1.0
    ensures row.rec.rate >= row.mean ==> 0 <= row.deviation && row.deviation as real <= row.rec.rate - row.mean
    ensures row.rec.rate < row.mean ==> row.deviation <= 0 && row.rec.rate - row.mean <= row.deviation as real
  {
  }

  /** The untruncated deviations of one year group cancel out. */
  lemma DeviationsCancel(slice: seq<Record>, y: int)
    requires exists i :: 0 <= i < |slice| && slice[i].year == y
    ensures var g := YearGroup(slice, y);
            Sum(seq(|g|, i requires 0 <= i < |g| => g[i].rate - YearMean(slice, y))) == 0.0
  {
    var g := YearGroup(slice, y);
    var j :| 0 <= j < |slice| && slice[j].year == y;
    assert slice[j] in g;
    var xs := Rates(g);
    var m := YearMean(slice, y);
    assert m == Sum(xs) / (|xs| as real);
    var ds := seq(|g|, i requires 0 <= i < |g| => g[i].rate - m);
    SumShifted(xs, ds, m);
    MeanTimesCount(Sum(xs), |xs| as real);
  }

  lemma MeanTimesCount(total: real, n: real)
    requires n > 0.0
    ensures n * (total / n) == total
  {
  }

  function Recs(rows: seq<DevRow>): seq<Record>
  {
    seq(|rows|, i requires 0 <= i < |rows| => rows[i].rec)
  }

  /** `dff[dff["country_name"] == country]` on the frame with the new columns. */
  function KeepCountry(rows: seq<DevRow>, country: string): (r: seq<DevRow>)
    ensures forall d :: d in r <==> d in rows && d.rec.name == country
    ensures Recs(r) == Where(Recs(rows), CountryIs(country))
  {
    if rows == [] then []
    else
      var rest := KeepCountry(rows[1..], country);
      assert Recs(rows[1..]) == Recs(rows)[1..];
      if rows[0].rec.name == country then
        assert Recs([rows[0]] + rest) == [rows[0].rec] + Recs(rest);
        [rows[0]] + rest
      else rest
  }

  /**
   The deviation chart filters by band and then by country, the trend charts
   by country and then by band (main.py:437, 446): the deviation bars stand on
   the same rows, in the same order, as the band's trend bars.
   */
  lemma DeviationRowsAreTrendSeries(df: seq<Record>, band: Band, click: Click)
    requires click.WellFormed()
    ensures Where(Where(df, AgeIs(band)), CountryIs(FocusedCountry(click)))
            == BandSeries(df, FocusedCountry(click), band)
  {
    WhereCommutes(df, AgeIs(band), CountryIs(FocusedCountry(click)));
  }

  const DeviationPrefix: string := "Deviation from mean fertility rate: "

  /**
   The deviation callback (main.py:519-534): the headline and the focused
   country's rows of the band, in frame order, each carrying the mean of its
   year over all countries of the band and its truncated deviation from it.
   */
  method DeviationView(df: seq<Record>, band: Band, click: Click)
    returns (headline: string, rows: seq<DevRow>)
    requires click.WellFormed()
    ensures headline == DeviationPrefix + FocusedCountry(click)
    ensures Recs(rows) == Where(Where(df, AgeIs(band)), CountryIs(FocusedCountry(click)))
    ensures forall d :: d in rows ==>
              (exists i :: 0 <= i < |Where(df, AgeIs(band))| && Where(df, AgeIs(band))[i].year == d.rec.year) &&
              d.mean == YearMean(Where(df, AgeIs(band)), d.rec.year) &&
              d.deviation == Trunc(d.rec.rate - d.mean)
  {
    var dff := Where(df, AgeIs(band));
    var devs := AddDeviation(dff);
    assert Recs(devs) == dff;
    var country := FocusedCountry(click);
    rows := KeepCountry(devs, country);
    forall d | d in rows
      ensures (exists j :: 0 <= j < |dff| && dff[j].year == d.rec.year) &&
              d.mean == YearMean(dff, d.rec.year) &&
              d.deviation == Trunc(d.rec.rate - d.mean)
    {
      var i :| 0 <= i < |devs| && devs[i] == d;
      assert dff[i].year == d.rec.year;
    }
    headline := DeviationPrefix + country;
  }
}
