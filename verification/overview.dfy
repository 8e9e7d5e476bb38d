/**
 The first view group, recomputed whenever the year slider or the age
 buttons change: three headline figures, the world map's frame and the
 top/bottom ten lists.
 */
module Overview {
  import opened Records
  import opened Ranking

  /** A row of the year-and-band frame with its `benchmark` column. */
  datatype BenchRow = BenchRow(rec: Record, benchmark: real)

  /** The three slices whose mean rates the headline boxes show. */
  function BandSlice(df: seq<Record>, band: Band): seq<Record>
  {
    Where(df, AgeIs(band))
  }

  function YearSlice(df: seq<Record>, year: int): seq<Record>
  {
    Where(df, YearIs(year))
  }

  function YearBandSlice(df: seq<Record>, year: int, band: Band): (r: seq<Record>)
    ensures forall x :: x in r <==> x in df && x.year == year && x.age == band
  {
    Where(Where(df, YearIs(year)), AgeIs(band))
  }

  /** A headline figure: the mean rate of a slice, truncated to an integer. */
  function Headline(slice: seq<Record>): int
    requires |slice| > 0
  {
    Trunc(Mean(Rates(slice)))
  }

  /**
   When every rate of the slice lies in [lo, hi] and is non-negative, the
   headline is the integer part of a value in [lo, hi]: it is at most hi and
   more than lo - 1.
   */
  lemma HeadlineWithinRates(slice: seq<Record>, lo: real, hi: real)
    requires |slice| > 0 && 0.0 <= lo
    requires forall x :: x in slice ==> lo <= x.rate <= hi
    ensures Headline(slice) as real <= Mean(Rates(slice)) < Headline(slice) as real + 1.0
    ensures lo - 1.0 < Headline(slice) as real <= hi
  {
    var xs := Rates(slice);
    forall i | 0 <= i < |xs| ensures lo <= xs[i] <= hi {
      assert slice[i] in slice;
    }
    MeanBetween(xs, lo, hi);
  }

  /** A non-empty year-and-band slice makes the other two slices non-empty. */
  lemma SlicesNonEmpty(df: seq<Record>, year: int, band: Band)
    requires |YearBandSlice(df, year, band)| > 0
    ensures |BandSlice(df, band)| > 0 && |YearSlice(df, year)| > 0
  {
    var x := YearBandSlice(df, year, band)[0];
    assert x in YearBandSlice(df, year, band);
    assert x in BandSlice(df, band);
    assert x in YearSlice(df, year);
  }

  /** The `benchmark` column (main.py:330): the slice's untruncated mean on every row. */
  method AddBenchmark(slice: seq<Record>) returns (rows: seq<BenchRow>)
    ensures |rows| == |slice|
    ensures forall i :: 0 <= i < |rows| ==> rows[i].rec == slice[i]
    ensures forall i :: 0 <= i < |rows| ==> rows[i].benchmark == Mean(Rates(slice))
  {
    var mean := if |slice| > 0 then Mean(Rates(slice)) else 0.0;
    rows := [];
    for i := 0 to |slice|
      invariant |rows| == i
      invariant forall k :: 0 <= k < i ==> rows[k] == BenchRow(slice[k], mean)
    {
      rows := rows + [BenchRow(slice[i], mean)];
    }
  }

  function BenchRates(rows: seq<BenchRow>): seq<real>
  {
    seq(|rows|, i requires 0 <= i < |rows| => rows[i].rec.rate)
  }

  function Pick(rows: seq<BenchRow>, positions: seq<nat>): seq<BenchRow>
    requires forall i :: 0 <= i < |positions| ==> positions[i] < |rows|
  {
    seq(|positions|, i requires 0 <= i < |positions| => rows[positions[i]])
  }

  /**
   `nlargest(n, "rate")`: the min(n, |rows|) rows with the highest rates,
   highest first, equal rates in frame order; no row left out has a higher
   rate than the last one kept.
   */
  function NLargest(rows: seq<BenchRow>, n: nat): (top: seq<BenchRow>)
    ensures |top| == Min(n, |rows|)
    ensures forall x :: x in top ==> x in rows
    ensures forall i, j :: 0 <= i < j < |top| ==> top[i].rec.rate >= top[j].rec.rate
    ensures var pos := Top(BenchRates(rows), Largest, n);
            forall i :: 0 <= i < |top| ==> top[i] == rows[pos[i]]
    ensures var pos := Top(BenchRates(rows), Largest, n);
            forall q :: 0 <= q < |rows| && q !in pos ==>
              forall i :: 0 <= i < |top| ==> rows[q].rec.rate <= top[i].rec.rate
  {
    var pos := Top(BenchRates(rows), Largest, n);
    Pick(rows, pos)
  }

  /** `nsmallest(n, "rate")`: the ascending mirror of NLargest. */
  function NSmallest(rows: seq<BenchRow>, n: nat): (bottom: seq<BenchRow>)
    ensures |bottom| == Min(n, |rows|)
    ensures forall x :: x in bottom ==> x in rows
    ensures forall i, j :: 0 <= i < j < |bottom| ==> bottom[i].rec.rate <= bottom[j].rec.rate
    ensures var pos := Top(BenchRates(rows), Smallest, n);
            forall i :: 0 <= i < |bottom| ==> bottom[i] == rows[pos[i]]
    ensures var pos := Top(BenchRates(rows), Smallest, n);
            forall q :: 0 <= q < |rows| && q !in pos ==>
              forall i :: 0 <= i < |bottom| ==> rows[q].rec.rate >= bottom[i].rec.rate
  {
    var pos := Top(BenchRates(rows), Smallest, n);
    Pick(rows, pos)
  }

  /** Within each list, rows with equal rates appear in frame order (`keep='first'`). */
  lemma TiesKeepFrameOrder(rows: seq<BenchRow>, n: nat, dir: Direction)
    ensures var pos := Top(BenchRates(rows), dir, n);
            forall i, j :: 0 <= i < j < |pos| && rows[pos[i]].rec.rate == rows[pos[j]].rec.rate ==>
              pos[i] < pos[j]
  {
  }

  /**
   The first callback (main.py:321-400): the three headline values, the
   world map's frame and the two top-ten lists for one year and one band.
   */
  method UpdateOverview(df: seq<Record>, year: int, band: Band)
    returns (bandAllYears: int, yearAllBands: int, yearAndBand: int,
             mapRows: seq<BenchRow>, top: seq<BenchRow>, bottom: seq<BenchRow>)
    requires |YearBandSlice(df, year, band)| > 0
    ensures |BandSlice(df, band)| > 0 && bandAllYears == Headline(BandSlice(df, band))
    ensures |YearSlice(df, year)| > 0 && yearAllBands == Headline(YearSlice(df, year))
    ensures yearAndBand == Headline(YearBandSlice(df, year, band))
    ensures |mapRows| == |YearBandSlice(df, year, band)|
    ensures forall i :: 0 <= i < |mapRows| ==> mapRows[i].rec == YearBandSlice(df, year, band)[i]
    ensures forall i :: 0 <= i < |mapRows| ==>
              mapRows[i].benchmark == Mean(Rates(YearBandSlice(df, year, band))) &&
              Trunc(mapRows[i].benchmark) == yearAndBand
    ensures top == NLargest(mapRows, 10) && bottom == NSmallest(mapRows, 10)
  {
    SlicesNonEmpty(df, year, band);
    var dfg := Where(df, AgeIs(band));
    bandAllYears := Trunc(Mean(Rates(dfg)));
    var dff := Where(df, YearIs(year));
    yearAllBands := Trunc(Mean(Rates(dff)));
    dff := Where(dff, AgeIs(band));
    yearAndBand := Trunc(Mean(Rates(dff)));
    mapRows := AddBenchmark(dff);
    top := NLargest(mapRows, 10);
    bottom := NSmallest(mapRows, 10);
  }
}
