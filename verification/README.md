# Fertility dashboard: a Dafny model of its data logic

This project models the data logic of an interactive dashboard over the census
table of age-specific fertility rates, which gives births per 1000 women by
country, year and maternal age band. The dashboard's source is a single file,
`main.py`.

- **Preparation.** The wide table is melted into long rows, and the rows are
  trimmed to the years 1970-2023 and to the six bands 15-19 ... 40-44. The
  column names are then relabelled to band labels.
- **Overview.** For the selected year and band, the first view shows three
  truncated mean rates, a map frame carrying a `benchmark` column, and the ten
  highest and ten lowest countries.
- **Focus.** A click on the map picks the focused country. Without a click the
  focus is Germany. The focus drives these views:
  - the info line and the headline;
  - the per-band trend charts, one bar series and one indicator per band. The
    indicator pairs the rate of the latest year with the rate of the earliest;
  - the country dropdown;
  - the country comparison chart, filtered to one band and the selected
    countries and sorted by year, then name;
  - the deviation chart, which gives each of the focused country's rows its
    rate minus the mean of all countries in that year, truncated to an integer.

The model has eight modules, one file each:

- `records.dfy`: records, bands, row masks, sums, means and truncation toward
  zero.
- `prepare.dfy`: the melt / drop / replace pipeline, proved equal to a
  band-by-band reference definition.
- `ranking.dfy`: `nlargest` / `nsmallest` with `keep='first'`.
- `overview.dfy`: the first callback.
- `focus.dfy`: the click fallback, the two texts and the dropdown value.
- `trend.dfy`: the per-band loop and the split of its figures into bars and
  indicators.
- `comparison.dfy`: the comparison chart's frame.
- `deviation.dfy`: the deviation chart's frame.

A chart is represented by the frame or values handed to the plotting call. The
plotting call itself is not modelled.

## Model

| member | source | states |
|---|---|---|
| Records.Trunc | main.py:325-329 | `.astype(int)` on a float truncates toward zero: the result has the sign of its argument and lies within one of it on the zero side |
| Records.Where | main.py:324 | a boolean mask keeps exactly the rows that satisfy it and is never longer than the frame |
| Records.WhereMultiset | main.py:498-499 | a mask keeps every satisfying row as often as the frame holds it and drops every other row |
| Records.WhereCommutes | main.py:326-328 | two masks applied one after the other give the same frame in either order |
| Records.MeanBetween | main.py:325 | the mean of a non-empty column lies between any lower and upper bound of its entries |
| Prepare.Drop | main.py:33-35 | `df.drop(df[mask].index)` keeps exactly the rows the mask does not select |
| Prepare.Melt | main.py:23-30 | `pd.melt`: the value columns' rows stacked in column order; a row is melted exactly when it comes from one of the value columns, and its `age` cell names that column |
| Prepare.MeltColumn | main.py:23-30 | one value column's long rows: exactly the cells of that column that hold a value, each with its raw row's code, name and year, the column's name as `age` and the cell as `rate`; no more rows than the table has |
| Prepare.MeltColumnOne | main.py:23-30 | a single raw row yields one long row for a column exactly when it has a value there, and none otherwise |
| Prepare.MeltColumnAppend | main.py:23-30 | a column's long rows follow the table's row order: the rows of a longer table come after those of its first part |
| Prepare.ReplaceAllIsRelabel | main.py:36-41 | the six `replace` calls in sequence relabel each text cell once: a column name becomes its band label and any other text stays as it is |
| Prepare.RelabelColumns | main.py:36-41 | the six rebindings of `df` give the frame with every text cell relabelled |
| Prepare.BandOfLabelOf | main.py:36-41 | every band's label is a band label, and reading it back gives the same band |
| Prepare.TidyMelt | main.py:23-43 | melting, dropping and relabelling give, for every raw table, the band-by-band reference data set: each band's rows in table order, years 1970-2023 only, no 45-49 rows |
| Prepare.PrepareRecords | main.py:23-43 | the step-by-step preparation yields exactly the reference data set, and every record lies in 1970-2023 |
| Ranking.Order | main.py:396-397 | the first k positions sorted by rate, stably: every position appears once and ties keep frame order |
| Ranking.Top | main.py:396-397 | `nlargest`/`nsmallest(n)` positions: min(n, rows) distinct positions, ranked, and no position left out ranks ahead of a kept one |
| Ranking.RankedDistinct | main.py:396-397 | a ranking lists no row twice |
| Ranking.LargestDescending | main.py:396 | along the `nlargest` list, rates never increase and equal rates appear in frame order |
| Ranking.SmallestMirrorsLargest | main.py:397 | `nsmallest` of the rates is `nlargest` of the negated rates, tie order included |
| Overview.HeadlineWithinRates | main.py:325-329 | a headline is the integer part of its slice's mean: at most the largest rate bound and more than the smallest bound minus one |
| Overview.SlicesNonEmpty | main.py:324-328 | when the year-and-band slice has a row, the band slice and the year slice have rows too |
| Overview.YearBandSlice | main.py:326-328 | the year-and-band frame holds exactly the rows of that year and that band |
| Overview.AddBenchmark | main.py:330 | the `benchmark` column gives every row the slice's untruncated mean and leaves the rows unchanged |
| Overview.NLargest | main.py:396 | the top list is the map frame's rows at the positions `Top` ranks, in that order: min(10, rows) rows from distinct positions, highest rate first, equal rates in frame order, none left out above a kept one |
| Overview.NSmallest | main.py:397 | the bottom list is the map frame's rows at the positions the ascending `Top` ranks, in that order: min(10, rows) rows from distinct positions, lowest rate first, equal rates in frame order, none left out below a kept one |
| Overview.TiesKeepFrameOrder | main.py:396-397 | within either list, rows with equal rates keep their frame order (`keep='first'`) |
| Overview.UpdateOverview | main.py:321-330 | the first callback: the three truncated means of the band, year and year-and-band slices; the map frame as the year-and-band slice whose `benchmark` on every row is that slice's untruncated mean, which truncates to the third headline; the top and bottom ten of that frame |
| Focus.FocusedCountry | main.py:411-414 | the focused country is the first clicked point's location, and Germany without a click |
| Focus.InfoAndHeadline | main.py:416-417 | the two texts are their fixed prefixes followed by the focused country |
| Focus.DropdownValue | main.py:481-486 | without a click the dropdown holds the bare name "Germany", after a click a one-element list with the clicked location; either way it selects exactly the focused country |
| Trend.EarliestYear | main.py:447 | `year.min()`: no row of the series is earlier |
| Trend.LatestYear | main.py:448 | `year.max()`: no row of the series is later |
| Trend.YearBoundsAttained | main.py:447-448 | both the earliest and the latest year are carried by some row |
| Trend.BandSeries | main.py:437-446 | the series of one band holds exactly the focused country's rows of that band |
| Trend.CountAtWhere | main.py:447-465 | the rows selected by a year number as many as the series has rows in that year |
| Trend.OnlyRowAt | main.py:463-465 | when one row is selected by a year, every row of that year is that row, so `int(values)` reads its rate |
| Trend.IndicatorPairsEnds | main.py:446-465 | the indicator's value is the truncated rate of the latest year's row and its reference the truncated rate of the earliest year's row |
| Trend.BandFigures | main.py:446-471 | one pass of the loop produces the band's bar series and its indicator |
| Trend.TrendBarsAt | main.py:445-458 | the k-th bar is the bar of the k-th band |
| Trend.TrendIndicatorsAt | main.py:445-471 | the k-th indicator is the indicator of the k-th band |
| Trend.InterleaveAt | main.py:458-471 | appending a bar and then an indicator per band puts the k-th bar at 2k and the k-th indicator at 2k+1 |
| Trend.TrendStep | main.py:445-471 | one more pass appends exactly that band's bar and indicator to the collected figures |
| Trend.EveryOther | main.py:473-474 | `figures[start::2]`: every other figure, beginning at `start` |
| Trend.EveryOtherInterleave | main.py:473-474 | returning figures 0, 2, ..., 10 and then 1, 3, ..., 11 splits the collected list back into bars and indicators |
| Trend.UpdateTrend | main.py:429-474 | the trend callback: the headline is its prefix plus the focused country, the six bars are the bands' series in band order, and the six indicators are their latest/earliest pairs in band order |
| Comparison.NameLeqTotal | main.py:499 | any two country names are ordered one way or the other |
| Comparison.NameLeqTransitive | main.py:499 | the name order is transitive |
| Comparison.NameLeqAntisymmetric | main.py:499 | two names ordered both ways are equal |
| Comparison.InsertRow | main.py:499 | inserting a row adds exactly that row |
| Comparison.InsertRowSorted | main.py:499 | inserting into a frame sorted by (year, name) keeps it sorted |
| Comparison.SortByYearName | main.py:499 | `sort_values(by=["year", "country_name"])` is a permutation of its frame, sorted by year and then name |
| Comparison.SelectionCond | main.py:499 | `country_name==@value` holds exactly for the names the dropdown value selects: equality for a bare name, membership for a list |
| Comparison.ComparisonSeries | main.py:495-499 | the comparison frame holds each row of the band whose country is selected, as often as the data set does, and no other row, sorted by year and then name |
| Comparison.ComparisonFollowsClick | main.py:481-499 | after a click, or with no click, the comparison chart shows exactly the focused country's rows of the band |
| Deviation.YearMeanBetween | main.py:523 | a year's group mean lies between any bounds of that year's rates |
| Deviation.AddDeviation | main.py:523-524 | every row keeps its record and gets its own year's group mean and its rate minus that mean, truncated toward zero |
| Deviation.DeviationSign | main.py:524 | a truncated deviation is zero exactly when the rate is within one of its year's mean and positive or negative exactly when the rate is at least one above or below it; it is less than one from the exact difference and never larger in magnitude |
| Deviation.DeviationsCancel | main.py:523-524 | across one year group the untruncated deviations sum to zero |
| Deviation.DeviationRowsAreTrendSeries | main.py:437-531 | the deviation chart's rows (band mask, then country mask) are the band's trend series (country mask, then band mask), in the same order |
| Deviation.KeepCountry | main.py:531 | the country mask keeps exactly the focused country's rows, in frame order, with their added columns |
| Deviation.DeviationView | main.py:519-534 | the deviation callback: the headline is its prefix plus the focused country; the rows are the focused country's rows of the band in frame order, each with the mean of its year over every country of the band and the truncated deviation from it |

## Left out

- Reading the CSV file, the Dash layout, the callback wiring, the styling and the plotly/colorlover figure construction are not modelled. A chart is its frame or values.
- The `max_rate` y-axis bound of the trend bars (main.py:438, 453) and the colour scales are presentation only.
- Rates are exact reals. Float64 rounding and NaN are not modelled.
- Prepare.Melt: a missing cell of the raw table is an absent key in the row's map and yields no long row. `pd.melt` keeps such a row with NaN as its rate, and the source never drops it. pandas' means skip NaN, so the headline, benchmark and deviation means are unaffected. The model leaves out every other effect of those rows, chiefly one: `year.min()`/`year.max()` at main.py:447-448 count them, so `int(...)` at main.py:463 and main.py:465 raises there. Where that happens, the model reads the rate of the earliest or latest year that has a value.
- The relative percentage delta that plotly derives from an indicator's value and reference is not modelled. The model stops at the (value, reference) pair the code passes.
- Overview.UpdateOverview: requires a non-empty year-and-band slice. On an empty slice pandas' mean is NaN, and casting NaN to int gives a platform-defined integer; the model does not reproduce that.
- Trend.UpdateTrend: requires every band of the focused country to have exactly one row in its earliest and in its latest year. Otherwise `int(values)` raises (several rows) or reads an empty array (no rows). The model does not reproduce those failures.
- Comparison.SortByYearName: its contract states the permutation and the order but not stability. With the (code, name, year, band, rate) record, two rows equal in year and name differ only in code or rate, and their relative order is not stated.
- Focus.DropdownValue: `update_dropdown` tests `is not None` while the other callbacks test truthiness. An empty `clickData` dictionary is treated differently by the two tests, but it never occurs, so `Click` has only the no-click and click cases.
- A click whose `points` list is empty would raise. `Click.WellFormed` excludes it.
