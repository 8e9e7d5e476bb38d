/**
 Data preparation: the wide census table (one row per country and year,
 one rate column per age band) is melted into long rows, trimmed to the
 years 1970-2023 and the bands 15-19 ... 40-44, and its column names are
 relabelled to the band labels the dashboard shows.
 */
module Prepare {
  import opened Records

  /** The seven rate columns of the raw table, in `value_vars` order. */
  datatype Column = Rate15to19 | Rate20to24 | Rate25to29 | Rate30to34 | Rate35to39 | Rate40to44 | Rate45to49
  {
    function Name(): string
    {
      match this
      case Rate15to19 => "fertility_rate_15_19"
      case Rate20to24 => "fertility_rate_20_24"
      case Rate25to29 => "fertility_rate_25_29"
      case Rate30to34 => "fertility_rate_30_34"
      case Rate35to39 => "fertility_rate_35_39"
      case Rate40to44 => "fertility_rate_40_44"
      case Rate45to49 => "fertility_rate_45_49"
    }
  }

  const ValueVars: seq<Column> := [Rate15to19, Rate20to24, Rate25to29, Rate30to34, Rate35to39, Rate40to44, Rate45to49]

  predicate IsColumnName(s: string)
  {
    s in [Rate15to19.Name(), Rate20to24.Name(), Rate25to29.Name(), Rate30to34.Name(),
          Rate35to39.Name(), Rate40to44.Name(), Rate45to49.Name()]
  }

  predicate IsBandLabel(s: string)
  {
    s in [Age15to19.Label(), Age20to24.Label(), Age25to29.Label(), Age30to34.Label(),
          Age35to39.Label(), Age40to44.Label()]
  }

  /** The column that holds a band's rates in the raw table. */
  function ColumnOf(b: Band): Column
  {
    match b
    case Age15to19 => Rate15to19
    case Age20to24 => Rate20to24
    case Age25to29 => Rate25to29
    case Age30to34 => Rate30to34
    case Age35to39 => Rate35to39
    case Age40to44 => Rate40to44
  }

  /**
   A row of the raw table. A cell that is absent from `rates` is a missing
   value; it produces no long row.
   */
  datatype WideRow = WideRow(code: string, name: string, year: int, rates: map<Column, real>)

  /** A row of the melted frame, whose `age` column still holds a text label. */
  datatype LongRow = LongRow(code: string, name: string, year: int, age: string, rate: real)

  /** The long row a raw row's cell in column c becomes. */
  function Cell(w: WideRow, c: Column): LongRow
    requires c in w.rates
  {
    LongRow(w.code, w.name, w.year, c.Name(), w.rates[c])
  }

  /**
   The long rows that one value column contributes, in row order: one per
   raw row that has a value in that column, carrying the row's ids and the
   value.
   */
  function MeltColumn(rows: seq<WideRow>, c: Column): (r: seq<LongRow>)
    ensures |r| <= |rows|
    ensures forall x :: x in r ==> x.age == c.Name()
    ensures forall x :: x in r <==> exists i :: 0 <= i < |rows| && c in rows[i].rates && x == Cell(rows[i], c)
  {
    if rows == [] then []
    else
      var w := rows[0];
      var rest := MeltColumn(rows[1..], c);
      assert forall i :: 0 < i < |rows| ==> rows[i] == rows[1..][i - 1];
      (if c in w.rates then [Cell(w, c)] else []) + rest
  }

  /** A raw row yields its cell of column c exactly when it has a value there. */
  lemma MeltColumnOne(w: WideRow, c: Column)
    ensures MeltColumn([w], c) == if c in w.rates then [Cell(w, c)] else []
  {
    assert [w][1..] == [];
  }

  /** A table's first row contributes its cell ahead of the rest of the table's. */
  lemma MeltColumnHead(s: seq<WideRow>, c: Column)
    requires s != []
    ensures MeltColumn(s, c) == MeltColumn([s[0]], c) + MeltColumn(s[1..], c)
  {
    assert [s[0]][1..] == [];
  }

  /** The rows of a longer table follow those of its first part. */
  lemma {:induction false} MeltColumnAppend(a: seq<WideRow>, b: seq<WideRow>, c: Column)
    ensures MeltColumn(a + b, c) == MeltColumn(a, c) + MeltColumn(b, c)
  {
    if a == [] {
      assert a + b == b;
    } else {
      MeltColumnHead(a, c);
      MeltColumnHead(a + b, c);
      assert (a + b)[0] == a[0] && (a + b)[1..] == a[1..] + b;
      MeltColumnAppend(a[1..], b, c);
    }
  }

  /**
   `pd.melt`: the value columns are stacked one below the other, each
   column's rows in table order; every cell with a value becomes a long row.
   */
  function Melt(rows: seq<WideRow>, cols: seq<Column>): (r: seq<LongRow>)
    ensures forall x :: x in r ==> IsColumnName(x.age)
    ensures forall x :: x in r <==> exists k :: 0 <= k < |cols| && x in MeltColumn(rows, cols[k])
  {
    if cols == [] then []
    else
      var rest := Melt(rows, cols[1..]);
      assert forall k :: 0 < k < |cols| ==> cols[k] == cols[1..][k - 1];
      MeltColumn(rows, cols[0]) + rest
  }

  /** The masks of the three `df.drop(df[...].index)` steps. */
  datatype Mask = YearAbove(bound: int) | YearBelow(bound: int) | AgeEquals(ageLabel: string)
  {
    predicate Holds(r: LongRow)
    {
      match this
      case YearAbove(y) => r.year > y
      case YearBelow(y) => r.year < y
      case AgeEquals(a) => r.age == a
    }
  }

  /** The rows the mask does not select, in their original order. */
  function Drop(df: seq<LongRow>, m: Mask): (r: seq<LongRow>)
    ensures forall x :: x in r <==> x in df && !m.Holds(x)
  {
    if df == [] then []
    else (if m.Holds(df[0]) then [] else [df[0]]) + Drop(df[1..], m)
  }

  /** `DataFrame.replace(old, new)`: every text cell equal to `target` becomes `replacement`. */
  function Replace(df: seq<LongRow>, target: string, replacement: string): seq<LongRow>
  {
    seq(|df|, i requires 0 <= i < |df| =>
      var x := df[i];
      LongRow(ReplaceCell(x.code, target, replacement), ReplaceCell(x.name, target, replacement),
              x.year, ReplaceCell(x.age, target, replacement), x.rate))
  }

  function ReplaceCell(s: string, target: string, replacement: string): string
  {
    if s == target then replacement else s
  }

  /** What the six replacements together do to one text cell. */
  function Relabel(s: string): string
  {
    if s == Rate15to19.Name() then Age15to19.Label()
    else if s == Rate20to24.Name() then Age20to24.Label()
    else if s == Rate25to29.Name() then Age25to29.Label()
    else if s == Rate30to34.Name() then Age30to34.Label()
    else if s == Rate35to39.Name() then Age35to39.Label()
    else if s == Rate40to44.Name() then Age40to44.Label()
    else s
  }

  function RelabelRow(x: LongRow): LongRow
  {
    LongRow(Relabel(x.code), Relabel(x.name), x.year, Relabel(x.age), x.rate)
  }

  function RelabelAll(df: seq<LongRow>): seq<LongRow>
  {
    seq(|df|, i requires 0 <= i < |df| => RelabelRow(df[i]))
  }

  /** The band a prepared label names. */
  function BandOfLabel(s: string): (b: Band)
    requires IsBandLabel(s)
    ensures b.Label() == s
  {
    if s == Age15to19.Label() then Age15to19
    else if s == Age20to24.Label() then Age20to24
    else if s == Age25to29.Label() then Age25to29
    else if s == Age30to34.Label() then Age30to34
    else if s == Age35to39.Label() then Age35to39
    else Age40to44
  }

  /** Reading a band's label back gives the band. */
  lemma BandOfLabelOf(b: Band)
    ensures IsBandLabel(b.Label()) && BandOfLabel(b.Label()) == b
  {
    match b
    case Age15to19 =>
    case Age20to24 =>
    case Age25to29 =>
    case Age30to34 =>
    case Age35to39 =>
    case Age40to44 =>
  }

  /** The prepared frame read as records (the `astype(float)` step). */
  function ToRecords(df: seq<LongRow>): seq<Record>
    requires forall i :: 0 <= i < |df| ==> IsBandLabel(df[i].age)
  {
    seq(|df|, i requires 0 <= i < |df| =>
      Record(df[i].code, df[i].name, df[i].year, BandOfLabel(df[i].age), df[i].rate))
  }

  // ---------------------------------------------------------------------------
  // The reference definition of the prepared data set.

  /** The records one band contributes: every row in range with a value in that band's column. */
  function BandRows(raw: seq<WideRow>, b: Band): (r: seq<Record>)
    ensures forall x :: x in r ==> x.age == b && FirstYear <= x.year <= LastYear
  {
    if raw == [] then []
    else
      var w := raw[0];
      (if FirstYear <= w.year <= LastYear && ColumnOf(b) in w.rates
       then [Record(Relabel(w.code), Relabel(w.name), w.year, b, w.rates[ColumnOf(b)])]
       else [])
      + BandRows(raw[1..], b)
  }

  /** The records of the given bands, band after band. */
  function RowsOfBands(raw: seq<WideRow>, bs: seq<Band>): (r: seq<Record>)
    ensures forall x :: x in r ==> x.age in bs && FirstYear <= x.year <= LastYear
  {
    if bs == [] then [] else BandRows(raw, bs[0]) + RowsOfBands(raw, bs[1..])
  }

  /** The prepared data set: band by band, rows in table order, years 1970-2023 only. */
  function Normalised(raw: seq<WideRow>): seq<Record>
  {
    RowsOfBands(raw, Bands)
  }

  /** Every prepared record lies in 1970-2023 (its band is one of the six by its type). */
  lemma NormalisedInRange(raw: seq<WideRow>)
    ensures forall x :: x in Normalised(raw) ==> FirstYear <= x.year <= LastYear
  {
  }

  /**
   The preparation steps, applied one after another to a melted frame
   (main.py:33-43). Relabelling the text cells all at once is what the six
   `replace` calls do; see ReplaceAllIsRelabel.
   */
  function Tidy(long: seq<LongRow>): seq<Record>
    requires forall x :: x in long ==> IsColumnName(x.age)
  {
    RelabelledKept(long);
    ToRecords(RelabelAll(Kept(long)))
  }

  /** The three `drop` steps: years after 2023, years before 1970, the 45-49 column. */
  function Kept(long: seq<LongRow>): seq<LongRow>
  {
    Drop(Drop(Drop(long, YearAbove(LastYear)), YearBelow(FirstYear)), AgeEquals(Rate45to49.Name()))
  }

  // ---------------------------------------------------------------------------
  // Proof that the step-by-step pipeline computes Normalised.

  lemma ColumnNamesDiffer(c: Column, d: Column)
    requires c != d
    ensures c.Name() != d.Name()
  {
  }

  lemma BandLabelIsNoColumnName(b: Band, c: Column)
    ensures b.Label() != c.Name()
  {
    assert |b.Label()| == 5 && |c.Name()| == 20;
  }

  /** Column names are pairwise distinct and never a band label. */
  lemma NamesAndLabelsDistinct()
    ensures forall c: Column, d: Column :: c != d ==> c.Name() != d.Name()
    ensures forall b: Band, c: Column :: b.Label() != c.Name()
  {
    forall c: Column, d: Column | c != d ensures c.Name() != d.Name() {
      ColumnNamesDiffer(c, d);
    }
    forall b: Band, c: Column ensures b.Label() != c.Name() {
      BandLabelIsNoColumnName(b, c);
    }
  }

  /** A kept column name is relabelled to its band's label. */
  lemma RelabelColumn(c: Column)
    requires c != Rate45to49
    ensures Relabel(c.Name()) == BandOfColumn(c).Label()
  {
    NamesAndLabelsDistinct();
  }

  lemma RelabelKeptName(s: string)
    requires IsColumnName(s) && s != Rate45to49.Name()
    ensures IsBandLabel(Relabel(s))
  {
    var c :| c in ValueVars && c.Name() == s;
    RelabelColumn(c);
  }

  /** The six `replace` calls, one after the other, relabel one text cell. */
  lemma ReplaceChainCell(s: string)
    ensures ReplaceCell(ReplaceCell(ReplaceCell(ReplaceCell(ReplaceCell(ReplaceCell(s,
              Rate15to19.Name(), Age15to19.Label()),
              Rate20to24.Name(), Age20to24.Label()),
              Rate25to29.Name(), Age25to29.Label()),
              Rate30to34.Name(), Age30to34.Label()),
              Rate35to39.Name(), Age35to39.Label()),
              Rate40to44.Name(), Age40to44.Label())
            == Relabel(s)
  {
    NamesAndLabelsDistinct();
  }

  /** The six `replace` calls, one after the other, relabel every text cell. */
  lemma ReplaceAllIsRelabel(df: seq<LongRow>)
    ensures Replace(Replace(Replace(Replace(Replace(Replace(df,
              Rate15to19.Name(), Age15to19.Label()),
              Rate20to24.Name(), Age20to24.Label()),
              Rate25to29.Name(), Age25to29.Label()),
              Rate30to34.Name(), Age30to34.Label()),
              Rate35to39.Name(), Age35to39.Label()),
              Rate40to44.Name(), Age40to44.Label())
            == RelabelAll(df)
  {
    forall s: string ensures ReplaceCell(ReplaceCell(ReplaceCell(ReplaceCell(ReplaceCell(ReplaceCell(s,
              Rate15to19.Name(), Age15to19.Label()),
              Rate20to24.Name(), Age20to24.Label()),
              Rate25to29.Name(), Age25to29.Label()),
              Rate30to34.Name(), Age30to34.Label()),
              Rate35to39.Name(), Age35to39.Label()),
              Rate40to44.Name(), Age40to44.Label())
            == Relabel(s)
    {
      ReplaceChainCell(s);
    }
  }

  lemma {:induction false} DropAppend(a: seq<LongRow>, b: seq<LongRow>, m: Mask)
    ensures Drop(a + b, m) == Drop(a, m) + Drop(b, m)
  {
    if a == [] {
      assert a + b == b;
    } else {
      assert (a + b)[1..] == a[1..] + b;
      DropAppend(a[1..], b, m);
    }
  }

  lemma DropSingle(x: LongRow, m: Mask)
    ensures Drop([x], m) == if m.Holds(x) then [] else [x]
  {
    assert [x][1..] == [];
  }

  lemma KeptAppend(a: seq<LongRow>, b: seq<LongRow>)
    ensures Kept(a + b) == Kept(a) + Kept(b)
  {
    DropAppend(a, b, YearAbove(LastYear));
    var a1, b1 := Drop(a, YearAbove(LastYear)), Drop(b, YearAbove(LastYear));
    DropAppend(a1, b1, YearBelow(FirstYear));
    var a2, b2 := Drop(a1, YearBelow(FirstYear)), Drop(b1, YearBelow(FirstYear));
    DropAppend(a2, b2, AgeEquals(Rate45to49.Name()));
  }

  /** After the drops, relabelling leaves only band labels in the `age` column. */
  lemma RelabelledKept(long: seq<LongRow>)
    requires forall x :: x in long ==> IsColumnName(x.age)
    ensures forall i :: 0 <= i < |RelabelAll(Kept(long))| ==> IsBandLabel(RelabelAll(Kept(long))[i].age)
  {
    var kept := Kept(long);
    forall i | 0 <= i < |kept| ensures IsBandLabel(Relabel(kept[i].age)) {
      assert kept[i] in kept;
      RelabelKeptName(kept[i].age);
    }
  }

  lemma TidyAppend(a: seq<LongRow>, b: seq<LongRow>)
    requires forall x :: x in a ==> IsColumnName(x.age)
    requires forall x :: x in b ==> IsColumnName(x.age)
    ensures Tidy(a + b) == Tidy(a) + Tidy(b)
  {
    KeptAppend(a, b);
    var a3, b3 := Kept(a), Kept(b);
    RelabelAllAppend(a3, b3);
    RelabelledKept(a);
    RelabelledKept(b);
    ToRecordsAppend(RelabelAll(a3), RelabelAll(b3));
  }

  lemma RelabelAllAppend(a: seq<LongRow>, b: seq<LongRow>)
    ensures RelabelAll(a + b) == RelabelAll(a) + RelabelAll(b)
  {
  }

  lemma ToRecordsAppend(a: seq<LongRow>, b: seq<LongRow>)
    requires forall i :: 0 <= i < |a| ==> IsBandLabel(a[i].age)
    requires forall i :: 0 <= i < |b| ==> IsBandLabel(b[i].age)
    ensures ToRecords(a + b) == ToRecords(a) + ToRecords(b)
  {
  }

  /** One melted row, prepared: kept only in range and outside the 45-49 column. */
  lemma TidySingle(x: LongRow, c: Column)
    requires x.age == c.Name()
    ensures Tidy([x]) == if FirstYear <= x.year <= LastYear && c != Rate45to49
                         then [Record(Relabel(x.code), Relabel(x.name), x.year, BandOfColumn(c), x.rate)]
                         else []
  {
    DropSingle(x, YearAbove(LastYear));
    DropSingle(x, YearBelow(FirstYear));
    DropSingle(x, AgeEquals(Rate45to49.Name()));
    RelabelledKept([x]);
    if FirstYear <= x.year <= LastYear && c != Rate45to49 {
      ColumnNamesDiffer(c, Rate45to49);
      assert Kept([x]) == [x];
      var relabelled := RelabelAll([x]);
      assert relabelled == [RelabelRow(x)];
      RelabelColumn(c);
      BandOfLabelOf(BandOfColumn(c));
      assert ToRecords(relabelled)[0] == Record(Relabel(x.code), Relabel(x.name), x.year, BandOfColumn(c), x.rate);
    } else {
      assert Kept([x]) == [];
    }
  }

  /** One melted column, prepared, is that band's rows; the 45-49 column vanishes. */
  lemma {:induction false} TidyColumn(raw: seq<WideRow>, c: Column)
    ensures Tidy(MeltColumn(raw, c)) == if c == Rate45to49 then [] else BandRows(raw, BandOfColumn(c))
  {
    if raw != [] {
      var w := raw[0];
      var head := if c in w.rates then [Cell(w, c)] else [];
      var tail := MeltColumn(raw[1..], c);
      assert MeltColumn(raw, c) == head + tail;
      TidyAppend(head, tail);
      TidyColumn(raw[1..], c);
      if head != [] {
        TidySingle(head[0], c);
      } else {
        assert Tidy(head) == [];
      }
    }
  }

  /** The band whose rates a (kept) column holds. */
  function BandOfColumn(c: Column): (b: Band)
    requires c != Rate45to49
    ensures ColumnOf(b) == c
  {
    match c
    case Rate15to19 => Age15to19
    case Rate20to24 => Age20to24
    case Rate25to29 => Age25to29
    case Rate30to34 => Age30to34
    case Rate35to39 => Age35to39
    case Rate40to44 => Age40to44
  }

  /** The bands of the kept columns among `cols`, in column order. */
  function KeptBands(raw: seq<WideRow>, cols: seq<Column>): seq<Record>
  {
    if cols == [] then []
    else (if cols[0] == Rate45to49 then [] else BandRows(raw, BandOfColumn(cols[0]))) + KeptBands(raw, cols[1..])
  }

  lemma {:induction false} TidyMeltColumns(raw: seq<WideRow>, cols: seq<Column>)
    ensures Tidy(Melt(raw, cols)) == KeptBands(raw, cols)
  {
    if cols != [] {
      TidyAppend(MeltColumn(raw, cols[0]), Melt(raw, cols[1..]));
      TidyColumn(raw, cols[0]);
      TidyMeltColumns(raw, cols[1..]);
    }
  }

  lemma KeptBandsCons(raw: seq<WideRow>, c: Column, rest: seq<Column>)
    ensures KeptBands(raw, [c] + rest)
         == (if c == Rate45to49 then [] else BandRows(raw, BandOfColumn(c))) + KeptBands(raw, rest)
  {
    assert ([c] + rest)[1..] == rest;
  }

  /** The columns holding the given bands, in the same order. */
  function ColumnsOf(bs: seq<Band>): seq<Column>
  {
    seq(|bs|, i requires 0 <= i < |bs| => ColumnOf(bs[i]))
  }

  lemma {:induction false} KeptBandsOfColumns(raw: seq<WideRow>, bs: seq<Band>)
    ensures KeptBands(raw, ColumnsOf(bs) + [Rate45to49]) == RowsOfBands(raw, bs)
  {
    if bs == [] {
      KeptBandsCons(raw, Rate45to49, []);
      assert ColumnsOf(bs) + [Rate45to49] == [Rate45to49] + [];
    } else {
      var rest := ColumnsOf(bs[1..]) + [Rate45to49];
      ColumnOfRoundTrip(bs[0]);
      assert ColumnsOf(bs) + [Rate45to49] == [ColumnOf(bs[0])] + rest;
      KeptBandsCons(raw, ColumnOf(bs[0]), rest);
      KeptBandsOfColumns(raw, bs[1..]);
    }
  }

  lemma ColumnOfRoundTrip(b: Band)
    ensures ColumnOf(b) != Rate45to49 && BandOfColumn(ColumnOf(b)) == b
  {
  }

  /** The melted columns are the six bands' columns, then the 45-49 column. */
  lemma ValueVarsAreBandColumns()
    ensures ValueVars == ColumnsOf(Bands) + [Rate45to49]
  {
    var cols := ColumnsOf(Bands);
    assert cols[0] == Rate15to19 && cols[1] == Rate20to24 && cols[2] == Rate25to29;
    assert cols[3] == Rate30to34 && cols[4] == Rate35to39 && cols[5] == Rate40to44;
  }

  /** Preparing the melted table yields the reference data set. */
  lemma TidyMelt(raw: seq<WideRow>)
    ensures Tidy(Melt(raw, ValueVars)) == Normalised(raw)
  {
    ValueVarsAreBandColumns();
    TidyMeltColumns(raw, ValueVars);
    KeptBandsOfColumns(raw, Bands);
  }

  /** The six `replace` steps of main.py:36-41, one rebinding after another. */
  method RelabelColumns(kept: seq<LongRow>) returns (long: seq<LongRow>)
    ensures long == RelabelAll(kept)
  {
    long := Replace(kept, Rate15to19.Name(), Age15to19.Label());
    long := Replace(long, Rate20to24.Name(), Age20to24.Label());
    long := Replace(long, Rate25to29.Name(), Age25to29.Label());
    long := Replace(long, Rate30to34.Name(), Age30to34.Label());
    long := Replace(long, Rate35to39.Name(), Age35to39.Label());
    long := Replace(long, Rate40to44.Name(), Age40to44.Label());
    ReplaceAllIsRelabel(kept);
  }

  /**
   The preparation of main.py:23-43, step by step: melt, three drops, six
   relabellings, then the typed frame.
   */
  method PrepareRecords(raw: seq<WideRow>) returns (df: seq<Record>)
    ensures df == Normalised(raw)
    ensures forall x :: x in df ==> FirstYear <= x.year <= LastYear
  {
    var melted := Melt(raw, ValueVars);
    var long := Drop(melted, YearAbove(LastYear));
    long := Drop(long, YearBelow(FirstYear));
    long := Drop(long, AgeEquals(Rate45to49.Name()));
    assert long == Kept(melted);
    RelabelledKept(melted);
    long := RelabelColumns(long);
    assert long == RelabelAll(Kept(melted));
    df := ToRecords(long);
    TidyMelt(raw);
    NormalisedInRange(raw);
  }
}
