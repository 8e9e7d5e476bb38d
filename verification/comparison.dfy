/**
 The country comparison: the rows of one age band for the countries picked
 in the dropdown, sorted by year and then by country name, one line per
 country in the chart.
 */
module Comparison {
  import opened Records
  import opened Focus

  /** Python's `<=` on strings: lexicographic by code point, a prefix first. */
  predicate NameLeq(a: string, b: string)
  {
    if a == [] then true
    else if b == [] then false
    else a[0] < b[0] || (a[0] == b[0] && NameLeq(a[1..], b[1..]))
  }

  lemma {:induction false} NameLeqTotal(a: string, b: string)
    ensures NameLeq(a, b) || NameLeq(b, a)
  {
    if a != [] && b != [] && a[0] == b[0] {
      NameLeqTotal(a[1..], b[1..]);
    }
  }

  lemma {:induction false} NameLeqTransitive(a: string, b: string, c: string)
    requires NameLeq(a, b) && NameLeq(b, c)
    ensures NameLeq(a, c)
  {
    if a != [] && b != [] && c != [] && a[0] == b[0] && b[0] == c[0] {
      NameLeqTransitive(a[1..], b[1..], c[1..]);
    }
  }

  lemma {:induction false} NameLeqAntisymmetric(a: string, b: string)
    requires NameLeq(a, b) && NameLeq(b, a)
    ensures a == b
  {
    if a != [] && b != [] {
      NameLeqAntisymmetric(a[1..], b[1..]);
      assert a == [a[0]] + a[1..] && b == [b[0]] + b[1..];
    }
  }

  /** The `sort_values(by=["year", "country_name"])` key order. */
  predicate RowLeq(x: Record, y: Record)
  {
    x.year < y.year || (x.year == y.year && NameLeq(x.name, y.name))
  }

  lemma RowLeqTotal(x: Record, y: Record)
    ensures RowLeq(x, y) || RowLeq(y, x)
  {
    NameLeqTotal(x.name, y.name);
  }

  lemma RowLeqTransitive(x: Record, y: Record, z: Record)
    requires RowLeq(x, y) && RowLeq(y, z)
    ensures RowLeq(x, z)
  {
    if x.year == y.year && y.year == z.year {
      NameLeqTransitive(x.name, y.name, z.name);
    }
  }

  predicate SortedByYearName(s: seq<Record>)
  {
    forall i, j :: 0 <= i < j < |s| ==> RowLeq(s[i], s[j])
  }

  /** Places x before the first row of the sorted `s` it does not follow. */
  function InsertRow(x: Record, s: seq<Record>): (r: seq<Record>)
    ensures multiset(r) == multiset(s) + multiset{x}
    ensures |r| == |s| + 1
    ensures forall y :: y in r <==> y == x || y in s
  {
    if s == [] then [x]
    else if RowLeq(x, s[0]) then [x] + s
    else
      assert s == [s[0]] + s[1..];
      [s[0]] + InsertRow(x, s[1..])
  }

  lemma {:induction false} InsertRowSorted(x: Record, s: seq<Record>)
    requires SortedByYearName(s)
    ensures SortedByYearName(InsertRow(x, s))
  {
    var r := InsertRow(x, s);
    if s == [] {
    } else if RowLeq(x, s[0]) {
      forall j | 0 < j < |r| ensures RowLeq(x, r[j]) {
        if j > 1 {
          RowLeqTransitive(x, s[0], s[j - 1]);
        }
      }
    } else {
      InsertRowSorted(x, s[1..]);
      var t := InsertRow(x, s[1..]);
      assert r == [s[0]] + t;
      RowLeqTotal(x, s[0]);
      forall j | 0 < j < |r| ensures RowLeq(s[0], r[j]) {
        assert r[j] in t;
        if r[j] != x {
          var k :| 1 <= k < |s| && s[k] == r[j];
        }
      }
    }
  }

  /** A stable sort by year, then country name. */
  function SortByYearName(s: seq<Record>): (r: seq<Record>)
    ensures multiset(r) == multiset(s)
    ensures SortedByYearName(r)
  {
    if s == [] then []
    else
      var t := SortByYearName(s[1..]);
      InsertRowSorted(s[0], t);
      assert s == [s[0]] + s[1..];
      InsertRow(s[0], t)
  }

  /** `country_name == @value`: equality with a bare name, membership in a list. */
  function SelectionCond(sel: Selection): (c: Cond)
    ensures forall x :: c.Holds(x) <==> sel.Selects(x.name)
  {
    match sel
    case One(name) => CountryIs(name)
    case Many(names) => CountryAmong(names)
  }

  /**
   The line chart's frame (main.py:495-499): each row of the band for a
   selected country, as often as the data set holds it, sorted by year and
   then by name.
   */
  function ComparisonSeries(df: seq<Record>, band: Band, sel: Selection): (r: seq<Record>)
    ensures SortedByYearName(r)
    ensures forall x :: multiset(r)[x] == if x.age == band && sel.Selects(x.name) then multiset(df)[x] else 0
  {
    var dff := Where(df, AgeIs(band));
    WhereMultiset(df, AgeIs(band));
    WhereMultiset(dff, SelectionCond(sel));
    SortByYearName(Where(dff, SelectionCond(sel)))
  }

  /**
   After a map click the dropdown holds the clicked country (or Germany
   without a click), and the chart then shows that country's band rows and
   nothing else.
   */
  lemma ComparisonFollowsClick(df: seq<Record>, band: Band, click: Click)
    requires click.WellFormed()
    ensures var r := ComparisonSeries(df, band, DropdownValue(click));
            forall x :: x in r <==> x in df && x.age == band && x.name == FocusedCountry(click)
  {
    var r := ComparisonSeries(df, band, DropdownValue(click));
    forall x ensures x in r <==> x in df && x.age == band && x.name == FocusedCountry(click) {
      assert x in r <==> multiset(r)[x] > 0;
      assert x in df <==> multiset(df)[x] > 0;
    }
  }
}
