/**
 The normalised fertility data set: one record per country, year and
 maternal age band, plus the slicing and averaging that every dashboard
 view is built from.
 */
module Records {

  /** The six age bands that survive preparation (45-49 is dropped). */
  datatype Band = Age15to19 | Age20to24 | Age25to29 | Age30to34 | Age35to39 | Age40to44
  {
    /** The label the prepared frame carries in its `age` column. */
    function Label(): string
    {
      match this
      case Age15to19 => "15-19"
      case Age20to24 => "20-24"
      case Age25to29 => "25-29"
      case Age30to34 => "30-34"
      case Age35to39 => "35-39"
      case Age40to44 => "40-44"
    }
  }

  /** The bands in the order the trend charts list them. */
  const Bands: seq<Band> := [Age15to19, Age20to24, Age25to29, Age30to34, Age35to39, Age40to44]

  /** Years kept by preparation. */
  const FirstYear: int := 1970
  const LastYear: int := 2023

  datatype Record = Record(code: string, name: string, year: int, age: Band, rate: real)

  /** A row condition, the `df[df.col == value]` masks of the dashboard. */
  datatype Cond =
    | AgeIs(band: Band)
    | YearIs(year: int)
    | CountryIs(country: string)
    | CountryAmong(countries: seq<string>)
  {
    predicate Holds(r: Record)
    {
      match this
      case AgeIs(b) => r.age == b
      case YearIs(y) => r.year == y
      case CountryIs(c) => r.name == c
      case CountryAmong(cs) => r.name in cs
    }
  }

  /** The rows of `rs` that satisfy `c`, in their original order. */
  function Where(rs: seq<Record>, c: Cond): (r: seq<Record>)
    ensures |r| <= |rs|
    ensures forall x :: x in r <==> x in rs && c.Holds(x)
  {
    if rs == [] then []
    else if c.Holds(rs[0]) then [rs[0]] + Where(rs[1..], c) else Where(rs[1..], c)
  }

  /** A mask keeps every passing row as often as the frame holds it and drops every failing one. */
  lemma {:induction false} WhereMultiset(rs: seq<Record>, c: Cond)
    ensures forall x :: multiset(Where(rs, c))[x] == if c.Holds(x) then multiset(rs)[x] else 0
  {
    if rs != [] {
      WhereMultiset(rs[1..], c);
      assert rs == [rs[0]] + rs[1..];
      assert multiset(rs) == multiset{rs[0]} + multiset(rs[1..]);
      if c.Holds(rs[0]) {
        assert multiset(Where(rs, c)) == multiset{rs[0]} + multiset(Where(rs[1..], c));
      }
    }
  }

  /** Two masks applied one after the other commute. */
  lemma {:induction false} WhereCommutes(rs: seq<Record>, c: Cond, d: Cond)
    ensures Where(Where(rs, c), d) == Where(Where(rs, d), c)
  {
    if rs != [] {
      WhereCommutes(rs[1..], c, d);
    }
  }

  /** The `rate` column of a frame. */
  function Rates(rs: seq<Record>): seq<real>
  {
    seq(|rs|, i requires 0 <= i < |rs| => rs[i].rate)
  }

  function Sum(xs: seq<real>): real
  {
    if xs == [] then 0.0 else xs[0] + Sum(xs[1..])
  }

  /** The arithmetic mean of a non-empty column (pandas `.mean()`). */
  function Mean(xs: seq<real>): real
    requires |xs| > 0
  {
    Sum(xs) / (|xs| as real)
  }

  lemma {:induction false} SumAtLeast(xs: seq<real>, lo: real)
    requires forall i :: 0 <= i < |xs| ==> lo <= xs[i]
    ensures (|xs| as real) * lo <= Sum(xs)
  {
    if xs != [] {
      SumAtLeast(xs[1..], lo);
    }
  }

  lemma {:induction false} SumAtMost(xs: seq<real>, hi: real)
    requires forall i :: 0 <= i < |xs| ==> xs[i] <= hi
    ensures Sum(xs) <= (|xs| as real) * hi
  {
    if xs != [] {
      SumAtMost(xs[1..], hi);
    }
  }

  /** A mean lies between any lower and upper bound of its column. */
  lemma MeanBetween(xs: seq<real>, lo: real, hi: real)
    requires |xs| > 0
    requires forall i :: 0 <= i < |xs| ==> lo <= xs[i] <= hi
    ensures lo <= Mean(xs) <= hi
  {
    SumAtLeast(xs, lo);
    SumAtMost(xs, hi);
    var n := |xs| as real;
    assert n * lo <= Sum(xs) <= n * hi;
    assert Mean(xs) * n == Sum(xs);
  }

  /** Subtracting a constant from every entry of a column lowers its sum by that constant per entry. */
  lemma {:induction false} SumShifted(xs: seq<real>, ys: seq<real>, m: real)
    requires |ys| == |xs|
    requires forall i :: 0 <= i < |xs| ==> ys[i] == xs[i] - m
    ensures Sum(ys) == Sum(xs) - (|xs| as real) * m
  {
    if xs != [] {
      SumShifted(xs[1..], ys[1..], m);
    }
  }

  /**
   Python's `int(x)` and numpy's `.astype(int)` on a float: truncation toward
   zero. The ensures pin the result down without reference to the body.
   */
  function Trunc(x: real): (n: int)
    ensures 0.0 <= x ==> 0 <= n && n as real <= x < n as real + 1.0
    ensures x < 0.0 ==> n <= 0 && n as real - 1.0 < x <= n as real
  {
    if 0.0 <= x then x.Floor else -((-x).Floor)
  }
}
