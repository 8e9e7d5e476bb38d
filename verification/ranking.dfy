/**
 The `nlargest(n, "rate")` and `nsmallest(n, "rate")` rankings of a frame,
 with pandas' default `keep='first'`: rows with equal rates keep their
 frame order. A ranking is computed on row positions; the caller picks the
 rows at those positions.
 */
module Ranking {

  datatype Direction = Largest | Smallest

  /**
   Row p ranks before row q: a strictly better rate, or the same rate and an
   earlier row.
   */
  predicate Precedes(rates: seq<real>, dir: Direction, p: nat, q: nat)
    requires p < |rates| && q < |rates|
  {
    match dir
    case Largest => rates[p] > rates[q] || (rates[p] == rates[q] && p < q)
    case Smallest => rates[p] < rates[q] || (rates[p] == rates[q] && p < q)
  }

  predicate Positions(rates: seq<real>, s: seq<nat>)
  {
    forall i :: 0 <= i < |s| ==> s[i] < |rates|
  }

  /** Every position is ranked before every later one. */
  predicate Ranked(rates: seq<real>, dir: Direction, s: seq<nat>)
    requires Positions(rates, s)
  {
    forall i, j :: 0 <= i < j < |s| ==> Precedes(rates, dir, s[i], s[j])
  }

  function Insert(rates: seq<real>, dir: Direction, p: nat, s: seq<nat>): (r: seq<nat>)
    requires p < |rates| && Positions(rates, s)
    ensures Positions(rates, r) && |r| == |s| + 1
    ensures forall x :: x in r <==> x == p || x in s
    ensures r[0] == p || (s != [] && r[0] == s[0])
  {
    if s == [] then [p]
    else if Precedes(rates, dir, p, s[0]) then [p] + s
    else [s[0]] + Insert(rates, dir, p, s[1..])
  }

  lemma {:induction false} InsertRanked(rates: seq<real>, dir: Direction, p: nat, s: seq<nat>)
    requires p < |rates| && Positions(rates, s) && Ranked(rates, dir, s) && p !in s
    ensures Ranked(rates, dir, Insert(rates, dir, p, s))
  {
    if s != [] && !Precedes(rates, dir, p, s[0]) {
      InsertRanked(rates, dir, p, s[1..]);
      var r := Insert(rates, dir, p, s);
      var t := Insert(rates, dir, p, s[1..]);
      assert r == [s[0]] + t;
      forall j | 0 < j < |r| ensures Precedes(rates, dir, s[0], r[j]) {
        assert r[j] in t;
      }
    }
  }

  /** The first k rows, in ranking order. */
  function Order(rates: seq<real>, dir: Direction, k: nat): (r: seq<nat>)
    requires k <= |rates|
    ensures Positions(rates, r) && |r| == k
    ensures forall x :: x in r <==> 0 <= x < k
    ensures Ranked(rates, dir, r)
  {
    if k == 0 then []
    else
      var s := Order(rates, dir, k - 1);
      InsertRanked(rates, dir, k - 1, s);
      Insert(rates, dir, k - 1, s)
  }

  function Min(a: nat, b: nat): nat
  {
    if a <= b then a else b
  }

  /**
   The positions of the n best rows, best first. Every row left out ranks
   after every row kept.
   */
  function Top(rates: seq<real>, dir: Direction, n: nat): (r: seq<nat>)
    ensures Positions(rates, r) && |r| == Min(n, |rates|)
    ensures Ranked(rates, dir, r)
    ensures forall q :: 0 <= q < |rates| && q !in r ==>
              forall i :: 0 <= i < |r| ==> Precedes(rates, dir, r[i], q)
  {
    var s := Order(rates, dir, |rates|);
    var r := s[..Min(n, |rates|)];
    forall q | 0 <= q < |rates| && q !in r
      ensures forall i :: 0 <= i < |r| ==> Precedes(rates, dir, r[i], q)
    {
      assert q in s;
      var j :| 0 <= j < |s| && s[j] == q;
      assert j >= |r|;
    }
    r
  }

  /** A ranked sequence lists no position twice. */
  lemma RankedDistinct(rates: seq<real>, dir: Direction, s: seq<nat>)
    requires Positions(rates, s) && Ranked(rates, dir, s)
    ensures forall i, j :: 0 <= i < j < |s| ==> s[i] != s[j]
  {
  }

  /** The rates along a `Largest` ranking never increase; equal rates keep row order. */
  lemma LargestDescending(rates: seq<real>, n: nat)
    ensures forall i, j :: 0 <= i < j < |Top(rates, Largest, n)| ==>
              var r := Top(rates, Largest, n);
              rates[r[i]] >= rates[r[j]] && (rates[r[i]] == rates[r[j]] ==> r[i] < r[j])
  {
  }

  function Negated(rates: seq<real>): seq<real>
  {
    seq(|rates|, i requires 0 <= i < |rates| => -rates[i])
  }

  lemma {:induction false} InsertMirror(rates: seq<real>, p: nat, s: seq<nat>)
    requires p < |rates| && Positions(rates, s)
    ensures Insert(rates, Smallest, p, s) == Insert(Negated(rates), Largest, p, s)
  {
    if s != [] {
      InsertMirror(rates, p, s[1..]);
    }
  }

  lemma {:induction false} OrderMirror(rates: seq<real>, k: nat)
    requires k <= |rates|
    ensures Order(rates, Smallest, k) == Order(Negated(rates), Largest, k)
  {
    if k > 0 {
      OrderMirror(rates, k - 1);
      InsertMirror(rates, k - 1, Order(rates, Smallest, k - 1));
    }
  }

  /** `nsmallest` is `nlargest` of the negated rates. */
  lemma SmallestMirrorsLargest(rates: seq<real>, n: nat)
    ensures Top(rates, Smallest, n) == Top(Negated(rates), Largest, n)
  {
    OrderMirror(rates, |rates|);
  }
}
