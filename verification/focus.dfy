/**
 The country the deep-dive views focus on. A click on the world map carries
 the clicked points; the first point's location is the focused country, and
 without a click the dashboard falls back to Germany.
 */
module Focus {

  datatype Point = Point(location: string)

  /** The map's `clickData`: absent until the first click. */
  datatype Click = NoClick | Clicked(points: seq<Point>)
  {
    /** A click always carries at least one point (`points[0]` is read). */
    predicate WellFormed()
    {
      Clicked? ==> |points| > 0
    }
  }

  const DefaultCountry: string := "Germany"

  /** The focused country (main.py:411-414, 431-434, 527-530). */
  function FocusedCountry(click: Click): (c: string)
    requires click.WellFormed()
    ensures click.NoClick? ==> c == DefaultCountry
    ensures click.Clicked? ==> c == click.points[0].location
  {
    match click
    case NoClick => DefaultCountry
    case Clicked(points) => points[0].location
  }

  const InfoPrefix: string := "You have selected: "
  const DeepDivePrefix: string := "Deep Dive: "

  /** The info line under the map and the second section's headline. */
  function InfoAndHeadline(click: Click): (texts: (string, string))
    requires click.WellFormed()
    ensures |texts.0| == |InfoPrefix| + |FocusedCountry(click)|
    ensures texts.0[..|InfoPrefix|] == InfoPrefix && texts.0[|InfoPrefix|..] == FocusedCountry(click)
    ensures |texts.1| == |DeepDivePrefix| + |FocusedCountry(click)|
    ensures texts.1[..|DeepDivePrefix|] == DeepDivePrefix && texts.1[|DeepDivePrefix|..] == FocusedCountry(click)
  {
    var country := FocusedCountry(click);
    (InfoPrefix + country, DeepDivePrefix + country)
  }

  /**
   The value of the country dropdown: a bare name or a list of names. A
   `country_name == @value` query matches the name itself or any member of
   the list.
   */
  datatype Selection = One(country: string) | Many(countries: seq<string>)
  {
    predicate Selects(name: string)
    {
      match this
      case One(c) => name == c
      case Many(cs) => name in cs
    }
  }

  /**
   The dropdown's value after a click (main.py:481-486): the bare default
   name without a click, a one-element list with one. Either way it selects
   exactly the focused country.
   */
  function DropdownValue(click: Click): (s: Selection)
    requires click.WellFormed()
    ensures click.NoClick? ==> s == One(DefaultCountry)
    ensures click.Clicked? ==> s == Many([click.points[0].location])
    ensures forall name :: s.Selects(name) <==> name == FocusedCountry(click)
  {
    match click
    case NoClick => One(DefaultCountry)
    case Clicked(points) => Many([points[0].location])
  }
}
