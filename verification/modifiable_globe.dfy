/**
 * The third-generation highlight registry: countries are highlighted by
 * `NE_ID`, and a small country also gets a circle around it so that it
 * can be seen at all.
 */
module ModifiableGlobe {
  import opened Base
  import opened Features
  import opened Overlays

  const EARTH_RADIUS: real := 6371.0
  /** Countries smaller than this many square kilometres get a circle. */
  const THRESHOLD_AREA: real := 10000.0

  /** A `d3.geoCircle` with its colour. */
  datatype Circle = Circle(centre: LonLat, radius: real, colour: string)

  datatype Registry = Registry(highlighted: seq<Highlight<int>>, circles: seq<Circle>)

  /** `computeArea`: the spherical area in steradians scaled to square
      kilometres on the Earth. */
  function ComputeArea(geo: Geodesy, country: Feature): (r: real)
    ensures geo.area(country) >= 0.0 ==> r >= 0.0
    ensures r < THRESHOLD_AREA <==> geo.area(country) * (EARTH_RADIUS * EARTH_RADIUS) < THRESHOLD_AREA
  {
    geo.area(country) * EARTH_RADIUS * EARTH_RADIUS
  }

  function Max(a: real, b: real): real {
    if a >= b then a else b
  }

  /** The four corners of a country's bounding box. */
  function Corners(b: Bounds): (r: seq<LonLat>)
    ensures |r| == 4
  {
    [LonLat(b.right, b.top), LonLat(b.right, b.bottom), LonLat(b.left, b.bottom), LonLat(b.left, b.top)]
  }

  /** `computeCircleRadius`: the greatest distance from the centroid to a
      corner of the bounding box, in degrees, so the circle covers the box. */
  function ComputeCircleRadius(geo: Geodesy, country: Feature): (r: real)
    ensures var c := geo.centroid(country);
            var corners := Corners(geo.bounds(country));
            (forall i :: 0 <= i < 4 ==> geo.distance(c, corners[i]) * 180.0 / PI <= r) &&
            (exists i :: 0 <= i < 4 && r == geo.distance(c, corners[i]) * 180.0 / PI)
  {
    var c := geo.centroid(country);
    var b := geo.bounds(country);
    var tr := geo.distance(c, LonLat(b.right, b.top));
    var br := geo.distance(c, LonLat(b.right, b.bottom));
    var bl := geo.distance(c, LonLat(b.left, b.bottom));
    var tl := geo.distance(c, LonLat(b.left, b.top));
    var m := Max(Max(tr, br), Max(bl, tl));
    ScaleMonotone(tr, m);
    ScaleMonotone(br, m);
    ScaleMonotone(bl, m);
    ScaleMonotone(tl, m);
    var corners := Corners(b);
    var dists := [tr, br, bl, tl];
    assert forall i :: 0 <= i < 4 ==> geo.distance(c, corners[i]) == dists[i];
    assert m == tr || m == br || m == bl || m == tl;
    var k := if m == tr then 0 else if m == br then 1 else if m == bl then 2 else 3;
    assert m == dists[k];
    m * 180.0 / PI
  }

  lemma ScaleMonotone(x: real, y: real)
    requires x <= y
    ensures x * 180.0 / PI <= y * 180.0 / PI
  {
  }

  /** `highlightCountry(country, colour)`: records `{NE_ID, colour}` and,
      for a country under the threshold area, a circle of that colour
      around its centroid. */
  function HighlightCountry(geo: Geodesy, reg: Registry, country: Feature, colour: string): (r: Registry)
    ensures r.highlighted == reg.highlighted + [Highlight(country.properties.NE_ID, colour)]
    ensures ComputeArea(geo, country) < THRESHOLD_AREA ==>
              r.circles == reg.circles + [Circle(geo.centroid(country), ComputeCircleRadius(geo, country), colour)]
    ensures ComputeArea(geo, country) >= THRESHOLD_AREA ==> r.circles == reg.circles
  {
    var highlighted := reg.highlighted + [Highlight(country.properties.NE_ID, colour)];
    var circles :=
      if ComputeArea(geo, country) < THRESHOLD_AREA then
        reg.circles + [Circle(geo.centroid(country), ComputeCircleRadius(geo, country), colour)]
      else reg.circles;
    Registry(highlighted, circles)
  }

  /** `isHighlightedCountry(d, colour)`, matching on `NE_ID`. */
  function IsHighlightedCountry(reg: Registry, d: Feature, colour: string): (r: bool)
    ensures r <==> exists i :: 0 <= i < |reg.highlighted| &&
                              reg.highlighted[i] == Highlight(d.properties.NE_ID, colour)
  {
    IsHighlighted(reg.highlighted, d.properties.NE_ID, colour)
  }

  /** `clearHighlightedCountries`: both lists are emptied. */
  function ClearHighlightedCountries(reg: Registry): (r: Registry)
    ensures forall d, colour :: !IsHighlightedCountry(r, d, colour)
    ensures r.circles == []
  {
    Registry([], [])
  }

  /** Highlighting a country makes exactly it, in exactly that colour,
      newly highlighted; everything else keeps its state, and a circle
      appears only for a small country. */
  lemma HighlightThenQuery(geo: Geodesy, reg: Registry, country: Feature, colour: string, d: Feature, c: string)
    ensures var r := HighlightCountry(geo, reg, country, colour);
            IsHighlightedCountry(r, d, c) <==>
              IsHighlightedCountry(reg, d, c) || (d.properties.NE_ID == country.properties.NE_ID && c == colour)
    ensures var r := HighlightCountry(geo, reg, country, colour);
            |r.circles| == |reg.circles| + (if ComputeArea(geo, country) < THRESHOLD_AREA then 1 else 0)
  {
    HighlightAdds(reg.highlighted, country.properties.NE_ID, colour, d.properties.NE_ID, c);
  }

  /** The colours are independent: a country highlighted red only is not
      highlighted green. */
  lemma ColoursIndependent(geo: Geodesy, country: Feature)
    ensures var r := HighlightCountry(geo, Registry([], []), country, "red");
            IsHighlightedCountry(r, country, "red") && !IsHighlightedCountry(r, country, "green")
  {
    HighlightThenQuery(geo, Registry([], []), country, "red", country, "green");
    HighlightThenQuery(geo, Registry([], []), country, "red", country, "red");
  }
}
