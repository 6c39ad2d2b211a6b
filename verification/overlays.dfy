/**
 * What both `ModifiableGlobe` generations draw over the map: a list of
 * points, a list of highlighted countries, and named event handlers.
 * Projection, its inverse and the horizon waypoint are parameters.
 */
module Overlays {
  import opened Base
  import opened Seqs
  import opened Features

  /** `POINT_TYPE`: how a point behind the globe is drawn. */
  const ALWAYS_VISIBLE: int := 1
  const INVISIBLE_BEYOND_HORIZON: int := 2
  const VISIBLE_ON_HORIZON: int := 3

  /** A `{lonlat, type}` entry of the points list. */
  datatype Point = Point(lonLat: LonLat, pointType: int)

  /** `addPoint(lonlat, type)`: appends, with `VISIBLE_ON_HORIZON` when no
      type is passed. */
  function AddPoint(points: seq<Point>, lonLat: LonLat, pointType: Option<int>): (r: seq<Point>)
    ensures |r| == |points| + 1 && r[..|points|] == points
    ensures r[|points|].lonLat == lonLat
    ensures r[|points|].pointType == (if pointType.Some? then pointType.value else VISIBLE_ON_HORIZON)
  {
    points + [Point(lonLat, if pointType.Some? then pointType.value else VISIBLE_ON_HORIZON)]
  }

  /** Points are matched by longitude and latitude; the type is ignored. */
  predicate SameLocation(a: Point, b: Point) {
    a.lonLat.lon == b.lonLat.lon && a.lonLat.lat == b.lonLat.lat
  }

  /** `removePoint(target)`: deletes the first point at the target's
      location and keeps the others in order; throws when none is there. */
  function RemovePoint(points: seq<Point>, target: Point): (r: Result<seq<Point>>)
    ensures r.Throw? <==> forall i :: 0 <= i < |points| ==> !SameLocation(points[i], target)
    ensures r.Throw? ==> r.message == "Point not found"
    ensures r.Ok? ==> exists i :: 0 <= i < |points| && SameLocation(points[i], target) &&
                                  (forall j :: 0 <= j < i ==> !SameLocation(points[j], target)) &&
                                  r.value == points[..i] + points[i + 1..]
    ensures r.Ok? ==> |r.value| == |points| - 1 && multiset(r.value) < multiset(points)
  {
    match FirstIndex(points, (p: Point) => SameLocation(p, target))
    case None => Throw("Point not found")
    case Some(i) =>
      var rest := RemoveAt(points, i);
      assert rest == points[..i] + points[i + 1..];
      assert multiset(rest) + multiset{points[i]} == multiset(points);
      Ok(rest)
  }

  /** Removing a point just added at a fresh location restores the list. */
  lemma RemoveUndoesAdd(points: seq<Point>, lonLat: LonLat, pointType: Option<int>)
    requires forall i :: 0 <= i < |points| ==> points[i].lonLat != lonLat
    ensures RemovePoint(AddPoint(points, lonLat, pointType), Point(lonLat, ALWAYS_VISIBLE)) == Ok(points)
  {
    var added := AddPoint(points, lonLat, pointType);
    var target := Point(lonLat, ALWAYS_VISIBLE);
    var r := RemovePoint(added, target);
    assert SameLocation(added[|points|], target);
    var i :| 0 <= i < |added| && SameLocation(added[i], target) &&
             (forall j :: 0 <= j < i ==> !SameLocation(added[j], target)) &&
             r.value == added[..i] + added[i + 1..];
    assert i == |points|;
    assert added[..i] == points;
    assert added[i + 1..] == [];
    assert r.value == points;
  }

  /** Where the screen is looking, as the projection gives it. */
  datatype Screen = Screen(
    centre: LonLat,                   // getProjectionCenter: the inverse of the svg's midpoint
    project: LonLat -> ScreenPoint,   // projection(lonlat)
    horizonPoint: LonLat -> LonLat)   // getHorizonPoint: the waypoint pi/2 from the centre

  datatype ScreenPoint = ScreenPoint(x: real, y: real)

  /** Where a point behind the globe is parked, off the svg. */
  const PARKED: ScreenPoint := ScreenPoint(-10.0, -10.0)

  /** `isPointVisible`: on the near hemisphere, the horizon included. */
  predicate IsPointVisible(geo: Geodesy, screen: Screen, p: LonLat) {
    geo.distance(screen.centre, p) <= PI / 2.0
  }

  /** `getPointCoords`: a visible point is projected where it is. Behind
      the globe an `INVISIBLE_BEYOND_HORIZON` point is parked off-screen, a
      `VISIBLE_ON_HORIZON` point is moved to the horizon, and any other
      type is projected where it is. */
  function PointCoords(geo: Geodesy, screen: Screen, point: Point): (r: ScreenPoint)
    ensures IsPointVisible(geo, screen, point.lonLat) ==> r == screen.project(point.lonLat)
    ensures !IsPointVisible(geo, screen, point.lonLat) && point.pointType == INVISIBLE_BEYOND_HORIZON ==> r == PARKED
    ensures !IsPointVisible(geo, screen, point.lonLat) && point.pointType == VISIBLE_ON_HORIZON ==>
              r == screen.project(screen.horizonPoint(point.lonLat))
    ensures point.pointType !in {INVISIBLE_BEYOND_HORIZON, VISIBLE_ON_HORIZON} ==> r == screen.project(point.lonLat)
  {
    var lonLat := point.lonLat;
    if point.pointType == ALWAYS_VISIBLE then screen.project(lonLat)
    else if point.pointType == INVISIBLE_BEYOND_HORIZON then
      if !IsPointVisible(geo, screen, lonLat) then PARKED else screen.project(lonLat)
    else if point.pointType == VISIBLE_ON_HORIZON then
      if !IsPointVisible(geo, screen, lonLat) then screen.project(screen.horizonPoint(lonLat)) else screen.project(lonLat)
    else screen.project(lonLat)
  }

  /** A point a quarter turn from the centre is still on screen for every
      point type. */
  lemma HorizonIsVisible(geo: Geodesy, screen: Screen, point: Point)
    requires geo.distance(screen.centre, point.lonLat) == PI / 2.0
    ensures PointCoords(geo, screen, point) == screen.project(point.lonLat)
  {
  }

  /** A `{key, colour}` entry of the highlight list. */
  datatype Highlight<K> = Highlight(key: K, colour: string)

  /** `isHighlightedCountry(d, colour)`: some entry matches both the key
      and the colour. */
  function IsHighlighted<K(==)>(highlighted: seq<Highlight<K>>, key: K, colour: string): (r: bool)
    ensures r <==> exists i :: 0 <= i < |highlighted| && highlighted[i].key == key && highlighted[i].colour == colour
  {
    FirstIndex(highlighted, (h: Highlight<K>) => h.key == key && h.colour == colour).Some?
  }

  /** Appending an entry highlights exactly that key in that colour on
      top of what was highlighted before. */
  lemma HighlightAdds<K>(highlighted: seq<Highlight<K>>, key: K, colour: string, other: K, otherColour: string)
    ensures IsHighlighted(highlighted + [Highlight(key, colour)], other, otherColour) <==>
              IsHighlighted(highlighted, other, otherColour) || (other == key && otherColour == colour)
  {
    var h := highlighted + [Highlight(key, colour)];
    if IsHighlighted(highlighted, other, otherColour) {
      var i :| 0 <= i < |highlighted| && highlighted[i].key == other && highlighted[i].colour == otherColour;
      assert h[i] == highlighted[i];
    }
    if IsHighlighted(h, other, otherColour) && !(other == key && otherColour == colour) {
      var i :| 0 <= i < |h| && h[i].key == other && h[i].colour == otherColour;
      assert i < |highlighted| && h[i] == highlighted[i];
    }
    if other == key && otherColour == colour {
      assert h[|highlighted|] == Highlight(key, colour);
    }
  }

  /** The callbacks registered through `on`: an id per callback, with
      `None` for an explicit `null`. */
  type Handlers = map<string, Option<nat>>

  /** `on(event, cb)`: stores the callback under `'on' + event`,
      replacing any earlier one. */
  function On(handlers: Handlers, event: string, cb: Option<nat>): (r: Handlers)
    ensures "on" + event in r && r["on" + event] == cb
    ensures forall k :: k in handlers && k != "on" + event ==> k in r && r[k] == handlers[k]
    ensures r.Keys == handlers.Keys + {"on" + event}
  {
    handlers["on" + event := cb]
  }

  /** Whether the handler under `name` would be called (`if (this[name])`). */
  predicate IsSet(handlers: Handlers, name: string) {
    name in handlers && handlers[name].Some?
  }

  /** Registering twice keeps only the second callback. */
  lemma OnReplaces(handlers: Handlers, event: string, cb1: Option<nat>, cb2: Option<nat>)
    ensures On(On(handlers, event, cb1), event, cb2) == On(handlers, event, cb2)
  {
  }

  /** A call forwarded to the `onclick` handler. */
  datatype ClickCall = ClickCall(handler: nat, lonLat: LonLat, country: Feature)

  /** What a country click leaves behind: the points list and the call
      made to `onclick`, if any. */
  datatype Clicked = Clicked(points: seq<Point>, call: Option<ClickCall>)

  /** The `click` listener of a country path: in point mode a point of the
      default type is added at the clicked location; then `onclick`, if
      set, receives the location and the country. */
  function ClickCountry(points: seq<Point>, pointMode: bool, handlers: Handlers, lonLat: LonLat, country: Feature): (r: Clicked)
    ensures pointMode ==> r.points == AddPoint(points, lonLat, None)
    ensures !pointMode ==> r.points == points
    ensures r.call.Some? <==> IsSet(handlers, "onclick")
    ensures r.call.Some? ==> r.call.value == ClickCall(handlers["onclick"].value, lonLat, country)
  {
    var points' := if pointMode then AddPoint(points, lonLat, None) else points;
    var call := if IsSet(handlers, "onclick") then Some(ClickCall(handlers["onclick"].value, lonLat, country)) else None;
    Clicked(points', call)
  }

  /** `on('click', cb)` is what a country click calls, with the click's
      location and country. */
  lemma ClickReachesHandler(points: seq<Point>, pointMode: bool, handlers: Handlers, cb: nat, lonLat: LonLat, country: Feature)
    ensures ClickCountry(points, pointMode, On(handlers, "click", Some(cb)), lonLat, country).call == Some(ClickCall(cb, lonLat, country))
  {
    assert "on" + "click" == "onclick";
  }

  /** The `click` listener of a drawn point: in point mode it removes the
      first point at the clicked point's location, and throws 'Point not
      found' when no point is there; outside point mode it does nothing. */
  function ClickPoint(points: seq<Point>, pointMode: bool, point: Point): (r: Result<seq<Point>>)
    ensures !pointMode ==> r == Ok(points)
    ensures pointMode ==> (r.Throw? <==> forall i :: 0 <= i < |points| ==> !SameLocation(points[i], point))
    ensures r.Throw? ==> r.message == "Point not found"
    ensures pointMode && r.Ok? ==>
              exists i :: 0 <= i < |points| && SameLocation(points[i], point) &&
                          (forall j :: 0 <= j < i ==> !SameLocation(points[j], point)) &&
                          r.value == points[..i] + points[i + 1..]
    ensures pointMode && point in points ==> r.Ok? && |r.value| == |points| - 1
  {
    if pointMode then RemovePoint(points, point) else Ok(points)
  }

  /** In point mode, clicking the point a country click has just added at
      a fresh location takes the list back to what it was. */
  lemma ClickPointUndoesCountryClick(points: seq<Point>, handlers: Handlers, lonLat: LonLat, country: Feature)
    requires forall i :: 0 <= i < |points| ==> points[i].lonLat != lonLat
    ensures var added := ClickCountry(points, true, handlers, lonLat, country).points;
            |added| == |points| + 1 && ClickPoint(added, true, added[|points|]) == Ok(points)
  {
    var added := ClickCountry(points, true, handlers, lonLat, country).points;
    var p := added[|points|];
    forall j | 0 <= j < |points| ensures !SameLocation(added[j], p) {
      assert added[j] == points[j];
    }
    assert SameLocation(p, p);
    var r := ClickPoint(added, true, p);
    assert r.Ok?;
    var i :| 0 <= i < |added| && SameLocation(added[i], p) &&
             (forall j :: 0 <= j < i ==> !SameLocation(added[j], p)) &&
             r.value == added[..i] + added[i + 1..];
    assert i == |points|;
    assert added[..i] == points;
    assert added[i + 1..] == [];
    assert r.value == points;
  }
}
