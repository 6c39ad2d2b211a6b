/**
 * The first-generation globe: mouse listeners on the map container
 * rotate the projection while the left button is down, and the wheel
 * scales it by a sixth of the current scale per event.
 */
module EarlyGlobe {
  import opened Base
  import opened Projection

  const MAX_LATITUDE: real := 90.0
  const MIN_LATITUDE: real := -MAX_LATITUDE
  /** Mouse moves closer together than this many milliseconds are dropped. */
  const ROTATION_UPDATE_INTERVAL: int := 40
  const ROTATION_SPEED: real := 250.0
  const MAX_SCALE: real := 1500.0
  const MIN_SCALE: real := 200.0
  const SCALE_CHANGE_CONSTANT: real := 1.0 / 6.0
  const ROTATION_SCALE_CONSTANT: real := 350.0

  /** A cursor position in screen pixels (`clientX`, `clientY`). */
  datatype Coords = Coords(x: real, y: real)

  datatype Globe = Globe(
    view: View,
    width: real,
    height: real,
    lastMouseCoords: Option<Coords>,
    lastMouseMove: int)

  predicate Valid(g: Globe) {
    g.view.scale > 0.0 && g.width > 0.0 && g.height > 0.0
  }

  /** `computeRotation(coords1, coords2)`: horizontal motion turns
      longitude by `(350 / scale) * (250 / width)` per pixel, vertical
      motion turns latitude the other way by `(350 / scale) * (250 / height)`,
      and latitude is clamped to +-90; roll is kept. */
  function ComputeRotation(v: View, width: real, height: real, c1: Coords, c2: Coords): (r: Rotation)
    requires v.scale > 0.0 && width > 0.0 && height > 0.0
    ensures r.gamma == v.rotation.gamma
    ensures r.lambda == v.rotation.lambda + (ROTATION_SCALE_CONSTANT / v.scale) * (ROTATION_SPEED / width) * (c2.x - c1.x)
    ensures MIN_LATITUDE <= r.phi <= MAX_LATITUDE
    ensures var phi := v.rotation.phi + (ROTATION_SCALE_CONSTANT / v.scale) * (ROTATION_SPEED / height) * (c1.y - c2.y);
            MIN_LATITUDE <= phi <= MAX_LATITUDE ==> r.phi == phi
  {
    var xFactor := (ROTATION_SCALE_CONSTANT / v.scale) * (ROTATION_SPEED / width);
    var yFactor := (ROTATION_SCALE_CONSTANT / v.scale) * (ROTATION_SPEED / height);
    var phi := v.rotation.phi + yFactor * (c1.y - c2.y);
    var clamped := ClampIfElse(phi, MIN_LATITUDE, MAX_LATITUDE);
    assert MIN_LATITUDE <= phi <= MAX_LATITUDE ==> clamped == phi;
    Rotation(v.rotation.lambda + xFactor * (c2.x - c1.x), clamped, v.rotation.gamma)
  }

  /** The `onwheel` handler's new scale: a sixth more when `deltaY` is
      negative and a sixth less otherwise (a `deltaY` of 0 included),
      then clamped to `[MIN_SCALE, MAX_SCALE]`. */
  function WheelScale(currScale: real, deltaY: real): (r: real)
    ensures MIN_SCALE <= r <= MAX_SCALE
    ensures deltaY < 0.0 && MIN_SCALE <= currScale <= MAX_SCALE ==> r >= currScale
    ensures deltaY >= 0.0 && MIN_SCALE <= currScale <= MAX_SCALE ==> r <= currScale
    ensures var s := if deltaY < 0.0 then currScale * (7.0 / 6.0) else currScale * (5.0 / 6.0);
            MIN_SCALE <= s <= MAX_SCALE ==> r == s
  {
    var scaleChange := currScale * SCALE_CHANGE_CONSTANT;
    var newScale := if deltaY < 0.0 then currScale + scaleChange else currScale - scaleChange;
    ClampMaxThenMin(newScale, MIN_SCALE, MAX_SCALE)
  }

  /** A wheel event with no vertical motion still zooms out. */
  lemma ZeroDeltaZoomsOut(currScale: real)
    requires MIN_SCALE * (6.0 / 5.0) <= currScale <= MAX_SCALE
    ensures WheelScale(currScale, 0.0) < currScale
    ensures WheelScale(currScale, 0.0) == currScale * (5.0 / 6.0)
  {
  }

  /** Zooming in and then out does not come back: each step is a fixed
      fraction of a different scale. */
  lemma WheelInOutNotInverse(currScale: real)
    requires MIN_SCALE <= currScale && currScale * (7.0 / 6.0) <= MAX_SCALE && currScale * (35.0 / 36.0) >= MIN_SCALE
    ensures WheelScale(WheelScale(currScale, -1.0), 1.0) == currScale * (35.0 / 36.0) < currScale
  {
  }

  datatype Event =
    | MouseDown(at: Coords)
    | MouseMove(now: int, buttons: int, at: Coords)
    | Wheel(deltaY: real)

  /** One listener call. A qualifying move before any mouse-down reads a
      `null` `lastMouseCoords` and throws, leaving the state unchanged. */
  function Step(g: Globe, e: Event): (r: Result<Globe>)
    requires Valid(g)
    ensures r.Ok? ==> Valid(r.value) && r.value.width == g.width && r.value.height == g.height
    ensures r.Throw? <==> e.MouseMove? && e.now - g.lastMouseMove > ROTATION_UPDATE_INTERVAL &&
                          e.buttons == 1 && g.lastMouseCoords.None?
    ensures e.MouseDown? ==> r == Ok(g.(lastMouseCoords := Some(e.at)))
    ensures e.MouseMove? && !(e.now - g.lastMouseMove > ROTATION_UPDATE_INTERVAL && e.buttons == 1) ==> r == Ok(g)
    ensures e.MouseMove? && r.Ok? && r.value != g ==>
              r.value.view.scale == g.view.scale && r.value.lastMouseCoords == Some(e.at) &&
              r.value.lastMouseMove == e.now && r.value.view.rotation == ComputeRotation(g.view, g.width, g.height, g.lastMouseCoords.value, e.at)
    ensures e.Wheel? ==> r.Ok? && r.value.view.rotation == g.view.rotation &&
                         r.value.view.scale == WheelScale(g.view.scale, e.deltaY) &&
                         r.value.lastMouseCoords == g.lastMouseCoords && r.value.lastMouseMove == g.lastMouseMove
  {
    match e
    case MouseDown(c) => Ok(g.(lastMouseCoords := Some(c)))
    case MouseMove(now, buttons, c) =>
      if now - g.lastMouseMove > ROTATION_UPDATE_INTERVAL && buttons == 1 then
        match g.lastMouseCoords
        case None => Throw("TypeError: Cannot read property 'x' of null")
        case Some(c1) =>
          var rotation := ComputeRotation(g.view, g.width, g.height, c1, c);
          Ok(g.(view := g.view.(rotation := rotation), lastMouseMove := now, lastMouseCoords := Some(c)))
      else Ok(g)
    case Wheel(deltaY) => Ok(g.(view := g.view.(scale := WheelScale(g.view.scale, deltaY))))
  }

  /** Latitude within +-90 and scale within `[MIN_SCALE, MAX_SCALE]`. */
  predicate InBounds(g: Globe) {
    MIN_LATITUDE <= g.view.rotation.phi <= MAX_LATITUDE && MIN_SCALE <= g.view.scale <= MAX_SCALE
  }

  /** Every successful listener call keeps the globe upright and its
      scale in range. */
  lemma StepKeepsBounds(g: Globe, e: Event)
    requires Valid(g) && InBounds(g)
    ensures Step(g, e).Ok? ==> InBounds(Step(g, e).value)
  {
  }

  /** The first drag rotates from the mouse-down position: down then a
      qualifying move turns the globe by exactly the cursor's travel. */
  lemma DownThenMove(g: Globe, c1: Coords, now: int, c2: Coords)
    requires Valid(g) && now - g.lastMouseMove > ROTATION_UPDATE_INTERVAL
    ensures var g1 := Step(g, MouseDown(c1)).value;
            var r := Step(g1, MouseMove(now, 1, c2));
            r.Ok? && r.value.view.rotation == ComputeRotation(g.view, g.width, g.height, c1, c2) && r.value.lastMouseCoords == Some(c2)
  {
  }
}
