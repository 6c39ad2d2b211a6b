/**
 * The second-generation globe controller. One d3-zoom handler serves
 * both gestures: a wheel event scales the initial scale by the zoom
 * factor `k`, which d3 keeps inside a configured extent; any other
 * source rotates. Its rotation rule and constants are those of
 * `InteractiveGlobe.ComputeRotation`.
 */
module EarlyInteractiveGlobe {
  import opened Base
  import opened Features
  import opened Projection
  import IG = InteractiveGlobe

  const MAX_SCALE: real := 3500.0
  const MIN_SCALE: real := 300.0
  const ROTATION_UPDATE_INTERVAL: int := 20
  const ROTATION_TRANSITION_LENGTH: int := 1000

  /** `scaleExtent([MIN_SCALE / initialScale, MAX_SCALE / initialScale])`:
      d3-zoom clamps the zoom factor `k` to this range before a handler
      sees it. */
  function ConstrainK(initialScale: real, k: real): (r: real)
    requires initialScale > 0.0
    ensures MIN_SCALE / initialScale <= r <= MAX_SCALE / initialScale
    ensures MIN_SCALE / initialScale <= k <= MAX_SCALE / initialScale ==> r == k
  {
    ClampMaxThenMin(k, MIN_SCALE / initialScale, MAX_SCALE / initialScale)
  }

  /** `computeScale(transform)`: the initial scale times the zoom factor. */
  function ComputeScale(initialScale: real, k: real): (r: real)
    requires initialScale > 0.0
    ensures MIN_SCALE <= r <= MAX_SCALE
    ensures MIN_SCALE / initialScale <= k <= MAX_SCALE / initialScale ==> r == initialScale * k
  {
    var c := ConstrainK(initialScale, k);
    ExtentScales(initialScale, c);
    initialScale * c
  }

  /** Multiplying back by the initial scale turns the extent of `k` into
      `[MIN_SCALE, MAX_SCALE]`. */
  lemma ExtentScales(initialScale: real, k: real)
    requires initialScale > 0.0
    requires MIN_SCALE / initialScale <= k <= MAX_SCALE / initialScale
    ensures MIN_SCALE <= initialScale * k <= MAX_SCALE
  {
    assert initialScale * (MIN_SCALE / initialScale) == MIN_SCALE;
    assert initialScale * (MAX_SCALE / initialScale) == MAX_SCALE;
  }

  /** What `rotateToLocation` may be given: a `[lon, lat]` pair or a
      GeoJSON feature, whose centroid is used. */
  datatype Target = At(lonLat: LonLat) | Of(feature: Feature)

  function TargetLocation(geo: Geodesy, t: Target): (p: LonLat)
    ensures t.At? ==> p == t.lonLat
    ensures t.Of? ==> p == geo.centroid(t.feature)
  {
    match t
    case At(p) => p
    case Of(f) => geo.centroid(f)
  }

  datatype Globe = Globe(
    view: View,
    initialScale: real,
    interaction: bool,
    zoomAttached: bool,
    isZooming: bool,
    lastZoom: int,
    lastTransform: IG.Transform,
    autoRotating: bool,
    autoRotateTimer: Option<IG.AutoRotateTimer>,
    pending: seq<IG.Transition>,
    callbacksRun: nat)

  /** The constructor: interaction flagged but unattached, auto-rotation
      flagged with no timer. */
  function NewGlobe(fitted: View): (g: Globe)
    requires fitted.scale > 0.0
    ensures Valid(g) && g.initialScale == fitted.scale && g.view == fitted
    ensures g.interaction && !g.zoomAttached && !g.isZooming && g.autoRotating && g.autoRotateTimer.None?
  {
    Globe(fitted, fitted.scale, true, false, false, 0, IG.Transform(1.0, 0.0, 0.0), true, None, [], 0)
  }

  predicate Valid(g: Globe) {
    g.initialScale > 0.0 && g.view.scale > 0.0
  }

  datatype Event =
    | ZoomStart
    | Zoom(now: int, transform: IG.Transform, isWheel: bool)
    | ZoomEnd
    | Tick
    | StartAutoRotate(ccw: bool)
    | StopAutoRotate
    | EnableInteraction
    | DisableInteraction
    | RotateToLocation(target: Target, withCallback: bool)
    | TransitionDone(index: nat)

  datatype Outcome = Outcome(globe: Globe, thrown: Option<string>)

  /** What every handler keeps. */
  predicate Preserves(g: Globe, g': Globe) {
    Valid(g') && g'.initialScale == g.initialScale &&
    (g.interaction == !g.zoomAttached ==> g'.interaction == !g'.zoomAttached)
  }

  /** Latitude within +-66.5, scale within `[MIN_SCALE, MAX_SCALE]`, and
      every pending rotation inside the latitude bound. */
  predicate InBounds(g: Globe) {
    IG.MIN_LATITUDE <= g.view.rotation.phi <= IG.MAX_LATITUDE &&
    MIN_SCALE <= g.view.scale <= MAX_SCALE &&
    forall i :: 0 <= i < |g.pending| ==> TargetInBounds(g.pending[i])
  }

  predicate TargetInBounds(t: IG.Transition) {
    t.scaleTarget.None? &&
    (t.rotationTarget.Some? ==> IG.MIN_LATITUDE <= t.rotationTarget.value.phi <= IG.MAX_LATITUDE)
  }

  /** `stopAutoRotate`, which throws while the timer is still `null`. */
  function Stop(g: Globe): (o: Outcome)
    ensures !o.globe.autoRotating && o.globe.view == g.view && o.globe.pending == g.pending
    ensures o.globe.interaction == g.interaction && o.globe.zoomAttached == g.zoomAttached
    ensures o.globe.isZooming == g.isZooming && o.globe.initialScale == g.initialScale
    ensures o.thrown.Some? <==> g.autoRotateTimer.None?
  {
    var g1 := g.(autoRotating := false);
    match g.autoRotateTimer
    case None => Outcome(g1, Some("TypeError: Cannot read property 'stop' of null"))
    case Some(t) => Outcome(g1.(autoRotateTimer := Some(t.(running := false))), None)
  }

  /** The `zoom` handler. A wheel event keeps x and y at the last drag
      position, so only the scale moves; a drag update rotates unless it
      follows the last accepted one within the update interval. */
  function ZoomStep(g: Globe, now: int, transform: IG.Transform, isWheel: bool): (g': Globe)
    requires Valid(g)
    ensures Preserves(g, g') && g'.pending == g.pending && (InBounds(g) ==> InBounds(g'))
    ensures !g.zoomAttached ==> g' == g
    ensures g.zoomAttached && isWheel ==>
              g' == g.(view := g.view.(scale := ComputeScale(g.initialScale, transform.k)))
    ensures g.zoomAttached && !isWheel && now - g.lastZoom < ROTATION_UPDATE_INTERVAL ==> g' == g
    ensures g.zoomAttached && !isWheel && now - g.lastZoom >= ROTATION_UPDATE_INTERVAL ==>
              g'.view == g.view.(rotation := IG.ComputeRotation(g.view, transform, g.lastTransform)) &&
              g'.lastZoom == now && g'.lastTransform == transform
  {
    if !g.zoomAttached then g
    else if isWheel then
      g.(view := g.view.(scale := ComputeScale(g.initialScale, transform.k)))
    else if now - g.lastZoom < ROTATION_UPDATE_INTERVAL then g
    else
      var rotation := IG.ComputeRotation(g.view, transform, g.lastTransform);
      g.(view := g.view.(rotation := rotation), lastZoom := now, lastTransform := transform)
  }

  function Disable(g: Globe): (g': Globe)
    ensures g'.interaction && !g'.zoomAttached
  {
    g.(interaction := true, zoomAttached := false)
  }

  function Enable(g: Globe): (g': Globe)
    ensures !g'.interaction && g'.zoomAttached
  {
    g.(interaction := false, zoomAttached := true)
  }

  /** `rotateToLocation`: disable interaction, switch to coarse data and
      start a rotation to the centring target, clamped nowhere. */
  function RotateStep(geo: Geodesy, g: Globe, target: Target, cb: bool): (g': Globe)
    requires Valid(g)
    ensures Preserves(g, g') && g'.view == g.view
    ensures g'.isZooming && g'.interaction && !g'.zoomAttached
    ensures g'.pending == g.pending + [IG.Transition(Some(TargetRotation(TargetLocation(geo, target))), None, ROTATION_TRANSITION_LENGTH, cb)]
    ensures InBounds(g) && IG.MIN_LATITUDE <= TargetLocation(geo, target).lat <= IG.MAX_LATITUDE ==> InBounds(g')
  {
    var t := IG.Transition(Some(TargetRotation(TargetLocation(geo, target))), None, ROTATION_TRANSITION_LENGTH, cb);
    var g' := Disable(g).(isZooming := true, pending := g.pending + [t]);
    assert forall j :: 0 <= j < |g.pending| ==> g'.pending[j] == g.pending[j];
    g'
  }

  /** The completion timeout of rotation `i`: at the target, with fine
      data and interaction back, and the callback run once. */
  function DoneStep(g: Globe, i: nat): (g': Globe)
    requires Valid(g)
    ensures Preserves(g, g') && (InBounds(g) ==> InBounds(g'))
    ensures i < |g.pending| ==>
              !g'.isZooming && !g'.interaction && g'.zoomAttached && |g'.pending| == |g.pending| - 1 &&
              g'.callbacksRun == g.callbacksRun + (if g.pending[i].hasCallback then 1 else 0)
    ensures i < |g.pending| && g.pending[i].rotationTarget.Some? ==> g'.view.rotation == g.pending[i].rotationTarget.value
    ensures i >= |g.pending| ==> g' == g
  {
    if i < |g.pending| then
      var t := g.pending[i];
      var rotation := if t.rotationTarget.Some? then t.rotationTarget.value else g.view.rotation;
      var g1 := g.(view := g.view.(rotation := rotation), isZooming := false,
                   pending := g.pending[..i] + g.pending[i + 1..]);
      assert forall j :: 0 <= j < |g1.pending| ==> g1.pending[j] in g.pending;
      assert InBounds(g) ==> TargetInBounds(t);
      Enable(g1).(callbacksRun := g.callbacksRun + (if t.hasCallback then 1 else 0))
    else g
  }

  function Step(geo: Geodesy, g: Globe, e: Event): (o: Outcome)
    requires Valid(g)
    ensures Preserves(g, o.globe)
    ensures o.thrown.Some? ==> e.ZoomStart? || e.StopAutoRotate?
    ensures InBounds(g) && (e.RotateToLocation? ==> IG.MIN_LATITUDE <= TargetLocation(geo, e.target).lat <= IG.MAX_LATITUDE) ==>
              InBounds(o.globe)
  {
    match e
    case ZoomStart =>
      if !g.zoomAttached then Outcome(g, None)
      else
        var g1 := g.(isZooming := true);
        if g1.autoRotating then Stop(g1) else Outcome(g1, None)
    case Zoom(now, transform, isWheel) => Outcome(ZoomStep(g, now, transform, isWheel), None)
    case ZoomEnd => Outcome(if g.zoomAttached then g.(isZooming := false) else g, None)
    case Tick =>
      if g.autoRotateTimer.Some? && g.autoRotateTimer.value.running then
        Outcome(g.(view := g.view.(rotation := AutoRotateTick(g.view.rotation, g.autoRotateTimer.value.ccw))), None)
      else Outcome(g, None)
    case StartAutoRotate(ccw) =>
      Outcome(g.(autoRotating := true, autoRotateTimer := Some(IG.Interval(ccw, true))), None)
    case StopAutoRotate => Stop(g)
    case EnableInteraction => Outcome(Enable(g), None)
    case DisableInteraction => Outcome(Disable(g), None)
    case RotateToLocation(target, cb) => Outcome(RotateStep(geo, g, target, cb), None)
    case TransitionDone(i) => Outcome(DoneStep(g, i), None)
  }

  /** While interaction is disabled no zoom event reaches the handler, the
      wheel included: unlike the third generation, a transition cannot be
      interrupted by scaling. */
  lemma WheelIgnoredWhileDisabled(geo: Geodesy, g: Globe, now: int, t: IG.Transform)
    requires Valid(g) && !g.zoomAttached
    ensures Step(geo, g, Zoom(now, t, true)) == Outcome(g, None)
  {
  }

  /** A wheel zoom changes the scale alone and leaves the drag state as it
      was, so the next drag does not jump. */
  lemma WheelChangesOnlyScale(geo: Geodesy, g: Globe, now: int, t: IG.Transform)
    requires Valid(g) && g.zoomAttached
    ensures var g' := Step(geo, g, Zoom(now, t, true)).globe;
            g'.view.rotation == g.view.rotation && g'.lastTransform == g.lastTransform &&
            g'.lastZoom == g.lastZoom && MIN_SCALE <= g'.view.scale <= MAX_SCALE
  {
  }

  /** Rotating to a feature centres its centroid, with the same flag
      sequence as the third generation's transitions. */
  lemma RotateToFeature(geo: Geodesy, g: Globe, f: Feature)
    requires Valid(g) && g.pending == []
    ensures var g1 := Step(geo, g, RotateToLocation(Of(f), true)).globe;
            g1.isZooming && g1.interaction && !g1.zoomAttached &&
            var g2 := Step(geo, g1, TransitionDone(0)).globe;
            !g2.isZooming && !g2.interaction && g2.zoomAttached && g2.callbacksRun == g.callbacksRun + 1 &&
            Centre(g2.view.rotation) == geo.centroid(f)
  {
  }

  /** The first drag start before any `startAutoRotate` throws on the
      `null` timer. */
  lemma DragStartBeforeAutoRotateThrows(geo: Geodesy, fitted: View)
    requires fitted.scale > 0.0
    ensures var g := Enable(NewGlobe(fitted));
            Step(geo, g, ZoomStart).thrown.Some?
  {
  }
}
