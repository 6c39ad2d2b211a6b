/**
 * The third-generation globe controller: drag rotation through d3-zoom,
 * a separate wheel handler on an exponential scale curve, animated
 * transitions, and auto-rotation. Timers and d3 callbacks are events;
 * drawing is not modelled.
 */
module InteractiveGlobe {
  import opened Base
  import opened Features
  import opened Projection

  const MAX_LATITUDE: real := 66.5
  const MIN_LATITUDE: real := -MAX_LATITUDE
  const MAX_SCALE: real := 3500.0
  /** The static default; the constructor overwrites it with the fitted scale. */
  const DEFAULT_MIN_SCALE: real := 100.0
  /** Drag updates closer together than this many milliseconds are dropped. */
  const ROTATION_UPDATE_INTERVAL: int := 20
  const ROTATION_SCALE_CONSTANT: real := 90.0
  const ROTATION_TRANSITION_LENGTH: int := 700
  const ZOOM_OUT_LENGTH: int := 1000

  /** A d3-zoom transform. */
  datatype Transform = Transform(k: real, x: real, y: real)

  /** The exponential wheel curve `exp(a * x + b)` and its inverse, built
      in the constructor from the fitted and maximum scales. */
  datatype ScaleCurve = ScaleCurve(scaleFunc: real -> real, invScaleFunc: real -> real)

  /** The `d3.interval` behind auto-rotation, once one has been started. */
  datatype AutoRotateTimer = Interval(ccw: bool, running: bool)

  /** A transition waiting for its completion timeout: the targets its
      tweens reach at the end, and whether a callback was passed. */
  datatype Transition = Transition(rotationTarget: Option<Rotation>, scaleTarget: Option<real>, length: int, hasCallback: bool)

  datatype Globe = Globe(
    view: View,
    minScale: real,
    curve: ScaleCurve,
    interaction: bool,        // set by disableInteraction, cleared by enableInteraction
    zoomAttached: bool,       // the d3-zoom drag listeners are on the svg
    isZooming: bool,
    lastZoom: int,
    lastTransform: Transform,
    autoRotating: bool,
    autoRotateTimer: Option<AutoRotateTimer>,
    pending: seq<Transition>,
    callbacksRun: nat)

  /** The constructor: the fitted scale becomes `MIN_SCALE`, interaction
      starts flagged but unattached, and auto-rotation is flagged on
      although no timer exists yet. */
  function NewGlobe(fitted: View, curve: ScaleCurve): (g: Globe)
    requires fitted.scale > 0.0
    ensures Valid(g) && g.minScale == fitted.scale && g.view == fitted
    ensures g.interaction && !g.zoomAttached && !g.isZooming
    ensures g.autoRotating && g.autoRotateTimer.None? && g.pending == []
  {
    Globe(fitted, fitted.scale, curve, true, false, false, 0, Transform(1.0, 0.0, 0.0), true, None, [], 0)
  }

  /** What every reachable state satisfies: a positive scale. */
  predicate Valid(g: Globe) {
    g.minScale > 0.0 && g.view.scale > 0.0
  }

  /** `computeRotation`: a drag of the zoom transform turns longitude by
      `deltaX * 90 / scale` and latitude the other way by
      `deltaY * 90 / scale`, clamped to +-66.5 degrees; roll is kept. */
  function ComputeRotation(v: View, transform: Transform, lastTransform: Transform): (r: Rotation)
    requires v.scale > 0.0
    ensures r.gamma == v.rotation.gamma
    ensures r.lambda == v.rotation.lambda + (transform.x - lastTransform.x) * (ROTATION_SCALE_CONSTANT / v.scale)
    ensures MIN_LATITUDE <= r.phi <= MAX_LATITUDE
    ensures var phi := v.rotation.phi - (transform.y - lastTransform.y) * (ROTATION_SCALE_CONSTANT / v.scale);
            MIN_LATITUDE <= phi <= MAX_LATITUDE ==> r.phi == phi
  {
    var factor := ROTATION_SCALE_CONSTANT / v.scale;
    var deltaX := transform.x - lastTransform.x;
    var deltaY := transform.y - lastTransform.y;
    var phi := v.rotation.phi - deltaY * factor;
    var clamped := ClampMaxThenMin(phi, MIN_LATITUDE, MAX_LATITUDE);
    assert MIN_LATITUDE <= phi <= MAX_LATITUDE ==> clamped == phi;
    Rotation(v.rotation.lambda + deltaX * factor, clamped, v.rotation.gamma)
  }

  /** `computeScale`: move along the exponential curve by the wheel's
      change, then clamp to `[MIN_SCALE, MAX_SCALE]`. */
  function ComputeScale(curve: ScaleCurve, minScale: real, currScale: real, change: real): (r: real)
    requires 0.0 < minScale <= MAX_SCALE
    ensures minScale <= r <= MAX_SCALE
    ensures var s := curve.scaleFunc(curve.invScaleFunc(currScale) + change);
            minScale <= s <= MAX_SCALE ==> r == s
  {
    ClampMaxThenMin(curve.scaleFunc(curve.invScaleFunc(currScale) + change), minScale, MAX_SCALE)
  }

  /** The user inputs, timer firings and calls the controller reacts to. */
  datatype Event =
    | Wheel(deltaY: real)
    | ZoomStart
    | Zoom(now: int, transform: Transform)
    | ZoomEnd
    | Tick
    | StartAutoRotate(ccw: bool)
    | StopAutoRotate
    | EnableInteraction
    | DisableInteraction
    | RotateToLocation(target: LonLat, withCallback: bool)
    | ZoomOut(withCallback: bool)
    | TransitionDone(index: nat)

  /** A handler's effect: the state it leaves, and the exception that
      escaped from it, if any (the state keeps what was done before). */
  datatype Outcome = Outcome(globe: Globe, thrown: Option<string>)

  /** `stopAutoRotate`: clears the flag, then stops the timer; before any
      `startAutoRotate` the timer is `null` and the call throws. */
  function Stop(g: Globe): (o: Outcome)
    ensures !o.globe.autoRotating
    ensures o.thrown.Some? <==> g.autoRotateTimer.None?
    ensures o.thrown.None? ==> o.globe.autoRotateTimer.Some? && !o.globe.autoRotateTimer.value.running
    ensures o.globe == g.(autoRotating := false, autoRotateTimer := o.globe.autoRotateTimer)
  {
    var g1 := g.(autoRotating := false);
    match g.autoRotateTimer
    case None => Outcome(g1, Some("TypeError: Cannot read property 'stop' of null"))
    case Some(t) => Outcome(g1.(autoRotateTimer := Some(t.(running := false))), None)
  }

  /** Stops auto-rotation only when it is flagged on, as the wheel and
      drag-start handlers do. */
  function StopIfRotating(g: Globe): (o: Outcome)
    ensures !o.globe.autoRotating
    ensures o.thrown.Some? <==> g.autoRotating && g.autoRotateTimer.None?
    ensures o.globe == g.(autoRotating := false, autoRotateTimer := o.globe.autoRotateTimer)
  {
    if g.autoRotating then Stop(g) else Outcome(g, None)
  }

  /** `disableInteraction`: the flag goes up and the drag listeners come off. */
  function Disable(g: Globe): (g': Globe)
    ensures IsInteractionEnabled(g') && !g'.zoomAttached
  {
    g.(interaction := true, zoomAttached := false)
  }

  /** `enableInteraction`: the flag goes down and the drag listeners go on. */
  function Enable(g: Globe): (g': Globe)
    ensures !IsInteractionEnabled(g') && g'.zoomAttached
  {
    g.(interaction := false, zoomAttached := true)
  }

  /** `isInteractionEnabled`: the raw flag, which is true while
      interaction is disabled. */
  function IsInteractionEnabled(g: Globe): bool {
    g.interaction
  }

  /** `transitionGlobe`: switch to coarse data, disable interaction, and
      schedule the completion. */
  function StartTransition(g: Globe, t: Transition): (g': Globe)
    ensures g'.isZooming && g'.interaction && !g'.zoomAttached
    ensures g'.pending == g.pending + [t] && g'.view == g.view
  {
    Disable(g.(isZooming := true)).(pending := g.pending + [t])
  }

  /** The completion timeout of pending transition `i`: its tweens have
      reached their targets; coarse data is switched off, interaction is
      re-enabled, and the callback, if any, runs once. */
  function FinishTransition(g: Globe, i: nat): (g': Globe)
    requires i < |g.pending|
    ensures !g'.isZooming && !g'.interaction && g'.zoomAttached
    ensures |g'.pending| == |g.pending| - 1
    ensures g'.callbacksRun == g.callbacksRun + (if g.pending[i].hasCallback then 1 else 0)
    ensures g.pending[i].rotationTarget.Some? ==> g'.view.rotation == g.pending[i].rotationTarget.value
    ensures g.pending[i].rotationTarget.None? ==> g'.view.rotation == g.view.rotation
    ensures g.pending[i].scaleTarget.Some? ==> g'.view.scale == g.pending[i].scaleTarget.value
    ensures g.pending[i].scaleTarget.None? ==> g'.view.scale == g.view.scale
  {
    var t := g.pending[i];
    var rotation := if t.rotationTarget.Some? then t.rotationTarget.value else g.view.rotation;
    var scale := if t.scaleTarget.Some? then t.scaleTarget.value else g.view.scale;
    var g1 := g.(view := View(rotation, scale), isZooming := false,
                 pending := g.pending[..i] + g.pending[i + 1..]);
    Enable(g1).(callbacksRun := g.callbacksRun + (if t.hasCallback then 1 else 0))
  }

  /** Every transition target keeps the scale positive. */
  predicate PendingValid(g: Globe) {
    forall i :: 0 <= i < |g.pending| ==> g.pending[i].scaleTarget.Some? ==> g.pending[i].scaleTarget.value > 0.0
  }

  /** What every handler keeps: a positive scale, the fitted minimum,
      positive transition targets, and the inverted flag in step with
      the listeners. */
  predicate Preserves(g: Globe, g': Globe) {
    Valid(g') && g'.minScale == g.minScale && (PendingValid(g) ==> PendingValid(g')) &&
    (g.interaction == !g.zoomAttached ==> g'.interaction == !g'.zoomAttached)
  }

  /** The view stays inside the bounds the user inputs respect: latitude
      within +-66.5 degrees, scale within `[MIN_SCALE, MAX_SCALE]`, and
      every pending transition heading for such a view. */
  predicate InBounds(g: Globe) {
    MIN_LATITUDE <= g.view.rotation.phi <= MAX_LATITUDE &&
    g.minScale <= g.view.scale <= MAX_SCALE &&
    forall i :: 0 <= i < |g.pending| ==> TargetInBounds(g, g.pending[i])
  }

  predicate TargetInBounds(g: Globe, t: Transition) {
    (t.rotationTarget.Some? ==> MIN_LATITUDE <= t.rotationTarget.value.phi <= MAX_LATITUDE) &&
    (t.scaleTarget.Some? ==> t.scaleTarget.value == g.minScale)
  }

  /** The `wheel` handler: stop auto-rotation if flagged, then rescale
      with `isZooming` raised and lowered again around the redraw. A throw
      from the stop leaves the handler before `isZooming` is raised. */
  function WheelStep(g: Globe, deltaY: real): (o: Outcome)
    requires Valid(g) && g.minScale <= MAX_SCALE
    ensures Preserves(g, o.globe) && (InBounds(g) ==> InBounds(o.globe))
    ensures o.thrown.Some? <==> g.autoRotating && g.autoRotateTimer.None?
    ensures o.thrown.None? ==> !o.globe.isZooming && o.globe.view.rotation == g.view.rotation &&
                               o.globe.view.scale == ComputeScale(g.curve, g.minScale, g.view.scale, -deltaY)
    ensures o.thrown.Some? ==> o.globe.isZooming == g.isZooming && o.globe.view == g.view
    ensures o.globe.pending == g.pending && o.globe.zoomAttached == g.zoomAttached && !o.globe.autoRotating
  {
    var s := StopIfRotating(g);
    if s.thrown.Some? then s
    else
      var g1 := s.globe.(isZooming := true);
      var scale := ComputeScale(g.curve, g.minScale, g1.view.scale, -deltaY);
      Outcome(g1.(view := g1.view.(scale := scale), isZooming := false), None)
  }

  /** The d3-zoom `zoom` handler: a drag update at time `now`, dropped
      when it follows the last accepted one too closely. */
  function DragStep(g: Globe, now: int, transform: Transform): (g': Globe)
    requires Valid(g)
    ensures Preserves(g, g') && (InBounds(g) ==> InBounds(g'))
    ensures g'.view.scale == g.view.scale && g'.pending == g.pending
    ensures (now - g.lastZoom < ROTATION_UPDATE_INTERVAL || !g.zoomAttached) ==> g' == g
    ensures (now - g.lastZoom >= ROTATION_UPDATE_INTERVAL && g.zoomAttached) ==>
              g'.view.rotation == ComputeRotation(g.view, transform, g.lastTransform) &&
              g'.lastZoom == now && g'.lastTransform == transform
  {
    if !g.zoomAttached || now - g.lastZoom < ROTATION_UPDATE_INTERVAL then g
    else
      var rotation := ComputeRotation(g.view, transform, g.lastTransform);
      g.(view := g.view.(rotation := rotation), lastZoom := now, lastTransform := transform)
  }

  /** One firing of the auto-rotate interval, if one is running. */
  function TickStep(g: Globe): (g': Globe)
    requires Valid(g)
    ensures Preserves(g, g') && g'.pending == g.pending
    ensures g'.view.scale == g.view.scale && g'.view.rotation.phi == g.view.rotation.phi
    ensures InBounds(g) ==> InBounds(g')
  {
    if g.autoRotateTimer.Some? && g.autoRotateTimer.value.running then
      g.(view := g.view.(rotation := AutoRotateTick(g.view.rotation, g.autoRotateTimer.value.ccw)))
    else g
  }

  /** The completion timeout of transition `i`, ignored when no such
      transition is pending. */
  function DoneStep(g: Globe, i: nat): (g': Globe)
    requires Valid(g) && PendingValid(g)
    ensures Preserves(g, g') && (InBounds(g) ==> InBounds(g'))
  {
    if i < |g.pending| then
      var t := g.pending[i];
      assert t.scaleTarget.Some? ==> t.scaleTarget.value > 0.0;
      var g' := FinishTransition(g, i);
      assert forall j :: 0 <= j < |g'.pending| ==> g'.pending[j] in g.pending;
      assert InBounds(g) ==> TargetInBounds(g, t);
      g'
    else g
  }

  /** The d3-zoom `start` handler: coarse data, and auto-rotation stopped
      if flagged. */
  function ZoomStartStep(g: Globe): (o: Outcome)
    requires Valid(g)
    ensures Preserves(g, o.globe) && o.globe.view == g.view && o.globe.pending == g.pending
    ensures InBounds(g) ==> InBounds(o.globe)
    ensures g.zoomAttached ==> o.globe.isZooming && !o.globe.autoRotating
    ensures o.thrown.Some? <==> g.zoomAttached && g.autoRotating && g.autoRotateTimer.None?
  {
    if !g.zoomAttached then Outcome(g, None)
    else StopIfRotating(g.(isZooming := true))
  }

  /** The d3-zoom `end` handler: back to scale-based data selection. */
  function ZoomEndStep(g: Globe): (g': Globe)
    requires Valid(g)
    ensures Preserves(g, g') && g'.view == g.view && g'.pending == g.pending
    ensures InBounds(g) ==> InBounds(g')
    ensures g.zoomAttached ==> !g'.isZooming
  {
    if g.zoomAttached then g.(isZooming := false) else g
  }

  /** `startAutoRotate(ccw)`: flags auto-rotation and replaces the timer
      reference with a new running interval. */
  function StartAutoRotateStep(g: Globe, ccw: bool): (g': Globe)
    requires Valid(g)
    ensures Preserves(g, g') && g'.view == g.view && g'.pending == g.pending
    ensures InBounds(g) ==> InBounds(g')
    ensures g'.autoRotating && g'.autoRotateTimer == Some(Interval(ccw, true))
  {
    g.(autoRotating := true, autoRotateTimer := Some(Interval(ccw, true)))
  }

  /** `transitionGlobe` for a new transition. */
  function TransitionStep(g: Globe, t: Transition): (g': Globe)
    requires Valid(g)
    requires t.scaleTarget.Some? ==> t.scaleTarget.value > 0.0
    ensures Preserves(g, g') && g'.view == g.view
    ensures g'.isZooming && g'.interaction && !g'.zoomAttached && g'.pending == g.pending + [t]
    ensures InBounds(g) && TargetInBounds(g, t) ==> InBounds(g')
  {
    var g' := StartTransition(g, t);
    assert forall j :: 0 <= j < |g.pending| ==> g'.pending[j] == g.pending[j];
    g'
  }

  /** `stop` touches only the auto-rotation state. */
  lemma StopKeepsView(g: Globe)
    requires Valid(g) && PendingValid(g)
    ensures Preserves(g, Stop(g).globe) && PendingValid(Stop(g).globe)
    ensures InBounds(g) ==> InBounds(Stop(g).globe)
  {
    var g' := Stop(g).globe;
    assert g'.view == g.view && g'.pending == g.pending && g'.minScale == g.minScale;
  }

  /** One event. The wheel handler is registered on its own and keeps
      working while interaction is disabled; the drag handlers run only
      while d3-zoom is attached. */
  function Step(g: Globe, e: Event): (o: Outcome)
    requires Valid(g) && g.minScale <= MAX_SCALE && PendingValid(g)
    ensures Preserves(g, o.globe) && PendingValid(o.globe)
    ensures o.thrown.Some? ==> e.Wheel? || e.ZoomStart? || e.StopAutoRotate?
    ensures InBounds(g) && (e.RotateToLocation? ==> MIN_LATITUDE <= e.target.lat <= MAX_LATITUDE) ==>
              InBounds(o.globe)
  {
    match e
    case Wheel(deltaY) => WheelStep(g, deltaY)
    case ZoomStart => ZoomStartStep(g)
    case Zoom(now, transform) => Outcome(DragStep(g, now, transform), None)
    case ZoomEnd => Outcome(ZoomEndStep(g), None)
    case Tick => Outcome(TickStep(g), None)
    case StartAutoRotate(ccw) => Outcome(StartAutoRotateStep(g, ccw), None)
    case StopAutoRotate =>
      StopKeepsView(g);
      Stop(g)
    case EnableInteraction => Outcome(Enable(g), None)
    case DisableInteraction => Outcome(Disable(g), None)
    case RotateToLocation(p, cb) =>
      Outcome(TransitionStep(g, Transition(Some(TargetRotation(p)), None, ROTATION_TRANSITION_LENGTH, cb)), None)
    case ZoomOut(cb) =>
      Outcome(TransitionStep(g, Transition(None, Some(g.minScale), ZOOM_OUT_LENGTH, cb)), None)
    case TransitionDone(i) => Outcome(DoneStep(g, i), None)
  }

  /** Applies events in order; a handler that throws leaves its partial
      state behind, and the next event still arrives. */
  function Run(g: Globe, events: seq<Event>): (o: Outcome)
    requires Valid(g) && g.minScale <= MAX_SCALE && PendingValid(g)
    ensures Preserves(g, o.globe) && PendingValid(o.globe)
    decreases |events|
  {
    if |events| == 0 then Outcome(g, None)
    else
      var o := Step(g, events[0]);
      var rest := Run(o.globe, events[1..]);
      Outcome(rest.globe, if o.thrown.Some? then o.thrown else rest.thrown)
  }

  /** A run of inputs that never rotates beyond the latitude bound keeps
      the view in bounds throughout. */
  lemma {:induction false} RunKeepsBounds(g: Globe, events: seq<Event>)
    requires Valid(g) && g.minScale <= MAX_SCALE && PendingValid(g) && InBounds(g)
    requires forall i :: 0 <= i < |events| && events[i].RotateToLocation? ==>
               MIN_LATITUDE <= events[i].target.lat <= MAX_LATITUDE
    ensures InBounds(Run(g, events).globe)
    decreases |events|
  {
    if |events| > 0 {
      var rest := events[1..];
      assert forall i :: 0 <= i < |rest| ==> rest[i] == events[i + 1];
      RunKeepsBounds(Step(g, events[0]).globe, rest);
    }
  }

  /** `rotateToLocation` does not clamp: centring a point at 80 degrees
      south leaves the view's latitude at 80, beyond the drag bound. */
  lemma RotateToLocationIgnoresLatitudeBound(fitted: View, curve: ScaleCurve)
    requires 0.0 < fitted.scale <= MAX_SCALE
    ensures var g := NewGlobe(fitted, curve);
            var o := Run(g, [RotateToLocation(LonLat(10.0, -80.0), false), TransitionDone(0)]);
            o.globe.view.rotation.phi == 80.0 && o.globe.view.rotation.phi > MAX_LATITUDE
  {
    var g := NewGlobe(fitted, curve);
    var g1 := Step(g, RotateToLocation(LonLat(10.0, -80.0), false)).globe;
    assert g1.pending == [Transition(Some(Rotation(-10.0, 80.0, 0.0)), None, ROTATION_TRANSITION_LENGTH, false)];
    var evs := [RotateToLocation(LonLat(10.0, -80.0), false), TransitionDone(0)];
    assert evs[1..] == [TransitionDone(0)];
    assert evs[1..][1..] == [];
  }

  /** A transition runs with coarse data and interaction disabled, and its
      completion restores both, then runs the callback exactly once. */
  lemma TransitionSequencing(g: Globe, p: LonLat)
    requires Valid(g) && g.minScale <= MAX_SCALE && PendingValid(g) && g.pending == []
    ensures var g1 := Step(g, RotateToLocation(p, true)).globe;
            g1.isZooming && IsInteractionEnabled(g1) && !g1.zoomAttached &&
            var g2 := Step(g1, TransitionDone(0)).globe;
            !g2.isZooming && !IsInteractionEnabled(g2) && g2.zoomAttached &&
            g2.callbacksRun == g.callbacksRun + 1 && g2.view.rotation == TargetRotation(p) &&
            g2.pending == []
  {
  }

  /** The wheel handler ignores the interaction flag and always leaves
      `isZooming` false, so a wheel turn during a transition switches the
      rest of the transition back to scale-based data selection. */
  lemma WheelDuringTransition(g: Globe, p: LonLat, deltaY: real)
    requires Valid(g) && g.minScale <= MAX_SCALE && PendingValid(g)
    requires !g.autoRotating
    ensures var g1 := Step(g, RotateToLocation(p, false)).globe;
            var o := Step(g1, Wheel(deltaY));
            o.thrown.None? && !o.globe.isZooming && |o.globe.pending| == |g.pending| + 1 &&
            !o.globe.zoomAttached && GetData(o.globe.isZooming, o.globe.view.scale) == GetData(false, o.globe.view.scale)
  {
  }

  /** Auto-rotation is flagged on from the start but its timer is `null`:
      the first wheel turn or stop call throws, after which auto-rotation
      is off and the next wheel turn scales normally. */
  lemma StopBeforeStartThrows(fitted: View, curve: ScaleCurve, deltaY: real)
    requires 0.0 < fitted.scale <= MAX_SCALE
    ensures Step(NewGlobe(fitted, curve), StopAutoRotate).thrown.Some?
    ensures var o := Step(NewGlobe(fitted, curve), Wheel(deltaY));
            o.thrown.Some? && !o.globe.autoRotating && !o.globe.isZooming && o.globe.view.scale == fitted.scale &&
            Step(o.globe, Wheel(deltaY)).thrown.None?
  {
  }

  /** `zoomOut` targets the fitted scale over one second; `rotateToLocation`
      targets the centring rotation over `ROTATION_TRANSITION_LENGTH`. */
  lemma TransitionTargets(g: Globe, p: LonLat, cb: bool)
    requires Valid(g) && g.minScale <= MAX_SCALE && PendingValid(g)
    ensures var g1 := Step(g, ZoomOut(cb)).globe;
            g1.pending[|g1.pending| - 1] == Transition(None, Some(g.minScale), ZOOM_OUT_LENGTH, cb)
    ensures var g1 := Step(g, RotateToLocation(p, cb)).globe;
            var t := g1.pending[|g1.pending| - 1];
            t.rotationTarget == Some(TargetRotation(p)) && t.scaleTarget.None? && t.length == ROTATION_TRANSITION_LENGTH
  {
  }

  /** The auto-rotate timer changes nothing but the longitude. */
  lemma TickTurnsLongitudeOnly(g: Globe)
    requires Valid(g) && g.minScale <= MAX_SCALE && PendingValid(g)
    requires g.autoRotateTimer.Some? && g.autoRotateTimer.value.running
    ensures var g' := Step(g, Tick).globe;
            g'.view.scale == g.view.scale && g'.view.rotation.phi == g.view.rotation.phi &&
            g'.view.rotation.gamma == g.view.rotation.gamma &&
            g'.view.rotation.lambda == g.view.rotation.lambda + (if g.autoRotateTimer.value.ccw then -0.5 else 0.5) &&
            g'.(view := g.view) == g
  {
  }

  /** Drag updates that come too soon after the last accepted one change
      nothing. */
  lemma DragThrottled(g: Globe, now: int, t: Transform)
    requires Valid(g) && g.minScale <= MAX_SCALE && PendingValid(g)
    requires now - g.lastZoom < ROTATION_UPDATE_INTERVAL || !g.zoomAttached
    ensures Step(g, Zoom(now, t)) == Outcome(g, None)
  {
  }
}
