/**
 * The orthographic projection state the three globe controllers share,
 * and the pure rules they apply to it: clamping, the level-of-detail
 * choice, the auto-rotate step and the rotation that centres a location.
 */
module Projection {
  import opened Features

  /** `projection.rotate()`: `[lambda, phi, gamma]` in degrees. */
  datatype Rotation = Rotation(lambda: real, phi: real, gamma: real)

  /** The part of the d3 projection the controllers read and write. */
  datatype View = View(rotation: Rotation, scale: real)

  /** Two chained ternaries, `x > hi ? hi : x` and then `y < lo ? lo : y`,
      as the second-generation controllers clamp latitude and scale. */
  function ClampMaxThenMin(x: real, lo: real, hi: real): (r: real)
    ensures r >= lo
    ensures lo <= hi ==> r <= hi
    ensures lo <= x <= hi ==> r == x
    ensures x < lo ==> r == lo
    ensures lo <= hi < x ==> r == hi
  {
    var y := if x > hi then hi else x;
    if y < lo then lo else y
  }

  /** `if (x > hi) x = hi; else if (x < lo) x = lo;`, as the first globe
      clamps latitude. */
  function ClampIfElse(x: real, lo: real, hi: real): (r: real)
    ensures lo <= hi ==> lo <= r <= hi
    ensures lo <= x <= hi ==> r == x
    ensures x > hi ==> r == hi
    ensures x < lo && x <= hi ==> r == lo
  {
    if x > hi then hi else if x < lo then lo else x
  }

  /** With the bounds in order, as every caller has them, the two
      clamping styles agree. */
  lemma ClampsAgree(x: real, lo: real, hi: real)
    requires lo <= hi
    ensures ClampMaxThenMin(x, lo, hi) == ClampIfElse(x, lo, hi)
  {
  }

  /** Which Natural Earth resolution `getData` draws. */
  datatype Resolution = Low110m | High50m

  /** Below this scale the 110m data is always drawn. */
  const SCALE_THRESHOLD: real := 1000.0

  /** `getData`: the coarse datasets while a zoom or transition is in
      progress or the globe is small on screen, the detailed ones otherwise. */
  function GetData(isZooming: bool, scale: real): (r: Resolution)
    ensures r == High50m ==> !isZooming && scale >= SCALE_THRESHOLD
  {
    if isZooming || scale < SCALE_THRESHOLD then Low110m else High50m
  }

  /** Detail never drops when the globe grows, and settling a zoom can
      only raise it. */
  lemma GetDataMonotone(isZooming: bool, s1: real, s2: real)
    requires s1 <= s2
    ensures GetData(isZooming, s1) == High50m ==> GetData(isZooming, s2) == High50m
    ensures GetData(isZooming, s1) == High50m ==> GetData(false, s1) == High50m
    ensures s1 >= SCALE_THRESHOLD ==> GetData(false, s1) == High50m
  {
  }

  /** How far one tick of the auto-rotate interval turns the globe. */
  const AUTO_ROTATE_STEP: real := 0.5

  /** One tick of the auto-rotate interval: only the longitude moves,
      half a degree, backwards when counter-clockwise. */
  function AutoRotateTick(r: Rotation, ccw: bool): (r': Rotation)
    ensures r'.phi == r.phi && r'.gamma == r.gamma
    ensures r'.lambda - r.lambda == (if ccw then -AUTO_ROTATE_STEP else AUTO_ROTATE_STEP)
  {
    Rotation(r.lambda + (if ccw then -AUTO_ROTATE_STEP else AUTO_ROTATE_STEP), r.phi, r.gamma)
  }

  function Ticks(r: Rotation, ccw: bool, n: nat): Rotation {
    if n == 0 then r else AutoRotateTick(Ticks(r, ccw, n - 1), ccw)
  }

  /** After `n` ticks the globe has turned `n` half degrees in longitude
      and nothing else has moved. */
  lemma {:induction false} TicksTurnLongitudeOnly(r: Rotation, ccw: bool, n: nat)
    ensures Ticks(r, ccw, n) ==
              Rotation(r.lambda + n as real * (if ccw then -AUTO_ROTATE_STEP else AUTO_ROTATE_STEP), r.phi, r.gamma)
  {
    if n > 0 {
      TicksTurnLongitudeOnly(r, ccw, n - 1);
    }
  }

  /** The location an orthographic rotation puts at the centre of the disc. */
  function Centre(r: Rotation): LonLat {
    LonLat(-r.lambda, -r.phi)
  }

  /** `rotateToLocation`'s target `[-lon, -lat, 0]`: the rotation that
      centres `p`, with no roll and the latitude left unclamped. */
  function TargetRotation(p: LonLat): (r: Rotation)
    ensures Centre(r) == p && r.gamma == 0.0
  {
    Rotation(-p.lon, -p.lat, 0.0)
  }

  /** Centring a location and reading the centre back gives the location;
      the target depends only on the location. */
  lemma TargetRoundTrip(p: LonLat, r: Rotation)
    ensures TargetRotation(Centre(r)) == r.(gamma := 0.0)
    ensures Centre(TargetRotation(p)) == p
  {
  }
}
