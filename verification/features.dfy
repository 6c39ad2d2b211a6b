/**
 * The GeoJSON data the game works on: Natural Earth admin-0 features
 * with the properties the core reads, and their polygon geometry.
 */
module Features {

  /** A `[longitude, latitude]` pair in degrees. */
  datatype LonLat = LonLat(lon: real, lat: real)

  /** A linear ring: the vertices of one polygon boundary. */
  type Ring = seq<LonLat>

  /** A feature's geometry. A polygon is a list of rings whose first ring
      is the outer boundary; any geometry type other than the two the
      scorer knows is kept by name. */
  datatype Geometry =
    | Polygon(rings: seq<Ring>)
    | MultiPolygon(polygons: seq<seq<Ring>>)
    | OtherGeometry(kind: string)

  /** The Natural Earth `TYPE` property; any other string is `OtherType`. */
  datatype FeatureType =
    | Country                  // 'Country'
    | SovereignCountry         // 'Sovereign country'
    | Dependency               // 'Dependency'
    | Disputed                 // 'Disputed'
    | Indeterminate            // 'Indeterminate'
    | OtherType(name: string)

  /** The feature properties the core reads, under their Natural Earth keys. */
  datatype Properties = Properties(
    TYPE: FeatureType,
    NAME: string,
    NE_ID: int,
    ADM0_A3: string,
    SOV_A3: string,
    ISO_A3: string,
    SOVEREIGNT: string,
    ADMIN: string)

  datatype Feature = Feature(properties: Properties, geometry: Geometry)

  /** `d3.geoBounds`: `[[left, bottom], [right, top]]` in degrees. */
  datatype Bounds = Bounds(left: real, bottom: real, right: real, top: real)

  /** The d3-geo primitives the core calls, left uninterpreted: spherical
      trigonometry is outside the model, and nothing below depends on
      more than the types of these functions. */
  datatype Geodesy = Geodesy(
    distance: (LonLat, LonLat) -> real,  // d3.geoDistance, in radians
    centroid: Feature -> LonLat,         // d3.geoCentroid
    area: Feature -> real,               // d3.geoArea, in steradians
    bounds: Feature -> Bounds)           // d3.geoBounds
}
