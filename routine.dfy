/** The route generator of the library: read the first feature of a GeoJSON feature
    collection, which must be a non-empty line string, move each of its vertices from
    WGS-84 to GCJ-02 when it lies in the box around China, and walk the result
    cyclically with a jitter of at most 5e-6 degrees on each axis. */
module Routine {

  import opened Wrappers
  import opened Walk

  /** The reasons `get_routine` reports, in the order it checks them. */
  datatype RoutineError =
    | ParseError        // the text is not GeoJSON
    | InvalidGeoJson    // not a feature collection
    | NoFeature         // the collection is empty
    | NoGeometry        // the first feature has no geometry
    | InvalidGeometry   // its geometry is not a line string
    | NoCoordinates     // the line string is empty

  /** A GeoJSON position: longitude first, then latitude; further values are ignored. */
  datatype Position = Position(lon: real, lat: real)

  datatype Geometry = LineString(coordinates: seq<Position>) | OtherGeometry

  datatype Feature = Feature(geometry: Option<Geometry>)

  /** The three kinds of GeoJSON document. */
  datatype GeoJson =
    | FeatureCollection(features: seq<Feature>)
    | SingleFeature(feature: Feature)
    | SingleGeometry(geom: Geometry)

  /** The input the walk accepts: a feature collection whose first feature is a
      non-empty line string. */
  predicate IsWalkable(parsed: Option<GeoJson>) {
    && parsed.Some? && parsed.value.FeatureCollection?
    && |parsed.value.features| > 0
    && parsed.value.features[0].geometry.Some?
    && parsed.value.features[0].geometry.value.LineString?
    && |parsed.value.features[0].geometry.value.coordinates| > 0
  }

  /** The coordinates `get_routine` walks, or the first check that fails; `parsed` is
      the result of parsing the text, None when it is not GeoJSON. */
  function Coordinates(parsed: Option<GeoJson>): (r: Result<seq<Position>, RoutineError>)
    ensures r.Ok? <==> IsWalkable(parsed)
    ensures r.Ok? ==> r.value == parsed.value.features[0].geometry.value.coordinates && |r.value| > 0
    ensures r == Err(ParseError) <==> parsed.None?
    ensures r == Err(InvalidGeoJson) <==> parsed.Some? && !parsed.value.FeatureCollection?
  {
    match parsed
    case None => Err(ParseError)
    case Some(json) =>
      match json
      case FeatureCollection(features) =>
        if |features| == 0 then Err(NoFeature)
        else if features[0].geometry.None? then Err(NoGeometry)
        else if !features[0].geometry.value.LineString? then Err(InvalidGeometry)
        else if |features[0].geometry.value.coordinates| == 0 then Err(NoCoordinates)
        else Ok(features[0].geometry.value.coordinates)
      case _ => Err(InvalidGeoJson)
  }

  /** A feature collection fails for the first of its checks that does not hold. */
  lemma {:induction false} CollectionChecks(features: seq<Feature>)
    ensures |features| == 0 <==> Coordinates(Some(FeatureCollection(features))) == Err(NoFeature)
    ensures |features| > 0 && features[0].geometry.None? <==> Coordinates(Some(FeatureCollection(features))) == Err(NoGeometry)
    ensures |features| > 0 && features[0].geometry.Some? && !features[0].geometry.value.LineString?
      <==> Coordinates(Some(FeatureCollection(features))) == Err(InvalidGeometry)
    ensures |features| > 0 && features[0].geometry == Some(LineString([]))
      <==> Coordinates(Some(FeatureCollection(features))) == Err(NoCoordinates)
  {
  }

  /** Only the first feature is looked at. */
  lemma {:induction false} FirstFeatureOnly(f: Feature, rest1: seq<Feature>, rest2: seq<Feature>)
    ensures Coordinates(Some(FeatureCollection([f] + rest1))) == Coordinates(Some(FeatureCollection([f] + rest2)))
  {
    assert ([f] + rest1)[0] == f && ([f] + rest2)[0] == f;
  }

  /** The box outside which the GCJ-02 offset is not applied: a point is out of China
      unless its longitude lies in [72.004, 137.8347] and its latitude in
      [0.8293, 55.8271], both ends included. */
  function OutOfChina(lat: real, lon: real): (r: bool)
    ensures r <==> lon < 72.004 || lon > 137.8347 || lat < 0.8293 || lat > 55.8271
  {
    if !(72.004 <= lon <= 137.8347) then true
    else if !(0.8293 <= lat <= 55.8271) then true
    else false
  }

  lemma {:induction false} OutOfChinaBox(lat: real, lon: real)
    ensures !OutOfChina(lat, lon) <==> 72.004 <= lon <= 137.8347 && 0.8293 <= lat <= 55.8271
  {
  }

  /** The corners of the box belong to China. */
  lemma {:induction false} BoxCorners()
    ensures !OutOfChina(0.8293, 72.004) && !OutOfChina(55.8271, 137.8347)
    ensures !OutOfChina(0.8293, 137.8347) && !OutOfChina(55.8271, 72.004)
    ensures OutOfChina(0.8292, 72.004) && OutOfChina(55.8272, 72.004)
    ensures OutOfChina(0.8293, 72.003) && OutOfChina(0.8293, 137.8348)
  {
  }

  /** The offset `(d_lat, d_lon)` that the trigonometric series of the GCJ-02 datum
      adds to a point inside the box. */
  type Offset = (real, real) -> (real, real)

  /** `wgs84_to_gcj02(lat, lon)`: a pair (latitude, longitude). */
  function Wgs84ToGcj02(lat: real, lon: real, offset: Offset): (r: (real, real))
    ensures OutOfChina(lat, lon) ==> r == (lat, lon)
    ensures !OutOfChina(lat, lon) ==> r.0 - lat == offset(lat, lon).0 && r.1 - lon == offset(lat, lon).1
  {
    if OutOfChina(lat, lon) then (lat, lon)
    else (lat + offset(lat, lon).0, lon + offset(lat, lon).1)
  }

  /** Outside the box the conversion is the identity; inside it, exactly the offset
      is added. */
  lemma {:induction false} ConversionGate(lat: real, lon: real, offset: Offset)
    ensures (lon < 72.004 || lon > 137.8347 || lat < 0.8293 || lat > 55.8271) ==> Wgs84ToGcj02(lat, lon, offset) == (lat, lon)
    ensures 72.004 <= lon <= 137.8347 && 0.8293 <= lat <= 55.8271 ==>
      Wgs84ToGcj02(lat, lon, offset).0 - lat == offset(lat, lon).0 &&
      Wgs84ToGcj02(lat, lon, offset).1 - lon == offset(lat, lon).1
  {
    OutOfChinaBox(lat, lon);
  }

  /** The converted position as a `geo::Point`: x the longitude, y the latitude. */
  function Vertex(c: Position, offset: Offset): Point
  {
    var g := Wgs84ToGcj02(c.lat, c.lon, offset);
    Point(g.1, g.0)
  }

  /** The vertices the walk visits: every coordinate, converted, in order. */
  function Vertices(coords: seq<Position>, offset: Offset): (r: seq<Point>)
    ensures |r| == |coords|
    ensures forall i :: 0 <= i < |coords| ==> r[i] == Vertex(coords[i], offset)
  {
    seq(|coords|, i requires 0 <= i < |coords| => Vertex(coords[i], offset))
  }

  /** A vertex outside the box is the position itself, longitude as x. */
  lemma {:induction false} VertexOutside(c: Position, offset: Offset)
    requires OutOfChina(c.lat, c.lon)
    ensures Vertex(c, offset) == Point(c.lon, c.lat)
  {
  }

  /** `get_routine(mileage, geojson_str)`. The parse of the text is given as `parsed`,
      the GCJ-02 offset as `offset`, the geodesic distance as `dist` and the two
      `gen_range(-5e-6..5e-6)` draws of each emission as `noise`. The converted
      vertices are the same on every lap, so they are computed once. */
  method GetRoutine(mileage: real, parsed: Option<GeoJson>, offset: Offset, dist: Distance, noise: nat -> Jitter)
    returns (r: Result<seq<LGPoint>, RoutineError>)
    requires IsDistance(dist) && JitterWithin(noise, 0.000005, 0.000005)
    requires IsWalkable(parsed) ==> Terminates(Vertices(Coordinates(parsed).value, offset), dist, mileage)
    ensures r.Err? <==> !IsWalkable(parsed)
    ensures r.Err? ==> r == Err(Coordinates(parsed).error)
    ensures r.Ok? ==> IsRoute(r.value, Vertices(Coordinates(parsed).value, offset), dist, noise, mileage)
    ensures r.Ok? ==> forall k :: 0 <= k < |r.value| ==>
      var v := Vertices(Coordinates(parsed).value, offset)[k % |Coordinates(parsed).value|];
      v.x - 0.000005 <= r.value[k].longitude < v.x + 0.000005 &&
      v.y - 0.000005 <= r.value[k].latitude < v.y + 0.000005
  {
    var coords := Coordinates(parsed);
    if coords.Err? {
      return Err(coords.error);
    }
    var vs := Vertices(coords.value, offset);
    var route := WalkRoute(vs, mileage, dist, noise);
    RouteNearVertices(route, vs, dist, noise, mileage, 0.000005, 0.000005);
    return Ok(route);
  }
}
