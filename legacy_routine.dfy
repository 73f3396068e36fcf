/** The older route generator of the terminal client: read WKT points from the rows of
    a CSV file (the built-in default routine when no path is given), in file order,
    and walk them cyclically with a jitter of at most 2e-5 degrees of longitude and
    1e-5 degrees of latitude, without any datum conversion. */
module LegacyRoutine {

  import opened Wrappers
  import opened Walk

  /** The errors `get_routine` propagates with `?`. */
  datatype LoadError =
    | ReadError   // the file cannot be read
    | CsvError    // a row does not deserialize into a record
    | WktError    // the record's WKT column is not a point

  /** One deserialized record: its WKT column, as a point when it parses as one. */
  datatype Record = Record(wkt: Option<Point>)

  /** The point one CSV row contributes, or its error. */
  function RowPoint(row: Result<Record, LoadError>): (r: Result<Point, LoadError>)
    ensures r.Ok? <==> row.Ok? && row.value.wkt.Some?
    ensures r.Ok? ==> r.value == row.value.wkt.value
    ensures row.Err? ==> r == Err(row.error)
    ensures row.Ok? && row.value.wkt.None? ==> r == Err(WktError)
  {
    match row
    case Err(e) => Err(e)
    case Ok(Record(None)) => Err(WktError)
    case Ok(Record(Some(p))) => Ok(p)
  }

  /** The points of the rows in file order, or the error of the first bad row. */
  function PointsOf(rows: seq<Result<Record, LoadError>>): Result<seq<Point>, LoadError>
    decreases |rows|
  {
    if |rows| == 0 then Ok([])
    else match PointsOf(rows[..|rows| - 1])
      case Err(e) => Err(e)
      case Ok(ps) =>
        match RowPoint(rows[|rows| - 1])
        case Err(e) => Err(e)
        case Ok(p) => Ok(ps + [p])
  }

  /** All rows good: one point per row, in file order. */
  lemma {:induction false} PointsInFileOrder(rows: seq<Result<Record, LoadError>>)
    ensures PointsOf(rows).Ok? <==> forall i :: 0 <= i < |rows| ==> RowPoint(rows[i]).Ok?
    ensures PointsOf(rows).Ok? ==> |PointsOf(rows).value| == |rows|
    ensures PointsOf(rows).Ok? ==>
      forall i :: 0 <= i < |rows| ==> PointsOf(rows).value[i] == RowPoint(rows[i]).value
    decreases |rows|
  {
    if |rows| > 0 {
      var init := rows[..|rows| - 1];
      PointsInFileOrder(init);
      assert forall i :: 0 <= i < |init| ==> init[i] == rows[i];
    }
  }

  /** A bad row: the error reported is that of the first bad row. */
  lemma {:induction false} FirstBadRow(rows: seq<Result<Record, LoadError>>, j: nat)
    requires j < |rows| && RowPoint(rows[j]).Err?
    requires forall i :: 0 <= i < j ==> RowPoint(rows[i]).Ok?
    ensures PointsOf(rows) == Err(RowPoint(rows[j]).error)
    decreases |rows|
  {
    var init := rows[..|rows| - 1];
    if j < |rows| - 1 {
      assert forall i :: 0 <= i <= j ==> init[i] == rows[i];
      FirstBadRow(init, j);
    } else {
      PointsInFileOrder(init);
      assert forall i :: 0 <= i < |init| ==> init[i] == rows[i];
    }
  }

  /** The loop `for result in rdr.deserialize() { .. points.push(point); }`. */
  method CollectPoints(rows: seq<Result<Record, LoadError>>) returns (r: Result<seq<Point>, LoadError>)
    ensures r == PointsOf(rows)
  {
    var points: seq<Point> := [];
    for i := 0 to |rows|
      invariant PointsOf(rows[..i]) == Ok(points)
    {
      assert rows[..i + 1][..i] == rows[..i];
      var row := rows[i];
      if row.Err? {
        r := Err(row.error);
        AbortsOnBadRow(rows, i);
        return;
      }
      if row.value.wkt.None? {
        r := Err(WktError);
        AbortsOnBadRow(rows, i);
        return;
      }
      points := points + [row.value.wkt.value];
    }
    assert rows[..|rows|] == rows;
    r := Ok(points);
  }

  /** Once the rows before i are all good, a bad row i decides the result. */
  lemma {:induction false} AbortsOnBadRow(rows: seq<Result<Record, LoadError>>, i: nat)
    requires i < |rows| && PointsOf(rows[..i]).Ok? && RowPoint(rows[i]).Err?
    ensures PointsOf(rows) == Err(RowPoint(rows[i]).error)
  {
    PointsInFileOrder(rows[..i]);
    forall k | 0 <= k < i
      ensures RowPoint(rows[k]).Ok?
    {
      assert rows[..i][k] == rows[k];
    }
    FirstBadRow(rows, i);
  }

  /** `get_routine(mileage, filepath)`. The file's rows (or the read error) are given as
      `file`, the geodesic distance as `dist`, and the draws `gen_range(-2e-5..2e-5)`
      for longitude and `gen_range(-1e-5..1e-5)` for latitude as `noise`. */
  method GetRoutine(mileage: real, file: Result<seq<Result<Record, LoadError>>, LoadError>, dist: Distance, noise: nat -> Jitter)
    returns (r: Result<seq<LGPoint>, LoadError>)
    requires IsDistance(dist) && JitterWithin(noise, 0.00002, 0.00001)
    requires file.Ok? && PointsOf(file.value).Ok? ==>
      |PointsOf(file.value).value| > 0 && Terminates(PointsOf(file.value).value, dist, mileage)
    ensures file.Err? ==> r == Err(file.error)
    ensures file.Ok? ==> (r.Err? <==> PointsOf(file.value).Err?)
    ensures file.Ok? && r.Err? ==> r.error == PointsOf(file.value).error
    ensures r.Ok? ==> file.Ok? && IsRoute(r.value, PointsOf(file.value).value, dist, noise, mileage)
    ensures r.Ok? ==> forall k :: 0 <= k < |r.value| ==>
      var v := PointsOf(file.value).value[k % |PointsOf(file.value).value|];
      v.x - 0.00002 <= r.value[k].longitude < v.x + 0.00002 &&
      v.y - 0.00001 <= r.value[k].latitude < v.y + 0.00001
  {
    if file.Err? {
      return Err(file.error);
    }
    var points := CollectPoints(file.value);
    if points.Err? {
      return Err(points.error);
    }
    var route := WalkRoute(points.value, mileage, dist, noise);
    RouteNearVertices(route, points.value, dist, noise, mileage, 0.00002, 0.00001);
    return Ok(route);
  }
}
