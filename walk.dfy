/** The walk both route generators perform over a closed polyline: emit the vertices
    in order, cyclically, each nudged by a random jitter, subtracting the geodesic
    distance from the previously emitted vertex from the remaining mileage, and stop
    right after the emission that brings the remaining mileage to zero or below. */
module Walk {

  import opened Wrappers

  /** A `geo::Point`: x is the longitude, y the latitude. */
  datatype Point = Point(x: real, y: real)

  /** The point format the server expects. */
  datatype LGPoint = LGPoint(longitude: real, latitude: real)

  /** The two random offsets drawn for one emitted point. */
  datatype Jitter = Jitter(dLon: real, dLat: real)

  /** Geodesic distance in metres. */
  type Distance = (Point, Point) -> real

  /** What the walk relies on of the geodesic distance. */
  ghost predicate IsDistance(dist: Distance) {
    (forall p, q :: dist(p, q) >= 0.0) && (forall p :: dist(p, p) == 0.0)
  }

  /** Every draw comes from the half-open ranges `-lon..lon` and `-lat..lat`. */
  ghost predicate JitterWithin(noise: nat -> Jitter, lon: real, lat: real) {
    forall k: nat :: -lon <= noise(k).dLon < lon && -lat <= noise(k).dLat < lat
  }

  /** Kilometres subtracted for the emission with index k: the first emission measures
      the first vertex against itself, every later one its vertex against the previous
      emission's vertex. */
  function Step(vs: seq<Point>, dist: Distance, k: nat): real
    requires |vs| > 0
  {
    if k == 0 then dist(vs[0], vs[0]) / 1000.0
    else dist(vs[(k - 1) % |vs|], vs[k % |vs|]) / 1000.0
  }

  /** Kilometres subtracted by the first k emissions. */
  function Walked(vs: seq<Point>, dist: Distance, k: nat): real
    requires |vs| > 0
  {
    if k == 0 then 0.0 else Walked(vs, dist, k - 1) + Step(vs, dist, k - 1)
  }

  /** The vertex after vertex i on the closed polyline. */
  function Next(i: nat, n: nat): nat
    requires i < n
  {
    if i + 1 == n then 0 else i + 1
  }

  /** Kilometres along the first i edges of the closed polyline. */
  function Partial(vs: seq<Point>, dist: Distance, i: nat): real
    requires i <= |vs|
  {
    if i == 0 then 0.0
    else Partial(vs, dist, i - 1) + dist(vs[i - 1], vs[Next(i - 1, |vs|)]) / 1000.0
  }

  /** Kilometres round the whole closed polyline, the last vertex back to the first. */
  function CycleLength(vs: seq<Point>, dist: Distance): real
    requires |vs| > 0
  {
    Partial(vs, dist, |vs|)
  }

  /** The loop returns exactly when the mileage is already used up or one lap of the
      polyline has positive length. */
  predicate Terminates(vs: seq<Point>, dist: Distance, mileage: real)
    requires |vs| > 0
  {
    mileage <= 0.0 || CycleLength(vs, dist) > 0.0
  }

  /** The point emitted with index k: its vertex plus the k-th jitter. */
  function Emitted(vs: seq<Point>, noise: nat -> Jitter, k: nat): (r: LGPoint)
    requires |vs| > 0
  {
    var v := vs[k % |vs|];
    LGPoint(v.x + noise(k).dLon, v.y + noise(k).dLat)
  }

  /** The route the walk returns for the given mileage: each point is the emission of
      its index, and the route ends with the first emission after which the remaining
      mileage is zero or below. */
  ghost predicate IsRoute(route: seq<LGPoint>, vs: seq<Point>, dist: Distance, noise: nat -> Jitter, mileage: real)
    requires |vs| > 0
  {
    && |route| >= 1
    && (forall k :: 0 <= k < |route| ==> route[k] == Emitted(vs, noise, k))
    && mileage <= Walked(vs, dist, |route|)
    && (forall k :: 1 <= k < |route| ==> Walked(vs, dist, k) < mileage)
  }

  // Arithmetic on the emission index.

  lemma {:induction false} MulPos(d: int, n: int)
    requires n > 0 && d >= 1
    ensures d * n >= n
  {
  }

  lemma {:induction false} MulNeg(d: int, n: int)
    requires n > 0 && d <= -1
    ensures d * n <= -n
  {
  }

  /** Euclidean division has a unique remainder. */
  lemma {:induction false} ModUnique(a: int, n: int, q: int, r: int)
    requires n > 0 && a == q * n + r && 0 <= r < n
    ensures a % n == r
  {
    var d := q - a / n;
    assert a == (a / n) * n + a % n;
    assert d * n == a % n - r by {
      assert q * n - (a / n) * n == d * n;
    }
    if d >= 1 {
      MulPos(d, n);
    } else if d <= -1 {
      MulNeg(d, n);
    }
  }

  /** The vertex the previous emission used, for the emission at position i of a lap. */
  function Prev(i: nat, n: nat): nat
    requires i < n
  {
    if i == 0 then n - 1 else i - 1
  }

  /** The emission with index q * n + i uses vertex i and measures from vertex Prev(i). */
  lemma {:induction false} StepAt(vs: seq<Point>, dist: Distance, noise: nat -> Jitter, q: nat, i: nat)
    requires 0 < |vs| && i < |vs| && q * |vs| + i >= 1
    ensures (q * |vs| + i) % |vs| == i
    ensures Step(vs, dist, q * |vs| + i) == dist(vs[Prev(i, |vs|)], vs[i]) / 1000.0
    ensures Emitted(vs, noise, q * |vs| + i) == LGPoint(vs[i].x + noise(q * |vs| + i).dLon, vs[i].y + noise(q * |vs| + i).dLat)
  {
    var n := |vs|;
    ModUnique(q * n + i, n, q, i);
    if i == 0 {
      assert q >= 1;
      assert q * n + i - 1 == (q - 1) * n + (n - 1);
      ModUnique(q * n + i - 1, n, q - 1, n - 1);
    } else {
      ModUnique(q * n + i - 1, n, q, i - 1);
    }
  }

  /** Within a lap, the step of the emission after position i is the edge from vertex i
      to its successor. */
  lemma {:induction false} StepInLap(vs: seq<Point>, dist: Distance, q: nat, i: nat)
    requires 0 < |vs| && i < |vs|
    ensures Step(vs, dist, 1 + q * |vs| + i) == dist(vs[i], vs[Next(i, |vs|)]) / 1000.0
  {
    var n := |vs|;
    ModUnique(q * n + i, n, q, i);
    if i + 1 == n {
      assert 1 + q * n + i == (q + 1) * n + 0;
      ModUnique(1 + q * n + i, n, q + 1, 0);
    } else {
      ModUnique(1 + q * n + i, n, q, i + 1);
    }
  }

  // Properties of the walk.

  lemma {:induction false} StepNonNegative(vs: seq<Point>, dist: Distance, k: nat)
    requires IsDistance(dist) && |vs| > 0
    ensures Step(vs, dist, k) >= 0.0
    ensures k == 0 ==> Step(vs, dist, k) == 0.0
  {
  }

  /** The mileage subtracted never decreases as the walk goes on. */
  lemma {:induction false} WalkedMonotone(vs: seq<Point>, dist: Distance, j: nat, k: nat)
    requires IsDistance(dist) && |vs| > 0
    ensures j <= k ==> Walked(vs, dist, j) <= Walked(vs, dist, k)
    decreases k
  {
    if j < k {
      WalkedMonotone(vs, dist, j, k - 1);
      StepNonNegative(vs, dist, k - 1);
    }
  }

  /** After the first emission, each further lap subtracts a partial sum of edges. */
  lemma {:induction false} WalkedInLap(vs: seq<Point>, dist: Distance, q: nat, i: nat)
    requires 0 < |vs| && i <= |vs|
    ensures Walked(vs, dist, 1 + q * |vs| + i) == Walked(vs, dist, 1 + q * |vs|) + Partial(vs, dist, i)
  {
    if i > 0 {
      WalkedInLap(vs, dist, q, i - 1);
      StepInLap(vs, dist, q, i - 1);
    }
  }

  /** `q` laps of length `c`, summed one lap at a time. */
  function Laps(q: nat, c: real): real
  {
    if q == 0 then 0.0 else Laps(q - 1, c) + c
  }

  lemma {:induction false} LapsProduct(q: nat, c: real)
    ensures Laps(q, c) == q as real * c
  {
    if q > 0 {
      LapsProduct(q - 1, c);
      assert (q - 1) as real * c + c == q as real * c;
    }
  }

  /** Every full lap after the first emission subtracts exactly one cycle length. */
  lemma {:induction false} WalkedLaps(vs: seq<Point>, dist: Distance, q: nat)
    requires 0 < |vs|
    ensures Walked(vs, dist, 1 + q * |vs|) == Walked(vs, dist, 1) + Laps(q, CycleLength(vs, dist))
  {
    if q > 0 {
      var n, c := |vs|, CycleLength(vs, dist);
      var start := 1 + (q - 1) * n;
      assert start + n == 1 + q * n by {
        LapArithmetic(q, n);
      }
      assert Walked(vs, dist, start + n) == Walked(vs, dist, start) + c by {
        WalkedInLap(vs, dist, q - 1, n);
      }
      WalkedLaps(vs, dist, q - 1);
    }
  }

  lemma {:induction false} LapArithmetic(q: nat, n: nat)
    requires q > 0
    ensures 1 + (q - 1) * n + n == 1 + q * n
  {
  }

  lemma {:induction false} RealMulPos(a: real, b: real)
    requires a > 0.0 && b > 0.0
    ensures a * b > 0.0
  {
  }

  /** When the loop terminates, some emission K uses the mileage up. */
  lemma {:induction false} Crossing(vs: seq<Point>, dist: Distance, mileage: real) returns (K: nat)
    requires IsDistance(dist) && |vs| > 0 && Terminates(vs, dist, mileage)
    ensures K >= 1 && mileage <= Walked(vs, dist, K)
  {
    StepNonNegative(vs, dist, 0);
    if mileage <= 0.0 {
      K := 1;
    } else {
      var c := CycleLength(vs, dist);
      var q: nat := (mileage / c).Floor + 1;
      assert q as real > mileage / c;
      RealMulPos(q as real - mileage / c, c);
      assert (q as real - mileage / c) * c == q as real * c - mileage;
      WalkedLaps(vs, dist, q);
      LapsProduct(q, c);
      K := 1 + q * |vs|;
    }
  }

  /** Each partial sum of edges is at most the whole cycle length. */
  lemma {:induction false} PartialMonotone(vs: seq<Point>, dist: Distance, i: nat, j: nat)
    requires IsDistance(dist) && i <= j <= |vs|
    ensures 0.0 <= Partial(vs, dist, i) <= Partial(vs, dist, j)
    decreases j
  {
    if i < j {
      PartialMonotone(vs, dist, i, j - 1);
    } else if i > 0 {
      PartialMonotone(vs, dist, i - 1, i - 1);
    }
  }

  /** On a polyline whose lap has zero length nothing is ever subtracted. */
  lemma {:induction false} NothingWalked(vs: seq<Point>, dist: Distance, k: nat)
    requires IsDistance(dist) && |vs| > 0 && CycleLength(vs, dist) == 0.0
    ensures Walked(vs, dist, k) == 0.0
  {
    if k > 1 {
      NothingWalked(vs, dist, k - 1);
      var n := |vs|;
      var q, i := (k - 2) / n, (k - 2) % n;
      assert k - 1 == 1 + q * n + i;
      StepInLap(vs, dist, q, i);
      PartialMonotone(vs, dist, i, i + 1);
      PartialMonotone(vs, dist, i + 1, n);
    }
  }

  /** Without the termination condition there is no route to return: the source loops
      forever, so the condition is exactly what a caller must ensure. */
  lemma {:induction false} NoRouteWithoutTermination(route: seq<LGPoint>, vs: seq<Point>, dist: Distance, noise: nat -> Jitter, mileage: real)
    requires IsDistance(dist) && |vs| > 0 && !Terminates(vs, dist, mileage)
    ensures !IsRoute(route, vs, dist, noise, mileage)
  {
    PartialMonotone(vs, dist, 0, |vs|);
    if |route| >= 1 {
      NothingWalked(vs, dist, |route|);
    }
  }

  /** The route is determined by its inputs. */
  lemma {:induction false} RouteUnique(r1: seq<LGPoint>, r2: seq<LGPoint>, vs: seq<Point>, dist: Distance, noise: nat -> Jitter, mileage: real)
    requires |vs| > 0
    requires IsRoute(r1, vs, dist, noise, mileage) && IsRoute(r2, vs, dist, noise, mileage)
    ensures r1 == r2
  {
    assert |r1| == |r2|;
  }

  /** The jitter never decides where the walk stops: distances are measured between the
      vertices, never between the jittered points, so any two draws give routes of the
      same length. */
  lemma {:induction false} LengthIndependentOfJitter(r1: seq<LGPoint>, r2: seq<LGPoint>, vs: seq<Point>, dist: Distance, n1: nat -> Jitter, n2: nat -> Jitter, mileage: real)
    requires |vs| > 0
    requires IsRoute(r1, vs, dist, n1, mileage) && IsRoute(r2, vs, dist, n2, mileage)
    ensures |r1| == |r2|
  {
  }

  /** A mileage longer than the open polyline makes the route pass every vertex and
      start over from the first. */
  lemma {:induction false} RouteReplays(route: seq<LGPoint>, vs: seq<Point>, dist: Distance, noise: nat -> Jitter, mileage: real)
    requires IsDistance(dist) && |vs| > 0 && IsRoute(route, vs, dist, noise, mileage)
    requires mileage > Partial(vs, dist, |vs| - 1)
    ensures |route| > |vs|
  {
    WalkedInLap(vs, dist, 0, |vs| - 1);
    StepNonNegative(vs, dist, 0);
    WalkedMonotone(vs, dist, |route|, |vs|);
  }

  /** Every emitted point lies within the jitter box of its vertex. */
  lemma {:induction false} RouteNearVertices(route: seq<LGPoint>, vs: seq<Point>, dist: Distance, noise: nat -> Jitter, mileage: real, lon: real, lat: real)
    requires |vs| > 0 && IsRoute(route, vs, dist, noise, mileage) && JitterWithin(noise, lon, lat)
    ensures forall k :: 0 <= k < |route| ==>
      vs[k % |vs|].x - lon <= route[k].longitude < vs[k % |vs|].x + lon &&
      vs[k % |vs|].y - lat <= route[k].latitude < vs[k % |vs|].y + lat
  {
    forall k | 0 <= k < |route|
      ensures vs[k % |vs|].x - lon <= route[k].longitude < vs[k % |vs|].x + lon
      ensures vs[k % |vs|].y - lat <= route[k].latitude < vs[k % |vs|].y + lat
    {
      assert route[k] == Emitted(vs, noise, k);
      assert -lon <= noise(k).dLon < lon && -lat <= noise(k).dLat < lat;
    }
  }
  /** The loop both route generators run: `loop { for point in vertices { .. } }`. The
      first emission measures its vertex against itself; every emission subtracts the
      kilometres from the previous vertex, and the loop returns right after the emission
      that brings the remaining mileage to zero or below. */
  method WalkRoute(vs: seq<Point>, mileage: real, dist: Distance, noise: nat -> Jitter) returns (route: seq<LGPoint>)
    requires IsDistance(dist) && |vs| > 0 && Terminates(vs, dist, mileage)
    ensures IsRoute(route, vs, dist, noise, mileage)
  {
    var n := |vs|;
    ghost var K := Crossing(vs, dist, mileage);
    var last: Option<Point> := None;
    var remaining := mileage;
    route := [];
    ghost var q: nat := 0;
    while true
      invariant |route| == q * n && |route| < K
      invariant forall k :: 0 <= k < |route| ==> route[k] == Emitted(vs, noise, k)
      invariant remaining == mileage - Walked(vs, dist, |route|)
      invariant forall k :: 1 <= k <= |route| ==> Walked(vs, dist, k) < mileage
      invariant last == if |route| == 0 then None else Some(vs[n - 1])
      decreases K - |route|
    {
      for i := 0 to n
        invariant |route| == q * n + i
        invariant forall k :: 0 <= k < |route| ==> route[k] == Emitted(vs, noise, k)
        invariant remaining == mileage - Walked(vs, dist, |route|)
        invariant forall k :: 1 <= k <= |route| ==> Walked(vs, dist, k) < mileage
        invariant last == if |route| == 0 then None else Some(vs[if i == 0 then n - 1 else i - 1])
      {
        var point := vs[i];
        if last.None? {
          last := Some(point);
        }
        ghost var k := |route|;
        var emit := LGPoint(point.x + noise(|route|).dLon, point.y + noise(|route|).dLat);
        assert emit == Emitted(vs, noise, k) && Step(vs, dist, k) == dist(last.value, point) / 1000.0 by {
          EmissionStep(vs, dist, noise, q, i);
        }
        remaining := remaining - dist(last.value, point) / 1000.0;
        last := Some(point);
        route := route + [emit];
        assert remaining == mileage - Walked(vs, dist, k + 1);
        if remaining <= 0.0 {
          return;
        }
      }
      assert |route| == (q + 1) * n by {
        LapArithmetic(q + 1, n);
      }
      q := q + 1;
      assert Walked(vs, dist, K) >= mileage;
    }
  }

  /** The emission at position i of lap q: its vertex, its jitter and the step it
      subtracts, measured from the previous emission's vertex (from itself at first). */
  lemma {:induction false} EmissionStep(vs: seq<Point>, dist: Distance, noise: nat -> Jitter, q: nat, i: nat)
    requires 0 < |vs| && i < |vs|
    ensures Emitted(vs, noise, q * |vs| + i) == LGPoint(vs[i].x + noise(q * |vs| + i).dLon, vs[i].y + noise(q * |vs| + i).dLat)
    ensures q * |vs| + i == 0 ==> i == 0 && Step(vs, dist, 0) == dist(vs[0], vs[0]) / 1000.0
    ensures q * |vs| + i >= 1 ==> Step(vs, dist, q * |vs| + i) == dist(vs[if i == 0 then |vs| - 1 else i - 1], vs[i]) / 1000.0
  {
    if q * |vs| + i >= 1 {
      StepAt(vs, dist, noise, q, i);
    } else {
      assert q * |vs| + i == 0 && i == 0;
    }
  }
}
