/**
 * Points on the plane and the two movement primitives of index.php.
 * Floating point is modelled by `real`; the transcendental functions PHP
 * calls (`deg2rad`, `cos`, `sin`, `sqrt`) are parameters, so every fact
 * proved here holds whatever those functions compute.
 */
module Geometry {

  /** A position plus a cumulative heading in degrees, never normalised. */
  datatype Point = Point(latitude: real, longitude: real, angle: real)

  /** The trigonometry a walk needs: degrees to radians, then cosine and sine. */
  datatype Trig = Trig(deg2rad: real -> real, cos: real -> real, sin: real -> real)

  /** `new Point($latitude, $longitude)`: the heading property starts at 0. */
  function At(latitude: real, longitude: real): Point {
    Point(latitude, longitude, 0.0)
  }

  /** Adds `delta` degrees to the heading; the position stays. */
  function Turn(p: Point, delta: real): Point {
    p.(angle := p.angle + delta)
  }

  /** Moves `distance` along the current heading; the heading stays. */
  function Move(p: Point, distance: real, trig: Trig): Point {
    var rad := trig.deg2rad(p.angle);
    p.(latitude := p.latitude + distance * trig.cos(rad),
       longitude := p.longitude + distance * trig.sin(rad))
  }

  function Abs(x: real): real {
    if x < 0.0 then -x else x
  }

  /** `pow(abs(dlat), 2) + pow(abs(dlon), 2)`: the heading plays no part. */
  function SquaredDistance(a: Point, b: Point): real {
    var dlat := Abs(a.latitude - b.latitude);
    var dlon := Abs(a.longitude - b.longitude);
    dlat * dlat + dlon * dlon
  }

  /**
   * The Euclidean distance of index.php, with the square root taken as a
   * parameter. It is symmetric, and with a square root that is non-negative
   * and zero only at zero it is non-negative and zero exactly at the same position.
   */
  function Distance(a: Point, b: Point, sqrt: real -> real): (r: real)
    ensures r == sqrt(SquaredDistance(b, a))
    ensures (forall x :: x >= 0.0 ==> sqrt(x) >= 0.0 && (sqrt(x) == 0.0 <==> x == 0.0)) ==>
      r >= 0.0 && (r == 0.0 <==> SamePosition(a, b))
  {
    SquaredDistanceZero(a, b);
    assert SquaredDistance(b, a) == SquaredDistance(a, b);
    sqrt(SquaredDistance(a, b))
  }

  /** Same latitude and longitude; the heading is not compared. */
  predicate SamePosition(a: Point, b: Point) {
    a.latitude == b.latitude && a.longitude == b.longitude
  }

  /**
   * What the statistics need of a distance: never negative, and zero exactly
   * between points at the same position.
   */
  ghost predicate Separates(dist: (Point, Point) -> real) {
    forall a, b :: dist(a, b) >= 0.0 && (dist(a, b) == 0.0 <==> SamePosition(a, b))
  }

  /** Dividing a product by one of its positive factors gives the other. */
  lemma DivideOut(s: real, n: real, x: real)
    requires n > 0.0
    requires s == n * x
    ensures s / n == x
  {
  }

  /** Multiplying a quotient by its positive divisor gives the dividend back. */
  lemma MultiplyBack(s: real, n: real)
    requires n > 0.0
    ensures n * (s / n) == s
  {
  }

  /** The square of a non-negative real is non-negative, and zero only for zero. */
  lemma Square(x: real)
    requires x >= 0.0
    ensures x * x >= 0.0
    ensures x * x == 0.0 <==> x == 0.0
  {
    if x > 0.0 {
      var y := x * x;
      DivideOut(y, x, x);
      assert y > 0.0;
    }
  }

  /** A sum of two squares of non-negative reals is non-negative, and zero only when both are. */
  lemma SumOfSquares(x: real, y: real)
    requires x >= 0.0 && y >= 0.0
    ensures x * x + y * y >= 0.0
    ensures x * x + y * y == 0.0 <==> x == 0.0 && y == 0.0
  {
    Square(x);
    Square(y);
  }

  /** The squared distance is never negative and is zero exactly at the same position. */
  lemma SquaredDistanceZero(a: Point, b: Point)
    ensures SquaredDistance(a, b) >= 0.0
    ensures SquaredDistance(a, b) == 0.0 <==> SamePosition(a, b)
  {
    SumOfSquares(Abs(a.latitude - b.latitude), Abs(a.longitude - b.longitude));
  }

  /**
   * The Euclidean distance separates points whenever the square root it is
   * given is a square root in the two respects the statistics rely on.
   */
  lemma EuclideanSeparates(sqrt: real -> real)
    requires forall x :: x >= 0.0 ==> sqrt(x) >= 0.0 && (sqrt(x) == 0.0 <==> x == 0.0)
    ensures Separates((a, b) => Distance(a, b, sqrt))
  {
    forall a: Point, b: Point
      ensures Distance(a, b, sqrt) >= 0.0 && (Distance(a, b, sqrt) == 0.0 <==> SamePosition(a, b))
    {
      SquaredDistanceZero(a, b);
    }
  }
}
