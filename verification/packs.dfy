/**
 * A group of routes (`DirectionsPack` in index.php) and its two statistics:
 * the mean of the final points and the greatest distance from a reference
 * point to a final point.
 */
module Packs {
  import opened Wrappers
  import opened Geometry
  import opened Directions

  datatype Pack = Pack(id: int, directions: seq<Direction>)

  /** `DirectionsPack::run`: every route is run, in order; nothing else changes. */
  function RunPack(p: Pack, trig: Trig): (r: Pack)
    ensures r.id == p.id && |r.directions| == |p.directions|
    ensures forall i :: 0 <= i < |p.directions| ==> r.directions[i] == Run(p.directions[i], trig)
  {
    Pack(p.id, seq(|p.directions|, i requires 0 <= i < |p.directions| => Run(p.directions[i], trig)))
  }

  /** Every route of the pack has a final point. */
  predicate AllRun(ds: seq<Direction>) {
    forall i :: 0 <= i < |ds| ==> ds[i].final.Some?
  }

  /** The final points that are set, in route order. */
  function Finals(ds: seq<Direction>): (fs: seq<Point>)
    ensures |fs| <= |ds|
    ensures |fs| == 0 <==> forall i :: 0 <= i < |ds| ==> ds[i].final.None?
    decreases |ds|
  {
    if ds == [] then []
    else
      var rest := Finals(ds[1..]);
      assert forall i :: 1 <= i < |ds| ==> ds[i] == ds[1..][i - 1];
      if ds[0].final.Some? then [ds[0].final.value] + rest else rest
  }

  /** Once every route has run, the final points are all of them, route by route. */
  lemma {:induction false} FinalsAllRun(ds: seq<Direction>)
    requires AllRun(ds)
    ensures |Finals(ds)| == |ds| && forall i :: 0 <= i < |ds| ==> Finals(ds)[i] == ds[i].final.value
    decreases |ds|
  {
    if ds != [] {
      assert AllRun(ds[1..]) by {
        forall i | 0 <= i < |ds[1..]| ensures ds[1..][i].final.Some? { assert ds[1..][i] == ds[i + 1]; }
      }
      FinalsAllRun(ds[1..]);
      FinalsHead(ds);
      forall i | 1 <= i < |ds| ensures Finals(ds)[i] == ds[i].final.value {
        assert Finals(ds)[i] == Finals(ds[1..])[i - 1] && ds[1..][i - 1] == ds[i];
      }
    }
  }

  /** Each collected final point is the final point of some route. */
  lemma {:induction false} FinalsFromRoutes(ds: seq<Direction>)
    ensures forall j :: 0 <= j < |Finals(ds)| ==> exists i :: 0 <= i < |ds| && ds[i].final == Some(Finals(ds)[j])
    decreases |ds|
  {
    if ds == [] {
      assert |Finals(ds)| == 0;
    } else {
      var rest := Finals(ds[1..]);
      FinalsFromRoutes(ds[1..]);
      forall j | 0 <= j < |rest|
        ensures exists i :: 0 <= i < |ds| && ds[i].final == Some(rest[j])
      {
        var i :| 0 <= i < |ds[1..]| && ds[1..][i].final == Some(rest[j]);
        assert ds[i + 1] == ds[1..][i];
      }
      if ds[0].final.Some? {
        FinalsCons(ds, rest);
      } else {
        assert Finals(ds) == rest;
      }
    }
  }

  /** The witness step of `FinalsFromRoutes` when the first route has a final point. */
  lemma {:induction false} FinalsCons(ds: seq<Direction>, rest: seq<Point>)
    requires |ds| > 0 && ds[0].final.Some? && rest == Finals(ds[1..])
    requires forall j :: 0 <= j < |rest| ==> exists i :: 0 <= i < |ds| && ds[i].final == Some(rest[j])
    ensures forall j :: 0 <= j < |Finals(ds)| ==> exists i :: 0 <= i < |ds| && ds[i].final == Some(Finals(ds)[j])
  {
    var fs := Finals(ds);
    assert fs == [ds[0].final.value] + rest;
    forall j | 0 <= j < |fs|
      ensures exists i :: 0 <= i < |ds| && ds[i].final == Some(fs[j])
    {
      if j == 0 {
        assert ds[0].final == Some(fs[0]);
      } else {
        assert fs[j] == rest[j - 1];
      }
    }
  }

  /** One route contributes its final point when it is set, and nothing otherwise. */
  lemma {:induction false} FinalsOne(d: Direction)
    ensures Finals([d]) == (if d.final.Some? then [d.final.value] else [])
  {
    assert [d][1..] == [];
    assert Finals([d][1..]) == [];
  }

  /** The final points of routes: the first route's, if set, then those of the rest. */
  lemma FinalsHead(ds: seq<Direction>)
    requires ds != []
    ensures Finals(ds) == (if ds[0].final.Some? then [ds[0].final.value] else []) + Finals(ds[1..])
  {
  }

  /**
   * The final points of two runs of routes, one after the other, are those of
   * the first followed by those of the second: routes never run are skipped
   * wherever they stand, and the order of the others is kept.
   */
  lemma {:induction false} FinalsAppend(a: seq<Direction>, b: seq<Direction>)
    ensures Finals(a + b) == Finals(a) + Finals(b)
    decreases |a|
  {
    if a == [] {
      assert a + b == b;
    } else {
      var ab := a + b;
      FinalsAppend(a[1..], b);
      assert ab[0] == a[0] && ab[1..] == a[1..] + b;
      FinalsHead(ab);
      FinalsHead(a);
      var h := if a[0].final.Some? then [a[0].final.value] else [];
      assert h + (Finals(a[1..]) + Finals(b)) == (h + Finals(a[1..])) + Finals(b);
    }
  }

  function SumLatitudes(ps: seq<Point>): real
    decreases |ps|
  {
    if ps == [] then 0.0 else ps[0].latitude + SumLatitudes(ps[1..])
  }

  function SumLongitudes(ps: seq<Point>): real
    decreases |ps|
  {
    if ps == [] then 0.0 else ps[0].longitude + SumLongitudes(ps[1..])
  }

  /** The mean of some points: `n` times each coordinate of it is the sum of that coordinate. */
  function Mean(fs: seq<Point>): (m: Point)
    requires |fs| > 0
    ensures m.angle == 0.0
    ensures (|fs| as real) * m.latitude == SumLatitudes(fs)
    ensures (|fs| as real) * m.longitude == SumLongitudes(fs)
  {
    var n := |fs| as real;
    MultiplyBack(SumLatitudes(fs), n);
    MultiplyBack(SumLongitudes(fs), n);
    At(SumLatitudes(fs) / n, SumLongitudes(fs) / n)
  }

  /**
   * `getAverageFinalPoint`: the mean latitude and longitude of the routes
   * whose final point is set, as a fresh point with heading 0. With no such
   * route PHP divides by `count([])`, which is zero: the result is `None`.
   */
  function Average(ds: seq<Direction>): (r: Option<Point>)
    ensures r.None? <==> forall i :: 0 <= i < |ds| ==> ds[i].final.None?
    ensures r.Some? ==> r.value.angle == 0.0
    ensures r.Some? ==> (|Finals(ds)| as real) * r.value.latitude == SumLatitudes(Finals(ds))
    ensures r.Some? ==> (|Finals(ds)| as real) * r.value.longitude == SumLongitudes(Finals(ds))
  {
    var fs := Finals(ds);
    if |fs| == 0 then None else Some(Mean(fs))
  }

  /** The sums of `n` points at one position are `n` times its coordinates. */
  lemma {:induction false} SumOfCopies(ps: seq<Point>, q: Point)
    requires forall i :: 0 <= i < |ps| ==> SamePosition(ps[i], q)
    ensures SumLatitudes(ps) == (|ps| as real) * q.latitude
    ensures SumLongitudes(ps) == (|ps| as real) * q.longitude
    decreases |ps|
  {
    if ps != [] {
      SumOfCopies(ps[1..], q);
      assert ((|ps| - 1) as real) * q.latitude + q.latitude == (|ps| as real) * q.latitude;
      assert ((|ps| - 1) as real) * q.longitude + q.longitude == (|ps| as real) * q.longitude;
    }
  }

  /** The mean of points at one position is that position. */
  lemma {:induction false} MeanOfCopies(fs: seq<Point>, q: Point)
    requires |fs| > 0
    requires forall j :: 0 <= j < |fs| ==> SamePosition(fs[j], q)
    ensures Mean(fs) == At(q.latitude, q.longitude)
  {
    SumOfCopies(fs, q);
    var n := |fs| as real;
    DivideOut(SumLatitudes(fs), n, q.latitude);
    DivideOut(SumLongitudes(fs), n, q.longitude);
  }

  /** When every set final point is at one position, the average is that position. */
  lemma {:induction false} AverageOfCopies(ds: seq<Direction>, q: Point)
    requires exists i :: 0 <= i < |ds| && ds[i].final.Some?
    requires forall i :: 0 <= i < |ds| && ds[i].final.Some? ==> SamePosition(ds[i].final.value, q)
    ensures Average(ds) == Some(At(q.latitude, q.longitude))
  {
    var fs := Finals(ds);
    assert forall j :: 0 <= j < |fs| ==> SamePosition(fs[j], q) by {
      FinalsFromRoutes(ds);
    }
    MeanOfCopies(fs, q);
  }

  /**
   * The final point `getFarestDirectionDistance` reads: a route that was
   * never run has `finalCoords === null`, whose coordinates PHP reads as 0.
   */
  function Reached(d: Direction): Point {
    match d.final
    case Some(p) => p
    case None => At(0.0, 0.0)
  }

  /**
   * The loop of `getFarestDirectionDistance` from the running result `acc`:
   * the result becomes a route's distance when it is still `null` or smaller.
   * It bounds `acc` and every distance from above and is one of them.
   */
  function FarthestFrom(ds: seq<Direction>, ref: Point, dist: (Point, Point) -> real, acc: Option<real>): (r: Option<real>)
    ensures r.None? <==> acc.None? && |ds| == 0
    ensures acc.Some? ==> acc.value <= r.value
    ensures forall i :: 0 <= i < |ds| ==> dist(Reached(ds[i]), ref) <= r.value
    ensures r == acc || exists i :: 0 <= i < |ds| && r == Some(dist(Reached(ds[i]), ref))
    decreases |ds|
  {
    if ds == [] then acc
    else
      var d := dist(Reached(ds[0]), ref);
      var acc' := if acc.None? || acc.value < d then Some(d) else acc;
      assert forall i :: 1 <= i < |ds| ==> ds[i] == ds[1..][i - 1];
      FarthestFrom(ds[1..], ref, dist, acc')
  }

  /**
   * `getFarestDirectionDistance`: `null` for a pack without routes, else the
   * greatest distance from `ref` to a route's final point.
   */
  function Farthest(ds: seq<Direction>, ref: Point, dist: (Point, Point) -> real): (r: Option<real>)
    ensures r.None? <==> |ds| == 0
    ensures r.Some? ==> forall i :: 0 <= i < |ds| ==> dist(Reached(ds[i]), ref) <= r.value
    ensures r.Some? ==> exists i :: 0 <= i < |ds| && r.value == dist(Reached(ds[i]), ref)
  {
    FarthestFrom(ds, ref, dist, None)
  }

  /**
   * With a distance that separates points, the farthest distance is never
   * negative, and it is zero exactly when every final point is at `ref`.
   */
  lemma {:induction false} FarthestZero(ds: seq<Direction>, ref: Point, dist: (Point, Point) -> real)
    requires Separates(dist)
    requires |ds| > 0
    ensures Farthest(ds, ref, dist).value >= 0.0
    ensures Farthest(ds, ref, dist) == Some(0.0) <==> forall i :: 0 <= i < |ds| ==> SamePosition(Reached(ds[i]), ref)
  {
    var r := Farthest(ds, ref, dist);
    if forall i :: 0 <= i < |ds| ==> SamePosition(Reached(ds[i]), ref) {
      var i :| 0 <= i < |ds| && r.value == dist(Reached(ds[i]), ref);
      assert dist(Reached(ds[i]), ref) == 0.0;
    }
    if r == Some(0.0) {
      forall i | 0 <= i < |ds|
        ensures SamePosition(Reached(ds[i]), ref)
      {
        assert dist(Reached(ds[i]), ref) >= 0.0;
      }
    }
  }

  /** After `DirectionsPack::run` the average exists exactly when the pack has a route. */
  lemma {:induction false} AverageOfRunPack(p: Pack, trig: Trig)
    ensures Average(RunPack(p, trig).directions).Some? <==> |p.directions| > 0
  {
    var ds := RunPack(p, trig).directions;
    if |ds| > 0 {
      assert ds[0].final.Some?;
    }
  }
}
