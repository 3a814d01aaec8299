/**
 * `PacksCollection`: reading the input line by line into packs, and the
 * report with one entry per pack.
 *
 * PHP keeps the packs in an array keyed by id, which iterates in insertion
 * order and keeps a key in place when it is assigned again. It is modelled
 * as a sequence of packs whose ids are all different; a pack's id is its key.
 */
module Collection {
  import opened Wrappers
  import opened Geometry
  import opened Lexing
  import opened Directions
  import opened Packs

  function Ids(packs: seq<Pack>): (ids: seq<int>)
    ensures |ids| == |packs|
    ensures forall i :: 0 <= i < |packs| ==> ids[i] == packs[i].id
  {
    seq(|packs|, i requires 0 <= i < |packs| => packs[i].id)
  }

  /** The keys of a PHP array are distinct. */
  predicate UniqueIds(packs: seq<Pack>) {
    forall i, j :: 0 <= i < j < |packs| ==> packs[i].id != packs[j].id
  }

  /** Where the pack with the given id sits, if there is one. */
  function Position(packs: seq<Pack>, id: int): (r: Option<nat>)
    ensures r.Some? ==> r.value < |packs| && packs[r.value].id == id
    ensures r.None? <==> id !in Ids(packs)
    decreases |packs|
  {
    if packs == [] then None
    else if packs[|packs| - 1].id == id then Some(|packs| - 1)
    else
      assert Ids(packs) == Ids(packs[..|packs| - 1]) + [packs[|packs| - 1].id];
      Position(packs[..|packs| - 1], id)
  }

  /**
   * `$this->packs[$id] = $pack`: a pack whose id is already a key replaces
   * the pack under that key, in the same place; a new id goes at the end.
   */
  function Install(packs: seq<Pack>, p: Pack): (r: seq<Pack>)
    requires UniqueIds(packs)
    ensures UniqueIds(r)
    ensures p.id in Ids(packs) ==> Ids(r) == Ids(packs)
    ensures p.id !in Ids(packs) ==> r == packs + [p] && Ids(r) == Ids(packs) + [p.id]
    ensures forall i :: 0 <= i < |packs| ==> r[i] == if packs[i].id == p.id then p else packs[i]
  {
    match Position(packs, p.id)
    case Some(k) =>
      var r := packs[k := p];
      assert Ids(r) == Ids(packs);
      r
    case None =>
      var r := packs + [p];
      assert Ids(r) == Ids(packs) + [p.id];
      r
  }

  /**
   * `$this->packs[$id]->directions[] = ...` for several routes at once: they
   * go, in order, after the routes of the pack with that id; nothing else changes.
   */
  function AddRoutes(packs: seq<Pack>, id: int, ds: seq<Direction>): (r: seq<Pack>)
    requires UniqueIds(packs)
    ensures UniqueIds(r)
    ensures Ids(r) == Ids(packs)
    ensures forall i :: 0 <= i < |packs| ==>
      r[i] == if packs[i].id == id then packs[i].(directions := packs[i].directions + ds) else packs[i]
  {
    seq(|packs|, i requires 0 <= i < |packs| =>
      if packs[i].id == id then packs[i].(directions := packs[i].directions + ds) else packs[i])
  }

  /** Adding routes in two batches is adding them in one. */
  lemma {:induction false} AddRoutesTwice(packs: seq<Pack>, id: int, a: seq<Direction>, b: seq<Direction>)
    requires UniqueIds(packs)
    ensures AddRoutes(AddRoutes(packs, id, a), id, b) == AddRoutes(packs, id, a + b)
  {
    var r1 := AddRoutes(AddRoutes(packs, id, a), id, b);
    var r2 := AddRoutes(packs, id, a + b);
    forall i | 0 <= i < |packs|
      ensures r1[i] == r2[i]
    {
      if packs[i].id == id {
        assert packs[i].directions + a + b == packs[i].directions + (a + b);
      }
    }
  }

  /**
   * The loop of `PacksCollection::__construct` from the packs read so far and
   * the id of the pack being filled. A trimmed `0` stops the reading, a
   * numeric line opens an empty pack under its integer value, any other line
   * is a route of the current pack, or is dropped when no pack is open yet.
   */
  function BuildFrom(lines: seq<string>, co: Coercion, packs: seq<Pack>, current: Option<int>): (r: seq<Pack>)
    requires UniqueIds(packs)
    requires current.Some? ==> current.value in Ids(packs)
    ensures UniqueIds(r)
    ensures |r| >= |packs|
    decreases |lines|
  {
    if lines == [] then packs
    else
      var s := Trim(lines[0]);
      if s == "0" then packs
      else if co.isNumeric(s) then
        var id := co.toInt(s);
        BuildFrom(lines[1..], co, Install(packs, Pack(id, [])), Some(id))
      else if current.Some? then
        BuildFrom(lines[1..], co, AddRoutes(packs, current.value, [Parse(s, co)]), current)
      else
        BuildFrom(lines[1..], co, packs, current)
  }

  /** `new PacksCollection($input)`, the input already cut into lines. */
  function Build(lines: seq<string>, co: Coercion): (r: seq<Pack>)
    ensures UniqueIds(r)
  {
    BuildFrom(lines, co, [], None)
  }

  /** A line that stops the reading. */
  predicate IsStop(line: string) {
    Trim(line) == "0"
  }

  /** A line that opens a pack. */
  predicate Opens(line: string, co: Coercion) {
    !IsStop(line) && co.isNumeric(Trim(line))
  }

  /** A line that is read as a route. */
  predicate IsRouteLine(line: string, co: Coercion) {
    !IsStop(line) && !co.isNumeric(Trim(line))
  }

  /** Nothing after a stop line matters. */
  lemma {:induction false} StopsAtZero(pre: seq<string>, z: string, post: seq<string>, co: Coercion,
                                       packs: seq<Pack>, current: Option<int>)
    requires IsStop(z)
    requires UniqueIds(packs)
    requires current.Some? ==> current.value in Ids(packs)
    ensures BuildFrom(pre + [z] + post, co, packs, current) == BuildFrom(pre, co, packs, current)
    decreases |pre|
  {
    var lines := pre + [z] + post;
    if pre == [] {
      assert lines[0] == z;
    } else {
      assert lines[0] == pre[0];
      assert lines[1..] == pre[1..] + [z] + post;
      var s := Trim(pre[0]);
      if s == "0" {
      } else if co.isNumeric(s) {
        var id := co.toInt(s);
        StopsAtZero(pre[1..], z, post, co, Install(packs, Pack(id, [])), Some(id));
      } else if current.Some? {
        StopsAtZero(pre[1..], z, post, co, AddRoutes(packs, current.value, [Parse(s, co)]), current);
      } else {
        StopsAtZero(pre[1..], z, post, co, packs, current);
      }
    }
  }

  /** Reading stops at the first stop line: the input after it contributes nothing. */
  lemma {:induction false} BuildStopsAtZero(pre: seq<string>, z: string, post: seq<string>, co: Coercion)
    requires IsStop(z)
    ensures Build(pre + [z] + post, co) == Build(pre, co)
  {
    StopsAtZero(pre, z, post, co, [], None);
  }

  /** Route lines before the first pack is opened are dropped. */
  lemma {:induction false} DropsOrphanRoutes(pre: seq<string>, post: seq<string>, co: Coercion, packs: seq<Pack>)
    requires forall k :: 0 <= k < |pre| ==> IsRouteLine(pre[k], co)
    requires UniqueIds(packs)
    ensures BuildFrom(pre + post, co, packs, None) == BuildFrom(post, co, packs, None)
    decreases |pre|
  {
    if pre != [] {
      var lines := pre + post;
      assert lines[0] == pre[0];
      assert lines[1..] == pre[1..] + post;
      assert IsRouteLine(pre[0], co);
      assert BuildFrom(lines, co, packs, None) == BuildFrom(lines[1..], co, packs, None);
      assert forall k :: 0 <= k < |pre[1..]| ==> pre[1..][k] == pre[k + 1];
      DropsOrphanRoutes(pre[1..], post, co, packs);
    } else {
      assert pre + post == post;
    }
  }

  /** `new Direction(trim($line))` for every line, in order. */
  function ParseAll(lines: seq<string>, co: Coercion): (ds: seq<Direction>)
    ensures |ds| == |lines|
    ensures forall k :: 0 <= k < |lines| ==> ds[k] == Parse(Trim(lines[k]), co)
    decreases |lines|
  {
    if lines == [] then [] else [Parse(Trim(lines[0]), co)] + ParseAll(lines[1..], co)
  }

  /** A route line, once a pack is open, adds one route to that pack. */
  lemma {:induction false} AddsRoute(lines: seq<string>, co: Coercion, packs: seq<Pack>, id: int)
    requires |lines| > 0 && IsRouteLine(lines[0], co)
    requires UniqueIds(packs)
    requires id in Ids(packs)
    ensures BuildFrom(lines, co, packs, Some(id))
         == BuildFrom(lines[1..], co, AddRoutes(packs, id, [Parse(Trim(lines[0]), co)]), Some(id))
  {
  }

  /** Adding no routes changes nothing. */
  lemma {:induction false} AddNoRoutes(packs: seq<Pack>, id: int)
    requires UniqueIds(packs)
    ensures AddRoutes(packs, id, []) == packs
  {
    var r := AddRoutes(packs, id, []);
    forall i | 0 <= i < |packs|
      ensures r[i] == packs[i]
    {
      assert packs[i].directions + [] == packs[i].directions;
    }
  }

  /** Route lines become routes of the current pack, in line order. */
  lemma {:induction false} RoutesInLineOrder(lines: seq<string>, co: Coercion, packs: seq<Pack>, id: int)
    requires forall k :: 0 <= k < |lines| ==> IsRouteLine(lines[k], co)
    requires UniqueIds(packs)
    requires id in Ids(packs)
    ensures BuildFrom(lines, co, packs, Some(id)) == AddRoutes(packs, id, ParseAll(lines, co))
    decreases |lines|
  {
    if lines == [] {
      AddNoRoutes(packs, id);
    } else {
      var d := Parse(Trim(lines[0]), co);
      var packs' := AddRoutes(packs, id, [d]);
      var rest := ParseAll(lines[1..], co);
      assert BuildFrom(lines, co, packs, Some(id)) == BuildFrom(lines[1..], co, packs', Some(id)) by {
        AddsRoute(lines, co, packs, id);
      }
      assert BuildFrom(lines[1..], co, packs', Some(id)) == AddRoutes(packs', id, rest) by {
        assert forall k :: 0 <= k < |lines[1..]| ==> lines[1..][k] == lines[k + 1];
        RoutesInLineOrder(lines[1..], co, packs', id);
      }
      assert AddRoutes(packs', id, rest) == AddRoutes(packs, id, [d] + rest) by {
        AddRoutesTwice(packs, id, [d], rest);
      }
      assert [d] + rest == ParseAll(lines, co);
    }
  }

  /** One pack line followed by route lines gives one pack holding those routes in order. */
  lemma {:induction false} SinglePack(idLine: string, routes: seq<string>, co: Coercion)
    requires Opens(idLine, co)
    requires forall k :: 0 <= k < |routes| ==> IsRouteLine(routes[k], co)
    ensures Build([idLine] + routes, co) == [Pack(co.toInt(Trim(idLine)), ParseAll(routes, co))]
  {
    var id := co.toInt(Trim(idLine));
    var lines := [idLine] + routes;
    assert lines[0] == idLine && lines[1..] == routes;
    var packs := Install([], Pack(id, []));
    assert packs == [Pack(id, [])];
    assert Build(lines, co) == BuildFrom(routes, co, packs, Some(id));
    RoutesInLineOrder(routes, co, packs, id);
    var r := AddRoutes(packs, id, ParseAll(routes, co));
    assert r[0] == Pack(id, [] + ParseAll(routes, co));
    assert [] + ParseAll(routes, co) == ParseAll(routes, co);
  }

  /** A single line that opens a pack installs an empty pack under its integer value. */
  lemma {:induction false} OpensEmptyPack(line: string, co: Coercion, packs: seq<Pack>, current: Option<int>)
    requires Opens(line, co)
    requires UniqueIds(packs)
    requires current.Some? ==> current.value in Ids(packs)
    ensures BuildFrom([line], co, packs, current) == Install(packs, Pack(co.toInt(Trim(line)), []))
  {
    assert [line][0] == line && [line][1..] == [];
  }

  /**
   * An id line for an id that is already a key empties that pack and keeps it
   * in its place; every other pack stays.
   */
  lemma {:induction false} ReopenEmptiesInPlace(line: string, co: Coercion, packs: seq<Pack>, current: Option<int>)
    requires Opens(line, co)
    requires UniqueIds(packs)
    requires current.Some? ==> current.value in Ids(packs)
    requires co.toInt(Trim(line)) in Ids(packs)
    ensures Ids(BuildFrom([line], co, packs, current)) == Ids(packs)
    ensures forall i :: 0 <= i < |packs| ==>
      BuildFrom([line], co, packs, current)[i] == if packs[i].id == co.toInt(Trim(line)) then Pack(packs[i].id, []) else packs[i]
  {
    OpensEmptyPack(line, co, packs, current);
  }

  /** The id of the pack being filled after reading `lines`: the last id line before any stop line. */
  function CurrentAfter(lines: seq<string>, co: Coercion, current: Option<int>): Option<int>
    decreases |lines|
  {
    if lines == [] || IsStop(lines[0]) then current
    else if co.isNumeric(Trim(lines[0])) then CurrentAfter(lines[1..], co, Some(co.toInt(Trim(lines[0]))))
    else CurrentAfter(lines[1..], co, current)
  }

  /**
   * Reading `pre` and then `post` is reading `post` from the packs `pre`
   * left, with the pack `pre` opened last as the current one, which is a key.
   */
  lemma {:induction false} BuildFromAppend(pre: seq<string>, post: seq<string>, co: Coercion,
                                           packs: seq<Pack>, current: Option<int>)
    requires forall k :: 0 <= k < |pre| ==> !IsStop(pre[k])
    requires UniqueIds(packs)
    requires current.Some? ==> current.value in Ids(packs)
    ensures CurrentAfter(pre, co, current).Some? ==>
      CurrentAfter(pre, co, current).value in Ids(BuildFrom(pre, co, packs, current))
    ensures BuildFrom(pre + post, co, packs, current)
         == BuildFrom(post, co, BuildFrom(pre, co, packs, current), CurrentAfter(pre, co, current))
    decreases |pre|
  {
    if pre == [] {
      assert pre + post == post;
    } else {
      var s := Trim(pre[0]);
      assert !IsStop(pre[0]);
      assert (pre + post)[0] == pre[0] && (pre + post)[1..] == pre[1..] + post;
      assert forall k :: 0 <= k < |pre[1..]| ==> pre[1..][k] == pre[k + 1];
      if co.isNumeric(s) {
        var id := co.toInt(s);
        BuildFromAppend(pre[1..], post, co, Install(packs, Pack(id, [])), Some(id));
      } else if current.Some? {
        BuildFromAppend(pre[1..], post, co, AddRoutes(packs, current.value, [Parse(s, co)]), current);
      } else {
        BuildFromAppend(pre[1..], post, co, packs, current);
      }
    }
  }

  /**
   * However many packs came before, an id line followed by route lines puts
   * those routes, in order, into the pack with that id, emptied or newly
   * added by the id line; no other pack receives them.
   */
  lemma {:induction false} LatestPackGetsRoutes(pre: seq<string>, idLine: string, routes: seq<string>, co: Coercion)
    requires forall k :: 0 <= k < |pre| ==> !IsStop(pre[k])
    requires Opens(idLine, co)
    requires forall k :: 0 <= k < |routes| ==> IsRouteLine(routes[k], co)
    ensures Build(pre + [idLine] + routes, co)
         == AddRoutes(Install(Build(pre, co), Pack(co.toInt(Trim(idLine)), [])), co.toInt(Trim(idLine)), ParseAll(routes, co))
  {
    var id := co.toInt(Trim(idLine));
    var post := [idLine] + routes;
    assert pre + [idLine] + routes == pre + post;
    BuildFromAppend(pre, post, co, [], None);
    var before := Build(pre, co);
    var reset := Install(before, Pack(id, []));
    assert post[0] == idLine && post[1..] == routes;
    assert BuildFrom(post, co, before, CurrentAfter(pre, co, None)) == BuildFrom(routes, co, reset, Some(id));
    RoutesInLineOrder(routes, co, reset, id);
  }

  /** The ids in the order they are first seen. */
  function FirstSeen(seen: seq<int>, ids: seq<int>): seq<int>
    decreases |ids|
  {
    if ids == [] then seen
    else FirstSeen(if ids[0] in seen then seen else seen + [ids[0]], ids[1..])
  }

  /** The ids of the lines that open a pack, up to the first stop line. */
  function OpenedIds(lines: seq<string>, co: Coercion): seq<int>
    decreases |lines|
  {
    if lines == [] || IsStop(lines[0]) then []
    else if co.isNumeric(Trim(lines[0])) then [co.toInt(Trim(lines[0]))] + OpenedIds(lines[1..], co)
    else OpenedIds(lines[1..], co)
  }

  lemma {:induction false} IdsFrom(lines: seq<string>, co: Coercion, packs: seq<Pack>, current: Option<int>)
    requires UniqueIds(packs)
    requires current.Some? ==> current.value in Ids(packs)
    ensures Ids(BuildFrom(lines, co, packs, current)) == FirstSeen(Ids(packs), OpenedIds(lines, co))
    decreases |lines|
  {
    if lines != [] {
      var s := Trim(lines[0]);
      if s == "0" {
      } else if co.isNumeric(s) {
        var id := co.toInt(s);
        IdsFrom(lines[1..], co, Install(packs, Pack(id, [])), Some(id));
      } else if current.Some? {
        IdsFrom(lines[1..], co, AddRoutes(packs, current.value, [Parse(s, co)]), current);
      } else {
        IdsFrom(lines[1..], co, packs, current);
      }
    }
  }

  /** The packs come out in the order their ids first appear, each id once. */
  lemma {:induction false} BuildIds(lines: seq<string>, co: Coercion)
    ensures Ids(Build(lines, co)) == FirstSeen([], OpenedIds(lines, co))
  {
    IdsFrom(lines, co, [], None);
  }

  /** One line of the report, before rounding: the average point and the farthest distance from it. */
  datatype Summary = Summary(average: Point, farthest: real)

  /**
   * One iteration of `PacksCollection::run`: run the pack, average it, and
   * measure from the average. A pack without routes fails on the division by
   * zero and reports its id.
   */
  function Summarise(p: Pack, trig: Trig, dist: (Point, Point) -> real): (r: Result<Summary, int>)
    ensures r.Failure? <==> |p.directions| == 0
    ensures r.Failure? ==> r.error == p.id
    ensures r.Success? ==> Average(RunPack(p, trig).directions) == Some(r.value.average)
    ensures r.Success? ==> r.value.average.angle == 0.0
    ensures r.Success? ==> forall i :: 0 <= i < |p.directions| ==>
      dist(Destination(p.directions[i], trig), r.value.average) <= r.value.farthest
    ensures r.Success? ==>
      exists i :: 0 <= i < |p.directions| && r.value.farthest == dist(Destination(p.directions[i], trig), r.value.average)
  {
    var run := RunPack(p, trig);
    AverageOfRunPack(p, trig);
    match Average(run.directions)
    case None => Failure(p.id)
    case Some(avg) =>
      var far := Farthest(run.directions, avg, dist);
      assert forall i :: 0 <= i < |p.directions| ==>
        Reached(run.directions[i]) == Destination(p.directions[i], trig);
      Success(Summary(avg, far.value))
  }

  /**
   * When every route of a pack ends at the same place, the average is that
   * place and, with a distance that separates points, the farthest distance is zero.
   */
  lemma {:induction false} AgreeingRoutes(p: Pack, trig: Trig, dist: (Point, Point) -> real, q: Point)
    requires Separates(dist)
    requires |p.directions| > 0
    requires forall i :: 0 <= i < |p.directions| ==> SamePosition(Destination(p.directions[i], trig), q)
    ensures Summarise(p, trig, dist) == Success(Summary(At(q.latitude, q.longitude), 0.0))
  {
    var run := RunPack(p, trig);
    var avg := At(q.latitude, q.longitude);
    assert forall i :: 0 <= i < |run.directions| ==> Reached(run.directions[i]) == Destination(p.directions[i], trig);
    assert run.directions[0].final.Some?;
    AverageOfCopies(run.directions, q);
    FarthestZero(run.directions, avg, dist);
  }

  /** All the values when every result is a success, else the first failure. */
  function Collect<T, E>(rs: seq<Result<T, E>>): (r: Result<seq<T>, E>)
    ensures r.Success? <==> forall i :: 0 <= i < |rs| ==> rs[i].Success?
    ensures r.Success? ==> |r.value| == |rs| && forall i :: 0 <= i < |rs| ==> rs[i] == Success(r.value[i])
    ensures r.Failure? ==> exists i :: 0 <= i < |rs| && rs[i] == Failure(r.error) && forall j :: 0 <= j < i ==> rs[j].Success?
    decreases |rs|
  {
    if rs == [] then Success([])
    else
      assert forall i :: 1 <= i < |rs| ==> rs[i] == rs[1..][i - 1];
      match rs[0]
      case Failure(e) => Failure(e)
      case Success(v) =>
        match Collect(rs[1..])
        case Failure(e) => Failure(e)
        case Success(vs) => Success([v] + vs)
  }

  /**
   * `PacksCollection::run`: one summary per pack, in collection order, or the
   * id of the first pack without routes, where PHP's division by zero stops the run.
   */
  function Report(packs: seq<Pack>, trig: Trig, dist: (Point, Point) -> real): (r: Result<seq<Summary>, int>)
    ensures r.Success? <==> forall i :: 0 <= i < |packs| ==> |packs[i].directions| > 0
    ensures r.Success? ==> |r.value| == |packs|
    ensures r.Success? ==> forall i :: 0 <= i < |packs| ==> Summarise(packs[i], trig, dist) == Success(r.value[i])
    ensures r.Failure? ==>
      exists i :: 0 <= i < |packs| && packs[i].id == r.error && |packs[i].directions| == 0 &&
        forall j :: 0 <= j < i ==> |packs[j].directions| > 0
  {
    var rs := seq(|packs|, i requires 0 <= i < |packs| => Summarise(packs[i], trig, dist));
    FirstEmptyPack(packs, trig, dist, rs);
    Collect(rs)
  }

  /** The summaries of `Report` fail exactly at the packs without routes, naming the first such pack. */
  lemma {:induction false} FirstEmptyPack(packs: seq<Pack>, trig: Trig, dist: (Point, Point) -> real, rs: seq<Result<Summary, int>>)
    requires |rs| == |packs|
    requires forall i :: 0 <= i < |packs| ==> rs[i] == Summarise(packs[i], trig, dist)
    ensures Collect(rs).Success? <==> forall i :: 0 <= i < |packs| ==> |packs[i].directions| > 0
    ensures Collect(rs).Failure? ==>
      exists i :: 0 <= i < |packs| && packs[i].id == Collect(rs).error && |packs[i].directions| == 0 &&
        forall j :: 0 <= j < i ==> |packs[j].directions| > 0
  {
    var r := Collect(rs);
    assert forall i :: 0 <= i < |packs| ==> (rs[i].Success? <==> |packs[i].directions| > 0);
    if r.Failure? {
      var i :| 0 <= i < |rs| && rs[i] == Failure(r.error) && forall j :: 0 <= j < i ==> rs[j].Success?;
      assert packs[i].id == r.error && |packs[i].directions| == 0 by {
        assert rs[i] == Summarise(packs[i], trig, dist);
      }
    }
  }
}
