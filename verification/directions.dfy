/**
 * A route (`Direction` in index.php): a start point, the commands read from
 * its line, and the final point a run leaves behind.
 */
module Directions {
  import opened Wrappers
  import opened Geometry
  import opened Commands
  import opened Lexing

  /** `final` is `finalCoords`: `None` until the route has been run. */
  datatype Direction = Direction(start: Point, commands: seq<Command>, final: Option<Point>)

  /** `new Command($command, $value)` for every captured pair, in order. */
  function ToCommands(ps: seq<Pair>, co: Coercion): (cs: seq<Command>)
    ensures |cs| == |ps|
    ensures forall k :: 0 <= k < |ps| ==> cs[k] == Command(ps[k].word, co.toFloat(ps[k].number))
  {
    seq(|ps|, k requires 0 <= k < |ps| => Command(ps[k].word, co.toFloat(ps[k].number)))
  }

  /**
   * `Direction::__construct`: the start point comes from the first two
   * adjacent numbers (both 0.0 when there are none, PHP's null coercion of
   * the missing capture), the commands from the later (word, number) pairs.
   */
  function Parse(line: string, co: Coercion): (d: Direction)
    ensures d.final.None?
    ensures d.start.angle == 0.0
    ensures |d.commands| <= |Split(line)| / 2
  {
    var ts := Split(line);
    var start := match Coordinates(ts)
      case Some(i) => At(co.toFloat(ts[i]), co.toFloat(ts[i + 1]))
      case None => At(0.0, 0.0);
    PairsBound(ts, 1);
    Direction(start, ToCommands(CommandPairs(ts, 1), co), None)
  }

  /**
   * The start point of a parsed route: the float values of the first two
   * adjacent number tokens, and (0, 0) when the line has no such pair, since
   * the failed match leaves both captures null.
   */
  lemma {:induction false} ParseStart(line: string, co: Coercion)
    ensures forall i :: NumberPairAt(Split(line), i) && (forall j :: 0 <= j < i ==> !NumberPairAt(Split(line), j)) ==>
      Parse(line, co).start == At(co.toFloat(Split(line)[i]), co.toFloat(Split(line)[i + 1]))
    ensures (forall j :: !NumberPairAt(Split(line), j)) ==> Parse(line, co).start == At(0.0, 0.0)
  {
    var ts := Split(line);
    CoordinatesFirstPair(ts);
    forall i | NumberPairAt(ts, i) && (forall j :: 0 <= j < i ==> !NumberPairAt(ts, j))
      ensures Parse(line, co).start == At(co.toFloat(ts[i]), co.toFloat(ts[i + 1]))
    {
      var c := Coordinates(ts).value;
      assert !(c < i) && !(i < c);
    }
  }

  /** A line that trims to nothing parses to a route at (0, 0) without commands. */
  lemma {:induction false} BlankLine(line: string, co: Coercion)
    requires Trim(line) == ""
    ensures Parse(Trim(line), co) == Direction(At(0.0, 0.0), [], None)
  {
    assert Split("") == [""];
    assert Coordinates([""]).None?;
    assert CommandPairs([""], 1) == [];
  }

  /** Pairs do not overlap, so there are at most half as many as there are tokens after the first. */
  lemma {:induction false} PairsBound(ts: seq<string>, i: nat)
    requires 1 <= i
    ensures 2 * |CommandPairs(ts, i)| <= if i < |ts| then |ts| - i else 0
    decreases |ts| - i
  {
    if i + 1 < |ts| {
      if IsWordToken(ts[i]) && IsNumberToken(ts[i + 1]) {
        PairsBound(ts, i + 2);
      } else {
        PairsBound(ts, i + 1);
      }
    }
  }

  /** The sum of the values of the `start` and `turn` commands. */
  function Steering(cs: seq<Command>): real
    decreases |cs|
  {
    if cs == [] then 0.0
    else (if Steers(cs[0]) then cs[0].value else 0.0) + Steering(cs[1..])
  }

  /** No `walk` among the commands. */
  predicate StandsStill(cs: seq<Command>) {
    forall k :: 0 <= k < |cs| ==> cs[k].name != WALK
  }

  /**
   * The loop of `Direction::run`: every command is applied, in order, to the
   * point the previous one left. The heading ends up turned by the sum of all
   * `start` and `turn` values, and without a `walk` the position stays.
   */
  function Follow(cs: seq<Command>, p: Point, trig: Trig): (q: Point)
    ensures q.angle == p.angle + Steering(cs)
    ensures StandsStill(cs) ==> SamePosition(q, p)
    decreases |cs|
  {
    if cs == [] then p
    else
      assert StandsStill(cs) ==> StandsStill(cs[1..]) by {
        assert forall k :: 0 <= k < |cs[1..]| ==> cs[1..][k] == cs[k + 1];
      }
      Follow(cs[1..], Apply(cs[0], p, trig), trig)
  }

  /** Running `a` then `b` is running `a + b`. */
  lemma {:induction false} FollowAppend(a: seq<Command>, b: seq<Command>, p: Point, trig: Trig)
    ensures Follow(a + b, p, trig) == Follow(b, Follow(a, p, trig), trig)
    decreases |a|
  {
    if a != [] {
      assert (a + b)[0] == a[0];
      assert (a + b)[1..] == a[1..] + b;
      FollowAppend(a[1..], b, Apply(a[0], p, trig), trig);
    } else {
      assert a + b == b;
    }
  }

  /**
   * No command leaves the point as it is, and a single command is exactly one
   * `Command::run`; with `FollowAppend` this fixes `Follow` on every sequence.
   */
  lemma {:induction false} FollowOne(c: Command, p: Point, trig: Trig)
    ensures Follow([], p, trig) == p
    ensures Follow([c], p, trig) == Apply(c, p, trig)
  {
    assert [c][1..] == [];
  }

  /**
   * `Direction::run`: the commands act on a copy of the start point, which
   * becomes the final point; the start point and the commands stay.
   */
  function Run(d: Direction, trig: Trig): (r: Direction)
    ensures r.start == d.start && r.commands == d.commands
    ensures r.final.Some?
    ensures r.final.value.angle == d.start.angle + Steering(d.commands)
    ensures StandsStill(d.commands) ==> SamePosition(r.final.value, d.start)
  {
    d.(final := Some(Follow(d.commands, d.start, trig)))
  }

  /**
   * A route with one more command ends where that command, applied by
   * `Command::run`, takes the end point of the shorter route.
   */
  lemma {:induction false} RunStep(d: Direction, c: Command, trig: Trig)
    ensures Run(d.(commands := d.commands + [c]), trig).final.value == Apply(c, Run(d, trig).final.value, trig)
  {
    FollowAppend(d.commands, [c], d.start, trig);
    FollowOne(c, Follow(d.commands, d.start, trig), trig);
  }

  /** The point a run of the route ends at. */
  function Destination(d: Direction, trig: Trig): Point {
    Follow(d.commands, d.start, trig)
  }

  /** Running a route again recomputes the same final point. */
  lemma {:induction false} RunTwice(d: Direction, trig: Trig)
    ensures Run(Run(d, trig), trig) == Run(d, trig)
  {
  }

  /** The tokens of a route line: two coordinates, then the command pairs. */
  function RouteTokens(latitude: string, longitude: string, ps: seq<Pair>): seq<string> {
    [latitude, longitude] + Flatten(ps)
  }

  /**
   * A route line written as `lat lon word value word value ...` with single
   * spaces reads back as exactly that start point and those commands.
   */
  lemma {:induction false} ParseRouteLine(latitude: string, longitude: string, ps: seq<Pair>, co: Coercion)
    requires IsNumberToken(latitude) && IsNumberToken(longitude)
    requires WellFormedPairs(ps)
    ensures Parse(Join(RouteTokens(latitude, longitude, ps)), co)
         == Direction(At(co.toFloat(latitude), co.toFloat(longitude)), ToCommands(ps, co), None)
  {
    var ts := RouteTokens(latitude, longitude, ps);
    FlattenNoSpace(ps);
    assert forall i :: 0 <= i < |ts| ==> NoSpace(ts[i]) by {
      NumberNoSpace(latitude);
      NumberNoSpace(longitude);
      assert forall i :: 2 <= i < |ts| ==> ts[i] == Flatten(ps)[i - 2];
    }
    SplitJoin(ts);
    assert Coordinates(ts) == Some(0);
    CommandPairsOfFlatten([latitude, longitude], ps);
    if |ts| > 2 {
      assert ts[2] == ps[0].word;
      assert !IsNumberToken(ts[2]);
      assert CommandPairs(ts, 1) == CommandPairs(ts, 2);
    }
  }

  lemma {:induction false} NumberNoSpace(t: string)
    requires IsNumberToken(t)
    ensures NoSpace(t)
  {
  }

  lemma {:induction false} FlattenNoSpace(ps: seq<Pair>)
    requires WellFormedPairs(ps)
    ensures forall i :: 0 <= i < |Flatten(ps)| ==> NoSpace(Flatten(ps)[i])
    decreases |ps|
  {
    if ps != [] {
      assert WellFormedPairs(ps[1..]) by {
        assert forall k :: 0 <= k < |ps[1..]| ==> ps[1..][k] == ps[k + 1];
      }
      FlattenNoSpace(ps[1..]);
      assert IsCommandWord(ps[0].word) && IsNumberToken(ps[0].number);
    }
  }

  /** The command pairs of the sample line are well formed. */
  lemma SamplePairs()
    ensures WellFormedPairs([Pair("start", "0"), Pair("walk", "10.0")])
  {
    var ps := [Pair("start", "0"), Pair("walk", "10.0")];
    assert IsCommandWord(ps[0].word) by {
      assert !IsNumberChar("start"[0]);
    }
    assert IsCommandWord(ps[1].word) by {
      assert !IsNumberChar("walk"[0]);
    }
  }

  /** The joined command tokens of the sample line, one join at a time. */
  lemma SampleJoinCommands()
    ensures Join(["start", "0", "walk", "10.0"]) == "start 0 walk 10.0"
  {
    var ts := ["start", "0", "walk", "10.0"];
    assert Join(ts[2..]) == "walk 10.0" by {
      assert ts[2..][1..] == ["10.0"];
      assert "walk" + " " + "10.0" == "walk 10.0";
    }
    assert Join(ts[1..]) == "0 walk 10.0" by {
      assert ts[1..][1..] == ts[2..];
      assert "0" + " " + "walk 10.0" == "0 walk 10.0";
    }
    assert "start" + " " + "0 walk 10.0" == "start 0 walk 10.0";
  }

  /** The joined tokens of the sample line after its first: the longitude, then the commands. */
  lemma SampleJoinTail()
    ensures Join(["34.30", "start", "0", "walk", "10.0"]) == "34.30 start 0 walk 10.0"
  {
    var ts := ["34.30", "start", "0", "walk", "10.0"];
    SampleJoinCommands();
    assert ts[1..] == ["start", "0", "walk", "10.0"];
    assert "34.30" + " " + "start 0 walk 10.0" == "34.30 start 0 walk 10.0";
  }

  /** The joined tokens of the sample line: the coordinates in front of the joined commands. */
  lemma SampleJoin()
    ensures Join(["87.342", "34.30", "start", "0", "walk", "10.0"]) == "87.342 34.30 start 0 walk 10.0"
  {
    var ts := ["87.342", "34.30", "start", "0", "walk", "10.0"];
    SampleJoinTail();
    assert ts[1..] == ["34.30", "start", "0", "walk", "10.0"];
    assert "87.342" + " " + "34.30 start 0 walk 10.0" == "87.342 34.30 start 0 walk 10.0";
  }

  /** The sample line is the joined tokens of one coordinate pair and two command pairs. */
  lemma SampleLine()
    ensures Join(RouteTokens("87.342", "34.30", [Pair("start", "0"), Pair("walk", "10.0")]))
         == "87.342 34.30 start 0 walk 10.0"
  {
    var ps := [Pair("start", "0"), Pair("walk", "10.0")];
    assert Flatten(ps) == ["start", "0", "walk", "10.0"] by {
      assert ps[1..] == [Pair("walk", "10.0")];
      assert ps[1..][1..] == [];
    }
    assert RouteTokens("87.342", "34.30", ps) == ["87.342", "34.30", "start", "0", "walk", "10.0"];
    SampleJoin();
  }

  /** The first line of the sample input parses to its coordinates and its two commands. */
  lemma SampleParse(co: Coercion)
    requires co.toFloat("87.342") == 87.342 && co.toFloat("34.30") == 34.30
    requires co.toFloat("0") == 0.0 && co.toFloat("10.0") == 10.0
    ensures Parse("87.342 34.30 start 0 walk 10.0", co)
         == Direction(At(87.342, 34.30), [Command(START, 0.0), Command(WALK, 10.0)], None)
  {
    var ps := [Pair("start", "0"), Pair("walk", "10.0")];
    var line := Join(RouteTokens("87.342", "34.30", ps));
    SamplePairs();
    ParseRouteLine("87.342", "34.30", ps, co);
    assert ToCommands(ps, co) == [Command(START, 0.0), Command(WALK, 10.0)];
    SampleLine();
    assert line == "87.342 34.30 start 0 walk 10.0";
  }

  /**
   * The first route of the sample input: from (87.342, 34.30), `start 0`
   * keeps the heading at 0 and `walk 10.0` moves 10 along it, to (97.342, 34.30).
   */
  lemma SampleRoute(co: Coercion, trig: Trig)
    requires co.toFloat("87.342") == 87.342 && co.toFloat("34.30") == 34.30
    requires co.toFloat("0") == 0.0 && co.toFloat("10.0") == 10.0
    requires trig.cos(trig.deg2rad(0.0)) == 1.0 && trig.sin(trig.deg2rad(0.0)) == 0.0
    ensures Run(Parse("87.342 34.30 start 0 walk 10.0", co), trig).final == Some(Point(97.342, 34.30, 0.0))
  {
    SampleParse(co);
    var cs := [Command(START, 0.0), Command(WALK, 10.0)];
    var p0 := At(87.342, 34.30);
    var p1 := Apply(cs[0], p0, trig);
    assert p1 == p0;
    assert Follow(cs, p0, trig) == Follow(cs[1..], p1, trig);
    assert cs[1..][1..] == [];
  }
}
