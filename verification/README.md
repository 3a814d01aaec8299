# directions-check, modelled in Dafny

The repository is a single PHP script, `index.php`. It reads test cases of
"directions": a line holding a pack id, then route lines of the form
`lat lon start a walk d turn b ...`, with a line `0` ending the input. It
runs every route from its start point and prints one report line per pack:
the average final point and the greatest distance from that average to a
route's final point.

This project models that script with pure functions over immutable
datatypes:

- `geometry.dfy` (module `Geometry`): points with a cumulative heading, the
  turn and walk primitives, and the Euclidean distance.
- `commands.dfy` (module `Commands`): `Command::run`, the `start`, `walk` and
  `turn` commands acting on a point.
- `lexing.dfy` (module `Lexing`): `trim`, and the two route regexes, read
  over the whitespace-separated tokens of a line.
- `directions.dfy` (module `Directions`): `Direction::__construct`, which
  parses a route line, and `Direction::run`.
- `packs.dfy` (module `Packs`): `DirectionsPack::run`,
  `getAverageFinalPoint` and `getFarestDirectionDistance`.
- `collection.dfy` (module `Collection`): `PacksCollection::__construct`,
  which reads the lines into an ordered, id-keyed collection of packs, and
  `PacksCollection::run`, which builds the report.
- `wrappers.dfy` (module `Wrappers`): `Option` and `Result`.

PHP floats are modelled as `real`. The functions PHP supplies are
parameters, so every fact proved holds whatever they compute:

- `deg2rad`, `cos` and `sin` are the `Trig` parameter.
- `sqrt` is a parameter of `Geometry.Distance`. The statistics take any
  distance function. `Geometry.EuclideanSeparates` shows that the
  script's formula meets the one hypothesis they need (`Separates`).
- `is_numeric`, `(int)` and `(float)` on strings are the `Coercion`
  parameter.

A pack without routes makes `getAverageFinalPoint` divide by zero, which
ends the PHP run. The model returns `Failure(id)` for it.

The PHP array of packs keyed by id is a sequence with distinct ids. Writing
an existing key replaces that pack in its place. Writing a new key appends.

Three behaviours of the code that a reader of the script's purpose might not
expect are modelled as written:

- A blank line inside a pack is not skipped. It trims to `""`, which is
  not numeric, so it becomes a route. The coordinates regex fails on it,
  and the null captures coerce to 0, so the route starts at (0, 0) with no
  commands (`Directions.BlankLine`, `Directions.ParseStart`).
- An unknown command word is captured by the commands regex and then
  ignored by `Command::run`.
- A pack with no routes is not reported with zeros: the script fails on it.

## Model

| member | source | states |
|---|---|---|
| Geometry.SquaredDistanceZero | index.php:174-177 | the squared Euclidean distance between final point and average is never negative and is zero exactly when latitude and longitude both agree; the heading is ignored |
| Geometry.Distance | index.php:174-177 | the distance is the same measured either way round; with a square root that is non-negative and zero only at zero, it is non-negative and zero exactly when latitude and longitude agree |
| Geometry.EuclideanSeparates | index.php:174-177 | the distance formula, given a square root that is non-negative and zero only at zero, is a distance in the sense the statistics need: non-negative, and zero exactly between points at the same position |
| Commands.Apply | index.php:57-69 | `start` and `turn` add their value to the heading and leave the position; `walk` moves `value` along the heading by cos/sin of the heading in radians and keeps the heading; any other word leaves the point unchanged |
| Commands.StartIsTurn | index.php:59-67 | `start v` and `turn v` have the same effect on every point |
| Commands.TurnsAdd | index.php:66-67 | turning by a and then by b is one turn by a + b, since the heading is cumulative and never normalised |
| Commands.WalkZero | index.php:62-64 | walking 0 leaves the point unchanged, whatever the trigonometry |
| Lexing.TrimLeft | index.php:198 | the result is a suffix of the line, everything dropped is a trim character, and the result does not start with one |
| Lexing.TrimRight | index.php:198 | the result is a prefix of the line, everything dropped is a trim character, and the result does not end with one |
| Lexing.Trim | index.php:198 | the trimmed line is no longer than the line and neither starts nor ends with a trim character |
| Lexing.TrimCutsEnds | index.php:198 | the trimmed line is a slice `s[a..b]` of the line, with only trim characters before `a` and from `b` on |
| Lexing.TrimIdempotent | index.php:198 | trimming a trimmed line changes nothing |
| Lexing.Split | index.php:90-91 | a line always has at least one token; the route regexes allow exactly one whitespace character between fields |
| Lexing.SplitWord | index.php:90-91 | a line without whitespace is one token |
| Lexing.SplitAt | index.php:90-91 | any single `\s` character (space, tab, LF, vertical tab, form feed, CR) ends the token before it, and the tokens after it are those of the rest of the line |
| Lexing.SplitHasNoSpace | index.php:90-91 | no token contains a whitespace character |
| Lexing.JoinSplit | index.php:90-91 | a line whose only whitespace characters are spaces, in runs of any length, is rebuilt exactly by joining its tokens with single spaces |
| Lexing.SplitJoin | index.php:90-91 | tokens without whitespace, joined with spaces, split back into the same tokens |
| Lexing.Coordinates | index.php:90-96 | the coordinates found are at a valid pair of adjacent token positions |
| Lexing.CoordinatesFirstPair | index.php:90-96 | the coordinates are the first two adjacent number tokens of the line; when nothing is found, no two adjacent tokens are numbers |
| Lexing.CommandPairsOfFlatten | index.php:91-94 | after the coordinates, well-formed `word number` pairs written one after another are captured exactly, in order, none lost and none invented |
| Lexing.CommandPairs | index.php:91-94 | every captured pair holds a command word token and a number token |
| Lexing.CommandPairsAt | index.php:91-94 | the captured pairs are, in scan order, the token at each position `PairStarts` gives and the token right after it |
| Lexing.PairStarts | index.php:91-94 | capture positions lie after the first token, each a word token followed by a number token, strictly increasing and at least two apart, so no token belongs to two pairs |
| Lexing.PairStartsComplete | index.php:91-94 | the scan misses no word token followed by a number token, except one whose word is the number of a captured pair |
| Directions.ToCommands | index.php:98-100 | one command per captured pair, in order, with the captured word and the float value of the captured number |
| Directions.Parse | index.php:88-101 | a parsed route has no final point yet, its start heading is 0, and it has at most half as many commands as the line has tokens |
| Directions.ParseStart | index.php:90-96 | the start point is the float values of the first two adjacent number tokens, and (0, 0) when the line has no two adjacent number tokens, because the failed match leaves null captures |
| Directions.BlankLine | index.php:90-96 | a line that trims to nothing parses to a route at (0, 0) with no commands and no final point |
| Directions.PairsBound | index.php:91-94 | captured pairs never overlap, so there are at most half as many pairs as tokens scanned |
| Directions.ParseRouteLine | index.php:88-101 | a line written as `lat lon word value ...` with single spaces parses to exactly that start point (float of each coordinate, heading 0) and those commands in order |
| Directions.Follow | index.php:105-108 | applying the commands in order turns the heading by the sum of the `start` and `turn` values, and without a `walk` the position stays where it started |
| Directions.FollowAppend | index.php:106-108 | running commands a then b is running a followed by b from the point a left |
| Directions.FollowOne | index.php:105-108 | no command leaves the point unchanged, and one command moves it exactly as `Command::run` does, so with `FollowAppend` every command, `walk` included, acts in turn |
| Directions.Run | index.php:103-111 | running a route sets its final point and leaves its start point and commands as they were; the final heading is the start heading plus all turns; without `walk` the final position is the start position |
| Directions.RunStep | index.php:103-111 | a route with one more command ends where `Command::run` of that command takes the end point of the shorter route |
| Directions.RunTwice | index.php:103-111 | running a route again gives the same route, because each run starts from a copy of the unchanged start point |
| Directions.SampleParse | index.php:234 | the first line of the sample input parses to start point (87.342, 34.30) and the commands `start 0` and `walk 10.0`, in that order |
| Directions.SampleRoute | index.php:234 | the first route of the sample input, `87.342 34.30 start 0 walk 10.0`, ends at (97.342, 34.30) with heading 0 when cos(0) = 1 and sin(0) = 0 |
| Packs.RunPack | index.php:138-143 | running a pack runs each of its routes, in order; the id and the number of routes are unchanged |
| Packs.Finals | index.php:152-157 | the final points that are set, no more of them than there are routes, and none exactly when no final point is set |
| Packs.FinalsAllRun | index.php:152-157 | once every route has run, the final points are all of them, route by route in order |
| Packs.FinalsOne | index.php:152-157 | a single route contributes its final point when it is set, and nothing when it is null |
| Packs.FinalsAppend | index.php:152-157 | the final points of two runs of routes are those of the first followed by those of the second, so unrun routes are skipped wherever they stand and the set points keep route order |
| Packs.FinalsFromRoutes | index.php:152-157 | each collected final point is the final point of some route |
| Packs.Mean | index.php:159-162 | the number of points times each coordinate of the mean is the sum of that coordinate over the points; the heading is 0 |
| Packs.Average | index.php:148-163 | the average exists exactly when some route has a final point; it is then the mean of the set final points: their count times its latitude (longitude) is the sum of their latitudes (longitudes); it has heading 0 |
| Packs.SumOfCopies | index.php:159-160 | the sums of n points at one position are n times its latitude and longitude |
| Packs.MeanOfCopies | index.php:159-162 | the mean of points that all sit at one position is that position, with heading 0 |
| Packs.AverageOfCopies | index.php:148-163 | when every set final point is at one position, the average point is that position |
| Packs.AverageOfRunPack | index.php:138-163 | after running a pack, its average exists exactly when the pack has at least one route |
| Packs.FarthestFrom | index.php:172-183 | the running maximum is absent only when nothing was seen, never falls below the value carried in, bounds every route's distance from above, and is the value carried in or one of those distances |
| Packs.Farthest | index.php:170-184 | null exactly for a pack without routes; otherwise an upper bound on every route's distance from the point that is also attained by some route |
| Packs.FarthestZero | index.php:170-184 | with a separating distance, the farthest distance is non-negative, and it is 0 exactly when every route ends at the reference position |
| Collection.Position | index.php:205 | an id is found exactly when it is a key of the collection, and where it is found the pack has that id |
| Collection.Install | index.php:203-205 | writing a pack under its id keeps ids distinct; an existing key keeps the id order and replaces only that pack in place; a new key appends the pack at the end |
| Collection.AddRoutes | index.php:208 | appending routes to the pack with an id keeps ids and their order, extends only that pack's routes, at the end and in order, and changes nothing else |
| Collection.AddRoutesTwice | index.php:208 | appending routes in two batches equals appending them in one |
| Collection.BuildFrom | index.php:192-211 | reading lines keeps the collection's ids distinct and never removes a pack |
| Collection.Build | index.php:192-211 | the collection read from any input has distinct ids |
| Collection.StopsAtZero | index.php:200-201 | from any state, a line that trims to `0` ends the reading: whatever follows it contributes nothing |
| Collection.BuildStopsAtZero | index.php:200-201 | the collection read from an input equals the one read from the part before its first `0` line |
| Collection.DropsOrphanRoutes | index.php:207-209 | route lines that come before any pack id line are dropped |
| Collection.ParseAll | index.php:208 | one route per line, in line order, each parsed from its trimmed line |
| Collection.AddsRoute | index.php:207-208 | once a pack is open, a non-numeric line adds exactly one route, parsed from the trimmed line, to that pack |
| Collection.RoutesInLineOrder | index.php:207-208 | consecutive route lines become routes of the current pack, in line order, appended after its existing routes |
| Collection.SinglePack | index.php:197-209 | an id line followed by route lines reads as one pack with that integer id holding those routes in order |
| Collection.OpensEmptyPack | index.php:203-205 | a numeric line writes a new empty pack under its integer value |
| Collection.ReopenEmptiesInPlace | index.php:203-205 | an id line repeating an existing id keeps the id order and empties that pack where it stands; every other pack is unchanged |
| Collection.BuildFromAppend | index.php:196-210 | before any `0` line, reading two runs of lines one after the other is reading the second from where the first left off, with the pack opened last as the current one, and that pack is a key |
| Collection.LatestPackGetsRoutes | index.php:203-208 | whatever lines came before, provided none of them trims to `0`, an id line followed by route lines empties or adds the pack with that id and puts exactly those routes into it, in order; no other pack receives them |
| Collection.IdsFrom | index.php:197-210 | from any state, the ids after reading are the ids before followed by the newly opened ids, each only the first time it appears |
| Collection.BuildIds | index.php:197-210 | packs come out in the order their ids first appear in the input, up to the first `0` line, each id once |
| Collection.Summarise | index.php:219-226 | a pack fails with its id exactly when it has no routes; otherwise the average is the average of the pack's final points after running it, with heading 0, and the farthest value bounds every route's distance from the average and is attained by one route |
| Collection.AgreeingRoutes | index.php:219-226 | when all routes of a pack end at one position and the distance separates points, the report is that position with farthest distance 0 |
| Collection.Collect | index.php:216-229 | all results when every pack succeeds, else the failure of the first pack that fails, with every earlier one a success |
| Collection.Report | index.php:216-229 | a report exists exactly when every pack has a route; it has one summary per pack in collection order, each that pack's summary; otherwise the failure names the first pack without routes |
| Collection.FirstEmptyPack | index.php:216-229 | the per-pack summaries all succeed exactly when every pack has a route; otherwise the first failure is the id of a pack without routes, every pack before it having routes |

## Left out

- Rounding and formatting of the report line (`round` to 4 and 5 places and string concatenation) is not modelled. A `Summary` holds the exact average and farthest distance.
- The demo input, `explode(PHP_EOL, ...)`, `implode` and `echo` are not modelled. `Build` takes the input already cut into lines.
- `deg2rad`, `cos`, `sin` and `sqrt` are parameters; no property of floating-point rounding is stated.
- `is_numeric`, `(int)` and `(float)` on strings are parameters (`Coercion`); their PHP definitions (leading whitespace, exponents, hex) are not modelled.
- Integer and float widths are not modelled: ids are unbounded integers and coordinates are reals.
- Lexing.Coordinates: fields are whole whitespace-delimited tokens. The PHP coordinates regex is not anchored to token boundaries, so digits at the end of a longer token (`x12 34`) or at the start of one (`12 34y`) can also match; those lines are not modelled as PHP reads them.
- Lexing.CommandPairs: the value must be a whole number token. The PHP commands regex also accepts a value that is only the leading numeric part of a token (`walk 10m`).
- Lexing.Split: PCRE's `\s` is taken as space, tab, LF, vertical tab, form feed and CR; other Unicode spaces are not considered.
- Directions.Parse: its contract bounds the number of commands; what the commands are is stated by `Directions.ParseRouteLine` for lines in the canonical single-space form only.
- Collection.BuildFrom: its own contract states only distinct ids and growth. Which pack each line fills is stated by `Collection.BuildFromAppend`, `Collection.LatestPackGetsRoutes`, `Collection.RoutesInLineOrder` and `Collection.StopsAtZero`.
- The effect of PHP's division by zero is modelled as a `Failure` carrying the pack id: as PHP 8 throws `DivisionByZeroError` and ends the run. PHP 7's warning and `NAN` average, after which later packs are still reported, is not modelled.
- Packs.Farthest: a route whose final point was never set counts as ending at (0, 0), as PHP reads `null` properties. This cannot happen after `DirectionsPack::run`, and no lemma depends on it.
