/**
 * One instruction of a route (`Command` in index.php): a word and a number.
 * The word is kept as written; dispatch compares it with three constants and
 * an unknown word is accepted and does nothing.
 */
module Commands {
  import opened Geometry

  const START: string := "start"
  const WALK: string := "walk"
  const TURN: string := "turn"

  datatype Command = Command(name: string, value: real)

  /** True for the two words that change the heading. */
  predicate Steers(c: Command) {
    c.name == START || c.name == TURN
  }

  /**
   * `Command::run`: `start` and `turn` add their value to the heading, `walk`
   * moves along the heading, any other word leaves the point as it is.
   */
  function Apply(c: Command, p: Point, trig: Trig): (q: Point)
    ensures q.angle == if Steers(c) then p.angle + c.value else p.angle
    ensures c.name != WALK ==> SamePosition(q, p)
    ensures c.name == WALK ==> q == Move(p, c.value, trig)
    ensures c.name !in {START, WALK, TURN} ==> q == p
  {
    if c.name == START then Turn(p, c.value)
    else if c.name == WALK then Move(p, c.value, trig)
    else if c.name == TURN then Turn(p, c.value)
    else p
  }

  /** `start v` is indistinguishable from `turn v`. */
  lemma StartIsTurn(v: real, p: Point, trig: Trig)
    ensures Apply(Command(START, v), p, trig) == Apply(Command(TURN, v), p, trig)
  {
  }

  /** Turning by `a` and then by `b` is one turn by `a + b`. */
  lemma TurnsAdd(a: real, b: real, p: Point, trig: Trig)
    ensures Apply(Command(TURN, b), Apply(Command(TURN, a), p, trig), trig)
         == Apply(Command(TURN, a + b), p, trig)
  {
  }

  /** Walking zero keeps the position (and the heading), whatever the trigonometry. */
  lemma WalkZero(p: Point, trig: Trig)
    ensures Apply(Command(WALK, 0.0), p, trig) == p
  {
  }
}
