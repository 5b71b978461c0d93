/**
 * Coordinates, headings and the two pure rules that move points around the
 * 27 x 27 board: the toroidal head step of a tick and the turn rule.
 */
module Geometry {

  /** Side of the square board (MATRIX_SIZE). */
  const N: int := 27

  /** An unsigned 8-bit coordinate; building a Point outside this range would overflow. */
  type Byte = b: int | 0 <= b < 256

  datatype Point = Point(x: Byte, y: Byte)

  predicate InGrid(p: Point) {
    p.x < N && p.y < N
  }

  datatype Direction = Up | Down | Left | Right

  function Reverse(d: Direction): Direction {
    match d
    case Up => Down
    case Down => Up
    case Left => Right
    case Right => Left
  }

  predicate Vertical(d: Direction) {
    d == Up || d == Down
  }

  /**
   * The heading after a key press: a turn is taken only at right angles to the
   * current heading; asking for the same heading or its reverse keeps it.
   */
  function Turn(current: Direction, requested: Direction): (r: Direction)
    ensures r == (if requested == current || requested == Reverse(current) then current else requested)
    ensures r != Reverse(current)
  {
    match current
    case Up => (match requested case Left => Left case Right => Right case _ => current)
    case Down => (match requested case Left => Left case Right => Right case _ => current)
    case Left => (match requested case Up => Up case Down => Down case _ => current)
    case Right => (match requested case Up => Up case Down => Down case _ => current)
  }

  /** Asking twice for the same heading has the effect of asking once. */
  lemma TurnIdempotent(current: Direction, requested: Direction)
    ensures Turn(Turn(current, requested), requested) == Turn(current, requested)
  {
  }

  /**
   * The cell the head moves to in one tick. UP decreases y and LEFT decreases
   * x; leaving one edge re-enters at the opposite edge.
   */
  function Step(head: Point, d: Direction): (p: Point)
    requires InGrid(head)
    ensures InGrid(p)
    ensures match d
      case Up => p == Point(head.x, (head.y + N - 1) % N)
      case Down => p == Point(head.x, (head.y + 1) % N)
      case Left => p == Point((head.x + N - 1) % N, head.y)
      case Right => p == Point((head.x + 1) % N, head.y)
    ensures (p.x == head.x) != (p.y == head.y)
  {
    match d
    case Up => if head.y == 0 then Point(head.x, N - 1) else Point(head.x, head.y - 1)
    case Down => if head.y == N - 1 then Point(head.x, 0) else Point(head.x, head.y + 1)
    case Left => if head.x == 0 then Point(N - 1, head.y) else Point(head.x - 1, head.y)
    case Right => if head.x == N - 1 then Point(0, head.y) else Point(head.x + 1, head.y)
  }

  /** Stepping back against the heading undoes a step, across the wrap too. */
  lemma StepReverse(p: Point, d: Direction)
    requires InGrid(p)
    ensures Step(Step(p, d), Reverse(d)) == p
  {
  }

  /** The four wrap cases at the edges. */
  lemma StepWrapsAtEdges(x: Byte, y: Byte)
    requires x < N && y < N
    ensures Step(Point(0, y), Left) == Point(N - 1, y)
    ensures Step(Point(N - 1, y), Right) == Point(0, y)
    ensures Step(Point(x, 0), Up) == Point(x, N - 1)
    ensures Step(Point(x, N - 1), Down) == Point(x, 0)
  {
  }

  /**
   * The offset eating adds to the tail, per heading, as plain integers: UP
   * subtracts one from y, DOWN adds one to y, LEFT adds one to x, RIGHT
   * subtracts one from x.
   */
  function GrowthDelta(d: Direction): (int, int) {
    match d
    case Up => (0, -1)
    case Down => (0, 1)
    case Left => (1, 0)
    case Right => (-1, 0)
  }

  /**
   * Whether growing at tail p while heading d stays on the board. The growth
   * offset is plain 8-bit arithmetic followed by an unchecked board index, so
   * leaving the board makes the program abort.
   */
  predicate CanGrow(p: Point, d: Direction): (ok: bool)
    ensures ok <==> InGrid(p) && 0 <= p.x + GrowthDelta(d).0 < N && 0 <= p.y + GrowthDelta(d).1 < N
  {
    InGrid(p) &&
    match d
    case Up => 0 < p.y
    case Down => p.y < N - 1
    case Left => p.x < N - 1
    case Right => 0 < p.x
  }

  /**
   * The segment appended behind tail p when food is eaten while heading d.
   * For LEFT and RIGHT it lies against the heading; for UP and DOWN it lies
   * along the heading (the offsets are as the program writes them).
   */
  function GrowthTail(p: Point, d: Direction): (t: Point)
    requires CanGrow(p, d)
    ensures InGrid(t)
    ensures t.x == p.x + GrowthDelta(d).0 && t.y == p.y + GrowthDelta(d).1
    ensures if Vertical(d) then t == Step(p, d) else t == Step(p, Reverse(d))
    ensures t != p
  {
    match d
    case Up => Point(p.x, p.y - 1)
    case Down => Point(p.x, p.y + 1)
    case Left => Point(p.x + 1, p.y)
    case Right => Point(p.x - 1, p.y)
  }
}
