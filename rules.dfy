/**
 * The game as a value: what each operation of the simulation does to the
 * whole state (board cells, snake body, counters and flags). The classes in
 * module Snake change their fields in place and are proved to produce
 * exactly these states.
 */
module Rules {
  import opened Wrappers
  import opened Geometry
  import opened Field

  /** The fields of a game; coordinates is the snake body, head first. */
  datatype GameState = GameState(
    cells: Grid,
    coordinates: seq<Point>,
    snakeSize: nat,
    direction: Direction,
    food: Point,
    isFinished: bool,
    isPaused: bool)

  /**
   * What every operation keeps: a 27 x 27 board, a size counter equal to the
   * body's length, at least two segments (eating asserts more than one) and
   * every segment on the board.
   */
  predicate Valid(s: GameState) {
    && IsGrid(s.cells)
    && s.snakeSize == |s.coordinates|
    && 1 < |s.coordinates|
    && forall i :: 0 <= i < |s.coordinates| ==> InGrid(s.coordinates[i])
  }

  /** The tail: the last segment of the body. */
  function Last(c: seq<Point>): (p: Point)
    requires |c| > 0
    ensures p in c
  {
    c[|c| - 1]
  }

  /**
   * A new game: empty board except food at (6,6), a three-segment snake
   * heading LEFT. The snake itself is not written to the board.
   */
  function Initial(): (s: GameState)
    ensures Valid(s)
    ensures s.snakeSize == |s.coordinates| == 3
    ensures s.coordinates == [Point(12, 12), Point(13, 12), Point(14, 12)]
    ensures s.cells[6][6] == Some(Food) && s.food == Point(6, 6)
    ensures forall r, c :: 0 <= r < N && 0 <= c < N && (r, c) != (6, 6) ==> s.cells[r][c] == None
    ensures !s.isFinished && !s.isPaused && s.direction == Left
  {
    GameState(
      Write(Blank(), 6, 6, Some(Food)),
      [Point(12, 12), Point(13, 12), Point(14, 12)],
      3, Left, Point(6, 6), false, false)
  }

  /** Pausing flips the paused flag and nothing else. */
  function Pause(s: GameState): (r: GameState)
    ensures r.isPaused == !s.isPaused
    ensures r.(isPaused := s.isPaused) == s
  {
    s.(isPaused := !s.isPaused)
  }

  lemma PauseTwiceIsIdentity(s: GameState)
    ensures Pause(Pause(s)) == s
  {
  }

  /**
   * A direction request: only the heading may change, never to the reverse
   * of the old heading, and a request for the same heading or its reverse
   * leaves it.
   */
  function ChangeDirection(s: GameState, requested: Direction): (r: GameState)
    ensures r.direction != Reverse(s.direction)
    ensures r.direction == requested || r.direction == s.direction
    ensures requested == s.direction || requested == Reverse(s.direction) ==> r == s
    ensures r.(direction := s.direction) == s
  {
    s.(direction := Turn(s.direction, requested))
  }

  /** Eating keeps the growth offset on the board (otherwise the program aborts). */
  predicate CanEat(s: GameState): (ok: bool)
    requires Valid(s)
    ensures ok <==>
      var t := Last(s.coordinates);
      0 <= t.x + GrowthDelta(s.direction).0 < N && 0 <= t.y + GrowthDelta(s.direction).1 < N
  {
    CanGrow(Last(s.coordinates), s.direction)
  }

  /** The segment eating appends. */
  function NewTail(s: GameState): (t: Point)
    requires Valid(s) && CanEat(s)
    ensures InGrid(t)
  {
    GrowthTail(Last(s.coordinates), s.direction)
  }

  /** The board once the new tail is marked, which is the board food is placed on. */
  function Grown(s: GameState): (g: Grid)
    requires Valid(s) && CanEat(s)
    ensures IsGrid(g) && g[NewTail(s).x][NewTail(s).y] == Some(Particle)
  {
    Write(s.cells, NewTail(s).x, NewTail(s).y, Some(Particle))
  }

  /**
   * The growth offsets depend on the heading only, not on where the tail
   * points. Heading UP or DOWN with the segment before the tail one step from
   * it along the heading, the grown segment lands on that segment.
   */
  lemma VerticalGrowthOverlapsBody(s: GameState)
    requires Valid(s) && CanEat(s) && Vertical(s.direction)
    requires s.coordinates[|s.coordinates| - 2] == Step(Last(s.coordinates), s.direction)
    ensures NewTail(s) == s.coordinates[|s.coordinates| - 2]
    ensures NewTail(s) in s.coordinates
  {
  }

  /** Heading UP or DOWN with the segment before the tail one step against the heading, the grown segment lies behind the tail. */
  lemma VerticalGrowthExtendsTail(s: GameState)
    requires Valid(s) && CanEat(s) && Vertical(s.direction)
    requires s.coordinates[|s.coordinates| - 2] == Step(Last(s.coordinates), Reverse(s.direction))
    ensures NewTail(s) != s.coordinates[|s.coordinates| - 2]
    ensures Step(NewTail(s), Reverse(s.direction)) == Last(s.coordinates)
  {
    StepReverse(Last(s.coordinates), s.direction);
  }

  /** Heading LEFT or RIGHT with the segment before the tail one step along the heading, the grown segment lies behind the tail. */
  lemma HorizontalGrowthExtendsTail(s: GameState)
    requires Valid(s) && CanEat(s) && !Vertical(s.direction)
    requires s.coordinates[|s.coordinates| - 2] == Step(Last(s.coordinates), s.direction)
    ensures NewTail(s) != s.coordinates[|s.coordinates| - 2]
    ensures Step(NewTail(s), s.direction) == Last(s.coordinates)
  {
    StepReverse(Last(s.coordinates), Reverse(s.direction));
  }

  /** Heading LEFT or RIGHT with the segment before the tail one step against the heading, the grown segment lands on that segment. */
  lemma HorizontalGrowthOverlapsBody(s: GameState)
    requires Valid(s) && CanEat(s) && !Vertical(s.direction)
    requires s.coordinates[|s.coordinates| - 2] == Step(Last(s.coordinates), Reverse(s.direction))
    ensures NewTail(s) == s.coordinates[|s.coordinates| - 2]
    ensures NewTail(s) in s.coordinates
  {
  }

  /** The first half of eating: the new tail is marked and appended, the counter goes up. */
  function Grow(s: GameState): (r: GameState)
    requires Valid(s) && CanEat(s)
    ensures Valid(r)
    ensures r.coordinates == s.coordinates + [NewTail(s)] && r.snakeSize == s.snakeSize + 1
    ensures r.cells == Grown(s)
    ensures r.(cells := s.cells, coordinates := s.coordinates, snakeSize := s.snakeSize) == s
  {
    s.(cells := Grown(s),
       coordinates := s.coordinates + [NewTail(s)],
       snakeSize := s.snakeSize + 1)
  }

  /** Food placement on its own (the game-level generate_food). */
  function GenerateFood(s: GameState, pick: nat -> nat): (r: GameState)
    requires Valid(s) && IsChooser(pick)
    ensures Valid(r)
    ensures r.(cells := s.cells, food := s.food, isFinished := s.isFinished) == s
    ensures s.isFinished ==> r.isFinished
  {
    var spot := ChosenSpot(s.cells, pick);
    s.(cells := PlaceFood(s.cells, pick),
       food := if spot.Some? then spot.value else s.food,
       isFinished := s.isFinished || spot.None?)
  }

  /** Eating: a segment appended behind the tail, then food placed on the grown board. */
  function EatFood(s: GameState, pick: nat -> nat): (r: GameState)
    requires Valid(s) && CanEat(s) && IsChooser(pick)
    ensures Valid(r)
  {
    GenerateFood(Grow(s), pick)
  }

  /**
   * What eating does: one segment appended at the end, earlier segments
   * kept, the counter up by one, the new tail marked; then food is placed on
   * an empty cell, never the new tail, or the game finishes when no cell is
   * empty.
   */
  lemma EatFoodEffect(s: GameState, pick: nat -> nat)
    requires Valid(s) && CanEat(s) && IsChooser(pick)
    ensures var r := EatFood(s, pick);
      && |r.coordinates| == |s.coordinates| + 1
      && r.coordinates[..|s.coordinates|] == s.coordinates
      && Last(r.coordinates) == NewTail(s)
      && r.snakeSize == s.snakeSize + 1
      && r.direction == s.direction && r.isPaused == s.isPaused
      && r.cells[NewTail(s).x][NewTail(s).y] == Some(Particle)
      && (Full(Grown(s)) ==> r.isFinished && r.food == s.food && r.cells == Grown(s))
      && (!Full(Grown(s)) ==>
          && r.isFinished == s.isFinished
          && InGrid(r.food) && r.food != NewTail(s)
          && Grown(s)[r.food.x][r.food.y] == None
          && r.cells == Write(Grown(s), r.food.x, r.food.y, Some(Food)))
  {
    var r := EatFood(s, pick);
    assert r.coordinates[..|s.coordinates|] == s.coordinates;
    ChosenSpotNoneIffFull(Grown(s), pick);
  }

  /**
   * Food moves to a cell that was empty and now holds food, or the game
   * finishes when no cell is empty; the snake is untouched.
   */
  lemma GenerateFoodEffect(s: GameState, pick: nat -> nat)
    requires Valid(s) && IsChooser(pick)
    ensures var r := GenerateFood(s, pick);
      && r.coordinates == s.coordinates && r.snakeSize == s.snakeSize
      && r.direction == s.direction && r.isPaused == s.isPaused
      && (Full(s.cells) ==> r == s.(isFinished := true))
      && (!Full(s.cells) ==>
          && r.isFinished == s.isFinished
          && InGrid(r.food) && s.cells[r.food.x][r.food.y] == None
          && r.cells == Write(s.cells, r.food.x, r.food.y, Some(Food)))
  {
    ChosenSpotNoneIffFull(s.cells, pick);
  }

  /** Moving the body: the tail segment is dropped and the new head put first. */
  function Advance(c: seq<Point>, head: Point): (r: seq<Point>)
    requires |c| > 0
    ensures |r| == |c| && r[0] == head
    ensures forall i :: 1 <= i < |r| ==> r[i] == c[i - 1]
  {
    [head] + c[..|c| - 1]
  }

  function NextHead(s: GameState): (p: Point)
    requires Valid(s)
    ensures InGrid(p)
  {
    Step(s.coordinates[0], s.direction)
  }

  /**
   * The cell a tick clears: the last segment after the move, which is the
   * segment before the old tail, not the tail that was dropped.
   */
  function Vacated(s: GameState): (p: Point)
    requires Valid(s)
    ensures InGrid(p) && p in s.coordinates[..|s.coordinates| - 1]
    ensures p in Advance(s.coordinates, NextHead(s))[1..]
  {
    s.coordinates[|s.coordinates| - 2]
  }

  /** The state after the body moved and the last segment's cell was cleared. */
  function Moved(s: GameState): (r: GameState)
    requires Valid(s)
    ensures Valid(r)
    ensures r.coordinates == Advance(s.coordinates, NextHead(s))
    ensures Last(r.coordinates) == Vacated(s)
    ensures r.cells == Write(s.cells, Vacated(s).x, Vacated(s).y, None)
    ensures r.(coordinates := s.coordinates, cells := s.cells) == s
  {
    var c := Advance(s.coordinates, NextHead(s));
    var last := c[|c| - 1];
    s.(coordinates := c, cells := Write(s.cells, last.x, last.y, None))
  }

  /** What the tick finds at the new head once the last segment's cell is cleared. */
  function Target(s: GameState): (t: Cell)
    requires Valid(s)
    ensures NextHead(s) == Vacated(s) ==> t == None
    ensures NextHead(s) != Vacated(s) ==> t == s.cells[NextHead(s).x][NextHead(s).y]
  {
    Moved(s).cells[NextHead(s).x][NextHead(s).y]
  }

  /**
   * Read against the board before the tick: a head landing on a segment
   * finishes the game and a head landing on food grows the snake, unless the
   * head lands on the cell the tick clears.
   */
  lemma TickCollisionAndGrowth(s: GameState, pick: nat -> nat)
    requires Valid(s) && TickSafe(s) && IsChooser(pick) && NextHead(s) != Vacated(s)
    ensures s.cells[NextHead(s).x][NextHead(s).y] == Some(Particle) ==> Tick(s, pick).isFinished
    ensures s.cells[NextHead(s).x][NextHead(s).y] == Some(Food) ==>
      |Tick(s, pick).coordinates| == |s.coordinates| + 1
    ensures s.cells[NextHead(s).x][NextHead(s).y] == None ==>
      |Tick(s, pick).coordinates| == |s.coordinates|
  {
  }

  /** A tick does not abort: if it eats, the growth offset stays on the board. */
  predicate TickSafe(s: GameState): (ok: bool)
    requires Valid(s)
    ensures ok <==> (Target(s) == Some(Food) ==> CanGrow(Vacated(s), s.direction))
  {
    Target(s) == Some(Food) ==> CanEat(Moved(s))
  }

  /**
   * One tick: the head steps (wrapping at the edges), the body follows, food
   * at the target makes the snake grow by one, a segment at the target
   * finishes the game, and the new head's cell is marked as a segment.
   */
  function Tick(s: GameState, pick: nat -> nat): (r: GameState)
    requires Valid(s) && TickSafe(s) && IsChooser(pick)
    ensures Valid(r)
    ensures r.coordinates[0] == NextHead(s)
    ensures r.cells[NextHead(s).x][NextHead(s).y] == Some(Particle)
    ensures |r.coordinates| == |s.coordinates| + (if Target(s) == Some(Food) then 1 else 0)
    ensures forall i :: 1 <= i < |s.coordinates| ==> r.coordinates[i] == s.coordinates[i - 1]
    ensures Target(s) == Some(Particle) ==> r.isFinished
    ensures Target(s) == None ==> r.isFinished == s.isFinished
    ensures Target(s) != Some(Food) ==>
              && r.food == s.food
              && r.cells == Write(Write(s.cells, Vacated(s).x, Vacated(s).y, None),
                                  NextHead(s).x, NextHead(s).y, Some(Particle))
    ensures s.isFinished ==> r.isFinished
    ensures r.direction == s.direction && r.isPaused == s.isPaused
  {
    var m := Moved(s);
    var head := NextHead(s);
    var after :=
      match Target(s)
      case Some(Food) => EatFood(m, pick)
      case Some(Particle) => m.(isFinished := true)
      case None => m;
    after.(cells := Write(after.cells, head.x, head.y, Some(Particle)))
  }

  /**
   * After a plain move the board no longer marks the snake's own last
   * segment: the cell the tick clears is still part of the body.
   */
  lemma PlainTickUnmarksLastSegment(s: GameState, pick: nat -> nat)
    requires Valid(s) && IsChooser(pick) && Target(s) == None && NextHead(s) != Vacated(s)
    ensures TickSafe(s)
    ensures var r := Tick(s, pick);
      && Last(r.coordinates) == Vacated(s)
      && Last(r.coordinates) in r.coordinates
      && r.cells[Vacated(s).x][Vacated(s).y] == None
  {
  }

  /**
   * The first tick of a new game: head (11,12), the old tail (14,12) dropped.
   * The cell it clears is (13,12), which is still part of the body.
   */
  lemma FirstTick(pick: nat -> nat)
    requires IsChooser(pick)
    ensures TickSafe(Initial())
    ensures Tick(Initial(), pick).coordinates == [Point(11, 12), Point(12, 12), Point(13, 12)]
    ensures Tick(Initial(), pick).cells[13][12] == None
    ensures !Tick(Initial(), pick).isFinished
  {
    var s := Initial();
    assert NextHead(s) == Point(11, 12);
    assert Target(s) == None;
    assert Advance(s.coordinates, Point(11, 12)) == [Point(11, 12), Point(12, 12), Point(13, 12)];
  }

  /**
   * Two key presses between ticks can reverse the heading: the guard in
   * ChangeDirection compares each request with the current heading only,
   * so a quarter turn followed by another quarter turn is accepted.
   */
  lemma TwoTurnsReverse(s: GameState, d: Direction)
    requires Vertical(d) != Vertical(s.direction)
    ensures ChangeDirection(ChangeDirection(s, d), Reverse(s.direction)).direction == Reverse(s.direction)
  {
  }

  /**
   * From a new game, Up then Right before the first tick turns the head back
   * onto the neck (13,12): the cell is cleared by the move itself, so the tick
   * neither ends the game nor grows, and (13,12) is in the body twice.
   */
  lemma DoubleTurnRunsIntoNeck(pick: nat -> nat)
    requires IsChooser(pick)
    ensures var s := ChangeDirection(ChangeDirection(Initial(), Up), Right);
      && s.direction == Right
      && NextHead(s) == Vacated(s) == Point(13, 12)
      && TickSafe(s)
      && Tick(s, pick).coordinates == [Point(13, 12), Point(12, 12), Point(13, 12)]
      && !Tick(s, pick).isFinished
  {
    var s := ChangeDirection(ChangeDirection(Initial(), Up), Right);
    TwoTurnsReverse(Initial(), Up);
    assert NextHead(s) == Point(13, 12);
    assert Target(s) == None;
    assert Advance(s.coordinates, Point(13, 12)) == [Point(13, 12), Point(12, 12), Point(13, 12)];
  }

  // ---- The main loop ----

  /** What a key press asks for; the key-to-command mapping belongs to the window layer. */
  datatype Command = Steer(heading: Direction) | TogglePause | OtherKey

  /** One event of the window's event loop. */
  datatype Event = Press(command: Command) | Render | Update | Idle

  /** How one pass of the loop ends: on to the next event, loop left, or abort. */
  datatype Outcome = Continue | Exit | Crash

  /** The key handling of one pass. */
  function Input(s: GameState, e: Event): (r: GameState)
    requires Valid(s)
    ensures Valid(r)
    ensures r.cells == s.cells && r.coordinates == s.coordinates && r.food == s.food
    ensures r.isFinished == s.isFinished
  {
    match e
    case Press(Steer(d)) => ChangeDirection(s, d)
    case Press(TogglePause) => Pause(s)
    case _ => s
  }

  /**
   * One pass of the main loop: a finished game leaves the loop before the
   * event is looked at; keys are handled; a paused game skips the rest; an
   * update event runs one tick.
   */
  function Iteration(s: GameState, e: Event, pick: nat -> nat): (r: (GameState, Outcome))
    requires Valid(s) && IsChooser(pick)
    ensures Valid(r.0)
  {
    if s.isFinished then (s, Exit)
    else
      var t := Input(s, e);
      if t.isPaused then (t, Continue)
      else if e.Update? then
        if TickSafe(t) then (Tick(t, pick), Continue) else (Moved(t), Crash)
      else (t, Continue)
  }

  /** Once finished, the loop is left at the next event with nothing changed. */
  lemma FinishedStopsLoop(s: GameState, e: Event, pick: nat -> nat)
    requires Valid(s) && IsChooser(pick) && s.isFinished
    ensures Iteration(s, e, pick) == (s, Exit)
  {
  }

  /** While paused (after the key of this pass), neither the snake nor the board changes. */
  lemma PausedSkipsTick(s: GameState, e: Event, pick: nat -> nat)
    requires Valid(s) && IsChooser(pick) && !s.isFinished && Input(s, e).isPaused
    ensures Iteration(s, e, pick).1 == Continue
    ensures Iteration(s, e, pick).0.coordinates == s.coordinates
    ensures Iteration(s, e, pick).0.cells == s.cells
  {
  }

  /**
   * The random generator's draws, one per pass of the loop: the generator
   * keeps its own state, so each pass may choose differently.
   */
  ghost predicate Choosers(draws: seq<nat -> nat>) {
    forall i :: 0 <= i < |draws| ==> IsChooser(draws[i])
  }

  /** The loop over a sequence of events, until it is left or aborts; pass i draws with draws[i]. */
  function Run(s: GameState, events: seq<Event>, draws: seq<nat -> nat>): (r: (GameState, Outcome))
    requires Valid(s) && |draws| == |events| && Choosers(draws)
    ensures Valid(r.0)
    decreases |events|
  {
    if events == [] then (s, Continue)
    else
      var (t, o) := Iteration(s, events[0], draws[0]);
      if o == Continue then Run(t, events[1..], draws[1..]) else (t, o)
  }

  /** The loop is left only because the game is finished. */
  lemma {:induction false} RunExitsOnlyWhenFinished(s: GameState, events: seq<Event>, draws: seq<nat -> nat>)
    requires Valid(s) && |draws| == |events| && Choosers(draws)
    ensures Run(s, events, draws).1 == Exit ==> Run(s, events, draws).0.isFinished
    decreases |events|
  {
    if events != [] {
      var (t, o) := Iteration(s, events[0], draws[0]);
      if o == Continue {
        RunExitsOnlyWhenFinished(t, events[1..], draws[1..]);
      }
    }
  }

  /** Once finished, any further event leaves the loop with the state untouched. */
  lemma RunAfterFinish(s: GameState, events: seq<Event>, draws: seq<nat -> nat>)
    requires Valid(s) && |draws| == |events| && Choosers(draws) && s.isFinished && events != []
    ensures Run(s, events, draws) == (s, Exit)
  {
  }

  /**
   * A paused game that receives no pause key keeps its snake and board over
   * any number of events, whatever updates arrive.
   */
  lemma {:induction false} RunWhilePaused(s: GameState, events: seq<Event>, draws: seq<nat -> nat>)
    requires Valid(s) && |draws| == |events| && Choosers(draws) && s.isPaused && !s.isFinished
    requires forall i :: 0 <= i < |events| ==> events[i] != Press(TogglePause)
    ensures Run(s, events, draws).1 == Continue
    ensures Run(s, events, draws).0.coordinates == s.coordinates
    ensures Run(s, events, draws).0.cells == s.cells
    ensures Run(s, events, draws).0.isPaused
    decreases |events|
  {
    if events != [] {
      var t := Input(s, events[0]);
      assert t.isPaused && !t.isFinished;
      assert Iteration(s, events[0], draws[0]) == (t, Continue);
      RunWhilePaused(t, events[1..], draws[1..]);
    }
  }

  /** The snake never gets shorter, whatever the events. */
  lemma {:induction false} RunNeverShrinks(s: GameState, events: seq<Event>, draws: seq<nat -> nat>)
    requires Valid(s) && |draws| == |events| && Choosers(draws)
    ensures |Run(s, events, draws).0.coordinates| >= |s.coordinates|
    decreases |events|
  {
    if events != [] {
      var (t, o) := Iteration(s, events[0], draws[0]);
      assert |t.coordinates| >= |s.coordinates|;
      if o == Continue {
        RunNeverShrinks(t, events[1..], draws[1..]);
      }
    }
  }
}
