/**
 * The simulation as the program runs it: a Board object owning the 27 x 27
 * cell array, a Game object whose methods update its fields in place, and
 * the App whose update runs one tick, plus the main loop's gating. Each
 * method is proved to produce the state the matching function of module
 * Rules describes.
 */
module Snake {
  import opened Wrappers
  import opened Geometry
  import opened Field
  import Rules

  class Board {
    const field: array2<Cell>
    /** The array's contents as a value. */
    ghost var cells: Grid

    ghost predicate Valid()
      reads this, field
    {
      && field.Length0 == N && field.Length1 == N
      && IsGrid(cells)
      && forall r, c :: 0 <= r < N && 0 <= c < N ==> field[r, c] == cells[r][c]
    }

    /** A board with every cell empty. */
    constructor ()
      ensures Valid() && fresh(field)
      ensures cells == Blank()
    {
      field := new Cell[N, N]((r, c) => None);
      cells := Blank();
    }

    /** Writes one cell; every other cell keeps its value. */
    method UpdateBoard(x: Byte, y: Byte, tie: Cell)
      requires Valid() && x < N && y < N
      modifies this, field
      ensures Valid()
      ensures cells == Write(old(cells), x, y, tie)
    {
      field[x, y] := tie;
      cells := Write(cells, x, y, tie);
    }

    /**
     * Scans the board row by row for empty cells and returns the one at the
     * index the generator draws, or None when the board is full. The board
     * is only read.
     */
    method FindEmptySpot(pick: nat -> nat) returns (spot: Option<Point>)
      requires Valid() && IsChooser(pick)
      ensures spot == ChosenSpot(cells, pick)
      ensures spot.None? <==> Full(cells)
      ensures spot.Some? ==> InGrid(spot.value) && cells[spot.value.x][spot.value.y] == None
    {
      var v: seq<Point> := [];
      for row := 0 to N
        invariant v == Scan(cells, row, 0)
      {
        for col := 0 to N
          invariant v == Scan(cells, row, col)
        {
          if field[row, col] == None {
            v := v + [Point(row, col)];
          }
        }
      }
      if |v| == 0 {
        ChosenSpotNoneIffFull(cells, pick);
        return None;
      }
      var index := pick(|v|);
      spot := Some(v[index]);
      ChosenSpotNoneIffFull(cells, pick);
    }

    /** Marks the chosen empty cell as food and returns it; a full board is left as it is. */
    method GenerateFood(pick: nat -> nat) returns (spot: Option<Point>)
      requires Valid() && IsChooser(pick)
      modifies this, field
      ensures Valid()
      ensures spot == ChosenSpot(old(cells), pick)
      ensures cells == PlaceFood(old(cells), pick)
    {
      spot := FindEmptySpot(pick);
      match spot {
        case Some(p) =>
          field[p.x, p.y] := Some(Food);
          cells := Write(cells, p.x, p.y, Some(Food));
        case None =>
      }
    }
  }

  class Game {
    const board: Board
    var isFinished: bool
    var direction: Direction
    var coordinates: seq<Point>
    var snakeSize: nat
    var isPaused: bool
    var food: Point

    /** The game's fields as a value. */
    ghost function Model(): Rules.GameState
      reads this, board
    {
      Rules.GameState(board.cells, coordinates, snakeSize, direction, food, isFinished, isPaused)
    }

    ghost predicate Valid()
      reads this, board, board.field
    {
      board.Valid() && Rules.Valid(Model())
    }

    /** A new game: food at (6,6) on an empty board, a three-segment snake heading LEFT. */
    constructor ()
      ensures Valid() && fresh(board) && fresh(board.field)
      ensures Model() == Rules.Initial()
    {
      var b := new Board();
      b.UpdateBoard(6, 6, Some(Food));
      board := b;
      isFinished := false;
      isPaused := false;
      direction := Left;
      coordinates := [Point(12, 12), Point(13, 12), Point(14, 12)];
      snakeSize := 3;
      food := Point(6, 6);
    }

    method Pause()
      modifies this
      ensures Model() == Rules.Pause(old(Model()))
    {
      isPaused := !isPaused;
    }

    method ChangeDirection(requested: Direction)
      modifies this
      ensures Model() == Rules.ChangeDirection(old(Model()), requested)
    {
      match direction {
        case Up =>
          match requested {
            case Left => direction := Left;
            case Right => direction := Right;
            case _ =>
          }
        case Down =>
          match requested {
            case Left => direction := Left;
            case Right => direction := Right;
            case _ =>
          }
        case Left =>
          match requested {
            case Up => direction := Up;
            case Down => direction := Down;
            case _ =>
          }
        case Right =>
          match requested {
            case Up => direction := Up;
            case Down => direction := Down;
            case _ =>
          }
      }
    }

    /** Appends a segment behind the tail, marks it, and places new food or finishes. */
    method EatFood(pick: nat -> nat)
      requires Valid() && Rules.CanEat(Model()) && IsChooser(pick)
      modifies this, board, board.field
      ensures Valid()
      ensures Model() == Rules.EatFood(old(Model()), pick)
    {
      var point := coordinates[|coordinates| - 1];
      var newTail := GrowthTail(point, direction);
      board.UpdateBoard(newTail.x, newTail.y, Some(Particle));
      snakeSize := snakeSize + 1;
      coordinates := coordinates + [newTail];
      assert Model() == Rules.Grow(old(Model()));
      // The rest of eating is exactly the game's own food placement.
      GenerateFood(pick);
    }

    /** Places new food, or finishes the game when no cell is empty. */
    method GenerateFood(pick: nat -> nat)
      requires Valid() && IsChooser(pick)
      modifies this, board, board.field
      ensures Valid()
      ensures Model() == Rules.GenerateFood(old(Model()), pick)
    {
      var spot := board.GenerateFood(pick);
      if spot.Some? {
        food := spot.value;
      } else {
        isFinished := true;
      }
    }
  }

  class App {
    const game: Game

    constructor ()
      ensures game.Valid() && fresh(game) && fresh(game.board) && fresh(game.board.field)
      ensures game.Model() == Rules.Initial()
    {
      game := new Game();
    }

    /**
     * One tick. It reports an abort where eating would leave the board,
     * with the body already moved; otherwise it completes the tick.
     */
    method Update(pick: nat -> nat) returns (panicked: bool)
      requires game.Valid() && IsChooser(pick)
      modifies game, game.board, game.board.field
      ensures game.Valid()
      ensures panicked == !Rules.TickSafe(old(game.Model()))
      ensures panicked ==> game.Model() == Rules.Moved(old(game.Model()))
      ensures !panicked ==> game.Model() == Rules.Tick(old(game.Model()), pick)
    {
      ghost var s := game.Model();
      var head := game.coordinates[0];
      var newHead := Step(head, game.direction);
      game.coordinates := game.coordinates[..|game.coordinates| - 1];
      game.coordinates := [newHead] + game.coordinates;
      var last := game.coordinates[|game.coordinates| - 1];
      game.board.UpdateBoard(last.x, last.y, None);
      assert game.Model() == Rules.Moved(s);
      panicked := false;
      match game.board.field[newHead.x, newHead.y] {
        case Some(Food) =>
          if !CanGrow(game.coordinates[|game.coordinates| - 1], game.direction) {
            return true;
          }
          game.EatFood(pick);
        case Some(Particle) =>
          game.isFinished := true;
        case None =>
      }
      game.board.UpdateBoard(newHead.x, newHead.y, Some(Particle));
    }

    /**
     * One pass of the main loop: leave when finished, handle the key, skip
     * the rest while paused, tick on an update event.
     */
    method HandleEvent(e: Rules.Event, pick: nat -> nat) returns (outcome: Rules.Outcome)
      requires game.Valid() && IsChooser(pick)
      modifies game, game.board, game.board.field
      ensures game.Valid()
      ensures (game.Model(), outcome) == Rules.Iteration(old(game.Model()), e, pick)
    {
      if game.isFinished {
        return Rules.Exit;
      }
      match e {
        case Press(Steer(d)) => game.ChangeDirection(d);
        case Press(TogglePause) => game.Pause();
        case _ =>
      }
      if game.isPaused {
        return Rules.Continue;
      }
      outcome := Rules.Continue;
      if e.Update? {
        var panicked := Update(pick);
        if panicked {
          outcome := Rules.Crash;
        }
      }
    }

    /** The main loop over the window's events, until it is left or aborts; pass i draws with draws[i]. */
    method Run(events: seq<Rules.Event>, draws: seq<nat -> nat>) returns (outcome: Rules.Outcome)
      requires game.Valid() && |draws| == |events| && Rules.Choosers(draws)
      modifies game, game.board, game.board.field
      ensures game.Valid()
      ensures (game.Model(), outcome) == Rules.Run(old(game.Model()), events, draws)
    {
      var i := 0;
      while i < |events|
        invariant 0 <= i <= |events|
        invariant game.Valid()
        invariant Rules.Run(game.Model(), events[i..], draws[i..]) == Rules.Run(old(game.Model()), events, draws)
      {
        assert events[i..][0] == events[i] && events[i..][1..] == events[i + 1..];
        assert draws[i..][0] == draws[i] && draws[i..][1..] == draws[i + 1..];
        outcome := HandleEvent(events[i], draws[i]);
        if outcome != Rules.Continue {
          return;
        }
        i := i + 1;
      }
      outcome := Rules.Continue;
    }
  }
}
