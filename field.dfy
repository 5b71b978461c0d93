/**
 * The board's contents as a value: a 27 x 27 grid of cells, each empty, food
 * or a snake segment, together with the scan for empty cells and the random
 * choice among them that places new food.
 */
module Field {
  import opened Wrappers
  import opened Geometry

  datatype Tie = Food | Particle

  /** None is an empty cell. */
  type Cell = Option<Tie>

  /** Indexed first by x (the row of the scan), then by y (the column). */
  type Grid = seq<seq<Cell>>

  predicate IsGrid(g: Grid) {
    |g| == N && forall r :: 0 <= r < N ==> |g[r]| == N
  }

  /** The board as it is created: every cell empty. */
  function Blank(): (g: Grid)
    ensures IsGrid(g)
    ensures forall r, c :: 0 <= r < N && 0 <= c < N ==> g[r][c] == None
  {
    seq(N, _ => seq(N, _ => None))
  }

  /** Writing one cell: that cell holds the new value and no other cell changes. */
  function Write(g: Grid, x: int, y: int, t: Cell): (g': Grid)
    requires IsGrid(g) && 0 <= x < N && 0 <= y < N
    ensures IsGrid(g')
    ensures g'[x][y] == t
    ensures forall r, c :: 0 <= r < N && 0 <= c < N && (r != x || c != y) ==> g'[r][c] == g[r][c]
  {
    g[x := g[x][y := t]]
  }

  /** No cell of the board is empty. */
  predicate Full(g: Grid)
    requires IsGrid(g)
  {
    forall r, c :: 0 <= r < N && 0 <= c < N ==> g[r][c] != None
  }

  /** Cell (x, y) comes before cell (r, c) in the row-by-row scan. */
  predicate Before(p: Point, r: int, c: int) {
    p.x < r || (p.x == r && p.y < c)
  }

  /**
   * The empty cells the scan has met before reaching cell (r, c): row by row,
   * and within a row column by column. The width of a row is written as its
   * length, which is N on a well-formed grid.
   */
  function Scan(g: Grid, r: int, c: int): (v: seq<Point>)
    requires IsGrid(g) && 0 <= r <= N && 0 <= c <= N && (r == N ==> c == 0)
    ensures |v| <= r * N + c
    decreases r, c
  {
    if c > 0 then Scan(g, r, c - 1) + (if g[r][c - 1] == None then [Point(r, c - 1)] else [])
    else if r > 0 then Scan(g, r - 1, |g[r - 1]|)
    else []
  }

  /** Every empty cell of the board, in the order the scan visits them. */
  function Empties(g: Grid): (v: seq<Point>)
    requires IsGrid(g)
    ensures |v| <= N * N
  {
    Scan(g, |g|, 0)
  }

  lemma {:induction false} ScanMembers(g: Grid, r: int, c: int, p: Point)
    requires IsGrid(g) && 0 <= r <= N && 0 <= c <= N && (r == N ==> c == 0)
    ensures p in Scan(g, r, c) <==> InGrid(p) && Before(p, r, c) && g[p.x][p.y] == None
    decreases r, c
  {
    if c > 0 {
      ScanMembers(g, r, c - 1, p);
    } else if r > 0 {
      ScanMembers(g, r - 1, |g[r - 1]|, p);
    }
  }

  /** The scan collects exactly the empty cells of the whole board. */
  lemma EmptiesMembers(g: Grid, p: Point)
    requires IsGrid(g)
    ensures p in Empties(g) <==> InGrid(p) && g[p.x][p.y] == None
  {
    ScanMembers(g, N, 0, p);
  }

  lemma FullHasNoEmpties(g: Grid)
    requires IsGrid(g) && Full(g)
    ensures |Empties(g)| == 0
  {
    var v := Empties(g);
    if |v| > 0 {
      EmptiesMembers(g, v[0]);
    }
  }

  lemma NoEmptiesIsFull(g: Grid)
    requires IsGrid(g) && |Empties(g)| == 0
    ensures Full(g)
  {
    forall r, c | 0 <= r < N && 0 <= c < N
      ensures g[r][c] != None
    {
      EmptiesMembers(g, Point(r, c));
    }
  }

  /** The scan finds nothing exactly when the board is full. */
  lemma EmptiesNoneIffFull(g: Grid)
    requires IsGrid(g)
    ensures |Empties(g)| == 0 <==> Full(g)
  {
    if Full(g) {
      FullHasNoEmpties(g);
    }
    if |Empties(g)| == 0 {
      NoEmptiesIsFull(g);
    }
  }

  /**
   * A random generator drawing from 0..n (exclusive): for every non-empty
   * range it returns an index inside it.
   */
  ghost predicate IsChooser(pick: nat -> nat) {
    forall n: nat :: 0 < n ==> pick(n) < n
  }

  /**
   * The cell the food scan returns: None when no cell is empty, otherwise the
   * empty cell at the index the generator draws.
   */
  function ChosenSpot(g: Grid, pick: nat -> nat): (spot: Option<Point>)
    requires IsGrid(g) && IsChooser(pick)
    ensures spot.Some? ==> InGrid(spot.value) && g[spot.value.x][spot.value.y] == None
  {
    var v := Empties(g);
    if |v| == 0 then None
    else
      EmptiesMembers(g, v[pick(|v|)]);
      Some(v[pick(|v|)])
  }

  /** The scan returns nothing exactly when no cell of the whole board is empty. */
  lemma ChosenSpotNoneIffFull(g: Grid, pick: nat -> nat)
    requires IsGrid(g) && IsChooser(pick)
    ensures ChosenSpot(g, pick).None? <==> Full(g)
  {
    EmptiesNoneIffFull(g);
  }

  /** The board after food placement. */
  function PlaceFood(g: Grid, pick: nat -> nat): (g': Grid)
    requires IsGrid(g) && IsChooser(pick)
    ensures IsGrid(g')
  {
    match ChosenSpot(g, pick)
    case None => g
    case Some(p) => Write(g, p.x, p.y, Some(Food))
  }

  /**
   * Food placement: the chosen cell, empty before, holds food and nothing
   * else changes; a full board is left unchanged.
   */
  lemma PlaceFoodEffect(g: Grid, pick: nat -> nat)
    requires IsGrid(g) && IsChooser(pick)
    ensures Full(g) ==> PlaceFood(g, pick) == g
    ensures !Full(g) ==>
      && ChosenSpot(g, pick).Some?
      && var p := ChosenSpot(g, pick).value;
         g[p.x][p.y] == None && PlaceFood(g, pick) == Write(g, p.x, p.y, Some(Food))
  {
    ChosenSpotNoneIffFull(g, pick);
  }

  /** A cell that is not empty never receives the food. */
  lemma PlaceFoodSparesOccupied(g: Grid, pick: nat -> nat, q: Point)
    requires IsGrid(g) && IsChooser(pick) && InGrid(q) && g[q.x][q.y] != None
    ensures ChosenSpot(g, pick) != Some(q)
    ensures PlaceFood(g, pick)[q.x][q.y] == g[q.x][q.y]
  {
  }

  // The program draws the index from the inclusive range 0..=len.

  /** A random generator drawing from 0..=n (inclusive), as the program asks for. */
  ghost predicate IsInclusiveChooser(pick: nat -> nat) {
    forall n: nat :: pick(n) <= n
  }

  /** The outcome of the draw as written: a spot, or an index one past the end. */
  datatype Draw = Drawn(spot: Option<Point>) | IndexPastEnd

  function ChosenSpotAsWritten(g: Grid, pick: nat -> nat): (d: Draw)
    requires IsGrid(g) && IsInclusiveChooser(pick)
    ensures d.IndexPastEnd? <==> !Full(g) && pick(|Empties(g)|) == |Empties(g)|
  {
    var v := Empties(g);
    EmptiesNoneIffFull(g);
    if |v| == 0 then Drawn(None)
    else if pick(|v|) < |v| then Drawn(Some(v[pick(|v|)]))
    else IndexPastEnd
  }

  /** On a fresh board a draw of the upper bound indexes one past the end. */
  lemma AsWrittenIndexesPastEnd()
    ensures IsInclusiveChooser(n => n)
    ensures ChosenSpotAsWritten(Blank(), n => n) == IndexPastEnd
  {
    EmptiesMembers(Blank(), Point(0, 0));
  }

  /** Whenever the draw stays below the length, the corrected choice agrees with the program. */
  lemma AsWrittenAgreesInRange(g: Grid, pick: nat -> nat)
    requires IsGrid(g) && IsInclusiveChooser(pick) && IsChooser(pick)
    ensures ChosenSpotAsWritten(g, pick) == Drawn(ChosenSpot(g, pick))
  {
  }
}
