/** Food placement: rejection sampling of random grid cells, at most
    MaxAttempts of them, against the snake and the obstacles. */
module Food {
  import opened Grid

  /** `maxAttempts`. */
  const MaxAttempts: nat := 100

  /** One random draw of `generateFood`: a column index in
      [0, width / GridSize) and a row index in [0, height / GridSize). */
  datatype Draw = Draw(col: nat, row: nat)

  /** The oracle supplies one draw per attempt, each within the grid. */
  predicate ValidDraws(canvas: Canvas, draws: seq<Draw>)
    requires canvas.Valid()
  {
    && |draws| == MaxAttempts
    && forall i :: 0 <= i < |draws| ==>
         draws[i].col < canvas.width / GridSize && draws[i].row < canvas.height / GridSize
  }

  /** The cell a draw names. */
  function Candidate(d: Draw): (c: Cell)
    // a cell on the grid lines, from which the draw is recovered
    ensures c.x % GridSize == 0 && c.y % GridSize == 0
    ensures c.x / GridSize == d.col && c.y / GridSize == d.row
  {
    Cell(d.col * GridSize, d.row * GridSize)
  }

  /** Neither the snake nor an obstacle occupies the cell. */
  predicate Free(c: Cell, snake: seq<Cell>, obstacles: seq<Cell>) {
    c !in snake && c !in obstacles
  }

  /** A draw within the grid names a playable cell. */
  lemma CandidateOnGrid(canvas: Canvas, d: Draw)
    requires canvas.Valid()
    requires d.col < canvas.width / GridSize && d.row < canvas.height / GridSize
    ensures OnGrid(canvas, Candidate(d))
  {
    assert d.col * GridSize <= (canvas.width / GridSize - 1) * GridSize;
    assert d.row * GridSize <= (canvas.height / GridSize - 1) * GridSize;
  }

  /** The sampling loop from attempt `attempt` on: the first free candidate,
      or nothing once every remaining attempt is rejected. */
  function PlaceFrom(draws: seq<Draw>, snake: seq<Cell>, obstacles: seq<Cell>, attempt: nat): (r: Option<Cell>)
    requires |draws| == MaxAttempts && attempt <= MaxAttempts
    // a result is the candidate of some attempt, free, with every earlier attempt rejected
    ensures r.Some? ==>
              exists i :: attempt <= i < MaxAttempts
                && r.value == Candidate(draws[i]) && Free(r.value, snake, obstacles)
                && forall j :: attempt <= j < i ==> !Free(Candidate(draws[j]), snake, obstacles)
    // nothing is found exactly when every remaining attempt is rejected
    ensures r.None? <==> forall i :: attempt <= i < MaxAttempts ==> !Free(Candidate(draws[i]), snake, obstacles)
    decreases MaxAttempts - attempt
  {
    if attempt == MaxAttempts then None
    else
      var c := Candidate(draws[attempt]);
      if !IsOccupied(c, snake) && !IsOccupied(c, obstacles) then Some(c)
      else
        assert !Free(c, snake, obstacles);
        PlaceFrom(draws, snake, obstacles, attempt + 1)
  }

  /** The loop stops at the first free candidate it meets. */
  lemma FreeCandidateTaken(draws: seq<Draw>, snake: seq<Cell>, obstacles: seq<Cell>, attempt: nat)
    requires |draws| == MaxAttempts && attempt < MaxAttempts
    requires Free(Candidate(draws[attempt]), snake, obstacles)
    ensures PlaceFrom(draws, snake, obstacles, attempt) == Some(Candidate(draws[attempt]))
  {
  }

  /** Whatever the sampling loop finds is a playable cell. */
  lemma PlacedOnGrid(canvas: Canvas, draws: seq<Draw>, snake: seq<Cell>, obstacles: seq<Cell>)
    requires canvas.Valid() && ValidDraws(canvas, draws)
    ensures var r := PlaceFrom(draws, snake, obstacles, 0); r.Some? ==> OnGrid(canvas, r.value)
  {
    var r := PlaceFrom(draws, snake, obstacles, 0);
    if r.Some? {
      var i :| 0 <= i < MaxAttempts && r.value == Candidate(draws[i]);
      CandidateOnGrid(canvas, draws[i]);
    }
  }

  /** `generateFood` with the random draws supplied: a free playable cell,
      the first free one among the draws, or nothing after MaxAttempts
      rejections. */
  function GenerateFood(canvas: Canvas, draws: seq<Draw>, snake: seq<Cell>, obstacles: seq<Cell>): (r: Option<Cell>)
    requires canvas.Valid() && ValidDraws(canvas, draws)
    ensures r.Some? ==> OnGrid(canvas, r.value) && r.value !in snake && r.value !in obstacles
    ensures r.Some? ==>
              exists i :: 0 <= i < MaxAttempts && r.value == Candidate(draws[i])
                && forall j :: 0 <= j < i ==> !Free(Candidate(draws[j]), snake, obstacles)
    ensures r.None? <==> forall i :: 0 <= i < MaxAttempts ==> !Free(Candidate(draws[i]), snake, obstacles)
  {
    PlacedOnGrid(canvas, draws, snake, obstacles);
    PlaceFrom(draws, snake, obstacles, 0)
  }
}
