/** The game state and its transitions: one tick of the game loop, the
    score and speed bookkeeping, and the reset that starts a round. */
module Game {
  import opened Grid
  import opened Direction
  import opened Letters
  import opened Layout
  import opened Food

  /** The tick interval a fresh page starts with, in milliseconds. */
  const InitialSpeed: int := 200
  /** The interval is shortened only while it is above this. */
  const MinSpeed: int := 50
  /** How much one speed-up shortens the interval. */
  const SpeedStep: int := 10
  /** A speed-up happens at every multiple of this score. */
  const SpeedEvery: int := 5

  /** Three segments in row 9, head first, facing right. */
  const InitialSnake: seq<Cell> := [Cell(9 * GridSize, 9 * GridSize), Cell(8 * GridSize, 9 * GridSize), Cell(7 * GridSize, 9 * GridSize)]

  /** The mutable globals of the game: the snake (head first), the current
      move, the food (absent when none could be placed), the obstacle
      cells, the scores, and the tick interval. */
  datatype State = State(
    snake: seq<Cell>,
    dir: Dir,
    food: Option<Cell>,
    obstacles: seq<Cell>,
    score: int,
    highScore: int,
    speed: int)

  /** The outcome of one tick: the game goes on, or it is over, with the
      state at the moment of the crash (the new head already added). */
  datatype Tick = Running(next: State) | Crashed(last: State)

  /** One coordinate after the wrap of `moveSnake`: past the far edge goes
      to 0, before the near edge goes to the last cell. */
  function Wrap(v: int, size: int): (r: int)
    requires size > 0 && size % GridSize == 0
    ensures 0 <= r < size
    ensures 0 <= v < size ==> r == v
  {
    if v >= size then 0
    else if v < 0 then size - GridSize
    else v
  }

  /** `moveSnake`'s new head: one move from p, wrapped on both axes. */
  function MoveHead(canvas: Canvas, p: Cell, d: Dir): (h: Cell)
    requires canvas.Valid()
    ensures Inside(canvas, h)
    ensures OnGrid(canvas, p) && IsUnitMove(d) ==> OnGrid(canvas, h)
  {
    Cell(Wrap(p.x + d.dx, canvas.width), Wrap(p.y + d.dy, canvas.height))
  }

  /** On the grid the wrap is arithmetic modulo the canvas size: the board
      is a torus. */
  lemma MoveHeadIsToroidal(canvas: Canvas, p: Cell, d: Dir)
    requires canvas.Valid() && OnGrid(canvas, p) && IsUnitMove(d)
    ensures MoveHead(canvas, p, d) == Cell((p.x + d.dx) % canvas.width, (p.y + d.dy) % canvas.height)
  {
    WrapIsModulo(p.x, d.dx, canvas.width);
    WrapIsModulo(p.y, d.dy, canvas.height);
  }

  /** The wrap agrees with `%` for every one-cell move from a grid line
      inside the range. */
  lemma WrapIsModulo(v: int, delta: int, size: int)
    requires size > 0 && size % GridSize == 0
    requires 0 <= v < size && v % GridSize == 0
    requires delta == -GridSize || delta == 0 || delta == GridSize
    ensures Wrap(v + delta, size) == (v + delta) % size
  {
    var a := v + delta;
    assert v + GridSize <= size;
    if a >= size {
      assert a == 1 * size + 0;
      ModIs(a, size, 1, 0);
      assert Wrap(a, size) == 0;
    } else if a < 0 {
      assert a == -1 * size + (size - GridSize);
      ModIs(a, size, -1, size - GridSize);
      assert Wrap(a, size) == size - GridSize;
    } else {
      assert a == 0 * size + a;
      ModIs(a, size, 0, a);
      assert Wrap(a, size) == a;
    }
  }

  /** Dafny's `%` is the unique remainder in [0, b). */
  lemma ModIs(a: int, b: int, q: int, r: int)
    requires b > 0 && 0 <= r < b && a == q * b + r
    ensures a % b == r
  {
    var q' := a / b;
    assert a == q' * b + a % b;
    assert (q - q') * b == a % b - r;
    if q > q' {
      MulAtLeast(q - q', b);
    } else if q < q' {
      MulAtLeast(q' - q, b);
    }
  }

  lemma MulAtLeast(k: int, b: int)
    requires k >= 1 && b > 0
    ensures k * b >= b
  {
  }

  /** `checkCollision` on the snake with its new head prepended: the head
      meets a later segment or an obstacle. */
  function CheckCollision(snake: seq<Cell>, obstacles: seq<Cell>): (r: bool)
    requires |snake| >= 1
    ensures r <==> (exists i :: 1 <= i < |snake| && snake[i] == snake[0]) || snake[0] in obstacles
  {
    var hit := IsOccupied(snake[0], snake[1..]);
    assert hit <==> exists i :: 1 <= i < |snake| && snake[i] == snake[0] by {
      if hit {
        var k :| 0 <= k < |snake[1..]| && snake[1..][k] == snake[0];
        assert snake[k + 1] == snake[0];
      }
    }
    hit || IsOccupied(snake[0], obstacles)
  }

  /** `checkFoodCollision`: the head is on the food. */
  function EatsFood(head: Cell, food: Cell): (r: bool)
    ensures r <==> head == food
  {
    head.x == food.x && head.y == food.y
  }

  /** The interval is a multiple of SpeedStep between MinSpeed and
      InitialSpeed. */
  predicate SpeedOk(s: int) {
    MinSpeed <= s <= InitialSpeed && s % SpeedStep == 0
  }

  /** The speed-up after eating: at every SpeedEvery-th point the interval
      shrinks by one step, unless it is already at the floor. */
  function NextSpeed(speed: int, score: int): (s: int)
    ensures s == speed || s == speed - SpeedStep
    // the interval shrinks exactly at a multiple of SpeedEvery while above the floor
    ensures s == speed - SpeedStep <==> score % SpeedEvery == 0 && speed > MinSpeed
    ensures SpeedOk(speed) ==> SpeedOk(s)
  {
    if score % SpeedEvery == 0 && speed > MinSpeed then speed - SpeedStep else speed
  }

  /** The score part of `updateScore`: the high score becomes the larger of
      itself and the score. */
  function RaiseHighScore(highScore: int, score: int): (r: int)
    ensures r >= highScore && r >= score
    ensures r == highScore || r == score
  {
    if score > highScore then score else highScore
  }

  /** One tick of `gameLoop`. The source reads the food without a null
      check, so a tick is only defined while there is food. */
  function Step(canvas: Canvas, g: State, draws: seq<Draw>): (t: Tick)
    requires canvas.Valid() && ValidDraws(canvas, draws)
    requires |g.snake| >= 1 && g.food.Some?
    // the crash test sees the whole old body, tail included, and the obstacles
    ensures var head := MoveHead(canvas, g.snake[0], g.dir);
            t.Crashed? <==> head in g.snake || head in g.obstacles
    ensures t.Crashed? ==> t.last == g.(snake := [MoveHead(canvas, g.snake[0], g.dir)] + g.snake)
    // the new head is prepended; direction and obstacles are kept
    ensures t.Running? ==> |t.next.snake| >= 1 && t.next.snake[0] == MoveHead(canvas, g.snake[0], g.dir)
    ensures t.Running? ==> t.next.dir == g.dir && t.next.obstacles == g.obstacles
    // eating grows the snake by one and scores exactly one point
    ensures t.Running? && t.next.snake[0] == g.food.value ==>
              && t.next.snake[1..] == g.snake
              && t.next.score == g.score + 1
              && t.next.highScore == RaiseHighScore(g.highScore, g.score + 1)
              && t.next.speed == NextSpeed(g.speed, g.score + 1)
              && t.next.food == GenerateFood(canvas, draws, t.next.snake, g.obstacles)
    // otherwise the tail is dropped and nothing else changes
    ensures t.Running? && t.next.snake[0] != g.food.value ==>
              && t.next.snake[1..] == g.snake[..|g.snake| - 1]
              && t.next == g.(snake := t.next.snake)
  {
    var head := MoveHead(canvas, g.snake[0], g.dir);
    var moved := [head] + g.snake;
    assert moved[1..] == g.snake;
    assert head in g.snake <==> exists i :: 1 <= i < |moved| && moved[i] == moved[0] by {
      if head in g.snake {
        var k :| 0 <= k < |g.snake| && g.snake[k] == head;
        assert moved[k + 1] == head;
      }
    }
    if CheckCollision(moved, g.obstacles) then
      Crashed(g.(snake := moved))
    else if EatsFood(head, g.food.value) then
      var score := g.score + 1;
      Running(g.(
        snake := moved,
        food := GenerateFood(canvas, draws, moved, g.obstacles),
        score := score,
        highScore := RaiseHighScore(g.highScore, score),
        speed := NextSpeed(g.speed, score)))
    else
      Running(g.(snake := moved[..|moved| - 1]))
  }

  /** A key press between ticks: only the direction may change. */
  function Turn(g: State, keyCode: int): (r: State)
    ensures r.dir != g.dir ==> Perpendicular(g.dir, r.dir)
    ensures r.dir == ChangeDirection(g.dir, keyCode)
    ensures r == g.(dir := r.dir)
  {
    g.(dir := ChangeDirection(g.dir, keyCode))
  }

  /** `resetGame`, with every random draw supplied. The food is drawn
      against the fresh snake but the OLD obstacles, since the obstacles are
      regenerated only afterwards; the interval is not reset, and the high
      score is raised against the new score 0. */
  function Reset(canvas: Canvas, g: State, name: string, styles: seq<Style>, removals: seq<nat>, draws: seq<Draw>): (r: State)
    requires canvas.Valid() && ValidDraws(canvas, draws)
    requires |styles| == |name| && RemovalsFit(canvas, name, styles, removals)
    ensures r.snake == InitialSnake && r.dir == Right && r.score == 0
    ensures r.speed == g.speed && r.highScore >= g.highScore && r.highScore >= 0
    ensures r.highScore == g.highScore || (r.highScore == 0 && g.highScore < 0)
    ensures r.food.Some? ==> OnGrid(canvas, r.food.value) && r.food.value !in InitialSnake && r.food.value !in g.obstacles
    ensures r.food == GenerateFood(canvas, draws, InitialSnake, g.obstacles)
    ensures r.obstacles == GenerateNameObstacles(canvas, name, styles, removals)
  {
    State(
      InitialSnake,
      Right,
      GenerateFood(canvas, draws, InitialSnake, g.obstacles),
      GenerateNameObstacles(canvas, name, styles, removals),
      0,
      RaiseHighScore(g.highScore, 0),
      g.speed)
  }

  /** What every reachable running state satisfies: the snake lies on the
      grid, never overlaps itself or an obstacle, moves one cell at a time;
      the food is on the grid and off the snake; the interval is in range;
      and the high score is at least the score. */
  predicate Inv(canvas: Canvas, g: State)
    requires canvas.Valid()
  {
    && |g.snake| >= 1
    && (forall i :: 0 <= i < |g.snake| ==> OnGrid(canvas, g.snake[i]))
    && NoDuplicates(g.snake)
    && (forall i :: 0 <= i < |g.snake| ==> g.snake[i] !in g.obstacles)
    && IsUnitMove(g.dir)
    && (g.food.Some? ==> OnGrid(canvas, g.food.value) && g.food.value !in g.snake)
    && SpeedOk(g.speed)
    && 0 <= g.score <= g.highScore
  }

  /** The food is not on an obstacle. Kept by every tick, but not
      established by a reset. */
  predicate FoodClear(g: State) {
    g.food.Some? ==> g.food.value !in g.obstacles
  }

  /** A key press keeps the invariant: the move stays a one-cell move. */
  lemma TurnPreservesInv(canvas: Canvas, g: State, keyCode: int)
    requires canvas.Valid() && Inv(canvas, g)
    ensures Inv(canvas, Turn(g, keyCode)) && FoodClear(Turn(g, keyCode)) == FoodClear(g)
  {
  }

  /** Every tick that does not end the game keeps the invariant, and keeps
      the food off the obstacles: a new food is drawn against them, and an
      old one stays where it was. */
  lemma StepPreservesInv(canvas: Canvas, g: State, draws: seq<Draw>)
    requires canvas.Valid() && ValidDraws(canvas, draws)
    requires Inv(canvas, g) && g.food.Some?
    ensures var t := Step(canvas, g, draws);
            t.Running? ==> Inv(canvas, t.next) && (FoodClear(g) ==> FoodClear(t.next))
  {
  }

  /** The name block lies above the snake's starting row: glyph rows end at
      y = StartY + GlyphRows * GridSize, which is the snake's row. */
  lemma InitialSnakeClear(canvas: Canvas, name: string, styles: seq<Style>, removals: seq<nat>)
    requires canvas.Valid() && |styles| == |name| && RemovalsFit(canvas, name, styles, removals)
    ensures forall i :: 0 <= i < |InitialSnake| ==> InitialSnake[i] !in GenerateNameObstacles(canvas, name, styles, removals)
  {
    var obs := GenerateNameObstacles(canvas, name, styles, removals);
    assert forall c :: c in obs ==> c.y < 9 * GridSize;
  }

  /** A reset on a canvas of at least ten cells each way (room for the
      starting snake) starts a state satisfying the invariant, provided the
      kept interval is in range. The food may still lie on a new obstacle. */
  lemma ResetEstablishesInv(canvas: Canvas, g: State, name: string, styles: seq<Style>, removals: seq<nat>, draws: seq<Draw>)
    requires canvas.Valid() && ValidDraws(canvas, draws)
    requires |styles| == |name| && RemovalsFit(canvas, name, styles, removals)
    requires canvas.width >= 10 * GridSize && canvas.height >= 10 * GridSize
    requires SpeedOk(g.speed)
    ensures Inv(canvas, Reset(canvas, g, name, styles, removals, draws))
  {
    var r := Reset(canvas, g, name, styles, removals, draws);
    InitialSnakeClear(canvas, name, styles, removals);
    FreshStateInv(canvas, r);
  }

  /** A state with the starting snake moving right, score 0, the food off
      the snake and no obstacle on the snake satisfies the invariant. */
  lemma FreshStateInv(canvas: Canvas, r: State)
    requires canvas.Valid() && canvas.width >= 10 * GridSize && canvas.height >= 10 * GridSize
    requires r.snake == InitialSnake && r.dir == Right && r.score == 0 && r.highScore >= 0
    requires SpeedOk(r.speed)
    requires r.food.Some? ==> OnGrid(canvas, r.food.value) && r.food.value !in InitialSnake
    requires forall i :: 0 <= i < |InitialSnake| ==> InitialSnake[i] !in r.obstacles
    ensures Inv(canvas, r)
  {
  }

  /** A cell on the grid is never an obstacle of a name whose start x is off
      the grid lines: such obstacles can never be hit. */
  lemma OffGridNameNeverHit(canvas: Canvas, name: string, styles: seq<Style>, removals: seq<nat>, c: Cell)
    requires canvas.Valid() && |styles| == |name| && RemovalsFit(canvas, name, styles, removals)
    requires StartX(canvas, name) % GridSize != 0 && Aligned(c)
    ensures c !in GenerateNameObstacles(canvas, name, styles, removals)
  {
    NameObstaclesPhase(canvas, name, styles, removals);
  }
}
