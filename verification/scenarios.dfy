/** Worked examples on concrete inputs, each pinning down one behaviour of
    the game that is easy to get wrong. */
module Scenarios {
  import opened Grid
  import opened Direction
  import opened Letters
  import opened Layout
  import opened Food
  import opened Game

  /** The measurements of the names used below. */
  lemma JimeMeasures()
    ensures Utf16Length("Jime") == 4 && AdvanceWidth("Jime") == 3
  {
    AdvanceWidthValue("Jime");
    assert "Jime"[0] == 'J';
  }

  /** The default name "Jime" draws only its J: i, m and e are looked up
      upper-cased and find nothing, yet each still takes a slot. */
  lemma JimeDrawsOnlyJ(styles: seq<Style>)
    requires |styles| == 4
    ensures ChosenPatterns("Jime", styles) == [Some(GlyphJ.Pattern(styles[0])), None, None, None]
  {
    LowerCaseEntriesUnreachable('i');
    LowerCaseEntriesUnreachable('m');
    LowerCaseEntriesUnreachable('e');
  }

  /** On a 400-pixel canvas the four slots of "Jime" span 360 pixels, so the
      J starts at x = 20. */
  lemma JimeStart()
    ensures StartX(Canvas(400, 400), "Jime") == 20
  {
    JimeMeasures();
    StartXIs(Canvas(400, 400), "Jime", 4, 3, 20);
  }

  /** A one-letter name with an entry measures one code unit and three
      columns. */
  lemma SingleLetterMeasures(name: string)
    requires |name| == 1 && Lookup(name[0]).Some?
    ensures Utf16Length(name) == 1 && AdvanceWidth(name) == 3
  {
    WidthOfValue(name[0]);
    assert |name[1..]| == 0;
  }

  /** On a 400-pixel canvas a single letter with an entry starts at
      x = 170, which is not on a grid line. */
  lemma SingleLetterStart(name: string)
    requires |name| == 1 && Lookup(name[0]).Some?
    ensures StartX(Canvas(400, 400), name) == 170
  {
    SingleLetterMeasures(name);
    StartXIs(Canvas(400, 400), name, 1, 3, 170);
  }

  /** So none of the obstacles of such a name, for instance "A", can ever be
      hit by the snake. */
  lemma OffGridSingleLetter(canvas: Canvas, name: string, styles: seq<Style>, removals: seq<nat>, c: Cell)
    requires canvas == Canvas(400, 400)
    requires |name| == 1 && Lookup(name[0]).Some?
    requires |styles| == 1 && RemovalsFit(canvas, name, styles, removals)
    requires Aligned(c)
    ensures c !in GenerateNameObstacles(canvas, name, styles, removals)
  {
    SingleLetterStart(name);
    OffGridNameNeverHit(canvas, name, styles, removals, c);
  }

  /** Up then Left between two ticks turns a right-moving snake round, and
      the next tick drives the head into the second segment. */
  lemma TwoPressesCrash(food: Cell, draws: seq<Draw>)
    requires ValidDraws(Canvas(400, 400), draws)
    ensures var g := State([Cell(100, 100), Cell(80, 100), Cell(60, 100)], Right, Some(food), [], 0, 0, InitialSpeed);
            Step(Canvas(400, 400), Turn(Turn(g, KeyUp), KeyLeft), draws).Crashed?
  {
    var g := State([Cell(100, 100), Cell(80, 100), Cell(60, 100)], Right, Some(food), [], 0, 0, InitialSpeed);
    var t := Turn(Turn(g, KeyUp), KeyLeft);
    TwoPressesReverse();
    assert t == g.(dir := Left);
    assert MoveHead(Canvas(400, 400), Cell(100, 100), Left) == Cell(80, 100);
    assert Cell(80, 100) in t.snake;
  }

  /** Moving onto the current tail cell ends the game, although the tail
      would have moved away in the same tick: the crash test runs before
      the tail is dropped. */
  lemma TailChaseCrashes(food: Cell, draws: seq<Draw>)
    requires ValidDraws(Canvas(400, 400), draws)
    ensures var g := State([Cell(100, 100), Cell(120, 100), Cell(120, 120), Cell(100, 120)], Down, Some(food), [], 0, 0, InitialSpeed);
            Step(Canvas(400, 400), g, draws).Crashed?
  {
    var g := State([Cell(100, 100), Cell(120, 100), Cell(120, 120), Cell(100, 120)], Down, Some(food), [], 0, 0, InitialSpeed);
    assert MoveHead(Canvas(400, 400), g.snake[0], g.dir) == g.snake[3];
  }

  /** Moving right off the last column comes back in at column 0. */
  lemma WrapRightEdge()
    ensures MoveHead(Canvas(400, 400), Cell(380, 60), Right) == Cell(0, 60)
    ensures MoveHead(Canvas(400, 400), Cell(0, 60), Left) == Cell(380, 60)
    ensures MoveHead(Canvas(400, 400), Cell(40, 0), Up) == Cell(40, 380)
  {
  }

  /** Eating the fifth point grows the snake and shortens the interval from
      200 to 190. */
  lemma FifthPointSpeedsUp(draws: seq<Draw>)
    requires ValidDraws(Canvas(400, 400), draws)
    ensures var g := State([Cell(100, 100), Cell(80, 100)], Right, Some(Cell(120, 100)), [], 4, 7, InitialSpeed);
            var t := Step(Canvas(400, 400), g, draws);
            && t.Running? && |t.next.snake| == 3
            && t.next.score == 5 && t.next.highScore == 7 && t.next.speed == 190
  {
    var g := State([Cell(100, 100), Cell(80, 100)], Right, Some(Cell(120, 100)), [], 4, 7, InitialSpeed);
    assert MoveHead(Canvas(400, 400), g.snake[0], g.dir) == Cell(120, 100);
  }

  /** A one-letter name "A" drawn bold uses the bold A pattern. */
  lemma ChosenBoldA(name: string)
    requires |name| == 1 && name[0] == 'A'
    ensures ChosenPatterns(name, [Bold]) == [Some(GlyphA.bold)]
  {
  }

  /** The bold A at (180, 100) has ten cells, the first at its corner. */
  lemma BoldACells()
    ensures var cells := LetterCells(GlyphA.bold, 180, StartY);
            |cells| == 10 && cells[0] == Cell(180, 100)
  {
  }

  /** On a 420-pixel canvas a bold A has ten cells, the first at (180, 100). */
  lemma BoldAPlaced(name: string)
    requires |name| == 1 && name[0] == 'A'
    ensures var placed := PlacedCells(Canvas(420, 420), name, [Bold]);
            |placed| == 10 && placed[0] == Cell(180, 100)
  {
    SingleLetterMeasures(name);
    StartXIs(Canvas(420, 420), name, 1, 3, 180);
    ChosenBoldA(name);
    PlacedCellsAre(Canvas(420, 420), name, [Bold], [Some(GlyphA.bold)], 3);
    PlaceOneSlot(GlyphA.bold, 180, Advance(3));
    BoldACells();
  }

  /** One hundred draws that all name column 9, row 5. */
  const RepeatedDraw: seq<Draw> := seq(MaxAttempts, i => Draw(9, 5))

  /** They are valid on a 420-pixel canvas, which has 21 columns and rows. */
  lemma RepeatedDrawValid()
    ensures ValidDraws(Canvas(420, 420), RepeatedDraw)
  {
  }

  /** Such draws place the food at (180, 100) whenever that cell is free. */
  lemma FirstDrawFree(snake: seq<Cell>, obstacles: seq<Cell>)
    requires Cell(180, 100) !in snake && Cell(180, 100) !in obstacles
    ensures PlaceFrom(RepeatedDraw, snake, obstacles, 0) == Some(Cell(180, 100))
  {
    var d := RepeatedDraw[0];
    assert d == Draw(9, 5);
    FreeCandidateTaken(RepeatedDraw, snake, obstacles, 0);
  }

  /** Food drawn by a reset onto a cell of the new name is not clear of the
      obstacles. */
  lemma FoodOnNewObstacle(canvas: Canvas, g: State, name: string, styles: seq<Style>, removals: seq<nat>, draws: seq<Draw>, c: Cell)
    requires canvas.Valid() && ValidDraws(canvas, draws)
    requires |styles| == |name| && RemovalsFit(canvas, name, styles, removals)
    requires GenerateFood(canvas, draws, InitialSnake, g.obstacles) == Some(c)
    requires c in GenerateNameObstacles(canvas, name, styles, removals)
    ensures !FoodClear(Reset(canvas, g, name, styles, removals, draws))
  {
  }

  /** A reset draws the food before the obstacles are rebuilt, so the food
      can land on a new obstacle. On a 420-pixel canvas a bold A starts at
      (180, 100); removing its last cell keeps (180, 100), which is exactly
      where the first food draw lands. */
  lemma ResetFoodOnNewObstacle(g: State, name: string)
    requires |name| == 1 && name[0] == 'A' && g.obstacles == []
    ensures RemovalsFit(Canvas(420, 420), name, [Bold], [9]) && ValidDraws(Canvas(420, 420), RepeatedDraw)
    ensures !FoodClear(Reset(Canvas(420, 420), g, name, [Bold], [9], RepeatedDraw))
  {
    RepeatedDrawValid();
    BoldAFirstObstacle(name);
    FirstDrawFree(InitialSnake, g.obstacles);
    FoodOnNewObstacle(Canvas(420, 420), g, name, [Bold], [9], RepeatedDraw, Cell(180, 100));
  }

  /** Removing the last of a bold A's ten cells keeps its first, (180, 100). */
  lemma BoldAFirstObstacle(name: string)
    requires |name| == 1 && name[0] == 'A'
    ensures RemovalsFit(Canvas(420, 420), name, [Bold], [9])
    ensures Cell(180, 100) in GenerateNameObstacles(Canvas(420, 420), name, [Bold], [9])
  {
    BoldAPlaced(name);
    DropLastCell(Canvas(420, 420), name, [Bold]);
    assert GenerateNameObstacles(Canvas(420, 420), name, [Bold], [9])[0] == Cell(180, 100);
  }

  /** Of ten placed cells one gap is made; removing index 9 keeps the first
      nine. */
  lemma DropLastCell(canvas: Canvas, name: string, styles: seq<Style>)
    requires canvas.Valid() && |styles| == |name|
    requires |PlacedCells(canvas, name, styles)| == 10
    ensures RemovalsFit(canvas, name, styles, [9])
    ensures GenerateNameObstacles(canvas, name, styles, [9]) == PlacedCells(canvas, name, styles)[..9]
  {
    var placed := PlacedCells(canvas, name, styles);
    assert placed[..9] + placed[10..] == placed[..9];
  }
}
