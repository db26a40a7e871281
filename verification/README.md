# Snake with a name made of obstacles — a Dafny model

The game is a browser snake on a canvas of `gridSize = 20` pixel cells.
The player's name is spelt out as obstacles from a small table of letter
patterns, centred at a fixed height, with a tenth of its cells knocked out.
Each tick of the game loop:

- moves the head one cell, wrapping round the edges;
- ends the game when the head lands on the body or on an obstacle;
- grows the snake and scores a point when the head lands on the food;
- otherwise drops the tail.

Arrow keys turn the snake, but only onto the axis it is not travelling
along. Food is placed by rejection sampling of at most 100 random cells.

The model is functional. The game's globals form one immutable `State`
record, and every operation is a pure function. Each call to
`Math.random` becomes an explicit oracle argument:

- one `Style` per character of the name;
- one removal index per gap, each below the length of the list it is
  removed from;
- one `Draw(col, row)` per food attempt.

The canvas width and height are parameters, positive multiples of 20.

Modules follow the parts of `script.js`:

- `Grid`: cells, the canvas, and `isOccupied`.
- `Direction`: `changeDirection`.
- `Letters`: `LETTER_PATTERNS` and the upper-cased lookup.
- `Layout`: `generateLetterObstacles` and `generateNameObstacles`.
- `Food`: `generateFood`.
- `Game`: `moveSnake`, `checkCollision`, `checkFoodCollision`, the tick of
  `gameLoop`, the score part of `updateScore`, and `resetGame`.
- `Scenarios`: worked examples on concrete inputs.

Behaviours of the code that are kept as written:

- **Lookup is upper-cased.** Every character is looked up after
  `toUpperCase`, so the lower-case entries `i`, `m` and `e` are never
  used. In the default name "Jime" only the J is drawn, but all four
  characters take a slot (`JimeDrawsOnlyJ`).
- **Centring is exact but not always on the grid.** The centring division
  is exact for every name, so no evenness assumption is needed
  (`StartX`). The start x is not always on a grid line, however:
  a single "A" on a 400-pixel canvas starts at x = 170. Such obstacles
  can never be hit (`OffGridSingleLetter`).
- **The crash test runs before the tail is dropped.** Moving onto the
  current tail cell ends the game (`TailChaseCrashes`).
- **Two presses in one tick can reverse the snake** (`TwoPressesCrash`).
- **A reset draws the food before it rebuilds the obstacles.** The food
  is checked against the old obstacles and can land on a new one
  (`ResetFoodOnNewObstacle`).
- **A reset keeps the tick interval.**

## Model

| member | source | states |
|---|---|---|
| Grid.IsOccupied | script.js:281-288 | the scan reports a hit exactly when the position is one of the segments |
| Direction.KeyMove | script.js:350-372 | exactly the key codes 37 to 40 ask for a move, and each asks for a one-cell move |
| Direction.ChangeDirection | script.js:349-373 | the direction only changes to the requested move, which is perpendicular to the old one; every perpendicular request is taken; a one-cell move stays a one-cell move and never becomes its own reverse |
| Direction.ReversalIgnored | script.js:356-372 | a key asking for the exact reverse of the current move leaves the direction unchanged |
| Direction.TwoPressesReverse | script.js:357-364 | Up then Left, pressed while moving right, leaves the snake moving left: each press is checked only against the previous press's result |
| Letters.ToUpper | script.js:198 | each lower-case ASCII letter becomes its capital, every other character is left alone, and no result is a lower-case letter |
| Letters.TableEntry | script.js:71-145 | `LETTER_PATTERNS` has an entry for exactly the keys A, B, J, i, m and e |
| Letters.Lookup | script.js:197-199 | a character of the name finds an entry after upper-casing exactly when it is a, b or j in either case |
| Letters.LowerCaseEntriesUnreachable | script.js:111-143 | the table has the keys i, m and e, but no upper-cased character equals them, so i, m and e find nothing |
| Letters.MaxColBounds | script.js:203 | `Math.max` of the column offsets bounds every column and is one of them |
| Letters.GlyphWidthFits | script.js:200-207 | every column of either style lies left of the entry's width, which is at least 1 |
| Letters.TableWidths | script.js:71-145 | every entry has non-empty patterns at most four rows tall; i is one column wide and every other entry three |
| Layout.WidthOfFits | script.js:197-209 | every offset of a character's entry lies within that character's width and the four glyph rows |
| Layout.WidthOfValue | script.js:197-209 | a character's width is 3 when it has an entry and 0 otherwise |
| Layout.AdvanceWidthIsMax | script.js:196-209 | `maxLetterWidth` bounds the width of every character and is reached by one of them, or is 0 |
| Layout.AdvanceWidthValue | script.js:196-209 | `maxLetterWidth` is 3 exactly when some character of the name has an entry, else 0 |
| Layout.Utf16Length | script.js:211 | `gameName.length` is at least the number of characters, and equals it when no character lies outside the Basic Multilingual Plane |
| Layout.CentreExact | script.js:211-212 | a block of whole cells on a canvas of whole cells leaves equal margins: the halving is exact |
| Layout.TotalWidth | script.js:211 | `totalWidth` is a whole number of cells for every name, and is minus one spacing for the empty name |
| Layout.StartX | script.js:211-212 | for every name, twice the start x plus `totalWidth` is the canvas width: the margins are equal |
| Layout.LetterCells | script.js:167-182 | a letter yields one cell per offset of its pattern |
| Layout.LetterCellsOffsets | script.js:173-179 | each cell lies a whole number of cells right of and below the start point, and that number of cells is the pattern's offset, so the pattern is recovered from the cells |
| Layout.PlaceCellsAppend | script.js:214-226 | placing two runs of slots places the second run one advance per slot of the first run further right |
| Layout.PlaceCellsSlot | script.js:214-226 | the k-th slot's cells sit at start x plus k advances, after the earlier slots' cells and before the later ones', whether or not earlier characters had entries |
| Layout.PlaceCellsCount | script.js:173-179 | placing emits one cell per offset of every filled slot and none for an empty slot |
| Layout.SlotCellsBounds | script.js:173-179 | a letter's cells lie within its slot: w cells wide from its x, four rows tall from startY |
| Layout.PlaceCellsBounds | script.js:214-226 | every placed cell lies between x and the right edge of the last slot, within the glyph rows |
| Layout.ChosenPatternsFit | script.js:196-218 | every pattern drawn for the name fits the box of the name's advance width |
| Layout.PlacedCellsCentred | script.js:211-226 | every placed cell keeps the left margin from both canvas edges |
| Layout.RemoveGaps | script.js:235-239 | each gap removes exactly one cell, and the result is a sub-multiset of the list it came from |
| Layout.GenerateNameObstacles | script.js:188-241 | an empty name gives no obstacles; n placed cells become n - n div 10 obstacles, a sub-multiset of the placed cells, all in the centred block |
| Layout.PlaceCellsPhase | script.js:214-226 | when the advance is a whole number of cells, every placed cell has the first slot's offset from the grid in x and lies on a grid row |
| Layout.NameObstaclesPhase | script.js:212-239 | every obstacle of the name lies the start x's offset from a grid line in x, and on a grid row |
| Food.Candidate | script.js:262-265 | a drawn cell lies on the grid lines, and the drawn column and row are recovered from it |
| Food.CandidateOnGrid | script.js:262-265 | a draw inside the grid names a cell on the grid and inside the canvas |
| Food.PlaceFrom | script.js:261-272 | the loop returns the first free candidate from the given attempt on, and returns null exactly when every remaining candidate is occupied |
| Food.GenerateFood | script.js:256-273 | placed food is on the grid and on neither the snake nor an obstacle, and is the first free draw; null is returned exactly when all 100 draws are occupied |
| Game.Wrap | script.js:330-340 | a wrapped coordinate lies in [0, size) and is unchanged when already there |
| Game.MoveHead | script.js:326-340 | the new head lies inside the canvas, and on the grid when the old head was and the move is one cell |
| Game.MoveHeadIsToroidal | script.js:327-340 | from a grid cell a one-cell move wraps exactly as addition modulo the canvas size |
| Game.WrapIsModulo | script.js:330-334 | the edge rules agree with `%` for every one-cell move from a grid line |
| Game.CheckCollision | script.js:379-395 | a collision is reported exactly when the head equals a later segment or an obstacle |
| Game.EatsFood | script.js:401-406 | the head eats exactly when it is on the food |
| Game.NextSpeed | script.js:312-316 | the interval drops by 10 exactly when the new score is a multiple of 5 and the interval is above 50, and otherwise stays; an interval in 50..200 that is a multiple of 10 stays so |
| Game.RaiseHighScore | script.js:438-442 | the high score becomes the larger of itself and the score |
| Game.Step | script.js:301-321 | a tick ends the game exactly when the new head is on the old body, tail included, or on an obstacle; otherwise the head is prepended and either the food is eaten (one point, high score raised, speed-up rule, fresh food against the grown snake) or the tail is dropped and nothing else changes |
| Game.Turn | script.js:349-373 | a key press sets the direction by the `changeDirection` rule and changes nothing else |
| Game.Reset | script.js:449-461 | the fresh snake, direction right and score 0; the interval kept; the high score kept unless it was negative, in which case it becomes 0; the food drawn against the fresh snake and the OLD obstacles; the obstacles rebuilt from the name |
| Game.TurnPreservesInv | script.js:349-373 | a key press keeps the state invariant and whether the food is clear of obstacles |
| Game.StepPreservesInv | script.js:301-321 | every tick that goes on keeps the invariant: snake on the grid, free of duplicates and obstacles, one-cell moves, food off the snake, interval in range, score at most high score; food clear of obstacles stays so |
| Game.InitialSnakeClear | script.js:451-461 | no segment of the starting snake is an obstacle of any name: the glyph rows end where the snake's row begins |
| Game.ResetEstablishesInv | script.js:449-461 | a reset on a canvas at least ten cells each way, with the interval in range, starts a state that satisfies the invariant |
| Game.OffGridNameNeverHit | script.js:211-226 | when the start x is off the grid lines, no grid cell is an obstacle |
| Scenarios.JimeDrawsOnlyJ | script.js:214-226 | "Jime" draws the J pattern in its first slot and nothing in the other three |
| Scenarios.JimeStart | script.js:211-212 | on a 400-pixel canvas "Jime" starts at x = 20 |
| Scenarios.OffGridSingleLetter | script.js:211-212 | on a 400-pixel canvas a one-letter name with an entry has no obstacle on a grid cell |
| Scenarios.TwoPressesCrash | script.js:357-364 | Up then Left between two ticks makes a right-moving snake run into its second segment |
| Scenarios.TailChaseCrashes | script.js:302-303 | moving onto the current tail cell ends the game |
| Scenarios.WrapRightEdge | script.js:330-340 | right from x = 380 gives x = 0, left from 0 gives 380, up from y = 0 gives 380, on a 400-pixel canvas |
| Scenarios.FifthPointSpeedsUp | script.js:307-316 | eating the fifth point grows the snake to three segments and shortens the interval from 200 to 190 |
| Scenarios.BoldAPlaced | script.js:167-181 | on a 420-pixel canvas a bold A has ten cells, the first at (180, 100) |
| Scenarios.FirstDrawFree | script.js:261-268 | when the first draw names a free cell, that cell is the food |
| Scenarios.ResetFoodOnNewObstacle | script.js:460-461 | after a reset the food can lie on one of the new obstacles |

## Left out

- Rendering (`drawEverything`, the canvas context) and `getRandomColor`: they draw and pick colours and change no game state.
- DOM wiring: the start button, `trim` of the input, hiding the input box, the score text and every `alert`. A game over is the `Crashed` outcome of `Step`. The caller then applies `Reset` with the current name.
- `localStorage`: the high score is an `int`. The string-to-number coercion of a stored value is not modelled.
- Timers: `setInterval`, `clearInterval` and `startGame`. Only the interval value `speed` is modelled. When a reset finds no food, the source returns without restarting the timer; the model has no timer to restart, so its state is the same either way.
- Module-load initialisation (script.js:33-68): it calls `generateObstacles` before the table constant is initialised. The state after a `Reset` stands for a fresh game.
- Floating point: `Math.floor(count * 0.1)` is `count / 10` on integers. `(canvasWidth - totalWidth) / 2` is a float division, but it is always exact (`StartX`).
- `Math.random`: the three kinds of draw are oracle arguments. Their ranges are stated by `ValidDraws` and `ValidRemovals`.
- Game.Step: requires food to be present. In the source a tick without food still moves the head (`moveSnake` prepends it) and still ends the game on a collision; otherwise `checkFoodCollision` reads `food.x` without a null check and throws. The throw skips the tail pop and the redraw, so each such tick grows the snake by one while the timer keeps firing. The model leaves this case out.
- Letters.ToUpper: covers the ASCII letters only. No other character upper-cases to a table key, so the lookup is the same.
- Layout.RemoveGaps: the `obstacles.length === 0` break is not modelled. The removal indices must each be below the current length, which cannot hold once the list is empty, and n div 10 removals never empty a list of n cells.
- The `console.warn` for a character without a pattern: it is logging only. The advance of `currentX` in that branch is modelled.
