/** Geometry shared by every part of the game: the cell size, positions on
    the canvas, the canvas itself, and membership of a position in a list of
    segments. */
module Grid {

  /** Side of one grid cell, in canvas pixels. */
  const GridSize: int := 20

  /** A value that may be absent; stands for a JavaScript object-or-null. */
  datatype Option<T> = None | Some(value: T)

  /** A position in canvas pixels. Snake segments and food are multiples of
      GridSize; obstacle cells are not necessarily. */
  datatype Cell = Cell(x: int, y: int)

  /** The drawing surface, in pixels. */
  datatype Canvas = Canvas(width: int, height: int) {
    /** Both dimensions are positive multiples of the cell size. */
    predicate Valid() {
      && width > 0 && height > 0
      && width % GridSize == 0 && height % GridSize == 0
    }
  }

  /** The cell lies on the grid lines. */
  predicate Aligned(c: Cell) {
    c.x % GridSize == 0 && c.y % GridSize == 0
  }

  /** The cell's top-left corner lies inside [0, width) x [0, height). */
  predicate Inside(canvas: Canvas, c: Cell) {
    0 <= c.x < canvas.width && 0 <= c.y < canvas.height
  }

  /** A playable grid cell. */
  predicate OnGrid(canvas: Canvas, c: Cell) {
    Aligned(c) && Inside(canvas, c)
  }

  /** No position appears twice. */
  predicate NoDuplicates(s: seq<Cell>) {
    forall i, j :: 0 <= i < j < |s| ==> s[i] != s[j]
  }

  /** The linear scan of `isOccupied`: some segment has the same x and the
      same y as the position. */
  function IsOccupied(position: Cell, segments: seq<Cell>): (r: bool)
    ensures r <==> position in segments
  {
    if |segments| == 0 then false
    else if segments[0].x == position.x && segments[0].y == position.y then true
    else IsOccupied(position, segments[1..])
  }
}
