/** The keyboard handler: arrow keys turn the snake, but only onto the axis
    it is not travelling along. */
module Direction {
  import opened Grid

  /** A movement per tick, in pixels. */
  datatype Dir = Dir(dx: int, dy: int)

  /** DOM key codes of the four arrow keys. */
  const KeyLeft: int := 37
  const KeyUp: int := 38
  const KeyRight: int := 39
  const KeyDown: int := 40

  const Left: Dir := Dir(-GridSize, 0)
  const Up: Dir := Dir(0, -GridSize)
  const Right: Dir := Dir(GridSize, 0)
  const Down: Dir := Dir(0, GridSize)

  /** One of the four one-cell moves. */
  predicate IsUnitMove(d: Dir) {
    d == Left || d == Up || d == Right || d == Down
  }

  function Opposite(d: Dir): Dir {
    Dir(-d.dx, -d.dy)
  }

  /** `a` has no component along the axis of `b`. For an axis-parallel `b`
      (every key move is one) this is a zero dot product. */
  predicate Perpendicular(a: Dir, b: Dir) {
    (b.dx != 0 ==> a.dx == 0) && (b.dy != 0 ==> a.dy == 0)
  }

  /** The move an arrow key asks for; any other key asks for nothing. */
  function KeyMove(keyCode: int): (r: Option<Dir>)
    ensures r.Some? ==> IsUnitMove(r.value)
    ensures r.Some? <==> KeyLeft <= keyCode <= KeyDown
  {
    if keyCode == KeyLeft then Some(Left)
    else if keyCode == KeyUp then Some(Up)
    else if keyCode == KeyRight then Some(Right)
    else if keyCode == KeyDown then Some(Down)
    else None
  }

  /** `changeDirection`: a horizontal key is taken only while dx is zero, a
      vertical key only while dy is zero. The four tests in the handler are
      sequential, but they test distinct key codes, so at most one fires. */
  function ChangeDirection(d: Dir, keyCode: int): (r: Dir)
    // a change is always to the requested move, perpendicular to the old one
    ensures r != d ==> KeyMove(keyCode) == Some(r) && Perpendicular(d, r)
    // and every perpendicular request is taken
    ensures KeyMove(keyCode).Some? && Perpendicular(d, KeyMove(keyCode).value)
            ==> r == KeyMove(keyCode).value
    ensures IsUnitMove(d) ==> IsUnitMove(r) && r != Opposite(d)
  {
    if keyCode == KeyLeft && d.dx == 0 then Left
    else if keyCode == KeyUp && d.dy == 0 then Up
    else if keyCode == KeyRight && d.dx == 0 then Right
    else if keyCode == KeyDown && d.dy == 0 then Down
    else d
  }

  /** A key asking for the exact reverse of a one-cell move is ignored. */
  lemma ReversalIgnored(d: Dir, keyCode: int)
    requires IsUnitMove(d)
    requires KeyMove(keyCode) == Some(Opposite(d))
    ensures ChangeDirection(d, keyCode) == d
  {
  }

  /** Two presses between ticks can still reverse the snake: Up then Left
      while moving right yields a leftward move. Each press is checked only
      against the direction the previous press left behind. */
  lemma TwoPressesReverse()
    ensures ChangeDirection(ChangeDirection(Right, KeyUp), KeyLeft) == Opposite(Right)
  {
  }
}
