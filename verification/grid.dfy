/** Screen and grid geometry, cell positions and direction vectors. */
module Grid {

  const ScreenWidth: int := 640
  const ScreenHeight: int := 480
  const GridSize: int := 20
  /** Number of columns and rows; the screen sizes are multiples of the cell size. */
  const GridWidth: int := ScreenWidth / GridSize
  const GridHeight: int := ScreenHeight / GridSize

  /** A point in pixel space; a snake segment or the apple when it is a cell. */
  datatype Pos = Pos(x: int, y: int)

  /** A direction: one of the four unit vectors below when set by the keyboard. */
  datatype Vec = Vec(dx: int, dy: int)

  const Up: Vec := Vec(0, -1)
  const Down: Vec := Vec(0, 1)
  const Left: Vec := Vec(-1, 0)
  const Right: Vec := Vec(1, 0)

  predicate IsUnit(v: Vec) {
    v == Up || v == Down || v == Left || v == Right
  }

  function Opposite(v: Vec): Vec {
    Vec(-v.dx, -v.dy)
  }

  /** Two directions at right angles: their dot product is zero. */
  predicate Perpendicular(a: Vec, b: Vec) {
    a.dx * b.dx + a.dy * b.dy == 0
  }

  /** A grid cell: on screen and aligned to the cell size in both coordinates. */
  predicate IsCell(p: Pos) {
    0 <= p.x < ScreenWidth && 0 <= p.y < ScreenHeight &&
    p.x % GridSize == 0 && p.y % GridSize == 0
  }

  /** The starting cell of the snake, in the middle of the grid. */
  const Center: Pos := Pos(GridWidth / 2 * GridSize, GridHeight / 2 * GridSize)

  lemma CenterIsCell()
    ensures IsCell(Center) && Center == Pos(320, 240)
  {}
}
