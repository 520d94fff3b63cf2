/**
 * The apple and its placement on a free cell. The random number source is
 * a parameter: `draws` is the sequence of (column, row) pairs the random
 * generator would return, one pair per attempt.
 */
module Food {
  import opened Grid

  /** One attempt of the random generator: a column and a row of the grid. */
  datatype Draw = Draw(col: int, row: int)

  type GridIndex = d: Draw | 0 <= d.col < GridWidth && 0 <= d.row < GridHeight
    witness Draw(0, 0)

  /** The cell at a column and row. */
  function CellOf(d: GridIndex): (p: Pos)
    ensures IsCell(p)
    ensures p.x / GridSize == d.col && p.y / GridSize == d.row
  {
    Pos(d.col * GridSize, d.row * GridSize)
  }

  /** The column and row of a cell. */
  function IndexOf(p: Pos): (d: GridIndex)
    requires IsCell(p)
    ensures CellOf(d) == p
  {
    Draw(p.x / GridSize, p.y / GridSize)
  }

  /** Every cell is the result of exactly one draw, so the placement can reach any free cell. */
  lemma CellIndexRoundTrip(d: GridIndex, p: Pos)
    requires IsCell(p)
    ensures CellOf(d) == p <==> d == IndexOf(p)
  {
    if CellOf(d) == p {
      assert d.col == p.x / GridSize && d.row == p.y / GridSize;
    }
  }

  /** Some attempt in `draws` hits a cell that is not occupied. */
  predicate HasFreeDraw(draws: seq<GridIndex>, occupied: seq<Pos>) {
    exists k :: 0 <= k < |draws| && CellOf(draws[k]) !in occupied
  }

  /** The cell of the first attempt that is not occupied. */
  function Placed(draws: seq<GridIndex>, occupied: seq<Pos>): (p: Pos)
    requires HasFreeDraw(draws, occupied)
    ensures IsCell(p) && p !in occupied
    ensures exists k :: 0 <= k < |draws| && p == CellOf(draws[k]) &&
              forall m :: 0 <= m < k ==> CellOf(draws[m]) in occupied
    decreases |draws|
  {
    if CellOf(draws[0]) !in occupied then CellOf(draws[0])
    else
      var k :| 0 <= k < |draws| && CellOf(draws[k]) !in occupied;
      assert draws[1..][k - 1] == draws[k];
      var p := Placed(draws[1..], occupied);
      var j :| 0 <= j < |draws| - 1 && p == CellOf(draws[1..][j]) &&
               forall m :: 0 <= m < j ==> CellOf(draws[1..][m]) in occupied;
      assert p == CellOf(draws[j + 1]);
      assert forall m :: 0 <= m < j + 1 ==> CellOf(draws[m]) in occupied by {
        forall m | 0 <= m < j + 1 ensures CellOf(draws[m]) in occupied {
          if m > 0 { assert draws[m] == draws[1..][m - 1]; }
        }
      }
      p
  }

  class Apple {
    var position: Pos

    constructor (occupied: seq<Pos>, draws: seq<GridIndex>)
      requires HasFreeDraw(draws, occupied)
      ensures position == Placed(draws, occupied)
    {
      position := Pos(0, 0);
      new;
      RandomizePosition(occupied, draws);
    }

    /** Draws cells until one is not occupied, and takes it. */
    method RandomizePosition(occupied: seq<Pos>, draws: seq<GridIndex>)
      requires HasFreeDraw(draws, occupied)
      modifies this
      ensures position == Placed(draws, occupied)
      ensures IsCell(position) && position !in occupied
    {
      var k := 0;
      position := CellOf(draws[0]);
      while position in occupied
        invariant 0 <= k < |draws| && position == CellOf(draws[k])
        invariant HasFreeDraw(draws[k..], occupied)
        invariant Placed(draws[k..], occupied) == Placed(draws, occupied)
        decreases |draws| - k
      {
        assert draws[k..][1..] == draws[k + 1..];
        var j :| 0 <= j < |draws[k..]| && CellOf(draws[k..][j]) !in occupied;
        assert draws[k + 1..][j - 1] == draws[k..][j];
        k := k + 1;
        position := CellOf(draws[k]);
      }
      assert draws[k..][0] == draws[k];
    }
  }
}
