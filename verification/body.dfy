/** The snake: its movement with toroidal wrap, its turns, growth and reset. */
module Body {
  import opened Grid

  function Min(a: int, b: int): int {
    if a <= b then a else b
  }

  /** Wrapping an aligned coordinate by a screen size that is a whole number of cells keeps it aligned. */
  lemma WrapAligned(a: int, n: int)
    requires n > 0 && n % GridSize == 0 && a % GridSize == 0
    ensures (a % n) % GridSize == 0
  {
    var q, r := a / n, a % n;
    var m, t := n / GridSize, a / GridSize;
    assert a == n * q + r;
    assert n == GridSize * m && a == GridSize * t;
    assert r == GridSize * (t - m * q);
  }

  /**
   * The cell one step from `head` in direction `d`, wrapped around the
   * screen edges (the screen sizes are positive, so `%` is the same
   * non-negative remainder the game uses).
   */
  function NextHead(head: Pos, d: Vec): (h: Pos)
    ensures 0 <= h.x < ScreenWidth && 0 <= h.y < ScreenHeight
    ensures IsCell(head) ==> IsCell(h)
  {
    var x, y := head.x + d.dx * GridSize, head.y + d.dy * GridSize;
    if IsCell(head) then
      assert x % GridSize == 0 && y % GridSize == 0;
      WrapAligned(x, ScreenWidth);
      WrapAligned(y, ScreenHeight);
      Pos(x % ScreenWidth, y % ScreenHeight)
    else
      Pos(x % ScreenWidth, y % ScreenHeight)
  }

  /**
   * From an on-screen head, a unit step that stays on screen is taken as
   * it is; a step off one edge re-enters at the opposite edge.
   */
  lemma NextHeadWraps(head: Pos, d: Vec)
    requires 0 <= head.x < ScreenWidth && 0 <= head.y < ScreenHeight && IsUnit(d)
    ensures var x, y := head.x + d.dx * GridSize, head.y + d.dy * GridSize;
      && NextHead(head, d).x == (if x < 0 then x + ScreenWidth else if x >= ScreenWidth then x - ScreenWidth else x)
      && NextHead(head, d).y == (if y < 0 then y + ScreenHeight else if y >= ScreenHeight then y - ScreenHeight else y)
  {}

  /**
   * The direction after a turn request: the request is taken only when
   * neither of its components is the negation of the current one.
   */
  function Turned(current: Vec, request: Vec): (r: Vec)
    ensures r == request || r == current
    ensures r == Opposite(current) ==> current == Vec(0, 0)
    ensures request.dx != -current.dx && request.dy != -current.dy ==> r == request
    ensures request.dx == -current.dx || request.dy == -current.dy ==> r == current
  {
    if request.dx != -current.dx && request.dy != -current.dy then request else current
  }

  /** Among the four unit directions a turn is taken exactly when it is at right angles. */
  lemma TurnedUnits(current: Vec, request: Vec)
    requires IsUnit(current) && IsUnit(request)
    ensures Perpendicular(current, request) ==> Turned(current, request) == request
    ensures !Perpendicular(current, request) ==> Turned(current, request) == current
    ensures Turned(current, request) != Opposite(current)
    ensures IsUnit(Turned(current, request))
  {
    if current == Up || current == Down {
      assert Perpendicular(current, request) <==> request.dy == 0;
    } else {
      assert Perpendicular(current, request) <==> request.dx == 0;
    }
  }

  /** Among the four unit directions every request but the opposite one ends up as the direction. */
  lemma TurnedAllButOpposite(current: Vec, request: Vec)
    requires IsUnit(current) && IsUnit(request)
    ensures request != Opposite(current) ==> Turned(current, request) == request
    ensures request == Opposite(current) ==> Turned(current, request) == current
  {}

  /**
   * The segments after one move: the new head in front of the old
   * segments, the last one dropped when the list would exceed `length`.
   */
  function Moved(positions: seq<Pos>, d: Vec, length: int): (r: seq<Pos>)
    requires |positions| > 0
    ensures |r| > 0 && r[0] == NextHead(positions[0], d)
    ensures r[1..] <= positions
    ensures |r| == if |positions| + 1 > length then |positions| else |positions| + 1
    ensures forall p :: p in r ==> p == r[0] || p in positions
    ensures |positions| <= length ==> |r| <= length
    ensures (forall i :: 0 <= i < |positions| ==> IsCell(positions[i])) ==>
              forall i :: 0 <= i < |r| ==> IsCell(r[i])
  {
    var grown := [NextHead(positions[0], d)] + positions;
    if |grown| > length then grown[..|grown| - 1] else grown
  }

  /** One move after growing keeps every old segment behind the new head. */
  lemma GrowKeepsSegments(positions: seq<Pos>, d: Vec, length: int)
    requires 0 < |positions| <= length
    ensures Moved(positions, d, length + 1) == [NextHead(positions[0], d)] + positions
  {}

  /** The segments after a move in each of the directions `ds`, in order. */
  function MoveAll(positions: seq<Pos>, length: int, ds: seq<Vec>): (r: seq<Pos>)
    requires |positions| > 0
    ensures |r| > 0
    decreases ds
  {
    if ds == [] then positions else MoveAll(Moved(positions, ds[0], length), length, ds[1..])
  }

  /**
   * The segment list grows by one per move until it reaches `length`, and
   * then stays at that length.
   */
  lemma {:induction false} LengthAfterMoves(positions: seq<Pos>, length: int, ds: seq<Vec>)
    requires 0 < |positions| <= length
    ensures |MoveAll(positions, length, ds)| == Min(|positions| + |ds|, length)
    decreases ds
  {
    if ds != [] {
      LengthAfterMoves(Moved(positions, ds[0], length), length, ds[1..]);
    }
  }

  /** A full snake that grows once is exactly one segment longer after any nonempty run of moves. */
  lemma GrowThenMoves(positions: seq<Pos>, length: int, ds: seq<Vec>)
    requires 0 < |positions| == length && |ds| > 0
    ensures |MoveAll(positions, length + 1, ds)| == |positions| + 1
  {
    LengthAfterMoves(positions, length + 1, ds);
  }

  /** The worked examples: a plain step right, and a step right off the right edge. */
  lemma MoveExamples()
    ensures Moved([Pos(300, 200)], Right, 1) == [Pos(320, 200)]
    ensures NextHead(Pos(620, 200), Right) == Pos(0, 200)
  {}

  class Snake {
    /** Segments, head first. */
    var positions: seq<Pos>
    var direction: Vec
    /** The length the segment list is trimmed to. */
    var length: int

    /** The segment list is nonempty, within `length`, and made of grid cells. */
    ghost predicate Valid()
      reads this`positions, this`length
    {
      0 < |positions| <= length &&
      forall i :: 0 <= i < |positions| ==> IsCell(positions[i])
    }

    constructor ()
      ensures Valid()
      ensures length == 1 && positions == [Center] && direction == Right
    {
      length := 1;
      positions := [Center];
      direction := Right;
    }

    /** Back to the initial state, whatever the state was. */
    method Reset()
      modifies this
      ensures Valid()
      ensures length == 1 && positions == [Center] && direction == Right
    {
      length := 1;
      positions := [Center];
      direction := Right;
    }

    method UpdateDirection(request: Vec)
      modifies this`direction
      ensures direction == Turned(old(direction), request)
    {
      if request.dx != -direction.dx && request.dy != -direction.dy {
        direction := request;
      }
    }

    method Move()
      requires Valid()
      modifies this`positions
      ensures Valid()
      ensures positions == Moved(old(positions), direction, length)
    {
      var next := NextHead(HeadPosition(), direction);
      positions := [next] + positions;
      if |positions| > length {
        positions := positions[..|positions| - 1];
      }
    }

    method Grow()
      modifies this`length
      ensures old(Valid()) ==> Valid()
      ensures length == old(length) + 1
    {
      length := length + 1;
    }

    function HeadPosition(): (h: Pos)
      requires Valid()
      reads this
      ensures h == positions[0] && IsCell(h)
    {
      positions[0]
    }
  }
}
