/**
 * The game loop's state (the snake, the apple, the score and the speed
 * counter) and what one round of keyboard handling and one tick do to it.
 */
module GameLoop {
  import opened Grid
  import opened Body
  import opened Food
  import opened Input

  /** The events in `es` up to the first quit request are exactly `es[..i]`. */
  lemma PendingUpTo(es: seq<Event>, i: nat)
    requires i <= |es|
    requires forall m :: 0 <= m < i ==> !ActionOf(es[m]).Exit?
    requires i == |es| || ActionOf(es[i]).Exit?
    ensures Pending(es) == es[..i]
  {
    var r := Pending(es);
    assert forall m :: 0 <= m < |r| ==> r[m] == es[m];
  }

  /** A tick's move leaves the apple off the body unless the new head is on it. */
  lemma MoveAvoidsApple(positions: seq<Pos>, d: Vec, length: int, apple: Pos)
    requires |positions| > 0 && apple !in positions
    requires NextHead(positions[0], d) != apple
    ensures apple !in Moved(positions, d, length)
  {}

  /** `a` is one wrapped unit step away from `b`. */
  predicate Adjacent(a: Pos, b: Pos) {
    a == NextHead(b, Up) || a == NextHead(b, Down) || a == NextHead(b, Left) || a == NextHead(b, Right)
  }

  /** The body never jumps: each segment is one step from the one behind it. */
  ghost predicate Connected(ps: seq<Pos>) {
    forall i :: 0 <= i < |ps| - 1 ==> Adjacent(ps[i], ps[i + 1])
  }

  /** No cell is occupied twice. */
  ghost predicate Distinct(ps: seq<Pos>) {
    forall i, j :: 0 <= i < j < |ps| ==> ps[i] != ps[j]
  }

  /**
   * A unit move keeps the body connected, and keeps it free of repeated
   * cells when the new head lands off the rest of the body.
   */
  lemma MovedShape(positions: seq<Pos>, d: Vec, length: int)
    requires |positions| > 0 && IsUnit(d)
    ensures Connected(positions) ==> Connected(Moved(positions, d, length))
    ensures var m := Moved(positions, d, length);
      Distinct(positions) && m[0] !in m[1..] ==> Distinct(m)
  {
    var m := Moved(positions, d, length);
    assert forall i :: 0 <= i < |m| - 1 ==> m[i + 1] == positions[i];
    if Connected(positions) {
      assert Adjacent(m[0], positions[0]);
      forall i | 0 <= i < |m| - 1 ensures Adjacent(m[i], m[i + 1]) {
        if i > 0 { assert m[i] == positions[i - 1]; }
      }
    }
    if Distinct(positions) && m[0] !in m[1..] {
      forall i, j | 0 <= i < j < |m| ensures m[i] != m[j] {
        if i == 0 {
          assert m[j] == m[1..][j - 1];
        } else {
          assert m[i] == positions[i - 1] && m[j] == positions[j - 1];
        }
      }
    }
  }

  class Game {
    const snake: Snake
    const apple: Apple
    /** Apples eaten since the last self-collision. */
    var score: int
    /** Ticks per second; changed by the keypad plus and minus keys. */
    var speed: int

    ghost predicate Valid()
      reads this, snake, apple
    {
      snake.Valid() && IsUnit(snake.direction) && speed >= 1 && score >= 0 &&
      IsCell(apple.position) && apple.position !in snake.positions &&
      Connected(snake.positions) && Distinct(snake.positions)
    }

    ghost function ControlState(): Controls
      reads this, snake
    {
      Controls(snake.direction, speed)
    }

    /** A new snake at the center, an apple on a free cell, score zero. */
    constructor (draws: seq<GridIndex>)
      requires HasFreeDraw(draws, [Center])
      ensures Valid()
      ensures fresh(snake) && fresh(apple)
      ensures snake.positions == [Center] && snake.length == 1 && snake.direction == Right
      ensures apple.position == Placed(draws, [Center])
      ensures score == 0 && speed == InitialSpeed
    {
      var s := new Snake();
      var a := new Apple(s.positions, draws);
      snake, apple := s, a;
      score := 0;
      speed := InitialSpeed;
    }

    method ChangeSpeed(amount: int)
      modifies this`speed
      ensures speed == AdjustedSpeed(old(speed), amount)
    {
      speed := speed + amount;
      if speed < 1 {
        speed := 1;
      }
    }

    /** Handles one event that is not a quit request. */
    method HandleEvent(e: Event)
      requires Valid() && !ActionOf(e).Exit?
      modifies this`speed, snake`direction
      ensures Valid()
      ensures ControlState() == React(old(ControlState()), e)
    {
      var action := ActionOf(e);
      if action.Steer? {
        snake.UpdateDirection(action.toward);
      } else if action.Accelerate? {
        ChangeSpeed(action.amount);
      }
    }

    /**
     * Handles a batch of events in order; stops at the first quit request
     * and reports it.
     */
    method HandleKeys(events: seq<Event>) returns (quit: bool)
      requires Valid()
      modifies this`speed, snake`direction
      ensures Valid()
      ensures quit <==> |Pending(events)| < |events|
      ensures ControlState() == ReactAll(old(ControlState()), Pending(events))
    {
      ghost var start := ControlState();
      var i := 0;
      while i < |events|
        invariant 0 <= i <= |events|
        invariant forall m :: 0 <= m < i ==> !ActionOf(events[m]).Exit?
        invariant Valid()
        invariant ControlState() == ReactAll(start, events[..i])
      {
        if ActionOf(events[i]).Exit? {
          PendingUpTo(events, i);
          return true;
        }
        assert events[..i + 1][..i] == events[..i];
        HandleEvent(events[i]);
        i := i + 1;
      }
      PendingUpTo(events, i);
      assert events[..i] == events;
      quit := false;
    }

    /**
     * One tick: move, then eat the apple (grow, score, re-place the apple)
     * or, when the head ran into the body, start over.
     */
    method Tick(draws: seq<GridIndex>)
      requires Valid()
      requires var moved := Moved(snake.positions, snake.direction, snake.length);
        (moved[0] == apple.position ==> HasFreeDraw(draws, moved)) &&
        (moved[0] != apple.position && moved[0] in moved[1..] ==> HasFreeDraw(draws, [Center]))
      modifies this`score, snake, apple
      ensures Valid()
      ensures speed == old(speed)
      ensures var moved := Moved(old(snake.positions), old(snake.direction), old(snake.length));
        if moved[0] == old(apple.position) then
          && snake.positions == moved && snake.direction == old(snake.direction)
          && snake.length == old(snake.length) + 1
          && score == old(score) + 1
          && apple.position == Placed(draws, moved)
        else if moved[0] in moved[1..] then
          && snake.positions == [Center] && snake.direction == Right && snake.length == 1
          && score == 0
          && apple.position == Placed(draws, [Center])
        else
          && snake.positions == moved && snake.direction == old(snake.direction)
          && snake.length == old(snake.length)
          && score == old(score)
          && apple.position == old(apple.position)
    {
      ghost var old_positions := snake.positions;
      MovedShape(snake.positions, snake.direction, snake.length);
      snake.Move();
      var head := snake.HeadPosition();
      if head == apple.position {
        snake.Grow();
        apple.RandomizePosition(snake.positions, draws);
        score := score + 1;
      } else if head in snake.positions[1..] {
        snake.Reset();
        score := 0;
        apple.RandomizePosition(snake.positions, draws);
      } else {
        MoveAvoidsApple(old_positions, snake.direction, snake.length, apple.position);
      }
    }
  }
}
