/**
 * Keyboard handling: which event does what, the clamped speed counter, and
 * the effect of a batch of pending events on direction and speed.
 */
module Input {
  import opened Grid
  import opened Body

  /** The starting value of the speed counter (ticks per second). */
  const InitialSpeed: int := 5

  datatype Key = Escape | ArrowUp | ArrowDown | ArrowLeft | ArrowRight | KeypadPlus | KeypadMinus | OtherKey
  datatype Event = QuitEvent | KeyDown(key: Key) | OtherEvent

  /** What one event asks for. */
  datatype Action = Exit | Steer(toward: Vec) | Accelerate(amount: int) | NoAction

  function ActionOf(e: Event): (a: Action)
    ensures a.Exit? <==> e == QuitEvent || e == KeyDown(Escape)
    ensures a.Steer? <==> e.KeyDown? && e.key in {ArrowUp, ArrowDown, ArrowLeft, ArrowRight}
    ensures a.Steer? ==> IsUnit(a.toward)
    ensures a == Steer(Up) <==> e == KeyDown(ArrowUp)
    ensures a == Steer(Down) <==> e == KeyDown(ArrowDown)
    ensures a == Steer(Left) <==> e == KeyDown(ArrowLeft)
    ensures a == Steer(Right) <==> e == KeyDown(ArrowRight)
    ensures a.Accelerate? <==> e.KeyDown? && e.key in {KeypadPlus, KeypadMinus}
    ensures a.Accelerate? ==> a.amount == (if e.key == KeypadPlus then 1 else -1)
  {
    match e
    case QuitEvent => Exit
    case OtherEvent => NoAction
    case KeyDown(k) =>
      match k
      case Escape => Exit
      case ArrowUp => Steer(Up)
      case ArrowDown => Steer(Down)
      case ArrowLeft => Steer(Left)
      case ArrowRight => Steer(Right)
      case KeypadPlus => Accelerate(1)
      case KeypadMinus => Accelerate(-1)
      case OtherKey => NoAction
  }

  /** The speed after adding `amount`, never below 1. */
  function AdjustedSpeed(speed: int, amount: int): (r: int)
    ensures r >= 1 && r >= speed + amount
    ensures r == speed + amount || r == 1
  {
    if speed + amount < 1 then 1 else speed + amount
  }

  lemma SpeedFloor()
    ensures AdjustedSpeed(1, -1) == 1
    ensures AdjustedSpeed(InitialSpeed, 1) == 6
  {}

  /** The state the keyboard changes: the snake's direction and the game speed. */
  datatype Controls = Controls(direction: Vec, speed: int)

  /** The effect of one non-quit event. */
  function React(c: Controls, e: Event): (r: Controls)
    ensures !ActionOf(e).Steer? ==> r.direction == c.direction
    ensures ActionOf(e).Steer? ==> r.direction == Turned(c.direction, ActionOf(e).toward)
    ensures !ActionOf(e).Accelerate? ==> r.speed == c.speed
    ensures ActionOf(e).Accelerate? ==> r.speed == AdjustedSpeed(c.speed, ActionOf(e).amount)
  {
    match ActionOf(e)
    case Steer(d) => c.(direction := Turned(c.direction, d))
    case Accelerate(a) => c.(speed := AdjustedSpeed(c.speed, a))
    case _ => c
  }

  /** The effect of a batch of non-quit events, in order. */
  function ReactAll(c: Controls, es: seq<Event>): (r: Controls)
    ensures (forall i :: 0 <= i < |es| ==> !ActionOf(es[i]).Steer?) ==> r.direction == c.direction
    ensures (forall i :: 0 <= i < |es| ==> !ActionOf(es[i]).Accelerate?) ==> r.speed == c.speed
    decreases |es|
  {
    if es == [] then c else React(ReactAll(c, es[..|es| - 1]), es[|es| - 1])
  }

  /** Keyboard input keeps the direction a unit vector and the speed at least 1. */
  ghost predicate Sane(c: Controls) {
    IsUnit(c.direction) && c.speed >= 1
  }

  lemma {:induction false} ReactAllSane(c: Controls, es: seq<Event>)
    requires Sane(c)
    ensures Sane(ReactAll(c, es))
    decreases |es|
  {
    if es != [] {
      ReactAllSane(c, es[..|es| - 1]);
    }
  }

  /** No single event reverses the direction. */
  lemma ReactNeverReverses(c: Controls, e: Event)
    requires IsUnit(c.direction)
    ensures React(c, e).direction != Opposite(c.direction)
  {
    match ActionOf(e)
    case Steer(d) => TurnedUnits(c.direction, d);
    case _ =>
  }

  /**
   * The guard holds per event, not per tick: two turns handled before the
   * same move (up, then left) take a snake moving right to moving left.
   */
  lemma BatchCanReverse()
    ensures ReactAll(Controls(Right, InitialSpeed), [KeyDown(ArrowUp), KeyDown(ArrowLeft)]).direction == Left
  {
    var c := Controls(Right, InitialSpeed);
    var es := [KeyDown(ArrowUp), KeyDown(ArrowLeft)];
    assert es[..1] == [KeyDown(ArrowUp)] && es[..1][..0] == [];
    assert ReactAll(c, es[..1][..0]) == c;
    var up := ReactAll(c, es[..1]);
    assert up == React(c, KeyDown(ArrowUp));
    assert up.direction == Up;
    assert ReactAll(c, es) == React(up, KeyDown(ArrowLeft));
  }

  /** After such a reversal the next move puts the head on the body, which the tick treats as a collision. */
  lemma ReversalCollides()
    ensures var m := Moved([Pos(100, 0), Pos(80, 0), Pos(60, 0)], Left, 3); m[0] in m[1..]
  {
    var m := Moved([Pos(100, 0), Pos(80, 0), Pos(60, 0)], Left, 3);
    assert m[0] == Pos(80, 0) && m[2] == Pos(80, 0);
    assert m[1..][1] == m[2];
  }

  /** The events handled before the first quit request (all of them when there is none). */
  function Pending(es: seq<Event>): (r: seq<Event>)
    ensures r <= es
    ensures forall i :: 0 <= i < |r| ==> !ActionOf(r[i]).Exit?
    ensures |r| < |es| ==> ActionOf(es[|r|]).Exit?
  {
    if es == [] || ActionOf(es[0]).Exit? then [] else [es[0]] + Pending(es[1..])
  }
}
