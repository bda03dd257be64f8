/**
 * The viewer of raycaster.py (class `Player`): a position in grid units, a
 * view angle in radians and a fixed field of vision.  Moves are
 * commit-or-nothing against the map; turns step a "normalized turns" counter
 * that wraps at 100.0, a bound the source uses as written.
 *
 * `cos(view_angle)` and `sin(view_angle)` enter as the direction values
 * `dx, dy`, and `2*pi` as the positive constant `twoPi`.
 */
module Viewer {
  import opened Numeric
  import opened Grid

  datatype Pose = Pose(x: real, y: real, viewAngle: real, fieldOfVision: real)

  /** The truncated position names an accessible cell of the layout. */
  predicate Standing(m: GameMap, x: real, y: real) {
    m.InRange(Trunc(x), Trunc(y)) && m.IsAccessible(Trunc(x), Trunc(y))
  }

  /** The cell a move by (ox, oy) would land in lies inside the layout. */
  predicate CanProbe(m: GameMap, p: Pose, ox: real, oy: real) {
    m.InRange(Trunc(p.x + ox), Trunc(p.y + oy))
  }

  /**
   * Either move: step by (ox, oy) and keep the new position only if its
   * truncated cell is accessible; the angles are never touched.
   */
  function MoveBy(m: GameMap, p: Pose, ox: real, oy: real): (r: Pose)
    requires CanProbe(m, p, ox, oy)
    ensures r.viewAngle == p.viewAngle && r.fieldOfVision == p.fieldOfVision
    ensures m.IsAccessible(Trunc(p.x + ox), Trunc(p.y + oy)) ==> r.x == p.x + ox && r.y == p.y + oy
    ensures !m.IsAccessible(Trunc(p.x + ox), Trunc(p.y + oy)) ==> r == p
    ensures r == p || Standing(m, r.x, r.y)
  {
    var newX := p.x + ox;
    var newY := p.y + oy;
    if m.IsAccessible(Trunc(newX), Trunc(newY)) then p.(x := newX, y := newY) else p
  }

  /** A viewer standing in an open cell still does after any move. */
  lemma MoveKeepsStanding(m: GameMap, p: Pose, ox: real, oy: real)
    requires CanProbe(m, p, ox, oy) && Standing(m, p.x, p.y)
    ensures Standing(m, MoveBy(m, p, ox, oy).x, MoveBy(m, p, ox, oy).y)
  {
  }

  /** One turn step, in full turns, and the wrap bound of the counter. */
  const TurnStep: real := 0.01
  const TurnWrap: real := 100.0

  function Abs(v: real): real {
    if v < 0.0 then -v else v
  }

  /**
   * `turn_right` on the normalized counter: one step up, wrapping past
   * 100.0 back to just above 0.0.
   */
  function TurnedRight(n: real): (r: real)
    ensures 0.0 <= n <= TurnWrap ==> 0.0 <= r <= TurnWrap
    ensures r == n + TurnStep <==> n + TurnStep <= TurnWrap
    ensures r == n + TurnStep - TurnWrap <==> n + TurnStep > TurnWrap
  {
    var next := n + TurnStep;
    if next > TurnWrap then 0.0 + (next - TurnWrap) else next
  }

  /**
   * `turn_left` on the normalized counter: one step down, wrapping below
   * 0.0 back to just under 100.0.
   */
  function TurnedLeft(n: real): (r: real)
    ensures 0.0 <= n <= TurnWrap ==> 0.0 <= r <= TurnWrap
    ensures r == n - TurnStep <==> n - TurnStep >= 0.0
    ensures r == n - TurnStep + TurnWrap <==> n - TurnStep < 0.0
  {
    var next := n - TurnStep;
    if next < 0.0 then TurnWrap - Abs(next) else next
  }

  /** A right turn undone by a left turn, wrap included, on [0, 100). */
  lemma RightThenLeft(n: real)
    requires 0.0 <= n < TurnWrap
    ensures TurnedLeft(TurnedRight(n)) == n
  {
  }

  /** A left turn undone by a right turn, wrap included, on (0, 100]. */
  lemma LeftThenRight(n: real)
    requires 0.0 < n <= TurnWrap
    ensures TurnedRight(TurnedLeft(n)) == n
  {
  }

  /** The ends of the range are the exceptions: 100.0 and 0.0 are not restored. */
  lemma WrapEnds()
    ensures TurnedLeft(TurnedRight(TurnWrap)) == 0.0
    ensures TurnedRight(TurnedLeft(0.0)) == TurnWrap
  {
  }

  /** The pose after `turn_right`: the angle is normalized, stepped, and scaled back. */
  function RightTurn(p: Pose, twoPi: real): (r: Pose)
    requires 0.0 < twoPi
    ensures r.x == p.x && r.y == p.y && r.fieldOfVision == p.fieldOfVision
    ensures r.viewAngle / twoPi == TurnedRight(p.viewAngle / twoPi)
  {
    var n := TurnedRight(p.viewAngle / twoPi);
    ScaleRoundTrip(n, twoPi);
    p.(viewAngle := n * twoPi)
  }

  /** The pose after `turn_left`. */
  function LeftTurn(p: Pose, twoPi: real): (r: Pose)
    requires 0.0 < twoPi
    ensures r.x == p.x && r.y == p.y && r.fieldOfVision == p.fieldOfVision
    ensures r.viewAngle / twoPi == TurnedLeft(p.viewAngle / twoPi)
  {
    var n := TurnedLeft(p.viewAngle / twoPi);
    ScaleRoundTrip(n, twoPi);
    p.(viewAngle := n * twoPi)
  }

  lemma ScaleRoundTrip(n: real, t: real)
    requires 0.0 < t
    ensures (n * t) / t == n
  {
  }

  lemma UnscaleRoundTrip(a: real, t: real)
    requires 0.0 < t
    ensures (a / t) * t == a
  {
  }

  /**
   * Turning right then left puts the view angle back exactly whenever its
   * normalized value lies in [0, 100), across the wrap too.
   */
  lemma TurnRoundTrip(p: Pose, twoPi: real)
    requires 0.0 < twoPi && 0.0 <= p.viewAngle / twoPi < TurnWrap
    ensures LeftTurn(RightTurn(p, twoPi), twoPi) == p
  {
    var n := p.viewAngle / twoPi;
    RightThenLeft(n);
    var q := LeftTurn(RightTurn(p, twoPi), twoPi);
    assert q.viewAngle / twoPi == n;
    UnscaleRoundTrip(q.viewAngle, twoPi);
    UnscaleRoundTrip(p.viewAngle, twoPi);
  }

  /** The discrete commands a viewer obeys. */
  datatype Command = Forward | Backward | TurnLeft | TurnRight

  /**
   * One command applied to a pose; `cos` and `sin` give the direction of the
   * current view angle.
   */
  function Perform(m: GameMap, p: Pose, c: Command, cos: real -> real, sin: real -> real, twoPi: real): (r: Pose)
    requires 0.0 < twoPi && Probes(m, p, c, cos, sin)
    ensures r.fieldOfVision == p.fieldOfVision
    ensures c.TurnLeft? || c.TurnRight? ==> r.x == p.x && r.y == p.y
    ensures c.Forward? || c.Backward? ==> r.viewAngle == p.viewAngle
  {
    match c
    case Forward => MoveBy(m, p, cos(p.viewAngle), sin(p.viewAngle))
    case Backward => MoveBy(m, p, -cos(p.viewAngle), -sin(p.viewAngle))
    case TurnLeft => LeftTurn(p, twoPi)
    case TurnRight => RightTurn(p, twoPi)
  }

  /** A move's target cell lies inside the layout (turns probe nothing). */
  predicate Probes(m: GameMap, p: Pose, c: Command, cos: real -> real, sin: real -> real) {
    match c
    case Forward => CanProbe(m, p, cos(p.viewAngle), sin(p.viewAngle))
    case Backward => CanProbe(m, p, -cos(p.viewAngle), -sin(p.viewAngle))
    case _ => true
  }

  /** Every command of the sequence probes inside the layout when its turn comes. */
  predicate SafeRun(m: GameMap, p: Pose, cs: seq<Command>, cos: real -> real, sin: real -> real, twoPi: real)
    requires 0.0 < twoPi
    decreases |cs|
  {
    cs == [] || (Probes(m, p, cs[0], cos, sin) && SafeRun(m, Perform(m, p, cs[0], cos, sin, twoPi), cs[1..], cos, sin, twoPi))
  }

  /** `handle_key_press` once per frame of the event loop, for each command in turn. */
  function Run(m: GameMap, p: Pose, cs: seq<Command>, cos: real -> real, sin: real -> real, twoPi: real): (r: Pose)
    requires 0.0 < twoPi && SafeRun(m, p, cs, cos, sin, twoPi)
    ensures (forall j :: 0 <= j < |cs| ==> cs[j].TurnLeft? || cs[j].TurnRight?) ==> r.x == p.x && r.y == p.y
    decreases |cs|
  {
    if cs == [] then p else Run(m, Perform(m, p, cs[0], cos, sin, twoPi), cs[1..], cos, sin, twoPi)
  }

  /**
   * A viewer that starts in an open cell is in an open cell after every
   * sequence of commands, and its field of vision never changes.
   */
  lemma {:induction false} RunKeepsStanding(m: GameMap, p: Pose, cs: seq<Command>,
                                            cos: real -> real, sin: real -> real, twoPi: real)
    requires 0.0 < twoPi && SafeRun(m, p, cs, cos, sin, twoPi) && Standing(m, p.x, p.y)
    ensures Standing(m, Run(m, p, cs, cos, sin, twoPi).x, Run(m, p, cs, cos, sin, twoPi).y)
    ensures Run(m, p, cs, cos, sin, twoPi).fieldOfVision == p.fieldOfVision
    decreases |cs|
  {
    if cs != [] {
      var q := Perform(m, p, cs[0], cos, sin, twoPi);
      assert Standing(m, q.x, q.y) && q.fieldOfVision == p.fieldOfVision;
      RunKeepsStanding(m, q, cs[1..], cos, sin, twoPi);
    }
  }

  /** The viewer object; its methods update the fields in place. */
  class Player {
    var x: real
    var y: real
    var viewAngle: real
    var fieldOfVision: real

    function State(): Pose
      reads this
    {
      Pose(x, y, viewAngle, fieldOfVision)
    }

    constructor (x0: real, y0: real, angle: real, fov: real)
      ensures State() == Pose(x0, y0, angle, fov)
    {
      x, y, viewAngle, fieldOfVision := x0, y0, angle, fov;
    }

    /** `move_forward`, with (dx, dy) = (cos, sin) of the view angle. */
    method MoveForward(m: GameMap, dx: real, dy: real)
      requires CanProbe(m, State(), dx, dy)
      modifies this
      ensures State() == MoveBy(m, old(State()), dx, dy)
    {
      var newX := x + 1.0 * dx;
      var newY := y + 1.0 * dy;
      if m.IsAccessible(Trunc(newX), Trunc(newY)) {
        x := newX;
        y := newY;
      }
    }

    /** `move_backward`, with (dx, dy) = (cos, sin) of the view angle. */
    method MoveBackward(m: GameMap, dx: real, dy: real)
      requires CanProbe(m, State(), -dx, -dy)
      modifies this
      ensures State() == MoveBy(m, old(State()), -dx, -dy)
    {
      var newX := x - 1.0 * dx;
      var newY := y - 1.0 * dy;
      assert newX == x + -dx && newY == y + -dy;
      if m.IsAccessible(Trunc(newX), Trunc(newY)) {
        x := newX;
        y := newY;
      }
    }

    /** `turn_right`. */
    method TurnRight(twoPi: real)
      requires 0.0 < twoPi
      modifies this
      ensures State() == RightTurn(old(State()), twoPi)
    {
      var normalized := viewAngle / twoPi;
      var next := normalized + 0.01;
      if next > 100.0 {
        next := 0.0 + (next - 100.0);
      }
      viewAngle := next * twoPi;
    }

    /** `turn_left`. */
    method TurnLeft(twoPi: real)
      requires 0.0 < twoPi
      modifies this
      ensures State() == LeftTurn(old(State()), twoPi)
    {
      var normalized := viewAngle / twoPi;
      var next := normalized - 0.01;
      if next < 0.0 {
        next := 100.0 - Abs(next);
      }
      viewAngle := next * twoPi;
    }
  }
}
