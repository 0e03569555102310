/**
 * The player: a square bird at a fixed horizontal position that falls under
 * constant gravity and can flap. Its position and velocity are multiples of
 * 0.5 pixel, so exact reals model them without rounding.
 */
module Bird {
  import Canvas

  const X: int := 50
  const Width: int := 30
  const Height: int := 30
  const Gravity: real := 0.5
  const Jump: real := 10.0
  /** The starting height, half the canvas height. */
  const StartY: real := (Canvas.Height / 2) as real

  /** The bird's new position and velocity after an update, and whether the game still runs. */
  datatype Step = Step(y: real, velocity: real, running: bool)

  /** The bird's bottom edge has reached the bottom of the canvas. */
  predicate Grounded(y: real)
  {
    y + Height as real >= Canvas.Height as real
  }

  /**
   * One call of `bird.update`: semi-implicit Euler (velocity first, then
   * position with the new velocity), the ground ends the game, the ceiling
   * only stops the bird. Nothing happens while the game is not running.
   */
  function Update(y: real, velocity: real, running: bool): (r: Step)
    ensures !running ==> r == Step(y, velocity, false)
    ensures running ==> (r.running <==> !Grounded(y + velocity + Gravity))
    ensures running ==> 0.0 <= r.y
    ensures running && 0.0 < r.y ==> r.velocity == velocity + Gravity && r.y == y + r.velocity
    ensures running && y + velocity + Gravity <= 0.0 ==> r.y == 0.0 && r.velocity == 0.0 && r.running
  {
    if !running then Step(y, velocity, running)
    else
      var v := velocity + Gravity;
      var y' := y + v;
      var stillRunning := !Grounded(y');
      if y' <= 0.0 then Step(0.0, 0.0, stillRunning) else Step(y', v, stillRunning)
  }

  /** The bird after `n` updates of a running game with no flap in between. */
  function Fall(y: real, velocity: real, n: nat): Step
  {
    if n == 0 then Step(y, velocity, true)
    else
      var s := Fall(y, velocity, n - 1);
      Update(s.y, s.velocity, s.running)
  }

  /** Where free fall from `(y, velocity)` puts the bird after `n` ticks. */
  function FallHeight(y: real, velocity: real, n: nat): real
  {
    var k := n as real;
    y + k * velocity + k * (k + 1.0) * Gravity / 2.0
  }

  /**
   * Integration is deterministic: while the free-fall path stays strictly
   * between the ceiling and the ground (an arc after a flap included), each
   * tick adds `Gravity` to the velocity and the position is the sum of the
   * successive velocities.
   */
  lemma {:induction false} FallClosedForm(y: real, velocity: real, n: nat)
    requires forall i: nat :: 1 <= i <= n ==>
               0.0 < FallHeight(y, velocity, i) && !Grounded(FallHeight(y, velocity, i))
    ensures Fall(y, velocity, n) == Step(FallHeight(y, velocity, n), velocity + n as real * Gravity, true)
  {
    if n > 0 {
      var k := n as real;
      var before := FallHeight(y, velocity, n - 1);
      assert FallHeight(y, velocity, n) == before + velocity + k * Gravity by {
        assert (k - 1.0) * velocity == k * velocity - velocity;
        assert (k - 1.0) * k == k * k - k;
        assert k * (k + 1.0) == k * k + k;
      }
      assert 0.0 < FallHeight(y, velocity, n) && !Grounded(FallHeight(y, velocity, n));
      FallClosedForm(y, velocity, n - 1);
    }
  }
}
