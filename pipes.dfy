/**
 * The obstacles: a pipe pair with a fixed 150-pixel gap, spawned at the right
 * edge of the canvas and moved left by 2 pixels on every update.
 */
module Pipes {
  import Canvas
  import Bird

  const Width: int := 60
  const Gap: int := 150
  const Speed: int := 2
  /** The least top-segment height, and the spread above it a random draw can add. */
  const MinTop: int := 50
  const TopRange: int := Canvas.Height - Gap - 100

  /** A value of `Math.random()`. */
  type Draw = r: real | 0.0 <= r < 1.0

  /**
   * One pipe pair: its left edge `x`, the height of the top segment, where the
   * bottom segment starts, and whether the bird has passed it.
   */
  datatype Pipe = Pipe(x: int, topHeight: int, bottomY: int, passed: bool)

  /** What every pipe of a game satisfies. */
  predicate WellFormed(p: Pipe)
  {
    p.x <= Canvas.Width &&
    MinTop <= p.topHeight < MinTop + TopRange &&
    p.bottomY == p.topHeight + Gap
  }

  /** The `Pipe` constructor, given the random draw it makes. */
  function NewPipe(r: Draw): (p: Pipe)
    ensures WellFormed(p) && p.x == Canvas.Width && !p.passed
    ensures 50 <= p.topHeight <= 399 && p.bottomY <= 549
  {
    var top := (r * TopRange as real).Floor + MinTop;
    Pipe(Canvas.Width, top, top + Gap, false)
  }

  /** Every top height in the range is produced by some draw, so the bounds above are tight. */
  lemma NewPipeCoversRange(top: int)
    requires MinTop <= top < MinTop + TopRange
    ensures exists r: Draw :: NewPipe(r).topHeight == top
  {
    var r: Draw := (top - MinTop) as real / TopRange as real;
    assert r * TopRange as real == (top - MinTop) as real;
    assert NewPipe(r).topHeight == top;
  }

  /** The bird and the pipe overlap horizontally. */
  predicate Overlaps(p: Pipe)
  {
    Bird.X + Bird.Width > p.x && Bird.X < p.x + Width
  }

  /** The bird at height `birdY` reaches into the top or the bottom segment's rows. */
  predicate OutsideGap(p: Pipe, birdY: real)
  {
    birdY < p.topHeight as real || birdY + Bird.Height as real > p.bottomY as real
  }

  /** An axis-aligned rectangle on the canvas, y growing downwards. */
  datatype Box = Box(left: real, top: real, right: real, bottom: real)

  /** Two rectangles share interior points. */
  predicate Intersect(a: Box, b: Box)
  {
    a.left < b.right && b.left < a.right && a.top < b.bottom && b.top < a.bottom
  }

  function BirdBox(birdY: real): Box
  {
    Box(Bird.X as real, birdY, (Bird.X + Bird.Width) as real, birdY + Bird.Height as real)
  }

  /** The top segment spans from the top of the canvas down to `topHeight`. */
  function TopBox(p: Pipe): Box
  {
    Box(p.x as real, 0.0, (p.x + Width) as real, p.topHeight as real)
  }

  /** The bottom segment spans from `bottomY` down to the bottom of the canvas. */
  function BottomBox(p: Pipe): Box
  {
    Box(p.x as real, p.bottomY as real, (p.x + Width) as real, Canvas.Height as real)
  }

  /**
   * The collision test of `Pipe.update`. For a bird that is partly on the
   * canvas, it holds exactly when the bird's box meets one of the two segments.
   */
  predicate Collides(p: Pipe, birdY: real)
    ensures -(Bird.Height as real) < birdY < Canvas.Height as real ==>
              (Collides(p, birdY) <==>
                 Intersect(BirdBox(birdY), TopBox(p)) || Intersect(BirdBox(birdY), BottomBox(p)))
  {
    Overlaps(p) && OutsideGap(p, birdY)
  }

  /** The pipe's right edge is left of the bird's left edge. */
  predicate Cleared(p: Pipe)
  {
    p.x + Width < Bird.X
  }

  /** The pipe's right edge is left of the canvas. */
  predicate OffScreen(p: Pipe)
  {
    p.x + Width < 0
  }

  /** A pipe after its update, with the game's running flag and score after it. */
  datatype Outcome = Outcome(pipe: Pipe, running: bool, score: nat)

  /**
   * `Pipe.update`: move left, end the game on a collision, and score the
   * first time the pipe is cleared. Nothing happens while the game is not running.
   */
  function Update(p: Pipe, birdY: real, running: bool, score: nat): (o: Outcome)
    ensures !running ==> o == Outcome(p, false, score)
    ensures running ==> o.pipe == p.(x := p.x - Speed, passed := o.pipe.passed)
    ensures running ==> (o.running <==> !Collides(o.pipe, birdY))
    ensures o.running ==> running
    ensures p.passed ==> o.pipe.passed
    ensures o.score == if !p.passed && o.pipe.passed then score + 1 else score
    ensures running && !p.passed ==> (o.pipe.passed <==> Cleared(o.pipe))
    // collision and scoring never happen in the same update
    ensures running && !o.running ==> o.score == score
  {
    if !running then Outcome(p, running, score)
    else
      var moved := p.(x := p.x - Speed);
      var hit := Collides(moved, birdY);
      if Cleared(moved) && !moved.passed then
        Outcome(moved.(passed := true), !hit, score + 1)
      else
        Outcome(moved, !hit, score)
  }

  /** A pipe the bird has cleared cannot also touch it: the two tests exclude each other. */
  lemma ClearedNeverCollides(p: Pipe, birdY: real)
    ensures Cleared(p) ==> !Collides(p, birdY)
    ensures Overlaps(p) ==> !Cleared(p) && !OffScreen(p)
  {
  }
}
