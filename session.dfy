/**
 * The game session: the globals `gameRunning`, `score` and `frames`, the bird's
 * mutable fields and the `pipes` array, the tick `animate`, `startGame`,
 * `gameOver` and the Space-key handler. The functions on `State` specify the
 * methods of class `Game`, which update the fields in place as the source does.
 */
module Session {
  import Canvas
  import Bird
  import Pipes
  import Track

  type Pipe = Pipes.Pipe

  /** A new pipe is spawned on every tick whose frame count is a multiple of this. */
  const SpawnInterval: nat := 100

  datatype State = State(y: real, velocity: real, running: bool, score: nat, frames: nat, pipes: seq<Pipe>)

  /** The state when the page loads: no game yet. */
  const Initial: State := State(Bird.StartY, 0.0, false, 0, 0, [])

  /** `startGame` before its call to `animate`: a fresh running session. */
  const Started: State := State(Bird.StartY, 0.0, true, 0, 0, [])

  /** What holds of the state between ticks and events. */
  predicate Valid(s: State)
  {
    0.0 <= s.y &&
    (s.running ==> !Bird.Grounded(s.y)) &&
    (forall p :: p in s.pipes ==> Pipes.WellFormed(p) && !Pipes.OffScreen(p)) &&
    (s.running ==> Track.Sorted(s.pipes) && forall p :: p in s.pipes ==> p.x < Canvas.Width) &&
    Track.CountPassed(s.pipes) <= s.score
  }

  /** `bird.update` on the whole state. */
  function BirdStep(s: State): (t: State)
    ensures t.score == s.score && t.frames == s.frames && t.pipes == s.pipes
    ensures !s.running ==> t == s
    ensures s.running ==> 0.0 <= t.y && (t.running <==> !Bird.Grounded(s.y + s.velocity + Bird.Gravity))
    ensures s.running && 0.0 < t.y ==> t.velocity == s.velocity + Bird.Gravity && t.y == s.y + t.velocity
    ensures s.running && s.y + s.velocity + Bird.Gravity <= 0.0 ==> t.y == 0.0 && t.velocity == 0.0
  {
    var b := Bird.Update(s.y, s.velocity, s.running);
    s.(y := b.y, velocity := b.velocity, running := b.running)
  }

  /** The spawn condition of `animate`, tested after the bird's update. */
  predicate Spawns(s: State)
  {
    s.running && s.frames % SpawnInterval == 0
  }

  /** The pipes after the spawn step of `animate`. */
  function Spawned(s: State, r: Pipes.Draw): (ps: seq<Pipe>)
    ensures |ps| == |s.pipes| + (if Spawns(s) then 1 else 0)
    ensures ps[..|s.pipes|] == s.pipes
    ensures Spawns(s) ==> ps[|s.pipes|] == Pipes.NewPipe(r)
  {
    if Spawns(s) then s.pipes + [Pipes.NewPipe(r)] else s.pipes
  }

  /** One call of `animate`: bird, spawn, pipe loop, frame counter. */
  function TickSpec(s: State, r: Pipes.Draw): (s': State)
    ensures s'.frames == s.frames + 1
    ensures s.score <= s'.score
    ensures s'.running ==> s.running
    ensures forall p :: p in s'.pipes ==> !Pipes.OffScreen(p)
  {
    var b := BirdStep(s);
    var t := Track.Sweep(Spawned(b, r), b.y, b.running, b.score);
    Track.SweepRemovesOffScreen(Spawned(b, r), b.y, b.running, b.score);
    b.(pipes := t.kept, running := t.running, score := t.score, frames := b.frames + 1)
  }

  /**
   * The first tick of a fresh session: the bird drops half a pixel, a pipe is
   * spawned from the draw and moved once, and nothing collides or scores.
   */
  lemma FirstTick(r: Pipes.Draw)
    ensures TickSpec(Started, r) == State(Bird.StartY + 0.5, 0.5, true, 0, 1,
                                          [Pipes.NewPipe(r).(x := Canvas.Width - Pipes.Speed)])
  {
    var b := BirdStep(Started);
    assert b == Started.(y := Bird.StartY + 0.5, velocity := 0.5);
    var p := Pipes.NewPipe(r);
    assert Spawned(b, r) == [p];
    assert [p][..0] == [];
    var o := Pipes.Update(p, b.y, true, 0);
    assert !Pipes.Collides(o.pipe, b.y);
    assert o == Pipes.Outcome(p.(x := Canvas.Width - Pipes.Speed), true, 0);
    assert Track.Sweep([p], b.y, true, 0) == Track.Scan([o.pipe], [o.pipe], true, 0);
  }

  /**
   * The Space key: while running it is a flap, which changes only the velocity.
   * Otherwise it starts a game from scratch, whatever came before, and the
   * game runs its first tick.
   */
  function SpaceSpec(s: State, r: Pipes.Draw): (t: State)
    ensures t.running
    ensures s.running ==> t == s.(velocity := -Bird.Jump)
    ensures !s.running ==> t == State(Bird.StartY + 0.5, 0.5, true, 0, 1,
                                      [Pipes.NewPipe(r).(x := Canvas.Width - Pipes.Speed)])
  {
    FirstTick(r);
    if s.running then s.(velocity := -Bird.Jump) else TickSpec(Started, r)
  }

  /** Once the game is over a tick changes nothing but the frame counter. */
  lemma TickFrozenWhenStopped(s: State, r: Pipes.Draw)
    requires Valid(s) && !s.running
    ensures TickSpec(s, r) == s.(frames := s.frames + 1)
  {
    Track.SweepStopped(s.pipes, s.y, s.score);
    Track.OnScreenIdentity(s.pipes);
  }

  /**
   * At most one pipe spawns per tick, only when the cadence and the running flag
   * allow it, and then it is the newest pipe: the one built from the draw, updated
   * once in the state the older pipes left (moved to 398 unless an older pipe
   * ended the game first), never passed.
   */
  lemma TickSpawnsOnCadence(s: State, r: Pipes.Draw)
    ensures var b := BirdStep(s);
            var s' := TickSpec(s, r);
            |s'.pipes| <= |s.pipes| + 1 &&
            (Spawns(b) ==>
               s'.pipes != [] &&
               var q := s'.pipes[|s'.pipes| - 1];
               var before := Track.Sweep(s.pipes, b.y, b.running, b.score);
               var p := Pipes.NewPipe(r);
               q == Pipes.Update(p, b.y, before.running, before.score).pipe &&
               q.topHeight == p.topHeight && q.bottomY == p.bottomY && !q.passed &&
               (q.x == Canvas.Width - Pipes.Speed || q.x == Canvas.Width)) &&
            (!Spawns(b) ==> |s'.pipes| <= |s.pipes|)
  {
    var b := BirdStep(s);
    var ps := Spawned(b, r);
    var t := Track.Sweep(ps, b.y, b.running, b.score);
    Track.SweepRemovesOffScreen(ps, b.y, b.running, b.score);
    if Spawns(b) {
      var n := |ps| - 1;
      Track.SweepVisitsEachOnce(ps, b.y, b.running, b.score, n);
      var v := t.visited[n];
      assert ps[n] == Pipes.NewPipe(r);
      assert ps[..n] == s.pipes;
      assert !Pipes.Cleared(v);
      assert !Pipes.OffScreen(v);
      assert t.visited == t.visited[..n] + [v];
      assert ps == ps[..n] + [ps[n]];
    }
  }

  /** A running game ends in a tick only by the bird reaching the ground or colliding with a pipe. */
  lemma TickEndsOnlyByGroundOrPipe(s: State, r: Pipes.Draw)
    requires s.running && !TickSpec(s, r).running
    ensures var b := BirdStep(s);
            Bird.Grounded(s.y + s.velocity + Bird.Gravity) ||
            exists p :: p in Track.Sweep(Spawned(b, r), b.y, true, b.score).visited && Pipes.Collides(p, b.y)
  {
    var b := BirdStep(s);
    if b.running {
      Track.SweepStopsOnlyOnCollision(Spawned(b, r), b.y, b.score);
    }
  }

  /** The bird's update keeps the bird below the ceiling and, while running, above the ground. */
  lemma BirdStepKeepsBounds(s: State)
    requires Valid(s)
    ensures var b := BirdStep(s);
            0.0 <= b.y && (b.running ==> !Bird.Grounded(b.y))
  {
  }

  /** The pipes the loop starts from: bounded, with the new pipe right of every older one. */
  lemma SpawnedKeepsBounds(s: State, b: State, r: Pipes.Draw)
    requires Valid(s) && b == BirdStep(s)
    ensures var ps := Spawned(b, r);
            (forall p :: p in ps ==> Pipes.WellFormed(p)) &&
            Track.CountPassed(ps) <= b.score &&
            (b.running ==> Track.Sorted(ps))
  {
    var ps := Spawned(b, r);
    if Spawns(b) {
      assert ps[..|ps| - 1] == s.pipes;
    }
  }

  /** The pipe loop leaves only well-formed pipes on the canvas. */
  lemma SweepKeepsWellFormed(ps: seq<Pipe>, y: real, running: bool, score: nat)
    requires forall p :: p in ps ==> Pipes.WellFormed(p)
    ensures forall p :: p in Track.Sweep(ps, y, running, score).kept ==>
              Pipes.WellFormed(p) && !Pipes.OffScreen(p)
  {
    var t := Track.Sweep(ps, y, running, score);
    Track.SweepRemovesOffScreen(ps, y, running, score);
    Track.SweepScoresEachPipeOnce(ps, y, running, score);
    forall p | p in t.visited ensures Pipes.WellFormed(p) {
      var j :| 0 <= j < |t.visited| && t.visited[j] == p;
      assert Pipes.WellFormed(ps[j]);
    }
  }

  /** Every passed pipe that stays after the loop has been counted in the score. */
  lemma SweepKeepsCount(ps: seq<Pipe>, y: real, running: bool, score: nat)
    requires Track.CountPassed(ps) <= score
    ensures var t := Track.Sweep(ps, y, running, score);
            Track.CountPassed(t.kept) <= t.score
  {
    var t := Track.Sweep(ps, y, running, score);
    Track.SweepRemovesOffScreen(ps, y, running, score);
    Track.SweepScoresEachPipeOnce(ps, y, running, score);
    Track.OnScreenCountPassed(t.visited);
  }

  /** While the game runs, the loop keeps the pipes in screen order and left of the spawn point. */
  lemma SweepKeepsOrder(ps: seq<Pipe>, y: real, running: bool, score: nat)
    requires forall p :: p in ps ==> Pipes.WellFormed(p)
    requires running ==> Track.Sorted(ps)
    ensures var t := Track.Sweep(ps, y, running, score);
            t.running ==> Track.Sorted(t.kept) && forall p :: p in t.kept ==> p.x < Canvas.Width
  {
    var t := Track.Sweep(ps, y, running, score);
    if t.running {
      Track.SweepRemovesOffScreen(ps, y, running, score);
      Track.SweepMovesAllWhileRunning(ps, y, running, score);
      assert Track.Sorted(t.visited) by {
        forall i, j | 0 <= i < j < |t.visited| ensures t.visited[i].x < t.visited[j].x {
          assert ps[i].x < ps[j].x;
        }
      }
      forall p | p in t.visited ensures p.x < Canvas.Width {
        var j :| 0 <= j < |t.visited| && t.visited[j] == p;
        assert Pipes.WellFormed(ps[j]);
      }
      Track.OnScreenSorted(t.visited);
    }
  }

  /** Every tick keeps the state invariant. */
  lemma TickPreservesValid(s: State, r: Pipes.Draw)
    requires Valid(s)
    ensures Valid(TickSpec(s, r))
  {
    var b := BirdStep(s);
    BirdStepKeepsBounds(s);
    SpawnedKeepsBounds(s, b, r);
    SweepKeepsWellFormed(Spawned(b, r), b.y, b.running, b.score);
    SweepKeepsCount(Spawned(b, r), b.y, b.running, b.score);
    SweepKeepsOrder(Spawned(b, r), b.y, b.running, b.score);
  }

  /** The page-load state, a fresh session, and every event keep the state invariant. */
  lemma SpacePreservesValid(s: State, r: Pipes.Draw)
    requires Valid(s)
    ensures Valid(Initial) && Valid(Started) && Valid(SpaceSpec(s, r))
  {
    if !s.running {
      TickPreservesValid(Started, r);
    }
  }

  /**
   * The game's mutable state: the bird's `y` and `velocity`, the globals
   * `gameRunning`, `score` and `frames`, and the `pipes` array.
   */
  class Game {
    var y: real
    var velocity: real
    var running: bool
    var score: nat
    var frames: nat
    var pipes: seq<Pipe>

    /** The fields as a value. */
    function Snapshot(): State
      reads this
    {
      State(y, velocity, running, score, frames, pipes)
    }

    /** The state as the page loads it. */
    constructor ()
      ensures Snapshot() == Initial && Valid(Snapshot())
    {
      y, velocity := Bird.StartY, 0.0;
      running, score, frames := false, 0, 0;
      pipes := [];
    }

    /** `bird.update`. */
    method UpdateBird()
      modifies this
      ensures Snapshot() == BirdStep(old(Snapshot()))
    {
      if running {
        velocity := velocity + Bird.Gravity;
        y := y + velocity;
        if Bird.Grounded(y) {
          GameOver();
        }
        if y <= 0.0 {
          y := 0.0;
          velocity := 0.0;
        }
      }
    }

    /** `bird.flap`. */
    method Flap()
      modifies this`velocity
      ensures Snapshot() == old(Snapshot()).(velocity := -Bird.Jump)
    {
      velocity := -Bird.Jump;
    }

    /** `gameOver`, without its display and sound. */
    method GameOver()
      modifies this`running
      ensures Snapshot() == old(Snapshot()).(running := false)
    {
      running := false;
    }

    /** `pipes[i].update()`. */
    method UpdatePipe(i: nat)
      requires i < |pipes|
      modifies this`pipes, this`running, this`score
      ensures var o := Pipes.Update(old(pipes[i]), y, old(running), old(score));
              pipes == old(pipes)[i := o.pipe] && running == o.running && score == o.score
    {
      if running {
        pipes := pipes[i := pipes[i].(x := pipes[i].x - Pipes.Speed)];
        if Pipes.Collides(pipes[i], y) {
          GameOver();
        }
        if Pipes.Cleared(pipes[i]) && !pipes[i].passed {
          score := score + 1;
          pipes := pipes[i := pipes[i].(passed := true)];
        }
      }
    }

    /**
     * The pipe loop of `animate`: update every pipe and splice out those that
     * are off screen, in one forward scan over the array.
     */
    method UpdatePipes()
      modifies this`pipes, this`running, this`score
      ensures var t := Track.Sweep(old(pipes), y, old(running), old(score));
              pipes == t.kept && running == t.running && score == t.score
    {
      ghost var start, run0, score0 := pipes, running, score;
      var i: int := 0;
      ghost var k: nat := 0;
      ghost var t := Track.Sweep(start[..0], y, run0, score0);
      while i < |pipes|
        invariant 0 <= i <= |pipes| && k <= |start|
        invariant t == Track.Sweep(start[..k], y, run0, score0)
        invariant pipes == t.kept + start[k..] && i == |t.kept|
        invariant running == t.running && score == t.score
        decreases |pipes| - i
      {
        Track.SweepStep(start, y, run0, score0, k);
        ghost var o := Pipes.Update(start[k], y, running, score);
        Track.SpliceAt(t.kept, start, k, o.pipe);
        UpdatePipe(i);
        if pipes[i].x + Pipes.Width < 0 {
          pipes := pipes[..i] + pipes[i + 1..];
          // the pipe after the removed one now sits at index i: visit i again
          i := i - 1;
        }
        i := i + 1;
        k := k + 1;
        t := Track.Sweep(start[..k], y, run0, score0);
      }
      assert start[..k] == start;
    }

    /**
     * `animate`: one tick. It returns whether the next tick is scheduled,
     * which is whether the game still runs.
     */
    method Tick(r: Pipes.Draw) returns (again: bool)
      modifies this
      ensures Snapshot() == TickSpec(old(Snapshot()), r)
      ensures again == running
      ensures Valid(old(Snapshot())) ==> Valid(Snapshot())
    {
      UpdateBird();
      if running && frames % SpawnInterval == 0 {
        pipes := pipes + [Pipes.NewPipe(r)];
      }
      UpdatePipes();
      frames := frames + 1;
      again := running;
      if Valid(old(Snapshot())) {
        TickPreservesValid(old(Snapshot()), r);
      }
    }

    /** `startGame`: reset the session, then run its first tick. */
    method StartGame(r: Pipes.Draw)
      modifies this
      ensures Snapshot() == TickSpec(Started, r)
    {
      running := true;
      score := 0;
      y, velocity := Bird.StartY, 0.0;
      pipes := [];
      frames := 0;
      assert Snapshot() == Started;
      var again := Tick(r);
    }

    /** The Space-key handler. */
    method OnSpace(r: Pipes.Draw)
      modifies this
      ensures Snapshot() == SpaceSpec(old(Snapshot()), r)
      ensures Valid(old(Snapshot())) ==> Valid(Snapshot())
    {
      if running {
        Flap();
      } else {
        StartGame(r);
      }
      if Valid(old(Snapshot())) {
        SpacePreservesValid(old(Snapshot()), r);
      }
    }
  }
}
