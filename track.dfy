/**
 * The pipe loop of `animate`: every pipe is updated in spawn order, and a pipe
 * that has left the canvas is spliced out of the array in the same forward scan.
 * `Sweep` is the specification of that loop, written as a fold over the pipes
 * present when the loop starts.
 */
module Track {
  import Pipes

  type Pipe = Pipes.Pipe

  /**
   * The result of one scan: the pipes that stay, every pipe as it was after its
   * update (visited ones, in order), and the game's running flag and score.
   */
  datatype Scan = Scan(kept: seq<Pipe>, visited: seq<Pipe>, running: bool, score: nat)

  /** The pipes of `ps` that are still on the canvas, in their order. */
  function OnScreen(ps: seq<Pipe>): (r: seq<Pipe>)
    ensures |r| <= |ps|
    ensures forall q :: q in r <==> q in ps && !Pipes.OffScreen(q)
    decreases |ps|
  {
    if ps == [] then []
    else
      var init := OnScreen(ps[..|ps| - 1]);
      var last := ps[|ps| - 1];
      assert ps == ps[..|ps| - 1] + [last];
      if Pipes.OffScreen(last) then init else init + [last]
  }

  /** How many pipes of `ps` the bird has passed. */
  function CountPassed(ps: seq<Pipe>): nat
    decreases |ps|
  {
    if ps == [] then 0
    else CountPassed(ps[..|ps| - 1]) + (if ps[|ps| - 1].passed then 1 else 0)
  }

  /** Left edges strictly increase along the sequence: spawn order is screen order. */
  predicate Sorted(ps: seq<Pipe>)
  {
    forall i, j :: 0 <= i < j < |ps| ==> ps[i].x < ps[j].x
  }

  /** The pipe loop, run over `ps` with the bird at height `birdY`. */
  function Sweep(ps: seq<Pipe>, birdY: real, running: bool, score: nat): (t: Scan)
    ensures |t.visited| == |ps|
    ensures t.running ==> running
    ensures score <= t.score
    decreases |ps|
  {
    if ps == [] then Scan([], [], running, score)
    else
      var t := Sweep(ps[..|ps| - 1], birdY, running, score);
      var o := Pipes.Update(ps[|ps| - 1], birdY, t.running, t.score);
      Scan(if Pipes.OffScreen(o.pipe) then t.kept else t.kept + [o.pipe],
           t.visited + [o.pipe], o.running, o.score)
  }

  /** One more pipe of the scan: update it, then keep it only if it is still on the canvas. */
  lemma SweepStep(ps: seq<Pipe>, birdY: real, running: bool, score: nat, k: nat)
    requires k < |ps|
    ensures var t := Sweep(ps[..k], birdY, running, score);
            var o := Pipes.Update(ps[k], birdY, t.running, t.score);
            Sweep(ps[..k + 1], birdY, running, score) ==
              Scan(if Pipes.OffScreen(o.pipe) then t.kept else t.kept + [o.pipe],
                   t.visited + [o.pipe], o.running, o.score)
  {
    assert ps[..k + 1][..k] == ps[..k];
  }

  /**
   * The array during the scan is the kept pipes followed by the unvisited ones:
   * updating the pipe at the boundary, or splicing it out, leaves that shape.
   */
  lemma SpliceAt(kept: seq<Pipe>, start: seq<Pipe>, k: nat, q: Pipe)
    requires k < |start|
    ensures (kept + start[k..])[|kept|] == start[k]
    ensures (kept + start[k..])[|kept| := q] == kept + [q] + start[k + 1..]
    ensures var a := kept + [q] + start[k + 1..];
            a[..|kept|] + a[|kept| + 1..] == kept + start[k + 1..]
  {
    assert start[k..] == [start[k]] + start[k + 1..];
    var a := kept + [q] + start[k + 1..];
    assert a[..|kept|] == kept;
    assert a[|kept| + 1..] == start[k + 1..];
  }

  /**
   * No pipe is skipped or visited twice: the j-th visited pipe is the update of
   * exactly the j-th pipe at loop start, made in the state the first j updates left.
   */
  lemma {:induction false} SweepVisitsEachOnce(ps: seq<Pipe>, birdY: real, running: bool, score: nat, j: nat)
    requires j < |ps|
    ensures var before := Sweep(ps[..j], birdY, running, score);
            Sweep(ps, birdY, running, score).visited[j]
              == Pipes.Update(ps[j], birdY, before.running, before.score).pipe
    decreases |ps|
  {
    var n := |ps| - 1;
    if j < n {
      SweepVisitsEachOnce(ps[..n], birdY, running, score, j);
      assert ps[..n][..j] == ps[..j];
    } else {
      assert ps[..j] == ps[..n];
    }
  }

  /** What stays after the loop is exactly the visited pipes that are still on the canvas, in order. */
  lemma {:induction false} SweepRemovesOffScreen(ps: seq<Pipe>, birdY: real, running: bool, score: nat)
    ensures var t := Sweep(ps, birdY, running, score);
            t.kept == OnScreen(t.visited) && forall q :: q in t.kept ==> !Pipes.OffScreen(q)
    decreases |ps|
  {
    if ps != [] {
      var n := |ps| - 1;
      SweepRemovesOffScreen(ps[..n], birdY, running, score);
      var t := Sweep(ps, birdY, running, score);
      assert t.visited[..n] == Sweep(ps[..n], birdY, running, score).visited;
    }
  }

  /**
   * Each pipe keeps its segments, never moves right, and keeps a `passed` flag
   * once set; the score grows by exactly the number of flags set in this scan.
   */
  lemma {:induction false} SweepScoresEachPipeOnce(ps: seq<Pipe>, birdY: real, running: bool, score: nat)
    ensures var t := Sweep(ps, birdY, running, score);
            (forall j :: 0 <= j < |ps| ==>
               t.visited[j].topHeight == ps[j].topHeight &&
               t.visited[j].bottomY == ps[j].bottomY &&
               t.visited[j].x <= ps[j].x &&
               (ps[j].passed ==> t.visited[j].passed)) &&
            t.score == score + CountPassed(t.visited) - CountPassed(ps)
    decreases |ps|
  {
    if ps != [] {
      var n := |ps| - 1;
      SweepScoresEachPipeOnce(ps[..n], birdY, running, score);
      var t := Sweep(ps, birdY, running, score);
      assert t.visited[..n] == Sweep(ps[..n], birdY, running, score).visited;
    }
  }

  /** If the game is still running after the loop, every pipe moved left by exactly one step. */
  lemma {:induction false} SweepMovesAllWhileRunning(ps: seq<Pipe>, birdY: real, running: bool, score: nat)
    ensures var t := Sweep(ps, birdY, running, score);
            t.running ==> forall j :: 0 <= j < |ps| ==> t.visited[j].x == ps[j].x - Pipes.Speed
    decreases |ps|
  {
    if ps != [] {
      var n := |ps| - 1;
      SweepMovesAllWhileRunning(ps[..n], birdY, running, score);
      var t := Sweep(ps, birdY, running, score);
      assert t.visited[..n] == Sweep(ps[..n], birdY, running, score).visited;
    }
  }

  /** Over a stopped game the loop changes no pipe and no score; it only drops off-screen pipes. */
  lemma {:induction false} SweepStopped(ps: seq<Pipe>, birdY: real, score: nat)
    ensures Sweep(ps, birdY, false, score) == Scan(OnScreen(ps), ps, false, score)
    decreases |ps|
  {
    if ps != [] {
      SweepStopped(ps[..|ps| - 1], birdY, score);
      assert ps == ps[..|ps| - 1] + [ps[|ps| - 1]];
    }
  }

  /** A running game stops during the loop only because some pipe collided with the bird. */
  lemma {:induction false} SweepStopsOnlyOnCollision(ps: seq<Pipe>, birdY: real, score: nat)
    ensures var t := Sweep(ps, birdY, true, score);
            !t.running ==> exists j :: 0 <= j < |ps| && Pipes.Collides(t.visited[j], birdY)
    decreases |ps|
  {
    if ps != [] {
      var n := |ps| - 1;
      var t0 := Sweep(ps[..n], birdY, true, score);
      var t := Sweep(ps, birdY, true, score);
      assert t.visited[..n] == t0.visited;
      if !t0.running {
        SweepStopsOnlyOnCollision(ps[..n], birdY, score);
        var j :| 0 <= j < n && Pipes.Collides(t0.visited[j], birdY);
        assert t.visited[j] == t0.visited[j];
      } else if !t.running {
        assert Pipes.Collides(t.visited[n], birdY);
      }
    }
  }

  /** Dropping pipes keeps the remaining ones in screen order. */
  lemma {:induction false} OnScreenSorted(ps: seq<Pipe>)
    requires Sorted(ps)
    ensures Sorted(OnScreen(ps))
    decreases |ps|
  {
    if ps != [] {
      var n := |ps| - 1;
      assert Sorted(ps[..n]);
      OnScreenSorted(ps[..n]);
      var init := OnScreen(ps[..n]);
      forall q | q in init ensures q.x < ps[n].x {
        var i :| 0 <= i < n && ps[..n][i] == q;
      }
    }
  }

  /** Dropping pipes never adds passed ones. */
  lemma {:induction false} OnScreenCountPassed(ps: seq<Pipe>)
    ensures CountPassed(OnScreen(ps)) <= CountPassed(ps)
    decreases |ps|
  {
    if ps != [] {
      var n := |ps| - 1;
      OnScreenCountPassed(ps[..n]);
      var init := OnScreen(ps[..n]);
      assert (init + [ps[n]])[..|init|] == init;
    }
  }

  /** A sequence with nothing off the canvas is left as it is. */
  lemma {:induction false} OnScreenIdentity(ps: seq<Pipe>)
    requires forall q :: q in ps ==> !Pipes.OffScreen(q)
    ensures OnScreen(ps) == ps
    decreases |ps|
  {
    if ps != [] {
      var n := |ps| - 1;
      assert forall q :: q in ps[..n] ==> q in ps;
      OnScreenIdentity(ps[..n]);
      assert ps == ps[..n] + [ps[n]];
    }
  }
}
