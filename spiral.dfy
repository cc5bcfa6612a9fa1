// The spiral order in which render workers pick image buckets: an integer
// state machine (x, y, dx, dy, cap) that starts left of bucket (0, 0), runs
// right along row 0 and turns clockwise at every ring edge, moving one ring
// inwards (cap + 1) at each lower-left corner.
//
// The main facts proved here:
//   * `Advance` keeps the walk in one of a handful of phases (`Phase`), and the
//     buckets visited so far are exactly `Visited` of the current state;
//   * each step adds its own position to the visited buckets and nothing
//     else; that position may already be visited, because the walk can pass
//     over a finished bucket near the centre (`CentreRevisit`), which
//     `assignBucket` then skips as claimed. The walk leaves a non-empty grid
//     only once every bucket has been visited (`StepFacts`);
//   * while it stays in the grid a lexicographic measure decreases, so a
//     search along the walk terminates (`StepFacts`, `Below`).

module Spirals {

  /** The function-local statics of the bucket generator. */
  datatype Walk = Walk(x: int, y: int, dx: int, dy: int, cap: int)

  /** The state a reset puts the generator in. */
  const Start: Walk := Walk(-1, 0, 1, 0, 0)

  /** The turn test: the walk is at the edge of ring `cap` in its direction. */
  predicate AtTurn(s: Walk, w: int, h: int)
  {
    (s.dx == 1 && s.x - w + s.cap + 1 == 0) || (s.dx == -1 && s.x == s.cap)
    || (s.dy == 1 && s.y - h + s.cap + 1 == 0) || (s.dy == -1 && s.y == s.cap)
  }

  /** One call of the generator once the reset test is passed: turn clockwise at an
      edge (moving a ring inwards at the lower-left corner), then take one step. */
  function Advance(s: Walk, w: int, h: int): (n: Walk)
    ensures (n.dx, n.dy) == (s.dx, s.dy) || (n.dx, n.dy) == (-s.dy, s.dx)
    ensures n.x == s.x + n.dx && n.y == s.y + n.dy
    ensures s.cap <= n.cap <= s.cap + 1
  {
    if AtTurn(s, w, h) then
      var cap := if s.x == s.cap && s.y == h - s.cap - 1 then s.cap + 1 else s.cap;
      Walk(s.x - s.dy, s.y + s.dx, -s.dy, s.dx, cap)
    else
      Walk(s.x + s.dx, s.y + s.dy, s.dx, s.dy, s.cap)
  }

  /** `k` generator calls from `s`. */
  function Steps(s: Walk, w: int, h: int, k: nat): Walk
  {
    if k == 0 then s else Advance(Steps(s, w, h, k - 1), w, h)
  }

  predicate InGrid(s: Walk, w: int, h: int)
  {
    0 <= s.x < w && 0 <= s.y < h
  }

  /** Bucket (i, j) belongs to a ring further out than ring `c`. */
  predicate Outer(c: int, w: int, h: int, i: int, j: int)
  {
    i < c || j < c || i > w - 1 - c || j > h - 1 - c
  }

  // The phases of the walk. In the first four the walk is on ring `cap` (the
  // up-run is the left column of ring cap - 1, whose corner already raised cap);
  // in the last one every bucket has been visited and no turn test can fire again.

  predicate RightRun(s: Walk, w: int, h: int)
  {
    s.dx == 1 && s.dy == 0 && 0 <= s.cap && s.y == s.cap
    && s.cap - 1 <= s.x <= w - 1 - s.cap && s.cap <= w - 1 - s.cap && s.cap <= h - 1 - s.cap
  }

  predicate DownRun(s: Walk, w: int, h: int)
  {
    s.dx == 0 && s.dy == 1 && 0 <= s.cap && s.x == w - 1 - s.cap && s.cap <= s.x
    && s.cap < s.y <= h - 1 - s.cap
  }

  predicate LeftRun(s: Walk, w: int, h: int)
  {
    s.dx == -1 && s.dy == 0 && 0 <= s.cap && s.y == h - 1 - s.cap && s.cap < s.y
    && s.cap <= s.x < w - 1 - s.cap
  }

  predicate UpRun(s: Walk, w: int, h: int)
  {
    s.dx == 0 && s.dy == -1 && 1 <= s.cap && s.x == s.cap - 1 && s.cap <= w - s.cap
    && s.cap <= s.y <= h - 1 - s.cap
  }

  predicate Straight(s: Walk, w: int, h: int)
  {
    0 <= s.cap <= w &&
    ((s.dx == 1 && s.dy == 0 && s.x > w - 1 - s.cap) || (s.dx == -1 && s.dy == 0 && s.x < s.cap)
     || (s.dx == 0 && s.dy == 1 && s.y > h - 1 - s.cap) || (s.dx == 0 && s.dy == -1 && s.y < s.cap))
  }

  /** The states the generator can be in after a reset (any state, for an empty grid). */
  predicate Phase(s: Walk, w: int, h: int)
  {
    w <= 0 || h <= 0
    || RightRun(s, w, h) || DownRun(s, w, h) || LeftRun(s, w, h) || UpRun(s, w, h)
    || Straight(s, w, h)
  }

  /** Whether the walk from a reset to `s` has passed bucket (i, j) of the grid. */
  predicate Visited(s: Walk, w: int, h: int, i: int, j: int)
  {
    var c := s.cap;
    if RightRun(s, w, h) then Outer(c, w, h, i, j) || (j == c && i <= s.x)
    else if DownRun(s, w, h) then Outer(c, w, h, i, j) || j == c || (i == s.x && j <= s.y)
    else if LeftRun(s, w, h) then Outer(c, w, h, i, j) || j == c || i == w - 1 - c || (j == s.y && s.x <= i)
    else if UpRun(s, w, h) then Outer(c, w, h, i, j) && !(i == s.x && c <= j < s.y)
    else true
  }

  /** `n` has visited what `s` had, plus its own position when that is in the grid. */
  predicate Extends(s: Walk, n: Walk, w: int, h: int)
  {
    forall i, j | 0 <= i < w && 0 <= j < h ::
      Visited(n, w, h, i, j) == (Visited(s, w, h, i, j) || (i == n.x && j == n.y))
  }

  /** Every bucket of the grid has been visited. */
  predicate Finished(s: Walk, w: int, h: int)
  {
    forall i, j | 0 <= i < w && 0 <= j < h :: Visited(s, w, h, i, j)
  }

  // The termination measure: rings left, then the direction's place in a ring's
  // order (up-run, right, down, left), then the distance to the grid edge ahead.

  function CapRoom(s: Walk, w: int): nat
  {
    if s.cap <= w then w - s.cap else 0
  }

  function Rank(s: Walk): nat
  {
    if s.dy == -1 then 3 else if s.dx == 1 then 2 else if s.dy == 1 then 1 else 0
  }

  function Ahead(s: Walk, w: int, h: int): nat
  {
    var d := if s.dx == 1 then w - s.x else if s.dx == -1 then s.x + 1
             else if s.dy == 1 then h - s.y else s.y + 1;
    if d < 0 then 0 else d
  }

  predicate Below(n: Walk, s: Walk, w: int, h: int)
  {
    CapRoom(n, w) < CapRoom(s, w)
    || (CapRoom(n, w) == CapRoom(s, w)
        && (Rank(n) < Rank(s) || (Rank(n) == Rank(s) && Ahead(n, w, h) < Ahead(s, w, h))))
  }

  /** What one step guarantees, for a non-empty grid. */
  predicate StepOk(s: Walk, n: Walk, w: int, h: int)
  {
    Phase(n, w, h) && Extends(s, n, w, h)
    && (!InGrid(n, w, h) ==> Finished(n, w, h))
    && (InGrid(n, w, h) ==> Below(n, s, w, h))
  }

  lemma StepRight(s: Walk, w: int, h: int)
    requires 1 <= w && 1 <= h && RightRun(s, w, h)
    ensures StepOk(s, Advance(s, w, h), w, h)
  {
    var n := Advance(s, w, h);
    var c := s.cap;
    if s.x < w - 1 - c {
      assert !AtTurn(s, w, h);
      assert RightRun(n, w, h);
    } else if c == h - 1 - c && c == w - 1 - c {
      // the centre bucket of an odd square ring: the walk heads down and out
      assert n == Walk(s.x, s.y + 1, 0, 1, c + 1);
      assert Straight(n, w, h);
    } else if c == h - 1 - c {
      // a single-row ring: every bucket is visited, the walk heads down and out
      assert n == Walk(s.x, s.y + 1, 0, 1, c);
      assert Straight(n, w, h);
    } else {
      assert n == Walk(s.x, s.y + 1, 0, 1, c);
      assert DownRun(n, w, h);
    }
  }

  lemma StepDown(s: Walk, w: int, h: int)
    requires 1 <= w && 1 <= h && DownRun(s, w, h)
    ensures StepOk(s, Advance(s, w, h), w, h)
  {
    var n := Advance(s, w, h);
    var c := s.cap;
    if s.y < h - 1 - c {
      assert !AtTurn(s, w, h);
      assert DownRun(n, w, h);
    } else if s.x == c {
      // a single-column ring: done, the walk heads left and out
      assert n == Walk(s.x - 1, s.y, -1, 0, c + 1);
      assert Straight(n, w, h);
    } else {
      assert n == Walk(s.x - 1, s.y, -1, 0, c);
      assert LeftRun(n, w, h);
    }
  }

  lemma StepLeft(s: Walk, w: int, h: int)
    requires 1 <= w && 1 <= h && LeftRun(s, w, h)
    ensures StepOk(s, Advance(s, w, h), w, h)
  {
    var n := Advance(s, w, h);
    var c := s.cap;
    if s.x > c {
      assert !AtTurn(s, w, h);
      assert LeftRun(n, w, h);
    } else if s.y == c + 1 {
      // a two-row ring: done, the walk heads up through visited buckets and out
      assert n == Walk(s.x, s.y - 1, 0, -1, c + 1);
      assert Straight(n, w, h);
    } else {
      assert n == Walk(s.x, s.y - 1, 0, -1, c + 1);
      assert UpRun(n, w, h);
    }
  }

  lemma StepUp(s: Walk, w: int, h: int)
    requires 1 <= w && 1 <= h && UpRun(s, w, h)
    ensures StepOk(s, Advance(s, w, h), w, h)
  {
    var n := Advance(s, w, h);
    var c := s.cap;
    if s.y > c {
      assert !AtTurn(s, w, h);
      assert UpRun(n, w, h);
    } else if c == w - c {
      // the next ring is empty: done, the walk heads right and out
      assert n == Walk(s.x + 1, s.y, 1, 0, c);
      assert Straight(n, w, h);
    } else {
      assert n == Walk(s.x + 1, s.y, 1, 0, c);
      assert RightRun(n, w, h);
    }
  }

  lemma StepStraight(s: Walk, w: int, h: int)
    requires 1 <= w && 1 <= h && Straight(s, w, h)
    ensures StepOk(s, Advance(s, w, h), w, h)
  {
    var n := Advance(s, w, h);
    assert !AtTurn(s, w, h);
    assert Straight(n, w, h);
  }

  /** The step lemma: from any phase, one generator call stays in a phase, adds exactly
      its new position to the visited buckets (it may already be among them), leaves the
      grid only when every bucket is visited, and lowers the measure while it stays inside. */
  lemma StepFacts(s: Walk, w: int, h: int)
    requires 1 <= w && 1 <= h && Phase(s, w, h)
    ensures StepOk(s, Advance(s, w, h), w, h)
  {
    if RightRun(s, w, h) { StepRight(s, w, h); }
    else if DownRun(s, w, h) { StepDown(s, w, h); }
    else if LeftRun(s, w, h) { StepLeft(s, w, h); }
    else if UpRun(s, w, h) { StepUp(s, w, h); }
    else { StepStraight(s, w, h); }
  }

  /** A reset state is in a phase and has visited nothing. */
  lemma StartFacts(w: int, h: int)
    ensures Phase(Start, w, h)
    ensures forall i, j | 0 <= i < w && 0 <= j < h :: !Visited(Start, w, h, i, j)
  {
    if 1 <= w && 1 <= h {
      assert RightRun(Start, w, h);
    }
  }

  /** The first `w` calls after a reset run along row 0 from bucket (0, 0) to (w - 1, 0). */
  lemma {:induction false} FirstRow(w: int, h: int, k: nat)
    requires 1 <= h && k < w
    ensures Steps(Start, w, h, k + 1) == Walk(k, 0, 1, 0, 0)
  {
    if k > 0 {
      FirstRow(w, h, k - 1);
    }
  }

  /** The walk may pass over a bucket it has already visited: on a 3 by 3 grid the
      turn at the centre steps down into (1, 2), visited on the way round the ring. */
  lemma CentreRevisit()
    ensures Phase(Walk(1, 1, 1, 0, 1), 3, 3) && Visited(Walk(1, 1, 1, 0, 1), 3, 3, 1, 2)
    ensures Advance(Walk(1, 1, 1, 0, 1), 3, 3) == Walk(1, 2, 0, 1, 2)
    ensures InGrid(Walk(1, 2, 0, 1, 2), 3, 3)
  {
    var s := Walk(1, 1, 1, 0, 1);
    assert RightRun(s, 3, 3) && Outer(1, 3, 3, 1, 2);
    assert AtTurn(s, 3, 3);
  }
}
