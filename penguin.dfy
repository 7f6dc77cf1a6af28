/**
 * The penguin's movement decision (Penguin.get_move in src/penguin.py). The
 * random jitter is a parameter. The target is chosen from the neighbours'
 * positions relative to the penguin (their sum, or the closest one), the core
 * temperature decides whether to walk towards it, away from it or not at all,
 * and the walk is greedy: one tile per step, `movementSpeed` steps.
 */
module Penguins {
  import opened Geometry
  import opened Agents

  /** np.random.randint(-3, 4) draws each jitter component from [-3, 3]. */
  predicate JitterInRange(jitter: Pos) {
    -3 <= jitter.row <= 3 && -3 <= jitter.col <= 3
  }

  function Add(p: Pos, q: Pos): Pos {
    Pos(p.row + q.row, p.col + q.col)
  }

  function Sub(p: Pos, q: Pos): Pos {
    Pos(p.row - q.row, p.col - q.col)
  }

  function Neg(p: Pos): Pos {
    Pos(-p.row, -p.col)
  }

  /** The neighbours' positions relative to the penguin's own. */
  function Relative(ps: seq<Pos>, self: Pos): (rs: seq<Pos>)
    ensures |rs| == |ps|
  {
    seq(|ps|, k requires 0 <= k < |ps| => Sub(ps[k], self))
  }

  /** Componentwise sum (np.sum over axis 0). */
  function Sum(ps: seq<Pos>): Pos {
    if ps == [] then Pos(0, 0) else Add(Sum(ps[..|ps| - 1]), ps[|ps| - 1])
  }

  /** The L1 norm of each offset. */
  function Norms(rs: seq<Pos>): (ds: seq<int>)
    ensures |ds| == |rs|
  {
    seq(|rs|, k requires 0 <= k < |rs| => Abs(rs[k].row) + Abs(rs[k].col))
  }

  /** np.argmin: the index of the first minimal element. */
  function ArgMin(ds: seq<int>): (k: nat)
    requires |ds| > 0
    ensures k < |ds|
    ensures forall j :: 0 <= j < |ds| ==> ds[k] <= ds[j]
    ensures forall j :: 0 <= j < k ==> ds[k] < ds[j]
  {
    if |ds| == 1 then 0
    else
      var k := ArgMin(ds[..|ds| - 1]);
      if ds[|ds| - 1] < ds[k] then |ds| - 1 else k
  }

  /** The target offset chosen by the movement policy from the relative positions. */
  function TargetOffset(policy: Policy, rs: seq<Pos>): Pos
    requires |rs| > 0
  {
    match policy
    case Average => Sum(rs)
    case Closest => rs[ArgMin(Norms(rs))]
  }

  /** The five candidate tiles, in the order of the distances list: stay, col+1, col-1, row-1, row+1. */
  function Candidates(p: Pos): seq<Pos> {
    [p, Pos(p.row, p.col + 1), Pos(p.row, p.col - 1), Pos(p.row - 1, p.col), Pos(p.row + 1, p.col)]
  }

  function Distances(p: Pos, target: Pos): (ds: seq<int>)
    ensures |ds| == 5
  {
    var cs := Candidates(p);
    [Manhattan(cs[0], target), Manhattan(cs[1], target), Manhattan(cs[2], target),
     Manhattan(cs[3], target), Manhattan(cs[4], target)]
  }

  /**
   * One iteration of the walk, by the tie-break it amounts to: at the target
   * it stays; otherwise it first closes the column gap (col+1 before col-1)
   * and only then the row gap (row-1 before row+1). StepIsArgMin shows this is
   * the first candidate of minimal distance to the target.
   */
  function Step(p: Pos, target: Pos): Pos {
    if p == target then p
    else if p.col < target.col then Pos(p.row, p.col + 1)
    else if p.col > target.col then Pos(p.row, p.col - 1)
    else if p.row > target.row then Pos(p.row - 1, p.col)
    else Pos(p.row + 1, p.col)
  }

  /** The walk after n iterations; a non-positive n leaves the start unchanged. */
  function Walk(start: Pos, target: Pos, n: int): Pos
    decreases n
  {
    if n <= 0 then start else Step(Walk(start, target, n - 1), target)
  }

  /**
   * The whole decision of Penguin.get_move on plain values: own position and
   * core temperature, the two move thresholds, the policy, the speed, the
   * neighbours' positions and the jitter.
   */
  function Decide(pos: Pos, core: real, lowMove: real, highMove: real, policy: Policy,
                  speed: int, neighbours: seq<Pos>, jitter: Pos): Pos
  {
    var start := Add(pos, jitter);
    if neighbours == [] then start
    else
      var offset := TargetOffset(policy, Relative(neighbours, pos));
      if core < lowMove then Walk(start, Add(offset, pos), speed)
      else if core > highMove then Walk(start, Add(Neg(offset), pos), speed)
      else start
  }

  /**
   * Penguin.get_move: jitter the own position, stop there without neighbours
   * or in the comfortable temperature band, otherwise walk greedily towards
   * (cold) or away from (hot) the policy's target.
   */
  method GetMove(agent: Agent, neighbours: seq<Agent>, jitter: Pos) returns (best: Pos)
    requires JitterInRange(jitter)
    ensures best == Decide(agent.Position(), agent.CoreTemp(), agent.lowMove, agent.highMove,
                           agent.policy, agent.movementSpeed, PositionsOf(neighbours), jitter)
  {
    var pos := agent.Position();
    best := Add(pos, jitter);
    if |neighbours| == 0 {
      return;
    }
    var rpos := Relative(PositionsOf(neighbours), pos);
    var target := TargetOffset(agent.policy, rpos);
    if agent.CoreTemp() < agent.lowMove {
      target := Add(target, pos);
    } else if agent.CoreTemp() > agent.highMove {
      target := Add(Neg(target), pos);
    } else {
      return;
    }
    best := WalkGreedy(best, target, agent.movementSpeed);
  }

  /**
   * The loop at the end of Penguin.get_move: `speed` times, evaluate the five
   * candidates and take the first one of minimal distance to the target.
   */
  method WalkGreedy(start: Pos, target: Pos, speed: int) returns (best: Pos)
    ensures best == Walk(start, target, speed)
    ensures speed >= 0 ==> Manhattan(best, target) == Max(0, Manhattan(start, target) - speed)
    ensures Manhattan(best, start) <= Max(speed, 0)
  {
    best := start;
    var step := 0;
    while step < speed
      invariant 0 <= step <= Max(speed, 0)
      invariant best == Walk(start, target, step)
    {
      best := StepOnce(best, target);
      step := step + 1;
    }
    assert step == speed || (step == 0 && Walk(start, target, speed) == start);
    if speed >= 0 {
      WalkDistance(start, target, speed);
    }
    WalkWithinSpeed(start, target, speed);
  }

  /** One loop iteration: take the argmin of the five distances and move that way. */
  method StepOnce(p: Pos, target: Pos) returns (next: Pos)
    ensures next == Step(p, target)
    ensures Manhattan(next, target) == Max(0, Manhattan(p, target) - 1)
  {
    var direction := ArgMin(Distances(p, target));
    next := p;
    if direction == 1 {
      next := Pos(p.row, p.col + 1);
    } else if direction == 2 {
      next := Pos(p.row, p.col - 1);
    } else if direction == 3 {
      next := Pos(p.row - 1, p.col);
    } else if direction == 4 {
      next := Pos(p.row + 1, p.col);
    }
    assert next == Candidates(p)[direction];
    StepIsArgMin(p, target);
    StepDistance(p, target);
  }

  /**
   * The tie-break of np.argmin over the distances list: the first candidate of
   * minimal distance to the target is the tile Step chooses.
   */
  lemma StepIsArgMin(p: Pos, target: Pos)
    ensures Candidates(p)[ArgMin(Distances(p, target))] == Step(p, target)
  {
    var ds := Distances(p, target);
    var k := ArgMin(ds);
    var d := Manhattan(p, target);
    assert ds[0] == d;
    if p == target {
      assert k == 0;
    } else if p.col < target.col {
      assert ds[1] == d - 1;
      assert ds[0] > ds[1];
      assert k == 1;
    } else if p.col > target.col {
      assert ds[2] == d - 1 && ds[1] == d + 1;
      assert k == 2;
    } else if p.row > target.row {
      assert ds[3] == d - 1 && ds[1] == d + 1 && ds[2] == d + 1;
      assert k == 3;
    } else {
      assert ds[4] == d - 1 && ds[1] == d + 1 && ds[2] == d + 1 && ds[3] == d + 1;
      assert k == 4;
    }
  }

  /** Each step moves at most one tile and, away from the target, gets one tile closer. */
  lemma StepDistance(p: Pos, target: Pos)
    ensures Manhattan(Step(p, target), p) == if p == target then 0 else 1
    ensures Manhattan(Step(p, target), target) == Max(0, Manhattan(p, target) - 1)
  {
  }

  /**
   * After n >= 0 steps the distance to the target is max(0, d0 - n), d0 the
   * distance from the start.
   */
  lemma {:induction false} WalkDistance(start: Pos, target: Pos, n: int)
    requires n >= 0
    ensures Manhattan(Walk(start, target, n), target) == Max(0, Manhattan(start, target) - n)
  {
    if n > 0 {
      WalkDistance(start, target, n - 1);
      StepCloser(Walk(start, target, n - 1), target, Manhattan(start, target), n);
    }
  }

  /** The walk ends within L1 distance max(n, 0) of its start. */
  lemma {:induction false} WalkWithinSpeed(start: Pos, target: Pos, n: int)
    ensures Manhattan(Walk(start, target, n), start) <= Max(n, 0)
  {
    if n > 0 {
      var p := Walk(start, target, n - 1);
      WalkWithinSpeed(start, target, n - 1);
      StepWithin(p, target, start, n - 1);
    }
  }

  /** A step from a tile max(0, d0 - (k - 1)) from the target ends max(0, d0 - k) from it. */
  lemma StepCloser(p: Pos, target: Pos, d0: int, k: int)
    requires Manhattan(p, target) == Max(0, d0 - (k - 1))
    ensures Manhattan(Step(p, target), target) == Max(0, d0 - k)
  {
    StepDistance(p, target);
  }

  /** A step from a tile within d of the start ends within d + 1 of it. */
  lemma StepWithin(p: Pos, target: Pos, start: Pos, d: int)
    requires Manhattan(p, start) <= d
    ensures Manhattan(Step(p, target), start) <= d + 1
  {
    StepDistance(p, target);
    Triangle(Step(p, target), p, start);
  }

  /** Once at the target the walk stays there. */
  lemma {:induction false} WalkStaysAtTarget(target: Pos, n: int)
    ensures Walk(target, target, n) == target
  {
    if n > 0 {
      WalkStaysAtTarget(target, n - 1);
    }
  }

  /** With no neighbours, or in the comfortable band, the move is the jittered position. */
  lemma NoWalkWithoutReason(pos: Pos, core: real, lowMove: real, highMove: real, policy: Policy,
                            speed: int, neighbours: seq<Pos>, jitter: Pos)
    requires neighbours == [] || lowMove <= core <= highMove
    ensures Decide(pos, core, lowMove, highMove, policy, speed, neighbours, jitter) == Add(pos, jitter)
  {
  }

  /**
   * With neighbours and outside the comfortable band, the move ends
   * max(0, d0 - speed) from the target, which is the own position plus the
   * offset when cold and minus it when hot; d0 is measured from the jittered
   * start, and the move is at most `speed` tiles from that start.
   */
  lemma DecideWalks(pos: Pos, core: real, lowMove: real, highMove: real, policy: Policy,
                    speed: int, neighbours: seq<Pos>, jitter: Pos)
    requires neighbours != [] && (core < lowMove || core > highMove) && speed >= 0
    ensures var offset := TargetOffset(policy, Relative(neighbours, pos));
            var target := if core < lowMove then Add(pos, offset) else Sub(pos, offset);
            var start := Add(pos, jitter);
            var move := Decide(pos, core, lowMove, highMove, policy, speed, neighbours, jitter);
            && Manhattan(move, target) == Max(0, Manhattan(start, target) - speed)
            && Manhattan(move, start) <= speed
  {
    var offset := TargetOffset(policy, Relative(neighbours, pos));
    var target := if core < lowMove then Add(pos, offset) else Sub(pos, offset);
    var start := Add(pos, jitter);
    assert Add(offset, pos) == Add(pos, offset) && Add(Neg(offset), pos) == Sub(pos, offset);
    WalkDistance(start, target, speed);
    WalkWithinSpeed(start, target, speed);
  }

  /** The jittered start lies within 3 tiles of the own position on each axis. */
  lemma JitteredStartNear(pos: Pos, jitter: Pos)
    requires JitterInRange(jitter)
    ensures Abs(Add(pos, jitter).row - pos.row) <= 3 && Abs(Add(pos, jitter).col - pos.col) <= 3
  {
  }

  lemma ScaleStep(n: int, a: int)
    ensures (n - 1) * a + a == n * a
  {
  }

  /**
   * The "average" offset is the sum, not the mean, of the relative
   * positions: the neighbours' position sum minus n times the own position.
   */
  lemma {:induction false} AverageIsSum(neighbours: seq<Pos>, self: Pos)
    ensures var s := Sum(Relative(neighbours, self));
            var t := Sum(neighbours);
            var n := |neighbours|;
            s == Pos(t.row - n * self.row, t.col - n * self.col)
  {
    if neighbours != [] {
      var n := |neighbours|;
      var init := neighbours[..n - 1];
      var rs := Relative(neighbours, self);
      AverageIsSum(init, self);
      assert rs[..n - 1] == Relative(init, self);
      assert Sum(rs) == Add(Sum(Relative(init, self)), Sub(neighbours[n - 1], self));
      assert Sum(neighbours) == Add(Sum(init), neighbours[n - 1]);
      ScaleStep(n, self.row);
      ScaleStep(n, self.col);
    }
  }

  /**
   * The "closest" offset is one of the relative positions, of minimal L1
   * norm, and no earlier relative position has that minimal norm.
   */
  lemma ClosestIsFirstMinimal(rs: seq<Pos>)
    requires |rs| > 0
    ensures var r := TargetOffset(Closest, rs);
            exists k :: 0 <= k < |rs| && r == rs[k]
              && (forall j :: 0 <= j < |rs| ==> Abs(r.row) + Abs(r.col) <= Abs(rs[j].row) + Abs(rs[j].col))
              && (forall j :: 0 <= j < k ==> Abs(r.row) + Abs(r.col) < Abs(rs[j].row) + Abs(rs[j].col))
  {
    var ds := Norms(rs);
    var k := ArgMin(ds);
    assert forall j :: 0 <= j < |rs| ==> ds[j] == Abs(rs[j].row) + Abs(rs[j].col);
    assert TargetOffset(Closest, rs) == rs[k];
  }
}
