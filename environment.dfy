/**
 * The Environment of src/environment.py: a grid of height x width tiles, the
 * list of placed agents, the counter of accepted moves and the canvas that
 * agents are drawn into. Randomness is lifted to parameters: the shuffle at
 * the start of an epoch is an arbitrary permutation of the list, and each
 * agent's proposed move is given.
 */
module Environments {
  import opened Geometry
  import opened Agents

  /** An RGB colour as stored in one canvas tile. */
  datatype Color = Color(r: real, g: real, b: real)

  const White := Color(1.0, 1.0, 1.0)

  /**
   * check_valid_pos on a snapshot: `ps` are the positions of `agents`, and the
   * candidate agent stands at `at`. The candidate centre must pass the bounds
   * test, and the agent, at its CURRENT position `at`, must collide with no
   * other list entry. The candidate centre is not used by the collision test.
   */
  predicate Admissible(agents: seq<Agent>, ps: seq<Pos>, height: int, width: int,
                       agent: Agent, at: Pos, move: Pos)
    requires |ps| == |agents|
  {
    && InBounds(move, agent.bodyRadius, height, width)
    && forall k :: 0 <= k < |agents| && agents[k] != agent ==>
         !Collides(at, agent.bodyRadius, ps[k], agents[k].bodyRadius)
  }

  /** Every list entry's centre passes the bounds test. */
  predicate AllInBounds(agents: seq<Agent>, ps: seq<Pos>, height: int, width: int)
    requires |ps| == |agents|
  {
    forall k :: 0 <= k < |agents| ==> InBounds(ps[k], agents[k].bodyRadius, height, width)
  }

  /** Appending an agent whose centre passes the bounds test keeps every centre in bounds. */
  lemma AppendInBounds(agents: seq<Agent>, ps: seq<Pos>, a: Agent, p: Pos, height: int, width: int)
    requires |ps| == |agents| && AllInBounds(agents, ps, height, width)
    requires InBounds(p, a.bodyRadius, height, width)
    ensures AllInBounds(agents + [a], ps + [p], height, width)
  {
  }

  /** Positions after agent `a` is moved: every list entry holding `a` moves with it. */
  function MoveAll(agents: seq<Agent>, ps: seq<Pos>, a: Agent, move: Pos): seq<Pos>
    requires |ps| == |agents|
  {
    seq(|ps|, j requires 0 <= j < |ps| => if agents[j] == a then move else ps[j])
  }

  /**
   * The turn of the k-th agent of the shuffled list: its proposed move is
   * applied when admissible. Returns the new positions and whether the move
   * was accepted.
   */
  function Turn(agents: seq<Agent>, ps: seq<Pos>, moves: seq<Pos>, height: int, width: int, k: nat)
    : (r: (seq<Pos>, bool))
    requires |ps| == |agents| == |moves| && k < |agents|
    ensures |r.0| == |ps|
  {
    if Admissible(agents, ps, height, width, agents[k], ps[k], moves[k])
    then (MoveAll(agents, ps, agents[k], moves[k]), true)
    else (ps, false)
  }

  /** Turns k, k+1, ... of an epoch: the final positions and the number of accepted moves. */
  function EpochFrom(agents: seq<Agent>, ps: seq<Pos>, moves: seq<Pos>, height: int, width: int, k: nat)
    : (r: (seq<Pos>, nat))
    requires |ps| == |agents| == |moves| && k <= |agents|
    ensures |r.0| == |ps|
    decreases |agents| - k
  {
    if k == |agents| then (ps, 0)
    else
      var t := Turn(agents, ps, moves, height, width, k);
      var rest := EpochFrom(agents, t.0, moves, height, width, k + 1);
      (rest.0, rest.1 + if t.1 then 1 else 0)
  }

  /**
   * After its turn an agent stands on its proposed move if that passed the
   * check, and where it stood otherwise; no other agent moves.
   */
  lemma TurnMovesOnlyTheAgent(agents: seq<Agent>, ps: seq<Pos>, moves: seq<Pos>,
                              height: int, width: int, k: nat)
    requires |ps| == |agents| == |moves| && k < |agents|
    ensures var r := Turn(agents, ps, moves, height, width, k);
            && r.1 == Admissible(agents, ps, height, width, agents[k], ps[k], moves[k])
            && r.0[k] == (if r.1 then moves[k] else ps[k])
            && forall j :: 0 <= j < |ps| && agents[j] != agents[k] ==> r.0[j] == ps[j]
  {
  }

  /** An epoch accepts at most one move per turn. */
  lemma {:induction false} EpochAcceptsAtMostOnePerTurn(agents: seq<Agent>, ps: seq<Pos>, moves: seq<Pos>,
                                                        height: int, width: int, k: nat)
    requires |ps| == |agents| == |moves| && k <= |agents|
    ensures EpochFrom(agents, ps, moves, height, width, k).1 <= |agents| - k
    decreases |agents| - k
  {
    if k < |agents| {
      var t := Turn(agents, ps, moves, height, width, k);
      EpochAcceptsAtMostOnePerTurn(agents, t.0, moves, height, width, k + 1);
    }
  }

  /** Every accepted move passes the bounds test, so an epoch keeps all centres in bounds. */
  lemma {:induction false} EpochKeepsBounds(agents: seq<Agent>, ps: seq<Pos>, moves: seq<Pos>,
                                            height: int, width: int, k: nat)
    requires |ps| == |agents| == |moves| && k <= |agents|
    requires AllInBounds(agents, ps, height, width)
    ensures AllInBounds(agents, EpochFrom(agents, ps, moves, height, width, k).0, height, width)
    decreases |agents| - k
  {
    if k < |agents| {
      var t := Turn(agents, ps, moves, height, width, k);
      EpochKeepsBounds(agents, t.0, moves, height, width, k + 1);
    }
  }

  /**
   * The check is the same whether or not the agent itself is already in the
   * list, at whatever index the shuffle put it: entries holding the agent
   * are skipped.
   */
  lemma AdmissibleIgnoresSelf(agents: seq<Agent>, ps: seq<Pos>, height: int, width: int,
                              agent: Agent, at: Pos, move: Pos, i: nat, q: Pos)
    requires |ps| == |agents| && i <= |agents|
    ensures Admissible(agents[..i] + [agent] + agents[i..], ps[..i] + [q] + ps[i..], height, width, agent, at, move)
            == Admissible(agents, ps, height, width, agent, at, move)
  {
    var agents', ps' := agents[..i] + [agent] + agents[i..], ps[..i] + [q] + ps[i..];
    var r := agent.bodyRadius;
    assert agents'[i] == agent;
    forall k | 0 <= k < |agents|
      ensures var k' := if k < i then k else k + 1; agents'[k'] == agents[k] && ps'[k'] == ps[k]
    {
    }
    if Admissible(agents', ps', height, width, agent, at, move) {
      forall k | 0 <= k < |agents| && agents[k] != agent
        ensures !Collides(at, r, ps[k], agents[k].bodyRadius)
      {
        var k' := if k < i then k else k + 1;
        assert agents'[k'] == agents[k] && ps'[k'] == ps[k];
      }
    }
    if Admissible(agents, ps, height, width, agent, at, move) {
      forall k' | 0 <= k' < |agents'| && agents'[k'] != agent
        ensures !Collides(at, r, ps'[k'], agents'[k'].bodyRadius)
      {
        var k := if k' < i then k' else k' - 1;
        assert agents'[k'] == agents[k] && ps'[k'] == ps[k];
      }
    }
  }

  /**
   * Because the collision test looks at the current position and not at the
   * candidate, an epoch can end with two agents overlapping: two unit bodies
   * two tiles apart, and the first one proposes the other's tile.
   */
  lemma CurrentPositionCheckAdmitsOverlap(a: Agent, b: Agent)
    requires a != b && a.bodyRadius == 1 && b.bodyRadius == 1
    ensures var ps := [Pos(1, 1), Pos(1, 3)];
            var r := EpochFrom([a, b], ps, [Pos(1, 3), Pos(1, 3)], 5, 5, 0);
            && !Collides(ps[0], 1, ps[1], 1)
            && r.1 == 1
            && r.0 == [Pos(1, 3), Pos(1, 3)]
            && Collides(r.0[0], 1, r.0[1], 1)
  {
    var agents, moves := [a, b], [Pos(1, 3), Pos(1, 3)];
    var ps := [Pos(1, 1), Pos(1, 3)];
    assert Admissible(agents, ps, 5, 5, a, ps[0], moves[0]);
    var ps1 := MoveAll(agents, ps, a, moves[0]);
    assert ps1 == [Pos(1, 3), Pos(1, 3)];
    assert agents[0] != b && Collides(ps1[1], 1, ps1[0], 1);
    assert Turn(agents, ps, moves, 5, 5, 0) == (ps1, true);
    assert Turn(agents, ps1, moves, 5, 5, 1) == (ps1, false);
    assert EpochFrom(agents, ps1, moves, 5, 5, 2) == (ps1, 0);
  }

  /** The list in shuffled order: entry k of the result is entry order[k] of s. */
  function Reindex<T>(s: seq<T>, order: seq<nat>): (r: seq<T>)
    requires forall i :: 0 <= i < |order| ==> order[i] < |s|
    ensures |r| == |order|
  {
    seq(|order|, i requires 0 <= i < |order| => s[order[i]])
  }

  /** order lists each of 0 .. n-1 exactly once. */
  predicate IsPermutation(order: seq<nat>, n: nat) {
    && |order| == n
    && (forall i :: 0 <= i < n ==> order[i] < n)
    && (forall v :: 0 <= v < n ==> v in order)
    && (forall i, j :: 0 <= i < j < n ==> order[i] != order[j])
  }

  /** Shuffling by a permutation keeps every element with its multiplicity. */
  lemma {:induction false} ReindexPreservesMultiset<T>(s: seq<T>, order: seq<nat>)
    requires IsPermutation(order, |s|)
    ensures multiset(Reindex(s, order)) == multiset(s)
    decreases |s|
  {
    var n := |s|;
    if n > 0 {
      assert n - 1 in order;
      var k :| 0 <= k < n && order[k] == n - 1;
      DropLastIndex(order, k);
      assert forall i :: 0 <= i < |order| && i != k ==> order[i] < n - 1;
      ReindexPreservesMultiset(s[..n - 1], order[..k] + order[k + 1..]);
      ReindexStep(s, order, k);
    }
  }

  /** The inductive step: the entry picking s's last element adds it to the multiset. */
  lemma ReindexStep<T>(s: seq<T>, order: seq<nat>, k: nat)
    requires |s| > 0 && k < |order| && order[k] == |s| - 1
    requires forall i :: 0 <= i < |order| && i != k ==> order[i] < |s| - 1
    requires multiset(Reindex(s[..|s| - 1], order[..k] + order[k + 1..])) == multiset(s[..|s| - 1])
    ensures multiset(Reindex(s, order)) == multiset(s)
  {
    var n := |s|;
    var init := s[..n - 1];
    ReindexSplit(s, init, order, k);
    var left, right := Reindex(init, order[..k]), Reindex(init, order[k + 1..]);
    assert multiset(left + right) == multiset(init);
    InsertIntoMultiset(left, s[n - 1], right, init);
    assert s == init + [s[n - 1]];
  }

  /** Putting x between the two halves of a rearrangement of init rearranges init + [x]. */
  lemma InsertIntoMultiset<T>(left: seq<T>, x: T, right: seq<T>, init: seq<T>)
    requires multiset(left + right) == multiset(init)
    ensures multiset(left + [x] + right) == multiset(init + [x])
  {
    calc {
      multiset(left + [x] + right);
      multiset(left) + multiset{x} + multiset(right);
      multiset(left + right) + multiset{x};
      multiset(init + [x]);
    }
  }

  /** Removing the entry n-1 from a permutation of 0 .. n-1 leaves one of 0 .. n-2. */
  lemma DropLastIndex(order: seq<nat>, k: nat)
    requires |order| > 0 && IsPermutation(order, |order|)
    requires k < |order| && order[k] == |order| - 1
    ensures IsPermutation(order[..k] + order[k + 1..], |order| - 1)
  {
    var n := |order|;
    var rest := order[..k] + order[k + 1..];
    assert forall i :: 0 <= i < |rest| ==> rest[i] == order[Skip(i, k)];
    forall i, j | 0 <= i < j < n - 1
      ensures rest[i] != rest[j]
    {
      assert Skip(i, k) < Skip(j, k);
    }
    forall i | 0 <= i < n - 1
      ensures rest[i] < n - 1
    {
      assert Skip(i, k) != k;
    }
    forall v | 0 <= v < n - 1
      ensures v in rest
    {
      assert v in order;
      var i :| 0 <= i < n && order[i] == v;
      if i < k { assert rest[i] == v; } else { assert rest[i - 1] == v; }
    }
  }

  /** The index of order that entry i of order with entry k removed comes from. */
  function Skip(i: nat, k: nat): nat {
    if i < k then i else i + 1
  }

  /** Shuffling s by order splits around the entry k that picks s's last element. */
  lemma ReindexSplit<T>(s: seq<T>, init: seq<T>, order: seq<nat>, k: nat)
    requires |s| > 0 && init == s[..|s| - 1]
    requires k < |order| && order[k] == |s| - 1
    requires forall i :: 0 <= i < |order| && i != k ==> order[i] < |init|
    ensures Reindex(s, order)
            == Reindex(init, order[..k]) + [s[|s| - 1]] + Reindex(init, order[k + 1..])
    ensures Reindex(init, order[..k] + order[k + 1..])
            == Reindex(init, order[..k]) + Reindex(init, order[k + 1..])
  {
  }

  class Environment {
    const height: int
    const width: int
    /** The drawing canvas: one colour per tile. */
    const canvas: array2<Color>
    var agents: seq<Agent>
    /** The number of accepted moves so far. */
    var time: nat

    /** The canvas has the grid's size and every listed centre passes the bounds test. */
    ghost predicate Valid()
      reads this, agents
    {
      && canvas.Length0 == height && canvas.Length1 == width
      && AllInBounds(agents, PositionsOf(agents), height, width)
    }

    /** A white canvas, no agents, time 0. */
    constructor (height: nat, width: nat)
      ensures Valid() && fresh(canvas)
      ensures this.height == height && this.width == width
      ensures agents == [] && time == 0
      ensures forall x, y :: 0 <= x < height && 0 <= y < width ==> canvas[x, y] == White
    {
      this.height := height;
      this.width := width;
      canvas := new Color[height, width]((x, y) => White);
      agents := [];
      time := 0;
    }

    /** check_valid_pos on the current list and positions. */
    predicate ValidPos(agent: Agent, row: int, col: int)
      reads this, agents, agent
      ensures ValidPos(agent, row, col) <==>
                && InBounds(Pos(row, col), agent.bodyRadius, height, width)
                && forall k :: 0 <= k < |agents| && agents[k] != agent ==> !agent.IsCollision(agents[k])
    {
      Admissible(agents, PositionsOf(agents), height, width, agent, agent.Position(), Pos(row, col))
    }

    /** check_valid_pos: the bounds test on (row, col), then the collision scan over the list. */
    method CheckValidPos(agent: Agent, row: int, col: int) returns (ok: bool)
      ensures ok == ValidPos(agent, row, col)
      ensures row < agent.bodyRadius - 1 || row > height - agent.bodyRadius ==> !ok
      ensures col < agent.bodyRadius - 1 || col > width - agent.bodyRadius ==> !ok
    {
      if row < agent.bodyRadius - 1 || row > height - agent.bodyRadius {
        return false;
      }
      if col < agent.bodyRadius - 1 || col > width - agent.bodyRadius {
        return false;
      }
      for i := 0 to |agents|
        invariant forall k :: 0 <= k < i && agents[k] != agent ==> !agent.IsCollision(agents[k])
      {
        if agents[i] != agent && agent.IsCollision(agents[i]) {
          return false;
        }
      }
      return true;
    }

    /**
     * add_agent: the agent is appended iff it passes check_valid_pos at its
     * own position; otherwise the list is left as it was.
     */
    method AddAgent(agent: Agent) returns (added: bool)
      requires Valid()
      modifies this`agents
      ensures Valid()
      ensures added == old(ValidPos(agent, agent.xPos, agent.yPos))
      ensures agents == if added then old(agents) + [agent] else old(agents)
    {
      added := CheckValidPos(agent, agent.Position().row, agent.Position().col);
      if added {
        ghost var ps := PositionsOf(agents);
        AppendInBounds(agents, ps, agent, agent.Position(), height, width);
        agents := agents + [agent];
        assert PositionsOf(agents) == ps + [agent.Position()];
      }
    }

    /**
     * draw_agent: paints the agent's diamond body, and nothing else, in the
     * given colour. The body must lie on the canvas, which holds for any
     * centre that passes the bounds test.
     */
    method DrawAgent(agent: Agent, color: Color)
      requires Valid()
      requires agent.bodyRadius <= 0 || InBounds(agent.Position(), agent.bodyRadius, height, width)
      modifies canvas
      ensures forall x, y :: 0 <= x < height && 0 <= y < width ==>
                canvas[x, y] == if InDiamond(agent.Position(), agent.bodyRadius, Pos(x, y)) then color
                                else old(canvas[x, y])
    {
      var pos := agent.Position();
      var r := agent.bodyRadius;
      var i := 0;
      while i < r
        invariant 0 <= i <= Max(r, 0)
        invariant forall x, y :: 0 <= x < height && 0 <= y < width ==>
                    canvas[x, y] == if Painted(pos, r, i, 0, Pos(x, y)) then color else old(canvas[x, y])
      {
        var j := 0;
        while j < r - i
          invariant 0 <= j <= r - i
          invariant forall x, y :: 0 <= x < height && 0 <= y < width ==>
                      canvas[x, y] == if Painted(pos, r, i, j, Pos(x, y)) then color else old(canvas[x, y])
        {
          PaintMirrored(pos, i, j, color);
          forall x, y | 0 <= x < height && 0 <= y < width
            ensures canvas[x, y] == if Painted(pos, r, i, j + 1, Pos(x, y)) then color else old(canvas[x, y])
          {
            PaintedStep(pos, r, i, j, Pos(x, y));
          }
          j := j + 1;
        }
        forall x, y | 0 <= x < height && 0 <= y < width
          ensures canvas[x, y] == if Painted(pos, r, i + 1, 0, Pos(x, y)) then color else old(canvas[x, y])
        {
          PaintedRow(pos, r, i, Pos(x, y));
        }
        i := i + 1;
      }
      forall x, y | 0 <= x < height && 0 <= y < width
        ensures canvas[x, y] == if InDiamond(pos, r, Pos(x, y)) then color else old(canvas[x, y])
      {
        assert Painted(pos, r, Max(r, 0), 0, Pos(x, y)) == InDiamond(pos, r, Pos(x, y));
      }
    }

    /** The four writes of one inner iteration of draw_agent: the tiles c + (+-i, +-j). */
    method PaintMirrored(c: Pos, i: nat, j: nat, color: Color)
      requires Valid()
      requires 0 <= c.row - i && c.row + i < height && 0 <= c.col - j && c.col + j < width
      modifies canvas
      ensures forall x, y :: 0 <= x < height && 0 <= y < width ==>
                canvas[x, y] == if Mirrored(c, i, j, Pos(x, y)) then color else old(canvas[x, y])
    {
      canvas[c.row + i, c.col + j] := color;
      canvas[c.row + i, c.col - j] := color;
      canvas[c.row - i, c.col + j] := color;
      canvas[c.row - i, c.col - j] := color;
    }

    /**
     * run_epoch: shuffle the list by `order`, then give each agent in turn its
     * proposed move moves[k] when check_valid_pos accepts it, counting the
     * accepted moves in `time`. Only positions change.
     */
    method RunEpoch(order: seq<nat>, moves: seq<Pos>)
      requires Valid()
      requires IsPermutation(order, |agents|)
      requires |moves| == |agents|
      modifies this`agents, this`time, agents`xPos, agents`yPos
      ensures Valid()
      ensures agents == Reindex(old(agents), order)
      ensures multiset(agents) == multiset(old(agents))
      ensures var r := EpochFrom(agents, Reindex(old(PositionsOf(agents)), order), moves, height, width, 0);
              PositionsOf(agents) == r.0 && time == old(time) + r.1
      ensures forall a :: a in agents ==> a.alive == old(a.alive) && a.bodyTemp == old(a.bodyTemp)
    {
      Shuffle(order);
      PlayTurns(moves);
    }

    /**
     * The loop of run_epoch over the shuffled list: turn k gives the k-th
     * agent its proposed move moves[k] when check_valid_pos accepts it.
     */
    method PlayTurns(moves: seq<Pos>)
      requires Valid()
      requires |moves| == |agents|
      modifies this`time, agents`xPos, agents`yPos
      ensures Valid()
      ensures var r := EpochFrom(agents, old(PositionsOf(agents)), moves, height, width, 0);
              PositionsOf(agents) == r.0 && time == old(time) + r.1
    {
      ghost var ps0 := PositionsOf(agents);
      ghost var r0 := EpochFrom(agents, ps0, moves, height, width, 0);
      for k := 0 to |agents|
        invariant var r := EpochFrom(agents, PositionsOf(agents), moves, height, width, k);
                  r.0 == r0.0 && time + r.1 == old(time) + r0.1
      {
        var _ := TakeTurn(k, moves);
      }
      EpochKeepsBounds(agents, ps0, moves, height, width, 0);
    }

    /** random.shuffle of the agent list, with the permutation given: positions are untouched. */
    method Shuffle(order: seq<nat>)
      requires Valid()
      requires IsPermutation(order, |agents|)
      modifies this`agents
      ensures Valid()
      ensures agents == Reindex(old(agents), order)
      ensures multiset(agents) == multiset(old(agents))
      ensures PositionsOf(agents) == Reindex(old(PositionsOf(agents)), order)
    {
      ReindexPreservesMultiset(agents, order);
      ghost var before := agents;
      agents := Reindex(agents, order);
      ghost var ps := PositionsOf(agents);
      assert ps == Reindex(PositionsOf(before), order);
      assert AllInBounds(agents, ps, height, width) by {
        forall k | 0 <= k < |agents|
          ensures InBounds(ps[k], agents[k].bodyRadius, height, width)
        {
          assert agents[k] == before[order[k]];
        }
      }
    }

    /**
     * One iteration of run_epoch's loop: the k-th agent moves to moves[k] when
     * check_valid_pos accepts it, and the accepted move is counted.
     */
    method TakeTurn(k: nat, moves: seq<Pos>) returns (ok: bool)
      requires k < |agents| == |moves|
      modifies this`time, {agents[k]}`xPos, {agents[k]}`yPos
      ensures var t := Turn(agents, old(PositionsOf(agents)), moves, height, width, k);
              && ok == t.1
              && PositionsOf(agents) == t.0
              && time == old(time) + if ok then 1 else 0
    {
      var agent := agents[k];
      var move := moves[k];
      ghost var before := PositionsOf(agents);
      ok := CheckValidPos(agent, move.row, move.col);
      if ok {
        agent.SetPosition(move);
        time := time + 1;
        assert PositionsOf(agents) == MoveAll(agents, before, agent, move);
      }
    }
  }

  /** t is one of the tiles c + (+-i, +-j). */
  predicate Mirrored(c: Pos, i: int, j: int, t: Pos) {
    && (t.row == c.row + i || t.row == c.row - i)
    && (t.col == c.col + j || t.col == c.col - j)
  }

  lemma PaintedStep(c: Pos, radius: int, i: nat, j: nat, t: Pos)
    requires j < radius - i
    ensures Painted(c, radius, i, j + 1, t) <==> Painted(c, radius, i, j, t) || Mirrored(c, i, j, t)
  {
  }

  lemma PaintedRow(c: Pos, radius: int, i: nat, t: Pos)
    requires i < radius
    ensures Painted(c, radius, i, radius - i, t) <==> Painted(c, radius, i + 1, 0, t)
  {
  }

  /**
   * The tiles draw_agent has painted once rows |di| < i are done and, in row
   * offset i, columns |dj| < j are done.
   */
  predicate Painted(c: Pos, radius: int, i: int, j: int, t: Pos) {
    || (Abs(t.row - c.row) < i && InDiamond(c, radius, t))
    || (Abs(t.row - c.row) == i && Abs(t.col - c.col) < j)
  }
}
