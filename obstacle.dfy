/**
 * The obstacle of src/obstacle.py: an agent that never moves, so that it
 * takes part in collision detection like any other body.
 */
module Obstacles {
  import opened Geometry
  import opened Agents

  /** Obstacle.get_move: the proposed move is the current position, whatever the neighbours. */
  function GetMove(agent: Agent, neighbours: seq<Agent>): (move: Pos)
    reads agent
    ensures move == agent.Position()
  {
    agent.Position()
  }

  /** The move does not depend on the neighbours, the empty list included. */
  lemma IgnoresNeighbours(agent: Agent, some: seq<Agent>, others: seq<Agent>)
    ensures GetMove(agent, some) == GetMove(agent, others) == GetMove(agent, [])
  {
  }

  /**
   * Applying the move, as the environment does for an accepted move, is a
   * fixed point: the position, the alive flag and the body temperature are
   * unchanged, and the next proposal is the same tile.
   */
  method ApplyMove(agent: Agent, neighbours: seq<Agent>) returns (move: Pos)
    modifies agent
    ensures move == old(agent.Position()) == agent.Position()
    ensures GetMove(agent, neighbours) == move
    ensures agent.alive == old(agent.alive) && agent.bodyTemp == old(agent.bodyTemp)
  {
    move := GetMove(agent, neighbours);
    agent.SetPosition(move);
  }
}
