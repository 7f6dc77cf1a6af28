/**
 * The agent of src/agent.py, with the attributes its subclasses and the
 * environment read (body radius, move thresholds, movement policy and speed)
 * gathered into one class. Attributes that nothing reassigns after
 * construction are constants; position, body temperature and the alive flag
 * are the mutable state.
 */
module Agents {
  import opened Geometry

  /** The two target-selection rules of the penguin: "average" and "closest". */
  datatype Policy = Average | Closest

  /**
   * The death rule of the body_temp setter. The comparisons are strict, so a
   * temperature equal to either threshold is survived.
   */
  predicate Survives(t: real, low: real, high: real) {
    !(t > high || t < low)
  }

  class Agent {
    var xPos: int
    var yPos: int
    /** body_size in the constructor, body_radius where the environment reads it. */
    const bodyRadius: int
    const senseRadius: int
    var bodyTemp: real
    const lowDeath: real
    const highDeath: real
    var alive: bool
    const lowMove: real
    const highMove: real
    const policy: Policy
    const movementSpeed: int

    /**
     * Stores every argument as given and starts alive. The initial body
     * temperature is stored directly, without the death check of the setter.
     */
    constructor (xPos: int, yPos: int, bodySize: int, senseRadius: int, bodyTemp: real,
                 lowDeath: real, highDeath: real, lowMove: real, highMove: real,
                 policy: Policy, movementSpeed: int)
      ensures this.xPos == xPos && this.yPos == yPos
      ensures this.bodyRadius == bodySize && this.senseRadius == senseRadius
      ensures this.bodyTemp == bodyTemp
      ensures this.lowDeath == lowDeath && this.highDeath == highDeath
      ensures this.lowMove == lowMove && this.highMove == highMove
      ensures this.policy == policy && this.movementSpeed == movementSpeed
      ensures alive
    {
      this.xPos := xPos;
      this.yPos := yPos;
      this.bodyRadius := bodySize;
      this.senseRadius := senseRadius;
      this.bodyTemp := bodyTemp;
      this.lowDeath := lowDeath;
      this.highDeath := highDeath;
      this.lowMove := lowMove;
      this.highMove := highMove;
      this.policy := policy;
      this.movementSpeed := movementSpeed;
      this.alive := true;
    }

    /** The position getter: (x_pos, y_pos), read by the environment as (row, col). */
    function Position(): Pos
      reads this
    {
      Pos(xPos, yPos)
    }

    /** The body temperature is a single value, so the core temperature is that value. */
    function CoreTemp(): real
      reads this
    {
      bodyTemp
    }

    /**
     * Collision of this agent's body, at its current position, with another's:
     * for bodies of positive radius, some tile lies in both diamonds. The test
     * is symmetric.
     */
    predicate IsCollision(other: Agent)
      reads this, other
      ensures bodyRadius >= 1 && other.bodyRadius >= 1 ==>
                (IsCollision(other) <==> exists t :: InDiamond(Position(), bodyRadius, t)
                                                   && InDiamond(other.Position(), other.bodyRadius, t))
      ensures IsCollision(other) <==> Collides(other.Position(), other.bodyRadius, Position(), bodyRadius)
    {
      if bodyRadius >= 1 && other.bodyRadius >= 1 then
        CollidesIffOverlap(Position(), bodyRadius, other.Position(), other.bodyRadius);
        Collides(Position(), bodyRadius, other.Position(), other.bodyRadius)
      else
        Collides(Position(), bodyRadius, other.Position(), other.bodyRadius)
    }

    method Kill()
      modifies this`alive
      ensures !alive
    {
      alive := false;
    }

    /**
     * The body_temp setter: stores the value, and the agent dies when it is
     * above the high or below the low threshold. It never revives an agent.
     */
    method SetBodyTemp(t: real)
      modifies this`bodyTemp, this`alive
      ensures bodyTemp == t
      ensures alive <==> old(alive) && lowDeath <= t <= highDeath
      ensures alive == AliveAfter(old(alive), [t], lowDeath, highDeath)
    {
      bodyTemp := t;
      if bodyTemp > highDeath || bodyTemp < lowDeath {
        alive := false;
      }
    }

    /** The position setter. */
    method SetPosition(p: Pos)
      modifies this`xPos, this`yPos
      ensures Position() == p
    {
      xPos := p.row;
      yPos := p.col;
    }
  }

  /** The positions of a list of agents, in list order. */
  function PositionsOf(agents: seq<Agent>): (ps: seq<Pos>)
    reads agents
    ensures |ps| == |agents|
    ensures forall k :: 0 <= k < |agents| ==> ps[k] == agents[k].Position()
  {
    if agents == [] then [] else PositionsOf(agents[..|agents| - 1]) + [agents[|agents| - 1].Position()]
  }

  /**
   * The alive flag after the body_temp setter has been applied to each of
   * temps in turn, starting from `alive`.
   */
  function AliveAfter(alive: bool, temps: seq<real>, low: real, high: real): bool
  {
    if temps == [] then alive
    else AliveAfter(alive, temps[..|temps| - 1], low, high) && Survives(temps[|temps| - 1], low, high)
  }

  /** A dead agent stays dead under any sequence of temperature assignments. */
  lemma {:induction false} DeadStaysDead(temps: seq<real>, low: real, high: real)
    ensures !AliveAfter(false, temps, low, high)
  {
    if temps != [] {
      DeadStaysDead(temps[..|temps| - 1], low, high);
    }
  }

  /**
   * An agent survives a sequence of assignments iff it was alive and every
   * assigned temperature lies in the closed band [low, high].
   */
  lemma {:induction false} AliveAfterIff(alive: bool, temps: seq<real>, low: real, high: real)
    ensures AliveAfter(alive, temps, low, high)
            <==> alive && forall i :: 0 <= i < |temps| ==> low <= temps[i] <= high
  {
    if temps != [] {
      var init := temps[..|temps| - 1];
      AliveAfterIff(alive, init, low, high);
      assert forall i :: 0 <= i < |init| ==> init[i] == temps[i];
    }
  }
}
