/**
 * Integer grid geometry shared by the environment and the movement policies:
 * tile coordinates, the L1 (Manhattan) distance, the margin the environment
 * keeps between a body centre and the grid edge, and the diamond-shaped body
 * an agent occupies.
 */
module Geometry {

  /** A tile coordinate, row first, as the environment indexes its canvas. */
  datatype Pos = Pos(row: int, col: int)

  function Abs(x: int): nat {
    if x < 0 then -x else x
  }

  function Max(a: int, b: int): int {
    if a < b then b else a
  }

  /** L1 distance between two tiles. */
  function Manhattan(p: Pos, q: Pos): nat {
    Abs(p.row - q.row) + Abs(p.col - q.col)
  }

  /**
   * The bounds half of Environment.check_valid_pos: the centre keeps a margin
   * of radius - 1 tiles from every edge of a height x width grid.
   */
  predicate InBounds(p: Pos, radius: int, height: int, width: int) {
    && radius - 1 <= p.row <= height - radius
    && radius - 1 <= p.col <= width - radius
  }

  /**
   * Tile t belongs to the diamond body of the given radius centred at c: the
   * tiles c + (di, dj) with |di| + |dj| <= radius - 1 that draw_agent paints.
   */
  predicate InDiamond(c: Pos, radius: int, t: Pos) {
    Manhattan(c, t) <= radius - 1
  }

  /** Two diamond bodies collide when their centres are closer than rp + rq - 1. */
  predicate Collides(p: Pos, rp: int, q: Pos, rq: int) {
    Manhattan(p, q) < rp + rq - 1
  }

  predicate InGrid(t: Pos, height: int, width: int) {
    0 <= t.row < height && 0 <= t.col < width
  }

  /** A centre that passes the bounds test keeps its whole body on the grid. */
  lemma BoundedBodyInGrid(c: Pos, radius: int, height: int, width: int, t: Pos)
    requires InBounds(c, radius, height, width)
    requires InDiamond(c, radius, t)
    ensures InGrid(t, height, width)
  {
  }

  /**
   * The collision test is exactly footprint overlap: two bodies of positive
   * radius collide iff some tile lies in both diamonds.
   */
  lemma CollidesIffOverlap(p: Pos, rp: int, q: Pos, rq: int)
    requires rp >= 1 && rq >= 1
    ensures Collides(p, rp, q, rq) <==> exists t :: InDiamond(p, rp, t) && InDiamond(q, rq, t)
  {
    if Collides(p, rp, q, rq) {
      var t := Between(p, q, if Manhattan(p, q) < rp - 1 then Manhattan(p, q) else rp - 1);
      assert InDiamond(p, rp, t) && InDiamond(q, rq, t);
    }
    forall t | InDiamond(p, rp, t) && InDiamond(q, rq, t)
      ensures Collides(p, rp, q, rq)
    {
      Triangle(p, t, q);
    }
  }

  lemma Triangle(p: Pos, t: Pos, q: Pos)
    ensures Manhattan(p, q) <= Manhattan(p, t) + Manhattan(t, q)
  {
  }

  /** A tile k steps from p along a shortest path towards q: rows first, then columns. */
  function Between(p: Pos, q: Pos, k: nat): (t: Pos)
    requires k <= Manhattan(p, q)
    ensures Manhattan(p, t) == k && Manhattan(t, q) == Manhattan(p, q) - k
  {
    var dr := q.row - p.row;
    var dc := q.col - p.col;
    var a := if k < Abs(dr) then k else Abs(dr);
    var b := k - a;
    Pos(if dr >= 0 then p.row + a else p.row - a,
        if dc >= 0 then p.col + b else p.col - b)
  }
}
