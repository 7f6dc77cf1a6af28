/**
 * square_coord of blind_pen_proto.py: the lattice points (x, y) on the
 * contour of the square of half-side n, that is the ring max(|x|, |y|) == n,
 * with or without its four corners ("vortex").
 */
module BlindPenProto {
  import opened Geometry

  /** The point lies on the ring of Chebyshev radius n. */
  predicate OnRing(c: (int, int), n: int) {
    Max(Abs(c.0), Abs(c.1)) == n
  }

  predicate IsCorner(c: (int, int), n: int) {
    Abs(c.0) == n && Abs(c.1) == n
  }

  /** The corners, in the order the function lists them. */
  function Corners(n: int): seq<(int, int)> {
    [(n, n), (n, -n), (-n, n), (-n, -n)]
  }

  /**
   * For a point on an edge, the coordinate that runs along the edge: the loop
   * value i that produced it.
   */
  function Along(c: (int, int), n: int): int {
    if Abs(c.0) == n then c.1 else c.0
  }

  /** How many loop values -n < i' < i, i' != n, have appended their four points. */
  function Done(n: int, i: int): int {
    if i <= -n then 0 else if i > n then 2 * n - 1 else i + n - 1
  }

  predicate Distinct(s: seq<(int, int)>) {
    forall a, b :: 0 <= a < b < |s| ==> s[a] != s[b]
  }

  /** Appending distinct points none of which is already present keeps a list duplicate-free. */
  lemma DistinctAppend(s: seq<(int, int)>, t: seq<(int, int)>)
    requires Distinct(s) && Distinct(t)
    requires forall c :: c in t ==> c !in s
    ensures Distinct(s + t)
  {
    forall a, b | 0 <= a < b < |s + t|
      ensures (s + t)[a] != (s + t)[b]
    {
      if b >= |s| && a < |s| {
        assert (s + t)[b] == t[b - |s|];
        assert (s + t)[b] in t;
      }
    }
  }

  method SquareCoord(n: int, vortex: bool) returns (coords: seq<(int, int)>)
    ensures n == 0 ==> coords == [(0, 0)]
    ensures n < 0 ==> coords == if vortex then Corners(n) else []
    ensures n > 0 ==> |coords| == if vortex then 8 * n else 8 * n - 4
    ensures n > 0 ==> forall k :: 0 <= k < |coords| ==> OnRing(coords[k], n)
    ensures n > 0 ==> Distinct(coords)
    ensures n > 0 && vortex ==> coords[..4] == Corners(n)
    ensures n > 0 && vortex ==> forall c :: OnRing(c, n) ==> c in coords
    ensures n > 0 && !vortex ==> forall c :: c in coords <==> OnRing(c, n) && !IsCorner(c, n)
  {
    if n == 0 {
      return [(0, 0)];
    }
    if vortex {
      coords := Corners(n);
    } else {
      coords := [];
    }
    var i := -n;
    while i < n + 1
      invariant n > 0 ==> -n <= i <= n + 1
      invariant n < 0 ==> i == -n && coords == if vortex then Corners(n) else []
      invariant n > 0 ==> |coords| == (if vortex then 4 else 0) + 4 * Done(n, i)
      invariant n > 0 && vortex ==> |coords| >= 4 && coords[..4] == Corners(n)
      invariant n > 0 ==> Distinct(coords)
      invariant n > 0 ==> Listed(coords, n, i, vortex)
    {
      if i == n || i == -n {
        ListedSkip(coords, n, i, vortex);
        i := i + 1;
        continue;
      }
      ghost var before := coords;
      coords := coords + [(n, i)];
      coords := coords + [(i, n)];
      coords := coords + [(-n, i)];
      coords := coords + [(i, -n)];
      assert coords == before + Edges(n, i);
      ListedStep(before, n, i, vortex);
      DistinctAppend(before, Edges(n, i));
      i := i + 1;
    }
  }

  /** The four points the loop appends for the value i, one on each edge. */
  function Edges(n: int, i: int): seq<(int, int)> {
    [(n, i), (i, n), (-n, i), (i, -n)]
  }

  /**
   * What the list holds before the loop value i: the corners when vortex is
   * set, and every non-corner ring point whose coordinate along its edge is
   * below i.
   */
  ghost predicate Listed(coords: seq<(int, int)>, n: int, i: int, vortex: bool) {
    forall c :: c in coords <==>
      (vortex && IsCorner(c, n)) || (OnRing(c, n) && !IsCorner(c, n) && Along(c, n) < i)
  }

  /** The values i = -n and i = n add no point: their edge points are corners. */
  lemma ListedSkip(coords: seq<(int, int)>, n: int, i: int, vortex: bool)
    requires n > 0 && (i == n || i == -n) && Listed(coords, n, i, vortex)
    ensures Listed(coords, n, i + 1, vortex)
  {
    forall c | OnRing(c, n) && !IsCorner(c, n)
      ensures Along(c, n) != i
    {
    }
  }

  /** The four edge points of a value -n < i < n are new, distinct ring points with Along == i. */
  lemma ListedStep(coords: seq<(int, int)>, n: int, i: int, vortex: bool)
    requires n > 0 && -n < i < n && Listed(coords, n, i, vortex)
    ensures Listed(coords + Edges(n, i), n, i + 1, vortex)
    ensures Distinct(Edges(n, i))
    ensures forall c :: c in Edges(n, i) ==> c !in coords
  {
    var e := Edges(n, i);
    assert forall c :: c in e ==> OnRing(c, n) && !IsCorner(c, n) && Along(c, n) == i;
    forall c | OnRing(c, n) && !IsCorner(c, n) && Along(c, n) == i
      ensures c in e
    {
      if Abs(c.0) == n {
        assert c == e[0] || c == e[2];
      } else {
        assert c == e[1] || c == e[3];
      }
    }
  }
}
