/** Pixel geometry shared by every part of the game: points, the rectangles
    that stand in for pygame.Rect, the two collision tests the game uses, and
    the order in which the pellet list is built. */
module Geometry {

  /** A point in window pixels; x grows to the right, y grows downwards. */
  datatype Pos = Pos(x: int, y: int)

  /** The part of a pygame.Rect the game uses: top-left corner and size. */
  datatype Rect = Rect(left: int, top: int, width: int, height: int)

  /** Half the side of the square box every game object carries (`size`). */
  const Radius: int := 20

  /** Every move is a multiple of this many pixels on each axis. */
  const StepPx: int := 30

  function Abs(n: int): (r: nat)
    ensures r == n || r == -n
  {
    if n < 0 then -n else n
  }

  /** Rect.collidepoint, taken as half-open containment:
      [left, left + width) x [top, top + height). */
  predicate CollidePoint(r: Rect, p: Pos)
  {
    r.left <= p.x < r.left + r.width && r.top <= p.y < r.top + r.height
  }

  /** Rect.colliderect, taken as an overlap of positive area. */
  predicate CollideRect(a: Rect, b: Rect)
  {
    a.left < b.left + b.width && b.left < a.left + a.width &&
    a.top < b.top + b.height && b.top < a.top + a.height
  }

  /** The 40 x 40 box of an object standing at p, as built by
      `pygame.Rect(x - size, y - size, size * 2, size * 2)`. */
  function Box(p: Pos): Rect
  {
    Rect(p.x - Radius, p.y - Radius, 2 * Radius, 2 * Radius)
  }

  /** The box of an object at p contains exactly the points of the
      half-open square of side 40 centred on p. */
  lemma BoxContains(p: Pos, q: Pos)
    ensures CollidePoint(Box(p), q) <==>
      p.x - Radius <= q.x < p.x + Radius && p.y - Radius <= q.y < p.y + Radius
  {
  }

  /** A point reachable from the spawn points by moves of StepPx pixels. */
  predicate OnLattice(p: Pos)
  {
    p.x % StepPx == 0 && p.y % StepPx == 0
  }

  /** Two boxes of game objects collide exactly when their centres are
      less than a box side apart on both axes. */
  lemma BoxesCollide(p: Pos, q: Pos)
    ensures CollideRect(Box(p), Box(q)) <==> Abs(p.x - q.x) < 2 * Radius && Abs(p.y - q.y) < 2 * Radius
  {
  }

  /** Two different multiples of StepPx are at least StepPx apart. */
  lemma LatticeGap(a: int, b: int)
    requires a % StepPx == 0 && b % StepPx == 0 && a != b
    ensures Abs(a - b) >= StepPx
  {
    var i, j := a / StepPx, b / StepPx;
    assert a == StepPx * i && b == StepPx * j;
    assert a - b == StepPx * (i - j);
    if i - j >= 1 {
      assert StepPx * (i - j) >= StepPx;
    } else {
      assert i - j <= -1;
      assert StepPx * (i - j) <= -StepPx;
    }
  }

  /** On the lattice, the box of an object at p contains a lattice point q
      exactly when q is p itself: a pellet is only eaten when the object
      stands right on it. */
  lemma {:induction false} BoxContainsOnlyCentre(p: Pos, q: Pos)
    requires OnLattice(p) && OnLattice(q)
    ensures CollidePoint(Box(p), q) <==> p == q
  {
    if p.x != q.x {
      LatticeGap(p.x, q.x);
    }
    if p.y != q.y {
      LatticeGap(p.y, q.y);
    }
  }

  /** Row-major order: by row (y) first, then by column (x). */
  predicate Before(p: Pos, q: Pos)
  {
    p.y < q.y || (p.y == q.y && p.x < q.x)
  }

  /** Strictly increasing in row-major order; in particular no point twice. */
  predicate RowMajor(s: seq<Pos>)
  {
    forall i, j :: 0 <= i < j < |s| ==> Before(s[i], s[j])
  }

  lemma RowMajorDistinct(s: seq<Pos>, i: int, j: int)
    requires RowMajor(s) && 0 <= i < |s| && 0 <= j < |s| && i != j
    ensures s[i] != s[j]
  {
    if i < j {
      assert Before(s[i], s[j]);
    } else {
      assert Before(s[j], s[i]);
    }
  }
}
