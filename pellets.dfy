/** Pellet consumption: the per-tick filter
    `[pellet for pellet in pellets if not pacman.rect.collidepoint(pellet)]`. */
module Pellets {
  import opened Geometry

  /** a is b with some elements left out, the rest in the same order. */
  predicate IsSubseq(a: seq<Pos>, b: seq<Pos>)
    decreases |b|
  {
    if a == [] then true
    else if b == [] then false
    else (a[0] == b[0] && IsSubseq(a[1..], b[1..])) || IsSubseq(a, b[1..])
  }

  /** The number of points of ps inside r. */
  function CountInside(ps: seq<Pos>, r: Rect): (n: nat)
    ensures n <= |ps|
  {
    if ps == [] then 0
    else (if CollidePoint(r, ps[0]) then 1 else 0) + CountInside(ps[1..], r)
  }

  /** The pellets that r does not touch, in their original order. */
  function Uneaten(ps: seq<Pos>, r: Rect): (rest: seq<Pos>)
    ensures forall p :: p in rest <==> p in ps && !CollidePoint(r, p)
    ensures IsSubseq(rest, ps)
    ensures |rest| == |ps| - CountInside(ps, r)
  {
    if ps == [] then []
    else
      var tail := Uneaten(ps[1..], r);
      if CollidePoint(r, ps[0]) then
        SubseqOfTail(tail, ps);
        tail
      else
        assert ([ps[0]] + tail)[1..] == tail;
        [ps[0]] + tail
  }

  lemma SubseqOfTail(a: seq<Pos>, b: seq<Pos>)
    requires b != [] && IsSubseq(a, b[1..])
    ensures IsSubseq(a, b)
  {
  }

  lemma {:induction false} SubseqLength(a: seq<Pos>, b: seq<Pos>)
    requires IsSubseq(a, b)
    ensures |a| <= |b|
    decreases |b|
  {
    if a != [] {
      if a[0] == b[0] && IsSubseq(a[1..], b[1..]) {
        SubseqLength(a[1..], b[1..]);
      } else {
        SubseqLength(a, b[1..]);
      }
    }
  }

  lemma {:induction false} SubseqMembers(a: seq<Pos>, b: seq<Pos>)
    requires IsSubseq(a, b)
    ensures forall p :: p in a ==> p in b
    decreases |b|
  {
    if a != [] {
      if a[0] == b[0] && IsSubseq(a[1..], b[1..]) {
        SubseqMembers(a[1..], b[1..]);
        assert forall p :: p in a ==> p == a[0] || p in a[1..];
      } else {
        SubseqMembers(a, b[1..]);
      }
    }
  }

  lemma {:induction false} SubseqTrans(a: seq<Pos>, b: seq<Pos>, c: seq<Pos>)
    requires IsSubseq(a, b) && IsSubseq(b, c)
    ensures IsSubseq(a, c)
    decreases |c|
  {
    if a == [] {
    } else if b[0] == c[0] && IsSubseq(b[1..], c[1..]) {
      if a[0] == b[0] && IsSubseq(a[1..], b[1..]) {
        SubseqTrans(a[1..], b[1..], c[1..]);
      } else {
        SubseqTrans(a, b[1..], c[1..]);
        SubseqOfTail(a, c);
      }
    } else {
      SubseqTrans(a, b, c[1..]);
      SubseqOfTail(a, c);
    }
  }

  /** A subsequence of a row-major list is row-major. */
  lemma {:induction false} SubseqRowMajor(a: seq<Pos>, b: seq<Pos>)
    requires IsSubseq(a, b) && RowMajor(b)
    ensures RowMajor(a)
    decreases |b|
  {
    if a != [] {
      assert RowMajor(b[1..]);
      if a[0] == b[0] && IsSubseq(a[1..], b[1..]) {
        SubseqRowMajor(a[1..], b[1..]);
        SubseqMembers(a[1..], b[1..]);
        forall j | 0 < j < |a| ensures Before(a[0], a[j]) {
          assert a[j] in a[1..];
          var k :| 0 <= k < |b[1..]| && b[1..][k] == a[j];
          assert b[k + 1] == a[j];
        }
      } else {
        SubseqRowMajor(a, b[1..]);
      }
    }
  }

  /** When no point of ps is inside r, nothing is removed. */
  lemma {:induction false} NothingInside(ps: seq<Pos>, r: Rect)
    requires forall p :: p in ps ==> !CollidePoint(r, p)
    ensures Uneaten(ps, r) == ps
  {
    if ps != [] {
      NothingInside(ps[1..], r);
      assert ps == [ps[0]] + ps[1..];
    }
  }

  /** Pac-Man standing at a lattice point eats at most one pellet of a
      row-major lattice list: the one under him, if it is still there. */
  lemma {:induction false} EatsAtMostOne(ps: seq<Pos>, pac: Pos)
    requires RowMajor(ps)
    requires forall p :: p in ps ==> OnLattice(p)
    requires OnLattice(pac)
    ensures CountInside(ps, Box(pac)) == if pac in ps then 1 else 0
  {
    if ps != [] {
      assert RowMajor(ps[1..]);
      EatsAtMostOne(ps[1..], pac);
      BoxContainsOnlyCentre(pac, ps[0]);
      if ps[0] == pac {
        if pac in ps[1..] {
          var k :| 0 <= k < |ps[1..]| && ps[1..][k] == pac;
          RowMajorDistinct(ps, 0, k + 1);
        }
      } else {
        assert pac in ps <==> pac in ps[1..];
      }
    }
  }
}
