/** Ghost behaviour: the greedy "Chase" step (`Ghost.update` and
    `move_towards_target`) and the Ghost object. */
module Chase {
  import opened Geometry
  import opened Maze
  import opened Entity

  /** A gap of more than this many pixels on an axis makes a ghost step on it. */
  const ChaseThreshold: int := 30

  /** The step a ghost takes on one axis: towards the target when the gap
      exceeds ChaseThreshold, otherwise none. */
  function AxisStep(own: int, target: int): (d: int)
    ensures -1 <= d <= 1
    ensures d != 0 <==> Abs(own - target) > ChaseThreshold
    ensures d == 1 <==> Abs(own - target) > ChaseThreshold && own < target
    ensures d == -1 <==> Abs(own - target) > ChaseThreshold && own > target
  {
    if Abs(own - target) > ChaseThreshold then
      if own < target then 1 else if own > target then -1 else 0
    else 0
  }

  /** The position of a ghost at p after one Chase step towards target:
      one `move(dx, dy)` with each axis chosen independently. */
  function Chased(p: Pos, target: Pos): Pos
  {
    MoveTo(p, AxisStep(p.x, target.x), AxisStep(p.y, target.y))
  }

  /** A Chase step never takes a ghost farther from its target on either
      axis, and when it moves at all it gets strictly closer on an axis. */
  lemma ChaseApproaches(p: Pos, target: Pos)
    ensures Abs(Chased(p, target).x - target.x) <= Abs(p.x - target.x)
    ensures Abs(Chased(p, target).y - target.y) <= Abs(p.y - target.y)
    ensures Chased(p, target) != p ==>
      Abs(Chased(p, target).x - target.x) + Abs(Chased(p, target).y - target.y)
        < Abs(p.x - target.x) + Abs(p.y - target.y)
  {
    var dx, dy := AxisStep(p.x, target.x), AxisStep(p.y, target.y);
    if Step(p, dx, dy).Moved? {
      assert Chased(p, target) == Shifted(p, dx, dy);
    }
  }

  /** A ghost within ChaseThreshold of the target on both axes stays put,
      wherever it stands (Blinky in its wall-cell spawn included). */
  lemma CloseGhostStays(p: Pos, target: Pos)
    requires Abs(p.x - target.x) <= ChaseThreshold && Abs(p.y - target.y) <= ChaseThreshold
    ensures Chased(p, target) == p
  {
    assert Shifted(p, 0, 0) == p;
  }

  /** Chase steps keep a ghost in range: from any lattice point above the
      bottom wall row the maze lookup stays in range and the ghost either
      stays where it is or ends on an open lattice cell. */
  lemma ChaseLegal(p: Pos, target: Pos)
    requires OnLattice(p) && p.y < 6 * CellSize
    ensures !Step(p, AxisStep(p.x, target.x), AxisStep(p.y, target.y)).IndexError?
    ensures Chased(p, target) == p || OnGrid(Chased(p, target))
  {
    StepLegal(p, AxisStep(p.x, target.x), AxisStep(p.y, target.y));
  }

  /** Pinky's first decision: from (270, 90) towards Pac-Man at (90, 90) the
      horizontal gap is 180 and the vertical gap 0, so it moves left only. */
  lemma PinkyFirstStep()
    ensures AxisStep(270, 90) == -1 && AxisStep(90, 90) == 0
    ensures Chased(Pos(270, 90), Pos(90, 90)) == Pos(240, 90)
  {
    GridShape();
    assert Shifted(Pos(270, 90), -1, 0) == Pos(240, 90);
    assert Grid[1][4] == '0';
  }

  /** A ghost: a game object (by composition) plus the spawn point it is
      reset to. Its only state is "Chase"; the name and colour are not
      modelled. The target is passed to Update instead of being stored,
      since the game sets it immediately before every update. */
  class Ghost {
    const body: GameObject
    const initialPosition: Pos

    constructor (x0: int, y0: int)
      ensures fresh(body) && body.x == x0 && body.y == y0 && body.Synced()
      ensures initialPosition == Pos(x0, y0)
    {
      body := new GameObject(x0, y0);
      initialPosition := Pos(x0, y0);
    }

    /** One Chase step: choose dx and dy independently, then make exactly
        one `move(dx, dy)`. */
    method Update(target: Pos)
      requires !Step(Pos(body.x, body.y), AxisStep(body.x, target.x), AxisStep(body.y, target.y)).IndexError?
      modifies body
      ensures Pos(body.x, body.y) == Chased(old(Pos(body.x, body.y)), target)
      ensures old(body.Synced()) ==> body.Synced()
    {
      var dx, dy := 0, 0;
      if Abs(body.x - target.x) > ChaseThreshold {
        if body.x < target.x {
          dx := 1;
        } else if body.x > target.x {
          dx := -1;
        }
      }
      if Abs(body.y - target.y) > ChaseThreshold {
        if body.y < target.y {
          dy := 1;
        } else if body.y > target.y {
          dy := -1;
        }
      }
      assert dx == AxisStep(body.x, target.x) && dy == AxisStep(body.y, target.y);
      body.Move(dx, dy);
    }
  }
}
