/** The movement primitive shared by Pac-Man and the ghosts
    (`GameObject.move`) and the object that carries a position and a box. */
module Entity {
  import opened Geometry
  import opened Maze

  /** What one call of `move` does. IndexError is the case in which the
      maze lookup would index past the last maze row (window rows 7 to 9);
      Python raises there, and no legal position ever gets there. */
  datatype Outcome = OffWindow | IndexError | Wall | Moved(to: Pos)

  /** The target point of `move(dx, dy)`: StepPx pixels per unit. */
  function Shifted(p: Pos, dx: int, dy: int): Pos
  {
    Pos(p.x + dx * StepPx, p.y + dy * StepPx)
  }

  /** The decision `move(dx, dy)` takes from position p. */
  function Step(p: Pos, dx: int, dy: int): (r: Outcome)
    ensures r.OffWindow? <==> !InWindow(Shifted(p, dx, dy))
    ensures r.IndexError? <==> InWindow(Shifted(p, dx, dy)) && !InGrid(Shifted(p, dx, dy))
    ensures r.Moved? <==> InGrid(Shifted(p, dx, dy)) && CellAt(Shifted(p, dx, dy)) != '1'
    ensures r.Moved? ==> r.to == Shifted(p, dx, dy)
  {
    var n := Shifted(p, dx, dy);
    if !(0 <= n.x < WindowSize && 0 <= n.y < WindowSize) then OffWindow
    else
      var gridX, gridY := n.x / CellSize, n.y / CellSize;
      if gridY >= |Grid| then IndexError
      else if (GridShape(); Grid[gridY][gridX] == '1') then Wall
      else Moved(n)
  }

  /** The position after `move(dx, dy)`: the target when the step is taken,
      the old position otherwise. */
  function MoveTo(p: Pos, dx: int, dy: int): Pos
  {
    match Step(p, dx, dy)
    case Moved(n) => n
    case _ => p
  }

  /** From any lattice point above the bottom wall row (which covers every
      open cell and every spawn point), a move by at most one unit on each
      axis, diagonals included, never takes the maze lookup out of range,
      and either leaves the position as it was or ends on an open lattice
      cell. */
  lemma {:induction false} StepLegal(p: Pos, dx: int, dy: int)
    requires OnLattice(p) && p.y < 6 * CellSize
    requires -1 <= dx <= 1 && -1 <= dy <= 1
    ensures !Step(p, dx, dy).IndexError?
    ensures MoveTo(p, dx, dy) == p || OnGrid(MoveTo(p, dx, dy))
  {
    var n := Shifted(p, dx, dy);
    assert n.y < 7 * CellSize;
    assert OnLattice(n) by {
      assert n.x == p.x + StepPx * dx && n.y == p.y + StepPx * dy;
    }
  }

  /** Legal positions stay legal: from an open lattice cell every such move
      ends on an open lattice cell. */
  lemma StepKeepsOnGrid(p: Pos, dx: int, dy: int)
    requires OnGrid(p)
    requires -1 <= dx <= 1 && -1 <= dy <= 1
    ensures !Step(p, dx, dy).IndexError?
    ensures OnGrid(MoveTo(p, dx, dy))
  {
    OpenIsInterior(p);
    StepLegal(p, dx, dy);
  }

  /** A step out of the window, or into a wall, changes nothing; a step
      onto an open cell lands exactly on the target point. */
  lemma StepTargets(p: Pos, dx: int, dy: int)
    ensures !InWindow(Shifted(p, dx, dy)) ==> MoveTo(p, dx, dy) == p
    ensures InGrid(Shifted(p, dx, dy)) && CellAt(Shifted(p, dx, dy)) == '1' ==> MoveTo(p, dx, dy) == p
    ensures InGrid(Shifted(p, dx, dy)) && CellAt(Shifted(p, dx, dy)) == '0' ==> MoveTo(p, dx, dy) == Shifted(p, dx, dy)
  {
  }

  /** Steps are half a cell: from (90, 90), the centre of the leftmost open
      cell of row 1, a step left still lands in that cell, at (60, 90), and
      only the next step left reaches the border wall and is rejected. */
  lemma LeftEdgeOfRowOne()
    ensures MoveTo(Pos(90, 90), -1, 0) == Pos(60, 90)
    ensures MoveTo(Pos(60, 90), -1, 0) == Pos(60, 90)
  {
    GridShape();
    assert Shifted(Pos(90, 90), -1, 0) == Pos(60, 90);
    assert Shifted(Pos(60, 90), -1, 0) == Pos(30, 90);
    assert Grid[1][1] == '0' && Grid[1][0] == '1';
  }

  /** A game object: its centre (x, y) and its box `rect`. The colour only
      matters for drawing and is not modelled. */
  class GameObject {
    var x: int
    var y: int
    const size: int := Radius
    var rect: Rect

    /** The box is the 40 x 40 square centred on the position. */
    predicate Synced()
      reads this
    {
      rect == Box(Pos(x, y))
    }

    constructor (x0: int, y0: int)
      ensures x == x0 && y == y0
      ensures Synced()
    {
      x, y := x0, y0;
      rect := Rect(x0 - Radius, y0 - Radius, Radius * 2, Radius * 2);
    }

    /** `move(dx, dy)`: commit the step decided by Step, moving the box's
        top-left corner with it; otherwise leave everything as it was. */
    method Move(dx: int, dy: int)
      requires !Step(Pos(x, y), dx, dy).IndexError?
      modifies this
      ensures Pos(x, y) == MoveTo(old(Pos(x, y)), dx, dy)
      ensures rect == if Step(old(Pos(x, y)), dx, dy).Moved? then old(rect).(left := x - size, top := y - size) else old(rect)
      ensures old(Synced()) ==> Synced()
    {
      var newX := x + dx * StepPx;
      var newY := y + dy * StepPx;
      if !(0 <= newX < WindowSize && 0 <= newY < WindowSize) {
        return;
      }
      var gridX := newX / CellSize;
      var gridY := newY / CellSize;
      GridShape();
      if Grid[gridY][gridX] == '1' {
        return;
      }
      x := newX;
      y := newY;
      rect := rect.(left := newX - size, top := newY - size);
    }
  }
}
