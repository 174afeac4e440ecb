/** The game's mutable state and the main loop: Pac-Man, the ghost list,
    the pellet list, score, lives and `running`, updated in place one tick
    at a time, and proved to follow the value-level Simulation. */
module Game {
  import opened Geometry
  import opened Maze
  import opened Entity
  import opened Chase
  import opened Pellets
  import opened Simulation

  class GameState {
    const pacman: GameObject
    const ghosts: seq<Ghost>
    var pellets: seq<Pos>
    var score: int
    var lives: int
    var running: bool

    /** The game objects of the ghosts. */
    ghost const bodies: set<GameObject>

    /** Every ghost's game object belongs to the footprint. */
    ghost predicate Owns()
    {
      forall i :: 0 <= i < |ghosts| ==> ghosts[i].body in bodies
    }

    ghost function GhostStates(): (gs: seq<GhostState>)
      requires Owns()
      reads bodies
      ensures |gs| == |ghosts|
    {
      seq(|ghosts|, i requires 0 <= i < |ghosts| reads bodies =>
        GhostState(Pos(ghosts[i].body.x, ghosts[i].body.y), ghosts[i].initialPosition))
    }

    /** The value the object graph stands for. */
    ghost function Snapshot(): State
      requires Owns()
      reads this, pacman, bodies
    {
      State(Pos(pacman.x, pacman.y), GhostStates(), pellets, score, lives, running)
    }

    /** Pac-Man and the ghosts are separate objects, each with its box
        centred on its position. */
    ghost predicate Wired()
      reads this, pacman, bodies
    {
      Owns() && pacman.Synced() && pacman !in bodies &&
      (forall i :: 0 <= i < |ghosts| ==> ghosts[i].body.Synced()) &&
      (forall i, j :: 0 <= i < j < |ghosts| ==> ghosts[i].body != ghosts[j].body)
    }

    ghost predicate Valid()
      reads this, pacman, bodies
    {
      Wired() && Inv(Snapshot())
    }

    /** The start-up code: Pac-Man at (90, 90), the four ghosts, the full
        pellet list, score 0, three lives. */
    constructor ()
      ensures Valid()
      ensures Snapshot() == Initial()
      ensures fresh(pacman) && fresh(bodies)
    {
      pacman := new GameObject(90, 90);
      var blinky := new Ghost(270, 270);
      var pinky := new Ghost(270, 90);
      var inky := new Ghost(90, 270);
      var clyde := new Ghost(90, 90);
      ghosts := [blinky, pinky, inky, clyde];
      bodies := {blinky.body, pinky.body, inky.body, clyde.body};
      score := 0;
      lives := 3;
      running := true;
      pellets := InitialPellets();
      new;
      assert Wired() by {
        assert pacman != blinky.body && pacman != pinky.body && pacman != inky.body && pacman != clyde.body;
        assert blinky.body != pinky.body && blinky.body != inky.body && blinky.body != clyde.body;
        assert pinky.body != inky.body && pinky.body != clyde.body && inky.body != clyde.body;
      }
      assert GhostStates() == AtSpawns(GhostSpawns);
      InitialInv();
    }

    /** One pass of the loop body, drawing aside: the polled events in
        order, every ghost's Chase step, the pellet filter and its score,
        and the collision checks with their resets. */
    method Tick(events: seq<Event>)
      requires Valid()
      modifies this, pacman, bodies
      ensures Valid()
      ensures Snapshot() == TickSpec(old(Snapshot()), events)
    {
      ghost var s0 := Snapshot();
      TickPreservesInv(s0, events);
      EventsKeepInv(s0, events);
      ApplyInput(events);
      UpdateGhosts();
      EatPellets();
      CheckCollisions();
    }

    /** The event loop: a, d, w, s move Pac-Man, QUIT clears `running`. */
    method ApplyInput(events: seq<Event>)
      requires Wired() && OnGrid(Pos(pacman.x, pacman.y))
      modifies this, pacman
      ensures Wired()
      ensures Snapshot() == ApplyEvents(old(Snapshot()), events)
    {
      for k := 0 to |events|
        invariant Wired()
        invariant OnGrid(Pos(pacman.x, pacman.y))
        invariant ApplyEvents(Snapshot(), events[k..]) == ApplyEvents(old(Snapshot()), events)
      {
        ghost var before := Snapshot();
        assert events[k..][0] == events[k] && events[k..][1..] == events[k + 1..];
        assert ApplyEvents(before, events[k..]) == ApplyEvents(ApplyEvent(before, events[k]), events[k + 1..]);
        match events[k] {
          case Quit =>
            running := false;
          case Left =>
            StepKeepsOnGrid(Pos(pacman.x, pacman.y), -1, 0);
            pacman.Move(-1, 0);
          case Right =>
            StepKeepsOnGrid(Pos(pacman.x, pacman.y), 1, 0);
            pacman.Move(1, 0);
          case Up =>
            StepKeepsOnGrid(Pos(pacman.x, pacman.y), 0, -1);
            pacman.Move(0, -1);
          case Down =>
            StepKeepsOnGrid(Pos(pacman.x, pacman.y), 0, 1);
            pacman.Move(0, 1);
          case Other =>
        }
        assert Snapshot() == ApplyEvent(before, events[k]);
      }
    }

    /** Every ghost, in list order, targets Pac-Man and takes its step. */
    method UpdateGhosts()
      requires Wired() && Inv(Snapshot())
      modifies bodies
      ensures Wired()
      ensures Snapshot() == ChaseAll(old(Snapshot()))
    {
      ghost var s1 := Snapshot();
      SpawnFacts();
      for i := 0 to |ghosts|
        invariant Wired()
        invariant forall j :: 0 <= j < i ==> Pos(ghosts[j].body.x, ghosts[j].body.y) == Chased(s1.ghosts[j].pos, s1.pac)
        invariant forall j :: i <= j < |ghosts| ==> Pos(ghosts[j].body.x, ghosts[j].body.y) == s1.ghosts[j].pos
      {
        assert s1.ghosts[i].initial == GhostSpawns[i];
        ChasePlaced(s1.ghosts[i], s1.pac);
        ghosts[i].Update(Pos(pacman.x, pacman.y));
      }
      assert GhostStates() == ChaseAll(s1).ghosts;
    }

    /** The pellet filter and the score it earns. */
    method EatPellets()
      requires Wired()
      modifies this
      ensures Wired()
      ensures Snapshot() == Eat(old(Snapshot()))
    {
      var eatenPellets := |pellets|;
      pellets := Uneaten(pellets, pacman.rect);
      eatenPellets := eatenPellets - |pellets|;
      score := score + 10 * eatenPellets;
    }

    /** The ghost checks in list order; each overlap costs a life and
        resets everybody before the next ghost is checked. */
    method CheckCollisions()
      requires Wired()
      modifies this, pacman, bodies
      ensures Wired()
      ensures Snapshot() == CollideFrom(old(Snapshot()), 0)
    {
      for i := 0 to |ghosts|
        invariant Wired()
        invariant CollideFrom(Snapshot(), i) == CollideFrom(old(Snapshot()), 0)
      {
        ghost var before := Snapshot();
        if CollideRect(pacman.rect, ghosts[i].body.rect) {
          lives := lives - 1;
          ResetEntities();
          assert Snapshot() == CollideAt(before, i);
        }
      }
    }

    /** Pac-Man back to (90, 90), every ghost back to its initial position,
        boxes moved along. */
    method ResetEntities()
      requires Wired()
      modifies pacman, bodies
      ensures Wired()
      ensures Snapshot() == ResetAll(old(Snapshot()))
    {
      pacman.x, pacman.y := 90, 90;
      pacman.rect := pacman.rect.(left := 90 - pacman.size, top := 90 - pacman.size);
      for j := 0 to |ghosts|
        modifies bodies
        invariant Wired()
        invariant forall k :: 0 <= k < j ==> Pos(ghosts[k].body.x, ghosts[k].body.y) == ghosts[k].initialPosition
      {
        var g := ghosts[j];
        g.body.x, g.body.y := g.initialPosition.x, g.initialPosition.y;
        g.body.rect := g.body.rect.(left := g.body.x - g.body.size, top := g.body.y - g.body.size);
      }
      assert GhostStates() == ResetAll(old(Snapshot())).ghosts;
    }

    /** `while running:` one tick per batch of polled events, stopping once
        a QUIT has been seen (or the batches run out). */
    method Run(batches: seq<seq<Event>>)
      requires Valid()
      modifies this, pacman, bodies
      ensures Valid()
      ensures Snapshot() == RunSpec(old(Snapshot()), batches)
    {
      var k := 0;
      while running && k < |batches|
        invariant 0 <= k <= |batches|
        invariant Valid()
        invariant RunSpec(Snapshot(), batches[k..]) == RunSpec(old(Snapshot()), batches)
      {
        assert batches[k..][0] == batches[k] && batches[k..][1..] == batches[k + 1..];
        Tick(batches[k]);
        k := k + 1;
      }
    }
  }
}
