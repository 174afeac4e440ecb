/** One pass of the main loop body, stated on values: the abstract game
    state, the four phases of a tick, and what they preserve. */
module Simulation {
  import opened Geometry
  import opened Maze
  import opened Entity
  import opened Chase
  import opened Pellets

  /** The events the loop reacts to: a KEYDOWN of a, d, w or s, any other
      event (other keys included), and the window's QUIT. */
  datatype Event = Left | Right | Up | Down | Other | Quit

  /** A ghost's position and the spawn point it is reset to. */
  datatype GhostState = GhostState(pos: Pos, initial: Pos)

  /** Everything a tick reads or writes; the boxes are not listed because
      they are always the Box of the position. */
  datatype State = State(
    pac: Pos,
    ghosts: seq<GhostState>,
    pellets: seq<Pos>,
    score: int,
    lives: int,
    running: bool)

  const PacSpawn: Pos := Pos(90, 90)

  /** Blinky, Pinky, Inky and Clyde, in list order. Clyde spawns on
      Pac-Man's spawn point; Blinky spawns inside a wall cell. */
  const GhostSpawns: seq<Pos> := [Pos(270, 270), Pos(270, 90), Pos(90, 270), Pos(90, 90)]

  const PelletScore: int := 10
  const InitialLives: int := 3

  function AtSpawns(spawns: seq<Pos>): (gs: seq<GhostState>)
    ensures |gs| == |spawns|
    ensures forall i :: 0 <= i < |gs| ==> gs[i].pos == spawns[i] && gs[i].initial == spawns[i]
  {
    seq(|spawns|, i requires 0 <= i < |spawns| => GhostState(spawns[i], spawns[i]))
  }

  /** The state before the first tick. */
  function Initial(): State
  {
    State(PacSpawn, AtSpawns(GhostSpawns), InitialPellets(), 0, InitialLives, true)
  }

  // ---------------------------------------------------------------------
  // Phase 1: the event queue

  /** One event: a movement key makes exactly one move of Pac-Man, QUIT
      only clears `running`, anything else does nothing. */
  function ApplyEvent(s: State, e: Event): State
  {
    match e
    case Left => s.(pac := MoveTo(s.pac, -1, 0))
    case Right => s.(pac := MoveTo(s.pac, 1, 0))
    case Up => s.(pac := MoveTo(s.pac, 0, -1))
    case Down => s.(pac := MoveTo(s.pac, 0, 1))
    case Other => s
    case Quit => s.(running := false)
  }

  /** The events of one poll, in queue order. */
  function ApplyEvents(s: State, events: seq<Event>): State
    decreases |events|
  {
    if events == [] then s else ApplyEvents(ApplyEvent(s, events[0]), events[1..])
  }

  /** The event phase touches only Pac-Man and `running`; `running` ends
      false exactly when it was already false or a QUIT came; Pac-Man stays
      on an open lattice cell. */
  lemma {:induction false} EventsEffect(s: State, events: seq<Event>)
    ensures ApplyEvents(s, events).ghosts == s.ghosts
    ensures ApplyEvents(s, events).pellets == s.pellets
    ensures ApplyEvents(s, events).score == s.score
    ensures ApplyEvents(s, events).lives == s.lives
    ensures ApplyEvents(s, events).running <==> s.running && Quit !in events
    ensures OnGrid(s.pac) ==> OnGrid(ApplyEvents(s, events).pac)
    decreases |events|
  {
    if events != [] {
      var u := ApplyEvent(s, events[0]);
      EventsEffect(u, events[1..]);
      assert Quit in events <==> events[0] == Quit || Quit in events[1..];
      if OnGrid(s.pac) {
        match events[0]
        case Left => StepKeepsOnGrid(s.pac, -1, 0);
        case Right => StepKeepsOnGrid(s.pac, 1, 0);
        case Up => StepKeepsOnGrid(s.pac, 0, -1);
        case Down => StepKeepsOnGrid(s.pac, 0, 1);
        case Other =>
        case Quit =>
      }
    }
  }

  /** Whether a QUIT comes first or last does not change where Pac-Man
      ends up: QUIT does not stop the rest of the queue. */
  lemma {:induction false} QuitDoesNotStopQueue(s: State, before: seq<Event>, after: seq<Event>)
    ensures ApplyEvents(s, before + [Quit] + after).pac == ApplyEvents(s, before + after).pac
    decreases |before|
  {
    if before == [] {
      var q := [Quit] + after;
      assert q[0] == Quit && q[1..] == after;
      assert before + [Quit] + after == q && before + after == after;
      assert ApplyEvents(s, q) == ApplyEvents(s.(running := false), after);
      PacIgnoresRunning(s.(running := false), s, after);
    } else {
      assert (before + [Quit] + after)[0] == before[0];
      assert (before + [Quit] + after)[1..] == before[1..] + [Quit] + after;
      assert (before + after)[0] == before[0];
      assert (before + after)[1..] == before[1..] + after;
      QuitDoesNotStopQueue(ApplyEvent(s, before[0]), before[1..], after);
    }
  }

  /** Pac-Man's moves do not depend on `running`. */
  lemma {:induction false} PacIgnoresRunning(s: State, t: State, events: seq<Event>)
    requires s.pac == t.pac
    ensures ApplyEvents(s, events).pac == ApplyEvents(t, events).pac
    decreases |events|
  {
    if events != [] {
      PacIgnoresRunning(ApplyEvent(s, events[0]), ApplyEvent(t, events[0]), events[1..]);
    }
  }

  // ---------------------------------------------------------------------
  // Phase 2: the ghosts

  /** Every ghost, in list order, takes one Chase step towards Pac-Man's
      current position (which no ghost step changes). */
  function ChaseAll(s: State): State
  {
    s.(ghosts := seq(|s.ghosts|, i requires 0 <= i < |s.ghosts| =>
      s.ghosts[i].(pos := Chased(s.ghosts[i].pos, s.pac))))
  }

  // ---------------------------------------------------------------------
  // Phase 3: the pellets

  /** Pellets inside Pac-Man's box are removed; 10 points for each. */
  function Eat(s: State): State
  {
    var rest := Uneaten(s.pellets, Box(s.pac));
    s.(pellets := rest, score := s.score + PelletScore * (|s.pellets| - |rest|))
  }

  // ---------------------------------------------------------------------
  // Phase 4: the ghost collisions

  /** The boxes of Pac-Man and ghost i overlap. */
  predicate Collides(s: State, i: int)
    requires 0 <= i < |s.ghosts|
  {
    CollideRect(Box(s.pac), Box(s.ghosts[i].pos))
  }

  /** Pac-Man back to (90, 90) and every ghost back to its spawn point. */
  function ResetAll(s: State): State
  {
    s.(pac := PacSpawn, ghosts := seq(|s.ghosts|, i requires 0 <= i < |s.ghosts| =>
      GhostState(s.ghosts[i].initial, s.ghosts[i].initial)))
  }

  /** Everybody at their spawn point. */
  predicate AtSpawn(s: State)
  {
    s.pac == PacSpawn && forall i :: 0 <= i < |s.ghosts| ==> s.ghosts[i].pos == s.ghosts[i].initial
  }

  /** The check of ghost i: on overlap, one life less and everybody reset. */
  function CollideAt(s: State, i: int): (t: State)
    requires 0 <= i < |s.ghosts|
    ensures |t.ghosts| == |s.ghosts|
  {
    if Collides(s, i) then ResetAll(s).(lives := s.lives - 1) else s
  }

  /** The checks of ghosts i, i + 1, ... in list order, each against the
      positions left by the previous checks. */
  function CollideFrom(s: State, i: int): State
    requires 0 <= i <= |s.ghosts|
    decreases |s.ghosts| - i
  {
    if i == |s.ghosts| then s else CollideFrom(CollideAt(s, i), i + 1)
  }

  /** The collision phase: it never adds a life, it changes nothing at all
      unless some life is lost, and when one is lost everybody ends at their
      spawn point. Pellets, score, `running` and the spawn points are never
      touched. */
  lemma {:induction false} CollisionsEffect(s: State, i: int)
    requires 0 <= i <= |s.ghosts|
    ensures var t := CollideFrom(s, i);
      |t.ghosts| == |s.ghosts| &&
      (forall k :: 0 <= k < |t.ghosts| ==> t.ghosts[k].initial == s.ghosts[k].initial) &&
      t.pellets == s.pellets && t.score == s.score && t.running == s.running &&
      t.lives <= s.lives &&
      (t.lives == s.lives ==> t == s) &&
      (t.lives < s.lives ==> AtSpawn(t))
    decreases |s.ghosts| - i
  {
    if i < |s.ghosts| {
      CollisionsEffect(CollideAt(s, i), i + 1);
    }
  }

  /** No collision among the ghosts from i up to k: the checks up to k do
      nothing. */
  lemma {:induction false} NoHitsBefore(s: State, i: int, k: int)
    requires 0 <= i <= k <= |s.ghosts|
    requires forall j :: i <= j < k ==> !Collides(s, j)
    ensures CollideFrom(s, i) == CollideFrom(s, k)
    decreases k - i
  {
    if i < k {
      NoHitsBefore(s, i + 1, k);
    }
  }

  /** The ghosts carry the source's four spawn points, in list order. */
  predicate SpawnsAsInSource(s: State)
  {
    |s.ghosts| == |GhostSpawns| && forall i :: 0 <= i < |s.ghosts| ==> s.ghosts[i].initial == GhostSpawns[i]
  }

  /** Resetting a state that is already at its spawn points changes nothing. */
  lemma ResetAtSpawn(s: State)
    requires AtSpawn(s)
    ensures ResetAll(s) == s
  {
    assert ResetAll(s).ghosts == s.ghosts;
  }

  /** Right after a reset, only Clyde (who spawns on Pac-Man) overlaps
      Pac-Man, so the remaining checks cost exactly one more life. */
  lemma {:induction false} ClydeHitsAfterReset(s: State, i: int)
    requires SpawnsAsInSource(s) && AtSpawn(s)
    requires 0 <= i <= 3
    ensures CollideFrom(s, i) == s.(lives := s.lives - 1)
    decreases 3 - i
  {
    forall j | 0 <= j < 3 ensures !Collides(s, j) {
      assert s.ghosts[j].pos == GhostSpawns[j];
    }
    NoHitsBefore(s, i, 3);
    assert Collides(s, 3) by {
      assert s.ghosts[3].pos == Pos(90, 90);
    }
    ResetAtSpawn(s);
    assert CollideAt(s, 3) == s.(lives := s.lives - 1);
  }

  /** When the first overlapping ghost is Blinky, Pinky or Inky, the tick
      costs two lives: after the reset Clyde sits on Pac-Man and is checked
      again. When it is Clyde, the tick costs one life. */
  lemma FirstHitCost(s: State, k: int)
    requires SpawnsAsInSource(s)
    requires 0 <= k < 4
    requires forall j :: 0 <= j < k ==> !Collides(s, j)
    requires Collides(s, k)
    ensures CollideFrom(s, 0).lives == s.lives - (if k < 3 then 2 else 1)
    ensures AtSpawn(CollideFrom(s, 0))
  {
    NoHitsBefore(s, 0, k);
    var u := CollideAt(s, k);
    assert SpawnsAsInSource(u) && AtSpawn(u);
    if k < 3 {
      ClydeHitsAfterReset(u, k + 1);
    }
  }

  // ---------------------------------------------------------------------
  // The whole tick

  /** One pass of the loop body (drawing aside). */
  function TickSpec(s: State, events: seq<Event>): State
  {
    CollideFrom(Eat(ChaseAll(ApplyEvents(s, events))), 0)
  }

  /** Where a ghost may stand: on an open lattice cell, or still at its
      spawn point (Blinky's is inside a wall). */
  predicate GhostPlaced(g: GhostState)
  {
    OnGrid(g.pos) || g.pos == g.initial
  }

  /** The invariant of every reachable state: Pac-Man on an open lattice
      cell, the ghosts placed and carrying the source's spawn points, the
      pellets what is left of the initial list in its order, the score 10
      per pellet gone, and no more than the initial lives. */
  ghost predicate Inv(s: State)
  {
    OnGrid(s.pac) &&
    SpawnsAsInSource(s) &&
    (forall i :: 0 <= i < |s.ghosts| ==> GhostPlaced(s.ghosts[i])) &&
    IsSubseq(s.pellets, InitialPellets()) &&
    s.score == PelletScore * (|InitialPellets()| - |s.pellets|) &&
    s.lives <= InitialLives
  }

  /** Every spawn point is legal to move from: on the lattice, above the
      bottom wall row; all but Blinky's are open. */
  lemma SpawnFacts()
    ensures OnGrid(PacSpawn)
    ensures forall i :: 0 <= i < |GhostSpawns| ==> OnLattice(GhostSpawns[i]) && GhostSpawns[i].y < 6 * CellSize
    ensures forall i :: 1 <= i < |GhostSpawns| ==> OnGrid(GhostSpawns[i])
    ensures InGrid(GhostSpawns[0]) && CellAt(GhostSpawns[0]) == '1'
  {
    GridShape();
    assert Grid[1][1] == '0' && Grid[1][4] == '0' && Grid[4][1] == '0' && Grid[4][4] == '1';
  }

  lemma InitialInv()
    ensures Inv(Initial())
  {
    SpawnFacts();
    assert IsSubseq(InitialPellets(), InitialPellets()) by {
      SubseqRefl(InitialPellets());
    }
  }

  lemma {:induction false} SubseqRefl(a: seq<Pos>)
    ensures IsSubseq(a, a)
    decreases |a|
  {
    if a != [] {
      SubseqRefl(a[1..]);
    }
  }

  /** A legal ghost stays legal under a Chase step. */
  lemma ChasePlaced(g: GhostState, target: Pos)
    requires GhostPlaced(g) && OnLattice(g.initial) && g.initial.y < 6 * CellSize
    ensures !Step(g.pos, AxisStep(g.pos.x, target.x), AxisStep(g.pos.y, target.y)).IndexError?
    ensures GhostPlaced(g.(pos := Chased(g.pos, target)))
  {
    if OnGrid(g.pos) {
      OpenIsInterior(g.pos);
    }
    ChaseLegal(g.pos, target);
  }

  /** Pellets left by Inv: row-major and each a lattice point. */
  lemma PelletsOrdered(s: State)
    requires Inv(s)
    ensures RowMajor(s.pellets)
    ensures forall p :: p in s.pellets ==> OnLattice(p)
    ensures |s.pellets| <= |InitialPellets()|
    ensures s.score >= 0
  {
    InitialPelletsSpec();
    SubseqRowMajor(s.pellets, InitialPellets());
    SubseqMembers(s.pellets, InitialPellets());
    SubseqLength(s.pellets, InitialPellets());
  }

  lemma EventsKeepInv(s: State, events: seq<Event>)
    requires Inv(s)
    ensures Inv(ApplyEvents(s, events))
  {
    EventsEffect(s, events);
  }

  lemma ChaseKeepsInv(s: State)
    requires Inv(s)
    ensures Inv(ChaseAll(s))
  {
    var b := ChaseAll(s);
    SpawnFacts();
    forall i | 0 <= i < |s.ghosts| ensures GhostPlaced(b.ghosts[i]) {
      assert s.ghosts[i].initial == GhostSpawns[i];
      ChasePlaced(s.ghosts[i], s.pac);
    }
  }

  /** The pellet phase keeps the invariant and removes at most the one
      pellet under Pac-Man. */
  lemma EatKeepsInv(s: State)
    requires Inv(s)
    ensures Inv(Eat(s))
    ensures |s.pellets| - |Eat(s).pellets| == if s.pac in s.pellets then 1 else 0
  {
    var c := Eat(s);
    PelletsOrdered(s);
    OpenIsInterior(s.pac);
    EatsAtMostOne(s.pellets, s.pac);
    SubseqTrans(c.pellets, s.pellets, InitialPellets());
  }

  lemma CollisionsKeepInv(s: State)
    requires Inv(s)
    ensures Inv(CollideFrom(s, 0))
  {
    CollisionsEffect(s, 0);
    var t := CollideFrom(s, 0);
    if t.lives < s.lives {
      SpawnFacts();
      forall i | 0 <= i < |t.ghosts| ensures GhostPlaced(t.ghosts[i]) {
        assert t.ghosts[i].pos == t.ghosts[i].initial;
      }
    }
  }

  /** A tick keeps the invariant, never adds a pellet or a life, removes at
      most one pellet (the one under Pac-Man) and adds exactly 10 points per
      pellet removed. */
  lemma TickPreservesInv(s: State, events: seq<Event>)
    requires Inv(s)
    ensures Inv(TickSpec(s, events))
    ensures |TickSpec(s, events).pellets| <= |s.pellets|
    ensures |s.pellets| - |TickSpec(s, events).pellets| <= 1
    ensures TickSpec(s, events).score == s.score + PelletScore * (|s.pellets| - |TickSpec(s, events).pellets|)
    ensures TickSpec(s, events).lives <= s.lives
    ensures TickSpec(s, events).running <==> s.running && Quit !in events
  {
    var a := ApplyEvents(s, events);
    EventsEffect(s, events);
    EventsKeepInv(s, events);
    var b := ChaseAll(a);
    ChaseKeepsInv(a);
    var c := Eat(b);
    EatKeepsInv(b);
    CollisionsEffect(c, 0);
    CollisionsKeepInv(c);
  }

  /** Scenario from the spawn points: with no input, Pinky and Inky step
      towards Pac-Man, Blinky's diagonal step is blocked by a wall, Clyde
      stays on Pac-Man, and the tick costs one life and resets everybody. */
  lemma IdleTickAtSpawn(s: State)
    requires SpawnsAsInSource(s) && AtSpawn(s)
    ensures ChaseAll(s).ghosts[0].pos == GhostSpawns[0]
    ensures ChaseAll(s).ghosts[1].pos == Pos(240, 90)
    ensures ChaseAll(s).ghosts[2].pos == Pos(90, 240)
    ensures ChaseAll(s).ghosts[3].pos == PacSpawn
    ensures TickSpec(s, []).lives == s.lives - 1
    ensures AtSpawn(TickSpec(s, []))
  {
    GridShape();
    var c := Eat(ChaseAll(s));
    assert c.pac == PacSpawn && SpawnsAsInSource(c);
    assert Grid[4][4] == '1' && Grid[1][4] == '0' && Grid[4][1] == '0';
    assert Shifted(Pos(270, 270), -1, -1) == Pos(240, 240);
    assert c.ghosts[0].pos == Pos(270, 270);
    assert Shifted(Pos(270, 90), -1, 0) == Pos(240, 90);
    assert c.ghosts[1].pos == Pos(240, 90);
    assert Shifted(Pos(90, 270), 0, -1) == Pos(90, 240);
    assert c.ghosts[2].pos == Pos(90, 240);
    assert Shifted(Pos(90, 90), 0, 0) == Pos(90, 90);
    assert c.ghosts[3].pos == Pos(90, 90);
    FirstHitCost(c, 3);
  }

  // ---------------------------------------------------------------------
  // The loop

  /** `while running:` one tick per batch of polled events, until QUIT has
      been seen or the batches run out. */
  function RunSpec(s: State, batches: seq<seq<Event>>): State
    decreases |batches|
  {
    if !s.running || batches == [] then s else RunSpec(TickSpec(s, batches[0]), batches[1..])
  }

  /** Over any number of ticks the invariant holds, and the pellet count,
      the lives and the score-minus-pellets bookkeeping never go the wrong
      way. */
  lemma {:induction false} RunPreservesInv(s: State, batches: seq<seq<Event>>)
    requires Inv(s)
    ensures Inv(RunSpec(s, batches))
    ensures |RunSpec(s, batches).pellets| <= |s.pellets|
    ensures RunSpec(s, batches).lives <= s.lives
    ensures RunSpec(s, batches).score == s.score + PelletScore * (|s.pellets| - |RunSpec(s, batches).pellets|)
    decreases |batches|
  {
    if s.running && batches != [] {
      TickPreservesInv(s, batches[0]);
      RunPreservesInv(TickSpec(s, batches[0]), batches[1..]);
    }
  }
}
