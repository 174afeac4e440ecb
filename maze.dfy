/** The fixed 7 x 10 maze, the conversion from pixels to cells, and the
    pellet list built once from it. */
module Maze {
  import opened Geometry

  /** Row-major; '1' is a wall, '0' an open cell. */
  const Grid: seq<string> := [
    "1111111111",
    "1000000001",
    "1011110101",
    "1010000101",
    "1010110101",
    "1000000001",
    "1111111111"
  ]

  /** Pixels per cell side. */
  const CellSize: int := 60

  /** The window is WindowSize x WindowSize pixels. */
  const WindowSize: int := 600

  lemma GridShape()
    ensures |Grid| == 7
    ensures forall r :: 0 <= r < |Grid| ==> |Grid[r]| == 10
  {
  }

  predicate InWindow(p: Pos)
  {
    0 <= p.x < WindowSize && 0 <= p.y < WindowSize
  }

  /** The point's cell is a row of the maze. Every column of the window is
      in the maze (10 x 60 == 600) but rows 7 to 9 of the window are not. */
  predicate InGrid(p: Pos)
  {
    InWindow(p) && p.y / CellSize < |Grid|
  }

  /** The maze character under a point, `maze[y // 60][x // 60]`. */
  function CellAt(p: Pos): (c: char)
    requires InGrid(p)
    ensures c == '0' || c == '1'
  {
    GridShape();
    Grid[p.y / CellSize][p.x / CellSize]
  }

  /** A legal place for a game object: in the maze, not in a wall, and on
      the lattice the spawn points and the 30-pixel steps span. */
  predicate OnGrid(p: Pos)
  {
    InGrid(p) && CellAt(p) != '1' && OnLattice(p)
  }

  /** The border rows and columns are walls, so every open cell is interior. */
  lemma OpenIsInterior(p: Pos)
    requires InGrid(p) && CellAt(p) != '1'
    ensures 1 <= p.y / CellSize <= 5 && 1 <= p.x / CellSize <= 8
    ensures CellSize <= p.y < 6 * CellSize && CellSize <= p.x < 9 * CellSize
  {
    GridShape();
    var r, c := p.y / CellSize, p.x / CellSize;
    assert Grid[0] == "1111111111" && Grid[6] == "1111111111";
    assert forall k :: 0 <= k < 7 ==> Grid[k][0] == '1' && Grid[k][9] == '1';
  }

  /** The centre of cell (col, row), `(col * 60 + 30, row * 60 + 30)`. */
  function Centre(col: int, row: int): (p: Pos)
    ensures p.x % CellSize == CellSize / 2 && p.y % CellSize == CellSize / 2
    ensures p.x / CellSize == col && p.y / CellSize == row
  {
    Pos(col * CellSize + CellSize / 2, row * CellSize + CellSize / 2)
  }

  /** The pellets of one maze row, left to right. */
  function RowPellets(row: int, cells: string): seq<Pos>
    decreases |cells|
  {
    if cells == [] then []
    else
      var n := |cells| - 1;
      RowPellets(row, cells[..n]) + (if cells[n] == '0' then [Centre(n, row)] else [])
  }

  /** The pellets of the rows of m, rows in order: the comprehension
      `[(x*60 + 30, y*60 + 30) for y, row in enumerate(m)
                              for x, block in enumerate(row) if block == "0"]`. */
  function GridPellets(m: seq<string>): seq<Pos>
    decreases |m|
  {
    if m == [] then []
    else
      var n := |m| - 1;
      GridPellets(m[..n]) + RowPellets(n, m[n])
  }

  /** One pellet per '0' of the row, at its centre, left to right. */
  lemma {:induction false} RowPelletsSpec(row: int, cells: string)
    ensures forall p :: p in RowPellets(row, cells) <==>
      exists c :: 0 <= c < |cells| && cells[c] == '0' && p == Centre(c, row)
    ensures RowMajor(RowPellets(row, cells))
    ensures forall p :: p in RowPellets(row, cells) ==> p.y == Centre(0, row).y && p.x < |cells| * CellSize
    decreases |cells|
  {
    if cells != [] {
      var n := |cells| - 1;
      RowPelletsSpec(row, cells[..n]);
      assert forall c :: 0 <= c < n ==> cells[..n][c] == cells[c];
    }
  }

  /** One pellet per '0' of m, at its centre, in row-major order. */
  lemma {:induction false} GridPelletsSpec(m: seq<string>)
    ensures forall p :: p in GridPellets(m) <==>
      exists row, c :: 0 <= row < |m| && 0 <= c < |m[row]| && m[row][c] == '0' && p == Centre(c, row)
    ensures RowMajor(GridPellets(m))
    ensures forall p :: p in GridPellets(m) ==> p.y < |m| * CellSize
    decreases |m|
  {
    if m != [] {
      var n := |m| - 1;
      var front := GridPellets(m[..n]);
      var last := RowPellets(n, m[n]);
      GridPelletsSpec(m[..n]);
      RowPelletsSpec(n, m[n]);
      assert forall row :: 0 <= row < n ==> m[..n][row] == m[row];
      assert forall i, j :: 0 <= i < |front| && 0 <= j < |last| ==> Before(front[i], last[j]) by {
        forall i, j | 0 <= i < |front| && 0 <= j < |last|
          ensures Before(front[i], last[j])
        {
          assert front[i] in front && last[j] in last;
        }
      }
    }
  }

  /** The pellet list the game starts with. */
  function InitialPellets(): seq<Pos>
  {
    GridPellets(Grid)
  }

  lemma PelletOnGrid(p: Pos)
    requires exists row, c :: 0 <= row < |Grid| && 0 <= c < |Grid[row]| && Grid[row][c] == '0' && p == Centre(c, row)
    ensures OnGrid(p)
  {
    GridShape();
    var row, c :| 0 <= row < |Grid| && 0 <= c < |Grid[row]| && Grid[row][c] == '0' && p == Centre(c, row);
    assert p.x / CellSize == c && p.y / CellSize == row;
    assert CellAt(p) == '0';
  }

  /** Exactly one pellet per open cell, at its centre, in row-major order
      (hence no duplicates); every pellet is a legal position. */
  lemma InitialPelletsSpec()
    ensures forall p :: p in InitialPellets() <==>
      exists row, c :: 0 <= row < |Grid| && 0 <= c < |Grid[row]| && Grid[row][c] == '0' && p == Centre(c, row)
    ensures RowMajor(InitialPellets())
    ensures forall p :: p in InitialPellets() ==> OnGrid(p)
  {
    GridPelletsSpec(Grid);
    var ps := InitialPellets();
    forall p | p in ps ensures OnGrid(p) {
      PelletOnGrid(p);
    }
  }
}
