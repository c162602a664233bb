/** Boards: the fixed-size occupancy grid (createGrid, canPlace, canSpawn,
    fix, clearLines), and the landing position a piece reaches when it is
    dropped as far as it can go. */
module Boards {
  import opened Pieces

  /** A grid cell: empty (null) or a settled block carrying the type and
      colour of the piece that was fixed there. */
  datatype Cell = Empty | Block(kind: Kind, color: string)

  /** Rows top to bottom; each row holds its cells left to right. */
  type Grid = seq<seq<Cell>>

  /** `g` has exactly `h` rows of exactly `w` cells. */
  predicate WellShaped(g: Grid, w: nat, h: nat)
  {
    |g| == h && forall r :: 0 <= r < |g| ==> |g[r]| == w
  }

  /** A row of `w` empty cells. */
  function EmptyRow(w: nat): (row: seq<Cell>)
    ensures |row| == w && forall x :: 0 <= x < w ==> row[x] == Empty
  {
    seq(w, _ => Empty)
  }

  /** `n` empty rows of width `w`. */
  function EmptyRows(n: nat, w: nat): (rows: Grid)
    ensures WellShaped(rows, w, n)
    ensures forall r :: 0 <= r < n ==> rows[r] == EmptyRow(w)
  {
    seq(n, _ => EmptyRow(w))
  }

  /** createGrid: `h` rows of `w` empty cells. */
  function EmptyGrid(w: nat, h: nat): (g: Grid)
    ensures WellShaped(g, w, h)
    ensures forall y, x :: 0 <= y < h && 0 <= x < w ==> g[y][x] == Empty
  {
    EmptyRows(h, w)
  }

  // ---------------------------------------------------------------------
  // Placement

  /** Whether a piece may occupy absolute cell `c`: inside the side walls,
      above the floor, and either above the top row or on an empty cell. */
  predicate CellFree(g: Grid, w: nat, h: nat, c: Point)
    requires WellShaped(g, w, h)
  {
    0 <= c.x < w && c.y < h && (c.y < 0 || g[c.y][c.x] == Empty)
  }

  /** canPlace over a list of cells, checked in order: the first cell
      outside the walls or below the floor, or on a settled block, makes
      the answer false. */
  function Fits(g: Grid, w: nat, h: nat, cells: seq<Point>): (ok: bool)
    requires WellShaped(g, w, h)
    ensures ok ==> forall i :: 0 <= i < |cells| ==> 0 <= cells[i].x < w && cells[i].y < h
  {
    if cells == [] then true
    else
      var c := cells[0];
      if c.x < 0 || c.x >= w || c.y >= h then false
      else if c.y >= 0 && g[c.y][c.x] != Empty then false
      else
        assert forall i :: 1 <= i < |cells| ==> cells[i] == cells[1..][i - 1];
        Fits(g, w, h, cells[1..])
  }

  /** The cells fit exactly when each of them is free: it is false iff some
      cell lies left of column 0, right of the last column, below the last
      row, or on a settled block in the grid. */
  lemma {:induction false} FitsIff(g: Grid, w: nat, h: nat, cells: seq<Point>)
    requires WellShaped(g, w, h)
    ensures Fits(g, w, h, cells) <==> forall i :: 0 <= i < |cells| ==> CellFree(g, w, h, cells[i])
  {
    if cells != [] {
      FitsIff(g, w, h, cells[1..]);
      assert forall i :: 1 <= i < |cells| ==> cells[i] == cells[1..][i - 1];
    }
  }

  /** On an empty grid only the walls and the floor constrain a piece. */
  lemma FitsOnEmpty(w: nat, h: nat, cells: seq<Point>)
    ensures Fits(EmptyGrid(w, h), w, h, cells) <==>
      forall i :: 0 <= i < |cells| ==> 0 <= cells[i].x < w && cells[i].y < h
  {
    FitsIff(EmptyGrid(w, h), w, h, cells);
  }

  // ---------------------------------------------------------------------
  // Fixing a piece into the grid

  /** The grid after writing `c` at every in-grid cell listed in `cells`;
      every other cell is kept. */
  function Stamp(g: Grid, w: nat, h: nat, cells: seq<Point>, c: Cell): (r: Grid)
    requires WellShaped(g, w, h)
    ensures WellShaped(r, w, h)
  {
    seq(h, y requires 0 <= y < h => seq(w, x requires 0 <= x < w => if Point(x, y) in cells then c else g[y][x]))
  }

  /** Two grids of the same shape that agree on every cell are equal. */
  lemma GridsEqual(a: Grid, b: Grid, w: nat, h: nat)
    requires WellShaped(a, w, h) && WellShaped(b, w, h)
    requires forall y, x :: 0 <= y < h && 0 <= x < w ==> a[y][x] == b[y][x]
    ensures a == b
  {
    forall y | 0 <= y < h ensures a[y] == b[y] {
      assert forall x :: 0 <= x < w ==> a[y][x] == b[y][x];
    }
  }

  /** Stamping one more cell is one more single-cell write (a no-op when
      the cell lies outside the grid). */
  lemma StampOneMore(g: Grid, w: nat, h: nat, cells: seq<Point>, p: Point, c: Cell)
    requires WellShaped(g, w, h)
    ensures Stamp(g, w, h, cells + [p], c) ==
      var s := Stamp(g, w, h, cells, c);
      if 0 <= p.x < w && 0 <= p.y < h then s[p.y := s[p.y][p.x := c]] else s
  {
    var s := Stamp(g, w, h, cells, c);
    var t := if 0 <= p.x < w && 0 <= p.y < h then s[p.y := s[p.y][p.x := c]] else s;
    var u := Stamp(g, w, h, cells + [p], c);
    forall y, x | 0 <= y < h && 0 <= x < w ensures u[y][x] == t[y][x] {
      assert Point(x, y) in cells + [p] <==> Point(x, y) in cells || Point(x, y) == p;
    }
    GridsEqual(u, t, w, h);
  }

  /** After fixing a piece, the piece can no longer be placed where it was,
      unless every one of its cells lies above the top row. */
  lemma FixBlocksPlacement(g: Grid, w: nat, h: nat, p: Polyomino)
    requires WellShaped(g, w, h)
    ensures Fits(Stamp(g, w, h, Positions(p), Block(p.kind, p.color)), w, h, Positions(p)) ==>
      forall i :: 0 <= i < |Positions(p)| ==> Positions(p)[i].y < 0
  {
    var cells := Positions(p);
    var s := Stamp(g, w, h, cells, Block(p.kind, p.color));
    FitsIff(s, w, h, cells);
    forall i | 0 <= i < |cells| && cells[i].y >= 0
      ensures !CellFree(s, w, h, cells[i])
    {
      var c := cells[i];
      if 0 <= c.x < w && c.y < h {
        assert c in cells;
        assert s[c.y][c.x] == Block(p.kind, p.color);
      }
    }
  }

  // ---------------------------------------------------------------------
  // Clearing full rows

  /** A row with no empty cell. */
  predicate Full(row: seq<Cell>)
  {
    forall x :: 0 <= x < |row| ==> row[x] != Empty
  }

  /** The rows that are not full, in their original order (the filter step
      of clearLines). */
  function KeepOpen(g: Grid): (r: Grid)
    ensures |r| + CountFull(g) == |g|
  {
    if g == [] then []
    else (if Full(g[0]) then [] else [g[0]]) + KeepOpen(g[1..])
  }

  /** Number of full rows. */
  function CountFull(g: Grid): (n: nat)
    ensures n <= |g|
    ensures n == 0 <==> forall r :: 0 <= r < |g| ==> !Full(g[r])
  {
    if g == [] then 0
    else (if Full(g[0]) then 1 else 0) + CountFull(g[1..])
  }

  /** The grid clearLines leaves: as many fresh empty rows as were removed,
      on top of the kept rows. */
  function Cleared(g: Grid, w: nat, h: nat): (r: Grid)
    requires WellShaped(g, w, h)
    ensures WellShaped(r, w, h)
  {
    KeepOpenSplits(g, w);
    EmptyRows(h - |KeepOpen(g)|, w) + KeepOpen(g)
  }

  /** One more empty row on top of `n` empty rows makes `n + 1`. */
  lemma EmptyRowsGrow(n: nat, w: nat)
    ensures [EmptyRow(w)] + EmptyRows(n, w) == EmptyRows(n + 1, w)
  {
    assert ([EmptyRow(w)] + EmptyRows(n, w))[0] == EmptyRow(w);
  }

  /** Filtering splits the rows into the kept ones and the full ones: the
      kept rows are the non-full rows, of unchanged width, and the two counts
      add up to the row count. */
  lemma {:induction false} KeepOpenSplits(g: Grid, w: nat)
    requires forall r :: 0 <= r < |g| ==> |g[r]| == w
    ensures |KeepOpen(g)| + CountFull(g) == |g|
    ensures forall r :: 0 <= r < |KeepOpen(g)| ==> |KeepOpen(g)[r]| == w && !Full(KeepOpen(g)[r])
  {
    if g != [] {
      KeepOpenSplits(g[1..], w);
    }
  }

  /** Without full rows, filtering keeps every row. */
  lemma {:induction false} KeepOpenAll(g: Grid)
    requires forall r :: 0 <= r < |g| ==> !Full(g[r])
    ensures KeepOpen(g) == g && CountFull(g) == 0
  {
    if g != [] {
      KeepOpenAll(g[1..]);
      assert g == [g[0]] + g[1..];
    }
  }

  /** clearLines removes exactly the full rows: as many empty rows as there
      were full rows sit on top, and the non-full rows, in their original
      order, sit below them. */
  lemma ClearedShape(g: Grid, w: nat, h: nat)
    requires WellShaped(g, w, h)
    ensures CountFull(g) <= h
    ensures Cleared(g, w, h)[..CountFull(g)] == EmptyRows(CountFull(g), w)
    ensures Cleared(g, w, h)[CountFull(g)..] == KeepOpen(g)
  {
    KeepOpenSplits(g, w);
  }

  /** With no full row, clearLines changes nothing and removes nothing. */
  lemma ClearNoFullRows(g: Grid, w: nat, h: nat)
    requires WellShaped(g, w, h)
    requires forall r :: 0 <= r < h ==> !Full(g[r])
    ensures CountFull(g) == 0
    ensures Cleared(g, w, h) == g
  {
    KeepOpenAll(g);
    assert EmptyRows(0, w) == [];
  }

  /** On a board at least one column wide, clearLines leaves no full row,
      so a second clearLines removes nothing and changes nothing. */
  lemma ClearIdempotent(g: Grid, w: nat, h: nat)
    requires WellShaped(g, w, h) && w > 0
    ensures forall r :: 0 <= r < h ==> !Full(Cleared(g, w, h)[r])
    ensures CountFull(Cleared(g, w, h)) == 0
    ensures Cleared(Cleared(g, w, h), w, h) == Cleared(g, w, h)
  {
    ClearedShape(g, w, h);
    KeepOpenSplits(g, w);
    var r := Cleared(g, w, h);
    var n := CountFull(g);
    forall i | 0 <= i < h ensures !Full(r[i]) {
      if i < n {
        assert r[i] == EmptyRows(n, w)[i] == EmptyRow(w);
        assert r[i][0] == Empty;
      } else {
        assert r[i] == KeepOpen(g)[i - n];
      }
    }
    ClearNoFullRows(r, w, h);
  }

  // ---------------------------------------------------------------------
  // Dropping a piece as far as it goes

  /** `q` is `p` moved straight down (or not at all), and every row passed
      on the way fits. */
  ghost predicate Passes(g: Grid, w: nat, h: nat, p: Polyomino, q: Polyomino)
    requires WellShaped(g, w, h)
  {
    q == AtRow(p, q.y) && q.y >= p.y &&
    forall k :: p.y < k <= q.y ==> Fits(g, w, h, Positions(AtRow(p, k)))
  }

  /** `q` is where `p` lands when moved down one row at a time while the
      next row still fits: every row passed on the way fits, and one row
      further does not. */
  ghost predicate Landing(g: Grid, w: nat, h: nat, p: Polyomino, q: Polyomino)
    requires WellShaped(g, w, h)
  {
    Passes(g, w, h, p, q) && !Fits(g, w, h, Positions(Moved(q, 0, 1)))
  }

  /** The drop starts at the piece itself. */
  lemma PassesStart(g: Grid, w: nat, h: nat, p: Polyomino)
    requires WellShaped(g, w, h)
    ensures Passes(g, w, h, p, p)
  {
    assert AtRow(p, p.y) == p;
  }

  /** One more row that fits extends the drop. */
  lemma PassesStep(g: Grid, w: nat, h: nat, p: Polyomino, q: Polyomino)
    requires WellShaped(g, w, h) && Passes(g, w, h, p, q)
    requires Fits(g, w, h, Positions(Moved(q, 0, 1)))
    ensures Passes(g, w, h, p, Moved(q, 0, 1))
  {
    assert Moved(q, 0, 1) == AtRow(p, q.y + 1);
  }

  /** A piece that fits lands on a position that fits. */
  lemma LandingFits(g: Grid, w: nat, h: nat, p: Polyomino, q: Polyomino)
    requires WellShaped(g, w, h) && Landing(g, w, h, p, q)
    requires Fits(g, w, h, Positions(p))
    ensures Fits(g, w, h, Positions(q))
  {
    if q.y > p.y {
      assert Fits(g, w, h, Positions(AtRow(p, q.y)));
    } else {
      assert q == p;
    }
  }

  /** Dropping from any row the piece has passed ends somewhere: the
      piece's first cell moves down one row per step and the floor stops
      it. */
  lemma {:induction false} LandingFrom(g: Grid, w: nat, h: nat, p: Polyomino, q: Polyomino)
    requires WellShaped(g, w, h) && p.shape != [] && Passes(g, w, h, p, q)
    ensures exists r :: Landing(g, w, h, p, r)
    decreases h - q.y - q.shape[0].y
  {
    var q1 := Moved(q, 0, 1);
    if Fits(g, w, h, Positions(q1)) {
      assert Positions(q1)[0].y < h;
      PassesStep(g, w, h, p, q);
      LandingFrom(g, w, h, p, q1);
    } else {
      assert Landing(g, w, h, p, q);
    }
  }

  /** Every piece with at least one cell has a landing position (with
      LandingUnique: exactly one). */
  lemma LandingExists(g: Grid, w: nat, h: nat, p: Polyomino)
    requires WellShaped(g, w, h) && p.shape != []
    ensures exists q :: Landing(g, w, h, p, q)
  {
    PassesStart(g, w, h, p);
    LandingFrom(g, w, h, p, p);
  }

  /** A piece has at most one landing position. */
  lemma LandingUnique(g: Grid, w: nat, h: nat, p: Polyomino, q1: Polyomino, q2: Polyomino)
    requires WellShaped(g, w, h) && Landing(g, w, h, p, q1) && Landing(g, w, h, p, q2)
    ensures q1 == q2
  {
    assert Moved(q1, 0, 1) == AtRow(p, q1.y + 1);
    assert Moved(q2, 0, 1) == AtRow(p, q2.y + 1);
    assert q1.y >= q2.y;
    assert q2.y >= q1.y;
  }

  /** Moving a piece down one row (when that fits) does not change where it
      lands: a ghost computed before a successful gravity step is still the
      ghost afterwards. */
  lemma LandingAfterStepDown(g: Grid, w: nat, h: nat, p: Polyomino, q: Polyomino)
    requires WellShaped(g, w, h) && Landing(g, w, h, p, q)
    requires Fits(g, w, h, Positions(Moved(p, 0, 1)))
    ensures Landing(g, w, h, Moved(p, 0, 1), q)
  {
    var p1 := Moved(p, 0, 1);
    forall k | p1.y < k <= q.y ensures Fits(g, w, h, Positions(AtRow(p1, k))) {
      assert AtRow(p1, k) == AtRow(p, k);
    }
  }

  /** canPlace on a board accepts a piece exactly when every one of its
      absolute cells is free. */
  lemma CanPlaceIff(b: Board, p: Polyomino)
    requires b.Valid()
    ensures b.CanPlace(p) <==> forall i :: 0 <= i < |p.shape| ==> CellFree(b.grid, b.width, b.height, Positions(p)[i])
  {
    FitsIff(b.grid, b.width, b.height, Positions(p));
  }

  // ---------------------------------------------------------------------
  // The board object

  /** The playing field: a `width` x `height` grid mutated only by fix and
      clearLines. */
  class Board {
    const width: nat
    const height: nat
    var grid: Grid

    /** The grid always has exactly `height` rows of `width` cells. */
    ghost predicate Valid()
      reads this
    {
      WellShaped(grid, width, height)
    }

    constructor(width: nat, height: nat)
      ensures Valid() && this.width == width && this.height == height
      ensures grid == EmptyGrid(width, height)
    {
      this.width := width;
      this.height := height;
      grid := EmptyGrid(width, height);
    }

    /** canPlace: every cell of the piece is free. */
    function CanPlace(p: Polyomino): (ok: bool)
      reads this
      requires Valid()
    {
      Fits(grid, width, height, Positions(p))
    }

    /** canSpawn: the same test as canPlace, used on a fresh piece. */
    function CanSpawn(p: Polyomino): (ok: bool)
      reads this
      requires Valid()
      ensures ok == CanPlace(p)
    {
      CanPlace(p)
    }

    /** fix: write the piece's type and colour into each of its cells that
        lies inside the grid; cells outside (above the top row, say) are
        skipped. */
    method Fix(p: Polyomino)
      requires Valid()
      modifies this
      ensures Valid()
      ensures grid == Stamp(old(grid), width, height, Positions(p), Block(p.kind, p.color))
    {
      var cells := Positions(p);
      var c := Block(p.kind, p.color);
      assert Stamp(grid, width, height, cells[..0], c) == grid by {
        GridsEqual(Stamp(grid, width, height, cells[..0], c), grid, width, height);
      }
      var i := 0;
      while i < |cells|
        invariant 0 <= i <= |cells|
        invariant grid == Stamp(old(grid), width, height, cells[..i], c)
      {
        var pt := cells[i];
        StampOneMore(old(grid), width, height, cells[..i], pt, c);
        assert cells[..i + 1] == cells[..i] + [pt];
        if 0 <= pt.x < width && 0 <= pt.y < height {
          grid := grid[pt.y := grid[pt.y][pt.x := c]];
        }
        i := i + 1;
      }
      assert cells[..i] == cells;
    }

    /** clearLines: drop every full row, refill empty rows on top up to
        `height`, and return how many rows were dropped. */
    method ClearLines() returns (cleared: int)
      requires Valid()
      modifies this
      ensures Valid()
      ensures grid == Cleared(old(grid), width, height)
      ensures cleared == CountFull(old(grid))
    {
      KeepOpenSplits(grid, width);
      var kept := KeepOpen(grid);
      cleared := height - |kept|;
      var rows := kept;
      ghost var added: nat := 0;
      while |rows| < height
        invariant |rows| <= height && added == |rows| - |kept|
        invariant rows == EmptyRows(added, width) + kept
        modifies {}
        decreases height - |rows|
      {
        EmptyRowsGrow(added, width);
        rows := [EmptyRow(width)] + rows;
        added := added + 1;
      }
      assert rows == Cleared(grid, width, height);
      grid := rows;
    }
  }
}
