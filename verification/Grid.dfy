/**
 Square grids of cells in row-major order: neighbours, paths, and mirroring.
 */
module Grids {
  import opened Machine

  function Row(i: nat, grid: nat): nat
    requires grid > 0
  {
    i / grid
  }

  function Col(i: nat, grid: nat): nat
    requires grid > 0
  {
    i % grid
  }

  function At(row: nat, col: nat, grid: nat): nat {
    row * grid + col
  }

  lemma AtBounds(row: nat, col: nat, grid: nat)
    requires row < grid && col < grid
    ensures At(row, col, grid) < grid * grid
  {
    MulStep(row, grid, grid);
  }

  lemma MulStep(a: nat, b: nat, g: nat)
    requires a < b
    ensures a * g + g <= b * g
  {
    MulSplit(a + 1, b - a - 1, g);
    MulSplit(a, 1, g);
  }

  lemma MulSplit(m: nat, n: nat, g: nat)
    ensures (m + n) * g == m * g + n * g
    ensures n * g >= 0
  {
  }

  lemma RowColOfAt(row: nat, col: nat, grid: nat)
    requires col < grid
    ensures Row(At(row, col, grid), grid) == row && Col(At(row, col, grid), grid) == col
  {
    DivUnique(row, col, grid, row * grid + col);
  }

  lemma DivUnique(q: nat, r: nat, d: nat, x: nat)
    requires r < d && x == q * d + r
    ensures x / d == q && x % d == r
  {
    var q', r' := x / d, x % d;
    assert x == q' * d + r';
    if q < q' { MulStep(q, q', d); }
    if q' < q { MulStep(q', q, d); }
  }

  lemma AtOfRowCol(i: nat, grid: nat)
    requires grid > 0 && i < grid * grid
    ensures At(Row(i, grid), Col(i, grid), grid) == i
    ensures Row(i, grid) < grid && Col(i, grid) < grid
  {
    if Row(i, grid) >= grid {
      MulLe(grid, Row(i, grid), grid);
    }
  }

  lemma MulLe(a: nat, b: nat, g: nat)
    requires a <= b
    ensures a * g <= b * g
  {
    assert b * g == a * g + (b - a) * g;
  }

  // ----- Neighbours

  function Gap(a: int, b: int): nat {
    if a < b then b - a else a - b
  }

  /** Cells that touch: along an edge, or with eight-way connectivity also at a corner. */
  predicate Adjacent(i: nat, j: nat, grid: nat, conn: nat)
    requires grid > 0
  {
    var dr, dc := Gap(Row(i, grid), Row(j, grid)), Gap(Col(i, grid), Col(j, grid));
    if conn >= 8 then dr <= 1 && dc <= 1 && dr + dc > 0 else dr + dc == 1
  }

  lemma AdjacentSymmetric(i: nat, j: nat, grid: nat, conn: nat)
    requires grid > 0 && Adjacent(i, j, grid, conn)
    ensures Adjacent(j, i, grid, conn)
  {
  }

  /** Which cells touch, by row and column: the next one in either direction along a row
      or a column, and from eight-way connectivity on the four across a corner as well. */
  lemma AdjacentExactly(r: nat, c: nat, r': nat, c': nat, grid: nat, conn: nat)
    requires c < grid && c' < grid
    ensures Adjacent(r * grid + c, r' * grid + c', grid, conn) <==>
            var beside := c' == c + 1 || c == c' + 1;
            var below := r' == r + 1 || r == r' + 1;
            (r == r' && beside) || (c == c' && below) || (conn >= 8 && beside && below)
  {
    RowColOfAt(r, c, grid);
    RowColOfAt(r', c', grid);
  }

  const DIRS4: seq<(int, int)> := [(-1, 0), (1, 0), (0, -1), (0, 1)]
  const DIRS8: seq<(int, int)> :=
    [(-1, -1), (-1, 0), (-1, 1), (0, -1), (0, 1), (1, -1), (1, 0), (1, 1)]

  function Dirs(conn: nat): seq<(int, int)> {
    if conn >= 8 then DIRS8 else DIRS4
  }

  /** The cell one step away, unless that is off the grid. */
  function Neighbour(i: nat, dir: (int, int), grid: nat): Option<nat>
    requires grid > 0
  {
    var nr, nc := Row(i, grid) + dir.0, Col(i, grid) + dir.1;
    if nr < 0 || nr >= grid || nc < 0 || nc >= grid then None else Some(At(nr, nc, grid))
  }

  lemma NeighbourIsAdjacent(i: nat, k: nat, grid: nat, conn: nat)
    requires grid > 0 && i < grid * grid && k < |Dirs(conn)|
    requires Neighbour(i, Dirs(conn)[k], grid).Some?
    ensures var j := Neighbour(i, Dirs(conn)[k], grid).value;
            j < grid * grid && Adjacent(i, j, grid, conn)
  {
    var dir := Dirs(conn)[k];
    var nr, nc := Row(i, grid) + dir.0, Col(i, grid) + dir.1;
    AtBounds(nr, nc, grid);
    RowColOfAt(nr, nc, grid);
  }

  function DirIndex(dr: int, dc: int, conn: nat): nat {
    if conn >= 8 then
      if dr == -1 then (if dc == -1 then 0 else if dc == 0 then 1 else 2)
      else if dr == 0 then (if dc == -1 then 3 else 4)
      else (if dc == -1 then 5 else if dc == 0 then 6 else 7)
    else if dr == -1 then 0 else if dr == 1 then 1 else if dc == -1 then 2 else 3
  }

  lemma AdjacentIsNeighbour(i: nat, j: nat, grid: nat, conn: nat) returns (k: nat)
    requires grid > 0 && i < grid * grid && j < grid * grid && Adjacent(i, j, grid, conn)
    ensures k < |Dirs(conn)| && Neighbour(i, Dirs(conn)[k], grid) == Some(j)
  {
    AtOfRowCol(j, grid);
    hide Row, Col, At;
    var dr, dc := Row(j, grid) - Row(i, grid), Col(j, grid) - Col(i, grid);
    k := DirIndex(dr, dc, conn);
    assert Dirs(conn)[k] == (dr, dc);
  }

  // ----- Paths

  /** A walk over foreground cells, each step to a neighbour. */
  ghost predicate Path(cells: seq<bool>, grid: nat, conn: nat, p: seq<nat>) {
    && grid > 0 && p != []
    && (forall k | 0 <= k < |p| :: p[k] < grid * grid && p[k] < |cells| && cells[p[k]])
    && (forall k | 0 <= k < |p| - 1 :: Adjacent(p[k], p[k + 1], grid, conn))
  }

  ghost predicate Connected(cells: seq<bool>, grid: nat, conn: nat, i: nat, j: nat) {
    exists p: seq<nat> :: Path(cells, grid, conn, p) && p[0] == i && p[|p| - 1] == j
  }

  lemma ConnectedSelf(cells: seq<bool>, grid: nat, conn: nat, i: nat)
    requires grid > 0 && i < grid * grid && i < |cells| && cells[i]
    ensures Connected(cells, grid, conn, i, i)
  {
    assert Path(cells, grid, conn, [i]);
  }

  lemma ConnectedStep(cells: seq<bool>, grid: nat, conn: nat, i: nat, j: nat, k: nat)
    requires Connected(cells, grid, conn, i, j)
    requires grid > 0 && k < grid * grid && k < |cells| && cells[k] && Adjacent(j, k, grid, conn)
    ensures Connected(cells, grid, conn, i, k)
  {
    hide Adjacent;
    var p: seq<nat> :| Path(cells, grid, conn, p) && p[0] == i && p[|p| - 1] == j;
    var q := p + [k];
    assert forall x | 0 <= x < |q| - 1 :: Adjacent(q[x], q[x + 1], grid, conn);
    assert Path(cells, grid, conn, q);
  }

  function Reversed(p: seq<nat>): seq<nat> {
    seq(|p|, k requires 0 <= k < |p| => p[|p| - 1 - k])
  }

  lemma ConnectedSymmetric(cells: seq<bool>, grid: nat, conn: nat, i: nat, j: nat)
    requires Connected(cells, grid, conn, i, j)
    ensures Connected(cells, grid, conn, j, i)
  {
    hide Adjacent;
    var p: seq<nat> :| Path(cells, grid, conn, p) && p[0] == i && p[|p| - 1] == j;
    var q := Reversed(p);
    forall k | 0 <= k < |q| - 1 ensures Adjacent(q[k], q[k + 1], grid, conn) {
      var m := |p| - 2 - k;
      assert Adjacent(p[m], p[m + 1], grid, conn);
      AdjacentSymmetric(p[m], p[m + 1], grid, conn);
    }
    assert Path(cells, grid, conn, q);
  }

  lemma ConnectedTransitive(cells: seq<bool>, grid: nat, conn: nat, i: nat, j: nat, k: nat)
    requires Connected(cells, grid, conn, i, j) && Connected(cells, grid, conn, j, k)
    ensures Connected(cells, grid, conn, i, k)
  {
    hide Adjacent;
    var p: seq<nat> :| Path(cells, grid, conn, p) && p[0] == i && p[|p| - 1] == j;
    var q: seq<nat> :| Path(cells, grid, conn, q) && q[0] == j && q[|q| - 1] == k;
    var r := p + q[1..];
    forall x | 0 <= x < |r| - 1 ensures Adjacent(r[x], r[x + 1], grid, conn) {
      if x < |p| - 1 {
        assert Adjacent(p[x], p[x + 1], grid, conn);
      } else {
        var y := x - (|p| - 1);
        assert r[x] == q[y] && r[x + 1] == q[y + 1];
        assert Adjacent(q[y], q[y + 1], grid, conn);
      }
    }
    assert Path(cells, grid, conn, r);
  }

  // ----- Mirroring left to right

  function Mirror(i: nat, grid: nat): nat
    requires grid > 0
  {
    At(Row(i, grid), grid - 1 - Col(i, grid), grid)
  }

  lemma MirrorOf(i: nat, grid: nat)
    requires grid > 0 && i < grid * grid
    ensures Mirror(i, grid) < grid * grid
    ensures Row(Mirror(i, grid), grid) == Row(i, grid) && Col(Mirror(i, grid), grid) == grid - 1 - Col(i, grid)
    ensures Mirror(Mirror(i, grid), grid) == i
  {
    AtOfRowCol(i, grid);
    AtBounds(Row(i, grid), grid - 1 - Col(i, grid), grid);
    RowColOfAt(Row(i, grid), grid - 1 - Col(i, grid), grid);
  }

  lemma MirrorAdjacent(i: nat, j: nat, grid: nat, conn: nat)
    requires grid > 0 && i < grid * grid && j < grid * grid && Adjacent(i, j, grid, conn)
    ensures Adjacent(Mirror(i, grid), Mirror(j, grid), grid, conn)
  {
    MirrorOf(i, grid);
    MirrorOf(j, grid);
    hide Row, Col, Mirror;
  }

  /** A pattern that reads the same from either side. */
  ghost predicate Symmetric(cells: seq<bool>, grid: nat) {
    grid > 0 && grid * grid <= |cells| &&
    forall i: nat | i < grid * grid :: Mirror(i, grid) < |cells| && cells[Mirror(i, grid)] == cells[i]
  }

  lemma MirrorConnected(cells: seq<bool>, grid: nat, conn: nat, i: nat, j: nat)
    requires Symmetric(cells, grid) && Connected(cells, grid, conn, i, j)
    ensures Connected(cells, grid, conn, Mirror(i, grid), Mirror(j, grid))
  {
    hide Adjacent, Mirror;
    var p: seq<nat> :| Path(cells, grid, conn, p) && p[0] == i && p[|p| - 1] == j;
    var q := seq(|p|, k requires 0 <= k < |p| => Mirror(p[k], grid));
    forall k | 0 <= k < |q| ensures q[k] < grid * grid && q[k] < |cells| && cells[q[k]] {
      MirrorOf(p[k], grid);
    }
    forall k | 0 <= k < |q| - 1 ensures Adjacent(q[k], q[k + 1], grid, conn) {
      assert Adjacent(p[k], p[k + 1], grid, conn);
      MirrorAdjacent(p[k], p[k + 1], grid, conn);
    }
    assert Path(cells, grid, conn, q);
  }
}
