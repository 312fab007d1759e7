/**
 The avatar's cell pattern: digest bits fill the left half of the grid and are
 mirrored onto the right.  Digests are arbitrary 64-byte sequences.
 */
module AvatarPatterns {
  import opened Machine
  import opened Grids
  import opened AvatarIslands

  /** Columns in the half that is read from the digest, rounding up. */
  function HalfCols(grid: nat): nat {
    (grid + 1) / 2
  }

  function Power2(n: nat): nat {
    if n == 0 then 1 else 2 * Power2(n - 1)
  }

  lemma {:induction false} Power2Positive(n: nat)
    ensures Power2(n) > 0
  {
    if n > 0 { Power2Positive(n - 1); }
  }

  /** Bit `bi` of the digest, most significant first. */
  function Bit(digest: seq<Byte>, bi: nat): nat
    requires bi < 8 * |digest|
  {
    Power2Positive(7 - bi % 8);
    digest[bi / 8] / Power2(7 - bi % 8) % 2
  }

  /** The column a cell's bit is read from: its own in the left half, its mirror image's in the right. */
  function Folded(col: nat, grid: nat): nat
    requires col < grid
  {
    if col < HalfCols(grid) then col else grid - 1 - col
  }

  function BitIndex(row: nat, col: nat, grid: nat): nat
    requires col < grid
  {
    row * HalfCols(grid) + Folded(col, grid)
  }

  lemma BitIndexBound(row: nat, col: nat, grid: nat)
    requires row < grid && col < grid
    ensures BitIndex(row, col, grid) < grid * HalfCols(grid)
  {
    MulStep(row, grid, HalfCols(grid));
  }

  lemma FoldedMirror(col: nat, grid: nat)
    requires col < grid
    ensures Folded(col, grid) < HalfCols(grid)
    ensures Folded(grid - 1 - col, grid) == Folded(col, grid)
    ensures Folded(col, grid) == col || Folded(col, grid) == grid - 1 - col
  {
  }

  /** The 512-bit digest covers the half grid. */
  predicate Fits(digest: seq<Byte>, grid: nat) {
    grid * HalfCols(grid) <= 8 * |digest|
  }

  /** What bit `bi` of the pattern digest paints. */
  function OnBit(pattern: seq<Byte>): nat -> bool {
    (bi: nat) => bi < 8 * |pattern| && Bit(pattern, bi) == 1
  }

  /** What the same bit of the shade digest paints, folded by the shade mode. */
  function ShadeBit(shade: seq<Byte>, shadeMod: nat): nat -> nat
    requires shadeMod > 0
  {
    (bi: nat) => if bi < 8 * |shade| then Bit(shade, bi) % shadeMod else 0
  }

  /** Cell (row, col) shows what its folded position names. */
  ghost predicate Shows<T>(cells: seq<T>, paint: nat -> T, grid: nat, row: nat, col: nat) {
    row < grid && col < grid ==>
      At(row, col, grid) < |cells| && cells[At(row, col, grid)] == paint(BitIndex(row, col, grid))
  }

  /** The whole grid shows it, left half and mirrored right half alike. */
  ghost predicate ShowsAll<T>(cells: seq<T>, paint: nat -> T, grid: nat) {
    |cells| == grid * grid && forall r: nat, c: nat | r < grid && c < grid :: Shows(cells, paint, grid, r, c)
  }

  function ShadeMod(shadeMode: nat): (m: nat)
    ensures m > 0
  {
    if shadeMode < 1 then 1 else shadeMode
  }

  lemma AtInjective(r: nat, c: nat, r': nat, c': nat, grid: nat)
    requires c < grid && c' < grid && At(r, c, grid) == At(r', c', grid)
    ensures r == r' && c == c'
  {
    RowColOfAt(r, c, grid);
    RowColOfAt(r', c', grid);
  }

  /** Writing one cell leaves every other position as it was. */
  lemma WriteElsewhere<T>(a: seq<T>, grid: nat, r: nat, c: nat, r': nat, c': nat, v: T)
    requires c < grid && c' < grid && r < grid && r' < grid && |a| == grid * grid
    ensures At(r, c, grid) < |a| && At(r', c', grid) < |a|
    ensures a[At(r, c, grid) := v][At(r', c', grid)] == if r == r' && c == c' then v else a[At(r', c', grid)]
  {
    AtBounds(r, c, grid);
    AtBounds(r', c', grid);
    if At(r, c, grid) == At(r', c', grid) { AtInjective(r, c, r', c', grid); }
  }

  /** Filled so far: all earlier rows, and in this row the columns within `col` of either edge. */
  predicate Done(r: nat, c: nat, row: nat, col: nat, grid: nat) {
    r < row || (r == row && (c < col || c + col >= grid))
  }

  ghost predicate Painted<T>(cells: seq<T>, paint: nat -> T, grid: nat, row: nat, col: nat) {
    |cells| == grid * grid &&
    forall r: nat, c: nat | r < grid && c < grid && Done(r, c, row, col, grid) :: Shows(cells, paint, grid, r, c)
  }

  lemma SameBit(row: nat, col: nat, grid: nat)
    requires col < grid
    ensures BitIndex(row, grid - 1 - col, grid) == BitIndex(row, col, grid)
  {
    FoldedMirror(col, grid);
  }

  /** One bit, written at its column and at the mirror column, extends what is filled by both. */
  lemma PaintPair<T>(cells: seq<T>, paint: nat -> T, grid: nat, row: nat, col: nat, v: T)
    requires row < grid && col < HalfCols(grid) && Painted(cells, paint, grid, row, col)
    requires v == paint(BitIndex(row, col, grid))
    ensures At(row, col, grid) < |cells| && At(row, grid - 1 - col, grid) < |cells|
    ensures Painted(cells[At(row, col, grid) := v][At(row, grid - 1 - col, grid) := v], paint, grid, row, col + 1)
  {
    hide At, Folded, BitIndex;
    var mir := grid - 1 - col;
    WriteElsewhere(cells, grid, row, col, row, mir, v);
    var c1 := cells[At(row, col, grid) := v];
    var c2 := c1[At(row, mir, grid) := v];
    SameBit(row, col, grid);
    forall r: nat, c: nat | r < grid && c < grid && Done(r, c, row, col + 1, grid) ensures Shows(c2, paint, grid, r, c) {
      WriteElsewhere(cells, grid, row, col, r, c, v);
      WriteElsewhere(c1, grid, row, mir, r, c, v);
      if Done(r, c, row, col, grid) { assert Shows(cells, paint, grid, r, c); }
    }
  }

  lemma RowPainted<T>(cells: seq<T>, paint: nat -> T, grid: nat, row: nat)
    requires Painted(cells, paint, grid, row, HalfCols(grid))
    ensures Painted(cells, paint, grid, row + 1, 0)
  {
    hide Shows;
    forall r: nat, c: nat | r < grid && c < grid && Done(r, c, row + 1, 0, grid) ensures Shows(cells, paint, grid, r, c) {
      assert Done(r, c, row, HalfCols(grid), grid);
    }
  }

  lemma AllPainted<T>(cells: seq<T>, paint: nat -> T, grid: nat)
    requires Painted(cells, paint, grid, grid, 0)
    ensures ShowsAll(cells, paint, grid)
  {
    hide Shows;
    assert forall r: nat, c: nat | r < grid && c < grid :: Done(r, c, grid, 0, grid);
  }

  lemma NothingPainted<T>(cells: seq<T>, paint: nat -> T, grid: nat)
    requires |cells| == grid * grid
    ensures Painted(cells, paint, grid, 0, 0)
  {
    hide Shows;
  }

  method WriteBoth<T>(cells: array<T>, grid: nat, row: nat, col: nat, v: T, ghost paint: nat -> T)
    requires row < grid && col < HalfCols(grid) && Painted(cells[..], paint, grid, row, col)
    requires v == paint(BitIndex(row, col, grid))
    modifies cells
    ensures Painted(cells[..], paint, grid, row, col + 1)
  {
    hide At, Painted, BitIndex;
    ghost var c := cells[..];
    PaintPair(c, paint, grid, row, col, v);
    var mir := grid - 1 - col;
    cells[At(row, col, grid)] := v;
    assert cells[..] == c[At(row, col, grid) := v];
    if mir != col {
      cells[At(row, mir, grid)] := v;
    }
    assert cells[..] == c[At(row, col, grid) := v][At(row, mir, grid) := v];
  }

  lemma LeftIndex(row: nat, col: nat, grid: nat)
    requires row < grid && col < HalfCols(grid)
    ensures col < grid && BitIndex(row, col, grid) == row * HalfCols(grid) + col
  {
  }

  /** Fill cells and shades from the two digests. */
  method PatternForPeer(pattern: seq<Byte>, shade: seq<Byte>, grid: nat, shadeMode: nat)
      returns (cells: array<bool>, shades: array<nat>)
    requires Fits(pattern, grid) && Fits(shade, grid)
    ensures fresh(cells) && fresh(shades)
    ensures ShowsAll(cells[..], OnBit(pattern), grid)
    ensures ShowsAll(shades[..], ShadeBit(shade, ShadeMod(shadeMode)), grid)
  {
    hide Bit, At, Shows, Painted, BitIndex;
    var halfCols := HalfCols(grid);
    var total := grid * grid;
    cells := new bool[total](_ => false);
    shades := new nat[total](_ => 0);
    var shadeMod := ShadeMod(shadeMode);
    ghost var on, sh := OnBit(pattern), ShadeBit(shade, shadeMod);
    NothingPainted(cells[..], on, grid);
    NothingPainted(shades[..], sh, grid);
    for row := 0 to grid
      invariant Painted(cells[..], on, grid, row, 0) && Painted(shades[..], sh, grid, row, 0)
    {
      for col := 0 to halfCols
        invariant Painted(cells[..], on, grid, row, col) && Painted(shades[..], sh, grid, row, col)
      {
        LeftIndex(row, col, grid);
        BitIndexBound(row, col, grid);
        var bi := row * halfCols + col;
        WriteBoth(cells, grid, row, col, Bit(pattern, bi) == 1, on);
        WriteBoth(shades, grid, row, col, Bit(shade, bi) % shadeMod, sh);
      }
      RowPainted(cells[..], on, grid, row);
      RowPainted(shades[..], sh, grid, row);
    }
    AllPainted(cells[..], on, grid);
    AllPainted(shades[..], sh, grid);
  }

  /** The eight bits of a digest byte, first the heaviest, add back up to it. */
  lemma BitsOfByte(digest: seq<Byte>, j: nat)
    requires j < |digest|
    ensures digest[j] ==
            128 * Bit(digest, 8 * j) + 64 * Bit(digest, 8 * j + 1) + 32 * Bit(digest, 8 * j + 2)
            + 16 * Bit(digest, 8 * j + 3) + 8 * Bit(digest, 8 * j + 4) + 4 * Bit(digest, 8 * j + 5)
            + 2 * Bit(digest, 8 * j + 6) + Bit(digest, 8 * j + 7)
  {
    hide Bit, Power2;
    PowersOfTwo();
    BitIs(digest, j, 0);
    BitIs(digest, j, 1);
    BitIs(digest, j, 2);
    BitIs(digest, j, 3);
    BitIs(digest, j, 4);
    BitIs(digest, j, 5);
    BitIs(digest, j, 6);
    BitIs(digest, j, 7);
    EightBits(digest[j]);
  }

  lemma BitIs(digest: seq<Byte>, j: nat, i: nat)
    requires j < |digest| && i < 8
    ensures Power2(7 - i) > 0 && Bit(digest, 8 * j + i) == digest[j] / Power2(7 - i) % 2
  {
    hide Power2;
    Power2Positive(7 - i);
    assert (8 * j + i) / 8 == j && (8 * j + i) % 8 == i;
  }

  lemma PowersOfTwo()
    ensures Power2(0) == 1 && Power2(1) == 2 && Power2(2) == 4 && Power2(3) == 8
    ensures Power2(4) == 16 && Power2(5) == 32 && Power2(6) == 64 && Power2(7) == 128
  {
    assert Power2(4) == 16;
  }

  lemma EightBits(x: Byte)
    ensures 128 * (x / 128 % 2) + 64 * (x / 64 % 2) + 32 * (x / 32 % 2) + 16 * (x / 16 % 2)
            + 8 * (x / 8 % 2) + 4 * (x / 4 % 2) + 2 * (x / 2 % 2) + x / 1 % 2 == x
  {
    var a, b, c, d := x / 2, x / 4, x / 8, x / 16;
    var e, f, g := x / 32, x / 64, x / 128;
    Halves(x, a);
    assert b == a / 2;
    Halves(a, b);
    assert c == b / 2;
    Halves(b, c);
    assert d == c / 2;
    Halves(c, d);
    assert e == d / 2;
    Halves(d, e);
    assert f == e / 2;
    Halves(e, f);
    assert g == f / 2;
    Halves(f, g);
    assert g % 2 == g;
  }

  lemma Halves(x: int, half: int)
    requires half == x / 2
    ensures x == 2 * half + x % 2
  {
  }

  /** Cell (row, col) takes a bit of its own row, in its own column or the mirrored one;
      each row has half the columns' bits, rounded up. */
  ghost predicate TakesBit(cells: seq<bool>, digest: seq<Byte>, grid: nat, row: nat, col: nat) {
    var half := (grid + 1) / 2;
    var bi := row * half + if col < half then col else grid - 1 - col;
    && 0 <= bi < 8 * |digest| && row * grid + col < |cells|
    && (cells[row * grid + col] <==> Bit(digest, bi) == 1)
  }

  /** Its shade is the same bit of the other digest, if there are at least two shades. */
  ghost predicate TakesShade(shades: seq<nat>, digest: seq<Byte>, grid: nat, shadeMode: nat, row: nat, col: nat) {
    var half := (grid + 1) / 2;
    var bi := row * half + if col < half then col else grid - 1 - col;
    && 0 <= bi < 8 * |digest| && row * grid + col < |shades|
    && shades[row * grid + col] == if shadeMode >= 2 then Bit(digest, bi) else 0
  }

  lemma BitIsThere(digest: seq<Byte>, grid: nat, row: nat, col: nat)
    requires Fits(digest, grid) && row < grid && col < grid
    ensures 0 <= BitIndex(row, col, grid) < 8 * |digest|
  {
    BitIndexBound(row, col, grid);
  }

  lemma CellsTakeBits(cells: seq<bool>, digest: seq<Byte>, grid: nat, row: nat, col: nat)
    requires ShowsAll(cells, OnBit(digest), grid) && Fits(digest, grid) && row < grid && col < grid
    ensures TakesBit(cells, digest, grid, row, col)
  {
    hide Bit, Fits;
    BitIsThere(digest, grid, row, col);
    assert Shows(cells, OnBit(digest), grid, row, col);
  }

  lemma ShadesTakeBits(shades: seq<nat>, digest: seq<Byte>, grid: nat, shadeMode: nat, row: nat, col: nat)
    requires ShowsAll(shades, ShadeBit(digest, ShadeMod(shadeMode)), grid) && Fits(digest, grid)
    requires row < grid && col < grid
    ensures TakesShade(shades, digest, grid, shadeMode, row, col)
  {
    hide Bit, Fits;
    BitIsThere(digest, grid, row, col);
    BitIsBinary(digest, BitIndex(row, col, grid));
    Reduced(Bit(digest, BitIndex(row, col, grid)), shadeMode);
    assert Shows(shades, ShadeBit(digest, ShadeMod(shadeMode)), grid, row, col);
  }

  lemma Reduced(bit: nat, shadeMode: nat)
    requires bit <= 1
    ensures bit % ShadeMod(shadeMode) == if shadeMode >= 2 then bit else 0
  {
  }

  lemma BitIsBinary(digest: seq<Byte>, bi: nat)
    requires bi < 8 * |digest|
    ensures 0 <= Bit(digest, bi) <= 1
  {
  }

  /** A filled pattern reads the same from either side, so its islands mirror too. */
  lemma PatternIsSymmetric(cells: seq<bool>, pattern: seq<Byte>, grid: nat)
    requires grid > 0 && ShowsAll(cells, OnBit(pattern), grid)
    ensures Symmetric(cells, grid)
  {
    hide OnBit, BitIndex;
    forall i: nat | i < grid * grid ensures Mirror(i, grid) < |cells| && cells[Mirror(i, grid)] == cells[i] {
      var r, c := Row(i, grid), Col(i, grid);
      AtOfRowCol(i, grid);
      MirrorOf(i, grid);
      SameBit(r, c, grid);
      assert Shows(cells, OnBit(pattern), grid, r, c) && Shows(cells, OnBit(pattern), grid, r, grid - 1 - c);
    }
  }

  /** On a peer's own pattern, two cells share an island exactly when their mirror images do. */
  lemma PeerIslandsMirror(cells: seq<bool>, pattern: seq<Byte>, grid: nat, conn: nat,
                          labels: seq<int>, count: nat, i: nat, j: nat)
    requires ShowsAll(cells, OnBit(pattern), grid)
    requires i < grid * grid && j < grid * grid && cells[i] && cells[j]
    requires Exact(cells, grid, conn, labels, count)
    ensures grid > 0 && |labels| == grid * grid
    ensures Mirror(i, grid) < |labels| && Mirror(j, grid) < |labels|
    ensures labels[i] == labels[j] <==> labels[Mirror(i, grid)] == labels[Mirror(j, grid)]
  {
    hide Shows, Exact;
    GridIsNotEmpty(grid, i);
    PatternIsSymmetric(cells, pattern, grid);
    LabelsCoverGrid(cells, grid, conn, labels, count);
    MirrorKeepsIslands(cells, grid, conn, labels, count, i, j);
  }

  lemma LabelsCoverGrid(cells: seq<bool>, grid: nat, conn: nat, labels: seq<int>, count: nat)
    requires |cells| == grid * grid && Exact(cells, grid, conn, labels, count)
    ensures |labels| == grid * grid
  {
  }
}
