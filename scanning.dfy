/** The scan cursor: the hunt-mode sweep that strides across the belief grid by the
    minimum ship length, wrapping to the next row, with a column shift on boards whose
    size the stride divides. */
module Scanning {
  import opened Cells
  import opened Placement
  import opened Arith

  /** scan: the cursor after one advance on an n x n board with stride MIN_SHIP_SIZE. */
  function ScanNext(n: int, stride: int, row: int, col: int): (int, int)
    requires 1 <= n && 1 <= stride
  {
    var c := col + stride;
    if c < n then (row, c)
    else
      var wrapped := c % n;
      var shifted := if n % stride == 0 then (if wrapped + 1 == stride then 0 else wrapped + 1) else wrapped;
      var r := if row + 1 >= n then 0 else row + 1;
      (r, shifted)
  }

  /** A stride that divides the board size is at most the board size. */
  lemma DivisorAtMost(n: int, stride: int)
    requires 1 <= n && 1 <= stride && n % stride == 0
    ensures stride <= n
  {
    if n < stride {
      ModSmall(n, stride);
    }
  }

  /** The cursor never leaves the board. */
  lemma ScanStaysOnBoard(n: int, stride: int, row: int, col: int)
    requires 1 <= n && 1 <= stride && OnBoard(n, row, col)
    ensures OnBoard(n, ScanNext(n, stride, row, col).0, ScanNext(n, stride, row, col).1)
  {
    if col + stride >= n && n % stride == 0 {
      DivisorAtMost(n, stride);
      ModOnce(col + stride, n);
    }
  }

  /** On a wrap with a stride dividing n, the column is col + stride - n shifted by one,
      back to 0 when the shift reaches the stride; the row moves down one or back to 0. */
  lemma WrapShape(n: int, stride: int, row: int, col: int)
    requires 1 <= n && 1 <= stride && OnBoard(n, row, col) && col + stride >= n && n % stride == 0
    ensures stride <= n
    ensures ScanNext(n, stride, row, col).0 == if row + 1 < n then row + 1 else 0
    ensures ScanNext(n, stride, row, col).1 == if col + stride - n + 1 == stride then 0 else col + stride - n + 1
  {
    DivisorAtMost(n, stride);
    ModOnce(col + stride, n);
  }

  /** Without a wrap the cursor moves `stride` columns right in the same row; on a wrap it
      moves to the next row modulo n, into column (col + stride) mod n, which is shifted
      one further, modulo the stride, when the stride divides n. */
  lemma ScanStep(n: int, stride: int, row: int, col: int)
    requires 1 <= n && 1 <= stride && OnBoard(n, row, col)
    ensures col + stride < n ==> ScanNext(n, stride, row, col) == (row, col + stride)
    ensures col + stride >= n ==> ScanNext(n, stride, row, col).0 == (row + 1) % n
    ensures col + stride >= n && n % stride != 0 ==> ScanNext(n, stride, row, col).1 == (col + stride) % n
    ensures col + stride >= n && n % stride == 0 ==>
      ScanNext(n, stride, row, col).1 == (col + stride - n + 1) % stride < stride
  {
    if col + stride >= n {
      if row + 1 < n {
        ModSmall(row + 1, n);
      } else {
        ModUnique(row + 1, n, 1, 0);
      }
      if n % stride == 0 {
        WrapShape(n, stride, row, col);
        if col + stride - n + 1 < stride {
          ModSmall(col + stride - n + 1, stride);
        } else {
          ModUnique(col + stride - n + 1, stride, 1, 0);
        }
      }
    }
  }

  /** Cells on the sweep's diagonal lattice: column minus row is a multiple of the stride. */
  predicate OnLattice(stride: int, row: int, col: int)
    requires 1 <= stride
  {
    (col - row) % stride == 0
  }

  /** When the stride divides the board size, a cursor on the lattice stays on it: started
      at (0, 0), the sweep only ever visits lattice cells (a checkerboard for stride 2). */
  lemma ScanKeepsLattice(n: int, stride: int, row: int, col: int)
    requires 1 <= n && 1 <= stride && OnBoard(n, row, col) && n % stride == 0
    requires OnLattice(stride, row, col)
    ensures OnLattice(stride, ScanNext(n, stride, row, col).0, ScanNext(n, stride, row, col).1)
  {
    var (r', c') := ScanNext(n, stride, row, col);
    if col + stride < n {
      ModShift(col - row, 1, stride);
    } else {
      WrapShape(n, stride, row, col);
      WrapKeepsLattice(n, stride, row, col, r', c');
    }
  }

  /** The wrap step of ScanKeepsLattice: c' - r' differs from col - row by stride - n,
      by -n, by stride, or not at all, each a multiple of the stride. */
  lemma WrapKeepsLattice(n: int, stride: int, row: int, col: int, r': int, c': int)
    requires 1 <= stride <= n && OnBoard(n, row, col) && n % stride == 0
    requires (col - row) % stride == 0
    requires r' == if row + 1 < n then row + 1 else 0
    requires c' == if col + stride - n + 1 == stride then 0 else col + stride - n + 1
    ensures (c' - r') % stride == 0
  {
    var q := n / stride;
    assert n == q * stride;
    var reset := col + stride - n + 1 == stride;
    var k := if row + 1 < n then (if reset then -q else 1 - q) else (if reset then 0 else 1);
    assert c' - r' == (col - row) + k * stride;
    ModShift(col - row, k, stride);
  }

  /** Every run of at least `stride` cells, horizontal or vertical, contains a lattice
      cell: a sweep of the lattice meets every ship at least MIN_SHIP_SIZE long. */
  lemma LatticeMeetsEveryRun(stride: int, a: Anchor, length: int) returns (r: int, c: int)
    requires 1 <= stride <= length
    ensures InRun(a, length, r, c) && OnLattice(stride, r, c)
  {
    if a.dir == Horizontal {
      var x := a.row - a.col;
      r, c := a.row, a.col + x % stride;
      assert x == (x / stride) * stride + x % stride;
      ModUnique(c - r, stride, -(x / stride), 0);
    } else {
      var x := a.col - a.row;
      r, c := a.row + x % stride, a.col;
      assert x == (x / stride) * stride + x % stride;
      ModUnique(c - r, stride, x / stride, 0);
    }
  }

  /** The sweep on a 10 x 10 board with stride 2, as the code has it: row 0 is swept at even
      columns, and the wrap from (0, 8) lands on (1, 1), so row 1 is swept at odd columns. */
  lemma ScanTenByTwo()
    ensures ScanNext(10, 2, 0, 0) == (0, 2) && ScanNext(10, 2, 0, 8) == (1, 1)
    ensures ScanNext(10, 2, 1, 9) == (2, 0) && ScanNext(10, 2, 9, 9) == (0, 0)
  {
  }
}
