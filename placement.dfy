/** The placement engine's pure part: where a run of ship cells lies, how a random
    draw becomes an anchor (chooseValues), and when a run is free (positionOk). */
module Placement {
  import opened Cells
  import opened Arith

  /** The top-left cell of a run and its orientation. */
  datatype Anchor = Anchor(row: int, col: int, dir: Direction)

  /** The raw values of the three rand() calls chooseValues makes, in call order:
      the orientation, then the row, then the column. */
  datatype Draw = Draw(dirRoll: nat, rowRoll: nat, colRoll: nat)

  /** (r, c) is one of the `length` cells of the run from anchor `a`. */
  predicate InRun(a: Anchor, length: int, r: int, c: int) {
    if a.dir == Horizontal then r == a.row && a.col <= c < a.col + length
    else c == a.col && a.row <= r < a.row + length
  }

  /** The run's cells all lie on an n x n board (an empty run always does). */
  predicate RunOnBoard(n: int, a: Anchor, length: int) {
    length <= 0 ||
    if a.dir == Horizontal then 0 <= a.row < n && 0 <= a.col && a.col + length <= n
    else 0 <= a.col < n && 0 <= a.row && a.row + length <= n
  }

  /** RunOnBoard says exactly that every cell of the run is on the board. */
  lemma RunOnBoardMeans(n: int, a: Anchor, length: int)
    ensures RunOnBoard(n, a, length) <==> forall r, c :: InRun(a, length, r, c) ==> OnBoard(n, r, c)
  {
    if length > 0 && forall r, c :: InRun(a, length, r, c) ==> OnBoard(n, r, c) {
      if a.dir == Horizontal {
        assert InRun(a, length, a.row, a.col) && InRun(a, length, a.row, a.col + length - 1);
      } else {
        assert InRun(a, length, a.row, a.col) && InRun(a, length, a.row + length - 1, a.col);
      }
    }
  }

  /** chooseValues: orientation rand() % 2 + 1 (1 is Horizontal); for a horizontal run the
      row is rand() % n and the column rand() % (n + 1 - length), and symmetrically for a
      vertical run. Every anchor it yields keeps the whole run on the board. */
  function ChooseValues(n: int, length: int, d: Draw): (a: Anchor)
    requires 1 <= n && length <= n
    ensures 0 <= a.row && 0 <= a.col
    ensures RunOnBoard(n, a, length)
    ensures a.dir == Horizontal ==> a.row < n && a.col <= n - length
    ensures a.dir == Vertical ==> a.col < n && a.row <= n - length
  {
    var dir := if d.dirRoll % 2 + 1 == 1 then Horizontal else Vertical;
    if dir == Horizontal then Anchor(d.rowRoll % n, d.colRoll % (n + 1 - length), Horizontal)
    else Anchor(d.rowRoll % (n + 1 - length), d.colRoll % n, Vertical)
  }

  /** Conversely, every anchor whose run fits on the board is the choice for some draw:
      chooseValues can produce every legal placement. */
  lemma ChooseValuesCovers(n: int, length: int, a: Anchor) returns (d: Draw)
    requires 1 <= length <= n
    requires RunOnBoard(n, a, length)
    ensures ChooseValues(n, length, d) == a
  {
    if a.dir == Horizontal {
      ModSmall(a.row, n);
      ModSmall(a.col, n + 1 - length);
      d := Draw(0, a.row, a.col);
    } else {
      ModSmall(a.row, n + 1 - length);
      ModSmall(a.col, n);
      d := Draw(1, a.row, a.col);
    }
  }

  /** positionOk: every cell of the run is Water on the fleet grid. */
  ghost predicate RunFree(b: array2<Cell>, n: int, a: Anchor, length: int)
    reads b
    requires Holds(b, n) && RunOnBoard(n, a, length)
  {
    if a.dir == Horizontal then forall c :: a.col <= c < a.col + length ==> b[a.row, c] == Water
    else forall r :: a.row <= r < a.row + length ==> b[r, a.col] == Water
  }

  /** A run is free exactly when no cell of it already holds a ship or anything else
      but water. */
  lemma RunFreeMeans(b: array2<Cell>, n: int, a: Anchor, length: int)
    requires Holds(b, n) && RunOnBoard(n, a, length)
    ensures RunFree(b, n, a, length) <==> forall r, c :: OnBoard(n, r, c) && InRun(a, length, r, c) ==> b[r, c] == Water
  {
    if forall r, c :: OnBoard(n, r, c) && InRun(a, length, r, c) ==> b[r, c] == Water {
      if a.dir == Horizontal {
        forall c | a.col <= c < a.col + length ensures b[a.row, c] == Water {
          assert InRun(a, length, a.row, c);
        }
      } else {
        forall r | a.row <= r < a.row + length ensures b[r, a.col] == Water {
          assert InRun(a, length, r, a.col);
        }
      }
    }
  }

  /** On a fleet grid that is all water (just after a reset) the first draw for any ship
      that fits is accepted. */
  lemma FirstDrawFitsEmptyBoard(b: array2<Cell>, n: int, length: int, d: Draw)
    requires Holds(b, n) && 1 <= n && length <= n
    requires AllWater(b, n)
    ensures RunFree(b, n, ChooseValues(n, length, d), length)
  {
    var a := ChooseValues(n, length, d);
    RunFreeMeans(b, n, a, length);
    RunOnBoardMeans(n, a, length);
  }
}
