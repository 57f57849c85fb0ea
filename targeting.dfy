/** The target tracker: from a cell known to be a hit, walk outward along one axis
    direction over further hits until water (a cell to shoot) or a miss, a kill or
    the board edge (the direction is blocked); try Down, Right, Left, Up in turn. */
module Targeting {
  import opened Cells

  /** A step (rowDelta, colDelta) of the walk: each delta in {-1, 0, 1}, not both zero.
      With (0, 0) the walk would look at the anchor itself forever. */
  predicate UnitStep(dr: int, dc: int) {
    -1 <= dr <= 1 && -1 <= dc <= 1 && (dr != 0 || dc != 0)
  }

  /** The coordinate p + d * k for a delta d in {-1, 0, 1}. */
  function Ray(p: int, d: int, k: int): int {
    if d > 0 then p + k else if d < 0 then p - k else p
  }

  /** Cells the walk passes over: anything but Water, Miss and Kill. */
  predicate PassesOver(x: Cell) {
    x != Water && x != Miss && x != Kill
  }

  /** How many more on-board cells the walk can visit along its moving axis. */
  function StepsLeft(n: int, row: int, col: int, dr: int, dc: int, range: int): int {
    if dr > 0 then n - row - range
    else if dr < 0 then row - range + 1
    else if dc > 0 then n - col - range
    else col - range + 1
  }

  /** search(row, col, dr, dc), started at distance `range` from the anchor: the first
      Water cell reached over cells it passes over, or None at the edge, a Miss or a Kill. */
  function Walk(b: array2<Cell>, n: int, row: int, col: int, dr: int, dc: int, range: int): Option<(int, int)>
    reads b
    requires Holds(b, n) && UnitStep(dr, dc)
    decreases StepsLeft(n, row, col, dr, dc, range)
  {
    var r, c := Ray(row, dr, range), Ray(col, dc, range);
    if !OnBoard(n, r, c) then None
    else if b[r, c] == Water then Some((r, c))
    else if b[r, c] == Miss || b[r, c] == Kill then None
    else Walk(b, n, row, col, dr, dc, range + 1)
  }

  /** Chaining: over cells it passes over at distances [range, k), the walk reaches
      on-board water at distance k and returns exactly that cell. */
  lemma {:induction false} WalkReachesWater(b: array2<Cell>, n: int, row: int, col: int, dr: int, dc: int, range: int, k: int)
    requires Holds(b, n) && UnitStep(dr, dc) && range <= k
    requires forall j :: range <= j < k ==>
      OnBoard(n, Ray(row, dr, j), Ray(col, dc, j)) && PassesOver(b[Ray(row, dr, j), Ray(col, dc, j)])
    requires OnBoard(n, Ray(row, dr, k), Ray(col, dc, k)) && b[Ray(row, dr, k), Ray(col, dc, k)] == Water
    ensures Walk(b, n, row, col, dr, dc, range) == Some((Ray(row, dr, k), Ray(col, dc, k)))
    decreases k - range
  {
    if range < k {
      WalkReachesWater(b, n, row, col, dr, dc, range + 1, k);
    }
  }

  /** Blocking: over cells it passes over at distances [range, k), a cell at distance k
      that is off the board, a Miss or a Kill makes the direction fail. */
  lemma {:induction false} WalkBlocked(b: array2<Cell>, n: int, row: int, col: int, dr: int, dc: int, range: int, k: int)
    requires Holds(b, n) && UnitStep(dr, dc) && range <= k
    requires forall j :: range <= j < k ==>
      OnBoard(n, Ray(row, dr, j), Ray(col, dc, j)) && PassesOver(b[Ray(row, dr, j), Ray(col, dc, j)])
    requires !OnBoard(n, Ray(row, dr, k), Ray(col, dc, k))
      || b[Ray(row, dr, k), Ray(col, dc, k)] == Miss || b[Ray(row, dr, k), Ray(col, dc, k)] == Kill
    ensures Walk(b, n, row, col, dr, dc, range) == None
    decreases k - range
  {
    if range < k {
      WalkBlocked(b, n, row, col, dr, dc, range + 1, k);
    }
  }

  /** A successful walk ends on on-board water at some distance k, fewer than n steps
      past its start, and every cell it passed on the way was on the board and passable
      (a hit, on a belief grid). */
  lemma {:induction false} WalkSound(b: array2<Cell>, n: int, row: int, col: int, dr: int, dc: int, range: int) returns (k: int)
    requires Holds(b, n) && UnitStep(dr, dc)
    requires Walk(b, n, row, col, dr, dc, range).Some?
    ensures range <= k < range + n
    ensures Walk(b, n, row, col, dr, dc, range) == Some((Ray(row, dr, k), Ray(col, dc, k)))
    ensures OnBoard(n, Ray(row, dr, k), Ray(col, dc, k)) && b[Ray(row, dr, k), Ray(col, dc, k)] == Water
    ensures forall j :: range <= j < k ==>
      OnBoard(n, Ray(row, dr, j), Ray(col, dc, j)) && PassesOver(b[Ray(row, dr, j), Ray(col, dc, j)])
    ensures BeliefGrid(b, n) ==> forall j :: range <= j < k ==> b[Ray(row, dr, j), Ray(col, dc, j)] == Hit
    decreases StepsLeft(n, row, col, dr, dc, range)
  {
    var r, c := Ray(row, dr, range), Ray(col, dc, range);
    if b[r, c] == Water {
      k := range;
    } else {
      k := WalkSound(b, n, row, col, dr, dc, range + 1);
    }
  }

  /** A failed walk stops at some distance k after passing over the cells before it:
      the cell at k is off the board, a Miss or a Kill, and k is at most n steps out. */
  lemma {:induction false} WalkStops(b: array2<Cell>, n: int, row: int, col: int, dr: int, dc: int, range: int) returns (k: int)
    requires Holds(b, n) && UnitStep(dr, dc)
    requires Walk(b, n, row, col, dr, dc, range) == None
    ensures range <= k <= range + n
    ensures forall j :: range <= j < k ==>
      OnBoard(n, Ray(row, dr, j), Ray(col, dc, j)) && PassesOver(b[Ray(row, dr, j), Ray(col, dc, j)])
    ensures !OnBoard(n, Ray(row, dr, k), Ray(col, dc, k))
      || b[Ray(row, dr, k), Ray(col, dc, k)] == Miss || b[Ray(row, dr, k), Ray(col, dc, k)] == Kill
    decreases StepsLeft(n, row, col, dr, dc, range)
  {
    var r, c := Ray(row, dr, range), Ray(col, dc, range);
    if !OnBoard(n, r, c) || b[r, c] == Miss || b[r, c] == Kill {
      k := range;
    } else {
      k := WalkStops(b, n, row, col, dr, dc, range + 1);
      if range + 1 < k {
        // the cells at distances range and k - 1 are both on the board
        assert OnBoard(n, Ray(row, dr, k - 1), Ray(col, dc, k - 1));
      }
    }
  }

  /** The directions in the order getFollowUpShot tries them: Down, Right, Left, Up. */
  function Order(i: int): (int, int) {
    if i == 0 then (1, 0) else if i == 1 then (0, 1) else if i == 2 then (0, -1) else (-1, 0)
  }

  /** getFollowUpShot: the result of the first direction whose walk from the anchor
      succeeds, or None when all four fail. */
  function FollowUp(b: array2<Cell>, n: int, row: int, col: int): Option<(int, int)>
    reads b
    requires Holds(b, n)
  {
    var down := Walk(b, n, row, col, 1, 0, 1);
    if down.Some? then down else
    var right := Walk(b, n, row, col, 0, 1, 1);
    if right.Some? then right else
    var left := Walk(b, n, row, col, 0, -1, 1);
    if left.Some? then left else
    Walk(b, n, row, col, -1, 0, 1)
  }

  /** A follow-up target is on-board water reached from the anchor in direction Order(i)
      at distance k, over hits only (on a belief grid), and every direction tried before
      Order(i) failed. */
  lemma FollowUpSound(b: array2<Cell>, n: int, row: int, col: int) returns (i: int, k: int)
    requires Holds(b, n)
    requires FollowUp(b, n, row, col).Some?
    ensures 0 <= i < 4 && 1 <= k <= n
    ensures forall j :: 0 <= j < i ==> Walk(b, n, row, col, Order(j).0, Order(j).1, 1) == None
    ensures FollowUp(b, n, row, col) == Walk(b, n, row, col, Order(i).0, Order(i).1, 1)
    ensures FollowUp(b, n, row, col) == Some((Ray(row, Order(i).0, k), Ray(col, Order(i).1, k)))
    ensures OnBoard(n, Ray(row, Order(i).0, k), Ray(col, Order(i).1, k))
    ensures b[Ray(row, Order(i).0, k), Ray(col, Order(i).1, k)] == Water
    ensures BeliefGrid(b, n) ==> forall j :: 1 <= j < k ==> b[Ray(row, Order(i).0, j), Ray(col, Order(i).1, j)] == Hit
  {
    if Walk(b, n, row, col, 1, 0, 1).Some? {
      i := 0;
    } else if Walk(b, n, row, col, 0, 1, 1).Some? {
      i := 1;
    } else if Walk(b, n, row, col, 0, -1, 1).Some? {
      i := 2;
    } else {
      i := 3;
    }
    k := WalkSound(b, n, row, col, Order(i).0, Order(i).1, 1);
  }

  /** The follow-up fails exactly when all four directions fail. */
  lemma FollowUpFails(b: array2<Cell>, n: int, row: int, col: int)
    requires Holds(b, n)
    ensures FollowUp(b, n, row, col) == None <==>
      forall j :: 0 <= j < 4 ==> Walk(b, n, row, col, Order(j).0, Order(j).1, 1) == None
  {
    assert Order(0) == (1, 0) && Order(1) == (0, 1) && Order(2) == (0, -1) && Order(3) == (-1, 0);
  }

  /** A vertical run of hits below the anchor ending in water: the follow-up shot is that
      water cell, whatever the other directions hold, since Down is tried first. */
  lemma FollowUpDownChain(b: array2<Cell>, n: int, row: int, col: int, k: int)
    requires Holds(b, n) && 1 <= k
    requires forall r :: row < r < row + k ==> OnBoard(n, r, col) && b[r, col] == Hit
    requires OnBoard(n, row + k, col) && b[row + k, col] == Water
    ensures FollowUp(b, n, row, col) == Some((row + k, col))
  {
    forall j | 1 <= j < k
      ensures OnBoard(n, Ray(row, 1, j), Ray(col, 0, j)) && PassesOver(b[Ray(row, 1, j), Ray(col, 0, j)])
    {
      assert OnBoard(n, row + j, col) && b[row + j, col] == Hit;
    }
    WalkReachesWater(b, n, row, col, 1, 0, 1, k);
  }
}
