/** Cell states, orientations and grid predicates shared by the agent's three grids. */
module Cells {

  /** One cell of a grid. The belief grid about the opponent holds Water (not yet shot),
      Hit, Miss or Kill; the agent's own fleet grid holds Water or Ship. */
  datatype Cell = Water | Ship | Hit | Miss | Kill

  /** Orientation of a ship's run. */
  datatype Direction = Horizontal | Vertical

  datatype Option<T> = None | Some(value: T)

  /** isOnBoard: the coordinate lies in [0, n) x [0, n). */
  predicate OnBoard(n: int, row: int, col: int) {
    0 <= row < n && 0 <= col < n
  }

  /** The array is large enough to hold an n x n board (the C++ arrays are
      MAX_BOARD_SIZE x MAX_BOARD_SIZE and only the top-left n x n part is used). */
  predicate Holds<T>(b: array2<T>, n: int) {
    0 <= n <= b.Length0 && n <= b.Length1
  }

  /** Every on-board cell is Water: the state initializeBoard leaves behind. */
  ghost predicate AllWater(b: array2<Cell>, n: int)
    reads b
    requires Holds(b, n)
  {
    forall r, c :: OnBoard(n, r, c) ==> b[r, c] == Water
  }

  /** The belief grid never holds Ship: only Water, Hit, Miss and Kill are written to it. */
  ghost predicate BeliefGrid(b: array2<Cell>, n: int)
    reads b
    requires Holds(b, n)
  {
    forall r, c :: OnBoard(n, r, c) ==> b[r, c] != Ship
  }

  /** The fleet grid holds only Water and Ship. */
  ghost predicate FleetGrid(b: array2<Cell>, n: int)
    reads b
    requires Holds(b, n)
  {
    forall r, c :: OnBoard(n, r, c) ==> b[r, c] == Water || b[r, c] == Ship
  }
}
