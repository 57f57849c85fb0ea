/** The CleanPlayerV2 agent: its grids, counters and per-turn operations. */
module CleanPlayerV2 {
  import opened Cells
  import opened Placement
  import opened Targeting
  import opened Scanning

  /** The message types update reacts to; every other type is ignored. */
  datatype MessageType = HitReport | KillReport | MissReport | OpponentShot | OtherMessage

  /** An inbound message: its type and the coordinate it carries. */
  datatype Message = Message(kind: MessageType, row: int, col: int)

  /** The placement response: the anchor and length, and the number in the ship's name
      ("Ship0", "Ship1", ...). */
  datatype PlacedShip = PlacedShip(anchor: Anchor, length: int, number: int)

  /** placeShip's outcome: a placement, the "ship too big" refusal, or (in the model only)
      the end of the supplied random draws before a free run was found. */
  datatype PlaceResult = Placed(ship: PlacedShip) | TooLong | DrawsExhausted

  /** The value update leaves in the shot cell: the reported outcome for a hit, kill or
      miss report, the previous value for anything else. */
  function Folded(prev: Cell, kind: MessageType): Cell
  {
    match kind
    case HitReport => Hit
    case KillReport => Kill
    case MissReport => Miss
    case _ => prev
  }

  /** Folding the same report twice is folding it once, and a fold never writes Ship. */
  lemma FoldedIdempotent(prev: Cell, kind: MessageType)
    ensures Folded(Folded(prev, kind), kind) == Folded(prev, kind)
    ensures prev != Ship ==> Folded(prev, kind) != Ship
  {
  }

  class CleanPlayer {
    /** The board size n, fixed at construction. */
    const boardSize: int
    /** MAX_BOARD_SIZE: the side of the grid arrays. */
    const maxBoardSize: int
    /** MIN_SHIP_SIZE: the scan stride. */
    const minShipSize: int

    /** The belief grid about the opponent's board. */
    const board: array2<Cell>
    /** The agent's own fleet. */
    const shipBoard: array2<Cell>
    /** How many times the opponent shot at each cell. */
    const opponentShots: array2<int>

    var scanRow: int
    var scanCol: int
    var numShipsPlaced: int
    var shipMark: char

    ghost predicate Valid()
      reads this, board, shipBoard, opponentShots
    {
      && 1 <= boardSize <= maxBoardSize && 1 <= minShipSize
      && board.Length0 == maxBoardSize && board.Length1 == maxBoardSize
      && shipBoard.Length0 == maxBoardSize && shipBoard.Length1 == maxBoardSize
      && opponentShots.Length0 == maxBoardSize && opponentShots.Length1 == maxBoardSize
      && board != shipBoard
      && OnBoard(boardSize, scanRow, scanCol)
      && 0 <= numShipsPlaced
      && BeliefGrid(board, boardSize)
      && FleetGrid(shipBoard, boardSize)
      && forall r, c :: OnBoard(boardSize, r, c) ==> opponentShots[r, c] >= 0
    }

    /** Both grids all water, no opponent shots counted, cursor and ship count at zero. */
    constructor (boardSize: int, maxBoardSize: int, minShipSize: int)
      requires 1 <= boardSize <= maxBoardSize && 1 <= minShipSize
      ensures Valid()
      ensures this.boardSize == boardSize && this.maxBoardSize == maxBoardSize && this.minShipSize == minShipSize
      ensures fresh(board) && fresh(shipBoard) && fresh(opponentShots)
      ensures AllWater(board, boardSize) && AllWater(shipBoard, boardSize)
      ensures forall r, c :: OnBoard(boardSize, r, c) ==> opponentShots[r, c] == 0
      ensures scanRow == 0 && scanCol == 0 && numShipsPlaced == 0 && shipMark == 'a'
    {
      this.boardSize := boardSize;
      this.maxBoardSize := maxBoardSize;
      this.minShipSize := minShipSize;
      board := new Cell[maxBoardSize, maxBoardSize];
      shipBoard := new Cell[maxBoardSize, maxBoardSize];
      opponentShots := new int[maxBoardSize, maxBoardSize];
      scanRow, scanCol, numShipsPlaced, shipMark := 0, 0, 0, 'a';
      new;
      InitializeBoard(board);
      InitializeBoard(shipBoard);
      var row := 0;
      while row < boardSize
        invariant 0 <= row <= boardSize
        invariant forall r, c :: 0 <= r < row && 0 <= c < boardSize ==> opponentShots[r, c] == 0
        modifies opponentShots
      {
        var col := 0;
        while col < boardSize
          invariant 0 <= col <= boardSize
          invariant forall r, c :: 0 <= r < row && 0 <= c < boardSize ==> opponentShots[r, c] == 0
          invariant forall c :: 0 <= c < col ==> opponentShots[row, c] == 0
          modifies opponentShots
        {
          opponentShots[row, col] := 0;
          col := col + 1;
        }
        row := row + 1;
      }
    }

    /** initializeBoard: every on-board cell of `b` becomes Water; the cells of the array
        beyond the board are untouched. */
    method InitializeBoard(b: array2<Cell>)
      requires Holds(b, boardSize)
      modifies b
      ensures forall r, c :: 0 <= r < b.Length0 && 0 <= c < b.Length1 ==>
        b[r, c] == if OnBoard(boardSize, r, c) then Water else old(b[r, c])
    {
      var row := 0;
      while row < boardSize
        invariant 0 <= row <= boardSize
        invariant forall r, c :: 0 <= r < b.Length0 && 0 <= c < b.Length1 ==>
          b[r, c] == if r < row && 0 <= c < boardSize then Water else old(b[r, c])
      {
        var col := 0;
        while col < boardSize
          invariant 0 <= col <= boardSize
          invariant forall r, c :: 0 <= r < b.Length0 && 0 <= c < b.Length1 ==>
            b[r, c] == if (r < row && 0 <= c < boardSize) || (r == row && 0 <= c < col) then Water else old(b[r, c])
        {
          b[row, col] := Water;
          col := col + 1;
        }
        row := row + 1;
      }
    }

    /** getMove: shoot the cursor cell if it is water; follow up from it if it is a hit,
        leaving the cursor where it is; otherwise advance the cursor once and shoot the
        new cursor cell without looking at it. */
    method GetMove() returns (shotRow: int, shotCol: int)
      requires Valid()
      modifies this`scanRow, this`scanCol
      ensures Valid()
      ensures OnBoard(boardSize, shotRow, shotCol)
      ensures old(board[scanRow, scanCol]) == Water ==>
        scanRow == old(scanRow) && scanCol == old(scanCol) && shotRow == scanRow && shotCol == scanCol
      ensures old(board[scanRow, scanCol]) == Hit ==>
        && scanRow == old(scanRow) && scanCol == old(scanCol)
        && var f := FollowUp(board, boardSize, scanRow, scanCol);
           (shotRow, shotCol) == if f.Some? then f.value else (scanRow, scanCol)
      ensures old(board[scanRow, scanCol]) != Water && old(board[scanRow, scanCol]) != Hit ==>
        && (scanRow, scanCol) == ScanNext(boardSize, minShipSize, old(scanRow), old(scanCol))
        && shotRow == scanRow && shotCol == scanCol
    {
      shotRow, shotCol := scanRow, scanCol;
      if board[scanRow, scanCol] == Water {
        // the cursor cell has not been shot yet: shoot it
      } else if board[scanRow, scanCol] == Hit {
        shotRow, shotCol := GetFollowUpShot(shotRow, shotCol);
        var f := FollowUp(board, boardSize, scanRow, scanCol);
        if f.Some? {
          var i, k := FollowUpSound(board, boardSize, scanRow, scanCol);
        }
      } else {
        Scan();
        shotRow, shotCol := scanRow, scanCol;
      }
    }

    /** positionOk: true exactly when every cell of the run is Water on the fleet grid. */
    method PositionOk(a: Anchor, length: int) returns (ok: bool)
      requires Valid() && RunOnBoard(boardSize, a, length)
      ensures ok == RunFree(shipBoard, boardSize, a, length)
    {
      if a.dir == Horizontal {
        var c := a.col;
        while c < a.col + length
          invariant a.col <= c && (c == a.col || c <= a.col + length)
          invariant forall c' :: a.col <= c' < c ==> shipBoard[a.row, c'] == Water
        {
          if shipBoard[a.row, c] != Water {
            return false;
          }
          c := c + 1;
        }
      } else {
        var r := a.row;
        while r < a.row + length
          invariant a.row <= r && (r == a.row || r <= a.row + length)
          invariant forall r' :: a.row <= r' < r ==> shipBoard[r', a.col] == Water
        {
          if shipBoard[r, a.col] != Water {
            return false;
          }
          r := r + 1;
        }
      }
      return true;
    }

    /** markShip: every cell of the run becomes Ship; no other cell changes. */
    method MarkShip(a: Anchor, length: int)
      requires Valid() && RunOnBoard(boardSize, a, length)
      modifies shipBoard
      ensures Valid()
      ensures forall r, c :: 0 <= r < shipBoard.Length0 && 0 <= c < shipBoard.Length1 ==>
        shipBoard[r, c] == if InRun(a, length, r, c) then Ship else old(shipBoard[r, c])
    {
      if a.dir == Horizontal {
        var c := a.col;
        while c < a.col + length
          invariant a.col <= c && (c == a.col || c <= a.col + length)
          invariant FleetGrid(shipBoard, boardSize)
          invariant forall r', c' :: 0 <= r' < shipBoard.Length0 && 0 <= c' < shipBoard.Length1 ==>
            shipBoard[r', c'] == if r' == a.row && a.col <= c' < c then Ship else old(shipBoard[r', c'])
        {
          shipBoard[a.row, c] := Ship;
          c := c + 1;
        }
      } else {
        var r := a.row;
        while r < a.row + length
          invariant a.row <= r && (r == a.row || r <= a.row + length)
          invariant FleetGrid(shipBoard, boardSize)
          invariant forall r', c' :: 0 <= r' < shipBoard.Length0 && 0 <= c' < shipBoard.Length1 ==>
            shipBoard[r', c'] == if c' == a.col && a.row <= r' < r then Ship else old(shipBoard[r', c'])
        {
          shipBoard[r, a.col] := Ship;
          r := r + 1;
        }
      }
    }

    /** placeShip: refuse a ship longer than the board; otherwise try the draws in turn and
        commit the first whose run is all water, numbering the ship with the count of ships
        placed before it. */
    method PlaceShip(length: int, draws: seq<Draw>) returns (res: PlaceResult)
      requires Valid()
      modifies this`numShipsPlaced, shipBoard
      ensures Valid()
      ensures res == TooLong <==> length > boardSize
      ensures !res.Placed? ==> unchanged(shipBoard) && numShipsPlaced == old(numShipsPlaced)
      ensures res == DrawsExhausted ==> length <= boardSize && forall i :: 0 <= i < |draws| ==>
        !old(RunFree(shipBoard, boardSize, ChooseValues(boardSize, length, draws[i]), length))
      ensures res.Placed? ==>
        && length <= boardSize
        && res.ship.length == length
        && res.ship.number == old(numShipsPlaced)
        && numShipsPlaced == old(numShipsPlaced) + 1
        && RunOnBoard(boardSize, res.ship.anchor, length)
        && old(RunFree(shipBoard, boardSize, res.ship.anchor, length))
        && (exists i :: 0 <= i < |draws| && res.ship.anchor == ChooseValues(boardSize, length, draws[i])
              && forall j :: 0 <= j < i ==> !old(RunFree(shipBoard, boardSize, ChooseValues(boardSize, length, draws[j]), length)))
        && forall r, c :: 0 <= r < shipBoard.Length0 && 0 <= c < shipBoard.Length1 ==>
             shipBoard[r, c] == if InRun(res.ship.anchor, length, r, c) then Ship else old(shipBoard[r, c])
    {
      var number := numShipsPlaced;
      if length > boardSize {
        return TooLong;
      }
      var i := 0;
      while i < |draws|
        invariant 0 <= i <= |draws|
        invariant unchanged(shipBoard) && numShipsPlaced == old(numShipsPlaced)
        invariant forall j :: 0 <= j < i ==> !RunFree(shipBoard, boardSize, ChooseValues(boardSize, length, draws[j]), length)
      {
        var a := ChooseValues(boardSize, length, draws[i]);
        var ok := PositionOk(a, length);
        if ok {
          numShipsPlaced := numShipsPlaced + 1;
          MarkShip(a, length);
          return Placed(PlacedShip(a, length, number));
        }
        i := i + 1;
      }
      return DrawsExhausted;
    }

    /** getFollowUpShot: the first successful search from (row, col) in the order Down,
        Right, Left, Up; the anchor itself when all four fail. */
    method GetFollowUpShot(row: int, col: int) returns (r: int, c: int)
      requires Valid()
      ensures var f := FollowUp(board, boardSize, row, col);
        (r, c) == if f.Some? then f.value else (row, col)
    {
      var found;
      found, r, c := Search(row, col, 1, 0);      // Down
      if found { return; }
      found, r, c := Search(row, col, 0, 1);      // Right
      if found { return; }
      found, r, c := Search(row, col, 0, -1);     // Left
      if found { return; }
      found, r, c := Search(row, col, -1, 0);     // Up
    }

    /** search: walk from (row, col) in steps of (rowDelta, colDelta); succeed with the first
        water cell reached over hits, fail (returning the anchor) at the edge, a miss or a kill. */
    method Search(row: int, col: int, rowDelta: int, colDelta: int) returns (found: bool, r: int, c: int)
      requires Valid() && UnitStep(rowDelta, colDelta)
      ensures var w := Walk(board, boardSize, row, col, rowDelta, colDelta, 1);
        found == w.Some? && (r, c) == if found then w.value else (row, col)
    {
      var range := 1;
      while true
        invariant 1 <= range
        invariant Walk(board, boardSize, row, col, rowDelta, colDelta, range)
               == Walk(board, boardSize, row, col, rowDelta, colDelta, 1)
        decreases StepsLeft(boardSize, row, col, rowDelta, colDelta, range)
      {
        var nr := row + rowDelta * range;
        var nc := col + colDelta * range;
        assert nr == Ray(row, rowDelta, range) && nc == Ray(col, colDelta, range);
        if !OnBoard(boardSize, nr, nc) {
          return false, row, col;
        } else if board[nr, nc] == Water {
          return true, nr, nc;
        } else if board[nr, nc] == Miss || board[nr, nc] == Kill {
          return false, row, col;
        }
        // a hit: keep walking
        range := range + 1;
      }
    }

    /** scan: advance the cursor by MIN_SHIP_SIZE columns, wrapping as ScanNext says. */
    method Scan()
      requires Valid()
      modifies this`scanRow, this`scanCol
      ensures Valid()
      ensures (scanRow, scanCol) == ScanNext(boardSize, minShipSize, old(scanRow), old(scanCol))
    {
      ScanStaysOnBoard(boardSize, minShipSize, scanRow, scanCol);
      scanCol := scanCol + minShipSize;
      if scanCol >= boardSize {
        scanCol := scanCol % boardSize;
        if boardSize % minShipSize == 0 {
          if scanCol + 1 == minShipSize {
            scanCol := 0;
          } else {
            scanCol := scanCol + 1;
          }
        }
        scanRow := scanRow + 1;
        if scanRow >= boardSize {
          scanRow := 0;
        }
      }
    }

    /** newRound: cursor and ship count back to zero, both grids back to all water; the
        opponent-shot counts are kept. */
    method NewRound()
      requires Valid()
      modifies this, board, shipBoard
      ensures Valid()
      ensures scanRow == 0 && scanCol == 0 && numShipsPlaced == 0 && shipMark == 'a'
      ensures AllWater(board, boardSize) && AllWater(shipBoard, boardSize)
      ensures unchanged(opponentShots)
    {
      scanRow := 0;
      scanCol := 0;
      numShipsPlaced := 0;
      shipMark := 'a';
      InitializeBoard(board);
      InitializeBoard(shipBoard);
    }

    /** update: a hit, kill or miss report overwrites that cell of the belief grid; an
        opponent-shot report adds one to that cell's count; nothing else changes. */
    method Update(msg: Message)
      requires Valid()
      requires msg.kind != OtherMessage ==> 0 <= msg.row < maxBoardSize && 0 <= msg.col < maxBoardSize
      modifies board, opponentShots
      ensures Valid()
      ensures msg.kind != OtherMessage ==> board[msg.row, msg.col] == Folded(old(board[msg.row, msg.col]), msg.kind)
      ensures forall r, c :: 0 <= r < board.Length0 && 0 <= c < board.Length1 && (r, c) != (msg.row, msg.col) ==>
        board[r, c] == old(board[r, c])
      ensures msg.kind != HitReport && msg.kind != KillReport && msg.kind != MissReport ==> unchanged(board)
      ensures msg.kind == OpponentShot ==>
        opponentShots[msg.row, msg.col] == old(opponentShots[msg.row, msg.col]) + 1
      ensures forall r, c ::
        (0 <= r < opponentShots.Length0 && 0 <= c < opponentShots.Length1
         && (msg.kind != OpponentShot || (r, c) != (msg.row, msg.col))) ==>
        opponentShots[r, c] == old(opponentShots[r, c])
    {
      match msg.kind {
        case HitReport =>
          board[msg.row, msg.col] := Hit;
        case KillReport =>
          board[msg.row, msg.col] := Kill;
        case MissReport =>
          board[msg.row, msg.col] := Miss;
        case OpponentShot =>
          opponentShots[msg.row, msg.col] := opponentShots[msg.row, msg.col] + 1;
        case OtherMessage =>
      }
    }
  }
}
