/**
 * checkWinner: the first exactly-five run in row-major order.
 * The specification is declarative (ExactFiveAt, WinningOrigin); the
 * imperative scan (CheckWinner, CountRun) is proved equal to it.
 */
module WinCheck {
  import opened RenjuBoard

  /** A unit step along one axis. */
  type Step = u: int | -1 <= u <= 1

  /** A scan direction as a row step and a column step. */
  datatype Direction = Direction(dr: Step, dc: Step)

  /** k * u, written by cases so that positions along a line stay linear in k. */
  function Scaled(k: int, u: Step): int
  {
    if u == 1 then k else if u == -1 then -k else 0
  }

  /** The directions in the order the scan tries them: right, down, down-right, up-right. */
  const DIRECTIONS: seq<Direction> := [Direction(0, 1), Direction(1, 0), Direction(1, 1), Direction(-1, 1)]

  /** The exact run length that wins. */
  const WIN_LENGTH: int := 5

  datatype Position = Position(row: int, col: int)

  /** winner == Empty with no position, or the winning stone and the origin of its run. */
  datatype GameResult = GameResult(winner: Stone, startPosition: Option<Position>)

  const NO_WINNER := GameResult(Empty, None)

  /** The cell (r, c) is on the board and holds s; off-board is never "the same". */
  predicate SameAt(board: Board, r: int, c: int, s: Stone)
    requires IsBoard(board)
  {
    InBounds(r, c) && board[r][c] == s
  }

  /** The cell k steps from (r, c) along d is on the board and holds s (k may be negative). */
  predicate SameAhead(board: Board, r: int, c: int, d: Direction, s: Stone, k: int)
    requires IsBoard(board)
  {
    SameAt(board, r + Scaled(k, d.dr), c + Scaled(k, d.dc), s)
  }

  /**
   * Along d, the stone at (r, c) begins a run of exactly WIN_LENGTH stones:
   * the five cells from the origin hold it, and neither the cell before the
   * origin nor the cell after the fifth does.
   */
  predicate ExactFiveAt(board: Board, r: int, c: int, d: Direction)
    requires IsBoard(board) && InBounds(r, c)
  {
    var s := board[r][c];
    s != Empty
    && (forall k :: 0 <= k < WIN_LENGTH ==> SameAhead(board, r, c, d, s, k))
    && !SameAhead(board, r, c, d, s, WIN_LENGTH)
    && !SameAhead(board, r, c, d, s, -1)
  }

  /** Some scan direction makes (r, c) the origin of an exactly-five run. */
  predicate WinningOrigin(board: Board, r: int, c: int)
    requires IsBoard(board)
  {
    InBounds(r, c) && exists i :: 0 <= i < |DIRECTIONS| && ExactFiveAt(board, r, c, DIRECTIONS[i])
  }

  /** Row-major order on cells. */
  predicate Before(r1: int, c1: int, r2: int, c2: int)
  {
    r1 < r2 || (r1 == r2 && c1 < c2)
  }

  /**
   * What checkWinner must return: no winner exactly when no cell is a winning
   * origin; otherwise the stone at the row-major-first winning origin and that origin.
   */
  ghost predicate IsFirstWin(board: Board, res: GameResult)
    requires IsBoard(board)
  {
    match res.startPosition
    case None =>
      res.winner == Empty && forall r, c :: !WinningOrigin(board, r, c)
    case Some(p) =>
      InBounds(p.row, p.col) && WinningOrigin(board, p.row, p.col)
      && res.winner == board[p.row][p.col] && res.winner != Empty
      && forall r, c :: Before(r, c, p.row, p.col) ==> !WinningOrigin(board, r, c)
  }

  /** The row-major scan from cell (r, c) onwards (c == SIZE moves to the next row). */
  function ScanFrom(board: Board, r: nat, c: nat): GameResult
    requires IsBoard(board) && r <= SIZE && c <= SIZE
    decreases SIZE - r, SIZE - c
  {
    if r == SIZE then NO_WINNER
    else if c == SIZE then ScanFrom(board, r + 1, 0)
    else if WinningOrigin(board, r, c) then GameResult(board[r][c], Some(Position(r, c)))
    else ScanFrom(board, r, c + 1)
  }

  /**
   * The scan from (r, c) reports no winner only when no cell from (r, c) on
   * is a winning origin, and otherwise the first such cell from (r, c) on.
   */
  lemma {:induction false} ScanFromFindsFirst(board: Board, r: nat, c: nat)
    requires IsBoard(board) && r <= SIZE && c <= SIZE
    ensures var res := ScanFrom(board, r, c);
      res.startPosition.None? ==>
        res.winner == Empty && forall r', c' :: !Before(r', c', r, c) ==> !WinningOrigin(board, r', c')
    ensures var res := ScanFrom(board, r, c);
      res.startPosition.Some? ==>
        var p := res.startPosition.value;
        !Before(p.row, p.col, r, c) && WinningOrigin(board, p.row, p.col)
        && res.winner == board[p.row][p.col] && res.winner != Empty
        && forall r', c' :: !Before(r', c', r, c) && Before(r', c', p.row, p.col) ==> !WinningOrigin(board, r', c')
    decreases SIZE - r, SIZE - c
  {
    if r == SIZE {
    } else if c == SIZE {
      ScanFromFindsFirst(board, r + 1, 0);
    } else if !WinningOrigin(board, r, c) {
      ScanFromFindsFirst(board, r, c + 1);
    }
  }

  /** The result checkWinner computes, as a function of the board. */
  function Evaluate(board: Board): (res: GameResult)
    requires IsBoard(board)
    ensures IsFirstWin(board, res)
  {
    ScanFromFindsFirst(board, 0, 0);
    ScanFrom(board, 0, 0)
  }

  /** IsFirstWin determines the result: it holds of Evaluate's result and of no other. */
  lemma EvaluateCharacterized(board: Board, res: GameResult)
    requires IsBoard(board)
    ensures Evaluate(board) == res <==> IsFirstWin(board, res)
  {
  }

  /**
   * The counting loop of checkWinner: the number of consecutive cells from
   * (r, c) along d holding the origin's stone. It runs to the end of the run,
   * so the cell `count` steps ahead never holds that stone.
   */
  method CountRun(board: Board, r: int, c: int, d: Direction) returns (count: int)
    requires IsBoard(board) && InBounds(r, c) && d in DIRECTIONS
    ensures 1 <= count
    ensures forall k :: 0 <= k < count ==> SameAhead(board, r, c, d, board[r][c], k)
    ensures !SameAhead(board, r, c, d, board[r][c], count)
  {
    var stone := board[r][c];
    assert d.dc == 1 || d == Direction(1, 0);
    count := 1;
    var nr := r + d.dr;
    var nc := c + d.dc;
    assert SameAhead(board, r, c, d, stone, 0);
    while InBounds(nr, nc) && board[nr][nc] == stone
      invariant 1 <= count
      invariant nr == r + Scaled(count, d.dr) && nc == c + Scaled(count, d.dc)
      invariant nr <= SIZE && nc <= SIZE
      invariant forall k :: 0 <= k < count ==> SameAhead(board, r, c, d, stone, k)
      decreases if d.dc == 1 then SIZE - nc else SIZE - nr
    {
      assert SameAhead(board, r, c, d, stone, count);
      count := count + 1;
      nr := nr + d.dr;
      nc := nc + d.dc;
    }
  }

  /**
   * checkWinner: scan the cells row by row, skip empty ones, and return the
   * first cell from which some direction has an exactly-five run.
   */
  method CheckWinner(board: Board) returns (res: GameResult)
    requires IsBoard(board)
    ensures res == Evaluate(board)
  {
    for r := 0 to SIZE
      invariant ScanFrom(board, r, 0) == Evaluate(board)
    {
      for c := 0 to SIZE
        invariant ScanFrom(board, r, c) == Evaluate(board)
      {
        var stone := board[r][c];
        if stone == Empty {
          ScanSkip(board, r, c);
          continue;
        }
        var wins := OriginWins(board, r, c);
        if wins {
          return GameResult(stone, Some(Position(r, c)));
        }
        ScanSkip(board, r, c);
      }
    }
    return NO_WINNER;
  }

  /**
   * The direction loop of checkWinner at one non-empty cell: for each
   * direction in order, count the forward run; a count of exactly WIN_LENGTH
   * is a candidate, accepted when the cells before the origin and after the
   * fifth stone do not hold the same stone.
   */
  method OriginWins(board: Board, r: int, c: int) returns (wins: bool)
    requires IsBoard(board) && InBounds(r, c) && board[r][c] != Empty
    ensures wins == WinningOrigin(board, r, c)
  {
    var stone := board[r][c];
    for i := 0 to |DIRECTIONS|
      invariant forall j :: 0 <= j < i ==> !ExactFiveAt(board, r, c, DIRECTIONS[j])
    {
      var d := DIRECTIONS[i];
      var count := CountRun(board, r, c, d);
      CandidateCheck(board, r, c, d, count);
      if count == WIN_LENGTH {
        var prevR, prevC := r - d.dr, c - d.dc;
        var nextR, nextC := r + d.dr * WIN_LENGTH, c + d.dc * WIN_LENGTH;
        var overBefore := InBounds(prevR, prevC) && board[prevR][prevC] == stone;
        var overAfter := InBounds(nextR, nextC) && board[nextR][nextC] == stone;
        if !overBefore && !overAfter {
          return true;
        }
      }
    }
    return false;
  }

  /**
   * The candidate test of checkWinner, given the exact forward run length
   * `count`: when count is WIN_LENGTH the probe after the fifth stone never
   * finds the same stone, and the direction wins exactly when count is
   * WIN_LENGTH and the probe before the origin does not find the same stone.
   */
  lemma CandidateCheck(board: Board, r: int, c: int, d: Direction, count: int)
    requires IsBoard(board) && InBounds(r, c) && 1 <= count
    requires forall k :: 0 <= k < count ==> SameAhead(board, r, c, d, board[r][c], k)
    requires !SameAhead(board, r, c, d, board[r][c], count)
    ensures count == WIN_LENGTH ==>
      !(InBounds(r + d.dr * WIN_LENGTH, c + d.dc * WIN_LENGTH)
        && board[r + d.dr * WIN_LENGTH][c + d.dc * WIN_LENGTH] == board[r][c])
    ensures ExactFiveAt(board, r, c, d) <==>
      board[r][c] != Empty && count == WIN_LENGTH
      && !(InBounds(r - d.dr, c - d.dc) && board[r - d.dr][c - d.dc] == board[r][c])
  {
    var s := board[r][c];
    assert d.dr * WIN_LENGTH == Scaled(WIN_LENGTH, d.dr) && d.dc * WIN_LENGTH == Scaled(WIN_LENGTH, d.dc);
    assert SameAhead(board, r, c, d, s, -1) == SameAt(board, r - d.dr, c - d.dc, s);
    if count < WIN_LENGTH {
      assert !SameAhead(board, r, c, d, s, count);
    } else if count > WIN_LENGTH {
      assert SameAhead(board, r, c, d, s, WIN_LENGTH);
    }
  }

  /** One step of the scan past a cell that is not a winning origin. */
  lemma ScanSkip(board: Board, r: nat, c: nat)
    requires IsBoard(board) && r < SIZE && c < SIZE
    requires !WinningOrigin(board, r, c)
    ensures ScanFrom(board, r, c) == ScanFrom(board, r, c + 1)
    ensures c + 1 == SIZE ==> ScanFrom(board, r, c + 1) == ScanFrom(board, r + 1, 0)
  {
  }

  /**
   * A checkWinner result with a winner: the winner is the stone at the
   * in-bounds origin, and along some direction the five cells from there hold
   * it while both neighbours of the five are off the board or hold another stone.
   */
  lemma WinnerHasExactFive(board: Board)
    requires IsBoard(board)
    requires Evaluate(board).winner != Empty
    ensures Evaluate(board).startPosition.Some?
    ensures var res := Evaluate(board);
            var p := res.startPosition.value;
            InBounds(p.row, p.col) && board[p.row][p.col] == res.winner
            && exists i :: (0 <= i < |DIRECTIONS| &&
               var d := DIRECTIONS[i];
               (forall k :: 0 <= k < WIN_LENGTH ==>
                  InBounds(p.row + Scaled(k, d.dr), p.col + Scaled(k, d.dc)) && SameAhead(board, p.row, p.col, d, res.winner, k))
               && !SameAhead(board, p.row, p.col, d, res.winner, WIN_LENGTH)
               && !SameAhead(board, p.row, p.col, d, res.winner, -1))
  {
    var res := Evaluate(board);
    var p := res.startPosition.value;
    var i :| 0 <= i < |DIRECTIONS| && ExactFiveAt(board, p.row, p.col, DIRECTIONS[i]);
    var d := DIRECTIONS[i];
    forall k | 0 <= k < WIN_LENGTH
      ensures InBounds(p.row + Scaled(k, d.dr), p.col + Scaled(k, d.dc)) && SameAhead(board, p.row, p.col, d, res.winner, k)
    {
      assert SameAhead(board, p.row, p.col, d, res.winner, k);
    }
  }

  /**
   * An overline never wins along its own line: if n >= 6 consecutive cells from
   * (r, c) along d hold s, none of them is the origin of an exactly-five run along d.
   */
  lemma {:induction false} OverlineNeverWins(board: Board, r: int, c: int, d: Direction, s: Stone, n: int, j: int)
    requires IsBoard(board) && n > WIN_LENGTH && 0 <= j < n
    requires forall k :: 0 <= k < n ==> SameAhead(board, r, c, d, s, k)
    ensures InBounds(r + Scaled(j, d.dr), c + Scaled(j, d.dc))
    ensures !ExactFiveAt(board, r + Scaled(j, d.dr), c + Scaled(j, d.dc), d)
  {
    var r', c' := r + Scaled(j, d.dr), c + Scaled(j, d.dc);
    assert SameAhead(board, r, c, d, s, j);
    if j == 0 {
      assert SameAhead(board, r, c, d, s, WIN_LENGTH);
      assert SameAhead(board, r', c', d, s, WIN_LENGTH);
    } else {
      assert SameAhead(board, r, c, d, s, j - 1);
      assert SameAhead(board, r', c', d, s, -1);
    }
  }

  /** A run interrupted before its fifth cell is not a win along that line. */
  lemma InterruptedRunNeverWins(board: Board, r: int, c: int, d: Direction, k: int)
    requires IsBoard(board) && InBounds(r, c)
    requires 0 < k < WIN_LENGTH && !SameAhead(board, r, c, d, board[r][c], k)
    ensures !ExactFiveAt(board, r, c, d)
  {
  }

  /** The empty board has no winner. */
  lemma EmptyBoardHasNoWinner()
    ensures Evaluate(EmptyBoard()) == NO_WINNER
  {
    var b := EmptyBoard();
    forall r, c ensures !WinningOrigin(b, r, c) {
      if InBounds(r, c) {
        assert b[r][c] == Empty;
      }
    }
    EvaluateCharacterized(b, NO_WINNER);
  }
}
