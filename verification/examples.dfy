/**
 * The test positions kept as comments in src/App.tsx, with the result
 * checkWinner gives on each.
 */
module WinExamples {
  import opened RenjuBoard
  import opened WinCheck

  const RIGHT := Direction(0, 1)
  const DOWN := Direction(1, 0)
  const DOWN_RIGHT := Direction(1, 1)
  const UP_RIGHT := Direction(-1, 1)

  /** The board whose cell (r, c) holds cells(r, c). */
  function BoardOf(cells: (int, int) -> Stone): (b: Board)
    ensures IsBoard(b)
    ensures forall r, c :: InBounds(r, c) ==> b[r][c] == cells(r, c)
  {
    seq(SIZE, r => seq(SIZE, c => cells(r, c)))
  }

  /** A cell is no winning origin when no direction gives it an exactly-five run. */
  lemma NoDirectionWins(board: Board, r: int, c: int)
    requires IsBoard(board) && InBounds(r, c)
    requires !ExactFiveAt(board, r, c, RIGHT) && !ExactFiveAt(board, r, c, DOWN)
    requires !ExactFiveAt(board, r, c, DOWN_RIGHT) && !ExactFiveAt(board, r, c, UP_RIGHT)
    ensures !WinningOrigin(board, r, c)
  {
    forall i | 0 <= i < |DIRECTIONS| ensures !ExactFiveAt(board, r, c, DIRECTIONS[i]) {
      assert DIRECTIONS[i] in {RIGHT, DOWN, DOWN_RIGHT, UP_RIGHT};
    }
  }

  /** A stone none of whose four forward neighbours holds the same stone is no winning origin. */
  lemma LoneStoneNoWin(board: Board, r: int, c: int)
    requires IsBoard(board) && InBounds(r, c)
    requires !SameAhead(board, r, c, RIGHT, board[r][c], 1) && !SameAhead(board, r, c, DOWN, board[r][c], 1)
    requires !SameAhead(board, r, c, DOWN_RIGHT, board[r][c], 1) && !SameAhead(board, r, c, UP_RIGHT, board[r][c], 1)
    ensures !WinningOrigin(board, r, c)
  {
    InterruptedRunNeverWins(board, r, c, RIGHT, 1);
    InterruptedRunNeverWins(board, r, c, DOWN, 1);
    InterruptedRunNeverWins(board, r, c, DOWN_RIGHT, 1);
    InterruptedRunNeverWins(board, r, c, UP_RIGHT, 1);
    NoDirectionWins(board, r, c);
  }

  // Black at row 10, columns 2 to 6, and a white stone at (5, 8).
  function HorizontalBlackCells(r: int, c: int): Stone
  {
    if r == 10 && 2 <= c <= 6 then Black else if r == 5 && c == 8 then White else Empty
  }

  /** Five black stones in a row win, reported at their leftmost stone. */
  lemma HorizontalBlackWins()
    ensures Evaluate(BoardOf(HorizontalBlackCells)) == GameResult(Black, Some(Position(10, 2)))
  {
    var b := BoardOf(HorizontalBlackCells);
    assert ExactFiveAt(b, 10, 2, DIRECTIONS[0]);
    forall r, c | Before(r, c, 10, 2) ensures !WinningOrigin(b, r, c) {
      if InBounds(r, c) && b[r][c] != Empty {
        LoneStoneNoWin(b, r, c);
      }
    }
    EvaluateCharacterized(b, GameResult(Black, Some(Position(10, 2))));
  }

  // White at column 12, rows 5 to 9, and a black stone at (5, 8).
  function VerticalWhiteCells(r: int, c: int): Stone
  {
    if c == 12 && 5 <= r <= 9 then White else if r == 5 && c == 8 then Black else Empty
  }

  /** Five white stones in a column win, reported at their top stone; the earlier black stone does not. */
  lemma VerticalWhiteWins()
    ensures Evaluate(BoardOf(VerticalWhiteCells)) == GameResult(White, Some(Position(5, 12)))
  {
    var b := BoardOf(VerticalWhiteCells);
    assert ExactFiveAt(b, 5, 12, DIRECTIONS[1]);
    forall r, c | Before(r, c, 5, 12) ensures !WinningOrigin(b, r, c) {
      if InBounds(r, c) && b[r][c] != Empty {
        LoneStoneNoWin(b, r, c);
      }
    }
    EvaluateCharacterized(b, GameResult(White, Some(Position(5, 12))));
  }

  // Black on the main diagonal from (0, 0) to (4, 4), and a white stone at (5, 8).
  function DiagonalBlackCells(r: int, c: int): Stone
  {
    if r == c && 0 <= r <= 4 then Black else if r == 5 && c == 8 then White else Empty
  }

  /** A diagonal from the corner wins: the cell before (0, 0) is off the board. */
  lemma DiagonalBlackWins()
    ensures Evaluate(BoardOf(DiagonalBlackCells)) == GameResult(Black, Some(Position(0, 0)))
  {
    var b := BoardOf(DiagonalBlackCells);
    assert ExactFiveAt(b, 0, 0, DIRECTIONS[2]);
    EvaluateCharacterized(b, GameResult(Black, Some(Position(0, 0))));
  }

  // White on the rising diagonal (10, 2), (9, 3), (8, 4), (7, 5), (6, 6), and a black stone at (5, 8).
  function DiagonalWhiteCells(r: int, c: int): Stone
  {
    if r + c == 12 && 6 <= r <= 10 then White else if r == 5 && c == 8 then Black else Empty
  }

  /**
   * A rising diagonal is reported at its lower-left stone (10, 2), the only
   * origin of its exactly-five run, although (6, 6) comes first in row-major order.
   */
  lemma DiagonalWhiteWins()
    ensures Evaluate(BoardOf(DiagonalWhiteCells)) == GameResult(White, Some(Position(10, 2)))
  {
    var b := BoardOf(DiagonalWhiteCells);
    assert ExactFiveAt(b, 10, 2, DIRECTIONS[3]);
    forall r, c | Before(r, c, 10, 2) ensures !WinningOrigin(b, r, c) {
      if InBounds(r, c) && b[r][c] != Empty {
        if b[r][c] == White {
          // the rising run from (r, c) stops before (5, 7)
          InterruptedRunNeverWins(b, r, c, UP_RIGHT, r - 5);
          InterruptedRunNeverWins(b, r, c, RIGHT, 1);
          InterruptedRunNeverWins(b, r, c, DOWN, 1);
          InterruptedRunNeverWins(b, r, c, DOWN_RIGHT, 1);
          NoDirectionWins(b, r, c);
        } else {
          LoneStoneNoWin(b, r, c);
        }
      }
    }
    EvaluateCharacterized(b, GameResult(White, Some(Position(10, 2))));
  }

  // Black at row 4, columns 4 to 9: six in a row.
  function OverlineCells(r: int, c: int): Stone
  {
    if r == 4 && 4 <= c <= 9 then Black else Empty
  }

  /** Six in a row is an overline and wins nothing. */
  lemma OverlineNoWinner()
    ensures Evaluate(BoardOf(OverlineCells)) == NO_WINNER
  {
    var b := BoardOf(OverlineCells);
    forall r, c ensures !WinningOrigin(b, r, c) {
      if InBounds(r, c) && b[r][c] != Empty {
        OverlineNeverWins(b, 4, 4, RIGHT, Black, 6, c - 4);
        InterruptedRunNeverWins(b, r, c, DOWN, 1);
        InterruptedRunNeverWins(b, r, c, DOWN_RIGHT, 1);
        InterruptedRunNeverWins(b, r, c, UP_RIGHT, 1);
        NoDirectionWins(b, r, c);
      }
    }
    EvaluateCharacterized(b, NO_WINNER);
  }

  // Row 8: black, black, white, black, black from column 8 to 12.
  function InterruptedCells(r: int, c: int): Stone
  {
    if r == 8 && c == 10 then White else if r == 8 && 8 <= c <= 12 then Black else Empty
  }

  /** A white stone in the middle splits the black stones; nobody wins. */
  lemma InterruptedNoWinner()
    ensures Evaluate(BoardOf(InterruptedCells)) == NO_WINNER
  {
    var b := BoardOf(InterruptedCells);
    forall r, c ensures !WinningOrigin(b, r, c) {
      if InBounds(r, c) && b[r][c] != Empty {
        if c == 8 || c == 11 {
          InterruptedRunNeverWins(b, r, c, RIGHT, 2);
          InterruptedRunNeverWins(b, r, c, DOWN, 1);
          InterruptedRunNeverWins(b, r, c, DOWN_RIGHT, 1);
          InterruptedRunNeverWins(b, r, c, UP_RIGHT, 1);
          NoDirectionWins(b, r, c);
        } else {
          LoneStoneNoWin(b, r, c);
        }
      }
    }
    EvaluateCharacterized(b, NO_WINNER);
  }

  // Black at row 18, columns 14 to 18, touching the last column.
  function EdgeBlackCells(r: int, c: int): Stone
  {
    if r == 18 && 14 <= c <= 18 then Black else Empty
  }

  /** A run that ends at the board's edge wins: the missing cell after it is no overline. */
  lemma EdgeBlackWins()
    ensures Evaluate(BoardOf(EdgeBlackCells)) == GameResult(Black, Some(Position(18, 14)))
  {
    var b := BoardOf(EdgeBlackCells);
    assert ExactFiveAt(b, 18, 14, DIRECTIONS[0]);
    EvaluateCharacterized(b, GameResult(Black, Some(Position(18, 14))));
  }
}
