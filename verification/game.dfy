/**
 * The game component around checkWinner: the board and the player to move,
 * a click that places a stone and passes the turn, the restart button, and
 * the text of the result.
 */
module RenjuGame {
  import opened RenjuBoard
  import opened WinCheck
  import opened Decimal

  /** The player after p (`currentPlayer === 1 ? 2 : 1`). */
  function Opponent(p: Stone): (q: Stone)
    ensures q != Empty && q != p
  {
    if p == Black then White else Black
  }

  /**
   * Black moves first and the players alternate, so Black is to move when
   * both have played equally often and White when Black has one stone more.
   */
  predicate TurnMatchesCounts(b: Board, player: Stone)
  {
    (player == Black && CountStones(b, Black) == CountStones(b, White))
    || (player == White && CountStones(b, Black) == CountStones(b, White) + 1)
  }

  /** Placing the mover's stone on an empty cell and passing the turn keeps the counts in step. */
  lemma PlacePreservesTurn(b: Board, r: int, c: int, player: Stone)
    requires IsBoard(b) && InBounds(r, c) && b[r][c] == Empty
    requires TurnMatchesCounts(b, player)
    ensures TurnMatchesCounts(Put(b, r, c, player), Opponent(player))
  {
    CountStonesUpdate(b, r, c, player, Black);
    CountStonesUpdate(b, r, c, player, White);
  }

  /** A result renderResult can print: a winner always comes with a position on or after (0, 0). */
  predicate Renderable(res: GameResult)
  {
    res.winner != Empty ==>
      res.startPosition.Some? && res.startPosition.value.row >= 0 && res.startPosition.value.col >= 0
  }

  /** Every result of checkWinner can be rendered. */
  lemma EvaluateRenderable(board: Board)
    requires IsBoard(board)
    ensures Renderable(Evaluate(board))
  {
  }

  /**
   * renderResult: "0" when nobody has won, otherwise "black" or "white", a
   * line break, and the 1-based row and column separated by a space.
   */
  function RenderResult(res: GameResult): (s: string)
    requires Renderable(res)
    ensures s == "0" <==> res.winner == Empty
  {
    if res.winner == Empty then "0"
    else
      var p := res.startPosition.value;
      (if res.winner == Black then "black" else "white") + "\n"
      + DecimalString(p.row + 1) + " " + DecimalString(p.col + 1)
  }

  /** The index of the first occurrence of ch in s. */
  function IndexOf(s: string, ch: char): (i: Option<nat>)
    ensures i.Some? ==> i.value < |s| && s[i.value] == ch && ch !in s[..i.value]
    ensures i.None? ==> ch !in s
  {
    if s == [] then None
    else if s[0] == ch then Some(0)
    else match IndexOf(s[1..], ch)
      case None => None
      case Some(j) => assert s[..j + 1] == [s[0]] + s[1..][..j]; Some(j + 1)
  }

  /** The text before and after the first occurrence of ch. */
  function SplitAt(s: string, ch: char): Option<(string, string)>
  {
    match IndexOf(s, ch)
    case None => None
    case Some(i) => Some((s[..i], s[i + 1..]))
  }

  /** Reads "<row> <col>" (1-based decimals) back as a 0-based position. */
  function ReadPosition(text: string): Option<Position>
  {
    match SplitAt(text, ' ')
    case None => None
    case Some((rowText, colText)) =>
      if AllDigits(rowText) && AllDigits(colText) && ParseDecimal(rowText) >= 1 && ParseDecimal(colText) >= 1
      then Some(Position(ParseDecimal(rowText) - 1, ParseDecimal(colText) - 1))
      else None
  }

  /**
   * Reads a rendered result back. None when the text is not `0`, or
   * `black`/`white`, a line break and two positive decimals separated by a
   * space (leading zeros and positions off the board are accepted).
   */
  function ReadResult(s: string): Option<GameResult>
  {
    if s == "0" then Some(NO_WINNER)
    else if |s| < 6 then None
    else
      var winner := if s[..6] == "black\n" then Black else if s[..6] == "white\n" then White else Empty;
      match ReadPosition(s[6..])
      case Some(p) => if winner != Empty then Some(GameResult(winner, Some(p))) else None
      case None => None
  }

  /** Splitting at the first space after a run of digits gives back the digits and the rest. */
  lemma SplitAfterDigits(digits: string, tail: string)
    requires AllDigits(digits)
    ensures SplitAt(digits + [' '] + tail, ' ') == Some((digits, tail))
  {
    var s := digits + [' '] + tail;
    assert s[|digits|] == ' ';
    assert s[..|digits|] == digits;
    assert IndexOf(s, ' ') == Some(|digits|);
    assert s[|digits| + 1..] == tail;
  }

  /** Two digit strings around one space read back as the position they number from 1. */
  lemma ReadPositionDigits(rowText: string, colText: string)
    requires AllDigits(rowText) && AllDigits(colText)
    requires ParseDecimal(rowText) >= 1 && ParseDecimal(colText) >= 1
    ensures ReadPosition(rowText + [' '] + colText)
         == Some(Position(ParseDecimal(rowText) - 1, ParseDecimal(colText) - 1))
  {
    SplitAfterDigits(rowText, colText);
    ReadSplitPosition(rowText + [' '] + colText, rowText, colText);
  }

  /** A text that splits into two readable numbers reads back as the position they number from 1. */
  lemma ReadSplitPosition(text: string, rowText: string, colText: string)
    requires AllDigits(rowText) && AllDigits(colText)
    requires ParseDecimal(rowText) >= 1 && ParseDecimal(colText) >= 1
    requires SplitAt(text, ' ') == Some((rowText, colText))
    ensures ReadPosition(text) == Some(Position(ParseDecimal(rowText) - 1, ParseDecimal(colText) - 1))
  {
  }

  /** The position text of a rendered result reads back as that position. */
  lemma ReadPositionText(row: nat, col: nat)
    ensures ReadPosition(DecimalString(row + 1) + " " + DecimalString(col + 1)) == Some(Position(row, col))
  {
    var rowText, colText := DecimalString(row + 1), DecimalString(col + 1);
    assert rowText + " " + colText == rowText + [' '] + colText;
    ParseDecimalString(row + 1);
    ParseDecimalString(col + 1);
    ReadPositionDigits(rowText, colText);
  }

  /** A "black" or "white" line followed by a readable position reads back as that winner there. */
  lemma ReadResultHeader(header: string, winner: Stone, text: string)
    requires (header == "black\n" && winner == Black) || (header == "white\n" && winner == White)
    requires ReadPosition(text).Some?
    ensures ReadResult(header + text) == Some(GameResult(winner, ReadPosition(text)))
  {
    var s := header + text;
    assert s[..6] == header && s[6..] == text;
    assert s != "0" by { assert |s| > 1; }
    if winner == White {
      assert s[..6] != "black\n" by { assert s[..6][0] == 'w'; }
    }
  }

  /**
   * The rendered text determines the result: reading it back gives the
   * result itself, or "no winner" when the winner is Empty (whose position is
   * never printed).
   */
  lemma ReadRenderResult(res: GameResult)
    requires Renderable(res)
    ensures ReadResult(RenderResult(res)) == Some(if res.winner == Empty then NO_WINNER else res)
  {
    if res.winner != Empty {
      var p := res.startPosition.value;
      var header := if res.winner == Black then "black\n" else "white\n";
      var text := DecimalString(p.row + 1) + " " + DecimalString(p.col + 1);
      assert RenderResult(res) == header + text;
      ReadPositionText(p.row, p.col);
      ReadResultHeader(header, res.winner, text);
    }
  }

  /** Two results that render to the same text are the same result, unless both have no winner. */
  lemma RenderResultInjective(a: GameResult, b: GameResult)
    requires Renderable(a) && Renderable(b) && a.winner != Empty
    requires RenderResult(a) == RenderResult(b)
    ensures a == b
  {
    ReadRenderResult(a);
    ReadRenderResult(b);
  }

  /** The component's state: the board and the player whose stone the next click places. */
  class Game {
    var board: Board
    var currentPlayer: Stone

    ghost predicate Valid()
      reads this
    {
      IsBoard(board) && TurnMatchesCounts(board, currentPlayer)
    }

    /** The initial state: an empty board, Black to move. */
    constructor ()
      ensures Valid()
      ensures board == EmptyBoard() && currentPlayer == Black
    {
      board := EmptyBoard();
      currentPlayer := Black;
      EmptyBoardCounts();
    }

    /**
     * handleClick: a click on an occupied cell, or after someone has won,
     * changes nothing; otherwise the clicked cell, and only it, receives the
     * current player's stone, and the turn passes to the other player.
     */
    method HandleClick(row: int, col: int)
      requires Valid() && InBounds(row, col)
      modifies this
      ensures Valid()
      ensures old(board[row][col]) != Empty || Evaluate(old(board)).winner != Empty ==>
        board == old(board) && currentPlayer == old(currentPlayer)
      ensures old(board[row][col]) == Empty && Evaluate(old(board)).winner == Empty ==>
        board == Put(old(board), row, col, old(currentPlayer))
        && currentPlayer == Opponent(old(currentPlayer))
    {
      var result := CheckWinner(board);
      if board[row][col] != Empty || result.winner != Empty {
        return;
      }
      PlacePreservesTurn(board, row, col, currentPlayer);
      var newBoard := board[row := board[row][col := currentPlayer]];
      board := newBoard;
      currentPlayer := if currentPlayer == Black then White else Black;
    }

    /** The restart button: an empty board and Black to move. */
    method Restart()
      modifies this
      ensures Valid()
      ensures board == EmptyBoard() && currentPlayer == Black
    {
      board := EmptyBoard();
      currentPlayer := Black;
      EmptyBoardCounts();
    }
  }
}
