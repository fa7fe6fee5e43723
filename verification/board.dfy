/** The Renju board: stones, the fixed 19x19 grid, and stone counting. */
module RenjuBoard {

  /** A cell's content; the source encodes these as 0, 1 and 2. */
  datatype Stone = Empty | Black | White

  datatype Option<T> = None | Some(value: T)

  /** Number of rows and of columns; the source hard-codes 19. */
  const SIZE: nat := 19

  /** A grid of stones addressed board[row][col]. */
  type Board = seq<seq<Stone>>

  /** The board shape every caller of the win checker supplies: SIZE rows of SIZE cells. */
  predicate IsBoard(b: Board)
  {
    |b| == SIZE && forall r :: 0 <= r < SIZE ==> |b[r]| == SIZE
  }

  /** The source's isInBounds. */
  predicate InBounds(r: int, c: int)
  {
    0 <= r < SIZE && 0 <= c < SIZE
  }

  /** createEmptyBoard: SIZE rows of SIZE empty cells. */
  function EmptyBoard(): (b: Board)
    ensures IsBoard(b)
    ensures forall r, c :: InBounds(r, c) ==> b[r][c] == Empty
  {
    seq(SIZE, _ => seq(SIZE, _ => Empty))
  }

  /** The board with one cell overwritten (the copy-then-write of a placement). */
  function Put(b: Board, r: int, c: int, s: Stone): (b': Board)
    requires IsBoard(b) && InBounds(r, c)
    ensures IsBoard(b')
    ensures b'[r][c] == s
    ensures forall r', c' :: InBounds(r', c') && (r', c') != (r, c) ==> b'[r'][c'] == b[r'][c']
  {
    b[r := b[r][c := s]]
  }

  /** How many cells of a row hold s. */
  function CountRow(row: seq<Stone>, s: Stone): nat
  {
    if row == [] then 0 else (if row[0] == s then 1 else 0) + CountRow(row[1..], s)
  }

  /** How many cells of a board hold s. */
  function CountStones(b: Board, s: Stone): nat
  {
    if b == [] then 0 else CountRow(b[0], s) + CountStones(b[1..], s)
  }

  function Indicator(p: bool): nat
  {
    if p then 1 else 0
  }

  /** Overwriting one cell of a row changes the count of s by the cells' difference. */
  lemma {:induction false} CountRowUpdate(row: seq<Stone>, c: nat, t: Stone, s: Stone)
    requires c < |row|
    ensures CountRow(row[c := t], s) + Indicator(row[c] == s) == CountRow(row, s) + Indicator(t == s)
  {
    if c == 0 {
      assert row[c := t][1..] == row[1..];
    } else {
      assert row[c := t][1..] == row[1..][c - 1 := t];
      CountRowUpdate(row[1..], c - 1, t, s);
    }
  }

  /** Overwriting one cell of a board changes the count of s by the cells' difference. */
  lemma {:induction false} CountStonesUpdate(b: Board, r: nat, c: nat, t: Stone, s: Stone)
    requires r < |b| && c < |b[r]|
    ensures CountStones(b[r := b[r][c := t]], s) + Indicator(b[r][c] == s)
         == CountStones(b, s) + Indicator(t == s)
  {
    if r == 0 {
      assert b[r := b[r][c := t]][1..] == b[1..];
      CountRowUpdate(b[0], c, t, s);
    } else {
      assert b[r := b[r][c := t]][1..] == b[1..][r - 1 := b[1..][r - 1][c := t]];
      CountStonesUpdate(b[1..], r - 1, c, t, s);
    }
  }

  /** A row none of whose cells holds s counts no s. */
  lemma {:induction false} CountRowAbsent(row: seq<Stone>, s: Stone)
    requires forall i :: 0 <= i < |row| ==> row[i] != s
    ensures CountRow(row, s) == 0
  {
    if row != [] {
      CountRowAbsent(row[1..], s);
    }
  }

  /** A board none of whose cells holds s counts no s. */
  lemma {:induction false} CountStonesAbsent(b: Board, s: Stone)
    requires forall r, c :: 0 <= r < |b| && 0 <= c < |b[r]| ==> b[r][c] != s
    ensures CountStones(b, s) == 0
  {
    if b != [] {
      CountRowAbsent(b[0], s);
      CountStonesAbsent(b[1..], s);
    }
  }

  /** The empty board holds no black and no white stone. */
  lemma EmptyBoardCounts()
    ensures CountStones(EmptyBoard(), Black) == 0
    ensures CountStones(EmptyBoard(), White) == 0
  {
    var b := EmptyBoard();
    assert forall r, c :: 0 <= r < |b| && 0 <= c < |b[r]| ==> InBounds(r, c);
    CountStonesAbsent(b, Black);
    CountStonesAbsent(b, White);
  }
}
