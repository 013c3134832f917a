/**
 * The game board of tic_tac_toe.py (class Board): a 3x3 grid of cells,
 * whose turn it is, and the session's three counters.  The source mutates
 * one Board object in place; here every operation maps a board value to a
 * new board value.
 */
module Boards {
  import opened Maybe

  /** A cell of the grid; `Empty` is the source's blank `' '`. */
  datatype Cell = Empty | X | O

  /** A symbol a side places on the grid: any cell value except the blank. */
  type Mark = c: Cell | c != Empty witness X

  /** The other side's symbol, derived the way the computer derives its opponent's. */
  function Opponent(s: Mark): (t: Mark)
    ensures t != s
  {
    if s == O then X else O
  }

  /** The value of `current_turn`, `'player'` or `'computer'`. */
  datatype Turn = PlayerTurn | ComputerTurn

  /** A (row, column) pair; it may lie off the board, as the sentinel (-1, -1) does. */
  datatype Pos = Pos(row: int, col: int)

  predicate InBoard(p: Pos) {
    0 <= p.row < 3 && 0 <= p.col < 3
  }

  /** Row-major index of an on-board coordinate. */
  function Idx(p: Pos): (k: nat)
    requires InBoard(p)
    ensures k < 9
  {
    3 * p.row + p.col
  }

  /** The coordinate at a row-major index: the inverse of `Idx`. */
  function PosOf(k: nat): (p: Pos)
    requires k < 9
    ensures InBoard(p) && Idx(p) == k
  {
    if k < 3 then Pos(0, k) else if k < 6 then Pos(1, k - 3) else Pos(2, k - 6)
  }

  /** The 3x3 grid stored row by row: cell (r, c) sits at index 3 * r + c. */
  type Grid = g: seq<Cell> | |g| == 9 witness seq(9, _ => Empty)

  function At(g: Grid, p: Pos): Cell
    requires InBoard(p)
  {
    g[Idx(p)]
  }

  datatype Board = Board(grid: Grid, turn: Turn, playerScore: nat, computerScore: nat, tieCount: nat)

  /** `a` and `b` agree on everything except the grid. */
  predicate SameSession(a: Board, b: Board) {
    && a.turn == b.turn
    && a.playerScore == b.playerScore
    && a.computerScore == b.computerScore
    && a.tieCount == b.tieCount
  }

  /** Every cell of `g` is blank. */
  ghost predicate AllEmpty(g: Grid) {
    forall k :: 0 <= k < 9 ==> g[k] == Empty
  }

  /** The cells of `a` and `b` agree everywhere except possibly at `q`. */
  ghost predicate SameCellsExcept(a: Grid, b: Grid, q: Pos)
    requires InBoard(q)
  {
    forall k :: 0 <= k < 9 && k != Idx(q) ==> a[k] == b[k]
  }

  // ---------------------------------------------------------------------
  // Lines and wins
  // ---------------------------------------------------------------------

  /** A line of three cells, given by their row-major indices and listed in
      the order the source reports them. */
  datatype Line = Line(a: nat, b: nat, c: nat)

  /** All three cells of `l` lie on the board and hold `s`. */
  predicate LineFilled(g: Grid, l: Line, s: Cell) {
    l.a < 9 && l.b < 9 && l.c < 9 && g[l.a] == s && g[l.b] == s && g[l.c] == s
  }

  /** Number of lines on the board. */
  const LineCount: nat := 8

  /** The k-th line in the order both scans of the source visit them: rows
      top to bottom, columns left to right, the main diagonal, then the
      anti-diagonal. */
  function LineAt(k: nat): (l: Line)
    requires k < LineCount
    ensures l.a < 9 && l.b < 9 && l.c < 9
  {
    if k == 0 then Line(0, 1, 2)
    else if k == 1 then Line(3, 4, 5)
    else if k == 2 then Line(6, 7, 8)
    else if k == 3 then Line(0, 3, 6)
    else if k == 4 then Line(1, 4, 7)
    else if k == 5 then Line(2, 5, 8)
    else if k == 6 then Line(0, 4, 8)
    else Line(2, 4, 6)
  }

  /** `s` fills some line of the scan order. */
  ghost predicate Wins(g: Grid, s: Cell) {
    exists k :: 0 <= k < LineCount && LineFilled(g, LineAt(k), s)
  }

  /** Row r holds `s` in all three cells. */
  ghost predicate RowFilled(g: Grid, r: nat, s: Cell)
    requires r < 3
  {
    g[3 * r] == s && g[3 * r + 1] == s && g[3 * r + 2] == s
  }

  /** One of the three rows holds `s` in all three cells. */
  ghost predicate SomeRowFilled(g: Grid, s: Cell) {
    RowFilled(g, 0, s) || RowFilled(g, 1, s) || RowFilled(g, 2, s)
  }

  /** One of the three columns holds `s` in all three cells. */
  ghost predicate SomeColumnFilled(g: Grid, s: Cell) {
    || (g[0] == s && g[3] == s && g[6] == s)
    || (g[1] == s && g[4] == s && g[7] == s)
    || (g[2] == s && g[5] == s && g[8] == s)
  }

  /** One of the two diagonals holds `s` in all three cells. */
  ghost predicate SomeDiagonalFilled(g: Grid, s: Cell) {
    || (g[0] == s && g[4] == s && g[8] == s)
    || (g[2] == s && g[4] == s && g[6] == s)
  }

  /** What a win means, spelled out on the row-major cells: a row, a column
      or a diagonal holds `s` in all three of its cells. */
  ghost predicate ThreeInARow(g: Grid, s: Cell) {
    SomeRowFilled(g, s) || SomeColumnFilled(g, s) || SomeDiagonalFilled(g, s)
  }

  /** Line k is the first line of the scan order that `s` fills. */
  ghost predicate FirstFilled(g: Grid, k: int, s: Cell) {
    && 0 <= k < LineCount
    && LineFilled(g, LineAt(k), s)
    && forall j :: 0 <= j < k ==> !LineFilled(g, LineAt(j), s)
  }

  /** Three in a row fills the line at some position of the scan order. */
  lemma ThreeInARowFillsALine(g: Grid, s: Cell)
    requires ThreeInARow(g, s)
    ensures Wins(g, s)
  {
    if g[0] == s && g[1] == s && g[2] == s { assert LineFilled(g, LineAt(0), s); }
    else if g[3] == s && g[4] == s && g[5] == s { assert LineFilled(g, LineAt(1), s); }
    else if g[6] == s && g[7] == s && g[8] == s { assert LineFilled(g, LineAt(2), s); }
    else if g[0] == s && g[3] == s && g[6] == s { assert LineFilled(g, LineAt(3), s); }
    else if g[1] == s && g[4] == s && g[7] == s { assert LineFilled(g, LineAt(4), s); }
    else if g[2] == s && g[5] == s && g[8] == s { assert LineFilled(g, LineAt(5), s); }
    else if g[0] == s && g[4] == s && g[8] == s { assert LineFilled(g, LineAt(6), s); }
    else { assert LineFilled(g, LineAt(7), s); }
  }

  /** Filling the line at any position of the scan order is three in a row. */
  lemma FilledLineIsThreeInARow(g: Grid, s: Cell, k: nat)
    requires k < LineCount && LineFilled(g, LineAt(k), s)
    ensures ThreeInARow(g, s)
  {
  }

  /** The scan order visits exactly the winning lines: `s` fills a line of
      the order iff it holds a whole row, column or diagonal. */
  lemma WinsIffThreeInARow(g: Grid, s: Cell)
    ensures Wins(g, s) <==> ThreeInARow(g, s)
  {
    if ThreeInARow(g, s) {
      ThreeInARowFillsALine(g, s);
    }
    if Wins(g, s) {
      var k :| 0 <= k < LineCount && LineFilled(g, LineAt(k), s);
      FilledLineIsThreeInARow(g, s, k);
    }
  }

  /** The scan shared by `is_winner` and `get_winning_positions`: the first
      line at or after position k of the order that `s` fills. */
  function FirstFilledLine(g: Grid, s: Cell, k: nat): (r: Option<nat>)
    requires k <= LineCount
    ensures r.Some? ==> k <= r.value < LineCount && LineFilled(g, LineAt(r.value), s)
    ensures r.Some? ==> forall j :: k <= j < r.value ==> !LineFilled(g, LineAt(j), s)
    ensures r.None? ==> forall j :: k <= j < LineCount ==> !LineFilled(g, LineAt(j), s)
    decreases LineCount - k
  {
    if k == LineCount then None
    else if LineFilled(g, LineAt(k), s) then Some(k)
    else FirstFilledLine(g, s, k + 1)
  }

  /** Board.is_winner: does `s` hold three in a line? */
  function IsWinner(b: Board, s: Mark): (w: bool)
    ensures w <==> Wins(b.grid, s)
  {
    FirstFilledLine(b.grid, s, 0).Some?
  }

  /** The cells of a line as the list of coordinates the source returns. */
  function Cells(l: Line): (ps: seq<Pos>)
    requires l.a < 9 && l.b < 9 && l.c < 9
    ensures |ps| == 3 && forall i :: 0 <= i < 3 ==> InBoard(ps[i])
    ensures Idx(ps[0]) == l.a && Idx(ps[1]) == l.b && Idx(ps[2]) == l.c
  {
    [PosOf(l.a), PosOf(l.b), PosOf(l.c)]
  }

  /** Every listed cell of a filled line holds the mark. */
  lemma FilledLineCells(g: Grid, l: Line, s: Cell)
    requires LineFilled(g, l, s)
    ensures forall i :: 0 <= i < |Cells(l)| ==> At(g, Cells(l)[i]) == s
  {
    var ps := Cells(l);
    assert At(g, ps[0]) == s && At(g, ps[1]) == s && At(g, ps[2]) == s;
  }

  /** Board.get_winning_positions: the cells of the first line `s` fills, or
      the empty list when it fills none. */
  function WinningPositions(b: Board, s: Mark): (ps: seq<Pos>)
    ensures ps != [] <==> IsWinner(b, s)
    ensures ps != [] ==> exists k :: FirstFilled(b.grid, k, s) && ps == Cells(LineAt(k))
    ensures forall i :: 0 <= i < |ps| ==> InBoard(ps[i]) && At(b.grid, ps[i]) == s
  {
    match FirstFilledLine(b.grid, s, 0)
    case Some(k) =>
      assert FirstFilled(b.grid, k, s);
      FilledLineCells(b.grid, LineAt(k), s);
      Cells(LineAt(k))
    case None => []
  }

  /** When some row is filled, the highlighted line is the topmost filled row,
      whatever columns or diagonals are filled too. */
  lemma WinningPositionsPrefersRows(b: Board, s: Mark, r: nat)
    requires r < 3 && RowFilled(b.grid, r, s)
    requires forall r' :: 0 <= r' < r ==> !RowFilled(b.grid, r', s)
    ensures WinningPositions(b, s) == [Pos(r, 0), Pos(r, 1), Pos(r, 2)]
  {
    RowLineAt(r);
    assert LineFilled(b.grid, LineAt(r), s);
    var k := FirstFilledLine(b.grid, s, 0).value;
    if k < r {
      RowLineAt(k);
      assert RowFilled(b.grid, k, s);
      assert false;
    }
  }

  /** Line r of the scan order, for r below 3, is row r, listed left to right. */
  lemma RowLineAt(r: nat)
    requires r < 3
    ensures LineAt(r) == Line(3 * r, 3 * r + 1, 3 * r + 2)
    ensures Cells(LineAt(r)) == [Pos(r, 0), Pos(r, 1), Pos(r, 2)]
  {
    if r == 0 {
    } else if r == 1 {
    } else {
    }
  }

  // ---------------------------------------------------------------------
  // The remaining operations of Board
  // ---------------------------------------------------------------------

  /** Board.__init__: a blank grid, the player to move, all counters zero. */
  function NewBoard(): (b: Board)
    ensures AllEmpty(b.grid) && !Wins(b.grid, X) && !Wins(b.grid, O)
    ensures b.turn == PlayerTurn && b.playerScore == 0 && b.computerScore == 0 && b.tieCount == 0
  {
    Board(seq(9, _ => Empty), PlayerTurn, 0, 0, 0)
  }

  /** Row r of the grid holds a blank cell. */
  predicate RowHasBlank(g: Grid, r: nat)
    requires r < 3
  {
    Empty in g[3 * r .. 3 * r + 3]
  }

  /** Board.is_full: no row holds a blank cell. */
  function IsFull(b: Board): (f: bool)
    ensures f <==> forall k :: 0 <= k < 9 ==> b.grid[k] != Empty
  {
    var g := b.grid;
    assert forall k :: 0 <= k < 9 ==> g[k] == g[3 * (k / 3) .. 3 * (k / 3) + 3][k % 3];
    !RowHasBlank(g, 0) && !RowHasBlank(g, 1) && !RowHasBlank(g, 2)
  }

  /** Board.make_move: writes `s` at (r, c) when that cell is blank and
      reports whether it did; an occupied cell leaves the board as it was.
      The source indexes without a range check, hence the precondition. */
  function MakeMove(b: Board, r: int, c: int, s: Mark): (res: (bool, Board))
    requires 0 <= r < 3 && 0 <= c < 3
    ensures res.0 <==> At(b.grid, Pos(r, c)) == Empty
    ensures res.0 ==> At(res.1.grid, Pos(r, c)) == s
    ensures SameCellsExcept(b.grid, res.1.grid, Pos(r, c))
    ensures !res.0 ==> res.1 == b
    ensures SameSession(b, res.1)
  {
    var k := Idx(Pos(r, c));
    if b.grid[k] == Empty then (true, b.(grid := b.grid[k := s])) else (false, b)
  }

  /** The direct write `board[i][j] = ' '` with which the computer undoes a trial placement. */
  function ClearCell(b: Board, r: int, c: int): (b': Board)
    requires 0 <= r < 3 && 0 <= c < 3
    ensures At(b'.grid, Pos(r, c)) == Empty
    ensures SameCellsExcept(b.grid, b'.grid, Pos(r, c))
    ensures SameSession(b, b')
  {
    b.(grid := b.grid[Idx(Pos(r, c)) := Empty])
  }

  /** Board.is_valid_move: (r, c) is on the board and blank. */
  function IsValidMove(b: Board, r: int, c: int): bool {
    0 <= r < 3 && 0 <= c < 3 && b.grid[3 * r + c] == Empty
  }

  /** Board.switch_turn: hands the turn to the other side. */
  function SwitchTurn(b: Board): (b': Board)
    ensures b'.turn != b.turn
    ensures b'.grid == b.grid && b'.playerScore == b.playerScore
    ensures b'.computerScore == b.computerScore && b'.tieCount == b.tieCount
  {
    b.(turn := if b.turn == PlayerTurn then ComputerTurn else PlayerTurn)
  }

  /** Board.reset_board: blanks all nine cells; turn and counters are kept. */
  function ResetBoard(b: Board): (b': Board)
    ensures AllEmpty(b'.grid)
    ensures SameSession(b, b')
  {
    b.(grid := seq(9, _ => Empty))
  }

  // ---------------------------------------------------------------------
  // Properties relating the operations
  // ---------------------------------------------------------------------

  /** A move is valid exactly when it is on the board and make_move would accept it. */
  lemma ValidMoveIffMakeMoveSucceeds(b: Board, r: int, c: int, s: Mark)
    ensures IsValidMove(b, r, c) <==> 0 <= r < 3 && 0 <= c < 3 && MakeMove(b, r, c, s).0
  {
  }

  /** The board is full exactly when no coordinate is a valid move. */
  lemma FullIffNoValidMove(b: Board)
    ensures IsFull(b) <==> forall r, c :: !IsValidMove(b, r, c)
  {
    if !IsFull(b) {
      var k :| 0 <= k < 9 && b.grid[k] == Empty;
      assert IsValidMove(b, PosOf(k).row, PosOf(k).col);
    }
  }

  /** The coordinate of a row-major index is a valid move exactly when that cell is blank. */
  lemma ValidAtIndex(b: Board, k: nat)
    requires k < 9
    ensures IsValidMove(b, PosOf(k).row, PosOf(k).col) <==> b.grid[k] == Empty
  {
  }

  /** A trial placement on a blank cell followed by the undo write restores
      the board exactly. */
  lemma UndoRestoresBoard(b: Board, r: int, c: int, s: Mark)
    requires IsValidMove(b, r, c)
    ensures MakeMove(b, r, c, s).0
    ensures ClearCell(MakeMove(b, r, c, s).1, r, c) == b
  {
    var undone := ClearCell(MakeMove(b, r, c, s).1, r, c);
    assert undone.grid == b.grid;
  }

  /** Switching the turn twice gives back the original board. */
  lemma SwitchTurnTwiceIsIdentity(b: Board)
    ensures SwitchTurn(SwitchTurn(b)) == b
  {
  }

  /** A grid with every cell blank has no winner and is not full. */
  lemma BlankGridIsOpen(b: Board, s: Mark)
    requires AllEmpty(b.grid)
    ensures !IsWinner(b, s) && !IsFull(b)
  {
    assert b.grid[0] == Empty;
  }

  /** A reset board accepts a move on every cell, has no winner and is not full. */
  lemma ResetBoardReopensGame(b: Board, s: Mark)
    ensures forall r, c :: 0 <= r < 3 && 0 <= c < 3 ==> IsValidMove(ResetBoard(b), r, c)
    ensures !IsFull(ResetBoard(b)) && !IsWinner(ResetBoard(b), s)
  {
    var b' := ResetBoard(b);
    BlankGridIsOpen(b', s);
    forall r, c | 0 <= r < 3 && 0 <= c < 3
      ensures IsValidMove(b', r, c)
    {
      assert At(b'.grid, Pos(r, c)) == Empty;
    }
  }

  /** The grid holding `s` on the cells of `l` and blank everywhere else. */
  function LineOnly(l: Line, s: Mark): (g: Grid)
    requires l.a < 9 && l.b < 9 && l.c < 9
  {
    seq(9, i => if i == l.a || i == l.b || i == l.c then s else Empty)
  }

  /** Filling exactly one line with `s`, every other cell blank, makes `s` a
      winner and its opponent not. */
  lemma LineAloneWins(k: nat, s: Mark, b: Board)
    requires k < LineCount && b.grid == LineOnly(LineAt(k), s)
    ensures IsWinner(b, s) && !IsWinner(b, Opponent(s))
  {
    assert LineFilled(b.grid, LineAt(k), s);
    forall j | 0 <= j < LineCount
      ensures !LineFilled(b.grid, LineAt(j), Opponent(s))
    {
      assert b.grid[LineAt(j).a] in {s, Empty};
    }
  }
}
