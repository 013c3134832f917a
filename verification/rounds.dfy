/**
 * The bookkeeping at the end of a move in tic_tac_toe.py
 * (TicTacToeGUI.check_winner_or_tie and reset_game): deciding whether the
 * round is over, crediting the winner or the tie, and opening the next
 * round.  The dialog, the button updates and the score display are left
 * to the GUI; what remains is a step from one board value to the next.
 */
module Rounds {
  import opened Boards

  /** The symbols the GUI hands out: the player plays X, the computer O. */
  const PlayerMark: Mark := X
  const ComputerMark: Mark := O

  /** Rounds decided so far: the wins of either side and the ties. */
  function Tally(b: Board): nat {
    b.playerScore + b.computerScore + b.tieCount
  }

  /** TicTacToeGUI.reset_game: blank the grid, then hand the next round to
      the side that did not make the last move (switch_starting_player
      toggles the turn just as switch_turn does).  The counters are kept. */
  function ResetGame(b: Board): (b': Board)
    ensures AllEmpty(b'.grid)
    ensures b'.turn != b.turn
    ensures b'.playerScore == b.playerScore && b'.computerScore == b.computerScore
    ensures b'.tieCount == b.tieCount
  {
    SwitchTurn(ResetBoard(b))
  }

  /** TicTacToeGUI.check_winner_or_tie after `s` has moved: a win by `s`
      credits the player when `s` is the player's symbol and the computer
      otherwise; failing that, a full board is a tie.  Either way the round
      is over and the game is reset.  Returns whether the round is over and
      the board after the step. */
  function CheckWinnerOrTie(b: Board, s: Mark): (res: (bool, Board))
    ensures res.0 <==> Wins(b.grid, s) || forall k :: 0 <= k < 9 ==> b.grid[k] != Empty
    ensures !res.0 ==> res.1 == b
    ensures res.0 ==> AllEmpty(res.1.grid) && res.1.turn != b.turn
    ensures Wins(b.grid, s) && s == PlayerMark ==>
              res.1.playerScore == b.playerScore + 1 && res.1.computerScore == b.computerScore
                && res.1.tieCount == b.tieCount
    ensures Wins(b.grid, s) && s != PlayerMark ==>
              res.1.playerScore == b.playerScore && res.1.computerScore == b.computerScore + 1
                && res.1.tieCount == b.tieCount
    ensures !Wins(b.grid, s) && (forall k :: 0 <= k < 9 ==> b.grid[k] != Empty) ==>
              res.1.playerScore == b.playerScore && res.1.computerScore == b.computerScore
                && res.1.tieCount == b.tieCount + 1
  {
    if IsWinner(b, s) then
      var credited :=
        if s == PlayerMark then b.(playerScore := b.playerScore + 1)
        else b.(computerScore := b.computerScore + 1);
      (true, ResetGame(credited))
    else if IsFull(b) then
      (true, ResetGame(b.(tieCount := b.tieCount + 1)))
    else
      (false, b)
  }

  /** Every finished round adds exactly one to the tally, and an unfinished
      one adds nothing. */
  lemma TallyCountsFinishedRounds(b: Board, s: Mark)
    ensures var res := CheckWinnerOrTie(b, s);
            Tally(res.1) == Tally(b) + (if res.0 then 1 else 0)
  {
  }

  /** A finished round opens a fresh one: checking the reset board again,
      for either symbol, finds the round still going and changes nothing. */
  lemma FinishedRoundReopens(b: Board, s: Mark, t: Mark)
    requires CheckWinnerOrTie(b, s).0
    ensures var b' := CheckWinnerOrTie(b, s).1;
            !CheckWinnerOrTie(b', t).0 && CheckWinnerOrTie(b', t).1 == b'
  {
    var b' := CheckWinnerOrTie(b, s).1;
    BlankGridIsOpen(b', t);
  }

  /** A move that fills the last cell without a line is a tie, whoever made it. */
  lemma FullBoardWithoutLineIsTie(b: Board, s: Mark)
    requires IsFull(b) && !IsWinner(b, s)
    ensures CheckWinnerOrTie(b, s).0
    ensures CheckWinnerOrTie(b, s).1.tieCount == b.tieCount + 1
    ensures CheckWinnerOrTie(b, s).1.playerScore == b.playerScore
    ensures CheckWinnerOrTie(b, s).1.computerScore == b.computerScore
  {
  }

  /** The computer completing its top row mid-game wins the round for the
      computer; the next round is handed to the player on a blank grid. */
  lemma ComputerTopRowWins(b: Board)
    requires b.turn == ComputerTurn
    requires b.grid == [O, O, O, X, X, Empty, X, Empty, Empty]
    ensures var res := CheckWinnerOrTie(b, ComputerMark);
            && res.0 && res.1.computerScore == b.computerScore + 1
            && res.1.playerScore == b.playerScore && res.1.turn == PlayerTurn
            && AllEmpty(res.1.grid)
  {
    assert LineFilled(b.grid, LineAt(0), ComputerMark);
  }
}
