# Tic-tac-toe game logic, modelled in Dafny

This project models the game logic of `tic_tac_toe.py`, a Tk tic-tac-toe
game in which a human plays X against a computer playing O.  The model has
four files:

- `maybe.dfy` (module `Maybe`): the `Option` type used by the scans.
- `boards.dfy` (module `Boards`): class `Board`.  It covers the 3x3 grid,
  whose turn it is, and the session's player, computer and tie counters.
  Its operations are win detection over the eight lines, the winning-line
  scan, the fullness and validity tests, the single-cell write, turn
  toggling and grid reset.
- `computer.dfy` (module `Computer`): `Computer.find_best_move`, the greedy
  priority list the computer follows, and `Computer.make_move`.
- `rounds.dfy` (module `Rounds`): the end-of-move bookkeeping of
  `TicTacToeGUI.check_winner_or_tie` and `reset_game`.

The source mutates one board object in place.  The model works on values
instead:

- The grid is a sequence of nine cells in row-major order; cell (r, c) is at
  index 3r + c.
- Every Board operation maps a board to a new board.
- The computer's trial placements (write a mark, ask `is_winner`, write the
  blank back) are a method.  It hands back the board after the undo, and the
  scans pass that board on from one trial to the next.  The contracts prove
  that this board is always the input, so `find_best_move` leaves the board
  as it found it.
- Each win scan is tied to a reference definition of a win. The reference,
  `Boards.ThreeInARow`, spells out the three rows, three columns and two
  diagonals on the nine cells.
- Each rule of the priority list is tied to a predicate that says, without
  reference to the scans, when the rule applies and what it picks.
- `random.shuffle` is not modelled.  The shuffled corner order is a parameter
  that must be an arrangement of the four corners.

Two points where the code's behaviour is easy to misread:

- **Who starts the next round.** The docstring of `switch_starting_player`
  (tic_tac_toe.py:457) says it switches the starting player.  The code
  (lines 459-463) toggles `current_turn` from whoever made the round's last
  move.  So the next round goes to the side that did not make the last
  move, and the starting side does not strictly alternate.
- **Full board.** When no rule finds a move, `find_best_move` returns the
  coordinate (-1, -1) (lines 147-149).  The model returns the same sentinel.

## Model

| member | source | states |
|---|---|---|
| Boards.Opponent | tic_tac_toe.py:95 | the opponent symbol is the other of X and O |
| Boards.NewBoard | tic_tac_toe.py:163-172 | a new board has nine blank cells, no winner, the player to move and all three counters at zero |
| Boards.ThreeInARowFillsALine | tic_tac_toe.py:194-212 | a filled row, column or diagonal is found by the source's scan over its eight lines |
| Boards.FilledLineIsThreeInARow | tic_tac_toe.py:194-212 | every line the scan checks is a row, a column or a diagonal |
| Boards.WinsIffThreeInARow | tic_tac_toe.py:184-214 | `s` fills a line of the scan order exactly when it holds a whole row, column or diagonal |
| Boards.FirstFilledLine | tic_tac_toe.py:194-212 | the scan returns the first line at or after its start that `s` fills, and none when no later line is filled |
| Boards.IsWinner | tic_tac_toe.py:184-214 | is_winner is true exactly when `s` fills one of the eight lines |
| Boards.FilledLineCells | tic_tac_toe.py:227-246 | every coordinate listed for a filled line holds the mark |
| Boards.WinningPositions | tic_tac_toe.py:216-248 | the list is non-empty exactly when `s` has won. When non-empty it is the first filled line in the order rows, columns, main diagonal, anti-diagonal. Each listed cell is on the board and holds `s` |
| Boards.WinningPositionsPrefersRows | tic_tac_toe.py:227-231 | when a row is filled, the topmost filled row is reported, whatever columns or diagonals are also filled |
| Boards.LineAloneWins | tic_tac_toe.py:184-214 | a grid holding `s` on exactly one line and blanks elsewhere is a win for `s` and not for its opponent |
| Boards.IsFull | tic_tac_toe.py:250-261 | is_full is true exactly when no cell is blank |
| Boards.MakeMove | tic_tac_toe.py:263-280 | on a blank cell, make_move reports success and writes `s` there. On an occupied cell it reports failure and leaves the board unchanged. No other cell, turn or counter changes |
| Boards.ClearCell | tic_tac_toe.py:110 | the undo write blanks the one cell and changes nothing else |
| Boards.IsValidMove | tic_tac_toe.py:282-297 | is_valid_move: the coordinate is on the board and its cell is blank; its contract is stated through `Boards.ValidMoveIffMakeMoveSucceeds` and `Boards.ValidAtIndex` |
| Boards.ValidMoveIffMakeMoveSucceeds | tic_tac_toe.py:282-297 | a move is valid exactly when it is on the board and make_move would accept it |
| Boards.FullIffNoValidMove | tic_tac_toe.py:250-297 | the board is full exactly when no coordinate is a valid move |
| Boards.ValidAtIndex | tic_tac_toe.py:282-297 | the coordinate of a cell index is a valid move exactly when that cell is blank |
| Boards.UndoRestoresBoard | tic_tac_toe.py:108-113 | a trial placement on a blank cell is accepted, and writing the blank back restores the board exactly |
| Boards.SwitchTurn | tic_tac_toe.py:299-307 | switch_turn hands the turn to the other side and keeps grid and counters |
| Boards.SwitchTurnTwiceIsIdentity | tic_tac_toe.py:299-307 | toggling the turn twice gives back the original board |
| Boards.ResetBoard | tic_tac_toe.py:309-314 | reset_board blanks all nine cells and keeps the turn and the three counters |
| Boards.BlankGridIsOpen | tic_tac_toe.py:184-261 | a blank grid has no winner and is not full |
| Boards.ResetBoardReopensGame | tic_tac_toe.py:309-314 | after reset_board every cell is a valid move, nobody has won and the board is not full |
| Computer.MarkCells | tic_tac_toe.py:99 | the comprehension lists, in row-major order and as row-major indices, exactly the cells holding the mark |
| Computer.SingleListedIsLone | tic_tac_toe.py:100-101 | a one-entry list that is not the centre means the opponent has a single mark, off the centre |
| Computer.LoneIsSingleListed | tic_tac_toe.py:100-101 | a single off-centre opponent mark gives a one-entry list that is not the centre |
| Computer.LoneMarkListed | tic_tac_toe.py:100-101 | the list test of the opening rule holds exactly when the opponent has one mark, off the centre |
| Computer.OpeningReplyGuard | tic_tac_toe.py:98-102 | the opening guard holds exactly when the computer is to move, the centre is blank and the opponent has a single off-centre mark |
| Computer.TrialPlace | tic_tac_toe.py:106-113 | a trial on a blank cell reports whether placing the mark there makes three in a row, and hands back the unchanged board |
| Computer.FirstWinningCell | tic_tac_toe.py:104-124 | the double loop returns the first cell, in row-major order, that completes a line for the mark, or nothing when no cell does. The board it leaves is the input |
| Computer.FirstFreeCorner | tic_tac_toe.py:130-133 | the corner loop returns the first corner of the given order that is a valid move, or nothing when none is |
| Computer.FirstFreeCell | tic_tac_toe.py:140-145 | the last-resort loop returns the first blank cell in row-major order, or nothing when every cell is taken |
| Computer.IsCornerShuffle | tic_tac_toe.py:127-128 | the corner order random.shuffle can produce: four corners, each of the four showing up |
| Computer.PermutationIsShuffle | tic_tac_toe.py:127-128 | every reordering of the corner list meets the shuffle precondition |
| Computer.NoFreeCornerMeansAllTaken | tic_tac_toe.py:130-133 | if no corner of the shuffled order is valid, all four corners are occupied |
| Computer.CornerScanFindsBlankCorner | tic_tac_toe.py:130-133 | the corner loop finds a corner exactly when some corner is blank |
| Computer.AfterThreats | tic_tac_toe.py:126-149 | the rules after the threat scans end in a valid move or in the sentinel (-1, -1) |
| Computer.AfterThreatsTakesCorner | tic_tac_toe.py:126-133 | with a blank corner, the move is the first valid corner of the shuffled order |
| Computer.AfterThreatsTakesCentre | tic_tac_toe.py:135-138 | with every corner taken and the centre blank, the move is the centre |
| Computer.AfterThreatsTakesFirstBlank | tic_tac_toe.py:140-145 | with corners and centre taken on a non-full board, the move is the first blank cell in row-major order |
| Computer.AfterThreatsSentinel | tic_tac_toe.py:147-149 | on a full board the rules end in (-1, -1) |
| Computer.BlankBoardOpensOnFirstCorner | tic_tac_toe.py:98-133 | on a blank grid no rule before the corner rule applies, and the move is the first corner of the shuffled order |
| Computer.FirstCompletingUnique | tic_tac_toe.py:105-124 | at most one cell is the first, in row-major order, to complete a line for a mark |
| Computer.FirstBlankUnique | tic_tac_toe.py:141-145 | at most one cell is the first blank cell |
| Computer.FirstValidCornerUnique | tic_tac_toe.py:130-133 | at most one position of the corner order holds its first valid corner |
| Computer.ChosenMoveIsUnique | tic_tac_toe.py:84-149 | the priority list fixes the move: at most one move meets every rule |
| Computer.FindBestMove | tic_tac_toe.py:84-149 | the move is the one the priority list fixes: opening reply, own win, block, shuffled corner, centre, first blank, sentinel. On a non-full board it is a valid move, and the board is left as it was |
| Computer.ComputerMove | tic_tac_toe.py:63-82 | the cell played is the one find_best_move's priority list fixes. On a non-full board that first choice is valid, so the retry loop never runs. The computer's mark is written on that blank cell and nothing else changes |
| Rounds.ResetGame | tic_tac_toe.py:428-434 | reset_game blanks the grid, toggles the turn and keeps the counters |
| Rounds.CheckWinnerOrTie | tic_tac_toe.py:392-424 | the round is over exactly when `s` has won or the board is full. A win adds one to the player's score if `s` is the player's symbol, otherwise to the computer's. A full board with no win adds one to the tie count only. A finished round resets the game; otherwise nothing changes |
| Rounds.TallyCountsFinishedRounds | tic_tac_toe.py:403-424 | the sum of the three counters goes up by one for a finished round and stays the same otherwise |
| Rounds.FinishedRoundReopens | tic_tac_toe.py:403-434 | after a finished round, checking again for either symbol finds the round still going and changes nothing |
| Rounds.FullBoardWithoutLineIsTie | tic_tac_toe.py:415-422 | a full board with no line for the mover counts as a tie, and neither score changes |
| Rounds.ComputerTopRowWins | tic_tac_toe.py:403-414 | the computer completing the top row scores a computer win, and the next round goes to the player on a blank grid |

## Left out

- The Tk GUI, for example:
  - creating the buttons;
  - updating buttons and colours;
  - the score display in the title;
  - the "Game Over" message boxes.

  These only display state.
- All logging calls, and `Board.display`. They only produce output.
- The `Player` class. It is a thin wrapper over `Board.make_move` plus an error dialog.
- The GUI's event sequencing in `player_move` and `computer_move`. It is callback control flow.
- `Rounds.ResetGame`, `Rounds.CheckWinnerOrTie`: stop at a blank grid with the turn toggled. When the turn passes to the computer, `switch_starting_player` (tic_tac_toe.py:461) then calls `computer_move`. That GUI callback places one O and hands the turn back to the player, so the source ends such a reset with one O on the grid. `Computer.BlankBoardOpensOnFirstCorner` and `Computer.ComputerMove` state what that opening move is.
- The distribution of `random.shuffle`.
  - The corner order is a parameter, required to be an arrangement of the four corners.
  - `Computer.PermutationIsShuffle` proves that every permutation meets this requirement.
  - The converse is not proved; the requirement's own doc comment argues it.
- `Boards.MakeMove`: requires an on-board coordinate, because the source indexes without a range check. In Python an index of 3 or more, or of -4 or less, raises IndexError, and -1 to -3 wrap around to the end of the row or grid. Neither happens on any call path of the game.
- `Boards.IsWinner`: takes only a real mark. `is_winner(' ')` would report a win for a blank row, but the game only ever asks about X or O.
- `Computer.ComputerMove`: requires a board that is not full. On a full board the source's retry loop would never end.
- The symbols are fixed as the GUI fixes them: X for the player and O for the computer.

