/**
 * The computer's move selection of tic_tac_toe.py (class Computer): a
 * greedy choice by a fixed priority list.  The source tries a move by
 * writing it into the board, asking whether it wins and writing the blank
 * back; here the trial is a method that hands back the board after the
 * undo, and the scans thread that board through their loops.
 */
module Computer {
  import opened Maybe
  import opened Boards

  /** The corner list before it is shuffled. */
  const Corners: seq<Pos> := [Pos(0, 0), Pos(0, 2), Pos(2, 0), Pos(2, 2)]

  /** One of the four corner coordinates. */
  predicate IsCorner(p: Pos) {
    (p.row == 0 || p.row == 2) && (p.col == 0 || p.col == 2)
  }

  /** `order` is an arrangement of the four corners, which is all that
      random.shuffle can produce; the model takes the arrangement as input.
      It lists four corners and each corner shows up, so each shows up once. */
  predicate IsCornerShuffle(order: seq<Pos>) {
    && |order| == 4
    && (forall i :: 0 <= i < |order| ==> IsCorner(order[i]))
    && Pos(0, 0) in order && Pos(0, 2) in order && Pos(2, 0) in order && Pos(2, 2) in order
  }

  // ---------------------------------------------------------------------
  // What the rules look for
  // ---------------------------------------------------------------------

  /** Placing `s` on the blank cell k gives `s` three in a row. */
  ghost predicate Completes(g: Grid, k: int, s: Mark) {
    0 <= k < 9 && g[k] == Empty && ThreeInARow(g[k := s], s)
  }

  /** Some blank cell completes a line for `s`. */
  ghost predicate CanComplete(g: Grid, s: Mark) {
    exists k :: Completes(g, k, s)
  }

  /** Cell k is the first cell in row-major order that completes a line for `s`. */
  ghost predicate FirstCompleting(g: Grid, k: int, s: Mark) {
    Completes(g, k, s) && forall j :: 0 <= j < k ==> !Completes(g, j, s)
  }

  /** `s` occupies exactly one cell, and that cell is not the centre. */
  ghost predicate LoneOffCentreMark(g: Grid, s: Mark) {
    exists k :: 0 <= k < 9 && k != 4 && g[k] == s && forall j :: 0 <= j < 9 && g[j] == s ==> j == k
  }

  /** The opening reply applies: the computer is to move, the centre is
      blank and the opponent has made a single mark, off the centre. */
  ghost predicate OpeningReplyApplies(b: Board, opp: Mark) {
    b.turn == ComputerTurn && b.grid[4] == Empty && LoneOffCentreMark(b.grid, opp)
  }

  /** None of the first three rules applies: no opening reply and no line
      to complete for either side. */
  ghost predicate PastThreats(b: Board, me: Mark) {
    !OpeningReplyApplies(b, Opponent(me)) && !CanComplete(b.grid, me) && !CanComplete(b.grid, Opponent(me))
  }

  /** Some corner is blank. */
  ghost predicate SomeCornerBlank(g: Grid) {
    g[0] == Empty || g[2] == Empty || g[6] == Empty || g[8] == Empty
  }

  /** Cell k is the first blank cell in row-major order. */
  ghost predicate FirstBlank(g: Grid, k: int) {
    0 <= k < 9 && g[k] == Empty && forall j :: 0 <= j < k ==> g[j] != Empty
  }

  // ---------------------------------------------------------------------
  // The pieces of find_best_move
  // ---------------------------------------------------------------------

  /** The list comprehension of the opening rule, with each cell named by
      its row-major index (the centre (1, 1) is index 4): the cells holding
      `s`, in row-major order, from index k on. */
  function MarkCells(g: Grid, s: Mark, k: nat): (ks: seq<nat>)
    requires k <= 9
    ensures forall i :: 0 <= i < |ks| ==> k <= ks[i] < 9 && g[ks[i]] == s
    ensures forall j :: k <= j < 9 && g[j] == s ==> j in ks
    ensures forall i :: 0 < i < |ks| ==> ks[i - 1] < ks[i]
    decreases 9 - k
  {
    if k == 9 then []
    else if g[k] == s then [k] + MarkCells(g, s, k + 1)
    else MarkCells(g, s, k + 1)
  }

  /** A single listed mark, off the centre, is a lone off-centre mark. */
  lemma SingleListedIsLone(g: Grid, s: Mark)
    requires var ks := MarkCells(g, s, 0); |ks| == 1 && ks[0] != 4
    ensures LoneOffCentreMark(g, s)
  {
    var ks := MarkCells(g, s, 0);
    forall j | 0 <= j < 9 && g[j] == s
      ensures j == ks[0]
    {
      assert j in ks;
    }
  }

  /** A lone off-centre mark is listed alone, off the centre. */
  lemma LoneIsSingleListed(g: Grid, s: Mark, k: nat)
    requires k < 9 && k != 4 && g[k] == s
    requires forall j :: 0 <= j < 9 && g[j] == s ==> j == k
    ensures var ks := MarkCells(g, s, 0); |ks| == 1 && ks[0] != 4
  {
    var ks := MarkCells(g, s, 0);
    assert k in ks;
  }

  /** A single listed mark, off the centre, is exactly a lone off-centre mark. */
  lemma LoneMarkListed(g: Grid, s: Mark)
    ensures var ks := MarkCells(g, s, 0);
            (|ks| == 1 && ks[0] != 4) <==> LoneOffCentreMark(g, s)
  {
    var ks := MarkCells(g, s, 0);
    if |ks| == 1 && ks[0] != 4 {
      SingleListedIsLone(g, s);
    }
    if LoneOffCentreMark(g, s) {
      var k :| 0 <= k < 9 && k != 4 && g[k] == s && forall j :: 0 <= j < 9 && g[j] == s ==> j == k;
      LoneIsSingleListed(g, s, k);
    }
  }

  /** The guard of the opening rule, as the source evaluates it. */
  function OpeningReplyGuard(b: Board, opp: Mark): (reply: bool)
    ensures reply <==> OpeningReplyApplies(b, opp)
  {
    if b.turn == ComputerTurn && b.grid[4] == Empty then
      var ks := MarkCells(b.grid, opp, 0);
      LoneMarkListed(b.grid, opp);
      |ks| == 1 && ks[0] != 4
    else
      false
  }

  /** One trial of the win and block scans: place `s` on the blank cell
      (r, c), ask whether `s` has won, and write the blank back.  Returns the
      answer and the board after the undo, which is the board it was given. */
  method TrialPlace(b: Board, r: int, c: int, s: Mark) returns (won: bool, after: Board)
    requires IsValidMove(b, r, c)
    ensures after == b
    ensures won <==> Completes(b.grid, 3 * r + c, s)
  {
    var placed := MakeMove(b, r, c, s).1;
    won := IsWinner(placed, s);
    WinsIffThreeInARow(placed.grid, s);
    UndoRestoresBoard(b, r, c, s);
    after := ClearCell(placed, r, c);
  }

  /** The double loop of the win and block rules: the first cell, in
      row-major order, whose trial placement of `s` wins, and the board as
      the loop leaves it, which every undo has restored to the input. */
  method FirstWinningCell(b: Board, s: Mark) returns (w: Option<Pos>, board: Board)
    ensures board == b
    ensures w.Some? ==> InBoard(w.value) && FirstCompleting(b.grid, Idx(w.value), s)
    ensures w.None? ==> !CanComplete(b.grid, s)
  {
    board := b;
    var i := 0;
    while i < 3
      invariant 0 <= i <= 3 && board == b
      invariant forall k :: 0 <= k < 3 * i ==> !Completes(b.grid, k, s)
    {
      var j := 0;
      while j < 3
        invariant 0 <= j <= 3 && board == b
        invariant forall k :: 0 <= k < 3 * i + j ==> !Completes(b.grid, k, s)
      {
        if IsValidMove(board, i, j) {
          var won;
          won, board := TrialPlace(board, i, j, s);
          if won {
            return Some(Pos(i, j)), board;
          }
        } else {
          assert b.grid[3 * i + j] != Empty;
        }
        assert !Completes(b.grid, 3 * i + j, s);
        j := j + 1;
      }
      i := i + 1;
    }
    return None, board;
  }

  /** The corner scan: the first position of `order`, from i on, that is a valid move. */
  function FirstFreeCorner(b: Board, order: seq<Pos>, i: nat): (c: Option<nat>)
    requires i <= |order|
    ensures c.Some? ==> i <= c.value < |order| && IsValidMove(b, order[c.value].row, order[c.value].col)
    ensures c.Some? ==> forall j :: i <= j < c.value ==> !IsValidMove(b, order[j].row, order[j].col)
    ensures c.None? ==> forall j :: i <= j < |order| ==> !IsValidMove(b, order[j].row, order[j].col)
    decreases |order| - i
  {
    if i == |order| then None
    else if IsValidMove(b, order[i].row, order[i].col) then Some(i)
    else FirstFreeCorner(b, order, i + 1)
  }

  /** The last-resort scan: the first valid move in row-major order from
      (r, c) on; (r, c) is a cell or the point (3, 0) just past the last one. */
  function FirstFreeCell(b: Board, r: nat, c: nat): (f: Option<Pos>)
    requires (r < 3 && c < 3) || (r == 3 && c == 0)
    ensures f.Some? ==> InBoard(f.value) && 3 * r + c <= Idx(f.value) && b.grid[Idx(f.value)] == Empty
    ensures f.Some? ==> forall j :: 3 * r + c <= j < Idx(f.value) ==> b.grid[j] != Empty
    ensures f.None? ==> forall j :: 3 * r + c <= j < 9 ==> b.grid[j] != Empty
    decreases 9 - (3 * r + c)
  {
    if r == 3 then None
    else if IsValidMove(b, r, c) then Some(Pos(r, c))
    else if c < 2 then FirstFreeCell(b, r, c + 1)
    else FirstFreeCell(b, r + 1, 0)
  }

  /** Every reordering of the corner list is a corner shuffle. */
  lemma PermutationIsShuffle(order: seq<Pos>)
    requires multiset(order) == multiset(Corners)
    ensures IsCornerShuffle(order)
  {
    assert |order| == |multiset(order)| == |multiset(Corners)| == 4;
    forall i | 0 <= i < |order|
      ensures IsCorner(order[i])
    {
      assert order[i] in multiset(order);
    }
    assert Corners[0] in multiset(Corners) && Corners[1] in multiset(Corners);
    assert Corners[2] in multiset(Corners) && Corners[3] in multiset(Corners);
  }

  /** No valid move among the shuffled corners means no corner is blank. */
  lemma NoFreeCornerMeansAllTaken(b: Board, order: seq<Pos>)
    requires IsCornerShuffle(order)
    requires forall j :: 0 <= j < |order| ==> !IsValidMove(b, order[j].row, order[j].col)
    ensures !SomeCornerBlank(b.grid)
  {
  }

  // ---------------------------------------------------------------------
  // The rules after the threat scans
  // ---------------------------------------------------------------------

  /** The rules after the threat scans: a free corner in shuffled order, the
      centre, the first blank cell, else the sentinel.  Whatever it picks is
      a valid move or the sentinel. */
  function AfterThreats(b: Board, corners: seq<Pos>): (m: Pos)
    requires IsCornerShuffle(corners)
    ensures m == Pos(-1, -1) || IsValidMove(b, m.row, m.col)
  {
    match FirstFreeCorner(b, corners, 0) {
      case Some(i) => corners[i]
      case None =>
        if IsValidMove(b, 1, 1) then Pos(1, 1)
        else match FirstFreeCell(b, 0, 0) {
          case Some(p) => p
          case None => Pos(-1, -1)
        }
    }
  }

  /** The corner scan finds a corner exactly when some corner is blank. */
  lemma CornerScanFindsBlankCorner(b: Board, corners: seq<Pos>)
    requires IsCornerShuffle(corners)
    ensures FirstFreeCorner(b, corners, 0).Some? <==> SomeCornerBlank(b.grid)
  {
    var c := FirstFreeCorner(b, corners, 0);
    if c.None? {
      NoFreeCornerMeansAllTaken(b, corners);
    } else {
      assert IsCorner(corners[c.value]);
    }
  }

  /** Rule 4: a blank corner is taken, the first of the shuffled order. */
  lemma AfterThreatsTakesCorner(b: Board, corners: seq<Pos>)
    requires IsCornerShuffle(corners) && SomeCornerBlank(b.grid)
    ensures var m := AfterThreats(b, corners);
            exists i :: 0 <= i < |corners| && m == corners[i] && IsValidMove(b, m.row, m.col)
              && forall j :: 0 <= j < i ==> !IsValidMove(b, corners[j].row, corners[j].col)
  {
    CornerScanFindsBlankCorner(b, corners);
    var i := FirstFreeCorner(b, corners, 0).value;
    assert AfterThreats(b, corners) == corners[i];
  }

  /** Rule 5: with every corner taken, a blank centre is taken. */
  lemma AfterThreatsTakesCentre(b: Board, corners: seq<Pos>)
    requires IsCornerShuffle(corners) && !SomeCornerBlank(b.grid) && b.grid[4] == Empty
    ensures AfterThreats(b, corners) == Pos(1, 1)
  {
    CornerScanFindsBlankCorner(b, corners);
  }

  /** Rule 6: with every corner and the centre taken, the first blank cell is taken. */
  lemma AfterThreatsTakesFirstBlank(b: Board, corners: seq<Pos>)
    requires IsCornerShuffle(corners) && !SomeCornerBlank(b.grid)
    requires b.grid[4] != Empty && !IsFull(b)
    ensures var m := AfterThreats(b, corners);
            InBoard(m) && FirstBlank(b.grid, Idx(m))
  {
    CornerScanFindsBlankCorner(b, corners);
    assert !IsValidMove(b, 1, 1);
    var f := FirstFreeCell(b, 0, 0);
    assert f.Some?;
    assert AfterThreats(b, corners) == f.value;
  }

  /** Rule 7: on a full board the rules give the sentinel (-1, -1). */
  lemma AfterThreatsSentinel(b: Board, corners: seq<Pos>)
    requires IsCornerShuffle(corners) && IsFull(b)
    ensures AfterThreats(b, corners) == Pos(-1, -1)
  {
    CornerScanFindsBlankCorner(b, corners);
    assert FirstFreeCell(b, 0, 0).None?;
  }

  /** On a blank grid no rule before the corner rule applies, and the corner
      rule takes the first corner of the shuffled order. */
  lemma BlankBoardOpensOnFirstCorner(b: Board, me: Mark, corners: seq<Pos>)
    requires IsCornerShuffle(corners) && AllEmpty(b.grid)
    ensures PastThreats(b, me) && SomeCornerBlank(b.grid)
    ensures AfterThreats(b, corners) == corners[0]
  {
    assert b.grid[0] == Empty;
    assert IsCorner(corners[0]);
  }

  // ---------------------------------------------------------------------
  // find_best_move and make_move
  // ---------------------------------------------------------------------

  /** The move the priority list of find_best_move fixes for the computer
      playing `me`: the first rule that applies decides it.  The rules are
      the opening reply, an immediate win, a block, a free corner in the
      shuffled order, the centre, the first blank cell, and on a full board
      the sentinel (-1, -1). */
  ghost predicate ChosenMove(b: Board, me: Mark, corners: seq<Pos>, m: Pos) {
    && (OpeningReplyApplies(b, Opponent(me)) ==> m == Pos(1, 1))
    && (!OpeningReplyApplies(b, Opponent(me)) && CanComplete(b.grid, me) ==>
          InBoard(m) && FirstCompleting(b.grid, Idx(m), me))
    && (!OpeningReplyApplies(b, Opponent(me)) && !CanComplete(b.grid, me) && CanComplete(b.grid, Opponent(me)) ==>
          InBoard(m) && FirstCompleting(b.grid, Idx(m), Opponent(me)))
    && (PastThreats(b, me) && SomeCornerBlank(b.grid) ==>
          exists i :: 0 <= i < |corners| && m == corners[i] && IsValidMove(b, m.row, m.col)
            && forall j :: 0 <= j < i ==> !IsValidMove(b, corners[j].row, corners[j].col))
    && (PastThreats(b, me) && !SomeCornerBlank(b.grid) && b.grid[4] == Empty ==> m == Pos(1, 1))
    && (PastThreats(b, me) && !SomeCornerBlank(b.grid) && b.grid[4] != Empty && !IsFull(b) ==>
          InBoard(m) && FirstBlank(b.grid, Idx(m)))
    && (IsFull(b) ==> m == Pos(-1, -1))
  }

  /** Two on-board coordinates with the same row-major index are the same. */
  lemma IdxInjective(p: Pos, q: Pos)
    requires InBoard(p) && InBoard(q) && Idx(p) == Idx(q)
    ensures p == q
  {
  }

  /** At most one cell is the first to complete a line for `s`. */
  lemma FirstCompletingUnique(g: Grid, k: int, k': int, s: Mark)
    requires FirstCompleting(g, k, s) && FirstCompleting(g, k', s)
    ensures k == k'
  {
  }

  /** At most one cell is the first blank cell. */
  lemma FirstBlankUnique(g: Grid, k: int, k': int)
    requires FirstBlank(g, k) && FirstBlank(g, k')
    ensures k == k'
  {
  }

  /** At most one position of the order holds its first valid corner. */
  lemma FirstValidCornerUnique(b: Board, corners: seq<Pos>, i: int, i': int)
    requires 0 <= i < |corners| && IsValidMove(b, corners[i].row, corners[i].col)
    requires forall j :: 0 <= j < i ==> !IsValidMove(b, corners[j].row, corners[j].col)
    requires 0 <= i' < |corners| && IsValidMove(b, corners[i'].row, corners[i'].col)
    requires forall j :: 0 <= j < i' ==> !IsValidMove(b, corners[j].row, corners[j].col)
    ensures i == i'
  {
  }

  /** The priority list leaves no choice: on any board at most one move
      meets every rule. */
  lemma ChosenMoveIsUnique(b: Board, me: Mark, corners: seq<Pos>)
    ensures forall m, m' :: ChosenMove(b, me, corners, m) && ChosenMove(b, me, corners, m') ==> m == m'
  {
    forall m, m' | ChosenMove(b, me, corners, m) && ChosenMove(b, me, corners, m')
      ensures m == m'
    {
      var opp := Opponent(me);
      if OpeningReplyApplies(b, opp) {
      } else if CanComplete(b.grid, me) {
        FirstCompletingUnique(b.grid, Idx(m), Idx(m'), me);
        IdxInjective(m, m');
      } else if CanComplete(b.grid, opp) {
        FirstCompletingUnique(b.grid, Idx(m), Idx(m'), opp);
        IdxInjective(m, m');
      } else if IsFull(b) {
      } else if SomeCornerBlank(b.grid) {
        var i :| 0 <= i < |corners| && m == corners[i] && IsValidMove(b, m.row, m.col)
          && forall j :: 0 <= j < i ==> !IsValidMove(b, corners[j].row, corners[j].col);
        var i' :| 0 <= i' < |corners| && m' == corners[i'] && IsValidMove(b, m'.row, m'.col)
          && forall j :: 0 <= j < i' ==> !IsValidMove(b, corners[j].row, corners[j].col);
        FirstValidCornerUnique(b, corners, i, i');
      } else if b.grid[4] == Empty {
      } else {
        FirstBlankUnique(b.grid, Idx(m), Idx(m'));
        IdxInjective(m, m');
      }
    }
  }

  /** Computer.find_best_move for the computer playing `me`, with `corners`
      the order random.shuffle produced on this call.  The move is the one
      the priority list fixes; on a board with a blank cell it is a valid
      move.  The board it hands back is the one the trial placements leave
      behind: the input itself. */
  method FindBestMove(b: Board, me: Mark, corners: seq<Pos>) returns (m: Pos, after: Board)
    requires IsCornerShuffle(corners)
    ensures after == b
    ensures ChosenMove(b, me, corners, m)
    ensures !IsFull(b) ==> IsValidMove(b, m.row, m.col)
  {
    var opp := Opponent(me);
    if OpeningReplyGuard(b, opp) {
      return Pos(1, 1), b;
    }
    var w;
    w, after := FirstWinningCell(b, me);
    if w.Some? {
      return w.value, after;
    }
    var d;
    d, after := FirstWinningCell(after, opp);
    if d.Some? {
      return d.value, after;
    }
    m := AfterThreats(after, corners);
    if SomeCornerBlank(b.grid) {
      AfterThreatsTakesCorner(b, corners);
    } else if b.grid[4] == Empty {
      AfterThreatsTakesCentre(b, corners);
    } else if !IsFull(b) {
      AfterThreatsTakesFirstBlank(b, corners);
    } else {
      AfterThreatsSentinel(b, corners);
    }
  }

  /** Computer.make_move: choose a move and place `me` there.  The source
      retries while the chosen move is invalid; on a board with a blank cell
      the first choice is always valid, so the retry never runs.  On a full
      board the retry would never end, hence the precondition. */
  method ComputerMove(b: Board, me: Mark, corners: seq<Pos>) returns (m: Pos, b': Board)
    requires IsCornerShuffle(corners) && !IsFull(b)
    ensures ChosenMove(b, me, corners, m)
    ensures InBoard(m) && At(b.grid, m) == Empty
    ensures At(b'.grid, m) == me
    ensures SameCellsExcept(b.grid, b'.grid, m)
    ensures SameSession(b, b')
  {
    var same;
    m, same := FindBestMove(b, me, corners);
    b' := MakeMove(same, m.row, m.col, me).1;
  }
}
