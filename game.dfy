/** The `Game` component's state and its updates (src/App.js:98-119, 157-168).
    React's `useState` pairs become plain fields that the methods assign; a
    click on a square runs the board's `handleClick` with the props `Game`
    passes it and, when the move is legal, `handlePlay`. */
module GameState {
  import opened Marks
  import opened Winner
  import opened SquareStyle
  import opened BoardPanel
  import opened Play

  /** `xIsNext`: X moves on even steps. */
  function XIsNext(currentMove: nat): bool {
    currentMove % 2 == 0
  }

  /** `lastMove`: the square played to reach `currentMove`; `None` stands for
      the source's `-1` at step 0 (and for an unset slot), neither of which
      matches any square. */
  function LastMove(movesHistory: seq<Option<Cell>>, currentMove: nat): Option<Cell>
    requires currentMove <= |movesHistory|
  {
    if currentMove > 0 then movesHistory[currentMove - 1] else None
  }

  class Game {
    var history: seq<Board>
    var movesHistory: seq<Option<Cell>>
    var currentMove: nat
    var sortAscending: bool

    /** The history is well played and the step pointer is inside it. */
    ghost predicate Valid()
      reads this
    {
      WellPlayed(history, movesHistory) && currentMove < |history|
    }

    /** One empty board, nine unset move slots, step 0, ascending order. */
    constructor ()
      ensures Valid()
      ensures history == [EmptyBoard] && movesHistory == seq(9, _ => None)
      ensures currentMove == 0 && sortAscending
    {
      history := [EmptyBoard];
      movesHistory := seq(9, _ => None);
      currentMove := 0;
      sortAscending := true;
    }

    /** `currentSquares` */
    function CurrentSquares(): Board
      reads this
      requires currentMove < |history|
    {
      history[currentMove]
    }

    /** `handlePlay(nextSquares, nextMove)`: keep the history up to and
        including the current step, append the new board, record the move in
        slot `currentMove` and clear the later slots, advance the pointer. */
    method HandlePlay(nextSquares: Board, nextMove: Cell)
      requires currentMove < |history|
      modifies this
      ensures history == old(history[..currentMove + 1]) + [nextSquares]
      ensures |history| == old(currentMove) + 2
      ensures movesHistory == NextMovesHistory(old(movesHistory), old(currentMove), nextMove)
      ensures currentMove == old(currentMove) + 1
      ensures sortAscending == old(sortAscending)
    {
      history := history[..currentMove + 1] + [nextSquares];
      movesHistory := NextMovesHistory(movesHistory, currentMove, nextMove);
      currentMove := currentMove + 1;
    }

    /** `jumpTo(nextMove)`: only the pointer moves. */
    method JumpTo(nextMove: nat)
      requires Valid() && nextMove < |history|
      modifies this`currentMove
      ensures Valid()
      ensures currentMove == nextMove
      ensures history == old(history) && movesHistory == old(movesHistory)
      ensures sortAscending == old(sortAscending)
    {
      currentMove := nextMove;
    }

    /** The "Toggle Sort" button: only the order flag flips. */
    method ToggleSort()
      requires Valid()
      modifies this`sortAscending
      ensures Valid()
      ensures sortAscending == !old(sortAscending)
      ensures history == old(history) && movesHistory == old(movesHistory)
      ensures currentMove == old(currentMove)
    {
      sortAscending := !sortAscending;
    }

    /** A click on square `i` of the board `Game` renders: `handleClick` with
        `squares = currentSquares` and `xIsNext`, then `handlePlay` when the
        click is legal. An illegal click changes nothing; a legal one cuts
        the history after the current step and appends the current board with
        square `i` filled by the player whose turn it is. */
    method Click(i: Cell) returns (played: bool)
      requires Valid()
      modifies this
      ensures Valid()
      ensures played <==> old(LegalMove(CurrentSquares(), i))
      ensures !played ==> history == old(history) && movesHistory == old(movesHistory) &&
                          currentMove == old(currentMove)
      ensures played ==> history == old(history[..currentMove + 1]) +
                                    [old(CurrentSquares())[i := Filled(MarkForStep(old(currentMove)))]]
      ensures played ==> movesHistory == NextMovesHistory(old(movesHistory), old(currentMove), i)
      ensures played ==> currentMove == old(currentMove) + 1 && old(currentMove) < 9
      ensures sortAscending == old(sortAscending)
    {
      var next := HandleClick(history[currentMove], XIsNext(currentMove), i);
      played := next.Some?;
      if played {
        Extend(history, movesHistory, currentMove, i);
        assert next.value == history[currentMove][i := Filled(MarkForStep(currentMove))];
        HandlePlay(next.value, i);
      }
    }
  }

  /** `xIsNext` agrees with the board: X is to move exactly when the board
      holds as many X's as O's, and the mark the click places is the one of
      the current step. */
  lemma TurnParity(history: seq<Board>, movesHistory: seq<Option<Cell>>, currentMove: nat)
    requires WellPlayed(history, movesHistory) && currentMove < |history|
    ensures XIsNext(currentMove) <==>
      CountOf(history[currentMove], Filled(X)) == CountOf(history[currentMove], Filled(O))
    ensures MarkFor(XIsNext(currentMove)) == MarkForStep(currentMove)
  {
    MarkCounts(history, movesHistory, currentMove);
  }

  /** `lastMove` names the square that differs between the previous board
      and the current one: empty before, holding the previous player's mark
      now. At step 0 there is none. */
  lemma LastMoveIsLastPlaced(history: seq<Board>, movesHistory: seq<Option<Cell>>, currentMove: nat)
    requires WellPlayed(history, movesHistory) && currentMove < |history|
    ensures currentMove <= |movesHistory|
    ensures LastMove(movesHistory, currentMove).Some? <==> currentMove > 0
    ensures currentMove > 0 ==>
      var c := LastMove(movesHistory, currentMove).value;
      history[currentMove - 1][c] == Empty &&
      history[currentMove][c] == Filled(MarkForStep(currentMove - 1))
  {
    HistoryBound(history, movesHistory);
    if currentMove > 0 {
      assert StepPlayed(history, movesHistory, currentMove - 1);
    }
  }

  /** The status line of the game as rendered (`noMoreMoves` is
      `currentMove === 9`): "Winner: " and the mark when the board has a
      winner, "It's a draw!" exactly when there is no winner and the board is
      full, otherwise "Next player: " and the player to move, who is X
      exactly when the counts of X and O are equal. */
  lemma StatusShown(history: seq<Board>, movesHistory: seq<Option<Cell>>, currentMove: nat)
    requires WellPlayed(history, movesHistory) && currentMove < |history|
    ensures var s := StatusOf(history[currentMove], currentMove == 9, XIsNext(currentMove));
      && (s.Won? <==> Detect(history[currentMove]).winner.Some?)
      && (s.Draw? <==> Detect(history[currentMove]).winner.None? &&
                       forall c: Cell :: history[currentMove][c] != Empty)
      && (s.NextPlayer? ==> exists c: Cell :: history[currentMove][c] == Empty)
      && (s.NextPlayer? ==> (s.player == X <==>
            CountOf(history[currentMove], Filled(X)) == CountOf(history[currentMove], Filled(O))))
    ensures var b := history[currentMove];
      StatusText(StatusOf(b, currentMove == 9, XIsNext(currentMove))) ==
        if Detect(b).winner.Some? then "Winner: " + MarkText(Detect(b).winner.value)
        else if forall c: Cell :: b[c] != Empty then "It's a draw!"
        else "Next player: " + MarkText(if CountOf(b, Filled(X)) == CountOf(b, Filled(O)) then X else O)
  {
    FullIffNine(history, movesHistory, currentMove);
    TurnParity(history, movesHistory, currentMove);
  }

  /** On a won board the square played last always lies on the reported
      winning line, so it is drawn as winning and no square is drawn as
      "just moved": the winning-line style always wins the precedence. */
  lemma WonBoardHighlights(history: seq<Board>, movesHistory: seq<Option<Cell>>, currentMove: nat)
    requires WellPlayed(history, movesHistory) && currentMove < |history|
    requires Detect(history[currentMove]).winner.Some?
    ensures currentMove > 0 && currentMove <= |movesHistory|
    ensures var hs := BoardHighlights(history[currentMove], LastMove(movesHistory, currentMove));
      && LastMove(movesHistory, currentMove).Some?
      && hs[LastMove(movesHistory, currentMove).value] == Winning
      && forall k: Cell :: hs[k] != JustMoved
  {
    var board := history[currentMove];
    DetectSpec(board);
    var j: nat :| FirstWinningFrom(board, 0, j) && Detect(board).line == Cells(Lines[j]);
    if currentMove == 0 {
      assert false;
    }
    HistoryBound(history, movesHistory);
    WinThroughLastMove(history, movesHistory, currentMove, Lines[j]);
  }
}
