/** Whole games stepped through the `Game` class, with what the player sees
    (the status text, the highlighted squares, the history) asserted.
    Each game is split into an opening, returned with the state it reaches,
    and the rest of the game. */
module Scenarios {
  import opened Marks
  import opened Winner
  import opened SquareStyle
  import opened BoardPanel
  import opened Play
  import opened GameState

  /** X plays 0, 1, 2 against O's 4 and 3 and wins on the top row. */
  method XWinsTopRow() returns (g: Game)
    ensures fresh(g) && g.Valid() && g.currentMove == 5 && |g.history| == 6 && g.movesHistory[4] == Some(2)
    ensures g.history[2] == [Filled(X), Empty, Empty, Empty, Filled(O), Empty, Empty, Empty, Empty]
    ensures g.CurrentSquares() == [Filled(X), Filled(X), Filled(X), Filled(O), Filled(O), Empty, Empty, Empty, Empty]
  {
    g := new Game();
    var played := g.Click(0);
    played := g.Click(4);
    played := g.Click(1);
    played := g.Click(3);
    assert g.CurrentSquares() == [Filled(X), Filled(X), Empty, Filled(O), Filled(O), Empty, Empty, Empty, Empty];
    played := g.Click(2);
  }

  /** After the top-row win the status names X and the row is highlighted;
      no square can be played. Jumping back to step 2 shows X to move again,
      and a new move there drops the won branch. */
  method WinThenBranch() {
    var g := XWinsTopRow();
    var board := g.CurrentSquares();
    assert Detect(board) == Outcome(Some(X), [0, 1, 2]);
    assert StatusText(StatusOf(board, g.currentMove == 9, XIsNext(g.currentMove))) == "Winner: X";
    var hs := BoardHighlights(board, LastMove(g.movesHistory, g.currentMove));
    assert hs[0] == Winning && hs[1] == Winning && hs[2] == Winning && hs[3] == Plain;

    var played := g.Click(8);
    assert !played && g.currentMove == 5;

    g.JumpTo(2);
    var back := g.CurrentSquares();
    assert Detect(back) == Outcome(None, []);
    assert StatusText(StatusOf(back, g.currentMove == 9, XIsNext(g.currentMove))) == "Next player: X";

    played := g.Click(2);
    assert played;
    assert |g.history| == 4 && g.currentMove == 3;
    assert g.movesHistory[2] == Some(2) && g.movesHistory[3] == None && g.movesHistory[4] == None;
  }

  /** The first five moves of a drawn game: X 0, O 2, X 1, O 3, X 5. */
  method DrawOpening() returns (g: Game)
    ensures fresh(g) && g.Valid() && g.currentMove == 5
    ensures g.CurrentSquares() == [Filled(X), Filled(X), Filled(O), Filled(O), Empty, Filled(X), Empty, Empty, Empty]
  {
    g := new Game();
    var played := g.Click(0);
    played := g.Click(2);
    played := g.Click(1);
    played := g.Click(3);
    assert g.CurrentSquares() == [Filled(X), Filled(X), Filled(O), Filled(O), Empty, Empty, Empty, Empty, Empty];
    played := g.Click(5);
  }

  /** O 4, X 6, O 8, X 7 fill the board with no line for either player:
      step 9 reads as a draw. */
  method FullBoardDraw() {
    var g := DrawOpening();
    var played := g.Click(4);
    played := g.Click(6);
    assert g.CurrentSquares() == [Filled(X), Filled(X), Filled(O), Filled(O), Filled(O), Filled(X), Filled(X), Empty, Empty];
    played := g.Click(8);
    played := g.Click(7);
    assert played && g.currentMove == 9;
    var board := g.CurrentSquares();
    assert board == [Filled(X), Filled(X), Filled(O), Filled(O), Filled(O), Filled(X), Filled(X), Filled(X), Filled(O)];
    assert Detect(board) == Outcome(None, []);
    assert StatusText(StatusOf(board, g.currentMove == 9, XIsNext(g.currentMove))) == "It's a draw!";
  }

  /** The first five moves of a double win: X 1, O 4, X 2, O 5, X 3. */
  method DoubleWinOpening() returns (g: Game)
    ensures fresh(g) && g.Valid() && g.currentMove == 5
    ensures g.CurrentSquares() == [Empty, Filled(X), Filled(X), Filled(X), Filled(O), Filled(O), Empty, Empty, Empty]
  {
    g := new Game();
    var played := g.Click(1);
    played := g.Click(4);
    played := g.Click(2);
    played := g.Click(5);
    assert g.CurrentSquares() == [Empty, Filled(X), Filled(X), Empty, Filled(O), Filled(O), Empty, Empty, Empty];
    played := g.Click(3);
  }

  /** O 7, X 6, O 8, then X on square 0 completes the top row and the left
      column at once. The winner is X either way, but only the top row, the
      first line in scan order, is highlighted; square 6 on the left column
      stays plain. A win on the ninth move is reported as a win, not a draw. */
  method DoubleWin() {
    var g := DoubleWinOpening();
    var played := g.Click(7);
    played := g.Click(6);
    assert g.CurrentSquares() == [Empty, Filled(X), Filled(X), Filled(X), Filled(O), Filled(O), Filled(X), Filled(O), Empty];
    played := g.Click(8);
    played := g.Click(0);
    assert played && g.currentMove == 9;
    var board := g.CurrentSquares();
    assert board == [Filled(X), Filled(X), Filled(X), Filled(X), Filled(O), Filled(O), Filled(X), Filled(O), Filled(O)];
    assert Detect(board) == Outcome(Some(X), [0, 1, 2]);
    assert Wins(board, Lines[3]);
    var hs := BoardHighlights(board, LastMove(g.movesHistory, g.currentMove));
    assert hs[0] == Winning && hs[6] == Plain;
    assert StatusText(StatusOf(board, g.currentMove == 9, XIsNext(g.currentMove))) == "Winner: X";
  }
}
