/** The `Board` component's logic (src/App.js:21-44): the click handler that
    decides whether a move is legal and builds the next board, and the status
    line. */
module BoardPanel {
  import opened Marks
  import opened Winner

  /** `handleClick(i)`: a click on an occupied square, or on any square once
      the board has a winner, yields nothing (and `onPlay` is not called).
      Otherwise the board is copied and square `i` of the copy gets the mark
      of the player to move; the board passed in is left as it was. */
  method HandleClick(squares: Board, xIsNext: bool, i: Cell) returns (next: Option<Board>)
    ensures next.None? <==> squares[i] != Empty || Detect(squares).winner.Some?
    ensures next.Some? ==> next.value[i] == Filled(MarkFor(xIsNext))
    ensures next.Some? ==> forall k: Cell :: k != i ==> next.value[k] == squares[k]
  {
    next := None;
    if squares[i] == Empty {
      var winner, _ := CalculateWinner(squares);
      if winner == None {
        var nextSquares := new Square[9](k requires 0 <= k < 9 => squares[k]);
        if xIsNext {
          nextSquares[i] := Filled(X);
        } else {
          nextSquares[i] := Filled(O);
        }
        next := Some(nextSquares[..]);
      }
    }
  }

  /** The three kinds of status line. */
  datatype Status = Won(winner: Player) | Draw | NextPlayer(player: Player)

  /** The status precedence: a winner first, then a draw (`noMoreMoves`),
      then the player to move. */
  function StatusOf(squares: Board, noMoreMoves: bool, xIsNext: bool): (s: Status)
    ensures s.Won? <==> Detect(squares).winner.Some?
    ensures s.Won? ==> Some(s.winner) == Detect(squares).winner
    ensures s.Draw? <==> Detect(squares).winner.None? && noMoreMoves
    ensures s.NextPlayer? ==> s.player == MarkFor(xIsNext)
  {
    match Detect(squares).winner
    case Some(p) => Won(p)
    case None => if noMoreMoves then Draw else NextPlayer(MarkFor(xIsNext))
  }

  /** The text shown in the status line. */
  function StatusText(s: Status): string {
    match s
    case Won(p) => "Winner: " + MarkText(p)
    case Draw => "It's a draw!"
    case NextPlayer(p) => "Next player: " + MarkText(p)
  }

  /** Different statuses read differently, so the status line tells the
      player which of the three cases holds and whose mark it names. */
  lemma StatusTextDistinct(s1: Status, s2: Status)
    requires StatusText(s1) == StatusText(s2)
    ensures s1 == s2
  {
    var t := StatusText(s1);
    assert t[0] == StatusText(s2)[0];
    match s1
    case Won(p) =>
      assert |t| == 9 && t[8] == StatusText(s2)[8];
    case Draw =>
    case NextPlayer(p) =>
      assert |t| == 14 && t[13] == StatusText(s2)[13];
  }
}
