/** The history a game builds up (src/App.js:24-32 and 107-115): a list of
    boards starting from the empty one and a nine-slot list of the squares
    played, where each board follows from the one before it by one legal move.
    `WellPlayed` is that invariant; the lemmas here are what it implies. */
module Play {
  import opened Marks
  import opened Winner

  /** Whose mark goes down at step `k`: X on even steps, O on odd ones. */
  function MarkForStep(k: nat): Player {
    if k % 2 == 0 then X else O
  }

  /** `handleClick` accepts a click on square `i`. */
  predicate LegalMove(squares: Board, i: Cell) {
    squares[i] == Empty && Detect(squares).winner.None?
  }

  /** `movesHistory.map(...)` in `handlePlay`: slots before `current` are
      kept, slot `current` records the square played, later slots are
      cleared. */
  function NextMovesHistory(moves: seq<Option<Cell>>, current: nat, played: Cell): (r: seq<Option<Cell>>)
    ensures |r| == |moves|
    ensures current <= |moves| ==> r[..current] == moves[..current]
    ensures current < |moves| ==> r[current] == Some(played)
    ensures forall k :: current < k < |r| ==> r[k] == None
  {
    seq(|moves|, k requires 0 <= k < |moves| =>
      if k < current then moves[k] else if k == current then Some(played) else None)
  }

  /** Board `k + 1` is board `k` with the square recorded in slot `k` filled
      by the mark of step `k`, and that move was legal on board `k`. */
  ghost predicate StepPlayed(history: seq<Board>, moves: seq<Option<Cell>>, k: nat)
    requires k + 1 < |history|
  {
    k < |moves| && moves[k].Some? && LegalMove(history[k], moves[k].value) &&
    history[k + 1] == history[k][moves[k].value := Filled(MarkForStep(k))]
  }

  /** The invariant of a game's history: it starts at the empty board, every
      step is one legal move recorded in `moves`, and the slots past the last
      board are empty. */
  ghost predicate WellPlayed(history: seq<Board>, moves: seq<Option<Cell>>) {
    |history| >= 1 && |moves| == 9 && history[0] == EmptyBoard &&
    (forall k: nat :: k + 1 < |history| ==> StepPlayed(history, moves, k)) &&
    (forall k :: |history| - 1 <= k < 9 ==> moves[k] == None)
  }

  /** Turn parity: board `k` holds ceil(k/2) X's, floor(k/2) O's and 9 - k
      empty squares. */
  lemma {:induction false} MarkCounts(history: seq<Board>, moves: seq<Option<Cell>>, k: nat)
    requires WellPlayed(history, moves) && k < |history|
    ensures CountOf(history[k], Filled(X)) == (k + 1) / 2
    ensures CountOf(history[k], Filled(O)) == k / 2
    ensures CountOf(history[k], Empty) == 9 - k
  {
    if k == 0 {
      assert history[0] == EmptyBoard;
      CountZero(EmptyBoard, Filled(X));
      CountZero(EmptyBoard, Filled(O));
      CountTotal(EmptyBoard);
    } else {
      MarkCounts(history, moves, k - 1);
      assert StepPlayed(history, moves, k - 1);
      CountFill(history[k - 1], moves[k - 1].value, MarkForStep(k - 1));
    }
  }

  /** A history never holds more than ten boards (nine moves). */
  lemma HistoryBound(history: seq<Board>, moves: seq<Option<Cell>>)
    requires WellPlayed(history, moves)
    ensures |history| <= 10
  {
    MarkCounts(history, moves, |history| - 1);
  }

  /** Board `k` is full exactly when `k == 9`. */
  lemma FullIffNine(history: seq<Board>, moves: seq<Option<Cell>>, k: nat)
    requires WellPlayed(history, moves) && k < |history|
    ensures (forall c: Cell :: history[k][c] != Empty) <==> k == 9
  {
    MarkCounts(history, moves, k);
    CountZero(history[k], Empty);
  }

  /** Along a branch a filled square is never cleared or overwritten. */
  lemma {:induction false} NeverCleared(history: seq<Board>, moves: seq<Option<Cell>>, j: nat, k: nat, c: Cell)
    requires WellPlayed(history, moves) && j <= k < |history|
    requires history[j][c] != Empty
    ensures history[k][c] == history[j][c]
    decreases k - j
  {
    if j < k {
      assert StepPlayed(history, moves, j);
      NeverCleared(history, moves, j + 1, k, c);
    }
  }

  /** Every winning line on board `k > 0` passes through the square played
      last and carries the mark of the player who played it: the board before
      had no winner. */
  lemma WinThroughLastMove(history: seq<Board>, moves: seq<Option<Cell>>, k: nat, l: Line)
    requires WellPlayed(history, moves) && 0 < k < |history|
    requires l in Lines && Wins(history[k], l)
    ensures k - 1 < |moves| && moves[k - 1].Some? && moves[k - 1].value in Cells(l)
    ensures history[k][l.a] == Filled(MarkForStep(k - 1))
  {
    assert StepPlayed(history, moves, k - 1);
    var m := moves[k - 1].value;
    DetectSpec(history[k - 1]);
    assert !Wins(history[k - 1], l);
    if m !in Cells(l) {
      assert false;
    }
  }

  /** All winning lines of a board in the history carry the same mark, so the
      scan order of `calculateWinner` decides only which line is reported,
      not who won. */
  lemma WinnersAgree(history: seq<Board>, moves: seq<Option<Cell>>, k: nat, l1: Line, l2: Line)
    requires WellPlayed(history, moves) && k < |history|
    requires l1 in Lines && l2 in Lines && Wins(history[k], l1) && Wins(history[k], l2)
    ensures history[k][l1.a] == history[k][l2.a]
  {
    if k == 0 {
      assert false;
    } else {
      WinThroughLastMove(history, moves, k, l1);
      WinThroughLastMove(history, moves, k, l2);
    }
  }

  /** `handlePlay` after a legal click on board `current` keeps the
      invariant: the history cut after `current`, the new board appended, and
      the move slots rewritten. It also shows that such a click never comes
      after the ninth move. */
  lemma Extend(history: seq<Board>, moves: seq<Option<Cell>>, current: nat, i: Cell)
    requires WellPlayed(history, moves) && current < |history|
    requires LegalMove(history[current], i)
    ensures current < 9
    ensures WellPlayed(history[..current + 1] + [history[current][i := Filled(MarkForStep(current))]],
                       NextMovesHistory(moves, current, i))
  {
    MarkCounts(history, moves, current);
    CountZero(history[current], Empty);
    var h := history[..current + 1] + [history[current][i := Filled(MarkForStep(current))]];
    var m := NextMovesHistory(moves, current, i);
    forall k: nat | k + 1 < |h| ensures StepPlayed(h, m, k) {
      if k < current {
        assert StepPlayed(history, moves, k);
      }
    }
  }
}
