/** Win detection: `calculateWinner` (src/App.js:178-198).
    The source scans eight fixed triples in a fixed order and reports the mark
    of the first triple whose three squares are filled and equal; the triple
    itself went out through a `useRef` and is returned here as `line`. */
module Winner {
  import opened Marks

  datatype Line = Line(a: Cell, b: Cell, c: Cell)

  /** The three rows, the three columns and the two diagonals, in the
      order the source scans them. */
  const Lines: seq<Line> := [
    Line(0, 1, 2), Line(3, 4, 5), Line(6, 7, 8),
    Line(0, 3, 6), Line(1, 4, 7), Line(2, 5, 8),
    Line(0, 4, 8), Line(2, 4, 6)
  ]

  function Cells(l: Line): seq<Cell> {
    [l.a, l.b, l.c]
  }

  /** All three squares of `l` are filled with the same mark. */
  predicate Wins(squares: Board, l: Line) {
    squares[l.a] != Empty && squares[l.a] == squares[l.b] && squares[l.a] == squares[l.c]
  }

  /** What `calculateWinner` reports: the winning mark (`null` when none)
      and the winning triple (empty when none). */
  datatype Outcome = Outcome(winner: Option<Player>, line: seq<Cell>)

  /** The scan from line `k` onwards. */
  function FirstWin(squares: Board, k: nat): Outcome
    requires k <= |Lines|
    decreases |Lines| - k
  {
    if k == |Lines| then Outcome(None, [])
    else if Wins(squares, Lines[k]) then Outcome(Some(squares[Lines[k].a].mark), Cells(Lines[k]))
    else FirstWin(squares, k + 1)
  }

  function Detect(squares: Board): Outcome {
    FirstWin(squares, 0)
  }

  /** Line `j` wins and none of the lines from `k` up to `j` does. */
  ghost predicate FirstWinningFrom(squares: Board, k: nat, j: nat) {
    k <= j < |Lines| && Wins(squares, Lines[j]) &&
    forall i :: k <= i < j ==> !Wins(squares, Lines[i])
  }

  lemma {:induction false} FirstWinSpec(squares: Board, k: nat)
    requires k <= |Lines|
    ensures FirstWin(squares, k).winner.Some? <==> exists j :: k <= j < |Lines| && Wins(squares, Lines[j])
    ensures FirstWin(squares, k).winner.None? ==> FirstWin(squares, k).line == []
    ensures FirstWin(squares, k).winner.Some? ==>
      exists j: nat :: FirstWinningFrom(squares, k, j) &&
        FirstWin(squares, k).line == Cells(Lines[j]) &&
        squares[Lines[j].a] == Filled(FirstWin(squares, k).winner.value)
    decreases |Lines| - k
  {
    if k < |Lines| && !Wins(squares, Lines[k]) {
      FirstWinSpec(squares, k + 1);
      if FirstWin(squares, k).winner.Some? {
        var j: nat :| FirstWinningFrom(squares, k + 1, j) &&
          FirstWin(squares, k).line == Cells(Lines[j]) &&
          squares[Lines[j].a] == Filled(FirstWin(squares, k).winner.value);
        assert FirstWinningFrom(squares, k, j);
      }
    } else if k < |Lines| {
      assert FirstWinningFrom(squares, k, k);
    }
  }

  /** The source's promise: there is a winner exactly when one of the eight
      triples is filled with one mark; the reported line is the first such
      triple in scan order and the reported mark is the one on it;
      otherwise no winner and an empty line. */
  lemma DetectSpec(squares: Board)
    ensures Detect(squares).winner.Some? <==> exists j :: 0 <= j < |Lines| && Wins(squares, Lines[j])
    ensures Detect(squares).winner.None? ==> Detect(squares).line == []
    ensures Detect(squares).winner.Some? ==>
      exists j: nat :: FirstWinningFrom(squares, 0, j) &&
        Detect(squares).line == Cells(Lines[j]) &&
        forall c :: c in Detect(squares).line ==> squares[c] == Filled(Detect(squares).winner.value)
  {
    FirstWinSpec(squares, 0);
  }

  /** The loop of `calculateWinner` with its early return. */
  method CalculateWinner(squares: Board) returns (winner: Option<Player>, line: seq<Cell>)
    ensures Outcome(winner, line) == Detect(squares)
  {
    var i := 0;
    while i < |Lines|
      invariant 0 <= i <= |Lines|
      invariant FirstWin(squares, i) == Detect(squares)
    {
      var l := Lines[i];
      if squares[l.a] != Empty && squares[l.a] == squares[l.b] && squares[l.a] == squares[l.c] {
        line := [l.a, l.b, l.c];
        return Some(squares[l.a].mark), line;
      }
      i := i + 1;
    }
    winner, line := None, [];
  }
}
