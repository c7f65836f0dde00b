/** The styling choice of `Square` (src/App.js:7-13) and the two flags the
    board hands each square (src/App.js:56-57). Only the computed choice is
    modelled, not the style objects themselves. */
module SquareStyle {
  import opened Marks
  import opened Winner

  /** `Winning`: red on yellow; `JustMoved`: blue; `Plain`: no style. */
  datatype Highlight = Plain | JustMoved | Winning

  /** The winning-line highlight beats the last-move highlight. */
  function SquareHighlight(highlighted: bool, justMoved: bool): (h: Highlight)
    ensures h == Winning <==> highlighted
    ensures h == JustMoved <==> !highlighted && justMoved
  {
    if highlighted then Winning
    else if justMoved then JustMoved
    else Plain
  }

  /** The highlight of every square of a rendered board: a square is
      `highlighted` when it lies on the line `calculateWinner` reports for
      `squares`, and `justMoved` when it is the last move. */
  function BoardHighlights(squares: Board, lastMove: Option<Cell>): (r: seq<Highlight>)
    ensures |r| == 9
    ensures forall k: Cell :: r[k] == Winning <==> k in Detect(squares).line
    ensures forall k: Cell :: r[k] == JustMoved <==> lastMove == Some(k) && k !in Detect(squares).line
    ensures Detect(squares).winner.None? ==> forall k: Cell :: r[k] != Winning
  {
    var line := Detect(squares).line;
    DetectSpec(squares);
    seq(9, k requires 0 <= k < 9 => SquareHighlight(k in line, lastMove == Some(k)))
  }
}
