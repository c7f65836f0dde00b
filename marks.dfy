/** Cells, marks and boards: the values the game is played with.
    A square in the source is `null`, `"X"` or `"O"`; a board is a 9-element
    array of squares in row-major order. */
module Marks {

  /** `null` in the source becomes `None`. */
  datatype Option<T> = None | Some(value: T)

  datatype Player = X | O

  datatype Square = Empty | Filled(mark: Player)

  /** A cell index, 0..8, row-major. */
  type Cell = i: int | 0 <= i < 9

  /** A board always has exactly nine squares. */
  type Board = b: seq<Square> | |b| == 9
    witness [Empty, Empty, Empty, Empty, Empty, Empty, Empty, Empty, Empty]

  /** `Array(9).fill(null)` */
  const EmptyBoard: Board := [Empty, Empty, Empty, Empty, Empty, Empty, Empty, Empty, Empty]

  /** The mark placed by the player to move: "X" when `xIsNext`, "O" otherwise. */
  function MarkFor(xIsNext: bool): Player {
    if xIsNext then X else O
  }

  function MarkText(p: Player): string {
    match p
    case X => "X"
    case O => "O"
  }

  /** Number of squares of `b` equal to `s`. */
  function CountOf(b: seq<Square>, s: Square): nat {
    if b == [] then 0 else (if b[0] == s then 1 else 0) + CountOf(b[1..], s)
  }

  /** Every square is empty, X or O, so the three counts add up to the length. */
  lemma {:induction false} CountTotal(b: seq<Square>)
    ensures CountOf(b, Empty) + CountOf(b, Filled(X)) + CountOf(b, Filled(O)) == |b|
  {
    if b != [] {
      CountTotal(b[1..]);
      match b[0]
      case Empty =>
      case Filled(p) => assert p == X || p == O;
    }
  }

  /** A count is zero exactly when no square holds that value. */
  lemma {:induction false} CountZero(b: seq<Square>, s: Square)
    ensures CountOf(b, s) == 0 <==> forall k :: 0 <= k < |b| ==> b[k] != s
  {
    if b != [] {
      CountZero(b[1..], s);
      if CountOf(b, s) == 0 {
        forall k | 0 <= k < |b| ensures b[k] != s {
          if k > 0 { assert b[k] == b[1..][k - 1]; }
        }
      } else if b[0] != s {
        var j :| 0 <= j < |b[1..]| && b[1..][j] == s;
        assert b[j + 1] == s;
      }
    }
  }

  /** Filling an empty square with `p` adds one `p`, removes one empty square
      and leaves the other player's count alone. */
  lemma {:induction false} CountFill(b: seq<Square>, m: nat, p: Player)
    requires m < |b| && b[m] == Empty
    ensures CountOf(b[m := Filled(p)], Filled(p)) == CountOf(b, Filled(p)) + 1
    ensures CountOf(b[m := Filled(p)], Empty) + 1 == CountOf(b, Empty)
    ensures forall q :: q != p ==> CountOf(b[m := Filled(p)], Filled(q)) == CountOf(b, Filled(q))
  {
    var b' := b[m := Filled(p)];
    if m == 0 {
      assert b'[1..] == b[1..];
    } else {
      CountFill(b[1..], m - 1, p);
      assert b'[1..] == b[1..][m - 1 := Filled(p)];
    }
  }
}
