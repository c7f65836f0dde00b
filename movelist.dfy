/** The move list `Game` renders (src/App.js:121-152): the position text of a
    move, one entry per history step, and the order the entries are shown
    in. The markup (`<li>`, `<button>`, keys, styles) is not modelled, only
    the values it shows. */
module MoveList {
  import opened Marks
  import opened Winner
  import opened Play

  /** Decimal digits. */
  function DigitChar(d: nat): char
    requires d < 10
  {
    (d + '0' as int) as char
  }

  function DigitValue(ch: char): nat
    requires '0' <= ch <= '9'
  {
    ch as int - '0' as int
  }

  predicate AllDigits(s: string) {
    forall k :: 0 <= k < |s| ==> '0' <= s[k] <= '9'
  }

  /** How a JavaScript string concatenation renders a non-negative whole
      number: its decimal digits, most significant first. */
  function Decimal(n: nat): (s: string)
    ensures |s| >= 1 && AllDigits(s)
    ensures n < 10 <==> |s| == 1
  {
    if n < 10 then [DigitChar(n)] else Decimal(n / 10) + [DigitChar(n % 10)]
  }

  /** Reads a string of decimal digits back as a number. */
  function ParseDecimal(s: string): nat
    requires AllDigits(s)
  {
    if s == [] then 0 else 10 * ParseDecimal(s[..|s| - 1]) + DigitValue(s[|s| - 1])
  }

  /** The decimal text of a number reads back as that number, so different
      step numbers never get the same text. */
  lemma {:induction false} DecimalRoundTrip(n: nat)
    ensures ParseDecimal(Decimal(n)) == n
  {
    var s := Decimal(n);
    if n >= 10 {
      DecimalRoundTrip(n / 10);
      assert s[..|s| - 1] == Decimal(n / 10);
    }
  }

  /** `movePosition(m)`: the 1-based "(row,col)" of square `m`; `col` is
      `m % 3` and `row` is `(m - col) / 3`. */
  function MovePosition(m: Cell): string {
    var col := m % 3;
    var row := (m - col) / 3;
    "(" + Decimal(row + 1) + "," + Decimal(col + 1) + ")"
  }

  /** The inverse of `MovePosition`: "(r,c)" with r and c in 1..3. */
  function ParsePosition(s: string): Option<Cell> {
    if |s| == 5 && s[0] == '(' && s[2] == ',' && s[4] == ')' &&
       '1' <= s[1] <= '3' && '1' <= s[3] <= '3'
    then Some(3 * (DigitValue(s[1]) - 1) + (DigitValue(s[3]) - 1))
    else None
  }

  /** The position text is five characters, its row is `m div 3 + 1` and its
      column `m mod 3 + 1`, both between 1 and 3, and it reads back as `m`. */
  lemma PositionRoundTrip(m: Cell)
    ensures |MovePosition(m)| == 5
    ensures MovePosition(m) == "(" + [DigitChar(m / 3 + 1)] + "," + [DigitChar(m % 3 + 1)] + ")"
    ensures 1 <= m / 3 + 1 <= 3 && 1 <= m % 3 + 1 <= 3
    ensures ParsePosition(MovePosition(m)) == Some(m)
  {
  }

  /** The number the source's `movePosition` receives for a move slot: an
      unset slot is `null`, which `%`, `-` and `/` treat as 0. */
  function SlotNumber(slot: Option<Cell>): Cell {
    match slot
    case Some(m) => m
    case None => 0
  }

  /** One rendered entry: a jump button for every step but the current one,
      which is shown as plain text. */
  datatype Entry = JumpButton(step: nat, text: string) | Marker(text: string)

  /** The `description` of step `move`. */
  function Description(move: nat, movesHistory: seq<Option<Cell>>): string
    requires move <= |movesHistory|
  {
    if move > 0 then "Go to move #" + Decimal(move) + " " + MovePosition(SlotNumber(movesHistory[move - 1]))
    else "Go to game start"
  }

  /** The text shown for the current step. */
  function MarkerText(currentMove: nat, movesHistory: seq<Option<Cell>>): string
    requires currentMove <= |movesHistory|
  {
    "You are at move #" + Decimal(currentMove) + " " +
    (if currentMove > 0 then MovePosition(SlotNumber(movesHistory[currentMove - 1])) else "")
  }

  /** `history.map(...)`: one entry per step, in step order. */
  function Moves(historyLength: nat, movesHistory: seq<Option<Cell>>, currentMove: nat): (r: seq<Entry>)
    requires historyLength <= |movesHistory| + 1
    ensures |r| == historyLength
    ensures forall k :: 0 <= k < |r| ==> (r[k].Marker? <==> k == currentMove)
    ensures forall k :: 0 <= k < |r| && r[k].JumpButton? ==> r[k].step == k
  {
    seq(historyLength, move requires 0 <= move < historyLength =>
      if move != currentMove then JumpButton(move, Description(move, movesHistory))
      else Marker(MarkerText(currentMove, movesHistory)))
  }

  /** The first entry: "Go to game start" as a jump button, or, when step 0
      is the current one, the marker "You are at move #0 " (with no position
      after the space). */
  lemma FirstEntry(historyLength: nat, movesHistory: seq<Option<Cell>>, currentMove: nat)
    requires 1 <= historyLength <= |movesHistory| + 1
    ensures currentMove != 0 ==> Moves(historyLength, movesHistory, currentMove)[0] == JumpButton(0, "Go to game start")
    ensures currentMove == 0 ==> Moves(historyLength, movesHistory, currentMove)[0] == Marker("You are at move #0 ")
  {
    assert Decimal(0) == "0";
    assert MarkerText(0, movesHistory) == "You are at move #0 ";
  }

  /** In a well-played game the entry of every step `k > 0` reads
      "Go to move #" (or "You are at move #" when `k` is the current step),
      then the decimal digits of `k`, a space and the position of the square
      played to reach board `k`: that square was empty on board `k - 1` and
      holds the mover's mark on board `k`. */
  lemma EntryNamesMove(history: seq<Board>, movesHistory: seq<Option<Cell>>, currentMove: nat, k: nat)
    requires WellPlayed(history, movesHistory) && currentMove < |history|
    requires 0 < k < |history|
    ensures |history| <= |movesHistory| + 1
    ensures var e := Moves(|history|, movesHistory, currentMove)[k];
      var pre := if k == currentMove then "You are at move #" else "Go to move #";
      && |pre| + 7 <= |e.text|
      && e.text[..|pre|] == pre
      && AllDigits(e.text[|pre|..|e.text| - 6])
      && ParseDecimal(e.text[|pre|..|e.text| - 6]) == k
      && e.text[|e.text| - 6] == ' '
      && ParsePosition(e.text[|e.text| - 5..]) == movesHistory[k - 1]
      && movesHistory[k - 1].Some?
      && history[k - 1][movesHistory[k - 1].value] == Empty
      && history[k][movesHistory[k - 1].value] == Filled(MarkForStep(k - 1))
  {
    HistoryBound(history, movesHistory);
    assert StepPlayed(history, movesHistory, k - 1);
    var m := movesHistory[k - 1].value;
    PositionRoundTrip(m);
    DecimalRoundTrip(k);
    var e := Moves(|history|, movesHistory, currentMove)[k];
    var pre := if k == currentMove then "You are at move #" else "Go to move #";
    assert SlotNumber(movesHistory[k - 1]) == m;
    if k == currentMove {
      assert e == Marker(MarkerText(k, movesHistory));
    }
    assert e.text == pre + Decimal(k) + " " + MovePosition(m);
    assert e.text[..|pre|] == pre;
    assert e.text[|pre|..|e.text| - 6] == Decimal(k);
    assert e.text[|e.text| - 5..] == MovePosition(m);
  }

  /** The elements of `s` last to first. */
  function Reverse<T>(s: seq<T>): seq<T> {
    if s == [] then [] else [s[|s| - 1]] + Reverse(s[..|s| - 1])
  }

  lemma {:induction false} ReverseSpec<T>(s: seq<T>)
    ensures |Reverse(s)| == |s|
    ensures forall k :: 0 <= k < |s| ==> Reverse(s)[k] == s[|s| - 1 - k]
    ensures multiset(Reverse(s)) == multiset(s)
  {
    if s != [] {
      var init := s[..|s| - 1];
      ReverseSpec(init);
      assert s == init + [s[|s| - 1]];
      forall k | 0 <= k < |s| ensures Reverse(s)[k] == s[|s| - 1 - k] {
        if k > 0 {
          assert Reverse(s)[k] == Reverse(init)[k - 1];
        }
      }
    }
  }

  /** `sortAscending ? moves : moves.reverse()`. */
  function Ordered<T>(moves: seq<T>, sortAscending: bool): seq<T> {
    if sortAscending then moves else Reverse(moves)
  }

  /** The order flag changes only the order of the entries: ascending shows
      step order, descending shows the last step first, the same entries
      either way. */
  lemma OrderedSpec<T>(moves: seq<T>, sortAscending: bool)
    ensures |Ordered(moves, sortAscending)| == |moves|
    ensures multiset(Ordered(moves, sortAscending)) == multiset(moves)
    ensures sortAscending ==> Ordered(moves, sortAscending) == moves
    ensures !sortAscending ==> forall k :: 0 <= k < |moves| ==>
      Ordered(moves, sortAscending)[k] == moves[|moves| - 1 - k]
  {
    ReverseSpec(moves);
  }
}
