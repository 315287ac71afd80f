/**
 The values `Game.render` and `Board.render` derive from the game state: the
 status line, the labels and order of the move list, the highlighted
 squares and the split of the nine squares into three rows.
 */
module View {
  import opened Options
  import opened Board
  import opened Winner
  import opened Game

  // ---------------------------------------------------------------- status

  /** The status line, with the player's mark in place of the literal text. */
  datatype StatusLine = WinnerIs(mark: Cell) | NextPlayer(mark: Cell) | Draw

  /** The status as the game computes it: winner or next player first, then
      overwritten by "Draw" whenever the displayed board is full, even when
      that board has a winner. */
  function Status(g: GameState): (s: StatusLine)
    requires g.stepNumber < |g.history|
    ensures s == Draw <==> IsFull(Current(g))
    ensures s.WinnerIs? <==> !IsFull(Current(g)) && CalculateWinner(Current(g)).Some?
    ensures s.WinnerIs? ==> s.mark == CalculateWinner(Current(g)).value.winner
    ensures s.NextPlayer? <==> !IsFull(Current(g)) && CalculateWinner(Current(g)).None?
    ensures s.NextPlayer? ==> s.mark == Mark(g.xIsNext)
  {
    var squares := Current(g);
    var winner := CalculateWinner(squares);
    var status := if winner.Some? then WinnerIs(winner.value.winner) else NextPlayer(Mark(g.xIsNext));
    if Empty !in squares then Draw else status
  }

  /** The status as evidently intended: a winner is announced even on a full
      board, and "Draw" means a full board nobody has won. */
  function IntendedStatus(g: GameState): (s: StatusLine)
    requires g.stepNumber < |g.history|
    ensures CalculateWinner(Current(g)).Some? ==> s == WinnerIs(CalculateWinner(Current(g)).value.winner)
    ensures s == Draw <==> IsFull(Current(g)) && CalculateWinner(Current(g)).None?
    ensures s.NextPlayer? <==> !IsFull(Current(g)) && CalculateWinner(Current(g)).None?
    ensures s.NextPlayer? ==> s.mark == Mark(g.xIsNext)
  {
    var winner := CalculateWinner(Current(g));
    if winner.Some? then WinnerIs(winner.value.winner)
    else if IsFull(Current(g)) then Draw
    else NextPlayer(Mark(g.xIsNext))
  }

  /** The two status functions disagree exactly on a full board with a winner. */
  lemma StatusDiffersOnlyOnFullWonBoard(g: GameState)
    requires g.stepNumber < |g.history|
    ensures Status(g) != IntendedStatus(g) <==> IsFull(Current(g)) && CalculateWinner(Current(g)).Some?
  {
  }

  /** In a valid state the game shows "Draw" exactly at step 9. */
  lemma DrawExactlyAtStepNine(g: GameState)
    requires Valid(g)
    ensures Status(g) == Draw <==> g.stepNumber == Size
  {
    HistoryBounded(g);
  }

  // ----------------------------------------------------------- move labels

  /** The label of one entry of the move list: the start of the game, or a
      move number with the column and row (both from 1) of its square. */
  datatype Label = StartOfGame | GoToMove(move: nat, column: int, row: int)

  /** Arithmetic on `targetSquare` treats the start entry's `null` as 0. */
  function TargetNumber(t: Option<nat>): nat {
    if t.Some? then t.value else 0
  }

  /** The label of history entry `move`. */
  function MoveLabel(e: Entry, move: nat): (l: Label)
    ensures l == StartOfGame <==> move == 0
    ensures l.GoToMove? ==> l.move == move
  {
    if move == 0 then StartOfGame
    else
      var t := TargetNumber(e.targetSquare);
      GoToMove(move, t % 3 + 1, t / 3 + 1)
  }

  /** The square at a 1-based column and row. */
  function SquareAt(column: int, row: int): int {
    (row - 1) * 3 + (column - 1)
  }

  /** For a square on the board, the label's column and row lie in 1..3
      and name that very square back. */
  lemma LabelCoordinates(e: Entry, move: nat)
    requires move > 0 && e.targetSquare.Some? && e.targetSquare.value < Size
    ensures var l := MoveLabel(e, move);
      && 1 <= l.column <= 3 && 1 <= l.row <= 3
      && SquareAt(l.column, l.row) == e.targetSquare.value
  {
  }

  /** Two moves on different squares get different coordinates. */
  lemma LabelsDistinguishSquares(e: Entry, e': Entry, move: nat)
    requires move > 0
    requires e.targetSquare.Some? && e.targetSquare.value < Size
    requires e'.targetSquare.Some? && e'.targetSquare.value < Size
    requires e.targetSquare != e'.targetSquare
    ensures MoveLabel(e, move) != MoveLabel(e', move)
  {
    LabelCoordinates(e, move);
    LabelCoordinates(e', move);
  }

  /** In a valid history the label of move `k` names the one square on which
      snapshots `k - 1` and `k` differ. */
  lemma LabelNamesChangedSquare(g: GameState, k: nat)
    requires Valid(g) && 0 < k < |g.history|
    ensures var l := MoveLabel(g.history[k], k);
      && 0 <= SquareAt(l.column, l.row) < Size
      && g.history[k].squares[SquareAt(l.column, l.row)] != g.history[k - 1].squares[SquareAt(l.column, l.row)]
      && forall j :: 0 <= j < Size && j != SquareAt(l.column, l.row) ==>
           g.history[k].squares[j] == g.history[k - 1].squares[j]
  {
    SingleSquareDifference(g, k);
    LabelCoordinates(g.history[k], k);
  }

  // ------------------------------------------------------------- move list

  /** One entry of the move list: its step, its label and whether it is the
      step on display. */
  datatype MoveItem = MoveItem(move: nat, desc: Label, selected: bool)

  /** `history.map(...)`: the move list in history order. */
  function Moves(g: GameState): (ms: seq<MoveItem>)
    ensures |ms| == |g.history|
    ensures forall m :: 0 <= m < |ms| ==> ms[m].move == m
    ensures forall m :: 0 <= m < |ms| ==>
      ms[m].desc == MoveLabel(g.history[m], m) && ms[m].selected == (g.stepNumber == m)
  {
    seq(|g.history|, m requires 0 <= m < |g.history| =>
      MoveItem(m, MoveLabel(g.history[m], m), g.stepNumber == m))
  }

  /** `moves.slice().reverse()`. */
  function Reverse<T>(s: seq<T>): (r: seq<T>)
    ensures |r| == |s|
    ensures forall k :: 0 <= k < |s| ==> r[k] == s[|s| - 1 - k]
  {
    if s == [] then [] else Reverse(s[1..]) + [s[0]]
  }

  /** Reversing twice gives the sequence back. */
  lemma ReverseInvolution<T>(s: seq<T>)
    ensures Reverse(Reverse(s)) == s
  {
  }

  /** The move list as displayed: history order, or its reverse when the
      sort flag is set. */
  function DisplayedMoves(g: GameState): (ms: seq<MoveItem>)
    ensures |ms| == |g.history|
    ensures !g.sort ==> forall k :: 0 <= k < |ms| ==> ms[k].move == k
    ensures g.sort ==> forall k :: 0 <= k < |ms| ==> ms[k].move == |ms| - 1 - k
    ensures !g.sort ==> ms == Moves(g)
    ensures g.sort ==> forall k :: 0 <= k < |ms| ==> ms[k] == Moves(g)[|ms| - 1 - k]
  {
    if g.sort then Reverse(Moves(g)) else Moves(g)
  }

  /** Toggling the order shows the same items in exactly the reverse order. */
  lemma ToggleSortReversesDisplay(g: GameState)
    ensures DisplayedMoves(ToggleSort(g)) == Reverse(DisplayedMoves(g))
  {
    if g.sort {
      ReverseInvolution(Moves(g));
    }
    assert Moves(ToggleSort(g)) == Moves(g);
  }

  /** In a valid state exactly one item of the list is marked as on display:
      the one for the displayed step, wherever the order puts it. */
  lemma ExactlyOneSelected(g: GameState)
    requires Valid(g)
    ensures var ms := DisplayedMoves(g);
      && (exists k :: 0 <= k < |ms| && ms[k].selected)
      && (forall k, k' :: 0 <= k < |ms| && 0 <= k' < |ms| && ms[k].selected && ms[k'].selected ==> k == k')
      && (forall k :: 0 <= k < |ms| ==> (ms[k].selected <==> ms[k].move == g.stepNumber))
  {
    var ms := DisplayedMoves(g);
    var k := if g.sort then |ms| - 1 - g.stepNumber else g.stepNumber;
    assert ms[k].selected;
  }

  // -------------------------------------------------------- active squares

  /** `renderSquare(i)`'s `active`: square `i` belongs to the winning line. */
  function Active(b: Board, i: nat): (active: bool)
    ensures active ==> CalculateWinner(b).Some? && i < Size && b[i] == CalculateWinner(b).value.winner
  {
    CalculateWinnerSpec(b);
    var winner := CalculateWinner(b);
    winner.Some? && i in [winner.value.line.a, winner.value.line.b, winner.value.line.c]
  }

  /** With a winner exactly the three squares of its line are highlighted;
      without one none is. */
  lemma ActiveSquares(b: Board)
    ensures var active := set i | 0 <= i < Size && Active(b, i);
      && (CalculateWinner(b).None? ==> active == {})
      && (CalculateWinner(b).Some? ==>
            var line := CalculateWinner(b).value.line;
            active == {line.a, line.b, line.c} && |active| == 3)
  {
    var active := set i | 0 <= i < Size && Active(b, i);
    var w := CalculateWinner(b);
    if w.Some? {
      var line := w.value.line;
      WinningLineWellFormed(b);
      var cells := {line.a, line.b, line.c};
      forall i | i in cells
        ensures i in active
      {
        assert Active(b, i);
      }
      assert active == cells;
      assert |cells - {line.a}| == 2 by {
        assert cells - {line.a} == {line.b, line.c};
      }
    } else {
      assert active == {};
    }
  }

  // ------------------------------------------------------------ board rows

  function Min(a: int, b: int): int {
    if a < b then a else b
  }

  /** `Board.render`'s loop: cuts the square keys into rows of three, the
      last row taking whatever is left. */
  method BoardRows(keys: seq<nat>) returns (rows: seq<seq<nat>>)
    ensures |rows| == (|keys| + 2) / 3
    ensures forall r :: 0 <= r < |rows| ==> |rows[r]| == Min(3, |keys| - 3 * r)
    ensures forall r, c :: 0 <= r < |rows| && 0 <= c < |rows[r]| ==> 3 * r + c < |keys| && rows[r][c] == keys[3 * r + c]
  {
    rows := [];
    var rest := keys;
    while |rest| > 0
      invariant |rest| <= |keys|
      invariant rest == keys[|keys| - |rest|..]
      invariant |rest| > 0 ==> |keys| - |rest| == 3 * |rows|
      invariant |rest| == 0 ==> |rows| == (|keys| + 2) / 3
      invariant forall r :: 0 <= r < |rows| ==> |rows[r]| == Min(3, |keys| - 3 * r)
      invariant forall r, c :: 0 <= r < |rows| && 0 <= c < |rows[r]| ==> 3 * r + c < |keys| && rows[r][c] == keys[3 * r + c]
      decreases |rest|
    {
      var n := Min(3, |rest|);
      rows := rows + [rest[..n]];
      rest := rest[n..];
    }
  }

  /** The nine squares of a board as three rows of three, row `r` holding
      squares `3r`, `3r + 1`, `3r + 2`. */
  method BoardLayout() returns (rows: seq<seq<nat>>)
    ensures |rows| == 3
    ensures forall r :: 0 <= r < 3 ==> |rows[r]| == 3
    ensures forall r, c :: 0 <= r < 3 && 0 <= c < 3 ==> rows[r][c] == 3 * r + c
  {
    rows := BoardRows(seq(Size, i => i));
  }
}
