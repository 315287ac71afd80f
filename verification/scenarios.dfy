/**
 Whole games played click by click from the starting state, and the
 concrete plays the game is expected to handle.
 */
module Scenarios {
  import opened Options
  import opened Board
  import opened Winner
  import opened Game
  import opened View

  /** The state after the player clicks the given squares in order. */
  function Play(g: GameState, clicks: seq<Square>): (r: GameState)
    requires g.stepNumber < |g.history|
    ensures r.stepNumber < |r.history|
    ensures r.sort == g.sort
    ensures r.stepNumber <= g.stepNumber + |clicks|
    decreases |clicks|
  {
    if clicks == [] then g
    else Play(HandleClick(g, clicks[0]), clicks[1..])
  }

  /** Any sequence of clicks from a valid state ends in a valid state. */
  lemma {:induction false} PlayPreservesValid(g: GameState, clicks: seq<Square>)
    requires Valid(g)
    decreases |clicks|
    ensures Valid(Play(g, clicks))
  {
    if clicks != [] {
      HandleClickPreservesValid(g, clicks[0]);
      PlayPreservesValid(HandleClick(g, clicks[0]), clicks[1..]);
    }
  }

  /** Every state the game can reach by clicks from its start is valid. */
  lemma ReachableStatesValid(clicks: seq<Square>)
    ensures Valid(Play(Initial(), clicks))
  {
    InitialValid();
    PlayPreservesValid(Initial(), clicks);
  }

  /** Every click of the run lands on an empty square of an undecided
      board, the marks alternating from `x`. */
  predicate AllAccepted(b: Board, x: bool, clicks: seq<Square>)
    decreases |clicks|
  {
    clicks == [] ||
    (&& CalculateWinner(b).None?
     && b[clicks[0]] == Empty
     && AllAccepted(b[clicks[0] := Mark(x)], !x, clicks[1..]))
  }

  /** The board after placing alternating marks, starting with `x`, on the
      clicked squares. */
  function Placed(b: Board, x: bool, clicks: seq<Square>): Board
    decreases |clicks|
  {
    if clicks == [] then b else Placed(b[clicks[0] := Mark(x)], !x, clicks[1..])
  }

  /** One accepted click in front of an accepted run. */
  lemma AcceptedStep(b: Board, x: bool, clicks: seq<Square>, after: Board)
    requires clicks != []
    requires CalculateWinner(b).None? && b[clicks[0]] == Empty
    requires after == b[clicks[0] := Mark(x)]
    requires AllAccepted(after, !x, clicks[1..])
    ensures AllAccepted(b, x, clicks)
  {
  }

  /** A run of accepted clicks extends the history by one snapshot per
      click, ends on its last snapshot, and displays the board with the
      clicked squares filled by alternating marks. */
  lemma {:induction false} PlayAccepted(g: GameState, clicks: seq<Square>)
    requires g.stepNumber < |g.history|
    requires AllAccepted(Current(g), g.xIsNext, clicks)
    decreases |clicks|
    ensures var r := Play(g, clicks);
      && r.stepNumber == g.stepNumber + |clicks|
      && (|clicks| > 0 ==> |r.history| == r.stepNumber + 1)
      && Current(r) == Placed(Current(g), g.xIsNext, clicks)
  {
    if clicks != [] {
      var i := clicks[0];
      assert CalculateWinner(Current(g)).None? && Current(g)[i] == Empty;
      var next := HandleClick(g, i);
      assert next != g;
      assert Current(next) == Current(g)[i := Mark(g.xIsNext)];
      PlayAccepted(next, clicks[1..]);
      assert Play(g, clicks) == Play(next, clicks[1..]);
    }
  }

  /** After X 0, O 1, the clicks X 4, O 2, X 8 are all accepted. */
  lemma DiagonalLateRun()
    ensures AllAccepted([X, O, Empty, Empty, Empty, Empty, Empty, Empty, Empty], true, [4, 2, 8])
    ensures Placed([X, O, Empty, Empty, Empty, Empty, Empty, Empty, Empty], true, [4, 2, 8]) == [X, O, O, Empty, X, Empty, Empty, Empty, X]
  {
    var b2 := [X, O, Empty, Empty, Empty, Empty, Empty, Empty, Empty];
    var b3 := [X, O, Empty, Empty, X, Empty, Empty, Empty, Empty];
    var b4 := [X, O, O, Empty, X, Empty, Empty, Empty, Empty];
    var b5 := [X, O, O, Empty, X, Empty, Empty, Empty, X];
    AcceptedStep(b4, true, [8], b5);
    AcceptedStep(b3, false, [2, 8], b4);
    AcceptedStep(b2, true, [4, 2, 8], b3);
  }

  /** X 0, O 1, X 4, O 2, X 8: every click is accepted. */
  lemma DiagonalRun()
    ensures AllAccepted([Empty, Empty, Empty, Empty, Empty, Empty, Empty, Empty, Empty], true, [0, 1, 4, 2, 8])
    ensures Placed([Empty, Empty, Empty, Empty, Empty, Empty, Empty, Empty, Empty], true, [0, 1, 4, 2, 8]) == [X, O, O, Empty, X, Empty, Empty, Empty, X]
  {
    DiagonalLateRun();
    var b0 := [Empty, Empty, Empty, Empty, Empty, Empty, Empty, Empty, Empty];
    var b1 := [X, Empty, Empty, Empty, Empty, Empty, Empty, Empty, Empty];
    var b2 := [X, O, Empty, Empty, Empty, Empty, Empty, Empty, Empty];
    AcceptedStep(b1, false, [1, 4, 2, 8], b2);
    AcceptedStep(b0, true, [0, 1, 4, 2, 8], b1);
  }

  /** `PlayAccepted` for a state whose displayed board and turn are given. */
  lemma PlayAcceptedFrom(g: GameState, b: Board, x: bool, clicks: seq<Square>)
    requires g.stepNumber < |g.history| && Current(g) == b && g.xIsNext == x
    requires AllAccepted(b, x, clicks)
    ensures Current(Play(g, clicks)) == Placed(b, x, clicks)
  {
    PlayAccepted(g, clicks);
  }

  /** X takes 0, 4 and 8 while O takes 1 and 2: X wins on the diagonal, and
      a further click changes nothing. */
  lemma DiagonalWin()
    ensures var g := Play(Initial(), [0, 1, 4, 2, 8]);
      && Current(g) == [X, O, O, Empty, X, Empty, Empty, Empty, X]
      && CalculateWinner(Current(g)) == Some(WinResult(X, Triple(0, 4, 8)))
      && Status(g) == WinnerIs(X)
      && HandleClick(g, 5) == g
  {
    assert CalculateWinner([X, O, O, Empty, X, Empty, Empty, Empty, X]) == Some(WinResult(X, Triple(0, 4, 8)));
    assert !IsFull([X, O, O, Empty, X, Empty, Empty, Empty, X]);
    DiagonalRun();
    assert Current(Initial()) == [Empty, Empty, Empty, Empty, Empty, Empty, Empty, Empty, Empty];
    PlayAcceptedFrom(Initial(), [Empty, Empty, Empty, Empty, Empty, Empty, Empty, Empty, Empty], true, [0, 1, 4, 2, 8]);
  }

  /** A full board without three in a row is a draw. */
  lemma FullBoardDraw(g: GameState)
    requires g.stepNumber < |g.history|
    requires Current(g) == [X, O, X, X, O, O, O, X, X]
    ensures CalculateWinner(Current(g)) == None
    ensures Status(g) == Draw
  {
  }

  /** With three snapshots, toggling the order turns the displayed steps
      0, 1, 2 into 2, 1, 0 and leaves the displayed board alone. */
  lemma ToggleSortThreeSnapshots()
    ensures var g := Play(Initial(), [4, 0]);
      && |g.history| == 3
      && [DisplayedMoves(g)[0].move, DisplayedMoves(g)[1].move, DisplayedMoves(g)[2].move] == [0, 1, 2]
      && var t := ToggleSort(g);
         && [DisplayedMoves(t)[0].move, DisplayedMoves(t)[1].move, DisplayedMoves(t)[2].move] == [2, 1, 0]
         && t.stepNumber == g.stepNumber
         && Current(t) == Current(g)
  {
  }

  /** After X 0, O 3, X 1, O 4, X 5, O 6 the clicks X 7, O 8, X 2 are all
      accepted, the last one completing the top row. */
  lemma FinalWinEndRun()
    ensures AllAccepted([X, X, Empty, O, O, X, O, Empty, Empty], true, [7, 8, 2])
    ensures Placed([X, X, Empty, O, O, X, O, Empty, Empty], true, [7, 8, 2]) == [X, X, X, O, O, X, O, X, O]
  {
    var b6 := [X, X, Empty, O, O, X, O, Empty, Empty];
    var b7 := [X, X, Empty, O, O, X, O, X, Empty];
    var b8 := [X, X, Empty, O, O, X, O, X, O];
    var b9 := [X, X, X, O, O, X, O, X, O];
    AcceptedStep(b8, true, [2], b9);
    AcceptedStep(b7, false, [8, 2], b8);
    AcceptedStep(b6, true, [7, 8, 2], b7);
  }

  /** After X 0, O 3, X 1 the clicks O 4, X 5, O 6, X 7, O 8, X 2 are all
      accepted. */
  lemma FinalWinMidRun()
    ensures AllAccepted([X, X, Empty, O, Empty, Empty, Empty, Empty, Empty], false, [4, 5, 6, 7, 8, 2])
    ensures Placed([X, X, Empty, O, Empty, Empty, Empty, Empty, Empty], false, [4, 5, 6, 7, 8, 2]) == [X, X, X, O, O, X, O, X, O]
  {
    FinalWinEndRun();
    var b3 := [X, X, Empty, O, Empty, Empty, Empty, Empty, Empty];
    var b4 := [X, X, Empty, O, O, Empty, Empty, Empty, Empty];
    var b5 := [X, X, Empty, O, O, X, Empty, Empty, Empty];
    var b6 := [X, X, Empty, O, O, X, O, Empty, Empty];
    AcceptedStep(b5, false, [6, 7, 8, 2], b6);
    AcceptedStep(b4, true, [5, 6, 7, 8, 2], b5);
    AcceptedStep(b3, false, [4, 5, 6, 7, 8, 2], b4);
  }

  /** After X 0 the clicks O 3, X 1, O 4, X 5, O 6, X 7, O 8, X 2 are all
      accepted. */
  lemma FinalWinOpeningRun()
    ensures AllAccepted([X, Empty, Empty, Empty, Empty, Empty, Empty, Empty, Empty], false, [3, 1, 4, 5, 6, 7, 8, 2])
    ensures Placed([X, Empty, Empty, Empty, Empty, Empty, Empty, Empty, Empty], false, [3, 1, 4, 5, 6, 7, 8, 2]) == [X, X, X, O, O, X, O, X, O]
  {
    FinalWinMidRun();
    var b1 := [X, Empty, Empty, Empty, Empty, Empty, Empty, Empty, Empty];
    var b2 := [X, Empty, Empty, O, Empty, Empty, Empty, Empty, Empty];
    var b3 := [X, X, Empty, O, Empty, Empty, Empty, Empty, Empty];
    AcceptedStep(b2, true, [1, 4, 5, 6, 7, 8, 2], b3);
    AcceptedStep(b1, false, [3, 1, 4, 5, 6, 7, 8, 2], b2);
  }

  /** X 0, O 3, X 1, O 4, X 5, O 6, X 7, O 8, X 2: every click is accepted. */
  lemma FinalWinRun()
    ensures AllAccepted([Empty, Empty, Empty, Empty, Empty, Empty, Empty, Empty, Empty], true, [0, 3, 1, 4, 5, 6, 7, 8, 2])
    ensures Placed([Empty, Empty, Empty, Empty, Empty, Empty, Empty, Empty, Empty], true, [0, 3, 1, 4, 5, 6, 7, 8, 2]) == [X, X, X, O, O, X, O, X, O]
  {
    FinalWinOpeningRun();
    var b0 := [Empty, Empty, Empty, Empty, Empty, Empty, Empty, Empty, Empty];
    var b1 := [X, Empty, Empty, Empty, Empty, Empty, Empty, Empty, Empty];
    AcceptedStep(b0, true, [0, 3, 1, 4, 5, 6, 7, 8, 2], b1);
  }

  /** The game X wins with its last move ends on a full board. */
  lemma FinalWinBoard()
    ensures Current(Play(Initial(), [0, 3, 1, 4, 5, 6, 7, 8, 2])) == [X, X, X, O, O, X, O, X, O]
  {
    FinalWinRun();
    assert Current(Initial()) == [Empty, Empty, Empty, Empty, Empty, Empty, Empty, Empty, Empty];
    PlayAcceptedFrom(Initial(), [Empty, Empty, Empty, Empty, Empty, Empty, Empty, Empty, Empty], true, [0, 3, 1, 4, 5, 6, 7, 8, 2]);
  }

  /** A winning ninth move is announced as "Draw": X completes the top row
      with the last free square, yet the status line reads "Draw". */
  lemma FinalWinShownAsDraw()
    ensures var g := Play(Initial(), [0, 3, 1, 4, 5, 6, 7, 8, 2]);
      && Current(g) == [X, X, X, O, O, X, O, X, O]
      && CalculateWinner(Current(g)) == Some(WinResult(X, Triple(0, 1, 2)))
      && Status(g) == Draw
      && IntendedStatus(g) == WinnerIs(X)
  {
    assert CalculateWinner([X, X, X, O, O, X, O, X, O]) == Some(WinResult(X, Triple(0, 1, 2)));
    assert IsFull([X, X, X, O, O, X, O, X, O]);
    FinalWinBoard();
  }
}
