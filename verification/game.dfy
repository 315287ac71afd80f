/**
 The state of the `Game` component and its three transitions: a click on a
 square (`handleClick`), a jump to an earlier move (`jumpTo`) and the
 toggle of the move-list order (`sort`). Each transition is a pure function
 from the old state to the new one.
 */
module Game {
  import opened Options
  import opened Board
  import opened Winner

  /** One history snapshot: the board and the square whose move produced it
      (`None` for the start of the game). */
  datatype Entry = Entry(squares: Board, targetSquare: Option<nat>)

  /** `this.state` of the game. */
  datatype GameState = GameState(history: seq<Entry>, stepNumber: nat, xIsNext: bool, sort: bool)

  /** The first history entry: the empty board, produced by no move. */
  function StartEntry(): Entry {
    Entry(EmptyBoard(), None)
  }

  /** The state the game is constructed with. */
  function Initial(): (g: GameState)
    ensures |g.history| == 1 && g.history[0].squares == EmptyBoard() && g.history[0].targetSquare == None
    ensures g.stepNumber == 0 && g.xIsNext && !g.sort
  {
    GameState([StartEntry()], 0, true, false)
  }

  /** The mark placed by the move that leads from step `k` to step `k + 1`:
      X moves from even steps, O from odd ones. */
  function MarkAfter(k: nat): (m: Cell)
    ensures m != Empty
  {
    Mark(k % 2 == 0)
  }

  /** Entry `next`, at history index `k + 1`, is obtained from `prev` by
      playing the mover's mark on an empty square of an undecided board. */
  predicate Follows(prev: Entry, next: Entry, k: nat) {
    && next.targetSquare.Some?
    && next.targetSquare.value < Size
    && prev.squares[next.targetSquare.value] == Empty
    && CalculateWinner(prev.squares).None?
    && next.squares == prev.squares[next.targetSquare.value := MarkAfter(k)]
  }

  /** The invariant every state of the game keeps. */
  predicate Valid(g: GameState) {
    && 0 < |g.history|
    && g.stepNumber < |g.history|
    && g.history[0] == StartEntry()
    && g.xIsNext == (g.stepNumber % 2 == 0)
    && forall k :: 0 <= k < |g.history| - 1 ==> Follows(g.history[k], g.history[k + 1], k)
  }

  /** The board on display (`history[stepNumber].squares`). */
  function Current(g: GameState): Board
    requires g.stepNumber < |g.history|
  {
    g.history[g.stepNumber].squares
  }

  /** `handleClick(i)`: ignored when the displayed board is won or square `i`
      is taken; otherwise the history after the displayed step is dropped and
      one new snapshot, with the mover's mark on square `i`, is appended. */
  function HandleClick(g: GameState, i: nat): (r: GameState)
    requires i < Size
    requires g.stepNumber < |g.history|
    ensures r == g <==> (CalculateWinner(Current(g)).Some? || Current(g)[i] != Empty)
    ensures r != g ==>
      && |r.history| == g.stepNumber + 2
      && r.history[..g.stepNumber + 1] == g.history[..g.stepNumber + 1]
      && r.stepNumber == g.stepNumber + 1
      && r.history[r.stepNumber].targetSquare == Some(i)
      && Current(r)[i] == Mark(g.xIsNext)
      && (forall j :: 0 <= j < Size && j != i ==> Current(r)[j] == Current(g)[j])
      && r.xIsNext == !g.xIsNext
      && r.sort == g.sort
  {
    var history := g.history[..g.stepNumber + 1];
    var current := history[|history| - 1];
    var squares := current.squares;
    if CalculateWinner(squares).Some? || squares[i] != Empty then
      g
    else
      var next := Entry(squares[i := Mark(g.xIsNext)], Some(i));
      assert (history + [next])[|history|] == next;
      g.(history := history + [next], stepNumber := |history|, xIsNext := !g.xIsNext)
  }

  /** `jumpTo(step)`: only the displayed step and whose turn it is change. */
  function JumpTo(g: GameState, step: nat): (r: GameState)
    requires step < |g.history|
    ensures r.history == g.history && r.sort == g.sort
    ensures r.stepNumber == step
    ensures r.xIsNext <==> step % 2 == 0
  {
    g.(stepNumber := step, xIsNext := step % 2 == 0)
  }

  /** `sort()`: only the order flag of the move list flips. */
  function ToggleSort(g: GameState): (r: GameState)
    ensures r.sort == !g.sort
    ensures r.history == g.history && r.stepNumber == g.stepNumber && r.xIsNext == g.xIsNext
  {
    g.(sort := !g.sort)
  }

  /** The game starts in a valid state. */
  lemma InitialValid()
    ensures Valid(Initial())
  {
  }

  /** An accepted click in a valid state keeps steps 0..s of the history
      and appends the snapshot with the mover's mark on square `i`. */
  lemma AcceptedClickAppends(g: GameState, i: nat)
    requires Valid(g) && i < Size && HandleClick(g, i) != g
    ensures var r := HandleClick(g, i);
      && |r.history| == g.stepNumber + 2
      && (forall k :: 0 <= k <= g.stepNumber ==> r.history[k] == g.history[k])
      && r.history[g.stepNumber + 1] == Entry(Current(g)[i := MarkAfter(g.stepNumber)], Some(i))
      && CalculateWinner(Current(g)).None? && Current(g)[i] == Empty
      && r.stepNumber == g.stepNumber + 1
      && r.xIsNext == (r.stepNumber % 2 == 0)
  {
    var r := HandleClick(g, i);
    var s := g.stepNumber;
    forall k | 0 <= k <= s
      ensures r.history[k] == g.history[k]
    {
      assert r.history[k] == r.history[..s + 1][k];
    }
  }

  /** A click, accepted or ignored, keeps the invariant. */
  lemma HandleClickPreservesValid(g: GameState, i: nat)
    requires Valid(g) && i < Size
    ensures Valid(HandleClick(g, i))
  {
    var r := HandleClick(g, i);
    if r != g {
      var s := g.stepNumber;
      AcceptedClickAppends(g, i);
      forall k | 0 <= k < |r.history| - 1
        ensures Follows(r.history[k], r.history[k + 1], k)
      {
        if k < s {
          assert Follows(g.history[k], g.history[k + 1], k);
        }
      }
    }
  }

  /** A jump to an existing step keeps the invariant. */
  lemma JumpToPreservesValid(g: GameState, step: nat)
    requires Valid(g) && step < |g.history|
    ensures Valid(JumpTo(g, step))
  {
  }

  /** Toggling the order keeps the invariant. */
  lemma ToggleSortPreservesValid(g: GameState)
    requires Valid(g)
    ensures Valid(ToggleSort(g))
  {
  }

  /** Toggling the order twice restores the state. */
  lemma ToggleSortInvolution(g: GameState)
    ensures ToggleSort(ToggleSort(g)) == g
  {
  }

  /** In a valid state, jumping to the displayed step changes nothing. */
  lemma JumpToCurrentIsIdentity(g: GameState)
    requires Valid(g)
    ensures JumpTo(g, g.stepNumber) == g
  {
  }

  /** Branching: a move accepted after jumping back to step `k` keeps steps
      0..k and discards the rest, leaving `k + 2` snapshots. */
  lemma MoveAfterJumpTruncates(g: GameState, k: nat, i: nat)
    requires Valid(g) && k < |g.history| && i < Size
    requires HandleClick(JumpTo(g, k), i) != JumpTo(g, k)
    ensures |HandleClick(JumpTo(g, k), i).history| == k + 2
    ensures HandleClick(JumpTo(g, k), i).history[..k + 1] == g.history[..k + 1]
  {
  }

  /** Snapshot `k` of a valid history holds exactly `k` marks. */
  lemma {:induction false} EmptySquaresAtStep(g: GameState, k: nat)
    requires Valid(g) && k < |g.history|
    ensures CountEmpty(g.history[k].squares) == Size - k
  {
    if k > 0 {
      EmptySquaresAtStep(g, k - 1);
      assert Follows(g.history[k - 1], g.history[k], k - 1);
      var t := g.history[k].targetSquare.value;
      CountEmptyAfterMove(g.history[k - 1].squares, t, MarkAfter(k - 1));
    }
  }

  /** A valid history holds at most ten snapshots (nine moves), and the
      displayed board is full exactly at step 9. */
  lemma HistoryBounded(g: GameState)
    requires Valid(g)
    ensures |g.history| <= Size + 1
    ensures IsFull(Current(g)) <==> g.stepNumber == Size
  {
    EmptySquaresAtStep(g, |g.history| - 1);
    EmptySquaresAtStep(g, g.stepNumber);
  }

  /** Only the last snapshot of a valid history can be won: every earlier
      one was clicked on, which a won board refuses. */
  lemma OnlyLastSnapshotDecided(g: GameState, k: nat)
    requires Valid(g) && k + 1 < |g.history|
    ensures CalculateWinner(g.history[k].squares).None?
  {
    assert Follows(g.history[k], g.history[k + 1], k);
  }

  /** Consecutive snapshots differ in exactly the square the later one
      records, which goes from empty to X after an even step and to O after
      an odd one. */
  lemma SingleSquareDifference(g: GameState, k: nat)
    requires Valid(g) && 0 < k < |g.history|
    ensures g.history[k].targetSquare.Some?
    ensures var t := g.history[k].targetSquare.value;
      && t < Size
      && g.history[k - 1].squares[t] == Empty
      && g.history[k].squares[t] == (if k % 2 == 1 then X else O)
      && forall j :: 0 <= j < Size && j != t ==> g.history[k].squares[j] == g.history[k - 1].squares[j]
  {
    assert Follows(g.history[k - 1], g.history[k], k - 1);
  }
}
