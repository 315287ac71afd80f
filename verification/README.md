# Tic-tac-toe game model

A Dafny model of the tic-tac-toe game in `my-app/src/index.js`, covering:

- the win evaluator `calculateWinner`;
- the state of the `Game` component (`history` of `{squares, targetSquare}` snapshots, `stepNumber`, `xIsNext`, `sort`);
- its three transitions `handleClick`, `jumpTo` and `sort`;
- the values `render` derives from the state: the status line, the move labels, the order of the move list, the highlighted winning squares and the split of the board into rows.

Each transition is a pure function from the old state to the new one. Lemmas relate the transitions to an invariant (`Game.Valid`) that every reachable state keeps.

Modules, one per file:

| module | file | contents |
|---|---|---|
| `Options` | `options.dfy` | `Option`, standing for `null` |
| `Board` | `board.dfy` | cells, the nine-cell board, counting empty squares |
| `Winner` | `winner.dfy` | `calculateWinner` and its specification as "first complete line in list order" |
| `Game` | `game.dfy` | the state, the transitions, the invariant and what it implies about the history |
| `View` | `view.dfy` | status, labels, move list, active squares, board rows |
| `Scenarios` | `scenarios.dfy` | `Play` (a sequence of clicks from a state), reachability and concrete games |

Line 127 replaces any status with "Draw" once the displayed board has no empty square, even when the board has a winner. Lines 121-122 exist to announce the winner, and line 135 still highlights `winner.line` on that full board while the status reads "Draw". So the override looks unintended. `View.Status` models the code as written, `View.IntendedStatus` the corrected order, and the discrepancy is logged under Findings.

## Model

| member | source | states |
|---|---|---|
| Board.Mark | my-app/src/index.js:74 | The mover's mark is never empty, and it is X exactly when `xIsNext` holds. |
| Board.EmptyBoard | my-app/src/index.js:56 | The starting board has all nine squares empty. |
| Board.IsFull | my-app/src/index.js:127 | No contract of its own: it is `indexOf(null) === -1` itself. Board.CountEmpty relates it to the number of empty squares, and Game.HistoryBounded shows that in a valid state it holds exactly at step 9. |
| Board.CountEmpty | my-app/src/index.js:127 | The number of empty squares is 0 exactly when no square is empty (`indexOf(null) === -1`), and equals the length exactly when every square is empty. |
| Board.CountEmptyAfterMove | my-app/src/index.js:74 | Placing a mark on an empty square lowers the number of empty squares by exactly one. |
| Winner.Scan | my-app/src/index.js:168-174 | No contract of its own: it is the loop from iteration `k`, and Winner.ScanSpec states what it computes. |
| Winner.CalculateWinner | my-app/src/index.js:157-175 | No contract of its own: it is the loop from iteration 0. Winner.CalculateWinnerSpec states what it computes, and Winner.FirstCompleteLineWins gives the tie-break. |
| Winner.ScanSpec | my-app/src/index.js:168-174 | The loop from iteration `k` returns null exactly when no triple from `k` on is complete. Otherwise it returns the first complete triple from `k`, with the mark of its squares. |
| Winner.CalculateWinnerSpec | my-app/src/index.js:157-175 | The evaluator returns null exactly when none of the eight triples is complete, whatever the fill level. A result names a listed triple whose three squares hold the same non-empty mark, and that mark is `winner`. The result is the first complete triple in list order. |
| Winner.FirstCompleteLineWins | my-app/src/index.js:158-172 | Tie-break: when triple `j` is complete and no earlier triple is, the result is exactly triple `j`, even if later triples are complete too. |
| Winner.LinesWellFormed | my-app/src/index.js:158-167 | Every listed triple names three distinct squares of the board. |
| Winner.WinningLineWellFormed | my-app/src/index.js:169-171 | The reported line names three distinct squares of the board. |
| Winner.EmptyBoardNoWinner | my-app/src/index.js:56 | The starting board has no winner. |
| Game.StartEntry | my-app/src/index.js:55-58 | No contract of its own: the empty board with no target. Game.Initial, Game.InitialValid and Winner.EmptyBoardNoWinner state its properties. |
| Game.Current | my-app/src/index.js:67 | No contract of its own: the snapshot at `stepNumber`, which line 67 reaches as the last element of the truncated history and line 101 directly. Every click and status contract is stated in terms of it. |
| Game.Initial | my-app/src/index.js:54-62 | The constructor's state: one empty snapshot with no target, step 0, X to move, ascending order. |
| Game.HandleClick | my-app/src/index.js:65-84 | The state is unchanged exactly when the displayed board has a winner or square `i` is taken. Otherwise: the history keeps steps 0..stepNumber and gains one snapshot (length stepNumber + 2), and the new step is its last index. The new board equals the displayed one except that square `i` holds the mover's mark. `targetSquare` is `i`, the turn flips and the sort flag stays. |
| Game.JumpTo | my-app/src/index.js:86-91 | Only the step (set to `step`) and the turn (X exactly on even steps) change. History and sort flag are untouched. |
| Game.ToggleSort | my-app/src/index.js:93-97 | Only the sort flag changes, and it is negated. |
| Game.InitialValid | my-app/src/index.js:54-62 | The starting state satisfies the invariant: a non-empty history starting with the empty board, step in range, X to move exactly on even steps, and every snapshot one accepted move after the previous one. |
| Game.AcceptedClickAppends | my-app/src/index.js:66-82 | In a valid state an accepted click keeps snapshots 0..stepNumber and appends the displayed board with the mark for the current step on square `i`. |
| Game.HandleClickPreservesValid | my-app/src/index.js:65-84 | A click, accepted or ignored, keeps the invariant. |
| Game.JumpToPreservesValid | my-app/src/index.js:86-91 | A jump to an existing step keeps the invariant. |
| Game.ToggleSortPreservesValid | my-app/src/index.js:93-97 | Toggling the order keeps the invariant. |
| Game.ToggleSortInvolution | my-app/src/index.js:93-97 | Toggling twice restores the state. |
| Game.JumpToCurrentIsIdentity | my-app/src/index.js:86-91 | In a valid state a jump to the displayed step changes nothing. |
| Game.MoveAfterJumpTruncates | my-app/src/index.js:66-81 | An accepted move after jumping back to step `k` keeps snapshots 0..k, drops the rest, and leaves k + 2 snapshots. |
| Game.EmptySquaresAtStep | my-app/src/index.js:74-80 | Snapshot `k` of a valid history has exactly 9 - k empty squares. |
| Game.HistoryBounded | my-app/src/index.js:70-82 | A valid history has at most ten snapshots, and the displayed board is full exactly at step 9. |
| Game.OnlyLastSnapshotDecided | my-app/src/index.js:70-72 | Every snapshot but the last of a valid history has no winner. |
| Game.SingleSquareDifference | my-app/src/index.js:74-80 | Consecutive snapshots differ only on the recorded target square. That square goes from empty to X after an even step and to O after an odd one. |
| View.Status | my-app/src/index.js:120-127 | The status as written: "Draw" exactly when the board is full, even with a winner. "Winner" exactly when the board is not full and has a winner, with the winner's mark. "Next player" exactly when the board is neither full nor won, with the mover's mark. |
| View.IntendedStatus | my-app/src/index.js:120-127 | The corrected status: any winner is announced. "Draw" exactly for a full board without a winner. "Next player" exactly for a board neither full nor won. |
| View.StatusDiffersOnlyOnFullWonBoard | my-app/src/index.js:127 | The status as written and the corrected status differ exactly on a full board that has a winner. |
| View.DrawExactlyAtStepNine | my-app/src/index.js:127 | In a valid state "Draw" is shown exactly at step 9. |
| View.MoveLabel | my-app/src/index.js:108-110 | Entry 0 is labelled as the start of the game. Every other entry carries its own move number. |
| View.TargetNumber | my-app/src/index.js:105-106 | No contract of its own: the label arithmetic's use of `targetSquare`, where `null` would count as 0. View.MoveLabel never applies it to entry 0, and Game.SingleSquareDifference shows that every later entry of a valid history has a target. |
| View.LabelCoordinates | my-app/src/index.js:105-106 | For a target square 0..8 the label's column and row lie in 1..3, and `(row - 1) * 3 + (column - 1)` gives the square back. |
| View.LabelsDistinguishSquares | my-app/src/index.js:105-109 | Moves on different squares get different labels. |
| View.LabelNamesChangedSquare | my-app/src/index.js:105-106 | In a valid history the label of move `k` names the one square where snapshots k - 1 and k differ. |
| View.Moves | my-app/src/index.js:104-116 | The move list has one item per snapshot. Item `m` is step `m`, carries the label of snapshot `m`, and is marked active exactly when `m` is the displayed step. |
| View.Reverse | my-app/src/index.js:118 | The reversed list has the same length, and item `k` is the original's item `n - 1 - k`. |
| View.ReverseInvolution | my-app/src/index.js:118 | Reversing twice gives the list back. |
| View.DisplayedMoves | my-app/src/index.js:118 | The displayed list is the move list itself when the flag is off. When it is on, displayed item `k` is move-list item `n - 1 - k`. |
| View.ToggleSortReversesDisplay | my-app/src/index.js:93-118 | After `sort()` the displayed list is exactly the reverse of the one before. |
| View.ExactlyOneSelected | my-app/src/index.js:112 | In a valid state exactly one item of the displayed list is marked active: some item is, no two are, and the marked one is the displayed step, whatever the order. |
| View.Active | my-app/src/index.js:15-19 | A highlighted square exists on the board and holds the winner's mark. |
| View.ActiveSquares | my-app/src/index.js:15-19 | Without a winner no square is highlighted. With one, exactly the three squares of the winning line are highlighted. |
| View.BoardRows | my-app/src/index.js:32-37 | Cutting the keys into rows gives ceil(n / 3) rows. Row `r` holds keys 3r, 3r + 1, ... in order, three of them except possibly the last row. |
| View.BoardLayout | my-app/src/index.js:32-37 | The nine squares form three rows of three, row `r` holding squares 3r, 3r + 1 and 3r + 2. |
| Scenarios.Play | my-app/src/index.js:65-84 | A sequence of clicks leaves the step in range and the sort flag alone, and advances the step by at most one per click. |
| Scenarios.PlayPreservesValid | my-app/src/index.js:65-84 | Any sequence of clicks from a valid state ends in a valid state. |
| Scenarios.ReachableStatesValid | my-app/src/index.js:54-84 | Every state reachable from the start by clicks satisfies the invariant. |
| Scenarios.PlayAccepted | my-app/src/index.js:65-84 | When every click hits an empty square of an undecided board, each click adds one step, the displayed step is the last snapshot, and the board holds alternating marks on the clicked squares. |
| Scenarios.DiagonalWin | my-app/src/index.js:65-84 | After X 0, O 1, X 4, O 2, X 8, X has won on the diagonal 0-4-8, the status announces X, and a further click is ignored. |
| Scenarios.FullBoardDraw | my-app/src/index.js:120-127 | The full board X O X / X O O / O X X has no winner and is shown as "Draw". |
| Scenarios.ToggleSortThreeSnapshots | my-app/src/index.js:93-118 | With three snapshots, toggling the order turns the displayed steps 0, 1, 2 into 2, 1, 0, leaving step and board alone. |
| Scenarios.FinalWinBoard | my-app/src/index.js:65-84 | The clicks 0, 3, 1, 4, 5, 6, 7, 8, 2 from the start end on the displayed board X X X / O O X / O X O. |
| Scenarios.FinalWinShownAsDraw | my-app/src/index.js:120-127 | On that board X has won the top row, yet the status as written is "Draw", while the corrected status announces X. |

## Left out

- Rendering: the JSX of `Square`, `Board` and `Game`, CSS class names and the `ReactDOM.render` mount (lines 5-11, 21-28, 39-47, 129-146, 152-155) are presentation only.
- React's `setState` is asynchronous and merges partial updates. Each transition is modelled as an immediate update of the fields it names.
- Label text: the Russian and English strings of the move list and the status line are not modelled. A label is a move number with a column and row, or a start marker; the status is a winner, next-player or draw value with its mark.
- `Object.keys` yields strings that `renderSquare` turns back into numbers with `parseInt` (lines 17, 32). Keys are modelled as natural numbers throughout.
- Game.HandleClick and Game.JumpTo require an index on the board (0..8) and an existing step. The UI only produces such indices, so the out-of-range cases are preconditions.
- View.MoveLabel: for entry 0 the label is the start marker, and no column or row is computed; the code computes `null % 3 + 1` there but never shows it. The `null`-as-0 branch of View.TargetNumber is reached only by an entry after the first that has no target, and Game.Valid rules that out.
- Scenarios.Play: the contract only bounds the step, because an ignored click leaves the state unchanged. PlayAccepted and PlayPreservesValid give the exact effect.

## Findings

| source | as written | input that shows it | evidently intended | confidence | as-written member | corrected member |
|---|---|---|---|---|---|---|
| my-app/src/index.js:127 | A full board is reported as "Draw" even when it has a winner, because line 127 overwrites the status set on lines 121-125. | From the start, click squares 0, 3, 1, 4, 5, 6, 7, 8, 2. X's ninth move completes the top row on the last free square. | "Winner: X". Lines 121-122 exist to announce the winner, and line 135 still highlights the winning line on the same full board, so the override contradicts the rest of `render`. "Draw" should mean a full board that nobody has won. | high; not executed | Scenarios.FinalWinShownAsDraw | View.IntendedStatus |
