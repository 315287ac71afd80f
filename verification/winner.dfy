/**
 The win evaluator (`calculateWinner`): scans eight fixed triples of squares
 in a fixed order and reports the first one whose three squares hold the same
 mark, together with that mark.
 */
module Winner {
  import opened Options
  import opened Board

  /** Three square indices that win when they all hold the same mark. */
  datatype Triple = Triple(a: nat, b: nat, c: nat)

  /** The winning triples in the order they are checked: the three rows,
      the three columns, then the two diagonals. */
  const Lines: seq<Triple> := [
    Triple(0, 1, 2),
    Triple(3, 4, 5),
    Triple(6, 7, 8),
    Triple(0, 3, 6),
    Triple(1, 4, 7),
    Triple(2, 5, 8),
    Triple(0, 4, 8),
    Triple(2, 4, 6)
  ]

  /** What the evaluator reports: the winning mark and the triple that holds it. */
  datatype WinResult = WinResult(winner: Cell, line: Triple)

  /** The squares of `t` are on the board, non-empty and all equal. */
  predicate Uniform(b: Board, t: Triple) {
    && t.a < Size && t.b < Size && t.c < Size
    && b[t.a] != Empty && b[t.a] == b[t.b] && b[t.a] == b[t.c]
  }

  /** Line `j` is complete on `b` and no line checked from `k` up to `j` is. */
  predicate FirstUniformFrom(b: Board, k: nat, j: nat) {
    && k <= j < |Lines|
    && Uniform(b, Lines[j])
    && forall i :: k <= i < j ==> !Uniform(b, Lines[i])
  }

  /** The loop of `calculateWinner` from iteration `k` onwards. */
  function Scan(b: Board, k: nat): Option<WinResult>
    decreases |Lines| - k
  {
    if k >= |Lines| then None
    else if Uniform(b, Lines[k]) then Some(WinResult(b[Lines[k].a], Lines[k]))
    else Scan(b, k + 1)
  }

  /** `calculateWinner(squares)`. */
  function CalculateWinner(b: Board): Option<WinResult> {
    Scan(b, 0)
  }

  /** The loop from iteration `k` finds nothing exactly when no line from
      `k` on is complete, and otherwise reports the first complete one. */
  lemma {:induction false} ScanSpec(b: Board, k: nat)
    decreases |Lines| - k
    ensures Scan(b, k).None? <==> forall j :: k <= j < |Lines| ==> !Uniform(b, Lines[j])
    ensures Scan(b, k).Some? ==>
      exists j: nat :: FirstUniformFrom(b, k, j) && Scan(b, k).value == WinResult(b[Lines[j].a], Lines[j])
  {
    if k < |Lines| && !Uniform(b, Lines[k]) {
      ScanSpec(b, k + 1);
      if Scan(b, k).Some? {
        var j: nat :| FirstUniformFrom(b, k + 1, j) && Scan(b, k).value == WinResult(b[Lines[j].a], Lines[j]);
        assert FirstUniformFrom(b, k, j);
      }
    } else if k < |Lines| {
      assert FirstUniformFrom(b, k, k);
    }
  }

  /** `calculateWinner` reports the first complete line in list order with
      its mark, or nothing when no line is complete, however full the board. */
  lemma CalculateWinnerSpec(b: Board)
    ensures CalculateWinner(b).None? <==> forall j :: 0 <= j < |Lines| ==> !Uniform(b, Lines[j])
    ensures var r := CalculateWinner(b);
      r.Some? ==> exists j: nat :: FirstUniformFrom(b, 0, j) && r.value == WinResult(b[Lines[j].a], Lines[j])
    ensures var r := CalculateWinner(b);
      r.Some? ==> && r.value.line in Lines
                  && Uniform(b, r.value.line)
                  && r.value.winner != Empty
                  && r.value.winner == b[r.value.line.a]
                  && r.value.winner == b[r.value.line.b]
                  && r.value.winner == b[r.value.line.c]
  {
    ScanSpec(b, 0);
  }

  /** The first complete line is unique. */
  lemma FirstUniformUnique(b: Board, k: nat, j: nat, j': nat)
    requires FirstUniformFrom(b, k, j) && FirstUniformFrom(b, k, j')
    ensures j == j'
  {
  }

  /** Tie-break: whenever line `j` is complete and no earlier line is, the
      evaluator reports exactly line `j` and its mark, even if later lines
      are complete too. */
  lemma FirstCompleteLineWins(b: Board, j: nat)
    requires FirstUniformFrom(b, 0, j)
    ensures CalculateWinner(b) == Some(WinResult(b[Lines[j].a], Lines[j]))
  {
    var r := CalculateWinner(b);
    CalculateWinnerSpec(b);
    assert r.Some?;
    var j': nat :| FirstUniformFrom(b, 0, j') && r.value == WinResult(b[Lines[j'].a], Lines[j']);
    FirstUniformUnique(b, 0, j, j');
  }

  /** Every triple lies on the board and names three distinct squares. */
  lemma LinesWellFormed()
    ensures forall j :: 0 <= j < |Lines| ==>
      Lines[j].a < Size && Lines[j].b < Size && Lines[j].c < Size &&
      Lines[j].a != Lines[j].b && Lines[j].b != Lines[j].c && Lines[j].a != Lines[j].c
  {
    forall j | 0 <= j < |Lines|
      ensures Lines[j].a < Size && Lines[j].b < Size && Lines[j].c < Size
      ensures Lines[j].a != Lines[j].b && Lines[j].b != Lines[j].c && Lines[j].a != Lines[j].c
    {
      assert j in {0, 1, 2, 3, 4, 5, 6, 7};
    }
  }

  /** The reported line lies on the board and names three distinct squares. */
  lemma WinningLineWellFormed(b: Board)
    requires CalculateWinner(b).Some?
    ensures var t := CalculateWinner(b).value.line;
      t.a < Size && t.b < Size && t.c < Size && t.a != t.b && t.b != t.c && t.a != t.c
  {
    LinesWellFormed();
    CalculateWinnerSpec(b);
    var j: nat :| FirstUniformFrom(b, 0, j) && CalculateWinner(b).value == WinResult(b[Lines[j].a], Lines[j]);
  }

  /** The empty board has no winner. */
  lemma EmptyBoardNoWinner()
    ensures CalculateWinner(EmptyBoard()) == None
  {
    var b := EmptyBoard();
    CalculateWinnerSpec(b);
    forall j | 0 <= j < |Lines|
      ensures !Uniform(b, Lines[j])
    {
    }
  }
}
