/**
 The squares of a tic-tac-toe board: nine cells in row-major order, each
 empty (`null` in the game) or holding the mark 'X' or 'O'.
 */
module Board {

  /** The content of one square. */
  datatype Cell = Empty | X | O

  /** Number of squares; a board is always nine cells, indices 0..8. */
  const Size: nat := 9

  /** A board snapshot: exactly nine cells, row = index / 3, column = index % 3. */
  type Board = b: seq<Cell> | |b| == Size witness [Empty, Empty, Empty, Empty, Empty, Empty, Empty, Empty, Empty]

  /** The index of a square on the board. */
  type Square = i: nat | i < Size

  /** The mark placed by the player whose turn it is (`xIsNext ? 'X' : 'O'`). */
  function Mark(xIsNext: bool): (m: Cell)
    ensures m != Empty
    ensures m == X <==> xIsNext
  {
    if xIsNext then X else O
  }

  /** The board every game starts from: nine empty squares. */
  function EmptyBoard(): (b: Board)
    ensures forall i :: 0 <= i < |b| ==> b[i] == Empty
  {
    seq(Size, _ => Empty)
  }

  /** No square is left empty (`squares.indexOf(null) === -1`). */
  predicate IsFull(b: Board) {
    Empty !in b
  }

  /** Number of empty squares in a sequence of cells. */
  function CountEmpty(s: seq<Cell>): (n: nat)
    ensures n <= |s|
    ensures n == 0 <==> Empty !in s
    ensures n == |s| <==> forall i :: 0 <= i < |s| ==> s[i] == Empty
  {
    if s == [] then 0
    else (if s[0] == Empty then 1 else 0) + CountEmpty(s[1..])
  }

  /** Filling one empty square with a mark removes exactly one empty square. */
  lemma {:induction false} CountEmptyAfterMove(s: seq<Cell>, i: nat, m: Cell)
    requires i < |s| && s[i] == Empty && m != Empty
    ensures CountEmpty(s[i := m]) == CountEmpty(s) - 1
  {
    if i == 0 {
      assert s[i := m][1..] == s[1..];
    } else {
      assert s[i := m][1..] == s[1..][i - 1 := m];
      CountEmptyAfterMove(s[1..], i - 1, m);
    }
  }
}
