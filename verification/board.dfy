/**
 * The board of the game: nine cells addressed 0..8 in row-major order,
 * the eight fixed winning lines, and the two terminal queries of main.js,
 * getWinner and isDraw.
 */
module BoardModel {

  /** A cell is empty (JavaScript `null`) or holds a player's mark. */
  datatype Cell = Empty | X | O

  /** The marks a cell can hold: 'X' for the player, 'O' for the computer. */
  type Mark = c: Cell | c != Empty witness X

  /** A board always has exactly nine cells. */
  type Board = b: seq<Cell> | |b| == 9
    witness [Empty, Empty, Empty, Empty, Empty, Empty, Empty, Empty, Empty]

  type Index = i: int | 0 <= i < 9

  /** A line is a triple of cell indices. */
  datatype Line = Line(a: Index, b: Index, c: Index)

  /** The eight lines in the order main.js scans them: rows, columns, diagonals. */
  const Lines: seq<Line> := [
    Line(0, 1, 2), Line(3, 4, 5), Line(6, 7, 8),
    Line(0, 3, 6), Line(1, 4, 7), Line(2, 5, 8),
    Line(0, 4, 8), Line(2, 4, 6)
  ]

  /** The board a game starts from: every cell empty. */
  function EmptyBoard(): (b: Board)
    ensures forall i | 0 <= i < 9 :: b[i] == Empty
  {
    seq(9, _ => Empty)
  }

  /** Line k is won: its first cell holds a mark and the other two hold the same one. */
  predicate LineWon(b: Board, k: nat)
    requires k < |Lines|
  {
    var l := Lines[k];
    b[l.a] != Empty && b[l.a] == b[l.b] && b[l.a] == b[l.c]
  }

  /** Line k is the first won line in scan order. */
  predicate FirstWonLine(b: Board, k: nat)
    requires k < |Lines|
  {
    LineWon(b, k) && forall j | 0 <= j < k :: !LineWon(b, j)
  }

  /** The scan of getWinner from line k on: the first won line's mark, or Empty. */
  function WinnerFrom(b: Board, k: nat): Cell
    requires k <= |Lines|
    decreases |Lines| - k
  {
    if k == |Lines| then Empty
    else if LineWon(b, k) then b[Lines[k].a]
    else WinnerFrom(b, k + 1)
  }

  lemma {:induction false} WinnerFromCharacterised(b: Board, k: nat)
    requires k <= |Lines|
    ensures WinnerFrom(b, k) == Empty <==> forall j | k <= j < |Lines| :: !LineWon(b, j)
    ensures forall j | k <= j < |Lines| ::
      LineWon(b, j) && (forall i | k <= i < j :: !LineWon(b, i)) ==> WinnerFrom(b, k) == b[Lines[j].a]
    decreases |Lines| - k
  {
    if k < |Lines| {
      WinnerFromCharacterised(b, k + 1);
      forall j | k <= j < |Lines| && LineWon(b, j) && (forall i | k <= i < j :: !LineWon(b, i))
        ensures WinnerFrom(b, k) == b[Lines[j].a]
      {
        if j != k {
          assert !LineWon(b, k);
        }
      }
    }
  }

  /**
   * getWinner: the mark of the first uniform, non-empty line in scan order;
   * Empty (JavaScript `null`) exactly when no line is won.
   */
  function Winner(b: Board): (w: Cell)
    ensures w == Empty <==> forall j | 0 <= j < |Lines| :: !LineWon(b, j)
    ensures forall j | 0 <= j < |Lines| :: FirstWonLine(b, j) ==> w == b[Lines[j].a]
  {
    WinnerFromCharacterised(b, 0);
    WinnerFrom(b, 0)
  }

  /** isDraw: every one of the nine cells holds a mark, so no cell is empty. */
  predicate IsFull(b: Board)
    ensures IsFull(b) <==> Count(b, Empty) == 0
  {
    CountZero(b, Empty);
    forall i | 0 <= i < 9 :: b[i] != Empty
  }

  predicate Increasing(s: seq<int>) {
    forall i, j | 0 <= i < j < |s| :: s[i] < s[j]
  }

  /** The indices of the empty cells from i on, in board order. */
  function FreeFrom(b: Board, i: nat): seq<Index>
    requires i <= 9
    decreases 9 - i
  {
    if i == 9 then []
    else (if b[i] == Empty then [i as Index] else []) + FreeFrom(b, i + 1)
  }

  lemma {:induction false} FreeFromCharacterised(b: Board, i: nat)
    requires i <= 9
    ensures forall j :: j in FreeFrom(b, i) <==> i <= j < 9 && b[j] == Empty
    ensures Increasing(FreeFrom(b, i))
    decreases 9 - i
  {
    if i < 9 {
      FreeFromCharacterised(b, i + 1);
      var rest := FreeFrom(b, i + 1);
      assert forall k | 0 <= k < |rest| :: rest[k] in rest;
    }
  }

  /**
   * The free list of findBestMove's fallback rule: the indices of the empty
   * cells in increasing order. It is empty exactly when the board is full.
   */
  function FreeCells(b: Board): (free: seq<Index>)
    ensures forall j :: j in free <==> 0 <= j < 9 && b[j] == Empty
    ensures Increasing(free)
    ensures free == [] <==> IsFull(b)
  {
    FreeFromCharacterised(b, 0);
    var free := FreeFrom(b, 0);
    assert free != [] ==> free[0] in free;
    free
  }

  /** The number of cells holding c. */
  function Count(s: seq<Cell>, c: Cell): nat {
    if s == [] then 0 else (if s[0] == c then 1 else 0) + Count(s[1..], c)
  }

  /** A value is counted zero times exactly when no cell holds it. */
  lemma {:induction false} CountZero(s: seq<Cell>, c: Cell)
    ensures Count(s, c) == 0 <==> forall i | 0 <= i < |s| :: s[i] != c
  {
    if s != [] {
      CountZero(s[1..], c);
      assert forall i | 1 <= i < |s| :: s[i] == s[1..][i - 1];
    }
  }

  /** Writing m into an empty cell adds one m and leaves the count of every other value alone. */
  lemma {:induction false} CountAfterPlacing(s: seq<Cell>, i: nat, m: Mark, c: Cell)
    requires i < |s| && s[i] == Empty
    ensures Count(s[i := m], c) ==
      if c == m then Count(s, c) + 1 else if c == Empty then Count(s, c) - 1 else Count(s, c)
  {
    if i == 0 {
      assert s[i := m][1..] == s[1..];
    } else {
      assert s[i := m][1..] == s[1..][i - 1 := m];
      CountAfterPlacing(s[1..], i - 1, m, c);
    }
  }
}
