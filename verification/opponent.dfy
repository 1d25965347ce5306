/**
 * The computer's move selection of main.js, findBestMove: a fixed priority
 * of one-ply rules (win now, block, centre, any free cell).
 */
module Opponent {
  import opened BoardModel

  datatype Option<T> = None | Some(value: T)

  /** How many of line k's three cells hold m. */
  function MarkCount(b: Board, k: nat, m: Mark): nat
    requires k < |Lines|
  {
    var l := Lines[k];
    (if b[l.a] == m then 1 else 0) + (if b[l.b] == m then 1 else 0) + (if b[l.c] == m then 1 else 0)
  }

  /** Some cell of line k is empty. */
  predicate HasEmpty(b: Board, k: nat)
    requires k < |Lines|
  {
    var l := Lines[k];
    b[l.a] == Empty || b[l.b] == Empty || b[l.c] == Empty
  }

  /** The first empty cell of line k, in the order a, b, c. */
  function EmptyCellOf(b: Board, k: nat): (i: Index)
    requires k < |Lines| && HasEmpty(b, k)
    ensures b[i] == Empty
    ensures i == Lines[k].a || i == Lines[k].b || i == Lines[k].c
  {
    var l := Lines[k];
    if b[l.a] == Empty then l.a else if b[l.b] == Empty then l.b else l.c
  }

  /** Line k holds two m and an empty cell: m can complete it in one move. */
  predicate Threat(b: Board, k: nat, m: Mark)
    requires k < |Lines|
  {
    MarkCount(b, k, m) == 2 && HasEmpty(b, k)
  }

  /** Line k is the first line in scan order that m can complete. */
  predicate FirstThreat(b: Board, k: nat, m: Mark)
    requires k < |Lines|
  {
    Threat(b, k, m) && forall j | 0 <= j < k :: !Threat(b, j, m)
  }

  /** No line can be completed by m in one move. */
  predicate NoThreat(b: Board, m: Mark) {
    forall j | 0 <= j < |Lines| :: !Threat(b, j, m)
  }

  /** One scan loop of findBestMove from line k on. */
  function CompletionFrom(b: Board, m: Mark, k: nat): Option<Index>
    requires k <= |Lines|
    decreases |Lines| - k
  {
    if k == |Lines| then None
    else if Threat(b, k, m) then Some(EmptyCellOf(b, k))
    else CompletionFrom(b, m, k + 1)
  }

  lemma {:induction false} CompletionFromCharacterised(b: Board, m: Mark, k: nat)
    requires k <= |Lines|
    ensures CompletionFrom(b, m, k) == None <==> forall j | k <= j < |Lines| :: !Threat(b, j, m)
    ensures forall j | k <= j < |Lines| ::
      Threat(b, j, m) && (forall i | k <= i < j :: !Threat(b, i, m)) ==> CompletionFrom(b, m, k) == Some(EmptyCellOf(b, j))
    ensures CompletionFrom(b, m, k).Some? ==>
      exists j | k <= j < |Lines| :: Threat(b, j, m) && CompletionFrom(b, m, k).value == EmptyCellOf(b, j)
    decreases |Lines| - k
  {
    if k < |Lines| {
      CompletionFromCharacterised(b, m, k + 1);
      forall j | k <= j < |Lines| && Threat(b, j, m) && (forall i | k <= i < j :: !Threat(b, i, m))
        ensures CompletionFrom(b, m, k) == Some(EmptyCellOf(b, j))
      {
        if j != k {
          assert !Threat(b, k, m);
        }
      }
    }
  }

  /**
   * The cell m would play to complete a line: the empty cell of the first line
   * holding two m and an empty cell, or None when there is no such line.
   */
  function Completion(b: Board, m: Mark): (r: Option<Index>)
    ensures r == None <==> NoThreat(b, m)
    ensures forall j | 0 <= j < |Lines| :: FirstThreat(b, j, m) ==> r == Some(EmptyCellOf(b, j))
    ensures r.Some? ==> exists j | 0 <= j < |Lines| :: Threat(b, j, m) && r.value == EmptyCellOf(b, j)
    ensures r.Some? ==> b[r.value] == Empty
  {
    CompletionFromCharacterised(b, m, 0);
    CompletionFrom(b, m, 0)
  }

  lemma LinesAreTriples(k: nat)
    requires k < |Lines|
    ensures Lines[k].a != Lines[k].b && Lines[k].a != Lines[k].c && Lines[k].b != Lines[k].c
  {
    assert Lines[k] in Lines;
  }

  /** Playing m in the completion cell wins: afterwards some line is uniformly m. */
  lemma CompletionCompletesLine(b: Board, m: Mark)
    requires Completion(b, m).Some?
    ensures var i := Completion(b, m).value;
      exists j | 0 <= j < |Lines| :: LineWon(b[i := m], j) && b[i := m][Lines[j].a] == m
  {
    var i := Completion(b, m).value;
    var j :| 0 <= j < |Lines| && Threat(b, j, m) && i == EmptyCellOf(b, j);
    LinesAreTriples(j);
    assert LineWon(b[i := m], j) && b[i := m][Lines[j].a] == m;
  }

  /**
   * findBestMove. `choice` stands for the random draw of the fallback rule,
   * Math.floor(Math.random() * free.length); it is reduced modulo the length
   * of the free list, so any choice below that length is used as it is.
   * The result is -1 exactly when the board is full, and otherwise an empty cell.
   */
  function BestMove(b: Board, choice: nat): (r: int)
    ensures r == -1 <==> IsFull(b)
    ensures r != -1 ==> 0 <= r < 9 && b[r] == Empty
  {
    match Completion(b, O)
    case Some(i) => i
    case None =>
      match Completion(b, X)
      case Some(i) => i
      case None =>
        if b[4] == Empty then 4
        else
          var free := FreeCells(b);
          if |free| == 0 then -1
          else
            assert free[choice % |free|] in free;
            free[choice % |free|]
  }

  /** The rules apply strictly in order: win now, then block, then the centre. */
  lemma BestMoveFollowsPriority(b: Board, choice: nat)
    ensures forall j | 0 <= j < |Lines| :: FirstThreat(b, j, O) ==> BestMove(b, choice) == EmptyCellOf(b, j)
    ensures NoThreat(b, O) ==>
      forall j | 0 <= j < |Lines| :: FirstThreat(b, j, X) ==> BestMove(b, choice) == EmptyCellOf(b, j)
    ensures NoThreat(b, O) && NoThreat(b, X) && b[4] == Empty ==> BestMove(b, choice) == 4
  {
  }

  /** With no line to complete or block and the centre taken, the move is read off the free list. */
  lemma FallbackMove(b: Board, choice: nat)
    requires NoThreat(b, O) && NoThreat(b, X) && b[4] != Empty && !IsFull(b)
    ensures BestMove(b, choice) == FreeCells(b)[choice % |FreeCells(b)|]
  {
    assert Completion(b, O) == None && Completion(b, X) == None;
  }

  /**
   * The fallback rule: with no line to complete or block and the centre taken,
   * a draw k below the number of free cells picks the k-th free cell, so every
   * free cell can be the move.
   */
  lemma FallbackPicksAnyFreeCell(b: Board)
    requires NoThreat(b, O) && NoThreat(b, X) && b[4] != Empty
    ensures forall k | 0 <= k < |FreeCells(b)| :: BestMove(b, k) == FreeCells(b)[k]
  {
    forall k | 0 <= k < |FreeCells(b)|
      ensures BestMove(b, k) == FreeCells(b)[k]
    {
      FallbackMove(b, k);
      SmallRemainder(k, |FreeCells(b)|);
    }
  }

  lemma SmallRemainder(k: nat, n: nat)
    requires k < n
    ensures k % n == k
  {
  }

  /** The computer wins now rather than block: O completes the middle row. */
  lemma WinBeforeBlockExample(choice: nat)
    ensures BestMove([X, X, Empty, O, O, Empty, Empty, Empty, Empty], choice) == 5
  {
    var b: Board := [X, X, Empty, O, O, Empty, Empty, Empty, Empty];
    assert !Threat(b, 0, O) && FirstThreat(b, 1, O);
  }

  /** With no line of its own to complete, the computer blocks the player's row. */
  lemma BlockExample(choice: nat)
    ensures BestMove([X, X, Empty, O, Empty, Empty, Empty, Empty, Empty], choice) == 2
  {
    var b: Board := [X, X, Empty, O, Empty, Empty, Empty, Empty, Empty];
    forall j | 0 <= j < |Lines| ensures !Threat(b, j, O) {
      assert Lines[j] in Lines;
    }
    assert FirstThreat(b, 0, X);
  }
}
