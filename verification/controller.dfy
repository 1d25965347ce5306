/**
 * The game controller of main.js: the `state` record and its steps
 * onCellClick, computerMove, placeMark, finishGame and resetGame.
 *
 * Each step is first given as a function from the old state to the new
 * state and the notification it requests; the class Game then performs the
 * same step field by field, as main.js does, and is proved to agree with it.
 */
module Controller {
  import opened BoardModel
  import opened Opponent
  import opened Promo

  /** The `state` record: the board, whose turn it is, and whether the game has ended. */
  datatype GameState = GameState(board: Board, current: Mark, gameOver: bool)

  /**
   * The message finishGame asks to send: a victory with its promo code when X
   * wins, a defeat when O wins, nothing on a draw.
   */
  datatype Notice = Silent | Victory(code: string) | Defeat

  /** What a step leaves behind: the new state and the requested notification. */
  datatype Outcome = Outcome(state: GameState, notice: Notice)

  /**
   * The controller's invariant. While the game goes on, no line is won, some
   * cell is free, and the marks alternate: X has played once more than O
   * exactly when it is O's turn.
   */
  ghost predicate Consistent(s: GameState) {
    !s.gameOver ==>
      && Winner(s.board) == Empty
      && !IsFull(s.board)
      && Count(s.board, X) == Count(s.board, O) + (if s.current == O then 1 else 0)
  }

  /** The state a session starts in and resetGame restores. */
  function InitialState(): (s: GameState)
    ensures forall i | 0 <= i < 9 :: s.board[i] == Empty
    ensures s.current == X && !s.gameOver
    ensures Consistent(s)
  {
    EmptyBoardIsQuiet();
    GameState(EmptyBoard(), X, false)
  }

  /** The empty board has no winner, a free cell, and no mark of either player. */
  lemma EmptyBoardIsQuiet()
    ensures Winner(EmptyBoard()) == Empty && !IsFull(EmptyBoard())
    ensures Count(EmptyBoard(), X) == 0 && Count(EmptyBoard(), O) == 0
  {
    var b := EmptyBoard();
    forall j | 0 <= j < |Lines| ensures !LineWon(b, j) {
      assert b[Lines[j].a] == Empty;
    }
    assert b[0] == Empty;
    CountZero(b, X);
    CountZero(b, O);
  }

  /**
   * finishGame: the game is over whoever won; only X's win yields a promo
   * code, O's win yields a defeat notice, a draw none.
   */
  function Finish(s: GameState, winner: Cell, draw: nat): (r: Outcome)
    requires draw < PROMO_SPAN
    ensures r.state == s.(gameOver := true)
    ensures r.notice.Victory? <==> winner == X
    ensures r.notice.Defeat? <==> winner == O
    ensures r.notice.Victory? ==>
      |r.notice.code| == 5 && AllDigits(r.notice.code) && ValueOf(r.notice.code) == PROMO_BASE + draw
  {
    var notice :=
      if winner == X then Victory(GeneratePromo(draw))
      else if winner == O then Defeat
      else Silent;
    Outcome(s.(gameOver := true), notice)
  }

  /**
   * What follows a placed mark: the win check, then the draw check, and only
   * when neither ends the game the turn passes to `next`. A board that is
   * both won and full counts as won.
   */
  function Conclude(s: GameState, next: Mark, draw: nat): (r: Outcome)
    requires draw < PROMO_SPAN
    ensures r.state.board == s.board
    ensures r.state.gameOver <==> s.gameOver || Winner(s.board) != Empty || IsFull(s.board)
    ensures r.notice.Victory? <==> Winner(s.board) == X
    ensures r.notice.Defeat? <==> Winner(s.board) == O
    ensures r.state.current == if Winner(s.board) == Empty && !IsFull(s.board) then next else s.current
  {
    var winner := Winner(s.board);
    if winner != Empty then Finish(s, winner, draw)
    else if IsFull(s.board) then Finish(s, Empty, draw)
    else Outcome(s.(current := next), Silent)
  }

  /** `after` is `before` with at most one empty cell filled, and that with m. */
  predicate AddsAtMostOne(before: Board, after: Board, m: Mark) {
    && (forall i | 0 <= i < 9 && after[i] != before[i] :: before[i] == Empty && after[i] == m)
    && (forall i, j | 0 <= i < j < 9 :: after[i] == before[i] || after[j] == before[j])
  }

  /**
   * onCellClick on cell idx: ignored when the game is over, it is not X's
   * turn or the cell is taken; otherwise X is placed and the game concluded,
   * handing the turn to O. Exactly the cell idx receives an X when the
   * guards pass; nothing at all changes when they do not.
   */
  function PlayerStep(s: GameState, idx: Index, draw: nat): (r: Outcome)
    requires draw < PROMO_SPAN
    ensures AddsAtMostOne(s.board, r.state.board, X)
    ensures s.gameOver || s.current != X || s.board[idx] != Empty ==> r == Outcome(s, Silent)
    ensures !(s.gameOver || s.current != X || s.board[idx] != Empty) ==> r.state.board == s.board[idx := X]
  {
    if s.gameOver || s.current != X || s.board[idx] != Empty then Outcome(s, Silent)
    else Conclude(s.(board := s.board[idx := X]), O, draw)
  }

  /**
   * computerMove as main.js writes it: ignored only when the game is over;
   * otherwise O is placed on findBestMove's cell (if there is one) and the
   * game concluded, handing the turn to X. It does not look at `current`.
   * The O lands on findBestMove's cell; on a full board no cell changes.
   */
  function ComputerStepAsWritten(s: GameState, choice: nat, draw: nat): (r: Outcome)
    requires draw < PROMO_SPAN
    ensures AddsAtMostOne(s.board, r.state.board, O)
    ensures s.gameOver ==> r == Outcome(s, Silent)
    ensures !s.gameOver && BestMove(s.board, choice) != -1 ==>
      r.state.board == s.board[BestMove(s.board, choice) := O]
    ensures BestMove(s.board, choice) == -1 ==> r.state.board == s.board
  {
    if s.gameOver then Outcome(s, Silent)
    else
      var move := BestMove(s.board, choice);
      var placed := if move != -1 then s.(board := s.board[move := O]) else s;
      Conclude(placed, X, draw)
  }

  /**
   * computerMove with the turn check it lacks: also ignored when it is not
   * O's turn. Otherwise the O lands on findBestMove's cell; on a full board
   * no cell changes.
   */
  function ComputerStep(s: GameState, choice: nat, draw: nat): (r: Outcome)
    requires draw < PROMO_SPAN
    ensures AddsAtMostOne(s.board, r.state.board, O)
    ensures s.gameOver || s.current != O ==> r == Outcome(s, Silent)
    ensures !s.gameOver && s.current == O && BestMove(s.board, choice) != -1 ==>
      r.state.board == s.board[BestMove(s.board, choice) := O]
    ensures BestMove(s.board, choice) == -1 ==> r.state.board == s.board
  {
    if s.current != O then Outcome(s, Silent) else ComputerStepAsWritten(s, choice, draw)
  }

  /** A player move is ignored, changing nothing and sending nothing, exactly when its guard fails. */
  lemma PlayerStepIgnoredExactly(s: GameState, idx: Index, draw: nat)
    requires draw < PROMO_SPAN
    ensures PlayerStep(s, idx, draw).state == s <==> s.gameOver || s.current != X || s.board[idx] != Empty
    ensures PlayerStep(s, idx, draw).state == s ==> PlayerStep(s, idx, draw).notice == Silent
  {
    if !(s.gameOver || s.current != X || s.board[idx] != Empty) {
      assert PlayerStep(s, idx, draw).state.board[idx] == X;
    }
  }

  /**
   * A computer move is ignored exactly when the game is over or it is not
   * O's turn; otherwise it either places an O or, on a full board, ends the game.
   */
  lemma ComputerStepIgnoredExactly(s: GameState, choice: nat, draw: nat)
    requires draw < PROMO_SPAN
    ensures ComputerStep(s, choice, draw).state == s <==> s.gameOver || s.current != O
    ensures ComputerStep(s, choice, draw).state == s ==> ComputerStep(s, choice, draw).notice == Silent
  {
    if !(s.gameOver || s.current != O) {
      var move := BestMove(s.board, choice);
      if move != -1 {
        assert ComputerStep(s, choice, draw).state.board[move] == O;
      } else {
        assert ComputerStep(s, choice, draw).state.gameOver;
      }
    }
  }

  /** A player move keeps the controller's invariant. */
  lemma PlayerStepKeepsConsistent(s: GameState, idx: Index, draw: nat)
    requires draw < PROMO_SPAN
    requires Consistent(s)
    ensures Consistent(PlayerStep(s, idx, draw).state)
  {
    if !(s.gameOver || s.current != X || s.board[idx] != Empty) {
      CountAfterPlacing(s.board, idx, X, X);
      CountAfterPlacing(s.board, idx, X, O);
    }
  }

  /**
   * In a game that goes on with O to move, the computer always finds a cell
   * (the board is not full) and adds exactly one O there.
   */
  lemma ComputerPlacesOneMark(s: GameState, choice: nat, draw: nat)
    requires draw < PROMO_SPAN
    requires Consistent(s) && !s.gameOver && s.current == O
    ensures BestMove(s.board, choice) != -1
    ensures ComputerStep(s, choice, draw).state.board[BestMove(s.board, choice)] == O
    ensures Count(ComputerStep(s, choice, draw).state.board, O) == Count(s.board, O) + 1
    ensures Count(ComputerStep(s, choice, draw).state.board, X) == Count(s.board, X)
  {
    var move := BestMove(s.board, choice);
    CountAfterPlacing(s.board, move, O, O);
    CountAfterPlacing(s.board, move, O, X);
  }

  /** A computer move, with its turn check, keeps the controller's invariant. */
  lemma ComputerStepKeepsConsistent(s: GameState, choice: nat, draw: nat)
    requires draw < PROMO_SPAN
    requires Consistent(s)
    ensures Consistent(ComputerStep(s, choice, draw).state)
  {
    if !s.gameOver && s.current == O {
      var move := BestMove(s.board, choice);
      CountAfterPlacing(s.board, move, O, X);
      CountAfterPlacing(s.board, move, O, O);
    }
  }

  /**
   * computerMove as written moves out of turn: from the state resetGame
   * restores (reached when the player clicks restart while the computer's
   * timer is pending) it places an O in the centre and leaves the turn with
   * X, so O has played more marks than X and the invariant is broken.
   */
  lemma ComputerStepAsWrittenMovesOutOfTurn(choice: nat, draw: nat)
    requires draw < PROMO_SPAN
    ensures var r := ComputerStepAsWritten(InitialState(), choice, draw);
      && Consistent(InitialState())
      && r.state.board[4] == O && r.state.current == X && !r.state.gameOver
      && !Consistent(r.state)
  {
    var s := InitialState();
    assert NoThreat(s.board, O) && NoThreat(s.board, X);
    var after := s.board[4 := O];
    assert after == [Empty, Empty, Empty, Empty, O, Empty, Empty, Empty, Empty];
    assert !LineWon(after, 0) && !IsFull(after);
    CountAfterPlacing(s.board, 4, O, O);
    CountAfterPlacing(s.board, 4, O, X);
  }

  /** The corrected step ignores the same call. */
  lemma ComputerStepWaitsForItsTurn(choice: nat, draw: nat)
    requires draw < PROMO_SPAN
    ensures ComputerStep(InitialState(), choice, draw) == Outcome(InitialState(), Silent)
  {
  }

  /** X playing the centre of the empty board: X is at 4, the game goes on, O is to move. */
  lemma CentreOpeningExample(draw: nat)
    requires draw < PROMO_SPAN
    ensures PlayerStep(InitialState(), 4, draw) == Outcome(GameState(EmptyBoard()[4 := X], O, false), Silent)
  {
    var b := EmptyBoard()[4 := X];
    assert b == [Empty, Empty, Empty, Empty, X, Empty, Empty, Empty, Empty];
    assert !LineWon(b, 0) && !IsFull(b);
  }

  /** X's last move fills the board and wins along the diagonal: the win, not the draw, is reported. */
  lemma WinOnFullBoardExample(draw: nat)
    requires draw < PROMO_SPAN
    ensures var s := GameState([X, O, X, O, X, O, O, X, Empty], X, false);
      PlayerStep(s, 8, draw) ==
        Outcome(GameState([X, O, X, O, X, O, O, X, X], X, true), Victory(GeneratePromo(draw)))
  {
    var before := GameState([X, O, X, O, X, O, O, X, Empty], X, false);
    var b: Board := [X, O, X, O, X, O, O, X, X];
    assert before.board[8 := X] == b;
    WonFullBoard(b);
  }

  lemma WonFullBoard(b: Board)
    requires b == [X, O, X, O, X, O, O, X, X]
    ensures Winner(b) == X && IsFull(b)
  {
    forall j | 0 <= j < 6 ensures !LineWon(b, j) {
      assert Lines[j] in Lines;
    }
    assert FirstWonLine(b, 6);
  }

  /** X's last move fills the board with no line won: a draw, with no notification. */
  lemma DrawExample(draw: nat)
    requires draw < PROMO_SPAN
    ensures var s := GameState([X, O, X, X, O, O, O, X, Empty], X, false);
      PlayerStep(s, 8, draw) == Outcome(GameState([X, O, X, X, O, O, O, X, X], X, true), Silent)
  {
    var before := GameState([X, O, X, X, O, O, O, X, Empty], X, false);
    var b: Board := [X, O, X, X, O, O, O, X, X];
    assert before.board[8 := X] == b;
    DrawnBoard(b);
  }

  lemma DrawnBoard(b: Board)
    requires b == [X, O, X, X, O, O, O, X, X]
    ensures Winner(b) == Empty && IsFull(b)
  {
    forall j | 0 <= j < |Lines| ensures !LineWon(b, j) {
      assert Lines[j] in Lines;
    }
  }

  /** The mutable `state` record and the steps that update it in place. */
  class Game {
    var board: Board
    var current: Mark
    var gameOver: bool

    function State(): GameState
      reads this
    {
      GameState(board, current, gameOver)
    }

    ghost predicate Valid()
      reads this
    {
      Consistent(State())
    }

    constructor ()
      ensures State() == InitialState() && Valid()
    {
      board := EmptyBoard();
      current := X;
      gameOver := false;
    }

    /** placeMark: writes the mark without looking at the cell; both callers have checked it is empty. */
    method PlaceMark(index: Index, mark: Mark)
      modifies this
      ensures board == old(board)[index := mark]
      ensures current == old(current) && gameOver == old(gameOver)
    {
      board := board[index := mark];
    }

    /** finishGame, without its display updates. */
    method FinishGame(winner: Cell, draw: nat) returns (notice: Notice)
      requires draw < PROMO_SPAN
      modifies this
      ensures Outcome(State(), notice) == Finish(old(State()), winner, draw)
    {
      gameOver := true;
      if winner == X {
        var code := GeneratePromo(draw);
        notice := Victory(code);
      } else if winner == O {
        notice := Defeat;
      } else {
        notice := Silent;
      }
    }

    /** onCellClick on cell idx (the board's buttons carry indices 0..8 only). */
    method PlayerMove(idx: Index, draw: nat) returns (notice: Notice)
      requires draw < PROMO_SPAN
      modifies this
      ensures Outcome(State(), notice) == PlayerStep(old(State()), idx, draw)
      ensures old(Valid()) ==> Valid()
    {
      if Valid() {
        PlayerStepKeepsConsistent(State(), idx, draw);
      }
      notice := Silent;
      if gameOver || current != X {
        return;
      }
      if board[idx] != Empty {
        return;
      }
      PlaceMark(idx, X);
      var winner := Winner(board);
      if winner != Empty {
        notice := FinishGame(winner, draw);
        return;
      }
      if IsFull(board) {
        notice := FinishGame(Empty, draw);
        return;
      }
      current := O;
    }

    /** computerMove, with the turn check of ComputerStep. */
    method ComputerMove(choice: nat, draw: nat) returns (notice: Notice)
      requires draw < PROMO_SPAN
      modifies this
      ensures Outcome(State(), notice) == ComputerStep(old(State()), choice, draw)
      ensures old(Valid()) ==> Valid()
    {
      if Valid() {
        ComputerStepKeepsConsistent(State(), choice, draw);
      }
      notice := Silent;
      if gameOver || current != O {
        return;
      }
      var move := BestMove(board, choice);
      if move != -1 {
        PlaceMark(move, O);
      }
      var winner := Winner(board);
      if winner != Empty {
        notice := FinishGame(winner, draw);
        return;
      }
      if IsFull(board) {
        notice := FinishGame(Empty, draw);
        return;
      }
      current := X;
    }

    /** resetGame: from any state, back to the initial one. */
    method Reset()
      modifies this
      ensures State() == InitialState() && Valid()
    {
      board := EmptyBoard();
      current := X;
      gameOver := false;
    }
  }
}
