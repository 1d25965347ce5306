# Tic-tac-toe with a promo code: a verified model of the game engine

The game is a single-player tic-tac-toe that runs inside a chat client's
in-app browser. The player plays X. The computer plays O with a fixed
priority heuristic. A player win earns a five-digit promo code. This project
models the engine in `main.js` in Dafny and proves what it promises.

The engine has four parts, one module each:

- `BoardModel` (`board.dfy`): the nine-cell board and the eight winning lines.
  It holds `getWinner` (`Winner`) and `isDraw` (`IsFull`). It also holds the
  free-cell list that the computer's fallback rule draws from.
- `Opponent` (`opponent.dfy`): `findBestMove` (`BestMove`). Its rules are win
  now, block, take the centre, then any free cell.
- `Promo` (`promo.dfy`): `generatePromo` (`GeneratePromo`), the decimal string
  of `10000 + draw`.
- `Controller` (`controller.dfy`): the `state` record and its steps
  `onCellClick`, `computerMove`, `placeMark`, `finishGame` and `resetGame`.
  `onCellClick`, `computerMove` and `finishGame` are functions from the old
  state to an `Outcome`, the new state plus the notification that
  `finishGame` requests: `PlayerStep`, `ComputerStep` and `Finish`, with
  `Conclude` for the win and draw checks both moves share. The class `Game`
  holds `board`, `current` and `gameOver` as fields. Its methods
  `PlayerMove`, `ComputerMove` and `FinishGame` update those fields step by
  step, as `main.js` does, and are proved equal to those functions.
  `Game.PlaceMark` and `Game.Reset` are specified directly: `PlaceMark` by
  the single cell it writes, `Reset` by the state `InitialState` describes.

Modelling choices:

- A cell is `Empty | X | O`; `Empty` stands for JavaScript `null`. `Board` is
  a `seq<Cell>` of length 9.
- The two calls to `Math.random` become injected integers.
  - `choice: nat` stands for the fallback draw in `findBestMove`. The move is
    `free[choice % |free|]`. A draw below `|free|`, which is what
    `Math.floor(Math.random() * free.length)` yields, is used unchanged.
  - `draw < 90000` stands for `Math.floor(Math.random() * 90000)` in
    `generatePromo`.
- The board's buttons carry only indices 0..8. So a player move takes an
  `Index`, a type that only admits 0..8.
- The notification is a value: `Victory(code)`, `Defeat` or `Silent`. It is
  not sent anywhere.
- `Consistent` is the controller's invariant. While the game goes on, no line
  is won and some cell is free. The marks also alternate: X has one more mark
  than O exactly when it is O's turn.

Two boards show how the win-now scan comes before the block scan:

- On `[X,X,_,O,O,_,_,_,_]` the computer plays 5, completing its own middle
  row, although X threatens the top row at 2
  (`Opponent.WinBeforeBlockExample`).
- On `[X,X,_,O,_,_,_,_,_]` the computer has no line to complete and blocks
  X's top row at 2 (`Opponent.BlockExample`).

## Model

| member | source | states |
|---|---|---|
| `BoardModel.EmptyBoard` | main.js:13 | the starting board has all nine cells empty |
| `BoardModel.WinnerFromCharacterised` | main.js:124-129 | the scan from line k returns Empty exactly when no line from k on is won; otherwise it returns the mark of the first won line from k on |
| `BoardModel.Winner` | main.js:123-130 | getWinner returns Empty (null) exactly when no line of `winningLines` has three equal, non-empty cells; otherwise it returns the mark of the first such line in scan order |
| `BoardModel.IsFull` | main.js:132-134 | isDraw holds exactly when the board has no empty cell (the count of Empty is 0) |
| `BoardModel.FreeFromCharacterised` | main.js:157 | the free list built from index i on holds exactly the empty cells at i..8, in increasing order |
| `BoardModel.FreeCells` | main.js:157-158 | the free list holds exactly the indices of the empty cells, in increasing order; it is empty exactly when the board is full |
| `BoardModel.CountZero` | main.js:133 | a value occurs zero times exactly when no cell holds it |
| `BoardModel.CountAfterPlacing` | main.js:118-121 | writing a mark into an empty cell adds one to that mark's count, takes one from Empty's, and leaves the other mark's count unchanged |
| `Opponent.EmptyCellOf` | main.js:141 | the cell picked by `[a, b, c].find(i => !board[i])` is empty and lies on the line |
| `Opponent.CompletionFromCharacterised` | main.js:138-143 | the scan from line k finds nothing exactly when no line from k on has two of the mark and an empty cell; otherwise it returns the empty cell of the first such line |
| `Opponent.Completion` | main.js:138-151 | each scan loop of findBestMove returns None exactly when no line has two of the mark and an empty cell; otherwise it returns the empty cell of the first such line, and that cell is empty |
| `Opponent.LinesAreTriples` | main.js:19-28 | every winning line names three distinct cells |
| `Opponent.CompletionCompletesLine` | main.js:137-142 | playing the mark on the completion cell makes some line uniformly that mark |
| `Opponent.BestMove` | main.js:136-161 | findBestMove returns -1 exactly when the board is full; otherwise it returns an index in 0..8 whose cell is empty |
| `Opponent.BestMoveFollowsPriority` | main.js:137-154 | the rules apply strictly in order: O's first completable line wins; failing that, X's first completable line is blocked; failing both, the centre is taken if it is free |
| `Opponent.FallbackMove` | main.js:156-160 | with no line to complete or block and the centre taken, the move is read from the free list at the draw's position |
| `Opponent.FallbackPicksAnyFreeCell` | main.js:157-160 | in the fallback case a draw k below the number of free cells picks the k-th free cell, so every free cell can be chosen |
| `Opponent.WinBeforeBlockExample` | main.js:137-151 | on `[X,X,_,O,O,_,_,_,_]` the computer completes its own row (5) rather than block X (2) |
| `Opponent.BlockExample` | main.js:145-151 | on `[X,X,_,O,_,_,_,_,_]` the computer blocks X's row at 2 |
| `Promo.Decimal` | main.js:186 | `toString` of a non-negative integer yields at least one decimal digit, with no leading zero when the number is positive |
| `Promo.DecimalRoundTrip` | main.js:186 | reading back the decimal string of n gives n |
| `Promo.DecimalLength` | main.js:186 | a number between 10^k and 10^(k+1) - 1 has k + 1 digits |
| `Promo.GeneratePromo` | main.js:185-187 | the code is five decimal digits with a non-zero lead, and denotes 10000 + draw, which lies in [10000, 99999] |
| `Promo.PromoInjective` | main.js:185-187 | two draws give the same code exactly when they are equal, so the code varies with the draw |
| `Controller.InitialState` | main.js:12-17 | the initial state has all cells empty, X to move, the game not over, and satisfies the invariant |
| `Controller.EmptyBoardIsQuiet` | main.js:13 | the empty board has no winner, is not full, and holds no X and no O |
| `Controller.Finish` | main.js:163-183 | finishGame always ends the game and changes nothing else in the state; a victory notice (carrying a five-digit code denoting 10000 + draw) is requested exactly when X won; a defeat notice exactly when O won; nothing on a draw |
| `Controller.Conclude` | main.js:84-96 | after a mark the win check precedes the draw check: the game ends exactly when the board is won or full; a victory or defeat notice follows the winner even on a full board; only a game that goes on passes the turn |
| `Controller.PlayerStep` | main.js:77-97 | a player move changes at most one cell, an empty one, to X; when the game is over, it is not X's turn or cell idx is taken, the state is unchanged and no notification is requested; otherwise the new board is the old one with X at idx |
| `Controller.ComputerStepAsWritten` | main.js:99-116 | a computer move as written changes at most one cell, an empty one, to O; when the game is over it changes nothing and requests nothing; otherwise the O lands on findBestMove's cell, and a full board (move -1) is left as it is |
| `Controller.ComputerStep` | main.js:99-116 | the computer move with a turn check changes at most one cell, an empty one, to O; when the game is over or it is not O's turn it changes nothing and requests nothing; otherwise the O lands on findBestMove's cell, and a full board (move -1) is left as it is |
| `Controller.ComputerPlacesOneMark` | main.js:101-104 | in a game that goes on with O to move, findBestMove finds a cell (never -1), the O is written there, O's count rises by one and X's is unchanged |
| `Controller.PlayerStepIgnoredExactly` | main.js:77-81 | a player move leaves the state unchanged exactly when the game is over, it is not X's turn, or the cell is taken; an ignored move requests no notification |
| `Controller.ComputerStepIgnoredExactly` | main.js:99-104 | a computer move leaves the state unchanged exactly when the game is over or it is not O's turn; an ignored move requests no notification |
| `Controller.PlayerStepKeepsConsistent` | main.js:83-96 | a player move preserves the invariant: a game that goes on has no winner, a free cell, and alternating marks |
| `Controller.ComputerStepKeepsConsistent` | main.js:101-115 | a computer move (with the turn check) preserves the same invariant |
| `Controller.ComputerStepAsWrittenMovesOutOfTurn` | main.js:99-116 | computerMove as written, run on the state resetGame restores, puts O in the centre and leaves X to move, breaking the invariant |
| `Controller.ComputerStepWaitsForItsTurn` | main.js:99-100 | the corrected computer move ignores that call |
| `Controller.CentreOpeningExample` | main.js:83-96 | X playing 4 on the empty board leaves X at 4, the game going on and O to move, with no notification |
| `Controller.WinOnFullBoardExample` | main.js:84-88 | when X's last move both fills the board and wins, the game ends as X's win with a promo code, not as a draw |
| `Controller.WonFullBoard` | main.js:123-134 | on `[X,O,X,O,X,O,O,X,X]` getWinner returns X (diagonal 0-4-8) and isDraw also holds |
| `Controller.DrawnBoard` | main.js:123-134 | on `[X,O,X,X,O,O,O,X,X]` no line is won and the board is full |
| `Controller.DrawExample` | main.js:89-92 | a move that fills the board with no line won ends the game with no notification |
| `Controller.Game.constructor` | main.js:12-17 | a new game is in the initial state and satisfies the invariant |
| `Controller.Game.PlaceMark` | main.js:118-121 | placeMark writes the mark into the cell and touches nothing else |
| `Controller.Game.FinishGame` | main.js:163-183 | the fields and the notification agree with `Finish` |
| `Controller.Game.PlayerMove` | main.js:77-97 | the fields and the notification agree with `PlayerStep`; the invariant is kept |
| `Controller.Game.ComputerMove` | main.js:99-116 | the fields and the notification agree with `ComputerStep`; the invariant is kept |
| `Controller.Game.Reset` | main.js:189-197 | from any state, all cells are empty, X is to move and the game is not over |

## Findings

| source | as written | input that shows it | evidently intended | confidence | as-written member | corrected member |
|---|---|---|---|---|---|---|
| main.js:99-100 | `computerMove` returns early only when `gameOver` is set; it never checks that `current` is `'O'` | the player clicks a cell, which schedules `computerMove` 320 ms later (main.js:96). Within that time they press restart, and `resetGame` restores the fresh state. The timer then fires: the computer puts O in the centre and leaves X to move, so O is a mark ahead of X | the computer moves only on its own turn, so a pending move is dropped after a restart | medium; not executed | `Controller.ComputerStepAsWrittenMovesOutOfTurn` | `Controller.ComputerStep` |

`Controller.ComputerStep` adds the turn check. The class method
`Game.ComputerMove` uses it, and `Controller.ComputerStepKeepsConsistent`
proves that it keeps the invariant.

## Left out

- Telegram I/O is not modelled: `sendTelegramMessage`, `showToast`,
  `initTelegram`, the `chatId` field and the clipboard handler. A requested
  notification is the `Notice` value of a step, with no delivery semantics.
- The message wording is not modelled. `Victory` carries the code; the texts
  around it are display strings.
- `render`, `initBoard` and every DOM class or text update are UI.
- The 320 ms `setTimeout` that schedules `computerMove` is not modelled. The
  computer's move is a separate step, `ComputerStep`, that a caller runs.
- `Math.random` and the float arithmetic around it are not modelled; they
  become the injected integers `choice` and `draw`.
- `api/bot-webhook.js` and `api/send-message.js` are HTTP handlers for the
  messaging platform. They are not part of this model.
- Controller.Game.ComputerMove: models `computerMove` with the turn check of the Findings
  row added, not the unguarded code. The unguarded code is
  `Controller.ComputerStepAsWritten`.
