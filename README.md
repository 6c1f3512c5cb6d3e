# Tic-tac-toe engine and console controller in Dafny

This project models the two pieces of a Java tic-tac-toe program that hold its logic:

- `TicTacToeModel` is the game engine. It keeps a 3×3 board of optional `Player` marks and the player whose turn it is. X moves first. Besides the engine itself, it provides:
  - `move(r, c)`, which checks bounds, then whether the cell is occupied, then whether the game is over;
  - the win and full-board tests (rows, columns through a transpose, diagonals);
  - `getWinner`, `getBoard` and `getMarkAt`;
  - a fixed text rendering in `toString`.
- `TicTacToeConsoleController` is the console loop. It reads tokens and keeps the typed coordinates in a pending buffer. Whenever two coordinates are pending it submits them, minus one each, to the engine. It re-renders the board and prompt after each accepted move that does not end the game. It quits on `q`/`Q` or at the end of the input, and ends with a game-over verdict when the game finishes.

Modules:

- `Results`: `Option`, the stand-in for `null`; `Result`/`Outcome`, for "returns or throws"; and the two exception kinds.
- `Board`:
  - `Player` and its one-letter display;
  - the grid as `seq<seq<Option<Player>>>`;
  - the win and full-board scans, written the way the source computes them (`AllAre`/`RowWin` for `allMatch`/`anyMatch`, `Transpose`, `Diagonals`, `Full`);
  - an independent reference definition of winning: the 8 explicit `Lines` and `Owns`/`HasLine`;
  - mark counting;
  - `Render`, with a read-back that inverts it.
- `Decimal`: `%d` formatting of integers, with a parser proved to invert it.
- `Engine`:
  - the engine state as a value (`Game`);
  - the specification of `move` (`MoveResult`) and of `getWinner` (`Winner`), with their properties;
  - the invariant that the player to move owns no line;
  - `Replay` of a move sequence from a fresh engine;
  - the class `TicTacToeModel`. It keeps a `turn` field and an `array2` board. Its methods are proved against `State()` and the functions above.
- `Console`:
  - the token type;
  - Java's 32-bit `x - 1`;
  - the classifier `NextToken`, which is `next`;
  - the messages;
  - `Iterate`/`Consume`, one pass of the `playGame` loop, and `Run`, the whole loop;
  - lemmas about single tokens and about whole sessions.
- `ConsoleController`: the token source, the output sink and the class `TicTacToeConsoleController`. Its `PlayGame` runs the loop imperatively and is proved to end exactly in the state `Run` gives.
- `Transcripts`: sessions of the controller's tests, on concrete input (`"2 2 q"`, `"5 6 q"`, `"!#$ 2 q"`, and null arguments).

The interface `TicTacToe`, which declares the bound constants, is not part of this model. The bounds 0..2 are taken from the engine's tests.

`move` tests for an occupied cell before it tests for a finished game (controller/src/tictactoe/TicTacToeModel.java:56-62), so a move onto an occupied cell of a finished board is an invalid argument, not an illegal state.

## Model

| member | source | states |
|---|---|---|
| Board.Show | view/src/tictactoe/Player.java:6-18 | a player displays as one character that is not the blank of an empty cell |
| Board.Empty | controller/src/tictactoe/TicTacToeModel.java:22-25 | a new board is 3×3 with every cell empty |
| Board.RowWin | controller/src/tictactoe/TicTacToeModel.java:129-134 | `isRowWin`, the `anyMatch` of `allMatch` scans; `RowWinMeans` and `RowScanIff` state what it finds |
| Board.Full | controller/src/tictactoe/TicTacToeModel.java:179-182 | `isBoardFull`, the nested `allMatch(nonNull)`; `FullMeans` and `FullIff` state what it finds |
| Board.GameOver | controller/src/tictactoe/TicTacToeModel.java:72-78 | `isGameOver`, the row, column, diagonal and full-board scans in the source's order; `GameOverIff` ties it to the 8 lines |
| Board.Render | controller/src/tictactoe/TicTacToeModel.java:27-33 | `toString`, cells joined by `" \| "` and rows by the rule; `RenderLayout` and `RenderReadBack` state its layout and that it loses no cell |
| Board.AllAreMeans | controller/src/tictactoe/TicTacToeModel.java:131-133 | the `allMatch` scan of a row holds iff every cell of the row holds that player |
| Board.RowWinMeans | controller/src/tictactoe/TicTacToeModel.java:129-134 | `isRowWin` holds iff some row is all O or all X |
| Board.Transpose | controller/src/tictactoe/TicTacToeModel.java:143-148 | the transposed board has width×height shape and cell [j][i] equal to board cell [i][j] |
| Board.Diagonals | controller/src/tictactoe/TicTacToeModel.java:159-168 | the diagonal board's first row is the main diagonal, its second the anti-diagonal |
| Board.NoneEmptyMeans | controller/src/tictactoe/TicTacToeModel.java:181 | the inner `allMatch(nonNull)` holds iff no cell of the row is empty |
| Board.FullMeans | controller/src/tictactoe/TicTacToeModel.java:179-182 | the outer `allMatch` holds iff every row has no empty cell |
| Board.FullIff | controller/src/tictactoe/TicTacToeModel.java:179-182 | `isBoardFull` holds iff all nine cells are occupied |
| Board.RowScanIff | controller/src/tictactoe/TicTacToeModel.java:129-134 | the row scan finds a win iff one player owns one of the 3 row lines |
| Board.ColScanIff | controller/src/tictactoe/TicTacToeModel.java:142-150 | the transpose-then-row scan finds a win iff one player owns one of the 3 column lines |
| Board.DiagScanIff | controller/src/tictactoe/TicTacToeModel.java:158-171 | the diagonal scan finds a win iff one player owns one of the 2 diagonal lines |
| Board.WonIff | controller/src/tictactoe/TicTacToeModel.java:82-84 | row, column or diagonal win holds iff some player owns one of the 8 lines |
| Board.GameOverIff | controller/src/tictactoe/TicTacToeModel.java:73-78 | `isGameOver` holds iff some player owns a line or all nine cells are occupied |
| Board.Place | controller/src/tictactoe/TicTacToeModel.java:63 | writing a mark changes exactly cell [r][c] to that mark and keeps the 3×3 shape |
| Board.PlaceGivesOpponentNoLine | controller/src/tictactoe/TicTacToeModel.java:63 | placing a player's mark cannot give the other player a line |
| Board.MarksUpdate | controller/src/tictactoe/TicTacToeModel.java:63 | filling an empty cell of a row raises its mark count by one |
| Board.FilledPlace | controller/src/tictactoe/TicTacToeModel.java:56-63 | a move onto an empty cell raises the number of marks on the board by one |
| Board.FilledNine | controller/src/tictactoe/TicTacToeModel.java:179-182 | a board holds at most nine marks, and exactly nine iff it is full |
| Board.RenderLayout | controller/src/tictactoe/TicTacToeModel.java:28-33 | the text is 56 characters: cell (r, c) shows at 23r+1+4c, the rule `"\n-----------\n"` sits between the rows, and there is no trailing newline |
| Board.RenderReadBack | controller/src/tictactoe/TicTacToeModel.java:28-33 | the board can be read back from its text: the rendering loses no cell |
| Decimal.NatToString | controller/src/tictactoe/TicTacToeConsoleController.java:78 | `%d` of a natural is a non-empty string of digits with no leading zero |
| Decimal.IntRoundTrip | controller/src/tictactoe/TicTacToeConsoleController.java:78 | reading back the `%d` text of any integer gives the integer |
| Engine.Initial | controller/src/tictactoe/TicTacToeModel.java:22-25 | a fresh engine has nine empty cells and X to move |
| Engine.MoveResult | controller/src/tictactoe/TicTacToeModel.java:54-65 | `move` on a state value: the bounds check, the occupied check, the game-over check, then the write and the turn change; a success keeps the 3×3 shape, and the four lemmas below state each outcome |
| Engine.Winner | controller/src/tictactoe/TicTacToeModel.java:80-88 | `getWinner` on a state value: the player not to move when a scan finds a line, else none; `WinnerOwnsLine` states who that is |
| Engine.OutOfRangeRejected | controller/src/tictactoe/TicTacToeModel.java:55 | a move with r or c outside 0..2 is an invalid argument |
| Engine.OccupiedRejectedBeforeGameOver | controller/src/tictactoe/TicTacToeModel.java:56-59 | a move onto an occupied cell is an invalid argument, even when the game is over |
| Engine.FinishedGameRejected | controller/src/tictactoe/TicTacToeModel.java:60-62 | a move onto an empty cell of a finished game is an illegal state and changes nothing |
| Engine.MoveSucceeds | controller/src/tictactoe/TicTacToeModel.java:54-65 | a move succeeds iff it is in range, onto an empty cell, and the game is not over; then exactly that cell gets the old turn's mark and the turn flips |
| Engine.MoveKeepsTurnLineFree | controller/src/tictactoe/TicTacToeModel.java:63-64 | after a successful move from a state where the player to move owns no line, the new player to move owns no line |
| Engine.WinnerOwnsLine | controller/src/tictactoe/TicTacToeModel.java:80-88 | in such a state `getWinner` is non-null iff a line is complete; the winner it names owns a line and the other player owns none |
| Engine.InitialInvariant | controller/src/tictactoe/TicTacToeModel.java:22-25 | a fresh engine has no marks and the player to move owns no line |
| Engine.MoveInvariant | controller/src/tictactoe/TicTacToeModel.java:54-65 | a successful move adds one mark, flips the turn and keeps the player to move line-free |
| Engine.ReplayInvariant | controller/src/tictactoe/TicTacToeModel.java:54-65 | after n successful moves from a fresh engine there are n marks, X is to move iff n is even, and the player to move owns no line |
| Engine.InitialReachable | controller/src/tictactoe/TicTacToeModel.java:22-25 | a fresh engine satisfies the engine invariant: the player to move owns no line, and X is to move iff the number of marks is even |
| Engine.MoveKeepsReachable | controller/src/tictactoe/TicTacToeModel.java:54-65 | a successful move keeps that invariant |
| Engine.ReplayReachable | controller/src/tictactoe/TicTacToeModel.java:54-65 | every state a sequence of successful moves reaches satisfies it |
| Engine.ReplayBounds | controller/src/tictactoe/TicTacToeModel.java:54-65 | at most nine moves succeed from a fresh engine; the board is full iff nine did; any winner owns a line and is not the player to move |
| Engine.TicTacToeModel.constructor | controller/src/tictactoe/TicTacToeModel.java:22-25 | a new engine holds a fresh 3×3 board in the initial state, and its object invariant `Valid` (a 3×3 board, a line-free player to move, X to move iff the mark count is even) holds |
| Engine.TicTacToeModel.CheckIllegalIndex | controller/src/tictactoe/TicTacToeModel.java:192-198 | passes iff 0 <= r <= 2 and 0 <= c <= 2; otherwise an invalid argument |
| Engine.TicTacToeModel.Move | controller/src/tictactoe/TicTacToeModel.java:54-65 | the outcome and the new board and turn are those of `MoveResult`; a failed move leaves the state unchanged; `Valid` is kept |
| Engine.TicTacToeModel.Occupy | controller/src/tictactoe/TicTacToeModel.java:63-64 | once every check of `move` has passed, the mark of the player to move is written and the turn passes, giving the state `MoveResult` names, with `Valid` kept |
| Engine.TicTacToeModel.GetTurn | controller/src/tictactoe/TicTacToeModel.java:67-70 | returns the player to move |
| Engine.TicTacToeModel.IsGameOver | controller/src/tictactoe/TicTacToeModel.java:72-78 | true iff some player owns one of the 8 lines or all nine cells are occupied |
| Engine.TicTacToeModel.GetWinner | controller/src/tictactoe/TicTacToeModel.java:80-88 | the player not to move when a line is complete, else none (a full board without a line included); a player is named iff some line is complete, and the player named owns a line while the other owns none |
| Engine.TicTacToeModel.GetBoard | controller/src/tictactoe/TicTacToeModel.java:90-95 | a freshly allocated 3×3 array with the same cells as the board |
| Engine.TicTacToeModel.GetMarkAt | controller/src/tictactoe/TicTacToeModel.java:97-101 | the mark at (r, c) when in range, an invalid argument otherwise |
| Engine.TicTacToeModel.ToString | controller/src/tictactoe/TicTacToeModel.java:27-33 | the rendering of the board: 56 characters from which the board reads back |
| Engine.TicTacToeModel.UpdateTurn | controller/src/tictactoe/TicTacToeModel.java:106-112 | the turn passes to the other player and nothing else changes |
| Engine.TicTacToeModel.GetNextPlayer | controller/src/tictactoe/TicTacToeModel.java:119-121 | the player who is not to move |
| Engine.TicTacToeModel.IsColWin | controller/src/tictactoe/TicTacToeModel.java:142-150 | the nested copying loops build the transpose, and the result is the row scan of it |
| Engine.TicTacToeModel.IsDiagWin | controller/src/tictactoe/TicTacToeModel.java:158-171 | the loop stepping j up and q down collects both diagonals, and the result is the row scan of them |
| Engine.GetBoardIsACopy | model/test/TicTacToeModelTest.java:431-437 | writing into the array `getBoard` returned does not change what `getMarkAt` reports |
| Console.NextToken | controller/src/tictactoe/TicTacToeConsoleController.java:104-120 | the end of the input gives the quit code; otherwise one token is consumed; only the skip code comes with a diagnostic |
| Console.InvalidNumber | controller/src/tictactoe/TicTacToeConsoleController.java:113-115 | the diagnostic for a word that is neither an integer nor `q`: `"Not a valid number: "`, the word, a newline |
| Console.Minus1 | controller/src/tictactoe/TicTacToeConsoleController.java:73 | Java's `int` subtraction of one, wrapping the smallest value to the largest |
| Console.Minus1OnBoard | controller/src/tictactoe/TicTacToeConsoleController.java:73 | the engine receives an in-range coordinate iff the typed value is 1, 2 or 3 |
| Console.Prompt | controller/src/tictactoe/TicTacToeConsoleController.java:47-51 | the board, a newline and `"Enter a move for <P>:\n"` |
| Console.QuitMessage | controller/src/tictactoe/TicTacToeConsoleController.java:58-61 | `"Game quit! Ending game state:\n"`, the board and a newline |
| Console.GameOverMessage | controller/src/tictactoe/TicTacToeConsoleController.java:85-94 | the board, `"\nGame is over! "`, then `"Tie game."` when `getWinner` is null and `"<W> wins."` otherwise |
| Console.InvalidMove | controller/src/tictactoe/TicTacToeConsoleController.java:77-78 | `"Not a valid move: a, b\n"` with the typed values in `%d` form; `Decimal.IntRoundTrip` states that each value reads back from it |
| Console.MessagesShowBoard | controller/src/tictactoe/TicTacToeConsoleController.java:47-94 | the prompt, the quit report and the game-over report each contain the current board in text that reads back as the board, and the prompt names the player to move |
| Console.Iterate | controller/src/tictactoe/TicTacToeConsoleController.java:45-95 | one pass of the loop: a finished game stops with the game-over report; otherwise the prompt when `updated`, then one call of `next`; a pass that goes on consumes exactly one token, and a pass that stops leaves the engine and the buffer as they were |
| Console.Consume | controller/src/tictactoe/TicTacToeConsoleController.java:55-82 | the part of a pass after `next`: quit, skip, or buffer a coordinate and submit a completed pair; only the quit code stops, and the engine and buffer are left as they were when it does |
| Console.Run | controller/src/tictactoe/TicTacToeConsoleController.java:45-95 | the whole loop and its final report, pass after pass; the `Run` lemmas below state what it guarantees |
| Console.QuitEndsSession | controller/src/tictactoe/TicTacToeConsoleController.java:58-63 | `q` or `Q` ends the loop with the quit report, keeps the buffer, and gives no game-over report |
| Console.EndOfInputQuits | controller/src/tictactoe/TicTacToeConsoleController.java:117-118 | running out of input ends the loop exactly like `q` |
| Console.MinusTwoQuits | controller/src/tictactoe/TicTacToeConsoleController.java:58-63 | the integer -2 behaves exactly as the token `q` |
| Console.MinusOneSkipped | controller/src/tictactoe/TicTacToeConsoleController.java:65-67 | the integer -1 is dropped with no output and the buffer untouched |
| Console.GarbageKeepsBuffer | controller/src/tictactoe/TicTacToeConsoleController.java:108-116 | any other word appends `"Not a valid number: <word>\n"` and keeps an entered row |
| Console.RowBuffered | controller/src/tictactoe/TicTacToeConsoleController.java:69-71 | a first coordinate is buffered and nothing is written |
| Console.PairSubmitted | controller/src/tictactoe/TicTacToeConsoleController.java:71-82 | a completed pair (a, b) goes to the engine as (a-1, b-1) and the buffer empties; acceptance re-renders next pass; rejection appends `"Not a valid move: a, b\n"` with the typed values and does not re-render |
| Console.MoveEntered | controller/src/tictactoe/TicTacToeConsoleController.java:47-76 | two accepted coordinates after a prompt make the move and lead to the next prompt, with nothing else written |
| Console.StopReports | controller/src/tictactoe/TicTacToeConsoleController.java:58-63 | a pass that ends the loop only appends, and the output ends with the quit report or, when the game is over, the game-over report |
| Console.ContinueKeeps | controller/src/tictactoe/TicTacToeConsoleController.java:56-82 | a pass that goes on consumes one token, only appends, keeps at most one coordinate pending, keeps every mark, and keeps the player to move line-free |
| Console.RunAppendsOnly | controller/src/tictactoe/TicTacToeConsoleController.java:36-96 | the loop only appends to the output |
| Console.RunBufferBound | controller/src/tictactoe/TicTacToeConsoleController.java:69-82 | between passes at most one coordinate is pending |
| Console.RunEndsWithReport | controller/src/tictactoe/TicTacToeConsoleController.java:85-95 | a session ends with the board and `"Game is over! "` + verdict when the game is over, and with the quit report otherwise |
| Console.RunLeavesSuffix | controller/src/tictactoe/TicTacToeConsoleController.java:104-119 | the loop leaves a suffix of its input unread |
| Console.RunKeepsMarks | controller/src/tictactoe/TicTacToeConsoleController.java:71-76 | the loop never clears or overwrites a mark, and keeps the player to move line-free |
| Console.SessionVerdictIsRight | controller/src/tictactoe/TicTacToeConsoleController.java:85-95 | from a fresh engine, `"<W> wins."` names a player who owns a line while the other owns none, and `"Tie game."` comes only on a full board with no line |
| ConsoleController.TicTacToeConsoleController.constructor | controller/src/tictactoe/TicTacToeConsoleController.java:27-34 | stores the input and output and starts with an empty buffer |
| ConsoleController.TicTacToeConsoleController.Create | controller/src/tictactoe/TicTacToeConsoleController.java:27-34 | a null input or output is an invalid argument; otherwise a new controller with an empty buffer |
| ConsoleController.TicTacToeConsoleController.AppendOut | controller/src/tictactoe/TicTacToeConsoleController.java:127-133 | appends the text to the output |
| ConsoleController.TicTacToeConsoleController.Next | controller/src/tictactoe/TicTacToeConsoleController.java:104-120 | returns the code of `NextToken`, consumes its token and writes its diagnostic |
| ConsoleController.TicTacToeConsoleController.PlayGame | controller/src/tictactoe/TicTacToeConsoleController.java:36-96 | a null engine is an invalid argument; otherwise the engine, buffer, output and unread input end as `Run` from the state at the call |
| ConsoleController.TicTacToeConsoleController.PlayPass | controller/src/tictactoe/TicTacToeConsoleController.java:47-82 | one loop pass changes the engine, buffer, `updated`, input and output as `Iterate` says for a game that is not over: the prompt when `updated`, one call of `next`, then what `Consume` gives |
| ConsoleController.TicTacToeConsoleController.ShowPrompt | controller/src/tictactoe/TicTacToeConsoleController.java:47-51 | appends `Prompt` of the engine's state and leaves the engine unchanged |
| ConsoleController.TicTacToeConsoleController.ReportQuit | controller/src/tictactoe/TicTacToeConsoleController.java:58-61 | appends `QuitMessage` of the engine's state and leaves the engine unchanged |
| ConsoleController.TicTacToeConsoleController.Record | controller/src/tictactoe/TicTacToeConsoleController.java:69-82 | buffers a coordinate and submits a completed pair to the engine, as `Consume` says |
| ConsoleController.TicTacToeConsoleController.VerdictText | controller/src/tictactoe/TicTacToeConsoleController.java:89-93 | `"Tie game."` when the engine names no winner, `"<W> wins."` otherwise |
| ConsoleController.TicTacToeConsoleController.ReportGameOver | controller/src/tictactoe/TicTacToeConsoleController.java:85-95 | appends the board, `"\nGame is over! "` and `"Tie game."` or `"<W> wins."` |
| Transcripts.SingleValidMoveSession | controller/test/TicTacToeControllerTest.java:36-60 | `"2 2 q"` prompts X, places X in the centre, prompts O, then quits |
| Transcripts.SingleValidMoveTranscript | controller/test/TicTacToeControllerTest.java:36-60 | `"2 2 q"` writes exactly the transcript the test expects |
| Transcripts.SingleValidMoveGame | controller/test/TicTacToeControllerTest.java:36-60 | the same transcript from a real engine, controller and log |
| Transcripts.MoveOutsideBoardSession | controller/test/TicTacToeControllerTest.java:203-213 | `"5 6 q"` writes one prompt, `"Not a valid move: 5, 6\n"` and the quit report |
| Transcripts.BogusRowSession | controller/test/TicTacToeControllerTest.java:65-86 | `"!#$ 2 q"` reports the word, buffers the 2 and quits with it still pending |
| Transcripts.NullArgumentsRefused | controller/test/TicTacToeControllerTest.java:179-201 | a null input to the constructor and a null engine to `playGame` are invalid arguments |

## Left out

- How `java.util.Scanner` splits the input and recognises integers is not modelled: locale, radix, and integer overflow that turns a token into a word. The input is a sequence of tokens, each already an `int` or a word.
- The token type is wider than what the scanner produces: `Word` also admits the empty string, words containing whitespace and words that spell an in-range integer. The lemmas hold for these too; no session of the source can contain them.
- The default locale of `String.format("%d")` is not modelled: `InvalidMove` and `Decimal` write ASCII digits and a `-` sign, as the root and English locales do.
- One `Scanner` is created per `playGame` call and may read ahead of what it returns. The model consumes the token source one token at a time, so a second `playGame` on the same controller sees exactly the unread tokens.
- `AppendOut` never fails. The `IOException` path of `appendOut`, which turns into `IllegalStateException`, and the failing-`Appendable` test are not modelled, because the sink is an in-memory string.
- Exception messages are not modelled, only the exception kind (`IllegalArgument`, `IllegalState`).
- `PlayPass`, `ShowPrompt`, `ReportQuit`, `Record`, `ReportGameOver` and `VerdictText` are pieces of `playGame` (the loop body, its prompt, quit and coordinate branches, the final report and its verdict), and `Occupy` is the last two statements of `move`. They are split out so that each proof stays small; the source has no such methods.
- `GetBoard` returns a fresh `array2` where the source returns an array of row arrays. Aliasing between the rows of two copies cannot happen in either.
- The Swing view and its controller (`SwingTicTacToeView`, `SwingTicTacToeController`, `TicTacToeView`) are not part of this model. They only call the engine's public methods.
- The interface `TicTacToe` is not part of this model. The bound constants it declares are taken as 0 and 2.
- The full-game controller tests (X wins, O wins, a tie) are not replayed on concrete input, so neither their exact transcripts nor their line counts are proved. What is proved for every input: a session that ends on a finished game ends with the board and `"Game is over! "` plus a verdict (`Console.RunEndsWithReport`), and from a fresh engine `"<W> wins."` names a player who owns a line while the other owns none, and `"Tie game."` comes only on a full board with no line (`Console.SessionVerdictIsRight`). That a given sequence such as `1 1 1 2 2 2 3 3 2 1 3 1 2 3` ends in `"X wins."` is not proved.
