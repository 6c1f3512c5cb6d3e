/**
 * The console control loop of `TicTacToeConsoleController.playGame`, as a
 * function of the engine state, the pending-move buffer, the `updated` flag,
 * the remaining input tokens and the output written so far. The class in
 * ConsoleController.dfy runs the loop imperatively and is proved to end in
 * the state `Run` describes.
 */
module Console {
  import opened Results
  import opened Board
  import opened Engine
  import opened Decimal

  /** Java's 32-bit `int`. */
  newtype int32 = x: int | -0x8000_0000 <= x < 0x8000_0000

  /**
   * An input token as the scanner classifies it: one that `nextInt` accepts,
   * or any other word.
   */
  datatype Token = Num(n: int32) | Word(w: string)

  /** The codes `next` returns besides a real integer. */
  const QuitCode: int32 := -2
  const SkipCode: int32 := -1

  /** What `next` returns, what it writes, and the input it leaves. */
  datatype Scan = Scan(code: int32, diag: string, rest: seq<Token>)

  /** `equalsIgnoreCase("q")`. */
  predicate IsQuit(w: string) {
    w == "q" || w == "Q"
  }

  function InvalidNumber(w: string): string {
    "Not a valid number: " + w + "\n"
  }

  /**
   * `next`: an integer token is returned as it is; `q`, `Q` and the end of the
   * input give the quit code; any other word is reported and gives the skip
   * code. Exactly one token is consumed when there is one.
   */
  function NextToken(toks: seq<Token>): (s: Scan)
    ensures |toks| == 0 ==> s == Scan(QuitCode, "", [])
    ensures |toks| > 0 ==> s.rest == toks[1..]
    ensures s.code != SkipCode ==> s.diag == ""
  {
    if |toks| == 0 then Scan(QuitCode, "", [])
    else
      match toks[0]
      case Num(n) => Scan(n, "", toks[1..])
      case Word(w) =>
        if IsQuit(w) then Scan(QuitCode, "", toks[1..])
        else Scan(SkipCode, InvalidNumber(w), toks[1..])
  }

  const MinInt: int32 := -0x8000_0000
  const MaxInt: int32 := 0x7fff_ffff

  /** Java's `x - 1` on `int`, wrapping below the smallest value. */
  function Minus1(x: int32): (y: int32)
    ensures x != MinInt ==> y as int == x as int - 1
    ensures x == MinInt ==> y == MaxInt
  {
    if x == MinInt then MaxInt else x - 1
  }

  /** The board text followed by the prompt for the player to move. */
  function Prompt(g: Game): string {
    Render(g.grid) + "\n" + "Enter a move for " + Show(g.turn) + ":\n"
  }

  function QuitMessage(g: Game): string {
    "Game quit! Ending game state:\n" + Render(g.grid) + "\n"
  }

  function Verdict(w: Option<Player>): string {
    match w
    case None => "Tie game."
    case Some(p) => Show(p) + " wins."
  }

  function GameOverMessage(g: Game): string
    requires IsGrid(g.grid)
  {
    Render(g.grid) + "\n" + "Game is over! " + Verdict(Winner(g))
  }

  /**
   * The prompt, the quit report and the game-over report each show the
   * current board: the 56 characters after their fixed header read back as
   * the board, and the prompt names the player to move.
   */
  lemma MessagesShowBoard(g: Game)
    requires IsGrid(g.grid)
    ensures |Prompt(g)| == 77 && ReadBack(Prompt(g)[..56]) == g.grid && Prompt(g)[74] == Show(g.turn)[0]
    ensures |QuitMessage(g)| == 87 && ReadBack(QuitMessage(g)[30..86]) == g.grid
    ensures |GameOverMessage(g)| > 56 && ReadBack(GameOverMessage(g)[..56]) == g.grid
  {
    RenderReadBack(g.grid);
    var b := Render(g.grid);
    assert Prompt(g)[..56] == b;
    assert QuitMessage(g)[30..86] == b;
    assert GameOverMessage(g)[..56] == b;
  }

  /** `String.format("Not a valid move: %d, %d\n", a, b)`. */
  function InvalidMove(a: int32, b: int32): string {
    "Not a valid move: " + IntToString(a as int) + ", " + IntToString(b as int) + "\n"
  }

  /** The output after the top of a loop iteration: the prompt when `updated`. */
  function Shown(g: Game, updated: bool, out: string): string {
    if updated then out + Prompt(g) else out
  }

  /** Where `playGame` stops: engine state, buffer, output, unread input. */
  datatype Loop = Loop(game: Game, buf: seq<int32>, out: string, rest: seq<Token>)

  /** The outcome of one pass through the loop: the loop ends, or goes on from a new state. */
  datatype Step =
    | Stop(last: Loop)
    | Continue(game: Game, buf: seq<int32>, updated: bool, rest: seq<Token>, out: string)

  /**
   * One pass of the `playGame` loop: the game-over test of the loop condition
   * (with the final report when it fails), the prompt when `updated`, one
   * call of `next`, and the quit, skip or coordinate branch.
   */
  function Iterate(g: Game, buf: seq<int32>, updated: bool, toks: seq<Token>, out: string): (st: Step)
    requires IsGrid(g.grid)
    ensures st.Continue? ==> IsGrid(st.game.grid) && |toks| > 0 && st.rest == toks[1..]
    ensures st.Stop? ==> st.last.game == g && st.last.buf == buf
  {
    if GameOver(g.grid) then Stop(Loop(g, buf, out + GameOverMessage(g), toks))
    else Consume(g, buf, NextToken(toks), Shown(g, updated, out))
  }

  /**
   * The part of a pass after `next` returned: quit with the report, skip, or
   * record a coordinate and submit a completed pair (a, b) to the engine as
   * (a-1, b-1), emptying the buffer either way.
   */
  function Consume(g: Game, buf: seq<int32>, s: Scan, shown: string): (st: Step)
    requires IsGrid(g.grid)
    ensures st.Continue? ==> IsGrid(st.game.grid) && s.code != QuitCode && st.rest == s.rest
    ensures st.Stop? ==> st.last.game == g && st.last.buf == buf
  {
    if s.code == QuitCode then Stop(Loop(g, buf, shown + QuitMessage(g), s.rest))
    else if s.code == SkipCode then Continue(g, buf, false, s.rest, shown + s.diag)
    else
      var pending := buf + [s.code];
      if |pending| == 2 then
        match MoveResult(g, Minus1(pending[0]) as int, Minus1(pending[1]) as int)
        case Ok(h) => Continue(h, [], true, s.rest, shown)
        case Err(_) => Continue(g, [], false, s.rest, shown + InvalidMove(pending[0], pending[1]))
      else Continue(g, pending, false, s.rest, shown)
  }

  /** The `playGame` loop from a given state to its end, including the final report. */
  function Run(g: Game, buf: seq<int32>, updated: bool, toks: seq<Token>, out: string): (l: Loop)
    requires IsGrid(g.grid)
    ensures IsGrid(l.game.grid)
    decreases |toks|
  {
    match Iterate(g, buf, updated, toks, out)
    case Stop(l) => l
    case Continue(h, b, u, t, o) => Run(h, b, u, t, o)
  }

  /** A pass that ends the loop gives the loop's result. */
  lemma RunStops(g: Game, buf: seq<int32>, updated: bool, toks: seq<Token>, out: string)
    requires IsGrid(g.grid) && Iterate(g, buf, updated, toks, out).Stop?
    ensures Run(g, buf, updated, toks, out) == Iterate(g, buf, updated, toks, out).last
  {
  }

  /** A pass that goes on leaves the rest of the loop to run from its new state. */
  lemma RunContinues(g: Game, buf: seq<int32>, updated: bool, toks: seq<Token>, out: string)
    requires IsGrid(g.grid) && Iterate(g, buf, updated, toks, out).Continue?
    ensures var st := Iterate(g, buf, updated, toks, out);
            Run(g, buf, updated, toks, out) == Run(st.game, st.buf, st.updated, st.rest, st.out)
  {
  }

  /** A whole session on a fresh controller buffer, starting with a render. */
  function Session(g: Game, toks: seq<Token>): (l: Loop)
    requires IsGrid(g.grid)
  {
    Run(g, [], true, toks, "")
  }

  predicate EndsWith(s: string, suffix: string) {
    |suffix| <= |s| && s[|s| - |suffix|..] == suffix
  }

  // ---------------------------------------------------------------------
  // One iteration
  // ---------------------------------------------------------------------

  /** The coordinates the engine receives are the typed ones minus one. */
  lemma Minus1OnBoard(x: int32)
    ensures 0 <= Minus1(x) as int < Size <==> 1 <= x as int <= 3
  {
  }

  /** `q` or `Q` ends the loop with the quit report and no game-over report. */
  lemma QuitEndsSession(g: Game, buf: seq<int32>, updated: bool, w: string, rest: seq<Token>, out: string)
    requires IsGrid(g.grid) && !GameOver(g.grid) && IsQuit(w)
    ensures Run(g, buf, updated, [Word(w)] + rest, out) == Loop(g, buf, Shown(g, updated, out) + QuitMessage(g), rest)
  {
  }

  /** Running out of input ends the loop exactly as `q` does. */
  lemma EndOfInputQuits(g: Game, buf: seq<int32>, updated: bool, out: string)
    requires IsGrid(g.grid) && !GameOver(g.grid)
    ensures Run(g, buf, updated, [], out) == Loop(g, buf, Shown(g, updated, out) + QuitMessage(g), [])
  {
  }

  /** The integer -2 is indistinguishable from the quit token. */
  lemma MinusTwoQuits(g: Game, buf: seq<int32>, updated: bool, rest: seq<Token>, out: string)
    requires IsGrid(g.grid) && !GameOver(g.grid)
    ensures Run(g, buf, updated, [Num(-2)] + rest, out) == Run(g, buf, updated, [Word("q")] + rest, out)
  {
    assert ([Num(-2)] + rest)[1..] == rest;
    assert ([Word("q")] + rest)[1..] == rest;
  }

  /** The integer -1 is dropped without a diagnostic and without touching the buffer. */
  lemma MinusOneSkipped(g: Game, buf: seq<int32>, updated: bool, rest: seq<Token>, out: string)
    requires IsGrid(g.grid) && !GameOver(g.grid)
    ensures Run(g, buf, updated, [Num(-1)] + rest, out) == Run(g, buf, false, rest, Shown(g, updated, out))
  {
    assert ([Num(-1)] + rest)[1..] == rest;
    assert Shown(g, updated, out) + "" == Shown(g, updated, out);
  }

  /** Any other word is reported and dropped; an entered row survives it. */
  lemma GarbageKeepsBuffer(g: Game, buf: seq<int32>, updated: bool, w: string, rest: seq<Token>, out: string)
    requires IsGrid(g.grid) && !GameOver(g.grid) && !IsQuit(w)
    ensures Run(g, buf, updated, [Word(w)] + rest, out)
         == Run(g, buf, false, rest, Shown(g, updated, out) + InvalidNumber(w))
  {
  }

  /** A first coordinate is buffered; nothing is written for it. */
  lemma RowBuffered(g: Game, updated: bool, a: int32, rest: seq<Token>, out: string)
    requires IsGrid(g.grid) && !GameOver(g.grid) && a != QuitCode && a != SkipCode
    ensures Run(g, [], updated, [Num(a)] + rest, out) == Run(g, [a], false, rest, Shown(g, updated, out))
  {
    assert ([Num(a)] + rest)[1..] == rest;
    assert [] + [a] == [a];
  }

  /**
   * A completed pair (a, b) is sent to the engine as (a-1, b-1) and the
   * buffer is emptied. On success the next iteration renders the board and
   * the prompt; on failure the diagnostic with the typed values is written
   * and nothing is rendered.
   */
  lemma PairSubmitted(g: Game, a: int32, updated: bool, b: int32, rest: seq<Token>, out: string)
    requires IsGrid(g.grid) && !GameOver(g.grid) && b != QuitCode && b != SkipCode
    ensures var shown := Shown(g, updated, out);
            Run(g, [a], updated, [Num(b)] + rest, out) ==
              match MoveResult(g, Minus1(a) as int, Minus1(b) as int)
              case Ok(h) => Run(h, [], true, rest, shown)
              case Err(_) => Run(g, [], false, rest, shown + InvalidMove(a, b))
  {
    assert ([a] + [b])[0] == a && ([a] + [b])[1] == b;
  }

  /**
   * Two coordinates the engine accepts, typed after a prompt: the move is
   * made and the next pass prompts again; nothing else is written.
   */
  lemma MoveEntered(g: Game, a: int32, b: int32, rest: seq<Token>, out: string)
    requires IsGrid(g.grid) && !GameOver(g.grid)
    requires a != QuitCode && a != SkipCode && b != QuitCode && b != SkipCode
    requires MoveResult(g, Minus1(a) as int, Minus1(b) as int).Ok?
    ensures Run(g, [], true, [Num(a), Num(b)] + rest, out)
         == Run(MoveResult(g, Minus1(a) as int, Minus1(b) as int).value, [], true, rest, out + Prompt(g))
  {
    assert [Num(a), Num(b)] + rest == [Num(a)] + ([Num(b)] + rest);
    RowBuffered(g, true, a, [Num(b)] + rest, out);
    PairSubmitted(g, a, false, b, rest, out + Prompt(g));
  }

  // ---------------------------------------------------------------------
  // Whole sessions
  // ---------------------------------------------------------------------

  /** What a pass that ends the loop leaves: the report that closes the output. */
  lemma StopReports(g: Game, buf: seq<int32>, updated: bool, toks: seq<Token>, out: string)
    requires IsGrid(g.grid) && Iterate(g, buf, updated, toks, out).Stop?
    ensures var l := Iterate(g, buf, updated, toks, out).last;
            out <= l.out && |l.rest| <= |toks| && l.rest == toks[|toks| - |l.rest|..]
            && EndsWith(l.out, if GameOver(g.grid) then GameOverMessage(g) else QuitMessage(g))
  {
    var l := Iterate(g, buf, updated, toks, out).last;
    var m := if GameOver(g.grid) then GameOverMessage(g) else QuitMessage(g);
    assert l.out[|l.out| - |m|..] == m;
  }

  /**
   * What a pass that goes on keeps: it consumes one token, only appends to
   * the output, leaves at most one coordinate pending, never clears or
   * overwrites a mark, and hands the turn to a player who owns no line.
   */
  lemma ContinueKeeps(g: Game, buf: seq<int32>, updated: bool, toks: seq<Token>, out: string)
    requires IsGrid(g.grid) && Iterate(g, buf, updated, toks, out).Continue?
    ensures var st := Iterate(g, buf, updated, toks, out);
            && st.rest == toks[1..]
            && out <= st.out
            && (|buf| <= 1 ==> |st.buf| <= 1)
            && (forall i, j :: 0 <= i < Size && 0 <= j < Size && g.grid[i][j] != None ==> st.game.grid[i][j] == g.grid[i][j])
            && (TurnLineFree(g) ==> TurnLineFree(st.game))
  {
    var s := NextToken(toks);
    var pending := buf + [s.code];
    if s.code != SkipCode && |pending| == 2 {
      var r, c := Minus1(pending[0]) as int, Minus1(pending[1]) as int;
      if MoveResult(g, r, c).Ok? {
        MoveSucceeds(g, r, c);
        MoveKeepsTurnLineFree(g, r, c);
      }
    }
  }

  /** The loop only appends to its output. */
  lemma {:induction false} RunAppendsOnly(g: Game, buf: seq<int32>, updated: bool, toks: seq<Token>, out: string)
    requires IsGrid(g.grid)
    ensures out <= Run(g, buf, updated, toks, out).out
    decreases |toks|
  {
    match Iterate(g, buf, updated, toks, out)
    case Stop(_) =>
      StopReports(g, buf, updated, toks, out);
    case Continue(h, b, u, t, o) =>
      ContinueKeeps(g, buf, updated, toks, out);
      RunAppendsOnly(h, b, u, t, o);
  }

  /** The pending buffer never holds more than one coordinate between iterations. */
  lemma {:induction false} RunBufferBound(g: Game, buf: seq<int32>, updated: bool, toks: seq<Token>, out: string)
    requires IsGrid(g.grid) && |buf| <= 1
    ensures |Run(g, buf, updated, toks, out).buf| <= 1
    decreases |toks|
  {
    match Iterate(g, buf, updated, toks, out)
    case Stop(_) =>
    case Continue(h, b, u, t, o) =>
      ContinueKeeps(g, buf, updated, toks, out);
      RunBufferBound(h, b, u, t, o);
  }

  /**
   * The loop stops in one of two ways: the game is over and the output ends
   * with the board and the game-over verdict, or it was quit (by `q`, by -2 or
   * by the end of the input) and the output ends with the quit report.
   */
  lemma {:induction false} RunEndsWithReport(g: Game, buf: seq<int32>, updated: bool, toks: seq<Token>, out: string)
    requires IsGrid(g.grid)
    ensures var l := Run(g, buf, updated, toks, out);
            EndsWith(l.out, if GameOver(l.game.grid) then GameOverMessage(l.game) else QuitMessage(l.game))
    decreases |toks|
  {
    match Iterate(g, buf, updated, toks, out)
    case Stop(_) =>
      StopReports(g, buf, updated, toks, out);
    case Continue(h, b, u, t, o) =>
      RunEndsWithReport(h, b, u, t, o);
  }

  /** The loop leaves a suffix of its input unread. */
  lemma {:induction false} RunLeavesSuffix(g: Game, buf: seq<int32>, updated: bool, toks: seq<Token>, out: string)
    requires IsGrid(g.grid)
    ensures var rest := Run(g, buf, updated, toks, out).rest;
            |rest| <= |toks| && rest == toks[|toks| - |rest|..]
    decreases |toks|
  {
    match Iterate(g, buf, updated, toks, out)
    case Stop(_) =>
      StopReports(g, buf, updated, toks, out);
    case Continue(h, b, u, t, o) =>
      RunLeavesSuffix(h, b, u, t, o);
      var rest := Run(h, b, u, t, o).rest;
      assert t[|t| - |rest|..] == toks[|toks| - |rest|..];
  }

  /**
   * The loop never clears or overwrites a mark, and the player to move at its
   * end owns no line when that held at its start.
   */
  lemma {:induction false} RunKeepsMarks(g: Game, buf: seq<int32>, updated: bool, toks: seq<Token>, out: string)
    requires IsGrid(g.grid)
    ensures var h := Run(g, buf, updated, toks, out).game;
            (forall i, j :: 0 <= i < Size && 0 <= j < Size && g.grid[i][j] != None ==> h.grid[i][j] == g.grid[i][j])
            && (TurnLineFree(g) ==> TurnLineFree(h))
    decreases |toks|
  {
    match Iterate(g, buf, updated, toks, out)
    case Stop(_) =>
    case Continue(h, b, u, t, o) =>
      ContinueKeeps(g, buf, updated, toks, out);
      RunKeepsMarks(h, b, u, t, o);
  }

  /**
   * A session from a fresh engine that ends with "<W> wins." names a player
   * who owns a completed line while the other player owns none; one that ends
   * with "Tie game." ends on a full board with no line.
   */
  lemma SessionVerdictIsRight(toks: seq<Token>)
    ensures var l := Session(Initial(), toks);
            GameOver(l.game.grid) ==>
              match Winner(l.game)
              case Some(p) => EndsWith(l.out, Show(p) + " wins.") && HasLineOf(l.game.grid, p) && !HasLineOf(l.game.grid, Other(p))
              case None => EndsWith(l.out, "Tie game.") && !HasLine(l.game.grid) && AllFilled(l.game.grid)
  {
    var l := Session(Initial(), toks);
    InitialInvariant();
    RunKeepsMarks(Initial(), [], true, toks, "");
    RunEndsWithReport(Initial(), [], true, toks, "");
    if GameOver(l.game.grid) {
      WinnerOwnsLine(l.game);
      GameOverIff(l.game.grid);
      var m := GameOverMessage(l.game);
      var v := Verdict(Winner(l.game));
      assert m[|m| - |v|..] == v;
      assert l.out[|l.out| - |v|..] == l.out[|l.out| - |m|..][|m| - |v|..];
    }
  }
}
