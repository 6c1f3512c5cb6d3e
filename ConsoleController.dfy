/**
 * `TicTacToeConsoleController`: reads moves from a token source, drives a
 * `TicTacToeModel` and appends a transcript to an output sink. The loop of
 * `PlayGame` is proved to end exactly where the function `Console.Run` says.
 */
module ConsoleController {
  import opened Results
  import opened Board
  import opened Engine
  import opened Console

  /** The `Readable` the controller reads, already split into tokens. */
  class TokenSource {
    var tokens: seq<Token>

    constructor (tokens: seq<Token>)
      ensures this.tokens == tokens
    {
      this.tokens := tokens;
    }
  }

  /** The `Appendable` the controller writes to. */
  class Sink {
    var text: string

    constructor ()
      ensures text == ""
    {
      text := "";
    }

    method Append(s: string)
      modifies this
      ensures text == old(text) + s
    {
      text := text + s;
    }
  }

  class TicTacToeConsoleController {
    const input: TokenSource
    const output: Sink
    /** Coordinates typed so far for the move being entered. */
    var move: seq<int32>

    /** Between calls at most one coordinate is pending. */
    ghost predicate Valid()
      reads this
    {
      |move| <= 1
    }

    constructor (input: TokenSource, output: Sink)
      ensures Valid() && this.input == input && this.output == output && move == []
    {
      this.input := input;
      this.output := output;
      move := [];
    }

    /** The constructor's null checks: either argument missing is an invalid argument. */
    static method Create(input: TokenSource?, output: Sink?) returns (r: Result<TicTacToeConsoleController>)
      ensures r.Err? <==> input == null || output == null
      ensures r.Err? ==> r.failure == IllegalArgument
      ensures r.Ok? ==> fresh(r.value) && r.value.Valid()
                        && r.value.input == input && r.value.output == output && r.value.move == []
    {
      if input == null || output == null {
        return Err(IllegalArgument);
      }
      var c := new TicTacToeConsoleController(input, output);
      return Ok(c);
    }

    /** `appendOut`. */
    method AppendOut(s: string)
      modifies output
      ensures output.text == old(output.text) + s
    {
      output.Append(s);
    }

    /** `next`: one scanner step, as `NextToken` describes it. */
    method Next() returns (code: int32)
      modifies input, output
      ensures var s := NextToken(old(input.tokens));
              code == s.code && input.tokens == s.rest && output.text == old(output.text) + s.diag
    {
      if |input.tokens| == 0 {
        return QuitCode;
      }
      var t := input.tokens[0];
      input.tokens := input.tokens[1..];
      match t
      case Num(n) =>
        code := n;
      case Word(w) =>
        if IsQuit(w) {
          code := QuitCode;
        } else {
          AppendOut(InvalidNumber(w));
          code := SkipCode;
        }
    }

    /**
     * `playGame`: a missing engine is an invalid argument; otherwise the
     * engine, the pending coordinates, the transcript and the unread input end
     * as `Run` from the state at the call, starting with a render.
     */
    method PlayGame(m: TicTacToeModel?) returns (r: Outcome)
      requires Valid()
      requires m != null ==> m.Valid()
      modifies this, input, output, m, if m == null then null else m.board
      ensures m == null ==> r == Fail(IllegalArgument) && unchanged(this, input, output)
      ensures m != null ==>
                var l := Run(old(m.State()), old(move), true, old(input.tokens), old(output.text));
                r == Pass && Valid() && m.Valid()
                && m.State() == l.game && move == l.buf && output.text == l.out && input.tokens == l.rest
    {
      if m == null {
        return Fail(IllegalArgument);
      }
      ghost var end := Run(m.State(), move, true, input.tokens, output.text);
      var updated := true;
      var over := m.IsGameOver();
      while !over
        invariant m.Valid() && |move| <= 1
        invariant over <==> GameOver(m.State().grid)
        invariant Run(m.State(), move, updated, input.tokens, output.text) == end
        decreases |input.tokens|
      {
        ghost var g, buf, upd, toks, out := m.State(), move, updated, input.tokens, output.text;
        assert Iterate(g, buf, upd, toks, out) == Consume(g, buf, NextToken(toks), Shown(g, upd, out));
        var quit;
        updated, quit := PlayPass(m, updated);
        if quit {
          RunStops(g, buf, upd, toks, out);
          break;
        }
        RunContinues(g, buf, upd, toks, out);
        over := m.IsGameOver();
      }
      over := m.IsGameOver();
      if over {
        RunStops(m.State(), move, updated, input.tokens, output.text);
        ReportGameOver(m);
      }
      return Pass;
    }

    /**
     * The body of the `playGame` loop once its condition held: the prompt
     * when `updated`, one call of `next`, then the quit, skip or coordinate
     * branch, as `Consume` describes it.
     */
    method PlayPass(m: TicTacToeModel, updated: bool) returns (updated': bool, quit: bool)
      requires Valid() && m.Valid()
      modifies this, input, output, m, m.board
      ensures Valid() && m.Valid()
      ensures var g := old(m.State());
              var st := Consume(g, old(move), NextToken(old(input.tokens)), Shown(g, updated, old(output.text)));
              if quit then st == Stop(Loop(m.State(), move, output.text, input.tokens))
              else st == Continue(m.State(), move, updated', input.tokens, output.text)
    {
      ghost var g, buf, toks, out := m.State(), move, input.tokens, output.text;
      if updated {
        ShowPrompt(m);
      }
      updated' := false;
      ghost var shown := output.text;
      assert shown == Shown(g, updated, out);
      var num := Next();
      ghost var sc := NextToken(toks);
      quit := num == QuitCode;
      if quit {
        assert output.text == shown && m.State() == g && move == buf;
        ReportQuit(m);
        assert sc.code == QuitCode && sc.rest == input.tokens && output.text == shown + QuitMessage(g);
        assert Consume(g, buf, sc, shown) == Stop(Loop(g, buf, output.text, input.tokens));
        return;
      }
      if num == SkipCode {
        assert Consume(g, buf, sc, shown) == Continue(g, buf, false, input.tokens, output.text);
      } else {
        assert sc == Scan(num, "", input.tokens);
        assert output.text == shown && m.State() == g && move == buf;
        updated' := Record(m, num, input.tokens);
        assert Consume(g, buf, sc, shown) == Continue(m.State(), move, updated', input.tokens, output.text);
      }
    }

    /**
     * The coordinate branch of the `playGame` loop: `num` joins the pending
     * coordinates, and a completed pair goes to the engine as `Consume`
     * describes it.
     */
    method Record(m: TicTacToeModel, num: int32, ghost rest: seq<Token>) returns (updated: bool)
      requires Valid() && m.Valid() && num != QuitCode && num != SkipCode
      modifies this, output, m, m.board
      ensures Valid() && m.Valid()
      ensures Consume(old(m.State()), old(move), Scan(num, "", rest), old(output.text))
              == Continue(m.State(), move, updated, rest, output.text)
    {
      updated := false;
      move := move + [num];
      if |move| == 2 {
        var res := m.Move(Minus1(move[0]) as int, Minus1(move[1]) as int);
        if res.Pass? {
          updated := true;
        } else {
          AppendOut(InvalidMove(move[0], move[1]));
        }
        move := [];
      }
    }

    /** The board and the prompt for the player to move. */
    method ShowPrompt(m: TicTacToeModel)
      requires m.Valid()
      modifies output
      ensures m.Valid() && m.State() == old(m.State())
      ensures output.text == old(output.text) + Prompt(m.State())
    {
      var board := m.ToString();
      var t := m.GetTurn();
      AppendOut(board + "\n" + "Enter a move for " + Show(t) + ":\n");
    }

    /** The report when the user quits: the message and the board. */
    method ReportQuit(m: TicTacToeModel)
      requires m.Valid()
      modifies output
      ensures m.Valid() && m.State() == old(m.State())
      ensures output.text == old(output.text) + QuitMessage(m.State())
    {
      var board := m.ToString();
      AppendOut("Game quit! Ending game state:\n" + board + "\n");
    }

    /** The report after the loop when the game is over: the board and the verdict. */
    method ReportGameOver(m: TicTacToeModel)
      requires m.Valid() && GameOver(m.State().grid)
      modifies output
      ensures output.text == old(output.text) + GameOverMessage(m.State())
    {
      var board := m.ToString();
      var verdict := VerdictText(m);
      AppendOut(board + "\n" + "Game is over! " + verdict);
    }

    /** The verdict of the report: "Tie game." with no winner, else "<W> wins.". */
    method VerdictText(m: TicTacToeModel) returns (text: string)
      requires m.Valid()
      ensures text == Verdict(Winner(m.State()))
    {
      var w := m.GetWinner();
      if w == None {
        text := "Tie game.";
      } else {
        text := Show(w.value) + " wins.";
      }
    }
  }
}
