/**
 * Whole console sessions on concrete input, against the transcripts the
 * controller's tests expect.
 */
module Transcripts {
  import opened Results
  import opened Board
  import opened Engine
  import opened Console
  import opened ConsoleController

  /** The rows of the expected transcripts. */
  const BlankRow := "   |   |  "
  const CentreRow := "   | X |  "
  const Rule := "\n-----------\n"

  const EmptyBoardText := BlankRow + Rule + BlankRow + Rule + BlankRow
  const CentreXText := BlankRow + Rule + CentreRow + Rule + BlankRow

  /** The engine after X takes the centre. */
  function CentreX(): (g: Game)
    ensures IsGrid(g.grid)
  {
    Game(Place(Empty(), 1, 1, X), O)
  }

  lemma RowText(row: seq<Cell>)
    requires |row| == Size && row[0] == None && row[2] == None
    ensures RenderRow(row) == if row[1] == Some(X) then CentreRow else if row[1] == None then BlankRow else RenderRow(row)
  {
    RenderRowThree(row);
    if row[1] == None {
      assert " " + " " + " | " + " " + " | " + " " == BlankRow;
    } else if row[1] == Some(X) {
      assert " " + " " + " | " + "X" + " | " + " " == CentreRow;
    }
  }

  lemma EmptyBoardRendered()
    ensures Render(Empty()) == EmptyBoardText
  {
    var g := Empty();
    RenderThree(g);
    RowText(g[0]);
    RowText(g[1]);
    RowText(g[2]);
  }

  lemma CentreXRendered()
    ensures Render(CentreX().grid) == CentreXText
  {
    var g := CentreX().grid;
    RenderThree(g);
    RowText(g[0]);
    RowText(g[1]);
    RowText(g[2]);
  }

  /** Five empty cells that between them lie on every line keep a board open. */
  lemma BlockedBoardOpen(g: Grid)
    requires IsGrid(g)
    requires g[0][0] == None && g[0][1] == None && g[0][2] == None && g[1][0] == None && g[2][2] == None
    ensures !GameOver(g)
  {
    GameOverIff(g);
    forall k | 0 <= k < |Lines|
      ensures !Owns(g, Lines[k], X) && !Owns(g, Lines[k], O)
    {
    }
  }

  /** A fresh board and the board with X in the centre are not finished. */
  lemma EarlyBoardsNotOver()
    ensures !GameOver(Initial().grid) && !GameOver(CentreX().grid)
  {
    BlockedBoardOpen(Initial().grid);
    BlockedBoardOpen(CentreX().grid);
  }

  /** "2 2 q" as the controller sees it: one move, then a quit. */
  lemma SingleValidMoveSession()
    ensures Session(Initial(), [Num(2), Num(2), Word("q")])
         == Loop(CentreX(), [], Prompt(Initial()) + Prompt(CentreX()) + QuitMessage(CentreX()), [])
  {
    var g0, g1 := Initial(), CentreX();
    var t0: seq<Token> := [Num(2), Num(2), Word("q")];
    EarlyBoardsNotOver();
    assert Iterate(g0, [], true, t0, "") == Continue(g0, [2], false, t0[1..], Prompt(g0));
    assert Iterate(g0, [2], false, t0[1..], Prompt(g0)) == Continue(g1, [], true, t0[2..], Prompt(g0)) by {
      assert MoveResult(g0, 1, 1) == Ok(g1);
      assert [2] + [2 as int32] == [2, 2];
    }
    assert Iterate(g1, [], true, t0[2..], Prompt(g0)) == Stop(Loop(g1, [], Prompt(g0) + Prompt(g1) + QuitMessage(g1), []));
    RunContinues(g0, [], true, t0, "");
    RunContinues(g0, [2], false, t0[1..], Prompt(g0));
    RunStops(g1, [], true, t0[2..], Prompt(g0));
  }

  /** The log the "2 2 q" test expects, piece by piece as the controller appends it. */
  const SingleValidMoveLog :=
    (EmptyBoardText + "\n" + "Enter a move for " + "X" + ":\n")
    + (CentreXText + "\n" + "Enter a move for " + "O" + ":\n")
    + ("Game quit! Ending game state:\n" + CentreXText + "\n")

  /**
   * Input "2 2 q": the empty board and X's prompt, the board with X in the
   * centre and O's prompt, then the quit report with that board.
   */
  lemma SingleValidMoveTranscript()
    ensures Session(Initial(), [Num(2), Num(2), Word("q")]).out == SingleValidMoveLog
  {
    SingleValidMoveSession();
    EmptyBoardRendered();
    CentreXRendered();
    assert Prompt(Initial()) == EmptyBoardText + "\n" + "Enter a move for " + "X" + ":\n";
    assert Prompt(CentreX()) == CentreXText + "\n" + "Enter a move for " + "O" + ":\n";
  }

  /**
   * "5 6 q": the pair is refused with the typed values in the diagnostic,
   * the board is not shown again, and the quit report follows.
   */
  lemma MoveOutsideBoardSession()
    ensures Session(Initial(), [Num(5), Num(6), Word("q")])
         == Loop(Initial(), [], Prompt(Initial()) + "Not a valid move: 5, 6\n" + QuitMessage(Initial()), [])
  {
    var g0 := Initial();
    var t0: seq<Token> := [Num(5), Num(6), Word("q")];
    EarlyBoardsNotOver();
    assert Iterate(g0, [], true, t0, "") == Continue(g0, [5], false, t0[1..], Prompt(g0));
    assert Iterate(g0, [5], false, t0[1..], Prompt(g0))
        == Continue(g0, [], false, t0[2..], Prompt(g0) + InvalidMove(5, 6)) by {
      assert [5] + [6 as int32] == [5, 6];
      assert MoveResult(g0, 4, 5) == Err(IllegalArgument);
    }
    assert InvalidMove(5, 6) == "Not a valid move: 5, 6\n";
    assert Iterate(g0, [], false, t0[2..], Prompt(g0) + InvalidMove(5, 6))
        == Stop(Loop(g0, [], Prompt(g0) + InvalidMove(5, 6) + QuitMessage(g0), []));
    RunContinues(g0, [], true, t0, "");
    RunContinues(g0, [5], false, t0[1..], Prompt(g0));
    RunStops(g0, [], false, t0[2..], Prompt(g0) + InvalidMove(5, 6));
  }

  /**
   * "!#$ 2 q": the word is reported, the 2 waits in the buffer as a row, and
   * the quit leaves it there.
   */
  lemma BogusRowSession()
    ensures Session(Initial(), [Word("!#$"), Num(2), Word("q")])
         == Loop(Initial(), [2], Prompt(Initial()) + "Not a valid number: !#$\n" + QuitMessage(Initial()), [])
  {
    var g0 := Initial();
    var t0: seq<Token> := [Word("!#$"), Num(2), Word("q")];
    var o1 := Prompt(g0) + InvalidNumber("!#$");
    EarlyBoardsNotOver();
    assert !IsQuit("!#$") by {
      assert "!#$"[0] != "q"[0] && "!#$"[0] != "Q"[0];
    }
    assert NextToken(t0) == Scan(SkipCode, InvalidNumber("!#$"), t0[1..]);
    assert Iterate(g0, [], true, t0, "") == Continue(g0, [], false, t0[1..], o1);
    assert Iterate(g0, [], false, t0[1..], o1) == Continue(g0, [2], false, t0[2..], o1) by {
      assert [] + [2 as int32] == [2];
    }
    assert Iterate(g0, [2], false, t0[2..], o1) == Stop(Loop(g0, [2], o1 + QuitMessage(g0), []));
    assert InvalidNumber("!#$") == "Not a valid number: !#$\n";
    RunContinues(g0, [], true, t0, "");
    RunContinues(g0, [], false, t0[1..], o1);
    RunStops(g0, [2], false, t0[2..], o1);
  }

  /**
   * The "2 2 q" test end to end: a fresh engine, a controller over the
   * tokens and an empty log, one call of `PlayGame`.
   */
  method SingleValidMoveGame() returns (log: string)
    ensures log == SingleValidMoveLog
  {
    var m := new TicTacToeModel();
    var input := new TokenSource([Num(2), Num(2), Word("q")]);
    var output := new Sink();
    var c := new TicTacToeConsoleController(input, output);
    var r := c.PlayGame(m);
    SingleValidMoveTranscript();
    log := output.text;
  }

  /** A missing engine or a missing input is refused before anything is read or written. */
  method NullArgumentsRefused() returns (r1: Result<TicTacToeConsoleController>, r2: Outcome)
    ensures r1 == Err(IllegalArgument) && r2 == Fail(IllegalArgument)
  {
    var output := new Sink();
    r1 := TicTacToeConsoleController.Create(null, output);
    var input := new TokenSource([Num(1), Word("q")]);
    var c := new TicTacToeConsoleController(input, output);
    r2 := c.PlayGame(null);
  }
}
