/**
 * The game engine `TicTacToeModel`: a 3-by-3 board of optional marks and the
 * player whose turn it is. The value-level specification (`Game`,
 * `MoveResult`, `Winner`) comes first, then its properties, then the class
 * that updates its board array and turn field in place.
 */
module Engine {
  import opened Results
  import opened Board

  /** Engine state: the board and the player to move next. */
  datatype Game = Game(grid: Grid, turn: Player)

  /** Board bounds of the `TicTacToe` interface. */
  const LowerRow := 0
  const UpperRow := 2
  const LowerCol := 0
  const UpperCol := 2

  /** A fresh engine: nine empty cells, X to move. */
  function Initial(): (g: Game)
    ensures IsGrid(g.grid) && g.turn == X
    ensures forall i, j :: 0 <= i < Size && 0 <= j < Size ==> g.grid[i][j] == None
  {
    Game(Empty(), X)
  }

  /** The bounds test of `checkIllegalIndex`. */
  predicate InRange(r: int, c: int) {
    !(r < LowerRow || c < LowerCol || r > UpperRow || c > UpperCol)
  }

  /**
   * `move(r, c)`: bounds first, then an occupied cell, then a finished game;
   * only then the mark of the player to move is written and the turn passes.
   */
  function MoveResult(g: Game, r: int, c: int): (res: Result<Game>)
    requires IsGrid(g.grid)
    ensures res.Ok? ==> IsGrid(res.value.grid)
  {
    if !InRange(r, c) then Err(IllegalArgument)
    else if g.grid[r][c] != None then Err(IllegalArgument)
    else if GameOver(g.grid) then Err(IllegalState)
    else Ok(Game(Place(g.grid, r, c, g.turn), Other(g.turn)))
  }

  /** `getWinner`: the player not to move when a line is complete, else none. */
  function Winner(g: Game): Option<Player>
    requires IsGrid(g.grid)
  {
    if Won(g.grid) then Some(Other(g.turn)) else None
  }

  // ---------------------------------------------------------------------
  // Properties of a single move
  // ---------------------------------------------------------------------

  /** A move off the board is an invalid argument. */
  lemma OutOfRangeRejected(g: Game, r: int, c: int)
    requires IsGrid(g.grid) && !(0 <= r < Size && 0 <= c < Size)
    ensures MoveResult(g, r, c) == Err(IllegalArgument)
  {
  }

  /** An occupied cell is an invalid argument, even when the game is over. */
  lemma OccupiedRejectedBeforeGameOver(g: Game, r: int, c: int)
    requires IsGrid(g.grid) && 0 <= r < Size && 0 <= c < Size && g.grid[r][c] != None
    ensures MoveResult(g, r, c) == Err(IllegalArgument)
  {
  }

  /** An empty cell of a finished game is an illegal state. */
  lemma FinishedGameRejected(g: Game, r: int, c: int)
    requires IsGrid(g.grid) && 0 <= r < Size && 0 <= c < Size && g.grid[r][c] == None
    requires HasLine(g.grid) || AllFilled(g.grid)
    ensures MoveResult(g, r, c) == Err(IllegalState)
  {
    GameOverIff(g.grid);
  }

  /**
   * A move succeeds exactly on an empty in-range cell of an unfinished game;
   * it then writes the mover's mark into that cell alone and passes the turn.
   */
  lemma MoveSucceeds(g: Game, r: int, c: int)
    requires IsGrid(g.grid)
    ensures MoveResult(g, r, c).Ok? <==>
              0 <= r < Size && 0 <= c < Size && g.grid[r][c] == None && !HasLine(g.grid) && !AllFilled(g.grid)
    ensures MoveResult(g, r, c).Ok? ==>
              var h := MoveResult(g, r, c).value;
              h.turn == Other(g.turn) && h.turn != g.turn &&
              forall i, j :: 0 <= i < Size && 0 <= j < Size ==>
                h.grid[i][j] == if i == r && j == c then Some(g.turn) else g.grid[i][j]
  {
    GameOverIff(g.grid);
  }

  /** The player to move never owns a line (true of every reachable game). */
  predicate TurnLineFree(g: Game) {
    !HasLineOf(g.grid, g.turn)
  }

  /** A successful move keeps the player to move free of lines. */
  lemma MoveKeepsTurnLineFree(g: Game, r: int, c: int)
    requires IsGrid(g.grid) && MoveResult(g, r, c).Ok?
    ensures TurnLineFree(MoveResult(g, r, c).value)
  {
    GameOverIff(g.grid);
    PlaceGivesOpponentNoLine(g.grid, r, c, g.turn);
  }

  /**
   * In a game whose player to move owns no line, `getWinner` names a player
   * exactly when a line is complete, and the player it names owns a line
   * while the other owns none.
   */
  lemma WinnerOwnsLine(g: Game)
    requires IsGrid(g.grid) && TurnLineFree(g)
    ensures Winner(g).Some? <==> HasLine(g.grid)
    ensures Winner(g).Some? ==>
              HasLineOf(g.grid, Winner(g).value) && !HasLineOf(g.grid, Other(Winner(g).value))
  {
    WonIff(g.grid);
  }

  // ---------------------------------------------------------------------
  // Sequences of successful moves
  // ---------------------------------------------------------------------

  /** The game after the moves `ms` from a fresh engine, or the first failure. */
  function Replay(ms: seq<Pos>): (res: Result<Game>)
    ensures res.Ok? ==> IsGrid(res.value.grid)
    decreases |ms|
  {
    if |ms| == 0 then Ok(Initial())
    else
      match Replay(ms[..|ms| - 1])
      case Err(f) => Err(f)
      case Ok(g) => MoveResult(g, ms[|ms| - 1].r, ms[|ms| - 1].c)
  }

  lemma InitialInvariant()
    ensures Filled(Initial().grid) == 0 && TurnLineFree(Initial())
  {
    MarksEmpty();
    var g := Initial();
    assert forall i :: 0 <= i < |Lines| ==> At(g.grid, Lines[i].a) == None;
  }

  /** A successful move adds one mark, passes the turn and keeps it line-free. */
  lemma MoveInvariant(g: Game, r: int, c: int)
    requires IsGrid(g.grid) && MoveResult(g, r, c).Ok?
    ensures var h := MoveResult(g, r, c).value;
              Filled(h.grid) == Filled(g.grid) + 1 && h.turn == Other(g.turn) && TurnLineFree(h)
  {
    MoveSucceeds(g, r, c);
    FilledPlace(g.grid, r, c, g.turn);
    MoveKeepsTurnLineFree(g, r, c);
  }

  lemma ParityStep(n: int)
    requires n > 0
    ensures (n - 1) % 2 == 0 <==> n % 2 != 0
  {
  }

  /**
   * After n successful moves from a fresh engine the board holds n marks, the
   * turn is X for even n and O for odd n, and the player to move owns no line.
   */
  lemma {:induction false} ReplayInvariant(ms: seq<Pos>)
    requires Replay(ms).Ok?
    ensures var g := Replay(ms).value;
              Filled(g.grid) == |ms| && g.turn == (if |ms| % 2 == 0 then X else O) && TurnLineFree(g)
    decreases |ms|
  {
    if |ms| == 0 {
      InitialInvariant();
    } else {
      var prefix := ms[..|ms| - 1];
      ReplayInvariant(prefix);
      var m := ms[|ms| - 1];
      var g := Replay(prefix).value;
      assert Replay(ms) == MoveResult(g, m.r, m.c);
      MoveInvariant(g, m.r, m.c);
      var h := Replay(ms).value;
      assert Filled(h.grid) == |ms|;
      assert TurnLineFree(h);
      assert h.turn == Other(g.turn);
      ParityStep(|ms|);
    }
  }

  /**
   * What every game reached by successful moves satisfies: the player to move
   * owns no line, and X is to move exactly when the number of marks is even.
   */
  predicate Reachable(g: Game) {
    IsGrid(g.grid) && TurnLineFree(g) && (Filled(g.grid) % 2 == 0 <==> g.turn == X)
  }

  lemma InitialReachable()
    ensures Reachable(Initial())
  {
    InitialInvariant();
  }

  /** A successful move keeps a game reachable. */
  lemma MoveKeepsReachable(g: Game, r: int, c: int)
    requires Reachable(g) && MoveResult(g, r, c).Ok?
    ensures Reachable(MoveResult(g, r, c).value)
  {
    MoveInvariant(g, r, c);
    ParityStep(Filled(g.grid) + 1);
  }

  /** Every game a sequence of successful moves leads to is reachable. */
  lemma ReplayReachable(ms: seq<Pos>)
    requires Replay(ms).Ok?
    ensures Reachable(Replay(ms).value)
  {
    ReplayInvariant(ms);
  }

  /**
   * A game has at most nine successful moves, its board is full exactly after
   * the ninth, and the player `getWinner` names owns a completed line.
   */
  lemma ReplayBounds(ms: seq<Pos>)
    requires Replay(ms).Ok?
    ensures |ms| <= 9
    ensures AllFilled(Replay(ms).value.grid) <==> |ms| == 9
    ensures var g := Replay(ms).value;
              Winner(g).Some? ==> HasLineOf(g.grid, Winner(g).value) && Winner(g).value != g.turn
  {
    ReplayInvariant(ms);
    FilledNine(Replay(ms).value.grid);
    WinnerOwnsLine(Replay(ms).value);
  }

  // ---------------------------------------------------------------------
  // The engine object
  // ---------------------------------------------------------------------

  /** The cells of a two-dimensional array, row by row. */
  function Cells(a: array2<Cell>): (g: Grid)
    reads a
    ensures |g| == a.Length0 && Rect(g, a.Length1)
    ensures forall i, j :: 0 <= i < a.Length0 && 0 <= j < a.Length1 ==> g[i][j] == a[i, j]
  {
    seq(a.Length0, i requires 0 <= i < a.Length0 reads a =>
      seq(a.Length1, j requires 0 <= j < a.Length1 reads a => a[i, j]))
  }

  class TicTacToeModel {
    var turn: Player
    const board: array2<Cell>

    /** A 3-by-3 board in a state some sequence of successful moves can reach. */
    ghost predicate Valid()
      reads this, board
    {
      board.Length0 == Size && board.Length1 == Size && Reachable(Game(Cells(board), turn))
    }

    /** The engine's state as a value. */
    function State(): (g: Game)
      reads this, board
      requires Valid()
      ensures IsGrid(g.grid)
    {
      Game(Cells(board), turn)
    }

    constructor ()
      ensures Valid() && fresh(board)
      ensures State() == Initial()
    {
      board := new Cell[Size, Size]((i, j) => None);
      turn := X;
      new;
      RectExt(Cells(board), Empty(), Size);
      InitialReachable();
    }

    /** `checkIllegalIndex`: passes on an in-range pair, else an invalid argument. */
    method CheckIllegalIndex(r: int, c: int) returns (o: Outcome)
      ensures o.Pass? <==> 0 <= r < Size && 0 <= c < Size
      ensures o.Fail? ==> o.failure == IllegalArgument
    {
      if r < LowerRow || c < LowerCol || r > UpperRow || c > UpperCol {
        return Fail(IllegalArgument);
      }
      return Pass;
    }

    method Move(r: int, c: int) returns (res: Outcome)
      requires Valid()
      modifies this, board
      ensures Valid()
      ensures match MoveResult(old(State()), r, c)
                case Ok(g) => res == Pass && State() == g
                case Err(f) => res == Fail(f) && State() == old(State())
    {
      res := CheckIllegalIndex(r, c);
      if res.Fail? {
        return;
      }
      if board[r, c] != None {
        return Fail(IllegalArgument);
      }
      var over := IsGameOver();
      if over {
        return Fail(IllegalState);
      }
      Occupy(r, c);
    }

    /**
     * The last step of `move`, once every check has passed: the mark of the
     * player to move goes into (r, c) and the turn passes.
     */
    method Occupy(r: int, c: int)
      requires Valid() && 0 <= r < Size && 0 <= c < Size && MoveResult(State(), r, c).Ok?
      modifies this, board
      ensures Valid() && State() == MoveResult(old(State()), r, c).value
    {
      ghost var before := State();
      ghost var after := Place(before.grid, r, c, before.turn);
      MoveKeepsReachable(before, r, c);
      var p := GetTurn();
      board[r, c] := Some(p);
      RectExt(Cells(board), after, Size);
      UpdateTurn();
    }

    method GetTurn() returns (p: Player)
      ensures p == turn
    {
      return turn;
    }

    method IsGameOver() returns (over: bool)
      requires Valid()
      ensures over == GameOver(State().grid)
      ensures over <==> HasLine(State().grid) || AllFilled(State().grid)
    {
      GameOverIff(State().grid);
      var b := GetBoard();
      over := RowWin(Cells(b));
      if !over {
        b := GetBoard();
        over := IsColWin(b);
      }
      if !over {
        b := GetBoard();
        over := IsDiagWin(b);
      }
      if !over {
        b := GetBoard();
        over := Full(Cells(b));
      }
    }

    method GetWinner() returns (w: Option<Player>)
      requires Valid()
      ensures w == Winner(State())
      ensures w.Some? <==> HasLine(State().grid)
      ensures w.Some? ==> HasLineOf(State().grid, w.value) && !HasLineOf(State().grid, Other(w.value))
    {
      WinnerOwnsLine(State());
      var b := GetBoard();
      var won := RowWin(Cells(b));
      if !won {
        b := GetBoard();
        won := IsColWin(b);
      }
      if !won {
        b := GetBoard();
        won := IsDiagWin(b);
      }
      if won {
        return Some(GetNextPlayer());
      }
      return None;
    }

    /** `getBoard`: a new array holding the same cells. */
    method GetBoard() returns (copy: array2<Cell>)
      requires Valid()
      ensures fresh(copy) && copy.Length0 == Size && copy.Length1 == Size
      ensures Cells(copy) == State().grid
    {
      copy := new Cell[Size, Size]((i, j) requires 0 <= i < Size && 0 <= j < Size reads board => board[i, j]);
      RectExt(Cells(copy), Cells(board), Size);
    }

    method GetMarkAt(r: int, c: int) returns (res: Result<Cell>)
      requires Valid()
      ensures !(0 <= r < Size && 0 <= c < Size) ==> res == Err(IllegalArgument)
      ensures 0 <= r < Size && 0 <= c < Size ==> res == Ok(State().grid[r][c])
    {
      var o := CheckIllegalIndex(r, c);
      if o.Fail? {
        return Err(o.failure);
      }
      var b := GetBoard();
      return Ok(b[r, c]);
    }

    method ToString() returns (s: string)
      requires Valid()
      ensures s == Render(State().grid)
      ensures |s| == 56 && ReadBack(s) == State().grid
    {
      var b := GetBoard();
      s := Render(Cells(b));
      RenderReadBack(Cells(b));
    }

    /** `updateTurn`. */
    method UpdateTurn()
      modifies this`turn
      ensures turn != old(turn) && turn == Other(old(turn))
    {
      if turn == X {
        turn := O;
      } else {
        turn := X;
      }
    }

    /** `getNextPlayer`: the player who is not to move. */
    function GetNextPlayer(): (p: Player)
      reads this
      ensures p != turn
    {
      if turn == O then X else O
    }

    /** `isColWin`: copies the board into its transpose, then scans the rows. */
    method IsColWin(b: array2<Cell>) returns (win: bool)
      requires b.Length0 > 0
      ensures win == RowWin(Transpose(Cells(b), b.Length1))
    {
      var t := new Cell[b.Length1, b.Length0];
      var i := 0;
      while i < b.Length0
        invariant 0 <= i <= b.Length0
        invariant forall k, l :: 0 <= k < i && 0 <= l < b.Length1 ==> t[l, k] == b[k, l]
      {
        var j := 0;
        while j < b.Length1
          invariant 0 <= j <= b.Length1
          invariant forall k, l :: 0 <= k < i && 0 <= l < b.Length1 ==> t[l, k] == b[k, l]
          invariant forall l :: 0 <= l < j ==> t[l, i] == b[i, l]
        {
          t[j, i] := b[i, j];
          j := j + 1;
        }
        i := i + 1;
      }
      RectExt(Cells(t), Transpose(Cells(b), b.Length1), b.Length0);
      win := RowWin(Cells(t));
    }

    /** `isDiagWin`: copies both diagonals into a two-row board, then scans it. */
    method IsDiagWin(b: array2<Cell>) returns (win: bool)
      requires b.Length0 <= b.Length1
      ensures win == RowWin(Diagonals(Cells(b)))
    {
      var n := b.Length0;
      var d := new Cell[2, n];
      var j := 0;
      var q := n - 1;
      var i := 0;
      while i < n
        invariant 0 <= i <= n && j == i && q == n - 1 - i
        invariant forall k :: 0 <= k < i ==> d[0, k] == b[k, k] && d[1, k] == b[k, n - 1 - k]
      {
        d[0, i] := b[i, j];
        d[1, i] := b[i, q];
        j := j + 1;
        q := q - 1;
        i := i + 1;
      }
      RectExt(Cells(d), Diagonals(Cells(b)), n);
      win := RowWin(Cells(d));
    }
  }

  /** A caller that writes into the copy `getBoard` returns does not change the engine. */
  method GetBoardIsACopy(m: TicTacToeModel) returns (before: Result<Cell>, after: Result<Cell>)
    requires m.Valid()
    ensures before == after == Ok(m.State().grid[0][0])
  {
    before := m.GetMarkAt(0, 0);
    var bd := m.GetBoard();
    bd[0, 0] := Some(O);
    after := m.GetMarkAt(0, 0);
  }
}
