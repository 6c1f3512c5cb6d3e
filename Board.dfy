/**
 * Board values of the tic-tac-toe engine: the two player marks, the 3-by-3
 * grid of optional marks, the win and full-board tests the engine runs over a
 * copy of its grid, and the text rendering of a grid.
 */
module Board {
  import opened Results

  /** A player's mark. */
  datatype Player = X | O

  /** The one-character display form of a mark (`toString` of the enum). */
  function Show(p: Player): (s: string)
    ensures |s| == 1 && s[0] != ' '
  {
    match p
    case X => "X"
    case O => "O"
  }

  /** The opponent of `p`. */
  function Other(p: Player): (q: Player)
    ensures q != p
  {
    if p == X then O else X
  }

  /** A cell is empty (`null` in the source) or holds one mark. */
  type Cell = Option<Player>

  type Grid = seq<seq<Cell>>

  const Size: nat := 3

  /** Every row of `g` has `width` cells. */
  predicate Rect(g: Grid, width: nat) {
    forall i :: 0 <= i < |g| ==> |g[i]| == width
  }

  /** `g` is a board of the engine's fixed shape. */
  predicate IsGrid(g: Grid) {
    |g| == Size && Rect(g, Size)
  }

  function Empty(): (g: Grid)
    ensures IsGrid(g)
    ensures forall i, j :: 0 <= i < Size && 0 <= j < Size ==> g[i][j] == None
  {
    seq(Size, _ => seq(Size, _ => None))
  }

  /** Two rectangular grids with the same cells are the same grid. */
  lemma RectExt(a: Grid, b: Grid, width: nat)
    requires |a| == |b| && Rect(a, width) && Rect(b, width)
    requires forall i, j :: 0 <= i < |a| && 0 <= j < width ==> a[i][j] == b[i][j]
    ensures a == b
  {
    forall i | 0 <= i < |a|
      ensures a[i] == b[i]
    {
    }
  }

  // ---------------------------------------------------------------------
  // The win tests of the engine, as the source computes them
  // ---------------------------------------------------------------------

  /** Every cell of `row` holds `p` (a stream `allMatch`). */
  predicate AllAre(row: seq<Cell>, p: Player)
    decreases |row|
  {
    |row| == 0 || (row[0] == Some(p) && AllAre(row[1..], p))
  }

  /** Some row is all O or all X (`isRowWin`, a stream `anyMatch`). */
  predicate RowWin(rows: Grid)
    decreases |rows|
  {
    |rows| > 0 && (AllAre(rows[0], O) || AllAre(rows[0], X) || RowWin(rows[1..]))
  }

  /** The transposed board `isColWin` builds: row j holds column j of `g`. */
  function Transpose(g: Grid, width: nat): (t: Grid)
    requires Rect(g, width)
    ensures |t| == width && Rect(t, |g|)
    ensures forall i, j :: 0 <= i < |g| && 0 <= j < width ==> t[j][i] == g[i][j]
  {
    seq(width, j requires 0 <= j < width => seq(|g|, i requires 0 <= i < |g| => g[i][j]))
  }

  /** Every row is at least as long as the grid is high. */
  predicate Wide(g: Grid) {
    forall i :: 0 <= i < |g| ==> |g[i]| >= |g|
  }

  /** The two-row board `isDiagWin` builds: the main and the anti-diagonal. */
  function Diagonals(g: Grid): (d: Grid)
    requires Wide(g)
    ensures |d| == 2 && Rect(d, |g|)
    ensures forall i :: 0 <= i < |g| ==> d[0][i] == g[i][i] && d[1][i] == g[i][|g| - 1 - i]
  {
    var n := |g|;
    [seq(n, i requires 0 <= i < n => g[i][i]), seq(n, i requires 0 <= i < n => g[i][n - 1 - i])]
  }

  predicate ColWin(g: Grid)
    requires IsGrid(g)
  {
    RowWin(Transpose(g, Size))
  }

  predicate DiagWin(g: Grid)
    requires IsGrid(g)
  {
    RowWin(Diagonals(g))
  }

  /** A line win as `getWinner` tests it. */
  predicate Won(g: Grid)
    requires IsGrid(g)
  {
    RowWin(g) || ColWin(g) || DiagWin(g)
  }

  /** No cell of `row` is empty. */
  predicate NoneEmpty(row: seq<Cell>)
    decreases |row|
  {
    |row| == 0 || (row[0] != None && NoneEmpty(row[1..]))
  }

  /** `isBoardFull`. */
  predicate Full(rows: Grid)
    decreases |rows|
  {
    |rows| == 0 || (NoneEmpty(rows[0]) && Full(rows[1..]))
  }

  /** `isGameOver`: a line win or a full board. */
  predicate GameOver(g: Grid)
    requires IsGrid(g)
  {
    RowWin(g) || ColWin(g) || DiagWin(g) || Full(g)
  }

  // ---------------------------------------------------------------------
  // Reference definition: the eight lines of the board, cell by cell
  // ---------------------------------------------------------------------

  datatype Pos = Pos(r: int, c: int)

  datatype Line = Line(a: Pos, b: Pos, c: Pos)

  /** The three rows, the three columns and the two diagonals. */
  const Lines: seq<Line> := [
    Line(Pos(0, 0), Pos(0, 1), Pos(0, 2)),
    Line(Pos(1, 0), Pos(1, 1), Pos(1, 2)),
    Line(Pos(2, 0), Pos(2, 1), Pos(2, 2)),
    Line(Pos(0, 0), Pos(1, 0), Pos(2, 0)),
    Line(Pos(0, 1), Pos(1, 1), Pos(2, 1)),
    Line(Pos(0, 2), Pos(1, 2), Pos(2, 2)),
    Line(Pos(0, 0), Pos(1, 1), Pos(2, 2)),
    Line(Pos(0, 2), Pos(1, 1), Pos(2, 0))
  ]

  /** The cell at `p`, empty when `p` is off the board. */
  function At(g: Grid, p: Pos): Cell {
    if 0 <= p.r < |g| && 0 <= p.c < |g[p.r]| then g[p.r][p.c] else None
  }

  /** All three cells of `l` hold `p`. */
  predicate Owns(g: Grid, l: Line, p: Player) {
    At(g, l.a) == Some(p) && At(g, l.b) == Some(p) && At(g, l.c) == Some(p)
  }

  predicate HasLineOf(g: Grid, p: Player) {
    exists i :: 0 <= i < |Lines| && Owns(g, Lines[i], p)
  }

  predicate HasLine(g: Grid) {
    HasLineOf(g, X) || HasLineOf(g, O)
  }

  /** All nine cells are occupied. */
  predicate AllFilled(g: Grid)
    requires IsGrid(g)
  {
    forall i, j :: 0 <= i < Size && 0 <= j < Size ==> g[i][j] != None
  }

  lemma {:induction false} AllAreMeans(row: seq<Cell>, p: Player)
    ensures AllAre(row, p) <==> forall k :: 0 <= k < |row| ==> row[k] == Some(p)
    decreases |row|
  {
    if |row| > 0 {
      AllAreMeans(row[1..], p);
      assert forall k :: 1 <= k < |row| ==> row[k] == row[1..][k - 1];
    }
  }

  lemma {:induction false} RowWinMeans(rows: Grid)
    ensures RowWin(rows) <==> exists i :: 0 <= i < |rows| && (AllAre(rows[i], O) || AllAre(rows[i], X))
    decreases |rows|
  {
    if |rows| > 0 {
      RowWinMeans(rows[1..]);
      if RowWin(rows[1..]) {
        var i :| 0 <= i < |rows[1..]| && (AllAre(rows[1..][i], O) || AllAre(rows[1..][i], X));
        assert rows[1..][i] == rows[i + 1];
      }
      if i :| 1 <= i < |rows| && (AllAre(rows[i], O) || AllAre(rows[i], X)) {
        assert rows[i] == rows[1..][i - 1];
      }
    }
  }

  lemma {:induction false} NoneEmptyMeans(row: seq<Cell>)
    ensures NoneEmpty(row) <==> forall k :: 0 <= k < |row| ==> row[k] != None
    decreases |row|
  {
    if |row| > 0 {
      NoneEmptyMeans(row[1..]);
      assert forall k :: 1 <= k < |row| ==> row[k] == row[1..][k - 1];
    }
  }

  lemma {:induction false} FullMeans(rows: Grid)
    ensures Full(rows) <==> forall i :: 0 <= i < |rows| ==> NoneEmpty(rows[i])
    decreases |rows|
  {
    if |rows| > 0 {
      FullMeans(rows[1..]);
      assert forall i :: 1 <= i < |rows| ==> rows[i] == rows[1..][i - 1];
    }
  }

  /** `isBoardFull` holds exactly when all nine cells are occupied. */
  lemma FullIff(g: Grid)
    requires IsGrid(g)
    ensures Full(g) <==> AllFilled(g)
  {
    FullMeans(g);
    forall i | 0 <= i < Size {
      NoneEmptyMeans(g[i]);
    }
  }

  /** Row `i` of `rows` is all `p`, for a row of three cells. */
  lemma AllAreThree(row: seq<Cell>, p: Player)
    requires |row| == Size
    ensures AllAre(row, p) <==> row[0] == Some(p) && row[1] == Some(p) && row[2] == Some(p)
  {
    AllAreMeans(row, p);
  }

  /** Line `i` of `Lines` as the row of three cells it covers. */
  function LineCells(g: Grid, l: Line): seq<Cell> {
    [At(g, l.a), At(g, l.b), At(g, l.c)]
  }

  lemma OwnsMeans(g: Grid, l: Line, p: Player)
    ensures Owns(g, l, p) <==> AllAre(LineCells(g, l), p)
  {
    AllAreThree(LineCells(g, l), p);
  }

  /** The three boards the engine scans hold exactly the eight lines. */
  lemma ScannedRowsAreLines(g: Grid)
    requires IsGrid(g)
    ensures g == [LineCells(g, Lines[0]), LineCells(g, Lines[1]), LineCells(g, Lines[2])]
    ensures Transpose(g, Size) == [LineCells(g, Lines[3]), LineCells(g, Lines[4]), LineCells(g, Lines[5])]
    ensures Diagonals(g) == [LineCells(g, Lines[6]), LineCells(g, Lines[7])]
  {
    RectExt(g, [LineCells(g, Lines[0]), LineCells(g, Lines[1]), LineCells(g, Lines[2])], Size);
    RectExt(Transpose(g, Size), [LineCells(g, Lines[3]), LineCells(g, Lines[4]), LineCells(g, Lines[5])], Size);
    RectExt(Diagonals(g), [LineCells(g, Lines[6]), LineCells(g, Lines[7])], Size);
  }

  /** Some row of the scanned board `rows` is all `p`, iff one of `ls` is owned by `p`. */
  lemma ScanFindsLine(g: Grid, rows: Grid, lo: nat, p: Player)
    requires lo + |rows| <= |Lines|
    requires forall k :: 0 <= k < |rows| ==> rows[k] == LineCells(g, Lines[lo + k])
    ensures (exists k :: 0 <= k < |rows| && AllAre(rows[k], p))
        <==> (exists i :: lo <= i < lo + |rows| && Owns(g, Lines[i], p))
  {
    forall k | 0 <= k < |rows|
      ensures AllAre(rows[k], p) <==> Owns(g, Lines[lo + k], p)
    {
      OwnsMeans(g, Lines[lo + k], p);
    }
    if i :| lo <= i < lo + |rows| && Owns(g, Lines[i], p) {
      assert AllAre(rows[i - lo], p);
    }
  }

  /**
   * The row, column and diagonal scans of the engine find a win exactly when
   * some player owns one of the eight lines.
   */
  lemma RowScanIff(g: Grid)
    requires IsGrid(g)
    ensures RowWin(g) <==> exists i :: 0 <= i < 3 && (Owns(g, Lines[i], X) || Owns(g, Lines[i], O))
  {
    ScannedRowsAreLines(g);
    RowWinMeans(g);
    ScanFindsLine(g, g, 0, X);
    ScanFindsLine(g, g, 0, O);
  }

  lemma ColScanIff(g: Grid)
    requires IsGrid(g)
    ensures ColWin(g) <==> exists i :: 3 <= i < 6 && (Owns(g, Lines[i], X) || Owns(g, Lines[i], O))
  {
    ScannedRowsAreLines(g);
    var t := Transpose(g, Size);
    RowWinMeans(t);
    ScanFindsLine(g, t, 3, X);
    ScanFindsLine(g, t, 3, O);
  }

  lemma DiagScanIff(g: Grid)
    requires IsGrid(g)
    ensures DiagWin(g) <==> exists i :: 6 <= i < 8 && (Owns(g, Lines[i], X) || Owns(g, Lines[i], O))
  {
    ScannedRowsAreLines(g);
    var d := Diagonals(g);
    RowWinMeans(d);
    ScanFindsLine(g, d, 6, X);
    ScanFindsLine(g, d, 6, O);
  }

  /**
   * The row, column and diagonal scans of the engine find a win exactly when
   * some player owns one of the eight lines.
   */
  lemma WonIff(g: Grid)
    requires IsGrid(g)
    ensures Won(g) <==> HasLine(g)
  {
    RowScanIff(g);
    ColScanIff(g);
    DiagScanIff(g);
  }

  /**
   * `isGameOver` holds exactly when some row, column or diagonal is all one
   * mark, or every cell is occupied.
   */
  lemma GameOverIff(g: Grid)
    requires IsGrid(g)
    ensures GameOver(g) <==> HasLine(g) || AllFilled(g)
  {
    WonIff(g);
    FullIff(g);
  }

  // ---------------------------------------------------------------------
  // Placing a mark
  // ---------------------------------------------------------------------

  /** `g` with `p` written into cell (r, c). */
  function Place(g: Grid, r: int, c: int, p: Player): (h: Grid)
    requires IsGrid(g) && 0 <= r < Size && 0 <= c < Size
    ensures IsGrid(h)
    ensures forall i, j :: 0 <= i < Size && 0 <= j < Size ==>
              h[i][j] == if i == r && j == c then Some(p) else g[i][j]
  {
    g[r := g[r][c := Some(p)]]
  }

  /**
   * Writing `p` into any cell of a board where the opponent owns no line
   * cannot give the opponent a line: `p`'s mark only takes cells away from
   * the opponent.
   */
  lemma PlaceGivesOpponentNoLine(g: Grid, r: int, c: int, p: Player)
    requires IsGrid(g) && 0 <= r < Size && 0 <= c < Size
    requires !HasLineOf(g, Other(p))
    ensures !HasLineOf(Place(g, r, c, p), Other(p))
  {
  }

  // ---------------------------------------------------------------------
  // Counting marks
  // ---------------------------------------------------------------------

  /** The number of occupied cells of `s`. */
  function Marks(s: seq<Cell>): (n: nat)
    ensures n <= |s|
    decreases |s|
  {
    if |s| == 0 then 0 else (if s[0] != None then 1 else 0) + Marks(s[1..])
  }

  /** The number of occupied cells of a board. */
  function Filled(g: Grid): nat
    requires IsGrid(g)
  {
    Marks(g[0]) + Marks(g[1]) + Marks(g[2])
  }

  lemma {:induction false} MarksAllSome(s: seq<Cell>)
    ensures Marks(s) == |s| <==> forall k :: 0 <= k < |s| ==> s[k] != None
    decreases |s|
  {
    if |s| > 0 {
      MarksAllSome(s[1..]);
      assert forall k :: 1 <= k < |s| ==> s[k] == s[1..][k - 1];
    }
  }

  lemma {:induction false} MarksUpdate(s: seq<Cell>, k: nat, v: Cell)
    requires k < |s| && s[k] == None && v != None
    ensures Marks(s[k := v]) == Marks(s) + 1
    decreases |s|
  {
    if k > 0 {
      assert s[k := v][1..] == s[1..][k - 1 := v];
      MarksUpdate(s[1..], k - 1, v);
    }
  }

  lemma MarksEmpty()
    ensures Filled(Empty()) == 0
  {
    var row: seq<Cell> := [None, None, None];
    assert Marks(row[1..][1..]) == 0;
    RectExt(Empty(), [row, row, row], Size);
  }

  /** Writing into an empty cell adds exactly one mark. */
  lemma FilledPlace(g: Grid, r: int, c: int, p: Player)
    requires IsGrid(g) && 0 <= r < Size && 0 <= c < Size && g[r][c] == None
    ensures Filled(Place(g, r, c, p)) == Filled(g) + 1
  {
    MarksUpdate(g[r], c, Some(p));
  }

  /** A board is full exactly when it holds nine marks. */
  lemma FilledNine(g: Grid)
    requires IsGrid(g)
    ensures Filled(g) <= 9
    ensures Filled(g) == 9 <==> AllFilled(g)
  {
    MarksAllSome(g[0]);
    MarksAllSome(g[1]);
    MarksAllSome(g[2]);
  }

  // ---------------------------------------------------------------------
  // Rendering (`toString`)
  // ---------------------------------------------------------------------

  /** `Collectors.joining(sep)`: the parts with `sep` between neighbours. */
  function Join(parts: seq<string>, sep: string): string
    decreases |parts|
  {
    if |parts| == 0 then ""
    else if |parts| == 1 then parts[0]
    else parts[0] + sep + Join(parts[1..], sep)
  }

  lemma JoinThree(parts: seq<string>, sep: string)
    requires |parts| == 3
    ensures Join(parts, sep) == parts[0] + sep + parts[1] + sep + parts[2]
  {
    assert parts[1..][1..] == [parts[2]];
    assert Join(parts[1..], sep) == parts[1] + sep + parts[2];
  }

  const CellSeparator := " | "
  const RowSeparator := "\n-----------\n"

  /** A mark's display form, or a single space for an empty cell. */
  function CellText(c: Cell): (s: string)
    ensures |s| == 1
  {
    match c
    case None => " "
    case Some(p) => Show(p)
  }

  /** A leading space, then the cells joined by `" | "`. */
  function RenderRow(row: seq<Cell>): string {
    " " + Join(seq(|row|, k requires 0 <= k < |row| => CellText(row[k])), CellSeparator)
  }

  /** The rows joined by a rule of eleven dashes between two newlines. */
  function Render(g: Grid): string {
    Join(seq(|g|, i requires 0 <= i < |g| => RenderRow(g[i])), RowSeparator)
  }

  /** The cell a rendered glyph stands for. */
  function ParseCell(ch: char): Cell {
    if ch == 'X' then Some(X) else if ch == 'O' then Some(O) else None
  }

  /** Distance between the first characters of two consecutive rendered rows. */
  const RowStride: nat := 23

  /** Position of the glyph of cell (r, c) in a rendered board. */
  function GlyphIndex(r: nat, c: nat): nat {
    RowStride * r + 1 + 4 * c
  }

  /** Reads a rendered board back into a grid. */
  function ReadBack(s: string): (g: Grid)
    requires |s| == 56
    ensures IsGrid(g)
  {
    seq(Size, r requires 0 <= r < Size => seq(Size, c requires 0 <= c < Size => ParseCell(s[GlyphIndex(r, c)])))
  }

  lemma RenderRowThree(row: seq<Cell>)
    requires |row| == Size
    ensures RenderRow(row) == " " + CellText(row[0]) + " | " + CellText(row[1]) + " | " + CellText(row[2])
  {
    JoinThree(seq(|row|, k requires 0 <= k < |row| => CellText(row[k])), CellSeparator);
  }

  /** A rendered row is ten characters with the glyph of cell c at 1 + 4c. */
  lemma RowLayout(row: seq<Cell>)
    requires |row| == Size
    ensures |RenderRow(row)| == 10
    ensures forall c :: 0 <= c < Size ==> RenderRow(row)[1 + 4 * c] == CellText(row[c])[0]
  {
    RenderRowThree(row);
    var s := RenderRow(row);
    assert s[1] == CellText(row[0])[0];
    assert s[5] == CellText(row[1])[0];
    assert s[9] == CellText(row[2])[0];
  }

  lemma RenderThree(g: Grid)
    requires IsGrid(g)
    ensures Render(g) == RenderRow(g[0]) + RowSeparator + RenderRow(g[1]) + RowSeparator + RenderRow(g[2])
  {
    JoinThree(seq(|g|, i requires 0 <= i < |g| => RenderRow(g[i])), RowSeparator);
  }

  /** Where the pieces of three ten-character rows joined by the rule end up. */
  lemma JoinedRowsLayout(a: string, b: string, d: string)
    requires |a| == 10 && |b| == 10 && |d| == 10
    ensures var s := a + RowSeparator + b + RowSeparator + d;
            |s| == 56 && s[10..23] == RowSeparator && s[33..46] == RowSeparator
            && forall k :: 0 <= k < 10 ==> s[k] == a[k] && s[23 + k] == b[k] && s[46 + k] == d[k]
  {
    var s := a + RowSeparator + b + RowSeparator + d;
    assert s == (a + RowSeparator) + (b + RowSeparator) + d;
    assert s[..23] == a + RowSeparator;
    assert s[23..46] == b + RowSeparator;
    assert s[46..] == d;
    assert s[10..23] == s[..23][10..];
    assert s[33..46] == s[23..46][10..];
    forall k | 0 <= k < 10
      ensures s[k] == a[k] && s[23 + k] == b[k] && s[46 + k] == d[k]
    {
      assert s[k] == s[..23][k];
      assert s[23 + k] == s[23..46][k];
      assert s[46 + k] == s[46..][k];
    }
  }

  /**
   * The layout of a rendered board: 56 characters, three rows of ten
   * characters separated by the dashed rule, each cell's glyph at a fixed
   * place, and no trailing newline.
   */
  lemma RenderLayout(g: Grid)
    requires IsGrid(g)
    ensures |Render(g)| == 56
    ensures forall r, c :: 0 <= r < Size && 0 <= c < Size ==> Render(g)[GlyphIndex(r, c)] == CellText(g[r][c])[0]
    ensures Render(g)[10..23] == RowSeparator && Render(g)[33..46] == RowSeparator
    ensures Render(g)[55] != '\n'
  {
    RenderThree(g);
    RowLayout(g[0]);
    RowLayout(g[1]);
    RowLayout(g[2]);
    var a, b, d := RenderRow(g[0]), RenderRow(g[1]), RenderRow(g[2]);
    JoinedRowsLayout(a, b, d);
    var s := Render(g);
    forall r, c | 0 <= r < Size && 0 <= c < Size
      ensures s[GlyphIndex(r, c)] == CellText(g[r][c])[0]
    {
      var k := 1 + 4 * c;
      if r == 0 {
        assert s[k] == a[k];
      } else if r == 1 {
        assert s[23 + k] == b[k];
      } else {
        assert s[46 + k] == d[k];
      }
    }
    assert s[55] == d[9] == CellText(g[2][2])[0];
  }

  /** A rendered board determines the board: reading it back gives the grid. */
  lemma RenderReadBack(g: Grid)
    requires IsGrid(g)
    ensures |Render(g)| == 56 && ReadBack(Render(g)) == g
  {
    RenderLayout(g);
    var h := ReadBack(Render(g));
    forall r, c | 0 <= r < Size && 0 <= c < Size
      ensures h[r][c] == g[r][c]
    {
      assert Render(g)[GlyphIndex(r, c)] == CellText(g[r][c])[0];
    }
    RectExt(h, g, Size);
  }
}
