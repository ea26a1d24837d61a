/** Tic-tac-toe on a 3x3 grid of characters. `X` moves on even turns and
    `O` on odd ones; a move names a row and a column; after each placement
    the server checks for a line of the mark just placed, then for a full
    board. The text a move arrives in is parsed by `sscanf("%d %d")`, which
    is abstracted here into the `Input` datatype. */
module TicTacToe {

  const Blank: char := ' '

  type Board = seq<seq<char>>

  predicate WellFormed(b: Board) {
    |b| == 3 && forall i :: 0 <= i < 3 ==> |b[i]| == 3
  }

  predicate InRange(k: int) {
    0 <= k < 3
  }

  /** `init_ttt_board`: every cell blank. */
  function EmptyBoard(): (b: Board)
    ensures WellFormed(b)
    ensures forall i, j :: 0 <= i < 3 && 0 <= j < 3 ==> b[i][j] == Blank
  {
    [[Blank, Blank, Blank], [Blank, Blank, Blank], [Blank, Blank, Blank]]
  }

  /** The mark of the player whose turn number is `turn`. */
  function MarkOf(turn: nat): (m: char)
    ensures m == 'X' <==> turn % 2 == 0
    ensures m == 'X' || m == 'O'
  {
    if turn % 2 == 0 then 'X' else 'O'
  }

  // ---------------------------------------------------------------------
  // Winner and draw.

  predicate RowOf(b: Board, p: char, i: int)
    requires WellFormed(b) && InRange(i)
  {
    b[i][0] == p && b[i][1] == p && b[i][2] == p
  }

  predicate ColumnOf(b: Board, p: char, i: int)
    requires WellFormed(b) && InRange(i)
  {
    b[0][i] == p && b[1][i] == p && b[2][i] == p
  }

  predicate DiagonalOf(b: Board, p: char)
    requires WellFormed(b)
  {
    (b[0][0] == p && b[1][1] == p && b[2][2] == p) || (b[0][2] == p && b[1][1] == p && b[2][0] == p)
  }

  /** `check_ttt_winner` from loop index `i` on: row i, column i, the later
      indices, then the two diagonals. */
  function WinFrom(b: Board, p: char, i: nat): (win: bool)
    requires WellFormed(b) && i <= 3
    ensures win <==> (exists k :: i <= k < 3 && (RowOf(b, p, k) || ColumnOf(b, p, k))) || DiagonalOf(b, p)
    decreases 3 - i
  {
    if i == 3 then DiagonalOf(b, p)
    else RowOf(b, p, i) || ColumnOf(b, p, i) || WinFrom(b, p, i + 1)
  }

  /** `check_ttt_winner` for the mark `p` (the session's current player):
      true exactly when `p` holds one of the eight lines. */
  function CheckWinner(b: Board, p: char): (win: bool)
    requires WellFormed(b)
    ensures win <==> HasLine(b, p)
  {
    WinnerIffLine(b, p);
    WinFrom(b, p, 0)
  }

  /** The eight winning lines, each as three (row, column) cells. */
  const Lines: seq<seq<(int, int)>> := [
    [(0, 0), (0, 1), (0, 2)], [(1, 0), (1, 1), (1, 2)], [(2, 0), (2, 1), (2, 2)],
    [(0, 0), (1, 0), (2, 0)], [(0, 1), (1, 1), (2, 1)], [(0, 2), (1, 2), (2, 2)],
    [(0, 0), (1, 1), (2, 2)], [(0, 2), (1, 1), (2, 0)]]

  /** The cell lies on the grid and holds `p`. */
  predicate Holds(b: Board, p: char, cell: (int, int))
    requires WellFormed(b)
  {
    InRange(cell.0) && InRange(cell.1) && b[cell.0][cell.1] == p
  }

  /** All three cells of `line` hold `p`. */
  predicate LineOf(b: Board, p: char, line: seq<(int, int)>)
    requires WellFormed(b)
  {
    |line| == 3 && Holds(b, p, line[0]) && Holds(b, p, line[1]) && Holds(b, p, line[2])
  }

  /** `p` holds some whole line of the grid. */
  ghost predicate HasLine(b: Board, p: char)
    requires WellFormed(b)
  {
    exists k :: 0 <= k < |Lines| && LineOf(b, p, Lines[k])
  }

  /** The server's scan finds a line exactly when the mark holds one. */
  lemma WinnerIffLine(b: Board, p: char)
    requires WellFormed(b)
    ensures WinFrom(b, p, 0) <==> HasLine(b, p)
  {
    if WinFrom(b, p, 0) {
      var k := WinningLine(b, p, 0);
      assert LineOf(b, p, Lines[k]);
    } else {
      forall k | 0 <= k < |Lines|
        ensures !LineOf(b, p, Lines[k])
      {
        NoLineMissed(b, p, k);
      }
    }
  }

  /** Which of the eight lines the scan from `i` found. */
  lemma {:induction false} WinningLine(b: Board, p: char, i: nat) returns (k: nat)
    requires WellFormed(b) && i <= 3 && WinFrom(b, p, i)
    ensures k < |Lines| && LineOf(b, p, Lines[k])
    decreases 3 - i
  {
    if i == 3 {
      if b[0][0] == p && b[1][1] == p && b[2][2] == p { k := 6; } else { k := 7; }
    } else if RowOf(b, p, i) {
      k := i;
    } else if ColumnOf(b, p, i) {
      k := 3 + i;
    } else {
      k := WinningLine(b, p, i + 1);
    }
  }

  lemma NoLineMissed(b: Board, p: char, k: int)
    requires WellFormed(b) && 0 <= k < |Lines| && !WinFrom(b, p, 0)
    ensures !LineOf(b, p, Lines[k])
  {
    assert !WinFrom(b, p, 1) && !WinFrom(b, p, 2) && !WinFrom(b, p, 3);
  }

  /** `is_ttt_draw`: no blank cell is left. */
  function IsFull(b: Board): (full: bool)
    requires WellFormed(b)
    ensures full <==> forall i, j :: 0 <= i < 3 && 0 <= j < 3 ==> b[i][j] != Blank
  {
    assert b[0] == [b[0][0], b[0][1], b[0][2]];
    assert b[1] == [b[1][0], b[1][1], b[1][2]];
    assert b[2] == [b[2][0], b[2][1], b[2][2]];
    Blank !in b[0] && Blank !in b[1] && Blank !in b[2]
  }

  // ---------------------------------------------------------------------
  // Counting marks.

  function Count(s: seq<char>, c: char): (n: nat)
    ensures n <= |s|
  {
    if |s| == 0 then 0 else (if s[0] == c then 1 else 0) + Count(s[1..], c)
  }

  /** The count is the multiplicity of `c` among the elements. */
  lemma {:induction false} CountIsMultiplicity(s: seq<char>, c: char)
    ensures Count(s, c) == multiset(s)[c]
  {
    if |s| > 0 {
      CountIsMultiplicity(s[1..], c);
      assert s == [s[0]] + s[1..];
    }
  }

  /** The nine cells in row-major order. */
  function Cells(b: Board): (s: seq<char>)
    requires WellFormed(b)
    ensures |s| == 9
    ensures forall i, j :: 0 <= i < 3 && 0 <= j < 3 ==> s[3 * i + j] == b[i][j]
  {
    b[0] + b[1] + b[2]
  }

  function CountIn(b: Board, c: char): nat
    requires WellFormed(b)
  {
    Count(Cells(b), c)
  }

  /** Overwriting one element changes the count by what left and what came. */
  lemma {:induction false} CountUpdate(s: seq<char>, k: nat, x: char, c: char)
    requires k < |s|
    ensures Count(s[k := x], c) == Count(s, c) - (if s[k] == c then 1 else 0) + (if x == c then 1 else 0)
  {
    if k == 0 {
      assert s[k := x][1..] == s[1..];
    } else {
      CountUpdate(s[1..], k - 1, x, c);
      assert s[k := x][1..] == s[1..][k - 1 := x];
    }
  }

  /** A sequence over the three cell characters splits its length between
      them. */
  lemma {:induction false} CountsAddUp(s: seq<char>)
    requires forall k :: 0 <= k < |s| ==> IsCell(s[k])
    ensures Count(s, Blank) + Count(s, 'X') + Count(s, 'O') == |s|
  {
    if |s| > 0 {
      CountsAddUp(s[1..]);
    }
  }

  lemma {:induction false} NoneCounted(s: seq<char>, c: char)
    ensures Count(s, c) == 0 <==> c !in s
  {
    if |s| > 0 {
      NoneCounted(s[1..], c);
      assert s == [s[0]] + s[1..];
    }
  }

  /** Placing a mark in a cell of the grid places it at index 3i+j of the
      cells. */
  lemma CellsAfterPlace(b: Board, i: int, j: int, m: char)
    requires WellFormed(b) && InRange(i) && InRange(j)
    ensures WellFormed(Place(b, i, j, m))
    ensures Cells(Place(b, i, j, m)) == Cells(b)[3 * i + j := m]
  {
    var b' := Place(b, i, j, m);
    var s, s' := Cells(b), Cells(b');
    forall k | 0 <= k < 9
      ensures s'[k] == s[3 * i + j := m][k]
    {
      var r, c := k / 3, k % 3;
      assert k == 3 * r + c;
    }
  }

  function Place(b: Board, i: int, j: int, m: char): (b': Board)
    requires WellFormed(b) && InRange(i) && InRange(j)
    ensures WellFormed(b')
    ensures b'[i][j] == m
    ensures forall r, c :: 0 <= r < 3 && 0 <= c < 3 && (r, c) != (i, j) ==> b'[r][c] == b[r][c]
  {
    b[i := b[i][j := m]]
  }

  // ---------------------------------------------------------------------
  // The session.

  /** Session state: the grid, the turn counter `tttTurn`, and the mark the
      winner check looks for (`tttCurrentPlayer`). */
  datatype Game = Game(board: Board, turn: nat, current: char)

  datatype Input =
    | Hangup                          // `read` returned 0 or less
    | Move(row: int, col: int)        // two integers were read
    | Unreadable                      // the text did not hold two integers

  datatype Event = Disconnected | Invalid | Won(mark: char) | Draw | Placed

  /** `init_ttt_board`, turn 0, `X` to move. */
  function Start(): (g: Game)
    ensures g.board == EmptyBoard() && g.turn == 0 && g.current == 'X'
    ensures Inv(g)
  {
    var b := EmptyBoard();
    assert Cells(b) == [Blank, Blank, Blank, Blank, Blank, Blank, Blank, Blank, Blank];
    assert CountIn(b, 'X') == 0 && CountIn(b, 'O') == 0 by {
      NoneCounted(Cells(b), 'X');
      NoneCounted(Cells(b), 'O');
    }
    Game(b, 0, 'X')
  }

  predicate ValidMove(g: Game, row: int, col: int)
    requires WellFormed(g.board)
  {
    InRange(row) && InRange(col) && g.board[row][col] == Blank
  }

  /** One read from the player whose turn it is. */
  function Step(g: Game, input: Input): (r: (Game, Event))
    requires WellFormed(g.board)
    ensures WellFormed(r.0.board)
    ensures r.1 == Disconnected <==> input.Hangup?
    // a refused move changes nothing: the same player is asked again
    ensures r.1 in {Disconnected, Invalid} <==> !(input.Move? && ValidMove(g, input.row, input.col))
    ensures r.1 in {Disconnected, Invalid} ==> r.0 == g
    // a valid move writes the mover's mark into exactly the chosen cell
    ensures input.Move? && ValidMove(g, input.row, input.col) ==>
              && r.0.current == MarkOf(g.turn)
              && r.0.board[input.row][input.col] == MarkOf(g.turn)
              && (forall i, j :: 0 <= i < 3 && 0 <= j < 3 && (i, j) != (input.row, input.col) ==>
                    r.0.board[i][j] == g.board[i][j])
    // the win is checked before the draw, and only then does the turn advance
    ensures r.1.Won? ==> r.1.mark == MarkOf(g.turn) && CheckWinner(r.0.board, r.1.mark) && r.0.turn == g.turn
    ensures r.1.Draw? ==> !CheckWinner(r.0.board, MarkOf(g.turn)) && IsFull(r.0.board) && r.0.turn == g.turn
    ensures r.1.Placed? ==>
              !CheckWinner(r.0.board, MarkOf(g.turn)) && !IsFull(r.0.board) && r.0.turn == g.turn + 1
  {
    match input
    case Hangup => (g, Disconnected)
    case Unreadable => (g, Invalid)
    case Move(row, col) =>
      if !ValidMove(g, row, col) then (g, Invalid)
      else
        var mark := MarkOf(g.turn);
        var g1 := Game(Place(g.board, row, col, mark), g.turn, mark);
        if CheckWinner(g1.board, mark) then (g1, Won(mark))
        else if IsFull(g1.board) then (g1, Draw)
        else (g1.(turn := g.turn + 1), Placed)
  }

  /** Between moves: the cells hold only blanks and marks, `X` has moved
      once more than `O` or as often, and the game has not yet run out of
      cells. */
  predicate Inv(g: Game) {
    && WellFormed(g.board)
    && (forall k :: 0 <= k < 9 ==> IsCell(Cells(g.board)[k]))
    && CountIn(g.board, 'X') == (g.turn + 1) / 2
    && CountIn(g.board, 'O') == g.turn / 2
    && g.turn <= 8
  }

  predicate IsCell(c: char) {
    c == Blank || c == 'X' || c == 'O'
  }

  /** Blanks are what the marks leave. */
  lemma BlankCount(g: Game)
    requires Inv(g)
    ensures CountIn(g.board, Blank) == 9 - g.turn
  {
    CountsAddUp(Cells(g.board));
  }

  /** A placement that lets the game go on keeps the invariant; so the
      session asks for at most nine moves. */
  lemma StepKeepsInv(g: Game, input: Input)
    requires Inv(g)
    ensures Step(g, input).1 in {Disconnected, Invalid, Placed} ==> Inv(Step(g, input).0)
  {
    var r := Step(g, input);
    if r.1.Placed? {
      PlacedCounts(g, input.row, input.col);
      var s' := Cells(r.0.board);
      NoneCounted(s', Blank);
      assert Blank in s' by {
        var i, j :| 0 <= i < 3 && 0 <= j < 3 && r.0.board[i][j] == Blank;
        assert s'[3 * i + j] == Blank;
      }
    }
  }

  /** The counts after the mover's mark goes into a blank cell. */
  lemma PlacedCounts(g: Game, row: int, col: int)
    requires Inv(g) && ValidMove(g, row, col)
    ensures var b' := Place(g.board, row, col, MarkOf(g.turn));
            && (forall k :: 0 <= k < 9 ==> IsCell(Cells(b')[k]))
            && CountIn(b', 'X') == (g.turn + 2) / 2
            && CountIn(b', 'O') == (g.turn + 1) / 2
            && CountIn(b', Blank) == 8 - g.turn
  {
    var mark := MarkOf(g.turn);
    var s := Cells(g.board);
    var k := 3 * row + col;
    CellsAfterPlace(g.board, row, col, mark);
    assert s[k] == Blank;
    CountUpdate(s, k, mark, 'X');
    CountUpdate(s, k, mark, 'O');
    CountUpdate(s, k, mark, Blank);
    BlankCount(g);
  }

  /** A move that completes a line wins even when it also fills the board. */
  lemma LastMoveLineWins()
    ensures var b := [['X', 'O', 'X'], ['O', 'O', 'X'], ['O', 'X', Blank]];
            Step(Game(b, 8, 'O'), Move(2, 2)).1 == Won('X')
  {
  }

  /** Occupied cells and out-of-range coordinates are refused. */
  lemma RefusedMoves()
    ensures Step(Game(EmptyBoard(), 0, 'X'), Move(3, 0)) == (Game(EmptyBoard(), 0, 'X'), Invalid)
    ensures var b := Place(EmptyBoard(), 1, 1, 'X');
            Step(Game(b, 1, 'X'), Move(1, 1)) == (Game(b, 1, 'X'), Invalid)
  {
  }
}
