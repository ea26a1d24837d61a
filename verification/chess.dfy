/** Chess as the server plays it: an 8x8 board of optional pieces, per-piece
    movement rules with no check, castling, en passant or promotion, and a
    game that ends when a king is gone. Row 0 is Black's back rank, row 7
    White's; a square `e4` is row `8 - 4`, column `'e' - 'a'`. */
module Chess {
  import opened Text

  datatype Kind = Pawn | Knight | Bishop | Rook | Queen | King
  datatype Color = White | Black {
    function Opponent(): Color {
      if this == White then Black else White
    }
  }
  /** A piece carries the label players type, such as `P5W` or `QB`. */
  datatype Piece = Piece(kind: Kind, color: Color, id: string)

  type Square = Option<Piece>
  type Board = seq<seq<Square>>

  predicate WellFormed(b: Board) {
    |b| == 8 && forall x :: 0 <= x < 8 ==> |b[x]| == 8
  }

  predicate OnBoard(x: int, y: int) {
    0 <= x < 8 && 0 <= y < 8
  }

  function Abs(n: int): nat {
    if n < 0 then -n else n
  }

  /** `n / abs(n)` for non-zero `n`, else 0. */
  function Sign(n: int): int {
    if n > 0 then 1 else if n < 0 then -1 else 0
  }

  /** The coordinate `f + k * s` for a unit step `s`. */
  function Along(f: int, k: int, s: int): int {
    if s > 0 then f + k else if s < 0 then f - k else f
  }

  /** A move along a rank, a file or a diagonal. */
  predicate IsLine(fx: int, fy: int, tx: int, ty: int) {
    fx == tx || fy == ty || Abs(tx - fx) == Abs(ty - fy)
  }

  predicate StrictlyBetween(a: int, v: int, c: int) {
    (a < v < c) || (c < v < a)
  }

  /** Square (x, y) lies strictly inside the segment of a line move. */
  predicate Between(fx: int, fy: int, tx: int, ty: int, x: int, y: int) {
    if fx == tx then x == fx && StrictlyBetween(fy, y, ty)
    else if fy == ty then y == fy && StrictlyBetween(fx, x, tx)
    else StrictlyBetween(fx, x, tx) && StrictlyBetween(fy, y, ty) && Abs(x - fx) == Abs(y - fy)
  }

  ghost predicate EmptyBetween(b: Board, fx: int, fy: int, tx: int, ty: int)
    requires WellFormed(b)
  {
    forall x, y :: OnBoard(x, y) && Between(fx, fy, tx, ty, x, y) ==> b[x][y].None?
  }

  /** The scan of `is_path_clear` from its `i`-th step onward. */
  function ClearFrom(b: Board, fx: int, fy: int, sx: int, sy: int, i: nat, steps: nat): (clear: bool)
    requires WellFormed(b)
    requires OnBoard(fx, fy) && OnBoard(Along(fx, steps, sx), Along(fy, steps, sy))
    requires -1 <= sx <= 1 && -1 <= sy <= 1 && 1 <= i
    ensures clear <==> forall k :: i <= k < steps ==> b[Along(fx, k, sx)][Along(fy, k, sy)].None?
    decreases steps - i
  {
    if i >= steps then true
    else b[Along(fx, i, sx)][Along(fy, i, sy)].None? && ClearFrom(b, fx, fy, sx, sy, i + 1, steps)
  }

  function Steps(dx: int, dy: int): nat {
    if Abs(dx) > Abs(dy) then Abs(dx) else Abs(dy)
  }

  /** `is_path_clear`: every square strictly between the two ends of a line
      move is empty. */
  function PathClear(b: Board, fx: int, fy: int, tx: int, ty: int): (clear: bool)
    requires WellFormed(b) && OnBoard(fx, fy) && OnBoard(tx, ty) && IsLine(fx, fy, tx, ty)
    ensures clear <==> EmptyBetween(b, fx, fy, tx, ty)
  {
    ScanCoversBetween(b, fx, fy, tx, ty);
    ClearFrom(b, fx, fy, Sign(tx - fx), Sign(ty - fy), 1, Steps(tx - fx, ty - fy))
  }

  /** The squares visited by the scan are exactly the squares between. */
  lemma ScanCoversBetween(b: Board, fx: int, fy: int, tx: int, ty: int)
    requires WellFormed(b) && OnBoard(fx, fy) && OnBoard(tx, ty) && IsLine(fx, fy, tx, ty)
    ensures var sx, sy, n := Sign(tx - fx), Sign(ty - fy), Steps(tx - fx, ty - fy);
            && Along(fx, n, sx) == tx && Along(fy, n, sy) == ty
            && ((forall k :: 1 <= k < n ==> b[Along(fx, k, sx)][Along(fy, k, sy)].None?) <==> EmptyBetween(b, fx, fy, tx, ty))
  {
    var sx, sy, n := Sign(tx - fx), Sign(ty - fy), Steps(tx - fx, ty - fy);
    if forall k :: 1 <= k < n ==> b[Along(fx, k, sx)][Along(fy, k, sy)].None? {
      forall x, y | OnBoard(x, y) && Between(fx, fy, tx, ty, x, y)
        ensures b[x][y].None?
      {
        var k := if fx != tx then Abs(x - fx) else Abs(y - fy);
        assert Along(fx, k, sx) == x && Along(fy, k, sy) == y;
      }
    }
    if EmptyBetween(b, fx, fy, tx, ty) {
      forall k | 1 <= k < n
        ensures b[Along(fx, k, sx)][Along(fy, k, sy)].None?
      {
        assert Between(fx, fy, tx, ty, Along(fx, k, sx), Along(fy, k, sy));
      }
    }
  }

  datatype Verdict = Legal | SameSquare | OwnPiece | BadPattern(kind: Kind)

  function At(b: Board, x: int, y: int): Square
    requires WellFormed(b) && OnBoard(x, y)
  {
    b[x][y]
  }

  predicate HoldsColor(s: Square, c: Color) {
    s.Some? && s.value.color == c
  }

  /** `is_legal_move` for the piece standing on (fx, fy). */
  function CheckMove(b: Board, fx: int, fy: int, tx: int, ty: int): (v: Verdict)
    requires WellFormed(b) && OnBoard(fx, fy) && OnBoard(tx, ty) && b[fx][fy].Some?
    ensures v == SameSquare <==> fx == tx && fy == ty
    ensures v == OwnPiece <==> (fx != tx || fy != ty) && HoldsColor(b[tx][ty], b[fx][fy].value.color)
    ensures v.BadPattern? ==> v.kind == b[fx][fy].value.kind
  {
    var p := b[fx][fy].value;
    var dx, dy := tx - fx, ty - fy;
    if fx == tx && fy == ty then SameSquare
    else if b[tx][ty].Some? && b[tx][ty].value.color == p.color then OwnPiece
    else
      var ok := match p.kind
        case Pawn =>
          if p.color == White then
            || (dx == -1 && dy == 0 && b[tx][ty].None?)
            || (fx == 6 && dx == -2 && dy == 0 && b[tx][ty].None? && b[fx - 1][fy].None?)
            || (dx == -1 && (dy == 1 || dy == -1) && b[tx][ty].Some? && b[tx][ty].value.color == Black)
          else
            || (dx == 1 && dy == 0 && b[tx][ty].None?)
            || (fx == 1 && dx == 2 && dy == 0 && b[tx][ty].None? && b[fx + 1][fy].None?)
            || (dx == 1 && (dy == 1 || dy == -1) && b[tx][ty].Some? && b[tx][ty].value.color == White)
        case Knight => (Abs(dx) == 2 && Abs(dy) == 1) || (Abs(dx) == 1 && Abs(dy) == 2)
        case Bishop => Abs(dx) == Abs(dy) && PathClear(b, fx, fy, tx, ty)
        case Rook => (dx == 0 || dy == 0) && PathClear(b, fx, fy, tx, ty)
        case Queen => (Abs(dx) == Abs(dy) || dx == 0 || dy == 0) && PathClear(b, fx, fy, tx, ty)
        case King => Abs(dx) <= 1 && Abs(dy) <= 1;
      if ok then Legal else BadPattern(p.kind)
  }

  /** The row a pawn of colour `c` advances towards, and its starting row. */
  function Forward(c: Color): int {
    if c == White then -1 else 1
  }

  function HomeRow(c: Color): int {
    if c == White then 6 else 1
  }

  /** Pawn rules, for either colour: one step forward onto an empty square;
      two steps only from the home row over an empty square onto an empty
      square; a diagonal step only to capture an enemy piece. */
  lemma PawnRules(b: Board, fx: int, fy: int, tx: int, ty: int)
    requires WellFormed(b) && OnBoard(fx, fy) && OnBoard(tx, ty) && b[fx][fy].Some?
    requires b[fx][fy].value.kind == Pawn
    ensures var c, v := b[fx][fy].value.color, CheckMove(b, fx, fy, tx, ty);
            && (v == Legal && ty == fy ==>
                  && b[tx][ty].None?
                  && (tx - fx == Forward(c)
                      || (fx == HomeRow(c) && tx - fx == 2 * Forward(c) && b[fx + Forward(c)][fy].None?)))
            && (v == Legal && ty != fy ==>
                  tx - fx == Forward(c) && Abs(ty - fy) == 1 && HoldsColor(b[tx][ty], c.Opponent()))
            && (tx - fx == Forward(c) && ty == fy && b[tx][ty].None? ==> v == Legal)
            && ((fx == HomeRow(c) && tx - fx == 2 * Forward(c) && ty == fy
                 && b[tx][ty].None? && b[fx + Forward(c)][fy].None?) ==> v == Legal)
            && (tx - fx == Forward(c) && Abs(ty - fy) == 1 && HoldsColor(b[tx][ty], c.Opponent()) ==> v == Legal)
  {
  }

  /** Bishop, rook and queen: legal exactly when the move has the piece's
      shape, does not land on a friendly piece and every square strictly
      between the two ends is empty. */
  lemma SlidingRules(b: Board, fx: int, fy: int, tx: int, ty: int)
    requires WellFormed(b) && OnBoard(fx, fy) && OnBoard(tx, ty) && b[fx][fy].Some?
    requires b[fx][fy].value.kind in {Bishop, Rook, Queen}
    ensures var p := b[fx][fy].value;
            var shape := match p.kind
              case Bishop => Abs(tx - fx) == Abs(ty - fy)
              case Rook => tx == fx || ty == fy
              case _ => IsLine(fx, fy, tx, ty);
            CheckMove(b, fx, fy, tx, ty) == Legal <==>
              && (fx != tx || fy != ty)
              && !HoldsColor(b[tx][ty], p.color)
              && shape
              && EmptyBetween(b, fx, fy, tx, ty)
  {
  }

  /** Knight and king jump: nothing in between matters. */
  lemma LeaperRules(b: Board, fx: int, fy: int, tx: int, ty: int)
    requires WellFormed(b) && OnBoard(fx, fy) && OnBoard(tx, ty) && b[fx][fy].Some?
    requires b[fx][fy].value.kind in {Knight, King}
    ensures var p := b[fx][fy].value;
            var shape := if p.kind == Knight then {Abs(tx - fx), Abs(ty - fy)} == {1, 2}
                         else Abs(tx - fx) <= 1 && Abs(ty - fy) <= 1;
            CheckMove(b, fx, fy, tx, ty) == Legal <==>
              (fx != tx || fy != ty) && !HoldsColor(b[tx][ty], p.color) && shape
  {
    var dx, dy := Abs(tx - fx), Abs(ty - fy);
    if b[fx][fy].value.kind == Knight {
      if {dx, dy} == {1, 2} {
        assert dx in {1, 2} && dy in {1, 2} && dx != dy;
      }
      if (dx == 2 && dy == 1) || (dx == 1 && dy == 2) {
        assert {dx, dy} == {1, 2};
      }
    }
  }

  predicate Owns(b: Board, x: int, y: int, id: string, c: Color)
    requires WellFormed(b) && OnBoard(x, y)
  {
    b[x][y].Some? && b[x][y].value.id == id && b[x][y].value.color == c
  }

  /** Square (x, y) comes before square (x', y') in row-major order. */
  predicate Before(x: int, y: int, x': int, y': int) {
    x < x' || (x == x' && y < y')
  }

  /** The row-major scan for the piece, from square (x, y) onward. */
  function FindFrom(b: Board, id: string, c: Color, x: nat, y: nat): (r: Option<(int, int)>)
    requires WellFormed(b) && x <= 8 && y < 8
    ensures r.Some? ==>
              && OnBoard(r.value.0, r.value.1)
              && Owns(b, r.value.0, r.value.1, id, c)
              && !Before(r.value.0, r.value.1, x, y)
              && forall i, j :: OnBoard(i, j) && !Before(i, j, x, y) && Before(i, j, r.value.0, r.value.1) ==> !Owns(b, i, j, id, c)
    ensures r.None? ==> forall i, j :: OnBoard(i, j) && !Before(i, j, x, y) ==> !Owns(b, i, j, id, c)
    decreases 8 - x, 8 - y
  {
    if x == 8 then None
    else if Owns(b, x, y, id, c) then Some((x, y))
    else if y == 7 then FindFrom(b, id, c, x + 1, 0)
    else FindFrom(b, id, c, x, y + 1)
  }

  /** The first square, in row-major order, holding a piece of colour `c`
      labelled `id`. */
  function FindPiece(b: Board, id: string, c: Color): (r: Option<(int, int)>)
    requires WellFormed(b)
    ensures r.Some? ==> OnBoard(r.value.0, r.value.1) && Owns(b, r.value.0, r.value.1, id, c)
    ensures r.Some? ==> forall x, y :: OnBoard(x, y) && Before(x, y, r.value.0, r.value.1) ==> !Owns(b, x, y, id, c)
    ensures r.None? <==> forall x, y :: OnBoard(x, y) ==> !Owns(b, x, y, id, c)
  {
    FindFrom(b, id, c, 0, 0)
  }

  /** The (row, column) a two-character destination such as `e4` names; it
      may lie off the board. */
  function Destination(to: string): (sq: (int, int))
    requires |to| == 2
    ensures OnBoard(sq.0, sq.1) <==> 'a' <= to[0] <= 'h' && '1' <= to[1] <= '8'
    // an on-board destination is the square whose name was typed
    ensures OnBoard(sq.0, sq.1) ==> SquareName(sq.0, sq.1) == to
  {
    (8 - (to[1] as int - '0' as int), to[0] as int - 'a' as int)
  }

  /** The two-character name of square (x, y), such as `e4`. */
  function SquareName(x: int, y: int): (name: string)
    requires OnBoard(x, y)
    ensures |name| == 2 && 'a' <= name[0] <= 'h' && '1' <= name[1] <= '8'
  {
    [('a' as int + y) as char, ('0' as int + 8 - x) as char]
  }

  /** Naming a square and reading the name back gives the square again. */
  lemma NameRoundTrip(x: int, y: int)
    requires OnBoard(x, y)
    ensures Destination(SquareName(x, y)) == (x, y)
  {
  }

  /** The board with square (x, y) replaced by `s`. */
  function Put(b: Board, x: int, y: int, s: Square): (b': Board)
    requires WellFormed(b) && OnBoard(x, y)
    ensures WellFormed(b')
    ensures b'[x][y] == s
    ensures forall i, j :: OnBoard(i, j) && (i != x || j != y) ==> b'[i][j] == b[i][j]
  {
    b[x := b[x][y := s]]
  }

  datatype Rejection = NotYours | BadDestination | OutOfBounds | Illegal(verdict: Verdict)
  datatype MoveResult = Rejected(why: Rejection) | Moved(board: Board, pawnTookKing: bool)

  /** The piece a successful move puts on its destination leaves its source
      empty, and no other square changes. */
  ghost predicate MovedFrom(b: Board, b': Board, fx: int, fy: int, tx: int, ty: int)
    requires WellFormed(b) && WellFormed(b') && OnBoard(fx, fy) && OnBoard(tx, ty)
  {
    && b'[tx][ty] == b[fx][fy]
    && b'[fx][fy].None?
    && forall x, y :: OnBoard(x, y) && (x != fx || y != fy) && (x != tx || y != ty) ==> b'[x][y] == b[x][y]
  }

  /** `move_piece`: look the piece up by label and colour, parse and
      bounds-check the destination, check the move, then move or capture. */
  function MovePiece(b: Board, id: string, to: string, c: Color): (r: MoveResult)
    requires WellFormed(b)
    ensures r == Rejected(NotYours) <==> FindPiece(b, id, c).None?
    ensures r == Rejected(BadDestination) <==> FindPiece(b, id, c).Some? && |to| != 2
    ensures r == Rejected(OutOfBounds) <==>
              FindPiece(b, id, c).Some? && |to| == 2 && !OnBoard(Destination(to).0, Destination(to).1)
    ensures r.Moved? <==>
              && FindPiece(b, id, c).Some? && |to| == 2
              && var (fx, fy), (tx, ty) := FindPiece(b, id, c).value, Destination(to);
                 OnBoard(tx, ty) && CheckMove(b, fx, fy, tx, ty) == Legal
    ensures r.Moved? ==>
              var (fx, fy), (tx, ty) := FindPiece(b, id, c).value, Destination(to);
              && WellFormed(r.board)
              && MovedFrom(b, r.board, fx, fy, tx, ty)
              && (r.pawnTookKing <==> b[fx][fy].value.kind == Pawn && b[tx][ty].Some? && b[tx][ty].value.kind == King)
    // a move the rules refuse is reported with the rules' own verdict
    ensures r.Rejected? && r.why.Illegal? <==>
              && FindPiece(b, id, c).Some? && |to| == 2
              && var (fx, fy), (tx, ty) := FindPiece(b, id, c).value, Destination(to);
                 OnBoard(tx, ty) && CheckMove(b, fx, fy, tx, ty) != Legal
    ensures r.Rejected? && r.why.Illegal? ==>
              var (fx, fy), (tx, ty) := FindPiece(b, id, c).value, Destination(to);
              r.why.verdict == CheckMove(b, fx, fy, tx, ty)
  {
    match FindPiece(b, id, c)
    case None => Rejected(NotYours)
    case Some((fx, fy)) =>
      if |to| != 2 then Rejected(BadDestination)
      else
        var (tx, ty) := Destination(to);
        if !OnBoard(tx, ty) then Rejected(OutOfBounds)
        else
          var v := CheckMove(b, fx, fy, tx, ty);
          if v != Legal then Rejected(Illegal(v))
          else
            var mover, target := b[fx][fy].value, b[tx][ty];
            var b' := Put(Put(b, tx, ty, Some(mover)), fx, fy, None);
            Moved(b', mover.kind == Pawn && target.Some? && target.value.kind == King)
  }

  predicate IsKing(s: Square, c: Color) {
    s.Some? && s.value.kind == King && s.value.color == c
  }

  ghost predicate KingOnBoard(b: Board, c: Color)
    requires WellFormed(b)
  {
    exists x, y :: OnBoard(x, y) && IsKing(b[x][y], c)
  }

  /** The king scan of `check_chess_winner` from flat index `n` onward. */
  function KingFrom(b: Board, c: Color, n: nat): (found: bool)
    requires WellFormed(b) && n <= 64
    ensures found <==> exists x, y :: OnBoard(x, y) && n <= 8 * x + y && IsKing(b[x][y], c)
    decreases 64 - n
  {
    if n == 64 then false
    else IsKing(b[n / 8][n % 8], c) || KingFrom(b, c, n + 1)
  }

  lemma KingScanFindsKing(b: Board, c: Color)
    requires WellFormed(b)
    ensures KingFrom(b, c, 0) <==> KingOnBoard(b, c)
  {
  }

  /** `check_chess_winner`: with the white king gone Black has won, else
      with the black king gone White has won, else nobody yet. */
  function CheckWinner(b: Board): (w: Option<Color>)
    requires WellFormed(b)
    ensures w == Some(Black) <==> !KingOnBoard(b, White)
    ensures w == Some(White) <==> KingOnBoard(b, White) && !KingOnBoard(b, Black)
    ensures w.None? <==> KingOnBoard(b, White) && KingOnBoard(b, Black)
  {
    KingScanFindsKing(b, White);
    KingScanFindsKing(b, Black);
    if !KingFrom(b, White, 0) then Some(Black)
    else if !KingFrom(b, Black, 0) then Some(White)
    else None
  }

  /** Back-rank pieces from column a to h and the labels they carry. */
  function BackKind(y: int): Kind {
    if y == 0 || y == 7 then Rook
    else if y == 1 || y == 6 then Knight
    else if y == 2 || y == 5 then Bishop
    else if y == 3 then Queen
    else King
  }

  function BackLabel(y: int): string {
    ["R1", "K1", "B1", "Q", "K", "B2", "K2", "R2"][if 0 <= y < 8 then y else 0]
  }

  function Suffix(c: Color): string {
    if c == White then "W" else "B"
  }

  function BackRank(c: Color): (rank: seq<Square>)
    ensures |rank| == 8
    ensures forall y :: 0 <= y < 8 ==> rank[y] == Some(Piece(BackKind(y), c, BackLabel(y) + Suffix(c)))
  {
    seq(8, y => Some(Piece(BackKind(y), c, BackLabel(y) + Suffix(c))))
  }

  function PawnRank(c: Color): (rank: seq<Square>)
    ensures |rank| == 8
    ensures forall y :: 0 <= y < 8 ==> rank[y] == Some(Piece(Pawn, c, ['P', DigitChar(y + 1)] + Suffix(c)))
  {
    seq(8, y requires 0 <= y < 8 => Some(Piece(Pawn, c, ['P', DigitChar(y + 1)] + Suffix(c))))
  }

  function EmptyRank(): (rank: seq<Square>)
    ensures |rank| == 8
    ensures forall y :: 0 <= y < 8 ==> rank[y].None?
  {
    seq(8, _ => None)
  }

  /** `init_chess_board`: the standard starting layout. */
  function InitialBoard(): (b: Board)
    ensures WellFormed(b)
    ensures forall y :: 0 <= y < 8 ==>
              && b[0][y] == Some(Piece(BackKind(y), Black, BackLabel(y) + "B"))
              && b[1][y] == Some(Piece(Pawn, Black, ['P', DigitChar(y + 1)] + "B"))
              && b[6][y] == Some(Piece(Pawn, White, ['P', DigitChar(y + 1)] + "W"))
              && b[7][y] == Some(Piece(BackKind(y), White, BackLabel(y) + "W"))
    ensures forall x, y :: 2 <= x < 6 && 0 <= y < 8 ==> b[x][y].None?
  {
    [BackRank(Black), PawnRank(Black), EmptyRank(), EmptyRank(), EmptyRank(), EmptyRank(), PawnRank(White), BackRank(White)]
  }

  /** No two pieces of one colour share a label, so the lookup by label
      names a single piece. */
  ghost predicate UniqueLabels(b: Board)
    requires WellFormed(b)
  {
    forall x1, y1, x2, y2 ::
      OnBoard(x1, y1) && OnBoard(x2, y2) && b[x1][y1].Some? && b[x2][y2].Some?
      && b[x1][y1].value.id == b[x2][y2].value.id && b[x1][y1].value.color == b[x2][y2].value.color
      ==> x1 == x2 && y1 == y2
  }

  /** Where a starting-layout label lives: the label alone determines the
      square. */
  function LabelSquare(id: string, c: Color): (int, int) {
    var row := if |id| > 0 && id[0] == 'P' then HomeRow(c) else HomeRow(c) + Forward(c.Opponent());
    var stem := if |id| > 0 then id[..|id| - 1] else id;
    var col :=
      if |stem| == 2 && stem[0] == 'P' && IsDigit(stem[1]) then DigitValue(stem[1]) - 1
      else if stem == "R1" then 0 else if stem == "K1" then 1 else if stem == "B1" then 2
      else if stem == "Q" then 3 else if stem == "K" then 4 else if stem == "B2" then 5
      else if stem == "K2" then 6 else 7;
    (row, col)
  }

  lemma BackLabelSquare(y: int, c: Color)
    requires 0 <= y < 8
    ensures LabelSquare(BackLabel(y) + Suffix(c), c) == (HomeRow(c) + Forward(c.Opponent()), y)
  {
    var id := BackLabel(y) + Suffix(c);
    assert id[..|id| - 1] == BackLabel(y);
  }

  lemma PawnLabelSquare(y: int, c: Color)
    requires 0 <= y < 8
    ensures LabelSquare(['P', DigitChar(y + 1)] + Suffix(c), c) == (HomeRow(c), y)
  {
    var id := ['P', DigitChar(y + 1)] + Suffix(c);
    assert id[..|id| - 1] == ['P', DigitChar(y + 1)];
  }

  /** Every piece of the starting layout carries a label that leads back to
      its own square, so labels are unique per colour. */
  lemma InitialLabelsUnique()
    ensures UniqueLabels(InitialBoard())
    ensures KingOnBoard(InitialBoard(), White) && KingOnBoard(InitialBoard(), Black)
  {
    var b: Board := InitialBoard();
    forall x: int, y: int | OnBoard(x, y) && b[x][y].Some?
      ensures LabelSquare(b[x][y].value.id, b[x][y].value.color) == (x, y)
    {
      if x == 0 { BackLabelSquare(y, Black); }
      else if x == 1 { PawnLabelSquare(y, Black); }
      else if x == 6 { PawnLabelSquare(y, White); }
      else { BackLabelSquare(y, White); }
    }
    assert IsKing(b[7][4], White) && IsKing(b[0][4], Black);
  }

  /** A successful move keeps labels unique: it relocates one piece and
      only ever removes the captured one. */
  lemma MoveKeepsLabelsUnique(b: Board, id: string, to: string, c: Color)
    requires WellFormed(b) && UniqueLabels(b)
    ensures var r := MovePiece(b, id, to, c);
            r.Moved? ==> UniqueLabels(r.board)
  {
    var r := MovePiece(b, id, to, c);
    if r.Moved? {
      var from, dest := FindPiece(b, id, c).value, Destination(to);
      var fx, fy, tx, ty := from.0, from.1, dest.0, dest.1;
      var b': Board := r.board;
      forall x1: int, y1: int, x2: int, y2: int |
        OnBoard(x1, y1) && OnBoard(x2, y2) && b'[x1][y1].Some? && b'[x2][y2].Some?
        && b'[x1][y1].value.id == b'[x2][y2].value.id && b'[x1][y1].value.color == b'[x2][y2].value.color
        ensures x1 == x2 && y1 == y2
      {
        var ox1, oy1 := if x1 == tx && y1 == ty then fx else x1, if x1 == tx && y1 == ty then fy else y1;
        var ox2, oy2 := if x2 == tx && y2 == ty then fx else x2, if x2 == tx && y2 == ty then fy else y2;
        assert b'[x1][y1] == b[ox1][oy1] && b'[x2][y2] == b[ox2][oy2];
      }
    }
  }

  datatype ChessGame = ChessGame(board: Board, turn: Color)

  /** What the turn holder sent: a closed connection, `MOVE:<label> <dest>`
      already split into its two words, or anything else. */
  datatype ChessInput = Hangup | MoveCmd(pieceId: string, dest: string) | Other

  datatype ChessEvent =
    | Disconnected
    | Ignored
    | Refused(why: Rejection)
    | Played
    | KingTakenByPawn(winner: Color)
    | KingGone(winner: Color)

  /** `init_chess_board` and White to move; both kings stand and every
      label names one piece. */
  function StartGame(): (g: ChessGame)
    ensures WellFormed(g.board) && g.board == InitialBoard() && g.turn == White
    ensures UniqueLabels(g.board) && KingOnBoard(g.board, White) && KingOnBoard(g.board, Black)
  {
    InitialLabelsUnique();
    ChessGame(InitialBoard(), White)
  }

  /** One pass of the chess session loop. */
  function ChessTurn(g: ChessGame, input: ChessInput): (r: (ChessGame, ChessEvent))
    requires WellFormed(g.board)
    ensures WellFormed(r.0.board)
    ensures r.1 in {Disconnected, Ignored} || r.1.Refused? ==> r.0 == g
    ensures r.1.Refused? <==> input.MoveCmd? && MovePiece(g.board, input.pieceId, input.dest, g.turn).Rejected?
    ensures r.1 == Played ==> r.0.turn == g.turn.Opponent() && CheckWinner(r.0.board).None?
    ensures r.1.KingTakenByPawn? ==> r.1.winner == g.turn
    ensures r.1.KingGone? ==> CheckWinner(r.0.board) == Some(r.1.winner)
    ensures r.1 == Disconnected <==> input.Hangup?
    ensures r.1 == Ignored <==> input.Other?
    // a move command is refused, or else played on the board it produced
    ensures input.MoveCmd? ==>
              var m := MovePiece(g.board, input.pieceId, input.dest, g.turn);
              && (m.Rejected? ==> r.1 == Refused(m.why))
              && (m.Moved? ==> r.0.board == m.board)
              && (r.1.KingTakenByPawn? <==> m.Moved? && m.pawnTookKing)
              && (r.1.KingGone? <==> m.Moved? && !m.pawnTookKing && CheckWinner(m.board).Some?)
              && (r.1 == Played <==> m.Moved? && !m.pawnTookKing && CheckWinner(m.board).None?)
  {
    match input
    case Hangup => (g, Disconnected)
    case Other => (g, Ignored)
    case MoveCmd(id, dest) =>
      match MovePiece(g.board, id, dest, g.turn)
      case Rejected(why) => (g, Refused(why))
      case Moved(b', pawnTookKing) =>
        if pawnTookKing then (g.(board := b'), KingTakenByPawn(g.turn))
        else match CheckWinner(b')
          case Some(w) => (g.(board := b'), KingGone(w))
          case None => (ChessGame(b', g.turn.Opponent()), Played)
  }

  /** While both kings stand, any game-ending move is won by the player who
      made it: a move never removes the mover's own king. */
  lemma WinnerIsMover(g: ChessGame, input: ChessInput)
    requires WellFormed(g.board) && KingOnBoard(g.board, White) && KingOnBoard(g.board, Black)
    ensures var r := ChessTurn(g, input);
            (r.1.KingTakenByPawn? || r.1.KingGone?) ==> r.1.winner == g.turn
  {
    var r := ChessTurn(g, input);
    if r.1.KingGone? {
      var m := MovePiece(g.board, input.pieceId, input.dest, g.turn);
      var from, dest := FindPiece(g.board, input.pieceId, g.turn).value, Destination(input.dest);
      var fx, fy, tx, ty := from.0, from.1, dest.0, dest.1;
      var kx, ky :| OnBoard(kx, ky) && IsKing(g.board[kx][ky], g.turn);
      if kx == fx && ky == fy {
        assert IsKing(m.board[tx][ty], g.turn);
      } else {
        assert kx != tx || ky != ty;
        assert IsKing(m.board[kx][ky], g.turn);
      }
      assert KingOnBoard(m.board, g.turn);
    }
  }
}
