/** Snake and ladder on a 100-square board with fixed jump tables. A roll
    (1 to 6, a parameter here; the server draws it with `rand()`) moves the
    turn holder forward unless it would pass square 100; landing on the
    start of a snake or ladder moves the player to its end. Reaching 100
    wins. Also the two messages the server sends about the board: the
    `BOARD:` snapshot and the `POSITIONS:` line. */
module SnakeLadder {
  import opened Text

  datatype Jump = Jump(start: int, end: int)

  const Snakes: seq<Jump> := [Jump(16, 6), Jump(47, 26), Jump(49, 11), Jump(56, 53), Jump(62, 19),
                              Jump(64, 60), Jump(87, 24), Jump(93, 73), Jump(95, 75), Jump(98, 78)]
  const Ladders: seq<Jump> := [Jump(1, 38), Jump(4, 14), Jump(9, 31), Jump(21, 42), Jump(28, 84),
                               Jump(36, 44), Jump(51, 67), Jump(71, 91), Jump(80, 100)]
  const LastSquare: int := 100

  ghost predicate StartsIn(table: seq<Jump>, sq: int) {
    exists e :: Jump(sq, e) in table
  }

  /** The end of the first jump in `table` starting at `sq`, as the
      server's `for ... break` loops find it. */
  function Lookup(table: seq<Jump>, sq: int): (r: Option<int>)
    ensures r.None? <==> !StartsIn(table, sq)
    ensures r.Some? ==> Jump(sq, r.value) in table
  {
    if |table| == 0 then None
    else if table[0].start == sq then Some(table[0].end)
    else
      assert table == [table[0]] + table[1..];
      Lookup(table[1..], sq)
  }

  ghost predicate IsStart(sq: int) {
    StartsIn(Snakes, sq) || StartsIn(Ladders, sq)
  }

  /** The tables are consistent: starts are distinct squares inside the
      board, snakes lead down and ladders up, no square starts both a snake
      and a ladder, and no jump ends on a start (so jumps never chain). */
  lemma TablesConsistent()
    ensures forall s, e :: Jump(s, e) in Snakes ==> 1 <= e < s < LastSquare
    ensures forall s, e :: Jump(s, e) in Ladders ==> 1 <= s < e <= LastSquare
    ensures forall s, e1, e2 :: Jump(s, e1) in Snakes && Jump(s, e2) in Snakes ==> e1 == e2
    ensures forall s, e1, e2 :: Jump(s, e1) in Ladders && Jump(s, e2) in Ladders ==> e1 == e2
    ensures forall sq :: !(StartsIn(Snakes, sq) && StartsIn(Ladders, sq))
    ensures forall s, e :: Jump(s, e) in Snakes || Jump(s, e) in Ladders ==> !IsStart(e)
  {
    JumpDirections();
    StartsDetermineEnds();
    NoSharedStart();
    JumpEndsOffStarts();
  }

  lemma JumpDirections()
    ensures forall s, e :: Jump(s, e) in Snakes ==> 1 <= e < s < LastSquare
    ensures forall s, e :: Jump(s, e) in Ladders ==> 1 <= s < e <= LastSquare
  {
  }

  lemma StartsDetermineEnds()
    ensures forall s, e1, e2 :: Jump(s, e1) in Snakes && Jump(s, e2) in Snakes ==> e1 == e2
    ensures forall s, e1, e2 :: Jump(s, e1) in Ladders && Jump(s, e2) in Ladders ==> e1 == e2
  {
  }

  lemma NoSharedStart()
    ensures forall sq :: !(StartsIn(Snakes, sq) && StartsIn(Ladders, sq))
  {
  }

  lemma JumpEndsOffStarts()
    ensures forall s, e :: Jump(s, e) in Snakes || Jump(s, e) in Ladders ==> !IsStart(e)
  {
    forall s, e | Jump(s, e) in Snakes || Jump(s, e) in Ladders
      ensures !IsStart(e)
    {
      if Jump(s, e) in Snakes { SnakeEnd(s, e); } else { LadderEnd(s, e); }
      EndIsNoSnakeStart(e);
      EndIsNoLadderStart(e);
    }
  }

  /** Every square some jump ends on. */
  const JumpEnds: seq<int> := [6, 26, 11, 53, 19, 60, 24, 73, 75, 78, 38, 14, 31, 42, 84, 44, 67, 91, 100]

  lemma SnakeEnd(s: int, e: int)
    requires Jump(s, e) in Snakes
    ensures e in JumpEnds
  {
  }

  lemma LadderEnd(s: int, e: int)
    requires Jump(s, e) in Ladders
    ensures e in JumpEnds
  {
  }

  lemma EndIsNoSnakeStart(e: int)
    requires e in JumpEnds
    ensures !StartsIn(Snakes, e)
  {
    forall e2: int
      ensures Jump(e, e2) !in Snakes
    {
    }
  }

  lemma EndIsNoLadderStart(e: int)
    requires e in JumpEnds
    ensures !StartsIn(Ladders, e)
  {
    forall e2: int
      ensures Jump(e, e2) !in Ladders
    {
    }
  }

  /** Where a player who lands on `sq` ends up. */
  function Relocate(sq: int): (r: int)
    ensures IsStart(sq) ==> Jump(sq, r) in Snakes || Jump(sq, r) in Ladders
    ensures !IsStart(sq) ==> r == sq
  {
    match Lookup(Snakes, sq)
    case Some(e) => e
    case None =>
      match Lookup(Ladders, sq)
      case Some(e) => e
      case None => sq
  }

  datatype Landing =
    | Overshoot                     // the roll would pass 100: the player stays
    | Plain                         // an ordinary square
    | SnakeBite(from: int, to: int)
    | LadderClimb(from: int, to: int)

  /** One roll for a player standing on `pos`. */
  function Advance(pos: int, roll: int): (r: (int, Landing))
    requires 1 <= roll <= 6
    ensures pos + roll > LastSquare ==> r == (pos, Overshoot)
    ensures pos + roll <= LastSquare ==>
              match r.1
              case Overshoot => false
              case Plain => r.0 == pos + roll && !IsStart(pos + roll)
              case SnakeBite(from, to) => from == pos + roll && to == r.0 && Jump(from, to) in Snakes
              case LadderClimb(from, to) => from == pos + roll && to == r.0 && Jump(from, to) in Ladders
    ensures 0 <= pos <= LastSquare ==> 0 <= r.0 <= LastSquare
    ensures r.1 != Overshoot ==> !IsStart(r.0)
  {
    TablesConsistent();
    var next := pos + roll;
    if next > LastSquare then (pos, Overshoot)
    else
      match Lookup(Snakes, next)
      case Some(e) => (e, SnakeBite(next, e))
      case None =>
        match Lookup(Ladders, next)
        case Some(e) => (e, LadderClimb(next, e))
        case None => (next, Plain)
  }

  /** The server runs its snake loop and then its ladder loop on the landed
      square; because the tables never share a start, that equals taking
      whichever table matches. */
  lemma AdvanceIsRelocate(pos: int, roll: int)
    requires 1 <= roll <= 6 && pos + roll <= LastSquare
    ensures Advance(pos, roll).0 == Relocate(pos + roll)
  {
  }

  datatype Side = P1 | P2 {
    function Other(): Side {
      if this == P1 then P2 else P1
    }
  }

  datatype Game = Game(pos1: int, pos2: int, turn: Side)

  function Position(g: Game, s: Side): int {
    if s == P1 then g.pos1 else g.pos2
  }

  datatype Input = Hangup | Text(msg: string)

  datatype Event = Disconnected | Ignored | Rolled(who: Side, roll: int, landing: Landing, won: bool)

  function Start(): (g: Game)
    ensures Position(g, P1) == 0 && Position(g, P2) == 0 && g.turn == P1
    ensures Resting(g)
  {
    Game(0, 0, P1)
  }

  /** One pass of the session loop: `ROLL` from the turn holder, with the
      die showing `roll`. */
  function Step(g: Game, input: Input, roll: int): (r: (Game, Event))
    requires 1 <= roll <= 6
    ensures !(input.Text? && "ROLL" <= input.msg) ==> r.0 == g && r.1 in {Disconnected, Ignored}
    ensures r.1 == Disconnected <==> input.Hangup?
    ensures r.1.Rolled? <==> input.Text? && "ROLL" <= input.msg
    ensures r.1.Rolled? ==>
              && r.1.who == g.turn && r.1.roll == roll
              && (Position(r.0, g.turn), r.1.landing) == Advance(Position(g, g.turn), roll)
              && Position(r.0, g.turn.Other()) == Position(g, g.turn.Other())
              // the win test sits inside the branch for a roll that does not overshoot
              && (r.1.won <==> r.1.landing != Overshoot && Position(r.0, g.turn) >= LastSquare)
              && (r.1.won ==> r.0.turn == g.turn)
              && (!r.1.won ==> r.0.turn == g.turn.Other())
  {
    match input
    case Hangup => (g, Disconnected)
    case Text(msg) =>
      if !("ROLL" <= msg) then (g, Ignored)
      else
        var (pos, landing) := Advance(Position(g, g.turn), roll);
        var g1 := if g.turn == P1 then g.(pos1 := pos) else g.(pos2 := pos);
        if landing != Overshoot && pos >= LastSquare then (g1, Rolled(g.turn, roll, landing, true))
        else (g1.(turn := g.turn.Other()), Rolled(g.turn, roll, landing, false))
  }

  /** Both players stand on the board, on squares that start no jump. */
  ghost predicate Resting(g: Game) {
    && 0 <= g.pos1 <= LastSquare && !IsStart(g.pos1)
    && 0 <= g.pos2 <= LastSquare && !IsStart(g.pos2)
  }

  /** Every step keeps both players resting on the board, and a win is
      landing exactly on 100. */
  lemma StepKeepsResting(g: Game, input: Input, roll: int)
    requires Resting(g) && 1 <= roll <= 6
    ensures Resting(Step(g, input, roll).0)
    ensures var r := Step(g, input, roll);
            r.1.Rolled? && r.1.won ==> Position(r.0, g.turn) == LastSquare
  {
  }

  /** From square 0 a roll of 1 lands on the ladder at 1 and climbs to 38. */
  lemma FirstRollClimbs()
    ensures Step(Start(), Text("ROLL\n"), 1) == (Game(38, 0, P2), Rolled(P1, 1, LadderClimb(1, 38), false))
  {
    assert Advance(0, 1) == (38, LadderClimb(1, 38)) by {
      forall e: int
        ensures Jump(1, e) !in Snakes
      {
      }
      assert Lookup(Ladders, 1) == Some(38);
    }
  }

  /** From 97 a roll of 4 would pass 100, so the player stays and the turn
      still passes. */
  lemma OvershootStays()
    ensures Step(Game(97, 5, P1), Text("ROLL"), 4) == (Game(97, 5, P2), Rolled(P1, 4, Overshoot, false))
  {
  }

  // ---------------------------------------------------------------------
  // The `BOARD:` snapshot.

  /** The marker after a square number: `S` on a snake start, `L` on a
      ladder start (the ladder pass runs last), blank elsewhere. */
  function Marker(sq: int): (mark: char)
    ensures mark == 'L' <==> StartsIn(Ladders, sq)
    ensures mark == 'S' <==> StartsIn(Snakes, sq)
    ensures mark == ' ' <==> !IsStart(sq)
  {
    NoSharedStart();
    if Lookup(Ladders, sq).Some? then 'L' else if Lookup(Snakes, sq).Some? then 'S' else ' '
  }

  /** `<n><marker>,` for square n. */
  function Token(n: nat, mark: char): string {
    Decimal(n) + [mark] + ","
  }

  /** The server's buffer after appending squares 1..n, each token cut to
      the 4 characters `snprintf(temp, 5, ...)` can hold; `mk` gives the
      marker of each square. */
  function RawBoard(mk: nat -> char, n: nat): (raw: string)
    ensures "BOARD:" <= raw
    // below square 100 no token is long enough to be cut
    ensures n <= 99 ==> raw == "BOARD:" + Tokens(mk, n)
    decreases n
  {
    if n == 0 then "BOARD:"
    else
      var t, before := Token(n, mk(n)), RawBoard(mk, n - 1);
      ShortTokenUncut(n, mk(n));
      PrefixGrows("BOARD:", before, Take(t, 4));
      AppendAssoc("BOARD:", Tokens(mk, n - 1), t);
      before + Take(t, 4)
  }

  /** Below square 100 a token fits the 4-character cut whole. */
  lemma ShortTokenUncut(n: nat, c: char)
    ensures n <= 99 ==> Take(Token(n, c), 4) == Token(n, c)
  {
  }

  lemma PrefixGrows(p: string, s: string, t: string)
    requires p <= s
    ensures p <= s + t
  {
    assert (s + t)[..|s|] == s;
  }

  lemma AppendAssoc(a: string, b: string, c: string)
    ensures (a + b) + c == a + (b + c)
  {
  }

  /** The buffer of all 100 squares with its last character replaced by a
      newline: `BOARD:`, the tokens of squares 1 to 99, then `100` and a
      newline, since the token for 100 loses its marker and comma to the
      4-character cut and the final newline. It is 397 characters, well
      inside the 2048-byte buffer. */
  function Snapshot(mk: nat -> char): (line: string)
    ensures line == "BOARD:" + Tokens(mk, 99) + "100" + "\n"
    ensures |line| == 397
  {
    FullBuffer(mk);
    EndLineOf("BOARD:" + Tokens(mk, 99) + "100", mk(100));
    TokensLength(mk, 99);
    EndLine(RawBoard(mk, 100))
  }

  /** `buf[strlen(buf) - 1] = '\n'` on a buffer that is not empty. */
  function EndLine(raw: string): (line: string)
    ensures raw != [] ==> line == raw[..|raw| - 1] + "\n"
  {
    if |raw| == 0 then "\n" else raw[..|raw| - 1] + "\n"
  }

  /** The board's own markers, square by square. */
  const Markers: nat -> char := sq => Marker(sq)

  /** `send_sl_board`: the snapshot with the board's own markers. */
  function BoardMessage(): (m: string)
    ensures m == "BOARD:" + Tokens(Markers, 99) + "100" + "\n"
    ensures |m| == 397
  {
    Snapshot(Markers)
  }

  /** The untruncated tokens of squares 1..n. */
  function Tokens(mk: nat -> char, n: nat): string
    decreases n
  {
    if n == 0 then [] else Tokens(mk, n - 1) + Token(n, mk(n))
  }

  /** Where square i's token begins inside the tokens: squares 1-9 take
      three characters, squares 10-99 four. */
  function Offset(i: nat): nat
    requires 1 <= i
  {
    if i <= 10 then 3 * (i - 1) else 27 + 4 * (i - 10)
  }

  /** The tokens of squares 1..n end where square n + 1's would begin. */
  lemma {:induction false} TokensLength(mk: nat -> char, n: nat)
    requires 1 <= n <= 99
    ensures |Tokens(mk, n)| == Offset(n + 1)
  {
    if n > 1 {
      TokensLength(mk, n - 1);
    }
    assert |Token(n, mk(n))| == |Decimal(n)| + 2;
  }

  /** The tokens of the first squares are a prefix of the tokens of more. */
  lemma {:induction false} TokensPrefix(mk: nat -> char, i: nat, n: nat)
    requires i <= n
    ensures Tokens(mk, i) <= Tokens(mk, n)
    decreases n
  {
    if i < n {
      TokensPrefix(mk, i, n - 1);
      assert Tokens(mk, n) == Tokens(mk, n - 1) + Token(n, mk(n));
    }
  }

  /** Every token of squares 1..n sits at its offset. */
  lemma TokenAt(mk: nat -> char, n: nat, i: nat)
    requires 1 <= i <= n <= 99
    ensures Offset(i) + |Token(i, mk(i))| <= |Tokens(mk, n)|
    ensures Tokens(mk, n)[Offset(i)..Offset(i) + |Token(i, mk(i))|] == Token(i, mk(i))
  {
    var before, t := Tokens(mk, i - 1), Token(i, mk(i));
    assert |before| == Offset(i) by {
      if i > 1 {
        TokensLength(mk, i - 1);
      }
    }
    TokensPrefix(mk, i, n);
    PrefixSlice(before, t, Tokens(mk, n), Offset(i));
  }

  /** The part `t` of a prefix `before + t` of `w`, found in `w`. */
  lemma PrefixSlice(before: string, t: string, w: string, k: nat)
    requires k == |before|
    requires before + t <= w
    ensures k + |t| <= |w|
    ensures w[k..k + |t|] == t
  {
    var u := w[k..k + |t|];
    forall j | 0 <= j < |t|
      ensures u[j] == t[j]
    {
      assert u[j] == w[k + j] == (before + t)[k + j];
    }
  }

  /** The buffer after all 100 squares, before the newline. */
  lemma FullBuffer(mk: nat -> char)
    ensures RawBoard(mk, 100) == "BOARD:" + Tokens(mk, 99) + "100" + [mk(100)]
  {
    LastSquareCut(mk);
  }

  lemma EndLineOf(head: string, c: char)
    ensures EndLine(head + [c]) == head + "\n"
  {
    assert (head + [c])[..|head|] == head;
  }

  /** Square 100's token keeps only `100` and its marker. */
  lemma LastSquareCut(mk: nat -> char)
    ensures RawBoard(mk, 100) == RawBoard(mk, 99) + "100" + [mk(100)]
  {
    LongTokenCut(mk, 100);
    HundredDigits();
  }

  lemma HundredDigits()
    ensures Decimal(100) == "100"
  {
    assert Decimal(1) == "1";
    assert Decimal(10) == "10";
  }

  /** A three-digit square keeps its number and marker, not its comma. */
  lemma LongTokenCut(mk: nat -> char, n: nat)
    requires 100 <= n < 1000
    ensures RawBoard(mk, n) == RawBoard(mk, n - 1) + Decimal(n) + [mk(n)]
  {
    var t := Token(n, mk(n));
    assert t[..4] == Decimal(n) + [mk(n)];
  }

  /** Square i appears in a message carrying the tokens of squares 1..n
      from position 6 on as its number followed by its marker and a comma,
      at a fixed position. */
  lemma SnapshotTokenOf(mk: nat -> char, m: string, n: nat, i: nat)
    requires 6 + |Tokens(mk, n)| <= |m|
    requires m[6..6 + |Tokens(mk, n)|] == Tokens(mk, n)
    requires 1 <= i <= n <= 99
    ensures 6 + Offset(i) + |Token(i, mk(i))| <= |m|
    ensures m[6 + Offset(i)..6 + Offset(i) + |Token(i, mk(i))|] == Token(i, mk(i))
  {
    TokenAt(mk, n, i);
    var ts, t := Tokens(mk, n), Token(i, mk(i));
    var at := 6 + Offset(i);
    SliceOfSlice(m, 6, 6 + |ts|, Offset(i), Offset(i) + |t|, at, at + |t|);
  }

  /** In the board message, square i is followed by `S` exactly when it is a
      snake start and by `L` exactly when it is a ladder start. */
  lemma BoardTokenOf(i: nat)
    requires 1 <= i <= 99
    ensures 6 + Offset(i) + |Decimal(i)| < |BoardMessage()|
    ensures BoardMessage()[6 + Offset(i)..6 + Offset(i) + |Decimal(i)|] == Decimal(i)
    ensures BoardMessage()[6 + Offset(i) + |Decimal(i)|] == 'S' <==> StartsIn(Snakes, i)
    ensures BoardMessage()[6 + Offset(i) + |Decimal(i)|] == 'L' <==> StartsIn(Ladders, i)
    ensures BoardMessage()[6 + Offset(i) + |Decimal(i)|] == ' ' <==> !IsStart(i)
  {
    MessageMarkerAt(Markers, BoardMessage(), 99, "100", "\n", i);
    assert Markers(i) == Marker(i);
  }

  /** Square i's number and marker in a message of the snapshot's shape. */
  lemma MessageMarkerAt(mk: nat -> char, m: string, n: nat, x: string, y: string, i: nat)
    requires m == "BOARD:" + Tokens(mk, n) + x + y
    requires 1 <= i <= n <= 99
    ensures 6 + Offset(i) + |Decimal(i)| < |m|
    ensures m[6 + Offset(i)..6 + Offset(i) + |Decimal(i)|] == Decimal(i)
    ensures m[6 + Offset(i) + |Decimal(i)|] == mk(i)
  {
    PartAt("BOARD:", Tokens(mk, n), x, y, 6);
    SnapshotTokenOf(mk, m, n, i);
    TokenParts(m, 6 + Offset(i), Token(i, mk(i)), Decimal(i), mk(i));
  }

  /** The second part of a four-part concatenation. */
  lemma PartAt(a: string, b: string, c: string, d: string, k: nat)
    requires k == |a|
    ensures (a + b + c + d)[k..k + |b|] == b
  {
  }

  /** A slice of a slice, with its bounds given in the outer string. */
  lemma SliceOfSlice(m: string, lo: nat, hi: nat, a: nat, b: nat, x: nat, y: nat)
    requires lo <= hi <= |m|
    requires a <= b <= hi - lo
    requires x == lo + a && y == lo + b
    ensures m[lo..hi][a..b] == m[x..y]
  {
    assert forall j :: 0 <= j < b - a ==> m[lo..hi][a..b][j] == m[x + j];
  }

  /** The number and the marker inside a token found in a message. */
  lemma TokenParts(m: string, start: nat, t: string, d: string, c: char)
    requires t == d + [c] + ","
    requires start + |t| <= |m|
    requires m[start..start + |t|] == t
    ensures m[start..start + |d|] == d
    ensures m[start + |d|] == c
  {
    assert m[start + |d|] == t[|d|];
    assert m[start..start + |d|] == t[..|d|];
  }

  // ---------------------------------------------------------------------
  // The `POSITIONS:` line.

  /** `send_sl_positions`: `POSITIONS:P1=<a>,P2=<b>,` with the trailing
      comma replaced by a newline. */
  function PositionsMessage(p1: nat, p2: nat): (line: string)
    ensures line == "POSITIONS:P1=" + Decimal(p1) + ",P2=" + Decimal(p2) + "\n"
  {
    var body := "POSITIONS:" + "P1=" + Decimal(p1) + "," + "P2=" + Decimal(p2);
    var raw := body + ",";
    assert raw[..|raw| - 1] == body;
    raw[..|raw| - 1] + "\n"
  }

  /** Reads a `POSITIONS:` line back into the two positions. */
  function ParsePositions(msg: string): Option<(nat, nat)> {
    var head := "POSITIONS:P1=";
    if !(head <= msg) then None
    else
      var (a, rest) := SplitDigits(msg[|head|..]);
      if |a| == 0 || !(",P2=" <= rest) then None
      else
        var (b, tail) := SplitDigits(rest[4..]);
        if |b| == 0 || tail != "\n" then None
        else Some((DigitsValue(a), DigitsValue(b)))
  }

  /** The positions line carries both positions faithfully. */
  lemma PositionsRoundTrip(p1: nat, p2: nat)
    ensures ParsePositions(PositionsMessage(p1, p2)) == Some((p1, p2))
  {
    var a, b := Decimal(p1), Decimal(p2);
    assert PositionsMessage(p1, p2) == "POSITIONS:P1=" + a + (",P2=" + (b + "\n"));
    ParseDigitFields(a, b);
    DecimalRoundTrip(p1);
    DecimalRoundTrip(p2);
  }

  /** Parsing a well-formed positions line reads its two digit fields. */
  lemma ParseDigitFields(a: string, b: string)
    requires 1 <= |a| && forall k :: 0 <= k < |a| ==> IsDigit(a[k])
    requires 1 <= |b| && forall k :: 0 <= k < |b| ==> IsDigit(b[k])
    ensures ParsePositions("POSITIONS:P1=" + a + (",P2=" + (b + "\n"))) == Some((DigitsValue(a), DigitsValue(b)))
  {
    var head, tail := "POSITIONS:P1=", b + "\n";
    var rest := ",P2=" + tail;
    DropPrefix(head, a + rest, 13);
    assert head + a + rest == head + (a + rest);
    SplitDigitsOf(a, rest);
    DropPrefix(",P2=", tail, 4);
    SplitDigitsOf(b, "\n");
  }

  lemma DropPrefix(p: string, x: string, k: nat)
    requires k == |p|
    ensures (p + x)[k..] == x
  {
  }
}
