/** The waiting queue of the server's main loop: a connection joins the
    queue with no game chosen, `GAME:<name>` records its choice and pairs it
    with the first other waiting player whose choice is the same string,
    and the two paired players (or a player whose connection closed) leave
    the queue by shifting the later entries down. */
module Matchmaker {
  import opened Text
  import WordleRules = Wordle

  /** Room for a game name, `char gameChoice[20]`. */
  const ChoiceSize: nat := 20

  datatype Waiting = Waiting(fd: int, choice: string)

  type Queue = seq<Waiting>

  datatype Game = Wordle | Chess | SnakeLadder | TicTacToe | RockPaperScissors

  /** The name the client sends for each game. */
  function Name(g: Game): string {
    match g
    case Wordle => "WORDLE"
    case Chess => "CHESS"
    case SnakeLadder => "SNAKE_LADDER"
    case TicTacToe => "TIC_TAC_TOE"
    case RockPaperScissors => "ROCK_PAPER_SCISSOR"
  }

  /** The `if` chain that sets the session's game type: any other name sets
      nothing. */
  function GameNamed(choice: string): (g: Option<Game>)
    ensures g.Some? ==> Name(g.value) == choice
    ensures g.None? ==> forall h: Game :: Name(h) != choice
  {
    if choice == "WORDLE" then Some(Wordle)
    else if choice == "CHESS" then Some(Chess)
    else if choice == "SNAKE_LADDER" then Some(SnakeLadder)
    else if choice == "TIC_TAC_TOE" then Some(TicTacToe)
    else if choice == "ROCK_PAPER_SCISSOR" then Some(RockPaperScissors)
    else None
  }

  lemma GameNamedName(g: Game)
    ensures GameNamed(Name(g)) == Some(g)
  {
  }

  /** No two entries share a connection. */
  ghost predicate UniqueFds(q: Queue) {
    forall j, k :: 0 <= j < k < |q| ==> q[j].fd != q[k].fd
  }

  /** A new connection joins the end of the queue with an empty choice. */
  function Connect(q: Queue, fd: int): (r: Queue)
    ensures |r| == |q| + 1 && r[..|q|] == q
    ensures r[|q|].fd == fd && r[|q|].choice == []
  {
    q + [Waiting(fd, [])]
  }

  lemma ConnectKeepsUnique(q: Queue, fd: int)
    requires UniqueFds(q)
    requires forall k :: 0 <= k < |q| ==> q[k].fd != fd
    ensures UniqueFds(Connect(q, fd))
  {
  }

  /** The queue without entry `k`, the others in their order. */
  function RemoveAt(q: Queue, k: nat): (r: Queue)
    requires k < |q|
    ensures |r| == |q| - 1
    ensures forall j :: 0 <= j < k ==> r[j] == q[j]
    ensures forall j :: k <= j < |r| ==> r[j] == q[j + 1]
    ensures multiset(r) + multiset{q[k]} == multiset(q)
  {
    assert q == q[..k] + [q[k]] + q[k + 1..];
    q[..k] + q[k + 1..]
  }

  /** What `for (j = k; j < n - 1; j++) a[j] = a[j + 1]; n--;` leaves in the
      first `n - 1` slots, and the entry it writes to slot `-1`, outside the
      array, when `k` is `-1`. */
  function ShiftedOut(q: Queue, k: int): (r: (Queue, Option<Waiting>))
    requires -1 <= k < |q| && 0 < |q|
    ensures r.0 == RemoveAt(q, if k < 0 then 0 else k)
    ensures r.1 == if k == -1 then Some(q[0]) else None
  {
    if k < 0 then (q[1..], Some(q[0])) else (RemoveAt(q, k), None)
  }

  /** The shifting loop itself, one assignment per step as the server runs
      it, on a copy of the queue as long as the array. */
  method ShiftOut(q: Queue, k: int) returns (r: Queue, stray: Option<Waiting>)
    requires -1 <= k < |q| && 0 < |q|
    ensures (r, stray) == ShiftedOut(q, k)
  {
    var a := q;
    stray := None;
    var j := k;
    var lo := if k < 0 then 0 else k;
    while j < |q| - 1
      invariant k <= j <= |q| - 1
      invariant |a| == |q|
      invariant forall t :: 0 <= t < lo ==> a[t] == q[t]
      invariant forall t :: lo <= t < j ==> a[t] == q[t + 1]
      invariant forall t :: lo <= t < |q| && j <= t ==> a[t] == q[t]
      invariant stray == if k < 0 && 0 <= j then Some(q[0]) else None
    {
      if j < 0 {
        stray := Some(a[0]);
      } else {
        a := a[j := a[j + 1]];
      }
      j := j + 1;
    }
    r := a[..|q| - 1];
    assert forall t :: 0 <= t < |r| ==> r[t] == RemoveAt(q, lo)[t];
    assert r == RemoveAt(q, lo);
    assert stray == ShiftedOut(q, k).1;
  }

  /** The partner search: the first index `j != i`, from the front of the
      queue, whose choice is the same string as entry `i`'s. */
  function FindPartner(q: Queue, i: nat): (m: Option<nat>)
    requires i < |q|
    ensures m.Some? ==> m.value < |q| && m.value != i && q[m.value].choice == q[i].choice
    ensures m.Some? ==> forall j :: 0 <= j < m.value && j != i ==> q[j].choice != q[i].choice
    ensures m.None? <==> forall j :: 0 <= j < |q| && j != i ==> q[j].choice != q[i].choice
  {
    PartnerFrom(q, i, 0)
  }

  function PartnerFrom(q: Queue, i: nat, j: nat): (m: Option<nat>)
    requires i < |q| && j <= |q|
    ensures m.Some? ==> j <= m.value < |q| && m.value != i && q[m.value].choice == q[i].choice
    ensures m.Some? ==> forall t :: j <= t < m.value && t != i ==> q[t].choice != q[i].choice
    ensures m.None? <==> forall t :: j <= t < |q| && t != i ==> q[t].choice != q[i].choice
    decreases |q| - j
  {
    if j == |q| then None
    else if j != i && q[j].choice == q[i].choice then Some(j)
    else PartnerFrom(q, i, j + 1)
  }

  /** The two shifts as the server writes them: first the partner `m`
      leaves, then the slot `i - 1` of the shortened queue is shifted out. */
  function RemovePairAsWritten(q: Queue, i: nat, m: nat): (r: (Queue, Option<Waiting>))
    requires i < |q| && m < |q| && i != m
    ensures |r.0| == |q| - 2
    ensures r.1 == if i == 0 then Some(q[0]) else None
  {
    ShiftedOut(RemoveAt(q, m), i - 1)
  }

  /** Both paired players leave the queue; the rest keep their order. */
  function RemovePair(q: Queue, i: nat, m: nat): (r: Queue)
    requires i < |q| && m < |q| && i != m
    ensures |r| == |q| - 2
    ensures forall j :: 0 <= j < Min(i, m) ==> r[j] == q[j]
    ensures forall j :: Min(i, m) <= j < Max(i, m) - 1 ==> r[j] == q[j + 1]
    ensures forall j :: Max(i, m) - 1 <= j < |r| ==> r[j] == q[j + 2]
    ensures multiset(r) + multiset{q[i], q[m]} == multiset(q)
  {
    var q1 := RemoveAt(q, Max(i, m));
    assert q1[Min(i, m)] == q[Min(i, m)];
    RemoveAt(q1, Min(i, m))
  }

  function Min(x: nat, y: nat): nat {
    if x < y then x else y
  }

  function Max(x: nat, y: nat): nat {
    if x < y then y else x
  }

  /** The two shifts leave the right queue exactly when the partner was
      ahead of the player who just chose, or that player was at the front;
      when the partner is behind the player, an unrelated waiting player is
      removed instead and the paired one stays queued. */
  lemma AsWrittenRemovesPairIff(q: Queue, i: nat, m: nat)
    requires i < |q| && m < |q| && i != m
    requires UniqueFds(q)
    ensures RemovePairAsWritten(q, i, m).0 == RemovePair(q, i, m) <==> m < i || i == 0
  {
    if m < i {
      PartnerAheadRemovesPair(q, i, m);
    } else if i > 0 {
      PartnerBehindKeepsPlayer(q, i, m);
    }
  }

  lemma PartnerAheadRemovesPair(q: Queue, i: nat, m: nat)
    requires m < i < |q|
    ensures RemovePairAsWritten(q, i, m).0 == RemovePair(q, i, m)
  {
    var w := RemovePairAsWritten(q, i, m).0;
    var c := RemovePair(q, i, m);
    assert forall j :: 0 <= j < |w| ==> w[j] == c[j];
  }

  lemma PartnerBehindKeepsPlayer(q: Queue, i: nat, m: nat)
    requires 0 < i < m < |q| && UniqueFds(q)
    ensures RemovePairAsWritten(q, i, m).0[i - 1] == q[i]
    ensures q[i] in RemovePairAsWritten(q, i, m).0 && q[i] !in RemovePair(q, i, m)
    ensures RemovePairAsWritten(q, i, m).0 != RemovePair(q, i, m)
  {
    var w := RemovePairAsWritten(q, i, m).0;
    var c := RemovePair(q, i, m);
    assert w[i - 1] == q[i];
    assert c[i - 1] == q[i - 1];
    assert q[i - 1].fd != q[i].fd;
  }

  /** Read results of a waiting connection: closed (or failed), or bytes. */
  datatype Read = Closed | Data(bytes: string)

  /** A new session: its two players and the game type the `if` chain
      set, if any. */
  datatype Session = Session(player1: int, player2: int, game: Option<Game>)

  /** The game the dispatch after a pairing runs. Session slots start
      zero-filled and are never reused, and `WORDLE` is game type 0, so a
      session the chain set no type for runs Wordle as well. */
  function Dispatch(s: Session): (g: Game)
    ensures g == Wordle <==> s.game.None? || s.game == Some(Wordle)
    ensures s.game.Some? ==> g == s.game.value
  {
    if s.game.Some? then s.game.value else Wordle
  }

  /** The state a session that runs Wordle starts from: the chain's set-up
      with the drawn secret, or, when the chain set nothing up, the slot's
      zero-filled fields. */
  function WordleOpening(s: Session, secret: string): (w: WordleRules.Game)
    requires Dispatch(s) == Wordle && secret in WordleRules.WordList
    ensures s.game.Some? ==> WordleRules.Inv(w) && w.secret == secret && w.turn == WordleRules.One
    ensures s.game.None? ==> w.secret == "" && w.turn == WordleRules.Zero && w.maxAttempts == 0
    ensures w.attempts1 == 0 && w.attempts2 == 0
    ensures |w.secret| <= WordleRules.WordLength
  {
    if s.game.Some? then WordleRules.Start(secret) else WordleRules.Unconfigured
  }

  datatype Outcome = Dropped(fd: int) | Ignored | Waits | Paired(session: Session)

  /** The game name after `GAME:`: at most 20 characters of the C string,
      cut at the first newline. */
  function ChoiceOf(msg: string): (c: string)
    requires "GAME:" <= msg
    ensures |c| <= ChoiceSize && '\n' !in c && '\0' !in c
    ensures c <= CString(msg[5..]) && c <= msg[5..]
    // a name shorter than the limit stops only at the newline or the end
    ensures |c| < ChoiceSize ==> |c| == |CString(msg[5..])| || CString(msg[5..])[|c|] == '\n'
  {
    CutAt(Take(CString(msg[5..]), ChoiceSize), '\n')
  }

  /** The handling of one readable waiting connection `i`. */
  function OnRead(q: Queue, i: nat, rd: Read): (r: (Queue, Outcome))
    requires i < |q|
    ensures rd.Closed? ==> r == (RemoveAt(q, i), Dropped(q[i].fd))
    ensures rd.Data? && !("GAME:" <= rd.bytes) ==> r == (q, Ignored)
    ensures r.1.Waits? ==> rd.Data? && "GAME:" <= rd.bytes && r.0 == q[i := q[i].(choice := ChoiceOf(rd.bytes))]
    ensures r.1.Paired? ==> rd.Data? && "GAME:" <= rd.bytes && |r.0| == |q| - 2
    ensures r.1.Paired? ==> r.1.session.player2 == q[i].fd && r.1.session.game == GameNamed(ChoiceOf(rd.bytes))
  {
    match rd
    case Closed => (RemoveAt(q, i), Dropped(q[i].fd))
    case Data(msg) =>
      if !("GAME:" <= msg) then (q, Ignored)
      else
        var c := ChoiceOf(msg);
        var q1 := q[i := q[i].(choice := c)];
        match FindPartner(q1, i)
        case None => (q1, Waits)
        case Some(m) => (RemovePair(q1, i, m), Paired(Session(q1[m].fd, q1[i].fd, GameNamed(c))))
  }

  /** A name that fits the 20-character field with no newline or NUL. */
  predicate Fits(name: string) {
    |name| <= ChoiceSize && '\n' !in name && '\0' !in name
  }

  /** The line the client sends, `GAME:<name>` and a newline, records
      exactly the name when it fits the field. */
  lemma ChoiceOfLine(name: string)
    requires Fits(name)
    ensures ChoiceOf("GAME:" + name + "\n") == name
  {
    var msg := "GAME:" + name + "\n";
    var x := name + "\n";
    assert msg[5..] == x;
    CStringOfPlain(x);
    var t := Take(x, ChoiceSize);
    if |name| < ChoiceSize {
      assert t == name + "\n";
    } else {
      assert t == name + [];
    }
    CutAtPrefix(name, t[|name|..], '\n');
  }

  lemma ClientChoosesGame(g: Game)
    ensures ChoiceOf("GAME:" + Name(g) + "\n") == Name(g)
    ensures GameNamed(ChoiceOf("GAME:" + Name(g) + "\n")) == Some(g)
  {
    ChoiceOfLine(Name(g));
    GameNamedName(g);
  }

  /** A name nobody else in the queue has chosen is recorded and waits. */
  lemma NameWaits(q: Queue, i: nat, name: string)
    requires i < |q| && Fits(name)
    requires forall j :: 0 <= j < |q| && j != i ==> q[j].choice != name
    ensures OnRead(q, i, Data("GAME:" + name + "\n")) == (q[i := Waiting(q[i].fd, name)], Waits)
  {
    ChoiceOfLine(name);
    var q1 := q[i := Waiting(q[i].fd, name)];
    assert forall j :: 0 <= j < |q| && j != i ==> q1[j] == q[j];
  }

  /** A name first chosen, among the others, by entry `m` pairs the two. */
  lemma NamePairs(q: Queue, i: nat, name: string, m: nat)
    requires i < |q| && Fits(name)
    requires m < |q| && m != i && q[m].choice == name
    requires forall j :: 0 <= j < m && j != i ==> q[j].choice != name
    ensures OnRead(q, i, Data("GAME:" + name + "\n")) ==
            (RemovePair(q[i := Waiting(q[i].fd, name)], i, m), Paired(Session(q[m].fd, q[i].fd, GameNamed(name))))
  {
    ChoiceOfLine(name);
    var q1 := q[i := Waiting(q[i].fd, name)];
    assert forall j :: 0 <= j < |q| && j != i ==> q1[j] == q[j];
    assert FindPartner(q1, i) == Some(m);
  }

  /** A `GAME:` message pairs its sender exactly when some other waiting
      entry has chosen the same name; otherwise the sender waits. */
  lemma PairedIffPartnerExists(q: Queue, i: nat, msg: string)
    requires i < |q| && "GAME:" <= msg
    ensures OnRead(q, i, Data(msg)).1.Paired? <==> exists j :: 0 <= j < |q| && j != i && q[j].choice == ChoiceOf(msg)
    ensures !OnRead(q, i, Data(msg)).1.Paired? ==> OnRead(q, i, Data(msg)).1.Waits?
  {
    var c := ChoiceOf(msg);
    var q1 := q[i := q[i].(choice := c)];
    assert forall j :: 0 <= j < |q| && j != i ==> q1[j] == q[j];
  }

  /** A paired player leaves with the first other entry, in queue order,
      whose choice equals the name just read; the session's first player is
      that entry and the second the reader, and neither connection remains
      in the queue. */
  lemma PairedWithFirstMatch(q: Queue, i: nat, msg: string)
    requires i < |q| && "GAME:" <= msg && UniqueFds(q)
    requires OnRead(q, i, Data(msg)).1.Paired?
    ensures var c := ChoiceOf(msg);
            var q1 := q[i := q[i].(choice := c)];
            var m := FindPartner(q1, i);
            && m.Some? && m.value != i && q[m.value].choice == c
            && (forall j :: 0 <= j < m.value && j != i ==> q[j].choice != c)
            && OnRead(q, i, Data(msg)) == (RemovePair(q1, i, m.value), Paired(Session(q[m.value].fd, q[i].fd, GameNamed(c))))
  {
    var c := ChoiceOf(msg);
    var q1 := q[i := q[i].(choice := c)];
    assert forall j :: 0 <= j < |q| && j != i ==> q1[j] == q[j];
  }

  /** Removing entries never makes two of the rest share a connection. */
  lemma OnReadKeepsUnique(q: Queue, i: nat, rd: Read)
    requires i < |q| && UniqueFds(q)
    ensures UniqueFds(OnRead(q, i, rd).0)
  {
    if rd.Closed? {
      RemoveAtKeepsUnique(q, i);
    } else if "GAME:" <= rd.bytes {
      var c := ChoiceOf(rd.bytes);
      var q1 := q[i := q[i].(choice := c)];
      assert forall j :: 0 <= j < |q| ==> q1[j].fd == q[j].fd;
      assert UniqueFds(q1);
      var m := FindPartner(q1, i);
      if m.Some? {
        RemovePairKeepsUnique(q1, i, m.value);
      }
    }
  }

  lemma RemoveAtKeepsUnique(q: Queue, k: nat)
    requires k < |q| && UniqueFds(q)
    ensures UniqueFds(RemoveAt(q, k))
  {
    var r := RemoveAt(q, k);
    forall j, l | 0 <= j < l < |r|
      ensures r[j].fd != r[l].fd
    {
      assert r[j] == q[if j < k then j else j + 1] && r[l] == q[if l < k then l else l + 1];
    }
  }

  lemma RemovePairKeepsUnique(q: Queue, i: nat, m: nat)
    requires i < |q| && m < |q| && i != m && UniqueFds(q)
    ensures UniqueFds(RemovePair(q, i, m))
  {
    var r := RemovePair(q, i, m);
    forall j, k | 0 <= j < k < |r|
      ensures r[j].fd != r[k].fd
    {
      assert r[j] == q[Slot(j, i, m)] && r[k] == q[Slot(k, i, m)];
    }
  }

  /** The index in `q` of entry `j` of `RemovePair(q, i, m)`: it lies at
      most two places further on and is never one of the removed ones. */
  function Slot(j: nat, i: nat, m: nat): (s: nat)
    ensures j <= s <= j + 2
    ensures i != m ==> s != i && s != m
  {
    if j < Min(i, m) then j else if j < Max(i, m) - 1 then j + 1 else j + 2
  }

  /** Every entry of the corrected removal is the original entry at its
      slot, and the slots increase, so the survivors keep their order. */
  lemma RemovePairSlots(q: Queue, i: nat, m: nat)
    requires i < |q| && m < |q| && i != m
    ensures forall j :: 0 <= j < |q| - 2 ==> RemovePair(q, i, m)[j] == q[Slot(j, i, m)]
    ensures forall j, k :: 0 <= j < k < |q| - 2 ==> Slot(j, i, m) < Slot(k, i, m)
  {
  }

  /** A queue reachable from an empty one on which the two shifts go
      wrong: `c` chose `name` and waits behind two players `a` and `b` who
      have not chosen; when `b` then chooses `name`, its partner `c` is
      behind it, and the shifts drop `a`, which never chose, and leave `b`
      queued although it is now playing. */
  lemma SecondShiftDropsBystander(a: int, b: int, c: int, name: string)
    requires name != ""
    ensures var q1 := [Waiting(a, ""), Waiting(b, name), Waiting(c, name)];
            && RemovePair(q1, 1, 2) == [Waiting(a, "")]
            && RemovePairAsWritten(q1, 1, 2) == ([Waiting(b, name)], None)
  {
    var q1 := [Waiting(a, ""), Waiting(b, name), Waiting(c, name)];
    var q2 := [Waiting(a, ""), Waiting(b, name)];
    assert RemoveAt(q1, 2) == q2;
    assert RemoveAt(q2, 0) == [Waiting(b, name)];
    assert RemoveAt(q2, 1) == [Waiting(a, "")];
  }

  /** The queue of that example is reached from an empty queue: three
      connections, then `c` chooses `name` and waits. */
  lemma BystanderQueueIsReachable(a: int, b: int, c: int, name: string)
    requires Fits(name) && name != ""
    ensures OnRead(Connect(Connect(Connect([], a), b), c), 2, Data("GAME:" + name + "\n")) ==
            ([Waiting(a, ""), Waiting(b, ""), Waiting(c, name)], Waits)
  {
    var q := Connect(Connect(Connect([], a), b), c);
    assert q == [Waiting(a, ""), Waiting(b, ""), Waiting(c, "")];
    NameWaits(q, 2, name);
    assert q[2 := Waiting(c, name)] == [Waiting(a, ""), Waiting(b, ""), Waiting(c, name)];
  }

  /** On that queue, `b` choosing the same name is paired with `c`, which
      becomes the session's first player; both leave the queue. */
  lemma BystanderQueuePairs(a: int, b: int, c: int, name: string)
    requires Fits(name) && name != ""
    ensures OnRead([Waiting(a, ""), Waiting(b, ""), Waiting(c, name)], 1, Data("GAME:" + name + "\n")) ==
            ([Waiting(a, "")], Paired(Session(c, b, GameNamed(name))))
  {
    var q := [Waiting(a, ""), Waiting(b, ""), Waiting(c, name)];
    NamePairs(q, 1, name, 2);
    assert q[1 := Waiting(b, name)] == [Waiting(a, ""), Waiting(b, name), Waiting(c, name)];
    SecondShiftDropsBystander(a, b, c, name);
  }

  /** An empty name (`GAME:` and a newline) equals the choice of every
      player who has not chosen yet, so it pairs two of them in a session
      the chain sets no type for, which therefore runs Wordle. */
  lemma EmptyNamePairsUnassigned(a: int, b: int)
    ensures OnRead([Waiting(a, ""), Waiting(b, "")], 1, Data("GAME:" + "" + "\n")) == ([], Paired(Session(a, b, None)))
    ensures Dispatch(Session(a, b, None)) == Wordle
  {
    var q := [Waiting(a, ""), Waiting(b, "")];
    NamePairs(q, 1, "", 0);
    assert |RemovePair(q[1 := Waiting(b, "")], 1, 0)| == 0;
  }

  /** A name that is no game is accepted: the first player to choose it
      waits, and a second is paired with the first in a session the chain
      sets no type for, which therefore runs Wordle. */
  lemma UnknownNameIsAccepted(a: int, b: int, name: string)
    requires Fits(name) && GameNamed(name).None?
    ensures OnRead([Waiting(a, "")], 0, Data("GAME:" + name + "\n")) == ([Waiting(a, name)], Waits)
    ensures name != "" ==>
              OnRead([Waiting(a, name), Waiting(b, "")], 1, Data("GAME:" + name + "\n")) == ([], Paired(Session(a, b, None)))
    ensures Dispatch(Session(a, b, None)) == Wordle
  {
    NameWaits([Waiting(a, "")], 0, name);
    assert [Waiting(a, "")][0 := Waiting(a, name)] == [Waiting(a, name)];
    var q := [Waiting(a, name), Waiting(b, "")];
    if name != "" {
      NamePairs(q, 1, name, 0);
      assert |RemovePair(q[1 := Waiting(b, name)], 1, 0)| == 0;
    }
  }

  lemma CheckersIsNoGame()
    ensures Fits("CHECKERS") && GameNamed("CHECKERS").None?
  {
  }

  /** A name that is no game (say `wordle`: the comparison is
      case-sensitive) pairs two players into a session that runs Wordle from
      its zero-filled fields. The reader, player 2, guesses first, and the
      first five-letter guess is answered `*****` and ends the session with
      nobody having guessed the word. */
  lemma UnknownNamePlaysEmptyWordle(a: int, b: int, name: string, secret: string, msg: string)
    requires Fits(name) && GameNamed(name).None? && name != ""
    requires secret in WordleRules.WordList
    requires !("exit" <= msg) && |WordleRules.GuessOf(msg)| == WordleRules.WordLength
    ensures var r := OnRead([Waiting(a, name), Waiting(b, "")], 1, Data("GAME:" + name + "\n"));
            && r.1.Paired? && r.1.session.player2 == b && Dispatch(r.1.session) == Wordle
            && var w := WordleOpening(r.1.session, secret);
               && w.turn == WordleRules.Zero
               && WordleRules.Step(w, msg).1 ==
                  WordleRules.Scored(Upper(WordleRules.GuessOf(msg)), "*****", WordleRules.NoOneGuessed)
  {
    UnknownNameIsAccepted(a, b, name);
    WordleRules.UnconfiguredEndsAtFirstGuess(msg);
  }
}
