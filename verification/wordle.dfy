/** Wordle: two players alternate five-letter guesses at a secret word drawn
    from a fixed list. Feedback copies a letter that sits at the right
    position and shows `*` everywhere else. The secret is a parameter (the
    server draws it with `rand()`). */
module Wordle {
  import opened Text

  const WordList: seq<string> := ["APPLE", "GRAPE", "MANGO", "BERRY", "LEMON", "WATER", "ORBIT"]
  const WordLength: nat := 5
  const MaxAttempts: nat := 5

  /** The session's `turn`: 1, 2, or the 0 a zero-filled session slot
      holds when the game-name chain never set the session up. Every
      `turn == 1` test fails on 0, so `Zero` moves as player 2 does, and the
      turn then passes to player 1. */
  datatype Player = One | Two | Zero {
    function Other(): Player {
      if this == One then Two else One
    }
  }

  /** Session state: the secret, whose turn it is, and each player's
      count of scored guesses. */
  datatype Game = Game(secret: string, turn: Player, attempts1: nat, attempts2: nat, maxAttempts: nat)

  datatype Outcome = Solved(winner: Player) | NoOneGuessed | NextTurn

  datatype Event =
    | Quit(who: Player)                                        // the player typed `exit`
    | Rejected                                                 // fewer than five characters
    | Scored(guess: string, feedback: string, outcome: Outcome)

  /** Per-position feedback: the guessed letter where it matches the
      secret, `*` elsewhere. */
  function CheckGuess(guess: string, secret: string): (fb: string)
    requires |guess| == |secret|
    ensures |fb| == |guess|
    ensures forall k :: 0 <= k < |guess| ==> fb[k] == (if guess[k] == secret[k] then guess[k] else '*')
    ensures guess == secret ==> fb == guess
    ensures '*' !in guess ==> (fb == guess <==> guess == secret)
  {
    if |guess| == 0 then []
    else [if guess[0] == secret[0] then guess[0] else '*'] + CheckGuess(guess[1..], secret[1..])
  }

  /** The `secretWord[6]` field as `checkGuess` reads it: the secret
      followed by the NUL bytes that fill the rest of the field. */
  function SecretCells(secret: string): (cells: string)
    requires |secret| <= WordLength
    ensures |cells| == WordLength && cells[..|secret|] == secret
    ensures forall k :: |secret| <= k < WordLength ==> cells[k] == '\0'
  {
    secret + seq(WordLength - |secret|, _ => '\0')
  }

  /** The state `runWordleGame` starts from in a session slot the
      game-name chain left untouched: every field still zero, so the secret
      is empty, the turn is 0 and no attempt is allowed. */
  const Unconfigured: Game := Game("", Zero, 0, 0, 0)

  /** The opening state of a session whose secret was drawn from the list. */
  function Start(secret: string): (g: Game)
    requires secret in WordList
    ensures g.secret == secret && |g.secret| == WordLength
    ensures g.turn == One && g.attempts1 == 0 && g.attempts2 == 0 && g.maxAttempts == MaxAttempts
    ensures Inv(g)
  {
    Game(secret, One, 0, 0, MaxAttempts)
  }

  /** The guess the server keeps from a raw message: the first five
      characters of the C string it read. */
  function GuessOf(msg: string): (guess: string)
    ensures guess <= CString(msg)
    ensures |guess| == if |CString(msg)| < WordLength then |CString(msg)| else WordLength
  {
    Take(CString(msg), WordLength)
  }

  function Attempts(g: Game, p: Player): nat {
    if p == One then g.attempts1 else g.attempts2
  }

  /** One pass of the session loop: the turn holder sends `msg`. */
  function Step(g: Game, msg: string): (r: (Game, Event))
    requires |g.secret| <= WordLength
    // `exit` ends the session, nothing else changes
    ensures "exit" <= msg ==> r == (g, Quit(g.turn))
    // a short guess is refused without passing the turn or counting an attempt
    ensures !("exit" <= msg) && |GuessOf(msg)| < WordLength ==> r == (g, Rejected)
    // and a full five-character guess is always scored, with its feedback
    ensures !("exit" <= msg) && |GuessOf(msg)| == WordLength ==> r.1.Scored?
    ensures r.1.Scored? ==> |r.1.guess| == WordLength && r.1.feedback == CheckGuess(r.1.guess, SecretCells(g.secret))
    ensures r.1.Scored? && |g.secret| == WordLength ==>
              |r.1.guess| == |g.secret| && r.1.feedback == CheckGuess(r.1.guess, g.secret)
    // otherwise exactly the mover's attempt count grows by one
    ensures r.1.Scored? ==>
              && |r.1.guess| == WordLength
              && r.1.guess == Upper(GuessOf(msg))
              && Attempts(r.0, g.turn) == Attempts(g, g.turn) + 1
              && Attempts(r.0, g.turn.Other()) == Attempts(g, g.turn.Other())
              && r.0.secret == g.secret && r.0.maxAttempts == g.maxAttempts
    ensures r.1.Scored? ==> (r.1.outcome.Solved? <==> r.1.guess == g.secret)
    ensures r.1.Scored? && r.1.outcome.Solved? ==> r.1.outcome.winner == g.turn && r.0.turn == g.turn
    // a draw needs both players to have used up their attempts
    ensures r.1.Scored? && r.1.outcome.NoOneGuessed? ==>
              r.0.attempts1 >= g.maxAttempts && r.0.attempts2 >= g.maxAttempts
    ensures r.1.Scored? && r.1.outcome.NextTurn? ==> r.0.turn == g.turn.Other()
  {
    if "exit" <= msg then (g, Quit(g.turn))
    else
      var guess := GuessOf(msg);
      if |guess| != WordLength then (g, Rejected)
      else
        var up := Upper(guess);
        var fb := CheckGuess(up, SecretCells(g.secret));
        var g1 := if g.turn == One then g.(attempts1 := g.attempts1 + 1) else g.(attempts2 := g.attempts2 + 1);
        if up == g.secret then (g1, Scored(up, fb, Solved(g.turn)))
        else if g1.attempts1 >= g1.maxAttempts && g1.attempts2 >= g1.maxAttempts then (g1, Scored(up, fb, NoOneGuessed))
        else (g1.(turn := g.turn.Other()), Scored(up, fb, NextTurn))
  }

  /** Between turns of a live session player One has guessed as often as
      player Two, or once more when it is Two's turn, and neither has run
      out of attempts. */
  predicate Inv(g: Game) {
    && |g.secret| == WordLength
    && g.maxAttempts == MaxAttempts
    && g.turn != Zero
    && (g.turn == One ==> g.attempts1 == g.attempts2)
    && (g.turn == Two ==> g.attempts1 == g.attempts2 + 1)
    && g.attempts1 <= g.maxAttempts
    && g.attempts2 < g.maxAttempts
  }

  /** Every step that keeps the session going keeps the invariant. */
  lemma StepKeepsInv(g: Game, msg: string)
    requires Inv(g)
    ensures var r := Step(g, msg);
            (r.1.Rejected? || (r.1.Scored? && r.1.outcome.NextTurn?)) ==> Inv(r.0)
  {
  }

  /** "No one guessed" happens exactly on player Two's last allowed guess:
      the session never runs past 2 * MaxAttempts scored guesses. */
  lemma DrawOnlyAfterAllAttempts(g: Game, msg: string)
    requires Inv(g)
    ensures var r := Step(g, msg);
            r.1.Scored? && r.1.outcome.NoOneGuessed? <==>
              (r.1.Scored? && !r.1.outcome.Solved? && g.turn == Two && g.attempts2 + 1 == MaxAttempts)
  {
  }

  /** Letters are compared case-insensitively because the guess is folded
      to upper case, and a message longer than five characters is cut to
      its first five: `apples` solves `APPLE`. */
  lemma LongGuessIsTruncated()
    ensures Step(Start("APPLE"), "apples\n").1 == Scored("APPLE", "APPLE", Solved(One))
  {
    var msg := "apples\n";
    assert CString(msg) == msg;
    assert GuessOf(msg) == "apple";
    assert Upper("apple") == "APPLE";
  }

  /** An empty read (a zero-byte `read` leaves the buffer zeroed) is just a
      short guess: the same player is asked again. */
  lemma EmptyReadIsRejected(g: Game)
    requires |g.secret| <= WordLength
    ensures Step(g, "") == (g, Rejected)
  {
  }

  /** In the unconfigured session the turn-0 player moves first, as player
      2. A five-letter guess never matches the NUL-filled secret, so it is
      answered `*****`, and with a maximum of 0 attempts "no one guessed"
      ends the session at once. */
  lemma UnconfiguredEndsAtFirstGuess(msg: string)
    requires !("exit" <= msg) && |GuessOf(msg)| == WordLength
    ensures Step(Unconfigured, msg) ==
            (Game("", Zero, 0, 1, 0), Scored(Upper(GuessOf(msg)), "*****", NoOneGuessed))
  {
    EmptySecretFirstGuess(Unconfigured, msg);
  }

  lemma EmptySecretFirstGuess(g: Game, msg: string)
    requires g.secret == "" && g.turn == Zero && g.attempts1 == 0 && g.attempts2 == 0 && g.maxAttempts == 0
    requires !("exit" <= msg) && |GuessOf(msg)| == WordLength
    ensures Step(g, msg) == (g.(attempts2 := 1), Scored(Upper(GuessOf(msg)), "*****", NoOneGuessed))
  {
    var guess := GuessOf(msg);
    UpperKeepsNoNul(guess, msg);
    assert forall k :: 0 <= k < WordLength ==> Upper(guess)[k] != SecretCells("")[k];
    NoMatchAllStars(Upper(guess), SecretCells(""));
  }

  /** The kept guess holds no NUL, and upper-casing adds none. */
  lemma UpperKeepsNoNul(guess: string, msg: string)
    requires guess == GuessOf(msg)
    ensures forall k :: 0 <= k < |guess| ==> Upper(guess)[k] != '\0'
  {
    forall k | 0 <= k < |guess|
      ensures Upper(guess)[k] != '\0'
    {
      assert guess[k] == CString(msg)[k];
    }
  }

  /** A guess that matches the secret nowhere gets only stars. */
  lemma NoMatchAllStars(guess: string, cells: string)
    requires |guess| == |cells| == WordLength
    requires forall k :: 0 <= k < WordLength ==> guess[k] != cells[k]
    ensures CheckGuess(guess, cells) == "*****"
  {
    var fb := CheckGuess(guess, cells);
    assert forall k :: 0 <= k < WordLength ==> fb[k] == '*';
  }

  /** Turn 0 asks player 2's seat and counts player 2's attempts, and the
      next turn is player 1's. */
  lemma ZeroMovesAsTwo(g: Game, msg: string)
    requires |g.secret| <= WordLength && g.turn == Zero
    ensures var r := Step(g, msg);
            && (r.1.Scored? ==> r.0.attempts2 == g.attempts2 + 1 && r.0.attempts1 == g.attempts1)
            && (r.1.Scored? && r.1.outcome.NextTurn? ==> r.0.turn == One)
  {
  }
}
