/** Rock-paper-scissors (STONE, PAPER, SCISSORS), best of three: rounds are
    played until one player has two round wins. Each round reads player 1's
    move and then player 2's; a move is the first 15 characters of what was
    read, folded to upper case, and `exit` at the start of a read ends the
    session. */
module RockPaperScissors {
  import opened Text

  const MoveLength: nat := 15
  const BestOf: nat := 3
  const RoundsToWin: nat := BestOf / 2 + 1

  datatype Result = Tie | FirstWins | SecondWins

  /** `receive_rps_move`: `None` for `exit`, otherwise the kept move. */
  function ReadMove(buf: string): (m: Option<string>)
    ensures m.None? <==> "exit" <= buf
    ensures m.Some? ==> m.value <= CString(buf)
    // the first 15 characters of the C string read, or all of a shorter one
    ensures m.Some? ==> |m.value| == if |CString(buf)| < MoveLength then |CString(buf)| else MoveLength
  {
    if "exit" <= buf then None else Some(Take(CString(buf), MoveLength))
  }

  /** The move a read that is not `exit` stands for: the kept characters,
      upper-cased. */
  function Move(buf: string): (p: string)
    ensures |p| == if |CString(buf)| < MoveLength then |CString(buf)| else MoveLength
    ensures forall k :: 0 <= k < |p| ==> p[k] == UpperChar(CString(buf)[k])
  {
    Upper(Take(CString(buf), MoveLength))
  }

  /** `get_rps_winner` on the upper-cased moves: equal moves tie, player 1
      wins exactly when that move beats the other under the rule, and
      every other pair goes to player 2. */
  function Winner(p1: string, p2: string): (r: Result)
    ensures r == Tie <==> p1 == p2
    ensures r == FirstWins <==> p1 != p2 && Beats(p1, p2)
    ensures r == SecondWins <==> p1 != p2 && !Beats(p1, p2)
  {
    if p1 == p2 then Tie
    else if (p1 == "STONE" && p2 == "SCISSORS") || (p1 == "PAPER" && p2 == "STONE") || (p1 == "SCISSORS" && p2 == "PAPER")
    then FirstWins
    else SecondWins
  }

  /** The three moves the game knows. */
  predicate Known(m: string) {
    m == "STONE" || m == "PAPER" || m == "SCISSORS"
  }

  /** The place of a known move in the cycle stone, scissors, paper. */
  function Index(m: string): (i: nat)
    requires Known(m)
    ensures i < 3
  {
    if m == "STONE" then 0 else if m == "SCISSORS" then 1 else 2
  }

  /** The rule of the game: each move beats the one after it in the cycle
      (stone blunts scissors, scissors cut paper, paper wraps stone). */
  predicate Beats(a: string, b: string) {
    Known(a) && Known(b) && Index(b) == (Index(a) + 1) % 3
  }

  /** Between two known moves the server's verdict is the rule's, whichever
      seat each move is in. */
  lemma WinnerFollowsRule(a: string, b: string)
    requires Known(a) && Known(b)
    ensures Winner(a, b) == Tie <==> a == b
    ensures Winner(a, b) == FirstWins <==> Beats(a, b)
    ensures Winner(a, b) == SecondWins <==> Beats(b, a)
  {
  }

  /** Any round that is not a tie and not one of player 1's three winning
      pairs goes to player 2: an unknown word (say `ROCK`) loses in player
      1's seat and wins in player 2's. */
  lemma UnknownMoveFavoursSecond(a: string, b: string)
    requires a != b && (!Known(a) || !Known(b))
    ensures Winner(a, b) == SecondWins
  {
  }

  lemma RockBeatsStoneForPlayerTwo()
    ensures Winner("STONE", "ROCK") == SecondWins
    ensures Winner("ROCK", "STONE") == SecondWins
  {
  }

  /** The running score: round wins of each player and rounds started. */
  datatype Match = Match(score1: nat, score2: nat, rounds: nat)

  /** The score a game starts from. */
  const Start: Match := Match(0, 0, 0)

  datatype RoundEvent = Quit | Played(move1: string, move2: string, result: Result)

  predicate Over(m: Match) {
    m.score1 >= RoundsToWin || m.score2 >= RoundsToWin
  }

  /** One pass of the round loop given what the two reads return. Player 2
      is not read when player 1 quits. */
  function Round(m: Match, buf1: string, buf2: string): (r: (Match, RoundEvent))
    ensures r.0.rounds == m.rounds + 1
    ensures "exit" <= buf1 ==> r.1 == Quit
    ensures r.1.Quit? <==> "exit" <= buf1 || "exit" <= buf2
    ensures r.1.Quit? ==> r.0.score1 == m.score1 && r.0.score2 == m.score2
    ensures r.1.Played? ==>
              && r.1.move1 == Move(buf1)
              && r.1.move2 == Move(buf2)
              && r.1.result == Winner(r.1.move1, r.1.move2)
              && r.0.score1 == m.score1 + (if r.1.result == FirstWins then 1 else 0)
              && r.0.score2 == m.score2 + (if r.1.result == SecondWins then 1 else 0)
  {
    var m1 := m.(rounds := m.rounds + 1);
    match ReadMove(buf1)
    case None => (m1, Quit)
    case Some(a) =>
      match ReadMove(buf2)
      case None => (m1, Quit)
      case Some(b) =>
        var p1, p2 := Move(buf1), Move(buf2);
        var res := Winner(p1, p2);
        var m2 := if res == FirstWins then m1.(score1 := m1.score1 + 1)
                  else if res == SecondWins then m1.(score2 := m1.score2 + 1)
                  else m1;
        (m2, Played(p1, p2, res))
  }

  datatype Outcome = Abandoned | Champion(first: bool) | Unfinished

  /** The match would already be over after the rounds in `results`. */
  predicate OverAfter(m: Match, results: seq<Result>) {
    m.score1 + Tally(results, FirstWins) >= RoundsToWin || m.score2 + Tally(results, SecondWins) >= RoundsToWin
  }

  /** How many of the round results are `res`. */
  function Tally(results: seq<Result>, res: Result): nat {
    if |results| == 0 then 0 else Tally(results[..|results| - 1], res) + (if results[|results| - 1] == res then 1 else 0)
  }

  /** Runs the round loop over the reads in `inputs` (player 1's, player
      2's) until someone has two wins, someone quits, or the reads run out.
      Returns the final score, the outcome, and the results of the rounds
      that were played. */
  function Play(m: Match, inputs: seq<(string, string)>): (r: (Match, Outcome, seq<Result>))
    requires !Over(m)
    ensures |r.2| <= |inputs|
    ensures r.0.score1 == m.score1 + Tally(r.2, FirstWins)
    ensures r.0.score2 == m.score2 + Tally(r.2, SecondWins)
    ensures r.1.Champion? ==> Over(r.0)
    ensures r.1.Champion? && r.1.first ==> r.0.score1 == RoundsToWin && r.0.score2 < RoundsToWin
    ensures r.1.Champion? && !r.1.first ==> r.0.score2 == RoundsToWin && r.0.score1 < RoundsToWin
    ensures !r.1.Champion? ==> !Over(r.0)
    ensures r.1.Unfinished? ==> |r.2| == |inputs|
    decreases |inputs|
  {
    if |inputs| == 0 then (m, Unfinished, [])
    else
      var (m1, ev) := Round(m, inputs[0].0, inputs[0].1);
      match ev
      case Quit => (m1, Abandoned, [])
      case Played(_, _, res) =>
        if Over(m1) then (m1, Champion(m1.score1 > m1.score2), [res])
        else
          var rest := Play(m1, inputs[1..]);
          TallyCons(res, rest.2, FirstWins);
          TallyCons(res, rest.2, SecondWins);
          (rest.0, rest.1, [res] + rest.2)
  }

  /** The rounds `Play` reports are the rounds the reads describe: round k
      was played on the k-th pair of reads, which held no `exit`, from a
      score that did not yet decide the match. */
  lemma {:induction false} PlayRounds(m: Match, inputs: seq<(string, string)>)
    requires !Over(m)
    ensures var r := Play(m, inputs);
            && (forall k :: 0 <= k < |r.2| ==>
                  && !("exit" <= inputs[k].0) && !("exit" <= inputs[k].1)
                  && r.2[k] == Winner(Move(inputs[k].0), Move(inputs[k].1)))
            && (forall k :: 0 <= k < |r.2| ==> !OverAfter(m, r.2[..k]))
    decreases |inputs|
  {
    if |inputs| > 0 {
      var (m1, ev) := Round(m, inputs[0].0, inputs[0].1);
      if ev.Played? && !Over(m1) {
        var res := ev.result;
        var rest := Play(m1, inputs[1..]);
        PlayRounds(m1, inputs[1..]);
        assert Play(m, inputs) == (rest.0, rest.1, [res] + rest.2);
        ConsNotOver(m, m1, res, rest.2);
        ConsPlayed(inputs, res, rest.2);
      }
    }
  }

  /** The match is abandoned exactly when, still undecided, the next reads
      hold `exit`; and every round started counts, the abandoned one
      included. */
  lemma {:induction false} PlayAbandons(m: Match, inputs: seq<(string, string)>)
    requires !Over(m)
    ensures var r := Play(m, inputs);
            && (r.1.Abandoned? <==>
                  !Over(r.0) && |r.2| < |inputs| && ("exit" <= inputs[|r.2|].0 || "exit" <= inputs[|r.2|].1))
            && r.0.rounds == m.rounds + |r.2| + (if r.1.Abandoned? then 1 else 0)
    decreases |inputs|
  {
    if |inputs| > 0 {
      var (m1, ev) := Round(m, inputs[0].0, inputs[0].1);
      if ev.Played? && !Over(m1) {
        var rest := Play(m1, inputs[1..]);
        PlayAbandons(m1, inputs[1..]);
        assert Play(m, inputs) == (rest.0, rest.1, [ev.result] + rest.2);
        if |rest.2| + 1 < |inputs| {
          assert inputs[1..][|rest.2|] == inputs[|rest.2| + 1];
        }
      }
    }
  }

  /** Counting a result in front of the others. */
  lemma {:induction false} TallyCons(x: Result, rest: seq<Result>, res: Result)
    ensures Tally([x] + rest, res) == (if x == res then 1 else 0) + Tally(rest, res)
    decreases |rest|
  {
    if |rest| > 0 {
      var last := rest[|rest| - 1];
      assert ([x] + rest)[..|rest|] == [x] + rest[..|rest| - 1];
      TallyCons(x, rest[..|rest| - 1], res);
    }
  }

  /** A round played from an undecided score, then rounds none of which
      was played after a decision, is again such a list of rounds. */
  lemma ConsNotOver(m: Match, m1: Match, res: Result, rest: seq<Result>)
    requires !Over(m)
    requires m1.score1 == m.score1 + (if res == FirstWins then 1 else 0)
    requires m1.score2 == m.score2 + (if res == SecondWins then 1 else 0)
    requires forall k :: 0 <= k < |rest| ==> !OverAfter(m1, rest[..k])
    ensures forall k :: 0 <= k <= |rest| ==> !OverAfter(m, ([res] + rest)[..k])
  {
    forall k | 0 <= k <= |rest|
      ensures !OverAfter(m, ([res] + rest)[..k])
    {
      if k == 0 {
        assert ([res] + rest)[..k] == [];
      } else {
        assert ([res] + rest)[..k] == [res] + rest[..k - 1];
        TallyCons(res, rest[..k - 1], FirstWins);
        TallyCons(res, rest[..k - 1], SecondWins);
      }
    }
  }

  /** A round played on the first reads, then rounds played on the reads
      after them, are rounds played on all the reads. */
  lemma ConsPlayed(inputs: seq<(string, string)>, res: Result, rest: seq<Result>)
    requires 0 < |inputs| && !("exit" <= inputs[0].0) && !("exit" <= inputs[0].1)
    requires res == Winner(Move(inputs[0].0), Move(inputs[0].1))
    requires |rest| < |inputs|
    requires forall k :: 0 <= k < |rest| ==>
               && !("exit" <= inputs[1..][k].0) && !("exit" <= inputs[1..][k].1)
               && rest[k] == Winner(Move(inputs[1..][k].0), Move(inputs[1..][k].1))
    ensures forall k :: 0 <= k < |rest| + 1 ==>
              && !("exit" <= inputs[k].0) && !("exit" <= inputs[k].1)
              && ([res] + rest)[k] == Winner(Move(inputs[k].0), Move(inputs[k].1))
  {
    forall k | 0 < k < |rest| + 1
      ensures && !("exit" <= inputs[k].0) && !("exit" <= inputs[k].1)
              && ([res] + rest)[k] == Winner(Move(inputs[k].0), Move(inputs[k].1))
    {
      assert inputs[1..][k - 1] == inputs[k];
    }
  }

  /** Two empty reads (what a closed connection leaves in the zeroed
      buffer) are equal moves: the round is a tie and the scores stay, so
      with both players gone the loop never reaches a winner. */
  lemma EmptyReadsTie(m: Match)
    ensures Round(m, "", "").1 == Played("", "", Tie)
    ensures Round(m, "", "").0 == m.(rounds := m.rounds + 1)
  {
  }

  lemma {:induction false} EmptyReadsNeverFinish(m: Match, n: nat)
    requires !Over(m)
    ensures var r := Play(m, seq(n, _ => ("", "")));
            r.1 == Unfinished && r.0.score1 == m.score1 && r.0.score2 == m.score2
    decreases n
  {
    var inputs := seq(n, _ => ("", ""));
    if n > 0 {
      var m1 := m.(rounds := m.rounds + 1);
      assert Round(m, "", "") == (m1, Played("", "", Tie));
      assert inputs[1..] == seq(n - 1, _ => ("", ""));
      EmptyReadsNeverFinish(m1, n - 1);
    }
  }

  /** A short read with no NUL and no `exit` is kept whole. */
  lemma ShortReadKept(buf: string)
    requires |buf| <= MoveLength && '\0' !in buf && !("exit" <= buf)
    ensures ReadMove(buf) == Some(buf)
  {
    CStringOfPlain(buf);
  }

  lemma UpperExamples()
    ensures Upper("stone") == "STONE" && Upper("STONE") == "STONE"
    ensures Upper("Paper") == "PAPER" && Upper("SCISSORS") == "SCISSORS"
    ensures Upper("STONE\n") == "STONE\n"
  {
    assert Upper("stone") == "STONE";
    assert Upper("STONE") == "STONE";
    assert Upper("Paper") == "PAPER";
    assert Upper("SCISSORS") == "SCISSORS";
    assert Upper("STONE\n") == "STONE\n";
  }

  /** A played round that does not end the match is followed by the rest
      of the loop. */
  lemma PlayContinues(m: Match, inputs: seq<(string, string)>, m1: Match, res: Result)
    requires !Over(m) && |inputs| > 0
    requires Round(m, inputs[0].0, inputs[0].1).0 == m1 && !Over(m1)
    requires Round(m, inputs[0].0, inputs[0].1).1.Played? && Round(m, inputs[0].0, inputs[0].1).1.result == res
    ensures var rest := Play(m1, inputs[1..]); Play(m, inputs) == (rest.0, rest.1, [res] + rest.2)
  {
  }

  /** A played round that ends the match ends the loop. */
  lemma PlayEnds(m: Match, inputs: seq<(string, string)>, m1: Match, res: Result)
    requires !Over(m) && |inputs| > 0
    requires Round(m, inputs[0].0, inputs[0].1).0 == m1 && Over(m1)
    requires Round(m, inputs[0].0, inputs[0].1).1.Played? && Round(m, inputs[0].0, inputs[0].1).1.result == res
    ensures Play(m, inputs) == (m1, Champion(m1.score1 > m1.score2), [res])
  {
  }

  /** A round between two short plain reads plays their upper-cased
      words. */
  lemma PlainRound(m: Match, buf1: string, buf2: string, p1: string, p2: string)
    requires |buf1| <= MoveLength && '\0' !in buf1 && !("exit" <= buf1) && Upper(buf1) == p1
    requires |buf2| <= MoveLength && '\0' !in buf2 && !("exit" <= buf2) && Upper(buf2) == p2
    ensures Round(m, buf1, buf2).1 == Played(p1, p2, Winner(p1, p2))
  {
    ShortReadKept(buf1);
    ShortReadKept(buf2);
    assert Move(buf1) == p1 && Move(buf2) == p2;
  }

  lemma StoneBluntsScissors()
    ensures Round(Match(0, 0, 0), "stone", "SCISSORS") == (Match(1, 0, 1), Played("STONE", "SCISSORS", FirstWins))
  {
    UpperExamples();
    assert "exit"[0] != "stone"[0];
    PlainRound(Match(0, 0, 0), "stone", "SCISSORS", "STONE", "SCISSORS");
  }

  lemma PaperWrapsStone()
    ensures Round(Match(1, 0, 1), "Paper", "stone") == (Match(2, 0, 2), Played("PAPER", "STONE", FirstWins))
  {
    UpperExamples();
    assert "exit"[0] != "stone"[0];
    PlainRound(Match(1, 0, 1), "Paper", "stone", "PAPER", "STONE");
  }

  /** Two round wins in a row from a fresh match end it in player 1's
      favour, whatever reads would follow. */
  lemma TwoWinsEndMatch(first: (string, string), second: (string, string), rest: seq<(string, string)>)
    requires Round(Start, first.0, first.1).1.Played?
    requires Round(Start, first.0, first.1).1.result == FirstWins
    requires Round(Match(1, 0, 1), second.0, second.1).1.Played?
    requires Round(Match(1, 0, 1), second.0, second.1).1.result == FirstWins
    ensures Play(Start, [first, second] + rest) == (Match(2, 0, 2), Champion(true), [FirstWins, FirstWins])
  {
    var inputs := [first, second] + rest;
    var tail := [second] + rest;
    assert inputs[0] == first && inputs[1..] == tail && tail[0] == second;
    var m1 := Round(Start, first.0, first.1).0;
    assert m1 == Match(1, 0, 1);
    var m2 := Round(m1, second.0, second.1).0;
    assert m2 == Match(2, 0, 2);
    PlayEnds(m1, tail, m2, FirstWins);
    PlayContinues(Start, inputs, m1, FirstWins);
    assert [FirstWins] + [FirstWins] == [FirstWins, FirstWins];
  }

  /** Player 1 takes the first two rounds, upper-casing `stone`. */
  lemma TwoStraightWins()
    ensures Play(Start, [("stone", "SCISSORS"), ("Paper", "stone")]) ==
            (Match(2, 0, 2), Champion(true), [FirstWins, FirstWins])
  {
    StoneBluntsScissors();
    PaperWrapsStone();
    TwoWinsEndMatch(("stone", "SCISSORS"), ("Paper", "stone"), []);
    assert [("stone", "SCISSORS"), ("Paper", "stone")] + [] == [("stone", "SCISSORS"), ("Paper", "stone")];
  }

  /** The newline is not stripped: a move sent as a whole line is not one
      of the three words, so in player 1's seat it loses. */
  lemma LineEndingMoveLoses()
    ensures Round(Match(0, 0, 0), "STONE\n", "SCISSORS") == (Match(0, 1, 1), Played("STONE\n", "SCISSORS", SecondWins))
  {
    UpperExamples();
    assert "exit"[0] != "STONE\n"[0];
    ShortReadKept("STONE\n");
    ShortReadKept("SCISSORS");
    assert Winner("STONE\n", "SCISSORS") == SecondWins;
  }
}
