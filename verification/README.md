# Game server rules and matchmaking, in Dafny

A model of the game logic of `complete_game_server.c`. This is a TCP server that pairs
waiting clients by the game they ask for and then runs one of five two-player games:

- Wordle;
- chess;
- snake and ladder;
- tic-tac-toe;
- rock-paper-scissors, which the server calls STONE/PAPER/SCISSORS.

Every session loop is modelled as a pure step function. The server draws the dice roll
and the Wordle secret with `rand()`; here both are parameters. Every read from a socket
is an abstract input string, or a datatype when the server parses it with `sscanf`.

| file | module | what it holds |
|---|---|---|
| `text.dfy` | `Text` | `Option`, and the C-string views the server takes of a read buffer (`CString`, `Take` for `strncpy`, `CutAt` for `strcspn`). Also `toupper`, and `%d` rendering with its inverse. |
| `wordle.dfy` | `Wordle` | `checkGuess` and one pass of `runWordleGame`. |
| `chess.dfy` | `Chess` | The starting board, `is_path_clear`, `is_legal_move`, `move_piece`, `check_chess_winner`, and one pass of `runChessGame`. |
| `snake_ladder.dfy` | `SnakeLadder` | The jump tables, one `ROLL`, the `BOARD:` snapshot and the `POSITIONS:` line. |
| `tic_tac_toe.dfy` | `TicTacToe` | `check_ttt_winner`, `is_ttt_draw`, and one read of the move loop. |
| `rps.dfy` | `RockPaperScissors` | `receive_rps_move`, `get_rps_winner`, one round, and the best-of-three loop. |
| `matchmaker.dfy` | `Matchmaker` | The waiting queue of `main`: joining, choosing a game, partner search, removal by shifting, and the game-type `if` chain. |

Where the design description and the code disagree, the model follows the code:

- **Player 1 of a new session** is the partner found by the scan, `matchIndex`, and the
  player who just chose is player 2. The description says player 1 is the
  earlier-queued player. These differ whenever the reader is ahead of its partner.
- **An unknown game name** is not refused with an error message. The reader waits like
  any other, and a second player choosing the same name is paired into a session whose
  game type the `if` chain never sets. Session slots start zero-filled, and `WORDLE` is
  game type 0, so that session runs Wordle with an empty secret, turn 0 and no attempts
  allowed. The second player guesses first, and the first five-letter guess ends the game
  with "no one guessed" (`Matchmaker.UnknownNamePlaysEmptyWordle`).

## Model

| member | source | states |
|---|---|---|
| `Text.CString` | complete_game_server.c:120-128 | The string read from a zero-filled buffer is the longest NUL-free prefix of the buffer, and it is followed by a NUL whenever it is shorter than the buffer. |
| `Text.CStringOfPlain` | complete_game_server.c:120-128 | A buffer with no NUL is read whole. |
| `Text.Take` | complete_game_server.c:126-127 | `strncpy` of n characters followed by a terminator keeps a prefix of length min(n, length). |
| `Text.CutAt` | complete_game_server.c:783 | Cutting at the first `c` keeps a prefix free of `c`, and the character right after it is `c`. |
| `Text.CutAtPrefix` | complete_game_server.c:783 | A `c`-free string followed by `c` (or by nothing) is cut back to exactly that string. |
| `Text.UpperChar` | complete_game_server.c:160-162 | Only `a`..`z` change, each by −32, and the result is never a lower-case letter. |
| `Text.Upper` | complete_game_server.c:672-673 | Upper-casing keeps the length and folds each character independently. |
| `Text.Decimal` | complete_game_server.c:460-461 | `%d` of a non-negative number is a non-empty digit string, with one, two or three digits exactly for numbers below 10, 100 and 1000. |
| `Text.DecimalRoundTrip` | complete_game_server.c:460-461 | Reading back the digits `%d` printed gives the number again. |
| `Wordle.CheckGuess` | complete_game_server.c:112-118 | Feedback position k is the guessed letter when it equals the secret's and `*` otherwise. So a correct guess is echoed whole, and for a guess without `*`, echo equals guess exactly when the guess is the secret. |
| `Wordle.Start` | complete_game_server.c:801-808 | A session starts on the secret it was given, a five-letter word from the list, with player 1 to move, no attempts used by either player and five allowed. The state satisfies the turn invariant. |
| `Wordle.GuessOf` | complete_game_server.c:120-128 | The kept guess is the first five characters of the C string read, or all of it when shorter. |
| `Wordle.Step` | complete_game_server.c:130-186 | `exit` quits and changes nothing. A kept guess shorter than five is refused without passing the turn or counting an attempt, and a full five-character guess is always scored. A scored guess is the upper-cased kept guess, its feedback is `checkGuess` against the secret's NUL-padded field (the secret itself when it has five letters), and it adds one attempt to the mover only. The mover wins exactly when the guess equals the secret. "No one guessed" needs both counts at the maximum. Otherwise the turn passes. Turn 0 moves as player 2 and passes the turn to player 1. |
| `Wordle.StepKeepsInv` | complete_game_server.c:130-186 | Refusals and ordinary turns keep the invariant: player 1 has guessed as often as player 2, or once more when it is player 2's turn, and neither has used up the attempts. |
| `Wordle.DrawOnlyAfterAllAttempts` | complete_game_server.c:172-177 | From a reachable state, "no one guessed" is declared exactly on player 2's fifth unsuccessful scored guess. |
| `Wordle.LongGuessIsTruncated` | complete_game_server.c:120-128 | A longer message is cut to its first five characters and folded to upper case, so `apples` solves `APPLE`. |
| `Wordle.EmptyReadIsRejected` | complete_game_server.c:149-152 | An empty read is refused as a short guess and the same player is asked again. |
| `Wordle.SecretCells` | complete_game_server.c:112-118 | `checkGuess` compares against the secret followed by the NUL bytes that fill the rest of the field; a five-letter secret is its own cells. |
| `Wordle.UnconfiguredEndsAtFirstGuess` | complete_game_server.c:130-177 | From the zero-filled state, a five-letter guess counts as player 2's attempt, gets `*****`, and ends the session with "no one guessed". |
| `Wordle.EmptySecretFirstGuess` | complete_game_server.c:130-177 | Any state with an empty secret, turn 0, no attempts and a maximum of 0 ends at the first five-letter guess with `*****`. |
| `Wordle.NoMatchAllStars` | complete_game_server.c:112-118 | A five-letter guess that differs from the secret field at every position gets only stars; the NUL-filled field of an unconfigured session is one such case. |
| `Wordle.UpperKeepsNoNul` | complete_game_server.c:120-128 | The kept guess holds no NUL, and upper-casing adds none. |
| `Wordle.ZeroMovesAsTwo` | complete_game_server.c:130-186 | Turn 0 counts player 2's attempts, and the next turn is player 1's. |
| `Chess.ClearFrom` | complete_game_server.c:264-268 | The remaining scan returns true exactly when every square it visits is empty. |
| `Chess.PathClear` | complete_game_server.c:257-269 | For a straight or diagonal move, the scan returns true exactly when every square strictly between the two ends is empty. |
| `Chess.ScanCoversBetween` | complete_game_server.c:257-269 | The squares the stepping scan visits are exactly the squares strictly between the ends, and after `steps` steps it stands on the destination. |
| `Chess.CheckMove` | complete_game_server.c:271-319 | A move is refused as "same square" exactly when source equals destination. It is refused as "own piece" exactly when it lands on a piece of the mover's colour. Every other refusal is the moving piece's own pattern rule. |
| `Chess.PawnRules` | complete_game_server.c:282-294 | A pawn may step one square forward onto an empty square, or two from its home row when both squares are empty. It may step diagonally only to capture an enemy piece. Each rule, for both colours, is necessary and sufficient. |
| `Chess.SlidingRules` | complete_game_server.c:299-310 | Bishop, rook and queen moves are legal exactly when the move has the piece's shape, does not land on a friendly piece, and leaves every square strictly between empty. |
| `Chess.LeaperRules` | complete_game_server.c:295-314 | Knight (a 1-2 jump) and king (one square) moves are legal exactly when the shape fits and the destination holds no friendly piece; squares in between do not matter. |
| `Chess.FindFrom` | complete_game_server.c:323-331 | The row-major scan from a square returns the first square, at or after it, holding a piece with the label and colour. It returns none when no such square follows. |
| `Chess.FindPiece` | complete_game_server.c:322-337 | Looking a piece up by label and colour returns the first such square in row-major order, or nothing exactly when the mover has no such piece. |
| `Chess.Destination` | complete_game_server.c:341-343 | The destination lies on the board exactly when its letter is `a`..`h` and its digit `1`..`8`, and then it is the square carrying that name. |
| `Chess.SquareName` | complete_game_server.c:341-343 | Every square has a two-character name with a letter `a`..`h` and a digit `1`..`8`. |
| `Chess.NameRoundTrip` | complete_game_server.c:341-343 | Reading a square's name back as a destination gives the same square. |
| `Chess.Put` | complete_game_server.c:355-357 | Writing one square changes that square only. |
| `Chess.MovePiece` | complete_game_server.c:321-362 | A move is rejected when the mover owns no piece with that label, or the destination is not two characters, or is off the board, or the move is illegal, and each rejection happens exactly under its condition. An illegal move carries `is_legal_move`'s own verdict. A successful move puts the piece on the destination, empties the source, and leaves every other square as it was. It reports a pawn taking a king exactly when that happens. |
| `Chess.MoveKeepsLabelsUnique` | complete_game_server.c:321-362 | If no two pieces of one colour share a label before a move, none do after it. |
| `Chess.KingFrom` | complete_game_server.c:365-370 | The scan from a flat index finds a king of the colour exactly when one stands at or after that index. |
| `Chess.KingScanFindsKing` | complete_game_server.c:364-375 | The full scan finds a king of a colour exactly when that king is on the board. |
| `Chess.CheckWinner` | complete_game_server.c:364-375 | Black wins exactly when the white king is gone. White wins exactly when the white king stands and the black king is gone. There is no winner exactly when both kings stand. |
| `Chess.BackRank` | complete_game_server.c:190-197 | The back rank holds rook, knight, bishop, queen, king, bishop, knight, rook, labelled `R1 K1 B1 Q K B2 K2 R2` plus the colour letter. |
| `Chess.PawnRank` | complete_game_server.c:198-203 | The pawn rank holds eight pawns labelled `P1`..`P8` plus the colour letter. |
| `Chess.EmptyRank` | complete_game_server.c:190 | A middle rank is empty. |
| `Chess.InitialBoard` | complete_game_server.c:189-219 | The starting board has Black's back rank on row 0 and pawns on row 1, White's pawns on row 6 and back rank on row 7, and rows 2 to 5 empty. |
| `Chess.BackLabelSquare` | complete_game_server.c:190-197 | A back-rank label leads back to its own square. |
| `Chess.PawnLabelSquare` | complete_game_server.c:198-203 | A pawn label leads back to its own square. |
| `Chess.InitialLabelsUnique` | complete_game_server.c:189-219 | In the starting layout no two pieces of one colour share a label, and both kings stand. |
| `Chess.StartGame` | complete_game_server.c:377-385 | A game starts on the initial layout with White to move; both kings stand and no two pieces of one colour share a label. |
| `Chess.ChessTurn` | complete_game_server.c:387-438 | A hangup is a disconnect and a non-`MOVE:` message is ignored, each exactly; neither changes the game. A move is refused exactly when `move_piece` rejects it, with its reason, and the game stays. Otherwise the game continues on the board `move_piece` produced: a pawn taking a king ends it for the mover exactly when `move_piece` reports that; otherwise a missing king ends it exactly when `check_chess_winner` names a winner, with that winner; otherwise the turn passes and both kings stand. |
| `Chess.WinnerIsMover` | complete_game_server.c:403-429 | While both kings stand, every game-ending move is won by the player who made it. |
| `SnakeLadder.Lookup` | complete_game_server.c:495-512 | Looking a square up in a table finds a jump that starts there exactly when one exists. |
| `SnakeLadder.TablesConsistent` | complete_game_server.c:44-48 | Snakes lead down and ladders up inside 1..100. Starts determine ends. No square starts both a snake and a ladder. No jump ends on a start. |
| `SnakeLadder.JumpDirections` | complete_game_server.c:44-48 | Every snake leads down and every ladder up, within the board. |
| `SnakeLadder.StartsDetermineEnds` | complete_game_server.c:44-48 | Within each table, a start square has one end. |
| `SnakeLadder.NoSharedStart` | complete_game_server.c:44-48 | No square starts both a snake and a ladder. |
| `SnakeLadder.JumpEndsOffStarts` | complete_game_server.c:44-48 | No jump ends on the start of another, so jumps never chain. |
| `SnakeLadder.Relocate` | complete_game_server.c:494-512 | A landing square that starts a jump moves the player to that jump's end; any other square keeps the player. |
| `SnakeLadder.Advance` | complete_game_server.c:492-520 | A roll that would pass 100 leaves the position and reports an overshoot. Otherwise the player lands on position plus roll and follows a snake or ladder starting there, reporting which. The position stays in 0..100 and never rests on a start. |
| `SnakeLadder.AdvanceIsRelocate` | complete_game_server.c:494-512 | Running the snake loop and then the ladder loop equals relocating by whichever table matches. |
| `SnakeLadder.Start` | complete_game_server.c:468-471 | Both players start on square 0 with player 1 to move, resting off every start square. |
| `SnakeLadder.Step` | complete_game_server.c:477-525 | A hangup is a disconnect, exactly; a message is a roll exactly when it starts with `ROLL`, and anything else from the turn holder changes nothing. A roll moves only the turn holder, as `Advance` says. The roll is a win exactly when it is not an overshoot and the new position is at least 100. A win keeps the turn and any other roll passes it. |
| `SnakeLadder.StepKeepsResting` | complete_game_server.c:487-525 | Every step keeps both players on 0..100 and off start squares, and a win lands exactly on 100. |
| `SnakeLadder.FirstRollClimbs` | complete_game_server.c:492-512 | From square 0 a roll of 1 lands on the ladder at 1, climbs to 38, and passes the turn. |
| `SnakeLadder.OvershootStays` | complete_game_server.c:492-524 | From 97 a roll of 4 leaves the player on 97 and still passes the turn. |
| `SnakeLadder.Marker` | complete_game_server.c:444-448 | The marker is `L` exactly on ladder starts, `S` exactly on snake starts, and blank exactly on every other square. |
| `SnakeLadder.EndLine` | complete_game_server.c:452 | Replacing the last character of a non-empty buffer with a newline. |
| `SnakeLadder.RawBoard` | complete_game_server.c:443-451 | The buffer always starts with `BOARD:`. Below square 100 no token reaches the 4-character cut, so after n squares it is `BOARD:` followed by the whole tokens of squares 1..n. |
| `SnakeLadder.TokensPrefix` | complete_game_server.c:443-451 | The tokens of the first squares are a prefix of the tokens of more squares. |
| `SnakeLadder.TokenAt` | complete_game_server.c:443-451 | Square i's token sits at its offset among the tokens. |
| `SnakeLadder.TokensLength` | complete_game_server.c:443-451 | The tokens of squares 1..n take exactly the characters up to square n+1's offset. |
| `SnakeLadder.LastSquareCut` | complete_game_server.c:449-451 | `snprintf(temp, 5, ...)` cuts square 100's token to `100` and its marker. |
| `SnakeLadder.ShortTokenUncut` | complete_game_server.c:449-450 | Below square 100 a token fits the 4-character cut whole. |
| `SnakeLadder.LongTokenCut` | complete_game_server.c:449-450 | `snprintf(temp, 5, ...)` cuts a three-digit square's token to its number and marker. |
| `SnakeLadder.HundredDigits` | complete_game_server.c:449 | `%d` prints 100 as `100`. |
| `SnakeLadder.FullBuffer` | complete_game_server.c:443-451 | After all 100 squares the buffer is `BOARD:`, the tokens of squares 1..99, `100`, and square 100's marker. |
| `SnakeLadder.EndLineOf` | complete_game_server.c:452 | The newline overwrites the final character. |
| `SnakeLadder.Snapshot` | complete_game_server.c:442-454 | The board message is `BOARD:`, the tokens of squares 1..99, then `100` and a newline: 397 characters, inside the 2048-byte buffer. |
| `SnakeLadder.SnapshotTokenOf` | complete_game_server.c:442-454 | In a message carrying the tokens from position 6 on, square i's token is found at a fixed position. |
| `SnakeLadder.MessageMarkerAt` | complete_game_server.c:442-454 | In a message of the snapshot's shape, square i's number sits at a fixed position and is followed by its marker. |
| `SnakeLadder.BoardTokenOf` | complete_game_server.c:442-454 | In the board message, each of squares 1..99 appears as its number followed by `S` exactly when it starts a snake, `L` exactly when it starts a ladder, and a blank exactly otherwise. |
| `SnakeLadder.BoardMessage` | complete_game_server.c:442-454 | `send_sl_board` sends the snapshot with the board's own markers: 397 characters of that shape. |
| `SnakeLadder.PositionsMessage` | complete_game_server.c:456-465 | The positions line is `POSITIONS:P1=<a>,P2=<b>` and a newline, the trailing comma overwritten. |
| `SnakeLadder.PositionsRoundTrip` | complete_game_server.c:456-465 | Parsing the `POSITIONS:P1=<a>,P2=<b>` line gives back both positions. |
| `TicTacToe.EmptyBoard` | complete_game_server.c:530-534 | The starting grid is 3x3 and blank everywhere. |
| `TicTacToe.MarkOf` | complete_game_server.c:579-602 | The mover's mark is `X` exactly on even turns and `O` on odd ones. |
| `TicTacToe.WinFrom` | complete_game_server.c:544-556 | The scan from loop index i succeeds exactly when some row or column with index at least i, or one of the two diagonals, holds the mark. |
| `TicTacToe.CheckWinner` | complete_game_server.c:544-556 | The winner check returns true exactly when the mark holds one of the eight lines (three rows, three columns, two diagonals). |
| `TicTacToe.WinnerIffLine` | complete_game_server.c:544-556 | The full scan succeeds exactly when the mark holds one of the eight lines. |
| `TicTacToe.WinningLine` | complete_game_server.c:545-555 | When the scan succeeds, it names a line the mark holds. |
| `TicTacToe.NoLineMissed` | complete_game_server.c:544-556 | When the scan fails, the mark holds none of the eight lines. |
| `TicTacToe.IsFull` | complete_game_server.c:558-563 | The draw check returns true exactly when no cell is blank. |
| `TicTacToe.CountIsMultiplicity` | complete_game_server.c:558-563 | The count of a character is its multiplicity among the cells. |
| `TicTacToe.Cells` | complete_game_server.c:558-563 | The nine cells in row-major order, with cell (i, j) at index 3i+j. |
| `TicTacToe.CountUpdate` | complete_game_server.c:603 | Overwriting one cell changes a count by what left and what came. |
| `TicTacToe.CountsAddUp` | complete_game_server.c:530-603 | Over blank, `X` and `O` cells the three counts add up to the number of cells. |
| `TicTacToe.NoneCounted` | complete_game_server.c:558-563 | A count of zero means the character does not occur. |
| `TicTacToe.CellsAfterPlace` | complete_game_server.c:603 | Placing a mark in cell (i, j) places it at index 3i+j of the cells. |
| `TicTacToe.Place` | complete_game_server.c:603 | Placing writes exactly one cell. |
| `TicTacToe.Start` | complete_game_server.c:572-574 | A game starts on the empty grid at turn 0 with `X` to move, and satisfies the invariant. |
| `TicTacToe.Step` | complete_game_server.c:578-621 | A hangup is a disconnect, exactly. A hangup, unreadable text, an out-of-range coordinate or an occupied cell leaves grid and turn unchanged, and nothing else does. A valid move writes the mover's mark into exactly the chosen cell. A line of that mark is a win, checked before the draw. A full grid without a line is a draw. Only then does the turn advance. |
| `TicTacToe.BlankCount` | complete_game_server.c:578-620 | Between moves, the blanks number 9 minus the turn. |
| `TicTacToe.StepKeepsInv` | complete_game_server.c:578-621 | Refusals and placements that let the game go on keep the invariant. The invariant: only blanks and marks on the grid, `X` placed (turn+1)/2 times and `O` turn/2 times, and at most eight turns. So the session asks for at most nine moves. |
| `TicTacToe.PlacedCounts` | complete_game_server.c:601-603 | A valid placement adds one mark of the mover and removes one blank. |
| `TicTacToe.LastMoveLineWins` | complete_game_server.c:607-619 | Example: in one fixed position, X's move into the last blank cell completes a line and is reported as X's win, not a draw (the general win-before-draw order is in `TicTacToe.Step`). |
| `TicTacToe.RefusedMoves` | complete_game_server.c:596-600 | Examples: row 3 on the empty grid, and the occupied centre after X's first move, are refused and change nothing (the general refusal rule is in `TicTacToe.Step`). |
| `RockPaperScissors.ReadMove` | complete_game_server.c:625-636 | A read quits exactly when it starts with `exit`; otherwise the kept move is the first 15 characters of the C string read, or all of it when shorter. |
| `RockPaperScissors.Move` | complete_game_server.c:632-633 | The move compared is the kept move upper-cased: the first 15 characters of the C string read, or all of a shorter one, each folded by `toupper`. |
| `RockPaperScissors.Index` | complete_game_server.c:638-647 | Each known move has a place 0..2 in the cycle stone, scissors, paper. |
| `RockPaperScissors.Winner` | complete_game_server.c:638-647 | Equal moves tie; player 1 wins exactly when that move beats the other under the stone-scissors-paper cycle; every other pair, unknown words included, goes to player 2. |
| `RockPaperScissors.WinnerFollowsRule` | complete_game_server.c:638-647 | Between two known moves the verdict is a tie exactly when they are equal, and player 1 (or 2) wins exactly when that player's move beats the other's under the rule. |
| `RockPaperScissors.UnknownMoveFavoursSecond` | complete_game_server.c:638-647 | Any unequal pair involving an unknown word goes to player 2, whichever seat the unknown word is in. |
| `RockPaperScissors.RockBeatsStoneForPlayerTwo` | complete_game_server.c:638-647 | `ROCK` against `STONE` is won by player 2 in either seat. |
| `RockPaperScissors.Round` | complete_game_server.c:660-688 | Every round counts. `exit` from either player quits, and player 2 is not read after player 1 quits. A played round compares the upper-cased kept moves and adds one to the winner's score only. |
| `RockPaperScissors.Play` | complete_game_server.c:660-698 | Each final score is the starting score plus the number of rounds that player won. The match has a champion exactly when a score reached two, and the champion is the player with two wins while the other has fewer. A quit or running out of reads leaves no one at two. |
| `RockPaperScissors.PlayRounds` | complete_game_server.c:660-685 | Round k of the loop is played on the k-th pair of reads, which hold no `exit`, with the result `get_rps_winner` gives on the upper-cased moves; and no round is played once a score has reached two. |
| `RockPaperScissors.PlayAbandons` | complete_game_server.c:660-670 | The match is abandoned exactly when, still undecided, the next pair of reads holds `exit`; every round started counts, the abandoned one included. |
| `RockPaperScissors.TallyCons` | complete_game_server.c:684-685 | Counting results with one more in front adds that result's contribution. |
| `RockPaperScissors.ConsNotOver` | complete_game_server.c:660-689 | A round played from an undecided score, followed by rounds none of which started after a decision, again has no round after a decision. |
| `RockPaperScissors.ConsPlayed` | complete_game_server.c:660-685 | A round played on the first reads, followed by rounds played on the later reads, are rounds played on all the reads. |
| `RockPaperScissors.EmptyReadsTie` | complete_game_server.c:625-636 | Two empty reads are equal moves: a tie that leaves the scores as they were. |
| `RockPaperScissors.EmptyReadsNeverFinish` | complete_game_server.c:660-689 | Any number of empty reads from both players never produces a champion and never changes the score. |
| `RockPaperScissors.ShortReadKept` | complete_game_server.c:625-636 | A short read without NUL or `exit` is kept whole. |
| `RockPaperScissors.UpperExamples` | complete_game_server.c:672-673 | `stone` becomes `STONE` and `Paper` becomes `PAPER`; a newline stays. |
| `RockPaperScissors.PlainRound` | complete_game_server.c:665-685 | A round between two short plain reads plays their upper-cased words. |
| `RockPaperScissors.StoneBluntsScissors` | complete_game_server.c:638-647 | `stone` against `SCISSORS` gives player 1 the round. |
| `RockPaperScissors.PaperWrapsStone` | complete_game_server.c:638-647 | `Paper` against `stone` gives player 1 the round. |
| `RockPaperScissors.TwoWinsEndMatch` | complete_game_server.c:660-697 | Two round wins in a row for player 1 from a fresh match end it in player 1's favour, whatever reads would follow. |
| `RockPaperScissors.TwoStraightWins` | complete_game_server.c:660-697 | `stone`/`SCISSORS` then `Paper`/`stone` ends the match 2-0 for player 1. |
| `RockPaperScissors.LineEndingMoveLoses` | complete_game_server.c:630-647 | The newline is kept, so `STONE` sent as a whole line is no known move and loses in player 1's seat. |
| `Matchmaker.GameNamed` | complete_game_server.c:801-822 | The `if` chain picks the game whose name equals the choice, or none exactly when no game has that name. |
| `Matchmaker.GameNamedName` | complete_game_server.c:801-822 | Each game's own name selects that game. |
| `Matchmaker.Connect` | complete_game_server.c:765-767 | A new connection joins the end of the queue with an empty choice. |
| `Matchmaker.ConnectKeepsUnique` | complete_game_server.c:765-767 | Joining with a fresh connection keeps connections unique in the queue. |
| `Matchmaker.RemoveAt` | complete_game_server.c:774-778 | A disconnect removes exactly one entry, keeps the others in order, and leaves the same multiset minus that entry. |
| `Matchmaker.ShiftedOut` | complete_game_server.c:829-832 | The shifting loop from slot k removes entry k. From slot −1 it removes entry 0 and writes entry 0 outside the array. |
| `Matchmaker.ShiftOut` | complete_game_server.c:829-832 | The loop itself, step by step, leaves the queue and the stray write `ShiftedOut` describes. |
| `Matchmaker.FindPartner` | complete_game_server.c:787-793 | The partner is the first index other than the reader, in queue order, with the same choice. There is none exactly when no other entry has that choice. |
| `Matchmaker.PartnerFrom` | complete_game_server.c:788-793 | The scan from index j finds the first later index other than the reader with the same choice, or none exactly when there is none. |
| `Matchmaker.RemovePairAsWritten` | complete_game_server.c:829-832 | The two shifts as written shorten the queue by two, and write out of bounds exactly when the reader was at the front. |
| `Matchmaker.RemovePair` | complete_game_server.c:829-832 | Removing both paired entries keeps every other entry in order and leaves the multiset minus the two. |
| `Matchmaker.AsWrittenRemovesPairIff` | complete_game_server.c:829-832 | With unique connections, the shifts as written remove exactly the pair if and only if the partner is ahead of the reader, or the reader is at the front. |
| `Matchmaker.PartnerAheadRemovesPair` | complete_game_server.c:829-832 | With the partner ahead of the reader, the shifts as written remove exactly the pair. |
| `Matchmaker.PartnerBehindKeepsPlayer` | complete_game_server.c:829-832 | With the partner behind a reader that is not at the front, the shifts as written leave the reader queued, at index i−1, while the corrected removal drops it; so the two disagree. |
| `Matchmaker.ChoiceOf` | complete_game_server.c:782-783 | The recorded choice is a prefix of the C string after `GAME:`, at most 20 characters, with no newline or NUL. A choice shorter than 20 stops exactly at the first newline or at the end of the string. |
| `Matchmaker.OnRead` | complete_game_server.c:770-830 | A closed connection removes exactly its entry. A message not starting with `GAME:` changes nothing. A `GAME:` message records the choice and either waits with only that entry changed, or pairs the reader. Pairing takes both entries out of the queue with the corrected removal (see Findings), shortening it by two, and makes the reader player 2, in a session whose game is the one the choice names, if any. |
| `Matchmaker.ChoiceOfLine` | complete_game_server.c:782-783 | `GAME:<name>` with a newline records exactly the name when it fits the field. |
| `Matchmaker.ClientChoosesGame` | complete_game_server.c:782-822 | Sending a game's own name records it and selects that game. |
| `Matchmaker.NameWaits` | complete_game_server.c:782-795 | A name no other entry has chosen is recorded and waits. |
| `Matchmaker.NamePairs` | complete_game_server.c:782-830 | A name first chosen, among the others, by entry m pairs the reader with m: m is player 1 and, with the corrected removal, both leave the queue. |
| `Matchmaker.PairedIffPartnerExists` | complete_game_server.c:787-795 | A `GAME:` message pairs exactly when another entry has chosen the same name; otherwise the reader waits. |
| `Matchmaker.PairedWithFirstMatch` | complete_game_server.c:787-830 | A paired reader leaves, with the corrected removal, together with the first other entry, in queue order, whose choice equals the name read, and that entry is player 1. |
| `Matchmaker.OnReadKeepsUnique` | complete_game_server.c:770-833 | No read makes two queue entries share a connection. |
| `Matchmaker.RemoveAtKeepsUnique` | complete_game_server.c:774-778 | Removing an entry keeps connections unique. |
| `Matchmaker.RemovePairKeepsUnique` | complete_game_server.c:829-832 | Removing a pair keeps connections unique. |
| `Matchmaker.Slot` | complete_game_server.c:829-832 | Entry j of the shortened queue comes from at most two places further on, and never from either removed index. |
| `Matchmaker.RemovePairSlots` | complete_game_server.c:829-832 | Each entry of the corrected removal is the original entry at its slot, and the slots strictly increase, so the survivors keep their order. |
| `Matchmaker.SecondShiftDropsBystander` | complete_game_server.c:829-832 | Take `a` (unchosen), then `b` and `c` (both chose `name`), with `b` reading. The shifts as written leave `b` queued and drop `a`; removing the pair leaves only `a`. |
| `Matchmaker.BystanderQueueIsReachable` | complete_game_server.c:765-795 | Three connections and `c` choosing a name reach the queue of that example. |
| `Matchmaker.BystanderQueuePairs` | complete_game_server.c:782-830 | On that queue, `b` choosing the same name pairs `c` (player 1) with `b`; with the corrected removal only `a` remains. |
| `Matchmaker.EmptyNamePairsUnassigned` | complete_game_server.c:766-835 | `GAME:` with an empty name matches a player who has not chosen yet and pairs the two in a session the chain sets no type for, which the dispatch runs as Wordle. |
| `Matchmaker.UnknownNameIsAccepted` | complete_game_server.c:782-835 | An unknown name waits. A second player choosing it is paired with the first in a session the chain sets no type for, which the dispatch runs as Wordle. |
| `Matchmaker.CheckersIsNoGame` | complete_game_server.c:801-822 | `CHECKERS` fits the field and names no game. |
| `Matchmaker.Dispatch` | complete_game_server.c:835-839 | The dispatch runs Wordle exactly when the chain set Wordle or set nothing: a session slot is zero-filled and `WORDLE` is game type 0. Any other type set runs that game. |
| `Matchmaker.WordleOpening` | complete_game_server.c:801-808 | A session the chain set up as Wordle starts in the turn invariant on the drawn secret with player 1 to move; one it set nothing up for starts with an empty secret, turn 0 and no attempts allowed. Both attempt counts start at 0 either way. |
| `Matchmaker.UnknownNamePlaysEmptyWordle` | complete_game_server.c:782-839 | Two players choosing a name that is no game are paired into a Wordle session from the zero-filled state. The reader, player 2, guesses first; the first five-letter guess is answered `*****` and ends the session with "no one guessed". |

## Left out

- **Sockets, `select`, `accept` and `close`:** I/O plumbing (`main` up to the scan of waiting players). A read is an abstract string, or `Closed` for a closed connection.
- **`send_full`, `send_to_player` and `broadcast`, and every message they carry:** the texts are not modelled, apart from the `BOARD:` and `POSITIONS:` lines. The ANSI board renderers `get_chess_board_string` and `get_ttt_board_display` are presentation only.
- **`rand()`:** the dice roll is a parameter in 1..6 and the Wordle secret a parameter drawn from the word list.
- **`malloc`/`free` of chess pieces:** a square holds an optional piece value.
- **`MAX_CLIENTS` arrays:** `waitingPlayers` and `sessions` have ten slots and no bounds check. The queue is an unbounded sequence, so an eleventh waiting client, which overflows the array, is not modelled.
- **Blocking sessions:** a session runs to completion inside the scan of waiting players (`:835-839`), which is scheduling rather than rules.
- **Scan bookkeeping:** `continue` after a disconnect and `i--` after a pairing decide which entry the same pass reads next. `Matchmaker.OnRead` handles one readable connection at a time.
- **`start_msg`:** it is left uninitialised when the game name is unknown, so the start messages sent to both players are whatever the stack held. Messages are not modelled.
- **Buffer terminator off-by-one:** a read that fills the whole buffer makes `buff[n] = '\0'` write one byte past the end (2048 in the main loop, chess and snake, 1024 in tic-tac-toe). Reads are modelled as strings of any length.
- Matchmaker.OnRead: takes a paired reader and its partner out of the queue with the corrected removal `Matchmaker.RemovePair`, not with the shifts written at `complete_game_server.c:829-832`; what those shifts do instead is stated separately (see Findings).
- Matchmaker.ChoiceOf: keeps at most 20 characters. With 20 or more characters before any newline, `strncpy` leaves `gameChoice` unterminated, and the later `strcspn`/`strcmp` read past the field; that overrun is not modelled.
- **Chess `sscanf("%s %s")` into `pieceId[4]` and `to[3]`:** it can overflow those arrays, and it leaves them unset when the message holds fewer words. `Chess.ChessTurn` takes the two words already split, and any other message as `Other`.
- **Chess and snake/ladder state fields:** `chessState` is always `PLAYING` and `slState` always `SL_PLAYING` while a session runs, so both tests are omitted.
- **Tic-tac-toe parsing:** `sscanf("%d %d")` is abstracted into the `Input` datatype (two integers read, or not).
- **`read` return values:** `receiveGuess` and `receive_rps_move` ignore them, so a closed connection reads as an empty string. `RockPaperScissors.EmptyReadsNeverFinish` states the consequence for rock-paper-scissors whose players have both left: the loop's condition never becomes false. The process may still be ended first by the unmodelled writes to the closed sockets, since the server neither ignores `SIGPIPE` nor passes `MSG_NOSIGNAL`.
- **The client program:** a terminal UI with no server-side rules.
- **Integer widths:** scores, attempts, turns and positions stay far below 2^31 in every reachable state, so they are unbounded integers. The exception is `rpsRounds` in a rock-paper-scissors loop that never ends (see the line above). It grows by one on every pass and would eventually overflow a signed `int`; `RockPaperScissors.Round` counts rounds without bound.
- **Wordle secret:** `Wordle.Start` takes the secret from the word list. A session the chain set nothing up for runs Wordle on its zero-filled `secretWord`, which `Wordle.Unconfigured` models as the empty secret.

## Findings

| source | as written | input that shows it | evidently intended | confidence | as-written member | corrected member |
|---|---|---|---|---|---|---|
| complete_game_server.c:831 | After removing the partner `matchIndex`, the second shift starts at `i - 1`. That is the reader's slot only when the partner was ahead of it. When the partner is behind (`matchIndex > i > 0`), the entry before the reader is removed and the reader, now playing, stays queued. When `i == 0` the loop writes `waitingPlayers[-1]`. | Connections `a`, `b`, `c` join, `c` sends `GAME:X`, then `b` sends `GAME:X`. The queue becomes `[b]` instead of `[a]`. | Both paired entries leave the queue and every other entry keeps its place and order. | not executed | `Matchmaker.RemovePairAsWritten` (`Matchmaker.AsWrittenRemovesPairIff`, `Matchmaker.SecondShiftDropsBystander`) | `Matchmaker.RemovePair`, used by `Matchmaker.OnRead` |
