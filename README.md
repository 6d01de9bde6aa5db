# Tic-tac-toe game logic

A Dafny model of `Game`, the class that runs one game of tic-tac-toe
between a human and a computer opponent. The human gets a random mark. X
always moves first, whoever holds it. Before every move the board is asked
whether the game is over. The human's keys are read until one places a mark.
The computer picks its box in three tiers:

1. complete its own winning line;
2. otherwise block the box shared by the most dangerous lines, ties going to
   the box met first;
3. otherwise take a random empty box.

The finished game's outcome is recorded and counted.

Files:

- `Optional.dfy` has the `Option` type.
- `Players.dfy` has the marks, the outcome enumeration and the player swap.
- `Board.dfy` is a stand-in for the board, whose own code is not part of this
  model. It has:
  - nine cells, updated in place through `GameBoard.DrawPlayer` on an
    `array`;
  - a fixed catalogue of eight lines: rows, then columns, then diagonals;
  - the board queries the game asks (winning line, dangerous lines, empty
    boxes, winner check).
- `Grouping.dfy` has the ranking step of the opponent's turn: `GroupBy`,
  `ToDictionary` and `MaxBy`, written as loops. The group keys come in
  first-occurrence order, and `MaxBy` keeps the first entry that reaches the
  maximum. Together these give an explicit rule: the most frequent box wins,
  and among equally frequent boxes the one met first wins.
- `TicTacToe.dfy` has the rest of `Game`:
  - the outcome mapping;
  - the key table;
  - `OpponentChoice`, the opponent's heuristic written as a predicate, with
    lemmas about it;
  - the turn order;
  - the `Statistics` and `Game` classes, whose methods update their fields
    in place.

`Play`'s contract describes the whole game:

- the final board is the replay of the returned move history;
- move `k` is made by X when `k` is even and by O when `k` is odd;
- every move was made on a game that was not over, into an empty box;
- every opponent move is one `OpponentChoice` allows for the board's
  dangerous lines;
- every human move read the keys up to the first one that places a mark, and
  its box is the box that key selects; `consumed` counts the keys read by
  completed moves;
- the loop ends exactly when the board reports a finished game, or when it is
  the human's turn and none of the remaining keys places a mark.

The human's turn reads console keys. `BoxForKey` is the key table: the digit
row counts the boxes from the top left, and the keypad mirrors the rows, so
7 8 9 is the top row.

`AnnounceWinner` counts `GameOverType.X` as a win and `GameOverType.O` as a
loss whichever mark the human holds. The model keeps that as written.

The computer's turn can throw: `MaxBy` on an empty table when every dangerous
line is full, and the random index into an empty list when the board is full.
`ChooseBox` and `OpponentTurn` return `None` for these. The heuristic's lemmas
take the dangerous lines as a parameter and hold for any list. Only the
members whose row says "with this model's board" rely on the stand-in board
described below, among what is left out.

## Model

| member | source | states |
|---|---|---|
| Players.GetOpposingPlayer | TicTacToe/Game.cs:146-152 | the opposing player is never the player itself |
| Players.OpposingIsInvolution | TicTacToe/Game.cs:146-152 | swapping twice gives the player back; X and O swap with each other |
| TicTacToe.GameOverTypeFor | TicTacToe/Game.cs:138-144 | the outcome is X exactly when X won, O exactly when O won, and Tie exactly when no one won |
| TicTacToe.Game.SetGameOverType | TicTacToe/Game.cs:138-144 | `Winner` becomes the outcome for the reported winner; the human's mark is untouched |
| TicTacToe.BoxForKey | TicTacToe/Game.cs:85-97 | a key selects a box exactly when its digit is 1 to 9; on the digit row digit d selects the d-th box counted row by row from the top left; the keypad selects the box in the same position as the key, so its rows are flipped; every other key selects nothing |
| TicTacToe.FirstPlayable | TicTacToe/Game.cs:81-98 | the key found is the first one that selects an empty box; none is found only when no key does |
| TicTacToe.Game.PlayerTurn | TicTacToe/Game.cs:78-99 | keys are consumed up to and including the first one that selects an empty box, and that box gets the player's mark; keys that select nothing or an occupied box change nothing; when the keys run out the board is unchanged |
| Board.GameBoard.DrawPlayer | TicTacToe/Game.cs:87-95 | placement succeeds exactly when the box is empty; only that box changes, and a failed placement changes nothing |
| Board.GameBoard.constructor | TicTacToe/Game.cs:16 | the board starts with nine empty boxes |
| Board.EmptyBoxes | TicTacToe/Game.cs:130 | a box is listed exactly when it is empty |
| Board.EmptyAmongIsFilter | TicTacToe/Game.cs:107 | the empty boxes of a line are exactly the line's boxes that are empty |
| Board.ThreatsAmongIsFilter | TicTacToe/Game.cs:104 | the threat lines found are exactly the lines of the list holding two of the player's marks and one empty box |
| Board.GetWinningLine | TicTacToe/Game.cs:104 | with this model's board: a reported winning line is a catalogue line where the player has two marks and one empty box; none is reported only when there is no such line |
| Board.GetDangerousLines | TicTacToe/Game.cs:112 | with this model's board: the dangerous lines are exactly the catalogue lines the other player can complete with one more mark |
| Board.CheckForWinner | TicTacToe/Game.cs:37 | with this model's board: a winner is reported only on a finished game and only with a line of its marks; a tie only on a full board with no completed line; a game not over has an empty box and no completed line |
| Board.FirstCompleted | TicTacToe/Game.cs:37 | a winner is reported only for a line filled with that winner's marks; no winner is reported only when no line is filled with one mark |
| Board.OngoingHasEmptyBox | TicTacToe/Game.cs:37-42 | a game that is not over has an empty box; only a finished game names a winner |
| Board.TakeEmptyBox | TicTacToe/Game.cs:35-55 | every placement leaves one empty box fewer, so the turn loop ends |
| TicTacToe.WinningBox | TicTacToe/Game.cs:103-108 | the box found is an empty box of the reported winning line; none is found only when no line is reported or the reported line has no empty box |
| TicTacToe.PoolIsEmpty | TicTacToe/Game.cs:116-120 | every box collected from the dangerous lines is empty |
| TicTacToe.PoolEmptyExactly | TicTacToe/Game.cs:116-124 | the collected boxes run out exactly when every dangerous line is full, the case in which `MaxBy` throws |
| TicTacToe.PoolOfThreats | TicTacToe/Game.cs:116-120 | each line with two marks and one empty box adds exactly one box to the collection |
| TicTacToe.PriorityBoxes | TicTacToe/Game.cs:116-120 | the loop collects the empty boxes of the dangerous lines, line after line |
| TicTacToe.ChooseBox | TicTacToe/Game.cs:101-133 | for any list of dangerous lines, the result is one the three-tier heuristic allows, `None` standing for the two throws |
| TicTacToe.Game.OpponentTurn | TicTacToe/Game.cs:101-136 | the result is one the heuristic allows for the board's dangerous lines; a chosen box was empty and now holds the opponent's mark, and nothing else changes; a throw leaves the board unchanged |
| TicTacToe.OpponentChoiceIsEmpty | TicTacToe/Game.cs:101-135 | every box the heuristic allows is empty, so the opponent's placement always succeeds |
| TicTacToe.OpponentFailsExactly | TicTacToe/Game.cs:101-133 | the turn throws exactly when there is no winning box and either every dangerous line is full or, with no dangerous lines, the board is full |
| TicTacToe.WinTakesPriority | TicTacToe/Game.cs:103-110 | with this model's board, whose winning line has one empty box: the opponent takes that box and no other, whatever the dangerous lines |
| TicTacToe.OpponentChoiceIsDeterministic | TicTacToe/Game.cs:101-126 | when the winning tier or the blocking tier applies, only one result is allowed |
| TicTacToe.BlockTierChoice | TicTacToe/Game.cs:110-125 | without a winning box but with dangerous lines, the opponent takes the most frequent collected box and no other |
| TicTacToe.RandomTierChoice | TicTacToe/Game.cs:128-132 | without a winning box or dangerous lines, the opponent may take any empty box, and the turn throws exactly on a full board |
| TicTacToe.DangerousPoolSize | TicTacToe/Game.cs:112-124 | with this model's board: there are as many collected boxes as dangerous lines, so `MaxBy` always has a box to rank |
| TicTacToe.OngoingOpponentMoves | TicTacToe/Game.cs:101-135 | with this model's board: on a game that is not over the computer's turn never throws |
| TicTacToe.BlocksTheOnlyThreat | TicTacToe/Game.cs:110-125 | with this model's board, X on B1 and B2 and O on B5: O must take B3 |
| TicTacToe.WinsRatherThanBlocks | TicTacToe/Game.cs:103-110 | with this model's board, X on B1, B2 and B9 and O on B4 and B5: X threatens B3 and O threatens B6, and O completes its own line at B6 rather than block |
| TicTacToe.BlocksTheMostThreatenedBox | TicTacToe/Game.cs:116-124 | with this model's board, X on B1, B2, B6 and B9 and O on B4, B7 and B8: B3 is threatened by two X lines and B5 by one, and O blocks B3 |
| TicTacToe.TieGoesToFirstDiscovered | TicTacToe/Game.cs:116-124 | with this model's board, X on B1, B2 and B7 and O on B5 and B9: B3 and B4 are each threatened once, and the tie goes to B3, whose line comes first in the catalogue |
| Grouping.CountTable | TicTacToe/Game.cs:122 | the keys are the collected boxes without repeats, in order of first occurrence; each key's count is its number of occurrences |
| Grouping.Distinct | TicTacToe/Game.cs:122 | the group keys are exactly the elements of the collection, without repeats |
| Grouping.DistinctFirstIndex | TicTacToe/Game.cs:122 | a key listed earlier was first met earlier in the collection |
| Grouping.FirstIndex | TicTacToe/Game.cs:122-124 | the position found holds the element, and no earlier position does |
| Grouping.MostFrequent | TicTacToe/Game.cs:122-124 | the box picked occurs in the collection; no box occurs more often; among boxes that occur as often it is the one met first |
| Grouping.MaxByIsMostFrequent | TicTacToe/Game.cs:124 | the key the first-maximum scan stops at is the most frequent box, with the tie rule above |
| Grouping.MostFrequentIsUnique | TicTacToe/Game.cs:122-124 | the ranking has a single answer |
| TicTacToe.XMovesFirst | TicTacToe/Game.cs:29-53 | whichever mark the human holds, X makes every even-numbered move and O every odd one, so the players alternate and X starts |
| TicTacToe.HistoryExtends | TicTacToe/Game.cs:35-55 | a legal move by the player whose turn it is extends a game played by the rules |
| TicTacToe.KeysExtend | TicTacToe/Game.cs:44-51 | a human move that read the keys up to the first one placing a mark, or an opponent move that read none, extends the record of keys read |
| TicTacToe.Game.Play | TicTacToe/Game.cs:27-56 | the board is the replay of the moves made; X makes the even-numbered moves; every move was made while the game was not over, into an empty box; every opponent move is one the heuristic allows; every human move's box is the one selected by the first key, after those already read, that places a mark; the loop ends only on a finished game, with `Winner` set to its outcome, or on the human's turn when no remaining key places a mark, with `Winner` unchanged |
| TicTacToe.Game.AnnounceWinner | TicTacToe/Game.cs:58-76 | exactly one counter goes up by one: ties for Tie, wins for X, losses for O |
| TicTacToe.Game.Setup | TicTacToe/Game.cs:20-25 | the human's mark is drawn without constraint, so either mark can come out; the recorded outcome is untouched |
| TicTacToe.Game.constructor | TicTacToe/Game.cs:11-16 | the game keeps the statistics it is given and starts on an empty board |

## Left out

- Console output (`Console.WriteLine`) is terminal I/O.
- The indicator calls (`LedManager.SetDark`, `LedManager.FlashEnter`) and `Board.DrawBoard` are hardware and rendering.
- `Console.ReadKey` is modelled as a finite sequence of keys. The source blocks until a key places a mark. When the sequence runs out, the model stops with `awaitingInput` set.
- `Random.Shared` is modelled as a nondeterministic choice within the source's bounds. In `Setup` the choice is any mark; in `OpponentTurn` it is any index of the empty-box list.
- TicTacToe.Game.Setup: the uniform distribution of the random draw is not modelled; the contract says only that either mark is possible.
- `GameBoard`, `Line` and `Boxes` are not part of this model. `Board.dfy` is a stand-in for them:
  - the line catalogue order (rows, columns, diagonals) is a choice of the model;
  - `GetWinningLine(player)` is taken to be the first line the player can complete now;
  - `GetDangerousLines(player)` is taken to be the lines the other player can complete now;
  - `CheckForWinner` reports the first completed line, then a full board as a tie.
  Rows that say "with this model's board" depend on these choices, and so does `Play`'s use of `OngoingOpponentMoves`.
- TicTacToe.Game.Play: an exception from the computer's turn would end the source's game; `Play` instead proves, with this model's board, that the turn never throws.
- The `throw` in `GetOpposingPlayer` and the `_` arm of `SetGameOverType` for out-of-range enumeration values are left out. A Dafny datatype has no such values. The `_` arm for a null winner is modelled as `None`.
- The initial value of `Winner` before any game is unconstrained, because the outcome enumeration's declaration is not part of this model.
- `Statistics` is a stand-in with three natural-number counters. Integer overflow of the counters is not modelled.
