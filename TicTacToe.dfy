/**
 * The game's decision and turn logic (`Game`): who moves when, how a key
 * press becomes a box, how the computer opponent picks its box, how the
 * outcome is recorded and how it is counted.
 */
module TicTacToe {
  import opened Optional
  import opened Players
  import opened Board
  import opened Grouping

  // ---------------------------------------------------------------------------
  // Outcome of a finished game
  // ---------------------------------------------------------------------------

  /** The switch of `SetGameOverType`: a winning X or O is recorded as such, no winner as a tie. */
  function GameOverTypeFor(winner: Option<Player>): (r: GameOverType)
    ensures r == GameOverType.X <==> winner == Some(Player.X)
    ensures r == GameOverType.O <==> winner == Some(Player.O)
    ensures r == GameOverType.Tie <==> winner == None
  {
    match winner
    case Some(p) => (match p case X => GameOverType.X case O => GameOverType.O)
    case None => GameOverType.Tie
  }

  // ---------------------------------------------------------------------------
  // Keys of the human player's turn
  // ---------------------------------------------------------------------------

  /** The keys the human's turn reacts to; every other key is `OtherKey`. */
  datatype ConsoleKey =
    | D0 | D1 | D2 | D3 | D4 | D5 | D6 | D7 | D8 | D9
    | NumPad0 | NumPad1 | NumPad2 | NumPad3 | NumPad4
    | NumPad5 | NumPad6 | NumPad7 | NumPad8 | NumPad9
    | OtherKey

  /**
   * The key switch of `PlayerTurn`: the box a key selects, if any. The digit
   * row counts the boxes row by row from the top left; the numeric keypad has
   * 7 8 9 on its top row, so it selects the box in the same place as the key:
   * its rows are flipped with respect to the digit row. Digit 0 and every
   * other key select nothing.
   */
  function BoxForKey(key: ConsoleKey): (r: Option<Box>)
    ensures r.Some? <==> 1 <= KeyDigit(key) <= 9
    ensures r.Some? && !IsNumPad(key) ==> r.value == KeyDigit(key) - 1
    ensures r.Some? && IsNumPad(key) ==> r.value == (2 - (KeyDigit(key) - 1) / 3) * 3 + (KeyDigit(key) - 1) % 3
  {
    match key
    case NumPad7 | D1 => Some(0)
    case NumPad8 | D2 => Some(1)
    case NumPad9 | D3 => Some(2)
    case NumPad4 | D4 => Some(3)
    case NumPad5 | D5 => Some(4)
    case NumPad6 | D6 => Some(5)
    case NumPad1 | D7 => Some(6)
    case NumPad2 | D8 => Some(7)
    case NumPad3 | D9 => Some(8)
    case _ => None
  }

  /** The digit printed on a key (0 for `OtherKey`). */
  function KeyDigit(key: ConsoleKey): nat {
    match key
    case D0 | NumPad0 | OtherKey => 0
    case D1 | NumPad1 => 1
    case D2 | NumPad2 => 2
    case D3 | NumPad3 => 3
    case D4 | NumPad4 => 4
    case D5 | NumPad5 => 5
    case D6 | NumPad6 => 6
    case D7 | NumPad7 => 7
    case D8 | NumPad8 => 8
    case D9 | NumPad9 => 9
  }

  predicate IsNumPad(key: ConsoleKey) {
    key.NumPad0? || key.NumPad1? || key.NumPad2? || key.NumPad3? || key.NumPad4? ||
    key.NumPad5? || key.NumPad6? || key.NumPad7? || key.NumPad8? || key.NumPad9?
  }

  /** Pressing `key` would place a mark: it selects a box and that box is empty. */
  predicate Playable(g: Grid, key: ConsoleKey) {
    match BoxForKey(key)
    case Some(b) => g[b] == Empty
    case None => false
  }

  /** The position of the first key in `keys` that places a mark, if any. */
  function FirstPlayable(g: Grid, keys: seq<ConsoleKey>): (r: Option<nat>)
    ensures r.Some? ==> r.value < |keys| && Playable(g, keys[r.value])
    ensures r.Some? ==> forall i :: 0 <= i < r.value ==> !Playable(g, keys[i])
    ensures r.None? ==> forall i :: 0 <= i < |keys| ==> !Playable(g, keys[i])
  {
    if keys == [] then None
    else if Playable(g, keys[0]) then Some(0)
    else match FirstPlayable(g, keys[1..])
      case Some(i) => Some(i + 1)
      case None => None
  }

  // ---------------------------------------------------------------------------
  // The opponent's choice
  // ---------------------------------------------------------------------------

  /**
   * `GetEmptyBoxes().FirstOrDefault()` of the winning line: an empty box of
   * the line the board reports as winning, if it has one.
   */
  function WinningBox(g: Grid, player: Player): (r: Option<Box>)
    ensures r.Some? ==>
      GetWinningLine(g, player).Some? && r.value in GetWinningLine(g, player).value.Boxes() && g[r.value] == Empty
    ensures r.None? ==>
      GetWinningLine(g, player).None? || CountIn(g, GetWinningLine(g, player).value, Empty) == 0
  {
    match GetWinningLine(g, player)
    case None => None
    case Some(line) =>
      EmptyAmongIsFilter(g, line.Boxes());
      EmptyBoxesOfLine(g, line);
      var empties := EmptyAmong(g, line.Boxes());
      if empties == [] then None
      else
        assert empties[0] in empties;
        Some(empties[0])
  }

  /** The empty boxes of all `lines`, line after line: the opponent's priority boxes. */
  function Pool(g: Grid, lines: seq<Line>): seq<Box> {
    if lines == [] then []
    else Pool(g, lines[..|lines| - 1]) + EmptyAmong(g, lines[|lines| - 1].Boxes())
  }

  /** Every pooled box is empty. */
  lemma {:induction false} PoolIsEmpty(g: Grid, lines: seq<Line>)
    ensures forall b :: b in Pool(g, lines) ==> g[b] == Empty
  {
    if lines != [] {
      PoolIsEmpty(g, lines[..|lines| - 1]);
      EmptyAmongIsFilter(g, lines[|lines| - 1].Boxes());
    }
  }

  /** The pool is empty exactly when no line of the list has an empty box. */
  lemma {:induction false} PoolEmptyExactly(g: Grid, lines: seq<Line>)
    ensures Pool(g, lines) == [] <==> forall l :: l in lines ==> CountIn(g, l, Empty) == 0
  {
    if lines != [] {
      var init, last := lines[..|lines| - 1], lines[|lines| - 1];
      PoolEmptyExactly(g, init);
      EmptyBoxesOfLine(g, last);
      assert lines == init + [last];
    }
  }

  /** The pool grows line by line, as the loop of `OpponentTurn` builds it. */
  lemma PoolAppend(g: Grid, lines: seq<Line>, line: Line)
    ensures Pool(g, lines + [line]) == Pool(g, lines) + EmptyAmong(g, line.Boxes())
  {
    assert (lines + [line])[..|lines|] == lines;
  }

  /** Each threat line offers exactly one empty box to the pool. */
  lemma {:induction false} PoolOfThreats(g: Grid, lines: seq<Line>, p: Player)
    requires forall l :: l in lines ==> IsThreat(g, l, p)
    ensures |Pool(g, lines)| == |lines|
  {
    if lines != [] {
      PoolOfThreats(g, lines[..|lines| - 1], p);
      assert lines[|lines| - 1] in lines;
      EmptyBoxesOfLine(g, lines[|lines| - 1]);
    }
  }

  /**
   * What the computer's turn does for `player` when the board reports
   * `dangerous` as the dangerous lines: `Some(box)` is the box it marks,
   * `None` that the turn throws. It takes the empty box of the winning line;
   * failing that, when there are dangerous lines, the box that occurs most
   * often among their empty boxes, ties going to the one met first (`MaxBy`
   * throws when they have no empty box at all); failing that, any empty box
   * (the random draw, which indexes past the end of an empty list).
   */
  ghost predicate OpponentChoice(g: Grid, player: Player, dangerous: seq<Line>, r: Option<Box>) {
    match WinningBox(g, player)
    case Some(b) => r == Some(b)
    case None =>
      if dangerous != [] then
        var pool := Pool(g, dangerous);
        if pool == [] then r == None else r.Some? && IsMostFrequent(pool, r.value)
      else if EmptyBoxes(g) == [] then r == None
      else r.Some? && g[r.value] == Empty
  }

  /** Every box the opponent may choose is empty, so its placement always succeeds. */
  lemma OpponentChoiceIsEmpty(g: Grid, player: Player, dangerous: seq<Line>, r: Option<Box>)
    requires OpponentChoice(g, player, dangerous, r) && r.Some?
    ensures g[r.value] == Empty
  {
    if WinningBox(g, player).None? {
      PoolIsEmpty(g, dangerous);
    }
  }

  /**
   * The turn throws exactly when there is no winning box and either every
   * dangerous line is full or, with no dangerous lines, the board is full.
   */
  lemma OpponentFailsExactly(g: Grid, player: Player, dangerous: seq<Line>, r: Option<Box>)
    requires OpponentChoice(g, player, dangerous, r)
    ensures r.None? <==>
      && WinningBox(g, player).None?
      && if dangerous != [] then forall l :: l in dangerous ==> CountIn(g, l, Empty) == 0
         else forall b: Box :: g[b] != Empty
  {
    PoolEmptyExactly(g, dangerous);
    if WinningBox(g, player).None? && dangerous == [] && EmptyBoxes(g) != [] {
      assert EmptyBoxes(g)[0] in EmptyBoxes(g);
    }
  }

  /**
   * With a winning line reported the opponent takes that line's empty box and
   * nothing else, whatever the dangerous lines and the random draw would give.
   */
  lemma WinTakesPriority(g: Grid, player: Player, dangerous: seq<Line>, line: Line, r: Option<Box>)
    requires GetWinningLine(g, player) == Some(line)
    ensures OpponentChoice(g, player, dangerous, r) <==> r.Some? && r.value in line.Boxes() && g[r.value] == Empty
  {
    var empties := EmptyAmong(g, line.Boxes());
    EmptyBoxesOfLine(g, line);
    EmptyAmongIsFilter(g, line.Boxes());
    assert |empties| == 1;
    if r.Some? {
      assert r.value in empties <==> r.value == empties[0];
    }
  }

  /** Outside the random fallback the opponent's choice is fully determined. */
  lemma OpponentChoiceIsDeterministic(g: Grid, player: Player, dangerous: seq<Line>, r1: Option<Box>, r2: Option<Box>)
    requires WinningBox(g, player).Some? || dangerous != []
    requires OpponentChoice(g, player, dangerous, r1) && OpponentChoice(g, player, dangerous, r2)
    ensures r1 == r2
  {
    if WinningBox(g, player).None? && Pool(g, dangerous) != [] {
      MostFrequentIsUnique(Pool(g, dangerous), r1.value, r2.value);
    }
  }

  /**
   * Without a winning box but with dangerous lines, the opponent takes the
   * most frequent box of the pool and no other.
   */
  lemma BlockTierChoice(g: Grid, player: Player, dangerous: seq<Line>, pool: seq<Box>, target: Box, r: Option<Box>)
    requires WinningBox(g, player) == None
    requires dangerous != [] && Pool(g, dangerous) == pool
    requires IsMostFrequent(pool, target)
    ensures OpponentChoice(g, player, dangerous, r) <==> r == Some(target)
  {
    if r.Some? && IsMostFrequent(pool, r.value) {
      MostFrequentIsUnique(pool, r.value, target);
    }
  }

  /**
   * Without a winning box or dangerous lines, the opponent takes any empty box,
   * and the turn throws only on a full board.
   */
  lemma RandomTierChoice(g: Grid, player: Player, r: Option<Box>)
    requires WinningBox(g, player) == None
    ensures OpponentChoice(g, player, [], r) <==>
      if forall b: Box :: g[b] != Empty then r == None else r.Some? && g[r.value] == Empty
  {
    if EmptyBoxes(g) != [] {
      assert EmptyBoxes(g)[0] in EmptyBoxes(g);
    }
  }

  /**
   * With this model's board, whose dangerous lines are the lines the other
   * player can complete with one more mark, each dangerous line adds one box
   * to the pool, so `MaxBy` always has a box to rank.
   */
  lemma DangerousPoolSize(g: Grid, player: Player)
    ensures |Pool(g, GetDangerousLines(g, player))| == |GetDangerousLines(g, player)|
  {
    PoolOfThreats(g, GetDangerousLines(g, player), GetOpposingPlayer(player));
  }

  /** On a game that is not over, the computer's turn on this model's board always marks a box. */
  lemma OngoingOpponentMoves(g: Grid, player: Player, r: Option<Box>)
    requires !CheckForWinner(g).gameOver
    requires OpponentChoice(g, player, GetDangerousLines(g, player), r)
    ensures r.Some?
  {
    DangerousPoolSize(g, player);
    OngoingHasEmptyBox(g);
  }

  /** A pool holding a single box: that box is the most frequent. */
  lemma SingleBoxIsMostFrequent(b: Box)
    ensures IsMostFrequent<Box>([b], b)
  {
    assert Count([b], b) == 1;
  }

  // Board 1: X holds B1 and B2, O holds B5.

  lemma OnlyThreatLines(g: Grid)
    requires g == [Taken(Player.X), Taken(Player.X), Empty,
                   Empty, Taken(Player.O), Empty,
                   Empty, Empty, Empty]
    ensures WinningBox(g, Player.O) == None
    ensures GetDangerousLines(g, Player.O) == [Line(0, 1, 2)]
  {
    ThreatsOfCatalogue(g, Player.O);
    ThreatsOfCatalogue(g, Player.X);
  }

  lemma OnlyThreatPool(g: Grid)
    requires g == [Taken(Player.X), Taken(Player.X), Empty,
                   Empty, Taken(Player.O), Empty,
                   Empty, Empty, Empty]
    ensures Pool(g, [Line(0, 1, 2)]) == [2]
  {
    EmptyBoxesOfLine(g, Line(0, 1, 2));
    PoolAppend(g, [], Line(0, 1, 2));
    assert [] + [Line(0, 1, 2)] == [Line(0, 1, 2)];
  }

  /** On board 1 the opponent playing O must take B3 to block X's top row. */
  lemma BlocksTheOnlyThreat(g: Grid, r: Option<Box>)
    requires g == [Taken(Player.X), Taken(Player.X), Empty,
                   Empty, Taken(Player.O), Empty,
                   Empty, Empty, Empty]
    ensures OpponentChoice(g, Player.O, GetDangerousLines(g, Player.O), r) <==> r == Some(2)
  {
    OnlyThreatLines(g);
    OnlyThreatPool(g);
    SingleBoxIsMostFrequent(2);
    BlockTierChoice(g, Player.O, GetDangerousLines(g, Player.O), [2], 2, r);
  }

  // Board 2: X holds B1, B2 and B9, O holds B4 and B5.

  lemma OwnWinningLine(g: Grid)
    requires g == [Taken(Player.X), Taken(Player.X), Empty,
                   Taken(Player.O), Taken(Player.O), Empty,
                   Empty, Empty, Taken(Player.X)]
    ensures GetWinningLine(g, Player.O) == Some(Line(3, 4, 5))
  {
    ThreatsOfCatalogue(g, Player.O);
  }

  /**
   * On board 2 X threatens B3 and O threatens B6: the opponent playing O
   * completes its own middle row at B6 rather than blocking at B3.
   */
  lemma WinsRatherThanBlocks(g: Grid, r: Option<Box>)
    requires g == [Taken(Player.X), Taken(Player.X), Empty,
                   Taken(Player.O), Taken(Player.O), Empty,
                   Empty, Empty, Taken(Player.X)]
    ensures OpponentChoice(g, Player.O, GetDangerousLines(g, Player.O), r) <==> r == Some(5)
  {
    OwnWinningLine(g);
    WinTakesPriority(g, Player.O, GetDangerousLines(g, Player.O), Line(3, 4, 5), r);
  }

  // Board 3: X holds B1, B2, B6 and B9, O holds B4, B7 and B8; O is to move.

  lemma ThreeThreatLines(g: Grid)
    requires g == [Taken(Player.X), Taken(Player.X), Empty,
                   Taken(Player.O), Empty, Taken(Player.X),
                   Taken(Player.O), Taken(Player.O), Taken(Player.X)]
    ensures WinningBox(g, Player.O) == None
    ensures GetDangerousLines(g, Player.O) == [Line(0, 1, 2), Line(2, 5, 8), Line(0, 4, 8)]
  {
    ThreatsOfCatalogue(g, Player.O);
    ThreatsOfCatalogue(g, Player.X);
  }

  lemma ThreeThreatPool(g: Grid)
    requires g == [Taken(Player.X), Taken(Player.X), Empty,
                   Taken(Player.O), Empty, Taken(Player.X),
                   Taken(Player.O), Taken(Player.O), Taken(Player.X)]
    ensures Pool(g, [Line(0, 1, 2), Line(2, 5, 8), Line(0, 4, 8)]) == [2, 2, 4]
  {
    EmptyBoxesOfLine(g, Line(0, 1, 2));
    EmptyBoxesOfLine(g, Line(2, 5, 8));
    EmptyBoxesOfLine(g, Line(0, 4, 8));
    PoolAppend(g, [], Line(0, 1, 2));
    assert [] + [Line(0, 1, 2)] == [Line(0, 1, 2)];
    PoolAppend(g, [Line(0, 1, 2)], Line(2, 5, 8));
    assert [Line(0, 1, 2)] + [Line(2, 5, 8)] == [Line(0, 1, 2), Line(2, 5, 8)];
    assert Pool(g, [Line(0, 1, 2), Line(2, 5, 8)]) == [2, 2];
    PoolAppend(g, [Line(0, 1, 2), Line(2, 5, 8)], Line(0, 4, 8));
    assert [Line(0, 1, 2), Line(2, 5, 8)] + [Line(0, 4, 8)] == [Line(0, 1, 2), Line(2, 5, 8), Line(0, 4, 8)];
  }

  lemma TwiceBeatsOnce()
    ensures IsMostFrequent<Box>([2, 2, 4], 2)
  {
    var pool: seq<Box> := [2, 2, 4];
    assert Count(pool, 2) == 2;
    assert Count(pool, 4) == 1;
  }

  /**
   * On board 3 X threatens B3 along the top row and the right column, and B5
   * along the diagonal: the opponent playing O blocks B3, the box that occurs
   * twice in the pool [B3, B3, B5].
   */
  lemma BlocksTheMostThreatenedBox(g: Grid, r: Option<Box>)
    requires g == [Taken(Player.X), Taken(Player.X), Empty,
                   Taken(Player.O), Empty, Taken(Player.X),
                   Taken(Player.O), Taken(Player.O), Taken(Player.X)]
    ensures OpponentChoice(g, Player.O, GetDangerousLines(g, Player.O), r) <==> r == Some(2)
  {
    ThreeThreatLines(g);
    ThreeThreatPool(g);
    TwiceBeatsOnce();
    BlockTierChoice(g, Player.O, GetDangerousLines(g, Player.O), [2, 2, 4], 2, r);
  }

  // Board 4: X holds B1, B2 and B7, O holds B5 and B9; O is to move.

  lemma TwoThreatLines(g: Grid)
    requires g == [Taken(Player.X), Taken(Player.X), Empty,
                   Empty, Taken(Player.O), Empty,
                   Taken(Player.X), Empty, Taken(Player.O)]
    ensures WinningBox(g, Player.O) == None
    ensures GetDangerousLines(g, Player.O) == [Line(0, 1, 2), Line(0, 3, 6)]
  {
    ThreatsOfCatalogue(g, Player.O);
    ThreatsOfCatalogue(g, Player.X);
  }

  lemma TwoThreatPool(g: Grid)
    requires g == [Taken(Player.X), Taken(Player.X), Empty,
                   Empty, Taken(Player.O), Empty,
                   Taken(Player.X), Empty, Taken(Player.O)]
    ensures Pool(g, [Line(0, 1, 2), Line(0, 3, 6)]) == [2, 3]
  {
    EmptyBoxesOfLine(g, Line(0, 1, 2));
    EmptyBoxesOfLine(g, Line(0, 3, 6));
    PoolAppend(g, [], Line(0, 1, 2));
    assert [] + [Line(0, 1, 2)] == [Line(0, 1, 2)];
    PoolAppend(g, [Line(0, 1, 2)], Line(0, 3, 6));
  }

  lemma TieGoesToFirst()
    ensures IsMostFrequent<Box>([2, 3], 2)
  {
    var pool: seq<Box> := [2, 3];
    assert Count(pool, 2) == 1 && Count(pool, 3) == 1;
    assert FirstIndex(pool, 2) == 0;
  }

  /**
   * On board 4 X threatens B3 along the top row and B4 along the left column,
   * each once: the tie goes to B3, the box met first in the pool [B3, B4].
   */
  lemma TieGoesToFirstDiscovered(g: Grid, r: Option<Box>)
    requires g == [Taken(Player.X), Taken(Player.X), Empty,
                   Empty, Taken(Player.O), Empty,
                   Taken(Player.X), Empty, Taken(Player.O)]
    ensures OpponentChoice(g, Player.O, GetDangerousLines(g, Player.O), r) <==> r == Some(2)
  {
    TwoThreatLines(g);
    TwoThreatPool(g);
    TieGoesToFirst();
    BlockTierChoice(g, Player.O, GetDangerousLines(g, Player.O), [2, 3], 2, r);
  }

  /**
   * The computer's turn for `player`: complete a winning line, else block the
   * box shared by most `dangerous` lines, else take a random empty box.
   * `None` is the turn throwing: `MaxBy` on an empty table, or the random
   * index into an empty list of boxes.
   */
  method ChooseBox(g: Grid, player: Player, dangerous: seq<Line>) returns (r: Option<Box>)
    ensures OpponentChoice(g, player, dangerous, r)
  {
    var idealBox: Option<Box> := None;
    var winningLine := GetWinningLine(g, player);
    if winningLine.Some? {
      var empties := EmptyAmong(g, winningLine.value.Boxes());
      idealBox := if empties == [] then None else Some(empties[0]);
    }

    if idealBox.None? {
      if |dangerous| != 0 {
        var priorityBoxes := PriorityBoxes(g, dangerous);
        if priorityBoxes == [] {
          return None;
        }
        var best := MostFrequent(priorityBoxes);
        idealBox := Some(best);
      }
    }

    if idealBox.None? {
      var boxes := EmptyBoxes(g);
      if boxes == [] {
        return None;
      }
      var i :| 0 <= i < |boxes|;
      idealBox := Some(boxes[i]);
    }

    r := idealBox;
  }

  /** Collects the empty boxes of every dangerous line, line after line. */
  method PriorityBoxes(g: Grid, lines: seq<Line>) returns (pool: seq<Box>)
    ensures pool == Pool(g, lines)
  {
    pool := [];
    for i := 0 to |lines|
      invariant pool == Pool(g, lines[..i])
    {
      assert lines[..i + 1][..i] == lines[..i];
      pool := pool + EmptyAmong(g, lines[i].Boxes());
    }
    assert lines[..|lines|] == lines;
  }

  // ---------------------------------------------------------------------------
  // Turn order
  // ---------------------------------------------------------------------------

  /** Where `Play` starts its turn counter: 0, or 1 when the human holds O. */
  function FirstTurnCount(human: Player): nat {
    if human == Player.O then 1 else 0
  }

  /** The player making move `k` (0-based): the human on even counter values. */
  function Mover(human: Player, k: nat): Player {
    if (FirstTurnCount(human) + k) % 2 == 0 then human else GetOpposingPlayer(human)
  }

  /** X makes every even-numbered move, so X moves first, and the players alternate. */
  lemma XMovesFirst(human: Player, k: nat)
    ensures Mover(human, k) == (if k % 2 == 0 then Player.X else Player.O)
    ensures Mover(human, k + 1) == GetOpposingPlayer(Mover(human, k))
  {
  }

  /** The counter of `Play` tells who makes move `k`. */
  lemma MoverOnCounter(human: Player, k: nat, counter: nat)
    requires counter == FirstTurnCount(human) + k
    ensures Mover(human, k) == if counter % 2 == 0 then human else GetOpposingPlayer(human)
  {
  }

  datatype Move = Move(player: Player, box: Box)

  /** The board after the moves of `moves`, in order, starting from `start`. */
  function Replay(start: Grid, moves: seq<Move>): Grid {
    if moves == [] then start
    else
      var last := moves[|moves| - 1];
      Replay(start, moves[..|moves| - 1])[last.box := Taken(last.player)]
  }

  /**
   * A move made by `Play`: the game was not over before it, its box was empty,
   * and an opponent's move is one the opponent's rules allow.
   */
  ghost predicate LegalMove(g: Grid, m: Move, human: Player) {
    && !CheckForWinner(g).gameOver
    && g[m.box] == Empty
    && (m.player != human ==> OpponentChoice(g, m.player, GetDangerousLines(g, m.player), Some(m.box)))
  }

  /**
   * The keys behind a move: a human move used the keys up to and including
   * the first one in `keys` that places a mark, and that key selects the
   * move's box; an opponent move uses no key.
   */
  ghost predicate KeyedMove(g: Grid, keys: seq<ConsoleKey>, m: Move, human: Player, used: nat) {
    if m.player == human then
      1 <= used <= |keys| && FirstPlayable(g, keys) == Some(used - 1) && BoxForKey(keys[used - 1]) == Some(m.box)
    else
      used == 0
  }

  /** Move `k` read the keys from `marks[k]` up to `marks[k + 1]`, as `KeyedMove` says. */
  ghost predicate KeysOfMove(start: Grid, input: seq<ConsoleKey>, history: seq<Move>, marks: seq<nat>, human: Player, k: nat) {
    && k < |history| && |marks| == |history| + 1
    && marks[k] <= marks[k + 1] <= |input|
    && KeyedMove(Replay(start, history[..k]), input[marks[k]..], history[k], human, marks[k + 1] - marks[k])
  }

  /**
   * `marks[k]` is how many keys of `input` were read before move `k`, and
   * every move read its keys as `KeyedMove` says.
   */
  ghost predicate KeysRead(start: Grid, input: seq<ConsoleKey>, history: seq<Move>, marks: seq<nat>, human: Player) {
    && |marks| == |history| + 1
    && marks[0] == 0
    && marks[|history|] <= |input|
    && forall k: nat :: k < |history| ==> KeysOfMove(start, input, history, marks, human, k)
  }

  /** A legal move by the right player extends a game played by the rules. */
  lemma HistoryExtends(start: Grid, history: seq<Move>, move: Move, human: Player)
    requires forall k :: 0 <= k < |history| ==> history[k].player == Mover(human, k)
    requires forall k :: 0 <= k < |history| ==> LegalMove(Replay(start, history[..k]), history[k], human)
    requires move.player == Mover(human, |history|)
    requires LegalMove(Replay(start, history), move, human)
    ensures Replay(start, history + [move]) == Replay(start, history)[move.box := Taken(move.player)]
    ensures forall k :: 0 <= k < |history + [move]| ==> (history + [move])[k].player == Mover(human, k)
    ensures forall k :: 0 <= k < |history + [move]| ==>
      LegalMove(Replay(start, (history + [move])[..k]), (history + [move])[k], human)
  {
    var extended := history + [move];
    assert extended[..|history|] == history;
    forall k | 0 <= k < |extended|
      ensures LegalMove(Replay(start, extended[..k]), extended[k], human)
    {
      if k < |history| {
        assert extended[..k] == history[..k];
      }
    }
  }

  /** The record of move `k`'s keys depends only on the moves up to `k` and on marks `k` and `k + 1`. */
  lemma KeysOfMoveKept(start: Grid, input: seq<ConsoleKey>, history: seq<Move>, marks: seq<nat>,
                       history': seq<Move>, marks': seq<nat>, human: Player, k: nat)
    requires KeysOfMove(start, input, history, marks, human, k)
    requires k < |history'| && |marks'| == |history'| + 1
    requires history'[..k] == history[..k] && history'[k] == history[k]
    requires marks'[k] == marks[k] && marks'[k + 1] == marks[k + 1]
    ensures KeysOfMove(start, input, history', marks', human, k)
  {
  }

  /** A move that read its keys as `KeyedMove` says extends the record of keys read. */
  lemma KeysExtend(start: Grid, input: seq<ConsoleKey>, history: seq<Move>, marks: seq<nat>,
                   move: Move, read: nat, used: nat, human: Player)
    requires KeysRead(start, input, history, marks, human) && read == marks[|history|]
    requires read + used <= |input|
    requires KeyedMove(Replay(start, history), input[read..], move, human, used)
    ensures KeysRead(start, input, history + [move], marks + [read + used], human)
  {
    var extended, marks' := history + [move], marks + [read + used];
    assert extended[..|history|] == history;
    forall k: nat | k < |extended|
      ensures KeysOfMove(start, input, extended, marks', human, k)
    {
      if k < |history| {
        assert extended[..k] == history[..k];
        KeysOfMoveKept(start, input, history, marks, extended, marks', human, k);
      } else {
        assert extended[k] == move && marks'[k] == marks[|history|];
      }
    }
  }

  /** A game played by the rules so far: right movers, legal moves, keys read as recorded. */
  ghost predicate PlayedByRules(start: Grid, input: seq<ConsoleKey>, history: seq<Move>, marks: seq<nat>, human: Player) {
    && (forall k :: 0 <= k < |history| ==> history[k].player == Mover(human, k))
    && (forall k :: 0 <= k < |history| ==> LegalMove(Replay(start, history[..k]), history[k], human))
    && KeysRead(start, input, history, marks, human)
  }

  /** One more legal move by the right player, with its keys, keeps a game played by the rules. */
  lemma RulesExtend(start: Grid, input: seq<ConsoleKey>, history: seq<Move>, marks: seq<nat>,
                    move: Move, read: nat, used: nat, human: Player)
    requires PlayedByRules(start, input, history, marks, human) && read == marks[|history|]
    requires move.player == Mover(human, |history|)
    requires LegalMove(Replay(start, history), move, human)
    requires read + used <= |input|
    requires KeyedMove(Replay(start, history), input[read..], move, human, used)
    ensures Replay(start, history + [move]) == Replay(start, history)[move.box := Taken(move.player)]
    ensures PlayedByRules(start, input, history + [move], marks + [read + used], human)
  {
    HistoryExtends(start, history, move, human);
    KeysExtend(start, input, history, marks, move, read, used, human);
  }

  // ---------------------------------------------------------------------------
  // The game
  // ---------------------------------------------------------------------------

  /** The win, loss and tie counters the game reports to. */
  class Statistics {
    var Ties: nat
    var Wins: nat
    var Losses: nat

    constructor ()
      ensures Ties == 0 && Wins == 0 && Losses == 0
    {
      Ties, Wins, Losses := 0, 0, 0;
    }

    function Total(): nat
      reads this
    {
      Ties + Wins + Losses
    }
  }

  class Game {
    const statistics: Statistics
    const Board: GameBoard
    var HumanPlayer: Player
    var Winner: GameOverType

    ghost predicate Valid() {
      Board.Valid()
    }

    constructor (statistics: Statistics)
      ensures Valid() && fresh(Board) && fresh(Board.cells)
      ensures this.statistics == statistics && Board.Cells() == EmptyGrid
    {
      this.statistics := statistics;
      Board := new GameBoard();
    }

    /** Gives the human a mark; the draw is random, so either mark is possible. */
    method Setup()
      modifies this
      ensures Winner == old(Winner)
    {
      var human: Player :| true;
      HumanPlayer := human;
    }

    /** Records the outcome reported by the board. */
    method SetGameOverType(winner: Option<Player>)
      modifies this
      ensures Winner == GameOverTypeFor(winner)
      ensures HumanPlayer == old(HumanPlayer)
    {
      Winner := GameOverTypeFor(winner);
    }

    /**
     * Adds the recorded outcome to exactly one counter: a tie to `Ties`, X to
     * `Wins` and O to `Losses`, whichever mark the human holds.
     */
    method AnnounceWinner()
      modifies statistics
      ensures statistics.Ties == old(statistics.Ties) + (if Winner == GameOverType.Tie then 1 else 0)
      ensures statistics.Wins == old(statistics.Wins) + (if Winner == GameOverType.X then 1 else 0)
      ensures statistics.Losses == old(statistics.Losses) + (if Winner == GameOverType.O then 1 else 0)
      ensures statistics.Total() == old(statistics.Total()) + 1
    {
      match Winner
      case Tie => statistics.Ties := statistics.Ties + 1;
      case X => statistics.Wins := statistics.Wins + 1;
      case O => statistics.Losses := statistics.Losses + 1;
    }

    /**
     * Reads keys from `input` until one places `player`'s mark: keys that
     * select nothing or an occupied box are passed over. Running out of keys
     * leaves the board as it was (the human has not moved yet).
     */
    method PlayerTurn(player: Player, input: seq<ConsoleKey>) returns (used: nat, placed: bool, box: Box)
      requires Valid()
      modifies Board.cells
      ensures used <= |input|
      ensures placed <==> FirstPlayable(old(Board.Cells()), input).Some?
      ensures placed ==> used == FirstPlayable(old(Board.Cells()), input).value + 1
      ensures placed ==> BoxForKey(input[used - 1]) == Some(box) && old(Board.Cells())[box] == Empty
      ensures placed ==> Board.Cells() == old(Board.Cells())[box := Taken(player)]
      ensures !placed ==> used == |input| && Board.Cells() == old(Board.Cells())
    {
      ghost var g := Board.Cells();
      used, placed, box := 0, false, 0;
      while !placed && used < |input|
        invariant used <= |input|
        invariant forall i :: 0 <= i < used - 1 ==> !Playable(g, input[i])
        invariant !placed ==> Board.Cells() == g && (used > 0 ==> !Playable(g, input[used - 1]))
        invariant placed ==> 0 < used && Playable(g, input[used - 1]) && BoxForKey(input[used - 1]) == Some(box)
        invariant placed ==> Board.Cells() == g[box := Taken(player)]
      {
        var key := input[used];
        used := used + 1;
        match BoxForKey(key)
        case Some(b) =>
          box := b;
          placed := Board.DrawPlayer(b, player);
        case None =>
          placed := false;
      }
    }

    /**
     * The computer's move for `player`: the box `ChooseBox` picks for the
     * board's dangerous lines gets `player`'s mark. `None` is the turn
     * throwing, with the board unchanged.
     */
    method OpponentTurn(player: Player) returns (r: Option<Box>)
      requires Valid()
      modifies Board.cells
      ensures OpponentChoice(old(Board.Cells()), player, GetDangerousLines(old(Board.Cells()), player), r)
      ensures r.Some? ==> old(Board.Cells())[r.value] == Empty
      ensures r.Some? ==> Board.Cells() == old(Board.Cells())[r.value := Taken(player)]
      ensures r.None? ==> Board.Cells() == old(Board.Cells())
    {
      var dangerous := GetDangerousLines(Board.Cells(), player);
      r := ChooseBox(Board.Cells(), player, dangerous);
      if r.Some? {
        OpponentChoiceIsEmpty(Board.Cells(), player, dangerous, r);
        var placed := Board.DrawPlayer(r.value, player);
      }
    }

    /**
     * The turn loop. Before every move the board is asked whether the game is
     * over; if so the outcome is recorded and the loop ends. Otherwise the
     * human moves on even counter values and the opponent on odd ones. The
     * human's keys come from `input`; `consumed` of them were read by the
     * human's moves, `marks` records which keys each move read, and when the
     * remaining keys place no mark the game is left waiting for input, with
     * no outcome recorded.
     */
    method Play(input: seq<ConsoleKey>) returns (history: seq<Move>, consumed: nat, awaitingInput: bool, ghost marks: seq<nat>)
      requires Valid()
      modifies this, Board.cells
      ensures Valid() && HumanPlayer == old(HumanPlayer)
      ensures Board.Cells() == Replay(old(Board.Cells()), history)
      ensures forall k :: 0 <= k < |history| ==> history[k].player == Mover(HumanPlayer, k)
      ensures forall k :: 0 <= k < |history| ==> history[k].player == (if k % 2 == 0 then Player.X else Player.O)
      ensures forall k :: 0 <= k < |history| ==> LegalMove(Replay(old(Board.Cells()), history[..k]), history[k], HumanPlayer)
      ensures KeysRead(old(Board.Cells()), input, history, marks, HumanPlayer) && consumed == marks[|history|]
      ensures awaitingInput ==> !CheckForWinner(Board.Cells()).gameOver && Winner == old(Winner)
      ensures awaitingInput ==>
        Mover(HumanPlayer, |history|) == HumanPlayer && FirstPlayable(Board.Cells(), input[consumed..]).None?
      ensures !awaitingInput ==>
        CheckForWinner(Board.Cells()).gameOver && Winner == GameOverTypeFor(CheckForWinner(Board.Cells()).winner)
    {
      ghost var start := Board.Cells();
      var turnCounter := 0;
      if HumanPlayer == Player.O {
        turnCounter := turnCounter + 1;
      }
      history, consumed, awaitingInput, marks := [], 0, false, [0];

      while true
        invariant Valid() && HumanPlayer == old(HumanPlayer) && Winner == old(Winner)
        invariant turnCounter == FirstTurnCount(HumanPlayer) + |history|
        invariant Board.Cells() == Replay(start, history)
        invariant PlayedByRules(start, input, history, marks, HumanPlayer) && consumed == marks[|history|]
        decreases |EmptyBoxes(Board.Cells())|
      {
        var status := CheckForWinner(Board.Cells());
        if status.gameOver {
          SetGameOverType(status.winner);
          break;
        }
        OngoingHasEmptyBox(Board.Cells());

        ghost var g := Board.Cells();
        MoverOnCounter(HumanPlayer, |history|, turnCounter);
        var move: Move;
        var keysRead: nat := 0;
        if turnCounter % 2 == 0 {
          var used, placed, box := PlayerTurn(HumanPlayer, input[consumed..]);
          if !placed {
            awaitingInput := true;
            break;
          }
          keysRead := used;
          move := Move(HumanPlayer, box);
          assert KeyedMove(g, input[consumed..], move, HumanPlayer, keysRead);
          assert LegalMove(g, move, HumanPlayer);
        } else {
          var opponent := GetOpposingPlayer(HumanPlayer);
          var choice := OpponentTurn(opponent);
          OngoingOpponentMoves(g, opponent, choice);
          move := Move(opponent, choice.value);
          assert LegalMove(g, move, HumanPlayer);
        }
        TakeEmptyBox(g, move.box, move.player);
        RulesExtend(start, input, history, marks, move, consumed, keysRead, HumanPlayer);
        history, marks := history + [move], marks + [consumed + keysRead];
        consumed := consumed + keysRead;
        turnCounter := turnCounter + 1;
      }

      forall k | 0 <= k < |history|
        ensures history[k].player == (if k % 2 == 0 then Player.X else Player.O)
      {
        XMovesFirst(HumanPlayer, k);
      }
    }
  }
}
