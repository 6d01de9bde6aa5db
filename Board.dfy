/**
 * A stand-in for the board the game is played on (`GameBoard`, `Line`, `Box`),
 * whose own code is not part of this model. It is the contract the game logic
 * relies on: nine cells, a fixed ordered catalogue of eight lines, placement
 * that succeeds only on an empty cell, and the queries the game asks.
 */
module Board {
  import opened Optional
  import opened Players

  datatype Cell = Empty | Taken(owner: Player)

  /** Boxes B1 .. B9 are 0 .. 8, row by row from the top left. */
  type Box = b: int | 0 <= b < 9

  const EmptyGrid: seq<Cell> := [Empty, Empty, Empty, Empty, Empty, Empty, Empty, Empty, Empty]

  /** The contents of the nine boxes. */
  type Grid = s: seq<Cell> | |s| == 9 witness EmptyGrid

  datatype Line = Line(a: Box, b: Box, c: Box) {
    function Boxes(): seq<Box> { [a, b, c] }
  }

  /** The fixed catalogue of lines, in the order every scan visits them. */
  const Lines: seq<Line> := [
    Line(0, 1, 2), Line(3, 4, 5), Line(6, 7, 8),
    Line(0, 3, 6), Line(1, 4, 7), Line(2, 5, 8),
    Line(0, 4, 8), Line(2, 4, 6)]

  const AllBoxes: seq<Box> := [0, 1, 2, 3, 4, 5, 6, 7, 8]

  /** The empty boxes among `boxes`, in their order (`Line.GetEmptyBoxes`). */
  function EmptyAmong(g: Grid, boxes: seq<Box>): seq<Box> {
    if boxes == [] then []
    else (if g[boxes[0]] == Empty then [boxes[0]] else []) + EmptyAmong(g, boxes[1..])
  }

  /** The empty boxes among `boxes` are exactly the listed boxes that are empty. */
  lemma {:induction false} EmptyAmongIsFilter(g: Grid, boxes: seq<Box>)
    ensures forall b :: b in EmptyAmong(g, boxes) <==> b in boxes && g[b] == Empty
  {
    if boxes != [] {
      EmptyAmongIsFilter(g, boxes[1..]);
      assert boxes == [boxes[0]] + boxes[1..];
    }
  }

  /** `GameBoard.GetEmptyBoxes`: every empty box, in box order. */
  function EmptyBoxes(g: Grid): (r: seq<Box>)
    ensures forall b: Box :: b in r <==> g[b] == Empty
  {
    assert forall b: Box :: b in AllBoxes;
    EmptyAmongIsFilter(g, AllBoxes);
    EmptyAmong(g, AllBoxes)
  }

  /** How many boxes of `line` hold `c`. */
  function CountIn(g: Grid, line: Line, c: Cell): nat {
    (if g[line.a] == c then 1 else 0) +
    (if g[line.b] == c then 1 else 0) +
    (if g[line.c] == c then 1 else 0)
  }

  /** `p` holds two boxes of `line` and the third is empty: one move from winning. */
  predicate IsThreat(g: Grid, line: Line, p: Player) {
    CountIn(g, line, Taken(p)) == 2 && CountIn(g, line, Empty) == 1
  }

  /** `Line.GetEmptyBoxes` lists the line's empty boxes in the line's order. */
  lemma EmptyBoxesOfLine(g: Grid, line: Line)
    ensures EmptyAmong(g, line.Boxes()) ==
      (if g[line.a] == Empty then [line.a] else []) +
      (if g[line.b] == Empty then [line.b] else []) +
      (if g[line.c] == Empty then [line.c] else [])
    ensures |EmptyAmong(g, line.Boxes())| == CountIn(g, line, Empty)
  {
    assert line.Boxes()[1..] == [line.b, line.c];
    assert [line.b, line.c][1..] == [line.c];
    assert [line.c][1..] == [];
    assert EmptyAmong(g, [line.c]) == (if g[line.c] == Empty then [line.c] else []) + EmptyAmong(g, []);
    assert EmptyAmong(g, [line.b, line.c]) == (if g[line.b] == Empty then [line.b] else []) + EmptyAmong(g, [line.c]);
  }

  /** `[line]` when `line` is a threat line of `p`, otherwise nothing. */
  function AsThreat(g: Grid, line: Line, p: Player): seq<Line> {
    if IsThreat(g, line, p) then [line] else []
  }

  /** The threat lines of `p` among `lines`, keeping their order. */
  function ThreatsAmong(g: Grid, lines: seq<Line>, p: Player): seq<Line> {
    if lines == [] then [] else AsThreat(g, lines[0], p) + ThreatsAmong(g, lines[1..], p)
  }

  /** The threat lines of `p` are exactly the lines of the list that `p` can complete now. */
  lemma {:induction false} ThreatsAmongIsFilter(g: Grid, lines: seq<Line>, p: Player)
    ensures forall l :: l in ThreatsAmong(g, lines, p) <==> l in lines && IsThreat(g, l, p)
  {
    if lines != [] {
      ThreatsAmongIsFilter(g, lines[1..], p);
      assert lines == [lines[0]] + lines[1..];
    }
  }

  /** Scanning a suffix of a list: its first line, then the rest. */
  lemma ThreatsAmongStep(g: Grid, lines: seq<Line>, k: nat, p: Player)
    requires k < |lines|
    ensures ThreatsAmong(g, lines[k..], p) == AsThreat(g, lines[k], p) + ThreatsAmong(g, lines[k + 1..], p)
  {
    assert lines[k..][1..] == lines[k + 1..];
  }

  /** The scan of the catalogue written out line by line, in catalogue order. */
  lemma ThreatsOfCatalogue(g: Grid, p: Player)
    ensures ThreatsAmong(g, Lines, p)
      == AsThreat(g, Lines[0], p) + (AsThreat(g, Lines[1], p) + (AsThreat(g, Lines[2], p)
       + (AsThreat(g, Lines[3], p) + (AsThreat(g, Lines[4], p) + (AsThreat(g, Lines[5], p)
       + (AsThreat(g, Lines[6], p) + AsThreat(g, Lines[7], p)))))))
  {
    var t0 := AsThreat(g, Lines[0], p);
    var t1 := AsThreat(g, Lines[1], p);
    var t2 := AsThreat(g, Lines[2], p);
    var t3 := AsThreat(g, Lines[3], p);
    var t4 := AsThreat(g, Lines[4], p);
    var t5 := AsThreat(g, Lines[5], p);
    var t6 := AsThreat(g, Lines[6], p);
    var t7 := AsThreat(g, Lines[7], p);
    ThreatsAmongStep(g, Lines, 7, p);
    assert Lines[8..] == [];
    ThreatsAmongStep(g, Lines, 6, p);
    assert ThreatsAmong(g, Lines[6..], p) == t6 + t7;
    ThreatsAmongStep(g, Lines, 5, p);
    assert ThreatsAmong(g, Lines[5..], p) == t5 + (t6 + t7);
    ThreatsAmongStep(g, Lines, 4, p);
    assert ThreatsAmong(g, Lines[4..], p) == t4 + (t5 + (t6 + t7));
    ThreatsAmongStep(g, Lines, 3, p);
    assert ThreatsAmong(g, Lines[3..], p) == t3 + (t4 + (t5 + (t6 + t7)));
    ThreatsAmongStep(g, Lines, 2, p);
    assert ThreatsAmong(g, Lines[2..], p) == t2 + (t3 + (t4 + (t5 + (t6 + t7))));
    ThreatsAmongStep(g, Lines, 1, p);
    assert ThreatsAmong(g, Lines[1..], p) == t1 + (t2 + (t3 + (t4 + (t5 + (t6 + t7)))));
    ThreatsAmongStep(g, Lines, 0, p);
    assert ThreatsAmong(g, Lines[0..], p) == t0 + (t1 + (t2 + (t3 + (t4 + (t5 + (t6 + t7))))));
    assert Lines[0..] == Lines;
  }

  /** `GameBoard.GetWinningLine`: the first line of the catalogue `p` can complete now. */
  function GetWinningLine(g: Grid, p: Player): (r: Option<Line>)
    ensures r.Some? ==> r.value in Lines && IsThreat(g, r.value, p)
    ensures r.None? <==> forall l :: l in Lines ==> !IsThreat(g, l, p)
  {
    ThreatsAmongIsFilter(g, Lines, p);
    var threats := ThreatsAmong(g, Lines, p);
    if threats == [] then None
    else
      assert threats[0] in threats;
      Some(threats[0])
  }

  /**
   * `GameBoard.GetDangerousLines`: in this stand-in, the lines the player
   * OPPOSING `p` can complete now, in catalogue order.
   */
  function GetDangerousLines(g: Grid, p: Player): (r: seq<Line>)
    ensures forall l :: l in r <==> l in Lines && IsThreat(g, l, GetOpposingPlayer(p))
  {
    ThreatsAmongIsFilter(g, Lines, GetOpposingPlayer(p));
    ThreatsAmong(g, Lines, GetOpposingPlayer(p))
  }

  /** Every box of `line` holds `p`'s mark. */
  predicate Completed(g: Grid, line: Line, p: Player) {
    g[line.a] == Taken(p) && g[line.b] == Taken(p) && g[line.c] == Taken(p)
  }

  /** The owner of the first completed line among `lines`, if any. */
  function FirstCompleted(g: Grid, lines: seq<Line>): (r: Option<Player>)
    ensures r.Some? ==> exists l :: l in lines && Completed(g, l, r.value)
    ensures r.None? ==> forall l, p :: l in lines ==> !Completed(g, l, p)
  {
    if lines == [] then None
    else
      var l := lines[0];
      if g[l.a].Taken? && Completed(g, l, g[l.a].owner) then Some(g[l.a].owner)
      else FirstCompleted(g, lines[1..])
  }

  /** The answer of `GameBoard.CheckForWinner`. */
  datatype Status = Status(gameOver: bool, winner: Option<Player>)

  /** `GameBoard.CheckForWinner`: a completed line wins; otherwise a full board is a tie. */
  function CheckForWinner(g: Grid): (r: Status)
    ensures r.winner.Some? ==> r.gameOver && exists l :: l in Lines && Completed(g, l, r.winner.value)
    ensures r.gameOver && r.winner.None? ==>
      (forall b: Box :: g[b] != Empty) && forall l, p :: l in Lines ==> !Completed(g, l, p)
    ensures !r.gameOver ==>
      (exists b: Box :: g[b] == Empty) && forall l, p :: l in Lines ==> !Completed(g, l, p)
  {
    match FirstCompleted(g, Lines)
    case Some(p) => Status(true, Some(p))
    case None =>
      if EmptyBoxes(g) == [] then Status(true, None)
      else
        assert EmptyBoxes(g)[0] in EmptyBoxes(g);
        Status(false, None)
  }

  /** A game that is not over still has an empty box, and only a finished game names a winner. */
  lemma OngoingHasEmptyBox(g: Grid)
    ensures !CheckForWinner(g).gameOver ==> EmptyBoxes(g) != []
    ensures CheckForWinner(g).winner.Some? ==> CheckForWinner(g).gameOver
  {
  }

  /** Taking an empty box never adds an empty box, and takes one away when it is listed. */
  lemma {:induction false} TakeShrinks(g: Grid, boxes: seq<Box>, box: Box, p: Player)
    requires g[box] == Empty
    ensures |EmptyAmong(g[box := Taken(p)], boxes)| <= |EmptyAmong(g, boxes)|
    ensures box in boxes ==> |EmptyAmong(g[box := Taken(p)], boxes)| < |EmptyAmong(g, boxes)|
  {
    if boxes != [] {
      TakeShrinks(g, boxes[1..], box, p);
    }
  }

  /** Every successful placement leaves one empty box fewer: the game cannot go on forever. */
  lemma TakeEmptyBox(g: Grid, box: Box, p: Player)
    requires g[box] == Empty
    ensures |EmptyBoxes(g[box := Taken(p)])| < |EmptyBoxes(g)|
  {
    TakeShrinks(g, AllBoxes, box, p);
  }

  /** The nine cells of the board, updated only through `DrawPlayer`. */
  class GameBoard {
    const cells: array<Cell>

    ghost predicate Valid() {
      cells.Length == 9
    }

    function Cells(): Grid
      reads cells
      requires Valid()
    {
      cells[..]
    }

    constructor ()
      ensures Valid() && fresh(cells)
      ensures Cells() == EmptyGrid
    {
      cells := new Cell[9](_ => Empty);
    }

    /** Puts `player`'s mark in `box` when it is empty; an occupied box is left as it is. */
    method DrawPlayer(box: Box, player: Player) returns (placed: bool)
      requires Valid()
      modifies cells
      ensures placed <==> old(Cells())[box] == Empty
      ensures Cells() == if placed then old(Cells())[box := Taken(player)] else old(Cells())
    {
      placed := cells[box] == Empty;
      if placed {
        cells[box] := Taken(player);
      }
    }
  }
}
