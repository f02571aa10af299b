/** The 16-cell board of `Game2048` and the deterministic part of `move`
    (Game2048.py lines 27-72): which cells form line `i` for each direction,
    the afterstate (the board after sliding and merging, before a tile is
    spawned), the points a move scores, and when a full board is stuck. */
module Board {
  import opened Tiles
  import opened Lines

  /** The four moves of `actions` (line 14). `direction in 'LR'` selects
      rows and `direction in 'RD'` reverses the line. */
  datatype Direction = Up | Down | Left | Right

  predicate Horizontal(d: Direction)
  {
    d == Left || d == Right
  }

  predicate Reversed(d: Direction)
  {
    d == Right || d == Down
  }

  /** Cell `j` of line `i` (lines 34 and 62). */
  function Cell(d: Direction, i: nat, j: nat): (idx: nat)
    requires i < 4 && j < 4
    ensures idx < 16
  {
    if Horizontal(d) then i * 4 + j else j * 4 + i
  }

  /** The line a cell lies on. */
  function LineOf(d: Direction, idx: nat): (i: nat)
    requires idx < 16
    ensures i < 4
  {
    if Horizontal(d) then idx / 4 else idx % 4
  }

  /** The position of a cell within its line. */
  function PosOf(d: Direction, idx: nat): (j: nat)
    requires idx < 16
    ensures j < 4
  {
    if Horizontal(d) then idx % 4 else idx / 4
  }

  /** Cell `j` of line `i` lies on line `i` at position `j`, and every cell is
      cell `PosOf` of line `LineOf`: line `i` covers four distinct cells and
      the four lines together cover the board, so a move writes every cell
      exactly once. */
  lemma CellCoordinates(d: Direction)
    ensures forall i: nat, j: nat :: i < 4 && j < 4 ==>
              LineOf(d, Cell(d, i, j)) == i && PosOf(d, Cell(d, i, j)) == j
    ensures forall idx: nat :: idx < 16 ==> Cell(d, LineOf(d, idx), PosOf(d, idx)) == idx
  {
  }

  function LineAt(vals: seq<nat>, d: Direction, i: nat): (line: seq<nat>)
    requires |vals| == 16 && i < 4
    ensures |line| == 4
  {
    seq(4, j requires 0 <= j < 4 => vals[Cell(d, i, j)])
  }

  /** The tile values after every line is slid and merged (lines 31-63). */
  function SlideValues(vals: seq<nat>, d: Direction): (r: seq<nat>)
    requires |vals| == 16
    ensures |r| == 16
  {
    seq(16, idx requires 0 <= idx < 16 =>
      SlideLine(LineAt(vals, d, LineOf(d, idx)), Reversed(d))[PosOf(d, idx)])
  }

  /** The sum of a four-cell line, cell by cell. */
  lemma SumOfFour(s: seq<nat>)
    requires |s| == 4
    ensures Sum(s) == s[0] + s[1] + s[2] + s[3]
  {
    var t1, t2, t3 := s[1..], s[2..], s[3..];
    assert t1[1..] == t2 && t2[1..] == t3 && t3[1..] == [];
    assert Sum(t3) == s[3];
    assert Sum(t2) == s[2] + Sum(t3);
    assert Sum(t1) == s[1] + Sum(t2);
  }

  /** The sum of the board, cell by cell. */
  lemma SumOfBoard(x: seq<nat>)
    requires |x| == 16
    ensures Sum(x) == x[0] + x[1] + x[2] + x[3] + x[4] + x[5] + x[6] + x[7]
                    + x[8] + x[9] + x[10] + x[11] + x[12] + x[13] + x[14] + x[15]
  {
    var r0, r1, r2, r3 := x[..4], x[4..8], x[8..12], x[12..];
    assert x == r0 + r1 + r2 + r3;
    SumAppend(r0 + r1 + r2, r3);
    SumAppend(r0 + r1, r2);
    SumAppend(r0, r1);
    SumOfFour(r0);
    SumOfFour(r1);
    SumOfFour(r2);
    SumOfFour(r3);
  }

  /** The total value of a board is the total of its four lines, in either
      orientation, since the lines partition the cells. */
  lemma SumByLines(x: seq<nat>, d: Direction)
    requires |x| == 16
    ensures Sum(x) == Sum(LineAt(x, d, 0)) + Sum(LineAt(x, d, 1)) + Sum(LineAt(x, d, 2)) + Sum(LineAt(x, d, 3))
  {
    SumOfBoard(x);
    SumOfFour(LineAt(x, d, 0));
    SumOfFour(LineAt(x, d, 1));
    SumOfFour(LineAt(x, d, 2));
    SumOfFour(LineAt(x, d, 3));
  }

  /** Line `i` of the slid board is line `i` of the board, slid, and so
      keeps that line's value. */
  lemma SlideValuesLine(vals: seq<nat>, d: Direction, i: nat)
    requires |vals| == 16 && i < 4
    ensures LineAt(SlideValues(vals, d), d, i) == SlideLine(LineAt(vals, d, i), Reversed(d))
    ensures Sum(LineAt(SlideValues(vals, d), d, i)) == Sum(LineAt(vals, d, i))
  {
    var slid, line := SlideValues(vals, d), SlideLine(LineAt(vals, d, i), Reversed(d));
    forall j | 0 <= j < 4
      ensures LineAt(slid, d, i)[j] == line[j]
    {
      var idx := Cell(d, i, j);
      assert LineOf(d, idx) == i && PosOf(d, idx) == j;
      assert slid[idx] == line[j];
    }
    assert LineAt(slid, d, i) == line;
    SlideLineConservesValue(LineAt(vals, d, i), Reversed(d));
  }

  /** A move keeps the total tile value of the whole board: merging two
      tiles into one of twice the value loses nothing, and the points are
      not taken off the board. */
  lemma SlideValuesSum(vals: seq<nat>, d: Direction)
    requires |vals| == 16
    ensures Sum(SlideValues(vals, d)) == Sum(vals)
  {
    SumByLines(vals, d);
    SumByLines(SlideValues(vals, d), d);
    SlideValuesLine(vals, d, 0);
    SlideValuesLine(vals, d, 1);
    SlideValuesLine(vals, d, 2);
    SlideValuesLine(vals, d, 3);
  }

  /** Points scored by the first `n` lines. */
  function LinesScore(vals: seq<nat>, d: Direction, n: nat): nat
    requires |vals| == 16 && n <= 4
  {
    if n == 0 then 0 else LinesScore(vals, d, n - 1) + LineScore(LineAt(vals, d, n - 1), Reversed(d))
  }

  /** The board after sliding and merging, converted back to exponents
      (lines 28-72), before any tile is spawned. */
  function Afterstate(b: seq<nat>, d: Direction): (a: seq<nat>)
    requires |b| == 16
    ensures |a| == 16
  {
    Exponents(SlideValues(Values(b), d))
  }

  /** The `score` that `move` returns. */
  function MoveScore(b: seq<nat>, d: Direction): nat
    requires |b| == 16
  {
    LinesScore(Values(b), d, 4)
  }

  predicate Full(b: seq<nat>)
  {
    forall k :: 0 <= k < |b| ==> b[k] != 0
  }

  /** `addRandomTile` turned `before` into `after`: a full board stays as it
      is, otherwise one empty cell receives a 1 or a 2. */
  predicate SpawnedFrom(before: seq<nat>, after: seq<nat>)
  {
    (Full(before) && after == before) ||
    exists k :: 0 <= k < |before| && before[k] == 0 && (after == before[k := 1] || after == before[k := 2])
  }

  /** Moving in direction `d` changes no cell of `b`. */
  predicate Unmoved(b: seq<nat>, d: Direction)
    requires |b| == 16
  {
    Afterstate(b, d) == b
  }

  /** What `gameOver` decides: the board is full and no move changes it. */
  predicate Stuck(b: seq<nat>)
    requires |b| == 16
  {
    Full(b) && forall d: Direction :: Afterstate(b, d) == b
  }

  /** Two neighbouring cells of one line of direction `d` are equal. */
  predicate HasPair(b: seq<nat>, d: Direction)
    requires |b| == 16
  {
    exists i: nat, j: nat :: i < 4 && j < 3 && b[Cell(d, i, j)] == b[Cell(d, i, j + 1)]
  }

  /** The cell in row `r`, column `c` (`getTile`, line 80). */
  function Tile(b: seq<nat>, r: nat, c: nat): nat
    requires |b| == 16 && r < 4 && c < 4
  {
    b[r * 4 + c]
  }

  /** No two cells of a row are equal neighbours. */
  predicate RowsWithoutPairs(b: seq<nat>)
    requires |b| == 16
  {
    forall r: nat, c: nat :: r < 4 && c < 3 ==> Tile(b, r, c) != Tile(b, r, c + 1)
  }

  /** No two cells of a column are equal neighbours. */
  predicate ColumnsWithoutPairs(b: seq<nat>)
    requires |b| == 16
  {
    forall r: nat, c: nat :: r < 3 && c < 4 ==> Tile(b, r, c) != Tile(b, r + 1, c)
  }

  /** No two horizontally or vertically adjacent cells are equal. */
  predicate NoEqualNeighbours(b: seq<nat>)
    requires |b| == 16
  {
    RowsWithoutPairs(b) && ColumnsWithoutPairs(b)
  }

  lemma LineValues(b: seq<nat>, d: Direction, i: nat)
    requires |b| == 16 && i < 4
    ensures LineAt(Values(b), d, i) == Values(LineAt(b, d, i))
  {
  }

  lemma NoAdjacentEqualValues(s: seq<nat>)
    ensures NoAdjacentEqual(Values(s)) <==> NoAdjacentEqual(s)
  {
    var v := Values(s);
    if NoAdjacentEqual(s) {
      forall k | 0 <= k < |v| - 1
        ensures v[k] != v[k + 1]
      {
        if v[k] == v[k + 1] {
          ToValueInjective(s[k], s[k + 1]);
        }
      }
    } else {
      var k :| 0 <= k < |s| - 1 && s[k] == s[k + 1];
      assert v[k] == v[k + 1];
    }
  }

  /** Cell `k` of line `i` after a move holds the exponent of cell `k` of
      the processed line `i`. */
  lemma AfterstateAt(b: seq<nat>, d: Direction, i: nat, k: nat)
    requires |b| == 16 && i < 4 && k < 4
    ensures Afterstate(b, d)[Cell(d, i, k)] == ToExponent(SlideLine(Values(LineAt(b, d, i)), Reversed(d))[k])
  {
    var p := Cell(d, i, k);
    CellCoordinates(d);
    assert LineOf(d, p) == i && PosOf(d, p) == k;
    LineValues(b, d, i);
  }

  /** A full line without equal neighbours is left as it is. */
  lemma FullLineKept(b: seq<nat>, d: Direction, i: nat, k: nat)
    requires |b| == 16 && i < 4 && k < 4
    requires AllPositive(LineAt(b, d, i)) && NoAdjacentEqual(LineAt(b, d, i))
    ensures Afterstate(b, d)[Cell(d, i, k)] == b[Cell(d, i, k)]
  {
    var e := LineAt(b, d, i);
    AfterstateAt(b, d, i, k);
    NoAdjacentEqualValues(e);
    assert AllPositive(Values(e));
    SlideFullLine(Values(e), Reversed(d));
    ExponentRoundTrip(e[k]);
  }

  /** A full line with two equal neighbours receives a merged tile in some
      cell, which therefore changes and is not empty. */
  lemma FullLineChanged(b: seq<nat>, d: Direction, i: nat, j: nat)
    requires |b| == 16 && i < 4 && j < 3
    requires AllPositive(LineAt(b, d, i)) && b[Cell(d, i, j)] == b[Cell(d, i, j + 1)]
    ensures exists p :: 0 <= p < 16 && Afterstate(b, d)[p] != b[p] && Afterstate(b, d)[p] != 0
  {
    var e := LineAt(b, d, i);
    assert !NoAdjacentEqual(e) by {
      assert e[j] == e[j + 1];
    }
    NoAdjacentEqualValues(e);
    assert AllPositive(Values(e));
    SlideFullLine(Values(e), Reversed(d));
    var k :| 0 <= k < 4 && SlideLine(Values(e), Reversed(d))[k] == 2 * Values(e)[k];
    var p := Cell(d, i, k);
    AfterstateAt(b, d, i, k);
    assert e[k] == b[p] && b[p] > 0;
    MergedCell(e, Reversed(d), k);
  }

  /** A cell of a line that receives twice its value gets the next exponent. */
  lemma MergedCell(e: seq<nat>, rev: bool, k: nat)
    requires |e| == 4 && k < 4 && e[k] > 0
    requires SlideLine(Values(e), rev)[k] == 2 * Values(e)[k]
    ensures ToExponent(SlideLine(Values(e), rev)[k]) == e[k] + 1
  {
    var v := SlideLine(Values(e), rev)[k];
    assert Values(e)[k] == ToValue(e[k]);
    DoubledExponent(v, e[k]);
  }

  /** On a full board, a move leaves the board as it is exactly when no line
      of its direction holds two equal neighbours; otherwise some non-empty
      cell changes (it receives a merged tile). */
  lemma FullBoardMove(b: seq<nat>, d: Direction)
    requires |b| == 16 && Full(b)
    ensures Afterstate(b, d) == b <==> !HasPair(b, d)
    ensures Afterstate(b, d) != b ==>
              exists p :: 0 <= p < 16 && Afterstate(b, d)[p] != b[p] && Afterstate(b, d)[p] != 0
  {
    if !HasPair(b, d) {
      NoPairUnmoved(b, d);
    } else {
      PairMoves(b, d);
    }
  }

  /** On a full board without equal neighbours along `d`, a move changes
      nothing. */
  lemma NoPairUnmoved(b: seq<nat>, d: Direction)
    requires |b| == 16 && Full(b) && !HasPair(b, d)
    ensures Afterstate(b, d) == b
  {
    var a := Afterstate(b, d);
    forall idx | 0 <= idx < 16
      ensures a[idx] == b[idx]
    {
      CellKept(b, d, idx);
    }
  }

  /** On a full board with equal neighbours along `d`, a move changes a
      cell to a non-empty tile. */
  lemma PairMoves(b: seq<nat>, d: Direction)
    requires |b| == 16 && Full(b) && HasPair(b, d)
    ensures exists p :: 0 <= p < 16 && Afterstate(b, d)[p] != b[p] && Afterstate(b, d)[p] != 0
  {
    var i: nat, j: nat :| i < 4 && j < 3 && b[Cell(d, i, j)] == b[Cell(d, i, j + 1)];
    assert AllPositive(LineAt(b, d, i));
    FullLineChanged(b, d, i, j);
  }

  /** On a full board without equal neighbours along `d`, a move keeps
      cell `idx`. */
  lemma CellKept(b: seq<nat>, d: Direction, idx: nat)
    requires |b| == 16 && Full(b) && idx < 16 && !HasPair(b, d)
    ensures Afterstate(b, d)[idx] == b[idx]
  {
    var i, k := LineOf(d, idx), PosOf(d, idx);
    var e := LineAt(b, d, i);
    assert NoAdjacentEqual(e) by {
      forall k | 0 <= k < 3
        ensures e[k] != e[k + 1]
      {
        assert e[k] == b[Cell(d, i, k)];
      }
    }
    assert AllPositive(e);
    FullLineKept(b, d, i, k);
    CellCoordinates(d);
  }

  lemma PairsLeftRight(b: seq<nat>)
    requires |b| == 16
    ensures HasPair(b, Left) == HasPair(b, Right)
    ensures HasPair(b, Up) == HasPair(b, Down)
  {
    assert forall i: nat, j: nat :: i < 4 && j < 4 ==> Cell(Left, i, j) == Cell(Right, i, j);
    assert forall i: nat, j: nat :: i < 4 && j < 4 ==> Cell(Up, i, j) == Cell(Down, i, j);
  }

  /** The lines of a Left move are the rows. */
  lemma PairsInRows(b: seq<nat>)
    requires |b| == 16
    ensures !HasPair(b, Left) <==> RowsWithoutPairs(b)
  {
    if HasPair(b, Left) {
      var i: nat, j: nat :| i < 4 && j < 3 && b[Cell(Left, i, j)] == b[Cell(Left, i, j + 1)];
      assert Tile(b, i, j) == Tile(b, i, j + 1);
    }
    if !RowsWithoutPairs(b) {
      var r: nat, c: nat :| r < 4 && c < 3 && Tile(b, r, c) == Tile(b, r, c + 1);
      assert b[Cell(Left, r, c)] == b[Cell(Left, r, c + 1)];
    }
  }

  /** The lines of an Up move are the columns. */
  lemma PairsInColumns(b: seq<nat>)
    requires |b| == 16
    ensures !HasPair(b, Up) <==> ColumnsWithoutPairs(b)
  {
    if HasPair(b, Up) {
      var i: nat, j: nat :| i < 4 && j < 3 && b[Cell(Up, i, j)] == b[Cell(Up, i, j + 1)];
      assert Tile(b, j, i) == Tile(b, j + 1, i);
    }
    if !ColumnsWithoutPairs(b) {
      var r: nat, c: nat :| r < 3 && c < 4 && Tile(b, r, c) == Tile(b, r + 1, c);
      assert b[Cell(Up, c, r)] == b[Cell(Up, c, r + 1)];
    }
  }

  /** A board is stuck exactly when it is full and no two adjacent cells
      are equal. */
  lemma StuckIffNoEqualNeighbours(b: seq<nat>)
    requires |b| == 16
    ensures Stuck(b) <==> Full(b) && NoEqualNeighbours(b)
  {
    PairsLeftRight(b);
    PairsInRows(b);
    PairsInColumns(b);
    if Full(b) {
      FullBoardMove(b, Up);
      FullBoardMove(b, Down);
      FullBoardMove(b, Left);
      FullBoardMove(b, Right);
      if NoEqualNeighbours(b) {
        forall d: Direction
          ensures Afterstate(b, d) == b
        {
          FullBoardMove(b, d);
        }
      }
    }
  }

  /** A board with an empty cell is never stuck. */
  lemma EmptyCellNotStuck(b: seq<nat>, k: nat)
    requires |b| == 16 && k < 16 && b[k] == 0
    ensures !Stuck(b)
  {
  }

  /** Spawning on a full board changes nothing. */
  lemma SpawnOnFull(before: seq<nat>, after: seq<nat>)
    requires Full(before) && SpawnedFrom(before, after)
    ensures after == before
  {
  }

  /** A spawn leaves every non-empty cell as it was. */
  lemma SpawnKeepsTiles(before: seq<nat>, after: seq<nat>, p: nat)
    requires SpawnedFrom(before, after) && p < |before| && before[p] != 0
    ensures p < |after| && after[p] == before[p]
  {
  }

  /** On a full board, spawning after a move that changed something can
      never give back the original board, so comparing the spawned child
      with the parent (line 94) decides whether the move changes it. */
  lemma SpawnKeepsChange(b: seq<nat>, d: Direction, child: seq<nat>)
    requires |b| == 16 && Full(b)
    requires SpawnedFrom(Afterstate(b, d), child)
    ensures child == b <==> Afterstate(b, d) == b
  {
    var a := Afterstate(b, d);
    FullBoardMove(b, d);
    if a != b {
      var p :| 0 <= p < 16 && a[p] != b[p] && a[p] != 0;
      SpawnKeepsTiles(a, child, p);
    } else {
      SpawnOnFull(a, child);
    }
  }

  /** A full board whose neighbours all differ, such as the checkerboard of
      2s and 4s, is over; the same board with one cell emptied is not. */
  lemma CheckerboardStuck(b: seq<nat>)
    requires b == [1, 2, 1, 2, 2, 1, 2, 1, 1, 2, 1, 2, 2, 1, 2, 1]
    ensures Stuck(b)
    ensures !Stuck(b[0 := 0])
  {
    assert NoEqualNeighbours(b);
    StuckIffNoEqualNeighbours(b);
    EmptyCellNotStuck(b[0 := 0], 0);
  }
}
