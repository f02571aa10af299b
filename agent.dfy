/** The agent's board heuristics (MyAgent.py).

    The agent reads the board as a 4-by-4 grid of tile values, `board[r][c]`,
    and scores it by the number of empty cells, the largest tile and two
    penalties: `smoothness` charges the gap between neighbouring non-empty
    cells and `monotonicity` charges, per direction, the smaller of the total
    rise and the total fall along rows and along columns.  Each penalty is a
    nested accumulation loop, stated here against a sum over the same pairs
    in the same order. */
module Agent {

  /** A 4-by-4 grid of integers, indexed `g[r][c]`. */
  predicate IsGrid(g: seq<seq<int>>)
  {
    |g| == 4 && forall r :: 0 <= r < 4 ==> |g[r]| == 4
  }

  function Abs(x: int): nat
  {
    if x < 0 then -x else x
  }

  /** The cell under `(r, c)`. */
  function Below(g: seq<seq<int>>, r: nat, c: nat): int
    requires IsGrid(g) && r < 3 && c < 4
  {
    g[r + 1][c]
  }

  function Min(a: int, b: int): int
  {
    if a < b then a else b
  }

  // ---------------------------------------------------------------------
  // Sums over neighbouring pairs, in the order the loops visit them

  /** `f` on the first `c` horizontal pairs of row `r`. */
  function AcrossSum(g: seq<seq<int>>, f: (int, int) -> nat, r: nat, c: nat): nat
    requires IsGrid(g) && r < 4 && c <= 3
  {
    if c == 0 then 0 else AcrossSum(g, f, r, c - 1) + f(g[r][c - 1], g[r][c])
  }

  /** `f` on every horizontal pair of the first `r` rows. */
  function AcrossTotal(g: seq<seq<int>>, f: (int, int) -> nat, r: nat): nat
    requires IsGrid(g) && r <= 4
  {
    if r == 0 then 0 else AcrossTotal(g, f, r - 1) + AcrossSum(g, f, r - 1, 3)
  }

  /** `f` on the vertical pairs between rows `r` and `r + 1` in the first `c`
      columns. */
  function DownSum(g: seq<seq<int>>, f: (int, int) -> nat, r: nat, c: nat): nat
    requires IsGrid(g) && r < 3 && c <= 4
  {
    if c == 0 then 0 else DownSum(g, f, r, c - 1) + f(g[r][c - 1], g[r + 1][c - 1])
  }

  /** `f` on every vertical pair whose upper cell lies in the first `r` rows. */
  function DownTotal(g: seq<seq<int>>, f: (int, int) -> nat, r: nat): nat
    requires IsGrid(g) && r <= 3
  {
    if r == 0 then 0 else DownTotal(g, f, r - 1) + DownSum(g, f, r - 1, 4)
  }

  /** `f` on the first `r` vertical pairs of column `c`. */
  function ColumnSum(g: seq<seq<int>>, f: (int, int) -> nat, c: nat, r: nat): nat
    requires IsGrid(g) && c < 4 && r <= 3
  {
    if r == 0 then 0 else ColumnSum(g, f, c, r - 1) + f(g[r - 1][c], g[r][c])
  }

  /** `f` on every vertical pair of the first `c` columns. */
  function ColumnTotal(g: seq<seq<int>>, f: (int, int) -> nat, c: nat): nat
    requires IsGrid(g) && c <= 4
  {
    if c == 0 then 0 else ColumnTotal(g, f, c - 1) + ColumnSum(g, f, c - 1, 3)
  }

  /** A sum over the horizontal pairs is zero exactly when `f` is zero on
      every one of them. */
  lemma {:induction false} AcrossTotalZero(g: seq<seq<int>>, f: (int, int) -> nat, r: nat)
    requires IsGrid(g) && r <= 4
    ensures AcrossTotal(g, f, r) == 0 <==>
              forall i, j :: 0 <= i < r && 0 <= j < 3 ==> f(g[i][j], g[i][j + 1]) == 0
  {
    if r > 0 {
      AcrossTotalZero(g, f, r - 1);
      AcrossSumZero(g, f, r - 1, 3);
    }
  }

  lemma {:induction false} AcrossSumZero(g: seq<seq<int>>, f: (int, int) -> nat, r: nat, c: nat)
    requires IsGrid(g) && r < 4 && c <= 3
    ensures AcrossSum(g, f, r, c) == 0 <==> forall j :: 0 <= j < c ==> f(g[r][j], g[r][j + 1]) == 0
  {
    if c > 0 {
      AcrossSumZero(g, f, r, c - 1);
    }
  }

  /** The same for the vertical pairs, summed row by row. */
  lemma {:induction false} DownTotalZero(g: seq<seq<int>>, f: (int, int) -> nat, r: nat)
    requires IsGrid(g) && r <= 3
    ensures DownTotal(g, f, r) == 0 <==>
              forall i, j :: 0 <= i < r && 0 <= j < 4 ==> f(g[i][j], Below(g, i, j)) == 0
  {
    if r > 0 {
      DownTotalZero(g, f, r - 1);
      DownSumZero(g, f, r - 1, 4);
    }
  }

  lemma {:induction false} DownSumZero(g: seq<seq<int>>, f: (int, int) -> nat, r: nat, c: nat)
    requires IsGrid(g) && r < 3 && c <= 4
    ensures DownSum(g, f, r, c) == 0 <==> forall j :: 0 <= j < c ==> f(g[r][j], Below(g, r, j)) == 0
  {
    if c > 0 {
      DownSumZero(g, f, r, c - 1);
    }
  }

  /** The same for the vertical pairs, summed column by column. */
  lemma {:induction false} ColumnTotalZero(g: seq<seq<int>>, f: (int, int) -> nat, c: nat)
    requires IsGrid(g) && c <= 4
    ensures ColumnTotal(g, f, c) == 0 <==>
              forall i, j :: 0 <= i < 3 && 0 <= j < c ==> f(g[i][j], Below(g, i, j)) == 0
  {
    if c > 0 {
      ColumnTotalZero(g, f, c - 1);
      ColumnSumZero(g, f, c - 1, 3);
    }
  }

  lemma {:induction false} ColumnSumZero(g: seq<seq<int>>, f: (int, int) -> nat, c: nat, r: nat)
    requires IsGrid(g) && c < 4 && r <= 3
    ensures ColumnSum(g, f, c, r) == 0 <==> forall i :: 0 <= i < r ==> f(g[i][c], Below(g, i, c)) == 0
  {
    if r > 0 {
      ColumnSumZero(g, f, c, r - 1);
    }
  }

  // ---------------------------------------------------------------------
  // smoothness (lines 39-49)

  /** What `smoothness` charges for two neighbours: their distance when both
      are non-empty (non-zero), nothing otherwise. */
  function Gap(a: int, b: int): nat
  {
    if a != 0 && b != 0 then Abs(a - b) else 0
  }

  /** The total penalty `smoothness` subtracts: horizontal pairs first, then
      vertical pairs. */
  function Roughness(g: seq<seq<int>>): nat
    requires IsGrid(g)
  {
    AcrossTotal(g, Gap, 4) + DownTotal(g, Gap, 3)
  }

  /** Every two neighbouring cells that are both non-empty hold equal values. */
  predicate NeighboursAgree(g: seq<seq<int>>)
    requires IsGrid(g)
  {
    (forall r, c :: 0 <= r < 4 && 0 <= c < 3 && g[r][c] != 0 && g[r][c + 1] != 0 ==> g[r][c] == g[r][c + 1]) &&
    (forall r, c :: 0 <= r < 3 && 0 <= c < 4 && g[r][c] != 0 && Below(g, r, c) != 0 ==> g[r][c] == Below(g, r, c))
  }

  /** `smoothness`: subtract the gap of every non-empty neighbour pair, row
      pairs first, then column pairs. */
  method Smoothness(g: seq<seq<int>>) returns (score: int)
    requires IsGrid(g)
    ensures score == -(Roughness(g) as int)
    ensures score <= 0
  {
    score := 0;
    for r := 0 to 4
      invariant score == -(AcrossTotal(g, Gap, r) as int)
    {
      for c := 0 to 3
        invariant score == -(AcrossTotal(g, Gap, r) + AcrossSum(g, Gap, r, c))
      {
        if g[r][c] != 0 && g[r][c + 1] != 0 {
          score := score - Abs(g[r][c] - g[r][c + 1]);
        }
      }
    }
    for r := 0 to 3
      invariant score == -(AcrossTotal(g, Gap, 4) + DownTotal(g, Gap, r))
    {
      for c := 0 to 4
        invariant score == -(AcrossTotal(g, Gap, 4) + DownTotal(g, Gap, r) + DownSum(g, Gap, r, c))
      {
        if g[r][c] != 0 && g[r + 1][c] != 0 {
          score := score - Abs(g[r][c] - g[r + 1][c]);
        }
      }
    }
  }

  /** `smoothness` is zero exactly when neighbouring non-empty cells agree. */
  lemma SmoothnessZero(g: seq<seq<int>>)
    requires IsGrid(g)
    ensures Roughness(g) == 0 <==> NeighboursAgree(g)
  {
    AcrossTotalZero(g, Gap, 4);
    DownTotalZero(g, Gap, 3);
    if NeighboursAgree(g) {
      assert forall i, j :: 0 <= i < 4 && 0 <= j < 3 ==> Gap(g[i][j], g[i][j + 1]) == 0;
      assert forall i, j :: 0 <= i < 3 && 0 <= j < 4 ==> Gap(g[i][j], Below(g, i, j)) == 0;
    }
    if Roughness(g) == 0 {
      forall r, c | 0 <= r < 4 && 0 <= c < 3 && g[r][c] != 0 && g[r][c + 1] != 0
        ensures g[r][c] == g[r][c + 1]
      {
        assert Gap(g[r][c], g[r][c + 1]) == 0;
      }
      forall r, c | 0 <= r < 3 && 0 <= c < 4 && g[r][c] != 0 && Below(g, r, c) != 0
        ensures g[r][c] == Below(g, r, c)
      {
        assert Gap(g[r][c], Below(g, r, c)) == 0;
      }
    }
  }

  /** A grid where no two neighbours are both non-empty costs nothing. */
  lemma SmoothnessOfSparse(g: seq<seq<int>>)
    requires IsGrid(g)
    requires forall r, c :: 0 <= r < 4 && 0 <= c < 3 ==> g[r][c] == 0 || g[r][c + 1] == 0
    requires forall r, c :: 0 <= r < 3 && 0 <= c < 4 ==> g[r][c] == 0 || Below(g, r, c) == 0
    ensures Roughness(g) == 0
  {
    SmoothnessZero(g);
  }

  /** A grid of one repeated value costs nothing. */
  lemma SmoothnessOfConstant(g: seq<seq<int>>, v: int)
    requires IsGrid(g)
    requires forall r, c :: 0 <= r < 4 && 0 <= c < 4 ==> g[r][c] == v
    ensures Roughness(g) == 0
  {
    SmoothnessZero(g);
  }

  // ---------------------------------------------------------------------
  // monotonicity (lines 51-65)

  /** What `totals[0]` and `totals[2]` collect for a pair: how far the
      second cell lies below the first. */
  function Fall(a: int, b: int): nat
  {
    if a > b then a - b else 0
  }

  /** What `totals[1]` and `totals[3]` collect for a pair: how far the
      second cell lies above (or level with) the first. */
  function Rise(a: int, b: int): nat
  {
    if a > b then 0 else b - a
  }

  /** The value `monotonicity` returns: the smaller of the total fall and
      the total rise along rows, plus the same along columns, negated. */
  function MonotonicityScore(g: seq<seq<int>>): int
    requires IsGrid(g)
  {
    -Min(AcrossTotal(g, Fall, 4), AcrossTotal(g, Rise, 4)) - Min(ColumnTotal(g, Fall, 4), ColumnTotal(g, Rise, 4))
  }

  predicate RowsNonIncreasing(g: seq<seq<int>>)
    requires IsGrid(g)
  {
    forall r, c :: 0 <= r < 4 && 0 <= c < 3 ==> g[r][c] >= g[r][c + 1]
  }

  predicate RowsNonDecreasing(g: seq<seq<int>>)
    requires IsGrid(g)
  {
    forall r, c :: 0 <= r < 4 && 0 <= c < 3 ==> g[r][c] <= g[r][c + 1]
  }

  predicate ColumnsNonIncreasing(g: seq<seq<int>>)
    requires IsGrid(g)
  {
    forall r, c :: 0 <= r < 3 && 0 <= c < 4 ==> g[r][c] >= Below(g, r, c)
  }

  predicate ColumnsNonDecreasing(g: seq<seq<int>>)
    requires IsGrid(g)
  {
    forall r, c :: 0 <= r < 3 && 0 <= c < 4 ==> g[r][c] <= Below(g, r, c)
  }

  /** `monotonicity`: row pairs feed `totals[0]` (falls) or `totals[1]`
      (rises and ties), column pairs, column by column, feed `totals[2]` or
      `totals[3]`; the result is minus the two smaller totals. */
  method Monotonicity(g: seq<seq<int>>) returns (m: int)
    requires IsGrid(g)
    ensures m == MonotonicityScore(g)
    ensures m <= 0
  {
    var totals := new int[4](_ => 0);
    RowPass(g, totals);
    ColumnPass(g, totals);
    m := -Min(totals[0], totals[1]) - Min(totals[2], totals[3]);
  }

  /** Lines 53-58: the falls and rises along the rows go to `totals[0]` and
      `totals[1]`. */
  method RowPass(g: seq<seq<int>>, totals: array<int>)
    requires IsGrid(g) && totals.Length == 4
    requires totals[0] == 0 && totals[1] == 0
    modifies totals
    ensures totals[0] == AcrossTotal(g, Fall, 4) && totals[1] == AcrossTotal(g, Rise, 4)
    ensures totals[2] == old(totals[2]) && totals[3] == old(totals[3])
  {
    for r := 0 to 4
      invariant totals[0] == AcrossTotal(g, Fall, r) && totals[1] == AcrossTotal(g, Rise, r)
      invariant totals[2] == old(totals[2]) && totals[3] == old(totals[3])
    {
      for c := 0 to 3
        invariant totals[0] == AcrossTotal(g, Fall, r) + AcrossSum(g, Fall, r, c)
        invariant totals[1] == AcrossTotal(g, Rise, r) + AcrossSum(g, Rise, r, c)
        invariant totals[2] == old(totals[2]) && totals[3] == old(totals[3])
      {
        if g[r][c] > g[r][c + 1] {
          totals[0] := totals[0] + (g[r][c] - g[r][c + 1]);
        } else {
          totals[1] := totals[1] + (g[r][c + 1] - g[r][c]);
        }
      }
    }
  }

  /** Lines 59-64: the falls and rises down the columns go to `totals[2]`
      and `totals[3]`. */
  method ColumnPass(g: seq<seq<int>>, totals: array<int>)
    requires IsGrid(g) && totals.Length == 4
    requires totals[2] == 0 && totals[3] == 0
    modifies totals
    ensures totals[0] == old(totals[0]) && totals[1] == old(totals[1])
    ensures totals[2] == ColumnTotal(g, Fall, 4) && totals[3] == ColumnTotal(g, Rise, 4)
  {
    for c := 0 to 4
      invariant totals[0] == old(totals[0]) && totals[1] == old(totals[1])
      invariant totals[2] == ColumnTotal(g, Fall, c) && totals[3] == ColumnTotal(g, Rise, c)
    {
      for r := 0 to 3
        invariant totals[0] == old(totals[0]) && totals[1] == old(totals[1])
        invariant totals[2] == ColumnTotal(g, Fall, c) + ColumnSum(g, Fall, c, r)
        invariant totals[3] == ColumnTotal(g, Rise, c) + ColumnSum(g, Rise, c, r)
      {
        if g[r][c] > g[r + 1][c] {
          totals[2] := totals[2] + (g[r][c] - g[r + 1][c]);
        } else {
          totals[3] := totals[3] + (g[r + 1][c] - g[r][c]);
        }
      }
    }
  }

  /** `monotonicity` is zero exactly when the rows all run one way and the
      columns all run one way: every row non-increasing or every row
      non-decreasing, and the same for the columns. */
  lemma MonotonicityZero(g: seq<seq<int>>)
    requires IsGrid(g)
    ensures MonotonicityScore(g) == 0 <==>
              (RowsNonIncreasing(g) || RowsNonDecreasing(g)) &&
              (ColumnsNonIncreasing(g) || ColumnsNonDecreasing(g))
  {
    AcrossTotalZero(g, Fall, 4);
    AcrossTotalZero(g, Rise, 4);
    ColumnTotalZero(g, Fall, 4);
    ColumnTotalZero(g, Rise, 4);
    RowTotals(g);
    ColumnTotals(g);
  }

  lemma RowTotals(g: seq<seq<int>>)
    requires IsGrid(g)
    ensures (forall i, j :: 0 <= i < 4 && 0 <= j < 3 ==> Fall(g[i][j], g[i][j + 1]) == 0) <==> RowsNonDecreasing(g)
    ensures (forall i, j :: 0 <= i < 4 && 0 <= j < 3 ==> Rise(g[i][j], g[i][j + 1]) == 0) <==> RowsNonIncreasing(g)
  {
  }

  lemma ColumnTotals(g: seq<seq<int>>)
    requires IsGrid(g)
    ensures (forall i, j :: 0 <= i < 3 && 0 <= j < 4 ==> Fall(g[i][j], Below(g, i, j)) == 0) <==> ColumnsNonDecreasing(g)
    ensures (forall i, j :: 0 <= i < 3 && 0 <= j < 4 ==> Rise(g[i][j], Below(g, i, j)) == 0) <==> ColumnsNonIncreasing(g)
  {
  }

  // ---------------------------------------------------------------------
  // evaluate (lines 31-37)

  /** Cell `p` comes before cell `q` in row-major order. */
  predicate Before(p: (nat, nat), q: (nat, nat))
  {
    p.0 < q.0 || (p.0 == q.0 && p.1 < q.1)
  }

  /** The empty cells in row-major order, from cell `(r, c)` on. */
  function EmptyFrom(g: seq<seq<int>>, r: nat, c: nat): (cells: seq<(nat, nat)>)
    requires IsGrid(g) && r <= 4 && c <= 4
    decreases 4 - r, 4 - c
  {
    if r == 4 then []
    else if c == 4 then EmptyFrom(g, r + 1, 0)
    else (if g[r][c] == 0 then [(r, c)] else []) + EmptyFrom(g, r, c + 1)
  }

  /** The empty cells of the grid, row by row (line 15). */
  function EmptyCells(g: seq<seq<int>>): seq<(nat, nat)>
    requires IsGrid(g)
  {
    EmptyFrom(g, 0, 0)
  }

  /** From `(r, c)` on, a cell is listed exactly when it is empty and not
      before `(r, c)`. */
  lemma {:induction false} EmptyFromMembers(g: seq<seq<int>>, r: nat, c: nat)
    requires IsGrid(g) && r <= 4 && c <= 4
    ensures forall p :: p in EmptyFrom(g, r, c) <==>
              p.0 < 4 && p.1 < 4 && g[p.0][p.1] == 0 && !Before(p, (r, c))
    decreases 4 - r, 4 - c
  {
    if r < 4 && c == 4 {
      EmptyFromMembers(g, r + 1, 0);
      assert EmptyFrom(g, r, c) == EmptyFrom(g, r + 1, 0);
    } else if r < 4 {
      EmptyFromMembers(g, r, c + 1);
      var head: seq<(nat, nat)> := if g[r][c] == 0 then [(r, c)] else [];
      var rest := EmptyFrom(g, r, c + 1);
      assert EmptyFrom(g, r, c) == head + rest;
      forall p: (nat, nat)
        ensures p in EmptyFrom(g, r, c) <==> p in head || p in rest
      {
      }
    }
  }

  /** The cells from `(r, c)` on are listed in row-major order. */
  lemma {:induction false} EmptyFromOrdered(g: seq<seq<int>>, r: nat, c: nat)
    requires IsGrid(g) && r <= 4 && c <= 4
    ensures forall i, j :: 0 <= i < j < |EmptyFrom(g, r, c)| ==> Before(EmptyFrom(g, r, c)[i], EmptyFrom(g, r, c)[j])
    decreases 4 - r, 4 - c
  {
    if r < 4 && c == 4 {
      EmptyFromOrdered(g, r + 1, 0);
    } else if r < 4 {
      EmptyFromOrdered(g, r, c + 1);
      EmptyFromMembers(g, r, c + 1);
      var rest := EmptyFrom(g, r, c + 1);
      forall j | 0 <= j < |rest|
        ensures Before((r, c), rest[j])
      {
        assert rest[j] in rest;
      }
    }
  }

  /** The list of line 15 holds every empty cell and nothing else. */
  lemma EmptyCellsMembers(g: seq<seq<int>>)
    requires IsGrid(g)
    ensures forall p :: p in EmptyCells(g) <==> p.0 < 4 && p.1 < 4 && g[p.0][p.1] == 0
  {
    var e := EmptyFrom(g, 0, 0);
    assert EmptyCells(g) == e;
    EmptyFromMembers(g, 0, 0);
    forall p: (nat, nat) | p.0 < 4 && p.1 < 4 && g[p.0][p.1] == 0
      ensures p in e
    {
      assert !Before(p, (0, 0));
    }
  }

  /** It lists them in row-major order, so each empty cell once, and
      `evaluate` counts between 0 and 16 of them. */
  lemma EmptyCellsOrdered(g: seq<seq<int>>)
    requires IsGrid(g)
    ensures forall i, j :: 0 <= i < j < |EmptyCells(g)| ==> Before(EmptyCells(g)[i], EmptyCells(g)[j])
    ensures |EmptyCells(g)| <= 16
  {
    EmptyFromOrdered(g, 0, 0);
    EmptyFromLength(g, 0, 0);
  }

  lemma {:induction false} EmptyFromLength(g: seq<seq<int>>, r: nat, c: nat)
    requires IsGrid(g) && r <= 4 && c <= 4
    ensures r < 4 ==> |EmptyFrom(g, r, c)| <= (4 - r) * 4 - c
    ensures r == 4 ==> EmptyFrom(g, r, c) == []
    decreases 4 - r, 4 - c
  {
    if r < 4 && c == 4 {
      EmptyFromLength(g, r + 1, 0);
    } else if r < 4 {
      EmptyFromLength(g, r, c + 1);
    }
  }

  /** The largest element of a non-empty row (Python's `max`). */
  function MaxOf(s: seq<int>): int
    requires |s| > 0
  {
    if |s| == 1 then s[0]
    else var rest := MaxOf(s[1..]); if s[0] >= rest then s[0] else rest
  }

  lemma {:induction false} MaxOfIsMax(s: seq<int>)
    requires |s| > 0
    ensures exists k :: 0 <= k < |s| && s[k] == MaxOf(s)
    ensures forall k :: 0 <= k < |s| ==> s[k] <= MaxOf(s)
  {
    if |s| == 1 {
      assert s[0] == MaxOf(s);
    } else {
      var rest := s[1..];
      MaxOfIsMax(rest);
      var k :| 0 <= k < |rest| && rest[k] == MaxOf(rest);
      if s[0] >= MaxOf(rest) {
        assert s[0] == MaxOf(s);
      } else {
        assert s[k + 1] == MaxOf(s);
      }
      forall i | 0 < i < |s|
        ensures s[i] <= MaxOf(s)
      {
        assert s[i] == rest[i - 1];
      }
    }
  }

  /** `max(max(row) for row in board)`. */
  function MaxTile(g: seq<seq<int>>): int
    requires IsGrid(g)
  {
    MaxOf([MaxOf(g[0]), MaxOf(g[1]), MaxOf(g[2]), MaxOf(g[3])])
  }

  /** The largest tile is a cell of the grid that no cell exceeds. */
  lemma MaxTileIsMax(g: seq<seq<int>>)
    requires IsGrid(g)
    ensures exists r, c :: 0 <= r < 4 && 0 <= c < 4 && g[r][c] == MaxTile(g)
    ensures forall r, c :: 0 <= r < 4 && 0 <= c < 4 ==> g[r][c] <= MaxTile(g)
  {
    var rows := [MaxOf(g[0]), MaxOf(g[1]), MaxOf(g[2]), MaxOf(g[3])];
    MaxOfIsMax(rows);
    MaxOfIsMax(g[0]);
    MaxOfIsMax(g[1]);
    MaxOfIsMax(g[2]);
    MaxOfIsMax(g[3]);
    var r :| 0 <= r < 4 && rows[r] == MaxTile(g);
    assert rows[r] == MaxOf(g[r]);
    var c :| 0 <= c < 4 && g[r][c] == MaxOf(g[r]);
    forall i, j | 0 <= i < 4 && 0 <= j < 4
      ensures g[i][j] <= MaxTile(g)
    {
      assert g[i][j] <= rows[i];
    }
  }

  /** The value `evaluate` returns. */
  function Evaluation(g: seq<seq<int>>): int
    requires IsGrid(g)
  {
    |EmptyCells(g)| * 300 - Roughness(g) + MonotonicityScore(g) + MaxTile(g) * 2
  }

  /** `evaluate`: empty cells, smoothness, monotonicity and largest tile,
      combined with the weights of line 37. */
  method Evaluate(g: seq<seq<int>>) returns (v: int)
    requires IsGrid(g)
    ensures v == Evaluation(g)
  {
    var empty := |EmptyCells(g)|;
    var smooth := Smoothness(g);
    var monotonic := Monotonicity(g);
    var maxTile := MaxTile(g);
    v := empty * 300 + smooth + monotonic + maxTile * 2;
  }

  /** Both penalties are never positive, so a grid scores at most its
      empty-cell bonus plus twice its largest tile, and it reaches that
      bound exactly when both penalties vanish (see `SmoothnessZero` and
      `MonotonicityZero` for the grids where they do). */
  lemma EvaluationBound(g: seq<seq<int>>)
    requires IsGrid(g)
    ensures Evaluation(g) <= |EmptyCells(g)| * 300 + MaxTile(g) * 2
    ensures Evaluation(g) == |EmptyCells(g)| * 300 + MaxTile(g) * 2 <==>
              Roughness(g) == 0 && MonotonicityScore(g) == 0
  {
  }

  // ---------------------------------------------------------------------
  // The spawn probe of findMove (lines 15-21)

  /** The grid held by a 4-by-4 array. */
  function Contents(a: array2<int>): (g: seq<seq<int>>)
    requires a.Length0 == 4 && a.Length1 == 4
    reads a
    ensures IsGrid(g)
    ensures forall r, c :: 0 <= r < 4 && 0 <= c < 4 ==> g[r][c] == a[r, c]
  {
    seq(4, r requires 0 <= r < 4 reads a => seq(4, c requires 0 <= c < 4 reads a => a[r, c]))
  }

  /** `g` with cell `(r, c)` set to `v`. */
  function Put(g: seq<seq<int>>, r: nat, c: nat, v: int): (h: seq<seq<int>>)
    requires IsGrid(g) && r < 4 && c < 4
    ensures IsGrid(h)
  {
    g[r := g[r][c := v]]
  }

  /** Line 17 (and 19, 21): cell `(r, c)` of the grid receives `v`. */
  method SetCell(grid: array2<int>, r: nat, c: nat, v: int)
    requires grid.Length0 == 4 && grid.Length1 == 4 && r < 4 && c < 4
    modifies grid
    ensures Contents(grid) == Put(old(Contents(grid)), r, c, v)
  {
    ghost var before := Contents(grid);
    grid[r, c] := v;
    forall i | 0 <= i < 4
      ensures Contents(grid)[i] == Put(before, r, c, v)[i]
    {
    }
  }

  /** Writing a cell twice keeps only the second value. */
  lemma PutPut(g: seq<seq<int>>, r: nat, c: nat, x: int, y: int)
    requires IsGrid(g) && r < 4 && c < 4
    ensures Put(Put(g, r, c, x), r, c, y) == Put(g, r, c, y)
  {
    assert g[r][c := x][c := y] == g[r][c := y];
  }

  /** Writing its old value back into a cell restores the grid. */
  lemma PutSame(g: seq<seq<int>>, r: nat, c: nat)
    requires IsGrid(g) && r < 4 && c < 4
    ensures Put(g, r, c, g[r][c]) == g
  {
    assert g[r][c := g[r][c]] == g[r];
  }

  /** The two evaluations `findMove` makes for empty cell `p`: with a 2 and
      with a 4 in it. */
  function Probe(g: seq<seq<int>>, p: (nat, nat)): (int, int)
    requires IsGrid(g) && p.0 < 4 && p.1 < 4
  {
    (Evaluation(Put(g, p.0, p.1, 2)), Evaluation(Put(g, p.0, p.1, 4)))
  }

  /** Lines 17-21, for one empty cell: evaluate the grid with a 2 and with
      a 4 in the cell, then clear it, which restores the grid. */
  method ProbeCell(grid: array2<int>, r: nat, c: nat) returns (two: int, four: int)
    requires grid.Length0 == 4 && grid.Length1 == 4 && r < 4 && c < 4
    requires grid[r, c] == 0
    modifies grid
    ensures Contents(grid) == old(Contents(grid))
    ensures (two, four) == Probe(old(Contents(grid)), (r, c))
  {
    ghost var g0 := Contents(grid);
    SetCell(grid, r, c, 2);
    two := Evaluate(Contents(grid));
    SetCell(grid, r, c, 4);
    four := Evaluate(Contents(grid));
    SetCell(grid, r, c, 0);
    PutPut(g0, r, c, 2, 4);
    PutPut(g0, r, c, 4, 0);
    PutSame(g0, r, c);
  }

  /** Cell `p` of `g` is on the grid and empty. */
  predicate IsEmpty(g: seq<seq<int>>, p: (nat, nat))
    requires IsGrid(g)
  {
    p.0 < 4 && p.1 < 4 && g[p.0][p.1] == 0
  }

  predicate OnGrid(cells: seq<(nat, nat)>)
  {
    forall k :: 0 <= k < |cells| ==> cells[k].0 < 4 && cells[k].1 < 4
  }

  lemma EmptyCellsOnGrid(g: seq<seq<int>>)
    requires IsGrid(g)
    ensures OnGrid(EmptyCells(g))
    ensures forall k :: 0 <= k < |EmptyCells(g)| ==> IsEmpty(g, EmptyCells(g)[k])
  {
    var empty := EmptyCells(g);
    EmptyCellsMembers(g);
    forall k | 0 <= k < |empty|
      ensures empty[k].0 < 4 && empty[k].1 < 4 && IsEmpty(g, empty[k])
    {
      assert empty[k] in empty;
    }
  }

  /** The probes of `cells`, in order. */
  function Probes(g: seq<seq<int>>, cells: seq<(nat, nat)>): seq<(int, int)>
    requires IsGrid(g) && OnGrid(cells)
  {
    if cells == [] then [] else Probes(g, cells[..|cells| - 1]) + [Probe(g, cells[|cells| - 1])]
  }

  lemma {:induction false} ProbesAt(g: seq<seq<int>>, cells: seq<(nat, nat)>)
    requires IsGrid(g) && OnGrid(cells)
    ensures |Probes(g, cells)| == |cells|
    ensures forall k :: 0 <= k < |cells| ==> Probes(g, cells)[k] == Probe(g, cells[k])
  {
    if cells != [] {
      var front := cells[..|cells| - 1];
      ProbesAt(g, front);
      var ps := Probes(g, cells);
      assert ps == Probes(g, front) + [Probe(g, cells[|cells| - 1])];
      forall k | 0 <= k < |cells|
        ensures ps[k] == Probe(g, cells[k])
      {
        if k < |front| {
          assert ps[k] == Probes(g, front)[k];
          assert front[k] == cells[k];
        } else {
          assert k == |Probes(g, front)|;
        }
      }
    }
  }

  /** Extending the cells by one extends their probes by one. */
  lemma ProbesSnoc(g: seq<seq<int>>, cells: seq<(nat, nat)>, k: nat)
    requires IsGrid(g) && OnGrid(cells) && k < |cells|
    ensures Probes(g, cells[..k + 1]) == Probes(g, cells[..k]) + [Probe(g, cells[k])]
  {
    assert cells[..k + 1][..k] == cells[..k];
  }

  /** The integer part of the expectimax step of `findMove` (lines 15-21):
      for each empty cell in row-major order, evaluate the grid with a 2 and
      with a 4 in that cell, then clear it.  The evaluations are returned in
      order (`ProbesAt`); the grid ends as it began. */
  method ProbeSpawns(grid: array2<int>) returns (probes: seq<(int, int)>)
    requires grid.Length0 == 4 && grid.Length1 == 4
    modifies grid
    ensures Contents(grid) == old(Contents(grid))
    ensures OnGrid(EmptyCells(old(Contents(grid))))
    ensures probes == Probes(old(Contents(grid)), EmptyCells(old(Contents(grid))))
  {
    ghost var g0 := Contents(grid);
    var empty := EmptyCells(Contents(grid));
    EmptyCellsOnGrid(g0);
    probes := [];
    for k := 0 to |empty|
      invariant Contents(grid) == g0
      invariant probes == Probes(g0, empty[..k])
    {
      var (r, c) := empty[k];
      assert (r, c) == empty[k] && IsEmpty(g0, empty[k]);
      var two, four := ProbeCell(grid, r, c);
      ProbesSnoc(g0, empty, k);
      probes := probes + [(two, four)];
    }
    assert empty[..|empty|] == empty;
  }
}
