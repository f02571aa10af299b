/** The game engine, class `Game2048` of Game2048.py: a flat 16-cell board
    of exponents and a running score, updated in place by `move` and
    `addRandomTile`.  The random choices of `addRandomTile` (which empty
    cell, and a 1 or a 2) are nondeterministic choices here. */
module Game {
  import opened Tiles
  import opened Lines
  import opened Board

  datatype Option<T> = None | Some(value: T)

  /** The moves `actions` offers, in its order (line 14). */
  function Actions(): (moves: seq<Direction>)
    ensures |moves| == 4
  {
    [Up, Down, Left, Right]
  }

  /** Every direction is among the moves of `actions`. */
  lemma ActionsCoverDirections(d: Direction)
    ensures d in Actions()
  {
    match d
    case Up => assert Actions()[0] == Up;
    case Down => assert Actions()[1] == Down;
    case Left => assert Actions()[2] == Left;
    case Right => assert Actions()[3] == Right;
  }

  /** Extending by one the prefix of `ds` whose moves leave `b` unchanged. */
  lemma UnmovedPrefix(b: seq<nat>, ds: seq<Direction>, m: nat)
    requires |b| == 16 && m < |ds|
    requires forall n :: 0 <= n < m ==> Unmoved(b, ds[n])
    requires Unmoved(b, ds[m])
    ensures forall n :: 0 <= n < m + 1 ==> Unmoved(b, ds[n])
  {
  }

  /** A full board that none of the moves of `actions` changes is stuck. */
  lemma StuckByActions(b: seq<nat>)
    requires |b| == 16 && Full(b)
    requires forall n :: 0 <= n < 4 ==> Unmoved(b, Actions()[n])
    ensures Stuck(b)
  {
    forall d: Direction
      ensures Afterstate(b, d) == b
    {
      ActionsCoverDirections(d);
    }
  }

  /** Lines 32-37: the non-empty values of line `i`, in traversal order. */
  method GatherLine(vals: array<nat>, d: Direction, i: nat) returns (line: seq<nat>)
    requires vals.Length == 16 && i < 4
    ensures line == Compact(LineAt(vals[..], d, i))
  {
    ghost var whole := LineAt(vals[..], d, i);
    line := [];
    for j := 0 to 4
      invariant line == Compact(whole[..j])
    {
      var idx := if Horizontal(d) then i * 4 + j else j * 4 + i;
      var val := vals[idx];
      assert whole[..j + 1][..j] == whole[..j] && whole[j] == val;
      if val != 0 {
        line := line + [val];
      }
    }
    assert whole[..4] == whole;
  }

  /** Lines 42-53: the merge pass with its `skip` flag. */
  method MergePass(line: seq<nat>) returns (merged: seq<nat>, score: nat)
    ensures merged == Merge(line)
    ensures score == MergeScore(line)
  {
    merged := [];
    score := 0;
    var skip := false;
    ghost var done := 0;
    for k := 0 to |line|
      invariant done == if skip then k + 1 else k
      invariant done <= |line|
      invariant merged + MergeFrom(line, done) == MergeFrom(line, 0)
      invariant score + MergeScoreFrom(line, done) == MergeScoreFrom(line, 0)
    {
      if skip {
        skip := false;
        continue;
      }
      if k + 1 < |line| && line[k] == line[k + 1] {
        assert merged + MergeFrom(line, k) == (merged + [line[k] * 2]) + MergeFrom(line, k + 2);
        merged := merged + [line[k] * 2];
        score := score + line[k] * 2;
        skip := true;
        done := k + 2;
      } else {
        assert merged + MergeFrom(line, k) == (merged + [line[k]]) + MergeFrom(line, k + 1);
        merged := merged + [line[k]];
        done := k + 1;
      }
    }
    assert merged == MergeFrom(line, 0);
    MergeFromSuffix(line, 0);
    assert line[0..] == line;
  }

  /** Lines 55-56: `merged.append(0)` until the line has four cells. */
  method PadLine(merged: seq<nat>) returns (padded: seq<nat>)
    ensures padded == Pad(merged, 4)
  {
    padded := merged;
    while |padded| < 4
      invariant |merged| <= |padded|
      invariant |padded| == |merged| || |padded| <= 4
      invariant padded == merged + Zeros(|padded| - |merged|)
      decreases 4 - |padded|
    {
      assert Zeros(|padded| - |merged|) + [0] == Zeros(|padded| + 1 - |merged|);
      padded := padded + [0];
    }
    if |merged| >= 4 {
      assert merged + Zeros(0) == merged;
    }
  }

  /** The board `v` with line `i` replaced by `line`. */
  function WriteLine(v: seq<nat>, d: Direction, i: nat, line: seq<nat>): (r: seq<nat>)
    requires |v| == 16 && i < 4 && |line| == 4
    ensures |r| == 16
  {
    seq(16, idx requires 0 <= idx < 16 => if LineOf(d, idx) == i then line[PosOf(d, idx)] else v[idx])
  }

  /** The value board `v0` after its first `n` lines have been processed. */
  function SlidPrefix(v0: seq<nat>, d: Direction, n: nat): (r: seq<nat>)
    requires |v0| == 16 && n <= 4
    ensures |r| == 16
  {
    if n == 0 then v0
    else WriteLine(SlidPrefix(v0, d, n - 1), d, n - 1, SlideLine(LineAt(v0, d, n - 1), Reversed(d)))
  }

  /** After `n` lines, the cells of those lines hold the slid board and the
      others still hold `v0`. */
  lemma {:induction false} SlidPrefixAt(v0: seq<nat>, d: Direction, n: nat, idx: nat)
    requires |v0| == 16 && n <= 4 && idx < 16
    ensures SlidPrefix(v0, d, n)[idx] == if LineOf(d, idx) < n then SlideValues(v0, d)[idx] else v0[idx]
  {
    if n > 0 {
      SlidPrefixAt(v0, d, n - 1, idx);
      var prev, line := SlidPrefix(v0, d, n - 1), SlideLine(LineAt(v0, d, n - 1), Reversed(d));
      assert SlidPrefix(v0, d, n)[idx] == if LineOf(d, idx) == n - 1 then line[PosOf(d, idx)] else prev[idx];
    }
  }

  /** Line `i` still reads as in `v0` once the lines before it are done, so
      processing it extends the prefix by one line. */
  lemma SlidPrefixLine(v0: seq<nat>, d: Direction, i: nat)
    requires |v0| == 16 && i < 4
    ensures LineAt(SlidPrefix(v0, d, i), d, i) == LineAt(v0, d, i)
    ensures SlidPrefix(v0, d, i + 1) ==
              WriteLine(SlidPrefix(v0, d, i), d, i, SlideLine(LineAt(SlidPrefix(v0, d, i), d, i), Reversed(d)))
  {
    CellCoordinates(d);
    forall j | 0 <= j < 4
      ensures SlidPrefix(v0, d, i)[Cell(d, i, j)] == v0[Cell(d, i, j)]
    {
      SlidPrefixAt(v0, d, i, Cell(d, i, j));
    }
  }

  /** Once all four lines are done, the board is the slid board. */
  lemma SlidPrefixAll(v0: seq<nat>, d: Direction)
    requires |v0| == 16
    ensures SlidPrefix(v0, d, 4) == SlideValues(v0, d)
  {
    forall idx | 0 <= idx < 16
      ensures SlidPrefix(v0, d, 4)[idx] == SlideValues(v0, d)[idx]
    {
      SlidPrefixAt(v0, d, 4, idx);
    }
  }

  /** One pass of the loop of lines 31-63: line `i` of the value board is
      gathered, oriented, merged, padded, oriented back and written back;
      no other cell changes, so the first `i + 1` lines are now done. */
  method ProcessLine(vals: array<nat>, d: Direction, i: nat, ghost v0: seq<nat>) returns (lineScore: nat)
    requires vals.Length == 16 && |v0| == 16 && i < 4
    requires vals[..] == SlidPrefix(v0, d, i)
    modifies vals
    ensures vals[..] == SlidPrefix(v0, d, i + 1)
    ensures lineScore == LineScore(LineAt(v0, d, i), Reversed(d))
  {
    SlidPrefixLine(v0, d, i);
    var line := GatherLine(vals, d, i);
    if Reversed(d) {
      line := Reverse(line);
    }
    var merged, s := MergePass(line);
    merged := PadLine(merged);
    if Reversed(d) {
      merged := Reverse(merged);
    }
    assert merged == SlideLine(LineAt(vals[..], d, i), Reversed(d));
    WriteBack(vals, d, i, merged);
    lineScore := s;
  }

  /** Lines 58-63: cell `j` of line `i` receives `line[j]`. */
  method WriteBack(vals: array<nat>, d: Direction, i: nat, line: seq<nat>)
    requires vals.Length == 16 && i < 4 && |line| == 4
    modifies vals
    ensures vals[..] == WriteLine(old(vals[..]), d, i, line)
  {
    CellCoordinates(d);
    for j := 0 to 4
      invariant forall idx :: 0 <= idx < 16 ==>
                  vals[idx] == if LineOf(d, idx) == i && PosOf(d, idx) < j then line[PosOf(d, idx)] else old(vals[idx])
    {
      var idx := if Horizontal(d) then i * 4 + j else j * 4 + i;
      vals[idx] := line[j];
    }
    assert vals[..] == WriteLine(old(vals[..]), d, i, line);
  }

  /** Lines 31-63: every line of the value board is processed in turn;
      lines are disjoint, so each one is read before any of its cells is
      written. */
  method SlideBoard(vals: array<nat>, d: Direction) returns (s: nat)
    requires vals.Length == 16
    modifies vals
    ensures vals[..] == SlidPrefix(old(vals[..]), d, 4)
    ensures s == LinesScore(old(vals[..]), d, 4)
  {
    ghost var v0 := vals[..];
    s := 0;
    for i := 0 to 4
      invariant vals[..] == SlidPrefix(v0, d, i)
      invariant s == LinesScore(v0, d, i)
    {
      var lineScore := ProcessLine(vals, d, i, v0);
      s := s + lineScore;
    }
  }

  /** Lines 28-63 of `move`: the tile values of the board, in a fresh array,
      slid and merged in direction `d`; its exponents are the afterstate. */
  method SlideExponents(cells: seq<nat>, d: Direction) returns (vals: array<nat>, s: nat)
    requires |cells| == 16
    ensures fresh(vals) && vals.Length == 16
    ensures Exponents(vals[..]) == Afterstate(cells, d)
    ensures s == MoveScore(cells, d)
  {
    vals := new nat[16](k requires 0 <= k < 16 => if cells[k] > 0 then Pow2(cells[k]) else 0);
    assert vals[..] == Values(cells);
    s := SlideBoard(vals, d);
    SlidPrefixAll(Values(cells), d);
  }

  class Game2048 {
    /** `_board`: exponents, 0 for an empty cell. */
    var board: array<nat>
    /** `_score`. */
    var score: nat

    ghost predicate Valid()
      reads this
    {
      board.Length == 16
    }

    /** `Game2048()`: an empty board, score 0, and two random tiles. */
    constructor ()
      ensures Valid() && fresh(board) && score == 0
      ensures exists first :: SpawnedFrom(Zeros(16), first) && SpawnedFrom(first, board[..])
    {
      board := new nat[16](_ => 0);
      score := 0;
      new;
      assert board[..] == Zeros(16);
      Randomize();
    }

    /** Two calls of `addRandomTile` (lines 9-11). */
    method Randomize()
      requires Valid()
      modifies board
      ensures exists first :: SpawnedFrom(old(board[..]), first) && SpawnedFrom(first, board[..])
    {
      ghost var history := [board[..]];
      for t := 0 to 2
        invariant |history| == t + 1
        invariant history[0] == old(board[..]) && history[t] == board[..]
        invariant forall u :: 0 <= u < t ==> SpawnedFrom(history[u], history[u + 1])
      {
        AddRandomTile();
        history := history + [board[..]];
      }
      assert SpawnedFrom(history[0], history[1]) && SpawnedFrom(history[1], history[2]);
    }

    /** The indices of the empty cells, in increasing order (line 83). */
    method Empties() returns (empties: seq<nat>)
      requires Valid()
      ensures forall k: nat :: k in empties <==> k < 16 && board[k] == 0
      ensures forall m, n :: 0 <= m < n < |empties| ==> empties[m] < empties[n]
    {
      empties := [];
      for i := 0 to 16
        invariant forall k: nat :: k in empties <==> k < i && board[k] == 0
        invariant forall m, n :: 0 <= m < n < |empties| ==> empties[m] < empties[n]
        invariant forall m :: 0 <= m < |empties| ==> empties[m] < i
      {
        if board[i] == 0 {
          empties := empties + [i];
        }
      }
    }

    /** `addRandomTile` (lines 82-87): nothing on a full board, otherwise one
        empty cell, chosen freely, receives a 1 or a 2. */
    method AddRandomTile()
      requires Valid()
      modifies board
      ensures SpawnedFrom(old(board[..]), board[..])
    {
      var empties := Empties();
      if |empties| == 0 {
        assert Full(board[..]);
        return;
      }
      assert empties[0] in empties;
      var idx :| idx in empties;
      var tile: nat :| tile in {1, 2};
      board[idx] := tile;
      assert board[..] == old(board[..])[idx := tile];
    }

    /** Lines 65-71: write back the exponent of every value that differs
        from the board, and report whether any did. */
    method StoreExponents(vals: array<nat>) returns (changed: bool)
      requires Valid() && vals.Length == 16 && vals != board
      modifies board
      ensures board[..] == Exponents(vals[..])
      ensures changed <==> Exponents(vals[..]) != old(board[..])
    {
      ghost var target := Exponents(vals[..]);
      changed := false;
      for i := 0 to 16
        invariant forall k :: 0 <= k < i ==> board[k] == target[k]
        invariant forall k :: i <= k < 16 ==> board[k] == old(board[k])
        invariant changed <==> exists k :: 0 <= k < i && target[k] != old(board[k])
      {
        var val := vals[i];
        var exp := if val > 0 then BitLength(val) - 1 else 0;
        if exp != board[i] {
          board[i] := exp;
          changed := true;
        }
      }
      assert board[..] == target;
    }

    /** `move` (lines 27-77): slide and merge every line, write back the
        exponents, and, if some cell changed, add the points to the score and
        spawn a tile.  Returns the points of the move either way. */
    method Move(d: Direction) returns (s: nat)
      requires Valid()
      modifies this, board
      ensures Valid() && board == old(board)
      ensures s == MoveScore(old(board[..]), d)
      ensures Afterstate(old(board[..]), d) == old(board[..]) ==>
                board[..] == old(board[..]) && score == old(score)
      ensures Afterstate(old(board[..]), d) != old(board[..]) ==>
                score == old(score) + s && SpawnedFrom(Afterstate(old(board[..]), d), board[..])
    {
      var vals;
      vals, s := SlideExponents(board[..], d);
      var changed := StoreExponents(vals);
      if changed {
        score := score + s;
        AddRandomTile();
      }
    }

    /** `clone` (lines 21-25): a new game whose board and score are copies.
        The two random tiles of the new game's constructor are overwritten. */
    method Clone() returns (copy: Game2048)
      requires Valid()
      ensures fresh(copy) && fresh(copy.board) && copy.Valid()
      ensures copy.board[..] == board[..] && copy.score == score
    {
      copy := new Game2048();
      var contents := board[..];
      copy.board := new nat[16](k requires 0 <= k < 16 => contents[k]);
      copy.score := score;
    }

    /** `result` (lines 16-19): move a clone, leaving this game untouched. */
    method Result(d: Direction) returns (child: Game2048, s: nat)
      requires Valid()
      ensures fresh(child) && fresh(child.board) && child.Valid()
      ensures s == MoveScore(board[..], d)
      ensures Afterstate(board[..], d) == board[..] ==>
                child.board[..] == board[..] && child.score == score
      ensures Afterstate(board[..], d) != board[..] ==>
                child.score == score + s && SpawnedFrom(Afterstate(board[..], d), child.board[..])
    {
      child := Clone();
      s := child.Move(d);
    }

    /** `gameOver` (lines 89-96): false while a cell is empty, otherwise
        true exactly when no move's child differs from this board. */
    method GameOver() returns (over: bool)
      requires Valid()
      ensures over == Stuck(board[..])
    {
      ghost var b := board[..];
      if 0 in board[..] {
        return false;
      }
      assert Full(b);
      var moves := Actions();
      for m := 0 to |moves|
        invariant board[..] == b
        invariant forall n :: 0 <= n < m ==> Unmoved(b, moves[n])
      {
        var differs := ChildDiffers(moves[m]);
        if differs {
          return false;
        }
        UnmovedPrefix(b, moves, m);
      }
      StuckByActions(b);
      return true;
    }

    /** The test inside the loop of `gameOver` (lines 93-95): on a full
        board, the child for `d` differs from this board exactly when the
        move changes some cell, whichever tile the child spawned. */
    method ChildDiffers(d: Direction) returns (differs: bool)
      requires Valid() && Full(board[..])
      ensures differs <==> !Unmoved(board[..], d)
    {
      var child, _ := Result(d);
      SpawnKeepsChange(board[..], d, child.board[..]);
      differs := child.board[..] != board[..];
    }

    /** `getTile` (line 80): `_board[r * 4 + c]` with Python's list
        indexing, where a negative index counts from the end and any other
        index outside the board raises an IndexError (`None`). */
    function GetTile(r: int, c: int): (t: Option<nat>)
      requires Valid()
      reads this, board
      ensures 0 <= r < 4 && 0 <= c < 4 ==> t == Some(Tile(board[..], r, c))
      ensures t == None <==> r * 4 + c < -16 || 16 <= r * 4 + c
    {
      var idx := r * 4 + c;
      if 0 <= idx < 16 then Some(board[idx])
      else if -16 <= idx < 0 then Some(board[idx + 16])
      else None
    }
  }
}
