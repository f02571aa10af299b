/** One row or column of a 2048 move, on tile values (Game2048.py lines
    32-59): gather the non-empty tiles, orient them (reversed for Right and
    Down), run the single left-to-right merge pass, pad with empties to four
    cells and orient back. */
module Lines {
  import opened Tiles

  /** Sum of tile values. */
  function Sum(s: seq<nat>): nat
  {
    if s == [] then 0 else s[0] + Sum(s[1..])
  }

  lemma {:induction false} SumAppend(a: seq<nat>, b: seq<nat>)
    ensures Sum(a + b) == Sum(a) + Sum(b)
  {
    if a != [] {
      assert (a + b)[1..] == a[1..] + b;
      SumAppend(a[1..], b);
    } else {
      assert a + b == b;
    }
  }

  predicate AllPositive(s: seq<nat>)
  {
    forall k :: 0 <= k < |s| ==> s[k] > 0
  }

  /** No two neighbouring entries are equal. */
  predicate NoAdjacentEqual(s: seq<nat>)
  {
    forall k :: 0 <= k < |s| - 1 ==> s[k] != s[k + 1]
  }

  /** The non-empty tiles of a line in traversal order (lines 32-37). */
  function Compact(s: seq<nat>): (r: seq<nat>)
    ensures |r| <= |s|
    ensures AllPositive(r)
  {
    if s == [] then []
    else Compact(s[..|s| - 1]) + (if s[|s| - 1] != 0 then [s[|s| - 1]] else [])
  }

  lemma {:induction false} CompactAppend(a: seq<nat>, b: seq<nat>)
    ensures Compact(a + b) == Compact(a) + Compact(b)
  {
    if b != [] {
      assert (a + b)[..|a + b| - 1] == a + b[..|b| - 1];
      CompactAppend(a, b[..|b| - 1]);
    } else {
      assert a + b == a;
    }
  }

  /** Removing empty cells leaves a line without empties unchanged. */
  lemma {:induction false} CompactOfPositive(s: seq<nat>)
    requires AllPositive(s)
    ensures Compact(s) == s
  {
    if s != [] {
      CompactOfPositive(s[..|s| - 1]);
      assert s[..|s| - 1] + [s[|s| - 1]] == s;
    }
  }

  /** Removing empty cells keeps the total value. */
  lemma {:induction false} CompactSum(s: seq<nat>)
    ensures Sum(Compact(s)) == Sum(s)
  {
    if s != [] {
      var x := s[|s| - 1];
      CompactSum(s[..|s| - 1]);
      SumAppend(Compact(s[..|s| - 1]), if x != 0 then [x] else []);
      SumAppend(s[..|s| - 1], [x]);
      assert s[..|s| - 1] + [x] == s;
    }
  }

  function Zeros(n: nat): (r: seq<nat>)
    ensures |r| == n
  {
    seq(n, _ => 0)
  }

  lemma {:induction false} CompactZeros(n: nat)
    ensures Compact(Zeros(n)) == []
  {
    if n > 0 {
      assert Zeros(n)[..n - 1] == Zeros(n - 1);
      CompactZeros(n - 1);
    }
  }

  lemma {:induction false} SumZeros(n: nat)
    ensures Sum(Zeros(n)) == 0
  {
    if n > 0 {
      assert Zeros(n)[1..] == Zeros(n - 1);
      SumZeros(n - 1);
    }
  }

  /** `list.reverse()`. */
  function Reverse(s: seq<nat>): (r: seq<nat>)
    ensures |r| == |s|
  {
    if s == [] then [] else Reverse(s[1..]) + [s[0]]
  }

  /** Element `k` of the reversal is element `|s| - 1 - k` of `s`. */
  lemma {:induction false} ReverseAt(s: seq<nat>, k: nat)
    requires k < |s|
    ensures Reverse(s)[k] == s[|s| - 1 - k]
  {
    if k < |s| - 1 {
      ReverseAt(s[1..], k);
    }
  }

  lemma ReverseIndices(s: seq<nat>)
    ensures forall k :: 0 <= k < |s| ==> Reverse(s)[k] == s[|s| - 1 - k]
  {
    forall k | 0 <= k < |s|
      ensures Reverse(s)[k] == s[|s| - 1 - k]
    {
      ReverseAt(s, k);
    }
  }

  lemma ReverseReverse(s: seq<nat>)
    ensures Reverse(Reverse(s)) == s
  {
    ReverseIndices(s);
    ReverseIndices(Reverse(s));
  }

  lemma {:induction false} ReverseSum(s: seq<nat>)
    ensures Sum(Reverse(s)) == Sum(s)
  {
    if s != [] {
      ReverseSum(s[1..]);
      SumAppend(Reverse(s[1..]), [s[0]]);
    }
  }

  lemma ReverseAppend(a: seq<nat>, b: seq<nat>)
    ensures Reverse(a + b) == Reverse(b) + Reverse(a)
  {
    ReverseIndices(a + b);
    ReverseIndices(a);
    ReverseIndices(b);
  }

  lemma {:induction false} CompactReverse(s: seq<nat>)
    ensures Compact(Reverse(s)) == Reverse(Compact(s))
  {
    if s != [] {
      var init, x := s[..|s| - 1], s[|s| - 1];
      assert s == init + [x];
      ReverseAppend(init, [x]);
      CompactAppend([x], Reverse(init));
      CompactAppend(Compact([]), [x]);
      CompactReverse(init);
      ReverseAppend(Compact(init), if x != 0 then [x] else []);
    }
  }

  lemma ReverseKeepsNoAdjacentEqual(s: seq<nat>)
    requires NoAdjacentEqual(s)
    ensures NoAdjacentEqual(Reverse(s))
  {
    var r := Reverse(s);
    ReverseIndices(s);
    forall k | 0 <= k < |r| - 1
      ensures r[k] != r[k + 1]
    {
      assert r[k] == s[|s| - 1 - k] && r[k + 1] == s[|s| - 1 - (k + 1)];
    }
  }

  /** The merge pass of lines 42-53: scanning left to right, a tile equal to
      its right neighbour merges with it into one tile of twice the value
      and the neighbour is skipped, so no tile merges twice. */
  function Merge(s: seq<nat>): (r: seq<nat>)
    ensures |r| <= |s| <= 2 * |r|
    ensures AllPositive(s) ==> AllPositive(r)
  {
    if |s| >= 2 && s[0] == s[1] then [2 * s[0]] + Merge(s[2..])
    else if |s| >= 1 then [s[0]] + Merge(s[1..])
    else []
  }

  /** The pass started at position `k`, as the loop of lines 44-53 walks it
      by index. */
  function MergeFrom(s: seq<nat>, k: nat): seq<nat>
    requires k <= |s|
    decreases |s| - k
  {
    if k + 1 < |s| && s[k] == s[k + 1] then [2 * s[k]] + MergeFrom(s, k + 2)
    else if k < |s| then [s[k]] + MergeFrom(s, k + 1)
    else []
  }

  function MergeScoreFrom(s: seq<nat>, k: nat): nat
    requires k <= |s|
    decreases |s| - k
  {
    if k + 1 < |s| && s[k] == s[k + 1] then 2 * s[k] + MergeScoreFrom(s, k + 2)
    else if k < |s| then MergeScoreFrom(s, k + 1)
    else 0
  }

  /** Walking by index computes the pass on the rest of the line. */
  lemma {:induction false} MergeFromSuffix(s: seq<nat>, k: nat)
    requires k <= |s|
    ensures MergeFrom(s, k) == Merge(s[k..])
    ensures MergeScoreFrom(s, k) == MergeScore(s[k..])
    decreases |s| - k
  {
    var t := s[k..];
    if k + 1 < |s| && s[k] == s[k + 1] {
      MergeFromSuffix(s, k + 2);
      assert t[2..] == s[k + 2..];
    } else if k < |s| {
      MergeFromSuffix(s, k + 1);
      assert t[1..] == s[k + 1..];
    }
  }

  /** The points that pass scores (line 50): the value of every merged tile. */
  function MergeScore(s: seq<nat>): nat
  {
    if |s| >= 2 && s[0] == s[1] then 2 * s[0] + MergeScore(s[2..])
    else if |s| >= 1 then MergeScore(s[1..])
    else 0
  }

  /** The tiles that a pass creates by merging, left to right. */
  function Created(s: seq<nat>): seq<nat>
  {
    if |s| >= 2 && s[0] == s[1] then [2 * s[0]] + Created(s[2..])
    else if |s| >= 1 then Created(s[1..])
    else []
  }

  /** The tiles that a pass leaves as they are, left to right. */
  function Kept(s: seq<nat>): seq<nat>
  {
    if |s| >= 2 && s[0] == s[1] then Kept(s[2..])
    else if |s| >= 1 then [s[0]] + Kept(s[1..])
    else []
  }

  /** Every tile of a pass is either kept or created by a merge, and one
      merge consumes two input tiles. */
  lemma {:induction false} MergeTiles(s: seq<nat>)
    ensures multiset(Merge(s)) == multiset(Kept(s)) + multiset(Created(s))
    ensures |s| == |Kept(s)| + 2 * |Created(s)|
  {
    if |s| >= 2 && s[0] == s[1] {
      MergeTiles(s[2..]);
    } else if |s| >= 1 {
      MergeTiles(s[1..]);
    }
  }

  /** The score of a pass is the value of the tiles it creates. */
  lemma {:induction false} MergeScoreIsCreatedValue(s: seq<nat>)
    ensures MergeScore(s) == Sum(Created(s))
  {
    if |s| >= 2 && s[0] == s[1] {
      MergeScoreIsCreatedValue(s[2..]);
    } else if |s| >= 1 {
      MergeScoreIsCreatedValue(s[1..]);
    }
  }

  /** A pass conserves the value of the line: what is not kept is scored. */
  lemma {:induction false} MergeConservesValue(s: seq<nat>)
    ensures Sum(Merge(s)) == Sum(s)
    ensures Sum(s) == Sum(Kept(s)) + MergeScore(s)
  {
    if |s| >= 2 && s[0] == s[1] {
      MergeConservesValue(s[2..]);
      assert s[2..] == s[1..][1..];
    } else if |s| >= 1 {
      MergeConservesValue(s[1..]);
    }
  }

  /** A pass changes nothing exactly when no two neighbours are equal; a
      pass that merges makes the line strictly shorter and scores. */
  lemma {:induction false} MergeIdentity(s: seq<nat>)
    requires AllPositive(s)
    ensures NoAdjacentEqual(s) ==> Merge(s) == s && MergeScore(s) == 0
    ensures !NoAdjacentEqual(s) ==> |Merge(s)| < |s| && MergeScore(s) > 0
  {
    if |s| >= 2 && s[0] == s[1] {
      assert !NoAdjacentEqual(s);
    } else if |s| >= 1 {
      MergeIdentity(s[1..]);
      if NoAdjacentEqual(s) {
        assert NoAdjacentEqual(s[1..]);
        assert s == [s[0]] + s[1..];
      } else {
        var k :| 0 <= k < |s| - 1 && s[k] == s[k + 1];
        assert k > 0;
        assert s[1..][k - 1] == s[1..][k];
      }
    }
  }

  /** Where the first equal pair of a line starts, the pass has written a
      merged tile of twice the value, after an unchanged prefix. */
  lemma {:induction false} MergeFirstPair(s: seq<nat>, k: nat)
    requires k + 1 < |s| && s[k] == s[k + 1]
    requires forall i :: 0 <= i < k ==> s[i] != s[i + 1]
    ensures k < |Merge(s)| && Merge(s)[k] == 2 * s[k]
  {
    if k > 0 {
      MergeFirstPair(s[1..], k - 1);
    }
  }

  /** `merged.append(0)` until the line has `n` cells (lines 55-56). */
  function Pad(s: seq<nat>, n: nat): (r: seq<nat>)
    ensures |s| <= n ==> |r| == n
    ensures |s| > n ==> r == s
  {
    if |s| >= n then s else s + Zeros(n - |s|)
  }

  function Orient(s: seq<nat>, rev: bool): (r: seq<nat>)
    ensures |r| == |s|
  {
    if rev then Reverse(s) else s
  }

  /** One line of `move`, on tile values (lines 32-59). */
  function SlideLine(line: seq<nat>, rev: bool): (r: seq<nat>)
    requires |line| == 4
    ensures |r| == 4
  {
    Orient(Pad(Merge(Orient(Compact(line), rev)), 4), rev)
  }

  /** The points one line of `move` adds to `score` (line 50). */
  function LineScore(line: seq<nat>, rev: bool): nat
  {
    MergeScore(Orient(Compact(line), rev))
  }

  lemma OrientSum(s: seq<nat>, rev: bool)
    ensures Sum(Orient(s, rev)) == Sum(s)
  {
    if rev { ReverseSum(s); }
  }

  lemma OrientCompact(s: seq<nat>, rev: bool)
    ensures Compact(Orient(s, rev)) == Orient(Compact(s), rev)
  {
    if rev { CompactReverse(s); }
  }

  lemma PadSum(m: seq<nat>)
    requires |m| <= 4
    ensures Sum(Pad(m, 4)) == Sum(m)
  {
    SumAppend(m, Zeros(4 - |m|));
    SumZeros(4 - |m|);
  }

  lemma PadCompact(m: seq<nat>)
    requires |m| <= 4 && AllPositive(m)
    ensures Compact(Pad(m, 4)) == m
  {
    CompactOfPositive(m);
    if |m| < 4 {
      var z := Zeros(4 - |m|);
      assert Pad(m, 4) == m + z;
      CompactAppend(m, z);
      CompactZeros(4 - |m|);
      assert m + [] == m;
    }
  }

  /** A processed line keeps the total value of the input line. */
  lemma SlideLineConservesValue(line: seq<nat>, rev: bool)
    requires |line| == 4
    ensures Sum(SlideLine(line, rev)) == Sum(line)
  {
    var c := Orient(Compact(line), rev);
    var m := Merge(c);
    CompactSum(line);
    OrientSum(Compact(line), rev);
    MergeConservesValue(c);
    PadSum(m);
    OrientSum(Pad(m, 4), rev);
  }

  /** A processed line holds no more tiles than the input line: exactly the
      tiles of the merge pass, in the line's orientation. */
  lemma SlideLineTiles(line: seq<nat>, rev: bool)
    requires |line| == 4
    ensures Compact(SlideLine(line, rev)) == Orient(Merge(Orient(Compact(line), rev)), rev)
    ensures |Compact(SlideLine(line, rev))| <= |Compact(line)|
  {
    ReverseIndices(Compact(line));
    var m := Merge(Orient(Compact(line), rev));
    PadCompact(m);
    OrientCompact(Pad(m, 4), rev);
  }

  /** The tiles of a processed line are packed at its start (Left/Up) or at
      its end (Right/Down). */
  lemma SlideLinePacked(line: seq<nat>, rev: bool)
    requires |line| == 4
    ensures !rev ==> forall j, k :: 0 <= j < k < 4 && SlideLine(line, rev)[j] == 0 ==> SlideLine(line, rev)[k] == 0
    ensures rev ==> forall j, k :: 0 <= j < k < 4 && SlideLine(line, rev)[k] == 0 ==> SlideLine(line, rev)[j] == 0
  {
    ReverseIndices(Compact(line));
    var m := Merge(Orient(Compact(line), rev));
    var p := Pad(m, 4);
    assert forall k :: 0 <= k < 4 ==> (p[k] == 0 <==> k >= |m|);
    ReverseIndices(p);
  }

  /** A full line is left as it is exactly when no two neighbours are
      equal; otherwise some cell receives twice its old value. */
  lemma SlideFullLine(line: seq<nat>, rev: bool)
    requires |line| == 4 && AllPositive(line)
    ensures NoAdjacentEqual(line) ==> SlideLine(line, rev) == line
    ensures !NoAdjacentEqual(line) ==> exists j :: 0 <= j < 4 && SlideLine(line, rev)[j] == 2 * line[j]
  {
    CompactOfPositive(line);
    ReverseIndices(line);
    var c := Orient(line, rev);
    assert AllPositive(c);
    if NoAdjacentEqual(line) {
      if rev {
        ReverseKeepsNoAdjacentEqual(line);
        ReverseReverse(line);
      }
      MergeIdentity(c);
    } else {
      var k0 :| 0 <= k0 < 3 && line[k0] == line[k0 + 1];
      if rev {
        assert c[2 - k0] == c[3 - k0];
      }
      var k := FirstPair(c);
      MergeFirstPair(c, k);
      var p := Pad(Merge(c), 4);
      assert p[k] == 2 * c[k];
      ReverseIndices(p);
      if rev {
        assert SlideLine(line, rev)[3 - k] == p[k];
        assert line[3 - k] == c[k];
      } else {
        assert SlideLine(line, rev)[k] == 2 * line[k];
      }
    }
  }

  /** The index of the first pair of equal neighbours. */
  lemma FirstPair(s: seq<nat>) returns (k: nat)
    requires !NoAdjacentEqual(s)
    ensures k + 1 < |s| && s[k] == s[k + 1]
    ensures forall i :: 0 <= i < k ==> s[i] != s[i + 1]
  {
    k := 0;
    while s[k] != s[k + 1]
      invariant k + 1 < |s|
      invariant forall i :: 0 <= i < k ==> s[i] != s[i + 1]
      decreases |s| - k
    {
      k := k + 1;
      if k + 1 >= |s| {
        assert NoAdjacentEqual(s);
        assert false;
      }
    }
  }

  // ---- exponent-level reference ----

  function Values(s: seq<nat>): (r: seq<nat>)
    ensures |r| == |s|
  {
    seq(|s|, k requires 0 <= k < |s| => ToValue(s[k]))
  }

  function Exponents(s: seq<nat>): (r: seq<nat>)
    ensures |r| == |s|
  {
    seq(|s|, k requires 0 <= k < |s| => ToExponent(s[k]))
  }

  /** The merge pass stated directly on exponents: two tiles of exponent `v`
      become one tile of exponent `v + 1`, worth `2^(v+1)` points. */
  function ExponentMerge(s: seq<nat>): (seq<nat>, nat)
  {
    if |s| >= 2 && s[0] == s[1] then
      var rest := ExponentMerge(s[2..]);
      ([s[0] + 1] + rest.0, ToValue(s[0] + 1) + rest.1)
    else if |s| >= 1 then
      var rest := ExponentMerge(s[1..]);
      ([s[0]] + rest.0, rest.1)
    else ([], 0)
  }

  lemma ExponentsCons(x: nat, r: seq<nat>)
    ensures Exponents([x] + r) == [ToExponent(x)] + Exponents(r)
  {
  }

  /** The value-level pass followed by `bit_length` agrees with the
      exponent-level merge on a line of tiles. */
  lemma {:induction false} MergeInExponents(s: seq<nat>)
    requires AllPositive(s)
    ensures Exponents(Merge(Values(s))) == ExponentMerge(s).0
    ensures MergeScore(Values(s)) == ExponentMerge(s).1
  {
    if |s| >= 2 && s[0] == s[1] {
      MergeInExponents(s[2..]);
      PairInExponents(s);
    } else if |s| >= 1 {
      MergeInExponents(s[1..]);
      SingleInExponents(s);
    }
  }

  /** The step of `MergeInExponents` where the first two tiles merge. */
  lemma PairInExponents(s: seq<nat>)
    requires AllPositive(s) && |s| >= 2 && s[0] == s[1]
    requires Exponents(Merge(Values(s[2..]))) == ExponentMerge(s[2..]).0
    requires MergeScore(Values(s[2..])) == ExponentMerge(s[2..]).1
    ensures Exponents(Merge(Values(s))) == ExponentMerge(s).0
    ensures MergeScore(Values(s)) == ExponentMerge(s).1
  {
    var v := Values(s);
    assert Values(s[2..]) == v[2..];
    assert v[0] == v[1] == ToValue(s[0]);
    MergedExponent(s[0]);
    DoubledExponent(2 * v[0], s[0]);
    assert Merge(v) == [2 * v[0]] + Merge(v[2..]);
    assert MergeScore(v) == 2 * v[0] + MergeScore(v[2..]);
    ExponentsCons(2 * v[0], Merge(v[2..]));
  }

  /** The step of `MergeInExponents` where the first tile stays. */
  lemma SingleInExponents(s: seq<nat>)
    requires AllPositive(s) && |s| >= 1 && !(|s| >= 2 && s[0] == s[1])
    requires Exponents(Merge(Values(s[1..]))) == ExponentMerge(s[1..]).0
    requires MergeScore(Values(s[1..])) == ExponentMerge(s[1..]).1
    ensures Exponents(Merge(Values(s))) == ExponentMerge(s).0
    ensures MergeScore(Values(s)) == ExponentMerge(s).1
  {
    var v := Values(s);
    assert Values(s[1..]) == v[1..];
    ExponentRoundTrip(s[0]);
    if |s| >= 2 && v[0] == v[1] {
      ToValueInjective(s[0], s[1]);
    }
    assert Merge(v) == [v[0]] + Merge(v[1..]);
    ExponentsCons(v[0], Merge(v[1..]));
  }

  /** Two tiles worth 2 and 4, and the tile values of `[1, 1, 1, 1]`. */
  lemma SmallTiles()
    ensures ToValue(1) == 2 && ToValue(2) == 4
    ensures ToExponent(4) == 2
    ensures Values([1, 1, 1, 1]) == [2, 2, 2, 2]
  {
    ExponentRoundTrip(2);
  }

  /** A tile merges at most once per move: four equal tiles give two merged
      tiles, not one.  In exponents, `[1, 1, 1, 1]` moved left becomes
      `[2, 2, 0, 0]` and scores 8. */
  lemma FourEqualTilesLeft()
    ensures Exponents(SlideLine(Values([1, 1, 1, 1]), false)) == [2, 2, 0, 0]
    ensures LineScore(Values([1, 1, 1, 1]), false) == 8
  {
    SmallTiles();
    CompactOfPositive([2, 2, 2, 2]);
    assert Merge([2, 2, 2, 2]) == [4, 4];
    assert Pad([4, 4], 4) == [4, 4, 0, 0];
    assert Exponents([4, 4, 0, 0]) == [2, 2, 0, 0];
  }

  /** A merged tile does not merge again in the same move: `[1, 1, 2, 0]`
      moved left becomes `[2, 2, 0, 0]` and scores 4, not `[3, 0, 0, 0]`. */
  lemma MergedTileStays(b: seq<nat>, v: seq<nat>, c: seq<nat>)
    requires b == [1, 1, 2, 0] && v == [2, 2, 4, 0] && c == [2, 2, 4]
    ensures Exponents(SlideLine(Values(b), false)) == [2, 2, 0, 0]
    ensures LineScore(Values(b), false) == 4
  {
    SmallTiles();
    assert Values(b) == v;
    assert v[..3] == c && v[3] == 0;
    CompactOfPositive(c);
    assert Compact(v) == c;
    assert c[2..] == [4] && [4][1..] == [];
    assert Merge([4]) == [4] && MergeScore([4]) == 0;
    assert Merge(c) == [4, 4] && MergeScore(c) == 4;
    assert Pad([4, 4], 4) == [4, 4, 0, 0];
    assert Exponents([4, 4, 0, 0]) == [2, 2, 0, 0];
  }

  /** Tiles slide towards the far end without merging when no two are
      equal: `[2, 0, 4, 0]` moved right becomes `[0, 0, 2, 4]` and scores
      nothing. */
  lemma NoMergeRight(line: seq<nat>, c: seq<nat>, o: seq<nat>, p: seq<nat>)
    requires line == [2, 0, 4, 0] && c == [2, 4] && o == [4, 2] && p == [4, 2, 0, 0]
    ensures SlideLine(line, true) == [0, 0, 2, 4]
    ensures LineScore(line, true) == 0
  {
    GatherTwoFour(line, c);
    ReverseAt(c, 0);
    ReverseAt(c, 1);
    assert Reverse(c) == o;
    assert o[1..] == [2] && [2][1..] == [];
    assert Merge([2]) == [2] && MergeScore([2]) == 0;
    assert Merge(o) == o && MergeScore(o) == 0;
    assert Pad(o, 4) == p;
    ReverseIndices(p);
  }

  /** Gathering `[2, 0, 4, 0]` gives `[2, 4]`. */
  lemma GatherTwoFour(line: seq<nat>, c: seq<nat>)
    requires line == [2, 0, 4, 0] && c == [2, 4]
    ensures Compact(line) == c
  {
    var l1, l2, l3 := line[..1], line[..2], line[..3];
    assert l1[..0] == [] && l2[..1] == l1 && l3[..2] == l2 && line[..3] == l3;
    assert Compact(l1) == [2];
    assert Compact(l2) == [2];
    assert Compact(l3) == c;
  }
}
