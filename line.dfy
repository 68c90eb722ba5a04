/** The single-line algorithm of the game (`slideAndMerge`): compact a row
    towards its start, merge equal neighbours at most once each, and pad the
    row back to SIZE cells with empty ones. */
module Line {
  import opened Grid

  /** `row.filter(v => v !== 0)`: the tiles of the row, in order. */
  function Compact(row: Row): (f: Row)
    ensures |f| <= |row| && 0 !in f
  {
    if row == [] then []
    else if row[0] != 0 then [row[0]] + Compact(row[1..])
    else Compact(row[1..])
  }

  /** The merge scan over a compacted row: from the start, a tile equal to the
      next one is replaced together with it by their double and the scan
      skips past both; any other tile is kept. */
  function MergePairs(f: Row): (m: Row)
    ensures |m| <= |f|
    decreases |f|
  {
    if |f| == 0 then []
    else if |f| >= 2 && f[0] == f[1] then [2 * f[0]] + MergePairs(f[2..])
    else [f[0]] + MergePairs(f[1..])
  }

  /** How many pairs the merge scan of `f` combines. */
  function Merges(f: Row): nat
    decreases |f|
  {
    if |f| == 0 then 0
    else if |f| >= 2 && f[0] == f[1] then 1 + Merges(f[2..])
    else Merges(f[1..])
  }

  /** `while (merged.length < SIZE) merged.push(0)` */
  function PadZeros(m: Row): (r: Row)
    ensures |r| == if |m| < SIZE then SIZE else |m|
  {
    if |m| < SIZE then m + Zeros(SIZE - |m|) else m
  }

  /** What `slideAndMerge` returns for `row`. */
  function Slide(row: Row): (r: Row)
    ensures |row| <= SIZE ==> |r| == SIZE
  {
    PadZeros(MergePairs(Compact(row)))
  }

  predicate NoEqualNeighbours(s: Row) {
    forall i :: 0 <= i < |s| - 1 ==> s[i] != s[i + 1]
  }

  /** A row that neither sliding nor merging can change: full, and no two
      neighbours equal. */
  predicate Stuck(s: Row) {
    0 !in s && NoEqualNeighbours(s)
  }

  /** `slideAndMerge` as the source writes it: filter, a scan with a `skip`
      flag that pushes merged or kept tiles, then padding with zeros. */
  method SlideAndMerge(row: Row) returns (merged: Row)
    ensures merged == Slide(row)
  {
    var filtered := Compact(row);
    merged := [];
    var skip := false;
    for i := 0 to |filtered|
      invariant skip ==> i < |filtered|
      invariant merged + MergePairs(filtered[if skip then i + 1 else i..]) == MergePairs(filtered)
    {
      if skip {
        skip := false;
        continue;
      }
      if i + 1 < |filtered| && filtered[i] == filtered[i + 1] {
        assert filtered[i..][2..] == filtered[i + 2..];
        merged := merged + [filtered[i] * 2];
        skip := true;
      } else {
        assert filtered[i..][1..] == filtered[i + 1..];
        merged := merged + [filtered[i]];
      }
    }
    assert filtered[|filtered|..] == [];
    ghost var m := merged;
    while |merged| < SIZE
      invariant |m| <= |merged| <= if |m| < SIZE then SIZE else |m|
      invariant merged == m + Zeros(|merged| - |m|)
      decreases SIZE - |merged|
    {
      merged := merged + [0];
    }
  }

  // ---------------------------------------------------------------------------
  // Compaction

  lemma {:induction false} CompactSum(row: Row)
    ensures Sum(Compact(row)) == Sum(row)
  {
    if row != [] {
      CompactSum(row[1..]);
      SumConcat([row[0]], Compact(row[1..]));
    }
  }

  lemma {:induction false} CompactCount(row: Row)
    ensures |Compact(row)| == CountNonZero(row)
  {
    if row != [] {
      OccupiedTail(row);
      CompactCount(row[1..]);
    }
  }

  lemma {:induction false} CompactConcat(a: Row, b: Row)
    ensures Compact(a + b) == Compact(a) + Compact(b)
  {
    if a == [] {
      assert a + b == b;
    } else {
      assert (a + b)[1..] == a[1..] + b;
      CompactConcat(a[1..], b);
    }
  }

  lemma {:induction false} CompactZeros(n: nat)
    ensures Compact(Zeros(n)) == []
  {
    if n > 0 {
      assert Zeros(n)[1..] == Zeros(n - 1);
      CompactZeros(n - 1);
    }
  }

  /** A row without empty cells is already compact. */
  lemma {:induction false} CompactFull(row: Row)
    requires 0 !in row
    ensures Compact(row) == row
  {
    if row != [] {
      assert 0 !in row[1..];
      CompactFull(row[1..]);
    }
  }

  // ---------------------------------------------------------------------------
  // The merge scan

  lemma {:induction false} MergePairsSum(f: Row)
    ensures Sum(MergePairs(f)) == Sum(f)
    decreases |f|
  {
    if |f| >= 2 && f[0] == f[1] {
      MergePairsSum(f[2..]);
      SumConcat([2 * f[0]], MergePairs(f[2..]));
      assert Sum(f) == f[0] + f[1] + Sum(f[2..]) by {
        assert f[1..][1..] == f[2..];
      }
    } else if |f| > 0 {
      MergePairsSum(f[1..]);
      SumConcat([f[0]], MergePairs(f[1..]));
    }
  }

  /** Every merge turns two tiles into one, and a tile takes part in at most
      one merge, so at most half of the tiles are merged. */
  lemma {:induction false} MergePairsLength(f: Row)
    ensures |MergePairs(f)| == |f| - Merges(f)
    ensures 2 * Merges(f) <= |f|
    decreases |f|
  {
    if |f| >= 2 && f[0] == f[1] {
      MergePairsLength(f[2..]);
    } else if |f| > 0 {
      MergePairsLength(f[1..]);
    }
  }

  /** Merging tiles gives tiles: no cell of the scan's output is empty, and
      every cell is a power of two at least 2 when the input's are. */
  lemma {:induction false} MergePairsTiles(f: Row)
    requires 0 !in f
    ensures 0 !in MergePairs(f)
    ensures (forall i :: 0 <= i < |f| ==> IsTile(f[i])) ==>
              forall i :: 0 <= i < |MergePairs(f)| ==> IsTile(MergePairs(f)[i])
    decreases |f|
  {
    if |f| >= 2 && f[0] == f[1] {
      assert 0 !in f[2..];
      MergePairsTiles(f[2..]);
      if forall i :: 0 <= i < |f| ==> IsTile(f[i]) {
        DoubleIsTile(f[0]);
        assert forall i :: 0 <= i < |f[2..]| ==> IsTile(f[2..][i]);
      }
    } else if |f| > 0 {
      assert 0 !in f[1..];
      MergePairsTiles(f[1..]);
      if forall i :: 0 <= i < |f| ==> IsTile(f[i]) {
        assert forall i :: 0 <= i < |f[1..]| ==> IsTile(f[1..][i]);
      }
    }
  }

  /** With no two equal neighbours nothing merges and the scan keeps the row. */
  lemma {:induction false} MergePairsNoEqualNeighbours(f: Row)
    requires NoEqualNeighbours(f)
    ensures MergePairs(f) == f && Merges(f) == 0
  {
    if f != [] {
      assert NoEqualNeighbours(f[1..]) by {
        forall i | 0 <= i < |f[1..]| - 1 ensures f[1..][i] != f[1..][i + 1] {
          assert f[1..][i] == f[i + 1] && f[1..][i + 1] == f[i + 2];
        }
      }
      MergePairsNoEqualNeighbours(f[1..]);
    }
  }

  /** Two equal neighbours anywhere force at least one merge. */
  lemma {:induction false} MergesPositive(f: Row, k: nat)
    requires k + 1 < |f| && f[k] == f[k + 1]
    ensures Merges(f) > 0
    decreases |f|
  {
    if !(f[0] == f[1]) {
      assert f[1..][k - 1] == f[k] && f[1..][k] == f[k + 1];
      MergesPositive(f[1..], k - 1);
    }
  }

  /** Cells `start` and, for a block of two, `start + 1` of `f` form one
      block of the merge scan whose output cell is `cell`: two equal tiles
      give their double; a single tile is kept, and differs from the tile
      after it (otherwise the scan would have merged the two). */
  predicate IsBlock(f: Row, start: int, len: int, cell: int) {
    && 0 <= start && start + len <= |f|
    && ((len == 1 && cell == f[start] && (start + 1 < |f| ==> f[start] != f[start + 1]))
        || (len == 2 && f[start] == f[start + 1] && cell == 2 * f[start]))
  }

  /** A block of a suffix of `f` is a block of `f`, shifted. */
  lemma BlockShift(f: Row, w: nat, start: int, len: int, cell: int)
    requires w <= |f| && IsBlock(f[w..], start, len, cell)
    ensures IsBlock(f, w + start, len, cell)
  {
    assert f[w..][start] == f[w + start];
    if start + 1 < |f[w..]| {
      assert f[w..][start + 1] == f[w + start + 1];
    }
  }

  /** The merge scan cuts `f`, left to right, into consecutive blocks of one
      or two tiles; block j has length `lens[j]`, starts at cell
      `Sum(lens[..j])` and gives output cell j. Every output cell therefore
      comes from one or two input tiles and no tile takes part in two
      merges: a merged tile is never merged again. */
  lemma {:induction false} MergePairsBlocks(f: Row) returns (lens: Row)
    ensures |lens| == |MergePairs(f)| && Sum(lens) == |f|
    ensures forall j :: 0 <= j < |lens| ==> IsBlock(f, Sum(lens[..j]), lens[j], MergePairs(f)[j])
    decreases |f|
  {
    if |f| == 0 {
      return [];
    }
    var w := if |f| >= 2 && f[0] == f[1] then 2 else 1;
    var g := f[w..];
    var rest := MergePairsBlocks(g);
    lens := [w] + rest;
    assert lens[1..] == rest;
    var m := MergePairs(f);
    assert m[1..] == MergePairs(g);
    forall j | 0 <= j < |lens|
      ensures IsBlock(f, Sum(lens[..j]), lens[j], m[j])
    {
      if j == 0 {
        assert lens[..0] == [];
        if w == 1 && 1 < |f| {
          assert f[0] != f[1];
        }
      } else {
        assert lens[..j][0] == w && lens[..j][1..] == rest[..j - 1];
        assert lens[j] == rest[j - 1] && m[j] == MergePairs(g)[j - 1];
        BlockShift(f, w, Sum(rest[..j - 1]), rest[j - 1], MergePairs(g)[j - 1]);
      }
    }
  }

  // ---------------------------------------------------------------------------
  // slideAndMerge

  /** Sliding and merging keeps the row's sum: each merge replaces two equal
      tiles by their double. */
  lemma SlideSum(row: Row)
    ensures Sum(Slide(row)) == Sum(row)
  {
    var m := MergePairs(Compact(row));
    CompactSum(row);
    MergePairsSum(Compact(row));
    if |m| < SIZE {
      SumConcat(m, Zeros(SIZE - |m|));
      SumZeros(SIZE - |m|);
    }
  }

  /** The tiles of the result come first, in the order of the merge scan, and
      only empty cells follow them. */
  lemma SlideShape(row: Row)
    ensures Compact(Slide(row)) == MergePairs(Compact(row))
    ensures forall i, j :: 0 <= i < j < |Slide(row)| && Slide(row)[i] == 0 ==> Slide(row)[j] == 0
  {
    var m := MergePairs(Compact(row));
    MergePairsTiles(Compact(row));
    CompactFull(m);
    if |m| < SIZE {
      CompactConcat(m, Zeros(SIZE - |m|));
      CompactZeros(SIZE - |m|);
    }
    forall i, j | 0 <= i < j < |Slide(row)| && Slide(row)[i] == 0
      ensures Slide(row)[j] == 0
    {
      assert i >= |m|;
    }
  }

  /** The number of tiles after the move is the number before minus the number
      of merges, and the merges take at most half of the tiles. */
  lemma SlideCount(row: Row)
    ensures CountNonZero(Slide(row)) == CountNonZero(row) - Merges(Compact(row))
    ensures 2 * Merges(Compact(row)) <= CountNonZero(row)
  {
    var f := Compact(row);
    var m := MergePairs(f);
    CompactCount(row);
    MergePairsLength(f);
    MergePairsTiles(f);
    CountNonZeroBounds(m);
    if |m| < SIZE {
      CountNonZeroConcat(m, Zeros(SIZE - |m|));
      assert Occupied(Zeros(SIZE - |m|)) == Zeros(SIZE - |m|);
      SumZeros(SIZE - |m|);
    }
  }

  /** When no two tiles of the compacted row are equal neighbours, the result
      is the compacted row padded with zeros, in the same order. */
  lemma SlideNoMerge(row: Row)
    requires NoEqualNeighbours(Compact(row))
    ensures Slide(row) == PadZeros(Compact(row))
  {
    MergePairsNoEqualNeighbours(Compact(row));
  }

  /** A stuck row of SIZE cells is left as it is. */
  lemma SlideStuck(row: Row)
    requires |row| == SIZE && Stuck(row)
    ensures Slide(row) == row
  {
    CompactFull(row);
    MergePairsNoEqualNeighbours(row);
  }

  /** A row that has an empty cell before a tile changes. */
  lemma SlideMovesGap(row: Row, i: nat, j: nat)
    requires i < j < |row| && row[i] == 0 && row[j] != 0
    ensures Slide(row) != row
  {
    SlideShape(row);
  }

  /** A full row with two equal neighbours changes: it loses a tile. */
  lemma SlideMergesFull(row: Row, k: nat)
    requires 0 !in row && k + 1 < |row| && row[k] == row[k + 1]
    ensures Slide(row) != row
  {
    CompactFull(row);
    MergesPositive(row, k);
    SlideCount(row);
  }

  /** A row of SIZE cells that a slide changes has an empty cell afterwards:
      either it had one before, or a merge freed one. */
  lemma SlideChangedHasRoom(row: Row)
    requires |row| == SIZE && Slide(row) != row
    ensures 0 in Slide(row)
  {
    SlideCount(row);
    CountNonZeroBounds(row);
    CountNonZeroBounds(Slide(row));
    if 0 !in row {
      if NoEqualNeighbours(row) {
        SlideStuck(row);
      } else {
        var k :| 0 <= k < |row| - 1 && row[k] == row[k + 1];
        CompactFull(row);
        MergesPositive(row, k);
      }
    }
  }

  /** Sliding keeps every cell a legal tile value. */
  lemma SlideTiles(row: Row)
    requires forall i :: 0 <= i < |row| ==> IsTile(row[i])
    ensures forall i :: 0 <= i < |Slide(row)| ==> IsTile(Slide(row)[i])
  {
    var f := Compact(row);
    CompactTiles(row);
    MergePairsTiles(f);
  }

  lemma {:induction false} CompactTiles(row: Row)
    requires forall i :: 0 <= i < |row| ==> IsTile(row[i])
    ensures forall i :: 0 <= i < |Compact(row)| ==> IsTile(Compact(row)[i])
  {
    if row != [] {
      assert forall i :: 0 <= i < |row[1..]| ==> IsTile(row[1..][i]);
      CompactTiles(row[1..]);
    }
  }

  /** Merge-once: four equal tiles become two doubled tiles, never one. */
  lemma MergeOnceExample()
    ensures Slide([2, 2, 2, 2]) == [4, 4, 0, 0]
    ensures Slide([4, 2, 2, 0]) == [4, 4, 0, 0]
  {
    assert Compact([2, 2, 2, 2]) == [2, 2, 2, 2] by { CompactFull([2, 2, 2, 2]); }
    assert [2, 2, 2, 2][2..] == [2, 2];
    assert MergePairs([2, 2]) == [4];
    assert Compact([4, 2, 2, 0]) == [4, 2, 2];
    assert [4, 2, 2][1..] == [2, 2];
  }

  /** Compaction with nothing to merge only moves tiles towards the start. */
  lemma CompactionExample()
    ensures Slide([0, 2, 0, 4]) == [2, 4, 0, 0]
  {
    assert Compact([0, 2, 0, 4]) == [2, 4];
    assert [2, 4][1..] == [4];
  }
}
