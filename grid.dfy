/** Boards and rows of the 2048 game: their shape, the sums and tile counts
    over them, and the two orientation changes (transpose, reverse) that the
    move logic uses to reduce four directions to one. */
module Grid {

  /** Side length of the square board. */
  const SIZE: nat := 4
  /** The tile value whose appearance wins the game. */
  const TARGET: int := 2048

  /** One line of cells; 0 is an empty cell. */
  type Row = seq<int>
  /** A list of rows. */
  type Board = seq<Row>

  /** The board shape every game state has: SIZE rows of SIZE cells. */
  predicate IsBoard(b: Board) {
    |b| == SIZE && forall i :: 0 <= i < |b| ==> |b[i]| == SIZE
  }

  /** A non-empty board whose rows all have the length of the first row. */
  predicate IsRectangular(b: Board) {
    |b| > 0 && forall i :: 0 <= i < |b| ==> |b[i]| == |b[0]|
  }

  /** A positive power of two. */
  predicate IsPowerOfTwo(v: int)
    decreases if v < 0 then 0 else v
  {
    v > 0 && (v == 1 || (v % 2 == 0 && IsPowerOfTwo(v / 2)))
  }

  /** A legal cell value: empty, or a power of two that is at least 2. */
  predicate IsTile(v: int) {
    v == 0 || (v >= 2 && IsPowerOfTwo(v))
  }

  predicate AllTiles(b: Board) {
    forall i, j :: 0 <= i < |b| && 0 <= j < |b[i]| ==> IsTile(b[i][j])
  }

  /** Merging two equal tiles gives a tile. */
  lemma DoubleIsTile(v: int)
    requires IsTile(v) && v != 0
    ensures IsTile(2 * v) && 2 * v != 0
  {
    assert (2 * v) / 2 == v;
  }

  // ---------------------------------------------------------------------------
  // Sums and counts

  function Sum(s: Row): int {
    if s == [] then 0 else s[0] + Sum(s[1..])
  }

  /** The row with every occupied cell replaced by 1 and every empty cell by 0. */
  function Occupied(s: Row): (o: Row)
    ensures |o| == |s|
  {
    seq(|s|, i requires 0 <= i < |s| => if s[i] != 0 then 1 else 0)
  }

  /** Number of occupied cells of a row. */
  function CountNonZero(s: Row): int {
    Sum(Occupied(s))
  }

  /** Sum of all cells of a board, row by row. */
  function BoardSum(b: Board): int {
    if b == [] then 0 else Sum(b[0]) + BoardSum(b[1..])
  }

  function Occupancy(b: Board): (o: Board)
    ensures |o| == |b|
  {
    seq(|b|, i requires 0 <= i < |b| => Occupied(b[i]))
  }

  /** Number of occupied cells of a board. */
  function TileCount(b: Board): int {
    BoardSum(Occupancy(b))
  }

  function Zeros(n: nat): (z: Row)
    ensures |z| == n
  {
    seq(n, _ => 0)
  }

  lemma {:induction false} SumConcat(a: Row, b: Row)
    ensures Sum(a + b) == Sum(a) + Sum(b)
  {
    if a == [] {
      assert a + b == b;
    } else {
      assert (a + b)[1..] == a[1..] + b;
      SumConcat(a[1..], b);
    }
  }

  lemma {:induction false} SumZeros(n: nat)
    ensures Sum(Zeros(n)) == 0
  {
    if n > 0 {
      assert Zeros(n)[1..] == Zeros(n - 1);
      SumZeros(n - 1);
    }
  }

  /** Summing the prefix one cell longer adds that cell. */
  lemma SumPrefix(s: Row, c: nat)
    requires c < |s|
    ensures Sum(s[..c + 1]) == Sum(s[..c]) + s[c]
  {
    assert s[..c + 1] == s[..c] + [s[c]];
    SumConcat(s[..c], [s[c]]);
  }

  /** Changing one cell changes the sum by the difference. */
  lemma {:induction false} SumUpdate(s: Row, c: nat, v: int)
    requires c < |s|
    ensures Sum(s[c := v]) == Sum(s) - s[c] + v
  {
    if c > 0 {
      assert s[c := v][1..] == s[1..][c - 1 := v];
      SumUpdate(s[1..], c - 1, v);
    }
  }

  lemma {:induction false} OccupiedTail(s: Row)
    requires s != []
    ensures Occupied(s)[1..] == Occupied(s[1..])
  {
  }

  lemma OccupiedConcat(a: Row, b: Row)
    ensures Occupied(a + b) == Occupied(a) + Occupied(b)
  {
  }

  /** A row holds between 0 and |s| tiles, and exactly |s| when it has no
      empty cell. */
  lemma {:induction false} CountNonZeroBounds(s: Row)
    ensures 0 <= CountNonZero(s) <= |s|
    ensures CountNonZero(s) == |s| <==> 0 !in s
  {
    if s != [] {
      OccupiedTail(s);
      CountNonZeroBounds(s[1..]);
      assert s[0] == 0 ==> 0 in s;
      assert 0 in s[1..] ==> 0 in s;
      assert 0 in s && s[0] != 0 ==> 0 in s[1..];
    }
  }

  lemma CountNonZeroConcat(a: Row, b: Row)
    ensures CountNonZero(a + b) == CountNonZero(a) + CountNonZero(b)
  {
    OccupiedConcat(a, b);
    SumConcat(Occupied(a), Occupied(b));
  }

  lemma {:induction false} BoardSumConcat(a: Board, b: Board)
    ensures BoardSum(a + b) == BoardSum(a) + BoardSum(b)
  {
    if a == [] {
      assert a + b == b;
    } else {
      assert (a + b)[1..] == a[1..] + b;
      BoardSumConcat(a[1..], b);
    }
  }

  /** Two boards whose rows have pairwise equal sums have equal sums. */
  lemma {:induction false} BoardSumRowwise(a: Board, b: Board)
    requires |a| == |b|
    requires forall i :: 0 <= i < |a| ==> Sum(a[i]) == Sum(b[i])
    ensures BoardSum(a) == BoardSum(b)
  {
    if a != [] {
      BoardSumRowwise(a[1..], b[1..]);
    }
  }

  /** Changing one cell of a board changes its sum by the difference. */
  lemma BoardSumUpdate(b: Board, r: nat, c: nat, v: int)
    requires r < |b| && c < |b[r]|
    ensures BoardSum(b[r := b[r][c := v]]) == BoardSum(b) - b[r][c] + v
  {
    var b' := b[r := b[r][c := v]];
    assert b == b[..r] + [b[r]] + b[r + 1..];
    assert b' == b[..r] + [b[r][c := v]] + b[r + 1..];
    BoardSumConcat(b[..r] + [b[r]], b[r + 1..]);
    BoardSumConcat(b[..r], [b[r]]);
    BoardSumConcat(b[..r] + [b[r][c := v]], b[r + 1..]);
    BoardSumConcat(b[..r], [b[r][c := v]]);
    SumUpdate(b[r], c, v);
  }

  /** Filling one empty cell of a board with a tile adds one tile. */
  lemma TileCountFill(b: Board, r: nat, c: nat, v: int)
    requires r < |b| && c < |b[r]|
    requires b[r][c] == 0 && v != 0
    ensures TileCount(b[r := b[r][c := v]]) == TileCount(b) + 1
  {
    var b' := b[r := b[r][c := v]];
    assert Occupied(b'[r]) == Occupied(b[r])[c := 1];
    assert Occupancy(b') == Occupancy(b)[r := Occupancy(b)[r][c := 1]];
    BoardSumUpdate(Occupancy(b), r, c, 1);
  }

  lemma TileCountCons(b: Board)
    requires b != []
    ensures TileCount(b) == CountNonZero(b[0]) + TileCount(b[1..])
  {
    assert Occupancy(b)[1..] == Occupancy(b[1..]);
  }

  /** A board of rows of length n holds at most |b| * n tiles, and exactly
      that many when no cell is empty. */
  lemma {:induction false} TileCountBound(b: Board, n: nat)
    requires forall i :: 0 <= i < |b| ==> |b[i]| == n
    ensures TileCount(b) <= |b| * n
    ensures TileCount(b) == |b| * n <==> forall i :: 0 <= i < |b| ==> 0 !in b[i]
  {
    if b != [] {
      TileCountCons(b);
      TileCountBound(b[1..], n);
      CountNonZeroBounds(b[0]);
      assert |b| * n == n + (|b| - 1) * n;
      if forall i :: 0 <= i < |b| ==> 0 !in b[i] {
        assert forall i :: 0 <= i < |b[1..]| ==> 0 !in b[1..][i];
      }
      if forall i :: 0 <= i < |b[1..]| ==> 0 !in b[1..][i] {
        assert forall i :: 1 <= i < |b| ==> 0 !in b[i];
      }
    }
  }

  // ---------------------------------------------------------------------------
  // The end of the game

  /** `checkGameOver`'s test of one cell: it is full and differs from its
      right and lower neighbours. */
  predicate CellStuck(b: Board, r: int, c: int)
    requires IsBoard(b) && 0 <= r < SIZE && 0 <= c < SIZE
  {
    && b[r][c] != 0
    && (c + 1 < SIZE ==> b[r][c] != b[r][c + 1])
    && (r + 1 < SIZE ==> b[r][c] != b[r + 1][c])
  }

  /** A full board with no two equal horizontal or vertical neighbours. */
  predicate IsTerminal(b: Board)
    requires IsBoard(b)
  {
    forall r, c :: 0 <= r < SIZE && 0 <= c < SIZE ==> CellStuck(b, r, c)
  }

  /** A board with fewer than SIZE * SIZE tiles has an empty cell and so is
      not terminal. */
  lemma NotTerminalWithRoom(b: Board)
    requires IsBoard(b) && TileCount(b) < SIZE * SIZE
    ensures exists r, c :: 0 <= r < SIZE && 0 <= c < SIZE && b[r][c] == 0
    ensures !IsTerminal(b)
  {
    TileCountBound(b, SIZE);
    var r :| 0 <= r < SIZE && 0 in b[r];
    var c :| 0 <= c < SIZE && b[r][c] == 0;
    assert !CellStuck(b, r, c);
  }

  // ---------------------------------------------------------------------------
  // Orientation changes

  /** `[...row].reverse()` */
  function Reverse(s: Row): (r: Row)
    ensures |r| == |s|
  {
    seq(|s|, i requires 0 <= i < |s| => s[|s| - 1 - i])
  }

  /** `reverseRows`: every row reversed. */
  function ReverseRows(b: Board): (r: Board)
    ensures |r| == |b|
  {
    seq(|b|, i requires 0 <= i < |b| => Reverse(b[i]))
  }

  /** The n columns of a board whose rows all have length n (b may be empty). */
  function Columns(b: Board, n: nat): (t: Board)
    requires forall i :: 0 <= i < |b| ==> |b[i]| == n
    ensures |t| == n && forall j :: 0 <= j < n ==> |t[j]| == |b|
  {
    seq(n, j requires 0 <= j < n => seq(|b|, i requires 0 <= i < |b| => b[i][j]))
  }

  /** `transpose`: row j of the result is column j of the board. */
  function Transpose(b: Board): (t: Board)
    requires IsRectangular(b)
    ensures |t| == |b[0]| && forall j :: 0 <= j < |t| ==> |t[j]| == |b|
  {
    Columns(b, |b[0]|)
  }

  /** `cloneBoard`: a fresh copy of every row. In this value model the copy
      is the same value, which is what makes `move` leave its input alone. */
  function CloneBoard(b: Board): (c: Board)
    ensures c == b
  {
    seq(|b|, i requires 0 <= i < |b| => b[i][..])
  }

  lemma ReverseReverse(s: Row)
    ensures Reverse(Reverse(s)) == s
  {
  }

  lemma ReverseRowsTwice(b: Board)
    ensures ReverseRows(ReverseRows(b)) == b
  {
    forall i | 0 <= i < |b| ensures ReverseRows(ReverseRows(b))[i] == b[i] {
      ReverseReverse(b[i]);
    }
  }

  lemma TransposeTwice(b: Board)
    requires IsRectangular(b) && |b[0]| > 0
    ensures IsRectangular(Transpose(b)) && Transpose(Transpose(b)) == b
  {
    var t := Transpose(Transpose(b));
    assert |t| == |b|;
    forall i | 0 <= i < |b| ensures t[i] == b[i] {
      assert |t[i]| == |b[i]|;
    }
  }

  lemma IsBoardTranspose(b: Board)
    requires IsBoard(b)
    ensures IsRectangular(b) && IsBoard(Transpose(b))
  {
  }

  lemma IsBoardReverseRows(b: Board)
    requires IsBoard(b)
    ensures IsBoard(ReverseRows(b))
  {
  }

  lemma {:induction false} SumReverse(s: Row)
    ensures Sum(Reverse(s)) == Sum(s)
  {
    if s != [] {
      assert Reverse(s) == Reverse(s[1..]) + [s[0]];
      SumConcat(Reverse(s[1..]), [s[0]]);
      SumReverse(s[1..]);
    }
  }

  lemma BoardSumReverseRows(b: Board)
    ensures BoardSum(ReverseRows(b)) == BoardSum(b)
  {
    forall i | 0 <= i < |b| ensures Sum(ReverseRows(b)[i]) == Sum(b[i]) {
      SumReverse(b[i]);
    }
    BoardSumRowwise(ReverseRows(b), b);
  }

  /** The board with column x put in front of its rows. */
  function PrependColumn(x: Row, c: Board): (r: Board)
    requires |c| == |x|
  {
    seq(|x|, j requires 0 <= j < |x| => [x[j]] + c[j])
  }

  lemma {:induction false} BoardSumPrependColumn(x: Row, c: Board)
    requires |c| == |x|
    ensures BoardSum(PrependColumn(x, c)) == Sum(x) + BoardSum(c)
  {
    if x != [] {
      assert PrependColumn(x, c)[1..] == PrependColumn(x[1..], c[1..]);
      BoardSumPrependColumn(x[1..], c[1..]);
      SumConcat([x[0]], c[0]);
    }
  }

  lemma {:induction false} BoardSumColumns(b: Board, n: nat)
    requires forall i :: 0 <= i < |b| ==> |b[i]| == n
    ensures BoardSum(Columns(b, n)) == BoardSum(b)
  {
    if b == [] {
      BoardSumEmptyRows(Columns(b, n));
    } else {
      forall j | 0 <= j < n
        ensures Columns(b, n)[j] == [b[0][j]] + Columns(b[1..], n)[j]
      {
      }
      assert Columns(b, n) == PrependColumn(b[0], Columns(b[1..], n));
      BoardSumPrependColumn(b[0], Columns(b[1..], n));
      BoardSumColumns(b[1..], n);
    }
  }

  lemma {:induction false} BoardSumEmptyRows(c: Board)
    requires forall j :: 0 <= j < |c| ==> c[j] == []
    ensures BoardSum(c) == 0
  {
    if c != [] {
      BoardSumEmptyRows(c[1..]);
    }
  }

  /** Transposing keeps the sum of the board. */
  lemma BoardSumTranspose(b: Board)
    requires IsRectangular(b)
    ensures BoardSum(Transpose(b)) == BoardSum(b)
  {
    BoardSumColumns(b, |b[0]|);
  }

  /** Transposing and reversing keep the number of tiles. */
  lemma TileCountTranspose(b: Board)
    requires IsRectangular(b)
    ensures IsRectangular(Occupancy(b))
    ensures TileCount(Transpose(b)) == TileCount(b)
  {
    forall j | 0 <= j < |b[0]|
      ensures Occupancy(Transpose(b))[j] == Transpose(Occupancy(b))[j]
    {
    }
    assert Occupancy(Transpose(b)) == Transpose(Occupancy(b));
    BoardSumTranspose(Occupancy(b));
  }

  lemma TileCountReverseRows(b: Board)
    ensures TileCount(ReverseRows(b)) == TileCount(b)
  {
    forall i | 0 <= i < |b|
      ensures Occupancy(ReverseRows(b))[i] == ReverseRows(Occupancy(b))[i]
    {
    }
    assert Occupancy(ReverseRows(b)) == ReverseRows(Occupancy(b));
    BoardSumReverseRows(Occupancy(b));
  }
}
