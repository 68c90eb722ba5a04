/** The empty board and the tile spawn (`emptyBoard`, `addRandomTile`). The
    two random draws of the spawn are parameters: `k` stands for the index
    `Math.floor(Math.random() * empty.length)` and `two` for the test
    `Math.random() < 0.9` (true gives a 2, false a 4). */
module Spawning {
  import opened Grid

  type Cell = (nat, nat)

  /** `emptyBoard()`: SIZE rows of SIZE zeros. */
  function EmptyBoard(): (b: Board)
    ensures IsBoard(b) && AllTiles(b)
    ensures forall i, j :: 0 <= i < SIZE && 0 <= j < SIZE ==> b[i][j] == 0
  {
    seq(SIZE, _ => Zeros(SIZE))
  }

  /** The empty cells among the first c cells of row r, left to right. */
  function EmptyInRow(row: Row, r: nat, c: nat): (e: seq<Cell>)
    requires c <= |row|
  {
    if c == 0 then []
    else EmptyInRow(row, r, c - 1) + (if row[c - 1] == 0 then [(r, c - 1)] else [])
  }

  /** The empty cells of the first n rows, in row-major order. */
  function EmptyInRows(b: Board, n: nat): (e: seq<Cell>)
    requires IsBoard(b) && n <= SIZE
  {
    if n == 0 then [] else EmptyInRows(b, n - 1) + EmptyInRow(b[n - 1], n - 1, SIZE)
  }

  /** The list `empty` that `addRandomTile` collects. */
  function EmptyCells(b: Board): seq<Cell>
    requires IsBoard(b)
  {
    EmptyInRows(b, SIZE)
  }

  /** What `addRandomTile(board)` returns for the draws `k` and `two`. */
  function Spawn(b: Board, k: nat, two: bool): (r: Board)
    requires IsBoard(b)
    requires EmptyCells(b) != [] ==> k < |EmptyCells(b)|
    ensures IsBoard(r)
  {
    var empty := EmptyCells(b);
    if |empty| == 0 then b
    else
      var (row, col) := empty[k];
      EmptyCellsInRange(b, k);
      b[row := b[row][col := if two then 2 else 4]]
  }

  /** `addRandomTile` as the source writes it: nested loops collect the empty
      cells, then the chosen one is written. The write is in place in the
      source; every caller uses only the returned board, so it is modelled by
      returning the updated value. */
  method AddRandomTile(board: Board, k: nat, two: bool) returns (result: Board)
    requires IsBoard(board)
    requires EmptyCells(board) != [] ==> k < |EmptyCells(board)|
    ensures result == Spawn(board, k, two)
  {
    var empty: seq<Cell> := [];
    for r := 0 to SIZE
      invariant empty == EmptyInRows(board, r)
    {
      for c := 0 to SIZE
        invariant empty == EmptyInRows(board, r) + EmptyInRow(board[r], r, c)
      {
        if board[r][c] == 0 {
          empty := empty + [(r, c)];
        }
      }
    }
    if |empty| == 0 {
      return board;
    }
    var (row, col) := empty[k];
    EmptyCellsInRange(board, k);
    result := board[row := board[row][col := if two then 2 else 4]];
  }

  // ---------------------------------------------------------------------------
  // The list of empty cells

  lemma {:induction false} EmptyInRowMembers(row: Row, r: nat, c: nat)
    requires c <= |row|
    ensures forall p :: p in EmptyInRow(row, r, c) <==> p.0 == r && p.1 < c && row[p.1] == 0
  {
    if c > 0 {
      EmptyInRowMembers(row, r, c - 1);
    }
  }

  lemma {:induction false} EmptyInRowsMembers(b: Board, n: nat)
    requires IsBoard(b) && n <= SIZE
    ensures forall p :: p in EmptyInRows(b, n) <==> p.0 < n && p.1 < SIZE && b[p.0][p.1] == 0
  {
    if n > 0 {
      EmptyInRowsMembers(b, n - 1);
      EmptyInRowMembers(b[n - 1], n - 1, SIZE);
    }
  }

  /** The list holds exactly the empty cells of the board. */
  lemma EmptyCellsMembers(b: Board)
    requires IsBoard(b)
    ensures forall p :: p in EmptyCells(b) <==> p.0 < SIZE && p.1 < SIZE && b[p.0][p.1] == 0
  {
    EmptyInRowsMembers(b, SIZE);
  }

  /** Every listed cell is on the board and empty. */
  lemma EmptyCellsInRange(b: Board, k: nat)
    requires IsBoard(b) && k < |EmptyCells(b)|
    ensures EmptyCells(b)[k].0 < SIZE && EmptyCells(b)[k].1 < SIZE
    ensures b[EmptyCells(b)[k].0][EmptyCells(b)[k].1] == 0
  {
    EmptyCellsMembers(b);
    assert EmptyCells(b)[k] in EmptyCells(b);
  }

  lemma {:induction false} EmptyInRowLength(row: Row, r: nat, c: nat)
    requires c <= |row|
    ensures |EmptyInRow(row, r, c)| == c - CountNonZero(row[..c])
  {
    if c == 0 {
      assert Occupied(row[..0]) == [];
    } else {
      EmptyInRowLength(row, r, c - 1);
      assert row[..c] == row[..c - 1] + [row[c - 1]];
      CountNonZeroConcat(row[..c - 1], [row[c - 1]]);
      var o := if row[c - 1] != 0 then 1 else 0;
      assert Occupied([row[c - 1]]) == [o];
      assert Sum([o]) == o by {
        assert [o][1..] == [];
      }
    }
  }

  lemma {:induction false} EmptyInRowsLength(b: Board, n: nat)
    requires IsBoard(b) && n <= SIZE
    ensures |EmptyInRows(b, n)| == n * SIZE - TileCount(b[..n])
  {
    if n > 0 {
      EmptyInRowsLength(b, n - 1);
      EmptyInRowLength(b[n - 1], n - 1, SIZE);
      assert b[n - 1][..SIZE] == b[n - 1];
      assert b[..n] == b[..n - 1] + [b[n - 1]];
      assert Occupancy(b[..n]) == Occupancy(b[..n - 1]) + Occupancy([b[n - 1]]);
      BoardSumConcat(Occupancy(b[..n - 1]), Occupancy([b[n - 1]]));
    }
  }

  /** There are as many candidate cells as empty cells. */
  lemma EmptyCellsCount(b: Board)
    requires IsBoard(b)
    ensures |EmptyCells(b)| == SIZE * SIZE - TileCount(b)
  {
    EmptyInRowsLength(b, SIZE);
    assert b[..SIZE] == b;
  }

  // ---------------------------------------------------------------------------
  // Properties of the spawn

  /** With no empty cell the board is returned unchanged; otherwise exactly
      one cell that was empty now holds a 2 or a 4, every other cell is as
      before, and the board holds one tile more. */
  lemma SpawnFillsOneEmptyCell(b: Board, k: nat, two: bool)
    requires IsBoard(b)
    requires EmptyCells(b) != [] ==> k < |EmptyCells(b)|
    ensures IsBoard(Spawn(b, k, two))
    ensures EmptyCells(b) == [] <==> forall i, j :: 0 <= i < SIZE && 0 <= j < SIZE ==> b[i][j] != 0
    ensures EmptyCells(b) == [] ==> Spawn(b, k, two) == b
    ensures EmptyCells(b) != [] ==>
              && TileCount(Spawn(b, k, two)) == TileCount(b) + 1
              && exists r, c :: 0 <= r < SIZE && 0 <= c < SIZE && b[r][c] == 0
                   && Spawn(b, k, two)[r][c] in {2, 4}
                   && forall i, j :: 0 <= i < SIZE && 0 <= j < SIZE && (i, j) != (r, c)
                        ==> Spawn(b, k, two)[i][j] == b[i][j]
  {
    EmptyCellsMembers(b);
    if EmptyCells(b) == [] {
      forall i, j | 0 <= i < SIZE && 0 <= j < SIZE ensures b[i][j] != 0 {
        assert (i as nat, j as nat) !in EmptyCells(b);
      }
    } else {
      assert EmptyCells(b)[0] in EmptyCells(b);
      EmptyCellsInRange(b, k);
      var (r, c) := EmptyCells(b)[k];
      TileCountFill(b, r, c, if two then 2 else 4);
      assert Spawn(b, k, two)[r][c] in {2, 4};
    }
  }

  /** Spawning keeps every cell a legal tile value. */
  lemma SpawnTiles(b: Board, k: nat, two: bool)
    requires IsBoard(b) && AllTiles(b)
    requires EmptyCells(b) != [] ==> k < |EmptyCells(b)|
    ensures AllTiles(Spawn(b, k, two))
  {
    if EmptyCells(b) != [] {
      EmptyCellsInRange(b, k);
      assert IsTile(2) && IsTile(4) by {
        assert IsPowerOfTwo(1);
        assert 4 / 2 == 2;
      }
    }
  }

  /** The empty board holds no tile and offers all SIZE * SIZE cells. */
  lemma EmptyBoardCells()
    ensures TileCount(EmptyBoard()) == 0
    ensures |EmptyCells(EmptyBoard())| == SIZE * SIZE
  {
    var b := EmptyBoard();
    forall i | 0 <= i < SIZE ensures Sum(Occupancy(b)[i]) == Sum(Zeros(SIZE)) {
      assert Occupancy(b)[i] == Zeros(SIZE);
    }
    SumZeros(SIZE);
    assert Sum([]) == 0;
    BoardSumRowwise(Occupancy(b), seq(SIZE, _ => []));
    BoardSumEmptyRows(seq(SIZE, _ => []));
    EmptyCellsCount(b);
  }

  /** Spawning on the empty board leaves SIZE * SIZE - 1 empty cells for the
      second spawn. */
  lemma FirstSpawn(k1: nat, two1: bool)
    requires k1 < SIZE * SIZE
    ensures |EmptyCells(EmptyBoard())| == SIZE * SIZE
    ensures TileCount(Spawn(EmptyBoard(), k1, two1)) == 1
    ensures |EmptyCells(Spawn(EmptyBoard(), k1, two1))| == SIZE * SIZE - 1
  {
    EmptyBoardCells();
    SpawnFillsOneEmptyCell(EmptyBoard(), k1, two1);
    EmptyCellsCount(Spawn(EmptyBoard(), k1, two1));
  }

  /** The board the game starts with: `addRandomTile(addRandomTile(emptyBoard()))`
      with the draws `k1, two1` and then `k2, two2`. */
  function StartBoard(k1: nat, two1: bool, k2: nat, two2: bool): (b: Board)
    requires k1 < SIZE * SIZE && k2 < SIZE * SIZE - 1
    ensures IsBoard(b)
  {
    FirstSpawn(k1, two1);
    Spawn(Spawn(EmptyBoard(), k1, two1), k2, two2)
  }

  /** The starting board holds exactly two tiles, each a 2 or a 4. */
  lemma InitialBoard(k1: nat, two1: bool, k2: nat, two2: bool)
    requires k1 < SIZE * SIZE && k2 < SIZE * SIZE - 1
    ensures var b := StartBoard(k1, two1, k2, two2);
      && AllTiles(b) && TileCount(b) == 2
      && forall i, j :: 0 <= i < SIZE && 0 <= j < SIZE ==> b[i][j] in {0, 2, 4}
  {
    var b0 := EmptyBoard();
    FirstSpawn(k1, two1);
    SpawnFillsOneEmptyCell(b0, k1, two1);
    var b1 := Spawn(b0, k1, two1);
    SpawnFillsOneEmptyCell(b1, k2, two2);
    SpawnTiles(b0, k1, two1);
    SpawnTiles(b1, k2, two2);
    forall i, j | 0 <= i < SIZE && 0 <= j < SIZE ensures b1[i][j] in {0, 2, 4} {
    }
  }
}
