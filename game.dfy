/** The state logic of the `Game` component: the four pieces of state it
    keeps (board, score, game over, won) as the fields of a class, with its
    `updateScore`, `checkGameOver` and `handleMove`. */
module GameState {
  import opened Grid
  import opened Line
  import opened Moves
  import opened Spawning

  /** `board.flat()`: the cells of the board, row after row. */
  function Flatten(b: Board): Row {
    if b == [] then [] else b[0] + Flatten(b[1..])
  }

  /** A value occurs in the flattened board exactly when some cell holds it. */
  lemma {:induction false} FlattenMembers(b: Board, v: int)
    ensures v in Flatten(b) <==> exists i, j :: 0 <= i < |b| && 0 <= j < |b[i]| && b[i][j] == v
  {
    if b != [] {
      FlattenMembers(b[1..], v);
      if v in Flatten(b[1..]) {
        var i, j :| 0 <= i < |b[1..]| && 0 <= j < |b[1..][i]| && b[1..][i][j] == v;
        assert b[i + 1][j] == v;
      }
      if v in b[0] {
        var j :| 0 <= j < |b[0]| && b[0][j] == v;
      }
      if exists i, j :: 0 <= i < |b| && 0 <= j < |b[i]| && b[i][j] == v {
        var i, j :| 0 <= i < |b| && 0 <= j < |b[i]| && b[i][j] == v;
        if i == 0 {
          assert b[0][j] in b[0];
        } else {
          assert b[1..][i - 1][j] == v;
        }
      }
    }
  }

  /** After a move that changes the board (the only kind that `handleMove`
      accepts), the spawned tile always finds an empty cell; the tile count
      becomes the count before, minus the merges, plus one; and the sum grows
      by the spawned 2 or 4. */
  lemma AcceptedMove(b: Board, d: Direction, k: nat, two: bool)
    requires IsBoard(b) && Move(b, d) != b
    requires EmptyCells(Move(b, d)) != [] ==> k < |EmptyCells(Move(b, d))|
    ensures EmptyCells(Move(b, d)) != []
    ensures TileCount(Spawn(Move(b, d), k, two)) == TileCount(b) - BoardMerges(Orient(b, d)) + 1
    ensures BoardSum(Spawn(Move(b, d), k, two)) == BoardSum(b) + (if two then 2 else 4)
  {
    var m := Move(b, d);
    MovedBoardHasRoom(b, d);
    EmptyCellsCount(m);
    MoveCount(b, d);
    MoveSum(b, d);
    SpawnFillsOneEmptyCell(m, k, two);
    EmptyCellsInRange(m, k);
    var (r, c) := EmptyCells(m)[k];
    BoardSumUpdate(m, r, c, if two then 2 else 4);
  }

  class Game {
    var board: Board
    var score: int
    var gameOver: bool
    var won: bool

    /** The board is 4x4, every cell is a legal tile value, and the game-over
        flag says whether the board is terminal. */
    ghost predicate Valid()
      reads this
    {
      IsBoard(board) && AllTiles(board) && gameOver == IsTerminal(board)
    }

    /** The initial state: two tiles spawned on the empty board, score 0, and
        neither flag set. */
    constructor (k1: nat, two1: bool, k2: nat, two2: bool)
      requires k1 < SIZE * SIZE && k2 < SIZE * SIZE - 1
      ensures Valid()
      ensures board == StartBoard(k1, two1, k2, two2)
      ensures score == 0 && !gameOver && !won
    {
      FirstSpawn(k1, two1);
      var b := EmptyBoard();
      b := AddRandomTile(b, k1, two1);
      b := AddRandomTile(b, k2, two2);
      assert b == StartBoard(k1, two1, k2, two2);
      InitialBoard(k1, two1, k2, two2);
      NotTerminalWithRoom(b);
      board := b;
      score := 0;
      gameOver := false;
      won := false;
    }

    /** `updateScore`: the score becomes the sum of all cells of the board. */
    method UpdateScore(newBoard: Board)
      modifies this`score
      ensures score == BoardSum(newBoard)
    {
      var s := 0;
      for r := 0 to |newBoard|
        invariant s == BoardSum(newBoard[..r])
      {
        var row := newBoard[r];
        for c := 0 to |row|
          invariant s == BoardSum(newBoard[..r]) + Sum(row[..c])
        {
          SumPrefix(row, c);
          s := s + row[c];
        }
        assert row[..|row|] == row;
        assert newBoard[..r + 1] == newBoard[..r] + [row];
        BoardSumConcat(newBoard[..r], [row]);
        assert [row][1..] == [];
      }
      assert newBoard[..|newBoard|] == newBoard;
      score := s;
    }

    /** `checkGameOver`: scans the cells in row-major order and answers false
        at the first empty cell or the first cell equal to its right or lower
        neighbour. */
    method CheckGameOver(b: Board) returns (over: bool)
      requires IsBoard(b)
      ensures over == IsTerminal(b)
    {
      for r := 0 to SIZE
        invariant forall r', c' :: 0 <= r' < r && 0 <= c' < SIZE ==> CellStuck(b, r', c')
      {
        for c := 0 to SIZE
          invariant forall r', c' :: 0 <= r' < r && 0 <= c' < SIZE ==> CellStuck(b, r', c')
          invariant forall c' :: 0 <= c' < c ==> CellStuck(b, r, c')
        {
          if b[r][c] == 0 {
            assert !CellStuck(b, r, c);
            return false;
          }
          if c + 1 < SIZE && b[r][c] == b[r][c + 1] {
            assert !CellStuck(b, r, c);
            return false;
          }
          if r + 1 < SIZE && b[r][c] == b[r + 1][c] {
            assert !CellStuck(b, r, c);
            return false;
          }
        }
      }
      return true;
    }

    /** `handleMove(dir)` with the spawn's draws `k` and `two`. Input is
        ignored once the game is over, and a move that changes nothing is
        dropped; otherwise the moved board gets a new tile, the score is
        recomputed from it, `won` is set when a cell is exactly TARGET, and
        `gameOver` when the new board is terminal. */
    method HandleMove(d: Direction, k: nat, two: bool)
      requires Valid()
      requires EmptyCells(Move(board, d)) != [] ==> k < |EmptyCells(Move(board, d))|
      modifies this
      ensures Valid()
      ensures old(won) ==> won
      ensures old(gameOver) || Move(old(board), d) == old(board) ==>
                && board == old(board) && score == old(score)
                && gameOver == old(gameOver) && won == old(won)
      ensures !old(gameOver) && Move(old(board), d) != old(board) ==>
                && board == Spawn(Move(old(board), d), k, two)
                && score == BoardSum(board)
                && won == (old(won) || TARGET in Flatten(board))
                && gameOver == IsTerminal(board)
    {
      if gameOver {
        return;
      }
      var newBoard := Move(board, d);
      if newBoard == board {
        return;
      }
      MoveTiles(board, d);
      var withTile := AddRandomTile(newBoard, k, two);
      SpawnTiles(newBoard, k, two);
      board := withTile;
      UpdateScore(withTile);
      if TARGET in Flatten(withTile) {
        won := true;
      }
      var over := CheckGameOver(withTile);
      if over {
        gameOver := true;
      }
    }
  }
}
