/** `move`: one move of the whole board in one of four directions. The board
    is turned (transposed for a vertical move, each row reversed for a move
    towards the right or the bottom) so that the direction points to the
    start of every row, `slideAndMerge` is applied to every row, and the turn
    is undone. */
module Moves {
  import opened Grid
  import opened Line

  datatype Direction = Up | Down | Left | Right

  /** `newBoard.map(row => slideAndMerge(row))` */
  function SlideRows(b: Board): (r: Board)
    ensures |r| == |b|
  {
    seq(|b|, i requires 0 <= i < |b| => Slide(b[i]))
  }

  /** The turn applied before sliding. */
  function Orient(b: Board, d: Direction): (o: Board)
    requires IsBoard(b)
    ensures IsBoard(o)
  {
    var t := if d.Up? || d.Down? then Transpose(b) else b;
    if d.Down? || d.Right? then ReverseRows(t) else t
  }

  /** The turn applied after sliding, which undoes Orient. */
  function Unorient(b: Board, d: Direction): (u: Board)
    requires IsBoard(b)
    ensures IsBoard(u)
  {
    var t := if d.Down? || d.Right? then ReverseRows(b) else b;
    if d.Up? || d.Down? then Transpose(t) else t
  }

  /** `move(board, dir)`: a new board; the argument is only read. */
  function Move(b: Board, d: Direction): (r: Board)
    requires IsBoard(b)
    ensures IsBoard(r)
  {
    Unorient(SlideRows(Orient(CloneBoard(b), d)), d)
  }

  /** How many merges a move makes: the merges of every turned row. */
  function BoardMerges(o: Board): nat {
    if o == [] then 0 else Merges(Compact(o[0])) + BoardMerges(o[1..])
  }

  // ---------------------------------------------------------------------------
  // Turning the board

  lemma UnorientOrient(b: Board, d: Direction)
    requires IsBoard(b)
    ensures Unorient(Orient(b, d), d) == b
  {
    IsBoardTranspose(b);
    ReverseRowsTwice(b);
    ReverseRowsTwice(Transpose(b));
    TransposeTwice(b);
  }

  lemma OrientUnorient(b: Board, d: Direction)
    requires IsBoard(b)
    ensures Orient(Unorient(b, d), d) == b
  {
    IsBoardReverseRows(b);
    IsBoardTranspose(ReverseRows(b));
    IsBoardTranspose(b);
    ReverseRowsTwice(b);
    TransposeTwice(b);
    TransposeTwice(ReverseRows(b));
  }

  lemma OrientKeepsTotals(b: Board, d: Direction)
    requires IsBoard(b)
    ensures BoardSum(Orient(b, d)) == BoardSum(b) && TileCount(Orient(b, d)) == TileCount(b)
    ensures BoardSum(Unorient(b, d)) == BoardSum(b) && TileCount(Unorient(b, d)) == TileCount(b)
  {
    IsBoardTranspose(b);
    BoardSumTranspose(b);
    TileCountTranspose(b);
    BoardSumReverseRows(b);
    TileCountReverseRows(b);
    BoardSumReverseRows(Transpose(b));
    TileCountReverseRows(Transpose(b));
    IsBoardReverseRows(b);
    BoardSumTranspose(ReverseRows(b));
    TileCountTranspose(ReverseRows(b));
  }

  lemma OrientKeepsTiles(b: Board, d: Direction)
    requires IsBoard(b) && AllTiles(b)
    ensures AllTiles(Orient(b, d)) && AllTiles(Unorient(b, d))
  {
    IsBoardTranspose(b);
    IsBoardReverseRows(b);
    assert AllTiles(Transpose(b));
    assert AllTiles(ReverseRows(b));
    assert AllTiles(ReverseRows(Transpose(b)));
    assert AllTiles(Transpose(ReverseRows(b)));
  }

  /** The rows of the turned board are the board's lines read from the edge
      the tiles move towards. */
  lemma OrientRows(b: Board, i: int)
    requires IsBoard(b) && 0 <= i < SIZE
    ensures Orient(b, Left)[i] == b[i]
    ensures Orient(b, Right)[i] == Reverse(b[i])
    ensures Orient(b, Up)[i] == Transpose(b)[i]
    ensures Orient(b, Down)[i] == Reverse(Transpose(b)[i])
  {
  }

  // ---------------------------------------------------------------------------
  // Properties of move

  /** A move keeps the 4x4 shape and the sum of the board. */
  lemma MoveSum(b: Board, d: Direction)
    requires IsBoard(b)
    ensures IsBoard(Move(b, d)) && BoardSum(Move(b, d)) == BoardSum(b)
  {
    var o := Orient(b, d);
    OrientKeepsTotals(b, d);
    forall i | 0 <= i < |o| ensures Sum(SlideRows(o)[i]) == Sum(o[i]) {
      SlideSum(o[i]);
    }
    BoardSumRowwise(SlideRows(o), o);
    OrientKeepsTotals(SlideRows(o), d);
  }

  lemma {:induction false} SlideRowsCount(o: Board)
    ensures TileCount(SlideRows(o)) == TileCount(o) - BoardMerges(o)
    ensures 2 * BoardMerges(o) <= TileCount(o)
  {
    if o != [] {
      assert SlideRows(o)[1..] == SlideRows(o[1..]);
      TileCountCons(o);
      TileCountCons(SlideRows(o));
      SlideCount(o[0]);
      SlideRowsCount(o[1..]);
    }
  }

  /** A move removes exactly one tile per merge and adds none. */
  lemma MoveCount(b: Board, d: Direction)
    requires IsBoard(b)
    ensures TileCount(Move(b, d)) == TileCount(b) - BoardMerges(Orient(b, d))
    ensures TileCount(Move(b, d)) <= TileCount(b)
  {
    var o := Orient(b, d);
    OrientKeepsTotals(b, d);
    SlideRowsCount(o);
    OrientKeepsTotals(SlideRows(o), d);
  }

  /** A move keeps every cell a legal tile value. */
  lemma MoveTiles(b: Board, d: Direction)
    requires IsBoard(b) && AllTiles(b)
    ensures AllTiles(Move(b, d))
  {
    var o := Orient(b, d);
    OrientKeepsTiles(b, d);
    forall i | 0 <= i < |o|
      ensures forall j :: 0 <= j < |SlideRows(o)[i]| ==> IsTile(SlideRows(o)[i][j])
    {
      assert forall j :: 0 <= j < |o[i]| ==> IsTile(o[i][j]);
      SlideTiles(o[i]);
    }
    OrientKeepsTiles(SlideRows(o), d);
  }

  /** `left` slides every row as it is. */
  lemma MoveLeft(b: Board)
    requires IsBoard(b)
    ensures Move(b, Left) == SlideRows(b)
  {
  }

  /** `right` is, row by row, reverse, slide, reverse. */
  lemma MoveRight(b: Board)
    requires IsBoard(b)
    ensures Move(b, Right) == seq(SIZE, i requires 0 <= i < SIZE => Reverse(Slide(Reverse(b[i]))))
  {
  }

  /** `up` and `down` are `left` and `right` on the transposed board,
      transposed back. */
  lemma MoveVertical(b: Board)
    requires IsBoard(b)
    ensures IsBoard(Transpose(b))
    ensures Move(b, Up) == Transpose(Move(Transpose(b), Left))
    ensures Move(b, Down) == Transpose(Move(Transpose(b), Right))
  {
    IsBoardTranspose(b);
  }

  /** A move whose turned board has a line that sliding changes changes the
      board. */
  lemma LineChangesMove(b: Board, d: Direction, i: int)
    requires IsBoard(b) && 0 <= i < SIZE
    requires Slide(Orient(b, d)[i]) != Orient(b, d)[i]
    ensures Move(b, d) != b
  {
  }

  /** A move that changes the board leaves at least one empty cell, so the
      tile spawned after it always has a place. */
  lemma MovedBoardHasRoom(b: Board, d: Direction)
    requires IsBoard(b) && Move(b, d) != b
    ensures TileCount(Move(b, d)) < SIZE * SIZE
  {
    var o := Orient(b, d);
    var s := SlideRows(o);
    if s == o {
      UnorientOrient(b, d);
      assert false;
    }
    var i :| 0 <= i < SIZE && s[i] != o[i];
    SlideChangedHasRoom(o[i]);
    TileCountBound(s, SIZE);
    OrientKeepsTotals(s, d);
  }

  // ---------------------------------------------------------------------------
  // The end of the game

  lemma StuckReverse(s: Row)
    requires Stuck(s)
    ensures Stuck(Reverse(s))
  {
    forall k | 0 <= k < |s| - 1 ensures Reverse(s)[k] != Reverse(s)[k + 1] {
      assert Reverse(s)[k] == s[|s| - 1 - k] && Reverse(s)[k + 1] == s[|s| - 2 - k];
    }
    assert forall k :: 0 <= k < |s| ==> Reverse(s)[k] != 0;
  }

  /** On a terminal board every row and every column is stuck. */
  lemma TerminalLinesStuck(b: Board, i: int)
    requires IsBoard(b) && IsTerminal(b) && 0 <= i < SIZE
    ensures Stuck(b[i]) && Stuck(Transpose(b)[i])
  {
    forall c | 0 <= c < SIZE ensures b[i][c] != 0 && Transpose(b)[i][c] != 0 {
      assert CellStuck(b, i, c);
      assert CellStuck(b, c, i);
    }
    forall c | 0 <= c < SIZE - 1 ensures b[i][c] != b[i][c + 1] {
      assert CellStuck(b, i, c);
    }
    forall c | 0 <= c < SIZE - 1 ensures Transpose(b)[i][c] != Transpose(b)[i][c + 1] {
      assert CellStuck(b, c, i);
    }
  }

  /** No move changes a terminal board. */
  lemma TerminalNoOp(b: Board, d: Direction)
    requires IsBoard(b) && IsTerminal(b)
    ensures Move(b, d) == b
  {
    var o := Orient(b, d);
    forall i | 0 <= i < SIZE ensures SlideRows(o)[i] == o[i] {
      TerminalLinesStuck(b, i);
      StuckReverse(b[i]);
      StuckReverse(Transpose(b)[i]);
      OrientRows(b, i);
      SlideStuck(o[i]);
    }
    assert SlideRows(o) == o;
    UnorientOrient(b, d);
  }

  /** A line with an empty cell and a tile changes when slid one way or the
      other. */
  lemma GapLineChanges(s: Row, i: int, j: int)
    requires 0 <= i < |s| && 0 <= j < |s| && s[i] == 0 && s[j] != 0
    ensures Slide(s) != s || Slide(Reverse(s)) != Reverse(s)
  {
    if i < j {
      SlideMovesGap(s, i, j);
    } else {
      SlideMovesGap(Reverse(s), |s| - 1 - i, |s| - 1 - j);
    }
  }

  /** On a board with a tile that is not terminal some move changes the
      board. */
  lemma ChangingMove(b: Board) returns (d: Direction)
    requires IsBoard(b) && !IsTerminal(b)
    requires exists i, j :: 0 <= i < SIZE && 0 <= j < SIZE && b[i][j] != 0
    ensures Move(b, d) != b
  {
    var r2, c2 :| 0 <= r2 < SIZE && 0 <= c2 < SIZE && b[r2][c2] != 0;
    var t := Transpose(b);
    if r1, c1 :| 0 <= r1 < SIZE && 0 <= c1 < SIZE && b[r1][c1] == 0 {
      OrientRows(b, r2);
      OrientRows(b, c1);
      if b[r2][c1] == 0 {
        GapLineChanges(b[r2], c1, c2);
        d := if Slide(b[r2]) != b[r2] then Left else Right;
        LineChangesMove(b, d, r2);
      } else {
        assert t[c1][r1] == 0 && t[c1][r2] != 0;
        GapLineChanges(t[c1], r1, r2);
        d := if Slide(t[c1]) != t[c1] then Up else Down;
        LineChangesMove(b, d, c1);
      }
    } else {
      var r, c :| 0 <= r < SIZE && 0 <= c < SIZE && !CellStuck(b, r, c);
      OrientRows(b, r);
      OrientRows(b, c);
      if c + 1 < SIZE && b[r][c] == b[r][c + 1] {
        assert forall k :: 0 <= k < SIZE ==> b[r][k] != 0;
        SlideMergesFull(b[r], c);
        d := Left;
        LineChangesMove(b, d, r);
      } else {
        assert forall k :: 0 <= k < SIZE ==> t[c][k] != 0;
        assert t[c][r] == t[c][r + 1];
        SlideMergesFull(t[c], r);
        d := Up;
        LineChangesMove(b, d, c);
      }
    }
  }

  /** A board with at least one tile is terminal exactly when no move
      changes it. */
  lemma TerminalIffNoMove(b: Board)
    requires IsBoard(b)
    requires exists i, j :: 0 <= i < SIZE && 0 <= j < SIZE && b[i][j] != 0
    ensures IsTerminal(b) <==> forall d :: Move(b, d) == b
  {
    if IsTerminal(b) {
      forall d ensures Move(b, d) == b {
        TerminalNoOp(b, d);
      }
    } else {
      var d := ChangingMove(b);
    }
  }

  // ---------------------------------------------------------------------------
  // Worked examples

  /** A lone tile already at the left edge does not move: `left` is a no-op. */
  lemma NoOpExample()
    ensures Move([[2, 0, 0, 0], [0, 0, 0, 0], [0, 0, 0, 0], [0, 0, 0, 0]], Left)
         == [[2, 0, 0, 0], [0, 0, 0, 0], [0, 0, 0, 0], [0, 0, 0, 0]]
  {
    assert Compact([2, 0, 0, 0]) == [2];
    assert MergePairs([2]) == [2];
    assert Zeros(3) == [0, 0, 0];
    assert Slide([2, 0, 0, 0]) == [2, 0, 0, 0];
    assert Compact([0, 0, 0, 0]) == [];
    assert Zeros(4) == [0, 0, 0, 0];
    assert Slide([0, 0, 0, 0]) == [0, 0, 0, 0];
  }

  /** A full checkerboard of 2s and 4s is terminal. */
  lemma TerminalExample()
    ensures IsTerminal([[2, 4, 2, 4], [4, 2, 4, 2], [2, 4, 2, 4], [4, 2, 4, 2]])
  {
  }
}
