/**
 * The game board's `nearby_mines` over a given mine grid: the count an
 * observation reports, which the soundness lemmas of KnowledgeFacts take as
 * the `count` handed to `add_knowledge`.
 */
module MinesweeperBoard {
  import opened Knowledge
  import KF = KnowledgeFacts
  import opened Scan

  /** A height x width grid; `board[i][j]` holds a mine. */
  predicate Shaped(board: seq<seq<bool>>, height: int, width: int)
  {
    |board| == height && forall i :: 0 <= i < |board| ==> |board[i]| == width
  }

  /** The mined cells of a grid. */
  function MinesOf(board: seq<seq<bool>>): set<Cell>
  {
    set i, j | 0 <= i < |board| && 0 <= j < |board[i]| && board[i][j] :: (i, j)
  }

  /** The mined neighbours of `cell`. */
  ghost function Near(board: seq<seq<bool>>, height: int, width: int, cell: Cell): set<Cell>
  {
    set n | n in Block(height, width, cell) && n != cell && n in MinesOf(board)
  }

  /**
   * `nearby_mines`: the loops over the 3x3 block around `cell`, skipping the
   * cell itself and the out-of-bounds squares, counting the mined ones.
   */
  method NearbyMines(board: seq<seq<bool>>, height: int, width: int, cell: Cell) returns (count: int)
    requires Shaped(board, height, width)
    ensures count == KF.NearbyCount(MinesOf(board), height, width, cell)
  {
    ghost var near := Near(board, height, width, cell);
    assert Within(near, cell.0 - 1, cell.0 + 2, cell.1 - 1, cell.1 + 2);
    UptoStart(near, cell.0 - 1, cell.0 + 2, cell.1 - 1, cell.1 + 2);
    count := 0;
    var i := cell.0 - 1;
    while i < cell.0 + 2
      invariant cell.0 - 1 <= i <= cell.0 + 2
      invariant count == |Upto(near, i, cell.1 - 1)|
    {
      NearRow(board, height, width, cell, i);
      count := CountRow(board, height, width, cell, i, count, near);
      UptoRow(near, i, cell.1 + 2, cell.0 - 1, cell.0 + 2, cell.1 - 1, cell.1 + 2);
      i := i + 1;
    }
    UptoEnd(near, i, cell.0 - 1, cell.0 + 2, cell.1 - 1, cell.1 + 2);
  }

  /** Which squares of row i of the block around `cell` the inner loop counts. */
  lemma NearRow(board: seq<seq<bool>>, height: int, width: int, cell: Cell, i: int)
    requires Shaped(board, height, width)
    requires cell.0 - 1 <= i <= cell.0 + 1
    ensures forall j :: cell.1 - 1 <= j <= cell.1 + 1 ==>
      ((i, j) in Near(board, height, width, cell) <==>
       (i, j) != cell && 0 <= i < height && 0 <= j < width && board[i][j])
  {
    forall j | cell.1 - 1 <= j <= cell.1 + 1 && (i, j) != cell && 0 <= i < height && 0 <= j < width
      ensures (i, j) in Block(height, width, cell)
      ensures board[i][j] <==> (i, j) in MinesOf(board)
    {
    }
  }

  /** The inner loop of `nearby_mines`, over row i of the block; `near` is the set the whole scan counts. */
  method CountRow(board: seq<seq<bool>>, height: int, width: int, cell: Cell, i: int, count0: int,
                  ghost near: set<Cell>)
    returns (count: int)
    requires Shaped(board, height, width)
    requires forall j :: cell.1 - 1 <= j <= cell.1 + 1 ==>
      ((i, j) in near <==> (i, j) != cell && 0 <= i < height && 0 <= j < width && board[i][j])
    requires count0 == |Upto(near, i, cell.1 - 1)|
    ensures count == |Upto(near, i, cell.1 + 2)|
  {
    count := count0;
    var j := cell.1 - 1;
    while j < cell.1 + 2
      invariant cell.1 - 1 <= j <= cell.1 + 2
      invariant count == |Upto(near, i, j)|
    {
      if (i, j) in near {
        UptoAdd(near, i, j);
      } else {
        UptoSkip(near, i, j);
      }
      if (i, j) != cell && 0 <= i < height && 0 <= j < width {
        if board[i][j] {
          count := count + 1;
        }
      }
      j := j + 1;
    }
  }
}
