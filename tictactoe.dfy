/**
 * Tic-tac-toe: the board, the rules (whose turn it is, the legal moves, the
 * board after a move, the winner, game over, the score) and the exhaustive
 * minimax search through the mutually recursive `max_value`/`min_value`.
 */
module TicTacToe {
  import opened Wrappers
  import opened Scan

  /** A square: a player's mark, or empty (the source's `None`). */
  datatype Mark = X | O | Empty

  type Cell = (int, int)

  /** A 3x3 grid of marks, indexed board[row][column]. */
  type Board = b: seq<seq<Mark>> | |b| == 3 && forall i :: 0 <= i < 3 ==> |b[i]| == 3
    witness [[Empty, Empty, Empty], [Empty, Empty, Empty], [Empty, Empty, Empty]]

  /** `initial_state`: every square empty. */
  function InitialState(): (b: Board)
    ensures forall i, j :: 0 <= i < 3 && 0 <= j < 3 ==> b[i][j] == Empty
  {
    [[Empty, Empty, Empty], [Empty, Empty, Empty], [Empty, Empty, Empty]]
  }

  /** The squares holding mark `m`. */
  function Cells(b: Board, m: Mark): set<Cell>
  {
    set i, j | 0 <= i < 3 && 0 <= j < 3 && b[i][j] == m :: (i, j)
  }

  lemma CellsWithin(b: Board, m: Mark)
    ensures Within(Cells(b, m), 0, 3, 0, 3)
  {
  }

  /** Two boards that agree on every square are equal. */
  lemma BoardEquality(a: Board, b: Board)
    requires forall i, j :: 0 <= i < 3 && 0 <= j < 3 ==> a[i][j] == b[i][j]
    ensures a == b
  {
    forall i | 0 <= i < 3
      ensures a[i] == b[i]
    {
      assert a[i][0] == b[i][0] && a[i][1] == b[i][1] && a[i][2] == b[i][2];
    }
  }

  // ---------------------------------------------------------------------
  // player

  /** `player`: X moves when it has placed no more marks than O, otherwise O. */
  function Player(b: Board): (p: Mark)
    ensures p != Empty
    ensures p == X <==> |Cells(b, X)| <= |Cells(b, O)|
  {
    if |Cells(b, X)| <= |Cells(b, O)| then X else O
  }

  /** The counting loops of `player`. */
  method PlayerOf(board: Board) returns (p: Mark)
    ensures p == Player(board)
  {
    ghost var xs, os := Cells(board, X), Cells(board, O);
    CellsWithin(board, X);
    CellsWithin(board, O);
    UptoStart(xs, 0, 3, 0, 3);
    UptoStart(os, 0, 3, 0, 3);
    var xCount, oCount := 0, 0;
    var i := 0;
    while i < 3
      invariant 0 <= i <= 3
      invariant xCount == |Upto(xs, i, 0)| && oCount == |Upto(os, i, 0)|
    {
      var j := 0;
      while j < 3
        invariant 0 <= j <= 3
        invariant xCount == |Upto(xs, i, j)| && oCount == |Upto(os, i, j)|
      {
        if (i, j) in xs {
          UptoAdd(xs, i, j);
        } else {
          UptoSkip(xs, i, j);
        }
        if (i, j) in os {
          UptoAdd(os, i, j);
        } else {
          UptoSkip(os, i, j);
        }
        if board[i][j] == X {
          xCount := xCount + 1;
        }
        if board[i][j] == O {
          oCount := oCount + 1;
        }
        j := j + 1;
      }
      UptoRow(xs, i, j, 0, 3, 0, 3);
      UptoRow(os, i, j, 0, 3, 0, 3);
      i := i + 1;
    }
    UptoEnd(xs, i, 0, 3, 0, 3);
    UptoEnd(os, i, 0, 3, 0, 3);
    if xCount <= oCount {
      p := X;
    } else {
      p := O;
    }
  }

  /** X opens the game. */
  lemma InitialPlayer()
    ensures Player(InitialState()) == X
  {
    assert Cells(InitialState(), X) == {};
  }

  // ---------------------------------------------------------------------
  // actions

  /** `actions`: the empty squares. */
  function Actions(b: Board): (r: set<Cell>)
    ensures forall a :: a in r <==> 0 <= a.0 < 3 && 0 <= a.1 < 3 && b[a.0][a.1] == Empty
  {
    Cells(b, Empty)
  }

  /** The loops of `actions`, adding each empty square to the set. */
  method ActionsOf(board: Board) returns (actions: set<Cell>)
    ensures actions == Actions(board)
  {
    ghost var empty := Actions(board);
    CellsWithin(board, Empty);
    UptoStart(empty, 0, 3, 0, 3);
    actions := {};
    var i := 0;
    while i < 3
      invariant 0 <= i <= 3
      invariant actions == Upto(empty, i, 0)
    {
      var j := 0;
      while j < 3
        invariant 0 <= j <= 3
        invariant actions == Upto(empty, i, j)
      {
        if (i, j) in empty {
          UptoAdd(empty, i, j);
        } else {
          UptoSkip(empty, i, j);
        }
        if board[i][j] == Empty {
          actions := actions + {(i, j)};
        }
        j := j + 1;
      }
      UptoRow(empty, i, j, 0, 3, 0, 3);
      i := i + 1;
    }
    UptoEnd(empty, i, 0, 3, 0, 3);
  }

  // ---------------------------------------------------------------------
  // result

  /** What `result` produces: the new board, or the exception it raises. */
  datatype Outcome = Ok(board: Board) | ActionNone | IndexError

  /** An action as the source receives it: a pair whose components, or the pair itself, may be None. */
  type Action = Option<(Option<int>, Option<int>)>

  /** The action for a square. */
  function Move(a: Cell): Action
  {
    Some((Some(a.0), Some(a.1)))
  }

  /** A Python index into a three-element list: -3..-1 count from the end. */
  function Wrap(k: int): (r: int)
    requires -3 <= k < 3
    ensures 0 <= r < 3 && r % 3 == k % 3
  {
    if k < 0 then k + 3 else k
  }

  /** The board with square (i, j) set to `m`. */
  function Place(b: Board, i: int, j: int, m: Mark): (r: Board)
    requires 0 <= i < 3 && 0 <= j < 3
    ensures r[i][j] == m
    ensures forall p, q :: 0 <= p < 3 && 0 <= q < 3 && (p, q) != (i, j) ==> r[p][q] == b[p][q]
  {
    b[i := b[i][j := m]]
  }

  /**
   * `result`: a copy of the board with the mover's mark at the action's
   * square; an exception when the action or a coordinate is None, or when a
   * coordinate is out of the list's range.
   */
  function Result(b: Board, action: Action): (r: Outcome)
    ensures action.None? || action.value.0.None? || action.value.1.None? <==> r == ActionNone
    ensures r.Ok? ==>
      action.Some? && action.value.0.Some? && action.value.1.Some? &&
      -3 <= action.value.0.value < 3 && -3 <= action.value.1.value < 3 &&
      var (i, j) := (Wrap(action.value.0.value), Wrap(action.value.1.value));
      r.board[i][j] == Player(b) &&
      forall p, q :: 0 <= p < 3 && 0 <= q < 3 && (p, q) != (i, j) ==> r.board[p][q] == b[p][q]
    ensures r == IndexError <==>
      action.Some? && action.value.0.Some? && action.value.1.Some? &&
      !(-3 <= action.value.0.value < 3 && -3 <= action.value.1.value < 3)
  {
    if action.None? || action.value.0.None? || action.value.1.None? then
      ActionNone
    else
      var (i, j) := (action.value.0.value, action.value.1.value);
      if !(-3 <= i < 3 && -3 <= j < 3) then IndexError
      else Ok(Place(b, Wrap(i), Wrap(j), Player(b)))
  }

  /** `result`'s copy loop into a fresh board, then the move. */
  method ResultOf(board: Board, action: Action) returns (r: Outcome)
    ensures r == Result(board, action)
  {
    var newBoard := InitialState();
    if action.None? || action.value.0.None? || action.value.1.None? {
      return ActionNone;
    }
    var i := 0;
    while i < 3
      invariant 0 <= i <= 3
      invariant forall p, q :: 0 <= p < 3 && 0 <= q < 3 ==> newBoard[p][q] == if p < i then board[p][q] else Empty
    {
      var j := 0;
      while j < 3
        invariant 0 <= j <= 3
        invariant forall p, q :: 0 <= p < 3 && 0 <= q < 3 ==>
          newBoard[p][q] == if p < i || (p == i && q < j) then board[p][q] else Empty
      {
        newBoard := Place(newBoard, i, j, board[i][j]);
        j := j + 1;
      }
      i := i + 1;
    }
    BoardEquality(newBoard, board);
    var (row, col) := (action.value.0.value, action.value.1.value);
    var mark := PlayerOf(newBoard);
    if !(-3 <= row < 3 && -3 <= col < 3) {
      return IndexError;
    }
    newBoard := Place(newBoard, Wrap(row), Wrap(col), mark);
    return Ok(newBoard);
  }

  /** The board after the mover plays on an empty square. */
  function Successor(b: Board, a: Cell): Board
    requires a in Actions(b)
  {
    Place(b, a.0, a.1, Player(b))
  }

  /**
   * Playing an empty square: `result` succeeds, the square leaves the legal
   * moves and joins the mover's squares, and the other player's squares stay.
   */
  lemma SuccessorFacts(b: Board, a: Cell)
    requires a in Actions(b)
    ensures Result(b, Move(a)) == Ok(Successor(b, a))
    ensures Actions(Successor(b, a)) == Actions(b) - {a}
    ensures |Actions(Successor(b, a))| == |Actions(b)| - 1
    ensures Cells(Successor(b, a), Player(b)) == Cells(b, Player(b)) + {a}
    ensures a !in Cells(b, Player(b))
    ensures forall m :: m != Player(b) && m != Empty ==> Cells(Successor(b, a), m) == Cells(b, m)
  {
    var s := Successor(b, a);
    assert Wrap(a.0) == a.0 && Wrap(a.1) == a.1;
    PlaceCells(b, a.0, a.1, Player(b), Empty);
    PlaceCells(b, a.0, a.1, Player(b), Player(b));
    forall m | m != Player(b) && m != Empty
      ensures Cells(s, m) == Cells(b, m)
    {
      PlaceCells(b, a.0, a.1, Player(b), m);
      assert a !in Cells(b, m);
    }
  }

  /** Writing `m` at (i, j) adds the square to `m`'s squares and takes it from every other mark's. */
  lemma PlaceCells(b: Board, i: int, j: int, m: Mark, n: Mark)
    requires 0 <= i < 3 && 0 <= j < 3
    ensures Cells(Place(b, i, j, m), n) == if n == m then Cells(b, n) + {(i, j)} else Cells(b, n) - {(i, j)}
  {
  }

  /**
   * On a board reached by alternating play (X has as many marks as O, or
   * one more), a move keeps that balance and hands the turn to the other player.
   */
  lemma PlayerAlternates(b: Board, a: Cell)
    requires |Cells(b, O)| <= |Cells(b, X)| <= |Cells(b, O)| + 1
    requires a in Actions(b)
    ensures |Cells(Successor(b, a), O)| <= |Cells(Successor(b, a), X)| <= |Cells(Successor(b, a), O)| + 1
    ensures Player(Successor(b, a)) != Player(b)
  {
    SuccessorFacts(b, a);
    if Player(b) == X {
      assert Cells(Successor(b, a), O) == Cells(b, O);
    } else {
      assert Cells(Successor(b, a), X) == Cells(b, X);
    }
  }

  // ---------------------------------------------------------------------
  // winner, terminal, utility

  predicate RowOf(b: Board, i: int, m: Mark)
    requires 0 <= i < 3
  {
    b[i][0] == m && b[i][1] == m && b[i][2] == m
  }

  predicate ColumnOf(b: Board, i: int, m: Mark)
    requires 0 <= i < 3
  {
    b[0][i] == m && b[1][i] == m && b[2][i] == m
  }

  predicate DiagonalOf(b: Board, m: Mark)
  {
    b[0][0] == m && b[1][1] == m && b[2][2] == m
  }

  predicate AntiDiagonalOf(b: Board, m: Mark)
  {
    b[0][2] == m && b[1][1] == m && b[2][0] == m
  }

  /** A player's mark `m` fills a row or column with index at least `k`, or a diagonal. */
  predicate WinsFrom(b: Board, k: int, m: Mark)
  {
    m != Empty &&
    ((exists i :: k <= i < 3 && 0 <= i && (RowOf(b, i, m) || ColumnOf(b, i, m))) ||
     DiagonalOf(b, m) || AntiDiagonalOf(b, m))
  }

  /** A player's mark `m` fills some row, column or diagonal. */
  predicate Wins(b: Board, m: Mark)
  {
    WinsFrom(b, 0, m)
  }

  /** The loop of `winner` from index `k`: row k, then column k, then the later indices, then the diagonals. */
  function WinnerFrom(b: Board, k: int): (r: Mark)
    requires 0 <= k <= 3
    ensures r != Empty ==> WinsFrom(b, k, r)
    ensures r == Empty ==> !WinsFrom(b, k, X) && !WinsFrom(b, k, O)
    decreases 3 - k
  {
    if k == 3 then
      if b[0][0] == b[1][1] && b[1][1] == b[2][2] && b[2][2] != Empty then b[0][0]
      else if b[0][2] == b[1][1] && b[1][1] == b[2][0] && b[2][0] != Empty then b[0][2]
      else Empty
    else if b[k][0] == b[k][1] && b[k][1] == b[k][2] && b[k][2] != Empty then
      assert RowOf(b, k, b[k][0]);
      b[k][0]
    else if b[0][k] == b[1][k] && b[1][k] == b[2][k] && b[2][k] != Empty then
      assert ColumnOf(b, k, b[0][k]);
      b[0][k]
    else
      var r := WinnerFrom(b, k + 1);
      assert forall m :: m != Empty && !RowOf(b, k, m) && !ColumnOf(b, k, m) ==>
        (WinsFrom(b, k, m) <==> WinsFrom(b, k + 1, m));
      r
  }

  /** `winner`: a player whose mark fills a line, or Empty (the source's None) when neither does. */
  function Winner(b: Board): (r: Mark)
    ensures r != Empty ==> Wins(b, r)
    ensures r == Empty <==> !Wins(b, X) && !Wins(b, O)
  {
    WinnerFrom(b, 0)
  }

  /** No square is empty. */
  predicate Full(b: Board)
  {
    forall i, j :: 0 <= i < 3 && 0 <= j < 3 ==> b[i][j] != Empty
  }

  /** `terminal`: the game is over when someone has won or no square is left. */
  function Terminal(b: Board): (t: bool)
    ensures t <==> Winner(b) != Empty || Actions(b) == {}
  {
    FullIffNoActions(b);
    Winner(b) != Empty || Full(b)
  }

  lemma FullIffNoActions(b: Board)
    ensures Full(b) <==> Actions(b) == {}
  {
    if !Full(b) {
      var i, j :| 0 <= i < 3 && 0 <= j < 3 && b[i][j] == Empty;
      assert (i, j) in Actions(b);
    }
  }

  /** `terminal`'s loops, returning as soon as an empty square is found. */
  method IsTerminal(board: Board) returns (t: bool)
    ensures t == Terminal(board)
  {
    if Winner(board) != Empty {
      return true;
    }
    var i := 0;
    while i < 3
      invariant 0 <= i <= 3
      invariant forall p, q :: 0 <= p < i && 0 <= q < 3 ==> board[p][q] != Empty
    {
      var j := 0;
      while j < 3
        invariant 0 <= j <= 3
        invariant forall q :: 0 <= q < j ==> board[i][q] != Empty
      {
        if board[i][j] == Empty {
          return false;
        }
        j := j + 1;
      }
      i := i + 1;
    }
    return true;
  }

  /** `utility`: 1 when X has won, -1 when O has, 0 for a draw; None while the game goes on. */
  function Utility(b: Board): (r: Option<int>)
    ensures r.Some? <==> Terminal(b)
    ensures r == Some(1) <==> Terminal(b) && Winner(b) == X
    ensures r == Some(-1) <==> Terminal(b) && Winner(b) == O
    ensures r == Some(0) <==> Terminal(b) && Winner(b) == Empty
  {
    if Terminal(b) then
      if Winner(b) == X then Some(1)
      else if Winner(b) == O then Some(-1)
      else Some(0)
    else
      None
  }

  // ---------------------------------------------------------------------
  // minimax

  /** A minimax value: a finite utility, or the `-math.inf`/`math.inf` a search loop starts from. */
  datatype Score = NegInf | Fin(v: int) | PosInf

  /** `a < c` on scores. */
  predicate Below(a: Score, c: Score)
  {
    (a.NegInf? && !c.NegInf?) || (a.Fin? && (c.PosInf? || (c.Fin? && a.v < c.v)))
  }

  /** A score a search can return. */
  predicate Valued(s: Score)
  {
    s.Fin? && -1 <= s.v <= 1
  }

  /** Squares k..8 in row-major order that are empty. */
  function OrderFrom(b: Board, k: int): (r: seq<Cell>)
    requires 0 <= k <= 9
    ensures forall a :: a in r <==> a in Actions(b) && 3 * a.0 + a.1 >= k
    decreases 9 - k
  {
    if k == 9 then []
    else
      var a := (k / 3, k % 3);
      (if b[a.0][a.1] == Empty then [a] else []) + OrderFrom(b, k + 1)
  }

  /** The order in which the search loops visit `actions(board)`. */
  function Order(b: Board): (r: seq<Cell>)
    ensures forall a :: a in r <==> a in Actions(b)
  {
    OrderFrom(b, 0)
  }

  /** `max_value`: the utility of a finished game, else the best reply value for X and a move reaching it. */
  function MaxValue(b: Board): (r: (Score, Option<Cell>))
    ensures Valued(r.0)
    decreases |Actions(b)|, 1, 0
  {
    if Terminal(b) then (Fin(Utility(b).value), None)
    else
      var a :| a in Actions(b);
      assert a in Order(b);
      MaxLoop(b, Order(b), NegInf, None)
  }

  /** `min_value`: the utility of a finished game, else the best reply value for O and a move reaching it. */
  function MinValue(b: Board): (r: (Score, Option<Cell>))
    ensures Valued(r.0)
    decreases |Actions(b)|, 1, 0
  {
    if Terminal(b) then (Fin(Utility(b).value), None)
    else
      var a :| a in Actions(b);
      assert a in Order(b);
      MinLoop(b, Order(b), PosInf, None)
  }

  /** The loop of `max_value` over the moves `acts` still to try, with best value `v` and move `best` so far. */
  function MaxLoop(b: Board, acts: seq<Cell>, v: Score, best: Option<Cell>): (r: (Score, Option<Cell>))
    requires forall a :: a in acts ==> a in Actions(b)
    requires Valued(v) || (v.NegInf? && acts != [])
    ensures Valued(r.0)
    decreases |Actions(b)|, 0, |acts|
  {
    if acts == [] then (v, best)
    else
      var a := acts[0];
      var value := Fin(MaxReply(b, a));
      if Below(v, value) then MaxLoop(b, acts[1..], value, Some(a))
      else MaxLoop(b, acts[1..], v, best)
  }

  /** The loop of `min_value`. */
  function MinLoop(b: Board, acts: seq<Cell>, v: Score, best: Option<Cell>): (r: (Score, Option<Cell>))
    requires forall a :: a in acts ==> a in Actions(b)
    requires Valued(v) || (v.PosInf? && acts != [])
    ensures Valued(r.0)
    decreases |Actions(b)|, 0, |acts|
  {
    if acts == [] then (v, best)
    else
      var a := acts[0];
      var value := Fin(MinReply(b, a));
      if Below(value, v) then MinLoop(b, acts[1..], value, Some(a))
      else MinLoop(b, acts[1..], v, best)
  }

  /** The value of a move for X: what O can hold it to. */
  function MaxReply(b: Board, a: Cell): (r: int)
    requires a in Actions(b)
    ensures -1 <= r <= 1
    decreases |Actions(b)|, 0, 0
  {
    SuccessorFacts(b, a);
    MinValue(Successor(b, a)).0.v
  }

  /** The value of a move for O: what X can raise it to. */
  function MinReply(b: Board, a: Cell): (r: int)
    requires a in Actions(b)
    ensures -1 <= r <= 1
    decreases |Actions(b)|, 0, 0
  {
    SuccessorFacts(b, a);
    MaxValue(Successor(b, a)).0.v
  }

  /** The max loop ends with the largest of `v` and the values of the moves in `acts`. */
  lemma {:induction false} MaxLoopBound(b: Board, acts: seq<Cell>, v: Score, best: Option<Cell>)
    requires forall a :: a in acts ==> a in Actions(b)
    requires Valued(v) || (v.NegInf? && acts != [])
    ensures var r := MaxLoop(b, acts, v, best);
      !Below(r.0, v) && forall a :: a in acts ==> MaxReply(b, a) <= r.0.v
    decreases |acts|
  {
    if acts != [] {
      var a := acts[0];
      var value := Fin(MaxReply(b, a));
      assert acts == [a] + acts[1..];
      if Below(v, value) {
        assert MaxLoop(b, acts, v, best) == MaxLoop(b, acts[1..], value, Some(a));
        MaxLoopBound(b, acts[1..], value, Some(a));
      } else {
        assert MaxLoop(b, acts, v, best) == MaxLoop(b, acts[1..], v, best);
        MaxLoopBound(b, acts[1..], v, best);
      }
    }
  }

  /** The max loop keeps (v, best) unless a move of `acts` beats `v`, and then returns a move of `acts` reaching the result. */
  lemma {:induction false} MaxLoopWitness(b: Board, acts: seq<Cell>, v: Score, best: Option<Cell>)
    requires forall a :: a in acts ==> a in Actions(b)
    requires Valued(v) || (v.NegInf? && acts != [])
    ensures var r := MaxLoop(b, acts, v, best);
      r == (v, best) || (r.1.Some? && r.1.value in acts && MaxReply(b, r.1.value) == r.0.v)
    decreases |acts|
  {
    if acts != [] {
      var a := acts[0];
      var value := Fin(MaxReply(b, a));
      assert acts == [a] + acts[1..];
      if Below(v, value) {
        assert MaxLoop(b, acts, v, best) == MaxLoop(b, acts[1..], value, Some(a));
        MaxLoopWitness(b, acts[1..], value, Some(a));
      } else {
        assert MaxLoop(b, acts, v, best) == MaxLoop(b, acts[1..], v, best);
        MaxLoopWitness(b, acts[1..], v, best);
      }
    }
  }

  /** The min loop ends with the smallest of `v` and the values of the moves in `acts`. */
  lemma {:induction false} MinLoopBound(b: Board, acts: seq<Cell>, v: Score, best: Option<Cell>)
    requires forall a :: a in acts ==> a in Actions(b)
    requires Valued(v) || (v.PosInf? && acts != [])
    ensures var r := MinLoop(b, acts, v, best);
      !Below(v, r.0) && forall a :: a in acts ==> r.0.v <= MinReply(b, a)
    decreases |acts|
  {
    if acts != [] {
      var a := acts[0];
      var value := Fin(MinReply(b, a));
      assert acts == [a] + acts[1..];
      if Below(value, v) {
        assert MinLoop(b, acts, v, best) == MinLoop(b, acts[1..], value, Some(a));
        MinLoopBound(b, acts[1..], value, Some(a));
      } else {
        assert MinLoop(b, acts, v, best) == MinLoop(b, acts[1..], v, best);
        MinLoopBound(b, acts[1..], v, best);
      }
    }
  }

  /** The min loop keeps (v, best) unless a move of `acts` beats `v`, and then returns a move of `acts` reaching the result. */
  lemma {:induction false} MinLoopWitness(b: Board, acts: seq<Cell>, v: Score, best: Option<Cell>)
    requires forall a :: a in acts ==> a in Actions(b)
    requires Valued(v) || (v.PosInf? && acts != [])
    ensures var r := MinLoop(b, acts, v, best);
      r == (v, best) || (r.1.Some? && r.1.value in acts && MinReply(b, r.1.value) == r.0.v)
    decreases |acts|
  {
    if acts != [] {
      var a := acts[0];
      var value := Fin(MinReply(b, a));
      assert acts == [a] + acts[1..];
      if Below(value, v) {
        assert MinLoop(b, acts, v, best) == MinLoop(b, acts[1..], value, Some(a));
        MinLoopWitness(b, acts[1..], value, Some(a));
      } else {
        assert MinLoop(b, acts, v, best) == MinLoop(b, acts[1..], v, best);
        MinLoopWitness(b, acts[1..], v, best);
      }
    }
  }

  /**
   * `max_value` on a finished game is its utility and no move; otherwise its
   * value is the maximum over the legal moves of the opponent's `min_value`,
   * and the move it returns is legal and reaches that maximum.
   */
  lemma MaxValueOptimal(b: Board)
    ensures Terminal(b) ==> MaxValue(b) == (Fin(Utility(b).value), None)
    ensures !Terminal(b) ==>
      var r := MaxValue(b);
      r.1.Some? && r.1.value in Actions(b) && MaxReply(b, r.1.value) == r.0.v &&
      forall a :: a in Actions(b) ==> MaxReply(b, a) <= r.0.v
  {
    if !Terminal(b) {
      var a :| a in Actions(b);
      assert a in Order(b);
      MaxLoopBound(b, Order(b), NegInf, None);
      MaxLoopWitness(b, Order(b), NegInf, None);
    }
  }

  /** `min_value` likewise, with the minimum over the moves of the opponent's `max_value`. */
  lemma MinValueOptimal(b: Board)
    ensures Terminal(b) ==> MinValue(b) == (Fin(Utility(b).value), None)
    ensures !Terminal(b) ==>
      var r := MinValue(b);
      r.1.Some? && r.1.value in Actions(b) && MinReply(b, r.1.value) == r.0.v &&
      forall a :: a in Actions(b) ==> r.0.v <= MinReply(b, a)
  {
    if !Terminal(b) {
      var a :| a in Actions(b);
      assert a in Order(b);
      MinLoopBound(b, Order(b), PosInf, None);
      MinLoopWitness(b, Order(b), PosInf, None);
    }
  }

  /**
   * `minimax`: no move on a finished game; otherwise a legal move that is
   * optimal for the player to move (the best value X can force, the least
   * value O can be held to).
   */
  function Minimax(b: Board): (r: Option<Cell>)
    ensures r.None? <==> Terminal(b)
    ensures r.Some? ==> r.value in Actions(b)
    ensures r.Some? && Player(b) == X ==> forall a :: a in Actions(b) ==> MaxReply(b, a) <= MaxReply(b, r.value)
    ensures r.Some? && Player(b) == O ==> forall a :: a in Actions(b) ==> MinReply(b, r.value) <= MinReply(b, a)
  {
    MaxValueOptimal(b);
    MinValueOptimal(b);
    if Terminal(b) then None
    else if Player(b) == X then MaxValue(b).1
    else MinValue(b).1
  }
}
