/**
 * Hex on a size x size board. Cell `xy` is at row `xy / size`, column
 * `xy % size`. A cell holds 0 when empty, a positive group id for the side to
 * move and a negative one for the other side; a group's id is one more than
 * the index of the last stone that joined it. Placing a stone gives it the id
 * `action + 1` and relabels every adjacent own group to that id, so groups are
 * merged by relabelling. The board is negated after every move, so it is always
 * seen from the side to move.
 */
module HexGame {

  /** Row and column offsets of the six hex neighbours, in the source's order. */
  const DX: seq<int> := [0, 1, -1, 1, -1, 0]
  const DY: seq<int> := [-1, -1, 0, 0, 1, 1]

  predicate OnGrid(x: int, y: int, size: int)
  {
    0 <= x < size && 0 <= y < size
  }

  lemma CellInRange(x: int, y: int, size: int)
    requires OnGrid(x, y, size)
    ensures 0 <= x * size + y < size * size
  {
    MulNonNegative(x, size);
    MulNonNegative(size - 1 - x, size);
    assert (size - 1 - x) * size == (size - 1) * size - x * size;
    assert (size - 1) * size == size * size - size;
  }

  lemma {:induction false} MulNonNegative(a: int, b: int)
    requires b >= 0
    ensures a >= 0 ==> a * b >= 0
    decreases if a >= 0 then a else 0
  {
    if a > 0 {
      MulNonNegative(a - 1, b);
      assert a * b == (a - 1) * b + b;
    }
  }

  /** The row and column of a cell of the board are on the grid. */
  lemma RowInRange(xy: int, size: int)
    requires size >= 1 && 0 <= xy < size * size
    ensures OnGrid(xy / size, xy % size, size)
  {
    var q := xy / size;
    assert xy == q * size + xy % size;
    MulNonNegative(q - size, size);
    assert (q - size) * size == q * size - size * size;
    MulNonNegative(-q - 1, size);
    assert (-q - 1) * size == -(q * size) - size;
  }

  /** The index of the cell at row `x`, column `y`. */
  function Cell(x: int, y: int, size: int): (p: int)
    requires OnGrid(x, y, size)
    ensures 0 <= p < size * size && p == x * size + y
  {
    CellInRange(x, y, size);
    x * size + y
  }

  /** The cell `k` steps away along direction `k` of the hex neighbourhood, or -1 off the board. */
  function NeighbourAt(xy: int, size: int, k: int): (n: int)
    requires size >= 1 && 0 <= k < 6
    ensures n == -1 || 0 <= n < size * size
    ensures n != -1 <==> OnGrid(xy / size + DX[k], xy % size + DY[k], size)
  {
    var x := xy / size + DX[k];
    var y := xy % size + DY[k];
    if OnGrid(x, y, size) then Cell(x, y, size) else -1
  }

  /** `_neighbour`: the six neighbours of `xy`, each an index of the board or -1. */
  function Neighbour(xy: int, size: int): (nb: seq<int>)
    requires size >= 1
    ensures |nb| == 6
    ensures forall k | 0 <= k < 6 :: nb[k] == -1 || 0 <= nb[k] < size * size
    ensures forall k | 0 <= k < 6 :: nb[k] != -1 <==> OnGrid(xy / size + DX[k], xy % size + DY[k], size)
  {
    seq(6, k requires 0 <= k < 6 => NeighbourAt(xy, size, k))
  }

  /** The neighbour relation is symmetric: the opposite direction leads back. */
  lemma NeighbourSymmetric(xy: int, size: int, k: int)
    requires size >= 1 && 0 <= xy < size * size && 0 <= k < 6
    requires Neighbour(xy, size)[k] != -1
    ensures Neighbour(Neighbour(xy, size)[k], size)[5 - k] == xy
  {
    var n := NeighbourAt(xy, size, k);
    assert Neighbour(xy, size)[k] == n;
    NeighbourAtInverse(xy, size, k);
    assert Neighbour(n, size)[5 - k] == NeighbourAt(n, size, 5 - k);
  }

  lemma NeighbourAtInverse(xy: int, size: int, k: int)
    requires size >= 1 && 0 <= xy < size * size && 0 <= k < 6
    requires NeighbourAt(xy, size, k) != -1
    ensures NeighbourAt(NeighbourAt(xy, size, k), size, 5 - k) == xy
  {
    CellOf(xy, size);
    NeighbourAtBack(xy / size, xy % size, size, k);
  }

  /** A cell of the board is the cell at its own row and column. */
  lemma CellOf(xy: int, size: int)
    requires size >= 1 && 0 <= xy < size * size
    ensures OnGrid(xy / size, xy % size, size) && Cell(xy / size, xy % size, size) == xy
  {
    RowInRange(xy, size);
  }

  lemma NeighbourAtBack(x: int, y: int, size: int, k: int)
    requires size >= 1 && 0 <= k < 6 && OnGrid(x, y, size) && OnGrid(x + DX[k], y + DY[k], size)
    ensures NeighbourAt(NeighbourAt(Cell(x, y, size), size, k), size, 5 - k) == Cell(x, y, size)
  {
    NeighbourAtCell(x, y, size, k);
    NeighbourAtCell(x + DX[k], y + DY[k], size, 5 - k);
    assert DX[5 - k] == -DX[k] && DY[5 - k] == -DY[k];
  }

  /** The neighbour along direction `k` of the cell at row `x`, column `y`. */
  lemma NeighbourAtCell(x: int, y: int, size: int, k: int)
    requires size >= 1 && 0 <= k < 6 && OnGrid(x, y, size)
    ensures NeighbourAt(Cell(x, y, size), size, k) ==
      if OnGrid(x + DX[k], y + DY[k], size) then Cell(x + DX[k], y + DY[k], size) else -1
  {
    DivModUnique(Cell(x, y, size), size, x, y);
  }

  /** Row and column of a cell are unique. */
  lemma DivModUnique(n: int, size: int, x: int, y: int)
    requires size >= 1 && 0 <= y < size && n == x * size + y
    ensures n / size == x && n % size == y
  {
    var q := n / size;
    var r := n % size;
    assert (q - x) * size == y - r;
    if q > x {
      MulAtLeast(q - x, size);
    } else if q < x {
      MulAtLeast(x - q, size);
    }
  }

  lemma MulAtLeast(a: int, b: int)
    requires a >= 1 && b >= 1
    ensures a * b >= b
  {
    assert a * b == (a - 1) * b + b;
  }

  /** A group id that lies on the first edge and on the last edge; rows for side 0, columns otherwise. */
  predicate Connects(board: seq<int>, size: int, turn: int, a: int, b: int)
    requires size >= 1 && |board| == size * size && 0 <= a < size && 0 <= b < size
  {
    if turn == 0 then board[Cell(0, a, size)] > 0 && board[Cell(0, a, size)] == board[Cell(size - 1, b, size)]
    else board[Cell(a, 0, size)] > 0 && board[Cell(a, 0, size)] == board[Cell(b, size - 1, size)]
  }

  /** The cells of the first edge the side `turn` must join: the first row for 0, the first column otherwise. */
  function FirstEdge(board: seq<int>, size: int, turn: int): (top: seq<int>)
    requires size >= 1 && |board| == size * size
    ensures |top| == size
  {
    if turn == 0 then board[..size]
    else seq(size, i requires 0 <= i < size => board[Cell(i, 0, size)])
  }

  /** The cells of the opposite edge: the last row for 0, the last column otherwise. */
  function LastEdge(board: seq<int>, size: int, turn: int): (bottom: seq<int>)
    requires size >= 1 && |board| == size * size
    ensures |bottom| == size
  {
    if turn == 0 then board[|board| - size..]
    else seq(size, i requires 0 <= i < size => board[Cell(i, size - 1, size)])
  }

  /** Whether some of `top[i..]` is a positive id that also occurs in `bottom`. */
  function AnySharedFrom(top: seq<int>, bottom: seq<int>, i: nat): (r: bool)
    requires i <= |top|
    ensures r <==> exists a | i <= a < |top| :: top[a] > 0 && top[a] in bottom
    decreases |top| - i
  {
    if i == |top| then false
    else (top[i] > 0 && top[i] in bottom) || AnySharedFrom(top, bottom, i + 1)
  }

  /**
   * `_is_game_end`: the side `turn` has won when one positive id lies on both
   * of its edges, the first and last rows for side 0, the first and last
   * columns for side 1.
   */
  function IsGameEnd(board: seq<int>, size: int, turn: int): (won: bool)
    requires size >= 1 && |board| == size * size
    ensures won <==> exists a, b | 0 <= a < size && 0 <= b < size :: Connects(board, size, turn, a, b)
  {
    var top := FirstEdge(board, size, turn);
    var bottom := LastEdge(board, size, turn);
    SharedIffConnects(board, size, turn);
    AnySharedFrom(top, bottom, 0)
  }

  lemma SharedIffConnects(board: seq<int>, size: int, turn: int)
    requires size >= 1 && |board| == size * size
    ensures var top := FirstEdge(board, size, turn);
      (exists a | 0 <= a < size :: top[a] > 0 && top[a] in LastEdge(board, size, turn)) <==>
      exists a, b | 0 <= a < size && 0 <= b < size :: Connects(board, size, turn, a, b)
  {
    var top := FirstEdge(board, size, turn);
    var bottom := LastEdge(board, size, turn);
    EdgeCells(board, size, turn);
    if exists a | 0 <= a < size :: top[a] > 0 && top[a] in bottom {
      var a :| 0 <= a < size && top[a] > 0 && top[a] in bottom;
      var b :| 0 <= b < size && bottom[b] == top[a];
      assert Connects(board, size, turn, a, b);
    }
    if exists a, b | 0 <= a < size && 0 <= b < size :: Connects(board, size, turn, a, b) {
      var a, b :| 0 <= a < size && 0 <= b < size && Connects(board, size, turn, a, b);
      assert top[a] > 0 && bottom[b] == top[a];
    }
  }

  lemma EdgeCells(board: seq<int>, size: int, turn: int)
    requires size >= 1 && |board| == size * size
    ensures forall a | 0 <= a < size ::
      FirstEdge(board, size, turn)[a] == (if turn == 0 then board[Cell(0, a, size)] else board[Cell(a, 0, size)])
    ensures forall b | 0 <= b < size ::
      LastEdge(board, size, turn)[b] == (if turn == 0 then board[Cell(size - 1, b, size)] else board[Cell(b, size - 1, size)])
  {
    forall b | 0 <= b < size
      ensures LastEdge(board, size, turn)[b] == (if turn == 0 then board[Cell(size - 1, b, size)] else board[Cell(b, size - 1, size)])
    {
      assert |board| - size + b == (size - 1) * size + b;
    }
  }

  /** Every cell negated: the board seen from the other side. */
  function Negate(b: seq<int>): (r: seq<int>)
    ensures |r| == |b| && forall i | 0 <= i < |b| :: r[i] == -b[i] && (r[i] == 0 <==> b[i] == 0)
  {
    seq(|b|, i requires 0 <= i < |b| => -b[i])
  }

  /** `board == 0`: the cells that are empty. */
  function EmptyCells(b: seq<int>): (mask: seq<bool>)
    ensures |mask| == |b| && forall p | 0 <= p < |b| :: mask[p] <==> b[p] == 0
  {
    seq(|b|, p requires 0 <= p < |b| => b[p] == 0)
  }

  lemma NegateTwice(b: seq<int>)
    ensures Negate(Negate(b)) == b
  {
  }

  /** `_get_abs_board`: the board from side 0's point of view, side 0's stones positive. */
  function GetAbsBoard(board: seq<int>, turn: int): (abs: seq<int>)
    ensures |abs| == |board|
    ensures forall i | 0 <= i < |board| :: abs[i] == board[i] || abs[i] == -board[i]
    ensures turn == 0 ==> abs == board
    ensures turn != 0 ==> abs == Negate(board)
  {
    if turn == 0 then board else Negate(board)
  }

  /** Negating the board and handing the move to the other side leaves the absolute board as it was. */
  lemma AbsBoardOfNegated(board: seq<int>, turn: int)
    requires turn == 0 || turn == 1
    ensures GetAbsBoard(Negate(board), 1 - turn) == GetAbsBoard(board, turn)
  {
    if turn == 1 {
      NegateTwice(board);
    }
  }

  /**
   * `_observe`: plane 0 marks the viewer's stones and plane 1 the opponent's,
   * as `obs[row][column][plane]`. The stored board is the current player's view.
   */
  function Observe(board: seq<int>, currentPlayer: int, playerId: int, size: int): (obs: seq<seq<seq<bool>>>)
    requires size >= 1 && |board| == size * size
    ensures |obs| == size && forall x | 0 <= x < size :: |obs[x]| == size
    ensures forall x, y | 0 <= x < size && 0 <= y < size :: |obs[x][y]| == 2
    ensures forall x, y | 0 <= x < size && 0 <= y < size ::
      var c := board[Cell(x, y, size)];
      && !(obs[x][y][0] && obs[x][y][1])
      && (c == 0 ==> !obs[x][y][0] && !obs[x][y][1])
      && (obs[x][y][0] <==> (if playerId == currentPlayer then c > 0 else c < 0))
      && (obs[x][y][1] <==> (if playerId == currentPlayer then c < 0 else c > 0))
  {
    var view := if playerId == currentPlayer then board else Negate(board);
    seq(size, x requires 0 <= x < size =>
      seq(size, y requires 0 <= y < size =>
        [view[Cell(x, y, size)] * 1 > 0, view[Cell(x, y, size)] * -1 > 0]))
  }

  /**
   * Whether the group with id `c` is relabelled by the first `j` passes of the
   * merge loop: it is an own group (`c > 0`) that is the new stone's own id or
   * the group of one of the first `j` neighbours.
   */
  ghost predicate Joined(orig: seq<int>, nb: seq<int>, id: int, j: int, c: int)
    requires 0 <= j <= |nb|
  {
    c > 0 && (c == id || exists k | 0 <= k < j :: 0 <= nb[k] < |orig| && orig[nb[k]] == c)
  }

  /** The board after the first `j` passes of the merge loop, started from `orig`. */
  ghost function MergedUpTo(orig: seq<int>, nb: seq<int>, id: int, j: int): (m: seq<int>)
    requires 0 <= j <= |nb|
    ensures |m| == |orig|
  {
    seq(|orig|, p requires 0 <= p < |orig| => if Joined(orig, nb, id, j, orig[p]) then id else orig[p])
  }

  /** Some on-board neighbour of `action`, other than `action` itself, holds `c`. */
  predicate Adjoins(board: seq<int>, size: int, action: int, c: int)
    requires size >= 1 && |board| == size * size && 0 <= action < |board|
  {
    exists k | 0 <= k < 6 :: var n := Neighbour(action, size)[k]; 0 <= n < |board| && n != action && board[n] == c
  }

  /**
   * The board after the stone is placed and all six passes of the merge loop
   * run: the played cell, and every own cell whose id equals that of an
   * on-board neighbour of the played cell, hold `action + 1`; empty and
   * opponent cells keep their value, and so does every own cell of a group
   * that touches the played cell nowhere and does not already carry `action + 1`.
   */
  ghost function Merged(board: seq<int>, size: int, action: int): (m: seq<int>)
    requires size >= 1 && |board| == size * size && 0 <= action < |board|
    ensures |m| == |board| && m[action] == action + 1
    ensures forall p | 0 <= p < |board| && p != action && board[p] <= 0 :: m[p] == board[p]
    ensures forall p, k | 0 <= p < |board| && p != action && 0 <= k < 6 ::
      var n := Neighbour(action, size)[k];
      0 <= n < |board| && n != action && board[p] > 0 && board[n] == board[p] ==> m[p] == action + 1
    ensures forall p | 0 <= p < |board| && p != action && board[p] > 0 && board[p] != action + 1 ::
      !Adjoins(board, size, action, board[p]) ==> m[p] == board[p]
    ensures forall p | 0 <= p < |board| :: m[p] == action + 1 || m[p] == board[p]
  {
    var m := MergedUpTo(board[action := action + 1], Neighbour(action, size), action + 1, 6);
    assert Joined(board[action := action + 1], Neighbour(action, size), action + 1, 6, action + 1);
    m
  }

  /** A group id never names an absent cell: each nonzero cell's id, less one, is a cell of the same group. */
  ghost predicate Anchored(board: seq<int>)
  {
    forall p | 0 <= p < |board| && board[p] != 0 :: 0 <= Anchor(board[p]) < |board| && board[Anchor(board[p])] == board[p]
  }

  /** The cell a nonzero id names: the id less one, for either side. */
  function Anchor(id: int): (a: int)
    ensures id > 0 ==> a == id - 1
    ensures id < 0 ==> a == -id - 1
  {
    if id > 0 then id - 1 else -id - 1
  }

  /** On an anchored board no cell carries the id that a stone on the empty cell `action` will take. */
  lemma FreshId(board: seq<int>, action: int)
    requires Anchored(board) && 0 <= action < |board| && board[action] == 0
    ensures forall p | 0 <= p < |board| :: board[p] != action + 1 && board[p] != -(action + 1)
  {
    forall p | 0 <= p < |board|
      ensures board[p] != action + 1 && board[p] != -(action + 1)
    {
      if board[p] != 0 {
        assert board[Anchor(board[p])] == board[p];
      }
    }
  }

  /** A move onto an empty cell keeps every id anchored, through the merge and the negation. */
  lemma MergeKeepsAnchored(board: seq<int>, size: int, action: int)
    requires size >= 1 && |board| == size * size && 0 <= action < |board|
    requires Anchored(board) && board[action] == 0
    ensures Anchored(Negate(Merged(board, size, action)))
  {
    var orig := board[action := action + 1];
    var nb := Neighbour(action, size);
    var id := action + 1;
    var m := Merged(board, size, action);
    assert m == MergedUpTo(orig, nb, id, 6);
    FreshId(board, action);
    forall p | 0 <= p < |m| && m[p] != 0
      ensures 0 <= Anchor(m[p]) < |m| && m[Anchor(m[p])] == m[p]
    {
      if m[p] != id {
        var c := orig[p];
        assert m[p] == c && !Joined(orig, nb, id, 6, c);
        var a := Anchor(c);
        assert p != action;
        assert 0 <= a < |board| && board[a] == c;
        assert a != action;
        assert orig[a] == c;
      }
    }
    var r := Negate(m);
    forall p | 0 <= p < |r| && r[p] != 0
      ensures 0 <= Anchor(r[p]) < |r| && r[Anchor(r[p])] == r[p]
    {
      assert Anchor(r[p]) == Anchor(m[p]);
    }
  }

  /** One pass of the merge loop: relabelling the group at `adj` adds its id to the joined ones. */
  lemma MergePass(orig: seq<int>, nb: seq<int>, id: int, j: int, b: seq<int>, adj: int)
    requires 0 <= j < |nb| && id > 0 && adj == nb[j]
    requires b == MergedUpTo(orig, nb, id, j)
    ensures adj < 0 || adj >= |orig| || b[adj] <= 0 ==> MergedUpTo(orig, nb, id, j + 1) == b
    ensures 0 <= adj < |orig| && b[adj] > 0 ==>
      MergedUpTo(orig, nb, id, j + 1) == seq(|b|, p requires 0 <= p < |b| => if b[p] == b[adj] then id else b[p])
  {
    var next := MergedUpTo(orig, nb, id, j + 1);
    if 0 <= adj < |orig| && orig[adj] > 0 {
      var c := orig[adj];
      assert Joined(orig, nb, id, j + 1, c);
      forall p | 0 <= p < |orig|
        ensures next[p] == (if b[p] == b[adj] then id else b[p])
      {
        var d := orig[p];
        if Joined(orig, nb, id, j + 1, d) && !Joined(orig, nb, id, j, d) {
          assert d == c;
        }
        if Joined(orig, nb, id, j, c) {
          if d == c {
            assert Joined(orig, nb, id, j, d);
          }
        }
      }
    } else {
      forall p | 0 <= p < |orig|
        ensures next[p] == b[p]
      {
        var d := orig[p];
        if Joined(orig, nb, id, j + 1, d) {
          assert Joined(orig, nb, id, j, d);
        }
      }
    }
  }

  /**
   * The Hex state: the board from the mover's point of view, the mover's side
   * (`turn`, 0 or 1) and seat (`currentPlayer`), and what the last step
   * produced.
   */
  class HexState {
    const size: int
    const board: array<int>
    var turn: int
    var currentPlayer: int
    var reward: seq<int>
    var terminated: bool
    var legalActionMask: seq<bool>

    ghost predicate Valid()
      reads this
    {
      size >= 1 && board.Length == size * size && (turn == 0 || turn == 1) && (currentPlayer == 0 || currentPlayer == 1)
    }

    /** `_init`, with the starting seat passed in. */
    constructor Init(size: int, currentPlayer: int)
      requires size >= 1 && (currentPlayer == 0 || currentPlayer == 1)
      ensures Valid() && this.size == size && this.currentPlayer == currentPlayer && turn == 0
      ensures board[..] == seq(size * size, _ => 0) && Anchored(board[..])
      ensures legalActionMask == seq(size * size, _ => true)
      ensures reward == [0, 0] && !terminated
    {
      this.size := size;
      this.currentPlayer := currentPlayer;
      turn := 0;
      board := new int[size * size](_ => 0);
      reward := [0, 0];
      terminated := false;
      legalActionMask := seq(size * size, _ => true);
    }

    /** The placement and the six-pass merge loop of `_step`, on the board array. */
    method PlaceAndMerge(action: int)
      requires Valid() && 0 <= action < board.Length
      modifies board
      ensures board[..] == Merged(old(board[..]), size, action)
    {
      ghost var before := board[..];
      var id := action + 1;
      board[action] := id;
      ghost var orig := board[..];
      var nb := Neighbour(action, size);
      for i := 0 to 6
        invariant board[..] == MergedUpTo(orig, nb, id, i)
      {
        var adj := nb[i];
        ghost var b := board[..];
        MergePass(orig, nb, id, i, b, adj);
        if adj >= 0 && board[adj] > 0 {
          var target := board[adj];
          forall p | 0 <= p < board.Length && board[p] == target {
            board[p] := id;
          }
          assert board[..] == seq(|b|, p requires 0 <= p < |b| => if b[p] == b[adj] then id else b[p]);
        }
      }
    }

    /** `board * -1`, in place: hands the board to the other side. */
    method NegateBoard()
      modifies board
      ensures board[..] == Negate(old(board[..]))
    {
      forall p | 0 <= p < board.Length {
        board[p] := -board[p];
      }
    }

    /**
     * `_step`: place the stone, merge the adjacent own groups, score the win
     * for the mover, then hand the board over negated to the other side.
     */
    method Step(action: int)
      requires Valid() && 0 <= action < board.Length
      modifies this, board
      ensures Valid()
      ensures var m := Merged(old(board[..]), size, action);
        && board[..] == Negate(m)
        && terminated == IsGameEnd(m, size, old(turn))
        && reward == (if terminated then [-1, -1][old(currentPlayer) := 1] else [0, 0])
      ensures |legalActionMask| == board.Length
      ensures forall p | 0 <= p < board.Length :: legalActionMask[p] <==> board[p] == 0
      ensures turn == 1 - old(turn) && currentPlayer == 1 - old(currentPlayer)
    {
      PlaceAndMerge(action);
      ghost var m := board[..];
      var won := IsGameEnd(board[..], size, turn);
      reward := if won then [-1, -1][currentPlayer := 1] else [0, 0];
      terminated := won;
      legalActionMask := EmptyCells(board[..]);
      currentPlayer := 1 - currentPlayer;
      turn := 1 - turn;
      NegateBoard();
      assert board[..] == Negate(m);
    }
  }
}
