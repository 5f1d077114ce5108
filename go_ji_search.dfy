/**
 * The territory fill of pgx/mini_go.py run in place: the padded board, the
 * candidate bits and the examined bits are arrays that `_count_ji_roop`
 * rewrites cell by cell, inside the `while_loop` of `_get_surrounded_stones`.
 * Each method is proved to compute what the functions of module GoTerritory
 * describe.
 */
module GoJiSearch {
  import opened Jax
  import opened GoBoard
  import opened GoTerritory

  /** The loop state held in the three arrays. */
  function JiOf(board: array<int>, candidateXy: array<bool>, examinedStones: array<bool>, color: int): Ji
    reads board, candidateXy, examinedStones
  {
    Ji(board[..], candidateXy[..], examinedStones[..], color)
  }

  /** One neighbour write: paint an empty point, then clear (as written, always) its candidate bit. */
  method PaintNeighbour(board: array<int>, candidateXy: array<bool>, examinedStones: array<bool>, ghost color: int, n: int, o: int)
    requires candidateXy != examinedStones && 0 <= n < PADDED_SIZE
    requires board.Length == PADDED_SIZE && candidateXy.Length == PADDED_SIZE && examinedStones.Length == PADDED_SIZE
    modifies board, candidateXy
    ensures JiOf(board, candidateXy, examinedStones, color) == VisitNeighbour(old(JiOf(board, candidateXy, examinedStones, color)), n, o)
  {
    board[n] := if board[n] == POINT then o else board[n];
    candidateXy[n] := board[n] == o && IsFalseIdentity(examinedStones[n]);
    assert board[..] == Paint(old(board[..]), n, o);
  }

  /** The four neighbour writes of one iteration, in the order the loop makes them. */
  method PaintAround(board: array<int>, candidateXy: array<bool>, examinedStones: array<bool>, ghost color: int, xy: int, o: int)
    requires candidateXy != examinedStones
    requires board.Length == PADDED_SIZE && candidateXy.Length == PADDED_SIZE && examinedStones.Length == PADDED_SIZE
    requires PADDED_WIDTH < xy + 1 && xy + PADDED_WIDTH < PADDED_SIZE
    modifies board, candidateXy
    ensures JiOf(board, candidateXy, examinedStones, color) ==
      VisitNeighbour(VisitNeighbour(VisitNeighbour(VisitNeighbour(old(JiOf(board, candidateXy, examinedStones, color)),
        xy - PADDED_WIDTH, o), xy + PADDED_WIDTH, o), xy - 1, o), xy + 1, o)
  {
    ghost var j0 := JiOf(board, candidateXy, examinedStones, color);
    ghost var j1 := VisitNeighbour(j0, xy - PADDED_WIDTH, o);
    PaintNeighbour(board, candidateXy, examinedStones, color, xy - PADDED_WIDTH, o);
    assert JiOf(board, candidateXy, examinedStones, color) == j1;
    ghost var j2 := VisitNeighbour(j1, xy + PADDED_WIDTH, o);
    PaintNeighbour(board, candidateXy, examinedStones, color, xy + PADDED_WIDTH, o);
    assert JiOf(board, candidateXy, examinedStones, color) == j2;
    ghost var j3 := VisitNeighbour(j2, xy - 1, o);
    PaintNeighbour(board, candidateXy, examinedStones, color, xy - 1, o);
    assert JiOf(board, candidateXy, examinedStones, color) == j3;
    PaintNeighbour(board, candidateXy, examinedStones, color, xy + 1, o);
  }

  /** `_count_ji_roop`: one iteration of the fill, in place. */
  method CountJiRoop(board: array<int>, candidateXy: array<bool>, examinedStones: array<bool>, color: int)
    requires candidateXy != examinedStones
    requires JiShape(JiOf(board, candidateXy, examinedStones, color))
    requires CountNonzero(candidateXy[..]) != 0
    modifies board, candidateXy, examinedStones
    ensures JiOf(board, candidateXy, examinedStones, color) == RoopStep(old(JiOf(board, candidateXy, examinedStones, color)))
  {
    ghost var ji := JiOf(board, candidateXy, examinedStones, color);
    var xy := FirstTrue(candidateXy[..]);
    InnerBounds(xy);
    candidateXy[xy] := false;
    var o := (color + 1) % 2;
    examinedStones[xy] := true;
    assert JiOf(board, candidateXy, examinedStones, color) == Examine(ji, xy);
    PaintAround(board, candidateXy, examinedStones, color, xy, o);
    RoopStepAtVisits(ji, xy, o);
  }

  /**
   * `_get_surrounded_stones`: pad the board, start from the opposing stones as
   * candidates, run the fill while a candidate is left, and report the inner
   * points still empty.
   */
  method GetSurroundedStones(board: seq<int>, color: int) returns (r: seq<bool>)
    requires |board| == BOARD_SIZE
    ensures r == SurroundedStones(board, color)
  {
    var b, candidateXy, examinedStones := NewJi(board, color);
    RunFill(b, candidateXy, examinedStones, color);
    r := seq(BOARD_SIZE, p requires 0 <= p < BOARD_SIZE reads b => b[PadIndex(p)] == POINT);
  }

  /** The arrays the fill starts from: the padded board, the opposing stones as candidates, nothing examined. */
  method NewJi(board: seq<int>, color: int) returns (b: array<int>, candidateXy: array<bool>, examinedStones: array<bool>)
    requires |board| == BOARD_SIZE
    ensures fresh(b) && fresh(candidateXy) && fresh(examinedStones) && candidateXy != examinedStones
    ensures JiOf(b, candidateXy, examinedStones, color) == InitialJi(board, color)
  {
    var padded := Pad(board);
    b := new int[PADDED_SIZE](i requires 0 <= i < PADDED_SIZE => padded[i]);
    candidateXy := new bool[PADDED_SIZE](i requires 0 <= i < PADDED_SIZE => padded[i] == (color + 1) % 2);
    examinedStones := new bool[PADDED_SIZE](_ => false);
  }

  /** The `while_loop` of `_get_surrounded_stones`: fill rounds while a candidate is left. */
  method RunFill(b: array<int>, candidateXy: array<bool>, examinedStones: array<bool>, color: int)
    requires candidateXy != examinedStones
    requires JiShape(JiOf(b, candidateXy, examinedStones, color))
    modifies b, candidateXy, examinedStones
    ensures JiOf(b, candidateXy, examinedStones, color) == RunRoop(old(JiOf(b, candidateXy, examinedStones, color)))
  {
    ghost var start := JiOf(b, candidateXy, examinedStones, color);
    while CountNonzero(candidateXy[..]) != 0
      invariant JiShape(JiOf(b, candidateXy, examinedStones, color))
      invariant RunRoop(JiOf(b, candidateXy, examinedStones, color)) == RunRoop(start)
      decreases CountNonzero(candidateXy[..])
    {
      CountJiRoop(b, candidateXy, examinedStones, color);
    }
  }

  /** `_count_ji`: the number of points the fill leaves empty. */
  method CountJi(s: MiniGoState, color: int) returns (n: int)
    requires WellFormed(s)
    ensures n == GoTerritory.CountJi(s, color)
  {
    var surrounded := GetSurroundedStones(GetBoard(s), color);
    n := CountNonzero(surrounded);
  }

  /** `_get_reward`, with both territories counted by the in-place fill. */
  method GetReward(s: MiniGoState) returns (r: seq<int>)
    requires WellFormed(s)
    ensures r == GoTerritory.GetReward(s)
  {
    var blackJi := CountJi(s, BLACK);
    var whiteJi := CountJi(s, WHITE);
    var b := blackJi - s.agehama[WHITE];
    var w := whiteJi - s.agehama[BLACK];
    r := if b == w then [0, 0] else [-1, 1];
    if b > w {
      r := [1, -1];
    }
  }
}
