/**
 * Mini-Go territory scoring (pgx/mini_go.py, `_get_reward` and the fill loop
 * behind `_count_ji`).
 *
 * The colour board is padded with a ring of -1 cells to a 7x7 board. Every
 * stone of the opposing colour starts as a candidate. One loop iteration takes
 * the first candidate, clears its bit, turns each of its four neighbours that is
 * an empty POINT into the opposing colour, and writes the candidate bit of each
 * neighbour. That bit is `board[n] == o_color and examined[n] is False`, and an
 * identity test of an array element against the `False` singleton never holds,
 * so every neighbour's bit is cleared. The fill therefore does not spread past
 * the neighbours of the stones it processes. The points still POINT at the end
 * are the colour's territory.
 */
module GoTerritory {
  import opened Jax
  import opened GoBoard

  const PADDED_WIDTH: int := 7
  const PADDED_SIZE: int := 49
  /** Value of a padding cell. */
  const PAD: int := -1

  /** A cell of the padded board that stands for a point of the real board. */
  predicate IsInner(i: int)
  {
    1 <= i / PADDED_WIDTH <= BOARD_WIDTH && 1 <= i % PADDED_WIDTH <= BOARD_WIDTH
  }

  /** The padded cell of board point p. */
  function PadIndex(p: int): (i: int)
    requires 0 <= p < BOARD_SIZE
    ensures 0 <= i < PADDED_SIZE && IsInner(i)
    ensures (i / PADDED_WIDTH - 1) * BOARD_WIDTH + i % PADDED_WIDTH - 1 == p
  {
    (p / BOARD_WIDTH + 1) * PADDED_WIDTH + p % BOARD_WIDTH + 1
  }

  /** The board point of an inner padded cell. */
  function InnerPoint(i: int): (p: int)
    requires 0 <= i < PADDED_SIZE && IsInner(i)
    ensures 0 <= p < BOARD_SIZE && PadIndex(p) == i
  {
    (i / PADDED_WIDTH - 1) * BOARD_WIDTH + i % PADDED_WIDTH - 1
  }

  /** `jnp.pad(board.reshape(5, 5), 1, constant_values=-1).ravel()`. */
  function Pad(board: seq<int>): (padded: seq<int>)
    requires |board| == BOARD_SIZE
    ensures |padded| == PADDED_SIZE
  {
    seq(PADDED_SIZE, i requires 0 <= i < PADDED_SIZE =>
      if IsInner(i) then board[InnerPoint(i)] else PAD)
  }

  /** Board point p sits at its padded cell; every other padded cell is padding. */
  lemma PadSpec(board: seq<int>, i: int)
    requires |board| == BOARD_SIZE && 0 <= i < PADDED_SIZE
    ensures IsInner(i) ==> Pad(board)[i] == board[InnerPoint(i)]
    ensures !IsInner(i) ==> Pad(board)[i] == PAD
  {
  }

  /** The loop state (the source's JI record). */
  datatype Ji = Ji(board: seq<int>, candidateXy: seq<bool>, examinedStones: seq<bool>, color: int)

  /** Sizes, and every candidate on an inner cell (so its four neighbours exist). */
  predicate JiShape(ji: Ji)
  {
    && |ji.board| == PADDED_SIZE && |ji.candidateXy| == PADDED_SIZE && |ji.examinedStones| == PADDED_SIZE
    && forall i | 0 <= i < PADDED_SIZE && ji.candidateXy[i] :: IsInner(i)
  }

  /** Python's `x is False` applied to a JAX array element: an identity test that never holds. */
  predicate IsFalseIdentity(x: bool)
  {
    false
  }

  /** One neighbour write: an empty POINT becomes `o`, anything else is kept. */
  function Paint(board: seq<int>, n: int, o: int): (r: seq<int>)
    requires 0 <= n < |board|
    ensures |r| == |board|
  {
    board[n := if board[n] == POINT then o else board[n]]
  }

  /** An inner cell lies in rows and columns 1..5 of the padded board, so its four neighbours exist. */
  lemma InnerBounds(xy: int)
    requires 0 <= xy < PADDED_SIZE && IsInner(xy)
    ensures PADDED_WIDTH < xy + 1 && xy + PADDED_WIDTH < PADDED_SIZE
  {
  }

  /** One neighbour write of the loop body: an empty POINT takes colour `o`, then the neighbour's candidate bit is written. */
  function VisitNeighbour(ji: Ji, n: int, o: int): (r: Ji)
    requires |ji.board| == PADDED_SIZE && |ji.candidateXy| == PADDED_SIZE && |ji.examinedStones| == PADDED_SIZE
    requires 0 <= n < PADDED_SIZE
    ensures |r.board| == PADDED_SIZE && |r.candidateXy| == PADDED_SIZE
    ensures r.examinedStones == ji.examinedStones && r.color == ji.color
  {
    var b := Paint(ji.board, n, o);
    ji.(board := b, candidateXy := ji.candidateXy[n := b[n] == o && IsFalseIdentity(ji.examinedStones[n])])
  }

  /** A visit paints only the neighbour, and only when it was an empty POINT; it clears the neighbour's candidate bit. */
  lemma VisitNeighbourSpec(ji: Ji, n: int, o: int)
    requires |ji.board| == PADDED_SIZE && |ji.candidateXy| == PADDED_SIZE && |ji.examinedStones| == PADDED_SIZE
    requires 0 <= n < PADDED_SIZE
    ensures var r := VisitNeighbour(ji, n, o);
      && (forall i | 0 <= i < PADDED_SIZE :: r.board[i] == (if i == n && ji.board[i] == POINT then o else ji.board[i]))
      && (forall i | 0 <= i < PADDED_SIZE :: r.candidateXy[i] == (i != n && ji.candidateXy[i]))
  {
  }

  /** The start of the loop body: the candidate bit of `xy` is cleared and `xy` is marked examined. */
  function Examine(ji: Ji, xy: int): (r: Ji)
    requires |ji.board| == PADDED_SIZE && |ji.candidateXy| == PADDED_SIZE && |ji.examinedStones| == PADDED_SIZE
    requires 0 <= xy < PADDED_SIZE
    ensures |r.board| == PADDED_SIZE && |r.candidateXy| == PADDED_SIZE && |r.examinedStones| == PADDED_SIZE
    ensures r.board == ji.board && r.color == ji.color
    ensures forall i | 0 <= i < PADDED_SIZE :: r.candidateXy[i] == (i != xy && ji.candidateXy[i])
  {
    ji.(candidateXy := ji.candidateXy[xy := false], examinedStones := ji.examinedStones[xy := true])
  }

  /**
   * The loop body for candidate `xy`: its bit is cleared, it is marked
   * examined, and its four neighbours are visited in the order the loop visits
   * them.
   */
  function RoopStepAt(ji: Ji, xy: int): (r: Ji)
    requires |ji.board| == PADDED_SIZE && |ji.candidateXy| == PADDED_SIZE && |ji.examinedStones| == PADDED_SIZE
    requires 0 <= xy < PADDED_SIZE && PADDED_WIDTH < xy + 1 && xy + PADDED_WIDTH < PADDED_SIZE
    ensures |r.board| == PADDED_SIZE && |r.candidateXy| == PADDED_SIZE && |r.examinedStones| == PADDED_SIZE
    ensures r.color == ji.color
    ensures forall i | 0 <= i < PADDED_SIZE :: r.candidateXy[i] ==> ji.candidateXy[i] && i != xy
  {
    var o := (ji.color + 1) % 2;
    var j0 := Examine(ji, xy);
    var j1 := VisitNeighbour(j0, xy - PADDED_WIDTH, o);
    var j2 := VisitNeighbour(j1, xy + PADDED_WIDTH, o);
    var j3 := VisitNeighbour(j2, xy - 1, o);
    var r := VisitNeighbour(j3, xy + 1, o);
    VisitNeighbourSpec(j0, xy - PADDED_WIDTH, o);
    VisitNeighbourSpec(j1, xy + PADDED_WIDTH, o);
    VisitNeighbourSpec(j2, xy - 1, o);
    VisitNeighbourSpec(j3, xy + 1, o);
    r
  }

  /** The loop body as the four visits it performs, one after the other. */
  lemma RoopStepAtVisits(ji: Ji, xy: int, o: int)
    requires |ji.board| == PADDED_SIZE && |ji.candidateXy| == PADDED_SIZE && |ji.examinedStones| == PADDED_SIZE
    requires 0 <= xy < PADDED_SIZE && PADDED_WIDTH < xy + 1 && xy + PADDED_WIDTH < PADDED_SIZE
    requires o == (ji.color + 1) % 2
    ensures RoopStepAt(ji, xy) == VisitNeighbour(VisitNeighbour(VisitNeighbour(VisitNeighbour(Examine(ji, xy),
      xy - PADDED_WIDTH, o), xy + PADDED_WIDTH, o), xy - 1, o), xy + 1, o)
  {
  }

  /** One iteration of the fill loop (`_count_ji_roop`): the body for the first candidate. */
  function RoopStep(ji: Ji): (r: Ji)
    requires JiShape(ji) && CountNonzero(ji.candidateXy) != 0
    ensures JiShape(r) && r.color == ji.color
    ensures CountNonzero(r.candidateXy) < CountNonzero(ji.candidateXy)
  {
    var xy := FirstTrue(ji.candidateXy);
    InnerBounds(xy);
    var r := RoopStepAt(ji, xy);
    CountClear(ji.candidateXy, xy);
    CountMonotone(ji.candidateXy[xy := false], r.candidateXy);
    r
  }

  /**
   * One iteration, cell by cell: the first candidate `xy` is marked examined,
   * its four neighbours that were empty points take the opposing colour, and no
   * cell becomes a candidate.
   */
  lemma RoopStepSpec(ji: Ji)
    requires JiShape(ji) && CountNonzero(ji.candidateXy) != 0
    ensures var xy := FirstTrue(ji.candidateXy);
      var r := RoopStep(ji);
      && 0 <= xy < PADDED_SIZE && ji.candidateXy[xy] && IsInner(xy)
      && PADDED_WIDTH < xy + 1 && xy + PADDED_WIDTH < PADDED_SIZE
      && (forall i | 0 <= i < PADDED_SIZE ::
            r.board[i] ==
              (if (i == xy - PADDED_WIDTH || i == xy + PADDED_WIDTH || i == xy - 1 || i == xy + 1)
                  && ji.board[i] == POINT
               then (ji.color + 1) % 2 else ji.board[i]))
      && (forall i | 0 <= i < PADDED_SIZE :: r.candidateXy[i] ==> ji.candidateXy[i] && i != xy)
  {
    var xy := FirstTrue(ji.candidateXy);
    InnerBounds(xy);
    var o := (ji.color + 1) % 2;
    var j0 := Examine(ji, xy);
    var j1 := VisitNeighbour(j0, xy - PADDED_WIDTH, o);
    var j2 := VisitNeighbour(j1, xy + PADDED_WIDTH, o);
    var j3 := VisitNeighbour(j2, xy - 1, o);
    VisitNeighbourSpec(j0, xy - PADDED_WIDTH, o);
    VisitNeighbourSpec(j1, xy + PADDED_WIDTH, o);
    VisitNeighbourSpec(j2, xy - 1, o);
    VisitNeighbourSpec(j3, xy + 1, o);
    assert RoopStep(ji) == RoopStepAt(ji, xy);
    RoopStepAtVisits(ji, xy, o);
  }

  /** The `while_loop`: iterate while some candidate is left. */
  function RunRoop(ji: Ji): (r: Ji)
    requires JiShape(ji)
    ensures JiShape(r) && r.color == ji.color && CountNonzero(r.candidateXy) == 0
    decreases CountNonzero(ji.candidateXy)
  {
    if CountNonzero(ji.candidateXy) != 0 then RunRoop(RoopStep(ji)) else ji
  }

  /** The loop's starting state: the padded board, the opposing stones as candidates. */
  function InitialJi(board: seq<int>, color: int): (ji: Ji)
    requires |board| == BOARD_SIZE
    ensures JiShape(ji)
  {
    var padded := Pad(board);
    Ji(padded, seq(PADDED_SIZE, i requires 0 <= i < PADDED_SIZE => padded[i] == (color + 1) % 2),
       Fill(PADDED_SIZE, false), color)
  }

  /** `_get_surrounded_stones`: the points still empty once the fill has run. */
  function SurroundedStones(board: seq<int>, color: int): (r: seq<bool>)
    requires |board| == BOARD_SIZE
    ensures |r| == BOARD_SIZE
  {
    var final := RunRoop(InitialJi(board, color));
    seq(BOARD_SIZE, p requires 0 <= p < BOARD_SIZE => final.board[PadIndex(p)] == POINT)
  }

  /** `_count_ji`: the size of a colour's territory. */
  function CountJi(s: MiniGoState, color: int): (n: nat)
    requires WellFormed(s)
    ensures n <= BOARD_SIZE
  {
    CountNonzero(SurroundedStones(GetBoard(s), color))
  }

  /** A colour's score: its territory less the stones the opponent took from it. */
  function Score(s: MiniGoState, color: int): int
    requires WellFormed(s) && 0 <= color < 2
  {
    CountJi(s, color) - s.agehama[1 - color]
  }

  /**
   * `_get_reward`: (0, 0) on equal scores, (1, -1) when Black's is greater,
   * (-1, 1) when White's is.
   */
  function GetReward(s: MiniGoState): (r: seq<int>)
    requires WellFormed(s)
    ensures |r| == 2 && r[0] + r[1] == 0
    ensures r == [0, 0] <==> Score(s, BLACK) == Score(s, WHITE)
    ensures r == [1, -1] <==> Score(s, BLACK) > Score(s, WHITE)
    ensures r == [-1, 1] <==> Score(s, BLACK) < Score(s, WHITE)
  {
    var b := CountJi(s, BLACK) - s.agehama[WHITE];
    var w := CountJi(s, WHITE) - s.agehama[BLACK];
    var r := if b == w then [0, 0] else [-1, 1];
    if b > w then [1, -1] else r
  }
}
