/**
 * Mini-Go (pgx/mini_go.py): board constants, the game-state record, the
 * coordinate helpers and the read-only queries on a state.
 *
 * A state keeps, for each colour, a plane of stone-group ("ren") ids, a table of
 * free ids, one liberty row and one adjacency row per id, and the turn,
 * prisoner ("agehama"), pass and ko fields.
 */
module GoBoard {
  import opened Jax

  const BOARD_WIDTH: int := 5
  const BOARD_SIZE: int := 25

  const BLACK: int := 0
  const WHITE: int := 1
  /** Colour code of an empty point on the board returned by GetBoard. */
  const POINT: int := 2

  /** Plane entry of a point that holds no stone of that colour. */
  const NO_REN: int := -1

  /** Liberty-row codes: nothing, a liberty, an adjacent opposing stone. */
  const LIB_NONE: int := 0
  const LIB_FREE: int := 1
  const LIB_STONE: int := 2

  /** The four neighbour offsets (row, column) in the order the move loop visits them. */
  const NSEW: seq<(int, int)> := [(-1, 0), (1, 0), (0, 1), (0, -1)]

  /**
   * The game state. Every table is indexed first by colour (BLACK, WHITE):
   *   renIdBoard[c][p]     id of the group of colour c at point p, or NO_REN;
   *   availableRenId[c][i] whether id i of colour c is free;
   *   liberty[c][i][p]     LIB_NONE, LIB_FREE or LIB_STONE for point p around group i;
   *   adjRenId[c][i][j]    whether group i of colour c touches opposing group j;
   *   agehama[c]           stones colour c has captured.
   * `kou` is the point the next player may not play, or -1.
   */
  datatype MiniGoState = MiniGoState(
    renIdBoard: seq<seq<int>>,
    availableRenId: seq<seq<bool>>,
    liberty: seq<seq<seq<int>>>,
    adjRenId: seq<seq<seq<bool>>>,
    turn: int,
    agehama: seq<int>,
    passed: bool,
    kou: int)

  /** A colour-by-point (or colour-by-id) table. */
  predicate Grid<T>(g: seq<seq<T>>)
  {
    |g| == 2 && forall c | 0 <= c < 2 :: |g[c]| == BOARD_SIZE
  }

  /** A colour-by-id-by-point (or colour-by-id-by-id) table. */
  predicate Cube<T>(k: seq<seq<seq<T>>>)
  {
    && |k| == 2
    && (forall c | 0 <= c < 2 :: |k[c]| == BOARD_SIZE)
    && (forall c, i | 0 <= c < 2 && 0 <= i < BOARD_SIZE :: |k[c][i]| == BOARD_SIZE)
  }

  /** Every plane entry is NO_REN or an id that indexes the per-id tables. */
  predicate IdsInRange(ren: seq<seq<int>>)
    requires Grid(ren)
  {
    forall c, p | 0 <= c < 2 && 0 <= p < BOARD_SIZE :: NO_REN <= ren[c][p] < BOARD_SIZE
  }

  /** The shape every state of the engine has: the dimensions the source allocates. */
  predicate WellFormed(s: MiniGoState)
  {
    && Grid(s.renIdBoard) && Grid(s.availableRenId)
    && Cube(s.liberty) && Cube(s.adjRenId)
    && |s.agehama| == 2
    && IdsInRange(s.renIdBoard)
  }

  function Fill<T>(n: nat, v: T): (r: seq<T>)
    ensures |r| == n && forall i | 0 <= i < n :: r[i] == v
  {
    seq(n, _ => v)
  }

  /** The state `init()` returns: empty planes, every id free, zero tables, no ko. */
  function Init(): (s: MiniGoState)
    ensures WellFormed(s)
    ensures forall c, p | 0 <= c < 2 && 0 <= p < BOARD_SIZE :: s.renIdBoard[c][p] == NO_REN
    ensures s.turn == 0 && !s.passed && s.kou == -1 && s.agehama == [0, 0]
  {
    MiniGoState(
      Fill(2, Fill(BOARD_SIZE, NO_REN)),
      Fill(2, Fill(BOARD_SIZE, true)),
      Fill(2, Fill(BOARD_SIZE, Fill(BOARD_SIZE, LIB_NONE))),
      Fill(2, Fill(BOARD_SIZE, Fill(BOARD_SIZE, false))),
      0, [0, 0], false, -1)
  }

  /** The colour to move: turn parity. */
  function MyColor(s: MiniGoState): (c: int)
    ensures 0 <= c < 2
    ensures c == BLACK <==> s.turn % 2 == 0
  {
    s.turn % 2
  }

  function OpponentColor(s: MiniGoState): (c: int)
    ensures 0 <= c < 2
    ensures c == 1 - MyColor(s)
  {
    (s.turn + 1) % 2
  }

  // ---------------------------------------------------------------- coordinates

  /** Point number to (row, column). */
  function XyToPos(xy: int): (pos: (int, int))
    ensures 0 <= xy < BOARD_SIZE ==> IsOnBoard(pos) && PosToXy(pos) == xy
  {
    (xy / BOARD_WIDTH, xy % BOARD_WIDTH)
  }

  /** (row, column) to point number. */
  function PosToXy(pos: (int, int)): int
  {
    pos.0 * BOARD_WIDTH + pos.1
  }

  function ToXy(x: int, y: int): int
  {
    x * BOARD_WIDTH + y
  }

  predicate IsOnBoard(pos: (int, int))
  {
    0 <= pos.0 < BOARD_WIDTH && 0 <= pos.1 < BOARD_WIDTH
  }

  predicate IsOffBoard(pos: (int, int))
  {
    !IsOnBoard(pos)
  }

  /** An on-board position and its point number determine each other. */
  lemma PosRoundTrip(pos: (int, int))
    requires IsOnBoard(pos)
    ensures 0 <= PosToXy(pos) < BOARD_SIZE && XyToPos(PosToXy(pos)) == pos
  {
  }

  /** The position of neighbour `d` of point `xy`, as the move loop computes it. */
  function NeighbourPos(xy: int, d: int): (int, int)
    requires 0 <= d < 4
  {
    var pos := XyToPos(xy);
    (pos.0 + NSEW[d].0, pos.1 + NSEW[d].1)
  }

  // ---------------------------------------------------------------- queries

  /** The occupied-or-ko test made before a stone is placed. */
  predicate IsIllegalMove(s: MiniGoState, xy: int)
    requires WellFormed(s) && 0 <= xy < BOARD_SIZE
  {
    || s.renIdBoard[MyColor(s)][xy] != NO_REN
    || s.renIdBoard[OpponentColor(s)][xy] != NO_REN
    || xy == s.kou
  }

  /**
   * Whether all four neighbours of `xy` hold an opposing stone, as the source
   * tests it: the edge guards compare against impossible bounds, so every
   * neighbour is read, through the gather index convention.
   */
  predicate KouOccurred(s: MiniGoState, xy: int)
    requires WellFormed(s)
  {
    var x := xy / BOARD_WIDTH;
    var y := xy % BOARD_WIDTH;
    var oppo := s.renIdBoard[OpponentColor(s)];
    && (x < 0 || oppo[GatherIndex(ToXy(x - 1, y), BOARD_SIZE)] != NO_REN)
    && (x >= BOARD_SIZE - 1 || oppo[GatherIndex(ToXy(x + 1, y), BOARD_SIZE)] != NO_REN)
    && (y < 0 || oppo[GatherIndex(ToXy(x, y - 1), BOARD_SIZE)] != NO_REN)
    && (y >= BOARD_SIZE - 1 || oppo[GatherIndex(ToXy(x, y + 1), BOARD_SIZE)] != NO_REN)
  }

  /** The colour board: WHITE where White has a stone, else BLACK where Black has one, else POINT. */
  function GetBoard(s: MiniGoState): (board: seq<int>)
    requires WellFormed(s)
    ensures |board| == BOARD_SIZE
    ensures forall p | 0 <= p < BOARD_SIZE ::
      && (board[p] == POINT <==> s.renIdBoard[BLACK][p] == NO_REN && s.renIdBoard[WHITE][p] == NO_REN)
      && (board[p] == WHITE <==> s.renIdBoard[WHITE][p] != NO_REN)
      && (board[p] == BLACK <==> s.renIdBoard[BLACK][p] != NO_REN && s.renIdBoard[WHITE][p] == NO_REN)
  {
    seq(BOARD_SIZE, p requires 0 <= p < BOARD_SIZE =>
      if s.renIdBoard[WHITE][p] != NO_REN then WHITE
      else if s.renIdBoard[BLACK][p] != NO_REN then BLACK
      else POINT)
  }
}
