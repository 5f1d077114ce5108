/**
 * Animal Shogi on a 3 x 4 board of 12 squares. Square `sq` is at column
 * `sq / 4` and row `sq % 4`; the side to move plays towards row 0. A square
 * holds EMPTY, one of the mover's pieces 0..4 (PAWN, BISHOP, ROOK, KING, GOLD)
 * or an opponent's piece 5..9, where `5 + k` is the opponent's piece `k`.
 * After every step the position is flipped (rotated half a turn, colours
 * swapped), so the side to move always sees its own pieces as 0..4.
 */
module AnimalShogi {
  import opened Jax

  const EMPTY: int := -1
  const PAWN: int := 0
  const BISHOP: int := 1
  const ROOK: int := 2
  const KING: int := 3
  const GOLD: int := 4
  const OPP_KING: int := 8

  /** Number of squares and of action labels (8 directions x 12 squares + 3 drop pieces x 12 squares). */
  const SQUARES: int := 12
  const LABELS: int := 132

  /** The starting position, from the first mover's side. */
  const INIT_BOARD: seq<int> := [6, -1, -1, 2, 8, 5, 0, 3, 7, -1, -1, 1]

  /** Column and row steps of the eight move directions of an action label. */
  const DX: seq<int> := [-1, -1, -1, 0, 0, 1, 1, 1]
  const DY: seq<int> := [-1, 0, 1, -1, 1, -1, 0, 1]

  datatype State = State(
    currentPlayer: int,
    reward: seq<int>,
    terminated: bool,
    legalActionMask: seq<bool>,
    turn: int,
    board: seq<int>,
    hand: seq<seq<int>>)

  /** A decoded action label: a drop of `dropPiece` onto `to`, or a move from `from` to `to` (`to` is -1 off the board). */
  datatype Action = Action(isDrop: bool, from: int, to: int, dropPiece: int)

  predicate WellFormed(s: State)
  {
    && |s.board| == SQUARES
    && (forall i | 0 <= i < SQUARES :: EMPTY <= s.board[i] < 10)
    && |s.hand| == 2 && |s.hand[0]| == 3 && |s.hand[1]| == 3
    && (s.currentPlayer == 0 || s.currentPlayer == 1)
    && (s.turn == 0 || s.turn == 1)
  }

  predicate OnBoard(x: int, y: int)
  {
    0 <= x < 3 && 0 <= y < 4
  }

  /** `_to`: the square one step from `from` in direction `dir`, or -1 off the board. */
  function To(from: int, dir: int): (to: int)
    requires 0 <= from < SQUARES && 0 <= dir < 8
    ensures to == -1 <==> !OnBoard(from / 4 + DX[dir], from % 4 + DY[dir])
    ensures to != -1 ==> 0 <= to < SQUARES && to / 4 == from / 4 + DX[dir] && to % 4 == from % 4 + DY[dir]
    ensures to != -1 ==> IsNeighbour(from, to)
  {
    var x := from / 4 + DX[dir];
    var y := from % 4 + DY[dir];
    if x < 0 || x >= 3 || y < 0 || y >= 4 then -1 else x * 4 + y
  }

  /** `Action._from_label`: labels 96..131 are drops of piece `a / 12 - 8`, the rest moves in direction `a / 12`. */
  function FromLabel(a: int): (act: Action)
    requires 0 <= a < LABELS
    ensures act.isDrop <==> a / 12 >= 8
    ensures act.isDrop ==> act == Action(true, -1, a % 12, a / 12 - 8) && 0 <= act.dropPiece < 3
    ensures !act.isDrop ==> act == Action(false, a % 12, To(a % 12, a / 12), -1)
    ensures 0 <= act.to < SQUARES || (!act.isDrop && act.to == -1)
  {
    var x := a / 12;
    var sq := a % 12;
    if 8 <= x then Action(true, -1, sq, x - 8) else Action(false, sq, To(sq, x), -1)
  }

  /** Column and row distance from `from` to `to`. */
  function Dx(from: int, to: int): int { to / 4 - from / 4 }
  function Dy(from: int, to: int): int { to % 4 - from % 4 }

  predicate IsNeighbour(from: int, to: int)
  {
    (Dx(from, to) != 0 || Dy(from, to) != 0) && -1 <= Dx(from, to) <= 1 && -1 <= Dy(from, to) <= 1
  }

  /**
   * `_can_move`: whether `piece` (0..4, the mover's) may step from `from` to
   * `to`. PAWN goes one row forward; BISHOP to a diagonal neighbour; ROOK to
   * an orthogonal one; KING to any neighbour; GOLD to any neighbour except
   * straight back.
   */
  function CanMove(piece: int, from: int, to: int): (ok: bool)
    requires PAWN <= piece <= GOLD && 0 <= from < SQUARES && 0 <= to < SQUARES
    ensures ok ==> from != to && IsNeighbour(from, to)
    ensures piece == PAWN ==> (ok <==> Dx(from, to) == 0 && Dy(from, to) == -1)
    ensures piece == BISHOP ==> (ok <==> IsNeighbour(from, to) && Dx(from, to) != 0 && Dy(from, to) != 0)
    ensures piece == ROOK ==> (ok <==> IsNeighbour(from, to) && (Dx(from, to) == 0 || Dy(from, to) == 0))
    ensures piece == KING ==> (ok <==> IsNeighbour(from, to))
    ensures piece == GOLD ==> (ok <==> IsNeighbour(from, to) && !(Dx(from, to) == 0 && Dy(from, to) == 1))
  {
    var dx := Dx(from, to);
    var dy := Dy(from, to);
    var nb := IsNeighbour(from, to);
    if piece == PAWN then dx == 0 && dy == -1
    else if piece == BISHOP then nb && (dx == dy || dx == -dy)
    else if piece == ROOK then nb && (dx == 0 || dy == 0)
    else if piece == KING then nb
    else nb && (dx != 0 || dy != 1)
  }

  /**
   * As written, the GOLD test excludes only the step straight back: from
   * square 6 the hen may step diagonally back to 3 and to 11, but not
   * straight back to 7.
   */
  lemma HenMovesAsWritten()
    ensures CanMove(GOLD, 6, 3) && CanMove(GOLD, 6, 11) && !CanMove(GOLD, 6, 7)
  {
  }

  /**
   * `CanMove` with the hen's move of the rules of the game: any neighbour
   * except the two diagonally backward ones. The other pieces move as in
   * `CanMove`.
   */
  function CanMoveIntended(piece: int, from: int, to: int): (ok: bool)
    requires PAWN <= piece <= GOLD && 0 <= from < SQUARES && 0 <= to < SQUARES
    ensures ok ==> from != to && IsNeighbour(from, to)
    ensures piece != GOLD ==> ok == CanMove(piece, from, to)
    ensures piece == GOLD ==> (ok <==> IsNeighbour(from, to) && !(Dx(from, to) != 0 && Dy(from, to) == 1))
  {
    if piece == GOLD then IsNeighbour(from, to) && (Dx(from, to) == 0 || Dy(from, to) != 1)
    else CanMove(piece, from, to)
  }

  /**
   * The written and the intended hen moves disagree exactly on the three
   * backward neighbours: the written test allows the two diagonal ones and
   * refuses the straight one, the intended test the other way round.
   */
  lemma HenMovesDiffer(from: int, to: int)
    requires 0 <= from < SQUARES && 0 <= to < SQUARES
    ensures CanMove(GOLD, from, to) != CanMoveIntended(GOLD, from, to) <==> IsNeighbour(from, to) && Dy(from, to) == 1
    ensures CanMoveIntended(GOLD, from, to) ==> CanMove(KING, from, to)
  {
  }

  /** Every square next to `from` is reached by exactly the labels' directions: `To` covers the neighbourhood. */
  lemma ToCoversNeighbours(from: int, to: int)
    requires 0 <= from < SQUARES && 0 <= to < SQUARES && IsNeighbour(from, to)
    ensures exists dir | 0 <= dir < 8 :: To(from, dir) == to
  {
    var dx := Dx(from, to);
    var dy := Dy(from, to);
    var dir := if dx == -1 then 1 + dy else if dx == 0 then (if dy == -1 then 3 else 4) else 6 + dy;
    assert DX[dir] == dx && DY[dir] == dy;
    Coordinates(to);
    Coordinates(from);
    assert To(from, dir) == to;
  }

  /** A square is its column times four plus its row. */
  lemma Coordinates(sq: int)
    requires 0 <= sq < SQUARES
    ensures sq == sq / 4 * 4 + sq % 4 && 0 <= sq / 4 < 3 && 0 <= sq % 4 < 4
  {
  }

  /** Rotating the board half a turn maps square `sq` to `11 - sq`, negating column and row offsets. */
  lemma RotateCoordinates(sq: int)
    requires 0 <= sq < SQUARES
    ensures (11 - sq) / 4 == 2 - sq / 4 && (11 - sq) % 4 == 3 - sq % 4
  {
  }

  /**
   * Movement is symmetric under the half-turn rotation: `piece` steps from
   * `11 - from` to `11 - to` exactly when it steps from `to` back to `from`.
   * This is why `_is_checked` may test an opponent piece by moving the
   * mover's piece of the same kind from the king towards it.
   */
  lemma CanMoveRotated(piece: int, from: int, to: int)
    requires PAWN <= piece <= GOLD && 0 <= from < SQUARES && 0 <= to < SQUARES
    ensures CanMove(piece, 11 - from, 11 - to) == CanMove(piece, to, from)
  {
    RotateCoordinates(from);
    RotateCoordinates(to);
    assert Dx(11 - from, 11 - to) == Dx(to, from) && Dy(11 - from, 11 - to) == Dy(to, from);
  }

  /** The closeness of a square's content to KING, as `_is_checked` measures it. */
  function Dist(v: int): nat
  {
    if v >= KING then v - KING else KING - v
  }

  /** The first index in `b[i..]` where `Dist` is smallest (the `argmin` of JAX). */
  function ArgMinFrom(b: seq<int>, i: int): (k: int)
    requires 0 <= i < |b|
    ensures i <= k < |b|
    ensures forall j | i <= j < |b| :: Dist(b[k]) <= Dist(b[j])
    ensures forall j | i <= j < k :: Dist(b[j]) > Dist(b[k])
    decreases |b| - i
  {
    if i == |b| - 1 then i
    else
      var k := ArgMinFrom(b, i + 1);
      if Dist(b[i]) <= Dist(b[k]) then i else k
  }

  /** The square `_is_checked` takes for the mover's king: the first square closest to KING. */
  function KingPos(b: seq<int>): (k: int)
    requires |b| == SQUARES
    ensures 0 <= k < SQUARES
    ensures KING in b ==> b[k] == KING && forall j | 0 <= j < k :: b[j] != KING
  {
    ArgMinFrom(b, 0)
  }

  /** `_is_checked`: some opponent piece can reach the mover's king square. */
  function IsChecked(b: seq<int>): (checked: bool)
    requires |b| == SQUARES && forall i | 0 <= i < SQUARES :: EMPTY <= b[i] < 10
    ensures checked <==> exists f | 0 <= f < SQUARES :: b[f] >= 5 && CanMove(b[f] % 5, 11 - f, 11 - KingPos(b))
  {
    var k := KingPos(b);
    var r := exists f | 0 <= f < SQUARES :: b[f] >= 5 && CanMove(b[f] % 5, k, f);
    forall f | 0 <= f < SQUARES && b[f] >= 5
      ensures CanMove(b[f] % 5, k, f) == CanMove(b[f] % 5, 11 - f, 11 - k)
    {
      CanMoveRotated(b[f] % 5, f, k);
    }
    r
  }

  /** `hand.at[c, k].add(n)`: an index outside the three hand slots is dropped, as JAX scatter does. */
  function AddHand(hand: seq<seq<int>>, c: int, k: int, n: int): (h: seq<seq<int>>)
    requires |hand| == 2 && |hand[0]| == 3 && |hand[1]| == 3 && 0 <= c < 2
    ensures |h| == 2 && |h[0]| == 3 && |h[1]| == 3
    ensures 0 <= k < 3 ==> h[c][k] == hand[c][k] + n
    ensures forall c', k' | 0 <= c' < 2 && 0 <= k' < 3 && (c', k') != (c, k) :: h[c'][k'] == hand[c'][k']
  {
    if 0 <= k < 3 then hand[c := hand[c][k := hand[c][k] + n]] else hand
  }

  /**
   * `_step_move`: the piece leaves `from` and lands on `to`, promoted to GOLD
   * when it is a PAWN leaving row 1; a captured piece goes to the mover's hand
   * as slot `(captured % 5) % 4`. The index -1 means the last square, as in
   * JAX indexing.
   */
  function StepMove(s: State, from: int, to: int): (r: State)
    requires WellFormed(s) && 0 <= from < SQUARES && -1 <= to < SQUARES
    ensures WellFormed(r)
    ensures r == s.(board := r.board, hand := r.hand)
    ensures 0 <= to < SQUARES && from != to ==>
      && r.board[from] == EMPTY
      && r.board[to] == (if s.board[from] == PAWN && from % 4 == 1 then GOLD else s.board[from])
      && (forall i | 0 <= i < SQUARES && i != from && i != to :: r.board[i] == s.board[i])
      && (s.board[to] == EMPTY ==> r.hand == s.hand)
      && (s.board[to] != EMPTY && (s.board[to] % 5) % 4 < 3 ==>
            r.hand == s.hand[0 := s.hand[0][(s.board[to] % 5) % 4 := s.hand[0][(s.board[to] % 5) % 4] + 1]])
      && (s.board[to] == OPP_KING ==> r.hand == s.hand)
  {
    var piece := s.board[from];
    var board := s.board[from := EMPTY];
    var t := GatherIndex(to, SQUARES);
    var captured := board[t];
    var hand := if captured == EMPTY then s.hand else AddHand(s.hand, 0, (captured % 5) % 4, 1);
    var moved := if from % 4 == 1 && piece == PAWN then GOLD else piece;
    s.(board := board[t := moved], hand := hand)
  }

  /** `_step_drop`: the piece from the mover's hand is put on `to`. */
  function StepDrop(s: State, piece: int, to: int): (r: State)
    requires WellFormed(s) && 0 <= piece < 3 && 0 <= to < SQUARES
    ensures WellFormed(r)
    ensures r.board == s.board[to := piece]
    ensures r.hand[0][piece] == s.hand[0][piece] - 1
    ensures forall c, k | 0 <= c < 2 && 0 <= k < 3 && (c, k) != (0, piece) :: r.hand[c][k] == s.hand[c][k]
    ensures r == s.(board := r.board, hand := r.hand)
  {
    s.(board := s.board[to := piece], hand := AddHand(s.hand, 0, piece, -1))
  }

  /** Flips one square's content to the other side: EMPTY stays, own and opponent pieces swap. */
  function FlipPiece(v: int): (w: int)
    requires EMPTY <= v < 10
    ensures EMPTY <= w < 10
    ensures w == EMPTY <==> v == EMPTY
    ensures 0 <= v < 5 ==> w == v + 5
    ensures 5 <= v ==> w == v - 5
  {
    if v == EMPTY then EMPTY else (v + 5) % 10
  }

  /** The board half of `_flip`: rotated half a turn, every piece changing side. */
  function FlipBoard(b: seq<int>): (r: seq<int>)
    requires |b| == SQUARES && forall i | 0 <= i < SQUARES :: EMPTY <= b[i] < 10
    ensures |r| == SQUARES
    ensures forall i | 0 <= i < SQUARES :: r[i] == FlipPiece(b[11 - i]) && EMPTY <= r[i] < 10
  {
    seq(SQUARES, i requires 0 <= i < SQUARES => FlipPiece(b[11 - i]))
  }

  /** `_flip`: the board rotated half a turn with colours swapped, the hands swapped, the side to move passed on. */
  function Flip(s: State): (r: State)
    requires WellFormed(s)
    ensures WellFormed(r)
    ensures forall i | 0 <= i < SQUARES :: r.board[i] == FlipPiece(s.board[11 - i])
    ensures r.hand == [s.hand[1], s.hand[0]]
    ensures r.currentPlayer == 1 - s.currentPlayer && r.turn == 1 - s.turn
    ensures r == s.(board := r.board, hand := r.hand, currentPlayer := r.currentPlayer, turn := r.turn)
  {
    s.(currentPlayer := (s.currentPlayer + 1) % 2,
       turn := (s.turn + 1) % 2,
       board := FlipBoard(s.board),
       hand := [s.hand[1], s.hand[0]])
  }

  /** Flipping twice gives back the position. */
  lemma FlipTwice(s: State)
    requires WellFormed(s)
    ensures Flip(Flip(s)) == s
  {
    var r := Flip(Flip(s));
    assert r.board == s.board;
    assert r.hand == s.hand;
  }

  /** The starting position looks the same from either side. */
  lemma FlipInitBoard(s: State)
    requires WellFormed(s) && s.board == INIT_BOARD
    ensures Flip(s).board == INIT_BOARD
  {
    var b := Flip(s).board;
    forall i | 0 <= i < SQUARES
      ensures b[i] == INIT_BOARD[i]
    {
    }
  }

  /** `is_legal_move` of `_legal_action_mask`. */
  predicate IsLegalMove(s: State, from: int, to: int)
    requires WellFormed(s) && 0 <= from < SQUARES && -1 <= to < SQUARES
  {
    var piece := s.board[from];
    && PAWN <= piece <= GOLD
    && to != -1
    && (s.board[to] == EMPTY || GOLD < s.board[to])
    && CanMove(piece, from, to)
    && !IsChecked(StepMove(s, from, to).board)
  }

  /** `is_legal_drop` of `_legal_action_mask`. */
  predicate IsLegalDrop(s: State, piece: int, to: int)
    requires WellFormed(s) && 0 <= piece < 3 && 0 <= to < SQUARES
  {
    && s.board[to] == EMPTY
    && s.hand[0][piece] > 0
    && (piece != PAWN || to % 4 != 0)
    && !IsChecked(StepDrop(s, piece, to).board)
  }

  /** Whether label `a` is legal in `s`. */
  predicate IsLegal(s: State, a: int)
    requires WellFormed(s) && 0 <= a < LABELS
  {
    var act := FromLabel(a);
    if act.isDrop then IsLegalDrop(s, act.dropPiece, act.to) else IsLegalMove(s, act.from, act.to)
  }

  /** `_legal_action_mask`: one flag per label. */
  function LegalActionMask(s: State): (mask: seq<bool>)
    requires WellFormed(s)
    ensures |mask| == LABELS
    ensures forall a | 0 <= a < 96 ::
      var from := a % 12; var to := To(from, a / 12);
      mask[a] <==>
        && PAWN <= s.board[from] <= GOLD
        && to != -1
        && (s.board[to] == EMPTY || s.board[to] > GOLD)
        && CanMove(s.board[from], from, to)
        && !IsChecked(StepMove(s, from, to).board)
    ensures forall a | 96 <= a < LABELS ::
      var piece := a / 12 - 8; var to := a % 12;
      && 0 <= piece < 3
      && (mask[a] <==>
        && s.board[to] == EMPTY
        && s.hand[0][piece] > 0
        && (piece != PAWN || to % 4 != 0)
        && !IsChecked(StepDrop(s, piece, to).board))
  {
    seq(LABELS, a requires 0 <= a < LABELS => IsLegal(s, a))
  }

  /** Legality of a label depends on the board and the hands alone. */
  lemma LegalOfPosition(s: State, t: State, a: int)
    requires WellFormed(s) && WellFormed(t) && s.board == t.board && s.hand == t.hand && 0 <= a < LABELS
    ensures IsLegal(s, a) == IsLegal(t, a)
  {
    var act := FromLabel(a);
    if act.isDrop {
      var bs := StepDrop(s, act.dropPiece, act.to).board;
      assert bs == StepDrop(t, act.dropPiece, act.to).board;
      assert IsLegalDrop(s, act.dropPiece, act.to) == IsLegalDrop(t, act.dropPiece, act.to);
    } else if act.to != -1 {
      MoveOfPosition(s, t, act.from, act.to);
      assert IsLegalMove(s, act.from, act.to) == IsLegalMove(t, act.from, act.to);
    }
  }

  /** The board after a move depends on the board alone. */
  lemma MoveOfPosition(s: State, t: State, from: int, to: int)
    requires WellFormed(s) && WellFormed(t) && s.board == t.board && s.hand == t.hand
    requires 0 <= from < SQUARES && 0 <= to < SQUARES
    ensures StepMove(s, from, to).board == StepMove(t, from, to).board
  {
  }

  /** The mask depends on the board and the hands alone. */
  lemma MaskOfPosition(s: State, t: State)
    requires WellFormed(s) && WellFormed(t) && s.board == t.board && s.hand == t.hand
    ensures LegalActionMask(s) == LegalActionMask(t)
  {
    forall a | 0 <= a < LABELS
      ensures IsLegal(s, a) == IsLegal(t, a)
    {
      LegalOfPosition(s, t, a);
    }
    assert LegalActionMask(s) == seq(LABELS, a requires 0 <= a < LABELS => IsLegal(t, a));
  }

  /** The position after the move or drop of a decoded label, before the flip. */
  function Apply(s: State, act: Action): (r: State)
    requires WellFormed(s) && (0 <= act.to < SQUARES || (!act.isDrop && act.to == -1))
    requires act.isDrop ==> 0 <= act.dropPiece < 3
    requires !act.isDrop ==> 0 <= act.from < SQUARES
    ensures WellFormed(r)
  {
    if act.isDrop then StepDrop(s, act.dropPiece, act.to) else StepMove(s, act.from, act.to)
  }

  /** The mover's KING stands on row 0 (squares 0, 4 and 8). */
  predicate IsTry(b: seq<int>)
    requires |b| == SQUARES
  {
    b[0] == KING || b[4] == KING || b[8] == KING
  }

  /**
   * `_step`: apply the label, note a KING on the far row, flip, and compute the
   * next mask. The game ends when the next side has no legal label or the
   * mover's KING reached the far row; the side now to move then gets -1 and
   * the other +1.
   */
  function Step(s: State, action: int): (r: State)
    requires WellFormed(s) && 0 <= action < LABELS
    ensures WellFormed(r)
    ensures var moved := Apply(s, FromLabel(action));
      && r.board == Flip(moved).board && r.hand == Flip(moved).hand
      && r.currentPlayer == 1 - s.currentPlayer && r.turn == 1 - s.turn
      && r.legalActionMask == LegalActionMask(r)
      && (r.terminated <==> (forall a | 0 <= a < LABELS :: !r.legalActionMask[a]) || IsTry(moved.board))
      && |r.reward| == 2
      && (r.terminated ==> r.reward[r.currentPlayer] == -1 && r.reward[1 - r.currentPlayer] == 1)
      && (!r.terminated ==> r.reward == [0, 0])
  {
    var moved := Apply(s, FromLabel(action));
    Conclude(Flip(moved), IsTry(moved.board))
  }

  /**
   * The end of `_step`, on the flipped position: its mask, and the game over
   * when that mask is empty or the mover reached the far row, the side now to
   * move getting -1.
   */
  function Conclude(flipped: State, isTry: bool): (r: State)
    requires WellFormed(flipped)
    ensures WellFormed(r)
    ensures r.board == flipped.board && r.hand == flipped.hand
    ensures r.currentPlayer == flipped.currentPlayer && r.turn == flipped.turn
    ensures r.legalActionMask == LegalActionMask(r)
    ensures r.terminated <==> (forall a | 0 <= a < LABELS :: !r.legalActionMask[a]) || isTry
    ensures |r.reward| == 2
    ensures r.terminated ==> r.reward[r.currentPlayer] == -1 && r.reward[1 - r.currentPlayer] == 1
    ensures !r.terminated ==> r.reward == [0, 0]
  {
    var mask := LegalActionMask(flipped);
    var terminated := !(true in mask) || isTry;
    var reward := if terminated then [1, 1][flipped.currentPlayer := -1] else [0, 0];
    var r := flipped.(legalActionMask := mask, terminated := terminated, reward := reward);
    MaskOfPosition(r, flipped);
    r
  }

  /** `_init` with the starting seat given: the starting position, empty hands and its mask. */
  function Init(currentPlayer: int): (s: State)
    requires currentPlayer == 0 || currentPlayer == 1
    ensures WellFormed(s) && s.board == INIT_BOARD && s.turn == 0 && !s.terminated
    ensures s.currentPlayer == currentPlayer && s.reward == [0, 0] && s.hand == [[0, 0, 0], [0, 0, 0]]
    ensures s.legalActionMask == LegalActionMask(s)
  {
    var s0 := State(currentPlayer, [0, 0], false, [], 0, INIT_BOARD, [[0, 0, 0], [0, 0, 0]]);
    var s := s0.(legalActionMask := LegalActionMask(s0));
    MaskOfPosition(s, s0);
    s
  }

  /** Number of pieces on the board. */
  function Pieces(b: seq<int>): (n: nat)
    ensures n <= |b|
  {
    CountNonzero(Occupied(b))
  }

  function Occupied(b: seq<int>): (o: seq<bool>)
    ensures |o| == |b| && forall i | 0 <= i < |b| :: o[i] <==> b[i] != EMPTY
  {
    seq(|b|, i requires 0 <= i < |b| => b[i] != EMPTY)
  }

  /** Total of both hands. */
  function InHand(h: seq<seq<int>>): int
    requires |h| == 2 && |h[0]| == 3 && |h[1]| == 3
  {
    h[0][0] + h[0][1] + h[0][2] + h[1][0] + h[1][1] + h[1][2]
  }

  /** Writing one square changes the count by what left and what arrived. */
  lemma PiecesUpdate(b: seq<int>, i: int, v: int)
    requires 0 <= i < |b|
    ensures Pieces(b[i := v]) == Pieces(b) - (if b[i] != EMPTY then 1 else 0) + (if v != EMPTY then 1 else 0)
  {
    var o := Occupied(b);
    if v != EMPTY {
      assert Occupied(b[i := v]) == o[i := true];
      CountSet(o, i);
    } else {
      assert Occupied(b[i := v]) == o[i := false];
      CountClear(o, i);
    }
  }

  /** An opponent piece other than the KING goes to one of the three hand slots. */
  lemma HandSlot(v: int)
    requires GOLD < v < 10 && v != OPP_KING
    ensures 0 <= (v % 5) % 4 < 3
  {
    if v == 5 {
    } else if v == 6 {
    } else if v == 7 {
    } else {
      assert v == 9;
    }
  }

  /**
   * A move of an own piece onto an empty square or onto an opponent piece
   * other than the king keeps the number of pieces on the board and in the
   * hands: a captured piece moves to the hand.
   */
  lemma StepMoveConserves(s: State, from: int, to: int)
    requires WellFormed(s) && 0 <= from < SQUARES && 0 <= to < SQUARES && from != to
    requires PAWN <= s.board[from] <= GOLD && (s.board[to] == EMPTY || GOLD < s.board[to]) && s.board[to] != OPP_KING
    ensures var r := StepMove(s, from, to); Pieces(r.board) + InHand(r.hand) == Pieces(s.board) + InHand(s.hand)
  {
    var r := StepMove(s, from, to);
    var b1 := s.board[from := EMPTY];
    PiecesUpdate(s.board, from, EMPTY);
    var moved := if from % 4 == 1 && s.board[from] == PAWN then GOLD else s.board[from];
    assert r.board == b1[to := moved];
    PiecesUpdate(b1, to, moved);
    if s.board[to] != EMPTY {
      var k := (s.board[to] % 5) % 4;
      HandSlot(s.board[to]);
      assert r.hand == s.hand[0 := s.hand[0][k := s.hand[0][k] + 1]];
      assert InHand(r.hand) == InHand(s.hand) + 1;
    }
  }

  /** Capturing the opponent's KING removes it from play: its hand slot is out of range and the add is dropped. */
  lemma KingCaptureVanishes(s: State, from: int, to: int)
    requires WellFormed(s) && 0 <= from < SQUARES && 0 <= to < SQUARES && from != to
    requires PAWN <= s.board[from] <= GOLD && s.board[to] == OPP_KING
    ensures var r := StepMove(s, from, to); Pieces(r.board) == Pieces(s.board) - 1 && r.hand == s.hand
  {
    var r := StepMove(s, from, to);
    var b1 := s.board[from := EMPTY];
    PiecesUpdate(s.board, from, EMPTY);
    var moved := if from % 4 == 1 && s.board[from] == PAWN then GOLD else s.board[from];
    assert r.board == b1[to := moved];
    PiecesUpdate(b1, to, moved);
  }

  /** A drop onto an empty square moves one piece from the hand to the board. */
  lemma StepDropConserves(s: State, piece: int, to: int)
    requires WellFormed(s) && 0 <= piece < 3 && 0 <= to < SQUARES && s.board[to] == EMPTY
    ensures var r := StepDrop(s, piece, to); Pieces(r.board) + InHand(r.hand) == Pieces(s.board) + InHand(s.hand)
  {
    PiecesUpdate(s.board, to, piece);
  }

  /** Number of occupied squares in `b[..k]`, the reversal of `b` read from the other end. */
  lemma {:induction false} PiecesReversed(b: seq<int>, r: seq<int>)
    requires |r| == |b| && forall i | 0 <= i < |b| :: (r[i] == EMPTY <==> b[|b| - 1 - i] == EMPTY)
    ensures Pieces(r) == Pieces(b)
    decreases |b|
  {
    if |b| > 0 {
      var n := |b| - 1;
      PiecesReversed(b[1..], r[..n]);
      assert Occupied(b) == [b[0] != EMPTY] + Occupied(b[1..]);
      assert Occupied(r) == Occupied(r[..n]) + [r[n] != EMPTY];
      CountConcat([b[0] != EMPTY], Occupied(b[1..]));
      CountConcat(Occupied(r[..n]), [r[n] != EMPTY]);
    }
  }

  lemma {:induction false} CountConcat(a: seq<bool>, b: seq<bool>)
    ensures CountNonzero(a + b) == CountNonzero(a) + CountNonzero(b)
    decreases |a|
  {
    if a == [] {
      assert a + b == b;
    } else {
      assert (a + b)[0] == a[0];
      assert (a + b)[1..] == a[1..] + b;
      CountConcat(a[1..], b);
    }
  }

  /** Flipping keeps the number of pieces on the board and in the hands. */
  lemma FlipConserves(s: State)
    requires WellFormed(s)
    ensures Pieces(Flip(s).board) + InHand(Flip(s).hand) == Pieces(s.board) + InHand(s.hand)
  {
    PiecesReversed(s.board, Flip(s).board);
  }
}
