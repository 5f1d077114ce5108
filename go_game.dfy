/**
 * Game-level properties of Mini-Go: what passing, an illegal placement and the
 * ko rule do, and what the territory fill counts.
 */
module GoGame {
  import opened Jax
  import opened GoBoard
  import opened GoTerritory
  import opened GoRules

  // ---------------------------------------------------------------- passing

  /** A first pass only moves the turn on and raises the pass flag; the game goes on. */
  lemma FirstPass(s: MiniGoState)
    requires WellFormed(s) && !s.passed
    ensures var res := Step(s, -1);
      && res.state == s.(turn := s.turn + 1, passed := true)
      && res.reward == [0, 0] && !res.terminated
  {
  }

  /** A pass straight after a pass ends the game, scored by territory, with the board untouched. */
  lemma SecondPass(s: MiniGoState)
    requires WellFormed(s) && s.passed
    ensures var res := Step(s, -1);
      && res.terminated && res.reward == GetReward(s)
      && res.state == s.(turn := s.turn + 1)
  {
  }

  /** A placement clears the pass flag, so a later pass does not end the game. */
  lemma PlacementClearsPass(s: MiniGoState, xy: int)
    requires WellFormed(s) && 0 <= xy < BOARD_SIZE
    ensures !Step(s, xy).state.passed
  {
  }

  // ---------------------------------------------------------------- illegal placement

  /**
   * A placement on an occupied point or on the ko point ends the game: the mover
   * gets -1, the other player +1, and the turn still moves on.
   */
  lemma IllegalPlacementLoses(s: MiniGoState, xy: int)
    requires WellFormed(s) && 0 <= xy < BOARD_SIZE && IsIllegalMove(s, xy)
    ensures var res := Step(s, xy);
      && res.terminated
      && |res.reward| == 2
      && res.reward[MyColor(s)] == -1 && res.reward[OpponentColor(s)] == 1
      && res.state.turn == s.turn + 1
  {
  }

  /** Whatever a placement does, its result is either a loss for the mover or an unrewarded move on. */
  lemma PlacementOutcome(s: MiniGoState, xy: int)
    requires WellFormed(s) && 0 <= xy < BOARD_SIZE
    ensures var res := Step(s, xy);
      && res.state.turn == s.turn + 1
      && (res.terminated ==> res.reward[MyColor(s)] == -1 && res.reward[OpponentColor(s)] == 1)
      && (!res.terminated ==> res.reward == [0, 0] && !IsIllegalMove(s, xy))
  {
  }

  // ---------------------------------------------------------------- ko

  /**
   * The ko point is only kept when the placement was surrounded by opposing
   * stones; otherwise the placement clears it.
   */
  lemma KouClearedUnlessSurrounded(s: MiniGoState, xy: int)
    requires WellFormed(s) && 0 <= xy < BOARD_SIZE
    requires !KouOccurred(s, xy)
    ensures Step(s, xy).state.kou == -1
  {
    assert KouOccurred(s.(passed := false), xy) == KouOccurred(s, xy);
  }

  /** Across the neighbour loop the prisoners and the ko point change only through a capture, which sets the ko point to that neighbour. */
  lemma {:induction false} NeighboursKou(s: MiniGoState, xy: int, k: int)
    requires WellFormed(s) && 0 <= xy < BOARD_SIZE && 0 <= k <= 4
    requires s.renIdBoard[MyColor(s)][xy] != NO_REN
    ensures var r := Neighbours(s, xy, k);
      || (r.agehama == s.agehama && r.kou == s.kou)
      || (exists d | 0 <= d < k :: IsOnBoard(NeighbourPos(xy, d)) && r.kou == PosToXy(NeighbourPos(xy, d)))
  {
    if k > 0 {
      NeighboursKou(s, xy, k - 1);
      var t := Neighbours(s, xy, k - 1);
      var r := Neighbours(s, xy, k);
      assert r == ProcessNeighbour(t, xy, k - 1);
      var pos := NeighbourPos(xy, k - 1);
      var adjXy := PosToXy(pos);
      var my := MyColor(t);
      var op := OpponentColor(t);
      if IsOffBoard(pos) || t.renIdBoard[my][adjXy] != NO_REN {
        assert r.agehama == t.agehama && r.kou == t.kou;
      } else if t.renIdBoard[op][adjXy] != NO_REN {
        var u := MarkContact(t, xy, adjXy);
        assert r == SetStoneNextToOppoRen(t, xy, adjXy);
        if NoLiberty(u.liberty[op][t.renIdBoard[op][adjXy]]) {
          assert r.kou == adjXy && IsOnBoard(pos);
        } else {
          assert r.agehama == t.agehama && r.kou == t.kou;
        }
      } else {
        assert r.agehama == t.agehama && r.kou == t.kou;
      }
    }
  }

  /**
   * With the intended ko test, the ko point is set after a placement exactly
   * when the point was surrounded by opposing stones and the mover captured
   * exactly one stone, and it is then one of the four neighbours of the placed
   * stone.
   */
  lemma KouKeptIffSingleCapture(s: MiniGoState, xy: int)
    requires WellFormed(s) && 0 <= xy < BOARD_SIZE
    ensures var r := StepIntended(s, xy).state;
      && (r.kou != -1 <==> KouOccurred(s, xy) && r.agehama[MyColor(s)] == s.agehama[MyColor(s)] + 1)
      && (r.kou != -1 ==> exists d | 0 <= d < 4 :: IsOnBoard(NeighbourPos(xy, d)) && r.kou == PosToXy(NeighbourPos(xy, d)))
  {
    var s0 := s.(passed := false);
    assert KouOccurred(s0, xy) == KouOccurred(s, xy);
    var s1 := SetStone(s0, xy);
    NeighboursKou(s1, xy, 4);
  }

  /**
   * `Step` keeps the ko point that the neighbour loop left, or clears it, by
   * the source's test; after a capture that point is on the board.
   */
  lemma PlacementKouAsWritten(s: MiniGoState, xy: int)
    requires WellFormed(s) && 0 <= xy < BOARD_SIZE
    ensures var p := Neighbours(SetStone(s.(passed := false), xy), xy, 4);
      var r := Step(s, xy).state;
      && r.agehama == p.agehama
      && r.kou == (if KeepKouAsWritten(KouOccurred(s, xy), r.agehama[MyColor(s)], s.agehama[BLACK]) then p.kou else -1)
      && (r.agehama != s.agehama ==> p.kou >= 0)
  {
    var s0 := s.(passed := false);
    assert KouOccurred(s0, xy) == KouOccurred(s, xy);
    NeighboursKou(SetStone(s0, xy), xy, 4);
  }

  /** The two ko tests lead to the same position, reward and ending, except for the ko point. */
  lemma StepsDifferOnlyInKou(s: MiniGoState, xy: int)
    requires WellFormed(s) && 0 <= xy < BOARD_SIZE
    ensures var r := Step(s, xy);
      var q := StepIntended(s, xy);
      q == r.(state := r.state.(kou := q.state.kou))
  {
  }

  /**
   * The source's ko test clears the ko point after a single-stone capture by
   * White on a surrounded point whenever the prisoner counts before the move
   * differ by an odd number (White holding one prisoner and Black none, say);
   * `KouKeptIffSingleCapture` shows that the intended test keeps it.
   */
  lemma KouRetentionAsWritten(s: MiniGoState, xy: int)
    requires WellFormed(s) && 0 <= xy < BOARD_SIZE && MyColor(s) == WHITE
    requires (s.agehama[WHITE] - s.agehama[BLACK]) % 2 == 1
    requires KouOccurred(s, xy) && Step(s, xy).state.agehama[WHITE] == s.agehama[WHITE] + 1
    ensures Step(s, xy).state.kou == -1
  {
    var r := Step(s, xy).state;
    SingleCaptureOnOddGap(KouOccurred(s, xy), s.agehama[WHITE], s.agehama[BLACK]);
    assert !KeepKouAsWritten(KouOccurred(s, xy), r.agehama[MyColor(s)], s.agehama[BLACK]);
    PlacementKouAsWritten(s, xy);
  }

  /** The source's test clears the ko point after one capture when the counts before differed by an odd number. */
  lemma SingleCaptureOnOddGap(kouOccurred: bool, mover: int, black: int)
    requires (mover - black) % 2 == 1
    ensures !KeepKouAsWritten(kouOccurred, mover + 1, black)
  {
  }

  /**
   * The source's ko test keeps a ko point after Black captures three stones
   * on a surrounded point, where the intended test clears it.
   */
  lemma KouKeptAfterTripleCapture(s: MiniGoState, xy: int)
    requires WellFormed(s) && 0 <= xy < BOARD_SIZE && MyColor(s) == BLACK
    requires KouOccurred(s, xy) && Step(s, xy).state.agehama[BLACK] == s.agehama[BLACK] + 3
    ensures Step(s, xy).state.kou != -1
    ensures StepIntended(s, xy).state.kou == -1
  {
    PlacementKouAsWritten(s, xy);
    StepsDifferOnlyInKou(s, xy);
  }

  /** On an interior point, the ko test is exactly "all four neighbours hold an opposing stone". */
  lemma KouOccurredInterior(s: MiniGoState, xy: int)
    requires WellFormed(s) && 0 <= xy < BOARD_SIZE
    requires 1 <= xy / BOARD_WIDTH <= 3 && 1 <= xy % BOARD_WIDTH <= 3
    ensures KouOccurred(s, xy) <==>
      forall d | 0 <= d < 4 :: s.renIdBoard[OpponentColor(s)][PosToXy(NeighbourPos(xy, d))] != NO_REN
  {
    var oppo := s.renIdBoard[OpponentColor(s)];
    var x := xy / BOARD_WIDTH;
    var y := xy % BOARD_WIDTH;
    assert NeighbourPos(xy, 0) == (x - 1, y) && NeighbourPos(xy, 1) == (x + 1, y);
    assert NeighbourPos(xy, 2) == (x, y + 1) && NeighbourPos(xy, 3) == (x, y - 1);
  }

  /**
   * On the edge the ko test reads wrapped points: for the corner point 0 it
   * looks at points 20 (row -1 wraps to the last row), 5, 24 (column -1 wraps
   * to the last point) and 1.
   */
  lemma KouOccurredCorner(s: MiniGoState)
    requires WellFormed(s)
    ensures var oppo := s.renIdBoard[OpponentColor(s)];
      KouOccurred(s, 0) <==> oppo[20] != NO_REN && oppo[5] != NO_REN && oppo[24] != NO_REN && oppo[1] != NO_REN
  {
  }

  // ---------------------------------------------------------------- territory

  /** Some padded neighbour of cell `i` held the painting colour `o` at the start. */
  predicate NearOpp(b0: seq<int>, i: int, o: int)
    requires |b0| == PADDED_SIZE && 0 <= i < PADDED_SIZE
  {
    || (0 <= i - PADDED_WIDTH && b0[i - PADDED_WIDTH] == o)
    || (i + PADDED_WIDTH < PADDED_SIZE && 0 <= i + PADDED_WIDTH && b0[i + PADDED_WIDTH] == o)
    || (0 <= i - 1 < PADDED_SIZE && b0[i - 1] == o)
    || (0 <= i + 1 < PADDED_SIZE && b0[i + 1] == o)
  }

  /**
   * What the fill loop keeps true against its start board `b0`: candidates are
   * cells that held `o` at the start, and a cell differs from `b0` only if it was
   * an empty point now painted `o` next to such a cell.
   */
  predicate FillInvariant(ji: Ji, b0: seq<int>)
  {
    var o := (ji.color + 1) % 2;
    && JiShape(ji) && |b0| == PADDED_SIZE
    && (forall i {:trigger ji.candidateXy[i]} | 0 <= i < PADDED_SIZE && ji.candidateXy[i] :: b0[i] == o)
    && (forall i {:trigger ji.board[i]} | 0 <= i < PADDED_SIZE ::
          ji.board[i] == b0[i] || (b0[i] == POINT && ji.board[i] == o && NearOpp(b0, i, o)))
  }

  /** A cell next to one that held `o` is near `o`. */
  lemma NearOppOfNeighbour(b0: seq<int>, xy: int, i: int, o: int)
    requires |b0| == PADDED_SIZE && 0 <= xy < PADDED_SIZE && 0 <= i < PADDED_SIZE && b0[xy] == o
    requires i == xy - PADDED_WIDTH || i == xy + PADDED_WIDTH || i == xy - 1 || i == xy + 1
    ensures NearOpp(b0, i, o)
  {
  }

  /** The invariant survives any iteration that behaves as RoopStepSpec describes. */
  lemma FillStep(ji: Ji, r: Ji, b0: seq<int>, xy: int)
    requires FillInvariant(ji, b0) && JiShape(r) && r.color == ji.color
    requires 0 <= xy < PADDED_SIZE && ji.candidateXy[xy]
    requires forall i | 0 <= i < PADDED_SIZE ::
      r.board[i] ==
        (if (i == xy - PADDED_WIDTH || i == xy + PADDED_WIDTH || i == xy - 1 || i == xy + 1)
            && ji.board[i] == POINT
         then (ji.color + 1) % 2 else ji.board[i])
    requires forall i | 0 <= i < PADDED_SIZE :: r.candidateXy[i] ==> ji.candidateXy[i]
    ensures FillInvariant(r, b0)
  {
    var o := (ji.color + 1) % 2;
    forall i | 0 <= i < PADDED_SIZE
      ensures r.board[i] == b0[i] || (b0[i] == POINT && r.board[i] == o && NearOpp(b0, i, o))
    {
      if r.board[i] != ji.board[i] {
        NearOppOfNeighbour(b0, xy, i, o);
      }
    }
  }

  lemma RoopStepKeepsFill(ji: Ji, b0: seq<int>)
    requires FillInvariant(ji, b0) && CountNonzero(ji.candidateXy) != 0
    ensures FillInvariant(RoopStep(ji), b0)
  {
    RoopStepSpec(ji);
    FillStep(ji, RoopStep(ji), b0, FirstTrue(ji.candidateXy));
  }

  lemma {:induction false} RunRoopKeepsFill(ji: Ji, b0: seq<int>)
    requires FillInvariant(ji, b0)
    ensures FillInvariant(RunRoop(ji), b0)
    decreases CountNonzero(ji.candidateXy)
  {
    if CountNonzero(ji.candidateXy) != 0 {
      RoopStepKeepsFill(ji, b0);
      RunRoopKeepsFill(RoopStep(ji), b0);
    }
  }

  lemma DivMod5(a: int, b: int)
    requires 0 <= b < 5
    ensures (5 * a + b) / 5 == a && (5 * a + b) % 5 == b
  {
  }

  lemma DivMod7(a: int, b: int)
    requires 0 <= b < 7
    ensures (7 * a + b) / 7 == a && (7 * a + b) % 7 == b
  {
  }

  /** Board point (x, y) sits at padded cell (x + 1, y + 1). */
  lemma PadIndexAt(x: int, y: int)
    requires 0 <= x < BOARD_WIDTH && 0 <= y < BOARD_WIDTH
    ensures PadIndex(ToXy(x, y)) == PADDED_WIDTH * (x + 1) + (y + 1)
    ensures XyToPos(ToXy(x, y)) == (x, y)
  {
    DivMod5(x, y);
  }

  /** A padded cell in row 0 or 6, or column 0 or 6, is padding. */
  lemma BorderCell(r: int, c: int)
    requires 0 <= r < PADDED_WIDTH && 0 <= c < PADDED_WIDTH
    requires r == 0 || r == PADDED_WIDTH - 1 || c == 0 || c == PADDED_WIDTH - 1
    ensures !IsInner(PADDED_WIDTH * r + c)
  {
    DivMod7(r, c);
  }

  /** The padded cell (r, c) holds padding on the border and the board point (r - 1, c - 1) inside. */
  lemma PadAt(board: seq<int>, r: int, c: int)
    requires |board| == BOARD_SIZE && 0 <= r < PADDED_WIDTH && 0 <= c < PADDED_WIDTH
    ensures var v := Pad(board)[PADDED_WIDTH * r + c];
      && (r == 0 || r == PADDED_WIDTH - 1 || c == 0 || c == PADDED_WIDTH - 1 ==> v == PAD)
      && (1 <= r <= BOARD_WIDTH && 1 <= c <= BOARD_WIDTH ==> v == board[ToXy(r - 1, c - 1)])
  {
    if r == 0 || r == PADDED_WIDTH - 1 || c == 0 || c == PADDED_WIDTH - 1 {
      BorderCell(r, c);
    } else {
      PadIndexAt(r - 1, c - 1);
    }
  }

  /** A cell none of whose four padded neighbours holds `o` is not near `o`. */
  lemma NotNearOpp(b: seq<int>, x: int, y: int, o: int)
    requires |b| == PADDED_SIZE && 0 <= x < BOARD_WIDTH && 0 <= y < BOARD_WIDTH
    requires b[7 * x + (y + 1)] != o
    requires b[7 * (x + 2) + (y + 1)] != o
    requires b[7 * (x + 1) + (y + 2)] != o
    requires b[7 * (x + 1) + y] != o
    ensures !NearOpp(b, 7 * (x + 1) + (y + 1), o)
  {
  }

  /** The padded cell above board point (x, y) does not hold `o` when the board point above does not. */
  lemma PadAbove(board: seq<int>, x: int, y: int, o: int)
    requires |board| == BOARD_SIZE && 0 <= x < BOARD_WIDTH && 0 <= y < BOARD_WIDTH && 0 <= o < 2
    requires x > 0 ==> board[ToXy(x - 1, y)] != o
    ensures Pad(board)[7 * x + (y + 1)] != o
  {
    PadAt(board, x, y + 1);
  }

  lemma PadBelow(board: seq<int>, x: int, y: int, o: int)
    requires |board| == BOARD_SIZE && 0 <= x < BOARD_WIDTH && 0 <= y < BOARD_WIDTH && 0 <= o < 2
    requires x < BOARD_WIDTH - 1 ==> board[ToXy(x + 1, y)] != o
    ensures Pad(board)[7 * (x + 2) + (y + 1)] != o
  {
    PadAt(board, x + 2, y + 1);
  }

  lemma PadRight(board: seq<int>, x: int, y: int, o: int)
    requires |board| == BOARD_SIZE && 0 <= x < BOARD_WIDTH && 0 <= y < BOARD_WIDTH && 0 <= o < 2
    requires y < BOARD_WIDTH - 1 ==> board[ToXy(x, y + 1)] != o
    ensures Pad(board)[7 * (x + 1) + (y + 2)] != o
  {
    PadAt(board, x + 1, y + 2);
  }

  lemma PadLeft(board: seq<int>, x: int, y: int, o: int)
    requires |board| == BOARD_SIZE && 0 <= x < BOARD_WIDTH && 0 <= y < BOARD_WIDTH && 0 <= o < 2
    requires y > 0 ==> board[ToXy(x, y - 1)] != o
    ensures Pad(board)[7 * (x + 1) + y] != o
  {
    PadAt(board, x + 1, y);
  }

  /** The fill invariant holds of the loop's final state, against the padded start board. */
  lemma FinalFill(board: seq<int>, color: int)
    requires |board| == BOARD_SIZE
    ensures FillInvariant(RunRoop(InitialJi(board, color)), Pad(board))
  {
    var ji := InitialJi(board, color);
    assert FillInvariant(ji, Pad(board));
    RunRoopKeepsFill(ji, Pad(board));
  }

  /** Only empty points are ever counted as territory. */
  lemma TerritoryIsEmpty(board: seq<int>, color: int, p: int)
    requires |board| == BOARD_SIZE && 0 <= p < BOARD_SIZE
    ensures SurroundedStones(board, color)[p] ==> board[p] == POINT
  {
    FinalFill(board, color);
    PadSpec(board, PadIndex(p));
  }

  /** Under the fill invariant, an empty cell with no start neighbour of colour `o` is still empty. */
  lemma UnpaintedCell(ji: Ji, b0: seq<int>, i: int)
    requires FillInvariant(ji, b0) && 0 <= i < PADDED_SIZE
    requires b0[i] == POINT && !NearOpp(b0, i, (ji.color + 1) % 2)
    ensures ji.board[i] == POINT
  {
  }

  /** No padded neighbour of board point (x, y) holds `o` when no board neighbour does. */
  lemma NotNearOppXy(board: seq<int>, x: int, y: int, o: int)
    requires |board| == BOARD_SIZE && 0 <= x < BOARD_WIDTH && 0 <= y < BOARD_WIDTH && 0 <= o < 2
    requires x > 0 ==> board[ToXy(x - 1, y)] != o
    requires x < BOARD_WIDTH - 1 ==> board[ToXy(x + 1, y)] != o
    requires y < BOARD_WIDTH - 1 ==> board[ToXy(x, y + 1)] != o
    requires y > 0 ==> board[ToXy(x, y - 1)] != o
    ensures !NearOpp(Pad(board), 7 * (x + 1) + (y + 1), o)
  {
    PadAbove(board, x, y, o);
    PadBelow(board, x, y, o);
    PadRight(board, x, y, o);
    PadLeft(board, x, y, o);
    NotNearOpp(Pad(board), x, y, o);
  }

  /** The four-neighbour condition on point `p`, restated on its row `x` and column `y`. */
  lemma NeighboursXy(board: seq<int>, p: int, o: int)
    requires |board| == BOARD_SIZE && 0 <= p < BOARD_SIZE
    requires forall d | 0 <= d < 4 && IsOnBoard(NeighbourPos(p, d)) :: board[PosToXy(NeighbourPos(p, d))] != o
    ensures var x := p / BOARD_WIDTH; var y := p % BOARD_WIDTH;
      && (x > 0 ==> board[ToXy(x - 1, y)] != o)
      && (x < BOARD_WIDTH - 1 ==> board[ToXy(x + 1, y)] != o)
      && (y < BOARD_WIDTH - 1 ==> board[ToXy(x, y + 1)] != o)
      && (y > 0 ==> board[ToXy(x, y - 1)] != o)
  {
    var x := p / BOARD_WIDTH;
    var y := p % BOARD_WIDTH;
    assert NeighbourPos(p, 0) == (x - 1, y);
    assert NeighbourPos(p, 1) == (x + 1, y);
    assert NeighbourPos(p, 2) == (x, y + 1);
    assert NeighbourPos(p, 3) == (x, y - 1);
  }

  /** No padded neighbour of `p` holds `o` when no board neighbour does. */
  lemma NotNearOppAt(board: seq<int>, p: int, o: int)
    requires |board| == BOARD_SIZE && 0 <= p < BOARD_SIZE && 0 <= o < 2
    requires forall d | 0 <= d < 4 && IsOnBoard(NeighbourPos(p, d)) :: board[PosToXy(NeighbourPos(p, d))] != o
    ensures !NearOpp(Pad(board), PadIndex(p), o)
  {
    var x := p / BOARD_WIDTH;
    var y := p % BOARD_WIDTH;
    assert PadIndex(p) == 7 * (x + 1) + (y + 1) by {
      assert p == ToXy(x, y);
      PadIndexAt(x, y);
    }
    NeighboursXy(board, p, o);
    NotNearOppXy(board, x, y, o);
  }

  /**
   * An empty point none of whose board neighbours holds an opposing stone is
   * territory: only neighbours of opposing stones are ever painted.
   */
  lemma EmptyAwayFromOpponentIsTerritory(board: seq<int>, color: int, p: int)
    requires |board| == BOARD_SIZE && 0 <= color < 2 && 0 <= p < BOARD_SIZE
    requires board[p] == POINT
    requires forall d | 0 <= d < 4 && IsOnBoard(NeighbourPos(p, d)) ::
      board[PosToXy(NeighbourPos(p, d))] != (color + 1) % 2
    ensures SurroundedStones(board, color)[p]
  {
    var o := (color + 1) % 2;
    var i := PadIndex(p);
    var final := RunRoop(InitialJi(board, color));
    assert final.color == color;
    assert Pad(board)[i] == POINT by {
      PadSpec(board, i);
      assert InnerPoint(i) == p;
    }
    NotNearOppAt(board, p, o);
    FinalFill(board, color);
    UnpaintedCell(final, Pad(board), i);
  }

  /** A colour's territory never exceeds the number of empty points. */
  lemma CountJiAtMostEmpty(s: MiniGoState, color: int)
    requires WellFormed(s) && 0 <= color < 2
    ensures CountJi(s, color) <= CountNonzero(Equals(GetBoard(s), POINT))
  {
    var board := GetBoard(s);
    forall p | 0 <= p < BOARD_SIZE
      ensures SurroundedStones(board, color)[p] ==> Equals(board, POINT)[p]
    {
      TerritoryIsEmpty(board, color, p);
    }
    CountMonotone(Equals(board, POINT), SurroundedStones(board, color));
  }

  /** On the empty board every point is territory of both colours. */
  lemma EmptyBoardTerritory(color: int)
    requires 0 <= color < 2
    ensures CountJi(Init(), color) == BOARD_SIZE
  {
    var board := GetBoard(Init());
    forall p | 0 <= p < BOARD_SIZE
      ensures SurroundedStones(board, color)[p]
    {
      EmptyAwayFromOpponentIsTerritory(board, color, p);
    }
  }

  /** Two passes from the start end the game as a draw. */
  lemma PassPassFromInit()
    ensures var first := Step(Init(), -1);
      var second := Step(first.state, -1);
      && !first.terminated && second.terminated && second.reward == [0, 0]
  {
    var s := Step(Init(), -1).state;
    assert GetBoard(s) == GetBoard(Init());
    EmptyBoardTerritory(BLACK);
    EmptyBoardTerritory(WHITE);
  }
}
