/**
 * Properties of the Mini-Go move processor (module GoRules): what each group
 * operation does to the tables, the invariants a move preserves, the
 * conservation of stones, and when a placement is legal.
 */
module GoProperties {
  import opened Jax
  import opened GoBoard
  import opened GoRules

  // ---------------------------------------------------------------- merge

  /** What `_merge_ren` does to every table, cell by cell. */
  lemma MergeRenSpec(s: MiniGoState, xy: int, adjXy: int)
    requires WellFormed(s) && 0 <= xy < BOARD_SIZE && 0 <= adjXy < BOARD_SIZE
    requires s.renIdBoard[MyColor(s)][xy] != NO_REN && s.renIdBoard[MyColor(s)][adjXy] != NO_REN
    ensures var r := MergeRen(s, xy, adjXy);
      var my := MyColor(s);
      var op := OpponentColor(s);
      var newId := s.renIdBoard[my][xy];
      var adjId := s.renIdBoard[my][adjXy];
      var small := if adjId < newId then adjId else newId;
      var large := if adjId < newId then newId else adjId;
      && (newId == adjId ==> r == s)
      && (newId != adjId ==>
        && 0 <= small < large < BOARD_SIZE
        && (forall p | 0 <= p < BOARD_SIZE ::
              r.renIdBoard[my][p] == (if s.renIdBoard[my][p] == large then small else s.renIdBoard[my][p]))
        && r.availableRenId[my][large]
        && (forall j | 0 <= j < BOARD_SIZE && j != large :: r.availableRenId[my][j] == s.availableRenId[my][j])
        && (forall p | 0 <= p < BOARD_SIZE ::
              r.liberty[my][small][p] ==
                (if p == xy then LIB_NONE else Max(s.liberty[my][small][p], s.liberty[my][large][p])))
        && (forall p | 0 <= p < BOARD_SIZE :: r.liberty[my][large][p] == LIB_NONE)
        && (forall i, p | 0 <= i < BOARD_SIZE && i != small && i != large && 0 <= p < BOARD_SIZE ::
              r.liberty[my][i][p] == s.liberty[my][i][p])
        && (forall j | 0 <= j < BOARD_SIZE ::
              r.adjRenId[my][small][j] == (s.adjRenId[my][small][j] || s.adjRenId[my][large][j]))
        && (forall j | 0 <= j < BOARD_SIZE :: !r.adjRenId[my][large][j])
        && (forall i, j | 0 <= i < BOARD_SIZE && i != small && i != large && 0 <= j < BOARD_SIZE ::
              r.adjRenId[my][i][j] == s.adjRenId[my][i][j])
        && (forall o, k | 0 <= o < BOARD_SIZE && 0 <= k < BOARD_SIZE ::
              r.adjRenId[op][o][k] ==
                (if k == large then false
                 else if k == small then s.adjRenId[op][o][small] || s.adjRenId[op][o][large]
                 else s.adjRenId[op][o][k])))
  {
  }

  /** The liberty part of `MergeRenSpec`, for two different groups. */
  lemma MergeRenLiberty(s: MiniGoState, xy: int, adjXy: int, small: int, large: int)
    requires WellFormed(s) && 0 <= xy < BOARD_SIZE && 0 <= adjXy < BOARD_SIZE
    requires s.renIdBoard[MyColor(s)][xy] != NO_REN && s.renIdBoard[MyColor(s)][adjXy] != NO_REN
    requires s.renIdBoard[MyColor(s)][xy] != s.renIdBoard[MyColor(s)][adjXy]
    requires (small, large) == SmallLarge(s.renIdBoard[MyColor(s)][xy], s.renIdBoard[MyColor(s)][adjXy])
    ensures var r := MergeRen(s, xy, adjXy);
      var my := MyColor(s);
      && (forall p | 0 <= p < BOARD_SIZE ::
            r.liberty[my][small][p] ==
              (if p == xy then LIB_NONE else Max(s.liberty[my][small][p], s.liberty[my][large][p])))
      && (forall p | 0 <= p < BOARD_SIZE :: r.liberty[my][large][p] == LIB_NONE)
      && (forall i, p | 0 <= i < BOARD_SIZE && i != small && i != large && 0 <= p < BOARD_SIZE ::
            r.liberty[my][i][p] == s.liberty[my][i][p])
      && r.liberty[1 - my] == s.liberty[1 - my]
  {
    MergeRenSpec(s, xy, adjXy);
  }

  /** The adjacency part of `MergeRenSpec`, for two different groups. */
  lemma MergeRenAdjacency(s: MiniGoState, xy: int, adjXy: int, small: int, large: int)
    requires WellFormed(s) && 0 <= xy < BOARD_SIZE && 0 <= adjXy < BOARD_SIZE
    requires s.renIdBoard[MyColor(s)][xy] != NO_REN && s.renIdBoard[MyColor(s)][adjXy] != NO_REN
    requires s.renIdBoard[MyColor(s)][xy] != s.renIdBoard[MyColor(s)][adjXy]
    requires (small, large) == SmallLarge(s.renIdBoard[MyColor(s)][xy], s.renIdBoard[MyColor(s)][adjXy])
    ensures var r := MergeRen(s, xy, adjXy);
      var my := MyColor(s);
      var op := OpponentColor(s);
      && (forall j | 0 <= j < BOARD_SIZE ::
            r.adjRenId[my][small][j] == (s.adjRenId[my][small][j] || s.adjRenId[my][large][j]))
      && (forall j | 0 <= j < BOARD_SIZE :: !r.adjRenId[my][large][j])
      && (forall i, j | 0 <= i < BOARD_SIZE && i != small && i != large && 0 <= j < BOARD_SIZE ::
            r.adjRenId[my][i][j] == s.adjRenId[my][i][j])
      && (forall o, k | 0 <= o < BOARD_SIZE && 0 <= k < BOARD_SIZE ::
            r.adjRenId[op][o][k] ==
              (if k == large then false
               else if k == small then s.adjRenId[op][o][small] || s.adjRenId[op][o][large]
               else s.adjRenId[op][o][k]))
  {
    MergeRenSpec(s, xy, adjXy);
  }

  // ---------------------------------------------------------------- capture

  /** What `_remove_stones` does to every table, cell by cell. */
  lemma RemoveStonesSpec(s: MiniGoState, rmId: int, rmXy: int)
    requires WellFormed(s) && 0 <= rmId < BOARD_SIZE
    ensures var r := RemoveStones(s, rmId, rmXy);
      var my := MyColor(s);
      var op := OpponentColor(s);
      && r.agehama[my] == s.agehama[my] + CountNonzero(Equals(s.renIdBoard[op], rmId))
      && r.agehama[op] == s.agehama[op]
      && r.kou == rmXy
      && r.availableRenId[op][rmId]
      && (forall j | 0 <= j < BOARD_SIZE && j != rmId :: r.availableRenId[op][j] == s.availableRenId[op][j])
      && (forall i, p | 0 <= i < BOARD_SIZE && 0 <= p < BOARD_SIZE ::
            r.liberty[my][i][p] ==
              (if s.liberty[my][i][p] > 0 && s.renIdBoard[op][p] == rmId then LIB_FREE else s.liberty[my][i][p]))
      && (forall p | 0 <= p < BOARD_SIZE :: r.liberty[op][rmId][p] == LIB_NONE)
      && (forall i, p | 0 <= i < BOARD_SIZE && i != rmId && 0 <= p < BOARD_SIZE ::
            r.liberty[op][i][p] == s.liberty[op][i][p])
      && (forall j | 0 <= j < BOARD_SIZE :: !r.adjRenId[op][rmId][j])
      && (forall i, j | 0 <= i < BOARD_SIZE && i != rmId && 0 <= j < BOARD_SIZE ::
            r.adjRenId[op][i][j] == s.adjRenId[op][i][j])
      && (forall i, j | 0 <= i < BOARD_SIZE && 0 <= j < BOARD_SIZE ::
            r.adjRenId[my][i][j] == (j != rmId && s.adjRenId[my][i][j]))
  {
  }

  /** The liberty part of `RemoveStonesSpec`. */
  lemma RemoveStonesLiberty(s: MiniGoState, rmId: int, rmXy: int)
    requires WellFormed(s) && 0 <= rmId < BOARD_SIZE
    ensures var r := RemoveStones(s, rmId, rmXy);
      var my := MyColor(s);
      var op := OpponentColor(s);
      && (forall i, p | 0 <= i < BOARD_SIZE && 0 <= p < BOARD_SIZE ::
            r.liberty[my][i][p] ==
              (if s.liberty[my][i][p] > 0 && s.renIdBoard[op][p] == rmId then LIB_FREE else s.liberty[my][i][p]))
      && (forall p | 0 <= p < BOARD_SIZE :: r.liberty[op][rmId][p] == LIB_NONE)
      && (forall i, p | 0 <= i < BOARD_SIZE && i != rmId && 0 <= p < BOARD_SIZE ::
            r.liberty[op][i][p] == s.liberty[op][i][p])
  {
    RemoveStonesSpec(s, rmId, rmXy);
  }

  /** The adjacency part of `RemoveStonesSpec`. */
  lemma RemoveStonesAdjacency(s: MiniGoState, rmId: int, rmXy: int)
    requires WellFormed(s) && 0 <= rmId < BOARD_SIZE
    ensures var r := RemoveStones(s, rmId, rmXy);
      var my := MyColor(s);
      var op := OpponentColor(s);
      && (forall j | 0 <= j < BOARD_SIZE :: !r.adjRenId[op][rmId][j])
      && (forall i, j | 0 <= i < BOARD_SIZE && i != rmId && 0 <= j < BOARD_SIZE ::
            r.adjRenId[op][i][j] == s.adjRenId[op][i][j])
      && (forall i, j | 0 <= i < BOARD_SIZE && 0 <= j < BOARD_SIZE ::
            r.adjRenId[my][i][j] == (j != rmId && s.adjRenId[my][i][j]))
  {
    RemoveStonesSpec(s, rmId, rmXy);
  }

  /** The occupancy vector of one colour's plane. */
  function Occupied(plane: seq<int>): (o: seq<bool>)
    ensures |o| == |plane| && forall p | 0 <= p < |plane| :: o[p] == (plane[p] != NO_REN)
  {
    seq(|plane|, p requires 0 <= p < |plane| => plane[p] != NO_REN)
  }

  /** The number of stones of colour c on the board. */
  function Stones(s: MiniGoState, c: int): nat
    requires WellFormed(s) && 0 <= c < 2
  {
    CountNonzero(Occupied(s.renIdBoard[c]))
  }

  /** Stones on the board plus prisoners, over both colours. */
  function Total(s: MiniGoState): int
    requires WellFormed(s)
  {
    Stones(s, BLACK) + Stones(s, WHITE) + s.agehama[BLACK] + s.agehama[WHITE]
  }

  /** A capture moves exactly the removed stones from the board into the mover's prisoners. */
  lemma RemoveStonesConserves(s: MiniGoState, rmId: int, rmXy: int)
    requires WellFormed(s) && 0 <= rmId < BOARD_SIZE
    ensures var r := RemoveStones(s, rmId, rmXy);
      var removed := CountNonzero(Equals(s.renIdBoard[OpponentColor(s)], rmId));
      && Stones(r, OpponentColor(s)) == Stones(s, OpponentColor(s)) - removed
      && Stones(r, MyColor(s)) == Stones(s, MyColor(s))
      && Total(r) == Total(s)
  {
    var r := RemoveStones(s, rmId, rmXy);
    var op := OpponentColor(s);
    RemoveStonesSpec(s, rmId, rmXy);
    CountDisjointUnion(Occupied(s.renIdBoard[op]), Occupied(r.renIdBoard[op]), Equals(s.renIdBoard[op], rmId));
    if op == BLACK {
      assert r.renIdBoard[WHITE] == s.renIdBoard[WHITE];
    } else {
      assert r.renIdBoard[BLACK] == s.renIdBoard[BLACK];
    }
  }

  /**
   * Contact with an opposing group: both liberty rows mark the other's stone and
   * the adjacency is recorded both ways; the group is captured exactly when its
   * marked row has no liberty left, and then its stones leave the board, the
   * mover's prisoners grow by their number and the ko point is the contact point.
   */
  lemma ContactSpec(s: MiniGoState, xy: int, adjXy: int)
    requires WellFormed(s) && 0 <= xy < BOARD_SIZE && 0 <= adjXy < BOARD_SIZE
    requires s.renIdBoard[MyColor(s)][xy] != NO_REN && s.renIdBoard[OpponentColor(s)][adjXy] != NO_REN
    ensures var r := SetStoneNextToOppoRen(s, xy, adjXy);
      var my := MyColor(s);
      var op := OpponentColor(s);
      var oppoId := s.renIdBoard[op][adjXy];
      var myId := s.renIdBoard[my][xy];
      var captured := NoLiberty(s.liberty[op][oppoId][xy := LIB_STONE]);
      && (captured ==>
            && (forall p | 0 <= p < BOARD_SIZE ::
                  r.renIdBoard[op][p] == (if s.renIdBoard[op][p] == oppoId then NO_REN else s.renIdBoard[op][p]))
            && r.agehama[my] == s.agehama[my] + CountNonzero(Equals(s.renIdBoard[op], oppoId))
            && r.kou == adjXy
            && r.availableRenId[op][oppoId])
      && (!captured ==>
            && r.renIdBoard == s.renIdBoard && r.availableRenId == s.availableRenId
            && r.agehama == s.agehama && r.kou == s.kou
            && r.liberty[op][oppoId][xy] == LIB_STONE && r.liberty[my][myId][adjXy] == LIB_STONE
            && r.adjRenId[my][myId][oppoId] && r.adjRenId[op][oppoId][myId])
  {
    var my := MyColor(s);
    var op := OpponentColor(s);
    var oppoId := s.renIdBoard[op][adjXy];
    var myId := s.renIdBoard[my][xy];
    var t := MarkContact(s, xy, adjXy);
    assert t.liberty[op][oppoId] == s.liberty[op][oppoId][xy := LIB_STONE];
    if NoLiberty(t.liberty[op][oppoId]) {
      RemoveStonesSpec(t, oppoId, adjXy);
    }
  }
}

module GoInvariants {
  import opened Jax
  import opened GoBoard
  import opened GoRules
  import opened GoProperties

  /** Adjacency is recorded both ways: Black group i lists White group j iff j lists i. */
  predicate AdjacencySymmetric(s: MiniGoState)
    requires WellFormed(s)
  {
    forall i, j | 0 <= i < BOARD_SIZE && 0 <= j < BOARD_SIZE ::
      s.adjRenId[BLACK][i][j] == s.adjRenId[WHITE][j][i]
  }

  /** No point carries a group id in both colours' planes. */
  predicate Partitioned(s: MiniGoState)
    requires WellFormed(s)
  {
    forall p | 0 <= p < BOARD_SIZE :: s.renIdBoard[BLACK][p] == NO_REN || s.renIdBoard[WHITE][p] == NO_REN
  }

  /**
   * Every liberty entry is one of the three codes, and code 2 (adjacent opposing
   * stone) only stands where the other colour has a stone.
   */
  predicate LibertyCodesSound(s: MiniGoState)
    requires WellFormed(s)
  {
    forall c, i, p | 0 <= c < 2 && 0 <= i < BOARD_SIZE && 0 <= p < BOARD_SIZE ::
      && LIB_NONE <= s.liberty[c][i][p] <= LIB_STONE
      && (s.liberty[c][i][p] == LIB_STONE ==> s.renIdBoard[1 - c][p] != NO_REN)
  }

  /** The initial state satisfies all three invariants and holds no stone. */
  lemma InitInvariants()
    ensures AdjacencySymmetric(Init()) && Partitioned(Init()) && LibertyCodesSound(Init())
    ensures Total(Init()) == 0
  {
    var s := Init();
    assert Occupied(s.renIdBoard[BLACK]) == Fill(BOARD_SIZE, false);
    assert Occupied(s.renIdBoard[WHITE]) == Fill(BOARD_SIZE, false);
  }

  // ---------------------------------------------------------------- symmetry

  lemma MergeRenKeepsSymmetry(s: MiniGoState, xy: int, adjXy: int)
    requires WellFormed(s) && 0 <= xy < BOARD_SIZE && 0 <= adjXy < BOARD_SIZE
    requires s.renIdBoard[MyColor(s)][xy] != NO_REN && s.renIdBoard[MyColor(s)][adjXy] != NO_REN
    requires AdjacencySymmetric(s)
    ensures AdjacencySymmetric(MergeRen(s, xy, adjXy))
  {
    MergeRenSpec(s, xy, adjXy);
    var r := MergeRen(s, xy, adjXy);
    var my := MyColor(s);
    forall i, j | 0 <= i < BOARD_SIZE && 0 <= j < BOARD_SIZE
      ensures r.adjRenId[my][i][j] == r.adjRenId[1 - my][j][i]
    {
      assert s.adjRenId[my][i][j] == s.adjRenId[1 - my][j][i];
    }
  }

  lemma RemoveStonesKeepsSymmetry(s: MiniGoState, rmId: int, rmXy: int)
    requires WellFormed(s) && 0 <= rmId < BOARD_SIZE && AdjacencySymmetric(s)
    ensures AdjacencySymmetric(RemoveStones(s, rmId, rmXy))
  {
    RemoveStonesSpec(s, rmId, rmXy);
    var r := RemoveStones(s, rmId, rmXy);
    var my := MyColor(s);
    forall i, j | 0 <= i < BOARD_SIZE && 0 <= j < BOARD_SIZE
      ensures r.adjRenId[my][i][j] == r.adjRenId[1 - my][j][i]
    {
      assert s.adjRenId[my][i][j] == s.adjRenId[1 - my][j][i];
    }
  }

  lemma ContactKeepsSymmetry(s: MiniGoState, xy: int, adjXy: int)
    requires WellFormed(s) && 0 <= xy < BOARD_SIZE && 0 <= adjXy < BOARD_SIZE
    requires s.renIdBoard[MyColor(s)][xy] != NO_REN && s.renIdBoard[OpponentColor(s)][adjXy] != NO_REN
    requires AdjacencySymmetric(s)
    ensures AdjacencySymmetric(SetStoneNextToOppoRen(s, xy, adjXy))
  {
    var my := MyColor(s);
    var op := OpponentColor(s);
    var oppoId := s.renIdBoard[op][adjXy];
    var myId := s.renIdBoard[my][xy];
    var t := MarkContact(s, xy, adjXy);
    forall i, j | 0 <= i < BOARD_SIZE && 0 <= j < BOARD_SIZE
      ensures t.adjRenId[my][i][j] == t.adjRenId[op][j][i]
    {
      assert s.adjRenId[my][i][j] == s.adjRenId[op][j][i];
    }
    assert AdjacencySymmetric(t);
    if NoLiberty(t.liberty[op][oppoId]) {
      RemoveStonesKeepsSymmetry(t, oppoId, adjXy);
    }
  }

  lemma ProcessNeighbourKeepsSymmetry(s: MiniGoState, xy: int, d: int)
    requires WellFormed(s) && 0 <= xy < BOARD_SIZE && 0 <= d < 4
    requires s.renIdBoard[MyColor(s)][xy] != NO_REN && AdjacencySymmetric(s)
    ensures AdjacencySymmetric(ProcessNeighbour(s, xy, d))
  {
    var pos := NeighbourPos(xy, d);
    var adjXy := PosToXy(pos);
    if IsOffBoard(pos) {
    } else if s.renIdBoard[MyColor(s)][adjXy] != NO_REN {
      MergeRenKeepsSymmetry(s, xy, adjXy);
    } else if s.renIdBoard[OpponentColor(s)][adjXy] != NO_REN {
      ContactKeepsSymmetry(s, xy, adjXy);
    }
  }

  lemma {:induction false} NeighboursKeepSymmetry(s: MiniGoState, xy: int, k: int)
    requires WellFormed(s) && 0 <= xy < BOARD_SIZE && 0 <= k <= 4
    requires s.renIdBoard[MyColor(s)][xy] != NO_REN && AdjacencySymmetric(s)
    ensures AdjacencySymmetric(Neighbours(s, xy, k))
  {
    if k > 0 {
      NeighboursKeepSymmetry(s, xy, k - 1);
      ProcessNeighbourKeepsSymmetry(Neighbours(s, xy, k - 1), xy, k - 1);
    }
  }

  /** Every step, legal or not, keeps the adjacency tables symmetric. */
  lemma StepKeepsSymmetry(s: MiniGoState, action: int)
    requires WellFormed(s) && action < BOARD_SIZE && AdjacencySymmetric(s)
    ensures AdjacencySymmetric(Step(s, action).state)
  {
    if action >= 0 {
      var s1 := SetStone(s.(passed := false), action);
      NeighboursKeepSymmetry(s1, action, 4);
    }
  }

  // ---------------------------------------------------------------- partition

  lemma ProcessNeighbourKeepsPartition(s: MiniGoState, xy: int, d: int)
    requires WellFormed(s) && 0 <= xy < BOARD_SIZE && 0 <= d < 4
    requires s.renIdBoard[MyColor(s)][xy] != NO_REN && Partitioned(s)
    ensures Partitioned(ProcessNeighbour(s, xy, d))
    ensures forall p | 0 <= p < BOARD_SIZE && s.renIdBoard[OpponentColor(s)][p] == NO_REN ::
      ProcessNeighbour(s, xy, d).renIdBoard[OpponentColor(s)][p] == NO_REN
  {
    var pos := NeighbourPos(xy, d);
    var adjXy := PosToXy(pos);
    if IsOffBoard(pos) {
    } else if s.renIdBoard[MyColor(s)][adjXy] != NO_REN {
    } else if s.renIdBoard[OpponentColor(s)][adjXy] != NO_REN {
      ContactSpec(s, xy, adjXy);
    }
  }

  lemma {:induction false} NeighboursKeepPartition(s: MiniGoState, xy: int, k: int)
    requires WellFormed(s) && 0 <= xy < BOARD_SIZE && 0 <= k <= 4
    requires s.renIdBoard[MyColor(s)][xy] != NO_REN && Partitioned(s)
    ensures Partitioned(Neighbours(s, xy, k))
  {
    if k > 0 {
      NeighboursKeepPartition(s, xy, k - 1);
      ProcessNeighbourKeepsPartition(Neighbours(s, xy, k - 1), xy, k - 1);
    }
  }

  /** A placement on a point the opponent does not hold keeps every point in at most one plane. */
  lemma PlacementKeepsPartition(s: MiniGoState, xy: int)
    requires WellFormed(s) && 0 <= xy < BOARD_SIZE && Partitioned(s)
    requires s.renIdBoard[OpponentColor(s)][xy] == NO_REN
    ensures Partitioned(Step(s, xy).state)
  {
    var s1 := SetStone(s.(passed := false), xy);
    assert Partitioned(s1);
    NeighboursKeepPartition(s1, xy, 4);
  }

  /**
   * Every pass, and every placement on a point the opponent does not hold
   * (which includes every step that does not end the game), keeps the planes
   * disjoint.
   */
  lemma StepKeepsPartition(s: MiniGoState, action: int)
    requires WellFormed(s) && action < BOARD_SIZE && Partitioned(s)
    requires action >= 0 ==> s.renIdBoard[OpponentColor(s)][action] == NO_REN
    ensures Partitioned(Step(s, action).state)
  {
    if action >= 0 {
      PlacementKeepsPartition(s, action);
    }
  }

  // ---------------------------------------------------------------- ko point

  /** The ko point is unset, or a point neither colour holds. */
  predicate KouEmpty(s: MiniGoState)
    requires WellFormed(s)
  {
    s.kou == -1 || (0 <= s.kou < BOARD_SIZE && s.renIdBoard[BLACK][s.kou] == NO_REN && s.renIdBoard[WHITE][s.kou] == NO_REN)
  }

  /**
   * One pass of the neighbour loop keeps the mover's occupied points, never
   * adds an opposing stone, and either keeps the ko point or sets it to the
   * point a capture has just emptied.
   */
  lemma ProcessNeighbourKouEmpty(s: MiniGoState, xy: int, d: int)
    requires WellFormed(s) && 0 <= xy < BOARD_SIZE && 0 <= d < 4
    requires s.renIdBoard[MyColor(s)][xy] != NO_REN
    ensures var r := ProcessNeighbour(s, xy, d);
      && (forall p | 0 <= p < BOARD_SIZE ::
            (r.renIdBoard[MyColor(s)][p] == NO_REN) == (s.renIdBoard[MyColor(s)][p] == NO_REN))
      && (forall p | 0 <= p < BOARD_SIZE && s.renIdBoard[OpponentColor(s)][p] == NO_REN ::
            r.renIdBoard[OpponentColor(s)][p] == NO_REN)
      && (r.kou == s.kou || KouEmpty(r))
  {
    var pos := NeighbourPos(xy, d);
    var adjXy := PosToXy(pos);
    if IsOffBoard(pos) {
    } else if s.renIdBoard[MyColor(s)][adjXy] != NO_REN {
    } else if s.renIdBoard[OpponentColor(s)][adjXy] != NO_REN {
      ContactSpec(s, xy, adjXy);
    }
  }

  /** The whole neighbour loop, as `ProcessNeighbourKouEmpty` states it for one pass. */
  lemma {:induction false} NeighboursKouEmpty(s: MiniGoState, xy: int, k: int)
    requires WellFormed(s) && 0 <= xy < BOARD_SIZE && 0 <= k <= 4
    requires s.renIdBoard[MyColor(s)][xy] != NO_REN
    ensures var r := Neighbours(s, xy, k);
      && (forall p | 0 <= p < BOARD_SIZE ::
            (r.renIdBoard[MyColor(s)][p] == NO_REN) == (s.renIdBoard[MyColor(s)][p] == NO_REN))
      && (forall p | 0 <= p < BOARD_SIZE && s.renIdBoard[OpponentColor(s)][p] == NO_REN ::
            r.renIdBoard[OpponentColor(s)][p] == NO_REN)
      && (r.kou == s.kou || KouEmpty(r))
  {
    if k > 0 {
      var t := Neighbours(s, xy, k - 1);
      NeighboursKouEmpty(s, xy, k - 1);
      ProcessNeighbourKouEmpty(t, xy, k - 1);
    }
  }

  /**
   * After any step the ko point is unset or an empty point, except after the
   * illegal placement onto the ko point itself, which ends the game.
   */
  lemma StepKeepsKouEmpty(s: MiniGoState, action: int)
    requires WellFormed(s) && action < BOARD_SIZE && KouEmpty(s)
    ensures var res := Step(s, action);
      KouEmpty(res.state) || (res.state.kou == action && res.terminated)
  {
    if action >= 0 {
      var s2 := Neighbours(SetStone(s.(passed := false), action), action, 4);
      var r := Step(s, action).state;
      PlacementEnd(s, action);
      PlacementKouEmpty(s, action);
      assert r.renIdBoard == s2.renIdBoard && (r.kou == s2.kou || r.kou == -1);
    }
  }

  /**
   * After the neighbour loop of a placement the ko point is unset or empty,
   * unless the stone went onto the ko point and no capture moved it.
   */
  lemma PlacementKouEmpty(s: MiniGoState, xy: int)
    requires WellFormed(s) && 0 <= xy < BOARD_SIZE && KouEmpty(s)
    ensures var s2 := Neighbours(SetStone(s.(passed := false), xy), xy, 4);
      KouEmpty(s2) || (s2.kou == xy && xy == s.kou)
  {
    var s1 := SetStone(s.(passed := false), xy);
    var s2 := Neighbours(s1, xy, 4);
    NeighboursKouEmpty(s1, xy, 4);
    if s2.kou == s.kou && s.kou != -1 && s.kou != xy {
      var my := MyColor(s1);
      var op := OpponentColor(s1);
      assert s1.renIdBoard[my][s.kou] == NO_REN && s1.renIdBoard[op][s.kou] == NO_REN;
      assert s2.renIdBoard[my][s.kou] == NO_REN && s2.renIdBoard[op][s.kou] == NO_REN;
    }
  }

  /** How a placement ends: the planes the loop left, a kept or cleared ko point, and a lost game when illegal. */
  lemma PlacementEnd(s: MiniGoState, xy: int)
    requires WellFormed(s) && 0 <= xy < BOARD_SIZE
    ensures var s2 := Neighbours(SetStone(s.(passed := false), xy), xy, 4);
      var res := Step(s, xy);
      && res.state.renIdBoard == s2.renIdBoard
      && (res.state.kou == s2.kou || res.state.kou == -1)
      && (xy == s.kou ==> res.terminated)
  {
    assert IsIllegalMove(s.(passed := false), xy) == IsIllegalMove(s, xy);
  }

  // ---------------------------------------------------------------- liberty codes

  lemma MergeRenKeepsCodes(s: MiniGoState, xy: int, adjXy: int)
    requires WellFormed(s) && 0 <= xy < BOARD_SIZE && 0 <= adjXy < BOARD_SIZE
    requires s.renIdBoard[MyColor(s)][xy] != NO_REN && s.renIdBoard[MyColor(s)][adjXy] != NO_REN
    requires LibertyCodesSound(s)
    ensures LibertyCodesSound(MergeRen(s, xy, adjXy))
  {
    MergeRenSpec(s, xy, adjXy);
  }

  lemma RemoveStonesKeepsCodes(s: MiniGoState, rmId: int, rmXy: int)
    requires WellFormed(s) && 0 <= rmId < BOARD_SIZE && LibertyCodesSound(s)
    ensures LibertyCodesSound(RemoveStones(s, rmId, rmXy))
  {
    var r := RemoveStones(s, rmId, rmXy);
    var my := MyColor(s);
    RemoveStonesLiberty(s, rmId, rmXy);
    forall c, i, p | 0 <= c < 2 && 0 <= i < BOARD_SIZE && 0 <= p < BOARD_SIZE
      ensures LIB_NONE <= r.liberty[c][i][p] <= LIB_STONE
      ensures r.liberty[c][i][p] == LIB_STONE ==> r.renIdBoard[1 - c][p] != NO_REN
    {
      if c == my {
        assert r.renIdBoard[1 - c][p] ==
          (if s.renIdBoard[1 - c][p] == rmId then NO_REN else s.renIdBoard[1 - c][p]);
      } else {
        assert r.renIdBoard[1 - c] == s.renIdBoard[1 - c];
      }
    }
  }

  lemma ContactKeepsCodes(s: MiniGoState, xy: int, adjXy: int)
    requires WellFormed(s) && 0 <= xy < BOARD_SIZE && 0 <= adjXy < BOARD_SIZE
    requires s.renIdBoard[MyColor(s)][xy] != NO_REN && s.renIdBoard[OpponentColor(s)][adjXy] != NO_REN
    requires LibertyCodesSound(s)
    ensures LibertyCodesSound(SetStoneNextToOppoRen(s, xy, adjXy))
  {
    var my := MyColor(s);
    var op := OpponentColor(s);
    var oppoId := s.renIdBoard[op][adjXy];
    var myId := s.renIdBoard[my][xy];
    var t := MarkContact(s, xy, adjXy);
    assert LibertyCodesSound(t);
    if NoLiberty(t.liberty[op][oppoId]) {
      RemoveStonesKeepsCodes(t, oppoId, adjXy);
    }
  }

  lemma ProcessNeighbourKeepsCodes(s: MiniGoState, xy: int, d: int)
    requires WellFormed(s) && 0 <= xy < BOARD_SIZE && 0 <= d < 4
    requires s.renIdBoard[MyColor(s)][xy] != NO_REN && LibertyCodesSound(s)
    ensures LibertyCodesSound(ProcessNeighbour(s, xy, d))
  {
    var pos := NeighbourPos(xy, d);
    var adjXy := PosToXy(pos);
    if IsOffBoard(pos) {
    } else if s.renIdBoard[MyColor(s)][adjXy] != NO_REN {
      MergeRenKeepsCodes(s, xy, adjXy);
    } else if s.renIdBoard[OpponentColor(s)][adjXy] != NO_REN {
      ContactKeepsCodes(s, xy, adjXy);
    }
  }

  lemma {:induction false} NeighboursKeepCodes(s: MiniGoState, xy: int, k: int)
    requires WellFormed(s) && 0 <= xy < BOARD_SIZE && 0 <= k <= 4
    requires s.renIdBoard[MyColor(s)][xy] != NO_REN && LibertyCodesSound(s)
    ensures LibertyCodesSound(Neighbours(s, xy, k))
  {
    if k > 0 {
      NeighboursKeepCodes(s, xy, k - 1);
      ProcessNeighbourKeepsCodes(Neighbours(s, xy, k - 1), xy, k - 1);
    }
  }

  /** Every step, legal or not, keeps the liberty codes sound. */
  lemma StepKeepsCodes(s: MiniGoState, action: int)
    requires WellFormed(s) && action < BOARD_SIZE && LibertyCodesSound(s)
    ensures LibertyCodesSound(Step(s, action).state)
  {
    if action >= 0 {
      var s1 := SetStone(s.(passed := false), action);
      NeighboursKeepCodes(s1, action, 4);
    }
  }

  // ---------------------------------------------------------------- conservation

  lemma ProcessNeighbourConserves(s: MiniGoState, xy: int, d: int)
    requires WellFormed(s) && 0 <= xy < BOARD_SIZE && 0 <= d < 4
    requires s.renIdBoard[MyColor(s)][xy] != NO_REN
    ensures Total(ProcessNeighbour(s, xy, d)) == Total(s)
  {
    var r := ProcessNeighbour(s, xy, d);
    var my := MyColor(s);
    var pos := NeighbourPos(xy, d);
    var adjXy := PosToXy(pos);
    if IsOffBoard(pos) {
    } else if s.renIdBoard[my][adjXy] != NO_REN {
      assert Occupied(r.renIdBoard[my]) == Occupied(s.renIdBoard[my]);
      assert r.renIdBoard[1 - my] == s.renIdBoard[1 - my];
      if my == BLACK {
        assert Stones(r, BLACK) == Stones(s, BLACK) && Stones(r, WHITE) == Stones(s, WHITE);
      } else {
        assert Stones(r, BLACK) == Stones(s, BLACK) && Stones(r, WHITE) == Stones(s, WHITE);
      }
    } else if s.renIdBoard[OpponentColor(s)][adjXy] != NO_REN {
      var op := OpponentColor(s);
      var oppoId := s.renIdBoard[op][adjXy];
      var myId := s.renIdBoard[my][xy];
      var t := MarkContact(s, xy, adjXy);
      if NoLiberty(t.liberty[op][oppoId]) {
        RemoveStonesConserves(t, oppoId, adjXy);
      }
    }
  }

  lemma {:induction false} NeighboursConserve(s: MiniGoState, xy: int, k: int)
    requires WellFormed(s) && 0 <= xy < BOARD_SIZE && 0 <= k <= 4
    requires s.renIdBoard[MyColor(s)][xy] != NO_REN
    ensures Total(Neighbours(s, xy, k)) == Total(s)
  {
    if k > 0 {
      NeighboursConserve(s, xy, k - 1);
      ProcessNeighbourConserves(Neighbours(s, xy, k - 1), xy, k - 1);
    }
  }

  /**
   * Stones are conserved: a placement on a point the mover does not hold adds
   * exactly one stone to what is on the board or in the prisoners, whether the
   * move turns out legal or not; a placement on the mover's own stone, like a
   * pass, changes the total by nothing.
   */
  lemma StepConserves(s: MiniGoState, action: int)
    requires WellFormed(s) && action < BOARD_SIZE
    ensures Total(Step(s, action).state) ==
      Total(s) + (if action < 0 || s.renIdBoard[MyColor(s)][action] != NO_REN then 0 else 1)
  {
    if action >= 0 {
      var s0 := s.(passed := false);
      var my := MyColor(s);
      var s1 := SetStone(s0, action);
      CountSet(Occupied(s0.renIdBoard[my]), action);
      assert Occupied(s1.renIdBoard[my]) == Occupied(s0.renIdBoard[my])[action := true];
      assert s1.renIdBoard[1 - my] == s0.renIdBoard[1 - my];
      assert Total(s1) == Total(s) + (if s.renIdBoard[my][action] != NO_REN then 0 else 1);
      NeighboursConserve(s1, action, 4);
      PlacementBoards(s, action);
    }
  }

  /** A placement leaves the planes and the prisoners as the neighbour loop left them. */
  lemma PlacementBoards(s: MiniGoState, xy: int)
    requires WellFormed(s) && 0 <= xy < BOARD_SIZE
    ensures var s2 := Neighbours(SetStone(s.(passed := false), xy), xy, 4);
      var r := Step(s, xy).state;
      r.renIdBoard == s2.renIdBoard && r.agehama == s2.agehama
  {
  }

  // ---------------------------------------------------------------- legality

  /** The group holding `xy` has point `q` as a liberty. */
  predicate HasLibertyAt(s: MiniGoState, xy: int, q: int)
    requires WellFormed(s) && 0 <= xy < BOARD_SIZE && 0 <= q < BOARD_SIZE
    requires s.renIdBoard[MyColor(s)][xy] != NO_REN
  {
    s.liberty[MyColor(s)][s.renIdBoard[MyColor(s)][xy]][q] == LIB_FREE
  }

  /** An on-board neighbour of a point is a different point. */
  lemma NeighbourDiffers(xy: int, d: int)
    requires 0 <= xy < BOARD_SIZE && 0 <= d < 4 && IsOnBoard(NeighbourPos(xy, d))
    ensures 0 <= PosToXy(NeighbourPos(xy, d)) < BOARD_SIZE && PosToXy(NeighbourPos(xy, d)) != xy
  {
  }

  /**
   * One pass of the neighbour loop, seen from an empty point `q` next to `xy`:
   * `q` stays empty, the liberty codes stay sound, the pass that visits `q`
   * makes it a liberty of the group at `xy`, and once it is one it stays one.
   */
  lemma ProcessNeighbourKeepsLiberty(s: MiniGoState, xy: int, e: int, q: int)
    requires WellFormed(s) && 0 <= xy < BOARD_SIZE && 0 <= e < 4 && 0 <= q < BOARD_SIZE && q != xy
    requires s.renIdBoard[MyColor(s)][xy] != NO_REN && LibertyCodesSound(s)
    requires s.renIdBoard[BLACK][q] == NO_REN && s.renIdBoard[WHITE][q] == NO_REN
    ensures var r := ProcessNeighbour(s, xy, e);
      && r.renIdBoard[BLACK][q] == NO_REN && r.renIdBoard[WHITE][q] == NO_REN
      && LibertyCodesSound(r)
      && (HasLibertyAt(s, xy, q) ==> HasLibertyAt(r, xy, q))
      && (IsOnBoard(NeighbourPos(xy, e)) && PosToXy(NeighbourPos(xy, e)) == q ==> HasLibertyAt(r, xy, q))
  {
    ProcessNeighbourKeepsCodes(s, xy, e);
    var my := MyColor(s);
    var op := OpponentColor(s);
    var pos := NeighbourPos(xy, e);
    var adjXy := PosToXy(pos);
    if IsOffBoard(pos) {
    } else if s.renIdBoard[my][adjXy] != NO_REN {
      MergeRenSpec(s, xy, adjXy);
    } else if s.renIdBoard[op][adjXy] != NO_REN {
      var oppoId := s.renIdBoard[op][adjXy];
      var myId := s.renIdBoard[my][xy];
      var t := MarkContact(s, xy, adjXy);
      if NoLiberty(t.liberty[op][oppoId]) {
        RemoveStonesSpec(t, oppoId, adjXy);
      }
    }
  }

  lemma {:induction false} NeighboursKeepLiberty(s: MiniGoState, xy: int, d: int, q: int, k: int)
    requires WellFormed(s) && 0 <= xy < BOARD_SIZE && 0 <= d < 4 && 0 <= k <= 4
    requires IsOnBoard(NeighbourPos(xy, d)) && q == PosToXy(NeighbourPos(xy, d))
    requires s.renIdBoard[MyColor(s)][xy] != NO_REN && LibertyCodesSound(s)
    requires s.renIdBoard[BLACK][q] == NO_REN && s.renIdBoard[WHITE][q] == NO_REN
    ensures var r := Neighbours(s, xy, k);
      && r.renIdBoard[BLACK][q] == NO_REN && r.renIdBoard[WHITE][q] == NO_REN
      && LibertyCodesSound(r)
      && (d < k ==> HasLibertyAt(r, xy, q))
  {
    NeighbourDiffers(xy, d);
    if k > 0 {
      var a := Neighbours(s, xy, k - 1);
      NeighboursKeepLiberty(s, xy, d, q, k - 1);
      assert MyColor(a) == MyColor(s) && a.renIdBoard[MyColor(a)][xy] != NO_REN;
      ProcessNeighbourKeepsLiberty(a, xy, k - 1, q);
      assert Neighbours(s, xy, k) == ProcessNeighbour(a, xy, k - 1);
    }
  }

  /**
   * A placement on an empty point that is not the ko point, next to an empty
   * point, is legal: the game goes on, nobody is rewarded, and the turn passes.
   */
  lemma EmptyNeighbourMakesLegal(s: MiniGoState, xy: int, d: int)
    requires WellFormed(s) && LibertyCodesSound(s) && 0 <= xy < BOARD_SIZE && 0 <= d < 4
    requires s.renIdBoard[BLACK][xy] == NO_REN && s.renIdBoard[WHITE][xy] == NO_REN && xy != s.kou
    requires IsOnBoard(NeighbourPos(xy, d))
    requires var q := PosToXy(NeighbourPos(xy, d));
      0 <= q < BOARD_SIZE && s.renIdBoard[BLACK][q] == NO_REN && s.renIdBoard[WHITE][q] == NO_REN
    ensures !Step(s, xy).terminated
    ensures Step(s, xy).reward == [0, 0] && Step(s, xy).state.turn == s.turn + 1
  {
    var q := PosToXy(NeighbourPos(xy, d));
    NeighbourDiffers(xy, d);
    var s0 := s.(passed := false);
    var s1 := SetStone(s0, xy);
    assert LibertyCodesSound(s1);
    NeighboursKeepLiberty(s1, xy, d, q, 4);
    var s2 := Neighbours(s1, xy, 4);
    var my := MyColor(s);
    var row := s2.liberty[my][s2.renIdBoard[my][xy]];
    assert Equals(row, LIB_FREE)[q];
  }
}
