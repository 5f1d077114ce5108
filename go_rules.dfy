/**
 * Mini-Go move processing (pgx/mini_go.py, `step` and the helpers it calls),
 * as functions from a state to the next state. These are the specification the
 * in-place engine (module GoEngine) is proved against, and the functions the
 * lemmas of module GoProperties speak about.
 */
module GoRules {
  import opened Jax
  import opened GoBoard
  import GoTerritory

  /** What `step` returns: the next state, the reward pair (Black, White), the terminal flag. */
  datatype StepResult = StepResult(state: MiniGoState, reward: seq<int>, terminated: bool)

  /** `k.at[a, b, c].set(v)` on a colour-by-id-by-point table. */
  function Set3<T>(k: seq<seq<seq<T>>>, a: int, b: int, c: int, v: T): (r: seq<seq<seq<T>>>)
    requires Cube(k) && 0 <= a < 2 && 0 <= b < BOARD_SIZE && 0 <= c < BOARD_SIZE
    ensures Cube(r)
    ensures forall x, y, z | 0 <= x < 2 && 0 <= y < BOARD_SIZE && 0 <= z < BOARD_SIZE ::
      r[x][y][z] == if x == a && y == b && z == c then v else k[x][y][z]
  {
    k[a := k[a][b := k[a][b][c := v]]]
  }

  // ---------------------------------------------------------------- turn and pass

  /** `_add_turn`: only the turn counter moves. */
  function AddTurn(s: MiniGoState): (r: MiniGoState)
    ensures r.turn == s.turn + 1 && r == s.(turn := s.turn + 1)
  {
    s.(turn := s.turn + 1)
  }

  /** `_add_pass`: the turn counter moves and the pass flag is raised. */
  function AddPass(s: MiniGoState): (r: MiniGoState)
    ensures r == s.(turn := s.turn + 1, passed := true)
  {
    s.(turn := s.turn + 1, passed := true)
  }

  /**
   * `_pass_move`: after a pass the game ends and is scored; otherwise the pass is
   * recorded and play goes on.
   */
  function PassMove(s: MiniGoState): (res: StepResult)
    requires WellFormed(s)
  {
    if s.passed then StepResult(AddTurn(s), GoTerritory.GetReward(s), true)
    else StepResult(AddPass(s), [0, 0], false)
  }

  /** `_illegal_move`: the game ends, the mover gets -1 and the other player +1. */
  function IllegalMove(s: MiniGoState): (res: StepResult)
  {
    StepResult(AddTurn(s), [1, 1][s.turn % 2 := -1], true)
  }

  // ---------------------------------------------------------------- group maintenance

  /**
   * `_set_stone`: the mover's plane gets, at `xy`, the first free id of the
   * mover's colour (id 0 when none is free), and that id is marked taken.
   */
  function SetStone(s: MiniGoState, xy: int): (r: MiniGoState)
    requires WellFormed(s) && 0 <= xy < BOARD_SIZE
    ensures WellFormed(r)
    ensures r == s.(renIdBoard := r.renIdBoard, availableRenId := r.availableRenId)
    ensures r.renIdBoard[OpponentColor(s)] == s.renIdBoard[OpponentColor(s)]
    ensures r.availableRenId[OpponentColor(s)] == s.availableRenId[OpponentColor(s)]
    ensures var id := r.renIdBoard[MyColor(s)][xy];
      && 0 <= id < BOARD_SIZE
      && !r.availableRenId[MyColor(s)][id]
      && (forall j | 0 <= j < id :: !s.availableRenId[MyColor(s)][j])
      && ((exists j | 0 <= j < BOARD_SIZE :: s.availableRenId[MyColor(s)][j]) ==> s.availableRenId[MyColor(s)][id])
      && (forall p | 0 <= p < BOARD_SIZE && p != xy :: r.renIdBoard[MyColor(s)][p] == s.renIdBoard[MyColor(s)][p])
      && (forall j | 0 <= j < BOARD_SIZE && j != id :: r.availableRenId[MyColor(s)][j] == s.availableRenId[MyColor(s)][j])
  {
    var my := MyColor(s);
    var id := ArgMaxBool(s.availableRenId[my]);
    s.(renIdBoard := s.renIdBoard[my := s.renIdBoard[my][xy := id]],
       availableRenId := s.availableRenId[my := s.availableRenId[my][id := false]])
  }

  /** The surviving (smaller) and freed (larger) id when groups `a` and `b` merge. */
  function SmallLarge(a: int, b: int): (int, int)
  {
    if b < a then (b, a) else (a, b)
  }

  /**
   * `_merge_ren`: join the group at `xy` with the mover's group at `adjXy`.
   * Nothing changes when they already share an id; otherwise the larger id is
   * relabelled to the smaller one and freed, the smaller group's liberty row
   * becomes the maximum of both rows with `xy` cleared, the larger row is zeroed,
   * the mover's adjacency rows are joined, and opposing adjacency entries that
   * named the larger id are moved to the smaller one.
   */
  function MergeRen(s: MiniGoState, xy: int, adjXy: int): (r: MiniGoState)
    requires WellFormed(s) && 0 <= xy < BOARD_SIZE && 0 <= adjXy < BOARD_SIZE
    requires s.renIdBoard[MyColor(s)][xy] != NO_REN && s.renIdBoard[MyColor(s)][adjXy] != NO_REN
    ensures WellFormed(r)
    ensures r == s.(renIdBoard := r.renIdBoard, availableRenId := r.availableRenId,
                    liberty := r.liberty, adjRenId := r.adjRenId)
    ensures r.renIdBoard[OpponentColor(s)] == s.renIdBoard[OpponentColor(s)]
    ensures r.availableRenId[OpponentColor(s)] == s.availableRenId[OpponentColor(s)]
    ensures r.liberty[OpponentColor(s)] == s.liberty[OpponentColor(s)]
    ensures r.renIdBoard[MyColor(s)][xy] != NO_REN
    ensures forall p | 0 <= p < BOARD_SIZE ::
      (r.renIdBoard[MyColor(s)][p] == NO_REN <==> s.renIdBoard[MyColor(s)][p] == NO_REN)
  {
    var my := MyColor(s);
    var op := OpponentColor(s);
    var board := s.renIdBoard[my];
    var newId := board[xy];
    var adjId := board[adjXy];
    var (small, large) := SmallLarge(newId, adjId);
    if newId == adjId then s
    else
      var merged := seq(BOARD_SIZE, p requires 0 <= p < BOARD_SIZE =>
        if board[p] == large then small else board[p]);
      s.(renIdBoard := s.renIdBoard[my := merged],
         availableRenId := s.availableRenId[my := s.availableRenId[my][large := true]],
         liberty := s.liberty[my := MergeLibertyRows(s.liberty[my], xy, small, large)],
         adjRenId := s.adjRenId[my := JoinAdjacencyRows(s.adjRenId[my], small, large)]
                               [op := RelinkAdjacency(s.adjRenId[op], small, large)])
  }

  /** The mover's liberty rows after a merge: `xy` cleared in both, `small` the maximum of both, `large` zeroed. */
  function MergeLibertyRows(lib0: seq<seq<int>>, xy: int, small: int, large: int): (lib: seq<seq<int>>)
    requires |lib0| == BOARD_SIZE && forall i | 0 <= i < BOARD_SIZE :: |lib0[i]| == BOARD_SIZE
    requires 0 <= xy < BOARD_SIZE && 0 <= small < BOARD_SIZE && 0 <= large < BOARD_SIZE
    ensures |lib| == BOARD_SIZE && forall i | 0 <= i < BOARD_SIZE :: |lib[i]| == BOARD_SIZE
  {
    var lib1 := lib0[large := lib0[large][xy := LIB_NONE]];
    var lib2 := lib1[small := lib1[small][xy := LIB_NONE]];
    var lib3 := lib2[small := seq(BOARD_SIZE, p requires 0 <= p < BOARD_SIZE =>
      Max(lib2[small][p], lib2[large][p]))];
    lib3[large := Fill(BOARD_SIZE, LIB_NONE)]
  }

  /** The mover's adjacency rows after a merge: `large` joined into `small`, then cleared. */
  function JoinAdjacencyRows(adj0: seq<seq<bool>>, small: int, large: int): (adj: seq<seq<bool>>)
    requires |adj0| == BOARD_SIZE && forall i | 0 <= i < BOARD_SIZE :: |adj0[i]| == BOARD_SIZE
    requires 0 <= small < BOARD_SIZE && 0 <= large < BOARD_SIZE
    ensures |adj| == BOARD_SIZE && forall i | 0 <= i < BOARD_SIZE :: |adj[i]| == BOARD_SIZE
  {
    var adj1 := adj0[small := seq(BOARD_SIZE, j requires 0 <= j < BOARD_SIZE =>
      adj0[small][j] || adj0[large][j])];
    adj1[large := Fill(BOARD_SIZE, false)]
  }

  /** The opponent's adjacency rows after a merge: an entry naming `large` names `small` instead. */
  function RelinkAdjacency(adj0: seq<seq<bool>>, small: int, large: int): (adj: seq<seq<bool>>)
    requires |adj0| == BOARD_SIZE && forall i | 0 <= i < BOARD_SIZE :: |adj0[i]| == BOARD_SIZE
    requires 0 <= small < BOARD_SIZE && 0 <= large < BOARD_SIZE
    ensures |adj| == BOARD_SIZE && forall i | 0 <= i < BOARD_SIZE :: |adj[i]| == BOARD_SIZE
  {
    seq(BOARD_SIZE, o requires 0 <= o < BOARD_SIZE =>
      var a := adj0[o];
      if a[large] then a[large := false][small := true] else a)
  }

  /**
   * `_remove_stones`: take the opposing group `rmId` off the board. Its points
   * become empty, every mover liberty entry above zero on one of them becomes a
   * liberty, the id is freed and its rows cleared, the mover's adjacency entries
   * naming it are cleared, the mover's prisoner count grows by the number of
   * stones removed, and the ko point becomes `rmXy`.
   */
  function RemoveStones(s: MiniGoState, rmId: int, rmXy: int): (r: MiniGoState)
    requires WellFormed(s) && 0 <= rmId < BOARD_SIZE
    ensures WellFormed(r)
    ensures r == s.(renIdBoard := r.renIdBoard, availableRenId := r.availableRenId,
                    liberty := r.liberty, adjRenId := r.adjRenId, agehama := r.agehama, kou := rmXy)
    ensures r.renIdBoard[MyColor(s)] == s.renIdBoard[MyColor(s)]
    ensures r.availableRenId[MyColor(s)] == s.availableRenId[MyColor(s)]
    ensures forall p | 0 <= p < BOARD_SIZE ::
      r.renIdBoard[OpponentColor(s)][p] ==
        (if s.renIdBoard[OpponentColor(s)][p] == rmId then NO_REN else s.renIdBoard[OpponentColor(s)][p])
  {
    var my := MyColor(s);
    var op := OpponentColor(s);
    var surrounded := Equals(s.renIdBoard[op], rmId);
    var removed := CountNonzero(surrounded);
    var oppoBoard := seq(BOARD_SIZE, p requires 0 <= p < BOARD_SIZE =>
      if surrounded[p] then NO_REN else s.renIdBoard[op][p]);
    var myLib := seq(BOARD_SIZE, i requires 0 <= i < BOARD_SIZE =>
      seq(BOARD_SIZE, p requires 0 <= p < BOARD_SIZE =>
        if s.liberty[my][i][p] > 0 && surrounded[p] then LIB_FREE else s.liberty[my][i][p]));
    var lib1 := s.liberty[my := myLib];
    var lib2 := lib1[op := lib1[op][rmId := Fill(BOARD_SIZE, LIB_NONE)]];
    var adj1 := s.adjRenId[op := s.adjRenId[op][rmId := Fill(BOARD_SIZE, false)]];
    var adj2 := adj1[my := seq(BOARD_SIZE, i requires 0 <= i < BOARD_SIZE => adj1[my][i][rmId := false])];
    s.(renIdBoard := s.renIdBoard[op := oppoBoard],
       availableRenId := s.availableRenId[op := s.availableRenId[op][rmId := true]],
       liberty := lib2,
       adjRenId := adj2,
       agehama := s.agehama[my := s.agehama[my] + removed],
       kou := rmXy)
  }

  /** Whether a liberty row holds no entry equal to LIB_FREE (`count_nonzero(row == 1) == 0`). */
  predicate NoLiberty(row: seq<int>)
  {
    CountNonzero(Equals(row, LIB_FREE)) == 0
  }

  /**
   * The marking half of `_set_stone_next_to_oppo_ren`: each group's liberty row
   * marks the other's stone (code 2) and the adjacency is recorded both ways.
   */
  function MarkContact(s: MiniGoState, xy: int, adjXy: int): (t: MiniGoState)
    requires WellFormed(s) && 0 <= xy < BOARD_SIZE && 0 <= adjXy < BOARD_SIZE
    requires s.renIdBoard[MyColor(s)][xy] != NO_REN && s.renIdBoard[OpponentColor(s)][adjXy] != NO_REN
    ensures WellFormed(t) && t == s.(liberty := t.liberty, adjRenId := t.adjRenId)
  {
    var my := MyColor(s);
    var op := OpponentColor(s);
    var oppoId := s.renIdBoard[op][adjXy];
    var myId := s.renIdBoard[my][xy];
    s.(liberty := Set3(Set3(s.liberty, op, oppoId, xy, LIB_STONE), my, myId, adjXy, LIB_STONE),
       adjRenId := Set3(Set3(s.adjRenId, my, myId, oppoId, true), op, oppoId, myId, true))
  }

  /**
   * `_set_stone_next_to_oppo_ren`: the new stone at `xy` touches the opposing
   * group at `adjXy`. Each group's liberty row marks the other's stone (code 2),
   * the adjacency is recorded both ways, and the opposing group is captured when
   * no liberty (code 1) is left in its row.
   */
  function SetStoneNextToOppoRen(s: MiniGoState, xy: int, adjXy: int): (r: MiniGoState)
    requires WellFormed(s) && 0 <= xy < BOARD_SIZE && 0 <= adjXy < BOARD_SIZE
    requires s.renIdBoard[MyColor(s)][xy] != NO_REN && s.renIdBoard[OpponentColor(s)][adjXy] != NO_REN
    ensures WellFormed(r)
    ensures r.turn == s.turn && r.passed == s.passed
    ensures r.renIdBoard[MyColor(s)] == s.renIdBoard[MyColor(s)]
  {
    var my := MyColor(s);
    var op := OpponentColor(s);
    var oppoId := s.renIdBoard[op][adjXy];
    var myId := s.renIdBoard[my][xy];
    var t := MarkContact(s, xy, adjXy);
    if NoLiberty(t.liberty[op][oppoId]) then RemoveStones(t, oppoId, adjXy) else t
  }

  // ---------------------------------------------------------------- placement

  /**
   * One pass of the neighbour loop of `_not_pass_move`, for direction `d`:
   * nothing off the board; a merge with a friendly stone; contact with an
   * opposing stone; otherwise the empty neighbour becomes a liberty of the
   * group at `xy`.
   */
  function ProcessNeighbour(s: MiniGoState, xy: int, d: int): (r: MiniGoState)
    requires WellFormed(s) && 0 <= xy < BOARD_SIZE && 0 <= d < 4
    requires s.renIdBoard[MyColor(s)][xy] != NO_REN
    ensures WellFormed(r) && r.turn == s.turn && r.passed == s.passed
    ensures r.renIdBoard[MyColor(s)][xy] != NO_REN
  {
    var my := MyColor(s);
    var op := OpponentColor(s);
    var pos := NeighbourPos(xy, d);
    var adjXy := PosToXy(pos);
    if IsOffBoard(pos) then s
    else if s.renIdBoard[my][adjXy] != NO_REN then MergeRen(s, xy, adjXy)
    else if s.renIdBoard[op][adjXy] != NO_REN then SetStoneNextToOppoRen(s, xy, adjXy)
    else s.(liberty := Set3(s.liberty, my, s.renIdBoard[my][xy], adjXy, LIB_FREE))
  }

  /** The first `k` passes of the neighbour loop. */
  function Neighbours(s: MiniGoState, xy: int, k: int): (r: MiniGoState)
    requires WellFormed(s) && 0 <= xy < BOARD_SIZE && 0 <= k <= 4
    requires s.renIdBoard[MyColor(s)][xy] != NO_REN
    ensures WellFormed(r) && r.turn == s.turn && r.passed == s.passed
    ensures r.renIdBoard[MyColor(s)][xy] != NO_REN
  {
    if k == 0 then s else ProcessNeighbour(Neighbours(s, xy, k - 1), xy, k - 1)
  }

  /**
   * The bitwise `&` of a JAX boolean with an integer: the boolean is promoted to
   * 0 or 1, so the result is the integer's lowest bit when the boolean holds.
   */
  function BitAnd(b: bool, n: int): (r: int)
    ensures 0 <= r <= 1
  {
    if b then n % 2 else 0
  }

  /**
   * The ko test as the source writes it: `kou_occurred & agehama[mover] - agehama_before == 1`
   * groups as `(kou_occurred & (agehama[mover] - agehama_before)) == 1`, so only the
   * low bit of the difference is tested, and `agehama_before` is Black's count
   * before the move whoever moves.
   */
  predicate KeepKouAsWritten(kouOccurred: bool, agehamaMover: int, agehamaBlackBefore: int)
  {
    BitAnd(kouOccurred, agehamaMover - agehamaBlackBefore) == 1
  }

  /** The evident intent of the ko test: the point was surrounded and the mover captured exactly one stone. */
  predicate KeepKou(kouOccurred: bool, captured: int)
  {
    kouOccurred && captured == 1
  }

  /**
   * `_not_pass_move`. The stone is placed and the neighbours processed even when
   * the point is occupied or is the ko point; the move is illegal when it was,
   * or when the placed group's liberty row then holds no liberty. An illegal move
   * returns the state as mutated, one turn on, as a terminal loss for the mover.
   * The ko point is kept or cleared by the source's own test, `KeepKouAsWritten`.
   */
  function NotPassMove(s0: MiniGoState, xy: int): (res: StepResult)
    requires WellFormed(s0) && 0 <= xy < BOARD_SIZE
    ensures WellFormed(res.state)
  {
    var s := s0.(passed := false);
    var agehamaBefore := s.agehama[BLACK];
    var illegal := IsIllegalMove(s, xy);
    var kouOccurred := KouOccurred(s, xy);
    var s1 := SetStone(s, xy);
    var s2 := Neighbours(s1, xy, 4);
    var my := MyColor(s0);
    var suicide := NoLiberty(s2.liberty[my][s2.renIdBoard[my][xy]]);
    Conclude(s2, KeepKouAsWritten(kouOccurred, s2.agehama[my], agehamaBefore), suicide || illegal)
  }

  /** `NotPassMove` with the ko test the source evidently intends, `KeepKou`, in place of the written one. */
  function NotPassMoveIntended(s0: MiniGoState, xy: int): (res: StepResult)
    requires WellFormed(s0) && 0 <= xy < BOARD_SIZE
    ensures WellFormed(res.state)
  {
    var s := s0.(passed := false);
    var agehamaBefore := s.agehama[MyColor(s0)];
    var illegal := IsIllegalMove(s, xy);
    var kouOccurred := KouOccurred(s, xy);
    var s1 := SetStone(s, xy);
    var s2 := Neighbours(s1, xy, 4);
    var my := MyColor(s0);
    var suicide := NoLiberty(s2.liberty[my][s2.renIdBoard[my][xy]]);
    Conclude(s2, KeepKou(kouOccurred, s2.agehama[my] - agehamaBefore), suicide || illegal)
  }

  /**
   * The ending of `_not_pass_move`: the ko point survives only when `keepKou`
   * holds; an illegal move (or suicide) ends the game through `IllegalMove`,
   * any other advances the turn with reward [0, 0].
   */
  function Conclude(s2: MiniGoState, keepKou: bool, illegal: bool): (res: StepResult)
    requires WellFormed(s2)
    ensures WellFormed(res.state)
  {
    var s3 := s2.(kou := if keepKou then s2.kou else -1);
    if illegal then IllegalMove(s3) else StepResult(AddTurn(s3), [0, 0], false)
  }

  /** `step`: a negative action is a pass, any other a placement on that point. */
  function Step(s: MiniGoState, action: int): (res: StepResult)
    requires WellFormed(s) && action < BOARD_SIZE
    ensures WellFormed(res.state)
  {
    if action < 0 then PassMove(s) else NotPassMove(s, action)
  }

  /** `Step` with the intended ko test. */
  function StepIntended(s: MiniGoState, action: int): (res: StepResult)
    requires WellFormed(s) && action < BOARD_SIZE
    ensures WellFormed(res.state)
  {
    if action < 0 then PassMove(s) else NotPassMoveIntended(s, action)
  }
}
