/**
 * The Mini-Go engine of pgx/mini_go.py with its tables held in arrays that each
 * operation updates in place: a colour-by-point plane of group ids, a
 * colour-by-id table of free ids, colour-by-id-by-point liberty and
 * colour-by-id-by-id adjacency tables, and the prisoner counts. Every method is
 * proved to leave the engine in the state the matching function of module
 * GoRules computes from the state before the call.
 */
module GoEngine {
  import opened Jax
  import opened GoBoard
  import opened GoRules
  import opened GoProperties
  import GoJiSearch

  /** A prefix one longer is the shorter prefix and the next element. */
  lemma PrefixSnoc(a: seq<bool>, i: int)
    requires 0 <= i < |a|
    ensures a[..i + 1] == a[..i] + [a[i]]
  {
  }

  /** The arguments of a merge of two different groups, and the ids the merge computes from `v`. */
  ghost predicate MergeCase(v: MiniGoState, xy: int, adjXy: int, my: int, small: int, large: int)
  {
    && WellFormed(v) && 0 <= xy < BOARD_SIZE && 0 <= adjXy < BOARD_SIZE && my == MyColor(v)
    && v.renIdBoard[my][xy] != NO_REN && v.renIdBoard[my][adjXy] != NO_REN
    && v.renIdBoard[my][xy] != v.renIdBoard[my][adjXy]
    && (small, large) == SmallLarge(v.renIdBoard[my][xy], v.renIdBoard[my][adjXy])
  }

  /** The arguments of a capture of group `rmId`, and the captured points `_remove_stones` computes from `v`. */
  ghost predicate RemoveCase(v: MiniGoState, rmId: int, my: int, surrounded: seq<bool>)
  {
    && WellFormed(v) && 0 <= rmId < BOARD_SIZE && my == MyColor(v)
    && surrounded == Equals(v.renIdBoard[1 - my], rmId)
  }

  class Engine {
    const renIdBoard: array2<int>
    const availableRenId: array2<bool>
    const liberty: array3<int>
    const adjRenId: array3<bool>
    const agehama: array<int>
    var turn: int
    var passed: bool
    var kou: int

    /** The dimensions the source allocates. */
    ghost predicate Shaped()
    {
      && renIdBoard.Length0 == 2 && renIdBoard.Length1 == BOARD_SIZE
      && availableRenId.Length0 == 2 && availableRenId.Length1 == BOARD_SIZE
      && liberty.Length0 == 2 && liberty.Length1 == BOARD_SIZE && liberty.Length2 == BOARD_SIZE
      && adjRenId.Length0 == 2 && adjRenId.Length1 == BOARD_SIZE && adjRenId.Length2 == BOARD_SIZE
      && agehama.Length == 2
    }

    /** The dimensions, and every plane entry NO_REN or an id. */
    ghost predicate Valid()
      reads renIdBoard
    {
      && Shaped()
      && forall c, p | 0 <= c < 2 && 0 <= p < BOARD_SIZE :: NO_REN <= renIdBoard[c, p] < BOARD_SIZE
    }

    /** The state the arrays and fields hold. */
    function Value(): (v: MiniGoState)
      reads this, renIdBoard, availableRenId, liberty, adjRenId, agehama
      requires Valid()
      ensures WellFormed(v)
      ensures HoldsRen(v.renIdBoard) && HoldsAvailable(v.availableRenId)
      ensures HoldsLiberty(v.liberty) && HoldsAdjacency(v.adjRenId)
      ensures v.agehama == agehama[..] && v.turn == turn && v.passed == passed && v.kou == kou
    {
      MiniGoState(
        seq(2, c requires 0 <= c < 2 reads renIdBoard =>
          seq(BOARD_SIZE, p requires 0 <= p < BOARD_SIZE reads renIdBoard => renIdBoard[c, p])),
        seq(2, c requires 0 <= c < 2 reads availableRenId =>
          seq(BOARD_SIZE, i requires 0 <= i < BOARD_SIZE reads availableRenId => availableRenId[c, i])),
        seq(2, c requires 0 <= c < 2 reads liberty =>
          seq(BOARD_SIZE, i requires 0 <= i < BOARD_SIZE reads liberty =>
            seq(BOARD_SIZE, p requires 0 <= p < BOARD_SIZE reads liberty => liberty[c, i, p]))),
        seq(2, c requires 0 <= c < 2 reads adjRenId =>
          seq(BOARD_SIZE, i requires 0 <= i < BOARD_SIZE reads adjRenId =>
            seq(BOARD_SIZE, j requires 0 <= j < BOARD_SIZE reads adjRenId => adjRenId[c, i, j]))),
        turn, agehama[..], passed, kou)
    }

    /** The group-id plane holds `g`. */
    ghost predicate HoldsRen(g: seq<seq<int>>)
      reads renIdBoard
      requires Shaped() && Grid(g)
    {
      forall c, p | 0 <= c < 2 && 0 <= p < BOARD_SIZE :: renIdBoard[c, p] == g[c][p]
    }

    /** The free-id table holds `g`. */
    ghost predicate HoldsAvailable(g: seq<seq<bool>>)
      reads availableRenId
      requires Shaped() && Grid(g)
    {
      forall c, i | 0 <= c < 2 && 0 <= i < BOARD_SIZE :: availableRenId[c, i] == g[c][i]
    }

    /** The liberty table holds `k`. */
    ghost predicate HoldsLiberty(k: seq<seq<seq<int>>>)
      reads liberty
      requires Shaped() && Cube(k)
    {
      forall c, i, p | 0 <= c < 2 && 0 <= i < BOARD_SIZE && 0 <= p < BOARD_SIZE :: liberty[c, i, p] == k[c][i][p]
    }

    /** The adjacency table holds `k`. */
    ghost predicate HoldsAdjacency(k: seq<seq<seq<bool>>>)
      reads adjRenId
      requires Shaped() && Cube(k)
    {
      forall c, i, j | 0 <= c < 2 && 0 <= i < BOARD_SIZE && 0 <= j < BOARD_SIZE :: adjRenId[c, i, j] == k[c][i][j]
    }

    /** The arrays and fields hold `v` when they agree with it cell by cell. */
    lemma ValueIs(v: MiniGoState)
      requires Valid() && WellFormed(v)
      requires HoldsRen(v.renIdBoard) && HoldsAvailable(v.availableRenId)
      requires HoldsLiberty(v.liberty) && HoldsAdjacency(v.adjRenId)
      requires agehama[..] == v.agehama && turn == v.turn && passed == v.passed && kou == v.kou
      ensures Value() == v
    {
      var w := Value();
      assert w.renIdBoard == v.renIdBoard by {
        forall c | 0 <= c < 2 ensures w.renIdBoard[c] == v.renIdBoard[c] { }
      }
      assert w.availableRenId == v.availableRenId by {
        forall c | 0 <= c < 2 ensures w.availableRenId[c] == v.availableRenId[c] { }
      }
      assert w.liberty == v.liberty by {
        forall c | 0 <= c < 2 ensures w.liberty[c] == v.liberty[c] {
          forall i | 0 <= i < BOARD_SIZE ensures w.liberty[c][i] == v.liberty[c][i] { }
        }
      }
      assert w.adjRenId == v.adjRenId by {
        forall c | 0 <= c < 2 ensures w.adjRenId[c] == v.adjRenId[c] {
          forall i | 0 <= i < BOARD_SIZE ensures w.adjRenId[c][i] == v.adjRenId[c][i] { }
        }
      }
    }

    /** `init`: empty planes, every id free, zero tables, no ko. */
    constructor Init()
      ensures Valid() && Value() == GoBoard.Init()
      ensures fresh(renIdBoard) && fresh(availableRenId) && fresh(liberty) && fresh(adjRenId) && fresh(agehama)
    {
      renIdBoard := new int[2, BOARD_SIZE]((c, p) => NO_REN);
      availableRenId := new bool[2, BOARD_SIZE]((c, i) => true);
      liberty := new int[2, BOARD_SIZE, BOARD_SIZE]((c, i, p) => LIB_NONE);
      adjRenId := new bool[2, BOARD_SIZE, BOARD_SIZE]((c, i, j) => false);
      agehama := new int[2](c => 0);
      turn := 0;
      passed := false;
      kou := -1;
      new;
      ValueIs(GoBoard.Init());
    }

    /** A copy with arrays of its own, so a trial move cannot touch the original. */
    constructor Copy(other: Engine)
      requires other.Valid()
      ensures Valid() && Value() == other.Value()
      ensures fresh(renIdBoard) && fresh(availableRenId) && fresh(liberty) && fresh(adjRenId) && fresh(agehama)
    {
      ghost var w := other.Value();
      renIdBoard := new int[2, BOARD_SIZE];
      availableRenId := new bool[2, BOARD_SIZE];
      liberty := new int[2, BOARD_SIZE, BOARD_SIZE];
      adjRenId := new bool[2, BOARD_SIZE, BOARD_SIZE];
      agehama := new int[2];
      turn := other.turn;
      passed := other.passed;
      kou := other.kou;
      new;
      CopyTables(other, w);
      ValueIs(w);
    }

    /** Copies every table of `other` into this engine's own arrays. */
    method CopyTables(other: Engine, ghost w: MiniGoState)
      requires Shaped() && other.Valid() && WellFormed(w)
      requires other.HoldsRen(w.renIdBoard) && other.HoldsAvailable(w.availableRenId)
      requires other.HoldsLiberty(w.liberty) && other.HoldsAdjacency(w.adjRenId) && other.agehama[..] == w.agehama
      requires agehama != other.agehama
      modifies renIdBoard, availableRenId, liberty, adjRenId, agehama
      ensures Valid()
      ensures HoldsRen(w.renIdBoard) && HoldsAvailable(w.availableRenId)
      ensures HoldsLiberty(w.liberty) && HoldsAdjacency(w.adjRenId) && agehama[..] == w.agehama
    {
      CopyRen(other, w.renIdBoard);
      CopyAvailable(other, w.availableRenId);
      CopyLiberty(other, w.liberty);
      CopyAdjacency(other, w.adjRenId);
      agehama[0] := other.agehama[0];
      agehama[1] := other.agehama[1];
      assert agehama[..] == w.agehama;
    }

    /** Copies the group-id plane of `other`. */
    method CopyRen(other: Engine, ghost g: seq<seq<int>>)
      requires Shaped() && other.Valid() && Grid(g) && other.HoldsRen(g)
      modifies renIdBoard
      ensures Valid() && HoldsRen(g)
    {
      forall c, p | 0 <= c < 2 && 0 <= p < BOARD_SIZE {
        renIdBoard[c, p] := other.renIdBoard[c, p];
      }
    }

    /** Copies the free-id table of `other`. */
    method CopyAvailable(other: Engine, ghost g: seq<seq<bool>>)
      requires Shaped() && other.Shaped() && Grid(g) && other.HoldsAvailable(g)
      modifies availableRenId
      ensures HoldsAvailable(g)
    {
      forall c, i | 0 <= c < 2 && 0 <= i < BOARD_SIZE {
        availableRenId[c, i] := other.availableRenId[c, i];
      }
    }

    /** Copies the liberty table of `other`. */
    method CopyLiberty(other: Engine, ghost k: seq<seq<seq<int>>>)
      requires Shaped() && other.Shaped() && Cube(k) && other.HoldsLiberty(k)
      modifies liberty
      ensures HoldsLiberty(k)
    {
      forall c, i, p | 0 <= c < 2 && 0 <= i < BOARD_SIZE && 0 <= p < BOARD_SIZE {
        liberty[c, i, p] := other.liberty[c, i, p];
      }
    }

    /** Copies the adjacency table of `other`. */
    method CopyAdjacency(other: Engine, ghost k: seq<seq<seq<bool>>>)
      requires Shaped() && other.Shaped() && Cube(k) && other.HoldsAdjacency(k)
      modifies adjRenId
      ensures HoldsAdjacency(k)
    {
      forall c, i, j | 0 <= c < 2 && 0 <= i < BOARD_SIZE && 0 <= j < BOARD_SIZE {
        adjRenId[c, i, j] := other.adjRenId[c, i, j];
      }
    }

    /** The free-id row of colour `c`. */
    function AvailableRow(c: int): (row: seq<bool>)
      reads this, renIdBoard, availableRenId, liberty, adjRenId, agehama
      requires Valid() && 0 <= c < 2
      ensures row == Value().availableRenId[c]
    {
      seq(BOARD_SIZE, i requires 0 <= i < BOARD_SIZE reads availableRenId => availableRenId[c, i])
    }

    /** The liberty row of group `i` of colour `c`. */
    function LibertyRow(c: int, i: int): (row: seq<int>)
      reads this, renIdBoard, availableRenId, liberty, adjRenId, agehama
      requires Valid() && 0 <= c < 2 && 0 <= i < BOARD_SIZE
      ensures row == Value().liberty[c][i]
    {
      seq(BOARD_SIZE, p requires 0 <= p < BOARD_SIZE reads liberty => liberty[c, i, p])
    }

    /** The group-id plane of colour `c`. */
    function RenRow(c: int): (row: seq<int>)
      reads this, renIdBoard, availableRenId, liberty, adjRenId, agehama
      requires Valid() && 0 <= c < 2
      ensures row == Value().renIdBoard[c]
    {
      seq(BOARD_SIZE, p requires 0 <= p < BOARD_SIZE reads renIdBoard => renIdBoard[c, p])
    }

    /** `_set_stone`, in place. */
    method SetStone(xy: int)
      requires Valid() && 0 <= xy < BOARD_SIZE
      modifies renIdBoard, availableRenId
      ensures Valid() && Value() == GoRules.SetStone(old(Value()), xy)
    {
      ghost var v := Value();
      var my := turn % 2;
      var nextRenId := ArgMaxBool(AvailableRow(my));
      renIdBoard[my, xy] := nextRenId;
      availableRenId[my, nextRenId] := false;
      ValueIs(GoRules.SetStone(v, xy));
    }
 
    /** The relabelling step of `_merge_ren`: every `large` entry of the mover's plane becomes `small`. */
    method RelabelRen(ghost v: MiniGoState, xy: int, adjXy: int, my: int, small: int, large: int)
      requires Valid() && MergeCase(v, xy, adjXy, my, small, large) && HoldsRen(v.renIdBoard)
      modifies renIdBoard
      ensures Valid() && HoldsRen(GoRules.MergeRen(v, xy, adjXy).renIdBoard)
    {
      forall p | 0 <= p < BOARD_SIZE && renIdBoard[my, p] == large {
        renIdBoard[my, p] := small;
      }
      MergeRenSpec(v, xy, adjXy);
    }

    /** The liberty step of `_merge_ren`: the small row takes the maximum of both, `xy` cleared; the large row is zeroed. */
    method MergeLiberty(ghost v: MiniGoState, xy: int, adjXy: int, my: int, small: int, large: int)
      requires Shaped() && MergeCase(v, xy, adjXy, my, small, large) && HoldsLiberty(v.liberty)
      modifies liberty
      ensures HoldsLiberty(GoRules.MergeRen(v, xy, adjXy).liberty)
    {
      liberty[my, large, xy] := LIB_NONE;
      liberty[my, small, xy] := LIB_NONE;
      forall p | 0 <= p < BOARD_SIZE {
        liberty[my, small, p] := Max(liberty[my, small, p], liberty[my, large, p]);
      }
      forall p | 0 <= p < BOARD_SIZE {
        liberty[my, large, p] := LIB_NONE;
      }
      MergeRenLiberty(v, xy, adjXy, small, large);
    }

    /** Opposing rows that named `large` name `small` instead, and no longer name `large`. */
    method RelinkOpponentRows(op: int, small: int, large: int)
      requires Shaped() && 0 <= op < 2 && 0 <= small < BOARD_SIZE && 0 <= large < BOARD_SIZE && small != large
      modifies adjRenId
      ensures forall c, i, j | 0 <= c < 2 && 0 <= i < BOARD_SIZE && 0 <= j < BOARD_SIZE ::
        adjRenId[c, i, j] ==
          if c != op then old(adjRenId[c, i, j])
          else if j == large then false
          else if j == small then old(adjRenId[c, i, small]) || old(adjRenId[c, i, large])
          else old(adjRenId[c, i, j])
    {
      forall o | 0 <= o < BOARD_SIZE && adjRenId[op, o, large] {
        adjRenId[op, o, small] := true;
      }
      forall o | 0 <= o < BOARD_SIZE {
        adjRenId[op, o, large] := false;
      }
    }

    /** The mover's `large` row is joined into its `small` row and then cleared. */
    method JoinMoverRows(my: int, small: int, large: int)
      requires Shaped() && 0 <= my < 2 && 0 <= small < BOARD_SIZE && 0 <= large < BOARD_SIZE && small != large
      modifies adjRenId
      ensures forall c, i, j | 0 <= c < 2 && 0 <= i < BOARD_SIZE && 0 <= j < BOARD_SIZE ::
        adjRenId[c, i, j] ==
          if c != my then old(adjRenId[c, i, j])
          else if i == small then old(adjRenId[c, small, j]) || old(adjRenId[c, large, j])
          else if i == large then false
          else old(adjRenId[c, i, j])
    {
      forall j | 0 <= j < BOARD_SIZE {
        adjRenId[my, small, j] := adjRenId[my, small, j] || adjRenId[my, large, j];
      }
      forall j | 0 <= j < BOARD_SIZE {
        adjRenId[my, large, j] := false;
      }
    }

    /**
     * The adjacency step of `_merge_ren`: opposing rows that named `large` name
     * `small` instead, and the mover's `large` row is joined into its `small` row.
     */
    method MergeAdjacency(ghost v: MiniGoState, xy: int, adjXy: int, my: int, small: int, large: int)
      requires Shaped() && MergeCase(v, xy, adjXy, my, small, large) && HoldsAdjacency(v.adjRenId)
      modifies adjRenId
      ensures HoldsAdjacency(GoRules.MergeRen(v, xy, adjXy).adjRenId)
    {
      RelinkOpponentRows(1 - my, small, large);
      JoinMoverRows(my, small, large);
      ghost var m := GoRules.MergeRen(v, xy, adjXy);
      MergeRenAdjacency(v, xy, adjXy, small, large);
      forall c, i, j | 0 <= c < 2 && 0 <= i < BOARD_SIZE && 0 <= j < BOARD_SIZE
        ensures adjRenId[c, i, j] == m.adjRenId[c][i][j]
      {
        if c == my {
          assert m.adjRenId[my][i][j] ==
            if i == small then v.adjRenId[my][small][j] || v.adjRenId[my][large][j]
            else if i == large then false
            else v.adjRenId[my][i][j];
        } else {
          assert m.adjRenId[c][i][j] ==
            if j == large then false
            else if j == small then v.adjRenId[c][i][small] || v.adjRenId[c][i][large]
            else v.adjRenId[c][i][j];
        }
      }
    }

    /** `_merge_ren`, in place. */
    method MergeRen(xy: int, adjXy: int)
      requires Valid() && 0 <= xy < BOARD_SIZE && 0 <= adjXy < BOARD_SIZE
      requires renIdBoard[turn % 2, xy] != NO_REN && renIdBoard[turn % 2, adjXy] != NO_REN
      modifies renIdBoard, availableRenId, liberty, adjRenId
      ensures Valid() && Value() == GoRules.MergeRen(old(Value()), xy, adjXy)
    {
      ghost var v := Value();
      var my := turn % 2;
      var newId := renIdBoard[my, xy];
      var adjId := renIdBoard[my, adjXy];
      var (small, large) := SmallLarge(newId, adjId);
      if newId != adjId {
        MergeGroups(v, xy, adjXy, my, small, large);
        ValueIs(GoRules.MergeRen(v, xy, adjXy));
      }
    }

    /** The table updates of `_merge_ren` for two different groups. */
    method MergeGroups(ghost v: MiniGoState, xy: int, adjXy: int, my: int, small: int, large: int)
      requires Valid() && MergeCase(v, xy, adjXy, my, small, large)
      requires HoldsRen(v.renIdBoard) && HoldsAvailable(v.availableRenId)
      requires HoldsLiberty(v.liberty) && HoldsAdjacency(v.adjRenId)
      modifies renIdBoard, availableRenId, liberty, adjRenId
      ensures Valid()
      ensures var m := GoRules.MergeRen(v, xy, adjXy);
        && HoldsRen(m.renIdBoard) && HoldsAvailable(m.availableRenId)
        && HoldsLiberty(m.liberty) && HoldsAdjacency(m.adjRenId)
    {
      RelabelRen(v, xy, adjXy, my, small, large);
      MergeLiberty(v, xy, adjXy, my, small, large);
      MergeAdjacency(v, xy, adjXy, my, small, large);
      availableRenId[my, large] := true;
      MergeRenSpec(v, xy, adjXy);
    }
 
    /** The plane step of `_remove_stones`: the captured points of the opposing plane become empty. */
    method RemoveFromPlane(ghost v: MiniGoState, rmId: int, rmXy: int, my: int, surrounded: seq<bool>)
      requires Valid() && RemoveCase(v, rmId, my, surrounded) && HoldsRen(v.renIdBoard)
      modifies renIdBoard
      ensures Valid() && HoldsRen(GoRules.RemoveStones(v, rmId, rmXy).renIdBoard)
    {
      var op := 1 - my;
      forall p | 0 <= p < BOARD_SIZE && surrounded[p] {
        renIdBoard[op, p] := NO_REN;
      }
    }

    /** The first liberty step of `_remove_stones`: mover entries above zero on a captured point become liberties. */
    method FreeLiberties(my: int, surrounded: seq<bool>)
      requires Shaped() && 0 <= my < 2 && |surrounded| == BOARD_SIZE
      modifies liberty
      ensures forall c, i, p | 0 <= c < 2 && 0 <= i < BOARD_SIZE && 0 <= p < BOARD_SIZE ::
        liberty[c, i, p] ==
          if c == my && old(liberty[c, i, p]) > 0 && surrounded[p] then LIB_FREE else old(liberty[c, i, p])
    {
      forall i, p | 0 <= i < BOARD_SIZE && 0 <= p < BOARD_SIZE && liberty[my, i, p] > 0 && surrounded[p] {
        liberty[my, i, p] := LIB_FREE;
      }
    }

    /**
     * The liberty step of `_remove_stones`: mover entries above zero on a
     * captured point become liberties, and the captured group's row is cleared.
     */
    method RemoveLiberty(ghost v: MiniGoState, rmId: int, rmXy: int, my: int, surrounded: seq<bool>)
      requires Shaped() && RemoveCase(v, rmId, my, surrounded) && HoldsLiberty(v.liberty)
      modifies liberty
      ensures HoldsLiberty(GoRules.RemoveStones(v, rmId, rmXy).liberty)
    {
      FreeLiberties(my, surrounded);
      var op := 1 - my;
      forall p | 0 <= p < BOARD_SIZE {
        liberty[op, rmId, p] := LIB_NONE;
      }
      RemoveStonesLiberty(v, rmId, rmXy);
    }

    /** The adjacency step of `_remove_stones`: the captured group's row and the mover's entries naming it are cleared. */
    method RemoveAdjacency(ghost v: MiniGoState, rmId: int, rmXy: int, my: int, surrounded: seq<bool>)
      requires Shaped() && RemoveCase(v, rmId, my, surrounded) && HoldsAdjacency(v.adjRenId)
      modifies adjRenId
      ensures HoldsAdjacency(GoRules.RemoveStones(v, rmId, rmXy).adjRenId)
    {
      var op := 1 - my;
      forall j | 0 <= j < BOARD_SIZE {
        adjRenId[op, rmId, j] := false;
      }
      forall i | 0 <= i < BOARD_SIZE {
        adjRenId[my, i, rmId] := false;
      }
      RemoveStonesAdjacency(v, rmId, rmXy);
    }

    /** The table updates of `_remove_stones`. */
    method RemoveTables(ghost v: MiniGoState, rmId: int, rmXy: int, my: int, surrounded: seq<bool>)
      requires Valid() && RemoveCase(v, rmId, my, surrounded)
      requires HoldsRen(v.renIdBoard) && HoldsAvailable(v.availableRenId)
      requires HoldsLiberty(v.liberty) && HoldsAdjacency(v.adjRenId)
      modifies renIdBoard, availableRenId, liberty, adjRenId
      ensures Valid()
      ensures var m := GoRules.RemoveStones(v, rmId, rmXy);
        && HoldsRen(m.renIdBoard) && HoldsAvailable(m.availableRenId)
        && HoldsLiberty(m.liberty) && HoldsAdjacency(m.adjRenId)
    {
      RemoveFromPlane(v, rmId, rmXy, my, surrounded);
      RemoveLiberty(v, rmId, rmXy, my, surrounded);
      var op := 1 - my;
      availableRenId[op, rmId] := true;
      RemoveAdjacency(v, rmId, rmXy, my, surrounded);
      RemoveStonesSpec(v, rmId, rmXy);
    }

    /** The prisoner count of `_remove_stones`: the mover's count grows by `removed`. */
    method AddPrisoners(my: int, removed: int)
      requires agehama.Length == 2 && 0 <= my < 2
      modifies agehama
      ensures agehama[my] == old(agehama[my]) + removed && agehama[1 - my] == old(agehama[1 - my])
    {
      agehama[my] := agehama[my] + removed;
    }

    /** The arrays hold the state `_remove_stones` computes from `v` once the tables, the ko point and the count are written. */
    lemma RemovedValue(v: MiniGoState, rmId: int, rmXy: int, my: int, removed: int)
      requires Valid() && WellFormed(v) && 0 <= rmId < BOARD_SIZE && my == MyColor(v)
      requires removed == CountNonzero(Equals(v.renIdBoard[1 - my], rmId))
      requires var m := GoRules.RemoveStones(v, rmId, rmXy);
        && HoldsRen(m.renIdBoard) && HoldsAvailable(m.availableRenId)
        && HoldsLiberty(m.liberty) && HoldsAdjacency(m.adjRenId)
      requires agehama[my] == v.agehama[my] + removed && agehama[1 - my] == v.agehama[1 - my]
      requires turn == v.turn && passed == v.passed && kou == rmXy
      ensures Value() == GoRules.RemoveStones(v, rmId, rmXy)
    {
      ghost var m := GoRules.RemoveStones(v, rmId, rmXy);
      RemoveStonesSpec(v, rmId, rmXy);
      assert agehama[..] == m.agehama;
      ValueIs(m);
    }

    /** `_remove_stones`, in place. */
    method RemoveStones(rmId: int, rmXy: int)
      requires Valid() && 0 <= rmId < BOARD_SIZE
      modifies this, renIdBoard, availableRenId, liberty, adjRenId, agehama
      ensures Valid() && Value() == GoRules.RemoveStones(old(Value()), rmId, rmXy)
    {
      ghost var v := Value();
      var my := turn % 2;
      var surrounded := Equals(RenRow(1 - my), rmId);
      assert my == MyColor(v) && RemoveCase(v, rmId, my, surrounded);
      var removed := CountNonzero(surrounded);
      RemoveTables(v, rmId, rmXy, my, surrounded);
      kou := rmXy;
      AddPrisoners(my, removed);
      RemovedValue(v, rmId, rmXy, my, removed);
    }
 
    /** Writes one liberty code, taking the table from `k` to `Set3(k, …)`. */
    method SetLiberty(ghost k: seq<seq<seq<int>>>, c: int, i: int, p: int, x: int)
      requires Shaped() && Cube(k) && HoldsLiberty(k)
      requires 0 <= c < 2 && 0 <= i < BOARD_SIZE && 0 <= p < BOARD_SIZE
      modifies liberty
      ensures HoldsLiberty(Set3(k, c, i, p, x))
    {
      liberty[c, i, p] := x;
    }

    /** Writes one adjacency flag, taking the table from `k` to `Set3(k, …)`. */
    method SetAdjacency(ghost k: seq<seq<seq<bool>>>, c: int, i: int, j: int, x: bool)
      requires Shaped() && Cube(k) && HoldsAdjacency(k)
      requires 0 <= c < 2 && 0 <= i < BOARD_SIZE && 0 <= j < BOARD_SIZE
      modifies adjRenId
      ensures HoldsAdjacency(Set3(k, c, i, j, x))
    {
      adjRenId[c, i, j] := x;
    }

    /** The liberty writes of the marking half: each group's row marks the other's stone. */
    method MarkLiberties(ghost k: seq<seq<seq<int>>>, my: int, myId: int, xy: int, op: int, oppoId: int, adjXy: int)
      requires Shaped() && Cube(k) && HoldsLiberty(k)
      requires 0 <= my < 2 && 0 <= op < 2 && 0 <= myId < BOARD_SIZE && 0 <= oppoId < BOARD_SIZE
      requires 0 <= xy < BOARD_SIZE && 0 <= adjXy < BOARD_SIZE
      modifies liberty
      ensures HoldsLiberty(Set3(Set3(k, op, oppoId, xy, LIB_STONE), my, myId, adjXy, LIB_STONE))
    {
      SetLiberty(k, op, oppoId, xy, LIB_STONE);
      SetLiberty(Set3(k, op, oppoId, xy, LIB_STONE), my, myId, adjXy, LIB_STONE);
    }

    /** The adjacency writes of the marking half: the two groups are recorded as touching, both ways. */
    method MarkAdjacencies(ghost k: seq<seq<seq<bool>>>, my: int, myId: int, op: int, oppoId: int)
      requires Shaped() && Cube(k) && HoldsAdjacency(k)
      requires 0 <= my < 2 && 0 <= op < 2 && 0 <= myId < BOARD_SIZE && 0 <= oppoId < BOARD_SIZE
      modifies adjRenId
      ensures HoldsAdjacency(Set3(Set3(k, my, myId, oppoId, true), op, oppoId, myId, true))
    {
      SetAdjacency(k, my, myId, oppoId, true);
      SetAdjacency(Set3(k, my, myId, oppoId, true), op, oppoId, myId, true);
    }

    /** The marking half of `_set_stone_next_to_oppo_ren`, in place. */
    method MarkContact(xy: int, adjXy: int)
      requires Valid() && 0 <= xy < BOARD_SIZE && 0 <= adjXy < BOARD_SIZE
      requires renIdBoard[turn % 2, xy] != NO_REN && renIdBoard[(turn + 1) % 2, adjXy] != NO_REN
      modifies liberty, adjRenId
      ensures Valid() && Value() == GoRules.MarkContact(old(Value()), xy, adjXy)
    {
      ghost var v := Value();
      var my := turn % 2;
      var op := (turn + 1) % 2;
      var oppoRenId := renIdBoard[op, adjXy];
      var myRenId := renIdBoard[my, xy];
      assert my == MyColor(v) && op == OpponentColor(v);
      assert oppoRenId == v.renIdBoard[op][adjXy] && myRenId == v.renIdBoard[my][xy];
      MarkLiberties(v.liberty, my, myRenId, xy, op, oppoRenId, adjXy);
      MarkAdjacencies(v.adjRenId, my, myRenId, op, oppoRenId);
      ghost var t := GoRules.MarkContact(v, xy, adjXy);
      assert HoldsLiberty(t.liberty) && HoldsAdjacency(t.adjRenId) by {
        assert t.liberty == Set3(Set3(v.liberty, op, oppoRenId, xy, LIB_STONE), my, myRenId, adjXy, LIB_STONE);
        assert t.adjRenId == Set3(Set3(v.adjRenId, my, myRenId, oppoRenId, true), op, oppoRenId, myRenId, true);
      }
      assert HoldsRen(t.renIdBoard) && HoldsAvailable(t.availableRenId) by {
        assert t.renIdBoard == v.renIdBoard && t.availableRenId == v.availableRenId;
      }
      ValueIs(t);
    }

    /** `_set_stone_next_to_oppo_ren`, in place. */
    method SetStoneNextToOppoRen(xy: int, adjXy: int)
      requires Valid() && 0 <= xy < BOARD_SIZE && 0 <= adjXy < BOARD_SIZE
      requires renIdBoard[turn % 2, xy] != NO_REN && renIdBoard[(turn + 1) % 2, adjXy] != NO_REN
      modifies this, renIdBoard, availableRenId, liberty, adjRenId, agehama
      ensures Valid() && Value() == GoRules.SetStoneNextToOppoRen(old(Value()), xy, adjXy)
    {
      ghost var v := Value();
      var op := (turn + 1) % 2;
      var oppoRenId := renIdBoard[op, adjXy];
      assert op == OpponentColor(v) && oppoRenId == v.renIdBoard[op][adjXy];
      MarkContact(xy, adjXy);
      ghost var t := Value();
      assert t == GoRules.MarkContact(v, xy, adjXy);
      if NoLiberty(LibertyRow(op, oppoRenId)) {
        assert NoLiberty(t.liberty[op][oppoRenId]);
        RemoveStones(oppoRenId, adjXy);
        assert GoRules.SetStoneNextToOppoRen(v, xy, adjXy) == GoRules.RemoveStones(t, oppoRenId, adjXy);
      } else {
        assert !NoLiberty(t.liberty[op][oppoRenId]);
      }
    }

    /** One pass of the neighbour loop of `_not_pass_move`, for direction `d`. */
    method ProcessNeighbour(xy: int, d: int)
      requires Valid() && 0 <= xy < BOARD_SIZE && 0 <= d < 4 && renIdBoard[turn % 2, xy] != NO_REN
      modifies this, renIdBoard, availableRenId, liberty, adjRenId, agehama
      ensures Valid() && Value() == GoRules.ProcessNeighbour(old(Value()), xy, d)
    {
      ghost var v := Value();
      var my := turn % 2;
      var adjPos := NeighbourPos(xy, d);
      var adjXy := PosToXy(adjPos);
      assert my == MyColor(v) && (turn + 1) % 2 == OpponentColor(v);
      if IsOffBoard(adjPos) {
      } else if renIdBoard[my, adjXy] != NO_REN {
        MergeRen(xy, adjXy);
        assert GoRules.ProcessNeighbour(v, xy, d) == GoRules.MergeRen(v, xy, adjXy);
      } else if renIdBoard[(turn + 1) % 2, adjXy] != NO_REN {
        SetStoneNextToOppoRen(xy, adjXy);
        assert GoRules.ProcessNeighbour(v, xy, d) == GoRules.SetStoneNextToOppoRen(v, xy, adjXy);
      } else {
        MarkFree(xy, adjXy);
      }
    }

    /** The empty-neighbour case of `_not_pass_move`: the mover's group gains `adjXy` as a liberty. */
    method MarkFree(xy: int, adjXy: int)
      requires Valid() && 0 <= xy < BOARD_SIZE && 0 <= adjXy < BOARD_SIZE && renIdBoard[turn % 2, xy] != NO_REN
      modifies liberty
      ensures Valid()
      ensures Value() == old(Value()).(liberty := Set3(old(Value()).liberty, turn % 2, renIdBoard[turn % 2, xy], adjXy, LIB_FREE))
    {
      ghost var v := Value();
      var my := turn % 2;
      var renId := renIdBoard[my, xy];
      SetLiberty(v.liberty, my, renId, adjXy, LIB_FREE);
      ghost var t := v.(liberty := Set3(v.liberty, my, renId, adjXy, LIB_FREE));
      assert HoldsRen(t.renIdBoard) && HoldsAvailable(t.availableRenId) && HoldsAdjacency(t.adjRenId);
      ValueIs(t);
    }

    /** The stone placement and neighbour loop of `_not_pass_move`, in place. */
    method PlaceStone(xy: int)
      requires Valid() && 0 <= xy < BOARD_SIZE
      modifies this, renIdBoard, availableRenId, liberty, adjRenId, agehama
      ensures Valid() && Value() == Neighbours(GoRules.SetStone(old(Value()), xy), xy, 4)
    {
      ghost var s0 := Value();
      SetStone(xy);
      ghost var s1 := Value();
      for d := 0 to 4
        invariant Valid() && turn == s0.turn
        invariant Value() == Neighbours(s1, xy, d)
      {
        ProcessNeighbour(xy, d);
      }
    }

    /** `_not_pass_move`, in place: returns the reward pair and the terminal flag. */
    method NotPassMove(xy: int) returns (reward: seq<int>, terminated: bool)
      requires Valid() && 0 <= xy < BOARD_SIZE
      modifies this, renIdBoard, availableRenId, liberty, adjRenId, agehama
      ensures Valid()
      ensures var res := GoRules.NotPassMove(old(Value()), xy);
        Value() == res.state && reward == res.reward && terminated == res.terminated
    {
      ghost var s0 := Value();
      passed := false;
      ghost var s := s0.(passed := false);
      ValueIs(s);
      var my := turn % 2;
      var agehamaBefore := agehama[BLACK];
      var isIllegal := IsIllegalMove(Value(), xy);
      var kouOccurred := KouOccurred(Value(), xy);
      PlaceStone(xy);
      ghost var s2 := Value();
      assert s2 == Neighbours(GoRules.SetStone(s, xy), xy, 4);
      var isSuicide := NoLiberty(LibertyRow(my, renIdBoard[my, xy]));
      var keepKou := KeepKouAsWritten(kouOccurred, agehama[my], agehamaBefore);
      reward, terminated := Conclude(keepKou, isSuicide || isIllegal);
      assert GoRules.NotPassMove(s0, xy) == GoRules.Conclude(s2, keepKou, isSuicide || isIllegal);
    }

    /** The ending of `_not_pass_move`: the ko point is kept or cleared, the turn advances, and an illegal move ends the game. */
    method Conclude(keepKou: bool, illegal: bool) returns (reward: seq<int>, terminated: bool)
      requires Valid()
      modifies this
      ensures Valid()
      ensures var res := GoRules.Conclude(old(Value()), keepKou, illegal);
        Value() == res.state && reward == res.reward && terminated == res.terminated
    {
      ghost var s2 := Value();
      if !keepKou {
        kou := -1;
      }
      ghost var s3 := s2.(kou := if keepKou then s2.kou else -1);
      ValueIs(s3);
      if illegal {
        reward := [1, 1][turn % 2 := -1];
        terminated := true;
      } else {
        reward := [0, 0];
        terminated := false;
      }
      turn := turn + 1;
      ValueIs(AddTurn(s3));
    }

    /** `_pass_move`, in place: a second pass ends the game and scores it. */
    method PassMove() returns (reward: seq<int>, terminated: bool)
      requires Valid()
      modifies this
      ensures Valid()
      ensures var res := GoRules.PassMove(old(Value()));
        Value() == res.state && reward == res.reward && terminated == res.terminated
    {
      ghost var v := Value();
      if passed {
        reward := GoJiSearch.GetReward(Value());
        terminated := true;
        turn := turn + 1;
        ValueIs(AddTurn(v));
      } else {
        reward := [0, 0];
        terminated := false;
        turn := turn + 1;
        passed := true;
        ValueIs(AddPass(v));
      }
    }

    /** `step`: a negative action passes, any other places a stone on that point. */
    method Step(action: int) returns (reward: seq<int>, terminated: bool)
      requires Valid() && action < BOARD_SIZE
      modifies this, renIdBoard, availableRenId, liberty, adjRenId, agehama
      ensures Valid()
      ensures var res := GoRules.Step(old(Value()), action);
        Value() == res.state && reward == res.reward && terminated == res.terminated
    {
      if action < 0 {
        reward, terminated := PassMove();
      } else {
        reward, terminated := NotPassMove(action);
      }
    }

    /** Whether placing a stone on `xy` keeps the game going, tried on a copy. */
    method TryPoint(xy: int) returns (legal: bool)
      requires Valid() && 0 <= xy < BOARD_SIZE
      ensures Valid() && Value() == old(Value())
      ensures legal == !GoRules.Step(Value(), xy).terminated
    {
      ghost var v := Value();
      var trial := new Engine.Copy(this);
      assert trial.Value() == v;
      var _, terminated := trial.Step(xy);
      assert terminated == GoRules.Step(v, xy).terminated;
      legal := !terminated;
      assert unchanged(this, renIdBoard, availableRenId, liberty, adjRenId, agehama);
      assert Value() == v;
    }

    /**
     * `legal_actions`: a point is legal exactly when a step placing a stone
     * there does not end the game. Each point is tried on a copy.
     */
    method LegalActions() returns (mask: seq<bool>)
      requires Valid()
      ensures |mask| == BOARD_SIZE
      ensures forall xy | 0 <= xy < BOARD_SIZE :: mask[xy] == !GoRules.Step(Value(), xy).terminated
    {
      ghost var v := Value();
      ghost var legalMask := seq(BOARD_SIZE, k requires 0 <= k < BOARD_SIZE => !GoRules.Step(v, k).terminated);
      mask := [];
      for xy := 0 to BOARD_SIZE
        invariant Valid() && Value() == v
        invariant mask == legalMask[..xy]
      {
        var legal := TryPoint(xy);
        assert legal == legalMask[xy];
        PrefixSnoc(legalMask, xy);
        mask := mask + [legal];
      }
      assert mask == legalMask;
    }
  }
}
