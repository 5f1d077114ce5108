# Mini-Go, Hex and Animal Shogi rule engines in Dafny

This project models three of the pgx board-game rule engines as Dafny definitions and proves properties about them.

- **Mini-Go** (`pgx/mini_go.py`) is the main part: a 5×5 Go game.
  - The state keeps one id board per colour, a table of which ids are free, a liberty table and an adjacency table between groups ("ren").
  - It also tracks the prisoner counts ("agehama"), the ko point ("kou"), the pass flag and the turn.
  - `step` places a stone or passes. Placing merges friendly groups, marks contact with opposing groups and captures those left without a liberty.
  - Territory ("ji") is counted by a fill over a padded 7×7 board.
- **Hex** (`pgx/hex.py`) works on a board of group ids. Placing a stone relabels every touching friendly group to the new stone's id. The game ends when one group touches both of the mover's edges. The board is negated after every move.
- **Animal Shogi** (`pgx/animal_shogi.py`) uses a 3×4 board. The player to move always sees their own pieces as 0–4 and the opponent's as 5–9. After every move the board is rotated and the hands are swapped.

Code that works as pure functions becomes Dafny functions. Code that updates state step by step becomes imperative Dafny.

Mini-Go is modelled twice:
- **Function model.** `GoRules` and `GoTerritory` are functions over a `MiniGoState` value.
- **In-place engine.** The class `GoEngine.Engine` keeps the same tables in arrays. Each of its methods is proved to take the state `Value()` to what the matching `GoRules` function computes.
- **Territory loops.** `GoJiSearch` contains the loops of the territory search, proved against `GoTerritory` in the same way.
- **Lemmas.** `GoProperties`, `GoInvariants` and `GoGame` state what the rules guarantee:
  - the effect of a merge, a contact and a capture;
  - stone conservation;
  - symmetry of group adjacency;
  - colour planes that never overlap;
  - liberty entries that stay in the three codes, with code 2 only where the other colour has a stone;
  - a ko point that is unset or empty;
  - passing, illegal placement and ko;
  - what counts as territory.

Hex is a class `HexGame.HexState` over an `array<int>` board. The neighbour-merge loop is proved against a function `Merged`. An invariant shows that a new stone's id is always fresh.

Animal Shogi is all functions in module `AnimalShogi`. It imports the JAX helpers shared with Go from module `Jax`:
- first-true `argmax`;
- `count_nonzero`;
- clamped gather indices.

Differences between the intended rules and the code. The model follows the code in each case. For the two listed under Findings it also gives the corrected definition, beside the one the rest of the model uses.

- **Mini-Go illegal moves.** An illegal placement (an occupied point, the ko point, or suicide) does not roll the state back. The stone is placed, the neighbours are processed, and the turn advances. The game ends with −1 for the mover and +1 for the other player.
- **Mini-Go territory.** In `_count_ji_roop` the test `examined_stones[...] is False` is never true for a JAX array element. So a neighbour never becomes a candidate, and the fill paints only the neighbours of the initial candidates.
  - A point counts as territory for a colour only when it is empty, and it always counts when no orthogonal neighbour holds a stone of the other colour.
  - The converse fails, and the result depends on the visiting order. Visiting a stone clears the candidate flag of every neighbour, so a neighbouring stone of the same colour that comes later paints nothing. With White on points 0 and 1, point 2 still counts for Black, although point 1 next to it is White.
  - On the empty board both colours therefore count 25 points, not 0.
- **Mini-Go pass and ko.** A pass keeps the ko point: `_add_pass` copies `kou` unchanged. So after a ko capture and the opponent's pass, the capturer still may not fill the ko point, although the pass has ended the ko. `GoRules.AddPass` and `GoGame.FirstPass` state this behaviour.
- **Animal Shogi labels.** The source comments label pieces 6 and 7 as the opponent's rook and bishop. By the `% 5` arithmetic the code uses, piece `5 + k` is the opponent's piece `k`, so 6 is the opponent's bishop and 7 the opponent's rook. The model follows the arithmetic.
- **Animal Shogi king capture.** A captured king would go to hand slot 3. That slot does not exist, and the scatter update drops it, so the captured king vanishes.

## Model

| member | source | states |
|---|---|---|
| Jax.FirstTrue | pgx/mini_go.py:243-245 | the first index holding true, or the length when none does |
| Jax.ArgMaxBool | pgx/mini_go.py:243-245 | `argmax` of a boolean row: the first true index, 0 when no entry is true |
| Jax.CountNonzero | pgx/mini_go.py:381 | the count is 0 exactly when no entry is true and the full length exactly when all are |
| Jax.Equals | pgx/mini_go.py:378-380 | the comparison row is true exactly where the row holds the value |
| Jax.GatherIndex | pgx/animal_shogi.py:177 | an index is used as is when in range, a negative one wraps once, and a larger one is clamped to the last cell |
| Jax.CountClear | pgx/mini_go.py:381 | clearing one entry lowers the count by one exactly when it was set |
| Jax.CountSet | pgx/mini_go.py:381 | setting one entry raises the count by one exactly when it was clear |
| Jax.CountMonotone | pgx/mini_go.py:381 | a row whose true entries are a subset of another's counts no more |
| Jax.CountDisjointUnion | pgx/mini_go.py:381 | a row that is the disjoint union of two others counts their sum |
| GoBoard.Init | pgx/mini_go.py:22-54 | the initial state has no stones, turn 0, no pass, no ko point and no prisoners |
| GoBoard.MyColor | pgx/mini_go.py:229-230 | the mover is Black exactly on even turns |
| GoBoard.OpponentColor | pgx/mini_go.py:478-479 | the opponent is the other colour |
| GoBoard.XyToPos | pgx/mini_go.py:473-474 | every point maps to an on-board position that maps back to it |
| GoBoard.PosRoundTrip | pgx/mini_go.py:448-474 | an on-board position maps to a point in range and back to itself |
| GoBoard.GetBoard | pgx/mini_go.py:419-423 | each point shows empty when neither plane holds a stone, White when White's plane does, and Black when only Black's plane does |
| GoTerritory.PadIndex | pgx/mini_go.py:540-555 | a board point maps to an inner cell of the padded board, and back |
| GoTerritory.InnerPoint | pgx/mini_go.py:540-555 | an inner padded cell maps back to the board point it pads |
| GoTerritory.PadSpec | pgx/mini_go.py:540-555 | the padded board holds the board's value at inner cells and the border mark elsewhere |
| GoTerritory.Examine | pgx/mini_go.py:580-586 | examining a point removes exactly that point from the candidates and leaves board and colour |
| GoTerritory.VisitNeighbourSpec | pgx/mini_go.py:588-603 | visiting a neighbour paints it with the other colour only when it is empty, and always clears its candidate flag, since the `is False` test never holds |
| GoTerritory.RoopStepAt | pgx/mini_go.py:578-655 | a round at a given point keeps the colour and only removes candidates, that point among them |
| GoTerritory.RoopStep | pgx/mini_go.py:578-655 | one round of `_count_ji_roop` keeps the colour and strictly lowers the candidate count |
| GoTerritory.RoopStepSpec | pgx/mini_go.py:578-655 | one round takes the first candidate, paints its empty orthogonal neighbours with the other colour, and only clears candidates |
| GoTerritory.RunRoop | pgx/mini_go.py:568-570 | the fill loop ends with no candidate left and the colour unchanged |
| GoTerritory.GetReward | pgx/mini_go.py:513-521 | the reward is zero-sum: [1, −1] exactly when Black scores more, [−1, 1] exactly when White does, [0, 0] on a tie |
| GoRules.AddTurn | pgx/mini_go.py:81-91 | only the turn counter moves |
| GoRules.AddPass | pgx/mini_go.py:95-105 | the turn counter moves and the pass flag is raised, nothing else |
| GoRules.SetStone | pgx/mini_go.py:242-255 | the new stone takes the first free id of the mover's colour, that id is marked taken, and nothing else changes |
| GoRules.MergeRen | pgx/mini_go.py:259-316 | a merge touches only the mover's group tables and the opposing adjacency, and keeps the set of occupied points |
| GoRules.RemoveStones | pgx/mini_go.py:377-408 | exactly the stones of the captured group leave the opponent's plane, the mover's plane and free ids are unchanged, and the ko point becomes the capture point |
| GoRules.MarkContact | pgx/mini_go.py:325-359 | contact changes only the liberty and adjacency tables |
| GoRules.ProcessNeighbour | pgx/mini_go.py:131-170 | one neighbour pass keeps the turn and the pass flag, and the placed stone stays on the board |
| GoRules.SetStoneNextToOppoRen | pgx/mini_go.py:320-373 | contact with an opposing group leaves the mover's plane and the turn unchanged |
| GoRules.Neighbours | pgx/mini_go.py:131-170 | the neighbour loop keeps the turn and the pass flag, and the placed stone stays on the board |
| GoRules.Step | pgx/mini_go.py:58-67 | a step from a well-formed state gives a well-formed state; a placement keeps or clears the ko point by the source's test `KeepKouAsWritten` |
| GoRules.StepIntended | pgx/mini_go.py:109-209 | the corrected step, with the ko test the source evidently intends, gives a well-formed state |
| GoProperties.MergeRenSpec | pgx/mini_go.py:259-316 | a merge relabels the larger id to the smaller and frees it, takes the maximum of both liberty rows with the new point cleared, and joins both adjacency rows, also in the opponent's table |
| GoProperties.RemoveStonesSpec | pgx/mini_go.py:377-408 | a capture adds the number of removed stones to the mover's prisoners, turns the mover's marks on removed points into liberties, frees the id, and clears its rows and every mention of it |
| GoProperties.RemoveStonesConserves | pgx/mini_go.py:377-408 | a capture removes exactly the group's stones from the board, and stones on the board plus prisoners stay constant |
| GoProperties.ContactSpec | pgx/mini_go.py:320-373 | contact captures the opposing group exactly when its row has no liberty left after the contact point is marked, and otherwise only marks stones and adjacency both ways |
| GoInvariants.InitInvariants | pgx/mini_go.py:53-54 | the initial state satisfies the three invariants and holds no stone or prisoner |
| GoInvariants.MergeRenKeepsSymmetry | pgx/mini_go.py:259-316 | a merge keeps group adjacency symmetric between the colours |
| GoInvariants.RemoveStonesKeepsSymmetry | pgx/mini_go.py:377-408 | a capture keeps group adjacency symmetric |
| GoInvariants.ContactKeepsSymmetry | pgx/mini_go.py:320-373 | contact keeps group adjacency symmetric |
| GoInvariants.ProcessNeighbourKeepsSymmetry | pgx/mini_go.py:131-170 | one neighbour pass keeps group adjacency symmetric |
| GoInvariants.NeighboursKeepSymmetry | pgx/mini_go.py:131-170 | the whole neighbour loop keeps group adjacency symmetric |
| GoInvariants.StepKeepsSymmetry | pgx/mini_go.py:58-67 | every step keeps group adjacency symmetric |
| GoInvariants.ProcessNeighbourKeepsPartition | pgx/mini_go.py:131-170 | one neighbour pass never puts stones of both colours on a point and never adds an opposing stone |
| GoInvariants.NeighboursKeepPartition | pgx/mini_go.py:131-170 | the neighbour loop never puts stones of both colours on one point |
| GoInvariants.PlacementKeepsPartition | pgx/mini_go.py:109-209 | a placement on a point the opponent does not hold, legal or not, never leaves stones of both colours on one point |
| GoInvariants.StepKeepsPartition | pgx/mini_go.py:58-67 | every pass, and every placement on a point the opponent does not hold (so every step that does not end the game), keeps the colour planes disjoint |
| GoInvariants.MergeRenKeepsCodes | pgx/mini_go.py:259-316 | a merge keeps every liberty entry in 0..2, and keeps code 2 only on points the other colour holds |
| GoInvariants.RemoveStonesKeepsCodes | pgx/mini_go.py:377-408 | a capture keeps every liberty entry in 0..2, and keeps code 2 only on points the other colour holds |
| GoInvariants.ContactKeepsCodes | pgx/mini_go.py:320-373 | contact with an opposing group keeps every liberty entry in 0..2, and keeps code 2 only on points the other colour holds |
| GoInvariants.ProcessNeighbourKeepsCodes | pgx/mini_go.py:131-170 | one neighbour pass keeps every liberty entry in 0..2, and keeps code 2 only on points the other colour holds |
| GoInvariants.NeighboursKeepCodes | pgx/mini_go.py:131-170 | the neighbour loop keeps every liberty entry in 0..2, and keeps code 2 only on points the other colour holds |
| GoInvariants.StepKeepsCodes | pgx/mini_go.py:58-67 | every step keeps every liberty entry in 0..2, and keeps code 2 only on points the other colour holds |
| GoInvariants.ProcessNeighbourKouEmpty | pgx/mini_go.py:131-170 | one neighbour pass keeps the mover's occupied points and adds no opposing stone, and it keeps the ko point or moves it to the point a capture has just emptied |
| GoInvariants.NeighboursKouEmpty | pgx/mini_go.py:131-170 | the neighbour loop keeps the mover's occupied points and adds no opposing stone, and it keeps the ko point or leaves it on a point no stone holds |
| GoInvariants.PlacementEnd | pgx/mini_go.py:172-209 | a placement ends with the planes the neighbour loop left and with the loop's ko point or none, and a placement on the ko point ends the game |
| GoInvariants.PlacementKouEmpty | pgx/mini_go.py:122-170 | after the neighbour loop of a placement the ko point is unset or empty, unless the stone went onto the ko point and no capture moved it |
| GoInvariants.StepKeepsKouEmpty | pgx/mini_go.py:58-67 | when the ko point is unset or empty before a step, it is unset or empty after it; the one exception is an illegal placement onto the ko point itself, which ends the game |
| GoInvariants.ProcessNeighbourConserves | pgx/mini_go.py:131-170 | stones on the board plus prisoners are unchanged by one neighbour pass |
| GoInvariants.NeighboursConserve | pgx/mini_go.py:131-170 | stones on the board plus prisoners are unchanged by the neighbour loop |
| GoInvariants.StepConserves | pgx/mini_go.py:58-67 | for every step, legal or not, stones on the board plus prisoners grow by one with a placement on a point the mover does not hold, and stay put with a pass or a placement on the mover's own stone |
| GoInvariants.NeighbourDiffers | pgx/mini_go.py:131-133 | an orthogonal neighbour is a point in range other than the point itself |
| GoInvariants.ProcessNeighbourKeepsLiberty | pgx/mini_go.py:131-170 | an empty point recorded as a liberty of the new group stays one, and an empty neighbour becomes one |
| GoInvariants.NeighboursKeepLiberty | pgx/mini_go.py:131-170 | an empty neighbour is a liberty of the new group after the loop, and stays empty |
| GoInvariants.EmptyNeighbourMakesLegal | pgx/mini_go.py:173-181 | a placement on a free non-ko point with an empty neighbour is not suicide, so the game goes on with reward [0, 0] |
| GoGame.FirstPass | pgx/mini_go.py:71-77 | a first pass only advances the turn and raises the pass flag |
| GoGame.SecondPass | pgx/mini_go.py:71-77 | a pass after a pass ends the game with the territory reward and the board untouched |
| GoGame.PlacementClearsPass | pgx/mini_go.py:109-121 | a placement clears the pass flag |
| GoGame.IllegalPlacementLoses | pgx/mini_go.py:213-238 | a placement on an occupied point or the ko point ends the game with −1 for the mover and +1 for the other player |
| GoGame.PlacementOutcome | pgx/mini_go.py:204-209 | a placement either ends the game as a loss for the mover or goes on with reward [0, 0], and the turn always advances |
| GoGame.KouClearedUnlessSurrounded | pgx/mini_go.py:184-202 | a placement not surrounded by opposing stones leaves no ko point |
| GoGame.KouRetentionAsWritten | pgx/mini_go.py:123-202 | when White, with prisoner counts differing by an odd number, plays a surrounded point and captures one stone, `Step` clears the ko point |
| GoGame.KouKeptAfterTripleCapture | pgx/mini_go.py:123-202 | when Black plays a surrounded point and captures three stones, `Step` keeps a ko point and `StepIntended` clears it |
| GoGame.PlacementKouAsWritten | pgx/mini_go.py:123-202 | after a placement `Step` keeps the ko point the neighbour loop left exactly when the source's test holds, with the prisoners as that loop left them, and after a capture that point is on the board |
| GoGame.StepsDifferOnlyInKou | pgx/mini_go.py:184-209 | `Step` and `StepIntended` agree on the position, the reward and the ending, and differ at most in the ko point |
| GoGame.NeighboursKou | pgx/mini_go.py:131-170 | across the neighbour loop, prisoners and the ko point change only through a capture, which sets the ko point to that neighbour |
| GoGame.KouKeptIffSingleCapture | pgx/mini_go.py:184-202 | with the intended test, the ko point is set after a placement exactly when the point was surrounded and the mover captured exactly one stone, and it is then a neighbour of the new stone |
| GoGame.KouOccurredInterior | pgx/mini_go.py:483-509 | on an interior point the ko test holds exactly when all four neighbours hold an opposing stone |
| GoGame.KouOccurredCorner | pgx/mini_go.py:483-509 | at a corner the ko test reads the wrapped neighbour indices |
| GoGame.RoopStepKeepsFill | pgx/mini_go.py:578-655 | one fill round paints only empty cells next to a stone of the other colour and keeps the candidates among the initial ones |
| GoGame.RunRoopKeepsFill | pgx/mini_go.py:568-570 | the whole fill keeps that invariant |
| GoGame.TerritoryIsEmpty | pgx/mini_go.py:539-574 | only empty points count as territory |
| GoGame.EmptyAwayFromOpponentIsTerritory | pgx/mini_go.py:539-574 | an empty point with no orthogonal stone of the other colour counts as territory |
| GoGame.CountJiAtMostEmpty | pgx/mini_go.py:525-527 | territory never exceeds the number of empty points |
| GoGame.EmptyBoardTerritory | pgx/mini_go.py:525-574 | on the empty board each colour counts all 25 points |
| GoGame.PassPassFromInit | pgx/mini_go.py:58-77 | two passes from the start end the game in a draw |
| GoJiSearch.PaintNeighbour | pgx/mini_go.py:588-603 | painting one neighbour in place leaves the search state as `GoTerritory.VisitNeighbour` gives from the old one |
| GoJiSearch.PaintAround | pgx/mini_go.py:588-654 | in place, the four neighbours are visited in the order above, below, left, right |
| GoJiSearch.CountJiRoop | pgx/mini_go.py:578-655 | the in-place round leaves the arrays as one `RoopStep` of their old contents |
| GoJiSearch.NewJi | pgx/mini_go.py:540-566 | fresh, distinct arrays holding the padded board, the other colour's stones as candidates and no examined point |
| GoJiSearch.RunFill | pgx/mini_go.py:568-570 | in place, the loop leaves the arrays as the whole fill `RunRoop` of their old contents |
| GoJiSearch.GetSurroundedStones | pgx/mini_go.py:539-574 | the loop computes exactly the territory mask |
| GoJiSearch.CountJi | pgx/mini_go.py:525-527 | the method returns the territory count the function defines |
| GoJiSearch.GetReward | pgx/mini_go.py:513-521 | the method returns the reward the function defines |
| GoEngine.Engine.Init | pgx/mini_go.py:53-54 | a new engine holds the initial state |
| GoEngine.Engine.SetStone | pgx/mini_go.py:242-255 | in place, the state becomes `GoRules.SetStone` of the old one |
| GoEngine.Engine.MergeRen | pgx/mini_go.py:259-316 | in place, the state becomes `GoRules.MergeRen` of the old one |
| GoEngine.Engine.RemoveStones | pgx/mini_go.py:377-408 | in place, the state becomes `GoRules.RemoveStones` of the old one |
| GoEngine.Engine.MarkContact | pgx/mini_go.py:325-359 | in place, the state becomes `GoRules.MarkContact` of the old one |
| GoEngine.Engine.SetStoneNextToOppoRen | pgx/mini_go.py:320-373 | in place, the state becomes `GoRules.SetStoneNextToOppoRen` of the old one |
| GoEngine.Engine.ProcessNeighbour | pgx/mini_go.py:131-170 | in place, the state becomes one neighbour pass of the old one |
| GoEngine.Engine.MarkFree | pgx/mini_go.py:145-158 | in place, the empty neighbour becomes a liberty of the new group and nothing else changes |
| GoEngine.Engine.PlaceStone | pgx/mini_go.py:126-170 | in place, the stone is set and the four neighbours processed |
| GoEngine.Engine.NotPassMove | pgx/mini_go.py:109-209 | in place, state, reward and terminal flag are those of `GoRules.NotPassMove`, with the source's ko test measured against Black's prisoners before the move |
| GoEngine.Engine.Conclude | pgx/mini_go.py:184-209 | in place, the ko point is kept or cleared by the given decision, and the final branch is that of `GoRules.Conclude` |
| GoEngine.Engine.PassMove | pgx/mini_go.py:71-77 | in place, state, reward and terminal flag are those of `GoRules.PassMove` |
| GoEngine.Engine.Step | pgx/mini_go.py:58-67 | in place, state, reward and terminal flag are those of `GoRules.Step` |
| GoEngine.Engine.TryPoint | pgx/mini_go.py:412-415 | a trial step on a copy reports whether the placement keeps the game going, and the engine is unchanged |
| GoEngine.Engine.Copy | pgx/mini_go.py:412-415 | a trial engine gets arrays of its own holding the same state, as each `step` of the map works on its own copy |
| GoEngine.Engine.RelinkOpponentRows | pgx/mini_go.py:285-290 | in place, every opposing adjacency row naming the larger id names the smaller one instead, and nothing else changes |
| GoEngine.Engine.JoinMoverRows | pgx/mini_go.py:291-296 | in place, the mover's larger-id row is joined into the smaller-id row and cleared, and nothing else changes |
| GoEngine.Engine.LegalActions | pgx/mini_go.py:412-415 | the mask is true exactly at the points whose placement does not end the game |
| HexGame.Cell | pgx/hex.py:150-155 | a grid coordinate maps to the cell `x * size + y` inside the board |
| HexGame.Neighbour | pgx/hex.py:144-155 | six entries, each −1 exactly when the neighbour in that direction is off the grid, otherwise a cell in range |
| HexGame.NeighbourSymmetric | pgx/hex.py:144-155 | the neighbour in direction `5 − k` of the neighbour in direction `k` is the cell itself |
| HexGame.IsGameEnd | pgx/hex.py:158-168 | the game ends exactly when some positive id appears on both of the mover's edges |
| HexGame.EdgeCells | pgx/hex.py:158-163 | the edges are the first and last rows for player 0, and the first and last columns for player 1 |
| HexGame.Negate | pgx/hex.py:122 | every id changes sign and empty cells stay empty |
| HexGame.NegateTwice | pgx/hex.py:122 | negating twice gives the board back |
| HexGame.GetAbsBoard | pgx/hex.py:171-174 | the absolute board is the board for turn 0 and its negation otherwise |
| HexGame.AbsBoardOfNegated | pgx/hex.py:119-126 | after a move negates the board and flips the turn, the absolute board is unchanged |
| HexGame.Observe | pgx/hex.py:131-141 | an observation cell's planes are never both set, are empty for an empty cell, and mark the viewer's and the opponent's stones |
| HexGame.Merged | pgx/hex.py:97-110 | the new cell holds `action + 1`; every own group touching it gets that id; empty and opposing cells, and own cells of a group that touches it nowhere, keep their value; no cell gets any other value |
| HexGame.FreshId | pgx/hex.py:98 | no cell holds the id of an empty cell, either sign |
| HexGame.MergeKeepsAnchored | pgx/hex.py:97-122 | after a move every id still names a cell of its own group, so the next move's id is fresh |
| HexGame.MergePass | pgx/hex.py:102-108 | one merge pass relabels the touching group when the neighbour holds a positive id and otherwise changes nothing |
| HexGame.HexState.Init | pgx/hex.py:86-94 | a new game has an empty board, every action legal, turn 0 and no reward |
| HexGame.HexState.PlaceAndMerge | pgx/hex.py:97-110 | the in-place loop leaves the board as `Merged` of the old board |
| HexGame.HexState.NegateBoard | pgx/hex.py:122 | the board becomes its negation in place |
| HexGame.HexState.Step | pgx/hex.py:97-128 | the board is the negated merge; the game ends exactly when the mover connected their edges, with +1 for the mover and −1 for the other player; a cell is legal exactly when empty; turn and player swap |
| AnimalShogi.To | pgx/animal_shogi.py:289-302 | the destination is −1 exactly when it leaves the board; otherwise it is the square one step in that direction |
| AnimalShogi.FromLabel | pgx/animal_shogi.py:66-78 | labels 96 and up decode to drops of the piece `label / 12 − 8` on square `label % 12`; lower labels decode to moves from `label % 12` in direction `label / 12` |
| AnimalShogi.CanMove | pgx/animal_shogi.py:258-286 | the chick moves one square forward, the elephant diagonally, the giraffe orthogonally, the lion anywhere adjacent, and the hen, as written, anywhere adjacent except straight back |
| AnimalShogi.HenMovesAsWritten | pgx/animal_shogi.py:275 | from square 6 the written hen may step diagonally back to 3 and 11 but not straight back to 7 |
| AnimalShogi.CanMoveIntended | pgx/animal_shogi.py:258-286 | the corrected move test: the hen goes anywhere adjacent except diagonally backward, and every other piece as in `CanMove` |
| AnimalShogi.HenMovesDiffer | pgx/animal_shogi.py:275 | the written and the corrected hen disagree exactly on the backward neighbours, and the corrected hen moves only where the lion may |
| AnimalShogi.ToCoversNeighbours | pgx/animal_shogi.py:289-302 | every adjacent square is reached by some direction |
| AnimalShogi.CanMoveRotated | pgx/animal_shogi.py:231-242 | moving on the rotated board from `11 − f` to `11 − t` is allowed exactly when moving from `t` to `f` is |
| AnimalShogi.ArgMinFrom | pgx/animal_shogi.py:232-233 | the index of the first smallest distance from `i` on |
| AnimalShogi.KingPos | pgx/animal_shogi.py:232-233 | the first square holding the mover's king when there is one |
| AnimalShogi.IsChecked | pgx/animal_shogi.py:231-242 | the mover is in check exactly when an opposing piece can move onto the king's square |
| AnimalShogi.AddHand | pgx/animal_shogi.py:185-189 | an in-range hand slot grows by `n` and every other slot is unchanged, so an out-of-range add is dropped |
| AnimalShogi.StepMove | pgx/animal_shogi.py:172-192 | the origin empties, the piece arrives promoted to a hen when it is a chick leaving row 1 (for a legal chick move, entering the far row 0), other squares stay, and a captured piece other than the king enters the mover's hand |
| AnimalShogi.StepDrop | pgx/animal_shogi.py:195-200 | the piece is placed on the square and one leaves the mover's hand |
| AnimalShogi.FlipPiece | pgx/animal_shogi.py:245-255 | a piece changes side and an empty square stays empty |
| AnimalShogi.FlipBoard | pgx/animal_shogi.py:246-249 | square `i` of the flipped board holds the piece from square `11 − i` with its side changed |
| AnimalShogi.Flip | pgx/animal_shogi.py:245-255 | the board is rotated with every piece changing side, the hands swap, and player and turn toggle |
| AnimalShogi.FlipTwice | pgx/animal_shogi.py:245-255 | flipping twice gives the state back |
| AnimalShogi.FlipInitBoard | pgx/animal_shogi.py:37 | the initial board is symmetric under the flip |
| AnimalShogi.LegalActionMask | pgx/animal_shogi.py:203-228 | a move is legal exactly when an own piece can reach an empty or opposing square without leaving its king in check; a drop exactly when the square is empty, the piece is in hand, a chick is not dropped on the last row, and the king is not left in check |
| AnimalShogi.LegalOfPosition | pgx/animal_shogi.py:203-228 | the legality of one label depends only on the board and the hands |
| AnimalShogi.MaskOfPosition | pgx/animal_shogi.py:203-228 | the legal mask depends only on the board and the hands |
| AnimalShogi.Step | pgx/animal_shogi.py:122-143 | the next state is the flip of the applied move; the mask is recomputed; the game ends exactly when no action is legal or the mover's king reached the last row, and then the player to move gets −1 and the other +1 |
| AnimalShogi.Conclude | pgx/animal_shogi.py:130-143 | on the flipped position, the mask is recomputed; the game ends exactly when no label is legal or the mover reached the far row, and then the side to move gets −1 and the other +1 |
| AnimalShogi.Init | pgx/animal_shogi.py:86-91 | the game starts from the initial board with empty hands, the given player to move, turn 0, reward [0, 0], not terminated, and the mask of that position |
| AnimalShogi.StepMoveConserves | pgx/animal_shogi.py:172-192 | a move that captures no king keeps pieces on the board plus pieces in hand constant |
| AnimalShogi.KingCaptureVanishes | pgx/animal_shogi.py:185-189 | capturing the king removes it from the board without changing either hand |
| AnimalShogi.StepDropConserves | pgx/animal_shogi.py:195-200 | a drop keeps pieces on the board plus pieces in hand constant |
| AnimalShogi.FlipConserves | pgx/animal_shogi.py:245-255 | the flip keeps pieces on the board plus pieces in hand constant |

## Left out

- Drawing is not modelled: `show` and `_show_details` in `pgx/mini_go.py`, and `fig/generate_go_gif.py`. They only print.
- The environment classes are left out: `Hex` and `AnimalShogi` with their `id`, `version` and `num_players`, `v1.State`/`v1.Env`, and `pgx/__init__.py`. Only the per-game `_init`, `_step` and helpers are modelled.
- The random choice of the first player in `_init` is a parameter (`currentPlayer`), and there is no random key.
- The wrapper's step limit, auto-reset and batching (`vmap`/`jit`) are not part of this model.
- `AnimalShogi` leaves out `_observe` (`pgx/animal_shogi.py:146-169`), the 194-plane observation tensor. It is an encoding with no rule logic.
- Rewards are `float32` in the source and integers here. The values are −1, 0 and 1, so this makes no difference.
- `int8`/`int32` widths are unbounded integers. Every value stays in a small range (ids below 144, piece codes below 10, hands below 3), so nothing wraps.
- `GoRules.Step` requires `action < 25`, the size of the action space. Larger actions are not modelled.
- `HexGame.HexState.Step` requires `0 <= action < board.Length`, the size of the action space. Other actions are not modelled.
- `AnimalShogi.Step` requires `0 <= action < LABELS` (132), the size of the action space. Other actions are not modelled.
- `GoInvariants.PlacementKeepsPartition`: a placement on a point the opponent holds is not covered. The stone goes onto the mover's plane while the opposing stone stays, unless a capture removes it, so both planes can be set there after such an illegal move.
- `GoInvariants.StepKeepsPartition`: not covered for a placement on an opposing stone, for the same reason.
- `GoInvariants.MergeRenKeepsCodes`: states only half of what liberty code 1 means. Code 1 (a liberty) is not proved to stand only on an empty point. That needs a representation invariant the model does not establish: liberty entries stand only beside the group's own stones, and a free id holds no stones and an all-zero row. Illegal placements onto an own stone break that invariant.
- `GoInvariants.RemoveStonesKeepsCodes`: the code-1 half is missing, for the same reason.
- `GoInvariants.ContactKeepsCodes`: the code-1 half is missing, for the same reason.
- `GoInvariants.ProcessNeighbourKeepsCodes`: the code-1 half is missing, for the same reason.
- `GoInvariants.NeighboursKeepCodes`: the code-1 half is missing, for the same reason.
- `GoInvariants.StepKeepsCodes`: the code-1 half is missing, for the same reason.
- The invariant "every group id in use has at least one liberty" is not proved. It holds only after steps that do not end the game, and it rests on the same representation invariant. The invariant "the ko point, if set, is empty" is proved as `GoInvariants.StepKeepsKouEmpty`. That proof excludes the one step that breaks it: the illegal placement onto the ko point, which ends the game.
- `GoRules.Step` states well-formedness only. Its guarantees are in the `GoInvariants` and `GoGame` lemmas about it.
- `GoTerritory.SurroundedStones` models the territory fill as written. The fill paints at most the neighbours of the initial candidates, and a candidate whose flag an earlier visit cleared paints nothing, so the result depends on the visiting order. It does not model a propagating flood fill, which the code never performs.
- `AnimalShogi.IsChecked` requires every piece code to be in the range −1..9. The transitions keep this.

## Findings

| source | as written | input that shows it | evidently intended | confidence | as-written member | corrected member |
|---|---|---|---|---|---|---|
| pgx/mini_go.py:123-202 | The test `kou_occurred & agehama[mover] - agehama_before == 1` parses as `(kou_occurred & (agehama[mover] - agehama_before)) == 1`, which tests only the low bit. `agehama_before` is always Black's count (`agehama[0]`), whoever moves. | White holds 1 prisoner and Black 0. White plays a surrounded point and captures exactly one stone. The difference is 2 − 0 = 2, so the ko point is cleared and the recapture is allowed. Alternatively, Black captures three stones: the difference is 3, so a ko point is kept where no ko exists. | The ko point is kept exactly when the point was surrounded and the mover captured exactly one stone, measured against the mover's own count before the move. | high (not executed) | GoGame.KouRetentionAsWritten | GoGame.KouKeptIffSingleCapture |
| pgx/animal_shogi.py:275 | The hen (GOLD) test is `is_neighbour & ((dx != 0) \| (dy != +1))`. Backward is `dy = +1`, so only the step straight back is refused, and both diagonal steps back are allowed. | A hen on square 6 (column 1, row 2) may move to 3 or 11, diagonally back, but not to 7, straight back. | The hen moves to any neighbour except the two diagonally backward ones, as the rules of Dōbutsu shōgi have it. | high (not executed) | AnimalShogi.HenMovesAsWritten | AnimalShogi.CanMoveIntended |
