# Tic-tac-toe with a learned move table

This project is a Dafny model of the core of a small Python tic-tac-toe
program. The program plays against a human and learns from finished games.
The board is a 3x3 grid. Cells are numbered 1..9 row by row. A move is a
signed cell number: +k puts an X on cell k, -k puts an O there.

The model covers four parts.

- **Board canonicaliser** (`symmetry.dfy`, `codec.dfy`, `evaluate.dfy`,
  `classtable.dfy`).
  - A board is a 9-character string over `.XO`.
  - `flipIt` and `rotIt` are two fixed index permutations. `conjugates`
    lists the 8 images of a board under them.
  - `tttToB` decodes a base-3 number into a board.
  - `evalBoard` calls a board illegal when the counts of X and O are
    wrong or both players have a line. Otherwise it reports a win for X,
    a win for O, an ongoing game or a full board.
  - `list_all_eqv_classes` walks all 3^9 codes. It gives each new legal
    orbit the next id, 1, 2, … , and fills two lookup tables: board to
    id, and id to orbit. Codes are visited in ascending order. So the ids
    follow the least codes of the orbits, and each orbit's list starts with
    its least-code board. Class 1 is the orbit of the empty board.
  - `eqv_class_to_move` finds the cell where a member of a class differs
    from the last board looked up.
- **State tracker** (`state.dfy`, `board.dfy`).
  - A `State` holds a mutable 3x3 matrix of `-`, `x` and `o` and the list
    of empty cells.
  - `set` plays one move. `is_game_over` reports a winner, a draw or
    False.
  - `state_to_eqv_class` turns the grid into a table key (`x`→`X`,
    `o`→`O`, `-`→`.`), records it as `last_state` and looks it up.
  - The `Board` class of board.py does the same lookups for a given
    `State`.
- **Q-table learner** (`engine.dfy`).
  - `update_sequence` walks a list of (class id, cell) plies backwards. It
    adds a reward that starts at the given score and shrinks by 0.8 per
    ply.
  - `learn_from` replays a trace and rewards its plies after a win.
  - The learned branch of `next_turn` picks the available move with the
    least score, and the earliest such move on a tie.
- **Game bookkeeping and the trace file** (`ttt.dfy`).
  - `valid_move` demands alternating signs and an empty target cell.
  - `whose_move` names the next player from the sign of the last move.
  - `your_turn_computer` appends a move and plays it.
  - `GameDB` writes one line per game, the moves separated by `", "`, and
    reads the lines back.

The model keeps the program's quirks where they change behaviour.

- `learn_from` appends every ply to `seq_p1`, so `seq_p2` stays empty. The
  first mover's reward goes to every ply, the opponent's plies included.
- The table is written at row `item[0]`, which is the class id. It is read
  at row `eqv_cls - 1`.
- The move chosen is the one with the **least** score.
- `State.__init__` assigns a local variable instead of `available_moves`.
  A fresh `State` therefore keeps the class default `[1..9]`.
- `valid_move` reads the move 0 as the last cell, because Python reads
  index -1 as the last element.

Python exceptions become `Err` values of a `Result` type (`errors.dfy`):
`AssertionError` for a failing `assert`, `KeyError` for a missing dict
key, `IndexError` for an index past a list or table, and `ValueError` for
an `int()` that fails. The Python class-level dicts are shared by all
instances of their class. `State` has one pair (state.py:87-88) and `Board`
has another (board.py:79-80). Each pair becomes a `ClassTable` object, and
each `State`, `Board` and `GameEngine` is given a reference to one. Once
built, both pairs hold the same contents, because both run the same
enumeration. So the model may hand one table to both classes, or a
separate table to each.

## Model

| member | source | states |
|---|---|---|
| Symmetry.TransformsArePermutations | state.py:24-25 | `FLIP_XFRM` and `ROT_XFRM` are permutations of 0..8 |
| Symmetry.Xfrm | state.py:27-28 | transforming a 9-cell board gives a 9-cell board |
| Symmetry.FlipIt | state.py:30-31 | `flipIt`: the board read through `FLIP_XFRM`; `FlipCells` lists its cells and `FlipInvolution` shows it undoes itself |
| Symmetry.RotIt | state.py:33-34 | `rotIt`: the board read through `ROT_XFRM`; `RotCells` lists its cells and `RotOrderFour` shows four turns are the identity |
| Symmetry.FlipCells | state.py:30-31 | `flipIt` mirrors each row: the cells listed explicitly |
| Symmetry.RotCells | state.py:33-34 | `rotIt` is the quarter turn: the cells listed explicitly |
| Symmetry.FlipInvolution | state.py:30-31 | `flipIt` applied twice is the identity |
| Symmetry.RotOrderFour | board.py:37-38 | `rotIt` applied four times is the identity |
| Symmetry.FlipRotSwap | state.py:24-34 | flip after rotate equals three rotations after flip, so the 8 images form a group orbit |
| Symmetry.ConjugatesFrom | state.py:38-39 | each round of the loop appends `rotIt` of the entries two places back and keeps the prefix |
| Symmetry.Conjugates | state.py:36-40 | `conjugates(b)` has 8 entries: `b`, then `flipIt(b)`, then each entry is `rotIt` of the one two places before |
| Symmetry.ConjugatesListed | board.py:40-44 | the 8 conjugates are b, f, r(b), r(f), r²(b), r²(f), r³(b), r³(f) |
| Symmetry.OrbitOfRotation | state.py:36-40 | a rotated board has the same set of conjugates |
| Symmetry.OrbitOfFlip | state.py:36-40 | a flipped board has the same set of conjugates |
| Symmetry.OrbitClosed | state.py:36-40 | every conjugate of `b` has exactly the conjugates of `b` |
| Symmetry.OrbitSymmetric | state.py:36-40 | if `c` is a conjugate of `b` then `b` is a conjugate of `c` |
| Codec.Pow3 | state.py:187 | powers of three are positive |
| Codec.DecodeDigits | state.py:44-46 | `k` base-3 digits, each one of `.XO` |
| Codec.TttToB | state.py:42-47 | `tttToB(n)` is a 9-character board over `.XO` |
| Codec.Encode | board.py:46-51 | the reading of a `.XO` string as a base-3 number is below 3^length |
| Codec.EncodeOfDecode | state.py:42-47 | decoding `n < 3^k` into `k` digits and reading them back gives `n` |
| Codec.DecodeOfEncode | state.py:42-47 | every `.XO` string is the decoding of its own number, most significant digit first |
| Codec.TttToBInjective | state.py:42-47 | for codes below 3^9, `tttToB(n) == tttToB(m)` exactly when `n == m` |
| Codec.EveryBoardHasCode | board.py:46-51 | every 9-character `.XO` board is `tttToB` of a code below 3^9 |
| Evaluate.CountPositive | state.py:50 | a mark occurs in a board exactly when its count is positive |
| Evaluate.Count | state.py:50 | `Counter(b)[m]`, the number of cells holding `m`; `CountPositive`, `CountListed` and `CountSymmetric` state its meaning |
| Evaluate.EvalBoard | state.py:49-72 | `evalBoard` with the same tests in the same order; `EvalBoardOutcomes` characterises every outcome and `EvalBoardSymmetric` its invariance |
| Evaluate.HasLineCases | state.py:54-59 | having a line means filling one of the 3 rows, 3 columns or 2 diagonals, listed by cell |
| Evaluate.WinsIffLine | state.py:54-59 | the regex test of a mark holds exactly when the mark fills one of the 8 lines |
| Evaluate.HasLineSymmetric | state.py:57-59 | having a line is unchanged by rotating or flipping the board |
| Evaluate.CountStep | state.py:50 | counting a prefix one cell longer adds one exactly when the new cell is the mark |
| Evaluate.CountListed | board.py:54 | a count is the sum over the 9 cells |
| Evaluate.CountSymmetric | state.py:50 | counts are unchanged by rotating or flipping the board |
| Evaluate.EvalBoardOutcomes | state.py:49-72 | illegal exactly when #X−#O ∉ {0,1}, both have a line, or a line's owner has the wrong count; X wins exactly when only X has a line and #X = #O+1; O exactly when only O has a line and #X = #O; otherwise ongoing exactly when a '.' remains, else full |
| Evaluate.EvalBoardSymmetric | board.py:53-76 | `evalBoard` gives the same outcome on a rotated or flipped board |
| Evaluate.EvalBoardOnOrbit | state.py:49-72 | every conjugate of a board has the board's outcome |
| ClassTables.MarkBoardSymmetric | state.py:191 | rotations and flips of a `.XO` board are `.XO` boards |
| ClassTables.MarkBoardOnOrbit | state.py:191 | every conjugate of a `.XO` board is a `.XO` board |
| ClassTables.Orbit | state.py:199 | the set `history.update(conj)` adds is exactly the conjugates |
| ClassTables.OrbitOutside | state.py:189 | a board not yet seen has no conjugate seen, as the seen set is a union of orbits |
| ClassTables.AssignAll | state.py:195-196 | after the update loop, every conjugate maps to the new id and every other key keeps its id |
| ClassTables.StepKeepsPartial | state.py:187-199 | one loop round keeps ids 1..count, each naming a legal orbit, both tables agreeing, and exactly the legal seen boards having an id |
| ClassTables.StepShape | state.py:189-199 | a new legal board adds its orbit under id count+1; a new illegal board only grows the seen set |
| ClassTables.Step | state.py:188-199 | one round of `list_all_eqv_classes` on the model's tables; `StepKeepsPartial` and `StepKeepsOrder` state what it preserves |
| ClassTables.StepGrows | state.py:199 | a round forgets no seen board and adds the visited one |
| ClassTables.CodesSeenGrow | state.py:187-188 | after visiting code `m`, every code up to `m` has been seen |
| ClassTables.PartialComplete | state.py:183-199 | after all 3^9 codes, the tables hold exactly the legal `.XO` boards, with ids 1..count and no gaps |
| ClassTables.FirstClassIsEmptyBoard | state.py:187-198 | in the built tables the empty board has id 1, and class 1 is its conjugate list, headed by the empty board |
| ClassTables.CodeZeroIsEmpty | state.py:42-47 | the only `.XO` board of code 0 is the empty board |
| ClassTables.EmptyBoardLegal | state.py:49-72 | the empty board is a legal `.XO` board |
| ClassTables.EmptyBoardCode | state.py:187-188 | the first code visited, 0, decodes to the empty board |
| ClassTables.SeenClosed | state.py:199 | every board seen so far has its whole orbit seen |
| ClassTables.UnseenIsLeast | state.py:187-191 | the board of code `m`, unseen after every smaller code was seen, has the least code of its orbit |
| ClassTables.AddClassKeepsAscending | state.py:193-198 | a class numbered count+1 and headed by code `m`, above every earlier head, keeps heads ascending with ids |
| ClassTables.StepClasses | state.py:189-198 | a round adds the class `conj` under id count+1 exactly when it visits an unseen legal board |
| ClassTables.NewStepLeastFirst | state.py:191-198 | the class a round adds is headed by the least code of its orbit, and earlier lists keep their heads |
| ClassTables.NewStepAscending | state.py:193-198 | the class a round adds gets a larger id and a larger head than every earlier class |
| ClassTables.NewStepBelow | state.py:187-198 | after the round for code `m`, every head is at most `m` |
| ClassTables.StepKeepsOrder | state.py:187-199 | each round keeps the ids in the order of their orbits' least codes, each list headed by that code |
| ClassTables.SkipOrbit | state.py:189-199 | skipping an illegal orbit keeps the invariant |
| ClassTables.AddOrbitNumbered | state.py:193 | the next id is count+1 and names a legal orbit |
| ClassTables.AddOrbitAgree | state.py:195-198 | the two dict updates keep the tables in agreement |
| ClassTables.NewlySeen | state.py:199 | a newly seen board has an id exactly when it is legal |
| ClassTables.StillSeen | state.py:195-199 | a board seen before keeps "has an id exactly when legal" |
| ClassTables.AddOrbitSeen | state.py:195-199 | after a new class the seen boards are a union of orbits, and the ones with ids are exactly the legal ones |
| ClassTables.AddOrbit | state.py:192-199 | registering a legal orbit as class count+1 keeps the invariant |
| ClassTables.NewClassAgrees | state.py:195-198 | the tables agree after a new class |
| ClassTables.NewClassSeen | state.py:195-199 | the seen-set property holds after a new class |
| ClassTables.MemberHasClass | state.py:195-198 | every board listed under an id maps back to that id |
| ClassTables.OrbitOfMember | state.py:191 | the orbit of any member of a class lies in the class |
| ClassTables.OrbitSharesClass | board.py:94-101 | in the finished table, all conjugates of a board with an id share that id |
| ClassTables.ClassIsOneOrbit | state.py:191-198 | two boards with the same id are conjugates of each other |
| ClassTables.MoveFromMembers | state.py:214-219 | the 1-based cell where the FIRST member in list order that is one cell apart from `last` differs from it (and agrees elsewhere); none exactly when no member is one cell apart |
| ClassTables.FirstDiff | state.py:217-219 | the cell where two boards one cell apart differ, equal elsewhere |
| ClassTables.OneCellApart | state.py:215-216 | the `len(diff) == 2` test, read as the two boards differing in exactly one cell (see Left out) |
| ClassTables.ClassTable.constructor | state.py:87-88 | the shared dicts start empty |
| ClassTables.ClassTable.ListAllEqvClasses | state.py:183-199 | the 3^9 loop leaves ids 1..n, each a legal orbit, the two tables agreeing, and exactly the legal `.XO` boards having an id; each id's list starts with the least code of its orbit, and ids ascend with those least codes |
| ClassTables.ClassTable.VisitCode | state.py:188-199 | one round: `legal` is `evalBoard(b)` being truthy, and the new tables are `Step` of the old |
| ClassTables.ClassTable.RegisterClass | state.py:195-198 | each conjugate is mapped to the id, and the id to the conjugate list |
| ClassTables.ClassTable.ClassMove | state.py:209-220 | KeyError exactly for an unknown id; the failing assertion exactly when the id is known and no member is one cell apart from `last`; otherwise the cell 1..9 where the first such member in list order differs from `last` |
| ClassTables.ClassTable.EqvClassToMove | state.py:209-220 | the two loops give `ClassMove` |
| StateTracker.MoveToIndexCell | state.py:156-169 | a move in 1..9 maps to (i, j) in the grid with 3i+j+1 = \|move\| |
| StateTracker.MoveToIndexOutside | state.py:163-169 | a move of 10 or more gives a row past the grid; the move 0 gives (-1, 2) |
| StateTracker.MoveToIndex | state.py:156-169 | `move_to_index` on `abs(move)` with its `j == -1` correction; `MoveToIndexCell` and `MoveToIndexOutside` state where each move lands |
| StateTracker.RowLine | state.py:122-125 | the scan of row i is the test of line i |
| StateTracker.ColumnLine | state.py:126-129 | the scan of column i is the test of line 3+i |
| StateTracker.DiagonalLines | state.py:131-134 | the two diagonal tests return the centre mark |
| StateTracker.FirstWinner | state.py:121-134 | a found mark is not '-' and completes a line from k on; none exactly when no line from k on is filled |
| StateTracker.FirstWinnerIsFirst | state.py:121-134 | the mark returned is that of the first filled line in scan order |
| StateTracker.GameOverMeaning | state.py:112-145 | a winner has a line; not over exactly when no mark has a line and a '-' remains; a draw exactly when no line and no '-' |
| StateTracker.GameOverOf | state.py:112-145 | `is_game_over`: the first line scanned, else draw or not over; `GameOverMeaning` characterises each status |
| StateTracker.FreeUpToMeaning | state.py:148-154 | the positions collected up to n are exactly the empty cells among 1..n, ascending |
| StateTracker.FreeCellsOfEmpty | state.py:86 | the empty grid has available moves [1..9] |
| StateTracker.FreeCellsMeaning | state.py:147-154 | the available moves are exactly the empty cells 1..9, ascending |
| StateTracker.FreeCells | state.py:147-154 | `reconstruct_available_moves` as a list; `FreeCellsMeaning` shows it is exactly the empty cells, ascending |
| StateTracker.TableKey | state.py:202-205 | the key has one character per cell, mapped `x`→`X`, `o`→`O`, `-`→`.` |
| StateTracker.GridUpdate | state.py:175-180 | writing a mark keeps a grid over `-`, `x`, `o` |
| StateTracker.TableKeyOfGrid | state.py:202-205 | the key of a grid is a `.XO` board, and two grids have the same key exactly when they are equal |
| StateTracker.ClassOfGrid | state.py:201-207 | in the built table a grid's key has an id exactly when it is legal, and its conjugates share the id |
| StateTracker.State.Cells | state.py:202 | the row-major cells of the matrix |
| StateTracker.State.constructor | state.py:91-93 | an empty grid, with the class default [1..9] as available moves |
| StateTracker.State.ListAllEqvClasses | state.py:183-199 | fills the shared tables: every legal `.XO` board and nothing else has an id, ids 1..n numbered in order of their orbits' least codes, each list headed by that least-code board |
| StateTracker.State.IsGameOver | state.py:112-145 | the scan returns the status `GameOverMeaning` characterises |
| StateTracker.State.ReconstructAvailableMoves | state.py:147-154 | the list becomes the ascending empty cells; the grid is unchanged |
| StateTracker.State.Put | state.py:178-180 | one matrix cell is written, the other eight unchanged |
| StateTracker.State.Set | state.py:171-181 | an AssertionError and no change for \|move\| outside 1..9; otherwise cell \|move\| gets `x` (positive) or `o`, whether or not it was empty, the rest unchanged, and the moves are rebuilt |
| StateTracker.State.StateToEqvClass | state.py:201-207 | `last_state` is the grid's key; the result is its id or KeyError, and once the table is built the lookup succeeds exactly for legal grids |
| StateTracker.State.EqvClassToMove | state.py:209-220 | `ClassMove` against `last_state` |
| Boards.Board.constructor | board.py:83-84 | construction fills the shared tables: exactly the legal `.XO` boards have ids, numbered in order of their orbits' least codes, each list headed by that least-code board |
| Boards.Board.ListAllEqvClasses | board.py:86-102 | the tables are built: exactly the legal `.XO` boards have ids, numbered in order of their orbits' least codes, each list headed by that least-code board |
| Boards.Board.StateToEqvClass | board.py:104-110 | `last_state` is the key of the given state's grid; its id or KeyError, succeeding exactly for legal grids once built |
| Boards.Board.EqvClassToMove | board.py:112-123 | `ClassMove` against `last_state` |
| Engine.WeightShift | game_engine.py:43-47 | the weight k plies back is the weight k−1 back of score·0.8 |
| Engine.WeightPositive | game_engine.py:43-47 | a positive score keeps a positive weight at every depth |
| Engine.Applied | game_engine.py:45-46 | the plies updated before a failure are the longest in-table suffix, and the ply before it is outside the table |
| Engine.GainSnoc | game_engine.py:45-47 | adding a ply at the end gives it the full score and multiplies earlier gains by 0.8 |
| Engine.GainPositive | game_engine.py:45-47 | with a positive score a cell gains, never loses, and gains exactly when a ply names it |
| Engine.GainUntouched | game_engine.py:46 | a cell no ply names gains nothing |
| Engine.GainFront | game_engine.py:45-47 | a ply one further back adds its weight to its own cell only |
| Engine.Gain | game_engine.py:42-47 | what `update_sequence` adds to one cell; `GainSnoc`, `GainPositive`, `GainUntouched` and `GainFront` state its meaning |
| Engine.Replay | game_engine.py:58-65 | a successful replay leaves a 9-cell grid |
| Engine.ReplayPlies | game_engine.py:58-65 | one ply per move, in order: the ply of move k is (the id of the grid reached after moves 0..k, \|move k\|), and that grid's key is in the table |
| Engine.PlacedSnoc | game_engine.py:58-59 | replaying one more move writes its mark last |
| Engine.ReplayFirstMove | game_engine.py:59 | a replay that gets past the first move found it in 1..9 |
| Engine.NormalizedFirstMover | game_engine.py:55-56 | after normalising the first move is not negative, and all moves kept or all flipped their sign |
| Engine.Normalized | game_engine.py:55-56 | the trace with every sign flipped when it starts with a negative move; `NormalizedFirstMover` states its meaning |
| Engine.Reward | game_engine.py:66-76 | on a normalised trace the first mover is `x`: +100 when `x` wins, −100 when `o` wins, nothing otherwise |
| Engine.Lesson | game_engine.py:49-76 | the plies `learn_from` records and the reward they get, or the error raised first; `LearnFromWin` states what is learnt |
| Engine.LearnFromWin | game_engine.py:66-76 | a draw or unfinished game changes nothing; a win by `x` lowers no cell and raises exactly the cells the applied plies name |
| Engine.FreeCellsAreCells | game_engine.py:89 | the available moves name cells 1..9 |
| Engine.FirstMinAt | game_engine.py:90-91 | the position chosen is within the move list |
| Engine.FirstMin | game_engine.py:89-91 | the chosen move is one of the available moves |
| Engine.FirstMinIsLeast | game_engine.py:89-91 | no available move scores less than the chosen one |
| Engine.FirstMinIsEarliest | game_engine.py:90-91 | every move listed before the chosen one scores strictly more (the sort is stable) |
| Engine.GameEngine.constructor | game_engine.py:32-38 | the tables are built (exactly the legal `.XO` boards have ids, numbered in order of their orbits' least codes, each list headed by that board), and `ql_table` is num_states × 9 zeros, num_states being the number of classes |
| Engine.GameEngine.LearnTraces | game_engine.py:39-40 | the traces are learned in order: the result is the first failure, and each cell gains the total of what the traces learned |
| Engine.GameEngine.AddTo | game_engine.py:46 | one cell gains `v`, every other cell unchanged |
| Engine.GameEngine.UpdateSequence | game_engine.py:42-47 | IndexError exactly when a ply is outside the table; each cell gains the decayed rewards of the plies walked before that |
| Engine.GameEngine.PlayTrace | game_engine.py:53-65 | the loop's plies and grid are `Replay` of the trace on an empty grid |
| Engine.GameEngine.LearnFrom | game_engine.py:49-76 | the result is `LearnResult` and each cell gains `LearnGain` |
| Engine.GameEngine.RewardPlies | game_engine.py:68-76 | an `x` win adds +100-decayed and an `o` win −100-decayed to `seq_p1`; otherwise the table is unchanged |
| Engine.GameEngine.UpdatePair | game_engine.py:70-71 | the two `update_sequence` calls with opposite scores, the second on the empty `seq_p2` |
| Engine.GameEngine.UpdateNothing | game_engine.py:71 | updating with no plies leaves the table unchanged |
| Engine.GameEngine.DefiniteWinningMove | game_engine.py:78-83 | never finds a move |
| Engine.GameEngine.Row | game_engine.py:88 | the 9 scores of one table row |
| Engine.GameEngine.NextTurnRL | game_engine.py:85-91 | looks the state up, then returns the earliest least-scoring available move from row id−1, or the lookup or index error; the grid and the available moves are unchanged |
| Engine.GameEngine.RLChoice | game_engine.py:85-91 | the learned choice for a looked-up id: row `eqv_cls - 1` with Python's negative-index wrap-around, IndexError past the table or with no move, else the earliest least-scored move; `FirstMinIsLeast` and `FirstMinIsEarliest` state its meaning |
| Engine.AppliedFrom | game_engine.py:45-47 | where the walk stops: everything exactly when all plies are in the table |
| Game.ValidMoveMeaning | ttt.py:84-94 | for a move in 1..9, valid exactly when the signs alternate and the cell is empty; a move of 10 or more is refused or an IndexError; 0 reads cell 9 |
| Game.ValidMoveOf | ttt.py:84-94 | `valid_move` on a move list and grid; `ValidMoveMeaning` and `ValidMoveIsFresh` state its meaning |
| Game.WhoseMoveOf | ttt.py:67-82 | `whose_move` on a move list and grid; `NextPlayerMovesNext` ties it to `valid_move` |
| Game.NextPlayerMovesNext | ttt.py:78-89 | a move that `valid_move` accepts is positive exactly when `whose_move` says `x` |
| Game.BoardOf | ttt.py:97-100 | the grid a list of moves produces has 9 cells |
| Game.PlacedIsBoardOf | ttt.py:97-100 | the learner's replay of a move list from the empty grid gives the same grid as the game does |
| Game.BoardOfMarks | ttt.py:97-100 | a cell is marked exactly when some move names it |
| Game.ValidMoveIsFresh | ttt.py:84-94 | an accepted move alternates in sign and names a cell no earlier move named |
| Game.WellPlayedSnoc | ttt.py:97-100 | appending an accepted move keeps the moves alternating and on distinct cells |
| Game.BoardOfSnoc | ttt.py:99-100 | appending a move writes its mark at its cell |
| Game.WellPlayedExtends | ttt.py:97-100 | an accepted move keeps the moves well played and the grid in step with them |
| Game.TicTacToe.constructor | ttt.py:63-65 | no moves and an empty grid, consistent |
| Game.TicTacToe.WhoseMove | ttt.py:67-82 | Finished once the game is over, the prompt for no moves, `x` after a negative last move, `o` after a positive one |
| Game.TicTacToe.ValidMove | ttt.py:84-94 | the result `ValidMoveMeaning` characterises |
| Game.TicTacToe.YourTurnComputer | ttt.py:97-100 | a refused move fails and changes nothing; an accepted move is appended and played, keeping the move list and the grid consistent; `last_state` is unchanged |
| Game.IntToStringShape | ttt.py:40 | an int's text is non-empty, ends in a digit, starts with '-' or a digit, and has no comma or newline |
| Game.DigitsShape | ttt.py:40 | the decimal digits of a natural are digits |
| Game.Digits | ttt.py:40 | a non-empty string of digits |
| Game.DigitsRoundTrip | ttt.py:35 | reading the digits of `n` gives `n` |
| Game.StripOfInt | ttt.py:35 | stripping whitespace leaves an int's text, with or without the newline, as it is |
| Game.DigitsParse | ttt.py:35 | parsing the digits of `n` gives `n` |
| Game.SignedOfInt | ttt.py:35 | parsing the signed text of `n` gives `n` |
| Game.NegativeDigits | ttt.py:35 | '-' and digits parse to the negated value |
| Game.IntRoundTrip | ttt.py:35 | `int(str(n))` is `n`, with or without the newline |
| Game.ParseInt | ttt.py:35 | `int()` of a field: strip whitespace, optional sign, decimal digits, else a ValueError; `IntRoundTrip` shows it inverts `str` |
| Game.SplitFrom | ttt.py:35 | splitting yields at least one field |
| Game.SplitField | ttt.py:35 | a field without comma followed by ", " splits off as one field |
| Game.SplitFirstField | ttt.py:35 | `split(", ")` of `a, rest` is `a` then the split of `rest` |
| Game.SplitLastField | ttt.py:35 | a text without comma is one field |
| Game.Split | ttt.py:35 | `split(", ")`; `SplitFirstField`, `SplitLastField` and `SplitStored` state its meaning |
| Game.JoinHasNoNewline | ttt.py:40 | the stored text of a game has no newline |
| Game.Join | ttt.py:40 | the moves' texts joined by `", "`; `StoredLineRoundTrip` shows a line it makes reads back as the moves |
| Game.StoredLine | ttt.py:40-41 | the joined moves and a newline, as `store` writes them; `StoreThenRead` shows the file reads back as the games |
| Game.StoredFieldsCons | ttt.py:35-41 | the fields of a stored line split off one move at a time |
| Game.StoredLineCons | ttt.py:40-41 | a stored line is the first move's text, ", ", then the rest |
| Game.SplitStored | ttt.py:35-41 | splitting a stored line gives the moves' texts, the last with its newline |
| Game.ParsedFields | ttt.py:35 | `int` applied to each field |
| Game.AllOkOfValues | ttt.py:35 | `list(map(int, …))` of fields that all parse gives their values |
| Game.ParseStoredFields | ttt.py:35-41 | the fields of a stored line parse back to the moves |
| Game.StoredFieldRoundTrip | ttt.py:35-41 | each stored field parses to its move |
| Game.StoredLineRoundTrip | ttt.py:35-41 | a non-empty game's stored line reads back as the same moves; an empty game's line fails with ValueError |
| Game.LinesOfLine | ttt.py:34 | a text without newline followed by "\n" is read as one line ending in "\n" |
| Game.StoredTextCons | ttt.py:38-41 | a file of stored games is the first line, "\n", then the rest |
| Game.StoredLines | ttt.py:38-41 | the stored line of each game |
| Game.StoredLinesCons | ttt.py:38-41 | the stored lines split off one game at a time |
| Game.LinesOfStored | ttt.py:34-41 | reading a file of stored games line by line gives their stored lines |
| Game.ParsedLines | ttt.py:34-35 | each line parsed |
| Game.CollectStep | ttt.py:34-36 | the first failing line ends the read; a good line is appended before the rest |
| Game.CollectOfValues | ttt.py:34-36 | when every line parses, all games are collected and nothing fails |
| Game.ParseStoredLines | ttt.py:34-41 | the stored lines of non-empty games parse to those games |
| Game.StoreThenRead | ttt.py:32-41 | storing non-empty games and reading the file back gives the same games |
| Game.GameDB.constructor | ttt.py:29-30 | the file text and the list of games read |
| Game.GameDB.Store | ttt.py:38-41 | the file grows by the game's stored line; `db` unchanged |
| Game.GameDB.ReadAllGames | ttt.py:32-36 | `db` grows by the games of the lines before the first bad one; ValueError exactly when a line fails |
| Game.GameDB.AppendParsed | ttt.py:34-36 | the append loop over parsed lines gives `Collect` of them |

## Left out

- Terminal output is not modelled: `print_board_state`, every `print`, and the colouring.
- The `input()` prompts and the driver loops are not modelled: `opponent_play_now`, `interactive_play` and `games_in_loop`. `whose_move` returns `AskUser` where it would prompt.
- utils.py, an argument parser, is not part of this model.
- The random branch of `next_turn` is not modelled, because it calls a random number generator. `NextTurnRL` covers the learned branch.
- The GameDB file is a `contents` string, so opening, appending and closing are not modelled. Python's universal-newline translation of `\r` is not modelled either.
- Game.ParseInt: Python's `int()` also accepts underscores between digits, non-ASCII digits and non-ASCII whitespace. The model accepts ASCII digits, an optional sign, and the ASCII whitespace `int()` strips: space, `\t`, `\n`, `\v`, `\f`, `\r` and U+001C to U+001F.
- ClassTables.OneCellApart: the test `len(diff) == 2` over `difflib.ndiff` is read as "the two boards differ in exactly one cell". For some boards that are shifts of each other, the alignment reports two changes, and those cases are not captured.
- Engine.GameEngine.UpdateSequence: numpy `float64` rounding is not modelled. Scores are `real`, and 0.8 is exact.
- StateTracker.MoveToIndex: `int(move/3)` goes through a float in Python. The model uses exact integer division. The two agree for every move below 2^53. Above that they can differ, but both give a row past the grid, so `valid_move` raises IndexError either way. A typed move too large for a float raises OverflowError in Python, and the model gives IndexError for it.
- Boards are 9-character strings (`|b| == 9` is required). Python would also accept other lengths, or index errors on them, and that is not modelled.
- ClassTables.ClassTable.ListAllEqvClasses: Python merges into the existing dicts. The model assigns them fresh. The two agree when the dicts start empty or were filled by the same enumeration.
- The concrete number of classes is not computed. The contracts are stated over the enumerated prefix and the finished tables.
- Engine.GameEngine.constructor: `__init__` is split into this constructor, which builds the tables and the zero table, and `LearnTraces`, which runs the learning loop. `args` is not modelled.
- The shared class-level attributes `GameDB.db` and `TicTacToe.moves` / `state` are per-object fields.
