/** The `GameEngine` of game_engine.py: a table of scores, one row per class
    of positions and one column per cell, learned from recorded games by
    handing each ply of the first mover a reward that shrinks by 0.8 per ply
    counted back from the end, and read back to pick a move. */
module Engine {
  import opened Errors
  import opened Symmetry
  import opened Codec
  import opened ClassTables
  import opened StateTracker

  /** One recorded ply: the class id of the grid after the move, and the
      1-based cell of the move. */
  type Ply = (int, int)

  /** The factor `decay` of `update_sequence`. */
  const Decay: real := 0.8

  /** `score * 0.8^k`: the reward `k` steps back from the last item. */
  function Weight(score: real, k: nat): real {
    if k == 0 then score else Weight(score, k - 1) * Decay
  }

  /** Decaying once more is decaying a reward that starts 0.8 times lower. */
  lemma {:induction false} WeightShift(score: real, k: nat)
    ensures Weight(score, k + 1) == Weight(score * Decay, k)
  {
    if k > 0 {
      WeightShift(score, k - 1);
    }
  }

  lemma {:induction false} WeightPositive(score: real, k: nat)
    requires score > 0.0
    ensures Weight(score, k) > 0.0
  {
    if k > 0 {
      WeightPositive(score, k - 1);
    }
  }

  /** The position a Python list, or a numpy axis, of length `n` reads for
      index `i`: negative indices count from the end; anything outside
      [-n, n) is an IndexError (None). */
  function PyIndex(i: int, n: nat): Option<nat> {
    if 0 <= i < n then Some(i)
    else if -(n as int) <= i < 0 then Some(i + n)
    else None
  }

  /** The cell `ql_table[item[0], item[1] - 1]` of a table with `rows` rows
      and 9 columns, or None when either index is out of range. */
  function CellOf(p: Ply, rows: nat): Option<(nat, nat)> {
    match (PyIndex(p.0, rows), PyIndex(p.1 - 1, 9))
    case (Some(i), Some(j)) => Some((i, j))
    case _ => None
  }

  /** Every item names a cell of the table. */
  predicate InTable(s: seq<Ply>, rows: nat) {
    forall k :: 0 <= k < |s| ==> CellOf(s[k], rows).Some?
  }

  /** What the items of `s` add to cell (i, j): the k-th item counts
      `score * 0.8^(|s| - 1 - k)`, so the last one counts `score` itself. */
  function Gain(s: seq<Ply>, score: real, rows: nat, i: nat, j: nat): real {
    if s == [] then 0.0
    else (if CellOf(s[0], rows) == Some((i, j)) then Weight(score, |s| - 1) else 0.0) +
         Gain(s[1..], score, rows, i, j)
  }

  /** The items the reversed loop of `update_sequence` gets through before
      an index error: the longest suffix of `s` inside the table. */
  function Applied(s: seq<Ply>, rows: nat): (r: seq<Ply>)
    ensures |r| <= |s| && r == s[|s| - |r|..] && InTable(r, rows)
    ensures |r| < |s| ==> CellOf(s[|s| - |r| - 1], rows).None?
  {
    if s == [] || CellOf(s[|s| - 1], rows).None? then []
    else
      var init := Applied(s[..|s| - 1], rows);
      SuffixSnoc(s, |init|);
      InTableSnoc(init, s[|s| - 1], rows);
      init + [s[|s| - 1]]
  }

  lemma SuffixSnoc<T>(s: seq<T>, n: nat)
    requires n < |s|
    ensures s[..|s| - 1][|s| - 1 - n..] + [s[|s| - 1]] == s[|s| - 1 - n..]
  {
  }

  lemma InTableSnoc(s: seq<Ply>, x: Ply, rows: nat)
    requires InTable(s, rows) && CellOf(x, rows).Some?
    ensures InTable(s + [x], rows)
  {
    assert forall k :: 0 <= k < |s| ==> (s + [x])[k] == s[k];
  }

  /** Appending an item: the new last item counts the full score and every
      earlier one counts 0.8 times what it counted before. */
  lemma {:induction false} GainSnoc(s: seq<Ply>, x: Ply, score: real, rows: nat, i: nat, j: nat)
    ensures Gain(s + [x], score, rows, i, j) ==
            Gain(s, score * Decay, rows, i, j) + (if CellOf(x, rows) == Some((i, j)) then score else 0.0)
    decreases |s|
  {
    if s != [] {
      assert (s + [x])[1..] == s[1..] + [x];
      GainSnoc(s[1..], x, score, rows, i, j);
      WeightShift(score, |s| - 1);
    }
  }

  /** A positive reward only raises scores, and it raises exactly the cells
      some item names; every other cell keeps its score. */
  lemma {:induction false} GainPositive(s: seq<Ply>, score: real, rows: nat, i: nat, j: nat)
    requires score > 0.0
    ensures Gain(s, score, rows, i, j) >= 0.0
    ensures Gain(s, score, rows, i, j) > 0.0 <==> exists k :: 0 <= k < |s| && CellOf(s[k], rows) == Some((i, j))
    decreases |s|
  {
    if s != [] {
      GainPositive(s[1..], score, rows, i, j);
      WeightPositive(score, |s| - 1);
      if exists k :: 0 <= k < |s[1..]| && CellOf(s[1..][k], rows) == Some((i, j)) {
        var k :| 0 <= k < |s[1..]| && CellOf(s[1..][k], rows) == Some((i, j));
        assert CellOf(s[k + 1], rows) == Some((i, j));
      }
      if exists k :: 0 <= k < |s| && CellOf(s[k], rows) == Some((i, j)) {
        var k :| 0 <= k < |s| && CellOf(s[k], rows) == Some((i, j));
        if k > 0 {
          assert CellOf(s[1..][k - 1], rows) == Some((i, j));
        }
      }
    }
  }

  /** A cell no item names gains nothing, whatever the reward. */
  lemma {:induction false} GainUntouched(s: seq<Ply>, score: real, rows: nat, i: nat, j: nat)
    requires forall k :: 0 <= k < |s| ==> CellOf(s[k], rows) != Some((i, j))
    ensures Gain(s, score, rows, i, j) == 0.0
    decreases |s|
  {
    if s != [] {
      GainUntouched(s[1..], score, rows, i, j);
    }
  }

  /** Taking one more item from the front, as the reversed loop does. */
  lemma GainFront(s: seq<Ply>, k: nat, score: real, rows: nat)
    requires 0 < k <= |s|
    ensures forall i: nat, j: nat :: (Gain(s[k - 1..], score, rows, i, j) ==
      (if CellOf(s[k - 1], rows) == Some((i, j)) then Weight(score, |s| - k) else 0.0) +
      Gain(s[k..], score, rows, i, j))
  {
    assert s[k - 1..][1..] == s[k..];
  }

  /** A grid and the plies recorded while replaying a game. */
  datatype Played = Played(cells: seq<char>, plies: seq<Ply>)

  /** The loop of `learn_from` from grid `c`: `set` each move, look the grid
      up, record (class, |move|); a bad move fails `set`'s assertion and an
      unknown grid fails the lookup. */
  function Replay(c: seq<char>, moves: seq<int>, s2c: map<Board, int>, plies: seq<Ply>): (r: Result<Played>)
    requires |c| == 9
    ensures r.Ok? ==> |r.value.cells| == 9
    decreases |moves|
  {
    if moves == [] then Ok(Played(c, plies))
    else
      var m := moves[0];
      if !(1 <= Abs(m) <= 9) then Err(AssertionError)
      else
        var next := c[Abs(m) - 1 := MarkOf(m)];
        var key := TableKey(next);
        if key !in s2c then Err(KeyError)
        else Replay(next, moves[1..], s2c, plies + [(s2c[key], Abs(m))])
  }

  /** The grid `c` after the mark of each move is written in turn; a move
      outside 1..9 writes nothing. */
  function Placed(c: seq<char>, moves: seq<int>): (r: seq<char>)
    requires |c| == 9
    ensures |r| == 9
    decreases |moves|
  {
    if moves == [] then c
    else
      var m := moves[0];
      Placed(if 1 <= Abs(m) <= 9 then c[Abs(m) - 1 := MarkOf(m)] else c, moves[1..])
  }

  /** Writing one more move at the end writes its mark last. */
  lemma {:induction false} PlacedSnoc(c: seq<char>, moves: seq<int>, m: int)
    requires |c| == 9
    ensures Placed(c, moves + [m]) ==
            if 1 <= Abs(m) <= 9 then Placed(c, moves)[Abs(m) - 1 := MarkOf(m)] else Placed(c, moves)
    decreases |moves|
  {
    if moves == [] {
      assert ([m])[1..] == [];
    } else {
      var h := moves[0];
      assert (moves + [m])[1..] == moves[1..] + [m];
      PlacedSnoc(if 1 <= Abs(h) <= 9 then c[Abs(h) - 1 := MarkOf(h)] else c, moves[1..], m);
    }
  }

  /** A replay records one ply per move, after the plies it started with:
      the cell of the move, and the class id of the grid reached by it. */
  lemma {:induction false} ReplayPlies(c: seq<char>, moves: seq<int>, s2c: map<Board, int>, plies: seq<Ply>)
    requires |c| == 9 && Replay(c, moves, s2c, plies).Ok?
    ensures var p := Replay(c, moves, s2c, plies).value.plies;
            |p| == |plies| + |moves| && p[..|plies|] == plies &&
            forall k :: 0 <= k < |moves| ==>
              p[|plies| + k].1 == Abs(moves[k]) &&
              TableKey(Placed(c, moves[..k + 1])) in s2c && p[|plies| + k].0 == s2c[TableKey(Placed(c, moves[..k + 1]))]
    decreases |moves|
  {
    if moves != [] {
      var m := moves[0];
      var next := c[Abs(m) - 1 := MarkOf(m)];
      var more := plies + [(s2c[TableKey(next)], Abs(m))];
      ReplayPlies(next, moves[1..], s2c, more);
      var p := Replay(c, moves, s2c, plies).value.plies;
      assert p[..|more|][..|plies|] == p[..|plies|];
      forall k | 0 <= k < |moves|
        ensures p[|plies| + k].1 == Abs(moves[k]) &&
                TableKey(Placed(c, moves[..k + 1])) in s2c && p[|plies| + k].0 == s2c[TableKey(Placed(c, moves[..k + 1]))]
      {
        assert moves[..k + 1][1..] == moves[1..][..k];
        if k > 0 {
          assert moves[1..][k - 1] == moves[k];
        }
      }
    }
  }

  /** A replay that gets past the first move found it in 1..9. */
  lemma ReplayFirstMove(c: seq<char>, moves: seq<int>, s2c: map<Board, int>, plies: seq<Ply>)
    requires |c| == 9 && moves != [] && Replay(c, moves, s2c, plies).Ok?
    ensures 1 <= Abs(moves[0]) <= 9
  {
  }

  /** `trace = [-t for t in trace]` when the first move is negative. */
  function Normalized(trace: seq<int>): seq<int>
    requires trace != []
  {
    if trace[0] < 0 then seq(|trace|, k requires 0 <= k < |trace| => -trace[k]) else trace
  }

  /** The first mover is written as 'x': after normalising, the first move is
      not negative, and every move kept or lost its sign together. */
  lemma NormalizedFirstMover(trace: seq<int>)
    requires trace != []
    ensures |Normalized(trace)| == |trace| && Normalized(trace)[0] >= 0
    ensures (forall k :: 0 <= k < |trace| ==> Normalized(trace)[k] == trace[k]) ||
            (forall k :: 0 <= k < |trace| ==> Normalized(trace)[k] == -trace[k])
    ensures trace[0] != 0 ==> Normalized(trace)[0] > 0
  {
  }

  /** The reward of the first mover's plies: +100 when 'x' wins, -100 when
      'o' wins, none otherwise. */
  function Reward(status: GameStatus): real {
    if status == Winner('x') then 100.0 else if status == Winner('o') then -100.0 else 0.0
  }

  /** What `learn_from(trace)` learns: the plies and their reward, or the
      error it raises before the table is touched. */
  function Lesson(trace: seq<int>, s2c: map<Board, int>): Result<(seq<Ply>, real)> {
    if trace == [] then Err(IndexError)
    else match Replay("---------", Normalized(trace), s2c, [])
      case Err(e) => Err(e)
      case Ok(p) => Ok((p.plies, Reward(GameOverOf(p.cells))))
  }

  /** How `learn_from(trace)` ends. */
  function LearnResult(trace: seq<int>, s2c: map<Board, int>, rows: nat): Result<()> {
    match Lesson(trace, s2c)
    case Err(e) => Err(e)
    case Ok((plies, score)) => if score != 0.0 && !InTable(plies, rows) then Err(IndexError) else Ok(())
  }

  /** What `learn_from(trace)` adds to cell (i, j). */
  function LearnGain(trace: seq<int>, s2c: map<Board, int>, rows: nat, i: nat, j: nat): real {
    match Lesson(trace, s2c)
    case Err(_) => 0.0
    case Ok((plies, score)) => if score == 0.0 then 0.0 else Gain(Applied(plies, rows), score, rows, i, j)
  }

  /** Only a won game teaches anything, and a win by 'x' only raises scores:
      exactly those of the cells its recorded plies name. */
  lemma LearnFromWin(trace: seq<int>, s2c: map<Board, int>, rows: nat, i: nat, j: nat)
    requires Lesson(trace, s2c).Ok?
    ensures var (plies, score) := Lesson(trace, s2c).value;
            (score == 0.0 ==> LearnGain(trace, s2c, rows, i, j) == 0.0) &&
            (score > 0.0 ==> LearnGain(trace, s2c, rows, i, j) >= 0.0) &&
            (score > 0.0 ==> (LearnGain(trace, s2c, rows, i, j) > 0.0 <==>
               exists k :: 0 <= k < |Applied(plies, rows)| && CellOf(Applied(plies, rows)[k], rows) == Some((i, j))))
  {
    var (plies, score) := Lesson(trace, s2c).value;
    if score > 0.0 {
      GainPositive(Applied(plies, rows), score, rows, i, j);
    }
  }

  /** Learning the traces in order until one fails: its error, or Ok. */
  function FirstFailure(traces: seq<seq<int>>, s2c: map<Board, int>, rows: nat): Result<()> {
    if traces == [] then Ok(())
    else match LearnResult(traces[0], s2c, rows)
      case Err(e) => Err(e)
      case Ok(_) => FirstFailure(traces[1..], s2c, rows)
  }

  /** What learning the traces in order adds to cell (i, j), up to and
      including the first trace that fails. */
  function TotalGain(traces: seq<seq<int>>, s2c: map<Board, int>, rows: nat, i: nat, j: nat): real {
    if traces == [] then 0.0
    else LearnGain(traces[0], s2c, rows, i, j) +
         (if LearnResult(traces[0], s2c, rows).Err? then 0.0 else TotalGain(traces[1..], s2c, rows, i, j))
  }

  /** Every move names a cell 1..9. */
  predicate AllCells(moves: seq<int>) {
    forall k :: 0 <= k < |moves| ==> 1 <= moves[k] <= 9
  }

  /** The available moves of a grid name cells 1..9. */
  lemma FreeCellsAreCells(c: seq<char>)
    requires |c| == 9
    ensures AllCells(FreeCells(c))
  {
    FreeCellsMeaning(c);
    var f := FreeCells(c);
    assert forall k :: 0 <= k < |f| ==> f[k] in f;
  }

  /** Where the head of the list sorted by score came from: the earliest
      of the available moves with the least score, the sort being stable. */
  function FirstMinAt(moves: seq<int>, scores: seq<real>): (i: nat)
    requires moves != [] && |scores| == 9 && AllCells(moves)
    ensures i < |moves|
  {
    if |moves| == 1 then 0
    else
      var j := FirstMinAt(moves[1..], scores) + 1;
      if scores[moves[0] - 1] <= scores[moves[j] - 1] then 0 else j
  }

  /** The move the learned branch picks among the available moves. */
  function FirstMin(moves: seq<int>, scores: seq<real>): (r: int)
    requires moves != [] && |scores| == 9 && AllCells(moves)
    ensures 1 <= r <= 9 && r in moves
  {
    moves[FirstMinAt(moves, scores)]
  }

  /** The chosen move scores no more than any available move. */
  lemma {:induction false} FirstMinIsLeast(moves: seq<int>, scores: seq<real>)
    requires moves != [] && |scores| == 9 && AllCells(moves)
    ensures forall k :: 0 <= k < |moves| ==> scores[FirstMin(moves, scores) - 1] <= scores[moves[k] - 1]
    decreases |moves|
  {
    if |moves| > 1 {
      var tail := moves[1..];
      FirstMinIsLeast(tail, scores);
      assert forall k :: 1 <= k < |moves| ==> moves[k] == tail[k - 1];
      assert FirstMin(tail, scores) == moves[FirstMinAt(tail, scores) + 1];
    }
  }

  /** Every move listed before the chosen one scores strictly more: the
      chosen move is the head of the list after a stable sort by score. */
  lemma {:induction false} FirstMinIsEarliest(moves: seq<int>, scores: seq<real>)
    requires moves != [] && |scores| == 9 && AllCells(moves)
    ensures forall k :: 0 <= k < FirstMinAt(moves, scores) ==>
              scores[moves[k] - 1] > scores[FirstMin(moves, scores) - 1]
    decreases |moves|
  {
    if |moves| > 1 {
      var tail := moves[1..];
      FirstMinIsEarliest(tail, scores);
      assert forall k :: 1 <= k < |moves| ==> moves[k] == tail[k - 1];
    }
  }

  class GameEngine {
    /** The class-level dicts a `State` reads. */
    const table: ClassTable
    var numStates: nat
    var qlTable: array2<real>
    var traces: seq<seq<int>>

    /** A table of `num_states` rows of 9 scores. */
    ghost predicate Valid()
      reads this
    {
      qlTable.Length0 == numStates && qlTable.Length1 == 9
    }

    /** The first half of `__init__`: enumerate the classes, size the table by
        their number and fill it with zeros. */
    constructor (table: ClassTable, traces: seq<seq<int>>)
      modifies table
      ensures Valid() && fresh(qlTable) && this.table == table && this.traces == traces
      ensures table.Valid() && numStates == |table.classToStates|
      ensures forall i, j :: 0 <= i < numStates && 0 <= j < 9 ==> qlTable[i, j] == 0.0
    {
      this.table := table;
      table.ListAllEqvClasses();
      numStates := |table.classToStates|;
      qlTable := new real[|table.classToStates|, 9]((i, j) => 0.0);
      this.traces := traces;
    }

    /** The second half of `__init__`: learn the traces in order; the first
        failing trace ends the loop with its error. */
    method LearnTraces() returns (r: Result<()>)
      requires Valid()
      modifies qlTable
      ensures r == FirstFailure(traces, table.stateToClass, numStates)
      ensures forall i, j :: 0 <= i < numStates && 0 <= j < 9 ==>
        qlTable[i, j] == old(qlTable[i, j]) + TotalGain(traces, table.stateToClass, numStates, i, j)
    {
      var k := 0;
      while k < |traces|
        invariant k <= |traces|
        invariant FirstFailure(traces[k..], table.stateToClass, numStates) == FirstFailure(traces, table.stateToClass, numStates)
        invariant forall i, j :: 0 <= i < numStates && 0 <= j < 9 ==>
          qlTable[i, j] + TotalGain(traces[k..], table.stateToClass, numStates, i, j) ==
          old(qlTable[i, j]) + TotalGain(traces, table.stateToClass, numStates, i, j)
      {
        assert traces[k..][1..] == traces[k + 1..];
        var result := LearnFrom(traces[k]);
        if result.Err? {
          return result;
        }
        k := k + 1;
      }
      return Ok(());
    }

    /** `ql_table[row, col] += v`. */
    method AddTo(row: nat, col: nat, v: real)
      requires row < qlTable.Length0 && col < qlTable.Length1
      modifies qlTable
      ensures forall i, j :: 0 <= i < qlTable.Length0 && 0 <= j < qlTable.Length1 ==>
        qlTable[i, j] == old(qlTable[i, j]) + (if (i, j) == (row, col) then v else 0.0)
    {
      qlTable[row, col] := qlTable[row, col] + v;
    }

    /** `update_sequence(seq, score)`: walk `seq` backwards adding a reward
        that starts at `score` and shrinks by 0.8 per item; an item outside
        the table raises an IndexError, keeping the updates already made. */
    method UpdateSequence(s: seq<Ply>, score: real) returns (r: Result<()>)
      requires qlTable.Length1 == 9
      modifies qlTable
      ensures r == if InTable(s, qlTable.Length0) then Ok(()) else Err(IndexError)
      ensures forall i, j :: 0 <= i < qlTable.Length0 && 0 <= j < 9 ==>
        qlTable[i, j] == old(qlTable[i, j]) + Gain(Applied(s, qlTable.Length0), score, qlTable.Length0, i, j)
    {
      var rows := qlTable.Length0;
      var update := score;
      var k := |s|;
      while k > 0
        invariant 0 <= k <= |s| && InTable(s[k..], rows)
        invariant update == Weight(score, |s| - k)
        invariant forall i, j :: 0 <= i < rows && 0 <= j < 9 ==>
          qlTable[i, j] == old(qlTable[i, j]) + Gain(s[k..], score, rows, i, j)
      {
        var cell := CellOf(s[k - 1], rows);
        if cell.None? {
          AppliedFrom(s, k, rows);
          return Err(IndexError);
        }
        var (row, col) := cell.value;
        GainFront(s, k, score, rows);
        AddTo(row, col, update);
        update := update * Decay;
        k := k - 1;
      }
      AppliedFrom(s, 0, rows);
      return Ok(());
    }

    /** The loop of `learn_from`: on a fresh state, `set` each move of `t`,
        look the grid up, and record (class, |move|) in `seq_p1` whichever
        player moved. */
    method PlayTrace(t: seq<int>) returns (state: State, r: Result<seq<Ply>>)
      ensures fresh(state) && fresh(state.matrix) && state.Valid()
      ensures match Replay("---------", t, table.stateToClass, [])
              case Err(e) => r == Err(e)
              case Ok(p) => r == Ok(p.plies) && state.Cells() == p.cells
    {
      var seqP1: seq<Ply> := [];
      var isP1Move := true;
      state := new State(table);
      var n := 0;
      while n < |t|
        invariant n <= |t|
        invariant fresh(state) && fresh(state.matrix) && state.Valid() && state.table == table
        invariant Replay(state.Cells(), t[n..], table.stateToClass, seqP1) == Replay("---------", t, table.stateToClass, [])
      {
        var step := t[n];
        assert t[n..][1..] == t[n + 1..];
        var placed := state.Set(step);
        if placed.Err? {
          return state, Err(placed.error);
        }
        var eqvClass := state.StateToEqvClass();
        if eqvClass.Err? {
          return state, Err(eqvClass.error);
        }
        if isP1Move {
          seqP1 := seqP1 + [(eqvClass.value, Abs(step))];
        } else {
          seqP1 := seqP1 + [(eqvClass.value, Abs(step))];
        }
        isP1Move := !isP1Move;
        n := n + 1;
      }
      r := Ok(seqP1);
    }

    /** `learn_from(trace)`: replay the trace, normalised so the first mover
        plays 'x'; then reward `seq_p1` with +100 if the first mover won and
        -100 if the second did. `seq_p2` stays empty, so its updates change
        nothing. */
    method LearnFrom(trace: seq<int>) returns (r: Result<()>)
      requires Valid()
      modifies qlTable
      ensures r == LearnResult(trace, table.stateToClass, numStates)
      ensures forall i, j :: 0 <= i < numStates && 0 <= j < 9 ==>
        qlTable[i, j] == old(qlTable[i, j]) + LearnGain(trace, table.stateToClass, numStates, i, j)
    {
      if trace == [] {
        return Err(IndexError);
      }
      var t := trace;
      if t[0] < 0 {
        t := seq(|trace|, k requires 0 <= k < |trace| => -trace[k]);
      }
      var seqP2: seq<Ply> := [];
      var state, played := PlayTrace(t);
      if played.Err? {
        return Err(played.error);
      }
      var seqP1 := played.value;
      var whoWins := state.IsGameOver();
      ReplayFirstMove("---------", t, table.stateToClass, []);
      r := RewardPlies(seqP1, seqP2, whoWins, t[0]);
    }

    /** The end of `learn_from`: with the first mover playing 'x', reward
        its plies with +100 and the other's with -100 when 'x' won, the
        other way round when 'o' won, and leave the table alone otherwise. */
    method RewardPlies(seqP1: seq<Ply>, seqP2: seq<Ply>, whoWins: GameStatus, first: int) returns (r: Result<()>)
      requires Valid() && first > 0 && seqP2 == []
      modifies qlTable
      ensures r == if Reward(whoWins) != 0.0 && !InTable(seqP1, numStates) then Err(IndexError) else Ok(())
      ensures forall i, j :: 0 <= i < numStates && 0 <= j < 9 ==>
        qlTable[i, j] == old(qlTable[i, j]) +
          (if Reward(whoWins) == 0.0 then 0.0 else Gain(Applied(seqP1, numStates), Reward(whoWins), numStates, i, j))
    {
      if (whoWins == Winner('x') && first > 0) || (whoWins == Winner('o') && first < 0) {
        r := UpdatePair(seqP1, seqP2, 100.0);
        if r.Err? {
          return;
        }
      }
      if (whoWins == Winner('x') && first < 0) || (whoWins == Winner('o') && first > 0) {
        r := UpdatePair(seqP1, seqP2, -100.0);
        if r.Err? {
          return;
        }
      }
      return Ok(());
    }

    /** `update_sequence(seq_p1, score)`, then, if that got through,
        `update_sequence(seq_p2, -score)` on the empty `seq_p2`. */
    method UpdatePair(seqP1: seq<Ply>, seqP2: seq<Ply>, score: real) returns (r: Result<()>)
      requires qlTable.Length1 == 9 && seqP2 == []
      modifies qlTable
      ensures r == if InTable(seqP1, qlTable.Length0) then Ok(()) else Err(IndexError)
      ensures forall i, j :: 0 <= i < qlTable.Length0 && 0 <= j < 9 ==>
        qlTable[i, j] == old(qlTable[i, j]) + Gain(Applied(seqP1, qlTable.Length0), score, qlTable.Length0, i, j)
    {
      r := UpdateSequence(seqP1, score);
      if r.Err? {
        return;
      }
      UpdateNothing(seqP2, -score);
    }

    /** `update_sequence` on an empty list changes no score. */
    method UpdateNothing(s: seq<Ply>, score: real)
      requires qlTable.Length1 == 9 && s == []
      modifies qlTable
      ensures forall i, j :: 0 <= i < qlTable.Length0 && 0 <= j < 9 ==> qlTable[i, j] == old(qlTable[i, j])
    {
      var u := UpdateSequence(s, score);
      assert forall i, j :: 0 <= i < qlTable.Length0 && 0 <= j < 9 ==>
        Gain(Applied(s, qlTable.Length0), score, qlTable.Length0, i, j) == 0.0;
    }

    /** `definite_winning_move`: never finds one. */
    function DefiniteWinningMove(cells: seq<char>, player: char): (r: Option<nat>)
      ensures r.None?
    {
      None
    }

    /** Row `i` of the table. */
    function Row(i: nat): (r: seq<real>)
      reads this, qlTable
      requires i < qlTable.Length0 && qlTable.Length1 == 9
      ensures |r| == 9 && forall j :: 0 <= j < 9 ==> r[j] == qlTable[i, j]
    {
      seq(9, j requires 0 <= j < 9 && i < qlTable.Length0 && qlTable.Length1 == 9 reads this, qlTable => qlTable[i, j])
    }

    /** The move the learned branch of `next_turn` picks for the class lookup
        `lookup`: row `cls - 1` of the table, then the earliest available
        move with the least score. */
    function RLChoice(lookup: Result<int>, moves: seq<int>): Result<int>
      reads this, qlTable
      requires Valid() && AllCells(moves)
    {
      match lookup
      case Err(e) => Err(e)
      case Ok(cls) =>
        match PyIndex(cls - 1, numStates)
        case None => Err(IndexError)
        case Some(row) => if moves == [] then Err(IndexError) else Ok(FirstMin(moves, Row(row)))
    }

    /** The learned branch of `next_turn`: look the state up, then pick by
        `RLChoice`; a state with no available move fails on `tuple_list[0]`. */
    method NextTurnRL(state: State) returns (r: Result<int>)
      requires Valid() && state.Valid()
      modifies state
      ensures state.Valid() && state.availableMoves == old(state.availableMoves)
      ensures state.matrix == old(state.matrix) && state.Cells() == old(state.Cells())
      ensures state.lastState == TableKey(state.Cells())
      ensures AllCells(state.availableMoves)
      ensures r == RLChoice(if state.lastState in state.table.stateToClass
                            then Ok(state.table.stateToClass[state.lastState]) else Err(KeyError),
                            state.availableMoves)
    {
      var eqvCls := state.StateToEqvClass();
      FreeCellsAreCells(state.Cells());
      if eqvCls.Err? {
        return Err(eqvCls.error);
      }
      var row := PyIndex(eqvCls.value - 1, numStates);
      if row.None? {
        return Err(IndexError);
      }
      var moves := state.availableMoves;
      if moves == [] {
        return Err(IndexError);
      }
      var scores := Row(row.value);
      var comMove := FirstMin(moves, scores);
      return Ok(comMove);
    }
  }

  /** The suffix the loop of `update_sequence` got through when it stops at
      `k`: all of `s` when `k` is 0, `s[k..]` when item `k - 1` is outside. */
  lemma AppliedFrom(s: seq<Ply>, k: nat, rows: nat)
    requires k <= |s| && InTable(s[k..], rows)
    requires k == 0 || CellOf(s[k - 1], rows).None?
    ensures Applied(s, rows) == s[k..]
    ensures k == 0 <==> InTable(s, rows)
  {
    if k > 0 {
      assert !InTable(s, rows) by {
        assert CellOf(s[k - 1], rows).None?;
      }
    } else {
      assert s[0..] == s;
    }
  }
}
