/** The `State` class of state.py: the 3x3 matrix of '-', 'x' and 'o' that a
    game mutates move by move, the list of empty cells rebuilt after each
    move, and the lookups of a position in the shared class table. */
module StateTracker {
  import opened Errors
  import opened Symmetry
  import opened Codec
  import opened Evaluate
  import opened ClassTables

  /** What `is_game_over` returns: False, the winning mark, or "draw". */
  datatype GameStatus = NotOver | Winner(mark: char) | Draw

  function Abs(n: int): nat {
    if n < 0 then -n else n
  }

  /** The mark a signed move writes: 'x' for a positive move, 'o' otherwise. */
  function MarkOf(move: int): char {
    if move > 0 then 'x' else 'o'
  }

  /** `move_to_index`: the row `int(|move| / 3)` and the column `|move| % 3 - 1`,
      with a column of -1 carried back into the previous row. */
  function MoveToIndex(move: int): (int, int) {
    var a := Abs(move);
    var i := a / 3;
    var j := a % 3 - 1;
    if j == -1 then (i - 1, 2) else (i, j)
  }

  /** A move in 1..9 names the cell `3 * i + j + 1` of the grid. */
  lemma MoveToIndexCell(move: int)
    requires 1 <= Abs(move) <= 9
    ensures var (i, j) := MoveToIndex(move);
            0 <= i < 3 && 0 <= j < 3 && 3 * i + j + 1 == Abs(move)
  {
  }

  /** A move of 10 or more names a row past the grid; the move 0 names row -1,
      which a Python list reads as its last row. */
  lemma MoveToIndexOutside(move: int)
    ensures Abs(move) >= 10 ==> MoveToIndex(move).0 >= 3
    ensures move == 0 ==> MoveToIndex(move) == (-1, 2)
  {
  }

  /** Line `l` is filled by one mark other than '-' (the chained test
      `a == b == c != "-"`). */
  predicate Filled(c: seq<char>, l: (nat, nat, nat))
    requires |c| == 9 && l.0 < 9 && l.1 < 9 && l.2 < 9
  {
    c[l.0] == c[l.1] && c[l.1] == c[l.2] && c[l.2] != '-'
  }

  /** Row `i` is the line `Lines[i]`. */
  lemma RowLine(c: seq<char>, i: nat)
    requires |c| == 9 && i < 3
    ensures FirstWinner(c, i) ==
      if c[3 * i] == c[3 * i + 1] && c[3 * i + 1] == c[3 * i + 2] && c[3 * i + 2] != '-' then Some(c[3 * i])
      else FirstWinner(c, i + 1)
  {
    assert Lines[i] == (3 * i, 3 * i + 1, 3 * i + 2);
  }

  /** Column `i` is the line `Lines[3 + i]`. */
  lemma ColumnLine(c: seq<char>, i: nat)
    requires |c| == 9 && i < 3
    ensures FirstWinner(c, 3 + i) ==
      if c[i] == c[3 + i] && c[3 + i] == c[6 + i] && c[6 + i] != '-' then Some(c[i])
      else FirstWinner(c, 4 + i)
  {
    assert Lines[3 + i] == (i, 3 + i, 6 + i);
  }

  /** The diagonals are the last two lines; each is won by its centre's mark. */
  lemma DiagonalLines(c: seq<char>)
    requires |c| == 9
    ensures FirstWinner(c, 6) ==
      if c[0] == c[4] && c[4] == c[8] && c[8] != '-' then Some(c[4])
      else if c[6] == c[4] && c[4] == c[2] && c[2] != '-' then Some(c[4])
      else None
  {
    assert Lines[6] == (0, 4, 8) && Lines[7] == (2, 4, 6);
    assert FirstWinner(c, 7) == if Filled(c, Lines[7]) then Some(c[2]) else FirstWinner(c, 8);
  }

  /** The mark of the first filled line from the `k`-th on, in the order
      rows, columns, main diagonal, anti-diagonal. */
  function FirstWinner(c: seq<char>, k: nat): (r: Option<char>)
    requires |c| == 9 && k <= 8
    ensures r.Some? ==> r.value != '-' && exists n :: k <= n < 8 && Completes(c, Lines[n], r.value)
    ensures r.None? <==> forall n :: k <= n < 8 ==> !Filled(c, Lines[n])
    decreases 8 - k
  {
    if k == 8 then None
    else if Filled(c, Lines[k]) then Some(c[Lines[k].0])
    else FirstWinner(c, k + 1)
  }

  /** The winner is the mark of the first filled line: when line `n` is
      filled and no line checked before it is, line `n` decides. */
  lemma {:induction false} FirstWinnerIsFirst(c: seq<char>, k: nat, n: nat)
    requires |c| == 9 && k <= n < 8 && Filled(c, Lines[n])
    requires forall n' :: k <= n' < n ==> !Filled(c, Lines[n'])
    ensures FirstWinner(c, k) == Some(c[Lines[n].0])
    decreases n - k
  {
    if k < n {
      FirstWinnerIsFirst(c, k + 1, n);
    }
  }

  /** The answer of `is_game_over` for the row-major cells `c`. */
  function GameOverOf(c: seq<char>): GameStatus
    requires |c| == 9
  {
    match FirstWinner(c, 0)
    case Some(m) => Winner(m)
    case None => if '-' in c then NotOver else Draw
  }

  /** `is_game_over` stated with the reference line test: a winner holds a
      line, the game goes on exactly when no mark holds a line and a cell is
      empty, and it is drawn exactly when no mark holds a line and none is. */
  lemma GameOverMeaning(c: seq<char>)
    requires |c| == 9
    ensures GameOverOf(c).Winner? ==> GameOverOf(c).mark != '-' && HasLine(c, GameOverOf(c).mark)
    ensures GameOverOf(c) == NotOver <==> (forall m :: m != '-' ==> !HasLine(c, m)) && '-' in c
    ensures GameOverOf(c) == Draw <==> (forall m :: m != '-' ==> !HasLine(c, m)) && '-' !in c
  {
    var w := FirstWinner(c, 0);
    if w.Some? {
      var n :| 0 <= n < 8 && Completes(c, Lines[n], w.value);
      assert HasLine(c, w.value);
    }
  }

  /** The 1-based positions up to `n` whose cell is '-', in ascending order:
      the list `reconstruct_available_moves` builds cell by cell. */
  function FreeUpTo(c: seq<char>, n: nat): seq<int>
    requires n <= |c|
  {
    if n == 0 then [] else FreeUpTo(c, n - 1) + (if c[n - 1] == '-' then [n] else [])
  }

  function FreeCells(c: seq<char>): seq<int>
    requires |c| == 9
  {
    FreeUpTo(c, 9)
  }

  /** A position is listed exactly when its cell is empty, and the list ascends. */
  lemma {:induction false} FreeUpToMeaning(c: seq<char>, n: nat)
    requires n <= |c|
    ensures forall p :: p in FreeUpTo(c, n) <==> 1 <= p <= n && c[p - 1] == '-'
    ensures forall a, b :: 0 <= a < b < |FreeUpTo(c, n)| ==> FreeUpTo(c, n)[a] < FreeUpTo(c, n)[b]
  {
    if n > 0 {
      FreeUpToMeaning(c, n - 1);
      var prev := FreeUpTo(c, n - 1);
      assert forall a :: 0 <= a < |prev| ==> prev[a] in prev;
    }
  }

  /** The empty grid offers every position. */
  lemma FreeCellsOfEmpty()
    ensures FreeCells("---------") == [1, 2, 3, 4, 5, 6, 7, 8, 9]
  {
  }

  /** The available moves of a board: its empty cells, 1-based, ascending. */
  lemma FreeCellsMeaning(c: seq<char>)
    requires |c| == 9
    ensures forall p :: p in FreeCells(c) <==> 1 <= p <= 9 && c[p - 1] == '-'
    ensures forall a, b :: 0 <= a < b < |FreeCells(c)| ==> FreeCells(c)[a] < FreeCells(c)[b]
  {
    FreeUpToMeaning(c, 9);
  }

  /** The character `state_to_eqv_class` writes for a cell: x to X, o to O, - to '.'. */
  function TableMark(ch: char): char {
    if ch == 'x' then 'X' else if ch == 'o' then 'O' else if ch == '-' then '.' else ch
  }

  /** The three `replace` calls applied to the row-major cells. */
  function TableKey(c: seq<char>): (r: seq<char>)
    ensures |r| == |c| && forall i :: 0 <= i < |c| ==> r[i] == TableMark(c[i])
  {
    seq(|c|, i requires 0 <= i < |c| => TableMark(c[i]))
  }

  /** A grid of '-', 'x' and 'o'. */
  predicate IsGrid(c: seq<char>) {
    |c| == 9 && forall i :: 0 <= i < 9 ==> c[i] in "-xo"
  }

  /** Writing 'x', 'o' or '-' into a grid leaves a grid. */
  lemma GridUpdate(c: seq<char>, p: nat, ch: char)
    requires IsGrid(c) && p < 9 && ch in "-xo"
    ensures IsGrid(c[p := ch])
  {
  }

  /** The key of a grid is a board of the class table, and different grids
      have different keys. */
  lemma TableKeyOfGrid(c: seq<char>, d: seq<char>)
    requires IsGrid(c) && IsGrid(d)
    ensures IsMarkBoard(TableKey(c))
    ensures TableKey(c) == TableKey(d) <==> c == d
  {
    if TableKey(c) == TableKey(d) {
      assert forall i :: 0 <= i < 9 ==> TableMark(c[i]) == TableMark(d[i]);
    }
  }

  /** Once the table is built, a grid has a class id exactly when its key is a
      legal board, and every rotation or reflection of the key has that id. */
  lemma ClassOfGrid(s2c: map<Board, int>, c2s: map<int, seq<Board>>, count: nat, c: seq<char>, x: Board)
    requires Built(s2c, c2s, count) && IsGrid(c)
    ensures TableKey(c) in s2c <==> IsLegal(TableKey(c))
    ensures TableKey(c) in s2c && x in Conjugates(TableKey(c)) ==>
      x in s2c && s2c[x] == s2c[TableKey(c)]
  {
    TableKeyOfGrid(c, c);
    if TableKey(c) in s2c && x in Conjugates(TableKey(c)) {
      OrbitSharesClass(s2c, c2s, count, TableKey(c), x);
    }
  }

  class State {
    var matrix: array2<char>
    var availableMoves: seq<int>
    var lastState: seq<char>
    /** The class-level dicts shared by every `State`. */
    const table: ClassTable

    /** The cells, row by row (`itertools.chain` over the matrix). */
    function Cells(): (r: seq<char>)
      reads this, matrix
      requires matrix.Length0 == 3 && matrix.Length1 == 3
      ensures |r| == 9 && forall i, j :: 0 <= i < 3 && 0 <= j < 3 ==> r[3 * i + j] == matrix[i, j]
    {
      [matrix[0, 0], matrix[0, 1], matrix[0, 2],
       matrix[1, 0], matrix[1, 1], matrix[1, 2],
       matrix[2, 0], matrix[2, 1], matrix[2, 2]]
    }

    /** A 3x3 grid of '-', 'x', 'o' whose available moves are its empty cells. */
    ghost predicate Valid()
      reads this, matrix
    {
      matrix.Length0 == 3 && matrix.Length1 == 3 &&
      IsGrid(Cells()) && availableMoves == FreeCells(Cells())
    }

    /** A fresh state: an empty grid, and the class default `[1..9]` as moves. */
    constructor (table: ClassTable)
      ensures Valid() && fresh(matrix)
      ensures Cells() == "---------" && availableMoves == [1, 2, 3, 4, 5, 6, 7, 8, 9]
      ensures lastState == "" && this.table == table
    {
      matrix := new char[3, 3]((i, j) => '-');
      availableMoves := [1, 2, 3, 4, 5, 6, 7, 8, 9];
      lastState := "";
      this.table := table;
      new;
      assert Cells() == "---------";
      FreeCellsOfEmpty();
    }

    /** `list_all_eqv_classes` of a state fills the dicts every state shares. */
    method ListAllEqvClasses()
      modifies table
      ensures table.Valid()
    {
      table.ListAllEqvClasses();
    }

    /** `is_game_over`: scan the rows, the columns, the two diagonals, then look
        for an empty cell. */
    method IsGameOver() returns (r: GameStatus)
      requires matrix.Length0 == 3 && matrix.Length1 == 3
      ensures r == GameOverOf(Cells())
    {
      var s := matrix;
      ghost var c := Cells();
      var i := 0;
      while i < 3
        invariant 0 <= i <= 3
        invariant FirstWinner(c, i) == FirstWinner(c, 0)
      {
        RowLine(c, i);
        assert c[3 * i] == s[i, 0] && c[3 * i + 1] == s[i, 1] && c[3 * i + 2] == s[i, 2];
        if s[i, 0] == s[i, 1] && s[i, 1] == s[i, 2] && s[i, 2] != '-' {
          return Winner(s[i, 0]);
        }
        i := i + 1;
      }
      var index := 0;
      while index < 3
        invariant 0 <= index <= 3
        invariant FirstWinner(c, 3 + index) == FirstWinner(c, 0)
      {
        ColumnLine(c, index);
        assert c[index] == s[0, index] && c[3 + index] == s[1, index] && c[6 + index] == s[2, index];
        if s[0, index] == s[1, index] && s[1, index] == s[2, index] && s[2, index] != '-' {
          return Winner(s[0, index]);
        }
        index := index + 1;
      }
      DiagonalLines(c);
      if s[0, 0] == s[1, 1] && s[1, 1] == s[2, 2] && s[2, 2] != '-' {
        return Winner(s[1, 1]);
      }
      if s[2, 0] == s[1, 1] && s[1, 1] == s[0, 2] && s[0, 2] != '-' {
        return Winner(s[1, 1]);
      }
      var draw := true;
      var row := 0;
      while row < 3
        invariant 0 <= row <= 3
        invariant draw <==> forall k :: 0 <= k < 3 * row ==> c[k] != '-'
      {
        var cell := 0;
        while cell < 3
          invariant 0 <= cell <= 3
          invariant draw <==> forall k :: 0 <= k < 3 * row + cell ==> c[k] != '-'
        {
          if s[row, cell] == '-' {
            draw := false;
            break;
          }
          cell := cell + 1;
        }
        row := row + 1;
      }
      if draw {
        return Draw;
      } else {
        return NotOver;
      }
    }

    /** `reconstruct_available_moves`: the 1-based positions of the empty
        cells, collected row by row. */
    method ReconstructAvailableMoves()
      requires matrix.Length0 == 3 && matrix.Length1 == 3
      modifies this
      ensures matrix == old(matrix) && lastState == old(lastState)
      ensures availableMoves == FreeCells(Cells())
    {
      var position := 0;
      availableMoves := [];
      var i := 0;
      while i < 3
        invariant 0 <= i <= 3 && position == 3 * i
        invariant matrix == old(matrix) && lastState == old(lastState)
        invariant availableMoves == FreeUpTo(Cells(), position)
      {
        var j := 0;
        while j < 3
          invariant 0 <= j <= 3 && position == 3 * i + j
          invariant matrix == old(matrix) && lastState == old(lastState)
          invariant availableMoves == FreeUpTo(Cells(), position)
        {
          position := position + 1;
          if matrix[i, j] == '-' {
            availableMoves := availableMoves + [position];
          }
          j := j + 1;
        }
        i := i + 1;
      }
    }

    /** One cell assignment `state_matrix[i][j] = ch`. */
    method Put(i: nat, j: nat, ch: char)
      requires matrix.Length0 == 3 && matrix.Length1 == 3 && i < 3 && j < 3
      modifies matrix
      ensures Cells() == old(Cells())[3 * i + j := ch]
    {
      matrix[i, j] := ch;
    }

    /** `set`: a move outside 1..9 fails the assertion; otherwise the cell of
        the move gets the mover's mark, occupied or not, and the available
        moves are rebuilt. */
    method Set(move: int) returns (r: Result<()>)
      requires Valid()
      modifies this, matrix
      ensures Valid() && matrix == old(matrix) && lastState == old(lastState)
      ensures !(1 <= Abs(move) <= 9) ==> r == Err(AssertionError) && Cells() == old(Cells())
      ensures 1 <= Abs(move) <= 9 ==> r == Ok(()) && Cells() == old(Cells())[Abs(move) - 1 := MarkOf(move)]
    {
      if !(1 <= Abs(move) <= 9) {
        return Err(AssertionError);
      }
      MoveToIndexCell(move);
      var (i, j) := MoveToIndex(move);
      GridUpdate(Cells(), 3 * i + j, MarkOf(move));
      Put(i, j, MarkOf(move));
      ReconstructAvailableMoves();
      r := Ok(());
    }

    /** `state_to_eqv_class`: record the key of the grid in `last_state` and
        look it up; a missing key is a KeyError. */
    method StateToEqvClass() returns (r: Result<int>)
      requires Valid()
      modifies this
      ensures Valid() && matrix == old(matrix) && availableMoves == old(availableMoves)
      ensures lastState == TableKey(Cells())
      ensures r == if lastState in table.stateToClass then Ok(table.stateToClass[lastState]) else Err(KeyError)
      ensures table.Valid() ==> (r.Ok? <==> IsLegal(lastState))
    {
      var s := TableKey(Cells());
      lastState := s;
      if table.Valid() {
        ClassOfGrid(table.stateToClass, table.classToStates, |table.classToStates|, Cells(), s);
      }
      if s !in table.stateToClass {
        return Err(KeyError);
      }
      return Ok(table.stateToClass[s]);
    }

    /** `eqv_class_to_move` against the key recorded by the last lookup. */
    method EqvClassToMove(cls: int) returns (r: Result<nat>)
      ensures r == table.ClassMove(cls, lastState)
    {
      r := table.EqvClassToMove(cls, lastState);
    }
  }
}
