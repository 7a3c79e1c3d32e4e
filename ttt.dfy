/** The game of ttt.py: a `TicTacToe` is the list of signed moves played so
    far and the `State` they produced; a `GameDB` keeps finished games in a
    text file, one line of ", "-separated integers per game. */
module Game {
  import opened Errors
  import opened ClassTables
  import opened StateTracker
  import opened Engine

  /** What `whose_move` returns: False once the game is over, the answer of
      the `input` prompt when no move was played, or "x" / "o". */
  datatype Turn = Finished | AskUser | Player(mark: char)

  /** `whose_move` for the moves and the grid they produced. */
  function WhoseMoveOf(moves: seq<int>, cells: seq<char>): Result<Turn>
    requires |cells| == 9
  {
    if GameOverOf(cells) != NotOver then Ok(Finished)
    else if moves == [] then Ok(AskUser)
    else if moves[|moves| - 1] < 0 then Ok(Player('x'))
    else if moves[|moves| - 1] > 0 then Ok(Player('o'))
    else Err(AssertionError)
  }

  /** `valid_move`: a move of the same sign as the last one is refused; then
      the cell `move_to_index` names is read, a row outside the grid being
      an IndexError, and the move is valid when that cell is empty. */
  function ValidMoveOf(moves: seq<int>, cells: seq<char>, move: int): Result<bool>
    requires |cells| == 9
  {
    if moves != [] && move * moves[|moves| - 1] >= 0 then Ok(false)
    else
      var (i, j) := MoveToIndex(move);
      match (PyIndex(i, 3), PyIndex(j, 3))
      case (Some(row), Some(col)) => Ok(cells[3 * row + col] == '-')
      case _ => Err(IndexError)
  }

  /** `valid_move` on a move naming a cell: it is valid exactly when the
      signs alternate and the cell is empty. A move of 10 or more is an
      IndexError unless the sign test refuses it first, and the move 0 is
      read as cell 9. */
  lemma ValidMoveMeaning(moves: seq<int>, cells: seq<char>, move: int)
    requires |cells| == 9
    ensures 1 <= Abs(move) <= 9 ==>
      ValidMoveOf(moves, cells, move) == Ok((moves == [] || move * moves[|moves| - 1] < 0) && cells[Abs(move) - 1] == '-')
    ensures Abs(move) >= 10 ==>
      ValidMoveOf(moves, cells, move) == if moves != [] && move * moves[|moves| - 1] >= 0 then Ok(false) else Err(IndexError)
    ensures move == 0 ==> ValidMoveOf(moves, cells, move) == if moves != [] then Ok(false) else Ok(cells[8] == '-')
  {
    if 1 <= Abs(move) <= 9 {
      MoveToIndexCell(move);
    }
    MoveToIndexOutside(move);
  }

  /** The player `whose_move` names is the one whose moves `valid_move`
      accepts: 'x' moves are positive, 'o' moves negative. */
  lemma NextPlayerMovesNext(moves: seq<int>, cells: seq<char>, move: int)
    requires |cells| == 9 && WhoseMoveOf(moves, cells).Ok? && WhoseMoveOf(moves, cells).value.Player?
    requires ValidMoveOf(moves, cells, move) == Ok(true)
    ensures move > 0 <==> WhoseMoveOf(moves, cells).value.mark == 'x'
    ensures move < 0 <==> WhoseMoveOf(moves, cells).value.mark == 'o'
  {
    var last := moves[|moves| - 1];
    assert move * last < 0;
    if last < 0 {
      assert move > 0;
    } else {
      assert move < 0;
    }
  }

  /** Every move names one of the nine cells. */
  predicate CellMoves(moves: seq<int>) {
    forall k :: 0 <= k < |moves| ==> 1 <= Abs(moves[k]) <= 9
  }

  /** The grid the moves produce from the empty grid, move by move. */
  function BoardOf(moves: seq<int>): (r: seq<char>)
    requires CellMoves(moves)
    ensures |r| == 9
  {
    if moves == [] then "---------"
    else
      var last := moves[|moves| - 1];
      BoardOf(moves[..|moves| - 1])[Abs(last) - 1 := MarkOf(last)]
  }

  /** The learner's replay from the empty grid writes the same grid as the
      game: the grid `BoardOf` gives. */
  lemma {:induction false} PlacedIsBoardOf(moves: seq<int>)
    requires CellMoves(moves)
    ensures Placed("---------", moves) == BoardOf(moves)
    decreases |moves|
  {
    if moves != [] {
      var init := moves[..|moves| - 1];
      assert CellMoves(init) by {
        assert forall k :: 0 <= k < |init| ==> init[k] == moves[k];
      }
      PlacedIsBoardOf(init);
      assert init + [moves[|moves| - 1]] == moves;
      PlacedSnoc("---------", init, moves[|moves| - 1]);
    }
  }

  /** Moves that alternate in sign, each naming a cell no earlier move named. */
  predicate WellPlayed(moves: seq<int>) {
    CellMoves(moves) &&
    (forall k :: 0 < k < |moves| ==> moves[k] * moves[k - 1] < 0) &&
    (forall a, b :: 0 <= a < b < |moves| ==> Abs(moves[a]) != Abs(moves[b]))
  }

  /** A cell of the grid is marked exactly when some move named it. */
  lemma {:induction false} BoardOfMarks(moves: seq<int>, p: int)
    requires CellMoves(moves)
    requires 1 <= p <= 9
    ensures BoardOf(moves)[p - 1] != '-' <==> exists k :: 0 <= k < |moves| && Abs(moves[k]) == p
    decreases |moves|
  {
    if moves != [] {
      var init := moves[..|moves| - 1];
      BoardOfMarks(init, p);
      if exists k :: 0 <= k < |init| && Abs(init[k]) == p {
        var k :| 0 <= k < |init| && Abs(init[k]) == p;
        assert moves[k] == init[k];
      }
      if exists k :: 0 <= k < |moves| && Abs(moves[k]) == p {
        var k :| 0 <= k < |moves| && Abs(moves[k]) == p;
        if k < |init| {
          assert init[k] == moves[k];
        }
      }
    }
  }

  /** A move `valid_move` accepts after well-played moves comes from the
      other player and names a cell no earlier move named. */
  lemma ValidMoveIsFresh(moves: seq<int>, move: int)
    requires WellPlayed(moves) && 1 <= Abs(move) <= 9
    requires ValidMoveOf(moves, BoardOf(moves), move) == Ok(true)
    ensures moves == [] || move * moves[|moves| - 1] < 0
    ensures forall k :: 0 <= k < |moves| ==> Abs(moves[k]) != Abs(move)
  {
    ValidMoveMeaning(moves, BoardOf(moves), move);
    BoardOfMarks(moves, Abs(move));
  }

  lemma WellPlayedSnoc(moves: seq<int>, move: int)
    requires WellPlayed(moves) && 1 <= Abs(move) <= 9
    requires moves == [] || move * moves[|moves| - 1] < 0
    requires forall k :: 0 <= k < |moves| ==> Abs(moves[k]) != Abs(move)
    ensures WellPlayed(moves + [move])
  {
    var next := moves + [move];
    forall a, b | 0 <= a < b < |next|
      ensures Abs(next[a]) != Abs(next[b])
    {
      if b == |moves| {
        assert next[a] == moves[a];
      }
    }
  }

  lemma BoardOfSnoc(moves: seq<int>, move: int)
    requires CellMoves(moves)
    requires 1 <= Abs(move) <= 9
    ensures BoardOf(moves + [move]) == BoardOf(moves)[Abs(move) - 1 := MarkOf(move)]
  {
    assert (moves + [move])[..|moves|] == moves;
  }

  /** A valid move extends a well-played list with a well-played list, and
      the grid by the move's mark. */
  lemma WellPlayedExtends(moves: seq<int>, move: int)
    requires WellPlayed(moves) && 1 <= Abs(move) <= 9
    requires ValidMoveOf(moves, BoardOf(moves), move) == Ok(true)
    ensures WellPlayed(moves + [move])
    ensures BoardOf(moves + [move]) == BoardOf(moves)[Abs(move) - 1 := MarkOf(move)]
  {
    ValidMoveIsFresh(moves, move);
    WellPlayedSnoc(moves, move);
    BoardOfSnoc(moves, move);
  }

  class TicTacToe {
    var moves: seq<int>
    var state: State

    /** The moves were played in turn and the grid is the one they produce. */
    ghost predicate Consistent()
      reads this, state, state.matrix
    {
      state.Valid() && WellPlayed(moves) && state.Cells() == BoardOf(moves)
    }

    /** A new game: no moves, an empty grid. */
    constructor (table: ClassTable)
      ensures Consistent() && moves == [] && fresh(state) && fresh(state.matrix)
    {
      moves := [];
      state := new State(table);
    }

    /** `whose_move`; the `input` prompt of the first move is AskUser. */
    method WhoseMove() returns (r: Result<Turn>)
      requires state.Valid()
      ensures r == WhoseMoveOf(moves, state.Cells())
    {
      var over := state.IsGameOver();
      if over != NotOver {
        return Ok(Finished);
      }
      if moves == [] {
        return Ok(AskUser);
      }
      if moves[|moves| - 1] < 0 {
        return Ok(Player('x'));
      }
      if !(moves[|moves| - 1] > 0) {
        return Err(AssertionError);
      }
      return Ok(Player('o'));
    }

    method ValidMove(move: int) returns (r: Result<bool>)
      requires state.Valid()
      ensures r == ValidMoveOf(moves, state.Cells(), move)
    {
      if moves != [] {
        if move * moves[|moves| - 1] >= 0 {
          return Ok(false);
        }
      }
      var p := MoveToIndex(move);
      var row := PyIndex(p.0, 3);
      var col := PyIndex(p.1, 3);
      if row.None? || col.None? {
        return Err(IndexError);
      }
      if state.matrix[row.value, col.value] != '-' {
        return Ok(false);
      }
      return Ok(true);
    }

    /** `your_turn_computer`: assert the move is valid, append it, and play
        it on the grid. The move 0 passes `valid_move` on an empty game and
        is appended before `set` rejects it. A consistent game stays
        consistent through every move that succeeds. */
    method YourTurnComputer(move: int) returns (r: Result<()>)
      requires state.Valid()
      modifies this, state, state.matrix
      ensures state == old(state) && state.Valid() && state.lastState == old(state.lastState)
      ensures match ValidMoveOf(old(moves), old(state.Cells()), move)
              case Err(e) => r == Err(e) && moves == old(moves) && state.Cells() == old(state.Cells())
              case Ok(false) => r == Err(AssertionError) && moves == old(moves) && state.Cells() == old(state.Cells())
              case Ok(true) =>
                moves == old(moves) + [move] &&
                if 1 <= Abs(move) <= 9 then
                  r == Ok(()) && state.Cells() == old(state.Cells())[Abs(move) - 1 := MarkOf(move)]
                else
                  r == Err(AssertionError) && state.Cells() == old(state.Cells())
      ensures old(Consistent()) && r.Ok? ==> Consistent()
    {
      ghost var wasConsistent := Consistent();
      var valid := ValidMove(move);
      if valid.Err? {
        return Err(valid.error);
      }
      if !valid.value {
        return Err(AssertionError);
      }
      if wasConsistent && 1 <= Abs(move) <= 9 {
        WellPlayedExtends(moves, move);
      }
      moves := moves + [move];
      var placed := state.Set(move);
      return placed;
    }
  }

  /** Python's `str` of an int: a '-' for a negative one, then the decimal
      digits without leading zeros. */
  function IntToString(n: int): string {
    if n < 0 then "-" + Digits(-n) else Digits(n)
  }

  /** The text of an int starts with a sign or a digit, ends with a digit,
      and holds neither a comma nor a line end. */
  lemma IntToStringShape(n: int)
    ensures var r := IntToString(n);
            r != [] && IsDigit(r[|r| - 1]) && (r[0] == '-' || IsDigit(r[0])) &&
            Lacks(r, ',') && Lacks(r, '\n')
  {
    if n < 0 {
      DigitsShape(-n);
      LacksConcat("-", Digits(-n), ',');
      LacksConcat("-", Digits(-n), '\n');
    } else {
      DigitsShape(n);
    }
  }

  lemma DigitsShape(n: nat)
    ensures var d := Digits(n);
            IsDigit(d[|d| - 1]) && IsDigit(d[0]) && Lacks(d, ',') && Lacks(d, '\n')
  {
    var d := Digits(n);
    assert AllDigits(d);
  }

  function DigitChar(d: nat): char
    requires d < 10
  {
    ('0' as int + d) as char
  }

  predicate IsDigit(c: char) {
    '0' <= c <= '9'
  }

  /** Every character is a decimal digit. */
  predicate AllDigits(s: string) {
    forall k :: 0 <= k < |s| ==> IsDigit(s[k])
  }

  /** The character `c` does not occur in `s`. */
  predicate Lacks(s: string, c: char) {
    forall k :: 0 <= k < |s| ==> s[k] != c
  }

  lemma LacksConcat(a: string, b: string, c: char)
    requires Lacks(a, c) && Lacks(b, c)
    ensures Lacks(a + b, c)
  {
    assert forall k :: |a| <= k < |a + b| ==> (a + b)[k] == b[k - |a|];
  }

  /** The decimal digits of `n`, most significant first. */
  function Digits(n: nat): (r: string)
    ensures r != [] && AllDigits(r)
  {
    if n < 10 then [DigitChar(n)] else Digits(n / 10) + [DigitChar(n % 10)]
  }

  /** The value of a string of decimal digits. */
  function DigitsValue(s: string): nat
    requires AllDigits(s)
  {
    if s == [] then 0
    else DigitsValue(s[..|s| - 1]) * 10 + (s[|s| - 1] as int - '0' as int)
  }

  /** Reading the digits of `n` gives `n` back. */
  lemma {:induction false} DigitsRoundTrip(n: nat)
    ensures DigitsValue(Digits(n)) == n
  {
    if n >= 10 {
      DigitsRoundTrip(n / 10);
      var d := Digits(n);
      assert d[..|d| - 1] == Digits(n / 10);
    }
  }

  /** The ASCII characters `int()` strips as whitespace: space, tab, the
      line and page breaks, and the four separators U+001C to U+001F. */
  predicate IsSpace(c: char) {
    c == ' ' || c == '\t' || c == '\n' || c == '\r' || c == '\U{B}' || c == '\U{C}' ||
    '\U{1C}' <= c <= '\U{1F}'
  }

  function StripLeft(s: string): string {
    if s != [] && IsSpace(s[0]) then StripLeft(s[1..]) else s
  }

  function StripRight(s: string): string {
    if s != [] && IsSpace(s[|s| - 1]) then StripRight(s[..|s| - 1]) else s
  }

  /** `int(s)`: surrounding whitespace ignored, an optional sign, then one or
      more decimal digits; anything else is a ValueError. */
  function ParseInt(s: string): Result<int> {
    ParseSigned(StripLeft(StripRight(s)))
  }

  /** An optional sign, then the digits. */
  function ParseSigned(t: string): Result<int> {
    if t != [] && t[0] == '-' then
      match ParseDigits(t[1..])
      case Err(e) => Err(e)
      case Ok(v) => Ok(-v)
    else if t != [] && t[0] == '+' then ParseDigits(t[1..])
    else ParseDigits(t)
  }

  /** One or more decimal digits. */
  function ParseDigits(body: string): Result<int> {
    if body == [] || !AllDigits(body) then Err(ValueError) else Ok(DigitsValue(body))
  }

  /** The text `str` writes for an int has no whitespace to strip, before or
      after a line end is added. */
  lemma StripOfInt(n: int)
    ensures StripLeft(StripRight(IntToString(n))) == IntToString(n)
    ensures StripLeft(StripRight(IntToString(n) + "\n")) == IntToString(n)
  {
    IntToStringShape(n);
    var s := IntToString(n);
    assert (s + "\n")[..|s|] == s;
  }

  /** The digits `str` writes for a natural number read back as it. */
  lemma DigitsParse(n: nat)
    ensures ParseDigits(Digits(n)) == Ok(n)
  {
    DigitsRoundTrip(n);
  }

  /** The sign and digits `str` writes read back as the int. */
  lemma SignedOfInt(n: int)
    ensures ParseSigned(IntToString(n)) == Ok(n)
  {
    if n < 0 {
      SignedOfNegative(n);
    } else {
      SignedOfNatural(n);
    }
  }

  lemma SignedOfNegative(n: int)
    requires n < 0
    ensures ParseSigned(IntToString(n)) == Ok(n)
  {
    var d := Digits(-n);
    DigitsRoundTrip(-n);
    NegativeDigits(d);
    assert IntToString(n) == "-" + d;
  }

  /** A '-' and then digits reads as minus their value. */
  lemma NegativeDigits(d: string)
    requires d != [] && AllDigits(d)
    ensures ParseSigned("-" + d) == Ok(-(DigitsValue(d) as int))
  {
    var t := "-" + d;
    assert t[0] == '-' && t[1..] == d;
  }

  lemma SignedOfNatural(n: nat)
    ensures ParseSigned(IntToString(n)) == Ok(n)
  {
    DigitsParse(n);
    assert AllDigits(Digits(n));
  }

  /** `int` reads back what `str` writes, with or without the line end. */
  lemma IntRoundTrip(n: int)
    ensures ParseInt(IntToString(n)) == Ok(n)
    ensures ParseInt(IntToString(n) + "\n") == Ok(n)
  {
    StripOfInt(n);
    SignedOfInt(n);
  }

  /** `s.split(", ")`, with `cur` the text of the field read so far. */
  function SplitFrom(s: string, cur: string): (r: seq<string>)
    ensures r != []
  {
    if s == [] then [cur]
    else if |s| >= 2 && s[0] == ',' && s[1] == ' ' then [cur] + SplitFrom(s[2..], "")
    else SplitFrom(s[1..], cur + [s[0]])
  }

  function Split(s: string): seq<string> {
    SplitFrom(s, "")
  }

  /** A field without a comma is read whole, up to the next separator. */
  lemma {:induction false} SplitField(a: string, rest: string, cur: string)
    requires Lacks(a, ',')
    ensures SplitFrom(a + ", " + rest, cur) == [cur + a] + SplitFrom(rest, "")
    ensures SplitFrom(a, cur) == [cur + a]
    decreases |a|
  {
    if a != [] {
      SplitField(a[1..], rest, cur + [a[0]]);
      assert (a + ", " + rest)[1..] == a[1..] + ", " + rest;
      assert cur + [a[0]] + a[1..] == cur + a;
    } else {
      var t := a + ", " + rest;
      assert t == ", " + rest && t[0] == ',' && t[1] == ' ';
      assert t[2..] == rest;
      assert cur + a == cur;
    }
  }

  /** `str(moves)[1:-1]`: the moves written out, separated by ", ". */
  function Join(moves: seq<int>): string {
    if moves == [] then ""
    else if |moves| == 1 then IntToString(moves[0])
    else IntToString(moves[0]) + ", " + Join(moves[1..])
  }

  lemma {:induction false} JoinHasNoNewline(moves: seq<int>)
    ensures Lacks(Join(moves), '\n')
    decreases |moves|
  {
    if moves != [] {
      IntToStringShape(moves[0]);
    }
    if |moves| > 1 {
      JoinHasNoNewline(moves[1..]);
      LacksConcat(IntToString(moves[0]), ", ", '\n');
      LacksConcat(IntToString(moves[0]) + ", ", Join(moves[1..]), '\n');
    }
  }

  /** The line `store` writes for a game. */
  function StoredLine(moves: seq<int>): string {
    Join(moves) + "\n"
  }

  /** The fields of a stored line of a game with a move: one per move, the
      last one carrying the line end. */
  function StoredFields(moves: seq<int>): seq<string> {
    seq(|moves|, i requires 0 <= i < |moves| =>
      if i == |moves| - 1 then IntToString(moves[i]) + "\n" else IntToString(moves[i]))
  }

  /** `map(int, fields)`: what `int` makes of each field. */
  function ParsedFields(fields: seq<string>): (r: seq<Result<int>>)
    ensures |r| == |fields| && forall i :: 0 <= i < |fields| ==> r[i] == ParseInt(fields[i])
  {
    seq(|fields|, i requires 0 <= i < |fields| => ParseInt(fields[i]))
  }

  /** `list(...)` over the mapped fields: the values, or the error of the
      first field `int` rejects. */
  function AllOk(rs: seq<Result<int>>): Result<seq<int>> {
    if rs == [] then Ok([])
    else match rs[0]
      case Err(e) => Err(e)
      case Ok(n) =>
        match AllOk(rs[1..])
        case Err(e) => Err(e)
        case Ok(ns) => Ok([n] + ns)
  }

  /** With no error among the results, `list` gives all their values. */
  lemma {:induction false} AllOkOfValues(rs: seq<Result<int>>, vs: seq<int>)
    requires |rs| == |vs| && forall i :: 0 <= i < |rs| ==> rs[i] == Ok(vs[i])
    ensures AllOk(rs) == Ok(vs)
    decreases |rs|
  {
    if rs != [] {
      AllOkOfValues(rs[1..], vs[1..]);
      assert [vs[0]] + vs[1..] == vs;
    }
  }

  /** `list(map(int, line.split(", ")))`. */
  function ParseLine(line: string): Result<seq<int>> {
    AllOk(ParsedFields(Split(line)))
  }

  /** The first field of a line, when it has no comma. */
  lemma SplitFirstField(a: string, rest: string)
    requires Lacks(a, ',')
    ensures Split(a + ", " + rest) == [a] + Split(rest)
  {
    SplitField(a, rest, "");
    assert "" + a == a;
  }

  /** A line without a comma is a single field. */
  lemma SplitLastField(a: string)
    requires Lacks(a, ',')
    ensures Split(a) == [a]
  {
    SplitField(a, "", "");
    assert "" + a == a;
  }

  lemma StoredFieldsCons(moves: seq<int>)
    requires |moves| > 1
    ensures StoredFields(moves) == [IntToString(moves[0])] + StoredFields(moves[1..])
  {
  }

  lemma StoredLineCons(moves: seq<int>)
    requires |moves| > 1
    ensures StoredLine(moves) == IntToString(moves[0]) + ", " + StoredLine(moves[1..])
  {
  }

  /** Splitting a stored line on ", " gives one field per move. */
  lemma {:induction false} SplitStored(moves: seq<int>)
    requires moves != []
    ensures Split(StoredLine(moves)) == StoredFields(moves)
    decreases |moves|
  {
    var a := IntToString(moves[0]);
    IntToStringShape(moves[0]);
    if |moves| == 1 {
      LacksConcat(a, "\n", ',');
      SplitLastField(a + "\n");
      assert StoredFields(moves) == [a + "\n"];
    } else {
      SplitStored(moves[1..]);
      StoredFieldsCons(moves);
      StoredLineCons(moves);
      SplitFirstField(a, StoredLine(moves[1..]));
    }
  }

  /** Each field of a stored line reads back as its move. */
  lemma ParseStoredFields(moves: seq<int>)
    requires moves != []
    ensures AllOk(ParsedFields(StoredFields(moves))) == Ok(moves)
  {
    var rs := ParsedFields(StoredFields(moves));
    forall i | 0 <= i < |moves|
      ensures rs[i] == Ok(moves[i])
    {
      StoredFieldRoundTrip(moves, i);
    }
    AllOkOfValues(rs, moves);
  }

  lemma StoredFieldRoundTrip(moves: seq<int>, i: nat)
    requires i < |moves|
    ensures ParseInt(StoredFields(moves)[i]) == Ok(moves[i])
  {
    IntRoundTrip(moves[i]);
  }

  /** Reading back a stored line gives the game that was stored, as long
      as the game has a move: an empty game is stored as a bare line end,
      which `int` rejects. */
  lemma StoredLineRoundTrip(moves: seq<int>)
    ensures moves != [] ==> ParseLine(StoredLine(moves)) == Ok(moves)
    ensures moves == [] ==> ParseLine(StoredLine(moves)) == Err(ValueError)
  {
    if moves == [] {
      assert StoredLine(moves) == "\n";
      assert Split("\n") == ["\n"];
      assert StripLeft(StripRight("\n")) == "";
    } else {
      SplitStored(moves);
      ParseStoredFields(moves);
    }
  }

  /** Iterating over a file: the text cut after each line end, a last line
      without one kept as it is; `cur` is the line read so far. */
  function LinesFrom(text: string, cur: string): seq<string> {
    if text == [] then (if cur == [] then [] else [cur])
    else if text[0] == '\n' then [cur + "\n"] + LinesFrom(text[1..], "")
    else LinesFrom(text[1..], cur + [text[0]])
  }

  function Lines(text: string): seq<string> {
    LinesFrom(text, "")
  }

  /** A line without a line end inside it is read whole. */
  lemma {:induction false} LinesOfLine(a: string, rest: string, cur: string)
    requires Lacks(a, '\n')
    ensures LinesFrom(a + "\n" + rest, cur) == [cur + a + "\n"] + LinesFrom(rest, "")
    ensures cur == "" ==> LinesFrom(a + "\n" + rest, cur) == [a + "\n"] + LinesFrom(rest, "")
    decreases |a|
  {
    if a != [] {
      LinesOfLine(a[1..], rest, cur + [a[0]]);
      assert (a + "\n" + rest)[1..] == a[1..] + "\n" + rest;
      assert cur + [a[0]] + a[1..] == cur + a;
    } else {
      var t := a + "\n" + rest;
      assert t == "\n" + rest && t[0] == '\n';
      assert t[1..] == rest;
      assert cur + a == cur;
    }
    if cur == "" {
      assert cur + a + "\n" == a + "\n";
    }
  }

  /** The text of a file to which `store` wrote each game in turn. */
  function StoredText(games: seq<seq<int>>): string {
    if games == [] then "" else StoredLine(games[0]) + StoredText(games[1..])
  }

  function StoredLines(games: seq<seq<int>>): (r: seq<string>)
    ensures |r| == |games| && forall i :: 0 <= i < |games| ==> r[i] == StoredLine(games[i])
  {
    seq(|games|, i requires 0 <= i < |games| => StoredLine(games[i]))
  }

  lemma StoredTextCons(games: seq<seq<int>>)
    requires games != []
    ensures StoredText(games) == Join(games[0]) + "\n" + StoredText(games[1..])
    ensures Lacks(Join(games[0]), '\n')
  {
    JoinHasNoNewline(games[0]);
  }

  lemma StoredLinesCons(games: seq<seq<int>>)
    requires games != []
    ensures StoredLines(games) == [Join(games[0]) + "\n"] + StoredLines(games[1..])
  {
    assert StoredLines(games) == [StoredLine(games[0])] + StoredLines(games[1..]);
  }

  /** A stored file has one line per game. */
  lemma {:induction false} LinesOfStored(games: seq<seq<int>>)
    ensures Lines(StoredText(games)) == StoredLines(games)
    decreases |games|
  {
    if games != [] {
      LinesOfStored(games[1..]);
      StoredTextCons(games);
      LinesOfLine(Join(games[0]), StoredText(games[1..]), "");
      StoredLinesCons(games);
    }
  }

  /** What `read_all_games` makes of each line of the file. */
  function ParsedLines(lines: seq<string>): (r: seq<Result<seq<int>>>)
    ensures |r| == |lines| && forall i :: 0 <= i < |lines| ==> r[i] == ParseLine(lines[i])
  {
    seq(|lines|, i requires 0 <= i < |lines| => ParseLine(lines[i]))
  }

  /** The games `read_all_games` appends for the parsed lines, and whether a
      line ended the loop with a ValueError. */
  function Collect(rs: seq<Result<seq<int>>>): (seq<seq<int>>, bool) {
    if rs == [] then ([], false)
    else match rs[0]
      case Err(_) => ([], true)
      case Ok(game) =>
        var rest := Collect(rs[1..]);
        ([game] + rest.0, rest.1)
  }

  function ParseLines(lines: seq<string>): (seq<seq<int>>, bool) {
    Collect(ParsedLines(lines))
  }

  /** One step of `read_all_games`: a line `int` rejects ends the reading,
      any other adds its game in front of those of the lines after it. */
  lemma CollectStep(rs: seq<Result<seq<int>>>, k: nat)
    requires k < |rs|
    ensures rs[k].Err? ==> Collect(rs[k..]) == ([], true)
    ensures rs[k].Ok? ==>
      Collect(rs[k..]).0 == [rs[k].value] + Collect(rs[k + 1..]).0 &&
      Collect(rs[k..]).1 == Collect(rs[k + 1..]).1
  {
    assert rs[k..][0] == rs[k];
    assert rs[k..][1..] == rs[k + 1..];
  }

  /** With no error among the lines, every game is collected. */
  lemma {:induction false} CollectOfValues(rs: seq<Result<seq<int>>>, games: seq<seq<int>>)
    requires |rs| == |games| && forall i :: 0 <= i < |rs| ==> rs[i] == Ok(games[i])
    ensures Collect(rs) == (games, false)
    decreases |rs|
  {
    if rs != [] {
      CollectOfValues(rs[1..], games[1..]);
      assert [games[0]] + games[1..] == games;
    }
  }

  /** The lines of games that each have a move read back as those games. */
  lemma ParseStoredLines(games: seq<seq<int>>)
    requires forall k :: 0 <= k < |games| ==> games[k] != []
    ensures ParseLines(StoredLines(games)) == (games, false)
  {
    var rs := ParsedLines(StoredLines(games));
    forall i | 0 <= i < |games|
      ensures rs[i] == Ok(games[i])
    {
      StoredLineRoundTrip(games[i]);
    }
    CollectOfValues(rs, games);
  }

  /** Storing games that each have a move and reading the file back gives
      the same games. */
  lemma StoreThenRead(games: seq<seq<int>>)
    requires forall k :: 0 <= k < |games| ==> games[k] != []
    ensures ParseLines(Lines(StoredText(games))) == (games, false)
  {
    LinesOfStored(games);
    ParseStoredLines(games);
  }

  class GameDB {
    /** The file's text: `store` appends to it, `read_all_games` reads it. */
    var contents: string
    /** The class-level list the games are read into. */
    var db: seq<seq<int>>

    constructor (contents: string, db: seq<seq<int>>)
      ensures this.contents == contents && this.db == db
    {
      this.contents := contents;
      this.db := db;
    }

    /** `store(game)`: append the game's line to the file. */
    method Store(moves: seq<int>)
      modifies this
      ensures contents == old(contents) + StoredLine(moves) && db == old(db)
    {
      contents := contents + Join(moves) + "\n";
    }

    /** `read_all_games`: parse the file line by line, appending each game
        to `db`; the first line `int` rejects ends the loop with a
        ValueError, the games before it kept. */
    method ReadAllGames() returns (r: Result<()>)
      modifies this
      ensures contents == old(contents)
      ensures db == old(db) + ParseLines(Lines(contents)).0
      ensures r == if ParseLines(Lines(contents)).1 then Err(ValueError) else Ok(())
    {
      r := AppendParsed(ParsedLines(Lines(contents)));
    }

    /** The loop of `read_all_games` over what `int` made of each line:
        append each game until the first ValueError. */
    method AppendParsed(parsed: seq<Result<seq<int>>>) returns (r: Result<()>)
      modifies this
      ensures contents == old(contents)
      ensures db == old(db) + Collect(parsed).0
      ensures r == if Collect(parsed).1 then Err(ValueError) else Ok(())
    {
      var k := 0;
      while k < |parsed|
        invariant k <= |parsed| && contents == old(contents)
        invariant db + Collect(parsed[k..]).0 == old(db) + Collect(parsed).0
        invariant Collect(parsed[k..]).1 == Collect(parsed).1
      {
        CollectStep(parsed, k);
        var gameTrace := parsed[k];
        if gameTrace.Err? {
          return Err(ValueError);
        }
        db := db + [gameTrace.value];
        k := k + 1;
      }
      return Ok(());
    }
  }
}
