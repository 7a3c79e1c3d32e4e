/** `evalBoard` of state.py and board.py: the legality and outcome of a board
    over '.XO'. The win test matches the regular expression
    `XXX......|...XXX...|......XXX|X...X...X` (and its O variant) against the
    board and against its rotation; in that pattern '.' is the regex wildcard
    (any character but a newline), not the empty mark. */
module Evaluate {
  import opened Symmetry

  /** What `evalBoard` returns: False, 'X', 'O', '.' or '/'. */
  datatype Outcome =
    | Illegal   // False: wrong move counts, or a line for a player who cannot have one
    | WonByX    // 'X'
    | WonByO    // 'O'
    | Ongoing   // '.': no winner and an empty cell remains
    | Full      // '/': no winner and no empty cell

  /** `Counter(b)[m]`: how many cells of `b` hold `m`. */
  function Count(b: seq<char>, m: char): nat {
    if b == [] then 0 else Count(b[..|b| - 1], m) + (if b[|b| - 1] == m then 1 else 0)
  }

  /** `m` occurs in `b` exactly when its count is positive. */
  lemma {:induction false} CountPositive(b: seq<char>, m: char)
    ensures m in b <==> Count(b, m) > 0
  {
    if b != [] {
      CountPositive(b[..|b| - 1], m);
      assert b == b[..|b| - 1] + [b[|b| - 1]];
    }
  }

  function Ind(p: bool): nat {
    if p then 1 else 0
  }

  /** A regex wildcard: any character except a newline. */
  predicate Wild(c: char) {
    c != '\n'
  }

  /** One alternative of the pattern: the cells a, b, c hold `m` and every
      other cell matches the wildcard. */
  predicate Alternative(s: Board, m: char, a: nat, b: nat, c: nat)
    requires |s| == 9 && a < 9 && b < 9 && c < 9
  {
    s[a] == m && s[b] == m && s[c] == m &&
    forall i :: 0 <= i < 9 && i != a && i != b && i != c ==> Wild(s[i])
  }

  /** `re.match(p, s)` for `p` the pattern with `m` in place of 'X'. */
  predicate MatchesPattern(s: Board, m: char)
    requires |s| == 9
  {
    Alternative(s, m, 0, 1, 2) || Alternative(s, m, 3, 4, 5) ||
    Alternative(s, m, 6, 7, 8) || Alternative(s, m, 0, 4, 8)
  }

  /** `w1` / `w2` of `evalBoard`: the pattern matches the board or its rotation. */
  predicate Wins(b: Board, m: char)
    requires |b| == 9
  {
    MatchesPattern(b, m) || MatchesPattern(RotIt(b), m)
  }

  /** The 3 rows, 3 columns and 2 diagonals of the grid. */
  const Lines: seq<(nat, nat, nat)> :=
    [(0, 1, 2), (3, 4, 5), (6, 7, 8), (0, 3, 6), (1, 4, 7), (2, 5, 8), (0, 4, 8), (2, 4, 6)]

  predicate Completes(b: Board, line: (nat, nat, nat), m: char)
    requires |b| == 9 && line.0 < 9 && line.1 < 9 && line.2 < 9
  {
    b[line.0] == m && b[line.1] == m && b[line.2] == m
  }

  /** Reference win test: `m` fills some row, column or diagonal. */
  predicate HasLine(b: Board, m: char)
    requires |b| == 9
  {
    exists k :: 0 <= k < 8 && Completes(b, Lines[k], m)
  }

  function EvalBoard(b: Board): (r: Outcome)
    requires |b| == 9
  {
    var nx := Count(b, 'X');
    var no := Count(b, 'O');
    if nx - no != 0 && nx - no != 1 then Illegal
    else
      var w1 := Wins(b, 'X');
      var w2 := Wins(b, 'O');
      if w1 && w2 then Illegal
      else if w1 then (if nx == no + 1 then WonByX else Illegal)
      else if w2 then (if nx == no then WonByO else Illegal)
      else if '.' in b then Ongoing
      else Full
  }

  /** A board is legal when `evalBoard` returns a truthy value. */
  predicate IsLegal(b: Board)
    requires |b| == 9
  {
    EvalBoard(b) != Illegal
  }

  /** The reference win test, one line at a time. */
  lemma HasLineCases(b: Board, m: char)
    requires |b| == 9
    ensures HasLine(b, m) <==>
      (b[0] == m && b[1] == m && b[2] == m) || (b[3] == m && b[4] == m && b[5] == m) ||
      (b[6] == m && b[7] == m && b[8] == m) || (b[0] == m && b[3] == m && b[6] == m) ||
      (b[1] == m && b[4] == m && b[7] == m) || (b[2] == m && b[5] == m && b[8] == m) ||
      (b[0] == m && b[4] == m && b[8] == m) || (b[2] == m && b[4] == m && b[6] == m)
  {
    if b[0] == m && b[1] == m && b[2] == m { assert Completes(b, Lines[0], m); }
    if b[3] == m && b[4] == m && b[5] == m { assert Completes(b, Lines[1], m); }
    if b[6] == m && b[7] == m && b[8] == m { assert Completes(b, Lines[2], m); }
    if b[0] == m && b[3] == m && b[6] == m { assert Completes(b, Lines[3], m); }
    if b[1] == m && b[4] == m && b[7] == m { assert Completes(b, Lines[4], m); }
    if b[2] == m && b[5] == m && b[8] == m { assert Completes(b, Lines[5], m); }
    if b[0] == m && b[4] == m && b[8] == m { assert Completes(b, Lines[6], m); }
    if b[2] == m && b[4] == m && b[6] == m { assert Completes(b, Lines[7], m); }
  }

  /** Matching the four-alternative pattern against a board without newlines
      and against its rotation finds exactly the 8 lines. */
  lemma WinsIffLine(b: Board, m: char)
    requires |b| == 9 && '\n' !in b
    ensures Wins(b, m) <==> HasLine(b, m)
  {
    HasLineCases(b, m);
    RotCells(b);
    var br := RotIt(b);
    assert forall i :: 0 <= i < 9 ==> Wild(b[i]) && Wild(br[i]);
  }

  /** Rotating or flipping a board permutes its lines. */
  lemma HasLineSymmetric(b: Board, m: char)
    requires |b| == 9
    ensures HasLine(RotIt(b), m) <==> HasLine(b, m)
    ensures HasLine(FlipIt(b), m) <==> HasLine(b, m)
  {
    HasLineCases(b, m);
    HasLineCases(RotIt(b), m);
    HasLineCases(FlipIt(b), m);
    RotCells(b);
    FlipCells(b);
  }

  /** Counting one more cell of a prefix. */
  lemma CountStep(s: seq<char>, m: char, k: nat)
    requires k < |s|
    ensures Count(s[..k + 1], m) == Count(s[..k], m) + Ind(s[k] == m)
  {
    assert s[..k + 1][..k] == s[..k];
  }

  /** The count of a mark, cell by cell. */
  lemma CountListed(b: Board, m: char)
    requires |b| == 9
    ensures Count(b, m) == Ind(b[0] == m) + Ind(b[1] == m) + Ind(b[2] == m) + Ind(b[3] == m) +
                           Ind(b[4] == m) + Ind(b[5] == m) + Ind(b[6] == m) + Ind(b[7] == m) + Ind(b[8] == m)
  {
    assert b[..0] == [];
    CountStep(b, m, 0);
    CountStep(b, m, 1);
    CountStep(b, m, 2);
    CountStep(b, m, 3);
    CountStep(b, m, 4);
    CountStep(b, m, 5);
    CountStep(b, m, 6);
    CountStep(b, m, 7);
    CountStep(b, m, 8);
    assert b[..9] == b;
  }

  /** Rotating or flipping a board keeps the number of each mark. */
  lemma CountSymmetric(b: Board, m: char)
    requires |b| == 9
    ensures Count(RotIt(b), m) == Count(b, m) && Count(FlipIt(b), m) == Count(b, m)
  {
    RotCells(b);
    FlipCells(b);
    CountListed(b, m);
    CountListed(RotIt(b), m);
    CountListed(FlipIt(b), m);
  }

  /** Whatever `evalBoard` returns, stated with the reference win test. */
  lemma EvalBoardOutcomes(b: Board)
    requires |b| == 9 && '\n' !in b
    ensures var nx, no := Count(b, 'X'), Count(b, 'O');
            var lx, lo := HasLine(b, 'X'), HasLine(b, 'O');
            (EvalBoard(b) == Illegal <==>
               (nx != no && nx != no + 1) || (lx && lo) || (lx && nx != no + 1) || (lo && nx != no)) &&
            (EvalBoard(b) == WonByX <==> lx && !lo && nx == no + 1) &&
            (EvalBoard(b) == WonByO <==> lo && !lx && nx == no) &&
            (EvalBoard(b) == Ongoing <==> (nx == no || nx == no + 1) && !lx && !lo && '.' in b) &&
            (EvalBoard(b) == Full <==> (nx == no || nx == no + 1) && !lx && !lo && '.' !in b)
  {
    WinsIffLine(b, 'X');
    WinsIffLine(b, 'O');
  }

  /** `evalBoard` gives the same answer on every board of an orbit. */
  lemma EvalBoardSymmetric(b: Board)
    requires |b| == 9 && '\n' !in b
    ensures EvalBoard(RotIt(b)) == EvalBoard(b) && EvalBoard(FlipIt(b)) == EvalBoard(b)
    ensures '\n' !in RotIt(b) && '\n' !in FlipIt(b)
  {
    CountSymmetric(b, 'X');
    CountSymmetric(b, 'O');
    CountSymmetric(b, '.');
    CountSymmetric(b, '\n');
    HasLineSymmetric(b, 'X');
    HasLineSymmetric(b, 'O');
    CountPositive(b, '.');
    CountPositive(RotIt(b), '.');
    CountPositive(FlipIt(b), '.');
    CountPositive(b, '\n');
    CountPositive(RotIt(b), '\n');
    CountPositive(FlipIt(b), '\n');
    WinsIffLine(b, 'X');
    WinsIffLine(b, 'O');
    WinsIffLine(RotIt(b), 'X');
    WinsIffLine(RotIt(b), 'O');
    WinsIffLine(FlipIt(b), 'X');
    WinsIffLine(FlipIt(b), 'O');
  }

  /** Every board of an orbit has the outcome of the board that spans it. */
  lemma EvalBoardOnOrbit(b: Board, c: Board)
    requires |b| == 9 && '\n' !in b && c in Conjugates(b)
    ensures |c| == 9 && '\n' !in c && EvalBoard(c) == EvalBoard(b)
  {
    ConjugatesListed(b);
    var f := FlipIt(b);
    var r1 := RotIt(b);
    var r2 := RotIt(r1);
    var f1 := RotIt(f);
    var f2 := RotIt(f1);
    EvalBoardSymmetric(b);
    EvalBoardSymmetric(r1);
    EvalBoardSymmetric(r2);
    EvalBoardSymmetric(f);
    EvalBoardSymmetric(f1);
    EvalBoardSymmetric(f2);
  }
}
