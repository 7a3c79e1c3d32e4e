/** The equivalence-class table: `map_state_to_eqv_class`,
    `map_eqv_class_to_state`, the enumeration `list_all_eqv_classes` that
    fills them, and the search of `eqv_class_to_move`. In Python each of
    `State` and `Board` keeps its own pair of dicts as class attributes shared
    by its instances; here a pair is the fields of one explicit object, and
    since both pairs hold the same contents once built, one object may serve
    both classes. */
module ClassTables {
  import opened Errors
  import opened Symmetry
  import opened Codec
  import opened Evaluate

  /** Rotating or flipping a board over '.XO' gives a board over '.XO'. */
  lemma MarkBoardSymmetric(b: Board)
    requires IsMarkBoard(b)
    ensures IsMarkBoard(RotIt(b)) && IsMarkBoard(FlipIt(b))
  {
    RotCells(b);
    FlipCells(b);
  }

  /** Every member of the orbit of a board over '.XO' is a board over '.XO'. */
  lemma MarkBoardOnOrbit(b: Board, c: Board)
    requires IsMarkBoard(b) && c in Conjugates(b)
    ensures IsMarkBoard(c)
  {
    ConjugatesListed(b);
    var f := FlipIt(b);
    MarkBoardSymmetric(b);
    MarkBoardSymmetric(RotIt(b));
    MarkBoardSymmetric(RotIt(RotIt(b)));
    MarkBoardSymmetric(f);
    MarkBoardSymmetric(RotIt(f));
    MarkBoardSymmetric(RotIt(RotIt(f)));
  }

  /** The boards of the orbit of `b`, as the set `history.update(conj)` adds. */
  function Orbit(b: Board): (r: set<Board>)
    requires |b| == 9
    ensures forall x :: x in r <==> x in Conjugates(b)
  {
    set x | x in Conjugates(b)
  }

  /** An orbit either lies inside a set closed under conjugation or misses it. */
  lemma OrbitOutside(b: Board, history: set<Board>)
    requires |b| == 9 && b !in history
    requires forall h :: h in history ==> |h| == 9 && forall x :: x in Conjugates(h) ==> x in history
    ensures forall x :: x in Conjugates(b) ==> x !in history
  {
    forall x | x in Conjugates(b)
      ensures x !in history
    {
      OrbitSymmetric(b, x);
    }
  }

  /** A class list as `list_all_eqv_classes` stores it: the 8 conjugates of a legal board. */
  ghost predicate IsLegalOrbit(conj: seq<Board>) {
    |conj| == 8 && IsMarkBoard(conj[0]) && IsLegal(conj[0]) && conj == Conjugates(conj[0])
  }

  /** The ids in use are 1..count, each naming a legal orbit. */
  ghost predicate ClassesNumbered(c2s: map<int, seq<Board>>, count: nat) {
    (forall id :: id in c2s <==> 1 <= id <= count) &&
    (forall id :: id in c2s ==> IsLegalOrbit(c2s[id]))
  }

  /** The two tables agree: a board has an id exactly when it is listed under that id. */
  ghost predicate TablesAgree(s2c: map<Board, int>, c2s: map<int, seq<Board>>) {
    (forall id, b :: id in c2s && b in c2s[id] ==> b in s2c && s2c[b] == id) &&
    (forall b :: b in s2c ==> s2c[b] in c2s && b in c2s[s2c[b]])
  }

  /** The orbit of `h` lies inside `history`. */
  ghost predicate OrbitWithin(h: Board, history: set<Board>)
    requires |h| == 9
  {
    forall x :: x in Conjugates(h) ==> x in history
  }

  /** The boards seen so far form a union of orbits; each has an id exactly when it is legal. */
  ghost predicate SeenSoFar(s2c: map<Board, int>, history: set<Board>) {
    (forall b :: b in s2c ==> b in history) &&
    (forall h :: h in history ==> IsMarkBoard(h) && OrbitWithin(h, history) && (h in s2c <==> IsLegal(h)))
  }

  /** `for pos in conj: map.update({pos: id})`. */
  function AssignAll(m: map<Board, int>, conj: seq<Board>, id: int): (r: map<Board, int>)
    ensures forall x {:trigger x in r} :: x in r <==> x in m || x in conj
    ensures forall x {:trigger r[x]} :: x in r ==> r[x] == if x in conj then id else m[x]
  {
    if conj == [] then m
    else
      var init := conj[..|conj| - 1];
      assert forall x :: x in conj <==> x in init || x == conj[|conj| - 1];
      AssignAll(m, init, id)[conj[|conj| - 1] := id]
  }

  /** The state of the enumeration: both dicts, the last id and the seen set. */
  datatype Tables = Tables(s2c: map<Board, int>, c2s: map<int, seq<Board>>, count: nat, history: set<Board>)

  /** The tables part-way through the enumeration. */
  ghost predicate Partial(t: Tables) {
    ClassesNumbered(t.c2s, t.count) && |t.c2s| == t.count &&
    TablesAgree(t.s2c, t.c2s) && SeenSoFar(t.s2c, t.history)
  }

  /** The finished tables: every legal board over '.XO', and nothing else,
      has an id, and the ids follow the order of the orbits' least codes. */
  ghost predicate Built(s2c: map<Board, int>, c2s: map<int, seq<Board>>, count: nat) {
    ClassesNumbered(c2s, count) && TablesAgree(s2c, c2s) && Ordered(c2s) &&
    forall b :: b in s2c <==> IsMarkBoard(b) && IsLegal(b)
  }

  /** Each class list starts with its member of least code. */
  ghost predicate LeastFirst(c2s: map<int, seq<Board>>) {
    forall id, x :: id in c2s && x in c2s[id] ==> 0 < |c2s[id]| && Encode(c2s[id][0]) <= Encode(x)
  }

  /** A smaller id has a first member of smaller code. */
  ghost predicate FirstsAscending(c2s: map<int, seq<Board>>) {
    forall id, id' :: id in c2s && id' in c2s && id < id' ==>
      0 < |c2s[id]| && 0 < |c2s[id']| && Encode(c2s[id][0]) < Encode(c2s[id'][0])
  }

  /** The order in which the enumeration numbers the orbits: by least code. */
  ghost predicate Ordered(c2s: map<int, seq<Board>>) {
    LeastFirst(c2s) && FirstsAscending(c2s)
  }

  /** Every class found so far starts with a code below `m`. */
  ghost predicate FirstsBelow(c2s: map<int, seq<Board>>, m: nat) {
    forall id :: id in c2s ==> 0 < |c2s[id]| && Encode(c2s[id][0]) < m
  }

  /** What one round of the loop does to the state, for the code `m`. */
  function Step(t: Tables, b: Board, legal: bool): (r: Tables)
    requires |b| == 9
  {
    if b in t.history then t
    else
      if legal then
        Tables(AssignAll(t.s2c, Conjugates(b), t.count + 1), t.c2s[t.count + 1 := Conjugates(b)],
               t.count + 1, t.history + Orbit(b))
      else t.(history := t.history + Orbit(b))
  }

  /** One round keeps the partial tables in step and numbers ids without gaps. */
  lemma StepKeepsPartial(t: Tables, b: Board, legal: bool)
    requires Partial(t) && IsMarkBoard(b) && legal == IsLegal(b)
    ensures Partial(Step(t, b, legal))
  {
    if b in t.history {
    } else if legal {
      StepShape(t, b, legal);
      AddOrbit(t, b);
    } else {
      StepShape(t, b, legal);
      SkipOrbit(t, b);
    }
  }

  /** What a round does to a board not seen before. */
  lemma StepShape(t: Tables, b: Board, legal: bool)
    requires |b| == 9 && b !in t.history
    ensures legal ==>
      (Step(t, b, legal) ==
         Tables(AssignAll(t.s2c, Conjugates(b), t.count + 1), t.c2s[t.count + 1 := Conjugates(b)],
                t.count + 1, t.history + Orbit(b)))
    ensures !legal ==> Step(t, b, legal) == t.(history := t.history + Orbit(b))
  {
  }

  /** One round adds the board it visits, and forgets nothing, to the seen set. */
  lemma StepGrows(t: Tables, b: Board, legal: bool)
    requires |b| == 9
    ensures t.history <= Step(t, b, legal).history && b in Step(t, b, legal).history
  {
    assert b == Conjugates(b)[0];
  }

  /** The codes below `m + 1` have been visited once code `m` has. */
  lemma CodesSeenGrow(m: nat, history: set<Board>, history': set<Board>)
    requires forall k :: 0 <= k < m ==> TttToB(k) in history
    requires history <= history' && TttToB(m) in history'
    ensures forall k :: 0 <= k < m + 1 ==> TttToB(k) in history'
  {
  }

  /** Once every code has been decoded, the partial tables are finished. */
  lemma PartialComplete(t: Tables)
    requires Partial(t) && Ordered(t.c2s)
    requires forall k :: 0 <= k < Pow3(9) ==> TttToB(k) in t.history
    ensures Built(t.s2c, t.c2s, t.count) && |t.c2s| == t.count
  {
    forall b | IsMarkBoard(b)
      ensures b in t.history
    {
      EveryBoardHasCode(b);
    }
  }

  /** In finished tables the class of the empty board, code 0, has id 1 and
      is the orbit of the empty board, listed from the empty board itself. */
  lemma FirstClassIsEmptyBoard(s2c: map<Board, int>, c2s: map<int, seq<Board>>, count: nat)
    requires Built(s2c, c2s, count)
    ensures "........." in s2c && s2c["........."] == 1
    ensures 1 in c2s && c2s[1] == Conjugates(".........")
  {
    var e := ".........";
    EmptyBoardLegal();
    EmptyBoardCode();
    assert e in s2c;
    var id := s2c[e];
    assert id in c2s && e in c2s[id];
    assert Encode(c2s[id][0]) <= Encode(e) == 0;
    assert 1 in c2s && 1 <= id;
    assert id == 1;
    assert IsLegalOrbit(c2s[1]) && Encode(c2s[1][0]) == 0;
    CodeZeroIsEmpty(c2s[1][0]);
  }

  /** The only board over '.XO' of code 0 is the empty board. */
  lemma CodeZeroIsEmpty(h: Board)
    requires IsMarkBoard(h) && Encode(h) == 0
    ensures h == "........."
  {
    EveryBoardHasCode(h);
    EmptyBoardCode();
  }

  /** The empty board is a legal board over '.XO'. */
  lemma EmptyBoardLegal()
    ensures IsMarkBoard(".........") && IsLegal(".........")
  {
    var e := ".........";
    assert 'X' !in e && 'O' !in e && '\n' !in e;
    CountPositive(e, 'X');
    CountPositive(e, 'O');
    EvalBoardOutcomes(e);
    assert !HasLine(e, 'X') && !HasLine(e, 'O');
  }

  /** The empty board is the board of code 0. */
  lemma EmptyBoardCode()
    ensures TttToB(0) == "........." && Encode(".........") == 0
  {
    EncodeOfDecode(0, 9);
  }

  /** A board seen so far has its whole orbit seen. */
  lemma SeenClosed(t: Tables)
    requires Partial(t)
    ensures forall h :: h in t.history ==> |h| == 9 && forall x :: x in Conjugates(h) ==> x in t.history
  {
    forall h | h in t.history
      ensures |h| == 9 && forall x :: x in Conjugates(h) ==> x in t.history
    {
      assert IsMarkBoard(h) && OrbitWithin(h, t.history);
    }
  }

  /** The board of code `m`, unseen once every smaller code has been seen,
      has the least code of its orbit. */
  lemma UnseenIsLeast(history: set<Board>, b: Board, m: nat)
    requires m < Pow3(9) && b == TttToB(m) && b !in history
    requires forall k :: 0 <= k < m ==> TttToB(k) in history
    requires forall h :: h in history ==> |h| == 9 && forall x :: x in Conjugates(h) ==> x in history
    ensures Encode(b) == m
    ensures forall x :: x in Conjugates(b) ==> m <= Encode(x)
  {
    EncodeOfDecode(m, 9);
    OrbitOutside(b, history);
    forall x | x in Conjugates(b)
      ensures m <= Encode(x)
    {
      MarkBoardOnOrbit(b, x);
      EveryBoardHasCode(x);
    }
  }

  /** The round that finds a new class, headed by the least code `m` of its
      orbit, keeps each list headed by its least code. */
  lemma NewStepLeastFirst(t: Tables, b: Board, m: nat)
    requires LeastFirst(t.c2s) && t.count + 1 !in t.c2s
    requires |b| == 9 && b !in t.history && Encode(b) == m
    requires forall x :: x in Conjugates(b) ==> m <= Encode(x)
    ensures LeastFirst(Step(t, b, true).c2s)
  {
    StepClasses(t, b, true);
    var c := Step(t, b, true).c2s;
    forall id, x | id in c && x in c[id]
      ensures 0 < |c[id]| && Encode(c[id][0]) <= Encode(x)
    {
      if id == t.count + 1 {
        assert c[id] == Conjugates(b) && Conjugates(b)[0] == b;
      } else {
        assert id in t.c2s && c[id] == t.c2s[id];
      }
    }
  }

  /** The same new class, numbered after every earlier one, keeps the heads
      ascending with the ids and every head below `m + 1`. */
  lemma AddClassKeepsAscending(c2s: map<int, seq<Board>>, count: nat, b: Board, m: nat)
    requires ClassesNumbered(c2s, count) && FirstsAscending(c2s) && FirstsBelow(c2s, m)
    requires |b| == 9 && Encode(b) == m
    ensures FirstsAscending(c2s[count + 1 := Conjugates(b)])
    ensures FirstsBelow(c2s[count + 1 := Conjugates(b)], m + 1)
  {
    var c := c2s[count + 1 := Conjugates(b)];
    assert Conjugates(b)[0] == b;
    forall id, id' | id in c && id' in c && id < id'
      ensures 0 < |c[id]| && 0 < |c[id']| && Encode(c[id][0]) < Encode(c[id'][0])
    {
      assert id in c2s;
      if id' == count + 1 {
        assert c[id] == c2s[id] && c[id'] == Conjugates(b);
      } else {
        assert c[id] == c2s[id] && c[id'] == c2s[id'];
      }
    }
    forall id | id in c
      ensures 0 < |c[id]| && Encode(c[id][0]) < m + 1
    {
      if id != count + 1 {
        assert c[id] == c2s[id];
      }
    }
  }

  /** One round adds a class exactly when it visits an unseen legal board. */
  lemma StepClasses(t: Tables, b: Board, legal: bool)
    requires |b| == 9
    ensures Step(t, b, legal).c2s ==
      if b !in t.history && legal then t.c2s[t.count + 1 := Conjugates(b)] else t.c2s
  {
  }

  /** One round of the loop, for code `m`, keeps the ids in the order of the
      least codes of their orbits, each list headed by that least code. */
  lemma StepKeepsOrder(t: Tables, b: Board, legal: bool, m: nat)
    requires ClassesNumbered(t.c2s, t.count) && m < Pow3(9) && b == TttToB(m)
    requires forall h :: h in t.history ==> |h| == 9 && forall x :: x in Conjugates(h) ==> x in t.history
    requires forall k :: 0 <= k < m ==> TttToB(k) in t.history
    requires Ordered(t.c2s) && FirstsBelow(t.c2s, m)
    ensures Ordered(Step(t, b, legal).c2s) && FirstsBelow(Step(t, b, legal).c2s, m + 1)
  {
    if b !in t.history && legal {
      UnseenIsLeast(t.history, b, m);
      NewStepLeastFirst(t, b, m);
      NewStepAscending(t, b, m);
      NewStepBelow(t, b, m);
    } else {
      StepClasses(t, b, legal);
      BelowGrows(t.c2s, m);
    }
  }

  /** The same round keeps the heads ascending with the ids. */
  lemma NewStepAscending(t: Tables, b: Board, m: nat)
    requires ClassesNumbered(t.c2s, t.count) && FirstsAscending(t.c2s) && FirstsBelow(t.c2s, m)
    requires |b| == 9 && b !in t.history && Encode(b) == m
    ensures FirstsAscending(Step(t, b, true).c2s)
  {
    StepClasses(t, b, true);
    AddClassKeepsAscending(t.c2s, t.count, b, m);
  }

  /** The same round leaves every head below `m + 1`. */
  lemma NewStepBelow(t: Tables, b: Board, m: nat)
    requires ClassesNumbered(t.c2s, t.count) && FirstsAscending(t.c2s) && FirstsBelow(t.c2s, m)
    requires |b| == 9 && b !in t.history && Encode(b) == m
    ensures FirstsBelow(Step(t, b, true).c2s, m + 1)
  {
    StepClasses(t, b, true);
    AddClassKeepsAscending(t.c2s, t.count, b, m);
  }

  /** Heads below `m` are below `m + 1`. */
  lemma BelowGrows(c2s: map<int, seq<Board>>, m: nat)
    requires FirstsBelow(c2s, m)
    ensures FirstsBelow(c2s, m + 1)
  {
  }

  /** Marking the orbit of an illegal unseen board as seen keeps the tables in step. */
  lemma SkipOrbit(t: Tables, b: Board)
    requires Partial(t) && IsMarkBoard(b) && b !in t.history && !IsLegal(b)
    ensures Partial(t.(history := t.history + Orbit(b)))
  {
    AddOrbitSeen(t.s2c, t.history, b, t.s2c);
  }

  /** The new id names a legal orbit, one past the old ones. */
  lemma AddOrbitNumbered(c2s: map<int, seq<Board>>, count: nat, b: Board)
    requires ClassesNumbered(c2s, count) && IsMarkBoard(b) && IsLegal(b)
    ensures ClassesNumbered(c2s[count + 1 := Conjugates(b)], count + 1)
  {
    assert IsLegalOrbit(Conjugates(b));
  }

  /** The tables still agree once an orbit none of whose boards has an id
      gets a new id. */
  lemma AddOrbitAgree(s2c: map<Board, int>, c2s: map<int, seq<Board>>, id': int, conj: seq<Board>,
                      s2c': map<Board, int>)
    requires TablesAgree(s2c, c2s) && id' !in c2s
    requires forall x :: x in s2c ==> x !in conj
    requires forall x :: x in s2c' <==> x in s2c || x in conj
    requires forall x :: x in s2c' ==> s2c'[x] == if x in conj then id' else s2c[x]
    ensures TablesAgree(s2c', c2s[id' := conj])
  {
    var c2s' := c2s[id' := conj];
    forall id, x | id in c2s' && x in c2s'[id]
      ensures x in s2c' && s2c'[x] == id
    {
      if id != id' {
        MemberHasClass(s2c, c2s, id, x);
      }
    }
  }

  /** A board of a newly seen orbit has what `SeenSoFar` asks of it. */
  lemma NewlySeen(s2c': map<Board, int>, history: set<Board>, b: Board, h: Board)
    requires IsMarkBoard(b) && h in Conjugates(b)
    requires forall x :: x in Conjugates(b) ==> (x in s2c' <==> IsLegal(b))
    ensures IsMarkBoard(h) && OrbitWithin(h, history + Orbit(b))
    ensures h in s2c' <==> IsLegal(h)
  {
    MarkBoardOnOrbit(b, h);
    EvalBoardOnOrbit(b, h);
    OrbitClosed(b, h);
  }

  /** A board seen before keeps what `SeenSoFar` asks of it. */
  lemma StillSeen(s2c: map<Board, int>, s2c': map<Board, int>, history: set<Board>, b: Board, h: Board)
    requires SeenSoFar(s2c, history) && h in history
    requires |b| == 9 && b !in history
    requires h in s2c' <==> h in s2c || h in Conjugates(b)
    ensures IsMarkBoard(h) && OrbitWithin(h, history + Orbit(b))
    ensures h in s2c' <==> IsLegal(h)
  {
    OrbitOutside(b, history);
  }

  /** The seen set grows by a whole orbit, whose boards have an id exactly when
      the board that spans it is legal. */
  lemma AddOrbitSeen(s2c: map<Board, int>, history: set<Board>, b: Board, s2c': map<Board, int>)
    requires SeenSoFar(s2c, history)
    requires IsMarkBoard(b) && b !in history
    requires forall x :: x in s2c' <==> x in s2c || (IsLegal(b) && x in Conjugates(b))
    ensures SeenSoFar(s2c', history + Orbit(b))
  {
    var h2 := history + Orbit(b);
    OrbitOutside(b, history);
    forall x | x in s2c'
      ensures x in h2
    {
      if x !in s2c {
        assert x in Conjugates(b);
      }
    }
    forall h | h in h2
      ensures IsMarkBoard(h) && OrbitWithin(h, h2) && (h in s2c' <==> IsLegal(h))
    {
      if h in history {
        StillSeen(s2c, s2c', history, b, h);
      } else {
        NewlySeen(s2c', history, b, h);
      }
    }
  }

  /** Giving the orbit of a legal unseen board the next id keeps the tables in step. */
  lemma AddOrbit(t: Tables, b: Board)
    requires Partial(t) && IsMarkBoard(b) && b !in t.history && IsLegal(b)
    ensures Partial(Tables(AssignAll(t.s2c, Conjugates(b), t.count + 1), t.c2s[t.count + 1 := Conjugates(b)],
                           t.count + 1, t.history + Orbit(b)))
  {
    AddOrbitNumbered(t.c2s, t.count, b);
    assert t.count + 1 !in t.c2s;
    NewClassAgrees(t, b);
    NewClassSeen(t, b);
  }

  /** The tables agree once the orbit of an unseen board gets the next id. */
  lemma NewClassAgrees(t: Tables, b: Board)
    requires Partial(t) && IsMarkBoard(b) && b !in t.history
    ensures TablesAgree(AssignAll(t.s2c, Conjugates(b), t.count + 1), t.c2s[t.count + 1 := Conjugates(b)])
  {
    OrbitOutside(b, t.history);
    AddOrbitAgree(t.s2c, t.c2s, t.count + 1, Conjugates(b), AssignAll(t.s2c, Conjugates(b), t.count + 1));
  }

  /** The seen set stays a union of orbits once a legal orbit gets the next id. */
  lemma NewClassSeen(t: Tables, b: Board)
    requires SeenSoFar(t.s2c, t.history) && IsMarkBoard(b) && b !in t.history && IsLegal(b)
    ensures SeenSoFar(AssignAll(t.s2c, Conjugates(b), t.count + 1), t.history + Orbit(b))
  {
    AddOrbitSeen(t.s2c, t.history, b, AssignAll(t.s2c, Conjugates(b), t.count + 1));
  }

  /** One instance of `TablesAgree`. */
  lemma MemberHasClass(s2c: map<Board, int>, c2s: map<int, seq<Board>>, id: int, x: Board)
    requires TablesAgree(s2c, c2s) && id in c2s && x in c2s[id]
    ensures x in s2c && s2c[x] == id
  {
  }

  /** The orbit of a member of `conj` lies in `conj`, when `conj` is an orbit. */
  lemma OrbitOfMember(conj: seq<Board>, b: Board, x: Board)
    requires IsLegalOrbit(conj) && b in conj && x in Conjugates(b)
    ensures x in conj
  {
    OrbitClosed(conj[0], b);
  }

  /** Symmetry closure of the finished table: every board of the orbit of a
      board with an id has that same id. */
  lemma OrbitSharesClass(s2c: map<Board, int>, c2s: map<int, seq<Board>>, count: nat, b: Board, x: Board)
    requires Built(s2c, c2s, count) && b in s2c && |b| == 9 && x in Conjugates(b)
    ensures x in s2c && s2c[x] == s2c[b]
  {
    var id := s2c[b];
    OrbitOfMember(c2s[id], b, x);
    MemberHasClass(s2c, c2s, id, x);
  }

  /** Two boards with the same id are in one orbit. */
  lemma ClassIsOneOrbit(s2c: map<Board, int>, c2s: map<int, seq<Board>>, count: nat, b: Board, x: Board)
    requires Built(s2c, c2s, count) && b in s2c && x in s2c && s2c[x] == s2c[b]
    ensures |b| == 9 && x in Conjugates(b)
  {
    var rep := c2s[s2c[b]][0];
    assert b in Conjugates(rep) && x in Conjugates(rep);
    OrbitClosed(rep, b);
  }

  /** `len(diff) == 2` of `eqv_class_to_move`, read as: the boards differ in exactly one cell. */
  predicate OneCellApart(a: seq<char>, c: seq<char>) {
    |a| == 9 && |c| == 9 &&
    exists i :: 0 <= i < 9 && a[i] != c[i] && forall j :: 0 <= j < 9 && j != i ==> a[j] == c[j]
  }

  /** The move `eqv_class_to_move` reads off a list of class members: the first
      member one cell apart from `last`, and there the 1-based position of the
      first differing cell. */
  function MoveFromMembers(items: seq<Board>, last: seq<char>): (r: Option<nat>)
    ensures r.Some? ==> (1 <= r.value <= 9 &&
      exists k :: 0 <= k < |items| && OneCellApart(items[k], last) &&
        items[k][r.value - 1] != last[r.value - 1] &&
        forall j :: 0 <= j < 9 && j != r.value - 1 ==> items[k][j] == last[j])
    ensures r.None? <==> forall k :: 0 <= k < |items| ==> !OneCellApart(items[k], last)
    ensures r.Some? ==>
      exists k :: 0 <= k < |items| && OneCellApart(items[k], last) &&
        (forall k' :: 0 <= k' < k ==> !OneCellApart(items[k'], last)) &&
        r.value == FirstDiff(items[k], last, 0) + 1
  {
    if items == [] then None
    else if OneCellApart(items[0], last) then Some(FirstDiff(items[0], last, 0) + 1)
    else
      var rest := MoveFromMembers(items[1..], last);
      assert forall k :: 1 <= k < |items| ==> items[k] == items[1..][k - 1];
      rest
  }

  /** The first index from `i` on where two boards one cell apart differ. */
  function FirstDiff(a: seq<char>, c: seq<char>, i: nat): (r: nat)
    requires OneCellApart(a, c) && i < 9
    requires forall j :: 0 <= j < i ==> a[j] == c[j]
    ensures i <= r < 9 && a[r] != c[r] && forall j :: 0 <= j < 9 && j != r ==> a[j] == c[j]
    decreases 9 - i
  {
    if a[i] != c[i] then i else FirstDiff(a, c, i + 1)
  }

  class ClassTable {
    var stateToClass: map<Board, int>
    var classToStates: map<int, seq<Board>>

    /** Tables that `list_all_eqv_classes` has filled. */
    ghost predicate Valid()
      reads this
    {
      Built(stateToClass, classToStates, |classToStates|)
    }

    /** The class-level dicts before any enumeration: empty. */
    constructor ()
      ensures stateToClass == map[] && classToStates == map[]
    {
      stateToClass := map[];
      classToStates := map[];
    }

    /** `list_all_eqv_classes`: walk all 3^9 codes, numbering each new legal
        orbit 1, 2, ... and skipping boards whose orbit was already seen. */
    method ListAllEqvClasses()
      modifies this
      ensures Valid()
    {
      stateToClass := map[];
      classToStates := map[];
      var number: nat := 0;
      var history: set<Board> := {};
      var m := 0;
      while m < Pow3(9)
        invariant m <= Pow3(9)
        invariant Partial(Tables(stateToClass, classToStates, number, history))
        invariant forall k :: 0 <= k < m ==> TttToB(k) in history
        invariant Ordered(classToStates) && FirstsBelow(classToStates, m)
      {
        ghost var before := Tables(stateToClass, classToStates, number, history);
        var b := TttToB(m);
        var t, legal := VisitCode(b, number, history);
        StepKeepsPartial(before, b, legal);
        SeenClosed(before);
        StepKeepsOrder(before, b, legal, m);
        StepGrows(before, b, legal);
        CodesSeenGrow(m, history, t.history);
        number, history := t.count, t.history;
        m := m + 1;
      }
      PartialComplete(Tables(stateToClass, classToStates, number, history));
    }

    /** One round of the loop of `list_all_eqv_classes`, for the code `m`. */
    method VisitCode(b: Board, number: nat, history: set<Board>) returns (t: Tables, legal: bool)
      requires |b| == 9
      modifies this
      ensures legal == IsLegal(b)
      ensures t == Step(Tables(old(stateToClass), old(classToStates), number, history), b, legal)
      ensures stateToClass == t.s2c && classToStates == t.c2s
    {
      t := Tables(stateToClass, classToStates, number, history);
      legal := EvalBoard(b) != Illegal;
      if b !in history {
        if legal {
          var conj := Conjugates(b);
          RegisterClass(conj, number + 1);
          t := Tables(stateToClass, classToStates, number + 1, history + Orbit(b));
        } else {
          t := t.(history := history + Orbit(b));
        }
      }
    }

    /** The two dict updates of `list_all_eqv_classes` for a new class: every
        orbit member gets the id, and the id gets the orbit list. */
    method RegisterClass(conj: seq<Board>, id: int)
      modifies this
      ensures stateToClass == AssignAll(old(stateToClass), conj, id)
      ensures classToStates == old(classToStates)[id := conj]
    {
      var i := 0;
      while i < |conj|
        invariant i <= |conj|
        invariant classToStates == old(classToStates)
        invariant stateToClass == AssignAll(old(stateToClass), conj[..i], id)
      {
        assert conj[..i + 1][..i] == conj[..i];
        stateToClass := stateToClass[conj[i] := id];
        i := i + 1;
      }
      assert conj[..|conj|] == conj;
      classToStates := classToStates[id := conj];
    }

    /** `eqv_class_to_move` once `last_state` is known: a KeyError for an
        unknown id, the failing `assert(False)` when no member of the class is
        one cell apart from `last`, and otherwise the 1-based cell. */
    function ClassMove(cls: int, last: seq<char>): (r: Result<nat>)
      reads this
      ensures r.Err? ==> r.error == KeyError || r.error == AssertionError
      ensures r.Err? && r.error == KeyError <==> cls !in classToStates
      ensures r.Err? && r.error == AssertionError <==>
        cls in classToStates && forall k :: 0 <= k < |classToStates[cls]| ==> !OneCellApart(classToStates[cls][k], last)
      ensures r.Ok? ==> (1 <= r.value <= 9 &&
        exists k :: 0 <= k < |classToStates[cls]| && OneCellApart(classToStates[cls][k], last) &&
          classToStates[cls][k][r.value - 1] != last[r.value - 1])
      ensures r.Ok? ==>
        exists k :: 0 <= k < |classToStates[cls]| && OneCellApart(classToStates[cls][k], last) &&
          (forall k' :: 0 <= k' < k ==> !OneCellApart(classToStates[cls][k'], last)) &&
          r.value == FirstDiff(classToStates[cls][k], last, 0) + 1
    {
      if cls !in classToStates then Err(KeyError)
      else match MoveFromMembers(classToStates[cls], last)
        case Some(p) => Ok(p)
        case None => Err(AssertionError)
    }

    /** The loops of `eqv_class_to_move`: over the members of the class, and
        over the cells of the first member one cell apart from `last`. */
    method EqvClassToMove(cls: int, last: seq<char>) returns (r: Result<nat>)
      ensures r == ClassMove(cls, last)
    {
      if cls !in classToStates {
        return Err(KeyError);
      }
      var items := classToStates[cls];
      var k := 0;
      while k < |items|
        invariant k <= |items|
        invariant MoveFromMembers(items[k..], last) == MoveFromMembers(items, last)
      {
        var item := items[k];
        assert items[k..][1..] == items[k + 1..];
        if OneCellApart(item, last) {
          var it := 0;
          while it < 9
            invariant it < 9
            invariant forall j :: 0 <= j < it ==> item[j] == last[j]
            invariant FirstDiff(item, last, it) == FirstDiff(item, last, 0)
          {
            if item[it] != last[it] {
              return Ok(it + 1);
            }
            it := it + 1;
          }
        }
        k := k + 1;
      }
      return Err(AssertionError);
    }
  }
}
