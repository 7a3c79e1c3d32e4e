/** The symmetry group of the 3x3 board: a board is a 9-character string in
    row-major order, and a transform is a fixed list of 9 source indices
    (`xfrm`, `flipIt`, `rotIt` and `conjugates` of state.py and board.py). */
module Symmetry {

  /** A board string; every board of the program has exactly 9 cells. */
  type Board = seq<char>

  /** Mirror across the vertical axis. */
  const FlipXfrm: seq<int> := [2, 1, 0, 5, 4, 3, 8, 7, 6]

  /** Quarter turn. */
  const RotXfrm: seq<int> := [6, 3, 0, 7, 4, 1, 8, 5, 2]

  /** Every entry of `xf` is a cell index, so `xfrm` can read it. */
  predicate IsIndexMap(xf: seq<int>) {
    |xf| == 9 && forall i :: 0 <= i < 9 ==> 0 <= xf[i] < 9
  }

  /** `xf` is a permutation of the cells 0..8. */
  predicate IsPermutation(xf: seq<int>) {
    IsIndexMap(xf) && forall i, j :: 0 <= i < j < 9 ==> xf[i] != xf[j]
  }

  /** Cell `i` of the image is cell `xf[i]` of the board. */
  function Xfrm(b: Board, xf: seq<int>): (r: Board)
    requires |b| == 9 && IsIndexMap(xf)
    ensures |r| == 9
  {
    seq(9, i requires 0 <= i < 9 => b[xf[i]])
  }

  function FlipIt(b: Board): (r: Board)
    requires |b| == 9
    ensures |r| == 9
  {
    Xfrm(b, FlipXfrm)
  }

  function RotIt(b: Board): (r: Board)
    requires |b| == 9
    ensures |r| == 9
  {
    Xfrm(b, RotXfrm)
  }

  /** Both fixed transforms are permutations of 0..8. */
  lemma TransformsArePermutations()
    ensures IsPermutation(FlipXfrm) && IsPermutation(RotXfrm)
  {
  }

  /** The flip written cell by cell. */
  lemma FlipCells(b: Board)
    requires |b| == 9
    ensures FlipIt(b) == [b[2], b[1], b[0], b[5], b[4], b[3], b[8], b[7], b[6]]
  {
  }

  /** The rotation written cell by cell. */
  lemma RotCells(b: Board)
    requires |b| == 9
    ensures RotIt(b) == [b[6], b[3], b[0], b[7], b[4], b[1], b[8], b[5], b[2]]
  {
  }

  /** Flipping twice gives the board back. */
  lemma FlipInvolution(b: Board)
    requires |b| == 9
    ensures FlipIt(FlipIt(b)) == b
  {
    FlipCells(b);
    FlipCells(FlipIt(b));
  }

  /** Four quarter turns give the board back. */
  lemma RotOrderFour(b: Board)
    requires |b| == 9
    ensures RotIt(RotIt(RotIt(RotIt(b)))) == b
  {
    var r1 := RotIt(b);
    var r2 := RotIt(r1);
    var r3 := RotIt(r2);
    RotCells(b);
    RotCells(r1);
    RotCells(r2);
    RotCells(r3);
  }

  /** A rotation followed by a flip equals a flip followed by three rotations. */
  lemma FlipRotSwap(b: Board)
    requires |b| == 9
    ensures FlipIt(RotIt(b)) == RotIt(RotIt(RotIt(FlipIt(b))))
  {
    var f := FlipIt(b);
    var f1 := RotIt(f);
    var f2 := RotIt(f1);
    RotCells(b);
    FlipCells(b);
    FlipCells(RotIt(b));
    RotCells(f);
    RotCells(f1);
    RotCells(f2);
  }

  /** The loop of `conjugates`: each round appends the rotations of the two
      boards added last. */
  function ConjugatesFrom(conj: seq<Board>, rounds: nat): (r: seq<Board>)
    requires |conj| >= 2 && forall k :: 0 <= k < |conj| ==> |conj[k]| == 9
    ensures |r| == |conj| + 2 * rounds && r[..|conj|] == conj
    ensures forall k :: 0 <= k < |r| ==> |r[k]| == 9
    ensures forall k :: |conj| <= k < |r| ==> r[k] == RotIt(r[k - 2])
    decreases rounds
  {
    if rounds == 0 then conj
    else
      var n := |conj|;
      ConjugatesFrom(conj + [RotIt(conj[n - 2]), RotIt(conj[n - 1])], rounds - 1)
  }

  /** The 8 images of `b`: itself, its flip, then three rounds of rotations. */
  function Conjugates(b: Board): (r: seq<Board>)
    requires |b| == 9
    ensures |r| == 8 && r[0] == b && r[1] == FlipIt(b)
    ensures forall k :: 0 <= k < 8 ==> |r[k]| == 9
    ensures forall k :: 2 <= k < 8 ==> r[k] == RotIt(r[k - 2])
  {
    ConjugatesFrom([b, FlipIt(b)], 3)
  }

  /** The conjugates, listed as words in the flip and the rotation. */
  lemma ConjugatesListed(b: Board)
    requires |b| == 9
    ensures var f := FlipIt(b);
            Conjugates(b) == [b, f, RotIt(b), RotIt(f), RotIt(RotIt(b)), RotIt(RotIt(f)),
                              RotIt(RotIt(RotIt(b))), RotIt(RotIt(RotIt(f)))]
  {
  }

  /** The orbit of a rotated board is the orbit of the board. */
  lemma OrbitOfRotation(b: Board)
    requires |b| == 9
    ensures forall x :: x in Conjugates(RotIt(b)) <==> x in Conjugates(b)
  {
    var f := FlipIt(b);
    var r1 := RotIt(b);
    var r2 := RotIt(r1);
    var r3 := RotIt(r2);
    ConjugatesListed(b);
    ConjugatesListed(r1);
    RotOrderFour(b);
    FlipRotSwap(b);
    RotOrderFour(f);
    var c := Conjugates(r1);
    var d := Conjugates(b);
    assert c[1] == d[7];
    assert c[3] == d[1];
    assert c[5] == d[3];
    assert c[6] == d[0];
    assert c[7] == d[5];
    assert forall x :: x in c <==> x in d by {
      assert c[0] == d[2] && c[2] == d[4] && c[4] == d[6];
    }
  }

  /** The orbit of a flipped board is the orbit of the board. */
  lemma OrbitOfFlip(b: Board)
    requires |b| == 9
    ensures forall x :: x in Conjugates(FlipIt(b)) <==> x in Conjugates(b)
  {
    var f := FlipIt(b);
    ConjugatesListed(b);
    ConjugatesListed(f);
    FlipInvolution(b);
    var c := Conjugates(f);
    var d := Conjugates(b);
    assert c[0] == d[1] && c[1] == d[0] && c[2] == d[3] && c[3] == d[2];
    assert c[4] == d[5] && c[5] == d[4] && c[6] == d[7] && c[7] == d[6];
  }

  /** Symmetry closure: every member of an orbit has that same orbit. */
  lemma OrbitClosed(b: Board, c: Board)
    requires |b| == 9 && c in Conjugates(b)
    ensures forall x :: x in Conjugates(c) <==> x in Conjugates(b)
  {
    var f := FlipIt(b);
    var r1 := RotIt(b);
    var r2 := RotIt(r1);
    var f1 := RotIt(f);
    var f2 := RotIt(f1);
    ConjugatesListed(b);
    if c == b {
    } else if c == f {
      OrbitOfFlip(b);
    } else if c == r1 {
      OrbitOfRotation(b);
    } else if c == f1 {
      OrbitOfFlip(b);
      OrbitOfRotation(f);
    } else if c == r2 {
      OrbitOfRotation(b);
      OrbitOfRotation(r1);
    } else if c == f2 {
      OrbitOfFlip(b);
      OrbitOfRotation(f);
      OrbitOfRotation(f1);
    } else if c == RotIt(r2) {
      OrbitOfRotation(b);
      OrbitOfRotation(r1);
      OrbitOfRotation(r2);
    } else {
      assert c == RotIt(f2);
      OrbitOfFlip(b);
      OrbitOfRotation(f);
      OrbitOfRotation(f1);
      OrbitOfRotation(f2);
    }
  }

  /** Being in one orbit is a symmetric relation. */
  lemma OrbitSymmetric(b: Board, c: Board)
    requires |b| == 9 && c in Conjugates(b)
    ensures |c| == 9 && b in Conjugates(c)
  {
    OrbitClosed(b, c);
    assert b == Conjugates(b)[0];
  }
}
