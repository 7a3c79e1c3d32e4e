/** `tttToB` of state.py and board.py: a board code in [0, 3^9) read as nine
    base-3 digits, most significant first, with 0, 1, 2 written '.', 'X', 'O'.
    `Encode` is its inverse, used to show that the enumeration of all codes
    reaches every board. */
module Codec {

  /** A board over the alphabet of the class table. */
  predicate IsMarkBoard(b: seq<char>) {
    |b| == 9 && forall i :: 0 <= i < 9 ==> b[i] in ".XO"
  }

  function Pow3(k: nat): (r: nat)
    ensures r >= 1
  {
    if k == 0 then 1 else 3 * Pow3(k - 1)
  }

  /** The character `'.XO'[d]`. */
  function Mark(d: nat): char
    requires d < 3
  {
    ".XO"[d]
  }

  /** The digit a mark stands for; characters outside the alphabet read as 0. */
  function Digit(c: char): nat {
    if c == 'X' then 1 else if c == 'O' then 2 else 0
  }

  /** The last `k` base-3 digits of `n`, most significant first: each round of
      the loop prepends the digit `n % 3` and divides `n` by 3. */
  function DecodeDigits(n: nat, k: nat): (r: seq<char>)
    ensures |r| == k && forall i :: 0 <= i < k ==> r[i] in ".XO"
  {
    if k == 0 then [] else DecodeDigits(n / 3, k - 1) + [Mark(n % 3)]
  }

  function TttToB(n: nat): (r: seq<char>)
    ensures IsMarkBoard(r)
  {
    DecodeDigits(n, 9)
  }

  /** The number whose base-3 digits, most significant first, are `s`. */
  function Encode(s: seq<char>): (r: nat)
    ensures r < Pow3(|s|)
  {
    if s == [] then 0 else 3 * Encode(s[..|s| - 1]) + Digit(s[|s| - 1])
  }

  /** Decoding a code below 3^k and encoding again gives the code back. */
  lemma {:induction false} EncodeOfDecode(n: nat, k: nat)
    requires n < Pow3(k)
    ensures Encode(DecodeDigits(n, k)) == n
  {
    if k > 0 {
      var r := DecodeDigits(n, k);
      EncodeOfDecode(n / 3, k - 1);
      assert r[..k - 1] == DecodeDigits(n / 3, k - 1);
      assert Digit(r[k - 1]) == n % 3;
    }
  }

  /** Decoding the code of a board over '.XO' gives the board back. */
  lemma {:induction false} DecodeOfEncode(s: seq<char>)
    requires forall i :: 0 <= i < |s| ==> s[i] in ".XO"
    ensures DecodeDigits(Encode(s), |s|) == s
  {
    if s != [] {
      var n := Encode(s);
      var init := s[..|s| - 1];
      DecodeOfEncode(init);
      assert n / 3 == Encode(init);
      assert n % 3 == Digit(s[|s| - 1]);
      assert s == init + [s[|s| - 1]];
    }
  }

  /** Every code below 3^9 decodes to a board holding its digits, and the
      decoding is one-to-one on that range. */
  lemma TttToBInjective(n: nat, m: nat)
    requires n < Pow3(9) && m < Pow3(9)
    ensures TttToB(n) == TttToB(m) <==> n == m
  {
    EncodeOfDecode(n, 9);
    EncodeOfDecode(m, 9);
  }

  /** Every board over '.XO' is the decoding of some code below 3^9. */
  lemma EveryBoardHasCode(b: seq<char>)
    requires IsMarkBoard(b)
    ensures Encode(b) < Pow3(9) && TttToB(Encode(b)) == b
  {
    DecodeOfEncode(b);
  }
}
