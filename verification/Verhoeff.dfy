/** The account-number checksum (obscura-ui/src/common/accountUtils.ts, lines 4-46):
    the Verhoeff scheme over the dihedral group of order ten, for digit strings of
    any length. */
module Verhoeff {

  type Digit = d: nat | d < 10

  const D: seq<seq<Digit>> := [
    [0, 1, 2, 3, 4, 5, 6, 7, 8, 9],
    [1, 2, 3, 4, 0, 6, 7, 8, 9, 5],
    [2, 3, 4, 0, 1, 7, 8, 9, 5, 6],
    [3, 4, 0, 1, 2, 8, 9, 5, 6, 7],
    [4, 0, 1, 2, 3, 9, 5, 6, 7, 8],
    [5, 9, 8, 7, 6, 0, 4, 3, 2, 1],
    [6, 5, 9, 8, 7, 1, 0, 4, 3, 2],
    [7, 6, 5, 9, 8, 2, 1, 0, 4, 3],
    [8, 7, 6, 5, 9, 3, 2, 1, 0, 4],
    [9, 8, 7, 6, 5, 4, 3, 2, 1, 0]
  ]

  const P: seq<seq<Digit>> := [
    [0, 1, 2, 3, 4, 5, 6, 7, 8, 9],
    [1, 5, 7, 6, 2, 8, 3, 0, 9, 4],
    [5, 8, 0, 3, 7, 9, 6, 1, 4, 2],
    [8, 9, 1, 6, 0, 4, 3, 5, 2, 7],
    [9, 4, 5, 3, 1, 2, 6, 8, 7, 0],
    [4, 2, 8, 6, 5, 7, 3, 9, 0, 1],
    [2, 7, 9, 3, 8, 0, 6, 4, 1, 5],
    [7, 0, 4, 6, 9, 1, 3, 2, 5, 8]
  ]

  const INVERSE: seq<Digit> := [0, 4, 3, 2, 1, 5, 6, 7, 8, 9]

  function Mul(a: Digit, b: Digit): Digit { D[a][b] }

  function Perm(k: nat, d: Digit): Digit { P[k % 8][d] }

  /** The right fold over a product and the permutations of each position; the last
      digit is at position 0. */
  function Fold(mul: (Digit, Digit) -> Digit, perm: (nat, Digit) -> Digit, s: seq<Digit>): Digit {
    if s == [] then 0 else mul(Fold(mul, perm, s[1..]), perm(|s| - 1, s[0]))
  }

  function RawChecksum(s: seq<Digit>): Digit { Fold(Mul, Perm, s) }

  function CheckDigit(s: seq<Digit>): Digit { INVERSE[RawChecksum(s + [0])] }

  predicate ValidChecksum(s: seq<Digit>) { RawChecksum(s) == 0 }

  // --------------------------------------------------------------- the dihedral group

  /** Reduction modulo 5 of a sum or difference of two residues. */
  function Wrap(n: int): int {
    if n < 0 then n + 5 else if n >= 5 then n - 5 else n
  }

  /** Rotations 0-4 and reflections 5-9 of the pentagon. */
  function Dihedral(a: Digit, b: Digit): Digit {
    if a < 5 then
      if b < 5 then Wrap(a + b) else 5 + Wrap(a + b - 5)
    else
      if b < 5 then 5 + Wrap(a - 5 - b) else Wrap(a - b)
  }

  lemma TableIsDihedral(a: Digit, b: Digit)
    ensures Mul(a, b) == Dihedral(a, b)
  {
    if a < 5 { RotationRows(a, b); } else { ReflectionRows(a, b); }
  }

  lemma RotationRows(a: Digit, b: Digit)
    requires a < 5
    ensures Mul(a, b) == Dihedral(a, b)
  {
    if
    case a == 0 => case a == 1 => case a == 2 => case a == 3 => case a == 4 =>
  }

  lemma ReflectionRows(a: Digit, b: Digit)
    requires a >= 5
    ensures Mul(a, b) == Dihedral(a, b)
  {
    if
    case a == 5 => case a == 6 => case a == 7 => case a == 8 => case a == 9 =>
  }

  lemma DihedralAssociative(a: Digit, b: Digit, c: Digit)
    ensures Dihedral(Dihedral(a, b), c) == Dihedral(a, Dihedral(b, c))
  {
    if a < 5 { RotationAssociates(a, b, c); } else { ReflectionAssociates(a, b, c); }
  }

  lemma RotationAssociates(a: Digit, b: Digit, c: Digit)
    requires a < 5
    ensures Dihedral(Dihedral(a, b), c) == Dihedral(a, Dihedral(b, c))
  {
  }

  lemma ReflectionAssociates(a: Digit, b: Digit, c: Digit)
    requires a >= 5
    ensures Dihedral(Dihedral(a, b), c) == Dihedral(a, Dihedral(b, c))
  {
  }

  lemma MulAssociative(a: Digit, b: Digit, c: Digit)
    ensures Mul(Mul(a, b), c) == Mul(a, Mul(b, c))
  {
    forall x: Digit, y: Digit ensures Mul(x, y) == Dihedral(x, y) { TableIsDihedral(x, y); }
    DihedralAssociative(a, b, c);
  }

  lemma MulIdentity(a: Digit)
    ensures Mul(0, a) == a && Mul(a, 0) == a
  {
    TableIsDihedral(0, a);
    TableIsDihedral(a, 0);
  }

  lemma MulInverse(a: Digit)
    ensures Mul(a, INVERSE[a]) == 0 && Mul(INVERSE[a], a) == 0
  {
    TableIsDihedral(a, INVERSE[a]);
    TableIsDihedral(INVERSE[a], a);
  }

  lemma LeftCancel(a: Digit, x: Digit, y: Digit)
    requires Mul(a, x) == Mul(a, y)
    ensures x == y
  {
    MulInverse(a);
    MulAssociative(INVERSE[a], a, x);
    MulAssociative(INVERSE[a], a, y);
    MulIdentity(x);
    MulIdentity(y);
  }

  lemma RightCancel(a: Digit, x: Digit, y: Digit)
    requires Mul(x, a) == Mul(y, a)
    ensures x == y
  {
    MulInverse(a);
    MulAssociative(x, a, INVERSE[a]);
    MulAssociative(y, a, INVERSE[a]);
    MulIdentity(x);
    MulIdentity(y);
  }

  // -------------------------------------------------------------- the digit permutations

  /** Each row of the table is the previous one after row 1, cyclically. */
  lemma RowsArePowers(k: nat, d: Digit)
    ensures Perm(k + 1, d) == Perm(1, Perm(k, d))
  {
    var r := k % 8;
    assert (k + 1) % 8 == if r == 7 then 0 else r + 1;
    if
    case r == 0 => case r == 1 => case r == 2 => case r == 3 =>
    case r == 4 => case r == 5 => case r == 6 => case r == 7 =>
  }

  lemma PermInjective(k: nat, a: Digit, b: Digit)
    requires Perm(k, a) == Perm(k, b)
    ensures a == b
  {
    forall j: nat ensures NextKeepsDifferent(Perm, j) { PermStep(j); }
    FirstRow(a);
    FirstRow(b);
    StepsInjective(Perm, k, a, b);
  }

  /** Where the (j+1)-st permutation agrees, the j-th does. */
  ghost predicate NextKeepsDifferent(perm: (nat, Digit) -> Digit, j: nat) {
    forall a, b :: perm(j + 1, a) == perm(j + 1, b) ==> perm(j, a) == perm(j, b)
  }

  lemma {:induction false} StepsInjective(perm: (nat, Digit) -> Digit, k: nat, a: Digit, b: Digit)
    requires forall j: nat :: NextKeepsDifferent(perm, j)
    requires perm(k, a) == perm(k, b)
    ensures perm(0, a) == perm(0, b)
  {
    if k > 0 {
      assert NextKeepsDifferent(perm, k - 1);
      StepsInjective(perm, k - 1, a, b);
    }
  }

  lemma PermStep(j: nat)
    ensures NextKeepsDifferent(Perm, j)
  {
    forall a, b | Perm(j + 1, a) == Perm(j + 1, b) ensures Perm(j, a) == Perm(j, b) { PermStepAt(j, a, b); }
  }

  lemma PermStepAt(j: nat, a: Digit, b: Digit)
    requires Perm(j + 1, a) == Perm(j + 1, b)
    ensures Perm(j, a) == Perm(j, b)
  {
    RowsArePowers(j, a);
    RowsArePowers(j, b);
    RowOneInjective(Perm(j, a), Perm(j, b));
  }

  lemma FirstRow(d: Digit)
    ensures Perm(0, d) == d
  {
  }

  lemma RowOneInjective(a: Digit, b: Digit)
    requires P[1][a] == P[1][b]
    ensures a == b
  {
  }

  /** Row 1 is chosen so that x * f(y) differs from y * f(x). */
  lemma AntiSymmetric(x: Digit, y: Digit)
    requires x != y
    ensures Mul(x, P[1][y]) != Mul(y, P[1][x])
  {
    if
    case x == 0 => case x == 1 => case x == 2 => case x == 3 => case x == 4 =>
    case x == 5 => case x == 6 => case x == 7 => case x == 8 => case x == 9 =>
  }

  // ------------------------------------------------- the fold over any such product

  ghost predicate Associative(mul: (Digit, Digit) -> Digit) {
    forall a, b, c :: mul(mul(a, b), c) == mul(a, mul(b, c))
  }

  ghost predicate RightCancels(mul: (Digit, Digit) -> Digit) {
    forall a, x, y :: mul(x, a) == mul(y, a) ==> x == y
  }

  /** A difference in the fold of a suffix survives any common prefix. */
  lemma {:induction false} PrefixKeepsDifference(
    mul: (Digit, Digit) -> Digit, perm: (nat, Digit) -> Digit, p: seq<Digit>, s: seq<Digit>, t: seq<Digit>)
    requires RightCancels(mul)
    requires |s| == |t| && Fold(mul, perm, s) != Fold(mul, perm, t)
    ensures Fold(mul, perm, p + s) != Fold(mul, perm, p + t)
  {
    if p == [] {
      assert p + s == s && p + t == t;
    } else {
      PrefixKeepsDifference(mul, perm, p[1..], s, t);
      assert (p + s)[1..] == p[1..] + s && (p + t)[1..] == p[1..] + t;
    }
  }

  lemma FoldOne(mul: (Digit, Digit) -> Digit, perm: (nat, Digit) -> Digit, a: Digit, q: seq<Digit>)
    ensures Fold(mul, perm, [a] + q) == mul(Fold(mul, perm, q), perm(|q|, a))
  {
    assert ([a] + q)[1..] == q;
  }

  lemma OneThenOne(a: Digit, b: Digit, q: seq<Digit>)
    ensures [a, b] + q == [a] + ([b] + q)
  {
  }

  lemma FoldTwo(mul: (Digit, Digit) -> Digit, perm: (nat, Digit) -> Digit, a: Digit, b: Digit, q: seq<Digit>)
    ensures Fold(mul, perm, [a, b] + q) == mul(mul(Fold(mul, perm, q), perm(|q|, b)), perm(|q| + 1, a))
  {
    OneThenOne(a, b, q);
    FoldOne(mul, perm, a, [b] + q);
    FoldOne(mul, perm, b, q);
  }

  /** The last digit acts as a left factor. */
  lemma {:induction false} LastDigitFactor(
    mul: (Digit, Digit) -> Digit, perm: (nat, Digit) -> Digit, s: seq<Digit>, c: Digit)
    requires Associative(mul) && (forall a :: mul(0, a) == a && mul(a, 0) == a) && (forall a :: perm(0, a) == a)
    ensures Fold(mul, perm, s + [c]) == mul(c, Fold(mul, perm, s + [0]))
  {
    if s == [] {
      FoldOne(mul, perm, c, []);
      FoldOne(mul, perm, 0, []);
      assert s + [c] == [c] + [] && s + [0] == [0] + [];
    } else {
      LastDigitFactor(mul, perm, s[1..], c);
      assert (s + [c])[1..] == s[1..] + [c] && (s + [0])[1..] == s[1..] + [0];
    }
  }

  lemma MulRightCancels()
    ensures RightCancels(Mul)
  {
    forall a, x, y | Mul(x, a) == Mul(y, a) ensures x == y { RightCancel(a, x, y); }
  }

  lemma ChecksumOfTwo(a: Digit, b: Digit, q: seq<Digit>)
    ensures RawChecksum([a, b] + q) == Mul(RawChecksum(q), Mul(Perm(|q|, b), Perm(|q| + 1, a)))
  {
    FoldTwo(Mul, Perm, a, b, q);
    MulAssociative(RawChecksum(q), Perm(|q|, b), Perm(|q| + 1, a));
  }

  lemma ChecksumLastDigit(s: seq<Digit>, c: Digit)
    ensures RawChecksum(s + [c]) == Mul(c, RawChecksum(s + [0]))
  {
    forall x, y, z ensures Mul(Mul(x, y), z) == Mul(x, Mul(y, z)) { MulAssociative(x, y, z); }
    forall a ensures Mul(0, a) == a && Mul(a, 0) == a { MulIdentity(a); }
    LastDigitFactor(Mul, Perm, s, c);
  }

  // --------------------------------------------------------------------- error detection

  /** Changing any single digit of a valid number makes it invalid. */
  lemma SingleErrorDetected(p: seq<Digit>, a: Digit, b: Digit, q: seq<Digit>)
    requires a != b && ValidChecksum(p + [a] + q)
    ensures !ValidChecksum(p + [b] + q)
  {
    Regroup(p, [a], q);
    Regroup(p, [b], q);
    FoldOne(Mul, Perm, a, q);
    FoldOne(Mul, Perm, b, q);
    DifferentIndex(RawChecksum(q), |q|, a, b);
    PrefixKeepsChecksumDifference(p, [a] + q, [b] + q);
  }

  lemma DifferentIndex(acc: Digit, k: nat, a: Digit, b: Digit)
    requires a != b
    ensures Mul(acc, Perm(k, a)) != Mul(acc, Perm(k, b))
  {
    if Perm(k, a) == Perm(k, b) {
      PermInjective(k, a, b);
    } else if Mul(acc, Perm(k, a)) == Mul(acc, Perm(k, b)) {
      LeftCancel(acc, Perm(k, a), Perm(k, b));
    }
  }

  /** Swapping two unequal adjacent digits of a valid number makes it invalid. */
  lemma TranspositionDetected(p: seq<Digit>, a: Digit, b: Digit, q: seq<Digit>)
    requires a != b && ValidChecksum(p + [a, b] + q)
    ensures !ValidChecksum(p + [b, a] + q)
  {
    Regroup(p, [a, b], q);
    Regroup(p, [b, a], q);
    SwapChangesChecksum(a, b, q);
    PrefixKeepsChecksumDifference(p, [a, b] + q, [b, a] + q);
  }

  lemma Regroup(p: seq<Digit>, m: seq<Digit>, q: seq<Digit>)
    ensures p + m + q == p + (m + q)
  {
  }

  lemma SwapChangesChecksum(a: Digit, b: Digit, q: seq<Digit>)
    requires a != b
    ensures RawChecksum([a, b] + q) != RawChecksum([b, a] + q)
  {
    ChecksumOfTwo(a, b, q);
    ChecksumOfTwo(b, a, q);
    DifferentPair(RawChecksum(q), |q|, a, b);
  }

  lemma PrefixKeepsChecksumDifference(p: seq<Digit>, s: seq<Digit>, t: seq<Digit>)
    requires |s| == |t| && RawChecksum(s) != RawChecksum(t)
    ensures RawChecksum(p + s) != RawChecksum(p + t)
  {
    MulRightCancels();
    PrefixKeepsDifference(Mul, Perm, p, s, t);
  }

  lemma DifferentPair(acc: Digit, k: nat, a: Digit, b: Digit)
    requires a != b
    ensures Mul(acc, Mul(Perm(k, b), Perm(k + 1, a))) != Mul(acc, Mul(Perm(k, a), Perm(k + 1, b)))
  {
    var x, y := Perm(k, b), Perm(k, a);
    RowsArePowers(k, a);
    RowsArePowers(k, b);
    if x == y {
      PermInjective(k, a, b);
    } else {
      AntiSymmetric(x, y);
      if Mul(acc, Mul(x, Perm(k + 1, a))) == Mul(acc, Mul(y, Perm(k + 1, b))) {
        LeftCancel(acc, Mul(x, Perm(k + 1, a)), Mul(y, Perm(k + 1, b)));
      }
    }
  }

  // ------------------------------------------------------------------------- check digit

  /** Appending the check digit validates, and no other digit does. */
  lemma CheckDigitIff(s: seq<Digit>, c: Digit)
    ensures ValidChecksum(s + [c]) <==> c == CheckDigit(s)
  {
    ChecksumLastDigit(s, c);
    InverseIff(RawChecksum(s + [0]), c);
  }

  lemma InverseIff(h: Digit, c: Digit)
    ensures Mul(c, h) == 0 <==> c == INVERSE[h]
  {
    MulInverse(h);
    if Mul(c, h) == 0 {
      RightCancel(h, c, INVERSE[h]);
    }
  }

  lemma RawStep(first: Digit, rest: seq<Digit>)
    ensures RawChecksum([first] + rest) == Mul(RawChecksum(rest), Perm(|rest|, first))
  {
    assert ([first] + rest)[1..] == rest;
  }

  /** A published example of the scheme: the check digit of 236 is 3. */
  lemma KnownCheckDigit()
    ensures CheckDigit([2, 3, 6]) == 3
  {
    RawStep(0, []);
    RawStep(6, [0]);
    assert [6] + [0] == [6, 0] && RawChecksum([6, 0]) == 3;
    RawStep(3, [6, 0]);
    assert [3] + [6, 0] == [3, 6, 0] && RawChecksum([3, 6, 0]) == 1;
    RawStep(2, [3, 6, 0]);
    assert [2] + [3, 6, 0] == [2, 3, 6, 0] && RawChecksum([2, 3, 6, 0]) == 2;
    assert [2, 3, 6] + [0] == [2, 3, 6, 0];
  }
}
