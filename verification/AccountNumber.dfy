/** Parsing, generating and formatting account numbers
    (obscura-ui/src/common/accountUtils.ts, lines 30-128). Strings are sequences of
    UTF-16 code units, as in JavaScript. */
module AccountNumber {
  import opened Verhoeff
  import opened Wrappers

  type Unit = u: nat | u < 0x1_0000
  type JsString = seq<Unit>

  datatype AccountError = TooShort | TooLong | InvalidChecksum | InvalidDigit

  const ACCOUNT_ID_LENGTH: nat := 19
  const USER_ACCOUNT_NUMBER_LEN: nat := ACCOUNT_ID_LENGTH + 1
  const SEPARATOR: JsString := [32, 45, 32]  // " - "

  predicate IsDigit(u: Unit) { 48 <= u <= 57 }

  /** The white space and line terminators that JavaScript trims from numbers. */
  predicate IsSpace(u: Unit) {
    || 9 <= u <= 13 || u == 32 || u == 0xa0 || u == 0x1680 || 0x2000 <= u <= 0x200a
    || u == 0x2028 || u == 0x2029 || u == 0x202f || u == 0x205f || u == 0x3000 || u == 0xfeff
  }

  /** Unary plus on a one-unit string: a digit is its value, white space is 0, and
      anything else is not a number. */
  function ToNumber(u: Unit): Option<Digit> {
    if IsDigit(u) then Some(u - 48) else if IsSpace(u) then Some(0) else None
  }

  predicate AllDigits(s: JsString) {
    forall i :: 0 <= i < |s| ==> IsDigit(s[i])
  }

  predicate AllNumeric(s: JsString) {
    forall i :: 0 <= i < |s| ==> ToNumber(s[i]).Some?
  }

  function Numbers(s: JsString): (r: seq<Digit>)
    requires AllNumeric(s)
    ensures |r| == |s| && forall i :: 0 <= i < |s| ==> r[i] == ToNumber(s[i]).value
  {
    if s == [] then [] else [ToNumber(s[0]).value] + Numbers(s[1..])
  }

  function DigitString(s: seq<Digit>): (r: JsString)
    ensures |r| == |s| && AllDigits(r) && AllNumeric(r) && Numbers(r) == s
  {
    if s == [] then []
    else
      var unit: Unit := s[0] as int + 48;
      var r := [unit] + DigitString(s[1..]);
      assert forall i :: 0 < i < |r| ==> r[i] == DigitString(s[1..])[i - 1];
      assert Numbers(r)[0] == s[0];
      r
  }

  function ParseAccountIdInt(id: JsString): Result<JsString, AccountError> {
    if |id| < USER_ACCOUNT_NUMBER_LEN then Err(TooShort)
    else if |id| > USER_ACCOUNT_NUMBER_LEN then Err(TooLong)
    else if !AllNumeric(id) then Err(InvalidDigit)
    else if !ValidChecksum(Numbers(id)) then Err(InvalidChecksum)
    else Ok(id)
  }

  function Normalize(s: JsString): JsString {
    if s == [] then []
    else if IsDigit(s[0]) then [s[0]] + Normalize(s[1..])
    else Normalize(s[1..])
  }

  function ParseAccountIdInput(input: JsString): Result<JsString, AccountError> {
    ParseAccountIdInt(Normalize(input))
  }

  /** A separator after every four units that another unit follows. */
  function Group(s: JsString): JsString {
    if |s| > 4 then s[..4] + SEPARATOR + Group(s[4..]) else s
  }

  function FormatPartialAccountId(accountId: JsString): JsString {
    var s := Normalize(accountId);
    if |s| >= USER_ACCOUNT_NUMBER_LEN then
      s[..4] + SEPARATOR + s[4..8] + SEPARATOR + s[8..12] + SEPARATOR + s[12..16] + SEPARATOR + s[16..]
    else Group(s)
  }

  // ------------------------------------------------------------------------- parsing

  /** An accepted identifier holds digits only if and only if it holds no white
      space, which the checksum reads as the digit 0. */
  lemma AcceptedIsStrictlyIntegerIff(id: JsString)
    requires ParseAccountIdInt(id).Ok?
    ensures AllDigits(id) <==> forall i :: 0 <= i < |id| ==> !IsSpace(id[i])
  {
    if AllDigits(id) {
      forall i | 0 <= i < |id| ensures !IsSpace(id[i]) { assert IsDigit(id[i]); }
    } else {
      var i :| 0 <= i < |id| && !IsDigit(id[i]);
      assert ToNumber(id[i]).Some?;
    }
  }

  /** A space in place of a zero goes unnoticed. */
  lemma SpaceForZeroAccepted(id: JsString, i: nat)
    requires ParseAccountIdInt(id).Ok? && i < |id| && id[i] == 48
    ensures ParseAccountIdInt(id[i := 32]) == Ok(id[i := 32]) && !AllDigits(id[i := 32])
  {
    var id' := id[i := 32];
    assert Numbers(id') == Numbers(id);
    assert !IsDigit(id'[i]);
  }

  lemma {:induction false} PaddedZero(width: nat)
    ensures forall i :: 0 <= i < width ==> Padded(0, width)[i] == 0
  {
    if width > 0 {
      PaddedZero(width - 1);
    }
  }

  /** The identifier 0 with its first digit blanked is accepted as "strictly
      integer". */
  lemma BlankedNumberAccepted()
    ensures var id := GenerateAccountNumber(0)[0 := 32];
            ParseAccountIdInt(id) == Ok(id) && !AllDigits(id)
  {
    PaddedZero(ACCOUNT_ID_LENGTH);
    GeneratedAccepted(0, 0, 0, 0);
    var digits := Padded(0, ACCOUNT_ID_LENGTH);
    assert Numbers(GenerateAccountNumber(0))[0] == (digits + [CheckDigit(digits)])[0] == 0;
    assert IsDigit(GenerateAccountNumber(0)[0]);
    SpaceForZeroAccepted(GenerateAccountNumber(0), 0);
  }

  /** Typed input is normalised first, so what it yields is twenty digits with a
      valid checksum, and exactly such input is accepted. */
  lemma ParsedInputIff(input: JsString)
    ensures AllDigits(Normalize(input)) && AllNumeric(Normalize(input))
    ensures ParseAccountIdInput(input).Ok? <==>
              |Normalize(input)| == 20 && ValidChecksum(Numbers(Normalize(input)))
    ensures ParseAccountIdInput(input).Ok? ==> ParseAccountIdInput(input).value == Normalize(input)
    ensures ParseAccountIdInput(input) == Err(TooShort) <==> |Normalize(input)| < 20
    ensures ParseAccountIdInput(input) == Err(TooLong) <==> |Normalize(input)| > 20
    ensures ParseAccountIdInput(input) != Err(InvalidDigit)
  {
    NormalizeDigits(input);
  }

  // ---------------------------------------------------------------------- generation

  function Pow10(n: nat): (p: nat)
    ensures p >= 1
  {
    if n == 0 then 1 else 10 * Pow10(n - 1)
  }

  /** `toString().padStart(width, "0")` for a number of at most `width` digits. */
  function Padded(n: nat, width: nat): (r: seq<Digit>)
    ensures |r| == width
  {
    if width == 0 then [] else Padded(n / 10, width - 1) + [n % 10]
  }

  function GenerateAccountNumber(n: nat): JsString {
    var digits := Padded(n, ACCOUNT_ID_LENGTH);
    DigitString(digits + [CheckDigit(digits)])
  }

  lemma {:induction false} PaddedInjective(n: nat, m: nat, width: nat)
    requires n < Pow10(width) && m < Pow10(width)
    requires Padded(n, width) == Padded(m, width)
    ensures n == m
  {
    if width > 0 {
      var a, b := Padded(n / 10, width - 1), Padded(m / 10, width - 1);
      assert a == Padded(n, width)[..width - 1] && b == Padded(m, width)[..width - 1];
      assert n % 10 == Padded(n, width)[width - 1] && m % 10 == Padded(m, width)[width - 1];
      PaddedInjective(n / 10, m / 10, width - 1);
    }
  }

  lemma NineteenDigits()
    ensures Pow10(19) == 10_000_000_000_000_000_000
  {
    assert Pow10(5) == 100_000;
    assert Pow10(10) == 10_000_000_000;
    assert Pow10(15) == 1_000_000_000_000_000;
  }

  function DecimalValue(s: seq<Digit>): nat {
    if s == [] then 0 else 10 * DecimalValue(s[..|s| - 1]) + s[|s| - 1]
  }

  lemma {:induction false} PaddedValue(n: nat, width: nat)
    requires n < Pow10(width)
    ensures DecimalValue(Padded(n, width)) == n
  {
    if width > 0 {
      PaddedValue(n / 10, width - 1);
      assert Padded(n, width)[..width - 1] == Padded(n / 10, width - 1);
    }
  }

  /** The first nineteen digits of a generated number are its identifier in decimal. */
  lemma GeneratedShowsId(n: nat)
    requires n < 10_000_000_000_000_000_000
    ensures |GenerateAccountNumber(n)| == 20 && AllNumeric(GenerateAccountNumber(n))
    ensures DecimalValue(Numbers(GenerateAccountNumber(n))[..19]) == n
  {
    var digits := Padded(n, ACCOUNT_ID_LENGTH);
    assert Numbers(GenerateAccountNumber(n))[..19] == digits;
    NineteenDigits();
    PaddedValue(n, 19);
  }

  /** Every generated number is accepted, different identifiers give different
      numbers, and a number with any one digit changed is rejected. */
  lemma GeneratedAccepted(n: nat, m: nat, i: nat, u: Unit)
    requires n < 10_000_000_000_000_000_000 && m < 10_000_000_000_000_000_000
    ensures ParseAccountIdInt(GenerateAccountNumber(n)) == Ok(GenerateAccountNumber(n))
    ensures GenerateAccountNumber(n) == GenerateAccountNumber(m) ==> n == m
    ensures i < USER_ACCOUNT_NUMBER_LEN && IsDigit(u) && u != GenerateAccountNumber(n)[i] ==>
              ParseAccountIdInt(GenerateAccountNumber(n)[i := u]) == Err(InvalidChecksum)
  {
    var digits := Padded(n, ACCOUNT_ID_LENGTH);
    var number := GenerateAccountNumber(n);
    CheckDigitIff(digits, CheckDigit(digits));
    if GenerateAccountNumber(n) == GenerateAccountNumber(m) {
      var digits' := Padded(m, ACCOUNT_ID_LENGTH);
      assert Numbers(number) == digits + [CheckDigit(digits)] == digits' + [CheckDigit(digits')];
      assert digits == Numbers(number)[..ACCOUNT_ID_LENGTH] == digits';
      NineteenDigits();
      PaddedInjective(n, m, ACCOUNT_ID_LENGTH);
    }
    if i < USER_ACCOUNT_NUMBER_LEN && IsDigit(u) && u != number[i] {
      MistypedRejected(number, i, u);
    }
  }

  /** Of an accepted number of digits, mistyping one digit is detected. */
  lemma MistypedRejected(id: JsString, i: nat, u: Unit)
    requires ParseAccountIdInt(id).Ok? && AllDigits(id) && i < |id| && IsDigit(u) && u != id[i]
    ensures ParseAccountIdInt(id[i := u]) == Err(InvalidChecksum)
  {
    var a, b := Numbers(id), Numbers(id[i := u]);
    assert AllNumeric(id[i := u]);
    assert a == a[..i] + [a[i]] + a[i + 1..];
    assert b == a[..i] + [b[i]] + a[i + 1..];
    assert a[i] != b[i];
    SingleErrorDetected(a[..i], a[i], b[i], a[i + 1..]);
  }

  /** Of an accepted number of digits, swapping two neighbours is detected. */
  lemma SwappedRejected(id: JsString, i: nat)
    requires ParseAccountIdInt(id).Ok? && AllDigits(id) && i + 1 < |id| && id[i] != id[i + 1]
    ensures ParseAccountIdInt(id[i := id[i + 1]][i + 1 := id[i]]) == Err(InvalidChecksum)
  {
    var swapped := id[i := id[i + 1]][i + 1 := id[i]];
    assert AllNumeric(swapped);
    var a, b := Numbers(id), Numbers(swapped);
    assert a == a[..i] + [a[i], a[i + 1]] + a[i + 2..];
    assert b == a[..i] + [a[i + 1], a[i]] + a[i + 2..];
    assert IsDigit(id[i]) && IsDigit(id[i + 1]);
    TranspositionDetected(a[..i], a[i], a[i + 1], a[i + 2..]);
  }

  // ---------------------------------------------------------------------- formatting

  lemma {:induction false} NormalizeDigits(s: JsString)
    ensures AllDigits(Normalize(s)) && AllNumeric(Normalize(s))
    ensures AllDigits(s) ==> Normalize(s) == s
  {
    if s != [] {
      NormalizeDigits(s[1..]);
      assert AllDigits(s) ==> AllDigits(s[1..]);
    }
  }

  lemma {:induction false} NormalizeConcat(s: JsString, t: JsString)
    ensures Normalize(s + t) == Normalize(s) + Normalize(t)
  {
    if s == [] {
      assert s + t == t;
    } else {
      NormalizeConcat(s[1..], t);
      assert (s + t)[1..] == s[1..] + t;
    }
  }

  /** Normalising keeps the digits, in order, and nothing else. */
  lemma NormalizeKeepsDigits(s: JsString, u: Unit)
    ensures Normalize(s + [u]) == Normalize(s) + if 48 <= u <= 57 then [u] else []
    ensures Normalize([]) == []
  {
    NormalizeConcat(s, [u]);
    assert [u][1..] == [];
  }

  lemma SeparatorVanishes()
    ensures Normalize(SEPARATOR) == []
  {
    assert SEPARATOR[1..] == [45, 32] && [45, 32][1..] == [32];
  }

  lemma NormalizeSeparated(s: JsString, t: JsString)
    ensures Normalize(s + SEPARATOR + t) == Normalize(s) + Normalize(t)
  {
    SeparatorVanishes();
    NormalizeConcat(s + SEPARATOR, t);
    NormalizeConcat(s, SEPARATOR);
  }

  lemma {:induction false} NormalizeGroup(s: JsString)
    requires AllDigits(s)
    ensures Normalize(Group(s)) == s
  {
    if |s| > 4 {
      NormalizeGroup(s[4..]);
      NormalizeSeparated(s[..4], Group(s[4..]));
      NormalizeDigits(s[..4]);
    } else {
      NormalizeDigits(s);
    }
  }

  lemma NormalizeFive(a: JsString, b: JsString, c: JsString, d: JsString, e: JsString)
    requires AllDigits(a) && AllDigits(b) && AllDigits(c) && AllDigits(d) && AllDigits(e)
    ensures Normalize(a + SEPARATOR + b + SEPARATOR + c + SEPARATOR + d + SEPARATOR + e) == a + b + c + d + e
  {
    var ab := a + SEPARATOR + b;
    var abc := ab + SEPARATOR + c;
    var abcd := abc + SEPARATOR + d;
    NormalizeSeparated(a, b);
    NormalizeSeparated(ab, c);
    NormalizeSeparated(abc, d);
    NormalizeSeparated(abcd, e);
    NormalizeDigits(a);
    NormalizeDigits(b);
    NormalizeDigits(c);
    NormalizeDigits(d);
    NormalizeDigits(e);
  }

  /** Formatting loses no digit: normalising the formatted text gives the digits of
      the input. */
  lemma FormatLosesNothing(s: JsString)
    ensures Normalize(FormatPartialAccountId(s)) == Normalize(s)
  {
    var d := Normalize(s);
    NormalizeDigits(s);
    if |d| >= USER_ACCOUNT_NUMBER_LEN {
      NormalizeFive(d[..4], d[4..8], d[8..12], d[12..16], d[16..]);
      assert d == d[..4] + d[4..8] + d[8..12] + d[12..16] + d[16..];
    } else {
      NormalizeGroup(d);
    }
  }

  /** Formatting formatted text changes nothing. */
  lemma FormatIdempotent(s: JsString)
    ensures FormatPartialAccountId(FormatPartialAccountId(s)) == FormatPartialAccountId(s)
  {
    FormatLosesNothing(s);
  }

  /** Formatting does not change what the text parses to; in particular the
      formatted form of an accepted number parses to that number. */
  lemma ParseIgnoresFormatting(s: JsString)
    ensures ParseAccountIdInput(FormatPartialAccountId(s)) == ParseAccountIdInput(s)
    ensures AllDigits(s) && ParseAccountIdInt(s).Ok? ==> ParseAccountIdInput(FormatPartialAccountId(s)) == Ok(s)
  {
    FormatLosesNothing(s);
    NormalizeDigits(s);
  }

  /** The shape of the grouped form: blocks of four digits and a separator. */
  lemma {:induction false} GroupShape(s: JsString, i: nat)
    requires AllDigits(s) && i < |Group(s)|
    ensures IsDigit(Group(s)[i]) <==> i % 7 < 4
    ensures i % 7 >= 4 ==> Group(s)[i] == if i % 7 == 5 then 45 else 32
    decreases |s|
  {
    if |s| > 4 {
      assert Group(s) == s[..4] + SEPARATOR + Group(s[4..]);
      if i >= 7 {
        GroupShape(s[4..], i - 7);
        assert Group(s)[i] == Group(s[4..])[i - 7];
      }
    }
  }

  lemma {:induction false} GroupLength(s: JsString)
    ensures s == [] ==> Group(s) == []
    ensures s != [] ==> |Group(s)| == |s| + 3 * ((|s| - 1) / 4)
    decreases |s|
  {
    if |s| > 4 {
      GroupLength(s[4..]);
    }
  }

  lemma GroupEndsInDigit(s: JsString)
    requires AllDigits(s) && s != []
    ensures Group(s) != [] && IsDigit(Group(s)[|Group(s)| - 1])
  {
    GroupLength(s);
    var q, r := (|s| - 1) / 4, (|s| - 1) % 4;
    assert |Group(s)| - 1 == 7 * q + r;
    GroupShape(s, |Group(s)| - 1);
  }

  lemma GroupOfFive(a: JsString, b: JsString, c: JsString, d: JsString, e: JsString)
    requires |a| == |b| == |c| == |d| == |e| == 4
    ensures Group(a + b + c + d + e) == a + SEPARATOR + b + SEPARATOR + c + SEPARATOR + d + SEPARATOR + e
  {
    FiveParts(a, b, c, d, e);
    GroupFour(d, e);
    GroupFour(c, d + e);
    GroupFour(b, c + (d + e));
    GroupFour(a, b + (c + (d + e)));
    FivePartsSeparated(SEPARATOR, a, b, c, d, e);
  }

  lemma GroupFour(a: JsString, rest: JsString)
    requires |a| == 4 && rest != []
    ensures Group(a + rest) == a + SEPARATOR + Group(rest)
  {
    assert (a + rest)[..4] == a && (a + rest)[4..] == rest;
  }

  lemma FiveParts(a: JsString, b: JsString, c: JsString, d: JsString, e: JsString)
    ensures a + b + c + d + e == a + (b + (c + (d + e)))
  {
    Associative(a, b, c + (d + e));
    Associative(a + b, c, d + e);
    Associative(a + b + c, d, e);
  }

  lemma FivePartsSeparated(s: JsString, a: JsString, b: JsString, c: JsString, d: JsString, e: JsString)
    ensures a + s + (b + s + (c + s + (d + s + e))) == a + s + b + s + c + s + d + s + e
  {
    Separated(s, a + s, b, c + s + (d + s + e));
    Separated(s, a + s + b + s, c, d + s + e);
    Separated(s, a + s + b + s + c + s, d, e);
  }

  lemma Separated(s: JsString, a: JsString, b: JsString, c: JsString)
    ensures a + (b + s + c) == a + b + s + c
  {
    Associative(a, b + s, c);
    Associative(a, b, s);
  }

  lemma Associative(a: JsString, b: JsString, c: JsString)
    ensures a + (b + c) == a + b + c
  {
  }

  lemma LongForm(d: JsString)
    requires AllDigits(d) && |d| >= USER_ACCOUNT_NUMBER_LEN
    ensures Normalize(d) == d
    ensures FormatPartialAccountId(d)
         == d[..4] + SEPARATOR + d[4..8] + SEPARATOR + d[8..12] + SEPARATOR + d[12..16] + SEPARATOR + d[16..]
  {
    NormalizeDigits(d);
  }

  lemma FiveSlices(d: JsString, n: nat)
    requires 16 <= n <= |d|
    ensures d[..4] + d[4..8] + d[8..12] + d[12..16] + d[16..n] == d[..n]
  {
  }

  lemma FivePartsLength(s: JsString, a: JsString, b: JsString, c: JsString, d: JsString, e: JsString)
    ensures |a + s + b + s + c + s + d + s + e| == |a| + |b| + |c| + |d| + |e| + 4 * |s|
    ensures e != [] ==> (a + s + b + s + c + s + d + s + e)[|a| + |b| + |c| + |d| + |e| + 4 * |s| - 1] == e[|e| - 1]
  {
  }

  /** The two branches of the formatter meet: on exactly twenty digits the fixed
      slices are the grouping, and on more they differ from it. */
  lemma BranchesAgreeIff(d: JsString)
    requires AllDigits(d) && |d| >= USER_ACCOUNT_NUMBER_LEN
    ensures FormatPartialAccountId(d) == Group(d) <==> |d| == USER_ACCOUNT_NUMBER_LEN
  {
    if |d| == USER_ACCOUNT_NUMBER_LEN { TwentyIsGrouped(d); } else { LongerIsShorter(d); }
  }

  lemma TwentyIsGrouped(d: JsString)
    requires AllDigits(d) && |d| == USER_ACCOUNT_NUMBER_LEN
    ensures FormatPartialAccountId(d) == Group(d)
  {
    LongForm(d);
    GroupOfFive(d[..4], d[4..8], d[8..12], d[12..16], d[16..20]);
    FiveSlices(d, 20);
    assert d[..20] == d && d[16..20] == d[16..];
  }

  lemma LongerIsShorter(d: JsString)
    requires AllDigits(d) && |d| > USER_ACCOUNT_NUMBER_LEN
    ensures |FormatPartialAccountId(d)| < |Group(d)|
  {
    LongForm(d);
    FivePartsLength(SEPARATOR, d[..4], d[4..8], d[8..12], d[12..16], d[16..]);
    GroupLength(d);
  }

  lemma TailOfLongForm(a: JsString, head: JsString, tail: JsString)
    ensures a + (head + tail) == a + head + tail
  {
  }

  /** Digits beyond the twentieth are appended to the formatted first twenty. */
  lemma LongTailAppended(d: JsString)
    requires AllDigits(d) && |d| >= USER_ACCOUNT_NUMBER_LEN
    ensures FormatPartialAccountId(d)
         == Group(d[..USER_ACCOUNT_NUMBER_LEN]) + d[USER_ACCOUNT_NUMBER_LEN..]
  {
    LongForm(d);
    GroupOfFive(d[..4], d[4..8], d[8..12], d[12..16], d[16..20]);
    FiveSlices(d, USER_ACCOUNT_NUMBER_LEN);
    assert d[16..] == d[16..20] + d[20..];
    TailOfLongForm(d[..4] + SEPARATOR + d[4..8] + SEPARATOR + d[8..12] + SEPARATOR + d[12..16] + SEPARATOR, d[16..20], d[20..]);
  }

  /** The formatted text never ends in a separator. */
  lemma EndsInDigit(s: JsString)
    ensures var f := FormatPartialAccountId(s);
            f == [] || IsDigit(f[|f| - 1])
  {
    NormalizeDigits(s);
    var d := Normalize(s);
    if |d| >= USER_ACCOUNT_NUMBER_LEN {
      FivePartsLength(SEPARATOR, d[..4], d[4..8], d[8..12], d[12..16], d[16..]);
    } else if d != [] {
      GroupEndsInDigit(d);
    }
  }
}
