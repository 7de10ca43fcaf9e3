/** Decimal text: what strconv.Itoa, strconv.Atoi and strconv.ParseUint print and read. */
module Decimal {
  import opened Wrappers

  const INT64_MAX: int := 0x7FFF_FFFF_FFFF_FFFF
  const INT64_MIN: int := -0x8000_0000_0000_0000
  const UINT64_MAX: int := 0xFFFF_FFFF_FFFF_FFFF

  predicate IsDigit(c: char) {
    '0' <= c <= '9'
  }

  function DigitChar(d: nat): (c: char)
    requires d < 10
    ensures IsDigit(c) && DigitValue(c) == d
  {
    '0' + d as char
  }

  function DigitValue(c: char): (d: nat)
    requires IsDigit(c)
    ensures d < 10
  {
    (c - '0') as nat
  }

  predicate AllDigits(s: string) {
    forall i :: 0 <= i < |s| ==> IsDigit(s[i])
  }

  /** The shortest decimal text of a natural number. */
  function Digits(n: nat): (s: string)
    ensures |s| > 0 && AllDigits(s)
  {
    if n < 10 then [DigitChar(n)] else Digits(n / 10) + [DigitChar(n % 10)]
  }

  function Itoa(i: int): (s: string)
    ensures |s| > 0
  {
    if i < 0 then "-" + Digits(-i) else Digits(i)
  }

  /** The number a digit string denotes, leading zeros allowed. */
  function NumberOf(s: string): (n: nat)
    requires AllDigits(s)
  {
    if s == "" then 0 else NumberOf(s[..|s| - 1]) * 10 + DigitValue(s[|s| - 1])
  }

  datatype NumberError = Syntax | Range

  /** strconv.ParseUint with base 10 and 64 bits. */
  function ParseUint(s: string): Result<nat, NumberError> {
    if s == "" || !AllDigits(s) then Failure(Syntax)
    else if NumberOf(s) > UINT64_MAX then Failure(Range)
    else Success(NumberOf(s))
  }

  function SignedNumber(sign: int, digits: string): Result<int, NumberError> {
    if digits == "" || !AllDigits(digits) then Failure(Syntax)
    else if INT64_MIN <= sign * NumberOf(digits) <= INT64_MAX then Success(sign * NumberOf(digits))
    else Failure(Range)
  }

  /** strconv.Atoi on a 64-bit platform. */
  function Atoi(s: string): Result<int, NumberError> {
    if s != "" && s[0] == '-' then SignedNumber(-1, s[1..])
    else if s != "" && s[0] == '+' then SignedNumber(1, s[1..])
    else SignedNumber(1, s)
  }

  lemma {:induction false} NumberOfDigits(n: nat)
    ensures NumberOf(Digits(n)) == n
  {
    if n < 10 {
      assert NumberOf([DigitChar(n)][..0]) == 0;
    } else {
      NumberOfDigits(n / 10);
      var s := Digits(n / 10) + [DigitChar(n % 10)];
      assert s[..|s| - 1] == Digits(n / 10);
    }
  }

  /** The last digit stands last. */
  lemma DigitsAre(n: nat, d: nat)
    requires d < 10
    ensures Digits(d) == ["0123456789"[d]]
    ensures n > 0 ==> Digits(10 * n + d) == Digits(n) + ["0123456789"[d]]
    ensures Itoa(n) == Digits(n) && (n > 0 ==> Itoa(-(n as int)) == "-" + Digits(n))
  {
    assert (10 * n + d) / 10 == n && (10 * n + d) % 10 == d;
  }

  /** What Atoi accepts: a sign or none, at least one digit and nothing else, within 64 bits. */
  lemma AtoiReads(s: string)
    ensures var (sign, t) := if s != "" && s[0] == '-' then (-1, s[1..])
                             else if s != "" && s[0] == '+' then (1, s[1..])
                             else (1, s);
            Atoi(s) == if t == "" || !AllDigits(t) then Failure(Syntax)
                       else if -0x8000_0000_0000_0000 <= sign * NumberOf(t) < 0x8000_0000_0000_0000 then
                         Success(sign * NumberOf(t))
                       else Failure(Range)
  {
  }

  /** The number digits stand for: ten times what stands in front, and the last digit. */
  lemma NumberIs(s: string, d: nat)
    requires AllDigits(s) && d < 10
    ensures AllDigits(s + ["0123456789"[d]]) && NumberOf("") == 0
    ensures NumberOf(s + ["0123456789"[d]]) == 10 * NumberOf(s) + d
  {
    var t := s + ["0123456789"[d]];
    assert t[..|t| - 1] == s;
    assert DigitValue("0123456789"[d]) == d;
  }

  /** What ParseUint accepts: at least one digit and nothing else, within 64 bits. */
  lemma ParseUintReads(s: string)
    ensures ParseUint(s) == if s == "" || !AllDigits(s) then Failure(Syntax)
                            else if NumberOf(s) < 0x1_0000_0000_0000_0000 then Success(NumberOf(s))
                            else Failure(Range)
  {
  }

  lemma AtoiOfItoa(i: int)
    requires INT64_MIN <= i <= INT64_MAX
    ensures Atoi(Itoa(i)) == Success(i)
  {
    hide Digits, NumberOf;
    if i < 0 {
      NumberOfDigits(-i);
      assert Itoa(i)[1..] == Digits(-i);
    } else {
      NumberOfDigits(i);
      assert IsDigit(Digits(i)[0]);
    }
  }

  lemma ParseUintOfDigits(n: nat)
    requires n <= UINT64_MAX
    ensures ParseUint(Digits(n)) == Success(n)
  {
    NumberOfDigits(n);
  }

  lemma DigitsInjective(m: nat, n: nat)
    requires Digits(m) == Digits(n)
    ensures m == n
  {
    NumberOfDigits(m);
    NumberOfDigits(n);
  }
}
