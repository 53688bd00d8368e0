/** Decimal printing and parsing of integers, as fmt's %d and strconv.Atoi do it. */
module Decimals {

  import opened Options

  const MAX_INT: nat := 0x7FFF_FFFF_FFFF_FFFF

  function DigitChar(d: nat): (c: char)
    requires d < 10
    ensures IsDigit(c) && DigitValue(c) == d
  {
    d as char + '0'
  }

  predicate IsDigit(c: char) { '0' <= c <= '9' }

  function DigitValue(c: char): (d: nat)
    requires IsDigit(c)
    ensures d < 10
  {
    c as int - '0' as int
  }

  predicate AllDigits(s: string) { forall c <- s :: IsDigit(c) }

  /** The shortest decimal numeral of n. */
  function Decimal(n: nat): (s: string)
    ensures s != "" && AllDigits(s)
    ensures n > 0 ==> s[0] != '0'
  {
    if n < 10 then [DigitChar(n)] else Decimal(n / 10) + [DigitChar(n % 10)]
  }

  /** The number a digit string denotes. */
  function Value(s: string): nat
    requires AllDigits(s)
  {
    if s == "" then 0 else 10 * Value(s[..|s| - 1]) + DigitValue(s[|s| - 1])
  }

  lemma ValueOfDecimal(n: nat)
    ensures Value(Decimal(n)) == n
  {
    if n >= 10 {
      ValueOfDecimal(n / 10);
      assert Decimal(n)[..|Decimal(n)| - 1] == Decimal(n / 10);
    }
  }

  lemma {:induction false} DecimalInjective(m: nat, n: nat)
    requires Decimal(m) == Decimal(n)
    ensures m == n
  {
    ValueOfDecimal(m);
    ValueOfDecimal(n);
  }

  /** strconv.Atoi on a 64-bit platform: an optional sign, at least one digit, nothing else, in range. */
  function Atoi(s: string): Option<int> {
    var digits := if s != "" && (s[0] == '-' || s[0] == '+') then s[1..] else s;
    if digits == "" || !AllDigits(digits) then None
    else if s[0] == '-' then (if Value(digits) <= MAX_INT + 1 then Some(0 - (Value(digits) as int)) else None)
    else if Value(digits) <= MAX_INT then Some(Value(digits)) else None
  }

  /** Parsing a printed number, with or without a sign, up to the largest one of its sign. */
  lemma {:induction false} AtoiOfSigned(sign: string, n: nat)
    requires sign in {"", "+", "-"}
    ensures Atoi(sign + Decimal(n))
         == if sign == "-" then (if n <= MAX_INT + 1 then Some(0 - n as int) else None)
            else if n <= MAX_INT then Some(n) else None
  {
    var s := sign + Decimal(n);
    ValueOfDecimal(n);
    assert IsDigit(Decimal(n)[0]);
    assert sign != "" ==> s[0] == sign[0] && s[1..] == Decimal(n);
    assert sign == "" ==> s == Decimal(n);
  }

  /** Nothing else parses: no digits at all, or something that is none behind the sign. */
  lemma AtoiRefuses(sign: string, s: string)
    requires sign in {"", "+", "-"} && !AllDigits(s) && s[0] != '+' && s[0] != '-'
    ensures Atoi(sign + s) == None && Atoi(sign) == None
  {
    var t := sign + s;
    assert sign != "" ==> t[0] == sign[0] && t[1..] == s && sign[1..] == "";
    assert sign == "" ==> t == s;
  }

  /** Printing and parsing undo each other. */
  lemma {:induction false} AtoiOfDecimal(n: nat)
    requires n <= MAX_INT
    ensures Atoi(Decimal(n)) == Some(n)
  {
    ValueOfDecimal(n);
    assert IsDigit(Decimal(n)[0]);
  }
}
