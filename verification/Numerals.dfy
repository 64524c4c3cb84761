/** Positional number formats: decimal resource ids and the base 36 form of a 64-bit hash. */
module Numerals {

  function Digit(d: nat): char
    requires d < 36
  {
    if d < 10 then '0' + d as char else 'a' + (d - 10) as char
  }

  /** The digits of n, most significant first and without leading zeros. */
  function Format(n: nat, base: nat): (s: string)
    requires 2 <= base <= 36
    ensures s != []
  {
    if n < base then [Digit(n)] else Format(n / base, base) + [Digit(n % base)]
  }

  /** A signed decimal number, as resource ids are written into a status. */
  function FormatInt(n: int): string {
    if n < 0 then "-" + Format(-n, 10) else Format(n, 10)
  }

  function Pow36(k: nat): nat {
    if k == 0 then 1 else 36 * Pow36(k - 1)
  }

  /** A number below 36^k needs at least one and at most k digits in base 36. */
  lemma {:induction false} FormatLength36(n: nat, k: nat)
    requires 1 <= k && n < Pow36(k)
    ensures 1 <= |Format(n, 36)| <= k
  {
    if n < 36 {
    } else {
      assert Pow36(k) == 36 * Pow36(k - 1);
      assert k > 1;
      FormatLength36(n / 36, k - 1);
    }
  }

  /** The value of a digit, of 0 to 9 and then a to z. */
  function DigitValue(c: char): int {
    if '0' <= c <= '9' then c as int - '0' as int else c as int - 'a' as int + 10
  }

  /** The number a text stands for. */
  function Value(s: string, base: nat): int {
    if s == [] then 0 else base * Value(s[..|s| - 1], base) + DigitValue(s[|s| - 1])
  }

  lemma DigitStandsFor(d: nat)
    requires d < 36
    ensures DigitValue(Digit(d)) == d
  {
  }

  lemma LastDigitSplits(n: nat, base: nat)
    requires base > 0
    ensures base * (n / base) + n % base == n
  {
  }

  lemma ValueOfAppend(s: string, c: char, base: nat)
    ensures Value(s + [c], base) == base * Value(s, base) + DigitValue(c)
  {
    assert (s + [c])[..|s|] == s;
  }

  /** The text of a number in any base stands for that number. */
  lemma {:induction false} RoundTrip(n: nat, base: nat)
    requires 2 <= base <= 36
    ensures Value(Format(n, base), base) == n
  {
    if n < base {
      DigitStandsFor(n);
      assert [Digit(n)] == [] + [Digit(n)];
      ValueOfAppend([], Digit(n), base);
    } else {
      RoundTrip(n / base, base);
      LastDigitSplits(n, base);
      DigitStandsFor(n % base);
      ValueOfAppend(Format(n / base, base), Digit(n % base), base);
    }
  }

  /** No leading zero, except for zero itself, and only digits and lower case letters. */
  lemma {:induction false} FormatShape(n: nat, base: nat)
    requires 2 <= base <= 36
    ensures forall c | c in Format(n, base) :: '0' <= c <= '9' || 'a' <= c <= 'z'
    ensures n != 0 ==> Format(n, base)[0] != '0'
  {
    if n < base {
    } else {
      FormatShape(n / base, base);
    }
  }

  lemma {:induction false} DecimalDigits(n: nat)
    ensures forall c :: c in Format(n, 10) ==> '0' <= c <= '9'
  {
    if n < 10 {
    } else {
      DecimalDigits(n / 10);
    }
  }

  /** No decimal number contains a colon. */
  lemma NoColon(n: int)
    ensures ':' !in FormatInt(n)
    ensures FormatInt(n) != []
  {
    DecimalDigits(if n < 0 then -n else n);
  }

  /** Two ids with one text are one id. */
  lemma FormatIntDeterminesId(a: nat, b: nat)
    requires FormatInt(a) == FormatInt(b)
    ensures a == b
  {
    RoundTrip(a, 10);
    RoundTrip(b, 10);
  }
}
