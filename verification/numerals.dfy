/** The two numeral patterns the assembler accepts and the `parseInt`
    calls that read them (src/assembler/Parser.ts:8-9, 140-141 and
    src/assembler/parse.ts:9-10, 126-127), with the canonical spelling of
    a number that each reading inverts. Numbers are unbounded: the source
    stores them in floating point and is exact only below 2^53. */
module Numerals {

  predicate IsDigit(c: char) {
    '0' <= c <= '9'
  }

  predicate IsHexDigit(c: char) {
    IsDigit(c) || 'A' <= c <= 'F'
  }

  predicate AllDigits(s: string) {
    forall i :: 0 <= i < |s| ==> IsDigit(s[i])
  }

  predicate AllHexDigits(s: string) {
    forall i :: 0 <= i < |s| ==> IsHexDigit(s[i])
  }

  /** `^(-|\+)?[0-9]+$` */
  predicate IsDecimal(s: string) {
    if |s| > 0 && (s[0] == '-' || s[0] == '+') then |s| > 1 && AllDigits(s[1..])
    else |s| > 0 && AllDigits(s)
  }

  /** `^[0-9A-F]+$` */
  predicate IsHexadecimal(s: string) {
    |s| > 0 && AllHexDigits(s)
  }

  function DigitValue(c: char): nat
    requires IsHexDigit(c)
  {
    if IsDigit(c) then c as int - '0' as int else c as int - 'A' as int + 10
  }

  /** The number a digit string denotes in `base`, most significant digit first. */
  function Value(s: string, base: nat): nat
    requires AllHexDigits(s)
  {
    if |s| == 0 then 0 else Value(s[..|s| - 1], base) * base + DigitValue(s[|s| - 1])
  }

  /** `parseInt(s, 10)` on text the decimal pattern accepts: the optional
      sign applied to the digits read in base 10. */
  function ParseDecimal(s: string): int
    requires IsDecimal(s)
  {
    if s[0] == '-' then 0 - Value(s[1..], 10)
    else if s[0] == '+' then Value(s[1..], 10)
    else Value(s, 10)
  }

  /** `parseInt(s, 16)` on text the hexadecimal pattern accepts. */
  function ParseHexadecimal(s: string): nat
    requires IsHexadecimal(s)
  {
    Value(s, 16)
  }

  /** The upper-case digit for a value below 16. */
  function Digit(d: nat): (c: char)
    requires d < 16
    ensures IsHexDigit(c) && DigitValue(c) == d
    ensures IsDigit(c) <==> d < 10
  {
    if d < 10 then ('0' as int + d) as char else ('A' as int + d - 10) as char
  }

  lemma ValueSnoc(prefix: string, c: char, base: nat)
    requires AllHexDigits(prefix) && IsHexDigit(c)
    ensures AllHexDigits(prefix + [c])
    ensures Value(prefix + [c], base) == Value(prefix, base) * base + DigitValue(c)
  {
    assert (prefix + [c])[..|prefix|] == prefix;
  }

  /** The digits of `n` in `base`, without leading zeros; reading them back
      in the same base gives `n`. */
  function ShowNat(n: nat, base: nat): (s: string)
    requires base == 10 || base == 16
    ensures |s| > 0 && AllHexDigits(s)
    ensures base <= 10 ==> AllDigits(s)
    ensures Value(s, base) == n
    decreases n
  {
    if n < base then
      var s := [Digit(n)];
      assert s[..0] == [];
      s
    else
      var q, d := n / base, n % base;
      var prefix := ShowNat(q, base);
      ValueSnoc(prefix, Digit(d), base);
      assert n == q * base + d && d < base by {
        if base == 10 { } else { }
      }
      prefix + [Digit(d)]
  }

  /** A decimal spelling of any integer; `parseInt` reads it back exactly. */
  function ShowDecimal(n: int): (s: string)
    ensures IsDecimal(s) && ParseDecimal(s) == n
  {
    if n < 0 then
      var digits := ShowNat(-n, 10);
      assert ("-" + digits)[1..] == digits;
      "-" + digits
    else ShowNat(n, 10)
  }

  /** A hexadecimal spelling of any natural number; `parseInt(s, 16)` reads
      it back exactly. */
  function ShowHexadecimal(n: nat): (s: string)
    ensures IsHexadecimal(s) && ParseHexadecimal(s) == n
  {
    ShowNat(n, 16)
  }
}
