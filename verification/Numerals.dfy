/** Decimal, octal and hexadecimal text of natural numbers, written and read back. */
module Numerals {
  import opened Base

  function Digit(d: nat): char
    requires d < 16
  {
    if d < 10 then '0' + d as char else 'a' + (d - 10) as char
  }

  function DigitValue(c: char): Option<nat> {
    if '0' <= c <= '9' then Some((c - '0') as nat)
    else if 'a' <= c <= 'f' then Some((c - 'a') as nat + 10)
    else if 'A' <= c <= 'F' then Some((c - 'A') as nat + 10)
    else None
  }

  predicate Radix(base: nat) {
    base == 8 || base == 10 || base == 16
  }

  /** No leading zeros; zero itself is one digit. */
  function Render(n: nat, base: nat): (s: string)
    requires Radix(base)
    ensures |s| >= 1
  {
    if n < base then [Digit(n)] else DivStep(n, base); Render(n / base, base) + [Digit(n % base)]
  }

  /** The number a digit string stands for; the empty string stands for zero here. */
  function Digits(s: string, base: nat): Option<nat>
    requires Radix(base)
  {
    if s == [] then Some(0)
    else
      var head := Digits(s[..|s| - 1], base);
      var d := DigitValue(s[|s| - 1]);
      if head.Some? && d.Some? && d.value < base then Some(head.value * base + d.value) else None
  }

  const UINT64: nat := 0x1_0000_0000_0000_0000

  /** strconv.ParseUint with a fixed base: digits only, at least one, and the value fits 64 bits. */
  function ParseUint(s: string, base: nat): Option<nat>
    requires Radix(base)
  {
    if s == [] then None
    else
      var v := Digits(s, base);
      if v.Some? && v.value < UINT64 then v else None
  }

  lemma DigitRoundTrip(d: nat)
    requires d < 16
    ensures DigitValue(Digit(d)) == Some(d)
    ensures '0' <= Digit(d) <= '9' || 'a' <= Digit(d) <= 'f'
    ensures d < 10 ==> '0' <= Digit(d) <= '9'
  {
  }

  const LOWER := "0123456789abcdef"
  const UPPER := "0123456789ABCDEF"

  /** The digits are the usual ones, in either case. */
  lemma DigitsAre(d: nat)
    requires d < 16
    ensures Digit(d) == LOWER[d] && DigitValue(LOWER[d]) == Some(d) && DigitValue(UPPER[d]) == Some(d)
  {
  }

  lemma DigitValueIs(c: char, d: nat)
    requires DigitValue(c) == Some(d)
    ensures d < 16 && (c == LOWER[d] || c == UPPER[d])
  {
  }

  /** A text is a number of the base exactly when each of its characters is a digit of the base. */
  lemma {:induction false} DigitsIff(s: string, base: nat)
    requires Radix(base)
    ensures Digits(s, base).Some? <==> forall i :: 0 <= i < |s| ==> DigitValue(s[i]).Some? && DigitValue(s[i]).value < base
  {
    if s != "" {
      hide DigitValue;
      DigitsIff(s[..|s| - 1], base);
      assert forall i :: 0 <= i < |s| - 1 ==> s[..|s| - 1][i] == s[i];
    }
  }

  lemma DivStep(n: nat, base: nat)
    requires Radix(base) && n >= base
    ensures n == (n / base) * base + n % base && 0 < n / base < n && n % base < base
  {
    if base == 8 {
    } else if base == 10 {
    } else {
    }
  }

  lemma DigitsSnoc(s: string, c: char, base: nat)
    requires Radix(base) && Digits(s, base).Some? && DigitValue(c).Some? && DigitValue(c).value < base
    ensures Digits(s + [c], base) == Some(Digits(s, base).value * base + DigitValue(c).value)
  {
    assert (s + [c])[..|s|] == s;
  }

  predicate LowerDigit(c: char, base: nat) {
    '0' <= c <= '9' || (base > 10 && 'a' <= c <= 'f')
  }

  lemma {:induction false} DigitsOfRender(n: nat, base: nat)
    requires Radix(base)
    ensures Digits(Render(n, base), base) == Some(n)
    ensures forall i :: 0 <= i < |Render(n, base)| ==> LowerDigit(Render(n, base)[i], base)
    ensures n > 0 ==> Render(n, base)[0] != '0'
  {
    var s := Render(n, base);
    if n < base {
      DigitRoundTrip(n);
      assert s == [Digit(n)] && s[..0] == [];
    } else {
      var q, r := n / base, n % base;
      DivStep(n, base);
      DigitRoundTrip(r);
      DigitsOfRender(q, base);
      assert s == Render(q, base) + [Digit(r)];
      DigitsSnoc(Render(q, base), Digit(r), base);
    }
  }

  function Itoa(n: nat): string {
    Render(n, 10)
  }

  lemma ItoaInjective(m: nat, n: nat)
    requires Itoa(m) == Itoa(n)
    ensures m == n
  {
    DigitsOfRender(m, 10);
    DigitsOfRender(n, 10);
  }
}
