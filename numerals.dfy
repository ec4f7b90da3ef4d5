/**
 * Text representations of natural numbers, as math/big writes and reads them:
 * `Int.Text(base)` and `Int.SetString(s, base)` for the bases 2 to 62 that the
 * logical and vector clocks use.  Digits are 0-9, then a-z, then A-Z; when the
 * base is at most 36 upper-case letters are read like lower-case ones.
 */
module Numerals {
  import opened Wrappers

  /** The largest base math/big accepts: 10 digits and 26 letters of either case. */
  const MaxBase: nat := 62

  predicate ValidBase(base: nat) {
    2 <= base <= MaxBase
  }

  /** The character `Int.Text` writes for digit `d`. */
  function DigitChar(d: nat): char
    requires d < MaxBase
  {
    if d < 10 then ('0' as int + d) as char
    else if d < 36 then ('a' as int + d - 10) as char
    else ('A' as int + d - 36) as char
  }

  /** The value `Int.SetString` gives `c` when scanning in `base`; MaxBase + 1 for a character that is no digit. */
  function DigitValue(c: char, base: nat): nat {
    if '0' <= c <= '9' then c as int - '0' as int
    else if 'a' <= c <= 'z' then c as int - 'a' as int + 10
    else if 'A' <= c <= 'Z' then
      (if base <= 36 then c as int - 'A' as int + 10 else c as int - 'A' as int + 36)
    else MaxBase + 1
  }

  predicate AllDigits(s: string, base: nat) {
    forall i | 0 <= i < |s| :: DigitValue(s[i], base) < base
  }

  /** The number a string of digits denotes, most significant digit first. */
  function DigitsValue(s: string, base: nat): nat
    requires AllDigits(s, base)
  {
    if s == [] then 0
    else DigitsValue(s[..|s| - 1], base) * base + DigitValue(s[|s| - 1], base)
  }

  /** `Int.Text(base)` of a natural number: no sign, no leading zero, "0" for zero. */
  function Text(n: nat, base: nat): (s: string)
    requires ValidBase(base)
    ensures |s| > 0
  {
    if n < base then [DigitChar(n)]
    else Text(n / base, base) + [DigitChar(n % base)]
  }

  /**
   * `Int.SetString(s, base)`: an optional '+' or '-' followed by one or more
   * digits of the base and nothing else; None when the scan fails.
   */
  function ParseInt(s: string, base: nat): (r: Option<int>)
    requires ValidBase(base)
  {
    var signed := |s| > 0 && (s[0] == '+' || s[0] == '-');
    var body := if signed then s[1..] else s;
    if |body| > 0 && AllDigits(body, base) then
      var magnitude: int := DigitsValue(body, base);
      Some(if signed && s[0] == '-' then -magnitude else magnitude)
    else None
  }

  /** A parse that a clock accepts: it succeeds and is not negative. */
  function ParseNatural(s: string, base: nat): (r: Option<nat>)
    requires ValidBase(base)
  {
    match ParseInt(s, base)
    case Some(v) => if v >= 0 then Some(v) else None
    case None => None
  }

  lemma DigitRoundTrip(d: nat, base: nat)
    requires ValidBase(base) && d < base
    ensures DigitValue(DigitChar(d), base) == d
  {
  }

  /** `Text` writes only digits of the base, and they denote the number written. */
  lemma {:induction false} TextDigits(n: nat, base: nat)
    requires ValidBase(base)
    ensures AllDigits(Text(n, base), base)
    ensures DigitsValue(Text(n, base), base) == n
  {
    if n < base {
      TextOneDigit(n, base);
    } else {
      Shorter(n, base);
      TextDigits(n / base, base);
      TextStep(n, base);
    }
  }

  lemma Shorter(n: nat, base: nat)
    requires ValidBase(base) && n >= base
    ensures n / base < n
  {
  }

  /** A number below the base is written as its one digit. */
  lemma TextOneDigit(n: nat, base: nat)
    requires ValidBase(base) && n < base
    ensures AllDigits(Text(n, base), base)
    ensures DigitsValue(Text(n, base), base) == n
  {
    DigitRoundTrip(n, base);
    assert Text(n, base) == [] + [DigitChar(n)];
    AppendDigit([], DigitChar(n), base);
  }

  /** One step of `Text`: the last digit written is n % base, after the text of n / base. */
  lemma TextStep(n: nat, base: nat)
    requires ValidBase(base) && n >= base
    requires AllDigits(Text(n / base, base), base)
    requires DigitsValue(Text(n / base, base), base) == n / base
    ensures AllDigits(Text(n, base), base)
    ensures DigitsValue(Text(n, base), base) == n
  {
    var q, d := n / base, n % base;
    DigitRoundTrip(d, base);
    AppendDigit(Text(q, base), DigitChar(d), base);
    DivMod(n, base);
  }

  lemma DivMod(n: nat, base: nat)
    requires base > 0
    ensures n == (n / base) * base + n % base
  {
  }

  /** Appending one digit multiplies the value by the base and adds the digit. */
  lemma AppendDigit(s: string, c: char, base: nat)
    requires AllDigits(s, base) && DigitValue(c, base) < base
    ensures AllDigits(s + [c], base)
    ensures DigitsValue(s + [c], base) == DigitsValue(s, base) * base + DigitValue(c, base)
  {
    var t := s + [c];
    assert forall i | 0 <= i < |t| :: t[i] == if i < |s| then s[i] else c;
    assert t[..|t| - 1] == s;
  }

  /** Reading back what `Text` wrote gives the same number: `Text` then `SetString` is the identity. */
  lemma ParseText(n: nat, base: nat)
    requires ValidBase(base)
    ensures ParseInt(Text(n, base), base) == Some(n)
    ensures ParseNatural(Text(n, base), base) == Some(n)
  {
    TextDigits(n, base);
    var s := Text(n, base);
    assert DigitValue(s[0], base) < base;
  }

  /** A minus sign in front of a positive number's text parses to a negative value, which clocks reject. */
  lemma ParseNegativeText(n: nat, base: nat)
    requires ValidBase(base) && n > 0
    ensures ParseInt("-" + Text(n, base), base) == Some(-(n as int))
    ensures ParseNatural("-" + Text(n, base), base) == None
  {
    TextDigits(n, base);
    assert ("-" + Text(n, base))[1..] == Text(n, base);
  }

  /** Text with no digits, or with a character that is not a digit of the base, does not parse. */
  lemma ParseRejects(s: string, base: nat)
    requires ValidBase(base)
    requires s == [] || (DigitValue(s[|s| - 1], base) >= base)
    ensures ParseInt(s, base) == None
  {
    if s != [] {
      var signed := s[0] == '+' || s[0] == '-';
      var body := if signed then s[1..] else s;
      if |body| > 0 {
        assert body[|body| - 1] == s[|s| - 1];
      }
    }
  }
}
