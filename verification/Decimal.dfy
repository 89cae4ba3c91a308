/** Decimal numerals, as keys are built from them. */
module Decimal {

  function Digit(d: nat): (c: char)
    requires d < 10
    ensures '0' <= c <= '9' && c as int - '0' as int == d
  {
    ('0' as int + d) as char
  }

  function Digits(n: nat): (s: string)
    ensures s != [] && forall c <- s :: '0' <= c <= '9'
  {
    if n < 10 then [Digit(n)] else Digits(n / 10) + [Digit(n % 10)]
  }

  /** `{n:0w}`: at least `w` digits. */
  function Padded(n: nat, w: nat): (s: string)
    ensures forall c <- s :: '0' <= c <= '9'
  {
    var s := Digits(n);
    if |s| < w then seq(w - |s|, _ => '0') + s else s
  }

  function Parse(s: string): int
  {
    if s == [] then 0 else 10 * Parse(s[..|s| - 1]) + (s[|s| - 1] as int - '0' as int)
  }

  lemma {:induction false} ParseDigits(n: nat)
    ensures Parse(Digits(n)) == n
  {
    var s := Digits(n);
    if n < 10 {
      assert s[..0] == [];
    } else {
      ParseDigits(n / 10);
      assert s[..|s| - 1] == Digits(n / 10);
    }
  }

  lemma {:induction false} ParseLeadingZeros(z: nat, s: string)
    ensures Parse(seq(z, _ => '0') + s) == Parse(s)
    decreases |s|, z
  {
    var zeros := seq(z, _ => '0');
    var t := zeros + s;
    if s == [] {
      if z > 0 {
        ParseLeadingZeros(z - 1, []);
        assert t[..|t| - 1] == seq(z - 1, _ => '0') + [];
      }
    } else {
      ParseLeadingZeros(z, s[..|s| - 1]);
      assert t[..|t| - 1] == zeros + s[..|s| - 1];
    }
  }

  lemma ParsePadded(n: nat, w: nat)
    ensures Parse(Padded(n, w)) == n
  {
    ParseDigits(n);
    if |Digits(n)| < w { ParseLeadingZeros(w - |Digits(n)|, Digits(n)); }
  }

  /** Different numbers have different numerals. */
  lemma PaddedInjective(m: nat, n: nat, w: nat)
    requires Padded(m, w) == Padded(n, w)
    ensures m == n
  {
    ParsePadded(m, w);
    ParsePadded(n, w);
  }
}
