/** Lower-casing, as far as ASCII goes. */
module Ascii {
  function LowerChar(c: char): char { if 'A' <= c <= 'Z' then (c as int + 32) as char else c }

  function Lower(s: string): string { seq(|s|, i requires 0 <= i < |s| => LowerChar(s[i])) }

  /** One is the capital of the other, which is 32 places on in ASCII. */
  predicate Capital(c: char, d: char)
  {
    'A' <= c <= 'Z' && 'a' <= d <= 'z' && d as int - 'a' as int == c as int - 'A' as int
  }

  predicate SameLetter(c: char, d: char) { c == d || Capital(c, d) || Capital(d, c) }

  /** The same but for the case of letters. */
  ghost predicate SameButCase(s: string, t: string)
  {
    |s| == |t| && forall i :: 0 <= i < |s| ==> SameLetter(s[i], t[i])
  }

  lemma LowerCharIff(c: char, d: char)
    ensures LowerChar(c) == LowerChar(d) <==> SameLetter(c, d)
  {
  }

  /** Lower-casing forgets the case of letters and nothing else. */
  lemma LowerIff(s: string, t: string)
    ensures Lower(s) == Lower(t) <==> SameButCase(s, t)
  {
    if |s| == |t| {
      forall i | 0 <= i < |s| ensures Lower(s)[i] == Lower(t)[i] <==> SameLetter(s[i], t[i]) {
        LowerCharIff(s[i], t[i]);
      }
      if SameButCase(s, t) { assert Lower(s) == Lower(t); }
      if Lower(s) == Lower(t) {
        forall i | 0 <= i < |s| ensures SameLetter(s[i], t[i]) {
          assert Lower(s)[i] == Lower(t)[i];
        }
      }
    } else {
      assert |Lower(s)| != |Lower(t)|;
    }
  }
}
