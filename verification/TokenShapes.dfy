/** What each kind of token looks like, apart from how it is scanned. */
module TokenShapes {
  import opened Ascii
  import opened Cypher

  // ---- quoted strings ---------------------------------------------------------------------

  /** From `i` on, the character at `k` is escaped: an unescaped backslash is before it. */
  predicate EscapedAt(s: string, i: nat, k: nat)
    requires i <= k <= |s|
    decreases k
  {
    k > i && s[k - 1] == '\\' && !EscapedAt(s, i, k - 1)
  }

  lemma {:induction false} EscapeShift(s: string, i: nat, j: nat, k: nat)
    requires i <= j <= k <= |s| && !EscapedAt(s, i, j)
    ensures EscapedAt(s, i, k) == EscapedAt(s, j, k)
    decreases k
  {
    if k > j { EscapeShift(s, i, j, k - 1); }
  }

  /** A quote that closes the string. */
  predicate Closes(s: string, i: nat, k: nat, quote: char)
    requires i <= k < |s|
  {
    s[k] == quote && !EscapedAt(s, i, k)
  }

  /** `e` is just past the first closing quote, or past the source if there is none. */
  ghost predicate EndsString(s: string, i: nat, quote: char, e: nat)
  {
    if exists k :: i <= k < |s| && Closes(s, i, k, quote)
    then i < e <= |s| && Closes(s, i, e - 1, quote) && forall k :: i <= k < e - 1 ==> !Closes(s, i, k, quote)
    else e >= |s|
  }

  lemma EndsLater(s: string, i: nat, j: nat, quote: char, e: nat)
    requires i <= j <= |s| && !EscapedAt(s, i, j) && EndsString(s, j, quote, e)
    requires forall k :: i <= k < j ==> !Closes(s, i, k, quote)
    ensures EndsString(s, i, quote, e)
  {
    forall k | j <= k < |s| ensures Closes(s, i, k, quote) == Closes(s, j, k, quote) { EscapeShift(s, i, j, k); }
    if k :| j <= k < |s| && Closes(s, j, k, quote) { assert Closes(s, i, k, quote); }
  }

  /** A string ends at the first quote of its own kind that no backslash escapes; without one
    it runs to the end of the source. */
  lemma {:induction false} StringEndsAtQuote(s: string, i: nat, quote: char)
    requires i <= |s| + 1 && quote != '\\'
    ensures EndsString(s, i, quote, QuoteEnd(s, i, quote))
    decreases |s| + 1 - i
  {
    if i < |s| {
      if s[i] == '\\' {
        StringEndsAtQuote(s, i + 2, quote);
        if i + 2 <= |s| {
          assert !EscapedAt(s, i, i) && EscapedAt(s, i, i + 1);
          assert !EscapedAt(s, i, i + 2);
          assert forall k :: i <= k < i + 2 ==> !Closes(s, i, k, quote);
          EndsLater(s, i, i + 2, quote, QuoteEnd(s, i + 2, quote));
        }
      } else if s[i] == quote {
        assert Closes(s, i, i, quote);
      } else {
        StringEndsAtQuote(s, i + 1, quote);
        assert !EscapedAt(s, i, i + 1) && !Closes(s, i, i, quote);
        EndsLater(s, i, i + 1, quote, QuoteEnd(s, i + 1, quote));
      }
    }
  }

  // ---- kinds ---------------------------------------------------------------------------------

  ghost predicate AllIn(s: string, k: Class) { forall c <- s :: In(k, c) }

  /** The text is one a token of this kind can have. */
  ghost predicate Shape(t: Token)
  {
    t.text != [] &&
    match t.kind
    case Comment => |t.text| >= 2 && t.text[..2] == "//" && '\n' !in t.text
    case Quoted => t.text[0] == '\'' || t.text[0] == '"'
    case Number => IsDigit(t.text[0]) && forall c <- t.text :: IsDigit(c) || c == '.'
    case Keyword => Word(t.text) && Lower(t.text) in KEYWORDS
    case Ident => Word(t.text) && Lower(t.text) !in KEYWORDS
    case Space => forall c <- t.text :: c in " \t\n\r"
    case Punct => |t.text| == 1 && !StartsOther(t.text[0])
  }

  ghost predicate Word(s: string)
  {
    s != [] && IsIdentStart(s[0]) && forall c <- s :: IsIdentStart(c) || IsDigit(c)
  }

  /** The first character decides for another kind; a slash alone does not. */
  predicate StartsOther(c: char) { IsDigit(c) || IsIdentStart(c) || c in " \t\n\r" || c == '\'' || c == '"' }

  lemma RunIsIn(s: string, i: nat, from: nat, k: Class)
    requires i <= from <= |s| && forall j :: i <= j < from ==> In(k, s[j])
    ensures AllIn(s[i..RunEnd(s, from, k)], k)
  {
    var e := RunEnd(s, from, k);
    RunEndIs(s, from, k, e);
    var text := s[i..e];
    forall c | c in text ensures In(k, c) {
      var j :| 0 <= j < |text| && text[j] == c;
      assert text[j] == s[i + j];
    }
  }

  lemma TokenHasShape(s: string, i: nat)
    requires i < |s|
    ensures Shape(TokenAt(s, i))
  {
    var text := TokenAt(s, i).text;
    assert text[0] == s[i];
    if StartsComment(s, i) {
      RunIsIn(s, i, i + 2, NotNewline);
      assert text[..2] == [s[i], s[i + 1]] == "//";
    } else if IsQuote(s[i]) {
    } else if IsDigit(s[i]) {
      RunIsIn(s, i, i + 1, NumberPart);
    } else if IsIdentStart(s[i]) {
      RunIsIn(s, i, i + 1, WordPart);
      assert forall c <- text :: In(WordPart, c);
    } else if IsSpace(s[i]) {
      RunIsIn(s, i, i + 1, SpacePart);
    }
  }

  /** Every token of every source has the shape of its kind. */
  lemma {:induction false} TokensHaveShape(s: string, i: nat)
    ensures forall t <- TokensFrom(s, i) :: Shape(t)
    decreases |s| + 1 - i
  {
    if i < |s| {
      TokenHasShape(s, i);
      TokensHaveShape(s, RawEnd(s, i));
    }
  }

  /** The shapes exclude each other, so a token's text determines its kind. */
  lemma ShapeGivesKind(t: Token, u: Token)
    requires Shape(t) && Shape(u) && t.text == u.text
    ensures t == u
  {
    if t.kind == Comment || u.kind == Comment { assert t.text[0] == '/' by { assert t.text[..2][0] == '/'; } }
    assert t.text[0] in t.text;
  }
}
