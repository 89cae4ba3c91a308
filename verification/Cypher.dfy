/** The console's tokenizer. */
module Cypher {
  import opened Ascii

  datatype Kind = Keyword | Ident | Quoted | Number | Comment | Punct | Space

  datatype Token = Token(kind: Kind, text: string)

  const KEYWORDS := {
    "and", "as", "asc", "by", "case", "contains", "create", "delete", "desc", "detach", "distinct",
    "else", "end", "ends", "false", "in", "is", "limit", "match", "merge", "not", "null", "on",
    "optional", "or", "order", "remove", "return", "set", "skip", "starts", "then", "true",
    "unwind", "when", "where", "with", "xor"
  }

  predicate IsDigit(c: char) { '0' <= c <= '9' }
  predicate IsIdentStart(c: char) { 'A' <= c <= 'Z' || 'a' <= c <= 'z' || c == '_' }
  predicate IsIdentPart(c: char) { IsIdentStart(c) || IsDigit(c) }
  predicate IsSpace(c: char) { c == ' ' || c == '\t' || c == '\n' || c == '\r' }

  predicate IsKeyword(text: string) { Lower(text) in KEYWORDS }

  /** The characters a token of each scanned class may go on with. */
  datatype Class = NotNewline | NumberPart | WordPart | SpacePart

  predicate In(k: Class, c: char)
  {
    match k
    case NotNewline => c != '\n'
    case NumberPart => IsDigit(c) || c == '.'
    case WordPart => IsIdentPart(c)
    case SpacePart => IsSpace(c)
  }

  /** The end of the run of `k` that starts at `i`. */
  function RunEnd(s: string, i: nat, k: Class): (e: nat)
    requires i <= |s|
    ensures i <= e <= |s|
    decreases |s| - i
  {
    if i < |s| && In(k, s[i]) then RunEnd(s, i + 1, k) else i
  }

  /** The end of a quoted string whose inside starts at `i`. A backslash at the very end of
    the source jumps one past it. */
  function QuoteEnd(s: string, i: nat, quote: char): (e: nat)
    requires i <= |s| + 1
    ensures i <= e <= |s| + 1
    decreases |s| + 1 - i
  {
    if i >= |s| then i
    else if s[i] == '\\' then QuoteEnd(s, i + 2, quote)
    else if s[i] == quote then i + 1
    else QuoteEnd(s, i + 1, quote)
  }

  predicate StartsComment(s: string, i: nat)
    requires i < |s|
  {
    s[i] == '/' && i + 1 < |s| && s[i + 1] == '/'
  }

  predicate IsQuote(c: char) { c == '\'' || c == '"' }

  /** Where the token that starts at `i` ends, before clamping to the source. */
  function RawEnd(s: string, i: nat): (e: nat)
    requires i < |s|
    ensures i < e <= |s| + 1
  {
    if StartsComment(s, i) then RunEnd(s, i + 2, NotNewline)
    else if IsQuote(s[i]) then QuoteEnd(s, i + 1, s[i])
    else if IsDigit(s[i]) then RunEnd(s, i + 1, NumberPart)
    else if IsIdentStart(s[i]) then RunEnd(s, i + 1, WordPart)
    else if IsSpace(s[i]) then RunEnd(s, i + 1, SpacePart)
    else i + 1
  }

  function Clamp(s: string, e: nat): nat { if e <= |s| then e else |s| }

  function TokenAt(s: string, i: nat): Token
    requires i < |s|
  {
    var text := s[i..Clamp(s, RawEnd(s, i))];
    Token(if StartsComment(s, i) then Comment
          else if IsQuote(s[i]) then Quoted
          else if IsDigit(s[i]) then Number
          else if IsIdentStart(s[i]) then if IsKeyword(text) then Keyword else Ident
          else if IsSpace(s[i]) then Space
          else Punct,
          text)
  }

  function TokensFrom(s: string, i: nat): seq<Token>
    decreases |s| - i
  {
    if i >= |s| then [] else [TokenAt(s, i)] + TokensFrom(s, RawEnd(s, i))
  }

  function Tokens(s: string): seq<Token> { TokensFrom(s, 0) }

  /** The run holds only `k`, and stops at the first character that is not. */
  ghost predicate StopsAt(s: string, i: nat, k: Class, e: nat)
  {
    i <= e <= |s| && (forall j :: i <= j < e ==> In(k, s[j])) && (e < |s| ==> !In(k, s[e]))
  }

  lemma {:induction false} RunEndIs(s: string, i: nat, k: Class, e: nat)
    requires i <= |s|
    ensures StopsAt(s, i, k, e) <==> e == RunEnd(s, i, k)
    decreases |s| - i
  {
    if i < |s| && In(k, s[i]) {
      RunEndIs(s, i + 1, k, e);
    }
  }

  method ScanRun(s: string, start: nat, k: Class) returns (i: nat)
    requires start <= |s|
    ensures i == RunEnd(s, start, k)
  {
    i := start;
    while i < |s| && In(k, s[i])
      invariant start <= i <= |s| && forall j :: start <= j < i ==> In(k, s[j])
    {
      i := i + 1;
    }
    RunEndIs(s, start, k, i);
  }

  method ScanQuoted(s: string, start: nat, quote: char) returns (i: nat)
    requires start <= |s|
    ensures i == QuoteEnd(s, start, quote)
  {
    i := start;
    while i < |s|
      invariant start <= i <= |s| + 1
      invariant QuoteEnd(s, i, quote) == QuoteEnd(s, start, quote)
      decreases |s| + 1 - i
    {
      if s[i] == '\\' {
        i := i + 2;
        continue;
      }
      if s[i] == quote {
        i := i + 1;
        return;
      }
      i := i + 1;
    }
  }

  /** `source.slice(start, i)` */
  function Slice(s: string, start: nat, i: nat): string
    requires start <= |s| && start <= i
  {
    s[start..Clamp(s, i)]
  }

  /** One turn of the loop: the token that starts at `start`, and where it stopped. */
  method NextToken(source: string, start: nat) returns (token: Token, i: nat)
    requires start < |source|
    ensures token == TokenAt(source, start) && i == RawEnd(source, start)
  {
    var ch := source[start];
    if ch == '/' && start + 1 < |source| && source[start + 1] == '/' {
      i := ScanRun(source, start + 2, NotNewline);
      token := Token(Comment, Slice(source, start, i));
    } else if ch == '\'' || ch == '"' {
      i := ScanQuoted(source, start + 1, ch);
      token := Token(Quoted, Slice(source, start, i));
    } else if IsDigit(ch) {
      i := ScanRun(source, start + 1, NumberPart);
      token := Token(Number, Slice(source, start, i));
    } else if IsIdentStart(ch) {
      i := ScanRun(source, start + 1, WordPart);
      var text := Slice(source, start, i);
      token := Token(if IsKeyword(text) then Keyword else Ident, text);
    } else if IsSpace(ch) {
      i := ScanRun(source, start + 1, SpacePart);
      token := Token(Space, Slice(source, start, i));
    } else {
      token := Token(Punct, [ch]);
      i := start + 1;
    }
  }

  method Tokenize(source: string) returns (tokens: seq<Token>)
    ensures tokens == Tokens(source)
  {
    tokens := [];
    var i := 0;
    while i < |source|
      invariant 0 <= i <= |source| + 1
      invariant tokens + TokensFrom(source, i) == Tokens(source)
      decreases |source| + 1 - i
    {
      var token, next := NextToken(source, i);
      assert tokens + ([token] + TokensFrom(source, next)) == (tokens + [token]) + TokensFrom(source, next);
      tokens := tokens + [token];
      i := next;
    }
  }

  // ---- lossless -----------------------------------------------------------------------------

  function Texts(tokens: seq<Token>): string
  {
    if tokens == [] then [] else tokens[0].text + Texts(tokens[1..])
  }

  lemma {:induction false} TextsFrom(s: string, i: nat)
    ensures Texts(TokensFrom(s, i)) == if i <= |s| then s[i..] else []
    ensures forall t <- TokensFrom(s, i) :: t.text != []
    decreases |s| + 1 - i
  {
    if i < |s| {
      var e := RawEnd(s, i);
      TextsFrom(s, e);
      var rest := TokensFrom(s, e);
      assert ([TokenAt(s, i)] + rest)[1..] == rest;
      assert s[i..Clamp(s, e)] + s[Clamp(s, e)..] == s[i..];
    } else if i == |s| {
      assert s[i..] == [];
    }
  }

  /** The token texts are non-empty and, put together, are the source. */
  lemma TokenizeIsLossless(s: string)
    ensures Texts(Tokens(s)) == s && forall t <- Tokens(s) :: t.text != []
  {
    TextsFrom(s, 0);
    assert s[0..] == s;
  }

  // ---- any run of tokens tokenizes to itself ------------------------------------------------------

  /** Scanning the inside of a quoted string is the same in a window that holds it. */
  lemma {:induction false} QuoteEndInWindow(s: string, lo: nat, hi: nat, i: nat, quote: char)
    requires lo < i <= |s| + 1 && Clamp(s, QuoteEnd(s, i, quote)) <= hi <= |s|
    ensures lo <= hi && i <= hi + 1 && QuoteEnd(s[lo..hi], i - lo, quote) == QuoteEnd(s, i, quote) - lo
    decreases |s| + 1 - i
  {
    if i < |s| {
      assert i < hi && s[lo..hi][i - lo] == s[i];
      if s[i] == '\\' {
        QuoteEndInWindow(s, lo, hi, i + 2, quote);
      } else if s[i] != quote {
        QuoteEndInWindow(s, lo, hi, i + 1, quote);
      }
    }
  }

  lemma RunEndInWindow(s: string, lo: nat, hi: nat, i: nat, k: Class)
    requires lo < i <= |s| && RunEnd(s, i, k) <= hi <= |s|
    ensures i <= hi && RunEnd(s[lo..hi], i - lo, k) == RunEnd(s, i, k) - lo
  {
    var e, w := RunEnd(s, i, k), s[lo..hi];
    RunEndIs(s, i, k, e);
    forall j | i - lo <= j < e - lo ensures In(k, w[j]) {
      assert w[j] == s[lo + j];
    }
    if e < hi { assert w[e - lo] == s[e]; }
    RunEndIs(w, i - lo, k, e - lo);
  }

  lemma SliceOfWindow(s: string, lo: nat, hi: nat, i: nat, j: nat)
    requires lo <= i <= j <= hi <= |s|
    ensures s[lo..hi][i - lo..j - lo] == s[i..j]
  {
    var w := s[lo..hi];
    var x, y := w[i - lo..j - lo], s[i..j];
    forall k | 0 <= k < |x| ensures x[k] == y[k] {
      assert x[k] == w[i - lo + k] == s[i + k];
    }
  }

  lemma StartSame(s: string, lo: nat, hi: nat, i: nat)
    requires lo <= i < hi <= |s| && (StartsComment(s, i) ==> i + 1 < hi)
    ensures s[lo..hi][i - lo] == s[i] && StartsComment(s[lo..hi], i - lo) == StartsComment(s, i)
  {
    if i + 1 < hi { assert s[lo..hi][i + 1 - lo] == s[i + 1]; }
  }

  lemma PlainEndInWindow(s: string, lo: nat, hi: nat, i: nat)
    requires lo <= i < |s| && !StartsComment(s, i) && !IsQuote(s[i]) && RawEnd(s, i) <= hi <= |s|
    ensures i < hi && RawEnd(s[lo..hi], i - lo) == RawEnd(s, i) - lo
  {
    StartSame(s, lo, hi, i);
    if IsDigit(s[i]) {
      RunEndInWindow(s, lo, hi, i + 1, NumberPart);
    } else if IsIdentStart(s[i]) {
      RunEndInWindow(s, lo, hi, i + 1, WordPart);
    } else if IsSpace(s[i]) {
      RunEndInWindow(s, lo, hi, i + 1, SpacePart);
    }
  }

  lemma RawEndInWindow(s: string, lo: nat, hi: nat, i: nat)
    requires lo <= i < |s| && Clamp(s, RawEnd(s, i)) <= hi <= |s|
    ensures i < hi && RawEnd(s[lo..hi], i - lo) == RawEnd(s, i) - lo
  {
    StartSame(s, lo, hi, i);
    if StartsComment(s, i) {
      RunEndInWindow(s, lo, hi, i + 2, NotNewline);
    } else if IsQuote(s[i]) {
      QuoteEndInWindow(s, lo, hi, i + 1, s[i]);
    } else {
      PlainEndInWindow(s, lo, hi, i);
    }
  }

  /** A token is the same token in any window of the source that holds it whole. */
  lemma TokenInWindow(s: string, lo: nat, hi: nat, i: nat)
    requires lo <= i < |s| && Clamp(s, RawEnd(s, i)) <= hi <= |s|
    ensures i < hi && TokenAt(s[lo..hi], i - lo) == TokenAt(s, i)
    ensures RawEnd(s[lo..hi], i - lo) == RawEnd(s, i) - lo
  {
    RawEndInWindow(s, lo, hi, i);
    StartSame(s, lo, hi, i);
    SliceOfWindow(s, lo, hi, i, Clamp(s, RawEnd(s, i)));
  }

  predicate HasTokens(s: string, i: nat, n: nat)
    decreases n
  {
    n == 0 || (i < |s| && HasTokens(s, RawEnd(s, i), n - 1))
  }

  /** Where the scan is after `n` tokens from `i`. */
  function EndAfter(s: string, i: nat, n: nat): (e: nat)
    requires HasTokens(s, i, n)
    ensures e >= i && (i <= |s| + 1 ==> e <= |s| + 1)
    decreases n
  {
    if n == 0 then i else EndAfter(s, RawEnd(s, i), n - 1)
  }

  /** Those `n` tokens. */
  function FirstTokens(s: string, i: nat, n: nat): seq<Token>
    requires HasTokens(s, i, n)
    decreases n
  {
    if n == 0 then [] else [TokenAt(s, i)] + FirstTokens(s, RawEnd(s, i), n - 1)
  }

  /** From `lo` to `hi`, `w` scans as `s` does. */
  ghost predicate ScansAlike(s: string, w: string, lo: nat, hi: nat)
  {
    |w| == hi - lo &&
    forall i {:trigger AlikeAt(s, w, lo, i)} ::
      lo <= i < |s| && Clamp(s, RawEnd(s, i)) <= hi ==> AlikeAt(s, w, lo, i)
  }

  /** The scan of `w` has the token of `s` at `i`, and goes on where that one ends. */
  ghost predicate AlikeAt(s: string, w: string, lo: nat, i: nat)
    requires lo <= i < |s|
  {
    TokensFrom(w, i - lo) == [TokenAt(s, i)] + TokensFrom(w, RawEnd(s, i) - lo)
  }

  lemma WindowScansAlike(s: string, lo: nat, hi: nat)
    requires lo <= hi <= |s|
    ensures ScansAlike(s, s[lo..hi], lo, hi)
  {
    forall i | lo <= i < |s| && Clamp(s, RawEnd(s, i)) <= hi ensures AlikeAt(s, s[lo..hi], lo, i) {
      TokenInWindow(s, lo, hi, i);
    }
  }

  /** `hi` is where `n` tokens from `i` end. */
  ghost predicate Fits(s: string, lo: nat, hi: nat, i: nat, n: nat)
  {
    lo <= i <= |s| + 1 && lo <= hi && HasTokens(s, i, n) && hi == Clamp(s, EndAfter(s, i, n))
  }

  /** Scanned from `i`, `w` has exactly the next `n` tokens of `s`. */
  ghost predicate HasJust(s: string, w: string, lo: nat, i: nat, n: nat)
    requires lo <= i && HasTokens(s, i, n)
  {
    TokensFrom(w, i - lo) == FirstTokens(s, i, n)
  }

  lemma FitsNext(s: string, lo: nat, hi: nat, i: nat, n: nat)
    requires Fits(s, lo, hi, i, n) && n > 0
    ensures i < |s| && Clamp(s, RawEnd(s, i)) <= hi && Fits(s, lo, hi, RawEnd(s, i), n - 1)
  {
  }

  lemma NothingLeft(s: string, w: string, lo: nat, hi: nat, i: nat)
    requires Fits(s, lo, hi, i, 0) && |w| == hi - lo
    ensures HasJust(s, w, lo, i, 0)
  {
  }

  lemma OneMore(s: string, w: string, lo: nat, i: nat, n: nat)
    requires lo <= i < |s| && n > 0 && HasTokens(s, i, n)
    requires AlikeAt(s, w, lo, i) && HasJust(s, w, lo, RawEnd(s, i), n - 1)
    ensures HasJust(s, w, lo, i, n)
  {
    var rest := FirstTokens(s, RawEnd(s, i), n - 1);
    assert TokensFrom(w, i - lo) == [TokenAt(s, i)] + rest;
  }

  /** The tokens of a window that ends where `n` tokens end. */
  lemma {:induction false} WindowTokens(s: string, w: string, lo: nat, hi: nat, i: nat, n: nat)
    requires Fits(s, lo, hi, i, n) && ScansAlike(s, w, lo, hi)
    ensures HasJust(s, w, lo, i, n)
    decreases n
  {
    if n == 0 {
      NothingLeft(s, w, lo, hi, i);
    } else {
      FitsNext(s, lo, hi, i, n);
      WindowTokens(s, w, lo, hi, RawEnd(s, i), n - 1);
      OneMore(s, w, lo, i, n);
    }
  }

  lemma SliceJoin(s: string, i: nat, e: nat, f: nat)
    requires i <= e <= f <= |s|
    ensures s[i..e] + s[e..f] == s[i..f]
  {
  }

  lemma TextsCons(x: Token, rest: seq<Token>)
    ensures Texts([x] + rest) == x.text + Texts(rest)
  {
    assert ([x] + rest)[1..] == rest;
  }

  lemma {:induction false} TextsOfRun(s: string, i: nat, n: nat)
    requires i <= |s| && HasTokens(s, i, n)
    ensures Texts(FirstTokens(s, i, n)) == s[i..Clamp(s, EndAfter(s, i, n))]
    decreases n
  {
    if n > 0 {
      var e := RawEnd(s, i);
      TextsCons(TokenAt(s, i), FirstTokens(s, e, n - 1));
      if e <= |s| {
        TextsOfRun(s, e, n - 1);
        SliceJoin(s, i, e, Clamp(s, EndAfter(s, e, n - 1)));
      }
    }
  }

  lemma ConsSlice(x: Token, rest: seq<Token>, n: nat)
    requires 0 < n <= |rest| + 1
    ensures ([x] + rest)[..n] == [x] + rest[..n - 1] && ([x] + rest)[n..] == rest[n - 1..]
  {
  }

  /** The scan, cut after `n` tokens. */
  lemma {:induction false} SplitTokens(s: string, i: nat, n: nat)
    requires i <= |s| + 1 && n <= |TokensFrom(s, i)|
    ensures HasTokens(s, i, n)
    ensures TokensFrom(s, i)[..n] == FirstTokens(s, i, n)
    ensures TokensFrom(s, i)[n..] == TokensFrom(s, EndAfter(s, i, n))
    decreases n
  {
    if n > 0 {
      var e := RawEnd(s, i);
      ConsSlice(TokenAt(s, i), TokensFrom(s, e), n);
      SplitTokens(s, e, n - 1);
    }
  }

  /** Cut any stretch of consecutive tokens out of any source and tokenize its text: the
    same tokens come back. So each token alone is one token of its kind, and no two
    neighbours would have been read as one. */
  lemma StretchTokenizesToItself(s: string, a: nat, b: nat)
    requires a <= b <= |Tokens(s)|
    ensures Tokens(Texts(Tokens(s)[a..b])) == Tokens(s)[a..b]
  {
    var n := b - a;
    SplitTokens(s, 0, a);
    var i := EndAfter(s, 0, a);
    assert Tokens(s)[a..b] == Tokens(s)[a..][..n];
    SplitTokens(s, i, n);
    if i <= |s| {
      TextsOfRun(s, i, n);
      var hi := Clamp(s, EndAfter(s, i, n));
      WindowScansAlike(s, i, hi);
      WindowTokens(s, s[i..hi], i, hi, i, n);
    }
  }
}
