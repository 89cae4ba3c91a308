/** The highlighter: escaped token texts, some of them inside a span. */
module Highlight {
  import opened Options
  import opened Cypher

  /** `text.replace(/c/g, into)` for a single character. */
  function Replace(s: string, c: char, into: string): string
  {
    if s == [] then [] else (if s[0] == c then into else [s[0]]) + Replace(s[1..], c, into)
  }

  /** The four replacements, one after the other. */
  function EscapeHtml(s: string): string
  {
    Replace(Replace(Replace(Replace(s, '&', "&amp;"), '<', "&lt;"), '>', "&gt;"), '"', "&quot;")
  }

  function EscapeChar(c: char): string
  {
    if c == '&' then "&amp;"
    else if c == '<' then "&lt;"
    else if c == '>' then "&gt;"
    else if c == '"' then "&quot;"
    else [c]
  }

  function Escape(s: string): string
  {
    if s == [] then [] else EscapeChar(s[0]) + Escape(s[1..])
  }

  lemma {:induction false} ReplaceConcat(a: string, b: string, c: char, into: string)
    ensures Replace(a + b, c, into) == Replace(a, c, into) + Replace(b, c, into)
  {
    if a == [] {
      assert a + b == b;
    } else {
      var head := if a[0] == c then into else [a[0]];
      ReplaceConcat(a[1..], b, c, into);
      assert (a + b)[1..] == a[1..] + b && (a + b)[0] == a[0];
      Associates(head, Replace(a[1..], c, into), Replace(b, c, into));
    }
  }

  lemma {:induction false} ReplaceAbsent(a: string, c: char, into: string)
    requires c !in a
    ensures Replace(a, c, into) == a
  {
    if a != [] { ReplaceAbsent(a[1..], c, into); }
  }

  lemma EscapeHtmlConcat(a: string, b: string)
    ensures EscapeHtml(a + b) == EscapeHtml(a) + EscapeHtml(b)
  {
    ReplaceConcat(a, b, '&', "&amp;");
    var a1, b1 := Replace(a, '&', "&amp;"), Replace(b, '&', "&amp;");
    ReplaceConcat(a1, b1, '<', "&lt;");
    var a2, b2 := Replace(a1, '<', "&lt;"), Replace(b1, '<', "&lt;");
    ReplaceConcat(a2, b2, '>', "&gt;");
    var a3, b3 := Replace(a2, '>', "&gt;"), Replace(b2, '>', "&gt;");
    ReplaceConcat(a3, b3, '"', "&quot;");
  }

  lemma ReplaceOne(c: char, d: char, into: string)
    ensures Replace([c], d, into) == if c == d then into else [c]
  {
    assert [c][1..] == [];
  }

  lemma EscapeHtmlChar(c: char)
    ensures EscapeHtml([c]) == EscapeChar(c)
  {
    ReplaceOne(c, '&', "&amp;");
    if c == '&' {
      ReplaceAbsent("&amp;", '<', "&lt;");
      ReplaceAbsent("&amp;", '>', "&gt;");
      ReplaceAbsent("&amp;", '"', "&quot;");
    } else {
      ReplaceOne(c, '<', "&lt;");
      if c == '<' {
        ReplaceAbsent("&lt;", '>', "&gt;");
        ReplaceAbsent("&lt;", '"', "&quot;");
      } else {
        ReplaceOne(c, '>', "&gt;");
        if c == '>' {
          ReplaceAbsent("&gt;", '"', "&quot;");
        } else {
          ReplaceOne(c, '"', "&quot;");
        }
      }
    }
  }

  /** Replacing `&` first, the four passes are one escape per character. */
  lemma {:induction false} EscapeIsCharwise(s: string)
    ensures EscapeHtml(s) == Escape(s)
  {
    if s == [] {
    } else {
      EscapeIsCharwise(s[1..]);
      EscapeHtmlChar(s[0]);
      EscapeHtmlConcat([s[0]], s[1..]);
      assert [s[0]] + s[1..] == s;
    }
  }

  // ---- undoing it ----------------------------------------------------------------------------

  predicate StartsWith(s: string, p: string) { |p| <= |s| && s[..|p|] == p }

  function Unescape(s: string): string
    decreases |s|
  {
    if s == [] then []
    else if StartsWith(s, "&amp;") then "&" + Unescape(s[5..])
    else if StartsWith(s, "&lt;") then "<" + Unescape(s[4..])
    else if StartsWith(s, "&gt;") then ">" + Unescape(s[4..])
    else if StartsWith(s, "&quot;") then "\"" + Unescape(s[6..])
    else [s[0]] + Unescape(s[1..])
  }

  lemma Differs(s: string, p: string, k: nat)
    requires k < |p| && k < |s| && s[k] != p[k]
    ensures !StartsWith(s, p)
  {
  }

  lemma UnescapeOne(c: char, rest: string)
    ensures Unescape(EscapeChar(c) + rest) == [c] + Unescape(rest)
  {
    var e := EscapeChar(c);
    var s := e + rest;
    assert s[..|e|] == e && s[|e|..] == rest;
    if c == '<' {
      Differs(s, "&amp;", 1);
    } else if c == '>' {
      Differs(s, "&amp;", 1);
      Differs(s, "&lt;", 1);
    } else if c == '"' {
      Differs(s, "&amp;", 1);
      Differs(s, "&lt;", 1);
      Differs(s, "&gt;", 1);
    } else if c != '&' {
      Differs(s, "&amp;", 0);
      Differs(s, "&lt;", 0);
      Differs(s, "&gt;", 0);
      Differs(s, "&quot;", 0);
    }
  }

  lemma {:induction false} UnescapeEscape(s: string)
    ensures Unescape(Escape(s)) == s
  {
    if s != [] {
      UnescapeEscape(s[1..]);
      UnescapeOne(s[0], Escape(s[1..]));
    }
  }

  /** Drop every `<...>`. */
  function StripTags(s: string): string
    decreases |s|
  {
    if s == [] then []
    else if s[0] == '<' then AfterTag(s[1..])
    else [s[0]] + StripTags(s[1..])
  }

  function AfterTag(s: string): string
    decreases |s|
  {
    if s == [] then [] else if s[0] == '>' then StripTags(s[1..]) else AfterTag(s[1..])
  }

  lemma {:induction false} StripPlain(a: string, b: string)
    requires '<' !in a
    ensures StripTags(a + b) == a + StripTags(b)
  {
    if a == [] {
      assert a + b == b;
    } else {
      StripPlain(a[1..], b);
      assert (a + b)[1..] == a[1..] + b && a[0] in a;
    }
  }

  lemma {:induction false} SkipTag(a: string, b: string)
    requires '>' !in a
    ensures AfterTag(a + ">" + b) == StripTags(b)
  {
    var s := a + ">" + b;
    if a == [] {
      assert s[1..] == b;
    } else {
      SkipTag(a[1..], b);
      assert s[1..] == a[1..] + ">" + b && a[0] in a;
    }
  }

  lemma StripTag(inside: string, b: string)
    requires '>' !in inside
    ensures StripTags("<" + inside + ">" + b) == StripTags(b)
  {
    var s := "<" + inside + ">" + b;
    assert s[1..] == inside + ">" + b;
    SkipTag(inside, b);
  }

  lemma {:induction false} EscapedHasNoTags(s: string)
    ensures '<' !in Escape(s) && '>' !in Escape(s) && '"' !in Escape(s)
  {
    if s != [] { EscapedHasNoTags(s[1..]); }
  }

  lemma {:induction false} EscapeConcat(a: string, b: string)
    ensures Escape(a + b) == Escape(a) + Escape(b)
  {
    EscapeIsCharwise(a + b);
    EscapeIsCharwise(a);
    EscapeIsCharwise(b);
    EscapeHtmlConcat(a, b);
  }

  // ---- highlighting -----------------------------------------------------------------------------

  function KindClass(k: Kind): (cls: Option<string>)
  {
    match k
    case Keyword => Some("hl-kw")
    case Quoted => Some("hl-str")
    case Number => Some("hl-num")
    case Comment => Some("hl-cmt")
    case Ident => None
    case Punct => None
    case Space => None
  }

  function OpenTag(cls: string): string { "<" + ("span class=\"" + cls + "\"") + ">" }

  function TokenHtml(t: Token): string
  {
    var escaped := EscapeHtml(t.text);
    if KindClass(t.kind).None? then escaped else OpenTag(KindClass(t.kind).value) + escaped + "</span>"
  }

  function Html(tokens: seq<Token>): string
  {
    if tokens == [] then [] else Html(tokens[..|tokens| - 1]) + TokenHtml(tokens[|tokens| - 1])
  }

  lemma HtmlOfPrefix(tokens: seq<Token>, i: nat)
    requires i < |tokens|
    ensures Html(tokens[..i + 1]) == Html(tokens[..i]) + TokenHtml(tokens[i])
  {
    var front := tokens[..i + 1];
    assert front[..i] == tokens[..i] && front[i] == tokens[i];
  }

  method HighlightHtml(source: string) returns (html: string)
    ensures html == Html(Tokens(source))
  {
    html := "";
    var tokens := Tokenize(source);
    for i := 0 to |tokens|
      invariant html == Html(tokens[..i])
    {
      HtmlOfPrefix(tokens, i);
      html := html + TokenHtml(tokens[i]);
    }
    assert tokens[..|tokens|] == tokens;
  }

  lemma ClassNoBracket(k: Kind)
    requires KindClass(k).Some?
    ensures '>' !in "span class=\"" + KindClass(k).value + "\""
  {
  }

  lemma StripToken(t: Token, rest: string)
    ensures StripTags(TokenHtml(t) + rest) == Escape(t.text) + StripTags(rest)
  {
    var escaped := Escape(t.text);
    EscapeIsCharwise(t.text);
    EscapedHasNoTags(t.text);
    if KindClass(t.kind).None? {
      StripPlain(escaped, rest);
    } else {
      var inside := "span class=\"" + KindClass(t.kind).value + "\"";
      ClassNoBracket(t.kind);
      var tail := escaped + ("<" + "/span" + ">" + rest);
      assert TokenHtml(t) + rest == "<" + inside + ">" + tail;
      StripTag(inside, tail);
      StripPlain(escaped, "<" + "/span" + ">" + rest);
      StripTag("/span", rest);
    }
  }

  lemma {:induction false} TextsSnoc(tokens: seq<Token>, t: Token)
    ensures Texts(tokens + [t]) == Texts(tokens) + t.text
  {
    if tokens == [] {
      assert ([] + [t])[1..] == [];
    } else {
      TextsSnoc(tokens[1..], t);
      assert (tokens + [t])[1..] == tokens[1..] + [t];
    }
  }

  lemma Associates(a: string, b: string, c: string)
    ensures (a + b) + c == a + (b + c)
  {
  }

  lemma {:induction false} StripHtml(tokens: seq<Token>, rest: string)
    ensures StripTags(Html(tokens) + rest) == Escape(Texts(tokens)) + StripTags(rest)
    decreases |tokens|
  {
    if tokens == [] {
      assert Html(tokens) + rest == rest;
    } else {
      var front, t := tokens[..|tokens| - 1], tokens[|tokens| - 1];
      assert front + [t] == tokens;
      var x, y := Html(front), TokenHtml(t);
      assert Html(tokens) == x + y;
      Associates(x, y, rest);
      StripHtml(front, y + rest);
      StripToken(t, rest);
      TextsSnoc(front, t);
      EscapeConcat(Texts(front), t.text);
      Associates(Escape(Texts(front)), Escape(t.text), StripTags(rest));
    }
  }

  /** Take the generated tags out of the highlighted source and unescape: the source. */
  lemma HighlightIsReversible(s: string)
    ensures Unescape(StripTags(Html(Tokens(s)))) == s
  {
    StripHtml(Tokens(s), []);
    assert Html(Tokens(s)) + [] == Html(Tokens(s));
    assert Escape(s) + StripTags([]) == Escape(s);
    TokenizeIsLossless(s);
    UnescapeEscape(s);
  }
}
