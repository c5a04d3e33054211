/** The glob patterns that scope a watch.

Only the documented core is modelled: literals, `?` and `*` (neither crosses
"/"), and `**` (crosses "/"). */
module Glob {

  datatype Token = Literal(c: char) | AnyChar | Star | DoubleStar

  function Parse(pat: string): seq<Token> {
    if pat == "" then []
    else if |pat| >= 2 && pat[0] == '*' && pat[1] == '*' then [DoubleStar] + Parse(pat[2..])
    else if pat[0] == '*' then [Star] + Parse(pat[1..])
    else if pat[0] == '?' then [AnyChar] + Parse(pat[1..])
    else [Literal(pat[0])] + Parse(pat[1..])
  }

  predicate Accepts(tokens: seq<Token>, s: string)
    decreases |tokens|, |s|
  {
    if tokens == [] then s == ""
    else
      match tokens[0]
      case Literal(c) => s != "" && s[0] == c && Accepts(tokens[1..], s[1..])
      case AnyChar => s != "" && s[0] != '/' && Accepts(tokens[1..], s[1..])
      case Star => Accepts(tokens[1..], s) || (s != "" && s[0] != '/' && Accepts(tokens, s[1..]))
      case DoubleStar => Accepts(tokens[1..], s) || (s != "" && Accepts(tokens, s[1..]))
  }

  predicate Matches(pat: string, s: string) {
    Accepts(Parse(pat), s)
  }

  predicate HasDoubleStar(pat: string) {
    exists i :: 0 <= i < |pat| - 1 && pat[i] == '*' && pat[i + 1] == '*'
  }

  /** The syntactic test the daemon uses to decide whether to descend. */
  predicate PatternIsDeep(pat: string) {
    HasDoubleStar(pat) || '/' in pat
  }

  predicate Crosses(t: Token) {
    t == DoubleStar || t == Literal('/')
  }

  lemma DoubleStarTail(pat: string)
    requires |pat| >= 2 && !(pat[0] == '*' && pat[1] == '*')
    ensures HasDoubleStar(pat) <==> HasDoubleStar(pat[1..])
  {
    if HasDoubleStar(pat) {
      var i :| 0 <= i < |pat| - 1 && pat[i] == '*' && pat[i + 1] == '*';
      assert pat[1..][i - 1] == '*' && pat[1..][i] == '*';
    }
    if HasDoubleStar(pat[1..]) {
      var i :| 0 <= i < |pat[1..]| - 1 && pat[1..][i] == '*' && pat[1..][i + 1] == '*';
      assert pat[i + 1] == '*' && pat[i + 2] == '*';
    }
  }

  lemma {:induction false} DeepnessOfTokens(pat: string)
    ensures PatternIsDeep(pat) <==> exists t :: t in Parse(pat) && Crosses(t)
    decreases |pat|
  {
    if pat == "" {
    } else if |pat| >= 2 && pat[0] == '*' && pat[1] == '*' {
      assert Parse(pat)[0] == DoubleStar && Crosses(DoubleStar);
      assert pat[0] == '*' && pat[0 + 1] == '*';
    } else {
      var head := Parse(pat)[0];
      assert Parse(pat) == [head] + Parse(pat[1..]);
      DeepnessOfTokens(pat[1..]);
      assert forall t :: t in Parse(pat) <==> t == head || t in Parse(pat[1..]);
      assert '/' in pat <==> Crosses(head) || '/' in pat[1..] by {
        assert pat == [pat[0]] + pat[1..];
      }
      if |pat| >= 2 {
        DoubleStarTail(pat);
      }
    }
  }

  lemma {:induction false} SlashNeedsCrossing(tokens: seq<Token>, s: string)
    requires Accepts(tokens, s) && '/' in s
    ensures exists t :: t in tokens && Crosses(t)
    decreases |tokens|, |s|
  {
    if !Crosses(tokens[0]) {
      assert tokens[0] in tokens && s == [s[0]] + s[1..];
      if tokens[0] == Star && !Accepts(tokens[1..], s) {
        SlashNeedsCrossing(tokens, s[1..]);
      } else if tokens[0] == Star {
        SlashNeedsCrossing(tokens[1..], s);
      } else {
        SlashNeedsCrossing(tokens[1..], s[1..]);
      }
    }
  }

  /** A string the tokens accept that has a "/" wherever one is possible. */
  function Sample(tokens: seq<Token>): string {
    if tokens == [] then ""
    else (match tokens[0]
          case Literal(c) => [c]
          case AnyChar => "a"
          case Star => ""
          case DoubleStar => "/") + Sample(tokens[1..])
  }

  lemma {:induction false} SampleIsAccepted(tokens: seq<Token>)
    ensures Accepts(tokens, Sample(tokens))
    ensures (exists t :: t in tokens && Crosses(t)) ==> '/' in Sample(tokens)
  {
    if tokens != [] {
      SampleIsAccepted(tokens[1..]);
      assert tokens == [tokens[0]] + tokens[1..];
      var rest := Sample(tokens[1..]);
      match tokens[0]
      case Star =>
        assert Sample(tokens) == rest;
      case DoubleStar =>
        assert Sample(tokens)[1..] == rest && Accepts(tokens, rest);
      case _ =>
        assert Sample(tokens)[1..] == rest;
    }
  }

  /** The syntactic test is exact: a pattern is deep iff it matches some string
  that crosses a path separator. */
  lemma DeepIffCrossesSeparator(pat: string)
    ensures PatternIsDeep(pat) <==> exists s :: Matches(pat, s) && '/' in s
  {
    DeepnessOfTokens(pat);
    if PatternIsDeep(pat) {
      SampleIsAccepted(Parse(pat));
      assert Matches(pat, Sample(Parse(pat)));
    }
    if s :| Matches(pat, s) && '/' in s {
      SlashNeedsCrossing(Parse(pat), s);
    }
  }

  // ---- What a pattern means ------------------------------------------------

  /** What each token stands for. */
  lemma {:induction false} SingleTokens(c: char, s: string)
    ensures Accepts([Literal(c)], s) <==> s == [c]
    ensures Accepts([AnyChar], s) <==> |s| == 1 && s[0] != '/'
    ensures Accepts([Star], s) <==> '/' !in s
    ensures Accepts([DoubleStar], s)
  {
    assert [Literal(c)][1..] == [] && [AnyChar][1..] == [] && [Star][1..] == [] && [DoubleStar][1..] == [];
    if s != "" {
      SingleTokens(c, s[1..]);
      assert s == [s[0]] + s[1..];
    }
  }

  /** `s` splits at `k` into a part for `a` and a part for `b`. */
  predicate SplitsAt(a: seq<Token>, b: seq<Token>, s: string, k: nat) {
    k <= |s| && Accepts(a, s[..k]) && Accepts(b, s[k..])
  }

  lemma {:induction false} AcceptsJoined(a: seq<Token>, b: seq<Token>, s: string, k: nat)
    requires SplitsAt(a, b, s, k)
    ensures Accepts(a + b, s)
    decreases |a|, |s|
  {
    if a == [] {
      assert a + b == b && s[k..] == s;
    } else {
      assert (a + b)[0] == a[0] && (a + b)[1..] == a[1..] + b;
      if Accepts(a[1..], s[..k]) && (a[0].Star? || a[0].DoubleStar?) {
        AcceptsJoined(a[1..], b, s, k);
      } else {
        assert s[..k][1..] == s[1..][..k - 1] && s[1..][k - 1..] == s[k..];
        AcceptsJoined(if a[0].Star? || a[0].DoubleStar? then a else a[1..], b, s[1..], k - 1);
      }
    }
  }

  lemma {:induction false} AcceptedSplits(a: seq<Token>, b: seq<Token>, s: string) returns (k: nat)
    requires Accepts(a + b, s)
    ensures SplitsAt(a, b, s, k)
    decreases |a|, |s|
  {
    if a == [] {
      assert a + b == b && s[0..] == s;
      k := 0;
    } else {
      assert (a + b)[0] == a[0] && (a + b)[1..] == a[1..] + b;
      if (a[0].Star? || a[0].DoubleStar?) && Accepts(a[1..] + b, s) {
        k := AcceptedSplits(a[1..], b, s);
      } else {
        var n := AcceptedSplits(if a[0].Star? || a[0].DoubleStar? then a else a[1..], b, s[1..]);
        k := n + 1;
        assert s[..k][1..] == s[1..][..n] && s[k..] == s[1..][n..];
      }
    }
  }

  /** A sequence of tokens accepts what splits into parts that its parts accept. */
  lemma AcceptsConcat(a: seq<Token>, b: seq<Token>, s: string)
    ensures Accepts(a + b, s) <==> exists k :: SplitsAt(a, b, s, k)
  {
    if Accepts(a + b, s) {
      var k := AcceptedSplits(a, b, s);
    }
    if k :| SplitsAt(a, b, s, k) {
      AcceptsJoined(a, b, s, k);
    }
  }

  /** The text of a sequence of tokens. */
  function Render(tokens: seq<Token>): string {
    if tokens == [] then ""
    else (match tokens[0]
          case Literal(c) => [c]
          case AnyChar => "?"
          case Star => "*"
          case DoubleStar => "**") + Render(tokens[1..])
  }

  /** No literal is a wildcard, and stars are paired from the left. */
  predicate Canonical(tokens: seq<Token>) {
    tokens == []
    || (&& tokens[0] != Literal('*') && tokens[0] != Literal('?')
        && (tokens[0].Star? && |tokens| > 1 ==> !tokens[1].Star? && !tokens[1].DoubleStar?)
        && Canonical(tokens[1..]))
  }

  /** One more token in front, unless it would take a star that follows a star. */
  lemma OneMoreToken(t: Token, tokens: seq<Token>)
    requires Canonical(tokens) && t != Literal('*') && t != Literal('?')
    requires t.Star? && tokens != [] ==> !tokens[0].Star? && !tokens[0].DoubleStar?
    ensures Canonical([t] + tokens) && Render([t] + tokens) == Render([t]) + Render(tokens)
  {
    assert ([t] + tokens)[1..] == tokens && [t][1..] == [];
  }

  lemma {:induction false} ParsedIsRendered(pat: string)
    ensures Render(Parse(pat)) == pat && Canonical(Parse(pat))
    decreases |pat|
  {
    if pat == "" {
    } else if |pat| >= 2 && pat[0] == '*' && pat[1] == '*' {
      ParsedIsRendered(pat[2..]);
      OneMoreToken(DoubleStar, Parse(pat[2..]));
      assert pat == "**" + pat[2..] && Render([DoubleStar]) == "**";
    } else {
      ParsedIsRendered(pat[1..]);
      assert pat == [pat[0]] + pat[1..];
      StarIsFirst(pat[1..]);
      OneMoreToken(Parse(pat)[0], Parse(pat[1..]));
    }
  }

  lemma StarIsFirst(pat: string)
    ensures Parse(pat) != [] && (Parse(pat)[0].Star? || Parse(pat)[0].DoubleStar?) ==> pat[0] == '*'
  {
  }

  lemma {:induction false} RenderedIsParsed(tokens: seq<Token>)
    requires Canonical(tokens)
    ensures Parse(Render(tokens)) == tokens
  {
    if tokens != [] {
      var pat, rest := Render(tokens), Render(tokens[1..]);
      RenderedIsParsed(tokens[1..]);
      assert tokens == [tokens[0]] + tokens[1..];
      if tokens[0].DoubleStar? {
        assert pat[2..] == rest;
      } else {
        assert pat[1..] == rest;
      }
    }
  }

  /** Parsing inverts rendering: the tokens of a pattern are the only ones with its
  text in which stars are paired from the left. */
  lemma ParseIff(pat: string, tokens: seq<Token>)
    ensures Parse(pat) == tokens <==> Render(tokens) == pat && Canonical(tokens)
  {
    ParsedIsRendered(pat);
    if Render(tokens) == pat && Canonical(tokens) {
      RenderedIsParsed(tokens);
    }
  }
}
