/** Escaping of untrusted strings for the markup of the yad dialog.  The three
entities are those of section 4.6 of XML 1.0. */
module Escape {
  import opened Wrappers

  /** Whole-string replacement of one character. */
  function ReplaceAll(s: string, c: char, with': string): string {
    if s == "" then ""
    else (if s[0] == c then with' else [s[0]]) + ReplaceAll(s[1..], c, with')
  }

  /** The three passes, the ampersand first. */
  function PangoEscape(s: string): string {
    ReplaceAll(ReplaceAll(ReplaceAll(s, '&', "&amp;"), '<', "&lt;"), '>', "&gt;")
  }

  function Entity(c: char): string {
    if c == '&' then "&amp;"
    else if c == '<' then "&lt;"
    else if c == '>' then "&gt;"
    else [c]
  }

  /** One pass, character by character. */
  function OnePass(s: string): string {
    if s == "" then "" else Entity(s[0]) + OnePass(s[1..])
  }

  /** Undo the escaping; `None` if the text is not the escape of anything. */
  function Decode(t: string): Option<string>
    decreases |t|
  {
    if t == "" then Some("")
    else
      var (c, n) :=
        if "&amp;" <= t then ('&', 5)
        else if "&lt;" <= t then ('<', 4)
        else if "&gt;" <= t then ('>', 4)
        else (t[0], 1);
      if n == 1 && c in "&<>" then None
      else
        match Decode(t[n..])
        case None => None
        case Some(rest) => Some([c] + rest)
  }

  lemma {:induction false} ReplaceDistributes(a: string, b: string, c: char, with': string)
    ensures ReplaceAll(a + b, c, with') == ReplaceAll(a, c, with') + ReplaceAll(b, c, with')
  {
    if a == "" {
      assert a + b == b;
    } else {
      var first := if a[0] == c then with' else [a[0]];
      ReplaceDistributes(a[1..], b, c, with');
      assert (a + b)[1..] == a[1..] + b;
      Associates(first, ReplaceAll(a[1..], c, with'), ReplaceAll(b, c, with'));
    }
  }

  lemma Associates(a: string, b: string, c: string)
    ensures (a + b) + c == a + (b + c)
  {
  }

  lemma {:induction false} ReplaceAbsent(s: string, c: char, with': string)
    requires c !in s
    ensures ReplaceAll(s, c, with') == s
  {
    if s != "" {
      ReplaceAbsent(s[1..], c, with');
    }
  }

  lemma ReplaceOne(c: char, x: char, with': string)
    ensures ReplaceAll([c], x, with') == if c == x then with' else [c]
  {
    assert [c][1..] == "";
  }

  /** The passes do not escape what an earlier pass introduced. */
  lemma PassesOnOneChar(c: char)
    ensures PangoEscape([c]) == Entity(c)
  {
    ReplaceOne(c, '&', "&amp;");
    if c != '&' {
      ReplaceOne(c, '<', "&lt;");
    }
    if c !in "&<" {
      ReplaceOne(c, '>', "&gt;");
    }
    if c == '&' {
      ReplaceAbsent("&amp;", '<', "&lt;");
      ReplaceAbsent("&amp;", '>', "&gt;");
    } else if c == '<' {
      ReplaceAbsent("&lt;", '>', "&gt;");
    }
  }

  /** The three whole-string passes are one per-character map. */
  lemma {:induction false} PassesAreOnePass(s: string)
    ensures PangoEscape(s) == OnePass(s)
  {
    if s != "" {
      var tail := s[1..];
      assert s == [s[0]] + tail;
      EscapeDistributes([s[0]], tail);
      PassesOnOneChar(s[0]);
      PassesAreOnePass(tail);
    }
  }

  /** What becomes of one character; with `EscapeDistributes`, of every string. */
  lemma EscapeOfOne(c: char)
    ensures PangoEscape("&") == "&amp;" && PangoEscape("<") == "&lt;" && PangoEscape(">") == "&gt;"
    ensures c != '&' && c != '<' && c != '>' ==> PangoEscape([c]) == [c]
    ensures PangoEscape("") == ""
  {
    PassesOnOneChar('&');
    PassesOnOneChar('<');
    PassesOnOneChar('>');
    PassesOnOneChar(c);
  }

  lemma EscapeDistributes(a: string, b: string)
    ensures PangoEscape(a + b) == PangoEscape(a) + PangoEscape(b)
  {
    var a1, b1 := ReplaceAll(a, '&', "&amp;"), ReplaceAll(b, '&', "&amp;");
    var a2, b2 := ReplaceAll(a1, '<', "&lt;"), ReplaceAll(b1, '<', "&lt;");
    ReplaceDistributes(a, b, '&', "&amp;");
    ReplaceDistributes(a1, b1, '<', "&lt;");
    ReplaceDistributes(a2, b2, '>', "&gt;");
  }

  lemma {:induction false} DecodeInvertsOnePass(s: string)
    ensures Decode(OnePass(s)) == Some(s)
  {
    if s != "" {
      var e, rest := Entity(s[0]), OnePass(s[1..]);
      DecodeInvertsOnePass(s[1..]);
      assert OnePass(s) == e + rest;
      assert (e + rest)[|e|..] == rest;
      assert e <= e + rest;
      if |e| == 1 {
        assert (e + rest)[0] == s[0] && s[0] != '&';
        assert "&amp;"[0] == '&' && "&lt;"[0] == '&' && "&gt;"[0] == '&';
      } else {
        EntitiesDiffer(s[0], rest);
        assert |e| == if s[0] == '&' then 5 else 4;
        assert Decode((e + rest)[|e|..]) == Some(s[1..]);
      }
      assert s == [s[0]] + s[1..];
    }
  }

  /** No entity is the start of another. */
  lemma EntitiesDiffer(c: char, rest: string)
    requires c in "&<>"
    ensures "&amp;" <= Entity(c) + rest <==> c == '&'
    ensures "&lt;" <= Entity(c) + rest <==> c == '<'
    ensures "&gt;" <= Entity(c) + rest <==> c == '>'
  {
    var t := Entity(c) + rest;
    assert t[1] == Entity(c)[1];
    assert "&amp;"[1] == 'a' && "&lt;"[1] == 'l' && "&gt;"[1] == 'g';
  }

  /** What decodes is an escape. */
  lemma {:induction false} DecodedIsEscaped(t: string)
    requires Decode(t).Some?
    ensures OnePass(Decode(t).value) == t
    decreases |t|
  {
    if t != "" {
      var n := if "&amp;" <= t then 5 else if "&lt;" <= t || "&gt;" <= t then 4 else 1;
      DecodedIsEscaped(t[n..]);
      var s := Decode(t).value;
      assert s[1..] == Decode(t[n..]).value;
      assert t == t[..n] + t[n..];
      assert t[..n] == Entity(s[0]);
    }
  }

  /** Main result: a text decodes to `s` exactly if it is the escape of `s`. */
  lemma EscapeIsInvertible(s: string, t: string)
    ensures Decode(t) == Some(s) <==> t == PangoEscape(s)
  {
    PassesAreOnePass(s);
    DecodeInvertsOnePass(s);
    if Decode(t) == Some(s) {
      DecodedIsEscaped(t);
    }
  }

  lemma EscapeIsInjective(s: string, t: string)
    ensures PangoEscape(s) == PangoEscape(t) ==> s == t
  {
    EscapeIsInvertible(s, PangoEscape(s));
    EscapeIsInvertible(t, PangoEscape(s));
  }

  /** The character is no markup: an `&` starts one of the three entities. */
  predicate CleanAt(t: string, i: nat)
    requires i < |t|
  {
    && t[i] != '<' && t[i] != '>'
    && (t[i] == '&' ==> "&amp;" <= t[i..] || "&lt;" <= t[i..] || "&gt;" <= t[i..])
  }

  ghost predicate NoMarkup(t: string) {
    forall i :: 0 <= i < |t| ==> CleanAt(t, i)
  }

  lemma CleanBehind(e: string, rest: string, i: nat)
    requires i < |rest| && CleanAt(rest, i)
    ensures CleanAt(e + rest, |e| + i)
  {
    assert (e + rest)[|e| + i..] == rest[i..];
  }

  lemma EntityIsClean(c: char, rest: string, i: nat)
    requires i < |Entity(c)|
    ensures CleanAt(Entity(c) + rest, i)
  {
    var e := Entity(c);
    var t := e + rest;
    assert t[i] == e[i] && t[0..] == t && e <= t;
    assert i > 0 ==> e[i] !in "&<>";
  }

  lemma {:induction false} OnePassHasNoMarkup(s: string)
    ensures NoMarkup(OnePass(s))
  {
    if s != "" {
      var e, rest := Entity(s[0]), OnePass(s[1..]);
      OnePassHasNoMarkup(s[1..]);
      forall i | 0 <= i < |e + rest| ensures CleanAt(e + rest, i) {
        if i < |e| {
          EntityIsClean(s[0], rest, i);
        } else {
          CleanBehind(e, rest, i - |e|);
        }
      }
    }
  }

  lemma EscapeHasNoMarkup(s: string)
    ensures NoMarkup(PangoEscape(s))
  {
    PassesAreOnePass(s);
    OnePassHasNoMarkup(s);
  }
}
