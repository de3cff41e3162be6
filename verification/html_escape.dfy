/**
 * HTML attribute escaping as performed by Python's `html.escape(s, quote=True)`,
 * and the matching unescaping of the five entities it emits.
 */
module HtmlEscape {
  import opened Text

  /** The characters that may not appear raw inside a double- or single-quoted attribute. */
  predicate Unsafe(c: char) {
    c == '"' || c == '\'' || c == '<' || c == '>'
  }

  /** `s` starts with one of the five entities that `html.escape` emits. */
  predicate StartsEntity(s: string) {
    IsPrefix("&amp;", s) || IsPrefix("&lt;", s) || IsPrefix("&gt;", s)
    || IsPrefix("&quot;", s) || IsPrefix("&#x27;", s)
  }

  /** Safe to place between the quotes of an attribute: no raw quote or angle
      bracket, and every ampersand begins an entity. */
  predicate AttrSafe(s: string) {
    forall i :: 0 <= i < |s| ==> !Unsafe(s[i]) && (s[i] == '&' ==> StartsEntity(s[i..]))
  }

  function EscapeChar(c: char): string {
    if c == '&' then "&amp;"
    else if c == '<' then "&lt;"
    else if c == '>' then "&gt;"
    else if c == '"' then "&quot;"
    else if c == '\'' then "&#x27;"
    else [c]
  }

  /** `html.escape(s, quote=True)`, one character at a time. */
  function Escape(s: string): (r: string)
    ensures AttrSafe(r)
    ensures |r| >= |s|
  {
    if s == [] then []
    else
      EscapeCharSafe(s[0]);
      AttrSafeConcat(EscapeChar(s[0]), Escape(s[1..]));
      EscapeChar(s[0]) + Escape(s[1..])
  }

  lemma PrefixExtend(p: string, s: string, t: string)
    requires IsPrefix(p, s)
    ensures IsPrefix(p, s + t)
  {
    assert (s + t)[..|p|] == s[..|p|];
  }

  /** An entity is safe: its only ampersand is the one that begins it. */
  lemma EntitySafe(e: string)
    requires |e| > 0 && e[0] == '&' && StartsEntity(e)
    requires forall i :: 1 <= i < |e| ==> e[i] != '&' && !Unsafe(e[i])
    ensures AttrSafe(e)
  {
    assert e[0..] == e;
  }

  lemma EscapeCharSafe(c: char)
    ensures AttrSafe(EscapeChar(c))
  {
    if c == '&' {
      EntitySafe("&amp;");
    } else if c == '<' {
      EntitySafe("&lt;");
    } else if c == '>' {
      EntitySafe("&gt;");
    } else if c == '"' {
      EntitySafe("&quot;");
    } else if c == '\'' {
      EntitySafe("&#x27;");
    }
  }

  /** Safety survives concatenation, since an entity lies wholly inside its own part. */
  lemma AttrSafeConcat(a: string, b: string)
    requires AttrSafe(a) && AttrSafe(b)
    ensures AttrSafe(a + b)
  {
    forall i | 0 <= i < |a + b|
      ensures !Unsafe((a + b)[i]) && ((a + b)[i] == '&' ==> StartsEntity((a + b)[i..]))
    {
      if i < |a| {
        assert (a + b)[i..] == a[i..] + b;
        if a[i] == '&' {
          var x := a[i..];
          if IsPrefix("&amp;", x) { PrefixExtend("&amp;", x, b); }
          else if IsPrefix("&lt;", x) { PrefixExtend("&lt;", x, b); }
          else if IsPrefix("&gt;", x) { PrefixExtend("&gt;", x, b); }
          else if IsPrefix("&quot;", x) { PrefixExtend("&quot;", x, b); }
          else { PrefixExtend("&#x27;", x, b); }
        }
      } else {
        assert (a + b)[i..] == b[i - |a|..];
      }
    }
  }

  /** `s.replace(c, rep)` for a one-character pattern. */
  function ReplaceAll(s: string, c: char, rep: string): (r: string)
    ensures c !in rep ==> c !in r
    ensures c !in s ==> r == s
  {
    if s == [] then []
    else (if s[0] == c then rep else [s[0]]) + ReplaceAll(s[1..], c, rep)
  }

  /** `html.escape` as the standard library writes it: five chained replacements,
      ampersand first so that the entities introduced later are not re-escaped. */
  function EscapeAsWritten(s: string): string {
    var s1 := ReplaceAll(s, '&', "&amp;");
    var s2 := ReplaceAll(s1, '<', "&lt;");
    var s3 := ReplaceAll(s2, '>', "&gt;");
    var s4 := ReplaceAll(s3, '"', "&quot;");
    ReplaceAll(s4, '\'', "&#x27;")
  }

  lemma {:induction false} ReplaceAllConcat(a: string, b: string, c: char, rep: string)
    ensures ReplaceAll(a + b, c, rep) == ReplaceAll(a, c, rep) + ReplaceAll(b, c, rep)
  {
    if a == [] {
      assert a + b == b;
    } else {
      assert (a + b)[1..] == a[1..] + b;
      ReplaceAllConcat(a[1..], b, c, rep);
    }
  }

  lemma EscapeAsWrittenConcat(a: string, b: string)
    ensures EscapeAsWritten(a + b) == EscapeAsWritten(a) + EscapeAsWritten(b)
  {
    var a1, b1 := ReplaceAll(a, '&', "&amp;"), ReplaceAll(b, '&', "&amp;");
    ReplaceAllConcat(a, b, '&', "&amp;");
    var a2, b2 := ReplaceAll(a1, '<', "&lt;"), ReplaceAll(b1, '<', "&lt;");
    ReplaceAllConcat(a1, b1, '<', "&lt;");
    var a3, b3 := ReplaceAll(a2, '>', "&gt;"), ReplaceAll(b2, '>', "&gt;");
    ReplaceAllConcat(a2, b2, '>', "&gt;");
    var a4, b4 := ReplaceAll(a3, '"', "&quot;"), ReplaceAll(b3, '"', "&quot;");
    ReplaceAllConcat(a3, b3, '"', "&quot;");
    ReplaceAllConcat(a4, b4, '\'', "&#x27;");
  }

  lemma ReplaceAllSingle(x: char, c: char, rep: string)
    ensures ReplaceAll([x], c, rep) == if x == c then rep else [x]
  {
    assert [x][1..] == [];
  }

  lemma EscapeAsWrittenChar(x: char)
    ensures EscapeAsWritten([x]) == EscapeChar(x)
  {
    ReplaceAllSingle(x, '&', "&amp;");
    var s1 := ReplaceAll([x], '&', "&amp;");
    if x == '&' {
      assert s1 == "&amp;";
      assert '<' !in s1 && '>' !in s1 && '"' !in s1 && '\'' !in s1;
    } else {
      assert s1 == [x];
      ReplaceAllSingle(x, '<', "&lt;");
      var s2 := ReplaceAll(s1, '<', "&lt;");
      if x == '<' {
        assert s2 == "&lt;";
        assert '>' !in s2 && '"' !in s2 && '\'' !in s2;
      } else {
        assert s2 == [x];
        ReplaceAllSingle(x, '>', "&gt;");
        var s3 := ReplaceAll(s2, '>', "&gt;");
        if x == '>' {
          assert s3 == "&gt;";
          assert '"' !in s3 && '\'' !in s3;
        } else {
          assert s3 == [x];
          ReplaceAllSingle(x, '"', "&quot;");
          var s4 := ReplaceAll(s3, '"', "&quot;");
          if x == '"' {
            assert s4 == "&quot;";
            assert '\'' !in s4;
          } else {
            assert s4 == [x];
            ReplaceAllSingle(x, '\'', "&#x27;");
          }
        }
      }
    }
  }

  /** The chained replacements of the standard library and the per-character
      escape agree on every string. */
  lemma {:induction false} EscapeAsWrittenIsEscape(s: string)
    ensures EscapeAsWritten(s) == Escape(s)
  {
    if s != [] {
      assert s == [s[0]] + s[1..];
      EscapeAsWrittenConcat([s[0]], s[1..]);
      EscapeAsWrittenChar(s[0]);
      EscapeAsWrittenIsEscape(s[1..]);
    }
  }

  /** The character at the head of `s` and how many characters spell it: one of
      the five entities, or else the first character as it is. */
  function DecodeHead(s: string): (r: (char, nat))
    requires |s| > 0
    ensures 0 < r.1 <= |s|
  {
    if IsPrefix("&amp;", s) then ('&', 5)
    else if IsPrefix("&lt;", s) then ('<', 4)
    else if IsPrefix("&gt;", s) then ('>', 4)
    else if IsPrefix("&quot;", s) then ('"', 6)
    else if IsPrefix("&#x27;", s) then ('\'', 6)
    else (s[0], 1)
  }

  /** Decodes the five entities that `Escape` emits, scanning left to right;
      any other ampersand is kept as it is. */
  function Unescape(s: string): string
    decreases |s|
  {
    if s == [] then []
    else
      var (c, n) := DecodeHead(s);
      [c] + Unescape(s[n..])
  }

  lemma DecodeEntity(c: char, t: string)
    requires c == '&' || c == '<' || c == '>' || c == '"' || c == '\''
    ensures DecodeHead(EscapeChar(c) + t) == (c, |EscapeChar(c)|)
  {
    var p := EscapeChar(c);
    var e := p + t;
    assert e[..|p|] == p;
    assert e[1] == p[1];
    assert e[2] == p[2];
  }

  lemma DecodePlain(c: char, t: string)
    requires !(c == '&' || c == '<' || c == '>' || c == '"' || c == '\'')
    ensures DecodeHead(EscapeChar(c) + t) == (c, 1)
  {
    var e := [c] + t;
    assert EscapeChar(c) == [c];
    assert e[0] == c;
  }

  lemma UnescapeStep(c: char, t: string)
    ensures Unescape(EscapeChar(c) + t) == [c] + Unescape(t)
  {
    var p := EscapeChar(c);
    var e := p + t;
    if c == '&' || c == '<' || c == '>' || c == '"' || c == '\'' {
      DecodeEntity(c, t);
    } else {
      DecodePlain(c, t);
    }
    assert e[|p|..] == t;
  }

  /** Unescaping undoes escaping, for every string. */
  lemma {:induction false} UnescapeEscape(s: string)
    ensures Unescape(Escape(s)) == s
  {
    if s != [] {
      UnescapeStep(s[0], Escape(s[1..]));
      UnescapeEscape(s[1..]);
    }
  }
}
