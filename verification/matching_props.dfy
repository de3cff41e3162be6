/**
 * The image-source pattern and the fast path that runs before it.
 */
module MatchingProps {
  import opened Wrappers
  import opened Text
  import opened Dom
  import opened Rewriter

  /** Upper, lower and trailing-newline forms of the extension all match. */
  lemma ExtensionMatchesAnyCase(stem: string)
    ensures IsDrawioSrc(stem + ".drawio")
    ensures IsDrawioSrc(stem + ".DRAWIO")
    ensures IsDrawioSrc(stem + ".DrawIO\n")
  {
    var a, b, c := stem + ".drawio", stem + ".DRAWIO", stem + ".DrawIO\n";
    assert forall k :: 0 <= k < 7 ==> a[|stem| + k] == ".drawio"[k];
    assert forall k :: 0 <= k < 7 ==> b[|stem| + k] == ".DRAWIO"[k];
    assert c[..|c| - 1] == stem + ".DrawIO";
    assert forall k :: 0 <= k < 7 ==> c[..|c| - 1][|stem| + k] == ".DrawIO"[k];
  }

  /** The pattern is anchored at the end: other extensions, text after the
      extension, and more than one trailing newline do not match. */
  lemma MatchIsAnchored()
    ensures !IsDrawioSrc("picture.png")
    ensures !IsDrawioSrc("a.drawio.png")
    ensures !IsDrawioSrc("a.drawio\n\n")
    ensures !IsDrawioSrc("a.drawio ")
  {
    assert Extension[0] == '.';
    assert !FoldMatch("picture.png"[4], '.');
    assert !FoldMatch("a.drawio.png"[5], '.');
    assert !FoldMatch("a.drawio\n\n"[3], '.');
    assert "a.drawio\n\n"[..9] == "a.drawio\n";
    assert !FoldMatch("a.drawio\n"[2], '.');
    assert !FoldMatch("a.drawio "[2], '.');
  }

  /** Neither dotted capital I (U+0130) nor dotless small i (U+0131) occurs. */
  predicate NoTurkishI(s: string) {
    forall i :: 0 <= i < |s| ==> s[i] != '\U{130}' && s[i] != '\U{131}'
  }

  lemma FoldMatchIsLower(c: char, k: nat)
    requires k < |Extension| && c != '\U{130}' && c != '\U{131}'
    ensures FoldMatch(c, Extension[k]) <==> LowerChar(c) == Extension[k]
  {
  }

  lemma EndsWithExtensionAscii(s: string)
    requires NoTurkishI(s)
    ensures EndsWithExtension(s) <==> IsSuffix(Extension, Lower(s))
  {
    var n := |Extension|;
    if |s| >= n {
      var t := Lower(s)[|s| - n..];
      assert |t| == n;
      forall k | 0 <= k < n
        ensures FoldMatch(s[|s| - n + k], Extension[k]) <==> t[k] == Extension[k]
      {
        var c := s[|s| - n + k];
        assert c != '\U{130}' && c != '\U{131}';
        assert t[k] == LowerChar(c);
        FoldMatchIsLower(c, k);
      }
      assert EndsWithExtension(s) <==> forall k :: 0 <= k < n ==> t[k] == Extension[k];
      assert (forall k :: 0 <= k < n ==> t[k] == Extension[k]) <==> t == Extension;
    }
  }

  lemma NoTurkishIPrefix(s: string, n: nat)
    requires NoTurkishI(s) && n <= |s|
    ensures NoTurkishI(s[..n])
  {
    forall i | 0 <= i < n ensures s[..n][i] != '\U{130}' && s[..n][i] != '\U{131}' {
      assert s[..n][i] == s[i];
    }
  }

  /** Ending in `p` and then `c` is ending in `c` with `p` just before it. */
  lemma SnocSuffix(p: string, c: char, l: string)
    requires |l| > 0
    ensures IsSuffix(p + [c], l) <==> l[|l| - 1] == c && IsSuffix(p, l[..|l| - 1])
  {
    var n := |l|;
    if |p| + 1 <= n {
      assert l[n - |p| - 1..] == l[..n - 1][n - 1 - |p|..] + [l[n - 1]];
    }
  }

  lemma LowerPrefix(s: string, n: nat)
    requires n <= |s|
    ensures Lower(s[..n]) == Lower(s)[..n]
  {
    forall i | 0 <= i < n ensures Lower(s[..n])[i] == Lower(s)[..n][i] {
      assert s[..n][i] == s[i];
    }
  }

  lemma NewlineSuffix(src: string)
    requires |src| > 0
    ensures IsSuffix(Extension + "\n", Lower(src)) <==>
      (src[|src| - 1] == '\n' && IsSuffix(Extension, Lower(src[..|src| - 1])))
  {
    SnocSuffix(Extension, '\n', Lower(src));
    LowerPrefix(src, |src| - 1);
  }

  /** For a source without U+0130 or U+0131, matching is a suffix test on the
      lower-cased source: it ends in `.drawio`, or in `.drawio` and a newline. */
  lemma DrawioSrcAscii(src: string)
    requires NoTurkishI(src)
    ensures IsDrawioSrc(src) <==>
      (IsSuffix(Extension, Lower(src)) || IsSuffix(Extension + "\n", Lower(src)))
  {
    EndsWithExtensionAscii(src);
    if |src| > 0 {
      NoTurkishIPrefix(src, |src| - 1);
      EndsWithExtensionAscii(src[..|src| - 1]);
      NewlineSuffix(src);
    }
  }

  /** A matching source without U+0130 or U+0131 contains the extension once
      lower-cased. */
  lemma DrawioSrcContainsExtension(src: string)
    requires NoTurkishI(src) && IsDrawioSrc(src)
    ensures Contains(Lower(src), Extension)
  {
    DrawioSrcAscii(src);
    var l := Lower(src);
    if IsSuffix(Extension, l) {
      SuffixContained(Extension, l);
    } else {
      var e := Extension + "\n";
      SuffixContained(e, l);
      assert IsPrefix(Extension, e[0..]);
      ContainsTransitive(l, e, Extension);
    }
  }

  /** The fast path is only an optimisation when every matched image's source is
      written literally in the page text (no character reference) and holds
      neither U+0130 nor U+0131: then skipping the parse never skips a diagram. */
  lemma GuardIsOptimisation(text: string, doc: seq<Node>, path: string, viewerJs: string)
    requires forall i :: 0 <= i < |Diagrams(doc)| ==>
      Contains(text, Diagrams(doc)[i]["src"]) && NoTurkishI(Diagrams(doc)[i]["src"])
    ensures Render(text, doc, path, viewerJs) == Rewrite(text, doc, path, viewerJs)
  {
    if !Contains(Lower(text), Extension) && |Diagrams(doc)| > 0 {
      var src := Diagrams(doc)[0]["src"];
      DrawioSrcContainsExtension(src);
      LowerContains(text, src);
      ContainsTransitive(Lower(text), Lower(src), Extension);
      assert false;
    }
  }

  /** A page text without a dot cannot contain the extension. */
  lemma NoDotNoExtension(text: string)
    requires '.' !in text
    ensures !Contains(Lower(text), Extension)
  {
    forall i | 0 <= i <= |text| - |Extension|
      ensures !IsPrefix(Extension, Lower(text)[i..])
    {
      assert text[i] in text;
      assert Lower(text)[i..][0] == LowerChar(text[i]) != '.';
      assert Extension[0] == '.';
    }
  }

  /** Without that condition the fast path does change the result: a page whose
      only diagram source spells the dot as a character reference is returned
      untouched, although the parsed image matches and the rewrite would replace it.
      The stem is made of ASCII letters, so `doc` is how the parser reads `text`. */
  lemma GuardSkipsEncodedSource(stem: string, viewerJs: string)
    requires forall i :: 0 <= i < |stem| ==> 'a' <= stem[i] <= 'z' || 'A' <= stem[i] <= 'Z'
    ensures var text := "<body><img src=\"" + stem + "&#46;drawio\" alt=\"\"></body>";
      var doc := [Elem("body", map[], [Img(map["src" := stem + ".drawio", "alt" := ""])])];
      && Render(text, doc, "", viewerJs) == Success(Unchanged(text))
      && Rewrite(text, doc, "", viewerJs).Success?
      && Rewrite(text, doc, "", viewerJs).value.Rewritten?
  {
    var text := "<body><img src=\"" + stem + "&#46;drawio\" alt=\"\"></body>";
    var attrs := map["src" := stem + ".drawio", "alt" := ""];
    var img := Img(attrs);
    var doc := [Elem("body", map[], [img])];
    assert '.' !in stem;
    assert '.' !in text by {
      assert text == "<body><img src=\"" + stem + ("&#46;drawio\" alt=\"\"></body>");
    }
    NoDotNoExtension(text);
    ExtensionMatchesAnyCase(stem);
    assert IsDiagramAttrs(attrs);
    assert DiagramsOf(img) == [attrs];
    assert [img][1..] == [];
    assert Diagrams([img]) == [attrs];
    assert doc[1..] == [];
    assert Diagrams(doc) == [attrs];
    assert FirstBody(doc).Some?;
    assert FirstMissingAlt([attrs]) == None;
  }
}
