/**
 * `DrawioPlugin.render_drawio_diagrams`: replaces every image whose source names a
 * draw.io file with the viewer's div, and loads the viewer once per page.
 */
module Rewriter {
  import opened Wrappers
  import opened Text
  import opened Dom
  import opened Events
  import opened Substitute

  /** The file extension the fast path looks for and the pattern anchors on. */
  const Extension: string := ".drawio"

  /** The default of the `viewer_js` option. */
  const DefaultViewerJs: string := "https://viewer.diagrams.net/js/viewer-static.min.js"

  // ----- matching -----

  /** Whether `c` matches the pattern character `p` under `re.IGNORECASE`. The
      pattern is lower-case ASCII; besides the upper-case letter, Python's matcher
      also lets U+0130 and U+0131 match `i` (the first lower-cases to `i`, the
      second is listed as an equivalent of it). */
  predicate FoldMatch(c: char, p: char) {
    || c == p
    || ('a' <= p <= 'z' && c as int == p as int - 32)
    || (p == 'i' && (c == '\U{130}' || c == '\U{131}'))
  }

  /** The last seven characters of `s` match `\.drawio`, ignoring case. */
  predicate EndsWithExtension(s: string) {
    && |s| >= |Extension|
    && forall k :: 0 <= k < |Extension| ==> FoldMatch(s[|s| - |Extension| + k], Extension[k])
  }

  /** `re.compile(r".*\.drawio$", re.IGNORECASE).search(src)` succeeds: `$` also
      matches before one newline that ends the string. */
  predicate IsDrawioSrc(src: string) {
    || EndsWithExtension(src)
    || (|src| > 0 && src[|src| - 1] == '\n' && EndsWithExtension(src[..|src| - 1]))
  }

  /** The attributes of an image the rewriter replaces: it has a matching `src`. */
  predicate IsDiagramAttrs(a: Attrs) {
    "src" in a && IsDrawioSrc(a["src"])
  }

  predicate IsDiagram(n: Node) {
    n.Img? && IsDiagramAttrs(n.attrs)
  }

  /** `soup.findAll("img", src=...)` under one node: the matched images' attributes
      in document order. */
  function DiagramsOf(n: Node): (r: seq<Attrs>)
    ensures forall i :: 0 <= i < |r| ==> IsDiagramAttrs(r[i])
  {
    match n
    case Text(_) => []
    case Img(a) => if IsDiagramAttrs(a) then [a] else []
    case Elem(_, _, cs) => Diagrams(cs)
  }

  function Diagrams(ns: seq<Node>): (r: seq<Attrs>)
    ensures forall i :: 0 <= i < |r| ==> IsDiagramAttrs(r[i])
  {
    if ns == [] then [] else DiagramsOf(ns[0]) + Diagrams(ns[1..])
  }

  // ----- replacement -----

  /** One node with every diagram image under it replaced by the viewer's div.
      The div is the one the parser builds from `SubstituteImage` (see
      `Substitute.ParseSubstitute`), whatever the page path and alt text. */
  function ReplaceNode(n: Node): Node {
    match n
    case Text(_) => n
    case Img(a) => if IsDiagramAttrs(a) then MxGraphDiv(a["src"]) else n
    case Elem(name, a, cs) => Elem(name, a, Replace(cs))
  }

  /** Each node replaced at its own position: the sequence keeps its length. */
  function Replace(ns: seq<Node>): (r: seq<Node>)
    ensures |r| == |ns|
  {
    if ns == [] then [] else [ReplaceNode(ns[0])] + Replace(ns[1..])
  }

  // ----- the script tag -----

  /** `soup.new_tag("script", src=viewer_js)`. */
  function Script(viewerJs: string): Node {
    Leaf("script", map["src" := viewerJs])
  }

  /** `soup.body` below one node: the first `body` element in document order. */
  function FirstBodyOf(n: Node): (r: Option<Node>)
    ensures r.Some? ==> r.value.Elem? && r.value.name == "body"
  {
    match n
    case Elem(name, _, cs) => if name == "body" then Some(n) else FirstBody(cs)
    case _ => None
  }

  function FirstBody(ns: seq<Node>): (r: Option<Node>)
    ensures r.Some? ==> r.value.Elem? && r.value.name == "body"
  {
    if ns == [] then None
    else match FirstBodyOf(ns[0])
      case Some(b) => Some(b)
      case None => FirstBody(ns[1..])
  }

  /** `soup.body.append(s)` below one node; `None` when there is no body. */
  function AppendToBodyOf(n: Node, s: Node): (r: Option<Node>)
    requires FirstBodyOf(s).None?
    ensures r.Some? <==> FirstBodyOf(n).Some?
  {
    match n
    case Elem(name, a, cs) =>
      if name == "body" then Some(Elem(name, a, cs + [s]))
      else (match AppendToBody(cs, s)
        case Some(cs') => Some(Elem(name, a, cs'))
        case None => None)
    case _ => None
  }

  /** `soup.body.append(s)`: `s` becomes the last child of the first body, which
      is otherwise unchanged; `None` (the plugin raises) when there is no body. */
  function AppendToBody(ns: seq<Node>, s: Node): (r: Option<seq<Node>>)
    requires FirstBodyOf(s).None?
    ensures r.Some? <==> FirstBody(ns).Some?
  {
    if ns == [] then None
    else match AppendToBodyOf(ns[0], s)
      case Some(m) =>
        assert ([m] + ns[1..])[0] == m;
        Some([m] + ns[1..])
      case None =>
        match AppendToBody(ns[1..], s)
        case Some(rest) =>
          assert ([ns[0]] + rest)[0] == ns[0] && ([ns[0]] + rest)[1..] == rest;
          Some([ns[0]] + rest)
        case None => None
  }

  /** After the append, the first body is the old one with `s` as its last child. */
  lemma {:induction false} AppendFirstBodyOf(n: Node, s: Node)
    requires FirstBodyOf(s).None? && AppendToBodyOf(n, s).Some?
    ensures FirstBodyOf(AppendToBodyOf(n, s).value)
         == Some(Elem("body", FirstBodyOf(n).value.attrs, FirstBodyOf(n).value.children + [s]))
    decreases n
  {
    var Elem(name, a, cs) := n;
    if name != "body" {
      AppendFirstBody(cs, s);
    }
  }

  lemma {:induction false} AppendFirstBody(ns: seq<Node>, s: Node)
    requires FirstBodyOf(s).None? && AppendToBody(ns, s).Some?
    ensures FirstBody(AppendToBody(ns, s).value)
         == Some(Elem("body", FirstBody(ns).value.attrs, FirstBody(ns).value.children + [s]))
    decreases ns
  {
    var r := AppendToBody(ns, s).value;
    if AppendToBodyOf(ns[0], s).Some? {
      AppendFirstBodyOf(ns[0], s);
      assert r[0] == AppendToBodyOf(ns[0], s).value;
    } else {
      assert r[0] == ns[0] && r[1..] == AppendToBody(ns[1..], s).value;
      AppendFirstBody(ns[1..], s);
    }
  }

  // ----- the whole rewrite -----

  /** Why the plugin raises: `soup.body` is `None`, or `diagram["alt"]` has no key. */
  datatype Error = MissingBody | MissingAlt(src: string)

  /** The returned page: the input text itself, or the rewritten tree (which the
      HTML library then serialises). */
  datatype Page = Unchanged(text: string) | Rewritten(doc: seq<Node>)

  /** The source of the first matched image without an `alt`, if any. */
  function FirstMissingAlt(ds: seq<Attrs>): (r: Option<string>)
    requires forall i :: 0 <= i < |ds| ==> "src" in ds[i]
    ensures r.None? <==> forall i :: 0 <= i < |ds| ==> "alt" in ds[i]
    ensures r.Some? ==> exists i :: 0 <= i < |ds| && "alt" !in ds[i] && ds[i]["src"] == r.value
  {
    if ds == [] then None
    else if "alt" !in ds[0] then Some(ds[0]["src"])
    else
      var r := FirstMissingAlt(ds[1..]);
      assert forall i :: 1 <= i < |ds| ==> ds[i] == ds[1..][i - 1];
      r
  }

  /** The rewrite after the fast path: the parsed page `doc` of `text`, the page
      path `path` (unused, as in the plugin) and the `viewer_js` option. */
  function Rewrite(text: string, doc: seq<Node>, path: string, viewerJs: string): Result<Page, Error> {
    var diagrams := Diagrams(doc);
    if |diagrams| == 0 then Success(Unchanged(text))
    else match AppendToBody(doc, Script(viewerJs))
      case None => Failure(MissingBody)
      case Some(withScript) =>
        match FirstMissingAlt(diagrams)
        case Some(src) => Failure(MissingAlt(src))
        case None => Success(Rewritten(Replace(withScript)))
  }

  /** `render_drawio_diagrams(output_content, page)`. */
  function Render(text: string, doc: seq<Node>, path: string, viewerJs: string): (r: Result<Page, Error>)
    ensures !Contains(Lower(text), Extension) ==> r == Success(Unchanged(text))
    ensures |Diagrams(doc)| == 0 ==> r == Success(Unchanged(text))
    ensures r.Success? && r.value.Rewritten? ==> |Diagrams(doc)| > 0 && FirstBody(doc).Some?
    ensures Contains(Lower(text), Extension) && |Diagrams(doc)| > 0 && r.Success? ==> r.value.Rewritten?
    ensures r == Failure(MissingBody) <==>
      Contains(Lower(text), Extension) && |Diagrams(doc)| > 0 && FirstBody(doc).None?
    ensures r.Failure? && r.error.MissingAlt? ==>
      exists i :: 0 <= i < |Diagrams(doc)| && "alt" !in Diagrams(doc)[i] && Diagrams(doc)[i]["src"] == r.error.src
    ensures Contains(Lower(text), Extension) && |Diagrams(doc)| > 0 && FirstBody(doc).Some? ==>
      (r.Success? <==> forall i :: 0 <= i < |Diagrams(doc)| ==> "alt" in Diagrams(doc)[i])
  {
    if !Contains(Lower(text), Extension) then Success(Unchanged(text))
    else Rewrite(text, doc, path, viewerJs)
  }
}
