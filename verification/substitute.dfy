/**
 * `DrawioPlugin.substitute_image`: the markup that replaces one diagram image.
 */
module Substitute {
  import opened Wrappers
  import opened Text
  import opened Json
  import opened JsonRoundTrip
  import HtmlEscape
  import opened Dom

  /** The rendering options handed to the diagram viewer. */
  datatype Config = Config(
    highlight: string,
    nav: bool,
    resize: bool,
    toolbar: string,
    edit: string,
    url: string)

  const Highlight: string := "#0000ff"
  const Toolbar: string := "zoom layers tags lightbox tab"
  const EditTarget: string := "_blank"
  const Style: string := "max-width:100%;border:1px solid transparent;"

  /** Everything of the fragment up to the opening quote of `data-mxgraph`. */
  const DivOpen: string :=
    "<div class=\"mxgraph\" style=\"max-width:100%;border:1px solid transparent;\" data-mxgraph=\""

  /** Everything of the fragment after the closing quote of `data-mxgraph`. */
  const DivClose: string := "\"></div>"

  /** The options for one diagram: fixed values, and the image source as the url. */
  function ConfigFor(src: string): Config {
    Config(Highlight, true, true, Toolbar, EditTarget, src)
  }

  /** The dict literal, keys in the order they are written. */
  function ConfigMembers(c: Config): seq<Member> {
    [ Member("highlight", JString(c.highlight)),
      Member("nav", JBool(c.nav)),
      Member("resize", JBool(c.resize)),
      Member("toolbar", JString(c.toolbar)),
      Member("edit", JString(c.edit)),
      Member("url", JString(c.url)) ]
  }

  /** Reads a decoded object back as options: exactly the six keys, in order,
      each with a value of the right kind. */
  function ConfigFromMembers(ms: seq<Member>): Option<Config> {
    if |ms| == 6
       && ms[0].key == "highlight" && ms[0].value.JString?
       && ms[1].key == "nav" && ms[1].value.JBool?
       && ms[2].key == "resize" && ms[2].value.JBool?
       && ms[3].key == "toolbar" && ms[3].value.JString?
       && ms[4].key == "edit" && ms[4].value.JString?
       && ms[5].key == "url" && ms[5].value.JString?
    then Some(Config(ms[0].value.s, ms[1].value.b, ms[2].value.b,
                     ms[3].value.s, ms[4].value.s, ms[5].value.s))
    else None
  }

  /** The value of `data-mxgraph` as it stands in the fragment text, when the
      fragment has the template's shape. */
  function DataValue(fragment: string): Option<string> {
    if |DivOpen| + |DivClose| <= |fragment| && IsPrefix(DivOpen, fragment) && IsSuffix(DivClose, fragment)
    then Some(fragment[|DivOpen|..|fragment| - |DivClose|])
    else None
  }

  /** What a reader of the page recovers from a fragment: unescape the attribute,
      decode the JSON, read the options. */
  function DecodeFragment(fragment: string): Option<Config> {
    var v :- DataValue(fragment);
    var ms :- Loads(HtmlEscape.Unescape(v));
    ConfigFromMembers(ms)
  }

  lemma ConfigMembersRoundTrip(c: Config)
    ensures ConfigFromMembers(ConfigMembers(c)) == Some(c)
  {
  }

  lemma DataValueOf(v: string)
    ensures DataValue(DivOpen + v + DivClose) == Some(v)
  {
    var f := DivOpen + v + DivClose;
    assert f[..|DivOpen|] == DivOpen;
    assert f[|f| - |DivClose|..] == DivClose;
    assert f[|DivOpen|..|f| - |DivClose|] == v;
  }

  /** `substitute_image(path, src, alt)`. The fragment has the template's shape;
      the attribute value is safe between double quotes and pure ASCII; and
      unescaping and decoding it yields the options for `src`, url included. */
  function SubstituteImage(path: string, src: string, alt: string): (r: string)
    ensures DataValue(r).Some?
    ensures HtmlEscape.AttrSafe(DataValue(r).value)
    ensures AllPrintable(DataValue(r).value)
    ensures DecodeFragment(r) == Some(ConfigFor(src))
  {
    var c := ConfigFor(src);
    var json := Dumps(ConfigMembers(c));
    DumpsPrintable(ConfigMembers(c));
    LoadsDumps(ConfigMembers(c));
    FragmentOf(json, c);
    DivOpen + HtmlEscape.Escape(json) + DivClose
  }

  /** Escaping printable JSON text that decodes to `c` and wrapping it in the
      template gives a fragment that decodes to `c`. */
  lemma FragmentOf(json: string, c: Config)
    requires AllPrintable(json) && Loads(json) == Some(ConfigMembers(c))
    ensures var f := DivOpen + HtmlEscape.Escape(json) + DivClose;
      && DataValue(f) == Some(HtmlEscape.Escape(json))
      && HtmlEscape.AttrSafe(HtmlEscape.Escape(json))
      && AllPrintable(HtmlEscape.Escape(json))
      && DecodeFragment(f) == Some(c)
  {
    var v := HtmlEscape.Escape(json);
    DataValueOf(v);
    EscapeKeepsPrintable(json);
    HtmlEscape.UnescapeEscape(json);
    ConfigMembersRoundTrip(c);
  }

  /** Printable ASCII stays printable ASCII under HTML escaping. */
  lemma {:induction false} EscapeKeepsPrintable(s: string)
    requires AllPrintable(s)
    ensures AllPrintable(HtmlEscape.Escape(s))
  {
    if s != [] {
      assert AllPrintable(s[1..]) by {
        forall i | 0 <= i < |s[1..]| ensures Printable(s[1..][i]) { assert s[1..][i] == s[i + 1]; }
      }
      EscapeKeepsPrintable(s[1..]);
      assert AllPrintable(HtmlEscape.EscapeChar(s[0]));
      AllPrintableConcat(HtmlEscape.EscapeChar(s[0]), HtmlEscape.Escape(s[1..]));
    }
  }

  /** What the viewer reads from the attribute: the six keys in the order they
      are written, the fixed values, and the image source verbatim under `url`. */
  lemma DecodedConfig(path: string, src: string, alt: string)
    ensures var v := DataValue(SubstituteImage(path, src, alt)).value;
      Loads(HtmlEscape.Unescape(v)) == Some([
        Member("highlight", JString("#0000ff")),
        Member("nav", JBool(true)),
        Member("resize", JBool(true)),
        Member("toolbar", JString("zoom layers tags lightbox tab")),
        Member("edit", JString("_blank")),
        Member("url", JString(src))])
    ensures var v := DataValue(SubstituteImage(path, src, alt)).value;
      Lookup(Loads(HtmlEscape.Unescape(v)).value, "url") == Some(JString(src))
  {
    var ms := ConfigMembers(ConfigFor(src));
    var json := Dumps(ms);
    DataValueOf(HtmlEscape.Escape(json));
    HtmlEscape.UnescapeEscape(json);
    LoadsDumps(ms);
    assert ms[|ms| - 1] == Member("url", JString(src));
  }

  /** The fragment depends on the image source alone: the page path and the alt
      text are ignored. */
  lemma SubstituteIgnoresPathAndAlt(src: string, p1: string, a1: string, p2: string, a2: string)
    ensures SubstituteImage(p1, src, a1) == SubstituteImage(p2, src, a2)
  {
  }

  /** Different sources give different fragments: the url is never lost. */
  lemma SubstituteInjective(p1: string, s1: string, a1: string, p2: string, s2: string, a2: string)
    requires s1 != s2
    ensures SubstituteImage(p1, s1, a1) != SubstituteImage(p2, s2, a2)
  {
    assert DecodeFragment(SubstituteImage(p1, s1, a1)) != DecodeFragment(SubstituteImage(p2, s2, a2));
  }

  /** The div the HTML parser builds from the fragment: the three attributes, the
      entity-decoded `data-mxgraph`, and no children. Only the template's shape is
      understood; any other text is refused. */
  function ParseFragment(fragment: string): Option<Node> {
    var v :- DataValue(fragment);
    Some(Leaf("div", DivAttrs(HtmlEscape.Unescape(v))))
  }

  /** `json.dumps` of the options for `src`. */
  function ConfigJson(src: string): string {
    Dumps(ConfigMembers(ConfigFor(src)))
  }

  /** The attributes of a viewer div whose `data-mxgraph` holds `json`. */
  function DivAttrs(json: string): (a: Attrs)
    ensures "class" in a && a["class"] == "mxgraph"
    ensures "data-mxgraph" in a && a["data-mxgraph"] == json
  {
    map["class" := "mxgraph", "style" := Style, "data-mxgraph" := json]
  }

  /** The node that takes a diagram image's place: a childless `div` of class
      `mxgraph` whose `data-mxgraph` attribute holds the options for `src` as JSON
      (see `MxGraphDivConfig` for what that text decodes to). */
  function MxGraphDiv(src: string): (n: Node)
    ensures n.Elem? && n.name == "div" && n.children == []
    ensures "class" in n.attrs && n.attrs["class"] == "mxgraph"
    ensures "data-mxgraph" in n.attrs && n.attrs["data-mxgraph"] == ConfigJson(src)
  {
    Leaf("div", DivAttrs(ConfigJson(src)))
  }

  /** The div's `data-mxgraph` attribute decodes to the options for `src`. */
  lemma MxGraphDivConfig(src: string)
    ensures Loads(MxGraphDiv(src).attrs["data-mxgraph"]) == Some(ConfigMembers(ConfigFor(src)))
    ensures ConfigFromMembers(Loads(MxGraphDiv(src).attrs["data-mxgraph"]).value) == Some(ConfigFor(src))
  {
    LoadsDumps(ConfigMembers(ConfigFor(src)));
    ConfigMembersRoundTrip(ConfigFor(src));
  }

  /** Parsing the generated fragment gives the div whose `data-mxgraph` attribute
      holds the JSON text itself: the escaping is undone by the parser. */
  lemma ParseSubstitute(path: string, src: string, alt: string)
    ensures ParseFragment(SubstituteImage(path, src, alt)) == Some(MxGraphDiv(src))
  {
    var json := Dumps(ConfigMembers(ConfigFor(src)));
    DataValueOf(HtmlEscape.Escape(json));
    HtmlEscape.UnescapeEscape(json);
  }
}
