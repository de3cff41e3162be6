/**
 * What the rewrite does to a page, stated against an independent reading of it:
 * the stream of events a pre-order walk meets (module `Events`).
 */
module RewriterProps {
  import opened Wrappers
  import opened Text
  import opened Dom
  import opened Events
  import opened Substitute
  import opened Rewriter

  // ----- the reference: a rewrite of the event stream -----

  predicate IsDiagramEvent(e: Event) {
    e.EImg? && IsDiagramAttrs(e.attrs)
  }

  /** The start of a viewer div: `div` with class `mxgraph`. */
  predicate IsMxOpen(e: Event) {
    e.EOpen? && e.name == "div" && "class" in e.attrs && e.attrs["class"] == "mxgraph"
  }

  /** The start of a `script` element loading `viewerJs`. */
  function ScriptOpen(viewerJs: string): Event -> bool {
    (e: Event) => e.EOpen? && e.name == "script" && "src" in e.attrs && e.attrs["src"] == viewerJs
  }

  /** Each diagram image event becomes the events of its div; every other event stays. */
  function SubstEvent(e: Event): seq<Event> {
    if IsDiagramEvent(e) then FlattenNode(MxGraphDiv(e.attrs["src"])) else [e]
  }

  function Subst(es: seq<Event>): seq<Event> {
    if es == [] then [] else SubstEvent(es[0]) + Subst(es[1..])
  }

  lemma {:induction false} SubstConcat(a: seq<Event>, b: seq<Event>)
    ensures Subst(a + b) == Subst(a) + Subst(b)
    decreases |a|
  {
    if a == [] {
      assert a + b == b;
    } else {
      assert (a + b)[0] == a[0];
      assert (a + b)[1..] == a[1..] + b;
      SubstConcat(a[1..], b);
    }
  }

  lemma SubstSingle(e: Event)
    ensures Subst([e]) == SubstEvent(e)
  {
    assert [e][1..] == [];
  }

  /** Replacing in the tree is substituting in the event stream: every diagram
      image is replaced where it stood, and every other text, image, start and end
      of element is kept, in the same order. */
  lemma {:induction false} FlattenReplaceNode(n: Node)
    ensures FlattenNode(ReplaceNode(n)) == Subst(FlattenNode(n))
    decreases n
  {
    match n
    case Text(_) =>
      SubstSingle(EText(n.text));
    case Img(a) =>
      SubstSingle(EImg(a));
    case Elem(name, a, cs) =>
      FlattenReplace(cs);
      SubstWrap(EOpen(name, a), Flatten(cs), EClose(name));
  }

  /** Start and end events are kept around whatever lies between them. */
  lemma SubstWrap(o: Event, mid: seq<Event>, c: Event)
    requires o.EOpen? && c.EClose?
    ensures Subst([o] + mid + [c]) == [o] + Subst(mid) + [c]
  {
    SubstConcat([o] + mid, [c]);
    SubstConcat([o], mid);
    SubstSingle(o);
    SubstSingle(c);
  }

  lemma {:induction false} FlattenReplace(ns: seq<Node>)
    ensures Flatten(Replace(ns)) == Subst(Flatten(ns))
    decreases ns
  {
    if ns != [] {
      FlattenReplaceNode(ns[0]);
      FlattenReplace(ns[1..]);
      SubstConcat(FlattenNode(ns[0]), Flatten(ns[1..]));
      assert Replace(ns) == [ReplaceNode(ns[0])] + Replace(ns[1..]);
    }
  }

  // ----- counting -----

  /** A viewer div is one `mxgraph` start, no diagram image and no script. */
  lemma DivEventCounts(src: string, viewerJs: string)
    ensures CountWhere(FlattenNode(MxGraphDiv(src)), IsMxOpen) == 1
    ensures CountWhere(FlattenNode(MxGraphDiv(src)), IsDiagramEvent) == 0
    ensures CountWhere(FlattenNode(MxGraphDiv(src)), ScriptOpen(viewerJs)) == 0
  {
    var a := MxGraphDiv(src).attrs;
    LeafEvents("div", a);
    CountPair(EOpen("div", a), EClose("div"), IsMxOpen);
    CountPair(EOpen("div", a), EClose("div"), IsDiagramEvent);
    CountPair(EOpen("div", a), EClose("div"), ScriptOpen(viewerJs));
  }

  lemma SubstEventCounts(e: Event, viewerJs: string)
    ensures CountWhere(SubstEvent(e), IsMxOpen) == CountWhere([e], IsMxOpen) + CountWhere([e], IsDiagramEvent)
    ensures CountWhere(SubstEvent(e), IsDiagramEvent) == 0
    ensures CountWhere(SubstEvent(e), ScriptOpen(viewerJs)) == CountWhere([e], ScriptOpen(viewerJs))
  {
    CountOne(e, IsMxOpen);
    CountOne(e, IsDiagramEvent);
    CountOne(e, ScriptOpen(viewerJs));
    if IsDiagramEvent(e) {
      DivEventCounts(e.attrs["src"], viewerJs);
    }
  }

  lemma CountHead(es: seq<Event>, p: Event -> bool)
    requires es != []
    ensures CountWhere(es, p) == CountWhere([es[0]], p) + CountWhere(es[1..], p)
  {
    assert [es[0]][1..] == [];
  }

  /** Substitution adds one viewer div per diagram image, leaves no diagram image
      and keeps every script start. */
  lemma {:induction false} CountSubst(es: seq<Event>, viewerJs: string)
    ensures CountWhere(Subst(es), IsMxOpen) == CountWhere(es, IsMxOpen) + CountWhere(es, IsDiagramEvent)
    ensures CountWhere(Subst(es), IsDiagramEvent) == 0
    ensures CountWhere(Subst(es), ScriptOpen(viewerJs)) == CountWhere(es, ScriptOpen(viewerJs))
  {
    CountSubstMx(es);
    CountSubstDiagram(es);
    CountSubstScript(es, viewerJs);
  }

  lemma {:induction false} CountSubstMx(es: seq<Event>)
    ensures CountWhere(Subst(es), IsMxOpen) == CountWhere(es, IsMxOpen) + CountWhere(es, IsDiagramEvent)
    decreases |es|
  {
    if es != [] {
      CountSubstMx(es[1..]);
      SubstEventCounts(es[0], "");
      CountHead(es, IsMxOpen);
      CountHead(es, IsDiagramEvent);
      CountConcat(SubstEvent(es[0]), Subst(es[1..]), IsMxOpen);
    }
  }

  lemma {:induction false} CountSubstDiagram(es: seq<Event>)
    ensures CountWhere(Subst(es), IsDiagramEvent) == 0
    decreases |es|
  {
    if es != [] {
      CountSubstDiagram(es[1..]);
      SubstEventCounts(es[0], "");
      CountConcat(SubstEvent(es[0]), Subst(es[1..]), IsDiagramEvent);
    }
  }

  lemma {:induction false} CountSubstScript(es: seq<Event>, viewerJs: string)
    ensures CountWhere(Subst(es), ScriptOpen(viewerJs)) == CountWhere(es, ScriptOpen(viewerJs))
    decreases |es|
  {
    if es != [] {
      CountSubstScript(es[1..], viewerJs);
      SubstEventCounts(es[0], viewerJs);
      CountHead(es, ScriptOpen(viewerJs));
      CountConcat(SubstEvent(es[0]), Subst(es[1..]), ScriptOpen(viewerJs));
    }
  }

  /** The images `findAll` returns are exactly the diagram image events. */
  lemma {:induction false} DiagramsCountNode(n: Node)
    ensures |DiagramsOf(n)| == CountWhere(FlattenNode(n), IsDiagramEvent)
    decreases n
  {
    match n
    case Text(_) =>
    case Img(a) =>
    case Elem(name, a, cs) =>
      DiagramsCount(cs);
      CountConcat([EOpen(name, a)] + Flatten(cs), [EClose(name)], IsDiagramEvent);
      CountConcat([EOpen(name, a)], Flatten(cs), IsDiagramEvent);
  }

  lemma {:induction false} DiagramsCount(ns: seq<Node>)
    ensures |Diagrams(ns)| == CountWhere(Flatten(ns), IsDiagramEvent)
    decreases ns
  {
    if ns != [] {
      DiagramsCountNode(ns[0]);
      DiagramsCount(ns[1..]);
      CountConcat(FlattenNode(ns[0]), Flatten(ns[1..]), IsDiagramEvent);
    }
  }

  // ----- the script tag -----

  /** The start of a `body` element. */
  predicate IsBodyOpen(e: Event) {
    e.EOpen? && e.name == "body"
  }

  /** Without a body below it, a node's events hold no body start. */
  lemma {:induction false} NoBodyNoOpenNode(n: Node)
    requires FirstBodyOf(n).None?
    ensures CountWhere(FlattenNode(n), IsBodyOpen) == 0
    decreases n
  {
    match n
    case Text(_) => CountOne(EText(n.text), IsBodyOpen);
    case Img(a) => CountOne(EImg(a), IsBodyOpen);
    case Elem(name, a, cs) =>
      NoBodyNoOpen(cs);
      CountConcat([EOpen(name, a)] + Flatten(cs), [EClose(name)], IsBodyOpen);
      CountConcat([EOpen(name, a)], Flatten(cs), IsBodyOpen);
      CountOne(EOpen(name, a), IsBodyOpen);
      CountOne(EClose(name), IsBodyOpen);
  }

  lemma {:induction false} NoBodyNoOpen(ns: seq<Node>)
    requires FirstBody(ns).None?
    ensures CountWhere(Flatten(ns), IsBodyOpen) == 0
    decreases ns
  {
    if ns != [] {
      NoBodyNoOpenNode(ns[0]);
      NoBodyNoOpen(ns[1..]);
      CountConcat(FlattenNode(ns[0]), Flatten(ns[1..]), IsBodyOpen);
    }
  }

  /** Appending to the body inserts the script's events at one point and changes
      nothing else. That point is fixed: `lead`, the events before the first body
      start, holds no body start, and `pre` is `lead` followed by the first body's
      start and its children's events, so the script comes just before that body's
      end. */
  lemma {:induction false} AppendSplitOf(n: Node, s: Node) returns (lead: seq<Event>, pre: seq<Event>, post: seq<Event>)
    requires FirstBodyOf(s).None? && AppendToBodyOf(n, s).Some?
    ensures FlattenNode(n) == pre + post
    ensures FlattenNode(AppendToBodyOf(n, s).value) == pre + FlattenNode(s) + post
    ensures |post| > 0 && post[0] == EClose("body")
    ensures FirstBodyOf(n).Some?
    ensures CountWhere(lead, IsBodyOpen) == 0
    ensures pre == lead + [EOpen("body", FirstBodyOf(n).value.attrs)] + Flatten(FirstBodyOf(n).value.children)
    decreases n
  {
    var Elem(name, a, cs) := n;
    if name == "body" {
      lead, pre, post := AppendSplitHere(a, cs, s);
    } else {
      var l, p, q := AppendSplit(cs, s);
      lead, pre, post := WrapSplit(name, a, cs, s, l, p, q);
    }
  }

  /** The body itself: the script's events go just before its closing tag. */
  lemma AppendSplitHere(a: Attrs, cs: seq<Node>, s: Node) returns (lead: seq<Event>, pre: seq<Event>, post: seq<Event>)
    requires FirstBodyOf(s).None?
    ensures FlattenNode(Elem("body", a, cs)) == pre + post
    ensures FlattenNode(Elem("body", a, cs + [s])) == pre + FlattenNode(s) + post
    ensures |post| > 0 && post[0] == EClose("body")
    ensures CountWhere(lead, IsBodyOpen) == 0
    ensures pre == lead + [EOpen("body", a)] + Flatten(cs)
  {
    FlattenConcat(cs, [s]);
    assert Flatten([s]) == FlattenNode(s) by { assert [s][1..] == []; }
    lead, pre, post := [], [EOpen("body", a)] + Flatten(cs), [EClose("body")];
  }

  /** An element above the body: its open and close events wrap the children's split. */
  lemma WrapSplit(name: string, a: Attrs, cs: seq<Node>, s: Node, l: seq<Event>, p: seq<Event>, q: seq<Event>)
    returns (lead: seq<Event>, pre: seq<Event>, post: seq<Event>)
    requires FirstBodyOf(s).None? && name != "body" && AppendToBody(cs, s).Some?
    requires Flatten(cs) == p + q
    requires Flatten(AppendToBody(cs, s).value) == p + FlattenNode(s) + q
    requires |q| > 0 && q[0] == EClose("body")
    requires FirstBody(cs).Some? && CountWhere(l, IsBodyOpen) == 0
    requires p == l + [EOpen("body", FirstBody(cs).value.attrs)] + Flatten(FirstBody(cs).value.children)
    ensures FlattenNode(Elem(name, a, cs)) == pre + post
    ensures AppendToBodyOf(Elem(name, a, cs), s).Some?
    ensures FlattenNode(AppendToBodyOf(Elem(name, a, cs), s).value) == pre + FlattenNode(s) + post
    ensures |post| > 0 && post[0] == EClose("body")
    ensures CountWhere(lead, IsBodyOpen) == 0
    ensures pre == lead + [EOpen("body", FirstBody(cs).value.attrs)] + Flatten(FirstBody(cs).value.children)
  {
    var cs' := AppendToBody(cs, s).value;
    var o, c := [EOpen(name, a)], [EClose(name)];
    assert AppendToBodyOf(Elem(name, a, cs), s) == Some(Elem(name, a, cs'));
    assert FlattenNode(Elem(name, a, cs')) == o + (p + FlattenNode(s) + q) + c;
    assert FlattenNode(Elem(name, a, cs)) == o + (p + q) + c;
    WrapAssoc(o, p, FlattenNode(s), q, c);
    CountConcat(o, l, IsBodyOpen);
    CountOne(EOpen(name, a), IsBodyOpen);
    lead, pre, post := o + l, o + p, q + c;
  }

  lemma WrapAssoc(o: seq<Event>, p: seq<Event>, x: seq<Event>, q: seq<Event>, c: seq<Event>)
    ensures o + (p + x + q) + c == (o + p) + x + (q + c)
    ensures o + (p + q) + c == (o + p) + (q + c)
  {
  }

  /** `soup.body.append(s)` read as events: `s`'s events are inserted between
      `pre` and `post`. `pre` runs up to the end of the first body's children: it
      is `lead`, which holds no body start, then that body's start and its
      children's events. So the script lands just before the first body's end,
      and nothing else changes. */
  lemma {:induction false} AppendSplit(ns: seq<Node>, s: Node) returns (lead: seq<Event>, pre: seq<Event>, post: seq<Event>)
    requires FirstBodyOf(s).None? && AppendToBody(ns, s).Some?
    ensures Flatten(ns) == pre + post
    ensures Flatten(AppendToBody(ns, s).value) == pre + FlattenNode(s) + post
    ensures |post| > 0 && post[0] == EClose("body")
    ensures FirstBody(ns).Some?
    ensures CountWhere(lead, IsBodyOpen) == 0
    ensures pre == lead + [EOpen("body", FirstBody(ns).value.attrs)] + Flatten(FirstBody(ns).value.children)
    decreases ns
  {
    if AppendToBodyOf(ns[0], s).Some? {
      var l, p, q := AppendSplitOf(ns[0], s);
      lead, pre, post := AppendSplitHead(ns, s, l, p, q);
    } else {
      var l, p, q := AppendSplit(ns[1..], s);
      lead, pre, post := AppendSplitTail(ns, s, l, p, q);
    }
  }

  /** The body lies under the first node: the rest of the sequence follows `post`. */
  lemma AppendSplitHead(ns: seq<Node>, s: Node, l: seq<Event>, p: seq<Event>, q: seq<Event>)
    returns (lead: seq<Event>, pre: seq<Event>, post: seq<Event>)
    requires FirstBodyOf(s).None? && ns != [] && AppendToBodyOf(ns[0], s).Some?
    requires FlattenNode(ns[0]) == p + q
    requires FlattenNode(AppendToBodyOf(ns[0], s).value) == p + FlattenNode(s) + q
    requires |q| > 0 && q[0] == EClose("body")
    requires FirstBodyOf(ns[0]).Some? && CountWhere(l, IsBodyOpen) == 0
    requires p == l + [EOpen("body", FirstBodyOf(ns[0]).value.attrs)] + Flatten(FirstBodyOf(ns[0]).value.children)
    ensures AppendToBody(ns, s).Some?
    ensures Flatten(ns) == pre + post
    ensures Flatten(AppendToBody(ns, s).value) == pre + FlattenNode(s) + post
    ensures |post| > 0 && post[0] == EClose("body")
    ensures FirstBody(ns).Some? && CountWhere(lead, IsBodyOpen) == 0
    ensures pre == lead + [EOpen("body", FirstBody(ns).value.attrs)] + Flatten(FirstBody(ns).value.children)
  {
    var m := AppendToBodyOf(ns[0], s).value;
    assert AppendToBody(ns, s).value == [m] + ns[1..];
    FlattenCons(ns[0], ns[1..]);
    assert [ns[0]] + ns[1..] == ns;
    FlattenCons(m, ns[1..]);
    assert FirstBody(ns) == FirstBodyOf(ns[0]);
    lead, pre, post := l, p, q + Flatten(ns[1..]);
  }

  /** The body lies further on: the first node's events come before `pre`. */
  lemma AppendSplitTail(ns: seq<Node>, s: Node, l: seq<Event>, p: seq<Event>, q: seq<Event>)
    returns (lead: seq<Event>, pre: seq<Event>, post: seq<Event>)
    requires FirstBodyOf(s).None? && ns != [] && AppendToBodyOf(ns[0], s).None?
    requires AppendToBody(ns[1..], s).Some?
    requires Flatten(ns[1..]) == p + q
    requires Flatten(AppendToBody(ns[1..], s).value) == p + FlattenNode(s) + q
    requires |q| > 0 && q[0] == EClose("body")
    requires FirstBody(ns[1..]).Some? && CountWhere(l, IsBodyOpen) == 0
    requires p == l + [EOpen("body", FirstBody(ns[1..]).value.attrs)] + Flatten(FirstBody(ns[1..]).value.children)
    ensures AppendToBody(ns, s).Some?
    ensures Flatten(ns) == pre + post
    ensures Flatten(AppendToBody(ns, s).value) == pre + FlattenNode(s) + post
    ensures |post| > 0 && post[0] == EClose("body")
    ensures FirstBody(ns).Some? && CountWhere(lead, IsBodyOpen) == 0
    ensures pre == lead + [EOpen("body", FirstBody(ns).value.attrs)] + Flatten(FirstBody(ns).value.children)
  {
    var rest := AppendToBody(ns[1..], s).value;
    assert AppendToBody(ns, s).value == [ns[0]] + rest;
    FlattenCons(ns[0], ns[1..]);
    assert [ns[0]] + ns[1..] == ns;
    FlattenCons(ns[0], rest);
    assert FirstBody(ns) == FirstBody(ns[1..]);
    NoBodyNoOpenNode(ns[0]);
    CountConcat(FlattenNode(ns[0]), l, IsBodyOpen);
    lead, pre, post := FlattenNode(ns[0]) + l, FlattenNode(ns[0]) + p, q;
  }

  lemma FlattenCons(n: Node, rest: seq<Node>)
    ensures Flatten([n] + rest) == FlattenNode(n) + Flatten(rest)
  {
    assert ([n] + rest)[0] == n && ([n] + rest)[1..] == rest;
  }

  lemma ScriptHasNoBody(viewerJs: string)
    ensures FirstBodyOf(Script(viewerJs)).None?
    ensures FlattenNode(Script(viewerJs)) == [EOpen("script", map["src" := viewerJs]), EClose("script")]
    ensures CountWhere(FlattenNode(Script(viewerJs)), ScriptOpen(viewerJs)) == 1
    ensures CountWhere(FlattenNode(Script(viewerJs)), IsMxOpen) == 0
    ensures CountWhere(FlattenNode(Script(viewerJs)), IsDiagramEvent) == 0
  {
    var a := map["src" := viewerJs];
    LeafEvents("script", a);
    CountPair(EOpen("script", a), EClose("script"), ScriptOpen(viewerJs));
    CountPair(EOpen("script", a), EClose("script"), IsMxOpen);
    CountPair(EOpen("script", a), EClose("script"), IsDiagramEvent);
  }

  lemma {:induction false} ReplaceConcat(a: seq<Node>, b: seq<Node>)
    ensures Replace(a + b) == Replace(a) + Replace(b)
    decreases |a|
  {
    if a == [] {
      assert a + b == b;
    } else {
      assert (a + b)[0] == a[0] && (a + b)[1..] == a[1..] + b;
      ReplaceConcat(a[1..], b);
    }
  }

  /** Replacement leaves the first body where it was, with its children replaced. */
  lemma {:induction false} FirstBodyReplaceNode(n: Node)
    ensures FirstBodyOf(ReplaceNode(n)) ==
      (if FirstBodyOf(n).Some? then Some(ReplaceNode(FirstBodyOf(n).value)) else None)
    decreases n
  {
    match n
    case Text(_) =>
    case Img(a) =>
    case Elem(name, a, cs) =>
      if name != "body" { FirstBodyReplace(cs); }
  }

  lemma {:induction false} FirstBodyReplace(ns: seq<Node>)
    ensures FirstBody(Replace(ns)) ==
      (if FirstBody(ns).Some? then Some(ReplaceNode(FirstBody(ns).value)) else None)
    decreases ns
  {
    if ns != [] {
      FirstBodyReplaceNode(ns[0]);
      FirstBodyReplace(ns[1..]);
      assert Replace(ns)[0] == ReplaceNode(ns[0]);
      assert Replace(ns)[1..] == Replace(ns[1..]);
    }
  }

  // ----- the rewrite as a whole -----

  /** A rewritten page: no matching image remains; there is one viewer div more
      per matching image and one script loading `viewerJs` more, whatever the
      number of images; that script is the last child of the first body; and the
      page read as events is the input's with each diagram image substituted and
      the script's two events inserted just before the end of that body (`lead`
      holds the events before its start, and no other body start). */
  lemma RenderRewrites(text: string, doc: seq<Node>, path: string, viewerJs: string)
    returns (lead: seq<Event>, pre: seq<Event>, post: seq<Event>)
    requires Render(text, doc, path, viewerJs).Success?
    requires Render(text, doc, path, viewerJs).value.Rewritten?
    ensures var out := Render(text, doc, path, viewerJs).value.doc;
      && |Diagrams(out)| == 0
      && CountWhere(Flatten(out), IsMxOpen) == CountWhere(Flatten(doc), IsMxOpen) + |Diagrams(doc)|
      && CountWhere(Flatten(out), ScriptOpen(viewerJs)) == CountWhere(Flatten(doc), ScriptOpen(viewerJs)) + 1
      && FirstBody(doc).Some?
      && FirstBody(out) == Some(Elem("body", FirstBody(doc).value.attrs,
                                     Replace(FirstBody(doc).value.children) + [Script(viewerJs)]))
      && Flatten(doc) == pre + post
      && |post| > 0 && post[0] == EClose("body")
      && CountWhere(lead, IsBodyOpen) == 0
      && pre == lead + [EOpen("body", FirstBody(doc).value.attrs)] + Flatten(FirstBody(doc).value.children)
      && Flatten(out) == Subst(pre) + FlattenNode(Script(viewerJs)) + Subst(post)
  {
    var js := Script(viewerJs);
    ScriptHasNoBody(viewerJs);
    var withScript := AppendToBody(doc, js).value;
    var out := Replace(withScript);
    assert Render(text, doc, path, viewerJs).value.doc == out;
    lead, pre, post := AppendSplit(doc, js);
    var sj := FlattenNode(js);
    FlattenReplace(withScript);
    SubstConcat(pre + sj, post);
    SubstConcat(pre, sj);
    assert Subst(sj) == sj by {
      assert sj[1..] == [EClose("script")];
      SubstSingle(EClose("script"));
      SubstConcat([sj[0]], sj[1..]);
      SubstSingle(sj[0]);
      assert [sj[0]] + sj[1..] == sj;
    }
    // counts
    var x := pre + sj + post;
    CountSubst(x, viewerJs);
    DiagramsCount(out);
    DiagramsCount(doc);
    CountConcat(pre + sj, post, IsMxOpen);
    CountConcat(pre, sj, IsMxOpen);
    CountConcat(pre, post, IsMxOpen);
    CountConcat(pre + sj, post, IsDiagramEvent);
    CountConcat(pre, sj, IsDiagramEvent);
    CountConcat(pre, post, IsDiagramEvent);
    CountConcat(pre + sj, post, ScriptOpen(viewerJs));
    CountConcat(pre, sj, ScriptOpen(viewerJs));
    CountConcat(pre, post, ScriptOpen(viewerJs));
    // the body
    AppendFirstBody(doc, js);
    FirstBodyReplace(withScript);
    var b := FirstBody(doc).value;
    ReplaceConcat(b.children, [js]);
    assert Replace([js]) == [js];
  }
}
