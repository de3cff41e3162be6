/**
 * The parsed page as an abstract tree. Parsing and serialisation belong to the HTML
 * library and are not modelled; the rewriter only walks and edits this tree.
 */
module Dom {

  /** Attribute names to values, as a parsed tag holds them. */
  type Attrs = map<string, string>

  /** A node of the parsed page. `img` is a void element, so the parser gives it no
      children and it has a constructor of its own; every other tag is an `Elem`.
      Text, comments and declarations are all `Text`. */
  datatype Node =
    | Text(text: string)
    | Img(attrs: Attrs)
    | Elem(name: string, attrs: Attrs, children: seq<Node>)

  /** A childless element, such as the injected script or a generated div. */
  function Leaf(name: string, attrs: Attrs): Node {
    Elem(name, attrs, [])
  }
}

/**
 * The page read as the stream of events a pre-order walk meets: text, an image,
 * the start of an element and its end. Two pages with the same stream have the
 * same content in the same order.
 */
module Events {
  import opened Dom

  datatype Event =
    | EText(text: string)
    | EImg(attrs: Attrs)
    | EOpen(name: string, attrs: Attrs)
    | EClose(name: string)

  function FlattenNode(n: Node): seq<Event> {
    match n
    case Text(s) => [EText(s)]
    case Img(a) => [EImg(a)]
    case Elem(name, a, cs) => [EOpen(name, a)] + Flatten(cs) + [EClose(name)]
  }

  function Flatten(ns: seq<Node>): seq<Event> {
    if ns == [] then [] else FlattenNode(ns[0]) + Flatten(ns[1..])
  }

  lemma {:induction false} FlattenConcat(a: seq<Node>, b: seq<Node>)
    ensures Flatten(a + b) == Flatten(a) + Flatten(b)
    decreases |a|
  {
    if a == [] {
      assert a + b == b;
    } else {
      assert (a + b)[0] == a[0];
      assert (a + b)[1..] == a[1..] + b;
      FlattenConcat(a[1..], b);
    }
  }

  lemma LeafEvents(name: string, a: Attrs)
    ensures FlattenNode(Leaf(name, a)) == [EOpen(name, a), EClose(name)]
  {
    assert Flatten([]) == [];
  }

  /** How many events of `es` satisfy `p`. */
  function CountWhere(es: seq<Event>, p: Event -> bool): nat {
    if es == [] then 0 else (if p(es[0]) then 1 else 0) + CountWhere(es[1..], p)
  }

  lemma {:induction false} CountConcat(a: seq<Event>, b: seq<Event>, p: Event -> bool)
    ensures CountWhere(a + b, p) == CountWhere(a, p) + CountWhere(b, p)
    decreases |a|
  {
    if a == [] {
      assert a + b == b;
    } else {
      assert (a + b)[0] == a[0];
      assert (a + b)[1..] == a[1..] + b;
      CountConcat(a[1..], b, p);
    }
  }

  lemma CountOne(x: Event, p: Event -> bool)
    ensures CountWhere([x], p) == (if p(x) then 1 else 0)
  {
    assert [x][0] == x && [x][1..] == [];
  }

  lemma CountPair(x: Event, y: Event, p: Event -> bool)
    ensures CountWhere([x, y], p) == (if p(x) then 1 else 0) + (if p(y) then 1 else 0)
  {
    assert [x, y][0] == x && [x, y][1..] == [y];
    assert [y][0] == y && [y][1..] == [];
    assert CountWhere([y], p) == (if p(y) then 1 else 0) + CountWhere([], p);
  }
}
