/** What a client takes out of a parsed element: its text, its attributes, its children by name. */
module DidlReading {
  import opened Bytes
  import opened Xml
  import opened Didl

  /** The character data directly inside an element. */
  function TextIn(kids: seq<Xml>): string {
    if kids == [] then "" else (if kids[0].Text? then kids[0].text else "") + TextIn(kids[1..])
  }

  function Content(x: Xml): string {
    if x.Element? then TextIn(x.kids) else ""
  }

  function AttrOf(attrs: seq<(string, string)>, name: string): Option<string> {
    if attrs == [] then None else if attrs[0].0 == name then Some(attrs[0].1) else AttrOf(attrs[1..], name)
  }

  predicate Called(x: Xml, name: string) {
    x.Element? && x.name == name
  }

  function Attr(x: Xml, name: string): Option<string> {
    if x.Element? then AttrOf(x.attrs, name) else None
  }

  /** The first child of a name. */
  function Find(kids: seq<Xml>, name: string): Option<Xml> {
    if kids == [] then None else if Called(kids[0], name) then Some(kids[0]) else Find(kids[1..], name)
  }

  /** All children of a name, in order. */
  function All(kids: seq<Xml>, name: string): seq<Xml> {
    if kids == [] then [] else (if Called(kids[0], name) then [kids[0]] else []) + All(kids[1..], name)
  }

  lemma LeafContent(name: string, attrs: seq<(string, string)>, text: string)
    ensures Content(Leaf(name, attrs, text)) == Filter(text)
  {
    var t := Filter(text);
    if t != "" {
      assert TextIn([Text(t)]) == t + TextIn([]);
    }
  }

  function Or<T>(a: Option<T>, b: Option<T>): Option<T> {
    if a.Some? then a else b
  }

  lemma {:induction false} AttrConcat(a: seq<(string, string)>, b: seq<(string, string)>, name: string)
    ensures AttrOf(a + b, name) == Or(AttrOf(a, name), AttrOf(b, name))
  {
    if a == [] {
      assert a + b == b;
    } else {
      assert (a + b)[1..] == a[1..] + b;
      AttrConcat(a[1..], b, name);
    }
  }

  lemma AttrOne(m: string, v: string, name: string)
    ensures AttrOf([(m, v)], name) == (if m == name then Some(v) else None) && AttrOf([], name) == None
  {
    assert [(m, v)][1..] == [];
  }

  lemma {:induction false} FindConcat(a: seq<Xml>, b: seq<Xml>, name: string)
    ensures Find(a + b, name) == Or(Find(a, name), Find(b, name))
  {
    hide Called;
    if a == [] {
      assert a + b == b;
    } else {
      assert (a + b)[1..] == a[1..] + b;
      FindConcat(a[1..], b, name);
    }
  }

  lemma {:induction false} AllConcat(a: seq<Xml>, b: seq<Xml>, name: string)
    ensures All(a + b, name) == All(a, name) + All(b, name)
  {
    hide Called;
    if a == [] {
      assert a + b == b;
    } else {
      assert (a + b)[1..] == a[1..] + b;
      AllConcat(a[1..], b, name);
    }
  }

  lemma One(x: Xml, name: string)
    ensures Find([x], name) == (if Called(x, name) then Some(x) else None) && Find([], name) == None
    ensures All([x], name) == (if Called(x, name) then [x] else []) && All([], name) == []
  {
    assert [x][1..] == [];
  }

  lemma {:induction false} NoneCalled(xs: seq<Xml>, name: string)
    requires forall i :: 0 <= i < |xs| ==> !Called(xs[i], name)
    ensures Find(xs, name) == None && All(xs, name) == []
  {
    hide Called;
    if xs != [] {
      NoneCalled(xs[1..], name);
    }
  }

  lemma {:induction false} AllCalled(xs: seq<Xml>, name: string)
    requires forall i :: 0 <= i < |xs| ==> Called(xs[i], name)
    ensures All(xs, name) == xs
  {
    hide Called;
    if xs != [] {
      AllCalled(xs[1..], name);
    }
  }
}
