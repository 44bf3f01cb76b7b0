/**
 * The library's nodes on the heap, and what it means for them to hold a given tree: the
 * fields agree, the child lists are the roots of the subtrees in order, and each child
 * points back at its parent. The transformations of LibraryTree introduce no nodes and
 * keep them distinct, which is what the passes over the heap rely on.
 */
module LibraryNodes {
  import opened Ordering
  import opened Subtitles
  import opened LibraryTree

  /** A container or a video in the library tree. */
  class Node {
    var id: int
    const parentID: int
    const kind: Kind
    const title: string
    const path: string
    const size: int
    const mod: int
    const subs: seq<Subtitle>
    const parent: Node?
    var children: seq<Node>
    var info: Info
    var rejected: bool
    var rejectReason: string

    constructor (id: int, parentID: int, kind: Kind, title: string, path: string, size: int, mod: int,
                 subs: seq<Subtitle>, parent: Node?)
      ensures Data() == Item(id, parentID, kind, title, path, size, mod, subs, UNKNOWN, false, "")
      ensures this.parent == parent && children == []
    {
      this.id, this.parentID, this.kind, this.title, this.path := id, parentID, kind, title, path;
      this.size, this.mod, this.subs, this.parent := size, mod, subs, parent;
      children, info, rejected, rejectReason := [], UNKNOWN, false, "";
    }

    function Data(): Item
      reads this`id, this`info, this`rejected, this`rejectReason
    {
      Item(id, parentID, kind, title, path, size, mod, subs, info, rejected, rejectReason)
    }
  }

  function Roots(ks: seq<Tree<Node>>): (r: seq<Node>)
    ensures |r| == |ks| && forall i :: 0 <= i < |ks| ==> r[i] == ks[i].node
  {
    seq(|ks|, i requires 0 <= i < |ks| => ks[i].node)
  }

  function Nodes(t: Tree<Node>): set<Node> {
    {t.node} + NodesOf(t.kids)
  }

  function NodesOf(ks: seq<Tree<Node>>): set<Node> {
    if ks == [] then {} else Nodes(ks[0]) + NodesOf(ks[1..])
  }

  /** No node occurs twice. */
  predicate Distinct(t: Tree<Node>) {
    t.node !in NodesOf(t.kids) && DistinctAll(t.kids)
  }

  predicate DistinctAll(ks: seq<Tree<Node>>) {
    ks == [] || (Distinct(ks[0]) && DistinctAll(ks[1..]) && Nodes(ks[0]) !! NodesOf(ks[1..]))
  }

  /** The heap below t.node is the tree t: fields, child links in order, and links back to the parent. */
  ghost predicate Shape(t: Tree<Node>, parent: Node?)
    reads Nodes(t)
  {
    t.node.Data() == t.item && t.node.parent == parent && t.node.children == Roots(t.kids) && Shapes(t.kids, t.node)
  }

  ghost predicate Shapes(ks: seq<Tree<Node>>, parent: Node?)
    reads NodesOf(ks)
  {
    ks == [] || (Shape(ks[0], parent) && Shapes(ks[1..], parent))
  }

  lemma {:induction false} NodesAppend(a: seq<Tree<Node>>, b: seq<Tree<Node>>)
    ensures NodesOf(a + b) == NodesOf(a) + NodesOf(b)
  {
    if a == [] {
      assert a + b == b;
    } else {
      assert (a + b)[0] == a[0] && (a + b)[1..] == a[1..] + b;
      NodesAppend(a[1..], b);
    }
  }

  lemma {:induction false} DistinctAppend(a: seq<Tree<Node>>, b: seq<Tree<Node>>)
    ensures DistinctAll(a + b) <==> DistinctAll(a) && DistinctAll(b) && NodesOf(a) !! NodesOf(b)
  {
    if a == [] {
      assert a + b == b;
    } else {
      assert (a + b)[0] == a[0] && (a + b)[1..] == a[1..] + b;
      DistinctAppend(a[1..], b);
      NodesAppend(a[1..], b);
    }
  }

  lemma {:induction false} ShapesAppend(a: seq<Tree<Node>>, b: seq<Tree<Node>>, parent: Node?)
    ensures Shapes(a + b, parent) <==> Shapes(a, parent) && Shapes(b, parent)
  {
    if a == [] {
      assert a + b == b;
    } else {
      assert (a + b)[0] == a[0] && (a + b)[1..] == a[1..] + b;
      ShapesAppend(a[1..], b, parent);
    }
  }

  lemma One(c: Tree<Node>, parent: Node?)
    ensures NodesOf([c]) == Nodes(c) && (DistinctAll([c]) <==> Distinct(c)) && (Shapes([c], parent) <==> Shape(c, parent))
  {
    assert [c][1..] == [];
  }

  // The transformations keep nodes distinct and introduce none.

  lemma {:induction false} DropNodes(t: Tree<Node>)
    requires Distinct(t)
    ensures Nodes(Drop(t)) <= Nodes(t) && Distinct(Drop(t))
    decreases t, 1
  {
    DropKidsNodes(t.kids);
  }

  lemma {:induction false} DropKidsNodes(ks: seq<Tree<Node>>)
    requires DistinctAll(ks)
    ensures NodesOf(DropKids(ks)) <= NodesOf(ks) && DistinctAll(DropKids(ks))
    decreases ks, 0
  {
    if ks != [] {
      var c := ks[0];
      DropKidsNodes(ks[1..]);
      DropNodes(c);
      One(c, null);
      One(Drop(c), null);
      NodesAppend(DropOne(c), DropKids(ks[1..]));
      DistinctAppend(DropOne(c), DropKids(ks[1..]));
    }
  }

  lemma {:induction false} PruneNodes(t: Tree<Node>)
    requires Distinct(t)
    ensures Nodes(Prune(t)) <= Nodes(t) && Distinct(Prune(t))
    decreases t, 1
  {
    PruneKidsNodes(t.kids);
  }

  lemma {:induction false} PruneKidsNodes(ks: seq<Tree<Node>>)
    requires DistinctAll(ks)
    ensures NodesOf(PruneKids(ks)) <= NodesOf(ks) && DistinctAll(PruneKids(ks))
    decreases ks, 0
  {
    if ks != [] {
      var c := ks[0];
      PruneKidsNodes(ks[1..]);
      PruneNodes(c);
      One(Prune(c), null);
      NodesAppend(PruneOne(c), PruneKids(ks[1..]));
      DistinctAppend(PruneOne(c), PruneKids(ks[1..]));
    }
  }

  lemma InsertNodes(s: seq<Tree<Node>>, x: Tree<Node>, less: (Tree<Node>, Tree<Node>) -> bool, parent: Node?)
    ensures NodesOf(Insert(s, x, less)) == NodesOf(s + [x])
    ensures DistinctAll(Insert(s, x, less)) <==> DistinctAll(s + [x])
    ensures Shapes(Insert(s, x, less), parent) <==> Shapes(s + [x], parent)
  {
    hide NodesOf, DistinctAll, Shapes, Position;
    var p := Position(s, x, less);
    var a, b := s[..p], s[p..];
    assert s == a + b;
    NodesAppend(a, b);
    NodesAppend(s, [x]);
    NodesAppend(a, [x]);
    NodesAppend(a + [x], b);
    DistinctAppend(a, b);
    DistinctAppend(s, [x]);
    DistinctAppend(a, [x]);
    DistinctAppend(a + [x], b);
    ShapesAppend(a, b, parent);
    ShapesAppend(s, [x], parent);
    ShapesAppend(a, [x], parent);
    ShapesAppend(a + [x], b, parent);
  }

  lemma {:induction false} StableSortNodes(s: seq<Tree<Node>>, less: (Tree<Node>, Tree<Node>) -> bool, parent: Node?)
    ensures NodesOf(StableSort(s, less)) == NodesOf(s)
    ensures DistinctAll(StableSort(s, less)) <==> DistinctAll(s)
    ensures Shapes(StableSort(s, less), parent) <==> Shapes(s, parent)
  {
    hide NodesOf, DistinctAll, Shapes, Insert;
    if s != [] {
      var a, x := s[..|s| - 1], s[|s| - 1];
      var m := StableSort(a, less);
      StableSortNodes(a, less, parent);
      InsertNodes(m, x, less, parent);
      assert s == a + [x];
      NodesAppend(a, [x]);
      NodesAppend(m, [x]);
      DistinctAppend(a, [x]);
      DistinctAppend(m, [x]);
      ShapesAppend(a, [x], parent);
      ShapesAppend(m, [x], parent);
    }
  }

  lemma {:induction false} SortNodes(lower: string -> string, t: Tree<Node>)
    ensures Nodes(Sort(lower, t)) == Nodes(t) && (Distinct(Sort(lower, t)) <==> Distinct(t))
    decreases t, 1
  {
    hide StableSort;
    SortKidsNodes(lower, t.kids);
    StableSortNodes(SortKids(lower, t.kids), TreeOrder(lower), null);
  }

  lemma {:induction false} SortKidsNodes(lower: string -> string, ks: seq<Tree<Node>>)
    ensures NodesOf(SortKids(lower, ks)) == NodesOf(ks) && (DistinctAll(SortKids(lower, ks)) <==> DistinctAll(ks))
    decreases ks, 0
  {
    hide StableSort;
    if ks != [] {
      SortKidsNodes(lower, ks[1..]);
      SortNodes(lower, ks[0]);
      assert SortKids(lower, ks)[1..] == SortKids(lower, ks[1..]);
    }
  }
}
