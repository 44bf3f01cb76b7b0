/**
 * The passes of a scan over the heap that come after probing: dropping refused videos,
 * pruning empty folders, counting, and sorting in place. Compaction writes kept children
 * over slots of the same list that have been read already, as the original does.
 */
module LibraryScan {
  import opened Ordering
  import opened LibraryTree
  import opened LibraryNodes

  // Compaction: the kept children slide to the front of the list they are read from.

  /** Halfway through the list: the front holds what was kept, the back what is still to be read. */
  predicate Sliding(children: seq<Node>, t: Tree<Node>, done: seq<Tree<Node>>, rest: seq<Tree<Node>>, i: nat) {
    && |done| <= i && i + |rest| == |children| == |t.kids| && rest == t.kids[i..]
    && children[..|done|] == Roots(done) && children[i..] == Roots(rest)
  }

  /** Kept trees and unread trees are in shape and share no node. */
  ghost predicate Apart(n: Node, t: Tree<Node>, done: seq<Tree<Node>>, rest: seq<Tree<Node>>)
    reads n`id, n`info, n`rejected, n`rejectReason, NodesOf(done), NodesOf(rest)
  {
    && Shapes(done, n) && Shapes(rest, n) && n.Data() == t.item && t.node == n
    && n !in NodesOf(t.kids) && DistinctAll(rest) && NodesOf(done) !! NodesOf(rest)
    && NodesOf(done) <= NodesOf(t.kids) && NodesOf(rest) <= NodesOf(t.kids)
  }

  lemma StartSliding(n: Node, t: Tree<Node>)
    requires t.node == n && Shape(t, n.parent) && Distinct(t)
    ensures Sliding(n.children, t, [], t.kids, 0) && Apart(n, t, [], t.kids)
    ensures Nodes(t) == {n} + NodesOf(t.kids) && n.Data() == t.item
  {
  }

  /** The next child is a tree of its own, apart from everything already kept or still to come. */
  lemma NextChild(n: Node, t: Tree<Node>, done: seq<Tree<Node>>, rest: seq<Tree<Node>>, i: nat)
    requires Sliding(n.children, t, done, rest, i) && Apart(n, t, done, rest) && i < |n.children|
    ensures rest != [] && rest[0] in t.kids && n.children[i] == rest[0].node
    ensures rest[0].node.parent == n && rest[0].node.Data() == rest[0].item
    ensures Shape(rest[0], n) && Distinct(rest[0]) && Nodes(rest[0]) <= NodesOf(t.kids)
    ensures Nodes(rest[0]) !! NodesOf(done) && Nodes(rest[0]) !! NodesOf(rest[1..]) && n !in Nodes(rest[0])
    ensures Sliding(n.children, t, done, rest[1..], i + 1) && Apart(n, t, done, rest[1..])
  {
    assert n.children[i..][0] == n.children[i] && n.children[i..][1..] == n.children[i + 1..];
    assert Roots(rest)[1..] == Roots(rest[1..]);
    assert rest[0] == t.kids[i] && rest[1..] == t.kids[i + 1..];
    assert Roots(rest)[0] == rest[0].node && Shape(rest[0], n);
  }

  /** A kept child is written over a slot already read. */
  lemma Slide(children: seq<Node>, t: Tree<Node>, done: seq<Tree<Node>>, rest: seq<Tree<Node>>, x: Tree<Node>, i: nat)
    requires Sliding(children, t, done, rest, i) && |done| < i
    ensures Sliding(children[|done| := x.node], t, done + [x], rest, i)
  {
    var now := children[|done| := x.node];
    assert now[i..] == children[i..];
    assert now[..|done| + 1] == children[..|done|] + [x.node];
  }

  lemma Keep(n: Node, t: Tree<Node>, done: seq<Tree<Node>>, rest: seq<Tree<Node>>, x: Tree<Node>)
    requires Apart(n, t, done, rest) && Shape(x, n) && Nodes(x) <= NodesOf(t.kids) && Nodes(x) !! NodesOf(rest)
    ensures Apart(n, t, done + [x], rest)
  {
    One(x, n);
    NodesAppend(done, [x]);
    ShapesAppend(done, [x], n);
  }

  /** kept = append(kept, c), into the list being read. */
  method KeepChild(n: Node, c: Node, kept: nat, i: nat, ghost t: Tree<Node>, ghost done: seq<Tree<Node>>,
                   ghost rest: seq<Tree<Node>>, ghost x: Tree<Node>)
    requires Sliding(n.children, t, done, rest, i) && Apart(n, t, done, rest) && kept == |done| < i
    requires x.node == c && Shape(x, n) && Nodes(x) <= NodesOf(t.kids) && Nodes(x) !! NodesOf(rest)
    modifies n`children
    ensures Sliding(n.children, t, done + [x], rest, i) && Apart(n, t, done + [x], rest)
    ensures |n.children| == |old(n.children)|
  {
    hide Shape, Shapes, Distinct, DistinctAll, Roots;
    assert |done| < |n.children|;
    Slide(n.children, t, done, rest, x, i);
    Keep(n, t, done, rest, x);
    n.children := n.children[kept := c];
  }

  lemma Truncated(n: Node, t: Tree<Node>, done: seq<Tree<Node>>, i: nat)
    requires Sliding(n.children, t, done, [], i) && Apart(n, t, done, [])
    ensures |done| <= |n.children| && n.children[..|done|] == Roots(done) && n !in NodesOf(done)
  {
  }

  lemma Reshaped(n: Node, t: Tree<Node>, done: seq<Tree<Node>>)
    requires Apart(n, t, done, []) && n.children == Roots(done)
    ensures Shape(t.(kids := done), n.parent)
  {
  }

  // What dropping one more child adds.

  /** What a child that is not refused becomes. */
  function Cleaned(c: Tree<Node>): Tree<Node> {
    if c.item.kind == Container then Drop(c) else c
  }

  lemma DropStart(t: Tree<Node>)
    ensures [] + DropKids(t.kids) == DropKids(t.kids) && Drop(t) == t.(kids := DropKids(t.kids))
    ensures DropKids<Node>([]) == [] && RefusalsOf<Node>([]) == [] && Refusals(t) == RefusalsOf(t.kids)
  {
  }

  lemma DropStep(done: seq<Tree<Node>>, rest: seq<Tree<Node>>, records: seq<Rejected>)
    requires rest != []
    ensures var c := rest[0];
            if c.item.kind == Video && c.item.rejected then
              && done + DropKids(rest) == done + DropKids(rest[1..])
              && records + RefusalsOf(rest) == (records + [Record(c.item)]) + RefusalsOf(rest[1..])
            else
              && done + DropKids(rest) == (done + [Cleaned(c)]) + DropKids(rest[1..])
              && records + RefusalsOf(rest) == (records + RefusalsOne(c)) + RefusalsOf(rest[1..])
              && RefusalsOne(c) == if c.item.kind == Container then Refusals(c) else []
  {
    hide Drop, Refusals, Record, DropOne, RefusalsOne;
    var c := rest[0];
    assert done + DropKids(rest) == (done + DropOne(c)) + DropKids(rest[1..]);
    assert records + RefusalsOf(rest) == (records + RefusalsOne(c)) + RefusalsOf(rest[1..]);
    OneDropped(done, c);
  }

  lemma OneDropped(done: seq<Tree<Node>>, c: Tree<Node>)
    ensures if c.item.kind == Video && c.item.rejected then done + DropOne(c) == done && RefusalsOne(c) == [Record(c.item)]
            else DropOne(c) == [Cleaned(c)] && RefusalsOne(c) == if c.item.kind == Container then Refusals(c) else []
  {
    hide Drop, Refusals, Record;
    assert done + [] == done;
  }

  lemma CleanedNodes(c: Tree<Node>)
    requires Distinct(c)
    ensures Nodes(Cleaned(c)) <= Nodes(c) && Cleaned(c).node == c.node
  {
    DropNodes(c);
  }

  // What pruning one more child adds.

  lemma PruneStart(t: Tree<Node>)
    requires t.item.kind == Container
    ensures [] + PruneKids(t.kids) == PruneKids(t.kids) && Prune(t) == t.(kids := PruneKids(t.kids))
    ensures PruneKids<Node>([]) == []
  {
  }

  lemma PruneVideo(t: Tree<Node>)
    requires t.item.kind == Video
    ensures Prune(t) == t && Kept(Prune(t))
  {
  }

  lemma PruneStep(done: seq<Tree<Node>>, rest: seq<Tree<Node>>)
    requires rest != []
    ensures var c := Prune(rest[0]);
            done + PruneKids(rest) == (if Kept(c) then done + [c] else done) + PruneKids(rest[1..])
  {
    hide Prune, Kept;
    assert done + PruneKids(rest) == (done + PruneOne(rest[0])) + PruneKids(rest[1..]);
    assert done + [] == done;
  }

  /** What accumulates during one scan. */
  class Builder {
    var byID: map<int, Node>
    var nextID: nat
    var videos: nat
    var subtitles: nat
    var skipped: nat
    var errors: nat
    var rejected: seq<Rejected>

    constructor (root: Node)
      ensures byID == map[0 := root] && nextID == 1 && rejected == []
      ensures videos == subtitles == skipped == errors == 0
    {
      byID, nextID, rejected := map[0 := root], 1, [];
      videos, subtitles, skipped, errors := 0, 0, 0, 0;
    }

    method AllocID(n: Node) returns (id: nat)
      modifies this`nextID, this`byID, n`id
      ensures id == old(nextID) && nextID == id + 1 && byID == old(byID)[id := n]
      ensures n.Data() == old(n.Data()).(id := id)
    {
      id := nextID;
      nextID := nextID + 1;
      n.id := id;
      byID := byID[id := n];
    }

    /** The children of n that were not refused move to the front, in order; the rest are recorded. */
    method DropWalk(n: Node, ghost t: Tree<Node>)
      requires t.node == n && t.item.kind == Container && Shape(t, n.parent) && Distinct(t)
      modifies this`rejected, Nodes(t)`children
      ensures Shape(Drop(t), n.parent) && rejected == old(rejected) + Refusals(t)
      decreases t
    {
      hide Shape, Shapes, Distinct, DistinctAll, Roots, Sliding, Apart;
      hide DropKids, RefusalsOf, Drop, Refusals, RefusalsOne;
      var count, i, kept := |n.children|, 0, 0;
      ghost var done: seq<Tree<Node>>, rest := [], t.kids;
      StartSliding(n, t);
      DropStart(t);
      while i < count
        invariant i <= count == |n.children| && kept == |done| <= i && (i == count ==> rest == [])
        invariant Sliding(n.children, t, done, rest, i) && Apart(n, t, done, rest)
        invariant allocated(NodesOf(t.kids))
        invariant done + DropKids(rest) == DropKids(t.kids)
        invariant rejected + RefusalsOf(rest) == old(rejected) + RefusalsOf(t.kids)
      {
        var c := n.children[i];
        NextChild(n, t, done, rest, i);
        ghost var r := rest[0];
        DropStep(done, rest, rejected);
        CleanedNodes(r);
        rest := rest[1..];
        i := i + 1;
        if c.kind == Video && c.rejected {
          rejected := rejected + [Rejected(c.title, c.path, c.size, c.mod, c.rejectReason)];
        } else {
          if c.kind == Container {
            DropWalk(c, r);
          }
          KeepChild(n, c, kept, i, t, done, rest, Cleaned(r));
          kept := kept + 1;
          done := done + [Cleaned(r)];
        }
      }
      Truncated(n, t, done, i);
      assert done + DropKids([]) == done && rejected + [] == rejected;
      n.children := n.children[..kept];
      Reshaped(n, t, done);
    }

    /** Containers with no video below go; the answer says whether n itself is worth keeping. */
    method PruneTree(n: Node, ghost t: Tree<Node>) returns (keep: bool)
      requires t.node == n && Shape(t, n.parent) && Distinct(t)
      modifies Nodes(t)`children
      ensures Shape(Prune(t), n.parent)
      ensures keep <==> Kept(Prune(t)) || n.parent == null
      decreases t
    {
      hide Shape, Shapes, Distinct, DistinctAll, Roots, Sliding, Apart;
      hide PruneKids, Prune;
      StartSliding(n, t);
      if n.kind == Video {
        PruneVideo(t);
        return true;
      }
      var count, i, kept := |n.children|, 0, 0;
      ghost var done: seq<Tree<Node>>, rest := [], t.kids;
      PruneStart(t);
      while i < count
        invariant i <= count == |n.children| && kept == |done| <= i && (i == count ==> rest == [])
        invariant Sliding(n.children, t, done, rest, i) && Apart(n, t, done, rest)
        invariant allocated(NodesOf(t.kids))
        invariant done + PruneKids(rest) == PruneKids(t.kids)
      {
        var c := n.children[i];
        NextChild(n, t, done, rest, i);
        ghost var r := rest[0];
        PruneStep(done, rest);
        PruneNodes(r);
        rest := rest[1..];
        i := i + 1;
        var worth := PruneTree(c, r);
        if worth {
          KeepChild(n, c, kept, i, t, done, rest, Prune(r));
          kept := kept + 1;
          done := done + [Prune(r)];
        }
      }
      Truncated(n, t, done, i);
      assert done + PruneKids([]) == done;
      n.children := n.children[..kept];
      Reshaped(n, t, done);
      keep := |n.children| > 0 || n.parent == null;
    }
  }

  // Passes that only read.

  lemma {:induction false} ShapesAt(ks: seq<Tree<Node>>, parent: Node?, i: nat)
    requires Shapes(ks, parent) && i < |ks|
    ensures Shape(ks[i], parent) && ks[i].node.Data() == ks[i].item
  {
    if i > 0 {
      ShapesAt(ks[1..], parent, i - 1);
    }
  }

  lemma ChildAt(n: Node, t: Tree<Node>, i: nat)
    requires t.node == n && Shape(t, n.parent) && i < |n.children|
    ensures |n.children| == |t.kids| && n.children[i] == t.kids[i].node && t.kids[i].node.parent == n
    ensures Shape(t.kids[i], n) && t.kids[i].node.Data() == t.kids[i].item
    ensures t.kids[i..][0] == t.kids[i] && t.kids[i..][1..] == t.kids[i + 1..]
  {
    ShapesAt(t.kids, n, i);
  }

  lemma NodeHolds(n: Node, t: Tree<Node>)
    requires t.node == n && Shape(t, n.parent)
    ensures n.Data() == t.item && |n.children| == |t.kids| && t.kids[0..] == t.kids
  {
  }

  /** The videos below a node, in browse order: what is probed, and what Videos lists. */
  method Collect(n: Node, ghost t: Tree<Node>) returns (nodes: seq<Node>)
    requires t.node == n && Shape(t, n.parent)
    ensures nodes == VideoNodes(t)
    decreases t
  {
    NodeHolds(n, t);
    if n.kind == Video {
      return [n];
    }
    nodes := [];
    for i := 0 to |n.children|
      invariant allocated(Nodes(t)) && Shape(t, n.parent)
      invariant nodes + VideoNodesOf(t.kids[i..]) == VideoNodesOf(t.kids)
    {
      ChildAt(n, t, i);
      var below := Collect(n.children[i], t.kids[i]);
      ghost var rest := t.kids[i..];
      assert VideoNodesOf(rest) == VideoNodes(rest[0]) + VideoNodesOf(rest[1..]);
      assert nodes + (below + VideoNodesOf(rest[1..])) == (nodes + below) + VideoNodesOf(rest[1..]);
      nodes := nodes + below;
    }
  }

  method CountVideos(n: Node, ghost t: Tree<Node>) returns (total: nat)
    requires t.node == n && Shape(t, n.parent)
    ensures total == |Videos(t)|
    decreases t
  {
    NodeHolds(n, t);
    if n.kind == Video {
      return 1;
    }
    total := 0;
    for i := 0 to |n.children|
      invariant allocated(Nodes(t)) && Shape(t, n.parent)
      invariant total + |VideosOf(t.kids[i..])| == |VideosOf(t.kids)|
    {
      ChildAt(n, t, i);
      var below := CountVideos(n.children[i], t.kids[i]);
      total := total + below;
    }
  }

  method CountSubtitles(n: Node, ghost t: Tree<Node>) returns (total: nat)
    requires t.node == n && Shape(t, n.parent)
    ensures total == SubtitleCount(Videos(t))
    decreases t
  {
    NodeHolds(n, t);
    if n.kind == Video {
      assert [t.item][1..] == [];
      return |n.subs|;
    }
    total := 0;
    for i := 0 to |n.children|
      invariant allocated(Nodes(t)) && Shape(t, n.parent)
      invariant total + SubtitleCount(VideosOf(t.kids[i..])) == SubtitleCount(VideosOf(t.kids))
    {
      ChildAt(n, t, i);
      var below := CountSubtitles(n.children[i], t.kids[i]);
      SubtitlesAppend(Videos(t.kids[i]), VideosOf(t.kids[i + 1..]));
      total := total + below;
    }
  }

  method CountContainers(n: Node, ghost t: Tree<Node>) returns (total: nat)
    requires t.node == n && Shape(t, n.parent)
    ensures total == |Folders(t)|
    decreases t
  {
    NodeHolds(n, t);
    if n.kind != Container {
      return 0;
    }
    total := 1;
    for i := 0 to |n.children|
      invariant allocated(Nodes(t)) && Shape(t, n.parent)
      invariant total + |FoldersOf(t.kids[i..])| == 1 + |FoldersOf(t.kids)|
    {
      ChildAt(n, t, i);
      var below := CountContainers(n.children[i], t.kids[i]);
      total := total + below;
    }
  }

  // Sorting.

  function NodeOrder(lower: string -> string): (Node, Node) -> bool {
    (a: Node, b: Node) => SiblingLess(lower, a.kind, a.title, b.kind, b.title)
  }

  function RootOf(t: Tree<Node>): Node {
    t.node
  }

  /** Sorting the nodes of the children sorts their trees. */
  lemma SortedRoots(lower: string -> string, ks: seq<Tree<Node>>, parent: Node?)
    requires Shapes(ks, parent)
    ensures StableSort(Roots(ks), NodeOrder(lower)) == Roots(StableSort(ks, TreeOrder(lower)))
  {
    hide StableSort, SiblingLess;
    forall x | x in ks
      ensures x.node.kind == x.item.kind && x.node.title == x.item.title
    {
      var i :| 0 <= i < |ks| && ks[i] == x;
      ShapesAt(ks, parent, i);
    }
    SortCommutesWithMap(ks, RootOf, TreeOrder(lower), NodeOrder(lower));
    assert Map(ks, RootOf) == Roots(ks);
    assert Map(StableSort(ks, TreeOrder(lower)), RootOf) == Roots(StableSort(ks, TreeOrder(lower)));
  }

  /** Sorting a level and then each child is sorting each child and then the level. */
  lemma SortEitherWay(lower: string -> string, t: Tree<Node>)
    requires t.item.kind == Container
    ensures Sort(lower, t) == t.(kids := SortKids(lower, StableSort(t.kids, TreeOrder(lower))))
  {
    hide StableSort, SiblingLess, Sort, SortKids;
    var f := (c: Tree<Node>) => Sort(lower, c);
    SortCommutesWithMap(t.kids, f, TreeOrder(lower), TreeOrder(lower));
    SortKidsIsMap(lower, t.kids, f);
    SortKidsIsMap(lower, StableSort(t.kids, TreeOrder(lower)), f);
    SortOfContainer(lower, t);
  }

  lemma SortOfContainer(lower: string -> string, t: Tree<Node>)
    requires t.item.kind == Container
    ensures Sort(lower, t) == t.(kids := StableSort(SortKids(lower, t.kids), TreeOrder(lower)))
  {
  }

  lemma {:induction false} SortKidsIsMap(lower: string -> string, ks: seq<Tree<Node>>, f: Tree<Node> -> Tree<Node>)
    requires forall c :: f(c) == Sort(lower, c)
    ensures SortKids(lower, ks) == Map(ks, f)
  {
    hide Sort;
    if ks != [] {
      SortKidsIsMap(lower, ks[1..], f);
    }
  }

  lemma SortStart(lower: string -> string, t: Tree<Node>, ks: seq<Tree<Node>>)
    ensures [] + SortKids(lower, ks) == SortKids(lower, ks)
    ensures SortKids<Node>(lower, []) == [] && (t.item.kind == Video ==> Sort(lower, t) == t)
  {
  }

  lemma SortStep(lower: string -> string, done: seq<Tree<Node>>, rest: seq<Tree<Node>>)
    requires rest != []
    ensures done + SortKids(lower, rest) == (done + [Sort(lower, rest[0])]) + SortKids(lower, rest[1..])
  {
    hide Sort;
  }

  /** sort.SliceStable on one list of children. */
  method SortLevel(lower: string -> string, n: Node, ghost t: Tree<Node>)
    requires t.node == n && Shape(t, n.parent) && Distinct(t)
    modifies n`children
    ensures var level := t.(kids := StableSort(t.kids, TreeOrder(lower)));
            Shape(level, n.parent) && Distinct(level) && Nodes(level) == Nodes(t)
  {
    hide StableSort, TreeOrder, NodeOrder, DistinctAll, Shapes;
    ghost var ks := StableSort(t.kids, TreeOrder(lower));
    SortedRoots(lower, t.kids, n);
    StableSortNodes(t.kids, TreeOrder(lower), n);
    assert Shapes(ks, n) && allocated(NodesOf(ks));
    var children := n.children;
    var a := new Node[|children|](i requires 0 <= i < |children| => children[i]);
    assert a[..] == children;
    SortStable(a, NodeOrder(lower));
    n.children := a[..];
  }

  lemma ApartStart(n: Node, t: Tree<Node>)
    requires t.node == n && Shape(t, n.parent) && Distinct(t)
    ensures Apart(n, t, [], t.kids) && n.children == Roots(t.kids) && Nodes(t) == {n} + NodesOf(t.kids)
  {
  }

  lemma ApartNext(n: Node, t: Tree<Node>, done: seq<Tree<Node>>, rest: seq<Tree<Node>>)
    requires Apart(n, t, done, rest) && rest != []
    ensures rest[0].node.parent == n && Shape(rest[0], n) && Distinct(rest[0]) && Nodes(rest[0]) <= NodesOf(t.kids)
    ensures Nodes(rest[0]) !! NodesOf(done) && Nodes(rest[0]) !! NodesOf(rest[1..]) && n !in Nodes(rest[0])
    ensures Apart(n, t, done, rest[1..])
  {
    assert Shape(rest[0], n);
  }

  lemma {:induction false} SortKidsRoots(lower: string -> string, ks: seq<Tree<Node>>)
    ensures Roots(SortKids(lower, ks)) == Roots(ks)
  {
    hide Sort;
    if ks != [] {
      SortKidsRoots(lower, ks[1..]);
      assert Roots(ks) == [ks[0].node] + Roots(ks[1..]);
      assert Roots(SortKids(lower, ks)) == [Sort(lower, ks[0]).node] + Roots(SortKids(lower, ks[1..]));
    }
  }

  /** The loop over the children of a level already sorted, which is t with its children rearranged. */
  method SortBelow(lower: string -> string, n: Node, ghost level: Tree<Node>, ghost t: Tree<Node>)
    requires level.node == n && Shape(level, n.parent) && Distinct(level)
    requires forall k :: k in level.kids ==> k in t.kids
    modifies NodesOf(level.kids)`children
    ensures Shape(level.(kids := SortKids(lower, level.kids)), n.parent)
    decreases t, 0
  {
    ApartStart(n, level);
    SortStart(lower, level, level.kids);
    SortKidsRoots(lower, level.kids);
    hide Shape, Shapes, Distinct, DistinctAll, Roots, Apart, Sort, SortKids;
    ghost var done: seq<Tree<Node>>, rest := [], level.kids;
    ghost var sorted := SortKids(lower, level.kids);
    for i := 0 to |n.children|
      invariant |n.children| == |level.kids| && rest == level.kids[i..]
      invariant Apart(n, level, done, rest) && allocated(NodesOf(level.kids))
      invariant done + SortKids(lower, rest) == sorted
    {
      ApartNext(n, level, done, rest);
      ghost var r := rest[0];
      assert r == level.kids[i] && r in level.kids;
      SortStep(lower, done, rest);
      SortNodes(lower, r);
      rest := rest[1..];
      SortTree(lower, n.children[i], r);
      Keep(n, level, done, rest, Sort(lower, r));
      done := done + [Sort(lower, r)];
    }
    assert done + SortKids(lower, []) == done;
    Reshaped(n, level, done);
  }

  /** Folders first, then by title, at every level. */
  method SortTree(lower: string -> string, n: Node, ghost t: Tree<Node>)
    requires t.node == n && Shape(t, n.parent) && Distinct(t)
    modifies Nodes(t)`children
    ensures Shape(Sort(lower, t), n.parent)
    decreases t, 1
  {
    NodeHolds(n, t);
    SortStart(lower, t, t.kids);
    hide Shape, Shapes, Distinct, DistinctAll, Roots, StableSort, TreeOrder, Sort, SortKids;
    if n.kind != Container {
      return;
    }
    ghost var ks := StableSort(t.kids, TreeOrder(lower));
    SortKeeps(t.kids, TreeOrder(lower));
    forall k | k in ks
      ensures k in t.kids
    {
      assert k in multiset(ks);
    }
    SortLevel(lower, n, t);
    SortBelow(lower, n, t.(kids := ks), t);
    SortEitherWay(lower, t);
  }

  /** Dropping, pruning, counting and sorting a tree whose videos have been judged. */
  method Publish(b: Builder, lower: string -> string, root: Node, ghost t: Tree<Node>)
    returns (containers: nat, videos: nat, subtitles: nat)
    requires t.node == root && t.item.kind == Container && Shape(t, null) && root.parent == null && Distinct(t)
    modifies b`rejected, Nodes(t)`children
    ensures Shape(Published(lower, t), null) && b.rejected == old(b.rejected) + Refusals(t)
    ensures containers == |Folders(Published(lower, t))| && videos == |Videos(Published(lower, t))|
    ensures subtitles == SubtitleCount(Videos(Published(lower, t)))
  {
    hide Shape, Distinct, Prune, Drop, Sort, Videos, Folders, SubtitleCount, Refusals;
    assert allocated(Nodes(t));
    DropNodes(t);
    ghost var dropped := Drop(t);
    assert dropped.node == root && dropped.item == t.item by {
      DropRoot(t);
    }
    PruneNodes(dropped);
    b.DropWalk(root, t);
    var keep := b.PruneTree(root, dropped);
    ghost var pruned := Prune(dropped);
    assert allocated(Nodes(pruned));
    containers := CountContainers(root, pruned);
    videos := CountVideos(root, pruned);
    subtitles := CountSubtitles(root, pruned);
    SortTree(lower, root, pruned);
    CountsSurviveSorting(lower, pruned);
  }

  lemma DropRoot(t: Tree<Node>)
    ensures Drop(t).node == t.node && Drop(t).item == t.item
  {
  }
}
