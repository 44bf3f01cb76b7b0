/** The index of a scan: what can be looked up by number, and what of that is published. */
module LibraryIndex {
  import opened Bytes
  import opened Ordering
  import opened Subtitles
  import opened LibraryTree
  import opened LibraryNodes
  import opened LibraryWalk
  import opened LibraryBuild
  import opened Library
  import opened LibraryServes

  // Filing.

  /** Every node of these trees is filed in m under its own number. */
  predicate Filed(m: map<int, Node>, ks: seq<Tree<Node>>) {
    ks == [] || (FiledAt(m, ks[0]) && Filed(m, ks[0].kids) && Filed(m, ks[1..]))
  }

  predicate FiledAt(m: map<int, Node>, t: Tree<Node>) {
    t.item.id in m && m[t.item.id] == t.node
  }

  lemma {:induction false} FiledStays(m: map<int, Node>, m': map<int, Node>, ks: seq<Tree<Node>>)
    requires Filed(m, ks)
    requires forall i :: i in IdsOf(ks) && i in m ==> i in m' && m'[i] == m[i]
    ensures Filed(m', ks)
    decreases ks
  {
    if ks != [] {
      assert ks[0].item.id in Ids(ks[0]);
      FiledStays(m, m', ks[0].kids);
      FiledStays(m, m', ks[1..]);
    }
  }

  /** Adding trees leaves other numbers alone and files every node of them under its own. */
  lemma {:induction false} AddFiles(m: map<int, Node>, ks: seq<Tree<Node>>, from: int, to: int)
    requires from <= to && IdsOf(ks) == Range(from, to)
    ensures var r := AddAll(m, ks);
            && (forall i :: i in r <==> i in m || from <= i < to)
            && (forall i :: i in m && !(from <= i < to) ==> r[i] == m[i])
            && NodesOf(ks) == (set i | from <= i < to :: r[i]) && Filed(r, ks)
    decreases ks
  {
    hide NodesOf, Range, Filed;
    if ks == [] {
      RangeEmpty(from, to);
      assert NodesOf([]) == {} && Filed(m, []) by { NothingFiled(m); }
    } else {
      var c, mid := ks[0], from + |Ids(ks[0])|;
      RangeSplit(Ids(c), IdsOf(ks[1..]), from, to);
      AddTree(m, c, from, mid);
      AddFiles(Add(m, c), ks[1..], mid, to);
      NodesCons(ks);
      var r := AddAll(m, ks);
      assert forall i :: from <= i < mid ==> r[i] == Add(m, c)[i];
      assert (set i | from <= i < to :: r[i]) == (set i | from <= i < mid :: r[i]) + (set i | mid <= i < to :: r[i]);
      assert (set i | from <= i < mid :: r[i]) == (set i | from <= i < mid :: Add(m, c)[i]);
      RangeHolds(Ids(c), from, mid);
      FiledCons(Add(m, c), r, ks);
    }
  }

  lemma {:induction false} AddTree(m: map<int, Node>, t: Tree<Node>, from: int, to: int)
    requires from <= to && Ids(t) == Range(from, to)
    ensures var r := Add(m, t);
            && (forall i :: i in r <==> i in m || from <= i < to)
            && (forall i :: i in m && !(from <= i < to) ==> r[i] == m[i])
            && Nodes(t) == (set i | from <= i < to :: r[i]) && FiledAt(r, t) && Filed(r, t.kids)
    decreases t
  {
    hide NodesOf, Range, AddAll, Filed;
    RangeSplit([t.item.id], IdsOf(t.kids), from, to);
    RangeHead(t.item.id, from);
    var m' := m[t.item.id := t.node];
    AddFiles(m', t.kids, from + 1, to);
    var r := Add(m, t);
    assert r[from] == t.node;
    assert (set i | from <= i < to :: r[i]) == {r[from]} + (set i | from + 1 <= i < to :: r[i]);
  }

  lemma NothingFiled(m: map<int, Node>)
    ensures NodesOf([]) == {} && Filed(m, [])
  {
  }

  lemma FiledCons(m: map<int, Node>, m': map<int, Node>, ks: seq<Tree<Node>>)
    requires ks != [] && FiledAt(m, ks[0]) && Filed(m, ks[0].kids) && Filed(m', ks[1..])
    requires forall i :: i in Ids(ks[0]) && i in m ==> i in m' && m'[i] == m[i]
    ensures Filed(m', ks)
  {
    assert ks[0].item.id in Ids(ks[0]);
    FiledStays(m, m', ks[0].kids);
  }

  lemma NodesCons(ks: seq<Tree<Node>>)
    requires ks != []
    ensures NodesOf(ks) == Nodes(ks[0]) + NodesOf(ks[1..])
  {
  }

  lemma RangeEmpty(from: int, to: int)
    requires from <= to && Range(from, to) == []
    ensures from == to
  {
    assert |Range(from, to)| == to - from;
  }

  lemma RangeHolds(a: seq<int>, from: int, to: int)
    requires from <= to && a == Range(from, to)
    ensures forall i :: i in a ==> from <= i < to
  {
  }

  lemma RangeSplit(a: seq<int>, b: seq<int>, from: int, to: int)
    requires from <= to && a + b == Range(from, to)
    ensures from + |a| <= to && a == Range(from, from + |a|) && b == Range(from + |a|, to)
  {
    var r := Range(from, to);
    assert |r| == |a| + |b| && r[..|a|] == a && r[|a|..] == b;
  }

  lemma RangeHead(id: int, from: int)
    requires [id] == Range(from, from + 1)
    ensures id == from
  {
    assert Range(from, from + 1)[0] == from;
  }

  /** The numbers below last, and no others, are in use; they name the root, these nodes, and nothing else. */
  ghost predicate Indexes(m: map<int, Node>, kids: seq<Tree<Node>>, root: Node, last: int) {
    && (forall i :: i in m <==> 0 <= i < last) && 0 in m && m[0] == root
    && Filed(m, kids) && Values(m) == {root} + NodesOf(kids)
  }

  /** Everything that can be looked up. */
  function Values(m: map<int, Node>): set<Node> {
    set i | i in m :: m[i]
  }

  lemma IndexOfRange(root: Node, kids: seq<Tree<Node>>, last: nat)
    requires last >= 1 && IdsOf(kids) == Range(1, last)
    ensures Indexes(AddAll(map[0 := root], kids), kids, root, last)
  {
    hide NodesOf, Range, AddAll, Filed;
    var m := AddAll(map[0 := root], kids);
    AddFiles(map[0 := root], kids, 1, last);
    assert Values(m) == {m[0]} + (set i | 1 <= i < last :: m[i]);
  }

  /**
   * The index holds exactly what was walked: every number up to the last is in use, every node is filed under its own
   * number, and nothing else is filed.
   */
  lemma IndexIsEverythingWalked(o: Options, path: string, d: Entry, root: Node, kids: seq<Tree<Node>>, done: set<Node>)
    requires d.Folder? && Scanned(o, d, path, kids, done)
    ensures Indexes(AddAll(map[0 := root], kids), kids, root, WholeWalk(o, d, path).next)
  {
    hide *;
    NumbersFromRoot(o, d, path);
    ScannedKids(o, path, d, kids, done);
    EraseVideos(kids);
    IndexOfRange(root, kids, WholeWalk(o, d, path).next);
  }

  lemma ScannedKids(o: Options, path: string, d: Entry, kids: seq<Tree<Node>>, done: set<Node>)
    requires d.Folder? && Scanned(o, d, path, kids, done)
    ensures EraseAll(kids) == WholeWalk(o, d, path).kids
  {
  }

  // What is published keeps its number.

  lemma {:induction false} FiledAppend(m: map<int, Node>, a: seq<Tree<Node>>, b: seq<Tree<Node>>)
    ensures Filed(m, a + b) <==> Filed(m, a) && Filed(m, b)
  {
    if a == [] {
      assert a + b == b;
    } else {
      assert (a + b)[0] == a[0] && (a + b)[1..] == a[1..] + b;
      FiledAppend(m, a[1..], b);
    }
  }

  lemma FiledOne(m: map<int, Node>, c: Tree<Node>)
    ensures Filed(m, [c]) <==> FiledAt(m, c) && Filed(m, c.kids)
  {
    assert [c][1..] == [];
  }

  lemma JudgeKeepsId(p: Probes, i: Item)
    ensures Judge(p, i).id == i.id
  {
  }

  lemma {:induction false} JudgeFiles(p: Probes, m: map<int, Node>, ks: seq<Tree<Node>>, done: set<Node>)
    requires Filed(m, ks)
    ensures Filed(m, JudgeInAll(p, ks, done))
    decreases ks
  {
    hide Judge;
    if ks != [] {
      JudgeKeepsId(p, ks[0].item);
      JudgeFiles(p, m, ks[0].kids, done);
      JudgeFiles(p, m, ks[1..], done);
      assert JudgeInAll(p, ks, done)[1..] == JudgeInAll(p, ks[1..], done);
    }
  }

  lemma {:induction false} DropFiles(m: map<int, Node>, ks: seq<Tree<Node>>)
    requires Filed(m, ks)
    ensures Filed(m, DropKids(ks))
    decreases ks
  {
    if ks != [] {
      var c := ks[0];
      DropFiles(m, c.kids);
      DropFiles(m, ks[1..]);
      FiledOne(m, c);
      FiledOne(m, Drop(c));
      FiledAppend(m, DropOne(c), DropKids(ks[1..]));
    }
  }

  lemma {:induction false} PruneFiles(m: map<int, Node>, ks: seq<Tree<Node>>)
    requires Filed(m, ks)
    ensures Filed(m, PruneKids(ks))
    decreases ks
  {
    if ks != [] {
      var c := ks[0];
      PruneFiles(m, c.kids);
      PruneFiles(m, ks[1..]);
      FiledOne(m, Prune(c));
      FiledAppend(m, PruneOne(c), PruneKids(ks[1..]));
    }
  }

  lemma {:induction false} StableSortFiles(m: map<int, Node>, ks: seq<Tree<Node>>, less: (Tree<Node>, Tree<Node>) -> bool)
    requires Filed(m, ks)
    ensures Filed(m, StableSort(ks, less))
  {
    hide Position, Filed;
    if ks != [] {
      var a, x := ks[..|ks| - 1], ks[|ks| - 1];
      assert ks == a + [x];
      FiledAppend(m, a, [x]);
      StableSortFiles(m, a, less);
      var s := StableSort(a, less);
      var q := Position(s, x, less);
      assert s == s[..q] + s[q..];
      FiledAppend(m, s[..q], s[q..]);
      FiledAppend(m, s[..q], [x]);
      FiledAppend(m, s[..q] + [x], s[q..]);
    } else {
      assert StableSort(ks, less) == ks;
    }
  }

  lemma {:induction false} SortFiles(lower: string -> string, m: map<int, Node>, ks: seq<Tree<Node>>)
    requires Filed(m, ks)
    ensures Filed(m, SortKids(lower, ks))
    decreases ks
  {
    hide StableSort;
    if ks != [] {
      var c := ks[0];
      SortFiles(lower, m, c.kids);
      StableSortFiles(m, SortKids(lower, c.kids), TreeOrder(lower));
      SortFiles(lower, m, ks[1..]);
      assert SortKids(lower, ks)[1..] == SortKids(lower, ks[1..]);
    }
  }

  lemma {:induction false} ShapedAreFiled(m: map<int, Node>, ks: seq<Tree<Node>>, parent: Node?)
    requires Filed(m, ks) && Shapes(ks, parent)
    ensures forall n :: n in NodesOf(ks) ==> n.id in m && m[n.id] == n
    decreases ks
  {
    if ks != [] {
      ShapedAreFiled(m, ks[0].kids, ks[0].node);
      ShapedAreFiled(m, ks[1..], parent);
      assert ks[0].node.Data() == ks[0].item;
    }
  }

  lemma PublishedKids(lower: string -> string, t: Tree<Node>)
    requires t.item.kind == Container
    ensures Published(lower, t).kids == StableSort(SortKids(lower, PruneKids(DropKids(t.kids))), TreeOrder(lower))
    ensures Published(lower, t).node == t.node && Published(lower, t).item == t.item
  {
  }

  /** Whatever the tree shows can be looked up: each published node carries a number, and the index leads from it back. */
  lemma PublishedCanBeLookedUp(o: Options, name: string, p: Probes, path: string, d: Entry, root: Node,
                               kids: seq<Tree<Node>>, done: set<Node>)
    requires d.Folder? && Scanned(o, d, path, kids, done)
    requires Shape(Published(o.env.lower, JudgeIn(p, Tree(root, RootItem(name, path, d), kids), done)), null)
    ensures var m := AddAll(map[0 := root], kids);
            forall n :: n in Nodes(Published(o.env.lower, JudgeIn(p, Tree(root, RootItem(name, path, d), kids), done)))
              ==> n.id in m && m[n.id] == n
  {
    hide StableSort, WholeWalk, Scanned, AddAll, Published, Shapes, NodesOf, DropKids, PruneKids, SortKids, JudgeInAll, Filed;
    var m, js, lower := AddAll(map[0 := root], kids), JudgeInAll(p, kids, done), o.env.lower;
    var judged := JudgeIn(p, Tree(root, RootItem(name, path, d), kids), done);
    IndexIsEverythingWalked(o, path, d, root, kids, done);
    JudgeFiles(p, m, kids, done);
    DropFiles(m, js);
    PruneFiles(m, DropKids(js));
    SortFiles(lower, m, PruneKids(DropKids(js)));
    StableSortFiles(m, SortKids(lower, PruneKids(DropKids(js))), TreeOrder(lower));
    PublishedKids(lower, judged);
    ShapedAreFiled(m, Published(lower, judged).kids, root);
    assert root.Data() == RootItem(name, path, d);
  }

  // What of the index is published.

  /** A tree among these children, at any depth below containers. */
  predicate Below<N(==)>(v: Tree<N>, ks: seq<Tree<N>>)
    decreases ks
  {
    ks != [] && (v == ks[0] || (ks[0].item.kind == Container && Below(v, ks[0].kids)) || Below(v, ks[1..]))
  }

  /** A video is worth publishing when it is not refused, a folder when something in it is. */
  predicate Worthwhile<N>(p: Probes, t: Tree<N>)
    decreases t, 0
  {
    if t.item.kind == Video then !Judge(p, t.item).rejected else AnyWorthwhile(p, t.kids)
  }

  predicate AnyWorthwhile<N>(p: Probes, ks: seq<Tree<N>>)
    decreases ks, 1
  {
    ks != [] && (Worthwhile(p, ks[0]) || AnyWorthwhile(p, ks[1..]))
  }

  lemma AnyCons(p: Probes, ks: seq<Tree<Node>>)
    requires ks != []
    ensures AnyWorthwhile(p, ks) <==>
              AnyWorthwhile(p, ks[1..])
              || (if ks[0].item.kind == Video then !Judge(p, ks[0].item).rejected else AnyWorthwhile(p, ks[0].kids))
  {
    hide Judge;
  }

  /** A video that is served. */
  predicate ServedVideo(p: Probes, v: Tree<Node>) {
    v.item.kind == Video && !Judge(p, v.item).rejected
  }

  /** A folder is worth publishing when, however far below it, there is a video that is not refused. */
  lemma {:induction false} WorthwhileFolder(p: Probes, ks: seq<Tree<Node>>)
    ensures AnyWorthwhile(p, ks) <==> exists v :: Below(v, ks) && ServedVideo(p, v)
    decreases ks
  {
    hide Judge, AnyWorthwhile, Worthwhile;
    if ks == [] {
      NothingWorthwhile(p);
    } else {
      var c := ks[0];
      AnyCons(p, ks);
      WorthwhileFolder(p, c.kids);
      WorthwhileFolder(p, ks[1..]);
      if c.item.kind == Video && ServedVideo(p, c) {
        assert Below(c, ks);
      } else if c.item.kind == Container && AnyWorthwhile(p, c.kids) {
        var v :| Below(v, c.kids) && ServedVideo(p, v);
        assert Below(v, ks);
      } else if AnyWorthwhile(p, ks[1..]) {
        var v :| Below(v, ks[1..]) && ServedVideo(p, v);
        assert Below(v, ks);
      }
    }
  }

  lemma NothingWorthwhile(p: Probes)
    ensures !AnyWorthwhile<Node>(p, [])
  {
  }

  /** What is left of some children once they have been probed, cleaned of refusals and pruned. */
  function Left(p: Probes, ks: seq<Tree<Node>>, done: set<Node>): seq<Tree<Node>> {
    PruneKids(DropKids(JudgeInAll(p, ks, done)))
  }

  function LeftOne(p: Probes, c: Tree<Node>, done: set<Node>): seq<Tree<Node>> {
    PruneKids(DropOne(JudgeIn(p, c, done)))
  }

  lemma {:induction false} PruneAppend<N>(a: seq<Tree<N>>, b: seq<Tree<N>>)
    ensures PruneKids(a + b) == PruneKids(a) + PruneKids(b)
  {
    hide PruneOne;
    if a == [] {
      assert a + b == b;
    } else {
      assert (a + b)[0] == a[0] && (a + b)[1..] == a[1..] + b;
      PruneAppend(a[1..], b);
    }
  }

  lemma OnePruned<N>(c: Tree<N>)
    ensures PruneKids([c]) == PruneOne(c) && PruneKids<N>([]) == []
  {
    assert [c][1..] == [];
  }

  lemma LeftCons(p: Probes, ks: seq<Tree<Node>>, done: set<Node>)
    requires ks != []
    ensures Left(p, ks, done) == LeftOne(p, ks[0], done) + Left(p, ks[1..], done)
  {
    hide DropOne, PruneKids, JudgeIn;
    var js := JudgeInAll(p, ks, done);
    assert js[0] == JudgeIn(p, ks[0], done) && js[1..] == JudgeInAll(p, ks[1..], done);
    PruneAppend(DropOne(js[0]), DropKids(js[1..]));
  }

  lemma LeftVideo(p: Probes, c: Tree<Node>, done: set<Node>)
    requires c.item.kind == Video && c.node in done
    ensures LeftOne(p, c, done) == if Judge(p, c.item).rejected then [] else [JudgeIn(p, c, done)]
  {
    hide Judge;
    JudgeKeepsKind(p, c.item);
    var j := JudgeIn(p, c, done);
    OnePruned(j);
  }

  lemma LeftFolder(p: Probes, c: Tree<Node>, done: set<Node>)
    requires c.item.kind == Container
    ensures LeftOne(p, c, done) == if Left(p, c.kids, done) == [] then [] else [Tree(c.node, c.item, Left(p, c.kids, done))]
  {
    hide JudgeInAll, DropKids;
    var d := Drop(JudgeIn(p, c, done));
    OnePruned(d);
    assert Prune(d) == Tree(c.node, c.item, Left(p, c.kids, done));
  }

  lemma {:induction false} LeftNodes(p: Probes, ks: seq<Tree<Node>>, done: set<Node>)
    requires DistinctAll(ks)
    ensures NodesOf(Left(p, ks, done)) <= NodesOf(ks)
  {
    hide JudgeInAll, DropKids, PruneKids, NodesOf, DistinctAll;
    JudgeKidsNodes(p, ks, done);
    DropKidsNodes(JudgeInAll(p, ks, done));
    PruneKidsNodes(DropKids(JudgeInAll(p, ks, done)));
  }

  lemma LeftOneNodes(p: Probes, c: Tree<Node>, done: set<Node>)
    requires Distinct(c)
    ensures NodesOf(LeftOne(p, c, done)) <= Nodes(c)
  {
    hide LeftOne, Left, Nodes, NodesOf, Distinct;
    One(c, null);
    LeftNodes(p, [c], done);
    LeftCons(p, [c], done);
    LeftNothing(p, done);
    assert [c][1..] == [] && LeftOne(p, c, done) + [] == LeftOne(p, c, done);
  }

  lemma LeftNothing(p: Probes, done: set<Node>)
    ensures Left(p, [], done) == []
  {
  }

  lemma JudgedHere(p: Probes, ks: seq<Tree<Node>>, done: set<Node>)
    requires ks != [] && forall n :: n in VideoNodesOf(ks) ==> n in done
    ensures forall n :: n in VideoNodesOf(ks[1..]) ==> n in done
    ensures if ks[0].item.kind == Video then ks[0].node in done else forall n :: n in VideoNodesOf(ks[0].kids) ==> n in done
  {
    assert VideoNodesOf(ks) == VideoNodes(ks[0]) + VideoNodesOf(ks[1..]);
    if ks[0].item.kind == Video {
      assert VideoNodesOf(ks)[0] == ks[0].node;
    }
  }

  /** Something is left exactly when something was worth publishing. */
  lemma {:induction false} LeftIsWorthwhile(p: Probes, ks: seq<Tree<Node>>, done: set<Node>)
    requires forall n :: n in VideoNodesOf(ks) ==> n in done
    ensures Left(p, ks, done) == [] <==> !AnyWorthwhile(p, ks)
    decreases ks
  {
    hide Judge, Left, LeftOne, VideoNodesOf;
    if ks == [] {
      LeftNothing(p, done);
    } else {
      var c := ks[0];
      JudgedHere(p, ks, done);
      LeftCons(p, ks, done);
      LeftIsWorthwhile(p, ks[1..], done);
      if c.item.kind == Video {
        LeftVideo(p, c, done);
      } else {
        LeftIsWorthwhile(p, c.kids, done);
        LeftFolder(p, c, done);
      }
    }
  }

  lemma {:induction false} BelowIsWalked(ks: seq<Tree<Node>>, v: Tree<Node>)
    requires Below(v, ks)
    ensures v.node in NodesOf(ks)
    decreases ks
  {
    if v == ks[0] {
    } else if ks[0].item.kind == Container && Below(v, ks[0].kids) {
      BelowIsWalked(ks[0].kids, v);
    } else {
      BelowIsWalked(ks[1..], v);
    }
  }

  lemma {:induction false} BelowIsFiled(m: map<int, Node>, ks: seq<Tree<Node>>, v: Tree<Node>)
    requires Filed(m, ks) && Below(v, ks)
    ensures FiledAt(m, v)
    decreases ks
  {
    if v == ks[0] {
    } else if ks[0].item.kind == Container && Below(v, ks[0].kids) {
      BelowIsFiled(m, ks[0].kids, v);
    } else {
      BelowIsFiled(m, ks[1..], v);
    }
  }

  lemma {:induction false} WalkedIsBelow(ks: seq<Tree<Node>>, parent: int, n: Node) returns (v: Tree<Node>)
    requires Linked(ks, parent) && n in NodesOf(ks)
    ensures Below(v, ks) && v.node == n
    decreases ks
  {
    if n == ks[0].node {
      v := ks[0];
    } else if n in NodesOf(ks[0].kids) {
      v := WalkedIsBelow(ks[0].kids, ks[0].item.id, n);
    } else {
      v := WalkedIsBelow(ks[1..], parent, n);
    }
  }

  /** The head of a list and the rest of it have no nodes in common, nor has a folder with what is in it. */
  lemma Apart(ks: seq<Tree<Node>>)
    requires ks != [] && DistinctAll(ks)
    ensures Distinct(ks[0]) && DistinctAll(ks[0].kids) && DistinctAll(ks[1..])
    ensures Nodes(ks[0]) == {ks[0].node} + NodesOf(ks[0].kids) && ks[0].node !in NodesOf(ks[0].kids)
    ensures Nodes(ks[0]) !! NodesOf(ks[1..])
  {
  }

  lemma {:induction false} LeftHolds(p: Probes, ks: seq<Tree<Node>>, done: set<Node>, v: Tree<Node>)
    requires DistinctAll(ks) && Below(v, ks) && forall n :: n in VideoNodesOf(ks) ==> n in done
    ensures v.node in NodesOf(Left(p, ks, done)) <==> Worthwhile(p, v)
    decreases ks
  {
    hide Judge, Left, LeftOne, VideoNodesOf, NodesOf, Nodes, Distinct, DistinctAll, JudgeIn;
    var c := ks[0];
    Apart(ks);
    JudgedHere(p, ks, done);
    LeftCons(p, ks, done);
    NodesAppend(LeftOne(p, c, done), Left(p, ks[1..], done));
    LeftOneNodes(p, c, done);
    LeftNodes(p, ks[1..], done);
    if v == c {
      HeadHolds(p, ks, done);
    } else if c.item.kind == Container && Below(v, c.kids) {
      BelowIsWalked(c.kids, v);
      LeftHolds(p, c.kids, done, v);
      LeftFolder(p, c, done);
      FolderNodes(c, Left(p, c.kids, done));
    } else {
      BelowIsWalked(ks[1..], v);
      LeftHolds(p, ks[1..], done, v);
    }
  }

  lemma HeadHolds(p: Probes, ks: seq<Tree<Node>>, done: set<Node>)
    requires ks != [] && forall n :: n in VideoNodesOf(ks) ==> n in done
    ensures ks[0].node in NodesOf(LeftOne(p, ks[0], done)) <==> Worthwhile(p, ks[0])
  {
    hide Judge, Left, LeftOne, VideoNodesOf;
    var c := ks[0];
    JudgedHere(p, ks, done);
    if c.item.kind == Video {
      LeftVideo(p, c, done);
    } else {
      LeftIsWorthwhile(p, c.kids, done);
      LeftFolder(p, c, done);
    }
  }

  lemma FolderNodes(c: Tree<Node>, ks: seq<Tree<Node>>)
    ensures NodesOf([]) == {} && NodesOf([Tree(c.node, c.item, ks)]) == {c.node} + NodesOf(ks)
  {
    One(Tree(c.node, c.item, ks), null);
  }

  lemma PublishedNodes(p: Probes, lower: string -> string, t: Tree<Node>, done: set<Node>)
    requires t.item.kind == Container
    ensures Nodes(Published(lower, JudgeIn(p, t, done))) == {t.node} + NodesOf(Left(p, t.kids, done))
  {
    hide JudgeInAll, DropKids, PruneKids, Sort;
    SortNodes(lower, Prune(Drop(JudgeIn(p, t, done))));
  }

  /**
   * The index is not cleaned. Whatever was walked below the media folder, wherever it was found, can be looked up by
   * its number; it is published exactly when it is worth it, so a refused video or a folder with no served video below
   * it is out of the tree and still in the index.
   */
  lemma WalkedStaysIndexed(o: Options, name: string, p: Probes, path: string, d: Entry, root: Node,
                           kids: seq<Tree<Node>>, done: set<Node>, v: Tree<Node>)
    requires d.Folder? && Scanned(o, d, path, kids, done)
    requires Distinct(Tree(root, RootItem(name, path, d), kids)) && Below(v, kids)
    ensures FiledAt(AddAll(map[0 := root], kids), v)
    ensures v.node in Nodes(Published(o.env.lower, JudgeIn(p, Tree(root, RootItem(name, path, d), kids), done)))
            <==> Worthwhile(p, v)
  {
    hide Judge, Left, AddAll, WholeWalk, EraseAll, Published, Nodes, NodesOf, DistinctAll, JudgeIn, Filed;
    var t := Tree(root, RootItem(name, path, d), kids);
    IndexIsEverythingWalked(o, path, d, root, kids, done);
    BelowIsFiled(AddAll(map[0 := root], kids), kids, v);
    BelowIsWalked(kids, v);
    PublishedNodes(p, o.env.lower, t, done);
    LeftHolds(p, kids, done, v);
  }

  lemma SameExactlyWhen(p: Probes, root: Node, kids: seq<Tree<Node>>, all: set<Node>, published: set<Node>)
    requires all == {root} + NodesOf(kids) && published <= all && root in published && Linked(kids, 0)
    requires forall v :: Below(v, kids) ==> (v.node in published <==> Worthwhile(p, v))
    ensures all == published <==> forall v :: Below(v, kids) ==> Worthwhile(p, v)
  {
    hide NodesOf, Linked;
    forall v | Below(v, kids)
      ensures v.node in all
    {
      BelowIsWalked(kids, v);
    }
    if all != published {
      var n :| n in all && n !in published;
      var v := WalkedIsBelow(kids, 0, n);
      assert Below(v, kids) && !Worthwhile(p, v);
    }
  }

  /** The index holds published nodes only exactly when everything walked below the media folder is worth publishing. */
  lemma IndexIsPublished(o: Options, name: string, p: Probes, path: string, d: Entry, root: Node,
                         kids: seq<Tree<Node>>, done: set<Node>)
    requires d.Folder? && Scanned(o, d, path, kids, done)
    requires Distinct(Tree(root, RootItem(name, path, d), kids))
    ensures var published := Nodes(Published(o.env.lower, JudgeIn(p, Tree(root, RootItem(name, path, d), kids), done)));
            && published <= Values(AddAll(map[0 := root], kids))
            && (Values(AddAll(map[0 := root], kids)) == published <==> forall v :: Below(v, kids) ==> Worthwhile(p, v))
  {
    hide Judge, Left, AddAll, WholeWalk, EraseAll, Published, Nodes, NodesOf, DistinctAll, JudgeIn, Filed, AnyWorthwhile, Linked;
    var t, m := Tree(root, RootItem(name, path, d), kids), AddAll(map[0 := root], kids);
    var published := Nodes(Published(o.env.lower, JudgeIn(p, t, done)));
    IndexIsEverythingWalked(o, path, d, root, kids, done);
    NumbersFromRoot(o, d, path);
    EraseVideos(kids);
    PublishedNodes(p, o.env.lower, t, done);
    LeftNodes(p, kids, done);
    forall v | Below(v, kids)
      ensures v.node in published <==> Worthwhile(p, v)
    {
      WalkedStaysIndexed(o, name, p, path, d, root, kids, done, v);
    }
    SameExactlyWhen(p, root, kids, Values(m), published);
  }
  // A media folder with one film in it.

  const FILM := File("m.mkv", None)

  const ONE_FILM := Folder("films", true, [FILM], None)

  lemma FilmIsPlayed(o: Options)
    requires o.env.lower("m.mkv") == "m.mkv" && o.env.lower(".mkv") == ".mkv"
    ensures ClassOf(o, FILM) == Play
  {
    ExtOfName("m", "mkv");
    assert "m" + "." + "mkv" == "m.mkv" && "." + "mkv" == ".mkv";
    hide Ext;
    assert "m.mkv"[0] == 'm' && !("." <= "m.mkv");
    NotSkipped();
    NotSubtitle();
    assert ".mkv" in VIDEO_EXTS;
  }

  lemma NotSkipped()
    ensures "m.mkv" !in SKIP_NAMES
  {
    assert forall s :: s in SKIP_NAMES ==> s[0] != 'm';
  }

  lemma NotSubtitle()
    ensures ".mkv" !in SUB_EXTS
  {
    assert forall s :: s in SUB_EXTS ==> s[1] != 'm';
  }

  lemma FilmIsWalked(o: Options, path: string)
    requires ClassOf(o, FILM) == Play && o.maxDepth == 0
    ensures WholeWalk(o, ONE_FILM, path).kids == [Tree((), VideoItem(o, FILM, path, [], 0, 1), [])]
  {
    hide ClassOf, VideoItem, StableSort;
    var es := [FILM];
    assert es[1..] == [];
    assert PoolOf(o, es, path) == [] && OfClass(o, es, Browse) == [] && OfClass(o, es, Play) == es;
    SortOne(o);
    assert InSequence(o, es, Browse) == [] && InSequence(o, es, Play) == es;
    assert WalkFolders(o, [], path, 0, 0, 1) == Plan([], 1, NONE);
    assert WalkVideos(o, es[1..], path, [], 0, 2).kids == [];
    assert WalkVideos(o, es, path, [], 0, 1).kids == [Tree((), VideoItem(o, FILM, path, [], 0, 1), [])] + [];
    assert WholeWalk(o, ONE_FILM, path) == WalkFolder(o, true, es, path, 0, 0, 1);
  }

  lemma SortOne(o: Options)
    ensures StableSort<Entry>([], EntryOrder(o.env.lower)) == []
    ensures StableSort([FILM], EntryOrder(o.env.lower)) == [FILM]
  {
    assert [FILM][..0] == [];
  }

  /** When the only film of a folder is refused, nothing is published but the root, and the film is still looked up. */
  lemma RefusedFilmStaysIndexed(o: Options, name: string, p: Probes, path: string, root: Node, film: Node)
    requires o.env.lower("m.mkv") == "m.mkv" && o.env.lower(".mkv") == ".mkv" && o.maxDepth == 0 && root != film
    requires p.validate.Some? && forall file, size, mod :: !p.validate.value(file, size, mod).serve
    ensures var kids := [Tree(film, VideoItem(o, FILM, path, [], 0, 1), [])];
            && Scanned(o, ONE_FILM, path, kids, {film}) && AddAll(map[0 := root], kids) == map[0 := root, 1 := film]
            && Nodes(Published(o.env.lower, JudgeIn(p, Tree(root, RootItem(name, path, ONE_FILM), kids), {film}))) == {root}
  {
    var v := Tree(film, VideoItem(o, FILM, path, [], 0, 1), []);
    FilmIsPlayed(o);
    FilmIsWalked(o, path);
    OneTree(root, v);
    hide VideoItem, WholeWalk, AddAll, Published, JudgeIn, Left, ClassOf;
    PublishedNodes(p, o.env.lower, Tree(root, RootItem(name, path, ONE_FILM), [v]), {film});
    JudgedRefused(p, v.item);
    assert VideoNodesOf([v]) == [film];
    LeftIsWorthwhile(p, [v], {film});
    assert [v][1..] == [];
    assert EraseAll([v]) == [Tree((), v.item, [])];
  }

  lemma JudgedRefused(p: Probes, i: Item)
    requires p.validate.Some? && !p.validate.value(i.path, i.size, i.mod).serve
    ensures Judge(p, i).rejected
  {
  }

  lemma OneTree(root: Node, v: Tree<Node>)
    requires v.kids == [] && v.item.id == 1
    ensures AddAll(map[0 := root], [v]) == map[0 := root, 1 := v.node]
  {
    assert [v][1..] == [];
    assert Add(map[0 := root], v) == AddAll(map[0 := root][1 := v.node], []) == map[0 := root][1 := v.node];
    assert AddAll(map[0 := root], [v]) == AddAll(Add(map[0 := root], v), []);
    assert map[0 := root][1 := v.node] == map[0 := root, 1 := v.node];
  }
}
