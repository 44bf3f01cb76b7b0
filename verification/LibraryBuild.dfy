/**
 * The walk over the heap. It allocates the nodes, links them to their parents, numbers
 * them and files them in the index, folder by folder, and is proved to build exactly
 * the tree that LibraryWalk describes. Ghost results hand back the trees of the nodes.
 */
module LibraryBuild {
  import opened Ordering
  import opened Subtitles
  import opened LibraryTree
  import opened LibraryNodes
  import opened LibraryScan
  import opened LibraryWalk

  /** A tree without the references of its nodes. */
  function Erase(t: Tree<Node>): Tree<()> {
    Tree((), t.item, EraseAll(t.kids))
  }

  function EraseAll(ks: seq<Tree<Node>>): seq<Tree<()>> {
    if ks == [] then [] else [Erase(ks[0])] + EraseAll(ks[1..])
  }

  /** An index with the nodes of a tree added under their identifiers. */
  function Add(m: map<int, Node>, t: Tree<Node>): map<int, Node>
    decreases t
  {
    AddAll(m[t.item.id := t.node], t.kids)
  }

  function AddAll(m: map<int, Node>, ks: seq<Tree<Node>>): map<int, Node>
    decreases ks
  {
    if ks == [] then m else AddAll(Add(m, ks[0]), ks[1..])
  }

  lemma {:induction false} EraseAppend(a: seq<Tree<Node>>, b: seq<Tree<Node>>)
    ensures EraseAll(a + b) == EraseAll(a) + EraseAll(b)
  {
    if a == [] {
      assert a + b == b;
    } else {
      assert (a + b)[0] == a[0] && (a + b)[1..] == a[1..] + b;
      EraseAppend(a[1..], b);
    }
  }

  lemma {:induction false} AddAppend(m: map<int, Node>, a: seq<Tree<Node>>, b: seq<Tree<Node>>)
    ensures AddAll(m, a + b) == AddAll(AddAll(m, a), b)
    decreases a
  {
    if a == [] {
      assert a + b == b;
    } else {
      assert (a + b)[0] == a[0] && (a + b)[1..] == a[1..] + b;
      AddAppend(Add(m, a[0]), a[1..], b);
    }
  }

  // Reading one directory.

  /** Sorts the entries of a directory into folders, videos, subtitle files and the rest. */
  method Classify(o: Options, es: seq<Entry>, dir: string)
    returns (dirs: seq<Entry>, vids: seq<Entry>, pool: seq<string>, skipped: nat)
    ensures dirs == OfClass(o, es, Browse) && vids == OfClass(o, es, Play)
    ensures pool == PoolOf(o, es, dir) && skipped == |OfClass(o, es, Skip)|
  {
    hide OfClass, SubtitleFiles, Join;
    dirs, vids, pool, skipped := [], [], [], 0;
    NothingClassified(o, es, dir);
    for i := 0 to |es|
      invariant dirs + OfClass(o, es[i..], Browse) == OfClass(o, es, Browse)
      invariant vids + OfClass(o, es[i..], Play) == OfClass(o, es, Play)
      invariant pool + PoolOf(o, es[i..], dir) == PoolOf(o, es, dir)
      invariant skipped + |OfClass(o, es[i..], Skip)| == |OfClass(o, es, Skip)|
    {
      ClassifyStep(o, es[i..], dir, dirs, vids, pool);
      assert es[i..][0] == es[i] && es[i..][1..] == es[i + 1..];
      var e := es[i];
      if "." <= e.name || o.env.lower(e.name) in SKIP_NAMES {
        skipped := skipped + 1;
      } else if e.Folder? {
        if o.env.lower(e.name) in SUBTITLE_DIRS {
          pool := pool + SubtitleFiles(o, e.readable, e.entries, Join(dir, e.name), 2);
        } else {
          dirs := dirs + [e];
        }
      } else if !e.File? {
        skipped := skipped + 1;
      } else if o.env.lower(Ext(e.name)) in SUB_EXTS {
        pool := pool + [Join(dir, e.name)];
      } else if o.env.lower(Ext(e.name)) in VIDEO_EXTS {
        vids := vids + [e];
      } else {
        skipped := skipped + 1;
      }
    }
    assert es[|es|..] == [];
    NothingClassified(o, [], dir);
  }

  lemma NothingClassified(o: Options, es: seq<Entry>, dir: string)
    ensures OfClass(o, [], Browse) == [] && OfClass(o, [], Play) == [] && OfClass(o, [], Skip) == [] && PoolOf(o, [], dir) == []
    ensures es[0..] == es && [] + OfClass(o, es, Browse) == OfClass(o, es, Browse)
    ensures [] + OfClass(o, es, Play) == OfClass(o, es, Play) && [] + PoolOf(o, es, dir) == PoolOf(o, es, dir)
  {
  }

  lemma ClassifyStep(o: Options, es: seq<Entry>, dir: string, dirs: seq<Entry>, vids: seq<Entry>, pool: seq<string>)
    requires es != []
    ensures dirs + OfClass(o, es, Browse)
            == (if ClassOf(o, es[0]) == Browse then dirs + [es[0]] else dirs) + OfClass(o, es[1..], Browse)
    ensures vids + OfClass(o, es, Play)
            == (if ClassOf(o, es[0]) == Play then vids + [es[0]] else vids) + OfClass(o, es[1..], Play)
    ensures pool + PoolOf(o, es, dir) == (pool + PoolAt(o, es[0], dir)) + PoolOf(o, es[1..], dir)
    ensures PoolAt(o, es[0], dir) == [] ==> pool + PoolAt(o, es[0], dir) == pool
    ensures |OfClass(o, es, Skip)| == (if ClassOf(o, es[0]) == Skip then 1 else 0) + |OfClass(o, es[1..], Skip)|
  {
    hide ClassOf, OfClass, PoolAt;
    ClassCons(o, es, Browse);
    ClassCons(o, es, Play);
    ClassCons(o, es, Skip);
    Regroup(dirs, [es[0]], OfClass(o, es[1..], Browse));
    Regroup(vids, [es[0]], OfClass(o, es[1..], Play));
    Regroup(pool, PoolAt(o, es[0], dir), PoolOf(o, es[1..], dir));
  }

  lemma Regroup<T>(a: seq<T>, b: seq<T>, c: seq<T>)
    ensures a + (b + c) == (a + b) + c && (b == [] ==> a + b == a)
  {
  }

  /** sortEntries. */
  method SortEntries(lower: string -> string, es: seq<Entry>) returns (r: seq<Entry>)
    ensures r == StableSort(es, EntryOrder(lower))
  {
    var a := new Entry[|es|](i requires 0 <= i < |es| => es[i]);
    assert a[..] == es;
    SortStable(a, EntryOrder(lower));
    r := a[..];
  }

  // Adding nodes to a parent.

  function Tally(b: Builder): Counts
    reads b`videos, b`subtitles, b`skipped, b`errors
  {
    Counts(b.videos, b.subtitles, b.skipped, b.errors)
  }

  /** What is still to be added on top of kids and tally leads to the goal. */
  ghost predicate FoldersLeft(o: Options, ds: seq<Entry>, dir: string, parent: int, depth: nat, next: nat,
                              kids: seq<Tree<()>>, tally: Counts, goal: Plan)
    requires forall d :: d in ds ==> d.Folder?
  {
    var r := WalkFolders(o, ds, dir, parent, depth, next);
    kids + r.kids == goal.kids && r.next == goal.next && tally.Plus(r.counts) == goal.counts
  }

  ghost predicate VideosLeft(o: Options, vs: seq<Entry>, dir: string, pool: seq<string>, parent: int, next: nat,
                             kids: seq<Tree<()>>, tally: Counts, goal: Plan)
    requires forall v :: v in vs ==> v.File?
  {
    var r := WalkVideos(o, vs, dir, pool, parent, next);
    kids + r.kids == goal.kids && r.next == goal.next && tally.Plus(r.counts) == goal.counts
  }

  lemma FoldersStep(o: Options, ds: seq<Entry>, dir: string, parent: int, depth: nat, next: nat, kids: seq<Tree<()>>,
                    tally: Counts, goal: Plan)
    requires ds != [] && (forall d :: d in ds ==> d.Folder?)
    requires FoldersLeft(o, ds, dir, parent, depth, next, kids, tally, goal)
    ensures var below := WalkFolder(o, ds[0].readable, ds[0].entries, Join(dir, ds[0].name), next, depth + 1, next + 1);
            FoldersLeft(o, ds[1..], dir, parent, depth, below.next,
                        kids + [Tree((), FolderItem(ds[0], dir, parent, next), below.kids)], tally.Plus(below.counts), goal)
  {
    hide WalkFolder, FolderItem, Join;
    var below := WalkFolder(o, ds[0].readable, ds[0].entries, Join(dir, ds[0].name), next, depth + 1, next + 1);
    var rest := WalkFolders(o, ds[1..], dir, parent, depth, below.next);
    Regroup(kids, [Tree((), FolderItem(ds[0], dir, parent, next), below.kids)], rest.kids);
  }

  lemma VideosStep(o: Options, vs: seq<Entry>, dir: string, pool: seq<string>, parent: int, next: nat,
                   kids: seq<Tree<()>>, tally: Counts, goal: Plan)
    requires vs != [] && (forall v :: v in vs ==> v.File?)
    requires VideosLeft(o, vs, dir, pool, parent, next, kids, tally, goal)
    ensures var item := VideoItem(o, vs[0], dir, pool, parent, next);
            VideosLeft(o, vs[1..], dir, pool, parent, next + 1, kids + [Tree((), item, [])],
                       tally.Plus(Counts(1, |item.subs|, 0, if vs[0].stat.None? then 1 else 0)), goal)
  {
    hide VideoItem;
    var item := VideoItem(o, vs[0], dir, pool, parent, next);
    Regroup(kids, [Tree((), item, [])], WalkVideos(o, vs[1..], dir, pool, parent, next + 1).kids);
  }

  /** Trees of nodes made for a parent: in shape, and no node twice. */
  ghost predicate Made(ks: seq<Tree<Node>>, parent: Node)
    reads NodesOf(ks)
  {
    Shapes(ks, parent) && DistinctAll(ks)
  }

  lemma MakeOne(ks: seq<Tree<Node>>, k: Tree<Node>, parent: Node)
    requires Made(ks, parent) && Made(k.kids, k.node) && k.node !in NodesOf(k.kids) && NodesOf(ks) !! Nodes(k)
    requires k.node.Data() == k.item && k.node.parent == parent && k.node.children == Roots(k.kids)
    ensures Made(ks + [k], parent) && NodesOf(ks + [k]) == NodesOf(ks) + Nodes(k)
    ensures Roots(ks + [k]) == Roots(ks) + [k.node]
    ensures EraseAll(ks + [k]) == EraseAll(ks) + [Tree((), k.item, EraseAll(k.kids))]
  {
    One(k, parent);
    NodesAppend(ks, [k]);
    DistinctAppend(ks, [k]);
    ShapesAppend(ks, [k], parent);
    EraseAppend(ks, [k]);
    assert [k][1..] == [];
  }

  lemma IndexOne(m: map<int, Node>, ks: seq<Tree<Node>>, k: Tree<Node>)
    ensures AddAll(m, ks + [k]) == AddAll(AddAll(m, ks)[k.item.id := k.node], k.kids)
  {
    AddAppend(m, ks, [k]);
    assert [k][1..] == [];
  }

  /** One video node, with its subtitles, numbered and indexed. */
  method MakeVideo(b: Builder, o: Options, parent: Node, e: Entry, pool: seq<string>) returns (node: Node)
    requires e.File?
    modifies b`byID, b`nextID, b`videos, b`subtitles, b`errors
    ensures fresh(node) && node.parent == parent && node.children == []
    ensures node.Data() == VideoItem(o, e, parent.path, pool, parent.id, old(b.nextID))
    ensures b.nextID == old(b.nextID) + 1 && b.byID == old(b.byID)[node.id := node]
    ensures Tally(b) == old(Tally(b)).Plus(Counts(1, |node.subs|, 0, if e.stat.None? then 1 else 0))
  {
    hide Matched, VideoTitle, Join;
    var full := Join(parent.path, e.name);
    if e.stat.None? {
      b.errors := b.errors + 1;
    }
    var subs := MatchSubtitles(o.env, full, pool, o.subLang);
    var size := if e.stat.Some? then e.stat.value.size else 0;
    var mod := if e.stat.Some? then e.stat.value.mod else 0;
    node := new Node(0, parent.id, Video, VideoTitle(e.name), full, size, mod, subs, parent);
    b.subtitles := b.subtitles + |subs|;
    var id := b.AllocID(node);
    b.videos := b.videos + 1;
  }

  method AddVideos(b: Builder, o: Options, parent: Node, vs: seq<Entry>, pool: seq<string>) returns (ghost ks: seq<Tree<Node>>)
    requires forall v :: v in vs ==> v.File?
    modifies b`byID, b`nextID, b`videos, b`subtitles, b`errors, parent`children
    ensures var w := WalkVideos(o, vs, parent.path, pool, parent.id, old(b.nextID));
            EraseAll(ks) == w.kids && b.nextID == w.next && Tally(b) == old(Tally(b)).Plus(w.counts)
    ensures b.byID == AddAll(old(b.byID), ks)
    ensures parent.children == old(parent.children) + Roots(ks) && Made(ks, parent) && fresh(NodesOf(ks))
  {
    hide VideoItem, WalkVideos, Made, VideosLeft;
    ks := [];
    ghost var goal := GoalOfVideos(o, vs, parent.path, pool, parent.id, b.nextID, Tally(b));
    MadeNothing(b.byID, parent);
    VideosStart(o, vs, parent.path, pool, parent.id, b.nextID, Tally(b));
    for i := 0 to |vs|
      invariant VideosLeft(o, vs[i..], parent.path, pool, parent.id, b.nextID, EraseAll(ks), Tally(b), goal)
      invariant b.byID == AddAll(old(b.byID), ks)
      invariant parent.children == old(parent.children) + Roots(ks) && Made(ks, parent)
      invariant fresh(NodesOf(ks)) && allocated(NodesOf(ks))
    {
      VideosStep(o, vs[i..], parent.path, pool, parent.id, b.nextID, EraseAll(ks), Tally(b), goal);
      assert vs[i..][0] == vs[i] && vs[i..][1..] == vs[i + 1..];
      ghost var made := NodesOf(ks);
      var node := MakeVideo(b, o, parent, vs[i], pool);
      ghost var k := Tree(node, node.Data(), []);
      MadeNothing(b.byID, node);
      MakeOne(ks, k, parent);
      IndexOne(old(b.byID), ks, k);
      parent.children := parent.children + [node];
      ks := ks + [k];
    }
    VideosDone(o, vs, parent.path, pool, parent.id, b.nextID, EraseAll(ks), Tally(b), goal);
  }

  ghost function GoalOfVideos(o: Options, vs: seq<Entry>, dir: string, pool: seq<string>, parent: int, next: nat, tally: Counts): Plan
    requires forall v :: v in vs ==> v.File?
  {
    var w := WalkVideos(o, vs, dir, pool, parent, next);
    w.(counts := tally.Plus(w.counts))
  }

  lemma MadeNothing(m: map<int, Node>, parent: Node)
    ensures Made([], parent) && AddAll(m, []) == m && EraseAll([]) == [] && NodesOf([]) == {} && Roots([]) == []
  {
  }

  lemma VideosStart(o: Options, vs: seq<Entry>, dir: string, pool: seq<string>, parent: int, next: nat, tally: Counts)
    requires forall v :: v in vs ==> v.File?
    ensures VideosLeft(o, vs, dir, pool, parent, next, [], tally, GoalOfVideos(o, vs, dir, pool, parent, next, tally))
    ensures vs[0..] == vs
  {
  }

  lemma VideosDone(o: Options, vs: seq<Entry>, dir: string, pool: seq<string>, parent: int, next: nat,
                   kids: seq<Tree<()>>, tally: Counts, goal: Plan)
    requires forall v :: v in vs ==> v.File?
    requires VideosLeft(o, vs[|vs|..], dir, pool, parent, next, kids, tally, goal)
    ensures kids == goal.kids && next == goal.next && tally == goal.counts
  {
    assert kids + [] == kids;
  }

  ghost function GoalOfFolders(o: Options, ds: seq<Entry>, dir: string, parent: int, depth: nat, next: nat, tally: Counts): Plan
    requires forall d :: d in ds ==> d.Folder?
  {
    var w := WalkFolders(o, ds, dir, parent, depth, next);
    w.(counts := tally.Plus(w.counts))
  }

  lemma FoldersStart(o: Options, ds: seq<Entry>, dir: string, parent: int, depth: nat, next: nat, tally: Counts)
    requires forall d :: d in ds ==> d.Folder?
    ensures FoldersLeft(o, ds, dir, parent, depth, next, [], tally, GoalOfFolders(o, ds, dir, parent, depth, next, tally))
    ensures ds[0..] == ds
  {
  }

  lemma FoldersDone(o: Options, ds: seq<Entry>, dir: string, parent: int, depth: nat, next: nat,
                    kids: seq<Tree<()>>, tally: Counts, goal: Plan)
    requires forall d :: d in ds ==> d.Folder?
    requires FoldersLeft(o, ds[|ds|..], dir, parent, depth, next, kids, tally, goal)
    ensures kids == goal.kids && next == goal.next && tally == goal.counts
  {
    assert kids + [] == kids;
  }

  /** A container node, numbered and indexed before anything below it. */
  method MakeFolder(b: Builder, parent: Node, e: Entry) returns (child: Node)
    requires e.Folder?
    modifies b`byID, b`nextID
    ensures fresh(child) && child.parent == parent && child.children == []
    ensures child.Data() == FolderItem(e, parent.path, parent.id, old(b.nextID))
    ensures b.nextID == old(b.nextID) + 1 && b.byID == old(b.byID)[child.id := child]
  {
    hide Join;
    var mod := if e.changed.Some? then e.changed.value else 0;
    child := new Node(0, parent.id, Container, e.name, Join(parent.path, e.name), 0, mod, [], parent);
    var id := b.AllocID(child);
  }

  /** A folder and everything below it. */
  method MakeSubtree(b: Builder, o: Options, parent: Node, e: Entry, depth: nat)
    returns (child: Node, ghost below: seq<Tree<Node>>)
    requires e.Folder?
    modifies b`byID, b`nextID, b`videos, b`subtitles, b`skipped, b`errors
    ensures var w := WalkFolder(o, e.readable, e.entries, Join(parent.path, e.name), old(b.nextID), depth + 1, old(b.nextID) + 1);
            EraseAll(below) == w.kids && b.nextID == w.next && Tally(b) == old(Tally(b)).Plus(w.counts)
    ensures b.byID == AddAll(old(b.byID)[child.id := child], below)
    ensures fresh(child) && fresh(NodesOf(below)) && child !in NodesOf(below)
    ensures child.parent == parent && child.children == Roots(below) && Made(below, child)
    ensures child.Data() == FolderItem(e, parent.path, parent.id, old(b.nextID))
    decreases HeightOf(e.entries), 3
  {
    hide WalkFolder, Made, HeightOf;
    child := MakeFolder(b, parent, e);
    below := Walk(b, o, child, e.readable, e.entries, depth + 1);
  }

  lemma IndexBelow(m: map<int, Node>, ks: seq<Tree<Node>>, k: Tree<Node>, m': map<int, Node>)
    requires m' == AddAll(AddAll(m, ks)[k.item.id := k.node], k.kids)
    ensures m' == AddAll(m, ks + [k])
  {
    IndexOne(m, ks, k);
  }

  method AddFolders(b: Builder, o: Options, parent: Node, ds: seq<Entry>, depth: nat) returns (ghost ks: seq<Tree<Node>>)
    requires forall d :: d in ds ==> d.Folder?
    modifies b`byID, b`nextID, b`videos, b`subtitles, b`skipped, b`errors, parent`children
    ensures var w := WalkFolders(o, ds, parent.path, parent.id, depth, old(b.nextID));
            EraseAll(ks) == w.kids && b.nextID == w.next && Tally(b) == old(Tally(b)).Plus(w.counts)
    ensures b.byID == AddAll(old(b.byID), ks)
    ensures parent.children == old(parent.children) + Roots(ks) && Made(ks, parent) && fresh(NodesOf(ks))
    decreases HeightOf(ds), 0
  {
    hide FolderItem, WalkFolders, WalkFolder, Made, FoldersLeft, Height, HeightOf, AddAll, EraseAll, Roots, Join;
    ks := [];
    ghost var goal := GoalOfFolders(o, ds, parent.path, parent.id, depth, b.nextID, Tally(b));
    MadeNothing(b.byID, parent);
    FoldersStart(o, ds, parent.path, parent.id, depth, b.nextID, Tally(b));
    for i := 0 to |ds|
      invariant FoldersLeft(o, ds[i..], parent.path, parent.id, depth, b.nextID, EraseAll(ks), Tally(b), goal)
      invariant b.byID == AddAll(old(b.byID), ks)
      invariant parent.children == old(parent.children) + Roots(ks) && Made(ks, parent)
      invariant fresh(NodesOf(ks)) && allocated(NodesOf(ks))
    {
      FoldersStep(o, ds[i..], parent.path, parent.id, depth, b.nextID, EraseAll(ks), Tally(b), goal);
      assert ds[i..][0] == ds[i] && ds[i..][1..] == ds[i + 1..];
      Shallower(ds, i);
      var child, below := MakeSubtree(b, o, parent, ds[i], depth);
      ghost var k := Tree(child, child.Data(), below);
      MakeOne(ks, k, parent);
      IndexBelow(old(b.byID), ks, k, b.byID);
      parent.children := parent.children + [child];
      ks := ks + [k];
    }
    FoldersDone(o, ds, parent.path, parent.id, depth, b.nextID, EraseAll(ks), Tally(b), goal);
  }

  lemma Shallower(ds: seq<Entry>, i: nat)
    requires i < |ds| && ds[i].Folder?
    ensures HeightOf(ds[i].entries) < HeightOf(ds)
  {
    HeightMember(ds, ds[i]);
  }

  /** Everything below one directory. */
  method Walk(b: Builder, o: Options, parent: Node, readable: bool, entries: seq<Entry>, depth: nat)
    returns (ghost ks: seq<Tree<Node>>)
    requires parent.children == []
    modifies b`byID, b`nextID, b`videos, b`subtitles, b`skipped, b`errors, parent`children
    ensures var w := WalkFolder(o, readable, entries, parent.path, parent.id, depth, old(b.nextID));
            EraseAll(ks) == w.kids && b.nextID == w.next && Tally(b) == old(Tally(b)).Plus(w.counts)
    ensures b.byID == AddAll(old(b.byID), ks)
    ensures parent.children == Roots(ks) && Made(ks, parent) && fresh(NodesOf(ks))
    decreases HeightOf(entries), 2
  {
    hide WalkFolders, WalkVideos, Made, StableSort, OfClass, PoolOf, EntryOrder, HeightOf, InSequence, ClassOf;
    ks := [];
    MadeNothing(b.byID, parent);
    if o.maxDepth > 0 && depth >= o.maxDepth {
      return;
    }
    if !readable {
      b.errors := b.errors + 1;
      return;
    }
    var dirs, vids, pool, skipped := Classify(o, entries, parent.path);
    b.skipped := b.skipped + skipped;
    dirs := SortEntries(o.env.lower, dirs);
    vids := SortEntries(o.env.lower, vids);
    SortedByClass(o, entries);
    ks := AddBoth(b, o, parent, dirs, vids, pool, depth);
  }

  lemma SortedByClass(o: Options, es: seq<Entry>)
    ensures StableSort(OfClass(o, es, Browse), EntryOrder(o.env.lower)) == InSequence(o, es, Browse)
    ensures StableSort(OfClass(o, es, Play), EntryOrder(o.env.lower)) == InSequence(o, es, Play)
    ensures forall d :: d in InSequence(o, es, Browse) ==> d.Folder?
    ensures forall v :: v in InSequence(o, es, Play) ==> v.File?
    ensures HeightOf(InSequence(o, es, Browse)) <= HeightOf(es)
  {
    HeightSubset(InSequence(o, es, Browse), es);
  }

  /** The folders of a directory, then its videos. */
  method AddBoth(b: Builder, o: Options, parent: Node, dirs: seq<Entry>, vids: seq<Entry>, pool: seq<string>, depth: nat)
    returns (ghost ks: seq<Tree<Node>>)
    requires (forall d :: d in dirs ==> d.Folder?) && (forall v :: v in vids ==> v.File?) && parent.children == []
    modifies b`byID, b`nextID, b`videos, b`subtitles, b`skipped, b`errors, parent`children
    ensures var f := WalkFolders(o, dirs, parent.path, parent.id, depth, old(b.nextID));
            var v := WalkVideos(o, vids, parent.path, pool, parent.id, f.next);
            && EraseAll(ks) == f.kids + v.kids && b.nextID == v.next
            && Tally(b) == old(Tally(b)).Plus(f.counts).Plus(v.counts)
    ensures b.byID == AddAll(old(b.byID), ks)
    ensures parent.children == Roots(ks) && Made(ks, parent) && fresh(NodesOf(ks))
    decreases HeightOf(dirs), 1
  {
    hide WalkFolders, WalkVideos, Made, HeightOf;
    ghost var folders := AddFolders(b, o, parent, dirs, depth);
    assert allocated(NodesOf(folders));
    ghost var videos := AddVideos(b, o, parent, vids, pool);
    MakeAll(folders, videos, parent);
    AddAppend(old(b.byID), folders, videos);
    ks := folders + videos;
  }

  lemma MakeAll(a: seq<Tree<Node>>, b: seq<Tree<Node>>, parent: Node)
    requires Made(a, parent) && Made(b, parent) && NodesOf(a) !! NodesOf(b)
    ensures Made(a + b, parent) && NodesOf(a + b) == NodesOf(a) + NodesOf(b)
    ensures Roots(a + b) == Roots(a) + Roots(b) && EraseAll(a + b) == EraseAll(a) + EraseAll(b)
  {
    NodesAppend(a, b);
    DistinctAppend(a, b);
    ShapesAppend(a, b, parent);
    EraseAppend(a, b);
  }

  // The root.

  /** The walk of the whole media folder: the root is number 0 at depth 0. */
  function WholeWalk(o: Options, d: Entry, path: string): Plan
    requires d.Folder?
  {
    WalkFolder(o, d.readable, d.entries, path, 0, 0, 1)
  }

  lemma WalkFromRoot(o: Options, d: Entry, path: string, parent: int, depth: nat, next: nat)
    requires d.Folder? && parent == 0 && depth == 0 && next == 1
    ensures WalkFolder(o, d.readable, d.entries, path, parent, depth, next) == WholeWalk(o, d, path)
  {
  }

  lemma PlantRoot(root: Node, ks: seq<Tree<Node>>)
    requires root.children == Roots(ks) && Made(ks, root) && root !in NodesOf(ks) && root.parent == null
    ensures var t := Tree(root, root.Data(), ks);
            Shape(t, null) && Distinct(t) && Nodes(t) == {root} + NodesOf(ks)
  {
  }

  /** The walk below the root. */
  method Grow(o: Options, b: Builder, top: Node, d: Entry) returns (ghost kids: seq<Tree<Node>>)
    requires d.Folder? && top.children == [] && top.parent == null && top.id == 0
    requires b.nextID == 1
    modifies b`byID, b`nextID, b`videos, b`subtitles, b`skipped, b`errors, top`children
    ensures var t := Tree(top, old(top.Data()), kids);
            Shape(t, null) && Distinct(t) && fresh(NodesOf(kids))
    ensures EraseAll(kids) == WholeWalk(o, d, top.path).kids && b.byID == AddAll(old(b.byID), kids)
    ensures b.skipped == old(b.skipped) + WholeWalk(o, d, top.path).counts.skipped
    ensures b.errors == old(b.errors) + WholeWalk(o, d, top.path).counts.errors
  {
    hide WalkFolder, WholeWalk, AddAll, EraseAll, Made, Shape, Distinct;
    WalkFromRoot(o, d, top.path, top.id, 0, b.nextID);
    kids := Walk(b, o, top, d.readable, d.entries, 0);
    PlantRoot(top, kids);
  }
}
