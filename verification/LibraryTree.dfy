/** What a scan does to the media tree, on values: probing, refusing, pruning and sorting. */
module LibraryTree {
  import opened Bytes
  import opened Ordering
  import opened Subtitles

  datatype Kind = Container | Video

  datatype Info = Info(duration: int, width: int, height: int)

  const UNKNOWN := Info(0, 0, 0)

  /** The fields of a node other than its links. */
  datatype Item = Item(id: int, parentID: int, kind: Kind, title: string, path: string, size: int, mod: int,
                       subs: seq<Subtitle>, info: Info, rejected: bool, reason: string)

  /** A tree of nodes; N is what identifies a node, such as its reference. */
  datatype Tree<N> = Tree(node: N, item: Item, kids: seq<Tree<N>>)

  // What a tree holds, in browse order.

  function Videos<N>(t: Tree<N>): seq<Item> {
    if t.item.kind == Video then [t.item] else VideosOf(t.kids)
  }

  function VideosOf<N>(ks: seq<Tree<N>>): seq<Item> {
    if ks == [] then [] else Videos(ks[0]) + VideosOf(ks[1..])
  }

  function Folders<N>(t: Tree<N>): seq<Item> {
    if t.item.kind == Video then [] else [t.item] + FoldersOf(t.kids)
  }

  function FoldersOf<N>(ks: seq<Tree<N>>): seq<Item> {
    if ks == [] then [] else Folders(ks[0]) + FoldersOf(ks[1..])
  }

  /** The folders that hold a video somewhere below them. */
  function BusyFolders<N>(t: Tree<N>): seq<Item> {
    if t.item.kind == Video || VideosOf(t.kids) == [] then [] else [t.item] + BusyFoldersOf(t.kids)
  }

  function BusyFoldersOf<N>(ks: seq<Tree<N>>): seq<Item> {
    if ks == [] then [] else BusyFolders(ks[0]) + BusyFoldersOf(ks[1..])
  }

  function Filter(items: seq<Item>, keep: Item -> bool): seq<Item> {
    if items == [] then [] else (if keep(items[0]) then [items[0]] else []) + Filter(items[1..], keep)
  }

  function Served(items: seq<Item>): seq<Item> {
    Filter(items, (i: Item) => !i.rejected)
  }

  function Refused(items: seq<Item>): seq<Item> {
    Filter(items, (i: Item) => i.rejected)
  }

  function SubtitleCount(items: seq<Item>): nat {
    if items == [] then 0 else |items[0].subs| + SubtitleCount(items[1..])
  }

  // Probing.

  datatype Verdict = Verdict(serve: bool, reason: string, info: Info)

  /** The Validator, absent when every file is served, and the container header probe. */
  datatype Probes = Probes(validate: Option<(string, int, int) -> Verdict>, probeFile: string -> Info)

  /** One video after probing: refused with a reason, or served with what is known about it. */
  function Judge(p: Probes, i: Item): Item {
    if p.validate.None? then i.(info := p.probeFile(i.path))
    else
      var v := p.validate.value(i.path, i.size, i.mod);
      if !v.serve then i.(rejected := true, reason := v.reason)
      else if v.info.duration == 0 && v.info.width == 0 then i.(info := p.probeFile(i.path))
      else i.(info := v.info)
  }

  /** The tree once the videos among the given nodes have been probed. */
  function JudgeIn<N(==)>(p: Probes, t: Tree<N>, done: set<N>): Tree<N> {
    Tree(t.node, if t.item.kind == Video && t.node in done then Judge(p, t.item) else t.item,
         JudgeInAll(p, t.kids, done))
  }

  function JudgeInAll<N(==)>(p: Probes, ks: seq<Tree<N>>, done: set<N>): seq<Tree<N>> {
    if ks == [] then [] else [JudgeIn(p, ks[0], done)] + JudgeInAll(p, ks[1..], done)
  }

  function JudgeItems(p: Probes, items: seq<Item>): seq<Item> {
    if items == [] then [] else [Judge(p, items[0])] + JudgeItems(p, items[1..])
  }

  /** The videos of a tree as nodes, in the order they are collected for probing. */
  function VideoNodes<N>(t: Tree<N>): seq<N> {
    if t.item.kind == Video then [t.node] else VideoNodesOf(t.kids)
  }

  function VideoNodesOf<N>(ks: seq<Tree<N>>): seq<N> {
    if ks == [] then [] else VideoNodes(ks[0]) + VideoNodesOf(ks[1..])
  }

  // Refusing.

  datatype Rejected = Rejected(title: string, path: string, size: int, mod: int, reason: string)

  function Record(i: Item): Rejected {
    Rejected(i.title, i.path, i.size, i.mod, i.reason)
  }

  function Records(items: seq<Item>): seq<Rejected> {
    if items == [] then [] else [Record(items[0])] + Records(items[1..])
  }

  function Drop<N>(t: Tree<N>): Tree<N>
    decreases t, 0
  {
    t.(kids := DropKids(t.kids))
  }

  function DropOne<N>(c: Tree<N>): seq<Tree<N>>
    decreases c, 1
  {
    if c.item.kind == Video && c.item.rejected then [] else if c.item.kind == Container then [Drop(c)] else [c]
  }

  function DropKids<N>(ks: seq<Tree<N>>): seq<Tree<N>>
    decreases ks, 1
  {
    if ks == [] then [] else DropOne(ks[0]) + DropKids(ks[1..])
  }

  function Refusals<N>(t: Tree<N>): seq<Rejected>
    decreases t, 0
  {
    RefusalsOf(t.kids)
  }

  function RefusalsOne<N>(c: Tree<N>): seq<Rejected>
    decreases c, 1
  {
    if c.item.kind == Video && c.item.rejected then [Record(c.item)]
    else if c.item.kind == Container then Refusals(c) else []
  }

  function RefusalsOf<N>(ks: seq<Tree<N>>): seq<Rejected>
    decreases ks, 1
  {
    if ks == [] then [] else RefusalsOne(ks[0]) + RefusalsOf(ks[1..])
  }

  // Pruning.

  function Prune<N>(t: Tree<N>): (r: Tree<N>)
    ensures r.item == t.item && r.node == t.node
    decreases t, 0
  {
    if t.item.kind == Video then t else t.(kids := PruneKids(t.kids))
  }

  predicate Kept<N>(pruned: Tree<N>) {
    pruned.item.kind == Video || pruned.kids != []
  }

  function PruneOne<N>(c: Tree<N>): seq<Tree<N>>
    decreases c, 1
  {
    if Kept(Prune(c)) then [Prune(c)] else []
  }

  function PruneKids<N>(ks: seq<Tree<N>>): seq<Tree<N>>
    decreases ks, 1
  {
    if ks == [] then [] else PruneOne(ks[0]) + PruneKids(ks[1..])
  }

  // Sorting.

  predicate SiblingLess(lower: string -> string, k: Kind, a: string, l: Kind, b: string) {
    if k != l then k == Container else LessFold(lower, a, b)
  }

  /** Folders first, then case-insensitive titles. */
  function TreeOrder<N>(lower: string -> string): (Tree<N>, Tree<N>) -> bool {
    (a: Tree<N>, b: Tree<N>) => SiblingLess(lower, a.item.kind, a.item.title, b.item.kind, b.item.title)
  }

  function Sort<N>(lower: string -> string, t: Tree<N>): (r: Tree<N>)
    ensures r.item == t.item && r.node == t.node
  {
    if t.item.kind == Video then t else t.(kids := StableSort(SortKids(lower, t.kids), TreeOrder(lower)))
  }

  function SortKids<N>(lower: string -> string, ks: seq<Tree<N>>): (r: seq<Tree<N>>)
    ensures |r| == |ks|
  {
    if ks == [] then [] else [Sort(lower, ks[0])] + SortKids(lower, ks[1..])
  }

  /** What a scan publishes of the tree it has walked and probed. */
  function Published<N>(lower: string -> string, t: Tree<N>): Tree<N> {
    Sort(lower, Prune(Drop(t)))
  }

  // Lists of children.

  lemma {:induction false} VideosAppend<N>(a: seq<Tree<N>>, b: seq<Tree<N>>)
    ensures VideosOf(a + b) == VideosOf(a) + VideosOf(b)
  {
    if a == [] {
      assert a + b == b;
    } else {
      assert (a + b)[0] == a[0] && (a + b)[1..] == a[1..] + b;
      VideosAppend(a[1..], b);
    }
  }

  lemma {:induction false} FoldersAppend<N>(a: seq<Tree<N>>, b: seq<Tree<N>>)
    ensures FoldersOf(a + b) == FoldersOf(a) + FoldersOf(b)
  {
    if a == [] {
      assert a + b == b;
    } else {
      assert (a + b)[0] == a[0] && (a + b)[1..] == a[1..] + b;
      FoldersAppend(a[1..], b);
    }
  }

  lemma {:induction false} FilterAppend(a: seq<Item>, b: seq<Item>, keep: Item -> bool)
    ensures Filter(a + b, keep) == Filter(a, keep) + Filter(b, keep)
  {
    if a == [] {
      assert a + b == b;
    } else {
      var head := if keep(a[0]) then [a[0]] else [];
      assert (a + b)[0] == a[0] && (a + b)[1..] == a[1..] + b;
      FilterAppend(a[1..], b, keep);
      assert Filter(a + b, keep) == head + Filter((a + b)[1..], keep);
      assert Filter(a, keep) == head + Filter(a[1..], keep);
    }
  }

  lemma {:induction false} RecordsAppend(a: seq<Item>, b: seq<Item>)
    ensures Records(a + b) == Records(a) + Records(b)
  {
    if a == [] {
      assert a + b == b;
    } else {
      assert (a + b)[0] == a[0] && (a + b)[1..] == a[1..] + b;
      RecordsAppend(a[1..], b);
    }
  }

  lemma {:induction false} JudgeAppend(p: Probes, a: seq<Item>, b: seq<Item>)
    ensures JudgeItems(p, a + b) == JudgeItems(p, a) + JudgeItems(p, b)
  {
    hide Judge;
    if a == [] {
      assert a + b == b;
    } else {
      assert (a + b)[0] == a[0] && (a + b)[1..] == a[1..] + b;
      JudgeAppend(p, a[1..], b);
    }
  }

  lemma {:induction false} SubtitlesAppend(a: seq<Item>, b: seq<Item>)
    ensures SubtitleCount(a + b) == SubtitleCount(a) + SubtitleCount(b)
  {
    if a == [] {
      assert a + b == b;
    } else {
      assert (a + b)[0] == a[0] && (a + b)[1..] == a[1..] + b;
      SubtitlesAppend(a[1..], b);
    }
  }

  // Probing every video.

  lemma {:induction false} JudgeInVideos<N>(p: Probes, ks: seq<Tree<N>>, done: set<N>)
    requires forall v :: v in VideoNodesOf(ks) ==> v in done
    ensures VideosOf(JudgeInAll(p, ks, done)) == JudgeItems(p, VideosOf(ks))
    ensures FoldersOf(JudgeInAll(p, ks, done)) == FoldersOf(ks)
    decreases ks
  {
    hide Judge;
    if ks != [] {
      var c := ks[0];
      forall v | v in VideoNodes(c) || v in VideoNodesOf(ks[1..])
        ensures v in done
      {
        assert v in VideoNodesOf(ks);
      }
      JudgeInVideos(p, ks[1..], done);
      if c.item.kind == Video {
        assert c.node in VideoNodes(c);
        JudgeKeepsKind(p, c.item);
        assert JudgeItems(p, [c.item]) == [Judge(p, c.item)];
      } else {
        JudgeInVideos(p, c.kids, done);
      }
      JudgeAppend(p, Videos(c), VideosOf(ks[1..]));
    }
  }

  lemma JudgeKeepsKind(p: Probes, i: Item)
    ensures Judge(p, i).kind == i.kind
  {
  }

  // Refusing: the videos are split, in order, between the tree and the list of refusals.

  lemma {:induction false} DropSplits<N>(ks: seq<Tree<N>>)
    ensures VideosOf(DropKids(ks)) == Served(VideosOf(ks))
    ensures RefusalsOf(ks) == Records(Refused(VideosOf(ks)))
    ensures FoldersOf(DropKids(ks)) == FoldersOf(ks)
    decreases ks
  {
    if ks != [] {
      var c, rest := ks[0], ks[1..];
      DropSplits(rest);
      DropOneSplits(c);
      VideosAppend(DropOne(c), DropKids(rest));
      FoldersAppend(DropOne(c), DropKids(rest));
      FilterAppend(Videos(c), VideosOf(rest), (i: Item) => !i.rejected);
      FilterAppend(Videos(c), VideosOf(rest), (i: Item) => i.rejected);
      RecordsAppend(Refused(Videos(c)), Refused(VideosOf(rest)));
    }
  }

  lemma {:induction false} DropOneSplits<N>(c: Tree<N>)
    ensures VideosOf(DropOne(c)) == Served(Videos(c))
    ensures RefusalsOne(c) == Records(Refused(Videos(c)))
    ensures FoldersOf(DropOne(c)) == Folders(c)
    decreases c
  {
    if c.item.kind == Container {
      DropSplits(c.kids);
      SingleTree(Drop(c));
    } else {
      SingleTree(c);
      FilterOne(c.item, (i: Item) => !i.rejected);
      FilterOne(c.item, (i: Item) => i.rejected);
      assert Records([c.item]) == [Record(c.item)];
    }
  }

  lemma FilterOne(i: Item, keep: Item -> bool)
    ensures Filter([i], keep) == if keep(i) then [i] else []
  {
    assert [i][1..] == [] && Filter([], keep) == [];
  }

  lemma SingleTree<N>(c: Tree<N>)
    ensures VideosOf([c]) == Videos(c) && FoldersOf([c]) == Folders(c)
  {
    assert [c][1..] == [];
  }

  /** Filtering by a test and by its opposite loses and duplicates nothing. */
  lemma {:induction false} FilterPartitions(items: seq<Item>)
    ensures multiset(items) == multiset(Served(items)) + multiset(Refused(items))
    ensures forall i :: i in Served(items) ==> !i.rejected
  {
    if items != [] {
      FilterPartitions(items[1..]);
      assert items == [items[0]] + items[1..];
    }
  }

  // Pruning: no video is lost, and exactly the folders with a video below are kept.

  lemma {:induction false} PruneKeeps<N>(ks: seq<Tree<N>>)
    ensures VideosOf(PruneKids(ks)) == VideosOf(ks)
    ensures FoldersOf(PruneKids(ks)) == BusyFoldersOf(ks)
    ensures PruneKids(ks) == [] <==> VideosOf(ks) == []
    decreases ks
  {
    if ks != [] {
      PruneKeeps(ks[1..]);
      PruneOneKeeps(ks[0]);
      VideosAppend(PruneOne(ks[0]), PruneKids(ks[1..]));
      FoldersAppend(PruneOne(ks[0]), PruneKids(ks[1..]));
    }
  }

  lemma {:induction false} PruneOneKeeps<N>(c: Tree<N>)
    ensures VideosOf(PruneOne(c)) == Videos(c)
    ensures FoldersOf(PruneOne(c)) == BusyFolders(c)
    ensures PruneOne(c) == [] <==> Videos(c) == []
    decreases c
  {
    SingleTree(Prune(c));
    if c.item.kind == Container {
      PruneKeeps(c.kids);
    }
  }

  /** Every container among these children, at any depth, has a video below it. */
  predicate NoEmptyFolder<N>(ks: seq<Tree<N>>) {
    ks == [] || (Videos(ks[0]) != [] && (ks[0].item.kind == Container ==> NoEmptyFolder(ks[0].kids)) && NoEmptyFolder(ks[1..]))
  }

  lemma {:induction false} NoEmptyAppend<N>(a: seq<Tree<N>>, b: seq<Tree<N>>)
    ensures NoEmptyFolder(a + b) <==> NoEmptyFolder(a) && NoEmptyFolder(b)
  {
    if a == [] {
      assert a + b == b;
    } else {
      assert (a + b)[0] == a[0] && (a + b)[1..] == a[1..] + b;
      NoEmptyAppend(a[1..], b);
    }
  }

  lemma {:induction false} PruneEmpties<N>(ks: seq<Tree<N>>)
    ensures NoEmptyFolder(PruneKids(ks))
    decreases ks
  {
    if ks != [] {
      PruneEmpties(ks[1..]);
      var c := ks[0];
      PruneOneKeeps(c);
      SingleTree(Prune(c));
      if c.item.kind == Container {
        PruneEmpties(c.kids);
      }
      assert NoEmptyFolder(PruneOne(c)) by {
        assert [Prune(c)][1..] == [];
      }
      NoEmptyAppend(PruneOne(c), PruneKids(ks[1..]));
    }
  }

  // Sorting: the same nodes, in order at every level.

  /** At every level the children are in order. */
  ghost predicate InOrder<N>(lower: string -> string, ks: seq<Tree<N>>) {
    Sorted(ks, TreeOrder(lower)) && EachInOrder(lower, ks)
  }

  ghost predicate EachInOrder<N>(lower: string -> string, ks: seq<Tree<N>>)
    decreases ks, 0
  {
    forall k :: k in ks && k.item.kind == Container ==> InOrder(lower, k.kids)
  }

  /** Everything a permutation of children leaves alone. */
  ghost predicate SameContents<N>(a: seq<Tree<N>>, b: seq<Tree<N>>) {
    && multiset(VideosOf(a)) == multiset(VideosOf(b))
    && multiset(FoldersOf(a)) == multiset(FoldersOf(b))
    && (NoEmptyFolder(a) <==> NoEmptyFolder(b))
  }

  lemma InsertContents<N>(s: seq<Tree<N>>, x: Tree<N>, less: (Tree<N>, Tree<N>) -> bool)
    ensures SameContents(Insert(s, x, less), s + [x])
  {
    hide VideosOf, FoldersOf, NoEmptyFolder, Position;
    var p := Position(s, x, less);
    var a, b := s[..p], s[p..];
    assert s == a + b;
    VideosAppend(a, b);
    VideosAppend(s, [x]);
    VideosAppend(a, [x]);
    VideosAppend(a + [x], b);
    FoldersAppend(a, b);
    FoldersAppend(s, [x]);
    FoldersAppend(a, [x]);
    FoldersAppend(a + [x], b);
    NoEmptyAppend(a, b);
    NoEmptyAppend(s, [x]);
    NoEmptyAppend(a, [x]);
    NoEmptyAppend(a + [x], b);
  }

  lemma {:induction false} SortContents<N>(s: seq<Tree<N>>, less: (Tree<N>, Tree<N>) -> bool)
    ensures SameContents(StableSort(s, less), s)
  {
    hide VideosOf, FoldersOf, NoEmptyFolder, Insert;
    if s != [] {
      var a, x := s[..|s| - 1], s[|s| - 1];
      SortContents(a, less);
      var m := StableSort(a, less);
      InsertContents(m, x, less);
      assert s == a + [x];
      VideosAppend(a, [x]);
      VideosAppend(m, [x]);
      FoldersAppend(a, [x]);
      FoldersAppend(m, [x]);
      NoEmptyAppend(a, [x]);
      NoEmptyAppend(m, [x]);
    }
  }

  /** Two trees a change of order below them cannot tell apart. */
  ghost predicate SameTree<N>(x: Tree<N>, y: Tree<N>) {
    && x.item == y.item
    && multiset(Videos(x)) == multiset(Videos(y)) && multiset(Folders(x)) == multiset(Folders(y))
    && (NoEmptyFolder(x.kids) <==> NoEmptyFolder(y.kids))
  }

  lemma ConsVideos<N>(x: Tree<N>, a: seq<Tree<N>>, y: Tree<N>, b: seq<Tree<N>>)
    requires multiset(Videos(x)) == multiset(Videos(y)) && multiset(VideosOf(a)) == multiset(VideosOf(b))
    ensures multiset(VideosOf([x] + a)) == multiset(VideosOf([y] + b))
  {
    hide Videos;
    assert ([x] + a)[1..] == a && ([y] + b)[1..] == b;
  }

  lemma ConsFolders<N>(x: Tree<N>, a: seq<Tree<N>>, y: Tree<N>, b: seq<Tree<N>>)
    requires multiset(Folders(x)) == multiset(Folders(y)) && multiset(FoldersOf(a)) == multiset(FoldersOf(b))
    ensures multiset(FoldersOf([x] + a)) == multiset(FoldersOf([y] + b))
  {
    hide Folders;
    assert ([x] + a)[1..] == a && ([y] + b)[1..] == b;
  }

  lemma ConsNoEmpty<N>(x: Tree<N>, a: seq<Tree<N>>, y: Tree<N>, b: seq<Tree<N>>)
    requires SameTree(x, y) && (NoEmptyFolder(a) <==> NoEmptyFolder(b))
    ensures NoEmptyFolder([x] + a) <==> NoEmptyFolder([y] + b)
  {
    hide Videos, Folders;
    assert ([x] + a)[1..] == a && ([y] + b)[1..] == b;
    assert |multiset(Videos(x))| == |Videos(x)| && |multiset(Videos(y))| == |Videos(y)|;
  }

  lemma {:induction false} SortKidsContents<N>(lower: string -> string, ks: seq<Tree<N>>)
    ensures SameContents(SortKids(lower, ks), ks)
    decreases ks
  {
    hide Sort, VideosOf, FoldersOf, NoEmptyFolder;
    if ks != [] {
      var x, y, a, b := Sort(lower, ks[0]), ks[0], SortKids(lower, ks[1..]), ks[1..];
      SortKidsContents(lower, b);
      SortTreeContents(lower, y);
      ConsVideos(x, a, y, b);
      ConsFolders(x, a, y, b);
      ConsNoEmpty(x, a, y, b);
      assert SortKids(lower, ks) == [x] + a && ks == [y] + b;
    }
  }

  lemma {:induction false} SortTreeContents<N>(lower: string -> string, c: Tree<N>)
    ensures multiset(Videos(Sort(lower, c))) == multiset(Videos(c))
    ensures multiset(Folders(Sort(lower, c))) == multiset(Folders(c))
    ensures NoEmptyFolder(Sort(lower, c).kids) <==> NoEmptyFolder(c.kids)
    decreases c
  {
    hide StableSort, TreeOrder, NoEmptyFolder;
    if c.item.kind == Container {
      SortKidsContents(lower, c.kids);
      SortContents(SortKids(lower, c.kids), TreeOrder(lower));
    }
  }

  lemma SiblingOrderIsStrictWeak<N>(lower: string -> string, ks: seq<Tree<N>>)
    ensures StrictWeakOn(ks, TreeOrder(lower))
  {
    hide LessFold;
    var less := TreeOrder<N>(lower);
    forall x | x in ks
      ensures !less(x, x)
    {
      LessFoldTotal(lower, x.item.title, x.item.title);
    }
    forall x, y, z | x in ks && y in ks && z in ks && less(x, y) && less(y, z)
      ensures less(x, z)
    {
      if x.item.kind == y.item.kind == z.item.kind {
        LessFoldTransitive(lower, x.item.title, y.item.title, z.item.title);
      }
    }
    forall x, y, z | x in ks && y in ks && z in ks && !less(x, y) && !less(y, z)
      ensures !less(x, z)
    {
      if x.item.kind == y.item.kind == z.item.kind {
        NotLessFoldTransitive(lower, x.item.title, y.item.title, z.item.title);
      }
    }
  }

  lemma NotLessFoldTransitive(lower: string -> string, a: string, b: string, c: string)
    requires !LessFold(lower, a, b) && !LessFold(lower, b, c)
    ensures !LessFold(lower, a, c)
  {
    hide LessFold;
    LessFoldTotal(lower, a, b);
    LessFoldTotal(lower, b, c);
    LessFoldTotal(lower, a, c);
    if a != b && b != c {
      LessFoldTransitive(lower, c, b, a);
    }
  }

  lemma {:induction false} SortIsInOrder<N>(lower: string -> string, c: Tree<N>)
    requires c.item.kind == Container
    ensures InOrder(lower, Sort(lower, c).kids)
    decreases c, 1
  {
    hide StableSort, TreeOrder, Sorted;
    var less := TreeOrder<N>(lower);
    var ks := SortKids(lower, c.kids);
    SiblingOrderIsStrictWeak(lower, ks);
    SortSorts(ks, less);
    SortKidsInOrder(lower, c.kids);
    SortKeeps(ks, less);
    forall k | k in StableSort(ks, less)
      ensures k in ks
    {
      assert k in multiset(StableSort(ks, less));
    }
  }

  lemma {:induction false} SortKidsInOrder<N>(lower: string -> string, ks: seq<Tree<N>>)
    ensures EachInOrder(lower, SortKids(lower, ks))
    decreases ks, 0
  {
    hide StableSort, TreeOrder, InOrder;
    if ks != [] {
      var c := ks[0];
      SortKidsInOrder(lower, ks[1..]);
      if c.item.kind == Container {
        SortIsInOrder(lower, c);
      }
      forall k | k in SortKids(lower, ks) && k.item.kind == Container
        ensures InOrder(lower, k.kids)
      {
        if k != Sort(lower, c) {
          assert k in SortKids(lower, ks[1..]);
        }
      }
    }
  }

  // The whole pass.

  /**
   * Whatever was walked and however it was judged: every walked video is either published or listed as
   * refused, never both and never twice; refusals keep browse order; nothing refused is published; the
   * published folders below the root are exactly those with a served video below; siblings are in order.
   */
  lemma ScanConserves<N>(lower: string -> string, t: Tree<N>)
    requires t.item.kind == Container
    ensures var p := Published(lower, t);
            && multiset(Videos(t)) == multiset(Videos(p)) + multiset(Refused(Videos(t)))
            && Refusals(t) == Records(Refused(Videos(t)))
            && (forall v :: v in Videos(p) ==> !v.rejected)
            && multiset(Folders(p)) == multiset{t.item} + multiset(BusyFoldersOf(DropKids(t.kids)))
            && NoEmptyFolder(p.kids)
            && InOrder(lower, p.kids)
  {
    hide Sort, InOrder, TreeOrder, DropKids, PruneKids, VideosOf, FoldersOf, RefusalsOf, BusyFoldersOf, NoEmptyFolder, Served;
    var q := Prune(Drop(t));
    DropSplits(t.kids);
    FilterPartitions(Videos(t));
    PruneKeeps(DropKids(t.kids));
    PruneEmpties(DropKids(t.kids));
    SortTreeContents(lower, q);
    SortIsInOrder(lower, q);
    forall v | v in Videos(Sort(lower, q))
      ensures !v.rejected
    {
      assert v in multiset(Videos(Sort(lower, q)));
    }
  }

  /** Counting before sorting counts what is browsed after it. */
  lemma CountsSurviveSorting<N>(lower: string -> string, t: Tree<N>)
    ensures |Videos(Sort(lower, t))| == |Videos(t)| && |Folders(Sort(lower, t))| == |Folders(t)|
    ensures SubtitleCount(Videos(Sort(lower, t))) == SubtitleCount(Videos(t))
  {
    hide *;
    SortTreeContents(lower, t);
    assert |multiset(Videos(t))| == |Videos(t)| && |multiset(Folders(t))| == |Folders(t)|;
    assert |multiset(Videos(Sort(lower, t)))| == |Videos(Sort(lower, t))|;
    assert |multiset(Folders(Sort(lower, t)))| == |Folders(Sort(lower, t))|;
    SumIsUnordered(Videos(Sort(lower, t)), Videos(t));
  }

  lemma {:induction false} SumIsUnordered(a: seq<Item>, b: seq<Item>)
    requires multiset(a) == multiset(b)
    ensures SubtitleCount(a) == SubtitleCount(b)
    decreases |a|
  {
    hide SubtitleCount;
    assert |multiset(a)| == |a| && |multiset(b)| == |b|;
    if a == [] {
      assert a == b;
    } else {
      assert a[0] in multiset(a);
      var i :| 0 <= i < |b| && b[i] == a[0];
      TakeOut(a, 0);
      TakeOut(b, i);
      SumIsUnordered(a[..0] + a[1..], b[..i] + b[i + 1..]);
    }
  }

  lemma TakeOut(s: seq<Item>, i: nat)
    requires i < |s|
    ensures SubtitleCount(s) == |s[i].subs| + SubtitleCount(s[..i] + s[i + 1..])
    ensures multiset(s[..i] + s[i + 1..]) == multiset(s) - multiset{s[i]}
  {
    var pre, post := s[..i], s[i + 1..];
    assert s == pre + ([s[i]] + post);
    SubtitlesAppend(pre, [s[i]] + post);
    SubtitlesAppend(pre, post);
    assert ([s[i]] + post)[1..] == post;
  }
}
