/** What a finished scan means: every file is served or refused, and every node names its folder. */
module LibraryServes {
  import opened Bytes
  import opened Ordering
  import opened Picking
  import opened Subtitles
  import opened LibraryTree
  import opened LibraryNodes
  import opened LibraryWalk
  import opened LibrarySpots
  import opened LibraryBuild
  import opened Library
  import opened Names

  // From nodes back to files.

  lemma {:induction false} EraseVideos(ks: seq<Tree<Node>>)
    ensures VideosOf(EraseAll(ks)) == VideosOf(ks) && IdsOf(EraseAll(ks)) == IdsOf(ks)
    ensures forall p :: Linked(EraseAll(ks), p) <==> Linked(ks, p)
    decreases ks
  {
    if ks != [] {
      EraseVideos(ks[0].kids);
      EraseVideos(ks[1..]);
      assert EraseAll(ks)[1..] == EraseAll(ks[1..]);
    }
  }

  lemma {:induction false} EraseSeen(ks: seq<Tree<Node>>)
    ensures SeenAll(EraseAll(ks)) == SeenAll(ks)
    decreases ks
  {
    if ks != [] {
      EraseSeen(ks[0].kids);
      EraseSeen(ks[1..]);
      assert EraseAll(ks)[1..] == EraseAll(ks[1..]);
    }
  }

  lemma NumbersFromRoot(o: Options, d: Entry, path: string)
    requires d.Folder?
    ensures var w := WholeWalk(o, d, path);
            w.next >= 1 && IdsOf(w.kids) == Range(1, w.next) && Linked(w.kids, 0)
  {
    WalkNumbers(o, d.readable, d.entries, path, 0, 0, 1);
  }

  // What becomes of a file.

  /** Without a validator every file is served; otherwise it decides by path, size and time. */
  predicate Accepts(p: Probes, f: Seen)
    requires f.Film?
  {
    p.validate.None? || p.validate.value(f.path, f.size, f.mod).serve
  }

  /** The validator's metadata, unless there is no validator or it knows neither duration nor width. */
  function Metadata(p: Probes, f: Seen): Info
    requires f.Film?
  {
    if p.validate.Some? && p.validate.value(f.path, f.size, f.mod).info.duration != 0 then
      p.validate.value(f.path, f.size, f.mod).info
    else if p.validate.Some? && p.validate.value(f.path, f.size, f.mod).info.width != 0 then
      p.validate.value(f.path, f.size, f.mod).info
    else p.probeFile(f.path)
  }

  /** A served file and its metadata. */
  datatype Showing = Showing(film: Seen, info: Info)

  function Outcome(p: Probes, f: Seen): Option<Showing> {
    if f.Film? && Accepts(p, f) then Some(Showing(f, Metadata(p, f))) else None
  }

  function Refusal(p: Probes, f: Seen): Option<Rejected> {
    if f.Film? && !Accepts(p, f) then
      Some(Rejected(f.title, f.path, f.size, f.mod, p.validate.value(f.path, f.size, f.mod).reason))
    else None
  }

  function ServedAs(p: Probes): Seen -> Option<Showing> {
    (f: Seen) => Outcome(p, f)
  }

  function RefusedAs(p: Probes): Seen -> Option<Rejected> {
    (f: Seen) => Refusal(p, f)
  }

  function ShowingOf(i: Item): Option<Showing> {
    Some(Showing(SeenOf(i), i.info))
  }

  function ServedItem(p: Probes): Item -> Option<Showing> {
    (i: Item) => Outcome(p, SeenOf(i))
  }

  function RefusedItem(p: Probes): Item -> Option<Rejected> {
    (i: Item) => Refusal(p, SeenOf(i))
  }

  /** Of the nodes of some trees only the videos yield anything. */
  lemma {:induction false} SeenVideos<N, R>(ks: seq<Tree<N>>, f: Seen -> Option<R>, g: Item -> Option<R>)
    requires forall s: Seen :: s.Dir? ==> f(s) == None
    requires forall i: Item :: i.kind == Video ==> g(i) == f(SeenOf(i))
    ensures Picked(SeenAll(ks), f) == Picked(VideosOf(ks), g)
    decreases ks
  {
    hide Picked;
    PickedNil(f);
    PickedNil(g);
    if ks != [] {
      SeenVideos(ks[1..], f, g);
      SeenVideo(ks[0], f, g);
      PickedAppend(SeenIn(ks[0]), SeenAll(ks[1..]), f);
      PickedAppend(Videos(ks[0]), VideosOf(ks[1..]), g);
    }
  }

  lemma {:induction false} SeenVideo<N, R>(t: Tree<N>, f: Seen -> Option<R>, g: Item -> Option<R>)
    requires forall s: Seen :: s.Dir? ==> f(s) == None
    requires forall i: Item :: i.kind == Video ==> g(i) == f(SeenOf(i))
    ensures Picked(SeenIn(t), f) == Picked(Videos(t), g)
    decreases t
  {
    hide Picked;
    PickedSingle(SeenOf(t.item), f);
    if t.item.kind == Video {
      PickedSingle(t.item, g);
      assert SeenIn(t) == [SeenOf(t.item)];
    } else {
      SeenVideos(t.kids, f, g);
      PickedAppend([SeenOf(t.item)], SeenAll(t.kids), f);
    }
  }

  lemma PickedSingle<T, R>(x: T, f: T -> Option<R>)
    ensures Picked([x], f) == if f(x).Some? then [f(x).value] else []
  {
    assert [x][1..] == [];
  }

  predicate Unjudged(items: seq<Item>) {
    forall i :: i in items ==> i.kind == Video && !i.rejected
  }

  /** Judging serves what is accepted, with its metadata, and refuses the rest with the reason. */
  lemma {:induction false} JudgedItems(p: Probes, items: seq<Item>)
    requires Unjudged(items)
    ensures Picked(Served(JudgeItems(p, items)), ShowingOf) == Picked(items, ServedItem(p))
    ensures Records(Refused(JudgeItems(p, items))) == Picked(items, RefusedItem(p))
  {
    hide Judge, Filter, Picked, Records;
    NothingJudged(p);
    if items != [] {
      var i, js := items[0], JudgeItems(p, items[1..]);
      JudgedItems(p, items[1..]);
      JudgedItem(p, i);
      assert JudgeItems(p, items) == [Judge(p, i)] + js;
      FilterAppend([Judge(p, i)], js, (i: Item) => !i.rejected);
      FilterAppend([Judge(p, i)], js, (i: Item) => i.rejected);
      PickedAppend(Served([Judge(p, i)]), Served(js), ShowingOf);
      RecordsAppend(Refused([Judge(p, i)]), Refused(js));
      assert items == [i] + items[1..];
      PickedAppend([i], items[1..], ServedItem(p));
      PickedAppend([i], items[1..], RefusedItem(p));
    }
  }

  lemma NothingJudged(p: Probes)
    ensures Served([]) == Refused([]) == [] && Records([]) == []
    ensures Picked([], ShowingOf) == [] && Picked([], ServedItem(p)) == [] && Picked([], RefusedItem(p)) == []
  {
  }

  lemma JudgedItem(p: Probes, i: Item)
    requires i.kind == Video && !i.rejected
    ensures Picked(Served([Judge(p, i)]), ShowingOf) == Picked([i], ServedItem(p))
    ensures Records(Refused([Judge(p, i)])) == Picked([i], RefusedItem(p))
  {
    hide Picked, Judge, Served, Refused, Accepts, Metadata, ServedItem, RefusedItem, Records;
    var j := Judge(p, i);
    OneJudged(j);
    JudgedIs(p, i);
    OutcomeOf(p, i);
    PickedSingle(j, ShowingOf);
    PickedSingle(i, ServedItem(p));
    PickedSingle(i, RefusedItem(p));
    NothingJudged(p);
    OneRecord(j);
  }

  lemma OutcomeOf(p: Probes, i: Item)
    requires i.kind == Video
    ensures var f := SeenOf(i);
            && f.Film?
            && ServedItem(p)(i) == (if Accepts(p, f) then Some(Showing(f, Metadata(p, f))) else None)
            && RefusedItem(p)(i) == (if Accepts(p, f) then None
                                     else Some(Rejected(f.title, f.path, f.size, f.mod,
                                                        p.validate.value(f.path, f.size, f.mod).reason)))
  {
  }

  lemma OneJudged(j: Item)
    ensures Served([j]) == (if j.rejected then [] else [j]) && Refused([j]) == (if j.rejected then [j] else [])
  {
    FilterOne(j, (i: Item) => !i.rejected);
    FilterOne(j, (i: Item) => i.rejected);
  }

  lemma JudgedIs(p: Probes, i: Item)
    requires i.kind == Video && !i.rejected
    ensures var j, f := Judge(p, i), SeenOf(i);
            && f.Film? && SeenOf(j) == f && (j.rejected <==> !Accepts(p, f)) && (!j.rejected ==> j.info == Metadata(p, f))
            && (j.rejected ==> Record(j) == Rejected(f.title, f.path, f.size, f.mod, p.validate.value(f.path, f.size, f.mod).reason))
  {
  }

  lemma OneRecord(i: Item)
    ensures Records([i]) == [Record(i)]
  {
    assert [i][1..] == [];
  }

  // Nothing that is walked has been judged.

  lemma {:induction false} WalkUnjudged(o: Options, readable: bool, es: seq<Entry>, dir: string, parent: int, depth: nat, next: nat)
    ensures Unjudged(VideosOf(WalkFolder(o, readable, es, dir, parent, depth, next).kids))
    decreases HeightOf(es), 1, 0
  {
    hide PoolOf, InSequence, OfClass, WalkFolders, WalkVideos;
    if readable && !AtLimit(o, depth) {
      var ds, vs := InSequence(o, es, Browse), InSequence(o, es, Play);
      HeightSubset(ds, es);
      var folders := WalkFolders(o, ds, dir, parent, depth, next);
      FoldersUnjudged(o, ds, dir, parent, depth, next);
      VideosUnjudged(o, vs, dir, PoolOf(o, es, dir), parent, folders.next);
      VideosAppend(folders.kids, WalkVideos(o, vs, dir, PoolOf(o, es, dir), parent, folders.next).kids);
    }
  }

  lemma {:induction false} FoldersUnjudged(o: Options, ds: seq<Entry>, dir: string, parent: int, depth: nat, next: nat)
    requires forall d :: d in ds ==> d.Folder?
    ensures Unjudged(VideosOf(WalkFolders(o, ds, dir, parent, depth, next).kids))
    decreases HeightOf(ds), 0, |ds|
  {
    hide WalkFolder;
    if ds != [] {
      HeightMember(ds, ds[0]);
      var below := WalkFolder(o, ds[0].readable, ds[0].entries, Join(dir, ds[0].name), next, depth + 1, next + 1);
      var rest := WalkFolders(o, ds[1..], dir, parent, depth, below.next);
      WalkUnjudged(o, ds[0].readable, ds[0].entries, Join(dir, ds[0].name), next, depth + 1, next + 1);
      FoldersUnjudged(o, ds[1..], dir, parent, depth, below.next);
      VideosCons(Tree((), FolderItem(ds[0], dir, parent, next), below.kids), rest.kids);
    }
  }

  lemma {:induction false} VideosUnjudged(o: Options, vs: seq<Entry>, dir: string, pool: seq<string>, parent: int, next: nat)
    requires forall v :: v in vs ==> v.File?
    ensures Unjudged(VideosOf(WalkVideos(o, vs, dir, pool, parent, next).kids))
  {
    hide Matched, VideoTitle;
    if vs != [] {
      var rest := WalkVideos(o, vs[1..], dir, pool, parent, next + 1);
      VideosUnjudged(o, vs[1..], dir, pool, parent, next + 1);
      VideosCons(Tree((), VideoItem(o, vs[0], dir, pool, parent, next), []), rest.kids);
    }
  }

  // The order of a listing.

  /** Folders come before videos; of the same kind, the lower-cased titles are in order, and equal ones the titles themselves. */
  ghost predicate MayPrecede<N>(lower: string -> string, a: Tree<N>, b: Tree<N>) {
    if a.item.kind != b.item.kind then a.item.kind == Container && b.item.kind == Video
    else if lower(a.item.title) != lower(b.item.title) then Before(lower(a.item.title), lower(b.item.title))
    else a.item.title == b.item.title || Before(a.item.title, b.item.title)
  }

  /** In every folder at any depth. */
  ghost predicate Arranged<N>(lower: string -> string, ks: seq<Tree<N>>)
    decreases ks
  {
    && (forall i, j :: 0 <= i < j < |ks| ==> MayPrecede(lower, ks[i], ks[j]))
    && forall k :: k in ks && k.item.kind == Container ==> Arranged(lower, k.kids)
  }

  lemma NotLessPrecedes<N>(lower: string -> string, a: Tree<N>, b: Tree<N>)
    requires !TreeOrder<N>(lower)(b, a)
    ensures MayPrecede(lower, a, b)
  {
    hide Before;
    BeforeTrichotomy(lower(a.item.title), lower(b.item.title));
    BeforeTrichotomy(a.item.title, b.item.title);
  }

  lemma {:induction false} InOrderIsArranged<N>(lower: string -> string, ks: seq<Tree<N>>)
    requires InOrder(lower, ks)
    ensures Arranged(lower, ks)
    decreases ks
  {
    hide TreeOrder, MayPrecede;
    forall i, j | 0 <= i < j < |ks|
      ensures MayPrecede(lower, ks[i], ks[j])
    {
      NotLessPrecedes(lower, ks[i], ks[j]);
    }
    forall k | k in ks && k.item.kind == Container
      ensures Arranged(lower, k.kids)
    {
      InOrderIsArranged(lower, k.kids);
    }
  }

  // The whole scan.

  /** What the places of a media folder show. */
  function OnDisk(o: Options, d: Entry, path: string): seq<Seen>
    requires d.Folder?
  {
    Picked(Whole(d), Shown(o, path, d.entries))
  }

  lemma ScanShowsPlaces(o: Options, d: Entry, path: string, kids: seq<Tree<Node>>)
    requires d.Folder? && EraseAll(kids) == WholeWalk(o, d, path).kids
    ensures multiset(SeenAll(kids)) == multiset(OnDisk(o, d, path)) && Unjudged(VideosOf(kids))
  {
    hide WalkFolder, SeenAll, Picked, Whole, Shown, VideosOf, EraseAll, Unjudged;
    WalkShowsPlaces(o, d, path);
    WalkUnjudged(o, d.readable, d.entries, path, 0, 0, 1);
    EraseSeen(kids);
    EraseVideos(kids);
  }

  /**
   * Every video file that is reached is, exactly once, served as what it is on disk with its metadata, or listed as
   * refused with the reason; nothing else is served or listed, and no folder is served without a video below it.
   */
  lemma EveryFileServedOrRefused(o: Options, name: string, p: Probes, path: string, d: Entry, root: Node,
                                 kids: seq<Tree<Node>>, done: set<Node>)
    requires d.Folder? && Scanned(o, d, path, kids, done)
    ensures var judged := JudgeIn(p, Tree(root, RootItem(name, path, d), kids), done);
            var served, onDisk := Published(o.env.lower, judged), OnDisk(o, d, path);
            && multiset(Picked(Videos(served), ShowingOf)) == multiset(Picked(onDisk, ServedAs(p)))
            && multiset(Refusals(judged)) == multiset(Picked(onDisk, RefusedAs(p)))
            && (forall v :: v in Videos(served) ==> !v.rejected)
            && NoEmptyFolder(served.kids) && InOrder(o.env.lower, served.kids) && Arranged(o.env.lower, served.kids)
  {
    hide Published, WholeWalk, SeenAll, Records, InOrder, NoEmptyFolder, Arranged, Picked, OnDisk, Filter, JudgeItems, VideosOf, EraseAll,
      RefusalsOf, ServedAs, RefusedAs, Unjudged;
    var judged := JudgeIn(p, Tree(root, RootItem(name, path, d), kids), done);
    var served, all := Published(o.env.lower, judged), Videos(judged);
    ScanConserves(o.env.lower, judged);
    InOrderIsArranged(o.env.lower, served.kids);
    JudgeInVideos(p, kids, done);
    ScanShowsPlaces(o, d, path, kids);
    JudgedItems(p, VideosOf(kids));
    FilterPartitions(all);
    Cancel(multiset(Videos(served)), multiset(Served(all)), multiset(Refused(all)));
    PickedUnordered(Videos(served), Served(all), ShowingOf);
    VideosAreSeen(p, kids);
    PickedUnordered(SeenAll(kids), OnDisk(o, d, path), ServedAs(p));
    PickedUnordered(SeenAll(kids), OnDisk(o, d, path), RefusedAs(p));
  }

  function ItemPath(i: Item): Option<string> {
    Some(i.path)
  }

  function RecordPath(r: Rejected): Option<string> {
    Some(r.path)
  }

  function FilmPath(f: Seen): Option<string> {
    if f.Film? then Some(f.path) else None
  }

  /** The path of a place whose file is to be served. */
  function ServedPath(o: Options, root: string): Place -> Option<string> {
    (p: Place) => if ServesFile(o, p) then Some(DirOf(root, p.above) + "/" + p.entry.name) else None
  }

  lemma ShownPath(o: Options, root: string, top: seq<Entry>, p: Place)
    ensures var s := ShownAt(o, root, top, p);
            (if s.Some? then FilmPath(s.value) else None)
            == if ServesFile(o, p) then Some(DirOf(root, p.above) + "/" + p.entry.name) else None
  {
    hide ServesFile, BrowsesFolder, Matched, Pooled, VideoTitle, DirOf;
  }

  lemma {:induction false} ShownPaths(o: Options, root: string, top: seq<Entry>, ps: seq<Place>)
    ensures Picked(Picked(ps, Shown(o, root, top)), FilmPath) == Picked(ps, ServedPath(o, root))
  {
    hide Picked, ServesFile, ShownAt, DirOf;
    var show := Shown(o, root, top);
    PickedNil(show);
    PickedNil(FilmPath);
    PickedNil(ServedPath(o, root));
    if ps != [] {
      ShownPaths(o, root, top, ps[1..]);
      ShownPath(o, root, top, ps[0]);
      PickedCons(ps, show);
      PickedCons(ps, ServedPath(o, root));
      var shown, rest := if show(ps[0]).Some? then [show(ps[0]).value] else [], Picked(ps[1..], show);
      if shown != [] {
        PickedSingle(shown[0], FilmPath);
        assert shown == [shown[0]];
      }
      PickedAppend(shown, rest, FilmPath);
    }
  }

  lemma {:induction false} RecordedPaths(items: seq<Item>)
    ensures Picked(Records(items), RecordPath) == Picked(items, ItemPath)
  {
    if items != [] {
      RecordedPaths(items[1..]);
      assert Records(items)[1..] == Records(items[1..]);
    }
  }

  lemma {:induction false} JudgedPaths(p: Probes, items: seq<Item>)
    ensures Picked(JudgeItems(p, items), ItemPath) == Picked(items, ItemPath)
  {
    if items != [] {
      JudgedPaths(p, items[1..]);
      assert JudgeItems(p, items)[1..] == JudgeItems(p, items[1..]);
    }
  }

  /** The path of every file to be served is served or listed as refused, once for each occurrence, and no other path is. */
  lemma EveryPathOnce(o: Options, name: string, p: Probes, path: string, d: Entry, root: Node, kids: seq<Tree<Node>>,
                      done: set<Node>)
    requires d.Folder? && Scanned(o, d, path, kids, done)
    ensures var judged := JudgeIn(p, Tree(root, RootItem(name, path, d), kids), done);
            multiset(Picked(Videos(Published(o.env.lower, judged)), ItemPath)) + multiset(Picked(Refusals(judged), RecordPath))
            == multiset(Picked(Whole(d), ServedPath(o, path)))
  {
    hide Published, WholeWalk, SeenAll, Records, InOrder, NoEmptyFolder, Picked, Filter, JudgeItems, VideosOf, EraseAll,
      RefusalsOf, Whole, Unjudged, ServedPath;
    var judged := JudgeIn(p, Tree(root, RootItem(name, path, d), kids), done);
    var served, refused, all := Videos(Published(o.env.lower, judged)), Refused(Videos(judged)), Videos(judged);
    ScanConserves(o.env.lower, judged);
    JudgeInVideos(p, kids, done);
    JudgedPaths(p, VideosOf(kids));
    ScanShowsPlaces(o, d, path, kids);
    RecordedPaths(refused);
    PickedAppend(served, refused, ItemPath);
    PickedUnordered(served + refused, all, ItemPath);
    SeenVideos(kids, FilmPath, ItemPath);
    PickedUnordered(SeenAll(kids), OnDisk(o, d, path), FilmPath);
    ShownPaths(o, path, d.entries, Whole(d));
  }

  // Folders.

  lemma {:induction false} BusyAreFolders<N>(ks: seq<Tree<N>>)
    ensures forall f :: f in BusyFoldersOf(ks) ==> f in FoldersOf(ks)
    decreases ks
  {
    if ks != [] {
      BusyAreFolders(ks[1..]);
      BusyAreFolders(ks[0].kids);
      assert BusyFoldersOf(ks) == BusyFolders(ks[0]) + BusyFoldersOf(ks[1..]) && FoldersOf(ks) == Folders(ks[0]) + FoldersOf(ks[1..]);
      assert forall f :: f in BusyFolders(ks[0]) ==> f in Folders(ks[0]);
    }
  }

  lemma {:induction false} FoldersAreSeen<N>(ks: seq<Tree<N>>)
    ensures forall f :: f in FoldersOf(ks) ==> f.kind == Container && SeenOf(f) in SeenAll(ks)
    decreases ks
  {
    if ks != [] {
      FoldersAreSeen(ks[1..]);
      if ks[0].item.kind == Container {
        FoldersAreSeen(ks[0].kids);
      }
    }
  }

  /** Every published folder below the root is one on disk, with its name as its title and its own path and time. */
  lemma FoldersAreOnDisk(o: Options, name: string, p: Probes, path: string, d: Entry, root: Node, kids: seq<Tree<Node>>,
                         done: set<Node>)
    requires d.Folder? && Scanned(o, d, path, kids, done)
    ensures var judged := JudgeIn(p, Tree(root, RootItem(name, path, d), kids), done);
            forall f :: f in Folders(Published(o.env.lower, judged)) && f != RootItem(name, path, d) ==>
              f.kind == Container && SeenOf(f) in OnDisk(o, d, path)
  {
    hide Published, WholeWalk, SeenAll, InOrder, NoEmptyFolder, Picked, Filter, JudgeItems, VideosOf, EraseAll, RefusalsOf, OnDisk,
      FoldersOf, BusyFoldersOf, DropKids, Unjudged;
    var item := RootItem(name, path, d);
    var judged := JudgeIn(p, Tree(root, item, kids), done);
    var served := Published(o.env.lower, judged);
    ScanConserves(o.env.lower, judged);
    JudgeInVideos(p, kids, done);
    DropSplits(judged.kids);
    BusyAreFolders(DropKids(judged.kids));
    FoldersAreSeen(kids);
    ScanShowsPlaces(o, d, path, kids);
    forall f | f in Folders(served) && f != item
      ensures f.kind == Container && SeenOf(f) in OnDisk(o, d, path)
    {
      assert f in multiset(Folders(served));
      assert SeenOf(f) in multiset(SeenAll(kids));
    }
  }

  /** The root has the number 0, its own path, and the name it is given or else the name of the media folder. */
  lemma RootIsNamed(name: string, parent: string, folder: string, d: Entry)
    requires d.Folder? && '/' !in folder
    ensures var r := RootItem(name, parent + "/" + folder, d);
            && r.id == 0 && r.parentID == -1 && r.kind == Container && r.path == parent + "/" + folder
            && r.title == (if name != "" then name else folder) && r.mod == (if d.changed.Some? then d.changed.value else 0)
  {
    BaseOfPath(parent, folder);
  }

  /** The statistics count what is published, what was refused, and the places that were skipped or failed. */
  lemma StatsCount(o: Options, name: string, p: Probes, path: string, d: Entry, root: Node, kids: seq<Tree<Node>>,
                   done: set<Node>)
    requires d.Folder? && Scanned(o, d, path, kids, done)
    ensures var judged := JudgeIn(p, Tree(root, RootItem(name, path, d), kids), done);
            var served := Published(o.env.lower, judged);
            var s := StatsOf(o, d, path, served, Refusals(judged));
            && s.videos == |Picked(OnDisk(o, d, path), ServedAs(p))| && s.rejected == |Picked(OnDisk(o, d, path), RefusedAs(p))|
            && s.containers == |Folders(served)| && s.subtitles == SubtitleCount(Videos(served))
            && s.skipped == |Picked(Whole(d), Skips(o))|
            && s.errors == |Picked(Whole(d), Fails(o))| + (if d.readable then 0 else 1)
  {
    hide Published, WalkFolder, SeenAll, InOrder, NoEmptyFolder, Arranged, Picked, RefusalsOf, OnDisk, Whole, Folders, Videos,
      SubtitleCount, RootItem, JudgeIn;
    EveryFileServedOrRefused(o, name, p, path, d, root, kids, done);
    WalkShowsPlaces(o, d, path);
    var judged := JudgeIn(p, Tree(root, RootItem(name, path, d), kids), done);
    var served := Videos(Published(o.env.lower, judged));
    SameLength(Picked(served, ShowingOf), Picked(OnDisk(o, d, path), ServedAs(p)));
    SameLength(Refusals(judged), Picked(OnDisk(o, d, path), RefusedAs(p)));
    AllShowing(served);
  }

  lemma SameLength<T>(a: seq<T>, b: seq<T>)
    requires multiset(a) == multiset(b)
    ensures |a| == |b|
  {
    assert |multiset(a)| == |a| && |multiset(b)| == |b|;
  }

  lemma {:induction false} AllShowing(items: seq<Item>)
    ensures |Picked(items, ShowingOf)| == |items|
  {
    if items != [] {
      AllShowing(items[1..]);
    }
  }

  lemma Cancel<T>(a: multiset<T>, b: multiset<T>, c: multiset<T>)
    requires a + c == b + c
    ensures a == b
  {
    assert a == a + c - c && b == b + c - c;
  }

  lemma VideosAreSeen<N>(p: Probes, ks: seq<Tree<N>>)
    ensures Picked(SeenAll(ks), ServedAs(p)) == Picked(VideosOf(ks), ServedItem(p))
    ensures Picked(SeenAll(ks), RefusedAs(p)) == Picked(VideosOf(ks), RefusedItem(p))
  {
    hide Picked, SeenAll, Accepts, Metadata;
    SeenVideos(ks, ServedAs(p), ServedItem(p));
    SeenVideos(ks, RefusedAs(p), RefusedItem(p));
  }

  // Links.

  lemma {:induction false} JudgeLinks<N>(p: Probes, ks: seq<Tree<N>>, done: set<N>, parent: int)
    requires Linked(ks, parent)
    ensures Linked(JudgeInAll(p, ks, done), parent)
    decreases ks
  {
    if ks != [] {
      JudgeLinks(p, ks[0].kids, done, ks[0].item.id);
      JudgeLinks(p, ks[1..], done, parent);
      assert JudgeInAll(p, ks, done)[1..] == JudgeInAll(p, ks[1..], done);
    }
  }

  lemma LinkedOne<N>(c: Tree<N>, parent: int)
    ensures Linked([c], parent) <==> LinkedTo(c, parent) && Linked(c.kids, c.item.id)
  {
    assert [c][1..] == [];
  }

  lemma {:induction false} DropLinks<N>(ks: seq<Tree<N>>, parent: int)
    requires Linked(ks, parent)
    ensures Linked(DropKids(ks), parent)
    decreases ks
  {
    if ks != [] {
      var c := ks[0];
      DropLinks(c.kids, c.item.id);
      DropLinks(ks[1..], parent);
      LinkedOne(c, parent);
      LinkedOne(Drop(c), parent);
      IdsAppend(DropOne(c), DropKids(ks[1..]), parent);
    }
  }

  lemma {:induction false} PruneLinks<N>(ks: seq<Tree<N>>, parent: int)
    requires Linked(ks, parent)
    ensures Linked(PruneKids(ks), parent)
    decreases ks
  {
    if ks != [] {
      var c := ks[0];
      PruneLinks(c.kids, c.item.id);
      PruneLinks(ks[1..], parent);
      LinkedOne(Prune(c), parent);
      IdsAppend(PruneOne(c), PruneKids(ks[1..]), parent);
    }
  }

  lemma {:induction false} StableSortLinks<N>(ks: seq<Tree<N>>, less: (Tree<N>, Tree<N>) -> bool, parent: int)
    requires Linked(ks, parent)
    ensures Linked(StableSort(ks, less), parent)
  {
    hide Position;
    if ks != [] {
      var a, x := ks[..|ks| - 1], ks[|ks| - 1];
      assert ks == a + [x];
      IdsAppend(a, [x], parent);
      StableSortLinks(a, less, parent);
      var m := StableSort(a, less);
      var q := Position(m, x, less);
      assert m == m[..q] + m[q..];
      IdsAppend(m[..q], m[q..], parent);
      IdsAppend(m[..q], [x], parent);
      IdsAppend(m[..q] + [x], m[q..], parent);
    }
  }

  lemma {:induction false} SortLinks<N>(lower: string -> string, ks: seq<Tree<N>>, parent: int)
    requires Linked(ks, parent)
    ensures Linked(SortKids(lower, ks), parent)
    decreases ks
  {
    hide StableSort;
    if ks != [] {
      var c := ks[0];
      SortLinks(lower, c.kids, c.item.id);
      if c.item.kind == Container {
        StableSortLinks(SortKids(lower, c.kids), TreeOrder(lower), c.item.id);
      }
      SortLinks(lower, ks[1..], parent);
      assert SortKids(lower, ks)[1..] == SortKids(lower, ks[1..]);
    }
  }

  /** After a scan every published node still names the container that lists it as its parent. */
  lemma PublishedIsLinked(o: Options, name: string, p: Probes, path: string, d: Entry, root: Node,
                          kids: seq<Tree<Node>>, done: set<Node>)
    requires d.Folder? && Scanned(o, d, path, kids, done)
    ensures var judged := JudgeIn(p, Tree(root, RootItem(name, path, d), kids), done);
            Linked(Published(o.env.lower, judged).kids, 0)
  {
    hide StableSort, WalkFolder, WholeWalk, Linked, Judge, DropKids, PruneKids, SortKids, JudgeInAll, EraseAll;
    NumbersFromRoot(o, d, path);
    EraseVideos(kids);
    var js := JudgeInAll(p, kids, done);
    JudgeLinks(p, kids, done, 0);
    DropLinks(js, 0);
    PruneLinks(DropKids(js), 0);
    SortLinks(o.env.lower, PruneKids(DropKids(js)), 0);
    StableSortLinks(SortKids(o.env.lower, PruneKids(DropKids(js))), TreeOrder(o.env.lower), 0);
  }
}
