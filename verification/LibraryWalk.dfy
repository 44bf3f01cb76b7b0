/**
 * Walking a media folder: which entries become nodes, in what order, and with which
 * identifiers. The walk is a function of the directory tree; LibraryBuild does the
 * same on the heap.
 */
module LibraryWalk {
  import opened Bytes
  import opened Ordering
  import opened Picking
  import opened Subtitles
  import opened LibraryTree

  datatype Stat = Stat(size: int, mod: int)

  /** A directory entry; a folder may be unreadable, and a file that cannot be examined has no stat. */
  datatype Entry =
    | Folder(name: string, readable: bool, entries: seq<Entry>, changed: Option<int>)
    | File(name: string, stat: Option<Stat>)
    | Special(name: string)

  datatype Options = Options(env: Env, subLang: seq<string>, maxDepth: int)

  const SKIP_NAMES: set<string> := {
    ".ds_store", "thumbs.db", "desktop.ini", "@eadir", "#recycle", "lost+found", "$recycle.bin",
    "system volume information", ".trashes", ".spotlight-v100", ".fseventsd"}

  const SUBTITLE_DIRS: set<string> := {
    "subs", "sub", "subtitles", "subtitle", "srt", "subtitulos", "sottotitoli", "untertitel", "subtitres", "legendas"}

  const VIDEO_EXTS: set<string> := {
    ".mp4", ".m4v", ".mkv", ".webm", ".avi", ".divx", ".mov", ".mpg", ".mpeg", ".m2v", ".ts", ".m2ts", ".mts", ".wmv",
    ".asf", ".flv", ".ogv", ".ogg", ".3gp", ".vob"}

  function Join(dir: string, name: string): string {
    dir + "/" + name
  }

  function Spaced(name: string): string {
    if name == "" then "" else (if name[0] == '_' then " " else [name[0]]) + Spaced(name[1..])
  }

  function Words(s: string, current: string := ""): seq<string>
    decreases |s|
  {
    if s == "" then (if current == "" then [] else [current])
    else if Space(s[0]) then (if current == "" then [] else [current]) + Words(s[1..], "")
    else Words(s[1..], current + [s[0]])
  }

  function Sentence(words: seq<string>): string {
    if words == [] then "" else if |words| == 1 then words[0] else words[0] + " " + Sentence(words[1..])
  }

  /** The display title: no extension, underscores as spaces, runs of space collapsed. */
  function VideoTitle(name: string): string {
    Sentence(Words(Spaced(Stem(name))))
  }

  // Classifying entries.

  datatype Class = Skip | Browse | Pool | Play | Track

  function ClassOf(o: Options, e: Entry): Class {
    if "." <= e.name || o.env.lower(e.name) in SKIP_NAMES then Skip
    else if e.Folder? then (if o.env.lower(e.name) in SUBTITLE_DIRS then Pool else Browse)
    else if e.Special? then Skip
    else if o.env.lower(Ext(e.name)) in SUB_EXTS then Track
    else if o.env.lower(Ext(e.name)) in VIDEO_EXTS then Play
    else Skip
  }

  function OfClass(o: Options, es: seq<Entry>, c: Class): (r: seq<Entry>)
    ensures forall e :: e in r ==> e in es && ClassOf(o, e) == c
  {
    if es == [] then [] else (if ClassOf(o, es[0]) == c then [es[0]] else []) + OfClass(o, es[1..], c)
  }

  /** The subtitle files in a subtitle folder, down to a depth. */
  function SubtitleFiles(o: Options, readable: bool, es: seq<Entry>, dir: string, depth: nat): seq<string>
    decreases depth, |es|
  {
    if depth == 0 || !readable || es == [] then []
    else
      var e := es[0];
      (if "." <= e.name then []
       else if e.Folder? then SubtitleFiles(o, e.readable, e.entries, Join(dir, e.name), depth - 1)
       else if o.env.lower(Ext(e.name)) in SUB_EXTS then [Join(dir, e.name)] else [])
      + SubtitleFiles(o, readable, es[1..], dir, depth)
  }

  /** The pool of subtitle files the videos of a folder are matched against. */
  function PoolOf(o: Options, es: seq<Entry>, dir: string): seq<string> {
    if es == [] then [] else PoolAt(o, es[0], dir) + PoolOf(o, es[1..], dir)
  }

  function PoolAt(o: Options, e: Entry, dir: string): seq<string> {
    match ClassOf(o, e)
    case Pool => (if e.Folder? then SubtitleFiles(o, e.readable, e.entries, Join(dir, e.name), 2) else [])
    case Track => [Join(dir, e.name)]
    case _ => []
  }

  // The walk.

  datatype Counts = Counts(videos: nat, subtitles: nat, skipped: nat, errors: nat) {
    function Plus(c: Counts): Counts {
      Counts(videos + c.videos, subtitles + c.subtitles, skipped + c.skipped, errors + c.errors)
    }
  }

  const NONE := Counts(0, 0, 0, 0)

  /** The children a walk makes, the next free identifier, and what it counted. */
  datatype Plan = Plan(kids: seq<Tree<()>>, next: nat, counts: Counts)

  function EntryOrder(lower: string -> string): (Entry, Entry) -> bool {
    (a: Entry, b: Entry) => LessFold(lower, a.name, b.name)
  }

  function InSequence(o: Options, es: seq<Entry>, c: Class): (r: seq<Entry>)
    ensures forall e :: e in r ==> e in es && ClassOf(o, e) == c
  {
    var r := StableSort(OfClass(o, es, c), EntryOrder(o.env.lower));
    SortKeeps(OfClass(o, es, c), EntryOrder(o.env.lower));
    assert forall e :: e in r ==> e in multiset(r);
    r
  }

  function FolderItem(e: Entry, dir: string, parent: int, id: int): (r: Item)
    requires e.Folder?
    ensures r.id == id && r.parentID == parent && r.kind == Container
  {
    Item(id, parent, Container, e.name, Join(dir, e.name), 0, if e.changed.Some? then e.changed.value else 0, [], UNKNOWN, false, "")
  }

  function VideoItem(o: Options, e: Entry, dir: string, pool: seq<string>, parent: int, id: int): (r: Item)
    requires e.File?
    ensures r.id == id && r.parentID == parent && r.kind == Video
  {
    var path := Join(dir, e.name);
    Item(id, parent, Video, VideoTitle(e.name), path, if e.stat.Some? then e.stat.value.size else 0,
         if e.stat.Some? then e.stat.value.mod else 0, Matched(o.env, path, pool, o.subLang), UNKNOWN, false, "")
  }

  function Height(e: Entry): nat {
    if e.Folder? then 1 + HeightOf(e.entries) else 0
  }

  function HeightOf(es: seq<Entry>): nat {
    if es == [] then 0 else if Height(es[0]) > HeightOf(es[1..]) then Height(es[0]) else HeightOf(es[1..])
  }

  lemma {:induction false} HeightMember(es: seq<Entry>, e: Entry)
    requires e in es
    ensures Height(e) <= HeightOf(es)
  {
    if e != es[0] {
      HeightMember(es[1..], e);
    }
  }

  lemma {:induction false} HeightSubset(ds: seq<Entry>, es: seq<Entry>)
    requires forall d :: d in ds ==> d in es
    ensures HeightOf(ds) <= HeightOf(es)
  {
    if ds != [] {
      HeightMember(es, ds[0]);
      HeightSubset(ds[1..], es);
    }
  }

  /** One folder: its subfolders with everything below them, in order, then its videos. */
  function WalkFolder(o: Options, readable: bool, es: seq<Entry>, dir: string, parent: int, depth: nat, next: nat): Plan
    decreases HeightOf(es), 1, 0
  {
    if o.maxDepth > 0 && depth >= o.maxDepth then Plan([], next, NONE)
    else if !readable then Plan([], next, NONE.(errors := 1))
    else
      HeightSubset(InSequence(o, es, Browse), es);
      var folders := WalkFolders(o, InSequence(o, es, Browse), dir, parent, depth, next);
      var videos := WalkVideos(o, InSequence(o, es, Play), dir, PoolOf(o, es, dir), parent, folders.next);
      Plan(folders.kids + videos.kids, videos.next,
           NONE.(skipped := |OfClass(o, es, Skip)|).Plus(folders.counts).Plus(videos.counts))
  }

  function WalkFolders(o: Options, ds: seq<Entry>, dir: string, parent: int, depth: nat, next: nat): Plan
    requires forall d :: d in ds ==> d.Folder?
    decreases HeightOf(ds), 0, |ds|
  {
    if ds == [] then Plan([], next, NONE)
    else
      HeightMember(ds, ds[0]);
      var below := WalkFolder(o, ds[0].readable, ds[0].entries, Join(dir, ds[0].name), next, depth + 1, next + 1);
      var rest := WalkFolders(o, ds[1..], dir, parent, depth, below.next);
      Plan([Tree((), FolderItem(ds[0], dir, parent, next), below.kids)] + rest.kids, rest.next,
           below.counts.Plus(rest.counts))
  }

  function WalkVideos(o: Options, vs: seq<Entry>, dir: string, pool: seq<string>, parent: int, next: nat): Plan
    requires forall v :: v in vs ==> v.File?
  {
    if vs == [] then Plan([], next, NONE)
    else
      var item := VideoItem(o, vs[0], dir, pool, parent, next);
      var rest := WalkVideos(o, vs[1..], dir, pool, parent, next + 1);
      Plan([Tree((), item, [])] + rest.kids, rest.next,
           Counts(1, |item.subs|, 0, if vs[0].stat.None? then 1 else 0).Plus(rest.counts))
  }

  // Identifiers.

  /** The identifiers of the nodes of a tree, each before those of the nodes below it. */
  function Ids<N>(t: Tree<N>): seq<int> {
    [t.item.id] + IdsOf(t.kids)
  }

  function IdsOf<N>(ks: seq<Tree<N>>): seq<int> {
    if ks == [] then [] else Ids(ks[0]) + IdsOf(ks[1..])
  }

  function Range(from: int, to: int): seq<int>
    requires from <= to
  {
    seq(to - from, i => from + i)
  }

  /** Every child carries the identifier of what lists it, and only folders list anything. */
  predicate Linked<N>(ks: seq<Tree<N>>, parent: int) {
    ks == [] || (LinkedTo(ks[0], parent) && Linked(ks[0].kids, ks[0].item.id) && Linked(ks[1..], parent))
  }

  predicate LinkedTo<N>(t: Tree<N>, parent: int) {
    t.item.parentID == parent && (t.item.kind == Video ==> t.kids == [])
  }

  lemma {:induction false} IdsAppend<N>(a: seq<Tree<N>>, b: seq<Tree<N>>, parent: int)
    ensures IdsOf(a + b) == IdsOf(a) + IdsOf(b)
    ensures Linked(a + b, parent) <==> Linked(a, parent) && Linked(b, parent)
  {
    if a == [] {
      assert a + b == b;
    } else {
      assert (a + b)[0] == a[0] && (a + b)[1..] == a[1..] + b;
      IdsAppend(a[1..], b, parent);
    }
  }

  lemma NumberCons<N>(k: Tree<N>, ks: seq<Tree<N>>, parent: int)
    ensures IdsOf([k] + ks) == Ids(k) + IdsOf(ks)
    ensures Linked([k] + ks, parent) <==> LinkedTo(k, parent) && Linked(k.kids, k.item.id) && Linked(ks, parent)
  {
    assert ([k] + ks)[1..] == ks;
  }

  lemma RangeJoin(a: int, b: int, c: int)
    requires a <= b <= c
    ensures Range(a, b) + Range(b, c) == Range(a, c)
  {
  }

  /** Numbers are handed out in browse order, one to each node, and every node names its folder. */
  lemma {:induction false} WalkNumbers(o: Options, readable: bool, es: seq<Entry>, dir: string, parent: int, depth: nat, next: nat)
    ensures var w := WalkFolder(o, readable, es, dir, parent, depth, next);
            w.next >= next && IdsOf(w.kids) == Range(next, w.next) && Linked(w.kids, parent)
    decreases HeightOf(es), 1, 0
  {
    hide InSequence, PoolOf, OfClass, FolderItem, VideoItem;
    if readable && !(o.maxDepth > 0 && depth >= o.maxDepth) {
      var ds, vs := InSequence(o, es, Browse), InSequence(o, es, Play);
      HeightSubset(ds, es);
      var folders := WalkFolders(o, ds, dir, parent, depth, next);
      WalkFoldersNumbers(o, ds, dir, parent, depth, next);
      WalkVideosNumbers(o, vs, dir, PoolOf(o, es, dir), parent, folders.next);
      var videos := WalkVideos(o, vs, dir, PoolOf(o, es, dir), parent, folders.next);
      IdsAppend(folders.kids, videos.kids, parent);
      RangeJoin(next, folders.next, videos.next);
    }
  }

  lemma {:induction false} WalkFoldersNumbers(o: Options, ds: seq<Entry>, dir: string, parent: int, depth: nat, next: nat)
    requires forall d :: d in ds ==> d.Folder?
    ensures var w := WalkFolders(o, ds, dir, parent, depth, next);
            w.next >= next && IdsOf(w.kids) == Range(next, w.next) && Linked(w.kids, parent)
    decreases HeightOf(ds), 0, |ds|
  {
    hide WalkFolder;
    if ds != [] {
      HeightMember(ds, ds[0]);
      var below := WalkFolder(o, ds[0].readable, ds[0].entries, Join(dir, ds[0].name), next, depth + 1, next + 1);
      var rest := WalkFolders(o, ds[1..], dir, parent, depth, below.next);
      WalkNumbers(o, ds[0].readable, ds[0].entries, Join(dir, ds[0].name), next, depth + 1, next + 1);
      WalkFoldersNumbers(o, ds[1..], dir, parent, depth, below.next);
      RangeJoin(next, below.next, rest.next);
      var k := Tree((), FolderItem(ds[0], dir, parent, next), below.kids);
      NumberCons(k, rest.kids, parent);
      assert Ids(k) == Range(next, next + 1) + Range(next + 1, below.next);
      RangeJoin(next, next + 1, below.next);
    }
  }

  lemma {:induction false} WalkVideosNumbers(o: Options, vs: seq<Entry>, dir: string, pool: seq<string>, parent: int, next: nat)
    requires forall v :: v in vs ==> v.File?
    ensures var w := WalkVideos(o, vs, dir, pool, parent, next);
            w.next >= next && IdsOf(w.kids) == Range(next, w.next) && Linked(w.kids, parent)
  {
    hide Matched, VideoTitle, Join;
    if vs != [] {
      var k := Tree((), VideoItem(o, vs[0], dir, pool, parent, next), []);
      var rest := WalkVideos(o, vs[1..], dir, pool, parent, next + 1);
      WalkVideosNumbers(o, vs[1..], dir, pool, parent, next + 1);
      NumberCons(k, rest.kids, parent);
      assert Ids(k) == [next] == Range(next, next + 1);
      RangeJoin(next, next + 1, rest.next);
    }
  }

  // What is found.

  /** What a node shows of a file or a folder. */
  datatype Seen =
    | Film(path: string, title: string, size: int, mod: int, subs: seq<Subtitle>)
    | Dir(path: string, title: string, mod: int)

  /** What becomes of one entry: a node, perhaps with an error, or nothing but a count. */
  datatype Finding = Made(seen: Seen, failed: bool) | Passed

  function SeenOf(i: Item): Seen {
    if i.kind == Video then Film(i.path, i.title, i.size, i.mod, i.subs) else Dir(i.path, i.title, i.mod)
  }

  function SeenIn<N>(t: Tree<N>): seq<Seen> {
    [SeenOf(t.item)] + if t.item.kind == Video then [] else SeenAll(t.kids)
  }

  /** What the nodes of some trees show, each before the nodes below it. */
  function SeenAll<N>(ks: seq<Tree<N>>): seq<Seen> {
    if ks == [] then [] else SeenIn(ks[0]) + SeenAll(ks[1..])
  }

  predicate AtLimit(o: Options, depth: nat) {
    o.maxDepth > 0 && depth >= o.maxDepth
  }

  /** What one entry contributes: a playable file or a browsable folder itself, and everything found in the folder. */
  function FoundAt(o: Options, e: Entry, dir: string, pool: seq<string>, depth: nat): seq<Finding>
    decreases Height(e), 2, 0
  {
    match ClassOf(o, e)
    case Play => [Made(SeenOf(VideoItem(o, e, dir, pool, 0, 0)), e.stat.None?)]
    case Browse =>
      if e.Folder? then
        [Made(SeenOf(FolderItem(e, dir, 0, 0)), !AtLimit(o, depth + 1) && !e.readable)]
        + Found(o, e.readable, e.entries, Join(dir, e.name), depth + 1)
      else []
    case Skip => [Passed]
    case _ => []
  }

  /** What is found in a folder, in directory order, no deeper than the limit. */
  function Found(o: Options, readable: bool, es: seq<Entry>, dir: string, depth: nat): seq<Finding>
    decreases HeightOf(es), 4, 0
  {
    if AtLimit(o, depth) || !readable then [] else FoundIn(o, es, dir, PoolOf(o, es, dir), depth)
  }

  function FoundIn(o: Options, es: seq<Entry>, dir: string, pool: seq<string>, depth: nat): seq<Finding>
    decreases HeightOf(es), 3, |es|
  {
    if es == [] then []
    else
      HeightMember(es, es[0]);
      FoundAt(o, es[0], dir, pool, depth) + FoundIn(o, es[1..], dir, pool, depth)
  }

  function SeenBy(f: Finding): Option<Seen> {
    if f.Made? then Some(f.seen) else None
  }

  function PassedBy(f: Finding): Option<()> {
    if f.Passed? then Some(()) else None
  }

  function FailedBy(f: Finding): Option<()> {
    if f.Made? && f.failed then Some(()) else None
  }

  /** A plan makes the nodes of some findings, and counts what they count; errors more than that are given. */
  ghost predicate Covers(w: Plan, fs: seq<Finding>, errors: nat) {
    && multiset(SeenAll(w.kids)) == multiset(Picked(fs, SeenBy))
    && w.counts.skipped == |Picked(fs, PassedBy)| && w.counts.errors == |Picked(fs, FailedBy)| + errors
    && w.counts.videos == |VideosOf(w.kids)| && w.counts.subtitles == SubtitleCount(VideosOf(w.kids))
  }

  lemma {:induction false} SeenAppend<N>(a: seq<Tree<N>>, b: seq<Tree<N>>)
    ensures SeenAll(a + b) == SeenAll(a) + SeenAll(b)
  {
    hide SeenIn;
    if a == [] {
      assert a + b == b;
    } else {
      assert (a + b)[0] == a[0] && (a + b)[1..] == a[1..] + b;
      SeenAppend(a[1..], b);
    }
  }

  lemma CoversBoth(v: Plan, fs: seq<Finding>, m: nat, w: Plan, gs: seq<Finding>, n: nat, next: nat)
    requires Covers(v, fs, m) && Covers(w, gs, n)
    ensures Covers(Plan(v.kids + w.kids, next, v.counts.Plus(w.counts)), fs + gs, m + n)
  {
    hide SeenAll, Picked, VideosOf, SubtitleCount;
    SeenAppend(v.kids, w.kids);
    VideosAppend(v.kids, w.kids);
    SubtitlesAppend(VideosOf(v.kids), VideosOf(w.kids));
    PickedAppend(fs, gs, SeenBy);
    PickedAppend(fs, gs, PassedBy);
    PickedAppend(fs, gs, FailedBy);
  }

  lemma CoversUnordered(w: Plan, fs: seq<Finding>, gs: seq<Finding>, errors: nat)
    requires Covers(w, fs, errors) && multiset(fs) == multiset(gs)
    ensures Covers(w, gs, errors)
  {
    hide SeenAll, Picked, VideosOf, SubtitleCount;
    PickedUnordered(fs, gs, SeenBy);
    PickedUnordered(fs, gs, PassedBy);
    PickedUnordered(fs, gs, FailedBy);
    assert |multiset(Picked(fs, PassedBy))| == |Picked(fs, PassedBy)| && |multiset(Picked(gs, PassedBy))| == |Picked(gs, PassedBy)|;
    assert |multiset(Picked(fs, FailedBy))| == |Picked(fs, FailedBy)| && |multiset(Picked(gs, FailedBy))| == |Picked(gs, FailedBy)|;
  }

  lemma CoversNothing(next: nat, errors: nat)
    ensures Covers(Plan([], next, NONE.(errors := errors)), [], errors)
  {
  }

  lemma {:induction false} CoversPassed(n: nat, fs: seq<Finding>, next: nat)
    requires |fs| == n && forall f :: f in fs ==> f.Passed?
    ensures Covers(Plan([], next, NONE.(skipped := n)), fs, 0)
  {
    if n > 0 {
      CoversPassed(n - 1, fs[1..], next);
      assert fs[0] in fs && Picked(fs, SeenBy) == [] + Picked(fs[1..], SeenBy);
    }
  }

  /** One node, with what is below it. */
  lemma CoversNode(t: Tree<()>, failed: bool, below: Plan, fs: seq<Finding>, next: nat)
    requires t.item.kind == Container && t.kids == below.kids && Covers(below, fs, if failed then 1 else 0)
    ensures Covers(Plan([t], next, below.counts), [Made(SeenOf(t.item), failed)] + fs, 0)
  {
    hide VideosOf, SubtitleCount;
    var f := Made(SeenOf(t.item), failed);
    assert ([f] + fs)[1..] == fs && [t][1..] == [];
    assert SeenAll([t]) == SeenIn(t) + [];
    VideosOne(t);
  }

  lemma VideosOne<N>(t: Tree<N>)
    ensures VideosOf([t]) == Videos(t)
  {
    assert [t][1..] == [];
  }

  lemma CoversVideo(t: Tree<()>, failed: bool, next: nat)
    requires t.item.kind == Video
    ensures Covers(Plan([t], next, Counts(1, |t.item.subs|, 0, if failed then 1 else 0)), [Made(SeenOf(t.item), failed)], 0)
  {
    var f := Made(SeenOf(t.item), failed);
    assert [f][1..] == [] && [t][1..] == [];
    assert SeenAll([t]) == SeenIn(t) + [];
    VideosOne(t);
    assert SubtitleCount([t.item]) == |t.item.subs| + SubtitleCount([]);
  }

  lemma {:induction false} FoundAppend(o: Options, a: seq<Entry>, b: seq<Entry>, dir: string, pool: seq<string>, depth: nat)
    ensures FoundIn(o, a + b, dir, pool, depth) == FoundIn(o, a, dir, pool, depth) + FoundIn(o, b, dir, pool, depth)
  {
    hide FoundAt;
    if a == [] {
      assert a + b == b;
    } else {
      assert (a + b)[0] == a[0] && (a + b)[1..] == a[1..] + b;
      FoundAppend(o, a[1..], b, dir, pool, depth);
    }
  }

  lemma FoundTakeOut(o: Options, s: seq<Entry>, i: nat, dir: string, pool: seq<string>, depth: nat)
    requires i < |s|
    ensures multiset(FoundIn(o, s, dir, pool, depth))
            == multiset(FoundAt(o, s[i], dir, pool, depth)) + multiset(FoundIn(o, s[..i] + s[i + 1..], dir, pool, depth))
    ensures multiset(s[..i] + s[i + 1..]) == multiset(s) - multiset{s[i]}
  {
    hide FoundAt;
    var pre, post := s[..i], s[i + 1..];
    assert s == pre + ([s[i]] + post);
    FoundAppend(o, pre, [s[i]] + post, dir, pool, depth);
    FoundAppend(o, pre, post, dir, pool, depth);
    assert ([s[i]] + post)[1..] == post;
  }

  lemma {:induction false} FoundIsUnordered(o: Options, a: seq<Entry>, b: seq<Entry>, dir: string, pool: seq<string>, depth: nat)
    requires multiset(a) == multiset(b)
    ensures multiset(FoundIn(o, a, dir, pool, depth)) == multiset(FoundIn(o, b, dir, pool, depth))
    decreases |a|
  {
    hide FoundIn, FoundAt;
    assert |multiset(a)| == |a| && |multiset(b)| == |b|;
    if a == [] {
      assert a == b;
    } else {
      assert a[0] in multiset(a);
      var i :| 0 <= i < |b| && b[i] == a[0];
      FoundTakeOut(o, a, 0, dir, pool, depth);
      FoundTakeOut(o, b, i, dir, pool, depth);
      FoundIsUnordered(o, a[..0] + a[1..], b[..i] + b[i + 1..], dir, pool, depth);
    }
  }

  /** What the entries of one class contribute. */
  function FoundOf(o: Options, es: seq<Entry>, c: Class, dir: string, pool: seq<string>, depth: nat): seq<Finding> {
    FoundIn(o, OfClass(o, es, c), dir, pool, depth)
  }

  lemma {:induction false} FoundByClass(o: Options, es: seq<Entry>, dir: string, pool: seq<string>, depth: nat)
    ensures multiset(FoundIn(o, es, dir, pool, depth))
            == multiset(FoundOf(o, es, Skip, dir, pool, depth)) + multiset(FoundOf(o, es, Browse, dir, pool, depth))
               + multiset(FoundOf(o, es, Play, dir, pool, depth))
  {
    hide FoundAt, ClassOf, OfClass, FoundIn;
    if es == [] {
      ClassNil(o, Browse);
      ClassNil(o, Play);
      ClassNil(o, Skip);
      FoundNil(o, dir, pool, depth);
    } else {
      FoundByClass(o, es[1..], dir, pool, depth);
      FoundCons(o, es, dir, pool, depth);
      FoundOfCons(o, es, Browse, dir, pool, depth);
      FoundOfCons(o, es, Play, dir, pool, depth);
      FoundOfCons(o, es, Skip, dir, pool, depth);
      FoundOne(o, es[0], dir, pool, depth);
    }
  }

  lemma FoundOfCons(o: Options, es: seq<Entry>, c: Class, dir: string, pool: seq<string>, depth: nat)
    requires es != []
    ensures FoundOf(o, es, c, dir, pool, depth)
            == (if ClassOf(o, es[0]) == c then FoundAt(o, es[0], dir, pool, depth) else []) + FoundOf(o, es[1..], c, dir, pool, depth)
  {
    hide FoundAt, ClassOf, OfClass, FoundIn;
    ClassCons(o, es, c);
    FoundAppend(o, [es[0]], OfClass(o, es[1..], c), dir, pool, depth);
    FoundOne(o, es[0], dir, pool, depth);
  }

  lemma ClassNil(o: Options, c: Class)
    ensures OfClass(o, [], c) == []
  {
  }

  lemma ClassCons(o: Options, es: seq<Entry>, c: Class)
    requires es != []
    ensures OfClass(o, es, c) == if ClassOf(o, es[0]) == c then [es[0]] + OfClass(o, es[1..], c) else OfClass(o, es[1..], c)
  {
  }

  lemma FoundNil(o: Options, dir: string, pool: seq<string>, depth: nat)
    ensures FoundIn(o, [], dir, pool, depth) == []
  {
  }

  lemma FoundCons(o: Options, es: seq<Entry>, dir: string, pool: seq<string>, depth: nat)
    requires es != []
    ensures FoundIn(o, es, dir, pool, depth) == FoundAt(o, es[0], dir, pool, depth) + FoundIn(o, es[1..], dir, pool, depth)
  {
  }

  lemma FoundOne(o: Options, e: Entry, dir: string, pool: seq<string>, depth: nat)
    ensures FoundIn(o, [e], dir, pool, depth) == FoundAt(o, e, dir, pool, depth)
    ensures ClassOf(o, e) == Pool || ClassOf(o, e) == Track ==> FoundAt(o, e, dir, pool, depth) == []
  {
    assert [e][1..] == [];
  }

  lemma FoundInSequence(o: Options, es: seq<Entry>, dir: string, pool: seq<string>, depth: nat)
    ensures multiset(FoundIn(o, es, dir, pool, depth))
            == multiset(FoundOf(o, es, Skip, dir, pool, depth)
                        + FoundIn(o, InSequence(o, es, Browse), dir, pool, depth)
                        + FoundIn(o, InSequence(o, es, Play), dir, pool, depth))
  {
    hide OfClass, FoundIn, StableSort, EntryOrder;
    FoundByClass(o, es, dir, pool, depth);
    SortKeeps(OfClass(o, es, Browse), EntryOrder(o.env.lower));
    SortKeeps(OfClass(o, es, Play), EntryOrder(o.env.lower));
    FoundIsUnordered(o, InSequence(o, es, Browse), OfClass(o, es, Browse), dir, pool, depth);
    FoundIsUnordered(o, InSequence(o, es, Play), OfClass(o, es, Play), dir, pool, depth);
  }

  lemma {:induction false} SkippedFound(o: Options, ss: seq<Entry>, dir: string, pool: seq<string>, depth: nat)
    requires forall s :: s in ss ==> ClassOf(o, s) == Skip
    ensures var fs := FoundIn(o, ss, dir, pool, depth);
            |fs| == |ss| && forall f :: f in fs ==> f.Passed?
  {
    hide ClassOf;
    if ss != [] {
      assert ss[0] in ss && forall s :: s in ss[1..] ==> s in ss;
      SkippedFound(o, ss[1..], dir, pool, depth);
      FoundCons(o, ss, dir, pool, depth);
    }
  }

  /**
   * Whatever the sorting, the walk makes one node for every playable file and every folder the limit lets it reach, with
   * what is known of it, and counts them, what it skips and what it cannot read.
   */
  lemma {:induction false} WalkFindsEveryVideo(o: Options, readable: bool, es: seq<Entry>, dir: string, parent: int, depth: nat, next: nat)
    ensures Covers(WalkFolder(o, readable, es, dir, parent, depth, next), Found(o, readable, es, dir, depth),
                   if !AtLimit(o, depth) && !readable then 1 else 0)
    decreases HeightOf(es), 1, 0
  {
    hide PoolOf, InSequence, OfClass, FoundIn, WalkFolders, WalkVideos, Covers;
    if AtLimit(o, depth) {
      CoversNothing(next, 0);
    } else if !readable {
      CoversNothing(next, 1);
    } else {
      var pool, ds, vs := PoolOf(o, es, dir), InSequence(o, es, Browse), InSequence(o, es, Play);
      HeightSubset(ds, es);
      var skipped := FoundOf(o, es, Skip, dir, pool, depth);
      var passed := Plan([], next, NONE.(skipped := |OfClass(o, es, Skip)|));
      var folders := WalkFolders(o, ds, dir, parent, depth, next);
      var videos := WalkVideos(o, vs, dir, pool, parent, folders.next);
      SkippedFound(o, OfClass(o, es, Skip), dir, pool, depth);
      CoversPassed(|OfClass(o, es, Skip)|, skipped, next);
      WalkFoldersFind(o, ds, dir, pool, parent, depth, next);
      WalkVideosFind(o, vs, dir, pool, parent, depth, folders.next);
      CoversBoth(passed, skipped, 0, folders, FoundIn(o, ds, dir, pool, depth), 0, next);
      var both := Plan([] + folders.kids, next, passed.counts.Plus(folders.counts));
      assert [] + folders.kids == folders.kids;
      CoversBoth(both, skipped + FoundIn(o, ds, dir, pool, depth), 0, videos, FoundIn(o, vs, dir, pool, depth), 0, videos.next);
      FoundInSequence(o, es, dir, pool, depth);
      CoversUnordered(WalkFolder(o, readable, es, dir, parent, depth, next),
                      skipped + FoundIn(o, ds, dir, pool, depth) + FoundIn(o, vs, dir, pool, depth),
                      FoundIn(o, es, dir, pool, depth), 0);
    }
  }

  lemma {:induction false} WalkFoldersFind(o: Options, ds: seq<Entry>, dir: string, pool: seq<string>, parent: int, depth: nat, next: nat)
    requires forall d :: d in ds ==> d.Folder? && ClassOf(o, d) == Browse
    ensures Covers(WalkFolders(o, ds, dir, parent, depth, next), FoundIn(o, ds, dir, pool, depth), 0)
    decreases HeightOf(ds), 0, |ds|
  {
    hide WalkFolder, Found, Join, Covers, FoundAt;
    if ds == [] {
      CoversNothing(next, 0);
    } else {
      HeightMember(ds, ds[0]);
      var d, inside := ds[0], Join(dir, ds[0].name);
      var below := WalkFolder(o, d.readable, d.entries, inside, next, depth + 1, next + 1);
      var rest := WalkFolders(o, ds[1..], dir, parent, depth, below.next);
      WalkFindsEveryVideo(o, d.readable, d.entries, inside, next, depth + 1, next + 1);
      WalkFoldersFind(o, ds[1..], dir, pool, parent, depth, below.next);
      var k, failed := Tree((), FolderItem(d, dir, parent, next), below.kids), !AtLimit(o, depth + 1) && !d.readable;
      CoversNode(k, failed, below, Found(o, d.readable, d.entries, inside, depth + 1), below.next);
      FolderFound(o, d, dir, pool, depth, parent, next);
      CoversBoth(Plan([k], below.next, below.counts), FoundAt(o, d, dir, pool, depth), 0, rest,
                 FoundIn(o, ds[1..], dir, pool, depth), 0, rest.next);
      FoundCons(o, ds, dir, pool, depth);
    }
  }

  lemma {:induction false} WalkVideosFind(o: Options, vs: seq<Entry>, dir: string, pool: seq<string>, parent: int, depth: nat, next: nat)
    requires forall v :: v in vs ==> v.File? && ClassOf(o, v) == Play
    ensures Covers(WalkVideos(o, vs, dir, pool, parent, next), FoundIn(o, vs, dir, pool, depth), 0)
  {
    hide ClassOf, VideoItem, Covers, FoundAt;
    if vs == [] {
      CoversNothing(next, 0);
    } else {
      var item := VideoItem(o, vs[0], dir, pool, parent, next);
      var rest := WalkVideos(o, vs[1..], dir, pool, parent, next + 1);
      var k := Tree((), item, []);
      WalkVideosFind(o, vs[1..], dir, pool, parent, depth, next + 1);
      CoversVideo(k, vs[0].stat.None?, next + 1);
      VideoFound(o, vs[0], dir, pool, depth, parent, next);
      CoversBoth(Plan([k], next + 1, Counts(1, |item.subs|, 0, if vs[0].stat.None? then 1 else 0)),
                 FoundAt(o, vs[0], dir, pool, depth), 0, rest, FoundIn(o, vs[1..], dir, pool, depth), 0, rest.next);
      FoundCons(o, vs, dir, pool, depth);
    }
  }

  lemma FolderFound(o: Options, d: Entry, dir: string, pool: seq<string>, depth: nat, parent: int, id: int)
    requires d.Folder? && ClassOf(o, d) == Browse
    ensures FoundAt(o, d, dir, pool, depth)
            == [Made(SeenOf(FolderItem(d, dir, parent, id)), !AtLimit(o, depth + 1) && !d.readable)]
               + Found(o, d.readable, d.entries, Join(dir, d.name), depth + 1)
  {
    hide Found;
  }

  lemma VideoFound(o: Options, v: Entry, dir: string, pool: seq<string>, depth: nat, parent: int, id: int)
    requires v.File? && ClassOf(o, v) == Play
    ensures FoundAt(o, v, dir, pool, depth) == [Made(SeenOf(VideoItem(o, v, dir, pool, parent, id)), v.stat.None?)]
  {
    hide Matched, VideoTitle;
  }

  lemma VideosCons<N>(k: Tree<N>, ks: seq<Tree<N>>)
    ensures VideosOf([k] + ks) == Videos(k) + VideosOf(ks)
  {
    assert ([k] + ks)[1..] == ks;
  }
}
