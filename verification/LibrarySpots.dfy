/** The entries of a media folder, each with the folders on the way to it, and which of them a scan serves. */
module LibrarySpots {
  import opened Bytes
  import opened Ordering
  import opened Picking
  import opened Subtitles
  import opened LibraryTree
  import opened LibraryWalk

  /** An entry and the folders from the media folder down to the one that lists it. */
  datatype Place = Place(above: seq<Entry>, entry: Entry)

  /** Every entry at any depth, a folder before what is in it. */
  function Places(above: seq<Entry>, es: seq<Entry>): seq<Place>
    decreases HeightOf(es), |es|
  {
    if es == [] then []
    else
      HeightMember(es, es[0]);
      [Place(above, es[0])] + (if es[0].Folder? then Places(above + [es[0]], es[0].entries) else []) + Places(above, es[1..])
  }

  /** The path of the folder at the end of a chain. */
  function DirOf(root: string, chain: seq<Entry>): string {
    if chain == [] then root else DirOf(root, chain[..|chain| - 1]) + "/" + chain[|chain| - 1].name
  }

  /** What lies beside an entry. */
  function Beside(top: seq<Entry>, above: seq<Entry>): seq<Entry> {
    if above == [] then top else if above[|above| - 1].Folder? then above[|above| - 1].entries else []
  }

  // Names.

  /** A name that is never looked at. */
  predicate Hidden(o: Options, name: string) {
    (name != "" && name[0] == '.')
    || o.env.lower(name) in [".ds_store", "thumbs.db", "desktop.ini", "@eadir", "#recycle", "lost+found", "$recycle.bin",
                             "system volume information", ".trashes", ".spotlight-v100", ".fseventsd"]
  }

  predicate SubtitleFolder(o: Options, name: string) {
    o.env.lower(name) in ["subs", "sub", "subtitles", "subtitle", "srt", "subtitulos", "sottotitoli", "untertitel", "subtitres",
                          "legendas"]
  }

  predicate SubtitleName(o: Options, name: string) {
    o.env.lower(Ext(name)) in [".srt", ".ass", ".ssa", ".vtt", ".sub", ".smi", ".sami"]
  }

  predicate VideoName(o: Options, name: string) {
    !SubtitleName(o, name)
    && o.env.lower(Ext(name)) in [".mp4", ".m4v", ".mkv", ".webm", ".avi", ".divx", ".mov", ".mpg", ".mpeg", ".m2v", ".ts", ".m2ts",
                                  ".mts", ".wmv", ".asf", ".flv", ".ogv", ".ogg", ".3gp", ".vob"]
  }

  // Which places are reached.

  /** A folder that is browsed. */
  predicate Browsable(o: Options, f: Entry) {
    f.Folder? && !Hidden(o, f.name) && !SubtitleFolder(o, f.name)
  }

  /** The folder at the end of a chain is listed: all folders are browsable and readable, and the limit is not reached. */
  predicate Listed(o: Options, above: seq<Entry>) {
    (forall f :: f in above ==> Browsable(o, f) && f.readable) && (o.maxDepth > 0 ==> |above| < o.maxDepth)
  }

  predicate ServesFile(o: Options, p: Place) {
    Listed(o, p.above) && p.entry.File? && !Hidden(o, p.entry.name) && VideoName(o, p.entry.name)
  }

  predicate BrowsesFolder(o: Options, p: Place) {
    Listed(o, p.above) && Browsable(o, p.entry)
  }

  /** What is counted as skipped: hidden names, and files that are neither videos nor subtitles. */
  predicate SkipsEntry(o: Options, p: Place) {
    && Listed(o, p.above)
    && (Hidden(o, p.entry.name)
        || p.entry.Special?
        || (p.entry.File? && !VideoName(o, p.entry.name) && !SubtitleName(o, p.entry.name)))
  }

  /** A subtitle file beside a video, or at most two levels down in a subtitle folder beside it. */
  predicate PoolsFile(o: Options, p: Place) {
    if p.above == [] then p.entry.File? && !Hidden(o, p.entry.name) && SubtitleName(o, p.entry.name)
    else
      && |p.above| <= 2 && SubtitleFolder(o, p.above[0].name) && !Hidden(o, p.above[0].name)
      && (forall f :: f in p.above ==> f.Folder? && f.readable && !("." <= f.name))
      && !p.entry.Folder? && !("." <= p.entry.name) && SubtitleName(o, p.entry.name)
  }

  /** Paths of the subtitle files for the videos among some entries. */
  function PoolPath(o: Options, dir: string): Place -> Option<string> {
    (p: Place) => if PoolsFile(o, p) then Some(DirOf(dir, p.above) + "/" + p.entry.name) else None
  }

  function Pooled(o: Options, es: seq<Entry>, dir: string): seq<string> {
    Picked(Places([], es), PoolPath(o, dir))
  }

  /** What is known of the file or folder at a place that is reached. */
  function Shown(o: Options, root: string, top: seq<Entry>): Place -> Option<Seen> {
    (p: Place) => ShownAt(o, root, top, p)
  }

  function ShownAt(o: Options, root: string, top: seq<Entry>, p: Place): Option<Seen> {
    var dir := DirOf(root, p.above);
    if ServesFile(o, p) then
      Some(Film(
        dir + "/" + p.entry.name, VideoTitle(p.entry.name),
        if p.entry.stat.Some? then p.entry.stat.value.size else 0, if p.entry.stat.Some? then p.entry.stat.value.mod else 0,
        Matched(o.env, dir + "/" + p.entry.name, Pooled(o, Beside(top, p.above), dir), o.subLang)))
    else if BrowsesFolder(o, p) then
      Some(Dir(dir + "/" + p.entry.name, p.entry.name, if p.entry.changed.Some? then p.entry.changed.value else 0))
    else None
  }

  function Skips(o: Options): Place -> Option<()> {
    (p: Place) => if SkipsEntry(o, p) then Some(()) else None
  }

  /** A video that cannot be examined, or a folder that would be listed and cannot be. */
  predicate FailsAt(o: Options, p: Place) {
    (ServesFile(o, p) && p.entry.stat.None?)
    || (BrowsesFolder(o, p) && !p.entry.readable && (o.maxDepth > 0 ==> |p.above| + 1 < o.maxDepth))
  }

  function Fails(o: Options): Place -> Option<()> {
    (p: Place) => if FailsAt(o, p) then Some(()) else None
  }

  // The walk's classes are these conditions.

  lemma NamesAre(o: Options, name: string)
    ensures Hidden(o, name) <==> "." <= name || o.env.lower(name) in SKIP_NAMES
    ensures SubtitleFolder(o, name) <==> o.env.lower(name) in SUBTITLE_DIRS
    ensures SubtitleName(o, name) <==> o.env.lower(Ext(name)) in SUB_EXTS
    ensures VideoName(o, name) <==> o.env.lower(Ext(name)) !in SUB_EXTS && o.env.lower(Ext(name)) in VIDEO_EXTS
  {
    hide Ext;
    HiddenNames(o.env.lower(name));
    FolderNames(o.env.lower(name));
    SubtitleExts(o.env.lower(Ext(name)));
    VideoExts(o.env.lower(Ext(name)));
  }

  lemma HiddenNames(n: string)
    ensures n in SKIP_NAMES <==> n in [".ds_store", "thumbs.db", "desktop.ini", "@eadir", "#recycle", "lost+found", "$recycle.bin",
                                       "system volume information", ".trashes", ".spotlight-v100", ".fseventsd"]
  {
  }

  lemma FolderNames(n: string)
    ensures n in SUBTITLE_DIRS <==> n in ["subs", "sub", "subtitles", "subtitle", "srt", "subtitulos", "sottotitoli", "untertitel",
                                          "subtitres", "legendas"]
  {
  }

  lemma SubtitleExts(x: string)
    ensures x in SUB_EXTS <==> x in [".srt", ".ass", ".ssa", ".vtt", ".sub", ".smi", ".sami"]
  {
  }

  lemma VideoExts(x: string)
    ensures x in VIDEO_EXTS
            <==> x in [".mp4", ".m4v", ".mkv", ".webm", ".avi", ".divx", ".mov", ".mpg", ".mpeg", ".m2v", ".ts", ".m2ts", ".mts",
                       ".wmv", ".asf", ".flv", ".ogv", ".ogg", ".3gp", ".vob"]
  {
  }

  lemma ClassIs(o: Options, e: Entry)
    ensures ClassOf(o, e) == Play <==> e.File? && !Hidden(o, e.name) && VideoName(o, e.name)
    ensures ClassOf(o, e) == Browse <==> Browsable(o, e)
    ensures ClassOf(o, e) == Skip <==>
              Hidden(o, e.name) || e.Special? || (e.File? && !VideoName(o, e.name) && !SubtitleName(o, e.name))
    ensures ClassOf(o, e) == Track <==> e.File? && !Hidden(o, e.name) && SubtitleName(o, e.name)
    ensures ClassOf(o, e) == Pool <==> e.Folder? && !Hidden(o, e.name) && SubtitleFolder(o, e.name)
  {
    hide Hidden, SubtitleFolder, SubtitleName, VideoName, Ext;
    NamesAre(o, e.name);
  }

  // The pool.

  /** The places in a folder of a pool: how far down it is, and whether its chain is fit for the pool. */
  predicate PoolChain(o: Options, above: seq<Entry>) {
    && above != [] && SubtitleFolder(o, above[0].name) && !Hidden(o, above[0].name)
    && forall f :: f in above ==> f.Folder? && f.readable && !("." <= f.name)
  }

  lemma PlacesCons(above: seq<Entry>, es: seq<Entry>)
    requires es != []
    ensures Places(above, es)
            == [Place(above, es[0])] + (if es[0].Folder? then Places(above + [es[0]], es[0].entries) else [])
               + Places(above, es[1..])
  {
  }

  lemma PickedOne<R>(p: Place, f: Place -> Option<R>)
    ensures Picked([p], f) == if f(p).Some? then [f(p).value] else []
  {
    assert [p][1..] == [];
  }

  /** What a list of entries yields: the first entry, what is in it, and the rest. */
  lemma PickedPlaces<R>(above: seq<Entry>, es: seq<Entry>, f: Place -> Option<R>)
    requires es != []
    ensures var p := Place(above, es[0]);
            Picked(Places(above, es), f)
            == (if f(p).Some? then [f(p).value] else [])
               + (if es[0].Folder? then Picked(Places(above + [es[0]], es[0].entries), f) else [])
               + Picked(Places(above, es[1..]), f)
  {
    hide Picked, Places;
    var p, inside := Place(above, es[0]), if es[0].Folder? then Places(above + [es[0]], es[0].entries) else [];
    PlacesCons(above, es);
    PickedAppend([p] + inside, Places(above, es[1..]), f);
    PickedAppend([p], inside, f);
    PickedOne(p, f);
    NoPlaces(above, f);
  }

  lemma NoPlaces<R>(above: seq<Entry>, f: Place -> Option<R>)
    ensures Places(above, []) == [] && Picked([], f) == []
  {
  }

  /** Nothing is picked below a chain when nothing is picked at any place whose chain goes on from it. */
  lemma {:induction false} NothingBelow<R>(above: seq<Entry>, es: seq<Entry>, f: Place -> Option<R>)
    requires forall p: Place :: above <= p.above ==> f(p) == None
    ensures Picked(Places(above, es), f) == []
    decreases HeightOf(es), |es|
  {
    hide Picked, Places, HeightOf;
    NoPlaces(above, f);
    if es != [] {
      PickedPlaces(above, es, f);
      HeightsOfParts(es);
      if es[0].Folder? {
        NothingBelow(above + [es[0]], es[0].entries, f);
      }
      NothingBelow(above, es[1..], f);
    }
  }

  lemma HeightsOfParts(es: seq<Entry>)
    requires es != []
    ensures HeightOf(es[1..]) <= HeightOf(es) && (es[0].Folder? ==> HeightOf(es[0].entries) < HeightOf(es))
  {
    HeightMember(es, es[0]);
  }

  lemma PrefixKeeps(o: Options, above: seq<Entry>, p: Place)
    requires above != [] && above <= p.above && PoolsFile(o, p)
    ensures PoolChain(o, above) && |above| <= 2
  {
    assert above[0] == p.above[0];
    forall f | f in above
      ensures f in p.above
    {
      var i :| 0 <= i < |above| && above[i] == f;
      assert p.above[i] == f;
    }
  }

  lemma {:induction false} PoolBelow(o: Options, es: seq<Entry>, root: string, above: seq<Entry>)
    requires PoolChain(o, above) && |above| <= 2
    ensures Picked(Places(above, es), PoolPath(o, root)) == SubtitleFiles(o, true, es, DirOf(root, above), 3 - |above|)
    decreases HeightOf(es), |es|
  {
    hide Picked, Places, HeightOf, Ext, Hidden, SubtitleFolder, SubtitleName;
    var f := PoolPath(o, root);
    NoPlaces(above, f);
    if es != [] {
      var e, dir := es[0], DirOf(root, above);
      PickedPlaces(above, es, f);
      HeightsOfParts(es);
      NamesAre(o, e.name);
      PoolBelow(o, es[1..], root, above);
      if e.Folder? {
        PoolInside(o, e, root, above);
      }
      assert f(Place(above, e)).Some? <==> !e.Folder? && !("." <= e.name) && SubtitleName(o, e.name);
    }
  }

  lemma ChainGoesOn(o: Options, e: Entry, root: string, above: seq<Entry>)
    requires PoolChain(o, above) && e.Folder?
    ensures PoolChain(o, above + [e]) <==> e.readable && !("." <= e.name)
    ensures DirOf(root, above + [e]) == Join(DirOf(root, above), e.name)
  {
    hide Hidden, SubtitleFolder;
    var longer := above + [e];
    assert longer[0] == above[0] && e in longer && longer[..|longer| - 1] == above;
    assert forall x :: x in longer <==> x in above || x == e;
  }

  lemma {:induction false} PoolInside(o: Options, e: Entry, root: string, above: seq<Entry>)
    requires e.Folder? && PoolChain(o, above) && |above| <= 2
    ensures Picked(Places(above + [e], e.entries), PoolPath(o, root))
            == if "." <= e.name then []
               else SubtitleFiles(o, e.readable, e.entries, Join(DirOf(root, above), e.name), 2 - |above|)
    decreases HeightOf(e.entries), |e.entries| + 1
  {
    hide Picked, Places, HeightOf, Hidden, SubtitleFolder, SubtitleName, PoolChain, PoolsFile;
    var longer := above + [e];
    ChainGoesOn(o, e, root, above);
    if PoolChain(o, longer) && |longer| <= 2 {
      PoolBelow(o, e.entries, root, longer);
    } else {
      forall p: Place | longer <= p.above
        ensures !PoolsFile(o, p)
      {
        if PoolsFile(o, p) {
          PrefixKeeps(o, longer, p);
        }
      }
      NothingBelow(longer, e.entries, PoolPath(o, root));
    }
  }

  /** The pool of a folder is what lies beside its videos and at most two levels down in its subtitle folders. */
  lemma {:induction false} PoolIs(o: Options, es: seq<Entry>, dir: string)
    ensures PoolOf(o, es, dir) == Pooled(o, es, dir)
    decreases |es|
  {
    hide Picked, Places, Ext, Hidden, SubtitleFolder, SubtitleName, VideoName, SubtitleFiles, ClassOf;
    var f := PoolPath(o, dir);
    NoPlaces([], f);
    if es != [] {
      var e := es[0];
      PickedPlaces([], es, f);
      PoolIs(o, es[1..], dir);
      ClassIs(o, e);
      assert DirOf(dir, []) == dir;
      if e.Folder? {
        PoolOfFolder(o, e, dir);
        assert [] + [e] == [e];
      }
    }
  }

  lemma PoolOfFolder(o: Options, e: Entry, dir: string)
    requires e.Folder?
    ensures Picked(Places([e], e.entries), PoolPath(o, dir))
            == if !Hidden(o, e.name) && SubtitleFolder(o, e.name) then SubtitleFiles(o, e.readable, e.entries, Join(dir, e.name), 2)
               else []
  {
    hide Picked, Places, SubtitleFolder, SubtitleName, PoolsFile;
    NamesAre(o, e.name);
    assert DirOf(dir, [e]) == DirOf(dir, []) + "/" + e.name by {
      assert [e][..0] == [];
    }
    if PoolChain(o, [e]) {
      PoolBelow(o, e.entries, dir, [e]);
    } else {
      forall p: Place | [e] <= p.above
        ensures !PoolsFile(o, p)
      {
        if PoolsFile(o, p) {
          PrefixKeeps(o, [e], p);
        }
      }
      NothingBelow([e], e.entries, PoolPath(o, dir));
    }
  }

  // The walk finds what is shown.

  /** What a list of findings comes to, against what some places come to. */
  ghost predicate Agrees(o: Options, root: string, top: seq<Entry>, fs: seq<Finding>, ps: seq<Place>) {
    && Picked(fs, SeenBy) == Picked(ps, Shown(o, root, top))
    && |Picked(fs, PassedBy)| == |Picked(ps, Skips(o))| && |Picked(fs, FailedBy)| == |Picked(ps, Fails(o))|
  }

  lemma AgreeBoth(o: Options, root: string, top: seq<Entry>, fs: seq<Finding>, ps: seq<Place>, gs: seq<Finding>, qs: seq<Place>)
    requires Agrees(o, root, top, fs, ps) && Agrees(o, root, top, gs, qs)
    ensures Agrees(o, root, top, fs + gs, ps + qs)
  {
    hide Picked, Shown, Skips, Fails;
    PickedAppend(fs, gs, SeenBy);
    PickedAppend(fs, gs, PassedBy);
    PickedAppend(fs, gs, FailedBy);
    PickedAppend(ps, qs, Shown(o, root, top));
    PickedAppend(ps, qs, Skips(o));
    PickedAppend(ps, qs, Fails(o));
  }

  lemma AgreeNothing(o: Options, root: string, top: seq<Entry>)
    ensures Agrees(o, root, top, [], [])
  {
  }

  lemma ListedPrefix(o: Options, above: seq<Entry>, longer: seq<Entry>)
    requires above <= longer && Listed(o, longer)
    ensures Listed(o, above)
  {
    hide Browsable;
    forall f | f in above
      ensures f in longer
    {
      var i :| 0 <= i < |above| && above[i] == f;
      assert longer[i] == f;
    }
  }

  /** Below a folder that is not listed nothing is shown, skipped or counted as an error. */
  lemma AgreeUnlisted(o: Options, root: string, top: seq<Entry>, above: seq<Entry>, es: seq<Entry>)
    requires !Listed(o, above)
    ensures Agrees(o, root, top, [], Places(above, es))
  {
    hide Picked, Places, Listed, Hidden, VideoName, SubtitleName, Browsable, Matched, Pooled;
    forall p: Place | above <= p.above
      ensures !Listed(o, p.above)
    {
      if Listed(o, p.above) {
        ListedPrefix(o, above, p.above);
      }
    }
    NothingBelow(above, es, Shown(o, root, top));
    NothingBelow(above, es, Skips(o));
    NothingBelow(above, es, Fails(o));
    AgreeNothing(o, root, top);
    NothingPickedOf();
  }

  lemma NothingPickedOf()
    ensures Picked([], SeenBy) == [] && Picked([], PassedBy) == [] && Picked([], FailedBy) == []
  {
  }

  /** One entry alone, without what is in it. */
  function Own(o: Options, e: Entry, dir: string, pool: seq<string>, depth: nat): seq<Finding> {
    match ClassOf(o, e)
    case Play => [Made(SeenOf(VideoItem(o, e, dir, pool, 0, 0)), e.stat.None?)]
    case Browse =>
      if e.Folder? then [Made(SeenOf(FolderItem(e, dir, 0, 0)), !AtLimit(o, depth + 1) && !e.readable)] else []
    case Skip => [Passed]
    case _ => []
  }

  lemma OwnAgrees(o: Options, root: string, top: seq<Entry>, above: seq<Entry>, e: Entry)
    requires Listed(o, above)
    ensures var dir := DirOf(root, above);
            Agrees(o, root, top, Own(o, e, dir, Pooled(o, Beside(top, above), dir), |above|), [Place(above, e)])
  {
    hide Picked, Places, Listed, Hidden, SubtitleFolder, VideoName, SubtitleName, Matched, Pooled, Ext, VideoTitle, DirOf, ClassOf;
    var p, dir := Place(above, e), DirOf(root, above);
    var own := Own(o, e, dir, Pooled(o, Beside(top, above), dir), |above|);
    ClassIs(o, e);
    PickedOne(p, Shown(o, root, top));
    PickedOne(p, Skips(o));
    PickedOne(p, Fails(o));
    NothingPickedOf();
    if own != [] {
      OneFinding(own[0]);
      assert own == [own[0]];
    }
  }

  lemma OneFinding(f: Finding)
    ensures Picked([f], SeenBy) == (if f.Made? then [f.seen] else [])
    ensures Picked([f], PassedBy) == (if f.Passed? then [()] else [])
    ensures Picked([f], FailedBy) == (if f.Made? && f.failed then [()] else [])
  {
    assert [f][1..] == [];
  }

  lemma FoundSplits(o: Options, e: Entry, dir: string, pool: seq<string>, depth: nat)
    ensures FoundAt(o, e, dir, pool, depth)
            == Own(o, e, dir, pool, depth)
               + if Browsable(o, e) then Found(o, e.readable, e.entries, Join(dir, e.name), depth + 1) else []
  {
    hide Found, VideoItem, FolderItem, Hidden, SubtitleFolder, ClassOf, VideoName, SubtitleName;
    ClassIs(o, e);
  }

  lemma LongerChain(o: Options, root: string, top: seq<Entry>, above: seq<Entry>, e: Entry)
    requires Listed(o, above) && e.Folder?
    ensures DirOf(root, above + [e]) == Join(DirOf(root, above), e.name) && Beside(top, above + [e]) == e.entries
    ensures Listed(o, above + [e]) <==> Browsable(o, e) && e.readable && !AtLimit(o, |above| + 1)
  {
    hide Browsable;
    var longer := above + [e];
    assert longer[..|longer| - 1] == above && e in longer;
    assert forall f :: f in longer <==> f in above || f == e;
  }

  /** In a listed folder, what the walk finds is what the places in it show. */
  lemma {:induction false} FoundIsShown(o: Options, root: string, top: seq<Entry>, above: seq<Entry>, es: seq<Entry>)
    requires Listed(o, above)
    ensures var dir := DirOf(root, above);
            Agrees(o, root, top, FoundIn(o, es, dir, Pooled(o, Beside(top, above), dir), |above|), Places(above, es))
    decreases HeightOf(es), |es|
  {
    hide Agrees, Places, FoundIn, FoundAt, Listed, Pooled, HeightOf, DirOf, Beside, Own;
    var dir := DirOf(root, above);
    var pool := Pooled(o, Beside(top, above), dir);
    if es == [] {
      FoundNil(o, dir, pool, |above|);
      NoPlaces(above, Skips(o));
      AgreeNothing(o, root, top);
    } else {
      var e := es[0];
      HeightsOfParts(es);
      FoundIsShown(o, root, top, above, es[1..]);
      OwnAgrees(o, root, top, above, e);
      FoundSplits(o, e, dir, pool, |above|);
      var inside := if e.Folder? then Places(above + [e], e.entries) else [];
      var below := if Browsable(o, e) then Found(o, e.readable, e.entries, Join(dir, e.name), |above| + 1) else [];
      if e.Folder? {
        FoundInside(o, root, top, above, e);
      } else {
        AgreeNothing(o, root, top);
      }
      AgreeBoth(o, root, top, Own(o, e, dir, pool, |above|), [Place(above, e)], below, inside);
      FoundCons(o, es, dir, pool, |above|);
      PlacesCons(above, es);
      AgreeBoth(o, root, top, FoundAt(o, e, dir, pool, |above|), [Place(above, e)] + inside,
                FoundIn(o, es[1..], dir, pool, |above|), Places(above, es[1..]));
    }
  }

  lemma {:induction false} FoundInside(o: Options, root: string, top: seq<Entry>, above: seq<Entry>, e: Entry)
    requires Listed(o, above) && e.Folder?
    ensures Agrees(o, root, top,
                   if Browsable(o, e) then Found(o, e.readable, e.entries, Join(DirOf(root, above), e.name), |above| + 1) else [],
                   Places(above + [e], e.entries))
    decreases HeightOf(e.entries), |e.entries| + 1
  {
    hide Agrees, Places, FoundIn, Listed, Pooled, HeightOf, DirOf, Beside, PoolOf;
    var longer := above + [e];
    LongerChain(o, root, top, above, e);
    if Listed(o, longer) {
      PoolIs(o, e.entries, DirOf(root, longer));
      FoundIsShown(o, root, top, longer, e.entries);
    } else {
      AgreeUnlisted(o, root, top, longer, e.entries);
    }
  }

  /** Everything below a media folder, when it can be read. */
  function Whole(d: Entry): seq<Place>
    requires d.Folder?
  {
    if d.readable then Places([], d.entries) else []
  }

  /**
   * A walk of a media folder makes one node for every place that shows something, and nothing else, and counts the places
   * that are skipped and those that fail.
   */
  lemma WalkShowsPlaces(o: Options, d: Entry, path: string)
    requires d.Folder?
    ensures var w := WalkFolder(o, d.readable, d.entries, path, 0, 0, 1);
            && multiset(SeenAll(w.kids)) == multiset(Picked(Whole(d), Shown(o, path, d.entries)))
            && w.counts.skipped == |Picked(Whole(d), Skips(o))|
            && w.counts.errors == |Picked(Whole(d), Fails(o))| + (if d.readable then 0 else 1)
  {
    hide Picked, Places, FoundIn, WalkFolder, SeenAll, Pooled, PoolOf;
    WalkFindsEveryVideo(o, d.readable, d.entries, path, 0, 0, 1);
    assert DirOf(path, []) == path && Beside(d.entries, []) == d.entries && Listed(o, []);
    if d.readable {
      PoolIs(o, d.entries, path);
      FoundIsShown(o, path, d.entries, [], d.entries);
    } else {
      NothingPickedOf();
      AgreeNothing(o, path, d.entries);
    }
  }

  // The order in which nodes are made and numbered.

  /** Subfolders come before videos, and names of one kind are in order, upper case like lower. */
  ghost predicate MadeBefore(lower: string -> string, dir: string, a: Item, b: Item) {
    if a.kind != b.kind then a.kind == Container && b.kind == Video
    else
      exists x, y :: a.path == dir + "/" + x && b.path == dir + "/" + y
                     && if lower(x) != lower(y) then Before(lower(x), lower(y)) else x == y || Before(x, y)
  }

  /** In a folder and in every folder below it. */
  ghost predicate InNameOrder<N>(lower: string -> string, dir: string, ks: seq<Tree<N>>)
    decreases ks
  {
    && (forall i, j :: 0 <= i < j < |ks| ==> MadeBefore(lower, dir, ks[i].item, ks[j].item))
    && forall k :: k in ks && k.item.kind == Container ==> InNameOrder(lower, k.item.path, k.kids)
  }

  /** Nodes of one kind, made in order. */
  ghost predicate OneKind<N>(lower: string -> string, dir: string, ks: seq<Tree<N>>, kind: Kind) {
    && (forall i :: 0 <= i < |ks| ==> ks[i].item.kind == kind)
    && forall i, j :: 0 <= i < j < |ks| ==> MadeBefore(lower, dir, ks[i].item, ks[j].item)
  }

  lemma EntriesSorted(o: Options, es: seq<Entry>, c: Class)
    ensures Sorted(InSequence(o, es, c), EntryOrder(o.env.lower))
  {
    hide LessFold, OfClass, StableSort;
    var less, lower, s := EntryOrder(o.env.lower), o.env.lower, OfClass(o, es, c);
    forall x | x in s
      ensures !less(x, x)
    {
      LessFoldTotal(lower, x.name, x.name);
    }
    forall x, y, z | x in s && y in s && z in s && less(x, y) && less(y, z)
      ensures less(x, z)
    {
      LessFoldTransitive(lower, x.name, y.name, z.name);
    }
    forall x, y, z | x in s && y in s && z in s && !less(x, y) && !less(y, z)
      ensures !less(x, z)
    {
      NotLessFoldTransitive(lower, x.name, y.name, z.name);
    }
    SortSorts(s, less);
  }

  lemma {:induction false} FolderKids(o: Options, ds: seq<Entry>, dir: string, parent: int, depth: nat, next: nat, i: nat)
    requires (forall d :: d in ds ==> d.Folder?) && i < |ds|
    ensures var ks := WalkFolders(o, ds, dir, parent, depth, next).kids;
            |ks| == |ds| && ks[i].item.kind == Container && ks[i].item.path == dir + "/" + ds[i].name
    decreases ds
  {
    hide WalkFolder;
    HeightMember(ds, ds[0]);
    var below := WalkFolder(o, ds[0].readable, ds[0].entries, Join(dir, ds[0].name), next, depth + 1, next + 1);
    var rest := WalkFolders(o, ds[1..], dir, parent, depth, below.next);
    if |ds| == 1 {
      assert rest.kids == [];
    } else {
      FolderKids(o, ds[1..], dir, parent, depth, below.next, if i > 0 then i - 1 else 0);
    }
  }

  lemma {:induction false} VideoKids(o: Options, vs: seq<Entry>, dir: string, pool: seq<string>, parent: int, next: nat, i: nat)
    requires (forall v :: v in vs ==> v.File?) && i < |vs|
    ensures var ks := WalkVideos(o, vs, dir, pool, parent, next).kids;
            |ks| == |vs| && ks[i].item.kind == Video && ks[i].item.path == dir + "/" + vs[i].name
    decreases vs
  {
    hide Matched, VideoTitle;
    var rest := WalkVideos(o, vs[1..], dir, pool, parent, next + 1);
    if |vs| == 1 {
      assert rest.kids == [];
    } else {
      VideoKids(o, vs[1..], dir, pool, parent, next + 1, if i > 0 then i - 1 else 0);
    }
  }

  lemma SortedIsMadeBefore(lower: string -> string, dir: string, s: seq<Entry>, i: nat, j: nat, a: Item, b: Item)
    requires Sorted(s, EntryOrder(lower)) && i < j < |s| && a.kind == b.kind
    requires a.path == dir + "/" + s[i].name && b.path == dir + "/" + s[j].name
    ensures MadeBefore(lower, dir, a, b)
  {
    hide Before;
    var x, y := s[i].name, s[j].name;
    assert !EntryOrder(lower)(s[j], s[i]);
    BeforeTrichotomy(lower(x), lower(y));
    BeforeTrichotomy(x, y);
  }

  lemma FoldersMadeInOrder(o: Options, ds: seq<Entry>, dir: string, parent: int, depth: nat, next: nat)
    requires (forall d :: d in ds ==> d.Folder?) && Sorted(ds, EntryOrder(o.env.lower))
    ensures OneKind(o.env.lower, dir, WalkFolders(o, ds, dir, parent, depth, next).kids, Container)
  {
    hide WalkFolders, Sorted, EntryOrder, MadeBefore;
    var ks := WalkFolders(o, ds, dir, parent, depth, next).kids;
    if ds == [] {
      NoFolders(o, dir, parent, depth, next);
    } else {
      FolderKids(o, ds, dir, parent, depth, next, 0);
      forall i | 0 <= i < |ks|
        ensures ks[i].item.kind == Container && ks[i].item.path == dir + "/" + ds[i].name
      {
        FolderKids(o, ds, dir, parent, depth, next, i);
      }
      forall i, j | 0 <= i < j < |ks|
        ensures MadeBefore(o.env.lower, dir, ks[i].item, ks[j].item)
      {
        SortedIsMadeBefore(o.env.lower, dir, ds, i, j, ks[i].item, ks[j].item);
      }
    }
  }

  lemma NoFolders(o: Options, dir: string, parent: int, depth: nat, next: nat)
    ensures WalkFolders(o, [], dir, parent, depth, next).kids == []
  {
  }

  lemma VideosMadeInOrder(o: Options, vs: seq<Entry>, dir: string, pool: seq<string>, parent: int, next: nat)
    requires (forall v :: v in vs ==> v.File?) && Sorted(vs, EntryOrder(o.env.lower))
    ensures OneKind(o.env.lower, dir, WalkVideos(o, vs, dir, pool, parent, next).kids, Video)
  {
    hide WalkVideos, Sorted, EntryOrder, MadeBefore;
    var ks := WalkVideos(o, vs, dir, pool, parent, next).kids;
    if vs == [] {
      NoVideos(o, dir, pool, parent, next);
    } else {
      VideoKids(o, vs, dir, pool, parent, next, 0);
      forall i | 0 <= i < |ks|
        ensures ks[i].item.kind == Video && ks[i].item.path == dir + "/" + vs[i].name
      {
        VideoKids(o, vs, dir, pool, parent, next, i);
      }
      forall i, j | 0 <= i < j < |ks|
        ensures MadeBefore(o.env.lower, dir, ks[i].item, ks[j].item)
      {
        SortedIsMadeBefore(o.env.lower, dir, vs, i, j, ks[i].item, ks[j].item);
      }
    }
  }

  lemma NoVideos(o: Options, dir: string, pool: seq<string>, parent: int, next: nat)
    ensures WalkVideos(o, [], dir, pool, parent, next).kids == []
  {
  }

  /** So identifiers, which are handed out as nodes are made, follow the names: folders with all below them, then videos. */
  lemma {:induction false} WalkInNameOrder(o: Options, readable: bool, es: seq<Entry>, dir: string, parent: int, depth: nat, next: nat)
    ensures InNameOrder(o.env.lower, dir, WalkFolder(o, readable, es, dir, parent, depth, next).kids)
    decreases HeightOf(es), 1, 0
  {
    hide PoolOf, InSequence, OfClass, WalkFolders, WalkVideos, MadeBefore, Sorted, OneKind;
    if readable && !AtLimit(o, depth) {
      var pool, ds, vs := PoolOf(o, es, dir), InSequence(o, es, Browse), InSequence(o, es, Play);
      HeightSubset(ds, es);
      EntriesSorted(o, es, Browse);
      EntriesSorted(o, es, Play);
      var folders := WalkFolders(o, ds, dir, parent, depth, next);
      var videos := WalkVideos(o, vs, dir, pool, parent, folders.next);
      FoldersMadeInOrder(o, ds, dir, parent, depth, next);
      VideosMadeInOrder(o, vs, dir, pool, parent, folders.next);
      FoldersInNameOrder(o, ds, dir, parent, depth, next);
      InOrderTogether(o.env.lower, dir, folders.kids, videos.kids);
    }
  }

  lemma InOrderTogether<N>(lower: string -> string, dir: string, fs: seq<Tree<N>>, vs: seq<Tree<N>>)
    requires OneKind(lower, dir, fs, Container) && OneKind(lower, dir, vs, Video)
    requires forall k :: k in fs ==> InNameOrder(lower, k.item.path, k.kids)
    ensures InNameOrder(lower, dir, fs + vs)
  {
    var ks := fs + vs;
    forall i, j | 0 <= i < j < |ks|
      ensures MadeBefore(lower, dir, ks[i].item, ks[j].item)
    {
      if j < |fs| {
        assert ks[i] == fs[i] && ks[j] == fs[j];
      } else if i >= |fs| {
        assert ks[i] == vs[i - |fs|] && ks[j] == vs[j - |fs|];
      } else {
        assert ks[i] == fs[i] && ks[j] == vs[j - |fs|];
      }
    }
    hide MadeBefore;
    forall k | k in ks && k.item.kind == Container
      ensures InNameOrder(lower, k.item.path, k.kids)
    {
      assert k in vs ==> k.item.kind == Video;
    }
  }

  lemma {:induction false} FoldersInNameOrder(o: Options, ds: seq<Entry>, dir: string, parent: int, depth: nat, next: nat)
    requires forall d :: d in ds ==> d.Folder?
    ensures forall k :: k in WalkFolders(o, ds, dir, parent, depth, next).kids ==> InNameOrder(o.env.lower, k.item.path, k.kids)
    decreases HeightOf(ds), 0, |ds|
  {
    hide WalkFolder, InNameOrder;
    if ds != [] {
      HeightMember(ds, ds[0]);
      var below := WalkFolder(o, ds[0].readable, ds[0].entries, Join(dir, ds[0].name), next, depth + 1, next + 1);
      var rest := WalkFolders(o, ds[1..], dir, parent, depth, below.next);
      WalkInNameOrder(o, ds[0].readable, ds[0].entries, Join(dir, ds[0].name), next, depth + 1, next + 1);
      FoldersInNameOrder(o, ds[1..], dir, parent, depth, below.next);
      var k := Tree((), FolderItem(ds[0], dir, parent, next), below.kids);
      assert WalkFolders(o, ds, dir, parent, depth, next).kids == [k] + rest.kids;
    }
  }
}
