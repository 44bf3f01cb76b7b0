/** The library: scanning a media folder and publishing what may be served. */
module Library {
  import opened Bytes
  import opened Subtitles
  import opened LibraryTree
  import opened LibraryNodes
  import opened LibraryScan
  import opened LibraryProbe
  import opened LibraryWalk
  import opened LibraryBuild

  datatype Stats = Stats(containers: nat, videos: nat, subtitles: nat, skipped: nat, errors: nat, rejected: nat)

  function RootItem(name: string, path: string, d: Entry): Item
    requires d.Folder?
  {
    Item(0, -1, Container, if name == "" then Base(path) else name, path, 0, if d.changed.Some? then d.changed.value else 0,
         [], UNKNOWN, false, "")
  }

  lemma {:induction false} JudgeNodes(p: Probes, t: Tree<Node>, done: set<Node>)
    ensures Nodes(JudgeIn(p, t, done)) == Nodes(t) && (Distinct(JudgeIn(p, t, done)) <==> Distinct(t))
    decreases t
  {
    JudgeKidsNodes(p, t.kids, done);
  }

  lemma {:induction false} JudgeKidsNodes(p: Probes, ks: seq<Tree<Node>>, done: set<Node>)
    ensures NodesOf(JudgeInAll(p, ks, done)) == NodesOf(ks) && (DistinctAll(JudgeInAll(p, ks, done)) <==> DistinctAll(ks))
    decreases ks
  {
    if ks != [] {
      JudgeNodes(p, ks[0], done);
      JudgeKidsNodes(p, ks[1..], done);
      assert JudgeInAll(p, ks, done)[1..] == JudgeInAll(p, ks[1..], done);
    }
  }

  /** The walked children are those of the walk, and every video among them has been judged. */
  ghost predicate Scanned(o: Options, d: Entry, path: string, kids: seq<Tree<Node>>, done: set<Node>)
    requires d.Folder?
  {
    && EraseAll(kids) == WholeWalk(o, d, path).kids
    && forall v :: v in VideoNodesOf(kids) ==> v in done
  }

  lemma ScanIsWalk(o: Options, d: Entry, path: string, kids: seq<Tree<Node>>, done: set<Node>, walked: Tree<Node>)
    requires d.Folder? && walked.kids == kids && walked.item.kind == Container
    requires EraseAll(kids) == WholeWalk(o, d, path).kids
    requires forall v :: v in VideoNodes(walked) ==> v in done
    ensures Scanned(o, d, path, kids, done)
  {
  }

  /** The statistics of a scan: what is published is counted as published, the rest as the walk saw it. */
  function StatsOf<N>(o: Options, d: Entry, path: string, published: Tree<N>, refused: seq<Rejected>): Stats
    requires d.Folder?
  {
    var tally := WholeWalk(o, d, path).counts;
    Stats(|Folders(published)|, |Videos(published)|, SubtitleCount(Videos(published)), tally.skipped, tally.errors, |refused|)
  }

  lemma JudgedRoot(p: Probes, t: Tree<Node>, done: set<Node>)
    requires t.item.kind == Container
    ensures JudgeIn(p, t, done).node == t.node && JudgeIn(p, t, done).item == t.item
  {
  }

  /** A container is made for the media folder and everything below it is walked. */
  method Plant(o: Options, name: string, path: string, d: Entry) returns (top: Node, b: Builder, ghost kids: seq<Tree<Node>>)
    requires d.Folder?
    ensures fresh(top) && fresh(b) && top.parent == null && fresh(NodesOf(kids))
    ensures var t := Tree(top, RootItem(name, path, d), kids);
            Shape(t, null) && Distinct(t)
    ensures EraseAll(kids) == WholeWalk(o, d, path).kids && b.byID == AddAll(map[0 := top], kids) && b.rejected == []
    ensures b.skipped == WholeWalk(o, d, path).counts.skipped && b.errors == WholeWalk(o, d, path).counts.errors
  {
    hide Shape, Distinct, WholeWalk, AddAll, EraseAll;
    var title := if name == "" then Base(path) else name;
    top := new Node(0, -1, Container, title, path, 0, if d.changed.Some? then d.changed.value else 0, [], null);
    b := new Builder(top);
    kids := Grow(o, b, top, d);
  }

  /** One pass from the media folder to the tree that may be served. */
  method Rebuild(o: Options, name: string, p: Probes, workers: nat, path: string, d: Entry)
    returns (top: Node, b: Builder, stats: Stats, ghost kids: seq<Tree<Node>>, ghost done: set<Node>)
    requires d.Folder? && workers > 0
    ensures fresh(top) && fresh(b) && fresh(NodesOf(kids)) && b.byID == AddAll(map[0 := top], kids)
    ensures Scanned(o, d, path, kids, done) && Distinct(Tree(top, RootItem(name, path, d), kids))
    ensures var judged := JudgeIn(p, Tree(top, RootItem(name, path, d), kids), done);
            && Shape(Published(o.env.lower, judged), null) && b.rejected == Refusals(judged)
            && stats == StatsOf(o, d, path, Published(o.env.lower, judged), Refusals(judged))
  {
    hide Shape, Distinct, Published, Refusals, JudgeIn, Scanned, WholeWalk, AddAll, EraseAll, Videos, Folders, SubtitleCount;
    top, b, kids := Plant(o, name, path, d);
    ghost var walked := Tree(top, RootItem(name, path, d), kids);
    done := ProbeAll(p, workers, top, walked);
    ghost var judged := JudgeIn(p, walked, done);
    JudgeNodes(p, walked, done);
    JudgedRoot(p, walked, done);
    var containers, videos, subtitles := Publish(b, o.env.lower, top, judged);
    stats := Stats(containers, videos, subtitles, b.skipped, b.errors, |b.rejected|);
    ScanIsWalk(o, d, path, kids, done, walked);
  }

  class Library {
    const options: Options
    const name: string
    const probes: Probes
    const workers: nat
    var root: Node?
    var byID: map<int, Node>
    var stats: Stats
    var rejected: seq<Rejected>
    var updateID: nat
    var scans: nat

    constructor (options: Options, name: string, probes: Probes, workers: nat)
      requires workers > 0
      ensures this.options == options && this.name == name && this.probes == probes && this.workers == workers
      ensures root == null && byID == map[] && rejected == [] && scans == 0 && updateID == 0
      ensures stats == Stats(0, 0, 0, 0, 0, 0)
    {
      this.options, this.name, this.probes, this.workers := options, name, probes, workers;
      root, byID, rejected, scans, updateID, stats := null, map[], [], 0, 0, Stats(0, 0, 0, 0, 0, 0);
    }

    /** Rebuilds the index; when the media folder cannot be read as a folder, nothing changes. */
    method Scan(disk: Option<Entry>, path: string) returns (ok: bool, ghost kids: seq<Tree<Node>>, ghost done: set<Node>)
      requires workers > 0
      modifies this
      ensures ok <==> disk.Some? && disk.value.Folder?
      ensures !ok ==> unchanged(this)
      ensures ok ==> root != null && byID == AddAll(map[0 := root], kids) && Scanned(options, disk.value, path, kids, done)
      ensures ok ==> Distinct(Tree(root, RootItem(name, path, disk.value), kids))
      ensures ok ==>
                var judged := JudgeIn(probes, Tree(root, RootItem(name, path, disk.value), kids), done);
                && Shape(Published(options.env.lower, judged), null) && rejected == Refusals(judged)
                && stats == StatsOf(options, disk.value, path, Published(options.env.lower, judged), Refusals(judged))
      ensures ok ==> scans == old(scans) + 1 && updateID == scans % 0x1_0000_0000
    {
      hide Shape, Distinct, Published, Refusals, JudgeIn, Scanned, StatsOf, AddAll, EraseAll, WholeWalk, RootItem;
      kids, done := [], {};
      ok := disk.Some? && disk.value.Folder?;
      if !ok {
        return;
      }
      var top, b, counted;
      top, b, counted, kids, done := Rebuild(options, name, probes, workers, path, disk.value);
      ghost var published := Published(options.env.lower, JudgeIn(probes, Tree(top, RootItem(name, path, disk.value), kids), done));
      assert allocated(Nodes(published)) && Shape(published, null);
      root, byID, rejected, stats := top, b.byID, b.rejected, counted;
      scans := scans + 1;
      updateID := scans % 0x1_0000_0000;
      assert Shape(published, null);
    }
  }
}
