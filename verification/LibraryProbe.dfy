/** Probing every video with a pool of workers that take jobs from an unbuffered channel. */
module LibraryProbe {
  import opened LibraryTree
  import opened LibraryNodes
  import opened LibraryScan

  // The pool: a producer sends jobs 0, 1, ... and closes the channel; each worker receives until it is closed.

  datatype Worker = Idle | Busy(job: nat) | Gone

  /** next is the job to send; log lists the jobs probed so far, in the order they finished. */
  datatype Pool = Pool(next: nat, closed: bool, workers: seq<Worker>, log: seq<nat>)

  datatype Step = Hand(w: nat) | Finish(w: nat) | Close | Quit(w: nat)

  predicate Enabled(n: nat, s: Pool, step: Step) {
    match step
    case Hand(w) => w < |s.workers| && s.workers[w] == Idle && s.next < n
    case Finish(w) => w < |s.workers| && s.workers[w].Busy?
    case Close => s.next == n && !s.closed
    case Quit(w) => w < |s.workers| && s.workers[w] == Idle && s.closed
  }

  /** A send on an unbuffered channel and the receive that meets it are one step. */
  function Next(n: nat, s: Pool, step: Step): Pool
    requires Enabled(n, s, step)
  {
    match step
    case Hand(w) => s.(next := s.next + 1, workers := s.workers[w := Busy(s.next)])
    case Finish(w) => s.(workers := s.workers[w := Idle], log := s.log + [s.workers[w].job])
    case Close => s.(closed := true)
    case Quit(w) => s.(workers := s.workers[w := Gone])
  }

  function Start(workers: nat): Pool {
    Pool(0, false, seq(workers, i => Idle), [])
  }

  /** The channel is closed and every worker has returned, which is what the scan waits for. */
  predicate Finished(s: Pool) {
    s.closed && forall w :: 0 <= w < |s.workers| ==> s.workers[w] == Gone
  }

  // What every step keeps.

  function Jobs(ws: seq<Worker>): multiset<nat> {
    if ws == [] then multiset{} else JobOf(ws[0]) + Jobs(ws[1..])
  }

  function JobOf(w: Worker): multiset<nat> {
    if w.Busy? then multiset{w.job} else multiset{}
  }

  function UpTo(n: nat): seq<nat> {
    seq(n, i => i)
  }

  /** Every job sent is in exactly one place, once: with a worker, or in the log. */
  ghost predicate Inv(n: nat, s: Pool) {
    && s.next <= n && multiset(s.log) + Jobs(s.workers) == multiset(UpTo(s.next))
    && (s.closed ==> s.next == n)
    && forall w :: 0 <= w < |s.workers| && s.workers[w] == Gone ==> s.closed
  }

  /** Counting jobs after one worker has changed. */
  lemma {:induction false} JobsUpdate(ws: seq<Worker>, w: nat, x: Worker, j: nat)
    requires w < |ws|
    ensures Jobs(ws[w := x])[j] + JobOf(ws[w])[j] == Jobs(ws)[j] + JobOf(x)[j]
  {
    if w == 0 {
      assert ws[0 := x][1..] == ws[1..];
    } else {
      assert ws[w := x][1..] == ws[1..][w - 1 := x];
      JobsUpdate(ws[1..], w - 1, x, j);
    }
  }

  lemma {:induction false} JobsOfIdle(ws: seq<Worker>)
    requires forall w :: 0 <= w < |ws| ==> !ws[w].Busy?
    ensures Jobs(ws) == multiset{}
  {
    if ws != [] {
      JobsOfIdle(ws[1..]);
    }
  }

  lemma StartInv(n: nat, workers: nat)
    ensures Inv(n, Start(workers))
  {
    JobsOfIdle(Start(workers).workers);
  }

  /** How often a job is held by the workers or listed in the log. */
  function Held(s: Pool, j: nat): nat {
    multiset(s.log)[j] + Jobs(s.workers)[j]
  }

  /** A step moves jobs about; only a send adds one, the next. */
  lemma StepMoves(n: nat, s: Pool, step: Step, j: nat)
    requires Enabled(n, s, step)
    ensures Held(Next(n, s, step), j) == Held(s, j) + if step.Hand? && j == s.next then 1 else 0
  {
    hide Jobs;
    match step
    case Hand(w) => JobsUpdate(s.workers, w, Busy(s.next), j);
    case Finish(w) => JobsUpdate(s.workers, w, Idle, j);
    case Close =>
    case Quit(w) => JobsUpdate(s.workers, w, Gone, j);
  }

  lemma StepKeepsInv(n: nat, s: Pool, step: Step)
    requires Inv(n, s) && Enabled(n, s, step)
    ensures Inv(n, Next(n, s, step))
  {
    hide Jobs;
    var s' := Next(n, s, step);
    assert UpTo(s.next + 1) == UpTo(s.next) + [s.next];
    forall j
      ensures Held(s', j) == multiset(UpTo(s'.next))[j]
    {
      StepMoves(n, s, step, j);
      assert Held(s, j) == (multiset(s.log) + Jobs(s.workers))[j];
    }
    assert forall j :: (multiset(s'.log) + Jobs(s'.workers))[j] == Held(s', j);
  }

  // Progress and termination.

  function Left(ws: seq<Worker>): nat {
    if ws == [] then 0 else (match ws[0] case Idle => 1 case Busy(_) => 2 case Gone => 0) + Left(ws[1..])
  }

  /** Steps still to be taken, at most. */
  function Measure(n: nat, s: Pool): nat {
    (if s.next <= n then 2 * (n - s.next) else 0) + (if s.closed then 0 else 1) + Left(s.workers)
  }

  lemma {:induction false} LeftUpdate(ws: seq<Worker>, w: nat, x: Worker)
    requires w < |ws|
    ensures Left(ws[w := x]) + Left([ws[w]]) == Left(ws) + Left([x])
  {
    assert [ws[w]][1..] == [] && [x][1..] == [];
    if w == 0 {
      assert ws[0 := x][1..] == ws[1..];
    } else {
      assert ws[w := x][1..] == ws[1..][w - 1 := x];
      LeftUpdate(ws[1..], w - 1, x);
    }
  }

  lemma OneLeft(x: Worker)
    ensures Left([x]) == match x case Idle => 1 case Busy(_) => 2 case Gone => 0
  {
    assert [x][1..] == [];
  }

  /** Whatever the schedule does, it comes closer to the end. */
  lemma StepsDecrease(n: nat, s: Pool, step: Step)
    requires Enabled(n, s, step)
    ensures Measure(n, Next(n, s, step)) < Measure(n, s)
  {
    hide Left;
    OneLeft(Idle);
    OneLeft(Gone);
    OneLeft(Busy(s.next));
    match step
    case Hand(w) => LeftUpdate(s.workers, w, Busy(s.next));
    case Finish(w) =>
      OneLeft(s.workers[w]);
      LeftUpdate(s.workers, w, Idle);
    case Close =>
    case Quit(w) => LeftUpdate(s.workers, w, Gone);
  }

  function Choices(n: nat, s: Pool): set<Step> {
    (set w | 0 <= w < |s.workers| && Enabled(n, s, Hand(w)) :: Hand(w))
    + (set w | 0 <= w < |s.workers| && Enabled(n, s, Finish(w)) :: Finish(w))
    + (set w | 0 <= w < |s.workers| && Enabled(n, s, Quit(w)) :: Quit(w))
    + (if Enabled(n, s, Close) then {Close} else {})
  }

  /** No deadlock: until all have returned there is a step to take, as long as there is a worker at all. */
  lemma NeverStuck(n: nat, s: Pool) returns (step: Step)
    requires Inv(n, s) && s.workers != [] && !Finished(s)
    ensures Enabled(n, s, step) && step in Choices(n, s)
  {
    hide Jobs;
    if Enabled(n, s, Close) {
      step := Close;
    } else {
      var w := 0;
      if s.closed {
        w :| 0 <= w < |s.workers| && s.workers[w] != Gone;
      }
      step := if s.workers[w].Busy? then Finish(w) else if s.closed then Quit(w) else Hand(w);
    }
  }

  ghost predicate Stuck(n: nat, s: Pool) {
    forall step :: !Enabled(n, s, step)
  }

  /** When the scan stops waiting, every job has been probed exactly once. */
  lemma FinishedMeansAll(n: nat, s: Pool)
    requires Inv(n, s) && Finished(s) && s.workers != []
    ensures multiset(s.log) == multiset(UpTo(n))
  {
    JobsOfIdle(s.workers);
    assert s.workers[0] == Gone;
  }

  /** A run of the pool: each state follows from the one before by some step. */
  ghost predicate Run(n: nat, states: seq<Pool>) {
    forall i :: 0 < i < |states| ==> Follows(n, states[i - 1], states[i])
  }

  ghost predicate Follows(n: nat, s: Pool, s': Pool) {
    exists step :: Enabled(n, s, step) && s' == Next(n, s, step)
  }

  /** Every run keeps the invariant and takes at most 2n + workers + 1 steps. */
  lemma {:induction false} RunsEnd(n: nat, workers: nat, states: seq<Pool>)
    requires states != [] && states[0] == Start(workers) && Run(n, states)
    ensures var last := states[|states| - 1];
            && Inv(n, last) && |last.workers| == workers
            && |states| - 1 + Measure(n, last) <= 2 * n + workers + 1
  {
    hide Measure, Inv, Jobs, Left;
    if |states| == 1 {
      StartInv(n, workers);
      StartMeasure(n, workers);
    } else {
      var init := states[..|states| - 1];
      RunsEnd(n, workers, init);
      var s, s' := states[|states| - 2], states[|states| - 1];
      assert Follows(n, s, s');
      var step :| Enabled(n, s, step) && s' == Next(n, s, step);
      StepKeepsInv(n, s, step);
      StepsDecrease(n, s, step);
    }
  }

  lemma {:induction false} LeftOfIdle(ws: seq<Worker>)
    requires forall w :: 0 <= w < |ws| ==> ws[w] == Idle
    ensures Left(ws) == |ws|
  {
    if ws != [] {
      LeftOfIdle(ws[1..]);
    }
  }

  lemma StartMeasure(n: nat, workers: nat)
    ensures Measure(n, Start(workers)) == 2 * n + workers + 1
  {
    LeftOfIdle(Start(workers).workers);
  }

  /** A run that cannot go on has ended properly, with every video probed exactly once. */
  lemma MaximalRunsProbeAll(n: nat, workers: nat, states: seq<Pool>)
    requires states != [] && states[0] == Start(workers) && Run(n, states) && workers > 0
    requires Stuck(n, states[|states| - 1])
    ensures Finished(states[|states| - 1]) && multiset(states[|states| - 1].log) == multiset(UpTo(n))
  {
    hide Inv, Measure;
    var last := states[|states| - 1];
    RunsEnd(n, workers, states);
    if !Finished(last) {
      var step := NeverStuck(n, last);
    }
    FinishedMeansAll(n, last);
  }

  // The same pool over the heap.

  /** Probing one video: the Validator's verdict, else the container headers. */
  method ProbeNode(p: Probes, n: Node)
    modifies n`info, n`rejected, n`rejectReason
    ensures n.Data() == Judge(p, old(n.Data()))
  {
    if p.validate.Some? {
      var verdict := p.validate.value(n.path, n.size, n.mod);
      if !verdict.serve {
        n.rejected := true;
        n.rejectReason := verdict.reason;
        return;
      }
      n.info := verdict.info;
      if n.info.duration == 0 && n.info.width == 0 {
        n.info := p.probeFile(n.path);
      }
    } else {
      n.info := p.probeFile(n.path);
    }
  }

  /** The links of a tree, which probing leaves alone. */
  ghost predicate Links(t: Tree<Node>, parent: Node?)
    reads Nodes(t)`children
  {
    t.node.parent == parent && t.node.children == Roots(t.kids) && LinksAll(t.kids, t.node)
  }

  ghost predicate LinksAll(ks: seq<Tree<Node>>, parent: Node?)
    reads NodesOf(ks)`children
  {
    ks == [] || (Links(ks[0], parent) && LinksAll(ks[1..], parent))
  }

  /** The fields of the nodes of a tree, as they were before probing. */
  predicate Recorded(t: Tree<Node>, was: map<Node, Item>) {
    t.node in was && was[t.node] == t.item && t.node.kind == t.item.kind && RecordedAll(t.kids, was)
  }

  predicate RecordedAll(ks: seq<Tree<Node>>, was: map<Node, Item>) {
    ks == [] || (Recorded(ks[0], was) && RecordedAll(ks[1..], was))
  }

  /** The videos in done have been probed, and nothing else has changed. */
  ghost predicate JudgedSoFar(p: Probes, n: Node, was: map<Node, Item>, done: set<Node>)
    requires n in was
    reads n`id, n`info, n`rejected, n`rejectReason
  {
    n.Data() == if n.kind == Video && n in done then Judge(p, was[n]) else was[n]
  }

  lemma {:induction false} Separate(t: Tree<Node>, parent: Node?, was: map<Node, Item>)
    requires Shape(t, parent) && forall n :: n in Nodes(t) ==> n in was && was[n] == n.Data()
    ensures Links(t, parent) && Recorded(t, was)
    decreases t
  {
    SeparateAll(t.kids, t.node, was);
  }

  lemma {:induction false} SeparateAll(ks: seq<Tree<Node>>, parent: Node?, was: map<Node, Item>)
    requires Shapes(ks, parent) && forall n :: n in NodesOf(ks) ==> n in was && was[n] == n.Data()
    ensures LinksAll(ks, parent) && RecordedAll(ks, was)
    decreases ks
  {
    if ks != [] {
      Separate(ks[0], parent, was);
      SeparateAll(ks[1..], parent, was);
    }
  }

  /** Links and fields together are the tree in which the videos of done are judged. */
  lemma {:induction false} Combine(p: Probes, t: Tree<Node>, parent: Node?, was: map<Node, Item>, done: set<Node>)
    requires Links(t, parent) && Recorded(t, was)
    requires forall n :: n in Nodes(t) ==> n in was && JudgedSoFar(p, n, was, done)
    ensures Shape(JudgeIn(p, t, done), parent)
    decreases t
  {
    hide Judge;
    assert t.node in Nodes(t);
    CombineAll(p, t.kids, t.node, was, done);
    RootsJudged(p, t.kids, done);
  }

  lemma {:induction false} CombineAll(p: Probes, ks: seq<Tree<Node>>, parent: Node?, was: map<Node, Item>, done: set<Node>)
    requires LinksAll(ks, parent) && RecordedAll(ks, was)
    requires forall n :: n in NodesOf(ks) ==> n in was && JudgedSoFar(p, n, was, done)
    ensures Shapes(JudgeInAll(p, ks, done), parent)
    decreases ks
  {
    hide Judge, JudgedSoFar;
    if ks != [] {
      assert JudgeInAll(p, ks, done)[1..] == JudgeInAll(p, ks[1..], done);
      Combine(p, ks[0], parent, was, done);
      CombineAll(p, ks[1..], parent, was, done);
    }
  }

  lemma {:induction false} RootsJudged(p: Probes, ks: seq<Tree<Node>>, done: set<Node>)
    ensures Roots(JudgeInAll(p, ks, done)) == Roots(ks)
  {
    if ks != [] {
      RootsJudged(p, ks[1..], done);
      assert Roots(ks) == [ks[0].node] + Roots(ks[1..]);
      assert Roots(JudgeInAll(p, ks, done)) == [ks[0].node] + Roots(JudgeInAll(p, ks[1..], done));
    }
  }

  /** The videos whose jobs are in the log. */
  function Probed(nodes: seq<Node>, log: seq<nat>): set<Node> {
    set i | 0 <= i < |log| && log[i] < |nodes| :: nodes[log[i]]
  }

  lemma {:induction false} VideoNodesAreNodes(t: Tree<Node>, v: Node, was: map<Node, Item>)
    requires v in VideoNodes(t) && Recorded(t, was)
    ensures v in Nodes(t) && v.kind == Video
    decreases t
  {
    if t.item.kind == Container {
      VideoNodesOfAreNodes(t.kids, v, was);
    }
  }

  lemma {:induction false} VideoNodesOfAreNodes(ks: seq<Tree<Node>>, v: Node, was: map<Node, Item>)
    requires v in VideoNodesOf(ks) && RecordedAll(ks, was)
    ensures v in NodesOf(ks) && v.kind == Video
    decreases ks
  {
    if v in VideoNodes(ks[0]) {
      VideoNodesAreNodes(ks[0], v, was);
    } else {
      VideoNodesOfAreNodes(ks[1..], v, was);
    }
  }

  predicate NoRepeats(s: seq<Node>) {
    forall i, j :: 0 <= i < j < |s| ==> s[i] != s[j]
  }

  lemma {:induction false} VideoNodesDistinct(t: Tree<Node>, was: map<Node, Item>)
    requires Distinct(t) && Recorded(t, was)
    ensures NoRepeats(VideoNodes(t))
    decreases t
  {
    if t.item.kind == Container {
      VideoNodesOfDistinct(t.kids, was);
    }
  }

  lemma {:induction false} VideoNodesOfDistinct(ks: seq<Tree<Node>>, was: map<Node, Item>)
    requires DistinctAll(ks) && RecordedAll(ks, was)
    ensures NoRepeats(VideoNodesOf(ks))
    decreases ks
  {
    if ks != [] {
      VideoNodesDistinct(ks[0], was);
      VideoNodesOfDistinct(ks[1..], was);
      var a, b := VideoNodes(ks[0]), VideoNodesOf(ks[1..]);
      forall i, j | 0 <= i < j < |a + b|
        ensures (a + b)[i] != (a + b)[j]
      {
        if i < |a| <= j {
          assert (a + b)[i] in a && (a + b)[j] in b;
          VideoNodesAreNodes(ks[0], (a + b)[i], was);
          VideoNodesOfAreNodes(ks[1..], (a + b)[j], was);
        }
      }
    }
  }

  /** A job that is still with a worker is not in the log. */
  lemma BusyIsNew(n: nat, s: Pool, w: nat)
    requires Inv(n, s) && w < |s.workers| && s.workers[w].Busy?
    ensures s.workers[w].job < n && s.workers[w].job !in s.log
  {
    var job := s.workers[w].job;
    JobsUpdate(s.workers, w, Idle, job);
    UpToOnce(s.next, job);
    assert (multiset(s.log) + Jobs(s.workers))[job] == multiset(s.log)[job] + Jobs(s.workers)[job];
  }

  lemma {:induction false} UpToOnce(n: nat, j: nat)
    ensures multiset(UpTo(n))[j] == if j < n then 1 else 0
  {
    if n > 0 {
      UpToOnce(n - 1, j);
      assert UpTo(n) == UpTo(n - 1) + [n - 1];
    }
  }

  lemma ProbedStep(nodes: seq<Node>, log: seq<nat>, job: nat)
    requires job < |nodes| && job !in log && NoRepeats(nodes)
    ensures Probed(nodes, log + [job]) == Probed(nodes, log) + {nodes[job]} && nodes[job] !in Probed(nodes, log)
  {
    assert (log + [job])[|log|] == job;
    forall i | 0 <= i < |log|
      ensures (log + [job])[i] == log[i] && log[i] != job
    {
      assert log[i] in log;
    }
  }

  lemma ProbedAll(nodes: seq<Node>, log: seq<nat>)
    requires multiset(log) == multiset(UpTo(|nodes|))
    ensures forall v :: v in nodes ==> v in Probed(nodes, log)
  {
    forall v | v in nodes
      ensures v in Probed(nodes, log)
    {
      var j :| 0 <= j < |nodes| && nodes[j] == v;
      UpToOnce(|nodes|, j);
      assert j in multiset(log);
    }
  }

  /** Where the pool stands: links untouched, and exactly the videos of done judged. */
  ghost predicate Midway(p: Probes, t: Tree<Node>, parent: Node?, was: map<Node, Item>, done: set<Node>)
    reads Nodes(t)
  {
    Links(t, parent) && forall o :: o in Nodes(t) ==> o in was && JudgedSoFar(p, o, was, done)
  }

  lemma BeforeProbing(p: Probes, t: Tree<Node>, was: map<Node, Item>)
    requires Shape(t, t.node.parent) && Distinct(t)
    requires was.Keys == Nodes(t) && forall n :: n in Nodes(t) ==> was[n] == n.Data()
    ensures Midway(p, t, t.node.parent, was, {}) && Recorded(t, was) && NoRepeats(VideoNodes(t))
    ensures forall v :: v in VideoNodes(t) ==> v in Nodes(t) && v.kind == Video
  {
    hide Judge;
    Separate(t, t.node.parent, was);
    VideoNodesDistinct(t, was);
    forall v | v in VideoNodes(t)
      ensures v in Nodes(t) && v.kind == Video
    {
      VideoNodesAreNodes(t, v, was);
    }
  }

  /** Probing one more video, whichever were probed before it. */
  method ProbeOneMore(p: Probes, v: Node, ghost t: Tree<Node>, ghost was: map<Node, Item>, ghost done: set<Node>)
    requires Midway(p, t, t.node.parent, was, done) && v in Nodes(t) && v !in done && v.kind == Video
    modifies v`info, v`rejected, v`rejectReason
    ensures Midway(p, t, t.node.parent, was, done + {v})
  {
    hide Judge, Links;
    assert allocated(Nodes(t));
    assert JudgedSoFar(p, v, was, done);
    ghost var others := Nodes(t) - {v};
    assert forall o :: o in others ==> JudgedSoFar(p, o, was, done);
    ProbeNode(p, v);
    assert forall o :: o in others ==> JudgedSoFar(p, o, was, done);
  }

  /**
   * The workers take every video once, in an order the schedule decides; each step is chosen freely among those
   * enabled. Whatever is chosen, no schedule gets stuck, and all end in the tree with every video judged.
   */
  method ProbeAll(p: Probes, workers: nat, root: Node, ghost t: Tree<Node>) returns (ghost done: set<Node>)
    requires t.node == root && Shape(t, root.parent) && Distinct(t) && workers > 0
    modifies Nodes(t)`info, Nodes(t)`rejected, Nodes(t)`rejectReason
    ensures Shape(JudgeIn(p, t, done), root.parent)
    ensures forall v :: v in VideoNodes(t) ==> v in done
  {
    hide Judge, Shape, Shapes, Links, LinksAll, Recorded, RecordedAll, Inv, Distinct, DistinctAll, VideoNodes, Measure;
    hide Midway, Choices, Probed;
    ghost var was := map n | n in Nodes(t) :: n.Data();
    BeforeProbing(p, t, was);
    assert allocated(Nodes(t));
    var nodes := Collect(root, t);
    var n := |nodes|;
    done := {};
    if n > 0 {
      var s := Start(if workers > n then n else workers);
      StartInv(n, |s.workers|);
      NoneProbed(nodes);
      while !Finished(s)
        invariant Inv(n, s) && s.workers != [] && done == Probed(nodes, s.log)
        invariant allocated(Nodes(t)) && Midway(p, t, root.parent, was, done)
        decreases Measure(n, s)
      {
        ghost var enabled := NeverStuck(n, s);
        var step :| step in Choices(n, s);
        ChoicesAreEnabled(n, s, step);
        StepKeepsInv(n, s, step);
        StepsDecrease(n, s, step);
        if step.Finish? {
          var v := nodes[s.workers[step.w].job];
          ProbedStep(nodes, s.log, s.workers[step.w].job);
          ProbeOneMore(p, v, t, was, done);
          done := done + {v};
        }
        s := Next(n, s, step);
      }
      FinishedMeansAll(n, s);
      ProbedAll(nodes, s.log);
    }
    AfterProbing(p, t, was, done);
  }

  lemma NoneProbed(nodes: seq<Node>)
    ensures Probed(nodes, []) == {}
  {
  }

  lemma ChoicesAreEnabled(n: nat, s: Pool, step: Step)
    requires Inv(n, s) && step in Choices(n, s)
    ensures Enabled(n, s, step) && (step.Finish? ==> s.workers[step.w].job < n && s.workers[step.w].job !in s.log)
  {
    hide Inv;
    if step.Finish? {
      BusyIsNew(n, s, step.w);
    }
  }

  lemma AfterProbing(p: Probes, t: Tree<Node>, was: map<Node, Item>, done: set<Node>)
    requires Midway(p, t, t.node.parent, was, done) && Recorded(t, was)
    ensures Shape(JudgeIn(p, t, done), t.node.parent)
  {
    hide Judge;
    Combine(p, t, t.node.parent, was, done);
  }
}
