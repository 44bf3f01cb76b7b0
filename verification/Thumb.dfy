/** The thumbnail cache: many clients, a bounded number of renderers, and a cache directory shared by all. */
module Thumb {
  import opened Bytes

  /** A cache path; it names the video, its size and modification time, and the thumbnail size. */
  type Key = string

  type Image = seq<byte>

  // The steps of one request.

  /** Writing the cache file: before the temporary file exists, while it grows, and once it is closed. */
  datatype Write = Begin | Writing(n: nat) | Closed

  datatype Pc =
    | Start
    | Waiting
    | Inside
    | Rendering(at: nat)
    | Storing(image: Image, write: Write)
    | Done(answer: Option<Image>)

  datatype Client = Client(key: Key, at: nat, pc: Pc)

  /** The cache directory holds finished thumbnails under their keys, and temporary files of their own names. */
  datatype File = Final(key: Key) | Temp(client: nat)

  /** made collects every complete render there has been; renders lists the keys rendered since the start. */
  datatype State = State(clients: seq<Client>, sem: nat, files: map<File, Image>, made: set<(Key, Image)>, renders: seq<Key>)

  datatype Step =
    | Look(c: nat)
    | Enter(c: nat)
    | Recheck(c: nat)
    | Extract(c: nat, out: Option<Image>)
    | Create(c: nat)
    | Append(c: nat, n: nat)
    | Close(c: nat)
    | Rename(c: nat)
    | GiveUp(c: nat)
    | Sweep(file: File)

  predicate Enabled(cap: nat, s: State, step: Step) {
    if step.Sweep? then step.file in s.files
    else
      step.c < |s.clients| &&
      var pc := s.clients[step.c].pc;
      match step
      case Look(c) => pc == Start
      case Enter(c) => pc == Waiting && s.sem < cap
      case Recheck(c) => pc == Inside
      case Extract(c, out) => pc.Rendering?
      case Create(c) => pc.Storing? && pc.write == Begin
      case Append(c, n) => pc.Storing? && pc.write.Writing? && pc.write.n <= n <= |pc.image|
      case Close(c) => pc.Storing? && pc.write == Writing(|pc.image|)
      case Rename(c) => pc.Storing? && pc.write == Closed && Temp(c) in s.files
      case GiveUp(c) => pc.Storing?
  }

  function Goto(s: State, c: nat, pc: Pc): State
    requires c < |s.clients|
  {
    s.(clients := s.clients[c := s.clients[c].(pc := pc)])
  }

  /** What a reader finds under a key: only a file that is there and not empty counts. */
  function Cached(s: State, key: Key): Option<Image> {
    if Final(key) in s.files && s.files[Final(key)] != [] then Some(s.files[Final(key)]) else None
  }

  function Release(s: State): State {
    s.(sem := if s.sem > 0 then s.sem - 1 else 0)
  }

  function Next(cap: nat, s: State, step: Step): State
    requires Enabled(cap, s, step)
  {
    match step
    case Sweep(file) => s.(files := s.files - {file})
    case Look(c) =>
      var hit := Cached(s, s.clients[c].key);
      Goto(s, c, if hit.Some? then Done(hit) else Waiting)
    case Enter(c) => Goto(s.(sem := s.sem + 1), c, Inside)
    case Recheck(c) =>
      var hit := Cached(s, s.clients[c].key);
      if hit.Some? then Goto(Release(s), c, Done(hit)) else Goto(s, c, Rendering(s.clients[c].at))
    case Extract(c, out) =>
      if out.Some? && out.value != [] then
        Goto(s.(made := s.made + {(s.clients[c].key, out.value)}, renders := s.renders + [s.clients[c].key]),
             c, Storing(out.value, Begin))
      else if s.clients[c].pc.at > 0 then Goto(s, c, Rendering(0))
      else Goto(Release(s), c, Done(None))
    case Create(c) => Goto(s.(files := s.files[Temp(c) := []]), c, Storing(s.clients[c].pc.image, Writing(0)))
    case Append(c, n) =>
      var image := s.clients[c].pc.image;
      Goto(if Temp(c) in s.files then s.(files := s.files[Temp(c) := image[..n]]) else s, c, Storing(image, Writing(n)))
    case Close(c) => Goto(s, c, Storing(s.clients[c].pc.image, Closed))
    case Rename(c) =>
      var moved := s.files[Final(s.clients[c].key) := s.files[Temp(c)]] - {Temp(c)};
      Goto(Release(s.(files := moved)), c, Done(Some(s.clients[c].pc.image)))
    case GiveUp(c) =>
      Goto(Release(s.(files := s.files - {Temp(c)})), c, Done(Some(s.clients[c].pc.image)))
  }

  /** Nobody has asked yet; the directory holds complete thumbnails from earlier runs, if any. */
  predicate Initial(s: State) {
    && s.sem == 0 && s.renders == []
    && (forall c :: 0 <= c < |s.clients| ==> s.clients[c].pc == Start)
    && (forall f :: f in s.files ==> f.Final? && s.files[f] != [] && (f.key, s.files[f]) in s.made)
  }

  ghost predicate Follows(cap: nat, s: State, s': State) {
    exists step :: Enabled(cap, s, step) && s' == Next(cap, s, step)
  }

  ghost predicate Run(cap: nat, states: seq<State>) {
    && states != [] && Initial(states[0])
    && forall i :: 0 < i < |states| ==> Follows(cap, states[i - 1], states[i])
  }

  // Files: a thumbnail is complete from the moment it has its name.

  /** How much of its image a client has written. */
  function Written(pc: Pc): Image
    requires pc.Storing?
    requires pc.write.Writing? ==> pc.write.n <= |pc.image|
  {
    match pc.write case Begin => [] case Writing(n) => pc.image[..n] case Closed => pc.image
  }

  predicate FileSound(s: State, f: File)
    requires f in s.files
  {
    match f
    case Final(key) => s.files[f] != [] && (key, s.files[f]) in s.made
    case Temp(c) =>
      && c < |s.clients| && s.clients[c].pc.Storing? && s.clients[c].pc.write != Begin
      && (s.clients[c].pc.write.Writing? ==> s.clients[c].pc.write.n <= |s.clients[c].pc.image|)
      && s.files[f] == Written(s.clients[c].pc)
  }

  predicate ClientSound(s: State, c: nat)
    requires c < |s.clients|
  {
    var pc := s.clients[c].pc;
    match pc
    case Storing(image, write) => image != [] && (s.clients[c].key, image) in s.made && (write.Writing? ==> write.n <= |image|)
    case Done(answer) => answer.Some? ==> answer.value != [] && (s.clients[c].key, answer.value) in s.made
    case _ => true
  }

  predicate Sound(s: State) {
    && (forall f :: f in s.files ==> FileSound(s, f))
    && (forall c :: 0 <= c < |s.clients| ==> ClientSound(s, c))
  }

  lemma StepKeepsFiles(cap: nat, s: State, step: Step, f: File)
    requires Sound(s) && Enabled(cap, s, step) && f in Next(cap, s, step).files
    ensures FileSound(Next(cap, s, step), f)
  {
    assert f in s.files ==> FileSound(s, f);
    if step.Rename? {
      assert FileSound(s, Temp(step.c)) && ClientSound(s, step.c);
    }
  }

  lemma StepKeepsClient(cap: nat, s: State, step: Step, c: nat)
    requires Sound(s) && Enabled(cap, s, step) && c < |s.clients|
    ensures |Next(cap, s, step).clients| == |s.clients| && ClientSound(Next(cap, s, step), c)
  {
    assert ClientSound(s, c);
    if !step.Sweep? && step.c == c && Final(s.clients[c].key) in s.files {
      assert FileSound(s, Final(s.clients[c].key));
    }
  }

  lemma StepKeepsSound(cap: nat, s: State, step: Step)
    requires Sound(s) && Enabled(cap, s, step)
    ensures Sound(Next(cap, s, step))
  {
    hide Enabled, Next, FileSound, ClientSound;
    var s' := Next(cap, s, step);
    NextClients(cap, s, step);
    forall f | f in s'.files
      ensures FileSound(s', f)
    {
      StepKeepsFiles(cap, s, step, f);
    }
    forall c | 0 <= c < |s'.clients|
      ensures ClientSound(s', c)
    {
      StepKeepsClient(cap, s, step, c);
    }
  }

  lemma NextClients(cap: nat, s: State, step: Step)
    requires Enabled(cap, s, step)
    ensures var s' := Next(cap, s, step);
            |s'.clients| == |s.clients| && forall c :: 0 <= c < |s.clients| ==> s'.clients[c].key == s.clients[c].key
  {
  }

  // The semaphore: its tokens are the clients between Enter and their return.

  predicate Holds(c: Client) {
    c.pc == Inside || c.pc.Rendering? || c.pc.Storing?
  }

  predicate Renders(c: Client) {
    c.pc.Rendering?
  }

  function Count(cs: seq<Client>, p: Client -> bool): nat {
    if cs == [] then 0 else (if p(cs[0]) then 1 else 0) + Count(cs[1..], p)
  }

  lemma {:induction false} CountUpdate(cs: seq<Client>, c: nat, x: Client, p: Client -> bool)
    requires c < |cs|
    ensures Count(cs[c := x], p) + (if p(cs[c]) then 1 else 0) == Count(cs, p) + (if p(x) then 1 else 0)
    ensures p(cs[c]) ==> Count(cs, p) > 0
  {
    if c == 0 {
      assert cs[0 := x][1..] == cs[1..];
    } else {
      assert cs[c := x][1..] == cs[1..][c - 1 := x];
      CountUpdate(cs[1..], c - 1, x, p);
    }
  }

  lemma {:induction false} CountNone(cs: seq<Client>, p: Client -> bool)
    requires forall c :: c in cs ==> !p(c)
    ensures Count(cs, p) == 0
  {
    if cs != [] {
      assert cs[0] in cs && forall c :: c in cs[1..] ==> c in cs;
      CountNone(cs[1..], p);
    }
  }

  ghost predicate Bounded(cap: nat, s: State) {
    s.sem == Count(s.clients, Holds) && s.sem <= cap
  }

  lemma StepKeepsBounded(cap: nat, s: State, step: Step)
    requires Bounded(cap, s) && Enabled(cap, s, step)
    ensures Bounded(cap, Next(cap, s, step))
  {
    hide Count;
    if !step.Sweep? {
      var s' := Next(cap, s, step);
      assert s'.clients == s.clients[step.c := s'.clients[step.c]];
      CountUpdate(s.clients, step.c, s'.clients[step.c], Holds);
    }
  }

  lemma {:induction false} RenderersHold(cs: seq<Client>)
    ensures Count(cs, Renders) <= Count(cs, Holds)
  {
    if cs != [] {
      RenderersHold(cs[1..]);
    }
  }

  lemma InitialHolds(cap: nat, s: State)
    requires Initial(s)
    ensures Sound(s) && Bounded(cap, s)
  {
    CountNone(s.clients, Holds);
  }

  lemma {:induction false} RunsAreSafe(cap: nat, states: seq<State>)
    requires Run(cap, states)
    ensures Sound(states[|states| - 1]) && Bounded(cap, states[|states| - 1])
  {
    hide Sound, Bounded, Initial, Enabled, Next;
    if |states| == 1 {
      InitialHolds(cap, states[0]);
    } else {
      var init := states[..|states| - 1];
      RunsAreSafe(cap, init);
      var s, s' := states[|states| - 2], states[|states| - 1];
      assert Follows(cap, s, s');
      var step :| Enabled(cap, s, step) && s' == Next(cap, s, step);
      StepKeepsSound(cap, s, step);
      StepKeepsBounded(cap, s, step);
    }
  }

  /**
   * In every run, whatever fails and whatever is deleted: an answer is a complete, non-empty render of the key it was
   * asked for, so is every cached file a reader can see, and no more than cap renders are under way at once.
   */
  lemma AnswersAreCompleteRenders(cap: nat, states: seq<State>)
    requires Run(cap, states)
    ensures var s := states[|states| - 1];
            && (forall c :: 0 <= c < |s.clients| && s.clients[c].pc.Done? && s.clients[c].pc.answer.Some? ==>
                  s.clients[c].pc.answer.value != [] && (s.clients[c].key, s.clients[c].pc.answer.value) in s.made)
            && (forall key :: Final(key) in s.files ==> s.files[Final(key)] != [] && (key, s.files[Final(key)]) in s.made)
            && Count(s.clients, Renders) <= cap
  {
    hide Count, Next, Enabled;
    RunsAreSafe(cap, states);
    var s := states[|states| - 1];
    RenderersHold(s.clients);
    forall c | 0 <= c < |s.clients| && s.clients[c].pc.Done? && s.clients[c].pc.answer.Some?
      ensures s.clients[c].pc.answer.value != [] && (s.clients[c].key, s.clients[c].pc.answer.value) in s.made
    {
      assert ClientSound(s, c);
    }
    forall key | Final(key) in s.files
      ensures s.files[Final(key)] != [] && (key, s.files[Final(key)]) in s.made
    {
      assert FileSound(s, Final(key));
    }
  }

  // How often one key is rendered while writes succeed and nothing is deleted.

  predicate Reliable(step: Step) {
    !step.GiveUp? && !step.Sweep?
  }

  ghost predicate FollowsReliably(cap: nat, s: State, s': State) {
    exists step :: Reliable(step) && Enabled(cap, s, step) && s' == Next(cap, s, step)
  }

  ghost predicate ReliableRun(cap: nat, states: seq<State>) {
    && states != [] && Initial(states[0])
    && forall i :: 0 < i < |states| ==> FollowsReliably(cap, states[i - 1], states[i])
  }

  function RendersKey(key: Key): Client -> bool {
    (c: Client) => c.pc.Rendering? && c.key == key
  }

  function StoresKey(key: Key): Client -> bool {
    (c: Client) => c.pc.Storing? && c.key == key
  }

  predicate IsInside(c: Client) {
    c.pc == Inside
  }

  /**
   * Renders of a key made and under way never exceed the tokens; and as long as nothing is cached under the key, each
   * render made is still held by a client that is storing it.
   */
  ghost predicate Few(cap: nat, s: State, key: Key) {
    && multiset(s.renders)[key] + Count(s.clients, RendersKey(key)) <= cap
    && (Cached(s, key).None? ==> multiset(s.renders)[key] == Count(s.clients, StoresKey(key)))
  }

  lemma {:induction false} HoldersByKey(cs: seq<Client>, key: Key)
    ensures Count(cs, RendersKey(key)) + Count(cs, StoresKey(key)) + Count(cs, IsInside) <= Count(cs, Holds)
  {
    if cs != [] {
      HoldersByKey(cs[1..], key);
    }
  }

  lemma CountsMove(cap: nat, s: State, step: Step, key: Key)
    requires Enabled(cap, s, step) && Reliable(step)
    ensures var s' := Next(cap, s, step);
            var c, c' := s.clients[step.c], s'.clients[step.c];
            && Count(s'.clients, RendersKey(key)) + (if RendersKey(key)(c) then 1 else 0)
               == Count(s.clients, RendersKey(key)) + (if RendersKey(key)(c') then 1 else 0)
            && Count(s'.clients, StoresKey(key)) + (if StoresKey(key)(c) then 1 else 0)
               == Count(s.clients, StoresKey(key)) + (if StoresKey(key)(c') then 1 else 0)
  {
    hide Count;
    var s' := Next(cap, s, step);
    assert s'.clients == s.clients[step.c := s'.clients[step.c]];
    CountUpdate(s.clients, step.c, s'.clients[step.c], RendersKey(key));
    CountUpdate(s.clients, step.c, s'.clients[step.c], StoresKey(key));
  }

  /** A cached file stays cached, and only a rename of the key makes it so. */
  lemma CacheGrows(cap: nat, s: State, step: Step, key: Key)
    requires Sound(s) && Enabled(cap, s, step) && Reliable(step)
    ensures Cached(Next(cap, s, step), key).None? ==>
              Cached(s, key).None? && !(step.Rename? && s.clients[step.c].key == key)
  {
    if step.Rename? {
      assert FileSound(s, Temp(step.c)) && ClientSound(s, step.c);
    }
  }

  lemma StepKeepsFew(cap: nat, s: State, step: Step, key: Key)
    requires Sound(s) && Bounded(cap, s) && Few(cap, s, key) && Enabled(cap, s, step) && Reliable(step)
    ensures Few(cap, Next(cap, s, step), key)
  {
    hide Count, Sound;
    CountsMove(cap, s, step, key);
    CacheGrows(cap, s, step, key);
    if step.Recheck? {
      HoldersByKey(s.clients, key);
      CountUpdate(s.clients, step.c, s.clients[step.c], IsInside);
    }
  }

  lemma {:induction false} ReliableRunsRenderLittle(cap: nat, states: seq<State>, key: Key)
    requires ReliableRun(cap, states)
    ensures var s := states[|states| - 1];
            Sound(s) && Bounded(cap, s) && Few(cap, s, key)
  {
    hide Sound, Bounded, Enabled, Next, Count;
    if |states| == 1 {
      InitialHolds(cap, states[0]);
      CountNone(states[0].clients, RendersKey(key));
      CountNone(states[0].clients, StoresKey(key));
    } else {
      var init := states[..|states| - 1];
      ReliableRunsRenderLittle(cap, init, key);
      var s, s' := states[|states| - 2], states[|states| - 1];
      assert FollowsReliably(cap, s, s');
      var step :| Reliable(step) && Enabled(cap, s, step) && s' == Next(cap, s, step);
      StepKeepsSound(cap, s, step);
      StepKeepsBounded(cap, s, step);
      StepKeepsFew(cap, s, step, key);
    }
  }

  /**
   * However the requests interleave: with writes that succeed and nothing deleted, one key is rendered successfully at
   * most cap times, however many clients ask for it.
   */
  lemma AtMostCapRenders(cap: nat, states: seq<State>, key: Key)
    requires ReliableRun(cap, states)
    ensures multiset(states[|states| - 1].renders)[key] <= cap
  {
    hide Count, Next, Enabled;
    ReliableRunsRenderLittle(cap, states, key);
  }

  // The bound is met: looking twice does not make it one render.

  lemma Extend(cap: nat, states: seq<State>, step: Step) returns (longer: seq<State>)
    requires ReliableRun(cap, states) && states != [] && Enabled(cap, states[|states| - 1], step) && Reliable(step)
    ensures ReliableRun(cap, longer) && longer != [] && longer[|longer| - 1] == Next(cap, states[|states| - 1], step)
  {
    hide Next, Enabled;
    var s := states[|states| - 1];
    longer := states + [Next(cap, s, step)];
    assert FollowsReliably(cap, s, Next(cap, s, step));
    forall i | 0 < i < |longer|
      ensures FollowsReliably(cap, longer[i - 1], longer[i])
    {
      if i < |states| {
        assert longer[i - 1] == states[i - 1] && longer[i] == states[i];
      }
    }
  }

  /** n clients that ask for one key: the first k are one step further than the rest. */
  function Split(key: Key, n: nat, k: nat, ahead: Pc, behind: Pc): (cs: seq<Client>)
    ensures |cs| == n
  {
    seq(n, i => Client(key, 0, if i < k then ahead else behind))
  }

  lemma SplitMoves(key: Key, n: nat, k: nat, ahead: Pc, behind: Pc)
    requires k < n
    ensures var cs := Split(key, n, k, ahead, behind);
            cs[k] == Client(key, 0, behind) && cs[k := Client(key, 0, ahead)] == Split(key, n, k + 1, ahead, behind)
  {
  }

  /** When all of them have moved on, the next round begins. */
  lemma SplitTurns(key: Key, n: nat, here: Pc, before: Pc, after: Pc)
    ensures Split(key, n, n, here, before) == Split(key, n, 0, after, here)
  {
  }

  function Copies(key: Key, k: nat): seq<Key> {
    seq(k, _ => key)
  }

  /** k of n clients have looked, with nothing cached. */
  lemma {:induction false} AllLook(n: nat, key: Key, k: nat) returns (states: seq<State>)
    requires k <= n
    ensures ReliableRun(n, states) && states != []
    ensures states[|states| - 1] == State(Split(key, n, k, Waiting, Start), 0, map[], {}, [])
  {
    hide ReliableRun, Split, FollowsReliably, Run, Follows;
    if k == 0 {
      states := StartRun(n, key);
    } else {
      states := AllLook(n, key, k - 1);
      SplitMoves(key, n, k - 1, Waiting, Start);
      states := Extend(n, states, Look(k - 1));
    }
  }

  lemma {:induction false} AllEnter(n: nat, key: Key, k: nat) returns (states: seq<State>)
    requires k <= n
    ensures ReliableRun(n, states) && states != []
    ensures states[|states| - 1] == State(Split(key, n, k, Inside, Waiting), k, map[], {}, [])
  {
    hide ReliableRun, Split, FollowsReliably, Run, Follows;
    if k == 0 {
      states := AllLook(n, key, n);
      SplitTurns(key, n, Waiting, Start, Inside);
    } else {
      states := AllEnter(n, key, k - 1);
      SplitMoves(key, n, k - 1, Inside, Waiting);
      states := Extend(n, states, Enter(k - 1));
    }
  }

  lemma {:induction false} AllRecheck(n: nat, key: Key, k: nat) returns (states: seq<State>)
    requires k <= n
    ensures ReliableRun(n, states) && states != []
    ensures states[|states| - 1] == State(Split(key, n, k, Rendering(0), Inside), n, map[], {}, [])
  {
    hide ReliableRun, Split, FollowsReliably, Run, Follows;
    if k == 0 {
      states := AllEnter(n, key, n);
      SplitTurns(key, n, Inside, Waiting, Rendering(0));
    } else {
      states := AllRecheck(n, key, k - 1);
      SplitMoves(key, n, k - 1, Rendering(0), Inside);
      states := Extend(n, states, Recheck(k - 1));
    }
  }

  /** k of n renders of the key have succeeded before the first of them is stored. */
  lemma {:induction false} AllRender(n: nat, key: Key, image: Image, k: nat) returns (states: seq<State>)
    requires k <= n && image != []
    ensures ReliableRun(n, states) && states != [] && states[|states| - 1].renders == Copies(key, k)
    ensures states[|states| - 1].clients == Split(key, n, k, Storing(image, Begin), Rendering(0))
  {
    hide ReliableRun, Split, FollowsReliably, Run, Follows;
    if k == 0 {
      states := AllRecheck(n, key, n);
      SplitTurns(key, n, Rendering(0), Inside, Storing(image, Begin));
    } else {
      states := AllRender(n, key, image, k - 1);
      SplitMoves(key, n, k - 1, Storing(image, Begin), Rendering(0));
      states := Extend(n, states, Extract(k - 1, Some(image)));
      assert Copies(key, k) == Copies(key, k - 1) + [key];
    }
  }

  lemma {:induction false} CopiesCount(key: Key, k: nat)
    ensures multiset(Copies(key, k))[key] == k
  {
    if k > 0 {
      CopiesCount(key, k - 1);
      assert Copies(key, k) == Copies(key, k - 1) + [key];
    }
  }

  lemma StartRun(n: nat, key: Key) returns (states: seq<State>)
    ensures ReliableRun(n, states) && states != []
    ensures states[|states| - 1] == State(Split(key, n, 0, Waiting, Start), 0, map[], {}, [])
  {
    states := [State(Split(key, n, 0, Waiting, Start), 0, map[], {}, [])];
  }

  /** For every number of workers: as many clients that all miss before one has stored render one key that often. */
  lemma BoundIsMet(cap: nat, key: Key) returns (states: seq<State>)
    ensures ReliableRun(cap, states) && states != [] && multiset(states[|states| - 1].renders)[key] == cap
  {
    states := AllRender(cap, key, [0], cap);
    CopiesCount(key, cap);
  }

  /** Successful renders of a key in a run. */
  ghost function Rendered(states: seq<State>, key: Key): nat
    requires states != []
  {
    multiset(states[|states| - 1].renders)[key]
  }

  /** Every reliable run stays within a bound exactly when the number of workers does. */
  lemma RenderedAtMost(cap: nat, key: Key, bound: nat)
    ensures (forall states :: ReliableRun(cap, states) ==> Rendered(states, key) <= bound) <==> cap <= bound
  {
    hide ReliableRun;
    forall states | ReliableRun(cap, states)
      ensures states != [] && Rendered(states, key) <= cap
    {
      RunsAreNonempty(cap, states);
      AtMostCapRenders(cap, states, key);
    }
    var states := BoundIsMet(cap, key);
    assert Rendered(states, key) == cap;
  }

  lemma RunsAreNonempty(cap: nat, states: seq<State>)
    requires ReliableRun(cap, states)
    ensures states != []
  {
  }

  /** The second look makes rendering happen once exactly when there is one worker at most. */
  lemma RenderedOnceWithOneWorker(cap: nat, key: Key)
    ensures (forall states :: ReliableRun(cap, states) ==> Rendered(states, key) <= 1) <==> cap <= 1
  {
    RenderedAtMost(cap, key, 1);
  }
}
