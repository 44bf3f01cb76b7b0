/** The validation cache over runs of the server at different levels: when a remembered verdict is still right. */
module ProbeLevels {
  import opened ProbeStore

  /** What inspecting a file says at a level, as long as its path, size and second stay the same. */
  type Inspector = (Level, string, int, int) -> Verdict

  /** At level off nothing is inspected; an acceptance of the content is the acceptance of the container it extends. */
  ghost predicate Layered(inspect: Inspector) {
    && (forall path, size, second :: inspect(Off, path, size, second) == SERVED)
    && (forall level, path, size, second :: !inspect(level, path, size, second).cached)
    && (forall path, size, second :: inspect(Content, path, size, second).serve ==>
          inspect(Content, path, size, second) == inspect(Container, path, size, second))
  }

  function Rank(level: Level): nat {
    match level case Off => 0 case Container => 1 case Content => 2
  }

  /** A restart opens the store at a level of its own. */
  datatype Act =
    | Ask(path: string, size: int, mod: int)
    | Decide(path: string, size: int, mod: int)
    | Write(written: bool)
    | Restart(level: Level, revalidate: bool)

  /** The store, and, for the argument only, the level each record in memory or on disk was made at. */
  datatype Session = Session(m: Memory, level: Level, revalidate: bool, made: map<string, Level>, saved: map<string, Level>)

  const FIRST := Session(EMPTY, Off, false, map[], map[])

  function Do(inspect: Inspector, s: Session, a: Act): Session {
    match a
    case Ask(path, size, mod) =>
      if s.level == Off then s
      else s.(m := Step(s.revalidate, s.m, Consult(path, size, mod, inspect(s.level, path, size, Second(mod)))))
    case Decide(path, size, mod) =>
      if s.level == Off then s
      else s.(m := Step(s.revalidate, s.m, Conclude(path, size, mod, inspect(s.level, path, size, Second(mod)))),
              made := s.made[path := s.level])
    case Write(written) =>
      var made := map key | key in s.made && key in s.m.touched :: s.made[key];
      s.(m := Step(s.revalidate, s.m, Save(written)), made := made, saved := if written then made else s.saved)
    case Restart(level, revalidate) =>
      Session(Step(s.revalidate, s.m, Reopen), level, revalidate, s.saved, s.saved)
  }

  function Sessions(inspect: Inspector, acts: seq<Act>): Session {
    if acts == [] then FIRST else Do(inspect, Sessions(inspect, acts[..|acts| - 1]), acts[|acts| - 1])
  }

  /** What a check of a file answers in a session. */
  function Reply(inspect: Inspector, s: Session, path: string, size: int, mod: int): Verdict {
    if s.level == Off then SERVED
    else
      match Found(s.revalidate, s.m, path, size, mod)
      case Some(v) => v
      case None => inspect(s.level, path, size, Second(mod))
  }

  /** The answer is what inspecting at the level in force would say. */
  predicate Right(inspect: Inspector, s: Session, path: string, size: int, mod: int) {
    Reply(inspect, s, path, size, mod).(cached := false) == inspect(s.level, path, size, Second(mod))
  }

  /** An acceptance made at a lower level is at hand for a file that the level in force would refuse. */
  predicate Stale(inspect: Inspector, s: Session, path: string, size: int, mod: int) {
    && s.level != Off && Found(s.revalidate, s.m, path, size, mod).Some?
    && path in s.made && Rank(s.made[path]) < Rank(s.level)
    && !inspect(s.level, path, size, Second(mod)).serve
  }

  /** Every record is what inspecting its file said at the level it was made at. */
  ghost predicate Labelled(inspect: Inspector, records: Records, made: map<string, Level>) {
    && made.Keys == records.Keys
    && forall key :: key in records ==>
         && made[key] != Off
         && records[key] == Remember(records[key].size, records[key].mod,
                                     inspect(made[key], key, records[key].size, records[key].mod))
  }

  ghost predicate AllLabelled(inspect: Inspector, s: Session) {
    && Labelled(inspect, s.m.records, s.made)
    && Labelled(inspect, if s.m.disk.Some? then s.m.disk.value else map[], s.saved)
  }

  lemma DecideLabels(inspect: Inspector, records: Records, made: map<string, Level>, key: string, size: int, second: int, level: Level)
    requires Labelled(inspect, records, made) && level != Off
    ensures Labelled(inspect, records[key := Remember(size, second, inspect(level, key, size, second))], made[key := level])
  {
  }

  lemma WriteLabels(inspect: Inspector, m: Memory, made: map<string, Level>)
    requires Labelled(inspect, m.records, made)
    ensures Labelled(inspect, Kept(m), map key | key in made && key in m.touched :: made[key])
  {
  }

  lemma DoLabels(inspect: Inspector, s: Session, a: Act)
    requires AllLabelled(inspect, s)
    ensures AllLabelled(inspect, Do(inspect, s, a))
  {
    hide Labelled, Kept, Remember;
    match a
    case Ask(path, size, mod) =>
    case Decide(path, size, mod) =>
      if s.level != Off {
        DecideLabels(inspect, s.m.records, s.made, path, size, Second(mod), s.level);
      }
    case Write(written) => WriteLabels(inspect, s.m, s.made);
    case Restart(level, revalidate) =>
  }

  lemma NothingLabelled(inspect: Inspector)
    ensures AllLabelled(inspect, FIRST)
  {
  }

  lemma {:induction false} RecordsAreLabelled(inspect: Inspector, acts: seq<Act>)
    ensures AllLabelled(inspect, Sessions(inspect, acts))
  {
    hide AllLabelled, Do;
    if acts == [] {
      NothingLabelled(inspect);
    } else {
      RecordsAreLabelled(inspect, acts[..|acts| - 1]);
      DoLabels(inspect, Sessions(inspect, acts[..|acts| - 1]), acts[|acts| - 1]);
    }
  }

  /** In every run the answer of a check is right exactly when no lower-level acceptance of a file now refused is at hand. */
  lemma RightUnlessStale(inspect: Inspector, acts: seq<Act>, path: string, size: int, mod: int)
    requires Layered(inspect)
    ensures var s := Sessions(inspect, acts);
            Right(inspect, s, path, size, mod) <==> !Stale(inspect, s, path, size, mod)
  {
    RecordsAreLabelled(inspect, acts);
  }

  /** The checks of a run are those it asks for. */
  ghost predicate AllRight(inspect: Inspector, acts: seq<Act>) {
    forall i :: 0 <= i < |acts| && acts[i].Ask? ==>
      Right(inspect, Sessions(inspect, acts[..i]), acts[i].path, acts[i].size, acts[i].mod)
  }

  ghost predicate NoneStale(inspect: Inspector, acts: seq<Act>) {
    forall i :: 0 <= i < |acts| && acts[i].Ask? ==>
      !Stale(inspect, Sessions(inspect, acts[..i]), acts[i].path, acts[i].size, acts[i].mod)
  }

  /** The cache is invisible over a run across levels exactly when no check meets a stale acceptance. */
  lemma InvisibleAcrossLevels(inspect: Inspector, acts: seq<Act>)
    requires Layered(inspect)
    ensures AllRight(inspect, acts) <==> NoneStale(inspect, acts)
  {
    hide Right, Stale;
    forall i | 0 <= i < |acts| && acts[i].Ask?
      ensures Right(inspect, Sessions(inspect, acts[..i]), acts[i].path, acts[i].size, acts[i].mod)
              <==> !Stale(inspect, Sessions(inspect, acts[..i]), acts[i].path, acts[i].size, acts[i].mod)
    {
      RightUnlessStale(inspect, acts[..i], acts[i].path, acts[i].size, acts[i].mod);
    }
  }

  // What a caller can see to.

  /** After a run at some level, no later one is at a higher level; runs at level off leave no records and do not matter. */
  predicate NeverRaised(acts: seq<Act>) {
    forall i, j :: 0 <= i < j < |acts| && acts[i].Restart? && acts[j].Restart? && acts[i].level != Off ==>
      Rank(acts[j].level) <= Rank(acts[i].level)
  }

  /** Levels come from the restarts there have been. */
  ghost predicate FromRestart(acts: seq<Act>, level: Level) {
    exists i :: 0 <= i < |acts| && acts[i].Restart? && acts[i].level == level
  }

  ghost predicate LevelsKnown(acts: seq<Act>, s: Session) {
    && (s.level != Off ==> FromRestart(acts, s.level))
    && (forall key :: key in s.made ==> s.made[key] != Off && FromRestart(acts, s.made[key]))
    && (forall key :: key in s.saved ==> s.saved[key] != Off && FromRestart(acts, s.saved[key]))
  }

  lemma RestartSnoc(acts: seq<Act>, a: Act, level: Level)
    requires FromRestart(acts, level) || (a.Restart? && a.level == level)
    ensures FromRestart(acts + [a], level)
  {
    var all := acts + [a];
    if FromRestart(acts, level) {
      var i :| 0 <= i < |acts| && acts[i].Restart? && acts[i].level == level;
      assert all[i] == acts[i];
    } else {
      assert all[|acts|] == a;
    }
  }

  lemma {:induction false} LevelsComeFromRestarts(inspect: Inspector, acts: seq<Act>)
    ensures LevelsKnown(acts, Sessions(inspect, acts))
  {
    hide FromRestart;
    if acts != [] {
      var init, a := acts[..|acts| - 1], acts[|acts| - 1];
      assert acts == init + [a];
      LevelsComeFromRestarts(inspect, init);
      forall level | FromRestart(init, level) || (a.Restart? && a.level == level)
        ensures FromRestart(acts, level)
      {
        RestartSnoc(init, a, level);
      }
    }
  }

  /** The level in force is that of the last restart. */
  lemma {:induction false} LevelIsLowest(inspect: Inspector, acts: seq<Act>, i: nat)
    requires NeverRaised(acts) && i < |acts| && acts[i].Restart? && acts[i].level != Off
    ensures Rank(Sessions(inspect, acts).level) <= Rank(acts[i].level)
  {
    var init, a := acts[..|acts| - 1], acts[|acts| - 1];
    if !a.Restart? {
      assert init[i] == acts[i];
      assert forall k :: 0 <= k < |init| ==> init[k] == acts[k];
      LevelIsLowest(inspect, init, i);
    }
  }

  lemma NeverRaisedIsNeverStale(inspect: Inspector, acts: seq<Act>, path: string, size: int, mod: int)
    requires NeverRaised(acts)
    ensures !Stale(inspect, Sessions(inspect, acts), path, size, mod)
  {
    hide Found;
    var s := Sessions(inspect, acts);
    LevelsComeFromRestarts(inspect, acts);
    if path in s.made {
      assert FromRestart(acts, s.made[path]);
      var i :| 0 <= i < |acts| && acts[i].Restart? && acts[i].level == s.made[path];
      LevelIsLowest(inspect, acts, i);
    }
  }

  /** As long as the level is never raised over old records, every check of every run is right. */
  lemma NeverRaisedIsRight(inspect: Inspector, acts: seq<Act>)
    requires Layered(inspect) && NeverRaised(acts)
    ensures AllRight(inspect, acts)
  {
    hide Stale, Right;
    forall i | 0 <= i < |acts| && acts[i].Ask?
      ensures !Stale(inspect, Sessions(inspect, acts[..i]), acts[i].path, acts[i].size, acts[i].mod)
    {
      assert forall k :: 0 <= k < i ==> acts[..i][k] == acts[k];
      NeverRaisedIsNeverStale(inspect, acts[..i], acts[i].path, acts[i].size, acts[i].mod);
    }
    InvisibleAcrossLevels(inspect, acts);
  }

  // Which schedules of levels are safe.

  /** The levels of the restarts of a run, in order. */
  function LevelsOf(acts: seq<Act>): seq<Level> {
    if acts == [] then [] else (if acts[0].Restart? then [acts[0].level] else []) + LevelsOf(acts[1..])
  }

  /** No level is followed by a higher one; level off does not count. */
  predicate NotRaised(levels: seq<Level>) {
    forall i, j :: 0 <= i < j < |levels| && levels[i] != Off ==> Rank(levels[j]) <= Rank(levels[i])
  }

  /** Whatever a run with these restarts does in between, every check is right. */
  ghost predicate Safe(inspect: Inspector, levels: seq<Level>) {
    forall acts :: LevelsOf(acts) == levels ==> AllRight(inspect, acts)
  }

  /** A file that is accepted as a container and refused for its content. */
  predicate Spoiled(inspect: Inspector, path: string, size: int, mod: int) {
    inspect(Container, path, size, Second(mod)).serve && !inspect(Content, path, size, Second(mod)).serve
  }

  lemma {:induction false} LevelOfRestart(acts: seq<Act>, k: nat) returns (i: nat)
    requires k < |acts| && acts[k].Restart?
    ensures i < |LevelsOf(acts)| && LevelsOf(acts)[i] == acts[k].level
  {
    if k == 0 {
      i := 0;
    } else {
      var below := LevelOfRestart(acts[1..], k - 1);
      i := if acts[0].Restart? then below + 1 else below;
    }
  }

  /** Two restarts of a run are in its schedule in the same order. */
  lemma {:induction false} PairOfRestarts(acts: seq<Act>, i: nat, j: nat) returns (p: nat, q: nat)
    requires i < j < |acts| && acts[i].Restart? && acts[j].Restart?
    ensures p < q < |LevelsOf(acts)| && LevelsOf(acts)[p] == acts[i].level && LevelsOf(acts)[q] == acts[j].level
  {
    if i == 0 {
      q := LevelOfRestart(acts[1..], j - 1);
      p, q := 0, q + 1;
    } else {
      p, q := PairOfRestarts(acts[1..], i - 1, j - 1);
      if acts[0].Restart? {
        p, q := p + 1, q + 1;
      }
    }
  }

  lemma ScheduleNotRaised(acts: seq<Act>)
    requires NotRaised(LevelsOf(acts))
    ensures NeverRaised(acts)
  {
    hide LevelsOf;
    forall i, j | 0 <= i < j < |acts| && acts[i].Restart? && acts[j].Restart? && acts[i].level != Off
      ensures Rank(acts[j].level) <= Rank(acts[i].level)
    {
      var p, q := PairOfRestarts(acts, i, j);
    }
  }

  lemma {:induction false} LevelsAppend(a: seq<Act>, b: seq<Act>)
    ensures LevelsOf(a + b) == LevelsOf(a) + LevelsOf(b)
  {
    if a == [] {
      assert a + b == b;
    } else {
      assert (a + b)[0] == a[0] && (a + b)[1..] == a[1..] + b;
      LevelsAppend(a[1..], b);
    }
  }

  function Restarts(levels: seq<Level>): (r: seq<Act>)
    ensures |r| == |levels|
  {
    seq(|levels|, i requires 0 <= i < |levels| => Restart(levels[i], false))
  }

  lemma {:induction false} RestartLevels(levels: seq<Level>)
    ensures LevelsOf(Restarts(levels)) == levels
  {
    if levels != [] {
      assert Restarts(levels)[1..] == Restarts(levels[1..]);
      RestartLevels(levels[1..]);
    }
  }

  /** Restarts alone keep the file on disk, which is what the last of them finds. */
  lemma {:induction false} RestartsKeepDisk(inspect: Inspector, before: seq<Act>, levels: seq<Level>)
    ensures var s, t := Sessions(inspect, before), Sessions(inspect, before + Restarts(levels));
            && t.m.disk == s.m.disk && t.saved == s.saved
            && (levels != [] ==>
                  t == Session(Reopened(s.m), levels[|levels| - 1], false, s.saved, s.saved))
    decreases |levels|
  {
    if levels == [] {
      assert before + Restarts(levels) == before;
    } else {
      var init, last := levels[..|levels| - 1], levels[|levels| - 1];
      RestartsKeepDisk(inspect, before, init);
      assert before + Restarts(levels) == before + Restarts(init) + [Restart(last, false)];
      SessionsSnoc(inspect, before + Restarts(init), Restart(last, false));
    }
  }

  /** The acceptance of a file is remembered, written, and found after any number of restarts. */
  lemma AcceptanceIsFound(inspect: Inspector, before: seq<Act>, levels: seq<Level>, path: string, size: int, mod: int)
    requires Spoiled(inspect, path, size, mod) && levels != [] && levels[|levels| - 1] == Content
    requires Sessions(inspect, before).level == Container
    ensures Stale(inspect, Sessions(inspect, before + [Decide(path, size, mod)] + [Write(true)] + Restarts(levels)), path, size, mod)
  {
    hide Sessions;
    var b := before + [Decide(path, size, mod)];
    SessionsSnoc(inspect, before, Decide(path, size, mod));
    SessionsSnoc(inspect, b, Write(true));
    RestartsKeepDisk(inspect, b + [Write(true)], levels);
  }

  /** Over any schedule that raises the level some run answers wrongly, whichever spoiled file there is. */
  lemma RaisedIsWrong(inspect: Inspector, levels: seq<Level>, i: nat, j: nat, path: string, size: int, mod: int)
    returns (acts: seq<Act>)
    requires Layered(inspect) && Spoiled(inspect, path, size, mod)
    requires i < j < |levels| && levels[i] == Container && levels[j] == Content
    ensures LevelsOf(acts) == levels && !AllRight(inspect, acts)
  {
    hide Sessions, Restarts, Layered, Spoiled;
    var a := Restarts(levels[..i + 1]);
    var middle := levels[i + 1..j + 1];
    var d := a + [Decide(path, size, mod)] + [Write(true)] + Restarts(middle);
    acts := d + [Ask(path, size, mod)] + Restarts(levels[j + 1..]);
    RestartsKeepDisk(inspect, [], levels[..i + 1]);
    assert [] + a == a;
    AcceptanceIsFound(inspect, a, middle, path, size, mod);
    RightUnlessStale(inspect, d, path, size, mod);
    assert acts[..|d|] == d && acts[|d|] == Ask(path, size, mod);
    RaisedLevels(levels, i, j, Decide(path, size, mod), Ask(path, size, mod));
  }

  lemma RaisedLevels(levels: seq<Level>, i: nat, j: nat, decide: Act, ask: Act)
    requires i < j < |levels| && decide.Decide? && ask.Ask?
    ensures LevelsOf(Restarts(levels[..i + 1]) + [decide] + [Write(true)] + Restarts(levels[i + 1..j + 1]) + [ask]
                     + Restarts(levels[j + 1..])) == levels
  {
    hide Restarts, LevelsOf;
    var a, b, c := Restarts(levels[..i + 1]), Restarts(levels[i + 1..j + 1]), Restarts(levels[j + 1..]);
    NoLevels(decide);
    NoLevels(Write(true));
    NoLevels(ask);
    RestartLevels(levels[..i + 1]);
    RestartLevels(levels[i + 1..j + 1]);
    RestartLevels(levels[j + 1..]);
    LevelsAppend(a, [decide]);
    LevelsAppend(a + [decide], [Write(true)]);
    LevelsAppend(a + [decide] + [Write(true)], b);
    LevelsAppend(a + [decide] + [Write(true)] + b, [ask]);
    LevelsAppend(a + [decide] + [Write(true)] + b + [ask], c);
    assert levels == levels[..i + 1] + levels[i + 1..j + 1] + levels[j + 1..];
  }

  lemma NoLevels(a: Act)
    requires !a.Restart?
    ensures LevelsOf([a]) == []
  {
    assert [a][1..] == [];
  }

  /** Without a spoiled file nothing is ever stale. */
  lemma UnspoiledIsNeverStale(inspect: Inspector, acts: seq<Act>, path: string, size: int, mod: int)
    requires Stale(inspect, Sessions(inspect, acts), path, size, mod)
    ensures Spoiled(inspect, path, size, mod)
  {
    RecordsAreLabelled(inspect, acts);
  }

  /** For one way of inspecting, a schedule is safe exactly when it never raises the level or no file is spoiled. */
  lemma SafeExactly(inspect: Inspector, levels: seq<Level>)
    requires Layered(inspect)
    ensures Safe(inspect, levels) <==>
              NotRaised(levels) || forall path, size, mod :: !Spoiled(inspect, path, size, mod)
  {
    hide Layered, AllRight, Spoiled, Stale;
    if NotRaised(levels) {
      forall acts | LevelsOf(acts) == levels
        ensures AllRight(inspect, acts)
      {
        ScheduleNotRaised(acts);
        NeverRaisedIsRight(inspect, acts);
      }
    } else if path, size, mod :| Spoiled(inspect, path, size, mod) {
      var i, j :| 0 <= i < j < |levels| && levels[i] != Off && Rank(levels[j]) > Rank(levels[i]);
      var acts := RaisedIsWrong(inspect, levels, i, j, path, size, mod);
    } else {
      forall acts | LevelsOf(acts) == levels
        ensures AllRight(inspect, acts)
      {
        UnspoiledIsRight(inspect, acts);
      }
    }
  }

  lemma UnspoiledIsRight(inspect: Inspector, acts: seq<Act>)
    requires Layered(inspect) && forall path, size, mod :: !Spoiled(inspect, path, size, mod)
    ensures AllRight(inspect, acts)
  {
    hide Stale, Right, Layered, Spoiled;
    forall i | 0 <= i < |acts| && acts[i].Ask?
      ensures !Stale(inspect, Sessions(inspect, acts[..i]), acts[i].path, acts[i].size, acts[i].mod)
    {
      if Stale(inspect, Sessions(inspect, acts[..i]), acts[i].path, acts[i].size, acts[i].mod) {
        UnspoiledIsNeverStale(inspect, acts[..i], acts[i].path, acts[i].size, acts[i].mod);
      }
    }
    InvisibleAcrossLevels(inspect, acts);
  }

  /** The schedules that are safe whatever inspecting says are exactly those that never raise the level. */
  lemma SafeSchedules(levels: seq<Level>)
    ensures (forall inspect: Inspector :: Layered(inspect) ==> Safe(inspect, levels)) <==> NotRaised(levels)
  {
    hide Safe, NotRaised;
    forall inspect: Inspector | Layered(inspect)
      ensures NotRaised(levels) ==> Safe(inspect, levels)
    {
      SafeExactly(inspect, levels);
    }
    var refusing: Inspector := (level, path, size, second) => if level == Content then SERVED.(serve := false) else SERVED;
    assert Layered(refusing) && Spoiled(refusing, "", 0, 0);
    SafeExactly(refusing, levels);
  }

  lemma SessionsSnoc(inspect: Inspector, acts: seq<Act>, a: Act)
    ensures Sessions(inspect, acts + [a]) == Do(inspect, Sessions(inspect, acts), a)
  {
    assert (acts + [a])[..|acts|] == acts;
  }
}
