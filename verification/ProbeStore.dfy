/** The validation cache: what a Prober remembers about files, between checks and between runs. */
module ProbeStore {
  import opened Bytes

  datatype Level = Off | Container | Content

  datatype Verdict = Verdict(serve: bool, reason: string, duration: int, width: int, height: int, cached: bool)

  const SERVED := Verdict(true, "", 0, 0, 0, false)

  /** A remembered verdict, stamped with the size and modification second of the file it is about. */
  datatype Record = Record(size: int, mod: int, valid: bool, reason: string, duration: int, width: int, height: int)

  type Records = map<string, Record>

  function Recall(r: Record, cached: bool): Verdict {
    Verdict(r.valid, r.reason, r.duration, r.width, r.height, cached)
  }

  function Remember(size: int, second: int, v: Verdict): Record {
    Record(size, second, v.serve, v.reason, v.duration, v.width, v.height)
  }

  /** time.Time.Unix: the whole second a time in nanoseconds lies in. */
  function Second(mod: int): int {
    mod / 1_000_000_000
  }

  // The store as a value: what it holds in memory, which keys were consulted, and the file on disk.

  datatype Memory = Memory(records: Records, touched: set<string>, disk: Option<Records>)

  function Lookup(m: Memory, key: string, size: int, mod: int): Option<Record> {
    if key in m.records && m.records[key].size == size && m.records[key].mod == Second(mod) then Some(m.records[key]) else None
  }

  function Kept(m: Memory): Records {
    map key | key in m.records && key in m.touched :: m.records[key]
  }

  /** Check, given the verdict inspecting the file now would give. */
  function Checked(level: Level, revalidate: bool, m: Memory, key: string, size: int, mod: int, now: Verdict): (Memory, Verdict) {
    if level == Off then (m, SERVED)
    else
      var hit := Lookup(m, key, size, mod);
      if !revalidate && hit.Some? && hit.value.valid then (m.(touched := m.touched + {key}), Recall(hit.value, true))
      else (m.(touched := m.touched + {key}, records := m.records[key := Remember(size, Second(mod), now)]), now)
  }

  /** Save, which may fail to write; the file is replaced as a whole or not at all. */
  function Saved(m: Memory, written: bool): Memory {
    Memory(Kept(m), {}, if written then Some(Kept(m)) else m.disk)
  }

  /** OpenStore: a file that is missing or cannot be read counts as empty. */
  function Reopened(m: Memory): Memory {
    m.(records := if m.disk.Some? then m.disk.value else map[], touched := {})
  }

  // The same as objects.

  /** The cache file; None while it is missing or unreadable. */
  class Disk {
    var content: Option<Records>

    constructor ()
      ensures content == None
    {
      content := None;
    }
  }

  class Store {
    const disk: Disk
    var records: Records
    var touched: set<string>

    function State(): Memory
      reads this, disk
    {
      Memory(records, touched, disk.content)
    }

    constructor OpenStore(disk: Disk)
      ensures this.disk == disk && State() == Reopened(Memory(map[], {}, disk.content))
    {
      this.disk := disk;
      records, touched := map[], {};
      new;
      if disk.content.Some? {
        records := disk.content.value;
      }
    }

    method Get(key: string, size: int, mod: int) returns (rec: Option<Record>)
      modifies this
      ensures State() == old(State()).(touched := old(touched) + {key})
      ensures rec == Lookup(old(State()), key, size, mod)
    {
      touched := touched + {key};
      if key !in records || records[key].size != size || records[key].mod != Second(mod) {
        return None;
      }
      return Some(records[key]);
    }

    method Put(key: string, size: int, mod: int, v: Verdict)
      modifies this
      ensures State() == old(State()).(touched := old(touched) + {key},
                                       records := old(records)[key := Remember(size, Second(mod), v)])
    {
      touched := touched + {key};
      records := records[key := Record(size, Second(mod), v.serve, v.reason, v.duration, v.width, v.height)];
    }

    /** Records nobody consulted are deleted one by one, in any order, and the rest written. */
    method Save(written: bool)
      modifies this, disk
      ensures State() == Saved(old(State()), written)
    {
      var keys := records.Keys;
      while keys != {}
        invariant keys <= old(records).Keys && touched == old(touched) && disk.content == old(disk.content)
        invariant records == map k | k in old(records) && (k in keys || k in touched) :: old(records)[k]
        decreases |keys|
      {
        var key :| key in keys;
        if key !in touched {
          records := records - {key};
        }
        keys := keys - {key};
      }
      assert records == Kept(old(State()));
      touched := {};
      if written {
        disk.content := Some(records);
      }
    }
  }

  class Prober {
    const level: Level
    const revalidate: bool
    const store: Store?

    constructor (level: Level, revalidate: bool, store: Store?)
      ensures this.level == level && this.revalidate == revalidate && this.store == store
    {
      this.level, this.revalidate, this.store := level, revalidate, store;
    }

    /** A stored acceptance of the unchanged file is reused; anything else is inspected and remembered. */
    method Check(path: string, size: int, mod: int, inspect: string -> Verdict) returns (v: Verdict)
      modifies store
      ensures level == Off ==> v.serve && (store != null ==> store.State() == old(store.State()))
      ensures store == null ==> v == if level == Off then SERVED else inspect(path)
      ensures store != null ==> (store.State(), v) == Checked(level, revalidate, old(store.State()), path, size, mod, inspect(path))
    {
      if level == Off {
        return SERVED;
      }
      if !revalidate && store != null {
        var rec := store.Get(path, size, mod);
        if rec.Some? && rec.value.valid {
          return Recall(rec.value, true);
        }
      }
      v := inspect(path);
      if store != null {
        store.Put(path, size, mod, v);
      }
    }
  }

  // Runs. Checks of several files go on at once: each consults the store, and unless it finds an acceptance it
  // concludes later, when the file has been inspected.

  /** now is what inspecting the file says, or would say, at that moment. */
  datatype Event =
    | Consult(path: string, size: int, mod: int, now: Verdict)
    | Conclude(path: string, size: int, mod: int, now: Verdict)
    | Save(written: bool)
    | Reopen

  function Step(revalidate: bool, m: Memory, e: Event): Memory {
    match e
    case Consult(path, size, mod, now) => if revalidate then m else m.(touched := m.touched + {path})
    case Conclude(path, size, mod, now) =>
      m.(touched := m.touched + {path}, records := m.records[path := Remember(size, Second(mod), now)])
    case Save(written) => Saved(m, written)
    case Reopen => Reopened(m)
  }

  const EMPTY := Memory(map[], {}, None)

  /** The store after a run that began with no cache file. */
  function After(revalidate: bool, events: seq<Event>): Memory {
    if events == [] then EMPTY else Step(revalidate, After(revalidate, events[..|events| - 1]), events[|events| - 1])
  }

  /** What consulting the store answers; without an answer the file is inspected. */
  function Found(revalidate: bool, m: Memory, key: string, size: int, mod: int): Option<Verdict> {
    var hit := Lookup(m, key, size, mod);
    if !revalidate && hit.Some? && hit.value.valid then Some(Recall(hit.value, true)) else None
  }

  /** What the i-th event, a consultation, answers. */
  function Answer(revalidate: bool, events: seq<Event>, i: nat): Option<Verdict>
    requires i < |events| && events[i].Consult?
  {
    Found(revalidate, After(revalidate, events[..i]), events[i].path, events[i].size, events[i].mod)
  }

  /** A check that nothing interrupts is a consultation and, without an answer, a conclusion. */
  lemma CheckIsTwoSteps(level: Level, revalidate: bool, m: Memory, key: string, size: int, mod: int, now: Verdict)
    requires level != Off
    ensures var consulted := Step(revalidate, m, Consult(key, size, mod, now));
            Checked(level, revalidate, m, key, size, mod, now)
            == match Found(revalidate, m, key, size, mod)
               case Some(v) => (consulted, v)
               case None => (Step(revalidate, consulted, Conclude(key, size, mod, now)), now)
  {
  }

  predicate SameFile(a: Event, b: Event)
    requires a.Conclude? && b.Consult?
  {
    a.path == b.path && a.size == b.size && Second(a.mod) == Second(b.mod)
  }

  /** Once a file has been accepted, inspecting it again without its size or second changing says the same. */
  ghost predicate Stable(events: seq<Event>) {
    forall i, j ::
      (0 <= i < j < |events| && events[i].Conclude? && events[j].Consult? && SameFile(events[i], events[j]) && events[i].now.serve)
      ==> events[j].now == events[i].now
  }

  /** Every acceptance on record was concluded in the run. */
  ghost predicate Witnessed(records: Records, events: seq<Event>) {
    forall key :: key in records && records[key].valid ==> Seen(key, records[key], events)
  }

  ghost predicate Seen(key: string, r: Record, events: seq<Event>) {
    exists i :: 0 <= i < |events| && Wrote(events[i], key, r)
  }

  predicate Wrote(e: Event, key: string, r: Record) {
    e.Conclude? && e.path == key && e.size == r.size && Second(e.mod) == r.mod && e.now.(cached := false) == Recall(r, false)
  }

  lemma SeenLater(key: string, r: Record, events: seq<Event>, e: Event)
    requires Seen(key, r, events) || Wrote(e, key, r)
    ensures Seen(key, r, events + [e])
  {
    var all := events + [e];
    if Seen(key, r, events) {
      var i :| 0 <= i < |events| && Wrote(events[i], key, r);
      assert all[i] == events[i];
    } else {
      assert all[|events|] == e;
    }
  }

  lemma {:induction false} RecordsAreWitnessed(revalidate: bool, events: seq<Event>)
    ensures var m := After(revalidate, events);
            Witnessed(m.records, events) && (m.disk.Some? ==> Witnessed(m.disk.value, events))
  {
    hide Seen;
    if events != [] {
      var init, e := events[..|events| - 1], events[|events| - 1];
      assert events == init + [e];
      RecordsAreWitnessed(revalidate, init);
      forall key, r | Seen(key, r, init) || Wrote(e, key, r)
        ensures Seen(key, r, events)
      {
        SeenLater(key, r, init, e);
      }
      if e.Conclude? {
        assert Wrote(e, e.path, Remember(e.size, Second(e.mod), e.now));
      }
    }
  }

  /**
   * Over every run of checks, interleaved in any way with each other, with saves and with restarts, the cache is
   * invisible: what a consultation answers is what inspecting the file at that moment would answer, marked as cached.
   */
  lemma CacheIsInvisible(revalidate: bool, events: seq<Event>, j: nat)
    requires Stable(events) && j < |events| && events[j].Consult?
    requires Answer(revalidate, events, j).Some?
    ensures Answer(revalidate, events, j).value == events[j].now.(cached := true)
  {
    hide After;
    var e, past := events[j], events[..j];
    var m := After(revalidate, past);
    RecordsAreWitnessed(revalidate, past);
    var r := m.records[e.path];
    assert Seen(e.path, r, past);
    var i :| 0 <= i < |past| && Wrote(past[i], e.path, r);
    assert events[i] == past[i] && SameFile(events[i], events[j]);
  }

  /** A refusal is never answered from the store: the file is inspected again, and the new verdict replaces it. */
  lemma RefusalsAreReinspected(level: Level, revalidate: bool, m: Memory, key: string, size: int, mod: int, now: Verdict)
    requires level != Off && (key in m.records ==> !m.records[key].valid)
    ensures Checked(level, revalidate, m, key, size, mod, now).1 == now
    ensures Lookup(Checked(level, revalidate, m, key, size, mod, now).0, key, size, mod)
            == Some(Remember(size, Second(mod), now))
  {
  }

  /** Since a conclusion about a key, the store has been neither reopened nor told anything else about it. */
  predicate Undisturbed(events: seq<Event>, i: nat, j: nat, key: string)
    requires i < j <= |events|
  {
    forall k :: i < k < j ==> events[k] != Reopen && !(events[k].Conclude? && events[k].path == key)
  }

  predicate Unsaved(events: seq<Event>, i: nat, j: nat)
    requires i < j <= |events|
  {
    forall k :: i < k < j ==> !events[k].Save?
  }

  /** Until then the record, while it is held, is that conclusion; only a save can drop it. */
  lemma {:induction false} ConclusionIsHeld(revalidate: bool, events: seq<Event>, i: nat, j: nat)
    requires i < j <= |events| && events[i].Conclude? && Undisturbed(events, i, j, events[i].path)
    ensures var e, m := events[i], After(revalidate, events[..j]);
            && (e.path in m.records ==> m.records[e.path] == Remember(e.size, Second(e.mod), e.now))
            && (Unsaved(events, i, j) ==> e.path in m.records)
  {
    assert events[..j][..j - 1] == events[..j - 1] && events[..j][j - 1] == events[j - 1];
    if j - 1 > i {
      ConclusionIsHeld(revalidate, events, i, j - 1);
    }
  }

  /**
   * Over every run: after a conclusion about a file, and before the next one or a restart, a consultation is answered
   * exactly when the conclusion was an acceptance, the file is unchanged, and no save has dropped the record.
   */
  lemma AnsweredOnlyByAcceptance(revalidate: bool, events: seq<Event>, i: nat, j: nat)
    requires i < j < |events| && events[i].Conclude? && events[j].Consult? && events[j].path == events[i].path
    requires Undisturbed(events, i, j, events[i].path)
    ensures Answer(revalidate, events, j).Some? <==>
              !revalidate && events[i].now.serve && SameFile(events[i], events[j])
              && events[i].path in After(revalidate, events[..j]).records
    ensures Unsaved(events, i, j) ==> events[i].path in After(revalidate, events[..j]).records
  {
    hide After;
    ConclusionIsHeld(revalidate, events, i, j);
  }

  /** The keys checked since the last save or restart; with revalidation only conclusions reach the store. */
  function Consulted(revalidate: bool, events: seq<Event>): set<string> {
    if events == [] then {}
    else
      var e, before := events[|events| - 1], Consulted(revalidate, events[..|events| - 1]);
      match e
      case Consult(path, _, _, _) => if revalidate then before else before + {path}
      case Conclude(path, _, _, _) => before + {path}
      case _ => {}
  }

  lemma {:induction false} TouchedIsConsulted(revalidate: bool, events: seq<Event>)
    ensures After(revalidate, events).touched == Consulted(revalidate, events)
  {
    if events != [] {
      TouchedIsConsulted(revalidate, events[..|events| - 1]);
    }
  }

  /** A save keeps exactly the records checked since the one before, unchanged, and writes just those. */
  lemma SaveKeepsConsulted(revalidate: bool, events: seq<Event>, written: bool)
    ensures var before, after := After(revalidate, events), After(revalidate, events + [Save(written)]);
            && after.records.Keys == before.records.Keys * Consulted(revalidate, events)
            && (forall key :: key in after.records ==> after.records[key] == before.records[key])
            && (written ==> after.disk == Some(after.records)) && (!written ==> after.disk == before.disk)
  {
    AfterSnoc(revalidate, events, Save(written));
    TouchedIsConsulted(revalidate, events);
  }

  lemma AfterSnoc(revalidate: bool, events: seq<Event>, e: Event)
    ensures After(revalidate, events + [e]) == Step(revalidate, After(revalidate, events), e)
  {
    assert (events + [e])[..|events|] == events;
  }

  /** An acceptance outlives a save and a restart: the file, unchanged, is answered from the store. */
  lemma AcceptanceSurvivesRestart(events: seq<Event>, path: string, size: int, mod: int, now: Verdict)
    requires now.serve
    ensures var m := After(false, events + [Conclude(path, size, mod, now)] + [Save(true)] + [Reopen]);
            Found(false, m, path, size, mod) == Some(now.(cached := true))
  {
    hide After;
    var a := events + [Conclude(path, size, mod, now)];
    AfterSnoc(false, events, Conclude(path, size, mod, now));
    AfterSnoc(false, a, Save(true));
    AfterSnoc(false, a + [Save(true)], Reopen);
  }

  /**
   * A record does not say at which level it was made: an acceptance of the container alone is reused by a run that
   * checks content, although inspecting would refuse the file.
   */
  lemma RecordsForgetTheLevel(path: string, size: int, mod: int, refusal: Verdict)
    requires !refusal.serve
    ensures var m := Checked(Container, false, EMPTY, path, size, mod, SERVED).0;
            Checked(Content, false, Reopened(Saved(m, true)), path, size, mod, refusal).1 == SERVED.(cached := true)
  {
  }
}
