/** GENA eventing: subscriptions, their sequence numbers, and the rescans that notify them. */
module Gena {
  import opened Bytes

  type Sid = string

  datatype Service = ContentDirectory | ConnectionManager

  /** expires is a time; number is the 32-bit SEQ of the last event given to the subscription. */
  datatype Sub = Sub(service: Service, expires: int, number: nat)

  type Subs = map<Sid, Sub>

  /** An event waiting for its body: a private copy of the subscription as it was under the lock. */
  datatype Pending = Pending(sid: Sid, service: Service, number: nat)

  /** An event handed to a sender, with the SystemUpdateID of its body; a ConnectionManager body holds none. */
  datatype Sent = Sent(sid: Sid, number: nat, updateID: Option<nat>)

  // The subscription table.

  function Up(number: nat): nat {
    (number + 1) % 0x1_0000_0000
  }

  predicate Live(subs: Subs, now: int, sid: Sid) {
    sid in subs && now <= subs[sid].expires
  }

  /** The table after a notification: expired subscriptions gone, the others one number further. */
  function Ticked(subs: Subs, now: int): Subs {
    map sid | sid in subs && Live(subs, now, sid) :: subs[sid].(number := Up(subs[sid].number))
  }

  /** The events of a notification, in the order the table happens to be read. */
  function Events(subs: Subs, order: seq<Sid>): seq<Pending>
    requires forall sid :: sid in order ==> sid in subs
  {
    if order == [] then []
    else [Pending(order[0], subs[order[0]].service, Up(subs[order[0]].number))] + Events(subs, order[1..])
  }

  /** Every live subscription, each once. */
  ghost predicate Lists(subs: Subs, now: int, order: seq<Sid>) {
    && (forall sid :: sid in order <==> Live(subs, now, sid))
    && (forall i, j :: 0 <= i < j < |order| ==> order[i] != order[j])
  }

  // What the handlers do to it.

  class Table {
    var subs: Subs

    constructor ()
      ensures subs == map[]
    {
      subs := map[];
    }

    /** A SUBSCRIBE with a SID: it succeeds exactly when the table still holds the SID, expired or not. */
    method Renew(sid: Sid, expires: int) returns (ok: bool)
      modifies this
      ensures ok <==> sid in old(subs)
      ensures subs == if ok then old(subs)[sid := old(subs)[sid].(expires := expires)] else old(subs)
    {
      ok := sid in subs;
      if ok {
        subs := subs[sid := subs[sid].(expires := expires)];
      }
    }

    /** A SUBSCRIBE without one: the copy for the initial event is taken under the lock. */
    method Subscribe(sid: Sid, service: Service, expires: int) returns (initial: Pending)
      modifies this
      ensures subs == old(subs)[sid := Sub(service, expires, 0)] && initial == Pending(sid, service, 0)
    {
      subs := subs[sid := Sub(service, expires, 0)];
      initial := Pending(sid, service, subs[sid].number);
    }

    method Unsubscribe(sid: Sid)
      modifies this
      ensures subs == old(subs) - {sid}
    {
      subs := subs - {sid};
    }

    /** One pass over the table, in an order of its own: expired entries go, the others get their next number. */
    method Notify(now: int) returns (pending: seq<Pending>, ghost order: seq<Sid>)
      modifies this
      ensures Lists(old(subs), now, order) && pending == Events(old(subs), order) && subs == Ticked(old(subs), now)
    {
      ghost var was := subs;
      var left := subs.Keys;
      pending, order := [], [];
      while left != {}
        invariant left <= was.Keys && Half(was, subs, now, left)
        invariant forall sid :: sid in order <==> Live(was, now, sid) && sid !in left
        invariant forall i, j :: 0 <= i < j < |order| ==> order[i] != order[j]
        invariant pending == Events(was, order)
        decreases |left|
      {
        var sid :| sid in left;
        left := left - {sid};
        if now > subs[sid].expires {
          subs := subs - {sid};
        } else {
          subs := subs[sid := subs[sid].(number := Up(subs[sid].number))];
          EventsSnoc(was, order, sid);
          pending := pending + [Pending(sid, subs[sid].service, subs[sid].number)];
          order := order + [sid];
        }
      }
      assert subs == Ticked(was, now);
    }
  }

  /** Some entries have been dealt with, the others are as they were. */
  ghost predicate Half(was: Subs, subs: Subs, now: int, left: set<Sid>) {
    && (forall sid :: sid in subs <==> sid in was && (sid in left || Live(was, now, sid)))
    && forall sid :: sid in subs ==> subs[sid] == if sid in left then was[sid] else was[sid].(number := Up(was[sid].number))
  }

  lemma {:induction false} EventsSnoc(subs: Subs, order: seq<Sid>, sid: Sid)
    requires sid in subs && forall o :: o in order ==> o in subs
    ensures Events(subs, order + [sid]) == Events(subs, order) + [Pending(sid, subs[sid].service, Up(subs[sid].number))]
  {
    if order == [] {
      assert [sid][1..] == [];
    } else {
      assert (order + [sid])[1..] == order[1..] + [sid];
      EventsSnoc(subs, order[1..], sid);
    }
  }

  // The protocol. A rescan holds its lock from the scan to the last send; subscribing, renewing and unsubscribing
  // take the table's lock only, so they fall anywhere in between.

  datatype Rescan = Idle | Scanned | Sending(pending: seq<Pending>)

  /** given and sent record every number given out, and every event handed over, in order. */
  datatype State = State(subs: Subs, services: map<Sid, Service>, openings: set<Sid>, scans: nat, rescan: Rescan,
                         given: seq<Assigned>, sent: seq<Sent>)

  /** A number given to a subscription, and how many scans there had been. */
  datatype Assigned = Assigned(sid: Sid, number: nat, scan: nat)

  datatype Step =
    | Subscribe(sid: Sid, service: Service, expires: int)
    | Open(sid: Sid)
    | Renew(sid: Sid, expires: int)
    | Unsubscribe(sid: Sid)
    | Scan
    | FailScan
    | Notify(now: int, order: seq<Sid>)
    | Send
    | Finish

  /** Nobody has subscribed; the library may have been scanned before the server started. */
  predicate Initial(s: State) {
    s.subs == map[] && s.services == map[] && s.openings == {} && s.rescan == Idle && s.given == [] && s.sent == []
  }

  function UpdateID(s: State): nat {
    s.scans % 0x1_0000_0000
  }

  /** The initial event's body, made when it is sent. */
  function Body(s: State, service: Service): Option<nat> {
    if service == ContentDirectory then Some(UpdateID(s)) else None
  }

  ghost predicate Enabled(s: State, step: Step) {
    match step
    case Subscribe(sid, service, expires) => sid !in s.services
    case Open(sid) => sid in s.openings && sid in s.services
    case Renew(sid, expires) => true
    case Unsubscribe(sid) => true
    case Scan => s.rescan.Idle?
    case FailScan => s.rescan.Idle?
    case Notify(now, order) => s.rescan.Scanned? && Lists(s.subs, now, order)
    case Send => s.rescan.Sending? && s.rescan.pending != []
    case Finish => s.rescan.Sending? && s.rescan.pending == []
  }

  function Numbers(events: seq<Pending>, scan: nat): seq<Assigned> {
    if events == [] then [] else [Assigned(events[0].sid, events[0].number, scan)] + Numbers(events[1..], scan)
  }

  ghost function Next(s: State, step: Step): State
    requires Enabled(s, step)
  {
    match step
    case Subscribe(sid, service, expires) =>
      s.(subs := s.subs[sid := Sub(service, expires, 0)], services := s.services[sid := service],
         openings := s.openings + {sid}, given := s.given + [Assigned(sid, 0, s.scans)])
    case Open(sid) => s.(openings := s.openings - {sid}, sent := s.sent + [Sent(sid, 0, Body(s, s.services[sid]))])
    case Renew(sid, expires) => if sid in s.subs then s.(subs := s.subs[sid := s.subs[sid].(expires := expires)]) else s
    case Unsubscribe(sid) => s.(subs := s.subs - {sid})
    case Scan => s.(scans := s.scans + 1, rescan := Scanned)
    case FailScan => s
    case Notify(now, order) =>
      var events := Events(s.subs, order);
      s.(subs := Ticked(s.subs, now), rescan := Sending(events), given := s.given + Numbers(events, s.scans))
    case Send =>
      var e, rest := s.rescan.pending[0], s.rescan.pending[1..];
      if e.service == ContentDirectory then
        s.(rescan := Sending(rest), sent := s.sent + [Sent(e.sid, e.number, Some(UpdateID(s)))])
      else s.(rescan := Sending(rest))
    case Finish => s.(rescan := Idle)
  }

  ghost predicate Follows(s: State, s': State) {
    exists step :: Enabled(s, step) && s' == Next(s, step)
  }

  ghost predicate Run(states: seq<State>) {
    && states != [] && Initial(states[0])
    && forall i :: 0 < i < |states| ==> Follows(states[i - 1], states[i])
  }

  // Numbers of one subscription.

  /** The numbers given to a subscription, in the order they were given. */
  function NumbersOf(log: seq<Assigned>, sid: Sid): seq<nat> {
    if log == [] then []
    else NumbersOf(log[..|log| - 1], sid) + if log[|log| - 1].sid == sid then [log[|log| - 1].number] else []
  }

  function UpTo(n: nat): seq<nat> {
    seq(n, i => i)
  }

  lemma {:induction false} NumbersAppend(a: seq<Assigned>, b: seq<Assigned>, sid: Sid)
    ensures NumbersOf(a + b, sid) == NumbersOf(a, sid) + NumbersOf(b, sid)
  {
    if b == [] {
      assert a + b == a;
    } else {
      assert (a + b)[..|a + b| - 1] == a + b[..|b| - 1];
      NumbersAppend(a, b[..|b| - 1], sid);
    }
  }

  /** A notification gives each listed subscription one number, and the others none. */
  lemma {:induction false} BatchNumbers(subs: Subs, order: seq<Sid>, scan: nat, sid: Sid)
    requires forall o :: o in order ==> o in subs
    requires forall i, j :: 0 <= i < j < |order| ==> order[i] != order[j]
    ensures NumbersOf(Numbers(Events(subs, order), scan), sid) == if sid in order then [Up(subs[sid].number)] else []
  {
    if order != [] {
      var first := Assigned(order[0], Up(subs[order[0]].number), scan);
      BatchNumbers(subs, order[1..], scan, sid);
      NumbersAppend([first], Numbers(Events(subs, order[1..]), scan), sid);
      assert Numbers(Events(subs, order), scan) == [first] + Numbers(Events(subs, order[1..]), scan);
      assert [first][..0] == [] && NumbersOf([], sid) == [];
      assert sid in order <==> sid == order[0] || sid in order[1..];
      if sid == order[0] {
        assert sid !in order[1..];
      }
    }
  }

  /**
   * A subscription in the table has been given 0, 1, ..., up to its number; one that is gone, an initial stretch of
   * that; one that never was, nothing. Numbers trail the scans, so they do not wrap before the scans do.
   */
  ghost predicate Counted(s: State, sid: Sid) {
    if sid in s.subs then
      && NumbersOf(s.given, sid) == UpTo(s.subs[sid].number + 1)
      && s.subs[sid].number + (if s.rescan.Scanned? then 1 else 0) <= s.scans
    else exists n :: NumbersOf(s.given, sid) == UpTo(n)
  }

  predicate Known(s: State) {
    && (forall sid :: sid in s.subs ==> sid in s.services && s.services[sid] == s.subs[sid].service)
    && (forall a :: a in s.given ==> a.sid in s.services)
    && (s.rescan.Scanned? ==> s.scans > 0)
  }

  lemma {:induction false} Unassigned(log: seq<Assigned>, sid: Sid)
    requires forall a :: a in log ==> a.sid != sid
    ensures NumbersOf(log, sid) == []
  {
    if log != [] {
      assert log[|log| - 1] in log;
      Unassigned(log[..|log| - 1], sid);
    }
  }

  lemma StepKeepsKnown(s: State, step: Step)
    requires Known(s) && Enabled(s, step)
    ensures Known(Next(s, step))
  {
    if step.Notify? {
      var events := Events(s.subs, step.order);
      forall a | a in Numbers(events, s.scans)
        ensures a.sid in s.services
      {
        BatchSids(s.subs, step.order, s.scans, a);
      }
    }
  }

  lemma {:induction false} BatchSids(subs: Subs, order: seq<Sid>, scan: nat, a: Assigned)
    requires (forall o :: o in order ==> o in subs) && a in Numbers(Events(subs, order), scan)
    ensures a.sid in order && a.scan == scan && a.number == Up(subs[a.sid].number)
  {
    var first := Assigned(order[0], Up(subs[order[0]].number), scan);
    assert Numbers(Events(subs, order), scan) == [first] + Numbers(Events(subs, order[1..]), scan);
    if a != first {
      BatchSids(subs, order[1..], scan, a);
    }
  }

  lemma SubscribeKeepsCounted(s: State, step: Step, sid: Sid)
    requires step.Subscribe? && Known(s) && Counted(s, sid) && Enabled(s, step)
    ensures Counted(Next(s, step), sid)
  {
    hide NumbersOf;
    var one := Assigned(step.sid, 0, s.scans);
    NumbersAppend(s.given, [one], sid);
    OneNumber(one, sid);
    if sid == step.sid {
      Unassigned(s.given, sid);
      assert NumbersOf(Next(s, step).given, sid) == [0] == UpTo(1);
    } else {
      assert NumbersOf(Next(s, step).given, sid) == NumbersOf(s.given, sid);
    }
  }

  lemma NotifyKeepsCounted(s: State, step: Step, sid: Sid)
    requires step.Notify? && Counted(s, sid) && Enabled(s, step) && s.scans < 0x1_0000_0000
    ensures Counted(Next(s, step), sid)
  {
    hide NumbersOf, Numbers, Events;
    NumbersAppend(s.given, Numbers(Events(s.subs, step.order), s.scans), sid);
    BatchNumbers(s.subs, step.order, s.scans, sid);
    if Live(s.subs, step.now, sid) {
      var number := s.subs[sid].number;
      assert UpTo(number + 2) == UpTo(number + 1) + [number + 1];
    } else {
      assert NumbersOf(Next(s, step).given, sid) == NumbersOf(s.given, sid);
      assert sid in s.subs ==> NumbersOf(s.given, sid) == UpTo(s.subs[sid].number + 1);
    }
  }

  lemma StepKeepsCounted(s: State, step: Step, sid: Sid)
    requires Known(s) && Counted(s, sid) && Enabled(s, step) && Next(s, step).scans < 0x1_0000_0000
    ensures Counted(Next(s, step), sid)
  {
    hide NumbersOf;
    if step.Subscribe? {
      SubscribeKeepsCounted(s, step, sid);
    } else if step.Notify? {
      NotifyKeepsCounted(s, step, sid);
    } else {
      assert Next(s, step).given == s.given;
      assert sid in s.subs ==> NumbersOf(s.given, sid) == UpTo(s.subs[sid].number + 1);
    }
  }

  lemma OneNumber(a: Assigned, sid: Sid)
    ensures NumbersOf([a], sid) == if a.sid == sid then [a.number] else []
  {
    assert [a][..0] == [];
  }

  lemma {:induction false} RunsCount(states: seq<State>, sid: Sid)
    requires Run(states) && states[|states| - 1].scans < 0x1_0000_0000
    ensures Known(states[|states| - 1]) && Counted(states[|states| - 1], sid)
  {
    hide Counted, Known, Enabled, Next;
    if |states| == 1 {
      InitialCounted(states[0], sid);
    } else {
      var init := states[..|states| - 1];
      var s, s' := states[|states| - 2], states[|states| - 1];
      assert Follows(s, s');
      var step :| Enabled(s, step) && s' == Next(s, step);
      ScansGrow(s, step);
      RunsCount(init, sid);
      StepKeepsKnown(s, step);
      StepKeepsCounted(s, step, sid);
    }
  }

  lemma InitialCounted(s: State, sid: Sid)
    requires Initial(s)
    ensures Known(s) && Counted(s, sid)
  {
    assert NumbersOf(s.given, sid) == UpTo(0);
  }

  lemma ScansGrow(s: State, step: Step)
    requires Enabled(s, step)
    ensures s.scans <= Next(s, step).scans
  {
  }

  /**
   * In every run with fewer than 2^32 scans, the numbers a subscription is given are 0, 1, 2, ... without gap or
   * repeat, and while it is in the table its stored number is the last of them.
   */
  lemma NumbersHaveNoGap(states: seq<State>, sid: Sid)
    requires Run(states) && states[|states| - 1].scans < 0x1_0000_0000
    ensures var s := states[|states| - 1];
            && NumbersOf(s.given, sid) == UpTo(|NumbersOf(s.given, sid)|)
            && (sid in s.subs ==> |NumbersOf(s.given, sid)| == s.subs[sid].number + 1)
  {
    RunsCount(states, sid);
  }

  /** Once a subscription is gone it is given no more numbers, and it does not come back. */
  lemma NothingAfterRemoval(s: State, step: Step, sid: Sid)
    requires Known(s) && Enabled(s, step) && sid in s.services && sid !in s.subs
    ensures var s' := Next(s, step);
            sid in s'.services && sid !in s'.subs && NumbersOf(s'.given, sid) == NumbersOf(s.given, sid)
  {
    hide NumbersOf;
    if step.Subscribe? {
      NumbersAppend(s.given, [Assigned(step.sid, 0, s.scans)], sid);
      OneNumber(Assigned(step.sid, 0, s.scans), sid);
    } else if step.Notify? {
      NumbersAppend(s.given, Numbers(Events(s.subs, step.order), s.scans), sid);
      BatchNumbers(s.subs, step.order, s.scans, sid);
    }
  }

  // What is sent.

  /** How often a number of a subscription has been sent, or is about to be. */
  function Handed(s: State, sid: Sid, number: nat): nat {
    SentCount(s.sent, sid, number) + (if s.rescan.Sending? then DueCount(s.rescan.pending, sid, number) else 0)
    + (if number == 0 && sid in s.openings then 1 else 0)
  }

  function SentCount(log: seq<Sent>, sid: Sid, number: nat): nat {
    if log == [] then 0
    else SentCount(log[..|log| - 1], sid, number) + if log[|log| - 1].sid == sid && log[|log| - 1].number == number then 1 else 0
  }

  function DueCount(events: seq<Pending>, sid: Sid, number: nat): nat {
    if events == [] then 0
    else (if events[0].service == ContentDirectory && events[0].sid == sid && events[0].number == number then 1 else 0)
         + DueCount(events[1..], sid, number)
  }

  lemma SentSnoc(log: seq<Sent>, e: Sent, sid: Sid, number: nat)
    ensures SentCount(log + [e], sid, number) == SentCount(log, sid, number) + if e.sid == sid && e.number == number then 1 else 0
  {
    assert (log + [e])[..|log|] == log;
  }

  lemma {:induction false} DueOnce(subs: Subs, order: seq<Sid>, sid: Sid, number: nat)
    requires forall o :: o in order ==> o in subs
    requires forall i, j :: 0 <= i < j < |order| ==> order[i] != order[j]
    ensures DueCount(Events(subs, order), sid, number)
            == if sid in order && subs[sid].service == ContentDirectory && Up(subs[sid].number) == number then 1 else 0
  {
    if order != [] {
      DueOnce(subs, order[1..], sid, number);
      assert Events(subs, order)[1..] == Events(subs, order[1..]);
      assert sid in order <==> sid == order[0] || sid in order[1..];
      if sid == order[0] {
        assert sid !in order[1..];
      }
    }
  }

  /** Every number given to a ContentDirectory subscription is handed to a sender exactly once, and no other number is. */
  ghost predicate Delivered(s: State, sid: Sid, number: nat) {
    sid in s.services && s.services[sid] == ContentDirectory ==>
      Handed(s, sid, number) == multiset(NumbersOf(s.given, sid))[number]
  }

  lemma StepKeepsDelivered(s: State, step: Step, sid: Sid, number: nat)
    requires Known(s) && Enabled(s, step) && Delivered(s, sid, number)
    requires s.openings <= s.services.Keys && (sid !in s.services ==> Handed(s, sid, number) == 0)
    ensures Delivered(Next(s, step), sid, number)
    ensures Next(s, step).openings <= Next(s, step).services.Keys
    ensures sid !in Next(s, step).services ==> Handed(Next(s, step), sid, number) == 0
  {
    hide NumbersOf, SentCount, DueCount;
    var s' := Next(s, step);
    match step
    case Subscribe(newcomer, service, expires) =>
      var one := Assigned(newcomer, 0, s.scans);
      NumbersAppend(s.given, [one], sid);
      OneNumber(one, sid);
      if sid == newcomer {
        Unassigned(s.given, sid);
      }
    case Open(first) =>
      SentSnoc(s.sent, Sent(first, 0, Body(s, s.services[first])), sid, number);
    case Notify(now, order) =>
      NumbersAppend(s.given, Numbers(Events(s.subs, order), s.scans), sid);
      BatchNumbers(s.subs, order, s.scans, sid);
      DueOnce(s.subs, order, sid, number);
    case Send =>
      var e := s.rescan.pending[0];
      DueCons(s.rescan.pending, sid, number);
      SentSnoc(s.sent, Sent(e.sid, e.number, Some(UpdateID(s))), sid, number);
    case Finish => DueNil(sid, number);
    case _ =>
  }

  lemma DueCons(events: seq<Pending>, sid: Sid, number: nat)
    requires events != []
    ensures DueCount(events, sid, number) == DueCount(events[1..], sid, number)
            + if events[0].service == ContentDirectory && events[0].sid == sid && events[0].number == number then 1 else 0
  {
  }

  lemma DueNil(sid: Sid, number: nat)
    ensures DueCount([], sid, number) == 0
  {
  }

  /** What Delivered needs to be kept, at the start and from step to step. */
  ghost predicate Accounted(s: State, sid: Sid, number: nat) {
    Delivered(s, sid, number) && s.openings <= s.services.Keys && (sid !in s.services ==> Handed(s, sid, number) == 0)
  }

  lemma {:induction false} RunsDeliver(states: seq<State>, sid: Sid, number: nat)
    requires Run(states)
    ensures Known(states[|states| - 1]) && Accounted(states[|states| - 1], sid, number)
  {
    hide Known, Delivered, Handed, Enabled, Next;
    if |states| == 1 {
      InitialDelivered(states[0], sid, number);
    } else {
      var init := states[..|states| - 1];
      var s, s' := states[|states| - 2], states[|states| - 1];
      assert Follows(s, s');
      var step :| Enabled(s, step) && s' == Next(s, step);
      RunsDeliver(init, sid, number);
      StepKeepsKnown(s, step);
      StepKeepsDelivered(s, step, sid, number);
    }
  }

  lemma InitialDelivered(s: State, sid: Sid, number: nat)
    requires Initial(s)
    ensures Known(s) && Accounted(s, sid, number)
  {
  }

  /** When nothing is waiting any more, the numbers sent to a ContentDirectory subscription are those it was given, once each. */
  lemma EveryNumberIsSentOnce(states: seq<State>, sid: Sid, number: nat)
    requires Run(states)
    requires var s := states[|states| - 1];
             s.rescan.Idle? && s.openings == {} && sid in s.services && s.services[sid] == ContentDirectory
    ensures var s := states[|states| - 1];
            SentCount(s.sent, sid, number) == multiset(NumbersOf(s.given, sid))[number]
  {
    hide SentCount, NumbersOf;
    RunsDeliver(states, sid, number);
  }

  // The SystemUpdateID in the body.

  ghost predicate NumbersTrail(s: State) {
    forall sid :: sid in s.subs ==> s.subs[sid].number + (if s.rescan.Scanned? then 1 else 0) <= s.scans
  }

  ghost predicate Dated(s: State) {
    && (forall a :: a in s.given && a.number >= 1 ==> a.scan + (if s.rescan.Scanned? then 1 else 0) <= s.scans)
    && (forall a :: a in s.given && a.sid in s.subs ==> a.number <= s.subs[a.sid].number)
    && (forall a, b :: a in s.given && b in s.given && a.sid == b.sid && 1 <= a.number < b.number ==> a.scan < b.scan)
    && (forall a, b :: a in s.given && b in s.given && a.sid == b.sid && 1 <= a.number == b.number ==> a.scan == b.scan)
  }

  /** What is sent after a scan carries that scan's identifier. */
  ghost predicate Stamped(s: State) {
    && (forall e :: e in s.sent && e.number >= 1 ==>
          e.updateID.Some? && Assigned(e.sid, e.number, e.updateID.value) in s.given)
    && (s.rescan.Sending? ==>
          forall p :: p in s.rescan.pending ==> p.number >= 1 && Assigned(p.sid, p.number, s.scans) in s.given)
  }

  lemma {:induction false} BatchHas(subs: Subs, order: seq<Sid>, scan: nat, p: Pending)
    requires (forall o :: o in order ==> o in subs) && p in Events(subs, order)
    ensures p.sid in order && p.number == Up(subs[p.sid].number)
    ensures Assigned(p.sid, p.number, scan) in Numbers(Events(subs, order), scan)
  {
    var first := Pending(order[0], subs[order[0]].service, Up(subs[order[0]].number));
    assert Events(subs, order) == [first] + Events(subs, order[1..]);
    var batch := Numbers(Events(subs, order), scan);
    assert batch == [Assigned(first.sid, first.number, scan)] + Numbers(Events(subs, order[1..]), scan);
    if p == first {
      assert batch[0] == Assigned(p.sid, p.number, scan);
    } else {
      BatchHas(subs, order[1..], scan, p);
    }
  }

  /** A number given by a notification is the next one, and bears the scan just made. */
  lemma NewNumbers(s: State, step: Step, a: Assigned)
    requires step.Notify? && Enabled(s, step) && s.scans < 0x1_0000_0000 && NumbersTrail(s) && a in Next(s, step).given
    ensures a in s.given || (a.sid in s.subs && a.scan == s.scans && a.number == s.subs[a.sid].number + 1)
  {
    if a !in s.given {
      BatchSids(s.subs, step.order, s.scans, a);
    }
  }

  lemma NotifyKeepsDated(s: State, step: Step)
    requires step.Notify? && Enabled(s, step) && s.scans < 0x1_0000_0000 && NumbersTrail(s) && Dated(s)
    ensures Dated(Next(s, step))
  {
    hide Enabled;
    var s' := Next(s, step);
    forall a | a in s'.given
      ensures a in s.given || (a.sid in s.subs && a.scan == s.scans && a.number == s.subs[a.sid].number + 1)
    {
      NewNumbers(s, step, a);
    }
    NotifyMoves(s, step);
    hide Next;
    forall a, b | a in s'.given && b in s'.given && a.sid == b.sid && 1 <= a.number < b.number
      ensures a.scan < b.scan
    {
    }
    forall a, b | a in s'.given && b in s'.given && a.sid == b.sid && 1 <= a.number == b.number
      ensures a.scan == b.scan
    {
    }
  }

  lemma NotifyMoves(s: State, step: Step)
    requires step.Notify? && Enabled(s, step) && s.scans < 0x1_0000_0000 && NumbersTrail(s)
    ensures var s' := Next(s, step);
            && s.rescan.Scanned? && s'.rescan.Sending? && s'.scans == s.scans && s'.subs.Keys <= s.subs.Keys
            && forall sid :: sid in s'.subs ==> s'.subs[sid].number == s.subs[sid].number + 1
  {
  }

  lemma NotifyKeepsStamped(s: State, step: Step)
    requires step.Notify? && Enabled(s, step) && s.scans < 0x1_0000_0000 && NumbersTrail(s) && Stamped(s)
    ensures Stamped(Next(s, step))
  {
    var s' := Next(s, step);
    forall p | p in s'.rescan.pending
      ensures p.number >= 1 && Assigned(p.sid, p.number, s.scans) in s'.given
    {
      BatchHas(s.subs, step.order, s.scans, p);
    }
  }

  lemma SubscribeKeepsDated(s: State, step: Step)
    requires step.Subscribe? && Enabled(s, step) && Known(s) && Dated(s)
    ensures Dated(Next(s, step))
  {
    var s' := Next(s, step);
    forall a | a in s'.given
      ensures a in s.given || a == Assigned(step.sid, 0, s.scans)
    {
    }
  }

  lemma OthersKeepDated(s: State, step: Step)
    requires Enabled(s, step) && !step.Notify? && !step.Subscribe? && Dated(s)
    ensures Dated(Next(s, step))
  {
  }

  lemma OthersKeepStamped(s: State, step: Step)
    requires Enabled(s, step) && !step.Notify? && Next(s, step).scans < 0x1_0000_0000 && Stamped(s)
    ensures Stamped(Next(s, step))
  {
    var s' := Next(s, step);
    if step.Send? {
      var p := s.rescan.pending[0];
      assert p in s.rescan.pending && forall q :: q in s'.rescan.pending ==> q in s.rescan.pending;
    }
  }

  lemma StepKeepsDates(s: State, step: Step)
    requires Enabled(s, step) && Next(s, step).scans < 0x1_0000_0000 && Known(s) && NumbersTrail(s) && Dated(s) && Stamped(s)
    ensures Dated(Next(s, step)) && Stamped(Next(s, step))
  {
    hide Dated, Stamped;
    if step.Notify? {
      NotifyKeepsDated(s, step);
      NotifyKeepsStamped(s, step);
    } else {
      if step.Subscribe? {
        SubscribeKeepsDated(s, step);
      } else {
        OthersKeepDated(s, step);
      }
      OthersKeepStamped(s, step);
    }
  }

  lemma StepKeepsTrail(s: State, step: Step)
    requires Enabled(s, step) && Known(s) && NumbersTrail(s)
    ensures NumbersTrail(Next(s, step))
  {
  }

  lemma {:induction false} RunsAreDated(states: seq<State>)
    requires Run(states) && states[|states| - 1].scans < 0x1_0000_0000
    ensures var s := states[|states| - 1];
            Known(s) && NumbersTrail(s) && Dated(s) && Stamped(s)
  {
    hide Known, NumbersTrail, Dated, Stamped, Enabled, Next;
    if |states| == 1 {
      InitialDated(states[0]);
    } else {
      var init := states[..|states| - 1];
      var s, s' := states[|states| - 2], states[|states| - 1];
      assert Follows(s, s');
      var step :| Enabled(s, step) && s' == Next(s, step);
      ScansGrow(s, step);
      RunsAreDated(init);
      StepKeepsKnown(s, step);
      StepKeepsTrail(s, step);
      StepKeepsDates(s, step);
    }
  }

  lemma InitialDated(s: State)
    requires Initial(s)
    ensures Known(s) && NumbersTrail(s) && Dated(s) && Stamped(s)
  {
  }

  /** From the first notification on, a later number carries a later SystemUpdateID. */
  lemma UpdateIDsIncrease(states: seq<State>, e: Sent, f: Sent)
    requires Run(states) && states[|states| - 1].scans < 0x1_0000_0000
    requires e in states[|states| - 1].sent && f in states[|states| - 1].sent && e.sid == f.sid && 1 <= e.number < f.number
    ensures e.updateID.Some? && f.updateID.Some? && e.updateID.value < f.updateID.value
  {
    RunsAreDated(states);
  }

  // What does not hold.

  lemma Extend(states: seq<State>, step: Step) returns (longer: seq<State>)
    requires Run(states) && states != [] && Enabled(states[|states| - 1], step)
    ensures Run(longer) && longer != [] && longer[|longer| - 1] == Next(states[|states| - 1], step)
  {
    hide Next, Enabled;
    var s := states[|states| - 1];
    longer := states + [Next(s, step)];
    assert Follows(s, Next(s, step));
    forall i | 0 < i < |longer|
      ensures Follows(longer[i - 1], longer[i])
    {
      if i < |states| {
        assert longer[i - 1] == states[i - 1] && longer[i] == states[i];
      }
    }
  }

  lemma Begin() returns (states: seq<State>)
    ensures Run(states) && states != [] && states[|states| - 1] == State(map[], map[], {}, 0, Idle, [], [])
  {
    states := [State(map[], map[], {}, 0, Idle, [], [])];
  }

  /** One subscriber, rescanned once, with the notification still to be sent. */
  lemma OneNotified(sid: Sid) returns (states: seq<State>)
    ensures Run(states) && states != []
    ensures var s := states[|states| - 1];
            && s.subs == map[sid := Sub(ContentDirectory, 9, 1)] && s.openings == {sid} && s.services == map[sid := ContentDirectory]
            && s.scans == 1 && s.rescan == Sending([Pending(sid, ContentDirectory, 1)]) && s.sent == []
  {
    hide Run, Follows;
    states := Begin();
    states := Extend(states, Step.Subscribe(sid, ContentDirectory, 9));
    states := Extend(states, Scan);
    var subs := states[|states| - 1].subs;
    assert Lists(subs, 0, [sid]);
    assert Events(subs, [sid]) == [Pending(sid, ContentDirectory, 1)] by {
      assert [sid][1..] == [];
    }
    states := Extend(states, Step.Notify(0, [sid]));
  }

  /** One run in which an event numbered before its subscription was cancelled is sent after it. */
  lemma SentAfterRemoval(sid: Sid) returns (states: seq<State>)
    ensures Run(states) && states != []
    ensures var s := states[|states| - 1];
            sid !in s.subs && s.sent == [Sent(sid, 1, Some(1))]
  {
    hide Run, Follows;
    states := OneNotified(sid);
    states := Extend(states, Step.Unsubscribe(sid));
    states := Extend(states, Send);
  }

  /** One run in which the initial event follows the next one and carries the same identifier. */
  lemma InitialEventCanBeLate(sid: Sid) returns (states: seq<State>)
    ensures Run(states) && states != [] && states[|states| - 1].sent == [Sent(sid, 1, Some(1)), Sent(sid, 0, Some(1))]
  {
    hide Run, Follows;
    states := OneNotified(sid);
    states := Extend(states, Send);
    states := Extend(states, Open(sid));
  }
}
