/** What a subscriber can count on over whole runs of the eventing protocol, and exactly when it cannot. */
module GenaTraces {
  import opened Bytes
  import opened Gena

  /** A run with the steps it takes. */
  ghost predicate Trace(states: seq<State>, steps: seq<Step>) {
    && |states| == |steps| + 1 && Initial(states[0])
    && forall i :: 0 <= i < |steps| ==> Enabled(states[i], steps[i]) && states[i + 1] == Next(states[i], steps[i])
  }

  function Last(states: seq<State>): State
    requires states != []
  {
    states[|states| - 1]
  }

  lemma TraceIsRun(states: seq<State>, steps: seq<Step>, n: nat)
    requires Trace(states, steps) && n < |states|
    ensures Run(states[..n + 1]) && states[..n + 1][n] == states[n]
  {
    hide Next, Enabled, Initial;
    var part := states[..n + 1];
    forall i | 0 < i < |part|
      ensures Follows(part[i - 1], part[i])
    {
      assert Enabled(states[i - 1], steps[i - 1]) && states[i - 1 + 1] == Next(states[i - 1], steps[i - 1]);
    }
  }

  lemma {:induction false} RunHasTrace(states: seq<State>) returns (steps: seq<Step>)
    requires Run(states)
    ensures Trace(states, steps)
  {
    hide Next, Enabled, Initial;
    if |states| == 1 {
      steps := [];
    } else {
      var init := states[..|states| - 1];
      var before := RunHasTrace(init);
      var s, s' := states[|states| - 2], Last(states);
      assert Follows(s, s');
      var step :| Enabled(s, step) && s' == Next(s, step);
      steps := before + [step];
      forall i | 0 <= i < |steps|
        ensures Enabled(states[i], steps[i]) && states[i + 1] == Next(states[i], steps[i])
      {
        if i < |before| {
          assert Enabled(init[i], before[i]) && init[i + 1] == Next(init[i], before[i]);
        }
      }
    }
  }

  // After a removal.

  /** Events of a subscription that have a number but have not been handed to a sender. */
  function Waiting(s: State, sid: Sid, number: nat): nat {
    (if s.rescan.Sending? then DueCount(s.rescan.pending, sid, number) else 0)
    + (if number == 0 && sid in s.openings then 1 else 0)
  }

  predicate Gone(s: State, sid: Sid) {
    sid in s.services && sid !in s.subs
  }

  /** Once a subscription is gone, an event of it can only move from waiting to sent. */
  lemma GoneStep(s: State, step: Step, sid: Sid, number: nat)
    requires Enabled(s, step) && Gone(s, sid)
    ensures var s' := Next(s, step);
            Gone(s', sid) && Handed(s', sid, number) == Handed(s, sid, number)
            && SentCount(s'.sent, sid, number) >= SentCount(s.sent, sid, number)
  {
    hide SentCount, DueCount;
    match step
    case Open(first) =>
      SentSnoc(s.sent, Sent(first, 0, Body(s, s.services[first])), sid, number);
    case Notify(now, order) =>
      DueOnce(s.subs, order, sid, number);
    case Send =>
      var e := s.rescan.pending[0];
      DueCons(s.rescan.pending, sid, number);
      SentSnoc(s.sent, Sent(e.sid, e.number, Some(UpdateID(s))), sid, number);
    case Finish => DueNil(sid, number);
    case _ =>
  }

  /**
   * In every run: what has been sent of a number since its subscription went, together with what still waits, is what
   * was waiting when it went.
   */
  lemma {:induction false} SentAfterRemovalWasWaiting(states: seq<State>, steps: seq<Step>, i: nat, j: nat, sid: Sid, number: nat)
    requires Trace(states, steps) && i <= j < |states| && Gone(states[i], sid)
    ensures Gone(states[j], sid) && SentCount(states[j].sent, sid, number) >= SentCount(states[i].sent, sid, number)
    ensures SentCount(states[j].sent, sid, number) - SentCount(states[i].sent, sid, number) + Waiting(states[j], sid, number)
            == Waiting(states[i], sid, number)
    decreases j
  {
    hide Next, Enabled, SentCount, DueCount, Gone;
    if i < j {
      SentAfterRemovalWasWaiting(states, steps, i, j - 1, sid, number);
      GoneStep(states[j - 1], steps[j - 1], sid, number);
    }
  }

  /** Sending everything that is pending. */
  lemma {:induction false} SendAll(states: seq<State>) returns (longer: seq<State>)
    requires Run(states) && Last(states).rescan.Sending?
    ensures Run(longer) && states <= longer
    ensures Last(longer).rescan == Sending([]) && Last(longer).openings == Last(states).openings
    decreases |Last(states).rescan.pending|
  {
    hide Run, Follows;
    RunNotEmpty(states);
    var s := Last(states);
    if s.rescan.pending == [] {
      longer := states;
    } else {
      var one := Longer(states, Send);
      longer := SendAll(one);
    }
  }

  lemma RunNotEmpty(states: seq<State>)
    requires Run(states)
    ensures states != []
  {
  }

  lemma Longer(states: seq<State>, step: Step) returns (longer: seq<State>)
    requires Run(states) && states != [] && Enabled(Last(states), step)
    ensures Run(longer) && longer != [] && longer == states + [Next(Last(states), step)]
  {
    hide Next, Enabled, Initial;
    var s := Last(states);
    longer := states + [Next(s, step)];
    assert Follows(s, Next(s, step));
    forall i | 0 < i < |longer|
      ensures Follows(longer[i - 1], longer[i])
    {
      if i < |states| {
        assert Follows(states[i - 1], states[i]) && longer[i - 1] == states[i - 1] && longer[i] == states[i];
      }
    }
  }

  /** Every run can go on until nothing of a subscription waits any more. */
  lemma Drain(states: seq<State>, sid: Sid) returns (longer: seq<State>)
    requires Run(states) && Gone(Last(states), sid)
    ensures Run(longer) && states <= longer
    ensures forall number :: Waiting(Last(longer), sid, number) == 0
  {
    hide Run, Follows;
    RunNotEmpty(states);
    longer := states;
    var s := Last(states);
    if sid in s.openings {
      longer := Longer(states, Open(sid));
    }
    if s.rescan.Sending? {
      longer := SendAll(longer);
    }
    forall number
      ensures Waiting(Last(longer), sid, number) == 0
    {
      DueNil(sid, number);
    }
  }

  /** In no continuation of the run is anything more of the subscription sent. */
  ghost predicate Silent(states: seq<State>, sid: Sid)
    requires states != []
  {
    forall longer: seq<State>, number: nat :: Run(longer) && states <= longer ==>
      SentCount(Last(longer).sent, sid, number) == SentCount(Last(states).sent, sid, number)
  }

  lemma GoneAccounts(states: seq<State>, longer: seq<State>, sid: Sid, number: nat)
    requires Run(longer) && states <= longer && states != [] && Gone(Last(states), sid)
    ensures SentCount(Last(longer).sent, sid, number) + Waiting(Last(longer), sid, number)
            == SentCount(Last(states).sent, sid, number) + Waiting(Last(states), sid, number)
    ensures SentCount(Last(longer).sent, sid, number) >= SentCount(Last(states).sent, sid, number)
  {
    hide Run, Trace, SentCount, Waiting, Gone;
    var steps := RunHasTrace(longer);
    TraceLength(longer, steps);
    assert longer[|states| - 1] == Last(states);
    SentAfterRemovalWasWaiting(longer, steps, |states| - 1, |longer| - 1, sid, number);
  }

  lemma TraceLength(states: seq<State>, steps: seq<Step>)
    requires Trace(states, steps)
    ensures states != []
  {
  }

  /** After a subscription has gone nothing more of it is ever sent exactly when nothing of it was waiting. */
  lemma SilentIffNothingWaits(states: seq<State>, sid: Sid)
    requires Run(states) && states != [] && Gone(Last(states), sid)
    ensures Silent(states, sid) <==> forall number :: Waiting(Last(states), sid, number) == 0
  {
    hide Run, SentCount, Waiting, Gone;
    forall longer: seq<State>, number: nat | Run(longer) && states <= longer
      ensures SentCount(Last(longer).sent, sid, number) + Waiting(Last(longer), sid, number)
              == SentCount(Last(states).sent, sid, number) + Waiting(Last(states), sid, number)
      ensures SentCount(Last(longer).sent, sid, number) >= SentCount(Last(states).sent, sid, number)
    {
      GoneAccounts(states, longer, sid, number);
    }
    var drained := Drain(states, sid);
  }

  // The initial event and the first notification.

  lemma {:induction false} ScansNeverShrink(states: seq<State>, steps: seq<Step>, i: nat, j: nat)
    requires Trace(states, steps) && i <= j < |states|
    ensures states[i].scans <= states[j].scans && |states[i].sent| <= |states[j].sent|
    decreases j
  {
    hide Next, Enabled;
    if i < j {
      ScansNeverShrink(states, steps, i, j - 1);
      LogsGrow(states[j - 1], steps[j - 1]);
    }
  }

  lemma LogsGrow(s: State, step: Step)
    requires Enabled(s, step)
    ensures s.scans <= Next(s, step).scans && s.sent <= Next(s, step).sent && s.given <= Next(s, step).given
    ensures !step.Scan? ==> Next(s, step).scans == s.scans
  {
  }

  /** What has been given or sent stays in the log, in its place. */
  lemma {:induction false} LogsAreKept(states: seq<State>, steps: seq<Step>, i: nat, j: nat)
    requires Trace(states, steps) && i <= j < |states|
    ensures states[i].sent <= states[j].sent && states[i].given <= states[j].given
    decreases j
  {
    hide Next, Enabled;
    if i < j {
      LogsAreKept(states, steps, i, j - 1);
      LogsGrow(states[j - 1], steps[j - 1]);
    }
  }

  lemma {:induction false} NoScanNoChange(states: seq<State>, steps: seq<Step>, i: nat, j: nat)
    requires Trace(states, steps) && i <= j < |states|
    requires forall x :: i <= x < j ==> !steps[x].Scan?
    ensures states[j].scans == states[i].scans
    decreases j
  {
    hide Next, Enabled;
    if i < j {
      NoScanNoChange(states, steps, i, j - 1);
      LogsGrow(states[j - 1], steps[j - 1]);
    }
  }

  /** The step that gives a subscription number 1, and the scan it announces. */
  ghost predicate FirstNotified(states: seq<State>, steps: seq<Step>, sid: Sid, c: nat, k: nat)
    requires Trace(states, steps)
  {
    && c < k < |steps| && steps[c].Scan? && (forall x :: c < x < k ==> !steps[x].Scan?)
    && steps[k].Notify? && Live(states[k].subs, steps[k].now, sid) && states[k].subs[sid].number == 0
  }

  /** The step that hands the event with number 1 to a sender. */
  ghost predicate FirstSent(states: seq<State>, steps: seq<Step>, sid: Sid, w: nat)
    requires Trace(states, steps)
  {
    w < |steps| && steps[w].Send? && states[w].rescan.Sending? && states[w].rescan.pending != []
    && states[w].rescan.pending[0] == Pending(sid, ContentDirectory, 1)
  }

  lemma FirstGiven(states: seq<State>, steps: seq<Step>, sid: Sid, c: nat, k: nat)
    requires Trace(states, steps) && FirstNotified(states, steps, sid, c, k)
    ensures Assigned(sid, 1, states[k].scans) in states[k + 1].given && states[k].scans == states[c + 1].scans == states[c].scans + 1
  {
    var s, step := states[k], steps[k];
    NoScanNoChange(states, steps, c + 1, k);
    var p := Pending(sid, s.subs[sid].service, 1);
    InEvents(s.subs, step.order, sid);
    BatchHas(s.subs, step.order, s.scans, p);
  }

  lemma {:induction false} InEvents(subs: Subs, order: seq<Sid>, sid: Sid)
    requires (forall o :: o in order ==> o in subs) && sid in order
    ensures Pending(sid, subs[sid].service, Up(subs[sid].number)) in Events(subs, order)
  {
    var first := Pending(order[0], subs[order[0]].service, Up(subs[order[0]].number));
    assert Events(subs, order) == [first] + Events(subs, order[1..]);
    if order[0] != sid {
      InEvents(subs, order[1..], sid);
    }
  }

  lemma DatedAt(states: seq<State>, steps: seq<Step>, n: nat)
    requires Trace(states, steps) && n < |states| && Last(states).scans < 0x1_0000_0000
    ensures Dated(states[n]) && Stamped(states[n]) && Known(states[n])
  {
    hide Run, Dated, Stamped, Known;
    ScansNeverShrink(states, steps, n, |states| - 1);
    TraceIsRun(states, steps, n);
    RunsAreDated(states[..n + 1]);
  }

  /** The event with number 1 is sent while the scan it announces is still the last one. */
  lemma SentUnderTheLock(states: seq<State>, steps: seq<Step>, sid: Sid, c: nat, k: nat, w: nat)
    requires Trace(states, steps) && Last(states).scans < 0x1_0000_0000
    requires FirstNotified(states, steps, sid, c, k) && FirstSent(states, steps, sid, w) && k < w
    ensures states[w].scans == states[k].scans
  {
    hide Next, Enabled, Known;
    FirstGiven(states, steps, sid, c, k);
    DatedAt(states, steps, w);
    LogsAreKept(states, steps, k + 1, w);
    assert Pending(sid, ContentDirectory, 1) in states[w].rescan.pending;
    assert Assigned(sid, 1, states[w].scans) in states[w].given;
  }

  /** No event with number 1 is pending before number 1 has been given. */
  lemma SentAfterGiven(states: seq<State>, steps: seq<Step>, sid: Sid, c: nat, k: nat, w: nat)
    requires Trace(states, steps) && Last(states).scans < 0x1_0000_0000
    requires FirstNotified(states, steps, sid, c, k) && FirstSent(states, steps, sid, w)
    ensures c < k < w
  {
    hide Next, Enabled, Known;
    if w <= k {
      DatedAt(states, steps, w);
      assert Pending(sid, ContentDirectory, 1) in states[w].rescan.pending;
      assert Assigned(sid, 1, states[w].scans) in states[w].given;
      LogsAreKept(states, steps, w, k);
      DatedAt(states, steps, k);
    }
  }

  /**
   * Over every run: with o the step that sends the initial event of a ContentDirectory subscription, c the scan that
   * its first notification announces and w the step that sends that notification, the initial event carries a smaller
   * identifier exactly when o comes before c, and between c and w it carries the same one. That it is sent first
   * exactly when o comes before w only says that the log is kept in the order of the steps.
   */
  lemma InitialEventOrder(states: seq<State>, steps: seq<Step>, sid: Sid, o: nat, c: nat, k: nat, w: nat)
    requires Trace(states, steps) && Last(states).scans < 0x1_0000_0000
    requires o < |steps| && steps[o] == Open(sid) && states[o].services[sid] == ContentDirectory
    requires FirstNotified(states, steps, sid, c, k) && FirstSent(states, steps, sid, w)
    ensures c < k < w
    ensures var last := Last(states).sent;
            var i, j := |states[o].sent|, |states[w].sent|;
            && i < |last| && j < |last|
            && last[i] == Sent(sid, 0, Some(UpdateID(states[o]))) && last[j] == Sent(sid, 1, Some(UpdateID(states[w])))
            && (UpdateID(states[o]) < UpdateID(states[w]) <==> o < c)
            && (i < j <==> o < w)
            && (c < o < w ==> UpdateID(states[o]) == UpdateID(states[w]))
  {
    hide Trace, FirstNotified, FirstSent;
    SentAfterGiven(states, steps, sid, c, k, w);
    SentUnderTheLock(states, steps, sid, c, k, w);
    FirstGiven(states, steps, sid, c, k);
    OrderOfScans(states, steps, sid, o, c, k, w);
    SendsAt(states, steps, sid, o, w);
  }

  lemma OrderOfScans(states: seq<State>, steps: seq<Step>, sid: Sid, o: nat, c: nat, k: nat, w: nat)
    requires Trace(states, steps) && Last(states).scans < 0x1_0000_0000
    requires o < |steps| && steps[o] == Open(sid) && FirstNotified(states, steps, sid, c, k) && FirstSent(states, steps, sid, w)
    requires k < w && states[w].scans == states[c + 1].scans == states[c].scans + 1
    ensures UpdateID(states[o]) < UpdateID(states[w]) <==> o < c
    ensures c < o < w ==> UpdateID(states[o]) == UpdateID(states[w])
  {
    hide Next, Enabled;
    ScansNeverShrink(states, steps, w, |states| - 1);
    ScansNeverShrink(states, steps, o, |states| - 1);
    if o < c {
      ScansNeverShrink(states, steps, o, c);
    } else {
      ScansNeverShrink(states, steps, c + 1, o);
      if o < w {
        ScansNeverShrink(states, steps, o, w);
      }
    }
  }

  lemma SendsAt(states: seq<State>, steps: seq<Step>, sid: Sid, o: nat, w: nat)
    requires Trace(states, steps) && FirstSent(states, steps, sid, w)
    requires o < |steps| && steps[o] == Open(sid) && states[o].services[sid] == ContentDirectory
    ensures var last := Last(states).sent;
            var i, j := |states[o].sent|, |states[w].sent|;
            && i < |last| && j < |last|
            && last[i] == Sent(sid, 0, Some(UpdateID(states[o]))) && last[j] == Sent(sid, 1, Some(UpdateID(states[w])))
            && (i < j <==> o < w)
  {
    LogsAreKept(states, steps, o + 1, |states| - 1);
    LogsAreKept(states, steps, w + 1, |states| - 1);
    if o < w {
      ScansNeverShrink(states, steps, o + 1, w);
    } else {
      ScansNeverShrink(states, steps, w + 1, o);
    }
  }

  // Renewal.

  /** A step that leaves the subscription in the table until the given time. */
  predicate Renews(step: Step, sid: Sid, expires: int) {
    (step.Subscribe? && step.sid == sid && step.expires == expires) || (step.Renew? && step.sid == sid && step.expires == expires)
  }

  predicate Touches(step: Step, sid: Sid) {
    (step.Subscribe? || step.Renew?) && step.sid == sid
  }

  /** A step that takes a subscription with that expiry out of the table. */
  predicate Removes(step: Step, sid: Sid, expires: int) {
    (step.Unsubscribe? && step.sid == sid) || (step.Notify? && step.now > expires)
  }

  lemma HeldStep(s: State, step: Step, sid: Sid, expires: int)
    requires Enabled(s, step) && !Touches(step, sid) && (sid in s.subs ==> s.subs[sid].expires == expires)
    ensures var s' := Next(s, step);
            && (sid in s'.subs <==> sid in s.subs && !Removes(step, sid, expires))
            && (sid in s'.subs ==> s'.subs[sid].expires == expires)
  {
  }

  /**
   * Over every run: after a subscription has been made or renewed, and until it is renewed again, it is in the table,
   * and can be renewed, exactly as long as it has not been cancelled and no notification has come at a time past its
   * expiry. Time alone removes nothing.
   */
  lemma {:induction false} RenewableUntilSwept(states: seq<State>, steps: seq<Step>, sid: Sid, expires: int, i: nat, k: nat)
    requires Trace(states, steps) && i < k < |states| && Renews(steps[i], sid, expires) && sid in states[i + 1].subs
    requires forall x :: i < x < k ==> !Touches(steps[x], sid)
    ensures sid in states[k].subs <==> forall x :: i < x < k ==> !Removes(steps[x], sid, expires)
    ensures sid in states[k].subs ==> states[k].subs[sid].expires == expires
    decreases k
  {
    hide Enabled, Removes;
    if k > i + 1 {
      hide Next;
      RenewableUntilSwept(states, steps, sid, expires, i, k - 1);
      HeldStep(states[k - 1], steps[k - 1], sid, expires);
      assert i < k - 1 < k;
    }
  }

  /** So a subscription past its expiry is renewed, and notified as before, if no notification has swept it yet. */
  lemma ExpiredCanBeRenewed(states: seq<State>, steps: seq<Step>, sid: Sid, expires: int, i: nat, k: nat, now: int, later: int)
    requires Trace(states, steps) && i < k < |states| && Renews(steps[i], sid, expires) && sid in states[i + 1].subs
    requires forall x :: i < x < k ==> !Touches(steps[x], sid)
    requires expires < now <= later
    ensures var renewed := Next(states[k], Step.Renew(sid, later));
            && !Live(states[k].subs, now, sid)
            && (Live(renewed.subs, now, sid) <==> forall x :: i < x < k ==> !Removes(steps[x], sid, expires))
            && (Live(renewed.subs, now, sid) ==> renewed.subs[sid].number == states[k].subs[sid].number)
  {
    hide Enabled, Removes;
    RenewableUntilSwept(states, steps, sid, expires, i, k);
  }
}
