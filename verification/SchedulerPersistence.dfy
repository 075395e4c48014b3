/**
 What the scheduler saves can be read back: serials stay in range and a pending skip
 stays beyond its prayer's watermark, but for one case, which is stated exactly.
 */
module SchedulerPersistence {
  import opened Wrappers
  import opened Timetable
  import opened PlaybackWindow
  import opened EventFacts
  import opened EntryIdentity
  import opened SchedulerCore
  import opened SchedulerSafety
  import opened SchedulerDelivery
  import opened SchedulerLosses
  import opened SchedulerRecord

  ghost predicate SerialsOk(st: DurableState) {
    forall p: Prayer :: SerialOk(st.consumed[p])
  }

  ghost predicate DaysOk(e: Event) {
    forall key :: key in Members(e) ==> ValidSerial(key.day)
  }

  /** An accepted window never names a day beyond the supported serials. */
  lemma EntryDaysOk(times: Calculator, settings: Settings, today: int, events: seq<Event>, e: Event)
    requires ValidSettings(settings) && CanBuild(times, settings, today) && ValidDate(today)
    requires Arranged(events, Window(times, settings, today).value, today, settings.enabled) && e in events
    ensures DaysOk(e) && forall key :: key in Members(e) ==> key.day <= today + 2
  {
    var s := Window(times, settings, today).value;
    forall key | key in Members(e)
      ensures ValidSerial(key.day) && key.day <= today + 2
    {
      EntryTimes(events, s, today, settings.enabled, e, key);
      var k := SlotOf(today, key);
      assert k / 6 == key.day - today + 2;
      FetchedSlot(times, settings, today, WINDOW_DAYS, k);
    }
  }

  lemma ConsumeSerialsOk(st: DurableState, e: Event)
    requires SerialsOk(st) && DaysOk(e)
    ensures SerialsOk(ConsumeEvent(st, e))
  {
    assert e.key in Members(e);
    if e.sharedWith.Some? {
      assert e.sharedWith.value in Members(e);
    }
  }

  /** `key` is past its watermark after consuming `e` exactly when it was before, or `e` names that day or a later one. */
  lemma ConsumeHandles(st: DurableState, e: Event, key: EventKey)
    requires forall k :: k in Members(e) && k.prayer == key.prayer ==> k.day <= key.day
    ensures Handled(key, ConsumeEvent(st, e)) <==> Handled(key, st) || key in Members(e)
  {
    assert e.key in Members(e);
    if e.sharedWith.Some? {
      assert e.sharedWith.value in Members(e);
    }
  }

  lemma {:induction false} ScanSerialsOk(v: Vars, n: nat, st: DurableState, now: ClockSample, continuous: bool)
    requires n <= |v.events| && SerialsOk(st) && forall e :: e in v.events ==> DaysOk(e)
    ensures SerialsOk(Scan(v.events, n, st, v.previous.utc, now, continuous).state)
  {
    if n > 0 {
      ScanSerialsOk(v, n - 1, st, now, continuous);
      if v.events[n - 1].utc <= now.utc {
        ConsumeSerialsOk(Scan(v.events, n - 1, st, v.previous.utc, now, continuous).state, v.events[n - 1]);
      }
    }
  }

  ghost predicate Reached(events: seq<Event>, n: nat, key: EventKey, nowUtc: int)
    requires n <= |events|
  {
    exists i :: 0 <= i < n && events[i].utc <= nowUtc && key in Members(events[i])
  }

  /** At the far edge of the window only an entry naming the key itself can consume it. */
  lemma {:induction false} ScanHandles(v: Vars, n: nat, st: DurableState, now: ClockSample, continuous: bool, key: EventKey)
    requires n <= |v.events| && !Handled(key, st)
    requires forall e, k :: e in v.events && k in Members(e) ==> k.day <= key.day
    ensures Handled(key, Scan(v.events, n, st, v.previous.utc, now, continuous).state) <==> Reached(v.events, n, key, now.utc)
  {
    if n > 0 {
      ScanHandles(v, n - 1, st, now, continuous, key);
      var e := v.events[n - 1];
      if e.utc <= now.utc {
        ConsumeHandles(Scan(v.events, n - 1, st, v.previous.utc, now, continuous).state, e, key);
      }
      if Reached(v.events, n - 1, key, now.utc) {
        var i :| 0 <= i < n - 1 && v.events[i].utc <= now.utc && key in Members(v.events[i]);
        assert Reached(v.events, n, key, now.utc);
      }
      if Reached(v.events, n, key, now.utc) && !Reached(v.events, n - 1, key, now.utc) {
        var i :| 0 <= i < n && v.events[i].utc <= now.utc && key in Members(v.events[i]);
        assert i == n - 1;
      }
    }
  }

  /**
   The pending skip is for the Fajr two days ahead, shared with tomorrow's Isha, and
   that occurrence is already past while the local date is still two days before it.
   */
  ghost predicate SkipOvertaken(v: Vars, now: ClockSample) {
    && v.state.skip.Some? && now.localDate + 1 < v.state.skip.value.day
    && Reached(v.events, |v.events|, v.state.skip.value, now.utc)
  }

  ghost predicate WindowOf(v: Vars, today: int) {
    && ValidDate(today)
    && forall e :: e in v.events ==> DaysOk(e) && forall key :: key in Members(e) ==> key.day <= today + 2
  }

  lemma RaisedOk(st: DurableState, today: int)
    requires Decodable(st) && ValidDate(today)
    ensures SerialsOk(RaiseAll(st, today - 2))
    ensures st.skip.Some? && today - 2 < st.skip.value.day ==> !Handled(st.skip.value, RaiseAll(st, today - 2))
  {
    assert forall p: Prayer :: SerialOk(st.consumed[p]);
  }

  lemma AwaitingUnhandled(e: Event, st: DurableState, nowUtc: int)
    requires AwaitsSkip(e, st, nowUtc)
    ensures !Handled(st.skip.value, st)
  {
  }

  /** A tick that starts from a decodable state proposes an undecodable one exactly when the skip was overtaken. */
  lemma CandidateDecodable(v: Vars, now: ClockSample, continuous: bool)
    requires Decodable(v.state) && WindowOf(v, now.localDate)
    ensures Decodable(CandidateSpec(v, now, continuous).state) <==> !SkipOvertaken(v, now)
  {
    var today := now.localDate;
    var raised := RaiseAll(v.state, today - 2);
    var r := Scan(v.events, |v.events|, raised, v.previous.utc, now, continuous);
    RaisedOk(v.state, today);
    RaiseAllFacts(v.state, today - 2);
    ScanFacts(v.events, |v.events|, raised, v.previous.utc, now, continuous);
    ScanSerialsOk(v, |v.events|, raised, now, continuous);
    assert forall p: Prayer :: SerialOk(r.state.consumed[p]);
    if v.state.skip.Some? {
      var key := v.state.skip.value;
      if today + 1 < key.day {
        ScanHandles(v, |v.events|, raised, now, continuous, key);
      } else if e :| e in v.events && AwaitsSkip(e, r.state, now.utc) {
        AwaitingUnhandled(e, r.state, now.utc);
      }
    }
  }

  // ---------------------------------------------------------------------------
  // Runs
  // ---------------------------------------------------------------------------

  ghost predicate NextOk(v: Vars) {
    v.next.Some? ==> !Handled(v.next.value.key, v.state) && ValidSerial(v.next.value.key.day)
  }

  ghost predicate Readable(times: Calculator, v: Vars) {
    InSync(v) && Consistent(times, v) && Decodable(v.state) && Decodable(v.durable) && NextOk(v)
  }

  lemma PersistReadable(v: Vars, candidate: DurableState, save: Save)
    requires Decodable(v.durable) && Decodable(v.state) && Decodable(candidate) && NextOk(v)
    ensures var w := PersistSpec(v, candidate, save);
      Decodable(w.durable) && Decodable(w.state) && w.events == v.events
      && (!Persisted(v, candidate, save) ==> NextOk(w))
  {
  }

  lemma NextIsOk(events: seq<Event>, st: DurableState, nowUtc: int)
    requires forall e :: e in events ==> DaysOk(e)
    ensures var next := NextFrom(events, 0, st, nowUtc);
      next.Some? ==> !Handled(next.value.key, st) && ValidSerial(next.value.key.day)
  {
    NextFromFacts(events, 0, st, nowUtc);
    var next := NextFrom(events, 0, st, nowUtc);
    if next.Some? {
      assert DaysOk(next.value) && next.value.key in Members(next.value);
    }
  }

  /** Saving a decodable candidate keeps both records decodable and the next event ahead of its watermark. */
  lemma CommitWithReadable(v: Vars, r: Scanned, now: ClockSample, env: Env)
    requires Decodable(v.durable) && Decodable(v.state) && Decodable(r.state) && NextOk(v)
    requires forall e :: e in v.events ==> DaysOk(e)
    ensures var w := CommitWith(v, r, now, env);
      Decodable(w.durable) && Decodable(w.state) && NextOk(w)
  {
    PersistReadable(v, r.state, env.save);
    var saved := PersistSpec(v, r.state, env.save);
    NextIsOk(saved.events, saved.state, now.utc);
    var armed := saved.(previous := now, armed := true, next := NextFrom(saved.events, 0, saved.state, now.utc));
    PlayEffect(armed, r.due, env);
    PlayKeepsNext(armed, r.due, env);
  }

  lemma CommitReadable(times: Calculator, v: Vars, now: ClockSample, continuous: bool, env: Env)
    requires Readable(times, v) && v.storageOk && WindowOf(v, now.localDate) && !SkipOvertaken(v, now)
    ensures Readable(times, CommitSpec(v, now, continuous, env))
  {
    CandidateDecodable(v, now, continuous);
    CommitKeepsTimetable(v, now, continuous, env);
    CommitEffect(v, now, continuous, env);
    CommitWithReadable(v, CandidateSpec(v, now, continuous), now, env);
  }

  /** The timetable a tick works with. */
  ghost predicate OvertakenAt(times: Calculator, v: Vars, now: ClockSample, v': Vars) {
    Processes(v, now) && HasTimetable(times, v, now.localDate) && SkipOvertaken(v.(events := v'.events), now)
  }

  lemma TickReadable(times: Calculator, v: Vars, now: ClockSample, env: Env, v': Vars)
    requires Readable(times, v) && TickStep(times, v, now, env, v') && !OvertakenAt(times, v, now, v')
    ensures Readable(times, v')
  {
    var arranged :| Arranges(times, v, now, arranged) && v' == TickSpec(times, v, now, env, arranged);
    TickEffect(times, v, now, env, v');
    if Processes(v, now) {
      var ready := TimetableSpec(times, v.(clockReady := true), now.localDate, arranged);
      BuiltTimetable(times, v, now, arranged);
      if HasTimetable(times, v, now.localDate) {
        CommitKeepsTimetable(ready, now, Continuous(v.armed, v.previous, now), env);
        CommitReadable(times, ready, now, Continuous(v.armed, v.previous, now), env);
      }
    }
  }

  lemma BuiltTimetable(times: Calculator, v: Vars, now: ClockSample, arranged: seq<Event>)
    requires Readable(times, v) && Processes(v, now) && Arranges(times, v, now, arranged)
    ensures var w := TimetableSpec(times, v.(clockReady := true), now.localDate, arranged);
      && Readable(times, w) && w.storageOk && w.state == v.state
      && (HasTimetable(times, v, now.localDate) ==> WindowOf(w, now.localDate))
  {
    var w := TimetableSpec(times, v.(clockReady := true), now.localDate, arranged);
    TimetableKeepsState(times, v.(clockReady := true), now.localDate, arranged);
    if HasTimetable(times, v, now.localDate) {
      assert w.builtDay == now.localDate && Consistent(times, w);
      forall e | e in w.events
        ensures DaysOk(e) && forall key :: key in Members(e) ==> key.day <= now.localDate + 2
      {
        EntryDaysOk(times, w.settings, now.localDate, w.events, e);
      }
    }
  }

  lemma TimetableKeepsState(times: Calculator, v: Vars, today: int, arranged: seq<Event>)
    ensures var w := TimetableSpec(times, v, today, arranged);
      w.durable == v.durable && w.state == v.state && w.storageOk == v.storageOk && (w.next == v.next || w.next.None?)
  {
  }

  lemma BeginReadable(times: Calculator, v: Vars, settings: Settings, loads: bool)
    requires Decodable(v.durable)
    ensures Readable(times, BeginSpec(v, settings, loads))
  {
    var w := BeginSpec(v, settings, loads);
    assert w.builtDay == NEVER_CONSUMED && w.next.None?;
  }

  lemma SelectReadable(times: Calculator, v: Vars, save: Save, expected: Option<Event>)
    requires Readable(times, v)
    ensures Readable(times, SelectSkip(v, save, expected))
  {
    SelectKeepsTimetable(v, save, expected);
  }

  lemma CancelReadable(times: Calculator, v: Vars, save: Save)
    requires Readable(times, v)
    ensures Readable(times, CancelSpec(v, save))
  {
  }

  /** No operation of the step acts on a sample past a skipped Fajr two days ahead. */
  ghost predicate NotOvertaken(times: Calculator, v: Vars, op: Op) {
    match op
    case Tick(now, env) =>
      forall v' :: TickStep(times, v, now, env, v') ==> !OvertakenAt(times, v, now, v')
    case SkipNext(now, env, _, _) =>
      forall v' :: TickStep(times, v, now, env, v') ==> !OvertakenAt(times, v, now, v')
    case _ => true
  }

  lemma StepReadable(times: Calculator, v: Vars, op: Op, v': Vars)
    requires Readable(times, v) && Step(times, v, op, v') && NotOvertaken(times, v, op)
    ensures Readable(times, v')
  {
    match op
    case Tick(now, env) =>
      TickReadable(times, v, now, env, v');
    case SkipNext(now, env, save, expected) =>
      var mid :| TickStep(times, v, now, env, mid) && v' == SelectSkip(mid, save, expected);
      TickReadable(times, v, now, env, mid);
      SelectReadable(times, mid, save, expected);
    case Reboot(settings, loads) =>
      BeginReadable(times, PoweredOn(v.durable, v.handed), settings, loads);
    case Begin(settings, loads) =>
      BeginReadable(times, v, settings, loads);
    case Configure(settings) =>
      ConfigureConsistent(times, v, settings);
    case CancelSkip(save) =>
      CancelReadable(times, v, save);
    case _ =>
  }

  /** Along any such run the store always holds a record that decodes to the state saved last. */
  lemma {:induction false} AlwaysReadable(check: Check, times: Calculator, vs: seq<Vars>, ops: seq<Op>, n: nat)
    requires Run(times, vs, ops) && n < |vs| && Readable(times, vs[0])
    requires forall i :: 0 <= i < |ops| ==> NotOvertaken(times, vs[i], ops[i])
    ensures Readable(times, vs[n]) && Storable(vs[n].durable)
    ensures Decoded(check, Encoded(check, vs[n].durable)) == Some(vs[n].durable)
  {
    if n > 0 {
      AlwaysReadable(check, times, vs, ops, n - 1);
      StepReadable(times, vs[n - 1], ops[n - 1], vs[n]);
    }
    DecodableStorable(vs[n].durable);
    DecodeEncode(check, vs[n].durable);
  }

  // ---------------------------------------------------------------------------
  // The excluded case is real
  // ---------------------------------------------------------------------------

  /** Nothing but tomorrow's Isha, at the instant of the Fajr after it. */
  const SHARED_NIGHT: Slots :=
    [None, None, None, None, None, None,
     None, None, None, None, None, None,
     None, None, None, None, None, None,
     None, None, None, None, None, Some(100),
     Some(100), None, None, None, None, None]

  function SharedFajr(today: int): Event {
    Event(EventKey(today + 2, FAJR), 100, true, Some(EventKey(today + 1, ISHA)))
  }

  lemma SharedPresent(k: int)
    ensures Present(SHARED_NIGHT, k) <==> k == 23 || k == 24
  {
  }

  lemma SharedNightAccepted()
    ensures Acceptable(SHARED_NIGHT)
  {
    var s := SHARED_NIGHT;
    forall j, k | Adjacent(s, j, k)
      ensures StepAllowed(s, j, k)
    {
      SharedPresent(j);
      SharedPresent(k);
    }
  }

  lemma SharedSlots(today: int, enabled: seq<bool>, k: int, e: Event)
    requires |enabled| == 5 && enabled[FAJR]
    ensures From(SHARED_NIGHT, today, enabled, k, e) <==> k == 24 && e == SharedFajr(today)
  {
    SharedPresent(k);
    assert KeyOf(today, 24) == EventKey(today + 2, FAJR);
  }

  lemma OnlyEntry(settings: Settings, today: int, e: Event)
    requires ValidSettings(settings) && settings.enabled[FAJR] && ValidDate(today - 2) && ValidDate(today + 2)
    ensures Entry(Replay(SHARED_NIGHT, today), settings, today, e) <==> e == SharedFajr(today)
  {
    SharedNightAccepted();
    ReplayedWindow(SHARED_NIGHT, today, settings);
    SharedSlots(today, settings.enabled, 24, e);
    if k :| From(SHARED_NIGHT, today, settings.enabled, k, e) {
      SharedSlots(today, settings.enabled, k, e);
    }
  }

  lemma HoldsWindow(times: Calculator, v: Vars, today: int)
    requires Holds(times, v, today) && ValidDate(today)
    ensures WindowOf(v, today)
  {
    forall e | e in v.events
      ensures DaysOk(e) && forall key :: key in Members(e) ==> key.day <= today + 2
    {
      EntryDaysOk(times, v.settings, today, v.events, e);
    }
  }

  lemma CandidateStorable(v: Vars, now: ClockSample, continuous: bool)
    requires Decodable(v.state) && WindowOf(v, now.localDate)
    ensures Storable(CandidateSpec(v, now, continuous).state)
  {
    var raised := RaiseAll(v.state, now.localDate - 2);
    var r := Scan(v.events, |v.events|, raised, v.previous.utc, now, continuous);
    RaisedOk(v.state, now.localDate);
    RaiseAllFacts(v.state, now.localDate - 2);
    ScanFacts(v.events, |v.events|, raised, v.previous.utc, now, continuous);
    ScanSerialsOk(v, |v.events|, raised, now, continuous);
    assert forall p: Prayer :: SerialOk(r.state.consumed[p]);
  }

  /** A saving tick past a skipped Fajr two days ahead leaves a record that is refused. */
  lemma OvertakingTick(check: Check, times: Calculator, v: Vars, now: ClockSample, v': Vars, e: Event)
    requires Readable(times, v) && Processes(v, now) && CanBuild(times, v.settings, now.localDate)
    requires TickStep(times, v, now, GOOD, v') && Entry(times, v.settings, now.localDate, e) && e.utc <= now.utc
    requires v.state.skip.Some? && v.state.skip.value in Members(e) && now.localDate + 1 < v.state.skip.value.day
    ensures Storable(v'.durable) && Decoded(check, Encoded(check, v'.durable)).None?
  {
    var continuous := Continuous(v.armed, v.previous, now);
    var ready := TickReady(times, v, now, GOOD, v');
    CommitDurable(ready, now, continuous, GOOD);
    HoldsWindow(times, ready, now.localDate);
    CachedEntry(times, ready, now.localDate, e);
    var i :| 0 <= i < |ready.events| && ready.events[i] == e;
    assert Reached(ready.events, |ready.events|, v.state.skip.value, now.utc);
    CandidateDecodable(ready, now, continuous);
    CandidateStorable(ready, now, continuous);
    DecodeEncode(check, v'.durable);
  }

  /** The instant of the skip, before that of the shared Fajr. */
  const EARLY_SKIP := 10

  function At(utc: int, today: int): ClockSample { ClockSample(true, utc, 0, today, 0) }

  ghost predicate OnlyOne(times: Calculator, settings: Settings, today: int, e: Event) {
    Entry(times, settings, today, e) && forall f :: Entry(times, settings, today, f) ==> f == e
  }

  lemma NotYetConsumed(times: Calculator, v: Vars, now: ClockSample, v': Vars, e: Event)
    requires Fixed(times, v.settings, v) && Processes(v, now) && TickStep(times, v, now, GOOD, v')
    requires OnlyOne(times, v.settings, now.localDate, e) && Recent(e, now.localDate) && now.utc < e.utc
    requires !Consumed(e, v.durable)
    ensures !Consumed(e, v'.durable)
  {
    TickConsumesExactly(times, v, now, GOOD, v', e);
  }

  /** A tick that can save shows the only entry while it is still to come. */
  lemma OnlyEntryIsNext(times: Calculator, v: Vars, now: ClockSample, v': Vars, e: Event)
    requires Fixed(times, v.settings, v) && Processes(v, now) && TickStep(times, v, now, GOOD, v')
    requires OnlyOne(times, v.settings, now.localDate, e) && Recent(e, now.localDate) && now.utc < e.utc
    requires !Consumed(e, v.durable) && e.enabled
    ensures v'.next == Some(e)
  {
    var continuous := Continuous(v.armed, v.previous, now);
    NotYetConsumed(times, v, now, v', e);
    var ready := TickReady(times, v, now, GOOD, v');
    CommitNext(ready, now, continuous, GOOD);
    CommitDurable(ready, now, continuous, GOOD);
    NextFromFacts(ready.events, 0, v'.state, now.utc);
    CachedEntry(times, ready, now.localDate, e);
    if v'.next.Some? {
      CachedEntry(times, ready, now.localDate, v'.next.value);
    }
  }

  lemma SharedOnlyOne(settings: Settings, today: int)
    requires ValidSettings(settings) && settings.enabled[FAJR] && ValidDate(today - 2) && ValidDate(today + 2)
    ensures OnlyOne(Replay(SHARED_NIGHT, today), settings, today, SharedFajr(today))
  {
    OnlyEntry(settings, today, SharedFajr(today));
    forall f | Entry(Replay(SHARED_NIGHT, today), settings, today, f)
      ensures f == SharedFajr(today)
    {
      OnlyEntry(settings, today, f);
    }
  }

  lemma SkipGranted(v: Vars, e: Event)
    requires v.storageOk && v.armed && v.next == Some(e) && v.state.skip.None?
    ensures var w := SelectSkip(v, Stored, None);
      && w.state.skip == Some(e.key) && w.storageOk && w.configured == v.configured
      && w.playbackAllowed == v.playbackAllowed && w.settings == v.settings
  {
  }

  /** A restarted scheduler that grants a skip of the shared Fajr. */
  lemma SharedSkipped(settings: Settings, today: int, v: Vars) returns (mid: Vars)
    requires ValidSettings(settings) && settings.enabled[FAJR] && ValidDate(today - 2) && ValidDate(today + 2)
    requires v == BeginSpec(PoweredOn(EMPTY_STATE, []), settings, true)
    ensures TickStep(Replay(SHARED_NIGHT, today), v, At(EARLY_SKIP, today), GOOD, mid)
    ensures var w := SelectSkip(mid, Stored, None);
      && Readable(Replay(SHARED_NIGHT, today), w) && w.state.skip == Some(SharedFajr(today).key)
      && w.storageOk && w.configured && w.playbackAllowed && w.settings == settings
  {
    var times, now, e := Replay(SHARED_NIGHT, today), At(EARLY_SKIP, today), SharedFajr(today);
    Restarted(times, settings, EMPTY_STATE);
    BeginReadable(times, PoweredOn(EMPTY_STATE, []), settings, true);
    SharedOnlyOne(settings, today);
    UnconsumedAtFirst(times, settings, today, e);
    mid := TickExists(times, v, now, GOOD);
    GoodTick(times, v, now, mid);
    OnlyEntryIsNext(times, v, now, mid, e);
    TickReadable(times, v, now, GOOD, mid);
    SelectReadable(times, mid, Stored, None);
    SkipGranted(mid, e);
  }

  lemma ThreeSteps(times: Calculator, a: Vars, b: Vars, c: Vars, d: Vars, ops: seq<Op>)
    requires |ops| == 3 && Step(times, a, ops[0], b) && Step(times, b, ops[1], c) && Step(times, c, ops[2], d)
    ensures Run(times, [a, b, c, d], ops)
  {
  }

  /** A scheduler whose skip of the shared Fajr is stored saves an unreadable record when that instant comes. */
  lemma SharedOvertaken(check: Check, settings: Settings, today: int, v: Vars) returns (v': Vars)
    requires ValidSettings(settings) && settings.enabled[FAJR] && ValidDate(today - 2) && ValidDate(today + 2)
    requires Readable(Replay(SHARED_NIGHT, today), v) && v.state.skip == Some(SharedFajr(today).key)
    requires v.storageOk && v.configured && v.playbackAllowed && v.settings == settings
    ensures TickStep(Replay(SHARED_NIGHT, today), v, At(100, today), GOOD, v')
    ensures v'.storageOk && Storable(v'.durable) && Decoded(check, Encoded(check, v'.durable)).None?
  {
    var times, now := Replay(SHARED_NIGHT, today), At(100, today);
    SharedOnlyOne(settings, today);
    v' := TickExists(times, v, now, GOOD);
    GoodTick(times, v, now, v');
    OvertakingTick(check, times, v, now, v', SharedFajr(today));
  }

  /**
   From a new object over an empty store: a restart, a skip granted for the next event
   and a tick at its instant leave a record that decoding refuses.
   */
  lemma OvertakenIsUnreadable(check: Check, settings: Settings, today: int) returns (vs: seq<Vars>)
    requires ValidSettings(settings) && settings.enabled[FAJR] && ValidDate(today - 2) && ValidDate(today + 2)
    ensures Acceptable(SHARED_NIGHT) && |vs| == 4 && vs[0] == PoweredOn(EMPTY_STATE, [])
    ensures Run(Replay(SHARED_NIGHT, today), vs,
      [Begin(settings, true), Op.SkipNext(At(EARLY_SKIP, today), GOOD, Stored, None), Tick(At(100, today), GOOD)])
    ensures Readable(Replay(SHARED_NIGHT, today), vs[2]) && vs[2].state.skip == Some(EventKey(today + 2, FAJR))
    ensures vs[3].storageOk && Storable(vs[3].durable) && Decoded(check, Encoded(check, vs[3].durable)).None?
  {
    SharedNightAccepted();
    var v := PoweredOn(EMPTY_STATE, []);
    var w := BeginSpec(v, settings, true);
    var mid := SharedSkipped(settings, today, w);
    var skipped := SelectSkip(mid, Stored, None);
    var last := SharedOvertaken(check, settings, today, skipped);
    var ops := [Begin(settings, true), Op.SkipNext(At(EARLY_SKIP, today), GOOD, Stored, None), Tick(At(100, today), GOOD)];
    ThreeSteps(Replay(SHARED_NIGHT, today), v, w, skipped, last, ops);
    vs := [v, w, skipped, last];
  }
}
