/**
 Exactly when a tick asks the player for something, and for what: in terms of the two clock
 samples, the permission to play, the answers of store and player, and the entries of the
 day. An entry that falls due while nothing may be played is never made up for.
 */
module SchedulerRequests {
  import opened Wrappers
  import opened Timetable
  import opened PlaybackWindow
  import opened EventFacts
  import opened EntryIdentity
  import opened SchedulerCore
  import opened SchedulerSafety
  import opened SchedulerDelivery
  import opened SchedulerSkips
  import opened SchedulerTies

  // ---------------------------------------------------------------------------
  // Clock samples
  // ---------------------------------------------------------------------------

  /** The wall clock in milliseconds. */
  function Wall(s: ClockSample): int { s.utc * 1000 + s.subsecondMs }

  /** At most three seconds pass, and the wall clock goes forward by as much, to a quarter of a second. */
  predicate Steady(p: ClockSample, n: ClockSample) {
    var elapsed, wall := n.monotonicMs - p.monotonicMs, Wall(n) - Wall(p);
    0 <= elapsed <= 3000 && 0 <= wall && -250 <= wall - elapsed <= 250
  }

  /** The bounds on whole seconds add nothing to those on milliseconds. */
  lemma ContinuousExactly(armed: bool, p: ClockSample, n: ClockSample)
    requires p.subsecondMs < 1000 && n.subsecondMs < 1000
    ensures Continuous(armed, p, n) <==> armed && Steady(p, n)
  {
  }

  /** An armed scheduler has a proper sample to compare with. */
  ghost predicate Sampled(v: Vars) { v.armed ==> ClockReady(v.previous) }

  lemma CommitSampled(v: Vars, now: ClockSample, continuous: bool, env: Env)
    requires Sampled(v) && ClockReady(now)
    ensures Sampled(CommitSpec(v, now, continuous, env))
    ensures CommitSpec(v, now, continuous, env).armed ==> CommitSpec(v, now, continuous, env).previous == now
  {
    CommitNext(v, now, continuous, env);
    var r := CandidateSpec(v, now, continuous);
    var saved := PersistSpec(v, r.state, env.save);
    PlayKeepsPrevious(saved.(previous := now, armed := true, next := NextFrom(saved.events, 0, saved.state, now.utc)), r.due, env);
  }

  lemma PlayKeepsPrevious(v: Vars, due: Option<Event>, env: Env)
    ensures PlaySpec(v, due, env).previous == v.previous
  {
  }

  lemma TickSampled(times: Calculator, v: Vars, now: ClockSample, env: Env, v': Vars)
    requires Sampled(v) && TickStep(times, v, now, env, v')
    ensures Sampled(v') && (v'.armed ==> v'.previous == now)
  {
    var arranged :| Arranges(times, v, now, arranged) && v' == TickSpec(times, v, now, env, arranged);
    if Processes(v, now) {
      var ready := TimetableSpec(times, v.(clockReady := true), now.localDate, arranged);
      if HasTimetable(times, v, now.localDate) {
        CommitSampled(ready, now, Continuous(v.armed, v.previous, now), env);
      }
    }
  }

  lemma SelectSampled(v: Vars, save: Save, expected: Option<Event>)
    requires Sampled(v)
    ensures Sampled(SelectSkip(v, save, expected))
  {
  }

  lemma StepSampled(times: Calculator, v: Vars, op: Op, v': Vars)
    requires Sampled(v) && Step(times, v, op, v')
    ensures Sampled(v')
    ensures op.Reboot? || op.Begin? || op.Configure? || op.BlockStorage? ==> !v'.armed
  {
    match op
    case Tick(now, env) => TickSampled(times, v, now, env, v');
    case SkipNext(now, env, save, expected) =>
      var mid :| TickStep(times, v, now, env, mid) && v' == SelectSkip(mid, save, expected);
      TickSampled(times, v, now, env, mid);
      SelectSampled(mid, save, expected);
    case Reboot(settings, loads) => BeginDisarms(PoweredOn(v.durable, v.handed), settings, loads);
    case Begin(settings, loads) => BeginDisarms(v, settings, loads);
    case Configure(settings) => ConfigureDisarms(v, settings);
    case CancelSkip(save) => CancelSampled(v, save);
    case _ =>
  }

  lemma BeginDisarms(v: Vars, settings: Settings, loads: bool)
    ensures !BeginSpec(v, settings, loads).armed && BeginSpec(v, settings, loads).handed == v.handed
  {
  }

  lemma ConfigureDisarms(v: Vars, settings: Settings)
    ensures !ConfigureSpec(v, settings).armed && ConfigureSpec(v, settings).handed == v.handed
  {
  }

  lemma CancelSampled(v: Vars, save: Save)
    requires Sampled(v)
    ensures Sampled(CancelSpec(v, save)) && CancelSpec(v, save).handed == v.handed
  {
  }

  lemma {:induction false} RunSampled(times: Calculator, vs: seq<Vars>, ops: seq<Op>, n: nat)
    requires Run(times, vs, ops) && n < |vs| && Sampled(vs[0])
    ensures Sampled(vs[n])
  {
    if n > 0 {
      RunSampled(times, vs, ops, n - 1);
      StepSampled(times, vs[n - 1], ops[n - 1], vs[n]);
    }
  }

  // ---------------------------------------------------------------------------
  // What is due
  // ---------------------------------------------------------------------------

  /** Wanted and not skipped, crossed between the samples and at most two seconds late. */
  ghost predicate Crossing(e: Event, skip: Option<EventKey>, p: ClockSample, n: ClockSample) {
    && e.enabled && p.utc < e.utc <= n.utc && Wall(n) - 1000 * e.utc <= 2000
    && forall key :: key in Members(e) ==> skip != Some(key)
  }

  ghost predicate Unconsumed(e: Event, st: DurableState) {
    forall key :: key in Members(e) ==> st.consumed[key.prayer] < key.day
  }

  /** Entry k is crossing, recent and unconsumed, and no entry before it names one of its prayers for the same day or a later one. */
  ghost predicate Sounds(events: seq<Event>, k: nat, st: DurableState, p: ClockSample, n: ClockSample)
    requires k < |events|
  {
    && Crossing(events[k], st.skip, p, n) && Recent(events[k], n.localDate) && Unconsumed(events[k], st)
    && forall i :: 0 <= i < k ==> !Overtakes(events[i], events[k])
  }

  lemma DueIsCrossing(e: Event, st: DurableState, p: ClockSample, n: ClockSample)
    ensures e.utc <= n.utc && IsDue(e, st, p.utc, n, true) <==> Crossing(e, st.skip, p, n) && !Consumed(e, st)
  {
  }

  lemma UnconsumedExactly(e: Event, st: DurableState)
    ensures Unconsumed(e, st) <==> !Consumed(e, st)
  {
    ConsumedIffSomeMember(e, st);
  }

  lemma SoundsExactly(events: seq<Event>, k: nat, st: DurableState, p: ClockSample, n: ClockSample)
    requires SortedByTime(events) && k < |events|
    ensures DueAt(events, k, RaiseAll(st, n.localDate - 2), p.utc, n, true) <==> Sounds(events, k, st, p, n)
  {
    var e, raised := events[k], RaiseAll(st, n.localDate - 2);
    var before := Scan(events, k, raised, p.utc, n, true).state;
    RaiseExactly(st, n.localDate, e);
    ScanExactly(events, k, raised, p.utc, n, true, e);
    ScanFacts(events, k, raised, p.utc, n, true);
    DueIsCrossing(e, before, p, n);
    UnconsumedExactly(e, st);
    if e.utc <= n.utc {
      assert OvertakenBelow(events, k, n.utc, e) <==> exists i :: 0 <= i < k && Overtakes(events[i], e);
    }
  }

  /** The last of the entries that are due is picked. */
  lemma {:induction false} PickExactly(events: seq<Event>, n: nat, st: DurableState, previousUtc: int, now: ClockSample)
    requires n <= |events|
    ensures var due := Scan(events, n, st, previousUtc, now, true).due;
      if due.Some? then exists k :: 0 <= k < n && due.value == events[k] && DueAt(events, k, st, previousUtc, now, true)
                          && forall j :: k < j < n ==> !DueAt(events, j, st, previousUtc, now, true)
      else forall k :: 0 <= k < n ==> !DueAt(events, k, st, previousUtc, now, true)
  {
    if n > 0 {
      PickExactly(events, n - 1, st, previousUtc, now);
    }
  }

  /** The last entry of the list that sounds. */
  ghost predicate LastSounding(events: seq<Event>, k: nat, st: DurableState, p: ClockSample, n: ClockSample)
    requires k < |events|
  {
    Sounds(events, k, st, p, n) && forall j :: k < j < |events| ==> !Sounds(events, j, st, p, n)
  }

  lemma DueIsLast(v: Vars, now: ClockSample)
    requires SortedByTime(v.events)
    ensures var due := CandidateSpec(v, now, true).due;
      if due.Some? then exists k :: 0 <= k < |v.events| && due.value == v.events[k] && LastSounding(v.events, k, v.state, v.previous, now)
      else forall k :: 0 <= k < |v.events| ==> !Sounds(v.events, k, v.state, v.previous, now)
  {
    var raised := RaiseAll(v.state, now.localDate - 2);
    PickExactly(v.events, |v.events|, raised, v.previous.utc, now);
    forall k | 0 <= k < |v.events|
      ensures DueAt(v.events, k, raised, v.previous.utc, now, true) <==> Sounds(v.events, k, v.state, v.previous, now)
    {
      SoundsExactly(v.events, k, v.state, v.previous, now);
    }
  }

  lemma {:induction false} NothingUnlessContinuous(events: seq<Event>, n: nat, st: DurableState, previousUtc: int, now: ClockSample)
    requires n <= |events|
    ensures Scan(events, n, st, previousUtc, now, false).due.None?
  {
    if n > 0 {
      NothingUnlessContinuous(events, n - 1, st, previousUtc, now);
    }
  }

  // ---------------------------------------------------------------------------
  // What a tick asks for
  // ---------------------------------------------------------------------------

  /** Everything outside the timetable that a request needs. */
  ghost predicate MayPlay(v: Vars, now: ClockSample, env: Env) {
    Steady(v.previous, now) && v.playbackAllowed && env.ready && env.save == Stored
  }

  lemma CommitRequests(v: Vars, now: ClockSample, continuous: bool, env: Env)
    ensures var due, w := CandidateSpec(v, now, continuous).due, CommitSpec(v, now, continuous, env);
      w.handed == if due.Some? && v.playbackAllowed && env.ready && Persisted(v, CandidateSpec(v, now, continuous).state, env.save)
                  then v.handed + [due.value] else v.handed
  {
    var r := CandidateSpec(v, now, continuous);
    if Persisted(v, r.state, env.save) {
      var saved := PersistSpec(v, r.state, env.save);
      PlayRequests(saved.(previous := now, armed := true, next := NextFrom(saved.events, 0, saved.state, now.utc)), r.due, env);
    }
  }

  lemma PlayRequests(v: Vars, due: Option<Event>, env: Env)
    ensures PlaySpec(v, due, env).handed ==
      if due.Some? && v.playbackAllowed && env.ready then v.handed + [due.value] else v.handed
  {
  }

  /** What is due is consumed by the candidate, so only an acknowledged save lets it through. */
  lemma DueNeedsSave(v: Vars, now: ClockSample, continuous: bool, save: Save)
    requires CandidateSpec(v, now, continuous).due.Some?
    ensures Persisted(v, CandidateSpec(v, now, continuous).state, save) <==> save == Stored
  {
    CandidateFacts(v, now, continuous);
    var r := CandidateSpec(v, now, continuous);
    assert r.due.value.key in Members(r.due.value);
    assert Handled(r.due.value.key, r.state) && !Handled(r.due.value.key, v.state);
  }

  /** A request is for the last entry that sounds, and there is one exactly when some entry sounds and all may play. */
  ghost predicate Requests(armed: bool, v: Vars, now: ClockSample, env: Env, events: seq<Event>, handed: seq<Event>) {
    if armed && MayPlay(v, now, env) && exists k :: 0 <= k < |events| && Sounds(events, k, v.state, v.previous, now)
    then exists k :: 0 <= k < |events| && LastSounding(events, k, v.state, v.previous, now) && handed == v.handed + [events[k]]
    else handed == v.handed
  }

  lemma CommitRequestsExactly(armed: bool, v: Vars, now: ClockSample, env: Env)
    requires SortedByTime(v.events) && (armed ==> ClockReady(v.previous)) && ClockReady(now)
    ensures Requests(armed, v, now, env, v.events, CommitSpec(v, now, Continuous(armed, v.previous, now), env).handed)
  {
    var continuous := Continuous(armed, v.previous, now);
    CommitRequests(v, now, continuous, env);
    if armed {
      ContinuousExactly(armed, v.previous, now);
    }
    if continuous {
      DueIsLast(v, now);
      if CandidateSpec(v, now, true).due.Some? {
        DueNeedsSave(v, now, true, env.save);
      }
    } else {
      NothingUnlessContinuous(v.events, |v.events|, RaiseAll(v.state, now.localDate - 2), v.previous.utc, now);
    }
  }

  ghost predicate SameRequests(v: Vars, w: Vars) {
    v.state == w.state && v.previous == w.previous && v.playbackAllowed == w.playbackAllowed && v.handed == w.handed
  }

  lemma RequestsOfSame(armed: bool, v: Vars, w: Vars, now: ClockSample, env: Env, events: seq<Event>, handed: seq<Event>)
    requires SameRequests(v, w) && Requests(armed, v, now, env, events, handed)
    ensures Requests(armed, w, now, env, events, handed)
  {
  }

  /** The tick acts: a proper sample, settings, a store that works and a day that can be built. */
  ghost predicate Acts(times: Calculator, settings: Settings, v: Vars, now: ClockSample) {
    && now.valid && ValidDate(now.localDate) && now.subsecondMs < 1000
    && v.configured && v.storageOk && CanBuild(times, settings, now.localDate)
  }

  /** Its timetable is the one of its day. */
  lemma TickEntries(times: Calculator, settings: Settings, v: Vars, now: ClockSample, env: Env, v': Vars, e: Event)
    requires Fixed(times, settings, v) && TickStep(times, v, now, env, v') && Acts(times, settings, v, now)
    ensures SortedByTime(v'.events) && (e in v'.events <==> Entry(times, settings, now.localDate, e))
  {
    var ready := TickReady(times, v, now, env, v');
    CommitKeepsTimetable(ready, now, Continuous(v.armed, v.previous, now), env);
    CachedEntry(times, ready, now.localDate, e);
  }

  /**
   For every state, sample and answer: a tick asks the player for exactly one entry when some
   entry of the day sounds and all may play, for the last that sounds, and otherwise for nothing.
   */
  lemma TickRequestsExactly(times: Calculator, settings: Settings, v: Vars, now: ClockSample, env: Env, v': Vars)
    requires Fixed(times, settings, v) && Sampled(v) && TickStep(times, v, now, env, v')
    ensures if Acts(times, settings, v, now) then Requests(v.armed, v, now, env, v'.events, v'.handed) else v'.handed == v.handed
  {
    if Processes(v, now) {
      var ready := TickReady(times, v, now, env, v');
      if CanBuild(times, v.settings, now.localDate) {
        CommitKeepsTimetable(ready, now, Continuous(v.armed, v.previous, now), env);
        CommitRequestsExactly(v.armed, ready, now, env);
        RequestsOfSame(v.armed, ready, v, now, env, v'.events, v'.handed);
      }
    } else {
      TickFixed(times, settings, v, now, env, v');
    }
  }

  // ---------------------------------------------------------------------------
  // Permission
  // ---------------------------------------------------------------------------

  /** Only a tick asks, of its own or at the head of a skip, and only one that may. */
  lemma RequestNeedsPermission(times: Calculator, settings: Settings, v: Vars, op: Op, v': Vars)
    requires Fixed(times, settings, v) && Sampled(v) && Step(times, v, op, v') && v'.handed != v.handed
    ensures (op.Tick? || op.SkipNext?) && v.armed && MayPlay(v, op.now, op.env) && Acts(times, settings, v, op.now)
    ensures exists e :: Entry(times, settings, op.now.localDate, e) && v'.handed == v.handed + [e] && Crossing(e, v.state.skip, v.previous, op.now)
  {
    match op
    case Tick(now, env) =>
      TickNeedsPermission(times, settings, v, now, env, v');
    case SkipNext(now, env, save, expected) =>
      var mid :| TickStep(times, v, now, env, mid) && v' == SelectSkip(mid, save, expected);
      SelectHandsNothing(mid, save, expected);
      TickNeedsPermission(times, settings, v, now, env, mid);
    case _ => OtherOpsHandNothing(times, v, op, v');
  }

  lemma OtherOpsHandNothing(times: Calculator, v: Vars, op: Op, v': Vars)
    requires Step(times, v, op, v') && !op.Tick? && !op.SkipNext?
    ensures v'.handed == v.handed
  {
    match op
    case Reboot(settings, loads) => BeginDisarms(PoweredOn(v.durable, v.handed), settings, loads);
    case Begin(settings, loads) => BeginDisarms(v, settings, loads);
    case Configure(settings) => ConfigureDisarms(v, settings);
    case CancelSkip(save) => CancelHandsNothing(v, save);
    case _ =>
  }

  lemma CancelHandsNothing(v: Vars, save: Save)
    ensures CancelSpec(v, save).handed == v.handed
  {
  }

  lemma SelectHandsNothing(v: Vars, save: Save, expected: Option<Event>)
    ensures SelectSkip(v, save, expected).handed == v.handed
  {
  }

  lemma TickNeedsPermission(times: Calculator, settings: Settings, v: Vars, now: ClockSample, env: Env, v': Vars)
    requires Fixed(times, settings, v) && Sampled(v) && TickStep(times, v, now, env, v') && v'.handed != v.handed
    ensures v.armed && MayPlay(v, now, env) && Acts(times, settings, v, now)
    ensures exists e :: Entry(times, settings, now.localDate, e) && v'.handed == v.handed + [e] && Crossing(e, v.state.skip, v.previous, now)
  {
    TickRequestsExactly(times, settings, v, now, env, v');
    var k :| 0 <= k < |v'.events| && LastSounding(v'.events, k, v.state, v.previous, now) && v'.handed == v.handed + [v'.events[k]];
    TickEntries(times, settings, v, now, env, v', v'.events[k]);
  }

  /** A scheduler that may not play stays silent until a restart or a new permission. */
  lemma {:induction false} BarredRun(times: Calculator, vs: seq<Vars>, ops: seq<Op>, n: nat)
    requires Run(times, vs, ops) && n < |vs| && !vs[0].playbackAllowed
    requires forall i :: 0 <= i < |ops| ==> !ops[i].Reboot? && ops[i] != AllowPlayback(true)
    ensures vs[n].handed == vs[0].handed && !vs[n].playbackAllowed
  {
    if n > 0 {
      BarredRun(times, vs, ops, n - 1);
      StepBarred(times, vs[n - 1], ops[n - 1], vs[n]);
    }
  }

  lemma StepBarred(times: Calculator, v: Vars, op: Op, v': Vars)
    requires Step(times, v, op, v') && !v.playbackAllowed && !op.Reboot? && op != AllowPlayback(true)
    ensures v'.handed == v.handed && !v'.playbackAllowed
  {
    match op
    case Tick(now, env) =>
      TickBarred(times, v, now, env, v');
    case SkipNext(now, env, save, expected) =>
      var mid :| TickStep(times, v, now, env, mid) && v' == SelectSkip(mid, save, expected);
      TickBarred(times, v, now, env, mid);
      SelectBarred(mid, save, expected);
    case _ =>
  }

  lemma SelectBarred(v: Vars, save: Save, expected: Option<Event>)
    ensures var w := SelectSkip(v, save, expected); w.handed == v.handed && w.playbackAllowed == v.playbackAllowed
  {
  }

  lemma CommitKeepsPermission(v: Vars, now: ClockSample, continuous: bool, env: Env)
    ensures CommitSpec(v, now, continuous, env).playbackAllowed == v.playbackAllowed
  {
    var r := CandidateSpec(v, now, continuous);
    var saved := PersistSpec(v, r.state, env.save);
    PlayKeepsPermission(saved.(previous := now, armed := true, next := NextFrom(saved.events, 0, saved.state, now.utc)), r.due, env);
  }

  lemma PlayKeepsPermission(v: Vars, due: Option<Event>, env: Env)
    ensures PlaySpec(v, due, env).playbackAllowed == v.playbackAllowed
  {
  }

  lemma TickBarred(times: Calculator, v: Vars, now: ClockSample, env: Env, v': Vars)
    requires TickStep(times, v, now, env, v') && !v.playbackAllowed
    ensures v'.handed == v.handed && !v'.playbackAllowed
  {
    var arranged :| Arranges(times, v, now, arranged) && v' == TickSpec(times, v, now, env, arranged);
    if Processes(v, now) {
      var seen := v.(clockReady := true);
      var ready := TimetableSpec(times, seen, now.localDate, arranged);
      TimetableEffect(times, seen, now.localDate, arranged);
      if HasTimetable(times, v, now.localDate) {
        CommitKeepsPermission(ready, now, Continuous(v.armed, v.previous, now), env);
        CommitRequests(ready, now, Continuous(v.armed, v.previous, now), env);
      }
    }
  }

  // ---------------------------------------------------------------------------
  // No second chance
  // ---------------------------------------------------------------------------

  /** What is consumed in the store is never asked for again, whatever happens, new settings included. */
  lemma {:induction false} ConsumedIsSilent(times: Calculator, vs: seq<Vars>, ops: seq<Op>, n: nat, e: Event)
    requires Run(times, vs, ops) && n < |vs| && InSync(vs[0]) && AllHandled(e, vs[0].durable)
    ensures InSync(vs[n]) && AllHandled(e, vs[n].durable) && OnlyOthers(e, vs[0].handed, vs[n].handed)
  {
    if n == 0 {
      NoneAdded(e, vs[0].handed);
    } else {
      ConsumedIsSilent(times, vs, ops, n - 1, e);
      StepEffect(times, vs[n - 1], ops[n - 1], vs[n]);
      EffectIsSilent(vs[n - 1], vs[n], e);
      OthersCompose(e, vs[0].handed, vs[n - 1].handed, vs[n].handed);
    }
  }

  lemma EffectIsSilent(v: Vars, v': Vars, e: Event)
    requires Effect(v, v') && AllHandled(e, v.durable)
    ensures AllHandled(e, v'.durable) && OnlyOthers(e, v.handed, v'.handed)
  {
    AllHandledGrows(e, v.durable, v'.durable);
    if v'.handed == v.handed {
      NoneAdded(e, v.handed);
    } else {
      var d :| v'.handed == v.handed + [d] && !Consumed(d, v.durable) && AllHandled(d, v'.durable);
      ConsumedIffSomeMember(d, v.durable);
    }
  }

  lemma {:induction false} ScanHandles(events: seq<Event>, n: nat, st: DurableState, previousUtc: int, now: ClockSample, continuous: bool, i: nat)
    requires i < n <= |events| && events[i].utc <= now.utc
    ensures AllHandled(events[i], Scan(events, n, st, previousUtc, now, continuous).state)
  {
    var before := Scan(events, n - 1, st, previousUtc, now, continuous).state;
    ConsumeEventFacts(before, events[n - 1]);
    if i < n - 1 {
      ScanHandles(events, n - 1, st, previousUtc, now, continuous, i);
      AllHandledGrows(events[i], before, ConsumeEvent(before, events[n - 1]));
    }
  }

  lemma CandidateHandles(v: Vars, now: ClockSample, continuous: bool, e: Event)
    requires e in v.events && e.utc <= now.utc
    ensures AllHandled(e, CandidateSpec(v, now, continuous).state)
  {
    var i :| 0 <= i < |v.events| && v.events[i] == e;
    var raised := RaiseAll(v.state, now.localDate - 2);
    ScanHandles(v.events, |v.events|, raised, v.previous.utc, now, continuous, i);
    AllHandledGrows(e, Scan(v.events, |v.events|, raised, v.previous.utc, now, continuous).state, CandidateSpec(v, now, continuous).state);
  }

  /** A tick whose save lands consumes every entry of its day up to now, in every prayer it names. */
  lemma TickHandles(times: Calculator, settings: Settings, v: Vars, now: ClockSample, env: Env, v': Vars, e: Event)
    requires Fixed(times, settings, v) && TickStep(times, v, now, env, v') && Acts(times, settings, v, now) && !env.save.Lost?
    requires Entry(times, settings, now.localDate, e) && e.utc <= now.utc
    ensures AllHandled(e, v'.durable)
  {
    var ready := TickReady(times, v, now, env, v');
    var continuous := Continuous(v.armed, v.previous, now);
    CachedEntry(times, ready, now.localDate, e);
    CommitDurable(ready, now, continuous, env);
    CandidateHandles(ready, now, continuous, e);
  }

  /** A tick that may not play consumes what is due and asks for nothing. */
  lemma BarredTick(times: Calculator, settings: Settings, e: Event, v: Vars, now: ClockSample, env: Env, v': Vars)
    requires Fixed(times, settings, v) && Sampled(v) && TickStep(times, v, now, env, v')
    requires Acts(times, settings, v, now) && !env.save.Lost? && Entry(times, settings, now.localDate, e) && e.utc <= now.utc
    requires !v.playbackAllowed || !env.ready
    ensures v'.handed == v.handed && AllHandled(e, v'.durable) && InSync(v')
    ensures env.save == Stored ==> v'.fault == AudioUnavailable
  {
    TickRequestsExactly(times, settings, v, now, env, v');
    TickHandles(times, settings, v, now, env, v', e);
    TickFixed(times, settings, v, now, env, v');
  }

  /**
   An entry that falls due while playback is barred or the player is not ready is consumed by
   the tick that crosses it, with nothing asked for, and no later run asks for a prayer of it.
   */
  lemma BarredIsLost(times: Calculator, settings: Settings, e: Event, v: Vars, now: ClockSample, env: Env,
                     vs: seq<Vars>, ops: seq<Op>, n: nat)
    requires Fixed(times, settings, v) && Sampled(v) && Run(times, vs, ops) && n < |vs| && TickStep(times, v, now, env, vs[0])
    requires Acts(times, settings, v, now) && !env.save.Lost? && Entry(times, settings, now.localDate, e) && e.utc <= now.utc
    requires !v.playbackAllowed || !env.ready
    ensures vs[0].handed == v.handed && AllHandled(e, vs[0].durable) && OnlyOthers(e, v.handed, vs[n].handed)
  {
    BarredTick(times, settings, e, v, now, env, vs[0]);
    ConsumedIsSilent(times, vs, ops, n, e);
  }

  // ---------------------------------------------------------------------------
  // Faults
  // ---------------------------------------------------------------------------

  lemma CommitFault(v: Vars, now: ClockSample, continuous: bool, env: Env)
    requires v.storageOk
    ensures var w := CommitSpec(v, now, continuous, env);
      && (w.storageOk <==> Persisted(v, CandidateSpec(v, now, continuous).state, env.save))
      && w.fault == if !w.storageOk then Storage
                    else if !v.playbackAllowed || !env.ready then AudioUnavailable
                    else if CandidateSpec(v, now, continuous).due.Some? then (if env.accepts then NoFault else PlaybackRejected)
                    else if v.fault == AudioUnavailable then NoFault else v.fault
  {
  }

  /** What a tick reports: a refused day, a failed save, no permission, the answer of the player, or what there was before. */
  lemma TickFault(times: Calculator, settings: Settings, v: Vars, now: ClockSample, env: Env, v': Vars)
    requires Fixed(times, settings, v) && TickStep(times, v, now, env, v')
    ensures !(now.valid && ValidDate(now.localDate) && now.subsecondMs < 1000 && v.configured && v.storageOk) ==> v'.fault == v.fault
    ensures now.valid && ValidDate(now.localDate) && now.subsecondMs < 1000 && v.configured && v.storageOk ==>
      v'.fault == if !CanBuild(times, settings, now.localDate) then InvalidSchedule
                  else if !v'.storageOk then Storage
                  else if !v.playbackAllowed || !env.ready then AudioUnavailable
                  else if v'.handed != v.handed then (if env.accepts then NoFault else PlaybackRejected)
                  else if v.builtDay != now.localDate || v.fault == AudioUnavailable then NoFault else v.fault
  {
    var arranged :| Arranges(times, v, now, arranged) && v' == TickSpec(times, v, now, env, arranged);
    if Processes(v, now) {
      var continuous := Continuous(v.armed, v.previous, now);
      var ready := TimetableSpec(times, v.(clockReady := true), now.localDate, arranged);
      ReadyTimetable(times, v, now, arranged);
      if CanBuild(times, settings, now.localDate) {
        CommitFault(ready, now, continuous, env);
        CommitRequests(ready, now, continuous, env);
      }
    }
  }

  /** A save that fails when there is something to consume stops the scheduler. */
  lemma FailedSaveStops(times: Calculator, settings: Settings, e: Event, v: Vars, now: ClockSample, env: Env, v': Vars)
    requires Fixed(times, settings, v) && TickStep(times, v, now, env, v') && Acts(times, settings, v, now) && env.save != Stored
    requires Entry(times, settings, now.localDate, e) && e.utc <= now.utc && !AllHandled(e, v.durable)
    ensures !v'.storageOk && !v'.armed && v'.fault == Storage && v'.handed == v.handed
  {
    var ready := TickReady(times, v, now, env, v');
    var continuous := Continuous(v.armed, v.previous, now);
    CachedEntry(times, ready, now.localDate, e);
    CandidateHandles(ready, now, continuous, e);
    CommitFault(ready, now, continuous, env);
    CommitNext(ready, now, continuous, env);
    CommitRequests(ready, now, continuous, env);
  }

  /** And it stays stopped, storing and asking nothing, until it is begun again. */
  lemma {:induction false} StoppedRun(times: Calculator, vs: seq<Vars>, ops: seq<Op>, n: nat)
    requires Run(times, vs, ops) && n < |vs| && !vs[0].storageOk
    requires forall i :: 0 <= i < |ops| ==> !ops[i].Reboot? && !ops[i].Begin?
    ensures vs[n].handed == vs[0].handed && vs[n].durable == vs[0].durable && !vs[n].storageOk
  {
    if n > 0 {
      StoppedRun(times, vs, ops, n - 1);
      StepStopped(times, vs[n - 1], ops[n - 1], vs[n]);
    }
  }

  lemma StepStopped(times: Calculator, v: Vars, op: Op, v': Vars)
    requires Step(times, v, op, v') && !v.storageOk && !op.Reboot? && !op.Begin?
    ensures v'.handed == v.handed && v'.durable == v.durable && !v'.storageOk
  {
    match op
    case SkipNext(now, env, save, expected) =>
      var mid :| TickStep(times, v, now, env, mid) && v' == SelectSkip(mid, save, expected);
      SelectStopped(mid, save, expected);
    case _ =>
  }

  lemma SelectStopped(v: Vars, save: Save, expected: Option<Event>)
    requires !v.storageOk
    ensures SelectSkip(v, save, expected) == v
  {
  }

  /** A block stops it too. */
  lemma BlockStops(times: Calculator, v: Vars, v': Vars)
    requires Step(times, v, BlockStorage, v')
    ensures !v'.storageOk && !v'.armed && v'.next == None && v'.fault == Storage && v'.durable == v.durable && v'.handed == v.handed
  {
  }

  // ---------------------------------------------------------------------------
  // Polling
  // ---------------------------------------------------------------------------

  /** The wall clock keeps pace with the monotonic one. */
  predicate KeepsPace(p: ClockSample, n: ClockSample) { Wall(n) - Wall(p) == n.monotonicMs - p.monotonicMs }

  /** Samples of a clock that keeps pace, at most two seconds apart, are continuous and late for nothing. */
  lemma PolledInTime(e: Event, skip: Option<EventKey>, p: ClockSample, n: ClockSample)
    requires p.subsecondMs < 1000 && n.subsecondMs < 1000 && KeepsPace(p, n) && 0 <= n.monotonicMs - p.monotonicMs <= 2000
    ensures Continuous(true, p, n) && Steady(p, n)
    ensures Crossing(e, skip, p, n) <==> e.enabled && p.utc < e.utc <= n.utc && forall key :: key in Members(e) ==> skip != Some(key)
  {
    ContinuousExactly(true, p, n);
  }
}
