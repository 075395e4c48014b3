/**
 Delivery over whole runs: what a tick consumes besides the event it is for, along
 which runs a wanted event is still unconsumed when its instant is crossed, and that
 it is then handed to the player.
 */
module SchedulerDelivery {
  import opened Wrappers
  import opened Timetable
  import opened PlaybackWindow
  import opened EventFacts
  import opened EntryIdentity
  import opened SchedulerCore
  import opened SchedulerSafety

  // ---------------------------------------------------------------------------
  // What consuming an entry does to another event
  // ---------------------------------------------------------------------------

  /** `f` names a prayer of `e`, for the same day or a later one. */
  ghost predicate Overtakes(f: Event, e: Event) {
    exists a, b :: a in Members(f) && b in Members(e) && a.prayer == b.prayer && b.day <= a.day
  }

  /** No identity of `e` belongs to a day before yesterday. */
  ghost predicate Recent(e: Event, today: int) {
    forall key :: key in Members(e) ==> today - 1 <= key.day
  }

  lemma HandledExactly(st: DurableState, f: Event, b: EventKey)
    ensures Handled(b, ConsumeEvent(st, f)) <==>
      Handled(b, st) || exists a :: a in Members(f) && a.prayer == b.prayer && b.day <= a.day
  {
    assert f.key in Members(f);
    if f.sharedWith.Some? {
      assert f.sharedWith.value in Members(f);
    }
  }

  lemma ConsumeExactly(st: DurableState, f: Event, e: Event)
    ensures Consumed(e, ConsumeEvent(st, f)) <==> Consumed(e, st) || Overtakes(f, e)
  {
    var after := ConsumeEvent(st, f);
    ConsumedIffSomeMember(e, st);
    ConsumedIffSomeMember(e, after);
    forall b | b in Members(e) { HandledExactly(st, f, b); }
    if Consumed(e, after) && !Consumed(e, st) {
      var b :| b in Members(e) && Handled(b, after);
      assert Overtakes(f, e);
    }
    if Overtakes(f, e) {
      var a, b :| a in Members(f) && b in Members(e) && a.prayer == b.prayer && b.day <= a.day;
      assert Handled(b, after);
    }
  }

  lemma RaiseExactly(st: DurableState, today: int, e: Event)
    ensures Consumed(e, RaiseAll(st, today - 2)) <==> Consumed(e, st) || !Recent(e, today)
  {
    ConsumedIffSomeMember(e, st);
    ConsumedIffSomeMember(e, RaiseAll(st, today - 2));
    forall key | key in Members(e)
      ensures Handled(key, RaiseAll(st, today - 2)) <==> Handled(key, st) || key.day < today - 1
    {
    }
  }

  ghost predicate OvertakenBelow(events: seq<Event>, n: nat, utc: int, e: Event)
    requires n <= |events|
  {
    exists i :: 0 <= i < n && events[i].utc <= utc && Overtakes(events[i], e)
  }

  lemma OvertakenStep(events: seq<Event>, n: nat, utc: int, e: Event)
    requires 0 < n <= |events|
    ensures OvertakenBelow(events, n, utc, e) <==>
      OvertakenBelow(events, n - 1, utc, e) || (events[n - 1].utc <= utc && Overtakes(events[n - 1], e))
  {
  }

  /** The consuming loop consumes exactly what the entries up to now overtake. */
  lemma {:induction false} ScanExactly(events: seq<Event>, n: nat, st: DurableState, previousUtc: int, now: ClockSample, continuous: bool, e: Event)
    requires n <= |events|
    ensures Consumed(e, Scan(events, n, st, previousUtc, now, continuous).state) <==>
      Consumed(e, st) || OvertakenBelow(events, n, now.utc, e)
  {
    if n > 0 {
      ScanExactly(events, n - 1, st, previousUtc, now, continuous, e);
      OvertakenStep(events, n, now.utc, e);
      if events[n - 1].utc <= now.utc {
        ConsumeExactly(Scan(events, n - 1, st, previousUtc, now, continuous).state, events[n - 1], e);
      }
    }
  }

  lemma CandidateExactly(v: Vars, now: ClockSample, continuous: bool, e: Event)
    ensures Consumed(e, CandidateSpec(v, now, continuous).state) <==>
      Consumed(e, v.state) || !Recent(e, now.localDate) || OvertakenBelow(v.events, |v.events|, now.utc, e)
  {
    var raised := RaiseAll(v.state, now.localDate - 2);
    RaiseExactly(v.state, now.localDate, e);
    ScanExactly(v.events, |v.events|, raised, v.previous.utc, now, continuous, e);
  }

  // ---------------------------------------------------------------------------
  // What a tick consumes
  // ---------------------------------------------------------------------------

  /** Some entry of the day, no later than `utc`, overtakes `e`. */
  ghost predicate Overtaken(times: Calculator, settings: Settings, today: int, utc: int, e: Event) {
    exists f :: Entry(times, settings, today, f) && f.utc <= utc && Overtakes(f, e)
  }

  /** A tick of `today` at `utc` does not consume `e`; a day that cannot be built consumes nothing. */
  ghost predicate Spares(times: Calculator, settings: Settings, today: int, utc: int, e: Event) {
    CanBuild(times, settings, today) ==> Recent(e, today) && !Overtaken(times, settings, today, utc, e)
  }

  /** The cached timetable is one of `today`. */
  ghost predicate Holds(times: Calculator, v: Vars, today: int) {
    && ValidSettings(v.settings) && CanBuild(times, v.settings, today)
    && Arranged(v.events, Window(times, v.settings, today).value, today, v.settings.enabled)
  }

  lemma CachedEntry(times: Calculator, v: Vars, today: int, f: Event)
    requires Holds(times, v, today)
    ensures f in v.events <==> Entry(times, v.settings, today, f)
  {
    ArrangedFrom(v.events, Window(times, v.settings, today).value, today, v.settings.enabled, f);
  }

  lemma CachedOvertaken(times: Calculator, v: Vars, today: int, utc: int, e: Event)
    requires Holds(times, v, today)
    ensures OvertakenBelow(v.events, |v.events|, utc, e) <==> Overtaken(times, v.settings, today, utc, e)
  {
    if i :| 0 <= i < |v.events| && v.events[i].utc <= utc && Overtakes(v.events[i], e) {
      CachedEntry(times, v, today, v.events[i]);
    }
    if f :| Entry(times, v.settings, today, f) && f.utc <= utc && Overtakes(f, e) {
      CachedEntry(times, v, today, f);
      var i :| 0 <= i < |v.events| && v.events[i] == f;
    }
  }

  /** What a tick hands over is a wanted entry of its day that was crossed and not consumed. */
  lemma DueFacts(times: Calculator, v: Vars, now: ClockSample, continuous: bool)
    requires Holds(times, v, now.localDate)
    ensures var r := CandidateSpec(v, now, continuous);
      && (r.state.skip == v.state.skip || r.state.skip.None?)
      && (r.due.Some? ==>
            && Entry(times, v.settings, now.localDate, r.due.value) && !Consumed(r.due.value, v.state)
            && continuous && v.previous.utc < r.due.value.utc <= now.utc && r.due.value.enabled
            && (v.state.skip.Some? ==> !Matches(r.due.value, v.state.skip.value)))
  {
    CandidateFacts(v, now, continuous);
    ScanFacts(v.events, |v.events|, RaiseAll(v.state, now.localDate - 2), v.previous.utc, now, continuous);
    var r := CandidateSpec(v, now, continuous);
    if r.due.Some? {
      CachedEntry(times, v, now.localDate, r.due.value);
    }
  }

  lemma CommitDurable(v: Vars, now: ClockSample, continuous: bool, env: Env)
    requires v.durable == v.state
    ensures var w := CommitSpec(v, now, continuous, env);
      w.durable == if env.save.Lost? then v.durable else CandidateSpec(v, now, continuous).state
  {
    var r := CandidateSpec(v, now, continuous);
    var saved := PersistSpec(v, r.state, env.save);
    PlayEffect(saved.(previous := now, armed := true, next := NextFrom(saved.events, 0, saved.state, now.utc)), r.due, env);
  }

  /** The timetable a processed tick works with is legal for its day. */
  lemma ReadyTimetable(times: Calculator, v: Vars, now: ClockSample, arranged: seq<Event>)
    requires Consistent(times, v) && Processes(v, now) && Arranges(times, v, now, arranged)
    ensures HasTimetable(times, v, now.localDate) <==> CanBuild(times, v.settings, now.localDate)
    ensures var w := TimetableSpec(times, v.(clockReady := true), now.localDate, arranged);
      && Consistent(times, w) && w.settings == v.settings && w.configured
      && (CanBuild(times, v.settings, now.localDate) ==> w.builtDay == now.localDate && Holds(times, w, now.localDate))
      && w.playbackAllowed == v.playbackAllowed && w.previous == v.previous
      && w.durable == v.durable && w.state == v.state && w.storageOk == v.storageOk && w.handed == v.handed
  {
  }

  /** A tick leads to a legal timetable of its day and commits there, or changes no record. */
  lemma TickReady(times: Calculator, v: Vars, now: ClockSample, env: Env, v': Vars) returns (ready: Vars)
    requires Consistent(times, v) && Processes(v, now) && TickStep(times, v, now, env, v')
    ensures ready.durable == v.durable && ready.state == v.state && ready.storageOk && ready.handed == v.handed
    ensures ready.settings == v.settings && ready.previous == v.previous && ready.playbackAllowed == v.playbackAllowed
    ensures Consistent(times, ready) && ready.configured
    ensures v.builtDay == now.localDate ==> ready.events == v.events
    ensures if CanBuild(times, v.settings, now.localDate)
      then ready.builtDay == now.localDate && Holds(times, ready, now.localDate)
           && v' == CommitSpec(ready, now, Continuous(v.armed, v.previous, now), env)
      else v' == ready
  {
    var arranged :| Arranges(times, v, now, arranged) && v' == TickSpec(times, v, now, env, arranged);
    ReadyTimetable(times, v, now, arranged);
    ready := TimetableSpec(times, v.(clockReady := true), now.localDate, arranged);
  }

  /** A tick whose save lands consumes exactly what was consumed before and what it does not spare. */
  lemma TickConsumesExactly(times: Calculator, v: Vars, now: ClockSample, env: Env, v': Vars, e: Event)
    requires InSync(v) && Consistent(times, v) && Processes(v, now) && TickStep(times, v, now, env, v')
    ensures env.save.Lost? ==> v'.durable == v.durable
    ensures !env.save.Lost? ==>
      (Consumed(e, v'.durable) <==> Consumed(e, v.durable) || !Spares(times, v.settings, now.localDate, now.utc, e))
  {
    var ready := TickReady(times, v, now, env, v');
    if CanBuild(times, v.settings, now.localDate) {
      CommitDurable(ready, now, Continuous(v.armed, v.previous, now), env);
      CandidateExactly(ready, now, Continuous(v.armed, v.previous, now), e);
      CachedOvertaken(times, ready, now.localDate, now.utc, e);
    }
  }

  // ---------------------------------------------------------------------------
  // Before the instant
  // ---------------------------------------------------------------------------

  /** Settings stay fixed and every sample that is acted on spares `e`. */
  ghost predicate Quiet(times: Calculator, settings: Settings, e: Event, v: Vars, op: Op) {
    match op
    case Reboot(s, _) => s == settings
    case Begin(s, _) => s == settings
    case Configure(s) => s == settings
    case Tick(now, _) => Processes(v, now) ==> Spares(times, settings, now.localDate, now.utc, e)
    case SkipNext(now, _, _, _) => Processes(v, now) ==> Spares(times, settings, now.localDate, now.utc, e)
    case _ => true
  }

  ghost predicate Spared(times: Calculator, settings: Settings, e: Event, v: Vars) {
    Fixed(times, settings, v) && !Consumed(e, v.durable)
  }

  /** What every run with fixed settings keeps. */
  ghost predicate Fixed(times: Calculator, settings: Settings, v: Vars) {
    InSync(v) && Consistent(times, v) && (v.configured ==> v.settings == settings)
  }

  lemma TickFixed(times: Calculator, settings: Settings, v: Vars, now: ClockSample, env: Env, v': Vars)
    requires Fixed(times, settings, v) && TickStep(times, v, now, env, v')
    ensures Fixed(times, settings, v')
    ensures !Processes(v, now) ==> v'.durable == v.durable && v'.handed == v.handed
  {
    TickEffect(times, v, now, env, v');
    if Processes(v, now) {
      var ready := TickReady(times, v, now, env, v');
      if CanBuild(times, v.settings, now.localDate) {
        CommitKeepsTimetable(ready, now, Continuous(v.armed, v.previous, now), env);
        SameTimetableConsistent(times, ready, v');
      }
    }
  }

  lemma SelectFixed(times: Calculator, settings: Settings, v: Vars, save: Save, expected: Option<Event>)
    requires Fixed(times, settings, v)
    ensures Fixed(times, settings, SelectSkip(v, save, expected))
    ensures SelectSkip(v, save, expected).durable.consumed == v.durable.consumed
  {
  }

  lemma BeginFixed(times: Calculator, settings: Settings, v: Vars, loads: bool)
    ensures Fixed(times, settings, BeginSpec(v, settings, loads)) && BeginSpec(v, settings, loads).durable == v.durable
  {
    var w := BeginSpec(v, settings, loads);
    assert w.builtDay == NEVER_CONSUMED && (w.configured ==> ValidSettings(w.settings));
  }

  lemma ConfigureFixed(times: Calculator, settings: Settings, v: Vars)
    requires Fixed(times, settings, v)
    ensures Fixed(times, settings, ConfigureSpec(v, settings)) && ConfigureSpec(v, settings).durable == v.durable
  {
    var w := ConfigureSpec(v, settings);
    assert w.builtDay == NEVER_CONSUMED && (w.configured ==> ValidSettings(w.settings));
  }

  lemma CancelFixed(times: Calculator, settings: Settings, v: Vars, save: Save)
    requires Fixed(times, settings, v)
    ensures Fixed(times, settings, CancelSpec(v, save)) && CancelSpec(v, save).durable.consumed == v.durable.consumed
  {
  }

  lemma TickSpares(times: Calculator, settings: Settings, e: Event, v: Vars, now: ClockSample, env: Env, v': Vars)
    requires Spared(times, settings, e, v) && TickStep(times, v, now, env, v')
    requires Processes(v, now) ==> Spares(times, settings, now.localDate, now.utc, e)
    ensures Spared(times, settings, e, v')
  {
    TickFixed(times, settings, v, now, env, v');
    if Processes(v, now) {
      TickConsumesExactly(times, v, now, env, v', e);
    }
  }

  lemma StepSpares(times: Calculator, settings: Settings, e: Event, v: Vars, op: Op, v': Vars)
    requires Spared(times, settings, e, v) && Quiet(times, settings, e, v, op) && Step(times, v, op, v')
    ensures Spared(times, settings, e, v')
  {
    match op
    case Tick(now, env) =>
      TickSpares(times, settings, e, v, now, env, v');
    case SkipNext(now, env, save, expected) =>
      var mid :| TickStep(times, v, now, env, mid) && v' == SelectSkip(mid, save, expected);
      TickSpares(times, settings, e, v, now, env, mid);
      SelectFixed(times, settings, mid, save, expected);
    case Reboot(_, loads) =>
      BeginFixed(times, settings, PoweredOn(v.durable, v.handed), loads);
    case Begin(_, loads) =>
      BeginFixed(times, settings, v, loads);
    case Configure(_) =>
      ConfigureFixed(times, settings, v);
    case CancelSkip(save) =>
      CancelFixed(times, settings, v, save);
    case _ =>
  }

  lemma {:induction false} RunSpares(times: Calculator, settings: Settings, e: Event, vs: seq<Vars>, ops: seq<Op>, n: nat)
    requires Run(times, vs, ops) && n < |vs| && Spared(times, settings, e, vs[0])
    requires forall i :: 0 <= i < |ops| ==> Quiet(times, settings, e, vs[i], ops[i])
    ensures Spared(times, settings, e, vs[n])
  {
    if n > 0 {
      RunSpares(times, settings, e, vs, ops, n - 1);
      StepSpares(times, settings, e, vs[n - 1], ops[n - 1], vs[n]);
    }
  }

  // ---------------------------------------------------------------------------
  // The crossing tick
  // ---------------------------------------------------------------------------

  /** Up to its own instant only `e` itself overtakes `e`. */
  ghost predicate Foremost(times: Calculator, settings: Settings, today: int, e: Event) {
    forall f :: Entry(times, settings, today, f) && f.utc <= e.utc && Overtakes(f, e) ==> f == e
  }

  /** From position `at`, where `e` is picked, the scan ends with `e` or a later entry. */
  lemma {:induction false} PickStays(events: seq<Event>, at: nat, n: nat, st: DurableState, previousUtc: int, now: ClockSample, continuous: bool)
    requires at < n <= |events| && events[at].utc <= now.utc
    requires IsDue(events[at], Scan(events, at, st, previousUtc, now, continuous).state, previousUtc, now, continuous)
    ensures var due := Scan(events, n, st, previousUtc, now, continuous).due;
      due.Some? && exists k :: at <= k < n && due.value == events[k]
  {
    if at < n - 1 {
      PickStays(events, at, n - 1, st, previousUtc, now, continuous);
      if IsDue(events[n - 1], Scan(events, n - 1, st, previousUtc, now, continuous).state, previousUtc, now, continuous) && events[n - 1].utc <= now.utc {
        assert Scan(events, n, st, previousUtc, now, continuous).due.value == events[n - 1];
      }
    }
  }

  /** The entries scanned before `e` leave it alone. */
  lemma EarlierSpare(times: Calculator, v: Vars, today: int, at: nat, utc: int)
    requires Holds(times, v, today) && at < |v.events| && Foremost(times, v.settings, today, v.events[at])
    ensures !OvertakenBelow(v.events, at, utc, v.events[at])
  {
    var e := v.events[at];
    if i :| 0 <= i < at && v.events[i].utc <= utc && Overtakes(v.events[i], e) {
      CachedEntry(times, v, today, v.events[i]);
      assert v.events[i].utc <= e.utc && e.key in Members(v.events[i]) * Members(e);
      EntriesDisjoint(v.events, Window(times, v.settings, today).value, today, v.settings.enabled, i, at);
    }
  }

  /** `e` is wanted, crossed by `now` and at most two seconds late. */
  ghost predicate Crossed(v: Vars, now: ClockSample, e: Event) {
    && v.previous.utc < e.utc <= now.utc && (now.utc - e.utc) * 1000 + now.subsecondMs <= 2000
    && e.enabled && (v.state.skip.Some? ==> !Matches(e, v.state.skip.value))
  }

  lemma CrossingPicks(times: Calculator, v: Vars, now: ClockSample, at: nat)
    requires Holds(times, v, now.localDate) && at < |v.events| && Crossed(v, now, v.events[at])
    requires !Consumed(v.events[at], v.state) && Recent(v.events[at], now.localDate)
    requires Foremost(times, v.settings, now.localDate, v.events[at])
    ensures var due := CandidateSpec(v, now, true).due;
      due.Some? && exists k :: at <= k < |v.events| && due.value == v.events[k]
  {
    var e := v.events[at];
    var raised := RaiseAll(v.state, now.localDate - 2);
    RaiseExactly(v.state, now.localDate, e);
    EarlierSpare(times, v, now.localDate, at, now.utc);
    ScanExactly(v.events, at, raised, v.previous.utc, now, true, e);
    ScanFacts(v.events, at, raised, v.previous.utc, now, true);
    PickStays(v.events, at, |v.events|, raised, v.previous.utc, now, true);
  }

  /** The player is handed `e`, or an entry after it. */
  ghost predicate Delivered(times: Calculator, settings: Settings, today: int, e: Event, v: Vars, v': Vars) {
    exists d :: v'.handed == v.handed + [d] && d in v'.events && NotBefore(times, settings, today, d, e)
  }

  /** A tie with a different entry needs a timetable out of order. */
  ghost predicate NotBefore(times: Calculator, settings: Settings, today: int, d: Event, e: Event) {
    d == e || e.utc < d.utc
    || (e.utc == d.utc && Window(times, settings, today).Some? && !Ordered(Window(times, settings, today).value))
  }

  lemma CommitHands(v: Vars, now: ClockSample, continuous: bool, env: Env)
    requires v.playbackAllowed && env.ready && env.save == Stored
    ensures var due := CandidateSpec(v, now, continuous).due;
      CommitSpec(v, now, continuous, env).handed == v.handed + (if due.Some? then [due.value] else [])
  {
  }

  lemma CommitDelivers(times: Calculator, v: Vars, now: ClockSample, env: Env, e: Event)
    requires v.durable == v.state && v.playbackAllowed && env.ready && env.save == Stored
    requires Holds(times, v, now.localDate) && Entry(times, v.settings, now.localDate, e) && Crossed(v, now, e)
    requires !Consumed(e, v.durable) && Recent(e, now.localDate) && Foremost(times, v.settings, now.localDate, e)
    ensures Delivered(times, v.settings, now.localDate, e, v, CommitSpec(v, now, true, env))
  {
    var s := Window(times, v.settings, now.localDate).value;
    CachedEntry(times, v, now.localDate, e);
    var at :| 0 <= at < |v.events| && v.events[at] == e;
    CrossingPicks(times, v, now, at);
    var r := CandidateSpec(v, now, true);
    var k :| at <= k < |v.events| && r.due.value == v.events[k];
    if at < k && Ordered(s) {
      DistinctInstants(v.events, s, now.localDate, v.settings.enabled, at, k);
    }
    var d := v.events[k];
    assert NotBefore(times, v.settings, now.localDate, d, e);
    CommitKeepsTimetable(v, now, true, env);
    CommitHands(v, now, true, env);
  }

  /** A continuous tick that can play crosses `e`. */
  ghost predicate Crosses(times: Calculator, e: Event, v: Vars, now: ClockSample, env: Env, v': Vars) {
    && TickStep(times, v, now, env, v') && Processes(v, now) && Continuous(v.armed, v.previous, now)
    && Crossed(v, now, e) && v.playbackAllowed && env.ready && env.save == Stored
  }

  lemma TickDelivers(times: Calculator, settings: Settings, e: Event, v: Vars, now: ClockSample, env: Env, v': Vars)
    requires Spared(times, settings, e, v) && Crosses(times, e, v, now, env, v')
    requires Entry(times, settings, now.localDate, e) && Recent(e, now.localDate) && Foremost(times, settings, now.localDate, e)
    ensures Delivered(times, settings, now.localDate, e, v, v')
  {
    var ready := TickReady(times, v, now, env, v');
    CommitDelivers(times, ready, now, env, e);
  }

  /**
   An entry of some day is not lost on a later one. Along any run with fixed settings
   whose samples spare it, through midnights, failed saves, skips of other prayers and
   restarts, it stays wanted: the continuous tick that crosses its instant hands it to
   the player, or else an entry after it that is due in the same tick.
   */
  lemma NoMiss(times: Calculator, settings: Settings, day: int, e: Event, vs: seq<Vars>, ops: seq<Op>,
               now: ClockSample, env: Env, v': Vars)
    requires Dated(times) && Entry(times, settings, day, e) && day <= now.localDate
    requires Run(times, vs, ops) && Spared(times, settings, e, vs[0])
    requires forall i :: 0 <= i < |ops| ==> Quiet(times, settings, e, vs[i], ops[i])
    requires Crosses(times, e, vs[|ops|], now, env, v') && CanBuild(times, settings, now.localDate)
    requires Recent(e, now.localDate) && Foremost(times, settings, now.localDate, e)
    ensures Delivered(times, settings, now.localDate, e, vs[|ops|], v')
  {
    RunSpares(times, settings, e, vs, ops, |ops|);
    EntryStays(times, settings, day, now.localDate, e);
    TickDelivers(times, settings, e, vs[|ops|], now, env, v');
  }

  /** While it is recent, an entry of one day is an entry of every later day that can be built. */
  lemma EntryStays(times: Calculator, settings: Settings, day: int, today: int, e: Event)
    requires Dated(times) && Entry(times, settings, day, e) && day <= today
    requires CanBuild(times, settings, today) && Recent(e, today)
    ensures Entry(times, settings, today, e)
  {
    var k :| From(Window(times, settings, day).value, day, settings.enabled, k, e);
    FromFacts(Window(times, settings, day).value, day, settings.enabled, k, e);
    var key :| key in Members(e) && InWindow(key, day);
    EntryCarries(times, settings, day, today, e, key);
  }

  // ---------------------------------------------------------------------------
  // Windows in which every prayer comes later each day
  // ---------------------------------------------------------------------------

  ghost predicate WindowIncreases(times: Calculator, settings: Settings, today: int) {
    var w := Window(times, settings, today);
    w.Some? ==> PrayersIncrease(w.value)
  }

  /** An entry has the calculator's instants. */
  lemma EntryTimed(times: Calculator, settings: Settings, today: int, e: Event)
    requires Dated(times) && Entry(times, settings, today, e)
    ensures forall key :: key in Members(e) ==>
      && today - 2 <= key.day <= today + 2
      && TimeAt(times, settings, key.day, IndexOf(key.prayer)) == Some(e.utc)
  {
    var s := Window(times, settings, today).value;
    var k :| From(s, today, settings.enabled, k, e);
    FromFacts(s, today, settings.enabled, k, e);
    forall key | key in Members(e)
      ensures today - 2 <= key.day <= today + 2
      ensures TimeAt(times, settings, key.day, IndexOf(key.prayer)) == Some(e.utc)
    {
      NamedSlot(times, settings, today, key);
    }
  }

  /** There a prayer of a later day comes later. */
  lemma LaterDayLater(times: Calculator, settings: Settings, today: int, b: EventKey, a: EventKey)
    requires Dated(times) && Window(times, settings, today).Some? && WindowIncreases(times, settings, today)
    requires today - 2 <= b.day < a.day <= today + 2 && a.prayer == b.prayer
    requires TimeAt(times, settings, a.day, IndexOf(a.prayer)).Some? && TimeAt(times, settings, b.day, IndexOf(b.prayer)).Some?
    ensures TimeAt(times, settings, b.day, IndexOf(b.prayer)).value < TimeAt(times, settings, a.day, IndexOf(a.prayer)).value
  {
    NamedSlot(times, settings, today, a);
    NamedSlot(times, settings, today, b);
    var s := Window(times, settings, today).value;
    assert Present(s, SlotOf(today, a)) && Present(s, SlotOf(today, b));
  }

  /** There an entry overtakes no event of another instant or other prayers that comes no earlier. */
  lemma EarlierSpares(times: Calculator, settings: Settings, day: int, today: int, f: Event, e: Event)
    requires Dated(times) && WindowIncreases(times, settings, today)
    requires Entry(times, settings, today, f) && Entry(times, settings, day, e) && Recent(e, today)
    requires f.utc < e.utc || (f.utc == e.utc && Members(f) !! Members(e))
    ensures !Overtakes(f, e)
  {
    EntryTimed(times, settings, today, f);
    EntryTimed(times, settings, day, e);
    if a, b :| a in Members(f) && b in Members(e) && a.prayer == b.prayer && b.day <= a.day {
      if b.day < a.day {
        LaterDayLater(times, settings, today, b, a);
      }
    }
  }

  /** So increasing windows spare every recent entry until its instant, whichever day it is an entry of. */
  lemma IncreasingSpares(times: Calculator, settings: Settings, day: int, today: int, utc: int, e: Event)
    requires Dated(times) && Entry(times, settings, day, e) && Recent(e, today) && WindowIncreases(times, settings, today)
    ensures utc < e.utc ==> Spares(times, settings, today, utc, e)
    ensures Foremost(times, settings, today, e)
  {
    if f :| utc < e.utc && Entry(times, settings, today, f) && f.utc <= utc && Overtakes(f, e) {
      EarlierSpares(times, settings, day, today, f, e);
    }
    forall f | Entry(times, settings, today, f) && f.utc <= e.utc && Overtakes(f, e)
      ensures f == e
    {
      if Members(f) !! Members(e) || f.utc < e.utc {
        EarlierSpares(times, settings, day, today, f, e);
      } else {
        assert Members(f) * Members(e) != {};
        SameEntry(times, settings, today, day, f, e);
      }
    }
  }

  /** Fixed settings, and every sample that is acted on comes before `e`, on one of `days`. */
  ghost predicate Before(settings: Settings, e: Event, days: iset<int>, v: Vars, op: Op) {
    match op
    case Reboot(s, _) => s == settings
    case Begin(s, _) => s == settings
    case Configure(s) => s == settings
    case Tick(now, _) => Processes(v, now) ==> now.utc < e.utc && now.localDate in days
    case SkipNext(now, _, _, _) => Processes(v, now) ==> now.utc < e.utc && now.localDate in days
    case _ => true
  }

  /** A run from any state with the settings and `e` unconsumed, before `e` and on `days`. */
  ghost predicate RunBefore(times: Calculator, settings: Settings, e: Event, days: iset<int>, vs: seq<Vars>, ops: seq<Op>) {
    && Run(times, vs, ops) && Spared(times, settings, e, vs[0])
    && forall i :: 0 <= i < |ops| ==> Before(settings, e, days, vs[i], ops[i])
  }

  lemma SparesEarlier(times: Calculator, settings: Settings, today: int, utc: int, later: int, e: Event)
    requires Spares(times, settings, today, later, e) && utc <= later
    ensures Spares(times, settings, today, utc, e)
  {
  }

  lemma BeforeIsQuiet(times: Calculator, settings: Settings, e: Event, days: iset<int>, v: Vars, op: Op)
    requires Before(settings, e, days, v, op)
    requires forall day :: day in days && ValidDate(day) ==> Spares(times, settings, day, e.utc - 1, e)
    ensures Quiet(times, settings, e, v, op)
  {
    match op
    case Tick(now, _) =>
      if Processes(v, now) {
        SparesEarlier(times, settings, now.localDate, now.utc, e.utc - 1, e);
      }
    case SkipNext(now, _, _, _) =>
      if Processes(v, now) {
        SparesEarlier(times, settings, now.localDate, now.utc, e.utc - 1, e);
      }
    case _ =>
  }

  /** The corollary for ordinary timetables: nothing recent is missed on days whose windows increase. */
  lemma NoMissWhenIncreasing(times: Calculator, settings: Settings, day: int, e: Event, days: iset<int>, vs: seq<Vars>, ops: seq<Op>,
                             now: ClockSample, env: Env, v': Vars)
    requires Dated(times) && Entry(times, settings, day, e) && day <= now.localDate
    requires forall d :: d in days ==> Recent(e, d) && WindowIncreases(times, settings, d)
    requires RunBefore(times, settings, e, days, vs, ops) && now.localDate in days
    requires Crosses(times, e, vs[|ops|], now, env, v') && CanBuild(times, settings, now.localDate)
    ensures Delivered(times, settings, now.localDate, e, vs[|ops|], v')
  {
    forall d | d in days && ValidDate(d)
      ensures Spares(times, settings, d, e.utc - 1, e)
    {
      IncreasingSpares(times, settings, day, d, e.utc - 1, e);
    }
    forall i | 0 <= i < |ops|
      ensures Quiet(times, settings, e, vs[i], ops[i])
    {
      BeforeIsQuiet(times, settings, e, days, vs[i], ops[i]);
    }
    IncreasingSpares(times, settings, day, now.localDate, e.utc - 1, e);
    NoMiss(times, settings, day, e, vs, ops, now, env, v');
  }
}
