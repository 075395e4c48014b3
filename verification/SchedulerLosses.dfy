/**
 When an event is lost: exactly when some day of a run holds an entry that overtakes it,
 and then a restart and one tick are enough. Accepted windows with such an entry exist,
 and so do accepted windows out of order without one.
 */
module SchedulerLosses {
  import opened Wrappers
  import opened Timetable
  import opened PlaybackWindow
  import opened EventFacts
  import opened EntryIdentity
  import opened SchedulerCore
  import opened SchedulerSafety
  import opened SchedulerDelivery

  const GOOD := Env(Stored, true, true)

  // ---------------------------------------------------------------------------
  // A restart and a tick
  // ---------------------------------------------------------------------------

  lemma Inserted(sorted: seq<Event>, e: Event) returns (longer: seq<Event>)
    requires SortedByTime(sorted)
    ensures SortedByTime(longer) && multiset(longer) == multiset(sorted) + multiset{e}
  {
    var at := |sorted|;
    while 0 < at && e.utc < sorted[at - 1].utc
      invariant 0 <= at <= |sorted| && (at == |sorted| || e.utc <= sorted[at].utc)
    {
      at := at - 1;
    }
    InsertedInOrder(sorted, at, e);
    InsertedMembers(sorted, at, e);
    longer := sorted[..at] + [e] + sorted[at..];
  }

  /** Every list of events can be put in order. */
  lemma {:induction false} Sorted(events: seq<Event>) returns (sorted: seq<Event>)
    ensures SortedByTime(sorted) && multiset(sorted) == multiset(events)
  {
    if events == [] {
      sorted := [];
    } else {
      var n := |events| - 1;
      sorted := Sorted(events[..n]);
      sorted := Inserted(sorted, events[n]);
      assert events == events[..n] + [events[n]];
    }
  }

  /** Whatever the sample and the answers, some tick follows. */
  lemma TickExists(times: Calculator, v: Vars, now: ClockSample, env: Env) returns (v': Vars)
    requires Consistent(times, v)
    ensures TickStep(times, v, now, env, v')
  {
    var arranged: seq<Event> := [];
    if Processes(v, now) && CanBuild(times, v.settings, now.localDate) {
      var unordered := EventsBelow(Window(times, v.settings, now.localDate).value, now.localDate, v.settings.enabled, 30);
      arranged := Sorted(unordered);
    }
    assert Arranges(times, v, now, arranged);
    v' := TickSpec(times, v, now, env, arranged);
  }

  /** A restart over a readable store. */
  lemma Restarted(times: Calculator, settings: Settings, durable: DurableState)
    requires ValidSettings(settings)
    ensures var v := BeginSpec(PoweredOn(durable, []), settings, true);
      && Fixed(times, settings, v) && v.configured && v.storageOk && v.settings == settings
      && v.durable == durable && v.handed == [] && v.playbackAllowed && !v.armed
  {
    BeginFixed(times, settings, PoweredOn(durable, []), true);
  }

  lemma GoodPlay(v: Vars, due: Option<Event>)
    requires v.playbackAllowed
    ensures var w := PlaySpec(v, due, GOOD);
      && w.armed == v.armed && w.previous == v.previous && w.state == v.state && w.storageOk == v.storageOk
      && w.playbackAllowed && w.handed == v.handed + (if due.Some? then [due.value] else [])
  {
  }

  lemma GoodCommit(v: Vars, now: ClockSample, continuous: bool)
    requires v.storageOk && v.playbackAllowed
    ensures var r, w := CandidateSpec(v, now, continuous), CommitSpec(v, now, continuous, GOOD);
      && w.armed && w.previous == now && w.storageOk && w.playbackAllowed && w.state == r.state
      && w.handed == v.handed + (if r.due.Some? then [r.due.value] else [])
  {
    var r := CandidateSpec(v, now, continuous);
    var saved := PersistSpec(v, r.state, GOOD.save);
    GoodPlay(saved.(previous := now, armed := true, next := NextFrom(saved.events, 0, saved.state, now.utc)), r.due);
  }

  /** An entry handed over by a tick of `v`. */
  ghost predicate HandedNow(times: Calculator, v: Vars, now: ClockSample, d: Event) {
    && Entry(times, v.settings, now.localDate, d) && !Consumed(d, v.durable)
    && Continuous(v.armed, v.previous, now) && v.previous.utc < d.utc <= now.utc
  }

  /** What a tick that can build, save and play leaves. */
  ghost predicate After(v: Vars, now: ClockSample, v': Vars) {
    && v'.armed && v'.previous == now && v'.storageOk && v'.configured && v'.playbackAllowed && v'.settings == v.settings
    && (v'.state.skip == v.state.skip || v'.state.skip.None?)
  }

  lemma GoodTick(times: Calculator, v: Vars, now: ClockSample, v': Vars)
    requires Fixed(times, v.settings, v) && Processes(v, now) && CanBuild(times, v.settings, now.localDate)
    requires v.playbackAllowed && TickStep(times, v, now, GOOD, v')
    ensures After(v, now, v')
    ensures v'.handed == v.handed || exists d :: v'.handed == v.handed + [d] && HandedNow(times, v, now, d)
  {
    var continuous := Continuous(v.armed, v.previous, now);
    var ready := TickReady(times, v, now, GOOD, v');
    CommitKeepsTimetable(ready, now, continuous, GOOD);
    GoodCommit(ready, now, continuous);
    DueFacts(times, ready, now, continuous);
    var due := CandidateSpec(ready, now, continuous).due;
    if due.Some? {
      assert v'.handed == v.handed + [due.value] && HandedNow(times, v, now, due.value);
    }
  }

  // ---------------------------------------------------------------------------
  // How an event is lost
  // ---------------------------------------------------------------------------

  /** Just before `e`, on the day `bad`. */
  function Early(e: Event, bad: int): ClockSample { ClockSample(true, e.utc - 1, 0, bad, 0) }

  /** At the instant of `e`, a second later, on its day. */
  function OnTime(e: Event, today: int): ClockSample { ClockSample(true, e.utc, 1000, today, 0) }

  /** A restart and a tick just before `e`. */
  function LosingOps(settings: Settings, bad: int, e: Event): seq<Op> {
    [Begin(settings, true), Tick(Early(e, bad), GOOD)]
  }

  lemma UnconsumedAtFirst(times: Calculator, settings: Settings, today: int, e: Event)
    requires Entry(times, settings, today, e) && ValidDate(today)
    ensures !Consumed(e, EMPTY_STATE)
  {
    var s := Window(times, settings, today).value;
    var k :| From(s, today, settings.enabled, k, e);
    FromFacts(s, today, settings.enabled, k, e);
    ConsumedIffSomeMember(e, EMPTY_STATE);
  }

  /** A tick of a day that does not spare `e` consumes it. */
  lemma ConsumingTick(times: Calculator, settings: Settings, v: Vars, now: ClockSample, e: Event) returns (v': Vars)
    requires Fixed(times, settings, v) && Processes(v, now) && v.playbackAllowed && !v.armed
    requires !Spares(times, settings, now.localDate, now.utc, e)
    ensures TickStep(times, v, now, GOOD, v') && After(v, now, v') && Fixed(times, settings, v')
    ensures v'.handed == v.handed && Consumed(e, v'.durable)
  {
    v' := TickExists(times, v, now, GOOD);
    TickFixed(times, settings, v, now, GOOD, v');
    GoodTick(times, v, now, v');
    TickConsumesExactly(times, v, now, GOOD, v', e);
  }

  /** From a new object over an empty store, the first tick consumes whatever its day does not spare. */
  lemma ConsumedEarly(times: Calculator, settings: Settings, bad: int, e: Event) returns (vs: seq<Vars>)
    requires ValidSettings(settings) && ValidDate(bad) && !Spares(times, settings, bad, e.utc - 1, e)
    ensures |vs| == 3 && Run(times, vs, LosingOps(settings, bad, e))
    ensures vs[0] == PoweredOn(EMPTY_STATE, []) && vs[1] == BeginSpec(vs[0], settings, true)
    ensures Fixed(times, settings, vs[2]) && vs[2].settings == settings
    ensures After(vs[1], Early(e, bad), vs[2]) && vs[2].state.skip.None?
    ensures vs[2].handed == [] && Consumed(e, vs[2].durable)
  {
    var v := PoweredOn(EMPTY_STATE, []);
    var w := BeginSpec(v, settings, true);
    Restarted(times, settings, EMPTY_STATE);
    var w' := ConsumingTick(times, settings, w, Early(e, bad), e);
    vs := [v, w, w'];
  }

  /**
   If some day does not spare `e`, a run of a restart and one tick loses it: the tick
   that then crosses `e`, wanted, not skipped and on time, hands over nothing, or only
   another entry of the same instant.
   */
  lemma LostRun(times: Calculator, settings: Settings, bad: int, today: int, e: Event) returns (vs: seq<Vars>, v': Vars)
    requires ValidSettings(settings) && ValidDate(bad) && ValidDate(today)
    requires Entry(times, settings, today, e) && e.enabled && !Spares(times, settings, bad, e.utc - 1, e)
    ensures |vs| == 3 && Run(times, vs, LosingOps(settings, bad, e))
    ensures vs[0] == PoweredOn(EMPTY_STATE, []) && !Consumed(e, vs[0].durable)
    ensures vs[2].handed == [] && vs[2].state.skip.None? && Crosses(times, e, vs[2], OnTime(e, today), GOOD, v')
    ensures v'.handed == [] || exists d :: v'.handed == [d] && d != e && d.utc == e.utc && Entry(times, settings, today, d)
  {
    vs := ConsumedEarly(times, settings, bad, e);
    UnconsumedAtFirst(times, settings, today, e);
    v' := TickExists(times, vs[2], OnTime(e, today), GOOD);
    GoodTick(times, vs[2], OnTime(e, today), v');
  }

  // ---------------------------------------------------------------------------
  // Exactly when an event survives
  // ---------------------------------------------------------------------------

  /** No run before `e` on these days consumes it. */
  ghost predicate Survives(times: Calculator, settings: Settings, e: Event, days: iset<int>) {
    forall vs: seq<Vars>, ops: seq<Op> :: RunBefore(times, settings, e, days, vs, ops) ==> !Consumed(e, vs[|ops|].durable)
  }

  ghost predicate AllSpare(times: Calculator, settings: Settings, e: Event, days: iset<int>) {
    forall day :: day in days && ValidDate(day) ==> Spares(times, settings, day, e.utc - 1, e)
  }

  lemma RunKeeps(times: Calculator, settings: Settings, e: Event, days: iset<int>, vs: seq<Vars>, ops: seq<Op>)
    requires AllSpare(times, settings, e, days) && RunBefore(times, settings, e, days, vs, ops)
    ensures Spared(times, settings, e, vs[|ops|])
  {
    forall i | 0 <= i < |ops|
      ensures Quiet(times, settings, e, vs[i], ops[i])
    {
      BeforeIsQuiet(times, settings, e, days, vs[i], ops[i]);
    }
    RunSpares(times, settings, e, vs, ops, |ops|);
  }

  /** The losing run up to its crossing tick is a run before `e`. */
  lemma LosingBefore(times: Calculator, settings: Settings, days: iset<int>, bad: int, e: Event, vs: seq<Vars>)
    requires |vs| == 3 && Run(times, vs, LosingOps(settings, bad, e))
    requires vs[0] == PoweredOn(EMPTY_STATE, []) && bad in days && !Consumed(e, EMPTY_STATE)
    ensures RunBefore(times, settings, e, days, vs, LosingOps(settings, bad, e))
  {
  }

  /**
   An event survives every run before it, through restarts, failed saves and midnights,
   if and only if on every day of those runs that can be built it is recent and no
   earlier entry overtakes it.
   */
  lemma SurvivesExactly(times: Calculator, settings: Settings, e: Event, days: iset<int>)
    requires ValidSettings(settings) && !Consumed(e, EMPTY_STATE)
    ensures Survives(times, settings, e, days) <==> AllSpare(times, settings, e, days)
  {
    if AllSpare(times, settings, e, days) {
      forall vs: seq<Vars>, ops: seq<Op> | RunBefore(times, settings, e, days, vs, ops)
        ensures !Consumed(e, vs[|ops|].durable)
      {
        RunKeeps(times, settings, e, days, vs, ops);
      }
    } else {
      var bad :| bad in days && ValidDate(bad) && !Spares(times, settings, bad, e.utc - 1, e);
      var vs := ConsumedEarly(times, settings, bad, e);
      LosingBefore(times, settings, days, bad, e, vs);
    }
  }

  /** No other entry of the day has the instant of `e`. */
  ghost predicate Alone(times: Calculator, settings: Settings, today: int, e: Event) {
    forall f :: Entry(times, settings, today, f) && f.utc == e.utc ==> f == e
  }

  // ---------------------------------------------------------------------------
  // Windows the validation accepts
  // ---------------------------------------------------------------------------

  /** The middle day has only an Isha, and tomorrow's Fajr overlaps it, before yesterday's Fajr. */
  const CROSSED_FAJRS: Slots :=
    [None, None, None, None, None, None,
     Some(46), None, None, None, None, Some(50),
     None, None, None, None, None, Some(100),
     Some(45), None, Some(200), None, None, None,
     None, None, None, None, None, None]

  lemma CrossedFajrsAccepted()
    ensures Acceptable(CROSSED_FAJRS) && !PrayersIncrease(CROSSED_FAJRS)
  {
    var s := CROSSED_FAJRS;
    assert Present(s, 6) && Present(s, 11) && Present(s, 17) && Present(s, 18) && Present(s, 20);
    forall j, k | Adjacent(s, j, k)
      ensures StepAllowed(s, j, k)
    {
      assert j == 6 || j == 11 || j == 17 || j == 18;
    }
  }

  /** Yesterday's Fajr, an entry of the window. */
  function LostFajr(today: int): Event { Event(EventKey(today - 1, FAJR), 46, true, None) }

  /** A Fajr that overlaps no Isha is an entry by itself. */
  lemma PlainFajr(s: Slots, today: int, enabled: seq<bool>, d: nat)
    requires |s| == 30 && |enabled| == 5 && enabled[FAJR] && 1 <= d <= 3
    requires s[6 * d].Some? && s[6 * d - 1] != s[6 * d]
    ensures From(s, today, enabled, 6 * d, Event(EventKey(today - 2 + d, FAJR), s[6 * d].value, true, None))
  {
    var k := 6 * d;
    assert k / 6 == d && k % 6 == 0 && KeyOf(today, k) == EventKey(today - 2 + d, FAJR);
  }

  lemma LaterFajrOvertakes(day: int, later: int, utc: int, utc': int)
    requires day <= later
    ensures Overtakes(Event(EventKey(later, FAJR), utc, true, None), Event(EventKey(day, FAJR), utc', true, None))
  {
    var f, e := Event(EventKey(later, FAJR), utc, true, None), Event(EventKey(day, FAJR), utc', true, None);
    assert f.key in Members(f) && e.key in Members(e);
  }

  lemma CrossedFajrEntries(today: int, enabled: seq<bool>)
    requires |enabled| == 5 && enabled[FAJR]
    ensures From(CROSSED_FAJRS, today, enabled, 6, LostFajr(today))
    ensures From(CROSSED_FAJRS, today, enabled, 18, Event(EventKey(today + 1, FAJR), 45, true, None))
  {
    PlainFajr(CROSSED_FAJRS, today, enabled, 1);
    PlainFajr(CROSSED_FAJRS, today, enabled, 3);
  }

  lemma CrossedFajrsOvertake(settings: Settings, today: int)
    requires ValidSettings(settings) && settings.enabled[FAJR] && ValidDate(today - 2) && ValidDate(today + 2)
    ensures var times, e := Replay(CROSSED_FAJRS, today), LostFajr(today);
      Entry(times, settings, today, e) && Recent(e, today) && Overtaken(times, settings, today, e.utc - 1, e)
  {
    CrossedFajrsAccepted();
    ReplayedWindow(CROSSED_FAJRS, today, settings);
    CrossedFajrEntries(today, settings.enabled);
    LaterFajrOvertakes(today - 1, today + 1, 45, 46);
    var f := Event(EventKey(today + 1, FAJR), 45, true, None);
    assert Entry(Replay(CROSSED_FAJRS, today), settings, today, f);
  }

  lemma CrossedFajrAt(k: nat)
    requires k < 30
    ensures CROSSED_FAJRS[k] == Some(46) <==> k == 6
  {
  }

  lemma LostFajrAlone(settings: Settings, today: int)
    requires ValidSettings(settings) && settings.enabled[FAJR] && ValidDate(today - 2) && ValidDate(today + 2)
    ensures Alone(Replay(CROSSED_FAJRS, today), settings, today, LostFajr(today))
  {
    var s, times, enabled := CROSSED_FAJRS, Replay(CROSSED_FAJRS, today), settings.enabled;
    ReplayedWindow(s, today, settings);
    forall d | Entry(times, settings, today, d) && d.utc == 46
      ensures d == LostFajr(today)
    {
      var k :| From(s, today, enabled, k, d);
      FromFacts(s, today, enabled, k, d);
      CrossedFajrAt(k);
      PlainFajr(s, today, enabled, 1);
    }
  }

  /**
   An accepted window in which a wanted event is lost: a restart, a tick at the first
   Fajr and a continuous tick that crosses yesterday's Fajr, with nothing handed over.
   */
  lemma MissedWhenCrossed(settings: Settings, today: int) returns (vs: seq<Vars>, v': Vars)
    requires ValidSettings(settings) && settings.enabled[FAJR] && ValidDate(today - 2) && ValidDate(today + 2)
    ensures var times, e := Replay(CROSSED_FAJRS, today), LostFajr(today);
      && Acceptable(CROSSED_FAJRS) && Entry(times, settings, today, e) && Recent(e, today)
      && |vs| == 3 && Run(times, vs, LosingOps(settings, today, e))
      && vs[0] == PoweredOn(EMPTY_STATE, []) && !Consumed(e, vs[0].durable)
      && vs[2].state.skip.None? && Crosses(times, e, vs[2], OnTime(e, today), GOOD, v')
      && v'.handed == []
  {
    CrossedFajrsAccepted();
    CrossedFajrsOvertake(settings, today);
    LostFajrAlone(settings, today);
    vs, v' := LostRun(Replay(CROSSED_FAJRS, today), settings, today, today, LostFajr(today));
  }

  /** Out of order as well, but across two prayers that no entry of the window names twice. */
  const CROSSED_NIGHT: Slots :=
    [Some(46), None, None, None, None, Some(50),
     None, None, None, None, None, Some(100),
     Some(45), None, Some(200), None, None, None,
     None, None, None, None, None, None,
     None, None, None, None, None, None]

  lemma CrossedNightAccepted()
    ensures Acceptable(CROSSED_NIGHT) && !PrayersIncrease(CROSSED_NIGHT)
  {
    var s := CROSSED_NIGHT;
    assert Present(s, 0) && Present(s, 5) && Present(s, 11) && Present(s, 12) && Present(s, 14);
    forall j, k | Adjacent(s, j, k)
      ensures StepAllowed(s, j, k)
    {
      assert j == 0 || j == 5 || j == 11 || j == 12;
    }
  }

  /** Later days are not needed for an event to be spared: this window overtakes none of its entries. */
  lemma CrossedYetSpared(settings: Settings, today: int, e: Event)
    requires ValidSettings(settings) && ValidDate(today - 2) && ValidDate(today + 2)
    requires Entry(Replay(CROSSED_NIGHT, today), settings, today, e)
    ensures !WindowIncreases(Replay(CROSSED_NIGHT, today), settings, today)
    ensures Spares(Replay(CROSSED_NIGHT, today), settings, today, e.utc - 1, e)
    ensures Foremost(Replay(CROSSED_NIGHT, today), settings, today, e)
  {
    CrossedNightAccepted();
    var s, times, enabled := CROSSED_NIGHT, Replay(CROSSED_NIGHT, today), settings.enabled;
    ReplayedWindow(s, today, settings);
    NightEntry(settings, today, e);
    forall f | Entry(times, settings, today, f) && Overtakes(f, e)
      ensures f == e
    {
      NightEntry(settings, today, f);
    }
  }

  lemma NightPresent(k: nat)
    requires k < 30
    ensures CROSSED_NIGHT[k].Some? ==> k == 0 || k == 5 || k == 11 || k == 12 || k == 14
  {
  }

  lemma NightEntry(settings: Settings, today: int, e: Event)
    requires |settings.enabled| == 5 && ValidDate(today - 2) && ValidDate(today + 2)
    requires Entry(Replay(CROSSED_NIGHT, today), settings, today, e)
    ensures Members(e) == {e.key} && Recent(e, today)
    ensures e == RawEvent(CROSSED_NIGHT, today, settings.enabled, match e.key.prayer case 0 => 12 case 1 => 14 case _ => 11)
  {
    var s := CROSSED_NIGHT;
    ReplayedWindow(s, today, settings);
    var k :| From(s, today, settings.enabled, k, e);
    NightPresent(k);
  }
}
