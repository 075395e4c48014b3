/**
 Exactly when a wanted entry is heard, whatever else has its instant: an entry of the same
 instant that overtakes it may be scanned first, and when that one is disabled or skipped
 nothing is heard at all.
 */
module SchedulerTies {
  import opened Wrappers
  import opened Timetable
  import opened PlaybackWindow
  import opened EventFacts
  import opened EntryIdentity
  import opened SchedulerCore
  import opened SchedulerSafety
  import opened SchedulerDelivery
  import opened SchedulerLosses
  import opened SchedulerSkips

  // ---------------------------------------------------------------------------
  // One scan
  // ---------------------------------------------------------------------------

  /** The pick of a scan is due at its own place, in the state the scan has reached there. */
  lemma {:induction false} DuePlace(events: seq<Event>, n: nat, st: DurableState, previousUtc: int, now: ClockSample, continuous: bool)
    requires n <= |events|
    ensures var r := Scan(events, n, st, previousUtc, now, continuous);
      r.due.Some? ==> exists k :: 0 <= k < n && DueAt(events, k, st, previousUtc, now, continuous) && events[k] == r.due.value
  {
    if n > 0 {
      DuePlace(events, n - 1, st, previousUtc, now, continuous);
      if events[n - 1].utc <= now.utc && IsDue(events[n - 1], Scan(events, n - 1, st, previousUtc, now, continuous).state, previousUtc, now, continuous) {
        assert DueAt(events, n - 1, st, previousUtc, now, continuous);
      }
    }
  }

  ghost predicate DueAt(events: seq<Event>, k: nat, st: DurableState, previousUtc: int, now: ClockSample, continuous: bool)
    requires k < |events|
  {
    events[k].utc <= now.utc && IsDue(events[k], Scan(events, k, st, previousUtc, now, continuous).state, previousUtc, now, continuous)
  }

  /** Some entry scanned before position `at` has the same instant and overtakes the entry there. */
  ghost predicate Beaten(events: seq<Event>, at: nat)
    requires at < |events|
  {
    exists i :: 0 <= i < at && events[i].utc == events[at].utc && Overtakes(events[i], events[at])
  }

  /**
   At the tick that crosses a recent unconsumed entry whose day has spared it so far, the
   entry is due at its place exactly when no entry of its instant that overtakes it is
   scanned first.
   */
  lemma DueExactly(times: Calculator, v: Vars, now: ClockSample, at: nat)
    requires Holds(times, v, now.localDate) && at < |v.events| && Crossed(v, now, v.events[at])
    requires !Consumed(v.events[at], v.state) && Spares(times, v.settings, now.localDate, v.events[at].utc - 1, v.events[at])
    ensures DueAt(v.events, at, RaiseAll(v.state, now.localDate - 2), v.previous.utc, now, true) <==> !Beaten(v.events, at)
  {
    var e, today := v.events[at], now.localDate;
    var raised := RaiseAll(v.state, today - 2);
    RaiseExactly(v.state, today, e);
    ScanExactly(v.events, at, raised, v.previous.utc, now, true, e);
    ScanFacts(v.events, at, raised, v.previous.utc, now, true);
    if i :| 0 <= i < at && v.events[i].utc <= now.utc && Overtakes(v.events[i], e) {
      CachedEntry(times, v, today, v.events[i]);
      assert v.events[i].utc <= e.utc;
    }
  }

  lemma BeatenNotDue(times: Calculator, v: Vars, now: ClockSample, at: nat)
    requires Holds(times, v, now.localDate) && at < |v.events|
    requires !DueAt(v.events, at, RaiseAll(v.state, now.localDate - 2), v.previous.utc, now, true)
    ensures CandidateSpec(v, now, true).due != Some(v.events[at])
  {
    var raised := RaiseAll(v.state, now.localDate - 2);
    DuePlace(v.events, |v.events|, raised, v.previous.utc, now, true);
    var due := Scan(v.events, |v.events|, raised, v.previous.utc, now, true).due;
    if due == Some(v.events[at]) {
      var k :| 0 <= k < |v.events| && DueAt(v.events, k, raised, v.previous.utc, now, true) && v.events[k] == v.events[at];
      assert v.events[at].key in Members(v.events[k]) * Members(v.events[at]);
      EntriesDisjoint(v.events, Window(times, v.settings, now.localDate).value, now.localDate, v.settings.enabled, k, at);
    }
  }

  lemma BeatenConsumed(v: Vars, now: ClockSample, at: nat)
    requires at < |v.events| && v.events[at].utc <= now.utc
    ensures Consumed(v.events[at], CandidateSpec(v, now, true).state)
  {
    var e := v.events[at];
    CandidateExactly(v, now, true, e);
    assert e.key in Members(e);
    assert Overtakes(e, e);
  }
  lemma NotAppended(xs: seq<Event>, x: Option<Event>, e: Event)
    requires x != Some(e)
    ensures xs + (if x.Some? then [x.value] else []) != xs + [e]
  {
    if x.Some? {
      assert (xs + [x.value])[|xs|] != (xs + [e])[|xs|];
    } else {
      assert |xs + []| != |xs + [e]|;
    }
  }

  lemma CommitTie(times: Calculator, v: Vars, now: ClockSample, env: Env, at: nat)
    requires v.durable == v.state && v.playbackAllowed && env.ready && env.save == Stored
    requires Holds(times, v, now.localDate) && at < |v.events| && Crossed(v, now, v.events[at])
    requires !Consumed(v.events[at], v.state) && Spares(times, v.settings, now.localDate, v.events[at].utc - 1, v.events[at])
    ensures var w := CommitSpec(v, now, true, env);
      && (!Beaten(v.events, at) ==> exists k :: at <= k < |v.events| && w.handed == v.handed + [v.events[k]])
      && (Beaten(v.events, at) ==> w.handed != v.handed + [v.events[at]] && Consumed(v.events[at], w.durable))
  {
    var raised := RaiseAll(v.state, now.localDate - 2);
    CommitHands(v, now, true, env);
    CommitDurable(v, now, true, env);
    DueExactly(times, v, now, at);
    if Beaten(v.events, at) {
      BeatenNotDue(times, v, now, at);
      BeatenConsumed(v, now, at);
      NotAppended(v.handed, CandidateSpec(v, now, true).due, v.events[at]);
    } else {
      PickStays(v.events, at, |v.events|, raised, v.previous.utc, now, true);
    }
  }

  /** So a crossing tick hands the entry over, or one scanned behind it, unless it is beaten; then never the entry. */
  lemma TieDecides(times: Calculator, settings: Settings, e: Event, v: Vars, now: ClockSample, env: Env, v': Vars, at: nat)
    requires Fixed(times, settings, v) && Crosses(times, e, v, now, env, v') && CanBuild(times, settings, now.localDate)
    requires !Consumed(e, v.durable) && Spares(times, settings, now.localDate, e.utc - 1, e)
    requires at < |v'.events| && v'.events[at] == e
    ensures !Beaten(v'.events, at) ==> exists k :: at <= k < |v'.events| && v'.handed == v.handed + [v'.events[k]]
    ensures Beaten(v'.events, at) ==> v'.handed != v.handed + [e] && Consumed(e, v'.durable)
  {
    var ready := TickReady(times, v, now, env, v');
    CommitKeepsTimetable(ready, now, true, env);
    CommitTie(times, ready, now, env, at);
  }

  // ---------------------------------------------------------------------------
  // Two entries of one instant
  // ---------------------------------------------------------------------------

  /** At its edges the window names only nights: an Isha with the Fajr after it. */
  lemma EdgeEntry(times: Calculator, settings: Settings, today: int, e: Event, key: EventKey)
    requires Entry(times, settings, today, e) && key in Members(e)
    ensures today - 2 <= key.day <= today + 2
    ensures key.day == today + 2 ==> key.prayer == FAJR && EventKey(today + 1, ISHA) in Members(e)
    ensures key.day == today - 2 ==> key.prayer == ISHA
    ensures e.sharedWith.Some? ==>
      exists day :: Members(e) == {EventKey(day, ISHA), EventKey(day + 1, FAJR)}
  {
    var s := Window(times, settings, today).value;
    var k :| From(s, today, settings.enabled, k, e);
    FromFacts(s, today, settings.enabled, k, e);
    if MergedWithIsha(s, k) {
      var day := today - 3 + k / 6;
      assert Members(e) == {EventKey(day, ISHA), EventKey(day + 1, FAJR)};
    }
  }

  /** An overtaker of the same instant is at least two days ahead. */
  lemma TiedAhead(times: Calculator, settings: Settings, today: int, e: Event, f: Event) returns (b: EventKey, a: EventKey)
    requires Dated(times) && Entry(times, settings, today, e) && Entry(times, settings, today, f) && f != e
    requires f.utc == e.utc && Overtakes(f, e)
    ensures b in Members(e) && a in Members(f) && a.prayer == b.prayer && b.day + 2 <= a.day
  {
    a, b :| a in Members(f) && b in Members(e) && a.prayer == b.prayer && b.day <= a.day;
    EntryTimed(times, settings, today, e);
    EntryTimed(times, settings, today, f);
    if a.day == b.day {
      assert a == b && a in Members(f) * Members(e);
      SameEntry(times, settings, today, today, f, e);
    }
    if a.day == b.day + 1 {
      NotNextDay(times, settings, today, b, a);
    }
  }

  lemma NotNextDay(times: Calculator, settings: Settings, today: int, b: EventKey, a: EventKey)
    requires Dated(times) && CanBuild(times, settings, today)
    requires a.prayer == b.prayer && a.day == b.day + 1 && today - 2 <= b.day && a.day <= today + 2
    requires TimeAt(times, settings, a.day, IndexOf(a.prayer)).Some? && TimeAt(times, settings, b.day, IndexOf(b.prayer)).Some?
    ensures TimeAt(times, settings, a.day, IndexOf(a.prayer)) != TimeAt(times, settings, b.day, IndexOf(b.prayer))
  {
    NamedSlot(times, settings, today, a);
    NamedSlot(times, settings, today, b);
    var s := Window(times, settings, today).value;
    assert SlotOf(today, a) == SlotOf(today, b) + 6 && Present(s, SlotOf(today, b)) && Present(s, SlotOf(today, a));
    NextDayLater(s, SlotOf(today, b));
  }

  /** An Isha and the Fajr after it at one instant have one entry. */
  lemma TiedNight(times: Calculator, settings: Settings, today: int, isha: Event, fajr: Event, day: int)
    requires Dated(times) && Entry(times, settings, today, isha) && Entry(times, settings, today, fajr) && isha.utc == fajr.utc
    requires EventKey(day, ISHA) in Members(isha) && EventKey(day + 1, FAJR) in Members(fajr)
    ensures isha == fajr
  {
    EntryTimed(times, settings, today, isha);
    EntryTimed(times, settings, today, fajr);
    var home, i := EntryHome(times, settings, today, isha);
    EntryMembers(times, settings, home, i, EventKey(day, ISHA));
    assert home == day + 1 && i == 0;
    SharedKeySame(times, settings, today, isha, fajr, EventKey(day + 1, FAJR));
  }

  /** The Fajr and the Isha of one day differ. */
  lemma NotSameDay(times: Calculator, settings: Settings, today: int, day: int)
    requires Dated(times) && CanBuild(times, settings, today) && today - 2 <= day <= today + 2
    requires TimeAt(times, settings, day, 0).Some? && TimeAt(times, settings, day, 5).Some?
    ensures TimeAt(times, settings, day, 0) != TimeAt(times, settings, day, 5)
  {
    NamedSlot(times, settings, today, EventKey(day, FAJR));
    NamedSlot(times, settings, today, EventKey(day, ISHA));
    var s := Window(times, settings, today).value;
    var k := SlotOf(today, EventKey(day, FAJR));
    assert Present(s, k) && Present(s, k + 5);
    StrictUnlessOverlap(s, k, k + 5);
  }

  /** One overtaker by an Isha and one by a Fajr name the same night. */
  lemma CrossedOvertakers(times: Calculator, settings: Settings, today: int, e: Event, isha: Event, fajr: Event, a: EventKey, c: EventKey)
    requires Dated(times) && e.sharedWith.Some? && isha.utc == fajr.utc
    requires Entry(times, settings, today, e) && Entry(times, settings, today, isha) && Entry(times, settings, today, fajr)
    requires a in Members(isha) && a.prayer == ISHA && c in Members(fajr) && c.prayer == FAJR
    requires exists b :: b in Members(e) && b.prayer == ISHA && b.day + 2 <= a.day
    requires exists d :: d in Members(e) && d.prayer == FAJR && d.day + 2 <= c.day
    ensures isha == fajr
  {
    var b :| b in Members(e) && b.prayer == ISHA && b.day + 2 <= a.day;
    EdgeEntry(times, settings, today, e, b);
    EdgeEntry(times, settings, today, isha, a);
    EdgeEntry(times, settings, today, fajr, c);
    EntryTimed(times, settings, today, isha);
    EntryTimed(times, settings, today, fajr);
    assert a.day == today || a.day == today + 1;
    assert c.day == today + 1 || c.day == today + 2;
    if c.day == a.day + 1 {
      TiedNight(times, settings, today, isha, fajr, a.day);
    } else if c.day == a.day {
      NotSameDay(times, settings, today, a.day);
    } else {
      NotNextDay(times, settings, today, a, EventKey(today + 1, ISHA));
    }
  }

  /** Two overtakers by the same prayer. */
  lemma AlikeOvertakers(times: Calculator, settings: Settings, today: int, f: Event, g: Event, a: EventKey, c: EventKey)
    requires Dated(times) && Entry(times, settings, today, f) && Entry(times, settings, today, g) && f.utc == g.utc
    requires a in Members(f) && c in Members(g) && a.prayer == c.prayer
    requires a.day <= c.day <= a.day + 1 || c.day <= a.day <= c.day + 1
    ensures f == g
  {
    EntryTimed(times, settings, today, f);
    EntryTimed(times, settings, today, g);
    if a.day < c.day {
      NotNextDay(times, settings, today, a, c);
    } else if c.day < a.day {
      NotNextDay(times, settings, today, c, a);
    } else {
      SharedKeySame(times, settings, today, f, g, a);
    }
  }

  /** Entries of the same instant that overtake an entry are one. */
  lemma OneTiedOvertaker(times: Calculator, settings: Settings, today: int, e: Event, f: Event, g: Event)
    requires Dated(times)
    requires Entry(times, settings, today, e) && Entry(times, settings, today, f) && Entry(times, settings, today, g)
    requires f != e && f.utc == e.utc && Overtakes(f, e)
    requires g != e && g.utc == e.utc && Overtakes(g, e)
    ensures f == g
  {
    var b, a := TiedAhead(times, settings, today, e, f);
    var d, c := TiedAhead(times, settings, today, e, g);
    EdgeEntry(times, settings, today, e, b);
    if a.prayer == c.prayer {
      EdgeEntry(times, settings, today, e, d);
      EdgeEntry(times, settings, today, f, a);
      EdgeEntry(times, settings, today, g, c);
      AlikeOvertakers(times, settings, today, f, g, a, c);
    } else {
      assert e.sharedWith.Some?;
      if a.prayer == ISHA {
        CrossedOvertakers(times, settings, today, e, f, g, a, c);
      } else {
        CrossedOvertakers(times, settings, today, e, g, f, c, a);
      }
    }
  }

  lemma SharedKeySame(times: Calculator, settings: Settings, today: int, f: Event, g: Event, key: EventKey)
    requires Dated(times) && Entry(times, settings, today, f) && Entry(times, settings, today, g)
    requires key in Members(f) && key in Members(g)
    ensures f == g
  {
    assert key in Members(f) * Members(g);
    SameEntry(times, settings, today, today, f, g);
  }

  // ---------------------------------------------------------------------------
  // A store in which nothing but one event is left
  // ---------------------------------------------------------------------------

  function MarkFor(e: Event, today: int, p: Prayer): int {
    if e.key.prayer == p then e.key.day - 1
    else if e.sharedWith.Some? && e.sharedWith.value.prayer == p then e.sharedWith.value.day - 1
    else today + 2
  }

  /** As much as possible is consumed without `e`. */
  function Spent(e: Event, today: int, skip: Option<EventKey>): DurableState {
    DurableState([MarkFor(e, today, 0), MarkFor(e, today, 1), MarkFor(e, today, 2), MarkFor(e, today, 3), MarkFor(e, today, 4)], skip)
  }

  lemma SpentMark(e: Event, today: int, skip: Option<EventKey>, p: Prayer)
    ensures Spent(e, today, skip).consumed[p] == MarkFor(e, today, p)
  {
  }

  lemma SpentSpares(times: Calculator, settings: Settings, today: int, e: Event, skip: Option<EventKey>)
    requires Entry(times, settings, today, e)
    ensures !Consumed(e, Spent(e, today, skip))
  {
    EdgeEntry(times, settings, today, e, e.key);
    SpentMark(e, today, skip, e.key.prayer);
    if e.sharedWith.Some? {
      var day :| Members(e) == {EventKey(day, ISHA), EventKey(day + 1, FAJR)};
      assert e.sharedWith.value in Members(e) && e.key in Members(e);
      TwoMembers(e, day);
      SpentMark(e, today, skip, e.sharedWith.value.prayer);
    }
  }

  lemma TwoMembers(e: Event, day: int)
    requires e.sharedWith.Some? && Members(e) == {EventKey(day, ISHA), EventKey(day + 1, FAJR)}
    ensures e.key.prayer != e.sharedWith.value.prayer
  {
    assert EventKey(day, ISHA) in Members(e) && EventKey(day + 1, FAJR) in Members(e);
    assert e.key in Members(e) && e.sharedWith.value in Members(e);
  }

  /** Every other entry of the day is consumed, or overtakes `e`. */
  lemma SpentConsumes(times: Calculator, settings: Settings, today: int, e: Event, skip: Option<EventKey>, g: Event)
    requires Dated(times) && Entry(times, settings, today, e) && Entry(times, settings, today, g) && g != e
    ensures Consumed(g, Spent(e, today, skip)) || Overtakes(g, e)
  {
    EdgeEntry(times, settings, today, g, g.key);
    SpentMark(e, today, skip, g.key.prayer);
    assert g.key in Members(g) && e.key in Members(e);
    assert e.sharedWith.Some? ==> e.sharedWith.value in Members(e);
  }

  // ---------------------------------------------------------------------------
  // The silent run
  // ---------------------------------------------------------------------------

  /** Any legal arrangement may be the one a tick that rebuilds works with. */
  lemma TickArranged(times: Calculator, v: Vars, now: ClockSample, arranged: seq<Event>) returns (v': Vars)
    requires Consistent(times, v) && Processes(v, now) && v.builtDay != now.localDate && CanBuild(times, v.settings, now.localDate)
    requires |v.settings.enabled| == 5
    requires Arranged(arranged, Window(times, v.settings, now.localDate).value, now.localDate, v.settings.enabled)
    ensures TickStep(times, v, now, GOOD, v') && v'.builtDay == now.localDate && v'.events == arranged
  {
    v' := TickSpec(times, v, now, GOOD, arranged);
    assert Arranges(times, v, now, arranged);
    var ready := TimetableSpec(times, v.(clockReady := ClockReady(now)), now.localDate, arranged);
    CommitKeepsTimetable(ready, now, Continuous(v.armed, v.previous, now), GOOD);
  }

  lemma StartedTick(times: Calculator, settings: Settings, v: Vars, e: Event, day: int, arranged: seq<Event>) returns (v': Vars)
    requires Fixed(times, settings, v) && ValidSettings(settings) && v.settings == settings && v.configured && v.storageOk
    requires v.playbackAllowed && !v.armed && v.builtDay == NEVER_CONSUMED && ValidDate(day) && CanBuild(times, settings, day)
    requires Arranged(arranged, Window(times, settings, day).value, day, settings.enabled)
    ensures TickStep(times, v, Early(e, day), GOOD, v') && After(v, Early(e, day), v') && Fixed(times, settings, v')
    ensures v'.builtDay == day && v'.events == arranged && v'.handed == v.handed && Below(v.durable, v'.durable)
    ensures Consumed(e, v'.durable) <==> Consumed(e, v.durable) || !Spares(times, settings, day, e.utc - 1, e)
  {
    v' := TickArranged(times, v, Early(e, day), arranged);
    TickFixed(times, settings, v, Early(e, day), GOOD, v');
    TickEffect(times, v, Early(e, day), GOOD, v');
    GoodTick(times, v, Early(e, day), v');
    TickConsumesExactly(times, v, Early(e, day), GOOD, v', e);
  }

  /** A restart over a store and a tick just before `e`, with any arrangement of that day. */
  lemma StartedRun(times: Calculator, settings: Settings, durable: DurableState, e: Event, day: int, arranged: seq<Event>) returns (vs: seq<Vars>)
    requires ValidSettings(settings) && ValidDate(day) && CanBuild(times, settings, day)
    requires Arranged(arranged, Window(times, settings, day).value, day, settings.enabled)
    ensures |vs| == 3 && Run(times, vs, LosingOps(settings, day, e)) && vs[0] == PoweredOn(durable, [])
    ensures vs[1].settings == settings && vs[1].durable == durable && vs[1].state.skip == durable.skip
    ensures After(vs[1], Early(e, day), vs[2]) && Fixed(times, settings, vs[2])
    ensures vs[2].builtDay == day && vs[2].events == arranged && vs[2].handed == [] && Below(durable, vs[2].durable)
    ensures Consumed(e, vs[2].durable) <==> Consumed(e, durable) || !Spares(times, settings, day, e.utc - 1, e)
  {
    var v := PoweredOn(durable, []);
    var w := BeginSpec(v, settings, true);
    Restarted(times, settings, durable);
    var w' := StartedTick(times, settings, w, e, day, arranged);
    vs := [v, w, w'];
  }

  ghost predicate TiedOvertaker(times: Calculator, settings: Settings, today: int, e: Event, f: Event) {
    Entry(times, settings, today, f) && f != e && f.utc == e.utc && Overtakes(f, e)
  }

  /** The skip names the entry of the instant of `e` that overtakes it, if there is one. */
  ghost predicate SkipsRival(times: Calculator, settings: Settings, today: int, e: Event, skip: Option<EventKey>) {
    && (forall f :: TiedOvertaker(times, settings, today, e, f) ==> skip == Some(f.key))
    && (skip.Some? ==> exists f :: TiedOvertaker(times, settings, today, e, f) && skip == Some(f.key))
  }

  lemma RivalSkip(times: Calculator, settings: Settings, today: int, e: Event) returns (skip: Option<EventKey>)
    requires Dated(times) && Entry(times, settings, today, e)
    ensures SkipsRival(times, settings, today, e, skip)
  {
    skip := None;
    if f :| TiedOvertaker(times, settings, today, e, f) {
      skip := Some(f.key);
      forall g | TiedOvertaker(times, settings, today, e, g)
        ensures skip == Some(g.key)
      {
        OneTiedOvertaker(times, settings, today, e, f, g);
      }
    }
  }

  lemma RivalIsOther(times: Calculator, settings: Settings, today: int, e: Event, skip: Option<EventKey>)
    requires Dated(times) && Entry(times, settings, today, e) && SkipsRival(times, settings, today, e, skip) && skip.Some?
    ensures !Matches(e, skip.value)
  {
    var f :| TiedOvertaker(times, settings, today, e, f) && skip == Some(f.key);
    if Matches(e, f.key) {
      assert f.key in Members(f) * Members(e);
      SameEntry(times, settings, today, today, f, e);
    }
  }

  /** A rival whose skip is stored is not handed over. */
  lemma RivalSilent(times: Calculator, settings: Settings, today: int, day: int, e: Event, f: Event, vs: seq<Vars>, v': Vars)
    requires Dated(times) && Entry(times, settings, today, f) && |vs| == 3 && Run(times, vs, LosingOps(settings, day, e))
    requires vs[0] == PoweredOn(Spent(e, today, Some(f.key)), []) && TickStep(times, vs[2], OnTime(e, today), GOOD, v')
    ensures v'.handed != [f]
  {
    var all, ops := vs + [v'], LosingOps(settings, day, e) + [Tick(OnTime(e, today), GOOD)];
    assert Run(times, all, ops);
    SkipHonoured(times, settings, today, f, all, ops, 3);
    assert f.key in Members(f);
    assert |v'.handed| > 0 ==> Members(v'.handed[0]) !! Members(f);
  }

  /** In a store grown from the spent one, another unconsumed entry of the instant is the rival. */
  lemma OthersSpent(times: Calculator, settings: Settings, today: int, e: Event, skip: Option<EventKey>, durable: DurableState, d: Event)
    requires Dated(times) && Entry(times, settings, today, e) && SkipsRival(times, settings, today, e, skip)
    requires Below(Spent(e, today, skip), durable)
    requires Entry(times, settings, today, d) && d != e && d.utc == e.utc && !Consumed(d, durable)
    ensures skip == Some(d.key)
  {
    SpentConsumes(times, settings, today, e, skip, d);
    AllHandledGrows(d, Spent(e, today, skip), durable);
    assert TiedOvertaker(times, settings, today, e, d);
  }

  /** With everything else consumed, the crossing tick can only hand over `e` itself or its rival. */
  lemma OnlyTied(times: Calculator, settings: Settings, today: int, day: int, e: Event, skip: Option<EventKey>, before: Vars, v: Vars, v': Vars)
    requires Dated(times) && Entry(times, settings, today, e) && SkipsRival(times, settings, today, e, skip)
    requires Fixed(times, settings, v) && After(before, Early(e, day), v) && before.settings == settings
    requires v.handed == [] && Below(Spent(e, today, skip), v.durable) && ValidDate(today)
    requires TickStep(times, v, OnTime(e, today), GOOD, v')
    ensures v'.handed == [] || exists d :: v'.handed == [d] && Entry(times, settings, today, d) && !Consumed(d, v.durable) && (d == e || skip == Some(d.key))
  {
    GoodTick(times, v, OnTime(e, today), v');
    if v'.handed != [] {
      var d :| v'.handed == v.handed + [d] && HandedNow(times, v, OnTime(e, today), d);
      assert v'.handed == [d] && d.utc == e.utc;
      if d != e {
        OthersSpent(times, settings, today, e, skip, v.durable, d);
      }
    }
  }

  /** With everything else consumed or skipped, it can only hand over `e` itself. */
  lemma OnlyItself(times: Calculator, settings: Settings, today: int, day: int, e: Event, skip: Option<EventKey>, vs: seq<Vars>, v': Vars)
    requires Dated(times) && Entry(times, settings, today, e) && SkipsRival(times, settings, today, e, skip)
    requires |vs| == 3 && Run(times, vs, LosingOps(settings, day, e)) && vs[0] == PoweredOn(Spent(e, today, skip), [])
    requires Fixed(times, settings, vs[2]) && After(vs[1], Early(e, day), vs[2]) && vs[1].settings == settings
    requires vs[2].handed == [] && Below(vs[0].durable, vs[2].durable) && ValidDate(today)
    requires TickStep(times, vs[2], OnTime(e, today), GOOD, v')
    ensures v'.handed == [] || (v'.handed == [e] && !Consumed(e, vs[2].durable))
  {
    OnlyTied(times, settings, today, day, e, skip, vs[1], vs[2], v');
    if v'.handed != [] {
      var d :| v'.handed == [d] && Entry(times, settings, today, d) && !Consumed(d, vs[2].durable) && (d == e || skip == Some(d.key));
      if d != e {
        RivalSilent(times, settings, today, day, e, d, vs, v');
      }
    }
  }

  /** The tick on time crosses `e`, wanted and not skipped. */
  lemma OnTimeCrosses(times: Calculator, settings: Settings, today: int, day: int, e: Event, skip: Option<EventKey>, before: Vars, v: Vars, v': Vars)
    requires Dated(times) && Entry(times, settings, today, e) && e.enabled && SkipsRival(times, settings, today, e, skip)
    requires After(before, Early(e, day), v) && before.state.skip == skip && ValidDate(today)
    requires TickStep(times, v, OnTime(e, today), GOOD, v')
    ensures Crosses(times, e, v, OnTime(e, today), GOOD, v')
  {
    if skip.Some? {
      RivalIsOther(times, settings, today, e, skip);
    }
  }

  /** A run before `e` after which the crossing tick hands over nothing. */
  lemma SilentRun(times: Calculator, settings: Settings, days: iset<int>, today: int, day: int, e: Event, skip: Option<EventKey>,
                  vs: seq<Vars>, v': Vars)
    requires Entry(times, settings, today, e) && day in days
    requires |vs| == 3 && Crosses(times, e, vs[2], OnTime(e, today), GOOD, v') && Run(times, vs, LosingOps(settings, day, e)) && vs[0] == PoweredOn(Spent(e, today, skip), [])
    requires vs[2].handed == [] && v'.handed == []
    ensures !AlwaysHeard(times, settings, days, today, e)
  {
    var ops := LosingOps(settings, day, e);
    SpentSpares(times, settings, today, e, skip);
    assert RunBefore(times, settings, e, days, vs, ops);
    assert !Delivered(times, settings, today, e, vs[|ops|], v');
  }

  // ---------------------------------------------------------------------------
  // Exactly when an entry is heard
  // ---------------------------------------------------------------------------

  /** After every run before `e`, the tick of `today` that crosses `e` hands it over, or an entry that is not before it. */
  ghost predicate AlwaysHeard(times: Calculator, settings: Settings, days: iset<int>, today: int, e: Event) {
    forall vs: seq<Vars>, ops: seq<Op>, now, env, v' ::
      RunBefore(times, settings, e, days, vs, ops) && Crosses(times, e, vs[|ops|], now, env, v') && now.localDate == today ==>
        Delivered(times, settings, today, e, vs[|ops|], v')
  }

  lemma HeardWhenSpared(times: Calculator, settings: Settings, days: iset<int>, today: int, e: Event)
    requires Entry(times, settings, today, e) && today in days && ValidDate(today)
    requires AllSpare(times, settings, e, days) && Foremost(times, settings, today, e)
    ensures AlwaysHeard(times, settings, days, today, e)
  {
    assert Spares(times, settings, today, e.utc - 1, e);
    forall vs: seq<Vars>, ops: seq<Op>, now, env, v' |
        RunBefore(times, settings, e, days, vs, ops) && Crosses(times, e, vs[|ops|], now, env, v') && now.localDate == today
      ensures Delivered(times, settings, today, e, vs[|ops|], v')
    {
      RunKeeps(times, settings, e, days, vs, ops);
      TickDelivers(times, settings, e, vs[|ops|], now, env, v');
    }
  }

  lemma ArrangedSomehow(times: Calculator, settings: Settings, day: int) returns (arranged: seq<Event>)
    requires CanBuild(times, settings, day) && |settings.enabled| == 5
    ensures Arranged(arranged, Window(times, settings, day).value, day, settings.enabled)
  {
    arranged := Sorted(EventsBelow(Window(times, settings, day).value, day, settings.enabled, 30));
  }

  /** A day that does not spare the event silences it. */
  lemma UnheardWhenOvertaken(times: Calculator, settings: Settings, days: iset<int>, bad: int, today: int, e: Event)
    requires Dated(times) && ValidSettings(settings) && ValidDate(bad) && bad in days && ValidDate(today)
    requires Entry(times, settings, today, e) && e.enabled && !Spares(times, settings, bad, e.utc - 1, e)
    ensures !AlwaysHeard(times, settings, days, today, e)
  {
    var skip := RivalSkip(times, settings, today, e);
    var arranged := ArrangedSomehow(times, settings, bad);
    var vs := StartedRun(times, settings, Spent(e, today, skip), e, bad, arranged);
    var v' := TickExists(times, vs[2], OnTime(e, today), GOOD);
    OnlyItself(times, settings, today, bad, e, skip, vs, v');
    OnTimeCrosses(times, settings, today, bad, e, skip, vs[1], vs[2], v');
    SilentRun(times, settings, days, today, bad, e, skip, vs, v');
  }

  /** Of two entries of one instant either may come first. */
  lemma RivalFirst(events: seq<Event>, f: Event, e: Event) returns (arranged: seq<Event>, at: nat)
    requires SortedByTime(events) && f in events && e in events && f.utc == e.utc && f != e && Overtakes(f, e)
    ensures SortedByTime(arranged) && multiset(arranged) == multiset(events)
    ensures at < |arranged| && arranged[at] == e && Beaten(arranged, at)
  {
    var i :| 0 <= i < |events| && events[i] == f;
    var j :| 0 <= j < |events| && events[j] == e;
    if i < j {
      arranged, at := events, j;
    } else {
      arranged, at := events[i := e][j := f], i;
      assert arranged[j] == f;
    }
  }

  /** An entry of the same instant that overtakes the event silences it when it is skipped and comes first. */
  lemma UnheardWhenBeaten(times: Calculator, settings: Settings, days: iset<int>, today: int, e: Event, f: Event)
    requires Dated(times) && ValidSettings(settings) && today in days && ValidDate(today)
    requires Entry(times, settings, today, e) && e.enabled && TiedOvertaker(times, settings, today, e, f)
    requires Spares(times, settings, today, e.utc - 1, e)
    ensures !AlwaysHeard(times, settings, days, today, e)
  {
    var s := Window(times, settings, today).value;
    var skip := RivalSkip(times, settings, today, e);
    var some := ArrangedSomehow(times, settings, today);
    ArrangedFrom(some, s, today, settings.enabled, e);
    ArrangedFrom(some, s, today, settings.enabled, f);
    var arranged, at := RivalFirst(some, f, e);
    var vs := StartedRun(times, settings, Spent(e, today, skip), e, today, arranged);
    SpentSpares(times, settings, today, e, skip);
    var v' := TickExists(times, vs[2], OnTime(e, today), GOOD);
    OnlyItself(times, settings, today, today, e, skip, vs, v');
    OnTimeCrosses(times, settings, today, today, e, skip, vs[1], vs[2], v');
    BeatenSilent(times, settings, today, e, vs[2], v', at);
    SilentRun(times, settings, days, today, today, e, skip, vs, v');
  }

  /** A tick of the day whose timetable is cached keeps its order. */
  lemma CachedOrder(times: Calculator, v: Vars, now: ClockSample, env: Env, v': Vars)
    requires Consistent(times, v) && Processes(v, now) && TickStep(times, v, now, env, v') && v.builtDay == now.localDate
    ensures v'.events == v.events
  {
    var ready := TickReady(times, v, now, env, v');
    CommitKeepsTimetable(ready, now, Continuous(v.armed, v.previous, now), env);
  }

  lemma BeatenSilent(times: Calculator, settings: Settings, today: int, e: Event, v: Vars, v': Vars, at: nat)
    requires Fixed(times, settings, v) && Crosses(times, e, v, OnTime(e, today), GOOD, v') && CanBuild(times, settings, today)
    requires v.builtDay == today && at < |v.events| && v.events[at] == e && Beaten(v.events, at) && v.handed == []
    requires !Consumed(e, v.durable) && Spares(times, settings, today, e.utc - 1, e)
    ensures v'.handed != [e]
  {
    CachedOrder(times, v, OnTime(e, today), GOOD, v');
    TieDecides(times, settings, e, v, OnTime(e, today), GOOD, v', at);
    assert v.handed + [e] == [e];
  }

  /**
   A wanted entry is heard after every run before it, whatever order the sort leaves
   equal instants in, if and only if no day of those runs overtakes it before its
   instant and no other entry of its own instant overtakes it.
   */
  lemma HeardExactly(times: Calculator, settings: Settings, days: iset<int>, today: int, e: Event)
    requires Dated(times) && ValidSettings(settings) && ValidDate(today) && today in days
    requires Entry(times, settings, today, e) && e.enabled
    ensures AlwaysHeard(times, settings, days, today, e) <==>
      AllSpare(times, settings, e, days) && Foremost(times, settings, today, e)
  {
    if !AllSpare(times, settings, e, days) {
      var bad :| bad in days && ValidDate(bad) && !Spares(times, settings, bad, e.utc - 1, e);
      UnheardWhenOvertaken(times, settings, days, bad, today, e);
    } else if f :| Entry(times, settings, today, f) && f.utc <= e.utc && Overtakes(f, e) && f != e {
      assert Spares(times, settings, today, e.utc - 1, e);
      UnheardWhenBeaten(times, settings, days, today, e, f);
    } else {
      HeardWhenSpared(times, settings, days, today, e);
    }
  }
}
