/**
 A skip is honoured: once it is stored, no run with the same settings plays the event,
 through restarts, failed saves and midnights, unless the skip is taken back.
 */
module SchedulerSkips {
  import opened Wrappers
  import opened Timetable
  import opened PlaybackWindow
  import opened EntryIdentity
  import opened SchedulerCore
  import opened SchedulerSafety
  import opened SchedulerDelivery

  ghost predicate SkipsIt(st: DurableState, e: Event) { st.skip.Some? && st.skip.value in Members(e) }

  /** The store keeps `e` from being played. */
  ghost predicate Withheld(st: DurableState, e: Event) { Consumed(e, st) || !e.enabled || SkipsIt(st, e) }

  ghost predicate Withholds(times: Calculator, settings: Settings, e: Event, v: Vars) {
    Fixed(times, settings, v) && Withheld(v.durable, e)
  }

  /** Settings stay fixed and the skip is not taken back. */
  ghost predicate Keeps(settings: Settings, op: Op) {
    match op
    case Reboot(s, _) => s == settings
    case Begin(s, _) => s == settings
    case Configure(s) => s == settings
    case CancelSkip(_) => false
    case _ => true
  }

  /** While `e` is still to come, the skip of it is waiting, also in a timetable of a later day. */
  lemma StillAwaited(times: Calculator, v: Vars, day: int, now: ClockSample, continuous: bool, e: Event)
    requires Dated(times) && Holds(times, v, now.localDate) && Entry(times, v.settings, day, e) && e.enabled
    requires SkipsIt(v.state, e) && v.state.skip.value.day <= now.localDate + 1
    requires !Consumed(e, CandidateSpec(v, now, continuous).state)
    ensures CandidateSpec(v, now, continuous).state.skip == v.state.skip
  {
    var raised := RaiseAll(v.state, now.localDate - 2);
    var scanned := Scan(v.events, |v.events|, raised, v.previous.utc, now, continuous).state;
    ScanFacts(v.events, |v.events|, raised, v.previous.utc, now, continuous);
    CandidateExactly(v, now, continuous, e);
    var key := v.state.skip.value;
    assert key in Members(e) && InWindow(key, now.localDate);
    EntryCarries(times, v.settings, day, now.localDate, e, key);
    CachedEntry(times, v, now.localDate, e);
    NotReached(v.events, now.utc, e);
    assert AwaitsSkip(e, scanned, now.utc);
  }

  lemma NotReached(events: seq<Event>, utc: int, e: Event)
    requires e in events && !OvertakenBelow(events, |events|, utc, e)
    ensures utc < e.utc
  {
    var i :| 0 <= i < |events| && events[i] == e;
    assert e.key in Members(e);
    assert Overtakes(e, e);
  }

  /** What a tick would save withholds `e` if the state did. */
  lemma CandidateWithholds(times: Calculator, v: Vars, day: int, now: ClockSample, continuous: bool, e: Event)
    requires Dated(times) && Holds(times, v, now.localDate) && Entry(times, v.settings, day, e) && Withheld(v.state, e)
    ensures Withheld(CandidateSpec(v, now, continuous).state, e)
  {
    var raised := RaiseAll(v.state, now.localDate - 2);
    CandidateExactly(v, now, continuous, e);
    ScanFacts(v.events, |v.events|, raised, v.previous.utc, now, continuous);
    var candidate := CandidateSpec(v, now, continuous).state;
    if e.enabled && !Consumed(e, candidate) && v.state.skip.value.day <= now.localDate + 1 {
      StillAwaited(times, v, day, now, continuous, e);
    }
  }

  /** Nothing that shares a prayer with a withheld entry is handed over. */
  lemma DueIsOther(times: Calculator, v: Vars, day: int, now: ClockSample, continuous: bool, e: Event)
    requires Dated(times) && Holds(times, v, now.localDate) && Entry(times, v.settings, day, e) && Withheld(v.state, e)
    ensures var due := CandidateSpec(v, now, continuous).due;
      due.Some? ==> Members(due.value) !! Members(e)
  {
    DueFacts(times, v, now, continuous);
    var due := CandidateSpec(v, now, continuous).due;
    if due.Some? && Members(due.value) * Members(e) != {} {
      SameEntry(times, v.settings, now.localDate, day, due.value, e);
    }
  }

  /** Requests are only added, none of them for a prayer of `e`. */
  ghost predicate OnlyOthers(e: Event, before: seq<Event>, after: seq<Event>) {
    before <= after && forall i :: |before| <= i < |after| ==> Members(after[i]) !! Members(e)
  }

  lemma NoneAdded(e: Event, a: seq<Event>)
    ensures OnlyOthers(e, a, a)
  {
  }

  lemma OthersCompose(e: Event, a: seq<Event>, b: seq<Event>, c: seq<Event>)
    requires OnlyOthers(e, a, b) && OnlyOthers(e, b, c)
    ensures OnlyOthers(e, a, c)
  {
    forall i | |a| <= i < |c|
      ensures Members(c[i]) !! Members(e)
    {
      if i < |b| {
        assert c[i] == b[i];
      }
    }
  }

  lemma CommitHandsDue(v: Vars, now: ClockSample, continuous: bool, env: Env)
    ensures var due, w := CandidateSpec(v, now, continuous).due, CommitSpec(v, now, continuous, env);
      w.handed == v.handed || (due.Some? && w.handed == v.handed + [due.value])
  {
    var r := CandidateSpec(v, now, continuous);
    var saved := PersistSpec(v, r.state, env.save);
    PlayEffect(saved.(previous := now, armed := true, next := NextFrom(saved.events, 0, saved.state, now.utc)), r.due, env);
  }

  lemma CommitWithholds(times: Calculator, v: Vars, day: int, now: ClockSample, continuous: bool, env: Env, e: Event)
    requires Dated(times) && Holds(times, v, now.localDate) && Entry(times, v.settings, day, e)
    requires v.durable == v.state && Withheld(v.durable, e)
    ensures var w := CommitSpec(v, now, continuous, env);
      Withheld(w.durable, e) && OnlyOthers(e, v.handed, w.handed)
  {
    CommitDurable(v, now, continuous, env);
    CommitHandsDue(v, now, continuous, env);
    CandidateWithholds(times, v, day, now, continuous, e);
    DueIsOther(times, v, day, now, continuous, e);
  }

  lemma TickWithholds(times: Calculator, settings: Settings, day: int, e: Event, v: Vars, now: ClockSample, env: Env, v': Vars)
    requires Dated(times) && Entry(times, settings, day, e)
    requires Withholds(times, settings, e, v) && TickStep(times, v, now, env, v')
    ensures Withholds(times, settings, e, v') && OnlyOthers(e, v.handed, v'.handed)
  {
    TickFixed(times, settings, v, now, env, v');
    if Processes(v, now) {
      var ready := TickReady(times, v, now, env, v');
      if CanBuild(times, v.settings, now.localDate) {
        CommitWithholds(times, ready, day, now, Continuous(v.armed, v.previous, now), env, e);
      }
    }
  }

  lemma SelectWithholds(times: Calculator, settings: Settings, e: Event, v: Vars, save: Save, expected: Option<Event>)
    requires Withholds(times, settings, e, v)
    ensures Withholds(times, settings, e, SelectSkip(v, save, expected)) && SelectSkip(v, save, expected).handed == v.handed
  {
    SelectFixed(times, settings, v, save, expected);
  }

  lemma BeginWithholds(times: Calculator, settings: Settings, e: Event, v: Vars, loads: bool)
    requires Withheld(v.durable, e)
    ensures Withholds(times, settings, e, BeginSpec(v, settings, loads)) && BeginSpec(v, settings, loads).handed == v.handed
  {
    BeginFixed(times, settings, v, loads);
  }

  lemma ConfigureWithholds(times: Calculator, settings: Settings, e: Event, v: Vars)
    requires Withholds(times, settings, e, v)
    ensures Withholds(times, settings, e, ConfigureSpec(v, settings)) && ConfigureSpec(v, settings).handed == v.handed
  {
    ConfigureFixed(times, settings, v);
  }

  lemma StepWithholds(times: Calculator, settings: Settings, day: int, e: Event, v: Vars, op: Op, v': Vars)
    requires Dated(times) && Entry(times, settings, day, e)
    requires Withholds(times, settings, e, v) && Keeps(settings, op) && Step(times, v, op, v')
    ensures Withholds(times, settings, e, v') && OnlyOthers(e, v.handed, v'.handed)
  {
    match op
    case Tick(now, env) =>
      TickWithholds(times, settings, day, e, v, now, env, v');
    case SkipNext(now, env, save, expected) =>
      var mid :| TickStep(times, v, now, env, mid) && v' == SelectSkip(mid, save, expected);
      TickWithholds(times, settings, day, e, v, now, env, mid);
      SelectWithholds(times, settings, e, mid, save, expected);
    case Reboot(_, loads) =>
      BeginWithholds(times, settings, e, PoweredOn(v.durable, v.handed), loads);
    case Begin(_, loads) =>
      BeginWithholds(times, settings, e, v, loads);
    case Configure(_) =>
      ConfigureWithholds(times, settings, e, v);
    case _ =>
  }

  /** Once a skip of an entry is stored, no request for any of its prayers is added. */
  lemma {:induction false} SkipHonoured(times: Calculator, settings: Settings, day: int, e: Event, vs: seq<Vars>, ops: seq<Op>, n: nat)
    requires Dated(times) && Entry(times, settings, day, e)
    requires Run(times, vs, ops) && n < |vs| && Fixed(times, settings, vs[0]) && SkipsIt(vs[0].durable, e)
    requires forall i :: 0 <= i < |ops| ==> Keeps(settings, ops[i])
    ensures OnlyOthers(e, vs[0].handed, vs[n].handed) && Withholds(times, settings, e, vs[n])
  {
    if n == 0 {
      NoneAdded(e, vs[0].handed);
    } else {
      SkipHonoured(times, settings, day, e, vs, ops, n - 1);
      StepWithholds(times, settings, day, e, vs[n - 1], ops[n - 1], vs[n]);
      OthersCompose(e, vs[0].handed, vs[n - 1].handed, vs[n].handed);
    }
  }

  /** Still to be played: selected, ahead, and no prayer of it consumed. */
  ghost predicate Ahead(e: Event, st: DurableState, utc: int) {
    e.enabled && utc < e.utc && forall key :: key in Members(e) ==> st.consumed[key.prayer] < key.day
  }

  lemma AheadUnconsumed(e: Event, st: DurableState, utc: int)
    ensures Ahead(e, st, utc) <==> e.enabled && utc < e.utc && !Consumed(e, st)
  {
    ConsumedIffSomeMember(e, st);
  }

  /** The shown entry is an earliest one of the list that is ahead, and none is shown only when none is. */
  ghost predicate FirstAhead(events: seq<Event>, st: DurableState, utc: int, next: Option<Event>) {
    && (next.Some? ==> next.value in events && Ahead(next.value, st, utc))
    && forall f :: f in events && Ahead(f, st, utc) ==> next.Some? && next.value.utc <= f.utc
  }

  lemma {:induction false} NextIsFirst(events: seq<Event>, i: nat, st: DurableState, utc: int)
    requires SortedByTime(events) && i <= |events| && forall f :: f in events[..i] ==> !Ahead(f, st, utc)
    ensures FirstAhead(events, st, utc, NextFrom(events, i, st, utc))
    decreases |events| - i
  {
    if i < |events| {
      AheadUnconsumed(events[i], st, utc);
      if !Ahead(events[i], st, utc) {
        assert events[..i + 1] == events[..i] + [events[i]];
        NextIsFirst(events, i + 1, st, utc);
      }
    }
  }

  /** The same for the timetable of a day. */
  ghost predicate ShowsFirst(times: Calculator, settings: Settings, today: int, st: DurableState, utc: int, next: Option<Event>) {
    && (next.Some? ==> Entry(times, settings, today, next.value) && Ahead(next.value, st, utc))
    && forall f :: Entry(times, settings, today, f) && Ahead(f, st, utc) ==> next.Some? && next.value.utc <= f.utc
  }

  lemma FirstShown(times: Calculator, v: Vars, today: int, st: DurableState, utc: int, next: Option<Event>)
    requires Holds(times, v, today) && FirstAhead(v.events, st, utc, next)
    ensures ShowsFirst(times, v.settings, today, st, utc, next)
  {
    if next.Some? {
      CachedEntry(times, v, today, next.value);
    }
    forall f | Entry(times, v.settings, today, f) && Ahead(f, st, utc)
      ensures next.Some? && next.value.utc <= f.utc
    {
      CachedEntry(times, v, today, f);
    }
  }

  /** A tick that arms shows the first entry of its day that is still ahead; any other tick shows none. */
  lemma TickShowsFirst(times: Calculator, settings: Settings, v: Vars, now: ClockSample, env: Env, v': Vars)
    requires Fixed(times, settings, v) && TickStep(times, v, now, env, v')
    ensures if v'.armed then ShowsFirst(times, settings, now.localDate, v'.durable, now.utc, v'.next) else v'.next == None
  {
    if v'.armed {
      TickArms(times, v, now, env, v');
      var ready := TickReady(times, v, now, env, v');
      var continuous := Continuous(v.armed, v.previous, now);
      CommitNext(ready, now, continuous, env);
      CommitDurable(ready, now, continuous, env);
      TickFixed(times, settings, v, now, env, v');
      NextIsFirst(ready.events, 0, CandidateSpec(ready, now, continuous).state, now.utc);
      FirstShown(times, ready, now.localDate, v'.state, now.utc, v'.next);
    } else {
      TickUnarmed(times, v, now, env, v');
    }
  }

  lemma CommitUnarmed(v: Vars, now: ClockSample, continuous: bool, env: Env)
    ensures var w := CommitSpec(v, now, continuous, env); !w.armed ==> w.next == None
  {
    CommitNext(v, now, continuous, env);
  }

  lemma TickUnarmed(times: Calculator, v: Vars, now: ClockSample, env: Env, v': Vars)
    requires TickStep(times, v, now, env, v') && !v'.armed
    ensures v'.next == None
  {
    var arranged :| Arranges(times, v, now, arranged) && v' == TickSpec(times, v, now, env, arranged);
    if Processes(v, now) && HasTimetable(times, v, now.localDate) {
      CommitUnarmed(TimetableSpec(times, v.(clockReady := true), now.localDate, arranged), now, Continuous(v.armed, v.previous, now), env);
    }
  }

  /** Only a tick that has a timetable leaves the scheduler armed. */
  lemma TickArms(times: Calculator, v: Vars, now: ClockSample, env: Env, v': Vars)
    requires Consistent(times, v) && TickStep(times, v, now, env, v') && v'.armed
    ensures Processes(v, now) && CanBuild(times, v.settings, now.localDate)
  {
  }

  /** What is stored when a skip is asked for: granted, the entry shown or the skip there was before; refused, nothing. */
  lemma SkipExactly(v: Vars, save: Save, expected: Option<Event>)
    requires InSync(v)
    ensures var w := SelectSkip(v, save, expected);
      && (SkipGranted(v, save, expected) && v.state.skip.None? ==>
            w.state == v.state.(skip := Some(v.next.value.key)) && w.durable == w.state)
      && (SkipGranted(v, save, expected) && v.state.skip.Some? ==> w == v)
      && (!SkipGranted(v, save, expected) ==> w.state == v.state && w.handed == v.handed && (save.Lost? ==> w.durable == v.durable))
  {
  }

  /** The state a granted skip leaves. */
  lemma GrantedSkip(times: Calculator, settings: Settings, v: Vars, now: ClockSample, env: Env, expected: Option<Event>, mid: Vars)
    requires Fixed(times, settings, v) && TickStep(times, v, now, env, mid)
    requires SkipGranted(mid, Stored, expected) && mid.state.skip.None?
    ensures ShowsFirst(times, settings, now.localDate, mid.durable, now.utc, mid.next)
    ensures var w := SelectSkip(mid, Stored, expected);
      Fixed(times, settings, w) && w.durable == mid.durable.(skip := Some(mid.next.value.key)) && w.handed == mid.handed
  {
    TickFixed(times, settings, v, now, env, mid);
    TickShowsFirst(times, settings, v, now, env, mid);
    SelectFixed(times, settings, mid, Stored, expected);
    SkipExactly(mid, Stored, expected);
  }

  /** A skip that is granted is stored for the first entry ahead, the one that was expected, and silences it. */
  lemma SkippedNextIsSilent(times: Calculator, settings: Settings, vs: seq<Vars>, ops: seq<Op>, n: nat,
                            now: ClockSample, env: Env, expected: Option<Event>, mid: Vars)
    requires Dated(times) && Run(times, vs, ops) && 1 <= n < |vs| && Fixed(times, settings, vs[0])
    requires TickStep(times, vs[0], now, env, mid) && vs[1] == SelectSkip(mid, Stored, expected)
    requires SkipGranted(mid, Stored, expected) && mid.state.skip.None?
    requires forall i :: 1 <= i < |ops| ==> Keeps(settings, ops[i])
    ensures ShowsFirst(times, settings, now.localDate, mid.durable, now.utc, mid.next)
    ensures vs[1].durable == mid.durable.(skip := Some(mid.next.value.key))
    ensures OnlyOthers(mid.next.value, vs[1].handed, vs[n].handed)
  {
    GrantedSkip(times, settings, vs[0], now, env, expected, mid);
    assert Run(times, vs[1..], ops[1..]);
    SkipHonoured(times, settings, now.localDate, mid.next.value, vs[1..], ops[1..], n - 1);
  }
}
