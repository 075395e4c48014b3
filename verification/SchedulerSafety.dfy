/**
 Duplicate prevention over whole runs: any operations, clock samples, settings,
 failed or unacknowledged saves and restarts, in any order.
 */
module SchedulerSafety {
  import opened Wrappers
  import opened Timetable
  import opened PlaybackWindow
  import opened SchedulerCore

  /** No watermark of `a` is beyond the same watermark of `b`. */
  ghost predicate Below(a: DurableState, b: DurableState) {
    forall p: Prayer :: a.consumed[p] <= b.consumed[p]
  }

  /** Every identity of `e` is consumed in `st`. */
  ghost predicate AllHandled(e: Event, st: DurableState) {
    forall key :: key in Members(e) ==> Handled(key, st)
  }

  lemma ConsumedIffSomeMember(e: Event, st: DurableState)
    ensures Consumed(e, st) <==> exists key :: key in Members(e) && Handled(key, st)
  {
    assert e.key in Members(e);
    if e.sharedWith.Some? {
      assert e.sharedWith.value in Members(e);
    }
  }

  lemma ConsumeEventFacts(st: DurableState, e: Event)
    ensures Below(st, ConsumeEvent(st, e)) && AllHandled(e, ConsumeEvent(st, e))
    ensures ConsumeEvent(st, e).skip == st.skip
  {
    var own := ConsumeKey(st, e.key);
    assert Below(st, own) && Handled(e.key, own);
    if e.sharedWith.Some? {
      var both := ConsumeKey(own, e.sharedWith.value);
      assert Below(own, both) && Handled(e.sharedWith.value, both);
    }
  }

  lemma BelowTransitive(a: DurableState, b: DurableState, c: DurableState)
    requires Below(a, b) && Below(b, c)
    ensures Below(a, c)
  {
    forall p: Prayer
      ensures a.consumed[p] <= c.consumed[p]
    {
      assert a.consumed[p] <= b.consumed[p];
    }
  }

  lemma AllHandledGrows(e: Event, a: DurableState, b: DurableState)
    requires Below(a, b)
    ensures AllHandled(e, a) ==> AllHandled(e, b)
    ensures Consumed(e, a) ==> Consumed(e, b)
  {
  }

  /** The consuming loop only raises watermarks, leaves the skip, and its pick was fresh and is now handled. */
  lemma {:induction false} ScanFacts(events: seq<Event>, n: nat, st: DurableState, previousUtc: int, now: ClockSample, continuous: bool)
    requires n <= |events|
    ensures var r := Scan(events, n, st, previousUtc, now, continuous);
      && Below(st, r.state) && r.state.skip == st.skip
      && (r.due.Some? ==>
            && r.due.value in events[..n] && IsDue(r.due.value, st, previousUtc, now, continuous)
            && r.due.value.utc <= now.utc && AllHandled(r.due.value, r.state))
  {
    if n > 0 {
      ScanFacts(events, n - 1, st, previousUtc, now, continuous);
      var before := Scan(events, n - 1, st, previousUtc, now, continuous);
      var e := events[n - 1];
      if e.utc <= now.utc {
        var after := ConsumeEvent(before.state, e);
        ConsumeEventFacts(before.state, e);
        BelowTransitive(st, before.state, after);
        AllHandledGrows(e, st, before.state);
        if before.due.Some? {
          AllHandledGrows(before.due.value, before.state, after);
        }
      }
    }
  }

  lemma RaiseAllFacts(st: DurableState, floor: int)
    ensures Below(st, RaiseAll(st, floor)) && RaiseAll(st, floor).skip == st.skip
  {
  }

  lemma CandidateFacts(v: Vars, now: ClockSample, continuous: bool)
    ensures var r := CandidateSpec(v, now, continuous);
      && Below(v.state, r.state)
      && (r.due.Some? ==> r.due.value in v.events && !Consumed(r.due.value, v.state) && AllHandled(r.due.value, r.state))
  {
    var raised := RaiseAll(v.state, now.localDate - 2);
    RaiseAllFacts(v.state, now.localDate - 2);
    ScanFacts(v.events, |v.events|, raised, v.previous.utc, now, continuous);
    var r := Scan(v.events, |v.events|, raised, v.previous.utc, now, continuous);
    BelowTransitive(v.state, raised, r.state);
    if r.due.Some? {
      AllHandledGrows(r.due.value, v.state, raised);
      AllHandledGrows(r.due.value, r.state, CandidateSpec(v, now, continuous).state);
    }
  }

  lemma {:induction false} NextFromFacts(events: seq<Event>, i: nat, st: DurableState, nowUtc: int)
    requires i <= |events|
    ensures NextFrom(events, i, st, nowUtc).Some? ==>
      NextFrom(events, i, st, nowUtc).value in events && !Consumed(NextFrom(events, i, st, nowUtc).value, st)
    ensures NextFrom(events, i, st, nowUtc).None? ==>
      forall j :: i <= j < |events| && events[j].enabled && nowUtc < events[j].utc ==> Consumed(events[j], st)
    decreases |events| - i
  {
    if i < |events| {
      NextFromFacts(events, i + 1, st, nowUtc);
    }
  }

  // ---------------------------------------------------------------------------
  // One step
  // ---------------------------------------------------------------------------

  /** What any single operation may do to the store and to the player. */
  ghost predicate Effect(v: Vars, v': Vars) {
    && Below(v.durable, v'.durable)
    && (v'.storageOk ==> v'.durable == v'.state)
    && (v'.handed == v.handed ||
        exists e :: v'.handed == v.handed + [e] && !Consumed(e, v.durable) && AllHandled(e, v'.durable))
  }

  ghost predicate InSync(v: Vars) { v.storageOk ==> v.durable == v.state }

  lemma PersistEffect(v: Vars, candidate: DurableState, save: Save)
    requires InSync(v) && v.storageOk && Below(v.state, candidate)
    ensures Effect(v, PersistSpec(v, candidate, save)) && PersistSpec(v, candidate, save).handed == v.handed
    ensures Persisted(v, candidate, save) ==> PersistSpec(v, candidate, save).durable == candidate
  {
  }

  lemma PlayEffect(v: Vars, due: Option<Event>, env: Env)
    ensures var w := PlaySpec(v, due, env);
      && w.durable == v.durable && w.state == v.state && w.storageOk == v.storageOk
      && (w.handed == v.handed || (due.Some? && w.handed == v.handed + [due.value]))
  {
  }

  lemma PlayKeepsNext(v: Vars, due: Option<Event>, env: Env)
    ensures PlaySpec(v, due, env).next == v.next && PlaySpec(v, due, env).armed == v.armed
  {
  }

  /** Only a commit whose save is acknowledged arms, and it shows what comes next. */
  lemma CommitNext(v: Vars, now: ClockSample, continuous: bool, env: Env)
    ensures var r, w := CandidateSpec(v, now, continuous).state, CommitSpec(v, now, continuous, env);
      if Persisted(v, r, env.save) then w.armed && w.state == r && w.next == NextFrom(v.events, 0, r, now.utc) else !w.armed
  {
    var r := CandidateSpec(v, now, continuous);
    if Persisted(v, r.state, env.save) {
      var saved := PersistSpec(v, r.state, env.save);
      var armed := saved.(previous := now, armed := true, next := NextFrom(saved.events, 0, saved.state, now.utc));
      PlayEffect(armed, r.due, env);
      PlayKeepsNext(armed, r.due, env);
    }
  }

  lemma CommitEffect(v: Vars, now: ClockSample, continuous: bool, env: Env)
    requires InSync(v) && v.storageOk
    ensures Effect(v, CommitSpec(v, now, continuous, env))
  {
    CandidateFacts(v, now, continuous);
    var r := CandidateSpec(v, now, continuous);
    PersistEffect(v, r.state, env.save);
    var saved := PersistSpec(v, r.state, env.save);
    var armed := saved.(previous := now, armed := true, next := NextFrom(saved.events, 0, saved.state, now.utc));
    PlayEffect(armed, r.due, env);
    var v' := CommitSpec(v, now, continuous, env);
    if v'.handed != v.handed {
      var e := r.due.value;
      assert v'.handed == v.handed + [e] && !Consumed(e, v.durable) && AllHandled(e, v'.durable);
    }
  }

  lemma RebuildEffect(times: Calculator, v: Vars, today: int, arranged: seq<Event>)
    ensures var w := RebuildSpec(times, v, today, arranged);
      && w.durable == v.durable && w.state == v.state && w.storageOk == v.storageOk && w.handed == v.handed
  {
  }

  lemma TimetableEffect(times: Calculator, v: Vars, today: int, arranged: seq<Event>)
    ensures var w := TimetableSpec(times, v, today, arranged);
      && w.durable == v.durable && w.state == v.state && w.storageOk == v.storageOk && w.handed == v.handed
  {
    RebuildEffect(times, v, today, arranged);
  }

  lemma TickEffect(times: Calculator, v: Vars, now: ClockSample, env: Env, v': Vars)
    requires InSync(v) && TickStep(times, v, now, env, v')
    ensures Effect(v, v')
  {
    var arranged :| Arranges(times, v, now, arranged) && v' == TickSpec(times, v, now, env, arranged);
    if Processes(v, now) {
      var seen := v.(clockReady := true);
      var ready := TimetableSpec(times, seen, now.localDate, arranged);
      TimetableEffect(times, seen, now.localDate, arranged);
      if HasTimetable(times, v, now.localDate) {
        CommitEffect(ready, now, Continuous(v.armed, v.previous, now), env);
      }
    }
  }

  lemma SelectEffect(v: Vars, save: Save, expected: Option<Event>)
    requires InSync(v)
    ensures Effect(v, SelectSkip(v, save, expected)) && SelectSkip(v, save, expected).handed == v.handed
  {
    if SkipAdmitted(v, expected) && v.state.skip.None? {
      PersistEffect(v, v.state.(skip := Some(v.next.value.key)), save);
    }
  }

  lemma EffectsCompose(v: Vars, mid: Vars, v': Vars)
    requires Effect(v, mid) && Effect(mid, v') && v'.handed == mid.handed
    ensures Effect(v, v')
  {
    BelowTransitive(v.durable, mid.durable, v'.durable);
    if mid.handed != v.handed {
      var e :| mid.handed == v.handed + [e] && !Consumed(e, v.durable) && AllHandled(e, mid.durable);
      AllHandledGrows(e, mid.durable, v'.durable);
      assert v'.handed == v.handed + [e];
    }
  }

  lemma BeginEffect(v: Vars, settings: Settings, loads: bool)
    ensures Effect(v, BeginSpec(v, settings, loads))
  {
  }

  lemma StepEffect(times: Calculator, v: Vars, op: Op, v': Vars)
    requires InSync(v) && Step(times, v, op, v')
    ensures Effect(v, v')
  {
    match op
    case Tick(now, env) =>
      TickEffect(times, v, now, env, v');
    case SkipNext(now, env, save, expected) =>
      var mid :| TickStep(times, v, now, env, mid) && v' == SelectSkip(mid, save, expected);
      TickEffect(times, v, now, env, mid);
      SelectEffect(mid, save, expected);
      EffectsCompose(v, mid, v');
    case Reboot(settings, loads) =>
      BeginEffect(PoweredOn(v.durable, v.handed), settings, loads);
    case Begin(settings, loads) =>
      BeginEffect(v, settings, loads);
    case CancelSkip(save) =>
      if v.storageOk {
        PersistEffect(v, v.state.(skip := None), save);
      }
    case _ =>
  }

  // ---------------------------------------------------------------------------
  // Runs
  // ---------------------------------------------------------------------------

  ghost predicate Run(times: Calculator, vs: seq<Vars>, ops: seq<Op>) {
    |vs| == |ops| + 1 && forall i :: 0 <= i < |ops| ==> Step(times, vs[i], ops[i], vs[i + 1])
  }

  /** Everything handed over is durably consumed, and no two requests share an identity. */
  ghost predicate Protected(v: Vars) {
    && (forall i :: 0 <= i < |v.handed| ==> AllHandled(v.handed[i], v.durable))
    && (forall i, j :: 0 <= i < j < |v.handed| ==> Members(v.handed[i]) !! Members(v.handed[j]))
  }

  lemma EffectProtects(v: Vars, v': Vars)
    requires Protected(v) && Effect(v, v')
    ensures Protected(v')
  {
    forall i | 0 <= i < |v.handed|
      ensures AllHandled(v.handed[i], v'.durable)
    {
      AllHandledGrows(v.handed[i], v.durable, v'.durable);
    }
    if v'.handed != v.handed {
      var e :| v'.handed == v.handed + [e] && !Consumed(e, v.durable) && AllHandled(e, v'.durable);
      ConsumedIffSomeMember(e, v.durable);
      forall i | 0 <= i < |v.handed|
        ensures Members(v.handed[i]) !! Members(e)
      {
        assert AllHandled(v.handed[i], v.durable);
      }
    }
  }

  lemma {:induction false} RunInvariant(times: Calculator, vs: seq<Vars>, ops: seq<Op>, n: nat)
    requires Run(times, vs, ops) && n < |vs| && InSync(vs[0]) && Protected(vs[0])
    ensures InSync(vs[n]) && Protected(vs[n])
  {
    if n > 0 {
      RunInvariant(times, vs, ops, n - 1);
      StepEffect(times, vs[n - 1], ops[n - 1], vs[n]);
      EffectProtects(vs[n - 1], vs[n]);
    }
  }

  /** Durable watermarks never decrease, and requests are only ever added. */
  lemma {:induction false} RunMonotone(times: Calculator, vs: seq<Vars>, ops: seq<Op>, m: nat, n: nat)
    requires Run(times, vs, ops) && m <= n < |vs| && InSync(vs[0]) && Protected(vs[0])
    ensures Below(vs[m].durable, vs[n].durable) && vs[m].handed <= vs[n].handed
  {
    if m < n {
      RunMonotone(times, vs, ops, m, n - 1);
      RunInvariant(times, vs, ops, n - 1);
      StepEffect(times, vs[n - 1], ops[n - 1], vs[n]);
      BelowTransitive(vs[m].durable, vs[n - 1].durable, vs[n].durable);
    }
  }

  /**
   From a new object over any store, no prayer of any day is handed to the player
   twice, whether as the key of a request or as its shared partner, and whatever
   was handed over is already consumed in the store.
   */
  lemma AtMostOnce(times: Calculator, vs: seq<Vars>, ops: seq<Op>, n: nat, i: nat, j: nat, key: EventKey)
    requires Run(times, vs, ops) && n < |vs| && !vs[0].storageOk && vs[0].handed == []
    requires i < |vs[n].handed| && j < |vs[n].handed|
    requires key in Members(vs[n].handed[i]) && key in Members(vs[n].handed[j])
    ensures i == j && Handled(key, vs[n].durable)
  {
    RunInvariant(times, vs, ops, n);
    assert AllHandled(vs[n].handed[i], vs[n].durable);
  }
}
