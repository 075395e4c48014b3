/**
 The prayer scheduler as a transition system over `Vars`, and the class that
 implements it. The environment (clock samples, whether the store and the player
 answer) enters as parameters of each operation. `durable` is what the store holds
 and `handed` lists every event passed to `playback.start`, accepted or not.
 */
module SchedulerCore {
  import opened Wrappers
  import opened Timetable
  import opened PlaybackWindow

  const NEVER_CONSUMED := -0x8000_0000

  /** The last consumed day of each prayer. */
  type Watermarks = w: seq<int> | |w| == 5
    witness [NEVER_CONSUMED, NEVER_CONSUMED, NEVER_CONSUMED, NEVER_CONSUMED, NEVER_CONSUMED]

  datatype DurableState = DurableState(consumed: Watermarks, skip: Option<EventKey>)

  const EMPTY_STATE := DurableState(
    [NEVER_CONSUMED, NEVER_CONSUMED, NEVER_CONSUMED, NEVER_CONSUMED, NEVER_CONSUMED], None)

  datatype Fault = NoFault | InvalidSettings | InvalidSchedule | Storage | AudioUnavailable | PlaybackRejected

  datatype ClockSample = ClockSample(valid: bool, utc: int, monotonicMs: nat, localDate: int, subsecondMs: nat)

  /** A save is acknowledged, or fails with either the old or the new record left in the store. */
  datatype Save = Stored | Lost | StoredUnacknowledged

  datatype Env = Env(save: Save, ready: bool, accepts: bool)

  datatype Vars = Vars(
    settings: Settings, state: DurableState, events: seq<Event>, conflicts: seq<Conflict>,
    next: Option<Event>, previous: ClockSample, builtDay: int,
    storageOk: bool, configured: bool, armed: bool, clockReady: bool, playbackAllowed: bool, fault: Fault,
    durable: DurableState, handed: seq<Event>)

  // ---------------------------------------------------------------------------
  // Consumption
  // ---------------------------------------------------------------------------

  function Max(a: int, b: int): int { if a < b then b else a }

  predicate Matches(e: Event, key: EventKey) { e.key == key || e.sharedWith == Some(key) }

  predicate Handled(key: EventKey, st: DurableState) { key.day <= st.consumed[key.prayer] }

  predicate Consumed(e: Event, st: DurableState) {
    Handled(e.key, st) || (e.sharedWith.Some? && Handled(e.sharedWith.value, st))
  }

  function ConsumeKey(st: DurableState, key: EventKey): DurableState {
    st.(consumed := st.consumed[key.prayer := Max(st.consumed[key.prayer], key.day)])
  }

  function ConsumeEvent(st: DurableState, e: Event): DurableState {
    var own := ConsumeKey(st, e.key);
    if e.sharedWith.Some? then ConsumeKey(own, e.sharedWith.value) else own
  }

  function RaiseAll(st: DurableState, floor: int): DurableState {
    st.(consumed := seq(5, i requires 0 <= i < 5 => Max(st.consumed[i], floor)))
  }

  // ---------------------------------------------------------------------------
  // One tick
  // ---------------------------------------------------------------------------

  predicate ClockReady(now: ClockSample) { now.valid && ValidDate(now.localDate) && now.subsecondMs < 1000 }

  function Abs(x: int): int { if x < 0 then -x else x }

  /** The two samples are at most a normal polling gap apart, with wall clock and monotonic clock agreeing. */
  predicate Continuous(armed: bool, previous: ClockSample, now: ClockSample) {
    var utcDelta := now.utc - previous.utc;
    var elapsed := now.monotonicMs - previous.monotonicMs;
    var wall := utcDelta * 1000 + now.subsecondMs - previous.subsecondMs;
    armed && 0 <= elapsed <= 3000 && 0 <= utcDelta <= 4 && 0 <= wall && Abs(wall - elapsed) <= 250
  }

  /** Crossed since the previous sample, at most two seconds late, wanted and not yet consumed. */
  predicate IsDue(e: Event, st: DurableState, previousUtc: int, now: ClockSample, continuous: bool) {
    && !Consumed(e, st) && continuous && previousUtc < e.utc
    && (now.utc - e.utc) * 1000 + now.subsecondMs <= 2000
    && e.enabled && !(st.skip.Some? && Matches(e, st.skip.value))
  }

  datatype Scanned = Scanned(state: DurableState, due: Option<Event>)

  /** The consuming loop over the first `n` events. */
  function Scan(events: seq<Event>, n: nat, st: DurableState, previousUtc: int, now: ClockSample, continuous: bool): Scanned
    requires n <= |events|
  {
    if n == 0 then Scanned(st, None)
    else
      var r := Scan(events, n - 1, st, previousUtc, now, continuous);
      var e := events[n - 1];
      if now.utc < e.utc then r
      else Scanned(ConsumeEvent(r.state, e), if IsDue(e, r.state, previousUtc, now, continuous) then Some(e) else r.due)
  }

  predicate AwaitsSkip(e: Event, st: DurableState, nowUtc: int) {
    st.skip.Some? && Matches(e, st.skip.value) && e.enabled && nowUtc < e.utc && !Consumed(e, st)
  }

  /** A pending skip is dropped once its date is evaluated without an upcoming event for it. */
  function SettleSkip(st: DurableState, events: seq<Event>, nowUtc: int, today: int): DurableState {
    if st.skip.Some? && st.skip.value.day <= today + 1 && !(exists e :: e in events && AwaitsSkip(e, st, nowUtc))
    then st.(skip := None) else st
  }

  /** The first enabled, unconsumed event after `nowUtc` from position `i` on. */
  function NextFrom(events: seq<Event>, i: nat, st: DurableState, nowUtc: int): Option<Event>
    requires i <= |events|
    decreases |events| - i
  {
    if i == |events| then None
    else if events[i].enabled && nowUtc < events[i].utc && !Consumed(events[i], st) then Some(events[i])
    else NextFrom(events, i + 1, st, nowUtc)
  }

  function PersistSpec(v: Vars, candidate: DurableState, save: Save): Vars {
    if candidate == v.state then v
    else if save == Stored then v.(state := candidate, durable := candidate)
    else v.(storageOk := false, armed := false, next := None, fault := Storage,
            durable := if save.Lost? then v.durable else candidate)
  }

  predicate Persisted(v: Vars, candidate: DurableState, save: Save) { candidate == v.state || save == Stored }

  /** The rebuild at the head of a tick; `arranged` is the order its sort leaves. */
  ghost function RebuildSpec(times: Calculator, v: Vars, today: int, arranged: seq<Event>): Vars {
    if CanBuild(times, v.settings, today)
    then v.(builtDay := today, events := arranged,
            conflicts := ConflictsBelow(Window(times, v.settings, today).value, today, WINDOW_DAYS))
    else v.(builtDay := NEVER_CONSUMED, events := [], conflicts := [])
  }

  /** The state after consumption, skip settling and saving, given the timetable in `v`. */
  function CandidateSpec(v: Vars, now: ClockSample, continuous: bool): Scanned {
    var r := Scan(v.events, |v.events|, RaiseAll(v.state, now.localDate - 2), v.previous.utc, now, continuous);
    Scanned(SettleSkip(r.state, v.events, now.utc, now.localDate), r.due)
  }

  function PlaySpec(v: Vars, due: Option<Event>, env: Env): Vars {
    if !v.playbackAllowed || !env.ready then v.(fault := AudioUnavailable)
    else
      var w := if v.fault == AudioUnavailable then v.(fault := NoFault) else v;
      if due.None? then w
      else w.(handed := w.handed + [due.value], fault := if env.accepts then NoFault else PlaybackRejected)
  }

  /** Save first; only an acknowledged save re-arms and may start playback. */
  function CommitWith(v: Vars, r: Scanned, now: ClockSample, env: Env): Vars {
    var saved := PersistSpec(v, r.state, env.save);
    if !Persisted(v, r.state, env.save) then saved
    else
      PlaySpec(saved.(previous := now, armed := true, next := NextFrom(saved.events, 0, saved.state, now.utc)), r.due, env)
  }

  function CommitSpec(v: Vars, now: ClockSample, continuous: bool, env: Env): Vars {
    CommitWith(v, CandidateSpec(v, now, continuous), now, env)
  }

  ghost predicate HasTimetable(times: Calculator, v: Vars, today: int) {
    v.builtDay == today || CanBuild(times, v.settings, today)
  }

  /** The timetable a tick of `today` works with, or the fault when the day cannot be built. */
  ghost function TimetableSpec(times: Calculator, v: Vars, today: int, arranged: seq<Event>): Vars {
    if v.builtDay == today then v
    else
      var built := RebuildSpec(times, v, today, arranged);
      if CanBuild(times, v.settings, today) then built.(fault := NoFault)
      else built.(next := None, armed := false, fault := InvalidSchedule)
  }

  ghost function TickSpec(times: Calculator, v: Vars, now: ClockSample, env: Env, arranged: seq<Event>): Vars {
    var seen := v.(clockReady := ClockReady(now));
    if !Processes(v, now) then seen.(armed := false, next := None)
    else
      var ready := TimetableSpec(times, seen, now.localDate, arranged);
      if !HasTimetable(times, v, now.localDate) then ready
      else CommitSpec(ready, now, Continuous(v.armed, v.previous, now), env)
  }

  predicate Processes(v: Vars, now: ClockSample) { ClockReady(now) && v.configured && v.storageOk }

  /** If this tick rebuilds, `arranged` is a legal outcome of its sort: equal instants may fall either way. */
  ghost predicate Arranges(times: Calculator, v: Vars, now: ClockSample, arranged: seq<Event>) {
    Processes(v, now) && v.builtDay != now.localDate && CanBuild(times, v.settings, now.localDate) ==>
      && |v.settings.enabled| == 5
      && Arranged(arranged, Window(times, v.settings, now.localDate).value, now.localDate, v.settings.enabled)
  }

  ghost predicate TickStep(times: Calculator, v: Vars, now: ClockSample, env: Env, v': Vars) {
    exists arranged :: Arranges(times, v, now, arranged) && v' == TickSpec(times, v, now, env, arranged)
  }

  // ---------------------------------------------------------------------------
  // The other operations
  // ---------------------------------------------------------------------------

  function ForgetSpec(v: Vars): Vars {
    v.(armed := false, builtDay := NEVER_CONSUMED, next := None, events := [], conflicts := [], configured := false)
  }

  function ConfigureSpec(v: Vars, settings: Settings): Vars {
    var w := ForgetSpec(v);
    if !ValidSettings(settings) then w.(fault := if v.storageOk then InvalidSettings else Storage)
    else w.(settings := settings, configured := true, fault := if v.storageOk then NoFault else Storage)
  }

  /** `loads` is false exactly when reading the store fails; an absent record reads as the empty state. */
  function BeginSpec(v: Vars, settings: Settings, loads: bool): Vars {
    var w := v.(storageOk := loads, state := if loads then v.durable else EMPTY_STATE);
    ConfigureSpec(if loads then w else w.(fault := Storage), settings)
  }

  predicate SameOccurrence(a: Event, b: Event) { a.key == b.key && a.utc == b.utc && a.sharedWith == b.sharedWith }

  predicate SkipAdmitted(v: Vars, expected: Option<Event>) {
    v.storageOk && v.armed && v.next.Some? && (expected.Some? ==> SameOccurrence(expected.value, v.next.value))
  }

  /** The answer of `skip_next`: something is shown, it is what was expected, and a skip is stored. */
  predicate SkipGranted(v: Vars, save: Save, expected: Option<Event>) {
    && v.storageOk && v.armed && v.next.Some?
    && (expected.Some? ==> expected.value == v.next.value.(enabled := expected.value.enabled))
    && (v.state.skip.Some? || save == Stored)
  }

  /** What `skip_next` does after its tick. */
  function SelectSkip(v: Vars, save: Save, expected: Option<Event>): Vars {
    if !SkipAdmitted(v, expected) || v.state.skip.Some? then v
    else PersistSpec(v, v.state.(skip := Some(v.next.value.key)), save)
  }

  function CancelSpec(v: Vars, save: Save): Vars {
    if !v.storageOk then v else PersistSpec(v, v.state.(skip := None), save)
  }

  function BlockSpec(v: Vars): Vars { v.(storageOk := false, armed := false, next := None, fault := Storage) }

  /** A freshly constructed scheduler over the surviving store. */
  function PoweredOn(durable: DurableState, handed: seq<Event>): Vars {
    Vars(Settings(0.0, 0.0, 0, false, 3, [0, 0, 0, 0, 0, 0], [true, true, true, true, true]),
         EMPTY_STATE, [], [], None, ClockSample(false, 0, 0, 0, 0), NEVER_CONSUMED,
         false, false, false, false, true, NoFault, durable, handed)
  }

  datatype Op =
    | Reboot(settings: Settings, loads: bool)
    | Begin(settings: Settings, loads: bool)
    | Configure(settings: Settings)
    | Tick(now: ClockSample, env: Env)
    | SkipNext(now: ClockSample, env: Env, save: Save, expected: Option<Event>)
    | CancelSkip(save: Save)
    | BlockStorage
    | AllowPlayback(allowed: bool)

  ghost predicate Step(times: Calculator, v: Vars, op: Op, v': Vars) {
    match op
    case Reboot(settings, loads) => v' == BeginSpec(PoweredOn(v.durable, v.handed), settings, loads)
    case Begin(settings, loads) => v' == BeginSpec(v, settings, loads)
    case Configure(settings) => v' == ConfigureSpec(v, settings)
    case Tick(now, env) => TickStep(times, v, now, env, v')
    case SkipNext(now, env, save, expected) =>
      exists mid :: TickStep(times, v, now, env, mid) && v' == SelectSkip(mid, save, expected)
    case CancelSkip(save) => v' == CancelSpec(v, save)
    case BlockStorage => v' == BlockSpec(v)
    case AllowPlayback(allowed) => v' == v.(playbackAllowed := allowed)
  }

  /** The cached timetable is a legal one for the cached day. */
  ghost predicate Consistent(times: Calculator, v: Vars) {
    TimetableOk(times, v.configured, v.settings, v.builtDay, v.events, v.conflicts)
  }

  ghost predicate TimetableOk(times: Calculator, configured: bool, settings: Settings, builtDay: int,
                              events: seq<Event>, conflicts: seq<Conflict>)
  {
    && (configured ==> ValidSettings(settings))
    && (builtDay != NEVER_CONSUMED ==>
          && configured && ValidDate(builtDay) && CanBuild(times, settings, builtDay)
          && Arranged(events, Window(times, settings, builtDay).value, builtDay, settings.enabled)
          && conflicts == ConflictsBelow(Window(times, settings, builtDay).value, builtDay, WINDOW_DAYS))
  }

  lemma ConfigureConsistent(times: Calculator, v: Vars, settings: Settings)
    ensures Consistent(times, ConfigureSpec(v, settings))
  {
  }

  predicate SameTimetable(v: Vars, w: Vars) {
    v.configured == w.configured && v.settings == w.settings && v.builtDay == w.builtDay
    && v.events == w.events && v.conflicts == w.conflicts
  }

  lemma PlayKeepsTimetable(v: Vars, due: Option<Event>, env: Env)
    ensures SameTimetable(v, PlaySpec(v, due, env))
  {
  }

  lemma PersistKeepsTimetable(v: Vars, candidate: DurableState, save: Save)
    ensures SameTimetable(v, PersistSpec(v, candidate, save))
  {
  }

  lemma SelectKeepsTimetable(v: Vars, save: Save, expected: Option<Event>)
    ensures SameTimetable(v, SelectSkip(v, save, expected))
  {
  }

  lemma CommitWithKeepsTimetable(v: Vars, r: Scanned, now: ClockSample, env: Env)
    ensures SameTimetable(v, CommitWith(v, r, now, env))
  {
    var saved := PersistSpec(v, r.state, env.save);
    PersistKeepsTimetable(v, r.state, env.save);
    var next := NextFrom(saved.events, 0, saved.state, now.utc);
    PlayKeepsTimetable(saved.(previous := now, armed := true, next := next), r.due, env);
  }

  /** Committing a tick changes consumption and playback, never the timetable. */
  lemma CommitKeepsTimetable(v: Vars, now: ClockSample, continuous: bool, env: Env)
    ensures SameTimetable(v, CommitSpec(v, now, continuous, env))
  {
    CommitWithKeepsTimetable(v, CandidateSpec(v, now, continuous), now, env);
  }

  lemma SameTimetableConsistent(times: Calculator, v: Vars, w: Vars)
    requires SameTimetable(v, w) && Consistent(times, v)
    ensures Consistent(times, w)
  {
  }

  // ---------------------------------------------------------------------------
  // The class
  // ---------------------------------------------------------------------------

  class Scheduler {
    const times: Calculator
    var settings: Settings
    var state: DurableState
    var events: seq<Event>
    var conflicts: seq<Conflict>
    var next: Option<Event>
    var previous: ClockSample
    var builtDay: int
    var storageOk: bool
    var configured: bool
    var armed: bool
    var clockReady: bool
    var playbackAllowed: bool
    var fault: Fault
    // The world outside the object: the store's record and the player's request log.
    var durable: DurableState
    var handed: seq<Event>

    ghost function Snapshot(): Vars
      reads this
    {
      Vars(settings, state, events, conflicts, next, previous, builtDay, storageOk, configured, armed,
           clockReady, playbackAllowed, fault, durable, handed)
    }

    ghost predicate Valid()
      reads this
    {
      Consistent(times, Snapshot())
    }

    constructor (times: Calculator, durable: DurableState, handed: seq<Event>)
      ensures this.times == times && Valid()
      ensures Snapshot() == PoweredOn(durable, handed)
    {
      this.times := times;
      settings := Settings(0.0, 0.0, 0, false, 3, [0, 0, 0, 0, 0, 0], [true, true, true, true, true]);
      state, events, conflicts, next := EMPTY_STATE, [], [], None;
      previous, builtDay := ClockSample(false, 0, 0, 0, 0), NEVER_CONSUMED;
      storageOk, configured, armed, clockReady, playbackAllowed := false, false, false, false, true;
      fault := NoFault;
      this.durable, this.handed := durable, handed;
    }

    method Begin(candidate: Settings, loads: bool) returns (ok: bool)
      modifies this
      ensures Valid() && Snapshot() == BeginSpec(old(Snapshot()), candidate, loads)
      ensures ok == (configured && storageOk)
    {
      state := EMPTY_STATE;
      if loads {
        state := durable;
      }
      storageOk := loads;
      if !storageOk {
        fault := Storage;
      }
      ok := Configure(candidate);
      ok := ok && storageOk;
    }

    method Configure(candidate: Settings) returns (ok: bool)
      modifies this
      ensures Valid() && Snapshot() == ConfigureSpec(old(Snapshot()), candidate)
      ensures ok == configured
    {
      ConfigureConsistent(times, Snapshot(), candidate);
      Forget();
      ok := ValidSettings(candidate);
      if !ok {
        fault := if storageOk then InvalidSettings else Storage;
        return;
      }
      settings := candidate;
      configured := true;
      fault := if storageOk then NoFault else Storage;
    }

    method Forget()
      modifies this
      ensures Snapshot() == ForgetSpec(old(Snapshot()))
    {
      armed := false;
      builtDay := NEVER_CONSUMED;
      next := None;
      events, conflicts := [], [];
      configured := false;
    }

    method Block()
      requires Valid()
      modifies this
      ensures Valid() && Snapshot() == BlockSpec(old(Snapshot()))
    {
      storageOk := false;
      armed := false;
      next := None;
      fault := Storage;
    }

    method Rebuild(today: int) returns (ok: bool)
      requires |settings.enabled| == 5
      modifies this
      ensures ok == CanBuild(times, settings, today)
      ensures Snapshot() == RebuildSpec(times, old(Snapshot()), today, events)
      ensures ok ==> Arranged(events, Window(times, settings, today).value, today, settings.enabled)
    {
      builtDay := NEVER_CONSUMED;
      events, conflicts := [], [];
      var days := FetchWindow(times, settings, today);
      if days.None? {
        return false;
      }
      var unordered, found := Collect(days.value, today, settings.enabled);
      events := SortByTime(unordered);
      conflicts := found;
      builtDay := today;
      return true;
    }

    method Persist(candidate: DurableState, save: Save) returns (ok: bool)
      modifies this
      ensures Snapshot() == PersistSpec(old(Snapshot()), candidate, save)
      ensures ok == Persisted(old(Snapshot()), candidate, save)
    {
      if candidate == state {
        return true;
      }
      durable := if save.Lost? then durable else candidate;
      if save != Stored {
        storageOk := false;
        armed := false;
        next := None;
        fault := Storage;
        return false;
      }
      state := candidate;
      return true;
    }

    method RefreshNext(nowUtc: int)
      modifies this`next
      ensures next == NextFrom(events, 0, state, nowUtc)
    {
      next := None;
      var i := 0;
      while i < |events|
        invariant i <= |events| && next == None
        invariant NextFrom(events, 0, state, nowUtc) == NextFrom(events, i, state, nowUtc)
      {
        if events[i].enabled && nowUtc < events[i].utc && !Consumed(events[i], state) {
          next := Some(events[i]);
          return;
        }
        i := i + 1;
      }
    }

    /** The loop that consumes past events and picks the one due. */
    method Consume(now: ClockSample, continuous: bool) returns (candidate: DurableState, due: Option<Event>)
      ensures Scanned(candidate, due) == CandidateSpec(Snapshot(), now, continuous)
    {
      var today := now.localDate;
      var raised := state.consumed;
      for p := 0 to 5
        invariant |raised| == 5
        invariant forall i :: 0 <= i < 5 ==> raised[i] == if i < p then Max(state.consumed[i], today - 2) else state.consumed[i]
      {
        raised := raised[p := Max(raised[p], today - 2)];
      }
      candidate := state.(consumed := raised);
      assert candidate == RaiseAll(state, today - 2);
      due := None;
      for i := 0 to |events|
        invariant Scanned(candidate, due) == Scan(events, i, RaiseAll(state, today - 2), previous.utc, now, continuous)
      {
        var event := events[i];
        if event.utc <= now.utc {
          if IsDue(event, candidate, previous.utc, now, continuous) {
            due := Some(event);
          }
          candidate := ConsumeKey(candidate, event.key);
          if event.sharedWith.Some? {
            candidate := ConsumeKey(candidate, event.sharedWith.value);
          }
        }
      }
      if candidate.skip.Some? {
        var found := false;
        var i := 0;
        while i < |events| && !found
          invariant i <= |events|
          invariant found <==> exists j :: 0 <= j < i && AwaitsSkip(events[j], candidate, now.utc)
        {
          found := AwaitsSkip(events[i], candidate, now.utc);
          i := i + 1;
        }
        if !found && candidate.skip.value.day <= today + 1 {
          candidate := candidate.(skip := None);
        }
      }
    }

    method Commit(now: ClockSample, continuous: bool, env: Env)
      modifies this
      ensures Snapshot() == CommitSpec(old(Snapshot()), now, continuous, env)
    {
      var candidate, due := Consume(now, continuous);
      var ok := Persist(candidate, env.save);
      if !ok {
        return;
      }
      ghost var saved := Snapshot();
      previous := now;
      armed := true;
      RefreshNext(now.utc);
      assert Snapshot() == saved.(previous := now, armed := true, next := NextFrom(saved.events, 0, saved.state, now.utc));
      Play(due, env);
    }

    method Play(due: Option<Event>, env: Env)
      modifies this`fault, this`handed
      ensures Snapshot() == PlaySpec(old(Snapshot()), due, env)
    {
      if !playbackAllowed || !env.ready {
        fault := AudioUnavailable;
        return;
      }
      if fault == AudioUnavailable {
        fault := NoFault;
      }
      if due.Some? {
        handed := handed + [due.value];
        fault := if env.accepts then NoFault else PlaybackRejected;
      }
    }

    method EnsureTimetable(today: int) returns (ok: bool)
      requires Valid() && configured && ValidDate(today)
      modifies this
      ensures Valid() && ok == HasTimetable(times, old(Snapshot()), today)
      ensures Snapshot() == TimetableSpec(times, old(Snapshot()), today, events)
      ensures old(builtDay) != today && ok ==>
        Arranged(events, Window(times, old(settings), today).value, today, old(settings).enabled)
    {
      if builtDay == today {
        return true;
      }
      ok := Rebuild(today);
      ghost var built := Snapshot();
      assert built == RebuildSpec(times, old(Snapshot()), today, events);
      if !ok {
        events := [];
        next := None;
        armed := false;
        fault := InvalidSchedule;
        return false;
      }
      fault := NoFault;
      return true;
    }

    method Tick(now: ClockSample, env: Env)
      requires Valid()
      modifies this
      ensures Valid() && TickStep(times, old(Snapshot()), now, env, Snapshot())
    {
      ghost var before := Snapshot();
      clockReady := ClockReady(now);
      ghost var seen := Snapshot();
      assert seen == before.(clockReady := clockReady);
      if !clockReady || !configured || !storageOk {
        armed := false;
        next := None;
        assert Arranges(times, before, now, []);
        assert Snapshot() == TickSpec(times, before, now, env, []);
        return;
      }
      var continuous := Continuous(armed, previous, now);
      var ok := EnsureTimetable(now.localDate);
      ghost var arranged := events;
      assert Arranges(times, before, now, arranged);
      if ok {
        ghost var ready := Snapshot();
        Commit(now, continuous, env);
        CommitKeepsTimetable(ready, now, continuous, env);
        SameTimetableConsistent(times, ready, Snapshot());
        assert ready == TimetableSpec(times, seen, now.localDate, arranged);
      }
      assert Snapshot() == TickSpec(times, before, now, env, arranged);
    }

    method SkipNext(now: ClockSample, env: Env, save: Save, expected: Option<Event>) returns (ok: bool)
      requires Valid()
      modifies this
      ensures Valid() && Step(times, old(Snapshot()), Op.SkipNext(now, env, save, expected), Snapshot())
      ensures exists mid :: TickStep(times, old(Snapshot()), now, env, mid)
                && Snapshot() == SelectSkip(mid, save, expected) && ok == SkipGranted(mid, save, expected)
    {
      Tick(now, env);
      ghost var mid := Snapshot();
      ok := Select(save, expected);
      SelectKeepsTimetable(mid, save, expected);
    }

    method Select(save: Save, expected: Option<Event>) returns (ok: bool)
      modifies this
      ensures Snapshot() == SelectSkip(old(Snapshot()), save, expected)
      ensures ok == old(SkipGranted(Snapshot(), save, expected))
    {
      if !storageOk || !armed || next.None? {
        return false;
      }
      if expected.Some? && !SameOccurrence(expected.value, next.value) {
        return false;
      }
      if state.skip.Some? {
        return true;
      }
      ok := Persist(state.(skip := Some(next.value.key)), save);
    }

    method CancelSkip(save: Save) returns (ok: bool)
      requires Valid()
      modifies this
      ensures Valid() && Snapshot() == CancelSpec(old(Snapshot()), save)
      ensures ok <==> old(storageOk && (state.skip.None? || save == Stored))
      ensures ok ==> state == old(state).(skip := None)
    {
      if !storageOk {
        return false;
      }
      ok := Persist(state.(skip := None), save);
    }
  }
}
