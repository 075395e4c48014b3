/**
 The dua that may follow an Athan: a facade over the playback backend, driven by ticks. What
 the backend answers is part of each event, and what it is asked is part of each step.
 */
module DuaSequence {
  import opened Wrappers

  const PAUSE_MS := 2000
  const GAP_MS := 3000

  datatype Track = Normal | Fajr | Dua | Preview

  datatype Phase = Idle | Athan | Pause | Playing

  datatype Outcome = Nothing | Completed | Stopped | Failed

  datatype Completion = Completion(epoch: nat, outcome: Outcome)

  /** The backend as one call finds it; `starts` and `next` say how a start would go and the epoch after it. */
  datatype Backend = Backend(volume: Option<nat>, done: Completion, healthy: bool, ready: bool, duaReady: bool, epoch: nat, starts: bool, next: nat)

  datatype Vars = Vars(attached: bool, phase: Phase, enabled: bool, failed: bool, epoch: nat, lastTick: nat, pauseAt: nat)

  datatype Event =
    | Attach
    | Enable(on: bool)
    | Cancel
    | Stop
    | SetVolume(percent: nat)
    | Begin(track: Track, at: Backend)
    | Tick(now: nat, backend: Backend)

  datatype Call = Halt | Play(track: Track)

  datatype Acted = Acted(vars: Vars, calls: seq<Call>)

  function Fresh(): Vars { Vars(false, Idle, false, false, 0, 0, 0) }

  function CancelFollowup(s: Vars): Acted {
    Acted(s.(phase := Idle), if s.phase.Playing? && s.attached then [Halt] else [])
  }

  function Starting(s: Vars, track: Track, b: Backend): Acted {
    if !track.Normal? && !track.Fajr? then Acted(s, [])
    else
      var cancelled := CancelFollowup(s);
      var idle := cancelled.vars.(failed := false);
      if !s.attached then Acted(idle, cancelled.calls)
      else if !b.starts then Acted(idle, cancelled.calls + [Play(track)])
      else
        var armed := s.enabled && b.duaReady && b.volume.Some? && b.volume.value > 0;
        Acted(idle.(epoch := b.next, phase := if armed then Athan else Idle), cancelled.calls + [Play(track)])
  }

  predicate Jumped(s: Vars, now: nat) { now < s.lastTick || (s.lastTick > 0 && now - s.lastTick > GAP_MS) }

  function Ticked(s: Vars, now: nat, b: Backend): Acted {
    var t := s.(lastTick := now);
    if s.phase.Idle? || !s.attached then Acted(t, [])
    else if !s.phase.Pause? && b.done.epoch == s.epoch && !b.done.outcome.Nothing? && !b.done.outcome.Completed? then
      Acted(t.(failed := b.done.outcome.Failed?, phase := Idle), [])
    else if Jumped(s, now) || !s.enabled || !b.healthy || b.volume == Some(0) || b.epoch != s.epoch then CancelFollowup(t)
    else if s.phase.Pause? then
      if now - s.pauseAt < PAUSE_MS then Acted(t, [])
      else if b.volume.None? || !b.ready || !b.duaReady then Acted(t.(failed := true, phase := Idle), [])
      else if !b.starts then Acted(t.(failed := true, phase := Idle), [Play(Dua)])
      else Acted(t.(epoch := b.next, phase := Playing), [Play(Dua)])
    else if b.done.epoch != s.epoch || b.done.outcome.Nothing? then Acted(t, [])
    else if s.phase.Athan? then Acted(t.(phase := Pause, pauseAt := now), [])
    else Acted(t.(phase := Idle), [])
  }

  function Step(s: Vars, e: Event): Acted {
    match e
    case Attach => Acted(s.(attached := true), [])
    case Enable(on) => if on then Acted(s.(enabled := true), []) else CancelFollowup(s.(enabled := false))
    case Cancel => CancelFollowup(s)
    case Stop => Acted(s.(phase := Idle), if s.attached then [Halt] else [])
    case SetVolume(percent) => if percent == 0 then CancelFollowup(s) else Acted(s, [])
    case Begin(track, b) => Starting(s, track, b)
    case Tick(now, b) => Ticked(s, now, b)
  }

  class DuaSequence {
    var attached: bool
    var phase: Phase
    var enabled: bool
    var failed: bool
    var epoch: nat
    var lastTick: nat
    var pauseAt: nat

    ghost function View(): Vars
      reads this
    {
      Vars(attached, phase, enabled, failed, epoch, lastTick, pauseAt)
    }

    constructor ()
      ensures View() == Fresh()
    {
      attached, phase, enabled, failed, epoch, lastTick, pauseAt := false, Idle, false, false, 0, 0, 0;
    }

    method SetBackend()
      modifies `attached
      ensures View() == Step(old(View()), Attach).vars
    {
      attached := true;
    }

    method SetEnabled(on: bool) returns (calls: seq<Call>)
      modifies `enabled, `phase
      ensures Acted(View(), calls) == Step(old(View()), Enable(on))
    {
      enabled := on;
      calls := [];
      if !on {
        calls := CancelDua();
      }
    }

    method CancelDua() returns (calls: seq<Call>)
      modifies `phase
      ensures Acted(View(), calls) == CancelFollowup(old(View()))
    {
      calls := if phase.Playing? && attached then [Halt] else [];
      phase := Idle;
    }

    method StopAll() returns (calls: seq<Call>)
      modifies `phase
      ensures Acted(View(), calls) == Step(old(View()), Stop)
    {
      phase := Idle;
      calls := if attached then [Halt] else [];
    }

    method RequestVolume(percent: nat) returns (calls: seq<Call>)
      modifies `phase
      ensures Acted(View(), calls) == Step(old(View()), SetVolume(percent))
    {
      calls := [];
      if percent == 0 {
        calls := CancelDua();
      }
    }

    method Start(track: Track, b: Backend) returns (ok: bool, calls: seq<Call>)
      modifies `phase, `failed, `epoch
      ensures Acted(View(), calls) == Step(old(View()), Begin(track, b))
      ensures ok <==> (track.Normal? || track.Fajr?) && attached && b.starts
    {
      if !track.Normal? && !track.Fajr? {
        return false, [];
      }
      calls := CancelDua();
      failed := false;
      if !attached {
        return false, calls;
      }
      calls := calls + [Play(track)];
      if !b.starts {
        return false, calls;
      }
      epoch := b.next;
      if enabled && b.duaReady && b.volume.Some? && b.volume.value > 0 {
        phase := Athan;
      }
      ok := true;
    }

    method TickAt(now: nat, b: Backend) returns (calls: seq<Call>)
      modifies `phase, `failed, `epoch, `lastTick, `pauseAt
      ensures Acted(View(), calls) == Step(old(View()), Tick(now, b))
    {
      calls := [];
      var discontinuity := now < lastTick || (lastTick > 0 && now - lastTick > GAP_MS);
      lastTick := now;
      if phase.Idle? || !attached {
        return;
      }
      if !phase.Pause? && b.done.epoch == epoch && !b.done.outcome.Nothing? && !b.done.outcome.Completed? {
        failed, phase := b.done.outcome.Failed?, Idle;
        return;
      }
      if discontinuity || !enabled || !b.healthy || b.volume == Some(0) || b.epoch != epoch {
        calls := CancelDua();
        return;
      }
      if phase.Pause? {
        calls := TickPause(now, b);
        return;
      }
      if b.done.epoch != epoch || b.done.outcome.Nothing? {
        return;
      }
      if phase.Athan? {
        phase, pauseAt := Pause, now;
      } else {
        phase := Idle;
      }
    }

    method TickPause(now: nat, b: Backend) returns (calls: seq<Call>)
      requires phase.Pause?
      modifies `phase, `failed, `epoch
      ensures var s := old(View());
        Acted(View(), calls) ==
          if now - s.pauseAt < PAUSE_MS then Acted(s, [])
          else if b.volume.None? || !b.ready || !b.duaReady then Acted(s.(failed := true, phase := Idle), [])
          else if !b.starts then Acted(s.(failed := true, phase := Idle), [Play(Dua)])
          else Acted(s.(epoch := b.next, phase := Playing), [Play(Dua)])
    {
      calls := [];
      if now - pauseAt < PAUSE_MS {
        return;
      }
      if b.volume.None? || !b.ready || !b.duaReady {
        failed, phase := true, Idle;
        return;
      }
      calls := [Play(Dua)];
      if !b.starts {
        failed, phase := true, Idle;
        return;
      }
      epoch, phase := b.next, Playing;
    }
  }

  // ---------- runs ----------

  /** The state after the first i events, from power-on. */
  function StateAt(events: seq<Event>, i: nat): Vars
    requires i <= |events|
  {
    if i == 0 then Fresh() else Step(StateAt(events, i - 1), events[i - 1]).vars
  }

  /** The backend is asked for the dua by event k. */
  ghost predicate StartsDua(events: seq<Event>, k: nat)
    requires k < |events|
  {
    Play(Dua) in Step(StateAt(events, k), events[k]).calls
  }

  // What the events alone say: whether a backend is attached, the dua selected, and when the last tick came.

  ghost predicate AttachedAt(events: seq<Event>, i: nat)
    requires i <= |events|
  {
    exists j :: 0 <= j < i && events[j].Attach?
  }

  ghost predicate EnabledAt(events: seq<Event>, i: nat)
    requires i <= |events|
  {
    i > 0 && if events[i - 1].Enable? then events[i - 1].on else EnabledAt(events, i - 1)
  }

  ghost function LastTick(events: seq<Event>, i: nat): nat
    requires i <= |events|
  {
    if i == 0 then 0 else if events[i - 1].Tick? then events[i - 1].now else LastTick(events, i - 1)
  }

  lemma {:induction false} StateReads(events: seq<Event>, i: nat)
    requires i <= |events|
    ensures var s := StateAt(events, i);
      s.attached == AttachedAt(events, i) && s.enabled == EnabledAt(events, i) && s.lastTick == LastTick(events, i)
  {
    if i > 0 {
      StateReads(events, i - 1);
      assert AttachedAt(events, i) <==> AttachedAt(events, i - 1) || events[i - 1].Attach?;
      StepReads(StateAt(events, i - 1), events[i - 1]);
    }
  }

  lemma StepReads(s: Vars, e: Event)
    ensures var t := Step(s, e).vars;
      && t.attached == (s.attached || e.Attach?) && t.enabled == (if e.Enable? then e.on else s.enabled)
      && t.lastTick == if e.Tick? then e.now else s.lastTick
  {
  }

  /** An Athan that started with the dua enabled, at hand and audible. */
  ghost predicate ArmsAt(attached: bool, enabled: bool, e: Event) {
    && e.Begin? && (e.track.Normal? || e.track.Fajr?) && e.at.starts
    && attached && enabled && e.at.duaReady && e.at.volume.Some? && e.at.volume.value > 0
  }

  /** Nothing in the event disturbs a follow-up of the epoch; the last tick was at most three seconds ago. */
  ghost predicate CalmAt(enabled: bool, last: nat, e: Event, epoch: nat) {
    && !e.Stop? && !e.Cancel? && !(e.Enable? && !e.on) && !(e.SetVolume? && e.percent == 0)
    && !(e.Begin? && (e.track.Normal? || e.track.Fajr?))
    && (e.Tick? ==>
          && last <= e.now && (last == 0 || e.now - last <= GAP_MS)
          && enabled && e.backend.healthy && e.backend.volume != Some(0) && e.backend.epoch == epoch)
  }

  ghost predicate Arms(events: seq<Event>, a: nat)
    requires a < |events|
  {
    ArmsAt(AttachedAt(events, a), EnabledAt(events, a), events[a])
  }

  ghost predicate Undisturbed(events: seq<Event>, j: nat, epoch: nat)
    requires j < |events|
  {
    CalmAt(EnabledAt(events, j), LastTick(events, j), events[j], epoch)
  }

  /** Event c is the tick that sees the Athan of this epoch completed. */
  ghost predicate Completes(events: seq<Event>, c: nat, epoch: nat)
    requires c < |events|
  {
    events[c].Tick? && events[c].backend.done == Completion(epoch, Completed)
  }

  /** The tick sees the playback of this epoch over, one way or another. */
  ghost predicate Ended(e: Event, epoch: nat) { e.Tick? && e.backend.done.epoch == epoch && !e.backend.done.outcome.Nothing? }

  ghost predicate Since(events: seq<Event>, a: nat, i: nat, epoch: nat)
    requires a < i <= |events|
  {
    (forall j :: a < j < i ==> Undisturbed(events, j, epoch))
    && forall j :: a < j <= i ==> Pending(StateAt(events, j)) && StateAt(events, j).epoch == epoch
  }

  /** Only an attached backend is ever followed up. */
  lemma {:induction false} BusyIsAttached(events: seq<Event>, i: nat)
    requires i <= |events|
    ensures StateAt(events, i).phase.Idle? || StateAt(events, i).attached
  {
    if i > 0 { BusyIsAttached(events, i - 1); }
  }

  lemma ArmsAthan(events: seq<Event>, a: nat)
    requires a < |events| && Arms(events, a)
    ensures StateAt(events, a + 1).phase.Athan? && StateAt(events, a + 1).epoch == events[a].at.next && !events[a].Tick?
  {
    StateReads(events, a);
  }

  lemma AfterDua(events: seq<Event>, k: nat)
    requires k < |events| && StartsDua(events, k)
    ensures StateAt(events, k).phase.Pause? && StateAt(events, k + 1).phase in {Playing, Idle}
  {
  }

  ghost predicate Pending(s: Vars) { s.phase.Athan? || s.phase.Pause? }

  /** A follow-up that was pending and still is. */
  ghost predicate Carried(s: Vars, e: Event, t: Vars) {
    && Pending(s) && s.epoch == t.epoch && CalmAt(s.enabled, s.lastTick, e, t.epoch)
    && (t.phase.Athan? ==> !Ended(e, t.epoch))
    && (if t.phase == s.phase then t.pauseAt == s.pauseAt
        else s.phase.Athan? && e.Tick? && e.backend.done == Completion(t.epoch, Completed) && t.pauseAt == t.lastTick == e.now)
    && (if e.Tick? then s.phase.Pause? ==> s.lastTick <= e.now == t.lastTick < t.pauseAt + PAUSE_MS else t.lastTick == s.lastTick)
  }

  lemma TickCarries(s: Vars, now: nat, b: Backend)
    requires s.phase.Idle? || s.attached
    requires Pending(Ticked(s, now, b).vars)
    ensures Carried(s, Tick(now, b), Ticked(s, now, b).vars)
  {
  }

  lemma StartArms(s: Vars, track: Track, b: Backend)
    requires Pending(Starting(s, track, b).vars)
    ensures var t := Starting(s, track, b).vars;
      (ArmsAt(s.attached, s.enabled, Begin(track, b)) && t.phase.Athan? && t.epoch == b.next) || (t == s && Carried(s, Begin(track, b), t))
  {
  }

  /** What a step that leaves a follow-up pending came from. */
  lemma PendingStep(s: Vars, e: Event)
    requires (s.phase.Idle? || s.attached) && Pending(Step(s, e).vars)
    ensures var t := Step(s, e).vars; (ArmsAt(s.attached, s.enabled, e) && t.phase.Athan? && t.epoch == e.at.next) || Carried(s, e, t)
  {
    match e
    case Tick(now, b) => TickCarries(s, now, b);
    case Begin(track, b) => StartArms(s, track, b);
    case _ =>
  }

  /** A follow-up that is pending after event i was armed by it or carried over it. */
  ghost predicate CarriedOver(events: seq<Event>, i: nat)
    requires i < |events|
  {
    Carried(StateAt(events, i), events[i], StateAt(events, i + 1)) && Undisturbed(events, i, StateAt(events, i + 1).epoch)
  }

  lemma PendingBefore(events: seq<Event>, i: nat)
    requires i < |events| && Pending(StateAt(events, i + 1))
    ensures CarriedOver(events, i) ||
      (Arms(events, i) && StateAt(events, i + 1).phase.Athan? && StateAt(events, i + 1).epoch == events[i].at.next)
  {
    BusyIsAttached(events, i);
    StateReads(events, i);
    PendingStep(StateAt(events, i), events[i]);
  }

  lemma {:induction false} Armed(events: seq<Event>, i: nat) returns (a: nat)
    requires i <= |events| && Pending(StateAt(events, i))
    ensures a < i && Arms(events, a) && events[a].at.next == StateAt(events, i).epoch
    ensures Since(events, a, i, StateAt(events, i).epoch)
  {
    PendingBefore(events, i - 1);
    if CarriedOver(events, i - 1) {
      a := Armed(events, i - 1);
    } else {
      a := i - 1;
    }
  }

  /** While the Athan plays, no tick has seen its end. */
  lemma {:induction false} ArmedAthan(events: seq<Event>, i: nat) returns (a: nat)
    requires i <= |events| && StateAt(events, i).phase.Athan?
    ensures a < i && Arms(events, a) && events[a].at.next == StateAt(events, i).epoch
    ensures forall j :: a < j < i ==> Undisturbed(events, j, StateAt(events, i).epoch) && !Ended(events[j], StateAt(events, i).epoch)
  {
    PendingBefore(events, i - 1);
    if CarriedOver(events, i - 1) {
      a := ArmedAthan(events, i - 1);
    } else {
      a := i - 1;
    }
  }

  /** While pausing, every tick since the completion lies less than the pause after it. */
  lemma {:induction false} Paused(events: seq<Event>, i: nat) returns (c: nat)
    requires i <= |events| && StateAt(events, i).phase.Pause?
    ensures c < i && Completes(events, c, StateAt(events, i).epoch) && StateAt(events, c).phase.Athan?
    ensures StateAt(events, i).pauseAt == events[c].now && StateAt(events, c).epoch == StateAt(events, i).epoch
    ensures forall j :: c < j < i && events[j].Tick? ==> events[j].now < events[c].now + PAUSE_MS
    ensures forall j :: c <= j < i ==> Undisturbed(events, j, StateAt(events, i).epoch)
  {
    PendingBefore(events, i - 1);
    if StateAt(events, i - 1).phase.Pause? {
      c := Paused(events, i - 1);
    } else {
      c := i - 1;
    }
  }

  /**
   An Athan armed by a was seen completed by c, nothing was otherwise heard of its end, nothing
   disturbed the follow-up, and k is the first tick two seconds after, with the backend ready.
   All of this is in the events alone.
   */
  ghost predicate Follows(events: seq<Event>, a: nat, c: nat, k: nat)
    requires k < |events|
  {
    && a < c < k && Arms(events, a) && Completes(events, c, events[a].at.next)
    && (forall j :: a < j <= k ==> Undisturbed(events, j, events[a].at.next))
    && (forall j :: a < j < c ==> !Ended(events[j], events[a].at.next))
    && events[k].Tick? && PAUSE_MS <= events[k].now - events[c].now
    && (forall j :: c < j < k && events[j].Tick? ==> events[j].now - events[c].now < PAUSE_MS)
    && events[k].backend.volume.Some? && events[k].backend.ready && events[k].backend.duaReady
  }

  /** What a step does that asks for the dua. */
  lemma DuaStep(s: Vars, e: Event)
    requires s.phase.Pause? && s.attached && Play(Dua) in Step(s, e).calls
    ensures e.Tick? && CalmAt(s.enabled, s.lastTick, e, s.epoch) && PAUSE_MS <= e.now - s.pauseAt
    ensures e.backend.volume.Some? && e.backend.ready && e.backend.duaReady
  {
  }

  lemma DuaAsked(events: seq<Event>, k: nat)
    requires k < |events| && StartsDua(events, k)
    ensures var s, e := StateAt(events, k), events[k];
      && s.phase.Pause? && s.attached && e.Tick? && Undisturbed(events, k, s.epoch) && PAUSE_MS <= e.now - s.pauseAt
      && e.backend.volume.Some? && e.backend.ready && e.backend.duaReady
  {
    AfterDua(events, k);
    BusyIsAttached(events, k);
    StateReads(events, k);
    DuaStep(StateAt(events, k), events[k]);
  }

  /** Every request for the dua has its Athan and its completion. */
  lemma DuaFollows(events: seq<Event>, k: nat) returns (a: nat, c: nat)
    requires k < |events| && StartsDua(events, k)
    ensures Follows(events, a, c, k)
  {
    DuaAsked(events, k);
    c := Paused(events, k);
    a := ArmedAthan(events, c);
  }

  lemma AthanCarries(s: Vars, e: Event, epoch: nat)
    requires s.phase.Athan? && s.attached && s.epoch == epoch && CalmAt(s.enabled, s.lastTick, e, epoch) && !Ended(e, epoch)
    ensures var t := Step(s, e).vars; t.phase.Athan? && t.epoch == epoch
  {
  }

  lemma AthanCompletes(s: Vars, e: Event, epoch: nat)
    requires s.phase.Athan? && s.attached && s.epoch == epoch && CalmAt(s.enabled, s.lastTick, e, epoch)
    requires e.Tick? && e.backend.done == Completion(epoch, Completed)
    ensures var t := Step(s, e).vars; t.phase.Pause? && t.epoch == epoch && t.pauseAt == e.now
  {
  }

  lemma PauseCarries(s: Vars, e: Event, epoch: nat)
    requires s.phase.Pause? && s.attached && s.epoch == epoch && CalmAt(s.enabled, s.lastTick, e, epoch)
    requires e.Tick? ==> e.now - s.pauseAt < PAUSE_MS
    ensures var t := Step(s, e).vars; t.phase.Pause? && t.epoch == epoch && t.pauseAt == s.pauseAt
  {
  }

  lemma PauseEnds(s: Vars, e: Event, epoch: nat)
    requires s.phase.Pause? && s.attached && s.epoch == epoch && CalmAt(s.enabled, s.lastTick, e, epoch)
    requires e.Tick? && PAUSE_MS <= e.now - s.pauseAt && e.backend.volume.Some? && e.backend.ready && e.backend.duaReady
    ensures Play(Dua) in Step(s, e).calls
  {
  }

  lemma AttachedStays(events: seq<Event>, i: nat, j: nat)
    requires i <= j <= |events| && AttachedAt(events, i)
    ensures StateAt(events, j).attached && AttachedAt(events, j)
  {
    StateReads(events, j);
  }

  lemma AthanOn(events: seq<Event>, i: nat, epoch: nat)
    requires i < |events| && StateAt(events, i).phase.Athan? && StateAt(events, i).epoch == epoch
    requires Undisturbed(events, i, epoch) && !Ended(events[i], epoch)
    ensures StateAt(events, i + 1).phase.Athan? && StateAt(events, i + 1).epoch == epoch
  {
    BusyIsAttached(events, i);
    StateReads(events, i);
    AthanCarries(StateAt(events, i), events[i], epoch);
  }

  lemma {:induction false} WaitsForEnd(events: seq<Event>, a: nat, c: nat, k: nat, i: nat)
    requires k < |events| && Follows(events, a, c, k) && a < i <= c
    ensures StateAt(events, i).phase.Athan? && StateAt(events, i).epoch == events[a].at.next
  {
    if i == a + 1 {
      ArmsAthan(events, a);
    } else {
      WaitsForEnd(events, a, c, k, i - 1);
      AthanOn(events, i - 1, events[a].at.next);
    }
  }

  lemma PauseBegins(events: seq<Event>, a: nat, c: nat, k: nat)
    requires k < |events| && Follows(events, a, c, k)
    ensures var s := StateAt(events, c + 1); s.phase.Pause? && s.epoch == events[a].at.next && s.pauseAt == events[c].now
  {
    AttachedStays(events, a, c);
    StateReads(events, c);
    WaitsForEnd(events, a, c, k, c);
    assert Undisturbed(events, c, events[a].at.next);
    AthanCompletes(StateAt(events, c), events[c], events[a].at.next);
  }

  lemma PauseOn(events: seq<Event>, i: nat, epoch: nat)
    requires i < |events| && StateAt(events, i).phase.Pause? && StateAt(events, i).epoch == epoch && Undisturbed(events, i, epoch)
    requires events[i].Tick? ==> events[i].now - StateAt(events, i).pauseAt < PAUSE_MS
    ensures var s, t := StateAt(events, i), StateAt(events, i + 1);
      t.phase.Pause? && t.epoch == epoch && t.pauseAt == s.pauseAt
  {
    BusyIsAttached(events, i);
    StateReads(events, i);
    PauseCarries(StateAt(events, i), events[i], epoch);
  }

  lemma {:induction false} WaitsForDua(events: seq<Event>, a: nat, c: nat, k: nat, i: nat)
    requires k < |events| && Follows(events, a, c, k) && c < i <= k
    ensures var s := StateAt(events, i); s.phase.Pause? && s.epoch == events[a].at.next && s.pauseAt == events[c].now
  {
    if i == c + 1 {
      PauseBegins(events, a, c, k);
    } else {
      WaitsForDua(events, a, c, k, i - 1);
      PauseOn(events, i - 1, events[a].at.next);
    }
  }

  /** The dua is asked for exactly when it is due to follow. */
  lemma DuaExactly(events: seq<Event>, k: nat)
    requires k < |events|
    ensures StartsDua(events, k) <==> exists a: nat, c: nat :: Follows(events, a, c, k)
  {
    if StartsDua(events, k) {
      var a, c := DuaFollows(events, k);
    }
    if a: nat, c: nat :| Follows(events, a, c, k) {
      assert Undisturbed(events, k, events[a].at.next);
      WaitsForDua(events, a, c, k, k);
      AttachedStays(events, a, k);
      StateReads(events, k);
      PauseEnds(StateAt(events, k), events[k], events[a].at.next);
    }
  }

  /** And never more than five seconds after the completion, if ticks have positive times. */
  lemma DuaSoon(events: seq<Event>, a: nat, c: nat, k: nat)
    requires k < |events| && Follows(events, a, c, k)
    requires forall j :: 0 <= j < |events| && events[j].Tick? ==> events[j].now > 0
    ensures events[k].now - events[c].now < PAUSE_MS + GAP_MS
  {
    LastTickWithin(events, c, k);
    assert Undisturbed(events, k, events[a].at.next);
  }

  lemma {:induction false} LastTickWithin(events: seq<Event>, c: nat, i: nat)
    requires c < i <= |events| && events[c].Tick?
    ensures exists j :: c <= j < i && events[j].Tick? && LastTick(events, i) == events[j].now
  {
    if i > c + 1 {
      LastTickWithin(events, c, i - 1);
    }
  }

  /** No Athan is followed by two duas: between two requests for the dua lies the Athan of the second. */
  lemma OncePerAthan(events: seq<Event>, k: nat, l: nat)
    requires k < l < |events| && StartsDua(events, k) && StartsDua(events, l)
    ensures exists a :: k < a < l && Arms(events, a)
  {
    AfterDua(events, k);
    AfterDua(events, l);
    var a := Armed(events, l);
    if a == k {
      ArmsAthan(events, a);
    }
  }

  /** An Athan is passed on to the backend exactly when one is attached; no other track is. */
  lemma AthanAsked(events: seq<Event>, i: nat)
    requires i < |events| && events[i].Begin?
    ensures Play(events[i].track) in Step(StateAt(events, i), events[i]).calls <==>
      AttachedAt(events, i) && (events[i].track.Normal? || events[i].track.Fajr?)
  {
    StateReads(events, i);
  }

  // ---------- while it plays ----------

  /** The dua asked for by k has started, and up to event i its end was not seen and nothing disturbed it. */
  ghost predicate Plays(events: seq<Event>, k: nat, i: nat)
    requires k < i <= |events|
  {
    && StartsDua(events, k) && events[k].Tick? && events[k].backend.starts
    && forall j :: k < j < i ==> Undisturbed(events, j, events[k].backend.next) && !Ended(events[j], events[k].backend.next)
  }

  lemma DuaStarts(s: Vars, e: Event)
    requires s.phase.Pause? && Play(Dua) in Step(s, e).calls && e.Tick? && e.backend.starts
    ensures Step(s, e).vars.phase.Playing? && Step(s, e).vars.epoch == e.backend.next
  {
  }

  lemma PlayingStep(s: Vars, e: Event, epoch: nat)
    requires s.phase.Playing? && s.attached && s.epoch == epoch && !Ended(e, epoch)
    ensures Halt in Step(s, e).calls <==> !CalmAt(s.enabled, s.lastTick, e, epoch)
    ensures CalmAt(s.enabled, s.lastTick, e, epoch) ==> Step(s, e).vars.phase.Playing? && Step(s, e).vars.epoch == epoch
  {
  }

  lemma PlayBegins(events: seq<Event>, k: nat)
    requires k < |events| && StartsDua(events, k) && events[k].Tick? && events[k].backend.starts
    ensures StateAt(events, k + 1).phase.Playing? && StateAt(events, k + 1).epoch == events[k].backend.next
  {
    AfterDua(events, k);
    DuaStarts(StateAt(events, k), events[k]);
  }

  lemma PlayOn(events: seq<Event>, i: nat, epoch: nat)
    requires i < |events| && StateAt(events, i).phase.Playing? && StateAt(events, i).epoch == epoch && !Ended(events[i], epoch)
    ensures Halt in Step(StateAt(events, i), events[i]).calls <==> !Undisturbed(events, i, epoch)
    ensures Undisturbed(events, i, epoch) ==> StateAt(events, i + 1).phase.Playing? && StateAt(events, i + 1).epoch == epoch
  {
    BusyIsAttached(events, i);
    StateReads(events, i);
    PlayingStep(StateAt(events, i), events[i], epoch);
  }

  lemma {:induction false} StillPlays(events: seq<Event>, k: nat, i: nat)
    requires k < i <= |events| && Plays(events, k, i)
    ensures StateAt(events, i).phase.Playing? && StateAt(events, i).epoch == events[k].backend.next
  {
    if i == k + 1 {
      PlayBegins(events, k);
    } else {
      StillPlays(events, k, i - 1);
      PlayOn(events, i - 1, events[k].backend.next);
    }
  }

  /** A dua that plays is stopped by exactly what disturbs it. */
  lemma DuaHaltsExactly(events: seq<Event>, k: nat, i: nat)
    requires k < i < |events| && Plays(events, k, i) && !Ended(events[i], events[k].backend.next)
    ensures Halt in Step(StateAt(events, i), events[i]).calls <==> !Undisturbed(events, i, events[k].backend.next)
  {
    StillPlays(events, k, i);
    PlayOn(events, i, events[k].backend.next);
  }
}
