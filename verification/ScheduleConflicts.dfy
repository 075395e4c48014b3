/**
 What the list of conflicts says about the entries: both come from one window by separate
 loops, and a night is reported exactly for what became of its Isha.
 */
module ScheduleConflicts {
  import opened Wrappers
  import opened Timetable
  import opened PlaybackWindow
  import opened EventFacts
  import opened EntryIdentity

  function IshaOf(day: int): EventKey { EventKey(day, ISHA) }

  function FajrAfter(day: int): EventKey { EventKey(day + 1, FAJR) }

  /** The night that begins on `day` is reported with this resolution. */
  ghost predicate Reported(conflicts: seq<Conflict>, day: int, resolution: Resolution) {
    exists c :: c in conflicts && c.isha == IshaOf(day) && c.fajr == FajrAfter(day) && c.resolution == resolution
  }

  /** Nights are reported in order, so none twice. */
  ghost predicate InOrder(conflicts: seq<Conflict>) {
    forall a, b :: 0 <= a < b < |conflicts| ==> conflicts[a].isha.day < conflicts[b].isha.day
  }

  lemma {:induction false} ListedConflict(s: Slots, today: int, n: nat, c: Conflict)
    requires 6 * n <= |s|
    ensures c in ConflictsBelow(s, today, n) <==> exists d :: 0 <= d < n && ConflictAt(s, today, d) == Some(c)
  {
    if n > 0 {
      ListedConflict(s, today, n - 1, c);
    }
  }

  lemma {:induction false} ReportedInOrder(s: Slots, today: int, n: nat)
    requires 6 * n <= |s|
    ensures InOrder(ConflictsBelow(s, today, n))
    ensures forall c :: c in ConflictsBelow(s, today, n) ==> c.isha.day < today - 2 + n
  {
    if n > 0 {
      ReportedInOrder(s, today, n - 1);
    }
  }

  /** A night is reported as its own slots say. */
  lemma ReportedAt(s: Slots, today: int, d: nat, resolution: Resolution)
    requires |s| == 30 && d < 5
    ensures Reported(ConflictsBelow(s, today, 5), today - 2 + d, resolution) <==>
      ConflictAt(s, today, d).Some? && ConflictAt(s, today, d).value.resolution == resolution
  {
    var day := today - 2 + d;
    if c :| c in ConflictsBelow(s, today, 5) && c.isha == IshaOf(day) && c.fajr == FajrAfter(day) && c.resolution == resolution {
      ListedConflict(s, today, 5, c);
      var i :| 0 <= i < 5 && ConflictAt(s, today, i) == Some(c);
      assert i == d;
    }
    if ConflictAt(s, today, d).Some? {
      ListedConflict(s, today, 5, ConflictAt(s, today, d).value);
    }
  }

  lemma NightSlots(today: int, d: nat)
    requires d < 4
    ensures SlotOf(today, IshaOf(today - 2 + d)) == 6 * d + 5 && SlotOf(today, FajrAfter(today - 2 + d)) == 6 * d + 6
    ensures KeyOf(today, 6 * d + 5) == IshaOf(today - 2 + d) && KeyOf(today, 6 * d + 6) == FajrAfter(today - 2 + d)
  {
    assert (6 * d + 5) / 6 == d && (6 * d + 6) / 6 == d + 1 && (6 * d + 6) % 6 == 0;
  }

  /** Every report is of an Isha that is not before the Fajr after it, with the instants of their slots. */
  lemma ReportedTimes(s: Slots, today: int, c: Conflict)
    requires |s| == 30 && c in ConflictsBelow(s, today, 5)
    ensures c.isha == IshaOf(c.isha.day) && c.fajr == FajrAfter(c.isha.day) && today - 2 <= c.isha.day <= today + 1
    ensures s[SlotOf(today, c.isha)] == Some(c.ishaUtc) && s[SlotOf(today, c.fajr)] == Some(c.fajrUtc)
    ensures c.fajrUtc <= c.ishaUtc && (c.resolution == SharedPlayback <==> c.ishaUtc == c.fajrUtc)
  {
    ListedConflict(s, today, 5, c);
    var d :| 0 <= d < 5 && ConflictAt(s, today, d) == Some(c);
    NightSlots(today, d);
  }

  /** Some entry of the window names these prayers. */
  ghost predicate Named(events: seq<Event>, keys: set<EventKey>) { exists e :: e in events && keys <= Members(e) }

  ghost predicate Disabled(events: seq<Event>, key: EventKey) { exists e :: e in events && key in Members(e) && !e.enabled }

  /** The shared entry of a night, when Isha and Fajr coincide. */
  lemma SharedNight(s: Slots, today: int, enabled: seq<bool>, d: nat)
    requires |s| == 30 && |enabled| == 5 && d < 4 && s[6 * d + 5].Some? && s[6 * d + 5] == s[6 * d + 6]
    ensures exists e :: From(s, today, enabled, 6 * d + 6, e) && {IshaOf(today - 2 + d), FajrAfter(today - 2 + d)} <= Members(e)
  {
    NightSlots(today, d);
    var e := RawEvent(s, today, enabled, 6 * d + 6);
    assert MergedWithIsha(s, 6 * d + 6);
    assert e == Shared(IshaOf(today - 2 + d), FajrAfter(today - 2 + d), s[6 * d + 6].value, enabled);
    assert !MergedIntoFajr(s, 6 * d + 6) && From(s, today, enabled, 6 * d + 6, e);
    assert {IshaOf(today - 2 + d), FajrAfter(today - 2 + d)} <= Members(e);
  }

  /** A night is reported as shared playback exactly when one entry names both of its prayers. */
  lemma SharedExactly(events: seq<Event>, s: Slots, today: int, enabled: seq<bool>, day: int)
    requires |s| == 30 && |enabled| == 5 && Arranged(events, s, today, enabled) && today - 2 <= day <= today + 1
    ensures Reported(ConflictsBelow(s, today, 5), day, SharedPlayback) <==> Named(events, {IshaOf(day), FajrAfter(day)})
  {
    var d := day - today + 2;
    ReportedAt(s, today, d, SharedPlayback);
    NightSlots(today, d);
    if s[6 * d + 5].Some? && s[6 * d + 5] == s[6 * d + 6] {
      SharedNight(s, today, enabled, d);
      var e :| From(s, today, enabled, 6 * d + 6, e) && {IshaOf(day), FajrAfter(day)} <= Members(e);
      ArrangedFrom(events, s, today, enabled, e);
    }
    if e :| e in events && {IshaOf(day), FajrAfter(day)} <= Members(e) {
      assert IshaOf(day) in Members(e) && FajrAfter(day) in Members(e);
      EntryTimes(events, s, today, enabled, e, IshaOf(day));
      EntryTimes(events, s, today, enabled, e, FajrAfter(day));
    }
  }

  /** The entry of an Isha that is alone: disabled exactly when it is late, or by its own setting. */
  lemma IshaEntry(s: Slots, today: int, enabled: seq<bool>, k: int, e: Event, day: int)
    requires |s| == 30 && |enabled| == 5 && From(s, today, enabled, k, e) && IshaOf(day) in Members(e)
    requires today - 1 <= day <= today + 1 && enabled[ISHA]
    ensures e.enabled <==> !LateIshaOf(s, today, day)
  {
    FromFacts(s, today, enabled, k, e);
    NightSlots(today, day - today + 2);
  }

  /** The Isha of `day` comes after the Fajr that follows it. */
  predicate LateIshaOf(s: Slots, today: int, day: int)
    requires |s| == 30 && today - 2 <= day <= today + 1
  {
    var k := 6 * (day - today + 2) + 5;
    s[k].Some? && s[k + 1].Some? && s[k].value > s[k + 1].value
  }

  /** The entry that names an Isha comes from a slot. */
  lemma IshaSource(events: seq<Event>, s: Slots, today: int, enabled: seq<bool>, e: Event, day: int)
    requires |s| == 30 && |enabled| == 5 && Arranged(events, s, today, enabled) && e in events && IshaOf(day) in Members(e)
    requires today - 1 <= day <= today + 1 && enabled[ISHA]
    ensures e.enabled <==> !LateIshaOf(s, today, day)
  {
    ArrangedFrom(events, s, today, enabled, e);
    var k :| From(s, today, enabled, k, e);
    IshaEntry(s, today, enabled, k, e, day);
  }

  lemma DisabledExactly(events: seq<Event>, s: Slots, today: int, enabled: seq<bool>, day: int)
    requires |s| == 30 && |enabled| == 5 && Arranged(events, s, today, enabled)
    requires today - 1 <= day <= today + 1 && enabled[ISHA]
    ensures Disabled(events, IshaOf(day)) <==> LateIshaOf(s, today, day)
  {
    if LateIshaOf(s, today, day) {
      NightSlots(today, day - today + 2);
      CoveredOnce(events, s, today, enabled, IshaOf(day));
      var a :| 0 <= a < |events| && IshaOf(day) in Members(events[a]);
      IshaSource(events, s, today, enabled, events[a], day);
    }
    if e :| e in events && IshaOf(day) in Members(e) && !e.enabled {
      IshaSource(events, s, today, enabled, e, day);
    }
  }

  /** A night of the playback window is reported as suppressed exactly when its Isha is disabled although it is selected. */
  lemma SuppressedExactly(events: seq<Event>, s: Slots, today: int, enabled: seq<bool>, day: int)
    requires |s| == 30 && |enabled| == 5 && Arranged(events, s, today, enabled)
    requires today - 1 <= day <= today + 1 && enabled[ISHA]
    ensures Reported(ConflictsBelow(s, today, 5), day, IshaSuppressed) <==> Disabled(events, IshaOf(day))
  {
    ReportedAt(s, today, day - today + 2, IshaSuppressed);
    DisabledExactly(events, s, today, enabled, day);
  }

  /** Whatever the day a window is built for, it reports a night it holds in the same way. */
  lemma SameNight(times: Calculator, settings: Settings, today: int, today': int, day: int, resolution: Resolution)
    requires Dated(times) && Window(times, settings, today).Some? && Window(times, settings, today').Some?
    requires today - 2 <= day <= today + 1 && today' - 2 <= day <= today' + 1
    ensures Reported(ConflictsBelow(Window(times, settings, today).value, today, 5), day, resolution) <==>
            Reported(ConflictsBelow(Window(times, settings, today').value, today', 5), day, resolution)
  {
    var s, s' := Window(times, settings, today).value, Window(times, settings, today').value;
    var d, d' := day - today + 2, day - today' + 2;
    ReportedAt(s, today, d, resolution);
    ReportedAt(s', today', d', resolution);
    NamedSlot(times, settings, today, IshaOf(day));
    NamedSlot(times, settings, today, FajrAfter(day));
    NamedSlot(times, settings, today', IshaOf(day));
    NamedSlot(times, settings, today', FajrAfter(day));
    NightSlots(today, d);
    NightSlots(today', d');
  }
}
