/**
 From five calculated days to the playback events of a window: fetching and
 validating the days, merging coincident Isha/Fajr pairs, suppressing late Isha,
 and ordering what is left by instant.
 */
module PlaybackWindow {
  import opened Wrappers
  import opened Timetable

  // ---------------------------------------------------------------------------
  // The calculated window
  // ---------------------------------------------------------------------------

  /** Day `d` of the window; a guard day outside the supported dates is empty, not refused. */
  function FetchDay(times: Calculator, settings: Settings, today: int, d: nat): Option<PrayerDay> {
    if !ValidDate(today - 2 + d) && (d == 0 || d == 4) then Some([None, None, None, None, None, None])
    else times(settings, today - 2 + d)
  }

  function FetchBelow(times: Calculator, settings: Settings, today: int, n: nat): (r: Option<Slots>)
    ensures r.Some? ==> |r.value| == 6 * n
  {
    if n == 0 then Some([])
    else
      var before := FetchBelow(times, settings, today, n - 1);
      var day := FetchDay(times, settings, today, n - 1);
      if before.None? || day.None? then None else Some(before.value + day.value)
  }

  function Window(times: Calculator, settings: Settings, today: int): (r: Option<Slots>)
    ensures r.Some? ==> |r.value| == 30
  {
    FetchBelow(times, settings, today, WINDOW_DAYS)
  }

  ghost predicate CanBuild(times: Calculator, settings: Settings, today: int) {
    var w := Window(times, settings, today);
    w.Some? && Acceptable(w.value)
  }

  lemma {:induction false} FetchedPrefix(times: Calculator, settings: Settings, today: int, n: nat, m: nat)
    requires n <= m && FetchBelow(times, settings, today, m).Some?
    ensures FetchBelow(times, settings, today, n).Some?
    ensures FetchBelow(times, settings, today, n).value <= FetchBelow(times, settings, today, m).value
    decreases m
  {
    if n < m {
      FetchedPrefix(times, settings, today, n, m - 1);
    }
  }

  /** Slot `k` of a fetched window is prayer time `k % 6` of the day it belongs to. */
  lemma {:induction false} FetchedSlot(times: Calculator, settings: Settings, today: int, n: nat, k: nat)
    requires FetchBelow(times, settings, today, n).Some? && k < 6 * n
    ensures FetchDay(times, settings, today, k / 6).Some?
    ensures FetchBelow(times, settings, today, n).value[k] == FetchDay(times, settings, today, k / 6).value[k % 6]
  {
    if k < 6 * (n - 1) {
      FetchedSlot(times, settings, today, n - 1, k);
    } else {
      assert k / 6 == n - 1 && k % 6 == k - 6 * (n - 1);
    }
  }

  /** A calculator for which the window of `today` is `s`. */
  function Replay(s: Slots, today: int): Calculator
    requires |s| == 30
  {
    (settings, day) => if today - 2 <= day <= today + 2 then Some(s[6 * (day - today + 2)..6 * (day - today + 2) + 6]) else None
  }

  lemma {:induction false} ReplayedBelow(s: Slots, today: int, settings: Settings, n: nat)
    requires |s| == 30 && ValidDate(today - 2) && ValidDate(today + 2) && n <= WINDOW_DAYS
    ensures FetchBelow(Replay(s, today), settings, today, n) == Some(s[..6 * n])
  {
    if n > 0 {
      ReplayedBelow(s, today, settings, n - 1);
      assert s[..6 * n] == s[..6 * (n - 1)] + s[6 * (n - 1)..6 * n];
    }
  }

  /** Any thirty slots are the window of some calculator. */
  lemma ReplayedWindow(s: Slots, today: int, settings: Settings)
    requires |s| == 30 && ValidDate(today - 2) && ValidDate(today + 2)
    ensures Window(Replay(s, today), settings, today) == Some(s)
  {
    ReplayedBelow(s, today, settings, WINDOW_DAYS);
    assert s[..30] == s;
  }

  // ---------------------------------------------------------------------------
  // Validation loop
  // ---------------------------------------------------------------------------

  lemma StepStable(s: Slots, t: Slots, j: int, k: int)
    requires s <= t && |s| % 6 == 0 && k < |s|
    ensures Adjacent(s, j, k) == Adjacent(t, j, k)
    ensures Adjacent(s, j, k) ==> StepAllowed(s, j, k) == StepAllowed(t, j, k)
  {
    assert forall m :: m < |s| ==> Present(s, m) == Present(t, m);
    if Adjacent(s, j, k) && NightPair(j, k) {
      assert k + 6 <= |s|;
      assert BoundaryClear(s, k) == BoundaryClear(t, k);
    }
  }

  /** Every step that ends below `n` is allowed. */
  ghost predicate AcceptedBelow(s: Slots, n: int) {
    forall j, k :: Adjacent(s, j, k) && k < n ==> StepAllowed(s, j, k)
  }

  /** The two scans that confine an overlap to its own Isha and Fajr. */
  method PairClear(s: Slots, k: nat) returns (clear: bool)
    requires k % 6 == 0 && 6 <= k && k + 6 <= |s| && Present(s, k - 1) && Present(s, k)
    ensures clear == BoundaryClear(s, k)
  {
    for j := 0 to 5
      invariant forall m :: k - 6 <= m < k - 6 + j && Present(s, m) ==> s[m].value < s[k].value
    {
      if s[k - 6 + j].Some? && s[k - 6 + j].value >= s[k].value {
        assert Present(s, k - 6 + j);
        return false;
      }
    }
    for j := 1 to 6
      invariant forall m :: k < m < k + j && Present(s, m) ==> s[k - 1].value < s[m].value
    {
      if s[k + j].Some? && s[k + j].value <= s[k - 1].value {
        assert Present(s, k + j);
        return false;
      }
    }
    return true;
  }

  /** One day of the validation loop: slots `6 * d` to `6 * d + 5` of `s`. */
  method ValidateDay(s: Slots, d: nat, last: Option<nat>) returns (ok: bool, preceding: Option<nat>)
    requires |s| == 6 * d + 6
    requires LastPresent(s, 6 * d, last) && AcceptedBelow(s, 6 * d)
    ensures ok == AcceptedBelow(s, 6 * d + 6)
    ensures ok ==> LastPresent(s, 6 * d + 6, preceding)
  {
    preceding := last;
    for i := 0 to 6
      invariant LastPresent(s, 6 * d + i, preceding) && AcceptedBelow(s, 6 * d + i)
    {
      var k := 6 * d + i;
      if s[k].Some? {
        if preceding.Some? && s[k].value <= s[preceding.value].value {
          assert Adjacent(s, preceding.value, k);
          if !(i == 0 && preceding.value + 1 == k) {
            assert !StepAllowed(s, preceding.value, k);
            return false, preceding;
          }
          var clear := PairClear(s, k);
          if !clear {
            assert !StepAllowed(s, preceding.value, k);
            return false, preceding;
          }
        }
        assert forall j :: Adjacent(s, j, k) ==> preceding == Some(j);
        preceding := Some(k);
      }
    }
    return true, preceding;
  }

  ghost predicate LastPresent(s: Slots, n: int, p: Option<nat>) {
    && (p.Some? ==> p.value < n && Present(s, p.value))
    && (forall m :: (if p.Some? then p.value else -1) < m < n ==> !Present(s, m))
  }

  lemma RejectedPrefix(times: Calculator, settings: Settings, today: int, n: nat, s: Slots)
    requires n <= WINDOW_DAYS && FetchBelow(times, settings, today, n) == Some(s) && !AcceptedBelow(s, 6 * n)
    ensures !CanBuild(times, settings, today)
  {
    var w := Window(times, settings, today);
    if w.Some? && Acceptable(w.value) {
      FetchedPrefix(times, settings, today, n, WINDOW_DAYS);
      var j, k :| Adjacent(s, j, k) && k < 6 * n && !StepAllowed(s, j, k);
      StepStable(s, w.value, j, k);
    }
  }

  /** Fetches the five days in order and validates each as it arrives. */
  method FetchWindow(times: Calculator, settings: Settings, today: int) returns (r: Option<Slots>)
    ensures r == if CanBuild(times, settings, today) then Window(times, settings, today) else None
  {
    var s: Slots := [];
    var preceding: Option<nat> := None;
    var d := 0;
    while d < WINDOW_DAYS
      invariant d <= WINDOW_DAYS
      invariant FetchBelow(times, settings, today, d) == Some(s) && |s| == 6 * d
      invariant LastPresent(s, 6 * d, preceding) && AcceptedBelow(s, 6 * d)
    {
      var day := FetchDay(times, settings, today, d);
      if day.None? {
        if CanBuild(times, settings, today) {
          FetchedPrefix(times, settings, today, d + 1, WINDOW_DAYS);
        }
        return None;
      }
      var t := s + day.value;
      forall j, k | Adjacent(t, j, k) && k < 6 * d
        ensures StepAllowed(t, j, k)
      {
        StepStable(s, t, j, k);
      }
      assert forall m :: m < 6 * d ==> Present(t, m) == Present(s, m);
      var ok, p := ValidateDay(t, d, preceding);
      if !ok {
        RejectedPrefix(times, settings, today, d + 1, t);
        return None;
      }
      s, preceding, d := t, p, d + 1;
    }
    assert Acceptable(s);
    return Some(s);
  }

  // ---------------------------------------------------------------------------
  // Events of an accepted window
  // ---------------------------------------------------------------------------

  function PrayerAt(i: nat): Prayer
    requires i < 6
  {
    if i == 0 then 0 else i - 1
  }

  /** Where a prayer stands among a day's six times, passing over sunrise. */
  function IndexOf(p: Prayer): (i: nat)
    ensures i < 6 && PrayerAt(i) == p
  {
    if p == 0 then 0 else p + 1
  }

  function KeyOf(today: int, k: nat): EventKey {
    EventKey(today - 2 + k / 6, PrayerAt(k % 6))
  }

  function Members(e: Event): set<EventKey> {
    if e.sharedWith.Some? then {e.key, e.sharedWith.value} else {e.key}
  }

  predicate InWindow(key: EventKey, today: int) { today - 1 <= key.day <= today + 1 }

  predicate InPlayback(e: Event, today: int) {
    InWindow(e.key, today) || (e.sharedWith.Some? && InWindow(e.sharedWith.value, today))
  }

  /** The single occurrence of a coincident Isha and Fajr. */
  function Shared(isha: EventKey, fajr: EventKey, utc: int, enabled: seq<bool>): Event
    requires |enabled| == 5
  {
    if !enabled[FAJR] && enabled[ISHA] then Event(isha, utc, true, Some(fajr))
    else Event(fajr, utc, enabled[FAJR] || enabled[ISHA], Some(isha))
  }

  /** The event slot `k` contributes, if any. */
  function EventAt(s: Slots, today: int, enabled: seq<bool>, k: nat): Option<Event>
    requires k < |s| && |enabled| == 5
  {
    if s[k].None? || k % 6 == 1 then None
    else
      var e := RawEvent(s, today, enabled, k);
      if MergedIntoFajr(s, k) || !InPlayback(e, today) then None else Some(e)
  }

  predicate MergedIntoFajr(s: Slots, k: nat)
    requires k < |s|
  {
    k % 6 == 5 && k + 1 < |s| && s[k].Some? && s[k + 1] == s[k]
  }

  predicate MergedWithIsha(s: Slots, k: nat)
    requires k < |s|
  {
    k % 6 == 0 && 0 < k && s[k].Some? && s[k - 1] == s[k]
  }

  predicate LateIsha(s: Slots, k: nat)
    requires k < |s| && s[k].Some?
  {
    k % 6 == 5 && k + 1 < |s| && s[k + 1].Some? && s[k].value > s[k + 1].value
  }

  function RawEvent(s: Slots, today: int, enabled: seq<bool>, k: nat): Event
    requires k < |s| && |enabled| == 5 && s[k].Some?
  {
    var key := KeyOf(today, k);
    if MergedWithIsha(s, k) then Shared(EventKey(key.day - 1, ISHA), key, s[k].value, enabled)
    else Event(key, s[k].value, enabled[key.prayer] && !LateIsha(s, k), None)
  }

  function EventsBelow(s: Slots, today: int, enabled: seq<bool>, n: nat): seq<Event>
    requires n <= |s| && |enabled| == 5
  {
    if n == 0 then []
    else
      var e := EventAt(s, today, enabled, n - 1);
      EventsBelow(s, today, enabled, n - 1) + (if e.Some? then [e.value] else [])
  }

  /** The overlap of the night after day `d` of the window, if any. */
  function ConflictAt(s: Slots, today: int, d: nat): Option<Conflict>
    requires 6 * d + 6 <= |s|
  {
    var k := 6 * d + 5;
    if k + 1 < |s| && s[k].Some? && s[k + 1].Some? && s[k].value >= s[k + 1].value
    then Some(Conflict(EventKey(today - 2 + d, ISHA), s[k].value, EventKey(today - 1 + d, FAJR), s[k + 1].value,
                       if s[k] == s[k + 1] then SharedPlayback else IshaSuppressed))
    else None
  }

  function ConflictsBelow(s: Slots, today: int, n: nat): seq<Conflict>
    requires 6 * n <= |s|
  {
    if n == 0 then []
    else
      var c := ConflictAt(s, today, n - 1);
      ConflictsBelow(s, today, n - 1) + (if c.Some? then [c.value] else [])
  }

  lemma NextEvent(s: Slots, today: int, enabled: seq<bool>, k: nat)
    requires |enabled| == 5 && k < |s|
    ensures var e := EventAt(s, today, enabled, k);
      EventsBelow(s, today, enabled, k + 1) == EventsBelow(s, today, enabled, k) + (if e.Some? then [e.value] else [])
  {
  }

  predicate SortedByTime(events: seq<Event>) {
    forall a, b :: 0 <= a < b < |events| ==> events[a].utc <= events[b].utc
  }

  /** `events` is some order by instant of the events of slots `s`; equal instants may fall either way. */
  ghost predicate Arranged(events: seq<Event>, s: Slots, today: int, enabled: seq<bool>)
    requires |enabled| == 5
  {
    SortedByTime(events) && multiset(events) == multiset(EventsBelow(s, today, enabled, |s|))
  }

  /** Builds the unordered events and the conflict list, a day at a time. */
  method Collect(s: Slots, today: int, enabled: seq<bool>) returns (events: seq<Event>, conflicts: seq<Conflict>)
    requires |s| == 30 && |enabled| == 5
    ensures events == EventsBelow(s, today, enabled, 30)
    ensures conflicts == ConflictsBelow(s, today, 5)
  {
    events, conflicts := [], [];
    for d := 0 to 5
      invariant events == EventsBelow(s, today, enabled, 6 * d)
      invariant conflicts == ConflictsBelow(s, today, d)
    {
      var overlap := Report(s, today, d);
      if overlap.Some? {
        conflicts := conflicts + [overlap.value];
      }
      for i := 0 to 6
        invariant events == EventsBelow(s, today, enabled, 6 * d + i)
      {
        var e := Push(s, today, enabled, d, i);
        NextEvent(s, today, enabled, 6 * d + i);
        if e.Some? {
          events := events + [e.value];
        }
      }
    }
  }

  /** What the night after day `d` reports. */
  method Report(s: Slots, today: int, d: nat) returns (overlap: Option<Conflict>)
    requires |s| == 30 && d < 5
    ensures overlap == ConflictAt(s, today, d)
  {
    var serial := today - 2 + d;
    var isha := s[6 * d + 5];
    if d + 1 < 5 && isha.Some? && s[6 * d + 6].Some? && isha.value >= s[6 * d + 6].value {
      return Some(Conflict(EventKey(serial, ISHA), isha.value, EventKey(serial + 1, FAJR), s[6 * d + 6].value,
                           if isha == s[6 * d + 6] then SharedPlayback else IshaSuppressed));
    }
    return None;
  }

  /** The body of the collecting loop: what day `d`, time `i` pushes. */
  method Push(s: Slots, today: int, enabled: seq<bool>, d: nat, i: nat) returns (pushed: Option<Event>)
    requires |s| == 30 && |enabled| == 5 && d < 5 && i < 6
    ensures pushed == EventAt(s, today, enabled, 6 * d + i)
  {
    var k := 6 * d + i;
    assert k / 6 == d && k % 6 == i;
    if s[k].None? || i == 1 {
      return None;
    }
    var prayer: Prayer := if i == 0 then 0 else i - 1;
    var serial := today - 2 + d;
    var event := Event(EventKey(serial, prayer), s[k].value, enabled[prayer], None);
    if i == 0 && d > 0 && s[k - 1] == s[k] {
      event := event.(sharedWith := Some(EventKey(serial - 1, ISHA)));
      if !enabled[0] && enabled[4] {
        event := event.(key := event.sharedWith.value, sharedWith := Some(event.key));
      }
      event := event.(enabled := enabled[0] || enabled[4]);
    }
    if i == 5 && d + 1 < 5 && s[k + 1].Some? {
      if s[k] == s[k + 1] {
        return None;
      }
      if s[k].value > s[k + 1].value {
        event := event.(enabled := false);
      }
    }
    return if InPlayback(event, today) then Some(event) else None;
  }

  lemma InsertedMembers(sorted: seq<Event>, at: nat, e: Event)
    requires at <= |sorted|
    ensures multiset(sorted[..at] + [e] + sorted[at..]) == multiset(sorted) + multiset{e}
  {
    assert sorted == sorted[..at] + sorted[at..];
  }

  lemma InsertedInOrder(sorted: seq<Event>, at: nat, e: Event)
    requires SortedByTime(sorted) && at <= |sorted|
    requires at == 0 || sorted[at - 1].utc <= e.utc
    requires at == |sorted| || e.utc <= sorted[at].utc
    ensures SortedByTime(sorted[..at] + [e] + sorted[at..])
  {
    var r := sorted[..at] + [e] + sorted[at..];
    forall a, b | 0 <= a < b < |r|
      ensures r[a].utc <= r[b].utc
    {
      assert r[a].utc <= e.utc || at < a;
      assert e.utc <= r[b].utc || b < at;
      if at < a {
        assert r[a] == sorted[a - 1] && r[b] == sorted[b - 1];
      }
    }
  }

  method Insert(sorted: seq<Event>, e: Event) returns (longer: seq<Event>)
    requires SortedByTime(sorted)
    ensures SortedByTime(longer) && multiset(longer) == multiset(sorted) + multiset{e}
  {
    var at := |sorted|;
    while 0 < at && e.utc < sorted[at - 1].utc
      invariant 0 <= at <= |sorted|
      invariant at < |sorted| ==> e.utc < sorted[at].utc
    {
      at := at - 1;
    }
    InsertedInOrder(sorted, at, e);
    InsertedMembers(sorted, at, e);
    longer := sorted[..at] + [e] + sorted[at..];
  }

  /** Orders events by instant, as the library sort is asked to. */
  method SortByTime(events: seq<Event>) returns (sorted: seq<Event>)
    ensures SortedByTime(sorted) && multiset(sorted) == multiset(events)
  {
    sorted := [];
    for n := 0 to |events|
      invariant SortedByTime(sorted) && multiset(sorted) == multiset(events[..n])
    {
      assert events[..n + 1] == events[..n] + [events[n]];
      sorted := Insert(sorted, events[n]);
    }
    assert events[..|events|] == events;
  }
}
