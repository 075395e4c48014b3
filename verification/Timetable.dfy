/**
 The five-day timetable behind the scheduler: which calculated days are accepted,
 and which playback events an accepted window gives.

 A window of calculated days is read as one flat sequence of slots, six to a day
 (Fajr, sunrise, Dhuhr, Asr, Maghrib, Isha). Slot `k` belongs to day `k / 6` of the
 window and is prayer time `k % 6` of that day; an absent solar event is `None`.
 */
module Timetable {
  import opened Wrappers

  type Slots = seq<Option<int>>

  type PrayerDay = d: Slots | |d| == 6 witness [None, None, None, None, None, None]

  const SLOTS_PER_DAY := 6
  const WINDOW_DAYS := 5

  /** Prayers 0 to 4: Fajr, Dhuhr, Asr, Maghrib, Isha. */
  type Prayer = p: nat | p < 5

  const FAJR: Prayer := 0
  const ISHA: Prayer := 4

  datatype EventKey = EventKey(day: int, prayer: Prayer)

  datatype Event = Event(key: EventKey, utc: int, enabled: bool, sharedWith: Option<EventKey>)

  datatype Resolution = SharedPlayback | IshaSuppressed

  datatype Conflict = Conflict(isha: EventKey, ishaUtc: int, fajr: EventKey, fajrUtc: int, resolution: Resolution)

  datatype Settings = Settings(latitude: real, longitude: real, rule: int, hanafi: bool,
                               highLatitude: int, offsets: seq<int>, enabled: seq<bool>)

  predicate ValidSettings(s: Settings) {
    && -90.0 <= s.latitude <= 90.0 && -180.0 <= s.longitude <= 180.0
    && 0 <= s.rule < 12 && 0 <= s.highLatitude <= 3
    && |s.offsets| == 6 && (forall o :: o in s.offsets ==> -120 <= o <= 120)
    && |s.enabled| == 5
  }

  /** A deterministic calculation of one civil day; `None` is a refused request. */
  type Calculator = (Settings, int) -> Option<PrayerDay>

  // Day serials of 1900-01-01 and 2100-12-31.
  const FIRST_DATE := -25567
  const LAST_DATE := 47846

  predicate ValidDate(day: int) { FIRST_DATE <= day <= LAST_DATE }

  // ---------------------------------------------------------------------------
  // Order of the slots
  // ---------------------------------------------------------------------------

  predicate Present(s: Slots, k: int) { 0 <= k < |s| && s[k].Some? }

  /** `k` is the first present slot after `j`. */
  ghost predicate Adjacent(s: Slots, j: int, k: int) {
    j < k && Present(s, j) && Present(s, k) && forall m :: j < m < k ==> !Present(s, m)
  }

  /** Slot `j` is an Isha and `k` the Fajr of the following day. */
  predicate NightPair(j: int, k: int) { k == j + 1 && k % SLOTS_PER_DAY == 0 }

  /** The overlapping pair (k - 1, k) crosses no other time of its own two days. */
  ghost predicate BoundaryClear(s: Slots, k: int)
    requires Present(s, k - 1) && Present(s, k)
  {
    && (forall m :: k - 6 <= m < k - 1 && Present(s, m) ==> s[m].value < s[k].value)
    && (forall m :: k < m < k + 6 && Present(s, m) ==> s[k - 1].value < s[m].value)
  }

  /** What the scheduler's validation loop accepts. */
  ghost predicate Acceptable(s: Slots) {
    forall j, k :: Adjacent(s, j, k) ==> StepAllowed(s, j, k)
  }

  ghost predicate StepAllowed(s: Slots, j: int, k: int)
    requires Present(s, j) && Present(s, k)
  {
    s[j].value < s[k].value || (NightPair(j, k) && BoundaryClear(s, k))
  }

  /** The timetable order the validation is for: strict, but for adjacent Isha/Fajr pairs. */
  ghost predicate Ordered(s: Slots) {
    forall j, k :: j < k && Present(s, j) && Present(s, k) ==> s[j].value < s[k].value || NightPair(j, k)
  }

  ghost predicate Overlap(s: Slots, k: int) {
    NightPair(k - 1, k) && Present(s, k - 1) && Present(s, k) && s[k].value <= s[k - 1].value
  }

  /** At most one present slot lies strictly between `j` and `k`. */
  ghost predicate Near(s: Slots, j: int, k: int) {
    j < k && Present(s, j) && Present(s, k)
    && forall m, n :: j < m < n < k ==> !Present(s, m) || !Present(s, n)
  }

  /** Every overlapping pair is clear of the two nearest times on each side. */
  ghost predicate NearClear(s: Slots) {
    forall k :: Overlap(s, k) ==>
      && (forall m :: Near(s, m, k - 1) ==> s[m].value < s[k].value)
      && (forall m :: Near(s, k, m) ==> s[k - 1].value < s[m].value)
  }

  /** Both days of every overlap have a time that is neither their Fajr nor their Isha. */
  ghost predicate MidTimes(s: Slots) {
    forall k :: Overlap(s, k) ==>
      && (exists m :: k - 6 < m < k - 1 && Present(s, m))
      && (exists m :: k < m < k + 5 && Present(s, m))
  }

  /** Same prayer, later day, later instant. */
  ghost predicate PrayersIncrease(s: Slots) {
    forall j, k :: j < k && j % SLOTS_PER_DAY == k % SLOTS_PER_DAY && Present(s, j) && Present(s, k) ==>
      s[j].value < s[k].value
  }

  lemma LastPresentBefore(s: Slots, j: int, k: int) returns (p: int)
    requires j < k && Present(s, j) && Present(s, k)
    ensures j <= p < k && Adjacent(s, p, k)
  {
    p := k - 1;
    while !Present(s, p)
      invariant j <= p < k
      invariant forall m :: p < m < k ==> !Present(s, m)
      decreases p - j
    {
      p := p - 1;
    }
  }

  lemma {:induction false} ChainOrdered(s: Slots, j: int, k: int)
    requires Acceptable(s) && NearClear(s)
    requires j < k && Present(s, j) && Present(s, k)
    ensures s[j].value < s[k].value || NightPair(j, k)
    decreases k - j
  {
    var p := LastPresentBefore(s, j, k);
    assert StepAllowed(s, p, k);
    if j < p {
      ChainOrdered(s, j, p);
      if s[p].value < s[k].value {
        if s[p].value <= s[j].value {
          assert Overlap(s, p) && Near(s, p, k);
        }
      } else {
        assert Overlap(s, k) && p == k - 1;
        var q := LastPresentBefore(s, j, p);
        assert Near(s, q, p);
        if j < q {
          ChainOrdered(s, j, q);
          if s[q].value <= s[j].value {
            assert NightPair(j, q) && Near(s, j, p);
          }
        }
      }
    }
  }

  lemma OrderedIsAccepted(s: Slots)
    requires Ordered(s)
    ensures Acceptable(s)
  {
    forall j, k | Adjacent(s, j, k)
      ensures StepAllowed(s, j, k)
    {
      if s[k].value <= s[j].value {
        forall m | k < m < k + 6 && Present(s, m)
          ensures s[k - 1].value < s[m].value
        {
          assert !NightPair(j, m);
        }
      }
    }
  }

  lemma OrderedClearsOverlaps(s: Slots)
    requires Ordered(s)
    ensures NearClear(s)
  {
    forall k, m | Overlap(s, k) && Near(s, m, k - 1)
      ensures s[m].value < s[k].value
    {
      assert !NightPair(m, k);
    }
    forall k, m | Overlap(s, k) && Near(s, k, m)
      ensures s[k - 1].value < s[m].value
    {
      assert !NightPair(k - 1, m);
    }
  }

  /** The validation accepts more than ordered timetables; this is exactly the difference. */
  lemma OrderedExactly(s: Slots)
    ensures Ordered(s) <==> Acceptable(s) && NearClear(s)
  {
    if Ordered(s) {
      OrderedIsAccepted(s);
      OrderedClearsOverlaps(s);
    }
    if Acceptable(s) && NearClear(s) {
      forall j, k | j < k && Present(s, j) && Present(s, k)
        ensures s[j].value < s[k].value || NightPair(j, k)
      {
        ChainOrdered(s, j, k);
      }
    }
  }

  /** With a time between its own sunrise and Maghrib, the day before an overlap is clear of it. */
  lemma DayBeforeClear(s: Slots, k: int, a: int, m: int)
    requires Acceptable(s) && Overlap(s, k) && k - 6 < a < k - 1 && Present(s, a) && Near(s, m, k - 1)
    ensures s[m].value < s[k].value
  {
    assert Adjacent(s, k - 1, k) && StepAllowed(s, k - 1, k);
    if m < k - 6 {
      assert Adjacent(s, m, a) && StepAllowed(s, m, a);
    }
  }

  lemma DayAfterClear(s: Slots, k: int, b: int, m: int)
    requires Acceptable(s) && Overlap(s, k) && k < b < k + 5 && Present(s, b) && Near(s, k, m)
    ensures s[k - 1].value < s[m].value
  {
    assert Adjacent(s, k - 1, k) && StepAllowed(s, k - 1, k);
    if k + 5 < m {
      assert Adjacent(s, b, m) && StepAllowed(s, b, m);
    }
  }

  /** A guard a caller can read off the days: an ordinary solar time in both days of each overlap. */
  lemma MidTimesSuffice(s: Slots)
    requires Acceptable(s) && MidTimes(s)
    ensures Ordered(s)
  {
    forall k | Overlap(s, k)
      ensures forall m :: Near(s, m, k - 1) ==> s[m].value < s[k].value
      ensures forall m :: Near(s, k, m) ==> s[k - 1].value < s[m].value
    {
      var a :| k - 6 < a < k - 1 && Present(s, a);
      var b :| k < b < k + 5 && Present(s, b);
      forall m | Near(s, m, k - 1) { DayBeforeClear(s, k, a, m); }
      forall m | Near(s, k, m) { DayAfterClear(s, k, b, m); }
    }
    OrderedExactly(s);
  }

  /** Accepted times are in order as far as no overlap lies between them. */
  lemma {:induction false} StrictUnlessOverlap(s: Slots, j: int, k: int)
    requires Acceptable(s) && j < k && Present(s, j) && Present(s, k)
    requires forall n :: j < n <= k ==> !Overlap(s, n)
    ensures s[j].value < s[k].value
    decreases k - j
  {
    var p := LastPresentBefore(s, j, k);
    assert StepAllowed(s, p, k) && !Overlap(s, k);
    if j < p {
      StrictUnlessOverlap(s, j, p);
    }
  }

  /** Whatever overlaps, a prayer comes later on the very next day. */
  lemma NextDayLater(s: Slots, j: int)
    requires Acceptable(s) && Present(s, j) && Present(s, j + 6)
    ensures s[j].value < s[j + 6].value
  {
    var n := 6 * (j / 6) + 6;
    if Overlap(s, n) {
      assert Adjacent(s, n - 1, n) && StepAllowed(s, n - 1, n) && BoundaryClear(s, n);
      if n < j + 6 && j != n - 1 {
        StrictUnlessOverlap(s, n, j + 6);
      }
    } else {
      StrictUnlessOverlap(s, j, j + 6);
    }
  }

  lemma OrderedPrayersIncrease(s: Slots)
    requires Ordered(s)
    ensures PrayersIncrease(s)
  {
  }

  /** Accepted, each overlapping day has a second time, and still a Fajr falls before an Isha two days earlier. */
  const CROSSED: Slots :=
    [None, None, Some(3), None, None, Some(10),
     Some(5), None, None, None, None, Some(20),
     Some(8), None, Some(30), None, None, None,
     None, None, None, None, None, None,
     None, None, None, None, None, None]

  lemma CrossedPresent(k: int)
    ensures Present(CROSSED, k) <==> k == 2 || k == 5 || k == 6 || k == 11 || k == 12 || k == 14
  {
  }

  lemma AcceptedYetCrossed()
    ensures |CROSSED| == 30 && Acceptable(CROSSED) && !Ordered(CROSSED)
    ensures CROSSED[5].value > CROSSED[12].value
  {
    var s := CROSSED;
    assert Present(s, 5) && Present(s, 6) && Present(s, 11) && Present(s, 12);
    forall j, k | Adjacent(s, j, k)
      ensures StepAllowed(s, j, k)
    {
      CrossedPresent(j);
      CrossedPresent(k);
      assert k == 5 || k == 11 || k == 14 || NightPair(j, k);
    }
    assert !NightPair(5, 12);
  }
}
