/**
 Entries across days: every window is a cut from one timetable without end, so the
 prayer an entry names determines the whole entry, whichever day it is built for.
 */
module EntryIdentity {
  import opened Wrappers
  import opened Timetable
  import opened PlaybackWindow
  import opened EventFacts

  /** The calculator refuses every date outside the supported range. */
  ghost predicate Dated(times: Calculator) {
    forall settings, day :: !ValidDate(day) ==> times(settings, day).None?
  }

  /** `e` is an entry of the timetable of `today`. */
  ghost predicate Entry(times: Calculator, settings: Settings, today: int, e: Event) {
    && |settings.enabled| == 5 && CanBuild(times, settings, today)
    && exists k :: From(Window(times, settings, today).value, today, settings.enabled, k, e)
  }

  /** Time `i` of `day`, absent where the calculator gives none. */
  function TimeAt(times: Calculator, settings: Settings, day: int, i: nat): Option<int>
    requires i < 6
  {
    if times(settings, day).Some? then times(settings, day).value[i] else None
  }

  lemma WindowSlot(times: Calculator, settings: Settings, today: int, k: nat)
    requires Dated(times) && Window(times, settings, today).Some? && k < 30
    ensures Window(times, settings, today).value[k] == TimeAt(times, settings, today - 2 + k / 6, k % 6)
  {
    FetchedSlot(times, settings, today, WINDOW_DAYS, k);
  }

  /** The slot a key names holds the calculator's time for it. */
  lemma NamedSlot(times: Calculator, settings: Settings, today: int, key: EventKey)
    requires Dated(times) && Window(times, settings, today).Some? && today - 2 <= key.day <= today + 2
    ensures 0 <= SlotOf(today, key) < 30 && SlotOf(today, key) % 6 == IndexOf(key.prayer)
    ensures Window(times, settings, today).value[SlotOf(today, key)] == TimeAt(times, settings, key.day, IndexOf(key.prayer))
  {
    var k := SlotOf(today, key);
    assert k / 6 == key.day - today + 2 && k % 6 == IndexOf(key.prayer);
    WindowSlot(times, settings, today, k);
  }

  /** What time `i` of `day` contributes, read off the calculator alone. */
  function EntryOf(times: Calculator, settings: Settings, day: int, i: nat): Event
    requires i < 6 && |settings.enabled| == 5 && TimeAt(times, settings, day, i).Some?
  {
    var time, key := TimeAt(times, settings, day, i), EventKey(day, PrayerAt(i));
    var following := TimeAt(times, settings, day + 1, 0);
    if i == 0 && TimeAt(times, settings, day - 1, 5) == time
    then Shared(EventKey(day - 1, ISHA), key, time.value, settings.enabled)
    else
      var late := i == 5 && following.Some? && following.value < time.value;
      Event(key, time.value, settings.enabled[key.prayer] && !late, None)
  }

  /** Time `i` of `day` has an entry of its own. */
  ghost predicate HasEntry(times: Calculator, settings: Settings, day: int, i: nat) {
    && i < 6 && i != 1 && TimeAt(times, settings, day, i).Some?
    && (i == 5 ==> TimeAt(times, settings, day + 1, 0) != TimeAt(times, settings, day, i))
  }

  lemma EntryMembers(times: Calculator, settings: Settings, day: int, i: nat, key: EventKey)
    requires |settings.enabled| == 5 && HasEntry(times, settings, day, i)
    requires key in Members(EntryOf(times, settings, day, i))
    ensures key == EventKey(day, PrayerAt(i)) ||
      (i == 0 && key == EventKey(day - 1, ISHA) && TimeAt(times, settings, day - 1, 5) == TimeAt(times, settings, day, 0))
  {
  }

  /** Different times of the calculator have entries without a common prayer. */
  lemma OneHome(times: Calculator, settings: Settings, day: int, i: nat, day': int, i': nat, key: EventKey)
    requires |settings.enabled| == 5 && HasEntry(times, settings, day, i) && HasEntry(times, settings, day', i')
    requires key in Members(EntryOf(times, settings, day, i)) && key in Members(EntryOf(times, settings, day', i'))
    ensures day == day' && i == i'
  {
    EntryMembers(times, settings, day, i, key);
    EntryMembers(times, settings, day', i', key);
  }

  /** No window edge shows in an entry. */
  lemma FromEntryOf(times: Calculator, settings: Settings, today: int, k: nat, e: Event)
    requires Dated(times) && |settings.enabled| == 5 && Window(times, settings, today).Some?
    requires From(Window(times, settings, today).value, today, settings.enabled, k, e)
    ensures var day, i := today - 2 + k / 6, k % 6;
      HasEntry(times, settings, day, i) && e == EntryOf(times, settings, day, i)
  {
    var s := Window(times, settings, today).value;
    WindowSlot(times, settings, today, k);
    assert KeyOf(today, k).day == today - 2 + k / 6;
    assert 1 <= k / 6 && (k % 6 == 5 ==> k / 6 < 4);
    if k % 6 == 0 {
      WindowSlot(times, settings, today, k - 1);
      assert (k - 1) / 6 == k / 6 - 1 && (k - 1) % 6 == 5;
    } else if k % 6 == 5 {
      WindowSlot(times, settings, today, k + 1);
      assert (k + 1) / 6 == k / 6 + 1 && (k + 1) % 6 == 0;
    }
  }

  lemma EntryHome(times: Calculator, settings: Settings, today: int, e: Event) returns (day: int, i: nat)
    requires Dated(times) && Entry(times, settings, today, e)
    ensures HasEntry(times, settings, day, i) && e == EntryOf(times, settings, day, i)
  {
    var k :| From(Window(times, settings, today).value, today, settings.enabled, k, e);
    FromEntryOf(times, settings, today, k, e);
    day, i := today - 2 + k / 6, k % 6;
  }

  /**
   A prayer of a day belongs to one entry, whatever the day the timetable is built
   for: same key, same partner, same instant, same enabled flag.
   */
  lemma SameEntry(times: Calculator, settings: Settings, today: int, today': int, e: Event, e': Event)
    requires Dated(times) && Entry(times, settings, today, e) && Entry(times, settings, today', e')
    requires Members(e) * Members(e') != {}
    ensures e == e'
  {
    var day, i := EntryHome(times, settings, today, e);
    var day', i' := EntryHome(times, settings, today', e');
    var key :| key in Members(e) && key in Members(e');
    OneHome(times, settings, day, i, day', i', key);
  }

  /** An entry of one day is an entry of every other day whose window holds one of its prayers. */
  lemma EntryCarries(times: Calculator, settings: Settings, today: int, today': int, e: Event, key: EventKey)
    requires Dated(times) && Entry(times, settings, today, e) && CanBuild(times, settings, today')
    requires key in Members(e) && InWindow(key, today')
    ensures Entry(times, settings, today', e)
  {
    var s, s' := Window(times, settings, today).value, Window(times, settings, today').value;
    var k :| From(s, today, settings.enabled, k, e);
    FromFacts(s, today, settings.enabled, k, e);
    assert today - 2 <= key.day <= today + 2;
    NamedSlot(times, settings, today, key);
    NamedSlot(times, settings, today', key);
    assert Present(s', SlotOf(today', key));
    NamedBySome(s', today', settings.enabled, key);
    var k', e' :| From(s', today', settings.enabled, k', e') && key in Members(e');
    assert Entry(times, settings, today', e') && key in Members(e) * Members(e');
    SameEntry(times, settings, today, today', e, e');
  }
}
