/**
 What an entry means to the listener, for the scheduler's timetable and for the display: who
 it is named after, and whether it is wanted. Both follow from the times and the selection.
 */
module EntryMeaning {
  import opened Wrappers
  import opened Timetable
  import opened PlaybackWindow
  import opened EventFacts
  import opened Lights
  import opened LightsAgreement

  /** Some prayer the entry names is selected. */
  ghost predicate Selected(e: Event, enabled: seq<bool>)
    requires |enabled| == 5
  {
    exists key :: key in Members(e) && enabled[key.prayer]
  }

  /** One prayer, or an Isha and the Fajr after it; such a pair bears the name of the Isha only when Isha alone is selected. */
  ghost predicate Named(e: Event, enabled: seq<bool>)
    requires |enabled| == 5
  {
    e.sharedWith.Some? ==>
      exists day :: Members(e) == {EventKey(day, ISHA), EventKey(day + 1, FAJR)}
        && e.key == (if enabled[ISHA] && !enabled[FAJR] then EventKey(day, ISHA) else EventKey(day + 1, FAJR))
  }

  /** An Isha by itself, later than the Fajr that follows it. */
  ghost predicate LoneLate(e: Event, following: Option<int>) {
    e.sharedWith.None? && e.key.prayer == ISHA && following.Some? && following.value < e.utc
  }

  /** The time the window has for a prayer. */
  function TimeOf(s: Slots, today: int, key: EventKey): Option<int> {
    var k := SlotOf(today, key);
    if 0 <= k < |s| then s[k] else None
  }

  function FajrAfter(e: Event): EventKey { EventKey(e.key.day + 1, FAJR) }

  function IshaBefore(e: Event): EventKey { EventKey(e.key.day - 1, ISHA) }

  /** What a slot contributes, when it is a pair. */
  lemma PairMeaning(s: Slots, today: int, enabled: seq<bool>, k: nat, e: Event)
    requires |s| == 30 && |enabled| == 5 && From(s, today, enabled, k, e) && MergedWithIsha(s, k)
    ensures e.sharedWith.Some? && Named(e, enabled) && (e.enabled <==> Selected(e, enabled))
  {
    var day := KeyOf(today, k).day - 1;
    var isha, fajr := EventKey(day, ISHA), EventKey(day + 1, FAJR);
    assert KeyOf(today, k) == fajr;
    assert Members(e) == {isha, fajr};
    assert isha in Members(e) && fajr in Members(e);
  }

  /** And when it is a single prayer. */
  lemma SingleMeaning(s: Slots, today: int, enabled: seq<bool>, k: nat, e: Event)
    requires |s| == 30 && |enabled| == 5 && From(s, today, enabled, k, e) && !MergedWithIsha(s, k)
    ensures e.sharedWith.None? && e.key == KeyOf(today, k) && k == SlotOf(today, e.key)
    ensures e.enabled <==> Selected(e, enabled) && !LoneLate(e, TimeOf(s, today, FajrAfter(e)))
  {
    FromFacts(s, today, enabled, k, e);
    KeySlot(today, k);
    assert e.key in Members(e);
    assert Selected(e, enabled) <==> enabled[e.key.prayer];
    if k % 6 == 5 {
      assert SlotOf(today, FajrAfter(e)) == k + 1;
    }
  }

  /**
   For every entry of a window: it is wanted exactly when a prayer it names is selected and it
   is not a lone Isha after the next Fajr; it is a pair exactly when Isha and Fajr coincide, and
   bears the name of the Isha exactly when of the two only Isha is selected.
   */
  lemma EntryMeans(events: seq<Event>, s: Slots, today: int, enabled: seq<bool>, e: Event)
    requires |s| == 30 && |enabled| == 5 && Arranged(events, s, today, enabled) && e in events
    ensures e.enabled <==> Selected(e, enabled) && !LoneLate(e, TimeOf(s, today, FajrAfter(e)))
    ensures Named(e, enabled)
    ensures e.sharedWith.None? && e.key.prayer == ISHA ==> TimeOf(s, today, FajrAfter(e)) != Some(e.utc)
    ensures e.sharedWith.None? && e.key.prayer == FAJR ==> TimeOf(s, today, IshaBefore(e)) != Some(e.utc)
  {
    ArrangedFrom(events, s, today, enabled, e);
    var k :| From(s, today, enabled, k, e);
    FromFacts(s, today, enabled, k, e);
    if MergedWithIsha(s, k) {
      PairMeaning(s, today, enabled, k, e);
    } else {
      SingleMeaning(s, today, enabled, k, e);
      if e.key.prayer == ISHA {
        assert k % 6 == 5 && SlotOf(today, FajrAfter(e)) == k + 1;
      } else if e.key.prayer == FAJR {
        assert k % 6 == 0 && SlotOf(today, IshaBefore(e)) == k - 1;
      }
    }
  }

  // ---------- the display ----------

  /** The time the display has for a prayer, the two guard times included. */
  function ShownTime(v: View, key: EventKey): Option<int>
    requires |v.times| == 15
  {
    var i := 5 * (key.day - v.firstDay) + key.prayer;
    if 0 <= i < 15 then v.times[i] else if i == -1 then v.previousIsha else if i == 15 then v.followingFajr else None
  }

  lemma ShownAt(v: View, i: nat)
    requires |v.times| == 15 && i < 15
    ensures ShownTime(v, KeyAt(v, i)) == v.times[i]
  {
    assert 5 * (i / 5) + i % 5 == i;
  }

  lemma IdentityMeaning(v: View, i: nat)
    requires |v.times| == 15 && |v.enabled| == 5 && i < 15 && v.times[i].Some?
    ensures var e := IdentityAt(v, i);
      && e.utc == v.times[i].value && Named(e, v.enabled)
      && (forall key :: key in Members(e) ==> ShownTime(v, key) == Some(e.utc))
      && (e.enabled <==> Selected(e, v.enabled) && !LoneLate(e, ShownTime(v, FajrAfter(e))))
      && (e.sharedWith.None? && e.key.prayer == ISHA ==> ShownTime(v, FajrAfter(e)) != Some(e.utc))
      && (e.sharedWith.None? && e.key.prayer == FAJR ==> ShownTime(v, IshaBefore(e)) != Some(e.utc))
  {
    var e, key := IdentityAt(v, i), KeyAt(v, i);
    ShownAt(v, i);
    assert e.key in Members(e);
    if key.prayer == ISHA {
      assert 5 * (key.day + 1 - v.firstDay) == i + 1;
      assert ShownTime(v, EventKey(key.day + 1, FAJR)) == if i + 1 < 15 then v.times[i + 1] else v.followingFajr;
    } else if key.prayer == FAJR {
      assert 5 * (key.day - 1 - v.firstDay) + 4 == i - 1;
      assert ShownTime(v, EventKey(key.day - 1, ISHA)) == if 0 < i then v.times[i - 1] else v.previousIsha;
    }
    if e.sharedWith.Some? {
      var day := if e.key.prayer == ISHA then e.key.day else e.key.day - 1;
      assert Members(e) == {EventKey(day, ISHA), EventKey(day + 1, FAJR)};
      assert EventKey(day, ISHA) in Members(e) && EventKey(day + 1, FAJR) in Members(e);
    } else {
      assert Selected(e, v.enabled) <==> v.enabled[e.key.prayer];
    }
  }

  /** What the display shows after an instant: the earliest time there is, named and wanted as the scheduler's entries are. */
  lemma NextMeans(v: View, utc: int)
    requires |v.times| == 15 && |v.enabled| == 5
    ensures var r := NextEventSpec(v, utc);
      && (r.None? <==> forall i :: 0 <= i < 15 && v.times[i].Some? ==> v.times[i].value <= utc)
      && (r.Some? ==>
            var e := r.value;
            && utc < e.utc && (forall i :: 0 <= i < 15 && v.times[i].Some? && utc < v.times[i].value ==> e.utc <= v.times[i].value)
            && Named(e, v.enabled) && (forall key :: key in Members(e) ==> ShownTime(v, key) == Some(e.utc))
            && (e.enabled <==> Selected(e, v.enabled) && !LoneLate(e, ShownTime(v, FajrAfter(e))))
            && (e.sharedWith.None? && e.key.prayer == ISHA ==> ShownTime(v, FajrAfter(e)) != Some(e.utc))
            && (e.sharedWith.None? && e.key.prayer == FAJR ==> ShownTime(v, IshaBefore(e)) != Some(e.utc)))
  {
    EarliestFacts(v.times, utc, 15);
    var at := EarliestBelow(v.times, utc, 15);
    if at.Some? {
      IdentityMeaning(v, at.value);
    }
  }
}
