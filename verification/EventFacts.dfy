/** What the events of a window are: identities, instants, coverage and uniqueness. */
module EventFacts {
  import opened Wrappers
  import opened Timetable
  import opened PlaybackWindow

  /** The slot of the window a key names; outside the window when the day is. */
  function SlotOf(today: int, key: EventKey): int {
    6 * (key.day - today + 2) + (if key.prayer == 0 then 0 else key.prayer + 1)
  }

  lemma KeySlot(today: int, k: nat)
    requires k % 6 != 1
    ensures SlotOf(today, KeyOf(today, k)) == k
  {
  }

  lemma SlotKey(today: int, key: EventKey)
    requires today - 2 <= key.day
    ensures SlotOf(today, key) % 6 != 1 && KeyOf(today, SlotOf(today, key)) == key
  {
    var i := if key.prayer == 0 then 0 else key.prayer + 1;
    var d := key.day - today + 2;
    assert (6 * d + i) / 6 == d && (6 * d + i) % 6 == i;
  }

  /** `e` is what slot `k` contributes. */
  ghost predicate From(s: Slots, today: int, enabled: seq<bool>, k: int, e: Event)
    requires |enabled| == 5
  {
    0 <= k < |s| && EventAt(s, today, enabled, k) == Some(e)
  }

  /** A contributed event happens at its slot's instant and names that slot, or it and the Isha just before. */
  lemma FromFacts(s: Slots, today: int, enabled: seq<bool>, k: int, e: Event)
    requires |enabled| == 5 && From(s, today, enabled, k, e)
    ensures s[k] == Some(e.utc) && k % 6 != 1 && !MergedIntoFajr(s, k) && InPlayback(e, today)
    ensures KeyOf(today, k) in Members(e)
    ensures forall key :: key in Members(e) ==>
      && today - 2 <= key.day
      && 0 <= SlotOf(today, key) < |s| && s[SlotOf(today, key)] == Some(e.utc)
      && (SlotOf(today, key) == k || (SlotOf(today, key) == k - 1 && MergedIntoFajr(s, k - 1)))
  {
    KeySlot(today, k);
    if MergedWithIsha(s, k) {
      assert (k - 1) % 6 == 5 && (k - 1) / 6 == k / 6 - 1;
      KeySlot(today, k - 1);
    }
  }

  lemma {:induction false} BelowFrom(s: Slots, today: int, enabled: seq<bool>, n: nat, e: Event)
    requires |enabled| == 5 && n <= |s|
    ensures e in EventsBelow(s, today, enabled, n) <==> exists k :: k < n && From(s, today, enabled, k, e)
  {
    if n > 0 {
      BelowFrom(s, today, enabled, n - 1, e);
      if EventAt(s, today, enabled, n - 1) == Some(e) {
        assert From(s, today, enabled, n - 1, e);
      }
    }
  }

  lemma FromDisjoint(s: Slots, today: int, enabled: seq<bool>, j: int, e: Event, k: int, f: Event)
    requires |enabled| == 5 && From(s, today, enabled, j, e) && From(s, today, enabled, k, f)
    requires Members(e) * Members(f) != {}
    ensures j == k
  {
    FromFacts(s, today, enabled, j, e);
    FromFacts(s, today, enabled, k, f);
    var key :| key in Members(e) && key in Members(f);
  }

  /** A slot's event is not among those of the slots before it. */
  lemma NotListedBefore(s: Slots, today: int, enabled: seq<bool>, k: nat, e: Event)
    requires |enabled| == 5 && From(s, today, enabled, k, e)
    ensures e !in EventsBelow(s, today, enabled, k)
  {
    BelowFrom(s, today, enabled, k, e);
    if j: nat :| j < k && From(s, today, enabled, j, e) {
      assert e.key in Members(e) * Members(e);
      FromDisjoint(s, today, enabled, j, e, k, e);
    }
  }

  lemma CountAdded(xs: seq<Event>, x: Option<Event>, e: Event)
    ensures var longer := xs + (if x.Some? then [x.value] else []);
      multiset(longer)[e] == multiset(xs)[e] + (if x == Some(e) then 1 else 0)
    ensures e !in xs ==> multiset(xs)[e] == 0
  {
  }

  lemma {:induction false} AtMostOnceListed(s: Slots, today: int, enabled: seq<bool>, n: nat, e: Event)
    requires |enabled| == 5 && n <= |s|
    ensures multiset(EventsBelow(s, today, enabled, n))[e] <= 1
  {
    if n > 0 {
      AtMostOnceListed(s, today, enabled, n - 1, e);
      CountAdded(EventsBelow(s, today, enabled, n - 1), EventAt(s, today, enabled, n - 1), e);
      if From(s, today, enabled, n - 1, e) {
        NotListedBefore(s, today, enabled, n - 1, e);
      }
    }
  }

  lemma TwiceInSeq(xs: seq<Event>, a: nat, b: nat)
    requires a < b < |xs| && xs[a] == xs[b]
    ensures multiset(xs)[xs[a]] >= 2
  {
    assert xs == xs[..a] + [xs[a]] + xs[a + 1..b] + [xs[b]] + xs[b + 1..];
  }

  lemma ArrangedFrom(events: seq<Event>, s: Slots, today: int, enabled: seq<bool>, e: Event)
    requires |enabled| == 5 && Arranged(events, s, today, enabled)
    ensures e in events <==> exists k :: From(s, today, enabled, k, e)
  {
    assert e in events <==> e in multiset(events);
    BelowFrom(s, today, enabled, |s|, e);
    if k :| From(s, today, enabled, k, e) {
      assert k < |s|;
    }
  }

  /** No two entries of an arranged window name the same prayer of the same day. */
  lemma EntriesDisjoint(events: seq<Event>, s: Slots, today: int, enabled: seq<bool>, a: nat, b: nat)
    requires |enabled| == 5 && Arranged(events, s, today, enabled)
    requires a < |events| && b < |events| && Members(events[a]) * Members(events[b]) != {}
    ensures a == b
  {
    ArrangedFrom(events, s, today, enabled, events[a]);
    ArrangedFrom(events, s, today, enabled, events[b]);
    var j :| From(s, today, enabled, j, events[a]);
    var k :| From(s, today, enabled, k, events[b]);
    FromDisjoint(s, today, enabled, j, events[a], k, events[b]);
    AtMostOnceListed(s, today, enabled, |s|, events[a]);
    if a < b {
      TwiceInSeq(events, a, b);
    } else if b < a {
      TwiceInSeq(events, b, a);
    }
  }

  /** A present prayer of yesterday, today or tomorrow is named by the event of some slot. */
  lemma NamedBySome(s: Slots, today: int, enabled: seq<bool>, key: EventKey)
    requires |enabled| == 5 && |s| == 30 && InWindow(key, today) && Present(s, SlotOf(today, key))
    ensures exists k, e :: From(s, today, enabled, k, e) && key in Members(e)
  {
    SlotKey(today, key);
    var k := SlotOf(today, key);
    var home := if MergedIntoFajr(s, k) then k + 1 else k;
    var e := RawEvent(s, today, enabled, home);
    assert home % 6 != 1 && (home / 6) - (k / 6) <= 1;
    if home == k + 1 {
      assert MergedWithIsha(s, home) && home / 6 == k / 6 + 1;
      assert EventKey(KeyOf(today, home).day - 1, ISHA) == key;
    }
    assert key in Members(e);
    assert EventAt(s, today, enabled, home) == Some(e);
    assert From(s, today, enabled, home, e);
  }

  /** Every calculated prayer of yesterday, today and tomorrow has exactly one entry naming it. */
  lemma CoveredOnce(events: seq<Event>, s: Slots, today: int, enabled: seq<bool>, key: EventKey)
    requires |enabled| == 5 && |s| == 30 && Arranged(events, s, today, enabled)
    requires today - 1 <= key.day <= today + 1 && Present(s, SlotOf(today, key))
    ensures exists a :: 0 <= a < |events| && key in Members(events[a]) && s[SlotOf(today, key)] == Some(events[a].utc)
    ensures forall a, b :: 0 <= a < |events| && 0 <= b < |events| && key in Members(events[a]) && key in Members(events[b]) ==> a == b
  {
    NamedBySome(s, today, enabled, key);
    var k, e :| From(s, today, enabled, k, e) && key in Members(e);
    ArrangedFrom(events, s, today, enabled, e);
    FromFacts(s, today, enabled, k, e);
    forall a, b | 0 <= a < |events| && 0 <= b < |events| && key in Members(events[a]) && key in Members(events[b])
      ensures a == b
    {
      assert key in Members(events[a]) * Members(events[b]);
      EntriesDisjoint(events, s, today, enabled, a, b);
    }
  }

  /** Conversely an entry names only calculated prayers, all of them at its own instant, and one of the three days. */
  lemma EntryTimes(events: seq<Event>, s: Slots, today: int, enabled: seq<bool>, e: Event, key: EventKey)
    requires |enabled| == 5 && |s| == 30 && Arranged(events, s, today, enabled)
    requires e in events && key in Members(e)
    ensures 0 <= SlotOf(today, key) < 30 && s[SlotOf(today, key)] == Some(e.utc)
    ensures today - 2 <= key.day <= today + 2
    ensures exists k :: k in Members(e) && today - 1 <= k.day <= today + 1
  {
    ArrangedFrom(events, s, today, enabled, e);
    var k :| From(s, today, enabled, k, e);
    FromFacts(s, today, enabled, k, e);
  }

  lemma FromDistinct(s: Slots, today: int, enabled: seq<bool>, j: int, e: Event, k: int, f: Event)
    requires |enabled| == 5 && Ordered(s) && j < k
    requires From(s, today, enabled, j, e) && From(s, today, enabled, k, f)
    ensures e.utc != f.utc
  {
    FromFacts(s, today, enabled, j, e);
    FromFacts(s, today, enabled, k, f);
    assert Present(s, j) && Present(s, k);
  }

  /** In an ordered timetable no two entries share an instant, so the order by instant is unique. */
  lemma DistinctInstants(events: seq<Event>, s: Slots, today: int, enabled: seq<bool>, a: nat, b: nat)
    requires |enabled| == 5 && |s| == 30 && Arranged(events, s, today, enabled) && Ordered(s)
    requires a < b < |events|
    ensures events[a].utc < events[b].utc
  {
    ArrangedFrom(events, s, today, enabled, events[a]);
    ArrangedFrom(events, s, today, enabled, events[b]);
    var j :| From(s, today, enabled, j, events[a]);
    var k :| From(s, today, enabled, k, events[b]);
    if j == k {
      assert events[a].key in Members(events[a]) * Members(events[b]);
      EntriesDisjoint(events, s, today, enabled, a, b);
    } else if j < k {
      FromDistinct(s, today, enabled, j, events[a], k, events[b]);
    } else {
      FromDistinct(s, today, enabled, k, events[b], j, events[a]);
    }
  }
}
