/** The display's next event is the scheduler's earliest entry exactly while no two entries share an instant. */
module LightsAgreement {
  import opened Wrappers
  import opened Timetable
  import opened PlaybackWindow
  import opened EventFacts
  import opened Lights

  /** The earliest entry of an ordered timetable after `utc`. */
  function FirstAfter(events: seq<Event>, utc: int): Option<Event> {
    if events == [] then None
    else if utc < events[0].utc then Some(events[0])
    else FirstAfter(events[1..], utc)
  }

  lemma {:induction false} EarliestFacts(times: Slots, utc: int, n: nat)
    requires n <= |times|
    ensures var r := EarliestBelow(times, utc, n);
      forall k :: 0 <= k < n && times[k].Some? && utc < times[k].value ==> r.Some? && times[r.value].value <= times[k].value
  {
    if n > 0 {
      EarliestFacts(times, utc, n - 1);
    }
  }

  lemma {:induction false} FirstAfterFacts(events: seq<Event>, utc: int)
    requires SortedByTime(events)
    ensures var r := FirstAfter(events, utc);
      && (r.None? ==> forall e :: e in events ==> e.utc <= utc)
      && (r.Some? ==> r.value in events && utc < r.value.utc && forall e :: e in events && utc < e.utc ==> r.value.utc <= e.utc)
  {
    if events != [] {
      if utc < events[0].utc {
        forall e | e in events && utc < e.utc
          ensures events[0].utc <= e.utc
        {
          var i :| 0 <= i < |events| && events[i] == e;
        }
      } else {
        FirstAfterFacts(events[1..], utc);
        assert forall e :: e in events <==> e == events[0] || e in events[1..];
      }
    }
  }

  /** The display's identity for a raw instant is the scheduler's entry for that prayer. */
  lemma IdentityIsEntry(v: View, s: Slots, today: int, enabled: seq<bool>, i: nat)
    requires |s| == 30 && |enabled| == 5 && ViewOf(v, s, today, enabled) && i < 15 && v.times[i].Some?
    ensures var k := SlotFor(i);
      From(s, today, enabled, if MergedIntoFajr(s, k) then k + 1 else k, IdentityAt(v, i))
    ensures IdentityAt(v, i).utc == v.times[i].value
  {
    var k := SlotFor(i);
    assert k / 6 == 1 + i / 5 && (k % 6 == if i % 5 == 0 then 0 else i % 5 + 1);
    assert KeyAt(v, i) == KeyOf(today, k);
    if i % 5 == 0 {
      if 0 < i {
        assert SlotFor(i - 1) == k - 1;
      }
    } else if i % 5 == 4 {
      if i + 1 < 15 {
        assert SlotFor(i + 1) == k + 1;
      }
      assert (k + 1) / 6 == k / 6 + 1 && (k + 1) % 6 == 0;
    }
  }

  /** Only a Fajr merged with the last Isha comes from a guard day. */
  lemma PlaybackSlots(s: Slots, today: int, enabled: seq<bool>, k: nat, e: Event)
    requires |s| == 30 && |enabled| == 5 && From(s, today, enabled, k, e)
    ensures 6 <= k <= 24 && (k == 24 ==> MergedWithIsha(s, k))
  {
    assert KeyOf(today, k).day == today - 2 + k / 6;
    if MergedWithIsha(s, k) && k < 30 {
      assert k == 6 || k == 12 || k == 18 || k == 24;
    }
  }

  /** The scheduler has no instants the display lacks. */
  lemma EntryHasInstant(v: View, s: Slots, today: int, enabled: seq<bool>, k: nat, e: Event) returns (i: nat)
    requires |s| == 30 && |enabled| == 5 && ViewOf(v, s, today, enabled) && From(s, today, enabled, k, e)
    ensures i < 15 && v.times[i] == Some(e.utc)
  {
    FromFacts(s, today, enabled, k, e);
    PlaybackSlots(s, today, enabled, k, e);
    if k == 24 {
      i := 14;
      assert SlotFor(14) == 23;
    } else {
      var d, p := k / 6 - 1, k % 6;
      i := 5 * d + (if p == 0 then 0 else p - 1);
      assert i / 5 == d && i % 5 == (if p == 0 then 0 else p - 1);
      assert SlotFor(i) == k;
    }
  }

  ghost predicate TellsApart(events: seq<Event>) {
    forall a, b :: 0 <= a < |events| && 0 <= b < |events| && events[a].utc == events[b].utc ==> events[a] == events[b]
  }

  lemma AgreementWhenApart(v: View, s: Slots, today: int, enabled: seq<bool>, events: seq<Event>, utc: int)
    requires |s| == 30 && |enabled| == 5 && ViewOf(v, s, today, enabled)
    requires Arranged(events, s, today, enabled) && TellsApart(events)
    ensures NextEventSpec(v, utc) == FirstAfter(events, utc)
  {
    EarliestFacts(v.times, utc, 15);
    FirstAfterFacts(events, utc);
    var at := EarliestBelow(v.times, utc, 15);
    var first := FirstAfter(events, utc);
    if first.Some? {
      ArrangedFrom(events, s, today, enabled, first.value);
      var k :| From(s, today, enabled, k, first.value);
      var i := EntryHasInstant(v, s, today, enabled, k, first.value);
      assert at.Some? && v.times[at.value].value <= first.value.utc;
    }
    if at.Some? {
      var e := IdentityAt(v, at.value);
      IdentityIsEntry(v, s, today, enabled, at.value);
      ArrangedFrom(events, s, today, enabled, e);
      assert e in events && utc < e.utc;
      assert first.Some? && first.value.utc <= e.utc;
    }
  }

  /** In an ordered timetable display and scheduler agree at every moment, shared and suppressed nights included. */
  lemma Agreement(v: View, s: Slots, today: int, enabled: seq<bool>, events: seq<Event>, utc: int)
    requires |s| == 30 && |enabled| == 5 && ViewOf(v, s, today, enabled)
    requires Arranged(events, s, today, enabled) && Ordered(s)
    ensures NextEventSpec(v, utc) == FirstAfter(events, utc)
  {
    forall a, b | 0 <= a < |events| && 0 <= b < |events| && events[a].utc == events[b].utc
      ensures events[a] == events[b]
    {
      if a < b {
        DistinctInstants(events, s, today, enabled, a, b);
      } else if b < a {
        DistinctInstants(events, s, today, enabled, b, a);
      }
    }
    AgreementWhenApart(v, s, today, enabled, events, utc);
  }

  lemma {:induction false} FirstAfterAt(events: seq<Event>, utc: int, a: nat)
    requires a < |events| && utc < events[a].utc && forall i :: 0 <= i < a ==> events[i].utc <= utc
    ensures FirstAfter(events, utc) == Some(events[a])
  {
    if 0 < a {
      FirstAfterAt(events[1..], utc, a - 1);
    }
  }

  function Swapped(events: seq<Event>, a: nat): seq<Event>
    requires a + 1 < |events|
  {
    events[a := events[a + 1]][a + 1 := events[a]]
  }

  lemma SwappedArranged(events: seq<Event>, s: Slots, today: int, enabled: seq<bool>, a: nat)
    requires |enabled| == 5 && Arranged(events, s, today, enabled)
    requires a + 1 < |events| && events[a].utc == events[a + 1].utc
    ensures Arranged(Swapped(events, a), s, today, enabled)
  {
    assert multiset(Swapped(events, a)) == multiset(events);
  }

  /** Nothing less will do: where two entries tie for earliest, the sort may leave either first. */
  lemma TieBreaksAgreement(v: View, s: Slots, today: int, enabled: seq<bool>, events: seq<Event>, utc: int, a: nat)
    requires |s| == 30 && |enabled| == 5 && ViewOf(v, s, today, enabled) && Arranged(events, s, today, enabled)
    requires a + 1 < |events| && utc < events[a].utc == events[a + 1].utc && forall i :: 0 <= i < a ==> events[i].utc <= utc
    ensures exists other :: Arranged(other, s, today, enabled) && FirstAfter(other, utc) != NextEventSpec(v, utc)
  {
    var swapped := Swapped(events, a);
    SwappedArranged(events, s, today, enabled, a);
    FirstAfterAt(events, utc, a);
    FirstAfterAt(swapped, utc, a);
    if events[a] == events[a + 1] {
      assert events[a].key in Members(events[a]) * Members(events[a + 1]);
      EntriesDisjoint(events, s, today, enabled, a, a + 1);
    }
    assert Arranged(events, s, today, enabled) && Arranged(swapped, s, today, enabled);
  }

  lemma SameMembers(events: seq<Event>, other: seq<Event>, s: Slots, today: int, enabled: seq<bool>, e: Event)
    requires |enabled| == 5 && Arranged(events, s, today, enabled) && Arranged(other, s, today, enabled)
    ensures e in events <==> e in other
  {
    assert e in events <==> e in multiset(events);
    assert e in other <==> e in multiset(other);
  }

  lemma ApartInAnyOrder(events: seq<Event>, other: seq<Event>, s: Slots, today: int, enabled: seq<bool>)
    requires |enabled| == 5 && Arranged(events, s, today, enabled) && Arranged(other, s, today, enabled) && TellsApart(events)
    ensures TellsApart(other)
  {
    forall a, b | 0 <= a < |other| && 0 <= b < |other| && other[a].utc == other[b].utc
      ensures other[a] == other[b]
    {
      SameMembers(events, other, s, today, enabled, other[a]);
      SameMembers(events, other, s, today, enabled, other[b]);
      var i :| 0 <= i < |events| && events[i] == other[a];
      var j :| 0 <= j < |events| && events[j] == other[b];
    }
  }

  /** Two entries of one instant, the first of all that have it and the one behind it. */
  lemma FirstTie(events: seq<Event>) returns (a: nat)
    requires SortedByTime(events) && !TellsApart(events)
    ensures a + 1 < |events| && events[a].utc == events[a + 1].utc && forall i :: 0 <= i < a ==> events[i].utc < events[a].utc
  {
    var x, y :| 0 <= x < |events| && 0 <= y < |events| && events[x].utc == events[y].utc && events[x] != events[y];
    var low, high := if x < y then x else y, if x < y then y else x;
    assert events[low + 1].utc == events[low].utc;
    a := low;
    while 0 < a && events[a - 1].utc == events[a].utc
      invariant a <= low && events[a].utc == events[low].utc == events[a + 1].utc
    {
      a := a - 1;
    }
  }

  /**
   Display and scheduler agree at every moment, whatever order the sort leaves equal
   instants in, if and only if no two entries share an instant.
   */
  lemma AgreementExactly(v: View, s: Slots, today: int, enabled: seq<bool>, events: seq<Event>)
    requires |s| == 30 && |enabled| == 5 && ViewOf(v, s, today, enabled) && Arranged(events, s, today, enabled)
    ensures TellsApart(events) <==>
      forall other, utc :: Arranged(other, s, today, enabled) ==> NextEventSpec(v, utc) == FirstAfter(other, utc)
  {
    if TellsApart(events) {
      forall other, utc | Arranged(other, s, today, enabled)
        ensures NextEventSpec(v, utc) == FirstAfter(other, utc)
      {
        ApartInAnyOrder(events, other, s, today, enabled);
        AgreementWhenApart(v, s, today, enabled, other, utc);
      }
    } else {
      var a := FirstTie(events);
      TieBreaksAgreement(v, s, today, enabled, events, events[a].utc - 1, a);
    }
  }

  /** Accepted by the validation, with the Fajr of tomorrow at the instant of yesterday's. */
  const TIED_FAJRS: Slots :=
    [None, None, None, None, None, None,
     Some(45), None, None, None, None, Some(50),
     None, None, None, None, None, Some(100),
     Some(45), None, Some(200), None, None, None,
     None, None, None, None, None, None]

  lemma TiedPresent(k: int)
    ensures Present(TIED_FAJRS, k) <==> k == 6 || k == 11 || k == 17 || k == 18 || k == 20
  {
  }

  lemma TiedFajrsAccepted()
    ensures Acceptable(TIED_FAJRS)
  {
    var s := TIED_FAJRS;
    assert Present(s, 11) && Present(s, 17) && Present(s, 18);
    forall j, k | Adjacent(s, j, k)
      ensures StepAllowed(s, j, k)
    {
      TiedPresent(j);
      TiedPresent(k);
      assert k == 11 || k == 17 || k == 18 || k == 20;
    }
  }

  /** So an accepted window can hold a tie, and there some arrangement disagrees with the display. */
  lemma TiedFajrsDisagree(v: View, today: int, enabled: seq<bool>, events: seq<Event>)
    requires |enabled| == 5 && ViewOf(v, TIED_FAJRS, today, enabled) && Arranged(events, TIED_FAJRS, today, enabled)
    ensures Acceptable(TIED_FAJRS) && !TellsApart(events)
    ensures exists other, utc :: Arranged(other, TIED_FAJRS, today, enabled) && NextEventSpec(v, utc) != FirstAfter(other, utc)
  {
    TiedFajrsAccepted();
    var s := TIED_FAJRS;
    var e, f := RawEvent(s, today, enabled, 6), RawEvent(s, today, enabled, 18);
    assert From(s, today, enabled, 6, e) && From(s, today, enabled, 18, f);
    ArrangedFrom(events, s, today, enabled, e);
    ArrangedFrom(events, s, today, enabled, f);
    assert e.key.day == today - 1 && f.key.day == today + 1;
    AgreementExactly(v, s, today, enabled, events);
  }
}
