/**
 The display's own timetable: a second derivation of the same event identities,
 from fifteen raw instants and two guard times, and its agreement with the scheduler.
 */
module Lights {
  import opened Wrappers
  import opened Timetable
  import opened PlaybackWindow

  datatype View = View(times: Slots, previousIsha: Option<int>, followingFajr: Option<int>, firstDay: int, enabled: seq<bool>)

  /** The earliest instant after `utc` among the first `n`, at its lowest index. */
  function EarliestBelow(times: Slots, utc: int, n: nat): (r: Option<nat>)
    requires n <= |times|
    ensures r.Some? ==> r.value < n && times[r.value].Some? && utc < times[r.value].value
  {
    if n == 0 then None
    else
      var r := EarliestBelow(times, utc, n - 1);
      if times[n - 1].Some? && utc < times[n - 1].value && (r.None? || times[n - 1].value < times[r.value].value)
      then Some(n - 1) else r
  }

  function KeyAt(v: View, i: nat): EventKey { EventKey(v.firstDay + i / 5, i % 5) }

  /** The identity the display gives to entry `i`. */
  function IdentityAt(v: View, i: nat): Event
    requires |v.times| == 15 && |v.enabled| == 5 && i < 15 && v.times[i].Some?
  {
    var key := KeyAt(v, i);
    var utc := v.times[i].value;
    var previous := if 0 < i then v.times[i - 1] else v.previousIsha;
    var following := if i + 1 < 15 then v.times[i + 1] else v.followingFajr;
    if i % 5 == 0 && previous == v.times[i] then Shared(EventKey(key.day - 1, ISHA), key, utc, v.enabled)
    else if i % 5 == 4 && following == v.times[i] then Shared(key, EventKey(key.day + 1, FAJR), utc, v.enabled)
    else if i % 5 == 4 && following.Some? && utc > following.value then Event(key, utc, false, None)
    else Event(key, utc, v.enabled[i % 5], None)
  }

  function NextEventSpec(v: View, utc: int): Option<Event>
    requires |v.times| == 15 && |v.enabled| == 5
  {
    var at := EarliestBelow(v.times, utc, 15);
    if at.None? then None else Some(IdentityAt(v, at.value))
  }

  /** Raw instant `i` of the display is this slot of the scheduler's window. */
  function SlotFor(i: nat): nat { 6 + 6 * (i / 5) + IndexOf(i % 5) }

  const NO_TIMES: Slots := [None, None, None, None, None, None, None, None, None, None, None, None, None, None, None]

  /** Every supported day of the five is calculated. */
  ghost predicate Calculated(calculator: Calculator, settings: Settings, date: int) {
    forall day :: date - 2 <= day <= date + 2 && ValidDate(day) ==> calculator(settings, day).Some?
  }

  /** Time `k` of a day; days outside the supported dates have none. */
  function DayTime(calculator: Calculator, settings: Settings, day: int, k: nat): Option<int>
    requires k < 6
  {
    if ValidDate(day) && calculator(settings, day).Some? then calculator(settings, day).value[k] else None
  }

  /** What a successful rebuild leaves, for any date. */
  ghost predicate Shows(v: View, calculator: Calculator, settings: Settings, date: int) {
    && |v.times| == 15
    && (forall i :: 0 <= i < 15 ==> v.times[i] == DayTime(calculator, settings, date - 1 + i / 5, IndexOf(i % 5)))
    && v.previousIsha == DayTime(calculator, settings, date - 2, 5)
    && v.followingFajr == DayTime(calculator, settings, date + 2, 0)
    && v.firstDay == date - 1 && v.enabled == settings.enabled
  }

  /** The same, read off the scheduler's window. */
  ghost predicate ViewOf(v: View, s: Slots, today: int, enabled: seq<bool>)
    requires |s| == 30
  {
    && |v.times| == 15 && (forall i :: 0 <= i < 15 ==> v.times[i] == s[SlotFor(i)])
    && v.previousIsha == s[5] && v.followingFajr == s[24]
    && v.firstDay == today - 1 && v.enabled == enabled
  }

  class LightSchedule {
    var times: Slots
    var previousIsha: Option<int>
    var followingFajr: Option<int>
    var firstDay: int
    var enabled: seq<bool>

    ghost function Snapshot(): View
      reads this
    {
      View(times, previousIsha, followingFajr, firstDay, enabled)
    }

    constructor ()
      ensures |times| == 15 && |enabled| == 5
    {
      times := NO_TIMES;
      previousIsha, followingFajr := None, None;
      firstDay, enabled := 0, [false, false, false, false, false];
    }

    /**
     Fills the fifteen instants in place; days outside the supported dates are passed
     over. While yesterday and tomorrow are supported it reads the scheduler's window.
     */
    method Rebuild(calculator: Calculator, settings: Settings, date: int) returns (ok: bool)
      modifies this
      ensures ok <==> ValidDate(date) && ValidSettings(settings) && Calculated(calculator, settings, date)
      ensures if ok then Shows(Snapshot(), calculator, settings, date) else times == NO_TIMES
      ensures ValidDate(date) && ValidSettings(settings) && Window(calculator, settings, date).Some? ==> ok
      ensures ok && ValidDate(date - 1) && ValidDate(date + 1) ==>
        Window(calculator, settings, date).Some? && ViewOf(Snapshot(), Window(calculator, settings, date).value, date, settings.enabled)
    {
      times := NO_TIMES;
      previousIsha, followingFajr := None, None;
      if !ValidDate(date) || !ValidSettings(settings) {
        return false;
      }
      firstDay := date - 1;
      enabled := settings.enabled;
      ok := ReadDays(calculator, settings, date);
      if ok && ValidDate(date - 1) && ValidDate(date + 1) {
        ShowsWindow(calculator, settings, date, Snapshot());
      }
    }

    /** The day loop of the rebuild. */
    method ReadDays(calculator: Calculator, settings: Settings, date: int) returns (ok: bool)
      requires times == NO_TIMES && previousIsha.None? && followingFajr.None?
      modifies this`times, this`previousIsha, this`followingFajr
      ensures ok == Calculated(calculator, settings, date)
      ensures !ok ==> times == NO_TIMES && Window(calculator, settings, date).None?
      ensures ok ==> |times| == 15 && ShowsBelow(times, 15, calculator, settings, date)
      ensures ok ==> previousIsha == DayTime(calculator, settings, date - 2, 5)
      ensures ok ==> followingFajr == DayTime(calculator, settings, date + 2, 0)
    {
      var at := 0;
      for d := 0 to 5
        invariant |times| == 15
        invariant at == FilledBefore(d)
        invariant forall day :: date - 2 <= day < date - 2 + d && ValidDate(day) ==> calculator(settings, day).Some?
        invariant previousIsha == if d == 0 then None else DayTime(calculator, settings, date - 2, 5)
        invariant followingFajr == if d < 5 then None else DayTime(calculator, settings, date + 2, 0)
        invariant ShowsBelow(times, at, calculator, settings, date)
      {
        var day := date - 2 + d;
        if !ValidDate(day) {
          if 1 <= d <= 3 {
            PassedDay(times, at, calculator, settings, date);
            at := at + 5;
          }
        } else {
          var calculated := calculator(settings, day);
          if calculated.None? {
            times := NO_TIMES;
            FetchFails(calculator, settings, date, d);
            return false;
          }
          if d == 0 {
            previousIsha := calculated.value[5];
          } else if d == 4 {
            followingFajr := calculated.value[0];
          } else {
            ghost var before := times;
            at := FillDay(at, calculated.value);
            FilledDay(before, times, at - 5, calculator, settings, date);
          }
        }
      }
      return true;
    }

    /** One in-window day: Fajr, Dhuhr, Asr, Maghrib and Isha, but not sunrise. */
    method FillDay(start: nat, day: PrayerDay) returns (at: nat)
      requires |times| == 15 && start + 5 <= 15
      modifies this`times
      ensures at == start + 5 && |times| == 15
      ensures forall i :: start <= i < start + 5 ==> times[i] == day[IndexOf(i - start)]
      ensures forall i :: 0 <= i < start || start + 5 <= i < 15 ==> times[i] == old(times)[i]
    {
      at := start;
      for index := 0 to 6
        invariant |times| == 15 && at == start + (if index <= 1 then index else index - 1)
        invariant forall i :: start <= i < at ==> times[i] == day[IndexOf(i - start)]
        invariant forall i :: 0 <= i < start || at <= i < 15 ==> times[i] == old(times)[i]
      {
        if index != 1 {
          times := times[at := day[index]];
          at := at + 1;
        }
      }
    }

    /** The raw instant the lights follow. */
    method Next(utc: int) returns (result: Option<int>)
      ensures result.Some? ==> result in times && utc < result.value
      ensures forall i :: 0 <= i < |times| && times[i].Some? && utc < times[i].value ==> result.Some? && result.value <= times[i].value
    {
      result := None;
      for i := 0 to |times|
        invariant result.Some? ==> result in times && utc < result.value
        invariant forall k :: 0 <= k < i && times[k].Some? && utc < times[k].value ==> result.Some? && result.value <= times[k].value
      {
        if times[i].Some? && utc < times[i].value && (result.None? || times[i].value < result.value) {
          result := times[i];
        }
      }
    }

    /** The identity view for displays. */
    method NextEvent(utc: int) returns (result: Option<Event>)
      requires |times| == 15 && |enabled| == 5
      ensures result == NextEventSpec(Snapshot(), utc)
    {
      var at := 15;
      for i := 0 to 15
        invariant EarliestBelow(times, utc, i) == if at == 15 then None else Some(at)
        invariant at == 15 || (0 <= at < i && times[at].Some?)
      {
        if times[i].Some? && utc < times[i].value && (at == 15 || times[i].value < times[at].value) {
          at := i;
        }
      }
      if at == 15 {
        return None;
      }
      var key := EventKey(firstDay + at / 5, at % 5);
      var event := Event(key, times[at].value, enabled[at % 5], None);
      if at % 5 == 0 {
        var previous := if at != 0 then times[at - 1] else previousIsha;
        if previous == times[at] {
          event := Share(event, EventKey(key.day - 1, ISHA), key);
        }
      } else if at % 5 == 4 {
        var following := if at + 1 < 15 then times[at + 1] else followingFajr;
        if following == times[at] {
          event := Share(event, key, EventKey(key.day + 1, FAJR));
        } else if following.Some? && times[at].value > following.value {
          event := event.(enabled := false);
        }
      }
      return Some(event);
    }

    method Share(event: Event, isha: EventKey, fajr: EventKey) returns (shared: Event)
      requires |enabled| == 5
      ensures shared == Shared(isha, fajr, event.utc, enabled)
    {
      shared := event.(key := fajr, sharedWith := Some(isha));
      if !enabled[0] && enabled[4] {
        shared := shared.(key := isha, sharedWith := Some(fajr));
      }
      shared := shared.(enabled := enabled[0] || enabled[4]);
    }
  }

  /** How many instants are decided before the loop reaches day `d`; the guard days decide none. */
  function FilledBefore(d: nat): nat { if d == 0 then 0 else if d <= 4 then 5 * (d - 1) else 15 }

  /** The first `at` instants are decided and the others still absent. */
  ghost predicate ShowsBelow(times: Slots, at: nat, calculator: Calculator, settings: Settings, date: int)
    requires |times| == 15
  {
    && (forall i :: 0 <= i < at && i < 15 ==> times[i] == DayTime(calculator, settings, date - 1 + i / 5, IndexOf(i % 5)))
    && (forall i :: at <= i < 15 ==> times[i].None?)
  }

  lemma PassedDay(times: Slots, at: nat, calculator: Calculator, settings: Settings, date: int)
    requires |times| == 15 && ShowsBelow(times, at, calculator, settings, date)
    requires at % 5 == 0 && !ValidDate(date - 1 + at / 5)
    ensures ShowsBelow(times, at + 5, calculator, settings, date)
  {
    assert forall i :: at <= i < at + 5 ==> i / 5 == at / 5;
  }

  lemma FilledDay(before: Slots, after: Slots, at: nat, calculator: Calculator, settings: Settings, date: int)
    requires |before| == |after| == 15 && ShowsBelow(before, at, calculator, settings, date)
    requires at % 5 == 0 && at + 5 <= 15
    requires ValidDate(date - 1 + at / 5) && calculator(settings, date - 1 + at / 5).Some?
    requires forall i :: at <= i < at + 5 ==> after[i] == calculator(settings, date - 1 + at / 5).value[IndexOf(i - at)]
    requires forall i :: 0 <= i < at || at + 5 <= i < 15 ==> after[i] == before[i]
    ensures ShowsBelow(after, at + 5, calculator, settings, date)
  {
    assert forall i :: at <= i < at + 5 ==> i / 5 == at / 5 && i % 5 == i - at;
  }

  /** The display and the scheduler read the same times, absent guard days included. */
  lemma ShowsWindow(calculator: Calculator, settings: Settings, date: int, v: View)
    requires ValidDate(date - 1) && ValidDate(date + 1)
    requires Calculated(calculator, settings, date) && Shows(v, calculator, settings, date)
    ensures Window(calculator, settings, date).Some?
    ensures ViewOf(v, Window(calculator, settings, date).value, date, settings.enabled)
  {
    FetchSucceeds(calculator, settings, date, WINDOW_DAYS);
    var s := Window(calculator, settings, date).value;
    forall i | 0 <= i < 15
      ensures v.times[i] == s[SlotFor(i)]
    {
      assert SlotFor(i) / 6 == 1 + i / 5 && SlotFor(i) % 6 == IndexOf(i % 5);
      FetchedSlot(calculator, settings, date, WINDOW_DAYS, SlotFor(i));
    }
    FetchedSlot(calculator, settings, date, WINDOW_DAYS, 5);
    FetchedSlot(calculator, settings, date, WINDOW_DAYS, 24);
  }

  lemma FetchFails(calculator: Calculator, settings: Settings, date: int, d: nat)
    requires d < 5 && ValidDate(date - 2 + d) && calculator(settings, date - 2 + d).None?
    ensures Window(calculator, settings, date).None?
  {
    if Window(calculator, settings, date).Some? {
      FetchedPrefix(calculator, settings, date, d + 1, 5);
    }
  }

  lemma {:induction false} FetchSucceeds(calculator: Calculator, settings: Settings, date: int, m: nat)
    requires m <= WINDOW_DAYS && ValidDate(date - 1) && ValidDate(date + 1) && Calculated(calculator, settings, date)
    ensures FetchBelow(calculator, settings, date, m).Some?
  {
    if m > 0 {
      FetchSucceeds(calculator, settings, date, m - 1);
    }
  }
}
