/** The durable record of the device's settings. Coordinates are kept as their 64-bit patterns. */
module SettingsRecord {
  import opened Checksum
  import opened RecordFields
  import opened Words
  import opened Wrappers

  const SIZE := 192
  const USED := 166
  const NAME_SIZE := 96
  const MAGIC := 0x3143414F

  datatype Rule = Rule(time: int, day: nat, kind: nat, month: nat, week: nat, weekday: nat)

  const NO_RULE := Rule(0, 0, 0, 0, 0, 0)

  datatype Settings = Settings(
    latitude: nat, longitude: nat, rule: nat, hanafi: bool, highLatitude: nat, offsets: seq<int>, enabled: seq<bool>,
    volume: nat, zone: seq<nat>, standard: int, daylight: int, start: Rule, end: Rule)

  datatype Saved = Saved(revision: nat, value: Settings)

  predicate ValidRule(r: Rule) {
    -167 * 3600 - 3599 <= r.time <= 167 * 3600 + 3599 &&
    if r.kind == 0 then r == NO_RULE
    else if r.kind == 1 then r.day == 0 && 1 <= r.month <= 12 && 1 <= r.week <= 5 && r.weekday <= 6
    else if r.kind == 2 then 1 <= r.day <= 365 && r.month == 0 && r.week == 0 && r.weekday == 0
    else r.kind == 3 && r.day <= 365 && r.month == 0 && r.week == 0 && r.weekday == 0
  }

  predicate ValidZone(s: Settings) {
    && 0 < |s.zone| <= NAME_SIZE && (forall i :: 0 <= i < |s.zone| ==> 33 <= s.zone[i] <= 126)
    && -86400 <= s.standard <= 86400 && -86400 <= s.daylight <= 86400
    && ValidRule(s.start) && ValidRule(s.end)
    && (s.start.kind == 0 <==> s.end.kind == 0) && (s.start.kind == 0 ==> s.daylight == 0)
  }

  /** `coordinates` says which bit patterns are finite and in range. */
  predicate Valid(coordinates: (nat, nat) -> bool, s: Settings) {
    && coordinates(s.latitude, s.longitude) && s.latitude < Limit(8) && s.longitude < Limit(8)
    && s.rule < 12 && s.highLatitude <= 3
    && |s.offsets| == 6 && (forall i :: 0 <= i < 6 ==> -120 <= s.offsets[i] <= 120) && |s.enabled| == 5
    && ValidZone(s) && s.volume <= 100
  }

  // ---------- the fields ----------

  const HEAD_WIDTHS: seq<nat> := [4, 4, 8, 8, 1, 1, 1]
  const RULE_WIDTHS: seq<nat> := [4, 2, 1, 1, 1, 1]

  function Widths(): seq<nat> {
    HEAD_WIDTHS + Repeat(2, 6) + Repeat(1, 3) + Repeat(1, NAME_SIZE) + Repeat(4, 2) + RULE_WIDTHS + RULE_WIDTHS
  }

  function Wrapped(x: int, size: nat): nat
    requires size > 0
  {
    x % size
  }

  function Signed(v: nat, size: nat): int { if 2 * v < size then v else v - size }

  function HeadFields(s: Saved): seq<nat> {
    [MAGIC, s.revision, s.value.latitude, s.value.longitude, s.value.rule, if s.value.hanafi then 1 else 0, s.value.highLatitude]
  }

  function OffsetFields(offsets: seq<int>): seq<nat>
    requires |offsets| == 6
  {
    seq(6, i requires 0 <= i < 6 => Wrapped(offsets[i], 0x10000))
  }

  function Bits(enabled: seq<bool>): nat
    requires |enabled| == 5
  {
    (if enabled[0] then 1 else 0) + (if enabled[1] then 2 else 0) + (if enabled[2] then 4 else 0)
    + (if enabled[3] then 8 else 0) + (if enabled[4] then 16 else 0)
  }

  function Unbits(v: nat): seq<bool> { [v % 2 == 1, v / 2 % 2 == 1, v / 4 % 2 == 1, v / 8 % 2 == 1, v / 16 % 2 == 1] }

  function CountFields(s: Settings): seq<nat>
    requires |s.enabled| == 5
  {
    [Bits(s.enabled), s.volume, |s.zone|]
  }

  function NameFields(zone: seq<nat>): seq<nat> {
    seq(NAME_SIZE, i requires 0 <= i < NAME_SIZE => if i < |zone| then zone[i] else 0)
  }

  function ShiftFields(s: Settings): seq<nat> { [Wrapped(s.standard, 0x1_0000_0000), Wrapped(s.daylight, 0x1_0000_0000)] }

  function RuleFields(r: Rule): seq<nat> { [Wrapped(r.time, 0x1_0000_0000), r.day, r.kind, r.month, r.week, r.weekday] }

  predicate Shaped(s: Settings) { |s.offsets| == 6 && |s.enabled| == 5 }

  function Fields(s: Saved): (v: seq<nat>)
    requires Shaped(s.value)
    ensures |v| == |Widths()|
  {
    HeadFields(s) + OffsetFields(s.value.offsets) + CountFields(s.value) + NameFields(s.value.zone) + ShiftFields(s.value)
    + RuleFields(s.value.start) + RuleFields(s.value.end)
  }

  lemma WidthsTotal()
    ensures Total(Widths()) == USED && |Widths()| == 126
  {
    TotalRepeat(2, 6);
    TotalRepeat(1, 3);
    TotalRepeat(1, NAME_SIZE);
    TotalRepeat(4, 2);
    var a := HEAD_WIDTHS + Repeat(2, 6);
    var b := a + Repeat(1, 3);
    var c := b + Repeat(1, NAME_SIZE);
    var d := c + Repeat(4, 2);
    TotalOn(HEAD_WIDTHS, Repeat(2, 6));
    TotalOn(a, Repeat(1, 3));
    TotalOn(b, Repeat(1, NAME_SIZE));
    TotalOn(c, Repeat(4, 2));
    TotalOn(d, RULE_WIDTHS);
    TotalOn(d + RULE_WIDTHS, RULE_WIDTHS);
    SmallTotals();
  }

  lemma SmallTotals()
    ensures Total(HEAD_WIDTHS) == 27 && Total(RULE_WIDTHS) == 10
  {
    assert HEAD_WIDTHS == [4] + [4] + [8] + [8] + [1] + [1] + [1];
    TotalOn([4], [4] + [8] + [8] + [1] + [1] + [1]);
    assert Total([4, 4, 8, 8, 1, 1, 1]) == 27;
  }

  // ---------- encoding ----------

  function Encoded(s: Saved): (r: seq<byte>)
    requires Shaped(s.value)
    ensures |r| == SIZE
  {
    WidthsTotal();
    Seal(Lay(Fields(s), Widths()) + Zeros(SIZE - 4 - USED))
  }

  method EncodeSettings(s: Saved) returns (record: array<byte>)
    requires Shaped(s.value)
    ensures record[..] == Encoded(s) && fresh(record)
  {
    record := new byte[SIZE](_ => 0);
    WidthsTotal();
    assert record[..] == Zeros(SIZE);
    PutFields(record, Fields(s), Widths());
    assert record[..SIZE - 4] == Lay(Fields(s), Widths()) + Zeros(SIZE - 4 - USED);
    var crc := ComputeCrc(record[..SIZE - 4]);
    PutBytes(record, SIZE - 4, crc, 4);
    LittleIsPut(crc);
  }

  // ---------- decoding ----------

  function RuleOf(v: seq<nat>): Rule
    requires |v| == 6
  {
    Rule(Signed(v[0], 0x1_0000_0000), v[1], v[2], v[3], v[4], v[5])
  }

  function OffsetsOf(v: seq<nat>): seq<int>
    requires |v| == 6
  {
    seq(6, i requires 0 <= i < 6 => Signed(v[i], 0x10000))
  }

  /** The settings that fields stand for, before they are checked as settings. */
  function FromFields(v: seq<nat>): Option<Saved>
    requires |v| == 126
  {
    FromParts(v[..7], v[7..13], v[13..16], v[16..112], v[112..114], v[114..120], v[120..])
  }

  function FromParts(head: seq<nat>, offsets: seq<nat>, counts: seq<nat>, name: seq<nat>, shifts: seq<nat>, start: seq<nat>, end: seq<nat>): Option<Saved>
    requires |head| == 7 && |offsets| == 6 && |counts| == 3 && |name| == NAME_SIZE && |shifts| == 2 && |start| == 6 && |end| == 6
  {
    if head[5] > 1 || counts[0] > 31 || counts[2] > NAME_SIZE then None
    else Some(Saved(head[1], Settings(head[2], head[3], head[4], head[5] == 1, head[6], OffsetsOf(offsets), Unbits(counts[0]),
      counts[1], name[..counts[2]], Signed(shifts[0], 0x1_0000_0000), Signed(shifts[1], 0x1_0000_0000), RuleOf(start), RuleOf(end))))
  }

  function Decoded(coordinates: (nat, nat) -> bool, r: seq<byte>): Option<Saved>
    requires |r| == SIZE
  {
    WidthsTotal();
    if !Sealed(r) || r[..4] != Put(MAGIC) then None
    else
      var candidate := FromFields(Take(Widths(), r[..USED]));
      if candidate.None? || candidate.value.revision == 0 || !Valid(coordinates, candidate.value.value)
         || Encoded(candidate.value) != r then None
      else candidate
  }

  method DecodeSettings(coordinates: (nat, nat) -> bool, r: seq<byte>) returns (out: Option<Saved>)
    requires |r| == SIZE
    ensures out == Decoded(coordinates, r)
  {
    var crc := ComputeCrc(r[..SIZE - 4]);
    if Get(r[SIZE - 4..]) != crc || r[..4] != Put(MAGIC) {
      return None;
    }
    WidthsTotal();
    var v := GetFields(r[..USED], Widths());
    out := FromFields(v);
    if out.None? || out.value.revision == 0 || !Valid(coordinates, out.value.value) {
      return None;
    }
    var again := EncodeSettings(out.value);
    if again[..] != r {
      return None;
    }
  }

  // ---------- round trips ----------

  lemma Parts(a: seq<nat>, b: seq<nat>, c: seq<nat>, d: seq<nat>, e: seq<nat>, f: seq<nat>, g: seq<nat>, v: seq<nat>)
    requires |a| == 7 && |b| == 6 && |c| == 3 && |d| == NAME_SIZE && |e| == 2 && |f| == 6 && |g| == 6 && v == a + b + c + d + e + f + g
    ensures |v| == 126 && v[..7] == a && v[7..13] == b && v[13..16] == c && v[16..112] == d && v[112..114] == e && v[114..120] == f && v[120..] == g
  {
  }

  lemma SignedWrapped(x: int, size: nat)
    requires size > 0 && 0 - size <= 2 * x < size
    ensures Signed(Wrapped(x, size), size) == x && Wrapped(x, size) < size
  {
    if x < 0 { Remainder(x, size); }
  }

  lemma Remainder(x: int, size: nat)
    requires 0 - size <= x < 0
    ensures x % size == x + size
  {
  }

  lemma RuleBack(r: Rule)
    requires ValidRule(r)
    ensures RuleOf(RuleFields(r)) == r
    ensures Fit(RuleFields(r), RULE_WIDTHS)
  {
    SignedWrapped(r.time, 0x1_0000_0000);
    Limits();
  }

  lemma Limits()
    ensures Limit(1) == 0x100 && Limit(2) == 0x1_0000 && Limit(4) == 0x1_0000_0000
  {
  }

  lemma UnbitsBits(enabled: seq<bool>)
    requires |enabled| == 5
    ensures Unbits(Bits(enabled)) == enabled && Bits(enabled) <= 31
  {
  }

  lemma OffsetsBack(offsets: seq<int>)
    requires |offsets| == 6 && forall i :: 0 <= i < 6 ==> -120 <= offsets[i] <= 120
    ensures OffsetsOf(OffsetFields(offsets)) == offsets && Fit(OffsetFields(offsets), Repeat(2, 6))
  {
    Limits();
    forall i | 0 <= i < 6 ensures Signed(Wrapped(offsets[i], 0x10000), 0x10000) == offsets[i] && Wrapped(offsets[i], 0x10000) < 0x10000 {
      SignedWrapped(offsets[i], 0x10000);
    }
  }

  lemma NameBack(zone: seq<nat>)
    requires |zone| <= NAME_SIZE && forall i :: 0 <= i < |zone| ==> 33 <= zone[i] <= 126
    ensures NameFields(zone)[..|zone|] == zone && Fit(NameFields(zone), Repeat(1, NAME_SIZE))
  {
    Limits();
  }

  /** Valid settings are what their fields stand for. */
  lemma FieldsBack(coordinates: (nat, nat) -> bool, s: Saved)
    requires Valid(coordinates, s.value)
    ensures FromFields(Fields(s)) == Some(s)
  {
    var t := s.value;
    Parts(HeadFields(s), OffsetFields(t.offsets), CountFields(t), NameFields(t.zone), ShiftFields(t), RuleFields(t.start), RuleFields(t.end), Fields(s));
    OffsetsBack(t.offsets);
    UnbitsBits(t.enabled);
    NameBack(t.zone);
    SignedWrapped(t.standard, 0x1_0000_0000);
    SignedWrapped(t.daylight, 0x1_0000_0000);
    RuleBack(t.start);
    RuleBack(t.end);
  }

  lemma FitOn(a: seq<nat>, v: seq<nat>, b: seq<nat>, w: seq<nat>)
    requires Fit(a, v) && Fit(b, w)
    ensures Fit(a + b, v + w)
  {
    forall i | 0 <= i < |a + b| ensures (a + b)[i] < Limit((v + w)[i]) {
      if i < |a| { assert a[i] < Limit(v[i]); } else { assert b[i - |a|] < Limit(w[i - |a|]); }
    }
  }

  lemma FieldsFit(coordinates: (nat, nat) -> bool, s: Saved)
    requires Valid(coordinates, s.value) && s.revision < 0x1_0000_0000
    ensures Fit(Fields(s), Widths())
  {
    var t := s.value;
    Limits();
    OffsetsBack(t.offsets);
    UnbitsBits(t.enabled);
    NameBack(t.zone);
    RuleBack(t.start);
    RuleBack(t.end);
    HeadFit(s);
    var a, v := HeadFields(s), HEAD_WIDTHS;
    FitOn(a, v, OffsetFields(t.offsets), Repeat(2, 6));
    a, v := a + OffsetFields(t.offsets), v + Repeat(2, 6);
    FitOn(a, v, CountFields(t), Repeat(1, 3));
    a, v := a + CountFields(t), v + Repeat(1, 3);
    FitOn(a, v, NameFields(t.zone), Repeat(1, NAME_SIZE));
    a, v := a + NameFields(t.zone), v + Repeat(1, NAME_SIZE);
    FitOn(a, v, ShiftFields(t), Repeat(4, 2));
    a, v := a + ShiftFields(t), v + Repeat(4, 2);
    FitOn(a, v, RuleFields(t.start), RULE_WIDTHS);
    a, v := a + RuleFields(t.start), v + RULE_WIDTHS;
    FitOn(a, v, RuleFields(t.end), RULE_WIDTHS);
  }

  lemma HeadFit(s: Saved)
    requires s.revision < 0x1_0000_0000 && s.value.latitude < Limit(8) && s.value.longitude < Limit(8)
    requires s.value.rule < 0x100 && s.value.highLatitude < 0x100
    ensures Fit(HeadFields(s), HEAD_WIDTHS)
  {
    Limits();
  }

  /** Every valid set of settings with a revision survives the record. */
  lemma DecodeEncode(coordinates: (nat, nat) -> bool, s: Saved)
    requires Valid(coordinates, s.value) && 0 < s.revision < 0x1_0000_0000
    ensures Decoded(coordinates, Encoded(s)) == Some(s)
  {
    EncodedParts(s);
    FieldsRead(coordinates, s, Encoded(s)[..USED]);
    FieldsBack(coordinates, s);
  }

  lemma FieldsRead(coordinates: (nat, nat) -> bool, s: Saved, used: seq<byte>)
    requires Valid(coordinates, s.value) && s.revision < 0x1_0000_0000 && used == Lay(Fields(s), Widths())
    ensures Take(Widths(), used) == Fields(s)
  {
    FieldsFit(coordinates, s);
    TakeLay(Fields(s), Widths());
  }

  lemma EncodedParts(s: Saved)
    requires Shaped(s.value)
    ensures var r := Encoded(s); Sealed(r) && r[..USED] == Lay(Fields(s), Widths()) && r[..4] == Put(MAGIC)
    ensures Total(Widths()) == USED
  {
    WidthsTotal();
    var used := Lay(Fields(s), Widths());
    var body := used + Zeros(SIZE - 4 - USED);
    SealIsSealed(body);
    Fronts(Seal(body), body, used);
    Magic(s, Encoded(s));
  }

  lemma Fronts(r: seq<byte>, body: seq<byte>, used: seq<byte>)
    requires |r| == SIZE && |used| == USED && r[..SIZE - 4] == body && body == used + Zeros(SIZE - 4 - USED)
    ensures r[..USED] == used
  {
    assert r[..USED] == r[..SIZE - 4][..USED];
  }

  lemma Magic(s: Saved, r: seq<byte>)
    requires Shaped(s.value) && |r| == SIZE && r[..USED] == Lay(Fields(s), Widths())
    ensures r[..4] == Put(MAGIC)
  {
    assert Fields(s)[0] == MAGIC && Widths()[0] == 4;
    LittleIsPut(MAGIC);
    assert r[..USED][..4] == Little(MAGIC, 4);
    assert r[..4] == r[..USED][..4];
  }

  // ---------- what the comparison with a fresh encoding is for ----------

  const NAME_AT := 42

  /** The bytes behind the name and behind the fields are zero. */
  predicate Unused(r: seq<byte>, length: nat)
    requires |r| == SIZE
  {
    && (forall i :: NAME_AT + length <= i < NAME_AT + NAME_SIZE ==> r[i] == 0)
    && (forall i :: USED <= i < SIZE - 4 ==> r[i] == 0)
  }

  /** What the reader has checked before it encodes again. */
  predicate Plausible(coordinates: (nat, nat) -> bool, r: seq<byte>)
    requires |r| == SIZE
  {
    WidthsTotal();
    var candidate := FromFields(Take(Widths(), r[..USED]));
    && Sealed(r) && r[..4] == Put(MAGIC) && candidate.Some? && candidate.value.revision > 0
    && Valid(coordinates, candidate.value.value)
  }

  lemma WrappedSigned(v: nat, size: nat)
    requires v < size
    ensures Wrapped(Signed(v, size), size) == v
  {
    if size <= 2 * v { Remainder(v - size, size); }
  }

  lemma BitsUnbits(v: nat)
    requires v <= 31
    ensures Bits(Unbits(v)) == v
  {
  }

  lemma OffsetsAgain(v: seq<nat>)
    requires |v| == 6 && Fit(v, Repeat(2, 6))
    ensures OffsetFields(OffsetsOf(v)) == v
  {
    Limits();
    forall i | 0 <= i < 6 ensures Wrapped(Signed(v[i], 0x10000), 0x10000) == v[i] {
      assert v[i] < Limit(Repeat(2, 6)[i]);
      WrappedSigned(v[i], 0x10000);
    }
  }

  lemma RuleAgain(v: seq<nat>)
    requires |v| == 6 && v[0] < 0x1_0000_0000
    ensures RuleFields(RuleOf(v)) == v
  {
    WrappedSigned(v[0], 0x1_0000_0000);
  }

  lemma ShiftsAgain(v: seq<nat>, s: Settings)
    requires |v| == 2 && v[0] < 0x1_0000_0000 && v[1] < 0x1_0000_0000
    requires s.standard == Signed(v[0], 0x1_0000_0000) && s.daylight == Signed(v[1], 0x1_0000_0000)
    ensures ShiftFields(s) == v
  {
    WrappedSigned(v[0], 0x1_0000_0000);
    WrappedSigned(v[1], 0x1_0000_0000);
  }

  lemma WidthsAt()
    ensures |Widths()| == 126 && Widths()[..7] == HEAD_WIDTHS && Widths()[7..13] == Repeat(2, 6)
    ensures Widths()[112..114] == Repeat(4, 2) && Widths()[114] == 4 && Widths()[120] == 4
    ensures forall i :: 13 <= i < 112 ==> Widths()[i] == 1
  {
  }

  ghost predicate Bounded(v: seq<nat>) {
    && |v| == 126 && Fit(v[7..13], Repeat(2, 6))
    && v[112] < 0x1_0000_0000 && v[113] < 0x1_0000_0000 && v[114] < 0x1_0000_0000 && v[120] < 0x1_0000_0000
  }

  lemma FitBounds(v: seq<nat>)
    requires Fit(v, Widths())
    ensures Bounded(v)
  {
    WidthsAt();
    Limits();
    forall i | 0 <= i < 6 ensures v[7..13][i] < Limit(Repeat(2, 6)[i]) {
      assert v[7 + i] < Limit(Widths()[7 + i]) && Widths()[7..13][i] == Widths()[7 + i];
    }
    assert Widths()[112] == Widths()[112..114][0] && Widths()[113] == Widths()[112..114][1];
    assert v[112] < Limit(Widths()[112]) && v[113] < Limit(Widths()[113]);
    assert v[114] < Limit(Widths()[114]) && v[120] < Limit(Widths()[120]);
  }

  /** Nothing follows the first `length` entries. */
  predicate Blank(name: seq<nat>, length: nat) { forall i :: length <= i < |name| ==> name[i] == 0 }

  lemma NameAgain(name: seq<nat>, length: nat)
    requires |name| == NAME_SIZE && length <= NAME_SIZE
    ensures NameFields(name[..length]) == name <==> Blank(name, length)
  {
    if NameFields(name[..length]) == name {
      assert forall i :: length <= i < NAME_SIZE ==> name[i] == NameFields(name[..length])[i];
    }
  }

  /** Fields are those of the settings they stand for, but for the magic and the unused name bytes. */
  lemma FieldsAgain(v: seq<nat>)
    requires Bounded(v) && FromFields(v).Some? && v[0] == MAGIC
    ensures var s := FromFields(v).value;
      && Shaped(s.value) && |s.value.zone| == v[15]
      && (Fields(s) == v <==> Blank(v[16..112], v[15]))
  {
    var s := FromFields(v).value;
    var a, b, c, d, e, f, g := v[..7], v[7..13], v[13..16], v[16..112], v[112..114], v[114..120], v[120..];
    assert HeadFields(s) == a;
    OffsetsAgain(b);
    BitsUnbits(c[0]);
    assert CountFields(s.value) == c;
    ShiftsAgain(e, s.value);
    RuleAgain(f);
    RuleAgain(g);
    NameAgain(d, c[2]);
    OnlyName(a, b, c, d, e, f, g, NameFields(s.value.zone), v);
  }

  lemma OnlyName(a: seq<nat>, b: seq<nat>, c: seq<nat>, d: seq<nat>, e: seq<nat>, f: seq<nat>, g: seq<nat>, d': seq<nat>, v: seq<nat>)
    requires |v| == 126 && v[..7] == a && v[7..13] == b && v[13..16] == c && v[16..112] == d && v[112..114] == e && v[114..120] == f && v[120..] == g
    requires |d'| == NAME_SIZE
    ensures a + b + c + d' + e + f + g == v <==> d' == d
  {
    var w := a + b + c + d' + e + f + g;
    assert v == a + b + c + d + e + f + g;
    assert w[16..112] == d';
  }

  /** Name byte `i` is a field of its own. */
  lemma NameByte(used: seq<byte>, i: nat)
    requires |used| == USED && i < NAME_SIZE
    ensures Total(Widths()) == USED && |Widths()| == 126 && Take(Widths(), used)[16..112][i] == used[NAME_AT + i]
  {
    WidthsTotal();
    WidthsAt();
    NameOffset(i);
    FieldAt(Widths(), used, 16 + i, NAME_AT + i);
    OneByte(used, NAME_AT + i);
  }

  lemma BlankName(r: seq<byte>, length: nat)
    requires |r| == SIZE && length <= NAME_SIZE
    ensures Total(Widths()) == USED && |Widths()| == 126
    ensures Blank(Take(Widths(), r[..USED])[16..112], length) <==> forall i :: NAME_AT + length <= i < NAME_AT + NAME_SIZE ==> r[i] == 0
  {
    WidthsTotal();
    var name := Take(Widths(), r[..USED])[16..112];
    forall i | 0 <= i < NAME_SIZE ensures name[i] == r[NAME_AT + i] {
      NameByte(r[..USED], i);
    }
    if Blank(name, length) {
      forall i | NAME_AT + length <= i < NAME_AT + NAME_SIZE ensures r[i] == 0 {
        assert name[i - NAME_AT] == r[NAME_AT + (i - NAME_AT)];
      }
    }
  }

  lemma OneByte(s: seq<byte>, k: nat)
    requires k < |s|
    ensures FromLittle(s[k..k + 1]) == s[k]
  {
    assert s[k..k + 1] == [s[k]] && [s[k]][1..] == [];
  }

  lemma NameOffset(i: nat)
    requires i < NAME_SIZE
    ensures |Widths()| == 126 && Total(Widths()[..16 + i]) == NAME_AT + i
  {
    var a := HEAD_WIDTHS + Repeat(2, 6);
    var b := a + Repeat(1, 3);
    assert Widths()[..16 + i] == b + Repeat(1, i);
    SmallTotals();
    TotalRepeat(2, 6);
    TotalRepeat(1, 3);
    TotalRepeat(1, i);
    TotalOn(HEAD_WIDTHS, Repeat(2, 6));
    TotalOn(a, Repeat(1, 3));
    TotalOn(b, Repeat(1, i));
  }

  /** Encoding again gives the record back exactly when the fields agree and the rest is zero. */
  lemma EncodedIs(coordinates: (nat, nat) -> bool, s: Saved, r: seq<byte>)
    requires |r| == SIZE && Sealed(r) && Valid(coordinates, s.value) && s.revision < 0x1_0000_0000
    ensures Total(Widths()) == USED
    ensures Encoded(s) == r <==> Fields(s) == Take(Widths(), r[..USED]) && forall i :: USED <= i < SIZE - 4 ==> r[i] == 0
  {
    WidthsTotal();
    var used, body := r[..USED], r[..SIZE - 4];
    SealedIsSeal(r);
    LayTake(Widths(), used);
    FieldsFit(coordinates, s);
    TakeLay(Fields(s), Widths());
    var again := Lay(Fields(s), Widths()) + Zeros(SIZE - 4 - USED);
    SealIsSealed(again);
    Tail(r, body, used, Lay(Fields(s), Widths()));
    assert Encoded(s) == r <==> again == body;
  }

  lemma Tail(r: seq<byte>, body: seq<byte>, used: seq<byte>, laid: seq<byte>)
    requires |r| == SIZE && body == r[..SIZE - 4] && used == r[..USED] && |laid| == USED
    ensures laid + Zeros(SIZE - 4 - USED) == body <==> laid == used && forall i :: USED <= i < SIZE - 4 ==> r[i] == 0
  {
    var again := laid + Zeros(SIZE - 4 - USED);
    if again == body {
      assert again[..USED] == laid && body[..USED] == used;
      assert forall i :: USED <= i < SIZE - 4 ==> r[i] == again[i];
    }
  }

  lemma RevisionFits(v: seq<nat>)
    requires Fit(v, Widths()) && |v| == 126
    ensures v[1] < 0x1_0000_0000
  {
    Limits();
    assert v[1] < Limit(Widths()[1]);
  }

  lemma MagicBack()
    ensures FromLittle(Put(MAGIC)) == MAGIC
  {
    Limits();
    LittleIsPut(MAGIC);
    LittleBack(MAGIC, 4);
  }

  lemma MagicField(r: seq<byte>)
    requires |r| == SIZE && r[..4] == Put(MAGIC)
    ensures Total(Widths()) == USED && |Widths()| == 126 && Take(Widths(), r[..USED])[0] == MAGIC
  {
    WidthsTotal();
    MagicBack();
    assert r[..USED][..4] == r[..4] && Widths()[0] == 4;
    FirstField(Widths(), r[..USED]);
  }

  lemma PlausibleAccepted(coordinates: (nat, nat) -> bool, r: seq<byte>, s: Saved)
    requires |r| == SIZE && Total(Widths()) == USED && |Widths()| == 126
    requires Plausible(coordinates, r) && FromFields(Take(Widths(), r[..USED])) == Some(s)
    ensures Encoded(s) == r <==> Unused(r, |s.value.zone|)
  {
    var v := Take(Widths(), r[..USED]);
    LayTake(Widths(), r[..USED]);
    FitBounds(v);
    MagicField(r);
    RevisionFits(v);
    FieldsAgain(v);
    EncodedIs(coordinates, s, r);
    BlankName(r, v[15]);
  }

  /**
   The comparison with a fresh encoding adds exactly one thing to the checks before it:
   every byte that stands for nothing is zero.
   */
  lemma AcceptedExactly(coordinates: (nat, nat) -> bool, r: seq<byte>)
    requires |r| == SIZE
    ensures Total(Widths()) == USED && |Widths()| == 126
    ensures Decoded(coordinates, r).Some? <==>
      Plausible(coordinates, r) && Unused(r, |FromFields(Take(Widths(), r[..USED])).value.value.zone|)
  {
    WidthsTotal();
    if Plausible(coordinates, r) {
      PlausibleAccepted(coordinates, r, FromFields(Take(Widths(), r[..USED])).value);
    }
  }

  /** Damage to any one byte is noticed. */
  lemma DamagedByteRejected(coordinates: (nat, nat) -> bool, r: seq<byte>, i: nat, b: byte)
    requires |r| == SIZE && i < SIZE && b != r[i] && Decoded(coordinates, r).Some?
    ensures Decoded(coordinates, r[i := b]).None?
  {
    DamageBreaksSeal(r, i, b);
  }
}
