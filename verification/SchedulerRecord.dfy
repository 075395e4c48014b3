/** The 36-byte durable record of the scheduler: layout, acceptance, and how the two meet. */
module SchedulerRecord {
  import opened Wrappers
  import opened Timetable
  import opened SchedulerCore
  import opened Checksum
  import opened Sequences
  import opened Words

  const MAGIC: Quad := [0x4F, 0x41, 0x53, 0x31]

  predicate ValidSerial(day: int) { FIRST_DATE - 2 <= day <= LAST_DATE + 1 }

  /** The states whose fields fit their 32-bit representation. */
  predicate Storable(st: DurableState) {
    (forall p: Prayer :: Int32(st.consumed[p])) && (st.skip.Some? ==> Int32(st.skip.value.day))
  }

  /** The states `decode_state` is meant to accept. */
  predicate Decodable(st: DurableState) {
    && (forall p: Prayer :: st.consumed[p] == NEVER_CONSUMED || ValidSerial(st.consumed[p]))
    && (st.skip.Some? ==> ValidSerial(st.skip.value.day) && st.consumed[st.skip.value.prayer] < st.skip.value.day)
  }

  // ---------------------------------------------------------------------------
  // Layout: nine four-byte fields
  // ---------------------------------------------------------------------------

  type Quad = s: seq<byte> | |s| == 4 witness [0, 0, 0, 0]

  function Flat(quads: seq<Quad>): (r: seq<byte>)
    ensures |r| == 4 * |quads|
  {
    if quads == [] then [] else Flat(quads[..|quads| - 1]) + quads[|quads| - 1]
  }

  lemma {:induction false} FlatAt(quads: seq<Quad>, i: nat)
    requires i < |quads|
    ensures Flat(quads)[4 * i..4 * i + 4] == quads[i]
  {
    if i < |quads| - 1 {
      FlatAt(quads[..|quads| - 1], i);
      assert Flat(quads)[4 * i..4 * i + 4] == Flat(quads[..|quads| - 1])[4 * i..4 * i + 4];
    }
  }

  lemma FlatSnoc(quads: seq<Quad>, q: Quad)
    ensures Flat(quads + [q]) == Flat(quads) + q
  {
    assert (quads + [q])[..|quads|] == quads;
  }

  function SerialQuad(st: DurableState, p: Prayer): Quad
    requires Storable(st)
  {
    Put(ToWord(st.consumed[p]))
  }

  function FlagQuad(skip: Option<EventKey>): Quad {
    if skip.Some? then [1, skip.value.prayer, 0, 0] else [0, 0, 0, 0]
  }

  function SkipDay(skip: Option<EventKey>): u32
    requires skip.Some? ==> Int32(skip.value.day)
  {
    if skip.Some? then ToWord(skip.value.day) else 0
  }

  function Quads(st: DurableState): seq<Quad>
    requires Storable(st)
  {
    [MAGIC, SerialQuad(st, 0), SerialQuad(st, 1), SerialQuad(st, 2), SerialQuad(st, 3), SerialQuad(st, 4),
     FlagQuad(st.skip), Put(SkipDay(st.skip))]
  }

  function Payload(st: DurableState): (r: seq<byte>)
    requires Storable(st)
    ensures |r| == 32
  {
    Flat(Quads(st))
  }

  /** What closes a record; `Crc` in the device, and any other will do for the round trips. */
  type Check = seq<byte> -> u32

  function Encoded(check: Check, st: DurableState): Record
    requires Storable(st)
  {
    Payload(st) + Put(check(Payload(st)))
  }

  /** Where everything lies in a record, to the byte. */
  lemma RecordLayout(check: Check, st: DurableState, p: Prayer)
    requires Storable(st)
    ensures var r := Encoded(check, st);
      && r[0..4] == [0x4F, 0x41, 0x53, 0x31] && r[4 + 4 * p..8 + 4 * p] == Put(ToWord(st.consumed[p]))
      && (st.skip.None? ==> r[24..32] == [0, 0, 0, 0, 0, 0, 0, 0])
      && (st.skip.Some? ==> r[24..28] == [1, st.skip.value.prayer, 0, 0] && r[28..32] == Put(ToWord(st.skip.value.day)))
      && r[32..36] == Put(check(r[0..32]))
  {
    var r, quads := Encoded(check, st), Quads(st);
    assert quads[1 + p] == SerialQuad(st, p);
    QuadAt(check, st, 0);
    QuadAt(check, st, 1 + p);
    QuadAt(check, st, 6);
    QuadAt(check, st, 7);
    assert r[0..32] == Payload(st);
    assert r[24..32] == r[24..28] + r[28..32];
  }

  lemma QuadAt(check: Check, st: DurableState, i: nat)
    requires Storable(st) && i < 8
    ensures Encoded(check, st)[4 * i..4 * i + 4] == Quads(st)[i]
  {
    FlatAt(Quads(st), i);
    assert Encoded(check, st)[4 * i..4 * i + 4] == Payload(st)[4 * i..4 * i + 4];
  }

  // ---------------------------------------------------------------------------
  // Encoding in place
  // ---------------------------------------------------------------------------

  method WriteQuad(record: array<byte>, at: nat, q: Quad)
    requires 4 * at + 4 <= record.Length
    modifies record
    ensures record[4 * at..4 * at + 4] == q
    ensures forall k :: 0 <= k < 4 * at || 4 * at + 4 <= k < record.Length ==> record[k] == old(record[k])
  {
    for i := 0 to 4
      invariant forall k :: 0 <= k < record.Length ==> record[k] == if 4 * at <= k < 4 * at + i then q[k - 4 * at] else old(record[k])
    {
      record[4 * at + i] := q[i];
    }
  }

  lemma FlatGrows(quads: seq<Quad>, n: nat, r: seq<byte>)
    requires n < |quads| && 4 * n + 4 <= |r|
    requires r[..4 * n] == Flat(quads[..n]) && r[4 * n..4 * n + 4] == quads[n]
    ensures r[..4 * n + 4] == Flat(quads[..n + 1])
  {
    assert quads[..n + 1] == quads[..n] + [quads[n]];
    FlatSnoc(quads[..n], quads[n]);
    assert r[..4 * n + 4] == r[..4 * n] + r[4 * n..4 * n + 4];
  }

  lemma AllQuads(quads: seq<Quad>, r: seq<byte>)
    requires |quads| == 8 && |r| == 36 && r[..24] == Flat(quads[..6])
    requires r[24..28] == quads[6] && r[28..32] == quads[7]
    ensures r[..32] == Flat(quads)
  {
    FlatGrows(quads, 6, r);
    FlatGrows(quads, 7, r);
    assert quads[..8] == quads;
  }

  method WriteSerials(record: array<byte>, st: DurableState)
    requires Storable(st) && record.Length == 36
    modifies record
    ensures record[..24] == Flat(Quads(st)[..6])
    ensures forall k :: 24 <= k < 36 ==> record[k] == old(record[k])
  {
    ghost var quads := Quads(st);
    WriteQuad(record, 0, MAGIC);
    assert record[..0] == Flat(quads[..0]);
    FlatGrows(quads, 0, record[..]);
    for i := 0 to 5
      invariant record[..4 + 4 * i] == Flat(quads[..1 + i])
      invariant forall k :: 24 <= k < 36 ==> record[k] == old(record[k])
    {
      ghost var before := record[..4 + 4 * i];
      var p: Prayer := i;
      assert quads[1 + i] == SerialQuad(st, p);
      WriteQuad(record, 1 + i, SerialQuad(st, p));
      assert record[..4 + 4 * i] == before;
      FlatGrows(quads, 1 + i, record[..]);
    }
  }

  method WriteSkip(record: array<byte>, skip: Option<EventKey>)
    requires record.Length == 36 && (skip.Some? ==> Int32(skip.value.day))
    requires forall k :: 24 <= k < 36 ==> record[k] == 0
    modifies record
    ensures forall k :: 0 <= k < 24 ==> record[k] == old(record[k])
    ensures record[24..28] == FlagQuad(skip) && record[28..32] == Put(SkipDay(skip))
  {
    if skip.Some? {
      record[24] := 1;
      record[25] := skip.value.prayer;
      WriteQuad(record, 7, Put(ToWord(skip.value.day)));
    }
  }

  /** Fills the record in place, field by field, and closes it with the checksum of the first 32 bytes. */
  method EncodeState(st: DurableState) returns (record: array<byte>)
    requires Storable(st)
    ensures fresh(record) && record[..] == Encoded(Crc, st)
  {
    record := new byte[36](_ => 0);
    ghost var quads := Quads(st);
    WriteSerials(record, st);
    ghost var serials := record[..24];
    WriteSkip(record, st.skip);
    assert record[..24] == serials;
    AllQuads(quads, record[..]);
    assert record[..32] == Payload(st);
    var crc := ComputeCrc(record[..32]);
    WriteQuad(record, 8, Put(crc));
    assert record[..32] == Payload(st);
    assert record[..] == record[..32] + record[32..36];
  }

  // ---------------------------------------------------------------------------
  // Decoding
  // ---------------------------------------------------------------------------

  type Record = r: seq<byte> | |r| == 36 witness seq(36, _ => 0)

  function WordAt(r: Record, at: nat): u32
    requires at < 9
  {
    Get(r[4 * at..4 * at + 4])
  }

  function SerialAt(r: Record, p: Prayer): int { FromWord(WordAt(r, 1 + p)) }

  function ReadSerials(r: Record): Watermarks {
    [SerialAt(r, 0), SerialAt(r, 1), SerialAt(r, 2), SerialAt(r, 3), SerialAt(r, 4)]
  }

  predicate Framed(check: Check, r: Record) { r[..4] == MAGIC && WordAt(r, 8) == check(r[..32]) }

  predicate FlagsOk(flags: Quad) { flags[0] <= 1 && flags[1] <= 4 && flags[2] == 0 && flags[3] == 0 }

  predicate SerialOk(serial: int) { serial == NEVER_CONSUMED || ValidSerial(serial) }

  /** What the fields of a framed record stand for. */
  function FromFields(serials: Watermarks, flags: Quad, day: u32): Option<DurableState> {
    if !FlagsOk(flags) || (exists p: Prayer :: !SerialOk(serials[p])) then None
    else if flags[0] != 0 then
      if !ValidSerial(FromWord(day)) || FromWord(day) <= serials[flags[1]] then None
      else Some(DurableState(serials, Some(EventKey(FromWord(day), flags[1]))))
    else if flags[1] != 0 || day != 0 then None
    else Some(DurableState(serials, None))
  }

  /** The state a record stands for, when it is accepted. */
  function Decoded(check: Check, r: Record): Option<DurableState> {
    if Framed(check, r) then FromFields(ReadSerials(r), r[24..28], WordAt(r, 7)) else None
  }

  /** The serials, read and checked one after the other. */
  method ReadAllSerials(r: Record) returns (serials: Watermarks, ok: bool)
    ensures ok <==> forall p: Prayer :: SerialOk(ReadSerials(r)[p])
    ensures ok ==> serials == ReadSerials(r)
  {
    serials := EMPTY_STATE.consumed;
    for i := 0 to 5
      invariant forall p: Prayer :: p < i ==> serials[p] == ReadSerials(r)[p] && SerialOk(serials[p])
    {
      var p: Prayer := i;
      var serial := FromWord(Get(r[4 + 4 * i..8 + 4 * i]));
      assert serial == ReadSerials(r)[p];
      if serial != NEVER_CONSUMED && !ValidSerial(serial) {
        return serials, false;
      }
      serials := serials[i := serial];
    }
    assert forall p: Prayer :: serials[p] == ReadSerials(r)[p];
    ok := true;
  }

  method DecodeState(r: Record) returns (out: Option<DurableState>)
    ensures out == Decoded(Crc, r)
  {
    var crc := ComputeCrc(r[..32]);
    assert r[24..28] == [r[24], r[25], r[26], r[27]];
    if r[..4] != MAGIC || r[24] > 1 || r[25] > 4 || r[26] != 0 || r[27] != 0 || Get(r[32..36]) != crc {
      return None;
    }
    var serials, ok := ReadAllSerials(r);
    if !ok {
      return None;
    }
    if r[24] != 0 {
      var serial := FromWord(Get(r[28..32]));
      if !ValidSerial(serial) || serial <= serials[r[25]] {
        return None;
      }
      return Some(DurableState(serials, Some(EventKey(serial, r[25]))));
    }
    if r[25] != 0 || Get(r[28..32]) != 0 {
      return None;
    }
    return Some(DurableState(serials, None));
  }

  // ---------------------------------------------------------------------------
  // Round trips
  // ---------------------------------------------------------------------------

  lemma EncodedQuad(check: Check, st: DurableState, i: nat)
    requires Storable(st) && i < 8
    ensures Encoded(check, st)[4 * i..4 * i + 4] == Quads(st)[i]
  {
    FlatAt(Quads(st), i);
    assert Encoded(check, st)[4 * i..4 * i + 4] == Payload(st)[4 * i..4 * i + 4];
  }

  lemma EncodedFramed(check: Check, st: DurableState)
    requires Storable(st)
    ensures Framed(check, Encoded(check, st))
  {
    var r := Encoded(check, st);
    EncodedQuad(check, st, 0);
    assert r[..32] == Payload(st) && r[32..36] == Put(check(Payload(st)));
    GetPut(check(Payload(st)));
  }

  lemma EncodedSerial(check: Check, st: DurableState, p: Prayer)
    requires Storable(st)
    ensures SerialAt(Encoded(check, st), p) == st.consumed[p]
  {
    EncodedQuad(check, st, 1 + p);
    GetPut(ToWord(st.consumed[p]));
  }

  lemma EncodedSerials(check: Check, st: DurableState)
    requires Storable(st)
    ensures ReadSerials(Encoded(check, st)) == st.consumed
  {
    var r := Encoded(check, st);
    forall p: Prayer
      ensures ReadSerials(r)[p] == SerialAt(r, p) == st.consumed[p]
    {
      EncodedSerial(check, st, p);
    }
    SameWatermarks(ReadSerials(r), st.consumed);
  }

  lemma SameWatermarks(a: Watermarks, b: Watermarks)
    requires forall p: Prayer :: a[p] == b[p]
    ensures a == b
  {
    forall i | 0 <= i < 5
      ensures a[i] == b[i]
    {
      var p: Prayer := i;
      assert a[p] == b[p];
    }
  }

  lemma EncodedFields(check: Check, st: DurableState)
    requires Storable(st)
    ensures Encoded(check, st)[24..28] == FlagQuad(st.skip) && WordAt(Encoded(check, st), 7) == SkipDay(st.skip)
  {
    EncodedQuad(check, st, 6);
    EncodedQuad(check, st, 7);
    GetPut(SkipDay(st.skip));
  }

  lemma FieldsRoundTrip(st: DurableState)
    requires Storable(st)
    ensures FromFields(st.consumed, FlagQuad(st.skip), SkipDay(st.skip)) == if Decodable(st) then Some(st) else None
  {
  }

  /** Reading back what was written gives the state exactly when its serials and skip are in order, whatever closes the record. */
  lemma DecodeEncode(check: Check, st: DurableState)
    requires Storable(st)
    ensures Decoded(check, Encoded(check, st)) == if Decodable(st) then Some(st) else None
  {
    EncodedFramed(check, st);
    EncodedSerials(check, st);
    EncodedFields(check, st);
    FieldsRoundTrip(st);
  }

  lemma DecodableStorable(st: DurableState)
    requires Decodable(st)
    ensures Storable(st)
  {
  }

  lemma FieldsCanonical(serials: Watermarks, flags: Quad, day: u32)
    requires FromFields(serials, flags, day).Some?
    ensures var st := FromFields(serials, flags, day).value;
      Decodable(st) && Storable(st) && st.consumed == serials && FlagQuad(st.skip) == flags && SkipDay(st.skip) == day
  {
    assert flags == [flags[0], flags[1], flags[2], flags[3]];
  }

  lemma DecodedSerial(r: Record, st: DurableState, p: Prayer)
    requires Storable(st) && st.consumed == ReadSerials(r)
    ensures SerialQuad(st, p) == r[4 * (1 + p)..4 * (1 + p) + 4]
  {
    assert ReadSerials(r)[p] == SerialAt(r, p);
    PutGet(r[4 * (1 + p)..4 * (1 + p) + 4]);
  }

  lemma DecodedQuad(r: Record, st: DurableState, i: nat)
    requires Storable(st) && i < 8
    requires r[..4] == MAGIC && st.consumed == ReadSerials(r)
    requires FlagQuad(st.skip) == r[24..28] && SkipDay(st.skip) == WordAt(r, 7)
    ensures Quads(st)[i] == r[4 * i..4 * i + 4]
  {
    if 1 <= i < 6 {
      DecodedSerial(r, st, i - 1);
    } else if i == 7 {
      PutGet(r[28..32]);
    }
  }

  lemma DecodedPayload(r: Record, st: DurableState)
    requires Storable(st) && r[..4] == MAGIC && st.consumed == ReadSerials(r)
    requires FlagQuad(st.skip) == r[24..28] && SkipDay(st.skip) == WordAt(r, 7)
    ensures Payload(st) == r[..32]
  {
    forall i: nat | i < 8
      ensures Quads(st)[i] == r[..32][4 * i..4 * i + 4]
    {
      DecodedQuad(r, st, i);
      assert r[..32][4 * i..4 * i + 4] == r[4 * i..4 * i + 4];
    }
    SamePieces(Quads(st), r[..32]);
  }

  lemma FramedPayload(check: Check, r: Record, st: DurableState)
    requires Framed(check, r) && Storable(st) && Payload(st) == r[..32]
    ensures Encoded(check, st) == r
  {
    PutGet(r[32..36]);
    assert r == r[..32] + r[32..36];
  }

  /** Every accepted record is the canonical encoding of a decodable state. */
  lemma EncodeDecode(check: Check, r: Record)
    requires Decoded(check, r).Some?
    ensures Decodable(Decoded(check, r).value) && Storable(Decoded(check, r).value)
    ensures Encoded(check, Decoded(check, r).value) == r
  {
    var st := Decoded(check, r).value;
    FieldsCanonical(ReadSerials(r), r[24..28], WordAt(r, 7));
    DecodedPayload(r, st);
    FramedPayload(check, r, st);
  }

  lemma {:induction false} SamePieces(quads: seq<Quad>, r: seq<byte>)
    requires |r| == 4 * |quads|
    requires forall i: nat :: i < |quads| ==> quads[i] == r[4 * i..4 * i + 4]
    ensures Flat(quads) == r
  {
    if quads != [] {
      var n := |quads| - 1;
      forall i: nat | i < n
        ensures quads[..n][i] == r[..4 * n][4 * i..4 * i + 4]
      {
        PieceOfFront(r, 4 * n, 4 * i);
      }
      SamePieces(quads[..n], r[..4 * n]);
      Rejoin(r, 4 * n);
      PieceOfEnd(r, 4 * n);
    }
  }

  lemma PieceOfFront(r: seq<byte>, n: nat, at: nat)
    requires at + 4 <= n <= |r|
    ensures r[..n][at..at + 4] == r[at..at + 4]
  {
  }

  lemma PieceOfEnd(r: seq<byte>, at: nat)
    requires |r| == at + 4
    ensures r[at..at + 4] == r[at..]
  {
  }

  /** No accepted record turns into another accepted record by damage to a single byte. */
  lemma DamagedByteRejected(r: Record, i: nat, b: byte)
    requires Decoded(Crc, r).Some? && i < 36 && b != r[i]
    ensures Decoded(Crc, r[i := b]).None?
  {
    var d: Record := r[i := b];
    if i < 32 {
      assert d[..32] == r[..32][i := b] && d[32..36] == r[32..36];
      OneByteChangesCrc(r[..32], i, b);
    } else {
      assert d[..32] == r[..32];
      assert d[32..36][i - 32] == b;
      if WordAt(d, 8) == WordAt(r, 8) {
        PutGet(d[32..36]);
        PutGet(r[32..36]);
      }
    }
  }
}
