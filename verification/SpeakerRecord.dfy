/** The durable record of the speaker's name. */
module SpeakerRecord {
  import opened Checksum
  import opened RecordFields
  import opened SpeakerName
  import opened Words
  import opened Wrappers

  const SIZE := 144
  const TAG: seq<byte> := [0x4F, 0x41, 0x4E, 1]

  datatype Saved = Saved(revision: u32, name: seq<byte>)

  function Body(s: Saved): (r: seq<byte>)
    requires |s.name| <= MAX_BYTES
    ensures |r| == SIZE - 4
  {
    TAG + Put(s.revision) + [|s.name|] + Zeros(3) + s.name + Zeros(MAX_BYTES - |s.name|)
  }

  /** A name that is too long is written as an empty record. */
  function Encoded(s: Saved): (r: seq<byte>)
    ensures |r| == SIZE
  {
    if |s.name| > MAX_BYTES then Zeros(SIZE) else Seal(Body(s))
  }

  method EncodeName(s: Saved) returns (record: array<byte>)
    ensures record[..] == Encoded(s) && fresh(record)
  {
    record := new byte[SIZE](_ => 0);
    if |s.name| > MAX_BYTES {
      assert record[..] == Zeros(SIZE);
      return;
    }
    assert record[..] == [] + Zeros(SIZE);
    CopyOn(record, 0, TAG, []);
    ghost var a := [] + Zeros(0) + TAG;
    CopyOn(record, 4, Little(s.revision, 4), a);
    ghost var b := a + Zeros(0) + Little(s.revision, 4);
    CopyOn(record, 8, [|s.name|], b);
    ghost var c := b + Zeros(0) + [|s.name|];
    CopyOn(record, 12, s.name, c);
    LittleIsPut(s.revision);
    BodyLaid(s, c + Zeros(3) + s.name, record[..]);
    var crc := ComputeCrc(record[..SIZE - 4]);
    PutBytes(record, SIZE - 4, crc, 4);
    LittleIsPut(crc);
  }

  lemma BodyLaid(s: Saved, filled: seq<byte>, r: seq<byte>)
    requires |s.name| <= MAX_BYTES
    requires filled == [] + Zeros(0) + TAG + Zeros(0) + Put(s.revision) + Zeros(0) + [|s.name|] + Zeros(3) + s.name
    requires r == filled + Zeros(SIZE - 12 - |s.name|)
    ensures |r| == SIZE && r[..SIZE - 4] == Body(s)
  {
    assert Zeros(0) == [];
    assert Zeros(SIZE - 12 - |s.name|)[..MAX_BYTES - |s.name|] == Zeros(MAX_BYTES - |s.name|);
  }

  function Decoded(r: seq<byte>): Option<Saved>
    requires |r| == SIZE
  {
    if !Sealed(r) || r[8] > 128 || Get(r[4..8]) == 0 then None
    else
      var candidate := Saved(Get(r[4..8]), r[12..12 + r[8] as int]);
      if !Accepted(Trim(candidate.name)) || Trim(candidate.name) != candidate.name || Encoded(candidate) != r then None
      else Some(candidate)
  }

  method DecodeName(r: seq<byte>) returns (out: Option<Saved>)
    requires |r| == SIZE
    ensures out == Decoded(r)
  {
    var crc := ComputeCrc(r[..SIZE - 4]);
    if Get(r[SIZE - 4..]) != crc || r[8] > 128 || Get(r[4..8]) == 0 {
      return None;
    }
    var candidate := Saved(Get(r[4..8]), r[12..12 + r[8] as int]);
    var ok, normalized := Normalize(candidate.name);
    AcceptedExactly(Trim(candidate.name));
    if !ok || normalized != candidate.name {
      return None;
    }
    var again := EncodeName(candidate);
    if again[..] != r {
      return None;
    }
    out := Some(candidate);
  }

  lemma BodyParts(s: Saved)
    requires |s.name| <= MAX_BYTES
    ensures var r := Encoded(s); Sealed(r) && r[8] as int == |s.name| && Get(r[4..8]) == s.revision && r[12..12 + |s.name|] == s.name
  {
    var body := Body(s);
    var r := Encoded(s);
    SealIsSealed(body);
    BodySlices(s, body);
    assert r[8] == r[..SIZE - 4][8];
    assert r[4..8] == r[..SIZE - 4][4..8] && r[12..12 + |s.name|] == r[..SIZE - 4][12..12 + |s.name|];
    GetPut(s.revision);
  }

  lemma BodySlices(s: Saved, body: seq<byte>)
    requires |s.name| <= MAX_BYTES && body == Body(s)
    ensures body[8] as int == |s.name| && body[4..8] == Put(s.revision) && body[12..12 + |s.name|] == s.name
  {
  }

  /** Every name that is accepted survives the record, trimmed. */
  lemma NameSurvives(input: seq<byte>, revision: u32)
    requires NameBytes(Trim(input)) && revision > 0
    ensures Decoded(Encoded(Saved(revision, Trim(input)))) == Some(Saved(revision, Trim(input)))
  {
    AcceptedExactly(Trim(input));
    NormalizedAgain(input);
    BodyParts(Saved(revision, Trim(input)));
  }

  /** What is accepted holds a trimmed, well-formed name, and is the only record of it. */
  lemma DecodedIsName(r: seq<byte>)
    requires |r| == SIZE && Decoded(r).Some?
    ensures var s := Decoded(r).value; s.revision > 0 && NameBytes(s.name) && Trim(s.name) == s.name && Encoded(s) == r
  {
    AcceptedExactly(Decoded(r).value.name);
  }

  lemma DamagedByteRejected(r: seq<byte>, i: nat, b: byte)
    requires |r| == SIZE && i < SIZE && b != r[i] && Decoded(r).Some?
    ensures Decoded(r[i := b]).None?
  {
    DamageBreaksSeal(r, i, b);
  }
}
