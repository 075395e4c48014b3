/**
 The flash bank of the optional recording: how it is laid out, when the device believes it,
 and the host tool's own form of it.
 */
module DuaBank {
  import opened Words
  import opened Wrappers

  const BANK_SIZE := 0x40000
  const HEADER_SIZE := 4096
  const MAX_BYTES := 258048
  const ENVELOPE_MAX := 2048
  const HASHED := 4060
  const MARK_AT := 4092
  const MAGIC: seq<byte> := [0x4F, 0x41, 0x44, 0x55, 0x41, 0x30, 0x30, 0x31]
  const COMMIT: u32 := 0x314D4F43

  /** The digest and the signature check; a digest is 32 bytes. */
  datatype Laws = Laws(sha: seq<byte> -> seq<byte>, verify: (seq<byte>, nat, seq<byte>) -> bool)

  predicate Digests(laws: Laws, s: seq<byte>) { |laws.sha(s)| == 32 }

  function Erased(n: nat): seq<byte> { seq(n, _ => 0xFF) }

  function ReadU32(b: seq<byte>, at: nat): u32
    requires at + 4 <= |b|
  {
    Get(b[at..at + 4])
  }

  predicate Marked(b: seq<byte>)
    requires |b| == BANK_SIZE
  {
    ReadU32(b, MARK_AT) == COMMIT
  }

  datatype Bank = Bank(generation: nat, payload: seq<byte>, digest: seq<byte>, envelope: seq<byte>)

  predicate Recognized(b: seq<byte>) { |b| >= 8 && b[..8] == MAGIC }

  /** What the device believes of a bank's bytes. */
  function Validated(laws: Laws, b: seq<byte>): Option<Bank>
    requires |b| == BANK_SIZE
  {
    if !Recognized(b) || ReadU32(b, MARK_AT) != COMMIT || ReadU32(b, 20) != 1 || ReadU32(b, 8) == 0
       || laws.sha(b[..HASHED]) != b[HASHED..MARK_AT] then None
    else
      var length, size := ReadU32(b, 12), ReadU32(b, 16);
      if length == 0 || length > MAX_BYTES || size == 0 || size > ENVELOPE_MAX
         || !laws.verify(b[64..64 + size], length, b[24..56])
         || laws.sha(b[HEADER_SIZE..HEADER_SIZE + length]) != b[24..56] then None
      else Some(Bank(ReadU32(b, 8), b[HEADER_SIZE..HEADER_SIZE + length], b[24..56], b[64..64 + size]))
  }

  /**
   Where the parts of a believed bank lie: the magic, generation, the two lengths and the
   version as little-endian words, the payload's digest and the envelope that vouches for both,
   the digest over all of that, the marker "COM1", and then the payload.
   */
  ghost predicate Holds(laws: Laws, b: seq<byte>, bank: Bank)
    requires |b| == 0x40000
  {
    && 0 < bank.generation < 0x1_0000_0000 && 0 < |bank.payload| <= 0x40000 - 4096 && 0 < |bank.envelope| <= 2048
    && b[0..8] == [0x4F, 0x41, 0x44, 0x55, 0x41, 0x30, 0x30, 0x31] && b[8..12] == Put(bank.generation)
    && b[12..16] == Put(|bank.payload|) && b[16..20] == Put(|bank.envelope|) && b[20..24] == [1, 0, 0, 0]
    && b[24..56] == bank.digest == laws.sha(bank.payload) && b[64..64 + |bank.envelope|] == bank.envelope
    && b[4060..4092] == laws.sha(b[0..4060]) && b[4092..4096] == [0x43, 0x4F, 0x4D, 0x31]
    && b[4096..4096 + |bank.payload|] == bank.payload && laws.verify(bank.envelope, |bank.payload|, bank.digest)
  }

  lemma WordIs(b: seq<byte>, at: nat, w: u32)
    requires at + 4 <= |b|
    ensures ReadU32(b, at) == w <==> b[at..at + 4] == Put(w)
  {
    GetPut(w);
    PutGet(b[at..at + 4]);
  }

  lemma FixedWords()
    ensures Put(1) == [1, 0, 0, 0] && Put(COMMIT) == [0x43, 0x4F, 0x4D, 0x31]
  {
  }

  /** The device believes a bank, and believes these contents of it, exactly when they lie there. */
  lemma BelievedExactly(laws: Laws, b: seq<byte>, bank: Bank)
    requires |b| == BANK_SIZE
    ensures Validated(laws, b) == Some(bank) <==> Holds(laws, b, bank)
  {
    FixedWords();
    WordIs(b, 20, 1);
    WordIs(b, MARK_AT, COMMIT);
    assert b[..8] == b[0..8] && b[..HASHED] == b[0..4060];
    if Validated(laws, b) == Some(bank) {
      WordIs(b, 8, bank.generation);
      WordIs(b, 12, |bank.payload|);
      WordIs(b, 16, |bank.envelope|);
    }
    if Holds(laws, b, bank) {
      WordIs(b, 8, bank.generation);
      WordIs(b, 12, |bank.payload|);
      WordIs(b, 16, |bank.envelope|);
    }
  }

  /** A recording that can be laid out. */
  predicate Fits(audio: seq<byte>, envelope: seq<byte>, generation: nat) {
    0 < |audio| <= MAX_BYTES && 0 < |envelope| <= ENVELOPE_MAX && 0 < generation < 0x1_0000_0000
  }

  function Described(length: nat, envelope: seq<byte>, generation: nat, digest: seq<byte>): (s: seq<byte>)
    requires length <= MAX_BYTES && |envelope| <= ENVELOPE_MAX && generation < 0x1_0000_0000 && |digest| == 32
    ensures |s| == HASHED
  {
    MAGIC + Put(generation) + Put(length) + Put(|envelope|) + Put(1) + digest + Erased(8) + envelope + Erased(HASHED - 64 - |envelope|)
  }

  /** A header as far as its marker. */
  function Header(laws: Laws, length: nat, envelope: seq<byte>, generation: nat, digest: seq<byte>): seq<byte>
    requires length <= MAX_BYTES && |envelope| <= ENVELOPE_MAX && generation < 0x1_0000_0000 && |digest| == 32
  {
    var s := Described(length, envelope, generation, digest);
    s + laws.sha(s)
  }

  /** The bank as the host tool lays it out. */
  function Image(laws: Laws, audio: seq<byte>, envelope: seq<byte>, generation: nat): seq<byte>
    requires Fits(audio, envelope, generation) && Digests(laws, audio)
  {
    Header(laws, |audio|, envelope, generation, laws.sha(audio)) + Put(COMMIT) + audio + Erased(MAX_BYTES - |audio|)
  }

  /** The fields of a described header read back. */
  lemma DescribedFields(length: nat, envelope: seq<byte>, generation: nat, digest: seq<byte>, b: seq<byte>)
    requires length <= MAX_BYTES && |envelope| <= ENVELOPE_MAX && generation < 0x1_0000_0000 && |digest| == 32
    requires |b| >= HASHED && b[..HASHED] == Described(length, envelope, generation, digest)
    ensures Recognized(b) && ReadU32(b, 8) == generation && ReadU32(b, 12) == length && ReadU32(b, 16) == |envelope| && ReadU32(b, 20) == 1
    ensures b[24..56] == digest && b[64..64 + |envelope|] == envelope
  {
    var s := Described(length, envelope, generation, digest);
    var tail := digest + Erased(8) + envelope + Erased(HASHED - 64 - |envelope|);
    assert s == MAGIC + Put(generation) + Put(length) + Put(|envelope|) + Put(1) + tail;
    NumberFields(generation, length, |envelope|, tail, s);
    TailFields(s, digest, envelope, tail);
    Within(b, s, 0, 8);
    Within(b, s, 24, 56);
    Within(b, s, 64, 64 + |envelope|);
    NumberRead(b, s, 8, generation);
    NumberRead(b, s, 12, length);
    NumberRead(b, s, 16, |envelope|);
    NumberRead(b, s, 20, 1);
  }

  lemma NumberRead(b: seq<byte>, s: seq<byte>, at: nat, w: u32)
    requires at + 4 <= HASHED && |s| == HASHED <= |b| && b[..HASHED] == s && s[at..at + 4] == Put(w)
    ensures ReadU32(b, at) == w
  {
    Within(b, s, at, at + 4);
    GetPut(w);
  }

  lemma NumberFields(generation: u32, length: u32, size: u32, tail: seq<byte>, s: seq<byte>)
    requires s == MAGIC + Put(generation) + Put(length) + Put(size) + Put(1) + tail
    ensures s[..8] == MAGIC && s[8..12] == Put(generation) && s[12..16] == Put(length) && s[16..20] == Put(size) && s[20..24] == Put(1)
    ensures s[24..] == tail
  {
  }

  lemma TailFields(s: seq<byte>, digest: seq<byte>, envelope: seq<byte>, tail: seq<byte>)
    requires |s| == HASHED && s[24..] == tail && |digest| == 32 && |envelope| <= ENVELOPE_MAX
    requires tail == digest + Erased(8) + envelope + Erased(HASHED - 64 - |envelope|)
    ensures s[24..56] == digest && s[64..64 + |envelope|] == envelope
  {
    assert s[24..56] == s[24..][..32];
    assert s[64..64 + |envelope|] == s[24..][40..40 + |envelope|];
  }

  /** Slices of the described part are slices of the whole. */
  lemma Within(b: seq<byte>, s: seq<byte>, i: nat, j: nat)
    requires i <= j <= HASHED && |s| == HASHED <= |b| && b[..HASHED] == s
    ensures b[i..j] == s[i..j]
  {
    assert b[i..j] == b[..HASHED][i..j];
  }

  /** A bank with a whole header, its marker and a payload of the right digest is believed. */
  lemma WholeIsBelieved(laws: Laws, b: seq<byte>, length: nat, envelope: seq<byte>, generation: nat, digest: seq<byte>)
    requires |b| == BANK_SIZE && 0 < length <= MAX_BYTES && 0 < |envelope| <= ENVELOPE_MAX && 0 < generation < 0x1_0000_0000
    requires |digest| == 32 && laws.verify(envelope, length, digest)
    requires Digests(laws, Described(length, envelope, generation, digest))
    requires b[..MARK_AT] == Header(laws, length, envelope, generation, digest) && Marked(b)
    requires laws.sha(b[HEADER_SIZE..HEADER_SIZE + length]) == digest
    ensures Validated(laws, b) == Some(Bank(generation, b[HEADER_SIZE..HEADER_SIZE + length], digest, envelope))
  {
    var s := Described(length, envelope, generation, digest);
    HeaderParts(laws, b, s);
    DescribedFields(length, envelope, generation, digest, b);
  }

  lemma HeaderParts(laws: Laws, b: seq<byte>, s: seq<byte>)
    requires |b| == BANK_SIZE && |s| == HASHED && Digests(laws, s) && b[..MARK_AT] == s + laws.sha(s)
    ensures b[..HASHED] == s && b[HASHED..MARK_AT] == laws.sha(s)
  {
    assert b[..HASHED] == b[..MARK_AT][..HASHED];
    assert b[HASHED..MARK_AT] == b[..MARK_AT][HASHED..];
  }

  /** Every bank the host tool lays out with a verified envelope is believed, and reads back as what was laid out. */
  lemma ImageIsBelieved(laws: Laws, audio: seq<byte>, envelope: seq<byte>, generation: nat)
    requires Fits(audio, envelope, generation) && Digests(laws, audio)
    requires Digests(laws, Described(|audio|, envelope, generation, laws.sha(audio)))
    requires laws.verify(envelope, |audio|, laws.sha(audio))
    ensures |Image(laws, audio, envelope, generation)| == BANK_SIZE
    ensures Validated(laws, Image(laws, audio, envelope, generation)) == Some(Bank(generation, audio, laws.sha(audio), envelope))
  {
    var h := Header(laws, |audio|, envelope, generation, laws.sha(audio));
    var b := Image(laws, audio, envelope, generation);
    ImageParts(h, audio, b);
    GetPut(COMMIT);
    WholeIsBelieved(laws, b, |audio|, envelope, generation, laws.sha(audio));
  }

  lemma ImageParts(h: seq<byte>, audio: seq<byte>, b: seq<byte>)
    requires |h| == MARK_AT && |audio| <= MAX_BYTES && b == h + Put(COMMIT) + audio + Erased(MAX_BYTES - |audio|)
    ensures |b| == BANK_SIZE && b[..MARK_AT] == h && b[MARK_AT..MARK_AT + 4] == Put(COMMIT)
    ensures b[HEADER_SIZE..HEADER_SIZE + |audio|] == audio
  {
  }

  /** The host tool's reader: what it accepts is laid out in exactly one way. */
  function ReadBank(laws: Laws, data: seq<byte>): Option<(seq<byte>, seq<byte>, nat)> {
    if |data| != BANK_SIZE then None
    else
      var generation, length, size := ReadU32(data, 8), ReadU32(data, 12), ReadU32(data, 16);
      if !Recognized(data) || generation == 0 || ReadU32(data, 20) != 1 || length == 0 || length > MAX_BYTES
         || size == 0 || size > ENVELOPE_MAX || ReadU32(data, MARK_AT) != COMMIT
         || laws.sha(data[..HASHED]) != data[HASHED..MARK_AT] then None
      else
        var audio, envelope := data[HEADER_SIZE..HEADER_SIZE + length], data[64..64 + size];
        if laws.sha(audio) != data[24..56] || !laws.verify(envelope, length, laws.sha(audio)) || !Digests(laws, audio) then None
        else if Image(laws, audio, envelope, generation) != data then None
        else Some((audio, envelope, generation))
  }

  /** Reading undoes laying out, and only laid-out banks are read. */
  lemma ReadBankExactly(laws: Laws, audio: seq<byte>, envelope: seq<byte>, generation: nat, data: seq<byte>)
    requires Fits(audio, envelope, generation) && Digests(laws, audio)
    requires Digests(laws, Described(|audio|, envelope, generation, laws.sha(audio)))
    requires laws.verify(envelope, |audio|, laws.sha(audio))
    ensures ReadBank(laws, data) == Some((audio, envelope, generation)) <==> data == Image(laws, audio, envelope, generation)
  {
    ImageIsBelieved(laws, audio, envelope, generation);
  }

  /** The device believes everything the host tool reads. */
  lemma HostIsStricter(laws: Laws, data: seq<byte>)
    requires ReadBank(laws, data).Some?
    ensures |data| == BANK_SIZE && Validated(laws, data).Some?
    ensures var (audio, envelope, generation) := ReadBank(laws, data).value;
      var bank := Validated(laws, data).value;
      bank.payload == audio && bank.envelope == envelope && bank.generation == generation
  {
  }
}
