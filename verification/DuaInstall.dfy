/**
 Installing the recording into a flash bank. Every durable change is added to `history`, and
 the power may fail at any entry. What the flash does comes from `medium`: a write may leave
 anything at all in the range it covers, whatever it reports, so nothing but what has been
 read back may be believed.
 */
module DuaInstall {
  import opened DuaBank
  import opened Sequences
  import opened Words
  import opened Wrappers

  const SECTOR := 4096

  /** `journal` is 0, or one more than the index of the only bank that may change. */
  datatype Durable = Durable(journal: nat, banks: seq<seq<byte>>)

  datatype Effect = Sure | Kept | Landed

  const RETRY_MS := 300000

  /** What the loop is told: the preference, the network, the activity gate, the player, the time, the build. */
  datatype Situation = Situation(enabled: bool, connected: bool, permitted: bool, busy: bool, now: nat, downloads: bool)

  predicate Clear(s: Situation) { s.enabled && s.connected && s.permitted && !s.busy && s.downloads }

  /** The n-th write passes through `midway` and ends as `final`; None is a perfect write. */
  datatype Medium = Medium(
    midway: nat -> Option<seq<byte>>,
    final: nat -> Option<seq<byte>>,
    reports: nat -> bool,
    erases: nat -> Effect,
    allows: nat -> bool)

  ghost predicate Form(d: Durable) {
    d.journal <= 2 && |d.banks| == 2 && |d.banks[0]| == BANK_SIZE && |d.banks[1]| == BANK_SIZE
  }

  /** A bank is as it left the factory, or is the journalled one and is believed if it carries the marker. */
  ghost predicate SafeBank(laws: Laws, origin: seq<byte>, d: Durable, i: nat)
    requires Form(d) && i < 2
  {
    d.banks[i] == origin || (d.journal == i + 1 && (Marked(d.banks[i]) ==> Validated(laws, d.banks[i]).Some?))
  }

  ghost predicate Safe(laws: Laws, origin: seq<seq<byte>>, d: Durable) {
    |origin| == 2 && Form(d) && SafeBank(laws, origin[0], d, 0) && SafeBank(laws, origin[1], d, 1)
  }

  ghost predicate Lawful(laws: Laws) { forall s :: Digests(laws, s) }

  /** The bytes of b from `at` on replaced by raw. */
  function Splice(b: seq<byte>, at: nat, raw: seq<byte>): (s: seq<byte>)
    requires at + |raw| <= |b|
    ensures |s| == |b|
  {
    b[..at] + raw + b[at + |raw|..]
  }

  lemma SpliceParts(b: seq<byte>, at: nat, raw: seq<byte>, i: nat, j: nat)
    requires at + |raw| <= |b| && i <= j <= |b|
    ensures j <= at || at + |raw| <= i ==> Splice(b, at, raw)[i..j] == b[i..j]
    ensures Splice(b, at, raw)[at..at + |raw|] == raw
  {
  }

  /** What a write leaves, given what the medium does. */
  function Left(data: seq<byte>, fault: Option<seq<byte>>): (raw: seq<byte>)
    ensures |raw| == |data|
  {
    if fault.Some? && |fault.value| == |data| then fault.value else data
  }

  /** Of the first n banks, the one believed with the highest generation, if any is believed. */
  ghost predicate Youngest(laws: Laws, banks: seq<seq<byte>>, n: nat, best: Option<Bank>, at: nat)
    requires n <= 2 == |banks| && |banks[0]| == BANK_SIZE && |banks[1]| == BANK_SIZE
  {
    && (best.Some? ==> at < n && Validated(laws, banks[at]) == best)
    && (n > 0 ==> NoYounger(laws, banks[0], best)) && (n > 1 ==> NoYounger(laws, banks[1], best))
  }

  ghost predicate NoYounger(laws: Laws, bank: seq<byte>, best: Option<Bank>)
    requires |bank| == BANK_SIZE
  {
    Validated(laws, bank).Some? ==> best.Some? && Validated(laws, bank).value.generation <= best.value.generation
  }

  /** A bank with the known magic, or with all bits set. */
  ghost predicate Ours(bank: seq<byte>)
    requires |bank| == BANK_SIZE
  {
    bank[..8] == [0x4F, 0x41, 0x44, 0x55, 0x41, 0x30, 0x30, 0x31] || forall j :: 0 <= j < 0x40000 ==> bank[j] == 0xFF
  }

  lemma OursIs(bank: seq<byte>)
    requires |bank| == BANK_SIZE
    ensures Ours(bank) <==> Recognized(bank) || bank == Erased(BANK_SIZE)
  {
  }

  lemma YoungestOn(laws: Laws, banks: seq<seq<byte>>, n: nat, best: Option<Bank>, at: nat, result: Option<Bank>)
    requires n < 2 == |banks| && |banks[0]| == BANK_SIZE && |banks[1]| == BANK_SIZE
    requires Youngest(laws, banks, n, best, at) && result == Validated(laws, banks[n])
    ensures var take := result.Some? && (best.None? || result.value.generation > best.value.generation);
      Youngest(laws, banks, n + 1, if take then result else best, if take then n else at)
  {
  }

  lemma JournalSafe(laws: Laws, origin: seq<seq<byte>>, d: Durable, journal: nat)
    requires Safe(laws, origin, d) && 1 <= journal <= 2 && d.journal in {0, journal}
    ensures Safe(laws, origin, d.(journal := journal))
  {
  }

  lemma SectorUnmarked(b: seq<byte>, at: nat)
    requires |b| == BANK_SIZE && at + SECTOR <= BANK_SIZE && (at == 0 || (at >= SECTOR && !Marked(b)))
    ensures !Marked(Splice(b, at, Erased(SECTOR)))
  {
    var t := Splice(b, at, Erased(SECTOR));
    if at == 0 {
      assert t[MARK_AT..MARK_AT + 4] == Erased(4);
    } else {
      SpliceParts(b, at, Erased(SECTOR), MARK_AT, MARK_AT + 4);
    }
  }

  lemma StillUnmarked(b: seq<byte>, at: nat, raw: seq<byte>)
    requires |b| == BANK_SIZE && !Marked(b) && (at + |raw| <= MARK_AT || (SECTOR <= at && at + |raw| <= BANK_SIZE))
    ensures !Marked(Splice(b, at, raw))
  {
    SpliceParts(b, at, raw, MARK_AT, MARK_AT + 4);
  }

  ghost predicate Perfect(medium: Medium) { forall n :: medium.final(n).None? }

  /** A medium on which everything works and says so, and a worker that is never stopped. */
  ghost predicate Flawless(medium: Medium) {
    Perfect(medium) && forall n :: medium.reports(n) && medium.erases(n).Sure? && medium.allows(n)
  }

  function Joined(chunks: seq<seq<byte>>): seq<byte> {
    if chunks == [] then [] else Joined(chunks[..|chunks| - 1]) + chunks[|chunks| - 1]
  }

  /** An erased bank with a payload. */
  function Laid(payload: seq<byte>): (s: seq<byte>)
    requires |payload| <= MAX_BYTES
    ensures |s| == BANK_SIZE
  {
    Erased(HEADER_SIZE) + payload + Erased(MAX_BYTES - |payload|)
  }

  lemma LaidBack(payload: seq<byte>)
    requires |payload| <= MAX_BYTES
    ensures Laid(payload)[HEADER_SIZE..HEADER_SIZE + |payload|] == payload
  {
  }

  lemma ErasedOn(b: seq<byte>, at: nat)
    requires |b| == BANK_SIZE && at + SECTOR <= BANK_SIZE && b[..at] == Erased(at)
    ensures Splice(b, at, Erased(SECTOR))[..at + SECTOR] == Erased(at + SECTOR)
  {
  }

  lemma NothingLaid()
    ensures Laid([]) == Erased(BANK_SIZE)
  {
  }

  lemma SliceOn(b: seq<byte>, i: nat, j: nat, k: nat)
    requires i <= j <= k <= |b|
    ensures b[i..j] + b[j..k] == b[i..k]
  {
  }

  lemma JoinedOn(chunks: seq<seq<byte>>, i: nat)
    requires i < |chunks|
    ensures Joined(chunks[..i + 1]) == Joined(chunks[..i]) + chunks[i]
  {
    assert chunks[..i + 1][..i] == chunks[..i];
  }

  lemma {:induction false} JoinedGrows(chunks: seq<seq<byte>>, i: nat)
    requires i <= |chunks|
    ensures |Joined(chunks[..i])| <= |Joined(chunks)|
    decreases |chunks|
  {
    if i == |chunks| {
      assert chunks[..i] == chunks;
    } else {
      JoinedGrows(chunks[..|chunks| - 1], i);
      assert chunks[..|chunks| - 1][..i] == chunks[..i];
    }
  }

  lemma LaidOn(payload: seq<byte>, more: seq<byte>)
    requires |payload| + |more| <= MAX_BYTES
    ensures Splice(Laid(payload), HEADER_SIZE + |payload|, more) == Laid(payload + more)
  {
  }

  /** The flash area of the download: `descriptorOk` covers what the JSON of the descriptor must say besides. */
  datatype Download = Download(descriptorOk: bool, envelope: seq<byte>, length: nat, digest: seq<byte>, chunks: seq<seq<byte>>, complete: bool)

  /** The descriptor is in order and its signature binds these bytes. */
  predicate Verified(laws: Laws, d: Download) {
    && d.descriptorOk && 0 < |d.envelope| <= ENVELOPE_MAX && 0 < d.length <= MAX_BYTES && |d.digest| == 32
    && laws.verify(d.envelope, d.length, d.digest)
  }

  /** All of the bytes the descriptor promises have come. */
  ghost predicate Delivered(laws: Laws, d: Download) {
    d.complete && |Joined(d.chunks)| == d.length && laws.sha(Joined(d.chunks)) == d.digest
  }

  /** The bank is, byte for byte, what the host tool lays out for this recording. */
  ghost predicate Installed(laws: Laws, d: Download, bank: seq<byte>) {
    var audio := Joined(d.chunks);
    && Fits(audio, d.envelope, 1) && |audio| == d.length && laws.sha(audio) == d.digest && Digests(laws, audio)
    && bank == Image(laws, audio, d.envelope, 1)
  }

  lemma InstalledIsImage(laws: Laws, d: Download, bank: seq<byte>)
    requires Verified(laws, d) && |Joined(d.chunks)| == d.length && Lawful(laws)
    requires laws.sha(Laid(Joined(d.chunks))[HEADER_SIZE..HEADER_SIZE + d.length]) == d.digest
    requires bank == Header(laws, d.length, d.envelope, 1, d.digest) + Put(COMMIT) + Laid(Joined(d.chunks))[SECTOR..]
    ensures Installed(laws, d, bank)
  {
    var audio := Joined(d.chunks);
    assert Laid(audio)[HEADER_SIZE..HEADER_SIZE + d.length] == audio;
    assert Laid(audio)[SECTOR..] == audio + Erased(MAX_BYTES - |audio|);
    assert Digests(laws, audio);
    Regroup(Header(laws, d.length, d.envelope, 1, d.digest) + Put(COMMIT), audio, Erased(MAX_BYTES - |audio|));
  }

  lemma SpliceTail(b: seq<byte>, raw: seq<byte>)
    requires |b| == BANK_SIZE && |raw| == MARK_AT
    ensures Splice(b, 0, raw)[SECTOR..] == b[SECTOR..]
  {
    SpliceParts(b, 0, raw, SECTOR, BANK_SIZE);
  }

  lemma PayloadKept(payload: seq<byte>, b: seq<byte>, length: nat)
    requires |b| == BANK_SIZE && b[SECTOR..] == payload && length <= MAX_BYTES
    ensures b[HEADER_SIZE..HEADER_SIZE + length] == payload[..length]
  {
  }

  lemma MarkedWhole(b: seq<byte>, h: seq<byte>, payload: seq<byte>)
    requires |b| == BANK_SIZE && b[..MARK_AT] == h && b[SECTOR..] == payload
    ensures Splice(b, MARK_AT, Put(COMMIT)) == h + Put(COMMIT) + payload
  {
  }

  /** Everything but the marker is in place. */
  ghost predicate Whole(laws: Laws, b: seq<byte>, length: nat, envelope: seq<byte>, digest: seq<byte>) {
    && |b| == BANK_SIZE && 0 < length <= MAX_BYTES && 0 < |envelope| <= ENVELOPE_MAX && |digest| == 32
    && laws.verify(envelope, length, digest) && Digests(laws, Described(length, envelope, 1, digest))
    && b[..MARK_AT] == Header(laws, length, envelope, 1, digest)
    && laws.sha(b[HEADER_SIZE..HEADER_SIZE + length]) == digest
  }

  /** Whatever a write of the marker leaves, the bank is believed if it carries the marker, and only then. */
  lemma MarkCommits(laws: Laws, b: seq<byte>, raw: seq<byte>, length: nat, envelope: seq<byte>, digest: seq<byte>)
    requires Whole(laws, b, length, envelope, digest) && |raw| == 4
    ensures var t := Splice(b, MARK_AT, raw); Validated(laws, t).Some? <==> raw == Put(COMMIT)
    ensures var t := Splice(b, MARK_AT, raw); Marked(t) <==> raw == Put(COMMIT)
  {
    var t := Splice(b, MARK_AT, raw);
    assert t[MARK_AT..MARK_AT + 4] == raw;
    GetPut(COMMIT);
    PutGet(raw);
    if raw == Put(COMMIT) {
      SpliceParts(b, MARK_AT, raw, HEADER_SIZE, HEADER_SIZE + length);
      SpliceParts(b, MARK_AT, raw, 0, MARK_AT);
      assert t[..MARK_AT] == t[0..MARK_AT] && b[..MARK_AT] == b[0..MARK_AT];
      WholeIsBelieved(laws, t, length, envelope, 1, digest);
    }
  }

  // ---------- the header in memory ----------

  method CopyAt(a: array<byte>, at: nat, s: seq<byte>, ghost filled: seq<byte>)
    requires |filled| <= at && at + |s| <= a.Length && a[..] == filled + Erased(a.Length - |filled|)
    modifies a
    ensures a[..] == filled + Erased(at - |filled|) + s + Erased(a.Length - at - |s|)
  {
    ghost var was := a[..];
    var i := 0;
    while i < |s|
      invariant 0 <= i <= |s| && a[..] == Splice(was, at, s[..i])
    {
      ghost var before := a[..];
      a[at + i] := s[i];
      assert a[..] == before[at + i := s[i]];
      SpliceMore(was, at, s, i);
      i := i + 1;
    }
    assert s[..i] == s;
    Filled(filled, a.Length, at, s);
  }

  lemma SpliceMore(was: seq<byte>, at: nat, s: seq<byte>, i: nat)
    requires i < |s| && at + |s| <= |was|
    ensures Splice(was, at, s[..i])[at + i := s[i]] == Splice(was, at, s[..i + 1])
  {
  }

  lemma Filled(filled: seq<byte>, n: nat, at: nat, s: seq<byte>)
    requires |filled| <= at && at + |s| <= n
    ensures Splice(filled + Erased(n - |filled|), at, s) == filled + Erased(at - |filled|) + s + Erased(n - at - |s|)
  {
  }

  method BuildHeader(laws: Laws, header: array<byte>, length: nat, envelope: seq<byte>, digest: seq<byte>)
    requires header.Length == SECTOR && length <= MAX_BYTES && |envelope| <= ENVELOPE_MAX && |digest| == 32
    requires Digests(laws, Described(length, envelope, 1, digest))
    modifies header
    ensures header[..MARK_AT] == Header(laws, length, envelope, 1, digest)
  {
    var i := 0;
    while i < header.Length
      invariant 0 <= i <= header.Length && forall k :: 0 <= k < i ==> header[k] == 0xFF
    {
      header[i] := 0xFF;
      i := i + 1;
    }
    assert header[..] == [] + Erased(SECTOR);
    CopyAt(header, 0, MAGIC, []);
    ghost var a := [] + Erased(0) + MAGIC;
    CopyAt(header, 8, Put(1), a);
    ghost var b := a + Erased(0) + Put(1);
    CopyAt(header, 12, Put(length), b);
    ghost var c := b + Erased(0) + Put(length);
    CopyAt(header, 16, Put(|envelope|), c);
    ghost var e := c + Erased(0) + Put(|envelope|);
    CopyAt(header, 20, Put(1), e);
    ghost var f := e + Erased(0) + Put(1);
    CopyAt(header, 24, digest, f);
    ghost var g := f + Erased(0) + digest;
    CopyAt(header, 64, envelope, g);
    ghost var h := g + Erased(8) + envelope;
    HeaderFilled(length, envelope, digest, header[..], h);
    var sum := laws.sha(header[..HASHED]);
    CopyAt(header, HASHED, sum, h);
    assert header[..MARK_AT] == h + Erased(HASHED - |h|) + sum;
  }

  lemma HeaderFilled(length: nat, envelope: seq<byte>, digest: seq<byte>, header: seq<byte>, h: seq<byte>)
    requires length <= MAX_BYTES && |envelope| <= ENVELOPE_MAX && |digest| == 32
    requires h == [] + Erased(0) + MAGIC + Erased(0) + Put(1) + Erased(0) + Put(length) + Erased(0) + Put(|envelope|)
               + Erased(0) + Put(1) + Erased(0) + digest + Erased(8) + envelope
    requires header == h + Erased(SECTOR - |h|)
    ensures h + Erased(HASHED - |h|) == Described(length, envelope, 1, digest) == header[..HASHED]
  {
    assert Erased(0) == [];
  }

  // ---------- the worker ----------

  class DuaMedia {
    const laws: Laws
    const medium: Medium
    ghost const origin: seq<seq<byte>>

    // durable
    var flash: Durable
    var history: seq<Durable>
    var writes: nat
    var erasures: nat
    var checks: nat

    // lost with the power
    var storageOk: bool
    var compatible: bool
    var installed: Option<Bank>
    var installedAt: nat
    var staging: nat
    var successPending: bool
    var latched: bool
    var retryAt: nat

    ghost predicate Valid()
      reads this
    {
      && Lawful(laws) && history != [] && history[|history| - 1] == flash && (forall d :: d in history ==> Safe(laws, origin, d))
      && Safe(laws, origin, flash) && (storageOk ==> staging == flash.journal)
    }

    constructor (laws: Laws, medium: Medium, flash: Durable)
      requires Form(flash) && flash.journal == 0 && Lawful(laws)
      ensures Valid() && this.flash == flash && this.laws == laws && this.medium == medium && origin == flash.banks && !storageOk && history == [flash]
    {
      this.laws, this.medium, this.flash, history, origin := laws, medium, flash, [flash], flash.banks;
      writes, erasures, checks := 0, 0, 0;
      storageOk, compatible, installed, installedAt, staging, successPending := false, false, None, 0, 0, false;
      latched, retryAt := false, 0;
    }

    method Commit(d: Durable)
      requires Valid() && Safe(laws, origin, d) && (storageOk ==> staging == d.journal)
      modifies `flash, `history
      ensures Valid() && flash == d && history == old(history) + [d]
    {
      flash := d;
      history := history + [d];
    }

    /** Whether the worker may go on. */
    method Allowed() returns (ok: bool)
      modifies `checks
      ensures ok == medium.allows(old(checks)) && checks == old(checks) + 1
    {
      ok := medium.allows(checks);
      checks := checks + 1;
    }

    /** The journalled bank. */
    function Target(): seq<byte>
      requires Form(flash) && flash.journal > 0
      reads `flash
    {
      flash.banks[flash.journal - 1]
    }

    /** Replaces the journalled bank. */
    method Replace(bank: seq<byte>)
      requires Valid() && flash.journal > 0 && |bank| == BANK_SIZE && (Marked(bank) ==> Validated(laws, bank).Some?)
      modifies `flash, `history
      ensures Valid() && flash == old(flash).(banks := old(flash).banks[old(flash).journal - 1 := bank])
      ensures Target() == bank && old(history) <= history
    {
      Commit(flash.(banks := flash.banks[flash.journal - 1 := bank]));
    }

    /** Only the journalled bank has changed since. */
    twostate predicate OnlyTarget()
      reads this
    {
      && Form(flash) && Form(old(flash)) && flash.journal == old(flash).journal > 0 && old(history) <= history
      && flash.banks == old(flash).banks[flash.journal - 1 := flash.banks[flash.journal - 1]]
    }

    /** What a write leaves at some moment, and what it leaves in the end. */
    method ReplaceTwice(midway: seq<byte>, final: seq<byte>)
      requires Valid() && flash.journal > 0 && |midway| == BANK_SIZE && |final| == BANK_SIZE
      requires (Marked(midway) ==> Validated(laws, midway).Some?) && (Marked(final) ==> Validated(laws, final).Some?)
      modifies `flash, `history
      ensures Valid() && OnlyTarget() && Target() == final
    {
      Replace(midway);
      Replace(final);
    }

    method EraseSector(at: nat) returns (ok: bool)
      requires Valid() && flash.journal > 0 && at + SECTOR <= BANK_SIZE
      requires at == 0 || (at >= SECTOR && !Marked(Target()))
      modifies `flash, `history, `erasures
      ensures Valid() && OnlyTarget()
      ensures ok ==> Target() == Splice(old(Target()), at, Erased(SECTOR)) && !Marked(Target())
      ensures Flawless(medium) ==> ok
      ensures Target() == old(Target()) || !Marked(Target())
    {
      var e := medium.erases(erasures);
      erasures := erasures + 1;
      if !e.Kept? {
        SectorUnmarked(Target(), at);
        Replace(Splice(Target(), at, Erased(SECTOR)));
      }
      ok := e.Sure?;
    }

    /** A write that does not touch the marker of a bank without one. */
    method WriteAt(at: nat, data: seq<byte>) returns (ok: bool)
      requires Valid() && flash.journal > 0 && !Marked(Target())
      requires at + |data| <= MARK_AT || (SECTOR <= at && at + |data| <= BANK_SIZE)
      modifies `flash, `history, `writes
      ensures Valid() && OnlyTarget() && !Marked(Target())
      ensures Target() == Splice(old(Target()), at, Left(data, medium.final(old(writes)))) && writes == old(writes) + 1
      ensures Flawless(medium) ==> ok
    {
      var before := Target();
      var midway, final := Left(data, medium.midway(writes)), Left(data, medium.final(writes));
      StillUnmarked(before, at, midway);
      StillUnmarked(before, at, final);
      ReplaceTwice(Splice(before, at, midway), Splice(before, at, final));
      ok := medium.reports(writes);
      writes := writes + 1;
    }

    /** Erases the journalled bank, its first sector and so its marker before anything else. */
    method EraseBank() returns (ok: bool)
      requires Valid() && flash.journal > 0
      modifies `flash, `history, `erasures, `checks
      ensures Valid() && OnlyTarget()
      ensures ok ==> Target() == Erased(BANK_SIZE) && !Marked(Target())
      ensures Flawless(medium) ==> ok
      ensures Target() == old(Target()) || !Marked(Target())
    {
      var at := 0;
      while at < BANK_SIZE
        invariant 0 <= at <= BANK_SIZE && at % SECTOR == 0 && Valid() && OnlyTarget()
        invariant Target()[..at] == Erased(at) && if at == 0 then Target() == old(Target()) else !Marked(Target())
      {
        ok := Allowed();
        if !ok {
          return;
        }
        ErasedOn(Target(), at);
        ok := EraseSector(at);
        if !ok {
          return;
        }
        at := at + SECTOR;
      }
      assert Target()[..BANK_SIZE] == Target();
      ok := true;
    }

    /** Writes one piece, if it still fits the signed size. */
    method WritePiece(received: nat, room: nat, chunk: seq<byte>, ghost sofar: seq<byte>) returns (ok: bool)
      requires Valid() && flash.journal > 0 && !Marked(Target()) && received == |sofar| && received + room <= MAX_BYTES
      requires Perfect(medium) ==> Target() == Laid(sofar)
      modifies `flash, `history, `writes, `checks
      ensures Valid() && OnlyTarget() && !Marked(Target())
      ensures ok ==> |chunk| <= room && medium.allows(old(checks)) && (Perfect(medium) ==> Target() == Laid(sofar + chunk))
      ensures !medium.allows(old(checks)) ==> flash == old(flash)
      ensures Flawless(medium) && |chunk| <= room ==> ok
    {
      ok := Allowed();
      if !ok || |chunk| > room {
        return false;
      }
      if Perfect(medium) { LaidOn(sofar, chunk); }
      ok := WriteAt(HEADER_SIZE + received, chunk);
    }

    /** Writes the pieces of the download behind the header's sector. */
    method WritePayload(length: nat, chunks: seq<seq<byte>>, complete: bool) returns (ok: bool)
      requires Valid() && flash.journal > 0 && Target() == Erased(BANK_SIZE) && !Marked(Target()) && 0 < length <= MAX_BYTES
      modifies `flash, `history, `writes, `checks
      ensures Valid() && OnlyTarget() && !Marked(Target())
      ensures ok ==> complete && |Joined(chunks)| == length && (Perfect(medium) ==> Target() == Laid(Joined(chunks)))
      ensures Flawless(medium) && complete && |Joined(chunks)| == length ==> ok
    {
      var received, i := 0, 0;
      NothingLaid();
      assert chunks[..0] == [];
      while i < |chunks|
        invariant 0 <= i <= |chunks| && received == |Joined(chunks[..i])| <= length
        invariant Valid() && OnlyTarget() && !Marked(Target())
        invariant Perfect(medium) ==> Target() == Laid(Joined(chunks[..i]))
      {
        JoinedOn(chunks, i);
        JoinedGrows(chunks, i + 1);
        ok := WritePiece(received, length - received, chunks[i], Joined(chunks[..i]));
        if !ok {
          return;
        }
        received := received + |chunks[i]|;
        i := i + 1;
      }
      assert chunks[..i] == chunks;
      ok := Allowed();
      ok := ok && received == length && complete;
    }

    /** Reads the payload back and compares its digest. */
    method CheckPayload(length: nat, digest: seq<byte>) returns (ok: bool)
      requires Valid() && flash.journal > 0 && length <= MAX_BYTES
      modifies `checks
      ensures Valid() && (ok ==> laws.sha(Target()[HEADER_SIZE..HEADER_SIZE + length]) == digest)
      ensures Flawless(medium) ==> (ok <==> laws.sha(Target()[HEADER_SIZE..HEADER_SIZE + length]) == digest)
    {
      var bank := Target();
      var got: seq<byte> := [];
      var at := 0;
      while at < length
        invariant 0 <= at <= length && got == bank[HEADER_SIZE..HEADER_SIZE + at]
      {
        ok := Allowed();
        if !ok {
          return;
        }
        var count := if length - at < SECTOR then length - at else SECTOR;
        SliceOn(bank, HEADER_SIZE, HEADER_SIZE + at, HEADER_SIZE + at + count);
        got := got + bank[HEADER_SIZE + at..HEADER_SIZE + at + count];
        at := at + count;
      }
      ok := laws.sha(got) == digest;
    }

    /** Writes the header but for its marker, and compares what is read back. */
    method WriteHeader(header: array<byte>) returns (ok: bool)
      requires Valid() && flash.journal > 0 && !Marked(Target()) && header.Length == SECTOR
      modifies `flash, `history, `writes, `checks
      ensures Valid() && OnlyTarget() && !Marked(Target()) && Target()[SECTOR..] == old(Target())[SECTOR..]
      ensures ok ==> Target()[..MARK_AT] == header[..MARK_AT]
      ensures Flawless(medium) ==> ok
    {
      SpliceTail(Target(), Left(header[..MARK_AT], medium.final(writes)));
      ok := WriteAt(0, header[..MARK_AT]);
      if !ok {
        return;
      }
      ok := Allowed();
      ok := ok && Target()[..MARK_AT] == header[..MARK_AT];
    }

    /** The last write of all: the marker, into a bank that would be believed with it. */
    method WriteMark(length: nat, envelope: seq<byte>, digest: seq<byte>) returns (ok: bool)
      requires Valid() && flash.journal > 0 && Whole(laws, Target(), length, envelope, digest)
      modifies `flash, `history, `writes
      ensures Valid() && OnlyTarget()
      ensures Target() == Splice(old(Target()), MARK_AT, Left(Put(COMMIT), medium.final(old(writes))))
      ensures Marked(Target()) ==> Validated(laws, Target()).Some?
      ensures Flawless(medium) ==> ok
    {
      var before := Target();
      var midway, final := Left(Put(COMMIT), medium.midway(writes)), Left(Put(COMMIT), medium.final(writes));
      MarkCommits(laws, before, midway, length, envelope, digest);
      MarkCommits(laws, before, final, length, envelope, digest);
      ReplaceTwice(Splice(before, MARK_AT, midway), Splice(before, MARK_AT, final));
      ok := medium.reports(writes);
      writes := writes + 1;
    }

    /** The worker: everything read back and compared before the marker is written. */
    method Run(d: Download) returns (done: bool)
      requires Valid() && storageOk && staging > 0
      modifies `flash, `history, `writes, `erasures, `checks, `successPending
      ensures Valid() && OnlyTarget()
      ensures Marked(Target()) && Target() != old(Target()) ==> Validated(laws, Target()).Some?
      ensures done ==> Verified(laws, d)
      ensures done && Perfect(medium) ==> Installed(laws, d, Target())
      ensures done ==> d.complete && |Joined(d.chunks)| == d.length
      ensures Flawless(medium) ==> (done <==> Verified(laws, d) && Delivered(laws, d))
    {
      done := false;
      if !Verified(laws, d) {
        return;
      }
      done := Install(d);
      successPending := successPending || done;
    }

    /** Erase, write, read back, and only then describe and mark. */
    method Install(d: Download) returns (ok: bool)
      requires Valid() && flash.journal > 0 && Verified(laws, d)
      modifies `flash, `history, `writes, `erasures, `checks
      ensures Valid() && OnlyTarget()
      ensures Marked(Target()) && Target() != old(Target()) ==> Validated(laws, Target()).Some?
      ensures ok && Perfect(medium) ==> Installed(laws, d, Target())
      ensures ok ==> d.complete && |Joined(d.chunks)| == d.length
      ensures Flawless(medium) ==> (ok <==> Delivered(laws, d))
    {
      ok := EraseBank();
      if !ok {
        return;
      }
      ok := Fill(d);
      if !ok {
        return;
      }
      ok := Finish(d);
      if Perfect(medium) && ok { InstalledIsImage(laws, d, Target()); }
    }

    /** The payload, written and read back. */
    method Fill(d: Download) returns (ok: bool)
      requires Valid() && flash.journal > 0 && Verified(laws, d) && Target() == Erased(BANK_SIZE) && !Marked(Target())
      modifies `flash, `history, `writes, `checks
      ensures Valid() && OnlyTarget() && !Marked(Target())
      ensures ok ==> laws.sha(Target()[HEADER_SIZE..HEADER_SIZE + d.length]) == d.digest && |Joined(d.chunks)| == d.length && d.complete
      ensures ok && Perfect(medium) ==> Target() == Laid(Joined(d.chunks))
      ensures Flawless(medium) ==> (ok <==> Delivered(laws, d))
    {
      ok := WritePayload(d.length, d.chunks, d.complete);
      if ok {
        if Perfect(medium) { LaidBack(Joined(d.chunks)); }
        ok := CheckPayload(d.length, d.digest);
      }
    }

    /** Describes a payload that has been read back, and marks the bank. */
    method Finish(d: Download) returns (ok: bool)
      requires Valid() && flash.journal > 0 && !Marked(Target()) && Verified(laws, d)
      requires laws.sha(Target()[HEADER_SIZE..HEADER_SIZE + d.length]) == d.digest
      modifies `flash, `history, `writes, `checks
      ensures Valid() && OnlyTarget() && (Marked(Target()) ==> Validated(laws, Target()).Some?)
      ensures ok && Perfect(medium) ==> Target() == Header(laws, d.length, d.envelope, 1, d.digest) + Put(COMMIT) + old(Target())[SECTOR..]
      ensures Flawless(medium) ==> ok
    {
      ok := Describe(d);
      if !ok {
        return;
      }
      ok := Allowed();
      if !ok {
        return;
      }
      if Perfect(medium) { MarkedWhole(Target(), Header(laws, d.length, d.envelope, 1, d.digest), old(Target())[SECTOR..]); }
      ok := WriteMark(d.length, d.envelope, d.digest);
    }

    method Describe(d: Download) returns (ok: bool)
      requires Valid() && flash.journal > 0 && !Marked(Target()) && Verified(laws, d)
      requires laws.sha(Target()[HEADER_SIZE..HEADER_SIZE + d.length]) == d.digest
      modifies `flash, `history, `writes, `checks
      ensures Valid() && OnlyTarget() && !Marked(Target()) && Target()[SECTOR..] == old(Target())[SECTOR..]
      ensures ok ==> Whole(laws, Target(), d.length, d.envelope, d.digest)
      ensures Flawless(medium) ==> ok
    {
      var header := new byte[SECTOR];
      assert Digests(laws, Described(d.length, d.envelope, 1, d.digest));
      BuildHeader(laws, header, d.length, d.envelope, d.digest);
      PayloadKept(Target()[SECTOR..], Target(), d.length);
      ok := Allowed();
      if !ok {
        return;
      }
      ok := WriteHeader(header);
      PayloadKept(Target()[SECTOR..], Target(), d.length);
    }

    // ---------- what the device believes ----------

    /** Looks at both banks; the younger of two that are believed is installed. */
    method Scan() returns (ok: bool)
      requires Form(flash)
      modifies `installed, `installedAt
      ensures ok ==> Youngest(laws, flash.banks, 2, installed, installedAt)
      ensures ok <==> KnownBanks()
      ensures ok ==> forall k :: 0 <= k < 2 ==> staging == k + 1 || Ours(flash.banks[k])
      ensures !ok ==> exists k :: 0 <= k < 2 && staging != k + 1 && !Ours(flash.banks[k])
      ensures installed.Some? ==> installedAt < 2 && Validated(laws, flash.banks[installedAt]) == installed
    {
      installed := None;
      var i := 0;
      while i < 2
        invariant 0 <= i <= 2 && (i > 0 ==> Known(0)) && (i > 1 ==> Known(1))
        invariant forall k :: 0 <= k < i ==> staging == k + 1 || Ours(flash.banks[k])
        invariant Youngest(laws, flash.banks, i, installed, installedAt)
      {
        var bank := flash.banks[i];
        OursIs(bank);
        if staging != i + 1 && !Recognized(bank) && bank != Erased(BANK_SIZE) {
          return false;
        }
        var result := Validated(laws, bank);
        YoungestOn(laws, flash.banks, i, installed, installedAt, result);
        if result.Some? && (installed.None? || result.value.generation > installed.value.generation) {
          installed, installedAt := result, i;
        }
        i := i + 1;
      }
      ok := true;
    }

    /** A bank the device may use or overwrite: journalled, erased, or with the known magic. */
    predicate Known(i: nat)
      requires Form(flash) && i < 2
      reads `flash, `staging
    {
      staging == i + 1 || Recognized(flash.banks[i]) || flash.banks[i] == Erased(BANK_SIZE)
    }

    ghost predicate KnownBanks()
      requires Form(flash)
      reads `flash, `staging
    {
      Known(0) && Known(1)
    }

    /** Power-up: the journal, and what the banks hold. */
    method Begin(readable: bool, mapped: bool)
      requires Valid() && !storageOk && !compatible && staging == 0
      modifies `storageOk, `staging, `compatible, `installed, `installedAt
      ensures Valid() && (compatible ==> storageOk)
      ensures (storageOk <==> readable) && (compatible <==> readable && mapped && KnownBanks())
      ensures compatible ==> Youngest(laws, flash.banks, 2, installed, installedAt)
    {
      if !readable {
        return;
      }
      staging := flash.journal;
      storageOk := true;
      if mapped {
        compatible := Scan();
      }
    }

    /** Journals the bank to be changed before any of it is. A bank that is installed is left alone. */
    method Start(e: Effect) returns (go: bool)
      requires Valid()
      modifies `flash, `history, `storageOk, `staging
      ensures Valid() && flash.banks == old(flash).banks && old(history) <= history
      ensures go <==> old(compatible && storageOk && installed.None?) && e.Sure?
      ensures go ==> storageOk && staging > 0 && staging == flash.journal
      ensures go && old(staging) == 0 ==> staging == 1
      ensures old(!compatible || !storageOk || installed.Some?) ==> flash == old(flash)
      ensures old(flash).journal > 0 ==> flash.journal == old(flash).journal
    {
      go := false;
      if !compatible || !storageOk || installed.Some? {
        return;
      }
      var target := if staging > 0 then staging - 1 else 0;
      JournalSafe(laws, origin, flash, target + 1);
      storageOk := false;
      if !e.Kept? {
        Commit(flash.(journal := target + 1));
      }
      if !e.Sure? {
        return;
      }
      staging, storageOk := target + 1, true;
      go := true;
    }

    /** After a success the banks are looked at again; one that cannot be found is not tried again by itself. */
    method TakeUp()
      requires Valid()
      modifies `successPending, `compatible, `installed, `installedAt, `latched
      ensures Valid() && !successPending
      ensures old(successPending) && compatible && installed.Some? ==> installedAt < 2 && Validated(laws, flash.banks[installedAt]) == installed
      ensures latched == (old(latched) || (old(successPending) && (!compatible || installed.None?)))
      ensures !old(successPending) ==> compatible == old(compatible) && installed == old(installed)
      ensures old(successPending) ==> (compatible <==> KnownBanks())
      ensures old(successPending) && compatible ==> Youngest(laws, flash.banks, 2, installed, installedAt)
    {
      if successPending {
        successPending := false;
        compatible := Scan();
        latched := latched || !compatible || installed.None?;
      }
    }

    /** One turn of the loop while no worker is active; `spawned` says whether the worker could be started. */
    method Loop(s: Situation, e: Effect, spawned: bool) returns (go: bool)
      requires Valid()
      modifies `flash, `history, `storageOk, `staging, `successPending, `compatible, `installed, `installedAt, `latched, `retryAt
      ensures Valid() && flash.banks == old(flash).banks && old(history) <= history && !successPending
      ensures go <==>
        && compatible && old(storageOk) && installed.None? && !latched && retryAt <= s.now && e.Sure? && spawned
        && s.enabled && s.connected && s.permitted && !s.busy && s.downloads
      ensures go ==> storageOk && staging > 0 && staging == flash.journal
      ensures s.enabled && (old(latched) || s.now < old(retryAt)) ==> !go && flash == old(flash)
      ensures !(s.connected && s.permitted && !s.busy && s.downloads) ==> !go && flash == old(flash)
      ensures old(flash).journal > 0 ==> flash.journal == old(flash).journal
    {
      go := false;
      TakeUp();
      if !compatible || !storageOk || installed.Some? {
        return;
      }
      if !s.enabled {
        latched, retryAt := false, 0;
        return;
      }
      if latched || s.now < retryAt || !Clear(s) {
        return;
      }
      go := Start(e);
      if go && !spawned {
        go := false;
        retryAt := s.now + RETRY_MS;
      }
    }

    /** A transient failure is tried again after a while, any other only when asked for. */
    method Fail(transient: bool, now: nat)
      requires Valid()
      modifies `latched, `retryAt
      ensures Valid() && latched == !transient && retryAt == if transient then now + RETRY_MS else 0
    {
      latched := !transient;
      retryAt := if transient then now + RETRY_MS else 0;
    }

    /** Asking for another try; 200, 409 or 503. */
    method Retry(enabled: bool) returns (code: nat)
      requires Valid()
      modifies `latched, `retryAt
      ensures Valid() && code == if !compatible || !storageOk then 503 else if !enabled then 409 else 200
      ensures if code == 200 then !latched && retryAt == 0 else latched == old(latched) && retryAt == old(retryAt)
    {
      if !compatible || !storageOk {
        return 503;
      }
      if !enabled {
        return 409;
      }
      latched, retryAt := false, 0;
      code := 200;
    }

    /** The power fails at entry k of the history and the device starts again. */
    method Restart(k: nat, readable: bool, mapped: bool)
      requires Valid() && k < |history|
      modifies this
      ensures Valid() && flash == old(history[k]) && history == old(history) + [old(history[k])]
      ensures (storageOk <==> readable) && (compatible <==> readable && mapped && KnownBanks())
      ensures compatible ==> Youngest(laws, flash.banks, 2, installed, installedAt)
    {
      flash, history := history[k], history + [history[k]];
      storageOk, compatible, installed, installedAt, staging, successPending := false, false, None, 0, 0, false;
      latched, retryAt := false, 0;
      Begin(readable, mapped);
    }
  }

  // ---------- whole runs ----------

  datatype Op =
    | OpBegin(readable: bool, mapped: bool)
    | OpLoop(s: Situation, e: Effect, spawned: bool, d: Download, transient: bool)
    | OpRetry(enabled: bool)
    | OpRestart(k: nat, readable: bool, mapped: bool)

  method Perform(m: DuaMedia, op: Op)
    requires m.Valid()
    modifies m
    ensures m.Valid() && old(m.history) <= m.history
    ensures old(m.flash).journal > 0 && !op.OpRestart? ==> m.flash.journal == old(m.flash).journal
  {
    match op
    case OpBegin(readable, mapped) =>
      if !m.storageOk && !m.compatible && m.staging == 0 { m.Begin(readable, mapped); }
    case OpLoop(s, e, spawned, d, transient) =>
      var go := m.Loop(s, e, spawned);
      if go {
        var done := m.Run(d);
        if !done { m.Fail(transient, s.now); }
      }
    case OpRetry(enabled) =>
      var _ := m.Retry(enabled);
    case OpRestart(k, readable, mapped) =>
      if k < |m.history| { m.Restart(k, readable, mapped); }
  }

  /**
   A whole life of the recording's storage: at every moment the power might fail, each bank is
   as it left the factory, or is the journalled one and is believed if it carries the marker.
   */
  method Live(laws: Laws, medium: Medium, factory: Durable, ops: seq<Op>) returns (history: seq<Durable>)
    requires Form(factory) && factory.journal == 0 && Lawful(laws)
    ensures forall d :: d in history ==> Safe(laws, factory.banks, d)
    ensures history != [] && history[0] == factory
  {
    var m := new DuaMedia(laws, medium, factory);
    var i := 0;
    while i < |ops|
      invariant 0 <= i <= |ops| && fresh(m) && m.Valid() && m.laws == laws && m.origin == factory.banks
      invariant m.history != [] && m.history[0] == factory
    {
      Perform(m, ops[i]);
      i := i + 1;
    }
    history := m.history;
  }
}
