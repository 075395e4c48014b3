/**
 The USB firmware updater: commands and data chunks from the host, the journal, and
 reconciliation after a restart. Every durable change is added to `history`, and the power
 may fail at any entry. What the platform answers comes in as parameters: which effects
 fail, and which failed effects took hold all the same.
 */
module UsbUpdate {
  import opened UsbJournal
  import opened Words
  import opened Wrappers

  const MAX_DESCRIPTOR := 8192
  const IDLE_LIMIT_MS := 40000

  datatype State = Idle | Descriptor | Receiving | Interrupted | AwaitingPower | Uncertain | Queued | Success | Superseded | RolledBack

  datatype Reply = Answer(fields: seq<string>) | Refused | Malformed

  /** A durable effect succeeds, or is reported failed with or without having taken hold. */
  datatype Effect = Sure | Kept | Landed

  class Upgrade {
    const laws: Laws
    var firmware: string

    // durable
    var flash: Durable
    var history: seq<Moment>

    // lost with the power
    var storageOk: bool
    var confirmed: bool
    var usbRequest: bool
    var expected: string
    var queued: Option<Release>
    var state: State
    var token: string
    var descriptor: string
    var descriptorBytes: nat
    var received: nat
    var handle: bool
    var hash: Option<seq<byte>>
    var lastMs: nat
    ghost var accepted: seq<byte>

    /** The journal as this session knows it. */
    ghost predicate Known()
      reads this
    {
      && flash.journal.queue == (if queued.Some? then queued.value.envelope else "")
      && flash.journal.expected == expected && queued == Vetted(laws, flash.journal.queue)
      && (queued.Some? ==> usbRequest)
    }

    /** The image received so far: the slot, the digest and the count agree with the accepted chunks. */
    ghost predicate Received(r: Release)
      reads this
    {
      && received == |accepted| <= r.bytes && Newer(laws, r.version, firmware)
      && (handle ==> flash.other.image == accepted && hash == Some(accepted))
    }

    /** A host is connected with the token of this session. */
    ghost predicate Transfer()
      reads this
    {
      && !flash.selected && expected == "" && state in {Descriptor, Receiving}
      && (state.Descriptor? ==> |descriptor| <= descriptorBytes && received == 0 && queued.None?)
      && (state.Receiving? ==> queued.Some? && usbRequest && Received(queued.value))
    }

    ghost predicate Durably()
      reads this
    {
      && laws.describe(flash.mine.image) == Some(firmware) && Safe(laws, flash)
      && history != [] && history[|history| - 1].flash == flash && Traced(laws, history)
      && forall m :: m in history ==> Safe(laws, m.flash)
    }

    ghost predicate Valid()
      reads this
    {
      Durably() && (storageOk ==> Known()) && (token != "" ==> Transfer())
    }

    constructor (laws: Laws, firmware: string, flash: Durable)
      requires laws.describe(flash.mine.image) == Some(firmware) && flash.journal == NO_REQUEST && !flash.selected
      ensures Valid() && this.laws == laws && this.flash == flash && history == [Moment(flash, None)] && token == "" && !storageOk
    {
      this.laws, this.firmware, this.flash, history := laws, firmware, flash, [Moment(flash, None)];
      storageOk, confirmed, usbRequest, expected, queued, state := false, false, false, "", None, Idle;
      token, descriptor, descriptorBytes, received, handle, hash, lastMs := "", "", 0, 0, false, None, 0;
      accepted := [];
    }

    // ---------- durable effects ----------

    method Commit(d: Durable)
      requires Durably() && Step(laws, flash, d)
      modifies `flash, `history
      ensures Durably() && flash == d && history == old(history) + [Moment(d, None)] && Extends(history, old(history))
    {
      StepKeepsSafe(laws, flash, d);
      TracedSnoc(laws, history, Moment(d, None));
      BootsSnoc(history, Moment(d, None));
      flash := d;
      history := history + [Moment(d, None)];
    }

    /** Saves the journal: a step, as long as the journal may be written at all. */
    method Persist(queue: string, version: string, e: Effect) returns (ok: bool)
      requires Durably()
      requires storageOk ==> Step(laws, flash, flash.(journal := Journal(queue, version, usbRequest && queue != "")))
      modifies `flash, `history, `storageOk
      ensures Durably() && Extends(history, old(history))
      ensures ok == (old(storageOk) && e.Sure?) && storageOk == ok
      ensures ok ==> flash == old(flash).(journal := Journal(queue, version, usbRequest && queue != ""))
      ensures flash == old(flash) || flash == old(flash).(journal := Journal(queue, version, usbRequest && queue != ""))
    {
      if !storageOk {
        return false;
      }
      if !e.Kept? {
        Commit(flash.(journal := Journal(queue, version, usbRequest && queue != "")));
      }
      storageOk := e.Sure?;
      ok := storageOk;
    }

    /** Erases or writes the inactive slot; `mid` is what a fault or a cut on the way leaves there. */
    method Burn(target: seq<byte>, mid: seq<byte>, done: bool)
      requires Durably() && !flash.selected && flash.journal.queue != "" && flash.journal.expected == ""
      modifies `flash, `history
      ensures Durably() && Extends(history, old(history))
      ensures flash == old(flash).(other := Slot(if done then target else mid, Absent))
    {
      Commit(flash.(other := Slot(mid, Absent)));
      if done {
        Commit(flash.(other := Slot(target, Absent)));
      }
    }

    /** Selects the other slot for the next boot: only ever a slot that holds the journalled release. */
    method Select(e: Effect) returns (ok: bool)
      requires Durably() && !flash.selected && HandedOff(laws, flash)
      modifies `flash, `history
      ensures Durably() && Extends(history, old(history)) && ok == e.Sure?
      ensures flash == if e.Kept? then old(flash) else old(flash).(selected := true, other := Slot(old(flash).other.image, Fresh))
    {
      if !e.Kept? {
        Commit(flash.(selected := true, other := Slot(flash.other.image, Fresh)));
      }
      ok := e.Sure?;
    }

    // ---------- commands ----------

    predicate Busy()
      reads this
    {
      token != "" || usbRequest
    }

    predicate UsbSafe(safe: bool)
      reads this
    {
      safe && confirmed && storageOk
    }

    /** Forgets the host, its descriptor and the half-written image. */
    method Disconnect()
      modifies `handle, `hash, `token, `descriptor, `descriptorBytes
      ensures !handle && hash.None? && token == ""
    {
      handle, hash := false, None;
      token, descriptor, descriptorBytes := "", "", 0;
    }

    /** Clears the journal of a request whose handoff has not begun. */
    method Forget(e: Effect) returns (ok: bool)
      requires Durably() && !flash.selected && token == "" && expected == ""
      requires storageOk ==> flash.journal.expected == "" && (usbRequest || flash.journal.queue == "")
      modifies `flash, `history, `storageOk, `usbRequest, `queued, `received, `state
      ensures Valid() && Extends(history, old(history))
      ensures flash == old(flash) || (old(usbRequest) && flash == old(flash).(journal := NO_REQUEST))
      ensures ok ==> !usbRequest && queued.None? && state == Idle
      ensures ok && old(usbRequest) ==> storageOk && flash.journal == NO_REQUEST
      ensures !ok ==> old(usbRequest) && !storageOk
    {
      if usbRequest {
        ok := Persist("", "", e);
        if !ok {
          return;
        }
      }
      usbRequest, queued, received, state := false, None, 0, Idle;
      ok := true;
    }

    /** Gives a transfer up; false when the journal could not be cleared or a handoff has begun. */
    method Abandon(e: Effect) returns (ok: bool)
      requires Durably() && !flash.selected && (storageOk && !usbRequest ==> flash.journal.queue == "")
      requires storageOk && expected == "" ==> flash.journal.expected == ""
      requires expected != "" || state.AwaitingPower? ==> Valid()
      modifies `flash, `history, `storageOk, `handle, `hash, `token, `descriptor, `descriptorBytes, `usbRequest, `queued, `received, `state
      ensures Valid() && Extends(history, old(history))
      ensures flash.mine == old(flash).mine && flash.other == old(flash).other && !flash.selected
      ensures old(expected == "" && state != AwaitingPower) ==> token == ""
      ensures ok ==> token == "" && !usbRequest && queued.None? && expected == "" && state == Idle
      ensures ok && old(usbRequest) ==> storageOk && flash.journal == NO_REQUEST
      ensures flash.journal in {old(flash).journal, NO_REQUEST}
      ensures !ok ==> old(expected != "" || state == AwaitingPower) || (old(usbRequest) && !storageOk)
    {
      if expected != "" || state.AwaitingPower? {
        return false;
      }
      Disconnect();
      ok := Forget(e);
    }

    method BeginUpdate(size: Option<nat>, random: string, now: nat, safe: bool) returns (reply: Reply)
      requires Valid() && random != ""
      modifies this
      ensures Valid() && flash == old(flash) && history == old(history)
      ensures reply.Malformed? <==> size.None? || size.value == 0 || size.value > MAX_DESCRIPTOR
      ensures reply.Answer? <==>
        !reply.Malformed? && old(token == "" && !usbRequest && queued.None?) && safe && old(confirmed && storageOk)
      ensures reply.Answer? ==> reply.fields == [token] && token == random && state == Descriptor
      ensures reply.Answer? ==> descriptor == "" && descriptorBytes == size.value && received == 0 && lastMs == now
      ensures !reply.Answer? ==> token == old(token) && state == old(state) && lastMs == old(lastMs)
    {
      if size.None? || size.value == 0 || size.value > MAX_DESCRIPTOR {
        return Malformed;
      }
      if Busy() || queued.Some? || !UsbSafe(safe) {
        return Refused;
      }
      token := random;
      descriptorBytes, descriptor := size.value, "";
      lastMs, received, state := now, 0, Descriptor;
      return Answer([token]);
    }

    /** A piece of the descriptor. */
    method DescriptorChunk(chunkToken: string, offset: nat, text: string, now: nat) returns (ok: bool)
      requires Valid()
      modifies this
      ensures Valid() && flash == old(flash) && history == old(history) && token == old(token) && state == old(state)
      ensures descriptor == if ok then old(descriptor) + text else old(descriptor)
      ensures lastMs == if ok then now else old(lastMs)
      ensures ok <==> old(token != "" && chunkToken == token && state == Descriptor && offset == |descriptor| && |text| <= descriptorBytes - |descriptor|)
    {
      if token == "" || chunkToken != token {
        return false;
      }
      if state != Descriptor || offset != |descriptor| || |text| > descriptorBytes - |descriptor| {
        return false;
      }
      descriptor := descriptor + text;
      lastMs := now;
      ok := true;
    }

    /** A piece of the image: accepted in order, or the transfer is given up. */
    method ImageChunk(chunkToken: string, offset: nat, bytes: seq<byte>, now: nat, safe: bool,
        mid: seq<byte>, written: bool, hashed: bool, e: Effect) returns (ok: bool)
      requires Valid()
      modifies this
      ensures Valid() && Extends(history, old(history)) && flash.mine == old(flash).mine && !flash.selected == old(!flash.selected)
      ensures ok <==>
        && old(token != "" && chunkToken == token && state == Receiving && offset == received && queued.Some?)
        && |bytes| + offset <= old(if queued.Some? then queued.value.bytes else 0)
        && safe && old(confirmed && storageOk && handle) && written && hashed
      ensures ok ==> token == chunkToken && offset == old(|accepted|) && accepted == old(accepted) + bytes
      ensures ok ==> flash.other.image == accepted && state == Receiving && received == |accepted| && lastMs == now
      ensures !ok ==> accepted == old(accepted) && (flash == old(flash) || token == "")
    {
      if token == "" || chunkToken != token {
        return false;
      }
      if state != Receiving || offset != received || |bytes| > queued.value.bytes - received || !UsbSafe(safe) {
        return false;
      }
      ok := WriteChunk(bytes, mid, written, hashed);
      if ok {
        Advance(bytes, now);
      } else {
        var _ := Abandon(e);
      }
    }

    /** The count and the accepted pieces catch up with the slot and the digest. */
    method Advance(bytes: seq<byte>, now: nat)
      requires Durably() && (storageOk ==> Known()) && !flash.selected && expected == "" && token != "" && state == Receiving
      requires queued.Some? && usbRequest && Newer(laws, queued.value.version, firmware)
      requires received == |accepted| && received + |bytes| <= queued.value.bytes
      requires flash.other.image == accepted + bytes && hash == Some(accepted + bytes)
      modifies `received, `accepted, `lastMs
      ensures Valid() && accepted == old(accepted) + bytes && received == |accepted| && lastMs == now
    {
      received := received + |bytes|;
      accepted := accepted + bytes;
      lastMs := now;
    }

    /** The flash write and the digest update of a piece. */
    method WriteChunk(bytes: seq<byte>, mid: seq<byte>, written: bool, hashed: bool) returns (ok: bool)
      requires Durably() && !flash.selected && flash.journal.queue != "" && flash.journal.expected == ""
      requires handle ==> flash.other.image == accepted && hash == Some(accepted)
      modifies `flash, `history, `hash
      ensures Durably() && Extends(history, old(history)) && flash == old(flash).(other := flash.other)
      ensures ok <==> handle && written && hashed
      ensures ok ==> flash.other.image == accepted + bytes && hash == Some(accepted + bytes)
    {
      if !handle {
        return false;
      }
      Burn(flash.other.image + bytes, mid, written);
      if !written || !hashed {
        return false;
      }
      hash := Some(hash.value + bytes);
      ok := true;
    }

    /** Erases the inactive slot and starts the digest. */
    method Ready(slotOk: bool, mid: seq<byte>, erased: bool, hashing: bool) returns (ok: bool)
      requires Durably() && !flash.selected && flash.journal.queue != "" && flash.journal.expected == ""
      modifies `flash, `history, `handle, `hash, `accepted
      ensures Durably() && Extends(history, old(history)) && flash == old(flash).(other := flash.other)
      ensures ok <==> slotOk && erased && hashing
      ensures ok ==> handle && hash == Some([]) && flash.other.image == [] && accepted == []
    {
      if !slotOk {
        return false;
      }
      Burn([], mid, erased);
      handle := erased;
      if !erased || !hashing {
        return false;
      }
      hash, accepted := Some([]), [];
      ok := true;
    }

    /** Saves a verified request and readies the slot for it. */
    method Accept(release: Release, slotOk: bool, mid: seq<byte>, erased: bool, hashing: bool, e: Effect) returns (ok: bool)
      requires Durably() && !flash.selected && storageOk && flash.journal.queue == ""
      requires Vetted(laws, release.envelope) == Some(release) && Newer(laws, release.version, firmware)
      modifies `flash, `history, `storageOk, `usbRequest, `queued, `handle, `hash, `accepted
      ensures Durably() && Extends(history, old(history)) && flash.mine == old(flash).mine && !flash.selected && usbRequest
      ensures ok <==> e.Sure? && slotOk && erased && hashing
      ensures ok ==> storageOk && queued == Some(release)
      ensures storageOk ==> flash.journal == Journal(release.envelope, "", true)
      ensures ok ==> handle && hash == Some([]) && flash.other.image == [] && accepted == []
    {
      usbRequest := true;
      ok := Persist(release.envelope, "", e);
      if ok {
        queued := Some(release);
        ok := Ready(slotOk, mid, erased, hashing);
      }
    }

    /** It describes a verified release newer than what runs. */
    predicate Fit()
      reads this
    {
      Vetted(laws, descriptor).Some? && Newer(laws, Vetted(laws, descriptor).value.version, firmware)
    }

    /** Checks the descriptor, saves the request and readies the inactive slot. */
    method Verify(given: string, now: nat, safe: bool, slotOk: bool, mid: seq<byte>, erased: bool, hashing: bool, e: Effect, e': Effect)
      returns (reply: Reply)
      requires Valid()
      modifies this
      ensures Valid() && Extends(history, old(history)) && flash.mine == old(flash).mine
      ensures reply.Answer? <==>
        && old(token != "" && given == token && state == Descriptor && |descriptor| == descriptorBytes)
        && safe && old(confirmed && storageOk && Fit()) && e.Sure? && slotOk && erased && hashing
      ensures reply.Answer? ==> token == given && state == Receiving && lastMs == now
      ensures reply.Answer? ==> queued == Vetted(laws, old(descriptor)) && reply.fields == ["accepted", queued.value.version]
      ensures reply.Answer? ==> flash.journal == Journal(old(descriptor), "", true) && flash.other.image == [] && accepted == []
    {
      if token == "" || given != token {
        return Malformed;
      }
      lastMs := now;
      if state != Descriptor || |descriptor| != descriptorBytes {
        return Malformed;
      }
      var release := Vetted(laws, descriptor);
      var fit := release.Some? && Newer(laws, release.value.version, firmware);
      if !fit || !UsbSafe(safe) {
        var _ := Abandon(e);
        return if fit then Refused else Malformed;
      }
      reply := TakeRequest(release.value, slotOk, mid, erased, hashing, e, e');
    }

    method TakeRequest(release: Release, slotOk: bool, mid: seq<byte>, erased: bool, hashing: bool, e: Effect, e': Effect)
      returns (reply: Reply)
      requires Valid() && token != "" && state == Descriptor && storageOk
      requires Vetted(laws, release.envelope) == Some(release) && Newer(laws, release.version, firmware)
      modifies `flash, `history, `storageOk, `handle, `hash, `token, `descriptor, `descriptorBytes, `usbRequest, `queued, `received, `state, `accepted
      ensures Valid() && Extends(history, old(history)) && flash.mine == old(flash).mine && !flash.selected
      ensures reply.Answer? <==> e.Sure? && slotOk && erased && hashing
      ensures reply.Answer? ==> token == old(token) && state == Receiving && queued == Some(release) && reply.fields == ["accepted", release.version]
      ensures reply.Answer? ==> flash.journal == Journal(release.envelope, "", true) && flash.other.image == [] && accepted == []
    {
      var begun := Accept(release, slotOk, mid, erased, hashing, e);
      if !begun {
        var _ := Abandon(e');
        return Refused;
      }
      descriptor, state := "", Receiving;
      reply := Answer(["accepted", release.version]);
    }

    /** Whether the received image is the release: its length, its digest, and the version the platform reads back. */
    method Checked(stale: Option<string>, ended: bool, described: bool) returns (ok: bool)
      requires queued.Some? && Received(queued.value)
      modifies `handle, `hash
      ensures !handle && hash.None?
      ensures ok ==> old(handle) && Matches(laws, queued.value, flash.other.image)
      ensures old(handle) ==> (ok <==> ended && described && Matches(laws, queued.value, flash.other.image))
    {
      var digest := if hash.Some? then Some(laws.sha(hash.value)) else stale;
      hash := None;
      if received != queued.value.bytes || digest != Some(queued.value.sha256) {
        handle := false;
        return false;
      }
      ok := handle && ended && described && laws.describe(flash.other.image) == Some(queued.value.version);
      handle := false;
    }

    /** The whole image has come and is the verified release. */
    ghost predicate Passes(given: string, safe: bool)
      reads this
    {
      && token != "" && given == token && state == Receiving && safe && confirmed && storageOk && handle
      && queued.Some? && |accepted| == queued.value.bytes && laws.sha(accepted) == queued.value.sha256
      && laws.describe(accepted) == Some(queued.value.version)
    }

    /** Checks the image, journals the handoff, and only then selects the slot. */
    method Finish(given: string, now: nat, safe: bool, stale: Option<string>, ended: bool, described: bool, e: Effect, e': Effect)
      returns (reply: Reply)
      requires Valid()
      modifies this
      ensures Valid() && Extends(history, old(history)) && flash.mine == old(flash).mine
      ensures flash.selected && !old(flash).selected ==> HandedOff(laws, flash) && flash.other.image == old(accepted) && old(token) == given
      ensures reply.Answer? ==> flash.selected && !old(flash).selected && state == AwaitingPower && token == ""
      ensures reply.Answer? <==> old(Passes(given, safe)) && ended && described && e.Sure? && e'.Sure?
      ensures reply.Answer? ==> expected == old(if queued.Some? then queued.value.version else "")
    {
      if token == "" || given != token {
        return Malformed;
      }
      lastMs := now;
      if state != Receiving || received != queued.value.bytes || !UsbSafe(safe) {
        return Refused;
      }
      var sound := Checked(stale, ended, described);
      if !sound {
        var _ := Abandon(e);
        return Malformed;
      }
      reply := HandOff(e, e');
    }

    method HandOff(e: Effect, e': Effect) returns (reply: Reply)
      requires Valid() && storageOk && token != "" && state == Receiving && !handle && Matches(laws, queued.value, flash.other.image)
      modifies `flash, `history, `storageOk, `expected, `token, `state
      ensures Valid() && Extends(history, old(history)) && flash.mine == old(flash).mine && flash.other.image == old(flash).other.image
      ensures flash.selected ==> HandedOff(laws, flash)
      ensures reply.Answer? <==> e.Sure? && e'.Sure?
      ensures reply.Answer? ==> flash.selected && state == AwaitingPower && token == "" && expected == old(queued).value.version
      ensures e.Sure? && !e'.Sure? ==> state == Uncertain && token == "" && flash.selected == e'.Landed?
      ensures !e.Sure? ==> !flash.selected && !storageOk
    {
      var saved := Persist(queued.value.envelope, queued.value.version, e);
      if !saved {
        return Refused;
      }
      expected, token := queued.value.version, "";
      var chosen := Choose(e');
      reply := if chosen then Answer(["verified", queued.value.version]) else Refused;
    }

    /** Selects the slot whose handoff has just been journalled; an uncertain outcome is left to reconciliation. */
    method Choose(e: Effect) returns (chosen: bool)
      requires Durably() && Known() && storageOk && token == "" && !flash.selected && HandedOff(laws, flash)
      modifies `flash, `history, `state
      ensures Valid() && Extends(history, old(history)) && flash.mine == old(flash).mine && flash.other.image == old(flash).other.image
      ensures chosen <==> e.Sure?
      ensures (flash.selected <==> !e.Kept?) && HandedOff(laws, flash)
      ensures state == if chosen then AwaitingPower else Uncertain
    {
      chosen := Select(e);
      state := if chosen then AwaitingPower else Uncertain;
    }

    /** The host gives up; with the word "interrupted", also after a restart. */
    method AbortCommand(given: string, now: nat, at: Reading, e: Effect) returns (reply: Reply)
      requires Valid()
      modifies this
      ensures Valid() && Extends(history, old(history)) && flash.mine == old(flash).mine && flash.other == old(flash).other
      ensures flash.journal != old(flash).journal ==> flash.journal == NO_REQUEST && !flash.selected
      ensures reply.Answer? ==> !flash.selected && state == Idle && token == "" && !usbRequest && (old(usbRequest) ==> flash.journal == NO_REQUEST)
      ensures reply.Answer? ==> old(token != "" && given == token) || old(given == "interrupted" && state == Interrupted && confirmed && expected == "")
      ensures reply.Malformed? ==> flash == old(flash) && state == old(state) && token == old(token)
    {
      if given == "interrupted" && usbRequest && token == "" {
        if !confirmed || !storageOk || expected != "" || state != Interrupted {
          return Refused;
        }
        var selection := ReadSelection(laws, flash, queued, expected, at);
        AnswersAreTrue(laws, flash, queued, expected, at);
        if selection != Unselected {
          state := if selection == Selected then AwaitingPower else Uncertain;
          return Refused;
        }
      } else {
        if token == "" || given != token {
          return Malformed;
        }
        lastMs := now;
      }
      var ok := Abandon(e);
      reply := if ok then Answer(["aborted"]) else Refused;
    }

    // ---------- between commands ----------

    /** A host that has been silent too long loses its token. */
    method ExpireTransfer(now: nat, e: Effect)
      requires Valid()
      modifies this
      ensures Valid() && Extends(history, old(history)) && flash.mine == old(flash).mine && flash.other == old(flash).other
      ensures old(token != "" && now > lastMs + IDLE_LIMIT_MS) ==> token == "" && !flash.selected
      ensures !old(token != "" && now > lastMs + IDLE_LIMIT_MS) ==> flash == old(flash) && token == old(token)
    {
      if token != "" && now > lastMs + IDLE_LIMIT_MS {
        var _ := Abandon(e);
      }
    }

    /** Clears a request that has been settled. */
    method Settle(outcome: State, e: Effect)
      requires Valid() && !flash.selected && token == "" && storageOk && Closed(laws, flash)
      modifies this
      ensures Valid() && Extends(history, old(history)) && flash.mine == old(flash).mine && flash.other == old(flash).other && !flash.selected
      ensures flash == old(flash) || flash.journal == NO_REQUEST
      ensures token == "" && state == outcome && (storageOk ==> queued.None? && expected == "" && !usbRequest)
      ensures firmware == old(firmware)
    {
      state := outcome;
      var ok := Persist("", "", e);
      if ok {
        expected, queued, usbRequest := "", None, false;
      }
    }

    /** A running release can no longer be the one selected. */
    lemma RunningIsUnselected()
      requires Valid() && storageOk && queued.Some? && queued.value.version == firmware
      ensures !flash.selected
    {
    }

    /** What reconciliation reports, storage permitting. */
    function Settled(at: Reading): State
      reads this
    {
      if !storageOk || token != "" then state
      else if queued.Some? && queued.value.version == firmware then Success
      else if !usbRequest || queued.None? then state
      else match ReadSelection(laws, flash, queued, expected, at)
        case Unknown => Uncertain
        case Selected => AwaitingPower
        case Rejected => if Newer(laws, queued.value.version, firmware) then RolledBack else Superseded
        case Unselected => if Newer(laws, queued.value.version, firmware) then Interrupted else Superseded
    }

    /** What each report says of the flash and of the release asked for. */
    lemma SettledMeans(at: Reading)
      requires Valid() && storageOk && token == "" && queued.Some?
      ensures var s, version := Settled(at), queued.value.version;
        && (s == Success <==> version == firmware)
        && (s == AwaitingPower ==> flash.selected && laws.describe(flash.other.image) == Some(version))
        && (s in {RolledBack, Superseded, Interrupted} ==> !flash.selected)
        && (s == RolledBack ==> Newer(laws, version, firmware) && flash.other.mark in {Invalid, Aborted})
        && (s == Superseded ==> !Newer(laws, version, firmware))
        && (s == Interrupted ==> Newer(laws, version, firmware))
        && s in {Success, AwaitingPower, RolledBack, Superseded, Interrupted, Uncertain}
    {
      AnswersAreTrue(laws, flash, queued, expected, at);
    }

    /**
     Settles the request of an earlier session. The journal is cleared only for a release that
     runs, was rejected, or was overtaken, and the mark of the handoff is taken back only when
     the running slot is known to be the one selected.
     */
    method Reconcile(at: Reading, e: Effect)
      requires Valid()
      modifies this
      ensures Valid() && Extends(history, old(history)) && flash.mine == old(flash).mine && flash.other == old(flash).other
      ensures flash.journal != old(flash).journal ==> !flash.selected
      ensures flash.journal != old(flash).journal && flash.journal.queue == "" && old(queued.Some?) ==>
                || old(queued.value.version) == firmware || !Newer(laws, old(queued.value.version), firmware)
                || flash.other.mark in {Invalid, Aborted}
      ensures old(flash).selected ==> flash == old(flash)
      ensures storageOk ==> state == old(Settled(at))
    {
      if !storageOk || token != "" {
        return;
      }
      if queued.Some? && !Newer(laws, queued.value.version, firmware) && queued.value.version == firmware {
        RunningIsUnselected();
        Settle(Success, e);
        return;
      }
      if !usbRequest {
        return;
      }
      if queued.None? {
        usbRequest := false;
        return;
      }
      var selection := ReadSelection(laws, flash, queued, expected, at);
      AnswersAreTrue(laws, flash, queued, expected, at);
      if selection.Unknown? {
        state := Uncertain;
      } else if selection.Selected? {
        state := AwaitingPower;
      } else if !Newer(laws, queued.value.version, firmware) {
        Settle(Superseded, e);
      } else if selection.Rejected? {
        Settle(RolledBack, e);
      } else {
        TakeBack(e);
      }
    }

    /** A handoff that did not happen is journalled as a request again. */
    method TakeBack(e: Effect)
      requires Valid() && !flash.selected && token == "" && storageOk && queued.Some?
      modifies this
      ensures Valid() && Extends(history, old(history)) && flash.mine == old(flash).mine && flash.other == old(flash).other && !flash.selected
      ensures flash == old(flash) || flash.journal == Journal(old(flash).journal.queue, "", true)
      ensures storageOk ==> expected == "" && state == Interrupted && queued == old(queued)
      ensures firmware == old(firmware)
    {
      if expected != "" {
        var ok := Persist(queued.value.envelope, "", e);
        if !ok {
          return;
        }
      }
      expected, state := "", Interrupted;
    }

    // ---------- power cuts and restarts ----------

    /**
     The power fails at entry k of the history and the device starts again, from slots that a
     restart may leave. `readable` is false when the journal cannot be read.
     */
    method Restart(k: nat, after: Durable, version: string, readable: bool)
      requires Valid() && k < |history| && Restarts(history[k].flash, after) && laws.describe(after.mine.image) == Some(version)
      modifies this
      ensures Valid() && flash == after && history == old(history) + [Moment(after, Some(k))] && firmware == version && token == ""
      ensures !confirmed && (storageOk ==> Known())
    {
      Wipe();
      Boot(k, after, version);
      if readable {
        Load();
      }
    }

    method Boot(k: nat, after: Durable, version: string)
      requires Durably() && k < |history| && Restarts(history[k].flash, after) && laws.describe(after.mine.image) == Some(version)
      modifies `flash, `history, `firmware
      ensures Durably() && flash == after && history == old(history) + [Moment(after, Some(k))] && firmware == version
    {
      RestartKeepsSafe(laws, history[k].flash, after);
      TracedSnoc(laws, history, Moment(after, Some(k)));
      flash, history, firmware := after, history + [Moment(after, Some(k))], version;
    }

    /** Everything that is lost with the power. */
    method Wipe()
      modifies `storageOk, `confirmed, `usbRequest, `expected, `queued, `state, `handle, `hash, `token, `descriptor, `descriptorBytes, `received, `lastMs
      ensures !storageOk && !confirmed && !usbRequest && expected == "" && queued.None? && state == Idle && token == ""
    {
      Disconnect();
      storageOk, confirmed, usbRequest, expected, queued, state := false, false, false, "", None, Idle;
      received, lastMs := 0, 0;
    }

    /** Reads the journal; one that does not make sense stops all updates. */
    method Load()
      requires Durably() && token == "" && !storageOk && !usbRequest && expected == "" && queued.None?
      modifies `storageOk, `usbRequest, `expected, `queued, `state
      ensures Valid() && (storageOk <==> flash.journal.expected == "" || laws.rank(flash.journal.expected).Some?)
      ensures storageOk ==> usbRequest == (flash.journal.usb && (flash.journal.queue != "" || flash.journal.expected != ""))
      ensures storageOk && queued.Some? ==> state == Queued
    {
      var journal := flash.journal;
      usbRequest, expected := journal.usb, journal.expected;
      if expected != "" && laws.rank(expected).None? {
        return;
      }
      if journal.queue == "" && expected == "" {
        usbRequest := false;
      }
      if journal.queue != "" {
        queued := Vetted(laws, journal.queue);
        if queued.None? || (expected != "" && queued.value.version != expected) {
          return;
        }
        state := Queued;
      }
      storageOk := true;
    }

    /** The health check of a new session. */
    method Confirm(healthy: bool)
      requires Valid()
      modifies `confirmed
      ensures Valid() && confirmed == (old(confirmed) || (healthy && storageOk))
    {
      if healthy && storageOk {
        confirmed := true;
      }
    }
  }

  // ---------- whole runs ----------

  /** One thing that may happen to the updater, with everything the platform answers. */
  datatype Op =
    | OpBegin(size: Option<nat>, random: string, now: nat, safe: bool)
    | OpText(chunkToken: string, offset: nat, text: string, now: nat)
    | OpVerify(given: string, now: nat, safe: bool, slotOk: bool, mid: seq<byte>, erased: bool, hashing: bool, e: Effect, e': Effect)
    | OpImage(chunkToken: string, offset: nat, bytes: seq<byte>, now: nat, safe: bool, mid: seq<byte>, written: bool, hashed: bool, e: Effect)
    | OpFinish(given: string, now: nat, safe: bool, stale: Option<string>, ended: bool, described: bool, e: Effect, e': Effect)
    | OpAbort(given: string, now: nat, at: Reading, e: Effect)
    | OpExpire(now: nat, e: Effect)
    | OpReconcile(at: Reading, e: Effect)
    | OpConfirm(healthy: bool)
    | OpRestart(k: nat, after: Durable, version: string, readable: bool)

  /** This moment is a restart among the operations. */
  ghost predicate Asked(ops: seq<Op>, m: Moment) {
    exists j :: 0 <= j < |ops| && ops[j].OpRestart? && m == Moment(ops[j].after, Some(ops[j].k))
  }

  /** What one operation may add to the history: durable effects, or the restart it asks for. */
  ghost predicate Performs(op: Op, later: seq<Moment>, earlier: seq<Moment>) {
    if op.OpRestart? then later == earlier || later == earlier + [Moment(op.after, Some(op.k))]
    else Extends(later, earlier)
  }

  lemma AskedStays(ops: seq<Op>, i: nat, later: seq<Moment>, earlier: seq<Moment>)
    requires i < |ops| && Performs(ops[i], later, earlier) && forall m :: m in Boots(earlier) ==> Asked(ops, m)
    ensures earlier <= later && forall m :: m in Boots(later) ==> Asked(ops, m)
  {
    if ops[i].OpRestart? {
      BootsSnoc(earlier, Moment(ops[i].after, Some(ops[i].k)));
    }
  }

  method Perform(u: Upgrade, op: Op)
    requires u.Valid()
    modifies u
    ensures u.Valid() && Performs(op, u.history, old(u.history))
  {
    match op
    case OpBegin(size, random, now, safe) =>
      if random != "" { var _ := u.BeginUpdate(size, random, now, safe); }
    case OpText(chunkToken, offset, text, now) => var _ := u.DescriptorChunk(chunkToken, offset, text, now);
    case OpVerify(given, now, safe, slotOk, mid, erased, hashing, e, e') =>
      var _ := u.Verify(given, now, safe, slotOk, mid, erased, hashing, e, e');
    case OpImage(chunkToken, offset, bytes, now, safe, mid, written, hashed, e) =>
      var _ := u.ImageChunk(chunkToken, offset, bytes, now, safe, mid, written, hashed, e);
    case OpFinish(given, now, safe, stale, ended, described, e, e') =>
      var _ := u.Finish(given, now, safe, stale, ended, described, e, e');
    case OpAbort(given, now, at, e) => var _ := u.AbortCommand(given, now, at, e);
    case OpExpire(now, e) => u.ExpireTransfer(now, e);
    case OpReconcile(at, e) => u.Reconcile(at, e);
    case OpConfirm(healthy) => u.Confirm(healthy);
    case OpRestart(k, after, version, readable) =>
      if k < |u.history| && Restarts(u.history[k].flash, after) && u.laws.describe(after.mine.image) == Some(version) {
        u.Restart(k, after, version, readable);
      }
  }

  /**
   A whole life of the updater, from a slot with no request: at every moment the power might
   fail, a slot that is selected holds the journalled, verified release, and every entry comes
   of one permitted step or of one of the restarts asked for.
   */
  method Live(laws: Laws, firmware: string, factory: Durable, ops: seq<Op>) returns (history: seq<Moment>)
    requires laws.describe(factory.mine.image) == Some(firmware) && factory.journal == NO_REQUEST && !factory.selected
    ensures forall m :: m in history ==> Safe(laws, m.flash)
    ensures Traced(laws, history) && forall m :: m in history && m.origin.Some? ==> Asked(ops, m)
    ensures history != [] && history[0] == Moment(factory, None)
  {
    var u := new Upgrade(laws, firmware, factory);
    var i := 0;
    while i < |ops|
      invariant 0 <= i <= |ops| && fresh(u) && u.Valid() && u.laws == laws && u.history != [] && u.history[0] == Moment(factory, None)
      invariant forall m :: m in Boots(u.history) ==> Asked(ops, m)
    {
      ghost var earlier := u.history;
      Perform(u, ops[i]);
      AskedStays(ops, i, u.history, earlier);
      i := i + 1;
    }
    history := u.history;
    forall k: nat | k < |history| && history[k].origin.Some? ensures Asked(ops, history[k]) {
      BootsHold(history, k);
    }
  }
}
