# OpenAthan: verified models of the stateful cores

A Dafny model of the parts of OpenAthan that keep a promise over a whole run, or that must
agree with a simpler account of what they do, with proofs of those promises for all inputs.
`dafny verify dfyconfig.toml` checks everything.

## What is modelled

**The prayer scheduler.** `Timetable` and `PlaybackWindow` are the two halves of `rebuild`: the
validation of five calculated days and the playback entries they give. `EventFacts` says what the
entries cover. `SchedulerCore` holds the class `Scheduler`, whose methods are the source's, proved
against a transition relation in which the store, the clock and the player are arbitrary: a save may
fail and still have landed, samples may jump, playback may be refused, the device may restart at any
operation. `SchedulerSafety` proves that no occurrence is played twice, `SchedulerDelivery` and
`SchedulerLosses` exactly which are never missed, `SchedulerSkips` that a skip is honoured,
`SchedulerRequests` exactly when a tick asks the player and for what,
`SchedulerPersistence` and `SchedulerRecord` that what is saved can be read back. `EntryIdentity` shows
that an entry does not depend on the day its window is built for, `SchedulerTies` what becomes of
entries that share an instant, `EntryMeaning` whom an entry is named after and when it is wanted, `ScheduleConflicts` that the reported nights are those whose entries
were merged or disabled. `Lights` is the second derivation of
the same events and `LightsAgreement` says exactly when both agree.

Five places where the code promises less than it appears to are stated exactly, each with an input:

- The overlap exception of the validation lets a window through whose times are not in order when a
  day has little besides the overlapping pair (`Timetable.AcceptedYetCrossed`). Order holds if and
  only if the nearest present times around every overlap clear it (`Timetable.OrderedExactly`); one
  time between sunrise and Maghrib on both days is enough (`Timetable.MidTimesSuffice`).
- In such a window an entry can be consumed before its instant by an entry for a later day of the same
  prayer (`SchedulerLosses.MissedWhenCrossed`). An event survives every run before it if and only if no
  day of the run holds an entry that overtakes it (`SchedulerLosses.SurvivesExactly`); windows in which
  each prayer comes later every day hold none (`SchedulerDelivery.IncreasingSpares`), and some that are
  out of order hold none either (`SchedulerLosses.CrossedYetSpared`).
- Entries of one instant are played in the order the sort leaves them, which is any order. An entry is
  lost there exactly when one of the same instant that overtakes it comes first, even one that is
  skipped (`SchedulerTies.TieDecides`, `SchedulerTies.HeardExactly`).
- The lights and the scheduler agree if and only if no two entries share an instant
  (`LightsAgreement.AgreementExactly`), which the validation does not ensure either
  (`LightsAgreement.TiedFajrsDisagree`).
- A skip of a shared Fajr of the day after tomorrow that comes due before its day is saved in a form
  the decoder refuses (`SchedulerPersistence.OvertakenIsUnreadable`). In every other case the saved
  state decodes to itself (`SchedulerPersistence.CandidateDecodable`).

The laws across days assume what the source's calculator does: it refuses dates outside the supported
range (`EntryIdentity.Dated`).

**The zero-copy audio source.** `SplicingSource` keeps the source's buffers and pointers, and two ghost
streams: what was taken from the ring buffer and what was given to the player. For every chunking
and every pattern of consumption, given, exposed, queued and pending bytes together are the bytes
taken, in order.

**The firmware update over USB.** `UsbJournal` is what survives a power cut, `UsbUpdate` the commands,
the chunks, the journal and the reconciliation after a restart. Every durable change is added to a
history; the power may fail at any entry of it, also between a failed effect and its report. The
invariant of every entry is `UsbJournal.Safe`: a slot that is selected for the next boot holds the
image of the journalled, verified release. Each entry is one step of `UsbJournal.Step` from the entry
before it, or a restart; so every request in the journal can be followed back to its acceptance
(`UsbJournal.RequestComes`), and it leaves only in the ways `UsbJournal.RequestLeaves` lists.

**Installing the recording.** `DuaBank` is the flash layout, as the device checks it and as the host
tool writes it; `DuaInstall` the erase, write, read-back and commit order. A write may leave anything
whatever in the range it covers, whatever it reports, which includes writes torn at any bit.

**The QR encoder's arithmetic.** `PolynomialRing` and `GaloisField` carry polynomials over
GF(2^8)/0x11D, `ReedSolomon` the two in-place loops (section 7.5 of ISO/IEC 18004:2015), `QrBits` and
`QrSegments` the bit buffer and the packed segments (sections 7.4.3 and 7.4.4).

**Wire and record formats.** `SerialFrames` and `SerialCommands` are the serial line from both ends;
`QuranObjects` and `QuranGrammar` the incremental splitter and the grammar it decides (sections 4, 5
and 7 of RFC 8259); `DigestHeader`, `ReplayWindow`, `DigestAuth` and `DigestClient` the header, the
nonce counts and what a client must send (section 3.4 of RFC 7616);
`SpeakerName` the checked UTF-8 names (section 4 of RFC 3629); `RecordFields`, `SettingsRecord` and
`SpeakerRecord` the remaining records closed by a CRC.

**The dua after an Athan.** `DuaSequence` is the follow-up state machine, with its trace properties.

## Model

| member | source | states |
|---|---|---|
| Timetable.OrderedExactly | lib/openathan-core/src/scheduler.cpp:121-144 | The five days are in order (each present time before every later one, but for an adjacent Isha/Fajr pair) if and only if the validation accepts them and the nearest present times around each overlapping pair clear it. |
| Timetable.AcceptedYetCrossed | lib/openathan-core/src/scheduler.cpp:130-138 | The validation alone is not enough: a concrete window of five days that it accepts has an Isha later than a prayer of the day after next. |
| Timetable.MidTimesSuffice | lib/openathan-core/src/scheduler.cpp:130-138 | It is enough when both days of every overlapping pair also have a time between sunrise and Maghrib. |
| Timetable.OrderedPrayersIncrease | lib/openathan-core/src/scheduler.cpp:121-144 | In an ordered window each of the five prayers comes later every day. |
| PlaybackWindow.FetchWindow | lib/openathan-core/src/scheduler.cpp:114-144 | The day loop, for every calculator: it yields the flattened days exactly when every calculated day is given and the whole window is accepted, otherwise it fails. |
| PlaybackWindow.ValidateDay | lib/openathan-core/src/scheduler.cpp:125-143 | The slot loop of one day: it goes on exactly when every pair of neighbouring times up to that day is allowed, and keeps the last present time. |
| PlaybackWindow.PairClear | lib/openathan-core/src/scheduler.cpp:132-137 | An overlapping Isha/Fajr pair passes exactly when no other time of either day lies on the wrong side of it. |
| PlaybackWindow.Collect | lib/openathan-core/src/scheduler.cpp:145-170 | The event and conflict loops: equal pairs merged, late Isha kept but disabled, guard days left out, each overlap reported once. |
| ScheduleConflicts.SharedExactly | lib/openathan-core/src/scheduler.cpp:145-170 | A night is reported as shared playback if and only if one entry names both its Isha and the Fajr after it. |
| ScheduleConflicts.SuppressedExactly | lib/openathan-core/src/scheduler.cpp:145-170 | With Isha selected, a night of the playback window is reported as suppressed if and only if the entry of its Isha is disabled. |
| ScheduleConflicts.ReportedInOrder | lib/openathan-core/src/scheduler.cpp:148-153 | Nights are reported in order of their days, so no night twice. |
| ScheduleConflicts.ReportedTimes | lib/openathan-core/src/scheduler.cpp:150-153 | A report names an Isha and the Fajr after it with the instants of their slots; the Isha is not before the Fajr, and playback is shared exactly when they coincide. |
| ScheduleConflicts.SameNight | lib/openathan-core/src/scheduler.cpp:114-153 | Two days whose windows both hold a night report it alike, or both leave it out. |
| PlaybackWindow.Push | lib/openathan-core/src/scheduler.cpp:154-168 | The event of one slot, if any: which key is kept for a shared pair, whether it is enabled, and whether it lies in the playback window. |
| PlaybackWindow.ReplayedWindow | lib/openathan-core/src/scheduler.cpp:121-124 | Every five days of slots are the window of some calculator. |
| PlaybackWindow.SortByTime | lib/openathan-core/src/scheduler.cpp:171 | The entries come out in time order and are the same entries. |
| EventFacts.CoveredOnce | lib/openathan-core/src/scheduler.cpp:145-170 | Each present prayer of yesterday, today and tomorrow is named by exactly one entry, as its key or as its shared partner. |
| EventFacts.EntriesDisjoint | lib/openathan-core/src/scheduler.cpp:154-168 | No two entries name the same prayer occurrence. |
| EventFacts.EntryTimes | lib/openathan-core/src/scheduler.cpp:154-168 | Every occurrence an entry names is a present slot at that entry's instant. |
| EventFacts.DistinctInstants | lib/openathan-core/src/scheduler.cpp:145-171 | In an ordered window no two entries share an instant. |
| EntryMeaning.EntryMeans | lib/openathan-core/src/scheduler.cpp:154-168 | Every entry of a window is enabled if and only if some prayer it names is selected and it is not a lone Isha after the next Fajr; it is a pair exactly when Isha and Fajr coincide, and bears the name of the Isha exactly when of the two only Isha is selected. |
| SchedulerCore.Scheduler.Begin | lib/openathan-core/src/scheduler.cpp:59-64 | A restart: the durable state is loaded or storage is declared failed, and the settings are configured. |
| SchedulerCore.Scheduler.Configure | lib/openathan-core/src/scheduler.cpp:65-80 | Invalid settings leave the scheduler unconfigured; valid ones are kept and every cached day is dropped. |
| SchedulerCore.Scheduler.Block | lib/openathan-core/src/scheduler.cpp:94-99 | Storage is declared failed and nothing is armed or upcoming. |
| SchedulerCore.Scheduler.Rebuild | lib/openathan-core/src/scheduler.cpp:109-176 | The timetable of a day: its entries are an arrangement of the accepted window's events, or the cache is left empty. |
| SchedulerCore.Scheduler.Persist | lib/openathan-core/src/scheduler.cpp:177-188 | The candidate is the state only once it is saved; a save reported failed may have landed all the same, and stops the scheduler. |
| SchedulerCore.Scheduler.RefreshNext | lib/openathan-core/src/scheduler.cpp:189-196 | The upcoming entry is the first enabled, unconsumed one after now. |
| SchedulerCore.Scheduler.Consume | lib/openathan-core/src/scheduler.cpp:224-248 | The consumption loop: watermarks raised by every entry up to now, the entry to play, and the settling of a pending skip. |
| SchedulerCore.Scheduler.Commit | lib/openathan-core/src/scheduler.cpp:249-259 | Consumption is saved before anything is handed to the player, and nothing is handed over when the save fails. |
| SchedulerCore.Scheduler.EnsureTimetable | lib/openathan-core/src/scheduler.cpp:213-223 | The timetable is rebuilt when the day changed; a day that is refused clears it and disarms. |
| SchedulerCore.Scheduler.Tick | lib/openathan-core/src/scheduler.cpp:197-260 | One tick is a step of the scheduler's transition relation, for every clock sample and every outcome of save and playback. |
| SchedulerCore.Scheduler.SkipNext | lib/openathan-core/src/scheduler.cpp:261-271 | A tick and then the choice of the upcoming entry, refused when it is not the expected one. |
| SchedulerCore.Scheduler.CancelSkip | lib/openathan-core/src/scheduler.cpp:272-277 | The pending skip is taken back durably. |
| SchedulerSafety.ScanFacts | lib/openathan-core/src/scheduler.cpp:227-241 | The scan never lowers a watermark, consumes every entry up to now, and hands out only an entry no member of which was consumed before. |
| SchedulerSafety.StepEffect | lib/openathan-core/src/scheduler.cpp:59-277 | Every operation keeps the durable watermarks from falling, and hands over only occurrences that are consumed durably by then and were not before. |
| SchedulerSafety.RunMonotone | lib/openathan-core/src/scheduler.cpp:177-188 | Over a whole run, with failed saves and restarts, no durable watermark ever falls. |
| SchedulerSafety.AtMostOnce | lib/openathan-core/src/scheduler.cpp:48-54 | Over a whole run no prayer occurrence is handed to the player twice, as a key or as a shared partner, and each one handed over is consumed durably. |
| EntryIdentity.SameEntry | lib/openathan-core/src/scheduler.cpp:145-170 | Entries of any two days that name a common prayer are the same: key, partner, instant and enabled flag, shared pairs and suppressed nights at the window edges included. |
| EntryIdentity.EntryCarries | lib/openathan-core/src/scheduler.cpp:145-170 | An entry of one day is an entry of every other day that can be built and whose window holds one of its prayers. |
| SchedulerDelivery.ScanExactly | lib/openathan-core/src/scheduler.cpp:227-241 | The consumption loop consumes an event if and only if it was consumed before, or an entry up to now names one of its prayers for the same day or a later one. |
| SchedulerDelivery.TickConsumesExactly | lib/openathan-core/src/scheduler.cpp:224-249 | A tick whose save lands consumes an event if and only if it was consumed before, or one of its prayers is older than yesterday, or an entry up to now overtakes it; a lost save consumes nothing. |
| SchedulerDelivery.RunSpares | lib/openathan-core/src/scheduler.cpp:197-260 | Along a run with fixed settings whose samples spare an event in that sense, across midnight rebuilds, failed saves, other skips and restarts, the event stays unconsumed. |
| SchedulerDelivery.NoMiss | lib/openathan-core/src/scheduler.cpp:224-260 | An entry of some day, spared until then, is handed to the player by the continuous tick of any later day that crosses it at most two seconds late, or an entry after it that is due in the same tick. |
| SchedulerDelivery.EarlierSpares | lib/openathan-core/src/scheduler.cpp:224-241 | In windows in which each prayer comes later every day, an earlier entry overtakes no recent later one. |
| SchedulerDelivery.NoMissWhenIncreasing | lib/openathan-core/src/scheduler.cpp:224-260 | The corollary for such windows: every recent wanted entry is heard when it is crossed. |
| SchedulerRequests.TickRequestsExactly | lib/openathan-core/src/scheduler.cpp:197-260 | For every state, sample and answer, a tick that acts asks the player for exactly one entry if and only if it was armed, the two samples are steady, playback is allowed, the player ready and the save acknowledged, and some entry of the day was crossed at most two seconds ago, wanted, unskipped, recent, unconsumed and overtaken by none before it; it asks for the last such entry. |
| SchedulerRequests.RequestNeedsPermission | lib/openathan-core/src/scheduler.cpp:249-259 | Whatever the operation, a request comes only of a tick, also that of a skip, in an armed scheduler with permission, a ready player, an acknowledged save and steady samples. |
| SchedulerRequests.BarredRun | lib/openathan-core/include/openathan/scheduler.h:103 | Along any run without a restart or a new permission a scheduler that may not play asks for nothing. |
| SchedulerRequests.BarredIsLost | lib/openathan-core/src/scheduler.cpp:249-256 | An entry that falls due while playback is barred or the player is not ready is consumed by the tick that saves it, nothing is asked for, the fault says so, and no later run, with whatever settings, asks for a prayer of it. |
| SchedulerRequests.ConsumedIsSilent | lib/openathan-core/src/scheduler.cpp:48-54 | No run, new settings and restarts included, asks for a prayer that is consumed in the store. |
| SchedulerRequests.ContinuousExactly | lib/openathan-core/src/scheduler.cpp:204-212 | Samples are continuous if and only if at most three seconds pass on the monotonic clock and the wall clock goes forward by as much to 250 ms; the bounds on whole seconds add nothing. |
| SchedulerRequests.PolledInTime | lib/openathan-core/src/scheduler.cpp:204-232 | Samples of a clock that keeps pace, at most two seconds apart, are continuous and never late for an entry between them. |
| SchedulerRequests.TickFault | lib/openathan-core/src/scheduler.cpp:197-260 | The fault after a tick: a refused day, a failed save, no permission, the answer of the player, or what there was before. |
| SchedulerRequests.FailedSaveStops | lib/openathan-core/src/scheduler.cpp:177-188 | A failed save with something to consume stops the scheduler and asks for nothing. |
| SchedulerRequests.StoppedRun | lib/openathan-core/src/scheduler.cpp:94-99 | A stopped scheduler neither stores nor asks for anything along any run that does not begin it again. |
| SchedulerLosses.SurvivesExactly | lib/openathan-core/src/scheduler.cpp:197-260 | An event survives every run before it, from any state in which it is unconsumed, if and only if on every day of those runs that can be built it is recent and no earlier entry overtakes it. |
| SchedulerTies.DueExactly | lib/openathan-core/src/scheduler.cpp:227-241 | An unconsumed entry that its day spares becomes due, at its place in the sorted list, if and only if no entry of the same instant that overtakes it is sorted before it, whether that one is played, disabled or skipped. |
| SchedulerTies.TieDecides | lib/openathan-core/src/scheduler.cpp:224-260 | The tick that crosses such an entry hands it over, or an entry of the list that is not before it, unless one of the same instant is sorted before it and overtakes it; then the entry is consumed and never handed over. |
| SchedulerTies.OneTiedOvertaker | lib/openathan-core/src/scheduler.cpp:130-170 | At most one other entry of the same instant overtakes an entry, in any accepted window. |
| SchedulerTies.HeardExactly | lib/openathan-core/src/scheduler.cpp:197-260 | A wanted entry is heard after every run before it and in every order the sort may leave, if and only if every day of those runs that can be built spares it and no other entry up to its instant overtakes it on the day it is crossed; ties included. |
| SchedulerLosses.LostRun | lib/openathan-core/src/scheduler.cpp:224-260 | On a day that fails it, a restart and one tick consume the event before its instant, and the tick that crosses it, wanted and on time, hands over nothing, or only another entry of the same instant. |
| SchedulerLosses.MissedWhenCrossed | lib/openathan-core/src/scheduler.cpp:130-138 | Such a window is accepted: for a concrete calculator a run of a restart and two ticks crosses yesterday's Fajr, wanted and unskipped, with nothing handed over. |
| SchedulerLosses.CrossedYetSpared | lib/openathan-core/src/scheduler.cpp:130-138 | The condition is weaker than increasing windows: an accepted window that does not increase overtakes none of its entries. |
| SchedulerSkips.SkipHonoured | lib/openathan-core/src/scheduler.cpp:229-247 | Once a skip that names an entry is stored, no run with the same settings that does not take it back hands over any prayer of that entry, through restarts, failed saves and midnights. |
| SchedulerSkips.TickShowsFirst | lib/openathan-core/src/scheduler.cpp:189-196 | After a tick that arms, the entry shown is one of the day that is enabled, unconsumed and ahead, none that is comes earlier, and none is shown only when there is none; any other tick shows none. |
| SchedulerSkips.SkipExactly | lib/openathan-core/src/scheduler.cpp:261-271 | A skip is granted exactly when something is shown that is what was expected and a skip is stored; then the skip there was stays, or the entry shown is stored; a refused one changes no state. |
| SchedulerSkips.SkippedNextIsSilent | lib/openathan-core/src/scheduler.cpp:261-271 | A skip that is granted is stored for an earliest entry of the day still ahead, and no run that keeps it plays a prayer of that entry. |
| SchedulerPersistence.CandidateDecodable | lib/openathan-core/src/scheduler.cpp:224-249 | What a tick saves can be read back if and only if it does not overtake a skipped shared Fajr of the day after tomorrow. |
| SchedulerPersistence.AlwaysReadable | lib/openathan-core/src/scheduler_state.cpp:16-48 | Over a whole run without that case the store always holds a record that decodes to the state last saved, whatever checksum closes the record. |
| SchedulerPersistence.OvertakenIsUnreadable | lib/openathan-core/src/scheduler_state.cpp:41-43 | The excluded case is real: for a concrete calculator, a restart over an empty store, a granted skip and a tick at the skipped instant leave a record that the decoder refuses. |
| Checksum.ComputeCrc | lib/openathan-core/src/scheduler_state.cpp:5-12 | The nested byte and bit loops compute the reflected CRC-32 of their input. |
| Checksum.OneByteChangesCrc | lib/openathan-core/src/scheduler_state.cpp:5-12 | Changing any one byte of any input changes its CRC. |
| Checksum.KnownValue | lib/openathan-core/src/scheduler_state.cpp:5-12 | The checksum of the text "1" is the one CRC-32 prescribes. |
| SchedulerRecord.EncodeState | lib/openathan-core/src/scheduler_state.cpp:16-27 | The record written in place: magic, five watermarks, the skip, and the CRC of the first 32 bytes. |
| SchedulerRecord.RecordLayout | lib/openathan-core/src/scheduler_state.cpp:16-27 | Where everything lies in the record, to the byte. |
| SchedulerRecord.DecodeState | lib/openathan-core/src/scheduler_state.cpp:28-48 | The reading loop accepts exactly the records that frame, range and skip checks allow. |
| SchedulerRecord.DecodeEncode | lib/openathan-core/src/scheduler_state.cpp:16-48 | A state that fits its fields decodes from its record exactly when its serials are in range and its skip lies beyond its watermark, and then to itself, whatever checksum closes the record. |
| SchedulerRecord.EncodeDecode | lib/openathan-core/src/scheduler_state.cpp:28-48 | Every accepted record is the encoding of what it decodes to, whatever the checksum. |
| SchedulerRecord.DamagedByteRejected | lib/openathan-core/src/scheduler_state.cpp:28-48 | Changing any one byte of an accepted record makes decoding fail. |
| Lights.LightSchedule.Rebuild | lib/openathan-core/src/lights.cpp:106-126 | The second reading of the timetable, for every date and calculator: fifteen times of three days with the neighbouring Isha and Fajr, unsupported days left absent; it succeeds exactly when every supported day is calculated, and then reads the scheduler's window whenever yesterday and tomorrow are supported dates. |
| Lights.LightSchedule.Next | lib/openathan-core/src/lights.cpp:127-131 | The earliest time after now. |
| Lights.LightSchedule.NextEvent | lib/openathan-core/src/lights.cpp:132-158 | The earliest occurrence after now with its key, shared partner and enabled flag. |
| LightsAgreement.AgreementExactly | lib/openathan-core/src/lights.cpp:132-158 | The lights' next event is the scheduler's first entry after every instant (key, instant, shared partner and enabled flag), whatever order the sort leaves ties in, if and only if no two entries share an instant. |
| LightsAgreement.Agreement | lib/openathan-core/src/lights.cpp:132-158 | In particular they agree in every timetable that is in order. |
| LightsAgreement.TiedFajrsDisagree | lib/openathan-core/src/lights.cpp:132-158 | The other case is real: an accepted window has two entries of one instant, and there some sorted order of the entries disagrees with the lights. |
| EntryMeaning.NextMeans | lib/openathan-core/src/lights.cpp:132-157 | What the display shows is the earliest time ahead, with the prayers whose times it is; it is enabled, and named, exactly as entries of the scheduler are, and none is shown only when no time is ahead. |
| SplicingSource.RingBufferAudioSource.Fill | firmware/esphome/components/audio/audio_transfer_buffer.cpp:279-355 | For every chunk: nothing acquired is lost, repeated or reordered, what is newly exposed is a whole number of frames, and it is the chunk where it lies unless an incomplete frame is pending, and then that frame alone. |
| SplicingSource.RingBufferAudioSource.WholeFrames | firmware/esphome/components/audio/audio_transfer_buffer.cpp:329-355 | Exposed and queued together are always every whole frame acquired and not yet consumed. |
| SplicingSource.RingBufferAudioSource.Consume | firmware/esphome/components/audio/audio_transfer_buffer.cpp:242-253 | The exposed bytes are given out in order, and the item is released once nothing depends on it. |
| SplicingSource.RingBufferAudioSource.ReleaseItem | firmware/esphome/components/audio/audio_transfer_buffer.cpp:226-240 | The sub-frame tail moves to the splice buffer unchanged when the item is given back. |
| SplicingSource.RingBufferAudioSource.Promote | firmware/esphome/components/audio/audio_transfer_buffer.cpp:285-293 | The queued remainder becomes the exposed region. |
| SplicingSource.RingBufferAudioSource.Accept | firmware/esphome/components/audio/audio_transfer_buffer.cpp:305-355 | A chunk completes a pending frame or is absorbed, and is split into its aligned part and its tail. |
| SplicingSource.RingBufferAudioSource.Absorb | firmware/esphome/components/audio/audio_transfer_buffer.cpp:311-317 | A chunk too short to complete the frame is absorbed whole. |
| SplicingSource.RingBufferAudioSource.ExposeChunk | firmware/esphome/components/audio/audio_transfer_buffer.cpp:327-354 | The aligned part of a chunk is exposed, or the whole chunk is kept as a tail. |
| SplicingSource.RingBufferAudioSource.ExposeSplice | firmware/esphome/components/audio/audio_transfer_buffer.cpp:308-343 | The completed frame is exposed and the aligned rest of the chunk queued. |
| SplicingSource.RingBufferAudioSource.HasBufferedData | firmware/esphome/components/audio/audio_transfer_buffer.cpp:271-277 | What counts as buffered; a pending incomplete frame does not. |
| SplicingSource.RingBufferAudioSource.Drained | firmware/esphome/components/audio/audio_transfer_buffer.cpp:271-277 | When nothing counts as buffered, all but an incomplete frame has been given out. |
| SplicingSource.RingBufferAudioSource.ClearBufferedData | firmware/esphome/components/audio/audio_transfer_buffer.cpp:255-269 | Everything held is dropped and the source is as new. |
| GaloisField.Multiply | firmware/esphome/components/openathan_display/qrcodegen.cpp:402-410 | The shift-and-add loop computes the product in GF(2^8)/0x11D. |
| GaloisField.MulAssociates | firmware/esphome/components/openathan_display/qrcodegen.cpp:402-410 | Multiplication is associative. |
| GaloisField.MulCommutes | firmware/esphome/components/openathan_display/qrcodegen.cpp:402-410 | Multiplication is commutative. |
| GaloisField.MulDistributes | firmware/esphome/components/openathan_display/qrcodegen.cpp:402-410 | Multiplication distributes over exclusive or. |
| GaloisField.MulTwo | firmware/esphome/components/openathan_display/qrcodegen.cpp:402-410 | Multiplying by 2 is one shift reduced by 0x11D. |
| GaloisField.OnlyProduct | firmware/esphome/components/openathan_display/qrcodegen.cpp:402-410 | No other function that adds, maps 1 to y and commutes with doubling is multiplication by y. |
| GaloisField.BytesLawful | firmware/esphome/components/openathan_display/qrcodegen.cpp:402-410 | Bytes with these operations form a commutative ring of characteristic two. |
| PolynomialRing.EvalTimes | firmware/esphome/components/openathan_display/qrcodegen.cpp:370-377 | The value of a product of polynomials is the product of the values, over any such ring. |
| PolynomialRing.DivisionExact | firmware/esphome/components/openathan_display/qrcodegen.cpp:384-395 | Long division by a monic polynomial: quotient times divisor plus remainder is the shifted data, over any such ring. |
| ReedSolomon.ComputeDivisor | firmware/esphome/components/openathan_display/qrcodegen.cpp:358-378 | The in-place loops leave the coefficients of the product of (x - 2^i) for i below the degree, without its leading 1. |
| ReedSolomon.ComputeRemainder | firmware/esphome/components/openathan_display/qrcodegen.cpp:384-395 | The in-place loops leave the remainder of the data, shifted by the degree, divided by the generator. |
| ReedSolomon.GeneratorRoots | firmware/esphome/components/openathan_display/qrcodegen.cpp:365-377 | The generator vanishes at each 2^i below its degree. |
| ReedSolomon.CodewordDivisible | firmware/esphome/components/openathan_display/qrcodegen.cpp:381-395 | Data followed by its remainder is a multiple of the generator, for all data and degrees. |
| ReedSolomon.SyndromesZero | firmware/esphome/components/openathan_display/qrcodegen.cpp:381-395 | Data followed by its remainder vanishes at each 2^i below the degree. |
| QrBits.AppendBits | firmware/esphome/components/openathan_display/qrcodegen.cpp:185-189 | The bit loop puts exactly the low bits of the value, high bit first, over the next bits of any buffer, whose set bits stay set; where those bits are clear it appends the value; no other bit changes. |
| QrBits.Appended | firmware/esphome/components/openathan_display/qrcodegen.cpp:185-189 | Over bits that are clear, what is put in is appended. |
| QrBits.FromToBits | firmware/esphome/components/openathan_display/qrcodegen.cpp:183-189 | A value read back from the bits appended for it is the value. |
| ReedSolomon.Encode | firmware/esphome/components/openathan_display/qrcodegen.cpp:358-395 | The two in-place routines one after the other: the data is followed by the remainder of its division by the generator they computed. |
| QrSegments.MakeNumeric | firmware/esphome/components/openathan_display/qrcodegen.cpp:891-922 | The packing loop leaves exactly the packed digits in the buffer, clears the rest of the last byte, and reports that length. |
| QrSegments.MakeAlphanumeric | firmware/esphome/components/openathan_display/qrcodegen.cpp:925-956 | The same for the alphanumeric set. |
| QrSegments.PackedLength | firmware/esphome/components/openathan_display/qrcodegen.cpp:853-857 | Packing n characters takes exactly the number of bits that the length calculation counts, for any n. |
| QrSegments.LengthExact | firmware/esphome/components/openathan_display/qrcodegen.cpp:849-872 | The length calculation gives the packed length, or -1 exactly when that exceeds 32767. |
| QrSegments.UnpackedPacked | firmware/esphome/components/openathan_display/qrcodegen.cpp:905-918 | Unpacking the groups of packed characters gives the characters back, for any length. |
| QrSegments.TextReadsBack | firmware/esphome/components/openathan_display/qrcodegen.cpp:891-956 | Every numeric or alphanumeric text reads back from its bits. |
| QrSegments.TableExactly | firmware/esphome/components/openathan_display/qrcodegen.cpp:939-946 | The characters that can be packed and their values are those of table 5 of the standard. |
| QrSegments.DigitGroups | firmware/esphome/components/openathan_display/qrcodegen.cpp:905-918 | Three digits take ten bits, a rest of two seven, a rest of one four, with their decimal value. |
| QrSegments.LetterGroups | firmware/esphome/components/openathan_display/qrcodegen.cpp:939-952 | Two characters take eleven bits with 45 times the first plus the second, a rest of one six. |
| QrSegments.LetterIndex | firmware/esphome/components/openathan_display/qrcodegen.cpp:942-944 | The search finds the value of a character in the alphanumeric set. |
| SerialFrames.SerialParser.Feed | firmware/esphome/components/openathan_device/protocol.cpp:6-29 | One byte at one time: the gap rule, the header search, the version and length bytes, and the checksum, with the frame handed back when it is whole. |
| SerialFrames.SerialParser.Resync | firmware/esphome/components/openathan_device/protocol.cpp:11-16 | Bytes are dropped from the front until the rest begins a header. |
| SerialFrames.Checksum | firmware/esphome/components/openathan_device/protocol.cpp:22-23 | The wrapping 8-bit sum. |
| SerialFrames.WriteFrame | firmware/esphome/components/openathan_device/protocol.cpp:30-42 | A frame is written with header, length, checksum and newline, or not at all when it is too long. |
| SerialFrames.TailLongest | firmware/esphome/components/openathan_device/protocol.cpp:12-15 | What the header search keeps is the longest tail that begins a header. |
| SerialFrames.SeekingHolds | firmware/esphome/components/openathan_device/protocol.cpp:11-17 | Until a header is complete, the buffer is the longest tail of everything heard that begins one. |
| SerialFrames.StreamHeard | firmware/esphome/components/openathan_device/protocol.cpp:6-42 | Any sequence of frames, each after any noise in which no header is complete, is heard in order and once each. |
| SerialFrames.HeardWasSent | firmware/esphome/components/openathan_device/protocol.cpp:19-28 | The packet of every frame heard lies in the stream, whatever the stream. |
| SerialFrames.SteadyHears | firmware/esphome/components/openathan_device/protocol.cpp:7-8 | With bytes at most 1000 ms apart the times play no part. |
| SerialFrames.GapForgets | firmware/esphome/components/openathan_device/protocol.cpp:7-8 | After a gap of more than 1000 ms, or a clock that ran back, the rest of the stream is heard as from the start. |
| SerialFrames.PacketLayout | firmware/esphome/components/openathan_device/protocol.cpp:30-42 | How a frame is laid out, to the byte. |
| SerialFrames.DamagedUnheard | firmware/esphome/components/openathan_device/protocol.cpp:19-28 | A frame with one damaged byte of its kind, data or checksum is not handed back. |
| SerialFrames.Receive | firmware/esphome/components/openathan_device/protocol.cpp:6-29 | The parser object on a whole timed stream gives exactly what the stream function says. |
| SerialCommands.WriteRpc | firmware/esphome/components/openathan_device/protocol.cpp:43-52 | The command body with counted fields, or nothing when a field or the whole is too long. |
| SerialCommands.ParseRpc | firmware/esphome/components/openathan_device/protocol.cpp:53-65 | The field loop accepts exactly the bodies made of whole fields without zero bytes, and returns those fields. |
| SerialCommands.RpcLayout | firmware/esphome/components/openathan_device/protocol.cpp:43-52 | A command is its byte, the length of the rest, and each field behind its own length; fields of at most 251 bytes and 253 in all are sendable. |
| SerialCommands.ParseWritten | firmware/esphome/components/openathan_device/protocol.cpp:43-65 | Reading undoes writing for zero-free fields that fit. |
| SerialCommands.WriteParsed | firmware/esphome/components/openathan_device/protocol.cpp:43-65 | A body that reads well is one the writer writes if and only if it is at most 255 bytes with fields of at most 251. |
| SerialCommands.HostEncode | tools/provision_device.py:13-26 | The host tool sends exactly the device's own frame of the command, or raises exactly when the device would not write it or a field holds a zero byte. |
| SerialCommands.CommandsArrive | tools/provision_device.py:13-65 | Commands sent back to back arrive in order as frames that read as the commands sent. |
| QuranObjects.QuranObjectStream.Feed | firmware/esphome/components/openathan_audio/quran_policy.h:30-62 | One character takes the splitter's fields from phase to phase as stated, hands back a completed object, and fails past the byte limit. |
| QuranObjects.QuranObjectStream.FeedInside | firmware/esphome/components/openathan_audio/quran_policy.h:38-48 | Inside an object: strings, escapes, nesting and the item limit. |
| QuranObjects.QuranObjectStream.Complete | firmware/esphome/components/openathan_audio/quran_policy.h:63 | Complete means finished and not failed. |
| QuranGrammar.Decides | firmware/esphome/components/openathan_audio/quran_policy.h:27-71 | The splitter finishes on a text if and only if the text is a keyed array of well-formed objects within the item limit, with white space only where it is allowed. |
| QuranGrammar.RunDocument | firmware/esphome/components/openathan_audio/quran_policy.h:27-71 | On every well-formed text the splitter hands back exactly its objects, in order. |
| QuranGrammar.SameObjects | firmware/esphome/components/openathan_audio/quran_policy.h:38-47 | Two readings of one text agree on its objects. |
| QuranGrammar.Objects | firmware/esphome/components/openathan_device/quran.cpp:18-40 | The reply loop is complete exactly on well-formed texts of at most 1048576 bytes, and then gives their objects in order. |
| ReplayWindow.PassesExactly | firmware/esphome/components/openathan_device/digest.cpp:94-97 | The bit test passes exactly for a count above the highest accepted one, or unused and less than 32 below it. |
| ReplayWindow.AdvanceRefines | firmware/esphome/components/openathan_device/digest.cpp:104-111 | Shifting or marking the 32-bit word keeps it in step with the set of accepted counts. |
| DigestHeader.ParseHeader | firmware/esphome/components/openathan_device/digest.cpp:33-72 | The cursor over the header: prefix, blanks, keys, quoted values with escapes, plain values, commas, and the refusal of a key given twice. |
| DigestHeader.ParsesExactly | firmware/esphome/components/openathan_device/digest.cpp:33-72 | A header is accepted if and only if it spells the scheme and fields of the stated grammar with distinct keys, and then exactly those fields are read. |
| DigestAuth.DigestAuth.Challenge | firmware/esphome/components/openathan_device/digest.cpp:74-80 | A challenge is given for 48 hexadecimal digits only, and the oldest of eight nonces makes room. |
| DigestAuth.DigestAuth.Authorize | firmware/esphome/components/openathan_device/digest.cpp:81-114 | The header read, then the order of the checks: fields, nonce, count, replay, response, age; only an accepted request advances its window. |
| DigestAuth.ParseCount | firmware/esphome/components/openathan_device/digest.cpp:91-92 | The eight hexadecimal digits are read as a 32-bit count. |
| DigestAuth.AcceptsExactly | firmware/esphome/components/openathan_device/digest.cpp:88-113 | After any run from power-on in which no nonce is issued twice, a well-formed request for a nonce on hand is accepted if and only if its count is not zero, is none of those accepted for that nonce and less than 32 below the highest of them, its response is right and its nonce is younger than 300000 ms. |
| DigestAuth.NoReplay | firmware/esphome/components/openathan_device/digest.cpp:74-114 | Over a whole run in which no server nonce is issued twice, no nonce and count are accepted twice. |
| DigestClient.AcceptedExactly | firmware/esphome/components/openathan_device/digest.cpp:81-114 | After any run from power-on without a repeated nonce, a request is accepted if and only if its header spells fields that answer a nonce on hand as section 3.4 of RFC 7616 has it, with knowledge of the verifier, as a use not accepted before and with no count of 32 more accepted, less than five minutes after the nonce was given; it is stale if only the age is wrong. |
| DigestClient.OnHandExactly | firmware/esphome/components/openathan_device/digest.cpp:74-80 | The nonces on hand are the last eight given since the verifier was set, each with the time it was given. |
| UsbJournal.AnswersAreTrue | firmware/esphome/components/openathan_device/usb_upgrade.cpp:41-67 | The selection is reported as selected, unselected or rejected only when that is so, whatever readings fail. |
| UsbJournal.AnswersAreComplete | firmware/esphome/components/openathan_device/usb_upgrade.cpp:41-67 | With every reading in hand, a selected slot is reported exactly when its mark is usable, and otherwise the running slot exactly when it is known. |
| UsbJournal.AboveIsOrder | firmware/esphome/components/openathan_device/upgrade_policy.h:28-31 | Versions are compared part by part: a strict total order in which raising any part gives a version above, whatever follows. |
| UsbJournal.SelectedImage | firmware/esphome/components/openathan_device/usb_upgrade.cpp:134-157 | A selected slot holds the image whose length, digest and version the signed descriptor in the journal names, of a version above the running one. |
| UsbJournal.RestartKeepsSafe | firmware/esphome/components/openathan_device/upgrade.cpp:92-141 | No restart, with or without a rollback, leaves a selected slot that is not the journalled release. |
| UsbUpdate.Upgrade.Persist | firmware/esphome/components/openathan_device/upgrade.cpp:78-91 | A journal write: the new request, or the old one with storage declared failed. It is never called while the other slot is selected. |
| UsbUpdate.Upgrade.Abandon | firmware/esphome/components/openathan_device/usb_upgrade.cpp:68-76 | Giving a transfer up clears the journal durably, and never touches a slot that is selected. |
| UsbUpdate.Upgrade.BeginUpdate | firmware/esphome/components/openathan_device/usb_upgrade.cpp:82-98 | A transfer starts only when no other request exists and the device is safe. |
| UsbUpdate.Upgrade.DescriptorChunk | firmware/esphome/components/openathan_device/usb_upgrade.cpp:163-166 | Descriptor pieces are accepted exactly in order and within the announced size. |
| UsbUpdate.Upgrade.Verify | firmware/esphome/components/openathan_device/usb_upgrade.cpp:115-133 | The descriptor is verified and newer, the request is journalled before the slot is erased, and the transfer starts empty. |
| UsbUpdate.Upgrade.Accept | firmware/esphome/components/openathan_device/usb_upgrade.cpp:122-130 | Journal first, erase second; either failing leaves the slot unselected. |
| UsbUpdate.Upgrade.ImageChunk | firmware/esphome/components/openathan_device/usb_upgrade.cpp:167-178 | After an accepted piece the slot holds exactly the accepted pieces in order; a piece that fails ends the transfer. |
| UsbUpdate.Upgrade.WriteChunk | firmware/esphome/components/openathan_device/usb_upgrade.cpp:170-176 | The flash and the running digest grow by the same bytes. |
| UsbUpdate.Upgrade.Checked | firmware/esphome/components/openathan_device/usb_upgrade.cpp:134-147 | The image passes only when its length, digest and described version are the verified release's. |
| UsbUpdate.Upgrade.Finish | firmware/esphome/components/openathan_device/usb_upgrade.cpp:134-157 | The slot is newly selected only with the accepted image, after its handoff has been journalled. |
| UsbUpdate.Upgrade.HandOff | firmware/esphome/components/openathan_device/usb_upgrade.cpp:148-156 | The handoff is durable before the selection is attempted; an uncertain selection is reported as such. |
| UsbUpdate.Upgrade.Select | firmware/esphome/components/openathan_device/usb_upgrade.cpp:152-154 | Only a slot that holds the journalled release is ever selected. |
| UsbUpdate.Upgrade.AbortCommand | firmware/esphome/components/openathan_device/usb_upgrade.cpp:99-114 | An abort clears the journal only when the other slot is known to be unselected. |
| UsbUpdate.Upgrade.ExpireTransfer | firmware/esphome/components/openathan_device/upgrade.cpp:372-374 | A host silent for more than 40 seconds loses its transfer before selection. |
| UsbUpdate.Upgrade.Reconcile | firmware/esphome/components/openathan_device/upgrade.cpp:379-408 | The journal is cleared only for a release that runs, was overtaken or was rejected, and nothing durable changes while the other slot is selected. |
| UsbUpdate.Upgrade.SettledMeans | firmware/esphome/components/openathan_device/upgrade.cpp:379-408 | What each report after a restart says: success that the release runs, awaiting power that its slot is selected, the others that it is not, rolled back that it was rejected, superseded that it is not newer. |
| UsbUpdate.Upgrade.TakeBack | firmware/esphome/components/openathan_device/upgrade.cpp:402-405 | The mark of a handoff that did not happen is taken back, keeping the request. |
| UsbUpdate.Upgrade.Load | firmware/esphome/components/openathan_device/upgrade.cpp:118-140 | A journal that does not make sense stops all updates; any other is known to the session. |
| UsbUpdate.Upgrade.Restart | firmware/esphome/components/openathan_device/upgrade.cpp:92-141 | The power fails at any entry of the history; the new session knows the journal or does nothing. |
| UsbJournal.RequestLeaves | firmware/esphome/components/openathan_device/upgrade.cpp:372-408 | In any history of durable effects and restarts a request leaves the journal only while the running slot is selected, and only before its handoff or once its release runs, was overtaken or was rejected; a slot is newly selected only after its handoff, and nothing durable changes until the restart after that. |
| UsbJournal.RequestComes | firmware/esphome/components/openathan_device/usb_upgrade.cpp:115-133 | Every request in the journal was, earlier in the life of the device, accepted as a verified release of a version above what ran then, with no other request standing. |
| UsbUpdate.Live | firmware/esphome/components/openathan_device/usb_upgrade.cpp:68-180 | Over a whole life, at every moment the power might fail, a selected slot holds the journalled, verified, newer release, and every entry of the history is one permitted step from the entry before it or one of the restarts asked for. |
| DuaBank.WholeIsBelieved | lib/openathan-core/include/openathan/dua_media.h:27-39 | A bank with a whole header, its marker and a payload of the right digest is believed, with those fields. |
| DuaBank.ImageIsBelieved | tools/dua_media.py:74-83 | Every bank the host tool lays out with a verified envelope is believed by the device. |
| DuaBank.ReadBankExactly | tools/dua_media.py:74-99 | The host tool reads a recording from a bank if and only if the bank is that recording's own layout. |
| DuaBank.HostIsStricter | tools/dua_media.py:86-99 | Whatever the host tool reads, the device believes, with the same recording. |
| DuaBank.BelievedExactly | lib/openathan-core/include/openathan/dua_media.h:27-39 | The device believes a bank, and these contents of it, if and only if they lie in it to the byte: magic, numbers, the digest of the payload, the envelope that vouches for it, the digest of the header, the marker. |
| DuaInstall.MarkCommits | firmware/esphome/components/openathan_device/dua.cpp:262-265 | Whatever a write of the marker leaves, the bank is believed if and only if the marker is complete. |
| DuaInstall.DuaMedia.Loop | firmware/esphome/components/openathan_device/dua.cpp:123-169 | One turn of the loop: a download starts exactly when the media are in order, nothing is installed, the preference, the network, the activity gate, the player and the build allow it, no failure is latched, the retry time is past, the journal is saved and the worker starts. |
| DuaInstall.DuaMedia.Start | firmware/esphome/components/openathan_device/dua.cpp:159-164 | The bank to be changed is journalled before any of it is, the same bank as before, and never while a bank is installed. |
| DuaInstall.DuaMedia.TakeUp | firmware/esphome/components/openathan_device/dua.cpp:131-136 | After a success the banks are looked at again, and one that cannot be found is latched as a failure. |
| DuaInstall.DuaMedia.Retry | firmware/esphome/components/openathan_device/dua.cpp:117-122 | Asking again clears the latch, and is refused without storage or while the preference is off. |
| DuaInstall.DuaMedia.EraseBank | firmware/esphome/components/openathan_device/dua.cpp:217-221 | The marker goes with the first sector, and a completed erase leaves nothing else. |
| DuaInstall.DuaMedia.WritePayload | firmware/esphome/components/openathan_device/dua.cpp:226-241 | The pieces are written one behind the other within the signed size. |
| DuaInstall.DuaMedia.CheckPayload | firmware/esphome/components/openathan_device/dua.cpp:243-252 | The digest compared is that of what is read back. |
| DuaInstall.BuildHeader | firmware/esphome/components/openathan_device/dua.cpp:253-256 | The header built in memory is the host tool's, field by field. |
| DuaInstall.DuaMedia.WriteHeader | firmware/esphome/components/openathan_device/dua.cpp:258-261 | The header is written without its marker and compared after reading back; the payload is untouched. |
| DuaInstall.DuaMedia.WriteMark | firmware/esphome/components/openathan_device/dua.cpp:262-265 | The marker is the last write, into a bank that would be believed with it. |
| DuaInstall.DuaMedia.Run | firmware/esphome/components/openathan_device/dua.cpp:209-266 | Erase, write, read back, describe, mark: only the journalled bank changes, and on a perfect medium it ends as the host tool's own layout of the recording. |
| DuaInstall.DuaMedia.Scan | firmware/esphome/components/openathan_device/dua.cpp:79-90 | The installed bank is the believed one of the highest generation, and foreign data is refused. |
| DuaInstall.DuaMedia.Restart | firmware/esphome/components/openathan_device/dua.cpp:91-111 | The power fails at any entry of the history and the device starts again from it. |
| DuaInstall.Live | firmware/esphome/components/openathan_device/dua.cpp:123-266 | Over a whole life, at every moment the power might fail, each bank is as it left the factory, or is the journalled one and is believed if it carries the marker. |
| DuaSequence.DuaSequence.Start | lib/openathan-core/src/dua.cpp:55-63 | An Athan start: what is cancelled, what is asked of the backend, and when a follow-up is armed. |
| DuaSequence.DuaSequence.TickAt | lib/openathan-core/src/dua.cpp:64-89 | One tick, with every answer of the backend. |
| DuaSequence.DuaSequence.SetEnabled | lib/openathan-core/src/dua.cpp:43-46 | Disabling cancels a follow-up. |
| DuaSequence.DuaSequence.CancelDua | lib/openathan-core/src/dua.cpp:47-50 | A playing dua is stopped; any pending follow-up is forgotten. |
| DuaSequence.DuaSequence.StopAll | lib/openathan-core/src/dua.cpp:51-54 | Everything is stopped. |
| DuaSequence.DuaExactly | lib/openathan-core/src/dua.cpp:55-89 | In every trace the dua is asked for at an event if and only if it is the first tick at least 2000 ms after the tick that saw an armed Athan completed, with nothing disturbing and no other end seen in between, and the backend has a volume, is ready and has the dua. All of this is read off the events. |
| DuaSequence.DuaFollows | lib/openathan-core/src/dua.cpp:64-89 | Every request for the dua has its arming Athan and its completion in that sense. |
| DuaSequence.DuaSoon | lib/openathan-core/src/dua.cpp:64-82 | It comes less than 5000 ms after the completion. |
| DuaSequence.DuaHaltsExactly | lib/openathan-core/src/dua.cpp:47-76 | A dua that plays is stopped by exactly the events that disturb it. |
| DuaSequence.AthanAsked | lib/openathan-core/src/dua.cpp:55-58 | An Athan is passed on exactly when a backend is attached, and no other track is. |
| DuaSequence.OncePerAthan | lib/openathan-core/src/dua.cpp:55-89 | Between two requests for the dua lies the arming Athan of the second. |
| SpeakerName.Normalize | lib/openathan-core/src/speaker_name.cpp:25-51 | The trimming and byte loops accept an input if and only if its trimmed bytes are the UTF-8 of at most 32 scalar values without control characters. |
| SpeakerName.AcceptedExactly | lib/openathan-core/src/speaker_name.cpp:28-48 | The byte checks are exactly that definition, for all byte strings. |
| SpeakerName.PointsOfUtf8 | lib/openathan-core/src/speaker_name.cpp:30-47 | Code points read back from their octets. |
| SpeakerName.Utf8OfPoints | lib/openathan-core/src/speaker_name.cpp:30-47 | What is read is the octets of what it is read as: overlong, surrogate and truncated forms are refused. |
| SpeakerName.NormalizedAgain | lib/openathan-core/src/speaker_name.cpp:26-27 | Trimming what has been trimmed changes nothing. |
| SpeakerRecord.EncodeName | lib/openathan-core/src/speaker_name.cpp:52-61 | The record written in place, or an empty one for a name that is too long. |
| SpeakerRecord.DecodeName | lib/openathan-core/src/speaker_name.cpp:62-70 | The checks of the reader. |
| SpeakerRecord.NameSurvives | lib/openathan-core/src/speaker_name.cpp:52-70 | Every accepted name with a nonzero revision survives its record. |
| SpeakerRecord.DecodedIsName | lib/openathan-core/src/speaker_name.cpp:62-70 | An accepted record holds a trimmed, well-formed name and is the only record of it. |
| SpeakerRecord.DamagedByteRejected | lib/openathan-core/src/speaker_name.cpp:62-63 | Changing any one byte of an accepted record makes decoding fail. |
| RecordFields.PutFields | lib/openathan-core/src/settings.cpp:40-64 | Fields written through a cursor, little end first, lie one behind the other. |
| RecordFields.GetFields | lib/openathan-core/src/settings.cpp:67-93 | Fields read through a cursor. |
| RecordFields.LayTake | lib/openathan-core/src/settings.cpp:40-93 | Any bytes are what is laid for the fields taken from them. |
| RecordFields.TakeLay | lib/openathan-core/src/settings.cpp:40-93 | Fields that fit their widths read back, for any widths. |
| RecordFields.DamageBreaksSeal | lib/openathan-core/src/settings.cpp:32-39 | Changing any one byte of a record closed by its CRC breaks it. |
| SettingsRecord.EncodeSettings | lib/openathan-core/src/settings.cpp:40-66 | The settings record, field by field, with its CRC. |
| SettingsRecord.DecodeSettings | lib/openathan-core/src/settings.cpp:67-97 | The checks of the reader, in order. |
| SettingsRecord.FieldsBack | lib/openathan-core/src/settings.cpp:76-93 | Valid settings are what their fields stand for: signed offsets, flag bits, the padded name, the rules. |
| SettingsRecord.DecodeEncode | lib/openathan-core/src/settings.cpp:40-97 | All valid settings with a nonzero revision survive their record. |
| SettingsRecord.AcceptedExactly | lib/openathan-core/src/settings.cpp:67-97 | The comparison with a fresh encoding adds exactly one thing to the checks before it: every byte behind the name and behind the fields is zero. |
| SettingsRecord.DamagedByteRejected | lib/openathan-core/src/settings.cpp:67-97 | Changing any one byte of an accepted record makes decoding fail. |

## Left out

- Prayer astronomy: the calculator is an arbitrary deterministic function from settings and date to six optional instants, which may also refuse.
- Civil dates: a date is its serial number, and the supported range is an interval of serials; the calendar conversion is not modelled.
- Coordinates: the scheduler's are real numbers, so not-a-number and infinite values, which the source refuses, do not arise; in the settings record they are 64-bit patterns with a predicate for the ones accepted.
- Instants are unbounded integers: overflow of the 64-bit differences in the continuity test is not modelled.
- Equal instants after sorting: the order the sort leaves them in is any order.
- SchedulerCore.Scheduler.Tick: the clock sample, the save and the player's answers are parameters; status text, previews and schedule validation for the settings page are not modelled.
- The settings services (revisions and conflicts on update) and the smaller preference records: easy members of the same shape.
- Light modes, brightness curves and proximity: bounded arithmetic without state.
- SplicingSource.RingBufferAudioSource.Fill: the ring buffer and its blocking are a parameter, the chunk it hands out or none.
- QR versions, masks, penalties and drawing, and the byte, Kanji and ECI segment makers: finite or easy.
- QrSegments.MakeNumeric and QrSegments.MakeAlphanumeric share one helper for taking a character in; the source repeats it.
- SerialFrames: the host's decoder is the same machine with a one-second gap and is not modelled twice; its UTF-8 decoding of replies is not modelled.
- Wi-Fi and device password rules: single predicates.
- QuranGrammar.Objects: the JSON library behind each object, a consumer that refuses one, cancellation and the deadline are not modelled, nor are the HTTP reader and the address policy.
- DigestAuth.DigestAuth.Authorize: the digest is a parameter, and the constant-time comparison is equality.
- UsbUpdate: updates over Wi-Fi, the health checks and the safe window are not modelled beyond their outcome; journal and boot selection are written whole or not at all; digests, signatures, image headers and version texts are functions given as parameters; the JSON form of the journal is not modelled.
- UsbUpdate.Upgrade.Load: the JSON text of the journal, its schema and its size check are not modelled; it is whole or absent.
- UsbUpdate.Upgrade.Reconcile: requests over Wi-Fi, which share the journal and the loop, are not modelled.
- UsbUpdate.Upgrade.Restart: the power may fail at any entry of the whole history, also an old one, which is more than can happen.
- DuaInstall.DuaMedia.Run: downloads, signatures, the JSON descriptor and whether a failure counts as transient are parameters; sector erases are atomic; the partition's base catalog is not modelled; the limit on reads in time is whether the worker may go on.
- SettingsRecord: the lock-step of the cursor and the record is a list of fields with widths; timezone text is a sequence of codes.
- DuaSequence: the durable preference of the dua and the stream functions of the facade are not modelled.
- Networking, tasks, displays, web pages and board drivers.
