/**
 What survives a power cut during a USB firmware update: the request journal, the two
 application slots and the boot selection. The running slot is `mine`, the inactive one
 `other`; `selected` says that the next boot takes `other`.
 */
module UsbJournal {
  import opened Words
  import opened Wrappers

  datatype Mark = Absent | Fresh | Pending | Valid | Invalid | Aborted

  datatype Slot = Slot(image: seq<byte>, mark: Mark)

  /** `queue` is the signed envelope of the requested release; `expected` its version once the handoff has begun. */
  datatype Journal = Journal(queue: string, expected: string, usb: bool)

  const NO_REQUEST := Journal("", "", false)

  datatype Durable = Durable(journal: Journal, mine: Slot, other: Slot, selected: bool)

  datatype Release = Release(version: string, sha256: string, envelope: string, bytes: nat)

  datatype Version = Version(major: nat, minor: nat, patch: nat)

  /** Foreign functions: descriptor verification, the digest, the image header and version parsing. */
  datatype Laws = Laws(
    descriptor: string -> Option<Release>,
    sha: seq<byte> -> string,
    describe: seq<byte> -> Option<string>,
    rank: string -> Option<Version>)

  /** The release a signed envelope describes; it keeps its envelope. */
  function Vetted(laws: Laws, envelope: string): Option<Release> {
    if envelope == "" || laws.descriptor(envelope).None? then None
    else Some(laws.descriptor(envelope).value.(envelope := envelope))
  }

  predicate Above(a: Version, b: Version) {
    a.major > b.major || (a.major == b.major && (a.minor > b.minor || (a.minor == b.minor && a.patch > b.patch)))
  }

  /** The parts of a version from the most to the least significant. */
  function Part(v: Version, i: nat): nat { if i == 0 then v.major else if i == 1 then v.minor else v.patch }

  /** The first part in which the two differ is the greater in a. */
  ghost predicate Exceeds(a: Version, b: Version) {
    exists i: nat :: i < 3 && Part(a, i) > Part(b, i) && forall j: nat :: j < i ==> Part(a, j) == Part(b, j)
  }

  /** Versions are ordered part by part; the order is strict and total, and raising any part gives a version above whatever follows it. */
  lemma AboveIsOrder(a: Version, b: Version, c: Version, minor: nat, patch: nat)
    ensures Above(a, b) <==> Exceeds(a, b)
    ensures !Above(a, a) && (a == b || Above(a, b) || Above(b, a)) && (Above(a, b) && Above(b, c) ==> Above(a, c))
    ensures Above(Version(a.major + 1, minor, patch), a)
    ensures Above(Version(a.major, a.minor + 1, patch), a)
    ensures Above(Version(a.major, a.minor, a.patch + 1), a)
  {
    if Above(a, b) {
      var i := if a.major > b.major then 0 else if a.minor > b.minor then 1 else 2;
      assert Part(a, i) > Part(b, i) && forall j: nat :: j < i ==> Part(a, j) == Part(b, j);
    }
    if i: nat :| i < 3 && Part(a, i) > Part(b, i) && forall j: nat :: j < i ==> Part(a, j) == Part(b, j) {
      assert i > 0 ==> Part(a, 0) == Part(b, 0);
      assert i > 1 ==> Part(a, 1) == Part(b, 1);
    }
  }

  predicate Newer(laws: Laws, candidate: string, current: string) {
    laws.rank(candidate).Some? && laws.rank(current).Some? && Above(laws.rank(candidate).value, laws.rank(current).value)
  }

  /** The inactive slot holds exactly the image the release describes. */
  predicate Matches(laws: Laws, r: Release, image: seq<byte>) {
    |image| == r.bytes && laws.sha(image) == r.sha256 && laws.describe(image) == Some(r.version)
  }

  /** The journal names a verified release, handed off, newer than what runs, and the inactive slot holds it. */
  ghost predicate HandedOff(laws: Laws, d: Durable) {
    && d.journal.usb && Vetted(laws, d.journal.queue).Some?
    && var r := Vetted(laws, d.journal.queue).value;
       && d.journal.expected == r.version && Matches(laws, r, d.other.image)
       && forall v :: laws.describe(d.mine.image) == Some(v) ==> Newer(laws, r.version, v)
  }

  /** Journals that USB updates write. */
  ghost predicate JournalForm(laws: Laws, j: Journal) {
    if j.queue == "" then j.expected == ""
    else j.usb && Vetted(laws, j.queue).Some? && (j.expected == "" || j.expected == Vetted(laws, j.queue).value.version)
  }

  /** What must hold at every moment the power may fail. */
  ghost predicate Safe(laws: Laws, d: Durable) {
    JournalForm(laws, d.journal) && (d.selected ==> HandedOff(laws, d))
  }

  /**
   What a selected slot holds, from the journal alone: the image whose length, digest and
   version the signed descriptor names, of a version above the one that runs.
   */
  lemma SelectedImage(laws: Laws, d: Durable, running: string)
    requires Safe(laws, d) && d.selected && laws.describe(d.mine.image) == Some(running)
    ensures d.journal.queue != "" && laws.descriptor(d.journal.queue).Some?
    ensures var r := laws.descriptor(d.journal.queue).value;
      && |d.other.image| == r.bytes && laws.sha(d.other.image) == r.sha256 && laws.describe(d.other.image) == Some(r.version)
      && d.journal.expected == r.version && d.journal.usb
      && laws.rank(r.version).Some? && laws.rank(running).Some? && Exceeds(laws.rank(r.version).value, laws.rank(running).value)
  {
    var r := laws.descriptor(d.journal.queue).value;
    AboveIsOrder(laws.rank(r.version).value, laws.rank(running).value, laws.rank(running).value, 0, 0);
  }

  // ---------- restarts ----------

  predicate SameImages(a: Slot, b: Slot) { a.image == b.image }

  /**
   A restart keeps the journal and both images. The other slot may start, the same slot may
   start with or without its selection, marks may change; nothing newly selects a slot.
   */
  predicate Restarts(d: Durable, e: Durable) {
    && e.journal == d.journal
    && (|| (SameImages(e.mine, d.mine) && SameImages(e.other, d.other) && (e.selected ==> d.selected))
        || (SameImages(e.mine, d.other) && SameImages(e.other, d.mine) && !e.selected))
  }

  lemma RestartKeepsSafe(laws: Laws, d: Durable, e: Durable)
    requires Safe(laws, d) && Restarts(d, e)
    ensures Safe(laws, e)
  {
  }

  // ---------- steps ----------

  /** The newer verified release is asked for, while nothing else is. */
  ghost predicate Requested(laws: Laws, c: Durable, d: Durable) {
    && c.journal.queue == "" && Vetted(laws, d.journal.queue).Some? && laws.describe(c.mine.image).Some?
    && Newer(laws, Vetted(laws, d.journal.queue).value.version, laws.describe(c.mine.image).value)
    && d == c.(journal := Journal(d.journal.queue, "", true))
  }

  /** The inactive slot is erased or written, for a request whose handoff has not begun. */
  ghost predicate Burnt(c: Durable, d: Durable) {
    c.journal.queue != "" && c.journal.expected == "" && d == c.(other := Slot(d.other.image, Absent))
  }

  /** The handoff begins: the inactive slot holds the release. */
  ghost predicate HandedOver(laws: Laws, c: Durable, d: Durable) {
    HandedOff(laws, d) && d == c.(journal := c.journal.(expected := d.journal.expected))
  }

  /** The slot is selected, the handoff having been journalled. */
  ghost predicate Chosen(laws: Laws, c: Durable, d: Durable) {
    HandedOff(laws, c) && d == c.(selected := true, other := Slot(c.other.image, Fresh))
  }

  ghost predicate TakenBack(c: Durable, d: Durable) {
    c.journal.queue != "" && d == c.(journal := Journal(c.journal.queue, "", true))
  }

  /** The release asked for runs, or is not newer than what runs, or is in a slot that was rejected. */
  ghost predicate Closed(laws: Laws, d: Durable) {
    && Vetted(laws, d.journal.queue).Some?
    && var r := Vetted(laws, d.journal.queue).value;
       || laws.describe(d.mine.image) == Some(r.version)
       || (laws.describe(d.mine.image).Some? && !Newer(laws, r.version, laws.describe(d.mine.image).value))
       || (d.other.mark in {Invalid, Aborted} && laws.describe(d.other.image) == Some(r.version))
  }

  /** The request is dropped: before its handoff has begun, or settled. */
  ghost predicate Cleared(laws: Laws, c: Durable, d: Durable) {
    (c.journal.expected == "" || Closed(laws, c)) && d == c.(journal := NO_REQUEST)
  }

  /** One durable effect. Nothing is written while the other slot is selected. */
  ghost predicate Step(laws: Laws, c: Durable, d: Durable) {
    && !c.selected
    && (|| Requested(laws, c, d) || Burnt(c, d) || HandedOver(laws, c, d) || Chosen(laws, c, d)
        || TakenBack(c, d) || Cleared(laws, c, d))
  }

  lemma StepKeepsSafe(laws: Laws, c: Durable, d: Durable)
    requires Safe(laws, c) && Step(laws, c, d)
    ensures Safe(laws, d) && d.mine == c.mine
  {
  }

  // ---------- histories ----------

  /** A moment at which the power may fail: `origin` names the entry a restart came from, None a durable effect. */
  datatype Moment = Moment(flash: Durable, origin: Option<nat>)

  /** The entry that came before entry i in the life of the device. */
  function Before(history: seq<Moment>, i: nat): nat
    requires 0 < i < |history|
  {
    if history[i].origin.None? then i - 1 else history[i].origin.value
  }

  ghost predicate Follows(laws: Laws, history: seq<Moment>, i: nat)
    requires 0 < i < |history|
  {
    && Before(history, i) < i
    && var c, d := history[Before(history, i)].flash, history[i].flash;
       if history[i].origin.None? then Step(laws, c, d) else Restarts(c, d)
  }

  /** Every entry is a restart from an earlier one or one step from the entry before it. */
  ghost predicate Traced(laws: Laws, history: seq<Moment>) {
    forall i :: 0 < i < |history| ==> Follows(laws, history, i)
  }

  /** The restarts among the moments. */
  ghost function Boots(history: seq<Moment>): seq<Moment> {
    if history == [] then []
    else
      var m := history[|history| - 1];
      Boots(history[..|history| - 1]) + if m.origin.Some? then [m] else []
  }

  lemma BootsSnoc(history: seq<Moment>, m: Moment)
    ensures Boots(history + [m]) == Boots(history) + if m.origin.Some? then [m] else []
  {
    assert (history + [m])[..|history|] == history;
  }

  lemma {:induction false} BootsHold(history: seq<Moment>, i: nat)
    requires i < |history| && history[i].origin.Some?
    ensures history[i] in Boots(history)
  {
    if i < |history| - 1 {
      BootsHold(history[..|history| - 1], i);
    }
  }

  /** The later history adds durable effects to the earlier one, and no restart. */
  ghost predicate Extends(later: seq<Moment>, earlier: seq<Moment>) {
    earlier <= later && Boots(later) == Boots(earlier)
  }

  lemma TracedSnoc(laws: Laws, history: seq<Moment>, m: Moment)
    requires history != [] && Traced(laws, history)
    requires Follows(laws, history + [m], |history|)
    ensures Traced(laws, history + [m])
  {
    var longer := history + [m];
    forall i | 0 < i < |longer| ensures Follows(laws, longer, i) {
      if i < |history| {
        assert Follows(laws, history, i);
        assert longer[i] == history[i] && longer[Before(history, i)] == history[Before(history, i)];
      }
    }
  }

  /**
   A request goes from the journal only while the running slot is the one selected, and only
   before its handoff has begun or once its release runs, is overtaken or was rejected; it is
   never exchanged for another. A handoff, once journalled, keeps the image it hands over, and
   nothing durable changes while the other slot is selected, until the next restart.
   */
  lemma RequestLeaves(laws: Laws, history: seq<Moment>, i: nat)
    requires Traced(laws, history) && 0 < i < |history|
    ensures Before(history, i) < i
    ensures var c, d := history[Before(history, i)].flash, history[i].flash;
      && (c.journal.queue != "" && d.journal.queue != c.journal.queue ==>
            !c.selected && d == c.(journal := NO_REQUEST) && (c.journal.expected == "" || Closed(laws, c)))
      && (d.selected && !c.selected ==> HandedOff(laws, c) && d.journal == c.journal && SameImages(c.mine, d.mine) && SameImages(c.other, d.other))
      && (c.journal.expected != "" && history[i].origin.None? ==> SameImages(c.other, d.other))
      && (c.selected ==> history[i].origin.Some? && d.journal == c.journal)
  {
    assert Follows(laws, history, i);
  }

  /** Entry k stands in the past of entry i. */
  ghost predicate Past(history: seq<Moment>, k: nat, i: nat)
    requires k < |history| && i < |history|
    decreases i
  {
    k == i || (0 < i && Before(history, i) < i && Past(history, k, Before(history, i)))
  }

  /** Every request in the journal was once accepted as a verified release newer than what then ran, and has stood ever since. */
  lemma {:induction false} RequestComes(laws: Laws, history: seq<Moment>, i: nat) returns (k: nat)
    requires Traced(laws, history) && i < |history|
    requires history[0].flash.journal.queue == "" && history[i].flash.journal.queue != ""
    ensures 0 < k <= i && Past(history, k, i) && history[k].flash.journal.queue == history[i].flash.journal.queue
    ensures history[k].origin.None? && Requested(laws, history[k - 1].flash, history[k].flash)
    ensures var r, running := Vetted(laws, history[i].flash.journal.queue).value, laws.describe(history[k - 1].flash.mine.image).value;
      laws.rank(r.version).Some? && laws.rank(running).Some? && Exceeds(laws.rank(r.version).value, laws.rank(running).value)
    decreases i
  {
    assert Follows(laws, history, i);
    if history[Before(history, i)].flash.journal.queue == "" {
      k := i;
      var r, running := Vetted(laws, history[i].flash.journal.queue).value, laws.describe(history[k - 1].flash.mine.image).value;
      AboveIsOrder(laws.rank(r.version).value, laws.rank(running).value, laws.rank(running).value, 0, 0);
    } else {
      k := RequestComes(laws, history, Before(history, i));
    }
  }

  // ---------- reading the selection back ----------

  /** Which of the platform's answers arrive. */
  datatype Reading = Reading(partitions: bool, described: bool, stateError: bool, boot: bool)

  datatype Selection = Unknown | Selected | Unselected | Rejected

  function ReadSelection(laws: Laws, d: Durable, queued: Option<Release>, expected: string, at: Reading): Selection {
    if !at.partitions || queued.None? then Unknown
    else
      var identified := at.described && laws.describe(d.other.image) == Some(queued.value.version);
      var stateKnown := identified && !at.stateError && !d.other.mark.Absent?;
      var bad := d.other.mark.Invalid? || d.other.mark.Aborted?;
      if !at.boot then Unknown
      else if d.selected then (if !identified || !stateKnown || bad then Unknown else Selected)
      else if (expected != "" && !identified) || (identified && at.stateError) then Unknown
      else if expected != "" && identified && stateKnown && bad then Rejected
      else Unselected
  }

  /** An answer is given only when it is so, whatever readings fail. */
  lemma AnswersAreTrue(laws: Laws, d: Durable, queued: Option<Release>, expected: string, at: Reading)
    ensures var s := ReadSelection(laws, d, queued, expected, at);
      && (s.Selected? ==> d.selected && queued.Some? && laws.describe(d.other.image) == Some(queued.value.version))
      && (s.Unselected? || s.Rejected? ==> !d.selected)
      && (s.Rejected? ==> (d.other.mark.Invalid? || d.other.mark.Aborted?) && laws.describe(d.other.image) == Some(queued.value.version))
  {
  }

  /** With every reading in hand the answer is exact. */
  lemma AnswersAreComplete(laws: Laws, d: Durable, r: Release, expected: string)
    requires Safe(laws, d) && Vetted(laws, d.journal.queue) == Some(r) && expected == d.journal.expected
    ensures var s := ReadSelection(laws, d, Some(r), expected, Reading(true, true, false, true));
      && (d.selected && d.other.mark in {Fresh, Pending, Valid} <==> s.Selected?)
      && (!d.selected && (expected == "" || laws.describe(d.other.image) == Some(r.version)) <==> s.Unselected? || s.Rejected?)
  {
  }
}
