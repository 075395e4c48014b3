/** Frames on the serial line: how they are written, and the parser that finds them in a stream. */
module SerialFrames {
  import opened Sequences
  import opened Wrappers
  import opened Words

  const IMPROV: seq<byte> := [73, 77, 80, 82, 79, 86]
  const OATHAN: seq<byte> := [79, 65, 84, 72, 65, 78]
  const NEWLINE: byte := 10
  const GAP_MS := 1000

  datatype Frame = Frame(extension: bool, kind: byte, data: seq<byte>)

  function Header(extension: bool): seq<byte> { if extension then OATHAN else IMPROV }

  function Sum(s: seq<byte>): nat {
    if s == [] then 0 else Sum(s[..|s| - 1]) + s[|s| - 1]
  }

  /** A frame up to and including its checksum. */
  function Packet(f: Frame): (s: seq<byte>)
    requires |f.data| <= 255
    ensures |s| == |f.data| + 10
  {
    var head := Header(f.extension) + [1, f.kind, |f.data|] + f.data;
    head + [Sum(head) % 0x100]
  }

  function Encoded(f: Frame): seq<byte>
    requires |f.data| <= 255
  {
    Packet(f) + [NEWLINE]
  }

  method Checksum(s: seq<byte>) returns (sum: byte)
    ensures sum == Sum(s) % 0x100
  {
    sum := 0;
    var i := 0;
    while i < |s|
      invariant 0 <= i <= |s| && sum == Sum(s[..i]) % 0x100
    {
      SumNext(s, i);
      sum := (sum + s[i]) % 0x100;
      i := i + 1;
    }
    assert s[..i] == s;
  }

  lemma SumNext(s: seq<byte>, i: nat)
    requires i < |s|
    ensures Sum(s[..i + 1]) == Sum(s[..i]) + s[i]
    ensures Sum(s[..i + 1]) % 0x100 == (Sum(s[..i]) % 0x100 + s[i]) % 0x100
  {
    assert s[..i + 1][..i] == s[..i];
  }

  /** Writes a frame; one with too much data is not written. */
  method WriteFrame(f: Frame) returns (out: seq<byte>)
    ensures out == if |f.data| <= 255 then Encoded(f) else []
  {
    if |f.data| > 255 {
      return [];
    }
    out := Header(f.extension);
    out := out + [1, f.kind, |f.data|];
    out := out + f.data;
    var sum := Checksum(out);
    out := out + [sum];
    out := out + [NEWLINE];
  }

  // ---------- the parser ----------

  predicate HeaderPrefix(s: seq<byte>) {
    s <= IMPROV || s <= OATHAN
  }

  /** The longest tail that begins a header; TailEnds and TailLongest say so. */
  function Tail(s: seq<byte>): (t: seq<byte>)
    ensures HeaderPrefix(t) && |t| <= |s|
  {
    if HeaderPrefix(s) then s else Tail(s[1..])
  }

  lemma {:induction false} TailEnds(s: seq<byte>)
    ensures Tail(s) == s[|s| - |Tail(s)|..]
  {
    if !HeaderPrefix(s) {
      TailEnds(s[1..]);
    }
  }

  datatype Taken = Taken(buffer: seq<byte>, found: Option<Frame>)

  /** One byte, in time. */
  function Take(buffer: seq<byte>, b: byte): Taken {
    var s := buffer + [b];
    if |s| <= 6 then Taken(Tail(s), None)
    else if s[6] != 1 then Taken([], None)
    else if Short(s) then Taken(s, None)
    else Taken([], Closed(s))
  }

  predicate Short(s: seq<byte>) { |s| < 9 || |s| < s[8] as int + 10 }

  function Closed(s: seq<byte>): Option<Frame>
    requires |s| >= 10
  {
    var n := |s| - 1;
    if Sum(s[..n]) % 0x100 == s[n] then Some(Frame(s[0] == 79, s[7], s[9..n])) else None
  }

  /** What the buffer holds between bytes. */
  ghost predicate Held(s: seq<byte>) {
    if |s| <= 6 then HeaderPrefix(s) else (s[..6] == IMPROV || s[..6] == OATHAN) && s[6] == 1 && Short(s)
  }

  function Fresh(buffer: seq<byte>, last: nat, now: nat): seq<byte> {
    if now < last || now - last > GAP_MS then [] else buffer
  }

  class SerialParser {
    var bytes: seq<byte>
    var last: nat

    constructor ()
      ensures bytes == [] && last == 0
    {
      bytes, last := [], 0;
    }

    /** Takes in one byte heard at `now`; a byte that ends a sound frame hands it back. */
    method Feed(b: byte, now: nat) returns (found: Option<Frame>)
      requires Held(bytes)
      modifies this
      ensures Taken(bytes, found) == Take(Fresh(old(bytes), old(last), now), b)
      ensures Held(bytes) && last == now
    {
      if now < last || now - last > GAP_MS {
        bytes := [];
      }
      last := now;
      TakeKeepsHeld(bytes, b);
      bytes := bytes + [b];
      if |bytes| <= 6 {
        Resync();
        return None;
      }
      if bytes[6] != 1 {
        bytes := [];
        return None;
      }
      if |bytes| < 9 || |bytes| < bytes[8] as int + 10 {
        return None;
      }
      var sum := Checksum(bytes[..|bytes| - 1]);
      found := if sum == bytes[|bytes| - 1] then Some(Frame(bytes[0] == 79, bytes[7], bytes[9..|bytes| - 1])) else None;
      bytes := [];
    }

    /** Drops bytes from the front until the rest begins a header. */
    method Resync()
      modifies `bytes
      ensures bytes == Tail(old(bytes))
    {
      while bytes != [] && !HeaderPrefix(bytes)
        invariant Tail(bytes) == Tail(old(bytes))
        decreases |bytes|
      {
        bytes := bytes[1..];
      }
    }
  }

  lemma TakeKeepsHeld(buffer: seq<byte>, b: byte)
    requires Held(buffer)
    ensures Held(Take(buffer, b).buffer)
  {
    var s := buffer + [b];
    if |s| > 6 {
      assert s[..6] == if |s| == 7 then buffer else buffer[..6];
    }
  }

  /** A frame that is handed back is, byte for byte, the packet just completed. */
  lemma FoundIsPacket(buffer: seq<byte>, b: byte)
    requires Held(buffer) && Take(buffer, b).found.Some?
    ensures var f := Take(buffer, b).found.value; |f.data| <= 255 && buffer + [b] == Packet(f)
  {
    var s := buffer + [b];
    var n := |s| - 1;
    var f := Frame(s[0] == 79, s[7], s[9..n]);
    assert s[..6] == if |s| == 7 then buffer else buffer[..6];
    assert s[..6] == Header(f.extension);
    assert n == |buffer| && s[..n] == buffer;
    assert |s| == s[8] as int + 10;
    assert s[..n] == s[..6] + [s[6], s[7], s[8]] + s[9..n];
    assert s == s[..n] + [s[n]];
  }

  // ---------- what a whole stream gives ----------

  datatype Heard = Heard(buffer: seq<byte>, frames: seq<Frame>)

  function Emitted(found: Option<Frame>): seq<Frame> { if found.Some? then [found.value] else [] }

  /** A stream without gaps, from a buffer. */
  function Hear(buffer: seq<byte>, w: seq<byte>): Heard
    decreases |w|
  {
    if w == [] then Heard(buffer, [])
    else
      var t := Take(buffer, w[0]);
      var rest := Hear(t.buffer, w[1..]);
      Heard(rest.buffer, Emitted(t.found) + rest.frames)
  }

  /** A stream with the time each byte was heard. */
  function Listen(buffer: seq<byte>, last: nat, w: seq<byte>, at: seq<nat>): Heard
    requires |w| == |at|
    decreases |w|
  {
    if w == [] then Heard(buffer, [])
    else
      var t := Take(Fresh(buffer, last, at[0]), w[0]);
      var rest := Listen(t.buffer, at[0], w[1..], at[1..]);
      Heard(rest.buffer, Emitted(t.found) + rest.frames)
  }

  /** Bytes at most a second apart, on a clock that does not run back. */
  ghost predicate Steady(last: nat, at: seq<nat>)
    decreases |at|
  {
    at != [] ==> last <= at[0] <= last + GAP_MS && Steady(at[0], at[1..])
  }

  /** The parser object on a whole stream. */
  method Receive(parser: SerialParser, w: seq<byte>, at: seq<nat>) returns (frames: seq<Frame>)
    requires |w| == |at| && Held(parser.bytes)
    modifies parser
    ensures Held(parser.bytes)
    ensures Heard(parser.bytes, frames) == Listen(old(parser.bytes), old(parser.last), w, at)
  {
    frames := [];
    var i := 0;
    assert w[0..] == w && at[0..] == at;
    while i < |w|
      invariant 0 <= i <= |w| && Held(parser.bytes)
      invariant Listen(old(parser.bytes), old(parser.last), w, at) == Join(frames, Listen(parser.bytes, parser.last, w[i..], at[i..]))
    {
      Onward(parser.bytes, parser.last, w, at, i, frames);
      var found := parser.Feed(w[i], at[i]);
      frames := frames + Emitted(found);
      i := i + 1;
    }
  }

  function Join(frames: seq<Frame>, h: Heard): Heard { Heard(h.buffer, frames + h.frames) }

  lemma Onward(buffer: seq<byte>, last: nat, w: seq<byte>, at: seq<nat>, i: nat, frames: seq<Frame>)
    requires |w| == |at| && i < |w|
    ensures var t := Take(Fresh(buffer, last, at[i]), w[i]);
      Join(frames, Listen(buffer, last, w[i..], at[i..])) == Join(frames + Emitted(t.found), Listen(t.buffer, at[i], w[i + 1..], at[i + 1..]))
  {
    assert w[i..][1..] == w[i + 1..] && at[i..][1..] == at[i + 1..];
    var t := Take(Fresh(buffer, last, at[i]), w[i]);
    Regroup(frames, Emitted(t.found), Listen(t.buffer, at[i], w[i + 1..], at[i + 1..]).frames);
  }

  lemma {:induction false} SteadyHears(buffer: seq<byte>, last: nat, w: seq<byte>, at: seq<nat>)
    requires |w| == |at| && Steady(last, at)
    ensures Listen(buffer, last, w, at) == Hear(buffer, w)
    decreases |w|
  {
    if w != [] { SteadyHears(Take(buffer, w[0]).buffer, at[0], w[1..], at[1..]); }
  }

  /** After a silence of more than a second, or a clock that ran back, what was begun is forgotten. */
  lemma {:induction false} GapForgets(buffer: seq<byte>, last: nat, w: seq<byte>, at: seq<nat>, k: nat, restart: nat)
    requires |w| == |at| && 0 < k < |w| && (at[k] < at[k - 1] || at[k] - at[k - 1] > 1000)
    ensures Listen(buffer, last, w, at) == Join(Listen(buffer, last, w[..k], at[..k]).frames, Listen([], restart, w[k..], at[k..]))
    decreases k
  {
    var t := Take(Fresh(buffer, last, at[0]), w[0]);
    var v, vt := w[1..], at[1..];
    assert w[..k][1..] == v[..k - 1] && at[..k][1..] == vt[..k - 1];
    assert w[k..] == v[k - 1..] && at[k..] == vt[k - 1..];
    if k == 1 {
      assert v[..0] == [] && vt[..0] == [] && v[0..] == v && vt[0..] == vt;
      assert Listen(t.buffer, at[0], v, vt) == Listen([], restart, v, vt);
    } else {
      GapForgets(t.buffer, at[0], v, vt, k - 1, restart);
    }
    Regroup(Emitted(t.found), Listen(t.buffer, at[0], v[..k - 1], vt[..k - 1]).frames, Listen([], restart, w[k..], at[k..]).frames);
  }

  lemma {:induction false} HearOn(buffer: seq<byte>, v: seq<byte>, w: seq<byte>)
    ensures Hear(buffer, v + w) == Join(Hear(buffer, v).frames, Hear(Hear(buffer, v).buffer, w))
    decreases |v|, 0
  {
    if v == [] {
      assert v + w == w;
    } else {
      FrontOf(v, w);
      HearOnAfter(Take(buffer, v[0]).buffer, v[1..], w, Emitted(Take(buffer, v[0]).found));
    }
  }

  lemma {:induction false} HearOnAfter(buffer: seq<byte>, v: seq<byte>, w: seq<byte>, first: seq<Frame>)
    ensures Join(first, Hear(buffer, v + w)) == Join(first + Hear(buffer, v).frames, Hear(Hear(buffer, v).buffer, w))
    decreases |v|, 1
  {
    HearOn(buffer, v, w);
    Regroup(first, Hear(buffer, v).frames, Hear(Hear(buffer, v).buffer, w).frames);
  }

  lemma HearOne(buffer: seq<byte>, b: byte)
    ensures Hear(buffer, [b]) == Heard(Take(buffer, b).buffer, Emitted(Take(buffer, b).found))
  {
    assert [b][1..] == [];
    assert Hear(Take(buffer, b).buffer, []) == Heard(Take(buffer, b).buffer, []);
  }

  // ---------- finding a header ----------

  lemma {:induction false} TailLongest(s: seq<byte>, k: nat)
    requires k < |s| - |Tail(s)|
    ensures !HeaderPrefix(s[k..])
  {
    if k > 0 {
      TailLongest(s[1..], k - 1);
      assert s[1..][k - 1..] == s[k..];
    } else {
      assert s[0..] == s;
    }
  }

  lemma PrefixLess(s: seq<byte>, b: byte)
    ensures HeaderPrefix(s + [b]) ==> HeaderPrefix(s)
  {
    assert s <= s + [b];
  }

  /** The next byte needs no more of the past than the tail already kept. */
  lemma {:induction false} TailStep(s: seq<byte>, b: byte)
    ensures Tail(s + [b]) == Tail(Tail(s) + [b])
  {
    if !HeaderPrefix(s) {
      PrefixLess(s, b);
      assert (s + [b])[1..] == s[1..] + [b];
      TailStep(s[1..], b);
    }
  }

  ghost predicate HeaderAt(w: seq<byte>, k: int) {
    0 <= k <= |w| - 6 && (w[k..k + 6] == IMPROV || w[k..k + 6] == OATHAN)
  }

  /** No header is complete in w. */
  ghost predicate Quiet(w: seq<byte>) { forall k :: 0 <= k <= |w| - 6 ==> !HeaderAt(w, k) }

  lemma QuietFront(w: seq<byte>, n: nat)
    requires Quiet(w) && n <= |w|
    ensures Quiet(w[..n])
  {
    forall k | 0 <= k <= n - 6 ensures !HeaderAt(w[..n], k) {
      assert w[..n][k..k + 6] == w[k..k + 6];
      assert !HeaderAt(w, k);
    }
  }

  /** Until a header is complete, the buffer is the longest tail of all that was heard that begins one. */
  lemma {:induction false} SeekingHolds(w: seq<byte>)
    requires Quiet(w)
    ensures Hear([], w) == Heard(Tail(w), [])
    decreases |w|
  {
    if w != [] {
      var v, b := w[..|w| - 1], w[|w| - 1];
      Snoc(v, b, w);
      QuietFront(w, |w| - 1);
      SeekingHolds(v);
      QuietTail(v);
      SeekOne(v, b);
    }
  }

  lemma FullTail(v: seq<byte>)
    requires |Tail(v)| == 6
    ensures HeaderAt(v, |v| - 6)
  {
    var t := Tail(v);
    TailEnds(v);
    assert t == v[|v| - 6..|v| - 6 + 6];
    assert t == IMPROV || t == OATHAN;
  }

  lemma QuietTail(v: seq<byte>)
    requires Quiet(v)
    ensures |Tail(v)| < 6
  {
    if |Tail(v)| == 6 {
      FullTail(v);
    }
  }

  lemma SeekOne(v: seq<byte>, b: byte)
    requires Hear([], v) == Heard(Tail(v), []) && |Tail(v)| < 6
    ensures Hear([], v + [b]) == Heard(Tail(v + [b]), [])
  {
    TailStep(v, b);
    HearOne(Tail(v), b);
    HearOn([], v, [b]);
  }

  lemma {:induction false} TailIsHeader(w: seq<byte>, extension: bool)
    requires |w| >= 6 && w[|w| - 6..] == Header(extension)
    ensures Tail(w) == Header(extension)
    decreases |w|
  {
    if |w| == 6 {
      assert w == Header(extension);
    } else {
      TailIsHeader(w[1..], extension);
    }
  }

  // ---------- filling a frame ----------

  /** Bytes of an unfinished frame are kept as they come. */
  lemma {:induction false} Filling(s: seq<byte>, d: seq<byte>)
    requires |s| >= 6 && |s + d| >= 7 && (s + d)[6] == 1 && Short(s + d)
    ensures Hear(s, d) == Heard(s + d, [])
    decreases |d|
  {
    if d == [] {
      assert s + d == s;
    } else {
      var t := s + [d[0]];
      assert t + d[1..] == s + d;
      assert t == (s + d)[..|t|];
      assert Short(t) && t[6] == 1;
      Filling(t, d[1..]);
    }
  }

  /** How a packet is laid out, to the byte. */
  lemma PacketLayout(f: Frame)
    requires |f.data| <= 255
    ensures var p, n := Packet(f), |f.data|;
      && p[..6] == (if f.extension then [0x4F, 0x41, 0x54, 0x48, 0x41, 0x4E] else [0x49, 0x4D, 0x50, 0x52, 0x4F, 0x56])
      && p[6] == 1 && p[7] == f.kind && p[8] == n && p[9..9 + n] == f.data && p[9 + n] == Sum(p[..9 + n]) % 0x100
  {
  }

  lemma {:induction false} SumChanged(s: seq<byte>, i: nat, b: byte)
    requires i < |s|
    ensures Sum(s[i := b]) == Sum(s) - s[i] + b
  {
    var n := |s| - 1;
    if i < n {
      SumChanged(s[..n], i, b);
      assert s[i := b][..n] == s[..n][i := b];
    } else {
      assert s[i := b][..n] == s[..n];
    }
  }

  /** Whatever has a header, the version and the announced length is judged when its last byte has come. */
  lemma ShapedHeard(p: seq<byte>, extension: bool)
    requires |p| >= 10 && p[..6] == Header(extension) && p[6] == 1 && |p| == p[8] as int + 10
    ensures Hear(Header(extension), p[6..]) == Heard([], Emitted(Closed(p)))
  {
    var n, h := |p| - 1, Header(extension);
    assert p[6..] == p[6..n] + [p[n]];
    assert h + p[6..n] == p[..n];
    Filling(h, p[6..n]);
    HearOn(h, p[6..n], [p[n]]);
    assert p[..n] + [p[n]] == p;
    HearOne(p[..n], p[n]);
  }

  lemma DamagedRefused(p: seq<byte>, i: nat, b: byte)
    requires |p| >= 10 && i < |p| && b != p[i] && Sum(p[..|p| - 1]) % 0x100 == p[|p| - 1]
    ensures Closed(p[i := b]) == None
  {
    var q, n := p[i := b], |p| - 1;
    if i < n {
      SumChanged(p[..n], i, b);
      assert q[..n] == p[..n][i := b];
      SumHolds(p[..n], i);
      Residues(Sum(p[..n]), p[i], b);
    } else {
      assert q[..n] == p[..n];
    }
  }

  /** A frame with one byte of its kind, data or checksum damaged is not handed back. */
  lemma DamagedUnheard(f: Frame, i: nat, b: byte)
    requires |f.data| <= 255 && (i == 7 || 9 <= i < |Packet(f)|) && b != Packet(f)[i]
    ensures Hear(Header(f.extension), Packet(f)[i := b][6..]) == Heard([], [])
  {
    var p := Packet(f);
    PacketLayout(f);
    assert p[..6] == Header(f.extension) && p[i := b][..6] == p[..6];
    DamagedRefused(p, i, b);
    ShapedHeard(p[i := b], f.extension);
  }

  lemma Residues(sum: nat, a: byte, b: byte)
    requires a != b && sum >= a
    ensures (sum - a + b) % 0x100 != sum % 0x100
  {
  }

  lemma {:induction false} SumHolds(s: seq<byte>, i: nat)
    requires i < |s|
    ensures s[i] <= Sum(s)
  {
    if i < |s| - 1 {
      SumHolds(s[..|s| - 1], i);
    }
  }

  /** A packet after its header is handed back at its last byte. */
  lemma PacketFound(f: Frame)
    requires |f.data| <= 255
    ensures Hear(Header(f.extension), Packet(f)[6..]) == Heard([], [f])
  {
    var p := Packet(f);
    var n := |p| - 1;
    var h := Header(f.extension);
    assert p[..6] == h && p[7] == f.kind && p[8] == |f.data| && p[9..n] == f.data;
    assert p[6..] == p[6..n] + [p[n]];
    assert h + p[6..n] == p[..n];
    Filling(h, p[6..n]);
    HearOn(h, p[6..n], [p[n]]);
    assert p[..n] + [p[n]] == p;
    HearOne(p[..n], p[n]);
    assert Closed(p) == Some(Frame(p[0] == 79, p[7], p[9..n]));
  }

  // ---------- whole streams ----------

  /** Noise and then a frame. */
  datatype Burst = Burst(noise: seq<byte>, frame: Frame)

  /** The first header complete in the burst is the frame's own. */
  ghost predicate Clear(b: Burst) {
    |b.frame.data| <= 255 && Quiet((b.noise + Header(b.frame.extension))[..|b.noise| + 5])
  }

  function Stream(bursts: seq<Burst>): seq<byte>
    requires forall b :: b in bursts ==> |b.frame.data| <= 255
  {
    if bursts == [] then [] else bursts[0].noise + Encoded(bursts[0].frame) + Stream(bursts[1..])
  }

  function Frames(bursts: seq<Burst>): seq<Frame> {
    if bursts == [] then [] else [bursts[0].frame] + Frames(bursts[1..])
  }

  lemma BurstFound(b: Burst)
    requires Clear(b)
    ensures Hear([], b.noise + Encoded(b.frame)) == Heard([], [b.frame])
  {
    BurstHeader(b);
    PacketFound(b.frame);
    PacketHeader(b.frame);
    BurstJoin(b.noise, Header(b.frame.extension), Packet(b.frame), b.frame);
    NewlineIgnored(b.noise + Packet(b.frame), b.frame);
    Regroup(b.noise, Packet(b.frame), [NEWLINE]);
  }

  lemma PacketHeader(f: Frame)
    requires |f.data| <= 255
    ensures Packet(f)[..6] == Header(f.extension)
  {
  }

  lemma BurstJoin(noise: seq<byte>, h: seq<byte>, p: seq<byte>, f: Frame)
    requires |p| >= 6 && p[..6] == h
    requires Hear([], noise + h) == Heard(h, []) && Hear(h, p[6..]) == Heard([], [f])
    ensures Hear([], noise + p) == Heard([], [f])
  {
    HearOn([], noise + h, p[6..]);
    Pieces(noise, h, p);
  }

  lemma Pieces(noise: seq<byte>, h: seq<byte>, p: seq<byte>)
    requires |p| >= 6 && p[..6] == h
    ensures noise + h + p[6..] == noise + p
  {
  }

  lemma BurstHeader(b: Burst)
    requires Clear(b)
    ensures Hear([], b.noise + Header(b.frame.extension)) == Heard(Header(b.frame.extension), [])
  {
    var h := Header(b.frame.extension);
    var v := b.noise + h;
    var u := v[..|b.noise| + 5];
    assert v[|v| - 6..] == h && v == u + [h[5]];
    SeekingHolds(u);
    QuietTail(u);
    SeekOne(u, h[5]);
    TailIsHeader(v, b.frame.extension);
  }

  lemma NewlineIgnored(w: seq<byte>, f: Frame)
    requires Hear([], w) == Heard([], [f])
    ensures Hear([], w + [NEWLINE]) == Heard([], [f])
  {
    HearOn([], w, [NEWLINE]);
    HearOne([], NEWLINE);
    NewlineTaken();
  }

  /** A newline begins no header. */
  lemma NewlineTaken()
    ensures Take([], NEWLINE) == Taken([], None)
  {
    assert [] + [NEWLINE] == [NEWLINE] && [NEWLINE][1..] == [];
    assert [NEWLINE][0] == NEWLINE && !HeaderPrefix([NEWLINE]);
  }

  /** Every frame of a stream is heard, in order and once, whatever noise precedes it. */
  lemma {:induction false} StreamHeard(bursts: seq<Burst>)
    requires forall b :: b in bursts ==> |b.frame.data| <= 255 && Clear(b)
    ensures Hear([], Stream(bursts)) == Heard([], Frames(bursts))
    decreases |bursts|
  {
    if bursts != [] {
      BurstFound(bursts[0]);
      StreamHeard(bursts[1..]);
      HearOn([], bursts[0].noise + Encoded(bursts[0].frame), Stream(bursts[1..]));
    }
  }

  lemma NoNoiseIsClear(f: Frame)
    requires |f.data| <= 255
    ensures Clear(Burst([], f))
  {
    assert ([] + Header(f.extension))[..5] == Header(f.extension)[..5];
  }

  ghost predicate OccursAt(w: seq<byte>, s: seq<byte>, i: nat) { i + |s| <= |w| && w[i..i + |s|] == s }

  ghost predicate Occurs(w: seq<byte>, s: seq<byte>) { exists i :: OccursAt(w, s, i) }

  ghost predicate Ends(w: seq<byte>, s: seq<byte>) { |s| <= |w| && w[|w| - |s|..] == s }

  lemma HeardFirst(buffer: seq<byte>, w: seq<byte>, f: Frame)
    requires f in Hear(buffer, w).frames
    ensures w != []
    ensures Take(buffer, w[0]).found == Some(f) || f in Hear(Take(buffer, w[0]).buffer, w[1..]).frames
  {
  }

  /** Nothing is heard that was not sent: the packet of every frame heard lies in the stream. */
  lemma {:induction false} HeardWasSent(sent: seq<byte>, buffer: seq<byte>, w: seq<byte>, f: Frame)
    requires Held(buffer) && Ends(sent, buffer)
    requires f in Hear(buffer, w).frames
    ensures |f.data| <= 255 && Occurs(sent + w, Packet(f))
    decreases |w|
  {
    HeardFirst(buffer, w, f);
    var on := sent + [w[0]];
    Cons(w);
    Regroup(sent, [w[0]], w[1..]);
    LastsOn(sent, buffer, w[0]);
    if Take(buffer, w[0]).found == Some(f) {
      FoundIsPacket(buffer, w[0]);
      Found(on, Packet(f), w[1..]);
    } else {
      TakeKeepsHeld(buffer, w[0]);
      HeardWasSent(on, Take(buffer, w[0]).buffer, w[1..], f);
    }
  }

  lemma LastsOn(sent: seq<byte>, buffer: seq<byte>, b: byte)
    requires Ends(sent, buffer)
    ensures Ends(sent + [b], buffer + [b]) && Ends(sent + [b], Take(buffer, b).buffer)
  {
    var on := sent + [b];
    assert on[|on| - |buffer| - 1..] == buffer + [b];
    TailEnds(buffer + [b]);
  }

  lemma Found(on: seq<byte>, p: seq<byte>, w: seq<byte>)
    requires Ends(on, p)
    ensures Occurs(on + w, p)
  {
    assert OccursAt(on + w, p, |on| - |p|);
  }
}
