/**
 The speaker's name: trimmed, well-formed UTF-8 (section 4 of RFC 3629) without control
 characters. The code points of a name are stated apart from the byte loop that checks it.
 */
module SpeakerName {
  import opened Sequences
  import opened Words
  import opened Wrappers

  const MAX_BYTES := 128
  const MAX_POINTS := 32

  predicate Space(c: byte) { c == 0x20 || 9 <= c <= 13 }

  // ---------- code points ----------

  predicate Scalar(c: nat) { c < 0xD800 || 0xE000 <= c <= 0x10FFFF }

  predicate Control(c: nat) { c < 0x20 || 0x7F <= c <= 0x9F }

  /** The octets of one code point. */
  function Octets(c: nat): (s: seq<byte>)
    requires Scalar(c)
    ensures 1 <= |s| <= 4
  {
    if c < 0x80 then [c]
    else if c < 0x800 then [0xC0 + c / 0x40, 0x80 + c % 0x40]
    else if c < 0x10000 then [0xE0 + c / 0x1000, 0x80 + c / 0x40 % 0x40, 0x80 + c % 0x40]
    else [0xF0 + c / 0x40000, 0x80 + c / 0x1000 % 0x40, 0x80 + c / 0x40 % 0x40, 0x80 + c % 0x40]
  }

  ghost predicate Scalars(points: seq<nat>) { forall i :: 0 <= i < |points| ==> Scalar(points[i]) }

  function Utf8(points: seq<nat>): seq<byte>
    requires Scalars(points)
  {
    if points == [] then [] else Octets(points[0]) + Utf8(points[1..])
  }

  /** What a name may be made of. */
  ghost predicate Proper(points: seq<nat>) {
    Scalars(points) && |points| <= MAX_POINTS && forall i :: 0 <= i < |points| ==> !Control(points[i])
  }

  // ---------- reading one code point ----------

  datatype Point = Point(code: nat, size: nat)

  predicate Follows(b: byte) { 0x80 <= b < 0xC0 }

  predicate AllFollow(tail: seq<byte>) { forall i :: 0 <= i < |tail| ==> Follows(tail[i]) }

  /** How many bytes a first byte calls for, and the bits it gives. */
  function Extra(first: byte): Option<nat> {
    if first < 0x80 then Some(0)
    else if 0xC2 <= first <= 0xDF then Some(1)
    else if 0xE0 <= first <= 0xEF then Some(2)
    else if 0xF0 <= first <= 0xF4 then Some(3)
    else None
  }

  function Lead(first: byte): nat {
    var f: nat := first;
    if 0xC2 <= f <= 0xDF then f % 0x20 else if 0xE0 <= f <= 0xEF then f % 0x10 else if 0xF0 <= f <= 0xF4 then f % 8 else f
  }

  function Six(b: byte): nat {
    var n: nat := b;
    n % 0x40
  }

  function Code(lead: nat, tail: seq<byte>): nat {
    if tail == [] then lead else Code(lead, tail[..|tail| - 1]) * 0x40 + Six(tail[|tail| - 1])
  }

  function Least(extra: nat): nat {
    if extra == 0 then 0 else if extra == 1 then 0x80 else if extra == 2 then 0x800 else 0x10000
  }

  /** The code point at the front of s, as the byte loop reads it. */
  function Next(s: seq<byte>): Option<Point>
    requires s != []
  {
    var extra := Extra(s[0]);
    if extra.None? || |s| < 1 + extra.value || !AllFollow(s[1..1 + extra.value]) then None
    else Kept(Code(Lead(s[0]), s[1..1 + extra.value]), 1 + extra.value, Least(extra.value))
  }

  /** Not overlong, not out of range, and no control character. */
  function Kept(code: nat, size: nat, least: nat): Option<Point> {
    if code < least || !Scalar(code) || Control(code) then None else Some(Point(code, size))
  }

  lemma Code1(lead: nat, x: byte)
    ensures Code(lead, [x]) == lead * 0x40 + Six(x)
  {
    assert [x][..0] == [];
  }

  lemma Code2(lead: nat, x: byte, y: byte)
    ensures Code(lead, [x, y]) == (lead * 0x40 + Six(x)) * 0x40 + Six(y)
  {
    assert [x, y][..1] == [x];
    Code1(lead, x);
  }

  lemma Code3(lead: nat, x: byte, y: byte, z: byte)
    ensures Code(lead, [x, y, z]) == ((lead * 0x40 + Six(x)) * 0x40 + Six(y)) * 0x40 + Six(z)
  {
    assert [x, y, z][..2] == [x, y];
    Code2(lead, x, y);
  }

  /** Base-64 digits, put together and taken apart. */
  lemma FourDigits(p: nat, q: nat, r: nat, t: nat)
    requires q < 0x40 && r < 0x40 && t < 0x40
    ensures var c := ((p * 0x40 + q) * 0x40 + r) * 0x40 + t;
      c / 0x40000 == p && c / 0x1000 % 0x40 == q && c / 0x40 % 0x40 == r && c % 0x40 == t
  {
    var b := (p * 0x40 + q) * 0x40 + r;
    TwoDigits(b, t);
    TwoDigits(p * 0x40 + q, r);
    TwoDigits(p, q);
    Quotients(b * 0x40 + t);
  }

  lemma ThreeDigits(q: nat, r: nat, t: nat)
    requires r < 0x40 && t < 0x40
    ensures var c := (q * 0x40 + r) * 0x40 + t; c / 0x1000 == q && c / 0x40 % 0x40 == r && c % 0x40 == t
  {
    TwoDigits(q * 0x40 + r, t);
    TwoDigits(q, r);
    Quotients((q * 0x40 + r) * 0x40 + t);
  }

  lemma TwoDigits(p: nat, q: nat)
    requires q < 0x40
    ensures (p * 0x40 + q) / 0x40 == p && (p * 0x40 + q) % 0x40 == q
  {
  }

  lemma Quotients(c: nat)
    ensures c / 0x1000 == c / 0x40 / 0x40 && c / 0x40000 == c / 0x40 / 0x40 / 0x40
  {
  }

  lemma Digits(c: nat)
    ensures c == ((c / 0x40000 * 0x40 + c / 0x1000 % 0x40) * 0x40 + c / 0x40 % 0x40) * 0x40 + c % 0x40
  {
    Quotients(c);
  }

  lemma OneRound(c: nat)
    requires Scalar(c) && c < 0x80
    ensures Extra(c) == Some(0) && Code(Lead(c), []) == c
  {
  }

  lemma TwoRound(c: nat)
    requires 0x80 <= c < 0x800
    ensures var s := Octets(c); Extra(s[0]) == Some(1) && Follows(s[1]) && Code(Lead(s[0]), [s[1]]) == c
  {
    var s := Octets(c);
    Code1(Lead(s[0]), s[1]);
  }

  lemma ThreeRound(c: nat)
    requires Scalar(c) && 0x800 <= c < 0x10000
    ensures var s := Octets(c); Extra(s[0]) == Some(2) && Follows(s[1]) && Follows(s[2]) && Code(Lead(s[0]), [s[1], s[2]]) == c
  {
    var s := Octets(c);
    Code2(Lead(s[0]), s[1], s[2]);
    assert c / 0x1000 == c / 0x40 / 0x40;
  }

  lemma FourParts(c: nat)
    requires Scalar(c) && 0x10000 <= c
    ensures var s := Octets(c);
      && Extra(s[0]) == Some(3) && Lead(s[0]) == c / 0x40000 && Follows(s[1]) && Follows(s[2]) && Follows(s[3])
      && Six(s[1]) == c / 0x1000 % 0x40 && Six(s[2]) == c / 0x40 % 0x40 && Six(s[3]) == c % 0x40
  {
  }

  lemma FourRound(c: nat)
    requires Scalar(c) && 0x10000 <= c
    ensures var s := Octets(c);
      Extra(s[0]) == Some(3) && Follows(s[1]) && Follows(s[2]) && Follows(s[3]) && Code(Lead(s[0]), [s[1], s[2], s[3]]) == c
  {
    var s := Octets(c);
    Code3(Lead(s[0]), s[1], s[2], s[3]);
    FourParts(c);
    Digits(c);
  }

  lemma OctetsRound(c: nat)
    requires Scalar(c)
    ensures var s := Octets(c);
      Extra(s[0]) == Some(|s| - 1) && AllFollow(s[1..]) && Code(Lead(s[0]), s[1..]) == c && c >= Least(|s| - 1)
  {
    var s := Octets(c);
    if |s| == 1 {
      OneRound(c);
    } else if |s| == 2 {
      TwoRound(c);
      assert s[1..] == [s[1]];
    } else if |s| == 3 {
      ThreeRound(c);
      assert s[1..] == [s[1], s[2]];
    } else {
      FourRound(c);
      assert s[1..] == [s[1], s[2], s[3]];
    }
  }

  /** The octets of a code point read back as it. */
  lemma NextOfOctets(c: nat, s: seq<byte>)
    requires Scalar(c) && !Control(c) && |s| >= |Octets(c)| && s[..|Octets(c)|] == Octets(c)
    ensures Next(s) == Some(Point(c, |Octets(c)|))
  {
    var o := Octets(c);
    OctetsRound(c);
    assert s[0] == s[..|o|][0] && s[1..|o|] == s[..|o|][1..];
  }

  /** What is read is the octets of what it is read as. */
  lemma OctetsOfNext(s: seq<byte>)
    requires s != [] && Next(s).Some?
    ensures var p := Next(s).value; Scalar(p.code) && !Control(p.code) && p.size == |Octets(p.code)| <= |s| && s[..p.size] == Octets(p.code)
  {
    var n := Extra(s[0]).value;
    var tail := s[1..1 + n];
    assert forall i :: 0 <= i < |tail| ==> Follows(tail[i]);
    if n == 0 {
      assert tail == [] && s[..1] == [s[0]];
    } else if n == 1 {
      assert tail == [tail[0]] && s[..2] == [s[0], tail[0]];
      TwoBack(s[0], tail[0]);
    } else if n == 2 {
      assert tail == [tail[0], tail[1]] && s[..3] == [s[0], tail[0], tail[1]];
      ThreeBack(s[0], tail[0], tail[1]);
    } else {
      assert tail == [tail[0], tail[1], tail[2]] && s[..4] == [s[0], tail[0], tail[1], tail[2]];
      FourBack(s[0], tail[0], tail[1], tail[2]);
    }
  }

  lemma TwoBack(a: byte, b: byte)
    requires Extra(a) == Some(1) && Follows(b)
    ensures var c := Code(Lead(a), [b]); 0x80 <= c < 0x800 && Octets(c) == [a, b]
  {
    Code1(Lead(a), b);
  }

  lemma ThreeBack(a: byte, b: byte, d: byte)
    requires Extra(a) == Some(2) && Follows(b) && Follows(d)
    ensures var c := Code(Lead(a), [b, d]); c < 0x10000 && (c >= 0x800 && Scalar(c) ==> Octets(c) == [a, b, d])
  {
    Code2(Lead(a), b, d);
    ThreeDigits(Lead(a), Six(b), Six(d));
  }

  /** The four octets of a code point, by their digits. */
  lemma FourOctets(p: nat, q: nat, r: nat, t: nat)
    requires p < 8 && q < 0x40 && r < 0x40 && t < 0x40
    ensures var c := ((p * 0x40 + q) * 0x40 + r) * 0x40 + t;
      c >= 0x10000 && Scalar(c) ==> Octets(c) == [0xF0 + p, 0x80 + q, 0x80 + r, 0x80 + t]
  {
    FourDigits(p, q, r, t);
  }

  lemma FourBack(a: byte, b: byte, d: byte, e: byte)
    requires Extra(a) == Some(3) && Follows(b) && Follows(d) && Follows(e)
    ensures var c := Code(Lead(a), [b, d, e]); c >= 0x10000 && Scalar(c) ==> Octets(c) == [a, b, d, e]
  {
    Code3(Lead(a), b, d, e);
    FourOctets(Lead(a), Six(b), Six(d), Six(e));
  }

  // ---------- reading a whole name ----------

  /** The code points of s, when all of it reads. */
  function Points(s: seq<byte>): Option<seq<nat>>
    decreases |s|
  {
    if s == [] then Some([])
    else
      var p := Next(s);
      if p.None? || p.value.size > |s| || p.value.size == 0 then None
      else
        var rest := Points(s[p.value.size..]);
        if rest.None? then None else Some([p.value.code] + rest.value)
  }

  lemma {:induction false} PointsOfUtf8(points: seq<nat>)
    requires Scalars(points) && forall i :: 0 <= i < |points| ==> !Control(points[i])
    ensures Points(Utf8(points)) == Some(points)
    decreases |points|
  {
    if points != [] {
      var c, rest := points[0], points[1..];
      var s := Utf8(points);
      PointsOfUtf8(rest);
      Split(Octets(c), Utf8(rest));
      NextOfOctets(c, s);
      assert points == [c] + rest;
    }
  }

  lemma {:induction false} Utf8OfPoints(s: seq<byte>)
    requires Points(s).Some?
    ensures var points := Points(s).value;
      Scalars(points) && Utf8(points) == s && (forall i :: 0 <= i < |points| ==> !Control(points[i])) && |s| <= 4 * |points|
    decreases |s|
  {
    if s != [] {
      var p := Next(s).value;
      OctetsOfNext(s);
      Utf8OfPoints(s[p.size..]);
      OneInFront(p.code, Points(s[p.size..]).value, s, p.size);
    }
  }

  lemma OneInFront(c: nat, rest: seq<nat>, s: seq<byte>, n: nat)
    requires Scalar(c) && !Control(c) && Scalars(rest) && (forall i :: 0 <= i < |rest| ==> !Control(rest[i]))
    requires n <= |s| && s[..n] == Octets(c) && s[n..] == Utf8(rest) && |s[n..]| <= 4 * |rest|
    ensures var points := [c] + rest;
      Scalars(points) && (forall i :: 0 <= i < |points| ==> !Control(points[i])) && Utf8(points) == s && |s| <= 4 * |points|
  {
    assert ([c] + rest)[1..] == rest && ([c] + rest)[0] == c;
    assert s == s[..n] + s[n..];
  }

  // ---------- trimming ----------

  function TrimFront(s: seq<byte>): seq<byte> {
    if s != [] && Space(s[0]) then TrimFront(s[1..]) else s
  }

  function TrimBack(s: seq<byte>): seq<byte> {
    if s != [] && Space(s[|s| - 1]) then TrimBack(s[..|s| - 1]) else s
  }

  function Trim(s: seq<byte>): seq<byte> { TrimBack(TrimFront(s)) }

  /** Trimmed bytes begin and end with something else than white space, or are empty. */
  ghost predicate Trimmed(s: seq<byte>) { s != [] ==> !Space(s[0]) && !Space(s[|s| - 1]) }

  lemma {:induction false} TrimFrontDone(s: seq<byte>)
    ensures var t := TrimFront(s); t != [] ==> !Space(t[0])
    decreases |s|
  {
    if s != [] && Space(s[0]) { TrimFrontDone(s[1..]); }
  }

  lemma {:induction false} TrimBackDone(s: seq<byte>)
    ensures var t := TrimBack(s); t <= s && (t != [] ==> !Space(t[|t| - 1]))
    decreases |s|
  {
    if s != [] && Space(s[|s| - 1]) { TrimBackDone(s[..|s| - 1]); }
  }

  lemma TrimDone(s: seq<byte>)
    ensures Trimmed(Trim(s))
  {
    TrimFrontDone(s);
    TrimBackDone(TrimFront(s));
  }

  // ---------- the check ----------

  /** The bytes are those of a name. */
  ghost predicate NameBytes(s: seq<byte>) {
    exists points :: Proper(points) && s == Utf8(points)
  }

  function Accepted(s: seq<byte>): bool { |s| <= MAX_BYTES && Points(s).Some? && |Points(s).value| <= MAX_POINTS }

  /** The byte loop's verdict is exactly the definition of a name. */
  lemma AcceptedExactly(s: seq<byte>)
    ensures Accepted(s) <==> NameBytes(s)
  {
    if Accepted(s) {
      Utf8OfPoints(s);
      assert Proper(Points(s).value);
    }
    if NameBytes(s) {
      var points :| Proper(points) && s == Utf8(points);
      PointsOfUtf8(points);
      Utf8OfPoints(s);
    }
  }

  /** Trims a name and checks it, byte by byte. */
  method Normalize(input: seq<byte>) returns (ok: bool, name: seq<byte>)
    ensures ok <==> NameBytes(Trim(input))
    ensures ok ==> name == Trim(input)
  {
    name := input;
    while name != [] && Space(name[0])
      invariant TrimFront(name) == TrimFront(input)
      decreases |name|
    {
      name := name[1..];
    }
    while name != [] && Space(name[|name| - 1])
      invariant TrimBack(name) == Trim(input)
      decreases |name|
    {
      name := name[..|name| - 1];
    }
    AcceptedExactly(name);
    ok := Check(name);
  }

  /** Counts the code points of what is left after trimming. */
  method Check(name: seq<byte>) returns (ok: bool)
    ensures ok == Accepted(name)
  {
    if |name| > MAX_BYTES {
      return false;
    }
    var count, i := 0, 0;
    assert name[0..] == name;
    while i < |name|
      invariant 0 <= i <= |name| && 0 <= count <= MAX_POINTS
      invariant Counted(name, count, name[i..])
    {
      var p := ReadPoint(name, i);
      CountOn(name, count, i);
      if p.None? {
        return false;
      }
      i, count := i + p.value.size, count + 1;
      CountTells(name, count, name[i..]);
      if count > MAX_POINTS {
        return false;
      }
    }
    CountTells(name, count, name[i..]);
    ok := true;
  }

  /** So many code points have been read, and the rest of the name decides. */
  ghost predicate Counted(name: seq<byte>, count: nat, rest: seq<byte>) {
    && (Points(name).Some? <==> Points(rest).Some?)
    && (Points(name).Some? ==> |Points(name).value| == count + |Points(rest).value|)
  }

  lemma CountTells(name: seq<byte>, count: nat, rest: seq<byte>)
    requires Counted(name, count, rest)
    ensures count > MAX_POINTS ==> !Accepted(name)
    ensures rest == [] && count <= MAX_POINTS && |name| <= MAX_BYTES ==> Accepted(name)
  {
  }

  lemma CountOn(name: seq<byte>, count: nat, i: nat)
    requires i < |name| && Counted(name, count, name[i..])
    ensures var p := Next(name[i..]);
      if p.None? then Points(name).None? else i + p.value.size <= |name| && p.value.size > 0 && Counted(name, count + 1, name[i + p.value.size..])
  {
    var p := Next(name[i..]);
    if p.Some? {
      OctetsOfNext(name[i..]);
      assert name[i..][p.value.size..] == name[i + p.value.size..];
    }
  }

  /** One turn of the byte loop. */
  method ReadPoint(name: seq<byte>, at: nat) returns (p: Option<Point>)
    requires at < |name|
    ensures p == Next(name[at..])
  {
    var first: nat := name[at];
    var code, extra := first, 0;
    if 0xC2 <= first <= 0xDF {
      code, extra := first % 0x20, 1;
    } else if 0xE0 <= first <= 0xEF {
      code, extra := first % 0x10, 2;
    } else if 0xF0 <= first <= 0xF4 {
      code, extra := first % 8, 3;
    } else if first >= 0x80 {
      return None;
    }
    if at + 1 + extra > |name| {
      return None;
    }
    ghost var tail := name[at + 1..at + 1 + extra];
    SliceBehind(name, at, 1, extra);
    var n := 0;
    while n < extra
      invariant 0 <= n <= extra && AllFollow(tail[..n]) && code == Code(Lead(name[at]), tail[..n])
    {
      var next := name[at + 1 + n];
      assert next == tail[n];
      if !Follows(next) {
        assert !AllFollow(tail);
        return None;
      }
      assert tail[..n + 1][..n] == tail[..n];
      code := code * 0x40 + Six(next);
      n := n + 1;
    }
    assert tail[..n] == tail;
    p := Kept(code, 1 + extra, Least(extra));
  }

  /** A name that has been accepted is accepted again, unchanged. */
  lemma NormalizedAgain(input: seq<byte>)
    ensures Trim(Trim(input)) == Trim(input)
  {
    TrimDone(input);
  }
}
