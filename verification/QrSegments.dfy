/**
 Numeric and alphanumeric segments (sections 7.4.3 and 7.4.4 of ISO/IEC 18004:2015):
 characters are packed in groups of digits of one base, and the groups as bit strings.
 */
module QrSegments {
  import opened QrBits
  import opened Wrappers

  datatype Mode = Numeric | Alphanumeric | Byte | Kanji | Eci

  datatype Segment = Segment(mode: Mode, numChars: nat, bitLength: nat)

  const INT16_MAX := 32767
  const CHARSET := "0123456789" + "ABCDEFGHIJKLMNOPQRSTUVWXYZ" + " $%*+-./:"

  /** How characters are packed. */
  datatype Coding = Digits | Letters

  function Base(c: Coding): nat { if c.Digits? then 10 else 45 }

  function Group(c: Coding): nat { if c.Digits? then 3 else 2 }

  /** The bits that hold k characters of a group. */
  function Width(c: Coding, k: nat): nat
    requires k <= Group(c)
  {
    if c.Digits? then (if k == 3 then 10 else 3 * k + 1) else if k == 2 then 11 else 6
  }

  function Value(c: Coding, d: seq<nat>): nat {
    if d == [] then 0 else Value(c, d[..|d| - 1]) * Base(c) + d[|d| - 1]
  }

  ghost predicate InBase(c: Coding, d: seq<nat>) { forall i :: 0 <= i < |d| ==> d[i] < Base(c) }

  function Packed(c: Coding, d: seq<nat>): seq<bool> {
    if d == [] then []
    else if |d| <= Group(c) then ToBits(Value(c, d), Width(c, |d|))
    else ToBits(Value(c, d[..Group(c)]), Width(c, Group(c))) + Packed(c, d[Group(c)..])
  }

  // ---------- lengths ----------

  function BitCount(c: Coding, n: nat): nat {
    if c.Digits? then (n * 10 + 2) / 3 else (n * 11 + 1) / 2
  }

  /** Packing takes exactly the bits the standard counts. */
  lemma {:induction false} PackedLength(c: Coding, d: seq<nat>)
    ensures |Packed(c, d)| == BitCount(c, |d|)
    decreases |d|
  {
    if |d| > Group(c) { PackedLength(c, d[Group(c)..]); }
  }

  function CalcSegmentBitLength(mode: Mode, numChars: nat): int
    requires numChars <= INT16_MAX && mode.Eci? ==> numChars == 0
  {
    if numChars > INT16_MAX then -1
    else
      var result := match mode
        case Numeric => (numChars * 10 + 2) / 3
        case Alphanumeric => (numChars * 11 + 1) / 2
        case Byte => numChars * 8
        case Kanji => numChars * 13
        case Eci => 24;
      if result > INT16_MAX then -1 else result
  }

  function ModeOf(c: Coding): Mode { if c.Digits? then Numeric else Alphanumeric }

  /** The length is refused exactly when the packed text would be longer than the field allows. */
  lemma LengthExact(c: Coding, d: seq<nat>)
    ensures var r := CalcSegmentBitLength(ModeOf(c), |d|);
      if |Packed(c, d)| <= INT16_MAX then r == |Packed(c, d)| else r == -1
  {
    PackedLength(c, d);
  }

  // ---------- unpacking ----------

  /** The last k digits of v. */
  function DigitsOf(c: Coding, v: nat, k: nat): seq<nat> {
    if k == 0 then [] else DigitsOf(c, v / Base(c), k - 1) + [v % Base(c)]
  }

  /** Reads n characters back. */
  function Unpacked(c: Coding, n: nat, bits: seq<bool>): seq<nat>
    requires |bits| == BitCount(c, n)
  {
    if n <= Group(c) then DigitsOf(c, FromBits(bits), n)
    else
      var w := Width(c, Group(c));
      DigitsOf(c, FromBits(bits[..w]), Group(c)) + Unpacked(c, n - Group(c), bits[w..])
  }

  lemma {:induction false} DigitsOfValue(c: Coding, d: seq<nat>)
    requires InBase(c, d)
    ensures DigitsOf(c, Value(c, d), |d|) == d
    decreases |d|
  {
    if d != [] {
      var v, x := Value(c, d[..|d| - 1]), d[|d| - 1];
      Quotient(v, Base(c), x);
      Remainder(v, Base(c), x);
      DigitsOfValue(c, d[..|d| - 1]);
    }
  }

  lemma Remainder(q: nat, d: nat, r: nat)
    requires r < d
    ensures (q * d + r) % d == r
  {
    Quotient(q, d, r);
  }

  /** A group fits its bits. */
  lemma GroupFits(c: Coding, d: seq<nat>)
    requires InBase(c, d) && |d| <= Group(c)
    ensures Value(c, d) < Pow2(Width(c, |d|))
  {
    Powers();
    if |d| > 0 { ValueStep(c, d); }
    if |d| > 1 { ValueStep(c, d[..|d| - 1]); }
    if |d| > 2 { ValueStep(c, d[..|d| - 1][..|d| - 2]); }
  }

  lemma ValueStep(c: Coding, d: seq<nat>)
    requires InBase(c, d) && d != []
    ensures InBase(c, d[..|d| - 1]) && Value(c, d) <= Value(c, d[..|d| - 1]) * Base(c) + Base(c) - 1
  {
  }

  lemma Powers()
    ensures Pow2(1) == 2 && Pow2(4) == 16 && Pow2(6) == 64 && Pow2(7) == 128 && Pow2(10) == 1024 && Pow2(11) == 2048
  {
  }

  lemma GroupBack(c: Coding, d: seq<nat>)
    requires InBase(c, d) && |d| <= Group(c)
    ensures DigitsOf(c, FromBits(ToBits(Value(c, d), Width(c, |d|))), |d|) == d
  {
    GroupFits(c, d);
    FromToBits(Value(c, d), Width(c, |d|));
    DigitsOfValue(c, d);
  }

  /** Unpacking undoes packing, for any length. */
  lemma {:induction false} UnpackedPacked(c: Coding, d: seq<nat>)
    requires InBase(c, d)
    ensures |Packed(c, d)| == BitCount(c, |d|) && Unpacked(c, |d|, Packed(c, d)) == d
    decreases |d|
  {
    PackedLength(c, d);
    if |d| > Group(c) {
      var g, w := Group(c), Width(c, Group(c));
      GroupBack(c, d[..g]);
      UnpackedPacked(c, d[g..]);
      GroupSplit(c, d);
      assert d == d[..g] + d[g..];
    } else if d != [] {
      GroupBack(c, d);
    }
  }

  lemma GroupSplit(c: Coding, d: seq<nat>)
    requires |d| > Group(c)
    ensures var g, w := Group(c), Width(c, Group(c));
      && |Packed(c, d)| >= w && Packed(c, d)[..w] == ToBits(Value(c, d[..g]), w)
      && Packed(c, d)[w..] == Packed(c, d[g..])
  {
  }

  // ---------- texts ----------

  function Find(set_: string, ch: char): (i: nat)
    ensures i <= |set_| && (i < |set_| ==> set_[i] == ch)
  {
    if set_ == "" || set_[0] == ch then 0 else 1 + Find(set_[1..], ch)
  }

  predicate InSet(c: Coding, ch: char) { if c.Digits? then '0' <= ch <= '9' else Find(CHARSET, ch) < |CHARSET| }

  function ValueOf(c: Coding, ch: char): (v: nat)
    requires InSet(c, ch)
    ensures v < Base(c)
  {
    if c.Digits? then ch as int - '0' as int else Find(CHARSET, ch)
  }

  function CharOf(c: Coding, v: nat): char
    requires v < Base(c)
  {
    if c.Digits? then '0' + v as char else CHARSET[v]
  }

  predicate Encodable(c: Coding, text: string) { forall i :: 0 <= i < |text| ==> InSet(c, text[i]) }

  function Values(c: Coding, text: string): (d: seq<nat>)
    requires Encodable(c, text)
    ensures |d| == |text| && InBase(c, d)
  {
    seq(|text|, i requires 0 <= i < |text| => ValueOf(c, text[i]))
  }

  /** What a reader of the segment makes of its bits. */
  function Read(c: Coding, n: nat, bits: seq<bool>): string
    requires |bits| == BitCount(c, n) && InBase(c, Unpacked(c, n, bits))
  {
    var d := Unpacked(c, n, bits);
    seq(|d|, i requires 0 <= i < |d| => CharOf(c, d[i]))
  }

  /** Every text reads back from its bits. */
  lemma TextReadsBack(c: Coding, text: string)
    requires Encodable(c, text)
    ensures var bits := Packed(c, Values(c, text));
      |bits| == BitCount(c, |text|) && Unpacked(c, |text|, bits) == Values(c, text) && Read(c, |text|, bits) == text
  {
    UnpackedPacked(c, Values(c, text));
    forall i | 0 <= i < |text| ensures CharOf(c, ValueOf(c, text[i])) == text[i] {
    }
  }

  // ---------- what the standard prescribes ----------

  /** Digits are packed by threes into ten bits; a rest of two takes seven, of one four. */
  lemma DigitGroups(a: nat, b: nat, c: nat, rest: seq<nat>)
    ensures Packed(Digits, [a, b, c] + rest) == ToBits(100 * a + 10 * b + c, 10) + Packed(Digits, rest)
    ensures Packed(Digits, [a, b]) == ToBits(10 * a + b, 7) && Packed(Digits, [a]) == ToBits(a, 4) && Packed(Digits, []) == []
  {
    ValuesOfThree(Digits, a, b, c);
    FirstGroup(Digits, [a, b, c], rest);
  }

  /** Letters are packed by twos into eleven bits; a rest of one takes six. */
  lemma LetterGroups(a: nat, b: nat, rest: seq<nat>)
    ensures Packed(Letters, [a, b] + rest) == ToBits(45 * a + b, 11) + Packed(Letters, rest)
    ensures Packed(Letters, [a]) == ToBits(a, 6) && Packed(Letters, []) == []
  {
    ValuesOfThree(Letters, a, b, 0);
    FirstGroup(Letters, [a, b], rest);
  }

  lemma ValuesOfThree(m: Coding, a: nat, b: nat, c: nat)
    ensures Value(m, [a]) == a && Value(m, [a, b]) == a * Base(m) + b && Value(m, [a, b, c]) == (a * Base(m) + b) * Base(m) + c
  {
    assert [a][..0] == [] && [a, b][..1] == [a] && [a, b, c][..2] == [a, b];
  }

  /** The value of a character in table 5 of the standard. */
  function TableValue(ch: char): Option<nat> {
    if '0' <= ch <= '9' then Some(ch as int - '0' as int)
    else if 'A' <= ch <= 'Z' then Some(ch as int - 'A' as int + 10)
    else match ch
      case ' ' => Some(36)
      case '$' => Some(37)
      case '%' => Some(38)
      case '*' => Some(39)
      case '+' => Some(40)
      case '-' => Some(41)
      case '.' => Some(42)
      case '/' => Some(43)
      case ':' => Some(44)
      case _ => None
  }

  /** Consecutive characters. */
  function Alphabet(from: char, n: nat): string
    requires from as int + n < 128
  {
    seq(n, i requires 0 <= i < n => (from as int + i) as char)
  }

  lemma SetParts()
    ensures CHARSET == Alphabet('0', 10) + Alphabet('A', 26) + " $%*+-./:"
  {
    assert Alphabet('0', 10) == "0123456789";
    assert Alphabet('A', 26) == "ABCDEFGHIJKLMNOPQRSTUVWXYZ";
  }

  lemma MarkAt(i: nat)
    requires i < 9
    ensures TableValue(" $%*+-./:"[i]) == Some(36 + i)
  {
    assert i == 0 || i == 1 || i == 2 || i == 3 || i == 4 || i == 5 || i == 6 || i == 7 || i == 8;
  }

  lemma TableOfSet(i: nat)
    requires i < 45
    ensures TableValue(CHARSET[i]) == Some(i)
  {
    SetParts();
    if i >= 36 {
      MarkAt(i - 36);
    }
  }

  lemma SetOfTable(ch: char)
    requires TableValue(ch).Some?
    ensures TableValue(ch).value < 45 && CHARSET[TableValue(ch).value] == ch
  {
    SetParts();
    var v := TableValue(ch).value;
    if v >= 36 {
      assert CHARSET[v] == " $%*+-./:"[v - 36] == ch;
    }
  }

  lemma {:induction false} FindReaches(set_: string, ch: char, i: nat)
    requires i < |set_| && set_[i] == ch
    ensures Find(set_, ch) < |set_|
  {
    if set_[0] != ch {
      FindReaches(set_[1..], ch, i - 1);
    }
  }

  /** The alphanumeric characters and their values are those of the table. */
  lemma TableExactly(ch: char)
    ensures InSet(Letters, ch) <==> TableValue(ch).Some?
    ensures InSet(Letters, ch) ==> TableValue(ch) == Some(ValueOf(Letters, ch))
  {
    if TableValue(ch).Some? {
      SetOfTable(ch);
      FindReaches(CHARSET, ch, TableValue(ch).value);
    }
    if Find(CHARSET, ch) < |CHARSET| {
      TableOfSet(Find(CHARSET, ch));
    }
  }

  // ---------- the packing loops ----------

  /** A whole number of groups. */
  predicate Aligned(c: Coding, n: int) { if c.Digits? then n % 3 == 0 else n % 2 == 0 }

  lemma {:induction false} PackedJoin(c: Coding, a: seq<nat>, b: seq<nat>)
    requires Aligned(c, |a|)
    ensures Packed(c, a + b) == Packed(c, a) + Packed(c, b)
    decreases |a|
  {
    var g := Group(c);
    if a == [] {
      assert a + b == b;
    } else if |a| == g {
      FirstGroup(c, a, b);
    } else {
      GroupsJoin(a, b, g);
      PackedJoin(c, a[g..], b);
    }
  }

  lemma FirstGroup(c: Coding, a: seq<nat>, b: seq<nat>)
    requires |a| == Group(c)
    ensures Packed(c, a + b) == Packed(c, a) + Packed(c, b)
  {
    assert (a + b)[..Group(c)] == a && (a + b)[Group(c)..] == b;
    if b == [] { assert a + b == a; }
  }

  lemma GroupsJoin(a: seq<nat>, b: seq<nat>, g: nat)
    requires g <= |a|
    ensures (a + b)[..g] == a[..g] && (a + b)[g..] == a[g..] + b
  {
  }

  /** After i characters, those before `from` are written and the rest are in the group. */
  ghost predicate Reached(c: Coding, d: seq<nat>, i: nat, from: int, done: seq<bool>, accum: nat) {
    && 0 <= from <= i <= |d| && i - from < Group(c) && Aligned(c, from)
    && done == Packed(c, d[..from]) && accum == Value(c, d[from..i])
  }

  /** The group's value after one more character. */
  lemma Accumulate(c: Coding, d: seq<nat>, i: nat, from: nat, done: seq<bool>, accum: nat)
    requires Reached(c, d, i, from, done, accum) && i < |d| && InBase(c, d)
    ensures var next := accum * Base(c) + d[i];
      next == Value(c, d[from..i + 1]) && next < Pow2(Width(c, i + 1 - from))
  {
    NextValue(c, d, i, from);
    GroupFits(c, d[from..i + 1]);
  }

  lemma NextValue(c: Coding, d: seq<nat>, i: nat, from: nat)
    requires from <= i < |d|
    ensures Value(c, d[from..i]) * Base(c) + d[i] == Value(c, d[from..i + 1])
  {
    var part := d[from..i + 1];
    assert part[..i - from] == d[from..i];
  }

  lemma FullGroup(c: Coding, d: seq<nat>, i: nat, from: nat)
    requires i <= |d| && from + Group(c) == i && Aligned(c, from)
    ensures Packed(c, d[..i]) == Packed(c, d[..from]) + ToBits(Value(c, d[from..i]), Width(c, Group(c)))
  {
    PackedJoin(c, d[..from], d[from..i]);
    Pieces(d, from, i);
  }

  lemma Pieces(d: seq<nat>, from: nat, i: nat)
    requires from <= i <= |d|
    ensures d[..from] + d[from..i] == d[..i] && d[from..i] + d[i..] == d[from..] && d[..i] + d[i..] == d
  {
  }

  lemma NewGroup(c: Coding, d: seq<nat>, i: nat, done: seq<bool>)
    requires i <= |d| && Aligned(c, i) && done == Packed(c, d[..i])
    ensures Reached(c, d, i, i, done, 0)
  {
    assert d[i..i] == [];
  }

  lemma Finish(c: Coding, d: seq<nat>, from: nat, done: seq<bool>, accum: nat)
    requires Reached(c, d, |d|, from, done, accum) && InBase(c, d)
    ensures from == |d| ==> done == Packed(c, d)
    ensures from < |d| ==> accum < Pow2(Width(c, |d| - from)) && done + ToBits(accum, Width(c, |d| - from)) == Packed(c, d)
  {
    Pieces(d, from, |d|);
    assert d[..|d|] == d && d[from..|d|] == d[from..];
    if from < |d| {
      GroupFits(c, d[from..]);
      PackedJoin(c, d[..from], d[from..]);
    }
  }

  /** How many bits are in place never exceeds the whole. */
  lemma Room(c: Coding, d: seq<nat>, from: nat, k: nat)
    requires from + k <= |d| && k < Group(c) && Aligned(c, from)
    ensures |Packed(c, d[..from])| == BitCount(c, from) <= BitCount(c, |d|)
    ensures k > 0 ==> BitCount(c, from) + Width(c, k) == BitCount(c, from + k) <= BitCount(c, |d|)
  {
    PackedLength(c, d[..from]);
    Counts(c, from, k);
  }

  lemma Counts(c: Coding, n: nat, k: nat)
    requires Aligned(c, n) && k < Group(c)
    ensures k > 0 ==> BitCount(c, n) + Width(c, k) == BitCount(c, n + k)
  {
    if c.Digits? { DigitCounts(n / 3); } else { LetterCounts(n / 2); }
  }

  lemma DigitCounts(m: nat)
    ensures (3 * m * 10 + 2) / 3 == 10 * m
    ensures (3 * m + 1) * 10 + 2 == 3 * (10 * m + 4) && (3 * m + 2) * 10 + 2 == 3 * (10 * m + 7) + 1
  {
  }

  lemma LetterCounts(m: nat)
    ensures (2 * m * 11 + 1) / 2 == 11 * m
    ensures (2 * m + 1) * 11 + 1 == 2 * (11 * m + 6)
  {
  }

  /** This many bits are in place, and the rest of the bytes set apart is clear. */
  ghost predicate Holds(buf: seq<bv8>, bitLen: nat, bytes: nat) {
    bitLen <= 8 * bytes && bytes <= |buf| && Clear(buf, bitLen, 8 * bytes)
  }

  /** The bytes that are cleared first. */
  function Bytes(c: Coding, n: nat): nat { (BitCount(c, n) + 7) / 8 }

  ghost predicate Same(buf: seq<bv8>, was: seq<bv8>, n: nat) {
    |buf| == |was| && forall k :: n <= k < |buf| ==> buf[k] == was[k]
  }

  /** Appends within the bytes set apart. */
  method AppendWithin(val: nat, numBits: nat, buf: array<bv8>, bitLen: nat, ghost bytes: nat, ghost was: seq<bv8>) returns (newLen: nat)
    requires numBits <= 16 && val < Pow2(numBits) && bitLen + numBits <= 8 * bytes
    requires Holds(buf[..], bitLen, bytes) && Same(buf[..], was, bytes)
    modifies buf
    ensures newLen == bitLen + numBits && Holds(buf[..], newLen, bytes) && Same(buf[..], was, bytes)
    ensures Bits(buf[..], newLen) == old(Bits(buf[..], bitLen)) + ToBits(val, numBits)
  {
    newLen := AppendBits(val, numBits, buf, bitLen);
  }

  /** Where a writer stands after i characters, the last `count` of them in the group. */
  ghost predicate Progress(c: Coding, d: seq<nat>, i: nat, buf: seq<bv8>, was: seq<bv8>, accum: nat, count: nat, bitLen: nat) {
    && Holds(buf, bitLen, Bytes(c, |d|)) && Reached(c, d, i, i - count, Bits(buf, bitLen), accum)
    && Same(buf, was, Bytes(c, |d|))
  }

  /** Takes one character into the group, and writes out a group that is full. */
  method TakeIn(c: Coding, x: nat, buf: array<bv8>, accum: nat, count: nat, bitLen: nat,
      ghost d: seq<nat>, ghost i: nat, ghost was: seq<bv8>)
    returns (accum': nat, count': nat, bitLen': nat)
    requires InBase(c, d) && i < |d| && x == d[i] && Progress(c, d, i, buf[..], was, accum, count, bitLen)
    modifies buf
    ensures Progress(c, d, i + 1, buf[..], was, accum', count', bitLen')
  {
    Accumulate(c, d, i, i - count, Bits(buf[..], bitLen), accum);
    accum', count', bitLen' := accum * Base(c) + x, count + 1, bitLen;
    if count' == Group(c) {
      bitLen' := WriteGroup(c, accum', buf, bitLen, d, i + 1, was);
      accum', count' := 0, 0;
    }
  }

  method WriteGroup(c: Coding, value: nat, buf: array<bv8>, bitLen: nat, ghost d: seq<nat>, ghost i: nat, ghost was: seq<bv8>)
    returns (bitLen': nat)
    requires Group(c) <= i <= |d| && Aligned(c, i - Group(c)) && value == Value(c, d[i - Group(c)..i]) < Pow2(Width(c, Group(c)))
    requires Holds(buf[..], bitLen, Bytes(c, |d|)) && Same(buf[..], was, Bytes(c, |d|))
    requires Bits(buf[..], bitLen) == Packed(c, d[..i - Group(c)])
    modifies buf
    ensures Progress(c, d, i, buf[..], was, 0, 0, bitLen')
  {
    GroupWritten(c, d, i, i - Group(c), Bits(buf[..], bitLen), value);
    bitLen' := AppendWithin(value, Width(c, Group(c)), buf, bitLen, Bytes(c, |d|), was);
  }

  lemma GroupWritten(c: Coding, d: seq<nat>, i: nat, from: nat, done: seq<bool>, value: nat)
    requires from + Group(c) == i <= |d| && Aligned(c, from) && done == Packed(c, d[..from]) && value == Value(c, d[from..i])
    ensures |done| + Width(c, Group(c)) <= 8 * Bytes(c, |d|)
    ensures Reached(c, d, i, i, done + ToBits(value, Width(c, Group(c))), 0)
  {
    var all := Packed(c, d[..i]);
    AllWritten(c, d, i, all);
    FullGroup(c, d, i, from);
    assert all == done + ToBits(value, Width(c, Group(c)));
  }

  lemma AllWritten(c: Coding, d: seq<nat>, i: nat, all: seq<bool>)
    requires i <= |d| && Aligned(c, i) && all == Packed(c, d[..i])
    ensures |all| <= 8 * Bytes(c, |d|) && Reached(c, d, i, i, all, 0)
  {
    NewGroup(c, d, i, all);
    Room(c, d, i, 0);
  }

  /** Writes out what is left in the group. */
  method WriteRest(c: Coding, buf: array<bv8>, accum: nat, count: nat, bitLen: nat, ghost d: seq<nat>, ghost was: seq<bv8>)
    returns (bitLen': nat)
    requires InBase(c, d) && Progress(c, d, |d|, buf[..], was, accum, count, bitLen)
    modifies buf
    ensures bitLen' == BitCount(c, |d|) && Holds(buf[..], bitLen', Bytes(c, |d|)) && Bits(buf[..], bitLen') == Packed(c, d)
    ensures Same(buf[..], was, Bytes(c, |d|))
  {
    Finish(c, d, |d| - count, Bits(buf[..], bitLen), accum);
    PackedLength(c, d);
    bitLen' := bitLen;
    if count > 0 {
      Room(c, d, |d| - count, count);
      bitLen' := AppendWithin(accum, Width(c, count), buf, bitLen, Bytes(c, |d|), was);
    }
  }

  /** What either writer leaves: the packed text, the rest of its last byte clear, later bytes as they were. */
  ghost predicate Written(c: Coding, text: string, seg: Segment, buf: seq<bv8>, was: seq<bv8>)
    requires Encodable(c, text)
  {
    var n := (BitCount(c, |text|) + 7) / 8;
    && seg == Segment(ModeOf(c), |text|, BitCount(c, |text|))
    && |buf| == |was| && n <= |buf| && buf[n..] == was[n..]
    && Bits(buf, seg.bitLength) == Packed(c, Values(c, text)) && Clear(buf, seg.bitLength, 8 * n)
  }

  lemma Started(c: Coding, d: seq<nat>, buf: seq<bv8>, was: seq<bv8>)
    requires BitCount(c, |d|) <= 8 * |buf| && |buf| == |was| && Clear(buf, 0, 8 * Bytes(c, |d|))
    requires buf[Bytes(c, |d|)..] == was[Bytes(c, |d|)..]
    ensures Progress(c, d, 0, buf, was, 0, 0, 0)
  {
    var n := Bytes(c, |d|);
    assert d[..0] == [];
    NewGroup(c, d, 0, []);
    assert Bits(buf, 0) == [];
    forall k | n <= k < |buf| ensures buf[k] == was[k] {
      assert buf[k] == buf[n..][k - n] && was[k] == was[n..][k - n];
    }
  }

  lemma Finished(c: Coding, text: string, buf: seq<bv8>, was: seq<bv8>, bitLen: nat)
    requires Encodable(c, text) && bitLen == BitCount(c, |text|) && Holds(buf, bitLen, Bytes(c, |text|)) && |buf| == |was|
    requires Bits(buf, bitLen) == Packed(c, Values(c, text))
    requires Same(buf, was, Bytes(c, |text|))
    ensures Written(c, text, Segment(ModeOf(c), |text|, bitLen), buf, was)
  {
  }

  method MakeNumeric(digits: string, buf: array<bv8>) returns (result: Segment)
    requires Encodable(Digits, digits) && CalcSegmentBitLength(Numeric, |digits|) != -1
    requires BitCount(Digits, |digits|) <= 8 * buf.Length
    modifies buf
    ensures Written(Digits, digits, result, buf[..], old(buf[..]))
  {
    ghost var was := buf[..];
    var length := CalcSegmentBitLength(Numeric, |digits|);
    ClearBytes(buf, (length + 7) / 8);
    ghost var d := Values(Digits, digits);
    var accum, count, bitLen := 0, 0, 0;
    Started(Digits, d, buf[..], was);
    var i := 0;
    while i < |digits|
      invariant 0 <= i <= |digits|
      invariant Progress(Digits, d, i, buf[..], was, accum, count, bitLen)
    {
      accum, count, bitLen := TakeIn(Digits, digits[i] as int - '0' as int, buf, accum, count, bitLen, d, i, was);
      i := i + 1;
    }
    bitLen := WriteRest(Digits, buf, accum, count, bitLen, d, was);
    result := Segment(Numeric, |digits|, bitLen);
    Finished(Digits, digits, buf[..], was, bitLen);
  }

  method LetterIndex(ch: char) returns (i: nat)
    requires InSet(Letters, ch)
    ensures i == ValueOf(Letters, ch)
  {
    i := IndexOf(CHARSET, ch);
  }

  lemma ValueAt(c: Coding, text: string, i: nat)
    requires Encodable(c, text) && i < |text|
    ensures InSet(c, text[i]) && Values(c, text)[i] == ValueOf(c, text[i])
  {
  }

  method MakeAlphanumeric(text: string, buf: array<bv8>) returns (result: Segment)
    requires Encodable(Letters, text) && CalcSegmentBitLength(Alphanumeric, |text|) != -1
    requires BitCount(Letters, |text|) <= 8 * buf.Length
    modifies buf
    ensures Written(Letters, text, result, buf[..], old(buf[..]))
  {
    ghost var was := buf[..];
    var length := CalcSegmentBitLength(Alphanumeric, |text|);
    ClearBytes(buf, (length + 7) / 8);
    ghost var d := Values(Letters, text);
    var accum, count, bitLen := 0, 0, 0;
    Started(Letters, d, buf[..], was);
    var i := 0;
    while i < |text|
      invariant 0 <= i <= |text|
      invariant Progress(Letters, d, i, buf[..], was, accum, count, bitLen)
    {
      var index := LetterIndex(text[i]);
      ValueAt(Letters, text, i);
      assert index == d[i];
      accum, count, bitLen := TakeIn(Letters, index, buf, accum, count, bitLen, d, i, was);
      i := i + 1;
    }
    bitLen := WriteRest(Letters, buf, accum, count, bitLen, d, was);
    result := Segment(Alphanumeric, |text|, bitLen);
    Finished(Letters, text, buf[..], was, bitLen);
  }

  /** The first place of a character. */
  method IndexOf(s: string, ch: char) returns (i: nat)
    ensures i == Find(s, ch)
  {
    i := 0;
    assert s[0..] == s;
    while i < |s| && s[i] != ch
      invariant 0 <= i <= |s| && Find(s, ch) == i + Find(s[i..], ch)
    {
      assert s[i..][1..] == s[i + 1..];
      i := i + 1;
    }
  }
}
