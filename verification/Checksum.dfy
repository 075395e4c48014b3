/** Byte values as 8-bit vectors. */
module OctetCodes {

  lemma ByteOfInt(x: nat)
    requires x < 0x100
    ensures (x as bv8) as int == x
  {
  }

  lemma IntOfByte(a: bv8, b: bv8)
    requires a as int == b as int
    ensures a == b
  {
  }
}

/**
 The reflected CRC-32 that closes every durable record, and what a single damaged
 byte does to it. Shifts per byte are a parameter `n`; `Crc` fixes it to 8.
 */
module Checksum {
  import opened OctetCodes
  import opened Words

  const POLYNOMIAL: bv32 := 0xEDB88320

  /** One shift of the register. */
  function BitStep(c: bv32): bv32 {
    (c >> 1) ^ (if c & 1 == 1 then POLYNOMIAL else 0)
  }

  function BitSteps(c: bv32, n: nat): bv32 {
    if n == 0 then c else BitStep(BitSteps(c, n - 1))
  }

  function Mix(c: bv32, b: bv8): bv32 { c ^ (b as bv32) }

  /** The register after the bytes of `s`, from `c`. */
  function Register(c: bv32, s: seq<bv8>, n: nat): bv32 {
    if s == [] then c else BitSteps(Mix(Register(c, s[..|s| - 1], n), s[|s| - 1]), n)
  }

  /** The inverted register, read as an unsigned word. */
  function Crc(s: seq<byte>): u32 { Value(!Register(0xFFFFFFFF, Octets(s), 8)) }

  function Octets(s: seq<byte>): seq<bv8> { seq(|s|, i requires 0 <= i < |s| => s[i] as bv8) }

  function Part(w: bv32, i: nat): bv8
    requires i < 4
  {
    if i == 0 then (w & 0xFF) as bv8
    else if i == 1 then ((w >> 8) & 0xFF) as bv8
    else if i == 2 then ((w >> 16) & 0xFF) as bv8
    else ((w >> 24) & 0xFF) as bv8
  }

  function Octet(b: bv8): byte { b as int }

  function Value(w: bv32): u32 {
    Weighted(Octet(Part(w, 0)), Octet(Part(w, 1)), Octet(Part(w, 2)), Octet(Part(w, 3)))
  }

  /** The inner loop, over the bits of one byte. */
  method ShiftByte(before: bv32, next: bv8, n: nat) returns (crc: bv32)
    ensures crc == BitSteps(Mix(before, next), n)
  {
    crc := before ^ (next as bv32);
    for bit := 0 to n
      invariant crc == BitSteps(Mix(before, next), bit)
    {
      crc := (crc >> 1) ^ (if crc & 1 == 1 then 0xEDB88320 else 0);
    }
  }

  /** The outer loop, over the bytes. */
  method ShiftBytes(bytes: seq<bv8>, n: nat) returns (crc: bv32)
    ensures crc == Register(0xFFFFFFFF, bytes, n)
  {
    crc := 0xFFFFFFFF;
    for i := 0 to |bytes|
      invariant crc == Register(0xFFFFFFFF, bytes[..i], n)
    {
      crc := ShiftByte(crc, bytes[i], n);
      assert bytes[..i + 1][..i] == bytes[..i];
    }
    assert bytes[..|bytes|] == bytes;
  }

  method ComputeCrc(bytes: seq<byte>) returns (r: u32)
    ensures r == Crc(bytes)
  {
    var crc := ShiftBytes(Octets(bytes), 8);
    r := Value(!crc);
  }

  /** The top bit of the polynomial tells the two cases of a shift apart. */
  lemma BitStepInjective(c: bv32, d: bv32)
    requires BitStep(c) == BitStep(d)
    ensures c == d
  {
  }

  lemma {:induction false} BitStepsInjective(c: bv32, d: bv32, n: nat)
    requires BitSteps(c, n) == BitSteps(d, n)
    ensures c == d
  {
    if n > 0 {
      BitStepInjective(BitSteps(c, n - 1), BitSteps(d, n - 1));
      BitStepsInjective(c, d, n - 1);
    }
  }

  lemma MixInjective(c: bv32, d: bv32, b: bv8)
    requires Mix(c, b) == Mix(d, b)
    ensures c == d
  {
  }

  lemma MixTellsBytes(c: bv32, a: bv8, b: bv8)
    requires Mix(c, a) == Mix(c, b)
    ensures a == b
  {
  }

  lemma SameParts(v: bv32, w: bv32)
    requires Part(v, 0) == Part(w, 0) && Part(v, 1) == Part(w, 1) && Part(v, 2) == Part(w, 2) && Part(v, 3) == Part(w, 3)
    ensures v == w
  {
  }

  lemma WeightedInjective(a: byte, b: byte, c: byte, d: byte, a': byte, b': byte, c': byte, d': byte)
    requires Weighted(a, b, c, d) == Weighted(a', b', c', d')
    ensures a == a' && b == b' && c == c' && d == d'
  {
    Digits(a, b, c, d);
    Digits(a', b', c', d');
  }

  lemma ValueInjective(v: bv32, w: bv32)
    requires Value(v) == Value(w)
    ensures v == w
  {
    WeightedInjective(Octet(Part(v, 0)), Octet(Part(v, 1)), Octet(Part(v, 2)), Octet(Part(v, 3)),
                      Octet(Part(w, 0)), Octet(Part(w, 1)), Octet(Part(w, 2)), Octet(Part(w, 3)));
    IntOfByte(Part(v, 0), Part(w, 0));
    IntOfByte(Part(v, 1), Part(w, 1));
    IntOfByte(Part(v, 2), Part(w, 2));
    IntOfByte(Part(v, 3), Part(w, 3));
    SameParts(v, w);
  }

  /** Each byte maps registers one to one, so a difference survives any common suffix. */
  lemma {:induction false} RegisterInjective(c: bv32, d: bv32, s: seq<bv8>, n: nat)
    requires Register(c, s, n) == Register(d, s, n)
    ensures c == d
  {
    if s != [] {
      var init, last := s[..|s| - 1], s[|s| - 1];
      BitStepsInjective(Mix(Register(c, init, n), last), Mix(Register(d, init, n), last), n);
      MixInjective(Register(c, init, n), Register(d, init, n), last);
      RegisterInjective(c, d, init, n);
    }
  }

  lemma {:induction false} RegisterConcat(c: bv32, s: seq<bv8>, t: seq<bv8>, n: nat)
    ensures Register(c, s + t, n) == Register(Register(c, s, n), t, n)
  {
    if t == [] {
      assert s + t == s;
    } else {
      assert (s + t)[..|s + t| - 1] == s + t[..|t| - 1];
      RegisterConcat(c, s, t[..|t| - 1], n);
    }
  }

  lemma RegisterOne(c: bv32, head: seq<bv8>, b: bv8, n: nat)
    ensures Register(c, head + [b], n) == BitSteps(Mix(Register(c, head, n), b), n)
  {
    assert (head + [b])[..|head|] == head;
  }

  lemma OneByteChangesRegister(c: bv32, s: seq<bv8>, i: nat, b: bv8, n: nat)
    requires i < |s| && b != s[i]
    ensures Register(c, s[i := b], n) != Register(c, s, n)
  {
    var head, tail := s[..i], s[i + 1..];
    assert s == (head + [s[i]]) + tail && s[i := b] == (head + [b]) + tail;
    RegisterConcat(c, head + [s[i]], tail, n);
    RegisterConcat(c, head + [b], tail, n);
    RegisterOne(c, head, s[i], n);
    RegisterOne(c, head, b, n);
    if Register(c, s[i := b], n) == Register(c, s, n) {
      RegisterInjective(Register(c, head + [b], n), Register(c, head + [s[i]], n), tail, n);
      var p := Register(c, head, n);
      BitStepsInjective(Mix(p, b), Mix(p, s[i]), n);
      MixTellsBytes(p, b, s[i]);
    }
  }

  /** Changing exactly one byte changes the checksum, whatever the length. */
  lemma OneByteChangesCrc(s: seq<byte>, i: nat, b: byte)
    requires i < |s| && b != s[i]
    ensures Crc(s[i := b]) != Crc(s)
  {
    ByteOfInt(b);
    ByteOfInt(s[i]);
    assert Octets(s[i := b]) == Octets(s)[i := b as bv8];
    OneByteChangesRegister(0xFFFFFFFF, Octets(s), i, b as bv8, 8);
    var x, y := Register(0xFFFFFFFF, Octets(s[i := b]), 8), Register(0xFFFFFFFF, Octets(s), 8);
    if Value(!x) == Value(!y) {
      ValueInjective(!x, !y);
      InvertInjective(x, y);
    }
  }

  lemma InvertInjective(x: bv32, y: bv32)
    requires !x == !y
    ensures x == y
  {
  }

  lemma KnownSteps(c: bv32)
    requires c == 0xFFFFFFCE
    ensures BitSteps(c, 8) == 0x7C231048
  {
    assert BitSteps(c, 1) == 0x7FFFFFE7;
    assert BitSteps(c, 2) == 0xD2477CD3;
    assert BitSteps(c, 3) == 0x849B3D49;
    assert BitSteps(c, 4) == 0xAFF51D84;
    assert BitSteps(c, 5) == 0x57FA8EC2;
    assert BitSteps(c, 6) == 0x2BFD4761;
    assert BitSteps(c, 7) == 0xF8462090;
    assert BitSteps(c, 8) == 0x7C231048;
  }

  /** The checksum of the text "1", as CRC-32 has it. */
  lemma KnownValue()
    ensures Crc([0x31]) == 0x83DCEFB7
  {
    KnownSteps(0xFFFFFFCE);
    var s := Octets([0x31]);
    assert s == [0x31] && s[..0] == [];
    assert Mix(0xFFFFFFFF, 0x31) == 0xFFFFFFCE;
    assert Register(0xFFFFFFFF, s, 8) == 0x7C231048;
    assert !(0x7C231048 as bv32) == 0x83DCEFB7;
    assert Part(0x83DCEFB7, 0) == 0xB7 && Part(0x83DCEFB7, 1) == 0xEF && Part(0x83DCEFB7, 2) == 0xDC && Part(0x83DCEFB7, 3) == 0x83;
  }
}
