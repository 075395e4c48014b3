/** Bit strings written into a byte buffer, most significant bit first. */
module QrBits {

  function Pow2(n: nat): (p: nat)
    ensures p > 0
  {
    if n == 0 then 1 else 2 * Pow2(n - 1)
  }

  /** The low n bits of v. */
  function ToBits(v: nat, n: nat): seq<bool> {
    seq(n, k requires 0 <= k < n => BitOf(v, n - 1 - k))
  }

  predicate BitOf(v: nat, i: nat) { (v / Pow2(i)) % 2 == 1 }

  function FromBits(bits: seq<bool>): nat {
    if bits == [] then 0 else 2 * FromBits(bits[..|bits| - 1]) + if bits[|bits| - 1] then 1 else 0
  }

  lemma Halved(v: nat, p: nat)
    requires p > 0
    ensures v / (2 * p) == (v / 2) / p
  {
    var q := (v / 2) / p;
    var r := (v / 2) % p;
    assert v / 2 == q * p + r;
    assert v == q * (2 * p) + (2 * r + v % 2);
    Quotient(q, 2 * p, 2 * r + v % 2);
  }

  lemma Quotient(q: nat, d: nat, r: nat)
    requires r < d
    ensures (q * d + r) / d == q
  {
    var x := (q * d + r) / d;
    assert x * d <= q * d + r < (x + 1) * d;
    StepUp(x, q, d);
    StepUp(q, x, d);
  }

  lemma StepUp(a: nat, b: nat, d: nat)
    ensures a < b ==> (a + 1) * d <= b * d
  {
  }

  lemma HalfBit(v: nat, i: nat)
    ensures BitOf(v, i + 1) == BitOf(v / 2, i)
  {
    Halved(v, Pow2(i));
  }

  lemma LastBit(v: nat)
    ensures BitOf(v, 0) == (v % 2 == 1)
  {
  }

  lemma ToBitsAt(v: nat, n: nat, k: nat)
    requires k < n
    ensures ToBits(v, n)[k] == BitOf(v, n - 1 - k)
  {
  }

  lemma ToBitsLast(v: nat, n: nat)
    requires n > 0
    ensures ToBits(v, n) == ToBits(v / 2, n - 1) + [v % 2 == 1]
  {
    var a, b := ToBits(v, n), ToBits(v / 2, n - 1) + [v % 2 == 1];
    forall k | 0 <= k < n ensures a[k] == b[k] {
      if k < n - 1 {
        ToBitsAt(v / 2, n - 1, k);
        HalfBit(v, n - 2 - k);
      } else {
        LastBit(v);
      }
    }
  }

  lemma {:induction false} FromToBits(v: nat, n: nat)
    requires v < Pow2(n)
    ensures FromBits(ToBits(v, n)) == v
  {
    if n > 0 {
      ToBitsLast(v, n);
      FromToBits(v / 2, n - 1);
      var bits := ToBits(v, n);
      assert bits[..n - 1] == ToBits(v / 2, n - 1);
    }
  }

  // ---------- bits of bytes ----------

  /** How far the bit j of a byte lies from its end. */
  function Place(j: nat): bv4
    requires j < 8
  {
    (7 - j) as bv4
  }

  predicate OctetBit(b: bv8, j: nat)
    requires j < 8
  {
    LowBit(b, Place(j))
  }

  predicate LowBit(b: bv8, i: bv4) { i <= 8 && (b >> i) & 1 == 1 }

  function OrAt(b: bv8, i: bv4, v: bool): bv8 { if i <= 8 then b | ((if v then 1 else 0 as bv8) << i) else b }

  function OrBit(b: bv8, j: nat, v: bool): bv8
    requires j < 8
  {
    OrAt(b, Place(j), v)
  }

  lemma PlaceValue(j: nat)
    requires j < 8
    ensures Place(j) as nat == 7 - j && Place(j) < 8
  {
  }

  lemma OrAtBits(b: bv8, i: bv4, v: bool, k: bv4)
    requires i < 8 && k < 8
    ensures LowBit(OrAt(b, i, v), k) <==> LowBit(b, k) || (k == i && v)
  {
  }

  lemma OrBitBits(b: bv8, j: nat, v: bool, k: nat)
    requires j < 8 && k < 8
    ensures OctetBit(OrBit(b, j, v), k) <==> OctetBit(b, k) || (k == j && v)
  {
    PlaceValue(j);
    PlaceValue(k);
    OrAtBits(b, Place(j), v, Place(k));
  }

  lemma ZeroBit(j: nat)
    requires j < 8
    ensures !OctetBit(0, j)
  {
  }

  predicate BitAt(s: seq<bv8>, p: nat)
    requires p < 8 * |s|
  {
    OctetBit(s[p / 8], p % 8)
  }

  function Bits(s: seq<bv8>, n: nat): seq<bool>
    requires n <= 8 * |s|
  {
    seq(n, p requires 0 <= p < n => BitAt(s, p))
  }

  ghost predicate Clear(s: seq<bv8>, from: nat, to: nat)
    requires to <= 8 * |s|
  {
    forall p :: from <= p < to ==> !BitAt(s, p)
  }

  /** t is s with v put into the bit at p. */
  ghost predicate Changed(s: seq<bv8>, t: seq<bv8>, p: nat, v: bool)
    requires p < 8 * |s|
  {
    |t| == |s| && forall q :: 0 <= q < 8 * |s| ==> BitAt(t, q) == (BitAt(s, q) || (q == p && v))
  }

  lemma OneBit(s: seq<bv8>, p: nat, v: bool)
    requires p < 8 * |s|
    ensures Changed(s, s[p / 8 := OrBit(s[p / 8], p % 8, v)], p, v)
  {
    var t := s[p / 8 := OrBit(s[p / 8], p % 8, v)];
    forall q | 0 <= q < 8 * |s| ensures BitAt(t, q) == (BitAt(s, q) || (q == p && v)) {
      if q / 8 == p / 8 {
        OrBitBits(s[p / 8], p % 8, v, q % 8);
        assert q == 8 * (q / 8) + q % 8 && p == 8 * (p / 8) + p % 8;
      }
    }
  }

  /** t is s with the first bits of a value, up to the position `to`, put in from the position `from` on. */
  ghost predicate PutIn(s: seq<bv8>, t: seq<bv8>, val: nat, numBits: nat, from: nat, to: nat)
    requires from <= to <= from + numBits <= 8 * |s|
  {
    |t| == |s| && forall p :: 0 <= p < 8 * |s| ==> BitAt(t, p) == (BitAt(s, p) || (from <= p < to && BitOf(val, numBits - 1 - (p - from))))
  }

  lemma PutOneMore(s: seq<bv8>, t: seq<bv8>, u: seq<bv8>, val: nat, numBits: nat, from: nat, to: nat)
    requires from <= to < from + numBits <= 8 * |s|
    requires PutIn(s, t, val, numBits, from, to) && Changed(t, u, to, BitOf(val, numBits - 1 - (to - from)))
    ensures PutIn(s, u, val, numBits, from, to + 1)
  {
  }

  /** Where the next bits were clear, the value is appended. */
  lemma Appended(s: seq<bv8>, t: seq<bv8>, val: nat, numBits: nat, from: nat)
    requires from + numBits <= 8 * |s| && PutIn(s, t, val, numBits, from, from + numBits) && Clear(s, from, from + numBits)
    ensures Bits(t, from + numBits) == Bits(s, from) + ToBits(val, numBits)
  {
    var a, b := Bits(t, from + numBits), Bits(s, from) + ToBits(val, numBits);
    forall p | 0 <= p < from + numBits ensures a[p] == b[p] {
      if p >= from {
        ToBitsAt(val, numBits, p - from);
      }
    }
  }

  /** Puts the low bits of a value, high bit first, over the next bits of a buffer; where those are clear, this appends them. */
  method AppendBits(val: nat, numBits: nat, buffer: array<bv8>, bitLen: nat) returns (newLen: nat)
    requires numBits <= 16 && val < Pow2(numBits) && bitLen + numBits <= 8 * buffer.Length
    modifies buffer
    ensures newLen == bitLen + numBits && PutIn(old(buffer[..]), buffer[..], val, numBits, bitLen, newLen)
    ensures old(Clear(buffer[..], bitLen, bitLen + numBits)) ==>
              Bits(buffer[..], newLen) == old(Bits(buffer[..], bitLen)) + ToBits(val, numBits)
    ensures forall k :: (newLen + 7) / 8 <= k < buffer.Length ==> buffer[k] == old(buffer[k])
  {
    newLen := bitLen;
    ghost var was := buffer[..];
    var i := numBits;
    while i > 0
      invariant 0 <= i <= numBits && newLen == bitLen + numBits - i
      invariant PutIn(was, buffer[..], val, numBits, bitLen, newLen)
      invariant forall k :: (newLen + 7) / 8 <= k < buffer.Length ==> buffer[k] == was[k]
    {
      i := i - 1;
      var v := BitOf(val, i);
      ghost var s := buffer[..];
      OneBit(s, newLen, v);
      buffer[newLen / 8] := OrBit(buffer[newLen / 8], newLen % 8, v);
      assert buffer[..] == s[newLen / 8 := OrBit(s[newLen / 8], newLen % 8, v)];
      PutOneMore(was, s, buffer[..], val, numBits, bitLen, newLen);
      newLen := newLen + 1;
    }
    if Clear(was, bitLen, newLen) {
      Appended(was, buffer[..], val, numBits, bitLen);
    }
  }

  /** Zeroes the first bytes of a buffer. */
  method ClearBytes(buffer: array<bv8>, n: nat)
    requires n <= buffer.Length
    modifies buffer
    ensures Clear(buffer[..], 0, 8 * n) && buffer[n..] == old(buffer[n..])
  {
    var i := 0;
    while i < n
      invariant 0 <= i <= n && buffer[n..] == old(buffer[n..])
      invariant forall k :: 0 <= k < i ==> buffer[k] == 0
    {
      buffer[i] := 0;
      i := i + 1;
    }
    forall p | 0 <= p < 8 * n ensures !BitAt(buffer[..], p) {
      ZeroBit(p % 8);
    }
  }
}
