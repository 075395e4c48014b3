/** Facts about single bytes, in the form the bit-vector solver takes directly. */
module ByteFacts {

  lemma ShiftXor(a: bv8, b: bv8)
    ensures ((a ^ b) << 1) ^ (((a ^ b) >> 7) * 0x1D) == ((a << 1) ^ ((a >> 7) * 0x1D)) ^ ((b << 1) ^ ((b >> 7) * 0x1D))
  {
  }

  /** Multiplication by x, reduced by 0x11D. */
  function Xtime(z: bv8): bv8 { (z << 1) ^ ((z >> 7) * 0x1D) }

  function Xor(a: bv8, b: bv8): bv8 { a ^ b }

  lemma XtimeXor(a: bv8, b: bv8)
    ensures Xtime(Xor(a, b)) == Xor(Xtime(a), Xtime(b))
  {
    ShiftXor(a, b);
  }

  lemma XtimeZero()
    ensures Xtime(0) == 0
  {
  }

  lemma XtimeOne()
    ensures Xtime(1) == 2
  {
  }

  lemma XorCommutes(a: bv8, b: bv8)
    ensures Xor(a, b) == Xor(b, a)
  {
  }

  lemma XorAssociates(a: bv8, b: bv8, c: bv8)
    ensures Xor(Xor(a, b), c) == Xor(a, Xor(b, c))
  {
    XorGroup(a, b, c);
  }

  lemma XorCancels(a: bv8)
    ensures Xor(a, 0) == a && Xor(a, a) == 0
  {
  }

  lemma XorGroup(a: bv8, b: bv8, c: bv8)
    ensures a ^ b == b ^ a && (a ^ b) ^ c == a ^ (b ^ c) && a ^ 0 == a && a ^ a == 0
  {
  }

  /** The bit of a byte at position `i` from the top. */
  function Mask(i: nat): bv8
    requires i < 8
  {
    if i == 0 then 0x80 else if i == 1 then 0x40 else if i == 2 then 0x20 else if i == 3 then 0x10
    else if i == 4 then 0x08 else if i == 5 then 0x04 else if i == 6 then 0x02 else 0x01
  }

  lemma SingleBit(a: bv8, b: bv8, mask: bv8)
    requires mask & (mask - 1) == 0
    ensures ((a ^ b) & mask != 0) == ((a & mask != 0) != (b & mask != 0))
  {
  }

  lemma MaskSingle(i: nat)
    requires i < 8
    ensures Mask(i) & (Mask(i) - 1) == 0
  {
  }
}

/**
 Bit-serial products over any group of characteristic two with an additive shift:
 the multiplier's bits are taken in from the highest down.
 */
module BitSerial {

  datatype Space<!E> = Space(zero: E, add: (E, E) -> E, shift: E -> E)

  /** Only a mention of this instantiates the laws. */
  predicate At<E>(a: E, b: E, c: E) { true }

  ghost predicate Lawful<E(!new)>(s: Space<E>) {
    forall a, b, c {:trigger At(a, b, c)} :: At(a, b, c) ==> LawsAt(s, a, b, c)
  }

  ghost predicate LawsAt<E>(s: Space<E>, a: E, b: E, c: E) {
    && s.add(a, b) == s.add(b, a) && s.add(s.add(a, b), c) == s.add(a, s.add(b, c))
    && s.add(a, s.zero) == a && s.add(a, a) == s.zero
    && s.shift(s.add(a, b)) == s.add(s.shift(a), s.shift(b)) && s.shift(s.zero) == s.zero
  }

  lemma Laws<E(!new)>(s: Space<E>, a: E, b: E, c: E)
    requires Lawful(s)
    ensures LawsAt(s, a, b, c)
  {
    assert At(a, b, c);
  }

  function Pick<E>(s: Space<E>, bit: bool, x: E): E { if bit then x else s.zero }

  /** `x` times the multiplier with these bits. */
  function Product<E>(s: Space<E>, x: E, bits: seq<bool>): E {
    if bits == [] then s.zero
    else s.add(s.shift(Product(s, x, bits[..|bits| - 1])), Pick(s, bits[|bits| - 1], x))
  }

  lemma Interchange<E(!new)>(s: Space<E>, a: E, b: E, c: E, d: E)
    requires Lawful(s)
    ensures s.add(s.add(a, b), s.add(c, d)) == s.add(s.add(a, c), s.add(b, d))
  {
    calc {
      s.add(s.add(a, b), s.add(c, d));
      { Laws(s, a, b, s.add(c, d)); }
      s.add(a, s.add(b, s.add(c, d)));
      { Laws(s, b, c, d); }
      s.add(a, s.add(s.add(b, c), d));
      { Laws(s, b, c, c); Laws(s, c, b, d); }
      s.add(a, s.add(c, s.add(b, d)));
      { Laws(s, a, c, s.add(b, d)); }
      s.add(s.add(a, c), s.add(b, d));
    }
  }

  lemma PickAdds<E(!new)>(s: Space<E>, bit: bool, a: E, b: E)
    requires Lawful(s)
    ensures Pick(s, bit, s.add(a, b)) == s.add(Pick(s, bit, a), Pick(s, bit, b))
    ensures Pick(s, bit, s.shift(a)) == s.shift(Pick(s, bit, a))
  {
    Laws(s, s.zero, s.zero, s.zero);
  }

  lemma {:induction false} ProductAdds<E(!new)>(s: Space<E>, a: E, b: E, bits: seq<bool>)
    requires Lawful(s)
    ensures Product(s, s.add(a, b), bits) == s.add(Product(s, a, bits), Product(s, b, bits))
  {
    if bits == [] {
      Laws(s, s.zero, s.zero, s.zero);
    } else {
      var init, last := bits[..|bits| - 1], bits[|bits| - 1];
      ProductAdds(s, a, b, init);
      var p, q := Product(s, a, init), Product(s, b, init);
      Laws(s, p, q, q);
      PickAdds(s, last, a, b);
      Interchange(s, s.shift(p), s.shift(q), Pick(s, last, a), Pick(s, last, b));
    }
  }

  lemma {:induction false} ProductShifts<E(!new)>(s: Space<E>, a: E, bits: seq<bool>)
    requires Lawful(s)
    ensures Product(s, s.shift(a), bits) == s.shift(Product(s, a, bits))
  {
    if bits == [] {
      Laws(s, a, a, a);
    } else {
      var init, last := bits[..|bits| - 1], bits[|bits| - 1];
      ProductShifts(s, a, init);
      PickAdds(s, last, a, a);
      Laws(s, s.shift(Product(s, a, init)), Pick(s, last, a), a);
    }
  }

  lemma {:induction false} ProductZero<E(!new)>(s: Space<E>, bits: seq<bool>)
    requires Lawful(s)
    ensures Product(s, s.zero, bits) == s.zero
  {
    if bits != [] {
      ProductZero(s, bits[..|bits| - 1]);
      Laws(s, s.zero, s.zero, s.zero);
    }
  }

  /** Multiplying by one multiplier and by another may be done in either order. */
  lemma {:induction false} ProductsCommute<E(!new)>(s: Space<E>, a: E, y: seq<bool>, z: seq<bool>)
    requires Lawful(s)
    ensures Product(s, Product(s, a, z), y) == Product(s, Product(s, a, y), z)
  {
    if z == [] {
      ProductZero(s, y);
    } else {
      var init, last := z[..|z| - 1], z[|z| - 1];
      ProductsCommute(s, a, y, init);
      var inner := Product(s, a, init);
      ProductAdds(s, s.shift(inner), Pick(s, last, a), y);
      ProductShifts(s, inner, y);
      ProductZero(s, y);
    }
  }

  function XorBits(y: seq<bool>, z: seq<bool>): (r: seq<bool>)
    requires |y| == |z|
    ensures |r| == |y|
  {
    seq(|y|, i requires 0 <= i < |y| => y[i] != z[i])
  }

  /** The product by a sum of multipliers is the sum of the products. */
  lemma {:induction false} ProductXor<E(!new)>(s: Space<E>, a: E, y: seq<bool>, z: seq<bool>)
    requires Lawful(s) && |y| == |z|
    ensures Product(s, a, XorBits(y, z)) == s.add(Product(s, a, y), Product(s, a, z))
  {
    if y == [] {
      Laws(s, s.zero, s.zero, s.zero);
    } else {
      var n := |y| - 1;
      ProductXor(s, a, y[..n], z[..n]);
      assert XorBits(y, z)[..n] == XorBits(y[..n], z[..n]);
      var p, q := Product(s, a, y[..n]), Product(s, a, z[..n]);
      Laws(s, p, q, q);
      var fromY, fromZ := Pick(s, y[n], a), Pick(s, z[n], a);
      Laws(s, a, s.zero, a);
      Laws(s, s.zero, a, a);
      Laws(s, s.zero, s.zero, a);
      assert Pick(s, y[n] != z[n], a) == s.add(fromY, fromZ);
      Interchange(s, s.shift(p), s.shift(q), fromY, fromZ);
    }
  }

  /** An additive map that respects the shift is determined by its value at `one`. */
  lemma {:induction false} Determined<E(!new)>(s: Space<E>, f: E -> E, one: E, bits: seq<bool>)
    requires Lawful(s) && Linear(s, f)
    ensures f(Product(s, one, bits)) == Product(s, f(one), bits)
  {
    if bits != [] {
      var init, last := bits[..|bits| - 1], bits[|bits| - 1];
      Determined(s, f, one, init);
      assert At(s.shift(Product(s, one, init)), Pick(s, last, one), one);
      assert At(Product(s, one, init), one, one);
    } else {
      assert At(one, one, one);
    }
  }

  /** Additive, and respecting the shift. */
  ghost predicate Linear<E(!new)>(s: Space<E>, f: E -> E) {
    forall a, b, c {:trigger At(a, b, c)} :: At(a, b, c) ==>
      f(s.zero) == s.zero && f(s.add(a, b)) == s.add(f(a), f(b)) && f(s.shift(a)) == s.shift(f(a))
  }
}

/**
 The byte field GF(2^8) modulo x^8 + x^4 + x^3 + x^2 + 1: Russian peasant
 multiplication, the laws it obeys, and why it is the only product that could.
 */
module GaloisField {
  import opened BitSerial
  import opened ByteFacts
  import PolynomialRing

  function Octets(): Space<bv8> { Space(0, Xor, Xtime) }

  /** The bits of `y`, highest first. */
  function Bits(y: bv8): (r: seq<bool>)
    ensures |r| == 8
  {
    seq(8, i requires 0 <= i < 8 => y & Mask(i) != 0)
  }

  function Mul(x: bv8, y: bv8): bv8 { Product(Octets(), x, Bits(y)) }

  /** The loop from the highest bit of `y` down. */
  method Multiply(x: bv8, y: bv8) returns (z: bv8)
    ensures z == Mul(x, y)
  {
    z := Accumulate(x, Bits(y));
  }

  method Double(z: bv8) returns (r: bv8)
    ensures r == Xtime(z)
  {
    r := (z << 1) ^ ((z >> 7) * 0x1D);
  }

  method Accumulate(x: bv8, bits: seq<bool>) returns (z: bv8)
    ensures z == Product(Octets(), x, bits)
  {
    z := 0;
    for i := 0 to |bits|
      invariant z == Product(Octets(), x, bits[..i])
    {
      assert bits[..i + 1][..i] == bits[..i];
      z := Double(z);
      z := Xor(z, if bits[i] then x else 0);
    }
    assert bits[..|bits|] == bits;
  }

  lemma GroupLaws(a: bv8, b: bv8, c: bv8)
    ensures BitSerial.LawsAt(Octets(), a, b, c)
  {
    XorCommutes(a, b);
    XorAssociates(a, b, c);
    XorCancels(a);
    XtimeXor(a, b);
    XtimeZero();
  }

  lemma OctetsLawful()
    ensures BitSerial.Lawful(Octets())
  {
    forall a, b, c
      ensures BitSerial.LawsAt(Octets(), a, b, c)
    {
      GroupLaws(a, b, c);
    }
  }

  lemma BitsXor(y: bv8, z: bv8)
    ensures Bits(Xor(y, z)) == XorBits(Bits(y), Bits(z))
  {
    forall i | 0 <= i < 8
      ensures Bits(Xor(y, z))[i] == XorBits(Bits(y), Bits(z))[i]
    {
      MaskSingle(i);
      SingleBit(y, z, Mask(i));
    }
  }

  /** The number formed by the `n` highest bits. */
  function High(y: bv8, n: nat): bv8
    requires n <= 8
  {
    if n == 0 then 0 else if n == 1 then y >> 7 else if n == 2 then y >> 6 else if n == 3 then y >> 5
    else if n == 4 then y >> 4 else if n == 5 then y >> 3 else if n == 6 then y >> 2 else if n == 7 then y >> 1 else y
  }

  lemma HighStep(y: bv8, n: nat)
    requires n < 8
    ensures High(y, n + 1) == Xor(Xtime(High(y, n)), if y & Mask(n) != 0 then 1 else 0)
  {
  }

  lemma {:induction false} ProductOne(y: bv8, n: nat)
    requires n <= 8
    ensures Product(Octets(), 1, Bits(y)[..n]) == High(y, n)
  {
    if n > 0 {
      ProductOne(y, n - 1);
      HighStep(y, n - 1);
      assert Bits(y)[..n][..n - 1] == Bits(y)[..n - 1];
    }
  }

  // ---------------------------------------------------------------------------
  // The ring of bytes
  // ---------------------------------------------------------------------------

  lemma MulOne(y: bv8)
    ensures Mul(1, y) == y
  {
    ProductOne(y, 8);
    assert Bits(y)[..8] == Bits(y);
  }

  lemma MulCommutes(x: bv8, y: bv8)
    ensures Mul(x, y) == Mul(y, x)
  {
    MulOne(x);
    MulOne(y);
    OctetsLawful();
    ProductsCommute(Octets(), 1, Bits(y), Bits(x));
  }

  lemma MulAssociates(x: bv8, y: bv8, z: bv8)
    ensures Mul(Mul(x, y), z) == Mul(x, Mul(y, z))
  {
    MulCommutes(x, Mul(y, z));
    MulCommutes(x, y);
    OctetsLawful();
    ProductsCommute(Octets(), y, Bits(x), Bits(z));
  }

  lemma MulDistributes(x: bv8, y: bv8, z: bv8)
    ensures Mul(x, Xor(y, z)) == Xor(Mul(x, y), Mul(x, z))
  {
    BitsXor(y, z);
    OctetsLawful();
    ProductXor(Octets(), x, Bits(y), Bits(z));
  }

  lemma MulZero(x: bv8)
    ensures Mul(x, 0) == 0
  {
    MulCommutes(x, 0);
    OctetsLawful();
    ProductZero(Octets(), Bits(x));
  }

  /** Multiplying by 2 is the reduced shift, so the modulus is 0x11D and no other. */
  lemma MulTwo(x: bv8)
    ensures Mul(x, 2) == Xtime(x)
  {
    MulCommutes(x, 2);
    OctetsLawful();
    ProductShifts(Octets(), 1, Bits(x));
    MulOne(x);
    XtimeOne();
  }

  function Bytes(): PolynomialRing.Ring<bv8> { PolynomialRing.Ring(0, 1, Xor, Mul) }

  lemma LawsHold(a: bv8, b: bv8, c: bv8)
    ensures PolynomialRing.LawsAt(Bytes(), a, b, c)
  {
    XorCommutes(a, b);
    XorAssociates(a, b, c);
    XorCancels(a);
    MulCommutes(a, b);
    MulAssociates(a, b, c);
    MulDistributes(a, b, c);
    MulCommutes(a, 1);
    MulOne(a);
    MulZero(a);
  }

  /** Xor and this product make the bytes a commutative ring of characteristic two. */
  lemma BytesLawful()
    ensures PolynomialRing.Lawful(Bytes())
  {
    forall a, b, c
      ensures PolynomialRing.LawsAt(Bytes(), a, b, c)
    {
      LawsHold(a, b, c);
    }
  }

  /** A map that is additive and respects the reduced shift is multiplication by its value at 1. */
  lemma OnlyProduct(f: bv8 -> bv8, y: bv8)
    requires Linear(Octets(), f)
    ensures f(y) == Mul(f(1), y)
  {
    OctetsLawful();
    MulOne(y);
    Determined(Octets(), f, 1, Bits(y));
  }
}
