/**
 The error-correction codewords of a QR code: the generator polynomial built in
 place, the remainder computed in place, and why their codewords have zero
 syndromes (section 7.5 of ISO/IEC 18004:2015).
 */
module LinearProducts {
  import opened PolynomialRing

  /** The `n` low-order coefficients of `p`, padded with zeros above. */
  function Low<E>(r: Ring<E>, p: seq<E>, n: nat): (s: seq<E>)
    ensures |s| == n
  {
    if |p| < n then Zeros(r, n - |p|) + p else p[|p| - n..]
  }

  /** One coefficient of the in-place multiplication of `w` by `x + c`. */
  function Folded<E>(r: Ring<E>, w: seq<E>, c: E, j: nat): E
    requires j < |w|
  {
    if j + 1 < |w| then r.add(r.mul(w[j], c), w[j + 1]) else r.mul(w[j], c)
  }

  function LowAt<E>(r: Ring<E>, p: seq<E>, n: nat, j: nat): E
    requires j < n
  {
    var k := j + |p| - n;
    if k < 0 then r.zero else p[k]
  }

  lemma LowIndex<E>(r: Ring<E>, p: seq<E>, n: nat, j: nat)
    requires j < n
    ensures Low(r, p, n)[j] == LowAt(r, p, n, j)
  {
  }

  /** `t` is `p * (x + c)`, coefficient by coefficient. */
  ghost predicate LinearProduct<E>(r: Ring<E>, t: seq<E>, p: seq<E>, c: E) {
    |t| == |p| + 1 && forall k: nat :: k <= |p| ==> t[k] == LinearCoefficient(r, p, c, k)
  }

  lemma TimesIsLinear<E(!new)>(r: Ring<E>, p: seq<E>, c: E)
    requires Lawful(r)
    ensures LinearProduct(r, Times(r, p, [r.one, c]), p, c)
  {
    forall k: nat | k <= |p|
      ensures Times(r, p, [r.one, c])[k] == LinearCoefficient(r, p, c, k)
    {
      TimesLinear(r, p, c, k);
    }
  }

  /** The folded coefficient in terms of `p`. */
  lemma FoldTerms<E(!new)>(r: Ring<E>, p: seq<E>, c: E, n: nat, j: nat)
    requires Lawful(r) && |p| <= n && j < n
    ensures Folded(r, Low(r, p, n), c, j) ==
      r.add(r.mul(LowAt(r, p, n, j), c), NextTerm(r, p, n, j))
  {
    LowIndex(r, p, n, j);
    if j + 1 < n {
      LowIndex(r, p, n, j + 1);
    }
    Laws(r, r.mul(LowAt(r, p, n, j), c), c, c);
  }

  function NextTerm<E>(r: Ring<E>, p: seq<E>, n: nat, j: nat): E
    requires j < n
  {
    if j + 1 < n then LowAt(r, p, n, j + 1) else r.zero
  }

  lemma TermsMeet<E(!new)>(r: Ring<E>, t: seq<E>, p: seq<E>, c: E, n: nat, j: nat)
    requires Lawful(r) && |p| <= n && j < n && LinearProduct(r, t, p, c)
    ensures LowAt(r, t, n, j) == r.add(NextTerm(r, p, n, j), r.mul(LowAt(r, p, n, j), c))
  {
    ZeroTimes(r, c);
    var k := j + |p| + 1 - n;
    if 0 <= k {
      assert LowAt(r, t, n, j) == LinearCoefficient(r, p, c, k);
    }
  }

  /** Folding the low coefficients of `p` gives those of its product with `x + c`. */
  lemma FoldIsProduct<E(!new)>(r: Ring<E>, t: seq<E>, p: seq<E>, c: E, n: nat, j: nat)
    requires Lawful(r) && |p| <= n && j < n && LinearProduct(r, t, p, c)
    ensures Low(r, t, n)[j] == Folded(r, Low(r, p, n), c, j)
  {
    LowIndex(r, t, n, j);
    FoldTerms(r, p, c, n, j);
    TermsMeet(r, t, p, c, n, j);
    Laws(r, r.mul(LowAt(r, p, n, j), c), NextTerm(r, p, n, j), c);
  }

  /** The in-place multiplication of the array `w` by `x + c`. */
  function FoldAll<E>(r: Ring<E>, w: seq<E>, c: E): (s: seq<E>)
    ensures |s| == |w|
  {
    seq(|w|, j requires 0 <= j < |w| => Folded(r, w, c, j))
  }

  lemma ZeroTimes<E(!new)>(r: Ring<E>, c: E)
    requires Lawful(r)
    ensures r.mul(r.zero, c) == r.zero && r.add(r.zero, r.zero) == r.zero
  {
    Laws(r, c, r.zero, c);
    Laws(r, r.zero, r.zero, c);
  }

  /** The powers of `a`. */
  function Power<E>(r: Ring<E>, a: E, i: nat): E {
    if i == 0 then r.one else r.mul(Power(r, a, i - 1), a)
  }

  /** (x - a^0) (x - a^1) ... (x - a^(d-1)), leading coefficient included. */
  function Roots<E>(r: Ring<E>, a: E, d: nat): (g: seq<E>)
    ensures |g| == d + 1
  {
    if d == 0 then [r.one] else Times(r, Roots(r, a, d - 1), [r.one, Power(r, a, d - 1)])
  }

  lemma {:induction false} RootsMonic<E(!new)>(r: Ring<E>, a: E, d: nat)
    requires Lawful(r)
    ensures Roots(r, a, d)[0] == r.one
  {
    if d > 0 {
      RootsMonic(r, a, d - 1);
      TimesLinear(r, Roots(r, a, d - 1), Power(r, a, d - 1), 0);
      Laws(r, r.one, r.zero, r.one);
    }
  }

  lemma EvalLinear<E(!new)>(r: Ring<E>, root: E)
    requires Lawful(r)
    ensures Eval(r, [r.one, root], root) == r.zero
  {
    EvalSnoc(r, [], r.one, root);
    EvalSnoc(r, [r.one], root, root);
    assert [] + [r.one] == [r.one] && [r.one] + [root] == [r.one, root];
    ZeroTimes(r, root);
    Laws(r, r.zero, r.one, root);
    Laws(r, r.one, r.zero, root);
    Laws(r, r.one, root, root);
    Laws(r, root, r.one, root);
  }

  /** A product vanishes where a factor does. */
  lemma ProductVanishes<E(!new)>(r: Ring<E>, p: seq<E>, q: seq<E>, x: E)
    requires Lawful(r) && 0 < |q| && (Eval(r, p, x) == r.zero || Eval(r, q, x) == r.zero)
    ensures Eval(r, Times(r, p, q), x) == r.zero
  {
    EvalTimes(r, p, q, x);
    Laws(r, Eval(r, p, x), r.zero, x);
    ZeroTimes(r, Eval(r, q, x));
  }

  /** Each power of `a` below the degree is a root. */
  lemma {:induction false} RootsVanish<E(!new)>(r: Ring<E>, a: E, d: nat, i: nat)
    requires Lawful(r) && i < d
    ensures Eval(r, Roots(r, a, d), Power(r, a, i)) == r.zero
  {
    if i < d - 1 {
      RootsVanish(r, a, d - 1, i);
    } else {
      EvalLinear(r, Power(r, a, d - 1));
    }
    ProductVanishes(r, Roots(r, a, d - 1), [r.one, Power(r, a, d - 1)], Power(r, a, i));
  }

  /** Data followed by its remainder by the polynomial with those roots. */
  function Coded<E>(r: Ring<E>, a: E, data: seq<E>, degree: nat): seq<E>
    requires 1 <= degree
  {
    data + Divide(r, data, Roots(r, a, degree)[1..]).remainder
  }

  lemma CodedDivisible<E(!new)>(r: Ring<E>, a: E, data: seq<E>, degree: nat) returns (quotient: seq<E>)
    requires Lawful(r) && 1 <= degree
    ensures |quotient| == |data| && Times(r, quotient, Roots(r, a, degree)) == Coded(r, a, data, degree)
  {
    RootsMonic(r, a, degree);
    var tail := Roots(r, a, degree)[1..];
    DivisionExact(r, data, tail);
    assert [r.one] + tail == Roots(r, a, degree);
    quotient := Divide(r, data, tail).quotient;
  }

  lemma CodedVanishes<E(!new)>(r: Ring<E>, a: E, data: seq<E>, degree: nat, i: nat)
    requires Lawful(r) && i < degree
    ensures Eval(r, Coded(r, a, data, degree), Power(r, a, i)) == r.zero
  {
    var quotient := CodedDivisible(r, a, data, degree);
    RootsVanish(r, a, degree, i);
    ProductVanishes(r, quotient, Roots(r, a, degree), Power(r, a, i));
  }

  /** Folding the array once per root builds the polynomial. */
  lemma FoldedRoots<E(!new)>(r: Ring<E>, a: E, i: nat, degree: nat)
    requires Lawful(r) && i < degree
    ensures FoldAll(r, Low(r, Roots(r, a, i), degree), Power(r, a, i)) == Low(r, Roots(r, a, i + 1), degree)
  {
    TimesIsLinear(r, Roots(r, a, i), Power(r, a, i));
    FoldedProduct(r, Roots(r, a, i + 1), Roots(r, a, i), Power(r, a, i), degree);
  }

  lemma FoldedProduct<E(!new)>(r: Ring<E>, t: seq<E>, p: seq<E>, c: E, n: nat)
    requires Lawful(r) && |p| <= n && LinearProduct(r, t, p, c)
    ensures FoldAll(r, Low(r, p, n), c) == Low(r, t, n)
  {
    forall j | 0 <= j < n
      ensures FoldAll(r, Low(r, p, n), c)[j] == Low(r, t, n)[j]
    {
      FoldIsProduct(r, t, p, c, n, j);
    }
  }
}

module ReedSolomon {
  import opened PolynomialRing
  import opened LinearProducts
  import opened ByteFacts
  import opened GaloisField

  /** The generator polynomial of the given degree over the bytes, with the powers of 2 as roots. */
  function Generator(degree: nat): (g: seq<bv8>)
    ensures |g| == degree + 1
  {
    Roots(Bytes(), 2, degree)
  }

  /** Multiplies the coefficients held in the array by `x + root`, dropping what would exceed the degree. */
  method FoldRoot(result: array<bv8>, root: bv8)
    modifies result
    ensures result[..] == FoldAll(Bytes(), old(result[..]), root)
  {
    ghost var w := result[..];
    for j := 0 to result.Length
      invariant forall k :: 0 <= k < j ==> result[k] == Folded(Bytes(), w, root, k)
      invariant forall k :: j <= k < result.Length ==> result[k] == w[k]
    {
      var scaled := Multiply(result[j], root);
      if j + 1 < result.Length {
        result[j] := Xor(scaled, result[j + 1]);
      } else {
        result[j] := scaled;
      }
    }
  }

  /** The monomial x^0. */
  method StartAtOne(result: array<bv8>)
    requires 1 <= result.Length
    modifies result
    ensures result[..] == Low(Bytes(), Generator(0), result.Length)
  {
    forall j | 0 <= j < result.Length {
      result[j] := 0;
    }
    result[result.Length - 1] := 1;
  }

  /** Builds the generator polynomial in place, its leading coefficient left implicit. */
  method ComputeDivisor(degree: nat, result: array<bv8>)
    requires 1 <= degree == result.Length
    modifies result
    ensures [1] + result[..] == Generator(degree)
  {
    StartAtOne(result);
    var root: bv8 := 1;
    for i := 0 to degree
      invariant root == Power(Bytes(), 2, i)
      invariant result[..] == Low(Bytes(), Generator(i), degree)
    {
      NextRoot(result, root, i);
      root := Multiply(root, 2);
    }
    MonicGenerator(degree);
  }

  method NextRoot(result: array<bv8>, root: bv8, ghost i: nat)
    requires i < result.Length && root == Power(Bytes(), 2, i) && result[..] == Low(Bytes(), Generator(i), result.Length)
    modifies result
    ensures result[..] == Low(Bytes(), Generator(i + 1), result.Length)
  {
    FoldRoot(result, root);
    BytesLawful();
    FoldedRoots(Bytes(), 2, i, result.Length);
  }

  lemma MonicGenerator(degree: nat)
    ensures [1] + Low(Bytes(), Generator(degree), degree) == Generator(degree)
  {
    BytesLawful();
    RootsMonic(Bytes(), 2, degree);
  }

  /** Drops the leading coefficient and brings in a zero. */
  method ShiftUp(result: array<bv8>)
    requires 1 <= result.Length
    modifies result
    ensures result[..] == old(result[1..]) + [0]
  {
    forall j | 0 <= j < result.Length - 1 {
      result[j] := result[j + 1];
    }
    result[result.Length - 1] := 0;
  }

  method AddScaled(result: array<bv8>, factor: bv8, generator: seq<bv8>)
    requires result.Length == |generator|
    modifies result
    ensures result[..] == Plus(Bytes(), old(result[..]), Scale(Bytes(), factor, generator))
  {
    for j := 0 to result.Length
      invariant forall k :: 0 <= k < j ==> result[k] == Xor(old(result[k]), Mul(factor, generator[k]))
      invariant forall k :: j <= k < result.Length ==> result[k] == old(result[k])
    {
      var product := Multiply(generator[j], factor);
      MulCommutes(generator[j], factor);
      result[j] := Xor(result[j], product);
    }
  }

  /** One step of the long division, in place. */
  method DivideOne(next: bv8, generator: seq<bv8>, result: array<bv8>, ghost d: Division<bv8>)
    requires 1 <= result.Length == |generator| && d.remainder == result[..]
    modifies result
    ensures result[..] == DivideStep(Bytes(), d, next, generator).remainder
  {
    var factor := Xor(next, result[0]);
    ShiftUp(result);
    AddScaled(result, factor, generator);
  }

  /** The remainder of `data` shifted up by the degree, divided by the monic generator. */
  method ComputeRemainder(data: seq<bv8>, generator: seq<bv8>, result: array<bv8>)
    requires 1 <= result.Length == |generator|
    modifies result
    ensures result[..] == Divide(Bytes(), data, generator).remainder
  {
    forall j | 0 <= j < result.Length {
      result[j] := 0;
    }
    assert result[..] == Zeros(Bytes(), |generator|);
    for i := 0 to |data|
      invariant result[..] == Divide(Bytes(), data[..i], generator).remainder
    {
      assert data[..i + 1][..i] == data[..i];
      DivideOne(data[i], generator, result, Divide(Bytes(), data[..i], generator));
    }
    assert data[..|data|] == data;
  }

  // ---------------------------------------------------------------------------
  // What the codewords are
  // ---------------------------------------------------------------------------

  /** Data followed by its error-correction codewords. */
  function Codeword(data: seq<bv8>, degree: nat): seq<bv8>
    requires 1 <= degree
  {
    data + Divide(Bytes(), data, Generator(degree)[1..]).remainder
  }

  /** A codeword is a multiple of the generator, with as many quotient coefficients as data. */
  lemma CodewordDivisible(data: seq<bv8>, degree: nat)
    requires 1 <= degree
    ensures exists quotient :: |quotient| == |data| && Times(Bytes(), quotient, Generator(degree)) == Codeword(data, degree)
  {
    BytesLawful();
    var quotient := CodedDivisible(Bytes(), 2, data, degree);
  }

  /** Each power of 2 below the degree is a root of the generator. */
  lemma GeneratorRoots(degree: nat, i: nat)
    requires i < degree
    ensures Eval(Bytes(), Generator(degree), Power(Bytes(), 2, i)) == 0
  {
    BytesLawful();
    RootsVanish(Bytes(), 2, degree, i);
  }

  /** Every syndrome of every codeword is zero, for any data and degree. */
  lemma SyndromesZero(data: seq<bv8>, degree: nat, i: nat)
    requires i < degree
    ensures Eval(Bytes(), Codeword(data, degree), Power(Bytes(), 2, i)) == 0
  {
    BytesLawful();
    CodedVanishes(Bytes(), 2, data, degree, i);
  }

  /** The two in-place routines, one after the other, produce the codeword. */
  method Encode(data: seq<bv8>, degree: nat) returns (codeword: seq<bv8>)
    requires 1 <= degree
    ensures codeword == Codeword(data, degree)
  {
    var divisor, remainder := new bv8[degree], new bv8[degree];
    ComputeDivisor(degree, divisor);
    assert Generator(degree)[1..] == divisor[..];
    ComputeRemainder(data, divisor[..], remainder);
    codeword := data + remainder[..];
  }
}
