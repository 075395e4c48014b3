/**
 Polynomials over a commutative ring of characteristic two, written from the highest
 power down, and the two facts the error-correction code rests on: multiplication is
 evaluated pointwise, and synthetic division leaves a multiple of the divisor.
 */
module PolynomialRing {
  import opened Sequences

  datatype Ring<!E> = Ring(zero: E, one: E, add: (E, E) -> E, mul: (E, E) -> E)

  /** Only a mention of this instantiates the laws. */
  predicate At<E>(a: E, b: E, c: E) { true }

  ghost predicate Lawful<E(!new)>(r: Ring<E>) {
    forall a, b, c {:trigger At(a, b, c)} :: At(a, b, c) ==> LawsAt(r, a, b, c)
  }

  ghost predicate LawsAt<E>(r: Ring<E>, a: E, b: E, c: E) {
    && r.add(a, b) == r.add(b, a) && r.add(r.add(a, b), c) == r.add(a, r.add(b, c))
    && r.add(a, r.zero) == a && r.add(a, a) == r.zero
    && r.mul(a, b) == r.mul(b, a) && r.mul(r.mul(a, b), c) == r.mul(a, r.mul(b, c))
    && r.mul(a, r.one) == a && r.mul(a, r.zero) == r.zero
    && r.mul(a, r.add(b, c)) == r.add(r.mul(a, b), r.mul(a, c))
  }

  lemma Laws<E(!new)>(r: Ring<E>, a: E, b: E, c: E)
    requires Lawful(r)
    ensures LawsAt(r, a, b, c)
  {
    assert At(a, b, c);
  }

  function Zeros<E>(r: Ring<E>, n: nat): (z: seq<E>)
    ensures |z| == n
  {
    seq(n, _ => r.zero)
  }

  function Scale<E>(r: Ring<E>, c: E, p: seq<E>): (s: seq<E>)
    ensures |s| == |p| && forall i :: 0 <= i < |p| ==> s[i] == r.mul(c, p[i])
  {
    seq(|p|, i requires 0 <= i < |p| => r.mul(c, p[i]))
  }

  /** Coefficientwise sum of equally long polynomials. */
  function Plus<E>(r: Ring<E>, p: seq<E>, q: seq<E>): (s: seq<E>)
    requires |p| == |q|
    ensures |s| == |p| && forall i :: 0 <= i < |p| ==> s[i] == r.add(p[i], q[i])
  {
    seq(|p|, i requires 0 <= i < |p| => r.add(p[i], q[i]))
  }

  /** `p` with `q` added to its low-order coefficients. */
  function AddLow<E>(r: Ring<E>, p: seq<E>, q: seq<E>): (s: seq<E>)
    requires |q| <= |p|
    ensures |s| == |p|
  {
    p[..|p| - |q|] + Plus(r, p[|p| - |q|..], q)
  }

  /** The product of two polynomials, one coefficient of `p` at a time. */
  function Times<E>(r: Ring<E>, p: seq<E>, q: seq<E>): (s: seq<E>)
    requires 0 < |q|
    ensures |s| == |p| + |q| - 1
  {
    if p == [] then Zeros(r, |q| - 1)
    else AddLow(r, Times(r, p[..|p| - 1], q) + [r.zero], Scale(r, p[|p| - 1], q))
  }

  /** The value of `p` at `x`, by Horner's rule. */
  function Eval<E>(r: Ring<E>, p: seq<E>, x: E): E {
    if p == [] then r.zero else r.add(r.mul(Eval(r, p[..|p| - 1], x), x), p[|p| - 1])
  }

  // ---------------------------------------------------------------------------
  // Evaluation is a homomorphism
  // ---------------------------------------------------------------------------

  lemma EvalSnoc<E>(r: Ring<E>, p: seq<E>, c: E, x: E)
    ensures Eval(r, p + [c], x) == r.add(r.mul(Eval(r, p, x), x), c)
  {
    assert (p + [c])[..|p|] == p;
  }

  lemma {:induction false} EvalZeros<E(!new)>(r: Ring<E>, n: nat, x: E)
    requires Lawful(r)
    ensures Eval(r, Zeros(r, n), x) == r.zero
  {
    if n > 0 {
      EvalZeros(r, n - 1, x);
      assert Zeros(r, n) == Zeros(r, n - 1) + [r.zero];
      EvalSnoc(r, Zeros(r, n - 1), r.zero, x);
      Laws(r, x, r.zero, x);
      Laws(r, r.zero, r.zero, x);
    }
  }

  lemma {:induction false} EvalScale<E(!new)>(r: Ring<E>, c: E, p: seq<E>, x: E)
    requires Lawful(r)
    ensures Eval(r, Scale(r, c, p), x) == r.mul(c, Eval(r, p, x))
  {
    if p == [] {
      Laws(r, c, c, c);
    } else {
      var init, last := p[..|p| - 1], p[|p| - 1];
      EvalScale(r, c, init, x);
      assert Scale(r, c, p) == Scale(r, c, init) + [r.mul(c, last)];
      EvalSnoc(r, Scale(r, c, init), r.mul(c, last), x);
      var v := Eval(r, init, x);
      Laws(r, c, v, x);
      Laws(r, c, r.mul(v, x), last);
    }
  }

  /** (a + b) * x + (c + d) == (a * x + c) + (b * x + d) */
  lemma HornerSum<E(!new)>(r: Ring<E>, a: E, b: E, c: E, d: E, x: E)
    requires Lawful(r)
    ensures r.add(r.mul(r.add(a, b), x), r.add(c, d)) == r.add(r.add(r.mul(a, x), c), r.add(r.mul(b, x), d))
  {
    var ax, bx := r.mul(a, x), r.mul(b, x);
    calc {
      r.add(r.mul(r.add(a, b), x), r.add(c, d));
      { Laws(r, r.add(a, b), x, x); Laws(r, x, a, b); Laws(r, x, a, a); Laws(r, x, b, b); }
      r.add(r.add(ax, bx), r.add(c, d));
      { Laws(r, ax, bx, r.add(c, d)); }
      r.add(ax, r.add(bx, r.add(c, d)));
      { Laws(r, bx, c, d); }
      r.add(ax, r.add(r.add(bx, c), d));
      { Laws(r, bx, c, c); }
      r.add(ax, r.add(r.add(c, bx), d));
      { Laws(r, c, bx, d); }
      r.add(ax, r.add(c, r.add(bx, d)));
      { Laws(r, ax, c, r.add(bx, d)); }
      r.add(r.add(ax, c), r.add(bx, d));
    }
  }

  lemma AddLowSnoc<E>(r: Ring<E>, p: seq<E>, q: seq<E>)
    requires 0 < |q| <= |p|
    ensures AddLow(r, p, q) == AddLow(r, p[..|p| - 1], q[..|q| - 1]) + [r.add(p[|p| - 1], q[|q| - 1])]
  {
    var m, n := |p| - 1, |p| - |q|;
    var low, init := p[n..], p[n..m];
    assert p[..m][..n] == p[..n] && p[..m][n..] == init;
    PlusSnoc(r, low, q);
    assert low[..|q| - 1] == init && low[|q| - 1] == p[m];
    Regroup(p[..n], Plus(r, init, q[..|q| - 1]), [r.add(p[m], q[|q| - 1])]);
  }

  lemma PlusSnoc<E>(r: Ring<E>, p: seq<E>, q: seq<E>)
    requires 0 < |q| == |p|
    ensures Plus(r, p, q) == Plus(r, p[..|p| - 1], q[..|q| - 1]) + [r.add(p[|p| - 1], q[|q| - 1])]
  {
  }

  lemma {:induction false} EvalAddLow<E(!new)>(r: Ring<E>, p: seq<E>, q: seq<E>, x: E)
    requires Lawful(r) && |q| <= |p|
    ensures Eval(r, AddLow(r, p, q), x) == r.add(Eval(r, p, x), Eval(r, q, x))
  {
    if q == [] {
      assert AddLow(r, p, q) == p;
      Laws(r, Eval(r, p, x), r.zero, r.zero);
    } else {
      var p', q' := p[..|p| - 1], q[..|q| - 1];
      var c, d := p[|p| - 1], q[|q| - 1];
      EvalAddLow(r, p', q', x);
      AddLowSnoc(r, p, q);
      EvalSnoc(r, AddLow(r, p', q'), r.add(c, d), x);
      HornerSum(r, Eval(r, p', x), Eval(r, q', x), c, d, x);
    }
  }

  /** The value of a product is the product of the values. */
  lemma {:induction false} EvalTimes<E(!new)>(r: Ring<E>, p: seq<E>, q: seq<E>, x: E)
    requires Lawful(r) && 0 < |q|
    ensures Eval(r, Times(r, p, q), x) == r.mul(Eval(r, p, x), Eval(r, q, x))
  {
    var vq := Eval(r, q, x);
    if p == [] {
      EvalZeros(r, |q| - 1, x);
      Laws(r, vq, r.zero, r.zero);
    } else {
      var init, last := p[..|p| - 1], p[|p| - 1];
      var vi := Eval(r, init, x);
      var product := Times(r, init, q);
      EvalTimes(r, init, q, x);
      EvalSnoc(r, product, r.zero, x);
      EvalScale(r, last, q, x);
      EvalAddLow(r, product + [r.zero], Scale(r, last, q), x);
      Laws(r, r.mul(r.mul(vi, vq), x), r.zero, r.zero);
      Distribute(r, vi, last, vq, x);
    }
  }

  /** (vi * vq) * x + last * vq == (vi * x + last) * vq */
  lemma Distribute<E(!new)>(r: Ring<E>, vi: E, last: E, vq: E, x: E)
    requires Lawful(r)
    ensures r.add(r.mul(r.mul(vi, vq), x), r.mul(last, vq)) == r.mul(r.add(r.mul(vi, x), last), vq)
  {
    calc {
      r.mul(r.mul(vi, vq), x);
      { Laws(r, vi, vq, x); }
      r.mul(vi, r.mul(vq, x));
      { Laws(r, vq, x, x); }
      r.mul(vi, r.mul(x, vq));
      { Laws(r, vi, x, vq); }
      r.mul(r.mul(vi, x), vq);
    }
    Laws(r, vq, r.mul(vi, x), last);
    Laws(r, r.mul(vi, x), vq, vq);
    Laws(r, last, vq, vq);
    Laws(r, r.add(r.mul(vi, x), last), vq, vq);
  }

  // ---------------------------------------------------------------------------
  // Products with a linear factor
  // ---------------------------------------------------------------------------

  /** Coefficient `k` of `p * (x + c)`. */
  function LinearCoefficient<E>(r: Ring<E>, p: seq<E>, c: E, k: nat): E
    requires k <= |p|
  {
    r.add(if k < |p| then p[k] else r.zero, if 0 < k then r.mul(p[k - 1], c) else r.zero)
  }

  /** What the last coefficient adds to a product with a linear factor. */
  lemma TimesLinearStep<E>(r: Ring<E>, p: seq<E>, c: E)
    requires p != []
    ensures var n, last := |p| - 1, p[|p| - 1];
      var t, s := Times(r, p[..n], [r.one, c]), Times(r, p, [r.one, c]);
      && |t| == n + 1 && |s| == n + 2 && (forall k :: 0 <= k < n ==> s[k] == t[k])
      && s[n] == r.add(t[n], r.mul(last, r.one)) && s[n + 1] == r.add(r.zero, r.mul(last, c))
  {
  }

  /** (0 + low) + last * 1 == last + low */
  lemma LinearLaws<E(!new)>(r: Ring<E>, low: E, last: E)
    requires Lawful(r)
    ensures r.add(r.add(r.zero, low), r.mul(last, r.one)) == r.add(last, low)
  {
    Laws(r, last, last, last);
    Laws(r, r.zero, low, last);
    Laws(r, low, r.zero, last);
    Laws(r, low, last, last);
  }

  lemma {:induction false} TimesLinear<E(!new)>(r: Ring<E>, p: seq<E>, c: E, k: nat)
    requires Lawful(r) && k <= |p|
    ensures Times(r, p, [r.one, c])[k] == LinearCoefficient(r, p, c, k)
  {
    if p == [] {
      Laws(r, r.zero, r.zero, r.zero);
    } else {
      var n := |p| - 1;
      TimesLinearStep(r, p, c);
      if k < n {
        TimesLinear(r, p[..n], c, k);
      } else if k == n {
        TimesLinear(r, p[..n], c, n);
        LinearLaws(r, if 0 < n then r.mul(p[n - 1], c) else r.zero, p[n]);
      }
    }
  }

  // ---------------------------------------------------------------------------
  // Synthetic division
  // ---------------------------------------------------------------------------

  datatype Division<E> = Division(quotient: seq<E>, remainder: seq<E>)

  /** Feeds one coefficient into the division by `x^n + generator`. */
  function DivideStep<E>(r: Ring<E>, d: Division<E>, next: E, generator: seq<E>): (s: Division<E>)
    requires |d.remainder| == |generator| > 0
    ensures |s.remainder| == |generator| && |s.quotient| == |d.quotient| + 1
  {
    var factor := r.add(next, d.remainder[0]);
    Division(d.quotient + [factor], Plus(r, d.remainder[1..] + [r.zero], Scale(r, factor, generator)))
  }

  function Divide<E>(r: Ring<E>, data: seq<E>, generator: seq<E>): (d: Division<E>)
    requires |generator| > 0
    ensures |d.remainder| == |generator| && |d.quotient| == |data|
  {
    if data == [] then Division([], Zeros(r, |generator|))
    else DivideStep(r, Divide(r, data[..|data| - 1], generator), data[|data| - 1], generator)
  }

  /** `data` followed by its remainder is the quotient times the monic divisor. */
  lemma {:induction false} DivisionExact<E(!new)>(r: Ring<E>, data: seq<E>, generator: seq<E>)
    requires Lawful(r) && |generator| > 0
    ensures var d := Divide(r, data, generator);
      Times(r, d.quotient, [r.one] + generator) == data + d.remainder
  {
    if data != [] {
      var init, next := data[..|data| - 1], data[|data| - 1];
      DivisionExact(r, init, generator);
      DivisionStepExact(r, init, Divide(r, init, generator), next, generator);
      assert init + [next] == data;
    }
  }

  /** The product grows by the scaled divisor. */
  lemma TimesStep<E>(r: Ring<E>, quotient: seq<E>, factor: E, q: seq<E>)
    requires 0 < |q|
    ensures |Times(r, quotient, q)| == |quotient| + |q| - 1
    ensures Times(r, quotient + [factor], q) == AddLow(r, Times(r, quotient, q) + [r.zero], Scale(r, factor, q))
  {
    assert (quotient + [factor])[..|quotient|] == quotient;
  }

  lemma DivisionStepExact<E(!new)>(r: Ring<E>, done: seq<E>, d: Division<E>, next: E, generator: seq<E>)
    requires Lawful(r) && |d.remainder| == |generator| > 0
    requires Times(r, d.quotient, [r.one] + generator) == done + d.remainder
    ensures var s := DivideStep(r, d, next, generator);
      Times(r, s.quotient, [r.one] + generator) == (done + [next]) + s.remainder
  {
    var monic := [r.one] + generator;
    var factor := r.add(next, d.remainder[0]);
    TimesStep(r, d.quotient, factor, monic);
    Regroup(done, d.remainder, [r.zero]);
    AddLowSplits(r, done, d.remainder + [r.zero], Scale(r, factor, monic));
    LeadingTerm(r, d, next, generator);
    Regroup(done, [next], DivideStep(r, d, next, generator).remainder);
  }

  lemma AddLowSplits<E>(r: Ring<E>, high: seq<E>, low: seq<E>, q: seq<E>)
    requires |low| == |q|
    ensures AddLow(r, high + low, q) == high + Plus(r, low, q)
  {
    assert (high + low)[..|high|] == high && (high + low)[|high|..] == low;
  }

  /** Adding the scaled divisor turns the leading coefficient into the next data coefficient. */
  lemma LeadingTerm<E(!new)>(r: Ring<E>, d: Division<E>, next: E, generator: seq<E>)
    requires Lawful(r) && |d.remainder| == |generator| > 0
    ensures Plus(r, d.remainder + [r.zero], Scale(r, r.add(next, d.remainder[0]), [r.one] + generator)) ==
            [next] + DivideStep(r, d, next, generator).remainder
  {
    var factor := r.add(next, d.remainder[0]);
    var sum := Plus(r, d.remainder + [r.zero], Scale(r, factor, [r.one] + generator));
    var rest := DivideStep(r, d, next, generator).remainder;
    LeadingCancels(r, d.remainder[0], next);
    assert sum[0] == next;
    forall i | 0 <= i < |generator|
      ensures sum[i + 1] == rest[i]
    {
      assert (d.remainder + [r.zero])[i + 1] == (d.remainder[1..] + [r.zero])[i];
    }
  }

  /** a + (b + a) * 1 == b */
  lemma LeadingCancels<E(!new)>(r: Ring<E>, a: E, b: E)
    requires Lawful(r)
    ensures r.add(a, r.mul(r.add(b, a), r.one)) == b
  {
    Laws(r, r.add(b, a), a, a);
    Laws(r, a, b, a);
    Laws(r, b, a, a);
    Laws(r, a, r.add(b, a), a);
    Laws(r, b, r.zero, a);
  }
}
