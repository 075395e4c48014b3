/**
 The 32-bit window below the highest nonce count seen (section 3.4 of RFC 7616), and the
 set of counts it stands for. `Bit` is the mask test of the code; `Flag` reads the same
 bit by shifting down, which is the form the proofs recurse on.
 */
module ReplayWindow {
  import opened Words

  datatype Replay = Replay(highest: u32, seen: bv32)

  /** A shift amount. */
  function Amount(k: nat): bv6
    requires k < 32
  {
    k as bv6
  }

  predicate Bit(seen: bv32, k: nat)
    requires k < 32
  {
    BitAt(seen, Amount(k))
  }

  predicate BitAt(seen: bv32, k: bv6) { k <= 32 && seen & ((1 as bv32) << k) != 0 }

  function ShiftIn(seen: bv32, k: nat): bv32
    requires k < 32
  {
    AmountBounds(k);
    (seen << Amount(k)) | 1
  }

  function Mark(seen: bv32, k: nat): bv32
    requires k < 32
  {
    AmountBounds(k);
    seen | ((1 as bv32) << Amount(k))
  }

  /** The check before anything else of a request is believed. */
  predicate Passes(r: Replay, count: u32) {
    !(count <= r.highest && (r.highest - count >= 32 || Bit(r.seen, r.highest - count)))
  }

  /** The window after a count has been accepted. */
  function Advance(r: Replay, count: u32): Replay
    requires Passes(r, count)
  {
    if count > r.highest then
      var distance := count - r.highest;
      Replay(count, if distance >= 32 then 1 else ShiftIn(r.seen, distance))
    else Replay(r.highest, Mark(r.seen, r.highest - count))
  }

  // ---------- the bits of the word ----------

  lemma AmountBelow(k: nat)
    requires k < 32
    ensures Amount(k) < 32
  {
  }

  lemma AmountValue(k: nat)
    requires k < 32
    ensures Amount(k) as nat == k
  {
  }

  lemma ValueStep(a: bv6, b: bv6)
    requires a as nat == b as nat + 1
    ensures a > 0 && a - 1 == b
  {
  }

  lemma AmountStep(k: nat)
    requires 0 < k < 32
    ensures Amount(k) > 0 && Amount(k) - 1 == Amount(k - 1)
  {
    AmountValue(k);
    AmountValue(k - 1);
    ValueStep(Amount(k), Amount(k - 1));
  }

  lemma AmountBounds(k: nat)
    requires k < 32
    ensures Amount(k) < 32 && (k > 0 ==> Amount(k) > 0 && Amount(k) - 1 == Amount(k - 1))
  {
    AmountBelow(k);
    if k > 0 { AmountStep(k); }
  }

  lemma {:induction false} AmountApart(j: nat, k: nat)
    requires j < 32 && k < 32 && Amount(j) == Amount(k)
    ensures j == k
  {
    AmountBounds(j);
    AmountBounds(k);
    if j > 0 && k > 0 { AmountApart(j - 1, k - 1); }
  }

  predicate Flag(seen: bv32, k: nat) {
    if k == 0 then seen & 1 == 1 else Flag(seen >> 1, k - 1)
  }

  lemma BitDown(seen: bv32, k: bv6)
    requires 0 < k < 32
    ensures BitAt(seen, k) <==> BitAt(seen >> 1, k - 1)
  {
  }

  lemma BitZero(seen: bv32)
    ensures BitAt(seen, 0) <==> seen & 1 == 1
  {
  }

  lemma {:induction false} BitIsFlag(seen: bv32, k: nat)
    requires k < 32
    ensures BitAt(seen, Amount(k)) <==> Flag(seen, k)
  {
    AmountBounds(k);
    if k > 0 {
      BitDown(seen, Amount(k));
      BitIsFlag(seen >> 1, k - 1);
    } else {
      BitZero(seen);
    }
  }

  lemma OrOne(x: bv32, k: bv6)
    requires k < 32
    ensures BitAt(x | 1, k) <==> k == 0 || BitAt(x, k)
  {
  }

  lemma OrMark(seen: bv32, j: bv6, k: bv6)
    requires j < 32 && k < 32
    ensures BitAt(seen | ((1 as bv32) << j), k) <==> k == j || BitAt(seen, k)
  {
  }

  lemma OrOneFlag(x: bv32, k: nat)
    requires k < 32
    ensures Flag(x | 1, k) <==> k == 0 || Flag(x, k)
  {
    AmountBounds(k);
    OrOne(x, Amount(k));
    BitIsFlag(x, k);
    BitIsFlag(x | 1, k);
  }

  lemma MarkFlag(seen: bv32, j: nat, k: nat)
    requires j < 32 && k < 32
    ensures Flag(Mark(seen, j), k) <==> k == j || Flag(seen, k)
  {
    AmountBounds(j);
    AmountBounds(k);
    OrMark(seen, Amount(j), Amount(k));
    BitIsFlag(seen, k);
    BitIsFlag(Mark(seen, j), k);
    if j != k && Amount(j) == Amount(k) { AmountApart(j, k); }
  }

  function Doubled(seen: bv32, d: nat): bv32 {
    if d == 0 then seen else Doubled(seen, d - 1) << 1
  }

  lemma ShiftUp(seen: bv32, d: bv6)
    requires 0 < d < 32
    ensures seen << d == (seen << (d - 1)) << 1
  {
  }

  lemma ShiftNone(seen: bv32)
    ensures seen << (0 as bv6) == seen
  {
  }

  lemma {:induction false} ShiftIsDoubled(seen: bv32, d: nat)
    requires d < 32 && Amount(d) < 32
    ensures seen << Amount(d) == Doubled(seen, d)
  {
    AmountBounds(d);
    if d > 0 {
      ShiftUp(seen, Amount(d));
      AmountBounds(d - 1);
      ShiftIsDoubled(seen, d - 1);
    } else {
      ShiftNone(seen);
    }
  }

  lemma BitUp(x: bv32, k: bv6)
    requires 0 < k < 32
    ensures BitAt(x << 1, k) <==> BitAt(x, k - 1)
  {
  }

  lemma FlagDouble(x: bv32, k: nat)
    requires 0 < k < 32
    ensures Flag(x << 1, k) == Flag(x, k - 1)
  {
    AmountBounds(k);
    BitUp(x, Amount(k));
    BitIsFlag(x << 1, k);
    BitIsFlag(x, k - 1);
  }

  lemma LowClear(x: bv32)
    ensures (x << 1) & 1 == 0
  {
  }

  lemma {:induction false} DoubledFlag(seen: bv32, d: nat, k: nat)
    requires k < 32
    ensures Flag(Doubled(seen, d), k) <==> k >= d && Flag(seen, k - d)
  {
    if d > 0 {
      var x := Doubled(seen, d - 1);
      if k == 0 {
        LowClear(x);
      } else {
        FlagDouble(x, k);
        DoubledFlag(seen, d - 1, k - 1);
      }
    }
  }

  lemma ShiftInIsDoubled(seen: bv32, d: nat)
    requires d < 32
    ensures ShiftIn(seen, d) == Doubled(seen, d) | 1
  {
    AmountBounds(d);
    ShiftIsDoubled(seen, d);
  }

  lemma OrOneKnown(x: bv32, k: nat, p: bool, y: bv32)
    requires k < 32 && (Flag(x, k) <==> p) && y == x | 1
    ensures Flag(y, k) <==> k == 0 || p
  {
    OrOneFlag(x, k);
  }

  lemma ShiftInFlag(seen: bv32, d: nat, k: nat)
    requires 0 < d < 32 && k < 32
    ensures Flag(ShiftIn(seen, d), k) <==> k == 0 || (k >= d && Flag(seen, k - d))
  {
    ShiftInIsDoubled(seen, d);
    DoubledFlag(seen, d, k);
    OrOneKnown(Doubled(seen, d), k, k >= d && Flag(seen, k - d), ShiftIn(seen, d));
  }

  lemma {:induction false} ZeroFlag(k: nat)
    ensures !Flag(0, k)
  {
    assert (0 as bv32) >> 1 == 0;
    if k > 0 { ZeroFlag(k - 1); }
  }

  lemma OneFlag(k: nat)
    requires k < 32
    ensures Flag(1, k) <==> k == 0
  {
    assert (0 as bv32) | 1 == 1;
    OrOneFlag(0, k);
    ZeroFlag(k);
  }

  // ---------- the set of counts ----------

  /** The window stands for the set of accepted counts. */
  ghost predicate Refines(r: Replay, accepted: set<u32>) {
    && (forall c :: c in accepted ==> 0 < c <= r.highest)
    && (r.highest > 0 ==> r.highest in accepted)
    && forall k: nat :: k < 32 && k < r.highest ==> (Flag(r.seen, k) <==> r.highest - k in accepted)
  }

  /** Above every count accepted so far, or unused and less than 32 below the highest of them. */
  ghost predicate Unused(highest: u32, accepted: set<u32>, count: u32) {
    count > highest || (highest - count < 32 && count !in accepted)
  }

  lemma PassesExactly(r: Replay, accepted: set<u32>, count: u32)
    requires Refines(r, accepted) && count > 0
    ensures Passes(r, count) <==> Unused(r.highest, accepted, count)
  {
    var k := r.highest - count;
    if 0 <= k < 32 {
      BitIsFlag(r.seen, k);
      assert r.highest - k == count;
    }
  }

  lemma AdvancedFlag(r: Replay, accepted: set<u32>, count: u32, k: nat)
    requires Refines(r, accepted) && Passes(r, count) && count > 0 && k < 32 && k < Advance(r, count).highest
    ensures Flag(Advance(r, count).seen, k) <==> Advance(r, count).highest - k in accepted + {count}
  {
    var d := count - r.highest;
    if d >= 32 {
      OneFlag(k);
    } else if d > 0 {
      ShiftInFlag(r.seen, d, k);
      if k >= d { assert r.highest - (k - d) == count - k; }
    } else {
      MarkFlag(r.seen, -d, k);
    }
  }

  /** Accepting a count that passes keeps the window in step with the set. */
  lemma AdvanceRefines(r: Replay, accepted: set<u32>, count: u32)
    requires Refines(r, accepted) && Passes(r, count) && count > 0
    ensures Refines(Advance(r, count), accepted + {count})
  {
    var next := Advance(r, count);
    forall k: nat | k < 32 && k < next.highest ensures Flag(next.seen, k) <==> next.highest - k in accepted + {count} {
      AdvancedFlag(r, accepted, count, k);
    }
  }
}
