/** Records laid out as little-endian fields of fixed widths and closed by a CRC. */
module RecordFields {
  import opened Checksum
  import opened Sequences
  import opened Words

  function Little(v: nat, w: nat): (s: seq<byte>)
    ensures |s| == w
  {
    if w == 0 then [] else [v % 0x100] + Little(v / 0x100, w - 1)
  }

  function FromLittle(s: seq<byte>): nat {
    if s == [] then 0 else s[0] as int + 0x100 * FromLittle(s[1..])
  }

  function Limit(w: nat): nat { if w == 0 then 1 else 0x100 * Limit(w - 1) }

  lemma {:induction false} LittleBack(v: nat, w: nat)
    requires v < Limit(w)
    ensures FromLittle(Little(v, w)) == v
  {
    if w > 0 {
      LittleBack(v / 0x100, w - 1);
      assert Little(v, w)[1..] == Little(v / 0x100, w - 1);
    }
  }

  function Total(widths: seq<nat>): nat {
    if widths == [] then 0 else widths[0] + Total(widths[1..])
  }

  function Lay(values: seq<nat>, widths: seq<nat>): (s: seq<byte>)
    requires |values| == |widths|
    ensures |s| == Total(widths)
  {
    if values == [] then [] else Little(values[0], widths[0]) + Lay(values[1..], widths[1..])
  }

  function Take(widths: seq<nat>, s: seq<byte>): (values: seq<nat>)
    requires |s| == Total(widths)
    ensures |values| == |widths|
  {
    if widths == [] then [] else [FromLittle(s[..widths[0]])] + Take(widths[1..], s[widths[0]..])
  }

  ghost predicate Fit(values: seq<nat>, widths: seq<nat>) {
    |values| == |widths| && forall i :: 0 <= i < |values| ==> values[i] < Limit(widths[i])
  }

  /** Fields that fit read back. */
  lemma {:induction false} TakeLay(values: seq<nat>, widths: seq<nat>)
    requires Fit(values, widths)
    ensures Take(widths, Lay(values, widths)) == values
    decreases |values|
  {
    if values != [] {
      var v, w := values[0], widths[0];
      assert Limit(widths[0]) > values[0];
      LittleBack(v, w);
      TakeLay(values[1..], widths[1..]);
      Split(Little(v, w), Lay(values[1..], widths[1..]));
      assert values == [v] + values[1..];
    }
  }

  lemma {:induction false} LittleOf(s: seq<byte>)
    ensures FromLittle(s) < Limit(|s|) && Little(FromLittle(s), |s|) == s
  {
    if s != [] {
      LittleOf(s[1..]);
      var v := FromLittle(s);
      assert v % 0x100 == s[0] && v / 0x100 == FromLittle(s[1..]);
      assert s == [s[0]] + s[1..];
    }
  }

  /** Bytes are what is laid for the fields taken from them. */
  lemma {:induction false} LayTake(widths: seq<nat>, s: seq<byte>)
    requires |s| == Total(widths)
    ensures Fit(Take(widths, s), widths) && Lay(Take(widths, s), widths) == s
    decreases |widths|
  {
    if widths != [] {
      var w := widths[0];
      LittleOf(s[..w]);
      LayTake(widths[1..], s[w..]);
      FitCons(FromLittle(s[..w]), Take(widths[1..], s[w..]), widths);
      assert s == s[..w] + s[w..];
    }
  }

  lemma FitCons(v: nat, more: seq<nat>, widths: seq<nat>)
    requires widths != [] && v < Limit(widths[0]) && Fit(more, widths[1..])
    ensures Fit([v] + more, widths)
  {
    forall i | 0 <= i < |widths|
      ensures ([v] + more)[i] < Limit(widths[i])
    {
      if i > 0 {
        assert more[i - 1] < Limit(widths[1..][i - 1]);
      }
    }
  }

  lemma FirstField(widths: seq<nat>, s: seq<byte>)
    requires |s| == Total(widths) && widths != []
    ensures widths[0] <= |s| && Take(widths, s)[0] == FromLittle(s[..widths[0]])
    ensures |s[widths[0]..]| == Total(widths[1..])
    ensures Take(widths, s) == [FromLittle(s[..widths[0]])] + Take(widths[1..], s[widths[0]..])
  {
  }

  lemma {:induction false} TotalOn(a: seq<nat>, b: seq<nat>)
    ensures Total(a + b) == Total(a) + Total(b)
    decreases |a|
  {
    if a == [] {
      assert a + b == b;
    } else {
      assert (a + b)[1..] == a[1..] + b;
      TotalOn(a[1..], b);
    }
  }

  lemma Middle(s: seq<byte>, w: nat, m: nat)
    requires w <= m <= |s|
    ensures s[..w] == s[..m][..w] && s[w..][..m - w] == s[..m][w..] && s[w..][m - w..] == s[m..]
  {
  }

  /** Fields are taken independently of those before them. */
  lemma {:induction false} TakeOn(a: seq<nat>, b: seq<nat>, s: seq<byte>)
    requires |s| == Total(a + b)
    ensures Total(a) + Total(b) == |s| && Take(a + b, s) == Take(a, s[..Total(a)]) + Take(b, s[Total(a)..])
    decreases |a|
  {
    TotalOn(a, b);
    if a == [] {
      assert a + b == b && s[0..] == s;
    } else {
      var w := a[0];
      FrontOf(a, b);
      FirstField(a + b, s);
      FirstField(a, s[..Total(a)]);
      TakeOn(a[1..], b, s[w..]);
      Middle(s, w, Total(a));
      Regroup([FromLittle(s[..w])], Take(a[1..], s[..Total(a)][w..]), Take(b, s[Total(a)..]));
    }
  }

  /** Field `k` is read from behind the fields before it, which take `at` bytes. */
  lemma FieldAt(widths: seq<nat>, s: seq<byte>, k: nat, at: nat)
    requires |s| == Total(widths) && k < |widths| && at == Total(widths[..k])
    ensures at + widths[k] <= |s| && Take(widths, s)[k] == FromLittle(s[at..at + widths[k]])
  {
    Rejoin(widths, k);
    TakeOn(widths[..k], widths[k..], s);
    FirstField(widths[k..], s[at..]);
    assert s[at..][..widths[k]] == s[at..at + widths[k]];
  }

  function Repeat(w: nat, n: nat): (s: seq<nat>)
    ensures |s| == n
  {
    seq(n, _ => w)
  }

  lemma {:induction false} TotalRepeat(w: nat, n: nat)
    ensures Total(Repeat(w, n)) == n * w
  {
    if n > 0 {
      assert Repeat(w, n)[1..] == Repeat(w, n - 1);
      TotalRepeat(w, n - 1);
    }
  }

  lemma LittleIsPut(w: u32)
    ensures Little(w, 4) == Put(w)
  {
    assert Little(w, 4) == [w % 0x100] + Little(w / 0x100, 3);
    assert Little(w / 0x100, 3) == [w / 0x100 % 0x100] + Little(w / 0x100 / 0x100, 2);
    assert Little(w / 0x100 / 0x100, 2) == [w / 0x100 / 0x100 % 0x100] + Little(w / 0x100 / 0x100 / 0x100, 1);
    assert Little(w / 0x100 / 0x100 / 0x100, 1) == [w / 0x100 / 0x100 / 0x100 % 0x100] + Little(w / 0x100 / 0x100 / 0x100 / 0x100, 0);
    assert w / 0x1_0000 == w / 0x100 / 0x100 && w / 0x100_0000 == w / 0x100 / 0x100 / 0x100;
  }

  // ---------- writing and reading through a cursor ----------

  method PutBytes(record: array<byte>, at: nat, value: nat, bytes: nat)
    requires at + bytes <= record.Length
    modifies record
    ensures record[..] == old(record[..at]) + Little(value, bytes) + old(record[at + bytes..])
  {
    ghost var was, all := record[..], Little(value, bytes);
    var i, v := 0, value;
    while i < bytes
      invariant 0 <= i <= bytes && Remains(all, i, v, bytes)
      invariant Written(record[..], was, at, all, i)
    {
      NextByte(all, i, v, bytes);
      record[at + i] := v % 0x100;
      i, v := i + 1, v / 0x100;
    }
    WholeWritten(record[..], was, at, all);
  }

  /** From byte i on, the field is the low bytes of v. */
  ghost predicate Remains(all: seq<byte>, i: nat, v: nat, bytes: nat) {
    |all| == bytes && i <= bytes && all[i..] == Little(v, bytes - i)
  }

  lemma NextByte(all: seq<byte>, i: nat, v: nat, bytes: nat)
    requires Remains(all, i, v, bytes) && i < bytes
    ensures all[i] == v % 0x100 && Remains(all, i + 1, v / 0x100, bytes)
  {
    assert all[i] == all[i..][0] && all[i + 1..] == all[i..][1..];
  }

  /** The first i bytes have been written from `at` on, and nothing else has changed. */
  ghost predicate Written(now: seq<byte>, was: seq<byte>, at: nat, bytes: seq<byte>, i: nat) {
    && |now| == |was| && at + |bytes| <= |was| && i <= |bytes|
    && forall k :: 0 <= k < |now| ==> now[k] == if at <= k < at + i then bytes[k - at] else was[k]
  }

  lemma WholeWritten(now: seq<byte>, was: seq<byte>, at: nat, bytes: seq<byte>)
    requires Written(now, was, at, bytes, |bytes|)
    ensures now == was[..at] + bytes + was[at + |bytes|..]
  {
  }

  function Zeros(n: nat): seq<byte> { seq(n, _ => 0) }

  /** Copies bytes into a record that is zero beyond what has been filled so far. */
  method CopyOn(record: array<byte>, at: nat, bytes: seq<byte>, ghost filled: seq<byte>)
    requires |filled| <= at && at + |bytes| <= record.Length && record[..] == filled + Zeros(record.Length - |filled|)
    modifies record
    ensures record[..] == filled + Zeros(at - |filled|) + bytes + Zeros(record.Length - at - |bytes|)
  {
    ghost var was := record[..];
    var i := 0;
    while i < |bytes|
      invariant 0 <= i <= |bytes| && Written(record[..], was, at, bytes, i)
    {
      record[at + i] := bytes[i];
      i := i + 1;
    }
    WholeWritten(record[..], was, at, bytes);
    Filled(filled, record.Length, at, |bytes|);
  }

  lemma Filled(filled: seq<byte>, n: nat, at: nat, k: nat)
    requires |filled| <= at && at + k <= n
    ensures var was := filled + Zeros(n - |filled|); was[..at] == filled + Zeros(at - |filled|) && was[at + k..] == Zeros(n - at - k)
  {
  }

  method GetBytes(record: seq<byte>, at: nat, bytes: nat) returns (value: nat)
    requires at + bytes <= |record|
    ensures value == FromLittle(record[at..at + bytes])
  {
    value := 0;
    var i := bytes;
    while i > 0
      invariant 0 <= i <= bytes && value == FromLittle(record[at + i..at + bytes])
    {
      i := i - 1;
      assert record[at + i..at + bytes][1..] == record[at + i + 1..at + bytes];
      value := record[at + i] as int + 0x100 * value;
    }
  }

  /** Writes the fields one after another from the front of a record. */
  method PutFields(record: array<byte>, values: seq<nat>, widths: seq<nat>)
    requires |values| == |widths| && Total(widths) <= record.Length
    modifies record
    ensures record[..] == Lay(values, widths) + old(record[Total(widths)..])
  {
    ghost var was := record[..];
    var at, i := 0, 0;
    assert widths[0..] == widths && values[0..] == values && was[..0] == [];
    while i < |values|
      invariant 0 <= i <= |values| && 0 <= at <= record.Length && at + Total(widths[i..]) == Total(widths)
      invariant record[..] == record[..at] + was[at..] && record[..at] + Lay(values[i..], widths[i..]) == Lay(values, widths)
    {
      assert widths[i..][1..] == widths[i + 1..] && values[i..][1..] == values[i + 1..];
      ghost var head := record[..at];
      PutBytes(record, at, values[i], widths[i]);
      Forward(head, Little(values[i], widths[i]), Lay(values[i + 1..], widths[i + 1..]), was, at, record[..]);
      at, i := at + widths[i], i + 1;
    }
    assert record[..at] + [] == record[..at];
  }

  lemma Forward(head: seq<byte>, field: seq<byte>, more: seq<byte>, was: seq<byte>, at: nat, now: seq<byte>)
    requires |head| == at && at + |field| <= |was| && now == head + field + (head + was[at..])[at + |field|..]
    ensures now[..at + |field|] == head + field && now == head + field + was[at + |field|..]
    ensures head + (field + more) == now[..at + |field|] + more
  {
  }

  /** Reads the fields one after another. */
  method GetFields(record: seq<byte>, widths: seq<nat>) returns (values: seq<nat>)
    requires |record| == Total(widths)
    ensures values == Take(widths, record)
  {
    values := [];
    var at, i := 0, 0;
    assert widths[0..] == widths && record[0..] == record;
    while i < |widths|
      invariant 0 <= i <= |widths| && 0 <= at <= |record| && |record[at..]| == Total(widths[i..])
      invariant Take(widths, record) == values + Take(widths[i..], record[at..])
    {
      assert widths[i..][1..] == widths[i + 1..];
      var v := GetBytes(record, at, widths[i]);
      assert record[at..][..widths[i]] == record[at..at + widths[i]] && record[at..][widths[i]..] == record[at + widths[i]..];
      values := values + [v];
      at, i := at + widths[i], i + 1;
    }
  }

  // ---------- the seal ----------

  /** A record whose last four bytes are the CRC of the rest. */
  predicate Sealed(r: seq<byte>) {
    |r| >= 4 && Get(r[|r| - 4..]) == Crc(r[..|r| - 4])
  }

  function Seal(s: seq<byte>): seq<byte> { s + Put(Crc(s)) }

  lemma SealIsSealed(s: seq<byte>)
    ensures Sealed(Seal(s)) && |Seal(s)| == |s| + 4 && Seal(s)[..|s|] == s
  {
    assert Seal(s)[|s|..] == Put(Crc(s));
    GetPut(Crc(s));
  }

  lemma SealedIsSeal(r: seq<byte>)
    requires Sealed(r)
    ensures r == Seal(r[..|r| - 4])
  {
    PutGet(r[|r| - 4..]);
    Rejoin(r, |r| - 4);
  }

  /** Changing any one byte of a sealed record breaks the seal. */
  lemma DamageBreaksSeal(r: seq<byte>, i: nat, b: byte)
    requires Sealed(r) && i < |r| && b != r[i]
    ensures !Sealed(r[i := b])
  {
    var n := |r| - 4;
    var d := r[i := b];
    if i < n {
      assert d[..n] == r[..n][i := b] && d[n..] == r[n..];
      OneByteChangesCrc(r[..n], i, b);
    } else {
      assert d[..n] == r[..n] && d[n..][i - n] == b && r[n..][i - n] == r[i];
      PutGet(d[n..]);
      PutGet(r[n..]);
    }
  }
}
