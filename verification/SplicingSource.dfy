/** Remainders modulo a frame size, unfolded one frame at a time. */
module Frames {

  function Tail(x: nat, n: nat): (r: nat)
    requires 1 <= n
    ensures r <= x && r < n
  {
    if x < n then x else Tail(x - n, n)
  }

  lemma {:induction false} TailAdd(a: nat, b: nat, n: nat)
    requires 1 <= n && Tail(a, n) == 0
    ensures Tail(a + b, n) == Tail(b, n)
  {
    if n <= a {
      TailAdd(a - n, b, n);
    }
  }

  lemma {:induction false} TailSplit(x: nat, n: nat)
    requires 1 <= n
    ensures Tail(x - Tail(x, n), n) == 0
  {
    if n <= x {
      TailSplit(x - n, n);
    }
  }

  lemma {:induction false} TailIsRemainder(x: nat, n: nat)
    requires 1 <= n
    ensures Tail(x, n) == x % n
  {
    if x < n {
      QuotientUnique(x, n, 0, x);
    } else {
      TailIsRemainder(x - n, n);
      var q := (x - n) / n;
      assert x - n == n * q + (x - n) % n;
      assert n * (q + 1) == n * q + n;
      QuotientUnique(x, n, q + 1, (x - n) % n);
    }
  }

  lemma QuotientUnique(x: nat, n: nat, q: nat, r: nat)
    requires 1 <= n && r < n && x == n * q + r
    ensures x % n == r
  {
    var q', r' := x / n, x % n;
    assert x == n * q' + r';
    SameQuotient(n, q, r, q', r');
  }

  lemma SameQuotient(n: nat, q: nat, r: nat, q': nat, r': nat)
    requires r < n && r' < n && n * q + r == n * q' + r'
    ensures q == q' && r == r'
  {
    if q < q' {
      NextMultiple(n, q, q');
    } else if q' < q {
      NextMultiple(n, q', q);
    }
  }

  lemma {:induction false} NextMultiple(n: nat, q: nat, q': nat)
    requires q < q'
    ensures n * q + n <= n * q'
  {
    OneMore(n, q' - 1);
    if q < q' - 1 {
      NextMultiple(n, q, q' - 1);
    }
  }

  lemma OneMore(n: nat, q: nat)
    ensures n * (q + 1) == n * q + n
  {
  }
}

/**
 The zero-copy ring-buffer source: whatever chunks the ring buffer hands out, and
 however the caller consumes them, the caller sees the byte stream in order, in
 whole frames, and only a frame across a chunk boundary is ever copied.

 A pointer is an array and an offset. Since construction or the last clear, `taken` is
 every byte acquired from the ring buffer and `given` every byte the caller consumed.
 */
module SplicingSource {
  import opened Frames
  import opened Words

  const MAX_ALIGNMENT_BYTES := 8

  /** The stream as the source holds it: consumed, exposed, queued, and the sub-frame tail or pending splice. */
  function Stream(given: seq<byte>, exposed: seq<byte>, queued: seq<byte>, tail: seq<byte>): seq<byte> {
    given + exposed + queued + tail
  }

  lemma ConsumeRegroups(g: seq<byte>, e: seq<byte>, q: seq<byte>, t: seq<byte>, n: nat)
    requires n <= |e|
    ensures Stream(g, e, q, t) == Stream(g + e[..n], e[n..], q, t)
  {
    assert g + e == (g + e[..n]) + e[n..];
  }

  lemma PromoteRegroups(g: seq<byte>, q: seq<byte>, t: seq<byte>)
    ensures Stream(g, [], q, t) == Stream(g, q, [], t)
  {
    assert g + [] == g && g + q + [] == g + q;
  }

  lemma ArriveRegroups(g: seq<byte>, t: seq<byte>, c: seq<byte>)
    ensures Stream(g, [], [], t) + c == Stream(g, [], [], t + c)
  {
  }

  /** A chunk of which the first `start` bytes complete the pending frame and `aligned` more are whole frames. */
  lemma SpliceRegroups(g: seq<byte>, t: seq<byte>, c: seq<byte>, start: nat, aligned: nat)
    requires start + aligned <= |c|
    ensures Stream(g, [], [], t) + c == Stream(g, t + c[..start], c[start..start + aligned], c[start + aligned..])
  {
    assert c == c[..start] + c[start..start + aligned] + c[start + aligned..];
  }

  lemma ChunkRegroups(g: seq<byte>, c: seq<byte>, aligned: nat)
    requires aligned <= |c|
    ensures Stream(g, [], [], []) + c == Stream(g, c[..aligned], [], c[aligned..])
  {
    assert c == c[..aligned] + c[aligned..];
  }

  /** A pointer into a buffer and the number of bytes it is good for. */
  datatype Region = Region(data: array<byte>, at: nat, length: nat)

  predicate InBounds(r: Region) { r.at + r.length <= r.data.Length }

  ghost function Bytes(r: Region): seq<byte>
    reads r.data
    requires InBounds(r)
  {
    r.data[r.at..r.at + r.length]
  }

  class RingBufferAudioSource {
    const alignment: nat
    const spliceBuffer: array<byte>

    var acquired: array?<byte>
    var current: Region
    var queued: Region
    var trailing: Region
    var spliceLength: nat

    ghost var taken: seq<byte>
    ghost var given: seq<byte>

    /**
     Regions point into the splice buffer or the item still held, never into one given
     back, and no pending splice coexists with a held item.
     */
    ghost predicate Shape()
      reads this
    {
      && 1 <= alignment <= MAX_ALIGNMENT_BYTES && spliceBuffer.Length == MAX_ALIGNMENT_BYTES && acquired != spliceBuffer
      && InBounds(current) && InBounds(queued) && InBounds(trailing)
      && spliceLength < alignment && trailing.length < alignment
      && (0 < current.length ==> acquired != null && (current.data == spliceBuffer || current.data == acquired))
      && (0 < queued.length ==> queued.data == acquired)
      && (0 < trailing.length ==> trailing.data == acquired)
      && (acquired != null ==> spliceLength == 0)
    }

    /** The incomplete frame at the end of what was acquired. */
    ghost function TailBytes(): seq<byte>
      reads this, spliceBuffer, trailing.data
      requires Shape()
    {
      if acquired == null then spliceBuffer[..spliceLength] else Bytes(trailing)
    }

    ghost predicate Conserved()
      reads this, spliceBuffer, current.data, queued.data, trailing.data
      requires Shape()
    {
      taken == Stream(given, Bytes(current), Bytes(queued), TailBytes())
    }

    ghost predicate Valid()
      reads this, spliceBuffer, current.data, queued.data, trailing.data
    {
      && Shape() && Conserved()
      && Tail(|given| + current.length, alignment) == 0 && Tail(queued.length, alignment) == 0
      && (acquired != null ==> 0 < current.length + queued.length)
    }

    constructor (alignment: nat)
      requires 1 <= alignment <= MAX_ALIGNMENT_BYTES
      ensures Valid() && fresh(spliceBuffer) && this.alignment == alignment
      ensures taken == [] && given == [] && acquired == null
    {
      this.alignment := alignment;
      var buffer := new byte[MAX_ALIGNMENT_BYTES](_ => 0);
      spliceBuffer := buffer;
      acquired := null;
      current, queued, trailing := Region(buffer, 0, 0), Region(buffer, 0, 0), Region(buffer, 0, 0);
      spliceLength := 0;
      taken, given := [], [];
    }

    /** Saves the sub-frame tail of the held item and gives the item back. */
    method ReleaseItem()
      requires Shape() && current.length == 0 && queued.length == 0
      modifies this`acquired, this`trailing, this`spliceLength, spliceBuffer
      ensures Shape() && acquired == null && TailBytes() == old(TailBytes())
    {
      if acquired == null {
        return;
      }
      if 0 < trailing.length {
        forall i | 0 <= i < trailing.length {
          spliceBuffer[i] := trailing.data[trailing.at + i];
        }
        spliceLength := trailing.length;
        trailing := Region(spliceBuffer, 0, 0);
      }
      acquired := null;
    }

    /** Consumes up to `bytes` of the exposed region. */
    method Consume(bytes: nat)
      requires Valid()
      modifies this`current, this`given, this`acquired, this`trailing, this`spliceLength, spliceBuffer
      ensures Valid() && taken == old(taken)
      ensures var n := if bytes < old(current.length) then bytes else old(current.length);
        given == old(given) + old(Bytes(current))[..n] && Bytes(current) == old(Bytes(current))[n..]
    {
      var n := if bytes < current.length then bytes else current.length;
      Advance(n);
      Settle();
    }

    /** Gives the item back once nothing of it is exposed or queued. */
    method Settle()
      requires Shape() && Conserved() && Tail(|given| + current.length, alignment) == 0 && Tail(queued.length, alignment) == 0
      modifies this`acquired, this`trailing, this`spliceLength, spliceBuffer
      ensures Valid() && Bytes(current) == old(Bytes(current))
    {
      if current.length == 0 && queued.length == 0 {
        Exhaust();
        assert Bytes(current) == [];
      }
    }

    method Advance(n: nat)
      requires Shape() && Conserved() && n <= current.length
      modifies this`current, this`given
      ensures Shape() && Conserved() && current.length == old(current.length) - n
      ensures given == old(given) + old(Bytes(current))[..n] && Bytes(current) == old(Bytes(current))[n..]
    {
      ghost var exposed := Bytes(current);
      ConsumeRegroups(given, exposed, Bytes(queued), TailBytes(), n);
      given := given + exposed[..n];
      current := Region(current.data, current.at + n, current.length - n);
      assert Bytes(current) == exposed[n..];
    }

    /** Nothing exposed or queued depends on the held item any more. */
    method Exhaust()
      requires Shape() && Conserved() && current.length == 0 && queued.length == 0
      modifies this`acquired, this`trailing, this`spliceLength, spliceBuffer
      ensures Shape() && Conserved() && acquired == null && spliceLength == old(|TailBytes()|)
    {
      assert Bytes(current) == [] && Bytes(queued) == [];
      ReleaseItem();
      assert Bytes(current) == [] && Bytes(queued) == [];
    }

    /** The queued remainder of the chunk becomes the exposed region. */
    method Promote() returns (size: nat)
      requires Valid() && current.length == 0 && 0 < queued.length
      modifies this`current, this`queued
      ensures Valid() && current == old(queued) && queued.length == 0 && size == current.length && Tail(size, alignment) == 0
    {
      assert Bytes(current) == [];
      PromoteRegroups(given, Bytes(queued), TailBytes());
      TailAdd(|given|, queued.length, alignment);
      current := queued;
      queued := Region(spliceBuffer, 0, 0);
      assert Bytes(queued) == [];
      size := current.length;
    }

    /**
     Exposes the next region when nothing is exposed. `chunk` is what the ring buffer
     hands out if asked; it is asked only when nothing is queued either.
     */
    method Fill(chunk: array?<byte>) returns (size: nat)
      requires Valid() && chunk != spliceBuffer
      modifies this, spliceBuffer
      ensures Valid() && given == old(given)
      ensures taken == if old(current.length) == 0 && old(queued.length) == 0 && chunk != null then old(taken) + old(chunk[..]) else old(taken)
      ensures old(current.length) > 0 ==> size == 0 && Bytes(current) == old(Bytes(current))
      ensures old(current.length) == 0 ==> size == current.length && size % alignment == 0
      ensures old(current.length) == 0 && size == 0 ==> queued.length == 0
      ensures old(current.length) == 0 && 0 < old(queued.length) ==> current == old(queued) && queued.length == 0
      ensures old(current.length == 0 && queued.length == 0) && chunk != null ==> Exposes(old(spliceLength), chunk, size)
    {
      if 0 < current.length {
        return 0;
      }
      if 0 < queued.length {
        size := Promote();
        TailIsRemainder(size, alignment);
        return;
      }
      Exhaust();
      size := Acquire(chunk);
    }

    /**
     What a new chunk leads to: without a pending splice its own bytes, where they lie, and
     nothing queued; with one, the completed frame alone.
     */
    ghost predicate Exposes(pending: nat, chunk: array<byte>, size: nat)
      reads this
    {
      if pending == 0 then queued.length == 0 && (0 < size ==> current == Region(chunk, 0, size))
      else 0 < size ==> size == alignment && current == Region(spliceBuffer, 0, alignment)
    }

    /** Asks the ring buffer for a chunk, with nothing exposed, queued or held. */
    method Acquire(chunk: array?<byte>) returns (size: nat)
      requires Shape() && Conserved() && acquired == null && chunk != spliceBuffer && Tail(|given|, alignment) == 0
      modifies this, spliceBuffer
      ensures Valid() && given == old(given) && size == current.length && size % alignment == 0
      ensures size == 0 ==> queued.length == 0
      ensures chunk != null ==> Exposes(old(spliceLength), chunk, size)
      ensures taken == if chunk != null then old(taken) + old(chunk[..]) else old(taken)
    {
      assert Bytes(current) == [] && Bytes(queued) == [];
      if chunk == null {
        return 0;
      }
      taken := taken + chunk[..];
      size := Accept(chunk);
      TailIsRemainder(size, alignment);
    }

    /** Nothing is held but the pending splice, and `chunk` has just been acquired. */
    ghost predicate Arriving(chunk: array<byte>)
      reads this, spliceBuffer, trailing.data, chunk
    {
      && Shape() && chunk != spliceBuffer && acquired == null
      && taken == Stream(given, [], [], TailBytes()) + chunk[..] && Tail(|given|, alignment) == 0
    }

    method Accept(chunk: array<byte>) returns (size: nat)
      requires Arriving(chunk)
      modifies this, spliceBuffer
      ensures Valid() && given == old(given) && taken == old(taken)
      ensures size == current.length && Tail(size, alignment) == 0 && (size == 0 ==> queued.length == 0)
      ensures Exposes(old(spliceLength), chunk, size)
    {
      if 0 < spliceLength {
        var needed := alignment - spliceLength;
        if chunk.Length < needed {
          Absorb(chunk);
          return 0;
        }
        ghost var pending := TailBytes();
        CompleteFrame(chunk, needed);
        size := ExposeSplice(chunk, needed, pending);
      } else {
        size := ExposeChunk(chunk);
      }
    }

    /** Too little to complete the frame: everything joins the pending splice. */
    method Absorb(chunk: array<byte>)
      requires Arriving(chunk) && spliceLength + chunk.Length < alignment
      modifies this`spliceLength, spliceBuffer
      ensures Valid() && current.length == 0 && queued.length == 0
    {
      ghost var pending, bytes := TailBytes(), chunk[..];
      ArriveRegroups(given, pending, bytes);
      forall i | 0 <= i < chunk.Length {
        spliceBuffer[spliceLength + i] := chunk[i];
      }
      spliceLength := spliceLength + chunk.Length;
      assert TailBytes() == pending + bytes;
      assert Bytes(current) == [] && Bytes(queued) == [];
    }

    /** Holds the item and splits what follows `start` into its aligned region and sub-frame tail. */
    method Hold(chunk: array<byte>, start: nat) returns (aligned: nat)
      requires 1 <= alignment && start <= chunk.Length
      modifies this`acquired, this`trailing
      ensures acquired == chunk && start + aligned <= chunk.Length && Tail(aligned, alignment) == 0
      ensures trailing == Region(chunk, start + aligned, chunk.Length - start - aligned) && trailing.length < alignment
    {
      var length := chunk.Length - start;
      TailIsRemainder(length, alignment);
      TailSplit(length, alignment);
      var tail := if alignment > 1 then length % alignment else 0;
      aligned := length - tail;
      acquired := chunk;
      trailing := Region(chunk, start + aligned, tail);
    }

    method CompleteFrame(chunk: array<byte>, needed: nat)
      requires Arriving(chunk) && 0 < spliceLength && needed == alignment - spliceLength <= chunk.Length
      modifies spliceBuffer, this`spliceLength
      ensures spliceLength == 0 && chunk[..] == old(chunk[..])
      ensures spliceBuffer[..alignment] == old(TailBytes()) + chunk[..needed]
    {
      forall i | 0 <= i < needed {
        spliceBuffer[spliceLength + i] := chunk[i];
      }
      spliceLength := 0;
    }

    /** Exposes the completed frame, queuing the chunk's aligned region behind it. */
    method ExposeSplice(chunk: array<byte>, needed: nat, ghost pending: seq<byte>) returns (size: nat)
      requires Shape() && chunk != spliceBuffer && acquired == null && spliceLength == 0 && needed <= chunk.Length
      requires spliceBuffer[..alignment] == pending + chunk[..needed]
      requires taken == Stream(given, [], [], pending) + chunk[..] && Tail(|given|, alignment) == 0
      modifies this`acquired, this`trailing, this`current, this`queued
      ensures Valid() && size == alignment && current == Region(spliceBuffer, 0, alignment) && Tail(size, alignment) == 0
    {
      ghost var bytes := chunk[..];
      var aligned := Hold(chunk, needed);
      SpliceRegroups(given, pending, bytes, needed, aligned);
      TailAdd(|given|, alignment, alignment);
      var frame, rest := Region(spliceBuffer, 0, alignment), Region(chunk, needed, aligned);
      assert Bytes(frame) == pending + bytes[..needed];
      assert Bytes(rest) == bytes[needed..needed + aligned];
      assert Bytes(trailing) == bytes[needed + aligned..];
      current, queued := frame, rest;
      size := alignment;
    }

    /** Exposes the chunk's own aligned region, or saves it whole when it is all tail. */
    method ExposeChunk(chunk: array<byte>) returns (size: nat)
      requires Arriving(chunk) && spliceLength == 0
      modifies this, spliceBuffer
      ensures Valid() && size == current.length && given == old(given) && taken == old(taken) && Tail(size, alignment) == 0
      ensures queued.length == 0 && (0 < size ==> current == Region(chunk, 0, size))
    {
      ghost var bytes := chunk[..];
      assert TailBytes() == [];
      var aligned := Hold(chunk, 0);
      ChunkRegroups(given, bytes, aligned);
      TailAdd(|given|, aligned, alignment);
      current := Region(chunk, 0, aligned);
      queued := Region(spliceBuffer, 0, 0);
      assert Bytes(current) == bytes[..aligned] && Bytes(queued) == [] && Bytes(trailing) == bytes[aligned..];
      if aligned == 0 {
        current := Region(spliceBuffer, 0, 0);
        assert Bytes(current) == [];
        Exhaust();
        return 0;
      }
      size := aligned;
    }

    /** Whether anything is still to come, given what the ring buffer reports. */
    method HasBufferedData(ringAvailable: nat) returns (more: bool)
      requires Valid()
      ensures more == (0 < current.length || 0 < queued.length || 0 < ringAvailable)
      ensures !more ==> given == taken[..|taken| - |taken| % alignment]
    {
      more := 0 < current.length || 0 < queued.length || 0 < ringAvailable;
      if !more {
        Drained();
      }
    }

    /** What is exposed and queued is every whole frame taken and not yet consumed. */
    lemma WholeFrames()
      requires Valid()
      ensures |given| <= |taken|
      ensures current.length + queued.length == |taken| - |given| - |taken| % alignment
    {
      TailAdd(|given| + current.length, queued.length, alignment);
      TailAdd(|given| + current.length + queued.length, |TailBytes()|, alignment);
      TailIsRemainder(|taken|, alignment);
    }

    /** When nothing is exposed or queued, exactly the whole frames of the stream have been consumed. */
    lemma Drained()
      requires Valid() && current.length == 0 && queued.length == 0
      ensures given == taken[..|taken| - |taken| % alignment]
    {
      assert Bytes(current) == [] && Bytes(queued) == [];
      assert taken == given + TailBytes() && |TailBytes()| < alignment;
      TailAdd(|given|, |TailBytes()|, alignment);
      TailIsRemainder(|taken|, alignment);
    }

    /** Forgets everything in flight. */
    method ClearBufferedData()
      requires Valid()
      modifies this
      ensures Valid() && taken == [] && given == [] && current.length == 0 && acquired == null && spliceLength == 0
    {
      acquired := null;
      current, queued, trailing := Region(spliceBuffer, 0, 0), Region(spliceBuffer, 0, 0), Region(spliceBuffer, 0, 0);
      spliceLength := 0;
      taken, given := [], [];
    }
  }
}
