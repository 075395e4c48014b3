/** Bytes, unsigned 32-bit words and their little-endian layout, over the integers. */
module Words {

  type byte = x: int | 0 <= x < 0x100

  type u32 = x: int | 0 <= x < 0x1_0000_0000

  function Put(w: u32): (s: seq<byte>)
    ensures |s| == 4
  {
    [w % 0x100, (w / 0x100) % 0x100, (w / 0x1_0000) % 0x100, w / 0x100_0000]
  }

  function Get(s: seq<byte>): u32
    requires |s| == 4
  {
    Weighted(s[0], s[1], s[2], s[3])
  }

  function Weighted(a: int, b: int, c: int, d: int): u32
    requires 0 <= a < 0x100 && 0 <= b < 0x100 && 0 <= c < 0x100 && 0 <= d < 0x100
  {
    a + 0x100 * b + 0x1_0000 * c + 0x100_0000 * d
  }

  lemma GetPut(w: u32)
    ensures Get(Put(w)) == w
  {
    assert w / 0x1_0000 == w / 0x100 / 0x100;
    assert w / 0x100_0000 == w / 0x1_0000 / 0x100;
  }

  lemma PutGet(s: seq<byte>)
    requires |s| == 4
    ensures Put(Get(s)) == s
  {
    Digits(s[0], s[1], s[2], s[3]);
  }

  lemma Digits(a: byte, b: byte, c: byte, d: byte)
    ensures var u := a + 0x100 * b + 0x1_0000 * c + 0x100_0000 * d;
      u % 0x100 == a && (u / 0x100) % 0x100 == b && (u / 0x1_0000) % 0x100 == c && u / 0x100_0000 == d
  {
    var u := a + 0x100 * b + 0x1_0000 * c + 0x100_0000 * d;
    assert u / 0x100 == b + 0x100 * c + 0x1_0000 * d;
    assert u / 0x1_0000 == c + 0x100 * d;
  }

  predicate Int32(x: int) { -0x8000_0000 <= x < 0x8000_0000 }

  /** The unsigned word of a signed value, in two's complement. */
  function ToWord(x: int): u32
    requires Int32(x)
  {
    if x < 0 then x + 0x1_0000_0000 else x
  }

  function FromWord(w: u32): (x: int)
    ensures Int32(x) && ToWord(x) == w
  {
    if w < 0x8000_0000 then w else w - 0x1_0000_0000
  }
}
