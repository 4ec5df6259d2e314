/** Machine words of the stack (include/utils.h) and their byte images on the little-endian host. */
module Words {

  type byte = x: int | 0 <= x < 256
  type u16 = x: int | 0 <= x < 0x1_0000
  type u32 = x: int | 0 <= x < 0x1_0000_0000

  function Swap16(x: u16): u16 {
    (x % 256) * 256 + x / 256
  }

  function Swap32(x: u32): u32 {
    (x % 256) * 0x100_0000 + (x / 256 % 256) * 0x1_0000 + (x / 0x1_0000 % 256) * 256 + x / 0x100_0000
  }

  function Min32(a: u32, b: u32): u32 {
    if a < b then a else b
  }

  /** What a 16-bit load at two consecutive addresses yields. */
  function Load16(lo: byte, hi: byte): u16 {
    lo + 256 * hi
  }

  function Load32(b0: byte, b1: byte, b2: byte, b3: byte): u32 {
    b0 + 256 * b1 + 0x1_0000 * b2 + 0x100_0000 * b3
  }

  /** What a 16-bit store leaves in memory. */
  function Store16(x: u16): (s: seq<byte>)
    ensures |s| == 2
  {
    [x % 256, x / 256]
  }

  function Store32(x: u32): (s: seq<byte>)
    ensures |s| == 4
  {
    [x % 256, x / 256 % 256, x / 0x1_0000 % 256, x / 0x100_0000]
  }

  // ----- network order, the most significant byte first

  function Big16(v: u16): (s: seq<byte>)
    ensures |s| == 2
  {
    [v / 256, v % 256]
  }

  function Big32(v: u32): (s: seq<byte>)
    ensures |s| == 4
  {
    [v / 0x100_0000, v / 0x1_0000 % 256, v / 256 % 256, v % 256]
  }

  function Net16(hi: byte, lo: byte): u16 {
    hi * 256 + lo
  }

  function Net32(b0: byte, b1: byte, b2: byte, b3: byte): u32 {
    b0 * 0x100_0000 + b1 * 0x1_0000 + b2 * 256 + b3
  }

  /** A header field is stored as `Store16(Swap16(v))`; in memory that is network order, and the same swap on loading
      gives the value back. */
  lemma NetworkOrder16(v: u16)
    ensures Store16(Swap16(v)) == Big16(v) == [v / 256, v % 256]
    ensures Swap16(Load16(Store16(Swap16(v))[0], Store16(Swap16(v))[1])) == v
    ensures Swap16(Swap16(v)) == v
  {
  }

  /** `swap16` of a loaded field is its value in network order. */
  lemma SwappedLoad(hi: byte, lo: byte)
    ensures Swap16(Load16(hi, lo)) == Net16(hi, lo)
  {
    LowByte(hi, lo);
  }

  lemma SwappedLoad32(b0: byte, b1: byte, b2: byte, b3: byte)
    ensures Swap32(Load32(b0, b1, b2, b3)) == Net32(b0, b1, b2, b3)
  {
    Store32OfLoad32(b0, b1, b2, b3);
  }

  lemma NetOfBig16(v: u16)
    ensures Net16(Big16(v)[0], Big16(v)[1]) == v
  {
  }

  lemma NetOfBig32(v: u32)
    ensures var s := Big32(v); Net32(s[0], s[1], s[2], s[3]) == v
  {
    DivDiv(v);
  }

  lemma Store32OfLoad32(b0: byte, b1: byte, b2: byte, b3: byte)
    ensures Store32(Load32(b0, b1, b2, b3)) == [b0, b1, b2, b3]
  {
    var v: int := Load32(b0, b1, b2, b3);
    var w := b1 + 256 * (b2 + 256 * b3);
    assert v == b0 + 256 * w;
    LowByte(b0, w);
    LowByte(b1, b2 + 256 * b3);
    LowByte(b2, b3);
    DivDiv(v);
  }

  lemma LowByte(b: byte, w: nat)
    ensures (b + 256 * w) % 256 == b && (b + 256 * w) / 256 == w
  {
  }

  lemma DivDiv(v: nat)
    ensures v / 0x1_0000 == v / 256 / 256 && v / 0x100_0000 == v / 256 / 256 / 256
  {
  }

  lemma Load32OfStore32(v: u32)
    ensures var s := Store32(v); Load32(s[0], s[1], s[2], s[3]) == v
  {
    var x: int := v;
    assert x / 0x1_0000 == x / 256 / 256 && x / 0x100_0000 == x / 256 / 256 / 256;
  }

  lemma NetworkOrder32(v: u32)
    ensures Store32(Swap32(v)) == Big32(v) == [v / 0x100_0000, v / 0x1_0000 % 256, v / 256 % 256, v % 256]
    ensures var s := Store32(Swap32(v)); Swap32(Load32(s[0], s[1], s[2], s[3])) == v
  {
    var s := Store32(v);
    assert Swap32(v) == Load32(s[3], s[2], s[1], s[0]);
    Store32OfLoad32(s[3], s[2], s[1], s[0]);
    var t := Store32(Swap32(v));
    assert Store32(Load32(t[0], t[1], t[2], t[3])) == t by { Store32OfLoad32(t[0], t[1], t[2], t[3]); }
    assert Swap32(Load32(t[0], t[1], t[2], t[3])) == Load32(t[3], t[2], t[1], t[0]);
    Load32OfStore32(v);
  }
}
