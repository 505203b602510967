/** Byte strings, and where one byte string stands inside another. */
module Bytes {
  type byte = x: int | 0 <= x < 256

  type Bytes = seq<byte>

  lemma Associative(a: Bytes, b: Bytes, c: Bytes)
    ensures a + b + c == a + (b + c)
  {
  }

  /** x stands in b at pos. */
  predicate At(b: Bytes, pos: nat, x: Bytes) {
    pos + |x| <= |b| && b[pos..pos + |x|] == x
  }

  lemma AtConcat(b: Bytes, pos: nat, x: Bytes, y: Bytes)
    ensures At(b, pos, x + y) <==> At(b, pos, x) && At(b, pos + |x|, y)
  {
    var z := x + y;
    if pos + |z| <= |b| {
      var s := b[pos..pos + |z|];
      assert s[..|x|] == b[pos..pos + |x|] && s[|x|..] == b[pos + |x|..pos + |x| + |y|];
      assert s == s[..|x|] + s[|x|..];
      assert z[..|x|] == x && z[|x|..] == y;
    }
  }

  /** memcpy into a buffer of fixed size. */
  function Overwrite(buffer: Bytes, pos: nat, x: Bytes): (r: Bytes)
    requires pos + |x| <= |buffer|
    ensures |r| == |buffer|
  {
    buffer[..pos] + x + buffer[pos + |x|..]
  }

  /** `after` is `before` with x written over it at pos. */
  predicate Wrote(before: Bytes, after: Bytes, pos: nat, x: Bytes) {
    pos + |x| <= |before| && after == Overwrite(before, pos, x)
  }

  lemma WroteNothing(b: Bytes, pos: nat)
    requires pos <= |b|
    ensures Wrote(b, b, pos, [])
  {
  }

  /** Two writes, the second where the first ended, are one write. */
  lemma WroteBoth(a: Bytes, b: Bytes, c: Bytes, pos: nat, x: Bytes, y: Bytes)
    requires Wrote(a, b, pos, x) && Wrote(b, c, pos + |x|, y)
    ensures Wrote(a, c, pos, x + y)
  {
    var m, e := pos + |x|, pos + |x| + |y|;
    assert b[..m] == a[..pos] + x;
    assert b[e..] == a[m..][|y|..] == a[e..];
    Associative(a[..pos], x, y);
  }

  // ---------------------------------------------------------------------------------------------
  // Fixed-size integers, big-endian
  // ---------------------------------------------------------------------------------------------

  /** `htons`, on the low 16 bits of v. */
  function EncShort(v: int): (r: Bytes)
    ensures |r| == 2
  {
    [(v / 256) % 256, v % 256]
  }

  /** `htonl`, on the low 32 bits of v. */
  function EncInt(v: int): (r: Bytes)
    ensures |r| == 4
  {
    var v1 := v / 256;
    var v2 := v1 / 256;
    [(v2 / 256) % 256, v2 % 256, v1 % 256, v % 256]
  }

  function U16(b: Bytes, pos: nat): (v: nat)
    requires pos + 2 <= |b|
    ensures v < 0x10000
  {
    var hi: int, lo: int := b[pos], b[pos + 1];
    256 * hi + lo
  }

  function U32(b: Bytes, pos: nat): (v: nat)
    requires pos + 4 <= |b|
    ensures v < 0x1_0000_0000
  {
    0x10000 * U16(b, pos) + U16(b, pos + 2)
  }

  /** The stored bits read as an int16_t, an int32_t, an int8_t. */
  function Int16(u: nat): int {
    if u < 0x8000 then u else u - 0x10000
  }

  function Int32(u: nat): int {
    if u < 0x8000_0000 then u else u - 0x1_0000_0000
  }

  function Int8(u: nat): int {
    if u < 0x80 then u else u - 0x100
  }

  lemma ShortAt(b: Bytes, pos: nat, v: int)
    requires At(b, pos, EncShort(v))
    ensures U16(b, pos) == v % 0x10000
  {
    var s := b[pos..pos + 2];
    assert s[0] == b[pos] && s[1] == b[pos + 1];
  }

  lemma IntAt(b: Bytes, pos: nat, v: int)
    requires At(b, pos, EncInt(v))
    ensures U32(b, pos) == v % 0x1_0000_0000
  {
    var s := b[pos..pos + 4];
    assert s[0] == b[pos] && s[1] == b[pos + 1] && s[2] == b[pos + 2] && s[3] == b[pos + 3];
  }

  /** Whether a single-bit flag is set in a two's-complement number. */
  predicate Has(flags: int, bit: nat)
    requires bit > 0
  {
    flags / bit % 2 == 1
  }

  /** The signed readings undo the encoders on exactly the values that fit. */
  lemma SignedReadings(v: int)
    ensures Int16(v % 0x10000) == v <==> -0x8000 <= v < 0x8000
    ensures Int32(v % 0x1_0000_0000) == v <==> -0x8000_0000 <= v < 0x8000_0000
    ensures Int8(v % 0x100) == v <==> -0x80 <= v < 0x80
  {
  }
}
