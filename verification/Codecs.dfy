/** Printers and readers of byte strings, how they combine, and when a reader undoes a printer. */
module Codecs {
  import opened Prelude
  import opened Bytes

  /** A decoded value and the position after it. */
  datatype Got<+T> = Got(value: T, next: nat)

  type Encoder<!T> = T -> Bytes

  /** None when reading would leave the input. */
  type Decoder<T> = (Bytes, nat) -> Option<Got<T>>

  /** The decoder undoes the encoder on x, wherever x stands in b and whatever surrounds it. */
  ghost predicate Undoes<T>(enc: Encoder<T>, get: Decoder<T>, b: Bytes, x: T) {
    forall p: nat {:trigger At(b, p, enc(x))} | At(b, p, enc(x)) :: get(b, p) == Some(Got(x, p + |enc(x)|))
  }

  function GetShort(b: Bytes, pos: nat): (r: Option<Got<int>>)
    ensures r.Some? ==> r.value.next == pos + 2 <= |b| && -0x8000 <= r.value.value < 0x8000
  {
    if pos + 2 <= |b| then Some(Got(Int16(U16(b, pos)), pos + 2)) else None
  }

  function GetInt(b: Bytes, pos: nat): (r: Option<Got<int>>)
    ensures r.Some? ==> r.value.next == pos + 4 <= |b| && -0x8000_0000 <= r.value.value < 0x8000_0000
  {
    if pos + 4 <= |b| then Some(Got(Int32(U32(b, pos)), pos + 4)) else None
  }

  function GetByte(b: Bytes, pos: nat): Option<Got<byte>> {
    if pos < |b| then Some(Got(b[pos], pos + 1)) else None
  }

  function EncByte(v: byte): Bytes {
    [v]
  }

  lemma ShortUndone(b: Bytes, v: int)
    requires -0x8000 <= v < 0x8000
    ensures Undoes(EncShort, GetShort, b, v)
  {
    forall p: nat | At(b, p, EncShort(v)) ensures GetShort(b, p) == Some(Got(v, p + 2)) {
      ShortAt(b, p, v);
      SignedReadings(v);
    }
  }

  lemma IntUndone(b: Bytes, v: int)
    requires -0x8000_0000 <= v < 0x8000_0000
    ensures Undoes(EncInt, GetInt, b, v)
  {
    forall p: nat | At(b, p, EncInt(v)) ensures GetInt(b, p) == Some(Got(v, p + 4)) {
      IntAt(b, p, v);
      SignedReadings(v);
    }
  }

  lemma ByteUndone(b: Bytes, v: byte)
    ensures Undoes(EncByte, GetByte, b, v)
  {
    forall p: nat | At(b, p, EncByte(v)) ensures GetByte(b, p) == Some(Got(v, p + 1)) {
      assert b[p + 0] == [v][0];
    }
  }

  // ---------------------------------------------------------------------------------------------
  // One after the other
  // ---------------------------------------------------------------------------------------------

  function EncPair<A, B>(encA: Encoder<A>, encB: Encoder<B>, e: (A, B)): Bytes {
    encA(e.0) + encB(e.1)
  }

  function GetPair<A, B>(getA: Decoder<A>, getB: Decoder<B>, b: Bytes, pos: nat): Option<Got<(A, B)>> {
    var k := getA(b, pos);
    if k.None? then None else
    var v := getB(b, k.value.next);
    if v.None? then None else Some(Got((k.value.value, v.value.value), v.value.next))
  }

  function PairEncoder<A, B>(encA: Encoder<A>, encB: Encoder<B>): Encoder<(A, B)> {
    (e: (A, B)) => EncPair(encA, encB, e)
  }

  function PairDecoder<A, B>(getA: Decoder<A>, getB: Decoder<B>): Decoder<(A, B)> {
    (b: Bytes, pos: nat) => GetPair(getA, getB, b, pos)
  }

  /** A pair comes back when both halves do. */
  lemma PairUndone<A, B>(encA: Encoder<A>, getA: Decoder<A>, encB: Encoder<B>, getB: Decoder<B>, b: Bytes, e: (A, B))
    requires Undoes(encA, getA, b, e.0) && Undoes(encB, getB, b, e.1)
    ensures Undoes(PairEncoder(encA, encB), PairDecoder(getA, getB), b, e)
  {
    forall p: nat | At(b, p, EncPair(encA, encB, e))
      ensures GetPair(getA, getB, b, p) == Some(Got(e, p + |EncPair(encA, encB, e)|))
    {
      AtConcat(b, p, encA(e.0), encB(e.1));
    }
  }

  lemma PairReads<A, B>(getA: Decoder<A>, getB: Decoder<B>, b: Bytes, pos: nat)
    requires PairDecoder(getA, getB)(b, pos).Some?
    ensures getA(b, pos).Some? && getB(b, getA(b, pos).value.next).Some?
    ensures PairDecoder(getA, getB)(b, pos).value.value.0 == getA(b, pos).value.value
    ensures PairDecoder(getA, getB)(b, pos).value.value.1 == getB(b, getA(b, pos).value.next).value.value
  {
  }

  /** What follows is read in a way that depends on what came first. */
  function ThenDecoder<A, B>(getA: Decoder<A>, getB: A -> Decoder<B>): Decoder<(A, B)> {
    (b: Bytes, pos: nat) =>
      var k := getA(b, pos);
      if k.None? then None else
      var v := getB(k.value.value)(b, k.value.next);
      if v.None? then None else Some(Got((k.value.value, v.value.value), v.value.next))
  }

  lemma ThenReads<A, B>(getA: Decoder<A>, getB: A -> Decoder<B>, b: Bytes, pos: nat)
    requires ThenDecoder(getA, getB)(b, pos).Some?
    ensures getA(b, pos).Some? && getB(getA(b, pos).value.value)(b, getA(b, pos).value.next).Some?
    ensures ThenDecoder(getA, getB)(b, pos).value.value
         == (getA(b, pos).value.value, getB(getA(b, pos).value.value)(b, getA(b, pos).value.next).value.value)
  {
  }

  lemma ThenRoundTrip<A, B>(encA: Encoder<A>, getA: Decoder<A>, encB: Encoder<B>, getB: A -> Decoder<B>,
                            b: Bytes, pos: nat, e: (A, B))
    requires Undoes(encA, getA, b, e.0) && Undoes(encB, getB(e.0), b, e.1)
    requires At(b, pos, EncPair(encA, encB, e))
    ensures ThenDecoder(getA, getB)(b, pos) == Some(Got(e, pos + |EncPair(encA, encB, e)|))
  {
    AtConcat(b, pos, encA(e.0), encB(e.1));
  }

  lemma ThenUndone<A, B>(encA: Encoder<A>, getA: Decoder<A>, encB: Encoder<B>, getB: A -> Decoder<B>,
                         b: Bytes, e: (A, B))
    requires Undoes(encA, getA, b, e.0) && Undoes(encB, getB(e.0), b, e.1)
    ensures Undoes(PairEncoder(encA, encB), ThenDecoder(getA, getB), b, e)
  {
    forall p: nat | At(b, p, EncPair(encA, encB, e))
      ensures ThenDecoder(getA, getB)(b, p) == Some(Got(e, p + |EncPair(encA, encB, e)|))
    {
      ThenRoundTrip(encA, getA, encB, getB, b, p, e);
    }
  }

  /** A part that is there or not, as something read before tells. */
  function IfEncoder<T>(enc: Encoder<T>): Encoder<Option<T>> {
    (x: Option<T>) => if x.None? then [] else enc(x.value)
  }

  function IfDecoder<T>(there: bool, get: Decoder<T>): Decoder<Option<T>> {
    (b: Bytes, pos: nat) =>
      if !there then Some(Got(None, pos)) else
      var x := get(b, pos);
      if x.None? then None else Some(Got(Some(x.value.value), x.value.next))
  }

  lemma IfUndone<T>(enc: Encoder<T>, there: bool, get: Decoder<T>, b: Bytes, x: Option<T>)
    requires there <==> x.Some?
    requires x.Some? ==> Undoes(enc, get, b, x.value)
    ensures Undoes(IfEncoder(enc), IfDecoder(there, get), b, x)
  {
  }

  lemma IfReads<T>(there: bool, get: Decoder<T>, b: Bytes, pos: nat)
    requires IfDecoder(there, get)(b, pos).Some?
    ensures IfDecoder(there, get)(b, pos).value.value.Some? <==> there
    ensures there ==> get(b, pos).Some? && IfDecoder(there, get)(b, pos).value.value.value == get(b, pos).value.value
  {
  }

  /** The same bytes under another type. */
  function MapEncoder<A, B>(enc: Encoder<A>, f: B -> A): Encoder<B> {
    (y: B) => enc(f(y))
  }

  function MapDecoder<A, B>(get: Decoder<A>, g: A -> B): Decoder<B> {
    (b: Bytes, pos: nat) =>
      var x := get(b, pos);
      if x.None? then None else Some(Got(g(x.value.value), x.value.next))
  }

  lemma MapUndone<A, B>(enc: Encoder<A>, get: Decoder<A>, f: B -> A, g: A -> B, b: Bytes, y: B)
    requires Undoes(enc, get, b, f(y)) && g(f(y)) == y
    ensures Undoes(MapEncoder(enc, f), MapDecoder(get, g), b, y)
  {
  }

  lemma MapReads<A, B>(get: Decoder<A>, g: A -> B, b: Bytes, pos: nat)
    requires MapDecoder(get, g)(b, pos).Some?
    ensures get(b, pos).Some? && MapDecoder(get, g)(b, pos).value.value == g(get(b, pos).value.value)
    ensures MapDecoder(get, g)(b, pos).value.next == get(b, pos).value.next
  {
  }

  // ---------------------------------------------------------------------------------------------
  // Many of a kind
  // ---------------------------------------------------------------------------------------------

  function EncMany<T>(enc: Encoder<T>, xs: seq<T>): Bytes {
    if xs == [] then [] else enc(xs[0]) + EncMany(enc, xs[1..])
  }

  /** n items one after another; None as soon as one of them cannot be read. */
  function GetMany<T>(get: Decoder<T>, b: Bytes, pos: nat, n: nat): (r: Option<Got<seq<T>>>)
    ensures r.Some? ==> |r.value.value| == n
    decreases n
  {
    if n == 0 then Some(Got([], pos)) else
    var x := get(b, pos);
    if x.None? then None else
    var rest := GetMany(get, b, x.value.next, n - 1);
    if rest.None? then None else Some(Got([x.value.value] + rest.value.value, rest.value.next))
  }

  function ManyEncoder<T>(enc: Encoder<T>): Encoder<seq<T>> {
    (xs: seq<T>) => EncMany(enc, xs)
  }

  function ManyDecoder<T>(get: Decoder<T>, n: nat): Decoder<seq<T>> {
    (b: Bytes, pos: nat) => GetMany(get, b, pos, n)
  }

  /** If every item comes back, the first n items come back from any longer encoding. */
  lemma {:induction false} ManyRoundTrip<T>(enc: Encoder<T>, get: Decoder<T>, b: Bytes, pos: nat, xs: seq<T>, n: nat)
    requires At(b, pos, EncMany(enc, xs)) && n <= |xs|
    requires forall x | x in xs :: Undoes(enc, get, b, x)
    ensures GetMany(get, b, pos, n) == Some(Got(xs[..n], pos + |EncMany(enc, xs[..n])|))
    decreases n
  {
    if n > 0 {
      var x, rest := xs[0], xs[1..];
      AtConcat(b, pos, enc(x), EncMany(enc, rest));
      assert Undoes(enc, get, b, x);
      ManyRoundTrip(enc, get, b, pos + |enc(x)|, rest, n - 1);
      assert xs[..n][1..] == rest[..n - 1];
      assert xs[..n] == [x] + rest[..n - 1];
    }
  }

  lemma ManyUndone<T>(enc: Encoder<T>, get: Decoder<T>, n: nat, b: Bytes, xs: seq<T>)
    requires n == |xs| && forall x | x in xs :: Undoes(enc, get, b, x)
    ensures Undoes(ManyEncoder(enc), ManyDecoder(get, n), b, xs)
  {
    forall p: nat | At(b, p, EncMany(enc, xs)) ensures GetMany(get, b, p, n) == Some(Got(xs, p + |EncMany(enc, xs)|)) {
      ManyRoundTrip(enc, get, b, p, xs, n);
      assert xs[..n] == xs;
    }
  }

  /** Every decoded item was read somewhere. */
  lemma {:induction false} DecodedSomewhere<T>(get: Decoder<T>, b: Bytes, pos: nat, n: nat, i: nat)
    requires GetMany(get, b, pos, n).Some? && i < n
    ensures exists p: nat :: get(b, p).Some? && get(b, p).value.value == GetMany(get, b, pos, n).value.value[i]
    decreases n
  {
    if i == 0 {
      assert get(b, pos).value.value == GetMany(get, b, pos, n).value.value[0];
    } else {
      DecodedSomewhere(get, b, get(b, pos).value.next, n - 1, i - 1);
    }
  }

  /** A two-byte count and the items. */
  function EncCounted<T>(enc: Encoder<T>, xs: seq<T>): Bytes {
    EncShort(|xs|) + EncMany(enc, xs)
  }

  /** The count is a signed short; a negative one reads no item. */
  function GetCounted<T>(get: Decoder<T>, b: Bytes, pos: nat): Option<Got<seq<T>>> {
    var n := GetShort(b, pos);
    if n.None? then None
    else GetMany(get, b, n.value.next, if n.value.value < 0 then 0 else n.value.value)
  }

  function CountedEncoder<T>(enc: Encoder<T>): Encoder<seq<T>> {
    (xs: seq<T>) => EncCounted(enc, xs)
  }

  function CountedDecoder<T>(get: Decoder<T>): Decoder<seq<T>> {
    (b: Bytes, pos: nat) => GetCounted(get, b, pos)
  }

  lemma CountedAt<T>(enc: Encoder<T>, b: Bytes, pos: nat, xs: seq<T>)
    requires At(b, pos, EncCounted(enc, xs))
    ensures GetShort(b, pos) == Some(Got(Int16(|xs| % 0x10000), pos + 2))
    ensures At(b, pos + 2, EncMany(enc, xs)) && |EncCounted(enc, xs)| == 2 + |EncMany(enc, xs)|
  {
    AtConcat(b, pos, EncShort(|xs|), EncMany(enc, xs));
    ShortAt(b, pos, |xs|);
  }

  lemma CountedRoundTrip<T>(enc: Encoder<T>, get: Decoder<T>, b: Bytes, pos: nat, xs: seq<T>)
    requires At(b, pos, EncCounted(enc, xs)) && |xs| <= 0x7FFF
    requires forall x | x in xs :: Undoes(enc, get, b, x)
    ensures GetCounted(get, b, pos) == Some(Got(xs, pos + |EncCounted(enc, xs)|))
  {
    CountedAt(enc, b, pos, xs);
    ManyRoundTrip(enc, get, b, pos + 2, xs, |xs|);
    assert xs[..|xs|] == xs;
  }

  lemma CountedUndone<T>(enc: Encoder<T>, get: Decoder<T>, b: Bytes, xs: seq<T>)
    requires |xs| <= 0x7FFF && forall x | x in xs :: Undoes(enc, get, b, x)
    ensures Undoes(CountedEncoder(enc), CountedDecoder(get), b, xs)
  {
    forall p: nat | At(b, p, EncCounted(enc, xs))
      ensures GetCounted(get, b, p) == Some(Got(xs, p + |EncCounted(enc, xs)|))
    {
      CountedRoundTrip(enc, get, b, p, xs);
    }
  }

  /** The count as the protocol has it, an unsigned short. */
  function GetCountedUnsigned<T>(get: Decoder<T>, b: Bytes, pos: nat): (r: Option<Got<seq<T>>>)
    ensures r.Some? ==> |r.value.value| <= 0xFFFF
  {
    if pos + 2 <= |b| then GetMany(get, b, pos + 2, U16(b, pos)) else None
  }

  function CountedUnsignedDecoder<T>(get: Decoder<T>): Decoder<seq<T>> {
    (b: Bytes, pos: nat) => GetCountedUnsigned(get, b, pos)
  }

  lemma CountedUnsignedUndone<T>(enc: Encoder<T>, get: Decoder<T>, b: Bytes, xs: seq<T>)
    requires |xs| <= 0xFFFF && forall x | x in xs :: Undoes(enc, get, b, x)
    ensures Undoes(CountedEncoder(enc), CountedUnsignedDecoder(get), b, xs)
  {
    forall p: nat | At(b, p, EncCounted(enc, xs))
      ensures GetCountedUnsigned(get, b, p) == Some(Got(xs, p + |EncCounted(enc, xs)|))
    {
      AtConcat(b, p, EncShort(|xs|), EncMany(enc, xs));
      ShortAt(b, p, |xs|);
      ManyRoundTrip(enc, get, b, p + 2, xs, |xs|);
      assert xs[..|xs|] == xs;
    }
  }
}
