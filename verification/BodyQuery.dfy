/** The QUERY body: five optional parts announced by a flags byte, sized in one pass, written in another. */
module QueryBody {
  import opened Prelude
  import opened Bytes
  import opened Codecs
  import opened Serialization
  import opened Buffers

  const FLAG_VALUES: nat := 0x01
  const FLAG_PAGE_SIZE: nat := 0x04
  const FLAG_PAGING_STATE: nat := 0x08
  const FLAG_SERIAL_CONSISTENCY: nat := 0x10

  const CONSISTENCY_ANY: int := 0x0000
  const CONSISTENCY_SERIAL: int := 0x0008

  /** A serial consistency or page size that was never set is None; no values and no paging state are empty. */
  datatype Query = Query(
    query: Bytes,
    consistency: int,
    values: seq<Bytes>,
    pageSize: Option<int>,
    pagingState: Bytes,
    serial: Option<int>
  )

  // ---------------------------------------------------------------------------------------------
  // What the write pass writes
  // ---------------------------------------------------------------------------------------------

  /** Setting a single-bit flag. */
  function Or(flags: nat, bit: nat): nat
    requires bit > 0
  {
    if Has(flags, bit) then flags else flags + bit
  }

  function Flags(q: Query): byte {
    (if q.values == [] then 0 else 0x01) + (if q.pageSize.None? then 0 else 0x04)
      + (if q.pagingState == [] then 0 else 0x08) + (if q.serial.None? then 0 else 0x10)
  }

  function ValuesEncoder(): Encoder<seq<Bytes>> {
    CountedEncoder(EncLongString)
  }

  function NonEmpty<T>(s: seq<T>): Option<seq<T>> {
    if s == [] then None else Some(s)
  }

  /** Query string, consistency and flags. */
  type Head = (Bytes, (int, byte))

  function HeadOf(q: Query): Head {
    (q.query, (q.consistency, Flags(q)))
  }

  /** Values, page size, paging state and serial consistency. */
  type Parts = (Option<seq<Bytes>>, (Option<int>, (Option<Bytes>, Option<int>)))

  function PartsOf(q: Query): Parts {
    (NonEmpty(q.values), (q.pageSize, (NonEmpty(q.pagingState), q.serial)))
  }

  function HeadEncoder(): Encoder<Head> {
    PairEncoder(EncLongString, PairEncoder(EncShort, EncByte))
  }

  function PartsEncoder(): Encoder<Parts> {
    PairEncoder(IfEncoder(ValuesEncoder()),
                PairEncoder(IfEncoder(EncInt), PairEncoder(IfEncoder(EncString), IfEncoder(EncShort))))
  }

  type Wire = (Head, Parts)

  function WireOf(q: Query): Wire {
    (HeadOf(q), PartsOf(q))
  }

  function WireEncoder(): Encoder<Wire> {
    PairEncoder(HeadEncoder(), PartsEncoder())
  }

  function QueryEncoder(): Encoder<Query> {
    MapEncoder(WireEncoder(), WireOf)
  }

  // ---------------------------------------------------------------------------------------------
  // A reader that follows section 4.1.4 of the CQL binary protocol v2
  // ---------------------------------------------------------------------------------------------

  /** A [bytes] that is not null, or a [long string]. */
  function GetBytes(b: Bytes, pos: nat): (r: Option<Got<Bytes>>)
    ensures r.Some? ==> |r.value.value| < 0x8000_0000
  {
    if pos + 4 <= |b| && U32(b, pos) < 0x8000_0000 && pos + 4 + U32(b, pos) <= |b|
    then Some(Got(b[pos + 4..pos + 4 + U32(b, pos)], pos + 4 + U32(b, pos)))
    else None
  }

  function ValuesDecoder(): Decoder<seq<Bytes>> {
    CountedUnsignedDecoder(GetBytes)
  }

  function HeadDecoder(): Decoder<Head> {
    PairDecoder(GetBytes, PairDecoder(GetShort, GetByte))
  }

  /** The optional parts, in the order of the protocol. */
  function PartsDecoder(h: Head): Decoder<Parts> {
    var flags: nat := h.1.1;
    PairDecoder(IfDecoder(Has(flags, FLAG_VALUES), ValuesDecoder()),
                PairDecoder(IfDecoder(Has(flags, FLAG_PAGE_SIZE), GetInt),
                            PairDecoder(IfDecoder(Has(flags, FLAG_PAGING_STATE), GetString),
                                        IfDecoder(Has(flags, FLAG_SERIAL_CONSISTENCY), GetShort))))
  }

  function WireDecoder(): Decoder<Wire> {
    ThenDecoder(HeadDecoder(), PartsDecoder)
  }

  function OrEmpty<T>(x: Option<seq<T>>): seq<T> {
    if x.None? then [] else x.value
  }

  function QueryFrom(w: Wire): Query {
    Query(w.0.0, w.0.1.0, OrEmpty(w.1.0), w.1.1.0, OrEmpty(w.1.1.1.0), w.1.1.1.1)
  }

  function QueryDecoder(): Decoder<Query> {
    MapDecoder(WireDecoder(), QueryFrom)
  }

  // ---------------------------------------------------------------------------------------------
  // Round trip
  // ---------------------------------------------------------------------------------------------

  predicate QueryFits(q: Query) {
    && |q.query| < 0x8000_0000
    && -0x8000 <= q.consistency < 0x8000
    && |q.values| <= 0xFFFF && (forall v | v in q.values :: |v| < 0x8000_0000)
    && (q.pageSize.Some? ==> -0x8000_0000 <= q.pageSize.value < 0x8000_0000)
    && |q.pagingState| <= 0xFFFF
    && (q.serial.Some? ==> -0x8000 <= q.serial.value < 0x8000)
  }

  lemma FlagsTell(q: Query)
    ensures Has(Flags(q), FLAG_VALUES) <==> NonEmpty(q.values).Some?
    ensures Has(Flags(q), FLAG_PAGE_SIZE) <==> q.pageSize.Some?
    ensures Has(Flags(q), FLAG_PAGING_STATE) <==> NonEmpty(q.pagingState).Some?
    ensures Has(Flags(q), FLAG_SERIAL_CONSISTENCY) <==> q.serial.Some?
  {
  }

  lemma BytesUndone(b: Bytes, s: Bytes)
    requires |s| < 0x8000_0000
    ensures Undoes(EncLongString, GetBytes, b, s)
  {
    forall p: nat | At(b, p, EncLongString(s)) ensures GetBytes(b, p) == Some(Got(s, p + |EncLongString(s)|)) {
      LongStringRoundTrip(b, p, s);
      AtConcat(b, p, EncInt(|s|), s);
      IntAt(b, p, |s|);
    }
  }

  lemma ValuesUndone(b: Bytes, vs: seq<Bytes>)
    requires |vs| <= 0xFFFF && forall v | v in vs :: |v| < 0x8000_0000
    ensures Undoes(ValuesEncoder(), ValuesDecoder(), b, vs)
  {
    forall v | v in vs ensures Undoes(EncLongString, GetBytes, b, v) {
      BytesUndone(b, v);
    }
    CountedUnsignedUndone(EncLongString, GetBytes, b, vs);
  }

  lemma HeadUndone(b: Bytes, q: Query)
    requires QueryFits(q)
    ensures Undoes(HeadEncoder(), HeadDecoder(), b, HeadOf(q))
  {
    var h := HeadOf(q);
    BytesUndone(b, h.0);
    ShortUndone(b, h.1.0);
    ByteUndone(b, h.1.1);
    PairUndone(EncShort, GetShort, EncByte, GetByte, b, h.1);
    PairUndone(EncLongString, GetBytes, PairEncoder(EncShort, EncByte), PairDecoder(GetShort, GetByte), b, h);
  }

  lemma PartsUndone(b: Bytes, q: Query)
    requires QueryFits(q)
    ensures Undoes(PartsEncoder(), PartsDecoder(HeadOf(q)), b, PartsOf(q))
  {
    var p, flags := PartsOf(q), Flags(q) as nat;
    FlagsTell(q);
    if p.0.Some? { ValuesUndone(b, p.0.value); }
    if p.1.0.Some? { IntUndone(b, p.1.0.value); }
    if p.1.1.0.Some? { StringUndone(b, p.1.1.0.value); }
    if p.1.1.1.Some? { ShortUndone(b, p.1.1.1.value); }
    var v, n := Has(flags, FLAG_VALUES), Has(flags, FLAG_PAGE_SIZE);
    var s, c := Has(flags, FLAG_PAGING_STATE), Has(flags, FLAG_SERIAL_CONSISTENCY);
    IfUndone(ValuesEncoder(), v, ValuesDecoder(), b, p.0);
    IfUndone(EncInt, n, GetInt, b, p.1.0);
    IfUndone(EncString, s, GetString, b, p.1.1.0);
    IfUndone(EncShort, c, GetShort, b, p.1.1.1);
    PairUndone(IfEncoder(EncString), IfDecoder(s, GetString), IfEncoder(EncShort), IfDecoder(c, GetShort), b, p.1.1);
    PairUndone(IfEncoder(EncInt), IfDecoder(n, GetInt), PairEncoder(IfEncoder(EncString), IfEncoder(EncShort)),
               PairDecoder(IfDecoder(s, GetString), IfDecoder(c, GetShort)), b, p.1);
    PairUndone(IfEncoder(ValuesEncoder()), IfDecoder(v, ValuesDecoder()),
               PairEncoder(IfEncoder(EncInt), PairEncoder(IfEncoder(EncString), IfEncoder(EncShort))),
               PairDecoder(IfDecoder(n, GetInt), PairDecoder(IfDecoder(s, GetString), IfDecoder(c, GetShort))), b, p);
  }

  /** Whatever is read fits what can be written. */
  lemma ReadFits(b: Bytes, pos: nat)
    requires QueryDecoder()(b, pos).Some?
    ensures QueryFits(QueryDecoder()(b, pos).value.value)
  {
    MapReads(WireDecoder(), QueryFrom, b, pos);
    ThenReads(HeadDecoder(), PartsDecoder, b, pos);
    var h := HeadDecoder()(b, pos);
    HeadFits(b, pos);
    PartsFit(b, h.value.next, h.value.value);
  }

  lemma HeadFits(b: Bytes, pos: nat)
    requires HeadDecoder()(b, pos).Some?
    ensures var h := HeadDecoder()(b, pos).value.value; |h.0| < 0x8000_0000 && -0x8000 <= h.1.0 < 0x8000
  {
  }

  lemma PartsFit(b: Bytes, pos: nat, h: Head)
    requires PartsDecoder(h)(b, pos).Some?
    ensures var p := PartsDecoder(h)(b, pos).value.value;
            && (p.0.Some? ==> |p.0.value| <= 0xFFFF && forall v | v in p.0.value :: |v| < 0x8000_0000)
            && (p.1.0.Some? ==> -0x8000_0000 <= p.1.0.value < 0x8000_0000)
            && (p.1.1.0.Some? ==> |p.1.1.0.value| <= 0xFFFF)
            && (p.1.1.1.Some? ==> -0x8000 <= p.1.1.1.value < 0x8000)
  {
    var flags: nat := h.1.1;
    var v, n := Has(flags, FLAG_VALUES), Has(flags, FLAG_PAGE_SIZE);
    var s, c := Has(flags, FLAG_PAGING_STATE), Has(flags, FLAG_SERIAL_CONSISTENCY);
    var values, page := IfDecoder(v, ValuesDecoder()), IfDecoder(n, GetInt);
    var paging, serial := IfDecoder(s, GetString), IfDecoder(c, GetShort);
    var last := PairDecoder(paging, serial);
    var tail := PairDecoder(page, last);
    PairReads(values, tail, b, pos);
    var p1 := values(b, pos).value.next;
    PairReads(page, last, b, p1);
    var p2 := page(b, p1).value.next;
    PairReads(paging, serial, b, p2);
    IfReads(v, ValuesDecoder(), b, pos);
    IfReads(n, GetInt, b, p1);
    IfReads(s, GetString, b, p2);
    IfReads(c, GetShort, b, paging(b, p2).value.next);
    if v { ReadValuesFit(b, pos); }
  }

  lemma ReadValuesFit(b: Bytes, pos: nat)
    requires ValuesDecoder()(b, pos).Some?
    ensures var vs := ValuesDecoder()(b, pos).value.value;
            |vs| <= 0xFFFF && forall v | v in vs :: |v| < 0x8000_0000
  {
    var vs := ValuesDecoder()(b, pos).value.value;
    forall v | v in vs ensures |v| < 0x8000_0000 {
      var i :| 0 <= i < |vs| && vs[i] == v;
      DecodedSomewhere(GetBytes, b, pos + 2, |vs|, i);
    }
  }

  lemma WireUndone(b: Bytes, q: Query)
    requires QueryFits(q)
    ensures Undoes(WireEncoder(), WireDecoder(), b, WireOf(q))
  {
    HeadUndone(b, q);
    PartsUndone(b, q);
    ThenUndone(HeadEncoder(), HeadDecoder(), PartsEncoder(), PartsDecoder, b, WireOf(q));
  }

  lemma QueryUndone(b: Bytes, q: Query)
    requires QueryFits(q)
    ensures Undoes(QueryEncoder(), QueryDecoder(), b, q)
  {
    WireUndone(b, q);
    assert QueryFrom(WireOf(q)) == q;
    MapUndone(WireEncoder(), WireDecoder(), WireOf, QueryFrom, b, q);
  }

  /**
   Reading a written body by its flags gives back every field and ends where the body ends, whatever
   follows it, exactly when each length fits its prefix and each number its width.
   */
  lemma QueryRoundTripIff(b: Bytes, pos: nat, q: Query)
    requires At(b, pos, QueryEncoder()(q))
    ensures QueryDecoder()(b, pos) == Some(Got(q, pos + |QueryEncoder()(q)|)) <==> QueryFits(q)
  {
    if QueryFits(q) { QueryUndone(b, q); }
    if QueryDecoder()(b, pos).Some? { ReadFits(b, pos); }
  }

  // ---------------------------------------------------------------------------------------------
  // The size pass
  // ---------------------------------------------------------------------------------------------

  /** The size pass as written counts the serial consistency before the other parts and again after them. */
  datatype SerialRule = CountedTwice | CountedOnce

  function ValuesSize(vs: seq<Bytes>): nat {
    if vs == [] then 0 else 4 + |vs[0]| + ValuesSize(vs[1..])
  }

  function SizePass(rule: SerialRule, q: Query): nat {
    4 + |q.query| + 2 + 1
      + (if q.serial.None? then 0 else if rule == CountedTwice then 4 else 2)
      + (if q.pagingState == [] then 0 else 2 + |q.pagingState|)
      + (if q.values == [] then 0 else 2 + ValuesSize(q.values))
      + (if q.pageSize.None? then 0 else 4)
  }

  lemma HeadThenParts(q: Query)
    ensures QueryEncoder()(q) == HeadEncoder()(HeadOf(q)) + PartsEncoder()(PartsOf(q))
  {
    assert WireEncoder()(WireOf(q)) == EncPair(HeadEncoder(), PartsEncoder(), WireOf(q));
  }

  lemma {:induction false} ValuesSizeIs(vs: seq<Bytes>)
    ensures |EncMany(EncLongString, vs)| == ValuesSize(vs)
    decreases |vs|
  {
    if vs != [] { ValuesSizeIs(vs[1..]); }
  }

  lemma {:induction false} ValuesSizeSnoc(vs: seq<Bytes>, v: Bytes)
    ensures ValuesSize(vs + [v]) == ValuesSize(vs) + 4 + |v|
    decreases |vs|
  {
    if vs == [] {
      assert (vs + [v])[1..] == [];
    } else {
      ValuesSizeSnoc(vs[1..], v);
      assert (vs + [v])[1..] == vs[1..] + [v];
    }
  }

  /**
   The size pass reserves exactly what the write pass writes when the serial consistency is counted
   once; as written, exactly when no serial consistency is set, and two bytes too many otherwise.
   */
  lemma SizePassIsWritePass(q: Query)
    ensures SizePass(CountedOnce, q) == |QueryEncoder()(q)|
    ensures SizePass(CountedTwice, q) == |QueryEncoder()(q)| + (if q.serial.None? then 0 else 2)
    ensures SizePass(CountedTwice, q) == |QueryEncoder()(q)| <==> q.serial.None?
  {
    HeadThenParts(q);
    assert |HeadEncoder()(HeadOf(q))| == |EncLongString(q.query)| + 3;
    PartsSize(PartsOf(q));
    if q.values != [] {
      ValuesSizeIs(q.values);
      assert |ValuesEncoder()(q.values)| == |EncCounted(EncLongString, q.values)|;
    }
  }

  lemma PartsSize(p: Parts)
    ensures |PartsEncoder()(p)| == (if p.0.None? then 0 else |ValuesEncoder()(p.0.value)|)
                                 + (if p.1.0.None? then 0 else 4)
                                 + (if p.1.1.0.None? then 0 else 2 + |p.1.1.0.value|) + (if p.1.1.1.None? then 0 else 2)
  {
    var v, n, s, c := IfEncoder(ValuesEncoder()), IfEncoder(EncInt), IfEncoder(EncString), IfEncoder(EncShort);
    assert |c(p.1.1.1)| == (if p.1.1.1.None? then 0 else |EncShort(p.1.1.1.value)|);
    assert |s(p.1.1.0)| == (if p.1.1.0.None? then 0 else |EncString(p.1.1.0.value)|);
    assert |n(p.1.0)| == (if p.1.0.None? then 0 else |EncInt(p.1.0.value)|);
    assert PairEncoder(s, c)(p.1.1) == s(p.1.1.0) + c(p.1.1.1);
    assert PairEncoder(n, PairEncoder(s, c))(p.1) == n(p.1.0) + PairEncoder(s, c)(p.1.1);
    assert PartsEncoder()(p) == v(p.0) + PairEncoder(n, PairEncoder(s, c))(p.1);
  }

  /** What `prepare` leaves behind the reserved bytes; fresh memory is taken as zeros. */
  function Prepared(rule: SerialRule, q: Query): (r: Bytes)
    ensures |r| == SizePass(rule, q)
  {
    SizePassIsWritePass(q);
    QueryEncoder()(q) + seq(SizePass(rule, q) - |QueryEncoder()(q)|, _ => 0)
  }

  /** The prepared body is read back whole, with nothing left over, exactly on these queries. */
  lemma PreparedReadsBack(rule: SerialRule, q: Query)
    ensures var body := Prepared(rule, q);
            QueryDecoder()(body, 0) == Some(Got(q, |body|)) <==> QueryFits(q) && (rule == CountedOnce || q.serial.None?)
  {
    SizePassIsWritePass(q);
    var body, e := Prepared(rule, q), QueryEncoder()(q);
    assert At(body, 0, e) by {
      assert forall i | 0 <= i < |e| :: body[0 + i] == e[i];
    }
    QueryRoundTripIff(body, 0, q);
    if QueryDecoder()(body, 0).Some? { ReadFits(body, 0); }
  }

  /** An empty query with a serial consistency: as written two stray bytes follow the body. */
  lemma SerialLeavesStrayBytes()
    ensures var q := Query([], CONSISTENCY_ANY, [], None, [], Some(CONSISTENCY_SERIAL));
            && |Prepared(CountedTwice, q)| == 11 && |QueryEncoder()(q)| == 9
            && QueryDecoder()(Prepared(CountedTwice, q), 0) == Some(Got(q, 9))
            && QueryDecoder()(Prepared(CountedOnce, q), 0) == Some(Got(q, |Prepared(CountedOnce, q)|))
  {
    var q := Query([], CONSISTENCY_ANY, [], None, [], Some(CONSISTENCY_SERIAL));
    SizePassIsWritePass(q);
    PreparedReadsBack(CountedOnce, q);
    var body := Prepared(CountedTwice, q);
    assert At(body, 0, QueryEncoder()(q));
    QueryRoundTripIff(body, 0, q);
  }

  // ---------------------------------------------------------------------------------------------
  // The object
  // ---------------------------------------------------------------------------------------------

  /** What the write pass writes for each part. */
  function ValuesBytes(q: Query): Bytes {
    if q.values == [] then [] else EncCounted(EncLongString, q.values)
  }

  function PageSizeBytes(q: Query): Bytes {
    if q.pageSize.None? then [] else EncInt(q.pageSize.value)
  }

  function PagingStateBytes(q: Query): Bytes {
    if q.pagingState == [] then [] else EncString(q.pagingState)
  }

  function SerialBytes(q: Query): Bytes {
    if q.serial.None? then [] else EncShort(q.serial.value)
  }

  function PartBytes(q: Query): Bytes {
    ValuesBytes(q) + PageSizeBytes(q) + (PagingStateBytes(q) + SerialBytes(q))
  }

  function HeadBytes(q: Query, flags: byte): Bytes {
    EncLongString(q.query) + EncShort(q.consistency) + [flags]
  }

  lemma PassWrites(q: Query)
    ensures QueryEncoder()(q) == HeadBytes(q, Flags(q)) + PartBytes(q)
  {
    HeadThenParts(q);
    PartsAreBytes(q);
    assert HeadEncoder()(HeadOf(q)) == EncLongString(q.query) + (EncShort(q.consistency) + EncByte(Flags(q)));
    Associative(EncLongString(q.query), EncShort(q.consistency), [Flags(q)]);
  }

  lemma PartsAreBytes(q: Query)
    ensures PartsEncoder()(PartsOf(q)) == PartBytes(q)
  {
    var v, n, s, c := IfEncoder(ValuesEncoder()), IfEncoder(EncInt), IfEncoder(EncString), IfEncoder(EncShort);
    var p := PartsOf(q);
    assert v(p.0) == ValuesBytes(q) && n(p.1.0) == PageSizeBytes(q);
    assert s(p.1.1.0) == PagingStateBytes(q) && c(p.1.1.1) == SerialBytes(q);
    assert PairEncoder(s, c)(p.1.1) == s(p.1.1.0) + c(p.1.1.1);
    assert PairEncoder(n, PairEncoder(s, c))(p.1) == n(p.1.0) + PairEncoder(s, c)(p.1.1);
    Associative(v(p.0), n(p.1.0), PairEncoder(s, c)(p.1.1));
  }

  /** The second half: query string, consistency and flags. */
  method WriteHead(output: array<byte>, pos: nat, q: Query, flags: byte) returns (next: nat)
    requires pos + 4 + |q.query| + 3 <= output.Length
    modifies output
    ensures next == pos + 4 + |q.query| + 3 && Wrote(old(output[..]), output[..], pos, HeadBytes(q, flags))
  {
    ghost var a := output[..];
    next := EncodeLongString(output, pos, q.query);
    ghost var b := output[..];
    next := EncodeShort(output, next, q.consistency);
    ghost var c := output[..];
    WroteBoth(a, b, c, pos, EncLongString(q.query), EncShort(q.consistency));
    next := EncodeByte(output, next, flags);
    WroteBoth(a, c, output[..], pos, EncLongString(q.query) + EncShort(q.consistency), [flags]);
  }

  method WriteValues(output: array<byte>, pos: nat, q: Query) returns (next: nat)
    requires pos + |ValuesBytes(q)| <= output.Length
    modifies output
    ensures next == pos + |ValuesBytes(q)| && Wrote(old(output[..]), output[..], pos, ValuesBytes(q))
  {
    if q.values != [] {
      next := EncodeValues(output, pos, q.values);
    } else {
      WroteNothing(output[..], pos);
      next := pos;
    }
  }

  method WritePageSize(output: array<byte>, pos: nat, q: Query) returns (next: nat)
    requires pos + |PageSizeBytes(q)| <= output.Length
    modifies output
    ensures next == pos + |PageSizeBytes(q)| && Wrote(old(output[..]), output[..], pos, PageSizeBytes(q))
  {
    if q.pageSize.Some? {
      next := EncodeInt(output, pos, q.pageSize.value);
    } else {
      WroteNothing(output[..], pos);
      next := pos;
    }
  }

  method WritePagingState(output: array<byte>, pos: nat, q: Query) returns (next: nat)
    requires pos + |PagingStateBytes(q)| <= output.Length
    modifies output
    ensures next == pos + |PagingStateBytes(q)|
    ensures Wrote(old(output[..]), output[..], pos, PagingStateBytes(q))
  {
    if q.pagingState != [] {
      next := EncodeString(output, pos, q.pagingState);
    } else {
      WroteNothing(output[..], pos);
      next := pos;
    }
  }

  method WriteSerial(output: array<byte>, pos: nat, q: Query) returns (next: nat)
    requires pos + |SerialBytes(q)| <= output.Length
    modifies output
    ensures next == pos + |SerialBytes(q)| && Wrote(old(output[..]), output[..], pos, SerialBytes(q))
  {
    if q.serial.Some? {
      next := EncodeShort(output, pos, q.serial.value);
    } else {
      WroteNothing(output[..], pos);
      next := pos;
    }
  }

  method WriteFirstParts(output: array<byte>, pos: nat, q: Query) returns (next: nat)
    requires pos + |ValuesBytes(q) + PageSizeBytes(q)| <= output.Length
    modifies output
    ensures next == pos + |ValuesBytes(q) + PageSizeBytes(q)|
    ensures Wrote(old(output[..]), output[..], pos, ValuesBytes(q) + PageSizeBytes(q))
  {
    ghost var a := output[..];
    next := WriteValues(output, pos, q);
    ghost var b := output[..];
    next := WritePageSize(output, next, q);
    WroteBoth(a, b, output[..], pos, ValuesBytes(q), PageSizeBytes(q));
  }

  method WriteLastParts(output: array<byte>, pos: nat, q: Query) returns (next: nat)
    requires pos + |PagingStateBytes(q) + SerialBytes(q)| <= output.Length
    modifies output
    ensures next == pos + |PagingStateBytes(q) + SerialBytes(q)|
    ensures Wrote(old(output[..]), output[..], pos, PagingStateBytes(q) + SerialBytes(q))
  {
    ghost var a := output[..];
    next := WritePagingState(output, pos, q);
    ghost var b := output[..];
    next := WriteSerial(output, next, q);
    WroteBoth(a, b, output[..], pos, PagingStateBytes(q), SerialBytes(q));
  }

  /** The optional parts. */
  method WriteParts(output: array<byte>, pos: nat, q: Query) returns (next: nat)
    requires pos + |PartBytes(q)| <= output.Length
    modifies output
    ensures next == pos + |PartBytes(q)| && Wrote(old(output[..]), output[..], pos, PartBytes(q))
  {
    ghost var a := output[..];
    next := WriteFirstParts(output, pos, q);
    ghost var b := output[..];
    next := WriteLastParts(output, next, q);
    WroteBoth(a, b, output[..], pos, ValuesBytes(q) + PageSizeBytes(q), PagingStateBytes(q) + SerialBytes(q));
  }

  /** The write pass. */
  method Write(output: array<byte>, reserved: nat, q: Query, flags: byte)
    requires reserved + |QueryEncoder()(q)| <= output.Length && flags == Flags(q)
    modifies output
    ensures Wrote(old(output[..]), output[..], reserved, QueryEncoder()(q))
  {
    PassWrites(q);
    ghost var a := output[..];
    var buffer := WriteHead(output, reserved, q, flags);
    ghost var b := output[..];
    buffer := WriteParts(output, buffer, q);
    WroteBoth(a, b, output[..], reserved, HeadBytes(q, flags), PartBytes(q));
  }

  /** Behind what was written to fresh memory, zeros remain. */
  lemma EndOfWrite(a: Bytes, b: Bytes, pos: nat, x: Bytes)
    requires Wrote(a, b, pos, x) && forall i | 0 <= i < |a| :: a[i] == 0
    ensures b[pos..] == x + seq(|a| - pos - |x|, _ => 0)
  {
    assert b[pos..] == b[pos..pos + |x|] + b[pos + |x|..];
    assert a[pos + |x|..] == seq(|a| - pos - |x|, _ => 0);
  }

  class BodyQuery {
    var query: Bytes
    var consistency: int
    var pageSize: int
    var pageSizeSet: bool
    var pagingState: Bytes
    var serialConsistent: bool
    var serialConsistency: int
    var values: seq<Bytes>

    constructor ()
      ensures Value() == Query([], CONSISTENCY_ANY, [], None, [], None)
    {
      query, values, pagingState := [], [], [];
      consistency, serialConsistency := CONSISTENCY_ANY, CONSISTENCY_SERIAL;
      pageSize, pageSizeSet, serialConsistent := 0, false, false;
    }

    function Value(): Query
      reads this
    {
      Query(query, consistency, values, if pageSizeSet then Some(pageSize) else None, pagingState,
            if serialConsistent then Some(serialConsistency) else None)
    }

    method QueryString(input: Bytes)
      modifies this`query
      ensures Value() == old(Value()).(query := input)
    {
      query := input;
    }

    method PageSize(size: nat)
      modifies this`pageSize, this`pageSizeSet
      ensures Value() == old(Value()).(pageSize := Some(size))
    {
      pageSizeSet := true;
      pageSize := size;
    }

    method PagingState(state: Bytes)
      modifies this`pagingState
      ensures Value() == old(Value()).(pagingState := state)
    {
      pagingState := state;
    }

    method AddValue(value: Bytes)
      modifies this`values
      ensures Value() == old(Value()).(values := old(values) + [value])
    {
      values := values + [value];
    }

    method Consistency(c: int)
      modifies this`consistency
      ensures Value() == old(Value()).(consistency := c)
    {
      consistency := c;
    }

    method SerialConsistency(c: int)
      modifies this`serialConsistent, this`serialConsistency
      ensures Value() == old(Value()).(serial := Some(c))
    {
      serialConsistent := true;
      serialConsistency := c;
    }

    /** The first half of `prepare`: the size of the body and its flags. */
    method Size() returns (size: nat, flags: byte)
      ensures size == SizePass(CountedTwice, Value()) && flags == Flags(Value())
    {
      var f: nat := 0;
      size := 4 + |query| + 2 + 1;
      if serialConsistent {
        f := Or(f, FLAG_SERIAL_CONSISTENCY);
        size := size + 2;
      }
      if pagingState != [] {
        f := Or(f, FLAG_PAGING_STATE);
        size := size + 2 + |pagingState|;
      }
      if values != [] {
        var bytes := SizeOfValues();
        size := size + 2 + bytes;
        f := Or(f, FLAG_VALUES);
      }
      if pageSizeSet {
        size := size + 4;
        f := Or(f, FLAG_PAGE_SIZE);
      }
      if serialConsistent {
        size := size + 2;
        f := Or(f, FLAG_SERIAL_CONSISTENCY);
      }
      flags := f;
    }

    method SizeOfValues() returns (size: nat)
      ensures size == ValuesSize(values)
    {
      size := 0;
      for i := 0 to |values|
        invariant size == ValuesSize(values[..i])
      {
        ValuesSizeSnoc(values[..i], values[i]);
        assert values[..i + 1] == values[..i] + [values[i]];
        size := size + 4 + |values[i]|;
      }
      assert values[..|values|] == values;
    }

    method Prepare(reserved: nat) returns (output: array<byte>)
      ensures fresh(output) && output.Length == reserved + SizePass(CountedTwice, Value())
      ensures output[reserved..] == Prepared(CountedTwice, Value())
    {
      var size, flags := Size();
      SizePassIsWritePass(Value());
      output := new byte[reserved + size](_ => 0);
      ghost var a := output[..];
      Write(output, reserved, Value(), flags);
      EndOfWrite(a, output[..], reserved, QueryEncoder()(Value()));
    }
  }
}
