/**
 The notations of cql_serialization.hpp.  `Enc*` functions say what an encoder writes, `Get*` what a
 decoder reads; the buffer-level code is in module Buffers.
 */
module Serialization {
  import opened Prelude
  import opened Bytes
  import opened Codecs

  const TYPE_CUSTOM := 0x0000
  const TYPE_LIST := 0x0020
  const TYPE_MAP := 0x0021
  const TYPE_SET := 0x0022

  // ---------------------------------------------------------------------------------------------
  // What the encoders write
  // ---------------------------------------------------------------------------------------------

  function EncString(s: Bytes): Bytes {
    EncShort(|s|) + s
  }

  function EncLongString(s: Bytes): Bytes {
    EncInt(|s|) + s
  }

  /** A two-byte count and, for each entry, its key and its value. */
  function EncKeyed<V>(enc: Encoder<V>, es: seq<(Bytes, V)>): Bytes {
    EncCounted(PairEncoder(EncString, enc), es)
  }

  type Entry = (Bytes, Bytes)

  function EntryEncoder(): Encoder<Entry> {
    PairEncoder(EncString, EncString)
  }

  /** A string map: its entries in iteration order. */
  function EncMap(es: seq<Entry>): Bytes {
    EncKeyed(EncString, es)
  }

  function EncList(ss: seq<Bytes>): Bytes {
    EncCounted(EncString, ss)
  }

  type MultiEntry = (Bytes, seq<Bytes>)

  function EncMultimap(es: seq<MultiEntry>): Bytes {
    EncKeyed(CountedEncoder(EncString), es)
  }

  /** An option of a column: its type, and a class name when the type is custom. */
  datatype TypeOption = TypeOption(id: int, className: Option<Bytes>)

  function OptionParts(o: TypeOption): (int, Option<Bytes>) {
    (o.id, o.className)
  }

  function OptionEncoder(): Encoder<TypeOption> {
    MapEncoder(PairEncoder(EncShort, IfEncoder(EncString)), OptionParts)
  }

  // ---------------------------------------------------------------------------------------------
  // What the decoders read
  // ---------------------------------------------------------------------------------------------

  /** The length lands in the low two bytes of a zeroed size_t, so it is read unsigned. */
  function GetString(b: Bytes, pos: nat): (r: Option<Got<Bytes>>)
    ensures r.Some? ==> pos + 2 <= r.value.next <= |b| && |r.value.value| <= 0xFFFF
  {
    if pos + 2 <= |b| && pos + 2 + U16(b, pos) <= |b|
    then Some(Got(b[pos + 2..pos + 2 + U16(b, pos)], pos + 2 + U16(b, pos)))
    else None
  }

  function GetLongString(b: Bytes, pos: nat): (r: Option<Got<Bytes>>)
    ensures r.Some? ==> pos + 4 <= r.value.next <= |b| && |r.value.value| <= 0xFFFF_FFFF
  {
    if pos + 4 <= |b| && pos + 4 + U32(b, pos) <= |b|
    then Some(Got(b[pos + 4..pos + 4 + U32(b, pos)], pos + 4 + U32(b, pos)))
    else None
  }

  function EntryDecoder(): Decoder<Entry> {
    PairDecoder(GetString, GetString)
  }

  /** `map.insert` keeps the entry that is already there: the first occurrence of a key wins. */
  function FirstWins<V>(es: seq<(Bytes, V)>): map<Bytes, V> {
    if es == [] then map[] else FirstWins(es[1..])[es[0].0 := es[0].1]
  }

  function GetKeyed<V>(get: Decoder<V>, b: Bytes, pos: nat): Option<Got<map<Bytes, V>>> {
    var es := GetCounted(PairDecoder(GetString, get), b, pos);
    if es.None? then None else Some(Got(FirstWins(es.value.value), es.value.next))
  }

  function GetMap(b: Bytes, pos: nat): Option<Got<map<Bytes, Bytes>>> {
    GetKeyed(GetString, b, pos)
  }

  function GetList(b: Bytes, pos: nat): Option<Got<seq<Bytes>>> {
    GetCounted(GetString, b, pos)
  }

  function MultiEntryDecoder(): Decoder<MultiEntry> {
    PairDecoder(GetString, CountedDecoder(GetString))
  }

  function GetMultimap(b: Bytes, pos: nat): Option<Got<map<Bytes, seq<Bytes>>>> {
    GetKeyed(CountedDecoder(GetString), b, pos)
  }

  function ClassNameDecoder(id: int): Decoder<Option<Bytes>> {
    IfDecoder(id == TYPE_CUSTOM, GetString)
  }

  function OptionFrom(p: (int, Option<Bytes>)): TypeOption {
    TypeOption(p.0, p.1)
  }

  function OptionDecoder(): Decoder<TypeOption> {
    MapDecoder(ThenDecoder(GetShort, ClassNameDecoder), OptionFrom)
  }

  /** The option decoder, read by read. */
  lemma OptionSteps(b: Bytes, pos: nat)
    ensures var id := GetShort(b, pos);
            var n := if id.None? then None else ClassNameDecoder(id.value.value)(b, id.value.next);
            OptionDecoder()(b, pos)
              == if n.None? then None else Some(Got(TypeOption(id.value.value, n.value.value), n.value.next))
  {
    assert OptionDecoder() == MapDecoder(ThenDecoder(GetShort, ClassNameDecoder), OptionFrom);
  }

  // ---------------------------------------------------------------------------------------------
  // Strings
  // ---------------------------------------------------------------------------------------------

  predicate StringFits(s: Bytes) {
    |s| <= 0xFFFF
  }

  /** A string comes back, wherever it stands, exactly when its length fits the two-byte prefix. */
  lemma StringRoundTrip(b: Bytes, pos: nat, s: Bytes)
    requires At(b, pos, EncString(s))
    ensures GetString(b, pos) == Some(Got(s, pos + |EncString(s)|)) <==> |s| <= 0xFFFF
  {
    AtConcat(b, pos, EncShort(|s|), s);
    ShortAt(b, pos, |s|);
    if |s| <= 0xFFFF {
      assert b[pos + 2..pos + 2 + |s|] == s;
    }
  }

  lemma LongStringRoundTrip(b: Bytes, pos: nat, s: Bytes)
    requires At(b, pos, EncLongString(s))
    ensures GetLongString(b, pos) == Some(Got(s, pos + |EncLongString(s)|)) <==> |s| <= 0xFFFF_FFFF
  {
    AtConcat(b, pos, EncInt(|s|), s);
    IntAt(b, pos, |s|);
    if |s| <= 0xFFFF_FFFF {
      assert b[pos + 4..pos + 4 + |s|] == s;
    }
  }

  lemma StringUndone(b: Bytes, s: Bytes)
    requires |s| <= 0xFFFF
    ensures Undoes(EncString, GetString, b, s)
  {
    forall p: nat | At(b, p, EncString(s)) ensures GetString(b, p) == Some(Got(s, p + |EncString(s)|)) {
      StringRoundTrip(b, p, s);
    }
  }

  lemma LongStringUndone(b: Bytes, s: Bytes)
    requires |s| <= 0xFFFF_FFFF
    ensures Undoes(EncLongString, GetLongString, b, s)
  {
    forall p: nat | At(b, p, EncLongString(s)) ensures GetLongString(b, p) == Some(Got(s, p + |EncLongString(s)|)) {
      LongStringRoundTrip(b, p, s);
    }
  }

  predicate EachFits(ss: seq<Bytes>) {
    ss == [] || (StringFits(ss[0]) && EachFits(ss[1..]))
  }

  lemma {:induction false} EachFitsIff(ss: seq<Bytes>)
    ensures EachFits(ss) <==> forall s | s in ss :: StringFits(s)
    decreases |ss|
  {
    if ss != [] {
      EachFitsIff(ss[1..]);
      assert ss == [ss[0]] + ss[1..];
    }
  }

  lemma StringsUndone(b: Bytes, ss: seq<Bytes>)
    requires EachFits(ss)
    ensures forall s | s in ss :: Undoes(EncString, GetString, b, s)
  {
    EachFitsIff(ss);
    forall s | s in ss ensures Undoes(EncString, GetString, b, s) {
      StringUndone(b, s);
    }
  }

  // ---------------------------------------------------------------------------------------------
  // String lists
  // ---------------------------------------------------------------------------------------------

  predicate ListFits(ss: seq<Bytes>) {
    |ss| <= 0x7FFF && EachFits(ss)
  }

  lemma ReadListFits(b: Bytes, pos: nat)
    requires GetList(b, pos).Some?
    ensures ListFits(GetList(b, pos).value.value)
  {
    var ss := GetList(b, pos).value.value;
    EachFitsIff(ss);
    forall s | s in ss ensures StringFits(s) {
      var i :| 0 <= i < |ss| && ss[i] == s;
      DecodedSomewhere(GetString, b, pos + 2, |ss|, i);
    }
  }

  /** A string list comes back, with its end position, exactly when count and strings fit. */
  lemma ListRoundTripIff(b: Bytes, pos: nat, ss: seq<Bytes>)
    requires At(b, pos, EncList(ss))
    ensures GetList(b, pos) == Some(Got(ss, pos + |EncList(ss)|)) <==> ListFits(ss)
  {
    if ListFits(ss) {
      StringsUndone(b, ss);
      CountedRoundTrip(EncString, GetString, b, pos, ss);
    }
    if GetList(b, pos).Some? { ReadListFits(b, pos); }
  }

  // ---------------------------------------------------------------------------------------------
  // Maps and multimaps
  // ---------------------------------------------------------------------------------------------

  ghost predicate DistinctKeys<V>(es: seq<(Bytes, V)>) {
    forall i, j | 0 <= i < j < |es| :: es[i].0 != es[j].0
  }

  /** The value kept for a key is that of its first occurrence. */
  lemma {:induction false} FirstWinsAt<V>(es: seq<(Bytes, V)>, i: nat)
    requires i < |es| && forall j | 0 <= j < i :: es[j].0 != es[i].0
    ensures es[i].0 in FirstWins(es) && FirstWins(es)[es[i].0] == es[i].1
    decreases |es|
  {
    if i > 0 {
      assert forall j | 0 <= j < i - 1 :: es[1..][j] == es[j + 1];
      FirstWinsAt(es[1..], i - 1);
    }
  }

  lemma {:induction false} FirstWinsValues<V>(es: seq<(Bytes, V)>, k: Bytes)
    requires k in FirstWins(es)
    ensures exists i :: 0 <= i < |es| && es[i] == (k, FirstWins(es)[k])
    decreases |es|
  {
    if es[0].0 == k {
      assert es[0] == (k, FirstWins(es)[k]);
    } else {
      FirstWinsValues(es[1..], k);
      var i :| 0 <= i < |es[1..]| && es[1..][i] == (k, FirstWins(es[1..])[k]);
      assert es[i + 1] == (k, FirstWins(es)[k]);
    }
  }

  /** What `map.insert` does when one more entry arrives. */
  lemma {:induction false} FirstWinsSnoc<V>(es: seq<(Bytes, V)>, e: (Bytes, V))
    ensures FirstWins(es + [e]) == if e.0 in FirstWins(es) then FirstWins(es) else FirstWins(es)[e.0 := e.1]
    decreases |es|
  {
    if es == [] {
      assert (es + [e])[1..] == [];
    } else {
      FirstWinsSnoc(es[1..], e);
      assert (es + [e])[1..] == es[1..] + [e];
    }
  }

  lemma {:induction false} ItemsGrow<T>(enc: Encoder<T>, xs: seq<T>, n: nat)
    requires n < |xs| && forall x | x in xs :: enc(x) != []
    ensures |EncMany(enc, xs[..n])| < |EncMany(enc, xs)|
    decreases n
  {
    if n > 0 {
      ItemsGrow(enc, xs[1..], n - 1);
      assert xs[..n][1..] == xs[1..][..n - 1];
    }
  }

  /** The decoder undoes the encoder on the values that fit, and gives no value that does not fit. */
  ghost predicate Exact<V(!new)>(enc: Encoder<V>, get: Decoder<V>, fits: V -> bool, b: Bytes) {
    && (forall v | fits(v) :: Undoes(enc, get, b, v))
    && (forall p: nat | get(b, p).Some? :: fits(get(b, p).value.value))
  }

  /** The count fits a signed short, every key its prefix and every value its encoding. */
  predicate KeyedFits<V>(fits: V -> bool, es: seq<(Bytes, V)>) {
    |es| <= 0x7FFF && EntriesFit(fits, es)
  }

  predicate EntriesFit<V>(fits: V -> bool, es: seq<(Bytes, V)>) {
    es == [] || (StringFits(es[0].0) && fits(es[0].1) && EntriesFit(fits, es[1..]))
  }

  lemma {:induction false} EntriesFitIff<V>(fits: V -> bool, es: seq<(Bytes, V)>)
    ensures EntriesFit(fits, es) <==> forall i | 0 <= i < |es| :: StringFits(es[i].0) && fits(es[i].1)
    decreases |es|
  {
    if es != [] {
      EntriesFitIff(fits, es[1..]);
      assert forall i | 0 < i < |es| :: es[i] == es[1..][i - 1];
      assert forall i | 0 <= i < |es| - 1 :: es[1..][i] == es[i + 1];
    }
  }

  lemma EntriesUndone<V(!new)>(enc: Encoder<V>, get: Decoder<V>, fits: V -> bool, b: Bytes, es: seq<(Bytes, V)>)
    requires Exact(enc, get, fits, b) && EntriesFit(fits, es)
    ensures forall e | e in es :: Undoes(PairEncoder(EncString, enc), PairDecoder(GetString, get), b, e)
  {
    EntriesFitIff(fits, es);
    forall e | e in es ensures Undoes(PairEncoder(EncString, enc), PairDecoder(GetString, get), b, e) {
      StringUndone(b, e.0);
      PairUndone(EncString, GetString, enc, get, b, e);
    }
  }

  /** What fits is decoded, the first occurrence of a repeated key winning. */
  lemma KeyedDecodes<V(!new)>(enc: Encoder<V>, get: Decoder<V>, fits: V -> bool,
                              b: Bytes, pos: nat, es: seq<(Bytes, V)>)
    requires Exact(enc, get, fits, b) && At(b, pos, EncKeyed(enc, es)) && KeyedFits(fits, es)
    ensures GetKeyed(get, b, pos) == Some(Got(FirstWins(es), pos + |EncKeyed(enc, es)|))
  {
    EntriesUndone(enc, get, fits, b, es);
    CountedRoundTrip(PairEncoder(EncString, enc), PairDecoder(GetString, get), b, pos, es);
  }

  /**
   With distinct keys, entries come back, with their exact end position and whatever surrounds them, if
   and only if they fit.
   */
  lemma KeyedRoundTripIff<V(!new)>(enc: Encoder<V>, get: Decoder<V>, fits: V -> bool,
                                   b: Bytes, pos: nat, es: seq<(Bytes, V)>)
    requires Exact(enc, get, fits, b) && At(b, pos, EncKeyed(enc, es)) && DistinctKeys(es)
    ensures GetKeyed(get, b, pos) == Some(Got(FirstWins(es), pos + |EncKeyed(enc, es)|)) <==> KeyedFits(fits, es)
  {
    if KeyedFits(fits, es) {
      KeyedDecodes(enc, get, fits, b, pos, es);
    } else if EntriesFit(fits, es) {
      TooManyEntries(enc, get, fits, b, pos, es);
    } else {
      EntriesFitIff(fits, es);
      var i :| 0 <= i < |es| && !(StringFits(es[i].0) && fits(es[i].1));
      UnfitEntryLost(enc, get, fits, b, pos, es, i);
    }
  }

  lemma TooManyEntries<V(!new)>(enc: Encoder<V>, get: Decoder<V>, fits: V -> bool,
                                b: Bytes, pos: nat, es: seq<(Bytes, V)>)
    requires Exact(enc, get, fits, b) && At(b, pos, EncKeyed(enc, es)) && |es| > 0x7FFF && EntriesFit(fits, es)
    ensures GetKeyed(get, b, pos).Some? && GetKeyed(get, b, pos).value.next < pos + |EncKeyed(enc, es)|
  {
    var pair := PairEncoder(EncString, enc);
    CountedAt(pair, b, pos, es);
    var c := Int16(|es| % 0x10000);
    var n := if c < 0 then 0 else c;
    EntriesUndone(enc, get, fits, b, es);
    ManyRoundTrip(pair, PairDecoder(GetString, get), b, pos + 2, es, n);
    ItemsGrow(pair, es, n);
  }

  lemma UnfitEntryLost<V(!new)>(enc: Encoder<V>, get: Decoder<V>, fits: V -> bool,
                                b: Bytes, pos: nat, es: seq<(Bytes, V)>, i: nat)
    requires Exact(enc, get, fits, b) && DistinctKeys(es) && i < |es| && !(StringFits(es[i].0) && fits(es[i].1))
    ensures GetKeyed(get, b, pos).Some? ==> GetKeyed(get, b, pos).value.value != FirstWins(es)
  {
    if GetKeyed(get, b, pos).Some? && GetKeyed(get, b, pos).value.value == FirstWins(es) {
      FirstWinsAt(es, i);
      DecodedEntryFits(enc, get, fits, b, pos, es[i].0);
    }
  }

  /** No decoded key or value is longer than its prefix can say. */
  lemma DecodedEntryFits<V(!new)>(enc: Encoder<V>, get: Decoder<V>, fits: V -> bool, b: Bytes, pos: nat, k: Bytes)
    requires Exact(enc, get, fits, b) && GetKeyed(get, b, pos).Some? && k in GetKeyed(get, b, pos).value.value
    ensures StringFits(k) && fits(GetKeyed(get, b, pos).value.value[k])
  {
    var pair := PairDecoder(GetString, get);
    var ds := GetCounted(pair, b, pos).value.value;
    FirstWinsValues(ds, k);
    var j :| 0 <= j < |ds| && ds[j] == (k, FirstWins(ds)[k]);
    DecodedSomewhere(pair, b, pos + 2, |ds|, j);
    var p: nat :| pair(b, p).Some? && pair(b, p).value.value == ds[j];
    PairReads(GetString, get, b, p);
  }

  lemma StringsExact(b: Bytes)
    ensures Exact(EncString, GetString, StringFits, b)
  {
    forall s | StringFits(s) ensures Undoes(EncString, GetString, b, s) {
      StringUndone(b, s);
    }
  }

  lemma ListsExact(b: Bytes)
    ensures Exact(CountedEncoder(EncString), CountedDecoder(GetString), ListFits, b)
  {
    forall ss | ListFits(ss) ensures Undoes(CountedEncoder(EncString), CountedDecoder(GetString), b, ss) {
      StringsUndone(b, ss);
      CountedUndone(EncString, GetString, b, ss);
    }
    var get := CountedDecoder(GetString);
    forall p: nat | get(b, p).Some? ensures ListFits(get(b, p).value.value) {
      assert get(b, p) == GetList(b, p);
      ReadListFits(b, p);
    }
  }

  /** A string map comes back, first occurrences winning, when it fits. */
  lemma MapDecodes(b: Bytes, pos: nat, es: seq<Entry>)
    requires At(b, pos, EncMap(es)) && KeyedFits(StringFits, es)
    ensures GetMap(b, pos) == Some(Got(FirstWins(es), pos + |EncMap(es)|))
  {
    StringsExact(b);
    KeyedDecodes(EncString, GetString, StringFits, b, pos, es);
  }

  /** With distinct keys a string map comes back exactly when its count, keys and values fit. */
  lemma MapRoundTripIff(b: Bytes, pos: nat, es: seq<Entry>)
    requires At(b, pos, EncMap(es)) && DistinctKeys(es)
    ensures GetMap(b, pos) == Some(Got(FirstWins(es), pos + |EncMap(es)|)) <==> KeyedFits(StringFits, es)
  {
    StringsExact(b);
    KeyedRoundTripIff(EncString, GetString, StringFits, b, pos, es);
  }

  /** With distinct keys a string multimap comes back exactly when its count, keys and lists fit. */
  lemma MultimapRoundTripIff(b: Bytes, pos: nat, es: seq<MultiEntry>)
    requires At(b, pos, EncMultimap(es)) && DistinctKeys(es)
    ensures GetMultimap(b, pos) == Some(Got(FirstWins(es), pos + |EncMultimap(es)|)) <==> KeyedFits(ListFits, es)
  {
    ListsExact(b);
    KeyedRoundTripIff(CountedEncoder(EncString), CountedDecoder(GetString), ListFits, b, pos, es);
  }

  /** A count from 0x8000 on is a negative short: the list or map is empty and nothing after the count is read. */
  lemma LargeCountReadsNothing(b: Bytes, pos: nat)
    requires pos + 2 <= |b| && U16(b, pos) >= 0x8000
    ensures GetList(b, pos) == Some(Got([], pos + 2)) && GetMap(b, pos) == Some(Got(map[], pos + 2))
    ensures GetMultimap(b, pos) == Some(Got(map[], pos + 2))
  {
    var none: seq<Entry>, nothing: seq<MultiEntry> := [], [];
    assert FirstWins(none) == map[] && FirstWins(nothing) == map[];
  }

  // ---------------------------------------------------------------------------------------------
  // Column type options
  // ---------------------------------------------------------------------------------------------

  predicate OptionFits(o: TypeOption) {
    && -0x8000 <= o.id < 0x8000
    && (o.className.Some? <==> o.id == TYPE_CUSTOM)
    && (o.className.Some? ==> |o.className.value| <= 0xFFFF)
  }

  /** An option comes back exactly when its id is a short and it has a class name just when it is custom. */
  lemma OptionRoundTripIff(b: Bytes, pos: nat, o: TypeOption)
    requires At(b, pos, OptionEncoder()(o))
    ensures OptionDecoder()(b, pos) == Some(Got(o, pos + |OptionEncoder()(o)|)) <==> OptionFits(o)
  {
    if OptionFits(o) { OptionUndone(b, o); }
    if OptionDecoder()(b, pos).Some? { ReadOptionFits(b, pos); }
  }

  lemma ReadOptionFits(b: Bytes, pos: nat)
    requires OptionDecoder()(b, pos).Some?
    ensures OptionFits(OptionDecoder()(b, pos).value.value)
  {
    MapReads(ThenDecoder(GetShort, ClassNameDecoder), OptionFrom, b, pos);
    ThenReads(GetShort, ClassNameDecoder, b, pos);
    var id := GetShort(b, pos).value;
    IfReads(id.value == TYPE_CUSTOM, GetString, b, id.next);
  }

  lemma OptionUndone(b: Bytes, o: TypeOption)
    requires OptionFits(o)
    ensures Undoes(OptionEncoder(), OptionDecoder(), b, o)
  {
    ShortUndone(b, o.id);
    if o.className.Some? { StringUndone(b, o.className.value); }
    IfUndone(EncString, o.id == TYPE_CUSTOM, GetString, b, o.className);
    ThenUndone(EncShort, GetShort, IfEncoder(EncString), ClassNameDecoder, b, OptionParts(o));
    MapUndone(PairEncoder(EncShort, IfEncoder(EncString)), ThenDecoder(GetShort, ClassNameDecoder),
              OptionParts, OptionFrom, b, o);
  }
}
