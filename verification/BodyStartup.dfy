/** The STARTUP body: a string map of options, of which the client knows two. */
module StartupBody {
  import opened Prelude
  import opened Bytes
  import opened Codecs
  import opened Serialization
  import opened Buffers

  const COMPRESSION: Bytes := [67, 79, 77, 80, 82, 69, 83, 83, 73, 79, 78]
  const CQL_VERSION: Bytes := [67, 81, 76, 95, 86, 69, 82, 83, 73, 79, 78]
  const DEFAULT_VERSION: Bytes := [51, 46, 48, 46, 48]

  datatype Startup = Startup(cqlVersion: Bytes, compression: Bytes)

  const FRESH := Startup(DEFAULT_VERSION, [])

  /** Byte-wise lexicographic order, the iteration order of a map keyed by strings. */
  predicate Less(a: Bytes, b: Bytes) {
    if b == [] then false
    else if a == [] then true
    else a[0] < b[0] || (a[0] == b[0] && Less(a[1..], b[1..]))
  }

  /** `map[key] = value` on the entries in iteration order. */
  function Put(es: seq<Entry>, key: Bytes, value: Bytes): seq<Entry> {
    if es == [] || Less(key, es[0].0) then [(key, value)] + es
    else if es[0].0 == key then [(key, value)] + es[1..]
    else [es[0]] + Put(es[1..], key, value)
  }

  /** An option is sent only when it is not empty. */
  function Options(s: Startup): seq<Entry> {
    var es := if s.compression == [] then [] else Put([], COMPRESSION, s.compression);
    if s.cqlVersion == [] then es else Put(es, CQL_VERSION, s.cqlVersion)
  }

  function EncStartup(s: Startup): Bytes {
    EncMap(Options(s))
  }

  /** Options that are absent leave the object as it was. */
  function GetStartup(b: Bytes, was: Startup): Option<Startup> {
    var m := GetMap(b, 0);
    if m.None? then None
    else Some(Startup(if CQL_VERSION in m.value.value then m.value.value[CQL_VERSION] else was.cqlVersion,
                      if COMPRESSION in m.value.value then m.value.value[COMPRESSION] else was.compression))
  }

  lemma KeysOrdered()
    ensures COMPRESSION != CQL_VERSION && Less(COMPRESSION, CQL_VERSION) && !Less(CQL_VERSION, COMPRESSION)
  {
    assert COMPRESSION[0] == CQL_VERSION[0];
    assert COMPRESSION[1..][0] == 79 && CQL_VERSION[1..][0] == 81;
  }

  /** The entries sent, in order. */
  lemma OptionsAre(s: Startup)
    ensures Options(s) == (if s.compression == [] then [] else [(COMPRESSION, s.compression)])
                        + (if s.cqlVersion == [] then [] else [(CQL_VERSION, s.cqlVersion)])
    ensures DistinctKeys(Options(s))
  {
    KeysOrdered();
    if s.compression != [] && s.cqlVersion != [] {
      var e: Entry := (COMPRESSION, s.compression);
      assert Put([], COMPRESSION, s.compression) == [e];
      var one: seq<Entry> := [e];
      assert one[1..] == [] && one[0] == e;
      assert Put([e], CQL_VERSION, s.cqlVersion) == [e] + Put([], CQL_VERSION, s.cqlVersion);
    }
  }

  predicate StartupFits(s: Startup) {
    0 < |s.cqlVersion| <= 0xFFFF && |s.compression| <= 0xFFFF
  }

  /**
   A fresh STARTUP body that consumes what another prepared equals it exactly when the strings fit
   and the version is not empty: an empty version is not sent, and the reader keeps its default.
   */
  lemma StartupRoundTripIff(s: Startup)
    ensures GetStartup(EncStartup(s), FRESH) == Some(s) <==> StartupFits(s)
  {
    var b, es := EncStartup(s), Options(s);
    OptionsAre(s);
    if |s.cqlVersion| <= 0xFFFF && |s.compression| <= 0xFFFF {
      OptionsFit(s);
      MapDecodes(b, 0, es);
      OptionsLookUp(s);
    } else if GetMap(b, 0).Some? {
      StringsExact(b);
      var m := GetMap(b, 0).value.value;
      if CQL_VERSION in m { DecodedEntryFits(EncString, GetString, StringFits, b, 0, CQL_VERSION); }
      if COMPRESSION in m { DecodedEntryFits(EncString, GetString, StringFits, b, 0, COMPRESSION); }
    }
  }

  /** Into any object: an option that was sent replaces the object's own, one that was not leaves it. */
  lemma StartupOver(s: Startup, was: Startup)
    requires |s.cqlVersion| <= 0xFFFF && |s.compression| <= 0xFFFF
    ensures GetStartup(EncStartup(s), was)
         == Some(Startup(if s.cqlVersion == [] then was.cqlVersion else s.cqlVersion,
                         if s.compression == [] then was.compression else s.compression))
  {
    OptionsFit(s);
    assert EncStartup(s)[0..|EncStartup(s)|] == EncStartup(s);
    MapDecodes(EncStartup(s), 0, Options(s));
    OptionsLookUp(s);
  }

  /** An empty version is lost: the reader is left with its default. */
  lemma EmptyVersionLost()
    ensures GetStartup(EncStartup(Startup([], [])), FRESH) == Some(FRESH)
  {
    StartupOver(Startup([], []), FRESH);
  }

  lemma OptionsFit(s: Startup)
    requires |s.cqlVersion| <= 0xFFFF && |s.compression| <= 0xFFFF
    ensures KeyedFits(StringFits, Options(s))
  {
    OptionsAre(s);
  }

  lemma OptionsLookUp(s: Startup)
    ensures var m := FirstWins(Options(s));
            && (CQL_VERSION in m <==> s.cqlVersion != []) && (CQL_VERSION in m ==> m[CQL_VERSION] == s.cqlVersion)
            && (COMPRESSION in m <==> s.compression != []) && (COMPRESSION in m ==> m[COMPRESSION] == s.compression)
  {
    OptionsAre(s);
    KeysOrdered();
    var es := Options(s);
    if s.compression != [] { FirstWinsAt(es, 0); }
    if s.cqlVersion != [] { FirstWinsAt(es, |es| - 1); }
    if COMPRESSION in FirstWins(es) { FirstWinsValues(es, COMPRESSION); }
    if CQL_VERSION in FirstWins(es) { FirstWinsValues(es, CQL_VERSION); }
  }

  class BodyStartup {
    var cqlVersion: Bytes
    var compression: Bytes

    constructor ()
      ensures Value() == FRESH
    {
      cqlVersion, compression := DEFAULT_VERSION, [];
    }

    function Value(): Startup
      reads this
    {
      Startup(cqlVersion, compression)
    }

    method Consume(buffer: Bytes) returns (inside: bool)
      modifies this
      ensures inside <==> GetStartup(buffer, old(Value())).Some?
      ensures if inside then GetStartup(buffer, old(Value())) == Some(Value()) else Value() == old(Value())
    {
      var options := DecodeStringMap(buffer, 0);
      if options.None? { return false; }
      if COMPRESSION in options.value.value {
        compression := options.value.value[COMPRESSION];
      }
      if CQL_VERSION in options.value.value {
        cqlVersion := options.value.value[CQL_VERSION];
      }
      return true;
    }

    /** The size pass and the write pass agree: the buffer is exactly full. */
    method Prepare(reserved: nat) returns (output: array<byte>)
      ensures fresh(output)
      ensures output.Length == reserved + |EncStartup(Value())| && output[reserved..] == EncStartup(Value())
    {
      var size := reserved + 2;
      var options: seq<Entry> := [];
      if compression != [] {
        size := size + 2 + |COMPRESSION|;
        size := size + 2 + |compression|;
        options := Put(options, COMPRESSION, compression);
      }
      if cqlVersion != [] {
        size := size + 2 + |CQL_VERSION|;
        size := size + 2 + |cqlVersion|;
        options := Put(options, CQL_VERSION, cqlVersion);
      }
      OptionsSize(Value());
      output := new byte[size](_ => 0);
      var end := EncodeStringMap(output, reserved, options);
      assert output[reserved..] == output[..][reserved..size];
    }
  }

  lemma OptionsSize(s: Startup)
    ensures |EncStartup(s)| == 2 + (if s.compression == [] then 0 else 2 + |COMPRESSION| + 2 + |s.compression|)
                                 + (if s.cqlVersion == [] then 0 else 2 + |CQL_VERSION| + 2 + |s.cqlVersion|)
  {
    OptionsAre(s);
    var es: seq<Entry> := Options(s);
    assert |EncStartup(s)| == 2 + |EncMany(EntryEncoder(), es)|;
    if es != [] {
      var rest := es[1..];
      assert EncMany(EntryEncoder(), es) == EntryEncoder()(es[0]) + EncMany(EntryEncoder(), rest);
      if rest != [] {
        assert rest[1..] == [];
        assert EncMany(EntryEncoder(), rest) == EntryEncoder()(rest[0]) + EncMany(EntryEncoder(), rest[1..]);
      }
    }
  }
}
