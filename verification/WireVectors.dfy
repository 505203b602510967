/**
 Messages written out byte by byte: what the printers of the other modules produce for given values.  A
 reader undoes its printer, so each is also what the reader gets from those bytes.
 */
module WireVectors {
  import opened Prelude
  import opened Bytes
  import opened Codecs
  import opened Serialization
  import opened ErrorBody
  import opened StartupBody
  import opened EndToEnd
  import opened Messages
  import F = Framing
  import Q = QueryBody
  import M = ResultMetadata
  import R = ResultBody

  const FOOBAR: Bytes := [0x66, 0x6f, 0x6f, 0x62, 0x61, 0x72]

  /** Numbers are big-endian. */
  lemma BigEndian(a: byte, b: byte, c: byte, d: byte)
    ensures U16([a, b], 0) == 0x100 * (a as int) + b
    ensures U32([a, b, c, d], 0) == 0x100_0000 * (a as int) + 0x1_0000 * (b as int) + 0x100 * (c as int) + d
  {
  }

  lemma NumberVectors()
    ensures EncShort(0x1234) == [0x12, 0x34] && EncShort(-2) == [0xFF, 0xFE]
    ensures EncInt(0x12345678) == [0x12, 0x34, 0x56, 0x78] && EncInt(-1) == [0xFF, 0xFF, 0xFF, 0xFF]
    ensures EncString(FOOBAR) == [0, 6] + FOOBAR && EncLongString(FOOBAR) == [0, 0, 0, 6] + FOOBAR
  {
  }

  lemma HeaderVector()
    ensures EncHeader(F.Header(0x81, 0x01, 0x7F, 0x08, 0x01020304)) == [0x81, 0x01, 0x7F, 0x08, 1, 2, 3, 4]
    ensures EncHeader(F.Header(0x02, 0, -1, 0x05, 0)) == [0x02, 0x00, 0xFF, 0x05, 0, 0, 0, 0]
  {
  }

  /** The ERROR message of the repository's tests. */
  lemma ErrorVector()
    ensures EncMail(Mail(0x81, 0x01, 0x7F, ErrorContent(Error(-1, FOOBAR))))
         == [0x81, 0x01, 0x7F, 0x00, 0x00, 0x00, 0x00, 0x0C] + [0xFF, 0xFF, 0xFF, 0xFF] + [0x00, 0x06] + FOOBAR
  {
  }

  /** The default STARTUP message of the repository's tests. */
  lemma StartupVector()
    ensures EncMail(Mail(0x02, 0, 0, StartupContent(FRESH)))
         == [0x02, 0x00, 0x00, 0x01, 0x00, 0x00, 0x00, 0x16] + [0x00, 0x01]
            + [0x00, 0x0b, 0x43, 0x51, 0x4c, 0x5f, 0x56, 0x45, 0x52, 0x53, 0x49, 0x4f, 0x4e]
            + [0x00, 0x05, 0x33, 0x2e, 0x30, 0x2e, 0x30]
  {
    OneOption(FRESH);
    VersionKey();
    assert EncString(DEFAULT_VERSION) == [0x00, 0x05, 0x33, 0x2e, 0x30, 0x2e, 0x30];
    assert |EncStartup(FRESH)| == 0x16;
    assert EncHeader(HeaderOf(Mail(0x02, 0, 0, StartupContent(FRESH))))
        == [0x02, 0x00, 0x00, 0x01, 0x00, 0x00, 0x00, 0x16];
  }

  /** One with a compression: its option comes first. */
  lemma CompressionVector()
    ensures EncStartup(Startup([0x34], [0x6c, 0x7a]))
         == [0x00, 0x02] + EncString(COMPRESSION) + [0x00, 0x02, 0x6c, 0x7a]
            + EncString(CQL_VERSION) + [0x00, 0x01, 0x34]
  {
    var s := Startup([0x34], [0x6c, 0x7a]);
    TwoOptions(s);
    assert EncString(s.compression) == [0x00, 0x02, 0x6c, 0x7a] && EncString(s.cqlVersion) == [0x00, 0x01, 0x34];
    assert EncShort(2) == [0x00, 0x02];
  }

  /** The two keys. */
  lemma VersionKey()
    ensures EncString(CQL_VERSION) == [0x00, 0x0b, 0x43, 0x51, 0x4c, 0x5f, 0x56, 0x45, 0x52, 0x53, 0x49, 0x4f, 0x4e]
    ensures EncString(COMPRESSION) == [0x00, 0x0b, 0x43, 0x4f, 0x4d, 0x50, 0x52, 0x45, 0x53, 0x53, 0x49, 0x4f, 0x4e]
  {
  }

  lemma OneOption(s: Startup)
    requires s.compression == [] && s.cqlVersion != []
    ensures EncStartup(s) == EncShort(1) + EncString(CQL_VERSION) + EncString(s.cqlVersion)
  {
    OptionsAre(s);
    var e: Entry := (CQL_VERSION, s.cqlVersion);
    assert Options(s) == [e] && Options(s)[1..] == [];
    assert EncMany(EntryEncoder(), Options(s)) == EntryEncoder()(e) + EncMany(EntryEncoder(), Options(s)[1..]);
  }

  lemma TwoOptions(s: Startup)
    requires s.compression != [] && s.cqlVersion != []
    ensures EncStartup(s) == EncShort(2) + EncString(COMPRESSION) + EncString(s.compression)
                             + EncString(CQL_VERSION) + EncString(s.cqlVersion)
  {
    OptionsAre(s);
    var c: Entry, v: Entry := (COMPRESSION, s.compression), (CQL_VERSION, s.cqlVersion);
    var es := Options(s);
    assert es == [c, v] && es[1..] == [v] && [v][1..] == [];
    assert EncMany(EntryEncoder(), [v]) == EntryEncoder()(v) + EncMany(EntryEncoder(), [v][1..]);
    assert EncMany(EntryEncoder(), es) == EntryEncoder()(c) + EncMany(EntryEncoder(), es[1..]);
  }

  // ---------------------------------------------------------------------------------------------
  // QUERY
  // ---------------------------------------------------------------------------------------------

  /** SELECT * FROM system.peers; */
  const PEERS: Bytes := [
    0x53, 0x45, 0x4c, 0x45, 0x43, 0x54, 0x20, 0x2a, 0x20, 0x46, 0x52, 0x4f, 0x4d, 0x20,
    0x73, 0x79, 0x73, 0x74, 0x65, 0x6d, 0x2e, 0x70, 0x65, 0x65, 0x72, 0x73, 0x3b
  ]

  /** The queries of the repository's tests without a value: a plain one and one with a paging state. */
  lemma QueryVectors()
    ensures Q.QueryEncoder()(Q.Query(PEERS, 1, [], None, [], None))
         == [0x00, 0x00, 0x00, 0x1b] + PEERS + [0x00, 0x01] + [0x00]
    ensures Q.QueryEncoder()(Q.Query(PEERS, 1, [], None, FOOBAR, None))
         == [0x00, 0x00, 0x00, 0x1b] + PEERS + [0x00, 0x01] + [0x08] + [0x00, 0x06] + FOOBAR
  {
    QueryLayout(Q.Query(PEERS, 1, [], None, [], None));
    QueryLayout(Q.Query(PEERS, 1, [], None, FOOBAR, None));
    assert EncLongString(PEERS) == [0x00, 0x00, 0x00, 0x1b] + PEERS && EncShort(1) == [0x00, 0x01];
    assert EncString(FOOBAR) == [0x00, 0x06] + FOOBAR;
  }

  /** All the parts: two values, a page size, a paging state and a serial consistency, in that order. */
  lemma FullQueryVector()
    ensures Q.QueryEncoder()(Q.Query([0x71], 6, [[1, 2], []], Some(100), [9], Some(8)))
         == [0, 0, 0, 1, 0x71] + [0, 6] + [0x1D] + ([0, 2] + [0, 0, 0, 2, 1, 2] + [0, 0, 0, 0])
            + [0, 0, 0, 100] + [0, 1, 9] + [0, 8]
  {
    var q := Q.Query([0x71], 6, [[1, 2], []], Some(100), [9], Some(8));
    QueryLayout(q);
    ValuesLayout([1, 2], []);
    assert EncLongString([0x71]) == [0, 0, 0, 1, 0x71] && EncShort(6) == [0, 6];
    assert EncInt(100) == [0, 0, 0, 100] && EncString([9]) == [0, 1, 9] && EncShort(8) == [0, 8];
    assert EncLongString([1, 2]) == [0, 0, 0, 2, 1, 2] && EncLongString([]) == [0, 0, 0, 0] && EncShort(2) == [0, 2];
  }

  /** The parts of a QUERY body, in the order of section 4.1.4 of the CQL binary protocol v2. */
  lemma QueryLayout(q: Q.Query)
    ensures Q.QueryEncoder()(q)
         == EncLongString(q.query) + EncShort(q.consistency)
            + [(if q.values == [] then 0 else 0x01) + (if q.pageSize.None? then 0 else 0x04)
               + (if q.pagingState == [] then 0 else 0x08) + (if q.serial.None? then 0 else 0x10)]
            + (if q.values == [] then [] else EncShort(|q.values|) + EncMany(EncLongString, q.values))
            + (if q.pageSize.None? then [] else EncInt(q.pageSize.value))
            + (if q.pagingState == [] then [] else EncString(q.pagingState))
            + (if q.serial.None? then [] else EncShort(q.serial.value))
  {
    var w := Q.WireOf(q);
    var rest := (w.1.1.1.0, w.1.1.1.1);
    var values, page := IfEncoder(Q.ValuesEncoder())(w.1.0), IfEncoder(EncInt)(w.1.1.0);
    var paging, serial := IfEncoder(EncString)(rest.0), IfEncoder(EncShort)(rest.1);
    assert Q.QueryEncoder()(q) == Q.HeadEncoder()(w.0) + Q.PartsEncoder()(w.1);
    assert Q.HeadEncoder()(w.0) == EncLongString(q.query) + (EncShort(q.consistency) + [Q.Flags(q)]);
    assert Q.PartsEncoder()(w.1) == values + (page + (paging + serial));
    Flatten(EncLongString(q.query), EncShort(q.consistency), [Q.Flags(q)], values, page, paging, serial);
  }

  lemma Flatten(a: Bytes, b: Bytes, c: Bytes, d: Bytes, e: Bytes, f: Bytes, g: Bytes)
    ensures a + (b + c) + (d + (e + (f + g))) == a + b + c + d + e + f + g
  {
  }

  /** A new query: empty, of consistency ANY and without any part. */
  lemma NewQueryVector()
    ensures Q.QueryEncoder()(Q.Query([], Q.CONSISTENCY_ANY, [], None, [], None)) == [0, 0, 0, 0] + [0, 0] + [0]
  {
    QueryLayout(Q.Query([], Q.CONSISTENCY_ANY, [], None, [], None));
  }

  lemma ValuesLayout(v: Bytes, w: Bytes)
    ensures EncMany(EncLongString, [v, w]) == EncLongString(v) + EncLongString(w)
  {
    assert [v, w][1..] == [w] && [w][1..] == [];
    assert EncMany(EncLongString, [w]) == EncLongString(w) + EncMany(EncLongString, [w][1..]);
  }

  // ---------------------------------------------------------------------------------------------
  // RESULT and SUPPORTED
  // ---------------------------------------------------------------------------------------------

  lemma SmallResultVectors()
    ensures R.EncResult(R.Void) == [0, 0, 0, 1]
    ensures R.EncResult(R.SetKeyspace([0x6b, 0x73])) == [0, 0, 0, 3] + [0, 2, 0x6b, 0x73]
  {
    assert EncString([0x6b, 0x73]) == [0, 2, 0x6b, 0x73] && EncInt(1) == [0, 0, 0, 1] && EncInt(3) == [0, 0, 0, 3];
  }

  lemma SchemaChangeVector()
    ensures R.EncResult(R.SchemaChange([0x43], [0x6b, 0x73], [0x74]))
         == [0, 0, 0, 5] + ([0, 1, 0x43] + ([0, 2, 0x6b, 0x73] + [0, 1, 0x74]))
  {
    assert EncString([0x6b, 0x73]) == [0, 2, 0x6b, 0x73] && EncInt(5) == [0, 0, 0, 5];
    assert EncString([0x43]) == [0, 1, 0x43] && EncString([0x74]) == [0, 1, 0x74];
  }

  /** A column, part after part. */
  lemma ColumnLayout(c: M.Column)
    ensures M.ColumnEncoder()(c)
         == (if c.tableSpec.None? then [] else EncString(c.tableSpec.value.0) + EncString(c.tableSpec.value.1))
            + EncString(c.name) + OptionEncoder()(c.option)
            + (if c.primary.None? then [] else OptionEncoder()(c.primary.value))
            + (if c.secondary.None? then [] else OptionEncoder()(c.secondary.value))
  {
    var p := M.PartsOfColumn(c);
    var spec, elements := IfEncoder(M.TableSpecEncoder())(p.0), M.ElementsEncoder()(p.1.1.1);
    assert M.ColumnEncoder()(c) == spec + PairEncoder(EncString, M.TypeEncoder())(p.1);
    assert PairEncoder(EncString, M.TypeEncoder())(p.1) == EncString(c.name) + M.TypeEncoder()(p.1.1);
    assert M.TypeEncoder()(p.1.1) == OptionEncoder()(c.option) + elements;
    assert elements == IfEncoder(OptionEncoder())(c.primary) + IfEncoder(OptionEncoder())(c.secondary);
  }

  /** Which types carry what: a class name for id 0, one element type for lists, maps and sets, two for maps. */
  lemma ElementTypes(global: bool, c: M.Column)
    requires M.ColumnFits(global, c)
    ensures c.option.className.Some? <==> c.option.id == 0
    ensures c.primary.Some? <==> c.option.id in {0x20, 0x21, 0x22}
    ensures c.secondary.Some? <==> c.option.id == 0x21
  {
  }

  lemma OptionLayout(o: TypeOption)
    ensures OptionEncoder()(o) == EncShort(o.id) + if o.className.None? then [] else EncString(o.className.value)
  {
    assert OptionEncoder()(o) == PairEncoder(EncShort, IfEncoder(EncString))(OptionParts(o));
  }

  /** Metadata, part after part. */
  lemma MetadataLayout(m: M.Metadata)
    ensures M.MetadataEncoder()(m)
         == EncInt((if m.tableSpec.None? then 0 else 1) + (if m.pageState.None? then 0 else 2)
                   + (if m.columns.None? then 4 else 0))
            + EncInt(m.columnCount)
            + (if m.pageState.None? then [] else EncLongString(m.pageState.value))
            + (if m.tableSpec.None? then [] else EncString(m.tableSpec.value.0) + EncString(m.tableSpec.value.1))
            + (if m.columns.None? then [] else EncMany(M.ColumnEncoder(), m.columns.value))
  {
    var p := M.PartsOf(m);
    assert M.MetadataEncoder()(m) == M.HeadEncoder()(p.0) + M.RestEncoder()(p.1);
    var spec, columns := IfEncoder(M.TableSpecEncoder()), IfEncoder(ManyEncoder(M.ColumnEncoder()));
    assert M.RestEncoder()(p.1) == IfEncoder(EncLongString)(p.1.0) + PairEncoder(spec, columns)(p.1.1);
    assert PairEncoder(spec, columns)(p.1.1) == spec(p.1.1.0) + columns(p.1.1.1);
  }

  /** More pages, a global table specification and one int column. */
  function GlobalMetadata(): M.Metadata {
    M.Metadata(1, Some([7]), Some(([0x6b, 0x73], [0x74])),
               Some([M.Column(None, [0x63], TypeOption(0x0009, None), None, None)]))
  }

  lemma MetadataVector()
    ensures M.MetadataEncoder()(GlobalMetadata())
         == [0, 0, 0, 3] + [0, 0, 0, 1] + [0, 0, 0, 1, 7] + ([0, 2, 0x6b, 0x73] + [0, 1, 0x74])
            + ([0, 1, 0x63] + [0, 9])
  {
    var m := GlobalMetadata();
    var c := m.columns.value[0];
    MetadataLayout(m);
    OneColumn(c);
    IntColumn();
    assert EncInt(3) == [0, 0, 0, 3] && EncInt(1) == [0, 0, 0, 1] && EncLongString([7]) == [0, 0, 0, 1, 7];
    assert EncString([0x6b, 0x73]) == [0, 2, 0x6b, 0x73] && EncString([0x74]) == [0, 1, 0x74];
  }

  lemma IntColumn()
    ensures M.ColumnEncoder()(M.Column(None, [0x63], TypeOption(0x0009, None), None, None)) == [0, 1, 0x63] + [0, 9]
  {
    var c := M.Column(None, [0x63], TypeOption(0x0009, None), None, None);
    ColumnLayout(c);
    OptionLayout(c.option);
    assert EncShort(9) == [0, 9] && EncString([0x63]) == [0, 1, 0x63];
  }

  /** A ROWS result: kind, metadata, row count and rows. */
  lemma RowsLayout(m: M.Metadata, n: int, rows: Bytes)
    ensures R.EncResult(R.Rows(m, n, rows)) == [0, 0, 0, 2] + (M.MetadataEncoder()(m) + EncInt(n)) + rows
  {
    assert R.RowsEncoder()((m, n)) == M.MetadataEncoder()(m) + EncInt(n) && EncInt(2) == [0, 0, 0, 2];
  }

  lemma OneColumn(c: M.Column)
    ensures EncMany(M.ColumnEncoder(), [c]) == M.ColumnEncoder()(c)
  {
    assert [c][1..] == [];
    assert EncMany(M.ColumnEncoder(), [c]) == M.ColumnEncoder()(c) + EncMany(M.ColumnEncoder(), [c][1..]);
  }

  /** A column of its own table: a map from a custom type to text. */
  lemma MapColumnVector()
    ensures M.ColumnEncoder()(MapColumn())
         == [0, 1, 0x6b] + [0, 1, 0x74] + [0, 1, 0x63] + [0, 0x21] + [0, 0, 0, 1, 0x78] + [0, 0x0D]
  {
    var c := MapColumn();
    ColumnLayout(c);
    OptionLayout(c.option);
    OptionLayout(c.primary.value);
    OptionLayout(c.secondary.value);
    assert EncString([0x6b]) == [0, 1, 0x6b] && EncString([0x74]) == [0, 1, 0x74];
    assert EncString([0x63]) == [0, 1, 0x63] && EncString([0x78]) == [0, 1, 0x78];
    assert EncShort(0x21) == [0, 0x21] && EncShort(0) == [0, 0] && EncShort(0x0D) == [0, 0x0D];
  }

  function MapColumn(): M.Column {
    M.Column(Some(([0x6b], [0x74])), [0x63], TypeOption(0x0021, None), Some(TypeOption(0, Some([0x78]))),
             Some(TypeOption(0x000D, None)))
  }

  /** A prepared statement with that column, and one whose metadata is left out. */
  lemma PreparedVectors()
    ensures R.EncResult(R.Prepared([8, 9], M.Metadata(1, None, None, Some([MapColumn()]))))
         == [0, 0, 0, 4] + [0, 2, 8, 9] + [0, 0, 0, 0] + [0, 0, 0, 1] + M.ColumnEncoder()(MapColumn())
    ensures R.EncResult(R.Prepared([8, 9], M.Metadata(3, None, None, None)))
         == [0, 0, 0, 4] + [0, 2, 8, 9] + [0, 0, 0, 4] + [0, 0, 0, 3]
  {
    PreparedLayout([8, 9], M.Metadata(1, None, None, Some([MapColumn()])));
    PreparedLayout([8, 9], M.Metadata(3, None, None, None));
    OneColumn(MapColumn());
    assert EncInt(4) == [0, 0, 0, 4] && EncInt(0) == [0, 0, 0, 0] && EncInt(1) == [0, 0, 0, 1];
    assert EncInt(3) == [0, 0, 0, 3] && EncString([8, 9]) == [0, 2, 8, 9];
  }

  lemma PreparedLayout(id: Bytes, m: M.Metadata)
    requires m.pageState.None? && m.tableSpec.None?
    ensures R.EncResult(R.Prepared(id, m))
         == EncInt(4) + EncString(id) + EncInt(if m.columns.None? then 4 else 0) + EncInt(m.columnCount)
            + (if m.columns.None? then [] else EncMany(M.ColumnEncoder(), m.columns.value))
  {
    MetadataLayout(m);
    assert R.PreparedEncoder()((id, m)) == EncString(id) + M.MetadataEncoder()(m);
    var flags, columns := if m.columns.None? then 4 else 0,
                          if m.columns.None? then [] else EncMany(M.ColumnEncoder(), m.columns.value);
    assert M.MetadataEncoder()(m) == EncInt(flags) + EncInt(m.columnCount) + columns;
    Associative(EncInt(4), EncString(id), EncInt(flags) + EncInt(m.columnCount) + columns);
    Associative(EncInt(4) + EncString(id), EncInt(flags) + EncInt(m.columnCount), columns);
    Associative(EncInt(4) + EncString(id), EncInt(flags), EncInt(m.columnCount));
  }

  /** A SUPPORTED body: one option with two values. */
  lemma SupportedVector()
    ensures EncMultimap([([0x6b], [[0x61], [0x62, 0x63]])])
         == [0, 1] + [0, 1, 0x6b] + [0, 2] + [0, 1, 0x61] + [0, 2, 0x62, 0x63]
  {
    var e: MultiEntry := ([0x6b], [[0x61], [0x62, 0x63]]);
    var enc := PairEncoder(EncString, CountedEncoder(EncString));
    assert [e][1..] == [];
    assert EncMany(enc, [e]) == enc(e) + EncMany(enc, [e][1..]);
    var a: Bytes, bc: Bytes := [0x61], [0x62, 0x63];
    assert [a, bc][1..] == [bc] && [bc][1..] == [];
    assert EncMany(EncString, [bc]) == EncString(bc) + EncMany(EncString, [bc][1..]);
    assert EncMany(EncString, [a, bc]) == EncString(a) + EncMany(EncString, [a, bc][1..]);
    assert EncString([0x6b]) == [0, 1, 0x6b] && EncString(a) == [0, 1, 0x61] && EncString(bc) == [0, 2, 0x62, 0x63];
    assert EncShort(1) == [0, 1] && EncShort(2) == [0, 2];
  }
}
