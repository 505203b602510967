/** The metadata of a RESULT body, sections 4.2.5.2 and 4.2.5.4 of the CQL binary protocol v2. */
module ResultMetadata {
  import opened Prelude
  import opened Bytes
  import opened Codecs
  import opened Serialization

  const FLAG_GLOBAL_TABLESPEC: nat := 1
  const FLAG_HAS_MORE_PAGES: nat := 2
  const FLAG_NO_METADATA: nat := 4

  /** Keyspace and table. */
  type TableSpec = (Bytes, Bytes)

  datatype Column = Column(
    tableSpec: Option<TableSpec>,
    name: Bytes,
    option: TypeOption,
    primary: Option<TypeOption>,
    secondary: Option<TypeOption>
  )

  datatype Metadata = Metadata(
    columnCount: int,
    pageState: Option<Bytes>,
    tableSpec: Option<TableSpec>,
    columns: Option<seq<Column>>
  )

  predicate IsCollection(id: int) {
    id == TYPE_SET || id == TYPE_LIST || id == TYPE_MAP
  }

  function Flags(m: Metadata): int {
    (if m.tableSpec.None? then 0 else 1) + (if m.pageState.None? then 0 else 2) + (if m.columns.None? then 4 else 0)
  }

  // ---------------------------------------------------------------------------------------------
  // One column
  // ---------------------------------------------------------------------------------------------

  type Elements = (Option<TypeOption>, Option<TypeOption>)

  type ColumnParts = (Option<TableSpec>, (Bytes, (TypeOption, Elements)))

  function PartsOfColumn(c: Column): ColumnParts {
    (c.tableSpec, (c.name, (c.option, (c.primary, c.secondary))))
  }

  function ColumnFrom(p: ColumnParts): Column {
    Column(p.0, p.1.0, p.1.1.0, p.1.1.1.0, p.1.1.1.1)
  }

  function TableSpecEncoder(): Encoder<TableSpec> {
    PairEncoder(EncString, EncString)
  }

  function TableSpecDecoder(): Decoder<TableSpec> {
    PairDecoder(GetString, GetString)
  }

  function ElementsEncoder(): Encoder<Elements> {
    PairEncoder(IfEncoder(OptionEncoder()), IfEncoder(OptionEncoder()))
  }

  /** Sets and lists carry one element type, maps two. */
  function ElementsDecoder(o: TypeOption): Decoder<Elements> {
    PairDecoder(IfDecoder(IsCollection(o.id), OptionDecoder()), IfDecoder(o.id == TYPE_MAP, OptionDecoder()))
  }

  function TypeEncoder(): Encoder<(TypeOption, Elements)> {
    PairEncoder(OptionEncoder(), ElementsEncoder())
  }

  function TypeDecoder(): Decoder<(TypeOption, Elements)> {
    ThenDecoder(OptionDecoder(), ElementsDecoder)
  }

  function ColumnPartsEncoder(): Encoder<ColumnParts> {
    PairEncoder(IfEncoder(TableSpecEncoder()), PairEncoder(EncString, TypeEncoder()))
  }

  function ColumnPartsDecoder(global: bool): Decoder<ColumnParts> {
    PairDecoder(IfDecoder(!global, TableSpecDecoder()), PairDecoder(GetString, TypeDecoder()))
  }

  function ColumnEncoder(): Encoder<Column> {
    MapEncoder(ColumnPartsEncoder(), PartsOfColumn)
  }

  function ColumnDecoder(global: bool): Decoder<Column> {
    MapDecoder(ColumnPartsDecoder(global), ColumnFrom)
  }

  /** The column decoder, read by read. */
  lemma ColumnSteps(global: bool, b: Bytes, pos: nat)
    ensures var s := IfDecoder(!global, TableSpecDecoder())(b, pos);
            var n := if s.None? then None else GetString(b, s.value.next);
            var o := if n.None? then None else OptionDecoder()(b, n.value.next);
            var e := if o.None? then None else ElementsDecoder(o.value.value)(b, o.value.next);
            ColumnDecoder(global)(b, pos)
              == if e.None? then None
                 else Some(Got(Column(s.value.value, n.value.value, o.value.value, e.value.value.0, e.value.value.1),
                               e.value.next))
  {
    var spec, rest := IfDecoder(!global, TableSpecDecoder()), PairDecoder(GetString, TypeDecoder());
    assert ColumnPartsDecoder(global)(b, pos) == GetPair(spec, rest, b, pos);
    var s := spec(b, pos);
    if s.Some? {
      assert rest(b, s.value.next) == GetPair(GetString, TypeDecoder(), b, s.value.next);
      var n := GetString(b, s.value.next);
      if n.Some? { TypeSteps(b, n.value.next); }
    }
  }

  lemma TypeSteps(b: Bytes, pos: nat)
    ensures var o := OptionDecoder()(b, pos);
            var e := if o.None? then None else ElementsDecoder(o.value.value)(b, o.value.next);
            TypeDecoder()(b, pos) == if e.None? then None else Some(Got((o.value.value, e.value.value), e.value.next))
  {
    assert TypeDecoder() == ThenDecoder(OptionDecoder(), ElementsDecoder);
  }

  predicate SpecFits(s: TableSpec) {
    |s.0| <= 0xFFFF && |s.1| <= 0xFFFF
  }

  predicate ElementsFit(id: int, e: Elements) {
    && (e.0.Some? <==> IsCollection(id)) && (e.0.Some? ==> OptionFits(e.0.value))
    && (e.1.Some? <==> id == TYPE_MAP) && (e.1.Some? ==> OptionFits(e.1.value))
  }

  predicate ColumnFits(global: bool, c: Column) {
    && (c.tableSpec.Some? <==> !global) && (c.tableSpec.Some? ==> SpecFits(c.tableSpec.value))
    && |c.name| <= 0xFFFF && OptionFits(c.option) && ElementsFit(c.option.id, (c.primary, c.secondary))
  }

  lemma TableSpecUndone(b: Bytes, s: TableSpec)
    requires SpecFits(s)
    ensures Undoes(TableSpecEncoder(), TableSpecDecoder(), b, s)
  {
    StringUndone(b, s.0);
    StringUndone(b, s.1);
    PairUndone(EncString, GetString, EncString, GetString, b, s);
  }

  lemma TypeUndone(b: Bytes, t: (TypeOption, Elements))
    requires OptionFits(t.0) && ElementsFit(t.0.id, t.1)
    ensures Undoes(TypeEncoder(), TypeDecoder(), b, t)
  {
    var c, m := IsCollection(t.0.id), t.0.id == TYPE_MAP;
    OptionUndone(b, t.0);
    if t.1.0.Some? { OptionUndone(b, t.1.0.value); }
    if t.1.1.Some? { OptionUndone(b, t.1.1.value); }
    IfUndone(OptionEncoder(), c, OptionDecoder(), b, t.1.0);
    IfUndone(OptionEncoder(), m, OptionDecoder(), b, t.1.1);
    PairUndone(IfEncoder(OptionEncoder()), IfDecoder(c, OptionDecoder()),
               IfEncoder(OptionEncoder()), IfDecoder(m, OptionDecoder()), b, t.1);
    ThenUndone(OptionEncoder(), OptionDecoder(), ElementsEncoder(), ElementsDecoder, b, t);
  }

  lemma ColumnUndone(global: bool, b: Bytes, c: Column)
    requires ColumnFits(global, c)
    ensures Undoes(ColumnEncoder(), ColumnDecoder(global), b, c)
  {
    var p := PartsOfColumn(c);
    if p.0.Some? { TableSpecUndone(b, p.0.value); }
    IfUndone(TableSpecEncoder(), !global, TableSpecDecoder(), b, p.0);
    StringUndone(b, p.1.0);
    TypeUndone(b, p.1.1);
    PairUndone(EncString, GetString, TypeEncoder(), TypeDecoder(), b, p.1);
    PairUndone(IfEncoder(TableSpecEncoder()), IfDecoder(!global, TableSpecDecoder()),
               PairEncoder(EncString, TypeEncoder()), PairDecoder(GetString, TypeDecoder()), b, p);
    assert ColumnFrom(PartsOfColumn(c)) == c;
    MapUndone(ColumnPartsEncoder(), ColumnPartsDecoder(global), PartsOfColumn, ColumnFrom, b, c);
  }

  lemma ReadSpecFits(b: Bytes, pos: nat)
    requires TableSpecDecoder()(b, pos).Some?
    ensures SpecFits(TableSpecDecoder()(b, pos).value.value)
  {
    PairReads(GetString, GetString, b, pos);
  }

  lemma ReadTypeFits(b: Bytes, pos: nat)
    requires TypeDecoder()(b, pos).Some?
    ensures var t := TypeDecoder()(b, pos).value.value; OptionFits(t.0) && ElementsFit(t.0.id, t.1)
  {
    ThenReads(OptionDecoder(), ElementsDecoder, b, pos);
    ReadOptionFits(b, pos);
    var o := OptionDecoder()(b, pos).value;
    ReadElementsFit(b, o.next, o.value);
  }

  lemma ReadElementsFit(b: Bytes, pos: nat, o: TypeOption)
    requires ElementsDecoder(o)(b, pos).Some?
    ensures ElementsFit(o.id, ElementsDecoder(o)(b, pos).value.value)
  {
    var c, m := IsCollection(o.id), o.id == TYPE_MAP;
    PairReads(IfDecoder(c, OptionDecoder()), IfDecoder(m, OptionDecoder()), b, pos);
    IfReads(c, OptionDecoder(), b, pos);
    if c { ReadOptionFits(b, pos); }
    var next := IfDecoder(c, OptionDecoder())(b, pos).value.next;
    IfReads(m, OptionDecoder(), b, next);
    if m { ReadOptionFits(b, next); }
  }

  lemma ReadColumnFits(global: bool, b: Bytes, pos: nat)
    requires ColumnDecoder(global)(b, pos).Some?
    ensures ColumnFits(global, ColumnDecoder(global)(b, pos).value.value)
  {
    var spec, rest := IfDecoder(!global, TableSpecDecoder()), PairDecoder(GetString, TypeDecoder());
    MapReads(ColumnPartsDecoder(global), ColumnFrom, b, pos);
    PairReads(spec, rest, b, pos);
    IfReads(!global, TableSpecDecoder(), b, pos);
    if !global { ReadSpecFits(b, pos); }
    var next := spec(b, pos).value.next;
    PairReads(GetString, TypeDecoder(), b, next);
    ReadTypeFits(b, GetString(b, next).value.next);
  }

  // ---------------------------------------------------------------------------------------------
  // All of it
  // ---------------------------------------------------------------------------------------------

  /** Flags and column count. */
  type Head = (int, int)

  /** Paging state, table and columns. */
  type Rest = (Option<Bytes>, (Option<TableSpec>, Option<seq<Column>>))

  function PartsOf(m: Metadata): (Head, Rest) {
    ((Flags(m), m.columnCount), (m.pageState, (m.tableSpec, m.columns)))
  }

  function MetadataFrom(p: (Head, Rest)): Metadata {
    Metadata(p.0.1, p.1.0, p.1.1.0, p.1.1.1)
  }

  function HeadEncoder(): Encoder<Head> {
    PairEncoder(EncInt, EncInt)
  }

  function HeadDecoder(): Decoder<Head> {
    PairDecoder(GetInt, GetInt)
  }

  function RestEncoder(): Encoder<Rest> {
    PairEncoder(IfEncoder(EncLongString),
                PairEncoder(IfEncoder(TableSpecEncoder()), IfEncoder(ManyEncoder(ColumnEncoder()))))
  }

  /** None when the count is negative: the vector of columns cannot have that size. */
  function ColumnsDecoder(global: bool, count: int): Decoder<seq<Column>> {
    if count < 0 then (b, pos) => None else ManyDecoder(ColumnDecoder(global), count)
  }

  function PagingDecoder(flags: int): Decoder<Option<Bytes>> {
    IfDecoder(Has(flags, FLAG_HAS_MORE_PAGES), GetLongString)
  }

  function GlobalTableDecoder(flags: int): Decoder<Option<TableSpec>> {
    IfDecoder(Has(flags, FLAG_GLOBAL_TABLESPEC), TableSpecDecoder())
  }

  function AllColumnsDecoder(flags: int, count: int): Decoder<Option<seq<Column>>> {
    IfDecoder(!Has(flags, FLAG_NO_METADATA), ColumnsDecoder(Has(flags, FLAG_GLOBAL_TABLESPEC), count))
  }

  function RestDecoder(h: Head): Decoder<Rest> {
    PairDecoder(PagingDecoder(h.0), PairDecoder(GlobalTableDecoder(h.0), AllColumnsDecoder(h.0, h.1)))
  }

  function MetadataEncoder(): Encoder<Metadata> {
    MapEncoder(PairEncoder(HeadEncoder(), RestEncoder()), PartsOf)
  }

  function MetadataDecoder(): Decoder<Metadata> {
    MapDecoder(ThenDecoder(HeadDecoder(), RestDecoder), MetadataFrom)
  }

  predicate MetadataFits(m: Metadata) {
    && -0x8000_0000 <= m.columnCount < 0x8000_0000
    && (m.pageState.Some? ==> |m.pageState.value| <= 0xFFFF_FFFF)
    && (m.tableSpec.Some? ==> SpecFits(m.tableSpec.value))
    && (m.columns.Some? ==> ColumnsFit(m.tableSpec.Some?, m.columnCount, m.columns.value))
  }

  predicate ColumnsFit(global: bool, count: int, cs: seq<Column>) {
    |cs| == count && forall c | c in cs :: ColumnFits(global, c)
  }

  lemma FlagsTell(m: Metadata)
    ensures Has(Flags(m), FLAG_GLOBAL_TABLESPEC) <==> m.tableSpec.Some?
    ensures Has(Flags(m), FLAG_HAS_MORE_PAGES) <==> m.pageState.Some?
    ensures Has(Flags(m), FLAG_NO_METADATA) <==> m.columns.None?
  {
  }

  lemma ColumnsUndone(global: bool, count: int, b: Bytes, cs: seq<Column>)
    requires ColumnsFit(global, count, cs)
    ensures Undoes(ManyEncoder(ColumnEncoder()), ColumnsDecoder(global, count), b, cs)
  {
    forall c | c in cs ensures Undoes(ColumnEncoder(), ColumnDecoder(global), b, c) {
      ColumnUndone(global, b, c);
    }
    ManyUndone(ColumnEncoder(), ColumnDecoder(global), count, b, cs);
  }

  lemma RestUndone(b: Bytes, m: Metadata)
    requires MetadataFits(m)
    ensures Undoes(RestEncoder(), RestDecoder(PartsOf(m).0), b, PartsOf(m).1)
  {
    FlagsTell(m);
    var f, global := Flags(m), m.tableSpec.Some?;
    var page, cols := Has(f, FLAG_HAS_MORE_PAGES), !Has(f, FLAG_NO_METADATA);
    var columns := ColumnsDecoder(global, m.columnCount);
    if page { LongStringUndone(b, m.pageState.value); }
    if global { TableSpecUndone(b, m.tableSpec.value); }
    if cols { ColumnsUndone(global, m.columnCount, b, m.columns.value); }
    IfUndone(EncLongString, page, GetLongString, b, m.pageState);
    IfUndone(TableSpecEncoder(), global, TableSpecDecoder(), b, m.tableSpec);
    IfUndone(ManyEncoder(ColumnEncoder()), cols, columns, b, m.columns);
    var spec, all := IfEncoder(TableSpecEncoder()), IfEncoder(ManyEncoder(ColumnEncoder()));
    PairUndone(spec, IfDecoder(global, TableSpecDecoder()), all, IfDecoder(cols, columns), b, (m.tableSpec, m.columns));
    PairUndone(IfEncoder(EncLongString), IfDecoder(page, GetLongString), PairEncoder(spec, all),
               PairDecoder(IfDecoder(global, TableSpecDecoder()), IfDecoder(cols, columns)), b,
               (m.pageState, (m.tableSpec, m.columns)));
  }

  lemma MetadataUndone(b: Bytes, m: Metadata)
    requires MetadataFits(m)
    ensures Undoes(MetadataEncoder(), MetadataDecoder(), b, m)
  {
    IntUndone(b, Flags(m));
    IntUndone(b, m.columnCount);
    PairUndone(EncInt, GetInt, EncInt, GetInt, b, (Flags(m), m.columnCount));
    RestUndone(b, m);
    ThenUndone(HeadEncoder(), HeadDecoder(), RestEncoder(), RestDecoder, b, PartsOf(m));
    assert MetadataFrom(PartsOf(m)) == m;
    MapUndone(PairEncoder(HeadEncoder(), RestEncoder()), ThenDecoder(HeadDecoder(), RestDecoder),
              PartsOf, MetadataFrom, b, m);
  }

  lemma ReadColumnsFit(global: bool, count: int, b: Bytes, pos: nat)
    requires ColumnsDecoder(global, count)(b, pos).Some?
    ensures ColumnsFit(global, count, ColumnsDecoder(global, count)(b, pos).value.value)
  {
    var cs := ColumnsDecoder(global, count)(b, pos).value.value;
    forall c | c in cs ensures ColumnFits(global, c) {
      var i :| 0 <= i < |cs| && cs[i] == c;
      DecodedSomewhere(ColumnDecoder(global), b, pos, count, i);
      var p: nat :| ColumnDecoder(global)(b, p).Some? && ColumnDecoder(global)(b, p).value.value == c;
      ReadColumnFits(global, b, p);
    }
  }

  lemma ReadRestFits(h: Head, b: Bytes, pos: nat)
    requires RestDecoder(h)(b, pos).Some? && -0x8000_0000 <= h.1 < 0x8000_0000
    ensures MetadataFits(MetadataFrom((h, RestDecoder(h)(b, pos).value.value)))
  {
    var global, page := Has(h.0, FLAG_GLOBAL_TABLESPEC), Has(h.0, FLAG_HAS_MORE_PAGES);
    var cols := !Has(h.0, FLAG_NO_METADATA);
    var paging, spec := IfDecoder(page, GetLongString), IfDecoder(global, TableSpecDecoder());
    var columns := IfDecoder(cols, ColumnsDecoder(global, h.1));
    PairReads(paging, PairDecoder(spec, columns), b, pos);
    IfReads(page, GetLongString, b, pos);
    var p1 := paging(b, pos).value.next;
    PairReads(spec, columns, b, p1);
    IfReads(global, TableSpecDecoder(), b, p1);
    if global { ReadSpecFits(b, p1); }
    var p2 := spec(b, p1).value.next;
    IfReads(cols, ColumnsDecoder(global, h.1), b, p2);
    if cols { ReadColumnsFit(global, h.1, b, p2); }
  }

  lemma ReadMetadataFits(b: Bytes, pos: nat)
    requires MetadataDecoder()(b, pos).Some?
    ensures MetadataFits(MetadataDecoder()(b, pos).value.value)
  {
    MapReads(ThenDecoder(HeadDecoder(), RestDecoder), MetadataFrom, b, pos);
    ThenReads(HeadDecoder(), RestDecoder, b, pos);
    PairReads(GetInt, GetInt, b, pos);
    var h := HeadDecoder()(b, pos).value;
    ReadRestFits(h.value, b, h.next);
  }

  /**
   What a printer that follows the protocol writes, `parse_metadata` reads back, ending exactly where
   it ends, if and only if the metadata is one the layout can carry: a class name just on custom types,
   element types just on collections, a table in each column just when there is no global one, as many
   columns as the count says, and every length within its prefix.
   */
  lemma MetadataRoundTripIff(b: Bytes, pos: nat, m: Metadata)
    requires At(b, pos, MetadataEncoder()(m))
    ensures MetadataDecoder()(b, pos) == Some(Got(m, pos + |MetadataEncoder()(m)|)) <==> MetadataFits(m)
  {
    if MetadataFits(m) { MetadataUndone(b, m); }
    if MetadataDecoder()(b, pos).Some? { ReadMetadataFits(b, pos); }
  }

  // ---------------------------------------------------------------------------------------------
  // The column vector and the column index
  // ---------------------------------------------------------------------------------------------

  /** As written, the vector is first resized to the count and every column then appended to it. */
  datatype VectorRule = ResizeThenPush | OnePerColumn

  /** The vector after parsing into a new object; None is a default-constructed entry. */
  function Vector(rule: VectorRule, cs: seq<Column>): seq<Option<Column>> {
    (if rule == ResizeThenPush then Blank(|cs|) else []) + Described(cs)
  }

  function Blank(n: nat): seq<Option<Column>> {
    seq(n, _ => None)
  }

  function Described(cs: seq<Column>): seq<Option<Column>> {
    seq(|cs|, i requires 0 <= i < |cs| => Some(cs[i]))
  }

  function Names(cs: seq<Column>): seq<(Bytes, nat)> {
    seq(|cs|, i requires 0 <= i < |cs| => (cs[i].name, i))
  }

  /** `column_index` after parsing into a new object. */
  function Index(cs: seq<Column>): map<Bytes, nat> {
    FirstWins(Names(cs))
  }

  /** The index knows exactly the column names, and maps each to the first column that bears it. */
  lemma IndexIsFirst(cs: seq<Column>, name: Bytes)
    ensures name in Index(cs) <==> exists i :: 0 <= i < |cs| && cs[i].name == name
    ensures name in Index(cs) ==>
              && Index(cs)[name] < |cs| && cs[Index(cs)[name]].name == name
              && forall j | 0 <= j < Index(cs)[name] :: cs[j].name != name
  {
    var ns := Names(cs);
    if name in Index(cs) {
      FirstWinsValues(ns, name);
    }
    if i :| 0 <= i < |cs| && cs[i].name == name {
      var k := FirstNamed(cs, name, i);
      FirstWinsAt(ns, k);
    }
  }

  lemma {:induction false} FirstNamed(cs: seq<Column>, name: Bytes, i: nat) returns (k: nat)
    requires i < |cs| && cs[i].name == name
    ensures k <= i && cs[k].name == name && forall j | 0 <= j < k :: cs[j].name != name
    decreases i
  {
    if j :| 0 <= j < i && cs[j].name == name {
      k := FirstNamed(cs, name, j);
    } else {
      k := i;
    }
  }

  /**
   Entry i describes column i when each column makes one entry; as written that holds exactly for
   results without columns, and the entry an indexed name leads to is then always a blank one.
   */
  lemma VectorDescribesIff(rule: VectorRule, cs: seq<Column>)
    ensures (forall i | 0 <= i < |cs| :: Vector(rule, cs)[i] == Some(cs[i])) <==> rule == OnePerColumn || cs == []
    ensures |Vector(rule, cs)| == |cs| <==> rule == OnePerColumn || cs == []
    ensures rule == ResizeThenPush ==>
              forall i | 0 <= i < |cs| :: Vector(rule, cs)[i] == None && Vector(rule, cs)[|cs| + i] == Some(cs[i])
  {
    if cs != [] && rule == ResizeThenPush {
      assert Vector(rule, cs)[0] == None;
    }
  }

  /** One column: as written the index leads to a blank entry. */
  lemma OneColumnBlank(c: Column)
    ensures Index([c]) == map[c.name := 0]
    ensures Vector(ResizeThenPush, [c])[0] == None && Vector(OnePerColumn, [c])[0] == Some(c)
  {
    assert Names([c]) == [(c.name, 0)];
    var rest: seq<(Bytes, nat)> := [];
    assert Names([c])[1..] == rest;
    assert FirstWins(rest) == map[];
  }
}
