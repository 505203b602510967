/** The RESULT body: five kinds, three of them with parsers of their own. */
module ResultBody {
  import opened Prelude
  import opened Bytes
  import opened Protocol
  import opened Codecs
  import opened Serialization
  import opened Buffers
  import M = ResultMetadata

  /** `rows` is what stands behind the row count. */
  datatype Result =
    | Void
    | Rows(metadata: M.Metadata, rowCount: int, rows: Bytes)
    | SetKeyspace(keyspace: Bytes)
    | Prepared(id: Bytes, metadata: M.Metadata)
    | SchemaChange(change: Bytes, keyspace: Bytes, table: Bytes)

  function Kind(r: Result): int {
    match r
    case Void => KIND_VOID
    case Rows(_, _, _) => KIND_ROWS
    case SetKeyspace(_) => KIND_SET_KEYSPACE
    case Prepared(_, _) => KIND_PREPARED
    case SchemaChange(_, _, _) => KIND_SCHEMA_CHANGE
  }

  // ---------------------------------------------------------------------------------------------
  // Printing and reading by the protocol
  // ---------------------------------------------------------------------------------------------

  function RowsEncoder(): Encoder<(M.Metadata, int)> {
    PairEncoder(M.MetadataEncoder(), EncInt)
  }

  function RowsDecoder(): Decoder<(M.Metadata, int)> {
    PairDecoder(M.MetadataDecoder(), GetInt)
  }

  function PreparedEncoder(): Encoder<(Bytes, M.Metadata)> {
    PairEncoder(EncString, M.MetadataEncoder())
  }

  function PreparedDecoder(): Decoder<(Bytes, M.Metadata)> {
    PairDecoder(GetString, M.MetadataDecoder())
  }

  function ChangeEncoder(): Encoder<(Bytes, (Bytes, Bytes))> {
    PairEncoder(EncString, PairEncoder(EncString, EncString))
  }

  function ChangeDecoder(): Decoder<(Bytes, (Bytes, Bytes))> {
    PairDecoder(GetString, PairDecoder(GetString, GetString))
  }

  /** What follows the kind; the rows themselves come after it. */
  function EncContent(r: Result): Bytes {
    match r
    case Void => []
    case Rows(m, n, _) => RowsEncoder()((m, n))
    case SetKeyspace(k) => EncString(k)
    case Prepared(id, m) => PreparedEncoder()((id, m))
    case SchemaChange(c, k, t) => ChangeEncoder()((c, (k, t)))
  }

  function EncResult(r: Result): Bytes {
    EncInt(Kind(r)) + EncContent(r) + if r.Rows? then r.rows else []
  }

  function GetRows(b: Bytes, pos: nat): Option<Result> {
    var m := M.MetadataDecoder()(b, pos);
    if m.None? then None else
    var n := GetInt(b, m.value.next);
    if n.None? then None else Some(Rows(m.value.value, n.value.value, b[n.value.next..]))
  }

  function GetPrepared(b: Bytes, pos: nat): Option<Result> {
    var id := GetString(b, pos);
    if id.None? then None else
    var m := M.MetadataDecoder()(b, id.value.next);
    if m.None? then None else Some(Prepared(id.value.value, m.value.value))
  }

  function GetSetKeyspace(b: Bytes, pos: nat): Option<Result> {
    var k := GetString(b, pos);
    if k.None? then None else Some(SetKeyspace(k.value.value))
  }

  function GetSchemaChange(b: Bytes, pos: nat): Option<Result> {
    var c := GetString(b, pos);
    if c.None? then None else
    var k := GetString(b, c.value.next);
    if k.None? then None else
    var t := GetString(b, k.value.next);
    if t.None? then None else Some(SchemaChange(c.value.value, k.value.value, t.value.value))
  }

  /**
   None when a read leaves the body, when the column count cannot be the size of a vector, and when
   the kind is unknown, which the source asserts against.
   */
  function GetContent(b: Bytes, pos: nat, kind: int): Option<Result> {
    if kind == KIND_VOID then Some(Void)
    else if kind == KIND_ROWS then GetRows(b, pos)
    else if kind == KIND_SET_KEYSPACE then GetSetKeyspace(b, pos)
    else if kind == KIND_PREPARED then GetPrepared(b, pos)
    else if kind == KIND_SCHEMA_CHANGE then GetSchemaChange(b, pos)
    else None
  }

  function GetResult(b: Bytes): Option<Result> {
    var kind := GetInt(b, 0);
    if kind.None? then None else GetContent(b, kind.value.next, kind.value.value)
  }

  predicate ResultFits(r: Result) {
    match r
    case Void => true
    case Rows(m, n, _) => M.MetadataFits(m) && -0x8000_0000 <= n < 0x8000_0000
    case SetKeyspace(k) => |k| <= 0xFFFF
    case Prepared(id, m) => |id| <= 0xFFFF && M.MetadataFits(m)
    case SchemaChange(c, k, t) => |c| <= 0xFFFF && |k| <= 0xFFFF && |t| <= 0xFFFF
  }

  lemma RowsUndone(b: Bytes, m: M.Metadata, n: int)
    requires M.MetadataFits(m) && -0x8000_0000 <= n < 0x8000_0000
    ensures Undoes(RowsEncoder(), RowsDecoder(), b, (m, n))
  {
    M.MetadataUndone(b, m);
    IntUndone(b, n);
    PairUndone(M.MetadataEncoder(), M.MetadataDecoder(), EncInt, GetInt, b, (m, n));
  }

  lemma PreparedUndone(b: Bytes, id: Bytes, m: M.Metadata)
    requires |id| <= 0xFFFF && M.MetadataFits(m)
    ensures Undoes(PreparedEncoder(), PreparedDecoder(), b, (id, m))
  {
    StringUndone(b, id);
    M.MetadataUndone(b, m);
    PairUndone(EncString, GetString, M.MetadataEncoder(), M.MetadataDecoder(), b, (id, m));
  }

  lemma ChangeUndone(b: Bytes, e: (Bytes, (Bytes, Bytes)))
    requires |e.0| <= 0xFFFF && |e.1.0| <= 0xFFFF && |e.1.1| <= 0xFFFF
    ensures Undoes(ChangeEncoder(), ChangeDecoder(), b, e)
  {
    StringUndone(b, e.0);
    StringUndone(b, e.1.0);
    StringUndone(b, e.1.1);
    PairUndone(EncString, GetString, EncString, GetString, b, e.1);
    PairUndone(EncString, GetString, PairEncoder(EncString, EncString), PairDecoder(GetString, GetString), b, e);
  }

  lemma RowsRead(b: Bytes, pos: nat, m: M.Metadata, n: int)
    requires M.MetadataFits(m) && -0x8000_0000 <= n < 0x8000_0000 && At(b, pos, RowsEncoder()((m, n)))
    ensures GetRows(b, pos) == Some(Rows(m, n, b[pos + |RowsEncoder()((m, n))|..]))
  {
    RowsUndone(b, m, n);
    assert RowsDecoder()(b, pos) == Some(Got((m, n), pos + |RowsEncoder()((m, n))|));
    PairReads(M.MetadataDecoder(), GetInt, b, pos);
  }

  lemma PreparedReads(b: Bytes, pos: nat, id: Bytes, m: M.Metadata)
    requires |id| <= 0xFFFF && M.MetadataFits(m) && At(b, pos, PreparedEncoder()((id, m)))
    ensures GetPrepared(b, pos) == Some(Prepared(id, m))
  {
    PreparedUndone(b, id, m);
    PairReads(GetString, M.MetadataDecoder(), b, pos);
  }

  lemma ChangeReads(b: Bytes, pos: nat, c: Bytes, k: Bytes, t: Bytes)
    requires |c| <= 0xFFFF && |k| <= 0xFFFF && |t| <= 0xFFFF && At(b, pos, ChangeEncoder()((c, (k, t))))
    ensures GetSchemaChange(b, pos) == Some(SchemaChange(c, k, t))
  {
    ChangeUndone(b, (c, (k, t)));
    PairReads(GetString, PairDecoder(GetString, GetString), b, pos);
    PairReads(GetString, GetString, b, GetString(b, pos).value.next);
  }

  lemma ContentReads(b: Bytes, pos: nat, r: Result)
    requires ResultFits(r) && At(b, pos, EncContent(r))
    ensures var end := pos + |EncContent(r)|;
            GetContent(b, pos, Kind(r)) == Some(if r.Rows? then r.(rows := b[end..]) else r)
  {
    match r
    case Void =>
    case Rows(m, n, _) => RowsRead(b, pos, m, n);
    case SetKeyspace(k) => StringUndone(b, k);
    case Prepared(id, m) => PreparedReads(b, pos, id, m);
    case SchemaChange(c, k, t) => ChangeReads(b, pos, c, k, t);
  }

  lemma ReadContentFits(b: Bytes, pos: nat, kind: int)
    requires GetContent(b, pos, kind).Some?
    ensures ResultFits(GetContent(b, pos, kind).value)
  {
    if kind == KIND_ROWS {
      M.ReadMetadataFits(b, pos);
    } else if kind == KIND_PREPARED {
      M.ReadMetadataFits(b, GetString(b, pos).value.next);
    }
  }

  /** A printed RESULT body of any kind is read back, the rows region whole, exactly when it fits the layout. */
  lemma ResultRoundTripIff(r: Result)
    ensures GetResult(EncResult(r)) == Some(r) <==> ResultFits(r)
  {
    var b := EncResult(r);
    var head, content, rows := EncInt(Kind(r)), EncContent(r), if r.Rows? then r.rows else [];
    assert b[4..4 + |content|] == content && b[4 + |content|..] == rows;
    assert b[0..4] == head;
    KindReads(b, r);
    if ResultFits(r) { ContentReads(b, 4, r); }
    if GetContent(b, 4, Kind(r)).Some? { ReadContentFits(b, 4, Kind(r)); }
  }

  lemma KindReads(b: Bytes, r: Result)
    requires At(b, 0, EncInt(Kind(r)))
    ensures GetInt(b, 0) == Some(Got(Kind(r), 4))
  {
    IntUndone(b, Kind(r));
  }

  // ---------------------------------------------------------------------------------------------
  // The object
  // ---------------------------------------------------------------------------------------------

  /** `vector::resize`. */
  function Resized(v: seq<Option<M.Column>>, n: nat): seq<Option<M.Column>> {
    if n <= |v| then v[..n] else v + M.Blank(n - |v|)
  }

  /** `column_index.insert` in column order: what is there already stays. */
  function Indexed(was: map<Bytes, nat>, cs: seq<M.Column>): map<Bytes, nat> {
    M.Index(cs) + was
  }

  lemma IndexedSnoc(was: map<Bytes, nat>, cs: seq<M.Column>, c: M.Column)
    ensures Indexed(was, cs + [c])
         == if c.name in Indexed(was, cs) then Indexed(was, cs) else Indexed(was, cs)[c.name := |cs|]
  {
    NamesSnoc(cs, c);
    var e: (Bytes, nat) := (c.name, |cs|);
    FirstWinsSnoc(M.Names(cs), e);
    InsertOrKeep(M.Index(cs), was, c.name, |cs|);
  }

  lemma InsertOrKeep(m: map<Bytes, nat>, was: map<Bytes, nat>, k: Bytes, v: nat)
    ensures (if k in m then m else m[k := v]) + was == if k in m + was then m + was else (m + was)[k := v]
  {
  }

  lemma NamesSnoc(cs: seq<M.Column>, c: M.Column)
    ensures M.Names(cs + [c]) == M.Names(cs) + [(c.name, |cs|)]
  {
  }

  /** The fields the metadata goes to. */
  datatype Fields = Fields(
    columnCount: int,
    morePages: bool,
    pageState: Bytes,
    globalTableSpec: bool,
    keyspace: Bytes,
    table: Bytes,
    noMetadata: bool,
    columnMetadata: seq<Option<M.Column>>,
    columnIndex: map<Bytes, nat>
  )

  function WithPaging(f: Fields, p: Option<Bytes>): Fields {
    if p.None? then f.(morePages := false) else f.(morePages := true, pageState := p.value)
  }

  function WithTable(f: Fields, s: Option<M.TableSpec>): Fields {
    if s.None? then f.(globalTableSpec := false)
    else f.(globalTableSpec := true, keyspace := s.value.0, table := s.value.1)
  }

  function WithColumns(f: Fields, cs: Option<seq<M.Column>>): Fields {
    if cs.None? then f.(noMetadata := true)
    else f.(noMetadata := false, columnMetadata := Resized(f.columnMetadata, |cs.value|) + M.Described(cs.value),
            columnIndex := Indexed(f.columnIndex, cs.value))
  }

  function WithRest(f: Fields, r: M.Rest): Fields {
    WithColumns(WithTable(WithPaging(f, r.0), r.1.0), r.1.1)
  }

  /** The fields of a new object. */
  const NEW_FIELDS := Fields(0, false, [], true, [], [], false, [], map[])

  /**
   Whatever metadata a new object parses, its column vector and its index become those of the columns
   that came with it.
   */
  lemma NewObjectColumns(m: M.Metadata)
    ensures var f, cs := WithMetadata(NEW_FIELDS, m), if m.columns.Some? then m.columns.value else [];
            f.columnMetadata == M.Vector(M.ResizeThenPush, cs) && f.columnIndex == M.Index(cs)
  {
    if m.columns.None? { assert M.Index([]) == map[] by { assert M.Names([]) == []; } }
  }

  /** Metadata replaces what it mentions and leaves the rest. */
  function WithMetadata(f: Fields, m: M.Metadata): Fields {
    WithRest(f.(columnCount := m.columnCount), (m.pageState, (m.tableSpec, m.columns)))
  }

  /** The whole object; `region` is what its row pointer points at, up to the end of the body. */
  datatype Object = Object(
    kind: int,
    fields: Fields,
    rowCount: int,
    region: Bytes,
    prepared: Bytes,
    change: Bytes
  )

  /** The object after consuming a body that holds r. */
  function Holding(o: Object, r: Result): Object {
    match r
    case Void => o.(kind := KIND_VOID)
    case Rows(m, n, region) =>
      o.(kind := KIND_ROWS, fields := WithMetadata(o.fields, m), rowCount := n, region := region)
    case SetKeyspace(k) => o.(kind := KIND_SET_KEYSPACE, fields := o.fields.(keyspace := k))
    case Prepared(id, m) => o.(kind := KIND_PREPARED, prepared := id, fields := WithMetadata(o.fields, m))
    case SchemaChange(c, k, t) =>
      o.(kind := KIND_SCHEMA_CHANGE, change := c, fields := o.fields.(keyspace := k, table := t))
  }

  // ---------------------------------------------------------------------------------------------
  // What the object shows of a result
  // ---------------------------------------------------------------------------------------------

  /** What is there, or what was there before. */
  function OrElse<T>(x: Option<T>, was: T): T {
    if x.None? then was else x.value
  }

  /** The fields show this metadata, a paging state, a table or columns that it does not mention staying. */
  ghost predicate ShowsMetadata(was: Fields, now: Fields, m: M.Metadata) {
    && now.columnCount == m.columnCount
    && now.morePages == m.pageState.Some? && now.pageState == OrElse(m.pageState, was.pageState)
    && now.globalTableSpec == m.tableSpec.Some?
    && (m.tableSpec.None? ==> now.keyspace == was.keyspace && now.table == was.table)
    && (m.tableSpec.Some? ==> m.tableSpec.value == (now.keyspace, now.table))
    && now.noMetadata == m.columns.None?
    && (m.columns.None? ==> now.columnMetadata == was.columnMetadata && now.columnIndex == was.columnIndex)
    && (m.columns.Some? ==> ShowsColumns(was, now, m.columns.value))
  }

  /** Column i is entry |cs| + i; entries and names that were there before stay, up to the count. */
  ghost predicate ShowsColumns(was: Fields, now: Fields, cs: seq<M.Column>) {
    && |now.columnMetadata| == 2 * |cs|
    && (forall i | 0 <= i < |cs| :: now.columnMetadata[|cs| + i] == Some(cs[i]))
    && (forall i | 0 <= i < |cs| ::
          now.columnMetadata[i] == if i < |was.columnMetadata| then was.columnMetadata[i] else None)
    && now.columnIndex == M.Index(cs) + was.columnIndex
  }

  ghost predicate Shows(was: Object, now: Object, r: Result) {
    match r
    case Void => now == was.(kind := 1)
    case Rows(m, n, rows) =>
      && now.kind == 2 && ShowsMetadata(was.fields, now.fields, m) && now.rowCount == n && now.region == rows
      && now.prepared == was.prepared && now.change == was.change
    case SetKeyspace(k) => now.kind == 3 && now == was.(kind := now.kind, fields := was.fields.(keyspace := k))
    case Prepared(id, m) =>
      && now.kind == 4 && now.prepared == id && ShowsMetadata(was.fields, now.fields, m)
      && now.rowCount == was.rowCount && now.region == was.region && now.change == was.change
    case SchemaChange(c, k, t) =>
      && now.kind == 5 && now.change == c && now.fields == was.fields.(keyspace := k, table := t)
      && now.rowCount == was.rowCount && now.region == was.region && now.prepared == was.prepared
  }

  lemma MetadataShown(f: Fields, m: M.Metadata)
    ensures ShowsMetadata(f, WithMetadata(f, m), m)
  {
  }

  /** An object that consumed the printed form of a result shows that result's own fields. */
  lemma PrintedIsShown(was: Object, r: Result)
    requires ResultFits(r)
    ensures GetResult(EncResult(r)).Some? && Shows(was, Holding(was, GetResult(EncResult(r)).value), r)
  {
    ResultRoundTripIff(r);
    match r
    case Rows(m, _, _) => MetadataShown(was.fields, m);
    case Prepared(_, m) => MetadataShown(was.fields, m);
    case _ =>
  }

  class BodyResult {
    var kind: int
    var morePages: bool
    var noMetadata: bool
    var globalTableSpec: bool
    var columnCount: int
    var columnMetadata: seq<Option<M.Column>>
    var columnIndex: map<Bytes, nat>
    var pageState: Bytes
    var prepared: Bytes
    var change: Bytes
    var keyspace: Bytes
    var table: Bytes
    var rowCount: int
    var body: Bytes
    var rows: nat

    constructor ()
      ensures Value() == Object(0, NEW_FIELDS, 0, [], [], [])
    {
      kind, morePages, noMetadata, globalTableSpec, columnCount := 0, false, false, true, 0;
      columnMetadata, columnIndex := [], map[];
      pageState, prepared, change, keyspace, table, rowCount, rows := [], [], [], [], [], 0, 0;
      body := [];
    }

    function FieldsNow(): Fields
      reads this
    {
      Fields(columnCount, morePages, pageState, globalTableSpec, keyspace, table, noMetadata,
             columnMetadata, columnIndex)
    }

    function Value(): Object
      reads this
    {
      Object(kind, FieldsNow(), rowCount, if rows <= |body| then body[rows..] else [], prepared, change)
    }

    /** `parse_metadata`: None when it leaves the body or throws, else the position after the metadata. */
    method ParseMetadata(input: Bytes, pos: nat) returns (next: Option<nat>)
      modifies this`columnCount, this`morePages, this`pageState, this`globalTableSpec, this`keyspace, this`table,
               this`noMetadata, this`columnMetadata, this`columnIndex
      ensures var r := M.MetadataDecoder()(input, pos);
              Ends(next, r) && (next.Some? ==> FieldsNow() == WithMetadata(old(FieldsNow()), r.value.value))
    {
      var flags := GetInt(input, pos);
      MetadataSteps(input, pos);
      if flags.None? { return None; }
      var count := GetInt(input, flags.value.next);
      if count.None? { return None; }
      columnCount := count.value.value;
      next := ParseRest(input, count.value.next, flags.value.value);
    }

    /** The part of `parse_metadata` that depends on the flags. */
    method ParseRest(input: Bytes, pos: nat, flags: int) returns (next: Option<nat>)
      modifies this`morePages, this`pageState, this`globalTableSpec, this`keyspace, this`table,
               this`noMetadata, this`columnMetadata, this`columnIndex
      ensures var r := M.RestDecoder((flags, columnCount))(input, pos);
              Ends(next, r) && (next.Some? ==> FieldsNow() == WithRest(old(FieldsNow()), r.value.value))
    {
      RestSteps((flags, columnCount), input, pos);
      next := ParsePaging(input, pos, flags);
      if next.None? { return; }
      next := ParseTable(input, next.value, flags);
      if next.None? { return; }
      next := ParseColumns(input, next.value, flags);
    }

    method ParsePaging(input: Bytes, pos: nat, flags: int) returns (next: Option<nat>)
      modifies this`morePages, this`pageState
      ensures var r := M.PagingDecoder(flags)(input, pos);
              Ends(next, r) && (next.Some? ==> FieldsNow() == WithPaging(old(FieldsNow()), r.value.value))
    {
      morePages := Has(flags, M.FLAG_HAS_MORE_PAGES);
      if !morePages { return Some(pos); }
      var s := GetLongString(input, pos);
      if s.None? { return None; }
      pageState := s.value.value;
      return Some(s.value.next);
    }

    method ParseTable(input: Bytes, pos: nat, flags: int) returns (next: Option<nat>)
      modifies this`globalTableSpec, this`keyspace, this`table
      ensures var r := M.GlobalTableDecoder(flags)(input, pos);
              Ends(next, r) && (next.Some? ==> FieldsNow() == WithTable(old(FieldsNow()), r.value.value))
      ensures globalTableSpec == Has(flags, M.FLAG_GLOBAL_TABLESPEC)
    {
      globalTableSpec := Has(flags, M.FLAG_GLOBAL_TABLESPEC);
      if !globalTableSpec { return Some(pos); }
      var ks := GetString(input, pos);
      if ks.None? { return None; }
      var t := GetString(input, ks.value.next);
      if t.None? { return None; }
      keyspace, table := ks.value.value, t.value.value;
      return Some(t.value.next);
    }

    method ParseColumns(input: Bytes, pos: nat, flags: int) returns (next: Option<nat>)
      requires globalTableSpec == Has(flags, M.FLAG_GLOBAL_TABLESPEC)
      modifies this`noMetadata, this`columnMetadata, this`columnIndex
      ensures var r := M.AllColumnsDecoder(flags, columnCount)(input, pos);
              Ends(next, r) && (next.Some? ==> FieldsNow() == WithColumns(old(FieldsNow()), r.value.value))
    {
      noMetadata := Has(flags, M.FLAG_NO_METADATA);
      if noMetadata { return Some(pos); }
      if columnCount < 0 { return None; }
      columnMetadata := Resized(columnMetadata, columnCount);
      next := PushColumns(input, pos);
    }

    /** The loop over the columns. */
    method PushColumns(input: Bytes, pos: nat) returns (next: Option<nat>)
      requires columnCount >= 0
      modifies this`columnMetadata, this`columnIndex
      ensures var r := GetMany(M.ColumnDecoder(globalTableSpec), input, pos, columnCount);
              && Ends(next, r)
              && (next.Some? ==> columnMetadata == old(columnMetadata) + M.Described(r.value.value)
                                 && columnIndex == Indexed(old(columnIndex), r.value.value))
    {
      var buffer := pos;
      ghost var get, n: nat, done: seq<M.Column> := M.ColumnDecoder(globalTableSpec), columnCount, [];
      RemainingStart(get, input, pos, n);
      for i := 0 to columnCount
        invariant |done| == i && Remaining(get, input, pos, n, done, buffer)
        invariant columnMetadata == old(columnMetadata) + M.Described(done)
        invariant columnIndex == Indexed(old(columnIndex), done)
      {
        var meta := ParseColumn(input, buffer);
        if meta.None? { return None; }
        RemainingStep(get, input, pos, n, done, buffer, meta.value);
        PushColumn(meta.value.value, i, old(columnMetadata), old(columnIndex), done);
        buffer := meta.value.next;
        done := done + [meta.value.value];
      }
      RemainingEnd(get, input, pos, n, done, buffer);
      return Some(buffer);
    }

    /** The body of the loop up to the insertions. */
    method ParseColumn(input: Bytes, pos: nat) returns (r: Option<Got<M.Column>>)
      ensures r == M.ColumnDecoder(globalTableSpec)(input, pos)
    {
      M.ColumnSteps(globalTableSpec, input, pos);
      var buffer := pos;
      var spec: Option<M.TableSpec> := None;
      if !globalTableSpec {
        var ks := GetString(input, buffer);
        if ks.None? { return None; }
        var t := GetString(input, ks.value.next);
        if t.None? { return None; }
        spec := Some((ks.value.value, t.value.value));
        buffer := t.value.next;
      }
      var name := GetString(input, buffer);
      if name.None? { return None; }
      var option := DecodeOption(input, name.value.next);
      if option.None? { return None; }
      buffer := option.value.next;
      var primary, secondary: Option<TypeOption> := None, None;
      if M.IsCollection(option.value.value.id) {
        var o := DecodeOption(input, buffer);
        if o.None? { return None; }
        primary := Some(o.value.value);
        buffer := o.value.next;
      }
      if option.value.value.id == TYPE_MAP {
        var o := DecodeOption(input, buffer);
        if o.None? { return None; }
        secondary := Some(o.value.value);
        buffer := o.value.next;
      }
      return Some(Got(M.Column(spec, name.value.value, option.value.value, primary, secondary), buffer));
    }

    /** One column joins the vector and, unless its name is there already, the index. */
    method PushColumn(meta: M.Column, i: nat, ghost v: seq<Option<M.Column>>, ghost x: map<Bytes, nat>,
                      ghost done: seq<M.Column>)
      requires |done| == i && columnMetadata == v + M.Described(done) && columnIndex == Indexed(x, done)
      modifies this`columnMetadata, this`columnIndex
      ensures columnMetadata == v + M.Described(done + [meta]) && columnIndex == Indexed(x, done + [meta])
    {
      IndexedSnoc(x, done, meta);
      assert M.Described(done + [meta]) == M.Described(done) + [Some(meta)];
      columnMetadata := columnMetadata + [Some(meta)];
      if meta.name !in columnIndex {
        columnIndex := columnIndex[meta.name := i];
      }
    }

    method Consume(input: Bytes) returns (inside: bool)
      modifies this
      ensures Parsed(GetResult(input), inside, old(Value()))
      ensures forall r | ResultFits(r) && input == EncResult(r) :: inside && Shows(old(Value()), Value(), r)
    {
      ghost var was := Value();
      forall r | ResultFits(r) && input == EncResult(r)
        ensures GetResult(input).Some? && Shows(was, Holding(was, GetResult(input).value), r)
      {
        PrintedIsShown(was, r);
      }
      var k := GetInt(input, 0);
      if k.None? { return false; }
      kind := k.value.value;
      inside := ParseContent(input, k.value.next);
    }

    /** The switch over the kinds. */
    method ParseContent(input: Bytes, pos: nat) returns (inside: bool)
      modifies this
      ensures Parsed(GetContent(input, pos, old(kind)), inside, old(Value()))
    {
      match kind
      case 1 => inside := true;
      case 2 => inside := ParseRows(input, pos);
      case 3 => inside := ParseSetKeyspace(input, pos);
      case 4 => inside := ParsePrepared(input, pos);
      case 5 => inside := ParseSchemaChange(input, pos);
      case _ => inside := false;
    }

    /** The parser stayed inside just when the decoder does, and the object holds what the decoder gives. */
    predicate Parsed(r: Option<Result>, inside: bool, was: Object)
      reads this
    {
      inside == r.Some? && (inside ==> Value() == Holding(was, r.value))
    }

    method ParseRows(input: Bytes, pos: nat) returns (inside: bool)
      requires kind == KIND_ROWS
      modifies this
      ensures Parsed(GetRows(input, pos), inside, old(Value()))
    {
      inside := false;
      var next := ParseMetadata(input, pos);
      if next.Some? {
        inside := ParseRowCount(input, next.value);
      }
    }

    method ParseRowCount(input: Bytes, pos: nat) returns (inside: bool)
      modifies this`rowCount, this`rows, this`body
      ensures var n := GetInt(input, pos);
              && inside == n.Some?
              && (inside ==> Value() == old(Value()).(rowCount := n.value.value, region := input[n.value.next..]))
    {
      var n := GetInt(input, pos);
      if n.None? { return false; }
      rowCount, rows, body := n.value.value, n.value.next, input;
      return true;
    }

    method ParsePrepared(input: Bytes, pos: nat) returns (inside: bool)
      requires kind == KIND_PREPARED
      modifies this
      ensures Parsed(GetPrepared(input, pos), inside, old(Value()))
    {
      inside := false;
      var id := ParseId(input, pos);
      if id.Some? {
        var next := ParseMetadata(input, id.value);
        inside := next.Some?;
      }
    }

    method ParseId(input: Bytes, pos: nat) returns (next: Option<nat>)
      modifies this`prepared
      ensures var id := GetString(input, pos);
              Ends(next, id) && (next.Some? ==> Value() == old(Value()).(prepared := id.value.value))
    {
      var id := GetString(input, pos);
      if id.None? { return None; }
      prepared := id.value.value;
      return Some(id.value.next);
    }

    method ParseSetKeyspace(input: Bytes, pos: nat) returns (inside: bool)
      requires kind == KIND_SET_KEYSPACE
      modifies this`keyspace
      ensures Parsed(GetSetKeyspace(input, pos), inside, old(Value()))
    {
      var k := GetString(input, pos);
      if k.None? { return false; }
      keyspace := k.value.value;
      return true;
    }

    method ParseSchemaChange(input: Bytes, pos: nat) returns (inside: bool)
      requires kind == KIND_SCHEMA_CHANGE
      modifies this`change, this`keyspace, this`table
      ensures Parsed(GetSchemaChange(input, pos), inside, old(Value()))
    {
      var c := GetString(input, pos);
      if c.None? { return false; }
      change := c.value.value;
      var k := GetString(input, c.value.next);
      if k.None? { return false; }
      keyspace := k.value.value;
      var t := GetString(input, k.value.next);
      if t.None? { return false; }
      table := t.value.value;
      return true;
    }
  }

  /** A parser stops where the decoder stops. */
  predicate Ends<T>(next: Option<nat>, r: Option<Got<T>>) {
    next == if r.None? then None else Some(r.value.next)
  }

  lemma MetadataSteps(b: Bytes, pos: nat)
    ensures var flags := GetInt(b, pos);
            var count := if flags.None? then None else GetInt(b, flags.value.next);
            var rest := if count.None? then None
                        else M.RestDecoder((flags.value.value, count.value.value))(b, count.value.next);
            M.MetadataDecoder()(b, pos)
              == if rest.None? then None
                 else Some(Got(M.MetadataFrom(((flags.value.value, count.value.value), rest.value.value)),
                               rest.value.next))
  {
  }

  lemma RestSteps(h: M.Head, b: Bytes, pos: nat)
    ensures var p := M.PagingDecoder(h.0)(b, pos);
            var t := if p.None? then None else M.GlobalTableDecoder(h.0)(b, p.value.next);
            var c := if t.None? then None else M.AllColumnsDecoder(h.0, h.1)(b, t.value.next);
            M.RestDecoder(h)(b, pos)
              == if c.None? then None else Some(Got((p.value.value, (t.value.value, c.value.value)), c.value.next))
  {
  }
}
