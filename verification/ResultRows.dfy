/** `ResultIterator`: walking over the rows region of a RESULT body cell by cell. */
module ResultRows {
  import opened Prelude
  import opened Bytes
  import opened Protocol
  import opened Codecs
  import opened Serialization
  import M = ResultMetadata
  import R = ResultBody

  /** The pointer and the size handed out for a column; a null cell has a negative size. */
  datatype Cell = Cell(at: int, size: int)

  /** As written the cursor moves by the size even when it is negative; no bytes follow such a size. */
  datatype NullRule = MoveBySize | StayOnNull

  function Skip(rule: NullRule, size: int): int {
    if size < 0 && rule == StayOnNull then 0 else size
  }

  /** The length prefix at each position. */
  type Lengths = int -> int

  function LengthsIn(b: Bytes): Lengths {
    (pos: int) => if 0 <= pos && pos + 4 <= |b| then Int32(U32(b, pos)) else 0
  }

  /** The loop of `parse_row`, n cells from pos; None when a length is read outside the body. */
  function Walk(rule: NullRule, len: Lengths, limit: int, pos: int, n: nat): (r: Option<(seq<Cell>, int)>)
    ensures r.Some? ==> |r.value.0| == n
    decreases n
  {
    if n == 0 then Some(([], pos))
    else if pos < 0 || pos + 4 > limit then None
    else
      var rest := Walk(rule, len, limit, pos + 4 + Skip(rule, len(pos)), n - 1);
      if rest.None? then None else Some(([Cell(pos + 4, len(pos))] + rest.value.0, rest.value.1))
  }

  function ReadCells(rule: NullRule, b: Bytes, pos: int, n: nat): Option<(seq<Cell>, int)> {
    Walk(rule, LengthsIn(b), |b|, pos, n)
  }

  /** The iterator: rows passed, the position after the current row, and the current row. */
  datatype Iter = Iter(rowPosition: int, positionNext: int, row: seq<Cell>)

  /** The constructor parses a row whatever the row count; a negative column count is no vector size. */
  function Start(rule: NullRule, b: Bytes, pos: int, cols: int): Option<Iter> {
    if cols < 0 then None else
    var r := ReadCells(rule, b, pos, cols);
    if r.None? then None else Some(Iter(0, r.value.1, r.value.0))
  }

  datatype Advance = End(iter: Iter) | Row(iter: Iter) | Outside

  function Next(rule: NullRule, b: Bytes, cols: nat, rowCount: int, it: Iter): Advance {
    if it.rowPosition + 1 >= rowCount then End(it.(rowPosition := it.rowPosition + 1)) else
    var r := ReadCells(rule, b, it.positionNext, cols);
    if r.None? then Outside else Row(Iter(it.rowPosition + 1, r.value.1, r.value.0))
  }

  /** The current row and those `next` leads to until it returns false. */
  function Visited(rule: NullRule, b: Bytes, cols: nat, rowCount: int, it: Iter): Option<seq<seq<Cell>>>
    decreases rowCount - it.rowPosition
  {
    match Next(rule, b, cols, rowCount, it)
    case End(_) => Some([it.row])
    case Outside => None
    case Row(next) =>
      var more := Visited(rule, b, cols, rowCount, next);
      if more.None? then None else Some([it.row] + more.value)
  }

  function AllRows(rule: NullRule, b: Bytes, pos: int, cols: nat, rowCount: int): Option<seq<seq<Cell>>> {
    var it := Start(rule, b, pos, cols);
    if it.None? then None else Visited(rule, b, cols, rowCount, it.value)
  }

  // ---------------------------------------------------------------------------------------------
  // How many rows are visited
  // ---------------------------------------------------------------------------------------------

  function ReadRows(rule: NullRule, b: Bytes, pos: int, cols: nat, k: nat): (r: Option<(seq<seq<Cell>>, int)>)
    ensures r.Some? ==> |r.value.0| == k && forall i | 0 <= i < k :: |r.value.0[i]| == cols
    decreases k
  {
    if k == 0 then Some(([], pos)) else
    var first := ReadCells(rule, b, pos, cols);
    if first.None? then None else
    var rest := ReadRows(rule, b, first.value.1, cols, k - 1);
    if rest.None? then None else Some(([first.value.0] + rest.value.0, rest.value.1))
  }

  function Rows(r: Option<(seq<seq<Cell>>, int)>): Option<seq<seq<Cell>>> {
    if r.None? then None else Some(r.value.0)
  }

  lemma {:induction false} VisitedIsRead(rule: NullRule, b: Bytes, cols: nat, rowCount: int, it: Iter)
    ensures var left := rowCount - it.rowPosition - 1;
            var rest := Rows(ReadRows(rule, b, it.positionNext, cols, if left < 0 then 0 else left));
            Visited(rule, b, cols, rowCount, it) == if rest.None? then None else Some([it.row] + rest.value)
    decreases rowCount - it.rowPosition
  {
    var next := Next(rule, b, cols, rowCount, it);
    if next.Row? {
      VisitedIsRead(rule, b, cols, rowCount, next.iter);
    } else {
      assert [it.row] + [] == [it.row];
    }
  }

  /**
   Constructing the iterator and calling `next` until it returns false visits the rows read one after
   another: `row_count` rows of `column_count` cells each, but one row when there are none.
   */
  lemma RowsVisited(rule: NullRule, b: Bytes, pos: int, cols: nat, rowCount: int)
    ensures AllRows(rule, b, pos, cols, rowCount)
         == Rows(ReadRows(rule, b, pos, cols, if rowCount < 1 then 1 else rowCount))
  {
    var it := Start(rule, b, pos, cols);
    if it.Some? { VisitedIsRead(rule, b, cols, rowCount, it.value); }
  }

  /** For a result without rows, the row parsed anyway stays inside the body only without columns. */
  lemma NoRowsOverreads(rule: NullRule, b: Bytes, cols: nat)
    ensures Start(rule, b, |b|, cols).Some? <==> cols == 0
    ensures cols == 0 ==> AllRows(rule, b, |b|, cols, 0) == Some([[]])
  {
  }

  // ---------------------------------------------------------------------------------------------
  // Reading back a list of cells
  // ---------------------------------------------------------------------------------------------

  /** The content of a cell, null or bytes. */
  type Value = Option<Bytes>

  /** A [bytes]: null is a negative length with nothing behind it. */
  function EncCell(v: Value): Bytes {
    if v.None? then EncInt(-1) else EncLongString(v.value)
  }

  function Width(v: Value): nat {
    if v.None? then 0 else |v.value|
  }

  predicate CellFits(v: Value) {
    Width(v) < 0x8000_0000
  }

  /** The cell handed out shows the value. */
  predicate Shows(b: Bytes, c: Cell, v: Value) {
    match v
    case None => c.size < 0
    case Some(x) => c.size == |x| && 0 <= c.at && c.at + c.size <= |b| && b[c.at..c.at + c.size] == x
  }

  predicate ShowAll(b: Bytes, cs: seq<Cell>, vs: seq<Value>) {
    |cs| == |vs| && forall i | 0 <= i < |cs| :: Shows(b, cs[i], vs[i])
  }

  /** The length prefixes and the cells fill the region from pos to end without gap or overlap. */
  predicate Tiles(cs: seq<Cell>, pos: int, end: int) {
    if cs == [] then pos == end
    else cs[0].at == pos + 4 && Tiles(cs[1..], cs[0].at + Skip(StayOnNull, cs[0].size), end)
  }

  function Size(v: Value): int {
    if v.None? then -1 else |v.value|
  }

  /** Bytes lo to hi are all ones, as in the length of a null. */
  predicate Ones(b: Bytes, lo: int, hi: int) {
    0 <= lo <= hi <= |b| && forall i | lo <= i < hi :: b[i] == 0xFF
  }

  /** What a printer of cells must satisfy: wherever a cell stands, its length is read and its bytes shown. */
  ghost predicate Prints(enc: Encoder<Value>, len: Lengths, b: Bytes, v: Value) {
    forall p: nat {:trigger At(b, p, enc(v))} | At(b, p, enc(v)) ::
      && |enc(v)| == 4 + Width(v) && p + 4 + Width(v) <= |b|
      && len(p) == Size(v) && Shows(b, Cell(p + 4, Size(v)), v)
      && (v.None? ==> Ones(b, p, p + 4))
  }

  lemma CellPrints(b: Bytes, v: Value)
    requires CellFits(v)
    ensures Prints(EncCell, LengthsIn(b), b, v)
  {
    if v.Some? {
      forall p: nat | At(b, p, EncLongString(v.value))
        ensures p + 4 + |v.value| <= |b|
        ensures LengthsIn(b)(p) == |v.value| && Shows(b, Cell(p + 4, |v.value|), v)
      {
        DataAt(b, p, v.value);
      }
    } else {
      forall p: nat | At(b, p, EncInt(-1)) ensures LengthsIn(b)(p) == -1 && Ones(b, p, p + 4) {
        IntAt(b, p, -1);
        NullIsOnes(b, p);
      }
    }
  }

  lemma DataAt(b: Bytes, p: nat, x: Bytes)
    requires At(b, p, EncLongString(x)) && |x| < 0x8000_0000
    ensures p + 4 + |x| <= |b| && LengthsIn(b)(p) == |x| && Shows(b, Cell(p + 4, |x|), Some(x))
  {
    AtConcat(b, p, EncInt(|x|), x);
    IntAt(b, p, |x|);
  }

  lemma NullIsOnes(b: Bytes, pos: nat)
    requires At(b, pos, EncInt(-1))
    ensures Ones(b, pos, pos + 4)
  {
    assert EncInt(-1) == [0xFF, 0xFF, 0xFF, 0xFF];
    forall i | pos <= i < pos + 4 ensures b[i] == 0xFF {
      assert b[i] == b[pos..pos + 4][i - pos];
    }
  }

  lemma AllPrint(b: Bytes, vs: seq<Value>)
    requires forall v | v in vs :: CellFits(v)
    ensures forall v | v in vs :: Prints(EncCell, LengthsIn(b), b, v)
  {
    forall v | v in vs ensures Prints(EncCell, LengthsIn(b), b, v) {
      CellPrints(b, v);
    }
  }

  lemma ShowMore(b: Bytes, c: Cell, cs: seq<Cell>, vs: seq<Value>)
    requires vs != []
    ensures ShowAll(b, [c] + cs, vs) <==> Shows(b, c, vs[0]) && ShowAll(b, cs, vs[1..])
  {
    if ShowAll(b, [c] + cs, vs) {
      assert ([c] + cs)[0] == c;
      forall i | 0 <= i < |cs| ensures Shows(b, cs[i], vs[1..][i]) {
        assert ([c] + cs)[i + 1] == cs[i] && vs[1..][i] == vs[i + 1];
      }
    }
  }

  /** Cell by cell, the cursor finds a length inside the body and the cell shows the value. */
  predicate ReadsBack(rule: NullRule, len: Lengths, b: Bytes, pos: int, vs: seq<Value>)
    decreases |vs|
  {
    vs == [] ||
    (0 <= pos && pos + 4 <= |b| && Shows(b, Cell(pos + 4, len(pos)), vs[0])
     && ReadsBack(rule, len, b, pos + 4 + Skip(rule, len(pos)), vs[1..]))
  }

  lemma {:induction false} ReadsBackIsShown(rule: NullRule, len: Lengths, b: Bytes, pos: int, vs: seq<Value>)
    ensures var r := Walk(rule, len, |b|, pos, |vs|);
            ReadsBack(rule, len, b, pos, vs) <==> r.Some? && ShowAll(b, r.value.0, vs)
    decreases |vs|
  {
    if vs != [] && 0 <= pos && pos + 4 <= |b| {
      var next := pos + 4 + Skip(rule, len(pos));
      ReadsBackIsShown(rule, len, b, next, vs[1..]);
      var r := Walk(rule, len, |b|, next, |vs| - 1);
      if r.Some? { ShowMore(b, Cell(pos + 4, len(pos)), r.value.0, vs); }
    }
  }

  /** When the cursor stays on nulls, every cell shows its value. */
  lemma {:induction false} StayReadsBack(enc: Encoder<Value>, len: Lengths, b: Bytes, pos: nat, vs: seq<Value>)
    requires At(b, pos, EncMany(enc, vs)) && forall v | v in vs :: Prints(enc, len, b, v)
    ensures ReadsBack(StayOnNull, len, b, pos, vs)
    decreases |vs|
  {
    if vs != [] {
      AtConcat(b, pos, enc(vs[0]), EncMany(enc, vs[1..]));
      assert Prints(enc, len, b, vs[0]);
      StayReadsBack(enc, len, b, pos + |enc(vs[0])|, vs[1..]);
    }
  }

  /** Where the cells of the printed values are. */
  function CellsAt(pos: int, vs: seq<Value>): (r: seq<Cell>)
    ensures |r| == |vs|
    decreases |vs|
  {
    if vs == [] then [] else [Cell(pos + 4, Size(vs[0]))] + CellsAt(pos + 4 + Width(vs[0]), vs[1..])
  }

  /** When the cursor stays on nulls, the iterator finds exactly these cells and ends where they end. */
  lemma {:induction false} CellsFound(enc: Encoder<Value>, len: Lengths, b: Bytes, pos: nat, vs: seq<Value>)
    requires At(b, pos, EncMany(enc, vs)) && forall v | v in vs :: Prints(enc, len, b, v)
    ensures Walk(StayOnNull, len, |b|, pos, |vs|) == Some((CellsAt(pos, vs), pos + |EncMany(enc, vs)|))
    decreases |vs|
  {
    if vs != [] {
      var e, m := enc(vs[0]), EncMany(enc, vs[1..]);
      AtConcat(b, pos, e, m);
      assert Prints(enc, len, b, vs[0]);
      CellsFound(enc, len, b, pos + |e|, vs[1..]);
    }
  }

  function TotalWidth(vs: seq<Value>): nat {
    if vs == [] then 0 else 4 + Width(vs[0]) + TotalWidth(vs[1..])
  }

  /** With their length prefixes, they fill the region without gap or overlap. */
  lemma {:induction false} CellsTile(pos: int, vs: seq<Value>)
    ensures Tiles(CellsAt(pos, vs), pos, pos + TotalWidth(vs))
    decreases |vs|
  {
    if vs != [] {
      var rest := CellsAt(pos + 4 + Width(vs[0]), vs[1..]);
      CellsTile(pos + 4 + Width(vs[0]), vs[1..]);
      assert ([Cell(pos + 4, Size(vs[0]))] + rest)[1..] == rest;
    }
  }

  lemma {:induction false} TotalWidthIs(vs: seq<Value>)
    ensures |EncMany(EncCell, vs)| == TotalWidth(vs)
    decreases |vs|
  {
    if vs != [] { TotalWidthIs(vs[1..]); }
  }

  // ---------------------------------------------------------------------------------------------
  // The cursor as written
  // ---------------------------------------------------------------------------------------------

  predicate AllNull(vs: seq<Value>) {
    forall v | v in vs :: v.None?
  }

  /** No value follows a null. */
  predicate NullsLast(vs: seq<Value>) {
    forall i, j | 0 <= i < j < |vs| :: vs[i].None? ==> vs[j].None?
  }

  /** A length whose first byte is all ones is negative. */
  ghost predicate SignsRead(len: Lengths, b: Bytes) {
    forall p: nat {:trigger len(p)} | p + 4 <= |b| && b[p] == 0xFF ::
      len(p) < 0 && (Ones(b, p, p + 4) ==> len(p) == -1)
  }

  lemma SignsAreRead(b: Bytes)
    ensures SignsRead(LengthsIn(b), b)
  {
  }

  /**
   Once the cursor lags k bytes behind, every length it reads begins with the end of a null's, so
   everything that remains is read as null.
   */
  lemma {:induction false} Lagging(enc: Encoder<Value>, len: Lengths, b: Bytes, pos: nat, k: nat, vs: seq<Value>)
    requires k > 0 && Ones(b, pos, pos + k) && SignsRead(len, b)
    requires At(b, pos + k, EncMany(enc, vs)) && forall v | v in vs :: Prints(enc, len, b, v)
    ensures ReadsBack(MoveBySize, len, b, pos, vs) <==> AllNull(vs)
    decreases |vs|
  {
    if vs != [] {
      var v, rest := vs[0], vs[1..];
      AtConcat(b, pos + k, enc(v), EncMany(enc, rest));
      assert Prints(enc, len, b, v);
      AllNullRest(vs);
      if v.None? {
        LagGrows(b, pos, k);
        assert len(pos) == -1;
        Lagging(enc, len, b, pos + 3, k + 1, rest);
      } else {
        assert b[pos] == 0xFF && len(pos) < 0;
      }
    }
  }

  /** Behind the tail of one null's length stands the length of another. */
  lemma LagGrows(b: Bytes, pos: nat, k: nat)
    requires k > 0 && Ones(b, pos, pos + k) && Ones(b, pos + k, pos + k + 4)
    ensures Ones(b, pos, pos + 4) && Ones(b, pos + 3, pos + 3 + (k + 1))
  {
  }

  lemma AllNullRest(vs: seq<Value>)
    requires vs != []
    ensures AllNull(vs) <==> vs[0].None? && AllNull(vs[1..])
  {
    assert vs == [vs[0]] + vs[1..];
  }

  /** As written, the cells show the values exactly when no value follows a null. */
  lemma {:induction false} AsWrittenIff(enc: Encoder<Value>, len: Lengths, b: Bytes, pos: nat, vs: seq<Value>)
    requires At(b, pos, EncMany(enc, vs)) && forall v | v in vs :: Prints(enc, len, b, v)
    requires SignsRead(len, b)
    ensures ReadsBack(MoveBySize, len, b, pos, vs) <==> NullsLast(vs)
    decreases |vs|
  {
    if vs != [] {
      var v, rest := vs[0], vs[1..];
      AtConcat(b, pos, enc(v), EncMany(enc, rest));
      assert Prints(enc, len, b, v);
      NullsLastRest(vs);
      if v.None? {
        Lagging(enc, len, b, pos + 3, 1, rest);
      } else {
        AsWrittenIff(enc, len, b, pos + |enc(v)|, rest);
      }
    }
  }

  lemma NullsLastRest(vs: seq<Value>)
    requires vs != []
    ensures NullsLast(vs) <==> if vs[0].None? then AllNull(vs[1..]) else NullsLast(vs[1..])
  {
    var rest := vs[1..];
    assert forall i | 0 <= i < |rest| :: rest[i] == vs[i + 1];
    if NullsLast(vs) && vs[0].None? {
      forall v | v in rest ensures v.None? {
        var i :| 0 <= i < |rest| && rest[i] == v;
        assert vs[i + 1].None?;
      }
    }
    if vs[0].None? && AllNull(rest) {
      forall j | 0 < j < |vs| ensures vs[j].None? {
        assert vs[j] == rest[j - 1];
      }
    }
    if vs[0].Some? && NullsLast(rest) {
      forall i, j | 0 <= i < j < |vs| && vs[i].None? ensures vs[j].None? {
        assert vs[i] == rest[i - 1] && vs[j] == rest[j - 1];
      }
    }
  }

  /** No null but possibly the very last cell. */
  predicate NullOnlyAtEnd(vs: seq<Value>) {
    forall i | 0 <= i < |vs| - 1 :: vs[i].Some?
  }

  /** As written, the cells are where they were printed exactly when only the very last one may be null. */
  lemma {:induction false} AsWrittenPlacesIff(enc: Encoder<Value>, len: Lengths, b: Bytes, pos: nat, vs: seq<Value>)
    requires At(b, pos, EncMany(enc, vs)) && forall v | v in vs :: Prints(enc, len, b, v)
    ensures Cells(Walk(MoveBySize, len, |b|, pos, |vs|)) == Some(CellsAt(pos, vs)) <==> NullOnlyAtEnd(vs)
    decreases |vs|
  {
    if vs != [] {
      var v, rest := vs[0], vs[1..];
      AtConcat(b, pos, enc(v), EncMany(enc, rest));
      assert Prints(enc, len, b, v);
      PlacesRest(len, |b|, pos, v, rest);
      NullOnlyAtEndRest(vs);
      if v.Some? {
        AsWrittenPlacesIff(enc, len, b, pos + |enc(v)|, rest);
      } else if rest != [] {
        assert CellsAt(pos + 4, rest)[0].at == pos + 8;
      }
    }
  }

  lemma PlacesRest(len: Lengths, limit: int, pos: nat, v: Value, rest: seq<Value>)
    requires pos + 4 <= limit && len(pos) == Size(v)
    ensures var found := CellsAt(pos + 4 + Width(v), rest);
            Cells(Walk(MoveBySize, len, limit, pos, 1 + |rest|)) == Some([Cell(pos + 4, Size(v))] + found) <==>
            Cells(Walk(MoveBySize, len, limit, pos + 4 + Size(v), |rest|)) == Some(found)
  {
    var r := Cells(Walk(MoveBySize, len, limit, pos + 4 + Size(v), |rest|));
    if r.Some? { SameTail(Cell(pos + 4, Size(v)), r.value, CellsAt(pos + 4 + Width(v), rest)); }
  }

  lemma NullOnlyAtEndRest(vs: seq<Value>)
    requires vs != []
    ensures NullOnlyAtEnd(vs) <==> |vs| == 1 || (vs[0].Some? && NullOnlyAtEnd(vs[1..]))
  {
    assert forall i | 0 <= i < |vs| - 1 :: vs[1..][i] == vs[i + 1];
  }

  function Cells(r: Option<(seq<Cell>, int)>): Option<seq<Cell>> {
    if r.None? then None else Some(r.value.0)
  }

  lemma SameTail(c: Cell, xs: seq<Cell>, ys: seq<Cell>)
    ensures [c] + xs == [c] + ys <==> xs == ys
  {
    if [c] + xs == [c] + ys {
      assert xs == ([c] + xs)[1..] && ys == ([c] + ys)[1..];
    }
  }

  // ---------------------------------------------------------------------------------------------
  // The whole matrix
  // ---------------------------------------------------------------------------------------------

  type Matrix = seq<seq<Value>>

  function Flat<T>(rows: seq<seq<T>>): seq<T> {
    if rows == [] then [] else rows[0] + Flat(rows[1..])
  }

  function EncRow(row: seq<Value>): Bytes {
    EncMany(EncCell, row)
  }

  /** Every row has this many cells. */
  predicate Shape<T>(rows: seq<seq<T>>, cols: nat) {
    forall i | 0 <= i < |rows| :: |rows[i]| == cols
  }

  predicate RowsShow(b: Bytes, rows: seq<seq<Cell>>, m: Matrix) {
    |rows| == |m| && forall i | 0 <= i < |m| :: ShowAll(b, rows[i], m[i])
  }

  lemma {:induction false} EncManyConcat<T>(enc: Encoder<T>, xs: seq<T>, ys: seq<T>)
    ensures EncMany(enc, xs + ys) == EncMany(enc, xs) + EncMany(enc, ys)
    decreases |xs|
  {
    if xs == [] {
      assert xs + ys == ys;
    } else {
      EncManyConcat(enc, xs[1..], ys);
      assert (xs + ys)[1..] == xs[1..] + ys;
    }
  }

  lemma {:induction false} EncMatrixIsFlat(m: Matrix)
    ensures EncMany(EncRow, m) == EncMany(EncCell, Flat(m))
    decreases |m|
  {
    if m != [] {
      EncMatrixIsFlat(m[1..]);
      EncManyConcat(EncCell, m[0], Flat(m[1..]));
    }
  }

  /** Reading n and then k cells is reading n + k cells. */
  lemma {:induction false} WalkOn(rule: NullRule, len: Lengths, limit: int, pos: int, n: nat, k: nat)
    ensures var first := Walk(rule, len, limit, pos, n);
            var rest := if first.None? then None else Walk(rule, len, limit, first.value.1, k);
            Walk(rule, len, limit, pos, n + k)
              == if rest.None? then None else Some((first.value.0 + rest.value.0, rest.value.1))
    decreases n
  {
    if n == 0 {
      var r := Walk(rule, len, limit, pos, k);
      if r.Some? { assert [] + r.value.0 == r.value.0; }
    } else if 0 <= pos && pos + 4 <= limit {
      var next := pos + 4 + Skip(rule, len(pos));
      WalkOn(rule, len, limit, next, n - 1, k);
      var first := Walk(rule, len, limit, next, n - 1);
      if first.Some? {
        var rest := Walk(rule, len, limit, first.value.1, k);
        if rest.Some? { ConsConcat(Cell(pos + 4, len(pos)), first.value.0, rest.value.0); }
      }
    }
  }

  lemma ConsConcat<T>(x: T, xs: seq<T>, ys: seq<T>)
    ensures [x] + (xs + ys) == [x] + xs + ys
  {
  }

  function Total(cols: nat, k: nat): nat {
    if k == 0 then 0 else cols + Total(cols, k - 1)
  }

  /** Reading k rows is reading all their cells. */
  lemma {:induction false} RowsAreCells(rule: NullRule, b: Bytes, pos: int, cols: nat, k: nat)
    ensures var rows := ReadRows(rule, b, pos, cols, k);
            ReadCells(rule, b, pos, Total(cols, k))
              == if rows.None? then None else Some((Flat(rows.value.0), rows.value.1))
    decreases k
  {
    if k > 0 {
      WalkOn(rule, LengthsIn(b), |b|, pos, cols, Total(cols, k - 1));
      var first := ReadCells(rule, b, pos, cols);
      if first.Some? {
        RowsAreCells(rule, b, first.value.1, cols, k - 1);
        var rest := ReadRows(rule, b, first.value.1, cols, k - 1);
        if rest.Some? { assert ([first.value.0] + rest.value.0)[1..] == rest.value.0; }
      }
    }
  }

  lemma {:induction false} FlatSize<T>(rows: seq<seq<T>>, cols: nat)
    requires Shape(rows, cols)
    ensures |Flat(rows)| == Total(cols, |rows|)
    decreases |rows|
  {
    if rows != [] { FlatSize(rows[1..], cols); }
  }

  lemma ShowConcat(b: Bytes, cs: seq<Cell>, ds: seq<Cell>, vs: seq<Value>, ws: seq<Value>)
    requires |cs| == |vs|
    ensures ShowAll(b, cs + ds, vs + ws) <==> ShowAll(b, cs, vs) && ShowAll(b, ds, ws)
  {
    if ShowAll(b, cs + ds, vs + ws) {
      forall i | 0 <= i < |cs| ensures Shows(b, cs[i], vs[i]) {
        assert (cs + ds)[i] == cs[i] && (vs + ws)[i] == vs[i];
      }
      forall i | 0 <= i < |ds| ensures Shows(b, ds[i], ws[i]) {
        assert (cs + ds)[|cs| + i] == ds[i] && (vs + ws)[|cs| + i] == ws[i];
      }
    }
  }

  lemma {:induction false} FlatShows(b: Bytes, rows: seq<seq<Cell>>, m: Matrix, cols: nat)
    requires |rows| == |m| && Shape(rows, cols) && Shape(m, cols)
    ensures ShowAll(b, Flat(rows), Flat(m)) <==> RowsShow(b, rows, m)
    decreases |m|
  {
    if m != [] {
      FlatShows(b, rows[1..], m[1..], cols);
      ShowConcat(b, rows[0], Flat(rows[1..]), m[0], Flat(m[1..]));
      RowsShowMore(b, rows, m);
    }
  }

  lemma RowsShowMore(b: Bytes, rows: seq<seq<Cell>>, m: Matrix)
    requires |rows| == |m| > 0
    ensures RowsShow(b, rows, m) <==> ShowAll(b, rows[0], m[0]) && RowsShow(b, rows[1..], m[1..])
  {
    if RowsShow(b, rows[1..], m[1..]) && ShowAll(b, rows[0], m[0]) {
      forall i | 0 <= i < |m| ensures ShowAll(b, rows[i], m[i]) {
        if i > 0 { assert rows[i] == rows[1..][i - 1] && m[i] == m[1..][i - 1]; }
      }
    }
    if RowsShow(b, rows, m) {
      forall i | 0 <= i < |m| - 1 ensures ShowAll(b, rows[1..][i], m[1..][i]) {
        assert rows[i + 1] == rows[1..][i] && m[i + 1] == m[1..][i];
      }
    }
  }

  /** The iterator visits the rows of the matrix in order and each of its cells shows the cell of the matrix. */
  predicate Recovers(rule: NullRule, b: Bytes, pos: nat, cols: nat, m: Matrix) {
    var rows := AllRows(rule, b, pos, cols, |m|);
    rows.Some? && RowsShow(b, rows.value, m)
  }

  lemma RecoversIsReadsBack(rule: NullRule, b: Bytes, pos: nat, cols: nat, m: Matrix)
    requires m != [] && Shape(m, cols)
    ensures Recovers(rule, b, pos, cols, m) <==> ReadsBack(rule, LengthsIn(b), b, pos, Flat(m))
  {
    RowsVisited(rule, b, pos, cols, |m|);
    RowsAreCells(rule, b, pos, cols, |m|);
    FlatSize(m, cols);
    ReadsBackIsShown(rule, LengthsIn(b), b, pos, Flat(m));
    var rows := ReadRows(rule, b, pos, cols, |m|);
    if rows.Some? { FlatShows(b, rows.value.0, m, cols); }
  }

  /**
   From the printed rows of any matrix with at least one row, nulls included, the iterator recovers
   the matrix when the cursor stays on nulls; as written it does so exactly when, in visiting order,
   no value follows a null.
   */
  lemma MatrixRecoveredIff(rule: NullRule, b: Bytes, pos: nat, cols: nat, m: Matrix)
    requires m != [] && Shape(m, cols) && forall v | v in Flat(m) :: CellFits(v)
    requires At(b, pos, EncMany(EncRow, m))
    ensures Recovers(rule, b, pos, cols, m) <==> rule == StayOnNull || NullsLast(Flat(m))
  {
    EncMatrixIsFlat(m);
    AllPrint(b, Flat(m));
    RecoversIsReadsBack(rule, b, pos, cols, m);
    if rule == StayOnNull {
      StayReadsBack(EncCell, LengthsIn(b), b, pos, Flat(m));
    } else {
      SignsAreRead(b);
      AsWrittenIff(EncCell, LengthsIn(b), b, pos, Flat(m));
    }
  }

  /** The cells of the visited rows are the printed ones, in order. */
  lemma MatrixFound(b: Bytes, pos: nat, cols: nat, m: Matrix)
    requires m != [] && Shape(m, cols) && forall v | v in Flat(m) :: CellFits(v)
    requires At(b, pos, EncMany(EncRow, m))
    ensures var rows := AllRows(StayOnNull, b, pos, cols, |m|);
            rows.Some? && Flat(rows.value) == CellsAt(pos, Flat(m))
  {
    EncMatrixIsFlat(m);
    AllPrint(b, Flat(m));
    CellsFound(EncCell, LengthsIn(b), b, pos, Flat(m));
    RowsVisited(StayOnNull, b, pos, cols, |m|);
    RowsAreCells(StayOnNull, b, pos, cols, |m|);
    FlatSize(m, cols);
  }

  /** In visiting order, the length prefixes and cell slices tile the printed rows without gap or overlap. */
  lemma MatrixTiled(b: Bytes, pos: nat, cols: nat, m: Matrix)
    requires m != [] && Shape(m, cols) && forall v | v in Flat(m) :: CellFits(v)
    requires At(b, pos, EncMany(EncRow, m))
    ensures var rows := AllRows(StayOnNull, b, pos, cols, |m|);
            rows.Some? && Tiles(Flat(rows.value), pos, pos + |EncMany(EncRow, m)|)
  {
    MatrixFound(b, pos, cols, m);
    MatrixWidth(m);
    CellsTile(pos, Flat(m));
  }

  lemma MatrixWidth(m: Matrix)
    ensures |EncMany(EncRow, m)| == TotalWidth(Flat(m))
  {
    EncMatrixIsFlat(m);
    TotalWidthIs(Flat(m));
  }

  /**
   The whole way of a ROWS result: the body a server prints from metadata and a matrix is parsed to that
   metadata and row count, and the iterator then walks from the row pointer back to the matrix, always
   when the cursor stays on nulls, and as written exactly when no value follows a null.
   */
  lemma ResultRecoveredIff(rule: NullRule, m: M.Metadata, rows: Matrix)
    requires M.MetadataFits(m) && m.columnCount >= 0 && rows != [] && |rows| < 0x8000_0000
    requires Shape(rows, m.columnCount) && forall v | v in Flat(rows) :: CellFits(v)
    ensures var r := R.Rows(m, |rows|, EncMany(EncRow, rows));
            var b := R.EncResult(r);
            && R.GetResult(b) == Some(r)
            && (Recovers(rule, b, |b| - |r.rows|, m.columnCount, rows) <==> rule == StayOnNull || NullsLast(Flat(rows)))
  {
    var region := EncMany(EncRow, rows);
    var r := R.Rows(m, |rows|, region);
    R.ResultRoundTripIff(r);
    Region(R.EncResult(r), EncInt(KIND_ROWS) + R.EncContent(r), region);
    MatrixRecoveredIff(rule, R.EncResult(r), |R.EncResult(r)| - |region|, m.columnCount, rows);
  }

  lemma Region(b: Bytes, front: Bytes, region: Bytes)
    requires b == front + region
    ensures At(b, |b| - |region|, region)
  {
  }

  /** Two columns, the first null: as written the second value is lost. */
  lemma NullFirstLosesValue()
    ensures var b := EncMany(EncRow, [[None, Some([7])]]);
            && Recovers(StayOnNull, b, 0, 2, [[None, Some([7])]])
            && !Recovers(MoveBySize, b, 0, 2, [[None, Some([7])]])
  {
    var m: Matrix := [[None, Some([7])]];
    var b := EncMany(EncRow, m);
    assert b[0..|b|] == b;
    assert m[1..] == [] && Flat(m) == m[0] + [] == m[0];
    assert Flat(m)[0].None? && Flat(m)[1].Some?;
    assert !NullsLast(Flat(m));
    MatrixRecoveredIff(StayOnNull, b, 0, 2, m);
    MatrixRecoveredIff(MoveBySize, b, 0, 2, m);
  }

  // ---------------------------------------------------------------------------------------------
  // The object
  // ---------------------------------------------------------------------------------------------

  /** Reading n cells amounts to the ones done so far and whatever reading the rest gives. */
  ghost predicate CellsLeft(b: Bytes, start: int, n: nat, done: seq<Cell>, pos: int) {
    && |done| <= n
    && var rest := ReadCells(MoveBySize, b, pos, n - |done|);
       ReadCells(MoveBySize, b, start, n)
         == if rest.None? then None else Some((done + rest.value.0, rest.value.1))
  }

  lemma CellsStart(b: Bytes, start: int, n: nat)
    ensures CellsLeft(b, start, n, [], start)
  {
    var r := ReadCells(MoveBySize, b, start, n);
    if r.Some? { assert [] + r.value.0 == r.value.0; }
  }

  lemma CellsStep(b: Bytes, start: int, n: nat, done: seq<Cell>, pos: int)
    requires CellsLeft(b, start, n, done, pos) && |done| < n && 0 <= pos && pos + 4 <= |b|
    ensures var size := Int32(U32(b, pos)); CellsLeft(b, start, n, done + [Cell(pos + 4, size)], pos + 4 + size)
  {
    var size := Int32(U32(b, pos));
    var rest := ReadCells(MoveBySize, b, pos + 4 + size, n - |done| - 1);
    if rest.Some? {
      assert done + ([Cell(pos + 4, size)] + rest.value.0) == done + [Cell(pos + 4, size)] + rest.value.0;
    }
  }

  /** `broken` records that a read left the body or the row vector could not be allocated. */
  class ResultIterator {
    const result: R.BodyResult
    var rowPosition: int
    var position: int
    var positionNext: int
    var row: seq<Cell>
    var broken: bool

    constructor (result: R.BodyResult)
      ensures this.result == result
      ensures match Start(MoveBySize, result.body, result.rows, result.columnCount)
              case None => broken
              case Some(it) => !broken && Value() == it && position == result.rows
    {
      this.result := result;
      rowPosition, position, positionNext, row := 0, result.rows, 0, [];
      broken := true;
      new;
      if result.columnCount >= 0 {
        ParseRow(position);
      }
    }

    function Value(): Iter
      reads this
    {
      Iter(rowPosition, positionNext, row)
    }

    /** `parse_row` into the row vector; the position it returns goes to `positionNext`. */
    method ParseRow(start: int)
      requires result.columnCount >= 0
      modifies this`row, this`positionNext, this`broken
      ensures match ReadCells(MoveBySize, result.body, start, result.columnCount)
              case None => broken
              case Some(r) => !broken && row == r.0 && positionNext == r.1
    {
      var buffer := start;
      row := [];
      ghost var n: nat := result.columnCount;
      CellsStart(result.body, start, n);
      for i := 0 to result.columnCount
        invariant |row| == i && CellsLeft(result.body, start, n, row, buffer)
      {
        if buffer < 0 || buffer + 4 > |result.body| {
          broken := true;
          return;
        }
        CellsStep(result.body, start, n, row, buffer);
        var size := Int32(U32(result.body, buffer));
        row := row + [Cell(buffer + 4, size)];
        buffer := buffer + 4 + size;
      }
      assert row + [] == row;
      positionNext := buffer;
      broken := false;
    }

    /** True when there is another row and it is now the current one. */
    method Advance() returns (more: bool)
      requires !broken && result.columnCount >= 0
      modifies this
      ensures match Next(MoveBySize, result.body, result.columnCount, result.rowCount, old(Value()))
              case End(it) => !more && !broken && Value() == it
              case Row(it) => more && !broken && Value() == it
              case Outside => broken
    {
      rowPosition := rowPosition + 1;
      if rowPosition >= result.rowCount { return false; }
      ParseRow(positionNext);
      return true;
    }
  }
}
