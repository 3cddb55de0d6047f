/**
 Rows bodies as section 4.2.5.2 of the CQL binary protocol v3 lays them out, with column types nested to any
 depth, written down independently of the decoder; exactly which of them the decoder reads; and the proof that
 in those every lookup reaches the cell it names.
 */
module RowsLayout {
  import opened Bytes
  import opened ColumnTypes
  import opened RowsResult
  import opened ValueCodec
  import opened Wrappers

  /** A cell: null or its content. */
  type Cell = Option<seq<Byte>>

  datatype Place = Place(keyspace: seq<Byte>, table: seq<Byte>)

  datatype Column = Column(place: Place, name: seq<Byte>, ty: ColumnType)

  /** A Rows result with metadata; `place` is the global table spec if there is one, else each column has its own. */
  datatype Layout = Layout(global: bool, place: Place, columns: seq<Column>, rows: seq<seq<Cell>>)

  function EncodePlace(p: Place): seq<Byte> {
    EncodeString(p.keyspace) + EncodeString(p.table)
  }

  function EncodeColumn(global: bool, c: Column): seq<Byte> {
    (if global then [] else EncodePlace(c.place)) + (EncodeString(c.name) + EncodeType(c.ty))
  }

  function EncodeColumns(global: bool, cs: seq<Column>): seq<Byte> {
    if cs == [] then [] else EncodeColumn(global, cs[0]) + EncodeColumns(global, cs[1..])
  }

  function EncodeCell(c: Cell): seq<Byte> {
    if c.None? then Encode32(-1) else Framed(c.value)
  }

  function EncodeCells(cs: seq<Cell>): seq<Byte> {
    if cs == [] then [] else EncodeCell(cs[0]) + EncodeCells(cs[1..])
  }

  function Flatten(rows: seq<seq<Cell>>): seq<Cell> {
    if rows == [] then [] else rows[0] + Flatten(rows[1..])
  }

  function GlobalPlace(l: Layout): seq<Byte> {
    if l.global then EncodePlace(l.place) else []
  }

  function EncodeMetadata(l: Layout): seq<Byte> {
    Encode32(if l.global then 1 else 0) + Encode32(|l.columns|) + GlobalPlace(l) + EncodeColumns(l.global, l.columns)
  }

  /** <kind><metadata><rows_count><rows_content> */
  function RowsBody(l: Layout): (b: seq<Byte>)
    ensures |b| >= 4
  {
    Encode32(0x0002) + EncodeMetadata(l) + Encode32(|l.rows|) + EncodeCells(Flatten(l.rows))
  }

  predicate PlaceOk(p: Place) {
    |p.keyspace| < TWO_16 && |p.table| < TWO_16
  }

  predicate ColumnOk(c: Column) {
    PlaceOk(c.place) && |c.name| < TWO_16 && TypeOk(c.ty)
  }

  /** A body that the protocol allows, whatever the sizes of its cells. */
  predicate LayoutOk(l: Layout) {
    && PlaceOk(l.place)
    && (forall i :: 0 <= i < |l.columns| ==> ColumnOk(l.columns[i]))
    && (forall i :: 0 <= i < |l.rows| ==> |l.rows[i]| == |l.columns|)
    && |l.columns| < TWO_31 && |l.rows| < TWO_31
  }

  predicate FlatColumns(cs: seq<Column>) {
    forall i :: 0 <= i < |cs| ==> Flat(cs[i].ty)
  }

  /** The column as the decoder stores it. */
  function SpecOf(c: Column): Spec {
    Spec(Id(c.ty), Ids(Parts(c.ty)), c.name)
  }

  function Specs(cs: seq<Column>): seq<Spec> {
    if cs == [] then [] else [SpecOf(cs[0])] + Specs(cs[1..])
  }

  // ---------------------------------------------------------------------------------------------
  // Columns
  // ---------------------------------------------------------------------------------------------

  lemma StringReads(b: seq<Byte>, at: nat, s: seq<Byte>, rest: seq<Byte>)
    requires At(b, at, EncodeString(s), rest) && |s| < TWO_16 && |rest| >= 1
    ensures ReadString(b, at) == Some(Read(s, at + |EncodeString(s)|))
  {
    assert EncodeString(s) + rest == Encode16(|s|) + (s + rest);
    Decode16(|s|, s + rest);
    assert b[at + 2..at + 2 + |s|] == b[at..][2..2 + |s|] == s;
  }

  /** At the very end of a body a string is read if and only if it is not empty. */
  lemma StringAtEnd(b: seq<Byte>, at: nat, s: seq<Byte>)
    requires At(b, at, EncodeString(s), []) && |s| < TWO_16
    ensures ReadString(b, at) == if s != [] then Some(Read(s, |b|)) else None
  {
    assert EncodeString(s) + [] == Encode16(|s|) + s;
    Decode16(|s|, s);
    assert s != [] ==> b[at + 2..at + 2 + |s|] == b[at..][2..2 + |s|] == s;
  }

  lemma PlaceReads(b: seq<Byte>, at: nat, p: Place, rest: seq<Byte>)
    requires PlaceOk(p) && At(b, at, EncodePlace(p), rest) && |rest| >= 1
    ensures SkipNames(b, at) == Some(at + |EncodePlace(p)|)
  {
    hide ReadString;
    AtNext(b, at, EncodeString(p.keyspace), EncodeString(p.table), rest);
    StringReads(b, at, p.keyspace, EncodeString(p.table) + rest);
    StringReads(b, at + |EncodeString(p.keyspace)|, p.table, rest);
  }

  /** The decoder has read column `c`, encoded at offset `at`, and stands just after it. */
  ghost predicate ColumnRead(b: seq<Byte>, at: nat, global: bool, c: Column)
    requires at <= |b|
  {
    ReadColumn(b, at, global) == Some(Read(SpecOf(c), at + |EncodeColumn(global, c)|))
  }

  lemma TypeSize(t: ColumnType)
    ensures |EncodeType(t)| >= 1
  {
    SizeOfType(t);
  }

  /** Where the decoder stands when it has read the names of a column: just before its type. */
  lemma NamesRead(b: seq<Byte>, at: nat, global: bool, c: Column, rest: seq<Byte>)
    requires ColumnOk(c) && At(b, at, EncodeColumn(global, c), rest)
    ensures var place := if global then [] else EncodePlace(c.place);
            var k := at + |place| + |EncodeString(c.name)|;
            && k <= |b| && At(b, k, EncodeType(c.ty), rest)
            && (if global then Some(at) else SkipNames(b, at)) == Some(at + |place|) && at + |place| <= |b|
            && ReadString(b, at + |place|) == Some(Read(c.name, k))
  {
    hide ReadString, SkipNames, EncodeType, EncodePlace, TypeOk;
    var place := if global then [] else EncodePlace(c.place);
    var name, ty := EncodeString(c.name), EncodeType(c.ty);
    TypeSize(c.ty);
    AtNext(b, at, place, name + ty, rest);
    if !global {
      PlaceReads(b, at, c.place, (name + ty) + rest);
    }
    AtNext(b, at + |place|, name, ty, rest);
    StringReads(b, at + |place|, c.name, ty + rest);
  }

  /** The decoder reads a column if and only if its type is flat. */
  lemma ColumnReadExactly(b: seq<Byte>, at: nat, global: bool, c: Column, rest: seq<Byte>)
    requires ColumnOk(c) && At(b, at, EncodeColumn(global, c), rest) && |rest| >= 1
    ensures ColumnRead(b, at, global, c) <==> Flat(c.ty)
  {
    hide ReadString, SkipNames, EncodeType, EncodePlace, TypeOk, ReadType, Flat, Parts, Ids, EncodeString;
    var place := if global then [] else EncodePlace(c.place);
    var k := at + |place| + |EncodeString(c.name)|;
    NamesRead(b, at, global, c, rest);
    TypeReadExactly(b, k, c.ty, rest);
  }

  /** Every column is read from exactly the bytes that encode it. */
  ghost predicate ReadsInPlace(b: seq<Byte>, at: nat, global: bool, cs: seq<Column>)
    decreases |cs|
  {
    cs == []
    || (at <= |b| && ColumnRead(b, at, global, cs[0]) && ReadsInPlace(b, at + |EncodeColumn(global, cs[0])|, global, cs[1..]))
  }

  lemma FirstFlat(cs: seq<Column>)
    requires cs != []
    ensures FlatColumns(cs) <==> Flat(cs[0].ty) && FlatColumns(cs[1..])
  {
    assert forall i :: 1 <= i < |cs| ==> cs[i] == cs[1..][i - 1];
    assert forall i :: 0 <= i < |cs| - 1 ==> cs[1..][i] == cs[i + 1];
  }

  lemma {:induction false} ColumnsInPlaceExactly(b: seq<Byte>, at: nat, global: bool, cs: seq<Column>, rest: seq<Byte>)
    requires At(b, at, EncodeColumns(global, cs), rest) && |rest| >= 1 && forall i :: 0 <= i < |cs| ==> ColumnOk(cs[i])
    ensures ReadsInPlace(b, at, global, cs) <==> FlatColumns(cs)
    decreases |cs|
  {
    hide ColumnRead, EncodeColumn, ColumnOk, FlatColumns;
    if cs == [] {
      NoColumns(cs);
    } else {
      var first, others := EncodeColumn(global, cs[0]), EncodeColumns(global, cs[1..]);
      AtNext(b, at, first, others, rest);
      ColumnReadExactly(b, at, global, cs[0], others + rest);
      ColumnsInPlaceExactly(b, at + |first|, global, cs[1..], rest);
      FirstFlat(cs);
    }
  }

  lemma NoColumns(cs: seq<Column>)
    requires cs == []
    ensures FlatColumns(cs)
  {
  }

  lemma {:induction false} InPlaceIsRead(b: seq<Byte>, at: nat, global: bool, cs: seq<Column>)
    requires at <= |b| && ReadsInPlace(b, at, global, cs)
    ensures ReadColumns(b, at, global, |cs|) == Some(Read(Specs(cs), at + |EncodeColumns(global, cs)|))
    decreases |cs|
  {
    hide ReadColumn, EncodeColumn;
    if cs != [] {
      InPlaceIsRead(b, at + |EncodeColumn(global, cs[0])|, global, cs[1..]);
    }
  }

  // ---------------------------------------------------------------------------------------------
  // Whole bodies
  // ---------------------------------------------------------------------------------------------

  lemma IntReads(b: seq<Byte>, at: nat, n: int, rest: seq<Byte>)
    requires At(b, at, Encode32(n), rest) && -TWO_31 <= n < TWO_31
    ensures ReadInt(b, at) == Some(Read(n, at + 4))
  {
    Signed32(n, rest);
  }

  /** Where the columns and the cells begin. */
  function ColumnsAt(l: Layout): nat {
    12 + |GlobalPlace(l)|
  }

  function CellsAt(l: Layout): nat {
    ColumnsAt(l) + |EncodeColumns(l.global, l.columns)| + 4
  }

  function Tail(l: Layout): seq<Byte> {
    Encode32(|l.rows|) + EncodeCells(Flatten(l.rows))
  }

  /** The pieces of a body, and where each of them begins. */
  lemma BodyPieces(l: Layout)
    ensures var b, columns := RowsBody(l), EncodeColumns(l.global, l.columns);
            && At(b, 4, Encode32(if l.global then 1 else 0), Encode32(|l.columns|) + (GlobalPlace(l) + (columns + Tail(l))))
            && At(b, 8, Encode32(|l.columns|), GlobalPlace(l) + (columns + Tail(l)))
            && At(b, 12, GlobalPlace(l), columns + Tail(l))
            && At(b, ColumnsAt(l), columns, Tail(l))
            && At(b, CellsAt(l) - 4, Encode32(|l.rows|), EncodeCells(Flatten(l.rows)))
            && At(b, CellsAt(l), EncodeCells(Flatten(l.rows)), [])
  {
    hide GlobalPlace, EncodeColumns, EncodeCells, Flatten, Encode32;
    var b, columns := RowsBody(l), EncodeColumns(l.global, l.columns);
    var k, f, n, m := Encode32(0x0002), Encode32(if l.global then 1 else 0), Encode32(|l.columns|), Encode32(|l.rows|);
    Six(b, k, f, n, GlobalPlace(l), columns, m, EncodeCells(Flatten(l.rows)));
  }

  lemma Six(b: seq<Byte>, k: seq<Byte>, f: seq<Byte>, n: seq<Byte>, p: seq<Byte>, c: seq<Byte>, m: seq<Byte>, z: seq<Byte>)
    requires b == k + (f + n + p + c) + m + z && |k| == 4 && |f| == 4 && |n| == 4 && |m| == 4
    ensures At(b, 4, f, n + (p + (c + (m + z)))) && At(b, 8, n, p + (c + (m + z))) && At(b, 12, p, c + (m + z))
    ensures At(b, 12 + |p|, c, m + z) && At(b, 12 + |p| + |c|, m, z) && At(b, 16 + |p| + |c|, z, [])
  {
    assert b == k + (f + (n + (p + (c + (m + z)))));
    AtSkip(b, 0, k, f + (n + (p + (c + (m + z)))));
    AtSkip(b, 4, f, n + (p + (c + (m + z))));
    AtSkip(b, 8, n, p + (c + (m + z)));
    AtSkip(b, 12, p, c + (m + z));
    AtSkip(b, 12 + |p|, c, m + z);
    AtSkip(b, 12 + |p| + |c|, m, z);
    assert z + [] == z;
  }

  /** What the decoder makes of a body. */
  function Decoded(l: Layout): (t: Option<Table>)
    ensures t.Some? ==> t.value.start <= |RowsBody(l)|
  {
    ReadTable(RowsBody(l), 4)
  }

  /** The decoder reads back the columns and the number of rows, and finds where the rows begin. */
  ghost predicate TableRead(l: Layout) {
    Decoded(l) == Some(Table(|l.columns|, Specs(l.columns), |l.rows|, CellsAt(l)))
  }

  /** And it reads every column from the bytes that encode it. */
  ghost predicate TableReadInPlace(l: Layout) {
    TableRead(l) && ReadsInPlace(RowsBody(l), ColumnsAt(l), l.global, l.columns)
  }

  lemma LayoutSizes(l: Layout)
    requires LayoutOk(l)
    ensures |l.columns| < TWO_31 && |l.rows| < TWO_31 && PlaceOk(l.place)
  {
  }

  /** How the table depends on the columns that are read. */
  lemma TableFromColumns(b: seq<Byte>, global: bool, n: nat, from: nat)
    requires 12 <= |b| && from <= |b|
    requires ReadInt(b, 4) == Some(Read(if global then 1 else 0, 8)) && ReadInt(b, 8) == Some(Read(n, 12))
    requires if global then SkipNames(b, 12) == Some(from) else from == 12
    ensures ReadTable(b, 4) ==
            match ReadColumns(b, from, global, n)
            case None => None
            case Some(columns) =>
              match ReadInt(b, columns.at)
              case None => None
              case Some(rows) => Some(Table(n, columns.item, rows.item, rows.at))
  {
    hide ReadColumns, SkipNames;
  }

  /** The table that the decoder makes of a body, up to its columns. */
  lemma DecodedColumns(l: Layout)
    requires LayoutOk(l)
    ensures var b := RowsBody(l);
            ColumnsAt(l) <= |b| && Decoded(l) ==
            match ReadColumns(b, ColumnsAt(l), l.global, |l.columns|)
            case None => None
            case Some(columns) =>
              match ReadInt(b, columns.at)
              case None => None
              case Some(rows) => Some(Table(|l.columns|, columns.item, rows.item, rows.at))
  {
    hide ReadColumns, SkipNames, EncodePlace, EncodeColumns, Encode32, RowsBody, ReadTable, ReadInt, LayoutOk, Tail;
    LayoutSizes(l);
    var b, columns := RowsBody(l), EncodeColumns(l.global, l.columns);
    BodyPieces(l);
    IntReads(b, 4, if l.global then 1 else 0, Encode32(|l.columns|) + (GlobalPlace(l) + (columns + Tail(l))));
    IntReads(b, 8, |l.columns|, GlobalPlace(l) + (columns + Tail(l)));
    TailSize(l);
    if l.global {
      PlaceReads(b, 12, l.place, columns + Tail(l));
    }
    TableFromColumns(b, l.global, |l.columns|, ColumnsAt(l));
  }

  lemma TailSize(l: Layout)
    ensures |Tail(l)| >= 1
  {
  }

  lemma RightColumns(l: Layout)
    requires LayoutOk(l)
    requires ColumnsAt(l) <= |RowsBody(l)| && ReadColumns(RowsBody(l), ColumnsAt(l), l.global, |l.columns|) == Some(Read(Specs(l.columns), CellsAt(l) - 4))
    ensures TableRead(l)
  {
    hide ReadColumns, EncodeColumns, Encode32, RowsBody, ReadInt, LayoutOk, Decoded, Specs, EncodeCells, Flatten, ColumnsAt;
    LayoutSizes(l);
    DecodedColumns(l);
    BodyPieces(l);
    IntReads(RowsBody(l), CellsAt(l) - 4, |l.rows|, EncodeCells(Flatten(l.rows)));
  }

  /** A body is read, every column from its own bytes, if and only if all its column types are flat. */
  lemma TableReadInPlaceExactly(l: Layout)
    requires LayoutOk(l)
    ensures TableReadInPlace(l) <==> FlatColumns(l.columns)
  {
    hide RowsBody, Decoded, Specs, ReadColumns, FlatColumns, ReadsInPlace, EncodeColumns, Tail, TableRead;
    var b := RowsBody(l);
    BodyPieces(l);
    TailSize(l);
    ColumnsInPlaceExactly(b, ColumnsAt(l), l.global, l.columns, Tail(l));
    if FlatColumns(l.columns) {
      InPlaceIsRead(b, ColumnsAt(l), l.global, l.columns);
      RightColumns(l);
    }
  }

  lemma FlatIsRead(l: Layout)
    requires LayoutOk(l) && FlatColumns(l.columns)
    ensures TableRead(l)
  {
    hide LayoutOk, FlatColumns, TableRead, ReadsInPlace;
    TableReadInPlaceExactly(l);
  }

  // ---------------------------------------------------------------------------------------------
  // With a global table spec the table alone tells
  // ---------------------------------------------------------------------------------------------

  /** The bytes that reading a column takes, as the column read shows. */
  function SpecSize(s: Spec): nat {
    4 + |s.name| + (if s.id == TUPLE then 2 else 0) + 2 * |s.elements|
  }

  function SpecsSize(ss: seq<Spec>): nat {
    if ss == [] then 0 else SpecSize(ss[0]) + SpecsSize(ss[1..])
  }

  lemma {:induction false} OptionsLength(b: seq<Byte>, at: nat, n: nat)
    requires at <= |b|
    ensures ReadOptions(b, at, n).Some? ==> |ReadOptions(b, at, n).value.item| == n
    decreases n
  {
    if n > 0 && ReadOption(b, at).Some? {
      OptionsLength(b, at + 2, n - 1);
    }
  }

  lemma ReadTypeSize(b: seq<Byte>, at: nat)
    requires at <= |b|
    ensures ReadType(b, at).Some? ==>
              var r := ReadType(b, at).value; r.at == at + 2 + (if r.item.0 == TUPLE then 2 else 0) + 2 * |r.item.1|
  {
    hide ReadOptions;
    var id := ReadOption(b, at);
    if id.Some? && ElementCount(b, id.value.item, id.value.at).Some? {
      var n := ElementCount(b, id.value.item, id.value.at).value;
      OptionsLength(b, n.at, n.item);
      OptionsAdvance(b, n.at, n.item);
    }
  }

  lemma ReadColumnSize(b: seq<Byte>, at: nat)
    requires at <= |b|
    ensures ReadColumn(b, at, true).Some? ==> ReadColumn(b, at, true).value.at == at + SpecSize(ReadColumn(b, at, true).value.item)
  {
    hide ReadType;
    if ReadString(b, at).Some? {
      ReadTypeSize(b, ReadString(b, at).value.at);
    }
  }

  lemma {:induction false} ReadColumnsSize(b: seq<Byte>, at: nat, n: nat)
    requires at <= |b|
    ensures ReadColumns(b, at, true, n).Some? ==> ReadColumns(b, at, true, n).value.at == at + SpecsSize(ReadColumns(b, at, true, n).value.item)
    decreases n
  {
    hide ReadColumn, SpecSize;
    ReadColumnSize(b, at);
    if n > 0 && ReadColumn(b, at, true).Some? {
      var first := ReadColumn(b, at, true).value;
      ReadColumnsSize(b, first.at, n - 1);
      if ReadColumns(b, first.at, true, n - 1).Some? {
        var others := ReadColumns(b, first.at, true, n - 1).value.item;
        assert ([first.item] + others)[1..] == others;
      }
    }
  }

  /** A column takes at least the bytes that reading it takes, and no more exactly if its type is flat. */
  lemma ColumnSize(c: Column)
    requires ColumnOk(c)
    ensures SpecSize(SpecOf(c)) <= |EncodeColumn(true, c)| && (SpecSize(SpecOf(c)) == |EncodeColumn(true, c)| <==> Flat(c.ty))
  {
    hide EncodeType, EncodeTypes, AllSimple;
    SizeOfType(c.ty);
    if Composite(c.ty) {
      Shape(c.ty);
      SizeOfTypes(Parts(c.ty));
    }
  }

  lemma {:induction false} ColumnsSize(cs: seq<Column>)
    requires forall i :: 0 <= i < |cs| ==> ColumnOk(cs[i])
    ensures SpecsSize(Specs(cs)) <= |EncodeColumns(true, cs)| && (SpecsSize(Specs(cs)) == |EncodeColumns(true, cs)| <==> FlatColumns(cs))
  {
    hide ColumnOk, SpecSize, EncodeColumn, FlatColumns, SpecOf;
    if cs == [] {
      NoColumns(cs);
    } else {
      ColumnSize(cs[0]);
      ColumnsSize(cs[1..]);
      FirstFlat(cs);
      assert ([SpecOf(cs[0])] + Specs(cs[1..]))[1..] == Specs(cs[1..]);
    }
  }

  lemma ColumnsAreOk(l: Layout)
    requires LayoutOk(l)
    ensures forall i :: 0 <= i < |l.columns| ==> ColumnOk(l.columns[i])
  {
  }

  /** With a global table spec the table is read if and only if all column types are flat. */
  lemma GlobalTableReadExactly(l: Layout)
    requires LayoutOk(l) && l.global
    ensures TableRead(l) <==> FlatColumns(l.columns)
  {
    hide RowsBody, Decoded, Specs, ReadColumns, FlatColumns, EncodeColumns, ReadInt, LayoutOk, ColumnOk;
    if FlatColumns(l.columns) {
      FlatIsRead(l);
    }
    if TableRead(l) {
      var b := RowsBody(l);
      DecodedColumns(l);
      var read := ReadColumns(b, ColumnsAt(l), true, |l.columns|);
      ReadColumnsSize(b, ColumnsAt(l), |l.columns|);
      IntSize(b, read.value.at);
      ColumnsAreOk(l);
      ColumnsSize(l.columns);
    }
  }

  lemma IntSize(b: seq<Byte>, at: nat)
    requires at <= |b|
    ensures ReadInt(b, at).Some? ==> ReadInt(b, at).value.at == at + 4
  {
  }

  // ---------------------------------------------------------------------------------------------
  // Without one, names can hide the damage
  // ---------------------------------------------------------------------------------------------

  /** A list of lists is read as far as the id of the inner list. */
  lemma NestedListMisread(b: seq<Byte>, at: nat, elem: ColumnType, rest: seq<Byte>)
    requires At(b, at, EncodeType(ListOf(ListOf(elem))), rest)
    ensures ReadType(b, at) == Some(Read((LIST, [LIST]), at + 4)) && At(b, at + 4, EncodeType(elem), rest)
  {
    hide EncodeTypes, Encode16, ReadOption;
    AtNext(b, at, Encode16(LIST), EncodeType(ListOf(elem)), rest);
    OptionReads(b, at, LIST, EncodeType(ListOf(elem)) + rest);
    AtNext(b, at + 2, Encode16(LIST), EncodeType(elem), rest);
    OptionReads(b, at + 2, LIST, EncodeType(elem) + rest);
    assert ReadOptions(b, at + 4, 0) == Some(Read([], at + 4)) && [LIST] + [] == [LIST];
    assert ReadOptions(b, at + 2, 1) == Some(Read([LIST], at + 4));
  }

  /** What the decoder leaves of the first type is taken for the length of the second column's keyspace. */
  predicate Disguised(first: Column, second: Column) {
    && first.ty.ListOf? && first.ty.elem.ListOf? && first.ty.elem.elem == Simple(|second.place.keyspace| + 2)
    && Flat(second.ty) && |second.place.keyspace| + 2 < TWO_16
  }

  lemma DisguisedColumn(second: Column)
    ensures var seen := second.(place := Place(EncodeString(second.place.keyspace), second.place.table));
            SpecOf(seen) == SpecOf(second)
            && EncodeColumn(false, seen) == EncodeType(Simple(|second.place.keyspace| + 2)) + EncodeColumn(false, second)
  {
    hide Encode16;
    var ks := second.place.keyspace;
    var rest := EncodeString(second.place.table) + (EncodeString(second.name) + EncodeType(second.ty));
    assert EncodeColumn(false, second) == EncodeString(ks) + rest;
    var seen := second.(place := Place(EncodeString(ks), second.place.table));
    assert EncodeColumn(false, seen) == (Encode16(|EncodeString(ks)|) + EncodeString(ks)) + rest;
    assert (Encode16(|ks| + 2) + EncodeString(ks)) + rest == Encode16(|ks| + 2) + (EncodeString(ks) + rest);
  }

  lemma DisguisedReads(b: seq<Byte>, at: nat, first: Column, second: Column, rest: seq<Byte>)
    requires ColumnOk(first) && ColumnOk(second) && Disguised(first, second) && |rest| >= 1
    requires At(b, at, EncodeColumn(false, first) + EncodeColumn(false, second), rest)
    ensures var short := at + |EncodeColumn(false, first)| - 2;
            && ReadColumn(b, at, false) == Some(Read(SpecOf(first), short))
            && short <= |b| && ReadColumn(b, short, false) == Some(Read(SpecOf(second), short + 2 + |EncodeColumn(false, second)|))
  {
    hide ReadColumn, EncodeColumn, SpecOf, ColumnOk, EncodePlace, Flat, EncodeType;
    var x, y := EncodeColumn(false, first), EncodeColumn(false, second);
    AtNext(b, at, x, y, rest);
    FirstReadShort(b, at, first, y + rest);
    var seen := second.(place := Place(EncodeString(second.place.keyspace), second.place.table));
    DisguisedColumn(second);
    var left := EncodeType(Simple(|second.place.keyspace| + 2));
    assert left + (y + rest) == EncodeColumn(false, seen) + rest;
    LeftIsId(|second.place.keyspace| + 2);
    SeenIsOk(second);
    ColumnReadExactly(b, at + |x| - 2, false, seen, rest);
  }

  lemma LeftIsId(id: int)
    ensures |EncodeType(Simple(id))| == 2
  {
  }

  /** A column of a list of lists of a simple type is read but for the id of that. */
  lemma FirstReadShort(b: seq<Byte>, at: nat, c: Column, rest: seq<Byte>)
    requires ColumnOk(c) && c.ty.ListOf? && c.ty.elem.ListOf? && c.ty.elem.elem.Simple? && At(b, at, EncodeColumn(false, c), rest)
    ensures var short := at + |EncodeColumn(false, c)| - 2;
            short <= |b| && ReadColumn(b, at, false) == Some(Read(SpecOf(c), short)) && At(b, short, EncodeType(c.ty.elem.elem), rest)
  {
    hide ReadString, SkipNames, EncodePlace, TypeOk, ReadType, EncodeString;
    NamesRead(b, at, false, c, rest);
    var k := at + |EncodePlace(c.place)| + |EncodeString(c.name)|;
    NestedListMisread(b, k, c.ty.elem.elem, rest);
    assert Ids([c.ty.elem]) == [LIST];
  }

  lemma SeenIsOk(second: Column)
    requires ColumnOk(second) && |second.place.keyspace| + 2 < TWO_16
    ensures ColumnOk(second.(place := Place(EncodeString(second.place.keyspace), second.place.table)))
  {
  }

  /**
   Without a global table spec a table can be read although a column type is nested: the decoder takes the
   rest of the type and the next keyspace for one keyspace, and skips both.
   */
  lemma DisguisedTableRead(l: Layout)
    requires LayoutOk(l) && !l.global && |l.columns| == 2 && Disguised(l.columns[0], l.columns[1])
    ensures TableRead(l) && !FlatColumns(l.columns) && !TableReadInPlace(l)
  {
    hide RowsBody, Decoded, ReadColumn, EncodeColumn, LayoutOk, ColumnOk, Tail, ReadsInPlace, TableRead;
    var b, c, d := RowsBody(l), l.columns[0], l.columns[1];
    BodyPieces(l);
    TailSize(l);
    ColumnsAreOk(l);
    TwoColumns(l.columns);
    DisguisedReads(b, ColumnsAt(l), c, d, Tail(l));
    var short := ColumnsAt(l) + |EncodeColumn(false, c)| - 2;
    var end := short + 2 + |EncodeColumn(false, d)|;
    OneColumnRead(b, short, false, SpecOf(d), end);
    assert [SpecOf(c)] + [SpecOf(d)] == Specs(l.columns);
    RightColumns(l);
    TableReadInPlaceExactly(l);
    assert !Parts(c.ty)[0].Simple?;
  }

  /** Such a body: a list of lists of int before a column whose keyspace has seven bytes. */
  function DisguisedBody(): Layout {
    Layout(false, Place([], []),
           [Column(Place([1], [2]), [97], ListOf(ListOf(Simple(INT)))), Column(Place([1, 2, 3, 4, 5, 6, 7], [2]), [98], Simple(INT))], [])
  }

  lemma DisguisedBodyRead()
    ensures LayoutOk(DisguisedBody()) && TableRead(DisguisedBody()) && !FlatColumns(DisguisedBody().columns)
  {
    hide TableRead, ReadsInPlace;
    var l := DisguisedBody();
    TwoColumns(l.columns);
    assert |EncodeColumn(false, l.columns[0])| == 15 && |EncodeColumn(false, l.columns[1])| == 17;
    assert |RowsBody(l)| == 48;
    DisguisedTableRead(l);
  }

  lemma TwoColumns(cs: seq<Column>)
    requires |cs| == 2
    ensures EncodeColumns(false, cs) == EncodeColumn(false, cs[0]) + EncodeColumn(false, cs[1]) && Specs(cs) == [SpecOf(cs[0]), SpecOf(cs[1])]
  {
    hide EncodeColumn, SpecOf;
    assert cs[1..][1..] == [] && cs[1..][0] == cs[1];
    assert EncodeColumns(false, cs[1..]) == EncodeColumn(false, cs[1]) + [];
    assert Specs(cs[1..]) == [SpecOf(cs[1])] + [];
  }

  // ---------------------------------------------------------------------------------------------
  // Reaching cells
  // ---------------------------------------------------------------------------------------------

  lemma CellSkips(b: seq<Byte>, at: nat, c: Cell, rest: seq<Byte>)
    requires At(b, at, EncodeCell(c), rest) && |b| < TWO_31
    ensures SkipCell(b, at) == Some(at + |EncodeCell(c)|)
  {
    match c
    case None => Signed32(-1, rest);
    case Some(x) => FrameReadsBack(x, rest);
  }

  /** Skipping `k` cells lands exactly at cell `k`. */
  lemma {:induction false} CellsSkip(b: seq<Byte>, at: nat, cs: seq<Cell>, k: nat, rest: seq<Byte>)
    requires At(b, at, EncodeCells(cs), rest) && |b| < TWO_31 && k <= |cs|
    ensures Skip(b, at, k).Some? && At(b, Skip(b, at, k).value, EncodeCells(cs[k..]), rest)
    decreases k
  {
    hide SkipCell, EncodeCell;
    if k > 0 {
      AtNext(b, at, EncodeCell(cs[0]), EncodeCells(cs[1..]), rest);
      CellSkips(b, at, cs[0], EncodeCells(cs[1..]) + rest);
      CellsSkip(b, at + |EncodeCell(cs[0])|, cs[1..], k - 1, rest);
      assert cs[1..][k - 1..] == cs[k..];
    } else {
      assert cs[k..] == cs;
    }
  }

  lemma {:induction false} FlattenAt(rows: seq<seq<Cell>>, cols: nat, r: nat, c: nat)
    requires (forall i :: 0 <= i < |rows| ==> |rows[i]| == cols) && r < |rows| && c < cols
    ensures r * cols + c < |Flatten(rows)| && Flatten(rows)[r * cols + c] == rows[r][c]
  {
    if r == 0 {
      assert r * cols == 0;
    } else {
      FlattenAt(rows[1..], cols, r - 1, c);
      assert r * cols == (r - 1) * cols + cols;
      assert (r - 1) * cols >= 0;
    }
  }

  /** After `k` cells the scan stands at the first byte of `cell`. */
  ghost predicate ScanReaches(b: seq<Byte>, start: nat, k: nat, cell: Cell) {
    start <= |b| && Skip(b, start, k).Some? && exists rest :: At(b, Skip(b, start, k).value, EncodeCell(cell), rest)
  }

  lemma ScanReachesCell(b: seq<Byte>, start: nat, cells: seq<Cell>, k: nat)
    requires At(b, start, EncodeCells(cells), []) && |b| < TWO_31 && k < |cells|
    ensures ScanReaches(b, start, k, cells[k])
  {
    hide EncodeCell, SkipCell;
    CellsSkip(b, start, cells, k, []);
    var at := Skip(b, start, k).value;
    var left := cells[k..];
    assert left[0] == cells[k];
    assert EncodeCells(left) + [] == EncodeCell(cells[k]) + (EncodeCells(left[1..]) + []);
    assert At(b, at, EncodeCell(cells[k]), EncodeCells(left[1..]) + []);
  }

  /** The number of cells before cell (r, c). */
  function CellIndex(cols: nat, r: nat, c: nat): nat {
    r * cols + c
  }

  /** The scan for cell (r, c) stops at the first byte of exactly that cell. */
  ghost predicate CellReached(l: Layout, r: nat, c: nat)
    requires r < |l.rows| && c < |l.rows[r]|
  {
    Decoded(l).Some? && ScanReaches(RowsBody(l), Decoded(l).value.start, CellIndex(|l.columns|, r, c), l.rows[r][c])
  }

  lemma RowsFit(l: Layout)
    requires LayoutOk(l)
    ensures forall i :: 0 <= i < |l.rows| ==> |l.rows[i]| == |l.columns|
  {
  }

  lemma CellFound(l: Layout, r: nat, c: nat)
    requires LayoutOk(l) && FlatColumns(l.columns) && |RowsBody(l)| < TWO_31 && r < |l.rows| && c < |l.rows[r]|
    ensures CellReached(l, r, c)
  {
    hide Decoded, RowsBody, EncodeCells, LayoutOk, FlatColumns, Specs, Flatten, ScanReaches, EncodeColumns;
    RowsFit(l);
    FlatIsRead(l);
    BodyPieces(l);
    FlattenAt(l.rows, |l.columns|, r, c);
    ScanReachesCell(RowsBody(l), CellsAt(l), Flatten(l.rows), CellIndex(|l.columns|, r, c));
  }

  /** Reading `cell` as a `ty` should give `v`: what the cell encodes, or the default if the cell is null. */
  predicate Holds(lt: Order, ty: Type, cell: Cell, v: Value, isNull: bool) {
    if cell == None then v == Default(ty) && isNull
    else cell.value == Content(v) && isNull == IsEmpty(v) && if ty.TBool? then v.Bool? else Typed(lt, ty, v)
  }

  /** Decoding at the start of a cell gives what the cell holds. */
  lemma CellDecodes(lt: Order, cell: Cell, rest: seq<Byte>, ty: Type, v: Value, isNull: bool)
    requires Holds(lt, ty, cell, v, isNull) && |EncodeCell(cell)| + |rest| < TWO_31
    ensures var d := Decode(lt, ty, EncodeCell(cell) + rest); d.Success? && d.value == v && d.isNull == isNull
  {
    hide Decode, Typed, Content;
    if cell == None {
      NullDecodes(lt, ty, rest);
    } else if v.Bool? && ty.TBool? {
      BoolLeavesItsByte(lt, v.b, rest);
      assert v == Bool(v.b);
    } else {
      ShortReads(v, |rest|);
      RoundTrip(lt, ty, v, rest);
    }
  }

  lemma NullDecodes(lt: Order, ty: Type, rest: seq<Byte>)
    ensures Decode(lt, ty, EncodeCell(None) + rest) == Success(true, Default(ty), rest)
  {
    Signed32(-1, rest);
  }

  /** A reachable cell decodes to what it holds. */
  lemma ReachedDecodes(lt: Order, b: seq<Byte>, start: nat, k: nat, ty: Type, cell: Cell, v: Value, isNull: bool)
    requires ScanReaches(b, start, k, cell) && Holds(lt, ty, cell, v, isNull) && |b| < TWO_31
    ensures var d := Decode(lt, ty, b[Skip(b, start, k).value..]); d.Success? && d.value == v && d.isNull == isNull
  {
    hide Decode, Holds, EncodeCell;
    var at := Skip(b, start, k).value;
    var rest :| At(b, at, EncodeCell(cell), rest);
    assert |EncodeCell(cell)| + |rest| <= |b|;
    CellDecodes(lt, cell, rest, ty, v, isNull);
  }

  lemma {:induction false} SpecsAt(cs: seq<Column>, i: nat)
    requires i < |cs|
    ensures |Specs(cs)| == |cs| && Specs(cs)[i] == SpecOf(cs[i])
  {
    hide SpecOf;
    if i > 0 {
      SpecsAt(cs[1..], i - 1);
    } else if |cs| > 1 {
      SpecsAt(cs[1..], 0);
    }
  }

  // ---------------------------------------------------------------------------------------------
  // Which columns may be read as which C++ types
  // ---------------------------------------------------------------------------------------------

  /** The simple column type, by its id in section 4.2.5.2, whose values a C++ scalar type holds. */
  function ScalarId(ty: Type): int
    requires !ty.TText? && !IsCollection(ty)
  {
    match ty
    case TInt64 => 0x02
    case TBool => 0x04
    case TDouble => 0x07
    case TFloat => 0x08
    case TInt32 => 0x09
  }

  predicate IsCollection(ty: Type) {
    ty.TList? || ty.TSet? || ty.TMap?
  }

  /** A column of type `t` is one for C++ values of type `ty`: any column for strings, else the column of that very type. */
  predicate Stored(t: ColumnType, ty: Type) {
    match ty
    case TList(elem) => t.ListOf? && StoredElement(t.elem, elem)
    case TSet(elem) => t.SetOf? && StoredElement(t.elem, elem)
    case TMap(key, val) => t.MapOf? && StoredElement(t.key, key) && StoredElement(t.val, val)
    case _ => StoredElement(t, ty)
  }

  /** Collections are not read as elements of collections. */
  predicate StoredElement(t: ColumnType, ty: Type) {
    ty.TText? || (!IsCollection(ty) && t == Simple(ScalarId(ty)))
  }

  /** For a column that the decoder reads, a lookup passes the type check if and only if the column is one for that type. */
  lemma ReadableExactly(c: Column, ty: Type)
    requires ColumnOk(c) && Flat(c.ty)
    ensures Readable(SpecOf(c), ty) <==> Stored(c.ty, ty)
  {
    var parts := Parts(c.ty);
    assert Ids(parts) == SpecOf(c).elements && |Ids(parts)| == |parts|;
    MatchesExactly(c.ty, ty);
    PartsOk(c.ty);
    forall i, e | 0 <= i < |parts|
      ensures Matches(Ids(parts)[i], e) <==> StoredElement(parts[i], e)
    {
      MatchesExactly(parts[i], e);
    }
  }

  lemma MatchesExactly(t: ColumnType, ty: Type)
    requires TypeOk(t)
    ensures Matches(Id(t), ty) <==> StoredElement(t, ty)
  {
  }

  /** The first column of a name is the one that the name finds. */
  predicate FirstOfName(cs: seq<Column>, name: seq<Byte>, c: nat) {
    c < |cs| && cs[c].name == name && forall j :: 0 <= j < c ==> cs[j].name != name
  }

  lemma OffsetExactly(cs: seq<Column>, name: seq<Byte>)
    ensures match Offset(Specs(cs), name)
            case Some(c) => FirstOfName(cs, name, c)
            case None => forall j :: 0 <= j < |cs| ==> cs[j].name != name
  {
    hide Offset, Specs, SpecOf;
    OffsetInRange(Specs(cs), name);
    NoSpecs(cs);
    forall i: nat | i < |cs|
      ensures |Specs(cs)| == |cs| && cs[i].name == Specs(cs)[i].name
    {
      SameName(cs, i);
    }
    assert |Specs(cs)| == |cs| by {
      if cs != [] {
        SameName(cs, 0);
      }
    }
  }

  lemma SameName(cs: seq<Column>, i: nat)
    requires i < |cs|
    ensures |Specs(cs)| == |cs| && Specs(cs)[i].name == cs[i].name
  {
    SpecsAt(cs, i);
  }

  lemma NoSpecs(cs: seq<Column>)
    ensures cs == [] ==> Specs(cs) == []
  {
  }

  /**
   End to end: looking cell (r, c) up by the name of column `c` as a C++ type that the column is one for yields the
   value that the cell holds, or the default with the code for null, whatever was looked up before.
   */
  lemma LookupFinds(lt: Order, l: Layout, r: nat, c: nat, ty: Type, v: Value, isNull: bool)
    requires LayoutOk(l) && FlatColumns(l.columns) && |RowsBody(l)| < TWO_31
    requires r < |l.rows| && c < |l.columns| && c < |l.rows[r]|
    requires FirstOfName(l.columns, l.columns[c].name, c) && Stored(l.columns[c].ty, ty)
    requires Holds(lt, ty, l.rows[r][c], v, isNull)
    ensures Decoded(l).Some?
    ensures var d := FreshLookup(lt, RowsBody(l), Decoded(l).value, l.columns[c].name, r, ty);
            d.Success? && d.value == v && d.isNull == isNull
  {
    hide Decoded, RowsBody, Decode, LayoutOk, FlatColumns, Holds, Readable, EncodeCell, EncodeCells, Offset, Skip, Specs, SpecOf, CellsAt, Stored, Flat, ColumnOk;
    RowsFit(l);
    LayoutSizes(l);
    CellFound(l, r, c);
    FlatIsRead(l);
    SpecsAt(l.columns, c);
    OffsetExactly(l.columns, l.columns[c].name);
    AdmittedExactly(l, c, ty);
    var b, t := RowsBody(l), Decoded(l).value;
    SkipSplits(b, t.start, r * t.cols, c);
    ReachedDecodes(lt, b, t.start, r * t.cols + c, ty, l.rows[r][c], v, isNull);
  }

  lemma AdmittedExactly(l: Layout, c: nat, ty: Type)
    requires LayoutOk(l) && FlatColumns(l.columns) && c < |l.columns|
    ensures Readable(SpecOf(l.columns[c]), ty) <==> Stored(l.columns[c].ty, ty)
  {
    hide Readable, Stored, Flat, ColumnOk, SpecOf;
    ReadableExactly(l.columns[c], ty);
  }

  /** A lookup past the last row, by a name that no column has, or as a type that the column is not one for is refused. */
  lemma LookupRefused(lt: Order, l: Layout, name: seq<Byte>, r: nat, ty: Type)
    requires LayoutOk(l) && FlatColumns(l.columns)
    requires r >= |l.rows| || !exists c: nat :: FirstOfName(l.columns, name, c) && Stored(l.columns[c].ty, ty)
    ensures Decoded(l).Some? && FreshLookup(lt, RowsBody(l), Decoded(l).value, name, r, ty) == Failure
  {
    hide Decoded, RowsBody, Decode, LayoutOk, FlatColumns, Readable, Offset, Skip, Specs, SpecOf, CellsAt, Stored, Flat, ColumnOk;
    FlatIsRead(l);
    OffsetExactly(l.columns, name);
    match Offset(Specs(l.columns), name)
    case None =>
    case Some(c) =>
      SpecsAt(l.columns, c);
      AdmittedExactly(l, c, ty);
  }

  // ---------------------------------------------------------------------------------------------
  // A body whose lookup goes wrong
  // ---------------------------------------------------------------------------------------------

  /** One row of one column "a" of type list<list<int>>, whose cell holds one byte. */
  function Nested(): Layout {
    Layout(true, Place([107], [116]), [Column(Place([], []), [97], ListOf(ListOf(Simple(INT))))], [[Some([1])]])
  }

  lemma NestedTail()
    ensures Tail(Nested()) == [0, 0, 0, 1, 0, 0, 0, 1, 1] && ColumnsAt(Nested()) == 18
    ensures EncodeColumns(true, Nested().columns) == EncodeColumn(true, Nested().columns[0]) && Specs(Nested().columns) == [SpecOf(Nested().columns[0])]
  {
    var row: seq<Cell> := [Some([1])];
    assert [row][1..] == [] && Flatten([row]) == row + [];
    assert row[1..] == [] && EncodeCells(row) == EncodeCell(Some([1])) + [];
    assert Nested().columns[1..] == [];
    assert EncodeColumns(true, Nested().columns) == EncodeColumn(true, Nested().columns[0]) + [];
  }

  /** The name of the column "a" is read, and its type comes next. */
  lemma NestedName()
    ensures LayoutOk(Nested()) && |RowsBody(Nested())| == 36
    ensures ReadString(RowsBody(Nested()), 18) == Some(Read([97], 21))
    ensures At(RowsBody(Nested()), 21, EncodeType(ListOf(ListOf(Simple(INT)))), [0, 0, 0, 1, 0, 0, 0, 1, 1])
  {
    hide RowsBody, EncodeColumns, Tail, ColumnsAt, ReadString, EncodeType, LayoutOk, GlobalPlace, CellsAt, At;
    var l := Nested();
    NestedOk();
    BodyPieces(l);
    NestedTail();
    ColumnsAreOk(l);
    NamesRead(RowsBody(l), 18, true, l.columns[0], Tail(l));
  }

  /** The decoder reads the column "a" as a list of lists and leaves the id of int. */
  lemma NestedColumn()
    ensures LayoutOk(Nested()) && |RowsBody(Nested())| == 36 && RowsBody(Nested())[25..] == [0, 9, 0, 0, 0, 1, 0, 0, 0, 1, 1]
    ensures ReadColumn(RowsBody(Nested()), 18, true) == Some(Read(Spec(LIST, [LIST], [97]), 25))
  {
    hide RowsBody, ReadString, ReadType, LayoutOk, Nested;
    NestedName();
    NestedListMisread(RowsBody(Nested()), 21, Simple(INT), [0, 0, 0, 1, 0, 0, 0, 1, 1]);
  }

  /** It takes that and the start of the row count for the row count. */
  lemma NestedTable()
    ensures LayoutOk(Nested()) && Decoded(Nested()) == Some(Table(1, [Spec(LIST, [LIST], [97])], 589824, 29))
    ensures |RowsBody(Nested())| == 36 && RowsBody(Nested())[29..] == [0, 1, 0, 0, 0, 1, 1]
  {
    hide RowsBody, EncodeColumns, Tail, ColumnsAt, Decoded, ReadInt, ReadColumns, ReadColumn, LayoutOk, GlobalPlace, CellsAt;
    var b := RowsBody(Nested());
    NestedColumn();
    NestedTail();
    DecodedColumns(Nested());
    IntAt(b);
    assert b[29..] == b[25..][4..];
    OneColumnRead(b, 18, true, Spec(LIST, [LIST], [97]), 25);
  }

  lemma OneColumnRead(b: seq<Byte>, at: nat, global: bool, s: Spec, end: nat)
    requires at <= |b| && end <= |b| && ReadColumn(b, at, global) == Some(Read(s, end))
    ensures ReadColumns(b, at, global, 1) == Some(Read([s], end))
  {
    hide ReadColumn;
    assert ReadColumns(b, end, global, 0) == Some(Read([], end)) && [s] + [] == [s];
  }

  lemma NestedOk()
    ensures LayoutOk(Nested()) && |RowsBody(Nested())| == 36
  {
    var l := Nested();
    NestedTail();
    assert |EncodeColumn(true, l.columns[0])| == 9;
    assert |RowsBody(l)| == 36;
  }

  lemma IntAt(b: seq<Byte>)
    requires |b| == 36 && b[25..] == [0, 9, 0, 0, 0, 1, 0, 0, 0, 1, 1]
    ensures ReadInt(b, 25) == Some(Read(589824, 29))
  {
  }

  /** The cell is there, but looking it up as text, which every column admits, fails. */
  lemma NestedLookupFails(lt: Order)
    ensures LayoutOk(Nested()) && Nested().rows[0][0].Some?
    ensures Decoded(Nested()).Some? && FreshLookup(lt, RowsBody(Nested()), Decoded(Nested()).value, [97], 0, TText) == Failure
  {
    hide RowsBody, Decoded;
    NestedTable();
    var b, t := RowsBody(Nested()), Decoded(Nested()).value;
    assert t.specs[..0] == [] && Offset(t.specs, [97]) == Some(0);
    assert Skip(b, 29, 0) == Some(29);
    assert Decode(lt, TText, b[29..]) == Failure by { assert Unsigned32(b[29..]) == 65536; }
  }

  // ---------------------------------------------------------------------------------------------
  // Bodies without column metadata
  // ---------------------------------------------------------------------------------------------

  /** <kind><flags><columns_count><rows_count><rows_content>, as section 4.2.5.2 has it when the No_metadata flag, 0x04, is set. */
  function BareBody(flags: int, cols: nat, rows: nat, cells: seq<Byte>): (b: seq<Byte>)
    ensures |b| >= 4
  {
    Encode32(0x0002) + Encode32(flags) + Encode32(cols) + Encode32(rows) + cells
  }

  /** Without metadata the counts are read, no column has a name, and so every lookup is refused. */
  lemma BareLookupRefused(lt: Order, flags: int, cols: nat, rows: nat, cells: seq<Byte>, name: seq<Byte>, r: nat, ty: Type)
    requires (flags == 4 || flags == 5) && cols < TWO_31 && rows < TWO_31
    ensures var b := BareBody(flags, cols, rows, cells);
            && ReadTable(b, 4) == Some(Table(cols, [], rows, 16))
            && FreshLookup(lt, b, Table(cols, [], rows, 16), name, r, ty) == Failure
  {
    hide Encode32, Unsigned32, Skip, Decode;
    var b := BareBody(flags, cols, rows, cells);
    assert b[4..] == Encode32(flags) + (Encode32(cols) + Encode32(rows) + cells);
    assert b[8..] == Encode32(cols) + (Encode32(rows) + cells);
    assert b[12..] == Encode32(rows) + cells;
    IntReads(b, 4, flags, Encode32(cols) + Encode32(rows) + cells);
    IntReads(b, 8, cols, Encode32(rows) + cells);
    IntReads(b, 12, rows, cells);
    assert Offset([], name) == None;
  }

  /** Metadata with an unknown flag, with further pages, or with a negative number of columns is refused. */
  lemma MetadataRefused(flags: int, cols: int, rest: seq<Byte>)
    requires -TWO_31 <= flags < TWO_31 && -TWO_31 <= cols < TWO_31
    requires cols < 0 || flags !in {0, 1, 4, 5}
    ensures ReadTable(Encode32(0x0002) + Encode32(flags) + Encode32(cols) + rest, 4) == None
  {
    hide Encode32, Unsigned32, ReadColumns;
    var b := Encode32(0x0002) + Encode32(flags) + Encode32(cols) + rest;
    assert b[4..] == Encode32(flags) + (Encode32(cols) + rest);
    assert b[8..] == Encode32(cols) + rest;
    IntReads(b, 4, flags, Encode32(cols) + rest);
    IntReads(b, 8, cols, rest);
  }

  /** The row check lets every row pass if the number of rows is negative, since it compares without sign. */
  lemma RowExistsExactly(rows: int, r: nat)
    requires -TWO_31 <= rows < TWO_31 && r < TWO_63
    ensures RowExists(rows, r) <==> rows < 0 || r < rows
  {
  }
}
