/**
 Rows results (external/brpc/922.patch.new:1494-1728, 2467-2667): the metadata is decoded at once, the rows
 are not.  The decoder remembers where the rows it has met begin, extends that index as far as a lookup
 needs, and skips from the row to the column.
 */
module RowsResult {
  import opened Bytes
  import opened ValueCodec
  import opened ValueIo
  import opened Wrappers

  const RESULT_ROWS: int := 2
  const CUSTOM: int := 0x00
  const BIGINT: int := 0x02
  const BOOLEAN: int := 0x04
  const DOUBLE: int := 0x07
  const FLOAT: int := 0x08
  const INT: int := 0x09
  const LIST: int := 0x20
  const MAP: int := 0x21
  const SET: int := 0x22
  const UDT: int := 0x30
  const TUPLE: int := 0x31
  const DUMMY: int := 0xFFFF

  // ---------------------------------------------------------------------------------------------
  // Skipping cells
  // ---------------------------------------------------------------------------------------------

  /** `CqlDecodeBytes(iter, (std::string*)0)`: the offset just after the cell at offset `at`. */
  function SkipCell(b: seq<Byte>, at: nat): (r: Option<nat>)
    requires at <= |b|
    ensures r.Some? ==> at + 4 <= r.value <= |b|
  {
    if |b| - at < 4 then None
    else
      var n := Int32(Unsigned32(b[at..]));
      if n <= 0 then Some(at + 4)
      else if ToInt(|b| - at - 4) < n then None
      else Some(at + 4 + n)
  }

  /** The offset after `k` cells, by a fresh sequential scan. */
  function Skip(b: seq<Byte>, at: nat, k: nat): (r: Option<nat>)
    requires at <= |b|
    ensures r.Some? ==> at <= r.value <= |b|
    decreases k
  {
    if k == 0 then Some(at)
    else
      var next :- SkipCell(b, at);
      Skip(b, next, k - 1)
  }

  lemma {:induction false} SkipSplits(b: seq<Byte>, at: nat, j: nat, k: nat)
    requires at <= |b|
    ensures Skip(b, at, j + k) == if Skip(b, at, j).None? then None else Skip(b, Skip(b, at, j).value, k)
    decreases j
  {
    if j > 0 && SkipCell(b, at).Some? {
      SkipSplits(b, SkipCell(b, at).value, j - 1, k);
    }
  }

  /** The offset at which row `r` begins, going row by row. */
  function RowStart(b: seq<Byte>, start: nat, cols: nat, r: nat): (o: Option<nat>)
    requires start <= |b|
    ensures o.Some? ==> start <= o.value <= |b|
  {
    if r == 0 then Some(start)
    else
      var prev :- RowStart(b, start, cols, r - 1);
      Skip(b, prev, cols)
  }

  lemma OneRowMore(r: nat, cols: nat)
    ensures (r + 1) * cols == r * cols + cols
  {
  }

  lemma NoCells(b: seq<Byte>, at: nat)
    requires at <= |b|
    ensures Skip(b, at, 0) == Some(at)
  {
  }

  /** Going row by row is the same as skipping all the cells before the row in one scan. */
  lemma {:induction false} RowStartIsScan(b: seq<Byte>, start: nat, cols: nat, r: nat)
    requires start <= |b|
    ensures RowStart(b, start, cols, r) == Skip(b, start, r * cols)
  {
    hide Skip, SkipCell;
    if r > 0 {
      RowStartIsScan(b, start, cols, r - 1);
      OneRowMore(r - 1, cols);
      SkipSplits(b, start, (r - 1) * cols, cols);
    } else {
      NoCells(b, start);
      assert r * cols == 0;
    }
  }

  // ---------------------------------------------------------------------------------------------
  // Metadata
  // ---------------------------------------------------------------------------------------------

  /** A column: its type id, the ids of its elements for a collection or tuple, and its name. */
  datatype Spec = Spec(id: int, elements: seq<int>, name: seq<Byte>)

  datatype Read<+T> = Read(item: T, at: nat)

  /** `CqlDecodeString`; it wants at least three bytes, so it refuses an empty string at the very end. */
  function ReadString(b: seq<Byte>, at: nat): (r: Option<Read<seq<Byte>>>)
    requires at <= |b|
    ensures r.Some? ==> at <= r.value.at <= |b|
  {
    if |b| - at < 3 then None
    else
      var n := Unsigned16(b[at..]);
      if |b| - at - 2 >= n then Some(Read(b[at + 2..at + 2 + n], at + 2 + n)) else None
  }

  /** `CqlDecodeCqlOption`; custom and user-defined types, on which the decoder aborts, are read as failures. */
  function ReadOption(b: seq<Byte>, at: nat): (r: Option<Read<int>>)
    requires at <= |b|
    ensures r.Some? ==> at <= r.value.at <= |b|
  {
    if |b| - at < 2 then None
    else
      var id := Unsigned16(b[at..]);
      if id == CUSTOM || id == UDT || id == DUMMY then None else Some(Read(id, at + 2))
  }

  function ReadOptions(b: seq<Byte>, at: nat, n: nat): (r: Option<Read<seq<int>>>)
    requires at <= |b|
    ensures r.Some? ==> at <= r.value.at <= |b|
    decreases n
  {
    if n == 0 then Some(Read([], at))
    else
      var first :- ReadOption(b, at);
      var others :- ReadOptions(b, first.at, n - 1);
      Some(Read([first.item] + others.item, others.at))
  }

  /** `CqlDecodeColumnType`: an id and, for collections and tuples, one plain id per element. */
  function ReadType(b: seq<Byte>, at: nat): (r: Option<Read<(int, seq<int>)>>)
    requires at <= |b|
    ensures r.Some? ==> at <= r.value.at <= |b|
  {
    var id :- ReadOption(b, at);
    var n :- ElementCount(b, id.item, id.at);
    var elements :- ReadOptions(b, n.at, n.item);
    Some(Read((id.item, elements.item), elements.at))
  }

  /** How many element ids follow a type id, and where they begin. */
  function ElementCount(b: seq<Byte>, id: int, at: nat): (r: Option<Read<nat>>)
    requires at <= |b|
    ensures r.Some? ==> at <= r.value.at <= |b|
  {
    if id == LIST || id == SET then Some(Read(1, at))
    else if id == MAP then Some(Read(2, at))
    else if id == TUPLE then
      if |b| - at > 2 then Some(Read(Unsigned16(b[at..]), at + 2)) else None
    else Some(Read(0, at))
  }

  /** One <col_spec>; without a global table spec it begins with a keyspace and a table name. */
  function ReadColumn(b: seq<Byte>, at: nat, global: bool): (r: Option<Read<Spec>>)
    requires at <= |b|
    ensures r.Some? ==> at <= r.value.at <= |b|
  {
    var from :- if global then Some(at) else SkipNames(b, at);
    var name :- ReadString(b, from);
    var ty :- ReadType(b, name.at);
    Some(Read(Spec(ty.item.0, ty.item.1, name.item), ty.at))
  }

  function SkipNames(b: seq<Byte>, at: nat): (r: Option<nat>)
    requires at <= |b|
    ensures r.Some? ==> at <= r.value <= |b|
  {
    var keyspace :- ReadString(b, at);
    var table :- ReadString(b, keyspace.at);
    Some(table.at)
  }

  function ReadColumns(b: seq<Byte>, at: nat, global: bool, n: nat): (r: Option<Read<seq<Spec>>>)
    requires at <= |b|
    ensures r.Some? ==> at <= r.value.at <= |b|
    decreases n
  {
    if n == 0 then Some(Read([], at))
    else
      var first :- ReadColumn(b, at, global);
      var others :- ReadColumns(b, first.at, global, n - 1);
      Some(Read([first.item] + others.item, others.at))
  }

  /** `_column_specs_map.insert`: the first column of a name keeps it. */
  function Offset(specs: seq<Spec>, name: seq<Byte>): Option<nat> {
    if specs == [] then None
    else
      var k := |specs| - 1;
      match Offset(specs[..k], name)
      case Some(i) => Some(i)
      case None => if specs[k].name == name then Some(k) else None
  }

  /** What `DecodeCqlResult` learns: the columns, the number of rows and where the rows begin. */
  datatype Table = Table(cols: nat, specs: seq<Spec>, rows: int, start: nat)

  function ReadInt(b: seq<Byte>, at: nat): (r: Option<Read<int>>)
    requires at <= |b|
    ensures r.Some? ==> at <= r.value.at <= |b|
  {
    if |b| - at < 4 then None else Some(Read(Int32(Unsigned32(b[at..])), at + 4))
  }

  /** `CqlMetaData::Decode` and `DecodeRowsCount`, after the result kind; paging, on which it aborts, is a failure. */
  function ReadTable(b: seq<Byte>, at: nat): (r: Option<Table>)
    requires at <= |b|
    ensures r.Some? ==> r.value.start <= |b|
  {
    var flags := if |b| - at < 4 then Read(0, at) else Read(Int32(Unsigned32(b[at..])), at + 4);
    var cols :- ReadInt(b, flags.at);
    if flags.item < 0 || flags.item > 7 || (flags.item / 2) % 2 == 1 || cols.item < 0 then None
    else
      var global := flags.item % 2 == 1;
      var from :- if flags.item < 4 && global then SkipNames(b, cols.at) else Some(cols.at);
      var specs :- if flags.item < 4 then ReadColumns(b, from, global, cols.item) else Some(Read([], from));
      var rows :- ReadInt(b, specs.at);
      Some(Table(cols.item, specs.item, rows.item, rows.at))
  }

  function Prepend(specs: seq<Spec>, r: Option<Read<seq<Spec>>>): Option<Read<seq<Spec>>> {
    match r
    case None => None
    case Some(x) => Some(Read(specs + x.item, x.at))
  }

  /** The loop of `DecodeColumnsSpec`. */
  method DecodeColumnsSpec(b: seq<Byte>, from: nat, global: bool, n: nat) returns (r: Option<Read<seq<Spec>>>)
    requires from <= |b|
    ensures r == ReadColumns(b, from, global, n)
  {
    var at: nat := from;
    var specs: seq<Spec> := [];
    var i := 0;
    hide ReadColumn;
    ghost var all := ReadColumns(b, from, global, n);
    assert all.Some? ==> [] + all.value.item == all.value.item;
    while i != n
      invariant 0 <= i <= n && at <= |b| && all == Prepend(specs, ReadColumns(b, at, global, n - i))
      decreases n - i
    {
      var column := ReadColumn(b, at, global);
      if column.None? {
        return None;
      }
      ghost var others := ReadColumns(b, column.value.at, global, n - i - 1);
      assert others.Some? ==> specs + ([column.value.item] + others.value.item) == specs + [column.value.item] + others.value.item;
      at, specs := column.value.at, specs + [column.value.item];
      i := i + 1;
    }
    assert specs + [] == specs;
    return Some(Read(specs, at));
  }

  // ---------------------------------------------------------------------------------------------
  // Lookups
  // ---------------------------------------------------------------------------------------------

  /** `rows_count() <= index` compares as `size_t`, so a negative count admits every index. */
  predicate RowExists(rows: int, index: nat) {
    index < if rows < 0 then rows + TWO_64 else rows
  }

  /** `CheckCppTypeCategories`. */
  predicate Matches(id: int, ty: Type) {
    ty.TText?
    || (id == BOOLEAN && ty.TBool?) || (id == INT && ty.TInt32?) || (id == BIGINT && ty.TInt64?)
    || (id == FLOAT && ty.TFloat?) || (id == DOUBLE && ty.TDouble?)
  }

  /** The type checks of the four forms of `DecodeColumnValueOfRow`. */
  predicate Readable(spec: Spec, ty: Type) {
    match ty
    case TList(e) => spec.id == LIST && |spec.elements| >= 1 && Matches(spec.elements[0], e)
    case TSet(e) => spec.id == SET && |spec.elements| >= 1 && Matches(spec.elements[0], e)
    case TMap(k, v) => spec.id == MAP && |spec.elements| >= 2 && Matches(spec.elements[0], k) && Matches(spec.elements[1], v)
    case _ => Matches(spec.id, ty)
  }

  /** A lookup answered by scanning all cells from the first row, with no memory of earlier lookups. */
  function FreshLookup(lt: Order, b: seq<Byte>, t: Table, name: seq<Byte>, row: nat, ty: Type): Decoded<Value>
    requires t.start <= |b|
  {
    match (Skip(b, t.start, row * t.cols), Offset(t.specs, name))
    case (Some(_), Some(col)) =>
      if !RowExists(t.rows, row) || col >= |t.specs| || !Readable(t.specs[col], ty) then Failure
      else
        (match Skip(b, t.start, row * t.cols + col)
         case None => Failure
         case Some(at) => Decode(lt, ty, b[at..]))
    case _ => Failure
  }

  lemma {:induction false} OffsetInRange(specs: seq<Spec>, name: seq<Byte>)
    ensures Offset(specs, name).Some? ==>
              var i := Offset(specs, name).value;
              i < |specs| && specs[i].name == name && forall j :: 0 <= j < i ==> specs[j].name != name
    ensures Offset(specs, name).None? ==> forall j :: 0 <= j < |specs| ==> specs[j].name != name
  {
    if specs != [] {
      OffsetInRange(specs[..|specs| - 1], name);
    }
  }

  class Decoder {
    const body: seq<Byte>
    var rowsIter: seq<nat>
    var table: Table

    /** The cached iterators are the row starts a fresh scan would find. */
    ghost predicate Valid()
      reads this
    {
      && table.start <= |body| && |rowsIter| >= 1
      && forall i :: 0 <= i < |rowsIter| ==> RowStart(body, table.start, table.cols, i) == Some(rowsIter[i])
    }

    /** After `DecodeCqlResult` the index holds the first row only. */
    constructor (body: seq<Byte>, table: Table)
      requires table.start <= |body|
      ensures Valid() && this.body == body && this.table == table
    {
      this.body := body;
      this.table := table;
      rowsIter := [table.start];
    }

    /** `ForwardToColumnOfRow`, and the loop of `BuildNextRowIter`. */
    method Forward(from: nat, cells: nat) returns (to: Option<nat>)
      requires from <= |body|
      ensures to == Skip(body, from, cells)
    {
      var at: nat := from;
      var i := 0;
      while i != cells
        invariant 0 <= i <= cells && at <= |body| && Skip(body, from, cells) == Skip(body, at, cells - i)
        decreases cells - i
      {
        var next := SkipCell(body, at);
        if next.None? {
          return None;
        }
        at := next.value;
        i := i + 1;
      }
      return Some(at);
    }

    method BuildNextRowIter() returns (ok: bool)
      requires Valid()
      modifies this`rowsIter
      ensures Valid()
      ensures ok <==> RowStart(body, table.start, table.cols, old(|rowsIter|)).Some?
      ensures ok ==> |rowsIter| == old(|rowsIter|) + 1
      ensures !ok ==> rowsIter == old(rowsIter)
    {
      var last := rowsIter[|rowsIter| - 1];
      assert RowStart(body, table.start, table.cols, |rowsIter| - 1) == Some(last);
      var next := Forward(last, table.cols);
      if next.None? {
        return false;
      }
      rowsIter := rowsIter + [next.value];
      return true;
    }

    /** Whatever has been looked up before, the row found is the one a fresh scan finds. */
    method GetRowIter(index: nat) returns (at: Option<nat>)
      requires Valid()
      modifies this`rowsIter
      ensures Valid()
      ensures at == if RowExists(table.rows, index) then RowStart(body, table.start, table.cols, index) else None
    {
      if !RowExists(table.rows, index) {
        return None;
      }
      while |rowsIter| <= index
        invariant Valid()
        decreases index - |rowsIter|
      {
        var ok := BuildNextRowIter();
        if !ok {
          NoLaterRow(body, table.start, table.cols, |rowsIter|, index);
          return None;
        }
      }
      return Some(rowsIter[index]);
    }

    method DecodeColumnValueOfRow(lt: Order, name: seq<Byte>, row: nat, ty: Type) returns (code: int, out: Value)
      requires Valid()
      modifies this`rowsIter
      ensures Valid()
      ensures var d := FreshLookup(lt, body, table, name, row, ty); code == Code(d) && (d.Success? ==> out == d.value)
    {
      hide Skip, RowStart, Offset, Decode, Default, Readable, RowExists;
      out := Default(ty);
      RowStartIsScan(body, table.start, table.cols, row);
      var at := GetRowIter(row);
      if at.None? {
        return -1, out;
      }
      var col := Offset(table.specs, name);
      if col.None? {
        return -1, out;
      }
      if col.value >= |table.specs| || !Readable(table.specs[col.value], ty) {
        return -1, out;
      }
      SkipSplits(body, table.start, row * table.cols, col.value);
      var cell := Forward(at.value, col.value);
      if cell.None? {
        return -1, out;
      }
      var iter := new BytesIterator(body[cell.value..]);
      code, out := DecodeBytes(lt, ty, iter);
    }
  }

  /** Once a row cannot be reached, no later one can. */
  lemma {:induction false} NoLaterRow(b: seq<Byte>, start: nat, cols: nat, r: nat, later: nat)
    requires start <= |b| && r <= later && RowStart(b, start, cols, r).None?
    ensures RowStart(b, start, cols, later).None?
    decreases later
  {
    if r < later {
      NoLaterRow(b, start, cols, r, later - 1);
    }
  }
}
