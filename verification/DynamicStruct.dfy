/**
 The schema, the struct data and the pool of reusable structs as they are written: lists and buffers changed in
 place (example/brpc/dynamic_struct.h:321-330, dynamic_struct.hpp:60-113, 149-244, 389-409).
 */
module DynamicStruct {
  import opened Arith
  import opened BlockSize
  import opened StructData
  import opened StructLayout

  class BaseSchema {
    var fieldMap: map<string, Field>
    var constructors: seq<Entry>
    var cleaners: seq<Entry>
    var allocateAlign: nat
    var allocateSize: nat
    var baseOffset: nat
    var unalignedSize: nat
    /** The fields in the order of registration. */
    ghost var fields: seq<Field>

    ghost function Abs(): Schema
      reads this
    {
      Schema(fields, fieldMap, constructors, cleaners, allocateAlign, allocateSize, baseOffset, unalignedSize)
    }

    constructor ()
      ensures Abs() == NewSchema() && Ready(Abs())
    {
      fieldMap, constructors, cleaners, fields := map[], [], [], [];
      allocateAlign, allocateSize, baseOffset, unalignedSize := META_ALIGN, META_SIZE, META_SIZE, META_SIZE;
    }

    /** `add_field_and_caculate_size`. */
    method AddFieldAndCalculateSize(k: Kind) returns (offset: nat)
      requires Ready(Abs()) && ValidKind(k)
      modifies this`unalignedSize, this`allocateAlign, this`allocateSize
      ensures offset == NextField(old(Abs()), k).offset
      ensures unalignedSize == baseOffset + offset + k.size && allocateAlign == Max(old(allocateAlign), k.align)
      ensures allocateSize == AlignUp(unalignedSize, allocateAlign)
    {
      hide AlignUp, IsPow2, EndsBy;
      PositivePow2(k.align);
      var start := AlignUp(unalignedSize, k.align);
      AlignUpSpec(unalignedSize, k.align);
      unalignedSize := start + k.size;
      allocateAlign := if allocateAlign >= k.align then allocateAlign else k.align;
      allocateSize := AlignUp(unalignedSize, allocateAlign);
      offset := start - baseOffset;
    }

    /** `add_constructor`. */
    method AddConstructor(f: Field)
      requires EndsBy(constructors, f.offset)
      modifies this`constructors
      ensures constructors == AddEntry(old(constructors), f)
    {
      if f.kind.trivial {
        if |constructors| == 0 || !constructors[|constructors| - 1].Zero? {
          constructors := constructors + [Zero(f.offset, f.kind.size)];
        } else {
          var last := |constructors| - 1;
          var z := constructors[last];
          constructors := constructors[last := Zero(z.offset, f.offset - z.offset + f.kind.size)];
        }
      } else {
        constructors := constructors + [Make(f.offset, f.kind.size, f.kind.id)];
      }
    }

    /** `add_cleaner`. */
    method AddCleaner(f: Field)
      requires EndsBy(cleaners, f.offset)
      modifies this`cleaners
      ensures cleaners == AddEntry(old(cleaners), f)
    {
      if f.kind.trivial {
        if |cleaners| == 0 || !cleaners[|cleaners| - 1].Zero? {
          cleaners := cleaners + [Zero(f.offset, f.kind.size)];
        } else {
          var last := |cleaners| - 1;
          var z := cleaners[last];
          cleaners := cleaners[last := Zero(z.offset, f.offset - z.offset + f.kind.size)];
        }
      } else {
        cleaners := cleaners + [Make(f.offset, f.kind.size, f.kind.id)];
      }
    }

    /** `register_field` with a computed offset; the result is the offset in the accessor. */
    method RegisterField(name: string, k: Kind) returns (offset: nat)
      requires Ready(Abs()) && ValidKind(k)
      modifies this
      ensures Abs() == Registered(old(Abs()), name, k) && Ready(Abs())
      ensures name in Abs().names && offset == Abs().names[name].offset
    {
      hide AddEntry, AlignUp, IsPow2;
      if name in fieldMap {
        return fieldMap[name].offset;
      }
      PositivePow2(k.align);
      AlignUpSpec(unalignedSize, k.align);
      offset := AddFieldAndCalculateSize(k);
      var f := Field(offset, k);
      AddConstructor(f);
      AddCleaner(f);
      fieldMap := fieldMap[name := f];
      fields := fields + [f];
    }

    /** `construct_all`. */
    method ConstructAll(data: array<Cell>)
      requires Fits(constructors, data.Length)
      modifies data
      ensures data[..] == RunAll(constructors, old(data[..]))
    {
      RunEntries(constructors, data);
    }

    /** `clear_all`; `reset` is what the types do when one of their objects is reset. */
    method ClearAll(data: array<Cell>, reset: Reset)
      requires Fits(cleaners, data.Length) && KeepsSize(reset)
      modifies data
      ensures data[..] == ResetAll(reset, cleaners, old(data[..]))
    {
      var i := 0;
      while i < |cleaners|
        invariant 0 <= i <= |cleaners| && data[..] == ResetAll(reset, cleaners[..i], old(data[..]))
      {
        assert cleaners[..i + 1][..i] == cleaners[..i];
        ResetEntry(cleaners[i], data, reset);
        i := i + 1;
      }
      assert cleaners[..i] == cleaners;
    }
  }

  /** `fill_with_zero`, or the reset of one object in its place. */
  method ResetEntry(e: Entry, data: array<Cell>, reset: Reset)
    requires e.offset + e.size <= data.Length && KeepsSize(reset)
    modifies data
    ensures data[..] == ResetOne(reset, e, old(data[..]))
  {
    match e
    case Zero(_, _) => RunEntry(e, data);
    case Make(offset, size, id) =>
      var cells := reset(id, data[offset..offset + size]);
      assert |cells| == size;
      var i := 0;
      while i < size
        invariant 0 <= i <= size
        invariant forall q :: 0 <= q < data.Length ==> data[q] == if offset <= q < offset + i then cells[q - offset] else old(data[q])
      {
        data[offset + i] := cells[i];
        i := i + 1;
      }
  }

  /** Runs every entry of a list, in order, on the data of one struct. */
  method RunEntries(es: seq<Entry>, data: array<Cell>)
    requires Fits(es, data.Length)
    modifies data
    ensures data[..] == RunAll(es, old(data[..]))
  {
    var i := 0;
    while i < |es|
      invariant 0 <= i <= |es| && data[..] == RunAll(es[..i], old(data[..]))
    {
      assert es[..i + 1][..i] == es[..i];
      RunEntry(es[i], data);
      i := i + 1;
    }
    assert es[..i] == es;
  }

  /** `fill_with_zero`, or the construction of one object. */
  method RunEntry(e: Entry, data: array<Cell>)
    requires e.offset + e.size <= data.Length
    modifies data
    ensures data[..] == RunOne(e, old(data[..]))
  {
    var p := e.offset;
    while p < e.offset + e.size
      invariant e.offset <= p <= e.offset + e.size
      invariant forall q :: 0 <= q < data.Length ==> data[q] == if e.offset <= q < p then EntryCell(e, q) else old(data[q])
    {
      data[p] := EntryCell(e, p);
      p := p + 1;
    }
  }

  /** `ReuseDynamicStructPool` over a schema that no longer changes. */
  class ReusePool {
    const schema: BaseSchema
    const reset: Reset
    var structs: seq<array<Cell>>
    var useNum: nat

    /** The schema is one that registrations lead to, and its types can be reset. */
    ghost predicate SchemaOk()
      reads schema
    {
      Laid(schema.Abs()) && Restores(reset, schema.fields)
    }

    /** Every struct has room for the data, and no two are the same. */
    ghost predicate Shaped()
      reads this, schema
    {
      && SchemaOk() && useNum <= |structs|
      && (forall i :: 0 <= i < |structs| ==> structs[i].Length == DataSize(schema.Abs()))
      && (forall i, j :: 0 <= i < j < |structs| ==> structs[i] != structs[j])
    }

    /** The structs not in use are as constructed; those in use may hold anything. */
    ghost predicate Valid()
      reads this, schema, structs
    {
      Shaped() && forall i :: useNum <= i < |structs| ==> AllInitial(schema.fields, structs[i][..])
    }

    constructor (schema: BaseSchema, reset: Reset)
      requires Laid(schema.Abs()) && Restores(reset, schema.fields)
      ensures Valid() && this.schema == schema && structs == [] && useNum == 0
    {
      this.schema := schema;
      this.reset := reset;
      structs, useNum := [], 0;
    }

    /** A new struct, constructed. */
    method CreateStruct() returns (data: array<Cell>)
      requires SchemaOk()
      ensures fresh(data) && data.Length == DataSize(schema.Abs()) && AllInitial(schema.fields, data[..])
    {
      hide LaidOut, ListsOk, AllInitial, RunAll, Fits, Restores;
      ghost var s := schema.Abs();
      EntriesFit(s);
      FieldsFit(s);
      data := new Cell[schema.allocateSize - schema.baseOffset];
      AllConstructed(s, data[..]);
      schema.ConstructAll(data);
    }

    /** `get`: the next struct not in use, or a new one; either way it is as constructed. */
    method Get() returns (data: array<Cell>)
      requires Valid()
      modifies this
      ensures Valid() && useNum == old(useNum) + 1 && data == structs[old(useNum)] && AllInitial(schema.fields, data[..])
      ensures structs == old(structs) || (structs == old(structs) + [data] && fresh(data))
    {
      hide SchemaOk, AllInitial;
      if useNum == |structs| {
        data := CreateStruct();
        structs := structs + [data];
        useNum := useNum + 1;
      } else {
        data := structs[useNum];
        useNum := useNum + 1;
      }
    }

    /** Whoever holds a struct that is in use may write to it. */
    method Write(i: nat, p: nat, c: Cell)
      requires Valid() && i < useNum && p < structs[i].Length
      modifies structs[i]
      ensures Valid()
    {
      hide SchemaOk;
      structs[i][p] := c;
    }

    /** `reconstruct`: every struct in use is cleared and given back. */
    method Reconstruct()
      requires Valid()
      modifies this`useNum, structs
      ensures Valid() && useNum == 0
    {
      hide SchemaOk, AllInitial, Fits, ResetAll, KeepsSize;
      ghost var s := schema.Abs();
      SchemaFits();
      var i := 0;
      while i < useNum
        invariant 0 <= i <= useNum && Shaped()
        invariant forall j :: 0 <= j < i ==> AllInitial(schema.fields, structs[j][..])
        invariant forall j :: useNum <= j < |structs| ==> AllInitial(schema.fields, structs[j][..])
      {
        SchemaRestores(structs[i][..]);
        schema.ClearAll(structs[i], reset);
        i := i + 1;
      }
      useNum := 0;
    }

    lemma SchemaFits()
      requires SchemaOk()
      ensures schema.baseOffset <= schema.allocateSize && Fits(schema.cleaners, DataSize(schema.Abs())) && KeepsSize(reset)
    {
      EntriesFit(schema.Abs());
    }

    lemma SchemaRestores(m: seq<Cell>)
      requires SchemaOk() && schema.baseOffset <= schema.allocateSize && |m| == DataSize(schema.Abs())
      ensures AllInitial(schema.fields, ResetAll(reset, schema.cleaners, m))
    {
      AllReset(schema.Abs(), reset, m);
    }
  }

  /** Resetting an object of any field's type, whatever it holds, leaves it as construction does. */
  ghost predicate Restores(reset: Reset, fields: seq<Field>) {
    && KeepsSize(reset)
    && forall k, m :: 0 <= k < |fields| && !fields[k].kind.trivial && |m| == fields[k].kind.size ==> reset(fields[k].kind.id, m) == Constructed(fields[k])
  }

  lemma BytesAreInitial(f: Field, m: seq<Cell>)
    requires f.offset + f.kind.size <= |m| && Bytes(f, m) == Constructed(f)
    ensures IsInitial(f, m)
  {
    forall i | 0 <= i < f.kind.size
      ensures m[f.offset + i] == Initial(f, i)
    {
      assert Bytes(f, m)[i] == Constructed(f)[i];
    }
  }

  /** The constructor list initializes every field of data of any content. */
  lemma AllConstructed(s: Schema, m: seq<Cell>)
    requires Laid(s) && s.base <= s.size && |m| == DataSize(s)
    ensures AllInitial(s.fields, RunAll(s.constructors, m))
  {
    hide LaidOut, RunAll, Complete, IsInitial;
    FieldsFit(s);
    CompleteIsInitial(s.constructors, s.fields, m);
  }

  /** So does the cleaner list, if the types can be reset. */
  lemma AllReset(s: Schema, reset: Reset, m: seq<Cell>)
    requires Laid(s) && Restores(reset, s.fields) && s.base <= s.size && |m| == DataSize(s)
    ensures AllInitial(s.fields, ResetAll(reset, s.cleaners, m))
  {
    hide Laid, ResetAll, IsInitial, Constructed;
    var r := ResetAll(reset, s.cleaners, m);
    forall k | 0 <= k < |s.fields|
      ensures IsInitial(s.fields[k], r)
    {
      ClearMeans(s, reset, m, k);
      BytesAreInitial(s.fields[k], r);
    }
  }
}
