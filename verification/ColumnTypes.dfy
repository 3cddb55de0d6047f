/**
 The column types of section 4.2.5.2 of the CQL binary protocol v3, nested to any depth, with their encoding;
 and exactly which of them the decoder reads (external/brpc/922.patch.new:1550-1607).
 */
module ColumnTypes {
  import opened Bytes
  import opened RowsResult
  import opened Wrappers

  /** An [option]: a simple type, or one that is made of other types. */
  datatype ColumnType =
    | Simple(id: int)
    | CustomType(className: seq<Byte>)
    | ListOf(elem: ColumnType)
    | SetOf(elem: ColumnType)
    | MapOf(key: ColumnType, val: ColumnType)
    | TupleOf(fields: seq<ColumnType>)
    | UserType(keyspace: seq<Byte>, name: seq<Byte>, labels: seq<seq<Byte>>, fields: seq<ColumnType>)

  function EncodeString(s: seq<Byte>): seq<Byte> {
    Encode16(|s|) + s
  }

  function Id(t: ColumnType): int {
    match t
    case Simple(id) => id
    case CustomType(_) => 0x00
    case ListOf(_) => 0x20
    case MapOf(_, _) => 0x21
    case SetOf(_) => 0x22
    case UserType(_, _, _, _) => 0x30
    case TupleOf(_) => 0x31
  }

  function EncodeType(t: ColumnType): seq<Byte> {
    Encode16(Id(t)) +
    match t
    case Simple(_) => []
    case CustomType(className) => EncodeString(className)
    case ListOf(elem) => EncodeType(elem)
    case SetOf(elem) => EncodeType(elem)
    case MapOf(key, val) => EncodeType(key) + EncodeType(val)
    case TupleOf(fields) => Encode16(|fields|) + EncodeTypes(fields)
    case UserType(keyspace, name, labels, fields) =>
      EncodeString(keyspace) + EncodeString(name) + Encode16(|fields|) + EncodeFields(labels, fields)
  }

  function EncodeTypes(ts: seq<ColumnType>): seq<Byte> {
    if ts == [] then [] else EncodeType(ts[0]) + EncodeTypes(ts[1..])
  }

  function EncodeFields(labels: seq<seq<Byte>>, ts: seq<ColumnType>): seq<Byte>
    decreases ts
  {
    if ts == [] then []
    else (if labels == [] then [] else EncodeString(labels[0])) + EncodeType(ts[0]) + EncodeFields(if labels == [] then [] else labels[1..], ts[1..])
  }

  /** The simple types have ids of their own. */
  predicate SimpleId(id: int) {
    0x00 < id < 0xFFFF && id != 0x20 && id != 0x21 && id != 0x22 && id != 0x30 && id != 0x31
  }

  predicate TypeOk(t: ColumnType) {
    match t
    case Simple(id) => SimpleId(id)
    case CustomType(className) => |className| < TWO_16
    case ListOf(elem) => TypeOk(elem)
    case SetOf(elem) => TypeOk(elem)
    case MapOf(key, val) => TypeOk(key) && TypeOk(val)
    case TupleOf(fields) => |fields| < TWO_16 && forall i :: 0 <= i < |fields| ==> TypeOk(fields[i])
    case UserType(keyspace, name, labels, fields) =>
      && |keyspace| < TWO_16 && |name| < TWO_16 && |labels| == |fields| < TWO_16
      && (forall i :: 0 <= i < |labels| ==> |labels[i]| < TWO_16) && (forall i :: 0 <= i < |fields| ==> TypeOk(fields[i]))
  }

  /** The types whose encodings follow the head of a collection or tuple. */
  function Parts(t: ColumnType): seq<ColumnType> {
    match t
    case ListOf(elem) => [elem]
    case SetOf(elem) => [elem]
    case MapOf(key, val) => [key, val]
    case TupleOf(fields) => fields
    case _ => []
  }

  predicate Composite(t: ColumnType) {
    t.ListOf? || t.SetOf? || t.MapOf? || t.TupleOf?
  }

  predicate AllSimple(ts: seq<ColumnType>) {
    forall i :: 0 <= i < |ts| ==> ts[i].Simple?
  }

  /** A simple type, or a collection or tuple of simple types. */
  predicate Flat(t: ColumnType) {
    t.Simple? || (Composite(t) && AllSimple(Parts(t)))
  }

  function Ids(ts: seq<ColumnType>): seq<int> {
    seq(|ts|, i requires 0 <= i < |ts| => Id(ts[i]))
  }

  /** The number of fields, which a tuple has in front of them. */
  function Count(t: ColumnType): seq<Byte> {
    if t.TupleOf? then Encode16(|t.fields|) else []
  }

  // ---------------------------------------------------------------------------------------------
  // Pieces of a body
  // ---------------------------------------------------------------------------------------------

  /** At offset `at` of `b` there is `piece`, followed by `rest`. */
  ghost predicate At(b: seq<Byte>, at: nat, piece: seq<Byte>, rest: seq<Byte>) {
    at <= |b| && b[at..] == piece + rest
  }

  lemma AtNext(b: seq<Byte>, at: nat, piece: seq<Byte>, next: seq<Byte>, rest: seq<Byte>)
    requires At(b, at, piece + next, rest)
    ensures At(b, at, piece, next + rest) && At(b, at + |piece|, next, rest)
  {
    assert (piece + next) + rest == piece + (next + rest);
    assert b[at + |piece|..] == b[at..][|piece|..];
  }

  lemma AtSkip(b: seq<Byte>, at: nat, piece: seq<Byte>, rest: seq<Byte>)
    requires At(b, at, piece, rest)
    ensures at + |piece| <= |b| && b[at + |piece|..] == rest
  {
    assert b[at + |piece|..] == b[at..][|piece|..];
  }

  // ---------------------------------------------------------------------------------------------
  // Sizes
  // ---------------------------------------------------------------------------------------------

  lemma {:induction false} SizeOfType(t: ColumnType)
    ensures |EncodeType(t)| >= 2 && (|EncodeType(t)| == 2 <==> t.Simple?)
  {
    match t
    case ListOf(elem) => SizeOfType(elem);
    case SetOf(elem) => SizeOfType(elem);
    case MapOf(key, val) => SizeOfType(key); SizeOfType(val);
    case _ =>
  }

  /** Simple types take two bytes each, others more. */
  lemma {:induction false} SizeOfTypes(ts: seq<ColumnType>)
    ensures |EncodeTypes(ts)| >= 2 * |ts| && (|EncodeTypes(ts)| == 2 * |ts| <==> AllSimple(ts))
  {
    if ts != [] {
      SizeOfType(ts[0]);
      SizeOfTypes(ts[1..]);
      assert forall i :: 0 <= i < |ts| - 1 ==> ts[1..][i] == ts[i + 1];
      assert AllSimple(ts) <==> ts[0].Simple? && AllSimple(ts[1..]) by {
        assert forall i :: 1 <= i < |ts| ==> ts[i] == ts[1..][i - 1];
      }
    }
  }

  /** How a collection or tuple is encoded. */
  lemma Shape(t: ColumnType)
    requires Composite(t)
    ensures EncodeType(t) == Encode16(Id(t)) + (Count(t) + EncodeTypes(Parts(t)))
  {
    hide Encode16;
    match t
    case ListOf(elem) => OneType(elem);
    case SetOf(elem) => OneType(elem);
    case MapOf(key, val) =>
      OneType(val);
      assert [key, val][1..] == [val];
    case TupleOf(_) =>
  }

  lemma OneType(t: ColumnType)
    ensures EncodeTypes([t]) == EncodeType(t)
  {
    assert [t][1..] == [];
    assert EncodeTypes([t]) == EncodeType(t) + [];
  }

  // ---------------------------------------------------------------------------------------------
  // What the decoder makes of a type
  // ---------------------------------------------------------------------------------------------

  /** The ids that the decoder accepts. */
  predicate Accepted(id: int) {
    0 <= id < TWO_16 && id != CUSTOM && id != UDT && id != DUMMY
  }

  lemma OptionReads(b: seq<Byte>, at: nat, id: int, rest: seq<Byte>)
    requires At(b, at, Encode16(id), rest) && 0 <= id < TWO_16
    ensures ReadOption(b, at) == if Accepted(id) then Some(Read(id, at + 2)) else None
  {
    Decode16(id, rest);
  }

  lemma {:induction false} OptionsAdvance(b: seq<Byte>, at: nat, n: nat)
    requires at <= |b|
    ensures ReadOptions(b, at, n).Some? ==> ReadOptions(b, at, n).value.at == at + 2 * n
    decreases n
  {
    if n > 0 && ReadOption(b, at).Some? {
      OptionsAdvance(b, at + 2, n - 1);
    }
  }

  lemma {:induction false} SimpleOptionsRead(b: seq<Byte>, at: nat, ts: seq<ColumnType>, rest: seq<Byte>)
    requires At(b, at, EncodeTypes(ts), rest) && AllSimple(ts) && forall i :: 0 <= i < |ts| ==> TypeOk(ts[i])
    ensures ReadOptions(b, at, |ts|) == Some(Read(Ids(ts), at + |EncodeTypes(ts)|))
    decreases |ts|
  {
    if ts != [] {
      var first, others := EncodeType(ts[0]), EncodeTypes(ts[1..]);
      AtNext(b, at, first, others, rest);
      OptionReads(b, at, ts[0].id, others + rest);
      SimpleOptionsRead(b, at + 2, ts[1..], rest);
      assert [Id(ts[0])] + Ids(ts[1..]) == Ids(ts);
    }
  }

  lemma CountReads(b: seq<Byte>, at: nat, t: ColumnType, rest: seq<Byte>)
    requires TypeOk(t) && Composite(t) && At(b, at, Count(t), rest) && |rest| >= 1
    ensures ElementCount(b, Id(t), at) == Some(Read(|Parts(t)|, at + |Count(t)|))
  {
    if t.TupleOf? {
      Decode16(|t.fields|, rest);
    }
  }

  lemma PartsOk(t: ColumnType)
    requires TypeOk(t)
    ensures forall i :: 0 <= i < |Parts(t)| ==> TypeOk(Parts(t)[i])
  {
  }

  /** The decoder has read the type `t`, encoded at offset `at`, and stands just after it. */
  ghost predicate TypeRead(b: seq<Byte>, at: nat, t: ColumnType)
    requires at <= |b|
  {
    ReadType(b, at) == Some(Read((Id(t), Ids(Parts(t))), at + |EncodeType(t)|))
  }

  /** The decoder stops before the end of the type. */
  ghost predicate StopsShort(b: seq<Byte>, at: nat, t: ColumnType)
    requires at <= |b|
  {
    ReadType(b, at).None? || ReadType(b, at).value.at < at + |EncodeType(t)|
  }

  lemma CompositeReads(b: seq<Byte>, at: nat, t: ColumnType, rest: seq<Byte>)
    requires TypeOk(t) && Composite(t) && At(b, at, EncodeType(t), rest) && |rest| >= 1
    ensures if AllSimple(Parts(t)) then TypeRead(b, at, t) else StopsShort(b, at, t)
  {
    hide ReadOption, ReadOptions, ElementCount, EncodeTypes, EncodeType, TypeOk, AllSimple, Encode16;
    var ts, n := Parts(t), Count(t);
    Shape(t);
    AtNext(b, at, Encode16(Id(t)), n + EncodeTypes(ts), rest);
    OptionReads(b, at, Id(t), (n + EncodeTypes(ts)) + rest);
    AtNext(b, at + 2, n, EncodeTypes(ts), rest);
    CountReads(b, at + 2, t, EncodeTypes(ts) + rest);
    SizeOfTypes(ts);
    OptionsAdvance(b, at + 2 + |n|, |ts|);
    PartsOk(t);
    if AllSimple(ts) {
      SimpleOptionsRead(b, at + 2 + |n|, ts, rest);
    }
  }

  lemma LeafReads(b: seq<Byte>, at: nat, t: ColumnType, rest: seq<Byte>)
    requires TypeOk(t) && !Composite(t) && At(b, at, EncodeType(t), rest)
    ensures if t.Simple? then TypeRead(b, at, t) else StopsShort(b, at, t)
  {
    match t
    case Simple(id) =>
      OptionReads(b, at, id, rest);
      assert Ids([]) == [];
    case CustomType(className) =>
      AtNext(b, at, Encode16(CUSTOM), EncodeString(className), rest);
      OptionReads(b, at, CUSTOM, EncodeString(className) + rest);
    case UserType(keyspace, name, labels, fields) =>
      var more := EncodeString(keyspace) + EncodeString(name) + Encode16(|fields|) + EncodeFields(labels, fields);
      AtNext(b, at, Encode16(UDT), more, rest);
      OptionReads(b, at, UDT, more + rest);
  }

  /** The decoder reads a type and stands just after it if and only if the type is flat; otherwise it stops short or fails. */
  lemma TypeReadExactly(b: seq<Byte>, at: nat, t: ColumnType, rest: seq<Byte>)
    requires TypeOk(t) && At(b, at, EncodeType(t), rest) && |rest| >= 1
    ensures TypeRead(b, at, t) <==> Flat(t)
    ensures !Flat(t) ==> StopsShort(b, at, t)
  {
    hide ReadType, EncodeType, TypeOk;
    if Composite(t) {
      CompositeReads(b, at, t, rest);
    } else {
      LeafReads(b, at, t, rest);
    }
  }
}
