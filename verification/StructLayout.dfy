/**
 The layout that a schema computes while fields are registered, and its lists of constructors and cleaners in
 which neighbouring zero-fills are merged (example/brpc/dynamic_struct.h:321-330, dynamic_struct.hpp:60-244).
 */
module StructLayout {
  import opened Arith
  import opened BlockSize

  /** `sizeof` and `alignof` of a field's type, whether it is trivial, and which type it is. */
  datatype Kind = Kind(size: nat, align: nat, trivial: bool, id: nat)

  /** A registered field; its offset is relative to the data, which follows the schema pointer. */
  datatype Field = Field(offset: nat, kind: Kind)

  /** An entry of the constructor or cleaner list: zero a range, or make one object. */
  datatype Entry = Zero(offset: nat, size: nat) | Make(offset: nat, size: nat, id: nat)

  datatype Schema = Schema(
    fields: seq<Field>, names: map<string, Field>, constructors: seq<Entry>, cleaners: seq<Entry>,
    align: nat, size: nat, base: nat, end: nat)

  const META_SIZE: nat := 8
  const META_ALIGN: nat := 8

  predicate ValidKind(k: Kind) {
    k.size > 0 && IsPow2(k.align)
  }

  /** A schema without fields: only the pointer to the schema itself. */
  function NewSchema(): Schema {
    Schema([], map[], [], [], META_ALIGN, META_SIZE, META_SIZE, META_SIZE)
  }

  // ---------------------------------------------------------------------------------------------
  // Registration
  // ---------------------------------------------------------------------------------------------

  predicate EndsBy(es: seq<Entry>, limit: nat) {
    es == [] || es[|es| - 1].offset + es[|es| - 1].size <= limit
  }

  /** `add_constructor` and `add_cleaner`: a trivial field after a zero-fill extends it. */
  function AddEntry(es: seq<Entry>, f: Field): seq<Entry>
    requires EndsBy(es, f.offset)
  {
    if !f.kind.trivial then es + [Make(f.offset, f.kind.size, f.kind.id)]
    else if es == [] || !es[|es| - 1].Zero? then es + [Zero(f.offset, f.kind.size)]
    else
      var z := es[|es| - 1];
      es[|es| - 1 := Zero(z.offset, f.offset - z.offset + f.kind.size)]
  }

  function Max(a: nat, b: nat): nat {
    if a >= b then a else b
  }

  /** What later registrations rely on. */
  predicate Ready(s: Schema) {
    s.base <= s.end && s.align > 0 && EndsBy(s.constructors, s.end - s.base) && EndsBy(s.cleaners, s.end - s.base)
  }

  /** Where `add_field_and_caculate_size` puts the next field. */
  function NextField(s: Schema, k: Kind): Field
    requires Ready(s) && ValidKind(k)
  {
    AlignUpSpec(s.end, k.align);
    Field(AlignUp(s.end, k.align) - s.base, k)
  }

  /** The schema with one more field. */
  function Added(s: Schema, name: string, k: Kind): (t: Schema)
    requires Ready(s) && ValidKind(k)
    ensures Ready(t)
  {
    AlignUpSpec(s.end, k.align);
    var f := NextField(s, k);
    var end := s.base + f.offset + k.size;
    var align := Max(s.align, k.align);
    Schema(s.fields + [f], s.names[name := f], AddEntry(s.constructors, f), AddEntry(s.cleaners, f),
           align, AlignUp(end, align), s.base, end)
  }

  /** `register_field` with a computed offset: a name that is known already changes nothing. */
  function Registered(s: Schema, name: string, k: Kind): (t: Schema)
    requires Ready(s) && ValidKind(k)
    ensures Ready(t)
  {
    if name in s.names then s else Added(s, name, k)
  }

  datatype Registration = Registration(name: string, kind: Kind)

  predicate ValidRegistrations(rs: seq<Registration>) {
    forall i :: 0 <= i < |rs| ==> ValidKind(rs[i].kind)
  }

  /** The schema after any sequence of registrations. */
  function Build(rs: seq<Registration>): (s: Schema)
    requires ValidRegistrations(rs)
    ensures Ready(s)
  {
    if rs == [] then NewSchema()
    else Registered(Build(rs[..|rs| - 1]), rs[|rs| - 1].name, rs[|rs| - 1].kind)
  }

  // ---------------------------------------------------------------------------------------------
  // The layout
  // ---------------------------------------------------------------------------------------------

  ghost predicate FieldOk(s: Schema, f: Field) {
    && ValidKind(f.kind) && s.align > 0 && s.align % f.kind.align == 0
    && (s.base + f.offset) % f.kind.align == 0 && s.base + f.offset + f.kind.size <= s.end
  }

  ghost predicate Apart(fields: seq<Field>) {
    forall i, j :: 0 <= i < j < |fields| ==> fields[i].offset + fields[i].kind.size <= fields[j].offset
  }

  /** Fields are aligned, apart, after the header and inside an allocation that is a multiple of its alignment. */
  ghost predicate LaidOut(s: Schema) {
    && IsPow2(s.align) && s.size % s.align == 0 && s.base <= s.end <= s.size
    && (forall i :: 0 <= i < |s.fields| ==> FieldOk(s, s.fields[i])) && Apart(s.fields)
    && (forall n :: n in s.names ==> s.names[n] in s.fields)
  }

  lemma {:induction false} Pow2Divides(a: nat, b: nat)
    requires IsPow2(a) && IsPow2(b) && a <= b
    ensures b % a == 0
    decreases a
  {
    if a > 1 {
      Pow2Divides(a / 2, b / 2);
      DoubleDivides(a / 2, b / 2);
    }
  }

  lemma DoubleDivides(a: nat, b: nat)
    requires a > 0 && b % a == 0
    ensures (2 * b) % (2 * a) == 0
  {
    var q := b / a;
    assert b == q * a;
    assert 2 * b == q * (2 * a);
    DivModUnique(2 * b, 2 * a, q, 0);
  }

  lemma MaxDivides(a: nat, b: nat, d: nat)
    requires IsPow2(a) && IsPow2(b) && d > 0 && (a % d == 0 || b == d)
    ensures Max(a, b) > 0 && Max(a, b) % d == 0
  {
    PositivePow2(a);
    PositivePow2(b);
    if a % d == 0 && b > a {
      Pow2Divides(a, b);
      DividesTrans(d, a, b);
    } else if b == d && a >= b {
      Pow2Divides(b, a);
    }
  }

  lemma KeepsField(s: Schema, k: Kind, t: Schema, f: Field)
    requires LaidOut(s) && ValidKind(k) && FieldOk(s, f)
    requires t.align == Max(s.align, k.align) && t.base == s.base && s.end <= t.end
    ensures FieldOk(t, f)
  {
    MaxDivides(s.align, k.align, f.kind.align);
  }

  lemma NewFieldOk(s: Schema, name: string, k: Kind)
    requires LaidOut(s) && Ready(s) && ValidKind(k)
    ensures FieldOk(Added(s, name, k), NextField(s, k)) && s.end <= s.base + NextField(s, k).offset
  {
    hide AlignUp, AddEntry;
    AlignUpSpec(s.end, k.align);
    MaxDivides(s.align, k.align, k.align);
  }

  lemma AddedSize(s: Schema, name: string, k: Kind)
    requires LaidOut(s) && Ready(s) && ValidKind(k)
    ensures var t := Added(s, name, k); IsPow2(t.align) && t.size % t.align == 0 && t.base <= t.end <= t.size && t.base == s.base && s.end <= t.end
  {
    hide AlignUp, AddEntry, LaidOut;
    assert IsPow2(s.align) by { LaidOutAlign(s); }
    var t := Added(s, name, k);
    AlignUpSpec(s.end, k.align);
    AlignUpSpec(t.end, t.align);
  }

  lemma LaidOutAlign(s: Schema)
    requires LaidOut(s)
    ensures IsPow2(s.align)
  {
  }

  lemma AddedIsLaidOut(s: Schema, name: string, k: Kind)
    requires LaidOut(s) && Ready(s) && ValidKind(k)
    ensures LaidOut(Added(s, name, k))
  {
    hide AddEntry, FieldOk, AlignUp, IsPow2;
    var t, f := Added(s, name, k), NextField(s, k);
    AddedSize(s, name, k);
    NewFieldOk(s, name, k);
    forall i | 0 <= i < |t.fields|
      ensures FieldOk(t, t.fields[i])
    {
      if i < |s.fields| {
        KeepsField(s, k, t, t.fields[i]);
      }
    }
    forall i, j | 0 <= i < j < |t.fields|
      ensures t.fields[i].offset + t.fields[i].kind.size <= t.fields[j].offset
    {
      if j == |s.fields| {
        FieldEnds(s, s.fields[i]);
      }
    }
  }

  lemma FieldEnds(s: Schema, f: Field)
    requires FieldOk(s, f)
    ensures s.base + f.offset + f.kind.size <= s.end
  {
  }

  /** Every schema is laid out properly, whatever was registered in whatever order. */
  lemma {:induction false} BuildIsLaidOut(rs: seq<Registration>)
    requires ValidRegistrations(rs)
    ensures LaidOut(Build(rs))
  {
    hide LaidOut, Added;
    if rs == [] {
      NewIsLaidOut();
    } else {
      var k := |rs| - 1;
      BuildIsLaidOut(rs[..k]);
      var s := Build(rs[..k]);
      if rs[k].name !in s.names {
        AddedIsLaidOut(s, rs[k].name, rs[k].kind);
      }
    }
  }

  lemma NewIsLaidOut()
    ensures LaidOut(NewSchema())
  {
    assert IsPow2(2) && IsPow2(4);
  }

  /** In memory allocated with the schema's alignment every field is aligned for its type. */
  lemma FieldsAligned(rs: seq<Registration>, i: nat, address: nat)
    requires ValidRegistrations(rs) && i < |Build(rs).fields| && Build(rs).align > 0 && address % Build(rs).align == 0
    ensures var s := Build(rs); var f := s.fields[i]; f.kind.align > 0 && (address + s.base + f.offset) % f.kind.align == 0
  {
    hide Build;
    BuildIsLaidOut(rs);
    var s := Build(rs);
    assert FieldOk(s, s.fields[i]);
    AlignedSum(address, s.align, s.base + s.fields[i].offset, s.fields[i].kind.align);
  }

  /** A registered name keeps its field: registering it again, or anything else, changes nothing about it. */
  lemma {:induction false} NamesKeepFields(rs: seq<Registration>, n: nat, name: string)
    requires ValidRegistrations(rs) && n <= |rs| && name in Build(rs[..n]).names
    ensures name in Build(rs).names && Build(rs).names[name] == Build(rs[..n]).names[name]
    decreases |rs|
  {
    hide Added;
    var k := |rs| - 1;
    if n == |rs| {
      assert rs[..n] == rs;
    } else {
      assert rs[..k][..n] == rs[..n];
      NamesKeepFields(rs[..k], n, name);
      var s := Build(rs[..k]);
      if rs[k].name !in s.names {
        AddedNames(s, rs[k].name, rs[k].kind);
      }
    }
  }

  lemma AddedNames(s: Schema, name: string, k: Kind)
    requires Ready(s) && ValidKind(k)
    ensures Added(s, name, k).names == s.names[name := NextField(s, k)] && Added(s, name, k).fields == s.fields + [NextField(s, k)]
  {
  }

  // ---------------------------------------------------------------------------------------------
  // Nothing is missing and nothing is wasted
  // ---------------------------------------------------------------------------------------------

  /** The field of a name is of the type that was registered first under it, and there is one field for each name. */
  lemma {:induction false} FirstRegistrationCounts(rs: seq<Registration>, i: nat)
    requires ValidRegistrations(rs) && i < |rs| && forall j :: 0 <= j < i ==> rs[j].name != rs[i].name
    ensures rs[i].name in Build(rs).names && Build(rs).names[rs[i].name].kind == rs[i].kind
  {
    hide Build, Added;
    var name := rs[i].name;
    NamesAreRegistered(rs[..i], name);
    assert rs[..i + 1][..i] == rs[..i] && rs[..i + 1][i] == rs[i];
    BuildLast(rs[..i + 1]);
    AddedNames(Build(rs[..i]), name, rs[i].kind);
    NamesKeepFields(rs, i + 1, name);
  }

  lemma BuildLast(rs: seq<Registration>)
    requires ValidRegistrations(rs) && rs != []
    ensures Build(rs) == Registered(Build(rs[..|rs| - 1]), rs[|rs| - 1].name, rs[|rs| - 1].kind)
  {
  }

  /** Only registered names are known, and each has one field. */
  lemma {:induction false} NamesAreRegistered(rs: seq<Registration>, name: string)
    requires ValidRegistrations(rs)
    ensures name in Build(rs).names ==> exists j :: 0 <= j < |rs| && rs[j].name == name
    ensures |Build(rs).fields| == |Build(rs).names|
  {
    hide Added;
    if rs != [] {
      var k := |rs| - 1;
      NamesAreRegistered(rs[..k], name);
      var s := Build(rs[..k]);
      assert forall j :: 0 <= j < k ==> rs[..k][j] == rs[j];
      if rs[k].name !in s.names {
        AddedNames(s, rs[k].name, rs[k].kind);
      }
    }
  }

  /** Where field `i` could begin if no alignment were needed: after the header or after the field before it. */
  function EndBefore(s: Schema, i: nat): nat
    requires i <= |s.fields|
  {
    if i == 0 then 8 else s.base + s.fields[i - 1].offset + s.fields[i - 1].kind.size
  }

  /** The largest alignment of the header and the fields. */
  function LargestAlign(fields: seq<Field>): nat {
    if fields == [] then 8 else Max(LargestAlign(fields[..|fields| - 1]), fields[|fields| - 1].kind.align)
  }

  /** Field `i` is less than its alignment away from the one before it. */
  predicate Snug(s: Schema, i: nat)
    requires i < |s.fields|
  {
    EndBefore(s, i) <= s.base + s.fields[i].offset < EndBefore(s, i) + s.fields[i].kind.align
  }

  /**
   Every field is less than its alignment away from the one before it, the allocation ends less than its alignment
   after the last one, and its alignment is the largest of those of the fields and the header.
   */
  ghost predicate Tight(s: Schema) {
    && s.base == 8 && s.end == EndBefore(s, |s.fields|) && s.end <= s.size < s.end + s.align
    && (forall i :: 0 <= i < |s.fields| ==> Snug(s, i)) && s.align == LargestAlign(s.fields)
  }

  lemma AddedIsTight(s: Schema, name: string, k: Kind)
    requires Tight(s) && Ready(s) && ValidKind(k)
    ensures Tight(Added(s, name, k))
  {
    hide Added, Ready, ValidKind;
    var t, n := Added(s, name, k), |s.fields|;
    AddedShape(s, name, k);
    assert t.fields[..n] == s.fields;
    forall i | 0 <= i < |t.fields|
      ensures Snug(t, i)
    {
      if i < n {
        assert Snug(s, i);
      }
    }
  }

  lemma AddedShape(s: Schema, name: string, k: Kind)
    requires Ready(s) && ValidKind(k)
    ensures var t, f := Added(s, name, k), NextField(s, k);
            && t.fields == s.fields + [f] && f.kind == k && t.base == s.base && t.align == Max(s.align, k.align)
            && s.end <= s.base + f.offset < s.end + k.align && t.end == s.base + f.offset + k.size && t.end <= t.size < t.end + t.align
  {
    hide AlignUp, AddEntry;
    var t := Added(s, name, k);
    AlignUpSpec(s.end, k.align);
    AlignUpSpec(t.end, t.align);
  }

  /** No schema wastes space: with `BuildIsLaidOut`, every offset and the size are the least that alignment allows. */
  lemma {:induction false} BuildIsTight(rs: seq<Registration>)
    requires ValidRegistrations(rs)
    ensures Tight(Build(rs))
  {
    hide Tight, Added;
    if rs == [] {
      assert Tight(NewSchema()) by { NewIsTight(); }
    } else {
      var k := |rs| - 1;
      BuildIsTight(rs[..k]);
      if rs[k].name !in Build(rs[..k]).names {
        AddedIsTight(Build(rs[..k]), rs[k].name, rs[k].kind);
      }
    }
  }

  lemma NewIsTight()
    ensures Tight(NewSchema())
  {
  }

  // ---------------------------------------------------------------------------------------------
  // Constructor and cleaner lists
  // ---------------------------------------------------------------------------------------------

  ghost predicate EntriesApart(es: seq<Entry>) {
    forall i, j :: 0 <= i < j < |es| ==> es[i].offset + es[i].size <= es[j].offset
  }

  /** Entry `e` initializes field `f`. */
  predicate Serves(e: Entry, f: Field) {
    if f.kind.trivial then e.Zero? && e.offset <= f.offset && f.offset + f.kind.size <= e.offset + e.size
    else e == Make(f.offset, f.kind.size, f.kind.id)
  }

  ghost predicate Served(es: seq<Entry>, f: Field) {
    exists j :: 0 <= j < |es| && Serves(es[j], f)
  }

  /** The objects made, in order. */
  function Made(es: seq<Entry>): seq<Entry> {
    if es == [] then [] else
      var rest := Made(es[..|es| - 1]);
      if es[|es| - 1].Make? then rest + [es[|es| - 1]] else rest
  }

  /** The objects to be made, in order: one for each field that is not trivial. */
  function Objects(fs: seq<Field>): seq<Entry> {
    if fs == [] then [] else
      var rest, f := Objects(fs[..|fs| - 1]), fs[|fs| - 1];
      if f.kind.trivial then rest else rest + [Make(f.offset, f.kind.size, f.kind.id)]
  }

  /** Neighbouring zero-fills have been merged. */
  ghost predicate Merged(es: seq<Entry>) {
    forall i :: 0 < i < |es| ==> es[i - 1].Make? || es[i].Make?
  }

  ghost predicate Complete(es: seq<Entry>, fields: seq<Field>) {
    EntriesApart(es) && Merged(es) && (forall i :: 0 <= i < |fields| ==> Served(es, fields[i])) && Made(es) == Objects(fields)
  }

  lemma AddKeepsApart(es: seq<Entry>, f: Field)
    requires EntriesApart(es) && EndsBy(es, f.offset)
    ensures EntriesApart(AddEntry(es, f)) && EndsBy(AddEntry(es, f), f.offset + f.kind.size)
  {
  }

  lemma AddKeepsMerged(es: seq<Entry>, f: Field)
    requires Merged(es) && EndsBy(es, f.offset)
    ensures Merged(AddEntry(es, f))
  {
  }

  lemma AddServes(es: seq<Entry>, f: Field)
    requires EndsBy(es, f.offset)
    ensures Served(AddEntry(es, f), f)
  {
    var t := AddEntry(es, f);
    assert Serves(t[|t| - 1], f);
  }

  lemma AddKeepsServed(es: seq<Entry>, f: Field, g: Field)
    requires EndsBy(es, f.offset) && Served(es, g)
    ensures Served(AddEntry(es, f), g)
  {
    var j :| 0 <= j < |es| && Serves(es[j], g);
    assert Serves(AddEntry(es, f)[j], g);
  }

  lemma AddMakes(es: seq<Entry>, f: Field)
    requires EndsBy(es, f.offset)
    ensures Made(AddEntry(es, f)) == if f.kind.trivial then Made(es) else Made(es) + [Make(f.offset, f.kind.size, f.kind.id)]
  {
    var t := AddEntry(es, f);
    if |t| == |es| {
      assert t[..|t| - 1] == es[..|es| - 1];
    } else {
      assert t[..|t| - 1] == es;
    }
  }

  lemma AddIsComplete(es: seq<Entry>, fields: seq<Field>, f: Field)
    requires Complete(es, fields) && EndsBy(es, f.offset)
    ensures Complete(AddEntry(es, f), fields + [f])
  {
    hide AddEntry, Served, EntriesApart, Merged;
    AddKeepsApart(es, f);
    AddKeepsMerged(es, f);
    AddMakes(es, f);
    assert (fields + [f])[..|fields|] == fields;
    forall i | 0 <= i < |fields + [f]|
      ensures Served(AddEntry(es, f), (fields + [f])[i])
    {
      if i < |fields| {
        AddKeepsServed(es, f, fields[i]);
      } else {
        AddServes(es, f);
      }
    }
  }

  ghost predicate ListsOk(s: Schema) {
    Complete(s.constructors, s.fields) && s.cleaners == s.constructors
  }

  lemma AddedLists(s: Schema, name: string, k: Kind)
    requires Ready(s) && ValidKind(k) && ListsOk(s)
    ensures ListsOk(Added(s, name, k))
  {
    hide Complete, AddEntry, AlignUp;
    AlignUpSpec(s.end, k.align);
    AddIsComplete(s.constructors, s.fields, NextField(s, k));
  }

  /** Both lists of every schema serve each field, in disjoint ranges, and make each object once, in order. */
  lemma {:induction false} BuildLists(rs: seq<Registration>)
    requires ValidRegistrations(rs)
    ensures ListsOk(Build(rs))
  {
    hide ListsOk, Added;
    if rs == [] {
      NewLists();
    } else {
      var k := |rs| - 1;
      BuildLists(rs[..k]);
      var s := Build(rs[..k]);
      if rs[k].name !in s.names {
        AddedLists(s, rs[k].name, rs[k].kind);
      }
    }
  }

  lemma NewLists()
    ensures ListsOk(NewSchema())
  {
  }
}
