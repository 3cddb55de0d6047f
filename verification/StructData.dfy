/**
 What the constructor and cleaner lists of a schema do to the bytes of a struct
 (example/brpc/dynamic_struct.hpp:92-113, 389-409).
 */
module StructData {
  import opened StructLayout

  /** A byte of a struct: a number, or one byte of a freshly constructed object of some type. */
  datatype Cell = Byte(value: nat) | Part(id: nat, index: nat)

  function EntryCell(e: Entry, p: nat): Cell
    requires e.offset <= p
  {
    match e
    case Zero(_, _) => Byte(0)
    case Make(offset, _, id) => Part(id, p - offset)
  }

  predicate Within(e: Entry, p: int) {
    e.offset <= p < e.offset + e.size
  }

  predicate Fits(es: seq<Entry>, n: nat) {
    forall i :: 0 <= i < |es| ==> es[i].offset + es[i].size <= n
  }

  /** The data after one entry: `fill_with_zero`, `construct` or `reconstruct`. */
  function RunOne(e: Entry, m: seq<Cell>): seq<Cell> {
    seq(|m|, p requires 0 <= p < |m| => if Within(e, p) then EntryCell(e, p) else m[p])
  }

  /** The data after all entries in order. */
  function RunAll(es: seq<Entry>, m: seq<Cell>): (r: seq<Cell>)
    ensures |r| == |m|
  {
    if es == [] then m else RunOne(es[|es| - 1], RunAll(es[..|es| - 1], m))
  }

  /** The content of byte `i` of a field that has just been constructed. */
  function Initial(f: Field, i: nat): Cell {
    if f.kind.trivial then Byte(0) else Part(f.kind.id, i)
  }

  /** Field `f` holds what construction puts there. */
  ghost predicate IsInitial(f: Field, m: seq<Cell>) {
    f.offset + f.kind.size <= |m| && forall i :: 0 <= i < f.kind.size ==> m[f.offset + i] == Initial(f, i)
  }

  ghost predicate AllInitial(fields: seq<Field>, m: seq<Cell>) {
    forall k :: 0 <= k < |fields| ==> IsInitial(fields[k], m)
  }

  /** One entry for each field, nothing merged: the meaning that the merged lists must have. */
  function PerField(fields: seq<Field>): seq<Entry> {
    seq(|fields|, k requires 0 <= k < |fields| =>
      if fields[k].kind.trivial then Zero(fields[k].offset, fields[k].kind.size)
      else Make(fields[k].offset, fields[k].kind.size, fields[k].kind.id))
  }

  lemma {:induction false} RunAt(es: seq<Entry>, m: seq<Cell>, j: nat, p: nat)
    requires EntriesApart(es) && j < |es| && Within(es[j], p) && p < |m|
    ensures RunAll(es, m)[p] == EntryCell(es[j], p)
    decreases |es|
  {
    var k := |es| - 1;
    if j < k {
      assert es[..k][j] == es[j];
      RunAt(es[..k], m, j, p);
    }
  }

  /** A field that some entry serves is initialized, whatever was there before. */
  lemma ServedIsInitial(es: seq<Entry>, m: seq<Cell>, f: Field)
    requires EntriesApart(es) && Served(es, f) && f.offset + f.kind.size <= |m|
    ensures IsInitial(f, RunAll(es, m))
  {
    hide EntriesApart, RunAll;
    var j: nat :| j < |es| && Serves(es[j], f);
    forall i | 0 <= i < f.kind.size
      ensures RunAll(es, m)[f.offset + i] == Initial(f, i)
    {
      RunAt(es, m, j, f.offset + i);
    }
  }

  lemma CompleteIsInitial(es: seq<Entry>, fields: seq<Field>, m: seq<Cell>)
    requires Complete(es, fields) && forall k :: 0 <= k < |fields| ==> fields[k].offset + fields[k].kind.size <= |m|
    ensures AllInitial(fields, RunAll(es, m))
  {
    hide Served, EntriesApart, RunAll, IsInitial;
    forall k | 0 <= k < |fields|
      ensures IsInitial(fields[k], RunAll(es, m))
    {
      ServedIsInitial(es, m, fields[k]);
    }
  }

  /** Room for the data: the allocation without the schema pointer. */
  function DataSize(s: Schema): nat
    requires s.base <= s.size
  {
    s.size - s.base
  }

  lemma FieldsFit(s: Schema)
    requires LaidOut(s)
    ensures s.base <= s.size && forall k :: 0 <= k < |s.fields| ==> s.fields[k].offset + s.fields[k].kind.size <= DataSize(s)
  {
    forall k | 0 <= k < |s.fields|
      ensures s.fields[k].offset + s.fields[k].kind.size <= DataSize(s)
    {
      FieldEnds(s, s.fields[k]);
    }
  }

  lemma PerFieldIsComplete(s: Schema)
    requires LaidOut(s)
    ensures EntriesApart(PerField(s.fields)) && forall k :: 0 <= k < |s.fields| ==> Served(PerField(s.fields), s.fields[k])
  {
    var es := PerField(s.fields);
    forall k | 0 <= k < |s.fields|
      ensures Served(es, s.fields[k])
    {
      assert Serves(es[k], s.fields[k]);
    }
  }

  lemma PerFieldIsInitial(s: Schema, m: seq<Cell>)
    requires LaidOut(s) && s.base <= s.size && |m| == DataSize(s)
    ensures AllInitial(s.fields, RunAll(PerField(s.fields), m))
  {
    hide Served, EntriesApart, RunAll, IsInitial, PerField, LaidOut;
    PerFieldIsComplete(s);
    FieldsFit(s);
    forall k | 0 <= k < |s.fields|
      ensures IsInitial(s.fields[k], RunAll(PerField(s.fields), m))
    {
      ServedIsInitial(PerField(s.fields), m, s.fields[k]);
    }
  }

  lemma InitialAt(f: Field, m: seq<Cell>, i: nat)
    requires IsInitial(f, m) && i < f.kind.size
    ensures f.offset + i < |m| && m[f.offset + i] == Initial(f, i)
  {
  }

  /**
   The merged list means what one entry per field means: every byte of every field gets the same content,
   which is what its construction puts there, whatever the memory held before.
   */
  lemma MergedMeansPerField(rs: seq<Registration>, m: seq<Cell>, k: nat, i: nat)
    requires ValidRegistrations(rs) && Build(rs).base <= Build(rs).size && |m| == DataSize(Build(rs))
    requires k < |Build(rs).fields| && i < Build(rs).fields[k].kind.size
    ensures var s := Build(rs); var f := s.fields[k];
            && f.offset + i < |m|
            && RunAll(s.constructors, m)[f.offset + i] == RunAll(PerField(s.fields), m)[f.offset + i] == Initial(f, i)
  {
    hide LaidOut, Complete, RunAll, PerField, Build;
    var s := Build(rs);
    BuildIsLaidOut(rs);
    BuildLists(rs);
    FieldsFit(s);
    CompleteIsInitial(s.constructors, s.fields, m);
    PerFieldIsInitial(s, m);
    InitialAt(s.fields[k], RunAll(s.constructors, m), i);
    InitialAt(s.fields[k], RunAll(PerField(s.fields), m), i);
  }

  /** No merged zero-fill touches a field that is not trivial, and each such field is constructed once, in order. */
  lemma ZeroFillsSpareObjects(rs: seq<Registration>, j: nat, k: nat)
    requires ValidRegistrations(rs)
    requires j < |Build(rs).constructors| && Build(rs).constructors[j].Zero? && k < |Build(rs).fields| && !Build(rs).fields[k].kind.trivial
    ensures var e, f := Build(rs).constructors[j], Build(rs).fields[k];
            e.offset + e.size <= f.offset || f.offset + f.kind.size <= e.offset
    ensures Made(Build(rs).constructors) == Objects(Build(rs).fields)
  {
    hide Build, Made, Objects;
    BuildLists(rs);
    var s := Build(rs);
    assert Served(s.constructors, s.fields[k]);
    var l :| 0 <= l < |s.constructors| && Serves(s.constructors[l], s.fields[k]);
    assert l != j;
  }

  // ---------------------------------------------------------------------------------------------
  // Clearing
  // ---------------------------------------------------------------------------------------------

  /**
   What `reconstruct<T, A>` makes of the bytes of an object of type `id`: `clear()`, a destructor followed by a
   constructor, or whatever the type's reusable traits do.
   */
  type Reset = (nat, seq<Cell>) -> seq<Cell>

  ghost predicate KeepsSize(reset: Reset) {
    forall id, m :: |reset(id, m)| == |m|
  }

  /** The data after one entry of the cleaner list. */
  function ResetOne(reset: Reset, e: Entry, m: seq<Cell>): seq<Cell> {
    if e.Make? && e.offset + e.size <= |m| then
      m[..e.offset] + reset(e.id, m[e.offset..e.offset + e.size]) + m[e.offset + e.size..]
    else RunOne(e, m)
  }

  function ResetAll(reset: Reset, es: seq<Entry>, m: seq<Cell>): seq<Cell> {
    if es == [] then m else ResetOne(reset, es[|es| - 1], ResetAll(reset, es[..|es| - 1], m))
  }

  lemma {:induction false} ResetSize(reset: Reset, es: seq<Entry>, m: seq<Cell>)
    requires KeepsSize(reset)
    ensures |ResetAll(reset, es, m)| == |m|
  {
    if es != [] {
      ResetSize(reset, es[..|es| - 1], m);
    }
  }

  /** Entry `e` lies beside the bytes from `lo` to `hi`. */
  predicate Beside(e: Entry, lo: nat, hi: nat) {
    e.offset + e.size <= lo || hi <= e.offset
  }

  lemma OneBeside(reset: Reset, e: Entry, m: seq<Cell>, lo: nat, hi: nat)
    requires KeepsSize(reset) && Beside(e, lo, hi) && lo <= hi <= |m|
    ensures |ResetOne(reset, e, m)| == |m| && ResetOne(reset, e, m)[lo..hi] == m[lo..hi]
  {
    var r := ResetOne(reset, e, m);
    if e.Make? && e.offset + e.size <= |m| {
      assert |reset(e.id, m[e.offset..e.offset + e.size])| == e.size;
    }
    assert forall p :: lo <= p < hi ==> r[p] == m[p];
  }

  lemma {:induction false} AllBeside(reset: Reset, es: seq<Entry>, m: seq<Cell>, lo: nat, hi: nat)
    requires KeepsSize(reset) && lo <= hi <= |m| && forall j :: 0 <= j < |es| ==> Beside(es[j], lo, hi)
    ensures |ResetAll(reset, es, m)| == |m| && ResetAll(reset, es, m)[lo..hi] == m[lo..hi]
    decreases |es|
  {
    hide ResetOne;
    if es != [] {
      var k := |es| - 1;
      AllBeside(reset, es[..k], m, lo, hi);
      OneBeside(reset, es[k], ResetAll(reset, es[..k], m), lo, hi);
    }
  }

  /** What one entry makes of its own bytes. */
  function Result(reset: Reset, e: Entry, cells: seq<Cell>): seq<Cell> {
    if e.Make? then reset(e.id, cells) else seq(|cells|, _ => Byte(0))
  }

  lemma OwnResult(reset: Reset, e: Entry, m: seq<Cell>)
    requires KeepsSize(reset) && e.offset + e.size <= |m|
    ensures |ResetOne(reset, e, m)| == |m|
    ensures ResetOne(reset, e, m)[e.offset..e.offset + e.size] == Result(reset, e, m[e.offset..e.offset + e.size])
  {
    var own := m[e.offset..e.offset + e.size];
    assert |reset(if e.Make? then e.id else 0, own)| == e.size;
  }

  /** Each entry works once, on what was written to its own bytes. */
  lemma {:induction false} ResetAt(reset: Reset, es: seq<Entry>, m: seq<Cell>, j: nat)
    requires KeepsSize(reset) && EntriesApart(es) && j < |es| && es[j].offset + es[j].size <= |m|
    ensures |ResetAll(reset, es, m)| == |m|
    ensures var lo, hi := es[j].offset, es[j].offset + es[j].size;
            ResetAll(reset, es, m)[lo..hi] == Result(reset, es[j], m[lo..hi])
    decreases |es|
  {
    hide ResetOne, Result;
    var k := |es| - 1;
    var lo, hi := es[j].offset, es[j].offset + es[j].size;
    var before := ResetAll(reset, es[..k], m);
    if j == k {
      AllBeside(reset, es[..k], m, lo, hi);
      OwnResult(reset, es[k], before);
    } else {
      assert es[..k][j] == es[j];
      ResetAt(reset, es[..k], m, j);
      OneBeside(reset, es[k], before, lo, hi);
    }
  }

  /** The bytes of a field. */
  function Bytes(f: Field, m: seq<Cell>): seq<Cell>
    requires f.offset + f.kind.size <= |m|
  {
    m[f.offset..f.offset + f.kind.size]
  }

  /** The bytes that construction gives a field. */
  function Constructed(f: Field): seq<Cell> {
    seq(f.kind.size, i requires 0 <= i < f.kind.size => Initial(f, i))
  }

  /** Clearing zeroes each trivial field and resets each other field once, from what was written to it. */
  lemma ServedIsReset(reset: Reset, es: seq<Entry>, m: seq<Cell>, f: Field)
    requires KeepsSize(reset) && EntriesApart(es) && Served(es, f) && Fits(es, |m|) && f.offset + f.kind.size <= |m|
    ensures |ResetAll(reset, es, m)| == |m|
    ensures Bytes(f, ResetAll(reset, es, m)) == if f.kind.trivial then Constructed(f) else reset(f.kind.id, Bytes(f, m))
  {
    hide EntriesApart, ResetAll, Constructed;
    var j: nat :| j < |es| && Serves(es[j], f);
    ResetAt(reset, es, m, j);
    if f.kind.trivial {
      ZeroedPart(es[j], f, ResetAll(reset, es, m));
    }
  }

  lemma ZeroedPart(e: Entry, f: Field, r: seq<Cell>)
    requires Serves(e, f) && f.kind.trivial && e.offset + e.size <= |r| && f.offset + f.kind.size <= |r|
    requires r[e.offset..e.offset + e.size] == seq(e.size, _ => Byte(0))
    ensures Bytes(f, r) == Constructed(f)
  {
    var zeros := r[e.offset..e.offset + e.size];
    forall i | 0 <= i < f.kind.size
      ensures Bytes(f, r)[i] == Constructed(f)[i]
    {
      assert zeros[f.offset - e.offset + i] == Byte(0);
    }
  }

  /** The lists of a schema fit its data, and so do its fields. */
  ghost predicate Laid(s: Schema) {
    Ready(s) && LaidOut(s) && ListsOk(s)
  }

  lemma ClearMeans(s: Schema, reset: Reset, m: seq<Cell>, k: nat)
    requires Laid(s) && KeepsSize(reset) && s.base <= s.size && |m| == DataSize(s) && k < |s.fields|
    ensures |ResetAll(reset, s.cleaners, m)| == |m| && s.fields[k].offset + s.fields[k].kind.size <= |m|
    ensures var f := s.fields[k];
            Bytes(f, ResetAll(reset, s.cleaners, m)) == if f.kind.trivial then Constructed(f) else reset(f.kind.id, Bytes(f, m))
  {
    hide Served, EntriesApart, ResetAll, LaidOut, Fits, Ready;
    FieldsFit(s);
    EntriesFit(s);
    assert Served(s.constructors, s.fields[k]);
    ServedIsReset(reset, s.cleaners, m, s.fields[k]);
  }

  lemma ConstructMeans(s: Schema, m: seq<Cell>, k: nat)
    requires Laid(s) && s.base <= s.size && |m| == DataSize(s) && k < |s.fields|
    ensures s.fields[k].offset + s.fields[k].kind.size <= |m| && Bytes(s.fields[k], RunAll(s.constructors, m)) == Constructed(s.fields[k])
  {
    hide RunAll, LaidOut, Complete;
    FieldsFit(s);
    CompleteIsInitial(s.constructors, s.fields, m);
    assert IsInitial(s.fields[k], RunAll(s.constructors, m));
    var f, r := s.fields[k], RunAll(s.constructors, m);
    forall i | 0 <= i < f.kind.size
      ensures r[f.offset + i] == Initial(f, i)
    {
      InitialAt(f, r, i);
    }
  }

  lemma BuildIsLaid(rs: seq<Registration>)
    requires ValidRegistrations(rs)
    ensures Laid(Build(rs)) && Build(rs).base <= Build(rs).size
  {
    hide ListsOk;
    BuildIsLaidOut(rs);
    BuildLists(rs);
  }

  /**
   Whatever was written, clearing gives a field what construction had given it if and only if the field is
   trivial or its type's reset, applied to what was written to it, does.
   */
  lemma ClearRestoresExactly(rs: seq<Registration>, reset: Reset, m: seq<Cell>, written: seq<Cell>, k: nat)
    requires ValidRegistrations(rs) && KeepsSize(reset) && k < |Build(rs).fields|
    requires Build(rs).base <= Build(rs).size && |m| == |written| == DataSize(Build(rs))
    ensures var s := Build(rs); var f := s.fields[k];
            && f.offset + f.kind.size <= |m| && |ResetAll(reset, s.cleaners, written)| == |m|
            && (Bytes(f, ResetAll(reset, s.cleaners, written)) == Bytes(f, RunAll(s.constructors, m))
                <==> f.kind.trivial || reset(f.kind.id, Bytes(f, written)) == Constructed(f))
  {
    hide Build, Laid, ResetAll, RunAll, Constructed, Bytes;
    BuildIsLaid(rs);
    ClearMeans(Build(rs), reset, written, k);
    ConstructMeans(Build(rs), m, k);
  }

  /** Every entry lies inside the data. */
  lemma EntriesFit(s: Schema)
    requires LaidOut(s) && ListsOk(s) && Ready(s)
    ensures s.base <= s.size && Fits(s.constructors, DataSize(s)) && Fits(s.cleaners, DataSize(s))
  {
    var es := s.constructors;
    forall i | 0 <= i < |es|
      ensures es[i].offset + es[i].size <= DataSize(s)
    {
      if i < |es| - 1 {
        assert es[i].offset + es[i].size <= es[|es| - 1].offset;
      }
    }
  }
}
