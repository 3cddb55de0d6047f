/**
 What a server reads from the bytes of a bound value, by section 6 of the CQL binary protocol v3: fixed-width
 integers and floats, one byte for a boolean, a count before the elements of a collection.  It uses nothing of
 the client's own decoder, which does not read booleans in collections.
 */
module ValueMeaning {
  import opened Bytes
  import opened CqlReference
  import opened ValueCodec
  import opened Wrappers

  // ---------------------------------------------------------------------------------------------
  // The server's reader
  // ---------------------------------------------------------------------------------------------

  /** A value of the type that `ty` is written as, read from exactly the bytes `b`. */
  function ReadValue(ty: Type, b: seq<Byte>): Option<Value>
    decreases ty, 2, 0
  {
    match ty
    case TInt32 => if |b| == 4 then Some(I32(Int32(Unsigned32(b)))) else None
    case TFloat => if |b| == 4 then Some(F32(Int32(Unsigned32(b)))) else None
    case TInt64 => if |b| == 8 then Some(I64(Int64(Unsigned64(b)))) else None
    case TDouble => if |b| == 8 then Some(F64(Int64(Unsigned64(b)))) else None
    case TBool => if |b| == 1 then Some(Bool(b[0] != 0)) else None
    case TText => Some(Text(b))
    case TList(elem) =>
      var n :- ReadCount(b);
      var es :- ReadElements(elem, n, b[4..]);
      Some(List(es))
    case TSet(elem) =>
      var n :- ReadCount(b);
      var es :- ReadElements(elem, n, b[4..]);
      Some(Set(es))
    case TMap(key, val) =>
      var n :- ReadCount(b);
      var es :- ReadPairs(key, val, n, b[4..]);
      Some(Map(es))
  }

  /** The number of elements, an [int]. */
  function ReadCount(b: seq<Byte>): (n: Option<nat>)
    ensures n.Some? ==> |b| >= 4
  {
    if |b| < 4 || Int32(Unsigned32(b)) < 0 then None else Some(Int32(Unsigned32(b)))
  }

  /** n elements, each a [bytes] that is not null, and nothing after them. */
  function ReadElements(ty: Type, n: nat, b: seq<Byte>): Option<seq<Value>>
    decreases ty, 3, n
  {
    if n == 0 then if b == [] then Some([]) else None
    else
      var first :- ReadElement(ty, b);
      var others :- ReadElements(ty, n - 1, first.rest);
      Some([first.item] + others)
  }

  function ReadElement(ty: Type, b: seq<Byte>): Option<Reading<Value>>
    decreases ty, 3, 0
  {
    var bytes :- ReadBytes(b);
    var content :- bytes.item;
    var v :- ReadValue(ty, content);
    Some(Reading(v, bytes.rest))
  }

  function ReadPairs(key: Type, val: Type, n: nat, b: seq<Byte>): Option<seq<Entry>>
    decreases TMap(key, val), 1, n
  {
    if n == 0 then if b == [] then Some([]) else None
    else
      var first :- ReadPair(key, val, b);
      var others :- ReadPairs(key, val, n - 1, first.rest);
      Some([first.item] + others)
  }

  function ReadPair(key: Type, val: Type, b: seq<Byte>): Option<Reading<Entry>>
    decreases TMap(key, val), 0, 0
  {
    var k :- ReadElement(key, b);
    var v :- ReadElement(val, k.rest);
    Some(Reading(Entry(k.item, v.item), v.rest))
  }

  // ---------------------------------------------------------------------------------------------
  // What the client sends
  // ---------------------------------------------------------------------------------------------

  /** `v` is a value of the C++ type `ty` whose sizes and counts an [int] can hold. */
  predicate Sendable(ty: Type, v: Value)
    decreases v, 1
  {
    && |Content(v)| < TWO_31
    && match v
       case I32(x) => ty.TInt32? && -TWO_31 <= x < TWO_31
       case I64(x) => ty.TInt64? && -TWO_63 <= x < TWO_63
       case F32(bits) => ty.TFloat? && -TWO_31 <= bits < TWO_31
       case F64(bits) => ty.TDouble? && -TWO_63 <= bits < TWO_63
       case Text(_) => ty.TText?
       case Bool(_) => ty.TBool?
       case List(es) => ty.TList? && |es| < TWO_31 && SendableAll(ty.elem, es)
       case Set(es) => ty.TSet? && |es| < TWO_31 && SendableAll(ty.elem, es)
       case Map(es) => ty.TMap? && |es| < TWO_31 && SendableEntries(ty.key, ty.val, es)
  }

  predicate SendableAll(ty: Type, es: seq<Value>)
    decreases es, 0
  {
    es == [] || (Sendable(ty, es[0]) && SendableAll(ty, es[1..]))
  }

  predicate SendableEntries(key: Type, val: Type, es: seq<Entry>)
    decreases es, 0
  {
    es == [] || (SendableEntry(key, val, es[0]) && SendableEntries(key, val, es[1..]))
  }

  predicate SendableEntry(key: Type, val: Type, e: Entry)
    decreases e, 0
  {
    Sendable(key, e.key) && Sendable(val, e.val)
  }

  /** No collection in `v`, nor `v` itself, is an empty collection. */
  predicate Filled(v: Value)
    decreases v, 1
  {
    match v
    case List(es) => es != [] && FilledAll(es)
    case Set(es) => es != [] && FilledAll(es)
    case Map(es) => es != [] && FilledEntries(es)
    case _ => true
  }

  predicate FilledAll(es: seq<Value>)
    decreases es, 0
  {
    es == [] || (Filled(es[0]) && FilledAll(es[1..]))
  }

  predicate FilledEntries(es: seq<Entry>)
    decreases es, 0
  {
    es == [] || (FilledEntry(es[0]) && FilledEntries(es[1..]))
  }

  predicate FilledEntry(e: Entry)
    decreases e, 0
  {
    Filled(e.key) && Filled(e.val)
  }

  // ---------------------------------------------------------------------------------------------
  // The server reads the value, unless a collection is empty
  // ---------------------------------------------------------------------------------------------

  function When<T>(ok: bool, x: T): Option<T> {
    if ok then Some(x) else None
  }

  lemma ScalarReads(ty: Type, v: Value)
    requires Sendable(ty, v) && (v.I32? || v.I64? || v.F32? || v.F64? || v.Text? || v.Bool?)
    ensures ReadValue(ty, Content(v)) == Some(v)
  {
    hide Encode32, Encode64, Unsigned32, Unsigned64;
    var b := Content(v);
    assert b + [] == b;
    match v
    case I32(x) => Signed32(x, []);
    case F32(x) => Signed32(x, []);
    case I64(x) => Signed64(x, []);
    case F64(x) => Signed64(x, []);
    case _ =>
  }

  lemma CountReads(n: nat, rest: seq<Byte>)
    requires n < TWO_31
    ensures ReadCount(Encode32(n) + rest) == Some(n) && (Encode32(n) + rest)[4..] == rest
  {
    Signed32(n, rest);
  }

  lemma FrameReads(c: seq<Byte>, rest: seq<Byte>)
    requires |c| < TWO_31
    ensures ReadBytes(Framed(c) + rest) == Some(Reading(Some(c), rest))
  {
    FrameReadsBack(c, rest);
    assert (c + rest)[..|c|] == c && (c + rest)[|c|..] == rest;
  }

  /** The server reads from the bytes of a value that very value if and only if no collection in it is empty; else it finds none. */
  lemma {:induction false} ValueReads(ty: Type, v: Value)
    requires Sendable(ty, v)
    ensures ReadValue(ty, Content(v)) == When(Filled(v), v)
    decreases v, 1
  {
    hide Encode32, ReadCount, SendableAll, SendableEntries, FilledAll, FilledEntries;
    match v
    case List(es) =>
      CountReads(|es|, EncodeAll(es));
      ElementsRead(ty.elem, es);
      NoCount();
    case Set(es) =>
      CountReads(|es|, EncodeAll(es));
      ElementsRead(ty.elem, es);
      NoCount();
    case Map(es) =>
      CountReads(|es|, EncodeEntries(es));
      PairsRead(ty.key, ty.val, es);
      NoCount();
    case _ => ScalarReads(ty, v);
  }

  lemma NoCount()
    ensures ReadCount([]) == None
  {
  }

  lemma {:induction false} ElementReads(ty: Type, v: Value, rest: seq<Byte>)
    requires Sendable(ty, v)
    ensures ReadElement(ty, Encode(v) + rest) == When(Filled(v), Reading(v, rest))
    decreases v, 2
  {
    hide Sendable, Filled, ReadValue, Content;
    ShortContent(ty, v);
    FrameReads(Content(v), rest);
    ValueReads(ty, v);
  }

  lemma ShortContent(ty: Type, v: Value)
    requires Sendable(ty, v)
    ensures |Content(v)| < TWO_31
  {
  }

  lemma {:induction false} ElementsRead(ty: Type, es: seq<Value>)
    requires SendableAll(ty, es)
    ensures ReadElements(ty, |es|, EncodeAll(es)) == When(FilledAll(es), es)
    decreases es, 0
  {
    hide Sendable, Filled, ReadElement, Encode;
    if es != [] {
      ElementReads(ty, es[0], EncodeAll(es[1..]));
      ElementsRead(ty, es[1..]);
      assert [es[0]] + es[1..] == es;
    }
  }

  lemma {:induction false} PairReads(key: Type, val: Type, e: Entry, rest: seq<Byte>)
    requires SendableEntry(key, val, e)
    ensures ReadPair(key, val, EncodeEntry(e) + rest) == When(FilledEntry(e), Reading(e, rest))
    decreases e, 0
  {
    hide Sendable, Filled, ReadElement, Encode;
    assert EncodeEntry(e) + rest == Encode(e.key) + (Encode(e.val) + rest);
    ElementReads(key, e.key, Encode(e.val) + rest);
    ElementReads(val, e.val, rest);
  }

  lemma {:induction false} PairsRead(key: Type, val: Type, es: seq<Entry>)
    requires SendableEntries(key, val, es)
    ensures ReadPairs(key, val, |es|, EncodeEntries(es)) == When(FilledEntries(es), es)
    decreases es, 0
  {
    hide SendableEntry, FilledEntry, ReadPair, EncodeEntry;
    if es != [] {
      PairReads(key, val, es[0], EncodeEntries(es[1..]));
      PairsRead(key, val, es[1..]);
      assert [es[0]] + es[1..] == es;
    }
  }

  /** A map whose one value is an empty list: its bytes mean nothing to the server. */
  lemma EmptyListUnread()
    ensures ReadValue(TMap(TInt32, TList(TInt32)), Content(Map([Entry(I32(7), List([]))]))) == None
  {
    hide ReadValue, Content;
    var es := [Entry(I32(7), List([]))];
    NothingInside(es);
    ValueReads(TMap(TInt32, TList(TInt32)), Map(es));
  }

  lemma NothingInside(es: seq<Entry>)
    requires es == [Entry(I32(7), List([]))]
    ensures Sendable(TMap(TInt32, TList(TInt32)), Map(es)) && !Filled(Map(es))
  {
    assert es[1..] == [];
    assert Content(List([])) == [] && |Content(I32(7))| == 4;
    assert EncodeEntries(es) == EncodeEntry(es[0]) + EncodeEntries(es[1..]);
    assert |EncodeEntries(es)| == 12;
    assert SendableEntry(TInt32, TList(TInt32), es[0]) && !FilledEntry(es[0]);
  }
}
