/**
 The [bytes] encoding of CQL values (external/brpc/922.patch.new:1220-1330, 1910-2090): scalars, strings and
 arbitrarily nested lists, sets and maps.

 A C++ type is a `Type`, a C++ value a `Value`.  A float or double is its bit pattern.  A `std::set` or
 `std::map` is the sequence of its elements in iteration order; its comparison is the parameter `lt`.
 */
module ValueCodec {
  import opened Bytes

  datatype Type = TInt32 | TInt64 | TFloat | TDouble | TText | TBool | TList(elem: Type) | TSet(elem: Type) | TMap(key: Type, val: Type)

  datatype Value =
    | I32(v: int)
    | I64(v: int)
    | F32(bits: int)
    | F64(bits: int)
    | Text(bytes: seq<Byte>)
    | Bool(b: bool)
    | List(elems: seq<Value>)
    | Set(elems: seq<Value>)
    | Map(entries: seq<Entry>)

  datatype Entry = Entry(key: Value, val: Value)

  type Order = (Value, Value) -> bool

  // ---------------------------------------------------------------------------------------------
  // Encoding
  // ---------------------------------------------------------------------------------------------

  /** The bytes after the length of a value. */
  function Content(v: Value): seq<Byte>
    decreases v, 0
  {
    match v
    case I32(x) => Encode32(x)
    case I64(x) => Encode64(x)
    case F32(bits) => Encode32(bits)
    case F64(bits) => Encode64(bits)
    case Text(s) => s
    case Bool(b) => [if b then 1 else 0]
    case List(es) => if es == [] then [] else Encode32(|es|) + EncodeAll(es)
    case Set(es) => if es == [] then [] else Encode32(|es|) + EncodeAll(es)
    case Map(es) => if es == [] then [] else Encode32(|es|) + EncodeEntries(es)
  }

  function Encode(v: Value): seq<Byte>
    decreases v, 1
  {
    Framed(Content(v))
  }

  /** [bytes]: an [int] n followed by n bytes. */
  function Framed(c: seq<Byte>): seq<Byte> {
    Encode32(|c|) + c
  }

  function EncodeAll(es: seq<Value>): seq<Byte>
    decreases es, 0
  {
    if es == [] then [] else Encode(es[0]) + EncodeAll(es[1..])
  }

  function EncodeEntries(es: seq<Entry>): seq<Byte>
    decreases es, 0
  {
    if es == [] then [] else EncodeEntry(es[0]) + EncodeEntries(es[1..])
  }

  function EncodeEntry(e: Entry): seq<Byte>
    decreases e, 0
  {
    Encode(e.key) + Encode(e.val)
  }

  // ---------------------------------------------------------------------------------------------
  // Decoding
  // ---------------------------------------------------------------------------------------------

  /** `Failure` is the return code -1; `Success` is 0, or 1 when `isNull`, with the output and the bytes left. */
  datatype Decoded<T> = Failure | Success(isNull: bool, value: T, rest: seq<Byte>)

  /** The value of a freshly declared output variable. */
  function Default(ty: Type): Value {
    match ty
    case TInt32 => I32(0)
    case TInt64 => I64(0)
    case TFloat => F32(0)
    case TDouble => F64(0)
    case TText => Text([])
    case TBool => Bool(false)
    case TList(_) => List([])
    case TSet(_) => Set([])
    case TMap(_, _) => Map([])
  }

  /** The number of elements a loop `for (size_t i = 0; i != n; ++i)` runs for when `n` is an int32_t. */
  function LoopBound(n: int): nat
    requires -TWO_31 <= n < TWO_31
  {
    if n < 0 then n + TWO_64 else n
  }

  function Decode(lt: Order, ty: Type, b: seq<Byte>): Decoded<Value>
    decreases ty, 1, 0
  {
    if |b| < 4 then Failure else
    var n, rest := Int32(Unsigned32(b)), b[4..];
    match ty
    case TText => DecodeText(n, rest)
    case TBool => DecodeBool(n, rest)
    case TList(elem) =>
      if n <= 0 then Success(true, List([]), rest)
      else if |rest| < 4 then Failure
      else
        (match DecodeList(lt, elem, LoopBound(Int32(Unsigned32(rest))), rest[4..], [])
         case Failure => Failure
         case Success(_, es, left) => Success(false, List(es), left))
    case TSet(elem) =>
      if n <= 0 then Success(true, Set([]), rest)
      else if |rest| < 4 then Failure
      else
        (match DecodeSet(lt, elem, LoopBound(Int32(Unsigned32(rest))), rest[4..], [])
         case Failure => Failure
         case Success(_, es, left) => Success(false, Set(es), left))
    case TMap(key, val) =>
      if n <= 0 then Success(true, Map([]), rest)
      else if |rest| < 4 then Failure
      else
        (match DecodeMap(lt, key, val, LoopBound(Int32(Unsigned32(rest))), rest[4..], [])
         case Failure => Failure
         case Success(_, es, left) => Success(false, Map(es), left))
    case _ => DecodeScalar(ty, n, rest)
  }

  function DecodeText(n: int, rest: seq<Byte>): Decoded<Value> {
    if n <= 0 then Success(true, Text([]), rest)
    else if ToInt(|rest|) < n then Failure
    else Success(false, Text(rest[..n]), rest[n..])
  }

  /** The iterator is dereferenced but not advanced. */
  function DecodeBool(n: int, rest: seq<Byte>): Decoded<Value> {
    if n == 1 then
      if |rest| < 1 then Failure else Success(false, Bool(rest[0] == 1), rest)
    else if n <= 0 then Success(true, Bool(false), rest)
    else Failure
  }

  function DecodeScalar(ty: Type, n: int, rest: seq<Byte>): Decoded<Value> {
    if n == Width(ty) then
      if |rest| < n then Failure else Success(false, Scalar(ty, rest), rest[n..])
    else if n <= 0 then Success(true, Default(ty), rest)
    else Failure
  }

  function Width(ty: Type): nat {
    if ty.TInt64? || ty.TDouble? then 8 else 4
  }

  function Scalar(ty: Type, b: seq<Byte>): Value
    requires |b| >= Width(ty)
  {
    match ty
    case TInt64 => I64(Int64(Unsigned64(b)))
    case TDouble => F64(Int64(Unsigned64(b)))
    case TFloat => F32(Int32(Unsigned32(b)))
    case _ => I32(Int32(Unsigned32(b)))
  }

  function DecodeList(lt: Order, ty: Type, n: nat, b: seq<Byte>, acc: seq<Value>): Decoded<seq<Value>>
    decreases ty, 2, n
  {
    if n == 0 then Success(false, acc, b)
    else
      match Decode(lt, ty, b)
      case Failure => Failure
      case Success(_, v, rest) => DecodeList(lt, ty, n - 1, rest, acc + [v])
  }

  function DecodeSet(lt: Order, ty: Type, n: nat, b: seq<Byte>, acc: seq<Value>): Decoded<seq<Value>>
    decreases ty, 2, n
  {
    if n == 0 then Success(false, acc, b)
    else
      match Decode(lt, ty, b)
      case Failure => Failure
      case Success(_, v, rest) => DecodeSet(lt, ty, n - 1, rest, Emplace(lt, acc, v))
  }

  function DecodeMap(lt: Order, key: Type, val: Type, n: nat, b: seq<Byte>, acc: seq<Entry>): Decoded<seq<Entry>>
    decreases TMap(key, val), 0, n
  {
    if n == 0 then Success(false, acc, b)
    else
      match DecodeEntry(lt, key, val, b)
      case Failure => Failure
      case Success(_, e, rest) => DecodeMap(lt, key, val, n - 1, rest, EmplaceEntry(lt, acc, e))
  }

  function DecodeEntry(lt: Order, key: Type, val: Type, b: seq<Byte>): Decoded<Entry>
    decreases TMap(key, val), 0, 0
  {
    match Decode(lt, key, b)
    case Failure => Failure
    case Success(_, k, left) =>
      match Decode(lt, val, left)
      case Failure => Failure
      case Success(_, v, rest) => Success(false, Entry(k, v), rest)
  }

  /** `std::set::emplace`: insert in order, unless an equivalent element is there. */
  function Emplace(lt: Order, s: seq<Value>, v: Value): seq<Value> {
    if s == [] then [v]
    else if lt(s[|s| - 1], v) then s + [v]
    else if lt(v, s[|s| - 1]) then Emplace(lt, s[..|s| - 1], v) + [s[|s| - 1]]
    else s
  }

  function EmplaceEntry(lt: Order, s: seq<Entry>, e: Entry): seq<Entry> {
    if s == [] then [e]
    else if lt(s[|s| - 1].key, e.key) then s + [e]
    else if lt(e.key, s[|s| - 1].key) then EmplaceEntry(lt, s[..|s| - 1], e) + [s[|s| - 1]]
    else s
  }

  // ---------------------------------------------------------------------------------------------
  // The round trip
  // ---------------------------------------------------------------------------------------------

  /** `v` is a value of the C++ type that `ty` stands for, with no bool in it. */
  predicate Typed(lt: Order, ty: Type, v: Value)
    decreases v, 1
  {
    match v
    case I32(x) => ty.TInt32? && -TWO_31 <= x < TWO_31
    case I64(x) => ty.TInt64? && -TWO_63 <= x < TWO_63
    case F32(bits) => ty.TFloat? && -TWO_31 <= bits < TWO_31
    case F64(bits) => ty.TDouble? && -TWO_63 <= bits < TWO_63
    case Text(_) => ty.TText?
    case Bool(_) => false
    case List(es) => ty.TList? && forall i :: 0 <= i < |es| ==> Typed(lt, ty.elem, es[i])
    case Set(es) => ty.TSet? && Ascending(lt, es) && forall i :: 0 <= i < |es| ==> Typed(lt, ty.elem, es[i])
    case Map(es) => ty.TMap? && AscendingKeys(lt, es) && forall i :: 0 <= i < |es| ==> TypedEntry(lt, ty.key, ty.val, es[i])
  }

  predicate TypedEntry(lt: Order, key: Type, val: Type, e: Entry)
    decreases e, 0
  {
    Typed(lt, key, e.key) && Typed(lt, val, e.val)
  }

  predicate Ascending(lt: Order, es: seq<Value>) {
    forall i, j :: 0 <= i < j < |es| ==> lt(es[i], es[j])
  }

  predicate AscendingKeys(lt: Order, es: seq<Entry>) {
    forall i, j :: 0 <= i < j < |es| ==> lt(es[i].key, es[j].key)
  }

  /** A value whose encoding is read back as null: the empty string and the empty collections. */
  predicate IsEmpty(v: Value) {
    Content(v) == []
  }

  /**
   Whether `v` can be read when `n` bytes follow it: every nonempty string in it needs that the bytes from its
   beginning to the end of the buffer, converted to `int`, are at least its length.
   */
  predicate Reads(v: Value, n: nat)
    decreases v, 1
  {
    match v
    case Text(s) => s == [] || |s| <= ToInt(|s| + n)
    case List(es) => ReadsAll(es, n)
    case Set(es) => ReadsAll(es, n)
    case Map(es) => ReadsEntries(es, n)
    case _ => true
  }

  predicate ReadsAll(es: seq<Value>, n: nat)
    decreases es, 0
  {
    es == [] || (Reads(es[0], |EncodeAll(es[1..])| + n) && ReadsAll(es[1..], n))
  }

  predicate ReadsEntries(es: seq<Entry>, n: nat)
    decreases es, 0
  {
    es == [] || (ReadsEntry(es[0], |EncodeEntries(es[1..])| + n) && ReadsEntries(es[1..], n))
  }

  predicate ReadsEntry(e: Entry, n: nat)
    decreases e, 0
  {
    Reads(e.key, |Encode(e.val)| + n) && Reads(e.val, n)
  }

  function Answer<T>(ok: bool, isNull: bool, v: T, rest: seq<Byte>): Decoded<T> {
    if ok then Success(isNull, v, rest) else Failure
  }

  lemma FrameReadsBack(c: seq<Byte>, rest: seq<Byte>)
    requires |c| < TWO_31
    ensures var b := Framed(c) + rest; |b| >= 4 && Int32(Unsigned32(b)) == |c| && b[4..] == c + rest
  {
    assert Framed(c) + rest == Encode32(|c|) + (c + rest);
    Signed32(|c|, c + rest);
  }

  lemma LengthReadsBack(v: Value, rest: seq<Byte>)
    requires |Content(v)| < TWO_31
    ensures var b := Encode(v) + rest;
            |b| >= 4 && Int32(Unsigned32(b)) == |Content(v)| && b[4..] == Content(v) + rest
  {
    FrameReadsBack(Content(v), rest);
  }

  lemma CountReadsBack(n: nat, body: seq<Byte>)
    requires n < TWO_31
    ensures var b := Encode32(n) + body;
            |b| >= 4 && LoopBound(Int32(Unsigned32(b))) == n && b[4..] == body
  {
    Signed32(n, body);
  }

  lemma ScalarReadsBack(ty: Type, v: Value, rest: seq<Byte>, lt: Order)
    requires Typed(lt, ty, v) && (v.I32? || v.I64? || v.F32? || v.F64?)
    ensures |Content(v)| == Width(ty) && Scalar(ty, Content(v) + rest) == v
  {
    match v
    case I32(x) => Signed32(x, rest);
    case F32(x) => Signed32(x, rest);
    case I64(x) => Signed64(x, rest);
    case F64(x) => Signed64(x, rest);
  }

  lemma ScalarRoundTrip(lt: Order, ty: Type, v: Value, rest: seq<Byte>)
    requires Typed(lt, ty, v) && (v.I32? || v.I64? || v.F32? || v.F64?)
    ensures Decode(lt, ty, Encode(v) + rest) == Success(false, v, rest)
  {
    ScalarReadsBack(ty, v, rest, lt);
    LengthReadsBack(v, rest);
    var c := Content(v) + rest;
    assert c[Width(ty)..] == rest;
    assert DecodeScalar(ty, |Content(v)|, c) == Success(false, v, rest);
  }

  lemma TextReadsBack(s: seq<Byte>, rest: seq<Byte>)
    ensures DecodeText(|s|, s + rest) == Answer(s == [] || |s| <= ToInt(|s| + |rest|), s == [], Text(s), rest)
  {
    hide ToInt;
    var c := s + rest;
    assert c[..|s|] == s && c[|s|..] == rest;
    assert s == [] ==> c == rest;
  }

  /**
   A string comes back exactly when the bytes left, converted to `int`, are at least its length: with two
   gigabytes or more behind it the conversion goes negative and decoding fails.
   */
  lemma TextRoundTrip(lt: Order, s: seq<Byte>, rest: seq<Byte>)
    requires |s| < TWO_31
    ensures Decode(lt, TText, Framed(s) + rest)
            == if s == [] || |s| <= ToInt(|s| + |rest|) then Success(s == [], Text(s), rest) else Failure
  {
    hide ToInt, DecodeText, Framed;
    FrameReadsBack(s, rest);
    TextReadsBack(s, rest);
  }

  lemma {:induction false} AtLeastFour(es: seq<Value>)
    ensures |es| <= |EncodeAll(es)|
  {
    if es != [] {
      AtLeastFour(es[1..]);
    }
  }

  lemma {:induction false} AtLeastEight(es: seq<Entry>)
    ensures |es| <= |EncodeEntries(es)|
  {
    if es != [] {
      AtLeastEight(es[1..]);
      assert |EncodeEntry(es[0])| >= 4;
    }
  }

  /** Decoding a collection is reading a length, a count and then that many elements. */
  lemma ListBody(lt: Order, ty: Type, b: seq<Byte>, n: nat, body: seq<Byte>, ok: bool, es: seq<Value>, rest: seq<Byte>)
    requires |b| >= 4 && Int32(Unsigned32(b)) > 0 && b[4..] == Encode32(n) + body && n < TWO_31
    requires DecodeList(lt, ty, n, body, []) == Answer(ok, false, es, rest)
    ensures Decode(lt, TList(ty), b) == Answer(ok, false, List(es), rest)
  {
    hide DecodeList;
    CountReadsBack(n, body);
  }

  lemma SetBody(lt: Order, ty: Type, b: seq<Byte>, n: nat, body: seq<Byte>, ok: bool, es: seq<Value>, rest: seq<Byte>)
    requires |b| >= 4 && Int32(Unsigned32(b)) > 0 && b[4..] == Encode32(n) + body && n < TWO_31
    requires DecodeSet(lt, ty, n, body, []) == Answer(ok, false, es, rest)
    ensures Decode(lt, TSet(ty), b) == Answer(ok, false, Set(es), rest)
  {
    hide DecodeSet;
    CountReadsBack(n, body);
  }

  lemma MapBody(lt: Order, key: Type, val: Type, b: seq<Byte>, n: nat, body: seq<Byte>, ok: bool, es: seq<Entry>, rest: seq<Byte>)
    requires |b| >= 4 && Int32(Unsigned32(b)) > 0 && b[4..] == Encode32(n) + body && n < TWO_31
    requires DecodeMap(lt, key, val, n, body, []) == Answer(ok, false, es, rest)
    ensures Decode(lt, TMap(key, val), b) == Answer(ok, false, Map(es), rest)
  {
    hide DecodeMap;
    CountReadsBack(n, body);
  }

  lemma CollectionFrame(v: Value, n: nat, all: seq<Byte>, rest: seq<Byte>)
    requires |Content(v)| < TWO_31 && Content(v) == Encode32(n) + all
    ensures var b := Encode(v) + rest;
            |b| >= 4 && Int32(Unsigned32(b)) > 0 && b[4..] == Encode32(n) + (all + rest)
  {
    LengthReadsBack(v, rest);
    assert Content(v) + rest == Encode32(n) + (all + rest);
  }

  lemma EmptyFrame(v: Value, rest: seq<Byte>)
    requires Content(v) == []
    ensures var b := Encode(v) + rest; |b| >= 4 && Int32(Unsigned32(b)) == 0 && b[4..] == rest
  {
    LengthReadsBack(v, rest);
    assert Content(v) + rest == rest;
  }

  /** A collection comes back when its elements do. */
  lemma ListFrame(lt: Order, elem: Type, es: seq<Value>, ok: bool, rest: seq<Byte>)
    requires |Encode(List(es))| < TWO_31
    requires DecodeList(lt, elem, |es|, EncodeAll(es) + rest, []) == Answer(ok, false, es, rest)
    ensures Decode(lt, TList(elem), Encode(List(es)) + rest) == Answer(ok, es == [], List(es), rest)
  {
    if es == [] {
      EmptyFrame(List(es), rest);
    } else {
      AtLeastFour(es);
      CollectionFrame(List(es), |es|, EncodeAll(es), rest);
      ListBody(lt, elem, Encode(List(es)) + rest, |es|, EncodeAll(es) + rest, ok, es, rest);
    }
  }

  lemma SetFrame(lt: Order, elem: Type, es: seq<Value>, ok: bool, rest: seq<Byte>)
    requires |Encode(Set(es))| < TWO_31
    requires DecodeSet(lt, elem, |es|, EncodeAll(es) + rest, []) == Answer(ok, false, es, rest)
    ensures Decode(lt, TSet(elem), Encode(Set(es)) + rest) == Answer(ok, es == [], Set(es), rest)
  {
    if es == [] {
      EmptyFrame(Set(es), rest);
    } else {
      AtLeastFour(es);
      CollectionFrame(Set(es), |es|, EncodeAll(es), rest);
      SetBody(lt, elem, Encode(Set(es)) + rest, |es|, EncodeAll(es) + rest, ok, es, rest);
    }
  }

  lemma MapFrame(lt: Order, key: Type, val: Type, es: seq<Entry>, ok: bool, rest: seq<Byte>)
    requires |Encode(Map(es))| < TWO_31
    requires DecodeMap(lt, key, val, |es|, EncodeEntries(es) + rest, []) == Answer(ok, false, es, rest)
    ensures Decode(lt, TMap(key, val), Encode(Map(es)) + rest) == Answer(ok, es == [], Map(es), rest)
  {
    hide DecodeEntry;
    if es == [] {
      EmptyFrame(Map(es), rest);
    } else {
      AtLeastEight(es);
      CollectionFrame(Map(es), |es|, EncodeEntries(es), rest);
      MapBody(lt, key, val, Encode(Map(es)) + rest, |es|, EncodeEntries(es) + rest, ok, es, rest);
    }
  }

  /** The elements take no more room than the collection, and only an empty collection is empty. */
  lemma PartsFit(v: Value)
    ensures (v.List? || v.Set?) ==> |EncodeAll(v.elems)| <= |Encode(v)| && (IsEmpty(v) <==> v.elems == [])
    ensures v.Map? ==> |EncodeEntries(v.entries)| <= |Encode(v)| && (IsEmpty(v) <==> v.entries == [])
  {
  }

  /**
   Decoding the encoding of any value of less than two gigabytes, nested at will and followed by any bytes, into a
   fresh value yields the original value and leaves exactly those bytes if the value can be read before so many
   bytes, and fails otherwise.  A value without strings can always be read (`NoStringsRead`), and so can any value
   if everything fits in an `int` (`ShortReads`).
   */
  lemma {:induction false} RoundTrip(lt: Order, ty: Type, v: Value, rest: seq<Byte>)
    requires Typed(lt, ty, v) && |Encode(v)| < TWO_31
    ensures Decode(lt, ty, Encode(v) + rest) == if Reads(v, |rest|) then Success(IsEmpty(v), v, rest) else Failure
    decreases v, 1, 0
  {
    hide Decode, DecodeList, DecodeSet, DecodeMap, DecodeEntry, Encode, EncodeAll, EncodeEntries, IsEmpty, ReadsAll, ReadsEntries;
    match v
    case List(es) =>
      PartsFit(v);
      assert es[..0] == [];
      ListRoundTrip(lt, ty.elem, es, es, rest);
      ListFrame(lt, ty.elem, es, ReadsAll(es, |rest|), rest);
    case Set(es) =>
      PartsFit(v);
      assert es[..0] == [];
      SetRoundTrip(lt, ty.elem, es, es, rest);
      SetFrame(lt, ty.elem, es, ReadsAll(es, |rest|), rest);
    case Map(es) =>
      PartsFit(v);
      assert es[0..] == es && es[..0] == [];
      MapRoundTrip(lt, ty.key, ty.val, es, 0, rest);
      MapFrame(lt, ty.key, ty.val, es, ReadsEntries(es, |rest|), rest);
    case _ => LeafRoundTrip(lt, ty, v, rest);
  }

  lemma LeafRoundTrip(lt: Order, ty: Type, v: Value, rest: seq<Byte>)
    requires Typed(lt, ty, v) && |Encode(v)| < TWO_31 && !v.List? && !v.Set? && !v.Map?
    ensures Decode(lt, ty, Encode(v) + rest) == Answer(Reads(v, |rest|), IsEmpty(v), v, rest)
  {
    hide Decode;
    if v.Text? {
      TextRoundTrip(lt, v.bytes, rest);
    } else {
      ScalarRoundTrip(lt, ty, v, rest);
    }
  }

  /** The elements still to be read are `es`, the last ones of `all`. */
  lemma {:induction false} ListRoundTrip(lt: Order, ty: Type, all: seq<Value>, es: seq<Value>, rest: seq<Byte>)
    requires |es| <= |all| && es == all[|all| - |es|..]
    requires forall i :: 0 <= i < |es| ==> Typed(lt, ty, es[i])
    requires |EncodeAll(es)| < TWO_31
    ensures DecodeList(lt, ty, |es|, EncodeAll(es) + rest, all[..|all| - |es|]) == Answer(ReadsAll(es, |rest|), false, all, rest)
    decreases es, 0
  {
    hide Decode, Typed, Reads;
    if es == [] {
      assert EncodeAll(es) + rest == rest && all[..|all|] == all;
    } else {
      var k := |all| - |es|;
      var left := EncodeAll(es[1..]) + rest;
      assert EncodeAll(es) + rest == Encode(es[0]) + left;
      RoundTrip(lt, ty, es[0], left);
      ListRoundTrip(lt, ty, all, es[1..], rest);
      assert all[..k] + [es[0]] == all[..k + 1];
    }
  }

  /** Elements that arrive in ascending order are emplaced at the end. */
  lemma EmplaceLast(lt: Order, all: seq<Value>, k: nat)
    requires Ascending(lt, all) && k < |all|
    ensures Emplace(lt, all[..k], all[k]) == all[..k + 1]
  {
    assert k > 0 ==> lt(all[k - 1], all[k]);
    assert all[..k] + [all[k]] == all[..k + 1];
  }

  lemma EmplaceEntryLast(lt: Order, all: seq<Entry>, k: nat)
    requires AscendingKeys(lt, all) && k < |all|
    ensures EmplaceEntry(lt, all[..k], all[k]) == all[..k + 1]
  {
    assert k > 0 ==> lt(all[k - 1].key, all[k].key);
    assert all[..k] + [all[k]] == all[..k + 1];
  }

  lemma SetStep(lt: Order, ty: Type, n: nat, b: seq<Byte>, left: seq<Byte>, v: Value, acc: seq<Value>)
    requires Decode(lt, ty, b) == Failure || Decode(lt, ty, b) == Success(IsEmpty(v), v, left)
    ensures DecodeSet(lt, ty, n + 1, b, acc)
            == if Decode(lt, ty, b).Failure? then Failure else DecodeSet(lt, ty, n, left, Emplace(lt, acc, v))
  {
  }

  lemma NoElements(lt: Order, ty: Type, all: seq<Value>, rest: seq<Byte>)
    ensures DecodeSet(lt, ty, 0, EncodeAll([]) + rest, all) == Success(false, all, rest) && ReadsAll([], |rest|)
  {
    assert EncodeAll([]) + rest == rest;
  }

  lemma ElementsFirst(es: seq<Value>, rest: seq<Byte>)
    requires es != []
    ensures EncodeAll(es) + rest == Encode(es[0]) + (EncodeAll(es[1..]) + rest)
    ensures |EncodeAll(es)| == |Encode(es[0])| + |EncodeAll(es[1..])|
    ensures ReadsAll(es, |rest|) <==> Reads(es[0], |EncodeAll(es[1..]) + rest|) && ReadsAll(es[1..], |rest|)
  {
    hide Encode, Reads;
  }

  lemma {:induction false} SetRoundTrip(lt: Order, ty: Type, all: seq<Value>, es: seq<Value>, rest: seq<Byte>)
    requires |es| <= |all| && es == all[|all| - |es|..] && Ascending(lt, all)
    requires forall i :: 0 <= i < |es| ==> Typed(lt, ty, es[i])
    requires |EncodeAll(es)| < TWO_31
    ensures DecodeSet(lt, ty, |es|, EncodeAll(es) + rest, all[..|all| - |es|]) == Answer(ReadsAll(es, |rest|), false, all, rest)
    decreases es, 0
  {
    hide Decode, DecodeSet, EncodeAll, Emplace, Typed, Reads, ReadsAll;
    if es == [] {
      assert all[..|all|] == all;
      NoElements(lt, ty, all, rest);
    } else {
      var k := |all| - |es|;
      var left := EncodeAll(es[1..]) + rest;
      ElementsFirst(es, rest);
      RoundTrip(lt, ty, es[0], left);
      SetStep(lt, ty, |es| - 1, EncodeAll(es) + rest, left, es[0], all[..k]);
      EmplaceLast(lt, all, k);
      SetRoundTrip(lt, ty, all, es[1..], rest);
    }
  }

  lemma MapStep(lt: Order, key: Type, val: Type, n: nat, b: seq<Byte>, left: seq<Byte>, e: Entry, acc: seq<Entry>)
    requires DecodeEntry(lt, key, val, b) == Failure || DecodeEntry(lt, key, val, b) == Success(false, e, left)
    ensures DecodeMap(lt, key, val, n + 1, b, acc)
            == if DecodeEntry(lt, key, val, b).Failure? then Failure else DecodeMap(lt, key, val, n, left, EmplaceEntry(lt, acc, e))
  {
  }

  lemma EntriesFirst(all: seq<Entry>, k: nat, rest: seq<Byte>)
    requires k < |all|
    ensures EncodeEntries(all[k..]) + rest == EncodeEntry(all[k]) + (EncodeEntries(all[k + 1..]) + rest)
    ensures |EncodeEntries(all[k..])| == |EncodeEntry(all[k])| + |EncodeEntries(all[k + 1..])|
    ensures ReadsEntries(all[k..], |rest|)
            <==> ReadsEntry(all[k], |EncodeEntries(all[k + 1..]) + rest|) && ReadsEntries(all[k + 1..], |rest|)
  {
    hide EncodeEntry, ReadsEntry;
    var es := all[k..];
    assert es[0] == all[k] && es[1..] == all[k + 1..];
  }

  lemma NoEntries(lt: Order, key: Type, val: Type, all: seq<Entry>, rest: seq<Byte>)
    ensures DecodeMap(lt, key, val, 0, EncodeEntries([]) + rest, all) == Success(false, all, rest) && ReadsEntries([], |rest|)
  {
    assert EncodeEntries([]) + rest == rest;
  }

  lemma {:induction false} MapRoundTrip(lt: Order, key: Type, val: Type, all: seq<Entry>, k: nat, rest: seq<Byte>)
    requires k <= |all| && AscendingKeys(lt, all)
    requires forall i :: k <= i < |all| ==> TypedEntry(lt, key, val, all[i])
    requires |EncodeEntries(all[k..])| < TWO_31
    ensures DecodeMap(lt, key, val, |all| - k, EncodeEntries(all[k..]) + rest, all[..k])
            == Answer(ReadsEntries(all[k..], |rest|), false, all, rest)
    decreases all, 0, |all| - k
  {
    hide Decode, DecodeMap, DecodeEntry, TypedEntry, EncodeEntry, EncodeEntries, EmplaceEntry, ReadsEntry, ReadsEntries;
    var es := all[k..];
    if k == |all| {
      assert es == [] && all[..k] == all;
      NoEntries(lt, key, val, all, rest);
    } else {
      var left := EncodeEntries(all[k + 1..]) + rest;
      EntriesFirst(all, k, rest);
      EntryRoundTrip(lt, key, val, all[k], left);
      MapStep(lt, key, val, |all| - k - 1, EncodeEntries(es) + rest, left, all[k], all[..k]);
      EmplaceEntryLast(lt, all, k);
      MapRoundTrip(lt, key, val, all, k + 1, rest);
    }
  }

  lemma {:induction false} EntryRoundTrip(lt: Order, key: Type, val: Type, e: Entry, left: seq<Byte>)
    requires TypedEntry(lt, key, val, e) && |EncodeEntry(e)| < TWO_31
    ensures DecodeEntry(lt, key, val, EncodeEntry(e) + left) == Answer(ReadsEntry(e, |left|), false, e, left)
    decreases e, 0, 0
  {
    hide Decode, Encode, Typed, Reads;
    assert EncodeEntry(e) + left == Encode(e.key) + (Encode(e.val) + left);
    RoundTrip(lt, key, e.key, Encode(e.val) + left);
    RoundTrip(lt, val, e.val, left);
  }

  /** A list of one string of one byte is not read back before two gigabytes of other data. */
  lemma LongSuffixFails(lt: Order)
    ensures Decode(lt, TList(TText), Encode(List([Text([65])])) + seq(TWO_31, _ => 0)) == Failure
  {
    hide Decode;
    var es := [Text([65])];
    var v, rest := List(es), seq(TWO_31, _ => 0);
    assert es[1..] == [] && EncodeAll(es) == Encode(es[0]) + EncodeAll([]);
    assert |Encode(es[0])| == 5 && |Encode(v)| == 13;
    assert ToInt(1 + TWO_31) < 1;
    assert !Reads(es[0], |EncodeAll(es[1..])| + |rest|);
    RoundTrip(lt, TList(TText), v, rest);
  }

  /** While everything fits in an `int`, every value can be read. */
  lemma {:induction false} ShortReads(v: Value, n: nat)
    requires |Encode(v)| + n < TWO_31
    ensures Reads(v, n)
    decreases v, 1
  {
    hide EncodeAll, EncodeEntries;
    match v
    case List(es) => if es != [] { ShortReadsAll(es, n); }
    case Set(es) => if es != [] { ShortReadsAll(es, n); }
    case Map(es) => if es != [] { ShortReadsEntries(es, n); }
    case _ =>
  }

  lemma {:induction false} ShortReadsAll(es: seq<Value>, n: nat)
    requires |EncodeAll(es)| + n < TWO_31
    ensures ReadsAll(es, n)
    decreases es, 0
  {
    hide Encode, Reads;
    if es != [] {
      ShortReads(es[0], |EncodeAll(es[1..])| + n);
      ShortReadsAll(es[1..], n);
    }
  }

  lemma {:induction false} ShortReadsEntries(es: seq<Entry>, n: nat)
    requires |EncodeEntries(es)| + n < TWO_31
    ensures ReadsEntries(es, n)
    decreases es, 0
  {
    hide Encode, Reads;
    if es != [] {
      var m := |EncodeEntries(es[1..])| + n;
      ShortReadsEntry(es[0], m);
      ShortReadsEntries(es[1..], n);
    }
  }

  lemma {:induction false} ShortReadsEntry(e: Entry, n: nat)
    requires |EncodeEntry(e)| + n < TWO_31
    ensures ReadsEntry(e, n)
    decreases e, 0
  {
    hide Encode, Reads;
    ShortReads(e.key, |Encode(e.val)| + n);
    ShortReads(e.val, n);
  }

  /** A type that holds no strings. */
  predicate Stringless(ty: Type) {
    match ty
    case TText => false
    case TList(elem) => Stringless(elem)
    case TSet(elem) => Stringless(elem)
    case TMap(key, val) => Stringless(key) && Stringless(val)
    case _ => true
  }

  /** A value without strings can be read before any number of bytes. */
  lemma {:induction false} NoStringsRead(lt: Order, ty: Type, v: Value, n: nat)
    requires Typed(lt, ty, v) && Stringless(ty)
    ensures Reads(v, n)
    decreases v, 1
  {
    match v
    case List(es) => NoStringsReadAll(lt, ty.elem, es, n);
    case Set(es) => NoStringsReadAll(lt, ty.elem, es, n);
    case Map(es) => NoStringsReadEntries(lt, ty.key, ty.val, es, n);
    case _ =>
  }

  lemma {:induction false} NoStringsReadAll(lt: Order, ty: Type, es: seq<Value>, n: nat)
    requires Stringless(ty) && forall i :: 0 <= i < |es| ==> Typed(lt, ty, es[i])
    ensures ReadsAll(es, n)
    decreases es, 0
  {
    hide Typed, Reads;
    if es != [] {
      NoStringsRead(lt, ty, es[0], |EncodeAll(es[1..])| + n);
      NoStringsReadAll(lt, ty, es[1..], n);
    }
  }

  lemma {:induction false} NoStringsReadEntries(lt: Order, key: Type, val: Type, es: seq<Entry>, n: nat)
    requires Stringless(key) && Stringless(val) && forall i :: 0 <= i < |es| ==> TypedEntry(lt, key, val, es[i])
    ensures ReadsEntries(es, n)
    decreases es, 0
  {
    hide Typed, Reads;
    if es != [] {
      var m := |EncodeEntries(es[1..])| + n;
      NoStringsReadEntry(lt, key, val, es[0], m);
      NoStringsReadEntries(lt, key, val, es[1..], n);
    }
  }

  lemma {:induction false} NoStringsReadEntry(lt: Order, key: Type, val: Type, e: Entry, n: nat)
    requires Stringless(key) && Stringless(val) && TypedEntry(lt, key, val, e)
    ensures ReadsEntry(e, n)
    decreases e, 0
  {
    hide Typed, Reads;
    NoStringsRead(lt, key, e.key, |Encode(e.val)| + n);
    NoStringsRead(lt, val, e.val, n);
  }

  /** A bool comes back right, but its byte is still there: the decoder looks at it without moving past it. */
  lemma BoolLeavesItsByte(lt: Order, b: bool, rest: seq<Byte>)
    ensures Decode(lt, TBool, Encode(Bool(b)) + rest) == Success(false, Bool(b), Content(Bool(b)) + rest)
    ensures Content(Bool(b)) + rest != rest
  {
    LengthReadsBack(Bool(b), rest);
    assert |Content(Bool(b)) + rest| == 1 + |rest|;
  }

  /** One byte is read as true exactly if it is 1, and any other length is refused unless it stands for null. */
  lemma BoolReads(lt: Order, content: seq<Byte>, rest: seq<Byte>)
    requires 0 < |content| < TWO_31
    ensures Decode(lt, TBool, Framed(content) + rest)
            == if |content| == 1 then Success(false, Bool(content == [1]), content + rest) else Failure
  {
    FrameReadsBack(content, rest);
  }

  /** A number of the wrong width is refused. */
  lemma WrongWidthRefused(lt: Order, ty: Type, content: seq<Byte>, rest: seq<Byte>)
    requires 0 < |content| < TWO_31
    requires if ty.TInt32? || ty.TFloat? then |content| != 4 else (ty.TInt64? || ty.TDouble?) && |content| != 8
    ensures Decode(lt, ty, Framed(content) + rest) == Failure
  {
    FrameReadsBack(content, rest);
  }

  /** So a list of bools does not survive the round trip: the second element is read one byte too early. */
  lemma BoolListFails(lt: Order)
    ensures Decode(lt, TList(TBool), Encode(List([Bool(true), Bool(true)]))) == Failure
  {
    var es := [Bool(true), Bool(true)];
    var v := List(es);
    assert EncodeAll(es) == Encode(es[0]) + EncodeAll(es[1..]);
    assert es[1..] == [Bool(true)];
    assert EncodeAll(es[1..]) == Encode(Bool(true)) + [];
    var last := Encode(Bool(true));
    LengthReadsBack(v, []);
    assert Encode(v) + [] == Encode(v);
    CountReadsBack(2, EncodeAll(es));
    BoolLeavesItsByte(lt, true, last);
    assert EncodeAll(es) == Encode(Bool(true)) + last;
    var early := [1] + last;
    assert Decode(lt, TBool, early) == Failure by {
      assert early[0] == 1 && early[1] == 0 && early[2] == 0 && early[3] == 0;
      assert Unsigned32(early) == 0x100_0000;
    }
    assert DecodeList(lt, TBool, 2, EncodeAll(es), []) == DecodeList(lt, TBool, 1, early, [Bool(true)]);
  }

  /** Each bool that is read takes four bytes off, one fewer than were written. */
  lemma {:induction false} BoolsConsumed(lt: Order, n: nat, b: seq<Byte>, acc: seq<Value>)
    ensures var d := DecodeList(lt, TBool, n, b, acc); d.Success? ==> |d.rest| + 4 * n == |b|
    decreases n
  {
    if n > 0 && Decode(lt, TBool, b).Success? {
      var first := Decode(lt, TBool, b);
      BoolsConsumed(lt, n - 1, first.rest, acc + [first.value]);
    }
  }

  lemma {:induction false} BoolsWritten(es: seq<Value>)
    requires forall i :: 0 <= i < |es| ==> es[i].Bool?
    ensures |EncodeAll(es)| == 5 * |es|
  {
    if es != [] {
      BoolsWritten(es[1..]);
      assert |Content(es[0])| == 1 && |Encode(es[0])| == 5;
    }
  }

  lemma ListIsElements(lt: Order, ty: Type, b: seq<Byte>, n: nat, body: seq<Byte>)
    requires |b| >= 4 && Int32(Unsigned32(b)) > 0 && b[4..] == Encode32(n) + body && n < TWO_31
    ensures var d := Decode(lt, TList(ty), b); d.Success? ==> DecodeList(lt, ty, n, body, []).Success? && d.rest == DecodeList(lt, ty, n, body, []).rest
  {
    hide DecodeList;
    CountReadsBack(n, body);
  }

  /** A list of bools followed by any bytes comes back, with exactly those bytes left, only if it is empty. */
  lemma BoolListRoundTrip(lt: Order, es: seq<Value>, rest: seq<Byte>)
    requires (forall i :: 0 <= i < |es| ==> es[i].Bool?) && |Encode(List(es))| < TWO_31
    ensures Decode(lt, TList(TBool), Encode(List(es)) + rest) == Success(es == [], List(es), rest) <==> es == []
  {
    hide Decode, DecodeList, EncodeAll;
    if es == [] {
      EmptyListReads(lt, es, rest);
    } else {
      var b := Encode(List(es)) + rest;
      AtLeastFour(es);
      CollectionFrame(List(es), |es|, EncodeAll(es), rest);
      ListIsElements(lt, TBool, b, |es|, EncodeAll(es) + rest);
      BoolsConsumed(lt, |es|, EncodeAll(es) + rest, []);
      BoolsWritten(es);
    }
  }

  lemma EmptyListReads(lt: Order, es: seq<Value>, rest: seq<Byte>)
    requires es == []
    ensures Decode(lt, TList(TBool), Encode(List(es)) + rest) == Success(true, List(es), rest)
  {
    EmptyFrame(List(es), rest);
  }
}
