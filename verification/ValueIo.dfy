/**
 `CqlEncodeBytes` and `CqlDecodeBytes` as they run: the encoder reserves the length of a collection, writes
 its elements and then patches the length in; the decoder walks an iterator and fills an output variable.
 */
module ValueIo {
  import opened Bytes
  import opened ValueCodec

  lemma {:induction false} EncodeAllSnoc(es: seq<Value>, v: Value)
    ensures EncodeAll(es + [v]) == EncodeAll(es) + Encode(v)
  {
    hide Encode;
    if es == [] {
      assert es + [v] == [v] && [v][1..] == [];
      assert EncodeAll([v]) == Encode(v) + [];
    } else {
      assert (es + [v])[0] == es[0] && (es + [v])[1..] == es[1..] + [v];
      EncodeAllSnoc(es[1..], v);
    }
  }

  lemma {:induction false} EncodeEntriesSnoc(es: seq<Entry>, e: Entry)
    ensures EncodeEntries(es + [e]) == EncodeEntries(es) + EncodeEntry(e)
  {
    hide EncodeEntry;
    if es == [] {
      assert es + [e] == [e] && [e][1..] == [];
      assert EncodeEntries([e]) == EncodeEntry(e) + [];
    } else {
      assert (es + [e])[0] == es[0] && (es + [e])[1..] == es[1..] + [e];
      EncodeEntriesSnoc(es[1..], e);
    }
  }

  /** Appends `Encode(v)`; `garbage` is what reserved bytes hold until they are assigned. */
  method EncodeBytes(v: Value, buf: IOBuf, garbage: Byte)
    modifies buf
    ensures buf.bytes == old(buf.bytes) + Encode(v)
    decreases v, 1
  {
    hide EncodeAll, EncodeEntries;
    match v
    case I32(x) =>
      buf.AppendBytes(Encode32(4));
      buf.AppendBytes(Encode32(x));
    case F32(bits) =>
      buf.AppendBytes(Encode32(4));
      buf.AppendBytes(Encode32(bits));
    case I64(x) =>
      buf.AppendBytes(Encode32(8));
      buf.AppendBytes(Encode64(x));
    case F64(bits) =>
      buf.AppendBytes(Encode32(8));
      buf.AppendBytes(Encode64(bits));
    case Bool(b) =>
      buf.AppendBytes(Encode32(1));
      buf.PushBack(if b then 1 else 0);
    case Text(s) =>
      buf.AppendBytes(Encode32(|s|));
      if |s| > 0 {
        buf.AppendBytes(s);
      }
    case List(es) => EncodeElements(v, es, buf, garbage);
    case Set(es) => EncodeElements(v, es, buf, garbage);
    case Map(es) => EncodePairs(v, es, buf, garbage);
  }

  lemma NothingEncoded()
    ensures EncodeAll([]) == [] && EncodeEntries([]) == []
  {
  }

  lemma FramedContent(v: Value)
    ensures Encode(v) == Encode32(|Content(v)|) + Content(v)
  {
  }

  method EncodeElements(ghost v: Value, es: seq<Value>, buf: IOBuf, garbage: Byte)
    requires v == List(es) || v == Set(es)
    modifies buf
    ensures buf.bytes == old(buf.bytes) + Encode(v)
    decreases es, 0
  {
    hide Encode32, Encode16, EncodeAll, EncodeEntries, Encode;
    var area := buf.Reserve(4, garbage);
    var begin := |buf.bytes|;
    ghost var head := buf.bytes;
    if es != [] {
      buf.AppendBytes(Encode32(|es|));
      NothingEncoded();
      assert es[..0] == [];
      var i := 0;
      while i < |es|
        invariant 0 <= i <= |es| && buf.bytes == head + Encode32(|es|) + EncodeAll(es[..i])
      {
        assert es[..i + 1] == es[..i] + [es[i]];
        EncodeAllSnoc(es[..i], es[i]);
        EncodeBytes(es[i], buf, garbage);
        i := i + 1;
      }
      assert es[..i] == es;
      assert buf.bytes == head + (Encode32(|es|) + EncodeAll(es));
    } else {
      assert buf.bytes == head + [];
    }
    buf.UnsafeAssign(area, Encode32(|buf.bytes| - begin));
    FramedContent(v);
  }

  method EncodePairs(ghost v: Value, es: seq<Entry>, buf: IOBuf, garbage: Byte)
    requires v == Map(es)
    modifies buf
    ensures buf.bytes == old(buf.bytes) + Encode(v)
    decreases es, 0
  {
    hide Encode32, Encode16, EncodeAll, EncodeEntries, Encode;
    var area := buf.Reserve(4, garbage);
    var begin := |buf.bytes|;
    ghost var head := buf.bytes;
    if es != [] {
      buf.AppendBytes(Encode32(|es|));
      NothingEncoded();
      assert es[..0] == [];
      var i := 0;
      while i < |es|
        invariant 0 <= i <= |es| && buf.bytes == head + Encode32(|es|) + EncodeEntries(es[..i])
      {
        assert es[..i + 1] == es[..i] + [es[i]];
        EncodeEntriesSnoc(es[..i], es[i]);
        EncodePair(es[i], buf, garbage);
        i := i + 1;
      }
      assert es[..i] == es;
    }
    assert buf.bytes == head + Content(v);
    buf.UnsafeAssign(area, Encode32(|buf.bytes| - begin));
    FramedContent(v);
  }

  method EncodePair(e: Entry, buf: IOBuf, garbage: Byte)
    modifies buf
    ensures buf.bytes == old(buf.bytes) + EncodeEntry(e)
    decreases e, 0
  {
    EncodeBytes(e.key, buf, garbage);
    EncodeBytes(e.val, buf, garbage);
  }

  /** The return code that stands for the outcome of a decoding. */
  function Code<T>(d: Decoded<T>): int {
    if d.Failure? then -1 else if d.isNull then 1 else 0
  }

  method DecodeInt32(iter: BytesIterator) returns (n: int)
    requires iter.Valid() && |iter.Left()| >= 4
    modifies iter
    ensures iter.Valid() && n == Int32(Unsigned32(old(iter.Left()))) && iter.Left() == old(iter.Left())[4..]
  {
    var b := iter.Forward(4);
    n := Int32(Unsigned32(b));
  }

  /** Decodes one value of type `ty` into a fresh output. */
  method DecodeBytes(lt: Order, ty: Type, iter: BytesIterator) returns (code: int, out: Value)
    requires iter.Valid()
    modifies iter
    ensures iter.Valid()
    ensures var d := Decode(lt, ty, old(iter.Left()));
            code == Code(d) && (d.Success? ==> out == d.value && iter.Left() == d.rest)
    decreases ty, 1, 0
  {
    out := Default(ty);
    if |iter.Left()| < 4 {
      return -1, out;
    }
    ghost var whole := iter.Left();
    var n := DecodeInt32(iter);
    match ty
    case TText => code, out := DecodeTextBytes(iter, n);
    case TBool =>
      if n == 1 {
        if |iter.Left()| < 1 {
          return -1, out;
        }
        return 0, Bool(iter.Left()[0] == 1);
      }
      code := if n <= 0 then 1 else -1;
    case TList(_) => code, out := DecodeElements(lt, ty, iter, n, whole);
    case TSet(_) => code, out := DecodeElements(lt, ty, iter, n, whole);
    case TMap(_, _) => code, out := DecodePairs(lt, ty, iter, n, whole);
    case _ =>
      if n == Width(ty) {
        if |iter.Left()| < n {
          return -1, out;
        }
        out := Scalar(ty, iter.Left());
        var _ := iter.Forward(n);
        return 0, out;
      }
      code := if n <= 0 then 1 else -1;
  }

  method DecodeTextBytes(iter: BytesIterator, n: int) returns (code: int, out: Value)
    requires iter.Valid()
    modifies iter
    ensures iter.Valid()
    ensures var d := DecodeText(n, old(iter.Left()));
            code == Code(d) && (d.Success? ==> out == d.value && iter.Left() == d.rest)
  {
    out := Text([]);
    if n <= 0 {
      return 1, out;
    }
    if ToInt(|iter.Left()|) < n {
      return -1, out;
    }
    var b := iter.Forward(n);
    return 0, Text(b);
  }

  /** The iterator stands just after the length `n` that begins `whole`. */
  ghost predicate AfterLength(iter: BytesIterator, n: int, whole: seq<Byte>)
    reads iter
  {
    iter.Valid() && |whole| >= 4 && n == Int32(Unsigned32(whole)) && iter.Left() == whole[4..]
  }

  /** The loop over the elements of a vector or a set. */
  method DecodeElements(lt: Order, ty: Type, iter: BytesIterator, n: int, ghost whole: seq<Byte>) returns (code: int, out: Value)
    requires (ty.TList? || ty.TSet?) && AfterLength(iter, n, whole)
    modifies iter
    ensures iter.Valid()
    ensures var d := Decode(lt, ty, whole); code == Code(d) && (d.Success? ==> out == d.value && iter.Left() == d.rest)
    decreases ty, 0, 1
  {
    hide DecodeList, DecodeSet;
    out := Default(ty);
    if n <= 0 {
      return 1, out;
    }
    if |iter.Left()| < 4 {
      return -1, out;
    }
    var size := DecodeInt32(iter);
    var ok, es := CollectElements(lt, ty, iter, LoopBound(size));
    if ok {
      out := if ty.TList? then List(es) else Set(es);
    }
    code := if ok then 0 else -1;
  }

  /** Decodes `count` elements one after the other. */
  method CollectElements(lt: Order, ty: Type, iter: BytesIterator, count: nat) returns (ok: bool, es: seq<Value>)
    requires (ty.TList? || ty.TSet?) && iter.Valid()
    modifies iter
    ensures iter.Valid()
    ensures var d := Collect(lt, ty, count, old(iter.Left()), []); ok == d.Success? && (ok ==> es == d.value && iter.Left() == d.rest)
    decreases ty, 0, 0
  {
    hide Decode, Emplace;
    ghost var body := iter.Left();
    es := [];
    var i := 0;
    while i != count
      invariant 0 <= i <= count && iter.Valid()
      invariant Collect(lt, ty, count - i, iter.Left(), es) == Collect(lt, ty, count, body, [])
      decreases count - i
    {
      var c, e := DecodeBytes(lt, ty.elem, iter);
      if c == -1 {
        return false, es;
      }
      es := if ty.TList? then es + [e] else Emplace(lt, es, e);
      i := i + 1;
    }
    ok := true;
  }

  function Collect(lt: Order, ty: Type, n: nat, b: seq<Byte>, acc: seq<Value>): Decoded<seq<Value>>
    requires ty.TList? || ty.TSet?
  {
    if ty.TList? then DecodeList(lt, ty.elem, n, b, acc) else DecodeSet(lt, ty.elem, n, b, acc)
  }

  /** One round of the loop: a key and the value for it. */
  method DecodePair(lt: Order, ty: Type, iter: BytesIterator) returns (ok: bool, e: Entry)
    requires ty.TMap? && iter.Valid()
    modifies iter
    ensures iter.Valid()
    ensures var d := DecodeEntry(lt, ty.key, ty.val, old(iter.Left())); (ok <==> d.Success?) && (ok ==> e == d.value && iter.Left() == d.rest)
    decreases ty, 0, 0
  {
    hide Decode;
    e := Entry(Default(ty.key), Default(ty.val));
    var c, k := DecodeBytes(lt, ty.key, iter);
    if c == -1 {
      return false, e;
    }
    var d, v := DecodeBytes(lt, ty.val, iter);
    if d == -1 {
      return false, e;
    }
    return true, Entry(k, v);
  }

  method DecodePairs(lt: Order, ty: Type, iter: BytesIterator, n: int, ghost whole: seq<Byte>) returns (code: int, out: Value)
    requires ty.TMap? && AfterLength(iter, n, whole)
    modifies iter
    ensures iter.Valid()
    ensures var d := Decode(lt, ty, whole); code == Code(d) && (d.Success? ==> out == d.value && iter.Left() == d.rest)
    decreases ty, 0, 1
  {
    out := Default(ty);
    if n <= 0 {
      return 1, out;
    }
    if |iter.Left()| < 4 {
      return -1, out;
    }
    var size := DecodeInt32(iter);
    var count := LoopBound(size);
    ghost var body := iter.Left();
    var es: seq<Entry> := [];
    var i := 0;
    while i != count
      invariant 0 <= i <= count && iter.Valid()
      invariant DecodeMap(lt, ty.key, ty.val, count - i, iter.Left(), es) == DecodeMap(lt, ty.key, ty.val, count, body, [])
      decreases count - i
    {
      var ok, e := DecodePair(lt, ty, iter);
      if !ok {
        return -1, out;
      }
      es := EmplaceEntry(lt, es, e);
      i := i + 1;
    }
    out := Map(es);
    code := 0;
  }
}
