/** A value whose bytes end early is never read as some other value: decoding fails. */
module Truncation {
  import opened Bytes
  import opened ValueCodec

  /** The first `k` bytes of two sequences put together. */
  lemma PrefixOfTwo(a: seq<Byte>, b: seq<Byte>, k: nat)
    requires k <= |a| + |b|
    ensures k <= |a| ==> (a + b)[..k] == a[..k]
    ensures k >= |a| ==> (a + b)[..k] == a + b[..k - |a|]
  {
  }

  /** The length of a value cut after its length is still read, and the content is short. */
  lemma LengthOfPrefix(c: seq<Byte>, k: nat)
    requires |c| < TWO_31 && 4 <= k < 4 + |c|
    ensures var b := Framed(c)[..k]; |b| == k && Int32(Unsigned32(b)) == |c| && b[4..] == c[..k - 4]
  {
    PrefixOfTwo(Encode32(|c|), c, k);
    Signed32(|c|, c[..k - 4]);
  }

  lemma FixedWidth(lt: Order, ty: Type, v: Value)
    requires Typed(lt, ty, v) && (v.I32? || v.I64? || v.F32? || v.F64?)
    ensures |Content(v)| == Width(ty) && !ty.TText? && !ty.TBool? && !ty.TList? && !ty.TSet? && !ty.TMap?
  {
  }

  lemma LeafCutFails(lt: Order, ty: Type, v: Value, k: nat)
    requires Typed(lt, ty, v) && |Encode(v)| < TWO_31 && 4 <= k < |Encode(v)| && !v.List? && !v.Set? && !v.Map?
    ensures Decode(lt, ty, Encode(v)[..k]) == Failure
  {
    hide Content, Encode32;
    LengthOfPrefix(Content(v), k);
    if v.Text? {
      assert ToInt(k - 4) == k - 4;
    } else {
      FixedWidth(lt, ty, v);
    }
  }

  /** The count of a collection is read; if that is cut, decoding fails at once. */
  lemma CountOfPrefix(n: nat, body: seq<Byte>, k: nat)
    requires 0 < n < TWO_31 && 4 + |body| < TWO_31 && 4 <= k < 8 + |body|
    ensures var c := Encode32(n) + body; var b := Framed(c)[..k];
            && |b| == k && Int32(Unsigned32(b)) > 0
            && (k >= 8 ==> LoopBound(Int32(Unsigned32(b[4..]))) == n && b[4..][4..] == body[..k - 8])
  {
    hide Unsigned32;
    var c := Encode32(n) + body;
    LengthOfPrefix(c, k);
    if k >= 8 {
      PrefixOfTwo(Encode32(n), body, k - 4);
      CountReadsBack(n, body[..k - 8]);
    }
  }

  /** Any proper beginning of the bytes of a value, however nested, is refused. */
  lemma {:induction false} CutFails(lt: Order, ty: Type, v: Value, k: nat)
    requires Typed(lt, ty, v) && |Encode(v)| < TWO_31 && k < |Encode(v)|
    ensures Decode(lt, ty, Encode(v)[..k]) == Failure
    decreases v, 1
  {
    hide Encode32, EncodeAll, EncodeEntries, DecodeList, DecodeSet, DecodeMap;
    if k >= 4 {
      match v
      case List(es) =>
        AtLeastFour(es);
        CountOfPrefix(|es|, EncodeAll(es), k);
        if k >= 8 {
          ListCutFails(lt, ty.elem, es, k - 8, []);
        }
      case Set(es) =>
        AtLeastFour(es);
        CountOfPrefix(|es|, EncodeAll(es), k);
        if k >= 8 {
          SetCutFails(lt, ty.elem, es, k - 8, []);
        }
      case Map(es) =>
        AtLeastEight(es);
        CountOfPrefix(|es|, EncodeEntries(es), k);
        if k >= 8 {
          MapCutFails(lt, ty.key, ty.val, es, k - 8, []);
        }
      case _ => LeafCutFails(lt, ty, v, k);
    }
  }

  /** What decoding the first of several elements gives when the bytes are cut somewhere. */
  lemma {:induction false} FirstOfCut(lt: Order, ty: Type, v: Value, others: seq<Byte>, k: nat)
    requires Typed(lt, ty, v) && |Encode(v)| + |others| < TWO_31 && k < |Encode(v)| + |others|
    ensures var d := Decode(lt, ty, (Encode(v) + others)[..k]);
            if k < |Encode(v)| then d == Failure else d == Success(IsEmpty(v), v, others[..k - |Encode(v)|])
    decreases v, 2
  {
    hide Decode, Encode, IsEmpty, Typed, Reads;
    PrefixOfTwo(Encode(v), others, k);
    if k < |Encode(v)| {
      CutFails(lt, ty, v, k);
    } else {
      var rest := others[..k - |Encode(v)|];
      ShortReads(v, |rest|);
      RoundTrip(lt, ty, v, rest);
    }
  }

  lemma {:induction false} ListCutFails(lt: Order, ty: Type, es: seq<Value>, k: nat, acc: seq<Value>)
    requires (forall i :: 0 <= i < |es| ==> Typed(lt, ty, es[i])) && |EncodeAll(es)| < TWO_31 && k < |EncodeAll(es)|
    ensures DecodeList(lt, ty, |es|, EncodeAll(es)[..k], acc) == Failure
    decreases es, 0
  {
    hide Decode, Encode, IsEmpty, Typed;
    var first := Encode(es[0]);
    FirstOfCut(lt, ty, es[0], EncodeAll(es[1..]), k);
    if k >= |first| {
      ListCutFails(lt, ty, es[1..], k - |first|, acc + [es[0]]);
    }
  }

  lemma {:induction false} SetCutFails(lt: Order, ty: Type, es: seq<Value>, k: nat, acc: seq<Value>)
    requires (forall i :: 0 <= i < |es| ==> Typed(lt, ty, es[i])) && |EncodeAll(es)| < TWO_31 && k < |EncodeAll(es)|
    ensures DecodeSet(lt, ty, |es|, EncodeAll(es)[..k], acc) == Failure
    decreases es, 0
  {
    hide Decode, Encode, IsEmpty, Typed, Emplace;
    var first := Encode(es[0]);
    FirstOfCut(lt, ty, es[0], EncodeAll(es[1..]), k);
    if k >= |first| {
      SetCutFails(lt, ty, es[1..], k - |first|, Emplace(lt, acc, es[0]));
    }
  }

  /** The same for an entry, whose key or value is cut. */
  lemma {:induction false} EntryOfCut(lt: Order, key: Type, val: Type, e: Entry, others: seq<Byte>, k: nat)
    requires TypedEntry(lt, key, val, e) && |EncodeEntry(e)| + |others| < TWO_31 && k < |EncodeEntry(e)| + |others|
    ensures var d := DecodeEntry(lt, key, val, (EncodeEntry(e) + others)[..k]);
            if k < |EncodeEntry(e)| then d == Failure else d == Success(false, e, others[..k - |EncodeEntry(e)|])
    decreases e, 0
  {
    hide Decode, Encode, IsEmpty, Typed;
    var left := Encode(e.val) + others;
    assert EncodeEntry(e) + others == Encode(e.key) + left;
    FirstOfCut(lt, key, e.key, left, k);
    if k >= |Encode(e.key)| {
      FirstOfCut(lt, val, e.val, others, k - |Encode(e.key)|);
    }
  }

  lemma {:induction false} MapCutFails(lt: Order, key: Type, val: Type, es: seq<Entry>, k: nat, acc: seq<Entry>)
    requires (forall i :: 0 <= i < |es| ==> TypedEntry(lt, key, val, es[i])) && |EncodeEntries(es)| < TWO_31 && k < |EncodeEntries(es)|
    ensures DecodeMap(lt, key, val, |es|, EncodeEntries(es)[..k], acc) == Failure
    decreases es, 0
  {
    hide DecodeEntry, EncodeEntry, TypedEntry, EmplaceEntry;
    var first := EncodeEntry(es[0]);
    EntryOfCut(lt, key, val, es[0], EncodeEntries(es[1..]), k);
    if k >= |first| {
      MapCutFails(lt, key, val, es[1..], k - |first|, EmplaceEntry(lt, acc, es[0]));
    }
  }
}
