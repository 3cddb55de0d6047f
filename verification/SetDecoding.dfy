/**
 A server may send the elements of a set, and the entries of a map, in any order and more than once: what is
 decoded is in order, without duplicates, and a key keeps the first value sent with it.
 */
module SetDecoding {
  import opened Bytes
  import opened ValueCodec

  /** The comparison of the C++ type is a strict total order. */
  ghost predicate Linear(lt: Order) {
    && (forall a :: !lt(a, a))
    && (forall a, b :: a != b ==> lt(a, b) || lt(b, a))
    && (forall a, b, c :: lt(a, b) && lt(b, c) ==> lt(a, c))
  }

  /** `emplace` keeps a set in order and adds the element, unless it is there. */
  lemma {:induction false} EmplaceMeans(lt: Order, s: seq<Value>, v: Value)
    requires Linear(lt) && Ascending(lt, s)
    ensures var t := Emplace(lt, s, v); Ascending(lt, t) && forall x :: x in t <==> x in s || x == v
  {
    if s != [] {
      var k := |s| - 1;
      var last := s[k];
      assert s == s[..k] + [last];
      if lt(last, v) {
        assert forall i :: 0 <= i < k ==> lt(s[i], last);
      } else if lt(v, last) {
        EmplaceMeans(lt, s[..k], v);
        var t := Emplace(lt, s[..k], v);
        forall i | 0 <= i < |t|
          ensures lt(t[i], last)
        {
          assert t[i] in t;
          assert t[i] == v || t[i] in s[..k];
        }
      }
    }
  }

  predicate HasKey(s: seq<Entry>, k: Value) {
    exists i :: 0 <= i < |s| && s[i].key == k
  }

  /** The same for a map, in which a key that is there keeps its value. */
  lemma {:induction false} EmplaceEntryMeans(lt: Order, s: seq<Entry>, e: Entry)
    requires Linear(lt) && AscendingKeys(lt, s)
    ensures var t := EmplaceEntry(lt, s, e); AscendingKeys(lt, t) && forall x :: x in t <==> x in s || (x == e && !HasKey(s, e.key))
  {
    if s != [] {
      var k := |s| - 1;
      var last := s[k];
      assert s == s[..k] + [last];
      assert HasKey(s, e.key) <==> HasKey(s[..k], e.key) || last.key == e.key;
      if lt(last.key, e.key) {
        assert forall i :: 0 <= i < k ==> lt(s[i].key, last.key);
      } else if lt(e.key, last.key) {
        EmplaceEntryMeans(lt, s[..k], e);
        var t := EmplaceEntry(lt, s[..k], e);
        forall i | 0 <= i < |t|
          ensures lt(t[i].key, last.key)
        {
          assert t[i] in t;
          assert t[i] == e || t[i] in s[..k];
        }
      }
    }
  }

  /** Decoding the elements of a set, whatever their order. */
  lemma {:induction false} SetOfAny(lt: Order, ty: Type, es: seq<Value>, acc: seq<Value>, rest: seq<Byte>)
    requires Linear(lt) && Ascending(lt, acc) && forall i :: 0 <= i < |es| ==> Typed(lt, ty, es[i])
    requires |EncodeAll(es)| + |rest| < TWO_31
    ensures var d := DecodeSet(lt, ty, |es|, EncodeAll(es) + rest, acc);
            d.Success? && d.rest == rest && Ascending(lt, d.value) && forall x :: x in d.value <==> x in acc || x in es
    decreases |es|
  {
    hide Linear, Ascending, Typed, Emplace, Encode, Decode, IsEmpty, Reads;
    if es == [] {
      assert EncodeAll(es) + rest == rest;
    } else {
      var left := EncodeAll(es[1..]) + rest;
      assert EncodeAll(es) + rest == Encode(es[0]) + left;
      ShortReads(es[0], |left|);
      RoundTrip(lt, ty, es[0], left);
      EmplaceMeans(lt, acc, es[0]);
      SetOfAny(lt, ty, es[1..], Emplace(lt, acc, es[0]), rest);
      assert es == [es[0]] + es[1..];
    }
  }

  /** A set whose elements are sent in any order, any number of times, is read as the set of those elements, in order. */
  lemma SetReads(lt: Order, ty: Type, es: seq<Value>, rest: seq<Byte>)
    requires Linear(lt) && (forall i :: 0 <= i < |es| ==> Typed(lt, ty, es[i])) && es != []
    requires |Encode(Set(es))| + |rest| < TWO_31
    ensures var d := Decode(lt, TSet(ty), Encode(Set(es)) + rest);
            && d.Success? && !d.isNull && d.rest == rest && d.value.Set?
            && Ascending(lt, d.value.elems) && forall x :: x in d.value.elems <==> x in es
  {
    hide Linear, Typed, Decode, DecodeSet, EncodeAll, Ascending;
    NothingAscends(lt);
    AtLeastFour(es);
    SetOfAny(lt, ty, es, [], rest);
    var d := DecodeSet(lt, ty, |es|, EncodeAll(es) + rest, []);
    CollectionFrame(Set(es), |es|, EncodeAll(es), rest);
    NeverNull(lt, ty, |es|, EncodeAll(es) + rest, []);
    SetBody(lt, ty, Encode(Set(es)) + rest, |es|, EncodeAll(es) + rest, true, d.value, rest);
  }

  lemma NothingAscends(lt: Order)
    ensures Ascending(lt, []) && AscendingKeys(lt, [])
  {
  }

  lemma {:induction false} NeverNull(lt: Order, ty: Type, n: nat, b: seq<Byte>, acc: seq<Value>)
    ensures DecodeSet(lt, ty, n, b, acc).Success? ==> !DecodeSet(lt, ty, n, b, acc).isNull
    decreases n
  {
    hide Decode, Emplace;
    if n > 0 && Decode(lt, ty, b).Success? {
      NeverNull(lt, ty, n - 1, Decode(lt, ty, b).rest, Emplace(lt, acc, Decode(lt, ty, b).value));
    }
  }

  // ---------------------------------------------------------------------------------------------
  // Maps
  // ---------------------------------------------------------------------------------------------

  /** Entry `x` is the first one sent with its key. */
  predicate FirstOfKey(es: seq<Entry>, x: Entry) {
    es != [] && (es[0] == x || (es[0].key != x.key && FirstOfKey(es[1..], x)))
  }

  lemma AddedKey(s: seq<Entry>, t: seq<Entry>, e: Entry, k: Value)
    requires forall x :: x in t <==> x in s || (x == e && !HasKey(s, e.key))
    ensures HasKey(t, k) <==> HasKey(s, k) || k == e.key
  {
    if HasKey(s, k) {
      var i :| 0 <= i < |s| && s[i].key == k;
      assert s[i] in t;
      Holds(t, s[i]);
    } else if k == e.key {
      Holds(t, e);
    } else if HasKey(t, k) {
      var i :| 0 <= i < |t| && t[i].key == k;
      assert t[i] in t && t[i] in s;
      Holds(s, t[i]);
      assert false;
    }
  }

  lemma Holds(t: seq<Entry>, e: Entry)
    requires e in t
    ensures HasKey(t, e.key)
  {
    var i :| 0 <= i < |t| && t[i] == e;
  }

  /** Decoding the entries of a map, whatever their order. */
  lemma {:induction false} MapOfAny(lt: Order, key: Type, val: Type, es: seq<Entry>, acc: seq<Entry>, rest: seq<Byte>)
    requires Linear(lt) && AscendingKeys(lt, acc) && forall i :: 0 <= i < |es| ==> TypedEntry(lt, key, val, es[i])
    requires |EncodeEntries(es)| + |rest| < TWO_31
    ensures var d := DecodeMap(lt, key, val, |es|, EncodeEntries(es) + rest, acc);
            && d.Success? && !d.isNull && d.rest == rest && AscendingKeys(lt, d.value)
            && forall x :: x in d.value <==> x in acc || (FirstOfKey(es, x) && !HasKey(acc, x.key))
    decreases |es|
  {
    hide Linear, AscendingKeys, TypedEntry, EmplaceEntry, EncodeEntry, DecodeEntry, HasKey;
    if es == [] {
      assert EncodeEntries(es) + rest == rest;
    } else {
      var left := EncodeEntries(es[1..]) + rest;
      assert EncodeEntries(es) + rest == EncodeEntry(es[0]) + left;
      ShortReadsEntry(es[0], |left|);
      EntryRoundTrip(lt, key, val, es[0], left);
      EmplaceEntryMeans(lt, acc, es[0]);
      var now := EmplaceEntry(lt, acc, es[0]);
      MapOfAny(lt, key, val, es[1..], now, rest);
      forall x
        ensures x in now || (FirstOfKey(es[1..], x) && !HasKey(now, x.key)) <==> x in acc || (FirstOfKey(es, x) && !HasKey(acc, x.key))
      {
        AddedKey(acc, now, es[0], x.key);
      }
    }
  }

  /** A map whose entries are sent in any order, keys repeated, is read with its keys in order, each with the first value sent for it. */
  lemma MapReads(lt: Order, key: Type, val: Type, es: seq<Entry>, rest: seq<Byte>)
    requires Linear(lt) && (forall i :: 0 <= i < |es| ==> TypedEntry(lt, key, val, es[i])) && es != []
    requires |Encode(Map(es))| + |rest| < TWO_31
    ensures var d := Decode(lt, TMap(key, val), Encode(Map(es)) + rest);
            && d.Success? && !d.isNull && d.rest == rest && d.value.Map?
            && AscendingKeys(lt, d.value.entries) && forall x :: x in d.value.entries <==> FirstOfKey(es, x)
  {
    hide Linear, TypedEntry, Decode, DecodeMap, EncodeEntries, AscendingKeys, FirstOfKey;
    NothingAscends(lt);
    AtLeastEight(es);
    MapOfAny(lt, key, val, es, [], rest);
    var d := DecodeMap(lt, key, val, |es|, EncodeEntries(es) + rest, []);
    CollectionFrame(Map(es), |es|, EncodeEntries(es), rest);
    MapBody(lt, key, val, Encode(Map(es)) + rest, |es|, EncodeEntries(es) + rest, true, d.value, rest);
  }
}
