/**
 The same allocator run by one thread at a time: the methods of `CqlParsingContext` as they read and write
 the bucket words, the round-robin counter and the slots in place.
 */
module StreamTable {
  import opened Arith
  import opened StreamIds
  import opened Wrappers

  /** The bucket `e` places after `begin`, going round. */
  function Around(begin: nat, e: nat, n: nat): nat
    requires begin < n && e < n
  {
    if begin + e < n then begin + e else begin + e - n
  }

  lemma StepRound(i: nat, n: nat)
    requires i < n
    ensures (i + 1) % n == if i + 1 == n then 0 else i + 1
  {
    if i + 1 < n {
      DivModUnique(i + 1, n, 0, i + 1);
    } else {
      DivModUnique(i + 1, n, 1, 0);
    }
  }

  /** The first `d` buckets met going round from `begin` have no free bit. */
  ghost predicate EmptyRun(buckets: seq<set<nat>>, begin: nat, d: nat)
    requires begin < |buckets| && d <= |buckets|
  {
    forall e :: 0 <= e < d ==> buckets[Around(begin, e, |buckets|)] == {}
  }

  lemma AllEmpty(m: Mem, begin: nat)
    requires Shape(m) && begin < |m.buckets| && EmptyRun(m.buckets, begin, |m.buckets|)
    ensures forall k :: 0 <= k < |m.slots| ==> !m.Free(k)
  {
    forall k | 0 <= k < |m.slots|
      ensures !m.Free(k)
    {
      var b, n := k / BITS, |m.buckets|;
      var e := if b >= begin then b - begin else n + b - begin;
      assert b < n && Around(begin, e, n) == b;
    }
  }

  /** Between calls a bit is free exactly when its slot is empty, and the counter counts the occupied slots. */
  ghost predicate TableOk(m: Mem) {
    && Shape(m)
    && (forall id :: 0 <= id < |m.slots| ==> (m.Free(id) <==> m.slots[id] == INVALID))
    && m.count == |InFlight(m.slots)|
  }

  /** A bit and a slot that change together keep all bits in agreement. */
  lemma BitsKept(m: Mem, n: Mem, id: nat, cid: Cid, count: int)
    requires Shape(m) && Shape(n) && OnlyAt(m, n, id) && id < |m.slots| && (n.Free(id) <==> cid == INVALID)
    requires forall k :: 0 <= k < |m.slots| ==> (m.Free(k) <==> m.slots[k] == INVALID)
    ensures var t := n.(slots := m.slots[id := cid], count := count);
            Shape(t) && forall k :: 0 <= k < |t.slots| ==> (t.Free(k) <==> t.slots[k] == INVALID)
  {
    var t := n.(slots := m.slots[id := cid], count := count);
    forall k | 0 <= k < |t.slots|
      ensures t.Free(k) <==> t.slots[k] == INVALID
    {
      assert t.Free(k) == n.Free(k);
    }
  }

  lemma AddOk(m: Mem, id: nat, cid: Cid)
    requires TableOk(m) && id < |m.slots| && m.Free(id) && cid != INVALID
    ensures TableOk(ClearBit(m, id / BITS, id % BITS).(slots := m.slots[id := cid], count := m.count + 1))
  {
    hide InFlight, Shape, OnlyAt;
    BitChanges(m, id);
    BitsKept(m, ClearBit(m, id / BITS, id % BITS), id, cid, m.count + 1);
    SlotFilled(m.slots, id, cid);
  }

  lemma RemoveOk(m: Mem, id: nat)
    requires TableOk(m) && id < |m.slots| && !m.Free(id)
    ensures TableOk(SetBit(m, id / BITS, id % BITS).(slots := m.slots[id := INVALID], count := m.count - 1))
  {
    hide InFlight, Shape, OnlyAt;
    BitChanges(m, id);
    BitsKept(m, SetBit(m, id / BITS, id % BITS), id, INVALID, m.count - 1);
    SlotFilled(m.slots[id := INVALID], id, m.slots[id]);
    assert m.slots[id := INVALID][id := m.slots[id]] == m.slots;
  }

  class Table {
    var buckets: seq<set<nat>>
    var index: nat
    var slots: seq<Cid>
    var count: int

    ghost function View(): Mem
      reads this
    {
      Mem(buckets, index, slots, count, multiset{}, multiset{})
    }

    ghost predicate Valid()
      reads this
    {
      TableOk(View()) && Stride(|buckets|) > 0
    }

    constructor (limit: nat)
      requires PermittedLimit(limit)
      ensures Valid() && |buckets| == Buckets(limit) && index == 0
      ensures forall id :: 0 <= id < |slots| ==> slots[id] == INVALID
    {
      buckets := seq(Buckets(limit), _ => LowBits(BITS));
      index := 0;
      slots := seq(Buckets(limit) * BITS, _ => INVALID);
      count := 0;
      new;
      StrideExists(limit);
      EmptyInFlight(slots);
    }

    /** The CAS of `FindAndSetFirstAvailableStream` cannot fail here, so its loop runs once. */
    method FindAndSetFirstAvailableStream(i: nat) returns (offset: int)
      requires Shape(View()) && i < |buckets|
      modifies this`buckets
      ensures offset == -1 <==> old(buckets[i]) == {}
      ensures offset == -1 ==> buckets == old(buckets)
      ensures offset != -1 ==>
                && 0 <= offset < BITS && offset in old(buckets[i])
                && (forall k :: 0 <= k < offset ==> k !in old(buckets[i]))
                && buckets == old(buckets)[i := old(buckets[i]) - {offset}]
    {
      var word := buckets[i];
      match LowestBit(word)
      case None =>
        assert word == {} by {
          assert forall k: nat :: k in word ==> k < BITS;
        }
        offset := -1;
      case Some(bit) =>
        buckets := buckets[i := word - {bit}];
        offset := bit;
    }

    /** The scan of `AllocateStreamId`: once round the buckets from `begin`. */
    method ScanBuckets(begin: nat) returns (id: int, ghost d: nat)
      requires Shape(View()) && begin < |buckets|
      modifies this`buckets
      ensures |buckets| == old(|buckets|) && d < |buckets|
      ensures id == -1 ==> buckets == old(buckets) && forall k :: 0 <= k < |slots| ==> !old(View()).Free(k)
      ensures id != -1 ==>
                && 0 <= id < |slots| && old(View()).Free(id)
                && buckets == ClearBit(old(View()), id / BITS, id % BITS).buckets
                && (forall k :: 0 <= k < id % BITS ==> k !in old(buckets)[id / BITS])
                && EmptyRun(old(buckets), begin, d) && id / BITS == Around(begin, d, |buckets|)
    {
      var n := |buckets|;
      var i := begin;
      d := 0;
      while true
        invariant d < n == |buckets| && i == Around(begin, d, n) && buckets == old(buckets) && EmptyRun(buckets, begin, d)
        decreases n - d
      {
        var offset := FindAndSetFirstAvailableStream(i);
        if offset >= 0 {
          id := offset + BITS * i;
          assert id / BITS == i && id % BITS == offset;
          return;
        }
        StepRound(i, n);
        i := (i + 1) % n;
        if i == begin {
          AllEmpty(old(View()), begin);
          id := -1;
          return;
        }
        d := d + 1;
      }
    }

    /**
     Allocation fails exactly when no id is free; otherwise it takes the lowest free bit of the first bucket
     that has one, going round from the bucket the counter points at.
     */
    method AllocateStreamId() returns (id: int)
      requires Shape(View()) && Stride(|buckets|) > 0
      modifies this`buckets, this`index
      ensures |buckets| == old(|buckets|) && index == (old(index) + Stride(|buckets|)) % COUNTER_LIMIT
      ensures id == -1 <==> forall k :: 0 <= k < |slots| ==> !old(View()).Free(k)
      ensures id == -1 ==> buckets == old(buckets)
      ensures id != -1 ==>
                && 0 <= id < |slots| && old(View()).Free(id)
                && buckets == ClearBit(old(View()), id / BITS, id % BITS).buckets
                && (forall k :: 0 <= k < id % BITS ==> k !in old(buckets)[id / BITS])
                && (exists d :: 0 <= d < |buckets| && EmptyRun(old(buckets), old(index) % |buckets|, d)
                             && id / BITS == Around(old(index) % |buckets|, d, |buckets|))
    {
      var n := |buckets|;
      var begin := index % n;
      index := (index + Stride(n)) % COUNTER_LIMIT;
      assert forall k: nat :: View().Free(k) == old(View()).Free(k);
      ghost var d;
      id, d := ScanBuckets(begin);
    }

    /** The table stays well formed exactly if the stream is a valid one: an invalid one takes an id and leaves no trace. */
    method AddStream(cid: Cid) returns (id: int)
      requires Valid()
      modifies this
      ensures Valid() <==> id == -1 || cid != INVALID
      ensures |buckets| == old(|buckets|) && |slots| == old(|slots|)
      ensures id == -1 <==> forall k :: 0 <= k < |slots| ==> old(slots)[k] != INVALID
      ensures id == -1 ==> slots == old(slots)
      ensures id != -1 ==> 0 <= id < |slots| && old(slots)[id] == INVALID && slots == old(slots)[id := cid]
    {
      id := AllocateStreamId();
      if id >= 0 {
        if cid != INVALID {
          AddOk(old(View()), id, cid);
        } else {
          BitChanges(old(View()), id);
        }
        slots := slots[id := cid];
        count := count + 1;
        assert cid == INVALID ==> !View().Free(id) && slots[id] == INVALID;
      }
    }

    method RemoveStream(id: int) returns (ok: bool)
      requires Valid()
      modifies this`buckets, this`slots, this`count
      ensures Valid() && |buckets| == old(|buckets|) && |slots| == old(|slots|)
      ensures ok <==> 0 <= id < |slots| && old(slots)[id] != INVALID
      ensures slots == if ok then old(slots)[id := INVALID] else old(slots)
    {
      if id < 0 || id / BITS >= |buckets| {
        return false;
      }
      var bit := id % BITS;
      if bit in buckets[id / BITS] {
        assert View().Free(id);
        return false;
      }
      RemoveOk(View(), id);
      slots := slots[id := INVALID];
      buckets := buckets[id / BITS := buckets[id / BITS] + {bit}];
      count := count - 1;
      ok := true;
    }

    method FindStream(id: int) returns (cid: Cid)
      requires Valid()
      ensures cid == if 0 <= id < |slots| then slots[id] else INVALID
    {
      if id >= 0 && id / BITS < |buckets| && id % BITS !in buckets[id / BITS] {
        cid := slots[id];
      } else {
        cid := INVALID;
      }
    }
  }
}
