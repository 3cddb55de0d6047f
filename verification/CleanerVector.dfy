/**
 The vector that holds the cleaners of a pool, down to the moves of its elements when it grows: a cleaner that
 was moved from holds no destructor, so destroying it runs nothing (example/brpc/memory_pool.hpp:205-222).
 */
module CleanerVector {
  import opened PoolSpec
  import opened Wrappers

  /** `~Cleaner`. */
  function DestroyOne(slot: Option<Cleaner>): (events: seq<Event>)
    ensures |events| == 1 <==> slot.Some?
  {
    match slot
    case None => []
    case Some(c) => [Run(c)]
  }

  class Vector {
    var data: array<Option<Cleaner>>
    var size: nat

    ghost predicate Valid()
      reads this, data
    {
      size <= data.Length && forall i :: 0 <= i < size ==> data[i].Some?
    }

    ghost function Contents(): seq<Cleaner>
      requires Valid()
      reads this, data
    {
      seq(size, i requires 0 <= i < size && Valid() reads this, data => data[i].value)
    }

    constructor ()
      ensures Valid() && Contents() == [] && fresh(data)
    {
      data := new Option<Cleaner>[0];
      size := 0;
    }

    /** The move constructor takes the storage over and leaves the other vector empty. */
    constructor MoveFrom(other: Vector)
      requires other.Valid()
      modifies other
      ensures Valid() && Contents() == old(other.Contents()) && data == old(other.data)
      ensures other.Valid() && other.Contents() == [] && fresh(other.data)
    {
      data, size := other.data, other.size;
      new;
      other.Abandon();
    }

    /** What a move leaves behind. */
    method Abandon()
      modifies this
      ensures Valid() && Contents() == [] && fresh(data)
    {
      data := new Option<Cleaner>[0];
      size := 0;
    }

    /** Move assignment to an empty vector. */
    method Assign(other: Vector)
      requires Valid() && Contents() == [] && other.Valid() && other != this
      modifies this, other
      ensures Valid() && Contents() == old(other.Contents()) && data == old(other.data)
      ensures other.Valid() && other.Contents() == [] && fresh(other.data)
    {
      data, size := other.data, other.size;
      other.Abandon();
    }

    /** Moves every element to new storage; the old elements are destroyed, which runs no destructor. */
    method Grow(capacity: nat) returns (events: seq<Event>)
      requires Valid() && capacity > size
      modifies this, data
      ensures Valid() && Contents() == old(Contents()) && data.Length == capacity && fresh(data) && events == []
    {
      var larger := new Option<Cleaner>[capacity](_ => None);
      var i := 0;
      while i < size
        invariant 0 <= i <= size <= data.Length && size == old(size) && data == old(data) && size < larger.Length
        invariant forall j :: 0 <= j < i ==> larger[j] == old(data[j]) && data[j] == None
        invariant forall j :: i <= j < size ==> data[j] == old(data[j])
      {
        larger[i] := data[i];
        data[i] := None;
        i := i + 1;
      }
      events := [];
      i := 0;
      while i < size
        invariant 0 <= i <= size && events == []
      {
        events := events + DestroyOne(data[i]);
        i := i + 1;
      }
      data := larger;
    }

    /** `emplace_back`. */
    method EmplaceBack(c: Cleaner, capacity: nat) returns (events: seq<Event>)
      requires Valid() && capacity > size
      modifies this, data
      ensures Valid() && Contents() == old(Contents()) + [c] && events == [] && (data == old(data) || fresh(data))
    {
      events := [];
      if size == data.Length {
        events := Grow(capacity);
      }
      data[size] := Some(c);
      size := size + 1;
    }

    /** `clear` destroys the elements in order, so every destructor runs once. */
    method Clear() returns (events: seq<Event>)
      requires Valid()
      modifies this`size
      ensures Valid() && Contents() == [] && events == Runs(old(Contents()))
    {
      events := [];
      ghost var cs := Contents();
      var i := 0;
      while i < size
        invariant 0 <= i <= size && events == Runs(cs[..i])
      {
        assert cs[..i + 1] == cs[..i] + [cs[i]] && cs[..i + 1][..i] == cs[..i];
        events := events + DestroyOne(data[i]);
        i := i + 1;
      }
      assert cs[..i] == cs;
      size := 0;
    }
  }
}
