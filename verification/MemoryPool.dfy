/**
 `StaticMemoryPool` as it is written (example/brpc/memory_pool.hpp:58-397): blocks linked through `next`,
 walked and relinked in place.  Every method does to the chain of blocks what `PoolSpec` says, and returns the
 blocks it obtained and released and the cleaners it ran, in order.
 */
module MemoryPool {
  import opened Arith
  import opened BlockSize
  import opened CleanerVector
  import opened PoolSafety
  import opened PoolSpec

  /** `MemoryBlock`: the address of its data, its size, and the link to the next block. */
  class MemoryBlock {
    const base: nat
    const capacity: nat
    var next: MemoryBlock?

    constructor (base: nat, capacity: nat)
      ensures this.base == base && this.capacity == capacity && next == null
    {
      this.base := base;
      this.capacity := capacity;
      next := null;
    }

    function Value(): Block {
      Block(base, capacity)
    }
  }

  function Blocks(bs: seq<MemoryBlock>): seq<Block> {
    seq(|bs|, i requires 0 <= i < |bs| => bs[i].Value())
  }

  function At(bs: seq<MemoryBlock>, i: nat): MemoryBlock? {
    if i < |bs| then bs[i] else null
  }

  /** `first` leads through `bs`, in this order, and then ends. */
  ghost predicate Linked(bs: seq<MemoryBlock>, first: MemoryBlock?)
    reads bs
  {
    && first == At(bs, 0)
    && (forall i {:trigger bs[i].next} :: 0 <= i < |bs| ==> bs[i].next == At(bs, i + 1))
    && (forall i, j :: 0 <= i < j < |bs| ==> bs[i] != bs[j])
  }

  lemma FreesSnoc(bs: seq<Block>, b: Block)
    ensures Frees(bs + [b]) == Frees(bs) + [Free(b)]
  {
    assert (bs + [b])[..|bs|] == bs;
  }

  lemma FreesGrow(bs: seq<Block>, a: nat, b: nat)
    requires a <= b < |bs|
    ensures Frees(bs[a..b + 1]) == Frees(bs[a..b]) + [Free(bs[b])]
  {
    assert bs[a..b + 1] == bs[a..b] + [bs[b]];
    FreesSnoc(bs[a..b], bs[b]);
  }

  lemma BlocksUpTo(bs: seq<MemoryBlock>, i: nat)
    requires i < |bs|
    ensures Blocks(bs)[..i + 1] == Blocks(bs)[..i] + [bs[i].Value()]
  {
  }

  /** `destroy_blocks_start_from`: every block from `block` on is released, front to back. */
  method DestroyBlocksStartFrom(block: MemoryBlock?, ghost bs: seq<MemoryBlock>) returns (events: seq<Event>)
    requires Linked(bs, block)
    ensures events == Frees(Blocks(bs))
  {
    var b := block;
    events := [];
    ghost var i: nat := 0;
    while b != null
      invariant i <= |bs| && b == At(bs, i)
      invariant events == Frees(Blocks(bs)[..i])
      decreases |bs| - i
    {
      var gone := b;
      b := b.next;
      BlocksUpTo(bs, i);
      FreesSnoc(Blocks(bs)[..i], gone.Value());
      events := events + [Free(gone.Value())];
      i := i + 1;
    }
    assert Blocks(bs)[..i] == Blocks(bs);
  }

  lemma BlocksJoin(a: seq<MemoryBlock>, b: seq<MemoryBlock>)
    ensures Blocks(a + b) == Blocks(a) + Blocks(b)
  {
  }

  lemma BlocksReplaced(bs: seq<MemoryBlock>, i: nat, r: MemoryBlock, rest: seq<MemoryBlock>, n: nat)
    requires i + 1 + n <= |bs| && rest == bs[i + 1 + n..]
    ensures Blocks(bs[..i] + [r] + rest) == Blocks(bs)[..i] + [r.Value()] + Blocks(bs)[i + 1 + n..]
  {
  }

  /** The loop of `compact_block`: releases blocks after `block` until together they reach the block size. */
  method AbsorbBlocks(block: MemoryBlock, blockSize: nat, ghost bs: seq<MemoryBlock>, ghost first: MemoryBlock?, ghost i: nat)
    returns (next: MemoryBlock?, events: seq<Event>, ghost m: nat)
    requires Linked(bs, first) && i < |bs| && bs[i] == block
    ensures m == Absorbed(Blocks(bs), i + 1, block.capacity, blockSize) && next == At(bs, i + 1 + m)
    ensures events == Frees(Blocks(bs)[i + 1..i + 1 + m])
  {
    hide Frees, Blocks, Absorbed;
    var collected: nat := block.capacity;
    ghost var blocks := Blocks(bs);
    LengthOfBlocks(bs);
    next := block.next;
    events := [];
    m := 0;
    NoFrees(blocks, i + 1);
    while next != null && collected < blockSize
      invariant i + 1 + m <= |bs| && next == At(bs, i + 1 + m)
      invariant Absorbed(blocks, i + 1, block.capacity, blockSize) == m + Absorbed(blocks, i + 1 + m, collected, blockSize)
      invariant events == Frees(blocks[i + 1..i + 1 + m])
      decreases |bs| - m
    {
      AbsorbOne(blocks, i + 1 + m, collected, blockSize);
      collected := collected + next.capacity;
      var gone := next;
      next := next.next;
      FreesGrow(blocks, i + 1, i + 1 + m);
      events := events + [Free(gone.Value())];
      m := m + 1;
    }
    AbsorbNone(blocks, i + 1 + m, collected, blockSize);
  }

  lemma LengthOfBlocks(bs: seq<MemoryBlock>)
    ensures |Blocks(bs)| == |bs| && forall i :: 0 <= i < |bs| ==> Blocks(bs)[i] == bs[i].Value()
  {
  }

  lemma NoFrees(bs: seq<Block>, i: nat)
    requires i <= |bs|
    ensures Frees(bs[i..i]) == []
  {
  }

  lemma AbsorbOne(bs: seq<Block>, i: nat, collected: nat, blockSize: nat)
    requires i < |bs| && collected < blockSize
    ensures Absorbed(bs, i, collected, blockSize) == 1 + Absorbed(bs, i + 1, collected + bs[i].cap, blockSize)
  {
  }

  lemma AbsorbNone(bs: seq<Block>, i: nat, collected: nat, blockSize: nat)
    requires i <= |bs| && (i == |bs| || collected >= blockSize)
    ensures Absorbed(bs, i, collected, blockSize) == 0
  {
  }

  /**
   `compact_block` on the block at index `i` of the chain: the block that takes its place, already linked to
   what follows.  The caller stores it where the pointer to the block was.
   */
  method CompactBlock(block: MemoryBlock, blockSize: nat, at: nat, ghost bs: seq<MemoryBlock>, ghost first: MemoryBlock?, ghost i: nat, ghost p: Pool)
    returns (r: MemoryBlock, events: seq<Event>, ghost rest: seq<MemoryBlock>)
    requires Linked(bs, first) && i < |bs| && bs[i] == block && p.blocks == Blocks(bs) && p.blockSize == blockSize
    ensures events == Compact(p, i, at).events
    ensures Compact(p, i, at).pool == p.(blocks := Blocks(bs[..i] + [r] + rest))
    ensures |rest| < |bs| - i && rest == bs[|bs| - |rest|..] && r.next == At(rest, 0)
    ensures r == block || fresh(r)
  {
    hide Absorbed, Frees;
    if blockSize <= block.capacity {
      r, events, rest := block, [], bs[i + 1..];
      assert bs[..i] + [r] + rest == bs;
    } else {
      var next, es, m := AbsorbBlocks(block, blockSize, bs, first, i);
      r := new MemoryBlock(at, blockSize);
      r.next := next;
      rest := bs[i + 1 + m..];
      events := es + [Free(block.Value()), New(r.Value())];
      BlocksReplaced(bs, i, r, rest, m);
    }
  }

  lemma FirstOf(bs: seq<MemoryBlock>, first: MemoryBlock?)
    requires Linked(bs, first)
    ensures first == At(bs, 0)
  {
  }

  /** A new head with the tail of a chain behind it. */
  lemma LinkTail(bs: seq<MemoryBlock>, first: MemoryBlock?, r: MemoryBlock, rest: seq<MemoryBlock>)
    requires Linked(bs, first) && |rest| < |bs| && rest == bs[|bs| - |rest|..] && r.next == At(rest, 0)
    requires r == bs[0] || r !in bs
    ensures Linked([r] + rest, r)
  {
    var t := [r] + rest;
    var d := |bs| - |rest|;
    forall i | 0 <= i < |t|
      ensures t[i].next == At(t, i + 1)
    {
      if i > 0 {
        assert t[i] == bs[d + i - 1];
        assert At(bs, d + i) == At(t, i + 1);
      }
    }
  }

  /** A chain in which block `k` may lead elsewhere. */
  ghost predicate LinkedBut(bs: seq<MemoryBlock>, first: MemoryBlock?, k: nat)
    reads bs
  {
    && first == At(bs, 0)
    && (forall i {:trigger bs[i].next} :: 0 <= i < |bs| && i != k ==> bs[i].next == At(bs, i + 1))
    && (forall i, j :: 0 <= i < j < |bs| ==> bs[i] != bs[j])
  }

  /** Block `k` of a chain has a new successor, with the tail of the chain behind it. */
  lemma Relink(bs: seq<MemoryBlock>, first: MemoryBlock?, k: nat, r: MemoryBlock, rest: seq<MemoryBlock>)
    requires LinkedBut(bs, first, k) && k < |bs| && |rest| < |bs| - k && rest == bs[|bs| - |rest|..]
    requires bs[k].next == r && r.next == At(rest, 0) && (r !in bs || (k + 1 < |bs| && r == bs[k + 1] && |rest| == |bs| - k - 2))
    ensures Linked(bs[..k + 1] + [r] + rest, first)
  {
    var t := bs[..k + 1] + [r] + rest;
    var d := |bs| - |rest|;
    assert forall i :: 0 <= i <= k ==> t[i] == bs[i];
    assert forall i :: k + 2 <= i < |t| ==> t[i] == bs[d + i - k - 2];
    forall i | 0 <= i < |t|
      ensures t[i].next == At(t, i + 1)
    {
      if i > k + 1 {
        var j := d + i - k - 2;
        assert t[i] == bs[j];
        assert At(bs, j + 1) == At(t, i + 1);
      }
    }
  }

  lemma LinkFront(bs: seq<MemoryBlock>, first: MemoryBlock?, r: MemoryBlock)
    requires Linked(bs, first) && r !in bs && r.next == first
    ensures Linked([r] + bs, r)
  {
    var t := [r] + bs;
    forall i | 0 <= i < |t|
      ensures t[i].next == At(t, i + 1)
    {
      if i > 0 {
        assert t[i] == bs[i - 1];
        assert At(bs, i) == At(t, i + 1);
      }
    }
  }

  class StaticMemoryPool {
    var blockSize: nat
    var pos: nat
    var head: MemoryBlock?
    var current: MemoryBlock?
    const cleaners: Vector
    /** The blocks from head to tail, and the index of the current one. */
    ghost var chain: seq<MemoryBlock>
    ghost var cur: nat

    ghost predicate Valid()
      reads this, chain, cleaners, cleaners.data
    {
      && Linked(chain, head) && current == At(chain, cur) && (chain != [] ==> cur < |chain|) && (chain == [] ==> cur == 0)
      && cleaners.Valid()
    }

    ghost function Abs(): Pool
      requires cleaners.Valid()
      reads this, cleaners, cleaners.data
    {
      Pool(blockSize, pos, Blocks(chain), cur, cleaners.Contents())
    }

    constructor (size: nat)
      ensures Valid() && chain == [] && Abs() == PoolSpec.SetBlockSize(Empty(0), size) && fresh(cleaners) && fresh(cleaners.data)
    {
      pos, head, current, chain, cur := 0, null, null, [], 0;
      cleaners := new Vector();
      new;
      SetBlockSize(size);
    }

    /** `set_block_size`. */
    method SetBlockSize(n: nat)
      requires Valid()
      modifies this`blockSize
      ensures Valid() && Abs() == PoolSpec.SetBlockSize(old(Abs()), n)
    {
      blockSize := GetBlockSize(if n < HEADER then HEADER else n - HEADER);
    }

    /** `register_destructor`; the vector of cleaners may have to grow to `capacity`, which runs nothing. */
    method RegisterDestructor(c: Cleaner, capacity: nat) returns (events: seq<Event>)
      requires Valid() && capacity > cleaners.size
      modifies cleaners, cleaners.data
      ensures Valid() && Abs() == old(Abs()).(cleaners := old(Abs()).cleaners + [c]) && events == []
      ensures cleaners.data == old(cleaners.data) || fresh(cleaners.data)
    {
      hide Linked;
      events := cleaners.EmplaceBack(c, capacity);
    }

    /** The chain holds nothing but what it held before and blocks made since. */
    twostate predicate Kept()
      reads this
    {
      forall b :: b in chain ==> b in old(chain) || fresh(b)
    }

    /** `clear`. */
    method Clear(at: nat) returns (events: seq<Event>)
      requires Valid()
      modifies this, cleaners
      ensures Valid() && Abs() == PoolSpec.Clear(old(Abs()), at).pool && events == PoolSpec.Clear(old(Abs()), at).events
      ensures Kept() && cleaners.data == old(cleaners.data)
    {
      hide Runs, Compact, Linked;
      FirstOf(chain, head);
      events := cleaners.Clear();
      if head != null {
        var r, es, rest := CompactBlock(head, blockSize, at, chain, head, 0, Abs());
        LinkTail(chain, head, r, rest);
        assert chain[..0] + [r] + rest == [r] + rest;
        head := r;
        chain := [r] + rest;
        current := head;
        cur := 0;
        events := events + es;
      }
      pos := 0;
    }

    /** The first block is created on demand. */
    method EnsureBlock(at: nat) returns (events: seq<Event>)
      requires Valid()
      modifies this
      ensures Valid() && chain != [] && Abs() == WithBlock(old(Abs()), at) && events == FirstEvents(old(Abs()), at)
      ensures Kept() && (if old(chain) != [] then chain == old(chain) && current == old(current) else current != null && fresh(current))
    {
      events := [];
      if current == null {
        var b := new MemoryBlock(at, blockSize);
        current := b;
        head := b;
        chain := [b];
        events := [New(b.Value())];
      }
    }

    /** The second branch of `create_buffer_internal`: the next block, compacted or new, becomes current. */
    method AdvanceBlock(size: nat, at: nat) returns (address: nat, events: seq<Event>)
      requires Valid() && chain != []
      modifies this, current
      ensures Valid() && Kept()
      ensures Abs() == NextBlock(old(Abs()), size, at).pool && events == NextBlock(old(Abs()), size, at).events
      ensures address == NextBlock(old(Abs()), size, at).value
    {
      hide Compact, Linked;
      ghost var before, k := chain, cur;
      var here := current;
      var next := here.next;
      NextOf(chain, head, cur);
      var r: MemoryBlock;
      ghost var rest: seq<MemoryBlock>;
      if next != null {
        r, events, rest := CompactBlock(next, blockSize, at, chain, head, k + 1, Abs());
      } else {
        r := new MemoryBlock(at, blockSize);
        rest := [];
        assert before[..k + 1] + [r] + rest == before + [r];
        BlocksJoin(before, [r]);
        events := [New(r.Value())];
      }
      AllBut(chain, head, k);
      here.next := r;
      Relink(before, head, k, r, rest);
      chain := before[..k + 1] + [r] + rest;
      current := r;
      cur := cur + 1;
      pos := size;
      address := current.base;
    }

    /** The third branch: a request larger than a block gets one of its own, before all others. */
    method PushOwnBlock(size: nat, at: nat, grown: nat) returns (address: nat, events: seq<Event>)
      requires Valid() && chain != []
      modifies this
      ensures Valid() && Kept()
      ensures Abs() == old(Abs()).(blocks := [Block(at, size)] + Blocks(old(chain)), cur := old(cur) + 1, blockSize := BlockSizeFor(grown))
      ensures address == at && events == [New(Block(at, size))]
    {
      hide Linked;
      var b := new MemoryBlock(at, size);
      b.next := head;
      LinkFront(chain, head, b);
      BlocksJoin([b], chain);
      head := b;
      chain := [b] + chain;
      cur := cur + 1;
      blockSize := GetBlockSize(grown);
      address, events := b.base, [New(b.Value())];
    }

    /** `create_buffer_internal`. */
    method CreateBufferInternal(align: nat, size: nat, env: Env) returns (address: nat, events: seq<Event>)
      requires Valid() && align > 0
      modifies this, current
      ensures Valid() && Kept()
      ensures Abs() == Create(old(Abs()), align, size, env).pool && events == Create(old(Abs()), align, size, env).events
      ensures address == Create(old(Abs()), align, size, env).value
    {
      hide Linked, NextBlock, BlockSizeFor, AlignUp;
      events := EnsureBlock(env.first);
      pos := AlignUp(pos, align);
      assert Valid();
      if current.capacity >= size + pos {
        address := current.base + pos;
        pos := pos + size;
      } else if size <= blockSize {
        var a, es := AdvanceBlock(size, env.second);
        address, events := a, events + es;
      } else {
        var a, es := PushOwnBlock(size, env.second, env.grown);
        address, events := a, events + es;
      }
    }

    /** `create_aligned_buffer(size, align)`: what the alignment did not need is given back. */
    method CreateAlignedBuffer(align: nat, size: nat, env: Env) returns (address: nat, events: seq<Event>)
      requires Valid() && align > 0 && PoolOk(Abs()) && Allocated(Create(Abs(), 1, size + align, env).pool.blocks)
      modifies this, current
      ensures Valid() && Kept()
      ensures Abs() == CreateAligned(old(Abs()), align, size, env).pool && events == CreateAligned(old(Abs()), align, size, env).events
      ensures address == CreateAligned(old(Abs()), align, size, env).value
    {
      hide Linked, Create, AlignUp, Allocated;
      ghost var p := Abs();
      var buffer, es := CreateBufferInternal(1, size + align, env);
      GiveBackFits(p, align, size, env);
      address := AlignUp(buffer, align);
      if current.base + pos == buffer + size + align {
        pos := pos - (align - (address - buffer));
      }
      events := es;
    }

    /** `shrink_to_fit()`. */
    method ShrinkToFit() returns (events: seq<Event>)
      requires Valid()
      modifies this, current
      ensures Valid() && Kept() && Abs() == Shrink(old(Abs())).pool && events == Shrink(old(Abs())).events
      ensures |chain| <= |old(chain)| && chain == old(chain)[..|chain|]
      ensures old(current == head && pos == 0) ==> chain == []
      ensures old(current) != null && !old(current == head && pos == 0) ==> chain != [] && chain[|chain| - 1] == old(current)
    {
      hide Linked, Frees;
      events := [];
      FirstOf(chain, head);
      if current != null {
        if current == head && pos == 0 {
          OnlyFirst(chain, head, cur);
          events := DestroyBlocksStartFrom(head, chain);
          head, current := null, null;
          chain, cur := [], 0;
          NothingLinked();
        } else {
          NextOf(chain, head, cur);
          Tail(chain, head, cur);
          events := DestroyBlocksStartFrom(current.next, chain[cur + 1..]);
          CutAfter(current, cur);
        }
      }
    }

    /** Everything after block `k` of the chain is dropped. */
    method CutAfter(block: MemoryBlock, ghost k: nat)
      requires Valid() && cur <= k < |chain| && chain[k] == block
      modifies block, this`chain
      ensures Valid() && chain == old(chain)[..k + 1]
    {
      block.next := null;
      chain := chain[..k + 1];
    }

    /** `shrink_to_fit(min)`: the blocks in use, then more until they hold `min` bytes; the result is what is left. */
    method ShrinkToFitMin(min: nat, at: nat) returns (capacity: nat, events: seq<Event>)
      requires Valid()
      modifies this, chain, cleaners
      ensures Valid() && Kept() && Abs() == ShrinkTo(old(Abs()), min, at).pool && events == ShrinkTo(old(Abs()), min, at).events
      ensures capacity == ShrinkTo(old(Abs()), min, at).value && cleaners.data == old(cleaners.data)
    {
      hide Linked, Frees, PoolSpec.Clear, PoolSpec.Kept, CapacityOf;
      capacity, events := 0, [];
      if current != null {
        if min == 0 {
          ClearLeaves(Abs(), at);
          var es := Clear(at);
          var fs := DestroyBlocksStartFrom(head, chain);
          head, current := null, null;
          chain, cur := [], 0;
          events := es + fs;
          NothingLinked();
        } else {
          var block;
          ghost var k;
          block, capacity, k := ReachCapacity(min);
          Tail(chain, head, k - 1);
          events := DestroyBlocksStartFrom(block.next, chain[k..]);
          CutAfter(block, k - 1);
        }
      }
    }

    /** The two loops of `shrink_to_fit(min)`: up to the current block, and on until `min` is reached. */
    method ReachCapacity(min: nat) returns (block: MemoryBlock, capacity: nat, ghost k: nat)
      requires Valid() && chain != []
      ensures k == PoolSpec.Kept(Blocks(chain), cur + 1, min) && capacity == CapacityOf(Blocks(chain), k)
      ensures cur < k <= |chain| && block == chain[k - 1]
    {
      hide PoolSpec.Kept, CapacityOf, Blocks;
      ghost var bs := Blocks(chain);
      LengthOfBlocks(chain);
      capacity := current.capacity;
      block := head;
      ghost var i: nat := 0;
      NoCapacity(bs);
      while block != current
        invariant i <= cur && block == chain[i] && capacity == current.capacity + CapacityOf(bs, i)
        decreases cur - i
      {
        MoreCapacity(bs, i);
        capacity := capacity + block.capacity;
        block := block.next;
        i := i + 1;
      }
      MoreCapacity(bs, cur);
      k := i + 1;
      while capacity < min && block.next != null
        invariant cur < k <= |chain| && block == chain[k - 1] && capacity == CapacityOf(bs, k)
        invariant PoolSpec.Kept(bs, cur + 1, min) == PoolSpec.Kept(bs, k, min)
        decreases |chain| - k
      {
        KeepOne(bs, k, min);
        MoreCapacity(bs, k);
        block := block.next;
        capacity := capacity + block.capacity;
        k := k + 1;
      }
      KeepNone(bs, k, min);
    }

    /** `contain`. */
    method Contain(address: nat) returns (found: bool)
      requires Valid()
      ensures found == Contains(Abs(), address)
    {
      var block := head;
      ghost var i: nat := 0;
      ghost var bs := Blocks(chain);
      while block != current
        invariant i <= cur && block == At(chain, i)
        invariant forall j :: 0 <= j < i ==> !(bs[j].base <= address < bs[j].base + bs[j].cap)
        decreases cur - i
      {
        assert bs[i] == chain[i].Value();
        if block.base <= address && address < block.base + block.capacity {
          return true;
        }
        block := block.next;
        i := i + 1;
      }
      return current != null && current.base <= address && address < current.base + pos;
    }

    /** `size`. */
    method Size() returns (size: nat)
      requires Valid()
      ensures size == PoolSpec.Size(Abs())
    {
      hide CapacityOf, Blocks;
      ghost var bs := Blocks(chain);
      LengthOfBlocks(chain);
      NoCapacity(bs);
      size := pos;
      var block := head;
      ghost var i: nat := 0;
      while block != current
        invariant i <= cur && block == At(chain, i) && size == pos + CapacityOf(bs, i)
        decreases cur - i
      {
        MoreCapacity(bs, i);
        size := size + block.capacity;
        block := block.next;
        i := i + 1;
      }
    }

    /** `capacity`. */
    method Capacity() returns (capacity: nat)
      requires Valid()
      ensures capacity == PoolSpec.Capacity(Abs())
    {
      hide CapacityOf, Blocks;
      ghost var bs := Blocks(chain);
      LengthOfBlocks(chain);
      NoCapacity(bs);
      capacity := 0;
      var block := head;
      ghost var i: nat := 0;
      while block != null
        invariant i <= |chain| && block == At(chain, i) && capacity == CapacityOf(bs, i)
        decreases |chain| - i
      {
        MoreCapacity(bs, i);
        capacity := capacity + block.capacity;
        block := block.next;
        i := i + 1;
      }
    }

    /** The move constructor. */
    constructor MoveFrom(other: StaticMemoryPool)
      requires other.Valid()
      modifies other, other.cleaners
      ensures Valid() && Abs() == old(other.Abs()) && chain == old(other.chain)
      ensures other.Valid() && other.chain == [] && other.Abs() == MovedFrom(old(other.Abs()))
      ensures fresh(cleaners) && cleaners.data == old(other.cleaners.data) && fresh(other.cleaners.data)
    {
      blockSize, pos, head, current := other.blockSize, other.pos, other.head, other.current;
      cleaners := new Vector.MoveFrom(other.cleaners);
      chain, cur := other.chain, other.cur;
      new;
      other.Release();
    }

    /** What a move leaves behind, once the cleaners are gone. */
    method Release()
      requires cleaners.Valid()
      modifies this
      ensures chain == [] && (old(cleaners.Contents()) == [] ==> Valid() && Abs() == MovedFrom(old(Abs())))
    {
      pos, head, current := 0, null, null;
      chain, cur := [], 0;
    }

    /** Move assignment: this pool is cleared and released, and takes over the other one. */
    method MoveAssign(other: StaticMemoryPool, at: nat) returns (events: seq<Event>)
      requires Valid() && other.Valid() && (other != this ==> other.cleaners != cleaners && other.cleaners.data != cleaners.data)
      modifies this, other, cleaners, other.cleaners
      ensures Valid() && other.Valid() && other.chain == [] && events == Discard(old(Abs()), at)
      ensures Abs() == (if other == this then MovedFrom(old(Abs())) else old(other.Abs()))
      ensures other != this ==> chain == old(other.chain) && other.Abs() == MovedFrom(old(other.Abs()))
      ensures other != this ==> cleaners.data == old(other.cleaners.data) && fresh(other.cleaners.data)
    {
      hide Discard, Linked;
      events := DropAll(at);
      if other != this {
        TakeOver(other);
      }
    }

    /** The first half of a move assignment: the cleaners are run and the blocks released. */
    method DropAll(at: nat) returns (events: seq<Event>)
      requires Valid()
      modifies this, cleaners
      ensures Valid() && chain == [] && Abs() == MovedFrom(old(Abs())) && events == Discard(old(Abs()), at)
      ensures cleaners.data == old(cleaners.data)
    {
      hide PoolSpec.Clear, Frees, Linked;
      ClearLeaves(Abs(), at);
      var es := Clear(at);
      var fs := DestroyBlocksStartFrom(head, chain);
      events := es + fs;
      Release();
    }

    /** The second half: an empty pool takes over what the other one holds. */
    method TakeOver(other: StaticMemoryPool)
      requires Valid() && cleaners.Contents() == [] && other.Valid() && other != this && other.cleaners != cleaners
      modifies this, other, cleaners, other.cleaners
      ensures Valid() && Abs() == old(other.Abs()) && chain == old(other.chain) && cleaners.data == old(other.cleaners.data)
      ensures other.Valid() && other.chain == [] && other.Abs() == MovedFrom(old(other.Abs())) && fresh(other.cleaners.data)
    {
      hide Linked;
      blockSize, pos, head, current := other.blockSize, other.pos, other.head, other.current;
      chain, cur := other.chain, other.cur;
      cleaners.Assign(other.cleaners);
      other.Release();
    }

    /** The destructor. */
    method Destroy() returns (events: seq<Event>)
      requires Valid()
      modifies this, cleaners
      ensures events == PoolSpec.Destroy(old(Abs()))
    {
      var es := cleaners.Clear();
      var fs := DestroyBlocksStartFrom(head, chain);
      events := es + fs;
    }
  }

  lemma ClearLeaves(p: Pool, at: nat)
    ensures PoolSpec.Clear(p, at).pool == MovedFrom(p).(blocks := PoolSpec.Clear(p, at).pool.blocks)
  {
  }

  lemma NoCapacity(bs: seq<Block>)
    ensures CapacityOf(bs, 0) == 0
  {
  }

  lemma MoreCapacity(bs: seq<Block>, i: nat)
    requires i < |bs|
    ensures CapacityOf(bs, i + 1) == CapacityOf(bs, i) + bs[i].cap
  {
  }

  lemma KeepOne(bs: seq<Block>, k: nat, min: nat)
    requires k < |bs| && CapacityOf(bs, k) < min
    ensures PoolSpec.Kept(bs, k, min) == PoolSpec.Kept(bs, k + 1, min)
  {
  }

  lemma KeepNone(bs: seq<Block>, k: nat, min: nat)
    requires k <= |bs| && (k == |bs| || CapacityOf(bs, k) >= min)
    ensures PoolSpec.Kept(bs, k, min) == k
  {
  }

  lemma NothingLinked()
    ensures Linked([], null)
  {
  }

  lemma OnlyFirst(bs: seq<MemoryBlock>, first: MemoryBlock?, k: nat)
    requires Linked(bs, first) && k < |bs| && bs[k] == first
    ensures k == 0
  {
  }

  /** What follows block `k` is a chain of its own. */
  lemma Tail(bs: seq<MemoryBlock>, first: MemoryBlock?, k: nat)
    requires Linked(bs, first) && k < |bs|
    ensures Linked(bs[k + 1..], bs[k].next) && Blocks(bs[k + 1..]) == Blocks(bs)[k + 1..] && Blocks(bs[..k + 1]) == Blocks(bs)[..k + 1]
  {
    var t := bs[k + 1..];
    forall i | 0 <= i < |t|
      ensures t[i].next == At(t, i + 1)
    {
      assert t[i] == bs[k + 1 + i];
    }
  }

  /** When the new buffer ends where the current block's used part ends, there is enough to give back. */
  lemma GiveBackFits(p: Pool, align: nat, size: nat, e: Env)
    requires PoolOk(p) && align > 0 && Allocated(Create(p, 1, size + align, e).pool.blocks)
    ensures var r := Create(p, 1, size + align, e);
            && r.pool.cur < |r.pool.blocks| && r.value <= AlignUp(r.value, align) < r.value + align
            && (r.pool.blocks[r.pool.cur].base + r.pool.pos == r.value + size + align ==> align - (AlignUp(r.value, align) - r.value) <= r.pool.pos)
  {
    hide Create, AlignUp;
    GiveBackTest(p, size + align, e);
    CreateHasShape(p, 1, size + align, e);
    AlignUpSpec(Create(p, 1, size + align, e).value, align);
  }

  lemma NextOf(bs: seq<MemoryBlock>, first: MemoryBlock?, k: nat)
    requires Linked(bs, first) && k < |bs|
    ensures bs[k].next == At(bs, k + 1)
  {
  }

  lemma AllBut(bs: seq<MemoryBlock>, first: MemoryBlock?, k: nat)
    requires Linked(bs, first)
    ensures LinkedBut(bs, first, k)
  {
  }
}
