/**
 `StaticMemoryPool` (example/brpc/memory_pool.hpp:58-397) on values: what each operation does to a pool whose
 blocks are listed from head to tail.  `MemoryPool` proves that the linked implementation does exactly this.

 Addresses are numbers.  `operator new` belongs to the environment, so the addresses it returns are inputs;
 so is the result of `buffer_size * 1.1f`.
 */
module PoolSpec {
  import opened Arith
  import opened BlockSize

  /** A block: the address of its data, just after the header, and the size of its data. */
  datatype Block = Block(base: nat, cap: nat)

  /** A registered destructor call; `id` tells one registration from another. */
  datatype Cleaner = Cleaner(id: nat, pointer: nat)

  /** `_current_block` is `blocks[cur]`, or null when there are no blocks. */
  datatype Pool = Pool(blockSize: nat, pos: nat, blocks: seq<Block>, cur: nat, cleaners: seq<Cleaner>)

  /** What the outside world sees an operation do. */
  datatype Event = Run(cleaner: Cleaner) | New(block: Block) | Free(block: Block)

  /** What `operator new` and the float multiplication answer during one operation. */
  datatype Env = Env(first: nat, second: nat, grown: nat)

  datatype Result = Result(pool: Pool, events: seq<Event>, value: nat)

  function Empty(blockSize: nat): Pool {
    Pool(blockSize, 0, [], 0, [])
  }

  // ---------------------------------------------------------------------------------------------
  // Operations
  // ---------------------------------------------------------------------------------------------

  function Frees(blocks: seq<Block>): seq<Event> {
    if blocks == [] then [] else Frees(blocks[..|blocks| - 1]) + [Free(blocks[|blocks| - 1])]
  }

  function Runs(cs: seq<Cleaner>): seq<Event> {
    if cs == [] then [] else Runs(cs[..|cs| - 1]) + [Run(cs[|cs| - 1])]
  }

  /** How many of the blocks from `from` on `compact_block` absorbs into one that collects `collected` bytes. */
  function Absorbed(blocks: seq<Block>, from: nat, collected: nat, blockSize: nat): (n: nat)
    requires from <= |blocks|
    ensures from + n <= |blocks|
    decreases |blocks| - from
  {
    if from == |blocks| || collected >= blockSize then 0
    else 1 + Absorbed(blocks, from + 1, collected + blocks[from].cap, blockSize)
  }

  /** `compact_block` on the block at index `i`: a small block and those after it become one of full size. */
  function Compact(p: Pool, i: nat, at: nat): Result
    requires i < |p.blocks|
  {
    var b := p.blocks[i];
    if p.blockSize <= b.cap then Result(p, [], 0)
    else
      var n := Absorbed(p.blocks, i + 1, b.cap, p.blockSize);
      Result(p.(blocks := p.blocks[..i] + [Block(at, p.blockSize)] + p.blocks[i + 1 + n..]),
             Frees(p.blocks[i + 1..i + 1 + n]) + [Free(b), New(Block(at, p.blockSize))], 0)
  }

  /** The first block is created on demand. */
  function WithBlock(p: Pool, at: nat): Pool {
    if p.blocks == [] then p.(blocks := [Block(at, p.blockSize)], cur := 0) else p
  }

  function FirstEvents(p: Pool, at: nat): seq<Event> {
    if p.blocks == [] then [New(Block(at, p.blockSize))] else []
  }

  /** `create_buffer_internal<align>`; the value is the address of the buffer. */
  function Create(p: Pool, align: nat, size: nat, e: Env): Result
    requires align > 0 && (p.blocks != [] ==> p.cur < |p.blocks|)
  {
    var q := WithBlock(p, e.first);
    var r := q.(pos := AlignUp(q.pos, align));
    var first := FirstEvents(p, e.first);
    var c := r.blocks[r.cur];
    if c.cap >= size + r.pos then Result(r.(pos := r.pos + size), first, c.base + r.pos)
    else if size <= r.blockSize then
      var n := NextBlock(r, size, e.second);
      Result(n.pool, first + n.events, n.value)
    else
      Result(r.(blocks := [Block(e.second, size)] + r.blocks, cur := r.cur + 1, blockSize := BlockSizeFor(e.grown)),
             first + [New(Block(e.second, size))], e.second)
  }

  /** Moves on to the next block, reused or new, and puts the buffer at its beginning. */
  function NextBlock(p: Pool, size: nat, at: nat): Result
    requires p.cur < |p.blocks|
  {
    var k := p.cur + 1;
    var added := Block(at, p.blockSize);
    var c := if k < |p.blocks| then Compact(p, k, at) else Result(p.(blocks := p.blocks + [added]), [New(added)], 0);
    Result(c.pool.(cur := k, pos := size), c.events, if k < |c.pool.blocks| then c.pool.blocks[k].base else 0)
  }

  /** `create_aligned_buffer(size, align)`: over-allocates, aligns, and gives back what it did not need. */
  function CreateAligned(p: Pool, align: nat, size: nat, e: Env): Result
    requires align > 0 && (p.blocks != [] ==> p.cur < |p.blocks|)
  {
    var r := Create(p, 1, size + align, e);
    var aligned := AlignUp(r.value, align);
    var slack: int := align - (aligned - r.value);
    if r.pool.cur < |r.pool.blocks| && r.pool.blocks[r.pool.cur].base + r.pool.pos == r.value + size + align && slack <= r.pool.pos && slack >= 0
    then Result(r.pool.(pos := r.pool.pos - slack), r.events, aligned)
    else Result(r.pool, r.events, aligned)
  }

  /** `clear`. */
  function Clear(p: Pool, at: nat): Result {
    var q := p.(cleaners := []);
    var c := if q.blocks == [] then Result(q, [], 0) else Compact(q, 0, at);
    Result(c.pool.(cur := 0, pos := 0), Runs(p.cleaners) + c.events, 0)
  }

  /** `shrink_to_fit()`. */
  function Shrink(p: Pool): Result
    requires p.blocks != [] ==> p.cur < |p.blocks|
  {
    if p.blocks == [] then Result(p, [], 0)
    else if p.cur == 0 && p.pos == 0 then Result(p.(blocks := []), Frees(p.blocks), 0)
    else Result(p.(blocks := p.blocks[..p.cur + 1]), Frees(p.blocks[p.cur + 1..]), 0)
  }

  /** The sum of the capacities of the first `n` blocks. */
  function CapacityOf(blocks: seq<Block>, n: nat): nat
    requires n <= |blocks|
  {
    if n == 0 then 0 else CapacityOf(blocks, n - 1) + blocks[n - 1].cap
  }

  /** How many blocks `shrink_to_fit(min)` keeps: at least `n`, then more until they hold `min` bytes. */
  function Kept(blocks: seq<Block>, n: nat, min: nat): (k: nat)
    requires n <= |blocks|
    ensures n <= k <= |blocks|
    decreases |blocks| - n
  {
    if CapacityOf(blocks, n) >= min || n == |blocks| then n else Kept(blocks, n + 1, min)
  }

  /** `shrink_to_fit(min)`; the value is the capacity left. */
  function ShrinkTo(p: Pool, min: nat, at: nat): Result
    requires p.blocks != [] ==> p.cur < |p.blocks|
  {
    if p.blocks == [] then Result(p, [], 0)
    else if min == 0 then
      var c := Clear(p, at);
      Result(c.pool.(blocks := []), c.events + Frees(c.pool.blocks), 0)
    else
      var k := Kept(p.blocks, p.cur + 1, min);
      Result(p.(blocks := p.blocks[..k]), Frees(p.blocks[k..]), CapacityOf(p.blocks, k))
  }

  /** What is left of a pool that was moved from. */
  function MovedFrom(p: Pool): Pool {
    Pool(p.blockSize, 0, [], 0, [])
  }

  /** The events of `operator=`: the pool assigned to is cleared and its blocks are released. */
  function Discard(p: Pool, at: nat): seq<Event> {
    var c := Clear(p, at);
    c.events + Frees(c.pool.blocks)
  }

  /** `~StaticMemoryPool`. */
  function Destroy(p: Pool): seq<Event> {
    Runs(p.cleaners) + Frees(p.blocks)
  }

  /** `set_block_size`. */
  function SetBlockSize(p: Pool, n: nat): Pool {
    p.(blockSize := BlockSizeFor(if n < HEADER then HEADER else n - HEADER))
  }

  /** `contain`. */
  predicate Contains(p: Pool, address: nat) {
    p.cur < |p.blocks|
    && ((exists i :: 0 <= i < p.cur && p.blocks[i].base <= address < p.blocks[i].base + p.blocks[i].cap)
        || p.blocks[p.cur].base <= address < p.blocks[p.cur].base + p.pos)
  }

  function Size(p: Pool): nat
    requires p.cur <= |p.blocks|
  {
    p.pos + CapacityOf(p.blocks, p.cur)
  }

  function Capacity(p: Pool): nat {
    CapacityOf(p.blocks, |p.blocks|)
  }
}
