/** Where buffers lie, and why no operation of the pool ever makes two of them overlap. */
module PoolSafety {
  import opened Arith
  import opened BlockSize
  import opened PoolSpec

  /** A buffer handed out and not given up yet. */
  datatype Buffer = Buffer(addr: nat, size: nat, align: nat)

  /** Two blocks, each with the header before its data, share no byte. */
  predicate Separate(a: Block, b: Block) {
    a.base + a.cap + HEADER <= b.base || b.base + b.cap + HEADER <= a.base
  }

  /** What `operator new` guarantees of the blocks that are alive: 16-byte alignment and no overlap. */
  ghost predicate Allocated(blocks: seq<Block>) {
    && (forall i :: 0 <= i < |blocks| ==> blocks[i].base % 16 == 0 && blocks[i].base >= HEADER)
    && (forall i, j :: 0 <= i < j < |blocks| ==> Separate(blocks[i], blocks[j]))
  }

  /** The first byte of block `i` that is not handed out. */
  function Used(p: Pool, i: nat): nat
    requires i < |p.blocks|
  {
    if i < p.cur || p.pos > p.blocks[i].cap then p.blocks[i].cap else p.pos
  }

  ghost predicate PoolOk(p: Pool) {
    && Allocated(p.blocks) && p.blockSize % 16 == 0
    && (p.blocks == [] ==> p.pos == 0 && p.cur == 0)
    && (p.blocks != [] ==> p.cur < |p.blocks| && p.pos <= AlignUp(p.blocks[p.cur].cap, 8))
  }

  /** Buffer `b` lies in block `i`, between head and current, below what is handed out. */
  predicate Placed(p: Pool, b: Buffer, i: nat) {
    && i <= p.cur < |p.blocks|
    && p.blocks[i].base <= b.addr && b.addr + b.size <= p.blocks[i].base + Used(p, i)
  }

  predicate Disjoint(a: Buffer, b: Buffer) {
    a.addr + a.size <= b.addr || b.addr + b.size <= a.addr
  }

  ghost predicate BufferOk(p: Pool, b: Buffer) {
    b.align > 0 && b.addr % b.align == 0 && (b.size > 0 ==> exists i: nat :: Placed(p, b, i))
  }

  /** The live buffers of a pool are aligned, inside its blocks and pairwise disjoint. */
  ghost predicate Good(p: Pool, live: seq<Buffer>) {
    && PoolOk(p)
    && (forall k :: 0 <= k < |live| ==> BufferOk(p, live[k]))
    && (forall j, k :: 0 <= j < k < |live| && live[j].size > 0 && live[k].size > 0 ==> Disjoint(live[j], live[k]))
  }

  // ---------------------------------------------------------------------------------------------
  // Consequences
  // ---------------------------------------------------------------------------------------------

  /** `contain` answers yes for every byte of every live buffer. */
  lemma LiveIsContained(p: Pool, live: seq<Buffer>, k: nat, address: nat)
    requires Good(p, live) && k < |live| && live[k].addr <= address < live[k].addr + live[k].size
    ensures Contains(p, address)
  {
    var b := live[k];
    assert BufferOk(p, b);
    var i: nat :| Placed(p, b, i);
    if i < p.cur {
      assert p.blocks[i].base <= address < p.blocks[i].base + p.blocks[i].cap;
    }
  }

  /** A block past the current one holds no live buffer. */
  lemma LaterBlocksAreUnused(p: Pool, b: Buffer, j: nat)
    requires PoolOk(p) && BufferOk(p, b) && b.size > 0 && p.cur < j < |p.blocks|
    ensures b.addr + b.size <= p.blocks[j].base || p.blocks[j].base + p.blocks[j].cap <= b.addr
  {
    var i: nat :| Placed(p, b, i);
    assert Separate(p.blocks[i], p.blocks[j]);
  }

  // ---------------------------------------------------------------------------------------------
  // Buffers stay where they are
  // ---------------------------------------------------------------------------------------------

  /** The used blocks of `p` are still there in `q`, `shift` places further on, with no less handed out. */
  ghost predicate Extends(p: Pool, q: Pool, shift: nat) {
    && (p.blocks != [] ==> p.cur < |p.blocks| && p.cur + shift <= q.cur < |q.blocks|)
    && (p.blocks != [] ==> forall i :: 0 <= i <= p.cur ==> q.blocks[i + shift] == p.blocks[i] && Used(p, i) <= Used(q, i + shift))
  }

  lemma BufferStays(p: Pool, q: Pool, shift: nat, b: Buffer)
    requires Extends(p, q, shift) && BufferOk(p, b)
    ensures BufferOk(q, b)
  {
    if b.size > 0 {
      var i: nat :| Placed(p, b, i);
      assert q.blocks[i + shift] == p.blocks[i];
      assert Placed(q, b, i + shift);
    }
  }

  /** The new buffer `b` is in block `i` of `q`, above everything that `p` had handed out there. */
  ghost predicate OnTop(p: Pool, q: Pool, shift: nat, b: Buffer, i: nat) {
    && Placed(q, b, i)
    && (shift <= i <= p.cur + shift && p.blocks != [] && i - shift < |p.blocks| ==> p.blocks[i - shift].base + Used(p, i - shift) <= b.addr)
  }

  lemma NewIsDisjoint(p: Pool, q: Pool, shift: nat, a: Buffer, b: Buffer, i: nat)
    requires Extends(p, q, shift) && Allocated(q.blocks) && BufferOk(p, a) && a.size > 0 && b.size > 0
    requires OnTop(p, q, shift, b, i)
    ensures Disjoint(a, b)
  {
    var k: nat :| Placed(p, a, k);
    var j := k + shift;
    assert q.blocks[j] == p.blocks[k];
    if j < i {
      assert Separate(q.blocks[j], q.blocks[i]);
    } else if i < j {
      assert Separate(q.blocks[i], q.blocks[j]);
    }
  }

  /** Adding a buffer on top keeps everything good. */
  lemma AddOnTop(p: Pool, q: Pool, live: seq<Buffer>, shift: nat, b: Buffer, i: nat)
    requires Good(p, live) && PoolOk(q) && Extends(p, q, shift) && BufferOk(q, b)
    requires b.size > 0 ==> OnTop(p, q, shift, b, i)
    ensures Good(q, live + [b])
  {
    forall k | 0 <= k < |live|
      ensures BufferOk(q, live[k]) && (live[k].size > 0 && b.size > 0 ==> Disjoint(live[k], b))
    {
      BufferStays(p, q, shift, live[k]);
      if live[k].size > 0 && b.size > 0 {
        NewIsDisjoint(p, q, shift, live[k], b, i);
      }
    }
  }

  /** Nothing is lost when only unused blocks go or the pool stays as it is. */
  lemma KeepAll(p: Pool, q: Pool, live: seq<Buffer>)
    requires Good(p, live) && PoolOk(q) && Extends(p, q, 0)
    ensures Good(q, live)
  {
    forall k | 0 <= k < |live|
      ensures BufferOk(q, live[k])
    {
      BufferStays(p, q, 0, live[k]);
    }
  }

  // ---------------------------------------------------------------------------------------------
  // Allocation
  // ---------------------------------------------------------------------------------------------

  /** The alignments that `create_buffer_internal` is instantiated with. */
  predicate SmallAlign(a: nat) {
    a == 1 || a == 2 || a == 4 || a == 8
  }

  lemma RoundedCap(cap: nat)
    ensures cap <= AlignUp(cap, 8) < cap + 8 && AlignUp(cap, 8) % 8 == 0
    ensures cap % 16 == 0 ==> AlignUp(cap, 8) == cap
  {
  }

  /** Aligning a position keeps it within the rounded capacity. */
  lemma AlignedPos(pos: nat, a: nat, top: nat)
    requires SmallAlign(a) && top % 8 == 0
    ensures pos <= AlignUp(pos, a) && AlignUp(pos, a) % a == 0
    ensures pos <= top ==> AlignUp(pos, a) <= top
  {
    hide AlignUp;
    AlignUpSpec(pos, a);
    if pos <= top && AlignUp(pos, a) > top {
      NoneBetween(top, AlignUp(pos, a), a);
    }
  }

  /** A multiple of 8 and a larger multiple of a small alignment are at least that alignment apart. */
  lemma NoneBetween(top: nat, n: nat, a: nat)
    requires SmallAlign(a) && top % 8 == 0 && n % a == 0 && n > top
    ensures n >= top + a
  {
    DividesEight(a);
    DividesTrans(a, 8, top);
    MultiplesApart(top, n, a);
  }

  lemma DividesEight(a: nat)
    requires SmallAlign(a)
    ensures 8 % a == 0 && 16 % a == 0
  {
  }

  lemma SumAligned(base: nat, pos: nat, a: nat)
    requires SmallAlign(a) && base % 16 == 0 && pos % a == 0
    ensures (base + pos) % a == 0
  {
    DividesEight(a);
    AlignedSum(base, 16, pos, a);
  }

  /** A new buffer above everything handed out in the current block. */
  lemma FitsInCurrent(p: Pool, q: Pool, live: seq<Buffer>, b: Buffer)
    requires Good(p, live) && b.align > 0 && b.addr % b.align == 0
    requires q.blocks != [] && q.cur < |q.blocks| && Allocated(q.blocks) && q.blockSize % 16 == 0
    requires (p.blocks != [] ==> q.blocks == p.blocks && q.cur == p.cur)
    requires q.blocks[q.cur].base + p.pos <= b.addr && b.addr + b.size == q.blocks[q.cur].base + q.pos && q.pos <= q.blocks[q.cur].cap
    ensures Good(q, live + [b])
  {
    RoundedCap(q.blocks[q.cur].cap);
    assert Placed(q, b, q.cur);
    AddOnTop(p, q, live, 0, b, q.cur);
  }

  /** A new buffer in a block that follows the current one. */
  lemma FitsInNext(p: Pool, q: Pool, live: seq<Buffer>, b: Buffer)
    requires Good(p, live) && b.align > 0 && b.addr % b.align == 0 && p.blocks != []
    requires q.cur == p.cur + 1 < |q.blocks| && Allocated(q.blocks) && q.blockSize % 16 == 0
    requires q.blocks[..q.cur] == p.blocks[..q.cur]
    requires q.blocks[q.cur].base <= b.addr && b.addr + b.size == q.blocks[q.cur].base + q.pos && q.pos <= q.blocks[q.cur].cap
    ensures Good(q, live + [b])
  {
    RoundedCap(q.blocks[q.cur].cap);
    assert forall i :: 0 <= i <= p.cur ==> q.blocks[i] == q.blocks[..q.cur][i];
    assert Placed(q, b, q.cur);
    AddOnTop(p, q, live, 0, b, q.cur);
  }

  /** A new buffer inside a block of its own, put before all the others. */
  lemma FitsInOwnBlock(p: Pool, q: Pool, live: seq<Buffer>, b: Buffer, own: Block, prior: seq<Block>)
    requires Good(p, live) && b.align > 0 && b.addr % b.align == 0
    requires q.blocks == [own] + prior && prior != [] && Allocated(q.blocks) && q.blockSize % 16 == 0
    requires own.base <= b.addr && b.addr + b.size <= own.base + own.cap
    requires (p.blocks != [] ==> prior == p.blocks && q.cur == p.cur + 1 && p.pos <= q.pos)
    requires (p.blocks == [] ==> |prior| == 1 && q.cur == 1)
    requires q.pos <= AlignUp(q.blocks[q.cur].cap, 8)
    ensures Good(q, live + [b])
  {
    assert q.blocks[0] == own;
    assert Placed(q, b, 0);
    assert forall i :: 0 <= i < |prior| ==> q.blocks[i + 1] == prior[i];
    AddOnTop(p, q, live, 1, b, 0);
  }

  lemma CompactShape(p: Pool, i: nat, at: nat)
    requires i < |p.blocks|
    ensures var q := Compact(p, i, at).pool;
            && i < |q.blocks| && q.blocks[..i] == p.blocks[..i] && q.blocks[i].cap >= p.blockSize
            && q == p.(blocks := q.blocks)
  {
  }

  /** Where `Create` puts a buffer: on top of the current block, in the next one, or in one of its own. */
  datatype Branch = Current | Next | Own

  function BranchOf(p: Pool, align: nat, size: nat, e: Env): Branch
    requires align > 0 && (p.blocks != [] ==> p.cur < |p.blocks|)
  {
    var q := WithBlock(p, e.first);
    if q.blocks[q.cur].cap >= size + AlignUp(q.pos, align) then Current
    else if size <= q.blockSize then Next
    else Own
  }

  /** The shape of the pool after `Create`, by branch. */
  ghost predicate CreateShape(p: Pool, r: Pool, value: nat, align: nat, size: nat, branch: Branch) {
    && align > 0 && r.blocks != [] && r.cur < |r.blocks| && r.blockSize % 16 == 0
    && match branch
       case Current =>
         && (p.blocks != [] ==> r.blocks == p.blocks && r.cur == p.cur) && r.pos <= r.blocks[r.cur].cap
         && value + size == r.blocks[r.cur].base + r.pos && r.blocks[r.cur].base + p.pos <= value
         && (value - r.blocks[r.cur].base) % align == 0
       case Next =>
         && p.blocks != [] && r.cur == p.cur + 1 <= |p.blocks| && r.blocks[..r.cur] == p.blocks[..r.cur] && r.pos <= r.blocks[r.cur].cap
         && value == r.blocks[r.cur].base && r.pos == size
       case Own =>
         && r.blocks[0] == Block(value, size) && |r.blocks| >= 2 && r.pos <= AlignUp(r.blocks[r.cur].cap, 8)
         && (p.blocks != [] ==> r.blocks[1..] == p.blocks && r.cur == p.cur + 1 && p.pos <= r.pos)
         && (p.blocks == [] ==> |r.blocks| == 2 && r.cur == 1)
  }

  lemma NextShape(p: Pool, r: Pool, size: nat, at: nat)
    requires r.blocks == p.blocks != [] && r.cur == p.cur < |p.blocks| && size <= r.blockSize && r.blockSize % 16 == 0
    ensures var s := NextBlock(r, size, at); CreateShape(p, s.pool, s.value, 1, size, Next)
  {
    var k := r.cur + 1;
    if k < |r.blocks| {
      CompactShape(r, k, at);
    } else {
      assert (r.blocks + [Block(at, r.blockSize)])[..k] == r.blocks;
    }
  }

  lemma CreateHasShape(p: Pool, align: nat, size: nat, e: Env)
    requires PoolOk(p) && SmallAlign(align)
    ensures var r := Create(p, align, size, e); CreateShape(p, r.pool, r.value, align, size, BranchOf(p, align, size, e))
  {
    hide NextBlock, Compact, Absorbed, WholeFor, AlignUp, BlockSizeFor;
    var q := WithBlock(p, e.first);
    var c := q.blocks[q.cur];
    var pos := AlignUp(q.pos, align);
    var r := q.(pos := pos);
    RoundedCap(c.cap);
    AlignedPos(q.pos, align, AlignUp(c.cap, 8));
    AlignedPos(0, align, 0);
    match BranchOf(p, align, size, e)
    case Current =>
    case Next => NextShape(p, r, size, e.second);
    case Own =>
      BlockSizeAligned(e.grown);
      assert ([Block(e.second, size)] + r.blocks)[1..] == r.blocks;
  }

  /** A buffer inside the space that `Create` reserved is safe once the pool's position is set to its end. */
  lemma PlaceIsSafe(p: Pool, r: Pool, value: nat, align: nat, size: nat, branch: Branch, live: seq<Buffer>, b: Buffer, q: Pool)
    requires Good(p, live) && CreateShape(p, r, value, align, size, branch) && Allocated(r.blocks)
    requires b.align > 0 && b.addr % b.align == 0 && value <= b.addr && b.addr + b.size <= value + size
    requires q == if branch.Own? then r else r.(pos := b.addr + b.size - r.blocks[r.cur].base)
    ensures Good(q, live + [b])
  {
    match branch
    case Current => FitsInCurrent(p, q, live, b);
    case Next => FitsInNext(p, q, live, b);
    case Own =>
      assert r.blocks == [r.blocks[0]] + r.blocks[1..];
      FitsInOwnBlock(p, q, live, b, r.blocks[0], r.blocks[1..]);
  }

  /** Creating a buffer leaves all live buffers in place and adds one that overlaps none of them. */
  lemma CreateIsSafe(p: Pool, live: seq<Buffer>, align: nat, size: nat, e: Env)
    requires Good(p, live) && SmallAlign(align) && Allocated(Create(p, align, size, e).pool.blocks)
    ensures var r := Create(p, align, size, e); Good(r.pool, live + [Buffer(r.value, size, align)])
  {
    hide Create;
    var r, branch := Create(p, align, size, e), BranchOf(p, align, size, e);
    CreateHasShape(p, align, size, e);
    var c := r.pool.blocks[r.pool.cur];
    match branch {
      case Current => SumAligned(c.base, r.value - c.base, align);
      case Next => SumAligned(c.base, 0, align);
      case Own => SumAligned(r.pool.blocks[0].base, 0, align);
    }
    PlaceIsSafe(p, r.pool, r.value, align, size, branch, live, Buffer(r.value, size, align), r.pool);
  }

  /**
   The pointer comparison in `create_aligned_buffer` tells a buffer at the top of the current block from one
   in a block of its own: the header between two blocks keeps their ends from meeting.
   */
  lemma GiveBackTest(p: Pool, size: nat, e: Env)
    requires PoolOk(p) && Allocated(Create(p, 1, size, e).pool.blocks)
    ensures var r := Create(p, 1, size, e);
            r.pool.cur < |r.pool.blocks|
            && (r.pool.blocks[r.pool.cur].base + r.pool.pos == r.value + size <==> !BranchOf(p, 1, size, e).Own?)
  {
    hide Create;
    var r := Create(p, 1, size, e);
    CreateHasShape(p, 1, size, e);
    if BranchOf(p, 1, size, e).Own? {
      var c := r.pool.blocks[r.pool.cur];
      RoundedCap(c.cap);
      assert Separate(r.pool.blocks[0], c);
    }
  }

  /** The aligned form is as safe, gives back all but what it needs, and meets the alignment asked for. */
  lemma CreateAlignedIsSafe(p: Pool, live: seq<Buffer>, align: nat, size: nat, e: Env)
    requires Good(p, live) && align > 0 && Allocated(CreateAligned(p, align, size, e).pool.blocks)
    ensures var r := CreateAligned(p, align, size, e); Good(r.pool, live + [Buffer(r.value, size, align)])
  {
    hide Create, AlignUp;
    var total := size + align;
    var r, branch := Create(p, 1, total, e), BranchOf(p, 1, total, e);
    assert CreateAligned(p, align, size, e).pool.blocks == r.pool.blocks;
    CreateHasShape(p, 1, total, e);
    GiveBackTest(p, total, e);
    AlignUpSpec(r.value, align);
    var b := Buffer(AlignUp(r.value, align), size, align);
    PlaceIsSafe(p, r.pool, r.value, 1, total, branch, live, b, CreateAligned(p, align, size, e).pool);
  }

  // ---------------------------------------------------------------------------------------------
  // Clearing and shrinking
  // ---------------------------------------------------------------------------------------------

  lemma ClearIsSafe(p: Pool, at: nat)
    requires PoolOk(p) && Allocated(Clear(p, at).pool.blocks)
    ensures Good(Clear(p, at).pool, [])
  {
    if p.blocks != [] {
      CompactShape(p.(cleaners := []), 0, at);
    }
  }

  lemma {:induction false} PrefixAllocated(blocks: seq<Block>, k: nat)
    requires Allocated(blocks) && k <= |blocks|
    ensures Allocated(blocks[..k])
  {
  }

  /** `shrink_to_fit()` releases only blocks without live buffers. */
  lemma ShrinkIsSafe(p: Pool, live: seq<Buffer>)
    requires Good(p, live)
    ensures Good(Shrink(p).pool, live)
  {
    if p.blocks == [] {
    } else if p.cur == 0 && p.pos == 0 {
      forall k | 0 <= k < |live|
        ensures live[k].size == 0
      {
        assert BufferOk(p, live[k]);
      }
    } else {
      PrefixAllocated(p.blocks, p.cur + 1);
      KeepAll(p, Shrink(p).pool, live);
    }
  }

  lemma ShrinkToIsSafe(p: Pool, live: seq<Buffer>, min: nat, at: nat)
    requires Good(p, live) && min > 0
    ensures Good(ShrinkTo(p, min, at).pool, live)
  {
    if p.blocks != [] {
      PrefixAllocated(p.blocks, Kept(p.blocks, p.cur + 1, min));
      KeepAll(p, ShrinkTo(p, min, at).pool, live);
    }
  }

  lemma {:induction false} CapacityMonotone(blocks: seq<Block>, i: nat, j: nat)
    requires i <= j <= |blocks|
    ensures CapacityOf(blocks, i) <= CapacityOf(blocks, j)
    decreases j - i
  {
    if i < j {
      CapacityMonotone(blocks, i, j - 1);
    }
  }

  lemma {:induction false} CapacityOfPrefix(blocks: seq<Block>, k: nat, n: nat)
    requires n <= k <= |blocks|
    ensures CapacityOf(blocks[..k], n) == CapacityOf(blocks, n)
    decreases n
  {
    if n > 0 {
      CapacityOfPrefix(blocks, k, n - 1);
    }
  }

  lemma {:induction false} CapacityShifted(own: Block, blocks: seq<Block>, n: nat)
    requires n <= |blocks|
    ensures CapacityOf([own] + blocks, n + 1) == own.cap + CapacityOf(blocks, n)
    decreases n
  {
    if n > 0 {
      CapacityShifted(own, blocks, n - 1);
    } else {
      assert CapacityOf([own] + blocks, 0) == 0;
    }
  }

  /** `Kept` is the shortest prefix from `n` on that reaches `min`, or everything. */
  lemma {:induction false} KeptIsShortest(blocks: seq<Block>, n: nat, min: nat)
    requires n <= |blocks|
    ensures var k := Kept(blocks, n, min);
            (CapacityOf(blocks, k) >= min || k == |blocks|) && forall i :: n <= i < k ==> CapacityOf(blocks, i) < min
    decreases |blocks| - n
  {
    if CapacityOf(blocks, n) < min && n < |blocks| {
      KeptIsShortest(blocks, n + 1, min);
    }
  }

  /**
   `shrink_to_fit(min)` with min > 0 keeps the blocks in use and then the fewest more that reach `min`, returns
   exactly the capacity left, and that is at least `min` or all there was.
   */
  lemma ShrinkToKeepsEnough(p: Pool, min: nat, at: nat)
    requires PoolOk(p) && min > 0
    ensures var r := ShrinkTo(p, min, at);
            && r.value == Capacity(r.pool) && (r.value >= min || r.value == Capacity(p))
            && r.pool.blocks == p.blocks[..|r.pool.blocks|]
            && (forall i :: p.cur < i < |r.pool.blocks| ==> CapacityOf(p.blocks, i) < min)
  {
    if p.blocks != [] {
      var k := Kept(p.blocks, p.cur + 1, min);
      KeptIsShortest(p.blocks, p.cur + 1, min);
      CapacityOfPrefix(p.blocks, k, k);
      assert p.blocks[..|p.blocks|] == p.blocks;
    }
  }

  // ---------------------------------------------------------------------------------------------
  // Block sizes
  // ---------------------------------------------------------------------------------------------

  /** No block is larger than a new one would be, and the current one's capacity is a multiple of 16. */
  ghost predicate Tidy(p: Pool) {
    && (forall i :: 0 <= i < |p.blocks| ==> p.blocks[i].cap <= p.blockSize)
    && (p.cur < |p.blocks| ==> p.blocks[p.cur].cap % 16 == 0)
  }

  /** In a tidy pool the position never passes the current block's capacity, and size never passes capacity. */
  lemma TidyBounds(p: Pool)
    requires PoolOk(p) && Tidy(p)
    ensures p.blocks != [] ==> p.pos <= p.blocks[p.cur].cap
    ensures Size(p) <= Capacity(p)
  {
    if p.blocks != [] {
      RoundedCap(p.blocks[p.cur].cap);
      CapacityMonotone(p.blocks, p.cur + 1, |p.blocks|);
    }
  }

  lemma CompactIsTidy(p: Pool, i: nat, at: nat)
    requires i < |p.blocks| && p.blockSize % 16 == 0 && forall k :: 0 <= k < |p.blocks| ==> p.blocks[k].cap <= p.blockSize
    ensures var q := Compact(p, i, at).pool;
            && i < |q.blocks| && q.blocks[i].cap % 16 == 0
            && forall k :: 0 <= k < |q.blocks| ==> q.blocks[k].cap <= q.blockSize
  {
  }

  lemma NextIsTidy(p: Pool, size: nat, at: nat)
    requires PoolOk(p) && Tidy(p) && p.blocks != []
    ensures Tidy(NextBlock(p, size, at).pool) && NextBlock(p, size, at).pool.blockSize == p.blockSize
  {
    var k := p.cur + 1;
    if k < |p.blocks| {
      CompactIsTidy(p, k, at);
    }
  }

  /** Creating a buffer keeps a pool tidy and never makes its block size smaller. */
  lemma CreateIsTidy(p: Pool, align: nat, size: nat, e: Env)
    requires PoolOk(p) && Tidy(p) && SmallAlign(align) && e.grown >= size
    ensures var r := Create(p, align, size, e).pool; Tidy(r) && r.blockSize >= p.blockSize && r.blockSize % 16 == 0
    ensures BranchOf(p, align, size, e).Own? ==> Create(p, align, size, e).pool.blockSize >= size
  {
    hide NextBlock, WholeFor;
    var q := WithBlock(p, e.first);
    var r := q.(pos := AlignUp(q.pos, align));
    BlockSizeAligned(e.grown);
    var c := r.blocks[r.cur];
    match BranchOf(p, align, size, e)
    case Current =>
    case Next =>
      RoundedCap(c.cap);
      AlignedPos(q.pos, align, AlignUp(c.cap, 8));
      NextIsTidy(p.(pos := r.pos), size, e.second);
    case Own =>
      var s := Create(p, align, size, e).pool;
      assert s.blocks[s.cur] == c;
  }

  /** A request no larger than the block size never gets a block of its own. */
  lemma SmallRequestsShareBlocks(p: Pool, align: nat, size: nat, e: Env)
    requires PoolOk(p) && SmallAlign(align) && size <= p.blockSize
    ensures !BranchOf(p, align, size, e).Own?
  {
  }

  lemma ClearIsTidy(p: Pool, at: nat)
    requires PoolOk(p) && Tidy(p)
    ensures Tidy(Clear(p, at).pool) && Clear(p, at).pool.blockSize == p.blockSize
  {
    if p.blocks != [] {
      CompactIsTidy(p.(cleaners := []), 0, at);
    }
  }
}
