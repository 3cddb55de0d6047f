/**
 What the operations of a pool are for, said of the blocks obtained and released: shrinking releases whatever is
 not in use, compaction absorbs no more than it must, a buffer costs a block only if there is no room for it, and
 `contain`, `size` and `set_block_size` answer to what was handed out.
 */
module PoolEffects {
  import opened Arith
  import opened BlockSize
  import opened PoolSafety
  import opened PoolSpec

  // ---------------------------------------------------------------------------------------------
  // Blocks obtained and released
  // ---------------------------------------------------------------------------------------------

  /** The blocks that some events obtain. */
  function News(es: seq<Event>): seq<Block> {
    if es == [] then []
    else News(es[..|es| - 1]) + if es[|es| - 1].New? then [es[|es| - 1].block] else []
  }

  /** The blocks that they release. */
  function Released(es: seq<Event>): seq<Block> {
    if es == [] then []
    else Released(es[..|es| - 1]) + if es[|es| - 1].Free? then [es[|es| - 1].block] else []
  }

  lemma {:induction false} Concat(es: seq<Event>, fs: seq<Event>)
    ensures News(es + fs) == News(es) + News(fs) && Released(es + fs) == Released(es) + Released(fs)
    decreases |fs|
  {
    if fs == [] {
      assert es + fs == es;
    } else {
      var k := |fs| - 1;
      Concat(es, fs[..k]);
      assert (es + fs)[..|es + fs| - 1] == es + fs[..k];
    }
  }

  lemma {:induction false} OfFrees(bs: seq<Block>)
    ensures News(Frees(bs)) == [] && Released(Frees(bs)) == bs
  {
    if bs != [] {
      OfFrees(bs[..|bs| - 1]);
      assert Frees(bs)[..|Frees(bs)| - 1] == Frees(bs[..|bs| - 1]);
    }
  }

  lemma {:induction false} OfRuns(cs: seq<Cleaner>)
    ensures News(Runs(cs)) == [] && Released(Runs(cs)) == []
  {
    if cs != [] {
      OfRuns(cs[..|cs| - 1]);
      assert Runs(cs)[..|Runs(cs)| - 1] == Runs(cs[..|cs| - 1]);
    }
  }

  lemma OfNew(b: Block)
    ensures News([New(b)]) == [b] && Released([New(b)]) == []
  {
    assert [New(b)][..0] == [];
  }

  lemma OfExchange(gone: Block, b: Block)
    ensures News([Free(gone), New(b)]) == [b] && Released([Free(gone), New(b)]) == [gone]
  {
    assert [Free(gone), New(b)][..1] == [Free(gone)] && [Free(gone)][..0] == [];
    assert News([Free(gone)]) == [] && Released([Free(gone)]) == [] + [gone];
  }

  // ---------------------------------------------------------------------------------------------
  // Shrinking
  // ---------------------------------------------------------------------------------------------

  /** A pool in which nothing is in use. */
  predicate Idle(p: Pool) {
    p.cur == 0 && p.pos == 0
  }

  /**
   `shrink_to_fit()` keeps a front part of the chain and releases all the rest, in order.  It ends at the current block
   at the latest, so what is left is the capacity up to there, and none at all if nothing was in use.
   */
  lemma ShrinkReleases(p: Pool)
    requires PoolOk(p)
    ensures var r := Shrink(p);
            var k := |r.pool.blocks|;
            && k <= |p.blocks| && r.pool.blocks == p.blocks[..k] && Released(r.events) == p.blocks[k..] && News(r.events) == []
            && |r.events| == |p.blocks| - k && k <= p.cur + 1 && r.pool == p.(blocks := p.blocks[..k])
            && Capacity(r.pool) == (if Idle(p) then 0 else CapacityOf(p.blocks, p.cur + 1))
            && Size(r.pool) == Size(p)
  {
    hide News, Released, Frees, Allocated;
    Nothing();
    if p.blocks == [] {
      assert p.blocks[..0] == [] && p.blocks[0..] == [];
    } else if Idle(p) {
      OfFrees(p.blocks);
      FreesLength(p.blocks);
      assert p.blocks[..0] == [] && p.blocks[0..] == p.blocks;
    } else {
      var k := p.cur + 1;
      OfFrees(p.blocks[k..]);
      FreesLength(p.blocks[k..]);
      CapacityOfPrefix(p.blocks, k, k);
      CapacityOfPrefix(p.blocks, k, p.cur);
    }
  }

  lemma {:induction false} FreesLength(bs: seq<Block>)
    ensures |Frees(bs)| == |bs|
  {
    if bs != [] {
      FreesLength(bs[..|bs| - 1]);
    }
  }

  /** A second `shrink_to_fit()` finds nothing to release, whatever the first one left. */
  lemma ShrinkTwice(p: Pool)
    requires PoolOk(p)
    ensures Shrink(Shrink(p).pool).pool == Shrink(p).pool && Shrink(Shrink(p).pool).events == []
  {
    if p.blocks != [] && !Idle(p) {
      assert p.blocks[..p.cur + 1][p.cur + 1..] == [] && p.blocks[..p.cur + 1][..p.cur + 1] == p.blocks[..p.cur + 1];
    }
  }

  /** `shrink_to_fit(0)` leaves nothing: no block, no cleaner, nothing in use. */
  lemma ShrinkToNothing(p: Pool, at: nat)
    requires PoolOk(p)
    ensures var r := ShrinkTo(p, 0, at);
            r.value == 0 && Capacity(r.pool) == 0 && (p.blocks != [] ==> r.pool == Empty(p.blockSize))
  {
    if p.blocks != [] {
      CompactShape(p.(cleaners := []), 0, at);
    }
  }

  // ---------------------------------------------------------------------------------------------
  // Compaction
  // ---------------------------------------------------------------------------------------------

  /** What the blocks from `from` on, `n` of them, hold together. */
  function Together(blocks: seq<Block>, from: nat, n: nat): nat
    requires from + n <= |blocks|
    decreases n
  {
    if n == 0 then 0 else blocks[from].cap + Together(blocks, from + 1, n - 1)
  }

  /** Block `i` and the `n` after it reach `enough` or there are no more, and fewer than `n` do not reach it. */
  ghost predicate Fewest(blocks: seq<Block>, i: nat, n: nat, enough: nat) {
    && i + 1 + n <= |blocks|
    && (Together(blocks, i, n + 1) >= enough || i + 1 + n == |blocks|)
    && forall m :: 1 <= m <= n ==> Together(blocks, i, m) < enough
  }

  lemma {:induction false} AbsorbedIsFewest(blocks: seq<Block>, from: nat, collected: nat, enough: nat)
    requires from <= |blocks|
    ensures var n := Absorbed(blocks, from, collected, enough);
            && (collected + Together(blocks, from, n) >= enough || from + n == |blocks|)
            && forall m :: 0 <= m < n ==> collected + Together(blocks, from, m) < enough
    decreases |blocks| - from
  {
    if from < |blocks| && collected < enough {
      AbsorbedIsFewest(blocks, from + 1, collected + blocks[from].cap, enough);
      var n := Absorbed(blocks, from, collected, enough);
      forall m | 0 <= m < n
        ensures collected + Together(blocks, from, m) < enough
      {
        if m > 0 {
          assert collected + blocks[from].cap + Together(blocks, from + 1, m - 1) < enough;
        }
      }
    }
  }

  /**
   The outcome of compacting block `i`: if it is large enough nothing happens; otherwise it and the fewest after it that
   reach the block size are released, and one block of that size is in their place.
   */
  ghost predicate Compacted(p: Pool, i: nat, q: Pool, es: seq<Event>)
    requires i < |p.blocks|
  {
    if p.blocks[i].cap >= p.blockSize then q == p && es == []
    else exists n: nat, b: Block :: b.cap == p.blockSize && Merged(p, i, n, b, q, es)
  }

  /** Block `i` and the `n` after it are released, and `b` is obtained and put in their place. */
  ghost predicate Merged(p: Pool, i: nat, n: nat, b: Block, q: Pool, es: seq<Event>)
    requires i < |p.blocks|
  {
    && Fewest(p.blocks, i, n, p.blockSize)
    && q == p.(blocks := p.blocks[..i] + [b] + p.blocks[i + 1 + n..])
    && News(es) == [b] && Released(es) == p.blocks[i + 1..i + 1 + n] + [p.blocks[i]]
  }

  lemma CompactMeans(p: Pool, i: nat, at: nat)
    requires i < |p.blocks|
    ensures Compacted(p, i, Compact(p, i, at).pool, Compact(p, i, at).events)
  {
    if p.blocks[i].cap < p.blockSize {
      CompactMerges(p, i, at);
    }
  }

  lemma CompactMerges(p: Pool, i: nat, at: nat)
    requires i < |p.blocks| && p.blocks[i].cap < p.blockSize
    ensures var n := Absorbed(p.blocks, i + 1, p.blocks[i].cap, p.blockSize);
            var r := Compact(p, i, at); Merged(p, i, n, Block(at, p.blockSize), r.pool, r.events)
  {
    hide Frees, News, Released, Absorbed, Fewest;
    var n, b := Absorbed(p.blocks, i + 1, p.blocks[i].cap, p.blockSize), Block(at, p.blockSize);
    var gone := p.blocks[i + 1..i + 1 + n];
    FewestAbsorbed(p.blocks, i, p.blockSize);
    OfFrees(gone);
    OfExchange(p.blocks[i], b);
    Concat(Frees(gone), [Free(p.blocks[i]), New(b)]);
    assert [] + [b] == [b];
  }

  lemma FewestAbsorbed(blocks: seq<Block>, i: nat, enough: nat)
    requires i < |blocks| && blocks[i].cap < enough
    ensures Fewest(blocks, i, Absorbed(blocks, i + 1, blocks[i].cap, enough), enough)
  {
    hide Absorbed;
    var n := Absorbed(blocks, i + 1, blocks[i].cap, enough);
    AbsorbedIsFewest(blocks, i + 1, blocks[i].cap, enough);
    forall m | 1 <= m <= n
      ensures Together(blocks, i, m) < enough
    {
      assert blocks[i].cap + Together(blocks, i + 1, m - 1) < enough;
    }
  }

  /** `clear` runs the cleaners and compacts the head; then nothing is in use, and no address is contained. */
  lemma ClearMeans(p: Pool, at: nat)
    requires PoolOk(p)
    ensures var r := Clear(p, at);
            && Idle(r.pool) && Size(r.pool) == 0 && r.pool.cleaners == [] && (forall a :: !Contains(r.pool, a))
            && |r.events| >= |p.cleaners| && r.events[..|p.cleaners|] == Runs(p.cleaners)
            && if p.blocks == [] then r.pool == Empty(p.blockSize) && |r.events| == |p.cleaners|
               else Compacted(p.(cleaners := [], cur := 0, pos := 0), 0, r.pool, r.events[|p.cleaners|..])
  {
    hide Compact, Fewest, News, Released;
    RunsLength(p.cleaners);
    if p.blocks != [] {
      var q := p.(cleaners := []);
      CompactMeans(q, 0, at);
      CompactShape(q, 0, at);
      var c := Compact(q, 0, at);
      assert Clear(p, at).events[|p.cleaners|..] == c.events;
      Rewound(q, c.pool, c.events);
    }
  }

  lemma Rewound(p: Pool, q: Pool, es: seq<Event>)
    requires p.blocks != [] && q == p.(blocks := q.blocks) && Compacted(p, 0, q, es)
    ensures Compacted(p.(cur := 0, pos := 0), 0, q.(cur := 0, pos := 0), es)
  {
    hide Fewest, News, Released;
    if p.blocks[0].cap < p.blockSize {
      var n: nat, b: Block :| b.cap == p.blockSize && Merged(p, 0, n, b, q, es);
      assert Merged(p.(cur := 0, pos := 0), 0, n, b, q.(cur := 0, pos := 0), es);
    }
  }

  lemma {:induction false} RunsLength(cs: seq<Cleaner>)
    ensures |Runs(cs)| == |cs|
  {
    if cs != [] {
      RunsLength(cs[..|cs| - 1]);
    }
  }

  // ---------------------------------------------------------------------------------------------
  // Allocation
  // ---------------------------------------------------------------------------------------------

  /** The rest of the current block holds the request. */
  predicate RoomHere(p: Pool, align: nat, size: nat)
    requires align > 0
  {
    p.cur < |p.blocks| && exists at :: p.pos <= at < p.pos + align && at % align == 0 && at + size <= p.blocks[p.cur].cap
  }

  /** The block after the current one is as large as a new one would be, and the request fits in that. */
  predicate RoomNext(p: Pool, size: nat) {
    p.cur + 1 < |p.blocks| && size <= p.blockSize <= p.blocks[p.cur + 1].cap
  }

  lemma {:induction false} RoomHereExactly(p: Pool, align: nat, size: nat)
    requires p.cur < |p.blocks| && SmallAlign(align)
    ensures RoomHere(p, align, size) <==> p.blocks[p.cur].cap >= size + AlignUp(p.pos, align)
  {
    hide AlignUp;
    AlignUpSpec(p.pos, align);
    if RoomHere(p, align, size) {
      var at :| p.pos <= at < p.pos + align && at % align == 0 && at + size <= p.blocks[p.cur].cap;
      if at < AlignUp(p.pos, align) {
        MultiplesApart(at, AlignUp(p.pos, align), align);
      } else if AlignUp(p.pos, align) < at {
        MultiplesApart(AlignUp(p.pos, align), at, align);
      }
    }
  }

  /**
   In a pool with blocks a buffer obtains a block if and only if there is no room for it in the current block or the
   next one, and never more than one: of the block size if that is enough, else of exactly the size asked for.
   Blocks are released only when the next one is too small, by compacting it.
   */
  lemma CreateIsThrifty(p: Pool, align: nat, size: nat, e: Env)
    requires PoolOk(p) && SmallAlign(align) && p.blocks != []
    ensures var r := Create(p, align, size, e);
            && (News(r.events) == [] <==> RoomHere(p, align, size) || RoomNext(p, size))
            && |News(r.events)| <= 1
            && (News(r.events) != [] ==> News(r.events)[0].base == r.value)
            && (News(r.events) != [] ==> News(r.events)[0].cap == if size <= p.blockSize then p.blockSize else size)
            && (Released(r.events) != [] ==> !RoomHere(p, align, size) && size <= p.blockSize && p.cur + 1 < |p.blocks|)
            && (News(r.events) == [] ==> r.pool.blocks == p.blocks && Released(r.events) == [])
            && (RoomHere(p, align, size) ==> r.pool.cur == p.cur && AlignedAfter(r.value, p, align))
  {
    hide Create, NextBlock, News, Released, RoomHere, AlignUp;
    CreateByRoom(p, align, size, e);
    AlignUpSpec(p.pos, align);
    Nothing();
    if !RoomHere(p, align, size) && size <= p.blockSize {
      NextIsThrifty(p.(pos := AlignUp(p.pos, align)), size, e.second);
    }
    OfNew(Block(e.second, size));
  }

  lemma CreateByRoom(p: Pool, align: nat, size: nat, e: Env)
    requires PoolOk(p) && SmallAlign(align) && p.blocks != []
    ensures var r := Create(p, align, size, e);
            if RoomHere(p, align, size) then
              r.events == [] && r.pool == p.(pos := AlignUp(p.pos, align) + size) && r.value == p.blocks[p.cur].base + AlignUp(p.pos, align)
            else if size <= p.blockSize then r == NextBlock(p.(pos := AlignUp(p.pos, align)), size, e.second)
            else r.events == [New(Block(e.second, size))] && r.value == e.second
    ensures RoomNext(p, size) ==> size <= p.blockSize
  {
    hide AlignUp, NextBlock, RoomHere, WholeFor, Allocated;
    RoomHereExactly(p, align, size);
    var n := NextBlock(p.(pos := AlignUp(p.pos, align)), size, e.second);
    assert [] + n.events == n.events;
  }

  /** The address is that of the first aligned position not handed out yet. */
  predicate AlignedAfter(address: nat, p: Pool, align: nat)
    requires p.cur < |p.blocks| && align > 0
  {
    var start := p.blocks[p.cur].base; start + p.pos <= address < start + p.pos + align && (address - start) % align == 0
  }

  lemma Nothing()
    ensures News([]) == [] && Released([]) == []
  {
  }

  lemma NextIsThrifty(p: Pool, size: nat, at: nat)
    requires p.cur < |p.blocks| && size <= p.blockSize
    ensures var r := NextBlock(p, size, at);
            && (News(r.events) == [] <==> RoomNext(p, size))
            && |News(r.events)| <= 1
            && (News(r.events) != [] ==> News(r.events)[0] == Block(r.value, p.blockSize))
            && (Released(r.events) != [] ==> p.cur + 1 < |p.blocks|)
            && (News(r.events) == [] ==> r.pool.blocks == p.blocks && Released(r.events) == [])
  {
    hide News, Released, Fewest;
    Nothing();
    var k := p.cur + 1;
    if k < |p.blocks| {
      CompactMeans(p, k, at);
    } else {
      OfNew(Block(at, p.blockSize));
    }
  }

  /** The very first buffer obtains a block of the block size, and one of its own besides if that is too small. */
  lemma FirstIsThrifty(p: Pool, align: nat, size: nat, e: Env)
    requires PoolOk(p) && SmallAlign(align) && p.blocks == []
    ensures var r := Create(p, align, size, e);
            && Released(r.events) == []
            && News(r.events) == [Block(e.first, p.blockSize)] + (if size <= p.blockSize then [] else [Block(r.value, size)])
            && (size <= p.blockSize ==> r.value == e.first)
  {
    hide AlignUp, News, Released;
    AlignUpSpec(0, align);
    AlignedPos(0, align, 0);
    OfNew(Block(e.first, p.blockSize));
    OfNew(Block(e.second, size));
    Concat([New(Block(e.first, p.blockSize))], [New(Block(e.second, size))]);
    Nothing();
    assert FirstEvents(p, e.first) + [] == FirstEvents(p, e.first);
  }

  /**
   The block size changes only when a request gets a block of its own, and is then that of `grown` bytes, the size
   asked for times 1.1: with its header the least whole block offered of at least that many bytes.
   */
  lemma OversizedRaises(p: Pool, align: nat, size: nat, e: Env, whole: nat)
    requires PoolOk(p) && SmallAlign(align)
    requires whole >= e.grown + HEADER && (if e.grown + HEADER <= PAGE then IsPow2(whole) else whole % PAGE == 0)
    ensures var r := Create(p, align, size, e).pool;
            if BranchOf(p, align, size, e).Own? then
              && e.grown + HEADER <= r.blockSize + HEADER <= whole
              && (if e.grown + HEADER <= PAGE then IsPow2(r.blockSize + HEADER) else (r.blockSize + HEADER) % PAGE == 0)
            else r.blockSize == p.blockSize
  {
    hide WholeFor, Absorbed, Allocated;
    if e.grown + HEADER <= PAGE {
      SmallIsLeastPow2(e.grown, whole);
    } else {
      LargeIsLeastPages(e.grown, whole / PAGE);
    }
  }

  /** The aligned form leaves no slack behind its buffer unless the buffer got a block of its own. */
  lemma GivesBack(p: Pool, align: nat, size: nat, e: Env)
    requires PoolOk(p) && align > 0 && Allocated(CreateAligned(p, align, size, e).pool.blocks)
    ensures var r := CreateAligned(p, align, size, e);
            && r.pool.cur < |r.pool.blocks|
            && (r.pool.blocks[r.pool.cur].base + r.pool.pos == r.value + size || (|r.pool.blocks| > 1 && r.pool.blocks[0].cap == size + align))
  {
    hide Create, AlignUp;
    var total := size + align;
    var r := Create(p, 1, total, e);
    CreateHasShape(p, 1, total, e);
    GiveBackTest(p, total, e);
    AlignUpSpec(r.value, align);
    if !BranchOf(p, 1, total, e).Own? {
      AlignedInside(p, align, size, e);
    }
  }

  lemma AlignedInside(p: Pool, align: nat, size: nat, e: Env)
    requires PoolOk(p) && align > 0 && !BranchOf(p, 1, size + align, e).Own?
    requires var r := Create(p, 1, size + align, e);
             && r.pool.cur < |r.pool.blocks| && r.pool.blocks[r.pool.cur].base + r.pool.pos == r.value + size + align
             && r.pool.blocks[r.pool.cur].base <= r.value
    ensures var r := CreateAligned(p, align, size, e);
            r.pool.cur < |r.pool.blocks| && r.pool.blocks[r.pool.cur].base + r.pool.pos == r.value + size
  {
    hide Create, AlignUp;
    AlignUpSpec(Create(p, 1, size + align, e).value, align);
  }

  // ---------------------------------------------------------------------------------------------
  // What the pool answers
  // ---------------------------------------------------------------------------------------------

  /** `contain` begins to recognise the bytes of a buffer when it is created, not before. */
  lemma NewBytesAreNew(p: Pool, align: nat, size: nat, e: Env, address: nat)
    requires PoolOk(p) && SmallAlign(align) && Allocated(Create(p, align, size, e).pool.blocks)
    requires var r := Create(p, align, size, e); r.value <= address < r.value + size
    ensures !Contains(p, address) && Contains(Create(p, align, size, e).pool, address)
  {
    hide Create, BranchOf;
    var r, branch := Create(p, align, size, e), BranchOf(p, align, size, e);
    CreateHasShape(p, align, size, e);
    var holder := match branch case Own => 0 case _ => r.pool.cur;
    assert r.pool.blocks[holder].base <= address;
    assert holder < r.pool.cur ==> address < r.pool.blocks[holder].base + r.pool.blocks[holder].cap;
    if Contains(p, address) {
      NotThereBefore(p, r.pool, address, branch, r.value, align, size);
    }
  }

  lemma NotThereBefore(p: Pool, r: Pool, address: nat, branch: Branch, value: nat, align: nat, size: nat)
    requires PoolOk(p) && CreateShape(p, r, value, align, size, branch) && Allocated(r.blocks)
    requires value <= address < value + size
    ensures !Contains(p, address)
  {
    forall i: nat | p.blocks != [] && i <= p.cur
      ensures address < p.blocks[i].base || p.blocks[i].base + (if i < p.cur then p.blocks[i].cap else p.pos) <= address
    {
      NotInBlock(p, r, address, branch, value, align, size, i);
    }
  }

  lemma NotInBlock(p: Pool, r: Pool, address: nat, branch: Branch, value: nat, align: nat, size: nat, i: nat)
    requires PoolOk(p) && CreateShape(p, r, value, align, size, branch) && Allocated(r.blocks)
    requires value <= address < value + size && p.blocks != [] && i <= p.cur
    ensures address < p.blocks[i].base || p.blocks[i].base + (if i < p.cur then p.blocks[i].cap else p.pos) <= address
  {
    RoundedCap(p.blocks[p.cur].cap);
    match branch
    case Current =>
      if i < p.cur {
        assert Separate(r.blocks[i], r.blocks[r.cur]);
      }
    case Next =>
      assert r.blocks[..r.cur][i] == p.blocks[i];
      assert Separate(r.blocks[i], r.blocks[r.cur]);
    case Own =>
      assert r.blocks[1..][i] == p.blocks[i];
      assert Separate(r.blocks[0], r.blocks[i + 1]);
  }

  /** The bytes that `set_block_size(n)` asks for: less than a header is taken for two of them. */
  function WholeAsked(n: nat): nat {
    if n < HEADER then 2 * HEADER else n
  }

  /** `set_block_size(n)`: the whole block, with its header, is the least one offered that has the bytes asked for. */
  lemma SetBlockSizeMeans(p: Pool, n: nat, whole: nat)
    requires whole >= WholeAsked(n) && (if WholeAsked(n) <= PAGE then IsPow2(whole) else whole % PAGE == 0)
    ensures var q := SetBlockSize(p, n);
            && q == p.(blockSize := q.blockSize) && WholeAsked(n) <= q.blockSize + HEADER <= whole
            && (if WholeAsked(n) <= PAGE then IsPow2(q.blockSize + HEADER) else (q.blockSize + HEADER) % PAGE == 0)
  {
    hide WholeFor;
    var payload := WholeAsked(n) - HEADER;
    if payload + HEADER <= PAGE {
      SmallIsLeastPow2(payload, whole);
    } else {
      LargeIsLeastPages(payload, whole / PAGE);
    }
  }

  /** What a pool reports as its size grows by at least the size of every buffer. */
  lemma SizeGrows(p: Pool, align: nat, size: nat, e: Env)
    requires PoolOk(p) && Tidy(p) && SmallAlign(align)
    ensures var r := Create(p, align, size, e).pool; r.cur <= |r.blocks| && Size(r) >= Size(p) + size
  {
    hide Create, AlignUp, BlockSizeFor, Tidy;
    CreateHasShape(p, align, size, e);
    TidyBounds(p);
    var r := Create(p, align, size, e);
    if p.blocks != [] {
      match BranchOf(p, align, size, e)
      case Current =>
      case Next =>
        CapacityOfPrefix(p.blocks, r.pool.cur, p.cur);
        CapacityOfPrefix(p.blocks, r.pool.cur, r.pool.cur);
        CapacityOfPrefix(r.pool.blocks, r.pool.cur, r.pool.cur);
      case Own =>
        assert r.pool.blocks == [r.pool.blocks[0]] + p.blocks;
        CapacityShifted(r.pool.blocks[0], p.blocks, p.cur);
    } else if BranchOf(p, align, size, e).Own? {
      assert CapacityOf(r.pool.blocks, 1) == r.pool.blocks[0].cap;
    }
  }

  /** In the current block it grows by exactly the bytes up to the end of the buffer. */
  lemma SizeGrowsExactly(p: Pool, align: nat, size: nat, e: Env)
    requires PoolOk(p) && SmallAlign(align) && RoomHere(p, align, size)
    ensures var r := Create(p, align, size, e);
            && r.pool.cur <= |r.pool.blocks| && AlignedAfter(r.value, p, align)
            && Size(r.pool) == Size(p) + (r.value + size - (p.blocks[p.cur].base + p.pos))
  {
    hide Create, NextBlock, AlignUp;
    CreateByRoom(p, align, size, e);
    AlignUpSpec(p.pos, align);
  }
}
