/**
 Any number of memory pools over whole histories: allocations, clears, shrinks, moves between pools and
 destruction.  The log records every block obtained from and returned to the allocator and every destructor
 call, in order.
 */
module PoolRuns {
  import opened Arith
  import opened BlockSize
  import opened PoolSafety
  import opened PoolSpec

  /** A pool variable: not constructed yet or destroyed, or a pool with the buffers it has handed out. */
  datatype Slot = Gone | There(pool: Pool, live: seq<Buffer>)

  datatype System = System(slots: seq<Slot>, log: seq<Event>, nextId: nat)

  /** What can be done to one pool. */
  datatype Act =
    | CreateBuffer(align: nat, size: nat, env: Env)
    | CreateAlignedBuffer(align: nat, size: nat, env: Env)
    | ClearPool(at: nat)
    | ShrinkPool
    | ShrinkPoolTo(min: nat, at: nat)
    | Resize(blockSize: nat)
    | DestroyPool

  datatype Op =
    | Construct(blockSize: nat)
    | On(k: nat, act: Act)
    | Register(k: nat, pointer: nat)
    | MoveConstruct(from: nat)
    | MoveAssign(k: nat, from: nat, at: nat)

  // ---------------------------------------------------------------------------------------------
  // The log
  // ---------------------------------------------------------------------------------------------

  /** The blocks alive after some events. */
  ghost function After(m: multiset<Block>, es: seq<Event>): multiset<Block> {
    if es == [] then m
    else
      var n := After(m, es[..|es| - 1]);
      match es[|es| - 1]
      case New(b) => n + multiset{b}
      case Free(b) => n - multiset{b}
      case Run(_) => n
  }

  /** Every block freed was alive: nothing is freed twice, and nothing that was never allocated. */
  ghost predicate FreesOk(m: multiset<Block>, es: seq<Event>) {
    es == []
    || (FreesOk(m, es[..|es| - 1]) && (es[|es| - 1].Free? ==> es[|es| - 1].block in After(m, es[..|es| - 1])))
  }

  /** The guarantee of `operator new`: a new block is 16-byte aligned and overlaps no block alive at that time. */
  ghost predicate NewsOk(m: multiset<Block>, es: seq<Event>) {
    es == []
    || (NewsOk(m, es[..|es| - 1]) && (es[|es| - 1].New? ==> FreshBlock(After(m, es[..|es| - 1]), es[|es| - 1].block)))
  }

  ghost predicate FreshBlock(alive: multiset<Block>, b: Block) {
    b.base % 16 == 0 && b.base >= HEADER && forall x :: x in alive ==> Separate(x, b)
  }

  /** Alive blocks are aligned, pairwise separate and listed once. */
  ghost predicate Spread(m: multiset<Block>) {
    && (forall x :: x in m ==> x.base % 16 == 0 && x.base >= HEADER && m[x] == 1)
    && (forall x, y :: x in m && y in m && x != y ==> Separate(x, y))
  }

  /** How often the cleaner registered as `id` has run. */
  ghost function Ran(es: seq<Event>, id: nat): nat {
    if es == [] then 0
    else Ran(es[..|es| - 1], id) + if es[|es| - 1].Run? && es[|es| - 1].cleaner.id == id then 1 else 0
  }

  ghost function Pending(cs: seq<Cleaner>, id: nat): nat {
    if cs == [] then 0 else Pending(cs[..|cs| - 1], id) + if cs[|cs| - 1].id == id then 1 else 0
  }

  lemma {:induction false} AfterConcat(m: multiset<Block>, es: seq<Event>, fs: seq<Event>)
    ensures After(m, es + fs) == After(After(m, es), fs)
    ensures FreesOk(m, es + fs) <==> FreesOk(m, es) && FreesOk(After(m, es), fs)
    ensures NewsOk(m, es + fs) <==> NewsOk(m, es) && NewsOk(After(m, es), fs)
    decreases |fs|
  {
    if fs == [] {
      assert es + fs == es;
    } else {
      var k := |fs| - 1;
      AfterConcat(m, es, fs[..k]);
      assert (es + fs)[..|es + fs| - 1] == es + fs[..k];
    }
  }

  lemma {:induction false} RanConcat(es: seq<Event>, fs: seq<Event>, id: nat)
    ensures Ran(es + fs, id) == Ran(es, id) + Ran(fs, id)
    decreases |fs|
  {
    if fs == [] {
      assert es + fs == es;
    } else {
      var k := |fs| - 1;
      RanConcat(es, fs[..k], id);
      assert (es + fs)[..|es + fs| - 1] == es + fs[..k];
    }
  }

  /** Blocks that an operation does not mention stay alive through it. */
  lemma {:induction false} AfterFrame(m: multiset<Block>, others: multiset<Block>, es: seq<Event>)
    requires FreesOk(m, es)
    ensures After(m + others, es) == After(m, es) + others && FreesOk(m + others, es)
    decreases |es|
  {
    if es != [] {
      AfterFrame(m, others, es[..|es| - 1]);
    }
  }

  lemma {:induction false} SpreadKept(m: multiset<Block>, es: seq<Event>)
    requires Spread(m) && NewsOk(m, es)
    ensures Spread(After(m, es))
    decreases |es|
  {
    hide Spread, FreshBlock;
    if es != [] {
      var k := |es| - 1;
      SpreadKept(m, es[..k]);
      var n := After(m, es[..k]);
      if es[k].New? {
        SpreadNew(n, es[k].block);
      } else if es[k].Free? {
        SpreadFree(n, es[k].block);
      }
    }
  }

  lemma SpreadNew(n: multiset<Block>, b: Block)
    requires Spread(n) && FreshBlock(n, b)
    ensures Spread(n + multiset{b})
  {
    assert !Separate(b, b);
    assert b !in n;
    assert forall x :: x in n + multiset{b} ==> x in n || x == b;
  }

  lemma SpreadFree(n: multiset<Block>, b: Block)
    requires Spread(n)
    ensures Spread(n - multiset{b})
  {
    assert forall x :: x in n - multiset{b} ==> x in n;
  }

  lemma MinusOne(m: multiset<Block>, f: multiset<Block>, x: Block)
    requires f + multiset{x} <= m
    ensures x in m - f && (m - f) - multiset{x} == m - (f + multiset{x})
  {
  }

  lemma SnocBlocks(bs: seq<Block>)
    requires bs != []
    ensures var k := |bs| - 1; multiset(bs) == multiset(bs[..k]) + multiset{bs[k]}
  {
    assert bs == bs[..|bs| - 1] + [bs[|bs| - 1]];
  }

  lemma {:induction false} FreesAfter(m: multiset<Block>, bs: seq<Block>)
    requires multiset(bs) <= m
    ensures After(m, Frees(bs)) == m - multiset(bs) && FreesOk(m, Frees(bs))
    decreases |bs|
  {
    if bs != [] {
      var k := |bs| - 1;
      SnocBlocks(bs);
      FreesAfter(m, bs[..k]);
      MinusOne(m, multiset(bs[..k]), bs[k]);
      assert Frees(bs)[..|Frees(bs)| - 1] == Frees(bs[..k]);
    }
  }

  lemma {:induction false} RunsAfter(m: multiset<Block>, cs: seq<Cleaner>)
    ensures After(m, Runs(cs)) == m && FreesOk(m, Runs(cs)) && NewsOk(m, Runs(cs)) && |Runs(cs)| == |cs|
    ensures forall id: nat :: Ran(Runs(cs), id) == Pending(cs, id)
    decreases |cs|
  {
    if cs != [] {
      var k := |cs| - 1;
      RunsAfter(m, cs[..k]);
      assert Runs(cs)[..|Runs(cs)| - 1] == Runs(cs[..k]);
    }
  }

  lemma {:induction false} FreesRunNothing(bs: seq<Block>, id: nat)
    ensures Ran(Frees(bs), id) == 0
    decreases |bs|
  {
    if bs != [] {
      FreesRunNothing(bs[..|bs| - 1], id);
      assert Frees(bs)[..|Frees(bs)| - 1] == Frees(bs[..|bs| - 1]);
    }
  }

  // ---------------------------------------------------------------------------------------------
  // What each operation does to blocks and cleaners
  // ---------------------------------------------------------------------------------------------

  /** The events turn the blocks of `p` into those of `q`, and run exactly the cleaners that `q` has no more. */
  ghost predicate Accounts(p: Pool, q: Pool, es: seq<Event>) {
    && After(multiset(p.blocks), es) == multiset(q.blocks) && FreesOk(multiset(p.blocks), es)
    && (forall id: nat :: Pending(p.cleaners, id) == Pending(q.cleaners, id) + Ran(es, id))
  }

  lemma AccountsChain(p: Pool, q: Pool, r: Pool, es: seq<Event>, fs: seq<Event>)
    requires Accounts(p, q, es) && Accounts(q, r, fs)
    ensures Accounts(p, r, es + fs)
  {
    AfterConcat(multiset(p.blocks), es, fs);
    forall id: nat
      ensures Pending(p.cleaners, id) == Pending(r.cleaners, id) + Ran(es + fs, id)
    {
      RanConcat(es, fs, id);
    }
  }

  lemma OneNew(p: Pool, q: Pool, b: Block)
    requires q.cleaners == p.cleaners && multiset(q.blocks) == multiset(p.blocks) + multiset{b}
    ensures Accounts(p, q, [New(b)])
  {
    assert [New(b)][..0] == [];
    assert forall id: nat :: Ran([New(b)], id) == 0;
  }

  lemma OneFree(p: Pool, q: Pool, b: Block)
    requires q.cleaners == p.cleaners && multiset(p.blocks) == multiset(q.blocks) + multiset{b}
    ensures Accounts(p, q, [Free(b)])
  {
    assert [Free(b)][..0] == [];
    assert multiset(p.blocks) - multiset{b} == multiset(q.blocks);
    assert forall id: nat :: Ran([Free(b)], id) == 0;
  }

  lemma FreesAccount(p: Pool, q: Pool, gone: seq<Block>)
    requires q.cleaners == p.cleaners && multiset(p.blocks) == multiset(q.blocks) + multiset(gone)
    ensures Accounts(p, q, Frees(gone))
  {
    FreesAfter(multiset(p.blocks), gone);
    assert multiset(p.blocks) - multiset(gone) == multiset(q.blocks);
    forall id: nat
      ensures Ran(Frees(gone), id) == 0
    {
      FreesRunNothing(gone, id);
    }
  }

  lemma SplitBlocks(a: seq<Block>, b: seq<Block>)
    ensures multiset(a + b) == multiset(a) + multiset(b)
  {
  }

  /** The middle of a chain is freed and one block takes its place. */
  lemma ReplaceMiddle(p: Pool, front: seq<Block>, b: Block, gone: seq<Block>, back: seq<Block>, n: Block)
    requires p.blocks == front + [b] + gone + back
    ensures Accounts(p, p.(blocks := front + [n] + back), Frees(gone) + [Free(b), New(n)])
  {
    hide Accounts, Frees;
    var q, r, s := p.(blocks := front + [b] + back), p.(blocks := front + back), p.(blocks := front + [n] + back);
    SplitBlocks(front + [b] + gone, back);
    SplitBlocks(front + [b], gone);
    SplitBlocks(front + [b], back);
    SplitBlocks(front, [b]);
    SplitBlocks(front, back);
    SplitBlocks(front + [n], back);
    SplitBlocks(front, [n]);
    FreesAccount(p, q, gone);
    OneFree(q, r, b);
    OneNew(r, s, n);
    AccountsChain(q, r, s, [Free(b)], [New(n)]);
    assert [Free(b)] + [New(n)] == [Free(b), New(n)];
    AccountsChain(p, q, s, Frees(gone), [Free(b), New(n)]);
  }

  lemma CompactAccounts(p: Pool, i: nat, at: nat)
    requires i < |p.blocks|
    ensures var c := Compact(p, i, at); Accounts(p, c.pool, c.events) && c.pool == p.(blocks := c.pool.blocks)
  {
    var b := p.blocks[i];
    if p.blockSize > b.cap {
      var n := Absorbed(p.blocks, i + 1, b.cap, p.blockSize);
      var gone, back := p.blocks[i + 1..i + 1 + n], p.blocks[i + 1 + n..];
      assert p.blocks == p.blocks[..i] + [b] + gone + back;
      ReplaceMiddle(p, p.blocks[..i], b, gone, back, Block(at, p.blockSize));
    }
  }

  /** Accounting looks at blocks and cleaners only. */
  lemma AccountsSame(p: Pool, q: Pool, p': Pool, q': Pool, es: seq<Event>)
    requires Accounts(p, q, es) && p'.blocks == p.blocks && q'.blocks == q.blocks && p'.cleaners == p.cleaners && q'.cleaners == q.cleaners
    ensures Accounts(p', q', es)
  {
  }

  lemma NextAccounts(p: Pool, size: nat, at: nat)
    requires p.cur < |p.blocks|
    ensures var r := NextBlock(p, size, at); Accounts(p, r.pool, r.events)
  {
    var k := p.cur + 1;
    var r := NextBlock(p, size, at);
    if k < |p.blocks| {
      CompactAccounts(p, k, at);
      var c := Compact(p, k, at);
      AccountsSame(p, c.pool, p, r.pool, c.events);
    } else {
      var b := Block(at, p.blockSize);
      assert multiset(p.blocks + [b]) == multiset(p.blocks) + multiset{b};
      OneNew(p, r.pool, b);
    }
  }

  lemma NoEventsAccount(p: Pool, q: Pool)
    requires q.blocks == p.blocks && q.cleaners == p.cleaners
    ensures Accounts(p, q, [])
  {
  }

  lemma FirstAccounts(p: Pool, at: nat)
    ensures Accounts(p, WithBlock(p, at), FirstEvents(p, at))
  {
    if p.blocks == [] {
      var b := Block(at, p.blockSize);
      assert multiset([b]) == multiset(p.blocks) + multiset{b};
      OneNew(p, WithBlock(p, at), b);
    } else {
      NoEventsAccount(p, p);
    }
  }

  lemma CreateAccounts(p: Pool, align: nat, size: nat, e: Env)
    requires align > 0 && (p.blocks != [] ==> p.cur < |p.blocks|)
    ensures var r := Create(p, align, size, e); Accounts(p, r.pool, r.events)
  {
    hide NextBlock, BlockSizeFor;
    var q, first := WithBlock(p, e.first), FirstEvents(p, e.first);
    var s := q.(pos := AlignUp(q.pos, align));
    var r := Create(p, align, size, e);
    FirstAccounts(p, e.first);
    AccountsSame(p, q, p, s, first);
    match BranchOf(p, align, size, e)
    case Current =>
      AccountsSame(p, q, p, r.pool, first);
    case Next =>
      NextAccounts(s, size, e.second);
      AccountsChain(p, s, r.pool, first, NextBlock(s, size, e.second).events);
    case Own =>
      var b := Block(e.second, size);
      assert multiset([b] + s.blocks) == multiset(s.blocks) + multiset{b};
      OneNew(s, r.pool, b);
      AccountsChain(p, s, r.pool, first, [New(b)]);
  }

  lemma CreateAlignedAccounts(p: Pool, align: nat, size: nat, e: Env)
    requires align > 0 && (p.blocks != [] ==> p.cur < |p.blocks|)
    ensures var r := CreateAligned(p, align, size, e); Accounts(p, r.pool, r.events)
  {
    hide Create, Accounts, AlignUp;
    CreateAccounts(p, 1, size + align, e);
    AccountsSame(p, Create(p, 1, size + align, e).pool, p, CreateAligned(p, align, size, e).pool, Create(p, 1, size + align, e).events);
  }

  lemma RunsAccount(p: Pool)
    ensures Accounts(p, p.(cleaners := []), Runs(p.cleaners))
  {
    RunsAfter(multiset(p.blocks), p.cleaners);
  }

  lemma ClearAccounts(p: Pool, at: nat)
    ensures var r := Clear(p, at); Accounts(p, r.pool, r.events) && r.pool.cleaners == []
  {
    hide Compact;
    var q, r := p.(cleaners := []), Clear(p, at);
    RunsAccount(p);
    if q.blocks == [] {
      NoEventsAccount(q, r.pool);
      AccountsChain(p, q, r.pool, Runs(p.cleaners), []);
    } else {
      CompactAccounts(q, 0, at);
      var c := Compact(q, 0, at);
      AccountsSame(q, c.pool, q, r.pool, c.events);
      AccountsChain(p, q, r.pool, Runs(p.cleaners), c.events);
    }
  }

  lemma DropAll(p: Pool, q: Pool)
    requires q.blocks == [] && q.cleaners == p.cleaners
    ensures Accounts(p, q, Frees(p.blocks))
  {
    FreesAccount(p, q, p.blocks);
  }

  lemma ShrinkAccounts(p: Pool)
    requires p.blocks != [] ==> p.cur < |p.blocks|
    ensures var r := Shrink(p); Accounts(p, r.pool, r.events)
  {
    if p.blocks == [] {
      NoEventsAccount(p, p);
    } else if p.cur == 0 && p.pos == 0 {
      DropAll(p, Shrink(p).pool);
    } else {
      SplitBlocks(p.blocks[..p.cur + 1], p.blocks[p.cur + 1..]);
      assert p.blocks == p.blocks[..p.cur + 1] + p.blocks[p.cur + 1..];
      FreesAccount(p, Shrink(p).pool, p.blocks[p.cur + 1..]);
    }
  }

  lemma ShrinkToAccounts(p: Pool, min: nat, at: nat)
    requires p.blocks != [] ==> p.cur < |p.blocks|
    ensures var r := ShrinkTo(p, min, at); Accounts(p, r.pool, r.events)
  {
    hide Clear;
    if p.blocks == [] {
      NoEventsAccount(p, p);
    } else if min == 0 {
      var c := Clear(p, at);
      ClearAccounts(p, at);
      DropAll(c.pool, ShrinkTo(p, min, at).pool);
      AccountsChain(p, c.pool, ShrinkTo(p, min, at).pool, c.events, Frees(c.pool.blocks));
    } else {
      var k := Kept(p.blocks, p.cur + 1, min);
      SplitBlocks(p.blocks[..k], p.blocks[k..]);
      assert p.blocks == p.blocks[..k] + p.blocks[k..];
      FreesAccount(p, ShrinkTo(p, min, at).pool, p.blocks[k..]);
    }
  }

  lemma DiscardAccounts(p: Pool, at: nat)
    ensures Accounts(p, MovedFrom(p), Discard(p, at))
  {
    hide Clear;
    var c := Clear(p, at);
    ClearAccounts(p, at);
    DropAll(c.pool, MovedFrom(p));
    AccountsChain(p, c.pool, MovedFrom(p), c.events, Frees(c.pool.blocks));
  }

  lemma DestroyAccounts(p: Pool)
    ensures Accounts(p, MovedFrom(p), Destroy(p))
  {
    RunsAccount(p);
    var q := p.(cleaners := []);
    DropAll(q, MovedFrom(p));
    AccountsChain(p, q, MovedFrom(p), Runs(p.cleaners), Frees(p.blocks));
  }

  // ---------------------------------------------------------------------------------------------
  // Histories
  // ---------------------------------------------------------------------------------------------

  predicate Has(s: System, k: nat) {
    k < |s.slots| && s.slots[k].There? && (s.slots[k].pool.blocks != [] ==> s.slots[k].pool.cur < |s.slots[k].pool.blocks|)
  }

  /** The slot, and the events, that an act on its pool leads to. */
  function Acted(x: Slot, act: Act): (Slot, seq<Event>)
    requires x.There? && (x.pool.blocks != [] ==> x.pool.cur < |x.pool.blocks|)
  {
    match act
    case CreateBuffer(align, size, env) =>
      if !SmallAlign(align) then (x, [])
      else
        var r := Create(x.pool, align, size, env);
        (There(r.pool, x.live + [Buffer(r.value, size, align)]), r.events)
    case CreateAlignedBuffer(align, size, env) =>
      if align == 0 then (x, [])
      else
        var r := CreateAligned(x.pool, align, size, env);
        (There(r.pool, x.live + [Buffer(r.value, size, align)]), r.events)
    case ClearPool(at) => (There(Clear(x.pool, at).pool, []), Clear(x.pool, at).events)
    case ShrinkPool => (There(Shrink(x.pool).pool, x.live), Shrink(x.pool).events)
    case ShrinkPoolTo(min, at) =>
      var r := ShrinkTo(x.pool, min, at);
      (There(r.pool, if min == 0 && x.pool.blocks != [] then [] else x.live), r.events)
    case Resize(blockSize) => (There(SetBlockSize(x.pool, blockSize), x.live), [])
    case DestroyPool => (Gone, Destroy(x.pool))
  }

  /** Slot `to` takes over the pool of slot `from`, which is left empty. */
  function Transfer(slots: seq<Slot>, to: nat, from: nat): seq<Slot>
    requires to < |slots| && from < |slots| && slots[from].There?
  {
    if to == from then slots
    else slots[to := slots[from]][from := There(MovedFrom(slots[from].pool), [])]
  }

  /** One operation; an operation on a pool that does not exist changes nothing. */
  function Apply(s: System, op: Op): System {
    match op
    case Construct(blockSize) => s.(slots := s.slots + [There(SetBlockSize(Empty(0), blockSize), [])])
    case On(k, act) =>
      if !Has(s, k) then s
      else s.(slots := s.slots[k := Acted(s.slots[k], act).0], log := s.log + Acted(s.slots[k], act).1)
    case Register(k, pointer) =>
      if !Has(s, k) then s
      else
        var p := s.slots[k].pool;
        System(s.slots[k := s.slots[k].(pool := p.(cleaners := p.cleaners + [Cleaner(s.nextId, pointer)]))], s.log, s.nextId + 1)
    case MoveConstruct(from) =>
      if !Has(s, from) then s
      else s.(slots := Transfer(s.slots + [There(MovedFrom(s.slots[from].pool), [])], |s.slots|, from))
    case MoveAssign(k, from, at) =>
      if !Has(s, k) || !Has(s, from) then s
      else
        var p := s.slots[k].pool;
        s.(slots := Transfer(s.slots[k := There(MovedFrom(p), [])], k, from), log := s.log + Discard(p, at))
  }

  function Events(s: System, op: Op): seq<Event> {
    match op
    case On(k, act) => if Has(s, k) then Acted(s.slots[k], act).1 else []
    case MoveAssign(k, from, at) => if Has(s, k) && Has(s, from) then Discard(s.slots[k].pool, at) else []
    case _ => []
  }

  function Exec(ops: seq<Op>): System {
    if ops == [] then System([], [], 0) else Apply(Exec(ops[..|ops| - 1]), ops[|ops| - 1])
  }

  /** The history of a program running over an allocator that keeps its guarantee. */
  ghost predicate ValidRun(ops: seq<Op>) {
    ops == []
    || (ValidRun(ops[..|ops| - 1])
        && var s := Exec(ops[..|ops| - 1]); NewsOk(AllBlocks(s.slots), Events(s, ops[|ops| - 1])))
  }

  ghost function SlotBlocks(x: Slot): multiset<Block> {
    if x.Gone? then multiset{} else multiset(x.pool.blocks)
  }

  ghost function SlotPending(x: Slot, id: nat): nat {
    if x.Gone? then 0 else Pending(x.pool.cleaners, id)
  }

  ghost function AllBlocks(slots: seq<Slot>): multiset<Block> {
    if slots == [] then multiset{} else AllBlocks(slots[..|slots| - 1]) + SlotBlocks(slots[|slots| - 1])
  }

  ghost function AllPending(slots: seq<Slot>, id: nat): nat {
    if slots == [] then 0 else AllPending(slots[..|slots| - 1], id) + SlotPending(slots[|slots| - 1], id)
  }

  ghost predicate SlotGood(x: Slot) {
    x.There? ==> Good(x.pool, x.live)
  }

  /** The blocks alive are those of the pools, and every registered cleaner is pending once or has run once. */
  ghost predicate Ledger(s: System) {
    && After(multiset{}, s.log) == AllBlocks(s.slots) && FreesOk(multiset{}, s.log) && Spread(AllBlocks(s.slots))
    && forall id: nat :: AllPending(s.slots, id) + Ran(s.log, id) == if id < s.nextId then 1 else 0
  }

  ghost predicate Inv(s: System) {
    Ledger(s) && forall k :: 0 <= k < |s.slots| ==> SlotGood(s.slots[k])
  }

  lemma {:induction false} BlocksUpdate(slots: seq<Slot>, k: nat, x: Slot)
    requires k < |slots|
    ensures AllBlocks(slots[k := x]) + SlotBlocks(slots[k]) == AllBlocks(slots) + SlotBlocks(x)
  {
    hide SlotBlocks;
    var n := |slots| - 1;
    if k == n {
      assert slots[k := x][..n] == slots[..n];
    } else {
      BlocksUpdate(slots[..n], k, x);
      assert slots[k := x][..n] == slots[..n][k := x];
      Rearrange(AllBlocks(slots[k := x][..n]), SlotBlocks(slots[k]), AllBlocks(slots[..n]), SlotBlocks(x), SlotBlocks(slots[n]));
    }
  }

  lemma Rearrange(a: multiset<Block>, b: multiset<Block>, c: multiset<Block>, d: multiset<Block>, e: multiset<Block>)
    requires a + b == c + d
    ensures (a + e) + b == (c + e) + d
  {
    assert (a + e) + b == (a + b) + e;
  }

  lemma CancelBlocks(a: multiset<Block>, m: multiset<Block>, o: multiset<Block>, q: multiset<Block>)
    requires a + m == (m + o) + q
    ensures a == q + o
  {
    assert a == (a + m) - m;
    assert q + o == ((m + o) + q) - m;
  }

  lemma {:induction false} PendingUpdate(slots: seq<Slot>, k: nat, x: Slot, id: nat)
    requires k < |slots|
    ensures AllPending(slots[k := x], id) + SlotPending(slots[k], id) == AllPending(slots, id) + SlotPending(x, id)
  {
    var n := |slots| - 1;
    if k == n {
      assert slots[k := x][..n] == slots[..n];
    } else {
      PendingUpdate(slots[..n], k, x, id);
      assert slots[k := x][..n] == slots[..n][k := x];
    }
  }

  lemma {:induction false} SlotWithin(slots: seq<Slot>, k: nat)
    requires k < |slots|
    ensures SlotBlocks(slots[k]) <= AllBlocks(slots)
  {
    if k < |slots| - 1 {
      SlotWithin(slots[..|slots| - 1], k);
    }
  }

  lemma TwiceInSeq(bs: seq<Block>, i: nat, j: nat)
    requires i < j < |bs| && bs[i] == bs[j]
    ensures multiset(bs)[bs[i]] >= 2
  {
    assert bs == bs[..j] + bs[j..];
    assert bs[..j][i] in multiset(bs[..j]) && bs[j..][0] in multiset(bs[j..]);
  }

  lemma SpreadIsAllocated(bs: seq<Block>, m: multiset<Block>)
    requires Spread(m) && multiset(bs) <= m
    ensures Allocated(bs)
  {
    assert forall i :: 0 <= i < |bs| ==> bs[i] in multiset(bs) && bs[i] in m;
    forall i, j | 0 <= i < j < |bs|
      ensures Separate(bs[i], bs[j])
    {
      if bs[i] == bs[j] {
        TwiceInSeq(bs, i, j);
      }
    }
  }

  /** The general step on one slot: its events turn the blocks and cleaners of `p` into those of the new slot. */
  lemma OneSlotBlocks(slots: seq<Slot>, log: seq<Event>, k: nat, x: Slot, es: seq<Event>, p: Pool, q: Pool)
    requires k < |slots| && SlotBlocks(slots[k]) == multiset(p.blocks) && SlotBlocks(x) == multiset(q.blocks)
    requires Accounts(p, q, es) && NewsOk(AllBlocks(slots), es)
    requires After(multiset{}, log) == AllBlocks(slots) && FreesOk(multiset{}, log) && Spread(AllBlocks(slots))
    ensures var t := slots[k := x];
            After(multiset{}, log + es) == AllBlocks(t) && FreesOk(multiset{}, log + es) && Spread(AllBlocks(t))
  {
    hide After, FreesOk, NewsOk, Spread, SlotBlocks, AllBlocks;
    var m, others := multiset(p.blocks), AllBlocks(slots) - multiset(p.blocks);
    SlotWithin(slots, k);
    assert AllBlocks(slots) == m + others;
    AfterFrame(m, others, es);
    BlocksUpdate(slots, k, x);
    CancelBlocks(AllBlocks(slots[k := x]), m, others, multiset(q.blocks));
    SpreadKept(AllBlocks(slots), es);
    AfterConcat(multiset{}, log, es);
  }

  lemma OneSlotLedger(s: System, k: nat, x: Slot, es: seq<Event>, p: Pool, q: Pool)
    requires Ledger(s) && k < |s.slots| && s.slots[k].There? && p == s.slots[k].pool && Accounts(p, q, es)
    requires SlotBlocks(x) == multiset(q.blocks) && forall id: nat :: SlotPending(x, id) == Pending(q.cleaners, id)
    requires NewsOk(AllBlocks(s.slots), es)
    ensures Ledger(s.(slots := s.slots[k := x], log := s.log + es))
  {
    OneSlotBlocks(s.slots, s.log, k, x, es, p, q);
    forall id: nat
      ensures AllPending(s.slots[k := x], id) + Ran(s.log + es, id) == if id < s.nextId then 1 else 0
    {
      RanConcat(s.log, es, id);
      PendingUpdate(s.slots, k, x, id);
      assert AllPending(s.slots, id) + Ran(s.log, id) == if id < s.nextId then 1 else 0;
    }
  }

  lemma OneSlot(s: System, k: nat, x: Slot, es: seq<Event>, p: Pool, q: Pool)
    requires Inv(s) && k < |s.slots| && s.slots[k].There? && p == s.slots[k].pool && Accounts(p, q, es)
    requires SlotBlocks(x) == multiset(q.blocks) && forall id: nat :: SlotPending(x, id) == Pending(q.cleaners, id)
    requires NewsOk(AllBlocks(s.slots), es)
    requires x.There? ==> Allocated(x.pool.blocks) ==> Good(x.pool, x.live)
    ensures Inv(s.(slots := s.slots[k := x], log := s.log + es))
  {
    hide Accounts, Ledger, Good, Allocated;
    OneSlotLedger(s, k, x, es, p, q);
    var t := s.slots[k := x];
    if x.There? {
      SlotWithin(t, k);
      assert t[k] == x;
      LedgerSpread(s.(slots := t, log := s.log + es));
      SpreadIsAllocated(x.pool.blocks, AllBlocks(t));
    }
  }

  lemma LedgerSpread(s: System)
    requires Ledger(s)
    ensures Spread(AllBlocks(s.slots))
  {
  }

  /** Every act on one pool is accounted for by its events, and good once the allocator has done its part. */
  lemma ActAccounts(x: Slot, act: Act, q: Pool)
    requires x.There? && Good(x.pool, x.live)
    requires q == var y := Acted(x, act).0; if y.There? then y.pool else MovedFrom(x.pool)
    ensures Accounts(x.pool, q, Acted(x, act).1)
  {
    hide Accounts, Create, CreateAligned, Clear, Shrink, ShrinkTo, Destroy;
    match act
    case CreateBuffer(align, size, env) =>
      if SmallAlign(align) {
        CreateAccounts(x.pool, align, size, env);
      } else {
        NoEventsAccount(x.pool, q);
      }
    case CreateAlignedBuffer(align, size, env) =>
      if align > 0 {
        CreateAlignedAccounts(x.pool, align, size, env);
      } else {
        NoEventsAccount(x.pool, q);
      }
    case ClearPool(at) => ClearAccounts(x.pool, at);
    case ShrinkPool => ShrinkAccounts(x.pool);
    case ShrinkPoolTo(min, at) => ShrinkToAccounts(x.pool, min, at);
    case Resize(_) => NoEventsAccount(x.pool, q);
    case DestroyPool => DestroyAccounts(x.pool);
  }

  lemma ActIsSafe(x: Slot, act: Act)
    requires x.There? && Good(x.pool, x.live)
    requires var y := Acted(x, act).0; y.There? ==> Allocated(y.pool.blocks)
    ensures SlotGood(Acted(x, act).0)
  {
    hide Create, CreateAligned, Clear, Shrink;
    match act
    case CreateBuffer(align, size, env) => if SmallAlign(align) { CreateIsSafe(x.pool, x.live, align, size, env); }
    case CreateAlignedBuffer(align, size, env) => if align > 0 { CreateAlignedIsSafe(x.pool, x.live, align, size, env); }
    case ClearPool(at) => ClearIsSafe(x.pool, at);
    case ShrinkPool => ShrinkIsSafe(x.pool, x.live);
    case ShrinkPoolTo(min, at) => ShrinkToSafe(x, min, at);
    case Resize(blockSize) => ResizeIsSafe(x, blockSize);
    case DestroyPool =>
  }

  lemma ShrinkToSafe(x: Slot, min: nat, at: nat)
    requires x.There? && Good(x.pool, x.live)
    ensures SlotGood(Acted(x, ShrinkPoolTo(min, at)).0)
  {
    if min > 0 {
      ShrinkToIsSafe(x.pool, x.live, min, at);
    }
  }

  lemma ResizeIsSafe(x: Slot, blockSize: nat)
    requires x.There? && Good(x.pool, x.live)
    ensures Good(SetBlockSize(x.pool, blockSize), x.live)
  {
    BlockSizeAligned(if blockSize < HEADER then HEADER else blockSize - HEADER);
    KeepAll(x.pool, SetBlockSize(x.pool, blockSize), x.live);
  }

  lemma ActInv(s: System, k: nat, act: Act)
    requires Inv(s) && Has(s, k) && NewsOk(AllBlocks(s.slots), Acted(s.slots[k], act).1)
    ensures Inv(Apply(s, On(k, act)))
  {
    hide Accounts, Ledger, Acted, Good, NewsOk, Allocated;
    var x := s.slots[k];
    assert SlotGood(x);
    var (y, es) := Acted(x, act);
    var q := if y.There? then y.pool else MovedFrom(x.pool);
    ActAccounts(x, act, q);
    if y.There? && Allocated(y.pool.blocks) {
      ActIsSafe(x, act);
    }
    OneSlot(s, k, y, es, x.pool, q);
  }

  lemma RegisterPending(s: System, k: nat, x: Slot, cs: seq<Cleaner>, c: Cleaner, id: nat)
    requires k < |s.slots| && s.slots[k].There? && cs == s.slots[k].pool.cleaners && c.id == s.nextId
    requires x.There? && x.pool.cleaners == cs + [c]
    requires AllPending(s.slots, id) + Ran(s.log, id) == if id < s.nextId then 1 else 0
    ensures AllPending(s.slots[k := x], id) + Ran(s.log, id) == if id < s.nextId + 1 then 1 else 0
  {
    PendingUpdate(s.slots, k, x, id);
    assert (cs + [c])[..|cs|] == cs;
  }

  lemma SameBlocks(slots: seq<Slot>, k: nat, x: Slot)
    requires k < |slots| && SlotBlocks(x) == SlotBlocks(slots[k])
    ensures AllBlocks(slots[k := x]) == AllBlocks(slots)
  {
    hide AllBlocks, SlotBlocks;
    BlocksUpdate(slots, k, x);
    var b := SlotBlocks(x);
    assert AllBlocks(slots) == (AllBlocks(slots) + b) - b;
    assert AllBlocks(slots[k := x]) == (AllBlocks(slots[k := x]) + b) - b;
  }

  lemma RegisterInv(s: System, k: nat, pointer: nat)
    requires Inv(s) && Has(s, k)
    ensures Inv(Apply(s, Register(k, pointer)))
  {
    hide After, FreesOk, Spread, Good, AllBlocks, AllPending;
    var p := s.slots[k].pool;
    var c := Cleaner(s.nextId, pointer);
    var q := p.(cleaners := p.cleaners + [c]);
    var x := s.slots[k].(pool := q);
    assert SlotGood(s.slots[k]);
    SameBlocks(s.slots, k, x);
    SameBuffers(p, q, s.slots[k].live);
    forall id: nat
      ensures AllPending(s.slots[k := x], id) + Ran(s.log, id) == if id < s.nextId + 1 then 1 else 0
    {
      RegisterPending(s, k, x, p.cleaners, c, id);
    }
  }

  lemma SameBuffers(p: Pool, q: Pool, live: seq<Buffer>)
    requires Good(p, live) && q == p.(cleaners := q.cleaners)
    ensures Good(q, live)
  {
    KeepAll(p, q, live);
  }

  lemma AppendInv(s: System, x: Slot)
    requires Inv(s) && x.There? && x.pool.blocks == [] && x.pool.cleaners == [] && Good(x.pool, x.live)
    ensures Inv(s.(slots := s.slots + [x]))
  {
    hide After, FreesOk, Spread, Good;
    var t := s.slots + [x];
    assert t[..|t| - 1] == s.slots;
    assert AllBlocks(t) == AllBlocks(s.slots);
    forall id: nat
      ensures AllPending(t, id) == AllPending(s.slots, id)
    {
    }
  }

  lemma EmptyIsGood(blockSize: nat)
    requires blockSize % 16 == 0
    ensures Good(Pool(blockSize, 0, [], 0, []), [])
  {
  }

  /** Handing a pool over changes neither what is alive nor what is pending. */
  lemma TransferInv(s: System, to: nat, from: nat)
    requires Inv(s) && to < |s.slots| && from < |s.slots| && to != from
    requires s.slots[from].There? && s.slots[to].There? && s.slots[to].pool.blocks == [] && s.slots[to].pool.cleaners == []
    ensures Inv(s.(slots := Transfer(s.slots, to, from)))
  {
    hide After, FreesOk, Spread, AllBlocks, AllPending, SlotBlocks, SlotPending, Good;
    var x := s.slots[from];
    var t := Transfer(s.slots, to, from);
    assert SlotGood(x);
    BlockSizeOf(x);
    EmptyIsGood(x.pool.blockSize);
    TransferBlocks(s.slots, to, from);
    forall id: nat
      ensures AllPending(t, id) == AllPending(s.slots, id)
    {
      TransferPending(s.slots, to, from, id);
    }
  }

  lemma TransferBlocks(slots: seq<Slot>, to: nat, from: nat)
    requires to < |slots| && from < |slots| && to != from && slots[from].There? && slots[to].There? && slots[to].pool.blocks == []
    ensures AllBlocks(Transfer(slots, to, from)) == AllBlocks(slots)
  {
    hide AllBlocks;
    var x, y := slots[from], There(MovedFrom(slots[from].pool), []);
    var mid := slots[to := x];
    BlocksUpdate(slots, to, x);
    BlocksUpdate(mid, from, y);
    BackAndForth(AllBlocks(slots), AllBlocks(mid), AllBlocks(Transfer(slots, to, from)), SlotBlocks(x));
  }

  lemma TransferPending(slots: seq<Slot>, to: nat, from: nat, id: nat)
    requires to < |slots| && from < |slots| && to != from && slots[from].There? && slots[to].There? && slots[to].pool.cleaners == []
    ensures AllPending(Transfer(slots, to, from), id) == AllPending(slots, id)
  {
    hide AllPending;
    var x, y := slots[from], There(MovedFrom(slots[from].pool), []);
    PendingUpdate(slots, to, x, id);
    PendingUpdate(slots[to := x], from, y, id);
  }

  lemma BackAndForth(a: multiset<Block>, b: multiset<Block>, c: multiset<Block>, x: multiset<Block>)
    requires b + multiset{} == a + x && c + x == b + multiset{}
    ensures c == a
  {
    assert c == (c + x) - x;
    assert a == (a + x) - x;
  }

  lemma MoveConstructInv(s: System, from: nat)
    requires Inv(s) && Has(s, from)
    ensures Inv(Apply(s, MoveConstruct(from)))
  {
    hide Inv, Good;
    assert SlotGood(s.slots[from]) by { SlotIsGood(s, from); }
    var x := There(MovedFrom(s.slots[from].pool), []);
    BlockSizeOf(s.slots[from]);
    EmptyIsGood(x.pool.blockSize);
    AppendInv(s, x);
    var t := s.(slots := s.slots + [x]);
    TransferInv(t, |s.slots|, from);
  }

  lemma SlotIsGood(s: System, k: nat)
    requires Inv(s) && k < |s.slots|
    ensures SlotGood(s.slots[k])
  {
  }

  lemma BlockSizeOf(x: Slot)
    requires SlotGood(x) && x.There?
    ensures x.pool.blockSize % 16 == 0
  {
  }

  lemma MoveAssignInv(s: System, k: nat, from: nat, at: nat)
    requires Inv(s) && Has(s, k) && Has(s, from) && NewsOk(AllBlocks(s.slots), Discard(s.slots[k].pool, at))
    ensures Inv(Apply(s, MoveAssign(k, from, at)))
  {
    hide Inv, Good, Accounts, Discard, NewsOk;
    var p := s.slots[k].pool;
    var x := There(MovedFrom(p), []);
    SlotIsGood(s, k);
    BlockSizeOf(s.slots[k]);
    EmptyIsGood(p.blockSize);
    DiscardAccounts(p, at);
    OneSlot(s, k, x, Discard(p, at), p, MovedFrom(p));
    var t := s.(slots := s.slots[k := x], log := s.log + Discard(p, at));
    if k != from {
      TransferInv(t, k, from);
    }
  }

  lemma OpInv(s: System, op: Op)
    requires Inv(s) && NewsOk(AllBlocks(s.slots), Events(s, op))
    ensures Inv(Apply(s, op))
  {
    hide Inv, Good, Acted, Discard, NewsOk, Transfer;
    match op
    case Construct(blockSize) =>
      BlockSizeAligned(if blockSize < HEADER then HEADER else blockSize - HEADER);
      EmptyIsGood(SetBlockSize(Empty(0), blockSize).blockSize);
      AppendInv(s, There(SetBlockSize(Empty(0), blockSize), []));
    case On(k, act) => if Has(s, k) { ActInv(s, k, act); }
    case Register(k, pointer) => if Has(s, k) { RegisterInv(s, k, pointer); }
    case MoveConstruct(from) => if Has(s, from) { MoveConstructInv(s, from); }
    case MoveAssign(k, from, at) => if Has(s, k) && Has(s, from) { MoveAssignInv(s, k, from, at); }
  }

  /** The invariant after any history over an allocator that keeps its guarantee. */
  lemma {:induction false} ReachableInv(ops: seq<Op>)
    requires ValidRun(ops)
    ensures Inv(Exec(ops))
  {
    hide Inv;
    if ops == [] {
      InitInv();
    } else {
      var k := |ops| - 1;
      ReachableInv(ops[..k]);
      OpInv(Exec(ops[..k]), ops[k]);
    }
  }

  lemma InitInv()
    ensures Inv(System([], [], 0))
  {
  }

  // ---------------------------------------------------------------------------------------------
  // What holds after every history
  // ---------------------------------------------------------------------------------------------

  /** Live buffers of any two pools never overlap, are aligned, and are contained in their pool. */
  lemma BuffersNeverOverlap(ops: seq<Op>, k: nat, l: nat, i: nat, j: nat)
    requires ValidRun(ops)
    requires var s := Exec(ops); k < |s.slots| && l < |s.slots| && s.slots[k].There? && s.slots[l].There?
                                 && i < |s.slots[k].live| && j < |s.slots[l].live| && (k != l || i != j)
    requires var s := Exec(ops); s.slots[k].live[i].size > 0 && s.slots[l].live[j].size > 0
    ensures var s := Exec(ops); Disjoint(s.slots[k].live[i], s.slots[l].live[j])
  {
    ReachableInv(ops);
    var s := Exec(ops);
    assert SlotGood(s.slots[k]) && SlotGood(s.slots[l]);
    if k != l {
      OtherPoolsApart(s.slots, k, l, s.slots[k].live[i], s.slots[l].live[j]);
    }
  }

  /** Blocks of different pools are separate, so buffers in them are disjoint. */
  lemma OtherPoolsApart(slots: seq<Slot>, k: nat, l: nat, a: Buffer, b: Buffer)
    requires k < |slots| && l < |slots| && k != l && slots[k].There? && slots[l].There? && Spread(AllBlocks(slots))
    requires BufferOk(slots[k].pool, a) && BufferOk(slots[l].pool, b) && a.size > 0 && b.size > 0
    ensures Disjoint(a, b)
  {
    hide AllBlocks, Spread;
    var p, q := slots[k].pool, slots[l].pool;
    var i: nat :| Placed(p, a, i);
    var j: nat :| Placed(q, b, j);
    BlocksOfTwo(slots, k, l, p.blocks[i], q.blocks[j]);
  }

  lemma {:induction false} TwoWithin(slots: seq<Slot>, k: nat, l: nat)
    requires k < l < |slots|
    ensures SlotBlocks(slots[k]) + SlotBlocks(slots[l]) <= AllBlocks(slots)
  {
    hide SlotBlocks;
    if l == |slots| - 1 {
      SlotWithin(slots[..l], k);
    } else {
      TwoWithin(slots[..|slots| - 1], k, l);
    }
  }

  lemma BlocksOfTwo(slots: seq<Slot>, k: nat, l: nat, x: Block, y: Block)
    requires k < |slots| && l < |slots| && k != l && Spread(AllBlocks(slots))
    requires x in SlotBlocks(slots[k]) && y in SlotBlocks(slots[l])
    ensures Separate(x, y)
  {
    hide SlotBlocks, AllBlocks;
    if k < l {
      TwoWithin(slots, k, l);
    } else {
      TwoWithin(slots, l, k);
    }
    var m := AllBlocks(slots);
    assert (SlotBlocks(slots[k]) + SlotBlocks(slots[l])) <= m;
    assert x in m && y in m && (x == y ==> m[x] >= 2);
  }

  /** Buffer `b` of pool `p` is aligned as asked, and `contain` recognises every byte of it. */
  ghost predicate Recognised(p: Pool, b: Buffer) {
    b.align > 0 && b.addr % b.align == 0 && forall address :: b.addr <= address < b.addr + b.size ==> Contains(p, address)
  }

  lemma LiveBytesContained(ops: seq<Op>, k: nat, i: nat)
    requires ValidRun(ops)
    requires var s := Exec(ops); k < |s.slots| && s.slots[k].There? && i < |s.slots[k].live|
    ensures var x := Exec(ops).slots[k]; Recognised(x.pool, x.live[i])
  {
    hide Contains, Good;
    ReachableInv(ops);
    SlotIsGood(Exec(ops), k);
    var x := Exec(ops).slots[k];
    GoodIsRecognised(x.pool, x.live, i);
  }

  lemma GoodIsRecognised(p: Pool, live: seq<Buffer>, i: nat)
    requires Good(p, live) && i < |live|
    ensures Recognised(p, live[i])
  {
    hide Contains;
    var b := live[i];
    assert BufferOk(p, b);
    forall address | b.addr <= address < b.addr + b.size
      ensures Contains(p, address)
    {
      LiveIsContained(p, live, i, address);
    }
  }

  /** Nothing is freed twice, nothing leaks: when all pools are gone, every block allocated has been freed. */
  lemma BlocksAreConserved(ops: seq<Op>)
    requires ValidRun(ops)
    ensures FreesOk(multiset{}, Exec(ops).log) && After(multiset{}, Exec(ops).log) == AllBlocks(Exec(ops).slots)
    ensures (forall k :: 0 <= k < |Exec(ops).slots| ==> Exec(ops).slots[k].Gone?) ==> After(multiset{}, Exec(ops).log) == multiset{}
  {
    ReachableInv(ops);
    if forall k :: 0 <= k < |Exec(ops).slots| ==> Exec(ops).slots[k].Gone? {
      AllGone(Exec(ops).slots, 0);
    }
  }

  lemma {:induction false} AllGone(slots: seq<Slot>, id: nat)
    requires forall k :: 0 <= k < |slots| ==> slots[k].Gone?
    ensures AllBlocks(slots) == multiset{} && AllPending(slots, id) == 0
  {
    if slots != [] {
      AllGone(slots[..|slots| - 1], id);
    }
  }

  /** Each registered destructor has run at most once, and exactly once when all pools are gone. */
  lemma CleanersRunOnce(ops: seq<Op>, id: nat)
    requires ValidRun(ops) && id < Exec(ops).nextId
    ensures Ran(Exec(ops).log, id) <= 1
    ensures (forall k :: 0 <= k < |Exec(ops).slots| ==> Exec(ops).slots[k].Gone?) ==> Ran(Exec(ops).log, id) == 1
  {
    ReachableInv(ops);
    var s := Exec(ops);
    assert AllPending(s.slots, id) + Ran(s.log, id) == 1;
    if forall k :: 0 <= k < |s.slots| ==> s.slots[k].Gone? {
      AllGone(s.slots, id);
    }
  }
}
