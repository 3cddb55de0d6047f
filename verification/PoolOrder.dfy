/**
 A destructor registered for an object that lives in a pool runs before the block that holds the object is
 released, whatever happens to the pool; and until it runs, the object stays inside a live buffer.
 */
module PoolOrder {
  import opened Arith
  import opened BlockSize
  import opened PoolRuns
  import opened PoolSafety
  import opened PoolSpec

  predicate Covers(b: Block, address: nat) {
    b.base <= address < b.base + b.cap
  }

  predicate Inside(b: Buffer, address: nat) {
    b.addr <= address < b.addr + b.size
  }

  /** Some byte of block `b` is handed out. */
  ghost predicate InUse(p: Pool, b: Block) {
    exists i: nat :: i < |p.blocks| && i <= p.cur && p.blocks[i] == b && Used(p, i) > 0
  }

  /** Block `b` may be released after the events `before`: all cleaners have run by then, or nothing is in it. */
  ghost predicate MayRelease(p: Pool, before: seq<Event>, b: Block) {
    Runs(p.cleaners) <= before || (b in p.blocks && !InUse(p, b))
  }

  ghost predicate InOrder(p: Pool, es: seq<Event>) {
    forall j :: 0 <= j < |es| && es[j].Free? ==> MayRelease(p, es[..j], es[j].block)
  }

  // ---------------------------------------------------------------------------------------------
  // Which blocks the operations release
  // ---------------------------------------------------------------------------------------------

  /** All blocks released by `es` are among `blocks`. */
  ghost predicate FreesFrom(blocks: seq<Block>, es: seq<Event>) {
    forall j :: 0 <= j < |es| && es[j].Free? ==> es[j].block in blocks
  }

  lemma {:induction false} FreesAreFrom(bs: seq<Block>)
    ensures FreesFrom(bs, Frees(bs))
    decreases |bs|
  {
    if bs != [] {
      FreesAreFrom(bs[..|bs| - 1]);
    }
  }

  lemma {:induction false} RunsAreRuns(cs: seq<Cleaner>)
    ensures |Runs(cs)| == |cs| && forall j :: 0 <= j < |cs| ==> Runs(cs)[j] == Run(cs[j])
    decreases |cs|
  {
    if cs != [] {
      RunsAreRuns(cs[..|cs| - 1]);
    }
  }

  /** Compacting from index `i` releases only blocks from there on. */
  lemma CompactFreesFrom(p: Pool, i: nat, at: nat)
    requires i < |p.blocks|
    ensures FreesFrom(p.blocks[i..], Compact(p, i, at).events)
  {
    var b := p.blocks[i];
    if p.blockSize > b.cap {
      var n := Absorbed(p.blocks, i + 1, b.cap, p.blockSize);
      var gone := p.blocks[i + 1..i + 1 + n];
      FreesAreFrom(gone);
      assert forall x :: x in gone ==> x in p.blocks[i..];
      assert b == p.blocks[i..][0];
    }
  }

  /** Once all cleaners have run, any block may go. */
  lemma RunsFirst(p: Pool, fs: seq<Event>)
    ensures InOrder(p, Runs(p.cleaners) + fs)
  {
    hide InUse;
    var rs := Runs(p.cleaners);
    RunsAreRuns(p.cleaners);
    var es := rs + fs;
    forall j | 0 <= j < |es| && es[j].Free?
      ensures MayRelease(p, es[..j], es[j].block)
    {
      assert j >= |rs|;
      assert es[..j] == rs + fs[..j - |rs|];
    }
  }

  lemma NotBoth(p: Pool, i: nat, m: nat)
    requires Allocated(p.blocks) && i < m < |p.blocks|
    ensures p.blocks[i] != p.blocks[m]
  {
    assert Separate(p.blocks[i], p.blocks[m]);
  }

  lemma LaterNotInUse(p: Pool, b: Block)
    requires Allocated(p.blocks) && p.cur < |p.blocks| && b in p.blocks[p.cur + 1..]
    ensures !InUse(p, b) && b in p.blocks
  {
    hide Allocated;
    var m :| 0 <= m < |p.blocks| - (p.cur + 1) && p.blocks[p.cur + 1..][m] == b;
    assert p.blocks[p.cur + 1 + m] == b;
    forall i: nat | i < |p.blocks| && i <= p.cur
      ensures p.blocks[i] != b
    {
      NotBoth(p, i, p.cur + 1 + m);
    }
  }

  /** Blocks past the current one may go at any time. */
  lemma LaterOnly(p: Pool, es: seq<Event>)
    requires Allocated(p.blocks) && p.cur < |p.blocks| && FreesFrom(p.blocks[p.cur + 1..], es)
    ensures InOrder(p, es)
  {
    forall j | 0 <= j < |es| && es[j].Free?
      ensures MayRelease(p, es[..j], es[j].block)
    {
      LaterNotInUse(p, es[j].block);
    }
  }

  lemma NoFrees(p: Pool, es: seq<Event>)
    requires FreesFrom([], es)
    ensures InOrder(p, es)
  {
  }

  lemma NextInOrder(p: Pool, r: Pool, size: nat, at: nat)
    requires p.cur < |p.blocks| && r.blocks == p.blocks && r.cur == p.cur
    ensures FreesFrom(p.blocks[p.cur + 1..], NextBlock(r, size, at).events)
  {
    var k := r.cur + 1;
    if k < |r.blocks| {
      CompactFreesFrom(r, k, at);
    }
  }

  lemma CreateInOrder(p: Pool, align: nat, size: nat, e: Env)
    requires PoolOk(p) && SmallAlign(align)
    ensures InOrder(p, Create(p, align, size, e).events)
  {
    hide NextBlock, InOrder, Absorbed, Compact, BlockSizeFor;
    var first := FirstEvents(p, e.first);
    assert FreesFrom([], first);
    CreateHasShape(p, align, size, e);
    match BranchOf(p, align, size, e)
    case Current => NoFrees(p, first);
    case Next =>
      var r := p.(pos := AlignUp(p.pos, align));
      NextInOrder(p, r, size, e.second);
      assert first == [];
      var es := NextBlock(r, size, e.second).events;
      assert first + es == es;
      LaterOnly(p, es);
    case Own => NoFrees(p, first + [New(Block(e.second, size))]);
  }

  lemma ShrinkInOrder(p: Pool)
    requires PoolOk(p)
    ensures InOrder(p, Shrink(p).events)
  {
    if p.blocks == [] {
    } else if p.cur == 0 && p.pos == 0 {
      FreesAreFrom(p.blocks);
      assert forall b :: !InUse(p, b);
    } else {
      FreesAreFrom(p.blocks[p.cur + 1..]);
      LaterOnly(p, Frees(p.blocks[p.cur + 1..]));
    }
  }

  lemma TailFrees(blocks: seq<Block>, a: nat, k: nat)
    requires a <= k <= |blocks|
    ensures FreesFrom(blocks[a..], Frees(blocks[k..]))
  {
    FreesAreFrom(blocks[k..]);
    assert blocks[a..] == blocks[a..k] + blocks[k..];
  }

  lemma ShrinkToInOrder(p: Pool, min: nat, at: nat)
    requires PoolOk(p)
    ensures InOrder(p, ShrinkTo(p, min, at).events)
  {
    hide InOrder, Compact, Clear, Frees, Kept, FreesFrom, CapacityOf;
    if p.blocks == [] {
      NothingFreed(p);
    } else if min == 0 {
      DiscardInOrder(p, at);
    } else {
      var k := Kept(p.blocks, p.cur + 1, min);
      TailFrees(p.blocks, p.cur + 1, k);
      LaterOnly(p, Frees(p.blocks[k..]));
    }
  }

  lemma NothingFreed(p: Pool)
    ensures InOrder(p, [])
  {
  }

  lemma ClearInOrder(p: Pool, at: nat)
    ensures InOrder(p, Clear(p, at).events)
  {
    hide InOrder, Compact;
    var q := p.(cleaners := []);
    var c := if q.blocks == [] then Result(q, [], 0) else Compact(q, 0, at);
    RunsFirst(p, c.events);
  }

  lemma DiscardInOrder(p: Pool, at: nat)
    ensures InOrder(p, Discard(p, at))
  {
    hide InOrder, Compact;
    var q := p.(cleaners := []);
    var c := if q.blocks == [] then Result(q, [], 0) else Compact(q, 0, at);
    var gone := Clear(p, at).pool.blocks;
    assert (Runs(p.cleaners) + c.events) + Frees(gone) == Runs(p.cleaners) + (c.events + Frees(gone));
    RunsFirst(p, c.events + Frees(gone));
  }

  /** Every operation on a pool releases its blocks in order. */
  lemma ActInOrder(x: Slot, act: Act)
    requires x.There? && PoolOk(x.pool)
    ensures InOrder(x.pool, Acted(x, act).1)
  {
    hide InOrder, Create, Clear, Shrink, ShrinkTo, Compact;
    match act
    case CreateBuffer(align, size, env) => if SmallAlign(align) { CreateInOrder(x.pool, align, size, env); } else { NothingFreed(x.pool); }
    case CreateAlignedBuffer(align, size, env) =>
      if align > 0 { CreateInOrder(x.pool, 1, size + align, env); } else { NothingFreed(x.pool); }
    case ClearPool(at) => ClearInOrder(x.pool, at);
    case ShrinkPool => ShrinkInOrder(x.pool);
    case ShrinkPoolTo(min, at) => ShrinkToInOrder(x.pool, min, at);
    case Resize(_) => NothingFreed(x.pool);
    case DestroyPool => RunsFirst(x.pool, Frees(x.pool.blocks));
  }

  // ---------------------------------------------------------------------------------------------
  // Objects that live in a pool
  // ---------------------------------------------------------------------------------------------

  /** The object that `c` destroys lies in a live buffer of the pool that `c` is registered with. */
  ghost predicate Anchored(x: Slot, c: Cleaner) {
    x.There? && c in x.pool.cleaners && exists i :: 0 <= i < |x.live| && Inside(x.live[i], c.pointer)
  }

  lemma RanWithAll(cs: seq<Cleaner>, c: Cleaner, before: seq<Event>)
    requires c in cs && Runs(cs) <= before
    ensures Run(c) in before
  {
    RunsAreRuns(cs);
    var i :| 0 <= i < |cs| && cs[i] == c;
    assert before[i] == Runs(cs)[i];
  }

  lemma OneCover(p: Pool, i: nat, m: nat, address: nat)
    requires Allocated(p.blocks) && i < |p.blocks| && m < |p.blocks| && i != m
    ensures !(Covers(p.blocks[i], address) && Covers(p.blocks[m], address))
  {
    if i < m {
      assert Separate(p.blocks[i], p.blocks[m]);
    } else {
      assert Separate(p.blocks[m], p.blocks[i]);
    }
  }

  /** A block of a pool that covers a byte of a live buffer is in use. */
  lemma CoveringIsInUse(p: Pool, b: Buffer, block: Block, address: nat)
    requires PoolOk(p) && BufferOk(p, b) && Inside(b, address) && block in p.blocks && Covers(block, address)
    ensures InUse(p, block)
  {
    hide Allocated;
    var i: nat :| Placed(p, b, i);
    var m: nat :| m < |p.blocks| && p.blocks[m] == block;
    if m != i {
      OneCover(p, i, m, address);
    }
  }

  /** Within one operation on the pool itself, the destructor runs before the block goes. */
  lemma RunsBeforeOwnRelease(x: Slot, es: seq<Event>, c: Cleaner, j: nat)
    requires x.There? && Good(x.pool, x.live) && InOrder(x.pool, es) && Anchored(x, c)
    requires j < |es| && es[j].Free? && Covers(es[j].block, c.pointer)
    ensures Run(c) in es[..j]
  {
    var i :| 0 <= i < |x.live| && Inside(x.live[i], c.pointer);
    assert BufferOk(x.pool, x.live[i]);
    var b := es[j].block;
    assert MayRelease(x.pool, es[..j], b);
    if b in x.pool.blocks {
      CoveringIsInUse(x.pool, x.live[i], b, c.pointer);
    }
    RanWithAll(x.pool.cleaners, c, es[..j]);
  }

  /** An operation on another pool releases no block that covers the object. */
  lemma OthersReleaseElsewhere(slots: seq<Slot>, k: nat, l: nat, es: seq<Event>, j: nat, block: Block)
    requires k < |slots| && l < |slots| && k != l && Spread(AllBlocks(slots)) && NewsOk(AllBlocks(slots), es)
    requires FreesOk(SlotBlocks(slots[l]), es) && j < |es| && es[j].Free? && block in SlotBlocks(slots[k])
    ensures Separate(block, es[j].block)
  {
    hide AllBlocks, SlotBlocks, After, FreesOk, NewsOk, Spread;
    var mine, all := SlotBlocks(slots[l]), AllBlocks(slots);
    PrefixOk(mine, es, j);
    PrefixOk(all, es, j);
    if k < l {
      TwoWithin(slots, k, l);
    } else {
      TwoWithin(slots, l, k);
    }
    assert all == mine + (all - mine) && block in all - mine;
    AfterFrame(mine, all - mine, es[..j]);
    SpreadKept(all, es[..j]);
    InTwoParts(After(mine, es[..j]), all - mine, es[j].block, block);
  }

  lemma InTwoParts(a: multiset<Block>, b: multiset<Block>, x: Block, y: Block)
    requires Spread(a + b) && x in a && y in b
    ensures Separate(y, x)
  {
    assert x in a + b && y in a + b;
    assert (a + b)[x] == a[x] + b[x];
  }

  lemma {:induction false} PrefixOk(m: multiset<Block>, es: seq<Event>, j: nat)
    requires j < |es|
    ensures FreesOk(m, es) ==> FreesOk(m, es[..j]) && (es[j].Free? ==> es[j].block in After(m, es[..j]))
    ensures NewsOk(m, es) ==> NewsOk(m, es[..j])
    decreases |es|
  {
    var n := |es| - 1;
    if j < n {
      PrefixOk(m, es[..n], j);
      assert es[..n][..j] == es[..j];
    }
  }

  lemma CoveringBlock(p: Pool, b: Buffer, address: nat) returns (block: Block)
    requires PoolOk(p) && BufferOk(p, b) && Inside(b, address)
    ensures block in p.blocks && Covers(block, address)
  {
    var i: nat :| Placed(p, b, i);
    block := p.blocks[i];
  }

  /** The pool that an operation takes events from. */
  function Target(op: Op): nat {
    match op
    case On(k, _) => k
    case MoveAssign(k, _, _) => k
    case Register(k, _) => k
    case MoveConstruct(from) => from
    case Construct(_) => 0
  }

  /** The events of an operation come from one pool, account for its blocks, and release them in order. */
  lemma EventsOfTarget(s: System, op: Op)
    requires Inv(s) && Events(s, op) != []
    ensures Target(op) < |s.slots| && s.slots[Target(op)].There?
    ensures InOrder(s.slots[Target(op)].pool, Events(s, op)) && FreesOk(SlotBlocks(s.slots[Target(op)]), Events(s, op))
  {
    hide Ledger, Acted, Discard, InOrder, FreesOk, After, Pending;
    var k := Target(op);
    assert SlotGood(s.slots[k]);
    var p := s.slots[k].pool;
    match op
    case On(_, act) =>
      ActInOrder(s.slots[k], act);
      var y := Acted(s.slots[k], act).0;
      ActAccounts(s.slots[k], act, if y.There? then y.pool else MovedFrom(p));
    case MoveAssign(_, _, at) =>
      DiscardInOrder(p, at);
      DiscardAccounts(p, at);
    case _ =>
  }

  /**
   In any history, when an operation releases a block in which an object with a pending destructor lives,
   the operation has run that destructor before.
   */
  lemma DestructorBeforeRelease(ops: seq<Op>, op: Op, k: nat, c: Cleaner, j: nat)
    requires ValidRun(ops) && NewsOk(AllBlocks(Exec(ops).slots), Events(Exec(ops), op))
    requires k < |Exec(ops).slots| && Anchored(Exec(ops).slots[k], c)
    requires var es := Events(Exec(ops), op); j < |es| && es[j].Free? && Covers(es[j].block, c.pointer)
    ensures Run(c) in Events(Exec(ops), op)[..j]
  {
    ReachableInv(ops);
    BeforeRelease(Exec(ops), op, k, c, j);
  }

  lemma BeforeRelease(s: System, op: Op, k: nat, c: Cleaner, j: nat)
    requires Inv(s) && NewsOk(AllBlocks(s.slots), Events(s, op)) && k < |s.slots| && Anchored(s.slots[k], c)
    requires var es := Events(s, op); j < |es| && es[j].Free? && Covers(es[j].block, c.pointer)
    ensures Run(c) in Events(s, op)[..j]
  {
    hide NewsOk, FreesOk, InOrder, Events, Spread, After;
    var es, l := Events(s, op), Target(op);
    EventsOfTarget(s, op);
    var x := s.slots[k];
    assert SlotGood(x);
    if l == k {
      RunsBeforeOwnRelease(x, es, c, j);
    } else {
      var i :| 0 <= i < |x.live| && Inside(x.live[i], c.pointer);
      assert BufferOk(x.pool, x.live[i]);
      var block := CoveringBlock(x.pool, x.live[i], c.pointer);
      OthersReleaseElsewhere(s.slots, k, l, es, j, block);
    }
  }

  // ---------------------------------------------------------------------------------------------
  // Objects stay in live buffers until their destructor runs
  // ---------------------------------------------------------------------------------------------

  ghost predicate AnchoredIn(s: System, c: Cleaner) {
    exists k :: 0 <= k < |s.slots| && Anchored(s.slots[k], c)
  }

  lemma LogGrows(s: System, op: Op)
    ensures Apply(s, op).log == s.log + Events(s, op)
  {
    hide Acted, Discard, Transfer;
  }

  /** Cleaners and live buffers that are all still there keep an object where it was. */
  lemma KeepsAnchor(x: Slot, y: Slot, c: Cleaner)
    requires Anchored(x, c) && y.There? && y.pool.cleaners == x.pool.cleaners && x.live <= y.live
    ensures Anchored(y, c)
  {
    var i :| 0 <= i < |x.live| && Inside(x.live[i], c.pointer);
    assert y.live[i] == x.live[i];
  }

  lemma CreateKeepsCleaners(p: Pool, align: nat, size: nat, e: Env)
    requires align > 0 && (p.blocks != [] ==> p.cur < |p.blocks|)
    ensures Create(p, align, size, e).pool.cleaners == p.cleaners
  {
    hide Absorbed, BlockSizeFor, Frees;
  }

  lemma RunsPrefix(p: Pool, es: seq<Event>, c: Cleaner)
    requires c in p.cleaners && Runs(p.cleaners) <= es
    ensures Run(c) in es
  {
    RanWithAll(p.cleaners, c, es);
  }

  /** A cleaner, with the buffer of its object, comes through an operation on its pool, or is run. */
  lemma ActKeepsAnchor(x: Slot, act: Act, c: Cleaner)
    requires x.There? && (x.pool.blocks != [] ==> x.pool.cur < |x.pool.blocks|) && Anchored(x, c)
    ensures Anchored(Acted(x, act).0, c) || Run(c) in Acted(x, act).1
  {
    hide Anchored, Create, Compact, Frees, Runs, Kept;
    var y := Acted(x, act).0;
    assert c in x.pool.cleaners by { AnchoredHasCleaner(x, c); }
    match act
    case CreateBuffer(align, size, env) =>
      if SmallAlign(align) {
        CreateKeepsCleaners(x.pool, align, size, env);
        KeepsAnchor(x, y, c);
      }
    case CreateAlignedBuffer(align, size, env) =>
      if align > 0 {
        CreateKeepsCleaners(x.pool, 1, size + align, env);
        KeepsAnchor(x, y, c);
      }
    case ClearPool(at) => RunsPrefix(x.pool, Acted(x, act).1, c);
    case ShrinkPool => KeepsAnchor(x, y, c);
    case ShrinkPoolTo(min, at) =>
      if min == 0 && x.pool.blocks != [] {
        RunsPrefix(x.pool, Acted(x, act).1, c);
      } else {
        KeepsAnchor(x, y, c);
      }
    case Resize(_) => KeepsAnchor(x, y, c);
    case DestroyPool => RunsPrefix(x.pool, Acted(x, act).1, c);
  }

  lemma AnchoredHasCleaner(x: Slot, c: Cleaner)
    requires Anchored(x, c)
    ensures x.There? && c in x.pool.cleaners
  {
  }

  lemma AnchorAt(s: System, k: nat, c: Cleaner)
    requires k < |s.slots| && Anchored(s.slots[k], c)
    ensures AnchoredIn(s, c)
  {
  }

  lemma MoveKeepsAnchor(s: System, slots: seq<Slot>, k: nat, to: nat, from: nat, c: Cleaner)
    requires k < |slots| && Anchored(slots[k], c) && to < |slots| && from < |slots| && slots[from].There?
    requires s.slots == Transfer(slots, to, from) && (to == k ==> from == k)
    ensures AnchoredIn(s, c)
  {
    hide Anchored;
    if k == from && to != from {
      assert s.slots[to] == slots[k];
      AnchorAt(s, to, c);
    } else {
      assert s.slots[k] == slots[k];
      AnchorAt(s, k, c);
    }
  }

  lemma RegisterKeepsAnchor(s: System, k: nat, l: nat, pointer: nat, c: Cleaner)
    requires k < |s.slots| && Anchored(s.slots[k], c)
    ensures AnchoredIn(Apply(s, Register(l, pointer)), c)
  {
    var t := Apply(s, Register(l, pointer));
    var i :| 0 <= i < |s.slots[k].live| && Inside(s.slots[k].live[i], c.pointer);
    assert t.slots[k].live[i] == s.slots[k].live[i];
    AnchorAt(t, k, c);
  }

  /** One operation, wherever the pool that holds the object goes. */
  lemma AnchorStep(s: System, op: Op, c: Cleaner)
    requires AnchoredIn(s, c)
    ensures AnchoredIn(Apply(s, op), c) || Run(c) in Events(s, op)
  {
    hide Anchored, Acted, Discard, Transfer;
    var k: nat :| k < |s.slots| && Anchored(s.slots[k], c);
    var t := Apply(s, op);
    match op
    case Construct(_) =>
      assert t.slots[k] == s.slots[k];
      AnchorAt(t, k, c);
    case On(l, act) =>
      if !Has(s, l) || l != k {
        assert t.slots[k] == s.slots[k];
        AnchorAt(t, k, c);
      } else {
        ActKeepsAnchor(s.slots[k], act, c);
        if Anchored(t.slots[k], c) {
          AnchorAt(t, k, c);
        }
      }
    case Register(l, pointer) => RegisterKeepsAnchor(s, k, l, pointer, c);
    case MoveConstruct(from) =>
      if Has(s, from) {
        MoveKeepsAnchor(t, s.slots + [There(MovedFrom(s.slots[from].pool), [])], k, |s.slots|, from, c);
      }
    case MoveAssign(l, from, at) =>
      if Has(s, l) && Has(s, from) {
        if l == k {
          AnchoredHasCleaner(s.slots[k], c);
          DiscardRuns(s.slots[k].pool, at, c);
        } else {
          MoveKeepsAnchor(t, s.slots[l := There(MovedFrom(s.slots[l].pool), [])], k, l, from, c);
        }
      }
  }

  lemma DiscardRuns(p: Pool, at: nat, c: Cleaner)
    requires c in p.cleaners
    ensures Run(c) in Discard(p, at)
  {
    hide Runs, Compact, Frees;
    RunsPrefix(p, Discard(p, at), c);
  }

  /** Over any history from the registration on: the object is in a live buffer, or its destructor has run. */
  lemma {:induction false} AnchoredUntilRun(ops: seq<Op>, n: nat, c: Cleaner)
    requires n <= |ops| && AnchoredIn(Exec(ops[..n]), c)
    ensures AnchoredIn(Exec(ops), c) || Run(c) in Exec(ops).log
    decreases |ops|
  {
    hide AnchoredIn, Apply;
    var k := |ops| - 1;
    if n == |ops| {
      assert ops[..n] == ops;
    } else {
      assert ops[..k][..n] == ops[..n];
      AnchoredUntilRun(ops[..k], n, c);
      var s := Exec(ops[..k]);
      LogGrows(s, ops[k]);
      if AnchoredIn(s, c) {
        AnchorStep(s, ops[k], c);
      }
    }
  }

  /** Registering a destructor for an object inside a live buffer, as `create_object` does. */
  lemma RegisterAnchors(s: System, k: nat, i: nat, pointer: nat)
    requires Has(s, k) && i < |s.slots[k].live| && Inside(s.slots[k].live[i], pointer)
    ensures AnchoredIn(Apply(s, Register(k, pointer)), Cleaner(s.nextId, pointer))
  {
    var t := Apply(s, Register(k, pointer));
    assert t.slots[k].pool.cleaners[|s.slots[k].pool.cleaners|] == Cleaner(s.nextId, pointer);
    assert Inside(t.slots[k].live[i], pointer);
    AnchorAt(t, k, Cleaner(s.nextId, pointer));
  }

  /** From when an object is in a live buffer on, every release of a block that covers it comes after its destructor. */
  lemma {:induction false} ReleasedAfterRun(ops: seq<Op>, n: nat, c: Cleaner, j: nat)
    requires ValidRun(ops) && n <= |ops| && AnchoredIn(Exec(ops[..n]), c)
    requires var log := Exec(ops).log; |Exec(ops[..n]).log| <= j < |log| && log[j].Free? && Covers(log[j].block, c.pointer)
    ensures Run(c) in Exec(ops).log[..j]
    decreases |ops|
  {
    hide AnchoredIn, Apply, Events, NewsOk, Covers, Inv;
    assert ops[..|ops|] == ops;
    var k := |ops| - 1;
    var s, es := Exec(ops[..k]), Events(Exec(ops[..k]), ops[k]);
    LogGrows(s, ops[k]);
    assert ops[..k][..n] == ops[..n];
    var log := Exec(ops).log;
    if j < |s.log| {
      assert s.log[j] == log[j] && s.log[..j] == log[..j];
      ReleasedAfterRun(ops[..k], n, c, j);
    } else {
      AnchoredUntilRun(ops[..k], n, c);
      var i := j - |s.log|;
      assert log[j] == es[i];
      PrefixIn(s.log, es, i, Run(c));
      if AnchoredIn(s, c) {
        ReachableInv(ops[..k]);
        ReleaseIn(s, ops[k], c, i);
      }
    }
  }

  lemma PrefixIn(a: seq<Event>, b: seq<Event>, i: nat, e: Event)
    requires i <= |b|
    ensures e in a || e in b[..i] ==> e in (a + b)[..|a| + i]
  {
    assert (a + b)[..|a| + i] == a + b[..i];
  }

  lemma ReleaseIn(s: System, op: Op, c: Cleaner, j: nat)
    requires Inv(s) && NewsOk(AllBlocks(s.slots), Events(s, op)) && AnchoredIn(s, c)
    requires var es := Events(s, op); j < |es| && es[j].Free? && Covers(es[j].block, c.pointer)
    ensures Run(c) in Events(s, op)[..j]
  {
    hide Inv, NewsOk, Events, Anchored, Covers;
    var k: nat :| k < |s.slots| && Anchored(s.slots[k], c);
    BeforeRelease(s, op, k, c, j);
  }

  /**
   In any history, a destructor registered for an object inside a live buffer runs before any later release of a
   block that covers the object, whatever pools the block has been moved through.
   */
  lemma DestructorBeforeLaterRelease(ops: seq<Op>, n: nat, k: nat, i: nat, pointer: nat, j: nat)
    requires ValidRun(ops) && n < |ops| && ops[n] == Register(k, pointer)
    requires var s := Exec(ops[..n]); Has(s, k) && i < |s.slots[k].live| && Inside(s.slots[k].live[i], pointer)
    requires var log := Exec(ops).log; |Exec(ops[..n]).log| <= j < |log| && log[j].Free? && Covers(log[j].block, pointer)
    ensures Run(Cleaner(Exec(ops[..n]).nextId, pointer)) in Exec(ops).log[..j]
  {
    hide AnchoredIn, ValidRun, Covers, Inside;
    var s := Exec(ops[..n]);
    RegisterAnchors(s, k, i, pointer);
    assert ops[..n + 1][..n] == ops[..n];
    LogGrows(s, ops[n]);
    ReleasedAfterRun(ops, n + 1, Cleaner(s.nextId, pointer), j);
  }
}
