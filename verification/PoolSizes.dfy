/**
 Block sizes over whole histories in which `set_block_size` is not called after construction and the float
 multiplication never answers less than its argument.
 */
module PoolSizes {
  import opened Arith
  import opened BlockSize
  import opened PoolRuns
  import opened PoolSafety
  import opened PoolSpec

  predicate Plain(act: Act) {
    match act
    case Resize(_) => false
    case CreateBuffer(_, size, env) => env.grown >= size
    case CreateAlignedBuffer(align, size, env) => env.grown >= size + align
    case _ => true
  }

  ghost predicate PlainRun(ops: seq<Op>) {
    forall i :: 0 <= i < |ops| && ops[i].On? ==> Plain(ops[i].act)
  }

  /** An operation on a tidy pool keeps it tidy and its block size from decreasing. */
  lemma ActIsTidy(x: Slot, act: Act)
    requires x.There? && Good(x.pool, x.live) && Tidy(x.pool) && Plain(act)
    ensures var y := Acted(x, act).0; y.There? ==> Tidy(y.pool) && y.pool.blockSize >= x.pool.blockSize
  {
    hide Create, Clear, Compact, Kept, CapacityOf, BlockSizeFor;
    var p := x.pool;
    match act
    case CreateBuffer(align, size, env) => if SmallAlign(align) { CreateIsTidy(p, align, size, env); }
    case CreateAlignedBuffer(align, size, env) => if align > 0 { CreateIsTidy(p, 1, size + align, env); }
    case ClearPool(at) => ClearIsTidy(p, at);
    case ShrinkPool =>
    case ShrinkPoolTo(min, at) => if min == 0 { ClearIsTidy(p, at); }
    case DestroyPool =>
  }

  ghost predicate AllTidy(s: System) {
    forall k :: 0 <= k < |s.slots| && s.slots[k].There? ==> Tidy(s.slots[k].pool)
  }

  lemma OpIsTidy(s: System, op: Op)
    requires Inv(s) && AllTidy(s) && (op.On? ==> Plain(op.act))
    ensures AllTidy(Apply(s, op))
  {
    hide Good, Ledger, Acted, Plain;
    match op
    case On(k, act) =>
      if Has(s, k) {
        assert SlotGood(s.slots[k]);
        ActIsTidy(s.slots[k], act);
      }
    case _ =>
  }

  lemma {:induction false} RunIsTidy(ops: seq<Op>)
    requires ValidRun(ops) && PlainRun(ops)
    ensures AllTidy(Exec(ops))
  {
    hide AllTidy, Plain, Apply;
    var k := |ops| - 1;
    if ops == [] {
      NoneTidy();
    } else {
      RunIsTidy(ops[..k]);
      ReachableInv(ops[..k]);
      OpIsTidy(Exec(ops[..k]), ops[k]);
    }
  }

  lemma NoneTidy()
    ensures AllTidy(System([], [], 0))
  {
  }

  /** `_pos` never passes the capacity of the current block, and `size()` never passes `capacity()`. */
  lemma SizeWithinCapacity(ops: seq<Op>, k: nat)
    requires ValidRun(ops) && PlainRun(ops) && k < |Exec(ops).slots| && Exec(ops).slots[k].There?
    ensures var p := Exec(ops).slots[k].pool;
            p.cur <= |p.blocks| && Size(p) <= Capacity(p) && (p.blocks != [] ==> p.cur < |p.blocks| && p.pos <= p.blocks[p.cur].cap)
  {
    hide Tidy, Size, Capacity;
    RunIsTidy(ops);
    ReachableInv(ops);
    SlotIsGood(Exec(ops), k);
    TidyBounds(Exec(ops).slots[k].pool);
  }

  /** No operation in `ops` assigns to pool `k`. */
  ghost predicate NotAssigned(ops: seq<Op>, k: nat) {
    forall i :: 0 <= i < |ops| ==> !(ops[i].MoveAssign? && ops[i].k == k)
  }

  lemma BlockSizeStep(s: System, op: Op, k: nat)
    requires Inv(s) && AllTidy(s) && (op.On? ==> Plain(op.act)) && !(op.MoveAssign? && op.k == k)
    requires k < |s.slots|
    ensures var t := Apply(s, op); k < |t.slots| && (t.slots[k].There? ==> s.slots[k].There? && t.slots[k].pool.blockSize >= s.slots[k].pool.blockSize)
  {
    hide Good, Ledger, Acted, Plain, Tidy;
    match op
    case On(l, act) =>
      if Has(s, l) && l == k {
        assert SlotGood(s.slots[k]);
        ActIsTidy(s.slots[k], act);
      }
    case _ =>
  }

  /** The block size of a pool never decreases, unless another pool is moved into it. */
  lemma {:induction false} BlockSizeNeverDecreases(ops: seq<Op>, n: nat, k: nat)
    requires ValidRun(ops) && PlainRun(ops) && n <= |ops| && NotAssigned(ops[n..], k) && k < |Exec(ops[..n]).slots|
    ensures k < |Exec(ops).slots|
    ensures Exec(ops).slots[k].There? ==> Exec(ops[..n]).slots[k].There?
    ensures Exec(ops).slots[k].There? ==> Exec(ops).slots[k].pool.blockSize >= Exec(ops[..n]).slots[k].pool.blockSize
    decreases |ops|
  {
    hide AllTidy, Plain, Apply;
    var m := |ops| - 1;
    if n == |ops| {
      assert ops[..n] == ops;
    } else {
      assert ops[..m][..n] == ops[..n] && ops[..m][n..] == ops[n..][..m - n];
      BlockSizeNeverDecreases(ops[..m], n, k);
      RunIsTidy(ops[..m]);
      ReachableInv(ops[..m]);
      assert ops[m] == ops[n..][m - n];
      BlockSizeStep(Exec(ops[..m]), ops[m], k);
    }
  }

  /** The bytes that a request asks of the pool; the aligned form asks for room to align. */
  function Asked(act: Act): nat {
    match act
    case CreateBuffer(_, size, _) => size
    case CreateAlignedBuffer(align, size, _) => size + align
    case _ => 0
  }

  /** The request, of either form, was larger than the block size and got a block of its own. */
  ghost predicate Oversized(s: System, op: Op, k: nat, size: nat) {
    && op.On? && op.k == k && Has(s, k) && size == Asked(op.act)
    && match op.act
       case CreateBuffer(align, _, env) => SmallAlign(align) && BranchOf(s.slots[k].pool, align, size, env).Own?
       case CreateAlignedBuffer(align, _, env) => align > 0 && BranchOf(s.slots[k].pool, 1, size, env).Own?
       case _ => false
  }

  lemma OversizedGrows(s: System, op: Op, k: nat, size: nat)
    requires Inv(s) && AllTidy(s) && Oversized(s, op, k, size) && (op.On? ==> Plain(op.act))
    ensures var t := Apply(s, op); k < |t.slots| && t.slots[k].There? && t.slots[k].pool.blockSize >= size
  {
    hide Create, Tidy;
    assert SlotGood(s.slots[k]);
    CreateIsTidy(s.slots[k].pool, if op.act.CreateBuffer? then op.act.align else 1, size, op.act.env);
  }

  lemma RunGrows(ops: seq<Op>, n: nat, k: nat, size: nat)
    requires ValidRun(ops) && PlainRun(ops) && n < |ops| && Oversized(Exec(ops[..n]), ops[n], k, size)
    ensures var t := Exec(ops[..n + 1]); k < |t.slots| && t.slots[k].There? && t.slots[k].pool.blockSize >= size
  {
    hide AllTidy, Plain, Oversized, Apply, Inv, ValidRun;
    PrefixRun(ops, n);
    RunIsTidy(ops[..n]);
    ReachableInv(ops[..n]);
    OversizedGrows(Exec(ops[..n]), ops[n], k, size);
    assert ops[..n + 1][..n] == ops[..n];
  }

  /** After an oversized request, no request of at most that size gets a block of its own again. */
  lemma OversizedOnce(ops: seq<Op>, n: nat, k: nat, size: nat, align: nat, next: nat, e: Env)
    requires ValidRun(ops) && PlainRun(ops) && n < |ops| && Oversized(Exec(ops[..n]), ops[n], k, size) && NotAssigned(ops[n + 1..], k)
    requires SmallAlign(align) && next <= size
    ensures k < |Exec(ops).slots| && (Has(Exec(ops), k) ==> !BranchOf(Exec(ops).slots[k].pool, align, next, e).Own?)
  {
    hide Oversized, Exec, ValidRun, PlainRun, NotAssigned, BranchOf, Good, Inv;
    RunGrows(ops, n, k, size);
    BlockSizeNeverDecreases(ops, n + 1, k);
    ReachableInv(ops);
    if Has(Exec(ops), k) {
      SlotIsGood(Exec(ops), k);
      GoodIsOk(Exec(ops).slots[k]);
      SmallRequestsShareBlocks(Exec(ops).slots[k].pool, align, next, e);
    }
  }

  lemma GoodIsOk(x: Slot)
    requires SlotGood(x) && x.There?
    ensures PoolOk(x.pool)
  {
  }

  lemma {:induction false} PrefixRun(ops: seq<Op>, n: nat)
    requires ValidRun(ops) && PlainRun(ops) && n <= |ops|
    ensures ValidRun(ops[..n]) && PlainRun(ops[..n])
    decreases |ops|
  {
    var m := |ops| - 1;
    if n == |ops| {
      assert ops[..n] == ops;
    } else {
      PrefixRun(ops[..m], n);
      assert ops[..m][..n] == ops[..n];
    }
  }

  // ---------------------------------------------------------------------------------------------
  // With `set_block_size`
  // ---------------------------------------------------------------------------------------------

  /** The aligned position and the blocks before the current one take more than all blocks hold. */
  predicate Past(p: Pool, align: nat)
    requires align > 0 && (p.blocks != [] ==> p.cur < |p.blocks|)
  {
    p.blocks != [] && AlignUp(p.pos, align) + CapacityOf(p.blocks, p.cur) > Capacity(p)
  }

  /** What a caller can look at before a call to know that `size()` will exceed `capacity()` after it. */
  predicate Overshoots(p: Pool, act: Act)
    requires p.blocks != [] ==> p.cur < |p.blocks|
  {
    match act
    case CreateBuffer(align, size, env) =>
      if SmallAlign(align) then BranchOf(p, align, size, env).Own? && Past(p, align) else Past(p, 1)
    case CreateAlignedBuffer(align, size, env) =>
      if align > 0 then BranchOf(p, 1, size + align, env).Own? && Past(p, 1) else Past(p, 1)
    case ShrinkPool => p.blocks != [] && p.pos > p.blocks[p.cur].cap
    case ShrinkPoolTo(min, _) =>
      min > 0 && p.blocks != [] && p.pos + CapacityOf(p.blocks, p.cur) > CapacityOf(p.blocks, Kept(p.blocks, p.cur + 1, min))
    case Resize(_) => Past(p, 1)
    case _ => false
  }

  predicate Within(p: Pool)
    requires p.cur <= |p.blocks|
  {
    Size(p) <= Capacity(p)
  }

  lemma SnugIsWithin(p: Pool)
    requires p.cur < |p.blocks| && p.pos <= p.blocks[p.cur].cap
    ensures Within(p)
  {
    CapacityMonotone(p.blocks, p.cur + 1, |p.blocks|);
  }

  lemma OneIsNone(n: nat)
    ensures AlignUp(n, 1) == n
  {
  }

  /** A request with a block of its own is the one that can leave the position past the capacity. */
  lemma CreateWithin(p: Pool, align: nat, size: nat, e: Env)
    requires PoolOk(p) && SmallAlign(align)
    ensures var q := Create(p, align, size, e).pool;
            q.cur <= |q.blocks| && (Within(q) <==> !(BranchOf(p, align, size, e).Own? && Past(p, align)))
  {
    hide Create, AlignUp;
    var q := Create(p, align, size, e).pool;
    CreateHasShape(p, align, size, e);
    if BranchOf(p, align, size, e).Own? {
      OwnWithin(p, align, size, e);
    } else {
      SnugIsWithin(q);
    }
  }

  lemma OwnWithin(p: Pool, align: nat, size: nat, e: Env)
    requires PoolOk(p) && SmallAlign(align) && BranchOf(p, align, size, e).Own?
    ensures var q := Create(p, align, size, e).pool; q.cur <= |q.blocks| && (Within(q) <==> !Past(p, align))
  {
    hide NextBlock, BlockSizeFor, AlignUp, CapacityOf;
    var w, own := WithBlock(p, e.first), Block(e.second, size);
    CapacityShifted(own, w.blocks, w.cur);
    CapacityShifted(own, w.blocks, |w.blocks|);
    if p.blocks == [] {
      AlignedPos(0, align, 0);
      NoBlocks(w.blocks);
      NoBlocks(p.blocks);
    }
  }

  lemma NoBlocks(blocks: seq<Block>)
    ensures CapacityOf(blocks, 0) == 0
  {
  }

  lemma ShrinkWithin(p: Pool)
    requires PoolOk(p)
    ensures var q := Shrink(p).pool; q.cur <= |q.blocks| && (Within(q) <==> !Overshoots(p, ShrinkPool))
  {
    if p.blocks != [] && !(p.cur == 0 && p.pos == 0) {
      CapacityOfPrefix(p.blocks, p.cur + 1, p.cur);
      CapacityOfPrefix(p.blocks, p.cur + 1, p.cur + 1);
    }
  }

  lemma ShrinkToWithin(p: Pool, min: nat, at: nat)
    requires PoolOk(p) && min > 0
    ensures var q := ShrinkTo(p, min, at).pool; q.cur <= |q.blocks| && (Within(q) <==> !Overshoots(p, ShrinkPoolTo(min, at)))
  {
    if p.blocks != [] {
      var k := Kept(p.blocks, p.cur + 1, min);
      CapacityOfPrefix(p.blocks, k, p.cur);
      CapacityOfPrefix(p.blocks, k, k);
    }
  }

  /** Giving room back only lowers the position, and only where it was within the block. */
  lemma AlignedWithin(p: Pool, align: nat, size: nat, e: Env)
    requires PoolOk(p) && align > 0 && Allocated(CreateAligned(p, align, size, e).pool.blocks)
    ensures var q := CreateAligned(p, align, size, e).pool;
            q.cur <= |q.blocks| && (Within(q) <==> !(BranchOf(p, 1, size + align, e).Own? && Past(p, 1)))
  {
    hide Create, AlignUp, Capacity, Past, BranchOf;
    var r := Create(p, 1, size + align, e).pool;
    var q := CreateAligned(p, align, size, e).pool;
    assert q.blocks == r.blocks && q.cur == r.cur;
    CreateWithin(p, 1, size + align, e);
    GiveBackTest(p, size + align, e);
    CreateHasShape(p, 1, size + align, e);
    if !BranchOf(p, 1, size + align, e).Own? {
      SnugIsWithin(q);
    }
  }

  lemma ClearedWithin(p: Pool, at: nat)
    ensures var q := Clear(p, at).pool; q.cur == 0 && q.pos == 0 && Within(q)
  {
    hide Compact;
    assert CapacityOf(Clear(p, at).pool.blocks, 0) == 0;
  }

  lemma DroppedWithin(p: Pool, at: nat)
    requires PoolOk(p)
    ensures var q := ShrinkTo(p, 0, at).pool; q.cur <= |q.blocks| && Within(q)
  {
    hide Compact;
    assert CapacityOf([], 0) == 0;
  }

  /** After any operation on any well-formed pool, `size() <= capacity()` holds exactly if the call does not overshoot. */
  lemma WithinExactly(x: Slot, act: Act)
    requires x.There? && Good(x.pool, x.live)
    requires var y := Acted(x, act).0; y.There? ==> Allocated(y.pool.blocks)
    ensures var y := Acted(x, act).0;
            y.There? ==> y.pool.cur <= |y.pool.blocks| && (Within(y.pool) <==> !Overshoots(x.pool, act))
  {
    hide Create, Clear, Shrink, AlignUp, CapacityOf, BranchOf, Allocated, Kept;
    var p := x.pool;
    OneIsNone(p.pos);
    match act
    case CreateBuffer(align, size, env) => if SmallAlign(align) { CreateWithin(p, align, size, env); }
    case CreateAlignedBuffer(align, size, env) => if align > 0 { AlignedWithin(p, align, size, env); }
    case ClearPool(at) => ClearedWithin(p, at);
    case ShrinkPool => ShrinkWithin(p);
    case ShrinkPoolTo(min, at) => if min > 0 { ShrinkToWithin(p, min, at); } else { DroppedWithin(p, at); }
    case Resize(_) =>
    case DestroyPool =>
  }

  /** The same at the end of any history, whatever `set_block_size` calls it holds. */
  lemma SizeWithinExactly(ops: seq<Op>, k: nat, act: Act)
    requires ValidRun(ops + [On(k, act)]) && Has(Exec(ops), k)
    ensures var x, y := Exec(ops).slots[k], Exec(ops + [On(k, act)]).slots[k];
            y.There? ==> y.pool.cur <= |y.pool.blocks| && (Within(y.pool) <==> !Overshoots(x.pool, act))
  {
    hide Exec, ValidRun, Acted, Overshoots, Within, Inv;
    var all := ops + [On(k, act)];
    assert all[..|all| - 1] == ops;
    LastStep(all);
    ReachableInv(ops);
    ReachableInv(all);
    SlotIsGood(Exec(ops), k);
    SlotIsGood(Exec(all), k);
    WithinStep(Exec(ops), k, act);
  }

  lemma LastStep(ops: seq<Op>)
    requires ops != [] && ValidRun(ops)
    ensures ValidRun(ops[..|ops| - 1]) && Exec(ops) == Apply(Exec(ops[..|ops| - 1]), ops[|ops| - 1])
  {
  }

  lemma WithinStep(s: System, k: nat, act: Act)
    requires Has(s, k) && SlotGood(s.slots[k]) && SlotGood(Apply(s, On(k, act)).slots[k])
    ensures var x, y := s.slots[k], Apply(s, On(k, act)).slots[k];
            y.There? ==> y.pool.cur <= |y.pool.blocks| && (Within(y.pool) <==> !Overshoots(x.pool, act))
  {
    hide Acted, Overshoots, Within;
    WithinExactly(s.slots[k], act);
  }

  // ---------------------------------------------------------------------------------------------
  // A history in which `size()` exceeds `capacity()`
  // ---------------------------------------------------------------------------------------------

  const TINY: Block := Block(32, 0)
  const LARGE: Block := Block(1024, 100)
  const EXTRA: Block := Block(2048, 8)

  /** A pool of tiny blocks gets a large one, is set back to tiny blocks, cleared, and filled again. */
  function Overflowing(): seq<Op> {
    [Construct(16), On(0, CreateBuffer(1, 100, Env(32, 1024, 100))), On(0, Resize(16)), On(0, ClearPool(0)),
     On(0, CreateBuffer(1, 97, Env(0, 0, 0))), On(0, CreateBuffer(8, 8, Env(0, 2048, 8)))]
  }

  lemma TinyBlocks()
    ensures BlockSizeFor(0) == 0
  {
    assert PowUp(16, 16) == 16;
    assert PowUp(4, 16) == PowUp(16, 16);
    assert PowUp(1, 16) == PowUp(4, 16);
  }

  function PoolAfter(n: nat): Slot {
    var first := Buffer(1024, 100, 1);
    if n == 1 then There(Pool(0, 0, [], 0, []), [])
    else if n == 2 then There(Pool(BlockSizeFor(100), 0, [LARGE, TINY], 1, []), [first])
    else if n == 3 then There(Pool(0, 0, [LARGE, TINY], 1, []), [first])
    else if n == 4 then There(Pool(0, 0, [LARGE, TINY], 0, []), [])
    else if n == 5 then There(Pool(0, 97, [LARGE, TINY], 0, []), [Buffer(1024, 97, 1)])
    else There(Pool(BlockSizeFor(8), 104, [EXTRA, LARGE, TINY], 1, []), [Buffer(1024, 97, 1), Buffer(2048, 8, 8)])
  }

  lemma FirstSteps()
    ensures Apply(System([], [], 0), Construct(16)) == System([PoolAfter(1)], [], 0)
    ensures Acted(PoolAfter(1), CreateBuffer(1, 100, Env(32, 1024, 100))) == (PoolAfter(2), [New(TINY), New(LARGE)])
  {
    hide BlockSizeFor;
    TinyBlocks();
    OneIsNone(0);
    assert [LARGE] + [TINY] == [LARGE, TINY] && [New(TINY)] + [New(LARGE)] == [New(TINY), New(LARGE)];
    assert [] + [Buffer(1024, 100, 1)] == [Buffer(1024, 100, 1)];
  }

  lemma MiddleSteps()
    ensures Acted(PoolAfter(2), Resize(16)) == (PoolAfter(3), [])
    ensures Acted(PoolAfter(3), ClearPool(0)) == (PoolAfter(4), [])
    ensures Acted(PoolAfter(4), CreateBuffer(1, 97, Env(0, 0, 0))) == (PoolAfter(5), [])
  {
    hide BlockSizeFor;
    TinyBlocks();
    OneIsNone(0);
    assert Runs([]) + [] == [];
    assert [] + [Buffer(1024, 97, 1)] == [Buffer(1024, 97, 1)];
  }

  lemma FinalStep()
    ensures Acted(PoolAfter(5), CreateBuffer(8, 8, Env(0, 2048, 8))) == (PoolAfter(6), [New(EXTRA)])
  {
    hide BlockSizeFor;
    assert AlignUp(97, 8) == 104;
    assert [EXTRA] + [LARGE, TINY] == [EXTRA, LARGE, TINY] && [] + [New(EXTRA)] == [New(EXTRA)];
    assert [Buffer(1024, 97, 1)] + [Buffer(2048, 8, 8)] == [Buffer(1024, 97, 1), Buffer(2048, 8, 8)];
  }

  lemma RunStep(ops: seq<Op>, op: Op, s: System)
    requires ValidRun(ops) && Exec(ops) == s && NewsOk(AllBlocks(s.slots), Events(s, op))
    ensures ValidRun(ops + [op]) && Exec(ops + [op]) == Apply(s, op)
  {
    hide NewsOk, Events, Apply;
    assert (ops + [op])[..|ops|] == ops;
  }

  /** One act on the only pool. */
  lemma ActStep(ops: seq<Op>, act: Act, log: seq<Event>, x: Slot, y: Slot, es: seq<Event>)
    requires ValidRun(ops) && Exec(ops) == System([x], log, 0) && x.There? && (x.pool.blocks != [] ==> x.pool.cur < |x.pool.blocks|)
    requires Acted(x, act) == (y, es) && NewsOk(multiset(x.pool.blocks), es)
    ensures ValidRun(ops + [On(0, act)]) && Exec(ops + [On(0, act)]) == System([y], log + es, 0)
  {
    hide NewsOk, Acted, Exec, ValidRun;
    var s := System([x], log, 0);
    assert AllBlocks(s.slots) == multiset(x.pool.blocks) by { OnlyBlocks(x); }
    RunStep(ops, On(0, act), s);
  }

  lemma OnlyBlocks(x: Slot)
    requires x.There?
    ensures AllBlocks([x]) == multiset(x.pool.blocks)
  {
    assert [x][..0] == [];
  }

  lemma NewsAreOk()
    ensures NewsOk(multiset([]), [New(TINY), New(LARGE)]) && NewsOk(multiset([LARGE, TINY]), [New(EXTRA)])
  {
    var es := [New(TINY), New(LARGE)];
    assert es[..1] == [New(TINY)] && [New(TINY)][..0] == [] && [New(EXTRA)][..0] == [];
    assert After(multiset{}, [New(TINY)]) == multiset{TINY};
  }

  lemma HalfWay()
    ensures ValidRun(Overflowing()[..3]) && Exec(Overflowing()[..3]) == System([PoolAfter(3)], [New(TINY), New(LARGE)], 0)
  {
    hide PoolAfter, Acted, NewsOk;
    var all := Overflowing();
    FirstSteps();
    MiddleSteps();
    NewsAreOk();
    NoNews(multiset([LARGE, TINY]));
    PoolsThere();
    assert all[..1] == [] + [Construct(16)] && all[..2] == all[..1] + [all[1]] && all[..3] == all[..2] + [all[2]];
    NoNews(multiset{});
    RunStep([], Construct(16), System([], [], 0));
    ActStep(all[..1], all[1].act, [], PoolAfter(1), PoolAfter(2), [New(TINY), New(LARGE)]);
    assert [] + [New(TINY), New(LARGE)] == [New(TINY), New(LARGE)];
    ActStep(all[..2], all[2].act, [New(TINY), New(LARGE)], PoolAfter(2), PoolAfter(3), []);
  }

  lemma NoNews(m: multiset<Block>)
    ensures NewsOk(m, [])
  {
  }

  lemma PoolsThere()
    ensures PoolAfter(1).There? && PoolAfter(1).pool.blocks == []
    ensures forall n :: 2 <= n <= 5 ==> PoolAfter(n).There? && PoolAfter(n).pool.blocks == [LARGE, TINY] && PoolAfter(n).pool.cur <= 1
  {
  }

  /** A history that ends with 112 bytes in use and a capacity of 108. */
  lemma OverflowIsReached()
    ensures ValidRun(Overflowing()) && Exec(Overflowing()).slots == [PoolAfter(6)] && Measures(PoolAfter(6), 112, 108)
  {
    hide PoolAfter, Acted, NewsOk, Exec, ValidRun;
    var all, log := Overflowing(), [New(TINY), New(LARGE)];
    HalfWay();
    MiddleSteps();
    FinalStep();
    NewsAreOk();
    NoNews(multiset([LARGE, TINY]));
    PoolsThere();
    assert all[..4] == all[..3] + [all[3]] && all[..5] == all[..4] + [all[4]] && all == all[..5] + [all[5]];
    assert log + [] == log;
    ActStep(all[..3], all[3].act, log, PoolAfter(3), PoolAfter(4), []);
    ActStep(all[..4], all[4].act, log, PoolAfter(4), PoolAfter(5), []);
    ActStep(all[..5], all[5].act, log, PoolAfter(5), PoolAfter(6), [New(EXTRA)]);
    OverflowSizes();
  }

  /** The pool reports `size` bytes in use and a capacity of `capacity`. */
  predicate Measures(x: Slot, size: nat, capacity: nat) {
    x.There? && x.pool.cur <= |x.pool.blocks| && Size(x.pool) == size && Capacity(x.pool) == capacity
  }

  lemma OverflowSizes()
    ensures Measures(PoolAfter(6), 112, 108)
  {
    var bs := [EXTRA, LARGE, TINY];
    assert CapacityOf(bs, 1) == 8;
    assert CapacityOf(bs, 2) == 108;
  }
}
