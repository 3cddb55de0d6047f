/**
 The lock-free queue of example/performance_units/lock_free_queue.cpp, as a transition system with any
 number of threads and one step per shared read or compare-and-swap.

 Nodes are never freed, so an address is an index into a heap that only grows.  Three fields of `State` are
 history variables that no step reads to decide anything: `linked` (the nodes in the order of their link
 CAS), `tails` and `heads` (how often `tail` and `head` have advanced).  The same holds of the `since` field
 of a program counter, which records the progress made when the current attempt began.
 */
module LockFreeQueue {
  import opened Wrappers

  type Addr = nat
  type Tid = nat

  datatype Node = Node(data: string, next: Option<Addr>)

  datatype Pc =
    | Idle
    | ReadTail(node: Addr)
    | ReadNext(node: Addr, cur: Addr, since: nat)
    | LinkCas(node: Addr, cur: Addr, since: nat)
    | RereadNext(node: Addr, cur: Addr, since: nat)
    | HelpCas(node: Addr, cur: Addr, next: Addr, since: nat)
    | SwingCas(node: Addr, cur: Addr)
    | InputDone
    | ReadHead
    | ReadFirstNext(first: Addr, since: nat)
    | HeadCas(first: Addr, next: Addr, since: nat)
    | ReadData(next: Addr)
    | OutputDone(result: Option<string>)

  datatype State = State(
    heap: seq<Node>, head: Addr, tail: Addr, pcs: map<Tid, Pc>,
    linked: seq<Addr>, tails: nat, heads: nat)
  {
    function PcOf(p: Tid): Pc {
      if p in pcs then pcs[p] else Idle
    }

    function At(p: Tid, pc: Pc): State {
      this.(pcs := pcs[p := pc])
    }

    function Progress(): nat {
      |linked| + tails + heads
    }
  }

  /** What a thread may do next: call an operation when idle, or take the next step of a pending one. */
  datatype Move = CallInput(p: Tid, data: string) | CallOutput(p: Tid) | Step(p: Tid)

  /** What a caller can observe. */
  datatype Event =
    | Silent
    | InputCalled(p: Tid, data: string)
    | OutputCalled(p: Tid)
    | InputReturned(p: Tid)
    | OutputReturned(p: Tid, result: Option<string>)

  function Init(): State {
    State([Node("", None)], 0, 0, map[], [0], 0, 0)
  }

  predicate Enabled(s: State, m: Move) {
    match m
    case CallInput(p, _) => s.PcOf(p).Idle?
    case CallOutput(p) => s.PcOf(p).Idle?
    case Step(p) => !s.PcOf(p).Idle?
  }

  /** A pointer read through `a`; the invariant shows that no step reads past the heap. */
  function Load(s: State, a: Addr): Node {
    if a < |s.heap| then s.heap[a] else Node("", None)
  }

  /** One move; a move that is not enabled changes nothing. */
  function Apply(s: State, m: Move): State {
    if !Enabled(s, m) then s else
    match m
    case CallInput(p, data) => s.(heap := s.heap + [Node(data, None)]).At(p, ReadTail(|s.heap|))
    case CallOutput(p) => s.At(p, ReadHead)
    case Step(p) => ApplyStep(s, p)
  }

  function ApplyStep(s: State, p: Tid): State {
    Memory(s, s.PcOf(p)).At(p, NextPc(s, s.PcOf(p)))
  }

  /** The shared memory after a step of a thread at `pc`: only a CAS writes to it. */
  function Memory(s: State, pc: Pc): State {
    match pc
    case LinkCas(node, cur, _) => if Load(s, cur).next == None then LinkNode(s, cur, node) else s
    case HelpCas(_, cur, next, _) => SwingTail(s, cur, next)
    case SwingCas(node, cur) => SwingTail(s, cur, node)
    case HeadCas(first, next, _) => if s.head == first then AdvanceHead(s, next) else s
    case _ => s
  }

  /** Where a thread at `pc` goes next. */
  function NextPc(s: State, pc: Pc): Pc {
    match pc
    case Idle => Idle
    case ReadTail(node) => ReadNext(node, s.tail, s.Progress())
    case ReadNext(node, cur, since) =>
      if Load(s, cur).next == None then LinkCas(node, cur, since) else RereadNext(node, cur, since)
    case LinkCas(node, cur, _) => if Load(s, cur).next == None then SwingCas(node, cur) else ReadTail(node)
    case RereadNext(node, cur, since) =>
      // `cur->next` is read a second time, as the argument of the helping CAS.
      (match Load(s, cur).next
       case None => ReadTail(node)
       case Some(next) => HelpCas(node, cur, next, since))
    case HelpCas(node, _, _, _) => ReadTail(node)
    case SwingCas(_, _) => InputDone
    case InputDone => Idle
    case ReadHead => ReadFirstNext(s.head, s.Progress())
    case ReadFirstNext(first, since) =>
      (match Load(s, first).next
       case None => OutputDone(None)
       case Some(next) => HeadCas(first, next, since))
    case HeadCas(first, next, _) => if s.head == first then ReadData(next) else ReadHead
    case ReadData(next) => OutputDone(Some(Load(s, next).data))
    case OutputDone(_) => Idle
  }

  /** The effect of a successful `__sync_bool_compare_and_swap(&cur->next, nullptr, node)`. */
  function LinkNode(s: State, cur: Addr, node: Addr): State {
    if cur < |s.heap| then
      s.(heap := s.heap[cur := s.heap[cur].(next := Some(node))], linked := s.linked + [node])
    else s
  }

  /** The effect of a successful `__sync_bool_compare_and_swap(&head, first, next)`. */
  function AdvanceHead(s: State, next: Addr): State {
    s.(head := next, heads := s.heads + 1)
  }

  /** `__sync_bool_compare_and_swap(&tail, cur, next)`, successful or not. */
  function SwingTail(s: State, cur: Addr, next: Addr): State {
    if s.tail == cur then s.(tail := next, tails := s.tails + 1) else s
  }

  function EventOf(s: State, m: Move): Event {
    if !Enabled(s, m) then Silent else
    match m
    case CallInput(p, data) => InputCalled(p, data)
    case CallOutput(p) => OutputCalled(p)
    case Step(p) =>
      match s.PcOf(p)
      case InputDone => InputReturned(p)
      case OutputDone(r) => OutputReturned(p, r)
      case _ => Silent
  }

  /** A step that sends the operation back to the top of its `while (true)` loop. */
  predicate IsRetry(s: State, p: Tid) {
    var before, after := s.PcOf(p), ApplyStep(s, p).PcOf(p);
    !before.Idle? && !before.ReadTail? && !before.ReadHead? && (after.ReadTail? || after.ReadHead?)
  }

  // ---------------------------------------------------------------------------------------------
  // The invariant
  // ---------------------------------------------------------------------------------------------

  /** The linked nodes form one acyclic chain from the first sentinel, with nothing beyond its last node. */
  ghost predicate Chain(s: State) {
    && |s.linked| >= 1 && s.linked[0] == 0
    && (forall i :: 0 <= i < |s.linked| ==> s.linked[i] < |s.heap|)
    && (forall i, j :: 0 <= i < j < |s.linked| ==> s.linked[i] != s.linked[j])
    && (forall i, j :: 0 <= i && j == i + 1 && j < |s.linked| ==> s.heap[s.linked[i]].next == Some(s.linked[j]))
    && s.heap[s.linked[|s.linked| - 1]].next == None
  }

  /** `tail` is the last or second-to-last node, `head` is at most one node past `tail`. */
  ghost predicate Ends(s: State)
    requires Chain(s)
  {
    && s.tails < |s.linked| <= s.tails + 2 && s.tail == s.linked[s.tails]
    && s.heads < |s.linked| && s.heads <= s.tails + 1 && s.head == s.linked[s.heads]
  }

  /** `a` is one of the first `k + 1` linked nodes. */
  ghost predicate Reached(s: State, a: Addr, k: nat) {
    exists i :: 0 <= i <= k && i < |s.linked| && s.linked[i] == a
  }

  /** A node that its producer has allocated and not linked yet. */
  ghost predicate Pending(s: State, node: Addr) {
    node < |s.heap| && node !in s.linked && s.heap[node].next == None
  }

  ghost predicate Moved(s: State, since: nat, still: bool) {
    since <= s.Progress() && (still || since < s.Progress())
  }

  ghost predicate PcOk(s: State, pc: Pc) {
    match pc
    case ReadTail(node) => Pending(s, node)
    case ReadNext(node, cur, since) =>
      Pending(s, node) && Reached(s, cur, s.tails) && Moved(s, since, s.tail == cur)
    case LinkCas(node, cur, since) =>
      Pending(s, node) && Reached(s, cur, s.tails) && Moved(s, since, Load(s, cur).next == None)
    case RereadNext(node, cur, since) =>
      Pending(s, node) && Reached(s, cur, s.tails) && Load(s, cur).next.Some? && Moved(s, since, s.tail == cur)
    case HelpCas(node, cur, next, since) =>
      Pending(s, node) && Reached(s, cur, s.tails) && Load(s, cur).next == Some(next) && Moved(s, since, s.tail == cur)
    case SwingCas(node, cur) => Reached(s, cur, s.tails) && Load(s, cur).next == Some(node)
    case ReadFirstNext(first, since) => Reached(s, first, s.heads) && Moved(s, since, s.head == first)
    case HeadCas(first, next, since) =>
      Reached(s, first, s.heads) && Load(s, first).next == Some(next) && Moved(s, since, s.head == first)
    case ReadData(next) => Reached(s, next, s.heads)
    case _ => true
  }

  predicate Owns(pc: Pc, node: Addr) {
    match pc
    case ReadTail(n) => n == node
    case ReadNext(n, _, _) => n == node
    case LinkCas(n, _, _) => n == node
    case RereadNext(n, _, _) => n == node
    case HelpCas(n, _, _, _) => n == node
    case _ => false
  }

  ghost predicate Threads(s: State) {
    && (forall p :: p in s.pcs ==> PcOk(s, s.pcs[p]))
    && (forall p, q, node :: p in s.pcs && q in s.pcs && p != q && Owns(s.pcs[p], node) ==> !Owns(s.pcs[q], node))
  }

  ghost predicate Inv(s: State) {
    Chain(s) && Ends(s) && Threads(s)
  }

  lemma InitInv()
    ensures Inv(Init())
  {
    var s := Init();
    assert s.heap[s.linked[0]].next == None;
  }

  // ---------------------------------------------------------------------------------------------
  // Every step keeps the invariant
  // ---------------------------------------------------------------------------------------------

  /** What any step does to the memory that other threads rely on. */
  ghost predicate Grows(s: State, t: State) {
    && |s.heap| <= |t.heap|
    && (forall a :: 0 <= a < |s.heap| ==> t.heap[a].data == s.heap[a].data)
    && (forall a :: 0 <= a < |s.heap| ==>
          t.heap[a].next == s.heap[a].next || (s.heap[a].next == None && |s.linked| < |t.linked|))
    && |s.linked| <= |t.linked| && (forall i :: 0 <= i < |s.linked| ==> t.linked[i] == s.linked[i])
    && s.tails <= t.tails && (s.tail == t.tail || s.tails < t.tails)
    && s.heads <= t.heads && (s.head == t.head || s.heads < t.heads)
  }

  lemma NextOf(s: State, i: nat)
    requires Chain(s) && i + 1 < |s.linked|
    ensures s.heap[s.linked[i]].next == Some(s.linked[i + 1])
  {
    var j := i + 1;
    assert s.heap[s.linked[i]].next == Some(s.linked[j]);
  }

  lemma LastIfUnlinked(s: State, i: nat)
    requires Chain(s) && i < |s.linked| && s.heap[s.linked[i]].next == None
    ensures i == |s.linked| - 1
  {
    if i + 1 < |s.linked| {
      NextOf(s, i);
    }
  }

  lemma ReachedStable(s: State, t: State, a: Addr, k: nat, l: nat)
    requires Chain(s) && Grows(s, t) && Reached(s, a, k) && k <= l
    ensures Reached(t, a, l) && a < |s.heap|
  {
    var i :| 0 <= i <= k && i < |s.linked| && s.linked[i] == a;
    assert t.linked[i] == a;
  }

  lemma PcStable(s: State, t: State, pc: Pc)
    requires Chain(s) && Grows(s, t) && PcOk(s, pc)
    requires forall node :: Owns(pc, node) ==> Pending(t, node)
    ensures PcOk(t, pc)
  {
    hide Chain, Reached;
    match pc
    case ReadTail(node) => assert Owns(pc, node);
    case ReadNext(node, cur, since) => assert Owns(pc, node); ReachedStable(s, t, cur, s.tails, t.tails);
    case LinkCas(node, cur, since) => assert Owns(pc, node); ReachedStable(s, t, cur, s.tails, t.tails);
    case RereadNext(node, cur, since) => assert Owns(pc, node); ReachedStable(s, t, cur, s.tails, t.tails);
    case HelpCas(node, cur, next, since) => assert Owns(pc, node); ReachedStable(s, t, cur, s.tails, t.tails);
    case SwingCas(node, cur) => ReachedStable(s, t, cur, s.tails, t.tails);
    case ReadFirstNext(first, since) => ReachedStable(s, t, first, s.heads, t.heads);
    case HeadCas(first, next, since) => ReachedStable(s, t, first, s.heads, t.heads);
    case ReadData(next) => ReachedStable(s, t, next, s.heads, t.heads);
    case _ =>
  }

  /** A step of `p` keeps the facts about all threads if it grows memory and settles its own. */
  lemma ThreadsKept(s: State, t: State, p: Tid)
    requires Inv(s) && Grows(s, t)
    requires p in t.pcs && PcOk(t, t.pcs[p]) && t.pcs == s.pcs[p := t.pcs[p]]
    requires forall q, node :: q in s.pcs && q != p && Owns(s.pcs[q], node) ==> Pending(t, node) && !Owns(t.pcs[p], node)
    ensures Threads(t)
  {
    forall q | q in t.pcs
      ensures PcOk(t, t.pcs[q])
    {
      if q != p {
        PcStable(s, t, s.pcs[q]);
      }
    }
  }

  /** A step of `p` changes the shared memory from that of `s` to that of `u`, and then its own counter to `pc`. */
  lemma MemoryStep(s: State, u: State, p: Tid, pc: Pc)
    requires Inv(s) && Chain(u) && Ends(u) && Grows(s, u) && u.pcs == s.pcs && PcOk(u, pc)
    requires forall q, node :: q in s.pcs && q != p && Owns(s.pcs[q], node) ==> Pending(u, node) && !Owns(pc, node)
    ensures Inv(u.At(p, pc))
  {
    hide Chain, Ends, Grows, PcOk, Pending, Owns, Threads;
    var t := u.At(p, pc);
    SameMemory(u, p, pc);
    GrowsAt(s, u, p, pc);
    forall q, node | q in s.pcs && q != p && Owns(s.pcs[q], node)
      ensures Pending(t, node)
    {
      SamePending(u, p, pc, node);
    }
    ThreadsKept(s, t, p);
  }

  /** A program counter says nothing about the memory. */
  lemma SameMemory(u: State, p: Tid, pc: Pc)
    requires Chain(u) && Ends(u) && PcOk(u, pc)
    ensures Chain(u.At(p, pc)) && Ends(u.At(p, pc)) && PcOk(u.At(p, pc), pc)
  {
    hide PcOk;
    SamePc(u, p, pc);
  }

  lemma SamePc(u: State, p: Tid, pc: Pc)
    requires PcOk(u, pc)
    ensures PcOk(u.At(p, pc), pc)
  {
    hide Reached, Pending;
    match pc
    case ReadTail(node) => SamePending(u, p, pc, node);
    case ReadNext(node, cur, _) => SamePending(u, p, pc, node); SameReached(u, p, pc, cur, u.tails);
    case LinkCas(node, cur, _) => SamePending(u, p, pc, node); SameReached(u, p, pc, cur, u.tails);
    case RereadNext(node, cur, _) => SamePending(u, p, pc, node); SameReached(u, p, pc, cur, u.tails);
    case HelpCas(node, cur, _, _) => SamePending(u, p, pc, node); SameReached(u, p, pc, cur, u.tails);
    case SwingCas(_, cur) => SameReached(u, p, pc, cur, u.tails);
    case ReadFirstNext(first, _) => SameReached(u, p, pc, first, u.heads);
    case HeadCas(first, _, _) => SameReached(u, p, pc, first, u.heads);
    case ReadData(next) => SameReached(u, p, pc, next, u.heads);
    case _ =>
  }

  lemma SameReached(u: State, p: Tid, pc: Pc, a: Addr, k: nat)
    requires Reached(u, a, k)
    ensures Reached(u.At(p, pc), a, k)
  {
    var i :| 0 <= i <= k && i < |u.linked| && u.linked[i] == a;
    assert u.At(p, pc).linked[i] == a;
  }

  lemma SamePending(u: State, p: Tid, pc: Pc, node: Addr)
    requires Pending(u, node)
    ensures Pending(u.At(p, pc), node)
  {
  }

  lemma GrowsAt(s: State, u: State, p: Tid, pc: Pc)
    requires Grows(s, u)
    ensures Grows(s, u.At(p, pc))
  {
  }

  lemma OwnedIsPending(s: State, q: Tid, node: Addr)
    requires Threads(s) && q in s.pcs && Owns(s.pcs[q], node)
    ensures Pending(s, node)
  {
    assert PcOk(s, s.pcs[q]);
  }

  lemma CallInputInv(s: State, p: Tid, data: string)
    requires Inv(s)
    ensures Inv(s.(heap := s.heap + [Node(data, None)]).At(p, ReadTail(|s.heap|)))
  {
    var u := s.(heap := s.heap + [Node(data, None)]);
    forall q, n | q in s.pcs && q != p && Owns(s.pcs[q], n)
      ensures Pending(u, n) && n != |s.heap|
    {
      OwnedIsPending(s, q, n);
    }
    MemoryStep(s, u, p, ReadTail(|s.heap|));
  }

  /** `u` is `s` with its shared memory changed, and grown, by one CAS. */
  ghost predicate Grown(s: State, u: State) {
    Chain(u) && Ends(u) && Grows(s, u) && u.pcs == s.pcs
  }

  lemma SameGrown(s: State)
    requires Chain(s) && Ends(s)
    ensures Grown(s, s)
  {
  }

  /** Linking a pending node behind the last one leaves a chain one node longer. */
  lemma LinkLast(s: State, node: Addr)
    requires Chain(s) && Pending(s, node)
    ensures var cur := s.linked[|s.linked| - 1]; var t := LinkNode(s, cur, node);
            Chain(t) && Grows(s, t) && t.linked == s.linked + [node] && Load(t, cur).next == Some(node)
  {
    var n := |s.linked| - 1;
    var t := LinkNode(s, s.linked[n], node);
    assert forall i :: 0 <= i < n ==> t.heap[s.linked[i]] == s.heap[s.linked[i]];
  }

  lemma LinkChain(s: State, cur: Addr, node: Addr)
    requires Chain(s) && Ends(s) && Pending(s, node) && Reached(s, cur, s.tails) && Load(s, cur).next == None
    ensures var t := LinkNode(s, cur, node); Grown(s, t) && Reached(t, cur, t.tails) && Load(t, cur).next == Some(node)
  {
    var i: nat :| i <= s.tails && i < |s.linked| && s.linked[i] == cur;
    LastIfUnlinked(s, i);
    LinkLast(s, node);
    assert LinkNode(s, cur, node).linked[i] == cur;
  }

  /** Both CASes on `tail` move it one node along the chain, or fail. */
  lemma SwingChain(s: State, cur: Addr, next: Addr)
    requires Chain(s) && Ends(s) && Reached(s, cur, s.tails) && Load(s, cur).next == Some(next)
    ensures Grown(s, SwingTail(s, cur, next))
  {
    if s.tail == cur {
      assert s.tails + 1 < |s.linked|;
      NextOf(s, s.tails);
    }
  }

  lemma HeadChain(s: State, next: Addr)
    requires Chain(s) && Ends(s) && Load(s, s.head).next == Some(next)
    ensures Grown(s, AdvanceHead(s, next)) && Reached(AdvanceHead(s, next), next, s.heads + 1)
    ensures s.heads + 1 < |s.linked| && next == s.linked[s.heads + 1]
  {
    assert s.heads + 1 < |s.linked|;
    NextOf(s, s.heads);
    var t := AdvanceHead(s, next);
    assert t.linked[s.heads + 1] == next;
  }

  /** Whatever step a thread takes, the shared memory stays one chain with its ends in place. */
  lemma MemoryOk(s: State, pc: Pc)
    requires Chain(s) && Ends(s) && PcOk(s, pc)
    ensures Grown(s, Memory(s, pc))
  {
    SameGrown(s);
    match pc
    case LinkCas(node, cur, _) => if Load(s, cur).next == None { LinkChain(s, cur, node); }
    case HelpCas(_, cur, next, _) => SwingChain(s, cur, next);
    case SwingCas(node, cur) => SwingChain(s, cur, node);
    case HeadCas(first, next, _) => if s.head == first { HeadChain(s, next); }
    case _ =>
  }

  /** A node that `p` does not own stays pending when `p` takes a step. */
  lemma PendingKept(s: State, pc: Pc, node: Addr)
    requires Chain(s) && PcOk(s, pc) && Pending(s, node) && (pc.LinkCas? ==> pc.node != node)
    ensures Pending(Memory(s, pc), node)
  {
    if pc.LinkCas? {
      var i :| 0 <= i <= s.tails && i < |s.linked| && s.linked[i] == pc.cur;
    }
  }

  lemma NextPcOk(s: State, pc: Pc)
    requires Chain(s) && Ends(s) && PcOk(s, pc)
    ensures PcOk(Memory(s, pc), NextPc(s, pc))
    ensures forall node :: Owns(NextPc(s, pc), node) ==> Owns(pc, node)
  {
    match pc
    case ReadTail(node) => assert s.linked[s.tails] == s.tail;
    case LinkCas(node, cur, since) => if Load(s, cur).next == None { LinkChain(s, cur, node); }
    case ReadHead => assert s.linked[s.heads] == s.head;
    case HeadCas(first, next, since) => if s.head == first { HeadChain(s, next); }
    case _ =>
  }

  lemma StepInv(s: State, p: Tid)
    requires Inv(s) && p in s.pcs
    ensures Inv(ApplyStep(s, p))
  {
    var pc := s.pcs[p];
    assert PcOk(s, pc);
    MemoryOk(s, pc);
    NextPcOk(s, pc);
    var u, next := Memory(s, pc), NextPc(s, pc);
    forall q, n | q in s.pcs && q != p && Owns(s.pcs[q], n)
      ensures Pending(u, n) && !Owns(next, n)
    {
      OwnedIsPending(s, q, n);
      assert pc.LinkCas? ==> Owns(pc, pc.node);
      PendingKept(s, pc, n);
    }
    MemoryStep(s, u, p, next);
  }

  lemma MoveInv(s: State, m: Move)
    requires Inv(s)
    ensures Inv(Apply(s, m))
  {
    if Enabled(s, m) {
      match m
      case CallInput(p, data) => CallInputInv(s, p, data);
      case CallOutput(p) =>
        forall q, n | q in s.pcs && Owns(s.pcs[q], n)
          ensures Pending(s, n)
        {
          OwnedIsPending(s, q, n);
        }
        MemoryStep(s, s, p, ReadHead);
      case Step(p) => StepInv(s, p);
    }
  }

  /**
   Lock freedom: whenever an operation goes back to the top of its loop, some node was linked or `tail` or
   `head` advanced since that attempt began.
   */
  lemma RetryMeansProgress(s: State, p: Tid)
    requires Inv(s) && IsRetry(s, p)
    ensures !s.PcOf(p).SwingCas? && !s.PcOf(p).ReadData? && !s.PcOf(p).InputDone? && !s.PcOf(p).OutputDone?
    ensures s.PcOf(p).since < ApplyStep(s, p).Progress()
  {
    assert PcOk(s, s.pcs[p]);
  }

  // ---------------------------------------------------------------------------------------------
  // The abstract queue: each operation takes effect in one indivisible step between call and return
  // ---------------------------------------------------------------------------------------------

  datatype SpecPc = SpecIdle | Inserting(data: string) | Inserted | Removing | Removed(result: Option<string>)

  datatype Spec = Spec(queue: seq<string>, pcs: map<Tid, SpecPc>) {
    function PcOf(p: Tid): SpecPc {
      if p in pcs then pcs[p] else SpecIdle
    }
  }

  datatype SpecMove = SpecCallInput(p: Tid, data: string) | SpecCallOutput(p: Tid) | TakeEffect(p: Tid) | Return(p: Tid)

  predicate SpecEnabled(a: Spec, m: SpecMove) {
    match m
    case SpecCallInput(p, _) => a.PcOf(p).SpecIdle?
    case SpecCallOutput(p) => a.PcOf(p).SpecIdle?
    case TakeEffect(p) => a.PcOf(p).Inserting? || a.PcOf(p).Removing?
    case Return(p) => a.PcOf(p).Inserted? || a.PcOf(p).Removed?
  }

  function SpecApply(a: Spec, m: SpecMove): Spec
    requires SpecEnabled(a, m)
  {
    match m
    case SpecCallInput(p, data) => a.(pcs := a.pcs[p := Inserting(data)])
    case SpecCallOutput(p) => a.(pcs := a.pcs[p := Removing])
    case TakeEffect(p) =>
      if a.PcOf(p).Inserting? then Spec(a.queue + [a.PcOf(p).data], a.pcs[p := Inserted])
      else if a.queue == [] then a.(pcs := a.pcs[p := Removed(None)])
      else Spec(a.queue[1..], a.pcs[p := Removed(Some(a.queue[0]))])
    case Return(p) => a.(pcs := a.pcs[p := SpecIdle])
  }

  function SpecEvent(a: Spec, m: SpecMove): Event {
    match m
    case SpecCallInput(p, data) => InputCalled(p, data)
    case SpecCallOutput(p) => OutputCalled(p)
    case TakeEffect(_) => Silent
    case Return(p) => if a.PcOf(p).Removed? then OutputReturned(p, a.PcOf(p).result) else InputReturned(p)
  }

  function SpecPcOf(s: State, pc: Pc): SpecPc {
    match pc
    case Idle => SpecIdle
    case ReadTail(node) => Inserting(Load(s, node).data)
    case ReadNext(node, _, _) => Inserting(Load(s, node).data)
    case LinkCas(node, _, _) => Inserting(Load(s, node).data)
    case RereadNext(node, _, _) => Inserting(Load(s, node).data)
    case HelpCas(node, _, _, _) => Inserting(Load(s, node).data)
    case SwingCas(_, _) => Inserted
    case InputDone => Inserted
    case ReadHead => Removing
    case ReadFirstNext(_, _) => Removing
    case HeadCas(_, _, _) => Removing
    case ReadData(next) => Removed(Some(Load(s, next).data))
    case OutputDone(r) => Removed(r)
  }

  /** The abstract queue that a concrete state stands for: the values of the nodes after `head`. */
  function Abs(s: State): Spec {
    Spec(if s.heads < |s.linked| then Data(s, s.heads + 1, |s.linked|) else [],
         map p | p in s.pcs :: SpecPcOf(s, s.pcs[p]))
  }

  /** The values of the linked nodes from position `from` up to but not including `to`. */
  function Data(s: State, from: nat, to: nat): (r: seq<string>)
    requires from <= to <= |s.linked|
    ensures |r| == to - from
    ensures forall i :: 0 <= i < |r| ==> r[i] == Load(s, s.linked[from + i]).data
  {
    if from == to then [] else Data(s, from, to - 1) + [Load(s, s.linked[to - 1]).data]
  }

  /** The moves of the abstract queue that a concrete move stands for: at most one. */
  function SpecMoves(s: State, m: Move): seq<SpecMove> {
    if !Enabled(s, m) then [] else
    match m
    case CallInput(p, data) => [SpecCallInput(p, data)]
    case CallOutput(p) => [SpecCallOutput(p)]
    case Step(p) =>
      match s.PcOf(p)
      case LinkCas(_, cur, _) => if Load(s, cur).next == None then [TakeEffect(p)] else []
      case ReadFirstNext(first, _) => if Load(s, first).next == None then [TakeEffect(p)] else []
      case HeadCas(first, _, _) => if s.head == first then [TakeEffect(p)] else []
      case InputDone => [Return(p)]
      case OutputDone(_) => [Return(p)]
      case _ => []
  }

  lemma MeaningKept(s: State, t: State, pc: Pc)
    requires Chain(s) && Grows(s, t) && PcOk(s, pc)
    ensures SpecPcOf(t, pc) == SpecPcOf(s, pc)
  {
    if pc.ReadData? {
      ReachedStable(s, t, pc.next, s.heads, t.heads);
    }
  }

  /** Nothing another thread has pending changes its meaning when memory grows. */
  lemma OthersKeepMeaning(s: State, t: State, p: Tid)
    requires Inv(s) && Grows(s, t) && p in t.pcs && t.pcs == s.pcs[p := t.pcs[p]]
    ensures Abs(t).pcs == Abs(s).pcs[p := SpecPcOf(t, t.pcs[p])]
  {
    hide Chain, Ends, PcOk, Grows, SpecPcOf, Owns;
    forall q | q in s.pcs && q != p
      ensures SpecPcOf(t, s.pcs[q]) == SpecPcOf(s, s.pcs[q])
    {
      MeaningKept(s, t, s.pcs[q]);
    }
  }

  lemma DataKept(s: State, t: State, from: nat, to: nat)
    requires Chain(s) && Grows(s, t) && from <= to <= |s.linked|
    ensures Data(t, from, to) == Data(s, from, to)
  {
  }

  lemma LinkedQueue(s: State, t: State, node: Addr)
    requires Chain(s) && Grows(s, t) && s.heads < |s.linked| && t.linked == s.linked + [node] && node < |s.heap|
    ensures Data(t, s.heads + 1, |t.linked|) == Data(s, s.heads + 1, |s.linked|) + [Load(s, node).data]
  {
    DataKept(s, t, s.heads + 1, |s.linked|);
  }

  lemma LinkReady(s: State, p: Tid)
    requires Inv(s) && p in s.pcs && s.pcs[p].LinkCas?
    ensures Pending(s, s.pcs[p].node) && Reached(s, s.pcs[p].cur, s.tails)
  {
    assert PcOk(s, s.pcs[p]);
  }

  lemma AbsPcOf(s: State, p: Tid)
    ensures Abs(s).PcOf(p) == SpecPcOf(s, s.PcOf(p))
  {
  }

  lemma AbsQueue(s: State)
    requires s.heads < |s.linked|
    ensures Abs(s).queue == Data(s, s.heads + 1, |s.linked|)
  {
  }

  /** The link CAS is the moment an `input` takes effect. */
  lemma LinkTakesEffect(s: State, p: Tid, node: Addr, cur: Addr, since: nat)
    requires Inv(s) && p in s.pcs && s.pcs[p] == LinkCas(node, cur, since) && Load(s, cur).next == None
    ensures SpecEnabled(Abs(s), TakeEffect(p))
    ensures Abs(LinkNode(s, cur, node).At(p, SwingCas(node, cur))) == SpecApply(Abs(s), TakeEffect(p))
  {
    hide Chain, Ends, Grows, Data, Threads, Reached, Abs;
    LinkReady(s, p);
    LinkChain(s, cur, node);
    var t := LinkNode(s, cur, node).At(p, SwingCas(node, cur));
    GrowsAt(s, LinkNode(s, cur, node), p, SwingCas(node, cur));
    AbsPcOf(s, p);
    OthersKeepMeaning(s, t, p);
    DataHeads(s);
    LinkedQueue(s, t, node);
    AbsQueue(s);
    AbsQueue(t);
  }

  /** Reading a null `next` is the moment an unsuccessful `output` takes effect: the queue is empty then. */
  lemma EmptyReadTakesEffect(s: State, p: Tid, first: Addr, since: nat)
    requires Inv(s) && p in s.pcs && s.pcs[p] == ReadFirstNext(first, since) && Load(s, first).next == None
    ensures SpecEnabled(Abs(s), TakeEffect(p)) && Abs(s).queue == []
    ensures Abs(s.At(p, OutputDone(None))) == SpecApply(Abs(s), TakeEffect(p))
  {
    assert PcOk(s, s.pcs[p]);
    var i :| 0 <= i <= s.heads && i < |s.linked| && s.linked[i] == first;
    LastIfUnlinked(s, i);
    var t := s.At(p, OutputDone(None));
    OthersKeepMeaning(s, t, p);
  }

  lemma HeadQueue(s: State, next: Addr)
    requires Chain(s) && Ends(s) && Load(s, s.head).next == Some(next)
    ensures var t := AdvanceHead(s, next);
            t.heads < |t.linked| && Data(s, s.heads + 1, |s.linked|) == [Load(s, next).data] + Data(t, t.heads + 1, |t.linked|)
  {
    HeadChain(s, next);
  }

  lemma HeadPcs(s: State, p: Tid, next: Addr, since: nat)
    requires Inv(s) && p in s.pcs && s.pcs[p] == HeadCas(s.head, next, since)
    ensures Abs(AdvanceHead(s, next).At(p, ReadData(next))).pcs == Abs(s).pcs[p := Removed(Some(Load(s, next).data))]
  {
    hide Chain, Ends, Grows, Threads, Reached, Abs;
    HeadReady(s, p);
    HeadChain(s, next);
    GrowsAt(s, AdvanceHead(s, next), p, ReadData(next));
    OthersKeepMeaning(s, AdvanceHead(s, next).At(p, ReadData(next)), p);
  }

  lemma HeadQueues(s: State, p: Tid, next: Addr, since: nat)
    requires Inv(s) && p in s.pcs && s.pcs[p] == HeadCas(s.head, next, since)
    ensures Abs(s).queue == [Load(s, next).data] + Abs(AdvanceHead(s, next).At(p, ReadData(next))).queue
  {
    hide Chain, Ends, Data, Threads, Abs;
    HeadReady(s, p);
    HeadQueue(s, next);
    DataHeads(s);
    var u := AdvanceHead(s, next);
    var t := u.At(p, ReadData(next));
    SameData(u, t, u.heads + 1, |u.linked|);
    AbsQueue(s);
    AbsQueue(t);
  }

  /** The head CAS is the moment a successful `output` takes effect. */
  lemma HeadTakesEffect(s: State, p: Tid, next: Addr, since: nat)
    requires Inv(s) && p in s.pcs && s.pcs[p] == HeadCas(s.head, next, since)
    ensures SpecEnabled(Abs(s), TakeEffect(p)) && Abs(s).queue != [] && Abs(s).queue[0] == Load(s, next).data
    ensures Abs(AdvanceHead(s, next).At(p, ReadData(next))) == SpecApply(Abs(s), TakeEffect(p))
  {
    hide Inv, Abs;
    HeadPcs(s, p, next, since);
    HeadQueues(s, p, next, since);
    AbsPcOf(s, p);
    var q := Abs(AdvanceHead(s, next).At(p, ReadData(next))).queue;
    assert ([Load(s, next).data] + q)[1..] == q;
  }

  lemma HeadReady(s: State, p: Tid)
    requires Inv(s) && p in s.pcs && s.pcs[p].HeadCas?
    ensures Load(s, s.pcs[p].first).next == Some(s.pcs[p].next)
  {
    assert PcOk(s, s.pcs[p]);
  }

  lemma SameData(s: State, t: State, from: nat, to: nat)
    requires t.heap == s.heap && t.linked == s.linked && from <= to <= |s.linked|
    ensures Data(t, from, to) == Data(s, from, to)
  {
  }

  lemma SameMeaning(s: State, t: State, pc: Pc)
    requires t.heap == s.heap
    ensures SpecPcOf(t, pc) == SpecPcOf(s, pc)
  {
  }

  /** A step that changes neither the chain nor the abstract meaning of its own thread. */
  lemma SilentStep(s: State, u: State, p: Tid, pc: Pc)
    requires Inv(s) && Grown(s, u) && u.linked == s.linked && u.heads == s.heads && u.heap == s.heap
    requires p in s.pcs && SpecPcOf(s, pc) == SpecPcOf(s, s.pcs[p])
    ensures Abs(u.At(p, pc)) == Abs(s)
  {
    hide Chain, Ends, Grows, Threads, SpecPcOf, Data;
    var t := u.At(p, pc);
    SameMeaning(s, t, pc);
    GrowsAt(s, u, p, pc);
    OthersKeepMeaning(s, t, p);
    DataHeads(s);
    DataKept(s, t, s.heads + 1, |s.linked|);
  }

  lemma DataHeads(s: State)
    requires Inv(s)
    ensures s.heads < |s.linked|
  {
  }

  ghost predicate SpecRun(a: Spec, ms: seq<SpecMove>, b: Spec, trace: seq<Event>)
    decreases |ms|
  {
    if ms == [] then a == b && trace == []
    else
      var k := |ms| - 1;
      exists c, tr :: SpecRun(a, ms[..k], c, tr) && SpecEnabled(c, ms[k]) && b == SpecApply(c, ms[k])
        && trace == Observe(tr, SpecEvent(c, ms[k]))
  }

  function Observe(trace: seq<Event>, e: Event): seq<Event> {
    if e.Silent? then trace else trace + [e]
  }

  /** `Abs(t)` is reached from `Abs(s)` by the moves `ms`, at most one, showing the event `e`. */
  ghost predicate Simulates(s: State, ms: seq<SpecMove>, t: State, e: Event) {
    if ms == [] then Abs(t) == Abs(s) && e.Silent?
    else |ms| == 1 && SpecEnabled(Abs(s), ms[0]) && Abs(t) == SpecApply(Abs(s), ms[0]) && e == SpecEvent(Abs(s), ms[0])
  }

  /** The moves of the abstract queue are made by five kinds of step; every other step is silent. */
  lemma SilentPc(s: State, p: Tid)
    requires Inv(s) && p in s.pcs && !s.pcs[p].Idle? && SpecMoves(s, Step(p)) == []
    ensures SpecPcOf(s, NextPc(s, s.pcs[p])) == SpecPcOf(s, s.pcs[p])
    ensures var u := Memory(s, s.pcs[p]); u.linked == s.linked && u.heads == s.heads && u.heap == s.heap
  {
    assert PcOk(s, s.pcs[p]);
  }

  lemma SilentRefines(s: State, p: Tid)
    requires Inv(s) && p in s.pcs && !s.pcs[p].Idle? && SpecMoves(s, Step(p)) == []
    ensures Abs(ApplyStep(s, p)) == Abs(s)
  {
    SilentPc(s, p);
    assert PcOk(s, s.pcs[p]);
    MemoryOk(s, s.pcs[p]);
    SilentStep(s, Memory(s, s.pcs[p]), p, NextPc(s, s.pcs[p]));
  }

  lemma ReturnRefines(s: State, p: Tid)
    requires Inv(s) && p in s.pcs && (s.pcs[p].InputDone? || s.pcs[p].OutputDone?)
    ensures Abs(s.At(p, Idle)) == SpecApply(Abs(s), Return(p))
  {
    OthersKeepMeaning(s, s.At(p, Idle), p);
  }

  lemma StepRefines(s: State, p: Tid)
    requires Inv(s) && p in s.pcs && !s.pcs[p].Idle?
    ensures Simulates(s, SpecMoves(s, Step(p)), ApplyStep(s, p), EventOf(s, Step(p)))
  {
    hide Inv, Abs;
    if SpecMoves(s, Step(p)) == [] {
      SilentRefines(s, p);
    } else {
      AbsPcOf(s, p);
      match s.pcs[p]
      case LinkCas(node, cur, since) => LinkTakesEffect(s, p, node, cur, since);
      case ReadFirstNext(first, since) => EmptyReadTakesEffect(s, p, first, since);
      case HeadCas(first, next, since) => HeadTakesEffect(s, p, next, since);
      case InputDone => ReturnRefines(s, p);
      case OutputDone(_) => ReturnRefines(s, p);
    }
  }

  lemma CallRefines(s: State, m: Move)
    requires Inv(s) && Enabled(s, m) && !m.Step?
    ensures Simulates(s, SpecMoves(s, m), Apply(s, m), EventOf(s, m))
  {
    hide Chain, Ends, Threads, Data;
    var t := Apply(s, m);
    DataHeads(s);
    OthersKeepMeaning(s, t, m.p);
    DataKept(s, t, s.heads + 1, |s.linked|);
  }

  lemma MoveRefines(s: State, m: Move)
    requires Inv(s)
    ensures Simulates(s, SpecMoves(s, m), Apply(s, m), EventOf(s, m))
  {
    hide Inv, Abs, ApplyStep, SpecEvent, SpecApply, Simulates;
    if !Enabled(s, m) {
      NothingSimulates(s);
    } else if m.Step? {
      StepRefines(s, m.p);
    } else {
      CallRefines(s, m);
    }
  }

  lemma NothingSimulates(s: State)
    ensures Simulates(s, [], s, Silent)
  {
  }

  // ---------------------------------------------------------------------------------------------
  // Whole runs
  // ---------------------------------------------------------------------------------------------

  /** The state after any sequence of moves by any threads. */
  function Exec(ms: seq<Move>): State {
    if ms == [] then Init() else Apply(Exec(ms[..|ms| - 1]), ms[|ms| - 1])
  }

  function Trace(ms: seq<Move>): seq<Event> {
    if ms == [] then []
    else Observe(Trace(ms[..|ms| - 1]), EventOf(Exec(ms[..|ms| - 1]), ms[|ms| - 1]))
  }

  function SpecRunOf(ms: seq<Move>): seq<SpecMove> {
    if ms == [] then []
    else SpecRunOf(ms[..|ms| - 1]) + SpecMoves(Exec(ms[..|ms| - 1]), ms[|ms| - 1])
  }

  /** In every interleaving of any number of threads the chain, its ends and every thread stay well formed. */
  lemma {:induction false} ReachableInv(ms: seq<Move>)
    ensures Inv(Exec(ms))
  {
    if ms == [] {
      InitInv();
    } else {
      var k := |ms| - 1;
      ReachableInv(ms[..k]);
      MoveInv(Exec(ms[..k]), ms[k]);
    }
  }

  lemma RunExtends(a: Spec, ms: seq<SpecMove>, c: Spec, trace: seq<Event>, m: SpecMove)
    requires SpecRun(a, ms, c, trace) && SpecEnabled(c, m)
    ensures SpecRun(a, ms + [m], SpecApply(c, m), Observe(trace, SpecEvent(c, m)))
  {
    var all := ms + [m];
    assert all[..|all| - 1] == ms && all[|all| - 1] == m;
  }

  /** Linearizability: every run shows its callers exactly what some run of the abstract FIFO shows them. */
  lemma {:induction false} Linearizable(ms: seq<Move>)
    ensures SpecRun(Spec([], map[]), SpecRunOf(ms), Abs(Exec(ms)), Trace(ms))
  {
    if ms == [] {
      assert Abs(Init()) == Spec([], map[]);
    } else {
      var k := |ms| - 1;
      var s, m := Exec(ms[..k]), ms[k];
      Linearizable(ms[..k]);
      ReachableInv(ms[..k]);
      MoveRefines(s, m);
      var before, now := SpecRunOf(ms[..k]), SpecMoves(s, m);
      if now == [] {
        assert before + now == before;
      } else {
        assert now == [now[0]];
        RunExtends(Spec([], map[]), before, Abs(s), Trace(ms[..k]), now[0]);
      }
    }
  }

  // ---------------------------------------------------------------------------------------------
  // Conservation
  // ---------------------------------------------------------------------------------------------

  /** The values that `output` calls have taken out of the queue, oldest first. */
  function Delivered(s: State): seq<string>
    requires s.heads < |s.linked|
  {
    Data(s, 1, s.heads + 1)
  }

  lemma DataSplit(s: State, from: nat, mid: nat, to: nat)
    requires from <= mid <= to <= |s.linked|
    ensures Data(s, from, to) == Data(s, from, mid) + Data(s, mid, to)
  {
    hide Data, Load;
  }

  /** The values that have been linked, oldest first: delivered ones, then those still queued. */
  lemma DeliveredIsPrefix(ms: seq<Move>)
    ensures var s := Exec(ms); s.heads < |s.linked| && Data(s, 1, |s.linked|) == Delivered(s) + Abs(s).queue
  {
    hide Inv, Data, Exec;
    ReachableInv(ms);
    DataHeads(Exec(ms));
    DataSplit(Exec(ms), 1, Exec(ms).heads + 1, |Exec(ms).linked|);
  }

  lemma MoveGrows(s: State, m: Move)
    requires Inv(s)
    ensures Grows(s, Apply(s, m))
  {
    if m.Step? && Enabled(s, m) {
      assert PcOk(s, s.pcs[m.p]);
      MemoryOk(s, s.pcs[m.p]);
    }
  }

  /** `m` is the head CAS that takes a value out. */
  predicate Delivers(s: State, m: Move) {
    m.Step? && s.PcOf(m.p).HeadCas? && s.head == s.PcOf(m.p).first
  }

  lemma DeliveryCas(s: State, p: Tid, next: Addr, since: nat)
    requires Inv(s) && p in s.pcs && s.pcs[p] == HeadCas(s.head, next, since)
    ensures var t := AdvanceHead(s, next).At(p, ReadData(next));
            t.heads < |t.linked| && Abs(s).queue != [] && Delivered(t) == Delivered(s) + [Abs(s).queue[0]]
  {
    assert PcOk(s, s.pcs[p]);
    HeadChain(s, next);
    var t := AdvanceHead(s, next).At(p, ReadData(next));
    assert Delivered(t) == Delivered(s) + [Abs(s).queue[0]];
  }

  lemma KeptBehindHead(s: State, t: State)
    requires Inv(s) && Grows(s, t)
    ensures s.heads < |s.linked| <= |t.linked| && Data(t, 1, s.heads + 1) == Data(s, 1, s.heads + 1)
  {
    DataKept(s, t, 1, s.heads + 1);
  }

  /** Every move leaves the delivered values alone, except a head CAS, which appends the oldest queued value. */
  lemma DeliveryStep(s: State, m: Move)
    requires Inv(s)
    ensures Apply(s, m).heads < |Apply(s, m).linked|
    ensures !Delivers(s, m) ==> Delivered(Apply(s, m)) == Delivered(s)
    ensures Delivers(s, m) ==> Abs(s).queue != [] && Delivered(Apply(s, m)) == Delivered(s) + [Abs(s).queue[0]]
  {
    hide Inv, Data, Grows, Abs;
    var t := Apply(s, m);
    DataHeads(s);
    if Delivers(s, m) {
      DeliveryCas(s, m.p, s.PcOf(m.p).next, s.PcOf(m.p).since);
    } else {
      MoveGrows(s, m);
      KeptBehindHead(s, t);
      assert t.heads == s.heads;
    }
  }
}
