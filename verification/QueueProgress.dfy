/**
 Progress of the lock-free queue (example/performance_units/lock_free_queue.cpp:33-74): a pending operation that runs
 alone takes effect and returns within twelve of its own steps, and one that does not get there is held up by
 others, whose operations advance the queue.
 */
module QueueProgress {
  import opened LockFreeQueue
  import opened Wrappers

  // ---------------------------------------------------------------------------------------------
  // A thread that runs alone
  // ---------------------------------------------------------------------------------------------

  /** Thread `p`, running alone, shows nothing for at most `n` steps and then returns with `e`, leaving the queue `q`. */
  predicate ReturnsWithin(s: State, p: Tid, n: nat, e: Event, q: seq<string>)
    decreases n
  {
    var t := Apply(s, Step(p));
    if EventOf(s, Step(p)).Silent? then n > 0 && ReturnsWithin(t, p, n - 1, e, q)
    else EventOf(s, Step(p)) == e && Abs(t).queue == q && t.PcOf(p).Idle?
  }

  /** What the abstract queue owes a thread: how its operation should return. */
  function Due(a: Spec, p: Tid): Event
    requires !a.PcOf(p).SpecIdle?
  {
    match a.PcOf(p)
    case Inserting(_) => InputReturned(p)
    case Inserted => InputReturned(p)
    case Removing => OutputReturned(p, if a.queue == [] then None else Some(a.queue[0]))
    case Removed(r) => OutputReturned(p, r)
  }

  /** The queue once the operation of `p` is done, if no other takes effect in between. */
  function QueueDue(a: Spec, p: Tid): seq<string> {
    match a.PcOf(p)
    case Inserting(data) => a.queue + [data]
    case Removing => if a.queue == [] then [] else a.queue[1..]
    case _ => a.queue
  }

  /** `tail` is behind: the node it points to has a successor. */
  predicate Lags(s: State) {
    Load(s, s.tail).next.Some?
  }

  /** The silent steps left for a thread at `pc` that runs alone. */
  function StepsLeft(s: State, pc: Pc): nat {
    var fromTop := if Lags(s) then 8 else 4;
    var fromHead := if Load(s, s.head).next == None then 2 else 4;
    match pc
    case Idle => 0
    case ReadTail(_) => fromTop
    case ReadNext(_, cur, _) => if Load(s, cur).next == None then 3 else if s.tail == cur then 7 else 3 + fromTop
    case LinkCas(_, cur, _) => if Load(s, cur).next == None then 2 else 1 + fromTop
    case RereadNext(_, cur, _) => if s.tail == cur then 6 else 2 + fromTop
    case HelpCas(_, cur, _, _) => if s.tail == cur then 5 else 1 + fromTop
    case SwingCas(_, _) => 1
    case InputDone => 0
    case ReadHead => fromHead
    case ReadFirstNext(first, _) => if Load(s, first).next == None then 1 else if s.head == first then 3 else 2 + fromHead
    case HeadCas(first, _, _) => if s.head == first then 2 else 1 + fromHead
    case ReadData(_) => 1
    case OutputDone(_) => 0
  }

  /** Once `tail` has been helped it points to the last node. */
  lemma HelpedTail(s: State, cur: Addr, next: Addr)
    requires Chain(s) && Ends(s) && Load(s, cur).next == Some(next) && s.tail == cur
    ensures !Lags(SwingTail(s, cur, next))
  {
    assert s.tails + 1 < |s.linked|;
    NextOf(s, s.tails);
  }

  lemma LinkCloser(s: State, node: Addr, cur: Addr, since: nat)
    requires Chain(s) && Ends(s) && PcOk(s, LinkCas(node, cur, since))
    ensures var pc := LinkCas(node, cur, since); StepsLeft(Memory(s, pc), NextPc(s, pc)) < StepsLeft(s, pc)
  {
    if Load(s, cur).next == None {
      LinkChain(s, cur, node);
    }
  }

  lemma HelpCloser(s: State, node: Addr, cur: Addr, next: Addr, since: nat)
    requires Chain(s) && Ends(s) && PcOk(s, HelpCas(node, cur, next, since))
    ensures var pc := HelpCas(node, cur, next, since); StepsLeft(Memory(s, pc), NextPc(s, pc)) < StepsLeft(s, pc)
  {
    if s.tail == cur {
      HelpedTail(s, cur, next);
    }
  }

  /** The other steps: they change neither the chain nor `tail`, or leave one step to go. */
  lemma OtherCloser(s: State, pc: Pc)
    requires PcOk(s, pc) && !pc.Idle? && !pc.InputDone? && !pc.OutputDone? && !pc.LinkCas? && !pc.HelpCas?
    ensures StepsLeft(Memory(s, pc), NextPc(s, pc)) < StepsLeft(s, pc)
  {
    hide Reached, Pending, Moved;
  }

  /** Every silent step of a thread brings it closer to its return, as long as no other thread moves. */
  lemma StepCloser(s: State, p: Tid)
    requires Inv(s) && !s.PcOf(p).Idle? && EventOf(s, Step(p)).Silent?
    ensures var t := Apply(s, Step(p)); StepsLeft(t, t.PcOf(p)) < StepsLeft(s, s.PcOf(p)) && !t.PcOf(p).Idle?
  {
    hide Chain, Ends, PcOk, StepsLeft, Memory;
    var pc := s.PcOf(p);
    assert PcOk(s, s.pcs[p]);
    match pc {
      case LinkCas(node, cur, since) => LinkCloser(s, node, cur, since);
      case HelpCas(node, cur, next, since) => HelpCloser(s, node, cur, next, since);
      case _ => OtherCloser(s, pc);
    }
    StepsOfMemory(Memory(s, pc), p, NextPc(s, pc));
  }

  lemma StepsOfMemory(u: State, p: Tid, pc: Pc)
    ensures StepsLeft(u.At(p, pc), pc) == StepsLeft(u, pc) && u.At(p, pc).PcOf(p) == pc
  {
  }

  /** The abstract queue owes a thread the same before and after a silent step of it. */
  lemma SilentKeepsDue(s: State, p: Tid)
    requires Inv(s) && !s.PcOf(p).Idle? && EventOf(s, Step(p)).Silent?
    ensures var t := Apply(s, Step(p));
            !Abs(s).PcOf(p).SpecIdle? && !Abs(t).PcOf(p).SpecIdle? && Due(Abs(t), p) == Due(Abs(s), p) && QueueDue(Abs(t), p) == QueueDue(Abs(s), p)
  {
    hide Inv, Abs, Apply;
    MoveRefines(s, Step(p));
    AbsPcOf(s, p);
    AbsPcOf(Apply(s, Step(p)), p);
  }

  /** A step that shows something is the return owed. */
  lemma ReturnIsDue(s: State, p: Tid)
    requires Inv(s) && !s.PcOf(p).Idle? && !EventOf(s, Step(p)).Silent?
    ensures !Abs(s).PcOf(p).SpecIdle? && EventOf(s, Step(p)) == Due(Abs(s), p)
    ensures Abs(Apply(s, Step(p))).queue == QueueDue(Abs(s), p) && Apply(s, Step(p)).PcOf(p).Idle?
  {
    hide Inv, Abs;
    MoveRefines(s, Step(p));
    AbsPcOf(s, p);
  }

  lemma {:induction false} ReturnsInTime(s: State, p: Tid, n: nat)
    requires Inv(s) && !s.PcOf(p).Idle? && StepsLeft(s, s.PcOf(p)) <= n
    ensures !Abs(s).PcOf(p).SpecIdle? && ReturnsWithin(s, p, n, Due(Abs(s), p), QueueDue(Abs(s), p))
    decreases n
  {
    hide Inv, Abs, Apply, StepsLeft;
    if EventOf(s, Step(p)).Silent? {
      var t := Apply(s, Step(p));
      MoveInv(s, Step(p));
      StepCloser(s, p);
      SilentKeepsDue(s, p);
      ReturnsInTime(t, p, n - 1);
    } else {
      ReturnIsDue(s, p);
    }
  }

  /**
   In every reachable state, a thread with a pending operation that runs alone returns with its twelfth step at the
   latest.  An `input` has then appended its value, unless it had done so before; an `output` that had not taken
   effect yet returns the front of the queue, or nothing exactly if the queue was empty.
   */
  lemma ReturnsAlone(ms: seq<Move>, p: Tid)
    requires !Exec(ms).PcOf(p).Idle?
    ensures var a := Abs(Exec(ms)); !a.PcOf(p).SpecIdle? && ReturnsWithin(Exec(ms), p, 11, Due(a, p), QueueDue(a, p))
  {
    hide Inv, Abs, Exec;
    ReachableInv(ms);
    ReturnsInTime(Exec(ms), p, 11);
  }

  /** A call made when nobody else is moving: the value goes to the back, or the front value comes out. */
  lemma CallsReturn(ms: seq<Move>, p: Tid, data: string)
    requires Exec(ms).PcOf(p).Idle?
    ensures var q := Abs(Exec(ms)).queue;
            && ReturnsWithin(Apply(Exec(ms), CallInput(p, data)), p, 11, InputReturned(p), q + [data])
            && ReturnsWithin(Apply(Exec(ms), CallOutput(p)), p, 11,
                             OutputReturned(p, if q == [] then None else Some(q[0])), if q == [] then [] else q[1..])
  {
    hide Inv, Abs, Apply, Exec;
    var s := Exec(ms);
    ReachableInv(ms);
    CalledDue(s, p, data);
    MoveInv(s, CallInput(p, data));
    MoveInv(s, CallOutput(p));
    ReturnsInTime(Apply(s, CallInput(p, data)), p, 11);
    ReturnsInTime(Apply(s, CallOutput(p)), p, 11);
  }

  lemma CalledDue(s: State, p: Tid, data: string)
    requires Inv(s) && s.PcOf(p).Idle?
    ensures var t := Apply(s, CallInput(p, data));
            !t.PcOf(p).Idle? && StepsLeft(t, t.PcOf(p)) <= 11 && Abs(t).PcOf(p) == Inserting(data) && Abs(t).queue == Abs(s).queue
    ensures var t := Apply(s, CallOutput(p));
            !t.PcOf(p).Idle? && StepsLeft(t, t.PcOf(p)) <= 11 && Abs(t).PcOf(p) == Removing && Abs(t).queue == Abs(s).queue
  {
    hide Inv, Abs, StepsLeft;
    MoveRefines(s, CallInput(p, data));
    MoveRefines(s, CallOutput(p));
    FewSteps(Apply(s, CallInput(p, data)), ReadTail(|s.heap|));
    FewSteps(Apply(s, CallOutput(p)), ReadHead);
  }

  lemma FewSteps(s: State, pc: Pc)
    ensures StepsLeft(s, pc) <= 11
  {
  }

  // ---------------------------------------------------------------------------------------------
  // A thread among others: lock freedom
  // ---------------------------------------------------------------------------------------------

  /** The operation of a thread at `pc` is pending and has not taken effect. */
  predicate Trying(pc: Pc) {
    match pc
    case ReadTail(_) => true
    case ReadNext(_, _, _) => true
    case LinkCas(_, _, _) => true
    case RereadNext(_, _, _) => true
    case HelpCas(_, _, _, _) => true
    case ReadHead => true
    case ReadFirstNext(_, _) => true
    case HeadCas(_, _, _) => true
    case _ => false
  }

  /** Four for each step of progress that the current attempt began with, and one for each step of the attempt. */
  function Effort(s: State, pc: Pc): nat {
    match pc
    case ReadNext(_, _, since) => 4 * since + 1
    case LinkCas(_, _, since) => 4 * since + 2
    case RereadNext(_, _, since) => 4 * since + 2
    case HelpCas(_, _, _, since) => 4 * since + 3
    case ReadFirstNext(_, since) => 4 * since + 1
    case HeadCas(_, _, since) => 4 * since + 2
    case _ => 4 * s.Progress()
  }

  lemma EffortBound(s: State, p: Tid)
    requires Inv(s) && Trying(s.PcOf(p))
    ensures Effort(s, s.PcOf(p)) <= 4 * s.Progress() + 3
  {
    assert PcOk(s, s.pcs[p]);
  }

  lemma OwnStepCosts(s: State, p: Tid)
    requires Inv(s) && Trying(s.PcOf(p)) && Trying(Apply(s, Step(p)).PcOf(p))
    ensures var t := Apply(s, Step(p)); Effort(t, t.PcOf(p)) >= Effort(s, s.PcOf(p)) + 1
  {
    hide Chain, Ends, Grows, Reached, Pending;
    assert PcOk(s, s.pcs[p]);
    MoveGrows(s, Step(p));
    ProgressGrows(s, Apply(s, Step(p)));
  }

  lemma ProgressGrows(s: State, t: State)
    requires Grows(s, t)
    ensures s.Progress() <= t.Progress()
  {
  }

  lemma OtherMoveCosts(s: State, m: Move, p: Tid)
    requires Inv(s) && Trying(s.PcOf(p)) && m != Step(p)
    ensures var t := Apply(s, m); t.PcOf(p) == s.PcOf(p) && Effort(t, t.PcOf(p)) >= Effort(s, s.PcOf(p))
  {
    hide Inv, Grows, Trying;
    MoveGrows(s, m);
    ProgressGrows(s, Apply(s, m));
    OtherKeepsPc(s, m, p);
  }

  lemma OtherKeepsPc(s: State, m: Move, p: Tid)
    requires Trying(s.PcOf(p)) && m != Step(p)
    ensures Apply(s, m).PcOf(p) == s.PcOf(p)
  {
  }

  /** The steps that `p` takes after the first `n` moves. */
  function OwnSteps(ms: seq<Move>, n: nat, p: Tid): nat {
    if |ms| <= n then 0 else OwnSteps(ms[..|ms| - 1], n, p) + if ms[|ms| - 1] == Step(p) then 1 else 0
  }

  /** From the moment after `n` moves on, the operation of `p` never takes effect. */
  ghost predicate KeepsTrying(ms: seq<Move>, n: nat, p: Tid) {
    forall k :: n <= k <= |ms| ==> Trying(Exec(ms[..k]).PcOf(p))
  }

  lemma {:induction false} StepsCost(ms: seq<Move>, n: nat, p: Tid)
    requires n <= |ms| && KeepsTrying(ms, n, p)
    ensures var s, t := Exec(ms[..n]), Exec(ms); Effort(t, t.PcOf(p)) >= Effort(s, s.PcOf(p)) + OwnSteps(ms, n, p)
    decreases |ms|
  {
    hide Inv, Trying, Effort, Apply;
    assert ms[..|ms|] == ms && Trying(Exec(ms[..|ms|]).PcOf(p));
    if n < |ms| {
      var k := |ms| - 1;
      var s := Exec(ms[..k]);
      forall i | n <= i <= k
        ensures Trying(Exec(ms[..k][..i]).PcOf(p))
      {
        assert ms[..k][..i] == ms[..i];
      }
      StepsCost(ms[..k], n, p);
      assert ms[..k][..n] == ms[..n];
      ReachableInv(ms[..k]);
      if ms[k] == Step(p) {
        OwnStepCosts(s, p);
      } else {
        OtherMoveCosts(s, ms[k], p);
      }
    }
  }

  /** Values that were linked and values that were taken out between two moments of a run. */
  function Inputs(ms: seq<Move>, n: nat): int
    requires n <= |ms|
  {
    |Exec(ms).linked| - |Exec(ms[..n]).linked|
  }

  function Outputs(ms: seq<Move>, n: nat): int
    requires n <= |ms|
  {
    Exec(ms).heads - Exec(ms[..n]).heads
  }

  lemma TailsFollow(ms: seq<Move>, n: nat)
    requires n <= |ms|
    ensures Exec(ms).Progress() - Exec(ms[..n]).Progress() <= 2 * Inputs(ms, n) + Outputs(ms, n) + 1
  {
    hide Chain, Threads;
    ReachableInv(ms);
    ReachableInv(ms[..n]);
  }

  /**
   Lock freedom, in every interleaving: a thread that starts its loop at some moment and has not taken effect since is
   held up by operations of other threads that did; it makes at most eight steps for each `input` that took
   effect meanwhile, four for each `output`, and seven more.
   */
  lemma HeldUpByOthers(ms: seq<Move>, n: nat, p: Tid)
    requires n <= |ms| && (Exec(ms[..n]).PcOf(p).ReadTail? || Exec(ms[..n]).PcOf(p).ReadHead?) && KeepsTrying(ms, n, p)
    ensures OwnSteps(ms, n, p) <= 8 * Inputs(ms, n) + 4 * Outputs(ms, n) + 7
  {
    hide Inv, Trying, Inputs, Outputs, Apply;
    assert ms[..|ms|] == ms && Trying(Exec(ms[..|ms|]).PcOf(p));
    StepsCost(ms, n, p);
    TailsFollow(ms, n);
    ReachableInv(ms);
    EffortBound(Exec(ms), p);
  }
}
