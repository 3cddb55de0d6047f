/**
 What a call of `AddStream` and the arrival of a response come to (external/brpc/922.patch.new:3472-3548, 3594-3599): in
 any interleaving a call fails only if it has seen every bucket empty, and a call or a removal that nobody
 interferes with ends as the sequential code does.
 */
module StreamProgress {
  import opened Arith
  import opened StreamIds
  import opened StreamTable
  import opened Wrappers

  // ---------------------------------------------------------------------------------------------
  // Giving up, in any interleaving
  // ---------------------------------------------------------------------------------------------

  /** The number of moves made when the pending call of `p` had just begun. */
  function CallStart(limit: nat, mvs: seq<Move>, p: Tid): (n: nat)
    ensures n <= |mvs|
    decreases |mvs|
  {
    if mvs == [] || Exec(limit, mvs[..|mvs| - 1]).At(p).Idle? then |mvs| else CallStart(limit, mvs[..|mvs| - 1], p)
  }

  /** At some moment since the call of `p` began, bucket `j` had no free bit. */
  ghost predicate WasEmpty(limit: nat, mvs: seq<Move>, p: Tid, j: nat) {
    exists n :: CallStart(limit, mvs, p) <= n <= |mvs| && Exec(limit, mvs[..n]).mem.Word(j) == {}
  }

  /** Going round from `begin`, bucket `j` comes before bucket `i`. */
  predicate Passed(begin: nat, i: nat, j: nat) {
    if begin <= i then begin <= j < i else j >= begin || j < i
  }

  lemma {:induction false} BucketsStay(limit: nat, mvs: seq<Move>)
    ensures |Exec(limit, mvs).mem.buckets| == Buckets(limit)
  {
    hide LowBits;
    if mvs != [] {
      BucketsStay(limit, mvs[..|mvs| - 1]);
    }
  }

  lemma WasEmptyStays(limit: nat, mvs: seq<Move>, mv: Move, p: Tid, j: nat)
    requires WasEmpty(limit, mvs, p, j) && !Exec(limit, mvs).At(p).Idle?
    ensures WasEmpty(limit, mvs + [mv], p, j)
  {
    var n :| CallStart(limit, mvs, p) <= n <= |mvs| && Exec(limit, mvs[..n]).mem.Word(j) == {};
    var all := mvs + [mv];
    assert all[..|all| - 1] == mvs && all[..n] == mvs[..n];
  }

  lemma EmptyNow(limit: nat, mvs: seq<Move>, p: Tid, j: nat)
    requires Exec(limit, mvs).mem.Word(j) == {}
    ensures WasEmpty(limit, mvs, p, j)
  {
    assert mvs[..|mvs|] == mvs;
  }

  /** Every bucket that the scan of `p` has passed was empty at some moment, and all buckets if it has given up. */
  ghost predicate Swept(limit: nat, mvs: seq<Move>, p: Tid) {
    var c := Exec(limit, mvs).At(p);
    && (c.Scan? || c.Claim? ==> forall j :: 0 <= j < Buckets(limit) && Passed(c.begin, c.i, j) ==> WasEmpty(limit, mvs, p, j))
    && (c == Return(-1) ==> forall j :: 0 <= j < Buckets(limit) ==> WasEmpty(limit, mvs, p, j))
  }

  /** No free bit was found in the word of bucket `i`, so it has none. */
  lemma NoBit(m: Mem, i: nat)
    requires Shape(m) && i < |m.buckets| && LowestBit(m.Word(i)).None?
    ensures m.Word(i) == {}
  {
    assert forall k: nat :: k in m.buckets[i] ==> k < BITS;
  }

  lemma PassedNext(begin: nat, i: nat, n: nat, j: nat)
    requires begin < n && i < n && j < n
    ensures (i + 1) % n != begin && Passed(begin, (i + 1) % n, j) ==> Passed(begin, i, j) || j == i
    ensures (i + 1) % n == begin ==> Passed(begin, i, j) || j == i
  {
    StepRound(i, n);
  }

  /** What the scan of `p` has passed stays passed, and the bucket it stands at is passed if it is empty. */
  lemma PassedStays(limit: nat, mvs: seq<Move>, p: Tid, j: nat)
    requires Swept(limit, mvs, p) && Exec(limit, mvs).At(p).Scan? && j < Buckets(limit)
    requires var c := Exec(limit, mvs).At(p); Passed(c.begin, c.i, j) || (j == c.i && Exec(limit, mvs).mem.Word(c.i) == {})
    ensures WasEmpty(limit, mvs + [Step(p)], p, j)
  {
    hide WasEmpty, Passed, Exec;
    if !Passed(Exec(limit, mvs).At(p).begin, Exec(limit, mvs).At(p).i, j) {
      EmptyNow(limit, mvs, p, j);
    }
    WasEmptyStays(limit, mvs, Step(p), p, j);
  }

  /** A scanning step of `p`, from a bucket without a free bit to the next. */
  lemma SweptOn(limit: nat, mvs: seq<Move>, p: Tid)
    requires PermittedLimit(limit) && Swept(limit, mvs, p) && Exec(limit, mvs).At(p).Scan?
    ensures Swept(limit, mvs + [Step(p)], p)
  {
    hide WasEmpty, Passed, Apply, LowestBit;
    var s, all, n := Exec(limit, mvs), mvs + [Step(p)], Buckets(limit);
    assert all[..|all| - 1] == mvs;
    ScanStep(limit, mvs, p);
    var c, d := s.At(p), Apply(s, Step(p)).At(p);
    forall j | 0 <= j < n && (d == Return(-1) || Passed(c.begin, d.i, j))
      ensures WasEmpty(limit, all, p, j)
    {
      PassedNext(c.begin, c.i, n, j);
      PassedStays(limit, mvs, p, j);
    }
  }

  /** Where a scanning step leads. */
  lemma ScanStep(limit: nat, mvs: seq<Move>, p: Tid)
    requires PermittedLimit(limit) && Exec(limit, mvs).At(p).Scan?
    ensures var s := Exec(limit, mvs);
            var c, t, n := s.At(p), Apply(s, Step(p)).At(p), Buckets(limit);
            && c.begin < n && c.i < n
            && (LowestBit(s.mem.Word(c.i)).Some? ==> t.Claim? && t.begin == c.begin && t.i == c.i)
            && (LowestBit(s.mem.Word(c.i)).None? ==> s.mem.Word(c.i) == {})
            && (LowestBit(s.mem.Word(c.i)).None? ==>
                 if (c.i + 1) % n == c.begin then t == Return(-1) else t.Scan? && t.begin == c.begin && t.i == (c.i + 1) % n)
  {
    hide LowestBit, Conserved, Counted, Exclusive;
    ReachableInv(limit, mvs);
    BucketsStay(limit, mvs);
    var s := Exec(limit, mvs);
    assert CallerOk(s.mem, s.callers[p]);
    if LowestBit(s.mem.Word(s.At(p).i)).None? {
      NoBit(s.mem, s.At(p).i);
    }
  }

  /** Any other move leaves the scan of `p` where it is, ends it without giving up, or begins it. */
  lemma OtherSteps(s: State, mv: Move, p: Tid)
    requires |s.mem.buckets| > 0 && !(mv == Step(p) && s.At(p).Scan?)
    ensures var c, d := s.At(p), Apply(s, mv).At(p);
            || (d == c && !c.Idle?)
            || (c.Claim? && d.Scan? && d.begin == c.begin && d.i == c.i)
            || (d.Scan? && d.begin == d.i)
            || (!d.Scan? && !d.Claim? && (d == Return(-1) ==> c == d))
  {
  }

  lemma SweptStays(limit: nat, mvs: seq<Move>, mv: Move, p: Tid)
    requires PermittedLimit(limit) && Swept(limit, mvs, p) && !(mv == Step(p) && Exec(limit, mvs).At(p).Scan?)
    ensures Swept(limit, mvs + [mv], p)
  {
    hide WasEmpty, Apply;
    var s, all := Exec(limit, mvs), mvs + [mv];
    assert all[..|all| - 1] == mvs;
    BucketsStay(limit, mvs);
    OtherSteps(s, mv, p);
    forall j | 0 <= j < Buckets(limit) && WasEmpty(limit, mvs, p, j) && !s.At(p).Idle?
      ensures WasEmpty(limit, all, p, j)
    {
      WasEmptyStays(limit, mvs, mv, p, j);
    }
  }

  lemma {:induction false} AlwaysSwept(limit: nat, mvs: seq<Move>, p: Tid)
    requires PermittedLimit(limit)
    ensures Swept(limit, mvs, p)
  {
    hide Swept, Apply;
    if mvs == [] {
      NoSweep(limit, p);
    } else {
      var k := |mvs| - 1;
      AlwaysSwept(limit, mvs[..k], p);
      assert mvs[..k] + [mvs[k]] == mvs;
      if mvs[k] == Step(p) && Exec(limit, mvs[..k]).At(p).Scan? {
        SweptOn(limit, mvs[..k], p);
      } else {
        SweptStays(limit, mvs[..k], mvs[k], p);
      }
    }
  }

  lemma NoSweep(limit: nat, p: Tid)
    ensures Swept(limit, [], p)
  {
  }

  /**
   In every interleaving: when a call has given up, each bucket had no free bit at some moment between the beginning of
   the call and now.
   */
  lemma GivesUpOnlyIfEmpty(limit: nat, mvs: seq<Move>, p: Tid, j: nat)
    requires PermittedLimit(limit) && Exec(limit, mvs).At(p) == Return(-1) && j < Buckets(limit)
    ensures exists n :: CallStart(limit, mvs, p) <= n <= |mvs| && Exec(limit, mvs[..n]).mem.Word(j) == {}
  {
    AlwaysSwept(limit, mvs, p);
    assert WasEmpty(limit, mvs, p, j);
  }

  // ---------------------------------------------------------------------------------------------
  // A call that nobody interferes with
  // ---------------------------------------------------------------------------------------------

  /** The state when the call of `p`, running alone, has its result, or after `n` steps. */
  function Alone(s: State, p: Tid, n: nat): State
    decreases n
  {
    if n == 0 || s.At(p).Return? then s else Alone(Apply(s, Step(p)), p, n - 1)
  }

  /** How many buckets the scan has yet to meet after bucket `i`. */
  function BucketsLeft(n: nat, begin: nat, i: nat): int {
    if i < begin then begin - 1 - i else n - 1 - i + begin
  }

  /** The steps a call has left, running alone. */
  function StepsLeft(m: Mem, c: Caller): int {
    match c
    case Begin(_) => |m.buckets| + 5
    case Scan(_, begin, i) => BucketsLeft(|m.buckets|, begin, i) + 5
    case Claim(_, begin, i, word, _) => if m.Word(i) == word then 4 else BucketsLeft(|m.buckets|, begin, i) + 6
    case Check(_, _) => 3
    case Store(_, _) => 2
    case Count(_) => 1
    case _ => 0
  }

  lemma StepCloser(m: Mem, c: Caller)
    requires Shape(m) && FreeMeansEmpty(m) && CallerOk(m, c) && !c.Idle? && !c.Return?
    ensures 0 <= StepsLeft(CallerMem(m, c), CallerPc(m, c)) < StepsLeft(m, c) <= |m.buckets| + 6 && !CallerPc(m, c).Idle?
  {
    hide LowestBit;
    if c.Scan? {
      StepRound(c.i, |m.buckets|);
    }
  }

  /** Wherever a pending call stands, running alone it has a result after at most as many steps as there are buckets and six. */
  lemma {:induction false} ResultsAlone(s: State, p: Tid, n: nat)
    requires Inv(s) && !s.At(p).Idle? && StepsLeft(s.mem, s.At(p)) <= n
    ensures Alone(s, p, n).At(p).Return?
    decreases n
  {
    hide StepsLeft, CallerPc, CallerMem, Conserved, Counted, Exclusive, ParserOk;
    assert CallerOk(s.mem, s.callers[p]);
    if !s.At(p).Return? {
      StepCloser(s.mem, s.At(p));
      MoveInv(s, Step(p));
      ResultsAlone(Apply(s, Step(p)), p, n - 1);
    }
  }

  lemma EveryCallReturns(limit: nat, mvs: seq<Move>, p: Tid)
    requires PermittedLimit(limit) && !Exec(limit, mvs).At(p).Idle?
    ensures Alone(Exec(limit, mvs), p, Buckets(limit) + 6).At(p).Return?
  {
    hide Inv, Exec, StepsLeft;
    ReachableInv(limit, mvs);
    BucketsStay(limit, mvs);
    FewSteps(Exec(limit, mvs), p);
    ResultsAlone(Exec(limit, mvs), p, Buckets(limit) + 6);
  }

  lemma FewSteps(s: State, p: Tid)
    requires Inv(s) && !s.At(p).Idle?
    ensures StepsLeft(s.mem, s.At(p)) <= |s.mem.buckets| + 6
  {
    assert CallerOk(s.mem, s.callers[p]);
  }

  /** `s` with its memory and the program counter of `p` replaced. */
  function Put(s: State, p: Tid, m: Mem, c: Caller): State {
    State(m, s.callers[p := c], s.parser)
  }

  lemma StepPut(s: State, p: Tid, m: Mem, c: Caller)
    requires !c.Idle?
    ensures Apply(Put(s, p, m, c), Step(p)) == Put(s, p, CallerMem(m, c), CallerPc(m, c))
  {
    assert s.callers[p := c][p := CallerPc(m, c)] == s.callers[p := CallerPc(m, c)];
  }

  /** The memory after `id` has been taken for the correlation id `cid`. */
  function Taken(m: Mem, id: nat, cid: Cid): Mem {
    var n := Register(ClearBit(m, id / BITS, id % BITS), id, cid);
    n.(count := n.count + 1)
  }

  lemma AlonePut(s: State, p: Tid, m: Mem, c: Caller, n: nat)
    requires !c.Idle? && !c.Return? && n > 0
    ensures Alone(Put(s, p, m, c), p, n) == Alone(Put(s, p, CallerMem(m, c), CallerPc(m, c)), p, n - 1)
  {
    hide Put, Apply, CallerMem, CallerPc;
    PutAt(s, p, m, c);
    StepPut(s, p, m, c);
  }

  lemma ReturnPut(s: State, p: Tid, m: Mem, r: int, n: nat)
    ensures Alone(Put(s, p, m, Return(r)), p, n) == Put(s, p, m, Return(r))
  {
    PutAt(s, p, m, Return(r));
  }

  /** The four steps of a claim that meets no interference. */
  lemma ClaimSteps(m: Mem, c: Caller)
    requires c.Claim? && m.Word(c.i) == c.word && c.bit < BITS && m.Slot(BITS * c.i + c.bit) == INVALID
    ensures var id := BITS * c.i + c.bit;
            var n := ClearBit(m, id / BITS, id % BITS);
            && CallerMem(m, c) == n && CallerPc(m, c) == Check(c.cid, id)
            && CallerMem(n, Check(c.cid, id)) == n && CallerPc(n, Check(c.cid, id)) == Store(c.cid, id)
  {
    var id := BITS * c.i + c.bit;
    assert id / BITS == c.i && id % BITS == c.bit;
  }

  /** A claim that meets no interference goes through, four steps on. */
  lemma ClaimAlone(s: State, p: Tid, m: Mem, c: Caller, n: nat)
    requires c.Claim? && m.Word(c.i) == c.word && c.bit < BITS && m.Slot(BITS * c.i + c.bit) == INVALID && n >= 4
    ensures var id := BITS * c.i + c.bit; Alone(Put(s, p, m, c), p, n) == Put(s, p, Taken(m, id, c.cid), Return(id))
  {
    hide Put, Alone, ClearBit, Register, m.Word, m.Slot;
    var id := BITS * c.i + c.bit;
    ClaimSteps(m, c);
    var m1 := ClearBit(m, id / BITS, id % BITS);
    var m2 := Register(m1, id, c.cid);
    AlonePut(s, p, m, c, n);
    AlonePut(s, p, m1, Check(c.cid, id), n - 1);
    AlonePut(s, p, m1, Store(c.cid, id), n - 2);
    AlonePut(s, p, m2, Count(id), n - 3);
    ReturnPut(s, p, Taken(m, id, c.cid), id, n - 4);
  }

  lemma PutAt(s: State, p: Tid, m: Mem, c: Caller)
    ensures Put(s, p, m, c).At(p) == c
  {
  }

  /** `id` is the lowest free one of the first bucket that has one, going round from `begin`. */
  ghost predicate FirstFree(m: Mem, begin: nat, id: nat)
    requires begin < |m.buckets|
  {
    && id < |m.slots| && m.Free(id) && (forall k :: 0 <= k < id % BITS ==> k !in m.Word(id / BITS))
    && exists d :: 0 <= d < |m.buckets| && EmptyRun(m.buckets, begin, d) && id / BITS == Around(begin, d, |m.buckets|)
  }

  /** What a call that begins its scan at bucket `begin` comes to. */
  ghost predicate Answered(s: State, p: Tid, m: Mem, cid: Cid, begin: nat, t: State)
    requires begin < |m.buckets|
  {
    if forall id :: 0 <= id < |m.slots| ==> !m.Free(id) then t == Put(s, p, m, Return(-1))
    else t.At(p).Return? && t.At(p).result >= 0
         && FirstFree(m, begin, t.At(p).result) && t == Put(s, p, Taken(m, t.At(p).result, cid), t.At(p))
  }

  lemma {:induction false} ScanAlone(s: State, p: Tid, m: Mem, cid: Cid, begin: nat, d: nat, n: nat)
    requires Shape(m) && FreeMeansEmpty(m) && begin < |m.buckets| && d < |m.buckets| && EmptyRun(m.buckets, begin, d)
    requires n >= |m.buckets| - d + 4
    ensures Answered(s, p, m, cid, begin, Alone(Put(s, p, m, Scan(cid, begin, Around(begin, d, |m.buckets|))), p, n))
    decreases |m.buckets| - d
  {
    hide Put, Alone, EmptyRun, LowestBit, Answered;
    var i := Around(begin, d, |m.buckets|);
    var c := Scan(cid, begin, i);
    AlonePut(s, p, m, c, n);
    match LowestBit(m.Word(i)) {
      case Some(bit) =>
        FoundHere(m, begin, d, bit);
        var id := BITS * i + bit;
        ClaimAlone(s, p, m, Claim(cid, begin, i, m.Word(i), bit), n - 1);
        FoundAnswers(s, p, m, cid, begin, id);
      case None =>
        NoBit(m, i);
        StepRound(i, |m.buckets|);
        RunGrows(m, begin, d);
        if d + 1 == |m.buckets| {
          AllEmpty(m, begin);
          ReturnPut(s, p, m, -1, n - 1);
          NoneAnswers(s, p, m, cid, begin);
        } else {
          ScanAlone(s, p, m, cid, begin, d + 1, n - 1);
        }
    }
  }

  lemma NoneAnswers(s: State, p: Tid, m: Mem, cid: Cid, begin: nat)
    requires begin < |m.buckets| && forall id :: 0 <= id < |m.slots| ==> !m.Free(id)
    ensures Answered(s, p, m, cid, begin, Put(s, p, m, Return(-1)))
  {
  }

  lemma FoundAnswers(s: State, p: Tid, m: Mem, cid: Cid, begin: nat, id: nat)
    requires begin < |m.buckets| && FirstFree(m, begin, id)
    ensures Answered(s, p, m, cid, begin, Put(s, p, Taken(m, id, cid), Return(id)))
  {
    hide Taken;
  }

  lemma RunGrows(m: Mem, begin: nat, d: nat)
    requires begin < |m.buckets| && d < |m.buckets| && EmptyRun(m.buckets, begin, d) && m.buckets[Around(begin, d, |m.buckets|)] == {}
    ensures EmptyRun(m.buckets, begin, d + 1)
  {
  }

  lemma FoundHere(m: Mem, begin: nat, d: nat, bit: nat)
    requires Shape(m) && FreeMeansEmpty(m) && begin < |m.buckets| && d < |m.buckets| && EmptyRun(m.buckets, begin, d)
    requires LowestBit(m.Word(Around(begin, d, |m.buckets|))) == Some(bit)
    ensures var id := BITS * Around(begin, d, |m.buckets|) + bit; FirstFree(m, begin, id) && m.Slot(id) == INVALID
  {
    var i := Around(begin, d, |m.buckets|);
    var id := BITS * i + bit;
    assert id / BITS == i && id % BITS == bit && m.Free(id);
  }

  /**
   A call that nobody interferes with, in every reachable state: it fails if and only if no id is free, and then only
   the counter has moved; otherwise it takes the lowest free id of the first bucket that has one, going round from
   the bucket the counter points at, and registers the stream there.
   */
  lemma AddStreamAlone(limit: nat, mvs: seq<Move>, p: Tid, cid: Cid)
    requires PermittedLimit(limit) && Exec(limit, mvs).At(p).Idle? && cid != INVALID
    ensures var s := Exec(limit, mvs);
            var m := s.mem.(index := (s.mem.index + Stride(|s.mem.buckets|)) % COUNTER_LIMIT);
            && |m.buckets| == Buckets(limit)
            && Answered(s, p, m, cid, s.mem.index % |m.buckets|, Alone(Apply(s, AddStream(p, cid)), p, Buckets(limit) + 5))
  {
    hide Exec, Alone, Answered, EmptyRun, Inv;
    ReachableInv(limit, mvs);
    BucketsStay(limit, mvs);
    var s := Exec(limit, mvs);
    InvShape(s);
    var n := |s.mem.buckets|;
    var m := s.mem.(index := (s.mem.index + Stride(n)) % COUNTER_LIMIT);
    var begin := s.mem.index % n;
    AlonePut(s, p, s.mem, Begin(cid), n + 5);
    SameBits(s.mem, m, begin);
    ScanAlone(s, p, m, cid, begin, 0, n + 4);
  }

  lemma InvShape(s: State)
    requires Inv(s)
    ensures Shape(s.mem) && FreeMeansEmpty(s.mem)
  {
  }

  lemma SameBits(m: Mem, n: Mem, begin: nat)
    requires Shape(m) && FreeMeansEmpty(m) && n.buckets == m.buckets && n.slots == m.slots && begin < |m.buckets|
    ensures Shape(n) && FreeMeansEmpty(n) && EmptyRun(n.buckets, begin, 0) && Around(begin, 0, |n.buckets|) == begin
  {
    assert forall id: nat :: n.Free(id) == m.Free(id);
  }

  // ---------------------------------------------------------------------------------------------
  // A response that nobody interferes with
  // ---------------------------------------------------------------------------------------------

  /** The state when the parser, running alone, is done with the frame or has closed the connection, or after `n` steps. */
  function ParserAlone(s: State, n: nat): State
    decreases n
  {
    if n == 0 || s.parser.Listening? || s.parser.Closed? then s else ParserAlone(Apply(s, ParserStep), n - 1)
  }

  /** The memory after the stream `id` with correlation id `cid` has been removed and delivered. */
  function Removed(m: Mem, id: nat, cid: Cid): Mem {
    var n := SetBit(Reset(m, id), id / BITS, id % BITS);
    n.(count := n.count - 1, delivered := n.delivered + multiset{(id, cid)})
  }

  /**
   A response on user stream `id`: if a request is registered there it is delivered, its slot emptied and its id free
   again; otherwise the connection is closed and nothing changed.
   */
  lemma ResponseAlone(limit: nat, mvs: seq<Move>, id: int)
    requires PermittedLimit(limit) && Exec(limit, mvs).parser.Listening? && id < MAX_STREAMS
    ensures var s := Exec(limit, mvs);
            ParserAlone(Apply(s, Arrive(id)), 7)
            == if 0 <= id < |s.mem.slots| && !s.mem.Free(id) && s.mem.Slot(id) != INVALID
               then s.(mem := Removed(s.mem, id, s.mem.Slot(id)), parser := Listening)
               else s.(parser := Closed)
  {
    hide Exec, Inv;
    ReachableInv(limit, mvs);
    var s := Exec(limit, mvs);
    InvShape(s);
    var t := Apply(s, Arrive(id));
    if 0 <= id < |s.mem.slots| && !s.mem.Free(id) && s.mem.Slot(id) != INVALID {
      RemovedAlone(t, id, s.mem.Slot(id));
    } else {
      RefusedAlone(t, id);
    }
  }

  lemma RefusedAlone(s: State, id: int)
    requires Shape(s.mem) && s.parser == Lookup(id)
    requires !(0 <= id < |s.mem.slots| && !s.mem.Free(id) && s.mem.Slot(id) != INVALID)
    ensures ParserAlone(s, 7) == s.(parser := Closed)
  {
    var t := Apply(s, ParserStep);
    assert ParserAlone(s, 7) == ParserAlone(t, 6);
    if t.parser.ReadSlot? {
      assert Apply(t, ParserStep) == s.(parser := Closed);
    }
  }

  lemma RemovedAlone(s: State, id: nat, cid: Cid)
    requires Shape(s.mem) && s.parser == Lookup(id)
    requires id < |s.mem.slots| && !s.mem.Free(id) && s.mem.slots[id] == cid && cid != INVALID
    ensures ParserAlone(s, 7) == s.(mem := Removed(s.mem, id, cid), parser := Listening)
  {
    hide SetBit, Reset, Shape;
    assert id / BITS < |s.mem.buckets| by { BucketOf(s.mem, id); }
    var m := Reset(s.mem, id);
    assert m.buckets == s.mem.buckets by { ResetKeeps(s.mem, id); }
    var s4 := s.(mem := m, parser := FirstLoad(id, cid));
    FreedAlone(s4, id, cid);
    assert ParserAlone(s, 7) == ParserAlone(s.(parser := ReadSlot(id)), 6);
    assert ParserAlone(s.(parser := ReadSlot(id)), 6) == ParserAlone(s.(parser := Accepted(id, cid)), 5);
    assert ParserAlone(s.(parser := Accepted(id, cid)), 5) == ParserAlone(s.(parser := ResetSlot(id, cid)), 4);
    assert ParserAlone(s.(parser := ResetSlot(id, cid)), 4) == ParserAlone(s4, 3);
  }

  lemma FreedAlone(s: State, id: nat, cid: Cid)
    requires s.parser == FirstLoad(id, cid)
    ensures var n := SetBit(s.mem, id / BITS, id % BITS);
            ParserAlone(s, 3) == s.(mem := n.(count := n.count - 1, delivered := n.delivered + multiset{(id, cid)}), parser := Listening)
  {
    hide SetBit;
    var w := s.mem.Word(id / BITS);
    var n := SetBit(s.mem, id / BITS, id % BITS);
    assert ParserAlone(s, 3) == ParserAlone(s.(parser := FreeCas(id, cid, w)), 2);
    assert ParserAlone(s.(parser := FreeCas(id, cid, w)), 2) == ParserAlone(s.(mem := n, parser := Discount(id, cid)), 1);
  }

  lemma BucketOf(m: Mem, id: nat)
    requires Shape(m) && id < |m.slots|
    ensures id / BITS < |m.buckets|
  {
  }

  lemma ResetKeeps(m: Mem, id: nat)
    ensures Reset(m, id).buckets == m.buckets
  {
  }

  // ---------------------------------------------------------------------------------------------
  // Where the scans begin
  // ---------------------------------------------------------------------------------------------

  /** The last move of the run is the first step of an `AddStream` call. */
  predicate Begins(limit: nat, mvs: seq<Move>) {
    mvs != [] && var mv := mvs[|mvs| - 1]; mv.Step? && Exec(limit, mvs[..|mvs| - 1]).At(mv.p).Begin?
  }

  /** How many calls have made it. */
  function Begun(limit: nat, mvs: seq<Move>): nat {
    if mvs == [] then 0 else Begun(limit, mvs[..|mvs| - 1]) + if Begins(limit, mvs) then 1 else 0
  }

  lemma IndexStep(s: State, mv: Move)
    ensures var t := Apply(s, mv);
            t.mem.index == if mv.Step? && s.At(mv.p).Begin? then (s.mem.index + Stride(|s.mem.buckets|)) % COUNTER_LIMIT else s.mem.index
  {
  }

  lemma {:induction false} IndexCounts(limit: nat, mvs: seq<Move>)
    ensures Exec(limit, mvs).mem.index == Counter(Buckets(limit), 0, Begun(limit, mvs))
  {
    hide Apply, Stride, Buckets;
    if mvs != [] {
      var front := mvs[..|mvs| - 1];
      IndexCounts(limit, front);
      BucketsStay(limit, front);
      IndexStep(Exec(limit, front), mvs[|mvs| - 1]);
    } else {
      assert Init(limit).mem.index == 0;
    }
  }

  lemma {:induction false} CounterAdds(n: nat, counter: nat, a: nat, k: nat)
    ensures Counter(n, counter, a + k) == Counter(n, Counter(n, counter, a), k)
    decreases k
  {
    if k > 0 {
      CounterAdds(n, counter, a, k - 1);
    }
  }

  /** The k-th call of a run, whoever makes it, begins its scan where the round-robin counter says. */
  lemma BeginsAt(limit: nat, mvs: seq<Move>)
    requires PermittedLimit(limit) && Begins(limit, mvs)
    ensures Buckets(limit) > 0
    ensures var c := Exec(limit, mvs).At(mvs[|mvs| - 1].p);
            c.Scan? && c.begin == c.i == StartAfter(Buckets(limit), 0, Begun(limit, mvs) - 1)
  {
    hide Buckets, Stride, Counter;
    StrideExists(limit);
    var front := mvs[..|mvs| - 1];
    BucketsStay(limit, front);
    IndexCounts(limit, front);
  }

  /** Of any n calls that begin one after the other before the counter wraps, no two begin at the same one of the n buckets. */
  lemma NeighboursBeginApart(limit: nat, first: seq<Move>, later: seq<Move>)
    requires PermittedLimit(limit) && first <= later && Begins(limit, first) && Begins(limit, later)
    requires var n, a, b := Buckets(limit), Begun(limit, first), Begun(limit, later);
             a < b < a + n && (b + n) * Stride(n) < COUNTER_LIMIT
    ensures var c, d := Exec(limit, first).At(first[|first| - 1].p), Exec(limit, later).At(later[|later| - 1].p);
            c.Scan? && d.Scan? && c.begin != d.begin
  {
    hide Buckets, Stride, Counter, StartAfter;
    BeginsAt(limit, first);
    BeginsAt(limit, later);
    StartsApart(limit, Begun(limit, first) - 1, Begun(limit, later) - 1);
  }

  lemma StartsApart(limit: nat, a: nat, b: nat)
    requires PermittedLimit(limit)
    requires var n := Buckets(limit); a < b < a + n && (b + 1 + n) * Stride(n) < COUNTER_LIMIT
    ensures var n := Buckets(limit); n > 0 && StartAfter(n, 0, a) != StartAfter(n, 0, b)
  {
    hide Buckets, Stride, Counter;
    StrideExists(limit);
    var n := Buckets(limit);
    var counter := Counter(n, 0, a);
    CounterAdds(n, 0, a, 0);
    CounterAdds(n, 0, a, b - a);
    CounterSoFar(n, a);
    MulMonotone(a + n, b + 1 + n, Stride(n));
    assert (a + n) * Stride(n) == a * Stride(n) + n * Stride(n);
    if StartAfter(n, counter, 0) == StartAfter(n, counter, b - a) {
      StartsOnce(limit, counter, 0, b - a);
    }
  }

  lemma {:induction false} CounterSoFar(n: nat, k: nat)
    requires Stride(n) > 0
    ensures Counter(n, 0, k) <= k * Stride(n)
  {
    hide Stride;
    if k > 0 {
      CounterSoFar(n, k - 1);
      assert k * Stride(n) == (k - 1) * Stride(n) + Stride(n);
    }
  }
}
