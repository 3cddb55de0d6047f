/**
 Stream-id allocation of the CQL parsing context (external/brpc/922.patch.new:3028-3054, 3472-3548), with any
 number of concurrent `AddStream` callers and the one parser thread that looks streams up and removes them.

 A bucket word is modelled as the set of its one-bits: `w & ~(1 << k)` is `w - {k}`, `w | (1 << k)` is
 `w + {k}`.  Every shared read, CAS and fetch-and-add is one step.  `registered` and `delivered` are history
 variables that no step reads.
 */
module StreamIds {
  import opened Arith
  import opened Wrappers

  type Cid = nat
  type Tid = nat

  const BITS: nat := 64
  const INVALID: Cid := 0
  const COUNTER_LIMIT: nat := 0x1_0000_0000_0000_0000
  const MAX_STREAMS: nat := 32640

  /** `CheckMaxCqlStreams`: the stream limits that the flag validator lets through. */
  predicate PermittedLimit(limit: int) {
    64 <= limit <= MAX_STREAMS
  }

  function Buckets(limit: nat): nat {
    limit / BITS
  }

  /** `GetCqlStreamBucketRrStride`. */
  function Stride(n: nat): int {
    if n % 7 != 0 then 7 else if n % 11 != 0 then 11 else if n % 17 != 0 then 17 else -1
  }

  datatype Mem = Mem(
    buckets: seq<set<nat>>, index: nat, slots: seq<Cid>, count: int,
    registered: multiset<(nat, Cid)>, delivered: multiset<(nat, Cid)>)
  {
    function Word(i: nat): set<nat> {
      if i < |buckets| then buckets[i] else {}
    }

    predicate Free(id: nat) {
      id % BITS in Word(id / BITS)
    }

    function Slot(id: nat): Cid {
      if id < |slots| then slots[id] else INVALID
    }
  }

  datatype Caller =
    | Idle
    | Begin(cid: Cid)
    | Scan(cid: Cid, begin: nat, i: nat)
    | Claim(cid: Cid, begin: nat, i: nat, word: set<nat>, bit: nat)
    | Check(cid: Cid, id: nat)
    | Store(cid: Cid, id: nat)
    | Count(id: nat)
    | Return(result: int)
    | CallerAborted

  datatype Parser =
    | Listening
    | Lookup(named: int)
    | ReadSlot(id: nat)
    | Accepted(id: nat, cid: Cid)
    | ResetSlot(id: nat, cid: Cid)
    | FirstLoad(id: nat, cid: Cid)
    | FreeCas(id: nat, cid: Cid, word: set<nat>)
    | Reload(id: nat, cid: Cid)
    | Discount(id: nat, cid: Cid)
    | Closed
    | ParserAborted

  datatype State = State(mem: Mem, callers: map<Tid, Caller>, parser: Parser) {
    function At(p: Tid): Caller {
      if p in callers then callers[p] else Idle
    }
  }

  /** `Arrive(id)`: a frame head for user stream `id` comes in; the server may name any id at any time. */
  datatype Move = AddStream(p: Tid, cid: Cid) | Step(p: Tid) | Arrive(id: int) | ParserStep

  function Init(limit: nat): State {
    State(Mem(seq(Buckets(limit), _ => LowBits(BITS)), 0, seq(Buckets(limit) * BITS, _ => INVALID), 0, multiset{}, multiset{}),
          map[], Listening)
  }

  /** The word whose lowest `n` bits are one. */
  function LowBits(n: nat): (w: set<nat>)
    ensures forall k: nat :: k in w <==> k < n
  {
    if n == 0 then {} else LowBits(n - 1) + {n - 1}
  }

  /** `FindFirstBitOneFromRight`, counting bits from zero. */
  function LowestBit(w: set<nat>, from: nat := 0): (r: Option<nat>)
    requires from <= BITS
    ensures r.None? ==> forall k :: from <= k < BITS ==> k !in w
    ensures r.Some? ==> from <= r.value < BITS && r.value in w && forall k :: from <= k < r.value ==> k !in w
    decreases BITS - from
  {
    if from == BITS then None else if from in w then Some(from) else LowestBit(w, from + 1)
  }

  /** The caller's next bucket, or failure once the scan is back where it began. */
  function NextBucket(m: Mem, cid: Cid, begin: nat, i: nat): Caller {
    if |m.buckets| == 0 || (i + 1) % |m.buckets| == begin then Return(-1)
    else Scan(cid, begin, (i + 1) % |m.buckets|)
  }

  function CallerPc(m: Mem, c: Caller): Caller {
    match c
    case Idle => Idle
    case Begin(cid) =>
      if |m.buckets| == 0 then Return(-1) else Scan(cid, m.index % |m.buckets|, m.index % |m.buckets|)
    case Scan(cid, begin, i) =>
      (match LowestBit(m.Word(i))
       case None => NextBucket(m, cid, begin, i)
       case Some(bit) => Claim(cid, begin, i, m.Word(i), bit))
    case Claim(cid, begin, i, word, bit) =>
      if m.Word(i) == word then Check(cid, BITS * i + bit) else Scan(cid, begin, i)
    case Check(cid, id) => if m.Slot(id) == INVALID then Store(cid, id) else CallerAborted
    case Store(_, id) => Count(id)
    case Count(id) => Return(id)
    case Return(_) => Idle
    case CallerAborted => CallerAborted
  }

  function CallerMem(m: Mem, c: Caller): Mem {
    match c
    case Begin(_) => m.(index := (m.index + Stride(|m.buckets|)) % COUNTER_LIMIT)
    case Claim(_, _, i, word, bit) => if m.Word(i) == word then ClearBit(m, i, bit) else m
    case Store(cid, id) => Register(m, id, cid)
    case Count(_) => m.(count := m.count + 1)
    case _ => m
  }

  function ClearBit(m: Mem, i: nat, bit: nat): Mem {
    if i < |m.buckets| then m.(buckets := m.buckets[i := m.buckets[i] - {bit}]) else m
  }

  function SetBit(m: Mem, i: nat, bit: nat): Mem {
    if i < |m.buckets| then m.(buckets := m.buckets[i := m.buckets[i] + {bit}]) else m
  }

  function Register(m: Mem, id: nat, cid: Cid): Mem {
    if id < |m.slots| then m.(slots := m.slots[id := cid], registered := m.registered + multiset{(id, cid)}) else m
  }

  function Reset(m: Mem, id: nat): Mem {
    if id < |m.slots| then m.(slots := m.slots[id := INVALID]) else m
  }

  function ParserPc(m: Mem, r: Parser): Parser {
    match r
    case Listening => Listening
    case Lookup(id) => if 0 <= id && id / BITS < |m.buckets| && !m.Free(id) then ReadSlot(id) else Closed
    case ReadSlot(id) => if m.Slot(id) != INVALID then Accepted(id, m.Slot(id)) else Closed
    case Accepted(id, cid) => if !m.Free(id) then ResetSlot(id, cid) else Closed
    case ResetSlot(id, cid) => FirstLoad(id, cid)
    case FirstLoad(id, cid) => FreeCas(id, cid, m.Word(id / BITS))
    case FreeCas(id, cid, word) => if m.Word(id / BITS) == word then Discount(id, cid) else Reload(id, cid)
    case Reload(id, cid) => if !m.Free(id) then FreeCas(id, cid, m.Word(id / BITS)) else ParserAborted
    case Discount(_, _) => Listening
    case Closed => Closed
    case ParserAborted => ParserAborted
  }

  function ParserMem(m: Mem, r: Parser): Mem {
    match r
    case ResetSlot(id, _) => Reset(m, id)
    case FreeCas(id, _, word) => if m.Word(id / BITS) == word then SetBit(m, id / BITS, id % BITS) else m
    case Discount(id, cid) => m.(count := m.count - 1, delivered := m.delivered + multiset{(id, cid)})
    case _ => m
  }

  /** One move; a move that is not enabled changes nothing.  brpc never hands out the invalid correlation id. */
  function Apply(s: State, mv: Move): State {
    match mv
    case AddStream(p, cid) =>
      if s.At(p).Idle? && cid != INVALID then s.(callers := s.callers[p := Begin(cid)]) else s
    case Step(p) =>
      if s.At(p).Idle? then s
      else State(CallerMem(s.mem, s.At(p)), s.callers[p := CallerPc(s.mem, s.At(p))], s.parser)
    case Arrive(id) =>
      if s.parser.Listening? && id < MAX_STREAMS then s.(parser := Lookup(id)) else s
    case ParserStep => State(ParserMem(s.mem, s.parser), s.callers, ParserPc(s.mem, s.parser))
  }

  function Exec(limit: nat, mvs: seq<Move>): State {
    if mvs == [] then Init(limit) else Apply(Exec(limit, mvs[..|mvs| - 1]), mvs[|mvs| - 1])
  }

  // ---------------------------------------------------------------------------------------------
  // The invariant
  // ---------------------------------------------------------------------------------------------

  /** The requests in flight: each occupied slot with the correlation id it holds. */
  ghost function InFlight(slots: seq<Cid>): multiset<(nat, Cid)> {
    if slots == [] then multiset{}
    else
      var k := |slots| - 1;
      InFlight(slots[..k]) + (if slots[k] != INVALID then multiset{(k, slots[k])} else multiset{})
  }

  ghost predicate Shape(m: Mem) {
    && 1 <= |m.buckets| && |m.buckets| * BITS <= MAX_STREAMS && |m.slots| == |m.buckets| * BITS
    && forall i, k :: 0 <= i < |m.buckets| && k in m.buckets[i] ==> k < BITS
  }

  /** A free bit means an empty slot. */
  ghost predicate FreeMeansEmpty(m: Mem) {
    forall id :: 0 <= id < |m.slots| && m.Free(id) ==> m.slots[id] == INVALID
  }

  /** `id` has been claimed and holds nothing: it belongs to whoever claimed it or is about to free it. */
  ghost predicate Reserved(m: Mem, id: nat) {
    id < |m.slots| && !m.Free(id) && m.slots[id] == INVALID
  }

  predicate CallerHolds(c: Caller, id: nat) {
    (c.Check? || c.Store?) && c.id == id
  }

  predicate ParserHolds(r: Parser, id: nat) {
    (r.FirstLoad? || r.FreeCas? || r.Reload?) && r.id == id
  }

  ghost predicate CallerOk(m: Mem, c: Caller) {
    match c
    case Begin(cid) => cid != INVALID
    case Scan(cid, begin, i) => cid != INVALID && begin < |m.buckets| && i < |m.buckets|
    case Claim(cid, begin, i, word, bit) =>
      cid != INVALID && begin < |m.buckets| && i < |m.buckets| && bit < BITS && bit in word
    case Check(cid, id) => cid != INVALID && Reserved(m, id)
    case Store(cid, id) => cid != INVALID && Reserved(m, id)
    case Count(id) => id < |m.slots|
    case Return(r) => -1 <= r < |m.slots|
    case CallerAborted => false
    case Idle => true
  }

  ghost predicate ParserOk(m: Mem, r: Parser) {
    match r
    case ReadSlot(id) => id < |m.slots|
    case Accepted(id, cid) => Occupied(m, id, cid)
    case ResetSlot(id, cid) => Occupied(m, id, cid)
    case FirstLoad(id, cid) => Reserved(m, id)
    case FreeCas(id, cid, word) => Reserved(m, id) && id % BITS !in word
    case Reload(id, cid) => Reserved(m, id)
    case ParserAborted => false
    case _ => true
  }

  ghost predicate Occupied(m: Mem, id: nat, cid: Cid) {
    id < |m.slots| && !m.Free(id) && m.slots[id] == cid && cid != INVALID
  }

  /** No two threads hold the same reserved id. */
  ghost predicate Exclusive(s: State) {
    && (forall p, q, id :: p in s.callers && q in s.callers && p != q && CallerHolds(s.callers[p], id) ==> !CallerHolds(s.callers[q], id))
    && (forall p, id :: p in s.callers && CallerHolds(s.callers[p], id) ==> !ParserHolds(s.parser, id))
  }

  /** The pair the parser has taken out of its slot and not handed over yet. */
  ghost function Removing(r: Parser): multiset<(nat, Cid)> {
    if r.FirstLoad? || r.FreeCas? || r.Reload? || r.Discount? then multiset{(r.id, r.cid)} else multiset{}
  }

  /** Every registration is in its slot, on its way out, or delivered, and in exactly one of these. */
  ghost predicate Conserved(s: State) {
    s.mem.registered == InFlight(s.mem.slots) + Removing(s.parser) + s.mem.delivered
  }

  ghost function Counting(s: State): set<Tid> {
    set p | p in s.callers && s.callers[p].Count?
  }

  /** `_num_inflight_streams` counts the occupied slots, up to the callers and the parser that still owe an update. */
  ghost predicate Counted(s: State) {
    s.mem.count + |Counting(s)| == |InFlight(s.mem.slots)| + |Removing(s.parser)|
  }

  ghost predicate Safe(s: State) {
    && Shape(s.mem) && FreeMeansEmpty(s.mem)
    && (forall p :: p in s.callers ==> CallerOk(s.mem, s.callers[p]))
    && ParserOk(s.mem, s.parser) && Exclusive(s)
  }

  ghost predicate Inv(s: State) {
    Safe(s) && Conserved(s) && Counted(s)
  }

  lemma {:induction false} EmptyInFlight(slots: seq<Cid>)
    requires forall i :: 0 <= i < |slots| ==> slots[i] == INVALID
    ensures InFlight(slots) == multiset{}
  {
    if slots != [] {
      EmptyInFlight(slots[..|slots| - 1]);
    }
  }

  lemma InitInv(limit: nat)
    requires PermittedLimit(limit)
    ensures Inv(Init(limit))
  {
    EmptyInFlight(Init(limit).mem.slots);
    assert Counting(Init(limit)) == {};
  }

  // ---------------------------------------------------------------------------------------------
  // Every move keeps the invariant
  // ---------------------------------------------------------------------------------------------

  /** The two memories differ at most in the bit and the slot of stream `at`. */
  ghost predicate OnlyAt(m: Mem, n: Mem, at: nat) {
    && |n.buckets| == |m.buckets| && |n.slots| == |m.slots|
    && forall id :: 0 <= id < |m.slots| && id != at ==> n.Free(id) == m.Free(id) && n.slots[id] == m.slots[id]
  }

  lemma BitChanges(m: Mem, id: nat)
    requires Shape(m) && id < |m.slots|
    ensures var n := ClearBit(m, id / BITS, id % BITS); Shape(n) && OnlyAt(m, n, id) && !n.Free(id)
    ensures var n := SetBit(m, id / BITS, id % BITS); Shape(n) && OnlyAt(m, n, id) && n.Free(id)
  {
    assert forall k :: 0 <= k < |m.slots| && k != id && k / BITS == id / BITS ==> k % BITS != id % BITS;
  }

  lemma {:induction false} InFlightUpdate(slots: seq<Cid>, id: nat, cid: Cid)
    requires id < |slots| && cid != INVALID
    ensures InFlight(slots[id := cid]) == InFlight(slots[id := INVALID]) + multiset{(id, cid)}
  {
    var k := |slots| - 1;
    if id == k {
      assert slots[id := cid][..k] == slots[..k] == slots[id := INVALID][..k];
    } else {
      InFlightUpdate(slots[..k], id, cid);
      assert slots[id := cid][..k] == slots[..k][id := cid];
      assert slots[id := INVALID][..k] == slots[..k][id := INVALID];
    }
  }

  lemma CallerStable(m: Mem, n: Mem, at: nat, c: Caller)
    requires OnlyAt(m, n, at) && CallerOk(m, c) && !CallerHolds(c, at)
    ensures CallerOk(n, c)
  {
  }

  lemma ParserStable(m: Mem, n: Mem, at: nat, r: Parser)
    requires OnlyAt(m, n, at) && ParserOk(m, r) && !ParserHolds(r, at)
    requires (r.Accepted? || r.ResetSlot?) ==> r.id != at
    ensures ParserOk(n, r)
  {
  }

  /** Moving one caller on changes the number of callers that owe an increment as expected. */
  lemma CountingAfter(s: State, t: State, p: Tid, c: Caller)
    requires t.callers == s.callers[p := c]
    ensures |Counting(t)| + (if s.At(p).Count? then 1 else 0) == |Counting(s)| + (if c.Count? then 1 else 0)
  {
    var rest := Counting(s) - {p};
    assert Counting(t) == if c.Count? then rest + {p} else rest;
    assert Counting(s) == if s.At(p).Count? then rest + {p} else rest;
  }

  /** What a caller's step owes to the rest of the system. */
  ghost predicate CallerStepOk(s: State, p: Tid, at: nat, n: Mem, c: Caller) {
    && Shape(n) && FreeMeansEmpty(n) && OnlyAt(s.mem, n, at)
    && CallerOk(n, c)
    && (forall q :: q in s.callers && q != p ==> !CallerHolds(s.callers[q], at))
    && !ParserHolds(s.parser, at)
    && ((s.parser.Accepted? || s.parser.ResetSlot?) ==> s.parser.id != at)
    && (forall id: nat :: CallerHolds(c, id) ==> CallerHolds(s.At(p), id) || s.mem.Free(id))
  }

  lemma HeldIsReserved(s: State, q: Tid, id: nat)
    requires Safe(s) && q in s.callers && CallerHolds(s.callers[q], id)
    ensures Reserved(s.mem, id)
  {
    assert CallerOk(s.mem, s.callers[q]);
  }

  lemma CallerStep(s: State, p: Tid, at: nat, n: Mem, c: Caller)
    requires Safe(s) && CallerStepOk(s, p, at, n, c)
    ensures Safe(State(n, s.callers[p := c], s.parser))
  {
    var t := State(n, s.callers[p := c], s.parser);
    forall q | q in t.callers
      ensures CallerOk(n, t.callers[q])
    {
      if q != p {
        CallerStable(s.mem, n, at, s.callers[q]);
      }
    }
    ParserStable(s.mem, n, at, s.parser);
    forall q, id | q in s.callers && q != p && CallerHolds(s.callers[q], id)
      ensures !CallerHolds(c, id)
    {
      HeldIsReserved(s, q, id);
    }
  }

  /** Steps that touch neither a bit nor a slot. */
  predicate Quiet(m: Mem, c: Caller) {
    !(c.Claim? && m.Word(c.i) == c.word) && !c.Store?
  }

  lemma QuietPc(m: Mem, c: Caller)
    requires Shape(m) && CallerOk(m, c) && Quiet(m, c)
    ensures CallerOk(m, CallerPc(m, c))
    ensures forall id: nat :: CallerHolds(CallerPc(m, c), id) ==> CallerHolds(c, id)
  {
  }

  lemma QuietStep(s: State, p: Tid)
    requires Safe(s) && p in s.callers && Quiet(s.mem, s.callers[p])
    ensures Safe(Apply(s, Step(p)))
  {
    var c := s.callers[p];
    if c.Idle? {
      return;
    }
    var t := Apply(s, Step(p));
    assert CallerOk(s.mem, c);
    QuietPc(s.mem, c);
    var at := |s.mem.slots|;
    assert forall q :: q in s.callers && CallerHolds(s.callers[q], at) ==> CallerOk(s.mem, s.callers[q]);
    CallerStep(s, p, at, t.mem, CallerPc(s.mem, c));
  }

  /** A successful claim takes an id that no request, caller or removal is using. */
  lemma ClaimIsExclusive(s: State, p: Tid)
    requires Safe(s) && p in s.callers && s.callers[p].Claim? && s.mem.Word(s.callers[p].i) == s.callers[p].word
    ensures var id := BITS * s.callers[p].i + s.callers[p].bit;
            && id < |s.mem.slots| && s.mem.Free(id) && s.mem.slots[id] == INVALID
            && id / BITS == s.callers[p].i && id % BITS == s.callers[p].bit
            && (forall q :: q in s.callers ==> !CallerHolds(s.callers[q], id)) && !ParserHolds(s.parser, id)
            && ((s.parser.Accepted? || s.parser.ResetSlot?) ==> s.parser.id != id)
  {
    assert CallerOk(s.mem, s.callers[p]);
    var id := BITS * s.callers[p].i + s.callers[p].bit;
    assert s.mem.Free(id);
    forall q | q in s.callers
      ensures !CallerHolds(s.callers[q], id)
    {
      if CallerHolds(s.callers[q], id) {
        HeldIsReserved(s, q, id);
      }
    }
  }

  lemma ClaimStep(s: State, p: Tid)
    requires Safe(s) && p in s.callers && s.callers[p].Claim? && s.mem.Word(s.callers[p].i) == s.callers[p].word
    ensures Safe(Apply(s, Step(p)))
  {
    var c := s.callers[p];
    assert CallerOk(s.mem, c);
    ClaimIsExclusive(s, p);
    var id := BITS * c.i + c.bit;
    BitChanges(s.mem, id);
    var t := Apply(s, Step(p));
    CallerStep(s, p, id, t.mem, Check(c.cid, id));
  }

  lemma StoreStep(s: State, p: Tid)
    requires Safe(s) && p in s.callers && s.callers[p].Store?
    ensures Safe(Apply(s, Step(p)))
  {
    var Store(cid, id) := s.callers[p];
    assert CallerOk(s.mem, s.callers[p]);
    var t := Apply(s, Step(p));
    assert CallerHolds(s.callers[p], id);
    CallerStep(s, p, id, t.mem, Count(id));
  }

  lemma CallStep(s: State, p: Tid, cid: Cid)
    requires Safe(s) && s.At(p).Idle? && cid != INVALID
    ensures Safe(s.(callers := s.callers[p := Begin(cid)]))
  {
    var at := |s.mem.slots|;
    assert forall q :: q in s.callers && CallerHolds(s.callers[q], at) ==> CallerOk(s.mem, s.callers[q]);
    CallerStep(s, p, at, s.mem, Begin(cid));
  }

  /** A parser step keeps every caller's facts when it changes one id that no caller holds. */
  lemma CallersKept(s: State, at: nat, n: Mem)
    requires Safe(s) && OnlyAt(s.mem, n, at)
    requires at < |s.mem.slots| ==> forall q :: q in s.callers ==> !CallerHolds(s.callers[q], at)
    ensures forall q :: q in s.callers ==> CallerOk(n, s.callers[q])
  {
    forall q | q in s.callers
      ensures CallerOk(n, s.callers[q])
    {
      CallerStable(s.mem, n, at, s.callers[q]);
    }
  }

  lemma ResetStep(s: State)
    requires Safe(s) && s.parser.ResetSlot?
    ensures Safe(Apply(s, ParserStep))
  {
    var ResetSlot(id, cid) := s.parser;
    var t := Apply(s, ParserStep);
    forall q | q in s.callers
      ensures !CallerHolds(s.callers[q], id)
    {
      if CallerHolds(s.callers[q], id) {
        HeldIsReserved(s, q, id);
      }
    }
    CallersKept(s, id, t.mem);
  }

  lemma FreeStep(s: State)
    requires Safe(s) && s.parser.FreeCas? && s.mem.Word(s.parser.id / BITS) == s.parser.word
    ensures Safe(Apply(s, ParserStep))
  {
    var FreeCas(id, cid, word) := s.parser;
    var t := Apply(s, ParserStep);
    BitChanges(s.mem, id);
    assert forall q :: q in s.callers && CallerHolds(s.callers[q], id) ==> !ParserHolds(s.parser, id);
    CallersKept(s, id, t.mem);
  }

  /** Steps of the parser that touch neither a bit nor a slot. */
  predicate QuietParser(m: Mem, r: Parser) {
    !r.ResetSlot? && !(r.FreeCas? && m.Word(r.id / BITS) == r.word)
  }

  lemma QuietParserPc(m: Mem, r: Parser)
    requires Shape(m) && FreeMeansEmpty(m) && ParserOk(m, r) && QuietParser(m, r)
    ensures ParserOk(m, ParserPc(m, r))
    ensures forall id: nat :: ParserHolds(ParserPc(m, r), id) ==> ParserHolds(r, id)
    ensures !r.Discount? ==> ParserMem(m, r) == m && Removing(ParserPc(m, r)) == Removing(r)
  {
  }

  lemma QuietParserStep(s: State)
    requires Safe(s) && QuietParser(s.mem, s.parser)
    ensures Safe(Apply(s, ParserStep))
  {
    QuietParserPc(s.mem, s.parser);
    CallersKept(s, |s.mem.slots|, ParserMem(s.mem, s.parser));
  }

  lemma SafeMove(s: State, mv: Move)
    requires Safe(s)
    ensures Safe(Apply(s, mv))
  {
    match mv
    case AddStream(p, cid) => if s.At(p).Idle? && cid != INVALID { CallStep(s, p, cid); }
    case Step(p) =>
      if p in s.callers {
        if Quiet(s.mem, s.callers[p]) {
          QuietStep(s, p);
        } else if s.callers[p].Store? {
          StoreStep(s, p);
        } else {
          ClaimStep(s, p);
        }
      }
    case Arrive(id) =>
    case ParserStep =>
      if s.parser.ResetSlot? {
        ResetStep(s);
      } else if QuietParser(s.mem, s.parser) {
        QuietParserStep(s);
      } else {
        FreeStep(s);
      }
  }

  /** A ledger is settled when nothing in the slots, on its way out or delivered has changed. */
  lemma SettledLedger(s: State, t: State)
    requires Conserved(s) && Counted(s)
    requires t.mem.slots == s.mem.slots && t.mem.registered == s.mem.registered
    requires Removing(t.parser) + t.mem.delivered == Removing(s.parser) + s.mem.delivered
    requires t.mem.count + |Counting(t)| + |Removing(s.parser)| == s.mem.count + |Counting(s)| + |Removing(t.parser)|
    ensures Conserved(t) && Counted(t)
  {
    calc {
      t.mem.registered;
      InFlight(s.mem.slots) + (Removing(s.parser) + s.mem.delivered);
      InFlight(t.mem.slots) + (Removing(t.parser) + t.mem.delivered);
    }
  }

  lemma StoreReady(s: State, p: Tid)
    requires Safe(s) && p in s.callers && s.callers[p].Store?
    ensures s.callers[p].cid != INVALID && s.callers[p].id < |s.mem.slots| && s.mem.slots[s.callers[p].id] == INVALID
  {
    assert CallerOk(s.mem, s.callers[p]);
  }

  /** Filling an empty slot adds one pair to those in flight. */
  lemma SlotFilled(slots: seq<Cid>, id: nat, cid: Cid)
    requires id < |slots| && slots[id] == INVALID && cid != INVALID
    ensures InFlight(slots[id := cid]) == InFlight(slots) + multiset{(id, cid)}
  {
    hide InFlight;
    InFlightUpdate(slots, id, cid);
    assert slots[id := INVALID] == slots;
  }

  /** Only a `Store` puts a pair into a slot. */
  lemma StoreLedger(s: State, p: Tid, cid: Cid, id: nat)
    requires Inv(s) && p in s.callers && s.callers[p] == Store(cid, id)
    ensures var t := State(Register(s.mem, id, cid), s.callers[p := Count(id)], s.parser); Conserved(t) && Counted(t)
  {
    hide Safe, InFlight, Counting, Removing;
    var t := State(Register(s.mem, id, cid), s.callers[p := Count(id)], s.parser);
    StoreReady(s, p);
    CountingAfter(s, t, p, Count(id));
    SlotFilled(s.mem.slots, id, cid);
    AddBetween(InFlight(s.mem.slots), Removing(s.parser), s.mem.delivered, multiset{(id, cid)});
  }

  lemma AddBetween(a: multiset<(nat, Cid)>, b: multiset<(nat, Cid)>, c: multiset<(nat, Cid)>, x: multiset<(nat, Cid)>)
    ensures (a + b + c) + x == (a + x) + b + c
  {
  }

  lemma CallerLedger(s: State, p: Tid)
    requires Inv(s) && p in s.callers && !s.callers[p].Idle?
    ensures Conserved(Apply(s, Step(p))) && Counted(Apply(s, Step(p)))
  {
    var c := s.callers[p];
    if c.Store? {
      StoreLedger(s, p, c.cid, c.id);
    } else {
      var t := Apply(s, Step(p));
      CountingAfter(s, t, p, CallerPc(s.mem, c));
      SettledLedger(s, t);
    }
  }

  lemma SameCounting(s: State, t: State)
    requires t.callers == s.callers
    ensures Counting(t) == Counting(s)
  {
  }

  /** Only a `ResetSlot` takes a pair out of a slot. */
  lemma ResetLedger(s: State, id: nat, cid: Cid)
    requires Inv(s) && s.parser == ResetSlot(id, cid)
    ensures var t := State(Reset(s.mem, id), s.callers, FirstLoad(id, cid)); Conserved(t) && Counted(t)
  {
    hide Safe, InFlight, Counting;
    var t := State(Reset(s.mem, id), s.callers, FirstLoad(id, cid));
    SameCounting(s, t);
    ResetReady(s);
    assert t.mem.slots[id := cid] == s.mem.slots;
    SlotFilled(t.mem.slots, id, cid);
  }

  lemma ResetReady(s: State)
    requires Safe(s) && s.parser.ResetSlot?
    ensures s.parser.id < |s.mem.slots| && s.mem.slots[s.parser.id] == s.parser.cid != INVALID
  {
  }

  lemma QuietMove(s: State)
    requires Safe(s) && QuietParser(s.mem, s.parser)
    ensures !s.parser.Discount? ==> ParserMem(s.mem, s.parser) == s.mem && Removing(ParserPc(s.mem, s.parser)) == Removing(s.parser)
  {
    QuietParserPc(s.mem, s.parser);
  }

  lemma ParserLedger(s: State)
    requires Inv(s)
    ensures Conserved(Apply(s, ParserStep)) && Counted(Apply(s, ParserStep))
  {
    hide Safe, InFlight, Counting, Conserved, Counted;
    var t := Apply(s, ParserStep);
    SameCounting(s, t);
    if s.parser.ResetSlot? {
      ResetLedger(s, s.parser.id, s.parser.cid);
    } else {
      if QuietParser(s.mem, s.parser) {
        QuietMove(s);
      }
      SettledLedger(s, t);
    }
  }

  lemma MoveInv(s: State, mv: Move)
    requires Inv(s)
    ensures Inv(Apply(s, mv))
  {
    SafeMove(s, mv);
    match mv
    case AddStream(p, cid) =>
      if s.At(p).Idle? && cid != INVALID {
        CountingAfter(s, Apply(s, mv), p, Begin(cid));
      }
    case Step(p) => if p in s.callers && !s.callers[p].Idle? { CallerLedger(s, p); }
    case Arrive(id) => assert Counting(Apply(s, mv)) == Counting(s);
    case ParserStep => ParserLedger(s);
  }

  /** The invariant in every interleaving, for every permitted stream limit. */
  lemma {:induction false} ReachableInv(limit: nat, mvs: seq<Move>)
    requires PermittedLimit(limit)
    ensures Inv(Exec(limit, mvs))
  {
    if mvs == [] {
      InitInv(limit);
    } else {
      ReachableInv(limit, mvs[..|mvs| - 1]);
      MoveInv(Exec(limit, mvs[..|mvs| - 1]), mvs[|mvs| - 1]);
    }
  }

  // ---------------------------------------------------------------------------------------------
  // What the invariant says about whole runs
  // ---------------------------------------------------------------------------------------------

  /** Neither `CHECK` ever fires. */
  lemma ChecksNeverFire(limit: nat, mvs: seq<Move>, p: Tid)
    requires PermittedLimit(limit)
    ensures !Exec(limit, mvs).At(p).CallerAborted? && !Exec(limit, mvs).parser.ParserAborted?
  {
    ReachableInv(limit, mvs);
    var s := Exec(limit, mvs);
    assert p in s.callers ==> CallerOk(s.mem, s.callers[p]);
  }

  /** An id handed out is free of every other use, and never one of the ids reserved for internal messages. */
  lemma HandedOutOnce(limit: nat, mvs: seq<Move>, p: Tid)
    requires PermittedLimit(limit)
    requires Exec(limit, mvs).At(p).Claim? && Exec(limit, mvs + [Step(p)]).At(p).Check?
    ensures var s, id := Exec(limit, mvs), Exec(limit, mvs + [Step(p)]).At(p).id;
            && id < MAX_STREAMS && s.mem.Free(id) && s.mem.Slot(id) == INVALID
            && (forall q :: q in s.callers ==> !CallerHolds(s.callers[q], id)) && !ParserHolds(s.parser, id)
  {
    ReachableInv(limit, mvs);
    var all := mvs + [Step(p)];
    assert all[..|all| - 1] == mvs;
    ClaimIsExclusive(Exec(limit, mvs), p);
  }

  /** Every response delivered belongs to a registration of that correlation id on that very stream. */
  lemma DeliveredWasRegistered(limit: nat, mvs: seq<Move>)
    requires PermittedLimit(limit)
    ensures Exec(limit, mvs).mem.delivered <= Exec(limit, mvs).mem.registered
  {
    ReachableInv(limit, mvs);
  }

  /** With no call half way, `_num_inflight_streams` is the number of registrations not delivered yet. */
  lemma QuiescentCount(limit: nat, mvs: seq<Move>)
    requires PermittedLimit(limit)
    requires var s := Exec(limit, mvs); (s.parser.Listening? || s.parser.Closed?) && forall p :: p in s.callers ==> s.callers[p].Idle?
    ensures var m := Exec(limit, mvs).mem; m.count == |m.registered| - |m.delivered|
  {
    ReachableInv(limit, mvs);
    assert Counting(Exec(limit, mvs)) == {};
  }

  function CidOf(c: Caller): Option<Cid> {
    if c.Begin? || c.Scan? || c.Claim? || c.Check? || c.Store? then Some(c.cid) else None
  }

  /** The correlation ids passed to `AddStream` in a run. */
  function Used(mvs: seq<Move>): set<Cid> {
    if mvs == [] then {}
    else Used(mvs[..|mvs| - 1]) + (if mvs[|mvs| - 1].AddStream? then {mvs[|mvs| - 1].cid} else {})
  }

  /** brpc gives every call its own correlation id. */
  predicate FreshIds(mvs: seq<Move>) {
    mvs == []
    || (FreshIds(mvs[..|mvs| - 1]) && (mvs[|mvs| - 1].AddStream? ==> mvs[|mvs| - 1].cid !in Used(mvs[..|mvs| - 1])))
  }

  ghost predicate Once(s: State, used: set<Cid>) {
    && (forall x :: x in s.mem.registered ==> x.1 in used && s.mem.registered[x] == 1)
    && (forall x, y :: x in s.mem.registered && y in s.mem.registered && x.1 == y.1 ==> x == y)
    && (forall p :: p in s.callers && CidOf(s.callers[p]).Some? ==> CidOf(s.callers[p]).value in used)
    && (forall p, x :: p in s.callers && CidOf(s.callers[p]).Some? && x in s.mem.registered ==> x.1 != CidOf(s.callers[p]).value)
    && (forall p, q :: p in s.callers && q in s.callers && p != q && CidOf(s.callers[p]).Some?
          ==> CidOf(s.callers[q]) != CidOf(s.callers[p]))
  }

  /** A caller's step neither invents nor duplicates a correlation id. */
  lemma OnceCaller(s: State, used: set<Cid>, p: Tid)
    requires Safe(s) && Once(s, used) && p in s.callers && !s.callers[p].Idle?
    ensures Once(Apply(s, Step(p)), used)
  {
    var c := s.callers[p];
    var after := CallerPc(s.mem, c);
    var t := Apply(s, Step(p));
    assert CidOf(after).Some? ==> CidOf(after) == CidOf(c);
    if c.Store? {
      assert after == Count(c.id) && CallerOk(s.mem, c);
      assert t.mem.registered == s.mem.registered + multiset{(c.id, c.cid)};
    } else {
      assert t.mem.registered == s.mem.registered;
    }
  }

  lemma OnceCall(s: State, used: set<Cid>, p: Tid, cid: Cid)
    requires Once(s, used) && cid !in used
    ensures Once(s.(callers := s.callers[p := Begin(cid)]), used + {cid})
  {
  }

  lemma OnceStep(s: State, used: set<Cid>, mv: Move)
    requires Safe(s) && Once(s, used) && (mv.AddStream? ==> mv.cid !in used)
    ensures Once(Apply(s, mv), used + if mv.AddStream? then {mv.cid} else {})
  {
    assert used + {} == used;
    match mv
    case AddStream(p, cid) => OnceCall(s, used, p, cid);
    case Step(p) => if p in s.callers && !s.callers[p].Idle? { OnceCaller(s, used, p); }
    case Arrive(id) => OnceElsewhere(s, Apply(s, mv), used);
    case ParserStep => OnceElsewhere(s, Apply(s, mv), used);
  }

  lemma OnceElsewhere(s: State, t: State, used: set<Cid>)
    requires Once(s, used) && t.callers == s.callers && t.mem.registered == s.mem.registered
    ensures Once(t, used)
  {
  }

  lemma {:induction false} OnceInRuns(limit: nat, mvs: seq<Move>)
    requires PermittedLimit(limit) && FreshIds(mvs)
    ensures Once(Exec(limit, mvs), Used(mvs))
  {
    if mvs != [] {
      var k := |mvs| - 1;
      OnceInRuns(limit, mvs[..k]);
      ReachableInv(limit, mvs[..k]);
      OnceStep(Exec(limit, mvs[..k]), Used(mvs[..k]), mvs[k]);
      assert Used(mvs) == Used(mvs[..k]) + if mvs[k].AddStream? then {mvs[k].cid} else {};
    }
  }

  /** Each correlation id is delivered at most once, and on one stream only. */
  lemma DeliveredAtMostOnce(limit: nat, mvs: seq<Move>, x: (nat, Cid), y: (nat, Cid))
    requires PermittedLimit(limit) && FreshIds(mvs)
    requires x in Exec(limit, mvs).mem.delivered && y in Exec(limit, mvs).mem.delivered && x.1 == y.1
    ensures x == y && Exec(limit, mvs).mem.delivered[x] == 1
  {
    DeliveredWasRegistered(limit, mvs);
    OnceInRuns(limit, mvs);
  }

  // ---------------------------------------------------------------------------------------------
  // The round-robin stride
  // ---------------------------------------------------------------------------------------------

  lemma CommonMultiple(n: int)
    requires n % 7 == 0 && n % 11 == 0 && n % 17 == 0
    ensures n % 1309 == 0
  {
    var a, b, d := n / 7, n / 11, n / 17;
    var c := 2 * a - 3 * b;
    assert n == 77 * c;
    assert n == 1309 * (2 * d - 9 * c);
  }

  /** For every permitted limit there is a stride, and it does not divide the bucket count. */
  lemma StrideExists(limit: nat)
    requires PermittedLimit(limit)
    ensures var n := Buckets(limit); 1 <= n <= 510 && Stride(n) in {7, 11, 17} && n % Stride(n) != 0
  {
    var n := Buckets(limit);
    if n % 7 == 0 && n % 11 == 0 && n % 17 == 0 {
      CommonMultiple(n);
    }
  }

  /** The inverse modulo `p` of a remainder `r`, for the three prime strides. */
  function Inverse(p: nat, r: nat): nat {
    if p == 7 && r < 7 then [0, 1, 4, 5, 2, 3, 6][r]
    else if p == 11 && r < 11 then [0, 1, 6, 4, 3, 9, 2, 8, 7, 5, 10][r]
    else if p == 17 && r < 17 then [0, 1, 9, 6, 13, 7, 3, 5, 15, 2, 12, 14, 10, 4, 11, 8, 16][r]
    else 0
  }

  lemma InverseInverts(p: nat, r: nat)
    requires p in {7, 11, 17} && 0 < r < p
    ensures (r * Inverse(p, r)) % p == 1
  {
    if p == 7 {
      assert r == 1 || r == 2 || r == 3 || r == 4 || r == 5 || r == 6;
    } else if p == 11 {
      assert r == 1 || r == 2 || r == 3 || r == 4 || r == 5 || r == 6 || r == 7 || r == 8 || r == 9 || r == 10;
    } else {
      assert r == 1 || r == 2 || r == 3 || r == 4 || r == 5 || r == 6 || r == 7 || r == 8 || r == 9 || r == 10
          || r == 11 || r == 12 || r == 13 || r == 14 || r == 15 || r == 16;
    }
  }

  /** A stride that does not divide the bucket count is coprime to it. */
  lemma Coprime(p: nat, n: nat) returns (u: int, v: int)
    requires p in {7, 11, 17} && n % p != 0
    ensures u * p + v * n == 1
  {
    var k, r := n / p, n % p;
    InverseInverts(p, r);
    v := Inverse(p, r);
    var q := (r * v) / p;
    u := -(k * v + q);
    BezoutStep(p, n, k, r, v, q);
  }

  lemma BezoutStep(p: int, n: int, k: int, r: int, v: int, q: int)
    requires n == k * p + r && r * v == p * q + 1
    ensures (-(k * v + q)) * p + v * n == 1
  {
    assert v * (k * p + r) == (k * v) * p + r * v;
    assert (-(k * v + q)) * p == -((k * v) * p) - q * p;
  }

  /** The counter after `k` more allocations. */
  function Counter(n: nat, counter: nat, k: nat): nat {
    if k == 0 then counter else (Counter(n, counter, k - 1) + Stride(n)) % COUNTER_LIMIT
  }

  /** The bucket at which that allocation starts its scan. */
  function StartAfter(n: nat, counter: nat, k: nat): nat
    requires n > 0
  {
    Counter(n, counter, k) % n
  }

  lemma {:induction false} CounterBeforeWrap(n: nat, counter: nat, k: nat)
    requires Stride(n) > 0 && counter + k * Stride(n) < COUNTER_LIMIT
    ensures Counter(n, counter, k) == counter + k * Stride(n)
  {
    if k > 0 {
      assert k * Stride(n) == (k - 1) * Stride(n) + Stride(n);
      CounterBeforeWrap(n, counter, k - 1);
    }
  }

  lemma EqualMod(a: int, b: int, n: int)
    requires n > 0 && a % n == b % n
    ensures a - b == (a / n - b / n) * n
  {
    assert a == (a / n) * n + a % n && b == (b / n) * n + b % n;
  }

  lemma SmallMultiple(d: int, n: int, w: int)
    requires n > 0 && d == w * n && -n < d < n
    ensures d == 0
  {
    DivModUnique(d, n, w, 0);
    if d > 0 {
      DivModUnique(d, n, 0, d);
    } else if d < 0 {
      DivModUnique(d, n, -1, d + n);
    }
  }

  /** Where the allocations start, before the counter wraps. */
  lemma StartIs(limit: nat, counter: nat, i: nat)
    requires PermittedLimit(limit)
    requires var n := Buckets(limit); i < n && counter + n * Stride(n) < COUNTER_LIMIT
    ensures var n := Buckets(limit); Stride(n) > 0 && StartAfter(n, counter, i) == (counter + i * Stride(n)) % n
  {
    StrideExists(limit);
    var n := Buckets(limit);
    MulMonotone(i, n, Stride(n));
    CounterBeforeWrap(n, counter, i);
  }

  /** Multiples of a number coprime to `n` that agree modulo `n` are multiples by the same factor. */
  lemma SameStart(c: nat, i: nat, j: nat, p: nat, n: nat)
    requires p in {7, 11, 17} && n > 0 && n % p != 0 && i < n && j < n && (c + i * p) % n == (c + j * p) % n
    ensures i == j
  {
    var a, b := c + i * p, c + j * p;
    EqualMod(a, b, n);
    var u, v := Coprime(p, n);
    var d, e := i - j, a / n - b / n;
    assert d * p == i * p - j * p;
    MultipleOfN(d, p, n, u, v, e);
    SmallMultiple(d, n, u * e + d * v);
  }

  /** Among `n` consecutive allocations no two start at the same bucket. */
  lemma StartsOnce(limit: nat, counter: nat, i: nat, j: nat)
    requires PermittedLimit(limit)
    requires var n := Buckets(limit); i < n && j < n && counter + n * Stride(n) < COUNTER_LIMIT
    requires StartAfter(Buckets(limit), counter, i) == StartAfter(Buckets(limit), counter, j)
    ensures i == j
  {
    hide StartAfter, Stride, Buckets;
    StrideExists(limit);
    StartIs(limit, counter, i);
    StartIs(limit, counter, j);
    SameStart(counter, i, j, Stride(Buckets(limit)), Buckets(limit));
  }

  lemma MultipleOfN(d: int, p: int, n: int, u: int, v: int, e: int)
    requires d * p == e * n && u * p + v * n == 1
    ensures d == (u * e + d * v) * n
  {
    calc {
      d;
      d * (u * p + v * n);
      { assert d * (u * p) == u * (d * p) && d * (v * n) == (d * v) * n; }
      u * (d * p) + (d * v) * n;
      { assert u * (e * n) == (u * e) * n; }
      (u * e) * n + (d * v) * n;
      (u * e + d * v) * n;
    }
  }

  lemma SomeStart(c: nat, b: nat, p: nat, n: nat) returns (k: nat)
    requires p in {7, 11, 17} && n > 0 && n % p != 0 && b < n
    ensures k < n && (c + k * p) % n == b
  {
    var u, v := Coprime(p, n);
    var t := (b - c) * u;
    k := t % n;
    assert t == (t / n) * n + k;
    LandsOn(b, c, k, p, n, u, v, t / n);
    DivModUnique(c + k * p, n, -((b - c) * v + (t / n) * p), b);
  }

  /** Among `n` consecutive allocations one starts at any given bucket. */
  lemma StartsEverywhere(limit: nat, counter: nat, b: nat) returns (k: nat)
    requires PermittedLimit(limit)
    requires var n := Buckets(limit); b < n && counter + n * Stride(n) < COUNTER_LIMIT
    ensures k < Buckets(limit) && StartAfter(Buckets(limit), counter, k) == b
  {
    hide StartAfter, Stride, Buckets;
    StrideExists(limit);
    k := SomeStart(counter, b, Stride(Buckets(limit)), Buckets(limit));
    StartIs(limit, counter, k);
  }

  lemma LandsOn(b: int, c: int, k: int, p: int, n: int, u: int, v: int, q: int)
    requires (b - c) * u == q * n + k && u * p + v * n == 1
    ensures c + k * p == (-((b - c) * v + q * p)) * n + b
  {
    var e := b - c;
    calc {
      k * p;
      (e * u - q * n) * p;
      { assert (e * u - q * n) * p == e * (u * p) - (q * p) * n; }
      e * (1 - v * n) - (q * p) * n;
      { assert e * (1 - v * n) == e - (e * v) * n; }
      e - (e * v) * n - (q * p) * n;
      { assert (-(e * v + q * p)) * n == -((e * v) * n) - (q * p) * n; }
      e + (-(e * v + q * p)) * n;
    }
  }
}
