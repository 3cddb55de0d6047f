/**
 What a thread that packs a request achieves when nobody is in its way: the request is on the wire if the connection
 is ready and pending if not, and the first one to come sends STARTUP.  Whoever holds the mutex lets go of it.
 */
module HandshakeCalls {
  import opened Handshake

  /** The state after `n` steps of thread `p` alone. */
  function Alone(cfg: Config, s: State, p: Tid, n: nat): State
    decreases n
  {
    if n == 0 then s else Alone(cfg, Apply(cfg, s, Step(p)), p, n - 1)
  }

  /** Nobody but `p` holds the mutex. */
  predicate Unhindered(s: State, p: Tid) {
    s.owner.Nobody? || s.owner == Packer(p)
  }

  /** A bound on the steps left, with the mutex at hand. */
  function StepsLeft(pc: Packing): nat {
    match pc
    case TestReady => 7
    case Lock => 6
    case TestLocked => 5
    case Append => 4
    case Unlock(_) => 3
    case StartupCas => 2
    case WriteStartup => 1
    case WriteRequest => 1
    case Packed => 0
  }

  lemma {:induction false} ReturnsFrom(cfg: Config, s: State, p: Tid, n: nat)
    requires p in s.packers && Unhindered(s, p) && Mutex(s) && n >= StepsLeft(s.packers[p])
    ensures var t := Alone(cfg, s, p, n); p in t.packers && t.packers[p].Packed? && t.owner.Nobody?
    decreases n
  {
    hide Mutex;
    MutexOf(s, p);
    if n > 0 {
      PackerMutex(s, p);
      ReturnsFrom(cfg, Apply(cfg, s, Step(p)), p, n - 1);
    }
  }

  lemma MutexOf(s: State, p: Tid)
    requires Mutex(s) && p in s.packers
    ensures InSection(s.packers[p]) <==> s.owner == Packer(p)
  {
  }

  /** From any reachable state a thread half way through packing is done within seven steps of its own, unless another one holds the mutex. */
  lemma PackingReturns(cfg: Config, mvs: seq<Move>, p: Tid)
    requires p in Exec(cfg, mvs).packers && Unhindered(Exec(cfg, mvs), p)
    ensures var t := Alone(cfg, Exec(cfg, mvs), p, 7); p in t.packers && t.packers[p].Packed? && t.owner.Nobody?
  {
    hide Exec, Alone, Mutex;
    ReachableInv(cfg, mvs);
    ReturnsFrom(cfg, Exec(cfg, mvs), p, 7);
  }

  /** The connection after `p` has packed a request with nobody in its way. */
  function PackedBy(s: State, p: Tid): State {
    var done := s.(packers := s.packers[p := Packed]);
    if IsReady(s.status) then done.(socket := s.socket + [Request(p)])
    else if s.status.Connected? then done.(pending := s.pending + [p], status := Startup, socket := s.socket + [StartupFrame])
    else done.(pending := s.pending + [p])
  }

  /** A new request goes on the wire at once if the connection is ready, and else into the pending buffer, after the ones that are there. */
  lemma PackAlone(cfg: Config, s: State, p: Tid)
    requires p !in s.packers && s.owner.Nobody?
    ensures Alone(cfg, Apply(cfg, s, Pack(p)), p, 7) == PackedBy(s, p)
  {
    hide Alone;
    var a := Apply(cfg, s, Pack(p));
    var b := Apply(cfg, a, Step(p));
    Stepped(cfg, a, p, 7);
    if IsReady(s.status) {
      Stepped(cfg, b, p, 6);
      AlreadyPacked(cfg, Apply(cfg, b, Step(p)), p, 5);
      assert Apply(cfg, b, Step(p)).packers == PackedBy(s, p).packers;
    } else {
      AppendAlone(cfg, s, b, p);
    }
  }

  lemma Stepped(cfg: Config, s: State, p: Tid, n: nat)
    requires n > 0
    ensures Alone(cfg, s, p, n) == Alone(cfg, Apply(cfg, s, Step(p)), p, n - 1)
  {
  }

  lemma {:induction false} AlreadyPacked(cfg: Config, s: State, p: Tid, n: nat)
    requires p in s.packers && s.packers[p].Packed?
    ensures Alone(cfg, s, p, n) == s
    decreases n
  {
    if n > 0 {
      AlreadyPacked(cfg, s, p, n - 1);
    }
  }

  lemma AppendAlone(cfg: Config, s: State, b: State, p: Tid)
    requires s.owner.Nobody? && !IsReady(s.status) && b == s.(packers := s.packers[p := Lock])
    ensures Alone(cfg, b, p, 6) == PackedBy(s, p)
  {
    hide Alone;
    var c := s.(owner := Packer(p), packers := s.packers[p := TestLocked]);
    var d := c.(packers := s.packers[p := Append]);
    var e := s.(owner := Packer(p), pending := s.pending + [p], packers := s.packers[p := Unlock(true)]);
    var f := e.(owner := Nobody, packers := s.packers[p := StartupCas]);
    assert Apply(cfg, b, Step(p)) == c && Apply(cfg, c, Step(p)) == d;
    assert Apply(cfg, d, Step(p)) == e && Apply(cfg, e, Step(p)) == f;
    Stepped(cfg, b, p, 6);
    Stepped(cfg, c, p, 5);
    Stepped(cfg, d, p, 4);
    Stepped(cfg, e, p, 3);
    StartupAlone(cfg, s, f, p);
  }

  lemma StartupAlone(cfg: Config, s: State, f: State, p: Tid)
    requires !IsReady(s.status) && f == s.(pending := s.pending + [p], packers := s.packers[p := StartupCas])
    ensures Alone(cfg, f, p, 2) == PackedBy(s, p)
  {
    hide Alone;
    var g := Apply(cfg, f, Step(p));
    Stepped(cfg, f, p, 2);
    Stepped(cfg, g, p, 1);
    var h := Apply(cfg, g, Step(p));
    AlreadyPacked(cfg, h, p, 0);
    assert h.packers == PackedBy(s, p).packers;
  }

  /** The state after `n` moves of whoever holds the mutex; `ok` says whether the parser's writes succeed. */
  function OwnerAlone(cfg: Config, s: State, ok: bool, n: nat): State
    decreases n
  {
    if n == 0 then s
    else
      match s.owner
      case Nobody => s
      case Packer(p) => OwnerAlone(cfg, Apply(cfg, s, Step(p)), ok, n - 1)
      case ParserThread => OwnerAlone(cfg, Apply(cfg, s, ParserStep(ok)), ok, n - 1)
  }

  /** How many moves the holder needs to let go of it. */
  function HoldsFor(s: State): nat {
    match s.owner
    case Nobody => 0
    case Packer(p) => if p in s.packers then (match s.packers[p] case TestLocked => 3 case Append => 2 case _ => 1) else 0
    case ParserThread => (match s.parser case FlushWrite => 3 case FlushClear => 2 case _ => 1)
  }

  lemma OwnerMoves(cfg: Config, s: State, ok: bool)
    requires Mutex(s) && !s.owner.Nobody?
    ensures var t := if s.owner.Packer? then Apply(cfg, s, Step(s.owner.p)) else Apply(cfg, s, ParserStep(ok));
            HoldsFor(t) < HoldsFor(s) && (t.owner.Nobody? || t.owner == s.owner)
  {
  }

  /** The mutex is never held for good: from any reachable state its holder, alone, releases it within three moves. */
  lemma MutexIsReleased(cfg: Config, mvs: seq<Move>, ok: bool)
    ensures OwnerAlone(cfg, Exec(cfg, mvs), ok, 3).owner.Nobody?
  {
    hide Exec, OwnerAlone, Mutex;
    ReleasedFrom(cfg, mvs, ok, 3);
  }

  lemma {:induction false} ReleasedFrom(cfg: Config, mvs: seq<Move>, ok: bool, n: nat)
    requires n >= HoldsFor(Exec(cfg, mvs))
    ensures OwnerAlone(cfg, Exec(cfg, mvs), ok, n).owner.Nobody?
    decreases n
  {
    hide Inv, Exec;
    var s := Exec(cfg, mvs);
    ReachableInv(cfg, mvs);
    if !s.owner.Nobody? {
      OwnerMoves(cfg, s, ok) by { assert Mutex(s) by { MutexHeld(cfg, s); } }
      if n > 0 {
        var mv := if s.owner.Packer? then Step(s.owner.p) else ParserStep(ok);
        OneMoreMove(cfg, mvs, mv);
        ReleasedFrom(cfg, mvs + [mv], ok, n - 1);
      }
    }
  }

  lemma MutexHeld(cfg: Config, s: State)
    requires Inv(cfg, s)
    ensures Mutex(s)
  {
  }

  lemma OneMoreMove(cfg: Config, mvs: seq<Move>, mv: Move)
    ensures Exec(cfg, mvs + [mv]) == Apply(cfg, Exec(cfg, mvs), mv)
  {
    assert (mvs + [mv])[..|mvs|] == mvs;
  }
}
