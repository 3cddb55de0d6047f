/**
 The CQL connection handshake (external/brpc/922.patch.new:3334-3338, 3550-3559, 3689-3848, 4058-4076): any
 number of threads pack requests while the parser thread works through the server's handshake messages.
 Requests packed before the connection is ready wait in the pending buffer, which the parser flushes.

 Every read or write of the status word, every lock operation and every write to the socket is one step.
 A frame is one element of the pending buffer or of the socket trace.
 */
module Handshake {

  type Tid = nat

  datatype Status = Connected | Startup | Authenticate | AuthSuccess | SetKeyspace | ReadyWithPending | Ready

  predicate IsReady(st: Status) {
    st.ReadyWithPending? || st.Ready?
  }

  /** A frame written to the socket; thread `p` packs one request, named by `p`. */
  datatype Frame = StartupFrame | AuthFrame | UseFrame | Request(p: Tid)

  datatype Owner = Nobody | Packer(p: Tid) | ParserThread

  /** `PackCqlRequest` after the stream has been added. */
  datatype Packing =
    | TestReady
    | Lock
    | TestLocked
    | Append
    | Unlock(appended: bool)
    | StartupCas
    | WriteStartup
    | WriteRequest
    | Packed

  datatype Parsing =
    | Waiting
    | AuthTest
    | AuthReply
    | PutAuthenticate
    | PutAuthSuccess
    | UseKeyspace
    | PutSetKeyspace
    | PutReadyWithPending
    | TestPending
    | FlushLock
    | FlushWrite
    | FlushClear
    | FlushUnlock
    | PutReady
    | Dead

  /** How far the server has got: it says each handshake message once, in answer to the client's frames. */
  datatype Server = Silent | SaidReady | SaidAuthenticate | SaidSuccess | SaidKeyspace

  /** What the authenticator given to the channel holds. */
  datatype Config = Config(credentials: bool, keyspace: bool)

  datatype State = State(
    status: Status, owner: Owner, pending: seq<Tid>, socket: seq<Frame>,
    packers: map<Tid, Packing>, parser: Parsing, server: Server)

  /** `ParserStep(ok)`: the parser's next step; `ok` says whether a socket write made in it succeeds. */
  datatype Move = Pack(p: Tid) | Step(p: Tid) | Receive(said: Server) | ParserStep(ok: bool)

  function Init(): State {
    State(Connected, Nobody, [], [], map[], Waiting, Silent)
  }

  function Requests(ps: seq<Tid>): (r: seq<Frame>)
    ensures |r| == |ps| && forall i :: 0 <= i < |r| ==> r[i] == Request(ps[i])
  {
    if ps == [] then [] else Requests(ps[..|ps| - 1]) + [Request(ps[|ps| - 1])]
  }

  /** How often `x` occurs in `xs`. */
  function Copies<T(==)>(xs: seq<T>, x: T): nat {
    if xs == [] then 0 else Copies(xs[..|xs| - 1], x) + if xs[|xs| - 1] == x then 1 else 0
  }

  function PackerStep(s: State, p: Tid, pc: Packing): State {
    match pc
    case TestReady => s.(packers := s.packers[p := if IsReady(s.status) then WriteRequest else Lock])
    case Lock => if s.owner.Nobody? then s.(owner := Packer(p), packers := s.packers[p := TestLocked]) else s
    case TestLocked => s.(packers := s.packers[p := if IsReady(s.status) then Unlock(false) else Append])
    case Append => s.(pending := s.pending + [p], packers := s.packers[p := Unlock(true)])
    case Unlock(appended) => s.(owner := Nobody, packers := s.packers[p := if appended then StartupCas else WriteRequest])
    case StartupCas =>
      if s.status.Connected? then s.(status := Startup, packers := s.packers[p := WriteStartup])
      else s.(packers := s.packers[p := Packed])
    case WriteStartup => s.(socket := s.socket + [StartupFrame], packers := s.packers[p := Packed])
    case WriteRequest => s.(socket := s.socket + [Request(p)], packers := s.packers[p := Packed])
    case Packed => s
  }

  /** What the server may say next. */
  predicate MaySay(s: State, said: Server) {
    match said
    case Silent => false
    case SaidReady => s.server.Silent? && StartupFrame in s.socket
    case SaidAuthenticate => s.server.Silent? && StartupFrame in s.socket
    case SaidSuccess => s.server.SaidAuthenticate? && AuthFrame in s.socket
    case SaidKeyspace => s.server.SaidSuccess? && UseFrame in s.socket
  }

  /** `HandleAndDestroyInternalMessages` dispatches on the opcode; `OnReady` changes nothing. */
  function Dispatch(said: Server): Parsing {
    match said
    case Silent => Waiting
    case SaidReady => TestPending
    case SaidAuthenticate => AuthTest
    case SaidSuccess => PutAuthSuccess
    case SaidKeyspace => PutReadyWithPending
  }

  function ParserStepped(cfg: Config, s: State, ok: bool): State {
    match s.parser
    case Waiting => s
    case AuthTest => s.(parser := if s.status.Startup? then AuthReply else TestPending)
    case AuthReply =>
      if cfg.credentials && ok then s.(socket := s.socket + [AuthFrame], parser := PutAuthenticate) else s.(parser := Dead)
    case PutAuthenticate => s.(status := Authenticate, parser := TestPending)
    case PutAuthSuccess => s.(status := AuthSuccess, parser := UseKeyspace)
    case UseKeyspace =>
      if !cfg.keyspace then s.(parser := PutReadyWithPending)
      else if ok then s.(socket := s.socket + [UseFrame], parser := PutSetKeyspace)
      else s.(parser := Dead)
    case PutSetKeyspace => s.(status := SetKeyspace, parser := TestPending)
    case PutReadyWithPending => s.(status := ReadyWithPending, parser := TestPending)
    case TestPending => s.(parser := if s.status.ReadyWithPending? then FlushLock else Waiting)
    case FlushLock => if s.owner.Nobody? then s.(owner := ParserThread, parser := FlushWrite) else s
    case FlushWrite =>
      if s.pending == [] then s.(parser := FlushUnlock)
      else if ok then s.(socket := s.socket + Requests(s.pending), parser := FlushClear)
      else s.(owner := Nobody, parser := Dead)
    case FlushClear => s.(pending := [], parser := FlushUnlock)
    case FlushUnlock => s.(owner := Nobody, parser := PutReady)
    case PutReady => s.(status := Ready, parser := Waiting)
    case Dead => s
  }

  /** One move; a move that is not enabled, such as taking a held lock, changes nothing. */
  function Apply(cfg: Config, s: State, mv: Move): State {
    match mv
    case Pack(p) => if p in s.packers then s else s.(packers := s.packers[p := TestReady])
    case Step(p) => if p in s.packers then PackerStep(s, p, s.packers[p]) else s
    case Receive(said) => if s.parser.Waiting? && MaySay(s, said) then s.(server := said, parser := Dispatch(said)) else s
    case ParserStep(ok) => ParserStepped(cfg, s, ok)
  }

  function Exec(cfg: Config, mvs: seq<Move>): State {
    if mvs == [] then Init() else Apply(cfg, Exec(cfg, mvs[..|mvs| - 1]), mvs[|mvs| - 1])
  }

  // ---------------------------------------------------------------------------------------------
  // The invariant
  // ---------------------------------------------------------------------------------------------

  predicate InSection(pc: Packing) {
    pc.TestLocked? || pc.Append? || pc.Unlock?
  }

  predicate Flushing(pc: Parsing) {
    pc.FlushWrite? || pc.FlushClear? || pc.FlushUnlock?
  }

  /** The mutex is held by exactly the thread that is inside its critical section. */
  ghost predicate Mutex(s: State) {
    && (forall p :: p in s.packers ==> (InSection(s.packers[p]) <==> s.owner == Packer(p)))
    && (s.owner.Packer? ==> s.owner.p in s.packers)
    && (Flushing(s.parser) <==> s.owner.ParserThread?)
  }

  /** The status that each point of the parser stands for, given what the server has said. */
  ghost predicate Stage(cfg: Config, s: State) {
    match s.parser
    case Waiting =>
      (match s.server
       case Silent => s.status.Connected? || s.status.Startup?
       case SaidReady => s.status.Startup?
       case SaidAuthenticate => s.status.Authenticate?
       case SaidSuccess => if cfg.keyspace then s.status.SetKeyspace? else s.status.Ready?
       case SaidKeyspace => cfg.keyspace && s.status.Ready?)
    case AuthTest => s.server.SaidAuthenticate? && s.status.Startup?
    case AuthReply => s.server.SaidAuthenticate? && s.status.Startup?
    case PutAuthenticate => s.server.SaidAuthenticate? && s.status.Startup?
    case PutAuthSuccess => s.server.SaidSuccess? && s.status.Authenticate?
    case UseKeyspace => s.server.SaidSuccess? && s.status.AuthSuccess?
    case PutSetKeyspace => s.server.SaidSuccess? && s.status.AuthSuccess? && cfg.keyspace
    case PutReadyWithPending =>
      if cfg.keyspace then s.server.SaidKeyspace? && s.status.SetKeyspace? else s.server.SaidSuccess? && s.status.AuthSuccess?
    case TestPending =>
      (match s.server
       case Silent => false
       case SaidReady => s.status.Startup?
       case SaidAuthenticate => s.status.Authenticate?
       case SaidSuccess => if cfg.keyspace then s.status.SetKeyspace? else s.status.ReadyWithPending?
       case SaidKeyspace => cfg.keyspace && s.status.ReadyWithPending?)
    case Dead => s.server != Silent && s.server != SaidReady && !s.status.Connected? && !s.status.Ready?
    case _ => s.status.ReadyWithPending? && (if cfg.keyspace then s.server.SaidKeyspace? else s.server.SaidSuccess?)
  }

  predicate Said(s: State) {
    !s.server.Silent?
  }

  /** The handshake frames on the wire are those the status accounts for. */
  ghost predicate Wire(cfg: Config, s: State) {
    && (s.socket != [] ==> s.socket[0] == StartupFrame)
    && (Said(s) ==> s.socket != [])
    && (AuthFrame in s.socket ==> Said(s) && !s.server.SaidReady? && !s.parser.AuthTest? && !s.parser.AuthReply?)
    && (UseFrame in s.socket ==> cfg.keyspace && (s.server.SaidSuccess? || s.server.SaidKeyspace?) && !s.parser.PutAuthSuccess? && !s.parser.UseKeyspace?)
    && (forall i, j :: 0 <= i < j < |s.socket| && s.socket[i].Request? ==> s.socket[j].Request?)
    && (forall p :: Request(p) in s.socket ==> IsReady(s.status))
  }

  /** Exactly one thread sends STARTUP, once the status has left `Connected`. */
  ghost predicate OneStartup(s: State) {
    && (forall p, q :: p in s.packers && q in s.packers && s.packers[p].WriteStartup? && s.packers[q].WriteStartup? ==> p == q)
    && Copies(s.socket, StartupFrame) <= 1
    && (forall p :: p in s.packers && s.packers[p].WriteStartup? ==> StartupFrame !in s.socket && !s.status.Connected?)
    && (s.status.Connected? ==> s.socket == [])
  }

  /** The request of `p` is still in the hands of its thread. */
  predicate Holding(pc: Packing) {
    pc.TestReady? || pc.Lock? || pc.TestLocked? || pc.Append? || pc.WriteRequest? || pc == Unlock(false)
  }

  /** The pending buffer, minus what the parser has just written and not cleared yet. */
  function Unsent(s: State): seq<Tid> {
    if s.parser.FlushClear? then [] else s.pending
  }

  function Due(s: State, p: Tid): nat {
    if p in s.packers && !Holding(s.packers[p]) then 1 else 0
  }

  ghost predicate Settled(s: State, p: Tid) {
    Copies(Unsent(s), p) + Copies(s.socket, Request(p)) == Due(s, p)
  }

  /** Every packed request is in the pending buffer or on the wire, once; every other one is in neither. */
  ghost predicate Conserved(s: State) {
    forall p: Tid :: Settled(s, p)
  }

  /** Nobody appends once the flush has happened. */
  ghost predicate Sealed(s: State) {
    && (forall p :: p in s.packers && (s.packers[p].WriteRequest? || s.packers[p] == Unlock(false)) ==> IsReady(s.status))
    && (s.parser.FlushUnlock? || s.parser.PutReady? || s.status.Ready? ==> s.pending == [])
    && (s.parser.PutReady? || s.status.Ready? ==> forall p :: p in s.packers ==> !s.packers[p].Append?)
  }

  ghost predicate Inv(cfg: Config, s: State) {
    Mutex(s) && Stage(cfg, s) && Wire(cfg, s) && OneStartup(s) && Conserved(s) && Sealed(s)
  }

  // ---------------------------------------------------------------------------------------------
  // Every move keeps the invariant
  // ---------------------------------------------------------------------------------------------

  lemma CopiesSnoc<T>(xs: seq<T>, y: T, x: T)
    ensures Copies(xs + [y], x) == Copies(xs, x) + if y == x then 1 else 0
  {
    assert (xs + [y])[..|xs|] == xs;
  }

  lemma {:induction false} CopiesNone<T>(xs: seq<T>, x: T)
    ensures Copies(xs, x) == 0 <==> x !in xs
  {
    if xs != [] {
      var k := |xs| - 1;
      CopiesNone(xs[..k], x);
      assert xs == xs[..k] + [xs[k]];
    }
  }

  lemma {:induction false} CopiesFlushed(socket: seq<Frame>, ps: seq<Tid>, f: Frame)
    ensures Copies(socket + Requests(ps), f) == Copies(socket, f) + if f.Request? then Copies(ps, f.p) else 0
  {
    if ps == [] {
      assert socket + Requests(ps) == socket;
    } else {
      var k := |ps| - 1;
      CopiesFlushed(socket, ps[..k], f);
      assert socket + Requests(ps) == (socket + Requests(ps[..k])) + [Request(ps[k])];
      CopiesSnoc(socket + Requests(ps[..k]), Request(ps[k]), f);
    }
  }

  lemma PackerMutex(s: State, p: Tid)
    requires Mutex(s) && p in s.packers
    ensures Mutex(PackerStep(s, p, s.packers[p]))
  {
  }

  lemma PackerStage(cfg: Config, s: State, p: Tid)
    requires Stage(cfg, s) && p in s.packers
    ensures Stage(cfg, PackerStep(s, p, s.packers[p]))
  {
  }

  lemma PackerWire(cfg: Config, s: State, p: Tid)
    requires Stage(cfg, s) && Wire(cfg, s) && OneStartup(s) && Sealed(s) && p in s.packers
    ensures Wire(cfg, PackerStep(s, p, s.packers[p]))
  {
  }

  lemma PackerStartup(cfg: Config, s: State, p: Tid)
    requires Stage(cfg, s) && Wire(cfg, s) && OneStartup(s) && Sealed(s) && p in s.packers
    ensures OneStartup(PackerStep(s, p, s.packers[p]))
  {
    hide Stage, Wire, Copies;
    match s.packers[p]
    case StartupCas => StartupTaken(s, p);
    case WriteStartup =>
      CopiesNone(s.socket, StartupFrame);
      CopiesSnoc(s.socket, StartupFrame, StartupFrame);
    case WriteRequest =>
      NotConnected(s, p);
      CopiesSnoc(s.socket, Request(p), StartupFrame);
    case _ =>
  }

  /** The CAS that leaves `Connected` succeeds while nothing has been sent. */
  lemma StartupTaken(s: State, p: Tid)
    requires OneStartup(s) && p in s.packers && s.packers[p].StartupCas?
    ensures OneStartup(PackerStep(s, p, StartupCas))
  {
    hide Copies;
  }

  lemma NotConnected(s: State, p: Tid)
    requires Sealed(s) && p in s.packers && s.packers[p].WriteRequest?
    ensures !s.status.Connected?
  {
  }

  /** Only appending a request or writing it makes it due. */
  lemma DueAfter(s: State, p: Tid, q: Tid)
    requires p in s.packers
    ensures var pc := s.packers[p];
            Due(PackerStep(s, p, pc), q) == Due(s, q) + if p == q && (pc.Append? || pc.WriteRequest?) then 1 else 0
  {
  }

  /** A step of `p` moves its own request on and leaves every other one where it was. */
  lemma PackerSettles(s: State, p: Tid, q: Tid)
    requires Mutex(s) && Settled(s, q) && p in s.packers
    ensures Settled(PackerStep(s, p, s.packers[p]), q)
  {
    DueAfter(s, p, q);
    var t := PackerStep(s, p, s.packers[p]);
    match s.packers[p]
    case Append =>
      assert InSection(s.packers[p]) && !s.parser.FlushClear?;
      CopiesSnoc(s.pending, p, q);
    case WriteStartup => CopiesSnoc(s.socket, StartupFrame, Request(q));
    case WriteRequest => CopiesSnoc(s.socket, Request(p), Request(q));
    case _ => assert Unsent(t) == Unsent(s) && t.socket == s.socket;
  }

  lemma PackerSealed(cfg: Config, s: State, p: Tid)
    requires Mutex(s) && Stage(cfg, s) && Sealed(s) && p in s.packers
    ensures Sealed(PackerStep(s, p, s.packers[p]))
  {
  }

  lemma ParserMutex(cfg: Config, s: State, ok: bool)
    requires Mutex(s)
    ensures Mutex(ParserStepped(cfg, s, ok))
  {
  }

  lemma ParserStage(cfg: Config, s: State, ok: bool)
    requires Stage(cfg, s)
    ensures Stage(cfg, ParserStepped(cfg, s, ok))
  {
  }

  lemma ParserWire(cfg: Config, s: State, ok: bool)
    requires Stage(cfg, s) && Wire(cfg, s)
    ensures Wire(cfg, ParserStepped(cfg, s, ok))
  {
  }

  lemma ParserStartup(cfg: Config, s: State, ok: bool)
    requires Stage(cfg, s) && Wire(cfg, s) && OneStartup(s)
    ensures OneStartup(ParserStepped(cfg, s, ok))
  {
    CopiesSnoc(s.socket, AuthFrame, StartupFrame);
    CopiesSnoc(s.socket, UseFrame, StartupFrame);
    CopiesFlushed(s.socket, s.pending, StartupFrame);
  }

  lemma ParserSettles(cfg: Config, s: State, ok: bool, q: Tid)
    requires Settled(s, q)
    ensures Settled(ParserStepped(cfg, s, ok), q)
  {
    match s.parser
    case AuthReply => CopiesSnoc(s.socket, AuthFrame, Request(q));
    case UseKeyspace => CopiesSnoc(s.socket, UseFrame, Request(q));
    case FlushWrite => CopiesFlushed(s.socket, s.pending, Request(q));
    case _ =>
  }

  lemma ParserSealed(cfg: Config, s: State, ok: bool)
    requires Mutex(s) && Stage(cfg, s) && Sealed(s)
    ensures Sealed(ParserStepped(cfg, s, ok))
  {
  }

  lemma ReceiveInv(cfg: Config, s: State, said: Server)
    requires Inv(cfg, s) && s.parser.Waiting? && MaySay(s, said)
    ensures Inv(cfg, s.(server := said, parser := Dispatch(said)))
  {
    var t := s.(server := said, parser := Dispatch(said));
    forall p: Tid ensures Settled(t, p) { assert Settled(s, p); }
  }

  lemma PackConserved(s: State, p: Tid)
    requires Conserved(s) && p !in s.packers
    ensures Conserved(s.(packers := s.packers[p := TestReady]))
  {
    var t := s.(packers := s.packers[p := TestReady]);
    forall q: Tid ensures Settled(t, q) { assert Settled(s, q); }
  }

  lemma PackInv(cfg: Config, s: State, p: Tid)
    requires Mutex(s) && Stage(cfg, s) && Wire(cfg, s) && OneStartup(s) && Sealed(s) && p !in s.packers
    ensures var t := s.(packers := s.packers[p := TestReady]);
            Mutex(t) && Stage(cfg, t) && Wire(cfg, t) && OneStartup(t) && Sealed(t)
  {
  }

  lemma MoveInv(cfg: Config, s: State, mv: Move)
    requires Inv(cfg, s)
    ensures Inv(cfg, Apply(cfg, s, mv))
  {
    match mv
    case Pack(p) =>
      if p !in s.packers {
        PackInv(cfg, s, p);
        PackConserved(s, p);
      }
    case Step(p) =>
      if p in s.packers {
        PackerMutex(s, p);
        PackerStage(cfg, s, p);
        PackerWire(cfg, s, p);
        PackerStartup(cfg, s, p);
        forall q: Tid ensures Settled(PackerStep(s, p, s.packers[p]), q) { PackerSettles(s, p, q); }
        PackerSealed(cfg, s, p);
      }
    case Receive(said) => if s.parser.Waiting? && MaySay(s, said) { ReceiveInv(cfg, s, said); }
    case ParserStep(ok) =>
      ParserMutex(cfg, s, ok);
      ParserStage(cfg, s, ok);
      ParserWire(cfg, s, ok);
      ParserStartup(cfg, s, ok);
      forall q: Tid ensures Settled(ParserStepped(cfg, s, ok), q) { ParserSettles(cfg, s, ok, q); }
      ParserSealed(cfg, s, ok);
  }

  /** The invariant in every interleaving of packers, parser and server, whatever the authenticator holds. */
  lemma {:induction false} ReachableInv(cfg: Config, mvs: seq<Move>)
    ensures Inv(cfg, Exec(cfg, mvs))
  {
    if mvs != [] {
      ReachableInv(cfg, mvs[..|mvs| - 1]);
      MoveInv(cfg, Exec(cfg, mvs[..|mvs| - 1]), mvs[|mvs| - 1]);
    }
  }

  // ---------------------------------------------------------------------------------------------
  // What the invariant says about whole runs
  // ---------------------------------------------------------------------------------------------

  /** Once the connection is ready, every packed request is on the wire exactly once and nothing is pending. */
  lemma ReadyMeansSentOnce(cfg: Config, mvs: seq<Move>, p: Tid)
    requires var s := Exec(cfg, mvs); s.status.Ready? && p in s.packers && s.packers[p].Packed?
    ensures var s := Exec(cfg, mvs); Copies(s.socket, Request(p)) == 1 && s.pending == []
  {
    ReachableInv(cfg, mvs);
    var s := Exec(cfg, mvs);
    assert Settled(s, p);
  }

  /** At any time a request is on the wire at most once, and not at all before its thread let go of it. */
  lemma NeverSentTwice(cfg: Config, mvs: seq<Move>, p: Tid)
    ensures var s := Exec(cfg, mvs); Copies(s.socket, Request(p)) <= Due(s, p)
  {
    ReachableInv(cfg, mvs);
    var s := Exec(cfg, mvs);
    assert Settled(s, p);
  }

  /** Before readiness a packed request is still waiting in the pending buffer. */
  lemma PackedIsPending(cfg: Config, mvs: seq<Move>, p: Tid)
    requires var s := Exec(cfg, mvs); !IsReady(s.status) && p in s.packers && s.packers[p].Packed?
    ensures Copies(Exec(cfg, mvs).pending, p) == 1
  {
    ReachableInv(cfg, mvs);
    var s := Exec(cfg, mvs);
    assert Settled(s, p);
    CopiesNone(s.socket, Request(p));
  }

  /** The first frame on the wire is STARTUP, it is the only one, and requests come after all handshake frames. */
  lemma WireOrder(cfg: Config, mvs: seq<Move>)
    ensures var s := Exec(cfg, mvs);
            && (s.socket != [] ==> s.socket[0] == StartupFrame && Copies(s.socket, StartupFrame) == 1)
            && (forall i, j :: 0 <= i < j < |s.socket| && s.socket[i].Request? ==> s.socket[j].Request?)
            && (forall p :: Request(p) in s.socket ==> IsReady(s.status))
  {
    ReachableInv(cfg, mvs);
    CopiesNone(Exec(cfg, mvs).socket, StartupFrame);
  }

  /**
   Between messages the connection is ready exactly when the server has asked for authentication, accepted it
   and, if a keyspace is to be set, confirmed that too.
   */
  lemma ReadyExactlyAfterAuthentication(cfg: Config, mvs: seq<Move>)
    requires Exec(cfg, mvs).parser.Waiting?
    ensures Exec(cfg, mvs).status.Ready? <==> Exec(cfg, mvs).server == if cfg.keyspace then SaidKeyspace else SaidSuccess
  {
    ReachableInv(cfg, mvs);
  }

  lemma SaidReadyStays(cfg: Config, s: State, mv: Move)
    requires s.server.SaidReady?
    ensures Apply(cfg, s, mv).server.SaidReady?
  {
  }

  /**
   A server that needs no authentication answers STARTUP with READY, and `OnReady` never makes the connection
   ready: however the run goes on from there, no request ever reaches the wire.
   */
  lemma {:induction false} ReadyReplyStrandsRequests(cfg: Config, mvs: seq<Move>, more: seq<Move>, p: Tid)
    requires Exec(cfg, mvs).server.SaidReady?
    ensures var s := Exec(cfg, mvs + more);
            s.server.SaidReady? && s.status.Startup? && Copies(s.socket, Request(p)) == 0
  {
    var all := mvs + more;
    if more == [] {
      assert all == mvs;
    } else {
      var k := |more| - 1;
      ReadyReplyStrandsRequests(cfg, mvs, more[..k], p);
      assert all[..|all| - 1] == mvs + more[..k];
      SaidReadyStays(cfg, Exec(cfg, mvs + more[..k]), more[k]);
    }
    ReachableInv(cfg, all);
    CopiesNone(Exec(cfg, all).socket, Request(p));
  }
}
