/**
 Progress of the handshake: with credentials and a server that asks for them, every reachable state whose
 connection is alive can be driven to readiness, and then nothing that was packed is left behind.
 */
module HandshakeProgress {
  import opened Handshake

  /** The state after further moves. */
  function ExecFrom(cfg: Config, s: State, mvs: seq<Move>): State
    decreases |mvs|
  {
    if mvs == [] then s else ExecFrom(cfg, Apply(cfg, s, mvs[0]), mvs[1..])
  }

  lemma {:induction false} ExecContinues(cfg: Config, mvs: seq<Move>, more: seq<Move>)
    ensures ExecFrom(cfg, Exec(cfg, mvs), more) == Exec(cfg, mvs + more)
    decreases |more|
  {
    if more == [] {
      assert mvs + more == mvs;
    } else {
      var now := mvs + [more[0]];
      assert now[..|now| - 1] == mvs && now + more[1..] == mvs + more;
      ExecContinues(cfg, now, more[1..]);
    }
  }

  lemma {:induction false} ExecJoins(cfg: Config, s: State, a: seq<Move>, b: seq<Move>)
    ensures ExecFrom(cfg, s, a + b) == ExecFrom(cfg, ExecFrom(cfg, s, a), b)
    decreases |a|
  {
    if a == [] {
      assert a + b == b;
    } else {
      assert (a + b)[0] == a[0] && (a + b)[1..] == a[1..] + b;
      ExecJoins(cfg, Apply(cfg, s, a[0]), a[1..], b);
    }
  }

  lemma OneMore(cfg: Config, s: State, mv: Move, rest: seq<Move>)
    ensures ExecFrom(cfg, s, [mv] + rest) == ExecFrom(cfg, Apply(cfg, s, mv), rest)
  {
    assert ([mv] + rest)[1..] == rest;
  }

  // ---------------------------------------------------------------------------------------------
  // What keeps the handshake going
  // ---------------------------------------------------------------------------------------------

  predicate Answered(r: Parsing) {
    r.PutAuthenticate? || r.TestPending? || r.Waiting?
  }

  predicate Asked(r: Parsing) {
    r.PutSetKeyspace? || r.TestPending? || r.Waiting?
  }

  /** Somebody sends STARTUP once the status says so, and every message of the server has been answered. */
  ghost predicate Live(cfg: Config, s: State) {
    && (s.status.Connected? ==> forall p :: p in s.packers ==> !s.packers[p].Packed?)
    && (!s.status.Connected? && s.socket == [] ==> exists p :: p in s.packers && s.packers[p].WriteStartup?)
    && (s.server.SaidAuthenticate? && Answered(s.parser) ==> AuthFrame in s.socket)
    && (cfg.keyspace && s.server.SaidSuccess? && Asked(s.parser) ==> UseFrame in s.socket)
  }

  lemma PackerLive(cfg: Config, s: State, p: Tid)
    requires Inv(cfg, s) && Live(cfg, s) && p in s.packers
    ensures Live(cfg, PackerStep(s, p, s.packers[p]))
  {
    hide Stage, Conserved, Wire, Mutex;
    var t := PackerStep(s, p, s.packers[p]);
    if s.packers[p].StartupCas? && s.status.Connected? {
      assert t.packers[p].WriteStartup?;
    } else if !s.status.Connected? && s.socket == [] && t.socket == [] {
      var q :| q in s.packers && s.packers[q].WriteStartup?;
      assert t.packers[q].WriteStartup?;
    }
  }

  lemma ParserLive(cfg: Config, s: State, ok: bool)
    requires Inv(cfg, s) && Live(cfg, s)
    ensures Live(cfg, ParserStepped(cfg, s, ok))
  {
    hide Conserved, Mutex, Sealed, Wire, OneStartup;
    var t := ParserStepped(cfg, s, ok);
    if !t.status.Connected? && t.socket == [] {
      KeepsStarter(s, t);
    }
  }

  lemma KeepsStarter(s: State, t: State)
    requires t.packers == s.packers && exists p :: p in s.packers && s.packers[p].WriteStartup?
    ensures exists p :: p in t.packers && t.packers[p].WriteStartup?
  {
  }

  lemma ReceiveLive(cfg: Config, s: State, said: Server)
    requires Inv(cfg, s) && Live(cfg, s) && s.parser.Waiting? && MaySay(s, said)
    ensures Live(cfg, s.(server := said, parser := Dispatch(said)))
  {
    hide Conserved, Mutex, Sealed;
  }

  lemma MoveLive(cfg: Config, s: State, mv: Move)
    requires Inv(cfg, s) && Live(cfg, s)
    ensures Inv(cfg, Apply(cfg, s, mv)) && Live(cfg, Apply(cfg, s, mv))
  {
    hide Inv, Live;
    MoveInv(cfg, s, mv);
    match mv
    case Pack(p) => if p !in s.packers { PackLive(cfg, s, p); }
    case Step(p) => if p in s.packers { PackerLive(cfg, s, p); }
    case Receive(said) => if s.parser.Waiting? && MaySay(s, said) { ReceiveLive(cfg, s, said); }
    case ParserStep(ok) => ParserLive(cfg, s, ok);
  }

  lemma PackLive(cfg: Config, s: State, p: Tid)
    requires Live(cfg, s) && p !in s.packers
    ensures Live(cfg, s.(packers := s.packers[p := TestReady]))
  {
    var t := s.(packers := s.packers[p := TestReady]);
    if !s.status.Connected? && s.socket == [] {
      var q :| q in s.packers && s.packers[q].WriteStartup?;
      assert t.packers[q].WriteStartup?;
    }
  }

  lemma {:induction false} ReachableLive(cfg: Config, mvs: seq<Move>)
    ensures Inv(cfg, Exec(cfg, mvs)) && Live(cfg, Exec(cfg, mvs))
  {
    hide Inv, Live;
    if mvs == [] {
      ReachableInv(cfg, mvs);
      StartsLive(cfg);
    } else {
      var k := |mvs| - 1;
      ReachableLive(cfg, mvs[..k]);
      MoveLive(cfg, Exec(cfg, mvs[..k]), mvs[k]);
    }
  }

  lemma StartsLive(cfg: Config)
    ensures Live(cfg, Init())
  {
  }

  // ---------------------------------------------------------------------------------------------
  // Driving the handshake
  // ---------------------------------------------------------------------------------------------

  ghost predicate Fine(cfg: Config, s: State) {
    Inv(cfg, s) && Live(cfg, s)
  }

  /** How far a packer is from leaving its critical section. */
  function OwnerRank(s: State): nat {
    if !s.owner.Packer? || s.owner.p !in s.packers then 0
    else
      match s.packers[s.owner.p]
      case TestLocked => 3
      case Append => 2
      case Unlock(_) => 1
      case _ => 0
  }

  function ParserRank(r: Parsing): nat {
    match r
    case Waiting => 0
    case Dead => 0
    case PutReady => 1
    case FlushUnlock => 2
    case FlushClear => 3
    case FlushWrite => 4
    case FlushLock => 5
    case TestPending => 6
    case PutReadyWithPending => 7
    case PutSetKeyspace => 7
    case PutAuthenticate => 7
    case UseKeyspace => 8
    case AuthReply => 8
    case PutAuthSuccess => 9
    case AuthTest => 9
  }

  /** The packer in its critical section moves on; nothing else changes. */
  lemma Unblock(cfg: Config, s: State)
    requires Mutex(s) && s.owner.Packer?
    ensures s.owner.p in s.packers
    ensures var t := Apply(cfg, s, Step(s.owner.p));
            && OwnerRank(t) < OwnerRank(s) && t.parser == s.parser && t.server == s.server && t.status == s.status && t.socket == s.socket
            && forall q :: q in s.packers && q != s.owner.p ==> q in t.packers && t.packers[q] == s.packers[q]
  {
  }

  lemma ParserAdvances(cfg: Config, s: State)
    requires Mutex(s) && Stage(cfg, s) && cfg.credentials && !s.owner.Packer? && !s.parser.Waiting? && !s.parser.Dead?
    ensures var t := Apply(cfg, s, ParserStep(true)); ParserRank(t.parser) < ParserRank(s.parser) && !t.parser.Dead? && t.server == s.server
  {
  }

  /** The parser finishes with the message at hand. */
  lemma {:induction false} Settle(cfg: Config, s: State) returns (mvs: seq<Move>)
    requires Fine(cfg, s) && cfg.credentials && !s.parser.Dead?
    ensures var t := ExecFrom(cfg, s, mvs); Fine(cfg, t) && t.parser.Waiting? && t.server == s.server
    decreases ParserRank(s.parser), OwnerRank(s)
  {
    hide Live, Stage, Wire, Conserved, Sealed, OneStartup, Mutex, Apply, ParserRank, OwnerRank;
    if s.parser.Waiting? {
      mvs := [];
    } else {
      var mv := if s.owner.Packer? then Step(s.owner.p) else ParserStep(true);
      if s.owner.Packer? {
        Unblock(cfg, s);
      } else {
        ParserAdvances(cfg, s);
      }
      MoveLive(cfg, s, mv);
      var rest := Settle(cfg, Apply(cfg, s, mv));
      OneMore(cfg, s, mv, rest);
      mvs := [mv] + rest;
    }
  }

  function Distance(pc: Packing): nat {
    match pc
    case TestReady => 8
    case Lock => 7
    case TestLocked => 6
    case Append => 5
    case Unlock(_) => 4
    case StartupCas => 3
    case WriteStartup => 2
    case _ => 0
  }

  /** Packer `p` can get STARTUP on the wire. */
  ghost predicate Starter(s: State, p: Tid) {
    p in s.packers && s.parser.Waiting? && s.server.Silent? && (s.packers[p].WriteStartup? || s.status.Connected?)
  }

  lemma StarterAdvances(cfg: Config, s: State, p: Tid)
    requires Fine(cfg, s) && Starter(s, p) && !s.packers[p].WriteStartup? && (s.owner.Packer? ==> s.owner.p == p)
    ensures var t := Apply(cfg, s, Step(p)); Starter(t, p) && Distance(t.packers[p]) < Distance(s.packers[p])
  {
    hide Stage, Wire, Conserved;
  }

  lemma StarterWaits(cfg: Config, s: State, p: Tid)
    requires Fine(cfg, s) && Starter(s, p) && s.owner.Packer? && s.owner.p != p
    ensures var t := Apply(cfg, s, Step(s.owner.p)); Starter(t, p) && t.packers[p] == s.packers[p] && OwnerRank(t) < OwnerRank(s)
  {
    hide Stage, Wire, Conserved, Sealed, OneStartup, Live, Apply;
    Unblock(cfg, s);
  }

  lemma StarterWrites(cfg: Config, s: State, p: Tid)
    requires Fine(cfg, s) && Starter(s, p) && s.packers[p].WriteStartup?
    ensures var t := Apply(cfg, s, Step(p)); t.parser.Waiting? && t.server.Silent? && StartupFrame in t.socket
  {
  }

  lemma {:induction false} SendStartup(cfg: Config, s: State, p: Tid) returns (mvs: seq<Move>)
    requires Fine(cfg, s) && Starter(s, p)
    ensures var t := ExecFrom(cfg, s, mvs); Fine(cfg, t) && t.parser.Waiting? && t.server.Silent? && StartupFrame in t.socket
    decreases Distance(s.packers[p]), OwnerRank(s)
  {
    hide Inv, Live, Apply, OwnerRank, Distance;
    if s.packers[p].WriteStartup? {
      StarterWrites(cfg, s, p);
      MoveLive(cfg, s, Step(p));
      OneMore(cfg, s, Step(p), []);
      mvs := [Step(p)] + [];
    } else if s.owner.Packer? && s.owner.p != p {
      var mv := Step(s.owner.p);
      StarterWaits(cfg, s, p);
      MoveLive(cfg, s, mv);
      var rest := SendStartup(cfg, Apply(cfg, s, mv), p);
      OneMore(cfg, s, mv, rest);
      mvs := [mv] + rest;
    } else {
      StarterAdvances(cfg, s, p);
      MoveLive(cfg, s, Step(p));
      var rest := SendStartup(cfg, Apply(cfg, s, Step(p)), p);
      OneMore(cfg, s, Step(p), rest);
      mvs := [Step(p)] + rest;
    }
  }

  /** The server speaks and the parser deals with it. */
  lemma Answer(cfg: Config, s: State, said: Server) returns (mvs: seq<Move>)
    requires Fine(cfg, s) && cfg.credentials && s.parser.Waiting? && MaySay(s, said)
    ensures var t := ExecFrom(cfg, s, mvs); Fine(cfg, t) && t.parser.Waiting? && t.server == said
  {
    hide Inv, Live;
    var t := Apply(cfg, s, Receive(said));
    MoveLive(cfg, s, Receive(said));
    var rest := Settle(cfg, t);
    OneMore(cfg, s, Receive(said), rest);
    mvs := [Receive(said)] + rest;
  }

  lemma WaitingStage(cfg: Config, s: State)
    requires Fine(cfg, s) && s.parser.Waiting?
    ensures s.server.SaidAuthenticate? ==> MaySay(s, SaidSuccess)
    ensures s.server.SaidSuccess? ==> if cfg.keyspace then MaySay(s, SaidKeyspace) else s.status.Ready?
    ensures s.server.SaidKeyspace? ==> s.status.Ready?
  {
    hide Wire, Conserved, Sealed, OneStartup, Mutex;
  }

  lemma FromSuccess(cfg: Config, s: State) returns (mvs: seq<Move>)
    requires Fine(cfg, s) && cfg.credentials && s.parser.Waiting? && (s.server.SaidSuccess? || s.server.SaidKeyspace?)
    ensures var t := ExecFrom(cfg, s, mvs); Fine(cfg, t) && t.status.Ready?
  {
    hide Fine, MaySay;
    WaitingStage(cfg, s);
    if s.server.SaidSuccess? && cfg.keyspace {
      mvs := Answer(cfg, s, SaidKeyspace);
      WaitingStage(cfg, ExecFrom(cfg, s, mvs));
    } else {
      mvs := [];
    }
  }

  lemma FromAuthenticate(cfg: Config, s: State) returns (mvs: seq<Move>)
    requires Fine(cfg, s) && cfg.credentials && s.parser.Waiting? && s.server.SaidAuthenticate?
    ensures var t := ExecFrom(cfg, s, mvs); Fine(cfg, t) && t.status.Ready?
  {
    hide Fine, MaySay, ExecFrom;
    WaitingStage(cfg, s);
    var a := Answer(cfg, s, SaidSuccess);
    var b := FromSuccess(cfg, ExecFrom(cfg, s, a));
    ExecJoins(cfg, s, a, b);
    mvs := a + b;
  }

  lemma FindStarter(cfg: Config, s: State) returns (p: Tid)
    requires Fine(cfg, s) && s.parser.Waiting? && s.server.Silent? && s.packers != map[] && StartupFrame !in s.socket
    ensures Starter(s, p)
  {
    hide Conserved, Sealed, Mutex;
    if s.status.Connected? {
      p :| p in s.packers;
    } else {
      p :| p in s.packers && s.packers[p].WriteStartup?;
    }
  }

  lemma FromSilent(cfg: Config, s: State) returns (mvs: seq<Move>)
    requires Fine(cfg, s) && cfg.credentials && s.parser.Waiting? && s.server.Silent? && s.packers != map[]
    ensures var t := ExecFrom(cfg, s, mvs); Fine(cfg, t) && t.status.Ready?
  {
    hide Fine, ExecFrom, Starter;
    var a: seq<Move>;
    if StartupFrame in s.socket {
      a := [];
      NothingMore(cfg, s);
    } else {
      var p := FindStarter(cfg, s);
      a := SendStartup(cfg, s, p);
    }
    var t := ExecFrom(cfg, s, a);
    var b := Answer(cfg, t, SaidAuthenticate);
    var c := FromAuthenticate(cfg, ExecFrom(cfg, t, b));
    ExecJoins(cfg, s, a, b);
    ExecJoins(cfg, s, a + b, c);
    mvs := a + b + c;
  }

  lemma NothingMore(cfg: Config, s: State)
    ensures ExecFrom(cfg, s, []) == s
  {
  }

  lemma Drive(cfg: Config, s: State) returns (mvs: seq<Move>)
    requires Fine(cfg, s) && cfg.credentials && !s.parser.Dead? && !s.server.SaidReady? && s.packers != map[]
    ensures var t := ExecFrom(cfg, s, mvs); Fine(cfg, t) && t.status.Ready?
  {
    hide Fine, ExecFrom;
    var a := Settle(cfg, s);
    var t := ExecFrom(cfg, s, a);
    PackersStay(cfg, s, a);
    var b: seq<Move>;
    if t.server.Silent? {
      b := FromSilent(cfg, t);
    } else if t.server.SaidAuthenticate? {
      b := FromAuthenticate(cfg, t);
    } else {
      b := FromSuccess(cfg, t);
    }
    ExecJoins(cfg, s, a, b);
    mvs := a + b;
  }

  /** A packer stays, and one that is done stays done. */
  lemma {:induction false} PackersStay(cfg: Config, s: State, mvs: seq<Move>)
    ensures var t := ExecFrom(cfg, s, mvs);
            && (s.packers != map[] ==> t.packers != map[])
            && forall p :: p in s.packers && s.packers[p].Packed? ==> p in t.packers && t.packers[p].Packed?
    decreases |mvs|
  {
    hide Apply;
    if mvs != [] {
      OnePackerStays(cfg, s, mvs[0]);
      PackersStay(cfg, Apply(cfg, s, mvs[0]), mvs[1..]);
    }
  }

  lemma OnePackerStays(cfg: Config, s: State, mv: Move)
    ensures var t := Apply(cfg, s, mv);
            && (s.packers != map[] ==> t.packers != map[])
            && forall p :: p in s.packers && s.packers[p].Packed? ==> p in t.packers && t.packers[p].Packed?
  {
    var t := Apply(cfg, s, mv);
    if s.packers != map[] {
      var p :| p in s.packers;
      assert p in t.packers;
    }
  }

  /**
   A connection that is alive, with a server that has not answered STARTUP with READY, can always be driven to
   a state in which it is ready, nothing is pending and every request packed before is on the wire once.
   */
  lemma CanBecomeReady(cfg: Config, mvs: seq<Move>) returns (more: seq<Move>)
    requires cfg.credentials && !Exec(cfg, mvs).parser.Dead? && !Exec(cfg, mvs).server.SaidReady?
    ensures Exec(cfg, mvs + more).status.Ready? && Exec(cfg, mvs + more).pending == []
    ensures forall p :: p in Exec(cfg, mvs).packers && Exec(cfg, mvs).packers[p].Packed? ==> Copies(Exec(cfg, mvs + more).socket, Request(p)) == 1
  {
    hide Inv, Live, ExecFrom, Exec, Copies;
    var s := Exec(cfg, mvs);
    var now := mvs + [Pack(0)];
    Once(cfg, mvs, Pack(0));
    assert 0 in Exec(cfg, now).packers;
    ReachableLive(cfg, now);
    var rest := Drive(cfg, Exec(cfg, now));
    more := [Pack(0)] + rest;
    assert now + rest == mvs + more;
    ExecContinues(cfg, now, rest);
    ExecContinues(cfg, mvs, more);
    PackersStay(cfg, s, more);
    forall p | p in s.packers && s.packers[p].Packed?
      ensures Copies(Exec(cfg, mvs + more).socket, Request(p)) == 1
    {
      ReadyMeansSentOnce(cfg, mvs + more, p);
    }
    SealedWhenReady(cfg, mvs + more);
  }

  lemma SealedWhenReady(cfg: Config, mvs: seq<Move>)
    requires Exec(cfg, mvs).status.Ready?
    ensures Exec(cfg, mvs).pending == []
  {
    ReachableInv(cfg, mvs);
  }

  lemma {:induction false} StuckStays(cfg: Config, mvs: seq<Move>, more: seq<Move>)
    requires Exec(cfg, mvs).parser.Dead? || Exec(cfg, mvs).server.SaidReady?
    ensures var t := Exec(cfg, mvs + more); t.parser.Dead? || t.server.SaidReady?
    decreases |more|
  {
    hide Apply;
    if more == [] {
      assert mvs + more == mvs;
    } else {
      var all := mvs + more;
      StuckStays(cfg, mvs, more[..|more| - 1]);
      assert all[..|all| - 1] == mvs + more[..|more| - 1];
      StuckStep(cfg, Exec(cfg, mvs + more[..|more| - 1]), more[|more| - 1]);
    }
  }

  lemma StuckStep(cfg: Config, s: State, mv: Move)
    requires s.parser.Dead? || s.server.SaidReady?
    ensures var t := Apply(cfg, s, mv); t.parser.Dead? || t.server.SaidReady?
  {
  }

  lemma StuckIsNotReady(cfg: Config, mvs: seq<Move>)
    requires Exec(cfg, mvs).parser.Dead? || Exec(cfg, mvs).server.SaidReady?
    ensures !Exec(cfg, mvs).status.Ready?
  {
    ReachableInv(cfg, mvs);
  }

  /** Without credentials the AUTHENTICATE message is not answered. */
  ghost predicate Unanswered(s: State) {
    AuthFrame !in s.socket && !s.server.SaidSuccess? && !s.server.SaidKeyspace? && !s.parser.PutAuthenticate?
  }

  lemma {:induction false} NeverAnswered(cfg: Config, mvs: seq<Move>)
    requires !cfg.credentials
    ensures Unanswered(Exec(cfg, mvs))
  {
    hide Apply;
    if mvs != [] {
      var before := mvs[..|mvs| - 1];
      NeverAnswered(cfg, before);
      StaysUnanswered(cfg, Exec(cfg, before), mvs[|mvs| - 1]);
    }
  }

  lemma StaysUnanswered(cfg: Config, s: State, mv: Move)
    requires !cfg.credentials && Unanswered(s)
    ensures Unanswered(Apply(cfg, s, mv))
  {
  }

  lemma NoCredentialsNotReady(cfg: Config, mvs: seq<Move>)
    requires !cfg.credentials
    ensures !Exec(cfg, mvs).status.Ready?
  {
    hide Exec;
    ReachableInv(cfg, mvs);
    NeverAnswered(cfg, mvs);
  }

  /**
   From any reachable state the connection can become ready exactly if there are credentials, the parser has not
   failed and the server has not answered STARTUP with READY.
   */
  lemma ReadinessReachableExactly(cfg: Config, mvs: seq<Move>)
    ensures (exists more :: Exec(cfg, mvs + more).status.Ready?) <==>
            cfg.credentials && !Exec(cfg, mvs).parser.Dead? && !Exec(cfg, mvs).server.SaidReady?
  {
    hide Exec;
    if cfg.credentials && !Exec(cfg, mvs).parser.Dead? && !Exec(cfg, mvs).server.SaidReady? {
      var more := CanBecomeReady(cfg, mvs);
      assert Exec(cfg, mvs + more).status.Ready?;
    } else {
      forall more: seq<Move>
        ensures !Exec(cfg, mvs + more).status.Ready?
      {
        NeverReady(cfg, mvs, more);
      }
    }
  }

  lemma NeverReady(cfg: Config, mvs: seq<Move>, more: seq<Move>)
    requires !cfg.credentials || Exec(cfg, mvs).parser.Dead? || Exec(cfg, mvs).server.SaidReady?
    ensures !Exec(cfg, mvs + more).status.Ready?
  {
    hide Exec;
    if cfg.credentials {
      StuckStays(cfg, mvs, more);
      StuckIsNotReady(cfg, mvs + more);
    } else {
      NoCredentialsNotReady(cfg, mvs + more);
    }
  }

  // ---------------------------------------------------------------------------------------------
  // Two runs
  // ---------------------------------------------------------------------------------------------

  /** One thread packs a request and, being the first, sends STARTUP. */
  function PackOne(): seq<Move> {
    [Pack(0), Step(0), Step(0), Step(0), Step(0), Step(0), Step(0), Step(0)]
  }

  lemma Once(cfg: Config, mvs: seq<Move>, mv: Move)
    ensures Exec(cfg, mvs + [mv]) == Apply(cfg, Exec(cfg, mvs), mv)
  {
    hide Apply;
    assert (mvs + [mv])[..|mvs|] == mvs;
  }

  lemma NoMoves(cfg: Config)
    ensures Exec(cfg, []) == Init()
  {
  }

  lemma PackOneList() returns (a: seq<Move>)
    ensures a == PackOne() && |a| == 8 && a[0] == Pack(0) && forall i :: 1 <= i < 8 ==> a[i] == Step(0)
  {
    a := PackOne();
  }

  lemma PackOneRuns(cfg: Config)
    ensures Exec(cfg, PackOne()) == State(Startup, Nobody, [0], [StartupFrame], map[0 := Packed], Waiting, Silent)
  {
    hide Exec, PackOne;
    var a := PackOneList();
    NoMoves(cfg);
    assert a[..1] == [] + [a[0]] && a[..2] == a[..1] + [a[1]] && a[..3] == a[..2] + [a[2]] && a[..4] == a[..3] + [a[3]];
    assert a[..5] == a[..4] + [a[4]] && a[..6] == a[..5] + [a[5]] && a[..7] == a[..6] + [a[6]] && a == a[..7] + [a[7]];
    Once(cfg, [], a[0]);
    Once(cfg, a[..1], a[1]);
    Once(cfg, a[..2], a[2]);
    Once(cfg, a[..3], a[3]);
    Once(cfg, a[..4], a[4]);
    Once(cfg, a[..5], a[5]);
    Once(cfg, a[..6], a[6]);
    Once(cfg, a[..7], a[7]);
  }

  /** The server answers STARTUP with READY: the request is packed and will never be sent. */
  lemma StrandingRun(cfg: Config, more: seq<Move>)
    ensures var s := Exec(cfg, PackOne() + [Receive(SaidReady)]);
            s.server.SaidReady? && s.pending == [0] && 0 in s.packers && s.packers[0].Packed?
    ensures Copies(Exec(cfg, PackOne() + [Receive(SaidReady)] + more).socket, Request(0)) == 0
  {
    hide Copies;
    PackOneRuns(cfg);
    Once(cfg, PackOne(), Receive(SaidReady));
    ReadyReplyStrandsRequests(cfg, PackOne() + [Receive(SaidReady)], more, 0);
  }

  /** `n` steps of the parser. */
  function Work(n: nat): seq<Move> {
    if n == 0 then [] else [ParserStep(true)] + Work(n - 1)
  }

  lemma AfterWork(cfg: Config, s: State, n: nat)
    requires n > 0
    ensures ExecFrom(cfg, s, Work(n)) == ExecFrom(cfg, ParserStepped(cfg, s, true), Work(n - 1))
  {
    assert Work(n)[1..] == Work(n - 1);
  }

  lemma WorkDone(cfg: Config, s: State)
    ensures ExecFrom(cfg, s, Work(0)) == s
  {
  }

  const PLAIN: Config := Config(true, false)
  const READY_SOCKET: seq<Frame> := [StartupFrame, AuthFrame, Request(0)]

  lemma AuthenticateRuns(s: State)
    requires s == State(Startup, Nobody, [0], [StartupFrame], map[0 := Packed], AuthTest, SaidAuthenticate)
    ensures ExecFrom(PLAIN, s, Work(4)) == State(Authenticate, Nobody, [0], [StartupFrame, AuthFrame], map[0 := Packed], Waiting, SaidAuthenticate)
  {
    hide ExecFrom, Work;
    var s1 := ParserStepped(PLAIN, s, true);
    var s2 := ParserStepped(PLAIN, s1, true);
    var s3 := ParserStepped(PLAIN, s2, true);
    AfterWork(PLAIN, s, 4);
    AfterWork(PLAIN, s1, 3);
    AfterWork(PLAIN, s2, 2);
    AfterWork(PLAIN, s3, 1);
    assert s2.socket == [StartupFrame, AuthFrame];
    WorkDone(PLAIN, ParserStepped(PLAIN, s3, true));
  }

  lemma SuccessRuns(s: State)
    requires s == State(Authenticate, Nobody, [0], [StartupFrame, AuthFrame], map[0 := Packed], PutAuthSuccess, SaidSuccess)
    ensures ExecFrom(PLAIN, s, Work(9)) == State(Ready, Nobody, [], READY_SOCKET, map[0 := Packed], Waiting, SaidSuccess)
  {
    hide ExecFrom, Work;
    var a := s.(status := ReadyWithPending, parser := FlushLock);
    AfterWork(PLAIN, s, 9);
    AfterWork(PLAIN, s.(status := AuthSuccess, parser := UseKeyspace), 8);
    AfterWork(PLAIN, s.(status := AuthSuccess, parser := PutReadyWithPending), 7);
    AfterWork(PLAIN, s.(status := ReadyWithPending, parser := TestPending), 6);
    FlushRuns(a);
  }

  lemma FlushRuns(a: State)
    requires a == State(ReadyWithPending, Nobody, [0], [StartupFrame, AuthFrame], map[0 := Packed], FlushLock, SaidSuccess)
    ensures ExecFrom(PLAIN, a, Work(5)) == State(Ready, Nobody, [], READY_SOCKET, map[0 := Packed], Waiting, SaidSuccess)
  {
    hide ExecFrom, Work;
    assert [StartupFrame, AuthFrame] + Requests([0]) == READY_SOCKET;
    var b := a.(owner := ParserThread, parser := FlushWrite);
    var c := b.(socket := READY_SOCKET, parser := FlushClear);
    AfterWork(PLAIN, a, 5);
    AfterWork(PLAIN, b, 4);
    AfterWork(PLAIN, c, 3);
    AfterWork(PLAIN, c.(pending := [], parser := FlushUnlock), 2);
    AfterWork(PLAIN, c.(pending := [], owner := Nobody, parser := PutReady), 1);
    WorkDone(PLAIN, State(Ready, Nobody, [], READY_SOCKET, map[0 := Packed], Waiting, SaidSuccess));
  }

  /** The server asks for authentication and accepts it: the request packed before is on the wire. */
  lemma ReadyRun()
    ensures var s := Exec(PLAIN, PackOne() + [Receive(SaidAuthenticate)] + Work(4) + [Receive(SaidSuccess)] + Work(9));
            s.status.Ready? && s.pending == [] && s.socket == READY_SOCKET
  {
    hide ExecFrom, Exec, Work;
    var a := PackOne() + [Receive(SaidAuthenticate)];
    var b := a + Work(4) + [Receive(SaidSuccess)];
    PackOneRuns(PLAIN);
    Once(PLAIN, PackOne(), Receive(SaidAuthenticate));
    AuthenticateRuns(Exec(PLAIN, a));
    ExecContinues(PLAIN, a, Work(4));
    Once(PLAIN, a + Work(4), Receive(SaidSuccess));
    SuccessRuns(Exec(PLAIN, b));
    ExecContinues(PLAIN, b, Work(9));
  }
}
