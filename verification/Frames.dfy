/**
 Incremental parsing of response frames (external/brpc/922.patch.new:1171-1177, 1332-1342, 3561-3619): bytes
 arrive in chunks of any size, and a head may be parsed long before its body is complete.
 */
module Frames {
  import opened Bytes
  import opened Wrappers

  const HEAD_SIZE: nat := 9
  const STARTUP_STREAM: int := 32640

  datatype Head = Head(version: Byte, flag: Byte, stream: int, opcode: Byte, length: nat)

  datatype Frame = Frame(head: Head, body: seq<Byte>)

  /** The fields of a head as their C++ types bound them: a signed 16-bit stream and an unsigned 32-bit length. */
  predicate HeadOk(h: Head) {
    -TWO_15 <= h.stream < TWO_15 && h.length < TWO_32
  }

  function EncodeHead(h: Head): (r: seq<Byte>)
    ensures |r| == HEAD_SIZE
  {
    [h.version, h.flag] + Encode16(h.stream) + [h.opcode] + Encode32(h.length)
  }

  function DecodeHead(b: seq<Byte>): (h: Head)
    requires |b| >= HEAD_SIZE
    ensures HeadOk(h)
  {
    Head(b[0], b[1], Int16(Unsigned16(b[2..])), b[4], Unsigned32(b[5..]))
  }

  lemma HeadRoundTrip(h: Head, rest: seq<Byte>)
    requires HeadOk(h)
    ensures DecodeHead(EncodeHead(h) + rest) == h
  {
    hide Encode16, Encode32, Unsigned16, Unsigned32;
    var b := EncodeHead(h) + rest;
    assert b[2..] == Encode16(h.stream) + ([h.opcode] + Encode32(h.length) + rest);
    Decode16(h.stream, [h.opcode] + Encode32(h.length) + rest);
    assert b[5..] == Encode32(h.length) + rest;
    Decode32(h.length, rest);
  }

  lemma HeadRoundTripBack(b: seq<Byte>)
    requires |b| == HEAD_SIZE
    ensures EncodeHead(DecodeHead(b)) == b
  {
    var u := Unsigned16(b[2..]);
    assert b[2..][..2] == b[2..4] && Unsigned16(b[2..4]) == u;
    Encode16Inverts(b[2..4]);
    assert Encode16(Int16(u)) == Encode16(u) by { Encode16Low(if u < TWO_15 then 0 else -1, u); }
    Encode32Inverts(b[5..]);
    assert b == [b[0], b[1]] + b[2..4] + [b[4]] + b[5..];
  }

  /** Section 2 of the protocol: version, flags, a signed stream id, opcode and length, most significant bytes first. */
  lemma HeadLayout(h: Head)
    requires HeadOk(h)
    ensures var b, s := EncodeHead(h), if h.stream < 0 then h.stream + 0x1_0000 else h.stream;
            && b[0] == h.version && b[1] == h.flag && b[4] == h.opcode && s == (b[2] as int) * 0x100 + b[3] as int
            && h.length == (b[5] as int) * 0x100_0000 + (b[6] as int) * 0x1_0000 + (b[7] as int) * 0x100 + b[8] as int
  {
    HeadRoundTrip(h, []);
    var b := EncodeHead(h);
    assert b + [] == b;
  }

  /** `IsResponseOpcode`. */
  predicate IsResponseOpcode(op: Byte) {
    op in {0x08, 0x00, 0x02, 0x03, 0x06, 0x0C, 0x0E, 0x10}
  }

  /** Whether a stream is registered when a head naming it is parsed, given the frames taken so far. */
  type Registry = (seq<Frame>, int) -> bool

  datatype Context = Context(version: Byte, registry: Registry)

  /** The checks of `ConsumeHead`. */
  predicate Accepts(c: Context, taken: seq<Frame>, h: Head) {
    && h.version == (if c.version < 0x80 then c.version + 0x80 else c.version)
    && IsResponseOpcode(h.opcode)
    && (h.stream >= STARTUP_STREAM || c.registry(taken, h.stream))
  }

  /** The opcodes of the messages that section 4.2 lets a server send, ERROR to AUTH_SUCCESS. */
  predicate SentByServers(op: Byte) {
    op <= 0x10 && op != 0x01 && op != 0x04 && op != 0x05 && op != 0x07 && !(0x09 <= op <= 0x0B) && op != 0x0D && op != 0x0F
  }

  /** A head is accepted if and only if it is a response of the client's version on an awaited or internal stream. */
  lemma AcceptsExactly(c: Context, taken: seq<Frame>, h: Head)
    requires HeadOk(h)
    ensures Accepts(c, taken, h) <==>
            && h.version >= 0x80 && h.version % 0x80 == c.version % 0x80 && SentByServers(h.opcode)
            && (0x7F80 <= h.stream <= 0x7FFF || c.registry(taken, h.stream))
  {
  }

  /** The parser and its unread bytes; once a head is refused the connection is closed and bytes are dropped. */
  datatype State = State(head: Option<Head>, buf: seq<Byte>, taken: seq<Frame>, closed: bool)

  function Start(): State {
    State(None, [], [], false)
  }

  predicate CanStep(s: State) {
    !s.closed && if s.head.None? then |s.buf| >= HEAD_SIZE else s.head.value.length <= |s.buf|
  }

  /** The least progress the parser makes: take a head off the buffer, or a body and with it a whole frame. */
  function Step(c: Context, s: State): State
    requires CanStep(s)
  {
    match s.head
    case None =>
      var h := DecodeHead(s.buf);
      if Accepts(c, s.taken, h) then s.(head := Some(h), buf := s.buf[HEAD_SIZE..])
      else s.(buf := [], closed := true)
    case Some(h) =>
      State(None, s.buf[h.length..], s.taken + [Frame(h, s.buf[..h.length])], false)
  }

  /** Progress until more bytes are needed. */
  function Drain(c: Context, s: State): State
    decreases |s.buf| + (if s.head.Some? then 1 else 0)
  {
    if CanStep(s) then Drain(c, Step(c, s)) else s
  }

  function Arrive(s: State, chunk: seq<Byte>): State {
    if s.closed then s else s.(buf := s.buf + chunk)
  }

  /** A chunk comes in and `Consume` is called until it asks for more data. */
  function Feed(c: Context, s: State, chunk: seq<Byte>): State {
    Drain(c, Arrive(s, chunk))
  }

  function FeedAll(c: Context, s: State, chunks: seq<seq<Byte>>): State
    decreases |chunks|
  {
    if chunks == [] then s else FeedAll(c, Feed(c, s, chunks[0]), chunks[1..])
  }

  function Concat(chunks: seq<seq<Byte>>): seq<Byte> {
    if chunks == [] then [] else chunks[0] + Concat(chunks[1..])
  }

  // ---------------------------------------------------------------------------------------------
  // Chunks do not matter
  // ---------------------------------------------------------------------------------------------

  /** A step that can be taken can be taken with more bytes at hand, to the same effect. */
  lemma StepEarly(c: Context, s: State, more: seq<Byte>)
    requires CanStep(s)
    ensures CanStep(Arrive(s, more)) && Step(c, Arrive(s, more)) == Arrive(Step(c, s), more)
  {
    var t := Arrive(s, more);
    if s.head.None? {
      assert t.buf[2..] == s.buf[2..] + more && t.buf[5..] == s.buf[5..] + more;
      assert DecodeHead(t.buf) == DecodeHead(s.buf);
      assert t.buf[HEAD_SIZE..] == s.buf[HEAD_SIZE..] + more;
    } else {
      var n := s.head.value.length;
      assert t.buf[..n] == s.buf[..n] && t.buf[n..] == s.buf[n..] + more;
    }
  }

  /** Working on what is there before more arrives makes no difference in the end. */
  lemma {:induction false} DrainEarly(c: Context, s: State, more: seq<Byte>)
    ensures Drain(c, Arrive(Drain(c, s), more)) == Drain(c, Arrive(s, more))
    decreases |s.buf| + (if s.head.Some? then 1 else 0)
  {
    if CanStep(s) {
      StepEarly(c, s, more);
      DrainEarly(c, Step(c, s), more);
    }
  }

  /** Two chunks have the effect of one. */
  lemma FeedSplit(c: Context, s: State, a: seq<Byte>, b: seq<Byte>)
    ensures Feed(c, Feed(c, s, a), b) == Feed(c, s, a + b)
  {
    DrainEarly(c, Arrive(s, a), b);
    ArriveJoins(s, a, b);
  }

  /** However the bytes are split into chunks, the parser ends in the same state with the same frames taken. */
  lemma {:induction false} ChunksDoNotMatter(c: Context, chunks: seq<seq<Byte>>, s: State)
    requires Drain(c, s) == s
    ensures FeedAll(c, s, chunks) == Feed(c, s, Concat(chunks))
    decreases |chunks|
  {
    if chunks == [] {
      assert s.buf + [] == s.buf;
    } else {
      var t := Feed(c, s, chunks[0]);
      DrainIdle(c, Arrive(s, chunks[0]));
      ChunksDoNotMatter(c, chunks[1..], t);
      FeedSplit(c, s, chunks[0], Concat(chunks[1..]));
    }
  }

  lemma {:induction false} DrainIdle(c: Context, s: State)
    ensures !CanStep(Drain(c, s)) && Drain(c, Drain(c, s)) == Drain(c, s)
    decreases |s.buf| + (if s.head.Some? then 1 else 0)
  {
    if CanStep(s) {
      DrainIdle(c, Step(c, s));
    }
  }

  // ---------------------------------------------------------------------------------------------
  // Parsing inverts framing
  // ---------------------------------------------------------------------------------------------

  function EncodeFrames(fs: seq<Frame>): seq<Byte> {
    if fs == [] then [] else EncodeHead(fs[0].head) + fs[0].body + EncodeFrames(fs[1..])
  }

  /** Every frame is well formed and names a stream that is registered when its turn comes. */
  predicate Expected(c: Context, taken: seq<Frame>, fs: seq<Frame>)
    decreases |fs|
  {
    fs == []
    || (HeadOk(fs[0].head) && fs[0].head.length == |fs[0].body| && Accepts(c, taken, fs[0].head)
        && Expected(c, taken + [fs[0]], fs[1..]))
  }

  lemma OneFrame(c: Context, taken: seq<Frame>, f: Frame, rest: seq<Byte>)
    requires HeadOk(f.head) && f.head.length == |f.body| && Accepts(c, taken, f.head)
    ensures Drain(c, State(None, EncodeHead(f.head) + f.body + rest, taken, false)) == Drain(c, State(None, rest, taken + [f], false))
  {
    var s := State(None, EncodeHead(f.head) + f.body + rest, taken, false);
    assert s.buf == EncodeHead(f.head) + (f.body + rest);
    HeadRoundTrip(f.head, f.body + rest);
    var t := Step(c, s);
    assert t == State(Some(f.head), f.body + rest, taken, false);
    assert (f.body + rest)[..|f.body|] == f.body && (f.body + rest)[|f.body|..] == rest;
    assert CanStep(t) && Step(c, t) == State(None, rest, taken + [f], false);
  }

  /** Any valid stream of frames, cut into chunks anywhere, is taken frame by frame with nothing left over. */
  lemma {:induction false} FramesComeBack(c: Context, taken: seq<Frame>, fs: seq<Frame>)
    requires Expected(c, taken, fs)
    ensures Drain(c, State(None, EncodeFrames(fs), taken, false)) == State(None, [], taken + fs, false)
    decreases |fs|
  {
    if fs == [] {
      assert taken + fs == taken;
    } else {
      OneFrame(c, taken, fs[0], EncodeFrames(fs[1..]));
      FramesComeBack(c, taken + [fs[0]], fs[1..]);
      assert taken + [fs[0]] + fs[1..] == taken + fs;
    }
  }

  /** In any chunks, the first frame that is not acceptable closes the connection: the frames before it are taken, and no more. */
  lemma RefusedFrameCloses(c: Context, fs: seq<Frame>, h: Head, rest: seq<Byte>, chunks: seq<seq<Byte>>)
    requires Expected(c, [], fs) && HeadOk(h) && !Accepts(c, fs, h)
    requires Concat(chunks) == EncodeFrames(fs) + (EncodeHead(h) + rest)
    ensures FeedAll(c, Start(), chunks) == State(None, [], fs, true)
  {
    hide Accepts, EncodeHead, Drain, Expected;
    StartIsIdle(c);
    ChunksDoNotMatter(c, chunks, Start());
    FramesThenMore(c, [], fs, EncodeHead(h) + rest);
    Refused(c, fs, h, rest);
    assert [] + Concat(chunks) == Concat(chunks) && [] + fs == fs;
  }

  lemma StartIsIdle(c: Context)
    ensures Drain(c, Start()) == Start()
  {
  }

  lemma Refused(c: Context, taken: seq<Frame>, h: Head, rest: seq<Byte>)
    requires HeadOk(h) && !Accepts(c, taken, h)
    ensures Drain(c, State(None, EncodeHead(h) + rest, taken, false)) == State(None, [], taken, true)
  {
    hide Accepts, EncodeHead, DecodeHead;
    HeadRoundTrip(h, rest);
    var s := State(None, [], taken, true);
    assert Drain(c, s) == s;
  }

  lemma {:induction false} FramesThenMore(c: Context, taken: seq<Frame>, fs: seq<Frame>, more: seq<Byte>)
    requires Expected(c, taken, fs)
    ensures Drain(c, State(None, EncodeFrames(fs) + more, taken, false)) == Drain(c, State(None, more, taken + fs, false))
    decreases |fs|
  {
    hide Drain, EncodeHead;
    if fs == [] {
      assert taken + fs == taken && EncodeFrames(fs) + more == more;
    } else {
      var f, others := fs[0], EncodeFrames(fs[1..]);
      assert EncodeFrames(fs) + more == EncodeHead(f.head) + f.body + (others + more);
      OneFrame(c, taken, f, others + more);
      FramesThenMore(c, taken + [f], fs[1..], more);
      assert taken + [f] + fs[1..] == taken + fs;
    }
  }

  lemma AnyChunksComeBack(c: Context, fs: seq<Frame>, chunks: seq<seq<Byte>>)
    requires Expected(c, [], fs) && Concat(chunks) == EncodeFrames(fs)
    ensures FeedAll(c, Start(), chunks) == State(None, [], fs, false)
  {
    ChunksDoNotMatter(c, chunks, Start());
    assert [] + EncodeFrames(fs) == EncodeFrames(fs) && [] + fs == fs;
    FramesComeBack(c, [], fs);
  }

  // ---------------------------------------------------------------------------------------------
  // Messages are parsed one at a time
  // ---------------------------------------------------------------------------------------------

  /** One call of `Consume`: a head unless one is held already, then a body if it is complete. */
  function ConsumeOnce(c: Context, s: State): State {
    if !CanStep(s) then s
    else if s.head.Some? then Step(c, s)
    else
      var t := Step(c, s);
      if CanStep(t) then Step(c, t) else t
  }

  /** Whether that call finished a frame. */
  predicate Finishes(c: Context, s: State) {
    |ConsumeOnce(c, s).taken| > |s.taken|
  }

  predicate IsInternal(h: Head) {
    h.stream >= STARTUP_STREAM
  }

  function LastTaken(s: State): Frame
    requires s.taken != []
  {
    s.taken[|s.taken| - 1]
  }

  /** The call finished a user's frame, so `ParseCqlMessage` hands a message over and is called again. */
  predicate HandsOver(c: Context, s: State) {
    Finishes(c, s) && !IsInternal(LastTaken(ConsumeOnce(c, s)).head)
  }

  /**
   `ParseCqlMessage` called until it hands nothing over: it stops for want of data, at a refused head, and also
   after every internal frame, whose handlers all report that more data is needed.
   */
  function Poll(c: Context, s: State): State
    decreases |s.buf| + (if s.head.Some? then 1 else 0)
  {
    if HandsOver(c, s) then ConsumeShrinks(c, s); Poll(c, ConsumeOnce(c, s)) else ConsumeOnce(c, s)
  }

  lemma ConsumeShrinks(c: Context, s: State)
    ensures Finishes(c, s) ==> ConsumeOnce(c, s).head.None? && |ConsumeOnce(c, s).buf| + 1 <= |s.buf| + (if s.head.Some? then 1 else 0)
    ensures CanStep(s) ==> ConsumeOnce(c, s).closed || Finishes(c, s) || !CanStep(ConsumeOnce(c, s))
    ensures s.taken <= ConsumeOnce(c, s).taken && (ConsumeOnce(c, s).closed ==> !Finishes(c, s))
  {
  }

  /** A chunk comes in and is worked on. */
  function Take(c: Context, s: State, chunk: seq<Byte>): State {
    Poll(c, Arrive(s, chunk))
  }

  function TakeAll(c: Context, s: State, chunks: seq<seq<Byte>>): State
    decreases |chunks|
  {
    if chunks == [] then s else TakeAll(c, Take(c, s, chunks[0]), chunks[1..])
  }

  lemma ConsumeIsOnTheWay(c: Context, s: State)
    ensures Drain(c, ConsumeOnce(c, s)) == Drain(c, s)
  {
  }

  /** Stopping early loses nothing: what is left leads to the same end. */
  lemma {:induction false} PollIsOnTheWay(c: Context, s: State)
    ensures Drain(c, Poll(c, s)) == Drain(c, s)
    decreases |s.buf| + (if s.head.Some? then 1 else 0)
  {
    ConsumeIsOnTheWay(c, s);
    if HandsOver(c, s) {
      ConsumeShrinks(c, s);
      PollIsOnTheWay(c, ConsumeOnce(c, s));
    }
  }

  /** The parser leaves work behind only when it has just taken an internal frame. */
  lemma {:induction false} PollStopsAtInternal(c: Context, s: State)
    ensures var t := Poll(c, s);
            |s.taken| <= |t.taken| && (CanStep(t) ==> |s.taken| < |t.taken| && IsInternal(LastTaken(t).head))
    decreases |s.buf| + (if s.head.Some? then 1 else 0)
  {
    ConsumeShrinks(c, s);
    if HandsOver(c, s) {
      PollStopsAtInternal(c, ConsumeOnce(c, s));
    }
  }

  /** What was left behind is not lost, however the bytes were split. */
  lemma {:induction false} TakeAllIsOnTheWay(c: Context, chunks: seq<seq<Byte>>, s: State)
    ensures Drain(c, TakeAll(c, s, chunks)) == Feed(c, s, Concat(chunks))
    decreases |chunks|
  {
    hide Poll, Drain;
    if chunks == [] {
      assert s.buf + [] == s.buf;
    } else {
      var first, more := chunks[0], Concat(chunks[1..]);
      var arrived := Arrive(s, first);
      TakeAllIsOnTheWay(c, chunks[1..], Take(c, s, first));
      PollIsOnTheWay(c, arrived);
      DrainEarly(c, Poll(c, arrived), more);
      DrainEarly(c, arrived, more);
      ArriveJoins(s, first, more);
    }
  }

  lemma ArriveJoins(s: State, a: seq<Byte>, b: seq<Byte>)
    ensures Arrive(Arrive(s, a), b) == Arrive(s, a + b)
  {
    assert s.buf + a + b == s.buf + (a + b);
  }

  /** How many of the frames that lie complete in the buffer one round takes: up to the first internal one. */
  function Round(fs: seq<Frame>): (n: nat)
    ensures n <= |fs|
  {
    if fs == [] then 0 else if IsInternal(fs[0].head) then 1 else 1 + Round(fs[1..])
  }

  lemma OneFrameConsumed(c: Context, taken: seq<Frame>, f: Frame, rest: seq<Byte>)
    requires HeadOk(f.head) && f.head.length == |f.body| && Accepts(c, taken, f.head)
    ensures ConsumeOnce(c, State(None, EncodeHead(f.head) + f.body + rest, taken, false)) == State(None, rest, taken + [f], false)
  {
    var s := State(None, EncodeHead(f.head) + f.body + rest, taken, false);
    assert s.buf == EncodeHead(f.head) + (f.body + rest);
    HeadRoundTrip(f.head, f.body + rest);
    var t := Step(c, s);
    assert t == State(Some(f.head), f.body + rest, taken, false);
    assert (f.body + rest)[..|f.body|] == f.body && (f.body + rest)[|f.body|..] == rest;
  }

  lemma NothingToPoll(c: Context, taken: seq<Frame>)
    ensures Poll(c, State(None, [], taken, false)) == State(None, [], taken, false)
  {
  }

  /** Frames that arrive together are taken up to and including the first internal one; the others wait. */
  lemma {:induction false} RoundIsTaken(c: Context, taken: seq<Frame>, fs: seq<Frame>)
    requires Expected(c, taken, fs)
    ensures Poll(c, State(None, EncodeFrames(fs), taken, false)) == State(None, EncodeFrames(fs[Round(fs)..]), taken + fs[..Round(fs)], false)
    decreases |fs|
  {
    hide Step, CanStep, ConsumeOnce, EncodeHead, Accepts;
    var s := State(None, EncodeFrames(fs), taken, false);
    if fs == [] {
      NothingToPoll(c, taken);
      assert taken + fs[..0] == taken;
    } else {
      OneFrameConsumed(c, taken, fs[0], EncodeFrames(fs[1..]));
      assert LastTaken(ConsumeOnce(c, s)) == fs[0];
      if IsInternal(fs[0].head) {
        assert fs[..1] == [fs[0]];
      } else {
        RoundIsTaken(c, taken + [fs[0]], fs[1..]);
        var n := Round(fs[1..]);
        assert fs[1..][n..] == fs[n + 1..] && taken + [fs[0]] + fs[1..][..n] == taken + fs[..n + 1];
      }
    }
  }

  /** All frames that arrive together are taken if and only if none but the last is internal. */
  lemma {:induction false} RoundIsAll(fs: seq<Frame>)
    ensures Round(fs) == |fs| <==> InternalOnlyLast(fs)
    decreases |fs|
  {
    if fs != [] {
      RoundIsAll(fs[1..]);
      assert forall i :: 0 < i < |fs| - 1 ==> fs[i] == fs[1..][i - 1];
      assert forall i :: 0 <= i < |fs| - 2 ==> fs[1..][i] == fs[i + 1];
    }
  }

  /** A frame behind an internal one is taken at once if it comes in a chunk of its own, and not if it comes along. */
  lemma ChunkingMatters(c: Context, f: Frame, g: Frame)
    requires Expected(c, [], [f, g]) && IsInternal(f.head)
    ensures TakeAll(c, Start(), [EncodeFrames([f, g])]).taken == [f]
    ensures TakeAll(c, Start(), [EncodeFrames([f]), EncodeFrames([g])]).taken == [f, g]
  {
    hide EncodeFrames, Poll;
    var both, first, second := EncodeFrames([f, g]), EncodeFrames([f]), EncodeFrames([g]);
    FewChunks(c, Start(), both, first, second);
    assert [f, g][1..] == [g] && [g][1..] == [] && [f][1..] == [];
    assert [] + [f] == [f];
    RoundIsTaken(c, [], [f, g]);
    RoundIsTaken(c, [], [f]);
    RoundIsTaken(c, [f], [g]);
    NoFrames();
    assert [] + both == both && [] + first == first && [] + second == second;
    assert [f, g][..1] == [f] && [f][..1] == [f] && [g][..1] == [g];
    assert [] + [f] == [f] && [f] + [g] == [f, g];
  }

  lemma FewChunks(c: Context, s: State, a: seq<Byte>, b: seq<Byte>, d: seq<Byte>)
    ensures TakeAll(c, s, [a]) == Take(c, s, a) && TakeAll(c, s, [b, d]) == Take(c, Take(c, s, b), d)
  {
    hide Take;
    OneChunk(c, s, a);
    OneChunk(c, Take(c, s, b), d);
    var last: seq<seq<Byte>> := [d];
    assert [b, d][1..] == last;
  }

  lemma OneChunk(c: Context, s: State, a: seq<Byte>)
    ensures TakeAll(c, s, [a]) == Take(c, s, a)
  {
    hide Take;
    var none: seq<seq<Byte>> := [];
    assert [a][1..] == none;
  }

  lemma NoFrames()
    ensures EncodeFrames([]) == []
  {
  }

  // ---------------------------------------------------------------------------------------------
  // Which frames are taken, read off the frames and the sizes of the chunks
  // ---------------------------------------------------------------------------------------------

  function FrameSize(f: Frame): nat {
    HEAD_SIZE + |f.body|
  }

  function TotalSize(fs: seq<Frame>): nat {
    if fs == [] then 0 else FrameSize(fs[0]) + TotalSize(fs[1..])
  }

  /** How many of the frames are complete in their first `len` bytes. */
  function Complete(fs: seq<Frame>, len: int): (n: nat)
    ensures n <= |fs|
  {
    if fs == [] || len < FrameSize(fs[0]) then 0 else 1 + Complete(fs[1..], len - FrameSize(fs[0]))
  }

  /**
   How many of the frames `fs` are taken when `len` bytes of them are there and chunks of the given sizes come in:
   each chunk is good for the frames that are complete with it, up to and including the first internal one.
   */
  function TakenOf(fs: seq<Frame>, len: int, sizes: seq<nat>): (n: nat)
    ensures n <= |fs|
    decreases |sizes|
  {
    if sizes == [] then 0
    else
      var now := len + sizes[0];
      var n := Round(fs[..Complete(fs, now)]);
      n + TakenOf(fs[n..], now - TotalSize(fs[..n]), sizes[1..])
  }

  function Sizes(chunks: seq<seq<Byte>>): seq<nat> {
    seq(|chunks|, i requires 0 <= i < |chunks| => |chunks[i]|)
  }

  lemma {:induction false} EncodedSize(fs: seq<Frame>)
    ensures |EncodeFrames(fs)| == TotalSize(fs)
  {
    if fs != [] {
      EncodedSize(fs[1..]);
    }
  }

  /** The parser stands in a stream of frames: `len` bytes of the frames `fs`, not yet taken, have arrived. */
  ghost predicate Follows(s: State, fs: seq<Frame>, len: nat) {
    && !s.closed && len <= |EncodeFrames(fs)|
    && if s.head.None? then s.buf == EncodeFrames(fs)[..len]
       else fs != [] && s.head.value == fs[0].head && HEAD_SIZE <= len && s.buf == EncodeFrames(fs)[HEAD_SIZE..len]
  }

  lemma MoreFollows(s: State, fs: seq<Frame>, len: nat, chunk: seq<Byte>)
    requires Follows(s, fs, len) && len + |chunk| <= |EncodeFrames(fs)| && chunk == EncodeFrames(fs)[len..len + |chunk|]
    ensures Follows(Arrive(s, chunk), fs, len + |chunk|)
  {
    hide EncodeFrames;
    var e := EncodeFrames(fs);
    assert e[..len] + e[len..len + |chunk|] == e[..len + |chunk|];
    if HEAD_SIZE <= len {
      assert e[HEAD_SIZE..len] + e[len..len + |chunk|] == e[HEAD_SIZE..len + |chunk|];
    }
  }

  /** With its head complete, a frame's head is read. */
  lemma HeadFollows(c: Context, s: State, fs: seq<Frame>, len: nat)
    requires Follows(s, fs, len) && Expected(c, s.taken, fs) && s.head.None? && HEAD_SIZE <= len
    ensures CanStep(s) && Step(c, s).taken == s.taken && Step(c, s).head.Some? && Follows(Step(c, s), fs, len)
  {
    hide EncodeHead, DecodeHead;
    var e, f := EncodeFrames(fs), fs[0];
    assert e == EncodeHead(f.head) + (f.body + EncodeFrames(fs[1..]));
    var rest := (f.body + EncodeFrames(fs[1..]))[..len - HEAD_SIZE];
    assert s.buf == EncodeHead(f.head) + rest;
    HeadRoundTrip(f.head, rest);
    assert s.buf[HEAD_SIZE..] == e[HEAD_SIZE..len];
  }

  /** With its head read, the frame is taken exactly if it is complete. */
  lemma BodyFollows(c: Context, s: State, fs: seq<Frame>, len: nat)
    requires Follows(s, fs, len) && Expected(c, s.taken, fs) && s.head.Some?
    ensures CanStep(s) <==> FrameSize(fs[0]) <= len
    ensures CanStep(s) ==> Step(c, s).taken == s.taken + [fs[0]] && Step(c, s).head.None? && Follows(Step(c, s), fs[1..], len - FrameSize(fs[0]))
  {
    hide EncodeHead;
    var e, f, later := EncodeFrames(fs), fs[0], EncodeFrames(fs[1..]);
    assert e == EncodeHead(f.head) + f.body + later;
    if FrameSize(f) <= len {
      assert s.buf[..|f.body|] == e[HEAD_SIZE..FrameSize(f)] == f.body;
      assert s.buf[|f.body|..] == e[FrameSize(f)..len] == later[..len - FrameSize(f)];
    }
  }

  /** One call takes the next frame exactly if it is complete. */
  lemma ConsumeFollows(c: Context, s: State, fs: seq<Frame>, len: nat)
    requires Follows(s, fs, len) && Expected(c, s.taken, fs)
    ensures var t := ConsumeOnce(c, s);
            if Complete(fs, len) > 0 then t.taken == s.taken + [fs[0]] && Follows(t, fs[1..], len - FrameSize(fs[0]))
            else t.taken == s.taken && Follows(t, fs, len)
  {
    hide Step, Expected;
    EncodedSize(fs);
    if s.head.Some? {
      BodyFollows(c, s, fs, len);
    } else if HEAD_SIZE <= len {
      HeadFollows(c, s, fs, len);
      BodyFollows(c, Step(c, s), fs, len);
    }
  }

  lemma {:induction false} ExpectedLater(c: Context, taken: seq<Frame>, fs: seq<Frame>, n: nat)
    requires Expected(c, taken, fs) && n <= |fs|
    ensures Expected(c, taken + fs[..n], fs[n..])
    decreases n
  {
    hide Accepts;
    if n == 0 {
      assert taken + fs[..0] == taken && fs[0..] == fs;
    } else {
      ExpectedLater(c, taken + [fs[0]], fs[1..], n - 1);
      assert taken + [fs[0]] + fs[1..][..n - 1] == taken + fs[..n] && fs[1..][n - 1..] == fs[n..];
    }
  }

  lemma PollCases(c: Context, s: State)
    ensures ConsumeOnce(c, s).taken == s.taken ==> Poll(c, s) == ConsumeOnce(c, s)
    ensures forall f :: ConsumeOnce(c, s).taken == s.taken + [f]
              ==> Poll(c, s) == if IsInternal(f.head) then ConsumeOnce(c, s) else Poll(c, ConsumeOnce(c, s))
  {
    hide ConsumeOnce;
  }

  /** The first round, frame by frame. */
  lemma RoundCases(fs: seq<Frame>, k: nat)
    requires k <= |fs|
    ensures k == 0 ==> Round(fs[..k]) == 0
    ensures k > 0 && IsInternal(fs[0].head) ==> Round(fs[..k]) == 1
    ensures k > 0 && !IsInternal(fs[0].head) ==> Round(fs[..k]) == 1 + Round(fs[1..][..k - 1])
  {
    if k > 0 {
      assert fs[..k][1..] == fs[1..][..k - 1];
    }
  }

  lemma OneMore(fs: seq<Frame>, m: nat)
    requires m < |fs|
    ensures fs[..0] == [] && fs[0..] == fs && TotalSize(fs[..0]) == 0
    ensures fs[..m + 1] == [fs[0]] + fs[1..][..m] && fs[m + 1..] == fs[1..][m..]
    ensures TotalSize(fs[..m + 1]) == FrameSize(fs[0]) + TotalSize(fs[1..][..m])
  {
    assert fs[..m + 1][1..] == fs[1..][..m];
  }

  /** One round takes the complete frames up to and including the first internal one. */
  lemma {:induction false} PollFollows(c: Context, s: State, fs: seq<Frame>, len: nat)
    requires Follows(s, fs, len) && Expected(c, s.taken, fs)
    ensures var n := Round(fs[..Complete(fs, len)]);
            && Poll(c, s).taken == s.taken + fs[..n] && TotalSize(fs[..n]) <= len
            && Follows(Poll(c, s), fs[n..], len - TotalSize(fs[..n]))
    decreases |fs|
  {
    hide ConsumeOnce, Poll, Follows, Accepts, Round, TotalSize, FrameSize;
    ConsumeFollows(c, s, fs, len);
    PollCases(c, s);
    var t, k := ConsumeOnce(c, s), Complete(fs, len);
    RoundCases(fs, k);
    if k == 0 {
      NoneTaken(s.taken, fs);
    } else if IsInternal(fs[0].head) {
      OneMore(fs, 0);
    } else {
      PollFollows(c, t, fs[1..], len - FrameSize(fs[0]));
      var m := Round(fs[1..][..k - 1]);
      OneMore(fs, m);
      assert s.taken + [fs[0]] + fs[1..][..m] == s.taken + fs[..m + 1];
    }
  }

  lemma NoneTaken(taken: seq<Frame>, fs: seq<Frame>)
    ensures taken + fs[..0] == taken && fs[0..] == fs && TotalSize(fs[..0]) == 0
  {
  }

  /** One chunk of the stream. */
  lemma ChunkFollows(c: Context, s: State, fs: seq<Frame>, len: nat, chunk: seq<Byte>)
    requires Follows(s, fs, len) && Expected(c, s.taken, fs)
    requires len + |chunk| <= |EncodeFrames(fs)| && chunk == EncodeFrames(fs)[len..len + |chunk|]
    ensures var now := len + |chunk|;
            var n := Round(fs[..Complete(fs, now)]);
            var t := Take(c, s, chunk);
            && t.taken == s.taken + fs[..n] && TotalSize(fs[..n]) <= now && Follows(t, fs[n..], now - TotalSize(fs[..n]))
            && Expected(c, t.taken, fs[n..])
  {
    hide Follows, Expected, Poll, EncodeFrames, Complete, Round, TotalSize;
    MoreFollows(s, fs, len, chunk);
    PollFollows(c, Arrive(s, chunk), fs, len + |chunk|);
    ExpectedLater(c, s.taken, fs, Round(fs[..Complete(fs, len + |chunk|)]));
  }

  /** The bytes after the first `n` frames, counted from there. */
  lemma BytesLater(fs: seq<Frame>, n: nat, now: nat, more: nat)
    requires n <= |fs| && TotalSize(fs[..n]) <= now && now + more <= |EncodeFrames(fs)|
    ensures var at := now - TotalSize(fs[..n]);
            at + more <= |EncodeFrames(fs[n..])| && EncodeFrames(fs[n..])[at..at + more] == EncodeFrames(fs)[now..now + more]
  {
    hide EncodeFrames, TotalSize;
    EncodedTail(fs, n);
  }

  lemma FirstChunk(e: seq<Byte>, len: nat, a: seq<Byte>, b: seq<Byte>)
    requires len + |a + b| <= |e| && a + b == e[len..len + |a + b|]
    ensures a == e[len..len + |a|] && b == e[len + |a|..len + |a| + |b|]
  {
    assert a == (a + b)[..|a|] && b == (a + b)[|a|..];
  }

  /** However a stream of frames, or any beginning of one, is split, exactly the frames counted from the sizes are taken. */
  lemma {:induction false} TakenExactly(c: Context, s: State, fs: seq<Frame>, len: nat, chunks: seq<seq<Byte>>)
    requires Follows(s, fs, len) && Expected(c, s.taken, fs)
    requires len + |Concat(chunks)| <= |EncodeFrames(fs)| && Concat(chunks) == EncodeFrames(fs)[len..len + |Concat(chunks)|]
    ensures TakeAll(c, s, chunks).taken == s.taken + fs[..TakenOf(fs, len, Sizes(chunks))]
    decreases |chunks|
  {
    hide Follows, Expected, Take, EncodeFrames, Complete, Round, TotalSize, TakeAll, TakenOf, Sizes, Concat;
    ChunkCases(c, s, fs, len, chunks);
    if chunks == [] {
      NoneTaken(s.taken, fs);
    } else {
      var first, more := chunks[0], Concat(chunks[1..]);
      var now := len + |first|;
      FirstChunk(EncodeFrames(fs), len, first, more);
      ChunkFollows(c, s, fs, len, first);
      var n := Round(fs[..Complete(fs, now)]);
      BytesLater(fs, n, now, |more|);
      var gone := TotalSize(fs[..n]);
      TakenExactly(c, Take(c, s, first), fs[n..], now - gone, chunks[1..]);
      Rejoined(s.taken, fs, n, TakenOf(fs[n..], now - gone, Sizes(chunks[1..])));
    }
  }

  lemma ChunkCases(c: Context, s: State, fs: seq<Frame>, len: nat, chunks: seq<seq<Byte>>)
    ensures chunks == [] ==> TakeAll(c, s, chunks) == s && TakenOf(fs, len, Sizes(chunks)) == 0
    ensures chunks != [] ==>
              var n := Round(fs[..Complete(fs, len + |chunks[0]|)]);
              && Concat(chunks) == chunks[0] + Concat(chunks[1..])
              && TakeAll(c, s, chunks) == TakeAll(c, Take(c, s, chunks[0]), chunks[1..])
              && TakenOf(fs, len, Sizes(chunks)) == n + TakenOf(fs[n..], len + |chunks[0]| - TotalSize(fs[..n]), Sizes(chunks[1..]))
  {
    hide Take, Complete, Round, TotalSize;
    if chunks != [] {
      assert Sizes(chunks)[1..] == Sizes(chunks[1..]);
    }
  }

  lemma Rejoined(taken: seq<Frame>, fs: seq<Frame>, n: nat, m: nat)
    requires n + m <= |fs|
    ensures taken + fs[..n] + fs[n..][..m] == taken + fs[..n + m]
  {
  }

  lemma {:induction false} EncodedTail(fs: seq<Frame>, n: nat)
    requires n <= |fs|
    ensures TotalSize(fs[..n]) <= |EncodeFrames(fs)| && EncodeFrames(fs)[TotalSize(fs[..n])..] == EncodeFrames(fs[n..])
  {
    if n == 0 {
      assert fs[0..] == fs;
    } else {
      EncodedTail(fs[1..], n - 1);
      assert fs[..n][1..] == fs[1..][..n - 1] && fs[1..][n - 1..] == fs[n..];
      assert EncodeFrames(fs)[FrameSize(fs[0])..] == EncodeFrames(fs[1..]);
      assert EncodeFrames(fs)[FrameSize(fs[0])..][TotalSize(fs[1..][..n - 1])..] == EncodeFrames(fs)[TotalSize(fs[..n])..];
    }
  }

  /** The same from the beginning: the frames taken from one split of the bytes of `fs`. */
  lemma SplitTakes(c: Context, fs: seq<Frame>, chunks: seq<seq<Byte>>)
    requires Expected(c, [], fs) && Concat(chunks) == EncodeFrames(fs)
    ensures TakeAll(c, Start(), chunks).taken == fs[..TakenOf(fs, 0, Sizes(chunks))]
  {
    hide Expected, TakenOf, TakeAll;
    var e := EncodeFrames(fs);
    assert e[..0] == [] && e[0..|e|] == e;
    TakenExactly(c, Start(), fs, 0, chunks);
    var n := TakenOf(fs, 0, Sizes(chunks));
    assert [] + fs[..n] == fs[..n];
  }

  predicate InternalOnlyLast(fs: seq<Frame>) {
    forall i :: 0 <= i < |fs| - 1 ==> !IsInternal(fs[i].head)
  }

  function Sum(sizes: seq<nat>): nat {
    if sizes == [] then 0 else sizes[0] + Sum(sizes[1..])
  }

  lemma {:induction false} SumOfSizes(chunks: seq<seq<Byte>>)
    ensures Sum(Sizes(chunks)) == |Concat(chunks)|
  {
    if chunks != [] {
      assert Sizes(chunks)[1..] == Sizes(chunks[1..]);
      SumOfSizes(chunks[1..]);
    }
  }

  lemma {:induction false} AllComplete(fs: seq<Frame>)
    ensures Complete(fs, TotalSize(fs)) == |fs|
  {
    if fs != [] {
      AllComplete(fs[1..]);
    }
  }

  lemma {:induction false} SizeSplits(fs: seq<Frame>, n: nat)
    requires n <= |fs|
    ensures TotalSize(fs) == TotalSize(fs[..n]) + TotalSize(fs[n..])
  {
    if n == 0 {
      assert fs[0..] == fs;
    } else {
      SizeSplits(fs[1..], n - 1);
      assert fs[..n][1..] == fs[1..][..n - 1] && fs[1..][n - 1..] == fs[n..];
    }
  }

  /** If only the last frame is internal, every split counts to all frames. */
  lemma {:induction false} CountsToAll(fs: seq<Frame>, len: int, sizes: seq<nat>)
    requires InternalOnlyLast(fs) && len + Sum(sizes) == TotalSize(fs) && (sizes == [] ==> fs == [])
    ensures TakenOf(fs, len, sizes) == |fs|
    decreases |sizes|
  {
    hide Complete, Round, TotalSize;
    if sizes != [] {
      var now := len + sizes[0];
      var k := Complete(fs, now);
      RoundIsAll(fs[..k]);
      SizeSplits(fs, k);
      if sizes[1..] == [] {
        AllComplete(fs);
      }
      CountsToAll(fs[k..], now - TotalSize(fs[..k]), sizes[1..]);
    }
  }

  /**
   The frames taken do not depend on how the bytes of the frames `fs` are split into chunks, but are all of `fs`, if
   and only if no frame but the last is internal.
   */
  lemma ChunksMatterExactly(c: Context, fs: seq<Frame>)
    requires Expected(c, [], fs)
    ensures (forall chunks :: Concat(chunks) == EncodeFrames(fs) ==> TakeAll(c, Start(), chunks).taken == fs) <==> InternalOnlyLast(fs)
  {
    hide Expected, TakeAll, EncodeFrames, Round;
    if InternalOnlyLast(fs) {
      forall chunks | Concat(chunks) == EncodeFrames(fs)
        ensures TakeAll(c, Start(), chunks).taken == fs
      {
        SplitTakes(c, fs, chunks);
        SumOfSizes(chunks);
        EncodedSize(fs);
        CountsToAll(fs, 0, Sizes(chunks));
        assert fs[..|fs|] == fs;
      }
    } else {
      AtOnce(c, fs);
      RoundIsAll(fs);
      OneConcat(EncodeFrames(fs));
    }
  }

  lemma OneConcat(b: seq<Byte>)
    ensures Concat([b]) == b
  {
    var none: seq<seq<Byte>> := [];
    assert [b][1..] == none && b + [] == b;
  }

  lemma AtOnce(c: Context, fs: seq<Frame>)
    requires Expected(c, [], fs)
    ensures |TakeAll(c, Start(), [EncodeFrames(fs)]).taken| == Round(fs)
  {
    hide Expected, EncodeFrames;
    OneChunk(c, Start(), EncodeFrames(fs));
    RoundIsTaken(c, [], fs);
    assert [] + EncodeFrames(fs) == EncodeFrames(fs);
  }

  // ---------------------------------------------------------------------------------------------
  // The parser itself
  // ---------------------------------------------------------------------------------------------

  datatype ParseError = Ok | NotEnoughData | AbsolutelyWrong

  class Parser {
    const context: Context
    var parsing: Option<Head>
    var source: seq<Byte>
    var taken: seq<Frame>
    var closed: bool

    ghost function View(): State
      reads this
    {
      State(parsing, source, taken, closed)
    }

    constructor (context: Context)
      ensures this.context == context && View() == Start()
    {
      this.context := context;
      parsing, source, taken, closed := None, [], [], false;
    }

    method ConsumeHead() returns (err: ParseError)
      requires !closed && parsing.None? && |source| >= HEAD_SIZE
      modifies this`parsing, this`source, this`closed
      ensures View() == Step(context, old(View()))
      ensures err == if closed then AbsolutelyWrong else Ok
    {
      var h := DecodeHead(source);
      source := source[HEAD_SIZE..];
      if Accepts(context, taken, h) {
        parsing := Some(h);
        err := Ok;
      } else {
        source, closed := [], true;
        err := AbsolutelyWrong;
      }
    }

    /** Cuts the body off the source; the finished response is released to its receiver at once. */
    method ConsumeBody() returns (err: ParseError)
      requires !closed && parsing.Some?
      modifies this`parsing, this`source, this`taken
      ensures err == if old(CanStep(View())) then Ok else NotEnoughData
      ensures View() == if err.Ok? then Step(context, old(View())) else old(View())
    {
      var n := parsing.value.length;
      if n <= |source| {
        taken := taken + [Frame(parsing.value, source[..n])];
        source := source[n..];
        parsing := None;
        return Ok;
      }
      return NotEnoughData;
    }

    /** One call of `Consume`: at most one head and one body. */
    method Consume() returns (err: ParseError)
      requires !closed
      modifies this`parsing, this`source, this`taken, this`closed
      ensures View() == ConsumeOnce(context, old(View()))
      ensures err == if closed then AbsolutelyWrong else if Finishes(context, old(View())) then Ok else NotEnoughData
    {
      if parsing.None? {
        if |source| < HEAD_SIZE {
          return NotEnoughData;
        }
        err := ConsumeHead();
        if err != Ok {
          return;
        }
      }
      err := ConsumeBody();
    }

    /** `ParseCqlMessage`: the code is `Ok` only when a message is handed over. */
    method Parse() returns (err: ParseError)
      requires !closed
      modifies this`parsing, this`source, this`taken, this`closed
      ensures View() == ConsumeOnce(context, old(View()))
      ensures err == if closed then AbsolutelyWrong else if HandsOver(context, old(View())) then Ok else NotEnoughData
    {
      err := Consume();
      if err.Ok? && IsInternal(taken[|taken| - 1].head) {
        err := NotEnoughData;
      }
    }

    /** A chunk arrives and messages are parsed until none is handed over. */
    method Receive(chunk: seq<Byte>)
      modifies this`parsing, this`source, this`taken, this`closed
      ensures View() == Take(context, old(View()), chunk)
    {
      hide ConsumeOnce;
      if closed {
        ClosedStays(context, View());
        return;
      }
      source := source + chunk;
      ghost var arrived := View();
      ghost var before := arrived;
      ConsumeShrinks(context, before);
      var err := Parse();
      while err.Ok?
        invariant err.Ok? ==> HandsOver(context, before) && !closed
        invariant View() == ConsumeOnce(context, before) && (!err.Ok? ==> !HandsOver(context, before))
        invariant Poll(context, before) == Poll(context, arrived)
        decreases err.Ok?, |source| + (if parsing.Some? then 1 else 0)
      {
        before := View();
        ConsumeShrinks(context, before);
        err := Parse();
      }
    }
  }

  lemma ClosedStays(c: Context, s: State)
    requires s.closed
    ensures Poll(c, s) == s
  {
  }
}
