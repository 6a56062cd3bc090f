/** A session: the settings it gives its control block, and the drain of received messages into
    payload buffers of fixed size. */
module Sessions {
  import opened Words
  import opened Segments
  import opened Receiver
  import opened Timing
  import opened Engine
  import opened Messages
  import opened Network
  import opened Refinement
  import opened ByteNetwork
  import opened ControlBlocks

  /** The size of a payload buffer. */
  const PAYLOAD_SIZE := 256 * 1200

  /** What start makes of the default settings. */
  function SessionConfig(conv: u32, session: u32): (c: Config)
    ensures c.Ok() && c.mss == 1172 && c.Resent() == 2
  {
    Config(conv, session, 1200, 1200 - OVERHEAD, 255, 255, 20, 1, 30, 2, 1, 20)
  }

  /** What is left after reading the next message, if any, into a buffer of its size; and the message. */
  function ReadAfter(m: Arith, st: State): (State, seq<seq<byte>>) {
    var n := PeekSize(st.rcv.queue);
    if n < 1 then (st, [])
    else
      var (t, code, data) := Receive(m, st, n);
      (t, [data])
  }

  /** One turn of the session's loop: the outcome of Update, and the message read after it, if any. */
  function Turn(m: Arith, st: State, now: u32, clock: nat -> u32): (Outcome, seq<seq<byte>>) {
    var o := Update(m, st, now, clock);
    var (t, read) := ReadAfter(m, o.st);
    (o.(st := t), read)
  }

  lemma UpdateKeepsQueue(m: Arith, st: State, now: u32, clock: nat -> u32)
    ensures Update(m, st, now, clock).st.rcv == st.rcv
  {}

  class Session {
    const cb: ControlBlock

    /** Starts the session: 1200-byte datagrams, windows of 255, fast resend after 2, no congestion window. */
    constructor (conv: u32, session: u32, pick: nat -> nat)
      ensures cb.Valid() && cb.View() == Fresh(SessionConfig(conv, session), pick)
      ensures cb.cfg == Config(conv, session, 1200, 1172, 255, 255, 20, 1, 30, 2, 1, 20)
      ensures cb.output == [] && fresh(cb) && fresh(cb.buffer)
    {
      cb := new ControlBlock(conv, session, pick);
      new;
      assert MtuFits(cb.snd_queue, cb.snd_buf, 1200);
      var code := cb.SetMtu(1200);
      ghost var c := DefaultConfig(conv, session).(mtu := 1200, mss := 1200 - OVERHEAD);
      assert cb.Valid() && cb.cfg == c;
      cb.NoDelay(1, 20, 2, 1);
      assert cb.cfg == SessionConfig(conv, session).(snd_wnd := 32, rcv_wnd := 32);
      cb.WndSize(255, 255);
      assert cb.cfg == SessionConfig(conv, session);
    }

    /** Fails for an empty payload and for one of more than 255 fragments. */
    method SendPayload(payload: seq<byte>) returns (ok: bool)
      requires cb.Valid()
      modifies cb`snd_queue, cb`pool
      ensures cb.Valid()
      ensures ok <==> Sendable(payload, cb.cfg.mss)
      ensures cb.View() == Send(old(cb.View()), payload).0
    {
      var code := cb.Send(payload);
      ok := code >= 0;
    }

    /** Updates the control block and reads at most one message into a payload buffer; the program stops
        when the message outgrows the buffer, which is what ok denies. */
    method Update(now: u32, clock: nat -> u32) returns (ok: bool, got: seq<seq<byte>>)
      requires cb.Valid()
      modifies cb, cb.buffer
      ensures cb.Valid() && cb.buffer == old(cb.buffer)
      ensures ok <==> PeekSize(old(cb.rcv_queue)) <= PAYLOAD_SIZE
      ensures var o := Engine.Update(Wrapping, old(cb.View()), now, clock);
              && cb.output == old(cb.output) + EncodeNet(o.out)
              && if ok then (cb.View(), got) == ReadAfter(Wrapping, o.st) else (cb.View(), got) == (o.st, [])
    {
      UpdateKeepsQueue(Wrapping, cb.View(), now, clock);
      cb.Update(now, clock);
      var n := cb.PeekSize();
      if n < 1 { return true, []; }
      if n > PAYLOAD_SIZE { return false, []; }
      got := Drain(n);
      ok := true;
    }

    method Drain(n: nat) returns (got: seq<seq<byte>>)
      requires cb.Valid() && n == PeekSize(cb.rcv_queue) <= PAYLOAD_SIZE
      modifies cb`rcv_nxt, cb`rcv_queue, cb`rcv_buf, cb`pool, cb`probe
      ensures cb.Valid()
      ensures var (st, code, data) := Receive(Wrapping, old(cb.View()), n); cb.View() == st && got == [data]
    {
      var payload := new byte[n];
      var code := cb.Recv(payload);
      got := [payload[..]];
      assert payload[..] == payload[..n];
    }
  }

  // ---------- the payload buffer is always large enough ----------

  /** Both ends started as sessions. */
  ghost predicate StartedSessions(s: Sys) {
    && Started(s)
    && s.l.st.cfg == SessionConfig(s.l.st.cfg.conv, s.l.st.cfg.session)
    && s.r.st.cfg == SessionConfig(s.r.st.cfg.conv, s.r.st.cfg.session)
  }

  lemma {:induction false} RunConfig(m: Arith, s: Sys, moves: seq<Move>)
    requires s.Configured()
    ensures var t := Run(m, s, moves); t.l.st.cfg == s.l.st.cfg && t.r.st.cfg == s.r.st.cfg
    decreases |moves|
  {
    if moves != [] {
      var t := Run(m, s, moves[..|moves|-1]);
      RunConfig(m, s, moves[..|moves|-1]);
      match moves[|moves|-1]
      case Left(a) => ActConfig(m, t.l, t.r.net, a);
      case Right(a) => ActConfig(m, t.r, t.l.net, a);
    }
  }

  lemma NextFits(x: End, y: End)
    requires ConnInv(x, y) && y.st.cfg.mss == 1172
    ensures PeekSize(x.st.rcv.queue) <= 255 * 1172
  {
    if |x.st.rcv.queue| > 0 {
      ReadIsNext(x, y);
      var msg := y.sent[|x.got|];
      CutCount(msg, y.st.cfg.mss);
      SizeBound(|msg|, y.st.cfg.mss);
    }
  }

  /** In every run between sessions the next message, if complete, fits a payload buffer at either end. */
  lemma PayloadFits(s: Sys, moves: seq<Move>)
    requires StartedSessions(s)
    ensures var t := Run(Exact, s, moves);
            && PeekSize(t.l.st.rcv.queue) <= 255 * 1172 <= PAYLOAD_SIZE
            && PeekSize(t.r.st.rcv.queue) <= 255 * 1172 <= PAYLOAD_SIZE
  {
    RunIsConnected(s, moves);
    RunConfig(Exact, s, moves);
    var t := Run(Exact, s, moves);
    ConnSymmetric(t.l, t.r);
    NextFits(t.l, t.r);
    NextFits(t.r, t.l);
  }

  /** So at the level of bytes no session's Update stops. */
  lemma BytePayloadFits(s: Sys, moves: seq<Move>)
    requires StartedSessions(s) && NearRun(s, moves)
    ensures var t := RunBytes(RepSys(s), moves);
            PeekSize(t.l.st.rcv.queue) <= PAYLOAD_SIZE && PeekSize(t.r.st.rcv.queue) <= PAYLOAD_SIZE
  {
    RunsAgree(s, moves);
    PayloadFits(s, moves);
    var t := Run(Exact, s, moves);
    SizeIsSame(t.l.st.rcv);
    SizeIsSame(t.r.st.rcv);
  }

  lemma SizeIsSame(r: Rcv)
    ensures PeekSize(RepRcv(r).queue) == PeekSize(r.queue)
  {
    RestCommutes(r);
  }

  lemma {:induction false} JoinedSize(q: seq<Segment>, size: nat)
    requires forall k :: 0 <= k < |q| ==> |q[k].body.Data()| == size
    ensures |Joined(q)| == |q| * size
  {
    if q != [] {
      assert Joined(q) == Joined(q[..|q|-1]) + q[|q|-1].body.Data();
      JoinedSize(q[..|q|-1], size);
      assert |q| * size == (|q| - 1) * size + size;
    }
  }

  /** A peer that fills its datagrams beyond 1172 bytes of data is another matter: 255 fragments of 1472
      bytes, the most a datagram of 1500 bytes carries, outgrow the payload buffer. */
  lemma LongerFragmentsOutgrow(q: seq<Segment>)
    requires |q| == 255 && forall k :: 0 <= k < |q| ==> q[k].frg == 254 - k && |q[k].body.Data()| == 1472
    ensures PeekSize(q) == 255 * 1472 > PAYLOAD_SIZE
  {
    FrontIs(q, 0, 254);
    assert q[..255] == q;
    JoinedSize(q, 1472);
  }

  /** The moves a turn consists of. */
  function TurnMoves(m: Arith, e: End, now: u32, clock: nat -> u32): seq<Action> {
    var n := PeekSize(Update(m, e.st, now, clock).st.rcv.queue);
    if n < 1 then [CallUpdate(now, clock)] else [CallUpdate(now, clock), ReadMessage(n)]
  }

  lemma RunSnoc(m: Arith, s: Sys, moves: seq<Move>, mv: Move)
    requires s.Configured()
    ensures Run(m, s, moves + [mv]) == Step(m, Run(m, s, moves), mv)
  {
    assert (moves + [mv])[..|moves|] == moves;
  }

  lemma TurnIsActions(m: Arith, e: End, inbox: seq<seq<Wire>>, now: u32, clock: nat -> u32)
    requires e.st.cfg.mss > 0
    ensures var (o, read) := Turn(m, e.st, now, clock);
            var v := Act(m, e, inbox, CallUpdate(now, clock));
            var n := PeekSize(v.st.rcv.queue);
            v.st.cfg == e.st.cfg &&
            e.(st := o.st, net := e.net + o.out, got := e.got + read) ==
            if n < 1 then v else Act(m, v, inbox, ReadMessage(n))
  {}

  /** A turn of the right end is one or two moves of the schedule, and delivers what they deliver. */
  lemma TurnIsMoves(s: Sys, moves: seq<Move>, now: u32, clock: nat -> u32)
    requires s.Configured()
    ensures var t := Run(Exact, s, moves);
            var (o, read) := Turn(Exact, t.r.st, now, clock);
            var acts := TurnMoves(Exact, t.r, now, clock);
            var more := moves + [Right(acts[0])];
            var u := Run(Exact, s, if |acts| == 1 then more else more + [Right(acts[1])]);
            u == t.(r := t.r.(st := o.st, net := t.r.net + o.out, got := t.r.got + read))
  {
    var t := Run(Exact, s, moves);
    var acts := TurnMoves(Exact, t.r, now, clock);
    RunSnoc(Exact, s, moves, Right(acts[0]));
    if |acts| > 1 { RunSnoc(Exact, s, moves + [Right(acts[0])], Right(acts[1])); }
    TurnIsActions(Exact, t.r, t.l.net, now, clock);
  }

  // ---------- a full queue drains ----------

  lemma TurnReads(m: Arith, st: State, now: u32, clock: nat -> u32)
    ensures var n := PeekSize(st.rcv.queue);
            Turn(m, st, now, clock).1 == if n < 1 then [] else [Recv(m, st.rcv, st.cfg.rcv_wnd, n).data]
  {
    UpdateKeepsQueue(m, st, now, clock);
  }

  /** The message a turn reads is the same in both arithmetics. */
  lemma TurnReadsSame(st: State, now: u32, clock: nat -> u32)
    requires StateOk(Exact, st)
    ensures Turn(Wrapping, RepState(st), now, clock).1 == Turn(Exact, st, now, clock).1
  {
    TurnReads(Exact, st, now, clock);
    TurnReads(Wrapping, RepState(st), now, clock);
    SizeIsSame(st.rcv);
    if PeekSize(st.rcv.queue) >= 1 { RecvCommutes(st.rcv, st.cfg.rcv_wnd, PeekSize(st.rcv.queue)); }
  }

  /** A turn at x delivers the next message of y if all its fragments are queued, and otherwise nothing. */
  ghost predicate Delivers(
      m: Arith, x: State, got: seq<seq<byte>>, sent: seq<seq<byte>>, now: u32, clock: nat -> u32)
  {
    Turn(m, x, now, clock).1 == if |got| < |sent| && |x.rcv.queue| >= |Cut(sent[|got|], 1172)| then [sent[|got|]]
                                else []
  }

  lemma NextDelivered(x: End, y: End, now: u32, clock: nat -> u32)
    requires ConnInv(x, y) && y.st.cfg.mss == 1172
    ensures Delivers(Exact, x.st, x.got, y.sent, now, clock)
  {
    TurnReads(Exact, x.st, now, clock);
    if |x.st.rcv.queue| > 0 { ReadIsNext(x, y); }
  }

  /** In every run between sessions, at either end. */
  lemma TurnDelivers(s: Sys, moves: seq<Move>, now: u32, clock: nat -> u32)
    requires StartedSessions(s)
    ensures var t := Run(Exact, s, moves);
            && Delivers(Exact, t.l.st, t.l.got, t.r.sent, now, clock)
            && Delivers(Exact, t.r.st, t.r.got, t.l.sent, now, clock)
  {
    RunConfig(Exact, s, moves);
    RunIsConnected(s, moves);
    var t := Run(Exact, s, moves);
    ConnSymmetric(t.l, t.r);
    NextDelivered(t.l, t.r, now, clock);
    NextDelivered(t.r, t.l, now, clock);
  }

  /** The same of the uint32 control blocks exchanging bytes. */
  lemma ByteTurnDelivers(s: Sys, moves: seq<Move>, now: u32, clock: nat -> u32)
    requires StartedSessions(s) && NearRun(s, moves)
    ensures var t := RunBytes(RepSys(s), moves);
            && Delivers(Wrapping, t.l.st, t.l.got, t.r.sent, now, clock)
            && Delivers(Wrapping, t.r.st, t.r.got, t.l.sent, now, clock)
  {
    RunsAgree(s, moves);
    RunIsConnected(s, moves);
    TurnDelivers(s, moves, now, clock);
    var t := Run(Exact, s, moves);
    TurnReadsSame(t.l.st, now, clock);
    TurnReadsSame(t.r.st, now, clock);
  }

  /** The next turn at x delivers the next message of y. */
  ghost predicate Drains(m: Arith, x: State, got: seq<seq<byte>>, sent: seq<seq<byte>>, now: u32, clock: nat -> u32) {
    |got| < |sent| && Turn(m, x, now, clock).1 == [sent[|got|]]
  }

  /** A session whose receive queue is full frees it at its next turn, whenever that is. */
  lemma FullQueueDrains(s: Sys, moves: seq<Move>, now: u32, clock: nat -> u32)
    requires StartedSessions(s)
    ensures var t := Run(Exact, s, moves);
            && (|t.l.st.rcv.queue| == 255 ==> Drains(Exact, t.l.st, t.l.got, t.r.sent, now, clock))
            && (|t.r.st.rcv.queue| == 255 ==> Drains(Exact, t.r.st, t.r.got, t.l.sent, now, clock))
  {
    RunConfig(Exact, s, moves);
    FullQueueIsReadable(s, moves);
    var t := Run(Exact, s, moves);
    TurnReads(Exact, t.l.st, now, clock);
    TurnReads(Exact, t.r.st, now, clock);
  }

  /** The same of the uint32 control blocks exchanging bytes. */
  lemma ByteQueueDrains(s: Sys, moves: seq<Move>, now: u32, clock: nat -> u32)
    requires StartedSessions(s) && NearRun(s, moves)
    ensures var t := RunBytes(RepSys(s), moves);
            && (|t.l.st.rcv.queue| == 255 ==> Drains(Wrapping, t.l.st, t.l.got, t.r.sent, now, clock))
            && (|t.r.st.rcv.queue| == 255 ==> Drains(Wrapping, t.r.st, t.r.got, t.l.sent, now, clock))
  {
    RunsAgree(s, moves);
    RunIsConnected(s, moves);
    FullQueueDrains(s, moves, now, clock);
    var t := Run(Exact, s, moves);
    TurnReadsSame(t.l.st, now, clock);
    TurnReadsSame(t.r.st, now, clock);
  }
}
