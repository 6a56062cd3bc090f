/** The two control blocks as they run: uint32 sequence numbers, and datagrams of bytes.  Every schedule
    whose deliveries are not half the number space late does to them what it does to the unbounded ones,
    so they inherit the safety of Network. */
module ByteNetwork {
  import opened Words
  import opened Segments
  import opened Receiver
  import opened Flushing
  import opened Engine
  import opened Invariants
  import opened Messages
  import opened Channel
  import opened Network
  import opened Refinement
  import Arrivals

  datatype ByteEnd = ByteEnd(st: State, net: seq<seq<byte>>, sent: seq<seq<byte>>, got: seq<seq<byte>>)

  function EmitBytes(e: ByteEnd, o: Outcome): ByteEnd { e.(st := o.st, net := e.net + EncodeNet(o.out)) }

  function ActBytes(e: ByteEnd, inbox: seq<seq<byte>>, a: Action): ByteEnd
    requires e.st.cfg.mss > 0
  {
    match a
    case SendMessage(msg) =>
      var (st, code) := Send(e.st, msg);
      e.(st := st, sent := if code == 0 then e.sent + [msg] else e.sent)
    case Deliver(i, regular, ackNoDelay, now, clock) =>
      if i < |inbox| then EmitBytes(e, Input(e.st, inbox[i], regular, ackNoDelay, now, clock)) else e
    case CallUpdate(now, clock) => EmitBytes(e, Update(Wrapping, e.st, now, clock))
    case ReadMessage(room) =>
      var (st, code, data) := Receive(Wrapping, e.st, room);
      e.(st := st, got := if code >= 0 then e.got + [data] else e.got)
  }

  datatype ByteSys = ByteSys(l: ByteEnd, r: ByteEnd) {
    predicate Configured() { l.st.cfg.Ok() && r.st.cfg.Ok() }
  }

  function StepBytes(s: ByteSys, mv: Move): (t: ByteSys)
    requires s.Configured()
    ensures t.Configured()
  {
    match mv
    case Left(a) => s.(l := ActBytes(s.l, s.r.net, a))
    case Right(a) => s.(r := ActBytes(s.r, s.l.net, a))
  }

  function RunBytes(s: ByteSys, moves: seq<Move>): (t: ByteSys)
    requires s.Configured()
    ensures t.Configured()
  {
    if moves == [] then s else StepBytes(RunBytes(s, moves[..|moves|-1]), moves[|moves|-1])
  }

  function RepEnd(e: End): ByteEnd { ByteEnd(RepState(e.st), EncodeNet(RepNet(e.net)), e.sent, e.got) }

  function RepSys(s: Sys): ByteSys { ByteSys(RepEnd(s.l), RepEnd(s.r)) }

  // ---------- bytes ----------

  /** The loop over the bytes of proper segments is the loop over the segments. */
  lemma BytesAreSegments(l: Loop, regular: bool, ws: seq<Wire>)
    requires forall k :: 0 <= k < |ws| ==> Proper(l.st.cfg, ws[k]) && ws[k].Encodable()
    ensures InputBytes(l, regular, EncodeAll(ws)) == (InputSegments(Wrapping, l, regular, ws), 0)
  {
    Arrivals.BytesThen(l, regular, ws, []);
    assert EncodeAll(ws) + [] == EncodeAll(ws);
  }

  lemma InputIsDatagram(st: State, ws: seq<Wire>, regular: bool, ackNoDelay: bool, now: u32, clock: nat -> u32)
    requires st.cfg.mss > 0 && ws != []
    requires forall k :: 0 <= k < |ws| ==> Proper(st.cfg, ws[k]) && ws[k].Encodable()
    ensures Input(st, EncodeAll(ws), regular, ackNoDelay, now, clock)
         == InputDatagram(Wrapping, st, ws, regular, ackNoDelay, now, clock)
  {
    EncodeAllSize(ws);
    SizeAtLeast(ws);
    BytesAreSegments(Loop(st, false, false, 0), regular, ws);
  }

  // ---------- what the ends send is proper ----------

  ghost predicate ProperNet(e: End) {
    forall i :: 0 <= i < |e.net| ==> ProperDatagram(e.st.cfg, e.net[i])
  }

  lemma OutcomeIsProper(st: State, regular: bool, ackNoDelay: bool, ws: seq<Wire>, now: u32, clock: nat -> u32)
    requires StateOk(Exact, st)
    ensures forall d :: d in InputDatagram(Exact, st, ws, regular, ackNoDelay, now, clock).out ==>
            ProperDatagram(st.cfg, d)
    ensures forall d :: d in Update(Exact, st, now, clock).out ==> ProperDatagram(st.cfg, d)
  {
    FlushIsProper(Exact, st.(timer := Tick(st.timer, st.cfg.interval, now).0), false, clock);
    if ws != [] {
      var l := Loop(st, false, false, 0);
      LoopMovesUna(l, regular, ws);
      var t := InputSegments(Exact, l, regular, ws);
      AfterLoopKeeps(Exact, st.snd.una, t, regular, now);
      FlushIsProper(Exact, AfterLoop(Exact, st.snd.una, t, regular, now), false, clock);
      FlushIsProper(Exact, AfterLoop(Exact, st.snd.una, t, regular, now), true, clock);
    }
  }

  lemma EmitIsProper(x: End, o: Outcome)
    requires ProperNet(x) && o.st.cfg == x.st.cfg && forall d :: d in o.out ==> ProperDatagram(x.st.cfg, d)
    ensures ProperNet(Emit(x, o))
  {}

  lemma ActIsProper(x: End, y: End, a: Action)
    requires ConnInv(x, y) && ProperNet(x)
    ensures ProperNet(Act(Exact, x, y.net, a))
  {
    match a
    case SendMessage(msg) =>
    case Deliver(i, regular, ackNoDelay, now, clock) =>
      if i < |y.net| {
        OutcomeIsProper(x.st, regular, ackNoDelay, y.net[i], now, clock);
        EmitIsProper(x, InputDatagram(Exact, x.st, y.net[i], regular, ackNoDelay, now, clock));
      }
    case CallUpdate(now, clock) =>
      OutcomeIsProper(x.st, false, false, [], now, clock);
      EmitIsProper(x, Update(Exact, x.st, now, clock));
    case ReadMessage(room) =>
  }

  // ---------- one action ----------

  /** The numbers an action compares are near. */
  predicate NearAct(st: State, inbox: seq<seq<Wire>>, a: Action) {
    match a
    case Deliver(i, regular, _, _, _) => i < |inbox| ==> NearDatagram(st, inbox[i], regular)
    case CallUpdate(_, _) => NearAcks(st)
    case _ => true
  }

  lemma EncodeNetConcat(a: seq<seq<Wire>>, b: seq<seq<Wire>>)
    ensures EncodeNet(RepNet(a + b)) == EncodeNet(RepNet(a)) + EncodeNet(RepNet(b))
  {}

  lemma RepIsEncodable(d: seq<Wire>, k: nat)
    requires k < |d| && |d[k].data| <= MAX_MTU
    ensures RepWires(d)[k].Encodable() && RepWires(d)[k] == RepWire(d[k])
  {}

  lemma DeliverCommutes(
      x: End, y: End, i: nat, regular: bool, ackNoDelay: bool, now: u32, clock: nat -> u32)
    requires StateOk(Exact, x.st) && i < |y.net| && ProperDatagram(x.st.cfg, y.net[i])
    requires NearDatagram(x.st, y.net[i], regular)
    ensures Input(RepState(x.st), RepEnd(y).net[i], regular, ackNoDelay, now, clock)
         == RepOutcome(InputDatagram(Exact, x.st, y.net[i], regular, ackNoDelay, now, clock))
  {
    var d := y.net[i];
    var ws := RepWires(d);
    assert RepEnd(y).net[i] == EncodeAll(ws);
    forall k | 0 <= k < |ws| ensures Proper(x.st.cfg, ws[k]) && ws[k].Encodable() {
      assert Proper(x.st.cfg, d[k]);
      RepIsEncodable(d, k);
    }
    InputDatagramCommutes(x.st, d, regular, ackNoDelay, now, clock);
    InputIsDatagram(RepState(x.st), ws, regular, ackNoDelay, now, clock);
  }

  lemma EmitCommutes(x: End, o: Outcome)
    ensures EmitBytes(RepEnd(x), RepOutcome(o)) == RepEnd(Emit(x, o))
  {
    EncodeNetConcat(x.net, o.out);
  }

  lemma ActCommutes(x: End, y: End, a: Action)
    requires StateOk(Exact, x.st) && ProperNet(y)
    requires x.st.cfg.conv == y.st.cfg.conv && x.st.cfg.session == y.st.cfg.session
    requires NearAct(x.st, y.net, a)
    ensures ActBytes(RepEnd(x), RepEnd(y).net, a) == RepEnd(Act(Exact, x, y.net, a))
  {
    match a
    case SendMessage(msg) => SendCommutes(x.st, msg);
    case Deliver(i, regular, ackNoDelay, now, clock) =>
      if i < |y.net| {
        assert ProperDatagram(y.st.cfg, y.net[i]);
        assert ProperDatagram(x.st.cfg, y.net[i]);
        DeliverCommutes(x, y, i, regular, ackNoDelay, now, clock);
        EmitCommutes(x, InputDatagram(Exact, x.st, y.net[i], regular, ackNoDelay, now, clock));
      }
    case CallUpdate(now, clock) =>
      UpdateCommutes(x.st, now, clock);
      EmitCommutes(x, Update(Exact, x.st, now, clock));
    case ReadMessage(room) => ReceiveCommutes(x.st, room);
  }

  // ---------- runs ----------

  ghost predicate SameSession(s: Sys) {
    s.l.st.cfg.conv == s.r.st.cfg.conv && s.l.st.cfg.session == s.r.st.cfg.session
  }

  /** What a run keeps besides the connection. */
  ghost predicate InOrder(s: Sys) {
    Connected(s) && SameSession(s) && ProperNet(s.l) && ProperNet(s.r)
  }

  lemma ActInOrder(x: End, y: End, a: Action)
    requires ConnInv(x, y) && ProperNet(x)
    ensures var x' := Act(Exact, x, y.net, a);
            ConnInv(x', y) && ConnInv(y, x') && ProperNet(x') && x'.st.cfg == x.st.cfg
  {
    var x' := Act(Exact, x, y.net, a);
    ActKeepsConn(x, y, a);
    ActConfig(Exact, x, y.net, a);
    ConnSymmetric(x', y);
    assert ProperNet(x') by { ActIsProper(x, y, a); }
  }

  lemma StepInOrder(s: Sys, mv: Move)
    requires InOrder(s)
    ensures InOrder(Step(Exact, s, mv))
  {
    match mv
    case Left(a) => ActInOrder(s.l, s.r, a);
    case Right(a) =>
      ConnSymmetric(s.l, s.r);
      ActInOrder(s.r, s.l, a);
  }

  lemma {:induction false} RunInOrder(s: Sys, moves: seq<Move>)
    requires Started(s)
    ensures InOrder(Run(Exact, s, moves))
    decreases |moves|
  {
    if moves == [] {
      StartedIsConnected(s);
    } else {
      RunInOrder(s, moves[..|moves|-1]);
      StepInOrder(Run(Exact, s, moves[..|moves|-1]), moves[|moves|-1]);
    }
  }

  predicate NearMove(s: Sys, mv: Move) {
    match mv
    case Left(a) => NearAct(s.l.st, s.r.net, a)
    case Right(a) => NearAct(s.r.st, s.l.net, a)
  }

  /** A schedule in which every comparison is of numbers less than half the number space apart. */
  predicate NearRun(s: Sys, moves: seq<Move>)
    requires s.Configured()
  {
    moves == [] ||
    (NearRun(s, moves[..|moves|-1]) && NearMove(Run(Exact, s, moves[..|moves|-1]), moves[|moves|-1]))
  }

  lemma StepCommutes(s: Sys, mv: Move)
    requires InOrder(s) && NearMove(s, mv)
    ensures StepBytes(RepSys(s), mv) == RepSys(Step(Exact, s, mv))
  {
    match mv
    case Left(a) => ActCommutes(s.l, s.r, a);
    case Right(a) => ActCommutes(s.r, s.l, a);
  }

  /** Runs of any length through any number of wraparounds: the uint32 control blocks, exchanging bytes,
      are in every respect what the unbounded ones are. */
  lemma {:induction false} RunsAgree(s: Sys, moves: seq<Move>)
    requires Started(s) && NearRun(s, moves)
    ensures RunBytes(RepSys(s), moves) == RepSys(Run(Exact, s, moves))
    decreases |moves|
  {
    if moves != [] {
      RunsAgree(s, moves[..|moves|-1]);
      RunInOrder(s, moves[..|moves|-1]);
      StepCommutes(Run(Exact, s, moves[..|moves|-1]), moves[|moves|-1]);
    }
  }

  /** So each end delivers, byte for byte, the first messages the other accepted. */
  lemma ByteMessagesArePrefix(s: Sys, moves: seq<Move>)
    requires Started(s) && NearRun(s, moves)
    ensures var t := RunBytes(RepSys(s), moves); t.r.got <= t.l.sent && t.l.got <= t.r.sent
  {
    RunsAgree(s, moves);
    MessagesArePrefix(s, moves);
  }

  // ---------- short runs need no condition on delays ----------

  lemma ReceivedBound(r: Rcv, stream: seq<Frag>, nxt: int, read: seq<Frag>, sn: int)
    requires ReceiverInv(r, stream, nxt, read) && Received(r, sn)
    ensures sn < |stream|
  {
    if sn >= r.nxt {
      var k :| 0 <= k < |r.buf| && r.buf[k].sn == sn;
      assert Holds(r.buf[k], stream, nxt);
    }
  }

  ghost predicate SmallHalf(
      st: State, out: seq<Frag>, ry: Rcv, wy: nat, incoming: seq<Frag>, nxt: int, read: seq<Frag>) {
    Half(st, out, ry, wy, incoming, nxt, read) && |out| < NEAR && |incoming| < NEAR
  }

  lemma SmallAcksNear(st: State, out: seq<Frag>, ry: Rcv, wy: nat, incoming: seq<Frag>, nxt: int, read: seq<Frag>)
    requires SmallHalf(st, out, ry, wy, incoming, nxt, read)
    ensures NearAcks(st)
  {
    forall k | 0 <= k < |st.acks| ensures Near(st.acks[k].sn, st.rcv.nxt) {
      ReceivedBound(st.rcv, incoming, nxt, read, st.acks[k].sn);
    }
  }

  lemma SmallWireNear(
      st: State, regular: bool, w: Wire,
      out: seq<Frag>, ry: Rcv, wy: nat, incoming: seq<Frag>, nxt: int, read: seq<Frag>, limit: int)
    requires SmallHalf(st, out, ry, wy, incoming, nxt, read) && ry.nxt <= st.snd.nxt
    requires NewsOk(w, ry, wy) && PushOk(w, incoming, nxt, limit)
    requires w.cmd == CMD_ACK ==> w.sn < |out|
    ensures NearWire(st, regular, w)
  {
    AfterUnaHalf(st, regular, w, out, ry, wy, incoming, nxt, read);
  }

  lemma {:induction false} SmallWiresNear(
      l: Loop, regular: bool, ws: seq<Wire>,
      out: seq<Frag>, ry: Rcv, wy: nat, incoming: seq<Frag>, nxt: int, read: seq<Frag>, limit: int)
    requires SmallHalf(l.st, out, ry, wy, incoming, nxt, read)
    requires forall w :: w in ws ==> NewsOk(w, ry, wy) && PushOk(w, incoming, nxt, limit)
    requires forall w :: w in ws && w.cmd == CMD_ACK ==> w.sn < |out|
    ensures NearWires(l, regular, ws) && NearFinish(InputSegments(Exact, l, regular, ws))
    decreases |ws|
  {
    if ws == [] {
      SmallAcksNear(l.st, out, ry, wy, incoming, nxt, read);
    } else {
      SmallWireNear(l.st, regular, ws[0], out, ry, wy, incoming, nxt, read, limit);
      InputSegmentHalf(l, regular, ws[0], out, ry, wy, incoming, nxt, read, limit);
      SmallWiresNear(InputSegment(Exact, l, regular, ws[0]), regular, ws[1..], out, ry, wy, incoming, nxt, read, limit);
    }
  }

  ghost predicate Small(e: End)
    requires e.st.cfg.mss > 0
  { |Stream(e)| < NEAR }

  lemma SmallActNear(x: End, y: End, a: Action)
    requires ConnInv(x, y) && Small(x) && Small(y)
    ensures NearAct(x.st, y.net, a)
  {
    var mss := y.st.cfg.mss;
    SmallAcksNear(x.st, Stream(x), y.st.rcv, y.st.cfg.rcv_wnd, Stream(y), y.st.snd.nxt, CutAll(x.got, mss));
    if a.Deliver? && a.i < |y.net| {
      var d := y.net[a.i];
      forall w | w in d && w.cmd == CMD_ACK ensures w.sn < |Stream(x)| {
        assert WireOk(y, x, w);
        ReceivedBound(y.st.rcv, Stream(x), x.st.snd.nxt, CutAll(y.got, x.st.cfg.mss), w.sn);
      }
      assert forall w :: w in d ==> WireOk(y, x, w);
      SmallWiresNear(Loop(x.st, false, false, 0), a.regular, d, Stream(x), y.st.rcv, y.st.cfg.rcv_wnd,
        Stream(y), y.st.snd.nxt, CutAll(x.got, mss), x.st.rcv.nxt + x.st.cfg.rcv_wnd);
    }
  }

  /** An end never forgets what it accepted. */
  lemma SentGrows(s: ByteSys, mv: Move)
    requires s.Configured()
    ensures var t := StepBytes(s, mv);
            s.l.sent <= t.l.sent && s.r.sent <= t.r.sent && t.l.st.cfg == s.l.st.cfg && t.r.st.cfg == s.r.st.cfg
  {}

  ghost predicate FewSegments(s: ByteSys)
    requires s.Configured()
  {
    |CutAll(s.l.sent, s.l.st.cfg.mss)| < NEAR && |CutAll(s.r.sent, s.r.st.cfg.mss)| < NEAR
  }

  /** While each end has accepted fewer than 2^31 - 2^16 segments, no datagram can be too late: the
      byte-level ends are safe under every schedule whatever. */
  lemma {:induction false} ShortRunsAreSafe(s: Sys, moves: seq<Move>)
    requires Started(s) && FewSegments(RunBytes(RepSys(s), moves))
    ensures NearRun(s, moves)
    ensures var t := RunBytes(RepSys(s), moves); t.r.got <= t.l.sent && t.l.got <= t.r.sent
    decreases |moves|
  {
    if moves != [] {
      var before := moves[..|moves|-1];
      var mv := moves[|moves|-1];
      var b := RunBytes(RepSys(s), before);
      SentGrows(b, mv);
      CutAllPrefix(b.l.sent, StepBytes(b, mv).l.sent, b.l.st.cfg.mss);
      CutAllPrefix(b.r.sent, StepBytes(b, mv).r.sent, b.r.st.cfg.mss);
      ShortRunsAreSafe(s, before);
      RunsAgree(s, before);
      RunInOrder(s, before);
      var t := Run(Exact, s, before);
      match mv {
        case Left(a) => SmallActNear(t.l, t.r, a);
        case Right(a) => ConnSymmetric(t.l, t.r); SmallActNear(t.r, t.l, a);
      }
    }
    ByteMessagesArePrefix(s, moves);
  }
}
