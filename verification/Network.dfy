/** Two control blocks over a network that may lose, duplicate, reorder and delay datagrams.  The
    network is the list of everything each end ever sent; a schedule picks from it at will. */
module Network {
  import opened Words
  import opened Segments
  import opened Sender
  import opened Receiver
  import opened Timing
  import opened Flushing
  import opened BufferPool
  import opened Engine
  import opened Invariants
  import opened Messages
  import opened Channel

  /** One end: its control block, all datagrams it ever sent, the messages it accepted for sending
      and the messages it delivered. */
  datatype End = End(st: State, net: seq<seq<Wire>>, sent: seq<seq<byte>>, got: seq<seq<byte>>)

  datatype Action =
    | SendMessage(msg: seq<byte>)
    | Deliver(i: nat, regular: bool, ackNoDelay: bool, now: u32, clock: nat -> u32)
    | CallUpdate(now: u32, clock: nat -> u32)
    | ReadMessage(room: nat)

  function Emit(e: End, o: Outcome): End { e.(st := o.st, net := e.net + o.out) }

  /** An action of end e, whose peer has sent the datagrams of inbox. */
  function Act(m: Arith, e: End, inbox: seq<seq<Wire>>, a: Action): End
    requires e.st.cfg.mss > 0
  {
    match a
    case SendMessage(msg) =>
      var (st, code) := Send(e.st, msg);
      e.(st := st, sent := if code == 0 then e.sent + [msg] else e.sent)
    case Deliver(i, regular, ackNoDelay, now, clock) =>
      if i < |inbox| then
        Emit(e, InputDatagram(m, e.st, inbox[i], regular, ackNoDelay, now, clock))
      else e
    case CallUpdate(now, clock) =>
      Emit(e, Update(m, e.st, now, clock))
    case ReadMessage(room) =>
      var (st, code, data) := Receive(m, e.st, room);
      e.(st := st, got := if code >= 0 then e.got + [data] else e.got)
  }

  /** No datagram changes the settings. */
  lemma InputConfig(m: Arith, st: State, ws: seq<Wire>, regular: bool, ackNoDelay: bool, now: u32, clock: nat -> u32)
    requires st.cfg.mss > 0
    ensures InputDatagram(m, st, ws, regular, ackNoDelay, now, clock).st.cfg == st.cfg
  {}

  lemma ActConfig(m: Arith, e: End, inbox: seq<seq<Wire>>, a: Action)
    requires e.st.cfg.mss > 0
    ensures Act(m, e, inbox, a).st.cfg == e.st.cfg
  {}

  // ---------- the invariant ----------

  function Stream(e: End): seq<Frag>
    requires e.st.cfg.mss > 0
  { CutAll(e.sent, e.st.cfg.mss) }

  /** One control block between an outgoing stream, received as far as ry says, and an incoming one,
      numbered up to nxt and read as far as read. */
  ghost predicate Half(st: State, out: seq<Frag>, ry: Rcv, wy: nat, incoming: seq<Frag>, nxt: int, read: seq<Frag>) {
    && StateOk(Exact, st)
    && SenderInv(st.snd, out, ry) && st.rmt_wnd <= wy && |st.snd.buf| <= wy
    && ReceiverInv(st.rcv, incoming, nxt, read) && AcksReceived(st.rcv, st.acks)
  }

  ghost predicate HalfOf(x: End, y: End) {
    && x.st.cfg.Ok() && y.st.cfg.Ok()
    && Half(x.st, Stream(x), y.st.rcv, y.st.cfg.rcv_wnd, Stream(y), y.st.snd.nxt, CutAll(x.got, y.st.cfg.mss))
  }

  /** A segment of x: its data lies in the stream and in y's window, its news is true. */
  ghost predicate WireOk(x: End, y: End, w: Wire)
    requires x.st.cfg.mss > 0
  {
    && PushOk(w, Stream(x), x.st.snd.nxt, y.st.rcv.nxt + y.st.cfg.rcv_wnd)
    && NewsOk(w, x.st.rcv, x.st.cfg.rcv_wnd)
  }

  ghost predicate WiresOk(x: End, y: End, net: seq<seq<Wire>>)
    requires x.st.cfg.mss > 0
  {
    forall d, w :: d in net && w in d ==> WireOk(x, y, w)
  }

  /** Messages accepted can be sent, and those delivered are the first ones the peer accepted. */
  ghost predicate MessagesOk(x: End, y: End)
    requires x.st.cfg.mss > 0
  {
    x.got <= y.sent && forall i :: 0 <= i < |x.sent| ==> Sendable(x.sent[i], x.st.cfg.mss)
  }

  ghost predicate ConnInv(x: End, y: End) {
    && HalfOf(x, y) && HalfOf(y, x)
    && WiresOk(x, y, x.net) && WiresOk(y, x, y.net)
    && MessagesOk(x, y) && MessagesOk(y, x)
  }

  // ---------- one control block ----------

  lemma OnUnaHalf(st: State, una: int, out: seq<Frag>, ry: Rcv, wy: nat, incoming: seq<Frag>, nxt: int, read: seq<Frag>)
    requires Half(st, out, ry, wy, incoming, nxt, read) && una <= ry.nxt
    ensures Half(OnUna(Exact, st, una), out, ry, wy, incoming, nxt, read)
  {
    OnUnaKeeps(Exact, st, una);
    AckFrontInv(st.snd, out, ry, una);
  }

  lemma OnAckHalf(
      st: State, sn: int, ts: u32, out: seq<Frag>, ry: Rcv, wy: nat, incoming: seq<Frag>, nxt: int, read: seq<Frag>)
    requires Half(st, out, ry, wy, incoming, nxt, read) && Received(ry, sn)
    ensures Half(OnAckSegment(Exact, st, sn, ts), out, ry, wy, incoming, nxt, read)
  {
    OnAckSegmentKeeps(Exact, st, sn, ts);
    ParseAckInv(st.snd, out, ry, sn);
    ParseFastackInv(ParseAck(Exact, st.snd, sn), out, ry, sn, ts);
  }

  lemma OnPushHalf(
      st: State, w: Wire, out: seq<Frag>, ry: Rcv, wy: nat, incoming: seq<Frag>, nxt: int, read: seq<Frag>, limit: int)
    requires Half(st, out, ry, wy, incoming, nxt, read)
    requires w.cmd == CMD_PUSH && PushOk(w, incoming, nxt, limit)
    ensures var t := OnPush(Exact, st, w);
            Half(t, out, ry, wy, incoming, nxt, read) && Grows(st.rcv, t.rcv)
  {
    OnPushKeeps(Exact, st, w);
    var seg := Accepted(w, GetId(st.pool));
    assert FragOf(seg) == Frag(w.frg, w.data);
    ParseDataInv(st.rcv, st.cfg.rcv_wnd, incoming, nxt, read, seg);
  }

  /** Neither the window heard of nor the probe flags matter to the rest. */
  lemma HalfStays(
      st: State, st': State, out: seq<Frag>, ry: Rcv, wy: nat, incoming: seq<Frag>, nxt: int, read: seq<Frag>)
    requires Half(st, out, ry, wy, incoming, nxt, read)
    requires st' == st.(rmt_wnd := st'.rmt_wnd, probe := st'.probe) && st'.rmt_wnd < 0x1_0000 && st'.rmt_wnd <= wy
    ensures Half(st', out, ry, wy, incoming, nxt, read)
  {}

  lemma AfterUnaHalf(
      st: State, regular: bool, w: Wire,
      out: seq<Frag>, ry: Rcv, wy: nat, incoming: seq<Frag>, nxt: int, read: seq<Frag>)
    requires Half(st, out, ry, wy, incoming, nxt, read) && NewsOk(w, ry, wy)
    ensures Half(AfterUna(Exact, st, regular, w), out, ry, wy, incoming, nxt, read)
  {
    var st0 := if regular then st.(rmt_wnd := w.wnd) else st;
    HalfStays(st, st0, out, ry, wy, incoming, nxt, read);
    OnUnaHalf(st0, w.una, out, ry, wy, incoming, nxt, read);
  }

  lemma OnCommandHalf(
      st: State, w: Wire,
      out: seq<Frag>, ry: Rcv, wy: nat, incoming: seq<Frag>, nxt: int, read: seq<Frag>, limit: int)
    requires Half(st, out, ry, wy, incoming, nxt, read)
    requires NewsOk(w, ry, wy) && PushOk(w, incoming, nxt, limit)
    ensures var t := OnCommand(Exact, st, w);
            Half(t, out, ry, wy, incoming, nxt, read) && Grows(st.rcv, t.rcv) && t.snd.nxt == st.snd.nxt
  {
    if w.cmd == CMD_ACK {
      OnAckHalf(st, w.sn, w.ts, out, ry, wy, incoming, nxt, read);
    } else if w.cmd == CMD_PUSH {
      OnPushHalf(st, w, out, ry, wy, incoming, nxt, read, limit);
    } else {
      HalfStays(st, OnCommand(Exact, st, w), out, ry, wy, incoming, nxt, read);
    }
  }

  lemma InputSegmentHalf(
      l: Loop, regular: bool, w: Wire,
      out: seq<Frag>, ry: Rcv, wy: nat, incoming: seq<Frag>, nxt: int, read: seq<Frag>, limit: int)
    requires Half(l.st, out, ry, wy, incoming, nxt, read)
    requires NewsOk(w, ry, wy) && PushOk(w, incoming, nxt, limit)
    ensures var t := InputSegment(Exact, l, regular, w);
            Half(t.st, out, ry, wy, incoming, nxt, read) && Grows(l.st.rcv, t.st.rcv) && t.st.snd.nxt == l.st.snd.nxt
  {
    AfterUnaHalf(l.st, regular, w, out, ry, wy, incoming, nxt, read);
    OnCommandHalf(AfterUna(Exact, l.st, regular, w), w, out, ry, wy, incoming, nxt, read, limit);
  }

  lemma {:induction false} InputSegmentsHalf(
      l: Loop, regular: bool, ws: seq<Wire>,
      out: seq<Frag>, ry: Rcv, wy: nat, incoming: seq<Frag>, nxt: int, read: seq<Frag>, limit: int)
    requires Half(l.st, out, ry, wy, incoming, nxt, read)
    requires forall w :: w in ws ==> NewsOk(w, ry, wy) && PushOk(w, incoming, nxt, limit)
    ensures var t := InputSegments(Exact, l, regular, ws);
            Half(t.st, out, ry, wy, incoming, nxt, read) && Grows(l.st.rcv, t.st.rcv) && t.st.snd.nxt == l.st.snd.nxt
    decreases |ws|
  {
    if ws != [] {
      InputSegmentHalf(l, regular, ws[0], out, ry, wy, incoming, nxt, read, limit);
      InputSegmentsHalf(InputSegment(Exact, l, regular, ws[0]), regular, ws[1..], out, ry, wy, incoming, nxt, read,
          limit);
    }
  }

  /** What a flush sends is true and lies in the window of the receiving end. */
  lemma FlushHalf(
      st: State, ackOnly: bool, clock: nat -> u32,
      out: seq<Frag>, ry: Rcv, wy: nat, incoming: seq<Frag>, nxt: int, read: seq<Frag>)
    requires Half(st, out, ry, wy, incoming, nxt, read)
    ensures var o := Flush(Exact, st, ackOnly, clock);
            && Half(o.st, out, ry, wy, incoming, nxt, read)
            && o.st.rcv == st.rcv && o.st.snd.nxt >= st.snd.nxt
            && forall d, w :: d in o.out && w in d ==>
                 NewsOk(w, st.rcv, st.cfg.rcv_wnd) && PushOk(w, out, o.st.snd.nxt, ry.nxt + wy)
  {
    var o := Flush(Exact, st, ackOnly, clock);
    FlushKeeps(Exact, st, ackOnly, clock);
    FlushEmits(Exact, st, ackOnly, clock);
    if !ackOnly {
      FlushSender(st, clock, out, ry);
    }
    forall d, w | d in o.out && w in d
      ensures NewsOk(w, st.rcv, st.cfg.rcv_wnd) && PushOk(w, out, o.st.snd.nxt, ry.nxt + wy)
    {
      FlattenHas(o.out, d, w);
      FlushWire(st, o.st, w, out, ry, wy);
    }
  }

  lemma FlushSender(st: State, clock: nat -> u32, out: seq<Frag>, ry: Rcv)
    requires StateOk(Exact, st) && SenderInv(st.snd, out, ry)
    ensures var o := Flush(Exact, st, false, clock);
            SenderInv(o.st.snd, out, ry) && o.st.snd.nxt >= st.snd.nxt
            && |o.st.snd.buf| <= Max(|st.snd.buf|, st.rmt_wnd)
  {
    var s, done := NumberedSnd(Exact, st), FullScan(Exact, st, clock).done;
    NumberInv(st.snd, out, ry, st.cfg.conv, st.cfg.session, Window(st));
    assert |done| == |s.buf| && forall k :: 0 <= k < |done| ==> SameSegment(s.buf[k], done[k]) by {
      FullScanOk(Exact, st, clock);
    }
    ScanInv(s, out, ry, done);
    NumberedWithin(st);
    FlushLeaves(Exact, st, clock);
  }

  /** Numbering stays inside the peer's window, or numbers nothing. */
  lemma NumberedWithin(st: State)
    ensures var s := NumberedSnd(Exact, st);
            s.nxt >= st.snd.nxt && |s.buf| <= Max(|st.snd.buf|, st.rmt_wnd)
  {}

  lemma FlushLeaves(m: Arith, st: State, clock: nat -> u32)
    ensures Flush(m, st, false, clock).st.snd == NumberedSnd(m, st).(buf := FullScan(m, st, clock).done)
  {}

  lemma FlushWire(st: State, after: State, w: Wire, out: seq<Frag>, ry: Rcv, wy: nat)
    requires StateOk(Exact, after) && AcksReceived(st.rcv, st.acks)
    requires 0 < st.cfg.rcv_wnd < 0x1_0000 && 0 <= st.rcv.nxt
    requires SenderInv(after.snd, out, ry) && |after.snd.buf| <= wy
    requires Control(st, w) || DataFrom(st, after.snd.buf, w)
    ensures NewsOk(w, st.rcv, st.cfg.rcv_wnd) && PushOk(w, out, after.snd.nxt, ry.nxt + wy)
  {
    if !Control(st, w) {
      var k :| 0 <= k < |after.snd.buf| && !after.snd.buf[k].acked && w == after.snd.buf[k].ToWire();
      assert Sends(after.snd, out, ry, k) && InFlight(after.snd.buf[k], after.cfg.mss);
      assert Frag(w.frg, w.data) == FragOf(after.snd.buf[k]);
    }
  }

  /** A datagram of the peer. */
  lemma InputDatagramHalf(
      st: State, ws: seq<Wire>, regular: bool, ackNoDelay: bool, now: u32, clock: nat -> u32,
      out: seq<Frag>, ry: Rcv, wy: nat, incoming: seq<Frag>, nxt: int, read: seq<Frag>, limit: int)
    requires Half(st, out, ry, wy, incoming, nxt, read)
    requires forall w :: w in ws ==> NewsOk(w, ry, wy) && PushOk(w, incoming, nxt, limit)
    ensures var o := InputDatagram(Exact, st, ws, regular, ackNoDelay, now, clock);
            && Half(o.st, out, ry, wy, incoming, nxt, read)
            && Grows(st.rcv, o.st.rcv) && o.st.snd.nxt >= st.snd.nxt
            && forall d, w :: d in o.out && w in d ==>
                 NewsOk(w, o.st.rcv, st.cfg.rcv_wnd) && PushOk(w, out, o.st.snd.nxt, ry.nxt + wy)
  {
    if ws != [] {
      var l0 := Loop(st, false, false, 0);
      InputSegmentsHalf(l0, regular, ws, out, ry, wy, incoming, nxt, read, limit);
      var l := InputSegments(Exact, l0, regular, ws);
      AfterLoopKeeps(Exact, st.snd.una, l, regular, now);
      var t := AfterLoop(Exact, st.snd.una, l, regular, now);
      FlushHalf(t, false, clock, out, ry, wy, incoming, nxt, read);
      FlushHalf(t, true, clock, out, ry, wy, incoming, nxt, read);
    }
  }

  // ---------- one action ----------

  /** What an action of x never undoes. */
  ghost predicate Progress(x: End, x': End)
    requires x.st.cfg.mss > 0
  {
    && x'.st.cfg == x.st.cfg
    && x.sent <= x'.sent && x.st.snd.nxt <= x'.st.snd.nxt
    && Grows(x.st.rcv, x'.st.rcv)
    && x.net <= x'.net
  }

  lemma WireStays(x: End, y: End, w: Wire, x': End, y': End)
    requires x.st.cfg.mss > 0 && y.st.cfg.mss > 0 && WireOk(x, y, w) && Progress(x, x') && Progress(y, y')
    requires x'.st.snd.nxt <= |Stream(x')|
    ensures WireOk(x', y', w)
  {
    CutAllPrefix(x.sent, x'.sent, x.st.cfg.mss);
  }

  /** If an action of x keeps its own half in order and sends nothing wrong, it keeps the connection. */
  lemma ProgressKeeps(x: End, y: End, x': End)
    requires ConnInv(x, y) && Progress(x, x')
    requires HalfOf(x', y) && MessagesOk(x', y)
    requires WiresOk(x', y, x'.net[|x.net|..])
    ensures ConnInv(x', y)
  {
    CutAllPrefix(x.sent, x'.sent, x.st.cfg.mss);
    SenderInvGrows(y.st.snd, Stream(y), x.st.rcv, x'.st.rcv);
    ReceiverInvStream(y.st.rcv, Stream(x), x.st.snd.nxt, CutAll(y.got, x.st.cfg.mss), Stream(x'), x'.st.snd.nxt);
    forall d, w | d in x'.net && w in d ensures WireOk(x', y, w) {
      var i :| 0 <= i < |x'.net| && x'.net[i] == d;
      if i < |x.net| {
        assert d in x.net;
        WireStays(x, y, w, x', y);
      } else {
        assert x'.net[|x.net|..][i - |x.net|] == d;
      }
    }
    forall d, w | d in y.net && w in d ensures WireOk(y, x', w) { WireStays(y, x, w, y, x'); }
  }

  lemma SendHalf(x: End, y: End, msg: seq<byte>)
    requires ConnInv(x, y) && Sendable(msg, x.st.cfg.mss)
    ensures var x' := x.(st := Send(x.st, msg).0, sent := x.sent + [msg]);
            HalfOf(x', y) && Progress(x, x')
  {
    var mss := x.st.cfg.mss;
    var n := FragmentCount(|msg|, mss);
    CutCount(msg, mss);
    var q := Pieces(x.st.pool, msg, mss, n).0;
    assert FragsOf(q) == Cut(msg, mss) by { PiecesAreCut(x.st.pool, msg, mss, n); }
    assert CutAll(x.sent + [msg], mss) == Stream(x) + FragsOf(q) by { CutAllSnoc(x.sent, msg, mss); }
    SendInv(x.st.snd, Stream(x), y.st.rcv, q);
    SendKeeps(Exact, x.st, msg);
  }

  lemma SendKeepsConn(x: End, y: End, msg: seq<byte>)
    requires ConnInv(x, y)
    ensures var x' := Act(Exact, x, y.net, SendMessage(msg)); ConnInv(x', y) && Progress(x, x')
  {
    if Sendable(msg, x.st.cfg.mss) {
      SendHalf(x, y, msg);
      ProgressKeeps(x, y, x.(st := Send(x.st, msg).0, sent := x.sent + [msg]));
    }
  }

  /** An outcome that keeps this half in order and whose datagrams are true. */
  ghost predicate GoodOutcome(x: End, y: End, o: Outcome) {
    && x.st.cfg.Ok() && y.st.cfg.Ok() && o.st.cfg == x.st.cfg
    && Half(o.st, Stream(x), y.st.rcv, y.st.cfg.rcv_wnd, Stream(y), y.st.snd.nxt, CutAll(x.got, y.st.cfg.mss))
    && Grows(x.st.rcv, o.st.rcv) && o.st.snd.nxt >= x.st.snd.nxt
    && forall d, w :: d in o.out && w in d ==>
         && NewsOk(w, o.st.rcv, x.st.cfg.rcv_wnd)
         && PushOk(w, Stream(x), o.st.snd.nxt, y.st.rcv.nxt + y.st.cfg.rcv_wnd)
  }

  lemma EmitKeepsConn(x: End, y: End, o: Outcome)
    requires ConnInv(x, y) && GoodOutcome(x, y, o)
    ensures ConnInv(Emit(x, o), y) && Progress(x, Emit(x, o))
  {
    var x' := Emit(x, o);
    assert x'.net[|x.net|..] == o.out;
    ProgressKeeps(x, y, x');
  }

  lemma DeliverKeepsConn(x: End, y: End, i: nat, regular: bool, ackNoDelay: bool, now: u32, clock: nat -> u32)
    requires ConnInv(x, y) && i < |y.net|
    ensures var x' := Emit(x, InputDatagram(Exact, x.st, y.net[i], regular, ackNoDelay, now, clock));
            ConnInv(x', y) && Progress(x, x')
  {
    var ws := y.net[i];
    InputConfig(Exact, x.st, ws, regular, ackNoDelay, now, clock);
    assert forall w :: w in ws ==> WireOk(y, x, w);
    InputDatagramHalf(x.st, ws, regular, ackNoDelay, now, clock,
      Stream(x), y.st.rcv, y.st.cfg.rcv_wnd, Stream(y), y.st.snd.nxt, CutAll(x.got, y.st.cfg.mss),
      x.st.rcv.nxt + x.st.cfg.rcv_wnd);
    EmitKeepsConn(x, y, InputDatagram(Exact, x.st, ws, regular, ackNoDelay, now, clock));
  }

  lemma UpdateKeepsConn(x: End, y: End, now: u32, clock: nat -> u32)
    requires ConnInv(x, y)
    ensures var x' := Emit(x, Update(Exact, x.st, now, clock)); ConnInv(x', y) && Progress(x, x')
  {
    var st := x.st.(timer := Tick(x.st.timer, x.st.cfg.interval, now).0);
    FlushHalf(st, false, clock,
      Stream(x), y.st.rcv, y.st.cfg.rcv_wnd, Stream(y), y.st.snd.nxt, CutAll(x.got, y.st.cfg.mss));
    EmitKeepsConn(x, y, Update(Exact, x.st, now, clock));
  }

  /** What stands in a stream behind what has been read. */
  lemma BehindRead(read: seq<Frag>, q: seq<Frag>, c: seq<Frag>, stream: seq<Frag>, n: nat, i: nat)
    requires n <= |stream| && read + q == stream[..n] && read + c <= stream
    requires i < |q| && i < |c|
    ensures q[i] == c[i]
  {
    assert (read + q)[|read| + i] == q[i] && (read + c)[|read| + i] == c[i];
  }

  /** A message read is the next one the peer accepted. */
  lemma ReadIsNext(x: End, y: End)
    requires ConnInv(x, y) && |x.st.rcv.queue| > 0
    ensures |x.got| < |y.sent|
    ensures var msg := y.sent[|x.got|]; var c := Cut(msg, y.st.cfg.mss); var q := x.st.rcv.queue;
            && (PeekSize(q) >= 0 <==> |q| >= |c|)
            && (|q| >= |c| ==>
                  && Front(q) == |c| && Joined(q[..|c|]) == msg && PeekSize(q) == |msg| && FragsOf(q[..|c|]) == c)
  {
    var mss := y.st.cfg.mss;
    var read := CutAll(x.got, mss);
    var q := x.st.rcv.queue;
    assert read + FragsOf(q) == Stream(y)[..x.st.rcv.nxt];
    assert |read| < |Stream(y)|;
    assert x.got != y.sent;
    NextMessage(x.got, y.sent, mss);
    var msg := y.sent[|x.got|];
    var c := Cut(msg, mss);
    forall i | 0 <= i < |q| && i < |c| ensures FragOf(q[i]) == c[i] {
      BehindRead(read, FragsOf(q), c, Stream(y), x.st.rcv.nxt, i);
    }
    HeadMessage(q, msg, mss);
    if |q| >= |c| { assert FragsOf(q[..|c|]) == c; }
  }

  lemma ReadRcv(x: End, y: End, room: nat)
    requires ConnInv(x, y)
    ensures var r := Recv(Exact, x.st.rcv, x.st.cfg.rcv_wnd, room);
            r.code >= 0 ==>
              && |x.got| < |y.sent| && r.data == y.sent[|x.got|]
              && ReceiverInv(r.rcv, Stream(y), y.st.snd.nxt, CutAll(x.got + [r.data], y.st.cfg.mss))
              && Grows(x.st.rcv, r.rcv)
  {
    var r := Recv(Exact, x.st.rcv, x.st.cfg.rcv_wnd, room);
    if r.code >= 0 {
      ReadIsNext(x, y);
      CutAllSnoc(x.got, y.sent[|x.got|], y.st.cfg.mss);
      ReadInv(x.st.rcv, x.st.cfg.rcv_wnd, Stream(y), y.st.snd.nxt, CutAll(x.got, y.st.cfg.mss), Front(x.st.rcv.queue));
    }
  }

  lemma ReadKeepsConn(x: End, y: End, room: nat)
    requires ConnInv(x, y)
    ensures var (st, code, data) := Receive(Exact, x.st, room);
            var x' := x.(st := st, got := if code >= 0 then x.got + [data] else x.got);
            ConnInv(x', y) && Progress(x, x')
  {
    var (st, code, data) := Receive(Exact, x.st, room);
    ReceiveKeeps(Exact, x.st, room);
    ReadRcv(x, y, room);
    if code >= 0 { ProgressKeeps(x, y, x.(st := st, got := x.got + [data])); }
  }

  lemma ActKeepsConn(x: End, y: End, a: Action)
    requires ConnInv(x, y)
    ensures var x' := Act(Exact, x, y.net, a); ConnInv(x', y) && Progress(x, x')
  {
    match a
    case SendMessage(msg) => SendKeepsConn(x, y, msg);
    case Deliver(i, regular, ackNoDelay, now, clock) =>
      if i < |y.net| { DeliverKeepsConn(x, y, i, regular, ackNoDelay, now, clock); }
    case CallUpdate(now, clock) => UpdateKeepsConn(x, y, now, clock);
    case ReadMessage(room) => ReadKeepsConn(x, y, room);
  }

  // ---------- runs ----------

  datatype Sys = Sys(l: End, r: End) {
    predicate Configured() { l.st.cfg.Ok() && r.st.cfg.Ok() }
  }

  /** One end acts. */
  datatype Move = Left(act: Action) | Right(act: Action)

  function Step(m: Arith, s: Sys, mv: Move): (t: Sys)
    requires s.Configured()
    ensures t.Configured()
  {
    match mv
    case Left(a) => s.(l := Act(m, s.l, s.r.net, a))
    case Right(a) => s.(r := Act(m, s.r, s.l.net, a))
  }

  /** A schedule: any moves in any order, any datagram delivered any number of times, or never. */
  function Run(m: Arith, s: Sys, moves: seq<Move>): (t: Sys)
    requires s.Configured()
    ensures t.Configured()
  {
    if moves == [] then s else Step(m, Run(m, s, moves[..|moves|-1]), moves[|moves|-1])
  }

  function FreshEnd(cfg: Config, pick: nat -> nat): End { End(Fresh(cfg, pick), [], [], []) }

  /** Two fresh control blocks of one session; a window of 32 is what a new block takes its peer for. */
  ghost predicate Started(s: Sys) {
    && s.Configured()
    && s.l == FreshEnd(s.l.st.cfg, s.l.st.pool.pick) && s.r == FreshEnd(s.r.st.cfg, s.r.st.pool.pick)
    && s.l.st.cfg.rcv_wnd >= 32 && s.r.st.cfg.rcv_wnd >= 32
    && s.l.st.cfg.conv == s.r.st.cfg.conv && s.l.st.cfg.session == s.r.st.cfg.session
  }

  ghost predicate Connected(s: Sys) { ConnInv(s.l, s.r) }

  lemma FreshHalf(x: End, y: End)
    requires x.st.cfg.Ok() && y.st.cfg.Ok() && y.st.cfg.rcv_wnd >= 32
    requires x == FreshEnd(x.st.cfg, x.st.pool.pick) && y == FreshEnd(y.st.cfg, y.st.pool.pick)
    ensures HalfOf(x, y)
  {
    assert FragsOf([]) == [];
  }

  lemma StartedIsConnected(s: Sys)
    requires Started(s)
    ensures Connected(s)
  {
    FreshHalf(s.l, s.r);
    FreshHalf(s.r, s.l);
  }

  lemma ConnSymmetric(x: End, y: End)
    requires ConnInv(x, y)
    ensures ConnInv(y, x)
  {}

  /** Both ends have gone on. */
  ghost predicate GoesOn(s: Sys, t: Sys)
    requires s.Configured()
  { Progress(s.l, t.l) && Progress(s.r, t.r) }

  lemma StepGoesOn(s: Sys, mv: Move)
    requires Connected(s)
    ensures Connected(Step(Exact, s, mv)) && GoesOn(s, Step(Exact, s, mv))
  {
    match mv
    case Left(a) => ActKeepsConn(s.l, s.r, a);
    case Right(a) =>
      ConnSymmetric(s.l, s.r);
      ActKeepsConn(s.r, s.l, a);
      ConnSymmetric(Step(Exact, s, mv).r, s.l);
  }

  lemma GoOn(s: Sys, t: Sys, u: Sys)
    requires s.Configured() && t.Configured() && GoesOn(s, t) && GoesOn(t, u)
    ensures GoesOn(s, u)
  {
    assert forall sn :: Received(s.l.st.rcv, sn) ==> Received(t.l.st.rcv, sn) && Received(u.l.st.rcv, sn);
    assert forall sn :: Received(s.r.st.rcv, sn) ==> Received(t.r.st.rcv, sn) && Received(u.r.st.rcv, sn);
  }

  /** From any connected state, every schedule keeps the connection invariant, and undoes nothing. */
  lemma {:induction false} MovesGoOn(s: Sys, moves: seq<Move>)
    requires Connected(s)
    ensures Connected(Run(Exact, s, moves)) && GoesOn(s, Run(Exact, s, moves))
    decreases |moves|
  {
    if moves != [] {
      var t := Run(Exact, s, moves[..|moves|-1]);
      MovesGoOn(s, moves[..|moves|-1]);
      StepGoesOn(t, moves[|moves|-1]);
      GoOn(s, t, Run(Exact, s, moves));
    }
  }

  /** Every schedule keeps the connection invariant. */
  lemma RunIsConnected(s: Sys, moves: seq<Move>)
    requires Started(s)
    ensures Connected(Run(Exact, s, moves))
  {
    StartedIsConnected(s);
    MovesGoOn(s, moves);
  }

  // ---------- what holds in every run; the other direction follows by exchanging the ends ----------

  /** Whatever was ever moved to the receive queue, read or not, is exactly a prefix of the segments
      the peer numbered 0, 1, 2, ..., with the same frg and data, each once and in order. */
  lemma DeliveredIsPrefix(s: Sys, moves: seq<Move>)
    requires Started(s)
    ensures var t := Run(Exact, s, moves); var x, y := t.l, t.r;
            0 <= y.st.rcv.nxt <= |Stream(x)|
            && CutAll(y.got, x.st.cfg.mss) + FragsOf(y.st.rcv.queue) == Stream(x)[..y.st.rcv.nxt]
  {
    RunIsConnected(s, moves);
  }

  /** The messages delivered are the first ones the peer accepted, byte for byte. */
  lemma MessagesArePrefix(s: Sys, moves: seq<Move>)
    requires Started(s)
    ensures var t := Run(Exact, s, moves); t.r.got <= t.l.sent && t.l.got <= t.r.sent
  {
    RunIsConnected(s, moves);
  }

  /** snd_una <= rcv_nxt <= snd_nxt across the ends, and a segment taken for acknowledged, dropped or
      not, is in the peer's hands. */
  lemma AcknowledgedIsReceived(s: Sys, moves: seq<Move>)
    requires Started(s)
    ensures var t := Run(Exact, s, moves); var x, y := t.l.st.snd, t.r.st.rcv;
            && x.una <= y.nxt <= x.nxt
            && (forall sn :: sn < x.una ==> Received(y, sn))
            && (forall k :: 0 <= k < |x.buf| && x.buf[k].acked ==> Received(y, x.buf[k].sn))
  {
    RunIsConnected(s, moves);
    var t := Run(Exact, s, moves);
    forall k | 0 <= k < |t.l.st.snd.buf| && t.l.st.snd.buf[k].acked
      ensures Received(t.r.st.rcv, t.l.st.snd.buf[k].sn)
    {
      assert Sends(t.l.st.snd, Stream(t.l), t.r.st.rcv, k);
    }
  }

  /** No data segment ever sent lies beyond the receiver's window, and no more than snd_wnd segments
      are ever in flight. */
  lemma NoOverrun(s: Sys, moves: seq<Move>)
    requires Started(s)
    ensures var t := Run(Exact, s, moves); var x, y := t.l.st, t.r.st;
            && x.snd.nxt - x.snd.una <= x.cfg.snd_wnd
            && forall d, w :: d in t.l.net && w in d && w.cmd == CMD_PUSH ==> 0 <= w.sn < y.rcv.nxt + y.cfg.rcv_wnd
  {
    RunIsConnected(s, moves);
    var t := Run(Exact, s, moves);
    assert forall d, w :: d in t.l.net && w in d ==> WireOk(t.l, t.r, w);
  }

  lemma SizeBound(len: nat, mss: nat)
    requires mss > 0 && FragmentCount(len, mss) <= 255
    ensures len <= 255 * mss
  {
    if len > mss {
      var q := (len + mss - 1) / mss;
      assert len + mss - 1 == q * mss + (len + mss - 1) % mss;
      assert q * mss <= 255 * mss by { Below(q, 255, mss); }
    }
  }

  ghost predicate Full(x: End) { x.st.cfg.rcv_wnd >= 255 && |x.st.rcv.queue| == x.st.cfg.rcv_wnd }

  /** x can read the next message of y, of at most 255 * mss bytes, into a buffer of its size. */
  ghost predicate Readable(x: End, y: End) {
    var q := x.st.rcv.queue;
    && |x.got| < |y.sent|
    && PeekSize(q) == |y.sent[|x.got|]| && 0 < PeekSize(q) <= 255 * y.st.cfg.mss
    && Recv(Exact, x.st.rcv, x.st.cfg.rcv_wnd, PeekSize(q)).data == y.sent[|x.got|]
  }

  lemma FullIsReadable(x: End, y: End)
    requires ConnInv(x, y) && Full(x)
    ensures Readable(x, y)
  {
    ReadIsNext(x, y);
    var msg := y.sent[|x.got|];
    CutCount(msg, y.st.cfg.mss);
    SizeBound(|msg|, y.st.cfg.mss);
  }

  /** No receive deadlock: with a window of at least 255, a full queue starts with a complete message,
      so it can be read, and reading makes room. */
  lemma FullQueueIsReadable(s: Sys, moves: seq<Move>)
    requires Started(s)
    ensures var t := Run(Exact, s, moves);
            (Full(t.l) ==> Readable(t.l, t.r)) && (Full(t.r) ==> Readable(t.r, t.l))
  {
    RunIsConnected(s, moves);
    var t := Run(Exact, s, moves);
    ConnSymmetric(t.l, t.r);
    if Full(t.l) { FullIsReadable(t.l, t.r); }
    if Full(t.r) { FullIsReadable(t.r, t.l); }
  }
}
