/** What every operation of the control block keeps, whatever bytes come in, and what a flush puts
    on the wire. */
module Invariants {
  import opened Words
  import opened Segments
  import opened Sender
  import opened Receiver
  import opened Timing
  import opened Flushing
  import opened BufferPool
  import opened Engine

  // ---------- Send and Recv ----------

  lemma {:induction false} PiecesWaiting(p: Pool, msg: seq<byte>, mss: nat, count: nat)
    requires count <= 0x100
    ensures var q := Pieces(p, msg, mss, count).0;
            |q| == count && forall k :: 0 <= k < |q| ==> Waiting(q[k], mss)
    decreases count
  {
    if count > 0 { PiecesWaiting(Get(p), msg[Min(|msg|, mss)..], mss, count - 1); }
  }

  lemma SendKeeps(m: Arith, st: State, msg: seq<byte>)
    requires StateOk(m, st)
    ensures StateOk(m, Send(st, msg).0)
  {
    if |msg| > 0 {
      var count := FragmentCount(|msg|, st.cfg.mss);
      if count <= 255 { PiecesWaiting(st.pool, msg, st.cfg.mss, count); }
    }
  }

  lemma ReceiveKeeps(m: Arith, st: State, room: nat)
    requires StateOk(m, st)
    ensures StateOk(m, Receive(m, st, room).0)
  {
    RecvKeeps(m, st.rcv, st.cfg.rcv_wnd, room);
  }

  // ---------- Input ----------

  lemma OnUnaKeeps(m: Arith, st: State, una: int)
    requires StateOk(m, st)
    ensures StateOk(m, OnUna(m, st, una))
  {
    AckFrontKeeps(m, st.snd, una, st.cfg.snd_wnd, st.cfg.mss);
  }

  lemma OnAckSegmentKeeps(m: Arith, st: State, sn: int, ts: u32)
    requires StateOk(m, st)
    ensures StateOk(m, OnAckSegment(m, st, sn, ts))
  {
    ParseAckKeeps(m, st.snd, sn, st.cfg.snd_wnd, st.cfg.mss);
    ParseFastackKeeps(m, ParseAck(m, st.snd, sn), sn, ts, st.cfg.snd_wnd, st.cfg.mss);
  }

  lemma OnPushKeeps(m: Arith, st: State, w: Wire)
    requires StateOk(m, st) && Represented(m, w.sn)
    ensures StateOk(m, OnPush(m, st, w))
  {
    ParseDataKeeps(m, st.rcv, st.cfg.rcv_wnd, Accepted(w, GetId(st.pool)));
  }

  /** Any decoded segment, from anyone. */
  lemma InputSegmentKeeps(m: Arith, l: Loop, regular: bool, w: Wire)
    requires StateOk(m, l.st) && Represented(m, w.sn)
    ensures StateOk(m, InputSegment(m, l, regular, w).st)
  {
    var st0 := if regular then l.st.(rmt_wnd := w.wnd) else l.st;
    OnUnaKeeps(m, st0, w.una);
    var st := AfterUna(m, l.st, regular, w);
    if w.cmd == CMD_ACK {
      OnAckSegmentKeeps(m, st, w.sn, w.ts);
    } else if w.cmd == CMD_PUSH {
      OnPushKeeps(m, st, w);
    }
  }

  lemma {:induction false} InputSegmentsKeep(m: Arith, l: Loop, regular: bool, ws: seq<Wire>)
    requires StateOk(m, l.st) && forall k :: 0 <= k < |ws| ==> Represented(m, ws[k].sn)
    ensures StateOk(m, InputSegments(m, l, regular, ws).st)
    decreases |ws|
  {
    if ws != [] {
      InputSegmentKeeps(m, l, regular, ws[0]);
      InputSegmentsKeep(m, InputSegment(m, l, regular, ws[0]), regular, ws[1..]);
    }
  }

  lemma {:induction false} InputBytesKeep(l: Loop, regular: bool, b: seq<byte>)
    requires StateOk(Wrapping, l.st)
    ensures StateOk(Wrapping, InputBytes(l, regular, b).0.st)
    decreases |b|
  {
    if |b| >= OVERHEAD && |b| >= OVERHEAD + HeadLength(b) {
      var w := DecodeFront(b);
      InputSegmentKeeps(Wrapping, l, regular, w);
      InputBytesKeep(InputSegment(Wrapping, l, regular, w), regular, b[OVERHEAD + HeadLength(b)..]);
    }
  }

  lemma AfterLoopKeeps(m: Arith, una: int, l: Loop, regular: bool, now: u32)
    requires StateOk(m, l.st)
    ensures StateOk(m, AfterLoop(m, una, l, regular, now))
  {}

  lemma FinishKeeps(m: Arith, una: int, l: Loop, regular: bool, ackNoDelay: bool, now: u32, clock: nat -> u32)
    requires StateOk(m, l.st)
    ensures StateOk(m, Finish(m, una, l, regular, ackNoDelay, now, clock).st)
  {
    AfterLoopKeeps(m, una, l, regular, now);
    var st := AfterLoop(m, una, l, regular, now);
    FlushKeeps(m, st, false, clock);
    FlushKeeps(m, st, true, clock);
  }

  /** Any bytes at all keep the control block in order. */
  lemma InputKeeps(st: State, b: seq<byte>, regular: bool, ackNoDelay: bool, now: u32, clock: nat -> u32)
    requires StateOk(Wrapping, st)
    ensures StateOk(Wrapping, Input(st, b, regular, ackNoDelay, now, clock).st)
  {
    var l := Loop(st, false, false, 0);
    InputBytesKeep(l, regular, b);
    FinishKeeps(Wrapping, st.snd.una, InputBytes(l, regular, b).0, regular, ackNoDelay, now, clock);
  }

  // ---------- flush ----------

  /** A control segment of a flush of st: a window probe, or one of the pending acknowledgements;
      either way it announces what st has received. */
  ghost predicate Control(st: State, w: Wire) {
    && w.conv == st.cfg.conv && w.session == st.cfg.session
    && w.una == st.rcv.nxt && w.wnd == WndUnused(st.rcv, st.cfg.rcv_wnd) && w.data == [] && w.frg == 0
    && (w.cmd == CMD_ACK || w.cmd == CMD_WASK || w.cmd == CMD_WINS)
    && ((w.cmd != CMD_ACK && w.sn == 0) || exists i :: 0 <= i < |st.acks| && w.sn == st.acks[i].sn)
  }

  lemma AckControl(st: State, w: Wire)
    requires FromAck(AckHeader(st), st.acks, w)
    ensures Control(st, w)
  {
    var i :| 0 <= i < |st.acks| && w == AckWire(AckHeader(st), st.acks, i);
    assert w.sn == st.acks[i].sn;
  }

  lemma ProbeControl(st: State, head: Wire, cmd: u8)
    requires head == AckHeader(st) || FromAck(AckHeader(st), st.acks, head)
    requires cmd == CMD_WASK || cmd == CMD_WINS
    ensures Control(st, head.(cmd := cmd))
  {
    if head != AckHeader(st) { AckControl(st, head); }
  }

  lemma AcksOnly(m: Arith, st: State)
    requires StateOk(m, st)
    ensures var s := FlushAcks(m, st);
            && PackerOk(s.packer, st.cfg.mtu)
            && (s.head == AckHeader(st) || FromAck(AckHeader(st), st.acks, s.head))
            && forall w :: w in Sent(s.packer) ==> Control(st, w)
  {
    AcksUpToOk(m, st.acks, st.rcv.nxt, st.cfg.mtu, AckHeader(st), |st.acks|);
    forall w | w in Sent(FlushAcks(m, st).packer) ensures Control(st, w) { AckControl(st, w); }
  }

  lemma WithProbesOk(p: Packer, head: Wire, probe: Probe, mtu: nat)
    requires PackerOk(p, mtu) && head.Size() <= mtu
    ensures PackerOk(WithProbes(p, head, probe, mtu), mtu)
    ensures forall w :: w in Sent(WithProbes(p, head, probe, mtu)) ==>
              w in Sent(p) || w == head.(cmd := CMD_WASK) || w == head.(cmd := CMD_WINS)
  {
    var ask, tell := head.(cmd := CMD_WASK), head.(cmd := CMD_WINS);
    var asked := if probe.ask then Put(p, ask, mtu) else p;
    assert PackerOk(asked, mtu) && forall w :: w in Sent(asked) ==> w in Sent(p) || w == ask by {
      PutKeeps(p, ask, mtu);
    }
    PutKeeps(asked, tell, mtu);
  }

  lemma ControlsOk(m: Arith, st: State, p: Probe)
    requires StateOk(m, st)
    ensures PackerOk(Controls(m, st, p), st.cfg.mtu)
    ensures forall w :: w in Sent(Controls(m, st, p)) ==> Control(st, w)
  {
    AcksOnly(m, st);
    var s := FlushAcks(m, st);
    ProbeControl(st, s.head, CMD_WASK);
    ProbeControl(st, s.head, CMD_WINS);
    assert s.head.Size() <= st.cfg.mtu by { if s.head != AckHeader(st) { AckControl(st, s.head); } }
    WithProbesOk(s.packer, s.head, p, st.cfg.mtu);
  }

  /** A data segment of a flush: an unacknowledged segment of the buffer it leaves behind. */
  ghost predicate DataFrom(st: State, buf: seq<Segment>, w: Wire) {
    && w.una == st.rcv.nxt && w.wnd == WndUnused(st.rcv, st.cfg.rcv_wnd)
    && exists k :: 0 <= k < |buf| && !buf[k].acked && w == buf[k].ToWire()
  }

  /** Every numbered segment fits a datagram. */
  lemma NumberedFits(m: Arith, st: State)
    requires StateOk(m, st)
    ensures AllFit(NumberedSnd(m, st).buf, st.cfg.mtu)
  {
    NumberKeeps(m, st.snd, st.cfg.conv, st.cfg.session, Window(st), st.cfg.snd_wnd, st.cfg.mss);
    var buf := NumberedSnd(m, st).buf;
    assert forall k :: 0 <= k < |buf| ==> InFlight(buf[k], st.cfg.mss);
    EachFits(buf, st.cfg.mtu);
  }

  lemma FullScanOk(m: Arith, st: State, clock: nat -> u32)
    requires StateOk(m, st)
    ensures var f := ScanRules(st); var p := ProbeWait(st.probe, st.rmt_wnd, clock(0));
            var s0 := Scan([], Controls(m, st, p), clock(1), false, false, Signed32(st.cfg.interval), false);
            var scan := FullScan(m, st, clock); var buf := NumberedSnd(m, st).buf;
            ScanOk(f, s0, scan, buf) && |scan.done| == |buf| && PackerOk(s0.packer, st.cfg.mtu)
  {
    var p := ProbeWait(st.probe, st.rmt_wnd, clock(0));
    ControlsOk(m, st, p);
    NumberKeeps(m, st.snd, st.cfg.conv, st.cfg.session, Window(st), st.cfg.snd_wnd, st.cfg.mss);
    var buf := NumberedSnd(m, st).buf;
    assert forall k :: 0 <= k < |buf| ==> InFlight(buf[k], st.cfg.mss);
    ScanUpToOk(ScanRules(st), Scan([], Controls(m, st, p), clock(1), false, false, Signed32(st.cfg.interval), false),
               buf, clock, |buf|);
  }

  /** A scan keeps numbers, bodies and marks. */
  lemma ScanKeeps(m: Arith, s: Snd, done: seq<Segment>, cfg: Config)
    requires SndOk(m, s, cfg.snd_wnd, cfg.mss) && |done| == |s.buf| && Tagged(s.buf, cfg.conv, cfg.session)
    requires forall k :: 0 <= k < |done| ==> SameSegment(s.buf[k], done[k])
    ensures SndOk(m, s.(buf := done), cfg.snd_wnd, cfg.mss) && Tagged(done, cfg.conv, cfg.session)
  {
    forall k | 0 <= k < |done| ensures done[k].sn == s.buf[k].sn && InFlight(done[k], cfg.mss) {
      assert SameSegment(s.buf[k], done[k]) && InFlight(s.buf[k], cfg.mss);
    }
  }

  lemma NumberedOk(m: Arith, st: State)
    requires StateOk(m, st)
    ensures SndOk(m, NumberedSnd(m, st), st.cfg.snd_wnd, st.cfg.mss)
    ensures Tagged(NumberedSnd(m, st).buf, st.cfg.conv, st.cfg.session)
  {
    NumberKeeps(m, st.snd, st.cfg.conv, st.cfg.session, Window(st), st.cfg.snd_wnd, st.cfg.mss);
  }

  lemma FlushKeeps(m: Arith, st: State, ackOnly: bool, clock: nat -> u32)
    requires StateOk(m, st)
    ensures StateOk(m, Flush(m, st, ackOnly, clock).st)
  {
    if !ackOnly {
      FullScanOk(m, st, clock);
      NumberedOk(m, st);
      ScanKeeps(m, NumberedSnd(m, st), FullScan(m, st, clock).done, st.cfg);
    }
  }

  /** Each segment of a scan's packer was there before the scan, or is a data segment it sent. */
  lemma ScanEmits(m: Arith, st: State, clock: nat -> u32, w: Wire)
    requires StateOk(m, st) && w in Sent(FullScan(m, st, clock).packer)
    ensures Control(st, w) || DataFrom(st, FullScan(m, st, clock).done, w)
  {
    var p := ProbeWait(st.probe, st.rmt_wnd, clock(0));
    var controls := Controls(m, st, p);
    var scan := FullScan(m, st, clock);
    FullScanOk(m, st, clock);
    var i :| 0 <= i < |Sent(scan.packer)| && w == Sent(scan.packer)[i];
    if i < |Sent(controls)| {
      ControlsOk(m, st, p);
      assert Sent(controls)[i] == w && w in Sent(controls);
    } else {
      assert SentFrom(ScanRules(st), scan.done, w);
      var k :| 0 <= k < |scan.done| && Transmission(ScanRules(st), scan.done[k], w);
    }
  }

  lemma FullFlushEmits(m: Arith, st: State, clock: nat -> u32)
    requires StateOk(m, st)
    ensures var p := FullScan(m, st, clock).packer;
            && (forall d :: d in Close(p) ==> Fits(d, st.cfg.mtu))
            && (forall w :: w in Flatten(Close(p)) ==>
                  Control(st, w) || DataFrom(st, FullScan(m, st, clock).done, w))
  {
    var p := FullScan(m, st, clock).packer;
    FullScanOk(m, st, clock);
    CloseKeeps(p, st.cfg.mtu);
    forall w | w in Sent(p) ensures Control(st, w) || DataFrom(st, FullScan(m, st, clock).done, w) {
      ScanEmits(m, st, clock, w);
    }
  }

  /** Every datagram a flush hands to output holds whole segments, in 28 to mtu bytes; each segment
      announces the state flushed, and is a control segment or an unacknowledged segment in flight. */
  lemma FlushEmits(m: Arith, st: State, ackOnly: bool, clock: nat -> u32)
    requires StateOk(m, st)
    ensures var o := Flush(m, st, ackOnly, clock);
            && (forall d :: d in o.out ==> Fits(d, st.cfg.mtu))
            && (forall w :: w in Flatten(o.out) ==> Control(st, w) || (!ackOnly && DataFrom(st, o.st.snd.buf, w)))
  {
    if ackOnly {
      AcksOnly(m, st);
      CloseKeeps(FlushAcks(m, st).packer, st.cfg.mtu);
    } else {
      FullFlushEmits(m, st, clock);
    }
  }

  /** The acknowledgements stay in front of whatever follows them. */
  lemma AcksStay(m: Arith, st: State, ackOnly: bool, clock: nat -> u32, w: Wire)
    requires StateOk(m, st) && w in Sent(FlushAcks(m, st).packer)
    ensures w in Flatten(Flush(m, st, ackOnly, clock).out)
  {
    AcksOnly(m, st);
    if ackOnly {
      CloseKeeps(FlushAcks(m, st).packer, st.cfg.mtu);
    } else {
      var p := ProbeWait(st.probe, st.rmt_wnd, clock(0));
      FullScanOk(m, st, clock);
      CloseKeeps(FullScan(m, st, clock).packer, st.cfg.mtu);
      assert w in Sent(Controls(m, st, p)) by { AcksThenProbes(m, st, p); }
    }
  }

  lemma AcksThenProbes(m: Arith, st: State, p: Probe)
    requires StateOk(m, st)
    ensures Sent(FlushAcks(m, st).packer) <= Sent(Controls(m, st, p))
  {
    AcksOnly(m, st);
    var s := FlushAcks(m, st);
    assert s.head.Size() <= st.cfg.mtu by { if s.head != AckHeader(st) { AckControl(st, s.head); } }
    ProbesAppend(s.packer, s.head, p, st.cfg.mtu);
  }

  lemma ProbesAppend(p: Packer, head: Wire, probe: Probe, mtu: nat)
    requires PackerOk(p, mtu) && head.Size() <= mtu
    ensures Sent(p) <= Sent(WithProbes(p, head, probe, mtu))
  {
    var ask := head.(cmd := CMD_WASK);
    PutKeeps(p, ask, mtu);
    PutKeeps(if probe.ask then Put(p, ask, mtu) else p, head.(cmd := CMD_WINS), mtu);
  }

  /** The filter loses nothing, in either arithmetic and either kind of flush: for every pending
      acknowledgement the output holds one that names its segment and time stamp, or one whose una is past it. */
  lemma FilterLosesNothing(m: Arith, st: State, ackOnly: bool, clock: nat -> u32, i: nat)
    requires StateOk(m, st) && i < |st.acks|
    ensures exists w :: w in Flatten(Flush(m, st, ackOnly, clock).out) && w.cmd == CMD_ACK && w.una == st.rcv.nxt
                        && ((w.sn == st.acks[i].sn && w.ts == st.acks[i].ts) || Diff(m, st.acks[i].sn, w.una) < 0)
  {
    var head := AckHeader(st);
    var j := AckOrLast(m, st.acks, st.rcv.nxt, st.cfg.mtu, head, i);
    AcksStay(m, st, ackOnly, clock, AckWire(head, st.acks, j));
  }

  /** A segment its peer will not reject. */
  ghost predicate Proper(cfg: Config, w: Wire) {
    w.conv == cfg.conv && w.session == cfg.session && KnownCommand(w.cmd) && |w.data| <= MAX_MTU
  }

  ghost predicate ProperDatagram(cfg: Config, d: seq<Wire>) {
    d != [] && forall k :: 0 <= k < |d| ==> Proper(cfg, d[k])
  }

  lemma {:induction false} FlattenHas(ds: seq<seq<Wire>>, d: seq<Wire>, w: Wire)
    requires d in ds && w in d
    ensures w in Flatten(ds)
  {
    if d != ds[|ds|-1] { FlattenHas(ds[..|ds|-1], d, w); }
  }

  lemma FlushIsProper(m: Arith, st: State, ackOnly: bool, clock: nat -> u32)
    requires StateOk(m, st)
    ensures forall d :: d in Flush(m, st, ackOnly, clock).out ==> ProperDatagram(st.cfg, d)
  {
    var o := Flush(m, st, ackOnly, clock);
    FlushEmits(m, st, ackOnly, clock);
    FlushKeeps(m, st, ackOnly, clock);
    forall d | d in o.out ensures ProperDatagram(st.cfg, d) {
      forall k | 0 <= k < |d| ensures Proper(st.cfg, d[k]) {
        FlattenHas(o.out, d, d[k]);
        if !Control(st, d[k]) {
          var i :| 0 <= i < |o.st.snd.buf| && d[k] == o.st.snd.buf[i].ToWire();
          assert InFlight(o.st.snd.buf[i], st.cfg.mss);
        }
      }
    }
  }

  // ---------- what a flush sends, as bytes ----------

  /** What the reader of the socket takes a datagram of n bytes for. */
  datatype Kind = ControlData | SegmentData | Invalid

  function KindOf(n: nat): Kind { if n == 20 then ControlData else if n >= OVERHEAD then SegmentData else Invalid }

  lemma FlushIsEncodable(st: State, ackOnly: bool, clock: nat -> u32, w: Wire)
    requires StateOk(Wrapping, st) && w in Flatten(Flush(Wrapping, st, ackOnly, clock).out)
    ensures w.Encodable()
  {
    var t := Flush(Wrapping, st, ackOnly, clock).st;
    FlushEmits(Wrapping, st, ackOnly, clock);
    FlushKeeps(Wrapping, st, ackOnly, clock);
    if Control(st, w) {
      if w.cmd == CMD_ACK || w.sn != 0 {
        var i :| 0 <= i < |st.acks| && w.sn == st.acks[i].sn;
        assert Represented(Wrapping, st.acks[i].sn);
      }
    } else {
      var k :| 0 <= k < |t.snd.buf| && !t.snd.buf[k].acked && w == t.snd.buf[k].ToWire();
      assert InFlight(t.snd.buf[k], t.cfg.mss) && t.snd.buf[k].sn == Add(Wrapping, t.snd.una, k);
    }
  }

  /** Every buffer a flush hands to output has 28 to mtu bytes, so that it is never taken for a control
      packet, and decodes to exactly the segments put into it. */
  lemma FlushDecodes(st: State, ackOnly: bool, clock: nat -> u32)
    requires StateOk(Wrapping, st)
    ensures var out := Flush(Wrapping, st, ackOnly, clock).out; var bytes := EncodeNet(out);
            forall i :: 0 <= i < |bytes| ==>
              && OVERHEAD <= |bytes[i]| <= st.cfg.mtu && KindOf(|bytes[i]|) == SegmentData
              && DecodeAll(bytes[i]) == out[i]
  {
    var out := Flush(Wrapping, st, ackOnly, clock).out;
    FlushEmits(Wrapping, st, ackOnly, clock);
    forall i | 0 <= i < |out|
      ensures OVERHEAD <= |EncodeAll(out[i])| <= st.cfg.mtu && DecodeAll(EncodeAll(out[i])) == out[i]
    {
      assert out[i] in out;
      EncodeAllSize(out[i]);
      forall w: Wire | w in out[i] ensures w.Encodable() {
        FlattenHas(out, out[i], w);
        FlushIsEncodable(st, ackOnly, clock, w);
      }
      DecodeAllEncodeAll(out[i]);
    }
  }
}
