/** The control block with uint32 sequence numbers does what the one with unbounded numbers does, as
    long as no number it compares is half the number space away.  The representation of a state
    replaces every sequence number by its uint32 value; each operation commutes with it. */
module Refinement {
  import opened Words
  import opened Segments
  import opened Sender
  import opened Receiver
  import opened Flushing
  import opened BufferPool
  import opened Engine
  import opened Invariants

  // ---------- representation ----------

  function RepSegment(seg: Segment): Segment { seg.(sn := seg.sn % M32, una := seg.una % M32) }

  function RepSegments(q: seq<Segment>): (r: seq<Segment>)
    ensures |r| == |q|
  { seq(|q|, i requires 0 <= i < |q| => RepSegment(q[i])) }

  function RepWire(w: Wire): Wire { w.(sn := w.sn % M32, una := w.una % M32) }

  function RepWires(ws: seq<Wire>): (r: seq<Wire>)
    ensures |r| == |ws|
  { seq(|ws|, i requires 0 <= i < |ws| => RepWire(ws[i])) }

  function RepNet(ds: seq<seq<Wire>>): (r: seq<seq<Wire>>)
    ensures |r| == |ds|
  { seq(|ds|, i requires 0 <= i < |ds| => RepWires(ds[i])) }

  function RepAcks(acks: seq<Ack>): (r: seq<Ack>)
    ensures |r| == |acks|
  { seq(|acks|, i requires 0 <= i < |acks| => acks[i].(sn := acks[i].sn % M32)) }

  function RepSnd(s: Snd): Snd { Snd(s.una % M32, s.nxt % M32, RepSegments(s.queue), RepSegments(s.buf)) }

  function RepRcv(r: Rcv): Rcv { Rcv(r.nxt % M32, RepSegments(r.queue), RepSegments(r.buf)) }

  function RepState(st: State): State {
    st.(snd := RepSnd(st.snd), rcv := RepRcv(st.rcv), acks := RepAcks(st.acks))
  }

  function RepLoop(l: Loop): Loop { l.(st := RepState(l.st)) }

  function RepOutcome(o: Outcome): Outcome { o.(st := RepState(o.st), out := RepNet(o.out)) }

  function RepPacker(p: Packer): Packer { Packer(RepWires(p.pending), RepNet(p.out)) }

  function RepScan(s: Scan): Scan { s.(done := RepSegments(s.done), packer := RepPacker(s.packer)) }

  // ---------- nearness ----------

  /** Less than half the number space apart, with room for a window on top. */
  const NEAR := 0x7fff_0000

  predicate Near(x: int, base: int) { -NEAR < x - base < NEAR }

  /** The numbers of a segment that is processed in state st. */
  predicate NearWire(st: State, regular: bool, w: Wire) {
    && Near(w.una, st.snd.una)
    && (w.cmd == CMD_ACK ==> Near(w.sn, AfterUna(Exact, st, regular, w).snd.una))
    && (w.cmd == CMD_PUSH ==> Near(w.sn, st.rcv.nxt))
  }

  predicate NearWires(l: Loop, regular: bool, ws: seq<Wire>)
    decreases |ws|
  {
    ws == [] || (NearWire(l.st, regular, ws[0]) && NearWires(InputSegment(Exact, l, regular, ws[0]), regular, ws[1..]))
  }

  /** The pending acknowledgements. */
  predicate NearAcks(st: State) {
    forall k :: 0 <= k < |st.acks| ==> Near(st.acks[k].sn, st.rcv.nxt)
  }

  lemma NearDiff(x: int, base: int)
    requires Near(x, base)
    ensures Diff(Wrapping, x % M32, base % M32) == x - base
  {}

  lemma NearWindow(x: int, base: int, len: nat)
    requires Near(x, base) && len < 0x1_0000
    ensures 0 <= Off(Wrapping, x % M32, base % M32) < len <==> 0 <= x - base < len
    ensures 0 <= x - base < len ==> Off(Wrapping, x % M32, base % M32) == x - base
  {}

  lemma SameResidue(a: int, b: int)
    ensures (a % M32 - b % M32) % M32 == (a - b) % M32
  {}

  lemma AddRep(x: int, k: int)
    ensures Add(Wrapping, x % M32, k) == (x + k) % M32
  {}

  // ---------- the sending half ----------

  lemma ParseUnaCommutes(s: Snd, una: int, lim: nat, mss: nat)
    requires SndOk(Exact, s, lim, mss) && Near(una, s.una)
    ensures UnaCount(Wrapping, RepSnd(s), una % M32) == UnaCount(Exact, s, una)
    ensures ShrinkBuf(ParseUna(Wrapping, RepSnd(s), una % M32)) == RepSnd(ShrinkBuf(ParseUna(Exact, s, una)))
  {
    NearDiff(una, s.una);
    var n := UnaCount(Exact, s, una);
    assert RepSegments(s.buf)[n..] == RepSegments(s.buf[n..]);
  }

  lemma ParseAckCommutes(s: Snd, sn: int, lim: nat, mss: nat)
    requires SndOk(Exact, s, lim, mss) && Near(sn, s.una)
    ensures ParseAck(Wrapping, RepSnd(s), sn % M32) == RepSnd(ParseAck(Exact, s, sn))
    ensures Named(Wrapping, RepSnd(s), sn % M32) == RepSegments(Named(Exact, s, sn))
  {
    NearWindow(sn, s.una, |s.buf|);
    var k := sn - s.una;
    if 0 <= k < |s.buf| {
      assert RepSegments(s.buf[k := MarkAcked(s.buf[k])]) == RepSegments(s.buf)[k := MarkAcked(RepSegment(s.buf[k]))];
    }
  }

  lemma ParseFastackCommutes(s: Snd, sn: int, ts: u32, lim: nat, mss: nat)
    requires SndOk(Exact, s, lim, mss) && Near(sn, s.una)
    ensures ParseFastack(Wrapping, RepSnd(s), sn % M32, ts) == RepSnd(ParseFastack(Exact, s, sn, ts))
  {
    NearWindow(sn, s.una, |s.buf|);
    var a, b := ParseFastack(Wrapping, RepSnd(s), sn % M32, ts), RepSnd(ParseFastack(Exact, s, sn, ts));
    assert |a.buf| == |b.buf|;
    assert forall i :: 0 <= i < |a.buf| ==> a.buf[i] == b.buf[i];
  }

  lemma NumberCommutes(s: Snd, conv: u32, session: u32, cwnd: nat)
    ensures Number(Wrapping, RepSnd(s), conv, session, cwnd) == RepSnd(Number(Exact, s, conv, session, cwnd))
  {
    var n := NumberCount(s, cwnd);
    AddRep(s.nxt, n);
    var a := NumberedAll(Wrapping, RepSegments(s.queue)[..n], conv, session, s.nxt % M32);
    var b := NumberedAll(Exact, s.queue[..n], conv, session, s.nxt);
    forall i | 0 <= i < n ensures a[i] == RepSegment(b[i]) { AddRep(s.nxt, i); }
    assert RepSegments(s.buf + b) == RepSegments(s.buf) + a;
    assert RepSegments(s.queue)[n..] == RepSegments(s.queue[n..]);
  }

  // ---------- the receiving half ----------

  lemma InWindowOff(x: int, base: int, wnd: nat)
    requires 0 <= x - base < wnd < 0x1_0000
    ensures Off(Wrapping, x % M32, base % M32) == x - base
  {}

  lemma {:induction false} RankCommutes(buf: seq<Segment>, nxt: int, wnd: nat, o: int)
    requires wnd < 0x1_0000 && forall k :: 0 <= k < |buf| ==> 0 <= buf[k].sn - nxt < wnd
    ensures Rank(Wrapping, RepSegments(buf), nxt % M32, o) == Rank(Exact, buf, nxt, o)
    decreases |buf|
  {
    if |buf| > 0 {
      InWindowOff(buf[0].sn, nxt, wnd);
      assert RepSegments(buf)[1..] == RepSegments(buf[1..]);
      RankCommutes(buf[1..], nxt, wnd, o);
    }
  }

  lemma SameNumber(x: int, y: int)
    requires -M32 < x - y < M32
    ensures x % M32 == y % M32 <==> x == y
  {}

  lemma PlaceCommutes(r: Rcv, wnd: nat, sn: int)
    requires RcvShape(Exact, r, wnd) && 0 <= sn - r.nxt < wnd
    ensures Place(Wrapping, RepRcv(r), sn % M32) == Place(Exact, r, sn)
    ensures Repeated(Wrapping, RepRcv(r), sn % M32) <==> Repeated(Exact, r, sn)
  {
    InWindowOff(sn, r.nxt, wnd);
    assert forall k :: 0 <= k < |r.buf| ==> Buffered(Exact, r.buf[k], r.nxt, wnd);
    RankCommutes(r.buf, r.nxt, wnd, sn - r.nxt);
    var i := Place(Exact, r, sn);
    if i < |r.buf| { SameNumber(r.buf[i].sn, sn); }
  }

  lemma InsertCommutes(r: Rcv, wnd: nat, seg: Segment)
    requires RcvShape(Exact, r, wnd) && 0 <= seg.sn - r.nxt < wnd
    ensures Insert(Wrapping, RepRcv(r), RepSegment(seg)) == RepRcv(Insert(Exact, r, seg))
  {
    PlaceCommutes(r, wnd, seg.sn);
    var i := Place(Exact, r, seg.sn);
    assert RepSegments(r.buf[..i] + [seg] + r.buf[i..])
        == RepSegments(r.buf)[..i] + [RepSegment(seg)] + RepSegments(r.buf)[i..];
  }

  lemma {:induction false} ReadyCommutes(r: Rcv, wnd: nat, room: int, k: nat)
    requires RcvShape(Exact, r, wnd) && k <= |r.buf| && room <= wnd
    ensures ReadyFrom(Wrapping, RepSegments(r.buf), r.nxt % M32, room, k) == ReadyFrom(Exact, r.buf, r.nxt, room, k)
    decreases |r.buf| - k
  {
    if k < |r.buf| && k < room {
      AddRep(r.nxt, k);
      assert Buffered(Exact, r.buf[k], r.nxt, wnd);
      SameNumber(r.buf[k].sn, r.nxt + k);
      ReadyCommutes(r, wnd, room, k + 1);
    }
  }

  lemma AdvanceCommutes(r: Rcv, wnd: nat)
    requires RcvShape(Exact, r, wnd)
    ensures Advance(Wrapping, RepRcv(r), wnd) == RepRcv(Advance(Exact, r, wnd))
  {
    ReadyCommutes(r, wnd, wnd - |r.queue|, 0);
    var n := Ready(Exact, r, wnd);
    AddRep(r.nxt, n);
    RepMoved(r.queue, r.buf, n);
  }

  lemma RepMoved(q: seq<Segment>, b: seq<Segment>, n: nat)
    requires n <= |b|
    ensures RepSegments(q + b[..n]) == RepSegments(q) + RepSegments(b)[..n]
    ensures RepSegments(b[n..]) == RepSegments(b)[n..]
  {}

  lemma WindowCommutes(r: Rcv, wnd: nat, sn: int)
    requires wnd < 0x1_0000 && Near(sn, r.nxt)
    ensures Diff(Wrapping, sn % M32, Add(Wrapping, r.nxt % M32, wnd)) == sn - (r.nxt + wnd)
    ensures Diff(Wrapping, sn % M32, r.nxt % M32) == sn - r.nxt
    ensures InWindow(Wrapping, RepRcv(r), wnd, sn % M32) <==> InWindow(Exact, r, wnd, sn)
  {
    AddRep(r.nxt, wnd);
    DiffNear(sn, r.nxt + wnd);
    DiffNear(sn, r.nxt);
  }

  lemma ParseDataCommutes(r: Rcv, wnd: nat, seg: Segment)
    requires RcvOk(Exact, r, wnd) && Near(seg.sn, r.nxt) && seg.body.Buf?
    ensures ParseData(Wrapping, RepRcv(r), wnd, RepSegment(seg)) == RepRcv(ParseData(Exact, r, wnd, seg))
  {
    WindowCommutes(r, wnd, seg.sn);
    if InWindow(Exact, r, wnd, seg.sn) {
      InsertCommutes(r, wnd, seg);
      InsertKeeps(Exact, r, wnd, seg);
      AdvanceCommutes(Insert(Exact, r, seg), wnd);
    }
  }

  lemma {:induction false} JoinedRep(q: seq<Segment>)
    ensures Joined(RepSegments(q)) == Joined(q)
  {
    if q != [] {
      assert RepSegments(q)[..|q|-1] == RepSegments(q[..|q|-1]);
      JoinedRep(q[..|q|-1]);
    }
  }

  lemma {:induction false} FrontRep(q: seq<Segment>, k: nat)
    requires k <= |q|
    ensures FrontFrom(RepSegments(q), k) == FrontFrom(q, k)
    decreases |q| - k
  {
    if k < |q| { FrontRep(q, k + 1); }
  }

  lemma RestCommutes(r: Rcv)
    ensures Front(RepSegments(r.queue)) == Front(r.queue)
    ensures Rest(RepRcv(r)) == RepRcv(Rest(r))
    ensures Joined(RepSegments(r.queue)[..Front(r.queue)]) == Joined(r.queue[..Front(r.queue)])
  {
    var n := Front(r.queue);
    FrontRep(r.queue, 0);
    assert RepSegments(r.queue)[n..] == RepSegments(r.queue[n..]);
    assert RepSegments(r.queue)[..n] == RepSegments(r.queue[..n]);
    JoinedRep(r.queue[..n]);
  }

  lemma RecvCommutes(r: Rcv, wnd: nat, room: nat)
    requires RcvOk(Exact, r, wnd)
    ensures var a, b := Recv(Wrapping, RepRcv(r), wnd, room), Recv(Exact, r, wnd, room);
            a == b.(rcv := RepRcv(b.rcv))
  {
    RestCommutes(r);
    assert PeekSize(RepSegments(r.queue)) == PeekSize(r.queue);
    AdvanceCommutes(Rest(r), wnd);
  }

  // ---------- packing ----------

  lemma {:induction false} SizeRep(ws: seq<Wire>)
    ensures SizeAll(RepWires(ws)) == SizeAll(ws)
  {
    if ws != [] {
      assert RepWires(ws)[..|ws|-1] == RepWires(ws[..|ws|-1]);
      SizeRep(ws[..|ws|-1]);
    }
  }

  lemma MakeSpaceCommutes(p: Packer, space: nat, mtu: nat)
    ensures MakeSpace(RepPacker(p), space, mtu) == RepPacker(MakeSpace(p, space, mtu))
  {
    SizeRep(p.pending);
    assert RepNet(p.out + [p.pending]) == RepNet(p.out) + [RepWires(p.pending)];
  }

  lemma AppendCommutes(p: Packer, w: Wire)
    ensures Append(RepPacker(p), RepWire(w)) == RepPacker(Append(p, w))
  {
    assert RepWires(p.pending + [w]) == RepWires(p.pending) + [RepWire(w)];
  }

  lemma PutCommutes(p: Packer, w: Wire, mtu: nat)
    ensures Put(RepPacker(p), RepWire(w), mtu) == RepPacker(Put(p, w, mtu))
  {
    MakeSpaceCommutes(p, w.Size(), mtu);
    AppendCommutes(MakeSpace(p, w.Size(), mtu), w);
  }

  lemma CloseCommutes(p: Packer)
    ensures Close(RepPacker(p)) == RepNet(Close(p))
  {
    SizeRep(p.pending);
    assert RepNet(p.out + [p.pending]) == RepNet(p.out) + [RepWires(p.pending)];
  }

  function RepAckScan(s: AckScan): AckScan { AckScan(RepPacker(s.packer), RepWire(s.head)) }

  lemma AckStepCommutes(acks: seq<Ack>, nxt: int, mtu: nat, s: AckScan, i: nat)
    requires i < |acks| && Near(acks[i].sn, nxt)
    ensures AckStep(Wrapping, RepAcks(acks), nxt % M32, mtu, RepAckScan(s), i)
         == RepAckScan(AckStep(Exact, acks, nxt, mtu, s, i))
  {
    MakeSpaceCommutes(s.packer, OVERHEAD, mtu);
    NearDiff(acks[i].sn, nxt);
    AppendCommutes(MakeSpace(s.packer, OVERHEAD, mtu), s.head.(sn := acks[i].sn, ts := acks[i].ts));
  }

  lemma {:induction false} AcksCommute(acks: seq<Ack>, nxt: int, mtu: nat, head: Wire, n: nat)
    requires n <= |acks| && forall k :: 0 <= k < |acks| ==> Near(acks[k].sn, nxt)
    ensures AcksUpTo(Wrapping, RepAcks(acks), nxt % M32, mtu, RepWire(head), n)
         == RepAckScan(AcksUpTo(Exact, acks, nxt, mtu, head, n))
    decreases n
  {
    if n > 0 {
      AcksCommute(acks, nxt, mtu, head, n - 1);
      AckStepCommutes(acks, nxt, mtu, AcksUpTo(Exact, acks, nxt, mtu, head, n - 1), n - 1);
    } else {
      assert RepPacker(Packer([], [])) == Packer([], []);
    }
  }

  lemma RescanCommutes(f: Rules, seg: Segment, now: u32, reading: u32)
    ensures Why(RepSegment(seg), f, now) == Why(seg, f, now)
    ensures Rescan(f.(una := f.una % M32), RepSegment(seg), now, reading) == RepSegment(Rescan(f, seg, now, reading))
  {}

  lemma ScanStepCommutes(f: Rules, s: Scan, seg: Segment, reading: u32)
    ensures ScanStep(f.(una := f.una % M32), RepScan(s), RepSegment(seg), reading)
            == RepScan(ScanStep(f, s, seg, reading))
  {
    RescanCommutes(f, seg, s.now, reading);
    var t := Rescan(f, seg, s.now, reading);
    PutCommutes(s.packer, t.ToWire(), f.mtu);
    assert RepSegment(t).ToWire() == RepWire(t.ToWire());
    assert RepSegments(s.done + [t]) == RepSegments(s.done) + [RepSegment(t)];
  }

  lemma {:induction false} ScanCommutes(f: Rules, s: Scan, buf: seq<Segment>, clock: nat -> u32, n: nat)
    requires n <= |buf|
    ensures ScanUpTo(f.(una := f.una % M32), RepScan(s), RepSegments(buf), clock, n)
            == RepScan(ScanUpTo(f, s, buf, clock, n))
    decreases n
  {
    if n > 0 {
      ScanCommutes(f, s, buf, clock, n - 1);
      ScanStepCommutes(f, ScanUpTo(f, s, buf, clock, n - 1), buf[n-1], clock(n + 1));
    }
  }

  // ---------- whole operations ----------

  lemma SendCommutes(st: State, msg: seq<byte>)
    requires st.cfg.mss > 0
    ensures var a, b := Send(RepState(st), msg), Send(st, msg); a == (RepState(b.0), b.1)
  {
    if |msg| > 0 && FragmentCount(|msg|, st.cfg.mss) <= 255 {
      var q := Pieces(st.pool, msg, st.cfg.mss, FragmentCount(|msg|, st.cfg.mss)).0;
      PiecesRep(st.pool, msg, st.cfg.mss, FragmentCount(|msg|, st.cfg.mss));
      assert RepSegments(st.snd.queue + q) == RepSegments(st.snd.queue) + RepSegments(q);
    }
  }

  lemma RepCons(first: Segment, rest: seq<Segment>)
    ensures RepSegments([first] + rest) == [RepSegment(first)] + RepSegments(rest)
  {}

  lemma {:induction false} PiecesRep(p: Pool, msg: seq<byte>, mss: nat, count: nat)
    requires count <= 0x100
    ensures RepSegments(Pieces(p, msg, mss, count).0) == Pieces(p, msg, mss, count).0
    decreases count
  {
    if count > 0 {
      var size := Min(|msg|, mss);
      PiecesRep(Get(p), msg[size..], mss, count - 1);
      var rest := Pieces(Get(p), msg[size..], mss, count - 1).0;
      var first := Piece(count - 1, GetId(p), msg[..size]);
      RepCons(first, rest);
    }
  }

  lemma {:induction false} IdsRep(q: seq<Segment>)
    ensures Ids(RepSegments(q)) == Ids(q)
  {
    IdsSameBodies(q, RepSegments(q));
  }

  lemma ReceiveCommutes(st: State, room: nat)
    requires StateOk(Exact, st)
    ensures var a, b := Receive(Wrapping, RepState(st), room), Receive(Exact, st, room);
            a == (RepState(b.0), b.1, b.2)
  {
    RecvCommutes(st.rcv, st.cfg.rcv_wnd, room);
    var n := Front(st.rcv.queue);
    FrontRep(st.rcv.queue, 0);
    assert RepSegments(st.rcv.queue)[..n] == RepSegments(st.rcv.queue[..n]);
    IdsRep(st.rcv.queue[..n]);
  }

  lemma OnUnaCommutes(st: State, una: int)
    requires StateOk(Exact, st) && Near(una, st.snd.una)
    ensures OnUna(Wrapping, RepState(st), una % M32) == RepState(OnUna(Exact, st, una))
  {
    ParseUnaCommutes(st.snd, una, st.cfg.snd_wnd, st.cfg.mss);
    var n := UnaCount(Exact, st.snd, una);
    assert RepSegments(st.snd.buf)[..n] == RepSegments(st.snd.buf[..n]);
    IdsRep(st.snd.buf[..n]);
  }

  lemma OnAckCommutes(st: State, sn: int, ts: u32)
    requires StateOk(Exact, st) && Near(sn, st.snd.una)
    ensures OnAckSegment(Wrapping, RepState(st), sn % M32, ts) == RepState(OnAckSegment(Exact, st, sn, ts))
  {
    ParseAckCommutes(st.snd, sn, st.cfg.snd_wnd, st.cfg.mss);
    ParseAckKeeps(Exact, st.snd, sn, st.cfg.snd_wnd, st.cfg.mss);
    ParseFastackCommutes(ParseAck(Exact, st.snd, sn), sn, ts, st.cfg.snd_wnd, st.cfg.mss);
    IdsRep(Named(Exact, st.snd, sn));
  }

  lemma OnPushCommutes(st: State, w: Wire)
    requires StateOk(Exact, st) && Near(w.sn, st.rcv.nxt)
    ensures OnPush(Wrapping, RepState(st), RepWire(w)) == RepState(OnPush(Exact, st, w))
  {
    var wnd := st.cfg.rcv_wnd;
    var seg := Accepted(w, GetId(st.pool));
    assert Accepted(RepWire(w), GetId(st.pool)) == RepSegment(seg);
    WindowCommutes(st.rcv, wnd, w.sn);
    ParseDataCommutes(st.rcv, wnd, seg);
    if InWindow(Exact, st.rcv, wnd, w.sn) { PlaceCommutes(st.rcv, wnd, w.sn); }
    assert RepAcks(st.acks + [Ack(w.sn, w.ts)]) == RepAcks(st.acks) + [Ack(w.sn % M32, w.ts)];
  }

  lemma AfterUnaCommutes(st: State, regular: bool, w: Wire)
    requires StateOk(Exact, st) && Near(w.una, st.snd.una)
    ensures AfterUna(Wrapping, RepState(st), regular, RepWire(w)) == RepState(AfterUna(Exact, st, regular, w))
    ensures StateOk(Exact, AfterUna(Exact, st, regular, w))
    ensures UnaCount(Wrapping, RepSnd(st.snd), w.una % M32) == UnaCount(Exact, st.snd, w.una)
  {
    var st0 := if regular then st.(rmt_wnd := w.wnd) else st;
    OnUnaCommutes(st0, w.una);
    OnUnaKeeps(Exact, st0, w.una);
    ParseUnaCommutes(st.snd, w.una, st.cfg.snd_wnd, st.cfg.mss);
  }

  lemma OnCommandCommutes(st: State, w: Wire)
    requires StateOk(Exact, st)
    requires w.cmd == CMD_ACK ==> Near(w.sn, st.snd.una)
    requires w.cmd == CMD_PUSH ==> Near(w.sn, st.rcv.nxt)
    ensures OnCommand(Wrapping, RepState(st), RepWire(w)) == RepState(OnCommand(Exact, st, w))
  {
    if w.cmd == CMD_ACK {
      OnAckCommutes(st, w.sn, w.ts);
    } else if w.cmd == CMD_PUSH {
      OnPushCommutes(st, w);
    }
  }

  lemma InputSegmentCommutes(l: Loop, regular: bool, w: Wire)
    requires StateOk(Exact, l.st) && NearWire(l.st, regular, w)
    ensures InputSegment(Wrapping, RepLoop(l), regular, RepWire(w)) == RepLoop(InputSegment(Exact, l, regular, w))
  {
    AfterUnaCommutes(l.st, regular, w);
    OnCommandCommutes(AfterUna(Exact, l.st, regular, w), w);
  }

  lemma FirstSegment(m: Arith, l: Loop, regular: bool, ws: seq<Wire>, t: Loop, rest: seq<Wire>)
    requires ws != [] && t == InputSegment(m, l, regular, ws[0]) && rest == ws[1..]
    ensures InputSegments(m, l, regular, ws) == InputSegments(m, t, regular, rest)
  {}

  /** The first segment takes both arithmetics to states that still represent each other. */
  lemma FirstCommutes(l: Loop, regular: bool, ws: seq<Wire>) returns (t: Loop)
    requires StateOk(Exact, l.st) && NearWires(l, regular, ws) && ws != []
    ensures StateOk(Exact, t.st) && NearWires(t, regular, ws[1..])
    ensures InputSegments(Exact, l, regular, ws) == InputSegments(Exact, t, regular, ws[1..])
    ensures InputSegments(Wrapping, RepLoop(l), regular, RepWires(ws))
         == InputSegments(Wrapping, RepLoop(t), regular, RepWires(ws[1..]))
  {
    t := InputSegment(Exact, l, regular, ws[0]);
    assert StateOk(Exact, t.st) by { InputSegmentKeeps(Exact, l, regular, ws[0]); }
    FirstSegment(Exact, l, regular, ws, t, ws[1..]);
    var rep := RepWires(ws);
    assert rep[1..] == RepWires(ws[1..]) && rep[0] == RepWire(ws[0]);
    assert InputSegment(Wrapping, RepLoop(l), regular, rep[0]) == RepLoop(t) by {
      InputSegmentCommutes(l, regular, ws[0]);
    }
    FirstSegment(Wrapping, RepLoop(l), regular, rep, RepLoop(t), rep[1..]);
  }

  lemma {:induction false} InputSegmentsCommute(l: Loop, regular: bool, ws: seq<Wire>)
    requires StateOk(Exact, l.st) && NearWires(l, regular, ws)
    ensures InputSegments(Wrapping, RepLoop(l), regular, RepWires(ws)) == RepLoop(InputSegments(Exact, l, regular, ws))
    decreases |ws|
  {
    if ws == [] {
      assert RepWires(ws) == [];
    } else {
      var t := FirstCommutes(l, regular, ws);
      InputSegmentsCommute(t, regular, ws[1..]);
    }
  }

  lemma FlushAcksCommutes(st: State)
    requires NearAcks(st)
    ensures FlushAcks(Wrapping, RepState(st)) == RepAckScan(FlushAcks(Exact, st))
  {
    AcksCommute(st.acks, st.rcv.nxt, st.cfg.mtu, AckHeader(st), |st.acks|);
    assert AckHeader(RepState(st)) == RepWire(AckHeader(st));
  }

  lemma ControlsCommute(st: State, p: Probe)
    requires NearAcks(st)
    ensures Controls(Wrapping, RepState(st), p) == RepPacker(Controls(Exact, st, p))
  {
    FlushAcksCommutes(st);
    var s := FlushAcks(Exact, st);
    var ask, tell := s.head.(cmd := CMD_WASK), s.head.(cmd := CMD_WINS);
    PutCommutes(s.packer, ask, st.cfg.mtu);
    PutCommutes(if p.ask then Put(s.packer, ask, st.cfg.mtu) else s.packer, tell, st.cfg.mtu);
  }

  lemma FullScanCommutes(st: State, clock: nat -> u32)
    requires NearAcks(st)
    ensures NumberedSnd(Wrapping, RepState(st)) == RepSnd(NumberedSnd(Exact, st))
    ensures FullScan(Wrapping, RepState(st), clock) == RepScan(FullScan(Exact, st, clock))
  {
    var p := ProbeWait(st.probe, st.rmt_wnd, clock(0));
    ControlsCommute(st, p);
    NumberCommutes(st.snd, st.cfg.conv, st.cfg.session, Window(st));
    var buf := NumberedSnd(Exact, st).buf;
    var s0 := Scan([], Controls(Exact, st, p), clock(1), false, false, Signed32(st.cfg.interval), false);
    assert RepScan(s0) == s0.(packer := RepPacker(s0.packer));
    ScanCommutes(ScanRules(st), s0, buf, clock, |buf|);
  }

  /** The number of segments in flight is the same in both. */
  lemma CongCommutes(st: State, s: Snd, scan: Scan)
    ensures CongAfter(RepState(st), RepSnd(s), RepScan(scan)) == CongAfter(st, s, scan)
  {
    SameResidue(s.nxt, s.una);
    assert Window(RepState(st)) == Window(st);
  }

  lemma FullFlushCommutes(st: State, clock: nat -> u32)
    requires NearAcks(st)
    ensures FullFlush(Wrapping, RepState(st), clock) == RepOutcome(FullFlush(Exact, st, clock))
  {
    FullScanCommutes(st, clock);
    CloseCommutes(FullScan(Exact, st, clock).packer);
    CongCommutes(st, NumberedSnd(Exact, st), FullScan(Exact, st, clock));
    assert RepAcks([]) == [];
  }

  lemma FlushCommutes(st: State, ackOnly: bool, clock: nat -> u32)
    requires NearAcks(st)
    ensures Flush(Wrapping, RepState(st), ackOnly, clock) == RepOutcome(Flush(Exact, st, ackOnly, clock))
  {
    if ackOnly {
      FlushAcksCommutes(st);
      CloseCommutes(FlushAcks(Exact, st).packer);
      assert RepAcks([]) == [];
    } else {
      FullFlushCommutes(st, clock);
    }
  }

  lemma AfterLoopCommutes(una: int, l: Loop, regular: bool, now: u32)
    requires l.st.cfg.mss > 0 && 0 <= l.st.snd.una - una < 0x1_0000
    ensures AfterLoop(Wrapping, una % M32, RepLoop(l), regular, now) == RepState(AfterLoop(Exact, una, l, regular, now))
  {
    DiffNear(l.st.snd.una, una);
  }

  /** The acknowledgements pending when the loop over a datagram ends. */
  predicate NearFinish(l: Loop) { NearAcks(l.st) }

  lemma FinishCommutes(una: int, l: Loop, regular: bool, ackNoDelay: bool, now: u32, clock: nat -> u32)
    requires StateOk(Exact, l.st) && NearFinish(l) && 0 <= l.st.snd.una - una < 0x1_0000
    ensures Finish(Wrapping, una % M32, RepLoop(l), regular, ackNoDelay, now, clock)
         == RepOutcome(Finish(Exact, una, l, regular, ackNoDelay, now, clock))
  {
    AfterLoopCommutes(una, l, regular, now);
    AfterLoopKeeps(Exact, una, l, regular, now);
    var st := AfterLoop(Exact, una, l, regular, now);
    if l.slid {
      FlushCommutes(st, false, clock);
    } else if ackNoDelay && |st.acks| > 0 {
      FlushCommutes(st, true, clock);
    } else {
      assert RepNet([]) == [];
    }
  }

  /** The loop over a datagram moves una forward, by no more than what was in flight. */
  lemma SegmentMovesUna(l: Loop, regular: bool, w: Wire)
    requires StateOk(Exact, l.st)
    ensures var t := InputSegment(Exact, l, regular, w).st.snd; t.nxt == l.st.snd.nxt && l.st.snd.una <= t.una
  {
    AckFrontKeeps(Exact, l.st.snd, w.una, l.st.cfg.snd_wnd, l.st.cfg.mss);
  }

  lemma {:induction false} LoopMovesUna(l: Loop, regular: bool, ws: seq<Wire>)
    requires StateOk(Exact, l.st)
    ensures var t := InputSegments(Exact, l, regular, ws);
            StateOk(Exact, t.st) && t.st.snd.nxt == l.st.snd.nxt && l.st.snd.una <= t.st.snd.una
    decreases |ws|
  {
    if ws != [] {
      var t := InputSegment(Exact, l, regular, ws[0]);
      assert StateOk(Exact, t.st) by { InputSegmentKeeps(Exact, l, regular, ws[0]); }
      SegmentMovesUna(l, regular, ws[0]);
      LoopMovesUna(t, regular, ws[1..]);
    }
  }

  /** A datagram whose numbers are near. */
  predicate NearDatagram(st: State, ws: seq<Wire>, regular: bool) {
    var l := Loop(st, false, false, 0);
    NearWires(l, regular, ws) && NearFinish(InputSegments(Exact, l, regular, ws))
  }

  lemma InputDatagramCommutes(
      st: State, ws: seq<Wire>, regular: bool, ackNoDelay: bool, now: u32, clock: nat -> u32)
    requires StateOk(Exact, st) && NearDatagram(st, ws, regular)
    ensures InputDatagram(Wrapping, RepState(st), RepWires(ws), regular, ackNoDelay, now, clock)
         == RepOutcome(InputDatagram(Exact, st, ws, regular, ackNoDelay, now, clock))
  {
    if ws == [] {
      assert RepNet([]) == [];
    } else {
      var l := Loop(st, false, false, 0);
      InputSegmentsCommute(l, regular, ws);
      LoopMovesUna(l, regular, ws);
      FinishCommutes(st.snd.una, InputSegments(Exact, l, regular, ws), regular, ackNoDelay, now, clock);
    }
  }

  lemma UpdateCommutes(st: State, now: u32, clock: nat -> u32)
    requires StateOk(Exact, st) && NearAcks(st)
    ensures Update(Wrapping, RepState(st), now, clock) == RepOutcome(Update(Exact, st, now, clock))
  {
    FlushCommutes(st.(timer := Tick(st.timer, st.cfg.interval, now).0), false, clock);
    assert RepNet([]) == [];
  }

  // ---------- exactly when a late number does no harm ----------

  /** Nothing is ready behind a receiver in order, and what is not inserted changes nothing. */
  lemma NothingReady(r: Rcv, wnd: nat)
    requires RcvOk(Exact, r, wnd)
    ensures Advance(Wrapping, RepRcv(r), wnd) == RepRcv(r)
  {
    AdvanceCommutes(r, wnd);
    assert Ready(Exact, r, wnd) == 0;
    assert r.queue + r.buf[..0] == r.queue && r.buf[0..] == r.buf;
  }

  lemma IsInWindow(m: Arith, r: Rcv, wnd: nat, sn: int)
    requires wnd < 0x1_0000
    ensures InWindow(m, r, wnd, sn) <==> 0 <= Off(m, sn, r.nxt) < wnd
  {
    WindowTest(m, sn, r.nxt, wnd);
  }

  lemma WrappedWindow(r: Rcv, wnd: nat, sn: int)
    requires wnd < 0x1_0000
    ensures InWindow(Wrapping, RepRcv(r), wnd, sn % M32) <==> (sn - r.nxt) % M32 < wnd
    ensures InWindow(Exact, r, wnd, sn) <==> 0 <= sn - r.nxt < wnd
  {
    IsInWindow(Wrapping, RepRcv(r), wnd, sn % M32);
    SameResidue(sn, r.nxt);
    assert Off(Wrapping, sn % M32, RepRcv(r).nxt) == (sn - r.nxt) % M32;
    IsInWindow(Exact, r, wnd, sn);
  }

  /** A segment that is inserted leaves one segment more. */
  lemma InsertedIsMore(r: Rcv, wnd: nat, seg: Segment)
    requires RcvOk(Exact, r, wnd) && !Repeated(Wrapping, RepRcv(r), seg.sn)
    ensures Advance(Wrapping, Insert(Wrapping, RepRcv(r), seg), wnd) != RepRcv(r)
  {
    var t := Insert(Wrapping, RepRcv(r), seg);
    var u := Advance(Wrapping, t, wnd);
    assert |u.queue| + |u.buf| == |t.queue| + |t.buf| == |r.queue| + |r.buf| + 1;
  }

  /** The numbers for which the receiving half does what the unbounded one does: those of the window,
      those whose uint32 value lies outside it, and those whose uint32 value is buffered already. */
  predicate Harmless(r: Rcv, wnd: nat, sn: int) {
    0 <= sn - r.nxt < wnd || (sn - r.nxt) % M32 >= wnd || Repeated(Wrapping, RepRcv(r), sn % M32)
  }

  /** For every number whatever, near or not. */
  lemma ParseDataCommutesIff(r: Rcv, wnd: nat, seg: Segment)
    requires RcvOk(Exact, r, wnd) && seg.body.Buf?
    ensures ParseData(Wrapping, RepRcv(r), wnd, RepSegment(seg)) == RepRcv(ParseData(Exact, r, wnd, seg))
       <==> Harmless(r, wnd, seg.sn)
  {
    WrappedWindow(r, wnd, seg.sn);
    if 0 <= seg.sn - r.nxt < wnd {
      ParseDataCommutes(r, wnd, seg);
    } else if (seg.sn - r.nxt) % M32 < wnd {
      if Repeated(Wrapping, RepRcv(r), seg.sn % M32) {
        NothingReady(r, wnd);
      } else {
        InsertedIsMore(r, wnd, RepSegment(seg));
      }
    }
  }

  /** A data segment as a whole: besides that, both must acknowledge it or neither. */
  lemma OnPushCommutesIff(st: State, w: Wire)
    requires StateOk(Exact, st)
    ensures var limit := st.rcv.nxt + st.cfg.rcv_wnd;
            (OnPush(Wrapping, RepState(st), RepWire(w)) == RepState(OnPush(Exact, st, w))
             <==> Harmless(st.rcv, st.cfg.rcv_wnd, w.sn) && (w.sn < limit <==> (w.sn - limit) % M32 >= H32))
  {
    var wnd := st.cfg.rcv_wnd;
    var limit := st.rcv.nxt + wnd;
    var seg := Accepted(w, GetId(st.pool));
    AcknowledgedIff(st, w);
    if w.sn < limit <==> (w.sn - limit) % M32 >= H32 {
      PushedIff(st, w);
    } else {
      assert |OnPush(Wrapping, RepState(st), RepWire(w)).acks| != |RepState(OnPush(Exact, st, w)).acks|;
    }
  }

  lemma AcknowledgedIff(st: State, w: Wire)
    requires StateOk(Exact, st)
    ensures var limit := st.rcv.nxt + st.cfg.rcv_wnd;
            && |OnPush(Wrapping, RepState(st), RepWire(w)).acks|
               == |st.acks| + (if (w.sn - limit) % M32 >= H32 then 1 else 0)
            && |OnPush(Exact, st, w).acks| == |st.acks| + (if w.sn < limit then 1 else 0)
  {
    LimitDiff(w.sn, st.rcv.nxt, st.cfg.rcv_wnd);
  }

  lemma LimitDiff(sn: int, nxt: int, wnd: nat)
    ensures Diff(Wrapping, sn % M32, Add(Wrapping, nxt % M32, wnd)) < 0 <==> (sn - (nxt + wnd)) % M32 >= H32
  {
    AddRep(nxt, wnd);
    SameResidue(sn, nxt + wnd);
  }

  /** When both acknowledge it or neither, they agree if they agree on storing it. */
  lemma PushedIff(st: State, w: Wire)
    requires StateOk(Exact, st)
    requires var limit := st.rcv.nxt + st.cfg.rcv_wnd; w.sn < limit <==> (w.sn - limit) % M32 >= H32
    ensures OnPush(Wrapping, RepState(st), RepWire(w)) == RepState(OnPush(Exact, st, w))
       <==> Harmless(st.rcv, st.cfg.rcv_wnd, w.sn)
  {
    var wnd := st.cfg.rcv_wnd;
    var seg := Accepted(w, GetId(st.pool));
    assert Accepted(RepWire(w), GetId(st.pool)) == RepSegment(seg);
    LimitDiff(w.sn, st.rcv.nxt, wnd);
    WrappedWindow(st.rcv, wnd, w.sn);
    ParseDataCommutesIff(st.rcv, wnd, seg);
    if 0 <= w.sn - st.rcv.nxt < wnd { PlaceCommutes(st.rcv, wnd, w.sn); }
    assert RepAcks(st.acks + [Ack(w.sn, w.ts)]) == RepAcks(st.acks) + [Ack(w.sn % M32, w.ts)];
  }

  /** How many segments a cumulative acknowledgement takes: for one that is not news, half the number
      space is the limit. */
  lemma UnaCountCommutesIff(s: Snd, una: int, lim: nat, mss: nat)
    requires SndOk(Exact, s, lim, mss) && |s.buf| > 0
    ensures UnaCount(Wrapping, RepSnd(s), una % M32) == UnaCount(Exact, s, una)
       <==> if una <= s.una then (s.una - una) % M32 <= H32
            else (una - s.una) % M32 < H32 && Min((una - s.una) % M32, |s.buf|) == Min(una - s.una, |s.buf|)
  {
    SameResidue(una, s.una);
    Opposite(una, s.una);
  }

  lemma Opposite(a: int, b: int)
    ensures (a - b) % M32 == if (b - a) % M32 == 0 then 0 else M32 - (b - a) % M32
  {}

  /** A selective acknowledgement that is not near marks the wrong segment exactly if its uint32 value
      names one in flight that is not marked yet. */
  lemma ParseAckCommutesIff(s: Snd, sn: int, lim: nat, mss: nat)
    requires SndOk(Exact, s, lim, mss)
    ensures var k := (sn - s.una) % M32;
            (ParseAck(Wrapping, RepSnd(s), sn % M32) == RepSnd(ParseAck(Exact, s, sn))
             <==> 0 <= sn - s.una < |s.buf| || k >= |s.buf| || s.buf[k].acked)
  {
    var k := (sn - s.una) % M32;
    SameResidue(sn, s.una);
    if 0 <= sn - s.una < |s.buf| {
      ParseAckCommutes(s, sn, lim, mss);
    } else if k < |s.buf| {
      var rep := RepSegments(s.buf);
      assert InFlight(s.buf[k], mss);
      assert s.buf[k].acked ==> rep[k := MarkAcked(rep[k])] == rep;
      assert !s.buf[k].acked ==> rep[k := MarkAcked(rep[k])][k] != rep[k];
    }
  }

  // ---------- and inputs where it does ----------

  /** A data segment exactly 2^32 numbers late is taken for a new one and delivered. */
  lemma StaleSegmentIsAccepted(data: seq<byte>)
    ensures var r := Rcv(M32, [], []); var seg := Piece(0, 0, data);
            && ParseData(Exact, r, 255, seg) == r
            && ParseData(Wrapping, RepRcv(r), 255, RepSegment(seg)).queue == [seg]
  {
    var r := Rcv(M32, [], []);
    var seg := Piece(0, 0, data);
    var t := RepRcv(r);
    assert !Repeated(Wrapping, t, 0);
    assert Insert(Wrapping, t, seg).buf == [seg];
    assert ReadyFrom(Wrapping, [seg], 0, 255, 0) == 1;
  }

  /** One that is 2^31 numbers late is not: it lies outside the window in both arithmetics. */
  lemma HalfwayLateIsIgnored(data: seq<byte>)
    ensures var r := Rcv(H32, [], []); var seg := Piece(0, 0, data);
            ParseData(Exact, r, 255, seg) == r && ParseData(Wrapping, RepRcv(r), 255, RepSegment(seg)) == RepRcv(r)
  {
    var r := Rcv(H32, [], []);
    var seg := Piece(0, 0, data);
    assert (seg.sn - r.nxt) % M32 == H32;
    WrappedWindow(r, 255, seg.sn);
  }

  /** But a cumulative acknowledgement 2^31 + 1 numbers late empties the in-flight buffer. */
  lemma StaleUnaDropsAll(s: Snd, lim: nat, mss: nat)
    requires SndOk(Exact, s, lim, mss)
    ensures var una := s.una - H32 - 1;
            && ParseUna(Exact, s, una) == s
            && ParseUna(Wrapping, RepSnd(s), una % M32).buf == []
  {
    var una := s.una - H32 - 1;
    SameResidue(una, s.una);
    assert (una - s.una) % M32 == H32 - 1;
    assert UnaCount(Wrapping, RepSnd(s), una % M32) == |s.buf|;
  }
}
