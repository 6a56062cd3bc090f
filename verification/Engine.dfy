/** The control block as a value, and its operations as functions of that value: Send, Input, Recv,
    flush, Update and Check. */
module Engine {
  import opened Words
  import opened Segments
  import opened Sender
  import opened Receiver
  import opened Timing
  import opened Flushing
  import opened BufferPool

  datatype Timer = Timer(updated: bool, ts_flush: u32)

  datatype State = State(
    cfg: Config, snd: Snd, rcv: Rcv, acks: seq<Ack>, rmt_wnd: u32, rtt: Rtt, cong: Cong,
    probe: Probe, timer: Timer, dead: bool, pool: Pool)

  /** What is in flight carries the identity of its session. */
  ghost predicate Tagged(buf: seq<Segment>, conv: u32, session: u32) {
    forall k :: 0 <= k < |buf| ==> buf[k].conv == conv && buf[k].session == session
  }

  /** What every operation keeps, whatever bytes come in. */
  ghost predicate StateOk(m: Arith, st: State) {
    && st.cfg.Ok()
    && SndOk(m, st.snd, st.cfg.snd_wnd, st.cfg.mss)
    && Tagged(st.snd.buf, st.cfg.conv, st.cfg.session)
    && RcvOk(m, st.rcv, st.cfg.rcv_wnd)
    && st.rmt_wnd < 0x1_0000
    && st.cfg.minrto <= st.rtt.rto <= RTO_MAX
    && (forall k :: 0 <= k < |st.acks| ==> Represented(m, st.acks[k].sn))
  }

  /** A control block after construction and configuration. */
  function Fresh(cfg: Config, pick: nat -> nat): State {
    State(cfg, Snd(0, 0, [], []), Rcv(0, [], []), [], 32, Rtt(0, 0, 200), Cong(0, 0, THRESH_MIN),
          Probe(false, false, 0, 0), Timer(false, 100), false, Pool(pick, multiset{}, 0, 0))
  }

  // ---------- Send ----------

  function FragmentCount(len: nat, mss: nat): (n: nat)
    requires mss > 0
  { if len <= mss then 1 else (len + mss - 1) / mss }

  function Piece(frg: u8, id: nat, data: seq<byte>): Segment {
    Segment(0, 0, 0, frg, 0, 0, 0, 0, Buf(id, data), 0, 0, 0, 0, false)
  }

  /** Cutting a message into count pieces numbered downwards, each in a buffer from the pool. */
  function Pieces(p: Pool, msg: seq<byte>, mss: nat, count: nat): (seq<Segment>, Pool)
    requires count <= 0x100
    decreases count
  {
    if count == 0 then ([], p)
    else
      var size := Min(|msg|, mss);
      var (rest, q) := Pieces(Get(p), msg[size..], mss, count - 1);
      ([Piece(count - 1, GetId(p), msg[..size])] + rest, q)
  }

  /** Queueing the first piece, then the others. */
  lemma FirstPiece(before: seq<Segment>, p: Pool, msg: seq<byte>, mss: nat, count: nat)
    requires 0 < count <= 0x100
    ensures var size := Min(|msg|, mss); var rest := Pieces(Get(p), msg[size..], mss, count - 1);
            && before + Pieces(p, msg, mss, count).0 == before + [Piece(count - 1, GetId(p), msg[..size])] + rest.0
            && Pieces(p, msg, mss, count).1 == rest.1
  {}

  function Send(st: State, msg: seq<byte>): (State, int)
    requires st.cfg.mss > 0
  {
    if |msg| == 0 then (st, -1)
    else
      var count := FragmentCount(|msg|, st.cfg.mss);
      if count > 255 then (st, -2)
      else
        var (q, p) := Pieces(st.pool, msg, st.cfg.mss, count);
        (st.(snd := st.snd.(queue := st.snd.queue + q), pool := p), 0)
  }

  // ---------- Recv ----------

  /** What a read leaves of the control block. */
  function AfterRead(st: State, r: Read): State {
    if r.code < 0 then st
    else st.(rcv := r.rcv, probe := if r.tell then st.probe.(tell := true) else st.probe,
             pool := Release(st.pool, st.rcv.queue[..Front(st.rcv.queue)]))
  }

  /** A read into a buffer of the given size: the new state, the code, and the bytes. */
  function Receive(m: Arith, st: State, room: nat): (State, int, seq<byte>) {
    var r := Recv(m, st.rcv, st.cfg.rcv_wnd, room);
    (AfterRead(st, r), r.code, r.data)
  }

  // ---------- Input ----------

  /** The loop over a datagram: slid when an acknowledgement took segments off the front, acked when
      an ACK came, with the time stamp of the latest. */
  datatype Loop = Loop(st: State, slid: bool, acked: bool, latest: u32)

  function Accepted(w: Wire, id: nat): Segment {
    Segment(w.conv, w.session, w.cmd, w.frg, w.wnd, w.ts, w.sn, w.una, Buf(id, w.data), 0, 0, 0, 0, false)
  }

  /** The cumulative acknowledgement every segment carries. */
  function OnUna(m: Arith, st: State, una: int): State {
    st.(snd := ShrinkBuf(ParseUna(m, st.snd, una)),
        pool := Release(st.pool, st.snd.buf[..UnaCount(m, st.snd, una)]))
  }

  /** The segment a selective acknowledgement names, if it is in flight. */
  function Named(m: Arith, s: Snd, sn: int): seq<Segment> {
    var k := Off(m, sn, s.una);
    if 0 <= k < |s.buf| then [s.buf[k]] else []
  }

  function OnAckSegment(m: Arith, st: State, sn: int, ts: u32): State {
    st.(snd := ParseFastack(m, ParseAck(m, st.snd, sn), sn, ts),
        pool := Release(st.pool, Named(m, st.snd, sn)))
  }

  /** Data inside the window: kept in a buffer from the pool, if it is new. */
  function Store(m: Arith, st: State, w: Wire): State {
    st.(rcv := ParseData(m, st.rcv, st.cfg.rcv_wnd, Accepted(w, GetId(st.pool))),
        pool := if Repeated(m, st.rcv, w.sn) then st.pool else Get(st.pool))
  }

  function OnPush(m: Arith, st: State, w: Wire): State {
    if Diff(m, w.sn, Add(m, st.rcv.nxt, st.cfg.rcv_wnd)) >= 0 then st
    else
      var acked := st.(acks := st.acks + [Ack(w.sn, w.ts)]);
      if Diff(m, w.sn, st.rcv.nxt) < 0 then acked else Store(m, acked, w)
  }

  /** What every segment does first: its window is taken if the datagram is regular, and its una
      acknowledges. */
  function AfterUna(m: Arith, st: State, regular: bool, w: Wire): State {
    OnUna(m, if regular then st.(rmt_wnd := w.wnd) else st, w.una)
  }

  /** What its command does. */
  function OnCommand(m: Arith, st: State, w: Wire): State {
    if w.cmd == CMD_ACK then OnAckSegment(m, st, w.sn, w.ts)
    else if w.cmd == CMD_PUSH then OnPush(m, st, w)
    else if w.cmd == CMD_WASK then st.(probe := st.probe.(tell := true))
    else st
  }

  function InputSegment(m: Arith, l: Loop, regular: bool, w: Wire): (r: Loop)
    ensures r.st.cfg == l.st.cfg
  {
    Loop(OnCommand(m, AfterUna(m, l.st, regular, w), w),
         l.slid || UnaCount(m, l.st.snd, w.una) > 0,
         l.acked || w.cmd == CMD_ACK,
         if w.cmd == CMD_ACK then w.ts else l.latest)
  }

  function InputSegments(m: Arith, l: Loop, regular: bool, ws: seq<Wire>): (r: Loop)
    ensures r.st.cfg == l.st.cfg
    decreases |ws|
  {
    if ws == [] then l else InputSegments(m, InputSegment(m, l, regular, ws[0]), regular, ws[1..])
  }

  /** The loop over raw bytes, with the code it stops with. */
  function InputBytes(l: Loop, regular: bool, b: seq<byte>): (r: (Loop, int))
    ensures r.0.st.cfg == l.st.cfg
    decreases |b|
  {
    if |b| < OVERHEAD then (l, 0)
    else if At32(b, 0) != l.st.cfg.conv then (l, -1)
    else if At32(b, 4) != l.st.cfg.session then (l, -4)
    else if |b| < OVERHEAD + HeadLength(b) then (l, -2)
    else if !KnownCommand(b[8]) then (l, -3)
    else InputBytes(InputSegment(Wrapping, l, regular, DecodeFront(b)), regular, b[OVERHEAD + HeadLength(b)..])
  }

  /** The loop stops, or goes on after the first segment. */
  lemma FirstOfBytes(l: Loop, regular: bool, b: seq<byte>) returns (more: bool, t: Loop, rest: seq<byte>)
    ensures !more ==> InputBytes(l, regular, b).0 == l
    ensures more ==>
              && |b| >= OVERHEAD && |b| >= OVERHEAD + HeadLength(b) && |rest| < |b|
              && t == InputSegment(Wrapping, l, regular, DecodeFront(b))
              && InputBytes(l, regular, b) == InputBytes(t, regular, rest)
  {
    more := |b| >= OVERHEAD && At32(b, 0) == l.st.cfg.conv && At32(b, 4) == l.st.cfg.session
            && |b| >= OVERHEAD + HeadLength(b) && KnownCommand(b[8]);
    t, rest := l, b;
    if more { t, rest := InputSegment(Wrapping, l, regular, DecodeFront(b)), b[OVERHEAD + HeadLength(b)..]; }
  }

  /** New data inside the window is copied into a packet buffer, so it has to fit one. */
  predicate Storable(m: Arith, r: Rcv, wnd: nat, w: Wire) {
    w.cmd == CMD_PUSH && InWindow(m, r, wnd, w.sn) && !Repeated(m, r, w.sn) ==> |w.data| <= MAX_MTU
  }

  /** Each segment the loop over raw bytes gets to. */
  predicate StorableBytes(l: Loop, regular: bool, b: seq<byte>)
    decreases |b|
  {
    || |b| < OVERHEAD || At32(b, 0) != l.st.cfg.conv || At32(b, 4) != l.st.cfg.session
    || |b| < OVERHEAD + HeadLength(b) || !KnownCommand(b[8])
    || (&& Storable(Wrapping, l.st.rcv, l.st.cfg.rcv_wnd, DecodeFront(b))
        && StorableBytes(InputSegment(Wrapping, l, regular, DecodeFront(b)), regular, b[OVERHEAD + HeadLength(b)..]))
  }

  /** A datagram no longer than a packet buffer and a header is always storable. */
  lemma {:induction false} ShortIsStorable(l: Loop, regular: bool, b: seq<byte>)
    requires |b| <= MAX_MTU + OVERHEAD
    ensures StorableBytes(l, regular, b)
    decreases |b|
  {
    if |b| >= OVERHEAD && |b| >= OVERHEAD + HeadLength(b) {
      ShortIsStorable(InputSegment(Wrapping, l, regular, DecodeFront(b)), regular, b[OVERHEAD + HeadLength(b)..]);
    }
  }

  /** The result of an operation that may send: the new state, the datagrams handed to output in
      order, and the value returned. */
  datatype Outcome = Outcome(st: State, out: seq<seq<Wire>>, ret: int)

  /** After the loop: the round-trip sample, the congestion window, and the flush a slid window or
      an immediate acknowledgement calls for. */
  function AfterLoop(m: Arith, una: int, l: Loop, regular: bool, now: u32): State
    requires l.st.cfg.mss > 0
  {
    var st := l.st;
    var rtt := if l.acked && regular && ITimeDiff(now, l.latest) >= 0
               then UpdateAck(st.rtt, ITimeDiff(now, l.latest), st.cfg.interval, st.cfg.minrto) else st.rtt;
    var cong := if st.cfg.nocwnd == 0 && Diff(m, st.snd.una, una) > 0
                then OnAck(st.cong, st.cfg.mss, st.rmt_wnd) else st.cong;
    st.(rtt := rtt, cong := cong)
  }

  function Finish(m: Arith, una: int, l: Loop, regular: bool, ackNoDelay: bool, now: u32, clock: nat -> u32): Outcome
    requires l.st.cfg.mss > 0
  {
    var st := AfterLoop(m, una, l, regular, now);
    if l.slid then Flush(m, st, false, clock).(ret := 0)
    else if ackNoDelay && |st.acks| > 0 then Flush(m, st, true, clock).(ret := 0)
    else Outcome(st, [], 0)
  }

  /** A datagram of whole segments. */
  function InputDatagram(
      m: Arith, st: State, ws: seq<Wire>, regular: bool, ackNoDelay: bool, now: u32, clock: nat -> u32): Outcome
    requires st.cfg.mss > 0
  {
    if ws == [] then Outcome(st, [], -1)
    else
      Finish(m, st.snd.una, InputSegments(m, Loop(st, false, false, 0), regular, ws), regular, ackNoDelay, now, clock)
  }

  /** Raw bytes: an error leaves what the segments before it did, and sends nothing. */
  function Input(st: State, b: seq<byte>, regular: bool, ackNoDelay: bool, now: u32, clock: nat -> u32): Outcome
    requires st.cfg.mss > 0
  {
    if |b| < OVERHEAD then Outcome(st, [], -1)
    else
      var (l, code) := InputBytes(Loop(st, false, false, 0), regular, b);
      if code < 0 then Outcome(l.st, [], code)
      else Finish(Wrapping, st.snd.una, l, regular, ackNoDelay, now, clock)
  }

  // ---------- flush ----------

  /** The receive window announced: a 16-bit number. */
  function WndUnused(r: Rcv, wnd: u32): u16 {
    if |r.queue| < wnd then (wnd - |r.queue|) % 0x1_0000 else 0
  }

  /** The header all control segments of a flush start from. */
  function AckHeader(st: State): Wire {
    Wire(st.cfg.conv, st.cfg.session, CMD_ACK, 0, WndUnused(st.rcv, st.cfg.rcv_wnd), 0, 0, st.rcv.nxt, [])
  }

  function FlushAcks(m: Arith, st: State): AckScan {
    AcksUpTo(m, st.acks, st.rcv.nxt, st.cfg.mtu, AckHeader(st), |st.acks|)
  }

  /** The window probes due, made from the given header. */
  function WithProbes(p: Packer, head: Wire, probe: Probe, mtu: nat): Packer {
    var asked := if probe.ask then Put(p, head.(cmd := CMD_WASK), mtu) else p;
    if probe.tell then Put(asked, head.(cmd := CMD_WINS), mtu) else asked
  }

  /** The acknowledgements, and after them the window probes. */
  function Controls(m: Arith, st: State, probe: Probe): Packer {
    var s := FlushAcks(m, st);
    WithProbes(s.packer, s.head, probe, st.cfg.mtu)
  }

  /** p is what the control segments of a flush at time now leave in the buffer. */
  ghost predicate IsControls(m: Arith, st: State, now: u32, p: Packer) {
    forall probe: Probe :: probe == ProbeWait(st.probe, st.rmt_wnd, now) ==> p == Controls(m, st, probe)
  }

  /** The window new segments are numbered in. */
  function Window(st: State): u32 {
    var w := Min(st.cfg.snd_wnd, st.rmt_wnd);
    if st.cfg.nocwnd == 0 then Min(st.cong.cwnd, w) else w
  }

  function ScanRules(st: State): Rules {
    Rules(st.rtt.rto, st.cfg.Resent(), NumberCount(st.snd, Window(st)), st.cfg.nodelay,
          WndUnused(st.rcv, st.cfg.rcv_wnd), st.rcv.nxt, st.cfg.mtu, st.cfg.dead_link)
  }

  function NumberedSnd(m: Arith, st: State): Snd {
    Number(m, st.snd, st.cfg.conv, st.cfg.session, Window(st))
  }

  /** A scan starts from what the control segments left in the buffer. */
  function ScanStart(p: Packer, now: u32, interval: u32): Scan {
    Scan([], p, now, false, false, Signed32(interval), false)
  }

  /** The scan of a full flush. */
  function FullScan(m: Arith, st: State, clock: nat -> u32): Scan {
    var p := Controls(m, st, ProbeWait(st.probe, st.rmt_wnd, clock(0)));
    var buf := NumberedSnd(m, st).buf;
    ScanUpTo(ScanRules(st), ScanStart(p, clock(1), st.cfg.interval), buf, clock, |buf|)
  }

  /** The congestion window after a full flush. */
  function CongAfter(st: State, s: Snd, scan: Scan): Cong {
    if st.cfg.nocwnd == 0
    then OnFlush(st.cong, st.cfg.mss, Wrap32(s.nxt - s.una), Window(st), st.cfg.Resent(), scan.change, scan.lost)
    else st.cong
  }

  ghost predicate IsCongAfter(st: State, s: Snd, scan: Scan, c: Cong) {
    forall t: Snd :: t == s ==> c == CongAfter(st, t, scan)
  }

  function AckFlush(m: Arith, st: State): Outcome {
    Outcome(st.(acks := []), Close(FlushAcks(m, st).packer), st.cfg.interval)
  }

  /** What a full flush leaves, given its scan. */
  function Flushed(m: Arith, st: State, now: u32, scan: Scan): Outcome {
    var s := NumberedSnd(m, st);
    Outcome(st.(acks := [], snd := s.(buf := scan.done), cong := CongAfter(st, s, scan), dead := st.dead || scan.dead,
                probe := ProbeWait(st.probe, st.rmt_wnd, now).(ask := false, tell := false)),
            Close(scan.packer), scan.wait)
  }

  ghost predicate IsFlushed(m: Arith, st: State, now: u32, scan: Scan, t: State) {
    forall x: u32 :: x == now ==> t == Flushed(m, st, x, scan).st
  }

  function FullFlush(m: Arith, st: State, clock: nat -> u32): Outcome {
    Flushed(m, st, clock(0), FullScan(m, st, clock))
  }

  function Flush(m: Arith, st: State, ackOnly: bool, clock: nat -> u32): Outcome {
    if ackOnly then AckFlush(m, st) else FullFlush(m, st, clock)
  }

  // ---------- Update and Check ----------

  /** The timer after a call at now, and whether a flush is due. */
  function Tick(t: Timer, interval: u32, now: u32): (Timer, bool) {
    var t0 := if t.updated then t.ts_flush else now;
    var slap0 := ITimeDiff(now, t0);
    var t1 := if slap0 >= 10000 || slap0 < -10000 then now else t0;
    if ITimeDiff(now, t1) < 0 then (Timer(true, t1), false)
    else
      var t2 := Wrap32(t1 + interval);
      (Timer(true, if ITimeDiff(now, t2) >= 0 then Wrap32(now + interval) else t2), true)
  }

  function Update(m: Arith, st: State, now: u32, clock: nat -> u32): Outcome {
    var (t, due) := Tick(st.timer, st.cfg.interval, now);
    var st' := st.(timer := t);
    if due then Flush(m, st', false, clock).(ret := 0) else Outcome(st', [], 0)
  }

  /** The time from now to the nearest deadline among the first n segments in flight, acknowledged
      or not; at most 0 if one is due. */
  function Nearest(buf: seq<Segment>, now: u32, n: nat): i32
    requires n <= |buf|
  {
    if n == 0 then 0x7fff_ffff else Min(Nearest(buf, now, n - 1), ITimeDiff(buf[n-1].resendts, now))
  }

  lemma {:induction false} NearestBound(buf: seq<Segment>, now: u32, k: nat, n: nat)
    requires k < n <= |buf|
    ensures Nearest(buf, now, n) <= ITimeDiff(buf[k].resendts, now)
    decreases n
  {
    if k < n - 1 { NearestBound(buf, now, k, n - 1); }
  }

  /** When Update should be called next. */
  function Check(st: State, now: u32): u32 {
    if !st.timer.updated then now
    else
      var d := ITimeDiff(now, st.timer.ts_flush);
      var ts_flush := if d >= 10000 || d < -10000 then now else st.timer.ts_flush;
      if ITimeDiff(now, ts_flush) >= 0 then now
      else
        var tm_packet := Nearest(st.snd.buf, now, |st.snd.buf|);
        if tm_packet <= 0 then now
        else Wrap32(now + Min(Wrap32(Min(tm_packet, ITimeDiff(ts_flush, now))), st.cfg.interval))
  }
}
