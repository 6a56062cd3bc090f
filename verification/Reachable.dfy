/** One control block against the world: whatever is sent, read and updated, whenever, and whatever
    bytes arrive.  Each invariant holds in every state it can get into. */
module Reachable {
  import opened Words
  import opened Segments
  import opened Sender
  import opened Receiver
  import opened Timing
  import opened Engine
  import opened Invariants
  import opened Ownership
  import opened Deadlines

  datatype Event =
    | Sending(msg: seq<byte>)
    | Arrival(bytes: seq<byte>, regular: bool, ackNoDelay: bool, now: u32, clock: nat -> u32)
    | Updating(now: u32, clock: nat -> u32)
    | Reading(room: nat)

  function Apply(st: State, e: Event): (r: State)
    requires st.cfg.mss > 0
    ensures r.cfg == st.cfg
  {
    match e
    case Sending(msg) => Send(st, msg).0
    case Arrival(bytes, regular, ackNoDelay, now, clock) => Input(st, bytes, regular, ackNoDelay, now, clock).st
    case Updating(now, clock) => Update(Wrapping, st, now, clock).st
    case Reading(room) => Receive(Wrapping, st, room).0
  }

  function After(cfg: Config, pick: nat -> nat, events: seq<Event>): (r: State)
    requires cfg.mss > 0
    ensures r.cfg == cfg
  {
    if events == [] then Fresh(cfg, pick) else Apply(After(cfg, pick, events[..|events|-1]), events[|events|-1])
  }

  // ---------- the congestion window over whole operations ----------

  /** With the congestion window on, and a fast-resend threshold that is off or small. */
  predicate Controlled(c: Config) { c.nocwnd == 0 && c.fastresend <= 0x1_0000 }

  ghost predicate CongState(st: State) { Controlled(st.cfg) ==> CongOk(st.cong, st.cfg.mss) }

  lemma InFlightCount(m: Arith, st: State)
    requires StateOk(m, st)
    ensures var s := NumberedSnd(m, st); Wrap32(s.nxt - s.una) < 0x1_0000
  {
    NumberKeeps(m, st.snd, st.cfg.conv, st.cfg.session, Window(st), st.cfg.snd_wnd, st.cfg.mss);
    var s := NumberedSnd(m, st);
    OffAdd(m, s.una, |s.buf|);
  }

  /** A full flush keeps the congestion window consistent and leaves it at least one segment wide. */
  lemma FlushKeepsCong(m: Arith, st: State, clock: nat -> u32)
    requires StateOk(m, st) && Controlled(st.cfg) && CongOk(st.cong, st.cfg.mss)
    ensures var c := Flush(m, st, false, clock).st.cong; CongOk(c, st.cfg.mss) && c.cwnd >= 1
  {
    InFlightCount(m, st);
    var s := NumberedSnd(m, st);
    var scan := FullScan(m, st, clock);
    OnFlushKeeps(st.cong, st.cfg.mss, Wrap32(s.nxt - s.una), Window(st), st.cfg.Resent(), scan.change, scan.lost);
  }

  lemma AnyFlushKeepsCong(m: Arith, st: State, ackOnly: bool, clock: nat -> u32)
    requires StateOk(m, st) && CongState(st)
    ensures CongState(Flush(m, st, ackOnly, clock).st)
  {
    if !ackOnly && Controlled(st.cfg) { FlushKeepsCong(m, st, clock); }
  }

  lemma AfterLoopCong(m: Arith, una: int, l: Loop, regular: bool, now: u32)
    requires StateOk(m, l.st) && CongState(l.st)
    ensures CongState(AfterLoop(m, una, l, regular, now))
  {
    if Controlled(l.st.cfg) { OnAckKeeps(l.st.cong, l.st.cfg.mss, l.st.rmt_wnd); }
  }

  lemma InputSegmentCong(l: Loop, regular: bool, w: Wire)
    ensures var t := InputSegment(Wrapping, l, regular, w).st;
            t.cong == l.st.cong && t.rtt == l.st.rtt && t.probe.wait == l.st.probe.wait
  {}

  lemma {:induction false} InputBytesCong(l: Loop, regular: bool, b: seq<byte>)
    ensures var t := InputBytes(l, regular, b).0.st;
            t.cong == l.st.cong && t.rtt == l.st.rtt && t.probe.wait == l.st.probe.wait
    decreases |b|
  {
    if |b| >= OVERHEAD && |b| >= OVERHEAD + HeadLength(b) {
      var t := InputSegment(Wrapping, l, regular, DecodeFront(b));
      assert t.st.cong == l.st.cong && t.st.rtt == l.st.rtt && t.st.probe.wait == l.st.probe.wait by {
        InputSegmentCong(l, regular, DecodeFront(b));
      }
      InputBytesCong(t, regular, b[OVERHEAD + HeadLength(b)..]);
    }
  }

  lemma InputCong(st: State, b: seq<byte>, regular: bool, ackNoDelay: bool, now: u32, clock: nat -> u32)
    requires StateOk(Wrapping, st) && CongState(st)
    ensures CongState(Input(st, b, regular, ackNoDelay, now, clock).st)
  {
    var l0 := Loop(st, false, false, 0);
    InputBytesKeep(l0, regular, b);
    InputBytesCong(l0, regular, b);
    var l := InputBytes(l0, regular, b).0;
    AfterLoopKeeps(Wrapping, st.snd.una, l, regular, now);
    AfterLoopCong(Wrapping, st.snd.una, l, regular, now);
    FinishCong(Wrapping, st.snd.una, l, regular, ackNoDelay, now, clock);
  }

  lemma FinishCong(m: Arith, una: int, l: Loop, regular: bool, ackNoDelay: bool, now: u32, clock: nat -> u32)
    requires l.st.cfg.mss > 0
    requires var st := AfterLoop(m, una, l, regular, now); StateOk(m, st) && CongState(st)
    ensures CongState(Finish(m, una, l, regular, ackNoDelay, now, clock).st)
  {
    var st := AfterLoop(m, una, l, regular, now);
    AnyFlushKeepsCong(m, st, false, clock);
    AnyFlushKeepsCong(m, st, true, clock);
  }

  // ---------- the round-trip estimator over whole operations ----------

  lemma FlushKeepsRtt(m: Arith, st: State, ackOnly: bool, clock: nat -> u32)
    ensures Flush(m, st, ackOnly, clock).st.rtt == st.rtt
  {}

  /** Whatever time stamps arrive, the smoothed values stay non-negative. */
  lemma InputRtt(st: State, b: seq<byte>, regular: bool, ackNoDelay: bool, now: u32, clock: nat -> u32)
    requires st.cfg.Ok() && RttOk(st.rtt, 0x7fff_ffff, st.cfg.minrto)
    ensures RttOk(Input(st, b, regular, ackNoDelay, now, clock).st.rtt, 0x7fff_ffff, st.cfg.minrto)
  {
    var l0 := Loop(st, false, false, 0);
    InputBytesCong(l0, regular, b);
    var l := InputBytes(l0, regular, b).0;
    if ITimeDiff(now, l.latest) >= 0 {
      UpdateAckKeeps(st.rtt, ITimeDiff(now, l.latest), 0x7fff_ffff, st.cfg.interval, st.cfg.minrto);
    }
    var t := AfterLoop(Wrapping, st.snd.una, l, regular, now);
    FlushKeepsRtt(Wrapping, t, false, clock);
    FlushKeepsRtt(Wrapping, t, true, clock);
  }

  lemma InputProbe(st: State, b: seq<byte>, regular: bool, ackNoDelay: bool, now: u32, clock: nat -> u32)
    requires st.cfg.Ok() && ProbeOk(st.probe)
    ensures ProbeOk(Input(st, b, regular, ackNoDelay, now, clock).st.probe)
  {
    var l0 := Loop(st, false, false, 0);
    InputBytesCong(l0, regular, b);
    var t := AfterLoop(Wrapping, st.snd.una, InputBytes(l0, regular, b).0, regular, now);
    FlushProbe(Wrapping, t, false, clock);
    FlushProbe(Wrapping, t, true, clock);
  }

  // ---------- every reachable state ----------

  /** All that holds of a control block alone. */
  ghost predicate Sound(st: State) {
    && StateOk(Wrapping, st)
    && Balanced(st)
    && TimersOk(st.snd.buf)
    && CongState(st)
    && RttOk(st.rtt, 0x7fff_ffff, st.cfg.minrto)
    && ProbeOk(st.probe)
  }

  lemma FreshIsSound(cfg: Config, pick: nat -> nat)
    requires cfg.Ok()
    ensures Sound(Fresh(cfg, pick))
  {}

  lemma SendIsSound(st: State, msg: seq<byte>)
    requires Sound(st)
    ensures Sound(Send(st, msg).0)
  {
    SendKeeps(Wrapping, st, msg);
    SendBalances(st, msg);
  }

  lemma InputIsSound(st: State, b: seq<byte>, regular: bool, ackNoDelay: bool, now: u32, clock: nat -> u32)
    requires Sound(st)
    ensures Sound(Input(st, b, regular, ackNoDelay, now, clock).st)
  {
    InputKeeps(st, b, regular, ackNoDelay, now, clock);
    InputBalances(st, b, regular, ackNoDelay, now, clock);
    InputTimers(st, b, regular, ackNoDelay, now, clock);
    InputCong(st, b, regular, ackNoDelay, now, clock);
    InputRtt(st, b, regular, ackNoDelay, now, clock);
    InputProbe(st, b, regular, ackNoDelay, now, clock);
  }

  lemma UpdateIsSound(st: State, now: u32, clock: nat -> u32)
    requires Sound(st)
    ensures Sound(Update(Wrapping, st, now, clock).st)
  {
    var t := st.(timer := Tick(st.timer, st.cfg.interval, now).0);
    FlushKeeps(Wrapping, t, false, clock);
    FlushBalances(Wrapping, t, false, clock);
    FlushTimers(Wrapping, t, false, clock);
    AnyFlushKeepsCong(Wrapping, t, false, clock);
    FlushKeepsRtt(Wrapping, t, false, clock);
    FlushProbe(Wrapping, t, false, clock);
  }

  lemma ReceiveIsSound(st: State, room: nat)
    requires Sound(st)
    ensures Sound(Receive(Wrapping, st, room).0)
  {
    ReceiveKeeps(Wrapping, st, room);
    ReceiveBalances(Wrapping, st, room);
  }

  lemma EventIsSound(st: State, e: Event)
    requires Sound(st)
    ensures Sound(Apply(st, e))
  {
    match e
    case Sending(msg) => SendIsSound(st, msg);
    case Arrival(bytes, regular, ackNoDelay, now, clock) => InputIsSound(st, bytes, regular, ackNoDelay, now, clock);
    case Updating(now, clock) => UpdateIsSound(st, now, clock);
    case Reading(room) => ReceiveIsSound(st, room);
  }

  /** Every state reachable with any messages, any clock and any bytes from anyone: snd_buf is numbered
      exactly snd_una..snd_nxt-1, rcv_buf is strictly increasing inside the window and its head is
      rcv_nxt only when rcv_queue is full, buffers have one owner, timers are bounded, the congestion
      window and the estimator are consistent, and the wait between window probes is in its limits. */
  lemma {:induction false} ReachableIsSound(cfg: Config, pick: nat -> nat, events: seq<Event>)
    requires cfg.Ok()
    ensures Sound(After(cfg, pick, events))
    decreases |events|
  {
    if events == [] {
      assert Sound(After(cfg, pick, events)) by { FreshIsSound(cfg, pick); }
    } else {
      var before := events[..|events|-1];
      ReachableIsSound(cfg, pick, before);
      var st := After(cfg, pick, before);
      var e := events[|events|-1];
      assert After(cfg, pick, events) == Apply(st, e);
      EventIsSound(st, e);
    }
  }

  lemma SenderNumbers(s: Snd, lim: nat, mss: nat)
    requires SndOk(Wrapping, s, lim, mss)
    ensures |s.buf| <= lim && s.nxt == (s.una + |s.buf|) % M32
    ensures forall k :: 0 <= k < |s.buf| ==>
              s.buf[k].sn == (s.una + k) % M32 && (s.buf[k].acked <==> s.buf[k].body.Nil?)
  {
    forall k | 0 <= k < |s.buf| ensures s.buf[k].sn == (s.una + k) % M32 && (s.buf[k].acked <==> s.buf[k].body.Nil?) {
      assert InFlight(s.buf[k], mss);
    }
  }

  lemma ReceiverNumbers(r: Rcv, wnd: nat)
    requires RcvOk(Wrapping, r, wnd)
    ensures |r.queue| <= wnd
    ensures forall k :: 0 <= k < |r.buf| ==> (r.buf[k].sn - r.nxt) % M32 < wnd
    ensures forall i, j :: 0 <= i < j < |r.buf| ==> (r.buf[i].sn - r.nxt) % M32 < (r.buf[j].sn - r.nxt) % M32
    ensures |r.buf| > 0 && r.buf[0].sn == r.nxt ==> |r.queue| == wnd
  {
    forall k | 0 <= k < |r.buf| ensures (r.buf[k].sn - r.nxt) % M32 < wnd {
      assert Buffered(Wrapping, r.buf[k], r.nxt, wnd);
    }
  }

  /** What that means for the numbers. */
  lemma SoundNumbers(st: State)
    requires Sound(st)
    ensures var s := st.snd;
            && |s.buf| <= st.cfg.snd_wnd && s.nxt == (s.una + |s.buf|) % M32
            && (forall k :: 0 <= k < |s.buf| ==>
                  s.buf[k].sn == (s.una + k) % M32 && (s.buf[k].acked <==> s.buf[k].body.Nil?))
    ensures var r := st.rcv; var wnd := st.cfg.rcv_wnd;
            && |r.queue| <= wnd
            && (forall k :: 0 <= k < |r.buf| ==> (r.buf[k].sn - r.nxt) % M32 < wnd)
            && (forall i, j :: 0 <= i < j < |r.buf| ==> (r.buf[i].sn - r.nxt) % M32 < (r.buf[j].sn - r.nxt) % M32)
            && (|r.buf| > 0 && r.buf[0].sn == r.nxt ==> |r.queue| == wnd)
  {
    SenderNumbers(st.snd, st.cfg.snd_wnd, st.cfg.mss);
    ReceiverNumbers(st.rcv, st.cfg.rcv_wnd);
  }
}
