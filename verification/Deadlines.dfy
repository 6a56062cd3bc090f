/** Timers over whole operations: a flush leaves no unacknowledged segment unserved, and neither its
    result nor Check tells the caller to come back too late. */
module Deadlines {
  import opened Words
  import opened Segments
  import opened Sender
  import opened Timing
  import opened Flushing
  import opened Engine
  import opened Effects
  import opened Invariants

  /** How often a segment can be sent before its timeout might not fit an int32. */
  const MAX_SENDS := H32 / RTO_MAX

  /** The timeout of a segment sent at all is at most RTO_MAX for each transmission; and it is at least 30
      as long as that bound fits a uint32. */
  ghost predicate TimerOk(seg: Segment) {
    && (seg.xmit > 0 ==> seg.rto <= RTO_MAX * seg.xmit)
    && (seg.xmit > 0 && RTO_MAX * seg.xmit < M32 ==> 30 <= seg.rto)
  }

  ghost predicate TimersOk(buf: seq<Segment>) { forall k :: 0 <= k < |buf| ==> TimerOk(buf[k]) }

  // ---------- every operation keeps TimersOk ----------

  lemma RescanTimer(f: Rules, seg: Segment, now: u32, reading: u32)
    requires TimerOk(seg) && 30 <= f.rto <= RTO_MAX
    ensures TimerOk(Rescan(f, seg, now, reading))
  {
    var t := Rescan(f, seg, now, reading);
    if Why(seg, f, now) != No && t.xmit > 0 {
      assert t.xmit == seg.xmit + 1;
    }
  }

  lemma {:induction false} ScanTimers(f: Rules, s: Scan, buf: seq<Segment>, clock: nat -> u32, n: nat)
    requires n <= |buf| && s.done == [] && TimersOk(buf) && 30 <= f.rto <= RTO_MAX
    ensures TimersOk(ScanUpTo(f, s, buf, clock, n).done)
    decreases n
  {
    if n > 0 {
      ScanTimers(f, s, buf, clock, n - 1);
      RescanTimer(f, buf[n-1], ScanUpTo(f, s, buf, clock, n - 1).now, clock(n + 1));
    }
  }

  lemma NumberedTimers(m: Arith, st: State)
    requires StateOk(m, st) && TimersOk(st.snd.buf)
    ensures TimersOk(NumberedSnd(m, st).buf)
  {
    var s := st.snd;
    var buf := NumberedSnd(m, st).buf;
    forall k | |s.buf| <= k < |buf| ensures TimerOk(buf[k]) { assert Waiting(s.queue[k - |s.buf|], st.cfg.mss); }
  }

  lemma FlushTimers(m: Arith, st: State, ackOnly: bool, clock: nat -> u32)
    requires StateOk(m, st) && TimersOk(st.snd.buf)
    ensures TimersOk(Flush(m, st, ackOnly, clock).st.snd.buf)
  {
    if !ackOnly {
      var p := Controls(m, st, ProbeWait(st.probe, st.rmt_wnd, clock(0)));
      var buf := NumberedSnd(m, st).buf;
      NumberedTimers(m, st);
      ScanTimers(ScanRules(st), ScanStart(p, clock(1), st.cfg.interval), buf, clock, |buf|);
    }
  }

  lemma AckTimers(m: Arith, s: Snd, sn: int, ts: u32)
    requires TimersOk(s.buf)
    ensures TimersOk(ParseFastack(m, ParseAck(m, s, sn), sn, ts).buf)
  {
    var t := ParseAck(m, s, sn).buf;
    assert TimersOk(t);
    var u := ParseFastack(m, ParseAck(m, s, sn), sn, ts).buf;
    forall k | 0 <= k < |u| ensures TimerOk(u[k]) { assert TimerOk(t[k]); }
  }

  lemma InputSegmentTimers(m: Arith, l: Loop, regular: bool, w: Wire)
    requires TimersOk(l.st.snd.buf)
    ensures TimersOk(InputSegment(m, l, regular, w).st.snd.buf)
  {
    AckTimers(m, AfterUna(m, l.st, regular, w).snd, w.sn, w.ts);
  }

  lemma {:induction false} InputBytesTimers(l: Loop, regular: bool, b: seq<byte>)
    requires TimersOk(l.st.snd.buf)
    ensures TimersOk(InputBytes(l, regular, b).0.st.snd.buf)
    decreases |b|
  {
    if |b| >= OVERHEAD && |b| >= OVERHEAD + HeadLength(b) {
      var t := InputSegment(Wrapping, l, regular, DecodeFront(b));
      assert TimersOk(t.st.snd.buf) by { InputSegmentTimers(Wrapping, l, regular, DecodeFront(b)); }
      InputBytesTimers(t, regular, b[OVERHEAD + HeadLength(b)..]);
    }
  }

  lemma FinishTimers(m: Arith, una: int, l: Loop, regular: bool, ackNoDelay: bool, now: u32, clock: nat -> u32)
    requires StateOk(m, l.st) && TimersOk(l.st.snd.buf)
    ensures TimersOk(Finish(m, una, l, regular, ackNoDelay, now, clock).st.snd.buf)
  {
    AfterLoopKeeps(m, una, l, regular, now);
    var st := AfterLoop(m, una, l, regular, now);
    FlushTimers(m, st, false, clock);
    FlushTimers(m, st, true, clock);
  }

  lemma InputTimers(st: State, b: seq<byte>, regular: bool, ackNoDelay: bool, now: u32, clock: nat -> u32)
    requires StateOk(Wrapping, st) && TimersOk(st.snd.buf)
    ensures TimersOk(Input(st, b, regular, ackNoDelay, now, clock).st.snd.buf)
  {
    var l := Loop(st, false, false, 0);
    InputBytesKeep(l, regular, b);
    InputBytesTimers(l, regular, b);
    FinishTimers(Wrapping, st.snd.una, InputBytes(l, regular, b).0, regular, ackNoDelay, now, clock);
  }

  // ---------- retransmission coverage ----------

  /** How far the deadline of a segment lies ahead. */
  function Ahead(seg: Segment, now: u32): nat { (seg.resendts - now) % M32 }

  /** The one way to be sent and left without a deadline ahead: the timeout grows out of the half of the
      uint32 range that counts as later, or wraps around to 0. */
  predicate Overflows(st: State, seg: Segment, idle: bool, now: u32) {
    && Due(st, seg, idle, now) && seg.xmit != 0 && !Hurried(st, seg, idle)
    && (NewTimeout(st, seg, idle) == 0 || NewTimeout(st, seg, idle) > H32)
  }

  /** What a flush at time now owes segment a: if it was new, overtaken or overdue it is sent now, as b, and
      otherwise not; b has a deadline ahead exactly if the timeout does not overflow; and the flush tells its
      caller to come back before it. */
  ghost predicate Served(st: State, idle: bool, a: Segment, b: Segment, now: u32, sent: seq<Wire>, wait: int)
    requires Roomy(st)
  {
    && (Due(st, a, idle, now) ==> b == Resent(st, a, idle, now, now) && b.ToWire() in sent)
    && (!Due(st, a, idle, now) ==> b == a && forall w :: w in sent && w.cmd == CMD_PUSH ==> w.sn != a.sn)
    && (!b.acked ==>
          && (b.xmit == 0 <==> Due(st, a, idle, now) && a.xmit == M32 - 1)
          && (0 < Ahead(b, now) <= H32 <==> !Overflows(st, a, idle, now))
          && (0 < Ahead(b, now) <= H32 ==> wait <= Ahead(b, now)))
  }

  lemma DeadlineAhead(r: u32, now: u32)
    ensures ITimeDiff(now, r) < 0 <==> 0 < (r - now) % M32 <= H32
    ensures ITimeDiff(now, r) < 0 ==> ITimeDiff(r, now) == (r - now) % M32 || (r - now) % M32 == H32
  {}

  lemma TimeoutAhead(rto: u32, now: u32)
    ensures (Wrap32(now + rto) - now) % M32 == rto
  {}

  lemma IsServed(st: State, idle: bool, a: Segment, b: Segment, now: u32, sent: seq<Wire>, wait: int)
    requires Roomy(st) && 30 <= st.rtt.rto <= RTO_MAX && 0 < wait <= 5000
    requires b == if Due(st, a, idle, now) then Resent(st, a, idle, now, now) else a
    requires (exists w :: w in sent && w.cmd == CMD_PUSH && w.sn == a.sn) <==> Due(st, a, idle, now)
    requires Due(st, a, idle, now) ==> b.ToWire() in sent
    requires !a.acked && ITimeDiff(b.resendts, now) > 0 ==> wait <= ITimeDiff(b.resendts, now)
    ensures Served(st, idle, a, b, now, sent, wait)
  {
    DeadlineAhead(b.resendts, now);
    if Due(st, a, idle, now) { TimeoutAhead(b.rto, now); }
  }

  lemma PassServes(p: Pass, now: u32, k: nat, sent: seq<Wire>, wait: i32)
    requires Roomy(p.st) && p.st.cfg.Ok() && 30 <= p.st.rtt.rto <= RTO_MAX && Steady(p.clock, now)
    requires k < |p.buf| && p.Nearest(|p.buf|, wait)
    requires (exists w :: w in sent && w.cmd == CMD_PUSH && w.sn == p.buf[k].sn) <==> p.Sends(k)
    requires p.Sends(k) ==> p.Left(k).ToWire() in sent
    ensures Served(p.st, p.idle, p.buf[k], p.Left(k), now, sent, wait)
  {
    SteadyNow(p, now, k);
    SteadyNow(p, now, k + 1);
    assert p.clock(k + 2) == now;
    assert p.Ahead(k) == ITimeDiff(p.Left(k).resendts, now);
    IsServed(p.st, p.idle, p.buf[k], p.Left(k), now, sent, wait);
  }

  /** With the clock fixed during a full flush: afterwards every segment in flight is acknowledged, or
      has a deadline ahead unless its timeout overflowed just now; exactly those that were due are in the
      output; and the time returned lies beyond neither the interval nor the earliest deadline. */
  lemma FlushCovers(m: Arith, st: State, clock: nat -> u32, now: u32, n: nat, k: nat)
    requires StateOk(m, st) && Steady(clock, now)
    requires Numbers(m, st, Flush(m, st, false, clock).st, n) && k < |st.snd.buf| + n
    ensures var o := Flush(m, st, false, clock);
            && 0 < o.ret <= st.cfg.interval
            && Served(st, n == 0, Loaded(m, st, n)[k], o.st.snd.buf[k], now, Flatten(o.out), o.ret)
  {
    var o := Flush(m, st, false, clock);
    InOutputIff(m, st, clock, n, k);
    FlushLeavesBehind(m, st, clock, n);
    FlushSends(m, st, clock, n);
    PassServes(PassOf(m, st, n, clock), now, k, Flatten(o.out), o.ret);
  }

  /** Segments sent fewer than MAX_SENDS times do not overflow. */
  lemma RarelySentIsArmed(st: State, seg: Segment, idle: bool, now: u32)
    requires TimerOk(seg) && seg.xmit < MAX_SENDS && 30 <= st.rtt.rto <= RTO_MAX
    ensures !Overflows(st, seg, idle, now)
  {}

  lemma LoadedTimers(m: Arith, st: State, n: nat, k: nat)
    requires StateOk(m, st) && TimersOk(st.snd.buf) && n <= |st.snd.queue| && k < |st.snd.buf| + n
    ensures TimerOk(Loaded(m, st, n)[k])
  {
    if k >= |st.snd.buf| { assert Waiting(st.snd.queue[k - |st.snd.buf|], st.cfg.mss); }
  }

  /** So a segment in flight that has been sent at most MAX_SENDS times has a deadline ahead. */
  lemma FlushArms(m: Arith, st: State, clock: nat -> u32, now: u32, k: nat)
    requires StateOk(m, st) && TimersOk(st.snd.buf) && Steady(clock, now)
    requires var b := Flush(m, st, false, clock).st.snd.buf; k < |b| && !b[k].acked && 0 < b[k].xmit <= MAX_SENDS
    ensures 0 < Ahead(Flush(m, st, false, clock).st.snd.buf[k], now) <= H32
  {
    var o := Flush(m, st, false, clock);
    var n := FlushNumbers(m, st, clock);
    FlushCovers(m, st, clock, now, n, k);
    LoadedTimers(m, st, n, k);
    ServedIsArmed(st, n == 0, Loaded(m, st, n)[k], o.st.snd.buf[k], now, Flatten(o.out), o.ret);
  }

  lemma ServedIsArmed(st: State, idle: bool, a: Segment, b: Segment, now: u32, sent: seq<Wire>, wait: int)
    requires Roomy(st) && Served(st, idle, a, b, now, sent, wait) && TimerOk(a) && 30 <= st.rtt.rto <= RTO_MAX
    requires !b.acked && 0 < b.xmit <= MAX_SENDS
    ensures 0 < Ahead(b, now) <= H32
  {
    if Due(st, a, idle, now) { RarelySentIsArmed(st, a, idle, now); }
  }

  // ---------- the bound is tight ----------

  /** A segment sent n times, each time but the first as soon as its timeout has run out. */
  function SentAgain(f: Rules, seg: Segment, now: u32, n: nat): Segment
    requires n > 0
  {
    if n == 1 then Rescan(f, seg, now, now)
    else
      var s := SentAgain(f, seg, now, n - 1);
      Rescan(f, s, s.resendts, s.resendts)
  }

  /** A segment sent n times, and the timeout running. */
  ghost predicate Waits(t: Segment, n: nat) {
    t.xmit == n && t.rto == RTO_MAX * n && t.fastack == 0 && !t.acked && t.resendts == Wrap32(t.ts + t.rto)
  }

  lemma OnceMore(f: Rules, s: Segment, n: nat)
    requires n > 1 && RTO_MAX * n < M32 && f.rto == RTO_MAX && f.nodelay == 0 && f.resent > 0 && Waits(s, n - 1)
    ensures Waits(Rescan(f, s, s.resendts, s.resendts), n)
  {
    assert ITimeDiff(s.resendts, s.resendts) == 0;
    assert Why(s, f, s.resendts) == Timeout;
  }

  lemma {:induction false} SentAgainTimeout(f: Rules, seg: Segment, now: u32, n: nat)
    requires n > 0 && RTO_MAX * n < M32 && f.rto == RTO_MAX && f.nodelay == 0 && f.resent > 0
    requires seg.xmit == 0 && !seg.acked && seg.fastack == 0
    ensures Waits(SentAgain(f, seg, now, n), n)
    decreases n
  {
    if n > 1 {
      SentAgainTimeout(f, seg, now, n - 1);
      OnceMore(f, SentAgain(f, seg, now, n - 1), n);
    }
  }

  /** With the largest timeout the n-th transmission leaves a deadline ahead exactly if n is at most
      MAX_SENDS: at the next one the segment is due again at once. */
  lemma MaxSendsIsTight(f: Rules, seg: Segment, now: u32, n: nat)
    requires n > 0 && RTO_MAX * n < M32 && f.rto == RTO_MAX && f.nodelay == 0 && f.resent > 0
    requires seg.xmit == 0 && !seg.acked && seg.fastack == 0
    ensures var t := SentAgain(f, seg, now, n); 0 < Ahead(t, t.ts) <= H32 <==> n <= MAX_SENDS
  {
    SentAgainTimeout(f, seg, now, n);
    var t := SentAgain(f, seg, now, n);
    TimeoutAhead(t.rto, t.ts);
  }

  // ---------- Check ----------

  /** The time to the next regular flush; 0 if the timer is out of step. */
  function ToFlush(t: Timer, now: u32): i32 {
    if -10000 <= ITimeDiff(now, t.ts_flush) < 10000 then ITimeDiff(t.ts_flush, now) else 0
  }

  /** Something calls for Update right away. */
  ghost predicate Pressing(st: State, now: u32) {
    || !st.timer.updated || ToFlush(st.timer, now) <= 0
    || exists k :: 0 <= k < |st.snd.buf| && ITimeDiff(st.snd.buf[k].resendts, now) <= 0
  }

  lemma {:induction false} NearestIsSome(buf: seq<Segment>, now: u32, n: nat)
    requires n <= |buf| && Nearest(buf, now, n) < 0x7fff_ffff
    ensures exists k :: 0 <= k < n && Nearest(buf, now, n) == ITimeDiff(buf[k].resendts, now)
    decreases n
  {
    if Nearest(buf, now, n) == ITimeDiff(buf[n-1].resendts, now) {
    } else {
      NearestIsSome(buf, now, n - 1);
    }
  }

  lemma CheckValue(st: State, now: u32)
    requires st.cfg.Ok() && st.timer.updated
    ensures (Check(st, now) - now) % M32 ==
            Max(0, Min(st.cfg.interval, Min(ToFlush(st.timer, now), Nearest(st.snd.buf, now, |st.snd.buf|))))
  {
    var near := Nearest(st.snd.buf, now, |st.snd.buf|);
    var flush := ToFlush(st.timer, now);
    if -10000 <= ITimeDiff(now, st.timer.ts_flush) < 10000 { TurnedAround(now, st.timer.ts_flush); }
    assert ITimeDiff(now, now) == 0;
    if flush > 0 && near > 0 {
      var wait := Min(Min(near, flush), st.cfg.interval);
      InUint32(Min(near, flush));
      WaitBack(now, wait);
    }
  }

  lemma TurnedAround(a: u32, b: u32)
    requires -10000 <= ITimeDiff(a, b) < 10000
    ensures ITimeDiff(b, a) == -ITimeDiff(a, b)
  {}

  lemma WaitBack(now: u32, wait: u32)
    ensures (Wrap32(now + wait) - now) % M32 == wait
  {}

  /** Check calls for Update at once exactly when something presses; otherwise it waits no longer than
      the interval, the next regular flush and every deadline, and for one of these. */
  lemma CheckIsInTime(st: State, now: u32)
    requires st.cfg.Ok()
    ensures var wait := (Check(st, now) - now) % M32;
            && (wait == 0 <==> Pressing(st, now))
            && wait <= st.cfg.interval
            && (!Pressing(st, now) ==>
                  && wait <= ToFlush(st.timer, now)
                  && (forall k :: 0 <= k < |st.snd.buf| ==> wait <= ITimeDiff(st.snd.buf[k].resendts, now))
                  && (|| wait == st.cfg.interval || wait == ToFlush(st.timer, now)
                      || exists k :: 0 <= k < |st.snd.buf| && wait == ITimeDiff(st.snd.buf[k].resendts, now)))
  {
    var buf := st.snd.buf;
    if st.timer.updated {
      CheckValue(st, now);
      if Nearest(buf, now, |buf|) < 0x7fff_ffff { NearestIsSome(buf, now, |buf|); }
      forall k | 0 <= k < |buf| ensures Nearest(buf, now, |buf|) <= ITimeDiff(buf[k].resendts, now) {
        NearestBound(buf, now, k, |buf|);
      }
    }
  }

  // ---------- the flush timer ----------

  /** A flush is called for at the first call, or when its time has come, or when the timer is out of step. */
  predicate FlushNow(t: Timer, now: u32) {
    !t.updated || ITimeDiff(now, t.ts_flush) >= 0 || ITimeDiff(now, t.ts_flush) < -10000
  }

  /** The timer step calls for a flush exactly then; the next one is ahead, at most an interval away, and a timer
      in step keeps its pace. */
  lemma TickSets(t: Timer, interval: u32, now: u32)
    requires 10 <= interval <= 5000
    ensures var (u, due) := Tick(t, interval, now);
            && u.updated
            && (due <==> FlushNow(t, now))
            && (due ==> 0 < ITimeDiff(u.ts_flush, now) <= interval)
            && (!due ==> u == t && 0 < ITimeDiff(t.ts_flush, now) <= 10000)
            && (due ==> u.ts_flush == if t.updated && 0 <= ITimeDiff(now, t.ts_flush) < interval
                                      then Wrap32(t.ts_flush + interval) else Wrap32(now + interval))
  {
    var t0 := if t.updated then t.ts_flush else now;
    var slap := ITimeDiff(now, t0);
    var t1 := if slap >= 10000 || slap < -10000 then now else t0;
    assert ITimeDiff(now, now) == 0;
    NextFlush(t1, now, interval);
  }

  lemma NextFlush(t: u32, now: u32, interval: u32)
    requires 10 <= interval <= 5000 && -10000 <= ITimeDiff(now, t) < 10000
    ensures ITimeDiff(t, now) == -ITimeDiff(now, t)
    ensures ITimeDiff(now, Wrap32(t + interval)) == ITimeDiff(now, t) - interval
    ensures ITimeDiff(Wrap32(t + interval), now) == interval - ITimeDiff(now, t)
    ensures ITimeDiff(Wrap32(now + interval), now) == interval
  {
    Opposite(t, now);
    Shifted(t, now, interval);
    WaitAhead(now, interval);
  }

  lemma Opposite(t: u32, now: u32)
    requires -10000 <= ITimeDiff(now, t) < 10000
    ensures ITimeDiff(t, now) == -ITimeDiff(now, t)
  {
    var q := SignedBack(now - t);
    IsSigned(t - now, -ITimeDiff(now, t), -q);
  }

  lemma Shifted(t: u32, now: u32, interval: u32)
    requires 10 <= interval <= 5000 && -10000 <= ITimeDiff(now, t) < 10000
    ensures ITimeDiff(now, Wrap32(t + interval)) == ITimeDiff(now, t) - interval
    ensures ITimeDiff(Wrap32(t + interval), now) == interval - ITimeDiff(now, t)
  {
    var d, u := ITimeDiff(now, t), Wrap32(t + interval);
    var q := SignedBack(now - t);
    var r := WrappedBack(t + interval);
    IsSigned(now - u, d - interval, q + r);
    IsSigned(u - now, interval - d, -q - r);
  }

  lemma SignedBack(x: int) returns (q: int)
    ensures x == Signed32(x) + q * M32
  {
    q := if x % M32 < H32 then x / M32 else x / M32 + 1;
  }

  lemma WrappedBack(x: int) returns (q: int)
    ensures x == Wrap32(x) + q * M32
  {
    q := x / M32;
  }

  lemma IsSigned(x: int, e: int, q: int)
    requires x == e + q * M32 && -H32 <= e < H32
    ensures Signed32(x) == e
  {}

  /** If Check names the time of the next flush, a flush is called for then. */
  lemma CheckMeetsUpdate(st: State, now: u32)
    requires st.cfg.Ok() && !Pressing(st, now)
    requires (Check(st, now) - now) % M32 == ToFlush(st.timer, now)
    ensures Check(st, now) == st.timer.ts_flush && FlushNow(st.timer, Check(st, now))
  {
    var t := st.timer.ts_flush;
    assert (Check(st, now) - now) % M32 == (t - now) % M32;
    SameReading(Check(st, now), t, now);
    assert ITimeDiff(t, t) == 0;
  }

  lemma SameReading(a: u32, b: u32, base: u32)
    requires (a - base) % M32 == (b - base) % M32
    ensures a == b
  {}

  /** Update flushes, in full, exactly then; otherwise it does nothing at all. */
  lemma UpdateFlushes(m: Arith, st: State, now: u32, clock: nat -> u32)
    requires st.cfg.Ok()
    ensures var o := Update(m, st, now, clock); var next := o.st.timer;
            && (!FlushNow(st.timer, now) ==> o == Outcome(st, [], 0))
            && (FlushNow(st.timer, now) ==>
                  && o == Flush(m, st.(timer := next), false, clock).(ret := 0)
                  && next.updated && 0 < ITimeDiff(next.ts_flush, now) <= st.cfg.interval)
  {
    TickSets(st.timer, st.cfg.interval, now);
    var (t, due) := Tick(st.timer, st.cfg.interval, now);
    FlushKeepsTimer(m, st.(timer := t), clock);
  }

  lemma FlushKeepsTimer(m: Arith, st: State, clock: nat -> u32)
    ensures Flush(m, st, false, clock).st.timer == st.timer
  {}

  /** So an update that flushes fills the window, puts what it takes off the queue at the end of its output,
      and leaves no acknowledgement pending. */
  lemma UpdateNumbers(m: Arith, st: State, now: u32, clock: nat -> u32) returns (n: nat)
    requires StateOk(m, st) && FlushNow(st.timer, now)
    ensures var o := Update(m, st, now, clock);
            Numbers(m, st, o.st, n) && o.st.acks == [] && NewAtEnd(m, st, n, Flatten(o.out))
  {
    var o := Update(m, st, now, clock);
    UpdateFlushes(m, st, now, clock);
    var st' := st.(timer := o.st.timer);
    n := FlushNumbers(m, st', clock);
    FlushLeavesBehind(m, st', clock, n);
    FlushSendsAllNew(m, st', clock, n);
    NewForBoth(m, st, st', n, Flatten(o.out));
  }

  /** a is sent if it is due, and left as b. */
  ghost predicate SentIfDue(st: State, idle: bool, a: Segment, b: Segment, now: u32, sent: seq<Wire>)
    requires Roomy(st)
  {
    if Due(st, a, idle, now) then b == Resent(st, a, idle, now, now) && b.ToWire() in sent
    else b == a && forall w :: w in sent && w.cmd == CMD_PUSH ==> w.sn != a.sn
  }

  lemma DueForBoth(
      st: State, st': State, idle: bool, a: Segment, b: Segment, now: u32, sent: seq<Wire>, wait: int)
    requires st' == st.(timer := st'.timer) && Roomy(st) && Served(st', idle, a, b, now, sent, wait)
    ensures SentIfDue(st, idle, a, b, now, sent)
  {
    assert Due(st', a, idle, now) == Due(st, a, idle, now);
    assert Resent(st', a, idle, now, now) == Resent(st, a, idle, now, now);
  }

  lemma LoadedForBoth(m: Arith, st: State, st': State, n: nat)
    requires st' == st.(timer := st'.timer) && n <= |st.snd.queue|
    ensures Loaded(m, st', n) == Loaded(m, st, n)
  {}

  lemma FlushSendsDue(m: Arith, st: State, st': State, now: u32, clock: nat -> u32, n: nat, k: nat)
    requires StateOk(m, st') && st' == st.(timer := st'.timer) && Steady(clock, now)
    requires Numbers(m, st', Flush(m, st', false, clock).st, n) && k < |st.snd.buf| + n
    ensures var o := Flush(m, st', false, clock);
            SentIfDue(st, n == 0, Loaded(m, st, n)[k], o.st.snd.buf[k], now, Flatten(o.out))
  {
    var o := Flush(m, st', false, clock);
    FlushCovers(m, st', clock, now, n, k);
    LoadedForBoth(m, st, st', n);
    DueForBoth(st, st', n == 0, Loaded(m, st, n)[k], o.st.snd.buf[k], now, Flatten(o.out), o.ret);
  }

  /** And, with the clock at rest, it sends exactly the segments in flight that are new, overtaken or overdue. */
  lemma UpdateSends(m: Arith, st: State, now: u32, clock: nat -> u32, n: nat, k: nat)
    requires StateOk(m, st) && FlushNow(st.timer, now) && Steady(clock, now)
    requires Numbers(m, st, Update(m, st, now, clock).st, n) && k < |st.snd.buf| + n
    ensures var o := Update(m, st, now, clock);
            SentIfDue(st, n == 0, Loaded(m, st, n)[k], o.st.snd.buf[k], now, Flatten(o.out))
  {
    UpdateFlushes(m, st, now, clock);
    FlushSendsDue(m, st, st.(timer := Update(m, st, now, clock).st.timer), now, clock, n, k);
  }

  lemma NewForBoth(m: Arith, st: State, st': State, n: nat, out: seq<Wire>)
    requires st' == st.(timer := st'.timer) && n <= |st.snd.queue| && NewAtEnd(m, st', n, out)
    ensures NewAtEnd(m, st, n, out)
  {
    var tail := out[|out| - n..];
    forall i | 0 <= i < n ensures IsNew(m, st, i, tail[i]) { assert IsNew(m, st', i, tail[i]); }
  }

  // ---------- probing a closed window ----------

  /** The wait between probes is none, or between its two limits. */
  predicate ProbeOk(p: Probe) { p.wait == 0 || PROBE_INIT <= p.wait <= PROBE_LIMIT }

  /** A probe is called for exactly when the window is closed and the wait is over. */
  predicate Asks(p: Probe, rmt_wnd: u32, now: u32) {
    rmt_wnd == 0 && p.wait != 0 && ITimeDiff(now, p.ts) >= 0
  }

  /** An open window ends the waiting; a closed one keeps the wait between 7000 and 120000, never shortens
      it, makes it half as long again for each probe up to the limit, and starts it at the reading. */
  lemma ProbeWaits(p: Probe, rmt_wnd: u32, now: u32)
    requires ProbeOk(p)
    ensures var q := ProbeWait(p, rmt_wnd, now);
            && ProbeOk(q) && (q.ask <==> p.ask || Asks(p, rmt_wnd, now)) && q.tell == p.tell
            && (rmt_wnd != 0 ==> q.wait == 0)
            && (rmt_wnd == 0 ==>
                  && p.wait <= q.wait && 7000 <= q.wait <= 120000 && (p.wait == 0 ==> q.wait == 7000)
                  && (Asks(p, rmt_wnd, now) ==> q.wait == Min(p.wait + p.wait / 2, 120000))
                  && (p.wait == 0 || Asks(p, rmt_wnd, now) ==> ITimeDiff(q.ts, now) == q.wait)
                  && (p.wait != 0 && !Asks(p, rmt_wnd, now) ==> q == p && ITimeDiff(now, q.ts) < 0))
  {
    var q := ProbeWait(p, rmt_wnd, now);
    if rmt_wnd == 0 { WaitAhead(now, q.wait); }
  }

  lemma WaitAhead(now: u32, wait: u32)
    requires wait <= PROBE_LIMIT
    ensures ITimeDiff(Wrap32(now + wait), now) == wait
  {}

  /** A closed window after n probes, each sent when it is due. */
  function Probed(p: Probe, n: nat): Probe {
    if n == 0 then p else var q := Probed(p, n - 1); ProbeWait(q, 0, q.ts)
  }

  /** The wait after n growths. */
  function Grown(wait: nat, n: nat): nat {
    if n == 0 then wait else Min(Grown(wait, n - 1) * 3 / 2, PROBE_LIMIT)
  }

  lemma {:induction false} ProbedIsGrown(p: Probe, n: nat)
    requires PROBE_INIT <= p.wait <= PROBE_LIMIT
    ensures Probed(p, n).wait == Grown(p.wait, n) && PROBE_INIT <= Grown(p.wait, n) <= PROBE_LIMIT
  {
    if n > 0 {
      ProbedIsGrown(p, n - 1);
      var q := Probed(p, n - 1);
      assert ITimeDiff(q.ts, q.ts) == 0;
      ProbeWaits(q, 0, q.ts);
    }
  }

  /** The eighth probe brings the wait to its limit, from wherever it started. */
  lemma EightProbes(p: Probe)
    requires PROBE_INIT <= p.wait <= PROBE_LIMIT
    ensures Probed(p, 8).wait == PROBE_LIMIT
  {
    ProbedIsGrown(p, 8);
    var w := p.wait;
    assert Grown(w, 1) >= 10500 && Grown(w, 2) >= 15750;
    assert Grown(w, 3) >= 23625 && Grown(w, 4) >= 35437;
    assert Grown(w, 5) >= 53155 && Grown(w, 6) >= 79732;
    assert Grown(w, 7) >= 119598;
  }

  lemma FlushProbe(m: Arith, st: State, ackOnly: bool, clock: nat -> u32)
    requires ProbeOk(st.probe)
    ensures ProbeOk(Flush(m, st, ackOnly, clock).st.probe)
  {
    ProbeWaits(st.probe, st.rmt_wnd, clock(0));
  }
}
