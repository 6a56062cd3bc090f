/** What the network need not do for data to arrive: of all it may lose, duplicate, reorder and delay, one
    delivery of what one flush sends is enough. */
module Delivery {
  import opened Words
  import opened Segments
  import opened Sender
  import opened Receiver
  import opened Flushing
  import opened Engine
  import opened Invariants
  import opened Messages
  import opened Channel
  import opened Network
  import opened Effects
  import opened Deadlines
  import opened Arrivals

  // ---------- a datagram delivered ----------

  lemma PushArrives(
      st: State, w: Wire, out: seq<Frag>, ry: Rcv, wy: nat, incoming: seq<Frag>, nxt: int, read: seq<Frag>, limit: int)
    requires Half(st, out, ry, wy, incoming, nxt, read) && w.cmd == CMD_PUSH
    requires PushOk(w, incoming, nxt, limit) && limit <= st.rcv.nxt + st.cfg.rcv_wnd
    ensures Received(OnPush(Exact, st, w).rcv, w.sn)
  {
    var seg := Accepted(w, BufferPool.GetId(st.pool));
    assert FragOf(seg) == Frag(w.frg, w.data);
    ParseDataInv(st.rcv, st.cfg.rcv_wnd, incoming, nxt, read, seg);
  }

  lemma SegmentArrives(
      l: Loop, regular: bool, w: Wire,
      out: seq<Frag>, ry: Rcv, wy: nat, incoming: seq<Frag>, nxt: int, read: seq<Frag>, limit: int)
    requires Half(l.st, out, ry, wy, incoming, nxt, read) && w.cmd == CMD_PUSH
    requires NewsOk(w, ry, wy) && PushOk(w, incoming, nxt, limit) && limit <= l.st.rcv.nxt + l.st.cfg.rcv_wnd
    ensures Received(InputSegment(Exact, l, regular, w).st.rcv, w.sn)
  {
    AfterUnaHalf(l.st, regular, w, out, ry, wy, incoming, nxt, read);
    PushArrives(AfterUna(Exact, l.st, regular, w), w, out, ry, wy, incoming, nxt, read, limit);
  }

  lemma {:induction false} SegmentsArrive(
      l: Loop, regular: bool, ws: seq<Wire>, k: nat,
      out: seq<Frag>, ry: Rcv, wy: nat, incoming: seq<Frag>, nxt: int, read: seq<Frag>, limit: int)
    requires Half(l.st, out, ry, wy, incoming, nxt, read) && limit <= l.st.rcv.nxt + l.st.cfg.rcv_wnd
    requires forall w :: w in ws ==> NewsOk(w, ry, wy) && PushOk(w, incoming, nxt, limit)
    requires k < |ws| && ws[k].cmd == CMD_PUSH
    ensures Received(InputSegments(Exact, l, regular, ws).st.rcv, ws[k].sn)
    decreases |ws|
  {
    var t := InputSegment(Exact, l, regular, ws[0]);
    InputSegmentHalf(l, regular, ws[0], out, ry, wy, incoming, nxt, read, limit);
    if k == 0 {
      SegmentArrives(l, regular, ws[0], out, ry, wy, incoming, nxt, read, limit);
      InputSegmentsHalf(t, regular, ws[1..], out, ry, wy, incoming, nxt, read, limit);
    } else {
      SegmentsArrive(t, regular, ws[1..], k - 1, out, ry, wy, incoming, nxt, read, limit);
    }
  }

  lemma DatagramRcv(
      m: Arith, st: State, ws: seq<Wire>, regular: bool, ackNoDelay: bool, now: u32, clock: nat -> u32)
    requires st.cfg.mss > 0 && ws != []
    ensures InputDatagram(m, st, ws, regular, ackNoDelay, now, clock).st.rcv
         == InputSegments(m, Loop(st, false, false, 0), regular, ws).st.rcv
  {}

  /** Data delivered has been received, whenever it was sent. */
  lemma DeliveredIsReceived(x: End, y: End, a: Action, k: nat)
    requires ConnInv(x, y) && a.Deliver? && a.i < |y.net| && k < |y.net[a.i]| && y.net[a.i][k].cmd == CMD_PUSH
    ensures Received(Act(Exact, x, y.net, a).st.rcv, y.net[a.i][k].sn)
  {
    var ws := y.net[a.i];
    assert forall w :: w in ws ==> WireOk(y, x, w);
    SegmentsArrive(Loop(x.st, false, false, 0), a.regular, ws, k, Stream(x), y.st.rcv, y.st.cfg.rcv_wnd,
      Stream(y), y.st.snd.nxt, CutAll(x.got, y.st.cfg.mss), x.st.rcv.nxt + x.st.cfg.rcv_wnd);
    DatagramRcv(Exact, x.st, ws, a.regular, a.ackNoDelay, a.now, a.clock);
  }

  // ---------- delivered at some time ----------

  /** Move j of the schedule delivers datagram i of the left end to the right end. */
  predicate Delivers(moves: seq<Move>, j: nat, i: nat) {
    j < |moves| && moves[j].Right? && moves[j].act.Deliver? && moves[j].act.i == i
  }

  /** However it goes on before and after. */
  lemma {:induction false} OnceDelivered(s: Sys, moves: seq<Move>, j: nat, i: nat, k: nat)
    requires Connected(s) && Delivers(moves, j, i)
    requires i < |s.l.net| && k < |s.l.net[i]| && s.l.net[i][k].cmd == CMD_PUSH
    ensures Received(Run(Exact, s, moves).r.st.rcv, s.l.net[i][k].sn)
    decreases |moves|
  {
    var t := Run(Exact, s, moves[..|moves|-1]);
    MovesGoOn(s, moves[..|moves|-1]);
    StepGoesOn(t, moves[|moves|-1]);
    if j == |moves| - 1 {
      assert s.l.net[i] == t.l.net[i];
      ConnSymmetric(t.l, t.r);
      DeliveredIsReceived(t.r, t.l, moves[j].act, k);
    } else {
      assert Delivers(moves[..|moves|-1], j, i);
      OnceDelivered(s, moves[..|moves|-1], j, i, k);
    }
  }

  // ---------- what a flush sends ----------

  /** Every segment in flight that is not acknowledged is new or overdue. */
  ghost predicate AllDue(st: State, now: u32) {
    forall k :: 0 <= k < |st.snd.buf| && !st.snd.buf[k].acked ==>
      st.snd.buf[k].xmit == 0 || ITimeDiff(now, st.snd.buf[k].resendts) >= 0
  }

  lemma LoadedIsDue(m: Arith, st: State, now: u32, n: nat, k: nat)
    requires StateOk(m, st) && AllDue(st, now) && n <= |st.snd.queue| && k < |st.snd.buf| + n
    ensures var a := Loaded(m, st, n)[k]; a.acked || Due(st, a, n == 0, now)
  {
    QueueIsNew(m, st, n);
    if k >= |st.snd.buf| { assert Loaded(m, st, n)[k] == Taken(m, st, k - |st.snd.buf|); }
  }

  /** Segment k of the buffer that a flush leaves, if not acknowledged, is in one of its datagrams. */
  lemma FlushSendsAll(m: Arith, st: State, now: u32, clock: nat -> u32, k: nat)
    requires StateOk(m, st) && Steady(clock, now) && AllDue(st, now)
    requires var b := Flush(m, st, false, clock).st.snd.buf; k < |b| && !b[k].acked
    ensures var o := Flush(m, st, false, clock); InSome(o.out, o.st.snd.buf[k].sn)
  {
    var o := Flush(m, st, false, clock);
    var n := FlushNumbers(m, st, clock);
    FlushCovers(m, st, clock, now, n, k);
    LoadedIsDue(m, st, now, n, k);
    LoadedNumbers(m, st, n);
    ServedIsSent(st, n == 0, Loaded(m, st, n)[k], o.st.snd.buf[k], now, Flatten(o.out), o.ret);
    InDatagram(o.out, o.st.snd.buf[k].ToWire());
  }

  lemma ServedIsSent(st: State, idle: bool, a: Segment, b: Segment, now: u32, sent: seq<Wire>, wait: int)
    requires Roomy(st) && Served(st, idle, a, b, now, sent, wait) && (a.acked || Due(st, a, idle, now)) && !b.acked
    requires a.cmd == CMD_PUSH
    ensures b.ToWire() in sent && b.cmd == CMD_PUSH
  {}

  /** Some datagram carries the data segment numbered sn. */
  ghost predicate InSome(ds: seq<seq<Wire>>, sn: int) {
    exists i, j :: 0 <= i < |ds| && 0 <= j < |ds[i]| && ds[i][j].cmd == CMD_PUSH && ds[i][j].sn == sn
  }

  lemma {:induction false} InDatagram(ds: seq<seq<Wire>>, w: Wire)
    requires w in Flatten(ds) && w.cmd == CMD_PUSH
    ensures InSome(ds, w.sn)
    decreases |ds|
  {
    var last := ds[|ds|-1];
    if w in last {
      var j :| 0 <= j < |last| && last[j] == w;
      assert ds[|ds|-1][j].sn == w.sn;
    } else {
      InDatagram(ds[..|ds|-1], w);
      var i, j :| 0 <= i < |ds| - 1 && 0 <= j < |ds[..|ds|-1][i]| && ds[..|ds|-1][i][j].cmd == CMD_PUSH
                  && ds[..|ds|-1][i][j].sn == w.sn;
      assert ds[i][j].sn == w.sn;
    }
  }

  lemma UpdateSendsAll(m: Arith, st: State, now: u32, clock: nat -> u32, k: nat)
    requires StateOk(m, st) && Steady(clock, now) && AllDue(st, now) && FlushNow(st.timer, now)
    requires var b := Update(m, st, now, clock).st.snd.buf; k < |b| && !b[k].acked
    ensures var o := Update(m, st, now, clock); InSome(o.out, o.st.snd.buf[k].sn)
  {
    var o := Update(m, st, now, clock);
    UpdateFlushes(m, st, now, clock);
    FlushSendsAll(m, st.(timer := o.st.timer), now, clock, k);
  }

  // ---------- one delivery is enough ----------

  ghost predicate IsDelivered(moves: seq<Move>, i: nat) { exists j :: Delivers(moves, j, i) }

  /** Each datagram from the first-th on that the left end had sent by then is delivered at some time. */
  ghost predicate EachDelivered(moves: seq<Move>, first: nat, count: nat) {
    forall i :: first <= i < count ==> IsDelivered(moves, i)
  }

  /** From the first-th datagram on, the left end has sent everything that is in flight and not acknowledged. */
  ghost predicate AllSent(t: Sys, first: nat) {
    && first <= |t.l.net|
    && var b := t.l.st.snd.buf; forall k :: 0 <= k < |b| && !b[k].acked ==> InSome(t.l.net[first..], b[k].sn)
  }

  lemma SomeArrives(t: Sys, first: nat, moves: seq<Move>, sn: int)
    requires Connected(t) && first <= |t.l.net| && InSome(t.l.net[first..], sn)
    requires EachDelivered(moves, first, |t.l.net|)
    ensures Received(Run(Exact, t, moves).r.st.rcv, sn)
  {
    var out: seq<seq<Wire>> := t.l.net[first..];
    var i, j :| 0 <= i < |out| && 0 <= j < |out[i]| && out[i][j].cmd == CMD_PUSH && out[i][j].sn == sn;
    assert IsDelivered(moves, first + i);
    var d :| Delivers(moves, d, first + i);
    OnceDelivered(t, moves, d, first + i, j);
  }

  /** What is acknowledged has arrived before, the rest arrives now. */
  lemma AllArrives(t: Sys, first: nat, moves: seq<Move>, sn: int)
    requires Connected(t) && AllSent(t, first) && EachDelivered(moves, first, |t.l.net|) && sn < t.l.st.snd.nxt
    ensures Received(Run(Exact, t, moves).r.st.rcv, sn)
  {
    MovesGoOn(t, moves);
    var snd := t.l.st.snd;
    if sn < snd.una {
      assert Received(t.r.st.rcv, sn);
    } else {
      var k := sn - snd.una;
      assert Sends(snd, Stream(t.l), t.r.st.rcv, k);
      if snd.buf[k].acked {
        assert Received(t.r.st.rcv, sn);
      } else {
        SomeArrives(t, first, moves, sn);
      }
    }
  }

  lemma UpdateSent(s: Sys, now: u32, clock: nat -> u32)
    requires Connected(s) && FlushNow(s.l.st.timer, now) && Steady(clock, now) && AllDue(s.l.st, now)
    ensures AllSent(Step(Exact, s, Left(CallUpdate(now, clock))), |s.l.net|)
  {
    var t := Step(Exact, s, Left(CallUpdate(now, clock)));
    var o := Update(Exact, s.l.st, now, clock);
    var b := t.l.st.snd.buf;
    assert t.l.net[|s.l.net|..] == o.out && t.l.st == o.st;
    forall k | 0 <= k < |b| && !b[k].acked ensures InSome(t.l.net[|s.l.net|..], b[k].sn) {
      UpdateSendsAll(Exact, s.l.st, now, clock, k);
    }
  }

  /** After a flush of the left end that finds everything in flight due, and any schedule that delivers each of
      its datagrams once, among whatever else: the right end has received everything the left end has numbered. */
  lemma FlushArrives(s: Sys, now: u32, clock: nat -> u32, moves: seq<Move>, sn: int)
    requires Connected(s) && FlushNow(s.l.st.timer, now) && Steady(clock, now) && AllDue(s.l.st, now)
    requires var t := Step(Exact, s, Left(CallUpdate(now, clock)));
             EachDelivered(moves, |s.l.net|, |t.l.net|) && sn < t.l.st.snd.nxt
    ensures Received(Run(Exact, Step(Exact, s, Left(CallUpdate(now, clock))), moves).r.st.rcv, sn)
  {
    StepGoesOn(s, Left(CallUpdate(now, clock)));
    UpdateSent(s, now, clock);
    AllArrives(Step(Exact, s, Left(CallUpdate(now, clock))), |s.l.net|, moves, sn);
  }

  /** So the right end has everything in order, or its receive queue is full, which its reading will change. */
  lemma FlushArrivesInOrder(s: Sys, now: u32, clock: nat -> u32, moves: seq<Move>)
    requires Connected(s) && FlushNow(s.l.st.timer, now) && Steady(clock, now) && AllDue(s.l.st, now)
    requires EachDelivered(moves, |s.l.net|, |Step(Exact, s, Left(CallUpdate(now, clock))).l.net|)
    ensures var t := Step(Exact, s, Left(CallUpdate(now, clock))); var r := Run(Exact, t, moves).r.st;
            r.rcv.nxt >= t.l.st.snd.nxt || |r.rcv.queue| == r.cfg.rcv_wnd
  {
    var t := Step(Exact, s, Left(CallUpdate(now, clock)));
    var r := Run(Exact, t, moves).r.st;
    StepGoesOn(s, Left(CallUpdate(now, clock)));
    MovesGoOn(t, moves);
    if r.rcv.nxt < t.l.st.snd.nxt {
      FlushArrives(s, now, clock, moves, r.rcv.nxt);
      NextIsFirst(r.rcv, r.cfg.rcv_wnd);
    }
  }

  lemma NextIsFirst(r: Rcv, wnd: nat)
    requires RcvOk(Exact, r, wnd) && Received(r, r.nxt)
    ensures |r.queue| == wnd
  {
    var k :| 0 <= k < |r.buf| && r.buf[k].sn == r.nxt;
    if k > 0 { assert Buffered(Exact, r.buf[0], r.nxt, wnd); }
  }

  // ---------- and one answer is enough ----------

  /** A segment's una is taken for what it says. */
  lemma SegmentUna(l: Loop, regular: bool, w: Wire)
    requires StateOk(Exact, l.st) && w.una <= l.st.snd.nxt
    ensures InputSegment(Exact, l, regular, w).st.snd.una >= w.una
  {
    SegmentSlides(Exact, l, regular, w);
    SegmentCounts(Exact, l, regular, w);
    SlidPast(l.st.snd, w.una, Slid(Exact, l.st, w));
  }

  lemma SlidPast(s: Snd, una: int, t: Snd)
    requires |t.buf| <= |s.buf| && Drops(Exact, s, una, t, |s.buf| - |t.buf|) && una <= s.nxt
    ensures t.una >= una
  {}

  lemma {:induction false} LoopUna(l: Loop, regular: bool, ws: seq<Wire>, k: nat)
    requires StateOk(Exact, l.st) && k < |ws| && ws[k].una <= l.st.snd.nxt
    ensures InputSegments(Exact, l, regular, ws).st.snd.una >= ws[k].una
    decreases |ws|
  {
    var t := InputSegment(Exact, l, regular, ws[0]);
    assert StateOk(Exact, t.st) by { InputSegmentKeeps(Exact, l, regular, ws[0]); }
    if k == 0 {
      SegmentUna(l, regular, ws[0]);
      LoopPasses(Exact, t, regular, ws[1..]);
    } else {
      SegmentPasses(Exact, l, regular, ws[0]);
      LoopUna(t, regular, ws[1..], k - 1);
    }
  }

  lemma FlushUna(m: Arith, st: State, ackOnly: bool, clock: nat -> u32)
    ensures Flush(m, st, ackOnly, clock).st.snd.una == st.snd.una
  {}

  lemma DatagramUna(
      m: Arith, st: State, ws: seq<Wire>, regular: bool, ackNoDelay: bool, now: u32, clock: nat -> u32)
    requires st.cfg.mss > 0 && ws != []
    ensures InputDatagram(m, st, ws, regular, ackNoDelay, now, clock).st.snd.una
         == InputSegments(m, Loop(st, false, false, 0), regular, ws).st.snd.una
  {
    var l := InputSegments(m, Loop(st, false, false, 0), regular, ws);
    var t := AfterLoop(m, st.snd.una, l, regular, now);
    FlushUna(m, t, false, clock);
    FlushUna(m, t, true, clock);
  }

  /** snd_una never moves back. */
  lemma ActUna(x: End, y: End, a: Action)
    requires ConnInv(x, y)
    ensures Act(Exact, x, y.net, a).st.snd.una >= x.st.snd.una
  {
    match a
    case SendMessage(msg) =>
    case Deliver(i, regular, ackNoDelay, now, clock) =>
      if i < |y.net| && y.net[i] != [] {
        LoopPasses(Exact, Loop(x.st, false, false, 0), regular, y.net[i]);
        DatagramUna(Exact, x.st, y.net[i], regular, ackNoDelay, now, clock);
      }
    case CallUpdate(now, clock) =>
      FlushUna(Exact, x.st.(timer := Tick(x.st.timer, x.st.cfg.interval, now).0), false, clock);
    case ReadMessage(room) =>
  }

  lemma TrueUna(x: End, y: End, i: nat, k: nat)
    requires ConnInv(x, y) && i < |y.net| && k < |y.net[i]|
    ensures y.net[i][k].una <= y.st.rcv.nxt <= x.st.snd.nxt
  {
    var d := y.net[i];
    assert d in y.net && d[k] in d;
    assert WireOk(y, x, d[k]);
  }

  /** A datagram delivered acknowledges what its segments say. */
  lemma DeliveredAcknowledges(x: End, y: End, a: Action, k: nat)
    requires ConnInv(x, y) && a.Deliver? && a.i < |y.net| && k < |y.net[a.i]|
    ensures Act(Exact, x, y.net, a).st.snd.una >= y.net[a.i][k].una
  {
    var ws := y.net[a.i];
    TrueUna(x, y, a.i, k);
    LoopUna(Loop(x.st, false, false, 0), a.regular, ws, k);
    DatagramUna(Exact, x.st, ws, a.regular, a.ackNoDelay, a.now, a.clock);
  }

  lemma {:induction false} OnceAcknowledged(s: Sys, moves: seq<Move>, j: nat, i: nat, k: nat)
    requires Connected(s) && Delivers(moves, j, i) && i < |s.l.net| && k < |s.l.net[i]|
    ensures Run(Exact, s, moves).r.st.snd.una >= s.l.net[i][k].una
    decreases |moves|
  {
    var t := Run(Exact, s, moves[..|moves|-1]);
    var mv := moves[|moves|-1];
    MovesGoOn(s, moves[..|moves|-1]);
    ConnSymmetric(t.l, t.r);
    if j == |moves| - 1 {
      assert s.l.net[i] == t.l.net[i];
      DeliveredAcknowledges(t.r, t.l, mv.act, k);
    } else {
      assert Delivers(moves[..|moves|-1], j, i);
      OnceAcknowledged(s, moves[..|moves|-1], j, i, k);
      if mv.Right? { ActUna(t.r, t.l, mv.act); }
    }
  }

  /** Every segment of a flush says how far its end has received. */
  lemma UpdateSays(m: Arith, st: State, now: u32, clock: nat -> u32, i: nat)
    requires StateOk(m, st) && FlushNow(st.timer, now) && i < |Update(m, st, now, clock).out|
    ensures var d := Update(m, st, now, clock).out[i]; d != [] && d[0].una == st.rcv.nxt
  {
    var o := Update(m, st, now, clock);
    var st' := st.(timer := o.st.timer);
    UpdateFlushes(m, st, now, clock);
    FlushIsProper(m, st', false, clock);
    FlushEmits(m, st', false, clock);
    var d := o.out[i];
    assert d in o.out && ProperDatagram(st.cfg, d);
    FlattenHas(o.out, d, d[0]);
  }

  lemma StepSays(s: Sys, now: u32, clock: nat -> u32, i: nat)
    requires Connected(s) && FlushNow(s.l.st.timer, now)
    requires |s.l.net| <= i < |Step(Exact, s, Left(CallUpdate(now, clock))).l.net|
    ensures var d := Step(Exact, s, Left(CallUpdate(now, clock))).l.net[i]; d != [] && d[0].una == s.l.st.rcv.nxt
  {
    UpdateSays(Exact, s.l.st, now, clock, i - |s.l.net|);
  }

  /** After a flush of the left end, and any schedule that delivers some one of its datagrams, among whatever
      else: the right end takes everything for acknowledged that the left end had received in order. */
  lemma AnswerArrives(s: Sys, now: u32, clock: nat -> u32, moves: seq<Move>, i: nat)
    requires Connected(s) && FlushNow(s.l.st.timer, now) && IsDelivered(moves, i)
    requires |s.l.net| <= i < |Step(Exact, s, Left(CallUpdate(now, clock))).l.net|
    ensures Run(Exact, Step(Exact, s, Left(CallUpdate(now, clock))), moves).r.st.snd.una >= s.l.st.rcv.nxt
  {
    var j :| Delivers(moves, j, i);
    StepGoesOn(s, Left(CallUpdate(now, clock)));
    StepSays(s, now, clock, i);
    OnceAcknowledged(Step(Exact, s, Left(CallUpdate(now, clock))), moves, j, i, 0);
  }

  /** There is one to deliver if anything awaits its acknowledgement. */
  lemma AnswerIsSent(m: Arith, st: State, now: u32, clock: nat -> u32)
    requires StateOk(m, st) && FlushNow(st.timer, now) && st.acks != []
    ensures Update(m, st, now, clock).out != []
  {
    var o := Update(m, st, now, clock);
    UpdateFlushes(m, st, now, clock);
    LastIsWritten(m, st.(timer := o.st.timer), false, clock);
  }

  // ---------- and then nothing is missing ----------

  /** When all the left end accepted has been numbered, has arrived in order and been read, the right end has
      delivered exactly the messages the left end accepted. */
  lemma NothingMissing(s: Sys)
    requires Connected(s) && s.l.st.snd.queue == []
    requires s.r.st.rcv.nxt == s.l.st.snd.nxt && s.r.st.rcv.queue == []
    ensures s.r.got == s.l.sent
  {
    var mss := s.l.st.cfg.mss;
    var read := CutAll(s.r.got, mss);
    assert read + FragsOf([]) == read;
    assert read == Stream(s.l)[..s.l.st.snd.nxt] == Stream(s.l);
    if |s.r.got| < |s.l.sent| { NextMessage(s.r.got, s.l.sent, mss); }
  }
}
