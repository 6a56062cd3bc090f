/** What a datagram must do to the control block that receives it, and a read, stated of the states before
    and after, with none of the functions that compute it. */
module Arrivals {
  import opened Words
  import opened Segments
  import opened Sender
  import opened Receiver
  import opened Timing
  import opened Flushing
  import opened BufferPool
  import opened Engine
  import opened Invariants
  import opened Effects

  // ---------- cumulative acknowledgement ----------

  /** Exactly n segments, the longest run at the front with numbers below una, have left the buffer. */
  ghost predicate Drops(m: Arith, s: Snd, una: int, t: Snd, n: nat) {
    && n <= |s.buf| && (forall k :: 0 <= k < n ==> Diff(m, una, s.buf[k].sn) > 0)
    && (n < |s.buf| ==> Diff(m, una, s.buf[n].sn) <= 0)
    && t == Snd(if n < |s.buf| then s.buf[n].sn else s.nxt, s.nxt, s.queue, s.buf[n..])
  }

  lemma UnaDrops(m: Arith, s: Snd, una: int, lim: nat, mss: nat)
    requires SndOk(m, s, lim, mss)
    ensures Drops(m, s, una, ShrinkBuf(ParseUna(m, s, una)), UnaCount(m, s, una))
  {
    var n := UnaCount(m, s, una);
    forall k | 0 <= k < n ensures Diff(m, una, s.buf[k].sn) > 0 { UnaTest(m, s, una, lim, mss, k); }
    if n < |s.buf| { UnaTest(m, s, una, lim, mss, n); }
  }

  // ---------- selective acknowledgement ----------

  /** The n-th segment is acknowledged: it is marked and its body gone; those before it that were sent no
      later than what is acknowledged have been overtaken once more. */
  ghost predicate Marks(s: seq<Segment>, n: nat, ts: u32, t: seq<Segment>) {
    && n < |s| == |t|
    && forall k :: 0 <= k < |s| ==>
         t[k] == if k == n then s[k].(acked := true, body := Nil)
                 else if k < n && ITimeDiff(s[k].ts, ts) <= 0 then s[k].(fastack := Wrap32(s[k].fastack + 1))
                 else s[k]
  }

  lemma AckMarks(m: Arith, s: Snd, sn: int, ts: u32, lim: nat, mss: nat, n: nat)
    requires SndOk(m, s, lim, mss) && n < |s.buf| && s.buf[n].sn == sn
    ensures var t := ParseFastack(m, ParseAck(m, s, sn), sn, ts); t == s.(buf := t.buf) && Marks(s.buf, n, ts, t.buf)
  {
    OffAdd(m, s.una, n);
  }

  lemma AckMisses(m: Arith, s: Snd, sn: int, ts: u32, lim: nat, mss: nat)
    requires SndOk(m, s, lim, mss) && Represented(m, sn) && forall n :: 0 <= n < |s.buf| ==> s.buf[n].sn != sn
    ensures ParseFastack(m, ParseAck(m, s, sn), sn, ts) == s
  {
    AddOff(m, sn, s.una);
  }

  // ---------- data ----------

  predicate InReach(m: Arith, r: Rcv, wnd: nat, sn: int) { Diff(m, sn, Add(m, r.nxt, wnd)) < 0 }

  /** The segment kept for w. */
  predicate Keeps(seg: Segment, w: Wire) {
    seg.sn == w.sn && seg.frg == w.frg && seg.body.Buf? && seg.body.Data() == w.data
  }

  ghost predicate Present(r: Rcv, sn: int) { exists k :: 0 <= k < |r.buf| && r.buf[k].sn == sn }

  /** Data of the window that is not there yet is kept, as seg in the i-th place behind what was read, and no
      other; apart from that segments only move from the buffer to the queue, and rcv_nxt counts them. */
  ghost predicate Takes(m: Arith, r: Rcv, wnd: nat, w: Wire, t: Rcv, i: nat, seg: Segment) {
    var all := r.queue + r.buf;
    && r.queue <= t.queue && t.nxt == Add(m, r.nxt, |t.queue| - |r.queue|)
    && if InReach(m, r, wnd, w.sn) && Diff(m, w.sn, r.nxt) >= 0 && !Present(r, w.sn)
       then |r.queue| <= i <= |all| && Keeps(seg, w) && t.queue + t.buf == all[..i] + [seg] + all[i..]
       else t.queue + t.buf == all
  }

  lemma AdvanceMoves(m: Arith, r: Rcv, wnd: nat)
    ensures var t := Advance(m, r, wnd);
            r.queue <= t.queue && t.nxt == Add(m, r.nxt, |t.queue| - |r.queue|) && t.queue + t.buf == r.queue + r.buf
  {
    var n := Ready(m, r, wnd);
    assert r.queue + r.buf[..n] + r.buf[n..] == r.queue + r.buf;
  }

  lemma NothingMoves(m: Arith, r: Rcv, wnd: nat)
    requires RcvOk(m, r, wnd)
    ensures Advance(m, r, wnd) == r
  {
    AddAdd(m, r.nxt, 0, 0);
    assert Ready(m, r, wnd) == 0;
    assert r.queue + r.buf[..0] == r.queue && r.buf[0..] == r.buf;
  }

  lemma PlacedAmong(q: seq<Segment>, b: seq<Segment>, i: nat, seg: Segment)
    requires i <= |b|
    ensures var all := q + b; q + (b[..i] + [seg] + b[i..]) == all[..|q| + i] + [seg] + all[|q| + i..]
  {
    var all := q + b;
    assert all[..|q| + i] == q + b[..i] && all[|q| + i..] == b[i..];
  }

  lemma DataTaken(m: Arith, r: Rcv, wnd: nat, w: Wire, id: nat) returns (i: nat, seg: Segment)
    requires RcvOk(m, r, wnd)
    ensures Takes(m, r, wnd, w, ParseData(m, r, wnd, Accepted(w, id)), i, seg)
  {
    seg := Accepted(w, id);
    i := |r.queue| + Place(m, r, w.sn);
    RepeatedIffPresent(m, r, w.sn);
    if InWindow(m, r, wnd, w.sn) && !Repeated(m, r, w.sn) {
      NewTakes(m, r, wnd, w, seg);
    } else {
      OldLeft(m, r, wnd, seg);
      OldTakes(m, r, wnd, w, i, seg);
    }
  }

  lemma NewTakes(m: Arith, r: Rcv, wnd: nat, w: Wire, seg: Segment)
    requires InWindow(m, r, wnd, w.sn) && !Repeated(m, r, w.sn) && !Present(r, w.sn) && Keeps(seg, w)
    ensures Takes(m, r, wnd, w, ParseData(m, r, wnd, seg), |r.queue| + Place(m, r, w.sn), seg)
  {
    NewTaken(m, r, wnd, seg);
  }

  lemma OldTakes(m: Arith, r: Rcv, wnd: nat, w: Wire, i: nat, seg: Segment)
    requires (!InWindow(m, r, wnd, w.sn) || Present(r, w.sn)) && r.nxt == Add(m, r.nxt, 0)
    ensures Takes(m, r, wnd, w, r, i, seg)
  {}

  lemma NewTaken(m: Arith, r: Rcv, wnd: nat, seg: Segment)
    requires InWindow(m, r, wnd, seg.sn) && !Repeated(m, r, seg.sn)
    ensures var t, all, i := ParseData(m, r, wnd, seg), r.queue + r.buf, |r.queue| + Place(m, r, seg.sn);
            && r.queue <= t.queue && t.nxt == Add(m, r.nxt, |t.queue| - |r.queue|)
            && t.queue + t.buf == all[..i] + [seg] + all[i..]
  {
    PlacedAmong(r.queue, r.buf, Place(m, r, seg.sn), seg);
    AdvanceMoves(m, Insert(m, r, seg), wnd);
  }

  lemma OldLeft(m: Arith, r: Rcv, wnd: nat, seg: Segment)
    requires RcvOk(m, r, wnd) && (!InWindow(m, r, wnd, seg.sn) || Repeated(m, r, seg.sn))
    ensures ParseData(m, r, wnd, seg) == r && r.nxt == Add(m, r.nxt, 0)
  {
    NothingMoves(m, r, wnd);
  }

  // ---------- one segment ----------

  /** The state when the cumulative acknowledgement of w has been applied. */
  function Slid(m: Arith, st: State, w: Wire): Snd { ShrinkBuf(ParseUna(m, st.snd, w.una)) }

  /** What any segment does to the control block: its window is taken if the datagram is regular; a WASK (83)
      calls for an answer; a PUSH (81) is owed an acknowledgement with its number and time stamp unless it lies
      beyond the window; and nothing but a PUSH changes what has been received. */
  lemma SegmentDoes(m: Arith, l: Loop, regular: bool, w: Wire)
    ensures var st, t := l.st, InputSegment(m, l, regular, w).st;
            && t.rmt_wnd == (if regular then w.wnd else st.rmt_wnd)
            && t.probe == st.probe.(tell := st.probe.tell || w.cmd == 83)
            && t.acks == (if w.cmd == 81 && InReach(m, st.rcv, st.cfg.rcv_wnd, w.sn)
                          then st.acks + [Ack(w.sn, w.ts)] else st.acks)
            && (w.cmd != 81 ==> t.rcv == st.rcv)
            && t.rtt == st.rtt && t.cong == st.cong && t.timer == st.timer && t.dead == st.dead
  {
    var u := AfterUna(m, l.st, regular, w);
    assert u == l.st.(snd := u.snd, pool := u.pool, rmt_wnd := if regular then w.wnd else l.st.rmt_wnd);
    CommandDoes(m, u, w);
  }

  lemma CommandDoes(m: Arith, st: State, w: Wire)
    ensures var t := OnCommand(m, st, w);
            && t == st.(snd := t.snd, rcv := t.rcv, pool := t.pool, acks := t.acks, probe := t.probe)
            && t.probe == st.probe.(tell := st.probe.tell || w.cmd == 83)
            && t.acks == (if w.cmd == 81 && InReach(m, st.rcv, st.cfg.rcv_wnd, w.sn)
                          then st.acks + [Ack(w.sn, w.ts)] else st.acks)
            && (w.cmd != 81 ==> t.rcv == st.rcv)
  {}

  /** Whatever it is, its una acknowledges. */
  lemma SegmentSlides(m: Arith, l: Loop, regular: bool, w: Wire)
    requires StateOk(m, l.st)
    ensures var s := Slid(m, l.st, w);
            |s.buf| <= |l.st.snd.buf| && Drops(m, l.st.snd, w.una, s, |l.st.snd.buf| - |s.buf|)
    ensures w.cmd != CMD_ACK ==> InputSegment(m, l, regular, w).st.snd == Slid(m, l.st, w)
  {
    SlidDrops(m, l.st.snd, w.una, l.st.cfg.snd_wnd, l.st.cfg.mss);
    OnlyAcksMark(m, l, regular, w);
  }

  lemma SlidDrops(m: Arith, s: Snd, una: int, lim: nat, mss: nat)
    requires SndOk(m, s, lim, mss)
    ensures var t := ShrinkBuf(ParseUna(m, s, una)); |t.buf| <= |s.buf| && Drops(m, s, una, t, |s.buf| - |t.buf|)
  {
    UnaDrops(m, s, una, lim, mss);
  }

  lemma OnlyAcksMark(m: Arith, l: Loop, regular: bool, w: Wire)
    ensures w.cmd != CMD_ACK ==> InputSegment(m, l, regular, w).st.snd == Slid(m, l.st, w)
  {}

  /** What an ACK (82) marks, n being the place of the segment it names. */
  lemma AckDoes(m: Arith, l: Loop, regular: bool, w: Wire, n: nat)
    requires StateOk(m, l.st) && w.cmd == 82
    requires var s := Slid(m, l.st, w); n < |s.buf| && s.buf[n].sn == w.sn
    ensures var s, t := Slid(m, l.st, w), InputSegment(m, l, regular, w).st.snd;
            t == s.(buf := t.buf) && Marks(s.buf, n, w.ts, t.buf)
  {
    AckFrontKeeps(m, l.st.snd, w.una, l.st.cfg.snd_wnd, l.st.cfg.mss);
    AckMarks(m, Slid(m, l.st, w), w.sn, w.ts, l.st.cfg.snd_wnd, l.st.cfg.mss, n);
  }

  lemma AckDoesNothing(m: Arith, l: Loop, regular: bool, w: Wire)
    requires StateOk(m, l.st) && w.cmd == 82 && Represented(m, w.sn)
    requires var s := Slid(m, l.st, w); forall n :: 0 <= n < |s.buf| ==> s.buf[n].sn != w.sn
    ensures InputSegment(m, l, regular, w).st.snd == Slid(m, l.st, w)
  {
    AckFrontKeeps(m, l.st.snd, w.una, l.st.cfg.snd_wnd, l.st.cfg.mss);
    AckMisses(m, Slid(m, l.st, w), w.sn, w.ts, l.st.cfg.snd_wnd, l.st.cfg.mss);
  }

  /** What a PUSH leaves in the receiving half. */
  lemma PushDoes(m: Arith, l: Loop, regular: bool, w: Wire) returns (i: nat, seg: Segment)
    requires StateOk(m, l.st) && w.cmd == CMD_PUSH
    ensures Takes(m, l.st.rcv, l.st.cfg.rcv_wnd, w, InputSegment(m, l, regular, w).st.rcv, i, seg)
  {
    i, seg := DataTaken(m, l.st.rcv, l.st.cfg.rcv_wnd, w, GetId(AfterUna(m, l.st, regular, w).pool));
    assert OnPush(m, AfterUna(m, l.st, regular, w), w).rcv == InputSegment(m, l, regular, w).st.rcv;
  }

  // ---------- the loop over a datagram ----------

  lemma {:induction false} LoopSplits(m: Arith, l: Loop, regular: bool, ws: seq<Wire>, i: nat)
    requires i <= |ws|
    ensures InputSegments(m, l, regular, ws)
         == InputSegments(m, InputSegments(m, l, regular, ws[..i]), regular, ws[i..])
    decreases i
  {
    if i > 0 {
      var rest := ws[1..];
      LoopSplits(m, InputSegment(m, l, regular, ws[0]), regular, rest, i - 1);
      assert ws[..i][1..] == rest[..i-1] && ws[i..] == rest[i-1..];
    } else {
      assert ws[..0] == [] && ws[0..] == ws;
    }
  }

  lemma {:induction false} LoopKeepsAcks(m: Arith, l: Loop, regular: bool, ws: seq<Wire>)
    ensures l.st.acks <= InputSegments(m, l, regular, ws).st.acks
    decreases |ws|
  {
    if ws != [] {
      SegmentDoes(m, l, regular, ws[0]);
      LoopKeepsAcks(m, InputSegment(m, l, regular, ws[0]), regular, ws[1..]);
    }
  }

  /** The i-th segment is a PUSH that does not lie beyond the window when its turn comes. */
  predicate IsOwed(m: Arith, l: Loop, regular: bool, ws: seq<Wire>, i: nat)
    requires i < |ws|
  {
    var r := InputSegments(m, l, regular, ws[..i]).st;
    ws[i].cmd == CMD_PUSH && InReach(m, r.rcv, r.cfg.rcv_wnd, ws[i].sn)
  }

  /** When the loop ends its acknowledgement is pending, and the last one if it was the last segment. */
  lemma LoopOwes(m: Arith, l: Loop, regular: bool, ws: seq<Wire>, i: nat)
    requires i < |ws| && IsOwed(m, l, regular, ws, i)
    ensures var acks := InputSegments(m, l, regular, ws).st.acks; var a := Ack(ws[i].sn, ws[i].ts);
            a in acks && (i == |ws| - 1 ==> acks[|acks|-1] == a)
  {
    var before := InputSegments(m, l, regular, ws[..i]);
    var after := InputSegment(m, before, regular, ws[i]);
    LoopSplits(m, l, regular, ws, i);
    SegmentDoes(m, before, regular, ws[i]);
    LoopKeepsAcks(m, after, regular, ws[i..][1..]);
    assert after.st.acks[|before.st.acks|] == Ack(ws[i].sn, ws[i].ts);
    var acks := InputSegments(m, l, regular, ws).st.acks;
    assert acks[|before.st.acks|] == Ack(ws[i].sn, ws[i].ts);
  }

  /** What the loop leaves alone, and how far it has taken acknowledgements: dropped segments are what is
      missing from the buffer, and they are what snd_una has moved by. */
  ghost predicate Passes(m: Arith, a: Loop, b: Loop) {
    var s, t := a.st.snd, b.st.snd;
    && b.st.rtt == a.st.rtt && b.st.cong == a.st.cong && b.st.cfg == a.st.cfg && b.st.timer == a.st.timer
    && |t.buf| <= |s.buf| && t.una == Add(m, s.una, |s.buf| - |t.buf|) && t.nxt == s.nxt && t.queue == s.queue
    && (b.slid <==> a.slid || |t.buf| < |s.buf|)
  }

  lemma SegmentPasses(m: Arith, l: Loop, regular: bool, w: Wire)
    requires StateOk(m, l.st)
    ensures Passes(m, l, InputSegment(m, l, regular, w))
  {
    SegmentDoes(m, l, regular, w);
    SegmentCounts(m, l, regular, w);
    FrontCounts(m, l.st.snd, w.una, l.st.cfg.snd_wnd, l.st.cfg.mss);
  }

  lemma SegmentCounts(m: Arith, l: Loop, regular: bool, w: Wire)
    ensures var s, t := Slid(m, l.st, w), InputSegment(m, l, regular, w);
            && t.st.snd == s.(buf := t.st.snd.buf) && |t.st.snd.buf| == |s.buf|
            && (t.slid <==> l.slid || UnaCount(m, l.st.snd, w.una) > 0)
  {}

  lemma FrontCounts(m: Arith, s: Snd, una: int, lim: nat, mss: nat)
    requires SndOk(m, s, lim, mss)
    ensures var t := ShrinkBuf(ParseUna(m, s, una)); var n := UnaCount(m, s, una);
            |t.buf| == |s.buf| - n && t.una == Add(m, s.una, n) && t.nxt == s.nxt && t.queue == s.queue
  {
    AckFrontKeeps(m, s, una, lim, mss);
  }

  lemma PassesBoth(m: Arith, a: Loop, b: Loop, c: Loop)
    requires Passes(m, a, b) && Passes(m, b, c)
    ensures Passes(m, a, c)
  {
    AddAdd(m, a.st.snd.una, |a.st.snd.buf| - |b.st.snd.buf|, |b.st.snd.buf| - |c.st.snd.buf|);
  }

  lemma {:induction false} LoopPasses(m: Arith, l: Loop, regular: bool, ws: seq<Wire>)
    requires StateOk(m, l.st) && forall k :: 0 <= k < |ws| ==> Represented(m, ws[k].sn)
    ensures Passes(m, l, InputSegments(m, l, regular, ws)) && StateOk(m, InputSegments(m, l, regular, ws).st)
    decreases |ws|
  {
    if ws == [] {
      AddAdd(m, l.st.snd.una, 0, 0);
    } else {
      var t := InputSegment(m, l, regular, ws[0]);
      assert StateOk(m, t.st) by { InputSegmentKeeps(m, l, regular, ws[0]); }
      SegmentPasses(m, l, regular, ws[0]);
      LoopPasses(m, t, regular, ws[1..]);
      PassesBoth(m, l, t, InputSegments(m, t, regular, ws[1..]));
    }
  }

  lemma {:induction false} NoEcho(m: Arith, l: Loop, regular: bool, ws: seq<Wire>)
    requires forall j :: 0 <= j < |ws| ==> ws[j].cmd != CMD_ACK
    ensures var t := InputSegments(m, l, regular, ws); t.acked == l.acked && t.latest == l.latest
    decreases |ws|
  {
    if ws != [] { NoEcho(m, InputSegment(m, l, regular, ws[0]), regular, ws[1..]); }
  }

  /** The time stamp the loop remembers is that of the last ACK. */
  lemma {:induction false} LastEcho(m: Arith, l: Loop, regular: bool, ws: seq<Wire>, k: nat)
    requires k < |ws| && ws[k].cmd == CMD_ACK && forall j :: k < j < |ws| ==> ws[j].cmd != CMD_ACK
    ensures var t := InputSegments(m, l, regular, ws); t.acked && t.latest == ws[k].ts
    decreases |ws|
  {
    var t := InputSegment(m, l, regular, ws[0]);
    if k == 0 {
      NoEcho(m, t, regular, ws[1..]);
    } else {
      LastEcho(m, t, regular, ws[1..], k - 1);
    }
  }

  // ---------- the end of a datagram ----------

  /** What a datagram causes to be sent once its segments have been applied: everything is flushed if segments
      have left the buffer; otherwise the acknowledgements are, if they are to go at once and any is pending;
      otherwise nothing is sent. */
  ghost predicate Concludes(m: Arith, t: State, slid: bool, ackNoDelay: bool, clock: nat -> u32, o: Outcome) {
    o == if slid then Flush(m, t, false, clock).(ret := 0)
         else if ackNoDelay && |t.acks| > 0 then Flush(m, t, true, clock).(ret := 0)
         else Outcome(t, [], 0)
  }

  /** Before that, only the estimator and the congestion window are touched; the window grows if it may and
      segments have left the buffer. */
  ghost predicate Learns(l: State, slid: bool, t: State)
    requires l.cfg.mss > 0
  {
    && t == l.(rtt := t.rtt, cong := t.cong)
    && t.cong == if l.cfg.nocwnd == 0 && slid then OnAck(l.cong, l.cfg.mss, l.rmt_wnd) else l.cong
  }

  lemma FinishConcludes(m: Arith, una: int, l: Loop, regular: bool, ackNoDelay: bool, now: u32, clock: nat -> u32)
    requires l.st.cfg.mss > 0 && (l.slid <==> Diff(m, l.st.snd.una, una) > 0)
    ensures var t := AfterLoop(m, una, l, regular, now);
            && Learns(l.st, l.slid, t)
            && Concludes(m, t, l.slid, ackNoDelay, clock, Finish(m, una, l, regular, ackNoDelay, now, clock))
  {}

  /** The segments leave l, of which the end of the datagram makes t. */
  lemma DatagramConcludes(
      m: Arith, st: State, ws: seq<Wire>, regular: bool, ackNoDelay: bool, now: u32, clock: nat -> u32)
    returns (t: State)
    requires StateOk(m, st) && ws != [] && forall k :: 0 <= k < |ws| ==> Represented(m, ws[k].sn)
    ensures var l := InputSegments(m, Loop(st, false, false, 0), regular, ws).st;
            var slid := |l.snd.buf| < |st.snd.buf|;
            && l.cong == st.cong && StateOk(m, t) && Learns(l, slid, t)
            && Concludes(m, t, slid, ackNoDelay, clock, InputDatagram(m, st, ws, regular, ackNoDelay, now, clock))
  {
    var l0 := Loop(st, false, false, 0);
    LoopPasses(m, l0, regular, ws);
    t := LoopConcludes(m, st, InputSegments(m, l0, regular, ws), regular, ackNoDelay, now, clock);
  }

  lemma LoopConcludes(m: Arith, st: State, l: Loop, regular: bool, ackNoDelay: bool, now: u32, clock: nat -> u32)
    returns (t: State)
    requires StateOk(m, st) && StateOk(m, l.st) && Passes(m, Loop(st, false, false, 0), l)
    ensures var slid := |l.st.snd.buf| < |st.snd.buf|;
            && l.st.cong == st.cong && StateOk(m, t) && Learns(l.st, slid, t)
            && Concludes(m, t, slid, ackNoDelay, clock, Finish(m, st.snd.una, l, regular, ackNoDelay, now, clock))
  {
    t := AfterLoop(m, st.snd.una, l, regular, now);
    AfterLoopKeeps(m, st.snd.una, l, regular, now);
    MovedBy(m, st.snd, l.st.snd, st.cfg.snd_wnd, st.cfg.mss);
    FinishConcludes(m, st.snd.una, l, regular, ackNoDelay, now, clock);
  }

  lemma MovedBy(m: Arith, s: Snd, t: Snd, lim: nat, mss: nat)
    requires SndOk(m, s, lim, mss) && |t.buf| <= |s.buf| && t.una == Add(m, s.una, |s.buf| - |t.buf|)
    ensures Diff(m, t.una, s.una) > 0 <==> |t.buf| < |s.buf|
  {
    AddsDiff(m, s.una, |s.buf| - |t.buf|, 0);
    AddAdd(m, s.una, 0, 0);
  }

  /** The round-trip sample: from the time stamp of the last ACK, if the datagram is regular and the stamp is
      not in the future. */
  lemma DatagramSamples(
      m: Arith, st: State, ws: seq<Wire>, regular: bool, ackNoDelay: bool, now: u32, clock: nat -> u32, k: nat)
    requires StateOk(m, st) && forall j :: 0 <= j < |ws| ==> Represented(m, ws[j].sn)
    requires k < |ws| && ws[k].cmd == CMD_ACK && forall j :: k < j < |ws| ==> ws[j].cmd != CMD_ACK
    ensures InputDatagram(m, st, ws, regular, ackNoDelay, now, clock).st.rtt ==
            if regular && ITimeDiff(now, ws[k].ts) >= 0
            then UpdateAck(st.rtt, ITimeDiff(now, ws[k].ts), st.cfg.interval, st.cfg.minrto) else st.rtt
  {
    var l0 := Loop(st, false, false, 0);
    LoopPasses(m, l0, regular, ws);
    LastEcho(m, l0, regular, ws, k);
    FinishLearns(m, st.snd.una, InputSegments(m, l0, regular, ws), regular, ackNoDelay, now, clock);
  }

  lemma DatagramSamplesNothing(
      m: Arith, st: State, ws: seq<Wire>, regular: bool, ackNoDelay: bool, now: u32, clock: nat -> u32)
    requires StateOk(m, st) && forall j :: 0 <= j < |ws| ==> Represented(m, ws[j].sn) && ws[j].cmd != CMD_ACK
    ensures InputDatagram(m, st, ws, regular, ackNoDelay, now, clock).st.rtt == st.rtt
  {
    var l0 := Loop(st, false, false, 0);
    LoopPasses(m, l0, regular, ws);
    NoEcho(m, l0, regular, ws);
    FinishLearns(m, st.snd.una, InputSegments(m, l0, regular, ws), regular, ackNoDelay, now, clock);
  }

  lemma FinishLearns(m: Arith, una: int, l: Loop, regular: bool, ackNoDelay: bool, now: u32, clock: nat -> u32)
    requires l.st.cfg.mss > 0
    ensures Finish(m, una, l, regular, ackNoDelay, now, clock).st.rtt ==
            if l.acked && regular && ITimeDiff(now, l.latest) >= 0
            then UpdateAck(l.st.rtt, ITimeDiff(now, l.latest), l.st.cfg.interval, l.st.cfg.minrto) else l.st.rtt
  {
    var t := AfterLoop(m, una, l, regular, now);
    FlushKeepsRtt(m, t, false, clock);
    FlushKeepsRtt(m, t, true, clock);
  }

  lemma FlushKeepsRtt(m: Arith, st: State, ackOnly: bool, clock: nat -> u32)
    ensures Flush(m, st, ackOnly, clock).st.rtt == st.rtt
  {}

  // ---------- every data segment is answered ----------

  lemma LastAnswer(m: Arith, st: State)
    requires Roomy(st) && |st.acks| > 0
    ensures var n := |st.acks|; Header(st, CMD_ACK, st.acks[n-1].ts, st.acks[n-1].sn) in Answers(m, st, n)
  {}

  /** The last of the pending acknowledgements is always in the output, with its number and time stamp. */
  lemma LastIsWritten(m: Arith, st: State, ackOnly: bool, clock: nat -> u32)
    requires StateOk(m, st) && |st.acks| > 0
    ensures var n := |st.acks|;
            Header(st, CMD_ACK, st.acks[n-1].ts, st.acks[n-1].sn) in Flatten(Flush(m, st, ackOnly, clock).out)
  {
    LastAnswer(m, st);
    if ackOnly {
      AckFlushSends(m, st, clock);
    } else {
      var n := FlushNumbers(m, st, clock);
      FlushSends(m, st, clock, n);
    }
  }

  /** The output acknowledges a: by name, with its time stamp, or, unless it is to be exact, by a una past it. */
  ghost predicate Answers1(m: Arith, out: seq<Wire>, a: Ack, exact: bool) {
    exists w :: w in out && w.cmd == 82
                && ((w.sn == a.sn && w.ts == a.ts) || (!exact && Diff(m, a.sn, w.una) < 0))
  }

  lemma PendingIsAnswered(m: Arith, st: State, ackOnly: bool, clock: nat -> u32, a: Ack, last: bool)
    requires StateOk(m, st) && a in st.acks && (last ==> st.acks[|st.acks|-1] == a)
    ensures Answers1(m, Flatten(Flush(m, st, ackOnly, clock).out), a, last)
  {
    if last {
      LastIsWritten(m, st, ackOnly, clock);
    } else {
      var i :| 0 <= i < |st.acks| && st.acks[i] == a;
      FilterLosesNothing(m, st, ackOnly, clock, i);
    }
  }

  /** The pending acknowledgement a is written now, or left for the next flush of either kind. */
  ghost predicate IsAnswered(
      m: Arith, o: Outcome, ackOnly: bool, later: nat -> u32, a: Ack, exact: bool)
  {
    if o.st.acks == [] then Answers1(m, Flatten(o.out), a, exact)
    else o.out == [] && Answers1(m, Flatten(Flush(m, o.st, ackOnly, later).out), a, exact)
  }

  lemma ConcludedIsAnswered(
      m: Arith, t: State, slid: bool, ackNoDelay: bool, clock: nat -> u32, o: Outcome,
      ackOnly: bool, later: nat -> u32, a: Ack, last: bool)
    requires StateOk(m, t) && a in t.acks && (last ==> t.acks[|t.acks|-1] == a)
    requires Concludes(m, t, slid, ackNoDelay, clock, o)
    ensures IsAnswered(m, o, ackOnly, later, a, last)
  {
    if slid || ackNoDelay {
      PendingIsAnswered(m, t, !slid, clock, a, last);
      FlushEmptiesAcks(m, t, !slid, clock);
    } else {
      PendingIsAnswered(m, t, ackOnly, later, a, last);
    }
  }

  /** Every PUSH of a datagram that does not lie beyond the window is acknowledged, with its number and time
      stamp if it is the last segment: in what the datagram causes to be sent, or in the next flush. */
  lemma PushIsAnswered(
      m: Arith, st: State, ws: seq<Wire>, regular: bool, ackNoDelay: bool, now: u32, clock: nat -> u32, i: nat,
      ackOnly: bool, later: nat -> u32)
    requires StateOk(m, st) && forall k :: 0 <= k < |ws| ==> Represented(m, ws[k].sn)
    requires i < |ws| && IsOwed(m, Loop(st, false, false, 0), regular, ws, i)
    ensures IsAnswered(m, InputDatagram(m, st, ws, regular, ackNoDelay, now, clock), ackOnly, later,
                       Ack(ws[i].sn, ws[i].ts), i == |ws| - 1)
  {
    var a, last := Ack(ws[i].sn, ws[i].ts), i == |ws| - 1;
    var l := InputSegments(m, Loop(st, false, false, 0), regular, ws).st;
    LoopOwes(m, Loop(st, false, false, 0), regular, ws, i);
    var t := DatagramConcludes(m, st, ws, regular, ackNoDelay, now, clock);
    ConcludedIsAnswered(m, t, |l.snd.buf| < |st.snd.buf|, ackNoDelay, clock,
                        InputDatagram(m, st, ws, regular, ackNoDelay, now, clock), ackOnly, later, a, last);
  }

  lemma FlushEmptiesAcks(m: Arith, st: State, ackOnly: bool, clock: nat -> u32)
    ensures Flush(m, st, ackOnly, clock).st.acks == []
  {}

  // ---------- bytes ----------

  lemma {:induction false} BytesThen(l: Loop, regular: bool, ws: seq<Wire>, tail: seq<byte>)
    requires forall k :: 0 <= k < |ws| ==> Proper(l.st.cfg, ws[k]) && ws[k].Encodable()
    ensures InputBytes(l, regular, EncodeAll(ws) + tail)
         == InputBytes(InputSegments(Wrapping, l, regular, ws), regular, tail)
    decreases |ws|
  {
    if ws == [] {
      assert EncodeAll(ws) + tail == tail;
    } else {
      FirstThen(ws, tail);
      OneThen(l, regular, ws[0], EncodeAll(ws[1..]) + tail);
      BytesThen(InputSegment(Wrapping, l, regular, ws[0]), regular, ws[1..], tail);
    }
  }

  lemma FirstThen(ws: seq<Wire>, tail: seq<byte>)
    requires ws != []
    ensures EncodeAll(ws) + tail == Encode(ws[0]) + (EncodeAll(ws[1..]) + tail)
  {
    assert ws == [ws[0]] + ws[1..];
    EncodeAllFront(ws[0], ws[1..]);
    Reassociate(EncodeAll(ws), Encode(ws[0]), EncodeAll(ws[1..]), tail);
  }

  lemma Reassociate(all: seq<byte>, first: seq<byte>, others: seq<byte>, tail: seq<byte>)
    requires all == first + others
    ensures all + tail == first + (others + tail)
  {}

  lemma OneThen(l: Loop, regular: bool, w: Wire, rest: seq<byte>)
    requires Proper(l.st.cfg, w) && w.Encodable()
    ensures InputBytes(l, regular, Encode(w) + rest)
         == InputBytes(InputSegment(Wrapping, l, regular, w), regular, rest)
  {
    DecodeEncode(w, rest);
    HeaderThenMore(w, w.data, rest);
    HeaderReadsBack(w, Encode(w) + rest, w.data + rest);
  }

  /** Bytes too few for a header end a datagram; anything longer is taken for a header, which has to carry the
      numbers of the connection and of the session, announce no more data than there is, and a known
      command, in this order. */
  function StopsWith(cfg: Config, head: Wire, rest: seq<byte>): int {
    if head.conv != cfg.conv then -1
    else if head.session != cfg.session then -4
    else if |head.data| > |rest| then -2
    else -3
  }

  /** A datagram of proper segments followed by a header that is not acceptable: the segments are applied,
      nothing is sent, and the code says what is wrong with the header. */
  lemma InputStops(
      st: State, ws: seq<Wire>, head: Wire, rest: seq<byte>, regular: bool, ackNoDelay: bool, now: u32,
      clock: nat -> u32)
    requires st.cfg.mss > 0 && head.Encodable()
    requires forall k :: 0 <= k < |ws| ==> Proper(st.cfg, ws[k]) && ws[k].Encodable()
    requires head.conv != st.cfg.conv || head.session != st.cfg.session || |head.data| > |rest|
             || head.cmd !in {81, 82, 83, 84}
    ensures Input(st, EncodeAll(ws) + HeaderThen(head, rest), regular, ackNoDelay, now, clock)
         == Outcome(InputSegments(Wrapping, Loop(st, false, false, 0), regular, ws).st, [],
                    StopsWith(st.cfg, head, rest))
  {
    var b := HeaderThen(head, rest);
    BytesThen(Loop(st, false, false, 0), regular, ws, b);
    HeaderReadsBack(head, b, rest);
    HeadStops(InputSegments(Wrapping, Loop(st, false, false, 0), regular, ws), regular, head, rest);
  }

  lemma HeadStops(l: Loop, regular: bool, head: Wire, rest: seq<byte>)
    requires head.Encodable()
    requires head.conv != l.st.cfg.conv || head.session != l.st.cfg.session || |head.data| > |rest|
             || head.cmd !in {81, 82, 83, 84}
    ensures InputBytes(l, regular, HeaderThen(head, rest)) == (l, StopsWith(l.st.cfg, head, rest))
  {
    HeaderReadsBack(head, HeaderThen(head, rest), rest);
  }

  /** Bytes too few for a header are an error by themselves, and are ignored behind segments. */
  lemma InputIgnores(
      st: State, ws: seq<Wire>, tail: seq<byte>, regular: bool, ackNoDelay: bool, now: u32, clock: nat -> u32)
    requires st.cfg.mss > 0 && |tail| < 28
    requires forall k :: 0 <= k < |ws| ==> Proper(st.cfg, ws[k]) && ws[k].Encodable()
    ensures Input(st, EncodeAll(ws) + tail, regular, ackNoDelay, now, clock)
         == if ws == [] then Outcome(st, [], -1) else InputDatagram(Wrapping, st, ws, regular, ackNoDelay, now, clock)
  {
    BytesThen(Loop(st, false, false, 0), regular, ws, tail);
    EncodeAllSize(ws);
  }

  // ---------- reads ----------

  /** A read either fails, with -1 while the next message is not complete and -2 if there is no room for it,
      and then changes nothing; or it takes the n segments of a message off the queue.  What is ready moves
      up; and if the queue was full and is not any more, the peer is to be told. */
  lemma ReadDoes(m: Arith, st: State, room: nat) returns (n: nat)
    requires StateOk(m, st)
    ensures var (t, code, data) := Receive(m, st, room); var q, u := st.rcv.queue, t.rcv;
            && n <= |q| && (code == -1 <==> q == [] || (q[0].frg >= |q| && q[0].frg != 255))
            && (code < 0 ==> code >= -2 && t == st && data == [])
            && (code >= 0 ==>
                  && 0 < n && (forall k :: 0 <= k < n - 1 ==> q[k].frg != 0) && (n < |q| ==> q[n-1].frg == 0)
                  && code == |data| <= room && data == Joined(q[..n])
                  && t == st.(rcv := u, probe := t.probe, pool := t.pool)
                  && q[n..] <= u.queue && u.queue + u.buf == q[n..] + st.rcv.buf
                  && u.nxt == Add(m, st.rcv.nxt, |u.queue| - |q[n..]|)
                  && t.probe == st.probe.(tell := st.probe.tell || |u.queue| < st.cfg.rcv_wnd == |q|))
            && (code == -2 ==> |Joined(q[..n])| > room)
  {
    n := Front(st.rcv.queue);
    AdvanceMoves(m, Rest(st.rcv), st.cfg.rcv_wnd);
  }
}
