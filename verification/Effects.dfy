/** What a flush must do, stated of the state before it, the state after it and the segments handed to
    output, with none of the functions that compute it. */
module Effects {
  import opened Words
  import opened Segments
  import opened Sender
  import opened Timing
  import opened Flushing
  import opened Engine
  import opened Invariants

  // ---------- numbering ----------

  /** The i-th segment of the queue, numbered. */
  function Taken(m: Arith, st: State, i: nat): Segment
    requires i < |st.snd.queue|
  {
    st.snd.queue[i].(conv := st.cfg.conv, session := st.cfg.session, cmd := CMD_PUSH, sn := Add(m, st.snd.nxt, i))
  }

  /** The buffer with the first n segments of the queue behind it. */
  function Loaded(m: Arith, st: State, n: nat): (r: seq<Segment>)
    requires n <= |st.snd.queue|
    ensures |r| == |st.snd.buf| + n
  { st.snd.buf + seq(n, i requires 0 <= i < n => Taken(m, st, i)) }

  /** n more segments fill the window, or empty the queue, and do not exceed the window. */
  ghost predicate Fills(st: State, n: nat) {
    var inflight := |st.snd.buf| + n;
    && n <= |st.snd.queue|
    && (|| n == |st.snd.queue| || inflight >= st.cfg.snd_wnd || inflight >= st.rmt_wnd
        || (st.cfg.nocwnd == 0 && inflight >= st.cong.cwnd))
    && (n > 0 ==>
          && inflight <= st.cfg.snd_wnd && inflight <= st.rmt_wnd
          && (st.cfg.nocwnd == 0 ==> inflight <= st.cong.cwnd))
  }

  lemma NumberedIsLoaded(m: Arith, st: State) returns (n: nat)
    requires StateOk(m, st)
    ensures Fills(st, n) && n == NumberCount(st.snd, Window(st))
    ensures NumberedSnd(m, st) == Snd(st.snd.una, Add(m, st.snd.nxt, n), st.snd.queue[n..], Loaded(m, st, n))
  {
    n := NumberCount(st.snd, Window(st));
    var q := st.snd.queue;
    assert NumberedAll(m, q[..n], st.cfg.conv, st.cfg.session, st.snd.nxt)
        == seq(n, i requires 0 <= i < n => Taken(m, st, i));
  }

  // ---------- which segments are sent, and how they are left ----------

  /** Overtaken often enough; or at all, when nothing new is sent.  Without fast resending the limit is the
      largest count there is. */
  predicate Hurried(st: State, seg: Segment, idle: bool) {
    || (st.cfg.fastresend > 0 && seg.fastack >= st.cfg.fastresend) || seg.fastack == 0xffff_ffff
    || (seg.fastack > 0 && idle)
  }

  /** What calls for sending an unacknowledged segment: it is new, or early, or overdue. */
  predicate Due(st: State, seg: Segment, idle: bool, now: u32) {
    !seg.acked && (seg.xmit == 0 || Hurried(st, seg, idle) || ITimeDiff(now, seg.resendts) >= 0)
  }

  /** Its timeout: that of the estimator; for an overdue one, the last one and as much again, or half as
      much in fast mode. */
  function NewTimeout(st: State, seg: Segment, idle: bool): u32 {
    if seg.xmit == 0 || Hurried(st, seg, idle) then st.rtt.rto
    else Wrap32(seg.rto + if st.cfg.nodelay == 0 then st.rtt.rto else st.rtt.rto / 2)
  }

  /** The room in the receive queue. */
  predicate Roomy(st: State) { |st.rcv.queue| <= st.cfg.rcv_wnd < 0x1_0000 }

  function Room(st: State): u16
    requires Roomy(st)
  { st.cfg.rcv_wnd - |st.rcv.queue| }

  /** Judged at now, stamped with the next reading of the clock. */
  function Resent(st: State, seg: Segment, idle: bool, now: u32, reading: u32): Segment
    requires Roomy(st)
  {
    var rto := NewTimeout(st, seg, idle);
    seg.(ts := reading, wnd := Room(st), una := st.rcv.nxt, xmit := Wrap32(seg.xmit + 1),
         fastack := if seg.xmit == 0 then seg.fastack else 0, rto := rto, resendts := Wrap32(now + rto))
  }

  lemma JudgedAs(st: State, seg: Segment, now: u32, reading: u32)
    requires Roomy(st)
    ensures var f := ScanRules(st); var idle := f.added == 0; var why := Why(seg, f, now);
            && (why != No <==> Due(st, seg, idle, now))
            && (why.Timeout? <==> Due(st, seg, idle, now) && seg.xmit != 0 && !Hurried(st, seg, idle))
            && (why.Fast? || why.Early? <==> Due(st, seg, idle, now) && seg.xmit != 0 && Hurried(st, seg, idle))
            && (why != No ==> Rescan(f, seg, now, reading) == Resent(st, seg, idle, now, reading))
  {}

  /** Everything a scan depends on: the state flushed, the buffer scanned, whether nothing new is sent, and
      the readings of the clock. */
  datatype Pass = Pass(st: State, buf: seq<Segment>, idle: bool, clock: nat -> u32) {

    /** The reading by which the k-th segment is judged: the last one taken. */
    function Now(k: nat): u32
      requires k <= |buf|
      decreases k, 0
    { if k == 0 then clock(1) else if Sends(k - 1) then clock(k + 1) else Now(k - 1) }

    predicate Sends(k: nat)
      requires k < |buf|
      decreases k, 1
    { Due(st, buf[k], idle, Now(k)) }

    /** The k-th segment as it is left. */
    function Left(k: nat): Segment
      requires k < |buf| && Roomy(st)
    { if Sends(k) then Resent(st, buf[k], idle, Now(k), clock(k + 2)) else buf[k] }

    /** The data segments of the output, from the first k segments. */
    function Data(k: nat): seq<Wire>
      requires k <= |buf| && Roomy(st)
    { if k == 0 then [] else Data(k - 1) + (if Sends(k - 1) then [Left(k - 1).ToWire()] else []) }

    predicate SendsEarly(k: nat)
      requires k < |buf|
    { Sends(k) && buf[k].xmit != 0 && Hurried(st, buf[k], idle) }

    predicate SendsLate(k: nat)
      requires k < |buf|
    { Sends(k) && buf[k].xmit != 0 && !Hurried(st, buf[k], idle) }

    predicate Dies(k: nat)
      requires k < |buf| && Roomy(st)
    { Sends(k) && Left(k).xmit >= st.cfg.dead_link }

    /** How far ahead its deadline is when the scan has passed it. */
    function Ahead(k: nat): i32
      requires k < |buf| && Roomy(st)
    { ITimeDiff(Left(k).resendts, Now(k + 1)) }

    /** The nearest of the deadlines ahead, and the interval, of the first k segments. */
    ghost predicate Nearest(k: nat, wait: i32)
      requires k <= |buf| && Roomy(st)
    {
      && 0 < wait <= st.cfg.interval
      && (forall j :: 0 <= j < k && !buf[j].acked && Ahead(j) > 0 ==> wait <= Ahead(j))
      && (wait == st.cfg.interval || exists j :: 0 <= j < k && !buf[j].acked && wait == Ahead(j))
    }

    ghost predicate AnyEarly() { exists j :: 0 <= j < |buf| && SendsEarly(j) }

    ghost predicate AnyLate() { exists j :: 0 <= j < |buf| && SendsLate(j) }

    ghost predicate AnyDies()
      requires Roomy(st)
    { exists j :: 0 <= j < |buf| && Dies(j) }

    // what the scan has found when it has passed the first k segments

    ghost predicate Leaves(k: nat, done: seq<Segment>)
      requires k <= |buf| && Roomy(st)
    { |done| == k && forall j :: 0 <= j < k ==> done[j] == Left(j) }

    ghost predicate Flags(k: nat, change: bool, lost: bool, dead: bool)
      requires k <= |buf| && Roomy(st)
    {
      && (change <==> exists j :: 0 <= j < k && SendsEarly(j))
      && (lost <==> exists j :: 0 <= j < k && SendsLate(j))
      && (dead <==> exists j :: 0 <= j < k && Dies(j))
    }
  }

  ghost predicate Follows(p: Pass, k: nat, base: seq<Wire>, s: Scan)
    requires k <= |p.buf| && Roomy(p.st)
  {
    && s.now == p.Now(k) && Sent(s.packer) == base + p.Data(k) && p.Leaves(k, s.done)
    && p.Flags(k, s.change, s.lost, s.dead) && p.Nearest(k, s.wait)
  }

  lemma StepData(p: Pass, k: nat, base: seq<Wire>, s: Scan, t: Scan)
    requires Roomy(p.st) && p.idle == (ScanRules(p.st).added == 0) && k < |p.buf|
    requires s.now == p.Now(k) && Sent(s.packer) == base + p.Data(k) && p.Leaves(k, s.done)
    requires PackerOk(s.packer, p.st.cfg.mtu) && OVERHEAD + |p.buf[k].body.Data()| <= p.st.cfg.mtu
    requires IsStep(ScanRules(p.st), s, p.buf[k], p.clock(k + 2), t)
    ensures t.now == p.Now(k + 1) && Sent(t.packer) == base + p.Data(k + 1) && p.Leaves(k + 1, t.done)
  {
    StepPuts(p, k, s, t);
    LeavesMore(p, k, s.done);
    DataMore(p, k, base);
  }

  lemma LeavesMore(p: Pass, k: nat, done: seq<Segment>)
    requires Roomy(p.st) && k < |p.buf| && p.Leaves(k, done)
    ensures p.Leaves(k + 1, done + [p.Left(k)])
  {}

  lemma DataMore(p: Pass, k: nat, base: seq<Wire>)
    requires Roomy(p.st) && k < |p.buf|
    ensures base + p.Data(k + 1) == if p.Sends(k) then base + p.Data(k) + [p.Left(k).ToWire()] else base + p.Data(k)
  {
    Regroup(base, p.Data(k), if p.Sends(k) then [p.Left(k).ToWire()] else []);
  }

  lemma StepPuts(p: Pass, k: nat, s: Scan, t: Scan)
    requires Roomy(p.st) && p.idle == (ScanRules(p.st).added == 0) && k < |p.buf| && s.now == p.Now(k)
    requires PackerOk(s.packer, p.st.cfg.mtu) && OVERHEAD + |p.buf[k].body.Data()| <= p.st.cfg.mtu
    requires IsStep(ScanRules(p.st), s, p.buf[k], p.clock(k + 2), t)
    ensures t.now == p.Now(k + 1) && t.done == s.done + [p.Left(k)]
    ensures Sent(t.packer) == if p.Sends(k) then Sent(s.packer) + [p.Left(k).ToWire()] else Sent(s.packer)
  {
    var f := ScanRules(p.st);
    var seg, reading := p.buf[k], p.clock(k + 2);
    assert t == ScanStep(f, s, seg, reading);
    JudgedAs(p.st, seg, s.now, reading);
    if p.Sends(k) { PutKeeps(s.packer, Resent(p.st, seg, p.idle, s.now, reading).ToWire(), f.mtu); }
  }

  lemma StepFlags(p: Pass, k: nat, s: Scan, t: Scan)
    requires Roomy(p.st) && p.idle == (ScanRules(p.st).added == 0) && k < |p.buf|
    requires s.now == p.Now(k) && p.Flags(k, s.change, s.lost, s.dead)
    requires IsStep(ScanRules(p.st), s, p.buf[k], p.clock(k + 2), t)
    ensures p.Flags(k + 1, t.change, t.lost, t.dead)
  {
    var f := ScanRules(p.st);
    var seg, reading := p.buf[k], p.clock(k + 2);
    assert t == ScanStep(f, s, seg, reading);
    JudgedAs(p.st, seg, s.now, reading);
    assert t.change == (s.change || p.SendsEarly(k));
    assert t.lost == (s.lost || p.SendsLate(k));
    assert t.dead == (s.dead || p.Dies(k));
  }

  lemma StepWait(p: Pass, k: nat, s: Scan, t: Scan)
    requires Roomy(p.st) && p.idle == (ScanRules(p.st).added == 0) && k < |p.buf|
    requires s.now == p.Now(k) && p.Nearest(k, s.wait)
    requires IsStep(ScanRules(p.st), s, p.buf[k], p.clock(k + 2), t)
    ensures p.Nearest(k + 1, t.wait)
  {
    var f := ScanRules(p.st);
    var seg, reading := p.buf[k], p.clock(k + 2);
    assert t == ScanStep(f, s, seg, reading);
    JudgedAs(p.st, seg, s.now, reading);
    assert t.wait == if seg.acked then s.wait else Nearer(s.wait, p.Left(k).resendts, p.Now(k + 1));
  }

  /** The scan follows the pass. */
  lemma {:induction false} ScanFollows(p: Pass, s0: Scan, k: nat)
    requires p.st.cfg.Ok() && Roomy(p.st) && p.idle == (ScanRules(p.st).added == 0) && k <= |p.buf|
    requires forall j :: 0 <= j < |p.buf| ==> OVERHEAD + |p.buf[j].body.Data()| <= p.st.cfg.mtu
    requires PackerOk(s0.packer, p.st.cfg.mtu)
    requires s0 == ScanStart(s0.packer, p.clock(1), p.st.cfg.interval)
    ensures Follows(p, k, Sent(s0.packer), ScanUpTo(ScanRules(p.st), s0, p.buf, p.clock, k))
    decreases k
  {
    if k == 0 {
      InInt32(p.st.cfg.interval);
      assert Sent(s0.packer) + [] == Sent(s0.packer);
    } else {
      ScanFollows(p, s0, k - 1);
      var f := ScanRules(p.st);
      var s := ScanUpTo(f, s0, p.buf, p.clock, k - 1);
      ScanUpToOk(f, s0, p.buf, p.clock, k - 1);
      PassGoesOn(p, k, Sent(s0.packer), s, ScanUpTo(f, s0, p.buf, p.clock, k));
    }
  }

  lemma PassGoesOn(p: Pass, k: nat, base: seq<Wire>, s: Scan, t: Scan)
    requires Roomy(p.st) && p.idle == (ScanRules(p.st).added == 0) && 0 < k <= |p.buf| && Follows(p, k - 1, base, s)
    requires PackerOk(s.packer, p.st.cfg.mtu) && OVERHEAD + |p.buf[k-1].body.Data()| <= p.st.cfg.mtu
    requires IsStep(ScanRules(p.st), s, p.buf[k-1], p.clock(k + 1), t)
    ensures Follows(p, k, base, t)
  {
    StepData(p, k - 1, base, s, t);
    StepFlags(p, k - 1, s, t);
    StepWait(p, k - 1, s, t);
  }

  // ---------- control segments ----------

  /** A control segment tells what has been received in order, and the room there is. */
  function Header(st: State, cmd: u8, ts: u32, sn: int): Wire
    requires Roomy(st)
  { Wire(st.cfg.conv, st.cfg.session, cmd, 0, Room(st), ts, sn, st.rcv.nxt, []) }

  /** The answers to the first n pending acknowledgements: each with its number and time stamp, except that
      one for a segment below rcv_nxt is left out unless it is the last. */
  function Answers(m: Arith, st: State, n: nat): seq<Wire>
    requires Roomy(st) && n <= |st.acks|
  {
    if n == 0 then []
    else
      var a := st.acks[n-1];
      Answers(m, st, n - 1)
      + (if Diff(m, a.sn, st.rcv.nxt) >= 0 || n == |st.acks| then [Header(st, CMD_ACK, a.ts, a.sn)] else [])
  }

  /** Asking for the peer's window: asked for before, or the wait at a closed window is over. */
  predicate Asking(st: State, now: u32) {
    st.probe.ask || (st.rmt_wnd == 0 && st.probe.wait != 0 && ITimeDiff(now, st.probe.ts) >= 0)
  }

  /** The window probes, WASK and WINS; they repeat the number and time stamp of the last acknowledgement. */
  function Probes(st: State, now: u32): seq<Wire>
    requires Roomy(st)
  {
    var n := |st.acks|;
    var (ts, sn) := if n == 0 then (0, 0) else (st.acks[n-1].ts, st.acks[n-1].sn);
    (if Asking(st, now) then [Header(st, 83, ts, sn)] else [])
    + (if st.probe.tell then [Header(st, 84, ts, sn)] else [])
  }

  /** What the first n acknowledgements make of the packer and the header. */
  ghost predicate Answered(m: Arith, st: State, n: nat, s: AckScan)
    requires Roomy(st) && n <= |st.acks|
  {
    && PackerOk(s.packer, st.cfg.mtu) && Sent(s.packer) == Answers(m, st, n)
    && s.head == Header(st, CMD_ACK, s.head.ts, s.head.sn)
    && (n == 0 ==> s.head.ts == 0 && s.head.sn == 0)
    && (n == |st.acks| > 0 ==> s.head.ts == st.acks[n-1].ts && s.head.sn == st.acks[n-1].sn)
  }

  lemma OneMoreAnswer(m: Arith, st: State, n: nat, s: AckScan, t: AckScan)
    requires st.cfg.Ok() && Roomy(st) && 0 < n <= |st.acks| && Answered(m, st, n - 1, s)
    requires IsAckStep(m, st.acks, st.rcv.nxt, st.cfg.mtu, s, n - 1, t)
    ensures Answered(m, st, n, t)
  {
    var a := st.acks[n-1];
    assert t == AckStep(m, st.acks, st.rcv.nxt, st.cfg.mtu, s, n - 1);
    MakeSpaceKeeps(s.packer, OVERHEAD, st.cfg.mtu);
    AppendKeeps(MakeSpace(s.packer, OVERHEAD, st.cfg.mtu), Header(st, CMD_ACK, a.ts, a.sn), st.cfg.mtu);
  }

  lemma {:induction false} AcksAnswer(m: Arith, st: State, n: nat)
    requires st.cfg.Ok() && Roomy(st) && n <= |st.acks|
    ensures Answered(m, st, n, AcksUpTo(m, st.acks, st.rcv.nxt, st.cfg.mtu, AckHeader(st), n))
    decreases n
  {
    if n == 0 {
      assert AckHeader(st) == Header(st, CMD_ACK, 0, 0);
      assert Sent(Packer([], [])) == [];
    } else {
      AcksAnswer(m, st, n - 1);
      var s := AcksUpTo(m, st.acks, st.rcv.nxt, st.cfg.mtu, AckHeader(st), n - 1);
      OneMoreAnswer(m, st, n, s, AcksUpTo(m, st.acks, st.rcv.nxt, st.cfg.mtu, AckHeader(st), n));
    }
  }

  lemma ProbesFollow(m: Arith, st: State, now: u32)
    requires st.cfg.Ok() && Roomy(st)
    ensures var p := Controls(m, st, ProbeWait(st.probe, st.rmt_wnd, now));
            PackerOk(p, st.cfg.mtu) && Sent(p) == Answers(m, st, |st.acks|) + Probes(st, now)
  {
    AcksAnswer(m, st, |st.acks|);
    var s := FlushAcks(m, st);
    var probe := ProbeWait(st.probe, st.rmt_wnd, now);
    assert probe.ask == Asking(st, now) && probe.tell == st.probe.tell;
    ProbesAre(s.packer, s.head, probe, st.cfg.mtu);
  }

  lemma ProbesAre(p: Packer, head: Wire, probe: Probe, mtu: nat)
    requires PackerOk(p, mtu) && head.Size() <= mtu
    ensures var q := WithProbes(p, head, probe, mtu);
            && PackerOk(q, mtu)
            && Sent(q) == Sent(p) + ((if probe.ask then [head.(cmd := CMD_WASK)] else [])
                                     + (if probe.tell then [head.(cmd := CMD_WINS)] else []))
  {
    var ask, tell := head.(cmd := CMD_WASK), head.(cmd := CMD_WINS);
    MaybePut(p, ask, probe.ask, mtu);
    var asked := if probe.ask then Put(p, ask, mtu) else p;
    MaybePut(asked, tell, probe.tell, mtu);
    Regroup(Sent(p), if probe.ask then [ask] else [], if probe.tell then [tell] else []);
  }

  lemma MaybePut(p: Packer, w: Wire, yes: bool, mtu: nat)
    requires PackerOk(p, mtu) && w.Size() <= mtu
    ensures var q := if yes then Put(p, w, mtu) else p;
            PackerOk(q, mtu) && Sent(q) == Sent(p) + (if yes then [w] else [])
  {
    PutKeeps(p, w, mtu);
  }

  lemma Regroup(a: seq<Wire>, b: seq<Wire>, c: seq<Wire>)
    ensures (a + b) + c == a + (b + c)
  {}

  // ---------- the flush as a whole ----------

  /** Exactly n segments have moved from the queue to the buffer, as many as the window takes. */
  ghost predicate Numbers(m: Arith, st: State, t: State, n: nat) {
    && Fills(st, n)
    && t.snd == Snd(st.snd.una, Add(m, st.snd.nxt, n), st.snd.queue[n..], t.snd.buf)
    && |t.snd.buf| == |st.snd.buf| + n
  }

  /** The pass over the buffer once n segments have been numbered. */
  function PassOf(m: Arith, st: State, n: nat, clock: nat -> u32): Pass
    requires n <= |st.snd.queue|
  { Pass(st, Loaded(m, st, n), n == 0, clock) }

  /** A full flush numbers queued segments, in order, until the window is full or the queue empty. */
  lemma FlushNumbers(m: Arith, st: State, clock: nat -> u32) returns (n: nat)
    requires StateOk(m, st)
    ensures Numbers(m, st, Flush(m, st, false, clock).st, n)
  {
    n := NumberedIsLoaded(m, st);
    FullScanOk(m, st, clock);
  }

  lemma FullScanFollows(m: Arith, st: State, clock: nat -> u32, n: nat)
    requires StateOk(m, st) && Numbers(m, st, Flush(m, st, false, clock).st, n)
    ensures var p := PassOf(m, st, n, clock);
            Follows(p, |p.buf|, Answers(m, st, |st.acks|) + Probes(st, clock(0)), FullScan(m, st, clock))
    ensures PackerOk(FullScan(m, st, clock).packer, st.cfg.mtu)
  {
    assert n == NumberCount(st.snd, Window(st)) && NumberedSnd(m, st).buf == Loaded(m, st, n) by {
      var c := NumberedIsLoaded(m, st);
      FlushIs(m, st, clock);
      FullScanOk(m, st, clock);
    }
    assert AllFit(Loaded(m, st, n), st.cfg.mtu) by { NumberedFits(m, st); }
    LoadedFollows(m, st, clock, n);
    FullScanOk(m, st, clock);
  }

  lemma FlushIs(m: Arith, st: State, clock: nat -> u32)
    ensures var o, s := Flush(m, st, false, clock), FullScan(m, st, clock);
            && o.out == Close(s.packer) && o.ret == s.wait
            && o.st == st.(acks := [], snd := NumberedSnd(m, st).(buf := s.done), dead := st.dead || s.dead,
                           cong := CongAfter(st, NumberedSnd(m, st), s),
                           probe := ProbeWait(st.probe, st.rmt_wnd, clock(0)).(ask := false, tell := false))
  {}

  lemma LoadedFollows(m: Arith, st: State, clock: nat -> u32, n: nat)
    requires st.cfg.Ok() && Roomy(st) && n == NumberCount(st.snd, Window(st))
    requires NumberedSnd(m, st).buf == Loaded(m, st, n) && AllFit(Loaded(m, st, n), st.cfg.mtu)
    ensures var p := PassOf(m, st, n, clock);
            Follows(p, |p.buf|, Answers(m, st, |st.acks|) + Probes(st, clock(0)), FullScan(m, st, clock))
  {
    ProbesFollow(m, st, clock(0));
    EachFitsIn(Loaded(m, st, n), st.cfg.mtu);
    var p := Controls(m, st, ProbeWait(st.probe, st.rmt_wnd, clock(0)));
    var s0 := ScanStart(p, clock(1), st.cfg.interval);
    var pass := PassOf(m, st, n, clock);
    var k := |pass.buf|;
    ScanFollows(pass, s0, k);
    var scan := ScanUpTo(ScanRules(st), s0, pass.buf, clock, k);
    assert scan == FullScan(m, st, clock);
    FollowsAlso(pass, k, Sent(p), scan, Answers(m, st, |st.acks|) + Probes(st, clock(0)), FullScan(m, st, clock));
  }

  lemma FollowsAlso(p: Pass, k: nat, base: seq<Wire>, s: Scan, base': seq<Wire>, s': Scan)
    requires k <= |p.buf| && Roomy(p.st) && Follows(p, k, base, s) && base == base' && s == s'
    ensures Follows(p, k, base', s')
  {}

  /** The output of a full flush, segment by segment: the answers to the pending acknowledgements, the window
      probes, and exactly the segments in flight that are new, overtaken or overdue, in the order of their
      numbers; and how each segment in flight is left. */
  lemma FlushSends(m: Arith, st: State, clock: nat -> u32, n: nat)
    requires StateOk(m, st) && Numbers(m, st, Flush(m, st, false, clock).st, n)
    ensures var o := Flush(m, st, false, clock); var p := PassOf(m, st, n, clock);
            && Flatten(o.out) == Answers(m, st, |st.acks|) + Probes(st, clock(0)) + p.Data(|p.buf|)
            && p.Leaves(|p.buf|, o.st.snd.buf)
  {
    FullScanFollows(m, st, clock, n);
    FlushIs(m, st, clock);
    var p := PassOf(m, st, n, clock);
    Closes(p, Answers(m, st, |st.acks|) + Probes(st, clock(0)), FullScan(m, st, clock));
  }

  lemma Closes(p: Pass, base: seq<Wire>, s: Scan)
    requires Roomy(p.st) && Follows(p, |p.buf|, base, s) && PackerOk(s.packer, p.st.cfg.mtu)
    ensures Flatten(Close(s.packer)) == base + p.Data(|p.buf|) && p.Leaves(|p.buf|, s.done)
  {
    CloseKeeps(s.packer, p.st.cfg.mtu);
  }

  /** And the other kind of flush: the answers alone. */
  lemma AckFlushSends(m: Arith, st: State, clock: nat -> u32)
    requires StateOk(m, st)
    ensures var o := Flush(m, st, true, clock);
            Flatten(o.out) == Answers(m, st, |st.acks|) && o.st == st.(acks := []) && o.ret == st.cfg.interval
  {
    AcksAnswer(m, st, |st.acks|);
    CloseKeeps(FlushAcks(m, st).packer, st.cfg.mtu);
  }

  /** What else a full flush leaves: no acknowledgement pending, no probe called for, a dead mark exactly if
      there was one or a segment has been sent too often; and it returns the time to the nearest deadline. */
  lemma FlushLeavesBehind(m: Arith, st: State, clock: nat -> u32, n: nat)
    requires StateOk(m, st) && Numbers(m, st, Flush(m, st, false, clock).st, n)
    ensures var o := Flush(m, st, false, clock); var p := PassOf(m, st, n, clock);
            && o.st == st.(snd := o.st.snd, acks := [], probe := o.st.probe, cong := o.st.cong, dead := o.st.dead)
            && !o.st.probe.ask && !o.st.probe.tell
            && (o.st.dead <==> st.dead || p.AnyDies())
            && p.Nearest(|p.buf|, o.ret)
  {
    FullScanFollows(m, st, clock, n);
    FlushIs(m, st, clock);
  }

  // ---------- new segments ----------

  lemma {:induction false} NewData(p: Pass, k: nat, n: nat)
    requires Roomy(p.st) && k + n <= |p.buf| && forall i :: k <= i < k + n ==> !p.buf[i].acked && p.buf[i].xmit == 0
    ensures |p.Data(k + n)| == |p.Data(k)| + n
    ensures forall j :: k <= j < k + n ==> p.Data(k + n)[|p.Data(k)| + j - k] == p.Left(j).ToWire()
    decreases n
  {
    if n > 0 {
      NewData(p, k, n - 1);
      assert p.Sends(k + n - 1);
    }
  }

  /** The i-th segment numbered, as it goes out: a PUSH. */
  predicate IsNew(m: Arith, st: State, i: nat, w: Wire)
    requires i < |st.snd.queue|
  {
    && w.cmd == 81 && w.conv == st.cfg.conv && w.session == st.cfg.session
    && w.sn == Add(m, st.snd.nxt, i) && w.frg == st.snd.queue[i].frg && w.data == st.snd.queue[i].body.Data()
  }

  lemma NewWire(m: Arith, st: State, n: nat, clock: nat -> u32, i: nat)
    requires Roomy(st) && i < n <= |st.snd.queue|
    ensures IsNew(m, st, i, PassOf(m, st, n, clock).Left(|st.snd.buf| + i).ToWire())
  {
    assert PassOf(m, st, n, clock).buf[|st.snd.buf| + i] == Taken(m, st, i);
  }

  lemma TailOf(base: seq<Wire>, data: seq<Wire>, n: nat)
    requires n <= |data|
    ensures (base + data)[|base + data| - n..] == data[|data| - n..]
  {}

  lemma NewTail(m: Arith, st: State, n: nat, clock: nat -> u32, i: nat)
    requires Roomy(st) && i < n <= |st.snd.queue|
    requires forall j :: 0 <= j < n ==> !st.snd.queue[j].acked && st.snd.queue[j].xmit == 0
    ensures var p := PassOf(m, st, n, clock); var data := p.Data(|p.buf|);
            n <= |data| && IsNew(m, st, i, data[|data| - n..][i])
  {
    var p := PassOf(m, st, n, clock);
    var k := |st.snd.buf|;
    BehindIsNew(m, st, n);
    NewData(p, k, n);
    NewWire(m, st, n, clock, i);
    assert p.Data(k + n)[|p.Data(k)| + (k + i) - k] == p.Left(k + i).ToWire();
  }

  lemma BehindIsNew(m: Arith, st: State, n: nat)
    requires n <= |st.snd.queue| && forall j :: 0 <= j < n ==> !st.snd.queue[j].acked && st.snd.queue[j].xmit == 0
    ensures var k, buf := |st.snd.buf|, Loaded(m, st, n);
            forall j :: k <= j < k + n ==> !buf[j].acked && buf[j].xmit == 0
  {
    var k, buf := |st.snd.buf|, Loaded(m, st, n);
    forall j | k <= j < k + n ensures !buf[j].acked && buf[j].xmit == 0 { assert buf[j] == Taken(m, st, j - k); }
  }

  lemma QueueIsNew(m: Arith, st: State, n: nat)
    requires StateOk(m, st) && n <= |st.snd.queue|
    ensures forall j :: 0 <= j < n ==> !st.snd.queue[j].acked && st.snd.queue[j].xmit == 0
  {
    forall j | 0 <= j < n ensures !st.snd.queue[j].acked && st.snd.queue[j].xmit == 0 {
      assert Waiting(st.snd.queue[j], st.cfg.mss);
    }
  }

  /** What leaves the queue is the end of the output, in order. */
  lemma FlushSendsNew(m: Arith, st: State, clock: nat -> u32, n: nat, i: nat)
    requires StateOk(m, st) && Numbers(m, st, Flush(m, st, false, clock).st, n) && i < n
    ensures var out := Flatten(Flush(m, st, false, clock).out);
            n <= |out| && IsNew(m, st, i, out[|out| - n..][i])
  {
    var p := PassOf(m, st, n, clock);
    FlushSends(m, st, clock, n);
    QueueIsNew(m, st, n);
    NewTail(m, st, n, clock, i);
    TailOf(Answers(m, st, |st.acks|) + Probes(st, clock(0)), p.Data(|p.buf|), n);
  }

  /** The end of the output is what has been numbered. */
  ghost predicate NewAtEnd(m: Arith, st: State, n: nat, out: seq<Wire>)
    requires n <= |st.snd.queue|
  {
    n <= |out| && var tail := out[|out| - n..]; forall i :: 0 <= i < n ==> IsNew(m, st, i, tail[i])
  }

  lemma FlushSendsAllNew(m: Arith, st: State, clock: nat -> u32, n: nat)
    requires StateOk(m, st) && Numbers(m, st, Flush(m, st, false, clock).st, n)
    ensures NewAtEnd(m, st, n, Flatten(Flush(m, st, false, clock).out))
  {
    var out := Flatten(Flush(m, st, false, clock).out);
    if n > 0 { FlushSendsNew(m, st, clock, n, 0); }
    var tail := out[|out| - n..];
    forall i | 0 <= i < n ensures IsNew(m, st, i, tail[i]) { FlushSendsNew(m, st, clock, n, i); }
  }

  // ---------- the clock at rest ----------

  ghost predicate Steady(clock: nat -> u32, now: u32) { forall i :: clock(i) == now }

  lemma {:induction false} SteadyNow(p: Pass, now: u32, k: nat)
    requires Steady(p.clock, now) && k <= |p.buf|
    ensures p.Now(k) == now
    decreases k
  {
    if k > 0 { SteadyNow(p, now, k - 1); }
  }

  lemma {:induction false} DataFromPass(p: Pass, k: nat, w: Wire)
    requires Roomy(p.st) && k <= |p.buf|
    ensures w in p.Data(k) <==> exists j :: 0 <= j < k && p.Sends(j) && w == p.Left(j).ToWire()
    decreases k
  {
    if k > 0 {
      DataFromPass(p, k - 1, w);
      if w == p.Left(k - 1).ToWire() && p.Sends(k - 1) { assert w in p.Data(k); }
    }
  }

  lemma {:induction false} AnswersAreAcks(m: Arith, st: State, n: nat, w: Wire)
    requires Roomy(st) && n <= |st.acks| && w in Answers(m, st, n)
    ensures w.cmd == CMD_ACK
    decreases n
  {
    if w in Answers(m, st, n - 1) { AnswersAreAcks(m, st, n - 1, w); }
  }

  /** The numbers in flight are all different. */
  lemma LoadedNumbers(m: Arith, st: State, n: nat)
    requires StateOk(m, st) && Fills(st, n)
    ensures var buf := Loaded(m, st, n);
            && (forall k :: 0 <= k < |buf| ==> buf[k].sn == Add(m, st.snd.una, k) && buf[k].cmd == CMD_PUSH)
            && (n > 0 ==> |buf| < 0x1_0000) && |st.snd.buf| < 0x1_0000
  {
    var buf := Loaded(m, st, n);
    forall k | 0 <= k < |buf| ensures buf[k].sn == Add(m, st.snd.una, k) && buf[k].cmd == CMD_PUSH {
      if k < |st.snd.buf| {
        assert InFlight(st.snd.buf[k], st.cfg.mss);
      } else {
        AddAdd(m, st.snd.una, |st.snd.buf|, k - |st.snd.buf|);
      }
    }
  }

  /** In any output that has these data segments behind others: a segment is in it exactly if it is sent. */
  lemma SentIff(p: Pass, base: seq<Wire>, k: nat)
    requires Roomy(p.st) && k < |p.buf| && forall w :: w in base ==> w.cmd != CMD_PUSH
    requires forall j :: 0 <= j < |p.buf| ==> p.buf[j].cmd == CMD_PUSH && (p.buf[j].sn == p.buf[k].sn ==> j == k)
    ensures (exists w :: w in base + p.Data(|p.buf|) && w.cmd == CMD_PUSH && w.sn == p.buf[k].sn) <==> p.Sends(k)
    ensures p.Sends(k) ==> p.Left(k).ToWire() in base + p.Data(|p.buf|)
  {
    var out := base + p.Data(|p.buf|);
    if p.Sends(k) {
      DataFromPass(p, |p.buf|, p.Left(k).ToWire());
      assert p.Left(k).ToWire() in out;
    }
    forall w | w in out && w.cmd == CMD_PUSH && w.sn == p.buf[k].sn ensures p.Sends(k) {
      DataFromPass(p, |p.buf|, w);
    }
  }

  lemma NumbersApart(m: Arith, st: State, n: nat, k: nat)
    requires StateOk(m, st) && Fills(st, n) && k < |st.snd.buf| + n
    ensures var buf := Loaded(m, st, n);
            forall j :: 0 <= j < |buf| ==> buf[j].cmd == CMD_PUSH && (buf[j].sn == buf[k].sn ==> j == k)
  {
    var buf := Loaded(m, st, n);
    LoadedNumbers(m, st, n);
    forall j | 0 <= j < |buf| ensures buf[j].cmd == CMD_PUSH && (buf[j].sn == buf[k].sn ==> j == k) {
      AddsDiff(m, st.snd.una, j, k);
    }
  }

  lemma ControlsAreNoData(m: Arith, st: State, now: u32)
    requires Roomy(st)
    ensures forall w :: w in Answers(m, st, |st.acks|) + Probes(st, now) ==> w.cmd != CMD_PUSH
  {
    forall w | w in Answers(m, st, |st.acks|) + Probes(st, now) ensures w.cmd != CMD_PUSH {
      if w in Answers(m, st, |st.acks|) { AnswersAreAcks(m, st, |st.acks|, w); }
    }
  }

  /** A segment in flight is in the output exactly if it is due. */
  lemma InOutputIff(m: Arith, st: State, clock: nat -> u32, n: nat, k: nat)
    requires StateOk(m, st) && Numbers(m, st, Flush(m, st, false, clock).st, n) && k < |st.snd.buf| + n
    ensures var p := PassOf(m, st, n, clock); var out := Flatten(Flush(m, st, false, clock).out);
            && ((exists w :: w in out && w.cmd == CMD_PUSH && w.sn == p.buf[k].sn) <==> p.Sends(k))
            && (p.Sends(k) ==> p.Left(k).ToWire() in out)
  {
    FlushSends(m, st, clock, n);
    NumbersApart(m, st, n, k);
    ControlsAreNoData(m, st, clock(0));
    SentIff(PassOf(m, st, n, clock), Answers(m, st, |st.acks|) + Probes(st, clock(0)), k);
  }

  // ---------- the congestion window ----------

  /** The congestion window after a full flush: one segment if some segment was overdue, with half the window
      used for a threshold; otherwise, if some was sent early, a threshold of half of what is in flight, and a
      window larger by the fast-resend limit; otherwise as it was, but at least one segment. */
  ghost predicate CwndAfter(st: State, inflight: nat, early: bool, late: bool, c: Cong) {
    if st.cfg.nocwnd != 0 then c == st.cong
    else if late then c == Cong(1, st.cfg.mss, Max(Min(Min(st.cong.cwnd, st.cfg.snd_wnd), st.rmt_wnd) / 2, 2))
    else if early then
      && c.ssthresh == Max(inflight / 2, 2)
      && c.cwnd == (if st.cfg.fastresend > 0 then c.ssthresh + st.cfg.fastresend else c.ssthresh - 1)
      && c.incr == Wrap32(c.cwnd * st.cfg.mss)
    else if st.cong.cwnd == 0 then c == Cong(1, st.cfg.mss, st.cong.ssthresh)
    else c == st.cong
  }

  lemma FlushCwnd(m: Arith, st: State, clock: nat -> u32, n: nat)
    requires StateOk(m, st) && Numbers(m, st, Flush(m, st, false, clock).st, n)
    ensures var p := PassOf(m, st, n, clock);
            CwndAfter(st, |st.snd.buf| + n, p.AnyEarly(), p.AnyLate(), Flush(m, st, false, clock).st.cong)
  {
    var s, scan, c := CwndParts(m, st, clock, n);
    CongIs(st, PassOf(m, st, n, clock), |st.snd.buf| + n, s, scan, c);
  }

  lemma CwndParts(m: Arith, st: State, clock: nat -> u32, n: nat) returns (s: Snd, scan: Scan, c: Cong)
    requires StateOk(m, st) && Numbers(m, st, Flush(m, st, false, clock).st, n)
    ensures var p := PassOf(m, st, n, clock); p.Flags(|p.buf|, scan.change, scan.lost, scan.dead)
    ensures Wrap32(s.nxt - s.una) == |st.snd.buf| + n < 0x1_0000
    ensures c == Flush(m, st, false, clock).st.cong == CongAfter(st, s, scan)
  {
    s, scan, c := NumberedSnd(m, st), FullScan(m, st, clock), Flush(m, st, false, clock).st.cong;
    FullScanFlags(m, st, clock, n);
    CongLeft(m, st, clock);
    InFlightIs(m, st, clock, n);
  }

  lemma FullScanFlags(m: Arith, st: State, clock: nat -> u32, n: nat)
    requires StateOk(m, st) && Numbers(m, st, Flush(m, st, false, clock).st, n)
    ensures var p, s := PassOf(m, st, n, clock), FullScan(m, st, clock); p.Flags(|p.buf|, s.change, s.lost, s.dead)
  {
    FullScanFollows(m, st, clock, n);
  }

  lemma CongLeft(m: Arith, st: State, clock: nat -> u32)
    ensures Flush(m, st, false, clock).st.cong == CongAfter(st, NumberedSnd(m, st), FullScan(m, st, clock))
  {}

  lemma InFlightIs(m: Arith, st: State, clock: nat -> u32, n: nat)
    requires StateOk(m, st) && Numbers(m, st, Flush(m, st, false, clock).st, n)
    ensures var s := NumberedSnd(m, st); Wrap32(s.nxt - s.una) == |st.snd.buf| + n < 0x1_0000
  {
    LoadedNumbers(m, st, n);
    FlushIs(m, st, clock);
    InFlightCount(m, st.snd, |st.snd.buf| + n, NumberedSnd(m, st));
  }

  lemma InFlightCount(m: Arith, s: Snd, count: nat, t: Snd)
    requires t.una == s.una && count < 0x1_0000 && t.nxt == Add(m, Add(m, s.una, |s.buf|), count - |s.buf|)
    ensures Wrap32(t.nxt - t.una) == count
  {
    AddAdd(m, s.una, |s.buf|, count - |s.buf|);
    OffAdd(m, s.una, count);
  }

  lemma CongIs(st: State, p: Pass, count: nat, s: Snd, scan: Scan, c: Cong)
    requires p.st == st && Roomy(st) && Wrap32(s.nxt - s.una) == count < 0x1_0000 && c == CongAfter(st, s, scan)
    requires p.Flags(|p.buf|, scan.change, scan.lost, scan.dead)
    ensures CwndAfter(st, count, p.AnyEarly(), p.AnyLate(), c)
  {
    CongBy(st, count, s, scan);
  }

  lemma CongBy(st: State, count: nat, s: Snd, scan: Scan)
    requires Wrap32(s.nxt - s.una) == count < 0x1_0000
    ensures CwndAfter(st, count, scan.change, scan.lost, CongAfter(st, s, scan))
  {}
}
