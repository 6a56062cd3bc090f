/** The control block as the program keeps it: fields updated in place, a fixed send buffer, uint32
    arithmetic.  Each method is proved to do to the fields what the operation of Engine does to the
    value they represent, and to keep Valid() for whatever bytes come in. */
module ControlBlocks {
  import opened Words
  import opened Segments
  import opened Sender
  import opened Receiver
  import opened Timing
  import opened Flushing
  import opened BufferPool
  import opened Engine
  import opened Invariants

  function DefaultConfig(convID: u32, sessionID: u32): Config {
    Config(convID, sessionID, 1400, 1400 - OVERHEAD, 32, 32, 100, 0, 100, 0, 0, 20)
  }

  /** What follows the control segments p in a full flush of st: its scan, and what it leaves of the sending
      half, the congestion window and the dead mark. */
  ghost predicate IsRest(st: State, clock: nat -> u32, p: Packer, scan: Scan, s: Snd, c: Cong, dead: bool) {
    && IsScan(ScanRules(st), ScanStart(p, clock(1), st.cfg.interval), NumberedSnd(Wrapping, st).buf, clock, scan)
    && s == NumberedSnd(Wrapping, st).(buf := scan.done)
    && IsCongAfter(st, NumberedSnd(Wrapping, st), scan, c)
    && dead == (st.dead || scan.dead)
  }

  // In a form the verifier looks into only on demand: s and r are in order; w fits a packet buffer if it
  // needs one; seg lies below una or not.

  ghost predicate IsBelow(una: u32, seg: Segment, below: bool) {
    forall x: Segment {:trigger ITimeDiff(una, x.sn)} :: x == seg ==> (ITimeDiff(una, x.sn) > 0 <==> below)
  }

  ghost predicate OkSnd(s: Snd, lim: nat, mss: nat) {
    forall x: Snd {:trigger SndOk(Wrapping, x, lim, mss)} :: x == s ==> SndOk(Wrapping, x, lim, mss)
  }

  ghost predicate OkRcv(r: Rcv, wnd: nat) {
    forall x: Rcv {:trigger RcvOk(Wrapping, x, wnd)} :: x == r ==> RcvOk(Wrapping, x, wnd)
  }

  ghost predicate IsStorable(r: Rcv, wnd: nat, w: Wire) {
    forall d: Wire {:trigger Storable(Wrapping, r, wnd, d)} :: d == w ==> Storable(Wrapping, r, wnd, d)
  }

  ghost predicate BodiesFit(q: seq<Segment>, mss: int) { forall k :: 0 <= k < |q| ==> |q[k].body.Data()| <= mss }

  /** Datagrams of mtu bytes carry what is queued and what is in flight. */
  ghost predicate MtuFits(queue: seq<Segment>, buf: seq<Segment>, mtu: int) {
    mtu < 50 || (mtu <= MAX_MTU + OVERHEAD && BodiesFit(queue, mtu - OVERHEAD) && BodiesFit(buf, mtu - OVERHEAD))
  }

  lemma MtuKeeps(st: State, t: State)
    requires StateOk(Wrapping, st) && t == st.(cfg := st.cfg.(mtu := t.cfg.mtu, mss := t.cfg.mss)) && 50 <= t.cfg.mtu
    requires t.cfg.mss == t.cfg.mtu - OVERHEAD
    ensures StateOk(Wrapping, t) <==> MtuFits(st.snd.queue, st.snd.buf, t.cfg.mtu)
  {
    var mss := t.cfg.mss;
    if StateOk(Wrapping, t) {
      forall k | 0 <= k < |st.snd.queue| ensures |st.snd.queue[k].body.Data()| <= mss {
        assert Waiting(t.snd.queue[k], mss);
      }
      forall k | 0 <= k < |st.snd.buf| ensures |st.snd.buf[k].body.Data()| <= mss {
        assert InFlight(t.snd.buf[k], mss);
      }
    }
    if MtuFits(st.snd.queue, st.snd.buf, t.cfg.mtu) {
      forall k | 0 <= k < |st.snd.queue| ensures Waiting(t.snd.queue[k], mss) {
        assert Waiting(st.snd.queue[k], st.cfg.mss);
      }
      forall k | 0 <= k < |st.snd.buf| ensures InFlight(t.snd.buf[k], mss) {
        assert InFlight(st.snd.buf[k], st.cfg.mss);
      }
    }
  }

  /** Shifts what comes after the first n elements to the front of the array they share; newn: how many. */
  method ShiftFront<T>(a: array<T>, n: nat) returns (newn: nat)
    requires n <= a.Length
    modifies a
    ensures newn == a.Length - n && a[..newn] == old(a[n..])
  {
    ghost var was := a[..];
    newn := a.Length - n;
    for i := 0 to newn
      invariant forall k :: 0 <= k < i ==> a[k] == was[n + k]
      invariant forall k :: i <= k < a.Length ==> a[k] == was[k]
    {
      a[i] := a[n + i];
    }
    assert a[..newn] == was[n..];
  }

  class ControlBlock {
    // Fields that change together are kept in one record:
    // cfg: conv, session, mtu, mss, the windows, interval, nodelay, rx_minrto, fastresend, nocwnd, dead_link;
    // rtt: rx_srtt, rx_rttvar, rx_rto; cong: cwnd, incr, ssthresh;
    // probe: its two flags, ts_probe, probe_wait; timer: updated, ts_flush.
    var cfg: Config
    var rtt: Rtt
    var cong: Cong
    var probe: Probe
    var timer: Timer
    var dead: bool
    var snd_una: u32
    var snd_nxt: u32
    var rcv_nxt: u32
    var rmt_wnd: u32

    var snd_queue: seq<Segment>
    var rcv_queue: seq<Segment>
    var snd_buf: seq<Segment>
    var rcv_buf: seq<Segment>
    var acklist: seq<Ack>

    var buffer: array<byte>
    // the pool of packet buffers, and everything handed to the output function so far
    var pool: Pool
    var output: seq<seq<byte>>

    // ---------- the value the fields represent ----------

    ghost function SndView(): Snd
      reads `snd_una, `snd_nxt, `snd_queue, `snd_buf
    { Snd(snd_una, snd_nxt, snd_queue, snd_buf) }

    ghost function RcvView(): Rcv
      reads `rcv_nxt, `rcv_queue, `rcv_buf
    { Rcv(rcv_nxt, rcv_queue, rcv_buf) }

    ghost function View(): State
      reads this
    {
      State(cfg, SndView(), RcvView(), acklist, rmt_wnd, rtt, cong, probe, timer, dead, pool)
    }

    ghost predicate Valid()
      reads this
    { StateOk(Wrapping, View()) && buffer.Length == cfg.mtu }

    // ---------- construction and settings ----------

    constructor (convID: u32, sessionID: u32, pick: nat -> nat)
      ensures Valid() && View() == Fresh(DefaultConfig(convID, sessionID), pick)
      ensures cfg == Config(convID, sessionID, 1400, 1372, 32, 32, 100, 0, 100, 0, 0, 20)
      ensures rmt_wnd == 32 && rtt == Rtt(0, 0, 200) && cong == Cong(0, 0, 2)
      ensures snd_una == snd_nxt == rcv_nxt == 0 && snd_queue == snd_buf == rcv_queue == rcv_buf == []
      ensures acklist == [] && !probe.ask && !probe.tell && probe.wait == 0 && !timer.updated && !dead
      ensures output == [] && fresh(buffer)
    {
      cfg := DefaultConfig(convID, sessionID);
      rmt_wnd := 32;
      buffer := new byte[1400];
      rtt, cong := Rtt(0, 0, 200), Cong(0, 0, THRESH_MIN);
      probe, timer := Probe(false, false, 0, 0), Timer(false, 100);
      dead := false;
      snd_una, snd_nxt, rcv_nxt := 0, 0, 0;
      snd_queue, rcv_queue, snd_buf, rcv_buf, acklist := [], [], [], [], [];
      pool := Pool(pick, multiset{}, 0, 0);
      output := [];
    }

    /** Refuses fewer than 50 bytes; otherwise replaces the send buffer, and keeps the block in order exactly
        if the bodies fit a packet buffer, those in the queues included. */
    method SetMtu(mtu: int) returns (code: int)
      requires Valid()
      modifies `cfg, `buffer
      ensures code == (if mtu < 50 then -1 else 0)
      ensures cfg == if mtu < 50 then old(cfg)
                     else old(cfg).(mtu := Wrap32(mtu), mss := Wrap32(Wrap32(mtu) - OVERHEAD))
      ensures if mtu < 50 then buffer == old(buffer) else fresh(buffer) && buffer.Length == mtu
      ensures Valid() <==> MtuFits(snd_queue, snd_buf, mtu)
    {
      if mtu < 50 { return -1; }
      cfg := cfg.(mtu := Wrap32(mtu), mss := Wrap32(Wrap32(mtu) - OVERHEAD));
      buffer := new byte[mtu];
      if mtu < M32 { MtuKeeps(old(View()), View()); }
      return 0;
    }

    /** A negative argument leaves its setting alone; a positive first one selects the fast mode, with timeouts
        from 30 instead of 100 on; and the interval is kept between 10 and 5000. */
    method NoDelay(nodelay: i32, interval: i32, resend: i32, nc: i32)
      requires Valid()
      modifies `cfg
      ensures cfg == old(cfg).(nodelay := cfg.nodelay, minrto := cfg.minrto, interval := cfg.interval,
                               fastresend := cfg.fastresend, nocwnd := cfg.nocwnd)
      ensures nodelay < 0 ==> cfg.nodelay == old(cfg.nodelay) && cfg.minrto == old(cfg.minrto)
      ensures nodelay >= 0 ==> cfg.nodelay == nodelay && cfg.minrto == if nodelay > 0 then 30 else 100
      ensures cfg.interval == if interval < 0 then old(cfg.interval)
                              else if interval < 10 then 10 else if interval > 5000 then 5000 else interval
      ensures cfg.fastresend == if resend < 0 then old(cfg.fastresend) else resend
      ensures cfg.nocwnd == if nc < 0 then old(cfg.nocwnd) else nc
      ensures rtt.rto >= 100 ==> Valid()
    {
      if nodelay >= 0 {
        cfg := cfg.(nodelay := nodelay, minrto := if nodelay != 0 then 30 else 100);
      }
      if interval >= 0 {
        cfg := cfg.(interval := if interval > 5000 then 5000 else if interval < 10 then 10 else interval);
      }
      if resend >= 0 { cfg := cfg.(fastresend := resend); }
      if nc >= 0 { cfg := cfg.(nocwnd := nc); }
    }

    /** Only positive sizes are taken.  A block without buffered segments stays in order if what is in flight
        and in the receive queue still fits, and the sizes fit the window field. */
    method WndSize(sndwnd: int, rcvwnd: int)
      requires Valid()
      modifies `cfg
      ensures cfg == old(cfg).(snd_wnd := if sndwnd > 0 then Wrap32(sndwnd) else old(cfg).snd_wnd,
                               rcv_wnd := if rcvwnd > 0 then Wrap32(rcvwnd) else old(cfg).rcv_wnd)
      ensures sndwnd < 0x1_0000 && rcvwnd < 0x1_0000 && |snd_buf| <= cfg.snd_wnd && |rcv_queue| <= cfg.rcv_wnd
              && rcv_buf == []
              ==> Valid()
    {
      if sndwnd > 0 { cfg := cfg.(snd_wnd := Wrap32(sndwnd)); }
      if rcvwnd > 0 { cfg := cfg.(rcv_wnd := Wrap32(rcvwnd)); }
    }

    // ---------- packet buffers ----------

    method NewBuffer() returns (id: nat)
      modifies `pool
      ensures id == GetId(old(pool)) && pool == Get(old(pool))
    {
      id := pool.pick(pool.gets);
      if id in pool.free {
        pool := pool.(free := pool.free - multiset{id}, gets := pool.gets + 1);
      } else {
        id := pool.made;
        pool := pool.(made := pool.made + 1, gets := pool.gets + 1);
      }
    }

    /** Returns the segment's buffer to the pool, once. */
    method DelSegment(seg: Segment) returns (freed: Segment)
      modifies `pool
      ensures freed == seg.(body := Nil) && pool == Release(old(pool), [seg])
    {
      IdsOne(seg);
      freed := seg;
      if seg.body != Nil {
        pool := pool.(free := pool.free + multiset{seg.body.id});
        freed := seg.(body := Nil);
      }
    }

    /** Drops the first n elements of a slice with some spare capacity: by shifting the others if that is more
        than half of the capacity, otherwise by slicing. */
    method RemoveFront(q: seq<Segment>, n: nat) returns (r: seq<Segment>)
      requires n <= |q|
      ensures r == q[n..]
    {
      var spare: nat := *;
      if n > (|q| + spare) / 2 {
        var a := new Segment[|q|](i requires 0 <= i < |q| => q[i]);
        assert a[..] == q;
        var newn := ShiftFront(a, n);
        r := a[..newn];
      } else {
        r := q[n..];
      }
    }

    // ---------- acknowledgements ----------

    method ShrinkBuf()
      requires forall k :: 0 <= k < |snd_buf| ==> 0 <= snd_buf[k].sn < M32
      modifies `snd_una
      ensures SndView() == Sender.ShrinkBuf(old(SndView()))
    {
      if |snd_buf| > 0 {
        snd_una := snd_buf[0].sn;
      } else {
        snd_una := snd_nxt;
      }
    }

    /** The first count segments of s have been released, pool0 being the pool before. */
    ghost predicate Dropping(s: Snd, count: nat, pool0: Pool)
      reads `snd_buf, `pool
    {
      && count <= |snd_buf| == |s.buf| && snd_buf[count..] == s.buf[count..]
      && pool == Release(pool0, s.buf[..count])
    }

    /** Releases one segment more. */
    method DropOne(count: nat, ghost s: Snd, ghost pool0: Pool)
      requires count < |s.buf| && Dropping(s, count, pool0)
      modifies `snd_buf, `pool
      ensures Dropping(s, count + 1, pool0)
    {
      var seg := snd_buf[count];
      RestStays(snd_buf, s.buf, count, seg.(body := Nil));
      var freed := DelSegment(seg);
      snd_buf := snd_buf[count := freed];
      ReleaseOneMore(pool0, s.buf, count);
    }

    method ParseUna(una: u32) returns (count: nat)
      requires OkSnd(SndView(), cfg.snd_wnd, cfg.mss)
      modifies `snd_buf, `pool
      ensures count == UnaCount(Wrapping, old(SndView()), una)
      ensures SndView() == Sender.ParseUna(Wrapping, old(SndView()), una)
      ensures pool == Release(old(pool), old(snd_buf)[..count])
    {
      ghost var s := SndView();
      UnaSteps(s, una, cfg.snd_wnd, cfg.mss);
      count := DropBelow(una, s, UnaCount(Wrapping, s, una), pool);
      if count > 0 {
        snd_buf := RemoveFront(snd_buf, count);
      }
    }

    /** The loop of ParseUna; n: how many segments lie below una. */
    method DropBelow(una: u32, ghost s: Snd, ghost n: nat, ghost pool0: Pool) returns (count: nat)
      requires n <= |s.buf| && forall k :: 0 <= k <= n && k < |s.buf| ==> IsBelow(una, s.buf[k], k < n)
      requires Dropping(s, 0, pool0)
      modifies `snd_buf, `pool
      ensures count == n && Dropping(s, n, pool0)
    {
      count := 0;
      while count < |snd_buf|
        invariant count <= n && Dropping(s, count, pool0)
      {
        RestStays(snd_buf, s.buf, count, snd_buf[count]);
        assert IsBelow(una, s.buf[count], count < n);
        if ITimeDiff(una, snd_buf[count].sn) <= 0 { break; }
        DropOne(count, s, pool0);
        count := count + 1;
      }
    }

    static lemma UnaSteps(s: Snd, una: u32, lim: nat, mss: nat)
      requires OkSnd(s, lim, mss)
      ensures var n := UnaCount(Wrapping, s, una);
              forall k :: 0 <= k <= n && k < |s.buf| ==> IsBelow(una, s.buf[k], k < n)
    {
      assert SndOk(Wrapping, s, lim, mss);
      var n := UnaCount(Wrapping, s, una);
      forall k | 0 <= k <= n && k < |s.buf| ensures IsBelow(una, s.buf[k], k < n) {
        UnaTest(Wrapping, s, una, lim, mss, k);
      }
    }

    method ParseAck(sn: u32)
      requires SndOk(Wrapping, SndView(), cfg.snd_wnd, cfg.mss)
      modifies `snd_buf, `pool
      ensures SndView() == Sender.ParseAck(Wrapping, old(SndView()), sn)
      ensures pool == Release(old(pool), Named(Wrapping, old(SndView()), sn))
    {
      ghost var s := SndView();
      WindowTest(Wrapping, sn, snd_una, |snd_buf|);
      if ITimeDiff(sn, snd_una) < 0 || ITimeDiff(sn, snd_nxt) >= 0 { return; }
      ghost var n := Off(Wrapping, sn, snd_una);
      var k := 0;
      while k < |snd_buf|
        invariant k <= n && snd_buf == s.buf && pool == old(pool)
      {
        AckTest(Wrapping, s, sn, cfg.snd_wnd, cfg.mss, k);
        if sn == snd_buf[k].sn {
          var freed := DelSegment(snd_buf[k]);
          snd_buf := snd_buf[k := freed.(acked := true)];
          break;
        }
        if ITimeDiff(sn, snd_buf[k].sn) < 0 { break; }
        k := k + 1;
      }
    }

    method ParseFastack(sn: u32, ts: u32)
      requires SndOk(Wrapping, SndView(), cfg.snd_wnd, cfg.mss)
      modifies `snd_buf
      ensures SndView() == Sender.ParseFastack(Wrapping, old(SndView()), sn, ts)
    {
      ghost var s := SndView();
      WindowTest(Wrapping, sn, snd_una, |snd_buf|);
      if ITimeDiff(sn, snd_una) < 0 || ITimeDiff(sn, snd_nxt) >= 0 { return; }
      ghost var n := Off(Wrapping, sn, snd_una);
      var k := 0;
      while k < |snd_buf|
        invariant k <= |snd_buf| == |s.buf| && k <= n + 1
        invariant forall i :: 0 <= i < |snd_buf| ==>
                    snd_buf[i] == if i < k && i < n then Overtaken(s.buf[i], ts) else s.buf[i]
      {
        AckTest(Wrapping, s, sn, cfg.snd_wnd, cfg.mss, k);
        var seg := snd_buf[k];
        if ITimeDiff(sn, seg.sn) < 0 {
          break;
        } else if sn != seg.sn && ITimeDiff(seg.ts, ts) <= 0 {
          snd_buf := snd_buf[k := seg.(fastack := Wrap32(seg.fastack + 1))];
        }
        k := k + 1;
      }
      assert snd_buf == Sender.ParseFastack(Wrapping, s, sn, ts).buf;
    }

    method AckPush(sn: u32, ts: u32)
      modifies `acklist
      ensures acklist == old(acklist) + [Ack(sn, ts)]
    {
      acklist := acklist + [Ack(sn, ts)];
    }

    // ---------- receiving ----------

    /** Where in the reorder buffer a number of the window belongs, scanning from the back. */
    method Locate(sn: u32) returns (repeat: bool, insert_idx: nat)
      requires RcvOk(Wrapping, RcvView(), cfg.rcv_wnd) && InWindow(Wrapping, RcvView(), cfg.rcv_wnd, sn)
      ensures insert_idx <= |rcv_buf|
      ensures repeat <==> Repeated(Wrapping, RcvView(), sn)
      ensures !repeat ==> insert_idx == Place(Wrapping, RcvView(), sn)
    {
      ghost var o := Off(Wrapping, sn, rcv_nxt);
      WindowTest(Wrapping, sn, rcv_nxt, cfg.rcv_wnd);
      insert_idx, repeat := 0, false;
      var i := |rcv_buf|;
      while i > 0
        invariant 0 <= i <= |rcv_buf| && insert_idx == 0 && !repeat
        invariant i < |rcv_buf| ==> Off(Wrapping, rcv_buf[i].sn, rcv_nxt) > o
      {
        i := i - 1;
        ScanTest(Wrapping, RcvView(), cfg.rcv_wnd, sn, i);
        if rcv_buf[i].sn == sn {
          RankIsOff(Wrapping, rcv_buf, rcv_nxt, i);
          return true, 0;
        }
        if ITimeDiff(sn, rcv_buf[i].sn) > 0 {
          SortedBelow(Wrapping, rcv_nxt, rcv_buf, i, o);
          RankIs(Wrapping, rcv_buf, rcv_nxt, o, i + 1);
          return false, i + 1;
        }
      }
      RankIs(Wrapping, rcv_buf, rcv_nxt, o, 0);
    }

    /** Moves what is ready from the reorder buffer to the queue. */
    method MoveReady()
      requires |rcv_queue| <= cfg.rcv_wnd
      modifies `rcv_nxt, `rcv_queue, `rcv_buf
      ensures IsAdvance(Wrapping, old(RcvView()), cfg.rcv_wnd, RcvView())
    {
      ghost var r := RcvView();
      ghost var n := Ready(Wrapping, r, cfg.rcv_wnd);
      var count := 0;
      while count < |rcv_buf|
        invariant count <= n && rcv_nxt == Add(Wrapping, r.nxt, count)
        invariant rcv_buf == r.buf && rcv_queue == r.queue
        invariant ReadyFrom(Wrapping, r.buf, r.nxt, cfg.rcv_wnd - |r.queue|, count) == n
      {
        if rcv_buf[count].sn == rcv_nxt && |rcv_queue| + count < cfg.rcv_wnd {
          AddAdd(Wrapping, r.nxt, count, 1);
          rcv_nxt := Wrap32(rcv_nxt + 1);
          count := count + 1;
        } else {
          break;
        }
      }
      assert count == n;
      if count > 0 {
        rcv_queue := rcv_queue + rcv_buf[..count];
        rcv_buf := RemoveFront(rcv_buf, count);
      }
      assert n == 0 ==> r.buf[n..] == r.buf && r.queue + r.buf[..n] == r.queue;
    }

    /** Takes a data segment, copying its data into a buffer of the pool if it is new. */
    method ParseData(w: Wire) returns (repeat: bool)
      requires OkRcv(RcvView(), cfg.rcv_wnd) && 0 <= w.sn < M32
      requires w.cmd == CMD_PUSH && IsStorable(RcvView(), cfg.rcv_wnd, w)
      modifies `rcv_nxt, `rcv_queue, `rcv_buf, `pool
      ensures RcvView() == Receiver.ParseData(Wrapping, old(RcvView()), cfg.rcv_wnd, Accepted(w, GetId(old(pool))))
      ensures repeat
              == (!InWindow(Wrapping, old(RcvView()), cfg.rcv_wnd, w.sn) || Repeated(Wrapping, old(RcvView()), w.sn))
      ensures pool == if repeat then old(pool) else Get(old(pool))
    {
      if ITimeDiff(w.sn, Wrap32(rcv_nxt + cfg.rcv_wnd)) >= 0 || ITimeDiff(w.sn, rcv_nxt) < 0 { return true; }
      repeat := TakeNew(w);
    }

    /** The same of a segment of the window. */
    method TakeNew(w: Wire) returns (repeat: bool)
      requires OkRcv(RcvView(), cfg.rcv_wnd) && InWindow(Wrapping, RcvView(), cfg.rcv_wnd, w.sn)
      requires 0 <= w.sn < M32 && w.cmd == CMD_PUSH && IsStorable(RcvView(), cfg.rcv_wnd, w)
      modifies `rcv_nxt, `rcv_queue, `rcv_buf, `pool
      ensures var t := Insert(Wrapping, old(RcvView()), Accepted(w, GetId(old(pool))));
              RcvView() == Advance(Wrapping, t, cfg.rcv_wnd)
      ensures repeat == Repeated(Wrapping, old(RcvView()), w.sn)
      ensures pool == if repeat then old(pool) else Get(old(pool))
    {
      assert |rcv_queue| <= cfg.rcv_wnd by { assert RcvOk(Wrapping, RcvView(), cfg.rcv_wnd); }
      repeat := InsertNew(w);
      MoveReady();
    }

    /** Puts a segment of the window in its place, in a buffer of the pool, unless it is there already. */
    method InsertNew(w: Wire) returns (repeat: bool)
      requires OkRcv(RcvView(), cfg.rcv_wnd) && InWindow(Wrapping, RcvView(), cfg.rcv_wnd, w.sn)
      requires 0 <= w.sn < M32 && w.cmd == CMD_PUSH && IsStorable(RcvView(), cfg.rcv_wnd, w)
      modifies `rcv_buf, `pool
      ensures RcvView() == Insert(Wrapping, old(RcvView()), Accepted(w, GetId(old(pool))))
      ensures repeat == Repeated(Wrapping, old(RcvView()), w.sn)
      ensures pool == if repeat then old(pool) else Get(old(pool))
    {
      var insert_idx;
      assert RcvOk(Wrapping, RcvView(), cfg.rcv_wnd);
      repeat, insert_idx := Locate(w.sn);
      if !repeat {
        assert Storable(Wrapping, RcvView(), cfg.rcv_wnd, w) && |w.data| <= MAX_MTU;
        var id := NewBuffer();
        var newseg := Accepted(w, id);
        if insert_idx == |rcv_buf| {
          rcv_buf := rcv_buf + [newseg];
        } else {
          rcv_buf := rcv_buf[..insert_idx] + [newseg] + rcv_buf[insert_idx..];
        }
      }
    }

    method PeekSize() returns (length: int)
      requires forall k :: 0 <= k < |rcv_queue| ==> rcv_queue[k].body.Buf?
      ensures length == Receiver.PeekSize(rcv_queue)
    {
      if |rcv_queue| == 0 { return -1; }
      if rcv_queue[0].frg == 0 {
        ghost var one := rcv_queue[..1];
        assert one[..0] == [] && Joined(one) == [] + one[0].body.Data();
        return |rcv_queue[0].body.Data()|;
      }
      if |rcv_queue| < (rcv_queue[0].frg as int + 1) % 0x100 { return -1; }
      length := 0;
      var k := 0;
      assert rcv_queue[..0] == [];
      while k < |rcv_queue|
        invariant k <= |rcv_queue| && length == |Joined(rcv_queue[..k])|
        invariant FrontFrom(rcv_queue, k) == Front(rcv_queue)
      {
        assert rcv_queue[..k+1][..k] == rcv_queue[..k];
        length := length + |rcv_queue[k].body.Data()|;
        k := k + 1;
        if rcv_queue[k-1].frg == 0 { return; }
      }
    }

    static method CopyInto(dst: array<byte>, n: nat, data: seq<byte>)
      requires n + |data| <= dst.Length
      modifies dst
      ensures dst[..n + |data|] == old(dst[..n]) + data
      ensures dst[n + |data|..] == old(dst[n + |data|..])
    {
      forall i | 0 <= i < |data| { dst[n + i] := data[i]; }
    }

    /** Copies one segment to position n of dst, and returns its buffer to the pool. */
    method ReadSegment(dst: array<byte>, n: nat, k: nat) returns (m: nat)
      requires k < |rcv_queue| && n + |rcv_queue[k].body.Data()| <= dst.Length
      modifies dst, `rcv_queue, `pool
      ensures m == n + |old(rcv_queue)[k].body.Data()| && dst[..m] == old(dst[..n]) + old(rcv_queue)[k].body.Data()
      ensures dst[m..] == old(dst[m..])
      ensures rcv_queue == old(rcv_queue)[k := old(rcv_queue)[k].(body := Nil)]
      ensures pool == Release(old(pool), [old(rcv_queue)[k]])
    {
      var seg := rcv_queue[k];
      CopyInto(dst, n, seg.body.Data());
      m := n + |seg.body.Data()|;
      var freed := DelSegment(seg);
      rcv_queue := rcv_queue[k := freed];
    }

    /** The first count segments of q have been copied into dst, which held was, and their buffers
        returned to the pool, which was pool0. */
    ghost predicate Copied(dst: array<byte>, q: seq<Segment>, count: nat, n: nat, was: seq<byte>, pool0: Pool)
      reads dst, `rcv_queue, `pool
    {
      && count <= |rcv_queue| == |q| && rcv_queue[count..] == q[count..]
      && n <= dst.Length == |was| && dst[..n] == Joined(q[..count]) && dst[n..] == was[n..]
      && pool == Release(pool0, q[..count])
    }

    /** Copies one segment more. */
    method ReadNext(
        dst: array<byte>, n: nat, count: nat, ghost q: seq<Segment>, ghost was: seq<byte>, ghost pool0: Pool)
      returns (m: nat)
      requires count < |q| && Copied(dst, q, count, n, was, pool0) && |Joined(q[..count+1])| <= dst.Length
      modifies dst, `rcv_queue, `pool
      ensures Copied(dst, q, count + 1, m, was, pool0)
    {
      RestStays(rcv_queue, q, count, rcv_queue[count].(body := Nil));
      JoinedStep(q, count);
      TailOfTail(dst[..], was, n, |q[count].body.Data()|);
      m := ReadSegment(dst, n, count);
      ReleaseOneMore(pool0, q, count);
    }

    /** Copies the segments of the first message. */
    method ReadSegments(dst: array<byte>) returns (n: nat, count: nat)
      requires |rcv_queue| > 0 && |Joined(rcv_queue[..Front(rcv_queue)])| <= dst.Length
      modifies dst, `rcv_queue, `pool
      ensures count == Front(old(rcv_queue)) && |rcv_queue| == |old(rcv_queue)|
              && rcv_queue[count..] == old(rcv_queue)[count..]
      ensures pool == Release(old(pool), old(rcv_queue)[..count])
      ensures n <= dst.Length && dst[..n] == Joined(old(rcv_queue)[..count]) && dst[n..] == old(dst[n..])
    {
      ghost var q := rcv_queue;
      ghost var was := dst[..];
      ghost var pool0 := pool;
      n, count := 0, 0;
      assert q[..0] == [] && Release(pool, []) == pool && dst[..0] == [] && dst[0..] == was;
      while count < |rcv_queue|
        invariant Copied(dst, q, count, n, was, pool0) && FrontFrom(q, count) == Front(q)
      {
        JoinedGrows(q, count + 1, Front(q));
        var last := rcv_queue[count].frg == 0;
        n := ReadNext(dst, n, count, q, was, pool0);
        count := count + 1;
        if last { break; }
      }
    }

    /** Copies the first message into dst, and returns its buffers to the pool. */
    method ReadFront(dst: array<byte>) returns (n: nat)
      requires |rcv_queue| > 0 && |Joined(rcv_queue[..Front(rcv_queue)])| <= dst.Length
      modifies dst, `rcv_queue, `pool
      ensures rcv_queue == old(rcv_queue)[Front(old(rcv_queue))..]
      ensures pool == Release(old(pool), old(rcv_queue)[..Front(old(rcv_queue))])
      ensures n <= dst.Length && dst[..n] == Joined(old(rcv_queue)[..Front(old(rcv_queue))])
      ensures dst[n..] == old(dst[n..])
    {
      var count;
      n, count := ReadSegments(dst);
      rcv_queue := RemoveFront(rcv_queue, count);
    }

    static lemma TailOfTail(a: seq<byte>, b: seq<byte>, n: nat, k: nat)
      requires |a| == |b| && n + k <= |a| && a[n..] == b[n..]
      ensures a[n + k..] == b[n + k..]
    {
      assert a[n + k..] == a[n..][k..] && b[n + k..] == b[n..][k..];
    }

    /** Refills the queue; recovering from a full queue asks for a window announcement. */
    method Refill(fast_recover: bool)
      requires |rcv_queue| <= cfg.rcv_wnd
      modifies `rcv_nxt, `rcv_queue, `rcv_buf, `probe
      ensures probe == if fast_recover && |rcv_queue| < cfg.rcv_wnd then old(probe).(tell := true) else old(probe)
      ensures IsAdvance(Wrapping, old(RcvView()), cfg.rcv_wnd, RcvView())
    {
      MoveReady();
      if |rcv_queue| < cfg.rcv_wnd && fast_recover {
        probe := probe.(tell := true);
      }
    }

    /** The read itself. */
    method Take(dst: array<byte>) returns (n: nat)
      requires 0 < |rcv_queue| <= cfg.rcv_wnd && |Joined(rcv_queue[..Front(rcv_queue)])| <= dst.Length
      modifies dst, `rcv_nxt, `rcv_queue, `rcv_buf, `pool, `probe
      ensures n <= dst.Length && dst[..n] == Joined(old(rcv_queue)[..Front(old(rcv_queue))])
      ensures dst[n..] == old(dst[n..])
      ensures probe == if old(|rcv_queue|) >= cfg.rcv_wnd && |rcv_queue| < cfg.rcv_wnd
                       then old(probe).(tell := true) else old(probe)
      ensures pool == Release(old(pool), old(rcv_queue)[..Front(old(rcv_queue))])
      ensures RcvView() == Advance(Wrapping, Rest(old(RcvView())), cfg.rcv_wnd)
    {
      var fast_recover := |rcv_queue| >= cfg.rcv_wnd;
      n := ReadFront(dst);
      assert RcvView() == Rest(old(RcvView()));
      ghost var read := dst[..];
      assert dst[..n] == read[..n] && dst[n..] == read[n..];
      Refill(fast_recover);
      assert dst[..] == read && dst[..n] == read[..n] && dst[n..] == read[n..];
    }

    /** A read, field by field. */
    method RecvFields(dst: array<byte>) returns (n: int, ghost r: Read)
      requires |rcv_queue| <= cfg.rcv_wnd && forall k :: 0 <= k < |rcv_queue| ==> rcv_queue[k].body.Buf?
      modifies dst, `rcv_nxt, `rcv_queue, `rcv_buf, `pool, `probe
      ensures r == Receiver.Recv(Wrapping, old(RcvView()), cfg.rcv_wnd, dst.Length)
      ensures n == r.code && RcvView() == r.rcv && (n < 0 ==> RcvView() == old(RcvView()))
      ensures probe == if r.tell then old(probe).(tell := true) else old(probe)
      ensures n < 0 ==> !r.tell
      ensures pool == if n < 0 then old(pool) else Release(old(pool), old(rcv_queue)[..Front(old(rcv_queue))])
      ensures n >= 0 ==> n <= dst.Length && dst[..n] == r.data
      ensures dst[Max(n, 0)..] == old(dst[Max(n, 0)..])
    {
      r := Receiver.Recv(Wrapping, RcvView(), cfg.rcv_wnd, dst.Length);
      var peeksize := PeekSize();
      if peeksize < 0 { return -1, r; }
      if peeksize > dst.Length { return -2, r; }
      n := Take(dst);
    }

    /** A read, as a change of the value the fields represent. */
    method RecvState(dst: array<byte>) returns (n: int, ghost r: Read)
      requires |rcv_queue| <= cfg.rcv_wnd && forall k :: 0 <= k < |rcv_queue| ==> rcv_queue[k].body.Buf?
      modifies dst, `rcv_nxt, `rcv_queue, `rcv_buf, `pool, `probe
      ensures r == Receiver.Recv(Wrapping, old(RcvView()), cfg.rcv_wnd, dst.Length)
      ensures n == r.code && View() == AfterRead(old(View()), r)
      ensures n >= 0 ==> n <= dst.Length && dst[..n] == r.data
      ensures dst[Max(n, 0)..] == old(dst[Max(n, 0)..])
    {
      n, r := RecvFields(dst);
    }

    /** Reads the next message into dst: its size, or -1 if there is none, or -2 if dst is too small. */
    method Recv(dst: array<byte>) returns (n: int)
      requires Valid()
      modifies dst, `rcv_nxt, `rcv_queue, `rcv_buf, `pool, `probe
      ensures Valid()
      ensures var (st, code, data) := Receive(Wrapping, old(View()), dst.Length);
              && View() == st && n == code
              && (n >= 0 ==> n <= dst.Length && dst[..n] == data)
      ensures dst[Max(n, 0)..] == old(dst[Max(n, 0)..])
    {
      ghost var t := ReadKeeps(View(), dst.Length);
      ghost var r;
      n, r := RecvState(dst);
      assert View() == t;
    }

    static lemma ReadKeeps(st: State, room: nat) returns (t: State)
      requires StateOk(Wrapping, st)
      ensures StateOk(Wrapping, t) && t == AfterRead(st, Receiver.Recv(Wrapping, st.rcv, st.cfg.rcv_wnd, room))
      ensures Receive(Wrapping, st, room).0 == t && t.cfg == st.cfg
    {
      ReceiveKeeps(Wrapping, st, room);
      t := AfterRead(st, Receiver.Recv(Wrapping, st.rcv, st.cfg.rcv_wnd, room));
    }

    // ---------- sending ----------

    /** Queues the first of count pieces of msg, and returns the rest of it. */
    method QueuePiece(msg: seq<byte>, count: nat) returns (rest: seq<byte>)
      requires 0 < count <= 255
      modifies `snd_queue, `pool
      ensures var before, after := Pieces(old(pool), msg, cfg.mss, count), Pieces(pool, rest, cfg.mss, count - 1);
              snd_queue + after.0 == old(snd_queue) + before.0 && after.1 == before.1
    {
      FirstPiece(snd_queue, pool, msg, cfg.mss, count);
      var size := if |msg| > cfg.mss then cfg.mss as int else |msg|;
      var id := NewBuffer();
      snd_queue := snd_queue + [Piece(count - 1, id, msg[..size])];
      rest := msg[size..];
    }

    /** Queues the pieces of a message, each copied into a buffer of the pool. */
    method Fragment(msg: seq<byte>, count: nat)
      requires count <= 255
      modifies `snd_queue, `pool
      ensures snd_queue == old(snd_queue) + Pieces(old(pool), msg, cfg.mss, count).0
      ensures pool == Pieces(old(pool), msg, cfg.mss, count).1
    {
      ghost var all := Pieces(pool, msg, cfg.mss, count);
      var rest := msg;
      var i := 0;
      while i < count
        invariant i <= count
        invariant snd_queue + Pieces(pool, rest, cfg.mss, count - i).0 == old(snd_queue) + all.0
        invariant Pieces(pool, rest, cfg.mss, count - i).1 == all.1
      {
        rest := QueuePiece(rest, count - i);
        i := i + 1;
      }
    }

    /** Queues a message for sending; -1 for an empty one, -2 for one of more than 255 fragments. */
    method Send(msg: seq<byte>) returns (code: int)
      requires Valid()
      modifies `snd_queue, `pool
      ensures Valid()
      ensures View() == Engine.Send(old(View()), msg).0 && code == Engine.Send(old(View()), msg).1
    {
      SendKeeps(Wrapping, View(), msg);
      if |msg| == 0 { return -1; }
      var count := FragmentCount(|msg|, cfg.mss);
      if count > 255 { return -2; }
      Fragment(msg, count);
      return 0;
    }

    // ---------- packing segments into the send buffer ----------

    /** The first size bytes of the buffer hold the pending segments of p; base and the datagrams of p
        have been handed to the output. */
    ghost predicate Packed(base: seq<seq<byte>>, size: nat, p: Packer)
      reads `cfg, `buffer, buffer, `output
    {
      && buffer.Length == cfg.mtu && size == SizeAll(p.pending) <= buffer.Length
      && buffer[..size] == EncodeAll(p.pending)
      && output == base + EncodeNet(p.out)
    }

    method MakeSpace(size: nat, space: nat, ghost base: seq<seq<byte>>, ghost p: Packer) returns (left: nat)
      requires Packed(base, size, p)
      modifies `output
      ensures Packed(base, left, Flushing.MakeSpace(p, space, cfg.mtu))
      ensures space <= cfg.mtu ==> left + space <= cfg.mtu
    {
      left := size;
      if size + space > cfg.mtu {
        output := output + [buffer[..size]];
        left := 0;
        assert EncodeNet(p.out + [p.pending]) == EncodeNet(p.out) + [EncodeAll(p.pending)];
      }
    }

    method FlushBuffer(size: nat, ghost base: seq<seq<byte>>, ghost p: Packer)
      requires Packed(base, size, p)
      modifies `output
      ensures output == base + EncodeNet(Close(p))
    {
      if size > 0 {
        output := output + [buffer[..size]];
        assert EncodeNet(p.out + [p.pending]) == EncodeNet(p.out) + [EncodeAll(p.pending)];
      }
    }

    /** Writes a header at position size. */
    method EncodeHead(w: Wire, size: nat)
      requires size + OVERHEAD <= buffer.Length
      modifies buffer
      ensures buffer[..size + OVERHEAD] == old(buffer[..size]) + HeaderThen(w, [])
    {
      CopyInto(buffer, size, LE32(w.conv));
      CopyInto(buffer, size + 4, LE32(w.session));
      CopyInto(buffer, size + 8, [w.cmd, w.frg]);
      CopyInto(buffer, size + 10, LE16(w.wnd));
      ghost var flags := buffer[..size + 12];
      assert flags == old(buffer[..size]) + Flags(w);
      CopyInto(buffer, size + 12, LE32(w.ts));
      CopyInto(buffer, size + 16, LE32(Wrap32(w.sn)));
      CopyInto(buffer, size + 20, LE32(Wrap32(w.una)));
      CopyInto(buffer, size + 24, LE32(Wrap32(|w.data|)));
      FourWordsJoin(flags, LE32(w.ts), LE32(Wrap32(w.sn)), LE32(Wrap32(w.una)), LE32(Wrap32(|w.data|)),
          old(buffer[..size]), Flags(w));
    }

    static lemma FourWordsJoin(
        f: seq<byte>, a: seq<byte>, b: seq<byte>, c: seq<byte>, d: seq<byte>, p: seq<byte>, flags: seq<byte>)
      requires f == p + flags
      ensures f + a + b + c + d == p + (flags + (a + (b + (c + (d + [])))))
    {}

    /** Writes a whole segment, making space for it first. */
    method WriteSegment(w: Wire, size: nat, ghost base: seq<seq<byte>>, ghost p: Packer) returns (left: nat)
      requires Packed(base, size, p) && w.Size() <= cfg.mtu
      modifies `output, buffer
      ensures Packed(base, left, Put(p, w, cfg.mtu))
    {
      left := MakeSpace(size, w.Size(), base, p);
      ghost var q := Flushing.MakeSpace(p, w.Size(), cfg.mtu);
      left := WriteHere(w, left, base, q);
    }

    method WriteHere(w: Wire, size: nat, ghost base: seq<seq<byte>>, ghost p: Packer) returns (left: nat)
      requires Packed(base, size, p) && size + w.Size() <= cfg.mtu
      modifies buffer
      ensures Packed(base, left, Append(p, w))
    {
      EncodeHead(w, size);
      CopyInto(buffer, size + OVERHEAD, w.data);
      left := size + OVERHEAD + |w.data|;
      AppendEncodes(p, w);
      HeaderThenMore(w, [], w.data);
      EncodeJoin(EncodeAll(p.pending), HeaderThen(w, []), w.data, Encode(w));
    }

    static lemma AppendEncodes(p: Packer, w: Wire)
      ensures EncodeAll(Append(p, w).pending) == EncodeAll(p.pending) + Encode(w)
      ensures SizeAll(Append(p, w).pending) == SizeAll(p.pending) + w.Size()
    {
      var q := Append(p, w).pending;
      assert q[..|q|-1] == p.pending;
    }

    static lemma EncodeJoin(p: seq<byte>, h: seq<byte>, data: seq<byte>, whole: seq<byte>)
      requires h + data == whole || h + ([] + data) == whole
      ensures p + h + data == p + whole
    {}

    // ---------- the parts of a flush ----------

    /** Writes the i-th pending acknowledgement, unless the filter drops it. */
    method FlushAck(i: nat, head: Wire, size: nat, ghost base: seq<seq<byte>>, ghost s: AckScan)
      returns (left: nat, last: Wire, ghost t: AckScan)
      requires i < |acklist| && OVERHEAD <= cfg.mtu && Packed(base, size, s.packer) && head == s.head && head.data == []
      modifies `output, buffer
      ensures IsAckStep(Wrapping, acklist, rcv_nxt, cfg.mtu, s, i, t)
      ensures Packed(base, left, t.packer) && last == t.head && last.data == []
    {
      t := AckStep(Wrapping, acklist, rcv_nxt, cfg.mtu, s, i);
      left := MakeSpace(size, OVERHEAD, base, s.packer);
      last := head;
      var ack := acklist[i];
      if ITimeDiff(ack.sn, rcv_nxt) >= 0 || |acklist| - 1 == i {
        last := last.(sn := ack.sn, ts := ack.ts);
        left := WriteHere(last, left, base, Flushing.MakeSpace(s.packer, OVERHEAD, cfg.mtu));
      }
    }

    /** Writes the pending acknowledgements that are not filtered out. */
    method FlushAcks(head: Wire, ghost base: seq<seq<byte>>) returns (left: nat, last: Wire, ghost s: AckScan)
      requires buffer.Length == cfg.mtu >= OVERHEAD && output == base && head.data == []
      modifies `output, buffer
      ensures IsAcks(Wrapping, acklist, rcv_nxt, cfg.mtu, head, |acklist|, s)
      ensures Packed(base, left, s.packer) && last == s.head && last.data == []
    {
      left, last := 0, head;
      var i := 0;
      s := AckScan(Packer([], []), head);
      assert output == base + EncodeNet([]);
      while i < |acklist|
        invariant i <= |acklist| && last.data == []
        invariant IsAcks(Wrapping, acklist, rcv_nxt, cfg.mtu, head, i, s)
        invariant Packed(base, left, s.packer) && last == s.head
      {
        ghost var t;
        left, last, t := FlushAck(i, last, left, base, s);
        OneAckMore(Wrapping, acklist, rcv_nxt, cfg.mtu, head, s, i, t);
        s := t;
        i := i + 1;
      }
    }

    /** Decides whether to ask for the peer's window. */
    method ProbeWindow(now: u32)
      modifies `probe
      ensures probe == ProbeWait(old(probe), rmt_wnd, now)
    {
      if rmt_wnd == 0 {
        if probe.wait == 0 {
          probe := probe.(wait := PROBE_INIT, ts := Wrap32(now + PROBE_INIT));
        } else if ITimeDiff(now, probe.ts) >= 0 {
          var wait := probe.wait;
          if wait < PROBE_INIT { wait := PROBE_INIT; }
          wait := Wrap32(wait + wait / 2);
          if wait > PROBE_LIMIT { wait := PROBE_LIMIT; }
          probe := probe.(wait := wait, ts := Wrap32(now + wait), ask := true);
        }
      } else {
        probe := probe.(ts := 0, wait := 0);
      }
    }

    /** Writes the window probes that are due, and clears the flags. */
    method FlushProbes(head: Wire, size: nat, ghost base: seq<seq<byte>>, ghost p: Packer) returns (left: nat)
      requires Packed(base, size, p) && head.data == [] && OVERHEAD <= cfg.mtu
      modifies `output, buffer, `probe
      ensures Packed(base, left, WithProbes(p, head, old(probe), cfg.mtu))
      ensures probe == old(probe).(ask := false, tell := false)
    {
      left := size;
      if probe.ask {
        left := WriteSegment(head.(cmd := CMD_WASK), left, base, p);
      }
      ghost var asked := if probe.ask then Put(p, head.(cmd := CMD_WASK), cfg.mtu) else p;
      if probe.tell {
        left := WriteSegment(head.(cmd := CMD_WINS), left, base, asked);
      }
      probe := probe.(ask := false, tell := false);
    }

    /** Numbers queued segments while the window has room. */
    method NumberSegments(window: u32) returns (count: nat)
      requires SndOk(Wrapping, SndView(), cfg.snd_wnd, cfg.mss) && window <= cfg.snd_wnd
      modifies `snd_nxt, `snd_queue, `snd_buf
      ensures count == NumberCount(old(SndView()), window)
      ensures SndView() == Number(Wrapping, old(SndView()), cfg.conv, cfg.session, window)
    {
      ghost var s := SndView();
      ghost var n := NumberCount(s, window);
      count := 0;
      assert NumberedAll(Wrapping, s.queue[..0], cfg.conv, cfg.session, s.nxt) == [];
      while count < |snd_queue|
        invariant count <= n && snd_queue == s.queue && snd_una == s.una
        invariant snd_nxt == Add(Wrapping, s.nxt, count)
        invariant snd_buf == s.buf + NumberedAll(Wrapping, s.queue[..count], cfg.conv, cfg.session, s.nxt)
      {
        NumberTest(Wrapping, s, cfg.snd_wnd, cfg.mss, window, count);
        if ITimeDiff(snd_nxt, Wrap32(snd_una + window)) >= 0 { break; }
        NumberedOneMore(Wrapping, s.queue, cfg.conv, cfg.session, s.nxt, count);
        AddAdd(Wrapping, s.nxt, count, 1);
        var newseg := snd_queue[count].(conv := cfg.conv, session := cfg.session, cmd := CMD_PUSH, sn := snd_nxt);
        snd_buf := snd_buf + [newseg];
        snd_nxt := Wrap32(snd_nxt + 1);
        count := count + 1;
      }
      if count > 0 {
        snd_queue := RemoveFront(snd_queue, count);
      }
    }

    /** Whether a segment is to be sent now, and why; its timer is set accordingly. */
    static method Judge(segment: Segment, f: Rules, now: u32) returns (why: Reason, armed: Segment)
      requires !segment.acked
      ensures why == Why(segment, f, now) && armed == Rearm(segment, f, why, now)
    {
      why, armed := No, segment;
      if segment.xmit == 0 {
        why := First;
        armed := armed.(rto := f.rto);
        armed := armed.(resendts := Wrap32(now + armed.rto));
      } else if segment.fastack >= f.resent {
        why := Fast;
        armed := armed.(fastack := 0, rto := f.rto);
        armed := armed.(resendts := Wrap32(now + armed.rto));
      } else if segment.fastack > 0 && f.added == 0 {
        why := Early;
        armed := armed.(fastack := 0, rto := f.rto);
        armed := armed.(resendts := Wrap32(now + armed.rto));
      } else if ITimeDiff(now, segment.resendts) >= 0 {
        why := Timeout;
        if f.nodelay == 0 {
          armed := armed.(rto := Wrap32(armed.rto + f.rto));
        } else {
          armed := armed.(rto := Wrap32(armed.rto + f.rto / 2));
        }
        armed := armed.(fastack := 0);
        armed := armed.(resendts := Wrap32(now + armed.rto));
      }
    }

    /** What the scan makes of a segment, stamped with a new reading of the clock if it is to be sent. */
    static method Restamp(segment: Segment, f: Rules, now: u32, reading: u32) returns (why: Reason, t: Segment)
      ensures why == Why(segment, f, now) && t == Rescan(f, segment, now, reading)
      ensures why == No ==> t == segment
    {
      if segment.acked { return No, segment; }
      why, t := Judge(segment, f, now);
      if why != No {
        t := t.(xmit := Wrap32(t.xmit + 1), ts := reading, wnd := f.wnd, una := f.una);
      }
    }

    /** One segment of the scan. */
    method RescanOne(k: nat, f: Rules, now: u32, reading: u32, size: nat, ghost base: seq<seq<byte>>, ghost p: Packer)
      returns (left: nat, why: Reason, current: u32)
      requires k < |snd_buf| && Packed(base, size, p) && f.mtu == cfg.mtu
      requires OVERHEAD + |snd_buf[k].body.Data()| <= cfg.mtu
      modifies `snd_buf, `output, buffer, `dead
      ensures why == Why(old(snd_buf)[k], f, now) && current == if why.No? then now else reading
      ensures snd_buf == old(snd_buf)[k := Rescan(f, old(snd_buf)[k], now, reading)]
      ensures Packed(base, left, if why.No? then p else Put(p, snd_buf[k].ToWire(), cfg.mtu))
      ensures dead == (old(dead) || (!why.No? && snd_buf[k].xmit >= f.dead_link))
    {
      left, current := size, now;
      var t;
      why, t := Restamp(snd_buf[k], f, now, reading);
      RescanSame(f, snd_buf[k], now, reading);
      if why != No {
        current := reading;
        snd_buf := snd_buf[k := t];
        left := WriteSegment(t.ToWire(), size, base, p);
        if t.xmit >= f.dead_link { dead := true; }
      }
    }

    /** One step of the scan, with what the scan keeps count of. */
    method RescanStep(
        k: nat, f: Rules, reading: u32, size: nat, now: u32, changeIn: bool, lostIn: bool, waitIn: i32,
        ghost base: seq<seq<byte>>, ghost s: Scan, ghost buf: seq<Segment>, ghost was: bool)
      returns (left: nat, current: u32, change: bool, lost: bool, wait: i32, ghost t: Scan)
      requires k < |buf| && Packed(base, size, s.packer) && f.mtu == cfg.mtu && dead == (was || s.dead)
      requires |s.done| == k && snd_buf == s.done + buf[k..]
      requires OVERHEAD + |buf[k].body.Data()| <= cfg.mtu
      requires (now, changeIn, lostIn, waitIn) == (s.now, s.change, s.lost, s.wait)
      modifies `snd_buf, `output, buffer, `dead
      ensures IsStep(f, s, buf[k], reading, t)
      ensures && |t.done| == k + 1 && snd_buf == t.done + buf[k+1..]
              && Packed(base, left, t.packer)
              && current == t.now && change == t.change && lost == t.lost && wait == t.wait && dead == (was || t.dead)
    {
      t := ScanStep(f, s, buf[k], reading);
      ScanMoves(snd_buf, s.done, buf, k, t.done[k]);
      var acked := snd_buf[k].acked;
      wait := waitIn;
      var why;
      left, why, current := RescanOne(k, f, now, reading, size, base, s.packer);
      change := changeIn || why.Fast? || why.Early?;
      lost := lostIn || why.Timeout?;
      if !acked {
        var rto := ITimeDiff(snd_buf[k].resendts, current);
        if rto > 0 && rto < wait { wait := rto; }
      }
    }

    /** The states of a scan of buf so far; the fields and the loop's variables are those of the last. */
    ghost predicate Scanned(
        f: Rules, buf: seq<Segment>, clock: nat -> u32, states: seq<Scan>, base: seq<seq<byte>>, was: bool,
        left: nat, now: u32, change: bool, lost: bool, wait: i32)
      reads `snd_buf, `dead, `cfg, `buffer, buffer, `output
    {
      && ScanChain(f, buf, clock, states)
      && var k := |states| - 1; var s := states[k];
        && |s.done| == k && snd_buf == s.done + buf[k..] && Packed(base, left, s.packer)
        && (now, change, lost, wait) == (s.now, s.change, s.lost, s.wait) && dead == (was || s.dead)
    }

    /** One state more. */
    method RescanNext(
        k: nat, f: Rules, clock: nat -> u32, size: nat, now: u32, changeIn: bool, lostIn: bool, waitIn: i32,
        ghost base: seq<seq<byte>>, ghost buf: seq<Segment>, ghost states: seq<Scan>, ghost was: bool)
      returns (left: nat, current: u32, change: bool, lost: bool, wait: i32, ghost t: Scan)
      requires k < |buf| && |states| == k + 1 && f.mtu == cfg.mtu && OVERHEAD + |buf[k].body.Data()| <= cfg.mtu
      requires Scanned(f, buf, clock, states, base, was, size, now, changeIn, lostIn, waitIn)
      modifies `snd_buf, `output, buffer, `dead
      ensures Scanned(f, buf, clock, states + [t], base, was, left, current, change, lost, wait)
    {
      left, current, change, lost, wait, t :=
        RescanStep(k, f, clock(k + 2), size, now, changeIn, lostIn, waitIn, base, states[k], buf, was);
      ChainGrows(f, buf, clock, states, t);
    }

    /** The loop of RescanAll, with the states it passes through. */
    method RescanLoop(f: Rules, clock: nat -> u32, size: nat, ghost base: seq<seq<byte>>, ghost s0: Scan)
      returns (left: nat, change: bool, lost: bool, wait: i32, ghost states: seq<Scan>)
      requires Packed(base, size, s0.packer) && f.mtu == cfg.mtu
      requires s0 == Scan([], s0.packer, clock(1), false, false, Signed32(cfg.interval), false)
      requires forall k :: 0 <= k < |snd_buf| ==> OVERHEAD + |snd_buf[k].body.Data()| <= cfg.mtu
      modifies `snd_buf, `output, buffer, `dead
      ensures |states| == |old(snd_buf)| + 1 && states[0] == s0 && ScanChain(f, old(snd_buf), clock, states)
      ensures var s := states[|states|-1];
              && snd_buf == s.done && Packed(base, left, s.packer)
              && change == s.change && lost == s.lost && wait == s.wait && dead == (old(dead) || s.dead)
    {
      ghost var buf := snd_buf;
      ghost var was := dead;
      states := [s0];
      left, change, lost, wait := size, false, false, Signed32(cfg.interval);
      var current := clock(1);
      var k := 0;
      while k < |snd_buf|
        invariant k <= |snd_buf| == |buf| && |states| == k + 1 && states[0] == s0
        invariant Scanned(f, buf, clock, states, base, was, left, current, change, lost, wait)
      {
        ghost var t;
        left, current, change, lost, wait, t :=
          RescanNext(k, f, clock, left, current, change, lost, wait, base, buf, states, was);
        states := states + [t];
        k := k + 1;
      }
    }

    /** Sends what is new, overtaken or overdue, in order; wait is the time to the nearest deadline. */
    method RescanAll(f: Rules, clock: nat -> u32, size: nat, ghost base: seq<seq<byte>>, ghost s0: Scan)
      returns (left: nat, change: bool, lost: bool, wait: i32, ghost s: Scan)
      requires Packed(base, size, s0.packer) && f.mtu == cfg.mtu
      requires s0 == Scan([], s0.packer, clock(1), false, false, Signed32(cfg.interval), false)
      requires AllFit(snd_buf, cfg.mtu)
      modifies `snd_buf, `output, buffer, `dead
      ensures IsScan(f, s0, old(snd_buf), clock, s)
      ensures && snd_buf == s.done && Packed(base, left, s.packer)
              && change == s.change && lost == s.lost && wait == s.wait && dead == (old(dead) || s.dead)
    {
      EachFitsIn(snd_buf, cfg.mtu);
      ghost var states;
      left, change, lost, wait, states := RescanLoop(f, clock, size, base, s0);
      s := states[|states|-1];
    }

    static lemma ScanMoves(q: seq<Segment>, done: seq<Segment>, buf: seq<Segment>, k: nat, t: Segment)
      requires k < |buf| && |done| == k && q == done + buf[k..]
      ensures q[k] == buf[k] && q[k := t] == done + [t] + buf[k+1..]
    {}

    /** Rate halving after early resends, and a restart after timeouts. */
    method UpdateCwnd(change: bool, lost: bool, window: u32, resent: u32)
      modifies `cong
      ensures cong == OnFlush(old(cong), cfg.mss, Wrap32(snd_nxt - snd_una), window, resent, change, lost)
    {
      if change {
        var inflight := Wrap32(snd_nxt - snd_una);
        var ssthresh := inflight / 2;
        if ssthresh < THRESH_MIN { ssthresh := THRESH_MIN; }
        cong := cong.(ssthresh := ssthresh, cwnd := Wrap32(ssthresh + resent));
        cong := cong.(incr := Wrap32(cong.cwnd * cfg.mss));
      }
      if lost {
        var ssthresh := window / 2;
        if ssthresh < THRESH_MIN { ssthresh := THRESH_MIN; }
        cong := Cong(1, cfg.mss, ssthresh);
      }
      if cong.cwnd < 1 {
        cong := cong.(cwnd := 1, incr := cfg.mss);
      }
    }

    method WndUnused() returns (wnd: u16)
      ensures wnd == Engine.WndUnused(RcvView(), cfg.rcv_wnd)
    {
      if |rcv_queue| < cfg.rcv_wnd { return (cfg.rcv_wnd - |rcv_queue|) % 0x1_0000; }
      return 0;
    }

    /** The window in which segments may be in flight. */
    method SendWindow() returns (window: u32)
      ensures window == Min(if cfg.nocwnd == 0 then cong.cwnd else cfg.snd_wnd, Min(cfg.snd_wnd, rmt_wnd))
    {
      window := Min(cfg.snd_wnd, rmt_wnd);
      if cfg.nocwnd == 0 { window := Min(cong.cwnd, window); }
    }

    /** Acknowledgements and window probes of a flush of st. */
    method WriteControls(now: u32, ghost st: State, ghost base: seq<seq<byte>>) returns (left: nat, ghost p: Packer)
      requires buffer.Length == cfg.mtu >= OVERHEAD && output == base
      requires cfg == st.cfg && RcvView() == st.rcv && acklist == st.acks && probe == st.probe && rmt_wnd == st.rmt_wnd
      modifies `acklist, `probe, `output, buffer
      ensures probe == ProbeWait(st.probe, st.rmt_wnd, now).(ask := false, tell := false) && acklist == []
      ensures Packed(base, left, p) && IsControls(Wrapping, st, now, p)
    {
      var wnd := WndUnused();
      var head := Wire(cfg.conv, cfg.session, CMD_ACK, 0, wnd, 0, 0, rcv_nxt, []);
      ghost var s;
      left, head, s := FlushAcks(head, base);
      acklist := [];
      ProbeWindow(now);
      p := WithProbes(s.packer, head, probe, cfg.mtu);
      left := FlushProbes(head, left, base, s.packer);
    }

    /** What the scan goes by, after count segments have been numbered. */
    method ScanSettings(count: nat) returns (f: Rules)
      ensures f == Rules(rtt.rto, cfg.Resent(), count, cfg.nodelay, Engine.WndUnused(RcvView(), cfg.rcv_wnd), rcv_nxt,
                         cfg.mtu, cfg.dead_link)
    {
      var wnd := WndUnused();
      var resent := if cfg.fastresend <= 0 then NO_RESEND else cfg.fastresend as int;
      return Rules(rtt.rto, resent, count, cfg.nodelay, wnd, rcv_nxt, cfg.mtu, cfg.dead_link);
    }

    /** Sends the pending acknowledgements only. */
    method FlushAckOnly() returns (ret: u32)
      requires Valid()
      modifies `acklist, `output, buffer
      ensures var o := AckFlush(Wrapping, old(View()));
              View() == o.st && output == old(output) + EncodeNet(o.out) && ret == o.ret
    {
      ghost var st := View();
      var wnd := WndUnused();
      var head := Wire(cfg.conv, cfg.session, CMD_ACK, 0, wnd, 0, 0, rcv_nxt, []);
      var left;
      ghost var s;
      left, head, s := FlushAcks(head, output);
      FlushBuffer(left, old(output), s.packer);
      acklist := [];
      return cfg.interval;
    }

    /** The new segments of a flush of st, and the rules of the scan that follows. */
    method NumberNew(window: u32, ghost st: State) returns (f: Rules)
      requires StateOk(Wrapping, st) && SndView() == st.snd && RcvView() == st.rcv && cfg == st.cfg && rtt == st.rtt
      requires window == Window(st)
      modifies `snd_nxt, `snd_queue, `snd_buf
      ensures SndView() == NumberedSnd(Wrapping, st) && f == ScanRules(st)
      ensures AllFit(snd_buf, cfg.mtu)
    {
      NumberedFits(Wrapping, st);
      var count := NumberSegments(window);
      f := ScanSettings(count);
    }

    /** Sends again what is due of the numbered segments. */
    method FlushNumbered(clock: nat -> u32, size: nat, f: Rules, ghost base: seq<seq<byte>>, ghost p: Packer)
      returns (change: bool, lost: bool, wait: i32, ghost scan: Scan)
      requires Packed(base, size, p) && f.mtu == cfg.mtu && AllFit(snd_buf, cfg.mtu)
      modifies `snd_buf, `dead, `output, buffer
      ensures IsScan(f, ScanStart(p, clock(1), cfg.interval), old(snd_buf), clock, scan)
      ensures && snd_buf == scan.done && change == scan.change && lost == scan.lost && wait == scan.wait
              && dead == (old(dead) || scan.dead)
      ensures output == base + EncodeNet(Close(scan.packer))
    {
      var left;
      left, change, lost, wait, scan := RescanAll(f, clock, size, base, ScanStart(p, clock(1), cfg.interval));
      FlushBuffer(left, base, scan.packer);
    }

    /** The data segments of a flush of st. */
    method FlushData(clock: nat -> u32, size: nat, ghost st: State, ghost base: seq<seq<byte>>, ghost p: Packer)
      returns (window: u32, change: bool, lost: bool, wait: i32, ghost scan: Scan)
      requires StateOk(Wrapping, st) && SndView() == st.snd && RcvView() == st.rcv && cfg == st.cfg && rtt == st.rtt
      requires rmt_wnd == st.rmt_wnd && cong == st.cong && Packed(base, size, p)
      modifies `snd_nxt, `snd_queue, `snd_buf, `dead, `output, buffer
      ensures IsScan(ScanRules(st), ScanStart(p, clock(1), st.cfg.interval), NumberedSnd(Wrapping, st).buf, clock, scan)
      ensures SndView() == NumberedSnd(Wrapping, st).(buf := scan.done)
      ensures && window == Window(st) && change == scan.change && lost == scan.lost && wait == scan.wait
              && dead == (old(dead) || scan.dead)
      ensures output == base + EncodeNet(Close(scan.packer))
    {
      window := SendWindow();
      var f := NumberNew(window, st);
      change, lost, wait, scan := FlushNumbered(clock, size, f, base, p);
    }

    /** What follows the control segments in a full flush of st. */
    method FlushRest(clock: nat -> u32, size: nat, ghost st: State, ghost base: seq<seq<byte>>, ghost p: Packer)
      returns (ret: i32, ghost scan: Scan)
      requires StateOk(Wrapping, st) && SndView() == st.snd && RcvView() == st.rcv && cfg == st.cfg && rtt == st.rtt
      requires rmt_wnd == st.rmt_wnd && cong == st.cong && dead == st.dead && Packed(base, size, p)
      modifies `snd_nxt, `snd_queue, `snd_buf, `cong, `dead, `output, buffer
      ensures IsRest(st, clock, p, scan, SndView(), cong, dead)
      ensures ret == scan.wait && output == base + EncodeNet(Close(scan.packer))
    {
      var window, change, lost;
      window, change, lost, ret, scan := FlushData(clock, size, st, base, p);
      AfterScan(change, lost, window, st, scan);
    }

    /** A full flush of st, field by field. */
    method FlushFields(clock: nat -> u32, ghost st: State) returns (ret: i32, ghost scan: Scan, ghost p: Packer)
      requires StateOk(Wrapping, st) && buffer.Length == cfg.mtu && View() == st
      modifies `snd_nxt, `snd_queue, `snd_buf, `acklist, `probe, `cong, `dead, `output, buffer
      ensures IsControls(Wrapping, st, clock(0), p)
      ensures IsRest(st, clock, p, scan, SndView(), cong, dead)
      ensures probe == ProbeWait(st.probe, st.rmt_wnd, clock(0)).(ask := false, tell := false)
      ensures acklist == []
      ensures ret == scan.wait && output == old(output) + EncodeNet(Close(scan.packer))
    {
      var left;
      left, p := WriteControls(clock(0), st, output);
      ret, scan := FlushRest(clock, left, st, old(output), p);
    }

    /** A full flush, given its scan. */
    method FlushAll(clock: nat -> u32) returns (ret: i32, ghost scan: Scan, ghost p: Packer)
      requires Valid()
      modifies `snd_nxt, `snd_queue, `snd_buf, `acklist, `probe, `cong, `dead, `output, buffer
      ensures var st := old(View());
              && IsControls(Wrapping, st, clock(0), p)
              && IsScan(ScanRules(st), ScanStart(p, clock(1), st.cfg.interval), NumberedSnd(Wrapping, st).buf,
                        clock, scan)
              && IsFlushed(Wrapping, st, clock(0), scan, View())
      ensures output == old(output) + EncodeNet(Close(scan.packer)) && ret == scan.wait
    {
      ghost var st := View();
      ret, scan, p := FlushFields(clock, st);
      Assembled(st, clock(0), scan, View());
    }

    static lemma Assembled(st: State, now: u32, scan: Scan, t: State)
      requires t == st.(acks := [], snd := NumberedSnd(Wrapping, st).(buf := scan.done), cong := t.cong,
                        dead := st.dead || scan.dead,
                        probe := ProbeWait(st.probe, st.rmt_wnd, now).(ask := false, tell := false))
      requires IsCongAfter(st, NumberedSnd(Wrapping, st), scan, t.cong)
      ensures IsFlushed(Wrapping, st, now, scan, t)
    {}

    static lemma FlushedBy(st: State, clock: nat -> u32, scan: Scan, p: Packer) returns (o: Outcome)
      requires IsControls(Wrapping, st, clock(0), p)
      requires IsScan(ScanRules(st), ScanStart(p, clock(1), st.cfg.interval), NumberedSnd(Wrapping, st).buf,
                      clock, scan)
      ensures o == FullFlush(Wrapping, st, clock) && o == Flushed(Wrapping, st, clock(0), scan)
    {
      var s0 := ScanStart(p, clock(1), st.cfg.interval);
      IsScanIsScanUpTo(ScanRules(st), s0, NumberedSnd(Wrapping, st).buf, clock, scan);
      o := FullFlush(Wrapping, st, clock);
    }

    /** The congestion window, unless it is off. */
    method AfterScan(change: bool, lost: bool, window: u32, ghost st: State, ghost scan: Scan)
      requires cong == st.cong && cfg == st.cfg && window == Window(st)
      requires snd_nxt == NumberedSnd(Wrapping, st).nxt && snd_una == NumberedSnd(Wrapping, st).una
      requires change == scan.change && lost == scan.lost
      modifies `cong
      ensures IsCongAfter(st, NumberedSnd(Wrapping, st), scan, cong)
    {
      if cfg.nocwnd == 0 {
        UpdateCwnd(change, lost, window, if cfg.fastresend <= 0 then NO_RESEND else cfg.fastresend as int);
      }
    }

    method Flush(ackOnly: bool, clock: nat -> u32) returns (ret: int)
      requires Valid()
      modifies `snd_nxt, `snd_queue, `snd_buf, `acklist, `probe, `cong, `dead, `output, buffer
      ensures Valid()
      ensures var o := Engine.Flush(Wrapping, old(View()), ackOnly, clock);
              View() == o.st && output == old(output) + EncodeNet(o.out) && ret == o.ret
    {
      FlushKeeps(Wrapping, View(), ackOnly, clock);
      if ackOnly {
        ret := FlushAckOnly();
      } else {
        ghost var st := View();
        ghost var scan, p;
        ret, scan, p := FlushAll(clock);
        ghost var o := FlushedBy(st, clock, scan, p);
      }
    }

    // ---------- input ----------

    /** The smoothed deviation, in int32 arithmetic. */
    static method SmoothDeviation(rttvar: i32, sample: i32, srtt: i32, dev: i32) returns (v: i32)
      ensures v == SmoothVar(rttvar, sample, srtt, dev)
    {
      var err := Signed32(dev - rttvar);
      if sample < Signed32(srtt - rttvar) {
        v := Signed32(rttvar + err / 32);
      } else {
        v := Signed32(rttvar + err / 4);
      }
    }

    /** Both smoothed values. */
    method SmoothRtt(sample: i32)
      modifies `rtt
      ensures rtt == Smooth(old(rtt), sample)
    {
      if rtt.srtt == 0 {
        rtt := rtt.(srtt := sample, rttvar := sample / 2);
      } else {
        var delta := Signed32(sample - rtt.srtt);
        rtt := rtt.(srtt := Signed32(rtt.srtt + delta / 8));
        var dev := if delta < 0 then Signed32(-(delta as int)) else delta;
        var rttvar := SmoothDeviation(rtt.rttvar, sample, rtt.srtt, dev);
        rtt := rtt.(rttvar := rttvar);
      }
    }

    /** The round-trip estimator after a sample. */
    method UpdateRtt(sample: i32)
      modifies `rtt
      ensures rtt == UpdateAck(old(rtt), sample, cfg.interval, cfg.minrto)
    {
      SmoothRtt(sample);
      var rto := Wrap32(Wrap32(rtt.srtt) + Max(cfg.interval, Wrap32(Wrap32(rtt.rttvar) * 4)));
      rtt := rtt.(rto := Bound(cfg.minrto, rto, RTO_MAX));
    }

    /** One step of congestion avoidance. */
    method AvoidCongestion()
      requires cfg.mss > 0
      modifies `cong
      ensures cong == Avoid(old(cong), cfg.mss)
    {
      var mss := cfg.mss;
      var incr: u32 := if cong.incr < mss then mss else cong.incr;
      incr := Growth(incr, mss);
      if NextLevel(cong.cwnd, mss) <= incr {
        cong := cong.(cwnd := Segments32(incr, mss));
      }
      cong := cong.(incr := incr);
    }

    /** The congestion window, after an input that moved snd_una. */
    method GrowCwnd()
      requires cfg.mss > 0
      modifies `cong
      ensures cong == OnAck(old(cong), cfg.mss, rmt_wnd)
    {
      ghost var c := cong;
      if cong.cwnd < rmt_wnd {
        if cong.cwnd < cong.ssthresh {
          cong := cong.(cwnd := Wrap32(cong.cwnd + 1), incr := Wrap32(cong.incr + cfg.mss));
        } else {
          AvoidCongestion();
        }
        assert cong == if c.cwnd < c.ssthresh then SlowStart(c, cfg.mss) else Avoid(c, cfg.mss);
        if cong.cwnd > rmt_wnd {
          cong := cong.(cwnd := rmt_wnd, incr := Wrap32(rmt_wnd * cfg.mss));
        }
      }
    }

    /** What every segment does first. */
    method HandleUna(w: Wire, regular: bool) returns (slid: bool)
      requires SndOk(Wrapping, SndView(), cfg.snd_wnd, cfg.mss) && 0 <= w.una < M32
      modifies `rmt_wnd, `snd_una, `snd_buf, `pool
      ensures slid == (UnaCount(Wrapping, old(SndView()), w.una) > 0)
      ensures View() == AfterUna(Wrapping, old(View()), regular, w)
    {
      if regular { rmt_wnd := w.wnd; }
      slid := ApplyUna(w.una);
    }

    method ApplyUna(una: u32) returns (slid: bool)
      requires SndOk(Wrapping, SndView(), cfg.snd_wnd, cfg.mss)
      modifies `snd_una, `snd_buf, `pool
      ensures slid == (UnaCount(Wrapping, old(SndView()), una) > 0)
      ensures View() == OnUna(Wrapping, old(View()), una)
    {
      NumbersInRange(SndView(), una, cfg.snd_wnd, cfg.mss);
      var count := ParseUna(una);
      ShrinkBuf();
      return count > 0;
    }

    static lemma NumbersInRange(s: Snd, una: int, lim: nat, mss: nat)
      requires SndOk(Wrapping, s, lim, mss)
      ensures var buf := Sender.ParseUna(Wrapping, s, una).buf; forall k :: 0 <= k < |buf| ==> 0 <= buf[k].sn < M32
    {}

    method HandleAck(sn: u32, ts: u32)
      requires SndOk(Wrapping, SndView(), cfg.snd_wnd, cfg.mss)
      modifies `snd_buf, `pool
      ensures View() == OnAckSegment(Wrapping, old(View()), sn, ts)
    {
      ParseAckKeeps(Wrapping, SndView(), sn, cfg.snd_wnd, cfg.mss);
      ParseAck(sn);
      ParseFastack(sn, ts);
    }

    method HandleNewData(w: Wire)
      requires OkRcv(RcvView(), cfg.rcv_wnd) && 0 <= w.sn < M32
      requires w.cmd == CMD_PUSH && IsStorable(RcvView(), cfg.rcv_wnd, w)
      requires InWindow(Wrapping, RcvView(), cfg.rcv_wnd, w.sn)
      modifies `rcv_nxt, `rcv_queue, `rcv_buf, `pool
      ensures View() == Store(Wrapping, old(View()), w)
    {
      ghost var st := View();
      var repeat := ParseData(w);
      StoredAs(st, View(), w, repeat);
    }

    static lemma StoredAs(st: State, t: State, w: Wire, repeat: bool)
      requires t == st.(rcv := t.rcv, pool := t.pool)
      requires t.rcv == Receiver.ParseData(Wrapping, st.rcv, st.cfg.rcv_wnd, Accepted(w, GetId(st.pool)))
      requires InWindow(Wrapping, st.rcv, st.cfg.rcv_wnd, w.sn)
      requires repeat == (!InWindow(Wrapping, st.rcv, st.cfg.rcv_wnd, w.sn) || Repeated(Wrapping, st.rcv, w.sn))
      requires t.pool == if repeat then st.pool else Get(st.pool)
      ensures t == Store(Wrapping, st, w)
    {}

    method HandlePush(w: Wire)
      requires OkRcv(RcvView(), cfg.rcv_wnd) && 0 <= w.sn < M32
      requires w.cmd == CMD_PUSH && IsStorable(RcvView(), cfg.rcv_wnd, w)
      modifies `acklist, `rcv_nxt, `rcv_queue, `rcv_buf, `pool
      ensures View() == OnPush(Wrapping, old(View()), w)
    {
      if ITimeDiff(w.sn, Wrap32(rcv_nxt + cfg.rcv_wnd)) < 0 {
        AckPush(w.sn, w.ts);
        if ITimeDiff(w.sn, rcv_nxt) >= 0 {
          HandleNewData(w);
        }
      }
    }

    method HandleCommand(w: Wire)
      requires SndOk(Wrapping, SndView(), cfg.snd_wnd, cfg.mss) && OkRcv(RcvView(), cfg.rcv_wnd)
      requires 0 <= w.sn < M32 && IsStorable(RcvView(), cfg.rcv_wnd, w)
      modifies `snd_buf, `acklist, `rcv_nxt, `rcv_queue, `rcv_buf, `pool, `probe
      ensures View() == OnCommand(Wrapping, old(View()), w)
    {
      if w.cmd == CMD_ACK {
        HandleAck(w.sn, w.ts);
      } else if w.cmd == CMD_PUSH {
        HandlePush(w);
      } else if w.cmd == CMD_WASK {
        probe := probe.(tell := true);
      }
    }

    /** The states before and after its command. */
    static lemma SegmentKeeps(st: State, regular: bool, w: Wire) returns (u: State, t: State)
      requires StateOk(Wrapping, st) && 0 <= w.sn < M32
      ensures u == AfterUna(Wrapping, st, regular, w) && t == OnCommand(Wrapping, u, w)
      ensures StateOk(Wrapping, u) && StateOk(Wrapping, t) && u.rcv == st.rcv && u.cfg == st.cfg
    {
      var l := Loop(st, false, false, 0);
      InputSegmentKeeps(Wrapping, l, regular, w);
      OnUnaKeeps(Wrapping, if regular then st.(rmt_wnd := w.wnd) else st, w.una);
      u := AfterUna(Wrapping, st, regular, w);
      t := OnCommand(Wrapping, u, w);
      assert t == InputSegment(Wrapping, l, regular, w).st;
    }

    /** One segment of a datagram. */
    method HandleSegment(w: Wire, regular: bool, slidIn: bool, ackedIn: bool, latestIn: u32)
      returns (slid: bool, acked: bool, latest: u32)
      requires Valid() && 0 <= w.una < M32 && 0 <= w.sn < M32 && IsStorable(RcvView(), cfg.rcv_wnd, w)
      modifies `rmt_wnd, `snd_una, `snd_buf, `acklist, `rcv_nxt, `rcv_queue, `rcv_buf, `pool, `probe
      ensures Valid()
      ensures Loop(View(), slid, acked, latest) ==
              InputSegment(Wrapping, Loop(old(View()), slidIn, ackedIn, latestIn), regular, w)
    {
      var slides := HandleFields(w, regular);
      slid := slidIn || slides;
      acked, latest := ackedIn, latestIn;
      if w.cmd == CMD_ACK { acked, latest := true, w.ts; }
    }

    /** Its una, then its command. */
    method HandleFields(w: Wire, regular: bool) returns (slides: bool)
      requires Valid() && 0 <= w.una < M32 && 0 <= w.sn < M32 && IsStorable(RcvView(), cfg.rcv_wnd, w)
      modifies `rmt_wnd, `snd_una, `snd_buf, `acklist, `rcv_nxt, `rcv_queue, `rcv_buf, `pool, `probe
      ensures Valid() && slides == (UnaCount(Wrapping, old(SndView()), w.una) > 0)
      ensures View() == OnCommand(Wrapping, AfterUna(Wrapping, old(View()), regular, w), w)
    {
      ghost var u, t := SegmentKeeps(View(), regular, w);
      slides := HandleUna(w, regular);
      assert View() == u && RcvOk(Wrapping, RcvView(), cfg.rcv_wnd);
      HandleCommand(w);
      assert View() == t;
    }

    /** The loop over the segments of a datagram, up to the first that is rejected. */
    method InputLoop(data: seq<byte>, regular: bool) returns (slid: bool, acked: bool, latest: u32, code: int)
      requires Valid() && StorableBytes(Loop(View(), false, false, 0), regular, data)
      modifies `rmt_wnd, `snd_una, `snd_buf, `acklist, `rcv_nxt, `rcv_queue, `rcv_buf, `pool, `probe
      ensures Valid()
      ensures (Loop(View(), slid, acked, latest), code) ==
              InputBytes(Loop(old(View()), false, false, 0), regular, data)
    {
      slid, acked, latest := false, false, 0;
      var rest := data;
      while |rest| >= OVERHEAD
        invariant Valid() && StorableBytes(Loop(View(), slid, acked, latest), regular, rest)
        invariant InputBytes(Loop(View(), slid, acked, latest), regular, rest) ==
                  InputBytes(Loop(old(View()), false, false, 0), regular, data)
        decreases |rest|
      {
        if At32(rest, 0) != cfg.conv { return slid, acked, latest, -1; }
        if At32(rest, 4) != cfg.session { return slid, acked, latest, -4; }
        if |rest| < OVERHEAD + HeadLength(rest) { return slid, acked, latest, -2; }
        if !KnownCommand(rest[8]) { return slid, acked, latest, -3; }
        var w := DecodeFront(rest);
        DecodedInRange(rest);
        slid, acked, latest := HandleSegment(w, regular, slid, acked, latest);
        rest := rest[OVERHEAD + HeadLength(rest)..];
      }
      return slid, acked, latest, 0;
    }

    /** Round-trip sample and congestion window, from the datagram just read. */
    method Learn(una: u32, regular: bool, acked: bool, latest: u32, now: u32, ghost l: Loop)
      requires Valid() && l.st == View() && l.acked == acked && l.latest == latest
      modifies `rtt, `cong
      ensures View() == AfterLoop(Wrapping, una, l, regular, now)
    {
      if acked && regular {
        if ITimeDiff(now, latest) >= 0 { UpdateRtt(ITimeDiff(now, latest)); }
      }
      if cfg.nocwnd == 0 {
        if ITimeDiff(snd_una, una) > 0 { GrowCwnd(); }
      }
    }

    /** A datagram from the network: any bytes at all, except that new data longer than a packet buffer
        stops the program. */
    method Input(data: seq<byte>, regular: bool, ackNoDelay: bool, now: u32, clock: nat -> u32) returns (code: int)
      requires Valid() && StorableBytes(Loop(View(), false, false, 0), regular, data)
      modifies this, buffer
      ensures Valid() && buffer == old(buffer)
      ensures var o := Engine.Input(old(View()), data, regular, ackNoDelay, now, clock);
              View() == o.st && output == old(output) + EncodeNet(o.out) && code == o.ret
    {
      if |data| < OVERHEAD {
        NothingSent(output);
        code := -1;
      } else {
        code := InputWhole(data, regular, ackNoDelay, now, clock);
      }
    }

    /** A datagram that holds a header at least. */
    method InputWhole(data: seq<byte>, regular: bool, ackNoDelay: bool, now: u32, clock: nat -> u32)
      returns (code: int)
      requires Valid() && StorableBytes(Loop(View(), false, false, 0), regular, data) && |data| >= OVERHEAD
      modifies this, buffer
      ensures Valid() && buffer == old(buffer)
      ensures var o := Engine.Input(old(View()), data, regular, ackNoDelay, now, clock);
              View() == o.st && output == old(output) + EncodeNet(o.out) && code == o.ret
    {
      var una := snd_una;
      NothingSent(output);
      ghost var st := View();
      var slid, acked, latest;
      slid, acked, latest, code := InputLoop(data, regular);
      ghost var l := Loop(View(), slid, acked, latest);
      LoopThenFinish(st, data, regular, ackNoDelay, now, clock, l, code);
      if code < 0 { return; }
      code := Conclude(una, regular, ackNoDelay, slid, acked, latest, now, clock, l);
    }

    static lemma LoopThenFinish(
        st: State, b: seq<byte>, regular: bool, ackNoDelay: bool, now: u32, clock: nat -> u32, l: Loop, code: int)
      requires st.cfg.mss > 0 && |b| >= OVERHEAD && InputBytes(Loop(st, false, false, 0), regular, b) == (l, code)
      ensures Engine.Input(st, b, regular, ackNoDelay, now, clock)
           == if code < 0 then Outcome(l.st, [], code)
              else Finish(Wrapping, st.snd.una, l, regular, ackNoDelay, now, clock)
    {}

    /** What follows the loop over the segments. */
    method Conclude(una: u32, regular: bool, ackNoDelay: bool, slid: bool, acked: bool, latest: u32,
                    now: u32, clock: nat -> u32, ghost l: Loop) returns (code: int)
      requires Valid() && l == Loop(View(), slid, acked, latest)
      modifies this, buffer
      ensures Valid() && buffer == old(buffer)
      ensures var o := Finish(Wrapping, una, l, regular, ackNoDelay, now, clock);
              View() == o.st && output == old(output) + EncodeNet(o.out) && code == o.ret
    {
      AfterLoopKeeps(Wrapping, una, l, regular, now);
      Learn(una, regular, acked, latest, now, l);
      Respond(slid, ackNoDelay, clock);
      return 0;
    }

    static lemma NothingSent(output: seq<seq<byte>>)
      ensures output + EncodeNet([]) == output
    {}

    /** The flush a datagram calls for. */
    method Respond(slid: bool, ackNoDelay: bool, clock: nat -> u32)
      requires Valid()
      modifies `snd_nxt, `snd_queue, `snd_buf, `acklist, `probe, `cong, `dead, `output, buffer
      ensures Valid()
      ensures var st := old(View());
              var o := if slid then Engine.Flush(Wrapping, st, false, clock)
                       else if ackNoDelay && |st.acks| > 0 then Engine.Flush(Wrapping, st, true, clock)
                       else Outcome(st, [], 0);
              View() == o.st && output == old(output) + EncodeNet(o.out)
    {
      if slid {
        var ret := Flush(false, clock);
      } else if ackNoDelay && |acklist| > 0 {
        var ret := Flush(true, clock);
      }
    }

    // ---------- the timer ----------

    method SetTimer(current: u32) returns (due: bool)
      modifies `timer
      ensures (timer, due) == Tick(old(timer), cfg.interval, current)
    {
      if !timer.updated { timer := Timer(true, current); }
      var slap := ITimeDiff(current, timer.ts_flush);
      if slap >= 10000 || slap < -10000 {
        timer := timer.(ts_flush := current);
        slap := 0;
      }
      due := slap >= 0;
      if due {
        timer := timer.(ts_flush := Wrap32(timer.ts_flush + cfg.interval));
        if ITimeDiff(current, timer.ts_flush) >= 0 {
          timer := timer.(ts_flush := Wrap32(current + cfg.interval));
        }
      }
    }

    /** Flushes when the timer says so. */
    method Update(current: u32, clock: nat -> u32)
      requires Valid()
      modifies this, buffer
      ensures Valid() && buffer == old(buffer)
      ensures var o := Engine.Update(Wrapping, old(View()), current, clock);
              View() == o.st && output == old(output) + EncodeNet(o.out)
    {
      var due := SetTimer(current);
      if due { var ret := Flush(false, clock); }
    }

    /** When Update should be called next. */
    method Check(current: u32) returns (next: u32)
      ensures next == Engine.Check(View(), current)
    {
      if !timer.updated { return current; }
      var ts_flush := timer.ts_flush;
      if ITimeDiff(current, ts_flush) >= 10000 || ITimeDiff(current, ts_flush) < -10000 { ts_flush := current; }
      if ITimeDiff(current, ts_flush) >= 0 { return current; }
      var tm_flush := ITimeDiff(ts_flush, current);
      var tm_packet: i32 := 0x7fff_ffff;
      var k := 0;
      while k < |snd_buf|
        invariant k <= |snd_buf| && tm_packet == Nearest(snd_buf, current, k) && tm_packet > 0
      {
        var diff := ITimeDiff(snd_buf[k].resendts, current);
        if diff <= 0 {
          NearestBound(snd_buf, current, k, |snd_buf|);
          return current;
        }
        if diff < tm_packet { tm_packet := diff; }
        k := k + 1;
      }
      var minimal := Wrap32(tm_packet);
      if tm_packet >= tm_flush { minimal := Wrap32(tm_flush); }
      if minimal >= cfg.interval { minimal := cfg.interval; }
      return Wrap32(current + minimal);
    }
  }
}
