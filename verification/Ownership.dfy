/** Packet buffers have one owner each: the pool, or one segment in one of the four lists.  Every
    operation of the control block keeps the account of all buffers ever made. */
module Ownership {
  import opened Words
  import opened Segments
  import opened Sender
  import opened Receiver
  import opened Flushing
  import opened BufferPool
  import opened Engine
  import opened Invariants

  function Sending(s: Snd): multiset<nat> { Ids(s.queue) + Ids(s.buf) }

  function Receiving(r: Rcv): multiset<nat> { Ids(r.queue) + Ids(r.buf) }

  /** The free buffers and those owned by segments are the buffers made, each once. */
  ghost predicate Balanced(st: State) {
    st.pool.free + Sending(st.snd) + Receiving(st.rcv) == All(st.pool.made)
  }

  /** No buffer is owned twice, or owned and free. */
  lemma OwnedOnce(st: State, id: nat)
    requires Balanced(st)
    ensures st.pool.free[id] + Ids(st.snd.queue)[id] + Ids(st.snd.buf)[id] + Ids(st.rcv.queue)[id] + Ids(st.rcv.buf)[id]
            == if id < st.pool.made then 1 else 0
  {
    AllOnce(st.pool.made, id);
    assert (st.pool.free + Sending(st.snd) + Receiving(st.rcv))[id] == All(st.pool.made)[id];
  }

  lemma {:induction false} IdsHas(q: seq<Segment>, k: nat)
    requires k < |q| && q[k].body.Buf?
    ensures q[k].body.id in Ids(q)
  {
    if k < |q| - 1 { IdsHas(q[..|q|-1], k); }
  }

  // ---------- Send and Recv ----------

  lemma GetAdds(p: Pool, owned: multiset<nat>)
    requires p.free + owned == All(p.made)
    ensures Get(p).free + (owned + multiset{GetId(p)}) == All(Get(p).made)
  {
    GetConserves(p);
  }

  /** The pieces of a message own the buffers taken for them. */
  lemma {:induction false} PiecesBalance(p: Pool, msg: seq<byte>, mss: nat, count: nat, owned: multiset<nat>)
    requires count <= 0x100 && p.free + owned == All(p.made)
    ensures var (q, p') := Pieces(p, msg, mss, count); p'.free + (owned + Ids(q)) == All(p'.made)
    decreases count
  {
    if count > 0 {
      var size := Min(|msg|, mss);
      GetAdds(p, owned);
      PiecesBalance(Get(p), msg[size..], mss, count - 1, owned + multiset{GetId(p)});
      FirstOwns(Piece(count - 1, GetId(p), msg[..size]), Pieces(Get(p), msg[size..], mss, count - 1).0, owned);
    }
  }

  lemma FirstOwns(first: Segment, rest: seq<Segment>, owned: multiset<nat>)
    ensures owned + Ids([first] + rest) == (owned + IdOf(first.body)) + Ids(rest)
  {
    IdsConcat([first], rest);
    IdsOne(first);
    SumsRegroup(owned, IdOf(first.body), Ids(rest));
  }

  lemma QueueOwns(s: Snd, r: Rcv, q: seq<Segment>)
    ensures Sending(s.(queue := s.queue + q)) + Receiving(r) == (Sending(s) + Receiving(r)) + Ids(q)
  {
    IdsConcat(s.queue, q);
  }

  lemma SendBalances(st: State, msg: seq<byte>)
    requires Balanced(st) && st.cfg.mss > 0
    ensures Balanced(Send(st, msg).0)
  {
    var n := FragmentCount(|msg|, st.cfg.mss);
    if 0 < |msg| && n <= 255 {
      var owned := Sending(st.snd) + Receiving(st.rcv);
      var (q, p) := Pieces(st.pool, msg, st.cfg.mss, n);
      SumsRegroup(st.pool.free, Sending(st.snd), Receiving(st.rcv));
      assert p.free + (owned + Ids(q)) == All(p.made) by { PiecesBalance(st.pool, msg, st.cfg.mss, n, owned); }
      QueueOwns(st.snd, st.rcv, q);
      SumsRegroup(p.free, Sending(st.snd.(queue := st.snd.queue + q)), Receiving(st.rcv));
    }
  }

  lemma AdvanceOwns(m: Arith, r: Rcv, wnd: nat)
    ensures Receiving(Advance(m, r, wnd)) == Receiving(r)
  {
    var n := Ready(m, r, wnd);
    IdsConcat(r.queue, r.buf[..n]);
    IdsSplit(r.buf, n);
  }

  lemma RestOwns(r: Rcv)
    ensures Receiving(r) == Receiving(Rest(r)) + Ids(r.queue[..Front(r.queue)])
  {
    IdsSplit(r.queue, Front(r.queue));
  }

  lemma Freed(
      free: multiset<nat>, sending: multiset<nat>, before: multiset<nat>, after: multiset<nat>, ids: multiset<nat>)
    requires before == after + ids
    ensures (free + ids) + sending + after == free + sending + before
  {}

  lemma ReceiveBalances(m: Arith, st: State, room: nat)
    requires Balanced(st)
    ensures Balanced(Receive(m, st, room).0)
  {
    var r := Recv(m, st.rcv, st.cfg.rcv_wnd, room);
    if r.code >= 0 { ReadBalances(m, st, r); }
  }

  lemma ReadBalances(m: Arith, st: State, r: Read)
    requires Balanced(st) && r.code >= 0 && r.rcv == Advance(m, Rest(st.rcv), st.cfg.rcv_wnd)
    ensures Balanced(AfterRead(st, r))
  {
    RestOwns(st.rcv);
    AdvanceOwns(m, Rest(st.rcv), st.cfg.rcv_wnd);
    var ids := Ids(st.rcv.queue[..Front(st.rcv.queue)]);
    Freed(st.pool.free, Sending(st.snd), Receiving(st.rcv), Receiving(Rest(st.rcv)), ids);
  }

  // ---------- Input ----------

  lemma OnUnaBalances(m: Arith, st: State, una: int)
    requires Balanced(st)
    ensures Balanced(OnUna(m, st, una))
  {
    IdsSplit(st.snd.buf, UnaCount(m, st.snd, una));
  }

  lemma Exchange(a: multiset<nat>, b: multiset<nat>, more: multiset<nat>, x: multiset<nat>, y: multiset<nat>)
    requires a + x == b + y
    ensures (a + more) + x == (b + more) + y && (more + a) + x == (more + b) + y
  {
    calc { (a + more) + x; (a + x) + more; (b + y) + more; (b + more) + y; }
    assert more + a == a + more && more + b == b + more;
  }

  /** Replacing one segment exchanges its buffer. */
  lemma {:induction false} UpdateOwns(q: seq<Segment>, k: nat, x: Segment)
    requires k < |q|
    ensures Ids(q) + IdOf(x.body) == Ids(q[k := x]) + IdOf(q[k].body)
  {
    var n := |q| - 1;
    var t := q[k := x];
    if k == n {
      assert t[..n] == q[..n];
    } else {
      assert t[..n] == q[..n][k := x] && t[n] == q[n];
      UpdateOwns(q[..n], k, x);
      Exchange(Ids(q[..n]), Ids(t[..n]), IdOf(q[n].body), IdOf(x.body), IdOf(q[k].body));
    }
  }

  lemma AckOwns(m: Arith, s: Snd, sn: int)
    ensures Sending(s) == Sending(ParseAck(m, s, sn)) + Ids(Named(m, s, sn))
  {
    var k := Off(m, sn, s.una);
    if 0 <= k < |s.buf| {
      var t := MarkAcked(s.buf[k]);
      UpdateOwns(s.buf, k, t);
      IdsOne(s.buf[k]);
      Exchange(Ids(s.buf), Ids(s.buf[k := t]), Ids(s.queue), IdOf(t.body), IdOf(s.buf[k].body));
    }
  }

  lemma FastackOwns(m: Arith, s: Snd, sn: int, ts: u32)
    ensures Sending(ParseFastack(m, s, sn, ts)) == Sending(s)
  {
    IdsSameBodies(ParseFastack(m, s, sn, ts).buf, s.buf);
  }

  lemma OnAckBalances(m: Arith, st: State, sn: int, ts: u32)
    requires Balanced(st)
    ensures Balanced(OnAckSegment(m, st, sn, ts))
  {
    AckOwns(m, st.snd, sn);
    FastackOwns(m, ParseAck(m, st.snd, sn), sn, ts);
  }

  lemma InsertOwns(m: Arith, r: Rcv, seg: Segment)
    requires !Repeated(m, r, seg.sn)
    ensures Receiving(Insert(m, r, seg)) == Receiving(r) + IdOf(seg.body)
  {
    var i := Place(m, r, seg.sn);
    IdsSplit(r.buf, i);
    IdsConcat(r.buf[..i] + [seg], r.buf[i..]);
    IdsConcat(r.buf[..i], [seg]);
    IdsOne(seg);
  }

  lemma StoreBalances(m: Arith, st: State, w: Wire)
    requires Balanced(st) && InWindow(m, st.rcv, st.cfg.rcv_wnd, w.sn)
    ensures Balanced(Store(m, st, w))
  {
    var seg := Accepted(w, GetId(st.pool));
    var stored := Store(m, st, w).rcv;
    assert Receiving(stored) == Receiving(Insert(m, st.rcv, seg)) by {
      AdvanceOwns(m, Insert(m, st.rcv, seg), st.cfg.rcv_wnd);
    }
    if !Repeated(m, st.rcv, w.sn) {
      InsertOwns(m, st.rcv, seg);
      NewBufferOwned(st.pool, Sending(st.snd), Receiving(st.rcv), Receiving(stored));
    }
  }

  lemma NewBufferOwned(p: Pool, sending: multiset<nat>, before: multiset<nat>, after: multiset<nat>)
    requires p.free + sending + before == All(p.made) && after == before + multiset{GetId(p)}
    ensures Get(p).free + sending + after == All(Get(p).made)
  {
    SumsRegroup(p.free, sending, before);
    GetAdds(p, sending + before);
    SumsRegroup(sending, before, multiset{GetId(p)});
    SumsRegroup(Get(p).free, sending, after);
  }

  lemma OnPushBalances(m: Arith, st: State, w: Wire)
    requires Balanced(st)
    ensures Balanced(OnPush(m, st, w))
  {
    var acked := st.(acks := st.acks + [Ack(w.sn, w.ts)]);
    if InWindow(m, st.rcv, st.cfg.rcv_wnd, w.sn) { StoreBalances(m, acked, w); }
  }

  lemma OnCommandBalances(m: Arith, st: State, w: Wire)
    requires Balanced(st)
    ensures Balanced(OnCommand(m, st, w))
  {
    if w.cmd == CMD_ACK {
      OnAckBalances(m, st, w.sn, w.ts);
    } else if w.cmd == CMD_PUSH {
      OnPushBalances(m, st, w);
    }
  }

  lemma InputSegmentBalances(m: Arith, l: Loop, regular: bool, w: Wire)
    requires Balanced(l.st)
    ensures Balanced(InputSegment(m, l, regular, w).st)
  {
    OnUnaBalances(m, if regular then l.st.(rmt_wnd := w.wnd) else l.st, w.una);
    OnCommandBalances(m, AfterUna(m, l.st, regular, w), w);
  }

  lemma {:induction false} InputBytesBalance(l: Loop, regular: bool, b: seq<byte>)
    requires Balanced(l.st)
    ensures Balanced(InputBytes(l, regular, b).0.st)
    decreases |b|
  {
    var more, t, rest := FirstOfBytes(l, regular, b);
    if more {
      assert Balanced(t.st) by { InputSegmentBalances(Wrapping, l, regular, DecodeFront(b)); }
      InputBytesBalance(t, regular, rest);
    }
  }

  // ---------- flush ----------

  lemma NumberOwns(m: Arith, s: Snd, conv: u32, session: u32, cwnd: nat)
    ensures Sending(Number(m, s, conv, session, cwnd)) == Sending(s)
  {
    var n := NumberCount(s, cwnd);
    var numbered := NumberedAll(m, s.queue[..n], conv, session, s.nxt);
    IdsSplit(s.queue, n);
    IdsConcat(s.buf, numbered);
    IdsSameBodies(numbered, s.queue[..n]);
  }

  lemma ScanOwns(buf: seq<Segment>, done: seq<Segment>)
    requires |buf| == |done| && forall k :: 0 <= k < |done| ==> SameSegment(buf[k], done[k])
    ensures Ids(done) == Ids(buf)
  {
    forall k | 0 <= k < |done| ensures done[k].body == buf[k].body { assert SameSegment(buf[k], done[k]); }
    IdsSameBodies(done, buf);
  }

  lemma FlushBalances(m: Arith, st: State, ackOnly: bool, clock: nat -> u32)
    requires StateOk(m, st) && Balanced(st)
    ensures Balanced(Flush(m, st, ackOnly, clock).st)
  {
    if !ackOnly {
      NumberOwns(m, st.snd, st.cfg.conv, st.cfg.session, Window(st));
      FullScanOk(m, st, clock);
      ScanOwns(NumberedSnd(m, st).buf, FullScan(m, st, clock).done);
    }
  }

  /** Any bytes at all keep the account. */
  lemma InputBalances(st: State, b: seq<byte>, regular: bool, ackNoDelay: bool, now: u32, clock: nat -> u32)
    requires StateOk(Wrapping, st) && Balanced(st)
    ensures Balanced(Input(st, b, regular, ackNoDelay, now, clock).st)
  {
    var l := Loop(st, false, false, 0);
    InputBytesKeep(l, regular, b);
    InputBytesBalance(l, regular, b);
    FinishBalances(Wrapping, st.snd.una, InputBytes(l, regular, b).0, regular, ackNoDelay, now, clock);
  }

  lemma FinishBalances(m: Arith, una: int, l: Loop, regular: bool, ackNoDelay: bool, now: u32, clock: nat -> u32)
    requires StateOk(m, l.st) && Balanced(l.st)
    ensures Balanced(Finish(m, una, l, regular, ackNoDelay, now, clock).st)
  {
    AfterLoopKeeps(m, una, l, regular, now);
    var st := AfterLoop(m, una, l, regular, now);
    FlushBalances(m, st, false, clock);
    FlushBalances(m, st, true, clock);
  }

  /** The segment behind a data segment sent. */
  lemma DataIsOwned(m: Arith, st: State, t: State, w: Wire)
    requires StateOk(m, t) && Balanced(t) && DataFrom(st, t.snd.buf, w)
    ensures exists k :: 0 <= k < |t.snd.buf| && w == t.snd.buf[k].ToWire()
                        && t.snd.buf[k].body.Buf? && t.snd.buf[k].body.id !in t.pool.free
  {
    var k :| 0 <= k < |t.snd.buf| && !t.snd.buf[k].acked && w == t.snd.buf[k].ToWire();
    assert InFlight(t.snd.buf[k], t.cfg.mss);
    IdsHas(t.snd.buf, k);
    OwnedOnce(t, t.snd.buf[k].body.id);
  }

  /** What a flush sends it sends from buffers that are not free: no released body is ever encoded. */
  lemma SentIsOwned(m: Arith, st: State, clock: nat -> u32, w: Wire)
    requires StateOk(m, st) && Balanced(st)
    requires w in Flatten(Flush(m, st, false, clock).out) && w.cmd == CMD_PUSH
    ensures var t := Flush(m, st, false, clock).st;
            exists k :: 0 <= k < |t.snd.buf| && w == t.snd.buf[k].ToWire()
                        && t.snd.buf[k].body.Buf? && t.snd.buf[k].body.id !in t.pool.free
  {
    var t := Flush(m, st, false, clock).st;
    FlushEmits(m, st, false, clock);
    FlushKeeps(m, st, false, clock);
    FlushBalances(m, st, false, clock);
    assert DataFrom(st, t.snd.buf, w);
    DataIsOwned(m, st, t, w);
  }
}
