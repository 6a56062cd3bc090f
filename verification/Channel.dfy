/** One direction of a connection: what the sending half of one end, the receiving half of the other,
    and the segments between them have to do with each other.  Numbers are unbounded here. */
module Channel {
  import opened Words
  import opened Segments
  import opened Sender
  import opened Receiver
  import opened Flushing
  import opened Messages

  /** The receiver has segment sn: delivered in order, or waiting in the reorder buffer. */
  ghost predicate Received(r: Rcv, sn: int) {
    sn < r.nxt || exists k :: 0 <= k < |r.buf| && r.buf[k].sn == sn
  }

  /** The sending half holds the fragments of the stream from una on; what it takes for acknowledged
      has been received. */
  ghost predicate SenderInv(s: Snd, stream: seq<Frag>, r: Rcv) {
    && 0 <= s.una <= r.nxt <= s.nxt == s.una + |s.buf|
    && |stream| == s.nxt + |s.queue|
    && (forall k :: 0 <= k < |s.buf| ==> Sends(s, stream, r, k))
    && FragsOf(s.queue) == stream[s.nxt..]
  }

  ghost predicate Sends(s: Snd, stream: seq<Frag>, r: Rcv, k: nat)
    requires k < |s.buf|
  {
    && s.buf[k].sn == s.una + k
    && (s.buf[k].acked ==> Received(r, s.buf[k].sn))
    && (!s.buf[k].acked ==> 0 <= s.una + k < |stream| && FragOf(s.buf[k]) == stream[s.una + k])
  }

  /** The receiving half: everything ever delivered in order, read or not, is a prefix of the stream. */
  ghost predicate ReceiverInv(r: Rcv, stream: seq<Frag>, nxt: int, read: seq<Frag>) {
    && 0 <= r.nxt <= nxt <= |stream|
    && read + FragsOf(r.queue) == stream[..r.nxt]
    && forall k :: 0 <= k < |r.buf| ==> Holds(r.buf[k], stream, nxt)
  }

  ghost predicate Holds(seg: Segment, stream: seq<Frag>, nxt: int) {
    0 <= seg.sn < nxt <= |stream| && FragOf(seg) == stream[seg.sn]
  }

  /** A data segment on its way: the sn-th fragment of the stream, and inside the receiver's window. */
  ghost predicate PushOk(w: Wire, stream: seq<Frag>, nxt: int, limit: int) {
    w.cmd == CMD_PUSH ==> 0 <= w.sn < nxt <= |stream| && Frag(w.frg, w.data) == stream[w.sn] && w.sn < limit
  }

  /** What any segment of the receiving end announces is true. */
  ghost predicate NewsOk(w: Wire, r: Rcv, wnd: nat) {
    && 0 <= w.una <= r.nxt && w.wnd <= wnd
    && (w.cmd == CMD_ACK ==> 0 <= w.sn && Received(r, w.sn))
  }

  ghost predicate AcksReceived(r: Rcv, acks: seq<Ack>) {
    forall k :: 0 <= k < |acks| ==> 0 <= acks[k].sn && Received(r, acks[k].sn)
  }

  // ---------- the receiving half ----------

  /** Nothing received is ever forgotten. */
  ghost predicate Grows(r: Rcv, r': Rcv) {
    r.nxt <= r'.nxt && forall sn {:trigger Received(r', sn)} :: Received(r, sn) ==> Received(r', sn)
  }

  lemma InsertGrows(r: Rcv, seg: Segment)
    ensures Grows(r, Insert(Exact, r, seg)) && Received(Insert(Exact, r, seg), seg.sn)
  {
    var t := Insert(Exact, r, seg);
    var i := Place(Exact, r, seg.sn);
    if !Repeated(Exact, r, seg.sn) {
      assert t.buf[i] == seg;
      assert forall k :: 0 <= k < |r.buf| ==> r.buf[k] == t.buf[if k < i then k else k + 1];
    }
  }

  lemma AdvanceGrows(r: Rcv, wnd: nat)
    ensures Grows(r, Advance(Exact, r, wnd))
  {
    var n := Ready(Exact, r, wnd);
    var t := Advance(Exact, r, wnd);
    forall sn | Received(r, sn) ensures Received(t, sn) {
      if sn >= r.nxt {
        var k :| 0 <= k < |r.buf| && r.buf[k].sn == sn;
        if k < n {
          assert r.buf[k].sn == Add(Exact, r.nxt, k);
        } else {
          assert t.buf[k - n] == r.buf[k];
        }
      }
    }
  }

  lemma InsertInv(r: Rcv, stream: seq<Frag>, nxt: int, read: seq<Frag>, seg: Segment)
    requires ReceiverInv(r, stream, nxt, read) && Holds(seg, stream, nxt)
    ensures ReceiverInv(Insert(Exact, r, seg), stream, nxt, read)
  {
    var t := Insert(Exact, r, seg);
    var i := Place(Exact, r, seg.sn);
    if !Repeated(Exact, r, seg.sn) {
      forall k | 0 <= k < |t.buf| ensures Holds(t.buf[k], stream, nxt) {
        assert t.buf[k] == if k < i then r.buf[k] else if k == i then seg else r.buf[k-1];
      }
    }
  }

  lemma AdvanceInv(r: Rcv, wnd: nat, stream: seq<Frag>, nxt: int, read: seq<Frag>)
    requires ReceiverInv(r, stream, nxt, read)
    ensures ReceiverInv(Advance(Exact, r, wnd), stream, nxt, read)
  {
    var n := Ready(Exact, r, wnd);
    var t := Advance(Exact, r, wnd);
    if n > 0 { assert r.buf[n-1].sn == Add(Exact, r.nxt, n - 1) && Holds(r.buf[n-1], stream, nxt); }
    var moved := FragsOf(r.buf[..n]);
    forall k | 0 <= k < n ensures moved[k] == stream[r.nxt + k] {
      assert Holds(r.buf[k], stream, nxt) && r.buf[k].sn == Add(Exact, r.nxt, k);
    }
    assert moved == stream[r.nxt..r.nxt + n];
    assert FragsOf(t.queue) == FragsOf(r.queue) + moved;
    assert stream[..t.nxt] == stream[..r.nxt] + stream[r.nxt..r.nxt + n];
    forall k | 0 <= k < |t.buf| ensures Holds(t.buf[k], stream, nxt) { assert t.buf[k] == r.buf[n + k]; }
  }

  /** Reading the first n segments of the queue, and refilling it. */
  lemma ReadInv(r: Rcv, wnd: nat, stream: seq<Frag>, nxt: int, read: seq<Frag>, n: nat)
    requires ReceiverInv(r, stream, nxt, read) && n <= |r.queue|
    ensures var t := Advance(Exact, r.(queue := r.queue[n..]), wnd);
            ReceiverInv(t, stream, nxt, read + FragsOf(r.queue[..n])) && Grows(r, t)
  {
    var mid := r.(queue := r.queue[n..]);
    assert FragsOf(r.queue) == FragsOf(r.queue[..n]) + FragsOf(mid.queue);
    assert read + FragsOf(r.queue) == read + FragsOf(r.queue[..n]) + FragsOf(mid.queue);
    AdvanceInv(mid, wnd, stream, nxt, read + FragsOf(r.queue[..n]));
    AdvanceGrows(mid, wnd);
    assert forall sn :: Received(r, sn) <==> Received(mid, sn);
  }

  /** A data segment of the stream arrives: it is received, unless it lies beyond the window. */
  lemma ParseDataInv(r: Rcv, wnd: nat, stream: seq<Frag>, nxt: int, read: seq<Frag>, seg: Segment)
    requires ReceiverInv(r, stream, nxt, read) && Holds(seg, stream, nxt)
    ensures var t := ParseData(Exact, r, wnd, seg);
            ReceiverInv(t, stream, nxt, read) && Grows(r, t) && (seg.sn < r.nxt + wnd ==> Received(t, seg.sn))
  {
    if InWindow(Exact, r, wnd, seg.sn) {
      InsertInv(r, stream, nxt, read, seg);
      InsertGrows(r, seg);
      AdvanceInv(Insert(Exact, r, seg), wnd, stream, nxt, read);
      AdvanceGrows(Insert(Exact, r, seg), wnd);
    }
  }

  // ---------- the sending half ----------

  lemma SenderInvGrows(s: Snd, stream: seq<Frag>, r: Rcv, r': Rcv)
    requires SenderInv(s, stream, r) && Grows(r, r') && r'.nxt <= s.nxt
    ensures SenderInv(s, stream, r')
  {
    forall k | 0 <= k < |s.buf| ensures Sends(s, stream, r', k) { assert Sends(s, stream, r, k); }
  }

  /** A true cumulative acknowledgement. */
  lemma AckFrontInv(s: Snd, stream: seq<Frag>, r: Rcv, una: int)
    requires SenderInv(s, stream, r) && una <= r.nxt
    ensures SenderInv(ShrinkBuf(ParseUna(Exact, s, una)), stream, r)
    ensures ShrinkBuf(ParseUna(Exact, s, una)).una >= s.una
  {
    var n := UnaCount(Exact, s, una);
    var t := ShrinkBuf(ParseUna(Exact, s, una));
    assert forall k :: 0 <= k < |t.buf| ==> t.buf[k] == s.buf[n + k] && Sends(s, stream, r, n + k);
    if |t.buf| > 0 { assert t.buf[0].sn == s.una + n; }
  }

  /** A true selective acknowledgement. */
  lemma ParseAckInv(s: Snd, stream: seq<Frag>, r: Rcv, sn: int)
    requires SenderInv(s, stream, r) && Received(r, sn)
    ensures SenderInv(ParseAck(Exact, s, sn), stream, r)
  {
    var t := ParseAck(Exact, s, sn);
    forall k | 0 <= k < |t.buf| ensures Sends(t, stream, r, k) { assert Sends(s, stream, r, k); }
  }

  lemma ParseFastackInv(s: Snd, stream: seq<Frag>, r: Rcv, sn: int, ts: u32)
    requires SenderInv(s, stream, r)
    ensures SenderInv(ParseFastack(Exact, s, sn, ts), stream, r)
  {
    var t := ParseFastack(Exact, s, sn, ts);
    forall k | 0 <= k < |t.buf| ensures Sends(t, stream, r, k) { assert Sends(s, stream, r, k); }
  }

  lemma NumberInv(s: Snd, stream: seq<Frag>, r: Rcv, conv: u32, session: u32, cwnd: nat)
    requires SenderInv(s, stream, r)
    requires forall k :: 0 <= k < |s.queue| ==> !s.queue[k].acked
    ensures SenderInv(Number(Exact, s, conv, session, cwnd), stream, r)
  {
    var n := NumberCount(s, cwnd);
    var t := Number(Exact, s, conv, session, cwnd);
    forall k | 0 <= k < |t.buf| ensures Sends(t, stream, r, k) {
      if k < |s.buf| {
        assert t.buf[k] == s.buf[k] && Sends(s, stream, r, k);
      } else {
        var i := k - |s.buf|;
        assert t.buf[k] == Numbered(s.queue[i], conv, session, s.nxt + i);
        assert FragsOf(s.queue)[i] == stream[s.nxt..][i];
      }
    }
    assert FragsOf(t.queue) == FragsOf(s.queue)[n..];
  }

  lemma ScanInv(s: Snd, stream: seq<Frag>, r: Rcv, done: seq<Segment>)
    requires SenderInv(s, stream, r)
    requires |done| == |s.buf| && forall k :: 0 <= k < |done| ==> SameSegment(s.buf[k], done[k])
    ensures SenderInv(s.(buf := done), stream, r)
  {
    var t := s.(buf := done);
    forall k | 0 <= k < |t.buf| ensures Sends(t, stream, r, k) {
      assert Sends(s, stream, r, k) && SameSegment(s.buf[k], done[k]);
    }
  }

  lemma SendInv(s: Snd, stream: seq<Frag>, r: Rcv, q: seq<Segment>)
    requires SenderInv(s, stream, r)
    ensures SenderInv(s.(queue := s.queue + q), stream + FragsOf(q), r)
  {
    var t := s.(queue := s.queue + q);
    var stream' := stream + FragsOf(q);
    forall k | 0 <= k < |t.buf| ensures Sends(t, stream', r, k) { assert Sends(s, stream, r, k); }
    assert FragsOf(t.queue) == FragsOf(s.queue) + FragsOf(q);
  }

  /** A longer stream, or more numbers given out, changes nothing for the receiving half. */
  lemma ReceiverInvStream(r: Rcv, stream: seq<Frag>, nxt: int, read: seq<Frag>, stream': seq<Frag>, nxt': int)
    requires ReceiverInv(r, stream, nxt, read) && stream <= stream' && nxt <= nxt' <= |stream'|
    ensures ReceiverInv(r, stream', nxt', read)
  {
    forall k | 0 <= k < |r.buf| ensures Holds(r.buf[k], stream', nxt') { assert Holds(r.buf[k], stream, nxt); }
    assert stream'[..r.nxt] == stream[..r.nxt];
  }
}
