/** The sending half of a control block: the queue of segments not numbered yet and the
    buffer of numbered segments in flight, with cumulative and selective acknowledgement. */
module Sender {
  import opened Words
  import opened Segments

  /** una: the oldest number in flight; nxt: the next number to give out. */
  datatype Snd = Snd(una: int, nxt: int, queue: seq<Segment>, buf: seq<Segment>)

  // ---------- what every operation keeps ----------

  /** The k-th segment carries the k-th number from first on. */
  ghost predicate Chain(m: Arith, first: int, buf: seq<Segment>) {
    forall k :: 0 <= k < |buf| ==> buf[k].sn == Add(m, first, k)
  }

  /** In flight: a body is gone exactly when the segment has been acknowledged. */
  ghost predicate InFlight(seg: Segment, mss: nat) {
    && (seg.acked <==> seg.body.Nil?)
    && |seg.body.Data()| <= mss
    && seg.cmd == CMD_PUSH
  }

  /** Queued: never sent, body in place. */
  ghost predicate Waiting(seg: Segment, mss: nat) {
    && seg.body.Buf? && |seg.body.Data()| <= mss
    && !seg.acked && seg.xmit == 0 && seg.fastack == 0 && seg.rto == 0
  }

  /** Numbered exactly una..nxt-1 without gaps, at most lim segments in flight. */
  ghost predicate SndOk(m: Arith, s: Snd, lim: nat, mss: nat) {
    && lim < 0x1_0000 && |s.buf| <= lim
    && Represented(m, s.una)
    && s.nxt == Add(m, s.una, |s.buf|)
    && Chain(m, s.una, s.buf)
    && (forall k :: 0 <= k < |s.buf| ==> InFlight(s.buf[k], mss))
    && (forall k :: 0 <= k < |s.queue| ==> Waiting(s.queue[k], mss))
  }

  // ---------- acknowledgement ----------

  /** How many segments a cumulative acknowledgement takes off the front. */
  function UnaCount(m: Arith, s: Snd, una: int): (n: nat)
    ensures n <= |s.buf|
  {
    var d := Diff(m, una, s.una);
    if d <= 0 then 0 else Min(d, |s.buf|)
  }

  function ParseUna(m: Arith, s: Snd, una: int): Snd {
    s.(buf := s.buf[UnaCount(m, s, una)..])
  }

  function ShrinkBuf(s: Snd): Snd {
    s.(una := if |s.buf| > 0 then s.buf[0].sn else s.nxt)
  }

  function MarkAcked(seg: Segment): Segment {
    seg.(acked := true, body := Nil)
  }

  function ParseAck(m: Arith, s: Snd, sn: int): Snd {
    var k := Off(m, sn, s.una);
    if 0 <= k < |s.buf| then s.(buf := s.buf[k := MarkAcked(s.buf[k])]) else s
  }

  /** A segment overtaken by an acknowledgement of a later one that was sent no earlier. */
  function Overtaken(seg: Segment, ts: u32): Segment {
    if ITimeDiff(seg.ts, ts) <= 0 then seg.(fastack := Wrap32(seg.fastack + 1)) else seg
  }

  function ParseFastack(m: Arith, s: Snd, sn: int, ts: u32): Snd {
    var n := Off(m, sn, s.una);
    if 0 <= n < |s.buf|
    then s.(buf := seq(|s.buf|, i requires 0 <= i < |s.buf| => if i < n then Overtaken(s.buf[i], ts) else s.buf[i]))
    else s
  }

  /** One comparison of the cumulative acknowledgement's loop. */
  lemma UnaTest(m: Arith, s: Snd, una: int, lim: nat, mss: nat, k: nat)
    requires SndOk(m, s, lim, mss) && k < |s.buf| && k <= UnaCount(m, s, una)
    ensures Diff(m, una, s.buf[k].sn) > 0 <==> k < UnaCount(m, s, una)
  {
    AddAdd(m, s.una, 0, k);
    if k > 0 || Diff(m, una, s.una) >= 0 { DiffAdd(m, una, s.una, k); }
  }

  /** The comparisons of the loops over a selective acknowledgement inside the window. */
  lemma AckTest(m: Arith, s: Snd, sn: int, lim: nat, mss: nat, k: nat)
    requires SndOk(m, s, lim, mss) && k < |s.buf| && Represented(m, sn)
    requires 0 <= Off(m, sn, s.una) < |s.buf|
    ensures sn == s.buf[k].sn <==> k == Off(m, sn, s.una)
    ensures Diff(m, sn, s.buf[k].sn) < 0 <==> k > Off(m, sn, s.una)
  {
    var n := Off(m, sn, s.una);
    AddOff(m, sn, s.una);
    OffAdd(m, s.una, k);
    DiffAdd(m, sn, s.una, k);
  }

  // ---------- numbering ----------

  /** How many queued segments fit in the window. */
  function NumberCount(s: Snd, cwnd: nat): (n: nat)
    ensures n <= |s.queue|
  {
    Min(|s.queue|, Max(0, cwnd - |s.buf|))
  }

  function Numbered(seg: Segment, conv: u32, session: u32, sn: int): Segment {
    seg.(conv := conv, session := session, cmd := CMD_PUSH, sn := sn)
  }

  function NumberedAll(m: Arith, q: seq<Segment>, conv: u32, session: u32, nxt: int): (r: seq<Segment>)
    ensures |r| == |q|
  {
    seq(|q|, i requires 0 <= i < |q| => Numbered(q[i], conv, session, Add(m, nxt, i)))
  }

  function Number(m: Arith, s: Snd, conv: u32, session: u32, cwnd: nat): Snd {
    var n := NumberCount(s, cwnd);
    Snd(s.una, Add(m, s.nxt, n), s.queue[n..], s.buf + NumberedAll(m, s.queue[..n], conv, session, s.nxt))
  }

  /** One comparison of the numbering loop. */
  lemma NumberTest(m: Arith, s: Snd, lim: nat, mss: nat, cwnd: nat, k: nat)
    requires SndOk(m, s, lim, mss) && cwnd <= lim && k <= NumberCount(s, cwnd)
    ensures Diff(m, Add(m, s.nxt, k), Add(m, s.una, cwnd)) < 0 <==> |s.buf| + k < cwnd
  {
    AddAdd(m, s.una, |s.buf|, k);
    AddsDiff(m, s.una, |s.buf| + k, cwnd);
  }

  /** Numbering one segment more. */
  lemma NumberedOneMore(m: Arith, q: seq<Segment>, conv: u32, session: u32, nxt: int, k: nat)
    requires k < |q|
    ensures NumberedAll(m, q[..k+1], conv, session, nxt)
         == NumberedAll(m, q[..k], conv, session, nxt) + [Numbered(q[k], conv, session, Add(m, nxt, k))]
  {}

  // ---------- preservation ----------

  lemma AckFrontKeeps(m: Arith, s: Snd, una: int, lim: nat, mss: nat)
    requires SndOk(m, s, lim, mss)
    ensures var t := ShrinkBuf(ParseUna(m, s, una));
            && SndOk(m, t, lim, mss)
            && t.una == Add(m, s.una, UnaCount(m, s, una)) && t.nxt == s.nxt
  {
    var n := UnaCount(m, s, una);
    var t := ShrinkBuf(ParseUna(m, s, una));
    assert t.buf == s.buf[n..];
    AddAdd(m, s.una, n, |s.buf| - n);
    forall k | 0 <= k < |t.buf| ensures t.buf[k].sn == Add(m, t.una, k) && InFlight(t.buf[k], mss) {
      assert t.buf[k] == s.buf[n + k];
      AddAdd(m, s.una, n, k);
    }
  }

  lemma ParseAckKeeps(m: Arith, s: Snd, sn: int, lim: nat, mss: nat)
    requires SndOk(m, s, lim, mss)
    ensures SndOk(m, ParseAck(m, s, sn), lim, mss)
  {}

  lemma ParseFastackKeeps(m: Arith, s: Snd, sn: int, ts: u32, lim: nat, mss: nat)
    requires SndOk(m, s, lim, mss)
    ensures SndOk(m, ParseFastack(m, s, sn, ts), lim, mss)
  {
    var t := ParseFastack(m, s, sn, ts);
    forall k | 0 <= k < |t.buf| ensures t.buf[k].sn == s.buf[k].sn && InFlight(t.buf[k], mss) {
      assert InFlight(s.buf[k], mss);
    }
  }

  lemma NumberKeeps(m: Arith, s: Snd, conv: u32, session: u32, cwnd: nat, lim: nat, mss: nat)
    requires SndOk(m, s, lim, mss) && cwnd <= lim
    ensures var t := Number(m, s, conv, session, cwnd);
            SndOk(m, t, lim, mss) && |t.buf| == |s.buf| + NumberCount(s, cwnd)
  {
    var n := NumberCount(s, cwnd);
    var t := Number(m, s, conv, session, cwnd);
    AddAdd(m, s.una, |s.buf|, n);
    forall k | 0 <= k < |t.buf| ensures t.buf[k].sn == Add(m, t.una, k) && InFlight(t.buf[k], mss) {
      if k >= |s.buf| {
        AddAdd(m, s.una, |s.buf|, k - |s.buf|);
        assert Waiting(s.queue[k - |s.buf|], mss);
      }
    }
  }
}
