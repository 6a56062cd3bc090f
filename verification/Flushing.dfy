/** The parts of a flush: packing segments into datagrams of at most mtu bytes, the filter on
    pending acknowledgements, the window probe, and the scan of the in-flight buffer that decides
    what is sent again. */
module Flushing {
  import opened Words
  import opened Segments
  import opened Timing

  // ---------- packing ----------

  /** The datagrams handed to output so far, and the segments in the unfinished one. */
  datatype Packer = Packer(pending: seq<Wire>, out: seq<seq<Wire>>)

  function MakeSpace(p: Packer, space: nat, mtu: nat): Packer {
    if SizeAll(p.pending) + space > mtu then Packer([], p.out + [p.pending]) else p
  }

  function Append(p: Packer, w: Wire): Packer { p.(pending := p.pending + [w]) }

  function Put(p: Packer, w: Wire, mtu: nat): Packer {
    Append(MakeSpace(p, w.Size(), mtu), w)
  }

  /** Sending what is left in the buffer. */
  function Close(p: Packer): seq<seq<Wire>> {
    if SizeAll(p.pending) > 0 then p.out + [p.pending] else p.out
  }

  /** A datagram that goes out: at least one whole segment, at most mtu bytes. */
  ghost predicate Fits(d: seq<Wire>, mtu: nat) {
    OVERHEAD <= SizeAll(d) <= mtu
  }

  ghost predicate PackerOk(p: Packer, mtu: nat) {
    SizeAll(p.pending) <= mtu && forall d :: d in p.out ==> Fits(d, mtu)
  }

  /** Every segment put into the packer, in order. */
  function Sent(p: Packer): seq<Wire> { Flatten(p.out) + p.pending }

  function Flatten(ds: seq<seq<Wire>>): seq<Wire> {
    if ds == [] then [] else Flatten(ds[..|ds|-1]) + ds[|ds|-1]
  }

  lemma {:induction false} SizeAtLeast(ws: seq<Wire>)
    ensures ws != [] ==> SizeAll(ws) >= OVERHEAD
  {
    if |ws| > 1 { SizeAtLeast(ws[..|ws|-1]); }
  }

  lemma MakeSpaceKeeps(p: Packer, space: nat, mtu: nat)
    requires PackerOk(p, mtu) && space <= mtu
    ensures var q := MakeSpace(p, space, mtu);
            PackerOk(q, mtu) && SizeAll(q.pending) + space <= mtu && Sent(q) == Sent(p)
  {
    SizeAtLeast(p.pending);
    var q := MakeSpace(p, space, mtu);
    if q != p {
      assert q.out[..|q.out|-1] == p.out;
    }
  }

  lemma AppendKeeps(p: Packer, w: Wire, mtu: nat)
    requires PackerOk(p, mtu) && SizeAll(p.pending) + w.Size() <= mtu
    ensures PackerOk(Append(p, w), mtu) && Sent(Append(p, w)) == Sent(p) + [w]
  {
    var q := Append(p, w);
    assert q.pending[..|q.pending|-1] == p.pending;
    assert Sent(q) == Sent(p) + [w];
  }

  lemma PutKeeps(p: Packer, w: Wire, mtu: nat)
    requires PackerOk(p, mtu) && w.Size() <= mtu
    ensures PackerOk(Put(p, w, mtu), mtu) && Sent(Put(p, w, mtu)) == Sent(p) + [w]
  {
    MakeSpaceKeeps(p, w.Size(), mtu);
    AppendKeeps(MakeSpace(p, w.Size(), mtu), w, mtu);
  }

  /** Nothing is lost or reordered by packing, and every datagram fits. */
  lemma CloseKeeps(p: Packer, mtu: nat)
    requires PackerOk(p, mtu)
    ensures forall d :: d in Close(p) ==> Fits(d, mtu)
    ensures Flatten(Close(p)) == Sent(p)
  {
    SizeAtLeast(p.pending);
    if SizeAll(p.pending) > 0 {
      assert Close(p)[..|Close(p)|-1] == p.out;
    } else {
      assert p.pending == [];
    }
  }

  // ---------- acknowledgements ----------

  datatype Ack = Ack(sn: int, ts: u32)

  /** The packer, and the header every control segment of this flush is made from: it keeps the
      number and time stamp of the last acknowledgement written. */
  datatype AckScan = AckScan(packer: Packer, head: Wire)

  /** Only the last pending acknowledgement is written if its segment lies below nxt. */
  predicate Written(m: Arith, acks: seq<Ack>, nxt: int, i: nat)
    requires i < |acks|
  { Diff(m, acks[i].sn, nxt) >= 0 || i == |acks| - 1 }

  function AckStep(m: Arith, acks: seq<Ack>, nxt: int, mtu: nat, s: AckScan, i: nat): AckScan
    requires i < |acks|
  {
    var q := MakeSpace(s.packer, OVERHEAD, mtu);
    if Written(m, acks, nxt, i) then
      var h := s.head.(sn := acks[i].sn, ts := acks[i].ts);
      AckScan(Append(q, h), h)
    else AckScan(q, s.head)
  }

  /** The first n acknowledgements. */
  function AcksUpTo(m: Arith, acks: seq<Ack>, nxt: int, mtu: nat, head: Wire, n: nat): AckScan
    requires n <= |acks|
  {
    if n == 0 then AckScan(Packer([], []), head)
    else AckStep(m, acks, nxt, mtu, AcksUpTo(m, acks, nxt, mtu, head, n - 1), n - 1)
  }

  /** s is what the first n acknowledgements make. */
  ghost predicate IsAcks(m: Arith, acks: seq<Ack>, nxt: int, mtu: nat, head: Wire, n: nat, s: AckScan)
    requires n <= |acks|
  {
    forall k: nat :: k == n ==> s == AcksUpTo(m, acks, nxt, mtu, head, k)
  }

  /** t is what the i-th acknowledgement makes of s. */
  ghost predicate IsAckStep(m: Arith, acks: seq<Ack>, nxt: int, mtu: nat, s: AckScan, i: nat, t: AckScan)
    requires i < |acks|
  {
    forall k: nat :: k == i ==> t == AckStep(m, acks, nxt, mtu, s, k)
  }

  lemma OneAckMore(m: Arith, acks: seq<Ack>, nxt: int, mtu: nat, head: Wire, s: AckScan, i: nat, t: AckScan)
    requires i < |acks| && IsAcks(m, acks, nxt, mtu, head, i, s) && IsAckStep(m, acks, nxt, mtu, s, i, t)
    ensures IsAcks(m, acks, nxt, mtu, head, i + 1, t)
  {
    assert AcksUpTo(m, acks, nxt, mtu, head, i + 1)
           == AckStep(m, acks, nxt, mtu, AcksUpTo(m, acks, nxt, mtu, head, i), i);
  }

  /** w is head with the number and time stamp of the i-th pending acknowledgement. */
  function AckWire(head: Wire, acks: seq<Ack>, i: nat): Wire
    requires i < |acks|
  { head.(sn := acks[i].sn, ts := acks[i].ts) }

  ghost predicate FromAck(head: Wire, acks: seq<Ack>, w: Wire) {
    exists i :: 0 <= i < |acks| && w == AckWire(head, acks, i)
  }

  ghost predicate AcksOk(m: Arith, acks: seq<Ack>, nxt: int, mtu: nat, head: Wire, s: AckScan, n: nat) {
    && n <= |acks|
    && PackerOk(s.packer, mtu)
    && (s.head == head || FromAck(head, acks, s.head))
    && (forall w :: w in Sent(s.packer) ==> FromAck(head, acks, w))
    && (forall i :: 0 <= i < n && Written(m, acks, nxt, i) ==> AckWire(head, acks, i) in Sent(s.packer))
  }

  lemma AckStepOk(m: Arith, acks: seq<Ack>, nxt: int, mtu: nat, head: Wire, s: AckScan, n: nat)
    requires AcksOk(m, acks, nxt, mtu, head, s, n) && n < |acks| && OVERHEAD <= mtu && head.data == []
    ensures AcksOk(m, acks, nxt, mtu, head, AckStep(m, acks, nxt, mtu, s, n), n + 1)
  {
    var q := MakeSpace(s.packer, OVERHEAD, mtu);
    var w := AckWire(head, acks, n);
    assert s.head.(sn := acks[n].sn, ts := acks[n].ts) == w;
    MakeSpaceKeeps(s.packer, OVERHEAD, mtu);
    if Written(m, acks, nxt, n) {
      AppendKeeps(q, w, mtu);
      assert FromAck(head, acks, w);
    }
  }

  lemma AcksOkNext(m: Arith, acks: seq<Ack>, nxt: int, mtu: nat, head: Wire, s: AckScan, i: nat, t: AckScan)
    requires AcksOk(m, acks, nxt, mtu, head, s, i) && i < |acks| && OVERHEAD <= mtu && head.data == []
    requires IsAckStep(m, acks, nxt, mtu, s, i, t)
    ensures AcksOk(m, acks, nxt, mtu, head, t, i + 1)
  {
    AckStepOk(m, acks, nxt, mtu, head, s, i);
  }

  /** What the acknowledgements written so far look like. */
  lemma {:induction false} AcksUpToOk(m: Arith, acks: seq<Ack>, nxt: int, mtu: nat, head: Wire, n: nat)
    requires n <= |acks| && OVERHEAD <= mtu && head.data == []
    ensures AcksOk(m, acks, nxt, mtu, head, AcksUpTo(m, acks, nxt, mtu, head, n), n)
    decreases n
  {
    if n == 0 {
      assert Sent(Packer([], [])) == [];
      assert AcksUpTo(m, acks, nxt, mtu, head, n) == AckScan(Packer([], []), head);
    } else {
      AcksUpToOk(m, acks, nxt, mtu, head, n - 1);
      var s := AcksUpTo(m, acks, nxt, mtu, head, n - 1);
      AcksOkNext(m, acks, nxt, mtu, head, s, n - 1, AcksUpTo(m, acks, nxt, mtu, head, n));
    }
  }

  /** Every pending acknowledgement is written, or its segment lies below nxt and the last one is. */
  lemma AckOrLast(m: Arith, acks: seq<Ack>, nxt: int, mtu: nat, head: Wire, i: nat) returns (j: nat)
    requires i < |acks| && OVERHEAD <= mtu && head.data == []
    ensures j < |acks| && AckWire(head, acks, j) in Sent(AcksUpTo(m, acks, nxt, mtu, head, |acks|).packer)
    ensures j == i || Diff(m, acks[i].sn, nxt) < 0
  {
    AcksUpToOk(m, acks, nxt, mtu, head, |acks|);
    j := if Written(m, acks, nxt, i) then i else |acks| - 1;
    assert Written(m, acks, nxt, j);
  }

  // ---------- probing a closed window ----------

  /** ask: send WASK; tell: send WINS. */
  datatype Probe = Probe(ask: bool, tell: bool, ts: u32, wait: u32)

  function ProbeWait(p: Probe, rmt_wnd: u32, now: u32): Probe {
    if rmt_wnd != 0 then p.(ts := 0, wait := 0)
    else if p.wait == 0 then p.(wait := PROBE_INIT, ts := Wrap32(now + PROBE_INIT))
    else if ITimeDiff(now, p.ts) < 0 then p
    else
      var w := Max(p.wait, PROBE_INIT);
      var wait := Min(Wrap32(w + w / 2), PROBE_LIMIT);
      p.(wait := wait, ts := Wrap32(now + wait), ask := true)
  }

  // ---------- the scan of the in-flight buffer ----------

  /** What one scan goes by: the timeout of new transmissions, the early-resend threshold, how many
      segments were numbered in this flush, and the header fields stamped on what is sent. */
  datatype Rules = Rules(
    rto: u32, resent: u32, added: nat, nodelay: u32, wnd: u16, una: int, mtu: nat, dead_link: u32)

  datatype Reason = No | First | Fast | Early | Timeout

  function Why(seg: Segment, f: Rules, now: u32): Reason {
    if seg.acked then No
    else if seg.xmit == 0 then First
    else if seg.fastack >= f.resent then Fast
    else if seg.fastack > 0 && f.added == 0 then Early
    else if ITimeDiff(now, seg.resendts) >= 0 then Timeout
    else No
  }

  /** The timeout a segment is sent with: it grows when the last one has run out. */
  function NextRto(seg: Segment, f: Rules, why: Reason): u32 {
    if why.Timeout? then Wrap32(seg.rto + if f.nodelay == 0 then f.rto else f.rto / 2) else f.rto
  }

  /** The timer of a segment about to be sent. */
  function Rearm(seg: Segment, f: Rules, why: Reason, now: u32): Segment {
    match why
    case No => seg
    case First => seg.(rto := f.rto, resendts := Wrap32(now + f.rto))
    case _ => seg.(fastack := 0, rto := NextRto(seg, f, why), resendts := Wrap32(now + NextRto(seg, f, why)))
  }

  function Stamp(seg: Segment, f: Rules, now: u32): Segment {
    seg.(xmit := Wrap32(seg.xmit + 1), ts := now, wnd := f.wnd, una := f.una)
  }

  /** done: the segments scanned so far, as the scan left them; now: the last reading of the clock;
      wait: the time to the nearest deadline. */
  datatype Scan = Scan(
    done: seq<Segment>, packer: Packer, now: u32, change: bool, lost: bool, wait: i32, dead: bool)

  function Nearer(wait: i32, resendts: u32, now: u32): i32 {
    var d := ITimeDiff(resendts, now);
    if 0 < d < wait then d else wait
  }

  /** What a scan makes of a segment: stamped with the new reading if it is sent. */
  function Rescan(f: Rules, seg: Segment, now: u32, reading: u32): Segment {
    var why := Why(seg, f, now);
    if why.No? then seg else Stamp(Rearm(seg, f, why, now), f, reading)
  }

  /** One segment; the clock is read again, as reading, if it is sent. */
  function ScanStep(f: Rules, s: Scan, seg: Segment, reading: u32): Scan {
    var why := Why(seg, f, s.now);
    var t := Rescan(f, seg, s.now, reading);
    var now := if why.No? then s.now else reading;
    Scan(s.done + [t],
         if why.No? then s.packer else Put(s.packer, t.ToWire(), f.mtu),
         now,
         s.change || why.Fast? || why.Early?,
         s.lost || why.Timeout?,
         if seg.acked then s.wait else Nearer(s.wait, t.resendts, now),
         s.dead || (!why.No? && t.xmit >= f.dead_link))
  }

  /** t is what one step makes of s. */
  ghost predicate IsStep(f: Rules, s: Scan, seg: Segment, reading: u32, t: Scan) {
    forall x: u32 :: x == reading ==> t == ScanStep(f, s, seg, x)
  }

  /** The first n segments; the k-th is stamped with the clock's reading number k + 2. */
  function ScanUpTo(f: Rules, s: Scan, buf: seq<Segment>, clock: nat -> u32, n: nat): Scan
    requires n <= |buf|
  {
    if n == 0 then s else ScanStep(f, ScanUpTo(f, s, buf, clock, n - 1), buf[n-1], clock(n + 1))
  }

  /** Every segment of the buffer fits a datagram. */
  ghost predicate AllFit(buf: seq<Segment>, mtu: nat) {
    buf == [] || (AllFit(buf[..|buf|-1], mtu) && OVERHEAD + |buf[|buf|-1].body.Data()| <= mtu)
  }

  lemma {:induction false} EachFitsIn(buf: seq<Segment>, mtu: nat)
    requires AllFit(buf, mtu)
    ensures forall k :: 0 <= k < |buf| ==> OVERHEAD + |buf[k].body.Data()| <= mtu
  {
    if buf != [] { EachFitsIn(buf[..|buf|-1], mtu); }
  }

  lemma {:induction false} EachFits(buf: seq<Segment>, mtu: nat)
    requires forall k :: 0 <= k < |buf| ==> OVERHEAD + |buf[k].body.Data()| <= mtu
    ensures AllFit(buf, mtu)
  {
    if buf != [] { EachFits(buf[..|buf|-1], mtu); }
  }

  /** The states a scan passes through. */
  ghost predicate ScanChain(f: Rules, buf: seq<Segment>, clock: nat -> u32, states: seq<Scan>) {
    && 0 < |states| <= |buf| + 1
    && forall i :: 0 <= i < |states| - 1 ==> StepAt(f, buf, clock, states, i)
  }

  ghost predicate StepAt(f: Rules, buf: seq<Segment>, clock: nat -> u32, states: seq<Scan>, i: nat)
    requires i < |states| - 1 <= |buf|
  {
    states[i+1] == ScanStep(f, states[i], buf[i], clock(i + 2))
  }

  lemma ChainGrows(f: Rules, buf: seq<Segment>, clock: nat -> u32, states: seq<Scan>, t: Scan)
    requires ScanChain(f, buf, clock, states) && |states| <= |buf|
    requires var k := |states| - 1; IsStep(f, states[k], buf[k], clock(k + 2), t)
    ensures ScanChain(f, buf, clock, states + [t])
  {
    var more := states + [t];
    forall i | 0 <= i < |more| - 1 ensures StepAt(f, buf, clock, more, i) {
      if i < |states| - 1 { assert StepAt(f, buf, clock, states, i); }
    }
  }

  lemma {:induction false} ChainIsScan(f: Rules, buf: seq<Segment>, clock: nat -> u32, states: seq<Scan>)
    requires ScanChain(f, buf, clock, states)
    ensures states[|states|-1] == ScanUpTo(f, states[0], buf, clock, |states| - 1)
    decreases |states|
  {
    var n := |states| - 1;
    if n > 0 {
      forall i | 0 <= i < n - 1 ensures StepAt(f, buf, clock, states[..n], i) {
        assert StepAt(f, buf, clock, states, i);
      }
      ChainIsScan(f, buf, clock, states[..n]);
      assert StepAt(f, buf, clock, states, n - 1);
    }
  }

  /** s is what a whole scan of buf makes of s0. */
  ghost predicate IsScan(f: Rules, s0: Scan, buf: seq<Segment>, clock: nat -> u32, s: Scan) {
    exists states: seq<Scan> ::
      |states| == |buf| + 1 && ScanChain(f, buf, clock, states) && states[0] == s0 && states[|buf|] == s
  }

  lemma IsScanIsScanUpTo(f: Rules, s0: Scan, buf: seq<Segment>, clock: nat -> u32, s: Scan)
    requires IsScan(f, s0, buf, clock, s)
    ensures s == ScanUpTo(f, s0, buf, clock, |buf|)
  {
    var states: seq<Scan> :|
      |states| == |buf| + 1 && ScanChain(f, buf, clock, states) && states[0] == s0 && states[|buf|] == s;
    ChainIsScan(f, buf, clock, states);
  }

  /** A scan touches nothing of a segment but its timer, counters and stamps. */
  ghost predicate SameSegment(a: Segment, b: Segment) {
    b == a.(ts := b.ts, wnd := b.wnd, una := b.una,
            rto := b.rto, xmit := b.xmit, resendts := b.resendts, fastack := b.fastack)
  }

  /** w is what segment b puts on the wire, b not being acknowledged and freshly stamped. */
  ghost predicate Transmission(f: Rules, b: Segment, w: Wire) {
    !b.acked && w == b.ToWire() && w.wnd == f.wnd && w.una == f.una
  }

  ghost predicate SentFrom(f: Rules, done: seq<Segment>, w: Wire) {
    exists k :: 0 <= k < |done| && Transmission(f, done[k], w)
  }

  ghost predicate ScanOk(f: Rules, s0: Scan, s: Scan, buf: seq<Segment>) {
    && |s.done| <= |buf|
    && (forall k :: 0 <= k < |s.done| ==> SameSegment(buf[k], s.done[k]))
    && PackerOk(s.packer, f.mtu)
    && Sent(s0.packer) <= Sent(s.packer)
    && (forall i :: |Sent(s0.packer)| <= i < |Sent(s.packer)| ==> SentFrom(f, s.done, Sent(s.packer)[i]))
  }

  lemma RescanSame(f: Rules, seg: Segment, now: u32, reading: u32)
    ensures SameSegment(seg, Rescan(f, seg, now, reading))
    ensures Why(seg, f, now) != No ==>
              var t := Rescan(f, seg, now, reading); Transmission(f, t, t.ToWire())
  {}

  lemma SentFromMore(f: Rules, done: seq<Segment>, t: Segment, w: Wire)
    requires SentFrom(f, done, w) || Transmission(f, t, w)
    ensures SentFrom(f, done + [t], w)
  {
    if SentFrom(f, done, w) {
      var k :| 0 <= k < |done| && Transmission(f, done[k], w);
      assert (done + [t])[k] == done[k];
    } else {
      assert (done + [t])[|done|] == t;
    }
  }

  lemma ScanStepOk(f: Rules, s0: Scan, s: Scan, buf: seq<Segment>, reading: u32)
    requires ScanOk(f, s0, s, buf) && |s.done| < |buf|
    requires OVERHEAD + |buf[|s.done|].body.Data()| <= f.mtu
    ensures ScanOk(f, s0, ScanStep(f, s, buf[|s.done|], reading), buf)
  {
    var seg := buf[|s.done|];
    var t := Rescan(f, seg, s.now, reading);
    var p := ScanStep(f, s, seg, reading).packer;
    RescanSame(f, seg, s.now, reading);
    if Why(seg, f, s.now) != No { PutKeeps(s.packer, t.ToWire(), f.mtu); }
    assert Sent(p) == if Why(seg, f, s.now) == No then Sent(s.packer) else Sent(s.packer) + [t.ToWire()];
    forall i | |Sent(s0.packer)| <= i < |Sent(p)| ensures SentFrom(f, s.done + [t], Sent(p)[i]) {
      if i < |Sent(s.packer)| { assert Sent(p)[i] == Sent(s.packer)[i]; }
      SentFromMore(f, s.done, t, Sent(p)[i]);
    }
  }

  lemma ScanOkNext(f: Rules, s0: Scan, s: Scan, buf: seq<Segment>, k: nat, reading: u32, t: Scan)
    requires ScanOk(f, s0, s, buf) && |s.done| == k < |buf| && OVERHEAD + |buf[k].body.Data()| <= f.mtu
    requires IsStep(f, s, buf[k], reading, t)
    ensures ScanOk(f, s0, t, buf) && |t.done| == k + 1
  {
    ScanStepOk(f, s0, s, buf, reading);
  }

  /** Only bodies still in place are sent, each whole, in datagrams that fit. */
  lemma {:induction false} ScanUpToOk(f: Rules, s: Scan, buf: seq<Segment>, clock: nat -> u32, n: nat)
    requires n <= |buf| && s.done == [] && PackerOk(s.packer, f.mtu)
    requires forall k :: 0 <= k < |buf| ==> OVERHEAD + |buf[k].body.Data()| <= f.mtu
    ensures ScanOk(f, s, ScanUpTo(f, s, buf, clock, n), buf)
    ensures |ScanUpTo(f, s, buf, clock, n).done| == n
    decreases n
  {
    if n > 0 {
      ScanUpToOk(f, s, buf, clock, n - 1);
      var before := ScanUpTo(f, s, buf, clock, n - 1);
      ScanOkNext(f, s, before, buf, n - 1, clock(n + 1), ScanUpTo(f, s, buf, clock, n));
    }
  }
}
