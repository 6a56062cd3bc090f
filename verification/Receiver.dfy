/** The receiving half of a control block: a sorted reorder buffer in front of a queue of
    segments that have arrived in order, and the reassembly of messages from that queue. */
module Receiver {
  import opened Words
  import opened Segments

  /** nxt: the next number expected in order. */
  datatype Rcv = Rcv(nxt: int, queue: seq<Segment>, buf: seq<Segment>)

  // ---------- what every operation keeps ----------

  /** Strictly increasing from nxt on. */
  ghost predicate Sorted(m: Arith, nxt: int, buf: seq<Segment>) {
    forall i, j :: 0 <= i < j < |buf| ==> Off(m, buf[i].sn, nxt) < Off(m, buf[j].sn, nxt)
  }

  ghost predicate Buffered(m: Arith, seg: Segment, nxt: int, wnd: nat) {
    && Represented(m, seg.sn) && 0 <= Off(m, seg.sn, nxt) < wnd
    && seg.body.Buf?
  }

  /** All but the promptness of delivery, which an insertion breaks for a moment. */
  ghost predicate RcvShape(m: Arith, r: Rcv, wnd: nat) {
    && 0 < wnd < 0x1_0000 && |r.queue| <= wnd
    && Represented(m, r.nxt)
    && (forall k :: 0 <= k < |r.buf| ==> Buffered(m, r.buf[k], r.nxt, wnd))
    && (forall k :: 0 <= k < |r.queue| ==> r.queue[k].body.Buf?)
    && Sorted(m, r.nxt, r.buf)
  }

  /** The next segment waits in the reorder buffer only while the queue is full. */
  ghost predicate RcvOk(m: Arith, r: Rcv, wnd: nat) {
    && RcvShape(m, r, wnd)
    && (|r.buf| > 0 && r.buf[0].sn == r.nxt ==> |r.queue| == wnd)
  }

  // ---------- the reorder buffer ----------

  /** How many leading segments lie below offset o. */
  function Rank(m: Arith, buf: seq<Segment>, nxt: int, o: int): (i: nat)
    ensures i <= |buf|
    ensures forall k :: 0 <= k < i ==> Off(m, buf[k].sn, nxt) < o
    ensures i < |buf| ==> Off(m, buf[i].sn, nxt) >= o
  {
    if |buf| == 0 || Off(m, buf[0].sn, nxt) >= o then 0 else 1 + Rank(m, buf[1..], nxt, o)
  }

  predicate InWindow(m: Arith, r: Rcv, wnd: nat, sn: int) {
    Diff(m, sn, Add(m, r.nxt, wnd)) < 0 && Diff(m, sn, r.nxt) >= 0
  }

  /** Where a segment numbered sn belongs. */
  function Place(m: Arith, r: Rcv, sn: int): (i: nat)
    ensures i <= |r.buf|
  { Rank(m, r.buf, r.nxt, Off(m, sn, r.nxt)) }

  predicate Repeated(m: Arith, r: Rcv, sn: int) {
    var i := Place(m, r, sn);
    i < |r.buf| && r.buf[i].sn == sn
  }

  function Insert(m: Arith, r: Rcv, seg: Segment): Rcv {
    if Repeated(m, r, seg.sn) then r
    else
      var i := Place(m, r, seg.sn);
      r.(buf := r.buf[..i] + [seg] + r.buf[i..])
  }

  /** From the k-th on, how many segments of the buffer continue the sequence while there is room. */
  function ReadyFrom(m: Arith, buf: seq<Segment>, nxt: int, room: int, k: nat): (n: nat)
    requires k <= |buf|
    ensures k <= n <= |buf| && n <= Max(k, room)
    ensures forall i :: k <= i < n ==> buf[i].sn == Add(m, nxt, i)
    ensures n < |buf| && n < room ==> buf[n].sn != Add(m, nxt, n)
    decreases |buf| - k
  {
    if k < |buf| && k < room && buf[k].sn == Add(m, nxt, k) then ReadyFrom(m, buf, nxt, room, k + 1) else k
  }

  function Ready(m: Arith, r: Rcv, wnd: nat): (n: nat)
    ensures n <= |r.buf|
  { ReadyFrom(m, r.buf, r.nxt, wnd - |r.queue|, 0) }

  /** Moving what is ready from the reorder buffer to the queue. */
  function Advance(m: Arith, r: Rcv, wnd: nat): Rcv {
    var n := Ready(m, r, wnd);
    Rcv(Add(m, r.nxt, n), r.queue + r.buf[..n], r.buf[n..])
  }

  /** t is r with what was ready moved. */
  ghost predicate IsAdvance(m: Arith, r: Rcv, wnd: nat, t: Rcv) {
    forall w: nat :: w == wnd ==> t == Advance(m, r, w)
  }

  function ParseData(m: Arith, r: Rcv, wnd: nat, seg: Segment): Rcv {
    if InWindow(m, r, wnd, seg.sn) then Advance(m, Insert(m, r, seg), wnd) else r
  }

  // ---------- preservation ----------

  lemma RankIsOff(m: Arith, buf: seq<Segment>, nxt: int, k: nat)
    requires k < |buf| && Sorted(m, nxt, buf)
    ensures Rank(m, buf, nxt, Off(m, buf[k].sn, nxt)) == k
  {}

  /** Comparing two numbers of the window. */
  lemma OffDiff(m: Arith, x: int, y: int, base: int)
    requires 0 <= Off(m, x, base) < 0x1_0000 && 0 <= Off(m, y, base) < 0x1_0000
    ensures Diff(m, x, y) == Off(m, x, base) - Off(m, y, base)
  {}

  /** The rank is the place that separates smaller from larger. */
  lemma RankIs(m: Arith, buf: seq<Segment>, nxt: int, o: int, i: nat)
    requires i <= |buf|
    requires forall k :: 0 <= k < i ==> Off(m, buf[k].sn, nxt) < o
    requires i < |buf| ==> Off(m, buf[i].sn, nxt) >= o
    ensures Rank(m, buf, nxt, o) == i
  {}

  lemma SortedBelow(m: Arith, nxt: int, buf: seq<Segment>, i: nat, o: int)
    requires Sorted(m, nxt, buf) && i < |buf| && Off(m, buf[i].sn, nxt) < o
    ensures forall k :: 0 <= k <= i ==> Off(m, buf[k].sn, nxt) < o
  {}

  /** The comparisons of a scan of the reorder buffer for a number of the window. */
  lemma ScanTest(m: Arith, r: Rcv, wnd: nat, sn: int, k: nat)
    requires RcvShape(m, r, wnd) && Represented(m, sn) && 0 <= Off(m, sn, r.nxt) < wnd && k < |r.buf|
    ensures r.buf[k].sn == sn <==> Off(m, r.buf[k].sn, r.nxt) == Off(m, sn, r.nxt)
    ensures Diff(m, sn, r.buf[k].sn) > 0 <==> Off(m, r.buf[k].sn, r.nxt) < Off(m, sn, r.nxt)
  {
    assert Buffered(m, r.buf[k], r.nxt, wnd);
    OffDiff(m, sn, r.buf[k].sn, r.nxt);
    AddOff(m, sn, r.nxt);
    AddOff(m, r.buf[k].sn, r.nxt);
  }

  /** A number is repeated exactly when some buffered segment carries it. */
  lemma RepeatedIffPresent(m: Arith, r: Rcv, sn: int)
    requires Sorted(m, r.nxt, r.buf)
    ensures Repeated(m, r, sn) <==> exists k :: 0 <= k < |r.buf| && r.buf[k].sn == sn
  {
    if k :| 0 <= k < |r.buf| && r.buf[k].sn == sn {
      RankIsOff(m, r.buf, r.nxt, k);
    }
  }

  lemma InsertSorted(m: Arith, nxt: int, buf: seq<Segment>, seg: Segment, i: nat)
    requires i <= |buf| && Sorted(m, nxt, buf)
    requires forall k :: 0 <= k < i ==> Off(m, buf[k].sn, nxt) < Off(m, seg.sn, nxt)
    requires i < |buf| ==> Off(m, buf[i].sn, nxt) > Off(m, seg.sn, nxt)
    ensures Sorted(m, nxt, buf[..i] + [seg] + buf[i..])
  {
    var t := buf[..i] + [seg] + buf[i..];
    forall j, k | 0 <= j < k < |t| ensures Off(m, t[j].sn, nxt) < Off(m, t[k].sn, nxt) {
      if k > i {
        assert t[k] == buf[k-1];
      }
      if j > i {
        assert t[j] == buf[j-1];
      }
    }
  }

  lemma InsertKeeps(m: Arith, r: Rcv, wnd: nat, seg: Segment)
    requires RcvShape(m, r, wnd) && Buffered(m, seg, r.nxt, wnd)
    ensures RcvShape(m, Insert(m, r, seg), wnd)
  {
    if !Repeated(m, r, seg.sn) {
      var i := Place(m, r, seg.sn);
      if i < |r.buf| {
        AddOff(m, seg.sn, r.nxt);
        AddOff(m, r.buf[i].sn, r.nxt);
      }
      InsertSorted(m, r.nxt, r.buf, seg, i);
      var t := Insert(m, r, seg);
      forall k | 0 <= k < |t.buf| ensures Buffered(m, t.buf[k], r.nxt, wnd) {
        assert t.buf[k] == if k < i then r.buf[k] else if k == i then seg else r.buf[k-1];
      }
    }
  }

  /** What is not moved lies at or above the new nxt. */
  lemma ReadyBelowRest(m: Arith, r: Rcv, wnd: nat, k: nat)
    requires RcvShape(m, r, wnd) && Ready(m, r, wnd) <= k < |r.buf|
    ensures Ready(m, r, wnd) <= Off(m, r.buf[k].sn, r.nxt)
  {
    var n := Ready(m, r, wnd);
    if n > 0 {
      assert r.buf[n-1].sn == Add(m, r.nxt, n - 1);
      OffAdd(m, r.nxt, n - 1);
    }
  }

  lemma AdvanceKeeps(m: Arith, r: Rcv, wnd: nat)
    requires RcvShape(m, r, wnd)
    ensures RcvOk(m, Advance(m, r, wnd), wnd)
  {
    var n := Ready(m, r, wnd);
    var t := Advance(m, r, wnd);
    forall k | 0 <= k < |t.buf|
      ensures t.buf[k] == r.buf[n + k] && Off(m, t.buf[k].sn, t.nxt) == Off(m, r.buf[n + k].sn, r.nxt) - n
      ensures Buffered(m, t.buf[k], t.nxt, wnd)
    {
      ReadyBelowRest(m, r, wnd, n + k);
      OffShift(m, r.buf[n + k].sn, r.nxt, n);
    }
  }

  lemma ParseDataKeeps(m: Arith, r: Rcv, wnd: nat, seg: Segment)
    requires RcvOk(m, r, wnd) && seg.body.Buf? && Represented(m, seg.sn)
    ensures RcvOk(m, ParseData(m, r, wnd, seg), wnd)
  {
    if InWindow(m, r, wnd, seg.sn) {
      WindowTest(m, seg.sn, r.nxt, wnd);
      InsertKeeps(m, r, wnd, seg);
      AdvanceKeeps(m, Insert(m, r, seg), wnd);
    }
  }

  // ---------- messages ----------

  /** From the k-th segment on: the end of the first message, the segment whose frg is 0. */
  function FrontFrom(q: seq<Segment>, k: nat): (n: nat)
    requires k <= |q|
    ensures k <= n <= |q| && (k < |q| ==> k < n)
    ensures forall i :: k <= i < n - 1 ==> q[i].frg != 0
    ensures n < |q| ==> k < n && q[n-1].frg == 0
    decreases |q| - k
  {
    if k == |q| then k else if q[k].frg == 0 then k + 1 else FrontFrom(q, k + 1)
  }

  /** How many segments a read takes off the queue. */
  function Front(q: seq<Segment>): (n: nat)
    ensures n <= |q|
  { FrontFrom(q, 0) }

  function Joined(q: seq<Segment>): seq<byte> {
    if q == [] then [] else Joined(q[..|q|-1]) + q[|q|-1].body.Data()
  }

  /** Joining one segment more. */
  lemma JoinedStep(q: seq<Segment>, n: nat)
    requires n < |q|
    ensures Joined(q[..n+1]) == Joined(q[..n]) + q[n].body.Data()
  {
    assert q[..n+1][..n] == q[..n];
  }

  lemma {:induction false} JoinedGrows(q: seq<Segment>, n: nat, k: nat)
    requires n <= k <= |q|
    ensures |Joined(q[..n])| <= |Joined(q[..k])|
    decreases k
  {
    if n < k {
      JoinedGrows(q, n, k - 1);
      JoinedStep(q, k - 1);
    }
  }

  /** The size of the next message, or -1 while it is not complete.  The number of fragments
      still to come is an 8-bit sum, so an announced 255 counts as none. */
  function PeekSize(q: seq<Segment>): int {
    if |q| == 0 || (q[0].frg != 0 && |q| < (q[0].frg as int + 1) % 0x100) then -1
    else |Joined(q[..Front(q)])|
  }

  /** The result of a read: the new state, the code returned, and the bytes read. */
  datatype Read = Read(rcv: Rcv, code: int, data: seq<byte>, tell: bool)

  function Recv(m: Arith, r: Rcv, wnd: nat, room: nat): Read {
    var size := PeekSize(r.queue);
    if size < 0 then Read(r, -1, [], false)
    else if size > room then Read(r, -2, [], false)
    else
      var t := Advance(m, Rest(r), wnd);
      Read(t, size, Joined(r.queue[..Front(r.queue)]), |r.queue| >= wnd && |t.queue| < wnd)
  }

  /** What a read leaves, before the queue is refilled. */
  function Rest(r: Rcv): Rcv { r.(queue := r.queue[Front(r.queue)..]) }

  lemma RecvKeeps(m: Arith, r: Rcv, wnd: nat, room: nat)
    requires RcvOk(m, r, wnd)
    ensures RcvOk(m, Recv(m, r, wnd, room).rcv, wnd)
  {
    AdvanceKeeps(m, Rest(r), wnd);
  }
}
