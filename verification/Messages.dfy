/** Fragmentation and reassembly are inverse: what Send cuts a message into, and what Recv joins. */
module Messages {
  import opened Words
  import opened Segments
  import opened Receiver
  import opened Engine
  import opened BufferPool

  /** The part of a segment that belongs to the message: how many fragments follow, and the data. */
  datatype Frag = Frag(frg: nat, data: seq<byte>)

  function FragOf(seg: Segment): Frag { Frag(seg.frg, seg.body.Data()) }

  function FragsOf(q: seq<Segment>): (r: seq<Frag>)
    ensures |r| == |q|
  { seq(|q|, i requires 0 <= i < |q| => FragOf(q[i])) }

  /** The fragments of a message. */
  function Cut(msg: seq<byte>, mss: nat): (r: seq<Frag>)
    requires mss > 0
    ensures |r| > 0 && r[0].frg == |r| - 1
    decreases |msg|
  {
    if |msg| <= mss then [Frag(0, msg)]
    else
      var rest := Cut(msg[mss..], mss);
      [Frag(|rest|, msg[..mss])] + rest
  }

  /** The fragments of a list of messages, in order. */
  function CutAll(msgs: seq<seq<byte>>, mss: nat): seq<Frag>
    requires mss > 0
  {
    if msgs == [] then [] else CutAll(msgs[..|msgs|-1], mss) + Cut(msgs[|msgs|-1], mss)
  }

  /** A message Send accepts. */
  predicate Sendable(msg: seq<byte>, mss: nat)
    requires mss > 0
  { |msg| > 0 && FragmentCount(|msg|, mss) <= 255 }

  // ---------- cutting ----------

  lemma DivUnique(x: int, d: int, q: int, r: int)
    requires d > 0 && x == q * d + r && 0 <= r < d
    ensures x / d == q
  {
    var e := x / d - q;
    assert e * d == r - x % d;
  }

  lemma OneMorePiece(n: nat, mss: nat)
    requires n > 0 && mss > 0
    ensures FragmentCount(n + mss, mss) == 1 + FragmentCount(n, mss)
  {
    var x := n + mss - 1;
    DivUnique(x + mss, mss, x / mss + 1, x % mss);
    if n <= mss { DivUnique(x, mss, 1, n - 1); }
  }

  lemma {:induction false} CutCount(msg: seq<byte>, mss: nat)
    requires mss > 0
    ensures |Cut(msg, mss)| == FragmentCount(|msg|, mss)
    decreases |msg|
  {
    if |msg| > mss {
      CutCount(msg[mss..], mss);
      OneMorePiece(|msg| - mss, mss);
    }
  }

  /** The numbers count down to 0, and only the last is 0. */
  lemma {:induction false} CutCountsDown(msg: seq<byte>, mss: nat, i: nat)
    requires mss > 0 && i < |Cut(msg, mss)|
    ensures Cut(msg, mss)[i].frg == |Cut(msg, mss)| - 1 - i
    decreases |msg|
  {
    if |msg| > mss && i > 0 { CutCountsDown(msg[mss..], mss, i - 1); }
  }

  /** All but the last are of full size, and the last is empty only if the message is. */
  lemma {:induction false} CutSizes(msg: seq<byte>, mss: nat, i: nat)
    requires mss > 0 && i < |Cut(msg, mss)|
    ensures var c := Cut(msg, mss);
            if i < |c| - 1 then |c[i].data| == mss else |c[i].data| <= mss && (c[i].data == [] ==> msg == [])
    decreases |msg|
  {
    if |msg| > mss && i > 0 { CutSizes(msg[mss..], mss, i - 1); }
  }

  /** The segments Send queues are the fragments of the message. */
  lemma {:induction false} PiecesAreCut(p: Pool, msg: seq<byte>, mss: nat, count: nat)
    requires mss > 0 && 0 < count <= 0x100 && |Cut(msg, mss)| == count
    ensures FragsOf(Pieces(p, msg, mss, count).0) == Cut(msg, mss)
    decreases count
  {
    var size := Min(|msg|, mss);
    var rest := Pieces(Get(p), msg[size..], mss, count - 1).0;
    var first := Piece(count - 1, GetId(p), msg[..size]);
    assert Pieces(p, msg, mss, count).0 == [first] + rest;
    assert FragsOf([first] + rest) == [FragOf(first)] + FragsOf(rest);
    if |msg| <= mss {
      assert count == 1 && msg[..size] == msg && rest == [];
      assert FragsOf(rest) == [];
    } else {
      PiecesAreCut(Get(p), msg[mss..], mss, count - 1);
    }
  }

  // ---------- joining ----------

  function JoinFrags(fs: seq<Frag>): seq<byte> {
    if fs == [] then [] else fs[0].data + JoinFrags(fs[1..])
  }

  lemma {:induction false} JoinCut(msg: seq<byte>, mss: nat)
    requires mss > 0
    ensures JoinFrags(Cut(msg, mss)) == msg
    decreases |msg|
  {
    var c := Cut(msg, mss);
    if |msg| <= mss {
      assert c[1..] == [];
      assert JoinFrags(c) == msg + JoinFrags([]);
    } else {
      JoinCut(msg[mss..], mss);
      assert c[1..] == Cut(msg[mss..], mss);
      assert msg == msg[..mss] + msg[mss..];
    }
  }

  lemma {:induction false} JoinFragsLast(fs: seq<Frag>, f: Frag)
    ensures JoinFrags(fs + [f]) == JoinFrags(fs) + f.data
  {
    var all := fs + [f];
    if fs == [] {
      assert all[1..] == [];
      assert JoinFrags(all) == f.data + JoinFrags([]);
    } else {
      JoinFragsLast(fs[1..], f);
      assert all[1..] == fs[1..] + [f];
    }
  }

  lemma {:induction false} JoinedIsJoin(q: seq<Segment>)
    ensures Joined(q) == JoinFrags(FragsOf(q))
  {
    if q != [] {
      var n := |q| - 1;
      JoinedIsJoin(q[..n]);
      assert FragsOf(q) == FragsOf(q[..n]) + [FragOf(q[n])];
      JoinFragsLast(FragsOf(q[..n]), FragOf(q[n]));
    }
  }

  // ---------- the first message of a queue ----------

  /** A read looks for the first 0, and finds the end of the message. */
  lemma {:induction false} FrontIs(q: seq<Segment>, k: nat, n: nat)
    requires k <= n < |q| && q[n].frg == 0 && forall i :: k <= i < n ==> q[i].frg != 0
    ensures FrontFrom(q, k) == n + 1
    decreases n - k
  {
    if k < n { FrontIs(q, k + 1, n); }
  }

  /** A queue that starts with the fragments of msg, as far as it reaches: a complete message is
      seen exactly when all of them are there, and then it is read back byte for byte. */
  lemma HeadMessage(q: seq<Segment>, msg: seq<byte>, mss: nat)
    requires mss > 0 && Sendable(msg, mss) && |q| > 0
    requires var c := Cut(msg, mss); forall i :: 0 <= i < |q| && i < |c| ==> FragOf(q[i]) == c[i]
    ensures var c := Cut(msg, mss);
            && (PeekSize(q) >= 0 <==> |q| >= |c|)
            && (|q| >= |c| ==> Front(q) == |c| && Joined(q[..|c|]) == msg && PeekSize(q) == |msg|)
  {
    var c := Cut(msg, mss);
    CutCount(msg, mss);
    assert FragOf(q[0]) == c[0] && q[0].frg == |c| - 1;
    SeenIff(q);
    if |q| >= |c| { CompleteMessage(q, msg, mss); }
  }

  /** On any queue whatever: a message counts as complete when as many fragments follow as it announces,
      except that an announced 255 counts as none. */
  lemma SeenIff(q: seq<Segment>)
    ensures PeekSize(q) >= 0 <==> |q| > 0 && (q[0].frg < |q| || q[0].frg == 255)
  {}

  /** So a single fragment that announces 255 more is read as a message of its own. */
  lemma LoneFragmentIsRead(r: Rcv, wnd: nat, data: seq<byte>, m: Arith)
    requires r.queue == [Piece(255, 0, data)] && r.buf == []
    ensures PeekSize(r.queue) == |data|
    ensures Recv(m, r, wnd, |data|).data == data && Recv(m, r, wnd, |data|).rcv.queue == []
  {
    var q := r.queue;
    assert FrontFrom(q, 1) == 1 && Front(q) == 1 && q[..1] == q && q[1..] == [];
    JoinedStep(q, 0);
    assert q[..0] == [];
    assert Joined(q) == [] + data;
  }

  lemma CompleteMessage(q: seq<Segment>, msg: seq<byte>, mss: nat)
    requires mss > 0 && |q| >= |Cut(msg, mss)|
    requires var c := Cut(msg, mss); forall i :: 0 <= i < |c| ==> FragOf(q[i]) == c[i]
    ensures Front(q) == |Cut(msg, mss)| && Joined(q[..|Cut(msg, mss)|]) == msg
  {
    var c := Cut(msg, mss);
    var n := |c| - 1;
    forall i | 0 <= i < |c| ensures q[i].frg == n - i {
      CutCountsDown(msg, mss, i);
      assert FragOf(q[i]) == c[i];
    }
    FrontIs(q, 0, n);
    assert FragsOf(q[..|c|]) == c;
    JoinedIsJoin(q[..|c|]);
    JoinCut(msg, mss);
  }

  // ---------- lists of messages ----------

  lemma CutAllSnoc(msgs: seq<seq<byte>>, msg: seq<byte>, mss: nat)
    requires mss > 0
    ensures CutAll(msgs + [msg], mss) == CutAll(msgs, mss) + Cut(msg, mss)
  {
    assert (msgs + [msg])[..|msgs|] == msgs;
  }

  /** A prefix of the messages has a prefix of the fragments. */
  lemma {:induction false} CutAllPrefix(got: seq<seq<byte>>, sent: seq<seq<byte>>, mss: nat)
    requires mss > 0 && got <= sent
    ensures CutAll(got, mss) <= CutAll(sent, mss)
    decreases |sent|
  {
    if |got| < |sent| {
      CutAllPrefix(got, sent[..|sent|-1], mss);
    } else {
      assert got == sent;
    }
  }

  /** After the fragments of the first messages come those of the next one. */
  lemma NextMessage(got: seq<seq<byte>>, sent: seq<seq<byte>>, mss: nat)
    requires mss > 0 && got <= sent && |got| < |sent|
    ensures CutAll(got, mss) + Cut(sent[|got|], mss) <= CutAll(sent, mss)
  {
    var more := got + [sent[|got|]];
    assert more == sent[..|got|+1];
    assert CutAll(more, mss) == CutAll(got, mss) + Cut(sent[|got|], mss) by { CutAllSnoc(got, sent[|got|], mss); }
    CutAllPrefix(more, sent, mss);
  }
}
