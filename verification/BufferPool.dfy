/** The pool of packet buffers, as an ownership account: which buffers lie free, and how many
    have ever been made.  A buffer is a number; a segment owns the one its body names. */
module BufferPool {
  import opened Segments

  /** pick: which buffer the pool would like to hand out at the k-th request.  Every behaviour of
      the pool is described by some pick: a buffer that is not free stands for making a new one. */
  datatype Pool = Pool(pick: nat -> nat, free: multiset<nat>, made: nat, gets: nat)

  function GetId(p: Pool): nat {
    var c := p.pick(p.gets);
    if c in p.free then c else p.made
  }

  function Get(p: Pool): Pool {
    var c := p.pick(p.gets);
    if c in p.free then p.(free := p.free - multiset{c}, gets := p.gets + 1)
    else p.(made := p.made + 1, gets := p.gets + 1)
  }

  /** The buffers owned by a list of segments. */
  function Ids(q: seq<Segment>): multiset<nat> {
    if q == [] then multiset{} else Ids(q[..|q|-1]) + IdOf(q[|q|-1].body)
  }

  function IdOf(b: Body): multiset<nat> { if b.Nil? then multiset{} else multiset{b.id} }

  /** Returning the buffers of a list of segments. */
  function Release(p: Pool, q: seq<Segment>): Pool { p.(free := p.free + Ids(q)) }

  lemma IdsSnoc(q: seq<Segment>, x: Segment)
    ensures Ids(q + [x]) == Ids(q) + IdOf(x.body)
  {
    assert (q + [x])[..|q|] == q;
  }

  lemma ConcatStep(a: seq<Segment>, front: seq<Segment>, last: Segment, sum: multiset<nat>)
    requires Ids(a + front) == Ids(a) + Ids(front) && sum == IdOf(last.body)
    ensures Ids((a + front) + [last]) == Ids(a) + (Ids(front) + sum)
  {
    IdsSnoc(a + front, last);
    SumsRegroup(Ids(a), Ids(front), sum);
  }

  lemma LastApart<T>(a: seq<T>, b: seq<T>)
    requires |b| > 0
    ensures a + b == (a + b[..|b|-1]) + [b[|b|-1]]
  {
    assert b == b[..|b|-1] + [b[|b|-1]];
  }

  lemma {:induction false} IdsConcat(a: seq<Segment>, b: seq<Segment>)
    ensures Ids(a + b) == Ids(a) + Ids(b)
  {
    if b == [] {
      assert a + b == a;
    } else {
      var front, last := b[..|b|-1], b[|b|-1];
      IdsConcat(a, front);
      ConcatStep(a, front, last, IdOf(last.body));
      LastApart(a, b);
    }
  }

  lemma SumsRegroup(a: multiset<nat>, b: multiset<nat>, c: multiset<nat>)
    ensures (a + b) + c == a + (b + c)
  {}

  lemma IdsSplit(q: seq<Segment>, n: nat)
    requires n <= |q|
    ensures Ids(q) == Ids(q[..n]) + Ids(q[n..])
  {
    assert q == q[..n] + q[n..];
    IdsConcat(q[..n], q[n..]);
  }

  /** A loop that empties a list from the front leaves the rest as it was. */
  lemma RestStays(q: seq<Segment>, s: seq<Segment>, n: nat, x: Segment)
    requires |q| == |s| && n < |q| && q[n..] == s[n..]
    ensures q[n] == s[n] && q[n := x][n+1..] == s[n+1..]
  {
    assert q[n] == q[n..][0] && s[n] == s[n..][0];
    assert q[n := x][n+1..] == q[n..][1..];
    assert s[n+1..] == s[n..][1..];
  }

  lemma ReleaseOneMore(p: Pool, q: seq<Segment>, n: nat)
    requires n < |q|
    ensures Release(Release(p, q[..n]), [q[n]]) == Release(p, q[..n+1])
  {
    assert q[..n+1] == q[..n] + [q[n]];
    IdsConcat(q[..n], [q[n]]);
  }

  lemma IdsOne(seg: Segment)
    ensures Ids([seg]) == IdOf(seg.body)
  {
    assert [seg][..0] == [];
  }

  /** Segments with the same bodies own the same buffers. */
  lemma {:induction false} IdsSameBodies(a: seq<Segment>, b: seq<Segment>)
    requires |a| == |b| && forall k :: 0 <= k < |a| ==> a[k].body == b[k].body
    ensures Ids(a) == Ids(b)
  {
    if |a| > 0 { IdsSameBodies(a[..|a|-1], b[..|b|-1]); }
  }

  /** The buffers made so far, each once. */
  function All(n: nat): multiset<nat> {
    if n == 0 then multiset{} else All(n - 1) + multiset{n - 1}
  }

  lemma {:induction false} AllOnce(n: nat, id: nat)
    ensures All(n)[id] == if id < n then 1 else 0
  {
    if n > 0 { AllOnce(n - 1, id); }
  }

  /** A request moves one buffer from the pool to its new owner, or makes one. */
  lemma GetConserves(p: Pool)
    ensures Get(p).free + multiset{GetId(p)} + All(p.made) == p.free + All(Get(p).made)
  {}
}
