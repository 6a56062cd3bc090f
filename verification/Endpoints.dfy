/** Control blocks at work: two objects, any schedule of calls and deliveries between them.  What
    Network and ByteNetwork prove of values is here a postcondition of running the methods. */
module Endpoints {
  import opened Words
  import opened Segments
  import opened Timing
  import opened Flushing
  import opened Engine
  import opened Invariants
  import opened Network
  import opened Refinement
  import opened ByteNetwork
  import opened ControlBlocks
  import opened Sessions

  /** No longer than a control block takes. */
  ghost predicate Short(net: seq<seq<byte>>) { forall i :: 0 <= i < |net| ==> |net[i]| <= MAX_MTU + OVERHEAD }

  lemma EmittedIsShort(ds: seq<seq<Wire>>, mtu: nat)
    requires mtu <= MAX_MTU + OVERHEAD && forall d :: d in ds ==> Fits(d, mtu)
    ensures Short(EncodeNet(ds))
  {
    forall i | 0 <= i < |ds| ensures |EncodeNet(ds)[i]| <= MAX_MTU + OVERHEAD {
      assert ds[i] in ds;
      EncodeAllSize(ds[i]);
    }
  }

  lemma FlushIsShort(st: State, ackOnly: bool, clock: nat -> u32)
    requires StateOk(Wrapping, st)
    ensures Short(EncodeNet(Flush(Wrapping, st, ackOnly, clock).out))
  {
    FlushEmits(Wrapping, st, ackOnly, clock);
    EmittedIsShort(Flush(Wrapping, st, ackOnly, clock).out, st.cfg.mtu);
  }

  lemma MoreIsShort(net: seq<seq<byte>>, more: seq<seq<byte>>)
    requires Short(net) && Short(more)
    ensures Short(net + more)
  {}

  /** An outcome of st that a control block may report: its datagrams keep the output short. */
  lemma UpdateIsShort(st: State, net: seq<seq<byte>>, now: u32, clock: nat -> u32)
    requires StateOk(Wrapping, st) && Short(net)
    ensures Short(net + EncodeNet(Update(Wrapping, st, now, clock).out))
  {
    FlushIsShort(st.(timer := Tick(st.timer, st.cfg.interval, now).0), false, clock);
    MoreIsShort(net, EncodeNet(Update(Wrapping, st, now, clock).out));
  }

  lemma FinishIsShort(una: int, l: Loop, regular: bool, ackNoDelay: bool, now: u32, clock: nat -> u32)
    requires StateOk(Wrapping, l.st)
    ensures Short(EncodeNet(Finish(Wrapping, una, l, regular, ackNoDelay, now, clock).out))
  {
    AfterLoopKeeps(Wrapping, una, l, regular, now);
    var st := AfterLoop(Wrapping, una, l, regular, now);
    FlushIsShort(st, false, clock);
    FlushIsShort(st, true, clock);
  }

  lemma InputIsShort(
      st: State, net: seq<seq<byte>>, b: seq<byte>, regular: bool, ackNoDelay: bool, now: u32, clock: nat -> u32)
    requires StateOk(Wrapping, st) && Short(net)
    ensures Short(net + EncodeNet(Input(st, b, regular, ackNoDelay, now, clock).out))
  {
    var l := Loop(st, false, false, 0);
    InputBytesKeep(l, regular, b);
    FinishIsShort(st.snd.una, InputBytes(l, regular, b).0, regular, ackNoDelay, now, clock);
    MoreIsShort(net, EncodeNet(Input(st, b, regular, ackNoDelay, now, clock).out));
  }

  /** One end: a control block, and the messages it accepted and delivered. */
  class Endpoint {
    const cb: ControlBlock
    var sent: seq<seq<byte>>
    var got: seq<seq<byte>>

    ghost function View(): ByteEnd
      reads this, cb
    { ByteEnd(cb.View(), cb.output, sent, got) }

    ghost predicate Valid()
      reads this, cb
    { cb.Valid() && Short(cb.output) }

    /** A session just started. */
    constructor (conv: u32, session: u32, pick: nat -> nat)
      ensures Valid() && View() == ByteEnd(Fresh(SessionConfig(conv, session), pick), [], [], [])
      ensures fresh(cb) && fresh(cb.buffer)
    {
      var s := new Session(conv, session, pick);
      cb, sent, got := s.cb, [], [];
    }

    method SendIt(msg: seq<byte>)
      requires Valid()
      modifies this, cb
      ensures Valid() && cb.buffer == old(cb.buffer)
      ensures View() == ActBytes(old(View()), [], SendMessage(msg))
    {
      var code := cb.Send(msg);
      if code == 0 { sent := sent + [msg]; }
    }

    method ReadIt(room: nat)
      requires Valid()
      modifies this, cb
      ensures Valid() && cb.buffer == old(cb.buffer)
      ensures View() == ActBytes(old(View()), [], ReadMessage(room))
    {
      var dst := new byte[room];
      var code := cb.Recv(dst);
      if code >= 0 { got := got + [dst[..code]]; }
    }

    method UpdateIt(now: u32, clock: nat -> u32)
      requires Valid()
      modifies this, cb, cb.buffer
      ensures Valid() && cb.buffer == old(cb.buffer)
      ensures View() == ActBytes(old(View()), [], CallUpdate(now, clock))
    {
      UpdateIsShort(cb.View(), cb.output, now, clock);
      cb.Update(now, clock);
    }

    method DeliverIt(inbox: seq<seq<byte>>, i: nat, regular: bool, ackNoDelay: bool, now: u32, clock: nat -> u32)
      requires Valid() && Short(inbox)
      modifies this, cb, cb.buffer
      ensures Valid() && cb.buffer == old(cb.buffer)
      ensures View() == ActBytes(old(View()), inbox, Deliver(i, regular, ackNoDelay, now, clock))
    {
      if i < |inbox| {
        InputIsShort(cb.View(), cb.output, inbox[i], regular, ackNoDelay, now, clock);
        ShortIsStorable(Loop(cb.View(), false, false, 0), regular, inbox[i]);
        var code := cb.Input(inbox[i], regular, ackNoDelay, now, clock);
      }
    }

    /** Any action; inbox: everything the peer has sent. */
    method Act(inbox: seq<seq<byte>>, a: Action)
      requires Valid() && Short(inbox)
      modifies this, cb, cb.buffer
      ensures Valid() && cb.buffer == old(cb.buffer)
      ensures View() == ActBytes(old(View()), inbox, a)
    {
      match a
      case SendMessage(msg) => SendIt(msg);
      case Deliver(i, regular, ackNoDelay, now, clock) => DeliverIt(inbox, i, regular, ackNoDelay, now, clock);
      case CallUpdate(now, clock) => UpdateIt(now, clock);
      case ReadMessage(room) => ReadIt(room);
    }
  }

  /** The same two sessions with unbounded numbers. */
  function Pair(conv: u32, session: u32, pickL: nat -> nat, pickR: nat -> nat): (s: Sys)
    ensures s.Configured()
  { Sys(FreshEnd(SessionConfig(conv, session), pickL), FreshEnd(SessionConfig(conv, session), pickR)) }

  lemma PairIsStarted(conv: u32, session: u32, pickL: nat -> nat, pickR: nat -> nat)
    ensures StartedSessions(Pair(conv, session, pickL, pickR))
  {}

  lemma FreshRep(cfg: Config, pick: nat -> nat)
    ensures RepEnd(FreshEnd(cfg, pick)) == ByteEnd(Fresh(cfg, pick), [], [], [])
  {
    assert RepSegments([]) == [] && RepAcks([]) == [];
    assert EncodeNet(RepNet([])) == [];
  }

  ghost predicate Separate(l: Endpoint, r: Endpoint)
    reads l, r, l.cb, r.cb
  { l != r && l.cb != r.cb && l.cb.buffer != r.cb.buffer }

  ghost function Both(l: Endpoint, r: Endpoint): ByteSys
    reads l, r, l.cb, r.cb
  { ByteSys(l.View(), r.View()) }

  method MoveOne(l: Endpoint, r: Endpoint, mv: Move)
    requires l.Valid() && r.Valid() && Separate(l, r)
    modifies l, l.cb, l.cb.buffer, r, r.cb, r.cb.buffer
    ensures l.Valid() && r.Valid() && Separate(l, r) && l.cb.buffer == old(l.cb.buffer)
            && r.cb.buffer == old(r.cb.buffer)
    ensures Both(l, r) == StepBytes(old(Both(l, r)), mv)
  {
    match mv
    case Left(a) => l.Act(r.cb.output, a);
    case Right(a) => r.Act(l.cb.output, a);
  }

  /** A schedule. */
  method RunMoves(l: Endpoint, r: Endpoint, moves: seq<Move>)
    requires l.Valid() && r.Valid() && Separate(l, r)
    modifies l, l.cb, l.cb.buffer, r, r.cb, r.cb.buffer
    ensures Both(l, r).Configured() && old(Both(l, r)).Configured()
    ensures Both(l, r) == RunBytes(old(Both(l, r)), moves)
  {
    ghost var s := Both(l, r);
    var i := 0;
    while i < |moves|
      invariant i <= |moves| && l.Valid() && r.Valid() && Separate(l, r)
      invariant l.cb.buffer == old(l.cb.buffer) && r.cb.buffer == old(r.cb.buffer)
      invariant s.Configured() && Both(l, r) == RunBytes(s, moves[..i])
    {
      MoveOne(l, r, moves[i]);
      assert moves[..i+1][..i] == moves[..i];
      i := i + 1;
    }
    assert moves[..i] == moves;
  }

  /** Two sessions under any schedule of calls, deliveries, repetitions, reorderings and losses: what
      each end delivers is, byte for byte, a prefix of what the other accepted, at least while each has
      accepted fewer than 2^31 - 2^16 segments. */
  method RunSchedule(conv: u32, session: u32, pickL: nat -> nat, pickR: nat -> nat, moves: seq<Move>)
    returns (l: Endpoint, r: Endpoint)
    ensures Both(l, r) == RunBytes(RepSys(Pair(conv, session, pickL, pickR)), moves)
    ensures FewSegments(Both(l, r)) ==> r.got <= l.sent && l.got <= r.sent
  {
    l := new Endpoint(conv, session, pickL);
    r := new Endpoint(conv, session, pickR);
    FreshRep(SessionConfig(conv, session), pickL);
    FreshRep(SessionConfig(conv, session), pickR);
    RunMoves(l, r, moves);
    PairIsStarted(conv, session, pickL, pickR);
    if FewSegments(Both(l, r)) { ShortRunsAreSafe(Pair(conv, session, pickL, pickR), moves); }
  }
}
