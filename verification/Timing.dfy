/** The numeric side of a control block: its settings, the round-trip estimator
    (a variant of section 2 of RFC 6298), the congestion window (compare section 3.1
    of RFC 5681) and the probing of a closed window. */
module Timing {
  import opened Words
  import opened Segments

  const RTO_MAX: u32 := 60000
  const THRESH_MIN: u32 := 2
  const PROBE_INIT: u32 := 7000
  const PROBE_LIMIT: u32 := 120000
  const NO_RESEND: u32 := 0xffff_ffff

  datatype Config = Config(
    conv: u32, session: u32, mtu: u32, mss: u32, snd_wnd: u32, rcv_wnd: u32,
    interval: u32, nodelay: u32, minrto: u32, fastresend: i32, nocwnd: i32, dead_link: u32)
  {
    /** What construction and the three setters leave, for windows that fit the 16-bit
        window field and bodies that fit a pooled buffer. */
    predicate Ok() {
      && 50 <= mtu && mss == mtu - OVERHEAD && mss <= MAX_MTU
      && 0 < snd_wnd < 0x1_0000 && 0 < rcv_wnd < 0x1_0000
      && 10 <= interval <= 5000 && 30 <= minrto <= 100
    }

    /** The number of overtaking acknowledgements that triggers a retransmission. */
    function Resent(): u32 { if fastresend <= 0 then NO_RESEND else fastresend }
  }

  // ---------- round-trip estimation ----------

  datatype Rtt = Rtt(srtt: i32, rttvar: i32, rto: u32)

  function Bound(lower: u32, middle: u32, upper: u32): u32 { Min(Max(lower, middle), upper) }

  /** The smoothed values after a sample, in int32 arithmetic. */
  function Smooth(r: Rtt, rtt: i32): Rtt {
    if r.srtt == 0 then r.(srtt := rtt, rttvar := rtt / 2)
    else
      var delta := Signed32(rtt - r.srtt);
      var srtt := Signed32(r.srtt + delta / 8);
      r.(srtt := srtt, rttvar := SmoothVar(r.rttvar, rtt, srtt, if delta < 0 then Signed32(-(delta as int)) else delta))
  }

  /** The smoothed deviation: a sample below its usual range weighs an eighth of another. */
  function SmoothVar(rttvar: i32, rtt: i32, srtt: i32, dev: i32): i32 {
    var err := Signed32(dev - rttvar);
    Signed32(rttvar + if rtt < Signed32(srtt - rttvar) then err / 32 else err / 4)
  }

  function UpdateAck(r: Rtt, rtt: i32, interval: u32, minrto: u32): Rtt {
    var s := Smooth(r, rtt);
    var rto := Wrap32(Wrap32(s.srtt) + Max(interval, Wrap32(Wrap32(s.rttvar) * 4)));
    s.(rto := Bound(minrto, rto, RTO_MAX))
  }

  ghost predicate RttOk(r: Rtt, R: i32, minrto: u32) {
    0 <= r.srtt <= R && 0 <= r.rttvar <= R && minrto <= r.rto <= RTO_MAX
  }

  lemma InInt32(x: int)
    requires -H32 <= x < H32
    ensures Signed32(x) == x
  {}

  // On non-negative values no int32 step of the smoothing wraps.

  lemma SmoothVarIs(rttvar: i32, rtt: i32, srtt: i32, dev: i32)
    requires 0 <= rttvar && 0 <= srtt && 0 <= dev
    ensures SmoothVar(rttvar, rtt, srtt, dev) ==
            rttvar + (if rtt < srtt - rttvar then (dev - rttvar) / 32 else (dev - rttvar) / 4)
  {
    InInt32(dev - rttvar);
    InInt32(srtt - rttvar);
  }

  lemma SmoothIs(r: Rtt, rtt: i32)
    requires 0 <= rtt && 0 <= r.srtt && 0 <= r.rttvar && r.srtt != 0
    ensures var d: int := rtt - r.srtt; var s := Smooth(r, rtt);
            && s.srtt == r.srtt + d / 8
            && var dev := if d < 0 then -d else d;
               s.rttvar == SmoothVar(r.rttvar, rtt, r.srtt + d / 8, dev)
  {
    var d: int := rtt - r.srtt;
    InInt32(d);
    InInt32(-d);
    InInt32(r.srtt + d / 8);
  }

  /** Samples in [0, R] keep both smoothed values in [0, R], for every R an int32 can hold,
      and the timeout between its two limits. */
  lemma UpdateAckKeeps(r: Rtt, rtt: i32, R: i32, interval: u32, minrto: u32)
    requires 0 <= rtt <= R && RttOk(r, R, minrto)
    ensures RttOk(UpdateAck(r, rtt, interval, minrto), R, minrto)
  {
    var s := Smooth(r, rtt);
    if r.srtt != 0 {
      SmoothIs(r, rtt);
      var d: int := rtt - r.srtt;
      SmoothVarIs(r.rttvar, rtt, s.srtt, if d < 0 then -d else d);
    }
    assert 0 <= s.srtt <= R && 0 <= s.rttvar <= R;
  }

  lemma InUint32(x: int)
    requires 0 <= x < M32
    ensures Wrap32(x) == x
  {}

  /** For samples up to 2^29 the timeout is the sum it is meant to be: no uint32 step wraps. */
  lemma UpdateAckDoesNotWrap(r: Rtt, rtt: i32, R: i32, interval: u32, minrto: u32)
    requires 0 <= rtt <= R <= 0x2000_0000 && RttOk(r, R, minrto) && interval <= 5000
    ensures var t := UpdateAck(r, rtt, interval, minrto);
            t.rto == Min(Max(minrto, t.srtt + Max(interval, 4 * t.rttvar)), RTO_MAX)
  {
    UpdateAckKeeps(r, rtt, R, interval, minrto);
    var s := Smooth(r, rtt);
    InUint32(s.srtt);
    InUint32(s.rttvar);
    InUint32(s.rttvar * 4);
    InUint32(s.srtt + Max(interval, s.rttvar * 4));
  }

  function Within(lower: int, x: int, upper: int): int
    requires lower <= upper
  { if x < lower then lower else if x > upper then upper else x }

  ghost predicate Smoothed(r: Rtt, rtt: int, t: Rtt) {
    var dev := if rtt < r.srtt then r.srtt - rtt else rtt - r.srtt;
    if r.srtt == 0 then t.srtt == rtt && t.rttvar == rtt / 2
    else
      && 8 * t.srtt <= 7 * r.srtt + rtt < 8 * t.srtt + 8
      && if rtt < t.srtt - r.rttvar then 32 * t.rttvar <= 31 * r.rttvar + dev < 32 * t.rttvar + 32
         else 4 * t.rttvar <= 3 * r.rttvar + dev < 4 * t.rttvar + 4
  }

  lemma SmoothedBy(r: Rtt, rtt: i32)
    requires 0 <= rtt && 0 <= r.srtt && 0 <= r.rttvar
    ensures Smoothed(r, rtt, Smooth(r, rtt))
  {
    if r.srtt != 0 {
      SmoothIs(r, rtt);
      var d: int := rtt - r.srtt;
      SmoothVarIs(r.rttvar, rtt, r.srtt + d / 8, if d < 0 then -d else d);
    }
  }

  /** What a sample does, in whole numbers: the first one is taken as it is, with half of it for a deviation.
      A later one makes the smoothed value floor((7 * srtt + rtt) / 8), and the deviation
      floor((3 * rttvar + dev) / 4), or floor((31 * rttvar + dev) / 32) if it lies below the usual range; dev
      is how far the sample was from the value before.  The timeout is the value and four deviations, but at
      least the interval, within its limits. */
  lemma UpdateAckIs(r: Rtt, rtt: i32, R: i32, interval: u32, minrto: u32)
    requires 0 <= rtt <= R <= 0x2000_0000 && RttOk(r, R, minrto) && interval <= 5000
    ensures var t := UpdateAck(r, rtt, interval, minrto);
            Smoothed(r, rtt, t) && t.rto == Within(minrto, t.srtt + Max(interval, 4 * t.rttvar), 60000)
  {
    UpdateAckDoesNotWrap(r, rtt, R, interval, minrto);
    SmoothedBy(r, rtt);
  }

  /** The estimator after n further samples, all equal to rtt. */
  function Repeat(r: Rtt, rtt: i32, interval: u32, minrto: u32, n: nat): Rtt {
    if n == 0 then r else UpdateAck(Repeat(r, rtt, interval, minrto, n - 1), rtt, interval, minrto)
  }

  /** How far the smoothed value is from its resting interval. */
  function Gap(srtt: int, rtt: int): nat {
    if srtt > rtt then srtt - rtt else if srtt < rtt - 7 then rtt - 7 - srtt else 0
  }

  lemma GapShrinks(r: Rtt, rtt: i32, interval: u32, minrto: u32)
    requires 0 <= rtt && 0 <= r.srtt
    ensures var t := UpdateAck(r, rtt, interval, minrto);
            0 <= t.srtt && (Gap(r.srtt, rtt) == 0 ==> Gap(t.srtt, rtt) == 0)
            && (Gap(r.srtt, rtt) > 0 ==> Gap(t.srtt, rtt) < Gap(r.srtt, rtt))
  {
    var d: int := rtt - r.srtt;
    InInt32(d);
    InInt32(r.srtt + d / 8);
  }

  /** Under constant samples the smoothed value reaches [rtt - 7, rtt] within as many steps as
      its distance from it, and stays there. */
  lemma {:induction false} ConstantSamplesSettle(r: Rtt, rtt: i32, interval: u32, minrto: u32, n: nat)
    requires 0 <= rtt && 0 <= r.srtt
    ensures var t := Repeat(r, rtt, interval, minrto, n);
            0 <= t.srtt && Gap(t.srtt, rtt) <= Max(0, Gap(r.srtt, rtt) - n)
    ensures n >= Gap(r.srtt, rtt) ==> rtt - 7 <= Repeat(r, rtt, interval, minrto, n).srtt <= rtt
  {
    if n > 0 {
      ConstantSamplesSettle(r, rtt, interval, minrto, n - 1);
      GapShrinks(Repeat(r, rtt, interval, minrto, n - 1), rtt, interval, minrto);
    }
  }

  // ---------- congestion window ----------

  datatype Cong = Cong(cwnd: u32, incr: u32, ssthresh: u32)

  /** After an input that moved snd_una. */
  function OnAck(c: Cong, mss: u32, rmt_wnd: u32): Cong
    requires mss > 0
  {
    if c.cwnd >= rmt_wnd then c
    else
      var d := if c.cwnd < c.ssthresh then SlowStart(c, mss) else Avoid(c, mss);
      if d.cwnd > rmt_wnd then d.(cwnd := rmt_wnd, incr := Wrap32(rmt_wnd * mss)) else d
  }

  function SlowStart(c: Cong, mss: u32): Cong {
    c.(cwnd := Wrap32(c.cwnd + 1), incr := Wrap32(c.incr + mss))
  }

  /** incr in whole segments, rounded up. */
  function Segments32(incr: u32, mss: u32): u32
    requires mss > 0
  { Wrap32(incr + mss - 1) / mss }

  /** The level of incr that makes room for one segment more. */
  function NextLevel(cwnd: u32, mss: u32): u32 { Wrap32(Wrap32(cwnd + 1) * mss) }

  /** Congestion avoidance: grow by about one mss a round trip. */
  function Avoid(c: Cong, mss: u32): Cong
    requires mss > 0
  {
    var incr := Growth(if c.incr < mss then mss else c.incr, mss);
    c.(incr := incr, cwnd := if NextLevel(c.cwnd, mss) <= incr then Segments32(incr, mss) else c.cwnd)
  }

  function Growth(incr: u32, mss: u32): u32
    requires incr > 0
  { Wrap32(incr + (Wrap32(mss * mss) / incr + mss / 16)) }

  /** After a full flush: some segment was resent early (change), or timed out (lost). */
  function OnFlush(c: Cong, mss: u32, inflight: u32, window: u32, resent: u32, change: bool, lost: bool): Cong {
    var d := if change then
               var ssthresh := Max(inflight / 2, THRESH_MIN);
               var cwnd := Wrap32(ssthresh + resent);
               Cong(cwnd, Wrap32(cwnd * mss), ssthresh)
             else c;
    var e := if lost then Cong(1, mss, Max(window / 2, THRESH_MIN)) else d;
    if e.cwnd < 1 then e.(cwnd := 1, incr := mss) else e
  }

  /** incr stays within one mss of cwnd * mss. */
  ghost predicate Level(c: Cong, mss: u32) {
    (c.cwnd - 1) * mss < c.incr < (c.cwnd + 1) * mss
  }

  ghost predicate CongOk(c: Cong, mss: u32) {
    c.cwnd < 0x2_0000 && THRESH_MIN <= c.ssthresh && Level(c, mss)
  }

  lemma Below(a: int, b: int, c: nat)
    requires a <= b
    ensures a * c <= b * c
  {}

  lemma CeilingDivision(x: nat, d: nat)
    requires d > 0 && x > 0
    ensures var q := (x + d - 1) / d; (q - 1) * d < x <= q * d
  {}

  lemma QuotientBound(x: nat, d: nat, n: nat)
    requires d > 0 && x <= n * d
    ensures x / d <= n
  {}

  /** In congestion avoidance incr grows by at most two mss, and does not wrap. */
  lemma GrowthBound(incr: u32, mss: u32)
    requires 0 < mss <= MAX_MTU && mss <= incr < 0x1000_0000
    ensures incr <= Growth(incr, mss) <= incr + 2 * mss
  {
    assert mss * mss <= 1500 * 1500 by { Below(mss, 1500, mss); Below(mss, 1500, 1500); }
    InUint32(mss * mss);
    var q := mss * mss / incr;
    assert 0 <= q <= mss by { Below(mss, incr, mss); QuotientBound(mss * mss, incr, mss); }
    InUint32(incr + (q + mss / 16));
  }

  lemma AvoidKeeps(c: Cong, mss: u32)
    requires 0 < mss <= MAX_MTU && CongOk(c, mss) && c.ssthresh <= c.cwnd
    ensures Level(Avoid(c, mss), mss)
  {
    assert c.incr >= mss by { Below(1, c.cwnd - 1, mss); }
    assert (c.cwnd + 1) * mss < 0x1000_0000 by { Below(c.cwnd + 1, 0x2_0000, mss); }
    GrowthBound(c.incr, mss);
    var incr := Growth(c.incr, mss);
    assert Wrap32(Wrap32(c.cwnd + 1) * mss) == (c.cwnd + 1) * mss by {
      InUint32(c.cwnd + 1);
      InUint32((c.cwnd + 1) * mss);
    }
    InUint32(incr + mss - 1);
    CeilingDivision(incr, mss);
  }

  lemma SlowStartKeeps(c: Cong, mss: u32)
    requires 0 < mss <= MAX_MTU && CongOk(c, mss)
    ensures Level(SlowStart(c, mss), mss)
  {
    assert (c.cwnd + 1) * mss < 0x1000_0000 by { Below(c.cwnd + 1, 0x2_0000, mss); }
    InUint32(c.incr + mss);
    InUint32(c.cwnd + 1);
  }

  lemma LevelAt(c: Cong, mss: u32)
    requires 0 < mss <= MAX_MTU && c.cwnd < 0x2_0000 && c.incr == Wrap32(c.cwnd * mss)
    ensures Level(c, mss)
  {
    Below(c.cwnd, 0x2_0000, mss);
    InUint32(c.cwnd * mss);
  }

  /** An input keeps the congestion window consistent. */
  lemma OnAckKeeps(c: Cong, mss: u32, rmt_wnd: u32)
    requires 0 < mss <= MAX_MTU && CongOk(c, mss) && rmt_wnd < 0x1_0000
    ensures CongOk(OnAck(c, mss, rmt_wnd), mss)
  {
    if c.cwnd < c.ssthresh { SlowStartKeeps(c, mss); } else { AvoidKeeps(c, mss); }
    LevelAt(c.(cwnd := rmt_wnd, incr := Wrap32(rmt_wnd * mss)), mss);
  }

  /** incr grows by mss * mss / incr + mss / 16, and the window follows when a segment more is full. */
  ghost predicate Creeps(c: Cong, mss: nat, rmt_wnd: nat, d: Cong)
    requires mss > 0
  {
    && c.incr > 0
    && var incr: int := c.incr + mss * mss / c.incr + mss / 16;
       var cwnd: int := if incr < (c.cwnd + 1) * mss then c.cwnd else (incr + mss - 1) / mss;
       if cwnd <= rmt_wnd then d.cwnd == cwnd && d.incr == incr else d.cwnd == rmt_wnd && d.incr == rmt_wnd * mss
  }

  lemma AvoidIs(c: Cong, mss: u32)
    requires 0 < mss <= MAX_MTU && CongOk(c, mss) && c.ssthresh <= c.cwnd
    ensures c.incr > 0
    ensures var d := Avoid(c, mss); var incr := c.incr + mss * mss / c.incr + mss / 16;
            && d.incr == incr && d.ssthresh == c.ssthresh
            && d.cwnd == if incr < (c.cwnd + 1) * mss then c.cwnd else (incr + mss - 1) / mss
  {
    assert c.incr >= mss by { Below(1, c.cwnd - 1, mss); }
    assert (c.cwnd + 1) * mss < 0x1000_0000 by { Below(c.cwnd + 1, 0x2_0000, mss); }
    GrowthIs(c.incr, mss);
    GrowthBound(c.incr, mss);
    InUint32(c.cwnd + 1);
    InUint32((c.cwnd + 1) * mss);
    InUint32(Growth(c.incr, mss) + mss - 1);
  }

  lemma GrowthIs(incr: u32, mss: u32)
    requires 0 < mss <= MAX_MTU && mss <= incr < 0x1000_0000
    ensures Growth(incr, mss) == incr + mss * mss / incr + mss / 16
  {
    assert mss * mss <= 1500 * 1500 by { Below(mss, 1500, mss); Below(mss, 1500, 1500); }
    InUint32(mss * mss);
    assert 0 <= mss * mss / incr <= mss by { Below(mss, incr, mss); QuotientBound(mss * mss, incr, mss); }
    InUint32(incr + (mss * mss / incr + mss / 16));
  }

  /** Below the threshold an input adds one segment to the window; from there on a fraction of one, so that a
      window's worth of inputs adds about one; and never beyond the peer's window.  No uint32 step wraps. */
  lemma OnAckGrows(c: Cong, mss: u32, rmt_wnd: u32)
    requires 0 < mss <= MAX_MTU && CongOk(c, mss) && rmt_wnd < 0x1_0000
    ensures var d := OnAck(c, mss, rmt_wnd);
            && d.ssthresh == c.ssthresh
            && (c.cwnd >= rmt_wnd ==> d == c)
            && (c.cwnd < rmt_wnd && c.cwnd < c.ssthresh ==> d.cwnd == c.cwnd + 1 && d.incr == c.incr + mss)
            && (c.cwnd < rmt_wnd && c.cwnd >= c.ssthresh ==> Creeps(c, mss, rmt_wnd, d))
  {
    if c.cwnd < rmt_wnd {
      if c.cwnd < c.ssthresh {
        assert (c.cwnd + 1) * mss < 0x1000_0000 by { Below(c.cwnd + 1, 0x2_0000, mss); }
        InUint32(c.incr + mss);
        InUint32(c.cwnd + 1);
      } else {
        AvoidIs(c, mss);
        Below(rmt_wnd, 0x1_0000, mss);
        InUint32(rmt_wnd * mss);
      }
    }
  }

  /** A full flush keeps it consistent and leaves a window of at least one segment, also when fast
      resending is off and ssthresh + resent wraps around to ssthresh - 1. */
  lemma OnFlushKeeps(c: Cong, mss: u32, inflight: u32, window: u32, resent: u32, change: bool, lost: bool)
    requires 0 < mss <= MAX_MTU && CongOk(c, mss) && inflight < 0x1_0000
    requires resent <= 0x1_0000 || resent == NO_RESEND
    ensures var d := OnFlush(c, mss, inflight, window, resent, change, lost);
            CongOk(d, mss) && d.cwnd >= 1
    ensures change && !lost && resent == NO_RESEND ==>
              var d := OnFlush(c, mss, inflight, window, resent, change, lost); d.cwnd == d.ssthresh - 1
  {
    var ssthresh := Max(inflight / 2, THRESH_MIN);
    var cwnd := Wrap32(ssthresh + resent);
    assert 1 <= cwnd < 0x2_0000;
    LevelAt(Cong(cwnd, Wrap32(cwnd * mss), ssthresh), mss);
  }
}
