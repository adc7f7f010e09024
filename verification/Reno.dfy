/**
 New Reno in modules/net/quic/cong.c and cong.h (section 7 of RFC 9002): how the congestion window
 moves over any sequence of acknowledgments, losses and ECN signals. Windows are 32 bits wide;
 wrap-around is written out.
 */
module Reno {

  const TWO_32: int := 0x1_0000_0000
  const TWO_64: int := 0x1_0000_0000_0000_0000
  const KGRANULARITY := 1000
  const KPERSISTENT_CONGESTION_THRESHOLD := 3
  const MAX_WINDOW_CAP := 0x3fff_ffff
  const MAX_MSS := 65535

  /** No window ever exceeds this; see WindowBounds. */
  const WINDOW_LIMIT := MAX_MSS * MAX_MSS + 1

  datatype State = SlowStart | Recovery | Avoidance

  /** The fields of struct quic_cong that Reno uses. */
  datatype Cong = Cong(
    window: nat, ssthresh: nat, minWindow: nat, maxWindow: nat, mss: nat, state: State,
    recoveryTime: nat, time: nat, srtt: nat, rttvar: nat, maxAckDelay: nat, minRttValid: bool)

  function Min(a: int, b: int): int { if a < b then a else b }
  function Max(a: int, b: int): int { if a < b then b else a }

  function U32(x: int): (r: nat)
    ensures 0 <= x < TWO_32 ==> r == x
  {
    x % TWO_32
  }

  /** The test of quic_cong_check_persistent_congestion, section 7.6.1 of RFC 9002. */
  predicate Persistent(c: Cong, lastAckTime: nat)
  {
    var duration := U32(c.srtt + Max(U32(4 * c.rttvar), KGRANULARITY));
    var limit := U32(U32(duration + c.maxAckDelay) * KPERSISTENT_CONGESTION_THRESHOLD);
    (c.time - lastAckTime) % TWO_64 > limit
  }

  /** The multiplicative decrease, unless a recovery period is under way. */
  function Decrease(c: Cong): Cong
  {
    if c.state == Recovery then c
    else
      var ssthresh := Max(c.window / 2, c.minWindow);
      c.(recoveryTime := c.time, state := Recovery, ssthresh := ssthresh, window := ssthresh)
  }

  /** Persistent congestion: back to the minimum window, and the minimum RTT is to be measured anew. */
  function Collapse(c: Cong): Cong
  {
    c.(window := c.minWindow, state := SlowStart, minRttValid := false)
  }

  function Lost(c: Cong, lastAckTime: nat): Cong
  {
    if Persistent(c, lastAckTime) then Collapse(c) else Decrease(c)
  }

  function Acked(c: Cong, sentTime: nat, bytes: nat): Cong
    requires c.window > 0
  {
    match c.state
    case SlowStart =>
      var window := Min(U32(c.window + bytes), c.maxWindow);
      c.(window := window, state := if window >= c.ssthresh then Avoidance else SlowStart)
    case Recovery => if c.recoveryTime < sentTime then c.(state := Avoidance) else c
    case Avoidance => c.(window := U32(c.window + U32(c.mss * bytes) / c.window))
  }

  /** quic_cong_set_mss: the minimum window of section 7.2 of RFC 9002. */
  function MinWindow(mss: nat): nat
  {
    Max(Min(U32(mss * 10), 14720), U32(mss * 2))
  }

  function SetMss(c: Cong, mss: nat): Cong
  {
    if c.mss == mss then c
    else c.(mss := mss, minWindow := MinWindow(mss), window := Max(c.window, MinWindow(mss)))
  }

  // ---------- the code's own form ----------

  class RenoCong {
    var window: nat
    var ssthresh: nat
    var minWindow: nat
    var maxWindow: nat
    var mss: nat
    var state: State
    var recoveryTime: nat
    var time: nat
    var srtt: nat
    var rttvar: nat
    var maxAckDelay: nat
    var minRttValid: bool

    ghost function Abs(): Cong
      reads this
    {
      Cong(window, ssthresh, minWindow, maxWindow, mss, state, recoveryTime, time, srtt, rttvar, maxAckDelay,
           minRttValid)
    }

    /** The window is at least its positive minimum and below 2^32; see WindowBounds. */
    ghost predicate Valid()
      reads this
    {
      Inv(Abs())
    }

    constructor (c: Cong)
      ensures Abs() == c
    {
      window, ssthresh, minWindow, maxWindow, mss := c.window, c.ssthresh, c.minWindow, c.maxWindow, c.mss;
      state, recoveryTime, time := c.state, c.recoveryTime, c.time;
      srtt, rttvar, maxAckDelay, minRttValid := c.srtt, c.rttvar, c.maxAckDelay, c.minRttValid;
    }

    /** quic_cong_check_persistent_congestion */
    method CheckPersistent(lastAckTime: nat) returns (yes: bool)
      modifies this`window, this`state, this`minRttValid
      ensures yes == Persistent(old(Abs()), lastAckTime)
      ensures Abs() == if yes then Collapse(old(Abs())) else old(Abs())
      ensures yes ==> window == minWindow && state == SlowStart && !minRttValid
      ensures old(Valid()) ==> Valid()
    {
      var limit := U32(srtt + Max(U32(4 * rttvar), KGRANULARITY));
      limit := U32(U32(limit + maxAckDelay) * KPERSISTENT_CONGESTION_THRESHOLD);
      if (time - lastAckTime) % TWO_64 <= limit {
        return false;
      }
      minRttValid := false;
      window := minWindow;
      state := SlowStart;
      return true;
    }

    /** quic_reno_handle_packet_lost, also for ECN signals */
    method HandleLost()
      modifies this
      ensures Abs() == Decrease(old(Abs()))
      ensures old(Valid()) ==> Valid()
      ensures old(state) == Recovery ==> unchanged(this)
      ensures old(state) != Recovery ==>
                && state == Recovery && recoveryTime == old(time) && ssthresh == window
                && (2 * window <= old(window) <= 2 * window + 1 ||
                    (window == minWindow && old(window) < 2 * minWindow))
    {
      if state == Recovery {
        return;
      }
      recoveryTime := time;
      state := Recovery;
      ssthresh := Max(window / 2, minWindow);
      window := ssthresh;
    }

    /** quic_reno_on_packet_lost */
    method OnPacketLost(lastAckTime: nat)
      modifies this
      ensures Abs() == Lost(old(Abs()), lastAckTime)
      ensures if Persistent(old(Abs()), lastAckTime) then window == minWindow && state == SlowStart
              else state == Recovery && (old(state) == Recovery ==> unchanged(this))
      ensures old(Valid()) ==> Valid()
    {
      var persistent := CheckPersistent(lastAckTime);
      if !persistent {
        HandleLost();
      }
    }

    /** quic_cong_set_mss */
    method UpdateMss(mss': nat)
      modifies this`mss, this`minWindow, this`window
      ensures Abs() == SetMss(old(Abs()), mss')
      ensures mss == mss' && (old(mss) == mss' ==> unchanged(this))
      ensures old(mss) != mss' ==>
                minWindow == MinWindow(mss') && window == if old(window) < minWindow then minWindow else old(window)
      ensures old(Valid()) && Legal(old(Abs()), Mss(mss')) ==> Valid()
    {
      if mss == mss' {
        return;
      }
      mss := mss';
      minWindow := Max(Min(U32(mss * 10), 14720), U32(mss * 2));
      if window < minWindow {
        window := minWindow;
      }
    }

    /** quic_reno_on_packet_acked */
    method OnPacketAcked(sentTime: nat, bytes: nat)
      requires window > 0
      modifies this
      ensures Abs() == Acked(old(Abs()), sentTime, bytes)
      ensures old(Valid()) && bytes <= MAX_MSS ==> Valid()
    {
      hide Inv, U32;
      ghost var c := Abs();
      if Valid() && bytes <= MAX_MSS {
        StepKeepsInv(c, AckEvent(sentTime, bytes));
      }
      if state == SlowStart {
        window := Min(U32(window + bytes), maxWindow);
        if window >= ssthresh {
          state := Avoidance;
        }
      } else if state == Recovery {
        if recoveryTime < sentTime {
          state := Avoidance;
        }
      } else {
        window := U32(window + U32(mss * bytes) / window);
      }
    }
  }

  // ---------- runs ----------

  datatype Event =
    | AckEvent(sentTime: nat, bytes: nat)
    | LossEvent(lastAckTime: nat)
    | EcnEvent
    | Clock(now: nat)
    | Rtt(srtt: nat, rttvar: nat)
    | Mss(mss: nat)

  /** What packets and paths allow: lengths of at most 65535 bytes, and room for the minimum window. */
  predicate Legal(c: Cong, e: Event)
  {
    && (e.AckEvent? ==> e.bytes <= MAX_MSS)
    && (e.Mss? ==> 0 < e.mss <= MAX_MSS && MinWindow(e.mss) <= c.maxWindow)
  }

  /** Events that are not legal do not happen. */
  function Step(c: Cong, e: Event): Cong
  {
    if c.window == 0 || !Legal(c, e) then c else
    match e
    case AckEvent(t, n) => Acked(c, t, n)
    case LossEvent(t) => Lost(c, t)
    case EcnEvent => Decrease(c)
    case Clock(now) => c.(time := now)
    case Rtt(s, v) => c.(srtt := s, rttvar := v)
    case Mss(m) => SetMss(c, m)
  }

  ghost predicate Inv(c: Cong)
  {
    && 0 < c.mss <= MAX_MSS
    && 0 < c.minWindow <= c.maxWindow <= MAX_WINDOW_CAP
    && c.minWindow <= c.window <= WINDOW_LIMIT
  }

  lemma Product(a: nat, b: nat)
    ensures a * b >= 0 && a * b == (a + 1) * (b + 1) - a - b - 1
  {
  }

  /** Congestion avoidance has no cap of its own, but its steps shrink as the window grows. */
  lemma AvoidanceStep(w: nat, p: nat)
    requires 0 < w <= WINDOW_LIMIT && p <= MAX_MSS * MAX_MSS
    ensures w <= w + p / w <= WINDOW_LIMIT
  {
    var q := p / w;
    assert p == w * q + p % w;
    if q > 0 {
      Product(w - 1, q - 1);
    }
  }

  lemma MulLe(x: nat, y: nat, d: nat)
    requires x <= y
    ensures x * d <= y * d
  {
  }

  lemma PacketProduct(m: nat, n: nat)
    requires m <= MAX_MSS && n <= MAX_MSS
    ensures m * n <= MAX_MSS * MAX_MSS
  {
    MulLe(m, MAX_MSS, n);
    MulLe(n, MAX_MSS, MAX_MSS);
  }

  lemma StepKeepsInv(c: Cong, e: Event)
    requires Inv(c)
    ensures Inv(Step(c, e))
  {
    hide Persistent, U32;
    match e
    case AckEvent(t, n) =>
      if c.state == Avoidance && n <= MAX_MSS {
        var p := c.mss * n;
        PacketProduct(c.mss, n);
        AvoidanceStep(c.window, p);
        assert U32(p) == p;
        assert U32(c.window + p / c.window) == c.window + p / c.window;
      }
    case _ =>
  }

  function Run(c: Cong, es: seq<Event>): Cong
  {
    if es == [] then c else Step(Run(c, es[..|es| - 1]), es[|es| - 1])
  }

  /**
   Over every run the window stays at or above the minimum window, which is positive, and below
   2^32 with room for one more packet, although congestion avoidance has no cap.
   */
  lemma {:induction false} WindowBounds(c: Cong, es: seq<Event>)
    requires Inv(c)
    ensures Inv(Run(c, es))
    ensures 0 < Run(c, es).minWindow <= Run(c, es).window && Run(c, es).window + MAX_MSS < TWO_32
  {
    if es != [] {
      WindowBounds(c, es[..|es| - 1]);
      StepKeepsInv(Run(c, es[..|es| - 1]), es[|es| - 1]);
    }
  }

  /** The floor rests on the limit of the peer: an acknowledgment in slow start keeps the window at
      or above the minimum window if and only if the maximum window is. */
  lemma SlowStartFloor(c: Cong, sentTime: nat, bytes: nat)
    requires c.state == SlowStart && 0 < c.minWindow <= c.window <= WINDOW_LIMIT && bytes <= MAX_MSS
    ensures Acked(c, sentTime, bytes).window >= c.minWindow <==> c.maxWindow >= c.minWindow
  {
  }

  /** The minimum window of a path: ten packets up to 14720 bytes, but at least two. */
  lemma MinWindowMeans(mss: nat)
    requires mss <= MAX_MSS
    ensures 2 * mss <= MinWindow(mss) <= 10 * mss
    ensures MinWindow(mss) < 10 * mss ==> MinWindow(mss) >= 14720
    ensures MinWindow(mss) > 14720 ==> MinWindow(mss) == 2 * mss
  {
  }

  /** The event halves the window. */
  predicate Halves(c: Cong, e: Event)
  {
    c.state != Recovery && ((e.LossEvent? && !Persistent(c, e.lastAckTime)) || e.EcnEvent?)
  }

  /** A halving halves: the window and the threshold become half of what the window was, or the
      minimum window when that is more. It never raises the window. */
  lemma HalvingHalves(c: Cong, e: Event)
    requires Inv(c) && Halves(c, e)
    ensures var c' := Step(c, e);
            && c'.ssthresh == c'.window <= c.window
            && (2 * c'.window <= c.window <= 2 * c'.window + 1 ||
                (c'.window == c.minWindow && c.window < 2 * c.minWindow))
  {
    hide Persistent, U32, MinWindow;
  }

  /** Only a halving, persistent congestion, and the cap in slow start lower the window. */
  lemma OnlyCongestionLowers(c: Cong, e: Event)
    requires Inv(c) && Step(c, e).window < c.window
    ensures || Halves(c, e)
            || (e.LossEvent? && Persistent(c, e.lastAckTime) && Step(c, e).window == c.minWindow)
            || (e.AckEvent? && c.state == SlowStart && Step(c, e).window == c.maxWindow)
  {
    hide Persistent, MinWindow;
    if e.AckEvent? && c.state == Avoidance && e.bytes <= MAX_MSS {
      AvoidanceWindow(c, e.sentTime, e.bytes);
      AvoidanceStep(c.window, c.mss * e.bytes);
    }
  }

  /**
   What an acknowledgment adds: in slow start the bytes acknowledged, up to the cap, so the window
   doubles in a round trip; in recovery nothing; in congestion avoidance see AvoidanceGrows.
   */
  lemma AckedGrows(c: Cong, sentTime: nat, bytes: nat)
    requires Inv(c) && bytes <= MAX_MSS && c.state != Avoidance
    ensures var w := Acked(c, sentTime, bytes).window;
            && (c.state == SlowStart ==> w == if c.window + bytes <= c.maxWindow then c.window + bytes else c.maxWindow)
            && (c.state == Recovery ==> w == c.window)
    ensures var state' := Acked(c, sentTime, bytes).state;
            && (c.state == SlowStart ==> (state' == SlowStart <==> Acked(c, sentTime, bytes).window < c.ssthresh))
            && (c.state == Recovery ==> (state' == Recovery <==> sentTime <= c.recoveryTime))
            && state' in {c.state, Avoidance}
  {
    hide U32;
    if c.state == SlowStart {
      assert U32(c.window + bytes) == c.window + bytes;
    }
  }

  /** In congestion avoidance an acknowledgment adds that share of one packet which its bytes are of
      the window, rounded down; so a whole window of them adds one packet. */
  lemma AvoidanceGrows(c: Cong, sentTime: nat, bytes: nat, more: int)
    requires Inv(c) && bytes <= MAX_MSS && c.state == Avoidance
    requires more == Acked(c, sentTime, bytes).window - c.window
    ensures 0 <= more && more * c.window <= c.mss * bytes < (more + 1) * c.window
    ensures bytes == c.window ==> more == c.mss
  {
    AvoidanceWindow(c, sentTime, bytes);
    hide Acked;
    Quotient(c.mss * bytes, c.window);
    AvoidanceStep(c.window, c.mss * bytes);
    if bytes == c.window {
      ExactQuotient(c.mss, c.window);
    }
  }

  /** In congestion avoidance nothing wraps. */
  lemma AvoidanceWindow(c: Cong, sentTime: nat, bytes: nat)
    requires Inv(c) && bytes <= MAX_MSS && c.state == Avoidance
    ensures Acked(c, sentTime, bytes).window == c.window + c.mss * bytes / c.window
    ensures c.mss * bytes <= MAX_MSS * MAX_MSS
  {
    hide U32;
    var p := c.mss * bytes;
    PacketProduct(c.mss, bytes);
    AvoidanceStep(c.window, p);
    assert U32(p) == p;
    assert U32(c.window + p / c.window) == c.window + p / c.window;
  }

  lemma Quotient(p: nat, w: nat)
    requires w > 0
    ensures (p / w) * w <= p < (p / w + 1) * w
  {
    assert p == w * (p / w) + p % w;
  }

  lemma ExactQuotient(m: nat, w: nat)
    requires w > 0
    ensures (m * w) / w == m
  {
    var q := (m * w) / w;
    Quotient(m * w, w);
    if q < m {
      MulLe(q + 1, m, w);
    }
    if m < q {
      MulLe(m + 1, q, w);
    }
  }

  /** Persistent congestion, in numbers that do not wrap: no acknowledgment for more than three probe timeouts. */
  lemma PersistentMeans(c: Cong, lastAckTime: nat)
    requires lastAckTime <= c.time < TWO_64
    requires 3 * (c.srtt + 4 * c.rttvar + KGRANULARITY + c.maxAckDelay) < TWO_32
    ensures Persistent(c, lastAckTime) <==>
            && c.time > lastAckTime + 3 * (c.srtt + 4 * c.rttvar + c.maxAckDelay)
            && c.time > lastAckTime + 3 * (c.srtt + KGRANULARITY + c.maxAckDelay)
  {
  }

  /** The event ends a recovery period that began at `start`. */
  predicate EndsRecovery(c: Cong, e: Event, start: nat)
  {
    (e.AckEvent? && e.sentTime > start) || (e.LossEvent? && Persistent(c, e.lastAckTime))
  }

  lemma EntersRecovery(c: Cong, e: Event)
    requires Inv(c) && Halves(c, e)
    ensures Step(c, e).state == Recovery && Step(c, e).recoveryTime == c.time
  {
    hide Persistent, U32, MinWindow;
  }

  lemma KeepsRecovery(c: Cong, e: Event)
    requires Inv(c) && c.state == Recovery && !EndsRecovery(c, e, c.recoveryTime)
    ensures Step(c, e).state == Recovery && Step(c, e).recoveryTime == c.recoveryTime
    ensures Step(c, e).window >= c.window && (!e.Mss? ==> Step(c, e).window == c.window)
  {
    hide Persistent, U32, MinWindow;
  }

  /** Until then the window is not halved again, and moves only if the path's MTU does. */
  lemma {:induction false} StaysInRecovery(c: Cong, es: seq<Event>, i: nat, m: nat)
    requires Inv(c) && i < m <= |es| && Halves(Run(c, es[..i]), es[i])
    requires forall k :: i < k < m ==> !EndsRecovery(Run(c, es[..k]), es[k], Run(c, es[..i]).time)
    ensures Run(c, es[..m]).state == Recovery && Run(c, es[..m]).recoveryTime == Run(c, es[..i]).time
    ensures Run(c, es[..m]).window >= Run(c, es[..i + 1]).window
    ensures (forall k :: i < k < m ==> !es[k].Mss?) ==> Run(c, es[..m]).window == Run(c, es[..i + 1]).window
    decreases m
  {
    hide Step, Halves, EndsRecovery, Inv;
    assert es[..m][..m - 1] == es[..m - 1] && es[..m][m - 1] == es[m - 1];
    var d, e := Run(c, es[..m - 1]), es[m - 1];
    assert Run(c, es[..m]) == Step(d, e);
    WindowBounds(c, es[..m - 1]);
    if m == i + 1 {
      EntersRecovery(d, e);
    } else {
      StaysInRecovery(c, es, i, m - 1);
      assert !EndsRecovery(d, e, Run(c, es[..i]).time);
      KeepsRecovery(d, e);
    }
  }

  /**
   At most one decrease per round trip: between two halvings of the window a packet sent after the
   first one was acknowledged, or persistent congestion was declared.
   */
  lemma OneDecreasePerRecovery(c: Cong, es: seq<Event>, i: nat, j: nat)
    requires Inv(c) && i < j < |es| && Halves(Run(c, es[..i]), es[i]) && Halves(Run(c, es[..j]), es[j])
    ensures exists k :: i < k < j && EndsRecovery(Run(c, es[..k]), es[k], Run(c, es[..i]).time)
  {
    if forall k :: i < k < j ==> !EndsRecovery(Run(c, es[..k]), es[k], Run(c, es[..i]).time) {
      StaysInRecovery(c, es, i, j);
    }
  }
}
