/**
 The received-packet window of modules/net/quic/pnspace.c as a set of packet numbers.

 PnSpace.dfy holds the code's own form, a growing and sliding bitmap, and proves that it
 computes what is defined here. This file states what the window means and proves what every
 run of arrivals keeps.
 */
module RecvWindow {

  const PN_MAP_INITIAL := 64
  const PN_MAP_INCREMENT := PN_MAP_INITIAL
  const PN_MAP_SIZE := 4096
  const PN_MAP_LIMIT := PN_MAP_SIZE * 3 / 4
  const PN_MAP_MAX_GABS := 32

  /** The widest window any run can build; see WindowSpan. */
  const MAX_SPAN := PN_MAP_SIZE + 2 * PN_MAP_LIMIT

  datatype Window = Window(
    base: int, min: int, max: int, lastMax: int,
    maxTime: nat, lastMaxTime: nat, received: set<int>)

  const EMPTY := Window(-1, 0, 0, 0, 0, 0, {})

  /** The least number at or after `from` that is not in `r`, whose elements are at most `hi`. */
  function NextMissing(r: set<int>, from: int, hi: int): (n: int)
    requires forall x :: x in r ==> x <= hi
    ensures from <= n && n !in r
    ensures forall k :: from <= k < n ==> k in r
    ensures from <= hi + 1 ==> n <= hi + 1
    decreases hi + 1 - from
  {
    if from > hi || from !in r then from else NextMissing(r, from + 1, hi)
  }

  lemma NextMissingUnique(r: set<int>, from: int, hi: int, n: int)
    requires forall x :: x in r ==> x <= hi
    requires from <= n && n !in r && forall k :: from <= k < n ==> k in r
    ensures n == NextMissing(r, from, hi)
  {
    var m := NextMissing(r, from, hi);
    assert !(m < n) && !(n < m);
  }

  lemma NextReceivedUnique(r: set<int>, from: int, hi: int, n: int)
    requires from <= hi && hi in r
    requires from <= n && n in r && forall k :: from <= k < n ==> k !in r
    ensures n == NextReceived(r, from, hi)
  {
    var m := NextReceived(r, from, hi);
    assert !(m < n) && !(n < m);
  }

  /** The least number at or after `from` that is in `r`; `hi` is one such. */
  function NextReceived(r: set<int>, from: int, hi: int): (n: int)
    requires from <= hi && hi in r
    ensures from <= n <= hi && n in r
    ensures forall k :: from <= k < n ==> k !in r
    decreases hi - from
  {
    if from in r then from else NextReceived(r, from + 1, hi)
  }

  datatype CheckResult = Fresh | Duplicate | OutOfRange

  /** What quic_pnspace_check means: too old or too far ahead, or whether it was received. */
  function Check(w: Window, pn: int): CheckResult
  {
    if w.base == -1 then Fresh
    else if pn < w.min || pn >= w.base + PN_MAP_SIZE then OutOfRange
    else if pn in w.received then Duplicate
    else Fresh
  }

  /** Record `pn`, which is not below the base, and slide the base past what is contiguous. */
  function Record(w: Window, pn: int, now: nat): Window
    requires Inv(w) && w.base != -1 && w.base <= pn
  {
    var received := w.received + {pn};
    var max := if w.max < pn then pn else w.max;
    w.(received := received,
       max := max,
       maxTime := if w.max < pn then now else w.maxTime,
       base := if w.base == pn then NextMissing(received, pn + 1, max) else w.base)
  }

  /** Whether a new largest number makes the window move on past unreceived numbers. */
  predicate MustAdvance(w: Window, limit: nat)
  {
    var floor := if w.lastMax <= w.base then w.lastMax else w.base;
    w.maxTime >= w.lastMaxTime + limit || w.max > floor + PN_MAP_LIMIT
  }

  /** Give up on everything below the largest number of the previous advance. */
  function Advance(w: Window): Window
    requires forall x :: x in w.received ==> x <= w.max
  {
    w.(base := if w.lastMax + 1 > w.base then NextMissing(w.received, w.lastMax + 1, w.max) else w.base,
       min := w.lastMax,
       lastMax := w.max,
       lastMaxTime := w.maxTime)
  }

  /** What quic_pnspace_mark does to the window. */
  function Mark(w: Window, pn: nat, now: nat, limit: nat): Window
    requires Inv(w)
  {
    if w.base == -1 then Window(pn + 1, pn, pn, pn, now, now, {pn})
    else if pn < w.base then w
    else
      var r := Record(w, pn, now);
      if r.max == pn && MustAdvance(r, limit) then Advance(r) else r
  }

  // ---------- the invariant ----------

  ghost predicate Inv(w: Window)
  {
    if w.base == -1 then w.received == {}
    else
      && 0 <= w.min <= w.lastMax <= w.max
      && w.min < w.base <= w.max + 1
      && w.max < w.base + PN_MAP_SIZE
      && w.base !in w.received
      && w.lastMax in w.received
      && w.max in w.received
      && (forall x :: x in w.received ==> x <= w.max)
      && (forall x :: w.min <= x < w.base ==> x in w.received)
      && w.lastMax - w.min <= PN_MAP_SIZE + PN_MAP_LIMIT
      && w.max - w.lastMax <= PN_MAP_LIMIT
  }

  lemma MarkKeepsInv(w: Window, pn: nat, now: nat, limit: nat)
    requires Inv(w)
    requires w.base == -1 || pn < w.base + PN_MAP_SIZE
    ensures Inv(Mark(w, pn, now, limit))
    ensures w.base <= Mark(w, pn, now, limit).base
    ensures w.base != -1 ==> w.max <= Mark(w, pn, now, limit).max && w.min <= Mark(w, pn, now, limit).min
    ensures w.received <= Mark(w, pn, now, limit).received
  {
    if w.base != -1 && w.base <= pn {
      var r := Record(w, pn, now);
      assert forall x :: w.min <= x < r.base ==> x in r.received;
    }
  }

  // ---------- runs ----------

  /** A packet that arrives: its number, the clock, the advance timeout in force, and whether it
      gets marked (its frames were processed and the bitmap could grow). */
  datatype Packet = Packet(pn: nat, now: nat, limit: nat, marked: bool)

  function Arrive(w: Window, p: Packet): Window
    requires Inv(w)
  {
    if Check(w, p.pn) == Fresh && p.marked then Mark(w, p.pn, p.now, p.limit) else w
  }

  /** The window after any number of arrivals, each marked only after a check that let it pass. */
  function Run(ps: seq<Packet>): (w: Window)
    ensures Inv(w)
  {
    if ps == [] then EMPTY
    else
      var w := Run(ps[..|ps| - 1]);
      var p := ps[|ps| - 1];
      assert Check(w, p.pn) == Fresh ==> w.base == -1 || p.pn < w.base + PN_MAP_SIZE;
      MarkStep(w, p);
      Arrive(w, p)
  }

  lemma MarkStep(w: Window, p: Packet)
    requires Inv(w)
    ensures Inv(Arrive(w, p))
    ensures w.received <= Arrive(w, p).received
    ensures w.base != -1 ==> Arrive(w, p).base != -1 && Arrive(w, p).max >= w.max
  {
    if Check(w, p.pn) == Fresh {
      MarkKeepsInv(w, p.pn, p.now, p.limit);
    }
  }

  /** Every number marked in the run: what the window stands for. */
  function Marked(ps: seq<Packet>): set<int>
  {
    if ps == [] then {}
    else
      var p := ps[|ps| - 1];
      Marked(ps[..|ps| - 1]) +
      (if Check(Run(ps[..|ps| - 1]), p.pn) == Fresh && p.marked then {p.pn} else {})
  }

  /**
   The window refines the set of marked numbers, over every run and through every slide and
   forced advance: inside the tracked range the check answers "already received" exactly for
   the numbers that were marked, and nothing between min and base is missing.
   */
  lemma {:induction false} WindowRefinesSet(ps: seq<Packet>)
    ensures var w := Run(ps);
            && w.received == Marked(ps)
            && (w.base != -1 ==>
                  && (forall pn :: w.min <= pn < w.base + PN_MAP_SIZE ==>
                        (Check(w, pn) == Duplicate <==> pn in Marked(ps)))
                  && (forall pn :: w.min <= pn < w.base ==> pn in Marked(ps)))
  {
    if ps != [] {
      WindowRefinesSet(ps[..|ps| - 1]);
    }
  }

  /** A number once marked is never again reported as new, whatever arrives afterwards. */
  lemma {:induction false} MarkedNeverFresh(ps: seq<Packet>, qs: seq<Packet>, pn: int)
    requires pn in Marked(ps)
    ensures pn in Marked(ps + qs) && Check(Run(ps + qs), pn) != Fresh
    decreases |qs|
  {
    if qs == [] {
      assert ps + qs == ps;
      WindowRefinesSet(ps);
    } else {
      MarkedNeverFresh(ps, qs[..|qs| - 1], pn);
      assert (ps + qs)[..|ps + qs| - 1] == ps + qs[..|qs| - 1];
      WindowRefinesSet(ps + qs);
    }
  }

  /** No run builds a window wider than MAX_SPAN, and it is always narrower than the map above its base. */
  lemma WindowSpan(ps: seq<Packet>)
    ensures var w := Run(ps);
            w.base != -1 ==> w.max - w.min <= MAX_SPAN && w.max - w.base < PN_MAP_SIZE
  {
  }

  // ---------- giving up on gaps ----------

  /** Number `pn` arrived at time `now`, and was marked. */
  ghost predicate ArrivedAt(ps: seq<Packet>, pn: int, now: nat)
  {
    exists i :: 0 <= i < |ps| && ps[i].marked && ps[i].pn == pn && ps[i].now == now
  }

  lemma ArrivedMore(ps: seq<Packet>, pn: int, now: nat)
    requires ps != [] && ArrivedAt(ps[..|ps| - 1], pn, now)
    ensures ArrivedAt(ps, pn, now)
  {
    var i :| 0 <= i < |ps| - 1 && ps[..|ps| - 1][i].marked && ps[..|ps| - 1][i].pn == pn && ps[..|ps| - 1][i].now == now;
    assert ps[i].marked && ps[i].pn == pn && ps[i].now == now;
  }

  /** Over every run the times that the window keeps are those at which its two numbers arrived. */
  lemma {:induction false} TimesOfArrival(ps: seq<Packet>)
    ensures var w := Run(ps);
            w.base != -1 ==> ArrivedAt(ps, w.max, w.maxTime) && ArrivedAt(ps, w.lastMax, w.lastMaxTime)
  {
    if ps != [] {
      hide ArrivedAt;
      var front, p := ps[..|ps| - 1], ps[|ps| - 1];
      var v := Run(front);
      TimesOfArrival(front);
      if v.base != -1 {
        ArrivedMore(ps, v.max, v.maxTime);
        ArrivedMore(ps, v.lastMax, v.lastMaxTime);
      }
      if p.marked {
        ArrivedLast(ps);
      }
    }
  }

  lemma ArrivedLast(ps: seq<Packet>)
    requires ps != [] && ps[|ps| - 1].marked
    ensures ArrivedAt(ps, ps[|ps| - 1].pn, ps[|ps| - 1].now)
  {
  }

  /** A number that is let in and marked as the new largest. */
  predicate NewLargest(w: Window, p: Packet)
  {
    w.base != -1 && p.marked && Check(w, p.pn) == Fresh && p.pn > w.max
  }

  /**
   Gaps are not waited for beyond the timeout: once two numbers in a row were each the largest and
   came at least the timeout after the advance before them, nothing up to the first of them is missing
   any more.
   */
  lemma GapsExpire(w: Window, p: Packet, q: Packet)
    requires Inv(w) && NewLargest(w, p) && p.now >= w.lastMaxTime + p.limit
    requires Inv(Arrive(w, p)) && NewLargest(Arrive(w, p), q) && q.now >= p.now + q.limit
    ensures Arrive(w, p).base > w.lastMax
    ensures Inv(Arrive(Arrive(w, p), q))
    ensures Arrive(Arrive(w, p), q).base > p.pn && Arrive(Arrive(w, p), q).min == p.pn
  {
    MarkStep(w, p);
    MarkStep(Arrive(w, p), q);
  }

  /** And not given up before: a missing number falls below the base only by the timeout, or when the
      largest is more than the limit ahead of the last advance or of the base. */
  lemma GapsAreWaitedFor(w: Window, p: Packet, x: int)
    requires Inv(w) && w.base != -1 && w.base <= x < Arrive(w, p).base && x !in Arrive(w, p).received
    ensures p.pn > w.max
    ensures || p.now >= w.lastMaxTime + p.limit
            || p.pn > w.lastMax + PN_MAP_LIMIT || p.pn > w.base + PN_MAP_LIMIT
  {
  }

  // ---------- no lock-out ----------

  /** No arrival exceeds the largest number marked before it by more than `step`. */
  predicate StepsWithin(ps: seq<Packet>, step: nat)
  {
    forall i :: 0 <= i < |ps| ==>
      Run(ps[..i]).base != -1 ==> ps[i].pn <= Run(ps[..i]).max + step
  }

  /** No arrival beyond the largest number is refused as too far ahead. */
  predicate NoneTooFar(ps: seq<Packet>)
  {
    forall i :: 0 <= i < |ps| ==>
      Run(ps[..i]).base != -1 && ps[i].pn > Run(ps[..i]).max ==> Check(Run(ps[..i]), ps[i].pn) != OutOfRange
  }

  const SAFE_STEP := 512

  lemma FreshIsAboveBase(w: Window, pn: int)
    requires Inv(w) && w.base != -1 && Check(w, pn) == Fresh
    ensures w.base <= pn && pn !in w.received
  {
  }

  /** How far the largest number can be above the base when numbers grow by at most `step`. */
  ghost predicate Reachable(w: Window, step: nat)
  {
    w.base != -1 ==> w.max < w.base + PN_MAP_LIMIT + step
  }

  lemma ArriveKeepsReachable(w: Window, p: Packet, step: nat)
    requires Inv(w) && Reachable(w, step)
    requires w.base != -1 ==> p.pn <= w.max + step
    ensures Reachable(Arrive(w, p), step)
  {
    if Check(w, p.pn) == Fresh && p.marked && w.base != -1 {
      var r := Record(w, p.pn, p.now);
      assert r.lastMax == w.lastMax && r.base >= w.base;
      if r.max == p.pn {
        if MustAdvance(r, p.limit) {
          assert Advance(r).base >= w.lastMax + 1;
          assert r.max <= w.lastMax + PN_MAP_LIMIT + step;
        } else {
          assert r.max <= r.base + PN_MAP_LIMIT;
          assert step > 0 by { FreshIsAboveBase(w, p.pn); }
        }
      }
    }
  }

  lemma {:induction false} RunReachable(ps: seq<Packet>, step: nat)
    requires StepsWithin(ps, step)
    ensures Reachable(Run(ps), step)
  {
    if ps != [] {
      var front := ps[..|ps| - 1];
      forall i | 0 <= i < |front| ensures front[..i] == ps[..i] && front[i] == ps[i] {
      }
      RunReachable(front, step);
      assert Run(ps[..|ps| - 1]) == Run(front);
      ArriveKeepsReachable(Run(front), ps[|ps| - 1], step);
    }
  }

  /**
   If every new largest number exceeds the previous largest by at most 512, none is ever
   refused as too far ahead, on any run, with any loss and any timing.
   */
  lemma NoLockOut(ps: seq<Packet>)
    requires StepsWithin(ps, SAFE_STEP)
    ensures NoneTooFar(ps)
  {
    hide Run;
    forall i | 0 <= i < |ps| && Run(ps[..i]).base != -1 && ps[i].pn > Run(ps[..i]).max
      ensures Check(Run(ps[..i]), ps[i].pn) != OutOfRange
    {
      var front := ps[..i];
      forall j | 0 <= j < i ensures front[..j] == ps[..j] && front[j] == ps[j] {
      }
      RunReachable(front, SAFE_STEP);
    }
  }

  /** The run that a step of 513 locks out: 1 never arrives, and the last number is refused. */
  const LOCKED_OUT: seq<nat> := [0, 513, 1026, 1539, 2052, 2565, 3072, 3585, 4098]

  function AtTimeZero(pns: seq<nat>): seq<Packet>
  {
    seq(|pns|, i requires 0 <= i < |pns| => Packet(pns[i], 0, 1, true))
  }

  /** A window in which 1 is still missing, with the given largest numbers. */
  ghost predicate StuckAtOne(w: Window, max: int, lastMax: int)
  {
    && Inv(w) && w.base == 1 && w.max == max && w.lastMax == lastMax
    && w.maxTime == w.lastMaxTime == 0
  }

  lemma StuckStep(w: Window, max: int, pn: nat)
    requires StuckAtOne(w, max, 0) && max < pn <= PN_MAP_SIZE && 1 < pn
    ensures StuckAtOne(Arrive(w, Packet(pn, 0, 1, true)), pn, if pn > PN_MAP_LIMIT then pn else 0)
  {
    var p := Packet(pn, 0, 1, true);
    MarkStep(w, p);
    hide Arrive, Inv;
    AboveTheGap(w, p);
  }

  /** The next number of the run that is locked out. */
  lemma LockedOutNumbers(i: nat)
    requires 1 <= i < 8
    ensures LOCKED_OUT[i - 1] < LOCKED_OUT[i] <= LOCKED_OUT[i - 1] + 513
    ensures 1 < LOCKED_OUT[i] <= PN_MAP_SIZE && (LOCKED_OUT[i] > PN_MAP_LIMIT <==> i == 7)
  {
  }

  /** Until the last number, the base of that run stays at 1. */
  lemma {:induction false} LockedOutWindows(i: nat)
    requires 1 <= i <= 8
    ensures StuckAtOne(Run(AtTimeZero(LOCKED_OUT)[..i]), LOCKED_OUT[i - 1], if i < 8 then 0 else 3585)
  {
    var ps := AtTimeZero(LOCKED_OUT);
    var w, p := Run(ps[..i - 1]), Packet(LOCKED_OUT[i - 1], 0, 1, true);
    assert ps[..i][..i - 1] == ps[..i - 1] && ps[..i][i - 1] == p;
    if i == 1 {
      assert ps[..0] == [] && Run(ps[..1]) == Window(1, 0, 0, 0, 0, 0, {0});
    } else {
      LockedOutWindows(i - 1);
      LockedOutNumbers(i - 1);
      hide Arrive, StuckAtOne;
      StuckStep(w, LOCKED_OUT[i - 2], LOCKED_OUT[i - 1]);
    }
  }

  /** 512 is exact: from a step of 513 on there is a run with a refused largest number. */
  lemma LockOutBeyond(step: nat)
    requires step > SAFE_STEP
    ensures exists ps :: StepsWithin(ps, step) && !NoneTooFar(ps)
  {
    var ps := AtTimeZero(LOCKED_OUT);
    hide Run, Inv;
    assert StepsWithin(ps, step) by {
      forall i | 0 <= i < |ps| && Run(ps[..i]).base != -1
        ensures ps[i].pn <= Run(ps[..i]).max + step
      {
        if i == 0 {
          assert ps[..0] == [];
          RunOfNothing();
        } else {
          LockedOutWindows(i);
          if i < 8 {
            LockedOutNumbers(i);
          }
        }
      }
    }
    LockedOutWindows(8);
    assert Check(Run(ps[..8]), ps[8].pn) == OutOfRange;
  }

  lemma RunOfNothing()
    ensures Run([]) == EMPTY
  {
  }

  /** A number beyond the largest, with the base still missing and the timer not yet due. */
  lemma AboveTheGap(w: Window, p: Packet)
    requires Inv(w) && w.base != -1 && p.marked
    requires w.max < p.pn && w.base < p.pn < w.base + PN_MAP_SIZE
    requires w.lastMax < w.base && p.now < w.lastMaxTime + p.limit
    ensures Arrive(w, p) ==
            w.(max := p.pn, maxTime := p.now, received := w.received + {p.pn}) ||
            Arrive(w, p) ==
            w.(max := p.pn, maxTime := p.now, received := w.received + {p.pn},
               min := w.lastMax, lastMax := p.pn, lastMaxTime := p.now)
    ensures Arrive(w, p).lastMax == p.pn <==> p.pn > w.lastMax + PN_MAP_LIMIT
  {
    assert Check(w, p.pn) == Fresh;
    var r := Record(w, p.pn, p.now);
    assert r == w.(max := p.pn, maxTime := p.now, received := w.received + {p.pn});
  }
}
