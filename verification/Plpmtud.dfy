/**
 Packetization-layer path MTU discovery (section 5.2 of RFC 8899) as modules/net/quic/path.c runs
 it: the probe state machine, what it never does, and that it converges.
 */
module Plpmtud {

  const BASE_PLPMTU := 1200
  const MAX_PLPMTU := 9000
  const MIN_PLPMTU := 512
  const MAX_PROBES := 3
  const BIG_STEP := 32
  const MIN_STEP := 4

  datatype State = Base | Search | Complete | Error

  /** paths->pl: `high` is the smallest size known to fail, 0 when there is none; `number` is the
      packet number of the last probe, 0 when it was answered. */
  datatype Pl = Pl(state: State, pmtu: nat, size: nat, high: nat, count: nat, number: int)

  const RESET := Pl(Base, BASE_PLPMTU, BASE_PLPMTU, 0, 0, 0)

  function Min(a: int, b: int): int { if a < b then a else b }
  function Max(a: int, b: int): int { if a < b then b else a }

  /** A probe was sent; the one before it may have been the last chance of its size. */
  function Send(p: Pl, number: int): Pl
  {
    var p := p.(number := number);
    if p.count < MAX_PROBES then p.(count := p.count + 1)
    else
      var p := p.(count := 1);
      match p.state
      case Base => if p.size == BASE_PLPMTU then p.(state := Error, pmtu := BASE_PLPMTU) else p
      case Search =>
        if p.pmtu == p.size then p.(state := Base, size := BASE_PLPMTU, high := 0, pmtu := BASE_PLPMTU)
        else p.(high := p.size, size := p.pmtu)
      case Complete =>
        if p.pmtu == p.size then p.(state := Base, size := BASE_PLPMTU, pmtu := BASE_PLPMTU) else p
      case Error => p
  }

  /** The last probe was acknowledged. */
  function Recv(p: Pl): Pl
  {
    var p := p.(number := 0, pmtu := p.size, count := 0);
    match p.state
    case Base => p.(state := Search, size := p.size + BIG_STEP)
    case Error => p.(state := Search, size := p.size + BIG_STEP)
    case Search =>
      if p.high == 0 && p.size < MAX_PLPMTU then p.(size := Min(p.size + BIG_STEP, MAX_PLPMTU))
      else
        var high := if p.high == 0 then MAX_PLPMTU else p.high;
        if p.size + MIN_STEP >= high then p.(high := 0, state := Complete, size := p.pmtu)
        else p.(high := high, size := p.size + MIN_STEP)
    case Complete => p.(state := Search, size := Min(p.size + MIN_STEP, MAX_PLPMTU))
  }

  /** An ICMP message reported that `mtu` is the largest size that passes. */
  function TooBig(p: Pl, mtu: nat): Pl
  {
    if mtu < MIN_PLPMTU || mtu >= p.size then p
    else
      match p.state
      case Base => if mtu < BASE_PLPMTU then p.(state := Error, pmtu := BASE_PLPMTU) else p
      case Search =>
        if BASE_PLPMTU <= mtu < p.pmtu then
          p.(state := Base, size := BASE_PLPMTU, count := 0, high := 0, pmtu := BASE_PLPMTU)
        else if mtu > p.pmtu then p.(size := mtu, count := 0)
        else p
      case Complete =>
        if BASE_PLPMTU <= mtu < p.pmtu then
          p.(state := Base, size := BASE_PLPMTU, count := 0, high := 0, pmtu := BASE_PLPMTU)
        else p
      case Error => p
  }

  /** quic_path_pl_confirm */
  predicate Confirms(p: Pl, largest: int, smallest: int)
  {
    p.number != 0 && smallest <= p.number <= largest
  }

  // ---------- the code's own form ----------

  class PathPl {
    var state: State
    var pmtu: nat
    var size: nat
    var high: nat
    var count: nat
    var number: int

    ghost function Abs(): Pl
      reads this
    {
      Pl(state, pmtu, size, high, count, number)
    }

    /** 1200 <= pmtu <= probe size <= 9000, and what each state knows. */
    ghost predicate Valid()
      reads this
    {
      Bounds(Abs())
    }

    /** quic_path_pl_reset */
    constructor ()
      ensures Abs() == RESET && Valid()
    {
      number, high, count, state := 0, 0, 0, Base;
      pmtu, size := BASE_PLPMTU, BASE_PLPMTU;
    }

    /** quic_path_pl_send; the result is the path MTU to fall back to, or 0. */
    method PlSend(n: int) returns (pathmtu: nat)
      modifies this
      ensures Abs() == Send(old(Abs()), n)
      ensures old(Valid()) ==> Valid()
      ensures pathmtu == if state != old(state) then BASE_PLPMTU else 0
    {
      pathmtu := 0;
      number := n;
      if count >= MAX_PROBES {
        count := 0;
        if state == Base {
          if size == BASE_PLPMTU {
            state := Error;
            pmtu := BASE_PLPMTU;
            pathmtu := BASE_PLPMTU;
          }
        } else if state == Search {
          if pmtu == size {
            state := Base;
            size := BASE_PLPMTU;
            high := 0;
            pmtu := BASE_PLPMTU;
            pathmtu := BASE_PLPMTU;
          } else {
            high := size;
            size := pmtu;
          }
        } else if state == Complete {
          if pmtu == size {
            state := Base;
            size := BASE_PLPMTU;
            pmtu := BASE_PLPMTU;
            pathmtu := BASE_PLPMTU;
          }
        }
      }
      count := count + 1;
    }

    /** quic_path_pl_recv; a path MTU is announced when the search completes or an error ends. */
    method PlRecv() returns (pathmtu: nat, raise: bool, complete: bool)
      modifies this
      ensures Abs() == Recv(old(Abs()))
      ensures old(Valid()) ==> Valid()
      ensures complete == (state == Complete) && raise == (old(state) == Search && state == Complete)
      ensures pathmtu == if raise || old(state) == Error then pmtu else 0
    {
      pathmtu, raise := 0, false;
      number := 0;
      pmtu := size;
      count := 0;
      if state == Base {
        state := Search;
        size := size + BIG_STEP;
      } else if state == Error {
        state := Search;
        pmtu := size;
        pathmtu := pmtu;
        size := size + BIG_STEP;
      } else if state == Search {
        if high == 0 {
          if size < MAX_PLPMTU {
            size := Min(size + BIG_STEP, MAX_PLPMTU);
            complete := false;
            return;
          }
          high := MAX_PLPMTU;
        }
        size := size + MIN_STEP;
        if size >= high {
          high := 0;
          state := Complete;
          size := pmtu;
          pathmtu := pmtu;
          raise := true;
        }
      } else if state == Complete {
        state := Search;
        size := Min(size + MIN_STEP, MAX_PLPMTU);
      }
      complete := state == Complete;
    }

    /** quic_path_pl_toobig */
    method PlTooBig(mtu: nat) returns (pathmtu: nat, resetTimer: bool)
      modifies this
      ensures Abs() == TooBig(old(Abs()), mtu)
      ensures old(Valid()) ==> Valid()
      ensures pathmtu == if state != old(state) then BASE_PLPMTU else 0
      ensures resetTimer == (old(state) == Complete && state == Base)
    {
      pathmtu, resetTimer := 0, false;
      if mtu < MIN_PLPMTU || mtu >= size {
        return;
      }
      if state == Base {
        if mtu < BASE_PLPMTU {
          state := Error;
          pmtu := BASE_PLPMTU;
          pathmtu := BASE_PLPMTU;
        }
      } else if state == Search {
        if mtu >= BASE_PLPMTU && mtu < pmtu {
          state := Base;
          size := BASE_PLPMTU;
          count := 0;
          high := 0;
          pmtu := BASE_PLPMTU;
          pathmtu := BASE_PLPMTU;
        } else if mtu > pmtu && mtu < size {
          size := mtu;
          count := 0;
        }
      } else if state == Complete {
        if mtu >= BASE_PLPMTU && mtu < pmtu {
          state := Base;
          size := BASE_PLPMTU;
          count := 0;
          high := 0;
          pmtu := BASE_PLPMTU;
          pathmtu := BASE_PLPMTU;
          resetTimer := true;
        }
      }
    }
  }

  // ---------- safety, whatever happens ----------

  ghost predicate Bounds(p: Pl)
  {
    && BASE_PLPMTU <= p.pmtu <= p.size <= MAX_PLPMTU
    && p.count <= MAX_PROBES
    && (p.state == Base || p.state == Error ==> p.size == BASE_PLPMTU && p.high == 0)
    && (p.state == Complete ==> p.size == p.pmtu && p.high == 0)
    && (p.high != 0 ==> p.size < p.high <= MAX_PLPMTU)
  }

  /** The machine on a path: the size of the probe that carries `p.number`, and the largest probe
      ever acknowledged. */
  datatype Path = Path(p: Pl, sentSize: nat, delivered: nat)

  /** Any number can be used for a probe, any probe can be acknowledged late, and ICMP can say anything. */
  datatype Event = Probe(number: int) | Ack(largest: int, smallest: int) | Icmp(mtu: nat) | NewPath

  function Step(s: Path, e: Event): Path
  {
    match e
    case Probe(n) => Path(Send(s.p, n), s.p.size, s.delivered)
    case Ack(largest, smallest) =>
      if Confirms(s.p, largest, smallest) then Path(Recv(s.p), s.sentSize, Max(s.delivered, s.sentSize)) else s
    case Icmp(mtu) => s.(p := TooBig(s.p, mtu))
    case NewPath => Path(RESET, 0, 0)
  }

  function Run(es: seq<Event>): Path
  {
    if es == [] then Path(RESET, 0, 0) else Step(Run(es[..|es| - 1]), es[|es| - 1])
  }

  ghost predicate Safe(s: Path)
  {
    && Bounds(s.p)
    && (s.p.number != 0 ==> s.p.size <= s.sentSize)
    && s.p.pmtu <= Max(BASE_PLPMTU, s.delivered)
  }

  lemma StepSafe(s: Path, e: Event)
    requires Safe(s)
    ensures Safe(Step(s, e))
  {
  }

  /**
   Over every run, whatever is lost, late or reported: 1200 <= pmtu <= probe size <= 9000, and the
   path MTU in use is never larger than what a probe has proved to pass.
   */
  lemma {:induction false} AlwaysSafe(es: seq<Event>)
    ensures Safe(Run(es))
  {
    if es != [] {
      AlwaysSafe(es[..|es| - 1]);
      StepSafe(Run(es[..|es| - 1]), es[|es| - 1]);
    }
  }

  // ---------- what each event achieves ----------

  /** A probe that is answered puts its size in use, and the search goes on with a larger one unless
      it is complete; it completes only from a search whose next size is known to fail or too large. */
  lemma RecvMeans(p: Pl)
    requires Bounds(p)
    ensures var p' := Recv(p);
            && p'.pmtu == p.size && p'.number == 0 && p'.count == 0
            && (p'.state == Search || p'.state == Complete)
            && (p'.state == Search ==> p'.size > p'.pmtu || p'.pmtu == MAX_PLPMTU)
            && (p'.state == Complete ==>
                  p.state == Search && p.size + MIN_STEP >= if p.high == 0 then MAX_PLPMTU else p.high)
  {
  }

  /**
   An ICMP message never raises anything. Afterwards the MTU in use is no more than reported, or 1200,
   if and only if what was reported is at least 1200 or the MTU in use was 1200 already: during and
   after a search a report below 1200 is ignored.
   */
  lemma TooBigLowers(p: Pl, mtu: nat)
    requires Bounds(p)
    ensures TooBig(p, mtu).pmtu <= p.pmtu && TooBig(p, mtu).size <= p.size
    ensures TooBig(p, mtu).pmtu <= Max(BASE_PLPMTU, mtu) <==> mtu >= BASE_PLPMTU || p.pmtu == BASE_PLPMTU
    ensures TooBig(p, mtu).pmtu < p.pmtu ==> TooBig(p, mtu) == RESET.(number := p.number)
  {
  }

  /** During a search the next probe is what was reported, where that is news: it is no larger than
      reported if and only if the report is not the MTU in use. */
  lemma TooBigSteers(p: Pl, mtu: nat)
    requires Bounds(p) && p.state == Search && BASE_PLPMTU <= mtu < p.size
    ensures TooBig(p, mtu).size <= mtu <==> mtu != p.pmtu
    ensures p.pmtu < mtu ==> TooBig(p, mtu).size == mtu && TooBig(p, mtu).count == 0
  {
  }

  /** Before the base size is confirmed a credible report below it is an error. */
  lemma TooBigAtBase(p: Pl, mtu: nat)
    requires Bounds(p) && p.state == Base
    ensures TooBig(p, mtu).state == Error <==> MIN_PLPMTU <= mtu < BASE_PLPMTU
    ensures TooBig(p, mtu).state != Error ==> TooBig(p, mtu) == p
  {
  }

  /** How many more probes may stay unanswered before the path counts as broken. */
  function Patience(p: Pl): int
  {
    match p.state
    case Error => 0
    case Base => MAX_PROBES - p.count + 1
    case Complete => MAX_PROBES - p.count + 4
    case Search => MAX_PROBES - p.count + if p.size > p.pmtu then 7 else 4
  }

  lemma SendLosesPatience(p: Pl, number: int)
    requires Bounds(p)
    ensures Bounds(Send(p, number)) && Patience(Send(p, number)) == Max(0, Patience(p) - 1)
    ensures 0 <= Patience(p) <= 10 && (Patience(p) == 0 <==> p.state == Error)
    ensures Patience(p) <= 3 ==> p.pmtu == BASE_PLPMTU
  {
  }

  function SendAll(p: Pl, numbers: seq<int>): Pl
  {
    if numbers == [] then p else Send(SendAll(p, numbers[..|numbers| - 1]), numbers[|numbers| - 1])
  }

  /** A path that goes silent is noticed: after at most 7 unanswered probes the MTU is back at 1200,
      and after at most 10 the path is in error. */
  lemma {:induction false} BlackHoleNoticed(p: Pl, numbers: seq<int>)
    requires Bounds(p)
    ensures Bounds(SendAll(p, numbers)) && Patience(SendAll(p, numbers)) == Max(0, Patience(p) - |numbers|)
    ensures |numbers| >= 7 ==> SendAll(p, numbers).pmtu == BASE_PLPMTU
    ensures |numbers| >= 10 ==> SendAll(p, numbers).state == Error
  {
    hide Send, Bounds;
    SendLosesPatience(p, 0);
    if numbers != [] {
      var front := numbers[..|numbers| - 1];
      BlackHoleNoticed(p, front);
      SendLosesPatience(SendAll(p, front), numbers[|numbers| - 1]);
    }
    SendLosesPatience(SendAll(p, numbers), 0);
  }

  // ---------- convergence on a path of fixed MTU ----------

  /** On a path of MTU `m` without ICMP: probes have non-zero numbers, exactly those that fit are
      acknowledged, and one that fits is acknowledged before its retries run out. */
  predicate Fair(s: Path, e: Event, m: nat)
  {
    match e
    case Probe(n) => n != 0 && !(s.p.count == MAX_PROBES && s.p.size <= m)
    case Ack(largest, smallest) => Confirms(s.p, largest, smallest) && s.sentSize <= m
    case Icmp(_) => false
    case NewPath => false
  }

  ghost predicate FairRun(es: seq<Event>, m: nat)
  {
    forall i :: 0 <= i < |es| ==> Fair(Run(es[..i]), es[i], m)
  }

  ghost predicate Converging(s: Path, m: nat)
  {
    && Safe(s)
    && s.p.pmtu <= m
    && s.p.state != Error
    && (s.p.number != 0 && s.sentSize <= m ==> s.p.size <= m)
    && (s.p.number != 0 && s.sentSize <= m ==> s.p.count > 0)
    && (s.p.count >= 2 ==> s.p.number != 0 && s.sentSize == s.p.size)
    && (s.p.state == Search && s.p.high == 0 ==> s.p.size <= s.p.pmtu + BIG_STEP)
    && (s.p.high != 0 ==>
          && m < s.p.high <= s.p.pmtu + BIG_STEP
          && (s.p.size == s.p.pmtu || s.p.size == s.p.pmtu + MIN_STEP))
    && (s.p.state == Complete ==> Min(m, MAX_PLPMTU) - s.p.pmtu <= 3)
  }

  lemma StepConverging(s: Path, e: Event, m: nat)
    requires BASE_PLPMTU <= m && Converging(s, m) && Fair(s, e, m)
    ensures Converging(Step(s, e), m)
  {
  }

  /** Probe outcomes, good or bad, that can still happen before the search completes. */
  function OutcomesLeft(p: Pl): nat
    requires p.pmtu <= p.size <= MAX_PLPMTU && (p.high != 0 ==> p.pmtu < p.high)
  {
    match p.state
    case Complete => 0
    case Base => 262
    case Error => 262
    case Search =>
      if p.high == 0 then (MAX_PLPMTU - p.size + BIG_STEP - 1) / BIG_STEP + 18
      else (p.high - p.pmtu + MIN_STEP - 1) / MIN_STEP * 2 + (if p.size == p.pmtu then 1 else 0)
  }

  /** An outcome is an acknowledgment, or a probe after its size used up its retries. */
  predicate Outcome(s: Path, e: Event)
  {
    e.Ack? || s.p.count == MAX_PROBES
  }

  lemma StepProgress(s: Path, e: Event, m: nat)
    requires BASE_PLPMTU <= m && Converging(s, m) && Fair(s, e, m) && s.p.state != Complete
    requires Converging(Step(s, e), m)
    ensures Outcome(s, e) ==> OutcomesLeft(Step(s, e).p) < OutcomesLeft(s.p)
    ensures !Outcome(s, e) ==> OutcomesLeft(Step(s, e).p) == OutcomesLeft(s.p) && Step(s, e).p.count == s.p.count + 1
  {
  }

  lemma {:induction false} FairConverging(es: seq<Event>, m: nat)
    requires BASE_PLPMTU <= m && FairRun(es, m)
    ensures Converging(Run(es), m)
  {
    if es != [] {
      var front := es[..|es| - 1];
      assert forall i :: 0 <= i < |front| ==> front[..i] == es[..i] && front[i] == es[i];
      FairConverging(front, m);
      assert Fair(Run(es[..|es| - 1]), es[|es| - 1], m);
      StepConverging(Run(front), es[|es| - 1], m);
    }
  }

  /** Where a fair run stands: the path MTU never exceeds the path's, and a completed search is
      within 3 bytes of the best it could find. */
  lemma NeverAboveAndCloseAtEnd(es: seq<Event>, m: nat)
    requires BASE_PLPMTU <= m && FairRun(es, m)
    ensures Run(es).p.pmtu <= m
    ensures Run(es).p.state == Complete ==> 0 <= Min(m, MAX_PLPMTU) - Run(es).p.pmtu <= 3
  {
    FairConverging(es, m);
  }

  /** The run has no completed search after its first `from` steps. */
  ghost predicate Searching(es: seq<Event>, from: nat)
  {
    forall i :: from <= i <= |es| ==> Run(es[..i]).p.state != Complete
  }

  function OutcomesIn(es: seq<Event>, from: nat): nat
    requires from <= |es|
    decreases |es|
  {
    if |es| == from then 0
    else OutcomesIn(es[..|es| - 1], from) + (if Outcome(Run(es[..|es| - 1]), es[|es| - 1]) then 1 else 0)
  }

  const MAX_OUTCOMES := 262
  const MAX_STEPS := MAX_OUTCOMES * 4 + 3

  function StepsLeft(s: Path): int
    requires s.p.pmtu <= s.p.size <= MAX_PLPMTU && (s.p.high != 0 ==> s.p.pmtu < s.p.high)
  {
    4 * OutcomesLeft(s.p) + MAX_PROBES - s.p.count
  }

  lemma {:induction false} SearchBudget(es: seq<Event>, from: nat, m: nat)
    requires BASE_PLPMTU <= m && FairRun(es, m) && from <= |es| && Searching(es, from)
    ensures Converging(Run(es), m) && Converging(Run(es[..from]), m)
    ensures OutcomesLeft(Run(es).p) + OutcomesIn(es, from) <= OutcomesLeft(Run(es[..from]).p)
    ensures StepsLeft(Run(es)) + |es| - from <= StepsLeft(Run(es[..from]))
    decreases |es|
  {
    if |es| == from {
      assert es[..from] == es;
      FairConverging(es, m);
    } else {
      var front, e := es[..|es| - 1], es[|es| - 1];
      assert forall i :: 0 <= i <= |front| ==> front[..i] == es[..i];
      assert FairRun(front, m) by {
        forall i | 0 <= i < |front| ensures Fair(Run(front[..i]), front[i], m) {
          assert Fair(Run(es[..i]), es[i], m);
        }
      }
      SearchBudget(front, from, m);
      FairConverging(es, m);
      assert Fair(Run(es[..|es| - 1]), e, m);
      assert Run(es[..|front|]).p.state != Complete;
      StepProgress(Run(front), e, m);
    }
  }

  lemma OutcomesBounded(s: Path, m: nat)
    requires Converging(s, m)
    ensures OutcomesLeft(s.p) <= MAX_OUTCOMES
  {
  }

  /**
   On a path of any MTU of at least 1200 the search completes: from any point of a fair run, at most
   262 probe outcomes, and 1051 steps in all, happen before the next completion.
   */
  lemma SearchCompletes(es: seq<Event>, from: nat, m: nat)
    requires BASE_PLPMTU <= m && FairRun(es, m) && from <= |es| && Searching(es, from)
    ensures OutcomesIn(es, from) <= MAX_OUTCOMES
    ensures |es| - from <= MAX_STEPS
  {
    SearchBudget(es, from, m);
    OutcomesBounded(Run(es[..from]), m);
  }

  /** The next thing that can happen on a path of MTU `m`: the last probe of a size that passes is
      acknowledged, or another probe is sent. */
  function NextFair(s: Path, m: nat): Event
  {
    if s.p.count == MAX_PROBES && s.p.size <= m then Ack(s.p.number, s.p.number) else Probe(1)
  }

  /** A fair run never gets stuck. */
  lemma AlwaysGoesOn(s: Path, m: nat)
    requires Converging(s, m)
    ensures Fair(s, NextFair(s, m), m)
  {
  }

  lemma FairSnoc(es: seq<Event>, e: Event, m: nat)
    requires FairRun(es, m) && Fair(Run(es), e, m)
    ensures FairRun(es + [e], m) && Run(es + [e]) == Step(Run(es), e)
  {
    var all := es + [e];
    assert all[..|es|] == es;
    forall i | 0 <= i < |all| ensures Fair(Run(all[..i]), all[i], m) {
      if i < |es| {
        assert all[..i] == es[..i];
      }
    }
  }

  /** On the way to completion, with at most `n` steps to go. */
  ghost predicate Within(s: Path, m: nat, n: nat)
  {
    Converging(s, m) && StepsLeft(s) <= n
  }

  lemma StepWithin(s: Path, m: nat, n: nat)
    requires BASE_PLPMTU <= m && Within(s, m, n) && s.p.state != Complete
    ensures n > 0 && Fair(s, NextFair(s, m), m) && Within(Step(s, NextFair(s, m)), m, n - 1)
  {
    hide OutcomesLeft, Step, Fair, NextFair;
    var e := NextFair(s, m);
    AlwaysGoesOn(s, m);
    StepConverging(s, e, m);
    StepProgress(s, e, m);
  }

  /** A fair run with a budget can be completed within it. */
  lemma {:induction false} CompletionReachable(es: seq<Event>, m: nat, n: nat) returns (more: seq<Event>)
    requires BASE_PLPMTU <= m && FairRun(es, m) && Within(Run(es), m, n)
    ensures |more| <= n && FairRun(es + more, m) && Run(es + more).p.state == Complete
    decreases n
  {
    hide FairRun, Within, Step, Fair, NextFair;
    if Run(es).p.state == Complete {
      more := [];
      assert es + more == es;
    } else {
      var e := NextFair(Run(es), m);
      StepWithin(Run(es), m, n);
      FairSnoc(es, e, m);
      var rest := CompletionReachable(es + [e], m, n - 1);
      more := [e] + rest;
      assert es + more == es + [e] + rest;
    }
  }

  /**
   The search does complete: every fair run can go on, no fair run goes on for more than 1051 steps
   without completing, and so each has a fair continuation of at most that length that ends in a
   completed search.
   */
  lemma SearchEnds(es: seq<Event>, m: nat)
    requires BASE_PLPMTU <= m && FairRun(es, m)
    ensures exists more :: |more| <= MAX_STEPS && FairRun(es + more, m) && Run(es + more).p.state == Complete
  {
    hide FairRun;
    FairConverging(es, m);
    OutcomesBounded(Run(es), m);
    var more := CompletionReachable(es, m, MAX_STEPS);
  }
}
