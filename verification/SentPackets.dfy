/**
 The list of sent packets of modules/net/quic/outqueue.c: its order, what an acknowledgment or a
 loss removes from it, and sums over it.
 */
module SentPackets {

  const KPACKET_THRESHOLD := 3

  /** A frame a packet carried, and how many bytes of data it had then. */
  datatype Copy = Copy(frame: nat, carried: nat)

  /** struct quic_packet_sent. Level 0 is 1-RTT, 1 Initial, 2 Handshake. */
  datatype Sent = Sent(number: int, time: nat, frameLen: nat, level: nat, copies: seq<Copy>)

  /** Initial before Handshake before 1-RTT. */
  function Rank(level: nat): nat
  {
    if level == 0 then 3 else if level == 1 then 1 else 2
  }

  predicate Precedes(p: Sent, q: Sent)
  {
    Rank(p.level) < Rank(q.level) || (p.level == q.level && p.number < q.number && p.time <= q.time)
  }

  /** By level, and within a level by number; a later number was not sent earlier. */
  ghost predicate Ordered(ps: seq<Sent>)
  {
    && (forall i :: 0 <= i < |ps| ==> ps[i].level < 3)
    && forall i, j :: 0 <= i < j < |ps| ==> Precedes(ps[i], ps[j])
  }

  // ---------- sums ----------

  /** The bytes in flight at a level, or at every level when `level` is 3. */
  function Inflight(ps: seq<Sent>, level: nat): nat
  {
    if ps == [] then 0
    else Inflight(ps[..|ps| - 1], level) +
         (if level == 3 || ps[|ps| - 1].level == level then ps[|ps| - 1].frameLen else 0)
  }

  function CopiesOf(cs: seq<Copy>, f: nat): nat
  {
    if cs == [] then 0
    else CopiesOf(cs[..|cs| - 1], f) + (if cs[|cs| - 1].frame == f then 1 else 0)
  }

  /** How many sent records name a frame. */
  function Refs(ps: seq<Sent>, f: nat): nat
  {
    if ps == [] then 0 else Refs(ps[..|ps| - 1], f) + CopiesOf(ps[|ps| - 1].copies, f)
  }

  lemma {:induction false} CopiesConcat(a: seq<Copy>, b: seq<Copy>, f: nat)
    ensures CopiesOf(a + b, f) == CopiesOf(a, f) + CopiesOf(b, f)
  {
    if b == [] {
      assert a + b == a;
    } else {
      assert (a + b)[..|a + b| - 1] == a + b[..|b| - 1];
      CopiesConcat(a, b[..|b| - 1], f);
    }
  }

  lemma CopiesCons(c: Copy, rest: seq<Copy>, f: nat)
    ensures CopiesOf([c] + rest, f) == (if c.frame == f then 1 else 0) + CopiesOf(rest, f)
  {
    CopiesConcat([c], rest, f);
    assert [c][..0] == [];
  }

  lemma {:induction false} CopiesZero(cs: seq<Copy>, f: nat)
    requires forall c :: c in cs ==> c.frame != f
    ensures CopiesOf(cs, f) == 0
  {
    if cs != [] {
      CopiesZero(cs[..|cs| - 1], f);
    }
  }

  lemma {:induction false} InflightConcat(a: seq<Sent>, b: seq<Sent>, level: nat)
    ensures Inflight(a + b, level) == Inflight(a, level) + Inflight(b, level)
  {
    if b == [] {
      assert a + b == a;
    } else {
      assert (a + b)[..|a + b| - 1] == a + b[..|b| - 1];
      InflightConcat(a, b[..|b| - 1], level);
    }
  }

  lemma {:induction false} RefsConcat(a: seq<Sent>, b: seq<Sent>, f: nat)
    ensures Refs(a + b, f) == Refs(a, f) + Refs(b, f)
  {
    if b == [] {
      assert a + b == a;
    } else {
      assert (a + b)[..|a + b| - 1] == a + b[..|b| - 1];
      RefsConcat(a, b[..|b| - 1], f);
    }
  }

  /** A record in the middle of a list. */
  lemma WithRecord(a: seq<Sent>, p: Sent, b: seq<Sent>)
    ensures forall level :: Inflight(a + [p] + b, level) ==
              Inflight(a + b, level) + (if level == 3 || p.level == level then p.frameLen else 0)
    ensures forall f :: Refs(a + [p] + b, f) == Refs(a + b, f) + CopiesOf(p.copies, f)
  {
    forall level
      ensures Inflight(a + [p] + b, level) ==
              Inflight(a + b, level) + (if level == 3 || p.level == level then p.frameLen else 0)
    {
      InflightConcat(a + [p], b, level);
      InflightConcat(a, [p], level);
      InflightConcat(a, b, level);
      assert [p][..0] == [];
    }
    forall f ensures Refs(a + [p] + b, f) == Refs(a + b, f) + CopiesOf(p.copies, f) {
      RefsConcat(a + [p], b, f);
      RefsConcat(a, [p], f);
      RefsConcat(a, b, f);
      assert [p][..0] == [];
    }
  }

  // ---------- what a pass over the whole list would remove ----------

  /** Section 19.3.1 of RFC 9000: a packet of the level in an acknowledged range. */
  predicate Acked(p: Sent, level: nat, largest: int, smallest: int)
  {
    p.level == level && smallest <= p.number <= largest
  }

  /** Where a level's loss detection stands: the largest number acknowledged, the clock and the delay. */
  datatype LossView = LossView(maxAcked: int, now: nat, delay: nat, immediate: bool)

  /** The predicate quic_outq_retransmit_mark codes, after section 6.1 of RFC 9002. */
  predicate Lost(p: Sent, level: nat, v: LossView)
  {
    p.level == level &&
    (v.immediate ||
     (p.number <= v.maxAcked &&
      (p.time + v.delay <= v.now || p.number + KPACKET_THRESHOLD <= v.maxAcked)))
  }

  /** The frames that some copies name. */
  ghost function Names(cs: seq<Copy>): set<nat>
  {
    set c | c in cs :: c.frame
  }

  /** The frames that the lost packets carried. */
  ghost function LostNames(ps: seq<Sent>, level: nat, v: LossView): set<nat>
  {
    set p, c | p in ps && Lost(p, level, v) && c in p.copies :: c.frame
  }

  lemma LostNamesNone(ps: seq<Sent>, level: nat, v: LossView)
    requires ps == []
    ensures LostNames(ps, level, v) == {}
  {
  }

  lemma LostNamesStep(ps: seq<Sent>, j: nat, level: nat, v: LossView)
    requires j < |ps|
    ensures Lost(ps[j], level, v) ==> LostNames(ps[..j + 1], level, v) == LostNames(ps[..j], level, v) + Names(ps[j].copies)
    ensures !Lost(ps[j], level, v) ==> LostNames(ps[..j + 1], level, v) == LostNames(ps[..j], level, v)
  {
    assert ps[..j + 1] == ps[..j] + [ps[j]];
    forall p ensures p in ps[..j + 1] <==> p in ps[..j] || p == ps[j] {
    }
  }

  /** None of the packets from the stopping point on adds a frame. */
  lemma LostNamesEnd(ps: seq<Sent>, j: nat, level: nat, v: LossView)
    requires Ordered(ps) && j <= |ps| && level < 3 && (j < |ps| ==> Stops(ps[j], level, v))
    ensures LostNames(ps[..j], level, v) == LostNames(ps, level, v)
  {
    forall k | j <= k < |ps| ensures !Lost(ps[k], level, v) {
      if j < k {
        assert Precedes(ps[j], ps[k]);
      }
    }
    forall p | p in ps && Lost(p, level, v) ensures p in ps[..j] {
      var k :| 0 <= k < |ps| && ps[k] == p;
      assert ps[..j][k] == p;
    }
  }

  function KeepUnacked(ps: seq<Sent>, level: nat, largest: int, smallest: int): seq<Sent>
  {
    if ps == [] then []
    else
      KeepUnacked(ps[..|ps| - 1], level, largest, smallest) +
      (if Acked(ps[|ps| - 1], level, largest, smallest) then [] else [ps[|ps| - 1]])
  }

  function KeepUnlost(ps: seq<Sent>, level: nat, v: LossView): seq<Sent>
  {
    if ps == [] then []
    else KeepUnlost(ps[..|ps| - 1], level, v) + (if Lost(ps[|ps| - 1], level, v) then [] else [ps[|ps| - 1]])
  }

  lemma {:induction false} KeepUnackedConcat(a: seq<Sent>, b: seq<Sent>, level: nat, largest: int, smallest: int)
    ensures KeepUnacked(a + b, level, largest, smallest)
         == KeepUnacked(a, level, largest, smallest) + KeepUnacked(b, level, largest, smallest)
  {
    if b == [] {
      assert a + b == a;
    } else {
      assert (a + b)[..|a + b| - 1] == a + b[..|b| - 1];
      KeepUnackedConcat(a, b[..|b| - 1], level, largest, smallest);
    }
  }

  lemma {:induction false} KeepUnackedAll(ps: seq<Sent>, level: nat, largest: int, smallest: int)
    requires forall i :: 0 <= i < |ps| ==> !Acked(ps[i], level, largest, smallest)
    ensures KeepUnacked(ps, level, largest, smallest) == ps
  {
    if ps != [] {
      KeepUnackedAll(ps[..|ps| - 1], level, largest, smallest);
      assert ps[..|ps| - 1] + [ps[|ps| - 1]] == ps;
    }
  }

  lemma {:induction false} KeepUnlostConcat(a: seq<Sent>, b: seq<Sent>, level: nat, v: LossView)
    ensures KeepUnlost(a + b, level, v) == KeepUnlost(a, level, v) + KeepUnlost(b, level, v)
  {
    if b == [] {
      assert a + b == a;
    } else {
      assert (a + b)[..|a + b| - 1] == a + b[..|b| - 1];
      KeepUnlostConcat(a, b[..|b| - 1], level, v);
    }
  }

  lemma {:induction false} KeepUnlostAll(ps: seq<Sent>, level: nat, v: LossView)
    requires forall i :: 0 <= i < |ps| ==> !Lost(ps[i], level, v)
    ensures KeepUnlost(ps, level, v) == ps
  {
    if ps != [] {
      KeepUnlostAll(ps[..|ps| - 1], level, v);
      assert ps[..|ps| - 1] + [ps[|ps| - 1]] == ps;
    }
  }

  /** Removing a record keeps the order. */
  lemma OrderedRemove(a: seq<Sent>, p: Sent, b: seq<Sent>)
    requires Ordered(a + [p] + b)
    ensures Ordered(a + b)
  {
    var ps, qs := a + [p] + b, a + b;
    forall i, j | 0 <= i < j < |qs| ensures Precedes(qs[i], qs[j]) {
      assert qs[i] == ps[if i < |a| then i else i + 1];
      assert qs[j] == ps[if j < |a| then j else j + 1];
    }
    forall i | 0 <= i < |qs| ensures qs[i].level < 3 {
      assert qs[i] == ps[if i < |a| then i else i + 1];
    }
  }

  // ---------- early exits ----------

  /** Once the backward scan meets a number below the range, no earlier record is in it. */
  lemma NoneBelow(ps: seq<Sent>, i: nat, level: nat, largest: int, smallest: int)
    requires Ordered(ps) && i < |ps| && ps[i].level == level && ps[i].number < smallest
    ensures KeepUnacked(ps[..i + 1], level, largest, smallest) == ps[..i + 1]
  {
    var front := ps[..i + 1];
    forall j | 0 <= j < |front| ensures !Acked(front[j], level, largest, smallest) {
      if j < i {
        assert Precedes(ps[j], ps[i]);
      }
    }
    KeepUnackedAll(front, level, largest, smallest);
  }

  /** Where the forward scan may stop: a record it does not find lost, or one past the level. */
  predicate Stops(p: Sent, level: nat, v: LossView)
  {
    (level != 0 && p.level == 0) || (p.level == level && !Lost(p, level, v))
  }

  /** Nothing after the stopping point is lost. */
  lemma NoneBeyond(ps: seq<Sent>, i: nat, level: nat, v: LossView)
    requires Ordered(ps) && i < |ps| && level < 3 && Stops(ps[i], level, v)
    ensures KeepUnlost(ps[i..], level, v) == ps[i..]
  {
    var rest := ps[i..];
    forall j | 0 <= j < |rest| ensures !Lost(rest[j], level, v) {
      if j > 0 {
        assert Precedes(ps[i], ps[i + j]);
      }
    }
    KeepUnlostAll(rest, level, v);
  }

  // ---------- the loss timer ----------

  /** The records that still wait to be declared lost by time. */
  predicate Pending(p: Sent, level: nat, v: LossView)
  {
    p.level == level && p.number <= v.maxAcked
  }

  /** `t` is the earliest time at which a remaining record can be declared lost, 0 when there is none. */
  ghost predicate EarliestDeadline(t: nat, ps: seq<Sent>, level: nat, v: LossView)
  {
    && (t == 0 ==> forall i :: 0 <= i < |ps| ==> !Pending(ps[i], level, v))
    && (t != 0 ==>
          && (exists i :: 0 <= i < |ps| && Pending(ps[i], level, v) && t == ps[i].time + v.delay)
          && (forall i :: 0 <= i < |ps| && Pending(ps[i], level, v) ==> t <= ps[i].time + v.delay))
  }

  /** Nothing is lost before a later packet of its level was acknowledged, except when all is given up;
      and what is lost stays lost as time passes and acknowledgments come in. */
  lemma LossIsEarned(p: Sent, level: nat, v: LossView, v': LossView)
    requires Lost(p, level, v) && v.now <= v'.now && v.maxAcked <= v'.maxAcked && v.delay == v'.delay
    requires v.immediate ==> v'.immediate
    ensures p.level == level && (v.immediate || p.number <= v.maxAcked) && Lost(p, level, v')
  {
  }

  /** The third packet after it being acknowledged is enough. */
  lemma OvertakenIsLost(p: Sent, v: LossView)
    requires p.number + 3 <= v.maxAcked
    ensures Lost(p, p.level, v)
  {
  }

  /** The loss timer is never set in vain: when it fires, some packet that is left is lost, and none
      of them is lost by time before. */
  lemma TimerIsExact(ps: seq<Sent>, level: nat, v: LossView, t: nat, v': LossView)
    requires EarliestDeadline(t, ps, level, v) && v' == v.(now := v'.now) && !v.immediate
    requires forall i :: 0 <= i < |ps| ==> !Lost(ps[i], level, v)
    ensures t != 0 && v'.now >= t ==> exists i :: 0 <= i < |ps| && Lost(ps[i], level, v')
    ensures t == 0 || v'.now < t ==> forall i :: 0 <= i < |ps| ==> !Lost(ps[i], level, v')
  {
    if t != 0 && v'.now >= t {
      var i :| 0 <= i < |ps| && Pending(ps[i], level, v) && t == ps[i].time + v.delay;
      assert Lost(ps[i], level, v');
    }
    forall i | 0 <= i < |ps| && (t == 0 || v'.now < t) ensures !Lost(ps[i], level, v') {
      assert !Lost(ps[i], level, v);
    }
  }

  // ---------- inserting ----------

  /** The place quic_outq_packet_sent_tail finds keeps the list ordered, for a packet that is the newest of its level. */
  lemma OrderedInsert(ps: seq<Sent>, p: nat, s: Sent)
    requires Ordered(ps) && p <= |ps| && s.level < 3
    requires forall i :: 0 <= i < p ==> Rank(ps[i].level) <= Rank(s.level)
    requires forall i :: p <= i < |ps| ==> Rank(ps[i].level) > Rank(s.level)
    requires forall i :: 0 <= i < |ps| && ps[i].level == s.level ==> ps[i].number < s.number && ps[i].time <= s.time
    ensures Ordered(ps[..p] + [s] + ps[p..])
  {
    var qs := ps[..p] + [s] + ps[p..];
    forall i | 0 <= i < |qs| ensures qs[i].level < 3 {
    }
    forall i, j | 0 <= i < j < |qs| ensures Precedes(qs[i], qs[j]) {
      if j == p {
        assert qs[i] == ps[i];
      } else if i == p {
        assert qs[j] == ps[j - 1];
      } else {
        assert qs[i] == ps[if i < p then i else i - 1];
        assert qs[j] == ps[if j < p then j else j - 1];
      }
    }
  }

  /** One more record at the front of what has been scanned backwards. */
  lemma KeepStep(ps: seq<Sent>, i: nat, level: nat, largest: int, smallest: int)
    requires i < |ps|
    ensures KeepUnacked(ps[i..], level, largest, smallest) ==
            (if Acked(ps[i], level, largest, smallest) then [] else [ps[i]])
            + KeepUnacked(ps[i + 1..], level, largest, smallest)
  {
    assert ps[i..] == [ps[i]] + ps[i + 1..];
    KeepUnackedConcat([ps[i]], ps[i + 1..], level, largest, smallest);
    assert [ps[i]][..0] == [];
  }

  /** Stopping the backward scan early changes neither what is left nor what is removed. */
  lemma SackedAll(ps: seq<Sent>, i: nat, level: nat, largest: int, smallest: int)
    requires Ordered(ps) && i < |ps| && ps[i].level == level && ps[i].number < smallest
    ensures ps[..i + 1] + KeepUnacked(ps[i + 1..], level, largest, smallest) == KeepUnacked(ps, level, largest, smallest)
    ensures forall k :: 0 <= k <= i ==> !Acked(ps[k], level, largest, smallest)
  {
    NoneBelow(ps, i, level, largest, smallest);
    assert ps[..i + 1] + ps[i + 1..] == ps;
    KeepUnackedConcat(ps[..i + 1], ps[i + 1..], level, largest, smallest);
    forall k | 0 <= k < i ensures !Acked(ps[k], level, largest, smallest) {
      assert Precedes(ps[k], ps[i]);
    }
  }

  /** One of the packets from position `i` on is acknowledged and has the largest number the frame names. */
  ghost predicate LargestAcked(ps: seq<Sent>, i: nat, level: nat, largest: int, smallest: int, ackLargest: int)
  {
    exists k :: i <= k < |ps| && Acked(ps[k], level, largest, smallest) && ps[k].number == ackLargest
  }

  lemma LargestNone(ps: seq<Sent>, level: nat, largest: int, smallest: int, ackLargest: int)
    ensures !LargestAcked(ps, |ps|, level, largest, smallest, ackLargest)
  {
  }

  lemma LargestStep(ps: seq<Sent>, i: nat, level: nat, largest: int, smallest: int, ackLargest: int)
    requires i < |ps|
    ensures LargestAcked(ps, i, level, largest, smallest, ackLargest) <==>
            (Acked(ps[i], level, largest, smallest) && ps[i].number == ackLargest) ||
            LargestAcked(ps, i + 1, level, largest, smallest, ackLargest)
  {
  }

  lemma LargestAll(ps: seq<Sent>, i: nat, level: nat, largest: int, smallest: int, ackLargest: int)
    requires forall k :: 0 <= k < i && k < |ps| ==> !Acked(ps[k], level, largest, smallest)
    ensures LargestAcked(ps, 0, level, largest, smallest, ackLargest) <==>
            LargestAcked(ps, i, level, largest, smallest, ackLargest)
  {
  }

  /** One more record at the back of what has been scanned forwards. */
  lemma UnlostStep(ps: seq<Sent>, j: nat, level: nat, v: LossView)
    requires j < |ps|
    ensures ps[j..] == [ps[j]] + ps[j + 1..]
    ensures KeepUnlost(ps[..j + 1], level, v) ==
            KeepUnlost(ps[..j], level, v) + (if Lost(ps[j], level, v) then [] else [ps[j]])
  {
    assert ps[..j + 1][..j] == ps[..j];
  }

  /** Stopping the forward scan early leaves what a pass over the whole list would leave. */
  lemma MarkedAll(ps: seq<Sent>, j: nat, level: nat, v: LossView)
    requires Ordered(ps) && j <= |ps| && level < 3 && (j < |ps| ==> Stops(ps[j], level, v))
    ensures KeepUnlost(ps[..j], level, v) + ps[j..] == KeepUnlost(ps, level, v)
  {
    assert ps[..j] + ps[j..] == ps;
    KeepUnlostConcat(ps[..j], ps[j..], level, v);
    if j < |ps| {
      NoneBeyond(ps, j, level, v);
    }
  }

  /** The loss time set at the stopping point is the earliest deadline of what remains. */
  lemma DeadlineAtStop(qs: seq<Sent>, i: nat, level: nat, v: LossView, t: nat)
    requires Ordered(qs) && i <= |qs| && level < 3
    requires forall k :: 0 <= k < i ==> qs[k].level != level
    requires i < |qs| ==> Stops(qs[i], level, v)
    requires i < |qs| && Pending(qs[i], level, v) && !v.immediate ==> t == qs[i].time + v.delay && t > 0
    requires i == |qs| || !Pending(qs[i], level, v) ==> t == 0
    ensures EarliestDeadline(t, qs, level, v)
  {
    forall k | 0 <= k < |qs| && Pending(qs[k], level, v)
      ensures t != 0 && t <= qs[k].time + v.delay
    {
      assert i <= k;
      if i < k {
        assert Precedes(qs[i], qs[k]);
      }
    }
  }

  /** The forward scan has passed the first `j` packets and kept those that are not lost, none of
      which is of its level. */
  ghost predicate Scanned(ps: seq<Sent>, kept: seq<Sent>, j: nat, level: nat, v: LossView)
  {
    && j <= |ps| && kept == KeepUnlost(ps[..j], level, v)
    && forall k :: 0 <= k < |kept| ==> kept[k].level != level
  }

  lemma ScanStart(ps: seq<Sent>, level: nat, v: LossView)
    ensures Scanned(ps, [], 0, level, v)
  {
    assert ps[..0] == [];
  }

  /** A packet of another level is kept; a lost one is not. */
  lemma ScanStep(ps: seq<Sent>, kept: seq<Sent>, j: nat, level: nat, v: LossView)
    requires Scanned(ps, kept, j, level, v) && j < |ps|
    ensures ps[j].level != level ==> Scanned(ps, kept + [ps[j]], j + 1, level, v)
    ensures Lost(ps[j], level, v) ==> Scanned(ps, kept, j + 1, level, v)
  {
    UnlostStep(ps, j, level, v);
  }

  /** Where the forward scan stopped, the list is what a pass over all of it would leave. */
  lemma ScanEnd(ps: seq<Sent>, kept: seq<Sent>, j: nat, level: nat, v: LossView, qs: seq<Sent>)
    requires Ordered(ps) && level < 3 && Scanned(ps, kept, j, level, v) && qs == kept + ps[j..]
    requires j < |ps| ==> Stops(ps[j], level, v)
    ensures qs == KeepUnlost(ps, level, v)
    ensures forall k :: 0 <= k < |kept| ==> qs[k].level != level
    ensures |kept| < |qs| ==> Stops(qs[|kept|], level, v)
  {
    MarkedAll(ps, j, level, v);
  }

  /** The list during the forward scan: what is kept so far, the current packet, and the rest. */
  lemma AtCursor(ps: seq<Sent>, kept: seq<Sent>, j: nat)
    requires j < |ps|
    ensures var now := kept + ps[j..];
            && |kept| < |now| && now[|kept|] == ps[j]
            && now[..|kept|] + now[|kept| + 1..] == kept + ps[j + 1..]
            && now == (kept + [ps[j]]) + ps[j + 1..]
  {
    var now := kept + ps[j..];
    assert now[..|kept|] == kept && now[|kept| + 1..] == ps[j + 1..];
    assert ps[j..] == [ps[j]] + ps[j + 1..];
  }

  /** The list during the backward scan: what is still to be scanned, the current packet, and what is kept. */
  lemma AtBackCursor(ps: seq<Sent>, i: nat, kept: seq<Sent>)
    requires i < |ps|
    ensures var now := ps[..i + 1] + kept;
            && i < |now| && now[i] == ps[i]
            && now[..i] + now[i + 1..] == ps[..i] + kept
            && now == ps[..i] + ([ps[i]] + kept)
  {
    var now := ps[..i + 1] + kept;
    assert now[..i] == ps[..i] && now[i + 1..] == kept;
  }

  lemma UnackedNone(level: nat, largest: int, smallest: int)
    ensures KeepUnacked([], level, largest, smallest) == []
  {
  }
}
