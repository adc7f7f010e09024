/**
 modules/net/quic/pnspace.c and pnspace.h: the bitmap that tracks received packet numbers.

 Each operation is proved to compute, on the bitmap, what RecvWindow.dfy defines on the set of
 marked numbers. Truncations to 16 bits are written out; the proofs show that none loses a bit.
 */
module PnSpace {
  import opened Wire
  import opened RecvWindow
  import opened AckFrame

  const EINVAL := 22
  const ENOMEM := 12

  /** A cast to u16. */
  function U16(x: int): (r: int)
    ensures 0 <= x < 0x1_0000 ==> r == x
  {
    x % 0x1_0000
  }

  /** ALIGN(x, 64): x rounded up to a whole number of longs. */
  function AlignLong(x: nat): (r: nat)
    ensures x <= r < x + 64 && r % 64 == 0
  {
    (x + 63) / 64 * 64
  }

  /** struct quic_gap_ack_block: offsets from the base, both one more than the first and last missing. */
  datatype Gab = Gab(start: int, end: int)

  function ToGab(g: Gap, base: int): Gab
  {
    Gab(g.lo - base + 1, g.hi - base)
  }

  class PnSpace {
    var bits: array<bool>
    var base: int
    var min: int
    var max: int
    var lastMax: int
    var maxTime: nat
    var lastMaxTime: nat
    var time: nat
    var maxTimeLimit: nat
    ghost var received: set<int>

    ghost function Abs(): Window
      reads this
    {
      Window(base, min, max, lastMax, maxTime, lastMaxTime, received)
    }

    /** Bit i of the map says whether base + i was received, and the map reaches past the largest number. */
    ghost predicate Valid()
      reads this, bits
    {
      && Inv(Abs())
      && PN_MAP_INITIAL <= bits.Length <= PN_MAP_SIZE
      && (base == -1 ==> forall i :: 0 <= i < bits.Length ==> !bits[i])
      && (base != -1 ==> max - base < bits.Length && Tracks())
    }

    ghost predicate Tracks()
      reads this, bits
    {
      forall i :: 0 <= i < bits.Length ==> (bits[i] <==> base + i in received)
    }

    /** quic_pnspace_init on a space that has no map yet. */
    constructor (limit: nat)
      ensures Valid() && Abs() == EMPTY && fresh(bits)
      ensures maxTimeLimit == limit
    {
      bits := new bool[PN_MAP_INITIAL](i => false);
      base, min, max, lastMax := -1, 0, 0, 0;
      maxTime, lastMaxTime, time, maxTimeLimit := 0, 0, 0, limit;
      received := {};
    }

    /** find_next_zero_bit */
    method FindNextZero(offset: nat) returns (i: nat)
      requires offset <= bits.Length
      ensures offset <= i <= bits.Length
      ensures forall j :: offset <= j < i ==> bits[j]
      ensures i < bits.Length ==> !bits[i]
    {
      i := offset;
      while i < bits.Length && bits[i]
        invariant offset <= i <= bits.Length
        invariant forall j :: offset <= j < i ==> bits[j]
      {
        i := i + 1;
      }
    }

    /** find_next_bit */
    method FindNextSet(offset: nat) returns (i: nat)
      requires offset <= bits.Length
      ensures offset <= i <= bits.Length
      ensures forall j :: offset <= j < i ==> !bits[j]
      ensures i < bits.Length ==> bits[i]
    {
      i := offset;
      while i < bits.Length && !bits[i]
        invariant offset <= i <= bits.Length
        invariant forall j :: offset <= j < i ==> !bits[j]
      {
        i := i + 1;
      }
    }

    /**
     quic_pnspace_check: 1 exactly for a received number in the tracked range, 0 for one not
     received, -EINVAL outside it.
     */
    method Check(pn: int) returns (r: int)
      requires Valid()
      ensures r == match RecvWindow.Check(Abs(), pn)
                   case Fresh => 0
                   case Duplicate => 1
                   case OutOfRange => -EINVAL
    {
      if base == -1 {
        return 0;
      }
      if pn < min || pn >= base + PN_MAP_SIZE {
        return -EINVAL;
      }
      if pn < base || (pn - base < bits.Length && bits[pn - base]) {
        return 1;
      }
      return 0;
    }

    /** quic_pnspace_grow: a longer map with the same bits; `granted` is kzalloc's answer. */
    method Grow(size: nat, granted: bool) returns (err: int)
      requires Valid() && base != -1 && bits.Length < size
      modifies this`bits
      ensures err == if size > PN_MAP_SIZE then -EINVAL else if !granted then -ENOMEM else 0
      ensures Valid()
      ensures err == 0 ==> fresh(bits) && size <= bits.Length
      ensures err != 0 ==> bits == old(bits)
    {
      if size > PN_MAP_SIZE {
        return -EINVAL;
      }
      var inc := U16(AlignLong(size - bits.Length) + PN_MAP_INCREMENT);
      var len := U16(if bits.Length + inc < PN_MAP_SIZE then bits.Length + inc else PN_MAP_SIZE);
      if !granted {
        return -ENOMEM;
      }
      var offset := U16(max + 1 - base);
      var from := bits;
      var grown := new bool[len](i requires 0 <= i < len reads from =>
        if i < offset && i < from.Length then from[i] else false);
      bits := grown;
      return 0;
    }

    /** quic_pnspace_move: slide the base to the first number after `pn` that was not received. */
    method Move(pn: int)
      requires 0 <= base <= pn + 1 && pn <= max && max - base < bits.Length <= PN_MAP_SIZE
      requires forall x :: x in received ==> x <= max
      requires forall i :: pn - base < i < bits.Length ==> (bits[i] <==> base + i in received)
      modifies this`base, bits
      ensures base == NextMissing(received, pn + 1, max)
      ensures Tracks()
    {
      hide U16, NextMissing;
      var offset := U16(pn + 1 - base);
      offset := FindNextZero(offset);
      forall k | pn + 1 <= k < base + offset ensures k in received {
        assert bits[k - base];
      }
      NextMissingUnique(received, pn + 1, max, base + offset);
      base := base + offset;
      forall i | 0 <= i < bits.Length {
        bits[i] := if i + offset < bits.Length then bits[i + offset] else false;
      }
    }

    /** quic_pnspace_set_base_pn */
    method SetBase(pn: int)
      modifies this
      ensures base == pn && max == lastMax == min == pn - 1
      ensures maxTime == lastMaxTime == time
      ensures unchanged(this`bits, this`time, this`maxTimeLimit, this`received)
    {
      base := pn;
      max := base - 1;
      lastMax := max;
      min := max;
      maxTime := time;
      lastMaxTime := maxTime;
    }

    /**
     quic_pnspace_mark, called for numbers that quic_pnspace_check did not find too far ahead:
     the window becomes the set-based Mark of the old one, or, when the map had to grow and
     could not, nothing changes at all.
     */
    method Mark(pn: nat, granted: bool) returns (err: int)
      requires Valid()
      requires base == -1 || pn < base + PN_MAP_SIZE
      modifies this, bits
      ensures Valid()
      ensures err == if old(base) != -1 && pn - old(base) >= old(bits.Length) && !granted then -ENOMEM else 0
      ensures err == 0 ==> Abs() == RecvWindow.Mark(old(Abs()), pn, time, maxTimeLimit)
      ensures err != 0 ==> Abs() == old(Abs())
      ensures bits == old(bits) || fresh(bits)
      ensures unchanged(this`time, this`maxTimeLimit)
    {
      ghost var w := Abs();
      if base == -1 {
        SetBase(pn + 1);
        received := {pn};
        return 0;
      }
      if pn < base {
        return 0;
      }
      MarkKeepsInv(w, pn, time, maxTimeLimit);
      var gap := U16(pn - base);
      if gap >= bits.Length {
        err := Grow(gap + 1, granted);
        if err != 0 {
          return err;
        }
      }
      Note(pn, gap);
      if max == pn {
        AdvanceIfDue();
      }
      return 0;
    }

    /** The end of quic_pnspace_mark, for a number that is the largest. */
    method AdvanceIfDue()
      requires base >= 0 && lastMax <= max && max - base < bits.Length <= PN_MAP_SIZE && Tracks()
      requires forall x :: x in received ==> x <= max
      modifies this, bits
      ensures Abs() == if MustAdvance(old(Abs()), maxTimeLimit) then Advance(old(Abs())) else old(Abs())
      ensures Tracks()
      ensures unchanged(this`time, this`maxTimeLimit, this`bits)
    {
      var floor := if lastMax <= base then lastMax else base;
      if maxTime < lastMaxTime + maxTimeLimit && max <= floor + PN_MAP_LIMIT {
        return;
      }
      if lastMax + 1 > base {
        Move(lastMax);
      }
      min := lastMax;
      lastMax := max;
      lastMaxTime := maxTime;
    }

    /** The middle of quic_pnspace_mark: the new largest number, and the bit or the base. */
    method Note(pn: nat, gap: nat)
      requires Valid() && base != -1 && base <= pn && gap == pn - base < bits.Length
      modifies this, bits
      ensures Abs() == Record(old(Abs()), pn, time)
      ensures max - base < bits.Length && Tracks()
      ensures unchanged(this`time, this`maxTimeLimit, this`bits)
    {
      received := received + {pn};
      if max < pn {
        max := pn;
        maxTime := time;
      }
      if base == pn {
        if HasGap() {
          Move(pn);
        } else {
          // The fast path base++ is never taken: a number at the base is at most max.
          assert false;
        }
      } else {
        bits[gap] := true;
      }
    }

    /** quic_pnspace_has_gap */
    predicate HasGap()
      reads this
    {
      base != max + 1
    }

    /** quic_pnspace_next_gap_ack */
    method NextGapAck(iter: int) returns (found: bool, start: int, end: int, next: int)
      requires 0 <= base <= iter <= max && max - base < bits.Length <= PN_MAP_SIZE && Tracks()
      requires Topped(Abs())
      ensures var gs := Gaps(Abs(), iter);
              && found == (gs != [])
              && (found ==>
                    && Gab(start, end) == ToGab(gs[0], base)
                    && next == gs[0].hi && base <= next <= max
                    && Gaps(Abs(), next) == gs[1..])
    {
      hide Gaps;
      start, end, next := 0, 0, iter;
      var offset := U16(iter - base);
      var start_ := FindNextZero(offset);
      forall k | iter <= k < base + start_ ensures k in received {
        assert bits[k - base];
      }
      if max <= base + start_ {
        GapsStep(Abs(), iter, base + start_, 0);
        return false, start, end, next;
      }
      var end_ := FindNextSet(start_);
      assert bits[max - base];
      forall k | base + start_ <= k < base + end_ ensures k !in received {
        assert !bits[k - base];
      }
      if max <= base + end_ - 1 {
        // The bit of the largest number is set, so the scan stops there at the latest.
        assert false;
      }
      GapsStep(Abs(), iter, base + start_, base + end_);
      return true, U16(start_ + 1), U16(end_), base + U16(end_);
    }

    /** quic_pnspace_num_gabs: the first gaps of the window, the 32nd widened up to the largest number. */
    method NumGabs(gabs: array<Gab>) returns (n: nat)
      requires 0 <= base <= max + 1 && max - base < bits.Length <= PN_MAP_SIZE && Tracks()
      requires Topped(Abs()) && gabs.Length == PN_MAP_MAX_GABS
      modifies gabs
      ensures n == |ReportedGaps(Abs())|
      ensures forall i :: 0 <= i < n ==> gabs[i] == ToGab(ReportedGaps(Abs())[i], base)
    {
      hide Gaps;
      n := 0;
      if !HasGap() {
        return;
      }
      ghost var w := Abs();
      ghost var all := Gaps(w, base);
      var iter := base;
      var found, start, end, next := NextGapAck(iter);
      while found
        invariant n < PN_MAP_MAX_GABS && n <= |all| && base <= iter <= max
        invariant all[n..] == Gaps(w, iter)
        invariant found == (Gaps(w, iter) != [])
        invariant found ==> Gab(start, end) == ToGab(Gaps(w, iter)[0], base)
        invariant found ==> base <= next <= max && Gaps(w, next) == Gaps(w, iter)[1..]
        invariant forall i :: 0 <= i < n ==> gabs[i] == ToGab(all[i], base)
        decreases |all| - n
      {
        assert all[n] == Gaps(w, iter)[0];
        if n == PN_MAP_MAX_GABS - 1 {
          gabs[n] := Gab(start, U16(max - base));
          n := n + 1;
          return;
        }
        gabs[n] := Gab(start, end);
        n := n + 1;
        assert all[n..] == all[n - 1..][1..];
        iter := next;
        found, start, end, next := NextGapAck(iter);
      }
    }

    /** The part of quic_frame_ack_create that writes the gaps and ranges, highest first. */
    method PutRanges(gabs: array<Gab>, n: nat, p: Buffer, ghost gs: seq<Gap>)
      requires 0 < n <= gabs.Length && |gs| == n && 0 <= min && max < TWO_62
      requires forall i :: 0 <= i < n ==> gabs[i] == ToGab(gs[i], base)
      requires PairsFit(Pairs(gs, min), TWO_62)
      requires p.Valid() && p.pos + |PutPairs(Pairs(gs, min))| <= p.data.Length
      modifies p`pos, p.data
      ensures p.Valid() && p.Written() == old(p.Written()) + PutPairs(Pairs(gs, min))
    {
      hide PutVar, Buffer.Written, Pairs, PutPairs;
      ghost var full := p.Written() + PutPairs(Pairs(gs, min));
      var i := n - 1;
      assert gs[..i + 1] == gs;
      while i > 0
        invariant 0 <= i < n && p.Valid()
        invariant PairsFit(Pairs(gs[..i + 1], min), TWO_62)
        invariant p.Written() + PutPairs(Pairs(gs[..i + 1], min)) == full
      {
        TopPair(gs[..i + 1], min);
        assert gs[..i + 1][..i] == gs[..i];
        p.AppendVar(gabs[i].end - gabs[i].start);
        p.AppendVar(gabs[i].start - gabs[i - 1].end - 2);
        i := i - 1;
      }
      TopPair(gs[..1], min);
      NoPairs(min);
      assert gs[..1][..0] == [];
      p.AppendVar(gabs[0].end - gabs[0].start);
      var largest := gabs[0].start - 1 + base - 1;
      p.AppendVar(largest - min);
    }

    /** The four numbers after the type. */
    method PutHeaderVars(p: Buffer, largest: nat, delay: nat, n: nat, range: nat)
      requires largest < TWO_62 && delay < TWO_62 && n <= PN_MAP_MAX_GABS && range <= largest
      requires p.Valid() && p.pos + |PutHeader(largest, delay, n, range)| <= p.data.Length
      modifies p`pos, p.data
      ensures p.Valid() && p.Written() == old(p.Written()) + PutHeader(largest, delay, n, range)
    {
      hide PutVar, Buffer.Written;
      p.AppendVar(largest);
      p.AppendVar(delay);
      p.AppendVar(n);
      p.AppendVar(range);
    }

    method PutEcnVars(p: Buffer, e: EcnCounts)
      requires EcnFits(e) && p.Valid() && p.pos + |PutEcn(e)| <= p.data.Length
      modifies p`pos, p.data
      ensures p.Valid() && p.Written() == old(p.Written()) + PutEcn(e)
    {
      hide PutVar, Buffer.Written;
      if HasEcn(e) {
        p.AppendVar(e.ect0);
        p.AppendVar(e.ect1);
        p.AppendVar(e.ce);
      }
    }

    /** The writes of quic_frame_ack_create, in order. */
    method PutAck(p: Buffer, gabs: array<Gab>, n: nat, range: nat, delay: nat, e: EcnCounts, ghost gs: seq<Gap>)
      requires n <= PN_MAP_MAX_GABS <= gabs.Length && |gs| == n && 0 <= min && 0 <= max < TWO_62
      requires range <= max && delay < TWO_62 && EcnFits(e)
      requires forall i :: 0 <= i < n ==> gabs[i] == ToGab(gs[i], base)
      requires PairsFit(Pairs(gs, min), TWO_62)
      requires p.Valid() && p.Written() == []
      requires 1 + |PutHeader(max, delay, n, range) + PutPairs(Pairs(gs, min)) + PutEcn(e)| <= p.data.Length
      modifies p`pos, p.data
      ensures p.Valid()
      ensures p.Written() == [AckType(e)] + (PutHeader(max, delay, n, range) + PutPairs(Pairs(gs, min)) + PutEcn(e))
    {
      hide PutVar, Pairs, PutPairs, PutHeader, PutEcn, Buffer.Written;
      TypeByte(AckType(e));
      p.AppendVar(AckType(e));
      PutHeaderVars(p, max, delay, n, range);
      NoPairs(min);
      if n != 0 {
        PutRanges(gabs, n, p, gs);
      }
      PutEcnVars(p, e);
    }

    /**
     quic_frame_ack_create: into a buffer of the estimated size it writes, without ever passing
     its end, the type and the payload that AckFrame.dfy defines for this window.
     */
    method AckCreate(delay: nat, e: EcnCounts) returns (p: Buffer)
      requires Valid() && Sendable(Abs()) && delay < TWO_62 && EcnFits(e)
      ensures fresh(p) && p.Valid() && p.data.Length == AckEstimate(Abs(), delay)
      ensures p.Written() == [AckType(e)] + AckPayload(Abs(), delay, e)
    {
      hide PutVar, Gaps, Cap, Spaced, Pairs, PutPairs, PutHeader, PutEcn, Buffer.Written;
      ghost var w := Abs();
      ghost var gs := ReportedGaps(w);
      ReportedGapsSpaced(w);
      PairsInBounds(gs, w.min, w.max);
      NoPairs(w.min);
      AckFits(w, delay, e);
      var gabs := new Gab[PN_MAP_MAX_GABS](i => Gab(0, 0));
      var n := NumGabs(gabs);
      var largest, smallest := max, min;
      if n != 0 {
        smallest := base + gabs[n - 1].end;
      }
      assert smallest == FirstSmallest(w);
      var range := largest - smallest;
      p := new Buffer(1 + VarLen(largest) + VarLen(delay) + VarLen(n) + VarLen(range)
                      + VarLen(PN_MAP_SIZE) * 2 * n + 8 * 3);
      PutAck(p, gabs, n, range, delay, e, gs);
    }

    static lemma TypeByte(t: Byte)
      requires t <= VARINT_1BYTE_MAX
      ensures PutVar(t) == [t]
    {
    }
  }
}
