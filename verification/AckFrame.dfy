/**
 ACK frames (section 19.3 of RFC 9000): what quic_pnspace_num_gabs and quic_frame_ack_create
 say about a window, what quic_frame_ack_process understands, and that the two agree.
 */
module AckFrame {
  import opened Wire
  import opened RecvWindow

  /** The unreceived numbers lo, ..., hi - 1, with hi received. */
  datatype Gap = Gap(lo: int, hi: int)

  /** The acknowledged numbers smallest, ..., largest. */
  datatype Range = Range(largest: int, smallest: int)

  const FRAME_ACK := 2
  const FRAME_ACK_ECN := 3

  // ---------- the gaps of a window ----------

  ghost predicate Tracking(w: Window)
  {
    Inv(w) && w.base != -1
  }

  /** The largest number of the window is received and nothing above it is. */
  ghost predicate Topped(w: Window)
  {
    w.max in w.received && forall x :: x in w.received ==> x <= w.max
  }

  /** All gaps at or above `from`, lowest first. */
  function Gaps(w: Window, from: int): (gs: seq<Gap>)
    requires Topped(w) && from <= w.max
    decreases w.max - from
  {
    var lo := NextMissing(w.received, from, w.max);
    if w.max <= lo then []
    else
      var hi := NextReceived(w.received, lo, w.max);
      [Gap(lo, hi)] + Gaps(w, hi)
  }

  /** The first step of Gaps, from what a scan of the window finds. */
  lemma GapsStep(w: Window, from: int, lo: int, hi: int)
    requires Topped(w) && from <= w.max
    requires from <= lo && lo !in w.received && forall k :: from <= k < lo ==> k in w.received
    requires lo < w.max ==> lo <= hi && hi in w.received && forall k :: lo <= k < hi ==> k !in w.received
    ensures lo >= w.max ==> Gaps(w, from) == []
    ensures lo < w.max ==> hi <= w.max && Gaps(w, from) == [Gap(lo, hi)] + Gaps(w, hi)
  {
    NextMissingUnique(w.received, from, w.max, lo);
    if lo < w.max {
      NextReceivedUnique(w.received, lo, w.max, hi);
    }
  }

  ghost predicate InGaps(gs: seq<Gap>, pn: int)
  {
    gs != [] && (gs[|gs| - 1].lo <= pn < gs[|gs| - 1].hi || InGaps(gs[..|gs| - 1], pn))
  }

  /** Non-empty gaps in ascending order with a received number between any two of them, all of
      them strictly above `low` and at most `top`. */
  ghost predicate Spaced(gs: seq<Gap>, low: int, top: int)
  {
    if gs == [] then low <= top
    else
      var g := gs[|gs| - 1];
      g.lo < g.hi <= top && Spaced(gs[..|gs| - 1], low, g.lo - 1)
  }

  lemma {:induction false} SpacedCons(g: Gap, gs: seq<Gap>, low: int, top: int)
    requires low < g.lo < g.hi && Spaced(gs, g.hi, top)
    ensures Spaced([g] + gs, low, top)
  {
    assert ([g] + gs)[..|gs|] == if gs == [] then [] else [g] + gs[..|gs| - 1];
    if gs != [] {
      SpacedCons(g, gs[..|gs| - 1], low, gs[|gs| - 1].lo - 1);
    }
  }

  lemma {:induction false} InGapsCons(g: Gap, gs: seq<Gap>, pn: int)
    ensures InGaps([g] + gs, pn) <==> g.lo <= pn < g.hi || InGaps(gs, pn)
  {
    assert ([g] + gs)[..|gs|] == if gs == [] then [] else [g] + gs[..|gs| - 1];
    if gs != [] {
      InGapsCons(g, gs[..|gs| - 1], pn);
    }
  }

  lemma {:induction false} GapsSpaced(w: Window, from: int, low: int)
    requires Topped(w) && from <= w.max
    requires low < from || (low == from && from in w.received)
    ensures Spaced(Gaps(w, from), low, w.max)
    decreases w.max - from
  {
    var lo := NextMissing(w.received, from, w.max);
    if lo < w.max {
      var hi := NextReceived(w.received, lo, w.max);
      GapsSpaced(w, hi, hi);
      SpacedCons(Gap(lo, hi), Gaps(w, hi), low, w.max);
    }
  }

  /** The gaps of a window are exactly its unreceived numbers. */
  lemma {:induction false} GapsExact(w: Window, from: int, pn: int)
    requires Topped(w) && from <= pn <= w.max
    ensures pn in w.received <==> !InGaps(Gaps(w, from), pn)
    decreases w.max - from
  {
    var lo := NextMissing(w.received, from, w.max);
    if lo < w.max {
      var hi := NextReceived(w.received, lo, w.max);
      InGapsCons(Gap(lo, hi), Gaps(w, hi), pn);
      if hi <= pn {
        GapsExact(w, hi, pn);
      } else {
        GapsSpaced(w, hi, hi);
        OutsideGaps(Gaps(w, hi), hi, w.max, pn);
      }
    }
  }

  lemma {:induction false} OutsideGaps(gs: seq<Gap>, low: int, top: int, pn: int)
    requires Spaced(gs, low, top) && (pn <= low || pn >= top)
    ensures !InGaps(gs, pn)
  {
    if gs != [] {
      SpacedRange(gs, low, top);
      OutsideGaps(gs[..|gs| - 1], low, gs[|gs| - 1].lo - 1, pn);
    }
  }

  lemma {:induction false} SpacedRange(gs: seq<Gap>, low: int, top: int)
    requires Spaced(gs, low, top)
    ensures low <= top
    ensures gs != [] ==> low < gs[|gs| - 1].lo
  {
    if gs != [] {
      SpacedRange(gs[..|gs| - 1], low, gs[|gs| - 1].lo - 1);
    }
  }

  /** The number after a gap was received. */
  lemma {:induction false} GapEndReceived(w: Window, from: int, i: nat)
    requires Topped(w) && from <= w.max && i < |Gaps(w, from)|
    ensures Gaps(w, from)[i].hi in w.received
    decreases w.max - from
  {
    var lo := NextMissing(w.received, from, w.max);
    var hi := NextReceived(w.received, lo, w.max);
    if i > 0 {
      GapEndReceived(w, hi, i - 1);
    }
  }

  // ---------- the gaps that are reported ----------

  /** quic_pnspace_num_gabs: the last of 32 gap blocks swallows everything below the largest number. */
  function Cap(gs: seq<Gap>, top: int): (r: seq<Gap>)
  {
    if |gs| < PN_MAP_MAX_GABS then gs
    else gs[..PN_MAP_MAX_GABS - 1] + [Gap(gs[PN_MAP_MAX_GABS - 1].lo, top)]
  }

  function ReportedGaps(w: Window): (r: seq<Gap>)
    requires Topped(w) && w.base <= w.max + 1
    ensures |r| <= PN_MAP_MAX_GABS
  {
    if w.base == w.max + 1 then [] else Cap(Gaps(w, w.base), w.max)
  }

  /** A prefix of a gap list stays below the gap after it. */
  lemma {:induction false} SpacedPrefix(gs: seq<Gap>, low: int, top: int, n: nat)
    requires Spaced(gs, low, top) && n < |gs|
    ensures Spaced(gs[..n], low, gs[n].lo - 1)
    ensures gs[n].lo < gs[n].hi <= top
    ensures gs[n].hi == top ==> n == |gs| - 1
  {
    var rest := gs[..|gs| - 1];
    if n < |gs| - 1 {
      SpacedPrefix(rest, low, gs[|gs| - 1].lo - 1, n);
      assert rest[..n] == gs[..n];
    }
  }

  lemma ReportedGapsSpaced(w: Window)
    requires Tracking(w)
    ensures Spaced(ReportedGaps(w), w.min, w.max)
  {
    if w.base != w.max + 1 {
      GapsSpaced(w, w.base, w.min);
      var gs := Gaps(w, w.base);
      if |gs| >= PN_MAP_MAX_GABS {
        var n := PN_MAP_MAX_GABS - 1;
        SpacedPrefix(gs, w.min, w.max, n);
        assert ReportedGaps(w)[..n] == gs[..n];
      }
    }
  }

  /** Capping only ever widens the gaps. */
  lemma {:induction false} CapWidens(gs: seq<Gap>, low: int, top: int, pn: int)
    requires Spaced(gs, low, top) && InGaps(gs, pn)
    ensures InGaps(Cap(gs, top), pn)
  {
    var n := PN_MAP_MAX_GABS - 1;
    if |gs| > n {
      var g, rest := gs[|gs| - 1], gs[..|gs| - 1];
      SpacedPrefix(gs, low, top, n);
      var r := Cap(gs, top);
      assert r[..n] == gs[..n];
      if |gs| - 1 > n && !(g.lo <= pn < g.hi) {
        CapWidens(rest, low, g.lo - 1, pn);
        var r' := Cap(rest, g.lo - 1);
        assert rest[..n] == gs[..n] && r'[..n] == r[..n];
      } else if |gs| - 1 > n {
        SpacedPrefix(rest, low, g.lo - 1, n);
      }
    }
  }

  // ---------- the ranges between the gaps ----------

  /** The acknowledged ranges from `top` down to `low`, highest first. */
  function Ranges(gs: seq<Gap>, top: int, low: int): (rs: seq<Range>)
    ensures |rs| == |gs| + 1 && rs[0].largest == top
  {
    if gs == [] then [Range(top, low)]
    else
      var g := gs[|gs| - 1];
      [Range(top, g.hi)] + Ranges(gs[..|gs| - 1], g.lo - 1, low)
  }

  ghost predicate InRange(r: Range, pn: int)
  {
    r.smallest <= pn <= r.largest
  }

  ghost predicate Covered(rs: seq<Range>, pn: int)
  {
    exists i :: 0 <= i < |rs| && InRange(rs[i], pn)
  }

  /** Non-empty ranges, each at least two numbers below the one before it. */
  ghost predicate Descending(rs: seq<Range>)
  {
    && (forall i :: 0 <= i < |rs| ==> rs[i].smallest <= rs[i].largest)
    && (forall i :: 0 <= i < |rs| - 1 ==> rs[i + 1].largest + 1 < rs[i].smallest)
  }

  lemma CoveredCons(r: Range, rs: seq<Range>, pn: int)
    ensures Covered([r] + rs, pn) <==> InRange(r, pn) || Covered(rs, pn)
  {
    var all := [r] + rs;
    if InRange(r, pn) {
      assert InRange(all[0], pn);
    }
    if Covered(rs, pn) {
      var i :| 0 <= i < |rs| && InRange(rs[i], pn);
      assert InRange(all[i + 1], pn);
    }
  }

  lemma {:induction false} RangesDescend(gs: seq<Gap>, top: int, low: int)
    requires Spaced(gs, low, top)
    ensures Descending(Ranges(gs, top, low))
  {
    if gs != [] {
      var g := gs[|gs| - 1];
      RangesDescend(gs[..|gs| - 1], g.lo - 1, low);
    }
  }

  /** The ranges are the complement of the gaps. */
  lemma {:induction false} RangesComplement(gs: seq<Gap>, top: int, low: int, pn: int)
    requires Spaced(gs, low, top)
    ensures Covered(Ranges(gs, top, low), pn) <==> low <= pn <= top && !InGaps(gs, pn)
  {
    if gs == [] {
      CoveredCons(Range(top, low), [], pn);
      assert Ranges(gs, top, low) == [Range(top, low)] + [];
    } else {
      var g, rest := gs[|gs| - 1], gs[..|gs| - 1];
      RangesComplement(rest, g.lo - 1, low, pn);
      CoveredCons(Range(top, g.hi), Ranges(rest, g.lo - 1, low), pn);
      SpacedRange(gs, low, top);
      if pn >= g.lo - 1 {
        OutsideGaps(rest, low, g.lo - 1, pn);
      }
    }
  }

  // ---------- writing ----------

  /** Where the range below the top gap begins. */
  function Below(gs: seq<Gap>, low: int): int
    requires gs != []
  {
    if |gs| == 1 then low else gs[|gs| - 2].hi
  }

  /** The (gap, range length) pairs of the frame, for the gaps from the highest down. */
  function Pairs(gs: seq<Gap>, low: int): seq<(int, int)>
  {
    if gs == [] then []
    else
      var g := gs[|gs| - 1];
      [(g.hi - g.lo - 1, g.lo - 1 - Below(gs, low))] + Pairs(gs[..|gs| - 1], low)
  }

  ghost predicate PairsFit(ps: seq<(int, int)>, limit: int)
  {
    forall i :: 0 <= i < |ps| ==> 0 <= ps[i].0 < limit && 0 <= ps[i].1 < limit
  }

  lemma {:induction false} PairsInBounds(gs: seq<Gap>, low: int, top: int)
    requires Spaced(gs, low, top)
    ensures |Pairs(gs, low)| == |gs|
    ensures gs == [] || PairsFit(Pairs(gs, low), top - low)
  {
    if gs != [] {
      var rest, g := gs[..|gs| - 1], gs[|gs| - 1];
      PairsInBounds(rest, low, g.lo - 1);
      SpacedRange(gs, low, top);
      SpacedRange(rest, low, g.lo - 1);
    }
  }

  /** The bytes of (gap, range length) pairs. */
  function PutPairs(ps: seq<(int, int)>): seq<Byte>
    requires PairsFit(ps, TWO_62)
  {
    if ps == [] then []
    else PutVar(ps[0].0) + PutVar(ps[0].1) + PutPairs(ps[1..])
  }

  /** ECN counts, in the order ECT0, ECT1, ECN-CE. */
  datatype EcnCounts = EcnCounts(ect0: nat, ect1: nat, ce: nat)

  predicate HasEcn(e: EcnCounts)
  {
    e.ect0 != 0 || e.ect1 != 0 || e.ce != 0
  }

  predicate EcnFits(e: EcnCounts)
  {
    e.ect0 < TWO_62 && e.ect1 < TWO_62 && e.ce < TWO_62
  }

  function PutEcn(e: EcnCounts): seq<Byte>
    requires EcnFits(e)
  {
    if HasEcn(e) then PutVar(e.ect0) + PutVar(e.ect1) + PutVar(e.ce) else []
  }

  /** A window whose largest number still is a packet number. */
  ghost predicate Sendable(w: Window)
  {
    Tracking(w) && w.max < TWO_62
  }

  function FirstSmallest(w: Window): (s: int)
    requires Tracking(w)
    ensures w.min <= s <= w.max
  {
    var gs := ReportedGaps(w);
    ReportedGapsSpaced(w);
    SpacedRange(gs, w.min, w.max);
    if gs == [] then w.min else gs[|gs| - 1].hi
  }

  function PutHeader(largest: nat, delay: nat, count: nat, range: nat): seq<Byte>
    requires largest < TWO_62 && delay < TWO_62 && count <= PN_MAP_MAX_GABS && range <= largest
  {
    PutVar(largest) + PutVar(delay) + PutVar(count) + PutVar(range)
  }

  /** The payload of the frame quic_frame_ack_create writes, after the type byte. */
  function AckPayload(w: Window, delay: nat, e: EcnCounts): seq<Byte>
    requires Sendable(w) && delay < TWO_62 && EcnFits(e)
  {
    var gs := ReportedGaps(w);
    ReportedGapsSpaced(w);
    PairsInBounds(gs, w.min, w.max);
    PutHeader(w.max, delay, |gs|, w.max - FirstSmallest(w))
    + PutPairs(Pairs(gs, w.min)) + PutEcn(e)
  }

  function AckType(e: EcnCounts): Byte
  {
    if HasEcn(e) then FRAME_ACK_ECN else FRAME_ACK
  }

  /** The buffer size quic_frame_ack_create allocates. */
  function AckEstimate(w: Window, delay: nat): nat
    requires Tracking(w)
  {
    var n := |ReportedGaps(w)|;
    1 + VarLen(w.max) + VarLen(delay) + VarLen(n) + VarLen(w.max - FirstSmallest(w))
    + VarLen(PN_MAP_SIZE) * 2 * n + 8 * 3
  }

  lemma {:induction false} PutPairsLength(ps: seq<(int, int)>)
    requires PairsFit(ps, VARINT_2BYTE_MAX + 1)
    ensures |PutPairs(ps)| <= 4 * |ps|
  {
    if ps != [] {
      VarRoundTrip(ps[0].0, []);
      VarRoundTrip(ps[0].1, []);
      PutPairsLength(ps[1..]);
    }
  }

  /** The frame never outgrows its allocation, and its length always fits the u16 that stores it. */
  lemma AckFits(w: Window, delay: nat, e: EcnCounts)
    requires Sendable(w) && delay < TWO_62 && EcnFits(e)
    ensures 1 + |AckPayload(w, delay, e)| <= AckEstimate(w, delay) < 0x1_0000
  {
    hide PutVar, Pairs, PutPairs, Gaps, Cap, PutHeader, PutEcn;
    var gs := ReportedGaps(w);
    ReportedGapsSpaced(w);
    PairsInBounds(gs, w.min, w.max);
    PutPairsLength(Pairs(gs, w.min));
    HeaderLength(w.max, delay, |gs|, w.max - FirstSmallest(w));
    EcnLength(e);
  }

  lemma HeaderLength(largest: nat, delay: nat, count: nat, range: nat)
    requires largest < TWO_62 && delay < TWO_62 && count <= PN_MAP_MAX_GABS && range <= largest
    ensures |PutHeader(largest, delay, count, range)| == VarLen(largest) + VarLen(delay) + VarLen(count) + VarLen(range)
  {
    VarRoundTrip(largest, []);
    VarRoundTrip(delay, []);
    VarRoundTrip(count, []);
    VarRoundTrip(range, []);
  }

  lemma EcnLength(e: EcnCounts)
    requires EcnFits(e)
    ensures |PutEcn(e)| <= 8 * 3
  {
    VarRoundTrip(e.ect0, []);
    VarRoundTrip(e.ect1, []);
    VarRoundTrip(e.ce, []);
  }

  // ---------- reading ----------

  /** What is read of the ranges after the first: those handed on before any error. */
  datatype Tail = Tail(ok: bool, sacks: seq<Range>, rest: seq<Byte>)

  function ParseRanges(s: seq<Byte>, count: nat, smallest: nat): (t: Tail)
    decreases count
  {
    if count == 0 then Tail(true, [], s)
    else
      match GetVar(s)
      case None => Tail(false, [], [])
      case Some((gap, s1)) =>
        if gap + 2 > smallest then Tail(false, [], []) else
        match GetVar(s1)
        case None => Tail(false, [], [])
        case Some((range, s2)) =>
          if range > smallest - gap - 2 then Tail(false, [], [])
          else
            var largest := smallest - gap - 2;
            var t := ParseRanges(s2, count - 1, largest - range);
            t.(sacks := [Range(largest, largest - range)] + t.sacks)
  }

  function ParseEcn(s: seq<Byte>): Option<EcnCounts>
  {
    match GetVar(s)
    case None => None
    case Some((ect0, s1)) =>
      match GetVar(s1)
      case None => None
      case Some((ect1, s2)) =>
        match GetVar(s2)
        case None => None
        case Some((ce, _)) => Some(EcnCounts(ect0, ect1, ce))
  }

  /** What quic_frame_ack_process makes of a payload: whether it accepts it, the ranges it hands
      to quic_outq_transmitted_sack in order, the delay, and the ECN counts if it reads any. */
  datatype Parsed = Parsed(ok: bool, sacks: seq<Range>, delay: nat, ecn: Option<EcnCounts>)

  const REJECTED := Parsed(false, [], 0, None)

  /** The four numbers before the further ranges. */
  datatype Header = Header(largest: nat, delay: nat, count: nat, range: nat, rest: seq<Byte>)

  function ParseHeader(s: seq<Byte>): (r: Option<Header>)
    ensures r.Some? ==> r.value.count <= PN_MAP_MAX_GABS && r.value.range <= r.value.largest
  {
    match GetVar(s)
    case None => None
    case Some((largest, s1)) =>
      match GetVar(s1)
      case None => None
      case Some((delay, s2)) =>
        match GetVar(s2)
        case None => None
        case Some((count, s3)) =>
          match GetVar(s3)
          case None => None
          case Some((range, s4)) =>
            if count > PN_MAP_MAX_GABS || range > largest then None
            else Some(Header(largest, delay, count, range, s4))
  }

  function ParseAck(s: seq<Byte>, ecn: bool, nextPn: int): Parsed
  {
    match ParseHeader(s)
    case None => REJECTED
    case Some(h) =>
      if h.largest >= nextPn then REJECTED
      else
        var t := ParseRanges(h.rest, h.count, h.largest - h.range);
        var sacks := [Range(h.largest, h.largest - h.range)] + t.sacks;
        if !t.ok then Parsed(false, sacks, h.delay, None)
        else if !ecn then Parsed(true, sacks, h.delay, None)
        else
          var e := ParseEcn(t.rest);
          Parsed(e.Some?, sacks, h.delay, e)
  }

  /** What one round of the loop reads: a gap and a range length that fit, and the rest. */
  function NextRange(s: seq<Byte>, smallest: nat): (r: Option<(nat, nat, seq<Byte>)>)
    ensures r.Some? ==> r.value.0 + 2 + r.value.1 <= smallest
  {
    match GetVar(s)
    case None => None
    case Some((gap, s1)) =>
      if gap + 2 > smallest then None else
      match GetVar(s1)
      case None => None
      case Some((range, s2)) => if range > smallest - gap - 2 then None else Some((gap, range, s2))
  }

  lemma ParseStep(s: seq<Byte>, count: nat, smallest: nat)
    requires count > 0
    ensures match NextRange(s, smallest)
            case None => ParseRanges(s, count, smallest) == Tail(false, [], [])
            case Some((gap, range, rest)) =>
              var largest := smallest - gap - 2;
              var t := ParseRanges(rest, count - 1, largest - range);
              ParseRanges(s, count, smallest) == t.(sacks := [Range(largest, largest - range)] + t.sacks)
  {
    hide GetVar;
  }

  /** The loop of quic_frame_ack_process: each range is handed on as soon as it is read. */
  method SackRanges(s: seq<Byte>, count: nat, from: nat) returns (ok: bool, sacks: seq<Range>, p: seq<Byte>)
    ensures Tail(ok, sacks, p) == ParseRanges(s, count, from)
  {
    hide GetVar, ParseRanges;
    p, sacks := s, [];
    var smallest := from;
    var i := 0;
    while i < count
      invariant i <= count
      invariant var t := ParseRanges(p, count - i, smallest);
                ParseRanges(s, count, from) == t.(sacks := sacks + t.sacks)
    {
      ParseStep(p, count - i, smallest);
      var v := GetVar(p);
      if v.None? || v.value.0 + 2 > smallest { return false, sacks, []; }
      var gap := v.value.0;
      v := GetVar(v.value.1);
      if v.None? || v.value.0 > smallest - gap - 2 { return false, sacks, []; }
      var range := v.value.0;
      p := v.value.1;
      var largest := smallest - gap - 2;
      smallest := largest - range;
      i := i + 1;
      ghost var t := ParseRanges(p, count - i, smallest);
      assert sacks + ([Range(largest, smallest)] + t.sacks) == sacks + [Range(largest, smallest)] + t.sacks;
      sacks := sacks + [Range(largest, smallest)];
    }
    NoRanges(p, smallest);
    return true, sacks, p;
  }

  /** quic_frame_ack_process */
  method AckProcess(s: seq<Byte>, ecn: bool, nextPn: int) returns (r: Parsed)
    ensures r == ParseAck(s, ecn, nextPn)
  {
    hide GetVar;
    var h := ParseHeader(s);
    if h.None? || h.value.largest >= nextPn { return REJECTED; }
    var smallest: nat := h.value.largest - h.value.range;
    var ok, sacks, p := SackRanges(h.value.rest, h.value.count, smallest);
    sacks := [Range(h.value.largest, smallest)] + sacks;
    if !ok { return Parsed(false, sacks, h.value.delay, None); }
    if !ecn { return Parsed(true, sacks, h.value.delay, None); }
    var e := ParseEcn(p);
    return Parsed(e.Some?, sacks, h.value.delay, e);
  }

  /** Ranges at or below `top`, none of negative numbers, each at least two below the one before. */
  ghost predicate Falling(rs: seq<Range>, top: int)
  {
    && (forall i :: 0 <= i < |rs| ==> 0 <= rs[i].smallest <= rs[i].largest <= top)
    && (forall i, j :: 0 <= i < j < |rs| ==> rs[j].largest <= rs[i].smallest - 2)
  }

  lemma FallingCons(r: Range, rs: seq<Range>, top: int)
    requires 0 <= r.smallest <= r.largest <= top && Falling(rs, r.smallest - 2)
    ensures Falling([r] + rs, top)
  {
  }

  lemma {:induction false} TailFalls(s: seq<Byte>, count: nat, smallest: nat)
    ensures Falling(ParseRanges(s, count, smallest).sacks, smallest - 2)
    decreases count
  {
    hide GetVar, ParseRanges, Falling;
    if count == 0 {
      NoRanges(s, smallest);
      NoneFalls(smallest - 2);
    } else {
      ParseStep(s, count, smallest);
      var n := NextRange(s, smallest);
      if n.None? {
        NoneFalls(smallest - 2);
      } else {
        var largest := smallest - n.value.0 - 2;
        TailFalls(n.value.2, count - 1, largest - n.value.1);
        FallingCons(Range(largest, largest - n.value.1), ParseRanges(n.value.2, count - 1, largest - n.value.1).sacks,
                    smallest - 2);
      }
    }
  }

  lemma NoneFalls(top: int)
    ensures Falling([], top)
  {
  }

  /** Whatever a frame says, no range handed on reaches a number that was not sent, or a negative one,
      and each lies below the one before: the queue is never told of packets that do not exist. */
  lemma SacksWereSent(s: seq<Byte>, ecn: bool, nextPn: int)
    ensures Falling(ParseAck(s, ecn, nextPn).sacks, nextPn - 1)
  {
    hide GetVar, ParseRanges, ParseEcn, ParseHeader, Falling;
    var h := ParseHeader(s);
    if h.None? || h.value.largest >= nextPn {
      NoneFalls(nextPn - 1);
    } else {
      var smallest := h.value.largest - h.value.range;
      TailFalls(h.value.rest, h.value.count, smallest);
      FallingCons(Range(h.value.largest, smallest), ParseRanges(h.value.rest, h.value.count, smallest).sacks, nextPn - 1);
    }
  }

  // ---------- the two sides agree ----------

  /** One gap and range of the frame, read back. */
  lemma RangeRoundTrip(gap: nat, range: nat, after: seq<Byte>, count: nat, smallest: nat)
    requires gap < TWO_62 && range < TWO_62 && gap + 2 + range <= smallest
    ensures var t := ParseRanges(after, count, smallest - gap - 2 - range);
            ParseRanges(PutVar(gap) + (PutVar(range) + after), count + 1, smallest)
            == t.(sacks := [Range(smallest - gap - 2, smallest - gap - 2 - range)] + t.sacks)
  {
    hide GetVar, PutVar;
    VarRoundTrip(gap, PutVar(range) + after);
    VarRoundTrip(range, after);
  }

  /** The top gap of a list is the first pair of the frame. */
  lemma TopPair(gs: seq<Gap>, low: int)
    requires gs != [] && PairsFit(Pairs(gs, low), TWO_62)
    ensures var g, rest := gs[|gs| - 1], gs[..|gs| - 1];
            var below := Below(gs, low);
            && PairsFit(Pairs(rest, low), TWO_62)
            && 0 <= g.hi - g.lo - 1 < TWO_62 && 0 <= g.lo - 1 - below < TWO_62
            && PutPairs(Pairs(gs, low)) == PutVar(g.hi - g.lo - 1) + PutVar(g.lo - 1 - below) + PutPairs(Pairs(rest, low))
  {
    hide PutVar;
    var ps, rs := Pairs(gs, low), Pairs(gs[..|gs| - 1], low);
    assert ps[1..] == rs && 0 <= ps[0].0 < TWO_62 && 0 <= ps[0].1 < TWO_62;
    forall i | 0 <= i < |rs| ensures rs[i] == ps[i + 1] {
    }
  }

  lemma NoPairs(low: int)
    ensures Pairs([], low) == [] && PutPairs([]) == []
  {
  }

  lemma RangesTop(gs: seq<Gap>, top: int, low: int)
    ensures Ranges(gs, top, low) ==
            if gs == [] then [Range(top, low)] + []
            else [Range(top, gs[|gs| - 1].hi)] + Ranges(gs[..|gs| - 1], gs[|gs| - 1].lo - 1, low)
  {
  }

  lemma NoRanges(s: seq<Byte>, smallest: nat)
    ensures ParseRanges(s, 0, smallest) == Tail(true, [], s)
  {
  }

  lemma TopGap(gs: seq<Gap>, low: int, top: int)
    requires gs != [] && Spaced(gs, low, top)
    ensures var g, rest := gs[|gs| - 1], gs[..|gs| - 1];
            && low <= Below(gs, low) < g.lo < g.hi <= top && Spaced(rest, low, g.lo - 1)
            && (rest != [] ==> low < rest[|rest| - 1].lo)
  {
    SpacedRange(gs, low, top);
    SpacedRange(gs[..|gs| - 1], low, gs[|gs| - 1].lo - 1);
  }

  lemma PairsStep(gs: seq<Gap>, low: nat, top: nat, tail: seq<Byte>)
    requires gs != [] && Spaced(gs, low, top) && PairsFit(Pairs(gs, low), TWO_62)
    ensures var g, rest := gs[|gs| - 1], gs[..|gs| - 1];
            && 0 <= Below(gs, low) && PairsFit(Pairs(rest, low), TWO_62)
            && var t := ParseRanges(PutPairs(Pairs(rest, low)) + tail, |rest|, Below(gs, low));
               ParseRanges(PutPairs(Pairs(gs, low)) + tail, |gs|, g.hi)
               == t.(sacks := [Range(g.lo - 1, Below(gs, low))] + t.sacks)
  {
    hide PutVar, PutPairs, Pairs, ParseRanges, Spaced;
    TopGap(gs, low, top);
    TopPair(gs, low);
    var g, rest := gs[|gs| - 1], gs[..|gs| - 1];
    var gap, range := g.hi - g.lo - 1, g.lo - 1 - Below(gs, low);
    var after := PutPairs(Pairs(rest, low)) + tail;
    assert PutPairs(Pairs(gs, low)) + tail == PutVar(gap) + (PutVar(range) + after);
    RangeRoundTrip(gap, range, after, |rest|, g.hi);
  }

  lemma {:induction false} PairsRoundTrip(gs: seq<Gap>, low: nat, top: nat, tail: seq<Byte>)
    requires gs != [] && top < TWO_62 && Spaced(gs, low, top) && low < gs[|gs| - 1].lo
    requires gs[|gs| - 1].hi >= 0 && PairsFit(Pairs(gs, low), TWO_62)
    ensures var g := gs[|gs| - 1];
            ParseRanges(PutPairs(Pairs(gs, low)) + tail, |gs|, g.hi)
            == Tail(true, Ranges(gs[..|gs| - 1], g.lo - 1, low), tail)
  {
    hide PutVar, PutPairs, Pairs, ParseRanges, Spaced, Ranges;
    var g, rest := gs[|gs| - 1], gs[..|gs| - 1];
    TopGap(gs, low, top);
    PairsStep(gs, low, top, tail);
    RangesTop(rest, g.lo - 1, low);
    if rest == [] {
      NoPairs(low);
      NoRanges(tail, low);
      assert PutPairs(Pairs(rest, low)) + tail == tail;
    } else {
      PairsRoundTrip(rest, low, g.lo - 1, tail);
    }
  }

  lemma HeaderRoundTrip(largest: nat, delay: nat, count: nat, range: nat, tail: seq<Byte>)
    requires largest < TWO_62 && delay < TWO_62 && count <= PN_MAP_MAX_GABS && range <= largest
    ensures ParseHeader(PutHeader(largest, delay, count, range) + tail)
            == Some(Header(largest, delay, count, range, tail))
  {
    hide GetVar, PutVar;
    var s3 := PutVar(range) + tail;
    var s2 := PutVar(count) + s3;
    var s1 := PutVar(delay) + s2;
    assert PutHeader(largest, delay, count, range) + tail == PutVar(largest) + s1;
    VarRoundTrip(largest, s1);
    VarRoundTrip(delay, s2);
    VarRoundTrip(count, s3);
    VarRoundTrip(range, tail);
  }

  lemma EcnRoundTrip(e: EcnCounts)
    requires EcnFits(e) && HasEcn(e)
    ensures ParseEcn(PutEcn(e)) == Some(e)
  {
    assert PutEcn(e) == PutVar(e.ect0) + (PutVar(e.ect1) + (PutVar(e.ce) + []));
    VarRoundTrip(e.ect0, PutVar(e.ect1) + (PutVar(e.ce) + []));
    VarRoundTrip(e.ect1, PutVar(e.ce) + []);
    VarRoundTrip(e.ce, []);
  }

  /** The ranges after the first one parse back. */
  lemma ReportRoundTrip(w: Window, tail: seq<Byte>)
    requires Sendable(w)
    ensures var gs := ReportedGaps(w);
            PairsFit(Pairs(gs, w.min), TWO_62) &&
            var t := ParseRanges(PutPairs(Pairs(gs, w.min)) + tail, |gs|, FirstSmallest(w));
            t.ok && t.rest == tail && [Range(w.max, FirstSmallest(w))] + t.sacks == Ranges(gs, w.max, w.min)
  {
    hide GetVar, PutVar;
    var gs := ReportedGaps(w);
    ReportedGapsSpaced(w);
    PairsInBounds(gs, w.min, w.max);
    if gs == [] {
      assert PutPairs(Pairs(gs, w.min)) + tail == tail;
    } else {
      SpacedRange(gs, w.min, w.max);
      PairsRoundTrip(gs, w.min, w.max, tail);
    }
  }

  /**
   The peer that sent the packets accepts the frame, with no guard tripped, and reads the ranges
   between the reported gaps, the delay and the ECN counts.
   */
  lemma AckRoundTrip(w: Window, delay: nat, e: EcnCounts, nextPn: int)
    requires Sendable(w) && delay < TWO_62 && EcnFits(e) && w.max < nextPn
    ensures ParseAck(AckPayload(w, delay, e), AckType(e) == FRAME_ACK_ECN, nextPn)
            == Parsed(true, Ranges(ReportedGaps(w), w.max, w.min), delay,
                      if e == EcnCounts(0, 0, 0) then None else Some(e))
  {
    hide GetVar, PutVar, PutPairs, Pairs, ParseRanges, Ranges, Gaps, Cap, FirstSmallest, Spaced;
    var gs := ReportedGaps(w);
    ReportedGapsSpaced(w);
    PairsInBounds(gs, w.min, w.max);
    var s4 := PutPairs(Pairs(gs, w.min)) + PutEcn(e);
    HeaderRoundTrip(w.max, delay, |gs|, w.max - FirstSmallest(w), s4);
    assert AckPayload(w, delay, e) == PutHeader(w.max, delay, |gs|, w.max - FirstSmallest(w)) + s4;
    ReportRoundTrip(w, PutEcn(e));
    if HasEcn(e) {
      EcnRoundTrip(e);
    }
  }

  /** The gap list was not cut short, or cutting it changed nothing. */
  predicate Complete(w: Window)
    requires Tracking(w)
  {
    w.base == w.max + 1 ||
    var gs := Gaps(w, w.base);
    |gs| < PN_MAP_MAX_GABS || (|gs| == PN_MAP_MAX_GABS && gs[PN_MAP_MAX_GABS - 1].hi == w.max)
  }

  /**
   What the peer learns from the frame, for every window: the ranges descend and are disjoint,
   the first one holds the largest number received, no unreceived number is acknowledged, and
   the ranges are exactly the received numbers of the window if and only if the gap list was
   complete.
   */
  lemma AckSound(w: Window)
    requires Tracking(w)
    ensures var rs := Ranges(ReportedGaps(w), w.max, w.min);
            && Descending(rs)
            && rs[0].largest == w.max
            && (forall pn :: Covered(rs, pn) ==> w.min <= pn <= w.max && pn in w.received)
            && ((forall pn :: w.min <= pn <= w.max && pn in w.received ==> Covered(rs, pn)) <==> Complete(w))
  {
    var r := ReportedGaps(w);
    var rs := Ranges(r, w.max, w.min);
    ReportedGapsSpaced(w);
    RangesDescend(r, w.max, w.min);
    forall pn ensures Covered(rs, pn) ==> w.min <= pn <= w.max && pn in w.received {
      CoveredIsReceived(w, pn);
    }
    if Complete(w) {
      forall pn | w.min <= pn <= w.max && pn in w.received ensures Covered(rs, pn) {
        CompleteCovers(w, pn);
      }
    } else {
      var _ := SkippedReceived(w);
    }
  }

  lemma CoveredIsReceived(w: Window, pn: int)
    requires Tracking(w)
    ensures Covered(Ranges(ReportedGaps(w), w.max, w.min), pn) ==> w.min <= pn <= w.max && pn in w.received
  {
    var r := ReportedGaps(w);
    ReportedGapsSpaced(w);
    RangesComplement(r, w.max, w.min, pn);
    if w.base <= pn <= w.max && !InGaps(r, pn) {
      var gs := Gaps(w, w.base);
      GapsExact(w, w.base, pn);
      GapsSpaced(w, w.base, w.base - 1);
      if InGaps(gs, pn) {
        CapWidens(gs, w.base - 1, w.max, pn);
      }
    }
  }

  lemma CompleteCovers(w: Window, pn: int)
    requires Tracking(w) && Complete(w) && w.min <= pn <= w.max && pn in w.received
    ensures Covered(Ranges(ReportedGaps(w), w.max, w.min), pn)
  {
    var r := ReportedGaps(w);
    ReportedGapsSpaced(w);
    RangesComplement(r, w.max, w.min, pn);
    if w.base != w.max + 1 {
      var gs := Gaps(w, w.base);
      assert r == gs;
      if pn < w.base {
        GapsSpaced(w, w.base, w.base - 1);
        OutsideGaps(gs, w.base - 1, w.max, pn);
      } else {
        GapsExact(w, w.base, pn);
      }
    }
  }

  /** When the list was cut, the number right after the last reported gap's true end is not acknowledged. */
  lemma SkippedReceived(w: Window) returns (pn: int)
    requires Tracking(w) && !Complete(w)
    ensures w.min <= pn <= w.max && pn in w.received
    ensures !Covered(Ranges(ReportedGaps(w), w.max, w.min), pn)
  {
    var gs, r := Gaps(w, w.base), ReportedGaps(w);
    var n := PN_MAP_MAX_GABS - 1;
    pn := gs[n].hi;
    GapsSpaced(w, w.base, w.min);
    SpacedPrefix(gs, w.min, w.max, n);
    SpacedRange(gs[..n], w.min, gs[n].lo - 1);
    GapEndReceived(w, w.base, n);
    ReportedGapsSpaced(w);
    RangesComplement(r, w.max, w.min, pn);
  }

  /**
   From arrivals to the peer's reading, over every run: the frame is accepted, its ranges descend
   from the largest number marked, they name only marked numbers, and they name every marked
   number of the window exactly when the gap list was complete.
   */
  lemma PeerLearnsMarked(ps: seq<Packet>, delay: nat, e: EcnCounts, nextPn: int)
    requires Run(ps).base != -1 && Run(ps).max < TWO_62 && Run(ps).max < nextPn
    requires delay < TWO_62 && EcnFits(e)
    ensures var w := Run(ps);
            var got := ParseAck(AckPayload(w, delay, e), AckType(e) == FRAME_ACK_ECN, nextPn);
            && got.ok && got.delay == delay && got.ecn == (if HasEcn(e) then Some(e) else None)
            && Descending(got.sacks) && got.sacks != [] && got.sacks[0].largest == w.max
            && (forall pn :: Covered(got.sacks, pn) ==> pn in Marked(ps))
            && ((forall pn :: w.min <= pn <= w.max && pn in Marked(ps) ==> Covered(got.sacks, pn)) <==> Complete(w))
  {
    hide ParseAck, AckPayload, Ranges, Gaps, Complete, Descending, Covered, Marked;
    var w := Run(ps);
    WindowRefinesSet(ps);
    AckRoundTrip(w, delay, e, nextPn);
    AckSound(w);
  }
}
