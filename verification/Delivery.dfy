/**
 From the arrival of packets at one end to the list of sent packets at the other: what
 quic_frame_ack_process does with the frame that quic_frame_ack_create made.
 */
module Delivery {
  import opened Wire
  import opened RecvWindow
  import opened AckFrame
  import opened SentPackets
  import opened Ownership
  import O = Outqueue

  /** The sent packets after each range of a frame was handed to quic_outq_transmitted_sack. */
  function SackAll(ps: seq<Sent>, level: nat, rs: seq<Range>): seq<Sent>
  {
    if rs == [] then ps
    else KeepUnacked(SackAll(ps, level, rs[..|rs| - 1]), level, rs[|rs| - 1].largest, rs[|rs| - 1].smallest)
  }

  lemma {:induction false} KeptByRange(ps: seq<Sent>, level: nat, largest: int, smallest: int, p: Sent)
    ensures p in KeepUnacked(ps, level, largest, smallest) <==> p in ps && !Acked(p, level, largest, smallest)
  {
    if ps != [] {
      KeptByRange(ps[..|ps| - 1], level, largest, smallest, p);
      assert p in ps <==> p in ps[..|ps| - 1] || p == ps[|ps| - 1];
    }
  }

  /** A packet stays exactly when none of the ranges of its level covers it. */
  lemma {:induction false} KeptByFrame(ps: seq<Sent>, level: nat, rs: seq<Range>, p: Sent)
    ensures p in SackAll(ps, level, rs) <==> p in ps && !(p.level == level && Covered(rs, p.number))
  {
    hide KeepUnacked, Covered;
    if rs == [] {
      NothingCovered(p.number);
    } else {
      var front, r := rs[..|rs| - 1], rs[|rs| - 1];
      KeptByFrame(ps, level, front, p);
      KeptByRange(SackAll(ps, level, front), level, r.largest, r.smallest, p);
      CoveredSnoc(front, r, p.number);
      assert rs == front + [r];
    }
  }

  lemma NothingCovered(pn: int)
    ensures !Covered([], pn)
  {
  }

  lemma CoveredSnoc(rs: seq<Range>, r: Range, pn: int)
    ensures Covered(rs + [r], pn) <==> Covered(rs, pn) || InRange(r, pn)
  {
    var all := rs + [r];
    if InRange(r, pn) {
      assert InRange(all[|rs|], pn);
    }
    if Covered(rs, pn) {
      var i :| 0 <= i < |rs| && InRange(rs[i], pn);
      assert InRange(all[i], pn);
    }
  }

  /**
   End to end, for every run of arrivals and every list of sent packets: an ACK frame retires no
   packet that was not delivered and marked, none of another level, and, when the gap list was
   complete, every packet that the window still covers.
   */
  lemma AckRetiresDelivered(arrivals: seq<Packet>, delay: nat, e: EcnCounts, nextPn: int,
                            sent: seq<Sent>, level: nat, p: Sent)
    requires Run(arrivals).base != -1 && Run(arrivals).max < TWO_62 && Run(arrivals).max < nextPn
    requires delay < TWO_62 && EcnFits(e) && p in sent
    ensures var w := Run(arrivals);
            var got := ParseAck(AckPayload(w, delay, e), AckType(e) == FRAME_ACK_ECN, nextPn);
            var left := SackAll(sent, level, got.sacks);
            && (p !in left ==> p.level == level && p.number in Marked(arrivals))
            && (Complete(w) && p.level == level && p.number in Marked(arrivals) && w.min <= p.number ==> p !in left)
  {
    hide ParseAck, AckPayload, Covered, Descending, Marked, Complete, SackAll;
    var w := Run(arrivals);
    PeerLearnsMarked(arrivals, delay, e, nextPn);
    WindowRefinesSet(arrivals);
    var got := ParseAck(AckPayload(w, delay, e), AckType(e) == FRAME_ACK_ECN, nextPn);
    KeptByFrame(sent, level, got.sacks, p);
  }

  // ---------- the frames ----------

  /** Every frame that changed was acknowledged by a packet of the level that the ranges cover, and
      that carried all its data. */
  ghost predicate EarnedByRanges(fs: seq<Frame>, gs: seq<Frame>, ps: seq<Sent>, level: nat, rs: seq<Range>)
  {
    |fs| == |gs| && forall k :: 0 <= k < |fs| ==>
      gs[k].ack == fs[k].ack ||
      exists p :: p in ps && p.level == level && Covered(rs, p.number) && NamedBy(p, gs[k], k)
  }

  lemma EarnedMore(fs: seq<Frame>, gs: seq<Frame>, hs: seq<Frame>, ps: seq<Sent>, level: nat, rs: seq<Range>, r: Range)
    requires EarnedByRanges(fs, gs, ps, level, rs) && Evolves(gs, hs)
    requires EarnedIn(gs, hs, SackAll(ps, level, rs), level, r.largest, r.smallest)
    ensures EarnedByRanges(fs, hs, ps, level, rs + [r])
  {
    hide SackAll, Covered;
    forall k | 0 <= k < |fs| && hs[k].ack != fs[k].ack
      ensures exists p :: p in ps && p.level == level && Covered(rs + [r], p.number) && NamedBy(p, hs[k], k)
    {
      var p: Sent;
      if hs[k].ack == gs[k].ack {
        p :| p in ps && p.level == level && Covered(rs, p.number) && NamedBy(p, gs[k], k);
      } else {
        p :| p in SackAll(ps, level, rs) && Acked(p, level, r.largest, r.smallest) && NamedBy(p, hs[k], k);
        KeptByFrame(ps, level, rs, p);
      }
      CoveredSnoc(rs, r, p.number);
      assert NamedBy(p, hs[k], k);
    }
  }

  /** A packet of the level with this number is in flight. */
  ghost predicate InFlight(ps: seq<Sent>, level: nat, number: int)
  {
    exists i :: 0 <= i < |ps| && ps[i].level == level && ps[i].number == number
  }

  /** The largest acknowledged number moves with the first range of a frame only. */
  lemma LargestOfFrame(ps: seq<Sent>, level: nat, r: Range)
    requires r.smallest <= r.largest
    ensures LargestAcked(ps, 0, level, r.largest, r.smallest, r.largest) <==> InFlight(ps, level, r.largest)
    ensures (forall i :: 0 <= i < |ps| ==> ps[i].number >= 0) ==> !LargestAcked(ps, 0, level, r.largest, r.smallest, -1)
  {
    if InFlight(ps, level, r.largest) {
      var i :| 0 <= i < |ps| && ps[i].level == level && ps[i].number == r.largest;
      assert Acked(ps[i], level, r.largest, r.smallest);
    }
  }

  /**
   quic_frame_ack_process on the sending side: each range that is read is handed to the queue. What
   is left of the sent packets, and who earned each acknowledgment, is as the ranges say; the
   largest acknowledged number follows the largest one that the frame names.
   */
  method ProcessAck(o: O.Outqueue, level: nat, s: seq<Byte>, ecn: bool) returns (r: Parsed)
    requires o.Valid() && level < 3
    modifies o`frames, o`streams, o`sent, o`wmem, o`inflight, o`spaceInflight, o`maxAcked
    ensures o.Valid() && r == ParseAck(s, ecn, o.nextPn[level])
    ensures o.sent == SackAll(old(o.sent), level, r.sacks)
    ensures Evolves(old(o.frames), o.frames) && StreamsEvolve(old(o.streams), o.streams)
    ensures EarnedByRanges(old(o.frames), o.frames, old(o.sent), level, r.sacks)
    ensures o.maxAcked == if r.sacks != [] && InFlight(old(o.sent), level, r.sacks[0].largest) &&
                             old(o.maxAcked)[level] < r.sacks[0].largest
                          then old(o.maxAcked)[level := r.sacks[0].largest] else old(o.maxAcked)
  {
    hide ParseAck, SackAll, Evolves, StreamsEvolve, EarnedByRanges, EarnedIn, KeepUnacked, Ordered, Owned, StreamsOk,
      Inflight, Sum, Falling, LargestAcked, InFlight;
    r := AckProcess(s, ecn, o.nextPn[level]);
    SacksWereSent(s, ecn, o.nextPn[level]);
    ghost var after' := if r.sacks != [] && InFlight(o.sent, level, r.sacks[0].largest) &&
                           o.maxAcked[level] < r.sacks[0].largest
                        then o.maxAcked[level := r.sacks[0].largest] else o.maxAcked;
    EvolvesSame(o.frames);
    StreamsEvolveSame(o.streams);
    NothingEarned(o.frames, o.sent, level);
    var i := 0;
    assert r.sacks[..0] == [];
    while i < |r.sacks|
      invariant i <= |r.sacks| && o.Valid()
      invariant o.sent == SackAll(old(o.sent), level, r.sacks[..i])
      invariant Evolves(old(o.frames), o.frames) && StreamsEvolve(old(o.streams), o.streams)
      invariant EarnedByRanges(old(o.frames), o.frames, old(o.sent), level, r.sacks[..i])
      invariant o.maxAcked == if i == 0 then old(o.maxAcked) else after'
    {
      ghost var before, was := o.frames, o.streams;
      var range := r.sacks[i];
      FallingAt(r.sacks, o.nextPn[level] - 1, i);
      LargestOfFrame(o.sent, level, range);
      assert r.sacks[..i + 1] == r.sacks[..i] + [range];
      o.TransmittedSack(level, range.largest, range.smallest, if i == 0 then range.largest else -1);
      SackMore(old(o.sent), level, r.sacks[..i], range);
      EvolvesTrans(old(o.frames), before, o.frames);
      StreamsEvolveTrans(old(o.streams), was, o.streams);
      EarnedMore(old(o.frames), before, o.frames, old(o.sent), level, r.sacks[..i], range);
      i := i + 1;
    }
    assert r.sacks[..i] == r.sacks;
  }

  lemma FallingAt(rs: seq<Range>, top: int, i: nat)
    requires Falling(rs, top) && i < |rs|
    ensures 0 <= rs[i].smallest <= rs[i].largest <= top
  {
  }

  lemma SackMore(ps: seq<Sent>, level: nat, rs: seq<Range>, r: Range)
    ensures SackAll(ps, level, []) == ps
    ensures SackAll(ps, level, rs + [r]) == KeepUnacked(SackAll(ps, level, rs), level, r.largest, r.smallest)
  {
    assert (rs + [r])[..|rs|] == rs;
  }

  lemma NothingEarned(fs: seq<Frame>, ps: seq<Sent>, level: nat)
    ensures EarnedByRanges(fs, fs, ps, level, []) && SackAll(ps, level, []) == ps
  {
  }

  // ---------- what the peer has ----------

  /** Every acknowledged frame is in a packet that the peer marked; `marked` is what it marked, by level. */
  ghost predicate Delivered(fs: seq<Frame>, marked: seq<set<int>>)
  {
    forall k :: 0 <= k < |fs| && fs[k].ack.AckedIn? ==>
      fs[k].ack.level < |marked| && fs[k].ack.number in marked[fs[k].ack.level]
  }

  /** An ACK frame that the peer made at any time keeps that; it may be old or repeated. */
  lemma AckKeepsDelivered(arrivals: seq<Packet>, delay: nat, e: EcnCounts, nextPn: int,
                          fs: seq<Frame>, gs: seq<Frame>, ps: seq<Sent>, level: nat, marked: seq<set<int>>)
    requires Run(arrivals).base != -1 && Run(arrivals).max < TWO_62 && Run(arrivals).max < nextPn
    requires delay < TWO_62 && EcnFits(e)
    requires level < |marked| && Marked(arrivals) <= marked[level] && Delivered(fs, marked)
    requires EarnedByRanges(fs, gs, ps, level,
               ParseAck(AckPayload(Run(arrivals), delay, e), AckType(e) == FRAME_ACK_ECN, nextPn).sacks)
    ensures Delivered(gs, marked)
  {
    hide ParseAck, AckPayload, Covered, Descending, Marked, Complete, Run, Inv;
    PeerLearnsMarked(arrivals, delay, e, nextPn);
    forall k | 0 <= k < |gs| && gs[k].ack.AckedIn?
      ensures gs[k].ack.level < |marked| && gs[k].ack.number in marked[gs[k].ack.level]
    {
      if gs[k].ack == fs[k].ack {
        assert fs[k].ack.AckedIn?;
      }
    }
  }

  /** Everything else that happens to the frames acknowledges none of them, and the peer forgets nothing. */
  lemma OthersKeepDelivered(fs: seq<Frame>, gs: seq<Frame>, marked: seq<set<int>>, marked': seq<set<int>>)
    requires Delivered(fs, marked) && |fs| <= |gs|
    requires forall k :: 0 <= k < |gs| ==> gs[k].ack == if k < |fs| then fs[k].ack else NotAcked
    requires |marked| <= |marked'| && forall l :: 0 <= l < |marked| ==> marked[l] <= marked'[l]
    ensures Delivered(gs, marked')
  {
    forall k | 0 <= k < |gs| && gs[k].ack.AckedIn?
      ensures gs[k].ack.level < |marked'| && gs[k].ack.number in marked'[gs[k].ack.level]
    {
      assert k < |fs| && fs[k].ack.AckedIn?;
    }
  }

  /** End to end: a stream in "Data Recvd" has every one of its frames in a packet the peer marked. */
  lemma DataRecvdDelivered(fs: seq<Frame>, ss: seq<SendStream>, s: nat, marked: seq<set<int>>)
    requires StreamsOk(fs, ss) && s < |ss| && ss[s].state == DataRecvd && Delivered(fs, marked)
    ensures HasFin(fs, s) && ss[s].bytes == Sum(fs, DataOf(s))
    ensures forall k :: 0 <= k < |fs| && fs[k].kind == StreamData && fs[k].stream == s ==>
              && fs[k].ack.AckedIn? && fs[k].ack.level < |marked|
              && fs[k].ack.number in marked[fs[k].ack.level]
  {
    hide StreamsOk, HasFin, Sum;
    DataRecvdEarned(fs, ss, s);
    assert HasFin(fs, s);
    forall k | 0 <= k < |fs| && fs[k].kind == StreamData && fs[k].stream == s
      ensures fs[k].ack.AckedIn? && fs[k].ack.level < |marked| && fs[k].ack.number in marked[fs[k].ack.level]
    {
    }
  }
}
