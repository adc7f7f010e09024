/**
 The sending side of modules/net/quic/outqueue.c and packet.c: queues of frames, sent packets,
 acknowledgment, loss and release.
 */
module Outqueue {
  import opened SentPackets
  import opened Ownership

  class Outqueue {
    var frames: seq<Frame>
    var streams: seq<SendStream>
    var sent: seq<Sent>
    var wmem: int
    var inflight: int
    /** Per level: the bytes in flight, the next packet number, the largest number acknowledged and
        the time of the next loss. */
    var spaceInflight: seq<int>
    var nextPn: seq<int>
    var maxAcked: seq<int>
    var lossTime: seq<nat>
    var clock: nat

    ghost predicate Levels()
      reads this
    {
      |spaceInflight| == |nextPn| == |maxAcked| == |lossTime| == 3
    }

    /** Packets are numbered in the order they are sent, at times that never go back. */
    ghost predicate Numbered()
      requires |nextPn| == 3
      reads this
    {
      && Ordered(sent)
      && (forall l :: 0 <= l < 3 ==> nextPn[l] >= 0)
      && forall i :: 0 <= i < |sent| ==>
           sent[i].level < 3 && 0 <= sent[i].number < nextPn[sent[i].level] && sent[i].time <= clock
    }

    /** Bytes in flight, in total and per level, are the sums over the sent packets. */
    ghost predicate Counted()
      requires |spaceInflight| == 3
      reads this
    {
      inflight == Inflight(sent, 3) && forall l :: 0 <= l < 3 ==> spaceInflight[l] == Inflight(sent, l)
    }

    /** Charged send memory is the data of the queued frames, and `extra` not yet released. */
    ghost predicate Charged(extra: int)
      reads this
    {
      wmem == Sum(frames, Charge) + extra
    }

    ghost predicate Valid()
      reads this
    {
      Levels() && Numbered() && Counted() && Charged(0) && Owned(frames, sent, []) && StreamsOk(frames, streams)
    }

    /** quic_outq_init */
    constructor (n: nat)
      ensures Valid() && streams == seq(n, i => SendStream(Ready, 0, 0))
      ensures frames == [] && sent == [] && wmem == 0 && inflight == 0 && clock == 0
      ensures spaceInflight == nextPn == maxAcked == [0, 0, 0] && lossTime == [0, 0, 0]
    {
      hide StreamsOk;
      NoFramesOk(n);
      frames, sent, wmem, inflight, clock := [], [], 0, 0, 0;
      streams := seq(n, i => SendStream(Ready, 0, 0));
      spaceInflight, nextPn, maxAcked, lossTime := [0, 0, 0], [0, 0, 0], [0, 0, 0], [0, 0, 0];
    }

    // ---------- queueing ----------

    /** quic_outq_stream_tail: a new STREAM frame of `bytes` bytes for a stream that can still send. */
    method StreamTail(s: nat, bytes: nat, len: nat, fin: bool, nodelay: bool)
      requires Valid() && s < |streams| && (streams[s].state == Ready || streams[s].state == Sending)
      modifies this`frames, this`streams, this`wmem
      ensures Valid()
      ensures wmem == old(wmem) + bytes
      ensures frames == old(frames) + [Frame(StreamData, s, bytes, len, fin, nodelay, -1, 1, StreamQ, false, NotAcked)]
      ensures streams == old(streams)[s := StreamQueued(old(streams[s]), 1, bytes, fin)]
      ensures streams[s].state == if fin then DataSent else Sending
    {
      hide Owned, StreamsOk, Ordered, Inflight, Sum;
      var f := Frame(StreamData, s, bytes, len, fin, nodelay, -1, 1, StreamQ, false, NotAcked);
      OwnedAppend(frames, sent, f);
      StreamQueueOk(frames, streams, f);
      SumAppend(frames, f, Charge);
      var st := streams[s];
      if st.state == Ready {
        st := st.(state := Sending);
      }
      if fin && st.state == Sending {
        st := st.(state := DataSent);
      }
      st := st.(frags := st.frags + 1, bytes := st.bytes + bytes);
      streams := streams[s := st];
      wmem := wmem + bytes;
      frames := frames + [f];
    }

    /** quic_outq_ctrl_tail and quic_outq_dgram_tail; `stream` is the stream a control frame names, or -1. */
    method OtherTail(kind: Kind, stream: int, bytes: nat, len: nat)
      requires Valid() && kind != StreamData && (Tracked(kind) || bytes == 0)
      requires kind == Reset ==> 0 <= stream < |streams| && IsReset(streams[stream])
      modifies this`frames, this`wmem
      ensures Valid()
      ensures wmem == old(wmem) + bytes
      ensures frames == old(frames) + [Frame(kind, stream, bytes, len, false, false, -1, 1,
                                             if kind == Datagram then DatagramQ else ControlQ, false, NotAcked)]
    {
      hide Owned, StreamsOk, Ordered, Inflight, Sum;
      var f := Frame(kind, stream, bytes, len, false, false, -1, 1,
                     if kind == Datagram then DatagramQ else ControlQ, false, NotAcked);
      OwnedAppend(frames, sent, f);
      OtherQueueOk(frames, streams, f);
      SumAppend(frames, f, Charge);
      wmem := wmem + bytes;
      frames := frames + [f];
    }

    /** quic_outq_stream_append: more data on a frame that was never sent, as its guards demand. */
    method StreamAppend(i: nat, bytes: nat, len: nat, fin: bool, nodelay: bool) returns (ok: bool)
      requires Valid() && i < |frames| && frames[i].at == StreamQ && frames[i].kind == StreamData
      requires 0 <= frames[i].stream < |streams| && streams[frames[i].stream].state == Sending
      modifies this`frames, this`streams, this`wmem
      ensures Valid()
      ensures ok <==> !old(frames[i]).nodelay && old(frames[i]).number < 0
      ensures wmem == old(wmem) + if ok then bytes else 0
      ensures ok ==>
                var f := old(frames[i]);
                && streams == old(streams)[f.stream := StreamQueued(old(streams[frames[i].stream]), 0, bytes, fin)]
                && frames == old(frames)[i := f.(bytes := f.bytes + bytes, len := len, fin := f.fin || fin, nodelay := nodelay)]
      ensures !ok ==> unchanged(this)
    {
      hide Owned, StreamsOk, Ordered, Inflight, Sum;
      var f := frames[i];
      if f.nodelay || f.number >= 0 {
        return false;
      }
      var x := f.(bytes := f.bytes + bytes, len := len, fin := f.fin || fin, nodelay := nodelay);
      var s := f.stream;
      OwnedGrow(frames, sent, i, x);
      StreamAppendOk(frames, streams, i, bytes, fin, x);
      SumUpdate(frames, i, x, Charge);
      var st := streams[s];
      if fin && st.state == Sending {
        st := st.(state := DataSent);
      }
      st := st.(bytes := st.bytes + bytes);
      streams := streams[s := st];
      wmem := wmem + bytes;
      frames := frames[i := x];
      return true;
    }

    /** quic_packet_tail: a queued frame moves to the packet under construction. */
    method PacketTail(i: nat)
      requires Valid() && i < |frames| && Queued(frames[i])
      modifies this`frames
      ensures Valid() && frames == old(frames)[i := old(frames[i]).(at := PacketQ)]
    {
      var x := frames[i].(at := PacketQ);
      OwnedUpdate(frames, sent, [], [], i, x);
      hide Owned, StreamsOk;
      StreamsSame(frames, streams, i, x);
      SumUpdate(frames, i, x, Charge);
      frames := frames[i := x];
    }

    // ---------- acknowledgment and loss of a packet's frames ----------

    /** One round of quic_outq_psent_sack_frames, with quic_frame_ack: how many bytes to release. */
    method AckCopy(c: Copy, ack: Ack, ghost rest: seq<Copy>, ghost extra: int) returns (bytes: nat)
      requires Owned(frames, sent, [c] + rest) && StreamsOk(frames, streams) && Charged(extra) && ack.AckedIn?
      modifies this`frames, this`streams
      ensures Owned(frames, sent, rest) && StreamsOk(frames, streams) && Charged(extra + bytes)
      ensures Evolves(old(frames), frames) && StreamsEvolve(old(streams), streams)
      ensures CopyOk(c, old(frames)) && old(frames)[c.frame].refcnt >= if Queued(old(frames)[c.frame]) then 2 else 1
      ensures frames == old(frames)[c.frame := AfterAck(old(frames)[c.frame], ack)]
      ensures var f := old(frames)[c.frame];
              if Queued(f) && f.kind == StreamData
              then 0 <= f.stream < |streams| && streams == old(streams)[f.stream := StreamAcked(old(streams)[f.stream])]
              else if Queued(f) && f.kind == Reset
              then 0 <= f.stream < |streams| && streams == old(streams)[f.stream := old(streams)[f.stream].(state := ResetRecvd)]
              else streams == old(streams)
    {
      hide Owned, StreamsOk, Sum;
      AckOwned(frames, sent, c, rest, ack);
      var f := frames[c.frame];
      var x := AfterAck(f, ack);
      bytes := if Queued(f) then f.bytes else 0;
      if Queued(f) && f.kind == StreamData {
        StreamAckOk(frames, streams, c.frame, x);
        var st := streams[f.stream];
        st := st.(frags := st.frags - 1);
        if st.frags == 0 && st.state == DataSent {
          st := st.(state := DataRecvd);
        }
        streams := streams[f.stream := st];
      } else if Queued(f) && f.kind == Reset {
        ResetAckOk(frames, streams, c.frame, x);
        streams := streams[f.stream := streams[f.stream].(state := ResetRecvd)];
      } else {
        StreamsSame(frames, streams, c.frame, x);
      }
      frames := frames[c.frame := x];
    }

    /** quic_outq_psent_sack_frames */
    method SackFrames(p: Sent)
      requires Owned(frames, sent, p.copies) && StreamsOk(frames, streams) && Charged(0)
      modifies this`frames, this`streams, this`wmem
      ensures Owned(frames, sent, []) && StreamsOk(frames, streams) && Charged(0)
      ensures Evolves(old(frames), frames) && StreamsEvolve(old(streams), streams)
      ensures Released(p.copies, frames) && Earned(old(frames), frames, p)
      ensures forall i :: 0 <= i < |frames| ==> frames[i].at == old(frames)[i].at || !Queued(frames[i])
    {
      hide Owned, StreamsOk, Sum, StreamsEvolve;
      StreamsEvolveSame(streams);
      var copies, ack := p.copies, AckedIn(p.level, p.number);
      var acked := 0;
      var i := 0;
      assert copies[0..] == copies;
      while i < |copies|
        invariant i <= |copies|
        invariant Owned(frames, sent, copies[i..]) && StreamsOk(frames, streams) && Charged(acked)
        invariant Evolves(old(frames), frames) && StreamsEvolve(old(streams), streams)
        invariant forall k :: 0 <= k < i ==> copies[k].frame < |frames| && !Queued(frames[copies[k].frame])
        invariant forall k :: 0 <= k < |frames| ==> frames[k].at == old(frames)[k].at || !Queued(frames[k])
        invariant Earned(old(frames), frames, p)
      {
        assert copies[i..] == [copies[i]] + copies[i + 1..];
        ghost var before := streams;
        var bytes := AckCopy(copies[i], ack, copies[i + 1..], acked);
        assert copies[i] == Copy(copies[i].frame, frames[copies[i].frame].bytes);
        StreamsEvolveTrans(old(streams), before, streams);
        acked := acked + bytes;
        i := i + 1;
      }
      assert copies[i..] == [];
      wmem := wmem - acked;
    }

    /** One round of quic_outq_psent_retransmit_frames: how many bytes to release. */
    method LoseCopy(c: Copy, ghost rest: seq<Copy>, ghost extra: int) returns (bytes: nat)
      requires Owned(frames, sent, [c] + rest) && StreamsOk(frames, streams) && Charged(extra)
      modifies this`frames
      ensures Owned(frames, sent, rest) && StreamsOk(frames, streams) && Charged(extra + bytes)
      ensures Requeued(old(frames), frames)
      ensures AllSentAgain(old(frames), frames, {c.frame})
      ensures c.frame < |old(frames)| && old(frames)[c.frame].refcnt >= if Queued(old(frames)[c.frame]) then 2 else 1
      ensures frames == old(frames)[c.frame := AfterLoss(old(frames)[c.frame])]
    {
      hide Owned, StreamsOk, Sum;
      LossOwned(frames, sent, c, rest);
      var f := frames[c.frame];
      var x := AfterLoss(f);
      StreamsSame(frames, streams, c.frame, x);
      bytes := if Queued(f) && !Queued(x) then f.bytes else 0;
      frames := frames[c.frame := x];
    }

    /** quic_outq_psent_retransmit_frames */
    method RetransmitFrames(copies: seq<Copy>)
      requires Owned(frames, sent, copies) && StreamsOk(frames, streams) && Charged(0)
      modifies this`frames, this`wmem
      ensures Owned(frames, sent, []) && StreamsOk(frames, streams) && Charged(0)
      ensures Requeued(old(frames), frames) && AllSentAgain(old(frames), frames, Names(copies))
    {
      hide Owned, StreamsOk, Sum, AllSentAgain;
      SentAgainNone(frames);
      assert Names(copies[..0]) == {};
      var freed := 0;
      var i := 0;
      assert copies[0..] == copies;
      while i < |copies|
        invariant i <= |copies|
        invariant Owned(frames, sent, copies[i..]) && StreamsOk(frames, streams) && Charged(freed)
        invariant Requeued(old(frames), frames) && AllSentAgain(old(frames), frames, Names(copies[..i]))
      {
        assert copies[i..] == [copies[i]] + copies[i + 1..];
        assert Names(copies[..i + 1]) == Names(copies[..i]) + {copies[i].frame};
        ghost var before := frames;
        var bytes := LoseCopy(copies[i], copies[i + 1..], freed);
        SentAgainTrans(old(frames), before, frames, Names(copies[..i]), {copies[i].frame});
        freed := freed + bytes;
        i := i + 1;
      }
      assert copies[i..] == [] && copies[..i] == copies;
      wmem := wmem - freed;
    }

    // ---------- scans of the sent packets ----------

    /** Take a record off the list, out of the bytes in flight, and its copies in hand. */
    method RemoveRecord(i: nat) returns (p: Sent)
      requires Levels() && Numbered() && Counted() && Owned(frames, sent, []) && i < |sent|
      modifies this`sent, this`inflight, this`spaceInflight
      ensures p == old(sent)[i] && sent == old(sent)[..i] + old(sent)[i + 1..]
      ensures Levels() && Numbered() && Counted() && Owned(frames, sent, p.copies)
    {
      hide Owned, Inflight;
      p := sent[i];
      assert sent == sent[..i] + [p] + sent[i + 1..];
      OwnedMove(frames, sent[..i], p, sent[i + 1..]);
      WithRecord(sent[..i], p, sent[i + 1..]);
      OrderedRemove(sent[..i], p, sent[i + 1..]);
      inflight := inflight - p.frameLen;
      spaceInflight := spaceInflight[p.level := spaceInflight[p.level] - p.frameLen];
      sent := sent[..i] + sent[i + 1..];
    }

    /** The body of the scan for a packet that is acknowledged. */
    method SackRecord(i: nat, ackLargest: int) returns (p: Sent)
      requires Valid() && i < |sent|
      modifies this`frames, this`streams, this`sent, this`wmem, this`inflight, this`spaceInflight, this`maxAcked
      ensures Valid() && p == old(sent)[i] && sent == old(sent)[..i] + old(sent)[i + 1..]
      ensures Evolves(old(frames), frames) && StreamsEvolve(old(streams), streams)
      ensures Released(p.copies, frames) && Earned(old(frames), frames, p)
      ensures maxAcked == if p.number == ackLargest && old(maxAcked)[p.level] < ackLargest
                          then old(maxAcked)[p.level := ackLargest] else old(maxAcked)
    {
      hide Owned, StreamsOk, Sum, Inflight, Ordered, Evolves, StreamsEvolve, Earned;
      p := RemoveRecord(i);
      SackFrames(p);
      if p.number == ackLargest && maxAcked[p.level] < p.number {
        maxAcked := maxAcked[p.level := p.number];
      }
    }

    /**
     quic_outq_transmitted_sack: scanning backwards and stopping at the first number below the
     range removes exactly the level's packets in the range, as a pass over the whole list would;
     no frame any of them carried stays queued, each frame acknowledged was carried with all its
     data by one of them, and no stream is reset by it.
     */
    method TransmittedSack(level: nat, largest: int, smallest: int, ackLargest: int)
      requires Valid() && level < 3
      modifies this`frames, this`streams, this`sent, this`wmem, this`inflight, this`spaceInflight, this`maxAcked
      ensures Valid()
      ensures sent == KeepUnacked(old(sent), level, largest, smallest)
      ensures Evolves(old(frames), frames) && StreamsEvolve(old(streams), streams)
      ensures AckedReleased(old(sent), 0, level, largest, smallest, frames)
      ensures EarnedIn(old(frames), frames, old(sent), level, largest, smallest)
      ensures maxAcked == if LargestAcked(old(sent), 0, level, largest, smallest, ackLargest) &&
                             old(maxAcked)[level] < ackLargest
                          then old(maxAcked)[level := ackLargest] else old(maxAcked)
    {
      hide Owned, StreamsOk, Sum, Inflight, Released, Ordered, KeepUnacked, Evolves, LargestAcked, StreamsEvolve,
        Earned, EarnedIn;
      StreamsEvolveSame(streams);
      EarnedNone(frames, sent, level, largest, smallest);
      ghost var ps := sent;
      EvolvesSame(frames);
      ghost var kept: seq<Sent> := [];
      var i := |sent|;
      assert ps[..i] + [] == ps && ps[i..] == [];
      UnackedNone(level, largest, smallest);
      assert !LargestAcked(ps, i, level, largest, smallest, ackLargest) by {
        LargestNone(ps, level, largest, smallest, ackLargest);
      }
      while i > 0
        invariant 0 <= i <= |ps| && Valid()
        invariant kept == KeepUnacked(ps[i..], level, largest, smallest) && sent == ps[..i] + kept
        invariant Evolves(old(frames), frames) && StreamsEvolve(old(streams), streams)
        invariant AckedReleased(ps, i, level, largest, smallest, frames)
        invariant EarnedIn(old(frames), frames, ps, level, largest, smallest)
        invariant maxAcked == if LargestAcked(ps, i, level, largest, smallest, ackLargest) &&
                                 old(maxAcked)[level] < ackLargest
                              then old(maxAcked)[level := ackLargest] else old(maxAcked)
      {
        hide AckedReleased;
        i := i - 1;
        AtBackCursor(ps, i, kept);
        KeepStep(ps, i, level, largest, smallest);
        LargestStep(ps, i, level, largest, smallest, ackLargest);
        var p := sent[i];
        if p.level != level || p.number > largest {
          kept := [p] + kept;
          EvolvesSame(frames);
          ReleasedStep(ps, i, level, largest, smallest, frames, frames);
          continue;
        }
        if p.number < smallest {
          SackedAll(ps, i, level, largest, smallest);
          EvolvesSame(frames);
          ReleasedStep(ps, i, level, largest, smallest, frames, frames);
          ReleasedAll(ps, i, level, largest, smallest, frames);
          LargestAll(ps, i, level, largest, smallest, ackLargest);
          return;
        }
        ghost var before, was := frames, streams;
        p := SackRecord(i, ackLargest);
        EvolvesTrans(old(frames), before, frames);
        StreamsEvolveTrans(old(streams), was, streams);
        EarnedStep(old(frames), before, frames, ps, p, level, largest, smallest);
        ReleasedStep(ps, i, level, largest, smallest, before, frames);
      }
      assert ps[0..] == ps && ps[..0] + kept == kept;
    }

    /** The body of the scan for a packet that is lost. */
    method LoseRecord(i: nat) returns (p: Sent)
      requires Valid() && i < |sent|
      modifies this`frames, this`sent, this`wmem, this`inflight, this`spaceInflight
      ensures Valid() && p == old(sent)[i] && sent == old(sent)[..i] + old(sent)[i + 1..]
      ensures Requeued(old(frames), frames) && AllSentAgain(old(frames), frames, Names(p.copies))
    {
      hide Owned, StreamsOk, Sum, Inflight, Ordered, Requeued, AllSentAgain;
      p := RemoveRecord(i);
      RetransmitFrames(p.copies);
    }

    /** The scan of quic_outq_retransmit_mark: `kept` of the first `j` packets stay, and the scan stops at the next one. */
    method MarkScan(level: nat, v: LossView) returns (i: nat, ghost kept: seq<Sent>, ghost j: nat)
      requires Valid() && level < 3 && v.maxAcked == maxAcked[level]
      modifies this`frames, this`sent, this`wmem, this`inflight, this`spaceInflight
      ensures Valid() && Requeued(old(frames), frames)
      ensures Scanned(old(sent), kept, j, level, v)
      ensures j <= |old(sent)| && AllSentAgain(old(frames), frames, LostNames(old(sent)[..j], level, v))
      ensures i == |kept| && sent == kept + old(sent)[j..]
      ensures j < |old(sent)| ==> Stops(old(sent)[j], level, v)
    {
      hide Owned, StreamsOk, Sum, Inflight, KeepUnlost, Requeued, Ordered, AllSentAgain, LostNames, Names;
      ghost var ps := sent;
      SentAgainNone(frames);
      LostNamesNone(ps[..0], level, v);
      i, kept, j := 0, [], 0;
      ScanStart(ps, level, v);
      RequeuedSame(frames);
      assert [] + ps[0..] == ps;
      while i < |sent|
        invariant Valid() && Requeued(old(frames), frames)
        invariant Scanned(ps, kept, j, level, v)
        invariant j <= |ps| && AllSentAgain(old(frames), frames, LostNames(ps[..j], level, v))
        invariant i == |kept| && sent == kept + ps[j..]
        decreases |ps| - j
      {
        AtCursor(ps, kept, j);
        ScanStep(ps, kept, j, level, v);
        LostNamesStep(ps, j, level, v);
        var p := sent[i];
        hide Scanned;
        if level != 0 && p.level == 0 {
          return;
        }
        if p.level != level {
          kept := kept + [p];
          i, j := i + 1, j + 1;
          continue;
        }
        if !v.immediate && p.number > v.maxAcked {
          return;
        }
        if !v.immediate && p.time + v.delay > v.now && p.number + KPACKET_THRESHOLD > v.maxAcked {
          return;
        }
        ghost var before := frames;
        p := LoseRecord(i);
        RequeuedTrans(old(frames), before, frames);
        SentAgainTrans(old(frames), before, frames, LostNames(ps[..j], level, v), Names(p.copies));
        j := j + 1;
      }
    }

    /**
     quic_outq_retransmit_mark: scanning forwards and stopping at the first packet of the level
     that is not lost removes exactly the lost ones, as a pass over the whole list would; the loss
     time is the earliest deadline among those that remain; every frame that a lost packet carried
     and that still waits to be acknowledged is to be sent again, except datagrams, and no other
     frame moves.
     */
    method RetransmitMark(level: nat, immediate: bool, now: nat, delay: nat)
      requires Valid() && level < 3
      modifies this`frames, this`sent, this`wmem, this`inflight, this`spaceInflight, this`lossTime
      ensures Valid() && Requeued(old(frames), frames)
      ensures AllSentAgain(old(frames), frames,
                           LostNames(old(sent), level, LossView(maxAcked[level], now, delay, immediate)))
      ensures sent == KeepUnlost(old(sent), level, LossView(maxAcked[level], now, delay, immediate))
      ensures EarliestDeadline(lossTime[level], sent, level, LossView(maxAcked[level], now, delay, immediate))
      ensures lossTime == old(lossTime)[level := lossTime[level]]
    {
      hide Owned, StreamsOk, Sum, Inflight, EarliestDeadline, KeepUnlost, Requeued, Ordered, Scanned,
        AllSentAgain, LostNames;
      lossTime := lossTime[level := 0];
      var v := LossView(maxAcked[level], now, delay, immediate);
      ghost var ps := sent;
      var i, kept, j := MarkScan(level, v);
      ScanEnd(ps, kept, j, level, v, sent);
      LostNamesEnd(ps, j, level, v);
      if i < |sent| {
        var p := sent[i];
        if Pending(p, level, v) {
          // The scan stopped at a packet that may still arrive: not yet old, not yet overtaken.
          lossTime := lossTime[level := p.time + delay];
        }
      }
      DeadlineAtStop(sent, i, level, v, lossTime[level]);
    }

    // ---------- sending ----------

    /** quic_outq_packet_sent_tail: the place of a new packet, after all packets of its level. */
    method SentPlace(level: nat) returns (p: nat)
      requires Ordered(sent) && level < 3
      ensures p <= |sent|
      ensures forall i :: 0 <= i < p ==> Rank(sent[i].level) <= Rank(level)
      ensures forall i :: p <= i < |sent| ==> Rank(sent[i].level) > Rank(level)
    {
      p := |sent|;
      if level != 0 {
        p := 0;
        while p < |sent|
          invariant p <= |sent|
          invariant forall i :: 0 <= i < p ==> Rank(sent[i].level) <= Rank(level)
        {
          if sent[p].level == 0 || level < sent[p].level {
            forall i | p < i < |sent| ensures Rank(sent[i].level) > Rank(level) {
              assert Precedes(sent[p], sent[i]);
            }
            return;
          }
          p := p + 1;
        }
      }
    }

    /** The loop of quic_packet_pack_frames over the packet under construction. */
    method PackLoop(number: nat) returns (copies: seq<Copy>, frameLen: nat)
      requires Owned(frames, sent, []) && StreamsOk(frames, streams) && Charged(0)
      modifies this`frames
      ensures Owned(frames, sent, copies) && StreamsOk(frames, streams) && Charged(0)
      ensures copies == PacketCopies(old(frames)) && frameLen == PacketLen(old(frames))
      ensures |frames| == |old(frames)|
      ensures forall i :: 0 <= i < |frames| ==>
                frames[i] == if old(frames)[i].at == PacketQ && old(frames)[i].refcnt >= 1
                             then Packed(old(frames)[i], number) else old(frames)[i]
    {
      hide Owned, StreamsOk, Sum, Packed, PacketCopies, PacketLen;
      NoPacket();
      assert frames[..0] == [];
      copies, frameLen := [], 0;
      var i := 0;
      while i < |frames|
        invariant i <= |frames| == |old(frames)|
        invariant Owned(frames, sent, copies) && StreamsOk(frames, streams) && Charged(0)
        invariant forall k :: 0 <= k < |copies| ==> copies[k].frame < i
        invariant copies == PacketCopies(old(frames)[..i]) && frameLen == PacketLen(old(frames)[..i])
        invariant forall k :: 0 <= k < i ==>
                    frames[k] == if old(frames)[k].at == PacketQ && old(frames)[k].refcnt >= 1
                                 then Packed(old(frames)[k], number) else old(frames)[k]
        invariant forall k :: i <= k < |frames| ==> frames[k] == old(frames)[k]
      {
        var f := frames[i];
        PacketStep(old(frames), i);
        if f.at == PacketQ {
          PackStep(frames, streams, sent, copies, i, number);
          frames := frames[i := Packed(f, number)];
          if Tracked(f.kind) {
            copies := copies + [Copy(i, f.bytes)];
            frameLen := frameLen + f.len;
          }
        }
        i := i + 1;
      }
      assert old(frames)[..i] == old(frames);
    }

    /** The record of a packet joins the list and the bytes in flight. */
    method InsertRecord(p: Sent)
      requires Levels() && Numbered() && Counted() && Owned(frames, sent, p.copies) && p.level < 3
      requires 0 <= p.number < nextPn[p.level] && p.time == clock
      requires forall i :: 0 <= i < |sent| && sent[i].level == p.level ==> sent[i].number < p.number
      modifies this`sent, this`inflight, this`spaceInflight
      ensures Levels() && Numbered() && Counted() && Owned(frames, sent, [])
      ensures exists at :: 0 <= at <= |old(sent)| && sent == old(sent)[..at] + [p] + old(sent)[at..]
    {
      hide Owned, Inflight, Refs, CopiesOf, Ordered, Rank;
      var at := SentPlace(p.level);
      OrderedInsert(sent, at, p);
      assert sent[..at] + sent[at..] == sent;
      OwnedMove(frames, sent[..at], p, sent[at..]);
      WithRecord(sent[..at], p, sent[at..]);
      inflight := inflight + p.frameLen;
      spaceInflight := spaceInflight[p.level := spaceInflight[p.level] + p.frameLen];
      sent := sent[..at] + [p] + sent[at..];
    }

    /** quic_packet_pack_frames: the packet gets the next number of its level, and a record that
        names exactly its tracked frames joins the list; each of them gains a reference. */
    method PackFrames(level: nat, now: nat)
      requires Valid() && level < 3 && clock <= now
      modifies this`frames, this`sent, this`inflight, this`spaceInflight, this`nextPn, this`clock
      ensures Valid()
      ensures nextPn == old(nextPn)[level := old(nextPn[level]) + 1]
      ensures |frames| == |old(frames)| && forall i :: 0 <= i < |frames| ==>
                var f := old(frames)[i];
                && (f.at != PacketQ ==> frames[i] == f)
                && (f.at == PacketQ && Tracked(f.kind) ==>
                      frames[i] == f.(number := if f.number < 0 then old(nextPn[level]) else f.number,
                                      at := TransmittedQ, transmitted := true, refcnt := f.refcnt + 1))
                && (f.at == PacketQ && !Tracked(f.kind) ==>
                      f.refcnt > 0 && frames[i] == f.(refcnt := f.refcnt - 1, at := Nowhere))
      ensures var copies := PacketCopies(old(frames));
              var record := Sent(old(nextPn[level]), now, PacketLen(old(frames)), level, copies);
              if copies == [] then sent == old(sent)
              else exists at :: 0 <= at <= |old(sent)| && sent == old(sent)[..at] + [record] + old(sent)[at..]
    {
      hide Owned, StreamsOk, Sum, Inflight, Ordered;
      var number: nat := nextPn[level];
      nextPn := nextPn[level := number + 1];
      clock := now;
      var copies, frameLen := PackLoop(number);
      NoneInPacket(old(frames));
      if copies != [] {
        InsertRecord(Sent(number, now, frameLen, level, copies));
      }
    }

    /** Frames on a queue hold a reference. */
    lemma NoneInPacket(fs: seq<Frame>)
      requires Owned(fs, sent, [])
      ensures forall i :: 0 <= i < |fs| && fs[i].at == PacketQ ==> fs[i].refcnt >= 1
    {
    }

    /** quic_outq_retransmit_list: a packet that could not be built gives its frames back. */
    method ReturnFrames()
      requires Valid()
      modifies this`frames
      ensures Valid() && |frames| == |old(frames)|
      ensures forall i :: 0 <= i < |frames| ==>
                var f := old(frames)[i];
                && (f.at != PacketQ ==> frames[i] == f)
                && (f.at == PacketQ ==>
                      frames[i] == f.(transmitted := false, at := if f.kind == StreamData then StreamQ else ControlQ))
    {
      hide Owned, StreamsOk, Sum, Inflight, Ordered, Returned;
      var i := 0;
      while i < |frames|
        invariant i <= |frames| == |old(frames)| && Valid()
        invariant forall k :: 0 <= k < i ==>
                    frames[k] == if old(frames)[k].at == PacketQ then Returned(old(frames)[k]) else old(frames)[k]
        invariant forall k :: i <= k < |frames| ==> frames[k] == old(frames)[k]
      {
        if frames[i].at == PacketQ {
          ReturnOk(frames, streams, sent, i);
          frames := frames[i := Returned(frames[i])];
        }
        i := i + 1;
      }
      ReturnedHome();
    }

    lemma ReturnedHome()
      ensures forall f :: Returned(f) == f.(transmitted := false, at := if f.kind == StreamData then StreamQ else ControlQ)
    {
    }

    // ---------- purging ----------

    /** quic_outq_list_purge of one stream, which was reset: every frame on the queue that names it. */
    method PurgeStream(q: Queue, s: nat)
      requires Valid() && q != Nowhere && s < |streams| && IsReset(streams[s])
      modifies this`frames, this`wmem
      ensures Valid() && Evolves(old(frames), frames)
      ensures forall i :: 0 <= i < |frames| ==>
                if old(frames)[i].at == q && frames[i].stream == s
                then Purged(old(frames)[i], frames[i]) else frames[i] == old(frames)[i]
    {
      hide Owned, StreamsOk, Sum, Inflight, Ordered;
      var bytes := 0;
      var i := 0;
      while i < |frames|
        invariant i <= |frames| == |old(frames)|
        invariant Levels() && Numbered() && Counted() && Charged(bytes)
        invariant Owned(frames, sent, []) && StreamsOk(frames, streams)
        invariant Evolves(old(frames), frames)
        invariant forall k :: 0 <= k < i ==>
                    if old(frames)[k].at == q && frames[k].stream == s
                    then Purged(old(frames)[k], frames[k]) else frames[k] == old(frames)[k]
        invariant forall k :: i <= k < |frames| ==> frames[k] == old(frames)[k]
      {
        var f := frames[i];
        if f.at == q && f.stream == s {
          PurgeNamed(frames, streams, sent, i);
          frames := frames[i := f.(at := Nowhere, refcnt := f.refcnt - 1)];
          bytes := bytes + f.bytes;
        }
        i := i + 1;
      }
      wmem := wmem - bytes;
    }

    /** Resetting the sending part of a stream, whatever its state: a RESET_STREAM is queued, the
        frames that name the stream leave the other queues and their memory is released, and the
        packets that carried them keep their references. */
    method ResetStream(s: nat, len: nat)
      requires Valid() && s < |streams|
      modifies this`frames, this`wmem, this`streams
      ensures Valid()
      ensures streams == old(streams)[s := old(streams)[s].(state := ResetSent)]
      ensures |frames| == |old(frames)| + 1 && Evolves(old(frames), frames[..|old(frames)|])
      ensures frames[|old(frames)|] == Frame(Reset, s, 0, len, false, false, -1, 1, ControlQ, false, NotAcked)
      ensures forall i :: 0 <= i < |old(frames)| ==>
                if frames[i].stream == s && (old(frames)[i].at == StreamQ || old(frames)[i].at == TransmittedQ)
                then Purged(old(frames)[i], frames[i]) else frames[i] == old(frames)[i]
    {
      hide Owned, StreamsOk, Sum, Inflight, Ordered;
      ResetOk(frames, streams, s, streams[s].(state := ResetSent));
      streams := streams[s := streams[s].(state := ResetSent)];
      OtherTail(Reset, s, 0, len);
      PurgeStream(TransmittedQ, s);
      PurgeStream(StreamQ, s);
    }

    /** quic_outq_list_purge of everything on a queue. */
    method PurgeAll(q: Queue)
      requires Owned(frames, sent, []) && Charged(0) && q != Nowhere
      modifies this`frames, this`wmem
      ensures Owned(frames, sent, []) && Charged(0) && |frames| == |old(frames)|
      ensures forall i :: 0 <= i < |frames| ==> frames[i].at == if old(frames)[i].at == q then Nowhere else old(frames)[i].at
    {
      hide Owned, Sum;
      var bytes := 0;
      var i := 0;
      while i < |frames|
        invariant i <= |frames| == |old(frames)|
        invariant Owned(frames, sent, []) && Charged(bytes)
        invariant forall k :: 0 <= k < i ==> frames[k].at == if old(frames)[k].at == q then Nowhere else old(frames)[k].at
        invariant forall k :: i <= k < |frames| ==> frames[k] == old(frames)[k]
      {
        var f := frames[i];
        if f.at == q {
          PurgeOk(frames, sent, i);
          frames := frames[i := f.(at := Nowhere, refcnt := f.refcnt - 1)];
          bytes := bytes + f.bytes;
        }
        i := i + 1;
      }
      wmem := wmem - bytes;
    }

    /**
     quic_outq_free between packets: after the records and the queues are purged no memory is
     charged and no frame has a reference left, however many packets carried it.
     */
    method Free()
      requires Valid() && forall i :: 0 <= i < |frames| ==> frames[i].at != PacketQ
      modifies this`frames, this`streams, this`sent, this`wmem
      ensures wmem == 0 && sent == []
      ensures |frames| == |old(frames)| && forall i :: 0 <= i < |frames| ==> frames[i].refcnt == 0
    {
      hide Owned, StreamsOk, Sum;
      while sent != []
        invariant Owned(frames, sent, []) && StreamsOk(frames, streams) && Charged(0)
        invariant Evolves(old(frames), frames)
        invariant forall i :: 0 <= i < |frames| ==> frames[i].at != PacketQ
        decreases |sent|
      {
        var p := sent[0];
        assert [] + [p] + sent[1..] == sent && [] + sent[1..] == sent[1..];
        OwnedMove(frames, [], p, sent[1..]);
        sent := sent[1..];
        SackFrames(p);
      }
      PurgeAll(TransmittedQ);
      PurgeAll(DatagramQ);
      PurgeAll(ControlQ);
      PurgeAll(StreamQ);
      AllFree(frames);
    }
  }
}
