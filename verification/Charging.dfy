/**
 The receive memory of quic_inq_stream_recv (modules/net/quic/inqueue.c) for every peer: frames need
 not be slices of one byte string. What a frame carries is of no interest here, only how long it
 says it is, in the 16 bits of frame->len; offsets are below 2^62, so 64-bit sums do not wrap.
 */
module Charging {
  import opened Wire
  import opened Reassembly
  import opened I = Inqueue

  const TWO_16: int := 0x1_0000

  /** A value stored in frame->len. */
  function U16(x: int): (r: nat)
    ensures r < TWO_16
    ensures 0 <= x < TWO_16 ==> r == x
  {
    x % TWO_16
  }

  /** The first test of quic_inq_stream_recv. */
  predicate Done(s: Stream, f: Frame)
  {
    f.End() <= s.offset && (s.state == SizeKnown || !f.fin)
  }

  /** The length left by the trim of quic_inq_stream_tail. */
  function Trimmed(s: Stream, f: Frame): nat
  {
    U16(|f.data| - (s.offset - f.offset))
  }

  /** A FIN below what was delivered, before the final size is known. */
  predicate Wraps(s: Stream, f: Frame)
  {
    f.fin && f.End() < s.offset && s.state != SizeKnown
  }

  /** The trim of an in-order frame is exact, except for exactly those frames. */
  lemma TrimExact(s: Stream, f: Frame)
    requires |f.data| < TWO_16 && f.offset <= s.offset && !Done(s, f)
    ensures Trimmed(s, f) == f.End() - s.offset <==> !Wraps(s, f)
  {
  }

  /** FIN on [0, 10) when 100 bytes were delivered: ten bytes become 65446. */
  lemma FinBelowDelivered(s: Stream, f: Frame)
    requires s.offset == 100 && s.state == Receiving && f.offset == 0 && |f.data| == 10 && f.fin
    ensures !Done(s, f) && Wraps(s, f) && Trimmed(s, f) == 65446
  {
  }

  // ---------- what is refused ----------

  predicate OverLimit(s: Stream, f: Frame, highest: nat, maxBytes: nat)
  {
    f.End() > s.highest &&
    (highest + (f.End() - s.highest) > maxBytes || f.End() > s.maxBytes)
  }

  /** The final size of section 4.5 of RFC 9000, as far as the code checks it. */
  predicate WrongSize(s: Stream, f: Frame, list: seq<Frame>)
  {
    || (f.End() > s.highest && s.finalsz != 0 && f.End() > s.finalsz)
    || (s.offset < f.offset && !CoveredIn(list, f) && f.fin &&
        (f.End() < s.highest || (s.finalsz != 0 && s.finalsz != f.End())))
  }

  // ---------- one stream ----------

  /**
   What holds of a stream whatever the peer sends: waiting frames are within the highest offset, a
   known final size is the highest offset and that of every waiting FIN, and delivery has not passed
   it before the stream is done.
   */
  ghost predicate StreamFine(s: Stream, id: nat, list: seq<Frame>)
  {
    s.state.ResetRecvd? ||
    (&& (!Final(s.state) ==> s.offset <= s.highest)
     && (s.state == Receiving ==> s.finalsz == 0)
     && (s.state == SizeKnown ==> 0 < s.finalsz == s.highest)
     && forall f :: f in list && f.id == id ==>
          && |f.data| < TWO_16 && f.End() <= s.highest
          && (f.fin ==> s.state != Receiving && (s.state == SizeKnown ==> f.End() == s.finalsz)))
  }

  ghost predicate AllFine(ss: seq<Stream>, list: seq<Frame>)
  {
    forall i :: 0 <= i < |ss| ==> StreamFine(ss[i], i, list)
  }

  /** The stream after a frame is handed over. */
  function Handed(s: Stream, f: Frame): Stream
  {
    s.(offset := s.offset + Trimmed(s, f), state := if f.fin then Recvd else s.state)
  }

  /** The stream after a frame is put in its place out of order. */
  function Placed(s: Stream, f: Frame): Stream
  {
    var s := s.(highest := Max(s.highest, f.End()), frags := s.frags + 1);
    if f.fin then s.(state := SizeKnown, finalsz := f.End()) else s
  }

  lemma PlacedFine(ss: seq<Stream>, list: seq<Frame>, p: nat, f: Frame)
    requires AllFine(ss, list) && p <= |list| && f.id < |ss| && !Final(ss[f.id].state) && |f.data| < TWO_16
    requires ss[f.id].offset < f.offset && !CoveredIn(list, f) && !WrongSize(ss[f.id], f, list)
    ensures AllFine(ss[f.id := Placed(ss[f.id], f)], InsertAt(list, p, f))
  {
    InsertedAt(list, p, f);
    hide InsertAt, SumLen, Count, CoveredIn;
    var ss', list' := ss[f.id := Placed(ss[f.id], f)], InsertAt(list, p, f);
    forall i | 0 <= i < |ss| ensures StreamFine(ss'[i], i, list') {
      assert StreamFine(ss[i], i, list);
    }
  }

  /** The stream record that an in-order frame first leads to. */
  function Higher(s: Stream, f: Frame): Stream
  {
    s.(highest := Max(s.highest, f.End()))
  }

  lemma HandedFine(ss: seq<Stream>, list: seq<Frame>, f: Frame)
    requires AllFine(ss, list) && f.id < |ss| && !Final(ss[f.id].state) && |f.data| < TWO_16
    requires f.offset <= ss[f.id].offset && !Done(ss[f.id], f) && !WrongSize(ss[f.id], f, list)
    ensures var s := Handed(Higher(ss[f.id], f), f);
            && AllFine(ss[f.id := s], list)
            && (s.offset == f.End() <= s.highest <==> !Wraps(ss[f.id], f))
            && (Wraps(ss[f.id], f) ==> s.state == Recvd)
  {
    var s := Handed(Higher(ss[f.id], f), f);
    var ss' := ss[f.id := s];
    TrimExact(ss[f.id], f);
    assert StreamFine(ss[f.id], f.id, list);
    forall i | 0 <= i < |ss| ensures StreamFine(ss'[i], i, list) {
      assert StreamFine(ss[i], i, list);
    }
  }

  /** A waiting frame that is handed over or discarded; none of these wraps. */
  lemma NextFine(ss: seq<Stream>, list: seq<Frame>, p: nat)
    requires AllFine(ss, list) && p < |list| && list[p].id < |ss|
    requires var s := ss[list[p].id]; !s.state.ResetRecvd? && !s.state.DataRead? && list[p].offset <= s.offset
    ensures var f, list' := list[p], RemoveAt(list, p);
            var s := ss[f.id].(frags := ss[f.id].frags - 1);
            && AllFine(ss[f.id := s], list')
            && (!(s.offset >= f.End() && (s.state == Recvd || !f.fin)) ==>
                  s.offset <= f.End() && Handed(s, f).offset == f.End() && AllFine(ss[f.id := Handed(s, f)], list'))
  {
    RemovedAt(list, p);
    hide RemoveAt, SumLen, Count;
    var f, list' := list[p], RemoveAt(list, p);
    var s := ss[f.id].(frags := ss[f.id].frags - 1);
    assert StreamFine(ss[f.id], f.id, list) && f in list;
    var ss1, ss2 := ss[f.id := s], ss[f.id := Handed(s, f)];
    forall i | 0 <= i < |ss| ensures StreamFine(ss1[i], i, list') {
      assert StreamFine(ss[i], i, list);
    }
    if !(s.offset >= f.End() && (s.state == Recvd || !f.fin)) {
      forall i | 0 <= i < |ss| ensures StreamFine(ss2[i], i, list') {
        assert StreamFine(ss[i], i, list);
      }
    }
  }

  /** The events that a frame which is not done gives rise to: for first data and for FIN. */
  function Due(s: Stream, list: seq<Frame>, f: Frame): nat
  {
    (if s.highest == 0 then 1 else 0) +
    (if f.fin && !(s.offset < f.offset && CoveredIn(list, f)) then 1 else 0)
  }

  /**
   What becomes of a stream `s` and of the waiting frames when a frame is accepted: the highest offset
   covers it; ahead of the offset it waits, and nothing is delivered; otherwise it is delivered, and
   nothing that could be delivered is left waiting. Delivery stays within what was seen, except after
   the trim that wraps.
   */
  ghost predicate Taken(s: Stream, t: Stream, list: seq<Frame>, list': seq<Frame>, f: Frame)
  {
    && t.highest == Max(s.highest, f.End())
    && (!Wraps(s, f) ==> t.offset <= t.highest)
    && (s.offset < f.offset ==> t.offset == s.offset && CoveredIn(list', f))
    && (f.offset <= s.offset && !Done(s, f) ==>
          && t.offset >= s.offset + Trimmed(s, f)
          && forall g :: g in list' && g.id == f.id ==> g.offset > t.offset)
    && (Done(s, f) ==> t == s && list' == list)
  }

  // ---------- the queue ----------

  class AnyPeer {
    const rcvbuf: nat
    var streamList: seq<Frame>
    var recvList: seq<Frame>
    var rmem: int
    var maxBytes: nat
    var highest: nat
    var streams: seq<Stream>

    /** How many events have been queued. */
    ghost var notices: nat

    /** The charged memory is what every frame on a list, and those in `hand`, say they are long. */
    ghost predicate Charged(hand: nat)
      reads this
    {
      rmem == SumLen(streamList) + SumLen(recvList) + hand
    }

    ghost predicate Fine()
      reads this
    {
      ListOk(streams, streamList) && AllFine(streams, streamList)
    }

    ghost predicate Valid()
      reads this
    {
      Charged(0) && Fine()
    }

    constructor (n: nat, window: nat, maxData: nat, rcvbuf: nat)
      ensures Valid() && rmem == 0 && streamList == recvList == [] && notices == 0
      ensures this.rcvbuf == rcvbuf && maxBytes == maxData && highest == 0
      ensures streams == seq(n, i => Stream(0, 0, 0, 0, Receiving, window, window, 0))
    {
      this.rcvbuf, maxBytes, highest, rmem := rcvbuf, maxData, 0, 0;
      streamList, recvList, notices := [], [], 0;
      streams := seq(n, i => Stream(0, 0, 0, 0, Receiving, window, window, 0));
    }

    /** quic_inq_event_recv */
    method Event(subscribed: bool, event: seq<Byte>)
      modifies this`recvList, this`rmem, this`notices
      ensures rmem - SumLen(recvList) == old(rmem - SumLen(recvList))
      ensures notices == old(notices) + if subscribed then 1 else 0
      ensures !subscribed ==> unchanged(this)
    {
      if !subscribed {
        return;
      }
      var f := Frame(EventFrame, 0, 0, event, false);
      var p := I.Inqueue.EventPlace(recvList);
      Inserted(recvList[..p], f, recvList[p..]);
      assert recvList[..p] + recvList[p..] == recvList;
      rmem := rmem + |f.data|;
      recvList := recvList[..p] + [f] + recvList[p..];
      notices := notices + 1;
    }

    /** quic_inq_stream_tail: whatever the trim makes of frame->len is what is charged. */
    method Tail(frame: Frame, subscribed: bool, event: seq<Byte>)
      requires Charged(|frame.data|) && frame.id < |streams| && frame.offset <= streams[frame.id].offset
      requires |frame.data| < TWO_16
      modifies this`recvList, this`rmem, this`streams, this`notices
      ensures Charged(0)
      ensures notices == old(notices) + if subscribed && frame.fin then 1 else 0
      ensures streams == old(streams)[frame.id := Handed(old(streams)[frame.id], frame)]
      ensures recvList != [] && |recvList[|recvList| - 1].data| == Trimmed(old(streams)[frame.id], frame)
    {
      hide SumLen;
      var s := streams[frame.id];
      var overlap, len := s.offset - frame.offset, |frame.data|;
      if overlap != 0 {
        rmem := rmem - len;
        len := U16(len - overlap);
        rmem := rmem + len;
      }
      s := s.(offset := s.offset + len);
      if frame.fin {
        Event(subscribed, event);
        s := s.(state := Recvd);
      }
      var f := Frame(DataFrame, frame.id, 0, seq(len, i => 0), frame.fin);
      SumLenConcat(recvList, [f]);
      Single(f, 0);
      streams := streams[frame.id := s];
      recvList := recvList + [f];
    }

    /** The drain loop: memory stays exact and no trim in it wraps. */
    method Drain(id: nat, subscribed: bool, event: seq<Byte>)
      requires Charged(0) && Fine() && id < |streams|
      requires !streams[id].state.ResetRecvd? && !streams[id].state.DataRead?
      modifies this`streamList, this`recvList, this`rmem, this`streams, this`notices
      ensures notices >= old(notices) && (!subscribed ==> notices == old(notices))
      ensures Valid() && |streams| == |old(streams)| && streams == old(streams)[id := streams[id]]
      ensures forall f :: f in streamList && f.id == id ==> f.offset > streams[id].offset
      ensures !streams[id].state.ResetRecvd? && !streams[id].state.DataRead?
      ensures streams[id].highest == old(streams)[id].highest
      ensures old(streams)[id].offset <= streams[id].offset <= Max(old(streams)[id].offset, streams[id].highest)
    {
      hide ListOk, AllFine, SumLen;
      var i := 0;
      while i < |streamList|
        invariant i <= |streamList| && Charged(0) && Fine()
        invariant forall j :: 0 <= j < i ==> streamList[j].id < id
        invariant notices >= old(notices) && (!subscribed ==> notices == old(notices))
        invariant |streams| == |old(streams)| && streams == old(streams)[id := streams[id]]
        invariant !streams[id].state.ResetRecvd? && !streams[id].state.DataRead?
        invariant streams[id].highest == old(streams)[id].highest
        invariant old(streams)[id].offset <= streams[id].offset <= Max(old(streams)[id].offset, streams[id].highest)
        decreases |streamList| - i
      {
        var f := streamList[i];
        if f.id < id {
          i := i + 1;
          continue;
        }
        if f.id > id || f.offset > streams[id].offset {
          break;
        }
        DeliverNext(i, id, subscribed, event);
      }
      ListSorted(streams, streamList);
      NoneDeliverable(streamList, id, i, streams[id].offset);
    }

    method DeliverNext(i: nat, id: nat, subscribed: bool, event: seq<Byte>)
      requires Charged(0) && Fine() && id < |streams|
      requires !streams[id].state.ResetRecvd? && !streams[id].state.DataRead?
      requires i < |streamList| && streamList[i].id == id && streamList[i].offset <= streams[id].offset
      modifies this`streamList, this`recvList, this`rmem, this`streams, this`notices
      ensures notices >= old(notices) && (!subscribed ==> notices == old(notices))
      ensures Charged(0) && Fine() && streamList == RemoveAt(old(streamList), i)
      ensures |streams| == |old(streams)| && streams == old(streams)[id := streams[id]]
      ensures !streams[id].state.ResetRecvd? && !streams[id].state.DataRead?
      ensures streams[id].highest == old(streams)[id].highest
      ensures streams[id].offset == Max(old(streams)[id].offset, old(streamList)[i].End())
      ensures streams[id].offset <= Max(old(streams)[id].offset, streams[id].highest)
    {
      hide SumLen, Count;
      var f := streamList[i];
      ghost var ss := streams;
      assert f in streamList && StreamFine(ss[id], id, streamList);
      NextFine(ss, streamList, i);
      RemovedAt(streamList, i);
      RemoveListOk(ss, streamList, i, ss[id].(frags := ss[id].frags - 1));
      hide ListOk, AllFine, RemoveAt;
      streamList := RemoveAt(streamList, i);
      streams := streams[id := streams[id].(frags := streams[id].frags - 1)];
      if streams[id].offset >= f.End() && (streams[id].state == Recvd || !f.fin) {
        rmem := rmem - |f.data|;
      } else {
        ghost var s := streams[id];
        KeepsList(streams, id, Handed(s, f), streamList);
        Tail(f, subscribed, event);
        assert streams == ss[id := Handed(s, f)];
      }
    }

    /**
     quic_inq_stream_recv for any frame whatsoever: the result is exactly determined, a refused frame
     changes nothing, and the memory charged is what the frames on the lists say they are long. The
     stream is not delivered beyond what was seen of it, except after the trim that wraps.
     */
    method Recv(frame: Frame, other: nat, schedulable: bool, subscribed: bool, event: seq<Byte>) returns (err: RecvError)
      requires Valid() && frame.id < |streams| && !Final(streams[frame.id].state)
      requires frame.kind == DataFrame && |frame.data| < TWO_16
      modifies this
      ensures Valid()
      ensures err == var s := old(streams)[frame.id];
                     if Done(s, frame) then Ok
                     else if old(rmem) + other + |frame.data| > rcvbuf || !schedulable then NoBuffer
                     else if OverLimit(s, frame, old(highest), old(maxBytes)) then FlowControlError
                     else if WrongSize(s, frame, old(streamList)) then FinalSizeError
                     else Ok
      ensures err != Ok ==> unchanged(this)
      ensures |streams| == |old(streams)| && streams == old(streams)[frame.id := streams[frame.id]]
      ensures !streams[frame.id].state.ResetRecvd? && !streams[frame.id].state.DataRead?
      ensures err == Ok ==>
                && Taken(old(streams)[frame.id], streams[frame.id], old(streamList), streamList, frame)
                && highest - old(highest) == streams[frame.id].highest - old(streams)[frame.id].highest
      ensures !subscribed || err != Ok || Done(old(streams)[frame.id], frame) ==> notices == old(notices)
      ensures subscribed && err == Ok && !Done(old(streams)[frame.id], frame) ==>
                notices >= old(notices) + Due(old(streams)[frame.id], old(streamList), frame)
    {
      hide ListOk, SumLen, CoveredIn;
      var id, off := frame.id, frame.End();
      assert StreamFine(streams[id], id, streamList);
      if Done(streams[id], frame) {
        return Ok;
      }
      if rmem + other + |frame.data| > rcvbuf || !schedulable {
        return NoBuffer;
      }
      rmem := rmem + |frame.data|;
      var new' := 0;
      if off > streams[id].highest {
        new' := off - streams[id].highest;
        if highest + new' > maxBytes || streams[id].highest + new' > streams[id].maxBytes {
          rmem := rmem - |frame.data|;
          return FlowControlError;
        }
        if streams[id].finalsz != 0 && off > streams[id].finalsz {
          rmem := rmem - |frame.data|;
          return FinalSizeError;
        }
      }
      err := Settle(frame, new', subscribed, event);
    }

    /** The rest, from where the limits hold. */
    method Settle(frame: Frame, new': nat, subscribed: bool, event: seq<Byte>) returns (err: RecvError)
      requires Charged(|frame.data|) && Fine() && frame.id < |streams| && !Final(streams[frame.id].state)
      requires frame.kind == DataFrame && |frame.data| < TWO_16 && !Done(streams[frame.id], frame)
      requires new' == Max(streams[frame.id].highest, frame.End()) - streams[frame.id].highest
      requires streams[frame.id].finalsz != 0 && frame.End() > streams[frame.id].highest ==>
                 frame.End() <= streams[frame.id].finalsz
      modifies this`streamList, this`recvList, this`rmem, this`highest, this`streams, this`notices
      ensures Valid()
      ensures err == if WrongSize(old(streams)[frame.id], frame, old(streamList)) then FinalSizeError else Ok
      ensures err != Ok ==>
                unchanged(this`streamList, this`recvList, this`highest, this`streams, this`notices) &&
                rmem == old(rmem) - |frame.data|
      ensures |streams| == |old(streams)| && streams == old(streams)[frame.id := streams[frame.id]]
      ensures !streams[frame.id].state.ResetRecvd? && !streams[frame.id].state.DataRead?
      ensures err == Ok ==> Taken(old(streams)[frame.id], streams[frame.id], old(streamList), streamList, frame)
      ensures err == Ok ==> highest - old(highest) == streams[frame.id].highest - old(streams)[frame.id].highest
      ensures !subscribed ==> notices == old(notices)
      ensures subscribed && err == Ok ==> notices >= old(notices) + Due(old(streams)[frame.id], old(streamList), frame)
    {
      hide ListOk, SumLen, CoveredIn, AllFine;
      var id, off := frame.id, frame.End();
      ghost var s := streams[id];
      FineAt(streams, id, streamList);
      if streams[id].highest == 0 {
        Event(subscribed, event);
      }
      if streams[id].offset < frame.offset {
        ListSorted(streams, streamList);
        var p, known := I.Inqueue.FindPlace(streamList, frame);
        if known {
          CoveredIsSeen(s, streamList, frame);
          rmem := rmem - |frame.data|;
          return Ok;
        }
        if frame.fin && (off < streams[id].highest || (streams[id].finalsz != 0 && streams[id].finalsz != off)) {
          rmem := rmem - |frame.data|;
          return FinalSizeError;
        }
        Place(frame, p, new', subscribed, event);
        PlacedCovers(old(streamList), p, frame);
      } else {
        InOrder(frame, new', subscribed, event);
      }
      return Ok;
    }

    lemma FineAt(ss: seq<Stream>, id: nat, list: seq<Frame>)
      requires AllFine(ss, list) && id < |ss|
      ensures StreamFine(ss[id], id, list)
    {
    }

    /** Out of order: wait in the list. */
    method Place(frame: Frame, p: nat, new': nat, subscribed: bool, event: seq<Byte>)
      requires Charged(|frame.data|) && Fine() && frame.id < |streams| && !Final(streams[frame.id].state)
      requires frame.kind == DataFrame && |frame.data| < TWO_16 && streams[frame.id].offset < frame.offset
      requires new' == Max(streams[frame.id].highest, frame.End()) - streams[frame.id].highest
      requires !CoveredIn(streamList, frame) && !WrongSize(streams[frame.id], frame, streamList)
      requires p <= |streamList| && (forall i :: 0 <= i < p ==> Before(streamList[i], frame))
      requires p < |streamList| ==> Before(frame, streamList[p])
      modifies this`streamList, this`recvList, this`rmem, this`highest, this`streams, this`notices
      ensures notices == old(notices) + if subscribed && frame.fin then 1 else 0
      ensures Valid() && streams == old(streams)[frame.id := Placed(old(streams)[frame.id], frame)]
      ensures highest == old(highest) + new'
      ensures streams[frame.id].highest == Max(old(streams)[frame.id].highest, frame.End())
      ensures streamList == InsertAt(old(streamList), p, frame)
    {
      hide SumLen, CoveredIn, ListOk, AllFine;
      PlacedFine(streams, streamList, p, frame);
      InsertListOk(streams, streamList, p, frame, Placed(streams[frame.id], frame));
      InsertedAt(streamList, p, frame);
      var s := streams[frame.id];
      if frame.fin {
        Event(subscribed, event);
        s := s.(state := SizeKnown, finalsz := frame.End());
      }
      s := s.(frags := s.frags + 1, highest := s.highest + new');
      highest := highest + new';
      streamList := InsertAt(streamList, p, frame);
      streams := streams[frame.id := s];
    }

    /** In order: hand over the frame and whatever it makes contiguous. */
    method InOrder(frame: Frame, new': nat, subscribed: bool, event: seq<Byte>)
      requires Charged(|frame.data|) && Fine() && frame.id < |streams| && !Final(streams[frame.id].state)
      requires frame.kind == DataFrame && |frame.data| < TWO_16 && frame.offset <= streams[frame.id].offset
      requires new' == Max(streams[frame.id].highest, frame.End()) - streams[frame.id].highest
      requires !Done(streams[frame.id], frame) && !WrongSize(streams[frame.id], frame, streamList)
      modifies this`streamList, this`recvList, this`rmem, this`highest, this`streams, this`notices
      ensures Valid() && |streams| == |old(streams)| && streams == old(streams)[frame.id := streams[frame.id]]
      ensures !streams[frame.id].state.ResetRecvd? && !streams[frame.id].state.DataRead?
      ensures !Wraps(old(streams)[frame.id], frame) ==> streams[frame.id].offset <= streams[frame.id].highest
      ensures forall f :: f in streamList && f.id == frame.id ==> f.offset > streams[frame.id].offset
      ensures notices >= old(notices) + (if subscribed && frame.fin then 1 else 0)
      ensures !subscribed ==> notices == old(notices)
      ensures highest == old(highest) + new'
      ensures streams[frame.id].offset >= old(streams)[frame.id].offset + Trimmed(old(streams)[frame.id], frame)
      ensures streams[frame.id].highest == Max(old(streams)[frame.id].highest, frame.End())
    {
      hide SumLen, CoveredIn, ListOk, AllFine;
      var id := frame.id;
      HandedFine(streams, streamList, frame);
      KeepsList(streams, id, Handed(Higher(streams[id], frame), frame), streamList);
      highest := highest + new';
      streams := streams[id := streams[id].(highest := streams[id].highest + new')];
      Tail(frame, subscribed, event);
      assert streams == old(streams)[id := Handed(Higher(old(streams)[id], frame), frame)];
      if streams[id].frags != 0 {
        Drain(id, subscribed, event);
      } else {
        NoneWaits(streams, streamList, id);
      }
    }

    /** quic_frame_reset_stream_process: the frames of the stream go with their memory. */
    method Reset(id: nat, finalsz: nat, subscribed: bool, event: seq<Byte>) returns (err: RecvError)
      requires Valid() && id < |streams| && !Final(streams[id].state)
      modifies this`streamList, this`recvList, this`rmem, this`streams, this`notices
      ensures Valid()
      ensures err == Ok ==> notices == old(notices) + if subscribed then 1 else 0
      ensures var s := old(streams)[id];
              err == if finalsz < s.highest || (s.finalsz != 0 && s.finalsz != finalsz) then FinalSizeError else Ok
      ensures err != Ok ==> unchanged(this)
      ensures err == Ok ==>
                && streams == old(streams)[id := old(streams)[id].(state := ResetRecvd, finalsz := finalsz)]
                && streamList == Without(old(streamList), id)
                && forall f :: f in recvList ==> f.kind != DataFrame || f.id != id
    {
      hide SumLen, Without;
      var s := streams[id];
      if finalsz < s.highest || (s.finalsz != 0 && s.finalsz != finalsz) {
        return FinalSizeError;
      }
      Event(subscribed, event);
      s := s.(state := ResetRecvd, finalsz := finalsz);
      ResetFine(streams, id, s, streamList);
      hide ListOk, AllFine;
      streams := streams[id := s];
      var kept, freed := I.Inqueue.Purge(streamList, id);
      streamList, rmem := kept, rmem - freed;
      WithoutMeaning(recvList, id);
      kept, freed := I.Inqueue.Purge(recvList, id);
      recvList, rmem := kept, rmem - freed;
      return Ok;
    }
  }

  /** Where the drain loop stops, no frame of the stream could be delivered. */
  lemma NoneDeliverable(list: seq<Frame>, id: nat, i: nat, offset: nat)
    requires Sorted(list) && i <= |list| && forall j :: 0 <= j < i ==> list[j].id < id
    requires i < |list| ==> list[i].id > id || (list[i].id == id && list[i].offset > offset)
    ensures forall f :: f in list && f.id == id ==> f.offset > offset
  {
    forall k | 0 <= k < |list| && list[k].id == id ensures list[k].offset > offset {
      assert k == i || Before(list[i], list[k]);
    }
  }

  lemma NoneWaits(ss: seq<Stream>, list: seq<Frame>, id: nat)
    requires ListOk(ss, list) && id < |ss| && ss[id].frags == 0 && !ss[id].state.ResetRecvd?
    ensures forall f :: f in list ==> f.id != id
  {
    NoneCounted(list, id);
  }

  lemma {:induction false} NoneCounted(list: seq<Frame>, id: nat)
    requires Count(list, id) == 0
    ensures forall f :: f in list ==> f.id != id
  {
    if list != [] {
      NoneCounted(list[1..], id);
    }
  }

  lemma PlacedCovers(list: seq<Frame>, p: nat, f: Frame)
    requires p <= |list|
    ensures CoveredIn(InsertAt(list, p, f), f)
  {
    InsertedAt(list, p, f);
    assert Covers(f, f);
  }

  /** What a waiting frame covers was seen before. */
  lemma CoveredIsSeen(s: Stream, list: seq<Frame>, f: Frame)
    requires StreamFine(s, f.id, list) && !s.state.ResetRecvd? && CoveredIn(list, f)
    ensures f.End() <= s.highest
  {
  }

  lemma ResetFine(ss: seq<Stream>, id: nat, t: Stream, list: seq<Frame>)
    requires id < |ss| && ListOk(ss, list) && AllFine(ss, list) && t.state.ResetRecvd?
    ensures ListOk(ss[id := t], Without(list, id)) && AllFine(ss[id := t], Without(list, id))
  {
    WithoutMeaning(list, id);
    SortedWithout(list, id);
    hide Without, Count, Sorted, SumLen, Unread;
    var ss', list' := ss[id := t], Without(list, id);
    forall i | 0 <= i < |ss| ensures StreamFine(ss'[i], i, list') {
      assert StreamFine(ss[i], i, list);
    }
  }

  lemma KeepsList(ss: seq<Stream>, id: nat, t: Stream, list: seq<Frame>)
    requires id < |ss| && ListOk(ss, list) && t.frags == ss[id].frags
    requires !ss[id].state.ResetRecvd? && !t.state.ResetRecvd?
    ensures ListOk(ss[id := t], list)
  {
    hide Count, Sorted;
  }
}
