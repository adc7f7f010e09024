/**
 modules/net/quic/inqueue.c and quic_recvmsg: reassembly of STREAM frames, the memory charged
 for them, and their flow control.
 */
module Inqueue {
  import opened Wire
  import opened Reassembly
  import FlowControl

  datatype RecvError = Ok | NoBuffer | FlowControlError | FinalSizeError

  function ToFlow(s: Stream): FlowControl.RecvStream
  {
    FlowControl.RecvStream(s.highest, s.maxBytes, s.window, s.bytes, !Final(s.state))
  }

  function ToFlows(ss: seq<Stream>): (r: seq<FlowControl.RecvStream>)
    ensures |r| == |ss| && forall i :: 0 <= i < |ss| ==> r[i] == ToFlow(ss[i])
  {
    seq(|ss|, i requires 0 <= i < |ss| => ToFlow(ss[i]))
  }

  /** A stream with one more frame that waits out of order. */
  function Ahead(s: Stream, f: Frame): Stream
  {
    Admitted(s, f, true).(frags := s.frags + 1)
  }

  /** A frame that starts no later than another and has all its bytes, and its FIN. */
  predicate Covers(g: Frame, f: Frame)
  {
    g.id == f.id && g.offset <= f.offset && f.End() <= g.End() && (f.fin ==> g.fin)
  }

  predicate CoveredIn(list: seq<Frame>, f: Frame)
  {
    exists g :: g in list && Covers(g, f)
  }

  // ---------- what one read takes ----------

  /** The frame at the head is the last that can be read in one call: it has FIN, or what follows is
      of another stream or no stream data. */
  predicate LastOfRun(list: seq<Frame>)
    requires list != []
  {
    list[0].fin || |list| == 1 || list[1].kind != DataFrame || list[1].id != list[0].id
  }

  /** The frames at the front of a receive list that can be read in one call. */
  function LeadingRun(list: seq<Frame>): seq<Frame>
  {
    if list == [] || list[0].kind != DataFrame then []
    else if LastOfRun(list) then [list[0]]
    else [list[0]] + LeadingRun(list[1..])
  }

  function Lefts(fs: seq<Frame>): nat
  {
    if fs == [] then 0 else Left(fs[0]) + Lefts(fs[1..])
  }

  /** That is: the data of one stream, up to and including the first FIN, or up to the first frame
      that is of another kind or stream. */
  lemma {:induction false} LeadingRunMeans(list: seq<Frame>)
    ensures var n := |LeadingRun(list)|;
            && n <= |list| && LeadingRun(list) == list[..n]
            && (forall i :: 0 <= i < n ==> list[i].kind == DataFrame && list[i].id == list[0].id)
            && (forall i :: 0 <= i < n - 1 ==> !list[i].fin)
            && (n < |list| ==> (n > 0 && list[n - 1].fin) || list[n].kind != DataFrame || list[n].id != list[0].id)
  {
    if list != [] && list[0].kind == DataFrame && !LastOfRun(list) {
      var rest := list[1..];
      LeadingRunMeans(rest);
      var n := |LeadingRun(rest)|;
      assert list[..n + 1] == [list[0]] + rest[..n];
      assert forall i :: 0 < i < |list| ==> list[i] == rest[i - 1];
      assert n > 0;
    }
  }

  /** The run once its first frame is gone. */
  lemma RunStep(list: seq<Frame>)
    requires list != [] && list[0].kind == DataFrame
    ensures LastOfRun(list) ==> Lefts(LeadingRun(list)) == Left(list[0]) && |LeadingRun(list)| == 1
    ensures !LastOfRun(list) ==>
              var rest := LeadingRun(list[1..]);
              Lefts(LeadingRun(list)) == Left(list[0]) + Lefts(rest) && |LeadingRun(list)| == 1 + |rest|
  {
    if !LastOfRun(list) {
      assert ([list[0]] + LeadingRun(list[1..]))[1..] == LeadingRun(list[1..]);
    }
  }

  class Inqueue {
    const rcvbuf: nat
    var streamList: seq<Frame>
    var recvList: seq<Frame>
    var rmem: int
    var maxBytes: nat
    var maxData: nat
    var bytes: nat
    var highest: nat
    var streams: seq<Stream>

    /** What the streams carry, and what has been accepted and read of each so far; and how many
        events have been queued. */
    ghost var history: History
    ghost var notices: nat

    function Flow(): FlowControl.Receiver
      reads this
    {
      FlowControl.Receiver(maxBytes, maxData, bytes, highest, ToFlows(streams))
    }

    /** The charged memory is the length of every frame on a list, and of those in `hand`. */
    ghost predicate Charged(hand: nat)
      reads this
    {
      rmem == SumLen(streamList) + SumLen(recvList) + hand
    }

    ghost predicate Shaped()
      reads this
    {
      Fits(history, |streams|) && ListOk(streams, streamList) && QueueOk(streams, recvList)
    }

    ghost predicate Valid()
      reads this
    {
      && Charged(0)
      && Shaped()
      && AllOk(streams, streamList, recvList, history)
      && SettledAll(streams, streamList)
      && FlowControl.ReceiverOk(Flow())
    }

    /**
     Between any two calls, on every stream that was not reset: the receive offset is the least
     offset not accepted, what was read and what can be read are together the first `offset` bytes
     sent, and "all received" holds exactly when FIN and every byte were accepted.
     */
    lemma DeliveredExactly(id: nat)
      requires Valid() && id < |streams| && !streams[id].state.ResetRecvd?
      ensures Fits(history, |streams|) && streams[id].offset <= |history.sent[id]|
      ensures var s, m, cov := streams[id], history.sent[id], history.covered[id];
              && s.offset !in cov && (forall x :: 0 <= x < s.offset ==> x in cov)
              && history.taken[id] + Unread(recvList, id) == m[..s.offset]
              && (Final(s.state) <==> history.fins[id] && forall x :: 0 <= x < |m| ==> x in cov)
              && (s.state == SizeKnown <==> history.fins[id] && !Final(s.state))
    {
      ReassemblyExact(streams[id], id, history.sent[id], streamList, recvList,
                      history.covered[id], history.fins[id], history.taken[id]);
    }

    /** A connection before any data: quic_inq_init and the limits of quic_inq_set_param. */
    constructor (sent: seq<seq<Byte>>, windows: seq<nat>, maxData: nat, rcvbuf: nat)
      requires |windows| == |sent| && maxData < FlowControl.U32_LIMIT
      requires forall i :: 0 <= i < |windows| ==> windows[i] < FlowControl.U32_LIMIT
      ensures Valid() && rmem == 0 && streamList == recvList == []
      ensures this.rcvbuf == rcvbuf && this.maxData == maxBytes == maxData && bytes == highest == 0
      ensures |streams| == |sent| && forall i :: 0 <= i < |sent| ==>
                streams[i] == Stream(0, 0, 0, 0, Receiving, windows[i], windows[i], 0)
      ensures notices == 0
      ensures history.sent == sent && |history.taken| == |history.covered| == |history.fins| == |sent|
      ensures forall i :: 0 <= i < |sent| ==> history.taken[i] == [] && history.covered[i] == {} && !history.fins[i]
    {
      hide AllOk, FlowControl.Sum;
      streamList, recvList, rmem, notices := [], [], 0, 0;
      this.rcvbuf, this.maxData, maxBytes, bytes, highest := rcvbuf, maxData, maxData, 0, 0;
      var fresh' := seq(|windows|, i requires 0 <= i < |windows| =>
        Stream(0, 0, 0, 0, Receiving, windows[i], windows[i], 0));
      streams := fresh';
      history := History(sent, seq(|sent|, i => {}), seq(|sent|, i => false), seq(|sent|, i => []));
      FreshAllOk(fresh', History(sent, seq(|sent|, i => {}), seq(|sent|, i => false), seq(|sent|, i => [])));
      FlowControl.SumZero(FlowControl.Highests(ToFlows(fresh')));
    }

    /** Position `p` of a receive list is behind the events at its front. */
    static predicate AfterEvents(list: seq<Frame>, p: nat)
      requires p <= |list|
    {
      (forall i :: 0 <= i < p ==> list[i].kind == EventFrame) && (p < |list| ==> list[p].kind != EventFrame)
    }

    /** The search of quic_inq_event_recv for the place of an event. */
    static method EventPlace(list: seq<Frame>) returns (p: nat)
      ensures p <= |list| && AfterEvents(list, p)
    {
      p := 0;
      while p < |list| && list[p].kind == EventFrame
        invariant p <= |list| && forall i :: 0 <= i < p ==> list[i].kind == EventFrame
      {
        p := p + 1;
      }
    }

    /** An event joins a receive list behind the events at its front. */
    static ghost predicate EventAdded(list: seq<Frame>, list': seq<Frame>, e: Frame)
    {
      exists p :: 0 <= p <= |list| && AfterEvents(list, p) && list' == list[..p] + [e] + list[p..]
    }

    /** quic_inq_event_recv: an event, which is a type byte and its data, goes ahead of stream and
        datagram data; `subscribed` also covers whether its frame could be allocated. */
    method EventRecv(subscribed: bool, event: seq<Byte>)
      modifies this`recvList, this`rmem, this`notices
      ensures notices == old(notices) + if subscribed then 1 else 0
      ensures forall id :: Unread(recvList, id) == old(Unread(recvList, id))
      ensures rmem - SumLen(recvList) == old(rmem - SumLen(recvList))
      ensures forall f :: f in recvList ==> f in old(recvList) || (f.kind == EventFrame && f.offset == 0)
      ensures forall f :: f in old(recvList) ==> f in recvList
      ensures !subscribed ==> unchanged(this)
      ensures subscribed ==> EventAdded(old(recvList), recvList, Frame(EventFrame, 0, 0, event, false))
    {
      if !subscribed {
        return;
      }
      var f := Frame(EventFrame, 0, 0, event, false);
      var p := EventPlace(recvList);
      Inserted(recvList[..p], f, recvList[p..]);
      assert recvList[..p] + recvList[p..] == recvList;
      rmem := rmem + |f.data|;
      recvList := recvList[..p] + [f] + recvList[p..];
      notices := notices + 1;
    }

    /** Drop the first `overlap` bytes of a frame and the memory charged for them. */
    method TrimFront(frame: Frame, overlap: nat) returns (f: Frame)
      requires overlap <= |frame.data|
      modifies this`rmem
      ensures f == frame.(data := frame.data[overlap..], offset := frame.offset + overlap)
      ensures rmem == old(rmem) - overlap
    {
      f := frame;
      if overlap != 0 {
        rmem := rmem - |f.data|;
        f := f.(data := f.data[overlap..]);
        rmem := rmem + |f.data|;
        f := f.(offset := f.offset + overlap);
      }
    }

    /** quic_inq_stream_tail: deliver the part of a frame beyond the receive offset. */
    method StreamTail(frame: Frame, subscribed: bool, event: seq<Byte>)
      requires Charged(|frame.data|) && Shaped() && AllOk(streams, streamList + [frame], recvList, history)
      requires frame.id < |streams| && !Final(streams[frame.id].state)
      requires Slice(frame, history.sent[frame.id])
      requires frame.offset <= streams[frame.id].offset <= frame.End()
      modifies this`recvList, this`rmem, this`streams, this`notices
      ensures Charged(0) && Shaped() && AllOk(streams, streamList, recvList, history)
      ensures notices == old(notices) + if subscribed && frame.fin then 1 else 0
      ensures streams == old(streams)[frame.id := Delivered(old(streams[frame.id]), frame.End(), frame.fin)]
    {
      hide AllOk, ListOk, QueueOk, Unread, EventAdded, SumLen;
      var id := frame.id;
      var f := TrimFront(frame, streams[id].offset - frame.offset);
      ghost var queue := recvList;
      if f.fin {
        EventRecv(subscribed, event);
        SameQueueOk(streams, queue, recvList);
      }
      f := f.(offset := 0);
      TailMeans(streams, streamList, frame, queue, recvList, f, history);
      var s := streams[id].(offset := streams[id].offset + |f.data|);
      if f.fin {
        s := s.(state := Recvd);
      }
      assert s == Delivered(streams[id], frame.End(), frame.fin);
      streams := streams[id := s];
      recvList := recvList + [f];
    }

    /** Events do not matter to what the data on a list means. */
    lemma SameQueueOk(ss: seq<Stream>, queue: seq<Frame>, queue': seq<Frame>)
      requires QueueOk(ss, queue)
      requires forall f :: f in queue' ==> f in queue || (f.kind == EventFrame && f.offset == 0)
      ensures QueueOk(ss, queue')
    {
    }

    /** The new part `f` of a frame goes to the end of the receive list. */
    lemma TailMeans(ss: seq<Stream>, list: seq<Frame>, frame: Frame, queue: seq<Frame>, queue': seq<Frame>,
                    f: Frame, h: History)
      requires Fits(h, |ss|) && ListOk(ss, list) && QueueOk(ss, queue') && AllOk(ss, list + [frame], queue, h)
      requires frame.id < |ss| && !Final(ss[frame.id].state) && Slice(frame, h.sent[frame.id])
      requires frame.offset <= ss[frame.id].offset <= frame.End()
      requires forall i :: Unread(queue', i) == Unread(queue, i)
      requires f == frame.(data := frame.data[ss[frame.id].offset - frame.offset..], offset := 0)
      ensures var ss' := ss[frame.id := Delivered(ss[frame.id], frame.End(), frame.fin)];
              ListOk(ss', list) && QueueOk(ss', queue' + [f]) && AllOk(ss', list, queue' + [f], h)
      ensures SumLen(queue' + [f]) == SumLen(queue') + |f.data|
    {
      hide AllOk, ListOk, QueueOk, Unread, SumLen;
      SumLenConcat(queue', [f]);
      Single(f, 0);
      forall i ensures Unread(queue' + [f], i) == Unread(queue, i) + (if i == frame.id then f.data else []) {
        UnreadAppended(queue', f, i);
      }
      DeliverAllOk(ss, list, frame, queue, queue' + [f], h);
      DeliverLists(ss, list, queue', f, frame.id, frame.End());
    }

    /** Streams other than `id` have nothing to deliver, and a waiting FIN of `id` is noted in its state. */
    ghost predicate Draining(id: nat)
      reads this
    {
      && id < |streams| && !streams[id].state.ResetRecvd? && !streams[id].state.DataRead?
      && (forall j :: 0 <= j < |streams| && j != id ==> Waiting(streams[j], j, streamList))
      && (forall f :: f in streamList && f.id == id && f.fin ==>
            streams[id].state == SizeKnown || streams[id].state == Recvd)
    }

    /** The flow-control part of a stream. */
    ghost predicate SameLimits(s: Stream, t: Stream)
    {
      s.highest == t.highest && s.maxBytes == t.maxBytes && s.window == t.window && s.bytes == t.bytes
    }

    /** What delivering data may do to a stream: it moves on, and may become fully received. */
    ghost predicate Progressed(s: Stream, t: Stream)
    {
      s.offset <= t.offset && t.finalsz == s.finalsz && (t.state == s.state || t.state == Recvd)
    }

    /** The second half of quic_inq_stream_recv: merge waiting frames that have become contiguous. */
    method Drain(id: nat, subscribed: bool, event: seq<Byte>)
      requires Charged(0) && Shaped() && AllOk(streams, streamList, recvList, history) && Draining(id)
      modifies this`streamList, this`recvList, this`rmem, this`streams, this`notices
      ensures Charged(0) && Shaped() && AllOk(streams, streamList, recvList, history)
      ensures SettledAll(streams, streamList)
      ensures |streams| == |old(streams)| && streams == old(streams)[id := streams[id]]
      ensures SameLimits(old(streams[id]), streams[id]) && Progressed(old(streams[id]), streams[id])
      ensures notices == old(notices) +
              if subscribed && Final(streams[id].state) && !Final(old(streams)[id].state) then 1 else 0
    {
      hide AllOk;
      var i := 0;
      while i < |streamList|
        invariant i <= |streamList|
        invariant Charged(0) && Shaped() && AllOk(streams, streamList, recvList, history) && Draining(id)
        invariant forall j :: 0 <= j < i ==> streamList[j].id < id
        invariant |streams| == |old(streams)| && streams == old(streams)[id := streams[id]]
        invariant SameLimits(old(streams[id]), streams[id]) && Progressed(old(streams[id]), streams[id])
        invariant notices == old(notices) +
                  if subscribed && Final(streams[id].state) && !Final(old(streams)[id].state) then 1 else 0
        decreases |streamList| - i
      {
        var f := streamList[i];
        if f.id < id {
          i := i + 1;
          continue;
        }
        if f.id > id || f.offset > streams[id].offset {
          break;
        }
        DeliverNext(i, id, subscribed, event);
      }
      if streams[id].state == Recvd {
        FinalBounds(streams, streamList, recvList, history, id);
      }
      SettledAfter(streams, streamList, id, i);
    }

    /** One round of the drain loop, for a frame that starts at or before the receive offset. */
    method DeliverNext(i: nat, id: nat, subscribed: bool, event: seq<Byte>)
      requires Charged(0) && Shaped() && AllOk(streams, streamList, recvList, history) && Draining(id)
      requires i < |streamList| && streamList[i].id == id && streamList[i].offset <= streams[id].offset
      modifies this`streamList, this`recvList, this`rmem, this`streams, this`notices
      ensures Charged(0) && Shaped() && AllOk(streams, streamList, recvList, history) && Draining(id)
      ensures streamList == RemoveAt(old(streamList), i)
      ensures |streams| == |old(streams)| && streams == old(streams)[id := streams[id]]
      ensures SameLimits(old(streams[id]), streams[id]) && Progressed(old(streams[id]), streams[id])
      ensures notices == old(notices) +
              if subscribed && Final(streams[id].state) && !Final(old(streams)[id].state) then 1 else 0
    {
      hide AllOk, ListOk, SumLen;
      var f := streamList[i];
      TakeOut(streams, streamList, i, recvList, history);
      streamList := RemoveAt(streamList, i);
      streams := streams[id := streams[id].(frags := streams[id].frags - 1)];
      if streams[id].offset >= f.End() && (streams[id].state == Recvd || !f.fin) {
        DiscardAllOk(streams, streamList, f, recvList, history);
        rmem := rmem - |f.data|;
      } else {
        StreamTail(f, subscribed, event);
      }
    }

    /**
     The search of quic_inq_stream_recv for the place of an out-of-order frame. `known` is true
     exactly when a waiting frame that starts no later covers it, FIN included.
     */
    static method FindPlace(list: seq<Frame>, frame: Frame) returns (p: nat, known: bool)
      requires Sorted(list)
      ensures known <==> CoveredIn(list, frame)
      ensures !known ==> p <= |list| && (forall i :: 0 <= i < p ==> Before(list[i], frame))
      ensures !known && p < |list| ==> Before(frame, list[p])
    {
      p := 0;
      while p < |list|
        invariant p <= |list|
        invariant forall i :: 0 <= i < p ==> Before(list[i], frame) && !Covers(list[i], frame)
      {
        var pos := list[p];
        if pos.id > frame.id || (pos.id == frame.id && pos.offset > frame.offset) {
          forall i | p <= i < |list| ensures !Covers(list[i], frame) {
            assert i == p || Before(list[p], list[i]);
          }
          return p, false;
        }
        if pos.id == frame.id && pos.End() >= frame.End() && (pos.fin || !frame.fin) {
          assert Covers(list[p], frame);
          return p, true;
        }
        p := p + 1;
      }
      return p, false;
    }

    /** All of the frame has been delivered, FIN included. */
    predicate IsDelivered(frame: Frame)
      requires frame.id < |streams|
      reads this
    {
      frame.End() <= streams[frame.id].offset && (streams[frame.id].state == SizeKnown || !frame.fin)
    }

    /** A frame that brings nothing new: already delivered, or covered by one that waits. */
    ghost predicate Redundant(frame: Frame)
      requires frame.id < |streams|
      reads this
    {
      || IsDelivered(frame)
      || CoveredIn(streamList, frame)
    }

    /** How many events an accepted frame gives rise to: for the first data of a stream, for its final
        size, and for the last of its data. */
    static ghost function Notices(s: Stream, t: Stream, list: seq<Frame>, frame: Frame): nat
    {
      (if s.highest == 0 then 1 else 0) +
      (if s.offset < frame.offset then if frame.fin && !CoveredIn(list, frame) then 1 else 0
       else if Final(t.state) then 1 else 0)
    }

    /** The flow-control view of the connection once `end` has been received on a stream. */
    ghost function FlowAfter(r: FlowControl.Receiver, id: nat, end: nat): FlowControl.Receiver
      requires id < |r.streams| && id < |streams|
      reads this
    {
      var r' := FlowControl.Receive(r, id, end);
      r'.(streams := r'.streams[id := r'.streams[id].(open := !Final(streams[id].state))])
    }

    lemma KnownHolds(frame: Frame)
      requires frame.id < |streams| && Redundant(frame)
      requires streams[frame.id].state == SizeKnown ==> HoldsFin(streamList, frame.id)
      ensures forall x :: frame.offset <= x < frame.End() ==>
                x < streams[frame.id].offset || Holds(streamList, frame.id, x)
      ensures frame.fin ==> HoldsFin(streamList, frame.id)
    {
    }

    /**
     quic_inq_stream_recv, for a frame of a stream that has not received all its data, sent by a
     peer whose frames are slices of one byte string. A frame that is accepted adds exactly its
     bytes and its FIN to what the stream has accepted; a refused one changes nothing; a flow
     control error means that the data really went beyond a limit. Other streams stay as they are,
     and the stream itself is neither reset nor read to its end by it. `other` is the receive
     memory charged for frames that are not on these lists.
     */
    method StreamRecv(frame: Frame, other: nat, schedulable: bool, subscribed: bool, event: seq<Byte>) returns (err: RecvError)
      requires Valid() && frame.id < |streams| && !Final(streams[frame.id].state)
      requires Slice(frame, history.sent[frame.id])
      modifies this
      ensures Valid()
      ensures err == Ok ==> history == Accept(old(history), frame)
      ensures err == Ok ==> Flow() == FlowAfter(old(Flow()), frame.id, frame.End())
      ensures |streams| == |old(streams)| && streams == old(streams)[frame.id := streams[frame.id]]
      ensures !streams[frame.id].state.ResetRecvd? && !streams[frame.id].state.DataRead?
      ensures err != Ok ==> unchanged(this)
      ensures err == Ok ==>
                notices == old(notices) + if !subscribed || old(IsDelivered(frame)) then 0
                                          else Notices(old(streams)[frame.id], streams[frame.id], old(streamList), frame)
      ensures err == if old(IsDelivered(frame)) then Ok
                     else if old(rmem) + other + |frame.data| > rcvbuf || !schedulable then NoBuffer
                     else if FlowControl.Admits(old(Flow()), frame.id, frame.End()) then Ok
                     else FlowControlError
    {
      hide AllOk, ListOk, SettledAll, FlowControl.ReceiverOk, SumLen, QueueOk;
      OpenBounds(streams, streamList, recvList, history, frame.id);
      if IsDelivered(frame) {
        KnownHolds(frame);
        AcceptKnown(streams, streamList, frame, recvList, history);
        return Ok;
      }
      if rmem + other + |frame.data| > rcvbuf || !schedulable {
        return NoBuffer;
      }
      err := Admit(frame, subscribed, event);
    }

    /** The rest of quic_inq_stream_recv, from where the frame is charged. */
    method Admit(frame: Frame, subscribed: bool, event: seq<Byte>) returns (err: RecvError)
      requires Valid() && frame.id < |streams| && !Final(streams[frame.id].state)
      requires Slice(frame, history.sent[frame.id]) && !IsDelivered(frame)
      modifies this
      ensures Valid()
      ensures err == if FlowControl.Admits(old(Flow()), frame.id, frame.End()) then Ok else FlowControlError
      ensures err == Ok ==> history == Accept(old(history), frame)
      ensures err == Ok ==> Flow() == FlowAfter(old(Flow()), frame.id, frame.End())
      ensures |streams| == |old(streams)| && streams == old(streams)[frame.id := streams[frame.id]]
      ensures !streams[frame.id].state.ResetRecvd? && !streams[frame.id].state.DataRead?
      ensures err != Ok ==> unchanged(this)
      ensures err == Ok ==>
                notices == old(notices) + if !subscribed then 0
                                          else Notices(old(streams)[frame.id], streams[frame.id], old(streamList), frame)
    {
      hide AllOk, ListOk, SettledAll, FlowControl.ReceiverOk, SumLen, QueueOk, CoveredIn, Notices;
      var id, off := frame.id, frame.End();
      OpenBounds(streams, streamList, recvList, history, id);
      AdmitsTest(id, off);
      hide FlowControl.Admits;
      rmem := rmem + |frame.data|;
      var new' := 0;
      if off > streams[id].highest {
        new' := off - streams[id].highest;
        if highest + new' > maxBytes || streams[id].highest + new' > streams[id].maxBytes {
          rmem := rmem - |frame.data|;
          return FlowControlError;
        }
        if streams[id].finalsz != 0 && off > streams[id].finalsz {
          assert false;
        }
      }
      Place(frame, new', subscribed, event);
      return Ok;
    }

    /** A frame within the limits waits in the list or is delivered. */
    method Place(frame: Frame, new': nat, subscribed: bool, event: seq<Byte>)
      requires Charged(|frame.data|) && Consistent()
      requires frame.id < |streams| && !Final(streams[frame.id].state) && Slice(frame, history.sent[frame.id])
      requires new' == FlowControl.NewBytes(Flow(), frame.id, frame.End())
      requires FlowControl.Admits(Flow(), frame.id, frame.End())
      requires frame.offset <= streams[frame.id].offset ==> streams[frame.id].offset <= frame.End()
      modifies this
      ensures Valid()
      ensures history == Accept(old(history), frame)
      ensures Flow() == FlowAfter(old(Flow()), frame.id, frame.End())
      ensures |streams| == |old(streams)| && streams == old(streams)[frame.id := streams[frame.id]]
      ensures !streams[frame.id].state.ResetRecvd? && !streams[frame.id].state.DataRead?
      ensures notices == old(notices) + if !subscribed then 0
                                        else Notices(old(streams)[frame.id], streams[frame.id], old(streamList), frame)
    {
      hide AllOk, ListOk, SettledAll, FlowControl.ReceiverOk, FlowControl.Admits, SumLen, QueueOk, CoveredIn, Slice;
      var id := frame.id;
      if streams[id].highest == 0 {
        Announce(subscribed, event, |frame.data|);
      }
      if streams[id].offset < frame.offset {
        QueueAhead(frame, new', subscribed, event);
      } else {
        TakeInOrder(frame, new', subscribed, event);
      }
    }

    /** The test of the code. */
    lemma AdmitsTest(id: nat, off: nat)
      requires id < |streams|
      ensures FlowControl.Admits(Flow(), id, off) <==>
              off <= streams[id].highest ||
              (highest + (off - streams[id].highest) <= maxBytes && off <= streams[id].maxBytes)
    {
    }

    /** An event about a stream changes nothing that the streams can read. */
    method Announce(subscribed: bool, event: seq<Byte>, hand: nat)
      requires Charged(hand) && Shaped() && AllOk(streams, streamList, recvList, history)
      modifies this`recvList, this`rmem, this`notices
      ensures notices == old(notices) + if subscribed then 1 else 0
      ensures Charged(hand) && Shaped() && AllOk(streams, streamList, recvList, history)
      ensures !subscribed ==> unchanged(this)
      ensures subscribed ==> EventAdded(old(recvList), recvList, Frame(EventFrame, 0, 0, event, false))
    {
      hide AllOk, ListOk, EventAdded;
      ghost var queue := recvList;
      EventRecv(subscribed, event);
      SameUnreadOk(streams, streamList, queue, recvList, history);
    }

    /** Out of order: wait in the list, unless a waiting frame covers it. */
    method QueueAhead(frame: Frame, new': nat, subscribed: bool, event: seq<Byte>)
      requires Charged(|frame.data|) && Shaped() && AllOk(streams, streamList, recvList, history)
      requires SettledAll(streams, streamList) && FlowControl.ReceiverOk(Flow())
      requires frame.id < |streams| && !Final(streams[frame.id].state) && Slice(frame, history.sent[frame.id])
      requires streams[frame.id].offset < frame.offset
      requires new' == FlowControl.NewBytes(Flow(), frame.id, frame.End())
      requires FlowControl.Admits(Flow(), frame.id, frame.End())
      modifies this`rmem, this`highest, this`streamList, this`recvList, this`streams, this`history, this`notices
      ensures Valid()
      ensures history == Accept(old(history), frame)
      ensures Flow() == FlowAfter(old(Flow()), frame.id, frame.End())
      ensures notices == old(notices) + if subscribed && frame.fin && !CoveredIn(old(streamList), frame) then 1 else 0
      ensures streams == old(streams) || streams == old(streams)[frame.id := Ahead(old(streams[frame.id]), frame)]
    {
      hide AllOk, ListOk, SettledAll, FlowControl.ReceiverOk;
      OpenBounds(streams, streamList, recvList, history, frame.id);
      ListSorted(streams, streamList);
      var p, known := FindPlace(streamList, frame);
      if known {
        KnownHolds(frame);
        AcceptKnown(streams, streamList, frame, recvList, history);
        assert Flow() == FlowAfter(Flow(), frame.id, frame.End());
        rmem := rmem - |frame.data|;
      } else {
        InsertAhead(frame, new', p, subscribed, event);
      }
    }

    /** Put an out-of-order frame in its place and note what it says about the stream. */
    method InsertAhead(frame: Frame, new': nat, p: nat, subscribed: bool, event: seq<Byte>)
      requires Charged(|frame.data|) && Shaped() && AllOk(streams, streamList, recvList, history)
      requires SettledAll(streams, streamList) && FlowControl.ReceiverOk(Flow())
      requires frame.id < |streams| && !Final(streams[frame.id].state) && Slice(frame, history.sent[frame.id])
      requires streams[frame.id].offset < frame.offset && p <= |streamList|
      requires forall i :: 0 <= i < p ==> Before(streamList[i], frame)
      requires p < |streamList| ==> Before(frame, streamList[p])
      requires new' == FlowControl.NewBytes(Flow(), frame.id, frame.End())
      requires FlowControl.Admits(Flow(), frame.id, frame.End())
      modifies this`rmem, this`highest, this`streamList, this`recvList, this`streams, this`history, this`notices
      ensures Valid()
      ensures history == Accept(old(history), frame)
      ensures Flow() == FlowAfter(old(Flow()), frame.id, frame.End())
      ensures notices == old(notices) + if subscribed && frame.fin then 1 else 0
      ensures streams == old(streams)[frame.id := Ahead(old(streams[frame.id]), frame)]
    {
      hide AllOk, ListOk, SettledAll, FlowControl.ReceiverOk, FlowControl.Admits, SumLen, QueueOk;
      var id, off := frame.id, frame.End();
      OpenBounds(streams, streamList, recvList, history, id);
      var s := streams[id];
      if frame.fin {
        if off < s.highest || (s.finalsz != 0 && s.finalsz != off) {
          assert false;
        }
        Announce(subscribed, event, |frame.data|);
        s := s.(state := SizeKnown, finalsz := off);
      }
      s := s.(frags := s.frags + 1, highest := s.highest + new');
      JoinList(frame, new', p, s);
    }

    /** The frame joins the list and the stream its new record. */
    method JoinList(frame: Frame, new': nat, p: nat, s: Stream)
      requires Charged(|frame.data|) && Shaped() && AllOk(streams, streamList, recvList, history)
      requires SettledAll(streams, streamList) && FlowControl.ReceiverOk(Flow())
      requires frame.id < |streams| && !Final(streams[frame.id].state) && Slice(frame, history.sent[frame.id])
      requires streams[frame.id].offset < frame.offset && p <= |streamList|
      requires forall i :: 0 <= i < p ==> Before(streamList[i], frame)
      requires p < |streamList| ==> Before(frame, streamList[p])
      requires new' == FlowControl.NewBytes(Flow(), frame.id, frame.End()) && s == Ahead(streams[frame.id], frame)
      requires FlowControl.Admits(Flow(), frame.id, frame.End())
      modifies this`highest, this`streamList, this`streams, this`history
      ensures Valid()
      ensures history == Accept(old(history), frame)
      ensures Flow() == FlowAfter(old(Flow()), frame.id, frame.End())
      ensures streams == old(streams)[frame.id := s]
    {
      hide AllOk, ListOk, SettledAll, FlowControl.ReceiverOk, FlowControl.Admits, SumLen, QueueOk;
      ghost var flow := Flow();
      FlowControl.ReceiveKeepsOk(flow, frame.id, frame.End());
      AheadOk(frame, p, s);
      assert ToFlows(streams[frame.id := s]) == FlowControl.Receive(flow, frame.id, frame.End()).streams;
      highest := highest + new';
      streamList := InsertAt(streamList, p, frame);
      streams := streams[frame.id := s];
      history := Accept(history, frame);
    }

    lemma AheadOk(frame: Frame, p: nat, s: Stream)
      requires Shaped() && AllOk(streams, streamList, recvList, history) && SettledAll(streams, streamList)
      requires frame.id < |streams| && !Final(streams[frame.id].state) && Slice(frame, history.sent[frame.id])
      requires streams[frame.id].offset < frame.offset && p <= |streamList|
      requires (forall i :: 0 <= i < p ==> Before(streamList[i], frame))
      requires p < |streamList| ==> Before(frame, streamList[p])
      requires s == Ahead(streams[frame.id], frame)
      ensures var list := InsertAt(streamList, p, frame);
              var ss := streams[frame.id := s];
              && ListOk(ss, list) && QueueOk(ss, recvList) && SettledAll(ss, list)
              && AllOk(ss, list, recvList, Accept(history, frame))
              && SumLen(list) == SumLen(streamList) + |frame.data|
    {
      var list := InsertAt(streamList, p, frame);
      var t := Admitted(streams[frame.id], frame, true);
      InsertListOk(streams, streamList, p, frame, s);
      AheadSettled(streams, streamList, p, frame, s);
      InsertedAt(streamList, p, frame);
      hide SumLen, ListOk;
      AcceptAllOk(streams, streamList, frame, recvList, history, true);
      hide AllOk, SettledAll;
      SamePoolOk(streams[frame.id := t], streamList + [frame], list, recvList, Accept(history, frame));
      SameProgressOk(streams[frame.id := t], frame.id, s, list, recvList, Accept(history, frame));
      assert streams[frame.id := t][frame.id := s] == streams[frame.id := s];
    }

    /** In order: deliver the frame and whatever it makes contiguous. */
    method TakeInOrder(frame: Frame, new': nat, subscribed: bool, event: seq<Byte>)
      requires Charged(|frame.data|) && Shaped() && AllOk(streams, streamList, recvList, history)
      requires SettledAll(streams, streamList) && FlowControl.ReceiverOk(Flow())
      requires frame.id < |streams| && !Final(streams[frame.id].state) && Slice(frame, history.sent[frame.id])
      requires frame.offset <= streams[frame.id].offset <= frame.End()
      requires new' == FlowControl.NewBytes(Flow(), frame.id, frame.End())
      requires FlowControl.Admits(Flow(), frame.id, frame.End())
      modifies this
      ensures Valid()
      ensures history == Accept(old(history), frame)
      ensures Flow() == FlowAfter(old(Flow()), frame.id, frame.End())
      ensures notices == old(notices) + if subscribed && Final(streams[frame.id].state) then 1 else 0
      ensures |streams| == |old(streams)| && streams == old(streams)[frame.id := streams[frame.id]]
      ensures Progressed(old(streams[frame.id]), streams[frame.id])
    {
      hide AllOk, ListOk, SettledAll, QueueOk, FlowControl.ReceiverOk, FlowControl.Admits, SumLen, Draining;
      var id := frame.id;
      TakeFirst(frame, new', subscribed, event);
      ghost var flow := Flow();
      Contiguous(id, subscribed, event);
      FlowControl.FinishKeepsReceiver(flow, id, !Final(streams[id].state));
      ghost var ss := FlowControl.Receive(old(Flow()), id, frame.End()).streams;
      assert ss[id := flow.streams[id]][id := Flow().streams[id]] == ss[id := Flow().streams[id]];
    }

    /** The frame itself. */
    method TakeFirst(frame: Frame, new': nat, subscribed: bool, event: seq<Byte>)
      requires Charged(|frame.data|) && Shaped() && AllOk(streams, streamList, recvList, history)
      requires SettledAll(streams, streamList) && FlowControl.ReceiverOk(Flow())
      requires frame.id < |streams| && !Final(streams[frame.id].state) && Slice(frame, history.sent[frame.id])
      requires frame.offset <= streams[frame.id].offset <= frame.End()
      requires new' == FlowControl.NewBytes(Flow(), frame.id, frame.End())
      requires FlowControl.Admits(Flow(), frame.id, frame.End())
      modifies this`recvList, this`rmem, this`streams, this`notices, this`highest, this`history
      ensures Charged(0) && Shaped() && AllOk(streams, streamList, recvList, history) && Draining(frame.id)
      ensures history == Accept(old(history), frame)
      ensures Flow() == FlowAfter(old(Flow()), frame.id, frame.End()) && FlowControl.ReceiverOk(Flow())
      ensures notices == old(notices) + if subscribed && Final(streams[frame.id].state) then 1 else 0
      ensures var s := Admitted(old(streams[frame.id]), frame, false);
              streams == old(streams)[frame.id := Delivered(s, frame.End(), frame.fin)]
    {
      hide AllOk, ListOk, FlowControl.ReceiverOk, FlowControl.Admits, SumLen;
      var id := frame.id;
      FlowControl.ReceiveKeepsOk(Flow(), id, frame.End());
      AcceptAllOk(streams, streamList, frame, recvList, history, false);
      AdmitLists(streams, streamList, recvList, frame);
      highest := highest + new';
      streams := streams[id := streams[id].(highest := streams[id].highest + new')];
      history := Accept(history, frame);
      assert streams == old(streams)[id := Admitted(old(streams[id]), frame, false)];
      ghost var open := Flow();
      assert open == FlowControl.Receive(old(Flow()), id, frame.End());
      StreamTail(frame, subscribed, event);
      FlowControl.FinishKeepsReceiver(open, id, !Final(streams[id].state));
      assert Flow() == FlowAfter(old(Flow()), id, frame.End());
    }

    /** What a delivered frame makes contiguous, if anything waits. */
    method Contiguous(id: nat, subscribed: bool, event: seq<Byte>)
      requires Charged(0) && Shaped() && AllOk(streams, streamList, recvList, history) && Draining(id)
      modifies this`streamList, this`recvList, this`rmem, this`streams, this`notices
      ensures Charged(0) && Shaped() && AllOk(streams, streamList, recvList, history)
      ensures SettledAll(streams, streamList)
      ensures |streams| == |old(streams)| && streams == old(streams)[id := streams[id]]
      ensures SameLimits(old(streams[id]), streams[id]) && Progressed(old(streams[id]), streams[id])
      ensures notices == old(notices) +
              if subscribed && Final(streams[id].state) && !Final(old(streams)[id].state) then 1 else 0
      ensures var flow := old(Flow());
              Flow() == flow.(streams := flow.streams[id := flow.streams[id].(open := !Final(streams[id].state))])
    {
      if streams[id].frags == 0 {
        hide AllOk, SumLen;
        NoFragsSettled(streams, streamList, id);
      } else {
        hide AllOk, ListOk, SumLen;
        Drain(id, subscribed, event);
      }
    }

    // ---------- datagrams, resets and purges ----------

    /** quic_inq_dgram_recv */
    method DgramRecv(data: seq<Byte>, other: nat, schedulable: bool) returns (err: RecvError)
      requires Valid()
      modifies this`recvList, this`rmem
      ensures Valid()
      ensures err == if old(rmem) + other + |data| > rcvbuf || !schedulable then NoBuffer else Ok
      ensures recvList == if err == Ok then old(recvList) + [Frame(DatagramFrame, 0, 0, data, false)] else old(recvList)
    {
      hide AllOk, ListOk, SettledAll, FlowControl.ReceiverOk, Unread;
      if rmem + other + |data| > rcvbuf || !schedulable {
        return NoBuffer;
      }
      var f := Frame(DatagramFrame, 0, 0, data, false);
      assert recvList + [f] == recvList + [f] + [] && recvList + [] == recvList;
      Inserted(recvList, f, []);
      SameUnreadOk(streams, streamList, recvList, recvList + [f], history);
      rmem := rmem + |data|;
      recvList := recvList + [f];
      return Ok;
    }

    /** The loop of quic_inq_list_purge for one stream: what stays, and how many bytes go. */
    static method Purge(list: seq<Frame>, id: nat) returns (kept: seq<Frame>, freed: nat)
      ensures kept == Without(list, id)
      ensures freed == SumLen(list) - SumLen(kept)
    {
      hide Without, SumLen;
      kept, freed := [], 0;
      var i := 0;
      assert list[0..] == list && [] + Without(list, id) == Without(list, id);
      PurgeEnd(id);
      while i < |list|
        invariant i <= |list|
        invariant kept + Without(list[i..], id) == Without(list, id)
        invariant SumLen(kept) + freed + SumLen(list[i..]) == SumLen(list)
      {
        PurgeStep(list, i, id);
        if list[i].kind == DataFrame && list[i].id == id {
          freed := freed + |list[i].data|;
        } else {
          SumLenConcat(kept, [list[i]]);
          assert kept + ([list[i]] + Without(list[i + 1..], id)) == kept + [list[i]] + Without(list[i + 1..], id);
          kept := kept + [list[i]];
        }
        i := i + 1;
      }
      assert list[i..] == [] && kept + [] == kept;
    }

    /** quic_frame_reset_stream_process from where the stream is known and not finished. */
    method ResetStream(id: nat, finalsz: nat, subscribed: bool, event: seq<Byte>) returns (err: RecvError)
      requires Valid() && id < |streams| && !Final(streams[id].state)
      modifies this`recvList, this`streamList, this`rmem, this`streams, this`notices
      ensures Valid()
      ensures err == Ok ==> notices == old(notices) + if subscribed then 1 else 0
      ensures var s := old(streams[id]);
              err == if finalsz < s.highest || (s.finalsz != 0 && s.finalsz != finalsz) then FinalSizeError else Ok
      ensures err != Ok ==> unchanged(this)
      ensures err == Ok ==>
                && streams == old(streams)[id := old(streams[id]).(state := ResetRecvd, finalsz := finalsz)]
                && streamList == Without(old(streamList), id)
                && forall f :: f in recvList ==> f.kind != DataFrame || f.id != id
    {
      hide AllOk, ListOk, SettledAll, FlowControl.ReceiverOk, SumLen, Unread, Without;
      var s := streams[id];
      if finalsz < s.highest || (s.finalsz != 0 && s.finalsz != finalsz) {
        return FinalSizeError;
      }
      Announce(subscribed, event, 0);
      s := s.(state := ResetRecvd, finalsz := finalsz);
      ResetOk(streams, id, s, streamList, recvList, history);
      ResetFlow(id, s);
      WithoutMeaning(recvList, id);
      streams := streams[id := s];
      var kept, freed := Purge(streamList, id);
      streamList := kept;
      rmem := rmem - freed;
      kept, freed := Purge(recvList, id);
      recvList := kept;
      rmem := rmem - freed;
      return Ok;
    }

    /** The accounting of a stream outlives its reset. */
    lemma ResetFlow(id: nat, s: Stream)
      requires id < |streams| && FlowControl.ReceiverOk(Flow())
      requires s == streams[id].(state := ResetRecvd, finalsz := s.finalsz)
      ensures FlowControl.ReceiverOk(FlowControl.Receiver(maxBytes, maxData, bytes, highest, ToFlows(streams[id := s])))
    {
      hide FlowControl.ReceiverOk;
      FlowControl.FinishKeepsReceiver(Flow(), id, false);
      assert ToFlows(streams[id := s]) == ToFlows(streams)[id := ToFlow(streams[id]).(open := false)];
    }

    // ---------- reading ----------

    /** quic_inq_flow_control without memory pressure: the limits move as FlowControl.Consume says. */
    method FlowUpdate(id: nat, n: nat, mss: nat)
      requires id < |streams| && FlowControl.ReceiverOk(Flow())
      requires Fits(history, |streams|) && AllOk(streams, streamList, recvList, history)
      requires ListOk(streams, streamList) && QueueOk(streams, recvList) && SettledAll(streams, streamList)
      modifies this`bytes, this`maxBytes, this`streams
      ensures Flow() == FlowControl.Consume(old(Flow()), id, n, mss) && FlowControl.ReceiverOk(Flow())
      ensures AllOk(streams, streamList, recvList, history)
      ensures ListOk(streams, streamList) && QueueOk(streams, recvList) && SettledAll(streams, streamList)
      ensures |streams| == |old(streams)| && streams == old(streams)[id := streams[id]]
      ensures SameProgress(old(streams[id]), streams[id]) && streams[id].frags == old(streams[id]).frags
      ensures n > 0 ==> FlowControl.Replenished(bytes, maxData, old(maxBytes), maxBytes, mss)
      ensures n > 0 && !Final(streams[id].state) ==>
                FlowControl.Replenished(streams[id].bytes, streams[id].window,
                                        old(streams)[id].maxBytes, streams[id].maxBytes, mss)
    {
      hide AllOk, FlowControl.ReceiverOk, Unread, SumLen, ListOk, QueueOk, SettledAll;
      if n == 0 {
        return;
      }
      FlowControl.WindowNeverWraps(Flow(), id, n, mss);
      FlowControl.ConsumeReplenishes(Flow(), id, n, mss);
      var s := streams[id].(bytes := streams[id].bytes + n);
      bytes := bytes + n;
      var window := maxData % FlowControl.U32_LIMIT;
      if FlowControl.Due(bytes, window, maxBytes, mss) {
        maxBytes := bytes + window;
      }
      window := s.window % FlowControl.U32_LIMIT;
      if !Final(s.state) && FlowControl.Due(s.bytes, window, s.maxBytes, mss) {
        s := s.(maxBytes := s.bytes + window);
      }
      SameProgressOk(streams, id, s, streamList, recvList, history);
      SameProgressLists(streams, id, s, streamList, recvList);
      streams := streams[id := s];
      assert Flow() == FlowControl.Consume(old(Flow()), id, n, mss);
    }

    /** Everything but the charge: what holds throughout quic_recvmsg. */
    ghost predicate Consistent()
      reads this
    {
      && Shaped()
      && AllOk(streams, streamList, recvList, history)
      && SettledAll(streams, streamList)
      && FlowControl.ReceiverOk(Flow())
    }

    /** Read the first `n` unread bytes of the frame at the head, which stays. */
    method ReadPartly(n: nat) returns (chunk: seq<Byte>)
      requires Consistent() && recvList != [] && recvList[0].kind == DataFrame
      requires recvList[0].offset + n <= |recvList[0].data|
      modifies this`recvList, this`history
      ensures Consistent() && SumLen(recvList) == old(SumLen(recvList))
      ensures var f := old(recvList)[0];
              recvList == [f.(offset := f.offset + n)] + old(recvList)[1..]
      ensures |chunk| == n && history == Took(old(history), old(recvList)[0].id, chunk)
    {
      hide AllOk, ListOk, SettledAll, FlowControl.ReceiverOk, SumLen, Unread;
      var f := recvList[0];
      chunk := f.data[f.offset..f.offset + n];
      ReadPart(recvList, n);
      var queue := [f.(offset := f.offset + n)] + recvList[1..];
      ReadOk(streams, streamList, recvList, queue, history, f.id, chunk);
      assert QueueOk(streams, queue);
      recvList := queue;
      history := Took(history, f.id, chunk);
    }

    /** The stream once a frame of its data was read to the end: FIN completes it. */
    static function AfterRead(s: Stream, fin: bool): Stream
    {
      if fin then s.(state := DataRead) else s
    }

    /** Read the rest of the frame at the head and release it; FIN completes the stream. */
    method ReadFully() returns (chunk: seq<Byte>)
      requires Consistent() && recvList != [] && recvList[0].kind == DataFrame
      modifies this`recvList, this`history, this`streams
      ensures Consistent() && Flow() == old(Flow())
      ensures recvList == old(recvList)[1..]
      ensures SumLen(recvList) == old(SumLen(recvList)) - |old(recvList)[0].data|
      ensures |chunk| == |old(recvList)[0].data| - old(recvList)[0].offset
      ensures var f := old(recvList)[0];
              f.id < |old(streams)| && streams == old(streams)[f.id := AfterRead(old(streams)[f.id], f.fin)]
      ensures history == Took(old(history), old(recvList)[0].id, chunk)
    {
      hide AllOk, ListOk, SettledAll, FlowControl.ReceiverOk, SumLen, Unread;
      var f := recvList[0];
      assert f in recvList;
      chunk := f.data[f.offset..];
      ReadWhole(recvList);
      ReadOk(streams, streamList, recvList, recvList[1..], history, f.id, chunk);
      assert QueueOk(streams, recvList[1..]);
      recvList := recvList[1..];
      history := Took(history, f.id, chunk);
      if f.fin {
        DataReadOk(streams, f.id, streamList, recvList, history);
        var s := streams[f.id].(state := DataRead);
        assert ToFlows(streams[f.id := s]) == ToFlows(streams);
        streams := streams[f.id := s];
      }
    }

    /** The first `used` frames are gone, and the rest is as it was except for how much of its head was read. */
    static ghost predicate UsedUp(list: seq<Frame>, list': seq<Frame>, used: nat)
    {
      && used <= |list| && |list'| == |list| - used
      && (list' != [] ==> list'[0] == list[used].(offset := list'[0].offset) && list'[1..] == list[used + 1..])
    }

    /** The last frame read to the end carried FIN. */
    static predicate FinUsed(list: seq<Frame>, used: nat)
    {
      0 < used <= |list| && list[used - 1].fin
    }

    /**
     The loop of quic_recvmsg on stream data: in order, across frames of one stream, until the
     buffer is full, a copy falls short, or FIN or another kind of frame comes next. As much is read
     as there is, is asked for and can be copied. `used` frames are read to the end, all of the run
     when the buffer is larger; of the next one at most a part is.
     */
    method ReadLoop(msgLen: nat, room: nat) returns (out: seq<Byte>, freed: nat, ghost used: nat)
      requires Consistent() && Charged(0) && recvList != [] && recvList[0].kind == DataFrame
      modifies this`recvList, this`history, this`streams
      ensures Consistent() && Charged(freed) && Flow() == old(Flow())
      ensures |out| == Least(Lefts(LeadingRun(old(recvList))), msgLen, room)
      ensures used <= |LeadingRun(old(recvList))|
      ensures msgLen > |out| == Lefts(LeadingRun(old(recvList))) ==> used == |LeadingRun(old(recvList))|
      ensures freed == old(SumLen(recvList)) - SumLen(recvList)
      ensures history == Took(old(history), old(recvList)[0].id, out)
      ensures UsedUp(old(recvList), recvList, used)
      ensures var id := old(recvList)[0].id;
              && id < |old(streams)|
              && streams == old(streams)[id := AfterRead(old(streams)[id], FinUsed(old(recvList), used))]
              && streams[id].state == (if used > 0 && old(recvList)[used - 1].fin then DataRead else old(streams)[id].state)
    {
      hide AllOk, ListOk, SettledAll, FlowControl.ReceiverOk, SumLen, Unread, Took, QueueOk, LeadingRun, Lefts, Consistent,
        ToFlows;
      ghost var run := LeadingRun(recvList);
      var id := recvList[0].id;
      ghost var h := history;
      out, freed, used := [], 0, 0;
      ConsistentHead();
      TookNothing(h, id);
      assert streams[id := streams[id]] == streams;
      while true
        invariant Consistent() && Charged(freed) && Flow() == old(Flow())
        invariant recvList != [] && recvList[0].kind == DataFrame && recvList[0].id == id < |h.taken|
        invariant |out| <= msgLen && |out| <= room && history == Took(h, id, out)
        invariant |out| + Lefts(LeadingRun(recvList)) == Lefts(run) && used + |LeadingRun(recvList)| == |run|
        invariant freed == old(SumLen(recvList)) - SumLen(recvList)
        invariant used <= |old(recvList)| && recvList == old(recvList)[used..] && streams == old(streams)
        invariant !FinUsed(old(recvList), used)
        decreases |recvList|
      {
        RunStep(recvList);
        ghost var list := recvList;
        var f := recvList[0];
        var part, whole := ReadFrame(msgLen - |out|, room - |out|);
        TookTwice(h, id, out, part);
        out := out + part;
        if !whole {
          return;
        }
        assert recvList == list[1..];
        freed := freed + |f.data|;
        used := used + 1;
        if f.fin || recvList == [] || |out| >= msgLen {
          return;
        }
        if recvList[0].kind != DataFrame || recvList[0].id != id {
          return;
        }
      }
    }

    /** One round: as much of the frame at the head as is asked for and can be copied; a frame that
        is read to its end is released. */
    method ReadFrame(msgLen: nat, room: nat) returns (chunk: seq<Byte>, whole: bool)
      requires Consistent() && recvList != [] && recvList[0].kind == DataFrame
      modifies this`recvList, this`history, this`streams
      ensures Consistent() && Flow() == old(Flow())
      ensures var f := old(recvList)[0];
              && |chunk| == Least(Left(f), msgLen, room) && whole == (|chunk| == Left(f))
              && f.id < |old(streams)| && f.id < |old(history).taken| && history == Took(old(history), f.id, chunk)
              && SumLen(recvList) == old(SumLen(recvList)) - (if whole then |f.data| else 0)
              && recvList == (if whole then [] else [f.(offset := f.offset + |chunk|)]) + old(recvList)[1..]
              && streams == old(streams)[f.id := AfterRead(old(streams)[f.id], whole && f.fin)]
    {
      hide AllOk, ListOk, SettledAll, FlowControl.ReceiverOk, SumLen, Unread, Took, QueueOk;
      HeadFits();
      var f := recvList[0];
      var left := |f.data| - f.offset;
      var copy := FlowControl.Min(left, msgLen);
      // copy_to_iter copies what it has room for
      var got := FlowControl.Min(copy, room);
      whole := got == left;
      if whole {
        chunk := ReadFully();
      } else {
        chunk := ReadPartly(got);
      }
    }

    lemma ConsistentHead()
      requires Consistent() && recvList != []
      ensures recvList[0].offset <= |recvList[0].data|
      ensures recvList[0].kind == DataFrame ==> recvList[0].id < |streams| == |history.taken|
    {
      HeadFits();
    }

    lemma HeadFits()
      requires Shaped() && recvList != []
      ensures recvList[0].offset <= |recvList[0].data|
      ensures recvList[0].kind == DataFrame ==> recvList[0].id < |streams| == |history.taken|
    {
      assert recvList[0] in recvList;
    }

    /** A frame that is read on its own: a datagram or an event. */
    method ReadSingle(msgLen: nat, room: nat) returns (out: seq<Byte>)
      requires Valid() && recvList != [] && recvList[0].kind != DataFrame
      modifies this`recvList, this`rmem
      ensures Valid() && |out| == Least(Left(old(recvList[0])), msgLen, room)
      ensures var f := old(recvList[0]);
              && f.offset + |out| <= |f.data| && out == f.data[f.offset..f.offset + |out|]
              && recvList == (if |out| == |f.data| - f.offset then [] else [f.(offset := f.offset + |out|)])
                             + old(recvList)[1..]
    {
      hide AllOk, ListOk, SettledAll, FlowControl.ReceiverOk, SumLen, Unread;
      HeadFits();
      var f := recvList[0];
      var left := |f.data| - f.offset;
      var copy := FlowControl.Min(left, msgLen);
      var got := FlowControl.Min(copy, room);
      out := f.data[f.offset..f.offset + got];
      ReadWhole(recvList);
      if got != left {
        var queue := [f.(offset := f.offset + got)] + recvList[1..];
        ReadWhole(queue);
        assert queue[1..] == recvList[1..];
        SameUnreadOk(streams, streamList, recvList, queue, history);
        assert QueueOk(streams, queue);
        recvList := queue;
      } else {
        SameUnreadOk(streams, streamList, recvList, recvList[1..], history);
        recvList := recvList[1..];
        rmem := rmem - |f.data|;
      }
    }

    /**
     quic_recvmsg on a receive list that is not empty; `room` is how much copy_to_iter can copy in
     all. What it hands over on a stream is the next part of that stream's byte string, as long as
     what is ready, asked for and can be copied allows; the memory of every frame used up is released, the
     limits move by what was freed, and the stream is read to its end exactly when FIN is used up.
     */
    method RecvMsg(msgLen: nat, room: nat, peek: bool, mss: nat) returns (out: seq<Byte>, freed: nat, ghost used: nat)
      requires Valid() && recvList != []
      modifies this
      ensures Valid()
      ensures peek ==> unchanged(this)
      ensures |out| == Least(if peek || old(recvList)[0].kind != DataFrame then Left(old(recvList)[0])
                             else Lefts(LeadingRun(old(recvList))), msgLen, room)
      ensures peek || old(recvList)[0].kind != DataFrame ==>
                out <= old(recvList)[0].data[FlowControl.Min(old(recvList)[0].offset, |old(recvList)[0].data|)..]
      ensures old(recvList)[0].kind == DataFrame && !peek ==>
                var id := old(recvList)[0].id;
                && id < |old(history).taken| && id < |old(streams)|
                && history == Took(old(history), id, out)
                && freed == old(SumLen(recvList)) - SumLen(recvList)
                && Flow() == FlowControl.Consume(old(Flow()), id, freed, mss)
                && UsedUp(old(recvList), recvList, used) && used <= |LeadingRun(old(recvList))|
                && (msgLen > |out| == Lefts(LeadingRun(old(recvList))) ==> used == |LeadingRun(old(recvList))|)
                && |streams| == |old(streams)| && streams == old(streams)[id := streams[id]]
                && SameProgress(AfterRead(old(streams)[id], FinUsed(old(recvList), used)), streams[id])
                && streams[id].state == (if used > 0 && old(recvList)[used - 1].fin then DataRead else old(streams)[id].state)
      ensures old(recvList)[0].kind != DataFrame ==> unchanged(this`history, this`streams) && Flow() == old(Flow())
    {
      hide AllOk, ListOk, SettledAll, FlowControl.ReceiverOk, SumLen, Unread, Took, QueueOk, LeadingRun, Lefts;
      HeadFits();
      freed, used := 0, 0;
      var f := recvList[0];
      if peek {
        var got := FlowControl.Min(FlowControl.Min(|f.data| - f.offset, msgLen), room);
        out := f.data[f.offset..f.offset + got];
        return;
      }
      if f.kind != DataFrame {
        out := ReadSingle(msgLen, room);
        assert out == f.data[f.offset..][..|out|];
        return;
      }
      out, freed, used := ReadLoop(msgLen, room);
      FlowUpdate(f.id, freed, mss);
      if streams[f.id].state == DataRead {
        PurgeRead(f.id);
      }
      rmem := rmem - freed;
    }

    /** The purge after the last byte was read finds nothing left of the stream. */
    method PurgeRead(id: nat)
      requires Consistent() && id < |streams| && streams[id].state == DataRead
      modifies this`streamList, this`rmem
      ensures Consistent() && unchanged(this`streamList, this`rmem)
    {
      hide SumLen, Unread;
      DataReadOk(streams, id, streamList, recvList, history);
      WithoutNone(streamList, id);
      var kept, freed := Purge(streamList, id);
      streamList := kept;
      rmem := rmem - freed;
    }
  }
}
