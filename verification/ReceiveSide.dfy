/**
 The receiving side of a socket: STREAM, datagram and CRYPTO frames and events together, the receive
 memory they share (modules/net/quic/inqueue.c), and quic_recvmsg of socket.c on all of them.
 */
module ReceiveSide {
  import opened Wire
  import opened Reassembly
  import FlowControl
  import I = Inqueue
  import H = Handshake

  /** The type byte at the front of the event. */
  const EVENT_NEW_SESSION_TICKET: Byte := 9

  class ReceiveSide {
    const data: I.Inqueue
    const crypto: H.CryptoQueue

    ghost predicate Valid()
      reads this, data, crypto
    {
      data.Valid() && crypto.Valid()
    }

    /** sk_rmem_alloc */
    function Charge(): int
      reads data, crypto
    {
      data.rmem + crypto.rmem
    }

    /** The socket is charged exactly for the frames on its lists. */
    lemma ChargeExact()
      requires Valid()
      ensures Charge() == SumLen(data.streamList) + SumLen(data.recvList) + SumLen(crypto.waiting) + SumLen(crypto.ready)
    {
    }

    constructor (data: I.Inqueue, crypto: H.CryptoQueue)
      requires data.Valid() && crypto.Valid()
      ensures this.data == data && this.crypto == crypto && Valid()
    {
      this.data, this.crypto := data, crypto;
    }

    /** quic_inq_stream_recv against the memory of the whole socket. */
    method StreamData(frame: Frame, schedulable: bool, subscribed: bool, event: seq<Byte>) returns (err: I.RecvError)
      requires Valid() && frame.id < |data.streams| && !Final(data.streams[frame.id].state)
      requires Slice(frame, data.history.sent[frame.id])
      modifies data
      ensures Valid()
      ensures err == if old(data.IsDelivered(frame)) then I.Ok
                     else if old(Charge()) + |frame.data| > data.rcvbuf || !schedulable then I.NoBuffer
                     else if FlowControl.Admits(old(data.Flow()), frame.id, frame.End()) then I.Ok
                     else I.FlowControlError
      ensures err == I.Ok ==> data.history == Accept(old(data.history), frame)
      ensures err == I.Ok ==> data.Flow() == data.FlowAfter(old(data.Flow()), frame.id, frame.End())
      ensures |data.streams| == |old(data.streams)|
      ensures data.streams == old(data.streams)[frame.id := data.streams[frame.id]]
      ensures !data.streams[frame.id].state.ResetRecvd? && !data.streams[frame.id].state.DataRead?
      ensures err != I.Ok ==> unchanged(data)
      ensures err == I.Ok ==>
                data.notices == old(data.notices) +
                  if !subscribed || old(data.IsDelivered(frame)) then 0
                  else I.Inqueue.Notices(old(data.streams)[frame.id], data.streams[frame.id], old(data.streamList), frame)
    {
      ChargeExact();
      err := data.StreamRecv(frame, crypto.rmem, schedulable, subscribed, event);
    }

    /** quic_inq_dgram_recv against the memory of the whole socket. */
    method Datagram(bytes: seq<Byte>, schedulable: bool) returns (err: I.RecvError)
      requires Valid()
      modifies data`recvList, data`rmem
      ensures Valid()
      ensures err == if old(Charge()) + |bytes| > data.rcvbuf || !schedulable then I.NoBuffer else I.Ok
      ensures Charge() == old(Charge()) + if err == I.Ok then |bytes| else 0
      ensures data.recvList == old(data.recvList) + if err == I.Ok then [Frame(DatagramFrame, 0, 0, bytes, false)] else []
    {
      ChargeExact();
      SumLenConcat(data.recvList, [Frame(DatagramFrame, 0, 0, bytes, false)]);
      Single(Frame(DatagramFrame, 0, 0, bytes, false), 0);
      err := data.DgramRecv(bytes, crypto.rmem, schedulable);
    }

    /** quic_inq_handshake_recv against the memory of the whole socket; a ticket that becomes
        complete is announced, once. */
    method CryptoData(frame: Frame, schedulable: bool, granted: bool, subscribed: bool) returns (err: H.CryptoError)
      requires Valid() && frame.id < H.LEVELS && !frame.fin && Slice(frame, crypto.history.sent[frame.id])
      modifies data`recvList, data`rmem, data`notices, crypto
      ensures Valid()
      ensures err == if frame.End() <= old(crypto.offsets)[frame.id] then H.Ok
                     else if old(Charge()) + |frame.data| > data.rcvbuf || !schedulable then H.BufferExceeded
                     else H.Ok
      ensures err != H.Ok ==> unchanged(data) && unchanged(crypto)
      ensures err == H.Ok ==> crypto.history.sent == old(crypto.history.sent)
      ensures err == H.Ok ==> crypto.history.covered == Accept(old(crypto.history), frame).covered
      ensures old(crypto.ticketReady) ==> crypto.ticketReady && crypto.ticket == old(crypto.ticket)
      ensures granted && old(crypto.Collected()) && crypto.offsets[0] <= H.TICKET_MAX_LEN ==> crypto.Collected()
      ensures crypto.ticketReady && !old(crypto.ticketReady) ==> H.MessageComplete(crypto.ticket)
      ensures crypto.ticketReady && !old(crypto.ticketReady) && subscribed ==>
                I.Inqueue.EventAdded(old(data.recvList), data.recvList,
                                     Frame(EventFrame, 0, 0, [EVENT_NEW_SESSION_TICKET] + crypto.ticket, false))
      ensures crypto.ticketReady == old(crypto.ticketReady) || !subscribed ==> unchanged(data)
    {
      hide AllOk, ListOk, SettledAll, SumLen, QueueOk, Slice, H.MessageComplete;
      ChargeExact();
      var was := crypto.ticketReady;
      err := crypto.Recv(frame, data.rmem, data.rcvbuf, schedulable, granted);
      if crypto.ticketReady && !was {
        data.Announce(subscribed, [EVENT_NEW_SESSION_TICKET] + crypto.ticket, 0);
      }
    }

    /** quic_recvmsg: CRYPTO frames are at the front of the receive list. */
    method RecvMsg(msgLen: nat, room: nat, peek: bool, mss: nat) returns (out: seq<Byte>)
      requires Valid() && (crypto.ready != [] || data.recvList != [])
      modifies data, crypto
      ensures Valid()
      ensures |out| == Least(if old(crypto.ready) != [] then Left(old(crypto.ready)[0])
                             else if peek || old(data.recvList)[0].kind != DataFrame then Left(old(data.recvList)[0])
                             else I.Lefts(I.LeadingRun(old(data.recvList))), msgLen, room)
      ensures peek ==> unchanged(data) && unchanged(crypto)
      ensures old(crypto.ready) == [] ==> unchanged(crypto)
      ensures old(crypto.ready) != [] ==> unchanged(data)
      ensures old(crypto.ready) != [] && !peek ==>
                var level := old(crypto.ready)[0].id;
                level < |old(crypto.history).taken| && crypto.history == Took(old(crypto.history), level, out)
      ensures old(crypto.ready) == [] && !peek && old(data.recvList)[0].kind == DataFrame ==>
                var id := old(data.recvList)[0].id;
                && id < |old(data.history).taken| && data.history == Took(old(data.history), id, out)
                && id < |data.streams| == |old(data.streams)|
                && data.streams == old(data.streams)[id := data.streams[id]]
                && (data.streams[id].state == old(data.streams)[id].state || data.streams[id].state == DataRead)
                && !data.streams[id].state.ResetRecvd?
                && SumLen(data.recvList) <= old(SumLen(data.recvList))
                && data.Flow() == FlowControl.Consume(old(data.Flow()), id,
                                                      old(SumLen(data.recvList)) - SumLen(data.recvList), mss)
      ensures old(crypto.ready) == [] && !peek && old(data.recvList)[0].kind != DataFrame ==>
                unchanged(data`streams, data`history)
      ensures peek || old(crypto.ready) != [] || old(data.recvList)[0].kind != DataFrame ==>
                var f := if old(crypto.ready) != [] then old(crypto.ready)[0] else old(data.recvList)[0];
                f.offset <= |f.data| && out <= f.data[f.offset..]
    {
      hide I.Inqueue.Valid, H.CryptoQueue.Valid;
      if crypto.ready == [] {
        out := RecvData(msgLen, room, peek, mss);
      } else {
        out := RecvCrypto(msgLen, room, peek);
      }
    }

    /** A CRYPTO frame is read alone. */
    method RecvCrypto(msgLen: nat, room: nat, peek: bool) returns (out: seq<Byte>)
      requires crypto.Valid() && crypto.ready != []
      modifies crypto
      ensures crypto.Valid() && |out| == Least(Left(old(crypto.ready)[0]), msgLen, room)
      ensures peek ==> unchanged(crypto)
      ensures var f := old(crypto.ready)[0];
              f.offset <= |f.data| && out <= f.data[f.offset..]
      ensures !peek ==>
                var level := old(crypto.ready)[0].id;
                level < |old(crypto.history).taken| && crypto.history == Took(old(crypto.history), level, out)
    {
      hide AllOk, ListOk, SettledAll, SumLen, Unread, H.MessageComplete;
      var f := crypto.ready[0];
      assert f in crypto.ready;
      if peek {
        var got := Least(|f.data| - f.offset, msgLen, room);
        out := f.data[f.offset..f.offset + got];
      } else {
        out := crypto.Read(msgLen, room);
      }
      assert out == f.data[f.offset..][..|out|];
    }

    /** The part of the list behind the CRYPTO frames. */
    method RecvData(msgLen: nat, room: nat, peek: bool, mss: nat) returns (out: seq<Byte>)
      requires data.Valid() && data.recvList != []
      modifies data
      ensures data.Valid()
      ensures |out| == Least(if peek || old(data.recvList)[0].kind != DataFrame then Left(old(data.recvList)[0])
                             else I.Lefts(I.LeadingRun(old(data.recvList))), msgLen, room)
      ensures peek ==> unchanged(data)
      ensures peek || old(data.recvList)[0].kind != DataFrame ==>
                var f := old(data.recvList)[0];
                f.offset <= |f.data| && out <= f.data[f.offset..]
      ensures !peek && old(data.recvList)[0].kind == DataFrame ==>
                var id := old(data.recvList)[0].id;
                && id < |old(data.history).taken| && data.history == Took(old(data.history), id, out)
                && id < |data.streams| == |old(data.streams)|
                && data.streams == old(data.streams)[id := data.streams[id]]
                && (data.streams[id].state == old(data.streams)[id].state || data.streams[id].state == DataRead)
                && !data.streams[id].state.ResetRecvd?
                && SumLen(data.recvList) <= old(SumLen(data.recvList))
                && data.Flow() == FlowControl.Consume(old(data.Flow()), id,
                                                      old(SumLen(data.recvList)) - SumLen(data.recvList), mss)
      ensures old(data.recvList)[0].kind != DataFrame ==> unchanged(data`streams, data`history)
    {
      hide AllOk, ListOk, SettledAll, SumLen, Unread;
      data.HeadFits();
      assert data.recvList[0] in data.recvList;
      var freed;
      ghost var used;
      out, freed, used := data.RecvMsg(msgLen, room, peek, mss);
    }
  }
}
