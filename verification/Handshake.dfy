/**
 CRYPTO frames in modules/net/quic/inqueue.c: the handshake messages of each level are a byte
 string that is reassembled like a stream, without FIN and flow control.

 CRYPTO frames go before all events and data of the receive list, so they are a list of their own
 here; what they are charged for is a part of the socket's receive memory.
 */
module Handshake {
  import opened Wire
  import opened Reassembly

  const TICKET_MAX_LEN := 4096

  /** Level 0 is 1-RTT, 1 Initial, 2 Handshake. */
  const LEVELS := 3

  datatype CryptoError = Ok | BufferExceeded

  /** What reassembly keeps of each level. */
  function Levels(offsets: seq<nat>, sent: seq<seq<Byte>>, list: seq<Frame>): (ss: seq<Stream>)
    requires |offsets| == |sent|
    ensures |ss| == |offsets|
    ensures forall i :: 0 <= i < |ss| ==>
              ss[i] == Stream(offsets[i], |sent[i]|, 0, Count(list, i), Receiving, 0, 0, 0)
  {
    seq(|offsets|, i requires 0 <= i < |offsets| =>
      Stream(offsets[i], |sent[i]|, 0, Count(list, i), Receiving, 0, 0, 0))
  }

  /** A TLS handshake message is complete: a type byte, a length of three bytes, and that many bytes. */
  predicate MessageComplete(s: seq<Byte>)
  {
    |s| >= 4 && |s| >= Value(s[1..4]) + 4
  }

  class CryptoQueue {
    var waiting: seq<Frame>
    var ready: seq<Frame>
    var rmem: int
    var offsets: seq<nat>
    var ticket: seq<Byte>
    var ticketReady: bool

    /** What the peer sends at each level, and what has been accepted and taken of it so far. */
    ghost var history: History

    ghost function Streams(): seq<Stream>
      requires |offsets| == |history.sent|
      reads this
    {
      Levels(offsets, history.sent, waiting)
    }

    ghost predicate Charged(hand: nat)
      reads this
    {
      rmem == SumLen(waiting) + SumLen(ready) + hand
    }

    ghost predicate Shaped()
      reads this
    {
      && |offsets| == LEVELS && Fits(history, LEVELS) && history.fins == [false, false, false]
      && ListOk(Streams(), waiting)
      && (forall f :: f in ready ==> f.kind == DataFrame && 0 < f.id < LEVELS && f.offset <= |f.data| && !f.fin)
      && ticket <= history.taken[0] && (ticketReady ==> MessageComplete(ticket))
    }

    ghost predicate Meaning(pool: seq<Frame>)
      requires |offsets| == LEVELS && Fits(history, LEVELS)
      reads this
    {
      AllOk(Streams(), pool, ready, history)
    }

    ghost predicate Valid()
      reads this
    {
      Charged(0) && Shaped() && Meaning(waiting) && SettledAll(Streams(), waiting)
    }

    /**
     Between any two calls, at every level: the receive offset is the least offset not accepted,
     and what was taken and what is ready are together the first `offset` bytes of the level.
     */
    lemma DeliveredExactly(level: nat)
      requires Valid() && level < LEVELS
      ensures Fits(history, LEVELS) && |offsets| == LEVELS && offsets[level] <= |history.sent[level]|
      ensures var cov := history.covered[level];
              && offsets[level] !in cov && (forall x :: 0 <= x < offsets[level] ==> x in cov)
              && history.taken[level] + Unread(ready, level) == history.sent[level][..offsets[level]]
    {
      ReassemblyExact(Streams()[level], level, history.sent[level], waiting, ready,
                      history.covered[level], history.fins[level], history.taken[level]);
    }

    constructor (sent: seq<seq<Byte>>)
      requires |sent| == LEVELS
      ensures Valid() && rmem == 0 && ticket == [] && !ticketReady && |history.taken| == LEVELS && Collected()
      ensures history.sent == sent && history.taken == [[], [], []] && history.covered == [{}, {}, {}]
    {
      waiting, ready, rmem, offsets, ticket, ticketReady := [], [], 0, [0, 0, 0], [], false;
      history := History(sent, [{}, {}, {}], [false, false, false], [[], [], []]);
    }

    /** The session ticket is complete, or is all that was delivered at level 0 so far and not a
        complete message. */
    ghost predicate Collected()
      requires |history.taken| == LEVELS
      reads this
    {
      ticketReady || (ticket == history.taken[0] && !MessageComplete(ticket))
    }

    /** So the first message of level 0 is available as soon as it has been delivered, as long as
        memory was granted and no more than a ticket's size was delivered by then; see Recv. */
    lemma TicketAvailable()
      requires Valid() && Collected() && MessageComplete(history.taken[0])
      ensures ticketReady && MessageComplete(ticket) && ticket <= history.sent[0]
    {
      ReassemblyExact(Streams()[0], 0, history.sent[0], waiting, ready,
                      history.covered[0], history.fins[0], history.taken[0]);
    }

    /** Data that continues a ticket which is not complete yet, and still is of a ticket's size. */
    predicate Collects(offset: nat, part: seq<Byte>)
      reads this
    {
      var end := offset + |part|;
      !ticketReady && end <= TICKET_MAX_LEN && end == |ticket| + |part|
    }

    /** quic_inq_handshake_tail at level 0: session tickets are collected, everything else is dropped. */
    method CollectTicket(part: seq<Byte>, offset: nat, granted: bool)
      requires |history.taken| == LEVELS && ticket <= history.taken[0] && offset == |history.taken[0]|
      modifies this`ticket, this`ticketReady
      ensures ticket <= history.taken[0] + part
      ensures old(Collects(offset, part)) ==> ticket == if granted then history.taken[0] + part else []
      ensures !old(Collects(offset, part)) ==> ticket == old(ticket)
      ensures ticketReady <==> old(ticketReady) || (old(Collects(offset, part)) && granted && MessageComplete(ticket))
    {
      if Collects(offset, part) {
        assert ticket == history.taken[0];
        if !granted {
          ticket := [];
          return;
        }
        ticket := ticket + part;
        if |ticket| >= 4 {
          var length := Value(ticket[1..4]);
          if |ticket| >= length + 4 {
            ticketReady := true;
          }
        }
      }
    }

    /** quic_inq_handshake_tail: hand over the part of a frame beyond the receive offset. */
    method Tail(frame: Frame, granted: bool)
      requires Charged(|frame.data|) && Shaped() && Meaning(waiting + [frame])
      requires frame.id < LEVELS && !frame.fin && Slice(frame, history.sent[frame.id])
      requires frame.offset <= offsets[frame.id] <= frame.End()
      modifies this`ready, this`rmem, this`offsets, this`ticket, this`ticketReady, this`history
      ensures Charged(0) && Shaped() && Meaning(waiting)
      ensures offsets == old(offsets)[frame.id := frame.End()]
      ensures frame.id > 0 ==>
                && history == old(history) && ticket == old(ticket)
                && ready == old(ready) + [Frame(DataFrame, frame.id, 0, frame.data[old(offsets)[frame.id] - frame.offset..], false)]
      ensures frame.id == 0 ==>
                && ready == old(ready)
                && history == Took(old(history), 0, frame.data[old(offsets)[0] - frame.offset..])
      ensures old(ticketReady) ==> ticketReady && ticket == old(ticket)
      ensures granted && old(Collected()) && offsets[0] <= TICKET_MAX_LEN ==> Collected()
    {
      hide AllOk, Unread, Slice, MessageComplete, SumLen, Count, ListOk;
      var level := frame.id;
      var overlap := offsets[level] - frame.offset;
      var part := frame.data[overlap..];
      var f := Frame(DataFrame, level, 0, part, false);
      PartReady(offsets, history, waiting, ready, frame);
      SameLists(offsets, offsets[level := frame.End()], history, waiting);
      SumLenConcat(ready, [f]);
      Single(f, 0);
      rmem := rmem - overlap;
      if level > 0 {
        offsets := offsets[level := offsets[level] + |part|];
        ready := ready + [f];
      } else {
        TakenAll(frame);
        CollectTicket(part, offsets[0], granted);
        offsets := offsets[0 := offsets[0] + |part|];
        HandOver(Streams(), waiting, ready, f, history);
        history := Took(history, 0, part);
        rmem := rmem - |part|;
      }
    }

    /** Nothing of level 0 is ever ready, so all that was delivered has been taken. */
    lemma TakenAll(frame: Frame)
      requires Shaped() && Meaning(waiting + [frame])
      ensures |history.taken[0]| == offsets[0] <= |history.sent[0]|
    {
      NoneReady(ready);
      assert StreamOk(Streams()[0], 0, history.sent[0], waiting + [frame], ready,
                      history.covered[0], history.fins[0], history.taken[0]);
    }

    /** A level's frames wait in the list while the drain loop is at work on it. */
    ghost predicate Draining(level: nat)
      requires |offsets| == |history.sent|
      reads this
    {
      level < |offsets| && forall j :: 0 <= j < |offsets| && j != level ==> Waiting(Streams()[j], j, waiting)
    }

    /** The second half of quic_inq_handshake_recv: merge waiting frames that have become contiguous. */
    method Drain(level: nat, granted: bool)
      requires Charged(0) && Shaped() && Meaning(waiting) && Draining(level)
      modifies this`waiting, this`ready, this`rmem, this`offsets, this`ticket, this`ticketReady, this`history
      ensures Valid()
      ensures history.sent == old(history.sent) && history.covered == old(history.covered)
      ensures level < |old(offsets)| && offsets == old(offsets)[level := offsets[level]]
      ensures old(offsets)[level] <= offsets[level]
      ensures old(ticketReady) ==> ticketReady && ticket == old(ticket)
      ensures granted && old(Collected()) && offsets[0] <= TICKET_MAX_LEN ==> Collected()
    {
      hide AllOk, MessageComplete;
      var i := 0;
      while i < |waiting|
        invariant i <= |waiting|
        invariant Charged(0) && Shaped() && Meaning(waiting) && Draining(level)
        invariant forall j :: 0 <= j < i ==> waiting[j].id < level
        invariant history.sent == old(history.sent) && history.covered == old(history.covered)
        invariant offsets == old(offsets)[level := offsets[level]] && old(offsets)[level] <= offsets[level]
        invariant old(ticketReady) ==> ticketReady && ticket == old(ticket)
        invariant granted && old(Collected()) && offsets[0] <= TICKET_MAX_LEN ==> Collected()
        decreases |waiting| - i
      {
        var f := waiting[i];
        if f.id < level {
          i := i + 1;
          continue;
        }
        if f.id > level || f.offset > offsets[level] {
          break;
        }
        DeliverNext(i, level, granted);
      }
      NoFin(waiting);
      SettledAfter(Streams(), waiting, level, i);
    }

    /** Frames of the handshake carry no FIN. */
    lemma NoFin(pool: seq<Frame>)
      requires |offsets| == LEVELS && Fits(history, LEVELS) && history.fins == [false, false, false] && Meaning(pool)
      ensures forall f :: f in pool && f.id < LEVELS ==> !f.fin && Slice(f, history.sent[f.id])
    {
      forall f | f in pool && f.id < LEVELS ensures !f.fin && Slice(f, history.sent[f.id]) {
        assert StreamOk(Streams()[f.id], f.id, history.sent[f.id], pool, ready,
                        history.covered[f.id], history.fins[f.id], history.taken[f.id]);
      }
    }

    /** One round of the drain loop, for a frame that starts at or before the receive offset. */
    method DeliverNext(i: nat, level: nat, granted: bool)
      requires Charged(0) && Shaped() && Meaning(waiting) && Draining(level)
      requires i < |waiting| && waiting[i].id == level && waiting[i].offset <= offsets[level]
      modifies this`waiting, this`ready, this`rmem, this`offsets, this`ticket, this`ticketReady, this`history
      ensures Charged(0) && Shaped() && Meaning(waiting) && Draining(level)
      ensures waiting == RemoveAt(old(waiting), i)
      ensures history.sent == old(history.sent) && history.covered == old(history.covered)
      ensures offsets == old(offsets)[level := offsets[level]] && old(offsets)[level] <= offsets[level]
      ensures old(ticketReady) ==> ticketReady && ticket == old(ticket)
      ensures granted && old(Collected()) && offsets[0] <= TICKET_MAX_LEN ==> Collected()
    {
      hide AllOk, ListOk, SumLen, Count, MessageComplete;
      var f := waiting[i];
      ghost var ss := Streams();
      NoFin(waiting);
      TakeOut(ss, waiting, i, ready, history);
      RemovedAt(waiting, i);
      waiting := RemoveAt(waiting, i);
      assert Streams() == ss[level := ss[level].(frags := ss[level].frags - 1)];
      if offsets[level] >= f.End() {
        DiscardAllOk(Streams(), waiting, f, ready, history);
        rmem := rmem - |f.data|;
      } else {
        Tail(f, granted);
      }
    }

    /** The search for the place of an out-of-order frame; `known` when a waiting frame covers it. */
    method FindPlace(frame: Frame) returns (p: nat, known: bool)
      requires Sorted(waiting)
      ensures known <==> exists g :: g in waiting && g.id == frame.id && g.offset <= frame.offset && frame.End() <= g.End()
      ensures !known ==> p <= |waiting| && (forall i :: 0 <= i < p ==> Before(waiting[i], frame))
      ensures !known && p < |waiting| ==> Before(frame, waiting[p])
    {
      p := 0;
      while p < |waiting|
        invariant p <= |waiting|
        invariant forall i :: 0 <= i < p ==> Before(waiting[i], frame)
        invariant forall i :: 0 <= i < p && waiting[i].id == frame.id ==> waiting[i].End() < frame.End()
      {
        var pos := waiting[p];
        if pos.id > frame.id || (pos.id == frame.id && pos.offset > frame.offset) {
          forall i | p <= i < |waiting| ensures waiting[i].id != frame.id || waiting[i].offset > frame.offset {
            assert i == p || Before(waiting[p], waiting[i]);
          }
          return p, false;
        }
        if pos.id == frame.id {
          if pos.End() >= frame.End() {
            return p, true;
          }
        }
        p := p + 1;
      }
      return p, false;
    }

    /**
     quic_inq_handshake_recv, for a CRYPTO frame that is a slice of what the peer sends at its
     level; `other` is the receive memory charged for other frames. An accepted frame adds exactly
     its bytes to what the level has accepted; a refused one changes nothing.
     */
    method Recv(frame: Frame, other: nat, rcvbuf: nat, schedulable: bool, granted: bool) returns (err: CryptoError)
      requires Valid() && frame.id < LEVELS && !frame.fin && Slice(frame, history.sent[frame.id])
      modifies this
      ensures Valid()
      ensures err == if frame.End() <= old(offsets)[frame.id] then Ok
                     else if old(rmem) + other + |frame.data| > rcvbuf || !schedulable then BufferExceeded
                     else Ok
      ensures err != Ok ==> unchanged(this)
      ensures err == Ok ==>
                history.sent == old(history.sent) && history.covered == Accept(old(history), frame).covered
      ensures ticketReady ==> MessageComplete(ticket)
      ensures old(ticketReady) ==> ticketReady && ticket == old(ticket)
      ensures granted && old(Collected()) && offsets[0] <= TICKET_MAX_LEN ==> Collected()
    {
      hide AllOk, ListOk, SettledAll, SumLen, Slice, MessageComplete;
      var level := frame.id;
      if offsets[level] >= frame.End() {
        AcceptKnown(Streams(), waiting, frame, ready, history);
        return Ok;
      }
      if rmem + other + |frame.data| > rcvbuf || !schedulable {
        return BufferExceeded;
      }
      rmem := rmem + |frame.data|;
      if frame.offset > offsets[level] {
        QueueAhead(frame);
      } else {
        TakeInOrder(frame, granted);
      }
      return Ok;
    }

    /** Out of order: wait in the list, unless a waiting frame covers it. */
    method QueueAhead(frame: Frame)
      requires Charged(|frame.data|) && Shaped() && Meaning(waiting) && SettledAll(Streams(), waiting)
      requires frame.id < LEVELS && !frame.fin && Slice(frame, history.sent[frame.id]) && offsets[frame.id] < frame.offset
      modifies this`waiting, this`rmem, this`history
      ensures Valid()
      ensures history == Accept(old(history), frame) && history.taken == old(history.taken)
      ensures waiting == old(waiting) || exists p :: 0 <= p <= |old(waiting)| && waiting == InsertAt(old(waiting), p, frame)
      ensures waiting == old(waiting) <==>
              exists g :: g in old(waiting) && g.id == frame.id && g.offset <= frame.offset && frame.End() <= g.End()
    {
      hide AllOk, ListOk, SettledAll, SumLen, Slice, MessageComplete;
      ListSorted(Streams(), waiting);
      var p, known := FindPlace(frame);
      if known {
        AcceptKnown(Streams(), waiting, frame, ready, history);
        rmem := rmem - |frame.data|;
      } else {
        InsertedAt(waiting, p, frame);
        SliceEnds(frame, history.sent[frame.id]);
        AheadLists(offsets, history, waiting, frame, p);
        AheadMeaning(offsets, history, waiting, ready, frame, p);
        waiting := InsertAt(waiting, p, frame);
        history := Accept(history, frame);
      }
    }

    /** In order: hand over the frame and whatever it makes contiguous. */
    method TakeInOrder(frame: Frame, granted: bool)
      requires Charged(|frame.data|) && Shaped() && Meaning(waiting) && SettledAll(Streams(), waiting)
      requires frame.id < LEVELS && !frame.fin && Slice(frame, history.sent[frame.id])
      requires frame.offset <= offsets[frame.id] <= frame.End()
      modifies this
      ensures Valid()
      ensures history.sent == old(history.sent) && history.covered == Accept(old(history), frame).covered
      ensures old(ticketReady) ==> ticketReady && ticket == old(ticket)
      ensures granted && old(Collected()) && offsets[0] <= TICKET_MAX_LEN ==> Collected()
    {
      hide AllOk, ListOk, SumLen, MessageComplete;
      ghost var ss := Streams();
      AcceptAllOk(ss, waiting, frame, ready, history, false);
      assert Admitted(ss[frame.id], frame, false) == ss[frame.id] && ss[frame.id := ss[frame.id]] == ss;
      history := Accept(history, frame);
      assert history.fins == [false, false, false];
      assert Streams() == ss;
      Tail(frame, granted);
      Drain(frame.id, granted);
    }

    /** quic_recvmsg on a CRYPTO frame: one frame at a time, from where the last read stopped. */
    method Read(msgLen: nat, room: nat) returns (out: seq<Byte>)
      requires Valid() && ready != []
      modifies this`ready, this`rmem, this`history
      ensures Valid() && |out| == Least(Left(old(ready)[0]), msgLen, room)
      ensures old(ready)[0].id < |old(history).taken| && history == Took(old(history), old(ready)[0].id, out)
      ensures var f := old(ready)[0];
              && f.offset + |out| <= |f.data| && out == f.data[f.offset..f.offset + |out|]
              && ready == (if |out| == |f.data| - f.offset then [] else [f.(offset := f.offset + |out|)]) + old(ready)[1..]
              && rmem == old(rmem) - (if |out| == |f.data| - f.offset then |f.data| else 0)
    {
      hide AllOk, ListOk, SettledAll, SumLen, Unread, MessageComplete;
      var f := ready[0];
      assert f in ready;
      var left := |f.data| - f.offset;
      var copy := if left < msgLen then left else msgLen;
      var got := if copy < room then copy else room;
      out := f.data[f.offset..f.offset + got];
      ghost var ss := Streams();
      ghost var h := Took(history, f.id, out);
      if got != left {
        var queue := [f.(offset := f.offset + got)] + ready[1..];
        ReadPart(ready, got);
        ReadOk(ss, waiting, ready, queue, history, f.id, out);
        ready := queue;
      } else {
        ReadWhole(ready);
        ReadOk(ss, waiting, ready, ready[1..], history, f.id, out);
        ready := ready[1..];
        rmem := rmem - |f.data|;
      }
      history := h;
    }
  }

  lemma {:induction false} NoneReady(queue: seq<Frame>)
    requires forall f :: f in queue ==> f.id > 0
    ensures Unread(queue, 0) == []
  {
    if queue != [] {
      NoneReady(queue[1..]);
    }
  }

  /** The part of a frame beyond the offset joins the frames that are ready. */
  lemma PartReady(offsets: seq<nat>, h: History, list: seq<Frame>, ready: seq<Frame>, frame: Frame)
    requires |offsets| == |h.sent| && Fits(h, |offsets|) && frame.id < |offsets| && !frame.fin
    requires AllOk(Levels(offsets, h.sent, list), list + [frame], ready, h) && Slice(frame, h.sent[frame.id])
    requires frame.offset <= offsets[frame.id] <= frame.End()
    ensures var f := Frame(DataFrame, frame.id, 0, frame.data[offsets[frame.id] - frame.offset..], false);
            AllOk(Levels(offsets[frame.id := frame.End()], h.sent, list), list, ready + [f], h)
  {
    hide AllOk, Unread, Slice, Count;
    var ss, id := Levels(offsets, h.sent, list), frame.id;
    var f := Frame(DataFrame, id, 0, frame.data[offsets[id] - frame.offset..], false);
    forall i: nat ensures Unread(ready + [f], i) == Unread(ready, i) + (if i == id then f.data else []) {
      UnreadAppended(ready, f, i);
    }
    DeliverAllOk(ss, list, frame, ready, ready + [f], h);
    assert Levels(offsets[id := frame.End()], h.sent, list) == ss[id := Delivered(ss[id], frame.End(), false)];
  }

  /** The list of waiting frames does not look at the offsets. */
  lemma SameLists(offsets: seq<nat>, offsets': seq<nat>, h: History, list: seq<Frame>)
    requires |offsets| == |offsets'| == |h.sent| && ListOk(Levels(offsets, h.sent, list), list)
    ensures ListOk(Levels(offsets', h.sent, list), list)
  {
    hide Count, Sorted;
  }

  /** What is appended to the queue and taken at once. */
  lemma HandOver(ss: seq<Stream>, pool: seq<Frame>, queue: seq<Frame>, f: Frame, h: History)
    requires Fits(h, |ss|) && 0 < |ss| && AllOk(ss, pool, queue + [f], h)
    requires f.kind == DataFrame && f.id == 0 && f.offset == 0
    requires forall g :: g in queue ==> g.id > 0
    ensures AllOk(ss, pool, queue, Took(h, 0, f.data))
  {
    hide AllOk, Unread;
    NoneReady(queue);
    forall i: nat ensures Unread(queue + [f], i) == Unread(queue, i) + (if i == 0 then f.data else []) {
      UnreadAppended(queue, f, i);
    }
    assert [] + f.data == f.data && f.data + [] == f.data;
    ReadOk(ss, pool, queue + [f], queue, h, 0, f.data);
  }

  /** One more waiting frame is one more fragment of its level. */
  lemma InsertedLevels(offsets: seq<nat>, sent: seq<seq<Byte>>, list: seq<Frame>, frame: Frame, p: nat)
    requires |offsets| == |sent| && p <= |list| && frame.id < |offsets|
    ensures var ss := Levels(offsets, sent, list);
            Levels(offsets, sent, InsertAt(list, p, frame)) == ss[frame.id := ss[frame.id].(frags := ss[frame.id].frags + 1)]
  {
    InsertedAt(list, p, frame);
    hide InsertAt, Count, SumLen;
  }

  lemma AheadLists(offsets: seq<nat>, h: History, list: seq<Frame>, frame: Frame, p: nat)
    requires |offsets| == |h.sent| && p <= |list| && frame.id < |offsets| && frame.kind == DataFrame && !frame.fin
    requires ListOk(Levels(offsets, h.sent, list), list) && SettledAll(Levels(offsets, h.sent, list), list)
    requires offsets[frame.id] < frame.offset
    requires (forall i :: 0 <= i < p ==> Before(list[i], frame)) && (p < |list| ==> Before(frame, list[p]))
    ensures var list' := InsertAt(list, p, frame);
            var ss' := Levels(offsets, h.sent, list');
            ListOk(ss', list') && SettledAll(ss', list')
  {
    hide ListOk, SettledAll, InsertAt, Count;
    var ss := Levels(offsets, h.sent, list);
    var s := ss[frame.id].(frags := ss[frame.id].frags + 1);
    InsertedLevels(offsets, h.sent, list, frame, p);
    InsertListOk(ss, list, p, frame, s);
    AheadSettled(ss, list, p, frame, s);
  }

  lemma AheadMeaning(offsets: seq<nat>, h: History, list: seq<Frame>, ready: seq<Frame>, frame: Frame, p: nat)
    requires |offsets| == |h.sent| && Fits(h, |offsets|) && p <= |list| && frame.id < |offsets| && !frame.fin
    requires AllOk(Levels(offsets, h.sent, list), list, ready, h) && Slice(frame, h.sent[frame.id])
    ensures var list' := InsertAt(list, p, frame);
            AllOk(Levels(offsets, h.sent, list'), list', ready, Accept(h, frame))
  {
    hide AllOk, Slice, InsertAt, Count;
    var list' := InsertAt(list, p, frame);
    var ss, id := Levels(offsets, h.sent, list), frame.id;
    var s := ss[id].(frags := ss[id].frags + 1);
    SliceEnds(frame, h.sent[id]);
    InsertedAt(list, p, frame);
    InsertedLevels(offsets, h.sent, list, frame, p);
    AcceptAllOk(ss, list, frame, ready, h, true);
    assert ss[id := Admitted(ss[id], frame, true)] == ss;
    SamePoolOk(ss, list + [frame], list', ready, Accept(h, frame));
    SameProgressOk(ss, id, s, list', ready, Accept(h, frame));
  }

  lemma SliceEnds(f: Frame, m: seq<Byte>)
    requires Slice(f, m)
    ensures f.kind == DataFrame && f.End() <= |m|
  {
  }
}
