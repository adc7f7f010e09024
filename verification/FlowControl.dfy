/**
 Flow control between two endpoints (section 4.1 of RFC 9000): the receiver's accounting in
 modules/net/quic/inqueue.c and frame.c, the sender's in outqueue.c and frame.c, and a network
 that loses, reorders and duplicates what they exchange.

 Streams are numbered 0, 1, ...; one that is not open yet holds its initial limits.
 */
module FlowControl {

  // ---------- sums over streams ----------

  function Sum(xs: seq<nat>): nat
  {
    if xs == [] then 0 else Sum(xs[..|xs| - 1]) + xs[|xs| - 1]
  }

  lemma {:induction false} SumUpdate(xs: seq<nat>, i: nat, v: nat)
    requires i < |xs|
    ensures Sum(xs[i := v]) == Sum(xs) - xs[i] + v
  {
    var n := |xs| - 1;
    if i == n {
      assert xs[i := v][..n] == xs[..n];
    } else {
      assert xs[i := v][..n] == xs[..n][i := v];
      SumUpdate(xs[..n], i, v);
    }
  }

  lemma {:induction false} SumMonotone(xs: seq<nat>, ys: seq<nat>)
    requires |xs| == |ys| && forall i :: 0 <= i < |xs| ==> xs[i] <= ys[i]
    ensures Sum(xs) <= Sum(ys)
  {
    if xs != [] {
      SumMonotone(xs[..|xs| - 1], ys[..|ys| - 1]);
    }
  }

  // ---------- the receiver ----------

  const RWND_SHIFT_DIV := 16
  const U32_LIMIT := 0x1_0000_0000

  /** The flow-control fields of struct quic_stream.recv. `open` is a state before "Data Recvd". */
  datatype RecvStream = RecvStream(highest: nat, maxBytes: nat, window: nat, bytes: nat, open: bool)

  datatype Receiver = Receiver(maxBytes: nat, maxData: nat, bytes: nat, highest: nat, streams: seq<RecvStream>)

  function Highests(ss: seq<RecvStream>): (hs: seq<nat>)
    ensures |hs| == |ss| && forall i :: 0 <= i < |ss| ==> hs[i] == ss[i].highest
  {
    seq(|ss|, i requires 0 <= i < |ss| => ss[i].highest)
  }

  function NewBytes(r: Receiver, id: nat, end: nat): nat
    requires id < |r.streams|
  {
    if end > r.streams[id].highest then end - r.streams[id].highest else 0
  }

  /** The check of quic_inq_stream_recv: data up to `end` stays within both limits. */
  predicate Admits(r: Receiver, id: nat, end: nat)
    requires id < |r.streams|
  {
    var new' := NewBytes(r, id, end);
    new' > 0 ==>
      r.highest + new' <= r.maxBytes && r.streams[id].highest + new' <= r.streams[id].maxBytes
  }

  /** Data up to `end` is accepted on a stream. */
  function Receive(r: Receiver, id: nat, end: nat): Receiver
    requires id < |r.streams|
  {
    var new' := NewBytes(r, id, end);
    r.(highest := r.highest + new',
       streams := r.streams[id := r.streams[id].(highest := r.streams[id].highest + new')])
  }

  /** Whether a limit that allows `maxBytes` is due to be raised after `bytes` have been read.
      The window is kept in 32 bits and the subtraction is unsigned: WindowNeverWraps shows that
      neither matters. */
  predicate Due(bytes: nat, window: nat, maxBytes: nat, mss: nat)
  {
    var step := if mss > window / RWND_SHIFT_DIV then mss else window / RWND_SHIFT_DIV;
    bytes + window - maxBytes >= step
  }

  /** quic_inq_flow_control without memory pressure. */
  function Consume(r: Receiver, id: nat, n: nat, mss: nat): Receiver
    requires id < |r.streams|
  {
    if n == 0 then r
    else
      var window := r.maxData % U32_LIMIT;
      var s := r.streams[id].(bytes := r.streams[id].bytes + n);
      var swindow := s.window % U32_LIMIT;
      var bytes := r.bytes + n;
      r.(bytes := bytes,
         maxBytes := if Due(bytes, window, r.maxBytes, mss) then bytes + window else r.maxBytes,
         streams := r.streams[id :=
           if s.open && Due(s.bytes, swindow, s.maxBytes, mss)
           then s.(maxBytes := s.bytes + swindow) else s])
  }

  /** quic_frame_data_blocked_process, when the MAX_DATA frame can be queued. */
  function AnswerBlocked(r: Receiver): Receiver
  {
    r.(maxBytes := r.bytes + r.maxData)
  }

  /** quic_frame_stream_data_blocked_process, when the MAX_STREAM_DATA frame can be queued. */
  function AnswerStreamBlocked(r: Receiver, id: nat): Receiver
    requires id < |r.streams|
  {
    var s := r.streams[id];
    if !s.open then r
    else r.(streams := r.streams[id := s.(maxBytes := s.bytes + s.window % U32_LIMIT)])
  }

  /** What the receiver's accounting keeps. The bounds on the windows are those that
      quic_sock_set_transport_param puts on local parameters. */
  ghost predicate ReceiverOk(r: Receiver)
  {
    && r.maxData < U32_LIMIT
    && r.maxBytes <= r.bytes + r.maxData
    && r.highest == Sum(Highests(r.streams)) <= r.maxBytes
    && forall i :: 0 <= i < |r.streams| ==>
         var s := r.streams[i];
         s.window < U32_LIMIT && s.highest <= s.maxBytes <= s.bytes + s.window
  }

  /** What the receiver allows only grows. */
  ghost predicate LimitsGrow(r: Receiver, r': Receiver)
  {
    && r.maxBytes <= r'.maxBytes
    && |r.streams| == |r'.streams|
    && forall i :: 0 <= i < |r.streams| ==> r.streams[i].maxBytes <= r'.streams[i].maxBytes
  }

  /** Data is let in exactly when it keeps the accounting: what was seen stays within both limits. */
  lemma ReceiveKeepsOk(r: Receiver, id: nat, end: nat)
    requires ReceiverOk(r) && id < |r.streams|
    ensures Admits(r, id, end) <==> ReceiverOk(Receive(r, id, end))
    ensures LimitsGrow(r, Receive(r, id, end))
    ensures Receive(r, id, end).streams[id].highest == if end > r.streams[id].highest then end else r.streams[id].highest
  {
    var r' := Receive(r, id, end);
    SumUpdate(Highests(r.streams), id, r'.streams[id].highest);
    assert Highests(r'.streams) == Highests(r.streams)[id := r'.streams[id].highest];
  }

  /** Reaching "Data Recvd" does not touch the accounting. */
  lemma FinishKeepsReceiver(r: Receiver, id: nat, open: bool)
    requires ReceiverOk(r) && id < |r.streams|
    ensures ReceiverOk(r.(streams := r.streams[id := r.streams[id].(open := open)]))
  {
    assert Highests(r.streams[id := r.streams[id].(open := open)]) == Highests(r.streams);
  }

  /** The unsigned 64-bit subtractions of quic_inq_flow_control are never negative and the 32-bit
      windows lose nothing; reading keeps the accounting and never lowers a limit. */
  lemma WindowNeverWraps(r: Receiver, id: nat, n: nat, mss: nat)
    requires ReceiverOk(r) && id < |r.streams|
    ensures var r' := Consume(r, id, n, mss);
            && r.bytes + n + r.maxData % U32_LIMIT - r.maxBytes >= 0
            && r.streams[id].bytes + n + r.streams[id].window % U32_LIMIT - r.streams[id].maxBytes >= 0
            && ReceiverOk(r') && LimitsGrow(r, r')
  {
    var r' := Consume(r, id, n, mss);
    assert Highests(r'.streams) == Highests(r.streams);
  }

  /**
   A limit moved from `was` to `now` after `bytes` had been read in all: it is as it was or a full
   window ahead, it is less than a step short of that, and it is not touched for less than a step.
   */
  predicate Replenished(bytes: nat, window: nat, was: nat, now: nat, mss: nat)
  {
    var step := if mss > window / 16 then mss else window / 16;
    && (now == was || now == bytes + window)
    && (now == bytes + window || bytes + window < now + step)
    && (bytes + window < was + step ==> now == was)
  }

  /** Reading moves both limits so, except that of a stream of which everything has been received. */
  lemma ConsumeReplenishes(r: Receiver, id: nat, n: nat, mss: nat)
    requires ReceiverOk(r) && id < |r.streams| && n > 0
    ensures var r' := Consume(r, id, n, mss);
            && r'.bytes == r.bytes + n && r'.streams[id].bytes == r.streams[id].bytes + n
            && Replenished(r'.bytes, r.maxData, r.maxBytes, r'.maxBytes, mss)
            && (if r.streams[id].open
                then Replenished(r'.streams[id].bytes, r.streams[id].window,
                                 r.streams[id].maxBytes, r'.streams[id].maxBytes, mss)
                else r'.streams[id].maxBytes == r.streams[id].maxBytes)
            && r' == r.(bytes := r'.bytes, maxBytes := r'.maxBytes, streams := r.streams[id := r'.streams[id]])
            && r'.streams[id] == r.streams[id].(bytes := r'.streams[id].bytes, maxBytes := r'.streams[id].maxBytes)
  {
  }

  /** Reading all that the connection allows raises its limit if and only if a packet fits the window. */
  lemma RaisedIff(r: Receiver, id: nat, n: nat, mss: nat)
    requires ReceiverOk(r) && id < |r.streams| && n > 0 && r.bytes + n == r.maxBytes
    ensures Consume(r, id, n, mss).maxBytes > r.maxBytes <==> 0 < r.maxData && mss <= r.maxData
  {
  }

  /** The same for a stream that is still open. */
  lemma StreamRaisedIff(r: Receiver, id: nat, n: nat, mss: nat)
    requires ReceiverOk(r) && id < |r.streams| && n > 0
    requires r.streams[id].open && r.streams[id].bytes + n == r.streams[id].maxBytes
    ensures Consume(r, id, n, mss).streams[id].maxBytes > r.streams[id].maxBytes <==>
            0 < r.streams[id].window && mss <= r.streams[id].window
  {
  }

  /** A window of 1200 bytes, the least that can be configured, all of it read, and packets of 1400
      bytes: the limit stays where it is. */
  lemma SmallWindowStays(s: RecvStream)
    requires s.open && s.highest == s.maxBytes == s.window == 1200 && s.bytes == 0
    ensures var r := Receiver(1200, 1200, 0, 1200, [s]);
            ReceiverOk(r) && Consume(r, 0, 1200, 1400).maxBytes == 1200
  {
    assert Highests([s]) == [1200] && [1200][..0] == [];
    assert Sum([1200]) == Sum([]) + 1200;
  }

  lemma AnswersKeepOk(r: Receiver, id: nat)
    requires ReceiverOk(r) && id < |r.streams|
    ensures ReceiverOk(AnswerBlocked(r)) && LimitsGrow(r, AnswerBlocked(r))
    ensures ReceiverOk(AnswerStreamBlocked(r, id)) && LimitsGrow(r, AnswerStreamBlocked(r, id))
  {
    assert Highests(AnswerStreamBlocked(r, id).streams) == Highests(r.streams);
  }

  // ---------- the sender ----------

  datatype SendStream = SendStream(bytes: nat, maxBytes: nat)

  datatype Sender = Sender(bytes: nat, maxBytes: nat, streams: seq<SendStream>)

  function Sents(ss: seq<SendStream>): (bs: seq<nat>)
    ensures |bs| == |ss| && forall i :: 0 <= i < |ss| ==> bs[i] == ss[i].bytes
  {
    seq(|ss|, i requires 0 <= i < |ss| => ss[i].bytes)
  }

  function Min(a: int, b: int): int { if a < b then a else b }

  /** quic_outq_wspace for a stream, with `sndbuf` bytes left in the socket's send buffer. */
  function Wspace(s: Sender, id: nat, sndbuf: nat): int
    requires id < |s.streams|
  {
    Min(Min(s.maxBytes - s.bytes, sndbuf), s.streams[id].maxBytes - s.streams[id].bytes)
  }

  /** The payload length quic_frame_stream_create and quic_frame_stream_append settle on, of a
      message of `len` bytes, with room for `room` bytes in a packet. */
  function Trim(s: Sender, id: nat, sndbuf: nat, len: nat, room: nat): int
    requires id < |s.streams|
  {
    Min(Min(len, Wspace(s, id, sndbuf)), room)
  }

  /** That is as much as the message, the packet, the buffer and both limits leave. */
  lemma TrimLargest(s: Sender, id: nat, sndbuf: nat, len: nat, room: nat, n: nat)
    requires id < |s.streams|
    ensures n <= Trim(s, id, sndbuf, len, room) <==>
            && n <= len && n <= room && n <= sndbuf
            && s.bytes + n <= s.maxBytes && s.streams[id].bytes + n <= s.streams[id].maxBytes
  {
  }

  /** quic_outq_stream_tail and quic_outq_stream_append: `n` more bytes of a stream. */
  function Queue(s: Sender, id: nat, n: nat): Sender
    requires id < |s.streams|
  {
    s.(bytes := s.bytes + n,
       streams := s.streams[id := s.streams[id].(bytes := s.streams[id].bytes + n)])
  }

  /** quic_frame_max_data_process */
  function RaiseLimit(s: Sender, v: nat): Sender
  {
    if v > s.maxBytes then s.(maxBytes := v) else s
  }

  /** quic_frame_max_stream_data_process */
  function RaiseStreamLimit(s: Sender, id: nat, v: nat): Sender
    requires id < |s.streams|
  {
    if v > s.streams[id].maxBytes then s.(streams := s.streams[id := s.streams[id].(maxBytes := v)]) else s
  }

  /** What the sender was granted only grows. */
  ghost predicate GrantsGrow(s: Sender, s': Sender)
  {
    && s.maxBytes <= s'.maxBytes
    && |s.streams| == |s'.streams|
    && forall i :: 0 <= i < |s.streams| ==> s.streams[i].maxBytes <= s'.streams[i].maxBytes
  }

  // ---------- the two endpoints and the network ----------

  datatype Data = Data(id: nat, end: nat)

  /** Everything ever put on the network stays there, so any of it can arrive any number of
      times, in any order, or never. `violated` is a FLOW_CONTROL_ERROR. */
  datatype System = System(
    snd: Sender, rcv: Receiver,
    data: set<Data>, maxData: set<nat>, maxStreamData: set<Data>,
    violated: bool)

  datatype Event =
    | Send(id: nat, sndbuf: nat, len: nat, room: nat)
    | ArriveData(d: Data)
    | Read(id: nat, n: nat, mss: nat)
    | Blocked
    | StreamBlocked(id: nat)
    | Finish(id: nat)
    | ArriveMaxData(v: nat)
    | ArriveMaxStreamData(d: Data)

  /** The receiver moves to `r` and advertises its limits for the connection and for stream `id`.
      Advertising a limit that did not change is harmless: it could be a repeated frame. */
  function Advertise(s: System, r: Receiver, id: nat): System
    requires id < |r.streams|
  {
    s.(rcv := r,
       maxData := s.maxData + {r.maxBytes},
       maxStreamData := s.maxStreamData + {Data(id, r.streams[id].maxBytes)})
  }

  predicate Enabled(s: System, e: Event)
  {
    match e
    case Send(id, sndbuf, len, room) => id < |s.snd.streams|
    case ArriveData(d) => d in s.data && d.id < |s.rcv.streams|
    case Read(id, n, mss) => id < |s.rcv.streams|
    case Blocked => 0 < |s.rcv.streams|
    case StreamBlocked(id) => id < |s.rcv.streams|
    case Finish(id) => id < |s.rcv.streams|
    case ArriveMaxData(v) => v in s.maxData
    case ArriveMaxStreamData(d) => d in s.maxStreamData && d.id < |s.snd.streams|
  }

  function Step(s: System, e: Event): System
  {
    if !Enabled(s, e) then s
    else
      match e
      case Send(id, sndbuf, len, room) =>
        var n := Trim(s.snd, id, sndbuf, len, room);
        if n < 0 then s
        else
          var snd := Queue(s.snd, id, n);
          s.(snd := snd, data := s.data + {Data(id, snd.streams[id].bytes)})
      case ArriveData(d) =>
        if !s.rcv.streams[d.id].open then s
        else if !Admits(s.rcv, d.id, d.end) then s.(violated := true)
        else s.(rcv := Receive(s.rcv, d.id, d.end))
      case Read(id, n, mss) => Advertise(s, Consume(s.rcv, id, n, mss), id)
      case Blocked => Advertise(s, AnswerBlocked(s.rcv), 0)
      case StreamBlocked(id) => Advertise(s, AnswerStreamBlocked(s.rcv, id), id)
      case Finish(id) =>
        s.(rcv := s.rcv.(streams := s.rcv.streams[id := s.rcv.streams[id].(open := false)]))
      case ArriveMaxData(v) => s.(snd := RaiseLimit(s.snd, v))
      case ArriveMaxStreamData(d) => s.(snd := RaiseStreamLimit(s.snd, d.id, d.end))
  }

  function Run(s: System, es: seq<Event>): System
  {
    if es == [] then s else Step(Run(s, es[..|es| - 1]), es[|es| - 1])
  }

  /** Both ends agree on the transport parameters and nothing was sent. */
  ghost predicate Init(s: System)
  {
    && !s.violated && s.data == {} && s.maxData == {} && s.maxStreamData == {}
    && s.snd.bytes == 0 && s.rcv.bytes == 0 && s.rcv.highest == 0
    && s.snd.maxBytes == s.rcv.maxBytes == s.rcv.maxData < U32_LIMIT
    && |s.snd.streams| == |s.rcv.streams|
    && forall i :: 0 <= i < |s.snd.streams| ==>
         && s.snd.streams[i].bytes == 0
         && s.rcv.streams[i] == RecvStream(0, s.snd.streams[i].maxBytes, s.snd.streams[i].maxBytes, 0, true)
         && s.rcv.streams[i].window < U32_LIMIT
  }

  /** The sender never used more than it was granted, and was never granted more than the
      receiver's current limits. */
  ghost predicate SystemOk(s: System)
  {
    && !s.violated
    && ReceiverOk(s.rcv)
    && |s.snd.streams| == |s.rcv.streams|
    && s.snd.bytes == Sum(Sents(s.snd.streams))
    && s.snd.bytes <= s.snd.maxBytes <= s.rcv.maxBytes
    && (forall i :: 0 <= i < |s.snd.streams| ==>
          && s.rcv.streams[i].highest <= s.snd.streams[i].bytes
          && s.snd.streams[i].bytes <= s.snd.streams[i].maxBytes <= s.rcv.streams[i].maxBytes)
    && (forall d :: d in s.data ==> d.id < |s.snd.streams| && d.end <= s.snd.streams[d.id].bytes)
    && (forall v :: v in s.maxData ==> v <= s.rcv.maxBytes)
    && (forall d :: d in s.maxStreamData ==> d.id < |s.rcv.streams| && d.end <= s.rcv.streams[d.id].maxBytes)
  }

  lemma {:induction false} SumZero(xs: seq<nat>)
    requires forall i :: 0 <= i < |xs| ==> xs[i] == 0
    ensures Sum(xs) == 0
  {
    if xs != [] {
      SumZero(xs[..|xs| - 1]);
    }
  }

  lemma InitOk(s: System)
    requires Init(s)
    ensures SystemOk(s)
  {
    SumZero(Highests(s.rcv.streams));
    SumZero(Sents(s.snd.streams));
  }

  lemma SendKeepsOk(s: System, id: nat, n: nat)
    requires SystemOk(s) && id < |s.snd.streams|
    requires n <= s.snd.maxBytes - s.snd.bytes && n <= s.snd.streams[id].maxBytes - s.snd.streams[id].bytes
    ensures var snd := Queue(s.snd, id, n);
            && SystemOk(s.(snd := snd, data := s.data + {Data(id, snd.streams[id].bytes)}))
            && snd.bytes == s.snd.bytes + n && snd.streams[id].bytes == s.snd.streams[id].bytes + n
  {
    var snd := Queue(s.snd, id, n);
    SumUpdate(Sents(s.snd.streams), id, snd.streams[id].bytes);
    assert Sents(snd.streams) == Sents(s.snd.streams)[id := snd.streams[id].bytes];
  }

  /** Whatever the sender put on the network is within the receiver's limits when it arrives. */
  lemma SentIsAdmitted(s: System, d: Data)
    requires SystemOk(s) && d in s.data
    ensures Admits(s.rcv, d.id, d.end)
  {
    if d.end > s.rcv.streams[d.id].highest {
      var hs := Highests(s.rcv.streams);
      SumUpdate(hs, d.id, d.end);
      SumMonotone(hs[d.id := d.end], Sents(s.snd.streams));
    }
  }

  lemma AdvertiseKeepsOk(s: System, r: Receiver, id: nat)
    requires SystemOk(s) && ReceiverOk(r) && LimitsGrow(s.rcv, r) && id < |r.streams|
    requires forall i :: 0 <= i < |r.streams| ==> r.streams[i].highest == s.rcv.streams[i].highest
    ensures SystemOk(Advertise(s, r, id))
  {
  }

  lemma ArriveKeepsOk(s: System, d: Data)
    requires SystemOk(s) && d in s.data
    ensures Admits(s.rcv, d.id, d.end)
    ensures SystemOk(s.(rcv := Receive(s.rcv, d.id, d.end)))
    ensures LimitsGrow(s.rcv, Receive(s.rcv, d.id, d.end))
  {
    SentIsAdmitted(s, d);
    ReceiveKeepsOk(s.rcv, d.id, d.end);
  }

  lemma FinishKeepsOk(s: System, id: nat)
    requires SystemOk(s) && id < |s.rcv.streams|
    ensures SystemOk(Step(s, Finish(id)))
  {
    assert Highests(Step(s, Finish(id)).rcv.streams) == Highests(s.rcv.streams);
  }

  lemma RaiseKeepsOk(s: System, v: nat)
    requires SystemOk(s) && v in s.maxData
    ensures SystemOk(s.(snd := RaiseLimit(s.snd, v)))
  {
  }

  lemma RaiseStreamKeepsOk(s: System, d: Data)
    requires SystemOk(s) && d in s.maxStreamData
    ensures d.id < |s.snd.streams| && SystemOk(s.(snd := RaiseStreamLimit(s.snd, d.id, d.end)))
  {
    assert Sents(RaiseStreamLimit(s.snd, d.id, d.end).streams) == Sents(s.snd.streams);
  }

  lemma ReceiverFits(s: System)
    requires SystemOk(s)
    ensures ReceiverOk(s.rcv) && |s.snd.streams| == |s.rcv.streams|
  {
  }

  lemma StepKeepsOk(s: System, e: Event)
    requires SystemOk(s)
    ensures SystemOk(Step(s, e)) && LimitsGrow(s.rcv, Step(s, e).rcv)
    ensures GrantsGrow(s.snd, Step(s, e).snd)
  {
    hide SystemOk, ReceiverOk;
    ReceiverFits(s);
    if Enabled(s, e) {
      match e
      case Send(id, sndbuf, len, room) =>
        var n := Trim(s.snd, id, sndbuf, len, room);
        if n >= 0 {
          SendKeepsOk(s, id, n);
        }
      case ArriveData(d) =>
        ArriveKeepsOk(s, d);
      case Read(id, n, mss) =>
        WindowNeverWraps(s.rcv, id, n, mss);
        AdvertiseKeepsOk(s, Consume(s.rcv, id, n, mss), id);
      case Blocked =>
        AnswersKeepOk(s.rcv, 0);
        AdvertiseKeepsOk(s, AnswerBlocked(s.rcv), 0);
      case StreamBlocked(id) =>
        AnswersKeepOk(s.rcv, id);
        AdvertiseKeepsOk(s, AnswerStreamBlocked(s.rcv, id), id);
      case Finish(id) =>
        FinishKeepsOk(s, id);
      case ArriveMaxData(v) =>
        RaiseKeepsOk(s, v);
      case ArriveMaxStreamData(d) =>
        RaiseStreamKeepsOk(s, d);
    }
  }

  /**
   Over every run, with every kind of loss, reordering and duplication: a sender that trims by
   quic_outq_wspace never triggers a FLOW_CONTROL_ERROR, the connection's highest offset is the
   sum of the streams', and nothing below a subtraction in the accounting is ever negative.
   */
  lemma {:induction false} NeverViolated(s: System, es: seq<Event>)
    requires Init(s)
    ensures SystemOk(Run(s, es))
  {
    if es == [] {
      InitOk(s);
    } else {
      NeverViolated(s, es[..|es| - 1]);
      StepKeepsOk(Run(s, es[..|es| - 1]), es[|es| - 1]);
    }
  }

  lemma GrowTrans(a: System, b: System, c: System)
    requires LimitsGrow(a.rcv, b.rcv) && GrantsGrow(a.snd, b.snd) && LimitsGrow(b.rcv, c.rcv) && GrantsGrow(b.snd, c.snd)
    ensures LimitsGrow(a.rcv, c.rcv) && GrantsGrow(a.snd, c.snd)
  {
  }

  lemma GrowSame(a: System)
    ensures LimitsGrow(a.rcv, a.rcv) && GrantsGrow(a.snd, a.snd)
  {
  }

  lemma {:induction false} LimitsNeverDecrease(s: System, es: seq<Event>, more: seq<Event>)
    requires Init(s)
    ensures LimitsGrow(Run(s, es).rcv, Run(s, es + more).rcv)
    ensures GrantsGrow(Run(s, es).snd, Run(s, es + more).snd)
    decreases |more|
  {
    hide Init, SystemOk, Step, LimitsGrow, GrantsGrow;
    if more == [] {
      assert es + more == es;
      GrowSame(Run(s, es));
    } else {
      var front, e := more[..|more| - 1], more[|more| - 1];
      LimitsNeverDecrease(s, es, front);
      assert (es + more)[..|es + more| - 1] == es + front;
      NeverViolated(s, es + front);
      StepKeepsOk(Run(s, es + front), e);
      assert Run(s, es + more) == Step(Run(s, es + front), e);
      GrowTrans(Run(s, es), Run(s, es + front), Run(s, es + more));
    }
  }

  // ---------- progress ----------

  /** Reads happen with packets that fit the windows. */
  predicate Fitting(r: Receiver, e: Event)
  {
    e.Read? ==> e.mss <= r.maxData && forall i :: 0 <= i < |r.streams| ==> e.mss <= r.streams[i].window
  }

  /** The windows never change. */
  ghost predicate SameWindows(r: Receiver, r': Receiver)
  {
    r'.maxData == r.maxData && |r'.streams| == |r.streams| &&
    forall i :: 0 <= i < |r.streams| ==> r'.streams[i].window == r.streams[i].window
  }

  /** The limits are ahead of what has been read. */
  ghost predicate Ahead(r: Receiver)
  {
    && (r.maxData > 0 ==> r.bytes < r.maxBytes)
    && forall i :: 0 <= i < |r.streams| && r.streams[i].open && r.streams[i].window > 0 ==>
         r.streams[i].bytes < r.streams[i].maxBytes
  }

  /** The sender has the current limits, or frames that carry them are on the network. */
  ghost predicate Announced(s: System)
  {
    && |s.snd.streams| == |s.rcv.streams|
    && (s.snd.maxBytes == s.rcv.maxBytes || s.rcv.maxBytes in s.maxData)
    && forall i :: 0 <= i < |s.rcv.streams| ==>
         s.snd.streams[i].maxBytes == s.rcv.streams[i].maxBytes || Data(i, s.rcv.streams[i].maxBytes) in s.maxStreamData
  }

  lemma ConsumeAhead(r: Receiver, id: nat, n: nat, mss: nat)
    requires ReceiverOk(r) && id < |r.streams| && Ahead(r) && Fitting(r, Read(id, n, mss))
    ensures Ahead(Consume(r, id, n, mss))
  {
    if n > 0 {
      ConsumeReplenishes(r, id, n, mss);
    }
  }

  lemma AnswersAhead(r: Receiver, id: nat)
    requires ReceiverOk(r) && id < |r.streams| && Ahead(r)
    ensures Ahead(AnswerBlocked(r)) && Ahead(AnswerStreamBlocked(r, id))
  {
  }

  lemma StepAhead(s: System, e: Event)
    requires SystemOk(s) && Ahead(s.rcv) && Fitting(s.rcv, e)
    ensures Ahead(Step(s, e).rcv)
  {
    hide SystemOk, ReceiverOk, Fitting;
    ReceiverFits(s);
    if Enabled(s, e) {
      match e
      case Read(id, n, mss) => ConsumeAhead(s.rcv, id, n, mss);
      case Blocked => AnswersAhead(s.rcv, 0);
      case StreamBlocked(id) => AnswersAhead(s.rcv, id);
      case _ =>
    }
  }

  lemma StepAnnounced(s: System, e: Event)
    requires SystemOk(s) && Announced(s)
    ensures Announced(Step(s, e))
  {
    hide Sum;
  }

  /** The sender and the receiver at the start of a connection. */
  lemma InitProgress(s: System)
    requires Init(s)
    ensures Ahead(s.rcv) && Announced(s) && SameWindows(s.rcv, s.rcv)
  {
  }

  /** The windows stay, and the current limits are never forgotten. */
  lemma StepWindows(s: System, e: Event)
    ensures SameWindows(s.rcv, Step(s, e).rcv)
  {
  }

  /** The windows stay, and the current limits are never forgotten. */
  lemma {:induction false} RunAnnounced(s: System, es: seq<Event>)
    requires Init(s)
    ensures Announced(Run(s, es)) && SameWindows(s.rcv, Run(s, es).rcv)
  {
    hide Init, SystemOk, Step, Announced;
    if es == [] {
      InitProgress(s);
    } else {
      var front, e := es[..|es| - 1], es[|es| - 1];
      RunAnnounced(s, front);
      NeverViolated(s, front);
      StepAnnounced(Run(s, front), e);
      StepWindows(Run(s, front), e);
    }
  }

  /** Where packets fit the windows the limits stay ahead of what has been read. */
  lemma {:induction false} RunAhead(s: System, es: seq<Event>)
    requires Init(s) && forall k :: 0 <= k < |es| ==> Fitting(s.rcv, es[k])
    ensures Ahead(Run(s, es).rcv)
  {
    hide Init, SystemOk, Step, Ahead, Announced;
    if es == [] {
      InitProgress(s);
    } else {
      var front, e := es[..|es| - 1], es[|es| - 1];
      RunAhead(s, front);
      RunAnnounced(s, front);
      NeverViolated(s, front);
      StepAhead(Run(s, front), e);
    }
  }

  /** The system once the frames with the current limits have arrived at the sender. */
  function Informed(s: System, id: nat): System
    requires id < |s.rcv.streams|
  {
    Step(Step(s, ArriveMaxData(s.rcv.maxBytes)), ArriveMaxStreamData(Data(id, s.rcv.streams[id].maxBytes)))
  }

  lemma InformedLimits(s: System, id: nat)
    requires SystemOk(s) && Announced(s) && id < |s.rcv.streams|
    ensures var t := Informed(s, id);
            && |t.snd.streams| == |s.snd.streams|
            && t.snd.maxBytes == s.rcv.maxBytes && t.snd.streams[id].maxBytes == s.rcv.streams[id].maxBytes
            && t.snd.bytes == s.snd.bytes && t.snd.streams[id].bytes == s.snd.streams[id].bytes
  {
  }

  /**
   Flow control never blocks a connection for good: after every run in which packets fit the windows,
   once the application has read all that was sent, frames on the network let the sender send more.
   */
  lemma NeverStuck(s: System, es: seq<Event>, id: nat, sndbuf: nat, len: nat, room: nat)
    requires Init(s) && forall k :: 0 <= k < |es| ==> Fitting(s.rcv, es[k])
    requires id < |s.rcv.streams| && s.rcv.maxData > 0 && s.rcv.streams[id].window > 0
    requires sndbuf > 0 && len > 0 && room > 0
    ensures var t := Run(s, es);
            && id < |t.rcv.streams| == |t.snd.streams|
            && (t.rcv.bytes >= t.snd.bytes && t.rcv.streams[id].open &&
                t.rcv.streams[id].bytes >= t.snd.streams[id].bytes ==>
                  && t.rcv.maxBytes > t.snd.bytes && t.rcv.streams[id].maxBytes > t.snd.streams[id].bytes
                  && var u := Informed(t, id);
                     id < |u.snd.streams| && Trim(u.snd, id, sndbuf, len, room) > 0)
  {
    hide Init, SystemOk, Step, Informed, Fitting, Announced;
    RunAhead(s, es);
    RunAnnounced(s, es);
    NeverViolated(s, es);
    var t := Run(s, es);
    ReceiverFits(t);
    InformedLimits(t, id);
  }

  /**
   Where packets do not fit, the frames that tell of being blocked still help: the answers put both
   limits a full window ahead of what was read.
   */
  lemma BlockedHelps(s: System, es: seq<Event>, id: nat, sndbuf: nat, len: nat, room: nat)
    requires Init(s) && id < |s.rcv.streams| && s.rcv.maxData > 0 && s.rcv.streams[id].window > 0
    requires sndbuf > 0 && len > 0 && room > 0
    ensures var t := Run(s, es + [Blocked, StreamBlocked(id)]);
            && id < |t.rcv.streams| == |t.snd.streams|
            && (t.rcv.bytes >= t.snd.bytes && t.rcv.streams[id].open &&
                t.rcv.streams[id].bytes >= t.snd.streams[id].bytes ==>
                  var u := Informed(t, id);
                  id < |u.snd.streams| && Trim(u.snd, id, sndbuf, len, room) > 0)
  {
    hide Init, SystemOk, Step, Informed, Announced, Ahead, ReceiverOk;
    var es' := es + [Blocked];
    assert (es' + [StreamBlocked(id)])[..|es'|] == es' && es'[..|es|] == es;
    assert es' + [StreamBlocked(id)] == es + [Blocked, StreamBlocked(id)];
    var t0 := Run(s, es);
    var t1 := Run(s, es');
    var t := Run(s, es' + [StreamBlocked(id)]);
    RunAnnounced(s, es);
    RunAnnounced(s, es');
    RunAnnounced(s, es' + [StreamBlocked(id)]);
    NeverViolated(s, es);
    NeverViolated(s, es');
    NeverViolated(s, es' + [StreamBlocked(id)]);
    ReceiverFits(t);
    AnsweredAhead(t0, id);
    InformedLimits(t, id);
  }

  /** After both answers the limits are a window ahead. */
  lemma AnsweredAhead(s: System, id: nat)
    requires SystemOk(s) && id < |s.rcv.streams|
    ensures var t := Step(Step(s, Blocked), StreamBlocked(id)).rcv;
            && id < |t.streams| && t.maxBytes == t.bytes + s.rcv.maxData
            && (t.streams[id].open ==> t.streams[id].maxBytes == t.streams[id].bytes + s.rcv.streams[id].window)
  {
  }
}
