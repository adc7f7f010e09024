/**
 Who owns a frame on the sending side of modules/net/quic/outqueue.c: the queue it is on and the
 sent packets that carried it. A frame is its index in the sequence of all frames ever queued.
 */
module Ownership {
  import opened SentPackets

  /** `Reset` is RESET_STREAM; `Silent` stands for the frames that need no acknowledgment. */
  datatype Kind = StreamData | Reset | Crypto | Control | Datagram | Ping | Silent

  datatype Queue = Nowhere | StreamQ | ControlQ | DatagramQ | TransmittedQ | PacketQ

  datatype Ack = NotAcked | AckedIn(level: nat, number: int)

  /** struct quic_frame on the sending side. `stream` is the stream it names, or -1; `number` is the
      first packet number used, or negative;
      `ack` records the packet that carried the frame and was acknowledged while it was queued. */
  datatype Frame = Frame(
    kind: Kind, stream: int, bytes: nat, len: nat, fin: bool, nodelay: bool,
    number: int, refcnt: nat, at: Queue, transmitted: bool, ack: Ack)

  /** Send states of section 3.1 of RFC 9000. */
  datatype SendState = Ready | Sending | DataSent | DataRecvd | ResetSent | ResetRecvd

  datatype SendStream = SendStream(state: SendState, frags: int, bytes: nat)

  /** Frames that are kept until acknowledged. */
  predicate Tracked(k: Kind)
  {
    k != Ping && k != Silent
  }

  predicate Queued(f: Frame)
  {
    f.at != Nowhere
  }

  // ---------- sums over frames ----------

  function Sum(fs: seq<Frame>, w: Frame -> nat): nat
  {
    if fs == [] then 0 else Sum(fs[..|fs| - 1], w) + w(fs[|fs| - 1])
  }

  /** What a frame is charged for. */
  function Charge(f: Frame): nat
  {
    if Queued(f) then f.bytes else 0
  }

  /** One for each STREAM frame of a stream that is queued. */
  function Live(s: nat): Frame -> nat
  {
    (f: Frame) => if Queued(f) && f.kind == StreamData && f.stream == s then 1 else 0
  }

  /** The data bytes of each STREAM frame of a stream. */
  function DataOf(s: nat): Frame -> nat
  {
    (f: Frame) => if f.kind == StreamData && f.stream == s then f.bytes else 0
  }

  lemma {:induction false} SumUpdate(fs: seq<Frame>, i: nat, x: Frame, w: Frame -> nat)
    requires i < |fs|
    ensures Sum(fs[i := x], w) == Sum(fs, w) - w(fs[i]) + w(x)
  {
    var n := |fs| - 1;
    if i == n {
      assert fs[i := x][..n] == fs[..n];
    } else {
      assert fs[i := x][..n] == fs[..n][i := x];
      SumUpdate(fs[..n], i, x, w);
    }
  }

  lemma SumAppend(fs: seq<Frame>, x: Frame, w: Frame -> nat)
    ensures Sum(fs + [x], w) == Sum(fs, w) + w(x)
  {
    assert (fs + [x])[..|fs|] == fs;
  }

  lemma {:induction false} SumZeroMeans(fs: seq<Frame>, w: Frame -> nat, i: nat)
    requires Sum(fs, w) == 0 && i < |fs|
    ensures w(fs[i]) == 0
  {
    if i < |fs| - 1 {
      SumZeroMeans(fs[..|fs| - 1], w, i);
    }
  }

  lemma {:induction false} SumOfZeros(fs: seq<Frame>, w: Frame -> nat)
    requires forall i :: 0 <= i < |fs| ==> w(fs[i]) == 0
    ensures Sum(fs, w) == 0
  {
    if fs != [] {
      SumOfZeros(fs[..|fs| - 1], w);
    }
  }

  // ---------- references ----------

  /** A record's copy of a frame carried all the data the frame has. */
  predicate CopyOk(c: Copy, fs: seq<Frame>)
  {
    && c.frame < |fs|
    && Tracked(fs[c.frame].kind)
    && fs[c.frame].number >= 0
    && c.carried == fs[c.frame].bytes
  }

  ghost predicate CopiesOk(cs: seq<Copy>, fs: seq<Frame>)
  {
    forall i :: 0 <= i < |cs| ==> CopyOk(cs[i], fs)
  }

  ghost predicate RecordsOk(ps: seq<Sent>, fs: seq<Frame>)
  {
    forall i :: 0 <= i < |ps| ==> CopiesOk(ps[i].copies, fs)
  }

  function Owners(fs: seq<Frame>, ps: seq<Sent>, hand: seq<Copy>, f: nat): nat
    requires f < |fs|
  {
    (if Queued(fs[f]) then 1 else 0) + Refs(ps, f) + CopiesOf(hand, f)
  }

  /** A frame that waits to be acknowledged is named by a copy, so that it will be heard of again;
      only such a frame, or one in the packet under construction, counts as transmitted. */
  predicate Placed(f: Frame, refs: nat)
  {
    && (f.at == TransmittedQ ==> f.transmitted && refs > 0)
    && (f.transmitted ==> f.at == TransmittedQ || f.at == PacketQ || f.at == Nowhere)
  }

  /** Every frame is referenced once by the queue it is on and once by each copy in a record or in
      `hand`, only frames that need no acknowledgment carry no data, and no frame is forgotten on
      the list of transmitted frames. */
  ghost predicate Owned(fs: seq<Frame>, ps: seq<Sent>, hand: seq<Copy>)
  {
    && RecordsOk(ps, fs) && CopiesOk(hand, fs)
    && (forall f :: 0 <= f < |fs| ==> fs[f].refcnt == Owners(fs, ps, hand, f))
    && (forall f :: 0 <= f < |fs| && !Tracked(fs[f].kind) ==> fs[f].bytes == 0)
    && (forall f :: 0 <= f < |fs| ==> Placed(fs[f], Refs(ps, f) + CopiesOf(hand, f)))
  }

  /** A frame that was sent keeps its data, so every record keeps naming all of it. */
  lemma RecordsKept(fs: seq<Frame>, ps: seq<Sent>, i: nat, x: Frame)
    requires RecordsOk(ps, fs) && i < |fs| && x.kind == fs[i].kind
    requires fs[i].number >= 0 ==> x.bytes == fs[i].bytes && x.number >= 0
    ensures RecordsOk(ps, fs[i := x])
  {
    var fs' := fs[i := x];
    forall k | 0 <= k < |ps| ensures CopiesOk(ps[k].copies, fs') {
      forall j | 0 <= j < |ps[k].copies| ensures CopyOk(ps[k].copies[j], fs') {
        assert CopiesOk(ps[k].copies, fs);
        assert CopyOk(ps[k].copies[j], fs);
      }
    }
  }

  /** A frame with a new reference count, place or data, with the rest of the ownership as before. */
  lemma OwnedUpdate(fs: seq<Frame>, ps: seq<Sent>, hand: seq<Copy>, hand': seq<Copy>, i: nat, x: Frame)
    requires Owned(fs, ps, hand) && i < |fs| && CopiesOk(hand', fs[i := x])
    requires x.kind == fs[i].kind && (Tracked(x.kind) || x.bytes == 0)
    requires fs[i].number >= 0 ==> x.bytes == fs[i].bytes && x.number >= 0
    requires forall f :: 0 <= f < |fs| && f != i ==> CopiesOf(hand', f) == CopiesOf(hand, f)
    requires x.refcnt == (if Queued(x) then 1 else 0) + Refs(ps, i) + CopiesOf(hand', i)
    requires Placed(x, Refs(ps, i) + CopiesOf(hand', i))
    ensures Owned(fs[i := x], ps, hand')
  {
    hide RecordsOk, CopiesOk, Placed, CopiesOf, Refs;
    RecordsKept(fs, ps, i, x);
  }

  lemma {:induction false} RefsNone(ps: seq<Sent>, fs: seq<Frame>, f: nat)
    requires RecordsOk(ps, fs) && (f >= |fs| || fs[f].number < 0)
    ensures Refs(ps, f) == 0
  {
    if ps != [] {
      var p := ps[|ps| - 1];
      assert CopiesOk(p.copies, fs);
      forall c | c in p.copies ensures c.frame != f {
        assert CopyOk(c, fs);
      }
      CopiesZero(p.copies, f);
      RefsNone(ps[..|ps| - 1], fs, f);
    }
  }

  /** A new frame on a queue. */
  lemma OwnedAppend(fs: seq<Frame>, ps: seq<Sent>, x: Frame)
    requires Owned(fs, ps, [])
    requires Queued(x) && x.refcnt == 1 && (Tracked(x.kind) || x.bytes == 0) && x.at != TransmittedQ && !x.transmitted
    ensures Owned(fs + [x], ps, [])
  {
    var fs' := fs + [x];
    RefsNone(ps, fs, |fs|);
    forall k | 0 <= k < |ps| ensures CopiesOk(ps[k].copies, fs') {
      forall j | 0 <= j < |ps[k].copies| ensures CopyOk(ps[k].copies[j], fs') {
        assert CopiesOk(ps[k].copies, fs);
        assert CopyOk(ps[k].copies[j], fs);
      }
    }
  }

  /** More data on a frame that no packet has carried. */
  lemma OwnedGrow(fs: seq<Frame>, ps: seq<Sent>, i: nat, x: Frame)
    requires Owned(fs, ps, []) && i < |fs| && fs[i].number < 0 && Tracked(fs[i].kind)
    requires x.kind == fs[i].kind && x.at == fs[i].at && x.transmitted == fs[i].transmitted && x.refcnt == fs[i].refcnt
    ensures Owned(fs[i := x], ps, [])
  {
    hide RecordsOk, CopiesOf, Refs;
    assert Placed(fs[i], Refs(ps, i) + CopiesOf([], i));
    OwnedUpdate(fs, ps, [], [], i, x);
  }

  /** A record leaves the list and its copies are in hand, or the other way round. */
  lemma OwnedMove(fs: seq<Frame>, a: seq<Sent>, p: Sent, b: seq<Sent>)
    ensures Owned(fs, a + [p] + b, []) <==> Owned(fs, a + b, p.copies)
  {
    WithRecord(a, p, b);
    var ps, qs := a + [p] + b, a + b;
    assert ps[|a|] == p;
    assert forall i :: 0 <= i < |qs| ==> qs[i] == ps[if i < |a| then i else i + 1];
    if RecordsOk(ps, fs) {
      forall i | 0 <= i < |qs| ensures CopiesOk(qs[i].copies, fs) {
        assert CopiesOk(ps[if i < |a| then i else i + 1].copies, fs);
      }
      assert CopiesOk(ps[|a|].copies, fs);
    }
    if RecordsOk(qs, fs) && CopiesOk(p.copies, fs) {
      forall i | 0 <= i < |ps| ensures CopiesOk(ps[i].copies, fs) {
        if i != |a| {
          assert CopiesOk(qs[if i < |a| then i else i - 1].copies, fs);
        }
      }
    }
    assert forall f :: 0 <= f < |fs| ==> Owners(fs, ps, [], f) == Owners(fs, qs, p.copies, f);
    assert forall f :: 0 <= f < |fs| ==> Refs(ps, f) + CopiesOf([], f) == Refs(qs, f) + CopiesOf(p.copies, f);
  }

  // ---------- streams ----------

  predicate IsReset(s: SendStream)
  {
    s.state == ResetSent || s.state == ResetRecvd
  }

  ghost predicate HasFin(fs: seq<Frame>, s: nat)
  {
    exists i :: 0 <= i < |fs| && fs[i].kind == StreamData && fs[i].stream == s && fs[i].fin
  }

  /** Absent a reset: frags counts the STREAM frames not yet acknowledged, which are those on a
      queue, and the state tells whether FIN was queued and whether all was acknowledged. */
  ghost predicate StreamOk(fs: seq<Frame>, st: SendStream, s: nat)
  {
    IsReset(st) ||
    (&& st.frags == Sum(fs, Live(s))
     && st.bytes == Sum(fs, DataOf(s))
     && (forall i :: 0 <= i < |fs| && fs[i].kind == StreamData && fs[i].stream == s ==> Queued(fs[i]) == !fs[i].ack.AckedIn?)
     && (HasFin(fs, s) <==> st.state == DataSent || st.state == DataRecvd)
     && (st.state == DataRecvd ==> st.frags == 0)
     && (st.state == DataSent ==> st.frags > 0))
  }

  /** Every stream is as its frames say, and only streams that were reset have a RESET_STREAM. */
  ghost predicate StreamsOk(fs: seq<Frame>, ss: seq<SendStream>)
  {
    && (forall i :: 0 <= i < |fs| && fs[i].kind == StreamData ==> 0 <= fs[i].stream < |ss|)
    && (forall i :: 0 <= i < |fs| && fs[i].kind == Reset ==> 0 <= fs[i].stream < |ss| && IsReset(ss[fs[i].stream]))
    && (forall s :: 0 <= s < |ss| ==> StreamOk(fs, ss[s], s))
  }

  /** "Data Recvd" is earned, and granted as soon as it is: a stream is in that state exactly when
      FIN was queued and every STREAM frame ever queued was acknowledged; then these frames are all
      the bytes of the stream. */
  lemma DataRecvdEarned(fs: seq<Frame>, ss: seq<SendStream>, s: nat)
    requires StreamsOk(fs, ss) && s < |ss| && !IsReset(ss[s])
    ensures ss[s].state == DataRecvd <==>
            && HasFin(fs, s)
            && forall i :: 0 <= i < |fs| && fs[i].kind == StreamData && fs[i].stream == s ==> fs[i].ack.AckedIn?
    ensures ss[s].bytes == Sum(fs, DataOf(s))
  {
    assert StreamOk(fs, ss[s], s);
    if ss[s].state == DataRecvd {
      forall i | 0 <= i < |fs| && fs[i].kind == StreamData && fs[i].stream == s ensures fs[i].ack.AckedIn? {
        SumZeroMeans(fs, Live(s), i);
      }
    } else if forall i :: 0 <= i < |fs| && fs[i].kind == StreamData && fs[i].stream == s ==> fs[i].ack.AckedIn? {
      SumOfZeros(fs, Live(s));
    }
  }

  /** Changing a frame without changing whose data it is, whether it is queued, or its data. */
  lemma StreamsSame(fs: seq<Frame>, ss: seq<SendStream>, i: nat, x: Frame)
    requires StreamsOk(fs, ss) && i < |fs|
    requires x.kind == fs[i].kind && x.stream == fs[i].stream && x.bytes == fs[i].bytes && x.fin == fs[i].fin
    requires x.kind == StreamData ==> Queued(x) == Queued(fs[i]) && x.ack == fs[i].ack
    ensures StreamsOk(fs[i := x], ss)
  {
    var fs' := fs[i := x];
    forall s | 0 <= s < |ss| ensures StreamOk(fs', ss[s], s) {
      assert StreamOk(fs, ss[s], s);
      SumUpdate(fs, i, x, Live(s));
      SumUpdate(fs, i, x, DataOf(s));
      FinSame(fs, fs', s);
      FinSame(fs', fs, s);
    }
  }

  lemma FinSame(fs: seq<Frame>, gs: seq<Frame>, s: nat)
    requires |fs| <= |gs|
    requires forall i :: 0 <= i < |fs| && fs[i].kind == StreamData && fs[i].stream == s && fs[i].fin ==>
               gs[i].kind == StreamData && gs[i].stream == s && gs[i].fin
    ensures HasFin(fs, s) ==> HasFin(gs, s)
  {
    if HasFin(fs, s) {
      var i :| 0 <= i < |fs| && fs[i].kind == StreamData && fs[i].stream == s && fs[i].fin;
      assert gs[i].fin;
    }
  }

  /** A frame of stream `s` changes and so does the record of that stream; the others see no difference. */
  lemma StreamsUpdate(fs: seq<Frame>, ss: seq<SendStream>, i: nat, x: Frame, st: SendStream)
    requires StreamsOk(fs, ss) && i < |fs|
    requires fs[i].kind == x.kind == StreamData && 0 <= x.stream == fs[i].stream < |ss|
    requires StreamOk(fs[i := x], st, x.stream) && IsReset(st) == IsReset(ss[x.stream])
    ensures StreamsOk(fs[i := x], ss[x.stream := st])
  {
    var fs' := fs[i := x];
    forall s | 0 <= s < |ss| && s != x.stream ensures StreamOk(fs', ss[s], s) {
      assert StreamOk(fs, ss[s], s);
      SumUpdate(fs, i, x, Live(s));
      SumUpdate(fs, i, x, DataOf(s));
      FinSame(fs, fs', s);
      FinSame(fs', fs, s);
    }
  }

  /** The stream once one of its queued frames is acknowledged, as quic_frame_stream_ack leaves it. */
  function StreamAcked(st: SendStream): SendStream
  {
    st.(frags := st.frags - 1,
        state := if st.frags == 1 && st.state == DataSent then DataRecvd else st.state)
  }

  lemma StreamAckOk(fs: seq<Frame>, ss: seq<SendStream>, i: nat, x: Frame)
    requires StreamsOk(fs, ss) && i < |fs| && fs[i].kind == StreamData && Queued(fs[i])
    requires x.kind == StreamData && x.stream == fs[i].stream && x.bytes == fs[i].bytes && x.fin == fs[i].fin
    requires !Queued(x) && x.ack.AckedIn?
    ensures 0 <= x.stream < |ss| && StreamsOk(fs[i := x], ss[x.stream := StreamAcked(ss[x.stream])])
  {
    var s, fs' := x.stream, fs[i := x];
    assert StreamOk(fs, ss[s], s);
    SumUpdate(fs, i, x, Live(s));
    SumUpdate(fs, i, x, DataOf(s));
    FinSame(fs, fs', s);
    FinSame(fs', fs, s);
    StreamsUpdate(fs, ss, i, x, StreamAcked(ss[s]));
  }

  /** The stream once `n` more bytes are queued, with FIN or not. */
  function StreamQueued(st: SendStream, frags: nat, n: nat, fin: bool): SendStream
  {
    st.(frags := st.frags + frags, bytes := st.bytes + n,
        state := if fin then DataSent else if st.state == Ready then Sending else st.state)
  }

  lemma StreamQueueOk(fs: seq<Frame>, ss: seq<SendStream>, x: Frame)
    requires StreamsOk(fs, ss) && x.kind == StreamData && 0 <= x.stream < |ss| && Queued(x) && !x.ack.AckedIn?
    requires ss[x.stream].state == Ready || ss[x.stream].state == Sending
    ensures StreamsOk(fs + [x], ss[x.stream := StreamQueued(ss[x.stream], 1, x.bytes, x.fin)])
  {
    var fs', ss' := fs + [x], ss[x.stream := StreamQueued(ss[x.stream], 1, x.bytes, x.fin)];
    forall s | 0 <= s < |ss| ensures StreamOk(fs', ss'[s], s) {
      assert StreamOk(fs, ss[s], s);
      SumAppend(fs, x, Live(s));
      SumAppend(fs, x, DataOf(s));
      FinSame(fs, fs', s);
      if x.fin && s == x.stream {
        assert fs'[|fs|] == x;
      }
      if HasFin(fs', s) && !(x.fin && s == x.stream) {
        var i :| 0 <= i < |fs'| && fs'[i].kind == StreamData && fs'[i].stream == s && fs'[i].fin;
        assert fs[i] == fs'[i];
      }
    }
  }

  /** Data appended to the frame at the tail of the stream queue. */
  lemma StreamAppendOk(fs: seq<Frame>, ss: seq<SendStream>, i: nat, n: nat, fin: bool, x: Frame)
    requires StreamsOk(fs, ss) && i < |fs| && fs[i].kind == StreamData && Queued(fs[i])
    requires ss[fs[i].stream].state == Sending
    requires x.kind == StreamData && x.stream == fs[i].stream && x.at == fs[i].at && x.ack == fs[i].ack
    requires x.bytes == fs[i].bytes + n && x.fin == (fs[i].fin || fin)
    ensures StreamsOk(fs[i := x], ss[x.stream := StreamQueued(ss[x.stream], 0, n, fin)])
  {
    var s, fs' := x.stream, fs[i := x];
    assert StreamOk(fs, ss[s], s);
    SumUpdate(fs, i, x, Live(s));
    SumUpdate(fs, i, x, DataOf(s));
    FinSame(fs, fs', s);
    if fin {
      assert fs'[i].fin;
    }
    if ss[s].frags <= 0 {
      SumZeroMeans(fs, Live(s), i);
    }
    StreamsUpdate(fs, ss, i, x, StreamQueued(ss[s], 0, n, fin));
  }

  /** A frame that carries no stream data joins a queue. */
  lemma OtherQueueOk(fs: seq<Frame>, ss: seq<SendStream>, x: Frame)
    requires StreamsOk(fs, ss) && x.kind != StreamData
    requires x.kind == Reset ==> 0 <= x.stream < |ss| && IsReset(ss[x.stream])
    ensures StreamsOk(fs + [x], ss)
  {
    var fs' := fs + [x];
    forall s | 0 <= s < |ss| ensures StreamOk(fs', ss[s], s) {
      assert StreamOk(fs, ss[s], s);
      SumAppend(fs, x, Live(s));
      SumAppend(fs, x, DataOf(s));
      FinSame(fs, fs', s);
      if HasFin(fs', s) {
        var i :| 0 <= i < |fs'| && fs'[i].kind == StreamData && fs'[i].stream == s && fs'[i].fin;
        assert fs[i] == fs'[i];
      }
    }
  }

  /** A stream that is reset makes no further promise about its frames. */
  lemma ResetOk(fs: seq<Frame>, ss: seq<SendStream>, s: nat, st: SendStream)
    requires StreamsOk(fs, ss) && s < |ss| && IsReset(st)
    ensures StreamsOk(fs, ss[s := st])
  {
  }

  /** A RESET_STREAM is acknowledged. */
  lemma ResetAckOk(fs: seq<Frame>, ss: seq<SendStream>, i: nat, x: Frame)
    requires StreamsOk(fs, ss) && i < |fs| && fs[i].kind == x.kind == Reset && x.stream == fs[i].stream
    requires x.bytes == fs[i].bytes && x.fin == fs[i].fin
    ensures 0 <= x.stream < |ss| && IsReset(ss[x.stream])
    ensures StreamsOk(fs[i := x], ss[x.stream := ss[x.stream].(state := ResetRecvd)])
  {
    StreamsSame(fs, ss, i, x);
    ResetOk(fs[i := x], ss, x.stream, ss[x.stream].(state := ResetRecvd));
  }

  /** What acknowledgments may do to the streams: all data received, or the reset received. No
      stream is reset by it, and none is forgotten. */
  ghost predicate StreamsEvolve(ss: seq<SendStream>, ts: seq<SendStream>)
  {
    && |ss| == |ts|
    && forall s :: 0 <= s < |ss| ==>
         && ts[s].bytes == ss[s].bytes && ts[s].frags <= ss[s].frags
         && (ts[s].state == ss[s].state ||
             (ss[s].state == DataSent && ts[s].state == DataRecvd) ||
             (IsReset(ss[s]) && ts[s].state == ResetRecvd))
  }

  lemma StreamsEvolveTrans(ss: seq<SendStream>, ts: seq<SendStream>, us: seq<SendStream>)
    requires StreamsEvolve(ss, ts) && StreamsEvolve(ts, us)
    ensures StreamsEvolve(ss, us)
  {
  }

  lemma StreamsEvolveSame(ss: seq<SendStream>)
    ensures StreamsEvolve(ss, ss)
  {
  }

  // ---------- giving up a copy ----------

  /** The frame once a copy in hand is dropped because its packet was acknowledged. */
  function AfterAck(f: Frame, ack: Ack): Frame
    requires f.refcnt >= if Queued(f) then 2 else 1
  {
    if !Queued(f) then f.(refcnt := f.refcnt - 1)
    else f.(refcnt := f.refcnt - 2, at := Nowhere, transmitted := false, ack := ack)
  }

  /** The queue quic_outq_retransmit_frame puts a frame on. */
  function Home(k: Kind): Queue
  {
    if k == StreamData then StreamQ else ControlQ
  }

  /** The frame once a copy in hand is dropped because its packet was lost: back on a queue,
      except for datagrams, which are not sent again. */
  function AfterLoss(f: Frame): Frame
    requires f.refcnt >= if Queued(f) then 2 else 1
  {
    if !Queued(f) || !f.transmitted then f.(refcnt := f.refcnt - 1)
    else if f.kind == Datagram || f.kind == Ping then f.(refcnt := f.refcnt - 2, at := Nowhere)
    else f.(refcnt := f.refcnt - 1, transmitted := false, at := Home(f.kind))
  }

  lemma CopyInHand(fs: seq<Frame>, ps: seq<Sent>, c: Copy, rest: seq<Copy>)
    requires Owned(fs, ps, [c] + rest)
    ensures CopyOk(c, fs) && fs[c.frame].refcnt >= if Queued(fs[c.frame]) then 2 else 1
    ensures Placed(fs[c.frame], Refs(ps, c.frame) + CopiesOf([c] + rest, c.frame))
  {
    assert ([c] + rest)[0] == c;
    CopiesCons(c, rest, c.frame);
  }

  /** Dropping a copy in hand, with whatever happens to the frame's place. */
  lemma OwnedDrop(fs: seq<Frame>, ps: seq<Sent>, c: Copy, rest: seq<Copy>, x: Frame)
    requires Owned(fs, ps, [c] + rest) && CopyOk(c, fs)
    requires x.kind == fs[c.frame].kind && x.bytes == fs[c.frame].bytes && x.number == fs[c.frame].number
    requires var f := fs[c.frame];
             x.refcnt + 1 + (if Queued(f) then 1 else 0) == f.refcnt + (if Queued(x) then 1 else 0)
    requires x.at == Nowhere || (x.at != TransmittedQ && !x.transmitted)
    ensures Owned(fs[c.frame := x], ps, rest)
  {
    var fs' := fs[c.frame := x];
    forall f | 0 <= f < |fs| ensures CopiesOf([c] + rest, f) == (if c.frame == f then 1 else 0) + CopiesOf(rest, f) {
      CopiesCons(c, rest, f);
    }
    forall i | 0 <= i < |rest| ensures CopyOk(rest[i], fs') {
      assert ([c] + rest)[i + 1] == rest[i];
    }
    assert fs[c.frame].refcnt == Owners(fs, ps, [c] + rest, c.frame);
    OwnedUpdate(fs, ps, [c] + rest, rest, c.frame, x);
  }

  /** What no operation ever changes about a frame, and that an acknowledgment is never taken back. */
  ghost predicate Evolves(fs: seq<Frame>, gs: seq<Frame>)
  {
    && |fs| == |gs|
    && forall i :: 0 <= i < |fs| ==>
         && gs[i].kind == fs[i].kind && gs[i].stream == fs[i].stream && gs[i].bytes == fs[i].bytes
         && gs[i].fin == fs[i].fin && gs[i].number == fs[i].number && (fs[i].ack.AckedIn? ==> gs[i].ack.AckedIn?)
         && (!Queued(fs[i]) ==> !Queued(gs[i]))
  }

  lemma AckOwned(fs: seq<Frame>, ps: seq<Sent>, c: Copy, rest: seq<Copy>, ack: Ack)
    requires Owned(fs, ps, [c] + rest)
    ensures CopyOk(c, fs) && fs[c.frame].refcnt >= if Queued(fs[c.frame]) then 2 else 1
    ensures Owned(fs[c.frame := AfterAck(fs[c.frame], ack)], ps, rest)
    ensures Sum(fs, Charge) == Sum(fs[c.frame := AfterAck(fs[c.frame], ack)], Charge) + Charge(fs[c.frame])
  {
    CopyInHand(fs, ps, c, rest);
    OwnedDrop(fs, ps, c, rest, AfterAck(fs[c.frame], ack));
    SumUpdate(fs, c.frame, AfterAck(fs[c.frame], ack), Charge);
  }

  lemma LossOwned(fs: seq<Frame>, ps: seq<Sent>, c: Copy, rest: seq<Copy>)
    requires Owned(fs, ps, [c] + rest)
    ensures CopyOk(c, fs) && fs[c.frame].refcnt >= if Queued(fs[c.frame]) then 2 else 1
    ensures Owned(fs[c.frame := AfterLoss(fs[c.frame])], ps, rest)
    ensures var x := AfterLoss(fs[c.frame]);
            Sum(fs, Charge) == Sum(fs[c.frame := x], Charge) + Charge(fs[c.frame]) - Charge(x)
  {
    CopyInHand(fs, ps, c, rest);
    OwnedDrop(fs, ps, c, rest, AfterLoss(fs[c.frame]));
    SumUpdate(fs, c.frame, AfterLoss(fs[c.frame]), Charge);
  }

  lemma EvolvesTrans(fs: seq<Frame>, gs: seq<Frame>, hs: seq<Frame>)
    requires Evolves(fs, gs) && Evolves(gs, hs)
    ensures Evolves(fs, hs)
  {
  }

  /** None of the frames copied is queued any more. */
  ghost predicate Released(cs: seq<Copy>, fs: seq<Frame>)
  {
    forall i :: 0 <= i < |cs| ==> cs[i].frame < |fs| && !Queued(fs[cs[i].frame])
  }

  /** The packets from position `i` on that are in the acknowledged range have released their frames. */
  ghost predicate AckedReleased(ps: seq<Sent>, i: nat, level: nat, largest: int, smallest: int, fs: seq<Frame>)
  {
    forall k :: i <= k < |ps| && Acked(ps[k], level, largest, smallest) ==> Released(ps[k].copies, fs)
  }

  /** One more packet scanned; if it is acknowledged it has just released its frames. */
  lemma ReleasedStep(ps: seq<Sent>, i: nat, level: nat, largest: int, smallest: int, fs: seq<Frame>, gs: seq<Frame>)
    requires AckedReleased(ps, i + 1, level, largest, smallest, fs) && Evolves(fs, gs) && i < |ps|
    requires Acked(ps[i], level, largest, smallest) ==> Released(ps[i].copies, gs)
    ensures AckedReleased(ps, i, level, largest, smallest, gs)
  {
  }

  lemma ReleasedAll(ps: seq<Sent>, i: nat, level: nat, largest: int, smallest: int, fs: seq<Frame>)
    requires AckedReleased(ps, i, level, largest, smallest, fs) && i < |ps|
    requires forall k :: 0 <= k < i ==> !Acked(ps[k], level, largest, smallest)
    ensures AckedReleased(ps, 0, level, largest, smallest, fs)
  {
  }

  lemma EvolvesSame(fs: seq<Frame>)
    ensures Evolves(fs, fs)
  {
  }

  /** Loss takes no frame off its queues for good, except datagrams, and acknowledges nothing. */
  ghost predicate Requeued(fs: seq<Frame>, gs: seq<Frame>)
  {
    && Evolves(fs, gs)
    && (forall k :: 0 <= k < |fs| && fs[k].kind != Datagram ==> Queued(gs[k]) == Queued(fs[k]))
    && (forall k :: 0 <= k < |fs| ==> gs[k].ack == fs[k].ack)
  }

  /**
   What loss does to a frame, `named` being whether a lost packet carried it: if it was waiting for an
   acknowledgment it is to be sent again, on the stream list or the control list by its kind, except
   for a datagram, which is dropped; in every other case it stays where it is.
   */
  predicate SentAgain(f: Frame, g: Frame, named: bool)
  {
    if named && Queued(f) && f.transmitted then
      if f.kind == Datagram then !Queued(g)
      else !g.transmitted && g.at == if f.kind == StreamData then StreamQ else ControlQ
    else g.at == f.at && g.transmitted == f.transmitted
  }

  /** The same for all frames; `names` are those that lost packets carried. */
  ghost predicate AllSentAgain(fs: seq<Frame>, gs: seq<Frame>, names: set<nat>)
  {
    && |fs| == |gs|
    && forall k :: 0 <= k < |fs| ==> gs[k].kind == fs[k].kind && SentAgain(fs[k], gs[k], k in names)
  }

  lemma SentAgainTrans(fs: seq<Frame>, gs: seq<Frame>, hs: seq<Frame>, a: set<nat>, b: set<nat>)
    requires AllSentAgain(fs, gs, a) && AllSentAgain(gs, hs, b)
    ensures AllSentAgain(fs, hs, a + b)
  {
    forall k | 0 <= k < |fs| ensures SentAgain(fs[k], hs[k], k in a + b) {
      assert SentAgain(fs[k], gs[k], k in a) && SentAgain(gs[k], hs[k], k in b);
    }
  }

  lemma SentAgainNone(fs: seq<Frame>)
    ensures AllSentAgain(fs, fs, {})
  {
  }

  /** Nothing that is to be acknowledged is ever stranded: a frame on a queue waits to be sent, or a
      sent packet that is still outstanding carried all its data. */
  lemma NothingStranded(fs: seq<Frame>, ps: seq<Sent>, f: nat)
    requires Owned(fs, ps, []) && f < |fs| && Queued(fs[f])
    ensures fs[f].at in {StreamQ, ControlQ, DatagramQ, PacketQ} ||
            exists i :: 0 <= i < |ps| && Copy(f, fs[f].bytes) in ps[i].copies
  {
    if fs[f].at == TransmittedQ {
      assert Placed(fs[f], Refs(ps, f) + CopiesOf([], f));
      var i, c := RefsSome(ps, f);
      assert CopiesOk(ps[i].copies, fs) && CopyOk(ps[i].copies[c], fs);
      assert ps[i].copies[c] == Copy(f, fs[f].bytes);
    }
  }

  lemma {:induction false} RefsSome(ps: seq<Sent>, f: nat) returns (i: nat, c: nat)
    requires Refs(ps, f) > 0
    ensures i < |ps| && c < |ps[i].copies| && ps[i].copies[c].frame == f
  {
    var n := |ps| - 1;
    if CopiesOf(ps[n].copies, f) > 0 {
      i := n;
      c := CopiesSome(ps[n].copies, f);
    } else {
      i, c := RefsSome(ps[..n], f);
    }
  }

  lemma {:induction false} CopiesSome(cs: seq<Copy>, f: nat) returns (c: nat)
    requires CopiesOf(cs, f) > 0
    ensures c < |cs| && cs[c].frame == f
  {
    c := |cs| - 1;
    if cs[c].frame != f {
      c := CopiesSome(cs[..c], f);
    }
  }

  /** A stream with data that is not acknowledged can go on: some frame of it waits to be sent or is
      in an outstanding packet. */
  lemma StreamGoesOn(fs: seq<Frame>, ss: seq<SendStream>, ps: seq<Sent>, s: nat)
    requires Owned(fs, ps, []) && StreamsOk(fs, ss) && s < |ss| && ss[s].state == DataSent
    ensures exists f :: 0 <= f < |fs| && fs[f].kind == StreamData && fs[f].stream == s && !fs[f].ack.AckedIn? &&
              (fs[f].at in {StreamQ, ControlQ, DatagramQ, PacketQ} ||
               exists i :: 0 <= i < |ps| && Copy(f, fs[f].bytes) in ps[i].copies)
  {
    hide Owned;
    assert StreamOk(fs, ss[s], s);
    if forall f :: 0 <= f < |fs| ==> Live(s)(fs[f]) == 0 {
      SumOfZeros(fs, Live(s));
    }
    var f :| 0 <= f < |fs| && Live(s)(fs[f]) != 0;
    NothingStranded(fs, ps, f);
  }

  lemma RequeuedTrans(fs: seq<Frame>, gs: seq<Frame>, hs: seq<Frame>)
    requires Requeued(fs, gs) && Requeued(gs, hs)
    ensures Requeued(fs, hs)
  {
  }

  lemma RequeuedSame(fs: seq<Frame>)
    ensures Requeued(fs, fs)
  {
  }

  // ---------- who earned an acknowledgment ----------

  /** The frame was acknowledged by this packet, which carried all its data. */
  predicate NamedBy(p: Sent, f: Frame, k: nat)
  {
    f.ack == AckedIn(p.level, p.number) && Copy(k, f.bytes) in p.copies
  }

  /** Every frame that changed was acknowledged by this packet. */
  ghost predicate Earned(fs: seq<Frame>, gs: seq<Frame>, p: Sent)
  {
    |fs| == |gs| && forall k :: 0 <= k < |fs| ==> gs[k].ack == fs[k].ack || NamedBy(p, gs[k], k)
  }

  /** Every frame that changed was acknowledged by one of these packets that is in the range. */
  ghost predicate EarnedIn(fs: seq<Frame>, gs: seq<Frame>, ps: seq<Sent>, level: nat, largest: int, smallest: int)
  {
    |fs| == |gs| && forall k :: 0 <= k < |fs| ==>
      gs[k].ack == fs[k].ack || exists p :: p in ps && Acked(p, level, largest, smallest) && NamedBy(p, gs[k], k)
  }

  lemma EarnedNone(fs: seq<Frame>, ps: seq<Sent>, level: nat, largest: int, smallest: int)
    ensures EarnedIn(fs, fs, ps, level, largest, smallest)
  {
  }

  lemma EarnedStep(fs: seq<Frame>, gs: seq<Frame>, hs: seq<Frame>, ps: seq<Sent>, p: Sent,
                   level: nat, largest: int, smallest: int)
    requires EarnedIn(fs, gs, ps, level, largest, smallest) && Earned(gs, hs, p) && Evolves(gs, hs)
    requires p in ps && Acked(p, level, largest, smallest)
    ensures EarnedIn(fs, hs, ps, level, largest, smallest)
  {
    forall k | 0 <= k < |fs| && hs[k].ack != fs[k].ack
      ensures exists q :: q in ps && Acked(q, level, largest, smallest) && NamedBy(q, hs[k], k)
    {
      if hs[k].ack == gs[k].ack {
        var q :| q in ps && Acked(q, level, largest, smallest) && NamedBy(q, gs[k], k);
        assert NamedBy(q, hs[k], k);
      } else {
        assert NamedBy(p, hs[k], k);
      }
    }
  }

  // ---------- packing and purging ----------

  /** A frame that is written into packet `number`: tracked frames wait for its fate, others are done. */
  function Packed(f: Frame, number: int): Frame
    requires f.refcnt >= 1
  {
    if !Tracked(f.kind) then f.(refcnt := f.refcnt - 1, at := Nowhere)
    else f.(number := if f.number < 0 then number else f.number,
            at := TransmittedQ, transmitted := true, refcnt := f.refcnt + 1)
  }

  /** What the record of the packet under construction will name: its tracked frames, in order. */
  function PacketCopies(fs: seq<Frame>): seq<Copy>
  {
    if fs == [] then []
    else
      var f := fs[|fs| - 1];
      PacketCopies(fs[..|fs| - 1]) +
      (if f.at == PacketQ && Tracked(f.kind) then [Copy(|fs| - 1, f.bytes)] else [])
  }

  /** packet->frame_len: the length of those frames. */
  function PacketLen(fs: seq<Frame>): nat
  {
    if fs == [] then 0
    else
      var f := fs[|fs| - 1];
      PacketLen(fs[..|fs| - 1]) + (if f.at == PacketQ && Tracked(f.kind) then f.len else 0)
  }

  /** The record will name each tracked frame of the packet once, with all its data. */
  lemma {:induction false} PacketCopiesMean(fs: seq<Frame>, k: nat)
    ensures CopiesOf(PacketCopies(fs), k) == if k < |fs| && fs[k].at == PacketQ && Tracked(fs[k].kind) then 1 else 0
    ensures forall c :: c in PacketCopies(fs) ==> c.frame < |fs| && c.carried == fs[c.frame].bytes
  {
    if fs != [] {
      var n := |fs| - 1;
      PacketCopiesMean(fs[..n], k);
      if fs[n].at == PacketQ && Tracked(fs[n].kind) {
        CopiesSnoc(PacketCopies(fs[..n]), Copy(n, fs[n].bytes), k);
      } else {
        assert PacketCopies(fs) == PacketCopies(fs[..n]);
      }
    }
  }

  /** What a frame adds to the length of the packet under construction. */
  function LenInPacket(f: Frame): nat
  {
    if f.at == PacketQ && Tracked(f.kind) then f.len else 0
  }

  /** The bytes in flight that the packet adds are the lengths of these frames. */
  lemma {:induction false} PacketLenMeans(fs: seq<Frame>)
    ensures PacketLen(fs) == Sum(fs, LenInPacket)
  {
    if fs != [] {
      PacketLenMeans(fs[..|fs| - 1]);
    }
  }

  /** One more frame of the packet under construction. */
  lemma PacketStep(fs: seq<Frame>, i: nat)
    requires i < |fs|
    ensures var packed := fs[i].at == PacketQ && Tracked(fs[i].kind);
            && PacketCopies(fs[..i + 1]) == PacketCopies(fs[..i]) + (if packed then [Copy(i, fs[i].bytes)] else [])
            && PacketLen(fs[..i + 1]) == PacketLen(fs[..i]) + (if packed then fs[i].len else 0)
  {
    assert fs[..i + 1][..i] == fs[..i];
  }

  lemma NoPacket()
    ensures PacketCopies([]) == [] && PacketLen([]) == 0
  {
  }

  lemma CopiesSnoc(cs: seq<Copy>, c: Copy, f: nat)
    ensures CopiesOf(cs + [c], f) == CopiesOf(cs, f) + (if c.frame == f then 1 else 0)
  {
    assert (cs + [c])[..|cs|] == cs;
  }

  /** The copies of a packet stay good while one more frame is packed. */
  lemma PackCopies(fs: seq<Frame>, cs: seq<Copy>, i: nat, number: nat)
    requires CopiesOk(cs, fs) && i < |fs| && fs[i].refcnt >= 1 && forall k :: 0 <= k < |cs| ==> cs[k].frame < i
    ensures CopiesOk(cs, fs[i := Packed(fs[i], number)])
    ensures Tracked(fs[i].kind) ==> CopiesOk(cs + [Copy(i, fs[i].bytes)], fs[i := Packed(fs[i], number)])
  {
    var fs' := fs[i := Packed(fs[i], number)];
    forall k | 0 <= k < |cs| ensures CopyOk(cs[k], fs') {
      assert CopyOk(cs[k], fs);
    }
  }

  lemma OwnedQueued(fs: seq<Frame>, ps: seq<Sent>, cs: seq<Copy>, i: nat)
    requires Owned(fs, ps, cs) && i < |fs| && Queued(fs[i])
    ensures CopiesOk(cs, fs) && fs[i].refcnt >= 1
    ensures fs[i].refcnt == 1 + Refs(ps, i) + CopiesOf(cs, i) && (Tracked(fs[i].kind) || fs[i].bytes == 0)
  {
  }

  lemma PackOk(fs: seq<Frame>, ps: seq<Sent>, cs: seq<Copy>, i: nat, number: nat)
    requires Owned(fs, ps, cs) && i < |fs| && Queued(fs[i])
    requires forall k :: 0 <= k < |cs| ==> cs[k].frame < i
    ensures fs[i].refcnt >= 1
    ensures var cs' := if Tracked(fs[i].kind) then cs + [Copy(i, fs[i].bytes)] else cs;
            Owned(fs[i := Packed(fs[i], number)], ps, cs')
    ensures Sum(fs[i := Packed(fs[i], number)], Charge) == Sum(fs, Charge)
  {
    hide Owned, CopiesOk, CopiesOf, Refs, Sum;
    OwnedQueued(fs, ps, cs, i);
    PackCopies(fs, cs, i, number);
    var x, c := Packed(fs[i], number), Copy(i, fs[i].bytes);
    SumUpdate(fs, i, x, Charge);
    forall f: nat ensures CopiesOf(cs + [c], f) == CopiesOf(cs, f) + (if f == i then 1 else 0) {
      CopiesSnoc(cs, c, f);
    }
    OwnedUpdate(fs, ps, cs, if Tracked(fs[i].kind) then cs + [c] else cs, i, x);
  }

  /** A frame of a packet that could not be built goes back to its queue. */
  function Returned(f: Frame): Frame
  {
    f.(at := Home(f.kind), transmitted := false)
  }

  lemma ReturnOk(fs: seq<Frame>, ss: seq<SendStream>, ps: seq<Sent>, i: nat)
    requires Owned(fs, ps, []) && StreamsOk(fs, ss) && i < |fs| && Queued(fs[i])
    ensures var fs' := fs[i := Returned(fs[i])];
            Owned(fs', ps, []) && StreamsOk(fs', ss) && Sum(fs', Charge) == Sum(fs, Charge)
  {
    var x := Returned(fs[i]);
    OwnedUpdate(fs, ps, [], [], i, x);
    hide Owned, StreamsOk;
    StreamsSame(fs, ss, i, x);
    SumUpdate(fs, i, x, Charge);
  }

  lemma PackStep(fs: seq<Frame>, ss: seq<SendStream>, ps: seq<Sent>, cs: seq<Copy>, i: nat, number: nat)
    requires Owned(fs, ps, cs) && StreamsOk(fs, ss) && i < |fs| && Queued(fs[i])
    requires forall k :: 0 <= k < |cs| ==> cs[k].frame < i
    ensures fs[i].refcnt >= 1
    ensures var cs' := if Tracked(fs[i].kind) then cs + [Copy(i, fs[i].bytes)] else cs;
            var fs' := fs[i := Packed(fs[i], number)];
            Owned(fs', ps, cs') && StreamsOk(fs', ss) && Sum(fs', Charge) == Sum(fs, Charge)
  {
    hide Owned, StreamsOk, Sum;
    PackOk(fs, ps, cs, i, number);
    StreamsSame(fs, ss, i, Packed(fs[i], number));
  }

  /** `g` is `f` off its queue and without the reference of the queue. */
  predicate Purged(f: Frame, g: Frame)
  {
    f.refcnt >= 1 && g == f.(at := Nowhere, refcnt := f.refcnt - 1)
  }

  /** A frame is taken off its queue and its reference dropped. */
  lemma PurgeOk(fs: seq<Frame>, ps: seq<Sent>, i: nat)
    requires Owned(fs, ps, []) && i < |fs| && Queued(fs[i])
    ensures fs[i].refcnt >= 1
    ensures var x := fs[i].(at := Nowhere, refcnt := fs[i].refcnt - 1);
            Owned(fs[i := x], ps, []) && Sum(fs[i := x], Charge) == Sum(fs, Charge) - fs[i].bytes
  {
    var x := fs[i].(at := Nowhere, refcnt := fs[i].refcnt - 1);
    OwnedUpdate(fs, ps, [], [], i, x);
    SumUpdate(fs, i, x, Charge);
  }

  /** A frame that names a stream which was reset is purged. */
  lemma PurgeNamed(fs: seq<Frame>, ss: seq<SendStream>, ps: seq<Sent>, i: nat)
    requires Owned(fs, ps, []) && StreamsOk(fs, ss) && i < |fs| && Queued(fs[i])
    requires 0 <= fs[i].stream < |ss| && IsReset(ss[fs[i].stream])
    ensures fs[i].refcnt >= 1
    ensures var x := fs[i].(at := Nowhere, refcnt := fs[i].refcnt - 1);
            Owned(fs[i := x], ps, []) && StreamsOk(fs[i := x], ss) && Sum(fs[i := x], Charge) == Sum(fs, Charge) - fs[i].bytes
  {
    hide Owned, StreamsOk, Sum;
    PurgeOk(fs, ps, i);
    var x := fs[i].(at := Nowhere, refcnt := fs[i].refcnt - 1);
    if x.kind == StreamData {
      StreamsUpdate(fs, ss, i, x, ss[x.stream]);
      assert ss[x.stream := ss[x.stream]] == ss;
    } else {
      StreamsSame(fs, ss, i, x);
    }
  }

  /** Streams before anything is queued. */
  lemma NoFramesOk(n: nat)
    ensures StreamsOk([], seq(n, i => SendStream(Ready, 0, 0)))
  {
  }

  /** With no packets outstanding and nothing queued, every frame is free and nothing is charged. */
  lemma AllFree(fs: seq<Frame>)
    requires Owned(fs, [], []) && forall i :: 0 <= i < |fs| ==> !Queued(fs[i])
    ensures Sum(fs, Charge) == 0 && forall i :: 0 <= i < |fs| ==> fs[i].refcnt == 0
  {
    SumOfZeros(fs, Charge);
  }
}
