/**
 modules/net/quic/stream.c and stream.h: the table of streams and the limits on how many may be
 open (section 4.6 of RFC 9000).
 */
module StreamTable {

  const ID_STEP := 4
  const MAX_STREAMS := 4096
  const MAX_STREAMS_LIMIT := 0x1000_0000_0000_0000

  datatype SendState = Ready | Sending | Sent | SendRecvd | ResetSent | SendResetRecvd
  datatype RecvState = Receiving | SizeKnown | Recvd | Read | ResetRecvd | ResetRead

  /** What stream.c keeps of struct quic_stream. */
  datatype Stream = Stream(
    send: SendState, recv: RecvState, sendDone: bool, recvDone: bool, sendMax: nat, recvMax: nat)

  /** Initial data limits of one endpoint, as in its transport parameters. */
  datatype Params = Params(bidiRemote: nat, bidiLocal: nat, uni: nat)

  /** The limits for one kind of stream in one direction: the next and the largest allowed stream
      ID, how many streams may be and are open, and whether a raise is to be advertised. */
  datatype Lane = Lane(next: int, max: int, maxStreams: nat, streams: nat, pending: bool)

  // ---------- stream IDs ----------

  function TypeOf(id: int): int { id % 4 }

  predicate Uni(id: int) { TypeOf(id) >= 2 }

  predicate ByServer(id: int) { TypeOf(id) % 2 == 1 }

  /** quic_stream_id_local */
  predicate Local(id: int, isServ: bool) { ByServer(id) == isServ }

  /** quic_stream_id_valid */
  predicate IdValid(id: int, isServ: bool, send: bool)
  {
    if send then TypeOf(id) != (if isServ then 2 else 3) else TypeOf(id) != (if isServ then 3 else 2)
  }

  /** A stream ID can be used in a direction exactly when it is bidirectional or of the side that owns the direction. */
  lemma ValidMeans(id: int, isServ: bool, send: bool)
    ensures IdValid(id, isServ, send) <==> !Uni(id) || Local(id, isServ) == send
  {
  }

  /** quic_stream_id_to_streams and quic_stream_streams_to_id */
  function IdToStreams(id: int): int { id / 4 + 1 }

  function StreamsToId(streams: nat, type': int): int { (streams - 1) * 4 + type' }

  /** The largest ID of a type under a limit is the last one of that many streams, and the other way round. */
  lemma LimitRoundTrip(streams: nat, type': int, id: int)
    requires 0 <= type' < 4
    ensures IdToStreams(StreamsToId(streams, type')) == streams
    ensures TypeOf(StreamsToId(streams, type')) == type'
    ensures TypeOf(id) == type' ==> (id <= StreamsToId(streams, type') <==> IdToStreams(id) <= streams)
  {
  }

  // ---------- lanes ----------

  /** Incoming streams: with those open, those that may still be opened never exceed the maximum,
      and fill it unless a raise is pending. */
  ghost predicate RecvLaneOk(l: Lane, type': int, live: nat)
  {
    && type' <= l.next && TypeOf(l.next) == TypeOf(l.max) == type'
    && l.next <= l.max + ID_STEP
    && l.streams == live && l.maxStreams <= MAX_STREAMS
    && l.streams + (l.max - l.next) / 4 + 1 <= l.maxStreams
    && (!l.pending ==> l.streams + (l.max - l.next) / 4 + 1 == l.maxStreams)
  }

  /** Outgoing streams: never more open than the peer allows. */
  ghost predicate SendLaneOk(l: Lane, type': int, live: nat)
  {
    && type' <= l.next && TypeOf(l.next) == TypeOf(l.max) == type'
    && l.streams == live <= l.maxStreams <= MAX_STREAMS
  }

  /** One part of quic_stream_max_streams_update. */
  function Raised(l: Lane): Lane
  {
    l.(max := l.next - ID_STEP + (l.maxStreams - l.streams) * 4, pending := false)
  }

  lemma RaisedOk(l: Lane, type': int, live: nat)
    requires RecvLaneOk(l, type', live)
    ensures RecvLaneOk(Raised(l), type', live) && l.max <= Raised(l).max
    ensures l.streams + (l.max - l.next) / 4 + 1 == l.maxStreams ==> Raised(l).max == l.max
  {
  }

  // ---------- live streams ----------

  ghost function LiveRecv(table: map<int, Stream>, type': int): set<int>
  {
    set id | id in table && TypeOf(id) == type' && !table[id].recvDone
  }

  ghost function LiveSend(table: map<int, Stream>, type': int): set<int>
  {
    set id | id in table && TypeOf(id) == type' && !table[id].sendDone
  }

  datatype Option<T> = None | Some(value: T)

  /** A new stream, with the initial data limits quic_stream_create gives it. */
  function NewStream(id: int, isServ: bool, send: bool, peer: Params, own: Params): Stream
  {
    if Uni(id) then
      Stream(Ready, Receiving, false, false, if send then peer.uni else 0, if send then 0 else own.uni)
    else if Local(id, isServ) then
      Stream(Ready, Receiving, false, false, peer.bidiRemote, own.bidiLocal)
    else
      Stream(Ready, Receiving, false, false, peer.bidiLocal, own.bidiRemote)
  }

  /** The two ends of a stream start with the same idea of how much each may send: when one opens
      it and the other learns of it, each side's sending limit is the receiving limit that the other
      has configured for streams of this kind. */
  lemma InitialLimitsAgree(id: int, isServ: bool, a: Params, b: Params)
    requires Local(id, isServ)
    ensures var opener := NewStream(id, isServ, true, b, a);
            var other := NewStream(id, !isServ, false, a, b);
            && opener.sendMax == other.recvMax == (if Uni(id) then b.uni else b.bidiRemote)
            && opener.recvMax == other.sendMax == (if Uni(id) then 0 else a.bidiLocal)
            && !opener.sendDone && !opener.recvDone && !other.sendDone && !other.recvDone
  {
  }

  lemma SameButOne(a: set<int>, b: set<int>, id: int)
    requires forall x :: x != id ==> (x in a <==> x in b)
    ensures |b| == |a| - (if id in a then 1 else 0) + (if id in b then 1 else 0)
  {
    var rest := a - {id};
    assert b - {id} == rest by {
      forall x ensures x in b - {id} <==> x in rest {
      }
    }
    assert a == if id in a then rest + {id} else rest;
    assert b == if id in b then rest + {id} else rest;
  }

  lemma SubsetSize(a: set<int>, b: set<int>)
    requires a <= b
    ensures |a| <= |b|
  {
    assert b == a + (b - a);
  }

  lemma InsertLive(table: map<int, Stream>, id: int, s: Stream, type': int)
    requires id !in table && !s.recvDone && !s.sendDone
    ensures |LiveRecv(table[id := s], type')| == |LiveRecv(table, type')| + (if TypeOf(id) == type' then 1 else 0)
    ensures |LiveSend(table[id := s], type')| == |LiveSend(table, type')| + (if TypeOf(id) == type' then 1 else 0)
  {
    hide TypeOf;
    var table' := table[id := s];
    SameButOne(LiveRecv(table, type'), LiveRecv(table', type'), id);
    SameButOne(LiveSend(table, type'), LiveSend(table', type'), id);
  }

  /** The table with a new stream for every fourth ID from `from` to `upto`. */
  function AddStreams(table: map<int, Stream>, from: int, upto: int,
                      isServ: bool, send: bool, peer: Params, own: Params): map<int, Stream>
    decreases upto - from
  {
    if from > upto then table
    else
      AddStreams(table[from := NewStream(from, isServ, send, peer, own)], from + 4, upto, isServ, send, peer, own)
  }

  function NumberFrom(from: int, upto: int): nat
  {
    if from > upto then 0 else (upto - from) / 4 + 1
  }

  /** Which streams are added, and by how much the counts of live streams grow. */
  lemma {:induction false} AddMeans(table: map<int, Stream>, from: int, upto: int,
                                    isServ: bool, send: bool, peer: Params, own: Params, type': int)
    requires forall id :: id in table && TypeOf(id) == TypeOf(from) ==> id < from
    ensures var t' := AddStreams(table, from, upto, isServ, send, peer, own);
            var k := if TypeOf(from) == type' then NumberFrom(from, upto) else 0;
            && |LiveRecv(t', type')| == |LiveRecv(table, type')| + k
            && |LiveSend(t', type')| == |LiveSend(table, type')| + k
    ensures var t' := AddStreams(table, from, upto, isServ, send, peer, own);
            && (forall id :: id in t' <==> id in table || (from <= id <= upto && TypeOf(id) == TypeOf(from)))
            && (forall id :: id in table ==> t'[id] == table[id])
            && (forall id :: id in t' && id !in table ==> t'[id] == NewStream(id, isServ, send, peer, own))
    decreases upto - from
  {
    hide LiveRecv, LiveSend;
    if from <= upto {
      var s := NewStream(from, isServ, send, peer, own);
      InsertLive(table, from, s, type');
      AddMeans(table[from := s], from + 4, upto, isServ, send, peer, own, type');
    }
  }

  // ---------- the whole table ----------

  /** struct quic_stream_limits, and both of them: for streams we open and for streams the peer opens. */
  datatype Limits = Limits(bidi: Lane, uni: Lane)

  datatype Lanes = Lanes(send: Limits, recv: Limits)
  {
    function At(send: bool, uni: bool): Lane
    {
      var l := if send then this.send else recv;
      if uni then l.uni else l.bidi
    }

    function With(send: bool, uni: bool, l: Lane): Lanes
    {
      var ls := if send then this.send else recv;
      var ls' := if uni then ls.(uni := l) else ls.(bidi := l);
      if send then this.(send := ls') else this.(recv := ls')
    }

    /** The lane a stream belongs to: by who opens it. */
    function Home(isServ: bool, id: int): Lane
    {
      At(Local(id, isServ), Uni(id))
    }
  }

  /** The type of the streams of a lane. */
  function LaneType(isServ: bool, send: bool, uni: bool): int
  {
    (if send == isServ then 1 else 0) + (if uni then 2 else 0)
  }

  ghost predicate LaneOk(isServ: bool, table: map<int, Stream>, l: Lane, send: bool, uni: bool)
  {
    var t := LaneType(isServ, send, uni);
    if send then SendLaneOk(l, t, |LiveSend(table, t)|) else RecvLaneOk(l, t, |LiveRecv(table, t)|)
  }

  ghost predicate LanesOk(isServ: bool, table: map<int, Stream>, ls: Lanes)
  {
    forall send, uni :: LaneOk(isServ, table, ls.At(send, uni), send, uni)
  }

  /** Exactly the IDs below the next one of their lane have been created, and only those are in the table. */
  ghost predicate IdsOk(isServ: bool, table: map<int, Stream>, ls: Lanes, created: set<int>)
  {
    && (forall id :: id in table ==> id in created)
    && (forall id :: id in table && Uni(id) ==> !table[id].sendDone)
    && (forall id :: id in created <==> 0 <= id < ls.Home(isServ, id).next)
  }

  /** quic_stream_id_exceeds */
  predicate Exceeds(ls: Lanes, id: int, send: bool)
  {
    var l := ls.At(send, Uni(id));
    id > l.max || (send && IdToStreams(id - l.next) + l.streams > l.maxStreams)
  }

  /** In counts of streams: an ID of the lane's own type is beyond the limits exactly if that many
      streams were never allowed, or if opening all streams up to it would leave too many open. */
  lemma ExceedsMeans(ls: Lanes, id: int, send: bool)
    requires var l := ls.At(send, Uni(id)); TypeOf(l.next) == TypeOf(l.max) == TypeOf(id) && l.next <= id
    ensures var l := ls.At(send, Uni(id));
            !Exceeds(ls, id, send) <==>
            IdToStreams(id) <= IdToStreams(l.max) && (send ==> l.streams + NumberFrom(l.next, id) <= l.maxStreams)
  {
  }

  /** The lane once its streams up to `id` are created. */
  function Opened(l: Lane, id: int): Lane
  {
    l.(next := l.next + 4 * NumberFrom(l.next, id), streams := l.streams + NumberFrom(l.next, id))
  }

  lemma OpenedOk(l: Lane, type': int, live: nat, id: int)
    requires l.next <= id <= l.max
    ensures RecvLaneOk(l, type', live) ==> RecvLaneOk(Opened(l, id), type', live + NumberFrom(l.next, id))
    ensures SendLaneOk(l, type', live) && IdToStreams(id - l.next) + l.streams <= l.maxStreams ==>
              SendLaneOk(Opened(l, id), type', live + NumberFrom(l.next, id))
    ensures id < Opened(l, id).next <= id + 4 && l.next <= Opened(l, id).next - 4
  {
  }

  ghost predicate CanOpen(isServ: bool, table: map<int, Stream>, ls: Lanes, created: set<int>, id: int, send: bool)
  {
    && LanesOk(isServ, table, ls) && IdsOk(isServ, table, ls, created)
    && ls.At(send, Uni(id)).next <= id && !Exceeds(ls, id, send)
  }

  /** Streams of a lane's type in the table are below its next ID. */
  lemma BelowNext(isServ: bool, table: map<int, Stream>, ls: Lanes, created: set<int>, send: bool, uni: bool)
    requires LanesOk(isServ, table, ls) && IdsOk(isServ, table, ls, created)
    ensures TypeOf(ls.At(send, uni).next) == LaneType(isServ, send, uni)
    ensures forall x :: x in table && TypeOf(x) == LaneType(isServ, send, uni) ==> x < ls.At(send, uni).next
    ensures forall x :: TypeOf(x) == LaneType(isServ, send, uni) ==> ls.Home(isServ, x) == ls.At(send, uni)
  {
    assert LaneOk(isServ, table, ls.At(send, uni), send, uni);
    forall x | TypeOf(x) == LaneType(isServ, send, uni) ensures Local(x, isServ) == send && Uni(x) == uni {
    }
  }

  lemma OpenLanesOk(isServ: bool, table: map<int, Stream>, ls: Lanes, created: set<int>, id: int, send: bool,
                    peer: Params, own: Params)
    requires CanOpen(isServ, table, ls, created, id, send)
    ensures var l := ls.At(send, Uni(id));
            LanesOk(isServ, AddStreams(table, l.next, id, isServ, send, peer, own),
                    ls.With(send, Uni(id), Opened(l, id)))
  {
    hide LiveRecv, LiveSend, AddStreams, IdsOk, Opened, TypeOf;
    var uni := Uni(id);
    var l := ls.At(send, uni);
    var table' := AddStreams(table, l.next, id, isServ, send, peer, own);
    var ls' := ls.With(send, uni, Opened(l, id));
    BelowNext(isServ, table, ls, created, send, uni);
    forall s, u ensures LaneOk(isServ, table', ls'.At(s, u), s, u) {
      hide RecvLaneOk, SendLaneOk;
      var t := LaneType(isServ, s, u);
      AddMeans(table, l.next, id, isServ, send, peer, own, t);
      assert LaneOk(isServ, table, ls.At(s, u), s, u);
      if s == send && u == uni {
        OpenedOk(l, t, if s then |LiveSend(table, t)| else |LiveRecv(table, t)|, id);
      }
    }
  }

  lemma OpenIdsOk(isServ: bool, table: map<int, Stream>, ls: Lanes, created: set<int>, id: int, send: bool,
                  peer: Params, own: Params)
    requires CanOpen(isServ, table, ls, created, id, send)
    ensures var l := ls.At(send, Uni(id));
            var table' := AddStreams(table, l.next, id, isServ, send, peer, own);
            && IdsOk(isServ, table', ls.With(send, Uni(id), Opened(l, id)), created + table'.Keys)
            && (forall x :: x in table' && x !in table ==> x !in created)
  {
    hide LiveRecv, LiveSend, AddStreams;
    var uni := Uni(id);
    var l := ls.At(send, uni);
    var t := LaneType(isServ, send, uni);
    var table' := AddStreams(table, l.next, id, isServ, send, peer, own);
    var ls' := ls.With(send, uni, Opened(l, id));
    BelowNext(isServ, table, ls, created, send, uni);
    OpenedOk(l, t, 0, id);
    AddMeans(table, l.next, id, isServ, send, peer, own, t);
    assert LaneOk(isServ, table, l, send, uni);
    hide LanesOk, LaneOk, Opened, RecvLaneOk, SendLaneOk;
    forall x ensures x in created + table'.Keys <==> 0 <= x < ls'.Home(isServ, x).next {
      assert x in created <==> 0 <= x < ls.Home(isServ, x).next;
      OpenHome(isServ, ls, send, uni, Opened(l, id), x);
      if TypeOf(x) == t {
        OpenGap(l, id, x);
      }
    }
  }

  /** The last stream created is new, and is the one asked for exactly when its type is the lane's. */
  lemma OpenLastNew(isServ: bool, table: map<int, Stream>, ls: Lanes, created: set<int>, id: int, send: bool,
                    peer: Params, own: Params)
    requires CanOpen(isServ, table, ls, created, id, send)
    ensures var l := ls.At(send, Uni(id));
            var last := Opened(l, id).next - 4;
            && last in AddStreams(table, l.next, id, isServ, send, peer, own)
            && last !in created
            && (last == id <==> Local(id, isServ) == send)
  {
    hide AddStreams, LiveRecv, LiveSend, LaneOk;
    var l := ls.At(send, Uni(id));
    var t := LaneType(isServ, send, Uni(id));
    var last := Opened(l, id).next - 4;
    BelowNext(isServ, table, ls, created, send, Uni(id));
    hide LanesOk;
    OpenedOk(l, t, 0, id);
    AddMeans(table, l.next, id, isServ, send, peer, own, t);
    SameLane(isServ, id, send, Uni(id));
    assert TypeOf(last) == t;
    assert ls.Home(isServ, last) == l;
    assert last !in created;
  }

  function RaiseIfPending(l: Lane): Lane
  {
    if l.pending then Raised(l) else l
  }

  /** The lanes after quic_stream_max_streams_update. */
  function RaisePending(ls: Lanes): Lanes
  {
    ls.(recv := Limits(RaiseIfPending(ls.recv.bidi), RaiseIfPending(ls.recv.uni)))
  }

  lemma RaiseLane(isServ: bool, table: map<int, Stream>, l: Lane, uni: bool)
    requires LaneOk(isServ, table, l, false, uni)
    ensures var l' := RaiseIfPending(l);
            && LaneOk(isServ, table, l', false, uni) && l'.next == l.next
            && l.max <= l'.max && !l'.pending && l'.streams + (l'.max - l'.next) / 4 + 1 == l'.maxStreams
  {
    hide LiveRecv, LiveSend;
    RaisedOk(l, LaneType(isServ, false, uni), |LiveRecv(table, LaneType(isServ, false, uni))|);
  }

  /** Afterwards the peer may open all that the maximum allows; no limit went down. */
  lemma RaisePendingOk(isServ: bool, table: map<int, Stream>, ls: Lanes, created: set<int>)
    requires LanesOk(isServ, table, ls) && IdsOk(isServ, table, ls, created)
    ensures var ls' := RaisePending(ls);
            && LanesOk(isServ, table, ls') && IdsOk(isServ, table, ls', created)
            && forall uni :: var l := ls'.At(false, uni);
                 ls.At(false, uni).max <= l.max && !l.pending && l.streams + (l.max - l.next) / 4 + 1 == l.maxStreams
  {
    hide LaneOk, RaiseIfPending;
    var ls' := RaisePending(ls);
    forall u: bool
      ensures ls'.At(false, u) == RaiseIfPending(ls.At(false, u)) && LaneOk(isServ, table, ls'.At(false, u), false, u)
      ensures var l := ls'.At(false, u);
              l.next == ls.At(false, u).next && ls.At(false, u).max <= l.max && !l.pending &&
              l.streams + (l.max - l.next) / 4 + 1 == l.maxStreams
    {
      assert LaneOk(isServ, table, ls.At(false, u), false, u);
      RaiseLane(isServ, table, ls.At(false, u), u);
    }
    assert LanesOk(isServ, table, ls') by {
      forall s, u ensures LaneOk(isServ, table, ls'.At(s, u), s, u) {
        assert LaneOk(isServ, table, ls.At(s, u), s, u);
      }
    }
    SameNextIds(isServ, table, ls, ls', created);
  }

  /** Which IDs exist depends on the next IDs only. */
  lemma SameNextIds(isServ: bool, table: map<int, Stream>, ls: Lanes, ls': Lanes, created: set<int>)
    requires IdsOk(isServ, table, ls, created)
    requires forall s, u :: ls'.At(s, u).next == ls.At(s, u).next
    ensures IdsOk(isServ, table, ls', created)
  {
    forall id ensures ls'.Home(isServ, id).next == ls.Home(isServ, id).next {
      assert ls'.At(Local(id, isServ), Uni(id)).next == ls.At(Local(id, isServ), Uni(id)).next;
    }
  }

  lemma OpenHome(isServ: bool, ls: Lanes, send: bool, uni: bool, l: Lane, x: int)
    ensures ls.With(send, uni, l).Home(isServ, x) ==
            if TypeOf(x) == LaneType(isServ, send, uni) then l else ls.Home(isServ, x)
  {
  }

  /** No ID of the type lies between the last one created and the next. */
  lemma OpenGap(l: Lane, id: int, x: int)
    requires l.next <= id && TypeOf(x) == TypeOf(l.next)
    ensures x <= id <==> x < Opened(l, id).next
  {
  }

  // ---------- closing ----------

  /** One half of a stream is over: all was sent and received, or it was reset. */
  predicate HalfOver(s: Stream, send: bool)
  {
    if send then s.send == SendRecvd || s.send == SendResetRecvd else s.recv != Receiving && s.recv != SizeKnown
  }

  /** Every half that the stream has is over. */
  predicate AllOver(s: Stream, id: int, isServ: bool)
  {
    (!Uni(id) || Local(id, isServ) ==> HalfOver(s, true)) && (!Uni(id) || !Local(id, isServ) ==> HalfOver(s, false))
  }

  /** The stream is no longer counted in its lane. */
  predicate IsDone(s: Stream, id: int, isServ: bool)
  {
    if Local(id, isServ) then s.sendDone else s.recvDone
  }

  /** A lane with one stream less; the peer is to be told. */
  function OneLess(l: Lane, send: bool): Lane
    requires l.streams > 0
  {
    l.(streams := l.streams - 1, pending := l.pending || !send)
  }

  /** What may happen to one stream of the table: it changes, or it is deleted. */
  function Replaced(table: map<int, Stream>, id: int, s: Option<Stream>): map<int, Stream>
  {
    match s
    case None => map x | x in table && x != id :: table[x]
    case Some(v) => table[id := v]
  }

  /** The change in the number of live streams when one stream changes. */
  lemma ReplacedLive(table: map<int, Stream>, id: int, s: Option<Stream>, type': int)
    requires id in table
    ensures var n := if TypeOf(id) == type' && !table[id].recvDone then 1 else 0;
            var n' := if TypeOf(id) == type' && s.Some? && !s.value.recvDone then 1 else 0;
            |LiveRecv(Replaced(table, id, s), type')| == |LiveRecv(table, type')| - n + n'
    ensures var n := if TypeOf(id) == type' && !table[id].sendDone then 1 else 0;
            var n' := if TypeOf(id) == type' && s.Some? && !s.value.sendDone then 1 else 0;
            |LiveSend(Replaced(table, id, s), type')| == |LiveSend(table, type')| - n + n'
  {
    hide TypeOf;
    var t' := Replaced(table, id, s);
    SameButOne(LiveRecv(table, type'), LiveRecv(t', type'), id);
    SameButOne(LiveSend(table, type'), LiveSend(t', type'), id);
  }

  lemma SameLane(isServ: bool, id: int, send: bool, uni: bool)
    ensures TypeOf(id) == LaneType(isServ, send, uni) <==> Local(id, isServ) == send && Uni(id) == uni
  {
  }

  lemma ClosedOk(l: Lane, type': int, live: nat)
    requires l.streams > 0 && live > 0
    ensures RecvLaneOk(l, type', live) ==> RecvLaneOk(l.(streams := l.streams - 1, pending := true), type', live - 1)
    ensures SendLaneOk(l, type', live) ==> SendLaneOk(l.(streams := l.streams - 1), type', live - 1)
  {
  }

  /** The lane of a stream once the stream changes to `s` or is deleted. */
  ghost predicate Follows(isServ: bool, table: map<int, Stream>, id: int, s: Option<Stream>, h: Lane, l: Lane)
    requires id in table
  {
    var send := Local(id, isServ);
    var was := if send then !table[id].sendDone else !table[id].recvDone;
    var stays := s.Some? && if send then !s.value.sendDone else !s.value.recvDone;
    if was && !stays then h.streams > 0 && l == h.(streams := h.streams - 1, pending := h.pending || !send)
    else was == stays && l == h
  }

  lemma ReplaceLane(isServ: bool, table: map<int, Stream>, id: int, s: Option<Stream>, h: Lane, l: Lane,
                    a: bool, u: bool)
    requires id in table && LaneOk(isServ, table, h, a, u)
    requires if a == Local(id, isServ) && u == Uni(id) then Follows(isServ, table, id, s, h, l) else l == h
    ensures LaneOk(isServ, Replaced(table, id, s), l, a, u)
  {
    hide LiveRecv, LiveSend, Replaced, TypeOf;
    var t := LaneType(isServ, a, u);
    ReplacedLive(table, id, s, t);
    SameLane(isServ, id, a, u);
    hide LaneType, Local, Uni;
    if l != h {
      ClosedOk(h, t, if a then |LiveSend(table, t)| else |LiveRecv(table, t)|);
    }
    hide RecvLaneOk, SendLaneOk;
  }

  lemma ReplaceIds(isServ: bool, table: map<int, Stream>, ls: Lanes, created: set<int>, id: int, s: Option<Stream>)
    requires IdsOk(isServ, table, ls, created) && id in table && (s.Some? && Uni(id) ==> !s.value.sendDone)
    ensures IdsOk(isServ, Replaced(table, id, s), ls, created)
  {
  }

  /** A stream of one lane changes: that lane's count follows, the other lanes see nothing. */
  lemma ReplaceOk(isServ: bool, table: map<int, Stream>, ls: Lanes, created: set<int>, id: int,
                  s: Option<Stream>, l: Lane)
    requires LanesOk(isServ, table, ls) && IdsOk(isServ, table, ls, created) && id in table
    requires s.Some? && Uni(id) ==> !s.value.sendDone
    requires Follows(isServ, table, id, s, ls.Home(isServ, id), l)
    ensures LanesOk(isServ, Replaced(table, id, s), ls.With(Local(id, isServ), Uni(id), l))
    ensures IdsOk(isServ, Replaced(table, id, s), ls.With(Local(id, isServ), Uni(id), l), created)
  {
    var ls' := ls.With(Local(id, isServ), Uni(id), l);
    ReplaceIds(isServ, table, ls, created, id, s);
    assert forall a, u :: ls'.At(a, u).next == ls.At(a, u).next;
    SameNextIds(isServ, Replaced(table, id, s), ls, ls', created);
    hide LaneOk, Replaced, IdsOk;
    forall a, u ensures LaneOk(isServ, Replaced(table, id, s), ls'.At(a, u), a, u) {
      assert LaneOk(isServ, table, ls.At(a, u), a, u);
      ReplaceLane(isServ, table, id, s, ls.At(a, u), ls'.At(a, u), a, u);
    }
  }

  // ---------- the empty table ----------

  /** A lane as quic_stream_set_param configures it. */
  function FirstLane(isServ: bool, send: bool, uni: bool, maxStreams: nat): Lane
  {
    var t := LaneType(isServ, send, uni);
    Lane(t, StreamsToId(maxStreams, t), maxStreams, 0, false)
  }

  lemma FirstLanesOk(isServ: bool, sb: nat, su: nat, rb: nat, ru: nat)
    requires sb <= MAX_STREAMS && su <= MAX_STREAMS && rb <= MAX_STREAMS && ru <= MAX_STREAMS
    ensures var ls := Lanes(Limits(FirstLane(isServ, true, false, sb), FirstLane(isServ, true, true, su)),
                            Limits(FirstLane(isServ, false, false, rb), FirstLane(isServ, false, true, ru)));
            && LanesOk(isServ, map[], ls) && IdsOk(isServ, map[], ls, {})
            && IdToStreams(ls.recv.bidi.max) == rb && IdToStreams(ls.recv.uni.max) == ru
            && IdToStreams(ls.send.bidi.max) == sb && IdToStreams(ls.send.uni.max) == su
  {
    var ls := Lanes(Limits(FirstLane(isServ, true, false, sb), FirstLane(isServ, true, true, su)),
                    Limits(FirstLane(isServ, false, false, rb), FirstLane(isServ, false, true, ru)));
    forall send, uni ensures LaneOk(isServ, map[], ls.At(send, uni), send, uni) {
      var t := LaneType(isServ, send, uni);
      assert LiveRecv(map[], t) == {} && LiveSend(map[], t) == {};
    }
  }

  /** A client whose peers allow two streams of each kind. */
  const CLIENT := Lanes(Limits(Lane(0, 4, 2, 0, false), Lane(2, 6, 2, 0, false)),
                        Limits(Lane(1, 5, 2, 0, false), Lane(3, 7, 2, 0, false)))

  lemma ClientLanes()
    ensures CLIENT == Lanes(Limits(FirstLane(false, true, false, 2), FirstLane(false, true, true, 2)),
                            Limits(FirstLane(false, false, false, 2), FirstLane(false, false, true, 2)))
  {
  }

  lemma OnlyStreamZero(peer: Params, own: Params)
    ensures AddStreams(map[], 0, 1, false, true, peer, own) == map[0 := NewStream(0, false, true, peer, own)]
  {
    hide NewStream;
    var one := map[0 := NewStream(0, false, true, peer, own)];
    assert AddStreams(one, 4, 1, false, true, peer, own) == one;
  }

  lemma NextAfterOne(l: Lane)
    requires l.next == 0
    ensures Opened(l, 1).next == 4
  {
    assert NumberFrom(l.next, 1) == 1;
  }

  lemma ClientOk()
    ensures LanesOk(false, map[], CLIENT) && IdsOk(false, map[], CLIENT, {})
  {
    hide LanesOk, IdsOk, FirstLane;
    FirstLanesOk(false, 2, 2, 2, 2);
    ClientLanes();
  }

  lemma OneIsAllowed(ls: Lanes)
    requires ls.send.bidi == Lane(0, 4, 2, 0, false)
    ensures ls.At(true, Uni(1)).next <= 1 && !Exceeds(ls, 1, true)
  {
    assert !Uni(1);
  }

  lemma ClientCanOpen()
    ensures CanOpen(false, map[], CLIENT, {}, 1, true) && IdValid(1, false, true) && !Uni(1)
  {
    hide LanesOk, IdsOk, Exceeds;
    ClientOk();
    OneIsAllowed(CLIENT);
  }

  /** A client that asks to send on the new ID 1, which only the server may open, gets stream 0. */
  lemma ClientOpensAnother(peer: Params, own: Params)
    ensures CanOpen(false, map[], CLIENT, {}, 1, true) && IdValid(1, false, true) && !Uni(1)
    ensures Opened(CLIENT.send.bidi, 1).next - 4 == 0
    ensures AddStreams(map[], 0, 1, false, true, peer, own) == map[0 := NewStream(0, false, true, peer, own)]
  {
    hide CanOpen, IdValid, Uni, NewStream, AddStreams, Opened;
    ClientCanOpen();
    NextAfterOne(CLIENT.send.bidi);
    OnlyStreamZero(peer, own);
  }

  // ---------- the table object ----------

  datatype Result = Found(id: int) | Invalid | Gone | Limited

  class StreamTable {
    const isServ: bool
    const peer: Params
    const own: Params
    var table: map<int, Stream>
    var send: Limits
    var recv: Limits

    /** Every ID ever created, those whose halves have all been over at some time, and every stream
        count advertised to the peer, by kind. */
    ghost var created: set<int>
    ghost var over: set<int>
    ghost var adverts: set<(bool, int)>

    function View(): Lanes
      reads this
    {
      Lanes(send, recv)
    }

    ghost predicate Valid()
      reads this
    {
      && LanesOk(isServ, table, View())
      && IdsOk(isServ, table, View(), created)
      && (forall a :: a in adverts ==> a.1 <= IdToStreams(View().At(false, a.0).max))
      && (forall id :: id in table && AllOver(table[id], id, isServ) ==> id in over)
    }

    /** Every stream ever created is over, or is in the table and counted. */
    ghost predicate Accounted()
      reads this
    {
      forall id :: id in created ==> id in over || (id in table && !IsDone(table[id], id, isServ))
    }

    /** Limits on what the peer may open only grow, and so does the set of created IDs. */
    twostate predicate Grows()
      reads this
    {
      && old(recv.bidi.max) <= recv.bidi.max && old(recv.uni.max) <= recv.uni.max
      && old(created) <= created && old(adverts) <= adverts
    }

    /** quic_stream_init and quic_stream_set_param for both endpoints' parameters. */
    constructor (isServ: bool, peer: Params, own: Params,
                 sendBidiMax: nat, sendUniMax: nat, recvBidiMax: nat, recvUniMax: nat)
      requires sendBidiMax <= MAX_STREAMS && sendUniMax <= MAX_STREAMS
      requires recvBidiMax <= MAX_STREAMS && recvUniMax <= MAX_STREAMS
      ensures Valid() && Accounted() && created == {} && table == map[] && over == {}
      ensures this.isServ == isServ && this.peer == peer && this.own == own
      ensures send == Limits(FirstLane(isServ, true, false, sendBidiMax), FirstLane(isServ, true, true, sendUniMax))
      ensures recv == Limits(FirstLane(isServ, false, false, recvBidiMax), FirstLane(isServ, false, true, recvUniMax))
      ensures adverts == {(false, recvBidiMax), (true, recvUniMax)}
    {
      this.isServ, this.peer, this.own := isServ, peer, own;
      table, created, over := map[], {}, {};
      send := Limits(FirstLane(isServ, true, false, sendBidiMax), FirstLane(isServ, true, true, sendUniMax));
      recv := Limits(FirstLane(isServ, false, false, recvBidiMax), FirstLane(isServ, false, true, recvUniMax));
      adverts := {(false, recvBidiMax), (true, recvUniMax)};
      FirstLanesOk(isServ, sendBidiMax, sendUniMax, recvBidiMax, recvUniMax);
    }

    /** quic_stream_create: all streams of the lane up to `max`, or none when memory for one of
        them is missing; `room` is how many can be allocated. */
    method Create(max: int, sending: bool, room: nat) returns (last: int)
      requires Valid() && View().At(sending, Uni(max)).next <= max && !Exceeds(View(), max, sending)
      modifies this
      ensures Valid() && Grows() && over == old(over) && (old(Accounted()) ==> Accounted())
      ensures last == -1 ==> unchanged(this)
      ensures last == -1 <==> NumberFrom(old(View()).At(sending, Uni(max)).next, max) > room
      ensures last != -1 ==>
                var l := old(View()).At(sending, Uni(max));
                && table == AddStreams(old(table), l.next, max, isServ, sending, peer, own)
                && View() == old(View()).With(sending, Uni(max), Opened(l, max))
                && last == Opened(l, max).next - 4
    {
      hide LanesOk, IdsOk, AddStreams;
      var l := View().At(sending, Uni(max));
      NextBounds(sending, Uni(max));
      var id, n := l.next, 0;
      last := -1;
      while id <= max
        invariant l.next <= id < max + 5 && id == l.next + 4 * n && n <= room
        invariant n == 0 ==> last == -1
        invariant n > 0 ==> last == id - 4
      {
        if n == room {
          return -1;
        }
        last := id;
        n := n + 1;
        id := id + 4;
      }
      Insert(l.next, max, sending);
    }

    lemma TableCreated()
      requires Valid()
      ensures forall id :: id in table ==> id in created
    {
    }

    lemma NextBounds(sending: bool, uni: bool)
      requires Valid()
      ensures 0 <= View().At(sending, uni).next
    {
      assert LaneOk(isServ, table, View().At(sending, uni), sending, uni);
    }

    /** The new streams join the table and the counters move. */
    method Insert(from: int, upto: int, sending: bool)
      requires Valid() && from == View().At(sending, Uni(upto)).next <= upto && !Exceeds(View(), upto, sending)
      modifies this
      ensures Valid() && Grows() && over == old(over) && (old(Accounted()) ==> Accounted())
      ensures var l := old(View()).At(sending, Uni(upto));
              && table == AddStreams(old(table), l.next, upto, isServ, sending, peer, own)
              && View() == old(View()).With(sending, Uni(upto), Opened(l, upto))
    {
      hide LanesOk, IdsOk, AddStreams, AllOver, IsDone;
      OpenLanesOk(isServ, table, View(), created, upto, sending, peer, own);
      OpenIdsOk(isServ, table, View(), created, upto, sending, peer, own);
      BelowNext(isServ, table, View(), created, sending, Uni(upto));
      TableCreated();
      NewStreamsOpen(table, from, upto, sending);
      var count := AddAll(from, upto, sending);
      var l := View().At(sending, Uni(upto)).(next := from + 4 * count);
      l := l.(streams := l.streams + count);
      var ls := View().With(sending, Uni(upto), l);
      send, recv := ls.send, ls.recv;
      created := created + table.Keys;
    }

    /** The loop of quic_stream_create over the new streams. */
    method AddAll(from: int, upto: int, sending: bool) returns (count: nat)
      requires from <= upto
      modifies this`table
      ensures table == AddStreams(old(table), from, upto, isServ, sending, peer, own)
      ensures count == NumberFrom(from, upto)
    {
      var id := from;
      count := 0;
      while id <= upto
        invariant from <= id < upto + 5 && id == from + 4 * count
        invariant AddStreams(table, id, upto, isServ, sending, peer, own)
               == AddStreams(old(table), from, upto, isServ, sending, peer, own)
      {
        table := table[id := NewStream(id, isServ, sending, peer, own)];
        count := count + 1;
        id := id + 4;
      }
    }

    /** The streams that are added are neither over nor done. */
    lemma NewStreamsOpen(before: map<int, Stream>, from: int, upto: int, sending: bool)
      requires forall id :: id in before && TypeOf(id) == TypeOf(from) ==> id < from
      ensures var t := AddStreams(before, from, upto, isServ, sending, peer, own);
              && (forall id :: id in before ==> id in t && t[id] == before[id])
              && forall id :: id in t && id !in before ==> !AllOver(t[id], id, isServ) && !IsDone(t[id], id, isServ)
    {
      hide AddStreams;
      AddMeans(before, from, upto, isServ, sending, peer, own, 0);
    }

    /** quic_stream_id_closed */
    predicate Closed(id: int, sending: bool)
      reads this
    {
      id < View().At(sending, Uni(id)).next
    }

    /**
     quic_stream_get. A stream that exists is found; an ID of the peer's that was used before is
     gone; the peer is refused for the limit only above every count ever advertised to it; a new
     ID within the limits is opened while memory lasts; and streams that are opened are new, with
     the one asked for among them, except when the caller asks to open an ID that only the peer
     may open.
     */
    method Get(id: int, isNew: bool, sending: bool, room: nat) returns (r: Result)
      requires Valid() && id >= 0
      modifies this
      ensures Valid() && Grows() && over == old(over) && (old(Accounted()) ==> Accounted())
      ensures r.Found? ==> r.id in table
      ensures r.Found? && id in old(table) ==> r.id == id && unchanged(this)
      ensures r.Found? && id !in old(table) ==> r.id !in old(created) && (r.id == id <==> Local(id, isServ) == sending)
      ensures !r.Found? ==> unchanged(this)
      ensures r == Invalid <==>
              || !IdValid(id, isServ, sending)
              || (id in old(table) && sending && isNew && old(table)[id].send != Ready)
              || (id !in old(table) && !sending && Local(id, isServ) && id !in old(created))
              || (id !in old(table) && sending && !isNew && old(View()).At(true, Uni(id)).next <= id)
      ensures r == Gone <==>
              && IdValid(id, isServ, sending) && id !in old(table)
              && var next := old(View()).At(sending || Local(id, isServ), Uni(id)).next;
                 || id < next
                 || ((sending || !Local(id, isServ)) && (sending ==> isNew) &&
                     !old(Exceeds(View(), id, sending)) && NumberFrom(next, id) > room)
      ensures id in old(table) && IdValid(id, isServ, sending) && !(sending && isNew && old(table)[id].send != Ready) ==>
                r == Found(id)
      ensures r == Limited ==> id !in old(table) && old(Exceeds(View(), id, sending))
      ensures r == Limited && !sending ==> forall a :: a in adverts && a.0 == Uni(id) ==> a.1 < IdToStreams(id)
      ensures id in old(created) && id !in old(table) && IdValid(id, isServ, sending) && !sending ==> r == Gone
      ensures Local(id, isServ) == sending && (sending ==> isNew) && id !in old(created) + old(table).Keys &&
              !old(Exceeds(View(), id, sending)) && NumberFrom(old(View()).At(sending, Uni(id)).next, id) <= room ==>
                r == Found(id)
    {
      hide LanesOk, IdsOk, AddStreams;
      if !IdValid(id, isServ, sending) {
        return Invalid;
      }
      if id in table {
        if sending && isNew && table[id].send != Ready {
          return Invalid;
        }
        return Found(id);
      }
      CreatedBelow(id);
      if !sending && Local(id, isServ) {
        if Closed(id, !sending) {
          return Gone;
        }
        return Invalid;
      }
      if Closed(id, sending) {
        return Gone;
      }
      if sending && !isNew {
        return Invalid;
      }
      if Exceeds(View(), id, sending) {
        if !sending {
          forall a | a in adverts && a.0 == Uni(id) ensures a.1 < IdToStreams(id) {
            RefusedAbove(id);
          }
        }
        return Limited;
      }
      OpenLastNew(isServ, table, View(), created, id, sending, peer, own);
      var last := Create(id, sending, room);
      if last == -1 {
        return Gone;
      }
      return Found(last);
    }

    lemma CreatedBelow(id: int)
      requires Valid() && id >= 0
      ensures id in created <==> id < View().Home(isServ, id).next
    {
    }

    lemma RefusedAbove(id: int)
      requires Valid() && !Local(id, isServ) && id > View().At(false, Uni(id)).max
      ensures IdToStreams(View().At(false, Uni(id)).max) < IdToStreams(id)
    {
      assert LaneOk(isServ, table, View().At(false, Uni(id)), false, Uni(id));
      SameLane(isServ, id, false, Uni(id));
    }

    /**
     quic_stream_put for a stream that is in the table, in a direction it has. Nothing happens while
     the other half of a bidirectional stream is not over. Otherwise the stream leaves the table once
     its data was read or it was reset, or is marked done; the counter of its own lane drops the first
     time, and nothing else moves. A stream whose own half is over stays accounted for.
     */
    method Put(id: int, sending: bool)
      requires Valid() && id in table && IdValid(id, isServ, sending)
      modifies this`table, this`send, this`recv
      ensures Valid()
      ensures !Uni(id) && sending && (old(table)[id].recv == Receiving || old(table)[id].recv == SizeKnown) ==>
                unchanged(this)
      ensures !Uni(id) && !sending && old(table)[id].send != SendRecvd && old(table)[id].send != SendResetRecvd ==>
                unchanged(this)
      ensures var s := old(table)[id];
              Uni(id) || (if sending then s.recv != Receiving && s.recv != SizeKnown
                          else s.send == SendRecvd || s.send == SendResetRecvd) ==>
                && table == (if (Uni(id) && sending) || s.recv in {Read, ResetRecvd, ResetRead} then old(table) - {id}
                             else if !Uni(id) && Local(id, isServ) then old(table)[id := s.(sendDone := true)]
                             else old(table)[id := s.(recvDone := true)])
                && var h := old(View()).Home(isServ, id);
                   if IsDone(s, id, isServ) then View() == old(View())
                   else h.streams > 0 &&
                        View() == old(View()).With(Local(id, isServ), Uni(id), OneLess(h, Local(id, isServ)))
      ensures old(Accounted()) && HalfOver(old(table)[id], sending) ==> Accounted()
    {
      hide LanesOk, IdsOk;
      var s := table[id];
      LiveCounted(id);
      if Uni(id) {
        if sending {
          Settle(id, None);
          return;
        }
        s := s.(recvDone := true);
      } else {
        if sending && (s.recv == Receiving || s.recv == SizeKnown) {
          return;
        }
        if !sending && s.send != SendRecvd && s.send != SendResetRecvd {
          return;
        }
        if Local(id, isServ) {
          s := s.(sendDone := true);
        } else {
          s := s.(recvDone := true);
        }
      }
      if s.recv != Receiving && s.recv != SizeKnown && s.recv != Recvd {
        Settle(id, None);
      } else {
        Settle(id, Some(s));
      }
    }

    /** quic_frame_stream_ack and quic_frame_reset_stream_ack: the sending half is over, and is put;
        when no half is left the stream is no longer counted. */
    method FinishSend(id: int, s: SendState)
      requires Valid() && id in table && IdValid(id, isServ, true) && (s == SendRecvd || s == SendResetRecvd)
      modifies this
      ensures Valid() && (old(Accounted()) ==> Accounted()) && created == old(created)
      ensures id in table ==> table[id].send == s && table[id].recv == old(table)[id].recv
      ensures id !in table ==> id in over
      ensures Uni(id) || HalfOver(old(table)[id], false) ==> id !in table || IsDone(table[id], id, isServ)
      ensures over - {id} == old(over) - {id}
    {
      hide LanesOk, IdsOk;
      SetStates(id, s, table[id].recv);
      Put(id, true);
    }

    /** The end of the receiving half: all data received, all data read, or a reset; when no half is
        left the stream is no longer counted. */
    method FinishRecv(id: int, r: RecvState)
      requires Valid() && id in table && IdValid(id, isServ, false) && (r == Recvd || r == Read || r == ResetRecvd)
      modifies this
      ensures Valid() && (old(Accounted()) ==> Accounted()) && created == old(created)
      ensures id in table ==> table[id].recv == r && table[id].send == old(table)[id].send
      ensures id !in table ==> id in over
      ensures Uni(id) || HalfOver(old(table)[id], true) ==> id !in table || IsDone(table[id], id, isServ)
      ensures over - {id} == old(over) - {id}
    {
      hide LanesOk, IdsOk;
      SetStates(id, table[id].send, r);
      Put(id, false);
    }

    /** A stream leaves the table or is marked done; its lane's counter follows. */
    method Settle(id: int, s: Option<Stream>)
      requires Valid() && id in table && (s.Some? && Uni(id) ==> !s.value.sendDone)
      requires s.Some? ==> s.value.send == table[id].send && s.value.recv == table[id].recv
      requires s.Some? ==> if Local(id, isServ) then s.value.sendDone || !table[id].sendDone
                           else s.value.recvDone || !table[id].recvDone
      requires (if Local(id, isServ) then !table[id].sendDone else !table[id].recvDone) ==>
                 View().Home(isServ, id).streams > 0
      modifies this`table, this`send, this`recv
      ensures Valid() && table == Replaced(old(table), id, s)
      ensures var h := old(View()).Home(isServ, id);
              if IsDone(old(table)[id], id, isServ) || (s.Some? && !IsDone(s.value, id, isServ)) then View() == old(View())
              else h.streams > 0 && View() == old(View()).With(Local(id, isServ), Uni(id), OneLess(h, Local(id, isServ)))
    {
      hide LanesOk, IdsOk;
      var sending := Local(id, isServ);
      var l := View().At(sending, Uni(id));
      var was := if sending then !table[id].sendDone else !table[id].recvDone;
      var stays := s.Some? && if sending then !s.value.sendDone else !s.value.recvDone;
      if was && !stays {
        l := l.(streams := l.streams - 1, pending := l.pending || !sending);
      }
      ReplaceOk(isServ, table, View(), created, id, s, l);
      var ls := View().With(sending, Uni(id), l);
      send, recv := ls.send, ls.recv;
      table := Replaced(table, id, s);
    }

    lemma LiveCounted(id: int)
      requires Valid() && id in table
      ensures (if Local(id, isServ) then !table[id].sendDone else !table[id].recvDone) ==>
                View().Home(isServ, id).streams > 0
      ensures Uni(id) ==> !table[id].sendDone
    {
      var sending, uni := Local(id, isServ), Uni(id);
      var t := LaneType(isServ, sending, uni);
      SameLane(isServ, id, sending, uni);
      assert LaneOk(isServ, table, View().At(sending, uni), sending, uni);
      if sending && !table[id].sendDone {
        assert id in LiveSend(table, t);
      }
      if !sending && !table[id].recvDone {
        assert id in LiveRecv(table, t);
      }
    }

    /**
     quic_stream_max_streams_update: a lane with a pending raise is brought up to its full
     allowance, and the new count is advertised.
     */
    method MaxStreamsUpdate() returns (maxUni: int, maxBidi: int)
      requires Valid()
      modifies this`recv, this`adverts
      ensures Valid() && Grows()
      ensures maxUni == if old(recv.uni.pending) then IdToStreams(recv.uni.max) else 0
      ensures maxBidi == if old(recv.bidi.pending) then IdToStreams(recv.bidi.max) else 0
      ensures !recv.uni.pending && !recv.bidi.pending
      ensures adverts == old(adverts) + (if old(recv.uni.pending) then {(true, maxUni)} else {})
                                      + (if old(recv.bidi.pending) then {(false, maxBidi)} else {})
      ensures recv.uni.streams + (recv.uni.max - recv.uni.next) / 4 + 1 == recv.uni.maxStreams
      ensures recv.bidi.streams + (recv.bidi.max - recv.bidi.next) / 4 + 1 == recv.bidi.maxStreams
    {
      hide LanesOk, IdsOk;
      maxUni, maxBidi := 0, 0;
      RaisePendingOk(isServ, table, View(), created);
      ghost var raised := RaisePending(View());
      assert raised.At(false, true) == raised.recv.uni && raised.At(false, false) == raised.recv.bidi;
      if recv.uni.pending {
        recv := recv.(uni := Raised(recv.uni));
        maxUni := IdToStreams(recv.uni.max);
        adverts := adverts + {(true, maxUni)};
      }
      if recv.bidi.pending {
        recv := recv.(bidi := Raised(recv.bidi));
        maxBidi := IdToStreams(recv.bidi.max);
        adverts := adverts + {(false, maxBidi)};
      }
      assert View() == raised;
    }

    /** quic_frame_streams_blocked_*_process: repeat the current limit. */
    method StreamsBlocked(uni: bool, max: int) returns (answer: Option<int>)
      requires Valid()
      modifies this`adverts
      ensures Valid()
      ensures answer == if max > IdToStreams(View().At(false, uni).max) then None
                        else Some(IdToStreams(View().At(false, uni).max))
      ensures adverts == old(adverts) + if answer.Some? then {(uni, answer.value)} else {}
    {
      var limit := IdToStreams(View().At(false, uni).max);
      if max > limit {
        return None;
      }
      adverts := adverts + {(uni, limit)};
      return Some(limit);
    }

    /** quic_frame_max_streams_*_process: the peer's limit on what we open becomes the count
        received, and never goes back. */
    method MaxStreams(uni: bool, max: nat) returns (ok: bool)
      requires Valid()
      modifies this`send
      ensures Valid()
      ensures ok <==> max <= MAX_STREAMS_LIMIT
      ensures var l := old(View()).At(true, uni);
              View() == if ok && max > IdToStreams(l.max)
                        then old(View()).With(true, uni, l.(max := StreamsToId(max, LaneType(isServ, true, uni))))
                        else old(View())
      ensures IdToStreams(View().At(true, uni).max) ==
              if ok && max > IdToStreams(old(View()).At(true, uni).max) then max
              else IdToStreams(old(View()).At(true, uni).max)
    {
      hide LiveRecv, LiveSend;
      if max > MAX_STREAMS_LIMIT {
        return false;
      }
      ghost var ls := View();
      var l := View().At(true, uni);
      assert LaneOk(isServ, table, l, true, uni);
      var t := LaneType(isServ, true, uni);
      if max > IdToStreams(l.max) {
        LimitRoundTrip(max, t, l.max);
        l := l.(max := StreamsToId(max, t));
        send := View().With(true, uni, l).send;
      }
      forall s, u ensures LaneOk(isServ, table, View().At(s, u), s, u) {
        assert LaneOk(isServ, table, ls.At(s, u), s, u);
      }
      forall x ensures View().Home(isServ, x).next == ls.Home(isServ, x).next {
      }
      return true;
    }

    /** The states of a stream move on elsewhere; the table does not care. */
    method SetStates(id: int, s: SendState, r: RecvState)
      requires Valid() && id in table
      modifies this`table, this`send, this`recv, this`over
      ensures Valid() && table == old(table)[id := old(table)[id].(send := s, recv := r)] && View() == old(View())
      ensures over == old(over) + if AllOver(table[id], id, isServ) then {id} else {}
      ensures old(Accounted()) ==> Accounted()
    {
      hide LanesOk, IdsOk;
      LiveCounted(id);
      ReplaceOk(isServ, table, View(), created, id, Some(table[id].(send := s, recv := r)), View().Home(isServ, id));
      assert View().With(Local(id, isServ), Uni(id), View().Home(isServ, id)) == View();
      table := table[id := table[id].(send := s, recv := r)];
      over := over + if AllOver(table[id], id, isServ) then {id} else {};
    }

    /** The streams of a lane that are in use: created, and not yet over. */
    ghost function InUse(sending: bool, uni: bool): set<int>
      reads this
    {
      set id | id in created && Local(id, isServ) == sending && Uni(id) == uni && id !in over
    }

    /**
     At no time are more streams in use than the limits allow: those the peer opened and those it may
     still open stay within the configured maximum, and those we opened within the peer's.
     */
    lemma InUseWithinLimits(uni: bool)
      requires Valid() && Accounted()
      ensures var l := View().At(false, uni);
              |InUse(false, uni)| <= l.streams && |InUse(false, uni)| + (l.max - l.next) / 4 + 1 <= l.maxStreams
      ensures var l := View().At(true, uni);
              |InUse(true, uni)| <= l.streams <= l.maxStreams
    {
      InUseCounted(false, uni);
      InUseCounted(true, uni);
      assert LaneOk(isServ, table, View().At(false, uni), false, uni);
      assert LaneOk(isServ, table, View().At(true, uni), true, uni);
    }

    lemma InUseCounted(sending: bool, uni: bool)
      requires Valid() && Accounted()
      ensures |InUse(sending, uni)| <= View().At(sending, uni).streams
    {
      var t := LaneType(isServ, sending, uni);
      var live := if sending then LiveSend(table, t) else LiveRecv(table, t);
      assert LaneOk(isServ, table, View().At(sending, uni), sending, uni);
      forall id | id in InUse(sending, uni) ensures id in live {
        SameLane(isServ, id, sending, uni);
      }
      SubsetSize(InUse(sending, uni), live);
    }

    /** A peer that stays within any stream count it was ever told is never refused. */
    lemma PeerNeverRefused(id: int, count: int)
      requires Valid() && !Local(id, isServ) && (Uni(id), count) in adverts && IdToStreams(id) <= count
      ensures !Exceeds(View(), id, false)
    {
      assert LaneOk(isServ, table, View().At(false, Uni(id)), false, Uni(id));
      SameLane(isServ, id, false, Uni(id));
    }

    /** The counters are exactly the streams in the table that are not done. */
    lemma CountersExact()
      requires Valid()
      ensures recv.bidi.streams == |LiveRecv(table, LaneType(isServ, false, false))|
      ensures recv.uni.streams == |LiveRecv(table, LaneType(isServ, false, true))|
      ensures send.bidi.streams == |LiveSend(table, LaneType(isServ, true, false))|
      ensures send.uni.streams == |LiveSend(table, LaneType(isServ, true, true))|
    {
      forall s, u ensures LaneOk(isServ, table, View().At(s, u), s, u) {
      }
      assert LaneOk(isServ, table, View().At(false, false), false, false);
      assert LaneOk(isServ, table, View().At(false, true), false, true);
      assert LaneOk(isServ, table, View().At(true, false), true, false);
      assert LaneOk(isServ, table, View().At(true, true), true, true);
    }
  }
}
