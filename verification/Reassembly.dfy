/**
 What it means for the receive lists of modules/net/quic/inqueue.c to hold a stream: which
 bytes have been accepted, which are delivered, and what remains out of order.

 Each stream carries one byte string, and every STREAM frame is a slice of it.
 */
module Reassembly {
  import opened Wire

  /** Receive states of section 3.2 of RFC 9000, in the order the code compares them. */
  datatype State = Receiving | SizeKnown | Recvd | DataRead | ResetRecvd

  /** A data frame carries a slice of a byte string: a STREAM frame or, on lists of its own, a CRYPTO frame. */
  datatype Kind = DataFrame | EventFrame | DatagramFrame

  /** A received frame. On the receive list `offset` is how much of it has been read. */
  datatype Frame = Frame(kind: Kind, id: nat, offset: nat, data: seq<Byte>, fin: bool)
  {
    function End(): nat { offset + |data| }
  }

  /** The receive half of struct quic_stream. */
  datatype Stream = Stream(
    offset: nat, highest: nat, finalsz: nat, frags: int, state: State,
    maxBytes: nat, window: nat, bytes: nat)

  /** recv.state >= QUIC_STREAM_RECV_STATE_RECVD */
  predicate Final(s: State)
  {
    s.Recvd? || s.DataRead? || s.ResetRecvd?
  }

  /** A frame is a slice of the stream's byte string `m`, and only its end carries FIN. */
  ghost predicate Slice(f: Frame, m: seq<Byte>)
  {
    && f.kind == DataFrame
    && f.End() <= |m|
    && f.data == m[f.offset..f.End()]
    && (f.fin ==> f.End() == |m|)
  }

  // ---------- lists of frames ----------

  /** The bytes charged for a list of frames. */
  function SumLen(fs: seq<Frame>): nat
  {
    if fs == [] then 0 else |fs[0].data| + SumLen(fs[1..])
  }

  /** The number of frames of a stream on a list. */
  function Count(fs: seq<Frame>, id: nat): nat
  {
    if fs == [] then 0 else (if fs[0].id == id then 1 else 0) + Count(fs[1..], id)
  }

  /** What a stream still has to hand to the application: the unread parts of its frames in order. */
  function Unread(fs: seq<Frame>, id: nat): seq<Byte>
  {
    if fs == [] then []
    else
      (if fs[0].kind == DataFrame && fs[0].id == id && fs[0].offset <= |fs[0].data|
       then fs[0].data[fs[0].offset..] else [])
      + Unread(fs[1..], id)
  }

  /** How much of a frame on the receive list is still to be read. */
  function Left(f: Frame): nat
  {
    if f.offset <= |f.data| then |f.data| - f.offset else 0
  }

  /** How much is copied of `left` bytes into a buffer of `msgLen`, of which `room` can be written. */
  function Least(left: nat, msgLen: nat, room: nat): (n: nat)
    ensures n <= left && n <= msgLen && n <= room
    ensures n == left || n == msgLen || n == room
  {
    if left <= msgLen && left <= room then left else if msgLen <= room then msgLen else room
  }

  /** The list without the frames of a stream, as quic_inq_list_purge leaves it. */
  function Without(fs: seq<Frame>, id: nat): seq<Frame>
  {
    if fs == [] then []
    else (if fs[0].kind == DataFrame && fs[0].id == id then [] else [fs[0]]) + Without(fs[1..], id)
  }

  lemma {:induction false} SumLenConcat(a: seq<Frame>, b: seq<Frame>)
    ensures SumLen(a + b) == SumLen(a) + SumLen(b)
  {
    if a == [] {
      assert a + b == b;
    } else {
      assert (a + b)[1..] == a[1..] + b;
      SumLenConcat(a[1..], b);
    }
  }

  lemma {:induction false} CountConcat(a: seq<Frame>, b: seq<Frame>, id: nat)
    ensures Count(a + b, id) == Count(a, id) + Count(b, id)
  {
    if a == [] {
      assert a + b == b;
    } else {
      assert (a + b)[1..] == a[1..] + b;
      CountConcat(a[1..], b, id);
    }
  }

  lemma {:induction false} UnreadConcat(a: seq<Frame>, b: seq<Frame>, id: nat)
    ensures Unread(a + b, id) == Unread(a, id) + Unread(b, id)
  {
    if a == [] {
      assert a + b == b;
    } else {
      assert (a + b)[1..] == a[1..] + b;
      UnreadConcat(a[1..], b, id);
      assert (a + b)[0] == a[0];
    }
  }

  lemma {:induction false} CountPositive(fs: seq<Frame>, f: Frame)
    requires f in fs
    ensures Count(fs, f.id) > 0
  {
    if fs[0] != f {
      CountPositive(fs[1..], f);
    }
  }

  lemma Single(f: Frame, id: nat)
    ensures SumLen([f]) == |f.data| && Count([f], id) == (if f.id == id then 1 else 0)
    ensures f.kind != DataFrame ==> Unread([f], id) == []
  {
    assert [f][1..] == [];
  }

  /** Putting a frame anywhere into a list. */
  lemma Inserted(a: seq<Frame>, f: Frame, b: seq<Frame>)
    ensures SumLen(a + [f] + b) == SumLen(a + b) + |f.data|
    ensures forall id :: Count(a + [f] + b, id) == Count(a + b, id) + (if f.id == id then 1 else 0)
    ensures f.kind != DataFrame ==> forall id :: Unread(a + [f] + b, id) == Unread(a + b, id)
    ensures forall g :: g in a + [f] + b <==> g == f || g in a + b
  {
    hide SumLen, Count, Unread;
    Single(f, 0);
    SumLenConcat(a, b);
    SumLenConcat(a + [f], b);
    SumLenConcat(a, [f]);
    forall id: nat
      ensures Count(a + [f] + b, id) == Count(a + b, id) + (if f.id == id then 1 else 0)
      ensures f.kind != DataFrame ==> Unread(a + [f] + b, id) == Unread(a + b, id)
    {
      Single(f, id);
      CountConcat(a, b, id);
      CountConcat(a + [f], b, id);
      CountConcat(a, [f], id);
      UnreadConcat(a, b, id);
      UnreadConcat(a + [f], b, id);
      UnreadConcat(a, [f], id);
      assert Unread(a, id) + [] == Unread(a, id);
    }
  }

  lemma {:induction false} WithoutKeeps(fs: seq<Frame>, id: nat, j: nat)
    requires j != id
    ensures Unread(Without(fs, id), j) == Unread(fs, j)
    ensures (forall f :: f in fs ==> f.kind == DataFrame) ==> Count(Without(fs, id), j) == Count(fs, j)
  {
    if fs != [] {
      WithoutKeeps(fs[1..], id, j);
      var rest := Without(fs[1..], id);
      if !(fs[0].kind == DataFrame && fs[0].id == id) {
        assert ([fs[0]] + rest)[1..] == rest;
      } else {
        assert Without(fs, id) == rest;
      }
    }
  }

  lemma {:induction false} WithoutMembers(fs: seq<Frame>, id: nat)
    ensures forall f :: f in Without(fs, id) <==> f in fs && !(f.kind == DataFrame && f.id == id)
    ensures SumLen(Without(fs, id)) <= SumLen(fs)
  {
    if fs != [] {
      WithoutMembers(fs[1..], id);
      var rest := Without(fs[1..], id);
      assert ([fs[0]] + rest)[1..] == rest;
      assert forall f :: f in fs <==> f == fs[0] || f in fs[1..];
      if fs[0].kind == DataFrame && fs[0].id == id {
        assert Without(fs, id) == rest;
      }
    }
  }

  lemma WithoutMeaning(fs: seq<Frame>, id: nat)
    ensures forall f :: f in Without(fs, id) <==> f in fs && !(f.kind == DataFrame && f.id == id)
    ensures SumLen(Without(fs, id)) <= SumLen(fs)
    ensures forall j :: j != id ==> Unread(Without(fs, id), j) == Unread(fs, j)
    ensures (forall f :: f in fs ==> f.kind == DataFrame) ==>
              forall j :: j != id ==> Count(Without(fs, id), j) == Count(fs, j)
  {
    hide Without, Unread, Count, SumLen;
    WithoutMembers(fs, id);
    forall j: nat | j != id
      ensures Unread(Without(fs, id), j) == Unread(fs, j)
      ensures (forall f :: f in fs ==> f.kind == DataFrame) ==> Count(Without(fs, id), j) == Count(fs, j)
    {
      WithoutKeeps(fs, id, j);
    }
  }

  /** One frame of a purge. */
  lemma PurgeStep(list: seq<Frame>, i: nat, id: nat)
    requires i < |list|
    ensures Without(list[i..], id) ==
            (if list[i].kind == DataFrame && list[i].id == id then [] else [list[i]]) + Without(list[i + 1..], id)
    ensures SumLen(list[i..]) == |list[i].data| + SumLen(list[i + 1..]) && SumLen([list[i]]) == |list[i].data|
  {
    assert list[i..][1..] == list[i + 1..];
    assert SumLen([list[i]]) == |list[i].data| + SumLen([list[i]][1..]);
  }

  lemma PurgeEnd(id: nat)
    ensures Without([], id) == [] && SumLen([]) == 0
  {
  }

  // ---------- order ----------

  predicate Before(f: Frame, g: Frame)
  {
    f.id < g.id || (f.id == g.id && f.offset <= g.offset)
  }

  ghost predicate Sorted(fs: seq<Frame>)
  {
    forall i, j :: 0 <= i < j < |fs| ==> Before(fs[i], fs[j])
  }

  lemma SortedInsert(fs: seq<Frame>, f: Frame, p: nat)
    requires Sorted(fs) && p <= |fs|
    requires forall i :: 0 <= i < p ==> Before(fs[i], f)
    requires p < |fs| ==> Before(f, fs[p])
    ensures Sorted(fs[..p] + [f] + fs[p..])
  {
    var r := fs[..p] + [f] + fs[p..];
    forall i, j | 0 <= i < j < |r| ensures Before(r[i], r[j]) {
      if i == p && j > p {
        assert r[j] == fs[j - 1];
        assert j - 1 > p ==> Before(fs[p], fs[j - 1]);
      }
    }
  }

  lemma {:induction false} SortedWithout(fs: seq<Frame>, id: nat)
    requires Sorted(fs)
    ensures Sorted(Without(fs, id))
  {
    if fs != [] {
      SortedWithout(fs[1..], id);
      WithoutMembers(fs[1..], id);
      var rest := Without(fs[1..], id);
      forall i | 0 <= i < |rest| ensures Before(fs[0], rest[i]) {
        assert rest[i] in fs[1..];
      }
    }
  }

  // ---------- one stream ----------

  ghost predicate Holds(fs: seq<Frame>, id: nat, x: int)
  {
    exists f :: f in fs && f.id == id && f.offset <= x < f.End()
  }

  ghost predicate HoldsFin(fs: seq<Frame>, id: nat)
  {
    exists f :: f in fs && f.id == id && f.fin
  }

  /**
   Stream `id` with byte string `m`: `cov` is the set of offsets accepted so far, `fin` whether a
   FIN was accepted, `taken` what the application has read. `pool` holds the frames not yet
   delivered and `queue` those delivered and not yet read.
   */
  ghost predicate StreamOk(
    s: Stream, id: nat, m: seq<Byte>, pool: seq<Frame>, queue: seq<Frame>,
    cov: set<int>, fin: bool, taken: seq<Byte>)
  {
    s.state == ResetRecvd ||
    (&& s.offset <= s.highest <= |m|
     && (s.finalsz == 0 || s.finalsz == |m|)
     && (forall f :: f in pool && f.id == id ==> Slice(f, m) && f.End() <= s.highest)
     && (forall x :: x in cov <==> 0 <= x < s.offset || Holds(pool, id, x))
     && (fin <==> Final(s.state) || HoldsFin(pool, id))
     && (Final(s.state) ==> s.offset == |m|)
     && (s.state == SizeKnown ==> HoldsFin(pool, id) && s.finalsz == |m|)
     && taken + Unread(queue, id) == m[..s.offset])
  }

  /** Nothing in the pool could be delivered yet. */
  ghost predicate Waiting(s: Stream, id: nat, pool: seq<Frame>)
  {
    s.state != ResetRecvd ==>
      forall f :: f in pool && f.id == id ==> s.offset < f.offset && (f.fin ==> s.state == SizeKnown)
  }

  /**
   What a stream between two calls means: the receive offset is the least offset not accepted,
   what the application has read and can read is the first `offset` bytes of the stream, and
   the state says "all received" exactly when FIN and every byte have been accepted.
   */
  lemma ReassemblyExact(
    s: Stream, id: nat, m: seq<Byte>, pool: seq<Frame>, queue: seq<Frame>,
    cov: set<int>, fin: bool, taken: seq<Byte>)
    requires StreamOk(s, id, m, pool, queue, cov, fin, taken) && Waiting(s, id, pool)
    requires s.state != ResetRecvd
    ensures s.offset !in cov && forall x :: 0 <= x < s.offset ==> x in cov
    ensures taken + Unread(queue, id) == m[..s.offset]
    ensures Final(s.state) <==> fin && forall x :: 0 <= x < |m| ==> x in cov
    ensures s.state == SizeKnown <==> fin && !Final(s.state)
  {
    assert !Holds(pool, id, s.offset);
    if fin && !Final(s.state) {
      var f :| f in pool && f.id == id && f.fin;
      assert s.offset < f.offset <= |m|;
    }
  }

  // ---------- steps ----------

  /** Delivering the part of `f` beyond the offset. */
  lemma DeliverOk(
    s: Stream, id: nat, m: seq<Byte>, pool: seq<Frame>, f: Frame, queue: seq<Frame>, queue': seq<Frame>,
    cov: set<int>, fin: bool, taken: seq<Byte>)
    requires StreamOk(s, id, m, pool + [f], queue, cov, fin, taken)
    requires f.id == id && Slice(f, m) && f.offset <= s.offset <= f.End() && !Final(s.state)
    requires Unread(queue', id) == Unread(queue, id) + f.data[s.offset - f.offset..]
    ensures StreamOk(Delivered(s, f.End(), f.fin), id, m, pool, queue', cov, fin, taken)
  {
    hide Unread, Holds, HoldsFin, Slice;
    var s' := Delivered(s, f.End(), f.fin);
    Extends(f, m, s.offset, taken, Unread(queue, id));
    PoolPart(pool, f, id, m, s.highest);
    forall x ensures x in cov <==> 0 <= x < s'.offset || Holds(pool, id, x) {
      PoolSplit(pool, f, id, x);
    }
    PoolSplit(pool, f, id, 0);
  }

  /** The part of a slice beyond the offset continues what came before. */
  lemma Extends(f: Frame, m: seq<Byte>, offset: nat, taken: seq<Byte>, unread: seq<Byte>)
    requires Slice(f, m) && f.offset <= offset <= f.End() && taken + unread == m[..offset]
    ensures f.End() <= |m| && (f.fin ==> f.End() == |m|)
    ensures taken + (unread + f.data[offset - f.offset..]) == m[..f.End()]
  {
    var rest := f.data[offset - f.offset..];
    assert rest == m[offset..f.End()];
    assert taken + (unread + rest) == (taken + unread) + rest;
  }

  lemma PoolPart(pool: seq<Frame>, f: Frame, id: nat, m: seq<Byte>, highest: nat)
    requires forall g :: g in pool + [f] && g.id == id ==> Slice(g, m) && g.End() <= highest
    ensures forall g :: g in pool && g.id == id ==> Slice(g, m) && g.End() <= highest
    ensures f.id == id ==> f.End() <= highest
  {
    hide Slice;
    assert f in pool + [f] && forall g :: g in pool ==> g in pool + [f];
  }

  lemma PoolSplit(pool: seq<Frame>, f: Frame, id: nat, x: int)
    ensures Holds(pool + [f], id, x) <==> Holds(pool, id, x) || (f.id == id && f.offset <= x < f.End())
    ensures HoldsFin(pool + [f], id) <==> HoldsFin(pool, id) || (f.id == id && f.fin)
  {
    assert f in pool + [f];
    assert forall g :: g in pool + [f] <==> g in pool || g == f;
  }

  /** Frames of other streams in the pool and in the queue do not matter. */
  lemma OtherOk(
    s: Stream, id: nat, m: seq<Byte>, pool: seq<Frame>, pool': seq<Frame>, queue: seq<Frame>, queue': seq<Frame>,
    cov: set<int>, fin: bool, taken: seq<Byte>)
    requires StreamOk(s, id, m, pool, queue, cov, fin, taken)
    requires forall g: Frame :: g.id == id ==> (g in pool <==> g in pool')
    requires Unread(queue', id) == Unread(queue, id)
    ensures StreamOk(s, id, m, pool', queue', cov, fin, taken)
  {
    forall x ensures Holds(pool, id, x) <==> Holds(pool', id, x) {
      if Holds(pool, id, x) {
        var g :| g in pool && g.id == id && g.offset <= x < g.End();
        assert g in pool';
      }
      if Holds(pool', id, x) {
        var g :| g in pool' && g.id == id && g.offset <= x < g.End();
        assert g in pool;
      }
    }
    assert HoldsFin(pool, id) <==> HoldsFin(pool', id) by {
      if HoldsFin(pool, id) {
        var g :| g in pool && g.id == id && g.fin;
        assert g in pool';
      }
      if HoldsFin(pool', id) {
        var g :| g in pool' && g.id == id && g.fin;
        assert g in pool;
      }
    }
  }

  // ---------- all streams ----------

  /** What a connection's streams carry, and what has been accepted and read of each. */
  datatype History = History(sent: seq<seq<Byte>>, covered: seq<set<int>>, fins: seq<bool>, taken: seq<seq<Byte>>)

  ghost predicate Fits(h: History, n: nat)
  {
    |h.sent| == |h.covered| == |h.fins| == |h.taken| == n
  }

  ghost predicate AllOk(ss: seq<Stream>, pool: seq<Frame>, queue: seq<Frame>, h: History)
    requires Fits(h, |ss|)
  {
    forall i :: 0 <= i < |ss| ==>
      StreamOk(ss[i], i, h.sent[i], pool, queue, h.covered[i], h.fins[i], h.taken[i])
  }

  /** Streams before any data. */
  lemma FreshAllOk(ss: seq<Stream>, h: History)
    requires Fits(h, |ss|)
    requires forall i :: 0 <= i < |ss| ==> ss[i].offset == ss[i].highest == ss[i].finalsz == 0 && ss[i].state == Receiving
    requires forall i :: 0 <= i < |ss| ==> h.covered[i] == {} && !h.fins[i] && h.taken[i] == []
    ensures AllOk(ss, [], [], h)
  {
  }

  lemma DeliverAllOk(ss: seq<Stream>, pool: seq<Frame>, f: Frame, queue: seq<Frame>, queue': seq<Frame>, h: History)
    requires Fits(h, |ss|) && AllOk(ss, pool + [f], queue, h)
    requires f.id < |ss| && Slice(f, h.sent[f.id]) && !Final(ss[f.id].state)
    requires f.offset <= ss[f.id].offset <= f.End()
    requires forall id :: Unread(queue', id) ==
               Unread(queue, id) + (if id == f.id then f.data[ss[f.id].offset - f.offset..] else [])
    ensures AllOk(ss[f.id := Delivered(ss[f.id], f.End(), f.fin)], pool, queue', h)
  {
    hide StreamOk, Unread;
    var ss' := ss[f.id := Delivered(ss[f.id], f.End(), f.fin)];
    forall i | 0 <= i < |ss|
      ensures StreamOk(ss'[i], i, h.sent[i], pool, queue', h.covered[i], h.fins[i], h.taken[i])
    {
      if i == f.id {
        DeliverOk(ss[i], i, h.sent[i], pool, f, queue, queue', h.covered[i], h.fins[i], h.taken[i]);
      } else {
        OtherOk(ss[i], i, h.sent[i], pool + [f], pool, queue, queue', h.covered[i], h.fins[i], h.taken[i]);
      }
    }
  }

  /** The list of frames awaiting reassembly: sorted, and counted by each stream's frags. */
  ghost predicate ListOk(ss: seq<Stream>, list: seq<Frame>)
  {
    && Sorted(list)
    && (forall f :: f in list ==> f.kind == DataFrame && f.id < |ss| && !ss[f.id].state.ResetRecvd?)
    && (forall i :: 0 <= i < |ss| && !ss[i].state.ResetRecvd? ==> ss[i].frags == Count(list, i))
  }

  /** The list of frames ready for the application; a delivered FIN means a finished stream. */
  ghost predicate QueueOk(ss: seq<Stream>, queue: seq<Frame>)
  {
    forall f :: f in queue ==>
      && f.offset <= |f.data|
      && (f.kind == DataFrame ==>
            f.id < |ss| && !ss[f.id].state.ResetRecvd? && (f.fin ==> Final(ss[f.id].state)))
  }

  ghost predicate SettledAll(ss: seq<Stream>, list: seq<Frame>)
  {
    forall i :: 0 <= i < |ss| ==> Waiting(ss[i], i, list)
  }

  /** The stream after a frame ending at `end` is delivered. */
  function Delivered(s: Stream, end: nat, fin: bool): Stream
  {
    s.(offset := end, state := if fin then Recvd else s.state)
  }

  lemma DeliverLists(ss: seq<Stream>, list: seq<Frame>, queue: seq<Frame>, f: Frame, id: nat, end: nat)
    requires id < |ss| && !Final(ss[id].state)
    requires ListOk(ss, list) && QueueOk(ss, queue)
    requires f.kind == DataFrame && f.id == id && f.offset == 0
    ensures var ss' := ss[id := Delivered(ss[id], end, f.fin)];
            ListOk(ss', list) && QueueOk(ss', queue + [f])
  {
  }

  lemma UnreadAppended(queue: seq<Frame>, f: Frame, id: nat)
    requires f.kind == DataFrame && f.offset == 0
    ensures Unread(queue + [f], id) == Unread(queue, id) + (if id == f.id then f.data else [])
  {
    UnreadConcat(queue, [f], id);
    assert f.data[0..] == f.data;
    assert [f][1..] == [];
    assert Unread([f], id) == if id == f.id then f.data else [];
  }

  // ---------- accepting a frame ----------

  function Interval(lo: nat, hi: nat): (r: set<int>)
    ensures forall x :: x in r <==> lo <= x < hi
  {
    if lo >= hi then {} else Interval(lo, hi - 1) + {hi - 1}
  }

  /** The offsets a frame carries. */
  function Range(f: Frame): (r: set<int>)
    ensures forall x :: x in r <==> f.offset <= x < f.End()
  {
    Interval(f.offset, f.End())
  }

  /** The history once a frame is accepted. */
  function Accept(h: History, f: Frame): History
    requires f.id < |h.covered| && f.id < |h.fins|
  {
    h.(covered := h.covered[f.id := h.covered[f.id] + Range(f)],
       fins := h.fins[f.id := h.fins[f.id] || f.fin])
  }

  function Max(a: nat, b: nat): nat { if a < b then b else a }

  /** The stream once a frame is accepted; `ahead` says that it stays out of order. */
  function Admitted(s: Stream, f: Frame, ahead: bool): Stream
  {
    var s := s.(highest := Max(s.highest, f.End()));
    if ahead && f.fin then s.(state := SizeKnown, finalsz := f.End()) else s
  }

  lemma AcceptOk(s: Stream, id: nat, m: seq<Byte>, pool: seq<Frame>, f: Frame, queue: seq<Frame>,
                 cov: set<int>, fin: bool, taken: seq<Byte>, ahead: bool)
    requires StreamOk(s, id, m, pool, queue, cov, fin, taken)
    requires f.id == id && Slice(f, m) && !Final(s.state)
    ensures StreamOk(Admitted(s, f, ahead), id, m, pool + [f], queue, cov + Range(f), fin || f.fin, taken)
  {
    hide Unread;
    forall x ensures x in cov + Range(f) <==> 0 <= x < s.offset || Holds(pool + [f], id, x) {
      PoolSplit(pool, f, id, x);
    }
    PoolSplit(pool, f, id, 0);
  }

  lemma AcceptAllOk(ss: seq<Stream>, pool: seq<Frame>, f: Frame, queue: seq<Frame>, h: History, ahead: bool)
    requires Fits(h, |ss|) && AllOk(ss, pool, queue, h)
    requires f.id < |ss| && Slice(f, h.sent[f.id]) && !Final(ss[f.id].state)
    ensures AllOk(ss[f.id := Admitted(ss[f.id], f, ahead)], pool + [f], queue, Accept(h, f))
  {
    hide StreamOk;
    var ss' := ss[f.id := Admitted(ss[f.id], f, ahead)];
    var h' := Accept(h, f);
    forall i | 0 <= i < |ss|
      ensures StreamOk(ss'[i], i, h'.sent[i], pool + [f], queue, h'.covered[i], h'.fins[i], h'.taken[i])
    {
      if i == f.id {
        AcceptOk(ss[i], i, h.sent[i], pool, f, queue, h.covered[i], h.fins[i], h.taken[i], ahead);
      } else {
        OtherOk(ss[i], i, h.sent[i], pool, pool + [f], queue, queue, h.covered[i], h.fins[i], h.taken[i]);
      }
    }
  }

  /** A frame whose bytes and FIN are known already changes nothing. */
  lemma AcceptKnown(ss: seq<Stream>, pool: seq<Frame>, f: Frame, queue: seq<Frame>, h: History)
    requires Fits(h, |ss|) && AllOk(ss, pool, queue, h)
    requires f.id < |ss| && !Final(ss[f.id].state)
    requires forall x :: f.offset <= x < f.End() ==> x < ss[f.id].offset || Holds(pool, f.id, x)
    requires f.fin ==> HoldsFin(pool, f.id)
    ensures Accept(h, f) == h
  {
    assert StreamOk(ss[f.id], f.id, h.sent[f.id], pool, queue, h.covered[f.id], h.fins[f.id], h.taken[f.id]);
    assert h.covered[f.id] + Range(f) == h.covered[f.id];
    assert h.covered[f.id := h.covered[f.id]] == h.covered;
    assert h.fins[f.id := h.fins[f.id]] == h.fins;
  }

  /** Only which frames are in the pool matters, not where. */
  lemma SamePoolOk(ss: seq<Stream>, pool: seq<Frame>, pool': seq<Frame>, queue: seq<Frame>, h: History)
    requires Fits(h, |ss|) && AllOk(ss, pool, queue, h)
    requires forall g :: g in pool <==> g in pool'
    ensures AllOk(ss, pool', queue, h)
  {
    forall i | 0 <= i < |ss|
      ensures StreamOk(ss[i], i, h.sent[i], pool', queue, h.covered[i], h.fins[i], h.taken[i])
    {
      OtherOk(ss[i], i, h.sent[i], pool, pool', queue, queue, h.covered[i], h.fins[i], h.taken[i]);
    }
  }

  // ---------- the list of waiting frames ----------

  function InsertAt(list: seq<Frame>, p: nat, f: Frame): seq<Frame>
    requires p <= |list|
  {
    list[..p] + [f] + list[p..]
  }

  function RemoveAt(list: seq<Frame>, p: nat): seq<Frame>
    requires p < |list|
  {
    list[..p] + list[p + 1..]
  }

  lemma InsertedAt(list: seq<Frame>, p: nat, f: Frame)
    requires p <= |list|
    ensures SumLen(InsertAt(list, p, f)) == SumLen(list) + |f.data|
    ensures forall id :: Count(InsertAt(list, p, f), id) == Count(list, id) + (if f.id == id then 1 else 0)
    ensures forall g :: g in InsertAt(list, p, f) <==> g == f || g in list
  {
    hide SumLen, Count, Unread;
    assert list[..p] + list[p..] == list;
    Inserted(list[..p], f, list[p..]);
  }

  lemma RemovedAt(list: seq<Frame>, p: nat)
    requires p < |list|
    ensures SumLen(RemoveAt(list, p)) == SumLen(list) - |list[p].data|
    ensures forall id :: Count(RemoveAt(list, p), id) == Count(list, id) - (if list[p].id == id then 1 else 0)
    ensures forall g :: g in list <==> g == list[p] || g in RemoveAt(list, p)
  {
    hide SumLen, Count, Unread;
    assert list[..p] + [list[p]] + list[p + 1..] == list;
    Inserted(list[..p], list[p], list[p + 1..]);
  }

  /** An out-of-order frame goes where the list stays sorted. */
  lemma InsertListOk(ss: seq<Stream>, list: seq<Frame>, p: nat, f: Frame, s': Stream)
    requires ListOk(ss, list) && p <= |list|
    requires f.kind == DataFrame && f.id < |ss| && !ss[f.id].state.ResetRecvd? && !s'.state.ResetRecvd?
    requires s'.frags == ss[f.id].frags + 1
    requires forall i :: 0 <= i < p ==> Before(list[i], f)
    requires p < |list| ==> Before(f, list[p])
    ensures ListOk(ss[f.id := s'], InsertAt(list, p, f))
  {
    SortedInsert(list, f, p);
    InsertedAt(list, p, f);
  }

  lemma RemoveListOk(ss: seq<Stream>, list: seq<Frame>, p: nat, s': Stream)
    requires ListOk(ss, list) && p < |list|
    requires !s'.state.ResetRecvd? && s'.frags == ss[list[p].id].frags - 1
    ensures ListOk(ss[list[p].id := s'], RemoveAt(list, p))
  {
    RemovedAt(list, p);
    SortedRemove(list, p);
    hide RemoveAt, Sorted, Count, SumLen, Unread;
  }

  lemma SortedRemove(list: seq<Frame>, p: nat)
    requires Sorted(list) && p < |list|
    ensures Sorted(RemoveAt(list, p))
  {
    var r := RemoveAt(list, p);
    forall i, j | 0 <= i < j < |r| ensures Before(r[i], r[j]) {
      assert r[i] == list[if i < p then i else i + 1];
      assert r[j] == list[if j < p then j else j + 1];
    }
  }

  lemma DiscardOk(s: Stream, id: nat, m: seq<Byte>, pool: seq<Frame>, f: Frame, queue: seq<Frame>,
                  cov: set<int>, fin: bool, taken: seq<Byte>)
    requires StreamOk(s, id, m, pool + [f], queue, cov, fin, taken)
    requires f.id == id && f.End() <= s.offset && (f.fin ==> s.state == Recvd)
    ensures StreamOk(s, id, m, pool, queue, cov, fin, taken)
  {
    hide Unread;
    assert forall g :: g in pool ==> g in pool + [f];
    forall x ensures Holds(pool + [f], id, x) <==> Holds(pool, id, x) || f.offset <= x < f.End() {
      PoolSplit(pool, f, id, x);
    }
    PoolSplit(pool, f, id, 0);
  }

  /** A frame that has become redundant can be dropped from the pool. */
  lemma DiscardAllOk(ss: seq<Stream>, pool: seq<Frame>, f: Frame, queue: seq<Frame>, h: History)
    requires Fits(h, |ss|) && AllOk(ss, pool + [f], queue, h)
    requires f.id < |ss| && f.End() <= ss[f.id].offset && (f.fin ==> ss[f.id].state == Recvd)
    ensures AllOk(ss, pool, queue, h)
  {
    hide StreamOk;
    forall i | 0 <= i < |ss|
      ensures StreamOk(ss[i], i, h.sent[i], pool, queue, h.covered[i], h.fins[i], h.taken[i])
    {
      if i == f.id {
        DiscardOk(ss[i], i, h.sent[i], pool, f, queue, h.covered[i], h.fins[i], h.taken[i]);
      } else {
        OtherOk(ss[i], i, h.sent[i], pool + [f], pool, queue, queue, h.covered[i], h.fins[i], h.taken[i]);
      }
    }
  }

  /** Two records of a stream that differ only in what reassembly does not look at. */
  predicate SameProgress(s: Stream, t: Stream)
  {
    s.offset == t.offset && s.highest == t.highest && s.finalsz == t.finalsz && s.state == t.state
  }

  lemma SameProgressOk(ss: seq<Stream>, id: nat, t: Stream, pool: seq<Frame>, queue: seq<Frame>, h: History)
    requires Fits(h, |ss|) && id < |ss| && SameProgress(ss[id], t)
    ensures AllOk(ss, pool, queue, h) <==> AllOk(ss[id := t], pool, queue, h)
  {
    hide Unread;
    var ss' := ss[id := t];
    forall i | 0 <= i < |ss|
      ensures StreamOk(ss[i], i, h.sent[i], pool, queue, h.covered[i], h.fins[i], h.taken[i]) <==>
              StreamOk(ss'[i], i, h.sent[i], pool, queue, h.covered[i], h.fins[i], h.taken[i])
    {
    }
  }

  /** Nor do the lists look at it, as long as the number of fragments stays. */
  lemma SameProgressLists(ss: seq<Stream>, id: nat, t: Stream, list: seq<Frame>, queue: seq<Frame>)
    requires id < |ss| && SameProgress(ss[id], t) && t.frags == ss[id].frags
    requires ListOk(ss, list) && QueueOk(ss, queue) && SettledAll(ss, list)
    ensures ListOk(ss[id := t], list) && QueueOk(ss[id := t], queue) && SettledAll(ss[id := t], list)
  {
    hide Count, Sorted;
  }

  /** Taking a frame off the list of waiting frames. */
  lemma TakeOut(ss: seq<Stream>, list: seq<Frame>, p: nat, queue: seq<Frame>, h: History)
    requires Fits(h, |ss|) && ListOk(ss, list) && QueueOk(ss, queue) && AllOk(ss, list, queue, h) && p < |list|
    ensures var f, list' := list[p], RemoveAt(list, p);
            var ss' := ss[f.id := ss[f.id].(frags := ss[f.id].frags - 1)];
            && ListOk(ss', list') && QueueOk(ss', queue) && AllOk(ss', list' + [f], queue, h)
            && SumLen(list') == SumLen(list) - |f.data|
            && (forall g :: g in list' ==> g in list)
            && (ss[f.id].offset <= |h.sent[f.id]| && Slice(f, h.sent[f.id]))
            && (Final(ss[f.id].state) ==> ss[f.id].offset == |h.sent[f.id]|)
  {
    hide SumLen, Unread;
    var f, list' := list[p], RemoveAt(list, p);
    var t := ss[f.id].(frags := ss[f.id].frags - 1);
    RemovedAt(list, p);
    RemoveListOk(ss, list, p, t);
    assert f in list;
    assert StreamOk(ss[f.id], f.id, h.sent[f.id], list, queue, h.covered[f.id], h.fins[f.id], h.taken[f.id]);
    assert AllOk(ss[f.id := t], list, queue, h) by { SameProgressOk(ss, f.id, t, list, queue, h); }
    hide StreamOk;
    SamePoolOk(ss[f.id := t], list, list' + [f], queue, h);
  }

  /** Where the drain loop stops, nothing of the stream can be delivered any more. */
  lemma SettledAfter(ss: seq<Stream>, list: seq<Frame>, id: nat, i: nat)
    requires id < |ss| && i <= |list| && Sorted(list)
    requires forall j :: 0 <= j < |ss| && j != id ==> Waiting(ss[j], j, list)
    requires forall j :: 0 <= j < i ==> list[j].id < id
    requires i < |list| ==> list[i].id > id || (list[i].id == id && list[i].offset > ss[id].offset)
    requires forall f :: f in list && f.id == id && f.fin ==> ss[id].state == SizeKnown || ss[id].state == Recvd
    requires ss[id].state == Recvd ==> forall f :: f in list && f.id == id ==> f.offset <= ss[id].offset
    ensures SettledAll(ss, list)
  {
    forall f | f in list && f.id == id ensures ss[id].offset < f.offset {
      var k :| 0 <= k < |list| && list[k] == f;
      if i < k {
        assert Before(list[i], list[k]);
      }
    }
  }

  /** A finished stream has nothing beyond its offset. */
  lemma FinalBounds(ss: seq<Stream>, pool: seq<Frame>, queue: seq<Frame>, h: History, id: nat)
    requires Fits(h, |ss|) && AllOk(ss, pool, queue, h) && id < |ss|
    requires ss[id].state == Recvd
    ensures forall f :: f in pool && f.id == id ==> f.offset <= ss[id].offset
  {
    hide Unread;
    assert StreamOk(ss[id], id, h.sent[id], pool, queue, h.covered[id], h.fins[id], h.taken[id]);
  }

  /** What is known about an open stream before a frame arrives. */
  lemma OpenBounds(ss: seq<Stream>, pool: seq<Frame>, queue: seq<Frame>, h: History, id: nat)
    requires Fits(h, |ss|) && AllOk(ss, pool, queue, h) && id < |ss| && !Final(ss[id].state)
    ensures ss[id].offset <= ss[id].highest <= |h.sent[id]|
    ensures ss[id].finalsz == 0 || ss[id].finalsz == |h.sent[id]|
    ensures ss[id].state == SizeKnown ==> HoldsFin(pool, id)
    ensures forall f :: f in pool && f.id == id ==> Slice(f, h.sent[id]) && f.End() <= ss[id].highest
  {
    hide Unread;
    assert StreamOk(ss[id], id, h.sent[id], pool, queue, h.covered[id], h.fins[id], h.taken[id]);
  }

  /** After an in-order delivery the other streams still have nothing to deliver. */
  lemma AheadSettled(ss: seq<Stream>, list: seq<Frame>, p: nat, f: Frame, s': Stream)
    requires SettledAll(ss, list) && p <= |list| && f.id < |ss|
    requires ss[f.id].offset < f.offset && s'.offset == ss[f.id].offset
    requires s'.state == if f.fin then SizeKnown else ss[f.id].state
    requires !Final(ss[f.id].state)
    ensures SettledAll(ss[f.id := s'], InsertAt(list, p, f))
  {
    hide SumLen, Count;
    InsertedAt(list, p, f);
  }

  /** Only what can be read of the queue matters. */
  lemma SameUnreadOk(ss: seq<Stream>, pool: seq<Frame>, queue: seq<Frame>, queue': seq<Frame>, h: History)
    requires Fits(h, |ss|) && AllOk(ss, pool, queue, h)
    requires forall id :: Unread(queue', id) == Unread(queue, id)
    ensures AllOk(ss, pool, queue', h)
  {
    hide Unread, StreamOk;
    forall i | 0 <= i < |ss|
      ensures StreamOk(ss[i], i, h.sent[i], pool, queue', h.covered[i], h.fins[i], h.taken[i])
    {
      OtherOk(ss[i], i, h.sent[i], pool, pool, queue, queue', h.covered[i], h.fins[i], h.taken[i]);
    }
  }

  lemma AdmitLists(ss: seq<Stream>, list: seq<Frame>, queue: seq<Frame>, f: Frame)
    requires f.id < |ss| && ListOk(ss, list) && QueueOk(ss, queue)
    ensures var ss' := ss[f.id := Admitted(ss[f.id], f, false)];
            ListOk(ss', list) && QueueOk(ss', queue)
  {
  }

  lemma ListSorted(ss: seq<Stream>, list: seq<Frame>)
    requires ListOk(ss, list)
    ensures Sorted(list)
  {
  }

  /** With no waiting frames of its own, a stream that moved has nothing to deliver. */
  lemma NoFragsSettled(ss: seq<Stream>, list: seq<Frame>, id: nat)
    requires id < |ss| && ListOk(ss, list) && !ss[id].state.ResetRecvd? && ss[id].frags == 0
    requires forall j :: 0 <= j < |ss| && j != id ==> Waiting(ss[j], j, list)
    ensures SettledAll(ss, list)
  {
    forall f | f in list ensures f.id != id {
      CountPositive(list, f);
    }
  }

  // ---------- reading ----------

  /** The history once the application has read `chunk` of a stream. */
  function Took(h: History, id: nat, chunk: seq<Byte>): History
    requires id < |h.taken|
  {
    h.(taken := h.taken[id := h.taken[id] + chunk])
  }

  lemma ReadOk(ss: seq<Stream>, pool: seq<Frame>, queue: seq<Frame>, queue': seq<Frame>, h: History,
               id: nat, chunk: seq<Byte>)
    requires Fits(h, |ss|) && AllOk(ss, pool, queue, h) && id < |ss|
    requires Unread(queue, id) == chunk + Unread(queue', id)
    requires forall j :: j != id ==> Unread(queue', j) == Unread(queue, j)
    ensures AllOk(ss, pool, queue', Took(h, id, chunk))
  {
    hide Unread;
    var h' := Took(h, id, chunk);
    forall i | 0 <= i < |ss|
      ensures StreamOk(ss[i], i, h'.sent[i], pool, queue', h'.covered[i], h'.fins[i], h'.taken[i])
    {
      if i == id {
        assert h.taken[i] + (chunk + Unread(queue', i)) == (h.taken[i] + chunk) + Unread(queue', i);
      } else {
        hide StreamOk;
        OtherOk(ss[i], i, h.sent[i], pool, pool, queue, queue', h.covered[i], h.fins[i], h.taken[i]);
      }
    }
  }

  /** Reading the first `n` unread bytes of the head of the queue. */
  lemma ReadPart(queue: seq<Frame>, n: nat)
    requires queue != [] && queue[0].kind == DataFrame && queue[0].offset + n <= |queue[0].data|
    ensures var f := queue[0];
            var queue' := [f.(offset := f.offset + n)] + queue[1..];
            && Unread(queue, f.id) == f.data[f.offset..f.offset + n] + Unread(queue', f.id)
            && (forall j :: j != f.id ==> Unread(queue', j) == Unread(queue, j))
            && SumLen(queue') == SumLen(queue)
  {
    var f := queue[0];
    var queue' := [f.(offset := f.offset + n)] + queue[1..];
    assert queue'[1..] == queue[1..];
    assert f.data[f.offset..] == f.data[f.offset..f.offset + n] + f.data[f.offset + n..];
  }

  /** Finishing the head of the queue. */
  lemma ReadWhole(queue: seq<Frame>)
    requires queue != [] && queue[0].offset <= |queue[0].data|
    ensures var f, queue' := queue[0], queue[1..];
            && (f.kind == DataFrame ==> Unread(queue, f.id) == f.data[f.offset..] + Unread(queue', f.id))
            && (forall j :: f.kind != DataFrame || j != f.id ==> Unread(queue', j) == Unread(queue, j))
            && SumLen(queue) == SumLen(queue') + |f.data|
  {
    assert forall j :: [] + Unread(queue[1..], j) == Unread(queue[1..], j);
  }

  /** "Data Recvd" and "Data Read" look the same to reassembly. */
  lemma DataReadOk(ss: seq<Stream>, id: nat, list: seq<Frame>, queue: seq<Frame>, h: History)
    requires Fits(h, |ss|) && AllOk(ss, list, queue, h) && ListOk(ss, list) && QueueOk(ss, queue) && SettledAll(ss, list)
    requires id < |ss| && Final(ss[id].state) && !ss[id].state.ResetRecvd?
    ensures var ss' := ss[id := ss[id].(state := DataRead)];
            AllOk(ss', list, queue, h) && ListOk(ss', list) && QueueOk(ss', queue) && SettledAll(ss', list)
    ensures forall f :: f in list ==> f.id != id
  {
    hide Unread;
    var ss' := ss[id := ss[id].(state := DataRead)];
    assert StreamOk(ss[id], id, h.sent[id], list, queue, h.covered[id], h.fins[id], h.taken[id]);
    assert Waiting(ss[id], id, list);
    forall i | 0 <= i < |ss|
      ensures StreamOk(ss'[i], i, h.sent[i], list, queue, h.covered[i], h.fins[i], h.taken[i])
      ensures Waiting(ss'[i], i, list)
    {
    }
  }

  lemma ResetAllOk(ss: seq<Stream>, id: nat, s': Stream, list: seq<Frame>, queue: seq<Frame>, h: History)
    requires Fits(h, |ss|) && AllOk(ss, list, queue, h) && id < |ss| && s'.state.ResetRecvd?
    ensures AllOk(ss[id := s'], Without(list, id), Without(queue, id), h)
  {
    hide Unread, SumLen, Count, Without;
    var ss', list', queue' := ss[id := s'], Without(list, id), Without(queue, id);
    WithoutMeaning(list, id);
    WithoutMeaning(queue, id);
    forall i | 0 <= i < |ss|
      ensures StreamOk(ss'[i], i, h.sent[i], list', queue', h.covered[i], h.fins[i], h.taken[i])
    {
      if i != id {
        hide StreamOk;
        OtherOk(ss[i], i, h.sent[i], list, list', queue, queue', h.covered[i], h.fins[i], h.taken[i]);
      }
    }
  }

  /** A reset drops the stream from both lists and leaves the others alone. */
  lemma ResetOk(ss: seq<Stream>, id: nat, s': Stream, list: seq<Frame>, queue: seq<Frame>, h: History)
    requires Fits(h, |ss|) && AllOk(ss, list, queue, h) && ListOk(ss, list) && QueueOk(ss, queue) && SettledAll(ss, list)
    requires id < |ss| && s'.state.ResetRecvd?
    ensures var ss', list', queue' := ss[id := s'], Without(list, id), Without(queue, id);
            AllOk(ss', list', queue', h) && ListOk(ss', list') && QueueOk(ss', queue') && SettledAll(ss', list')
  {
    hide Unread, SumLen, Count, Without, AllOk;
    ResetAllOk(ss, id, s', list, queue, h);
    SortedWithout(list, id);
    WithoutMeaning(list, id);
    WithoutMeaning(queue, id);
    var ss' := ss[id := s'];
    forall i | 0 <= i < |ss| ensures Waiting(ss'[i], i, Without(list, id)) {
      assert Waiting(ss[i], i, list);
    }
  }

  lemma {:induction false} WithoutNone(fs: seq<Frame>, id: nat)
    requires forall f :: f in fs ==> f.id != id
    ensures Without(fs, id) == fs
  {
    if fs != [] {
      WithoutNone(fs[1..], id);
    }
  }

  lemma TookTwice(h: History, id: nat, a: seq<Byte>, b: seq<Byte>)
    requires id < |h.taken|
    ensures Took(Took(h, id, a), id, b) == Took(h, id, a + b)
  {
    assert h.taken[id] + a + b == h.taken[id] + (a + b);
  }

  lemma TookNothing(h: History, id: nat)
    requires id < |h.taken|
    ensures Took(h, id, []) == h
  {
    assert h.taken[id] + [] == h.taken[id];
    assert h.taken[id := h.taken[id]] == h.taken;
  }
}
