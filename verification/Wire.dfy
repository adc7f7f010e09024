/**
 The integer encodings of modules/net/quic/common.c: fixed-length big-endian integers,
 QUIC variable-length integers, and the reconstruction of a truncated packet number.

 As functions, a read returns what is left of the bytes. Class Buffer holds the code's own form,
 which writes in place and moves a pointer.
 */
module Wire {

  type Byte = x: int | 0 <= x < 256

  datatype Option<+T> = None | Some(value: T)

  const TWO_62: int := 0x4000_0000_0000_0000
  const TWO_64: int := 0x1_0000_0000_0000_0000

  const VARINT_1BYTE_MAX := 0x3f
  const VARINT_2BYTE_MAX := 0x3fff
  const VARINT_4BYTE_MAX := 0x3fff_ffff

  // ---------- fixed-length integers ----------

  function Pow256(k: nat): (r: int)
    ensures r > 0
  {
    if k == 0 then 1 else 256 * Pow256(k - 1)
  }

  /** The low `k` bytes of `n` in network byte order, as put_unaligned_be* store them. */
  function PutInt(n: nat, k: nat): (s: seq<Byte>)
    ensures |s| == k
  {
    if k == 0 then [] else PutInt(n / 256, k - 1) + [n % 256]
  }

  /** The last byte written first. */
  lemma LastByte(n: nat, k: nat, done: seq<Byte>)
    requires k > 0
    ensures PutInt(n, k) + done == PutInt(n / 256, k - 1) + ([n % 256] + done)
  {
  }

  /** The value of a byte string read in network byte order. */
  function Value(s: seq<Byte>): (v: nat)
  {
    if s == [] then 0 else Value(s[..|s| - 1]) * 256 + s[|s| - 1]
  }

  /** quic_get_int: only the lengths 1, 2, 3, 4 and 8 are supported. */
  function GetInt(s: seq<Byte>, k: nat): (r: Option<(nat, seq<Byte>)>)
    ensures r.Some? <==> k <= |s| && k in {1, 2, 3, 4, 8}
    ensures r.Some? ==> s == s[..k] + r.value.1 && r.value.0 < Pow256(k)
  {
    if |s| < k || k !in {1, 2, 3, 4, 8} then None
    else
      ValueBound(s[..k]);
      Some((Value(s[..k]), s[k..]))
  }

  lemma {:induction false} ValueBound(s: seq<Byte>)
    ensures Value(s) < Pow256(|s|)
  {
    if s != [] {
      ValueBound(s[..|s| - 1]);
    }
  }

  /** Storing keeps the value modulo the width of the field. */
  lemma {:induction false} ValueOfPutInt(n: nat, k: nat)
    ensures Value(PutInt(n, k)) == n % Pow256(k)
  {
    if k == 0 {
    } else {
      ValueOfPutInt(n / 256, k - 1);
      var s := PutInt(n, k);
      assert s[..k - 1] == PutInt(n / 256, k - 1);
      SplitMod(n, Pow256(k - 1));
    }
  }

  lemma SplitMod(n: nat, p: nat)
    requires p > 0
    ensures n % (256 * p) == (n / 256) % p * 256 + n % 256
  {
    var q := n / 256;
    var r := q % p * 256 + n % 256;
    assert n == 256 * p * (q / p) + r by {
      assert q == p * (q / p) + q % p;
      assert 256 * p * (q / p) == 256 * (p * (q / p));
    }
    assert 0 <= r < 256 * p;
    ModUnique(n, 256 * p, q / p, r);
  }

  /** A non-zero multiple of a positive number is at least that far from zero. */
  lemma MulSpread(d: int, k: int)
    requires d > 0
    ensures k >= 1 ==> d * k >= d
    ensures k <= -1 ==> d * k <= -d
    ensures k >= 2 ==> d * k >= 2 * d
    ensures k <= -2 ==> d * k <= -2 * d
  {
    if k >= 1 {
      assert d * k == d * (k - 1) + d && d * (k - 1) >= 0;
    } else if k <= -1 {
      assert d * k == d * (k + 1) - d && d * (k + 1) <= 0;
    }
  }

  /** A quotient and an in-range remainder are the only ones. */
  lemma ModUnique(n: int, d: int, q: int, r: int)
    requires d > 0 && 0 <= r < d
    requires n == d * q + r
    ensures n % d == r && n / d == q
  {
    var k := q - n / d;
    assert d * k == n % d - r by {
      assert d * q == d * (n / d) + d * k;
    }
    MulSpread(d, k);
  }

  /** Writing an integer and reading the same width back gives its low bytes and the rest of the buffer. */
  lemma FixedRoundTrip(n: nat, k: nat, tail: seq<Byte>)
    requires k in {1, 2, 3, 4, 8}
    ensures GetInt(PutInt(n, k) + tail, k) == Some((n % Pow256(k), tail))
  {
    ValueOfPutInt(n, k);
    assert (PutInt(n, k) + tail)[..k] == PutInt(n, k);
    assert (PutInt(n, k) + tail)[k..] == tail;
  }

  // ---------- variable-length integers ----------

  function VarLen(n: nat): (k: nat)
    ensures k in {1, 2, 4, 8}
    ensures n < TWO_62 ==> n < Pow256(k) / 4
  {
    PowersOf256();
    if n <= VARINT_1BYTE_MAX then 1
    else if n <= VARINT_2BYTE_MAX then 2
    else if n <= VARINT_4BYTE_MAX then 4
    else 8
  }

  /** No supported length that can hold the number beside the length bits is shorter. */
  lemma VarShortest(n: nat, k: nat)
    requires n < TWO_62 && k in {1, 2, 4, 8} && n < Pow256(k) / 4
    ensures VarLen(n) <= k
  {
    PowersOf256();
  }

  /** `b | prefix` for a prefix that has both of the top two bits, or on a byte that has neither. */
  function OrPrefix(b: Byte, prefix: Byte): (r: Byte)
    requires prefix in {0x40, 0x80, 0xc0}
  {
    prefix + b % 64
  }

  /** quic_put_var on an unsigned 64-bit number. */
  function PutVar(n: nat): (s: seq<Byte>)
    requires n < TWO_64
  {
    if n <= VARINT_1BYTE_MAX then [n]
    else if n <= VARINT_2BYTE_MAX then
      var s := PutInt(n, 2);
      s[0 := OrPrefix(s[0], 0x40)]
    else if n <= VARINT_4BYTE_MAX then
      var s := PutInt(n, 4);
      s[0 := OrPrefix(s[0], 0x80)]
    else
      var s := PutInt(n, 8);
      s[0 := OrPrefix(s[0], 0xc0)]
  }

  /** QUIC_VARINT_LENGTH: the top two bits of the first byte give the length. */
  function VarLengthBits(b: Byte): (k: nat)
    ensures k in {1, 2, 4, 8}
  {
    if b < 0x40 then 1 else if b < 0x80 then 2 else if b < 0xc0 then 4 else 8
  }

  /** quic_get_var: the value with the length bits masked off, and the rest of the buffer. */
  function GetVar(s: seq<Byte>): (r: Option<(nat, seq<Byte>)>)
    ensures r.Some? ==> |r.value.1| < |s|
  {
    if s == [] then None
    else
      var k := VarLengthBits(s[0]);
      if |s| < k then None
      else Some((Value(s[..k]) % (Pow256(k) / 4), s[k..]))
  }

  /** The first byte is the most significant one. */
  lemma {:induction false} ValueFirst(s: seq<Byte>)
    requires s != []
    ensures Value(s) == s[0] * Pow256(|s| - 1) + Value(s[1..])
  {
    if |s| == 1 {
      assert Value(s[..0]) == 0 && Value(s[1..]) == 0;
    } else {
      var init := s[..|s| - 1];
      ValueFirst(init);
      assert s[1..][..|s| - 2] == init[1..];
      assert Value(s[1..]) == Value(init[1..]) * 256 + s[|s| - 1];
      var p := Pow256(|s| - 2);
      assert s[0] * (256 * p) == s[0] * p * 256;
    }
  }

  lemma TopByteMod(b: Byte, p: nat, rest: nat)
    requires rest < p
    ensures (b * p + rest) % (64 * p) == b % 64 * p + rest
  {
    SplitTop(b, b / 64, b % 64, p, rest);
  }

  lemma SplitTop(b: int, q: int, r: int, p: nat, rest: nat)
    requires b == 64 * q + r && 0 <= r < 64 && rest < p
    ensures (b * p + rest) % (64 * p) == r * p + rest
  {
    assert b * p == (64 * p) * q + r * p;
    assert r * p <= 63 * p;
    ModUnique(b * p + rest, 64 * p, q, r * p + rest);
  }

  /** Replacing the top two bits does not change the value below them. */
  lemma PrefixMasked(s: seq<Byte>, b: Byte)
    requires s != [] && b % 64 == s[0] % 64
    ensures Value(s[0 := b]) % (Pow256(|s|) / 4) == Value(s) % (Pow256(|s|) / 4)
  {
    var p := Pow256(|s| - 1);
    var t := s[0 := b];
    ValueFirst(s);
    ValueFirst(t);
    ValueBound(s[1..]);
    assert t[1..] == s[1..];
    assert Pow256(|s|) / 4 == 64 * p;
    TopByteMod(s[0], p, Value(s[1..]));
    TopByteMod(b, p, Value(s[1..]));
  }

  lemma ModOfMod(n: nat, p: nat)
    requires p > 0
    ensures n % (4 * p) % p == n % p
  {
    var q, r := n / (4 * p), n % (4 * p);
    assert n == p * (4 * q + r / p) + r % p by {
      assert n == 4 * p * q + r;
      assert r == p * (r / p) + r % p;
      assert p * (4 * q + r / p) == 4 * p * q + p * (r / p);
    }
    ModUnique(n, p, 4 * q + r / p, r % p);
  }

  /** The multi-byte forms: k bytes with the length bits or-ed into the first. */
  lemma PrefixedRoundTrip(n: nat, k: nat, prefix: Byte, tail: seq<Byte>)
    requires (k, prefix) in {(2, 0x40), (4, 0x80), (8, 0xc0)}
    ensures var raw := PutInt(n, k);
            var s := raw[0 := OrPrefix(raw[0], prefix)];
            |s| == k && GetVar(s + tail) == Some((n % (Pow256(k) / 4), tail))
  {
    hide GetVar, PutInt, Value, Pow256;
    var raw := PutInt(n, k);
    var s := raw[0 := OrPrefix(raw[0], prefix)];
    ValueOfPutInt(n, k);
    PrefixMasked(raw, s[0]);
    QuarterPow(k);
    ModOfMod(n, Pow256(k) / 4);
    assert VarLengthBits(s[0]) == k;
    GetVarOf(s, tail);
  }

  lemma QuarterPow(k: nat)
    requires k > 0
    ensures Pow256(k) == 4 * (Pow256(k) / 4) && Pow256(k) / 4 > 0
  {
  }

  lemma GetVarOf(s: seq<Byte>, tail: seq<Byte>)
    requires s != [] && |s| == VarLengthBits(s[0])
    ensures GetVar(s + tail) == Some((Value(s) % (Pow256(|s|) / 4), tail))
  {
    hide Value, Pow256;
    assert (s + tail)[..|s|] == s && (s + tail)[|s|..] == tail;
  }

  lemma OneByteRoundTrip(n: nat, tail: seq<Byte>)
    requires n <= VARINT_1BYTE_MAX
    ensures GetVar([n] + tail) == Some((n, tail))
  {
    var s := [n] + tail;
    assert s[..1] == [n] && s[1..] == tail;
    assert Value([n]) == Value([n][..0]) * 256 + n;
    assert Pow256(1) == 256;
  }

  lemma PowersOf256()
    ensures Pow256(1) == 0x100 && Pow256(2) == 0x1_0000 && Pow256(3) == 0x100_0000
    ensures Pow256(4) == 0x1_0000_0000 && Pow256(8) == TWO_64
  {
    assert Pow256(1) == 0x100 && Pow256(2) == 0x1_0000 && Pow256(3) == 0x100_0000 && Pow256(4) == 0x1_0000_0000;
    assert Pow256(5) == 0x100_0000_0000 && Pow256(6) == 0x1_0000_0000_0000 && Pow256(7) == 0x100_0000_0000_0000;
  }

  /**
   Decoding what was encoded: every 64-bit number comes back modulo 2^62, so exactly the
   numbers a QUIC varint can hold come back unchanged. The encoding takes VarLen(n) bytes.
   */
  lemma VarRoundTrip(n: nat, tail: seq<Byte>)
    requires n < TWO_64
    ensures |PutVar(n)| == VarLen(n)
    ensures GetVar(PutVar(n) + tail) == Some((n % TWO_62, tail))
    ensures GetVar(PutVar(n) + tail) == Some((n, tail)) <==> n < TWO_62
  {
    ModBelow(n, TWO_62);
    if n <= VARINT_1BYTE_MAX {
      OneByteRoundTrip(n, tail);
    } else {
      var k := VarLen(n);
      PrefixedRoundTrip(n, k, if k == 2 then 0x40 else if k == 4 then 0x80 else 0xc0, tail);
      assert GetVar(PutVar(n) + tail) == Some((n % (Pow256(k) / 4), tail));
      PowersOf256();
      ModBelow(n, Pow256(k) / 4);
      assert k != 8 ==> n < Pow256(k) / 4;
      assert k == 8 ==> Pow256(k) / 4 == TWO_62;
    }
  }

  lemma ModBelow(n: nat, m: nat)
    requires m > 0
    ensures n % m == n <==> n < m
  {
  }

  // ---------- the code's own form ----------

  /** A byte array with the pointer that the helpers of common.c advance; what lies beyond the
      pointer is what `*plen` counts. */
  class Buffer {
    const data: array<Byte>
    var pos: nat

    ghost predicate Valid()
      reads this
    {
      pos <= data.Length
    }

    ghost function Written(): (s: seq<Byte>)
      requires Valid()
      reads this, data
      ensures |s| == pos
    {
      data[..pos]
    }

    ghost function Rest(): seq<Byte>
      requires Valid()
      reads this, data
    {
      data[pos..]
    }

    constructor (size: nat)
      ensures Valid() && Written() == [] && data.Length == size && fresh(data)
    {
      data := new Byte[size](i => 0);
      pos := 0;
    }

    /** put_unaligned_be16, be32 and be64: the last byte first. */
    method Store(n: nat, k: nat)
      requires pos + k <= data.Length
      modifies data
      ensures data[pos..pos + k] == PutInt(n, k)
      ensures data[..pos] == old(data[..pos]) && data[pos + k..] == old(data[pos + k..])
    {
      hide PutInt;
      var i, m := k, n;
      ghost var done := [];
      while i > 0
        invariant 0 <= i <= k && data[pos + i..pos + k] == done
        invariant PutInt(m, i) + done == PutInt(n, k)
        invariant data[..pos] == old(data[..pos]) && data[pos + k..] == old(data[pos + k..])
      {
        LastByte(m, i, done);
        i := i - 1;
        data[pos + i] := m % 256;
        done := [m % 256] + done;
        m := m / 256;
      }
      assert PutInt(m, 0) + done == done;
    }

    /** quic_put_int: other lengths write nothing and return no pointer. */
    method AppendInt(n: nat, k: nat) returns (ok: bool)
      requires Valid() && pos + k <= data.Length
      modifies this`pos, data
      ensures Valid() && ok == (k in {1, 2, 4, 8})
      ensures Written() == if ok then old(Written()) + PutInt(n, k) else old(Written())
    {
      if k !in {1, 2, 4, 8} {
        return false;
      }
      Store(n, k);
      pos := pos + k;
      return true;
    }

    /** quic_put_var */
    method AppendVar(n: nat)
      requires Valid() && n < TWO_64 && pos + |PutVar(n)| <= data.Length
      modifies this`pos, data
      ensures Valid() && Written() == old(Written()) + PutVar(n)
    {
      if n <= VARINT_1BYTE_MAX {
        data[pos] := n;
        pos := pos + 1;
        return;
      }
      hide PutInt;
      if n <= VARINT_2BYTE_MAX {
        StorePrefixed(n, 2, 0x40);
      } else if n <= VARINT_4BYTE_MAX {
        StorePrefixed(n, 4, 0x80);
      } else {
        StorePrefixed(n, 8, 0xc0);
      }
    }

    /** The low bytes of `n` with the length bits or-ed into the first. */
    method StorePrefixed(n: nat, k: nat, prefix: Byte)
      requires Valid() && 0 < k && pos + k <= data.Length && prefix in {0x40, 0x80, 0xc0}
      modifies this`pos, data
      ensures Valid()
      ensures var raw := PutInt(n, k);
              Written() == old(Written()) + raw[0 := OrPrefix(raw[0], prefix)]
    {
      hide PutInt, OrPrefix;
      ghost var before, raw := Written(), PutInt(n, k);
      Store(n, k);
      assert data[pos] == data[pos..pos + k][0] == raw[0];
      data[pos] := OrPrefix(data[pos], prefix);
      assert data[pos..pos + k] == raw[0 := OrPrefix(raw[0], prefix)] && data[..pos] == before;
      assert data[..pos + k] == data[..pos] + data[pos..pos + k];
      pos := pos + k;
    }

    /** get_unaligned_be16, be24, be32 and be64 */
    method Load(k: nat) returns (v: nat)
      requires pos + k <= data.Length
      ensures v == Value(data[pos..pos + k])
    {
      v := 0;
      for i := 0 to k
        invariant v == Value(data[pos..pos + i])
      {
        assert data[pos..pos + i + 1][..i] == data[pos..pos + i];
        v := v * 256 + data[pos + i];
      }
    }

    /** quic_get_int: the number and the pointer behind it, or nothing and the pointer where it was. */
    method TakeInt(k: nat) returns (r: Option<nat>)
      requires Valid()
      modifies this`pos
      ensures Valid()
      ensures match GetInt(old(Rest()), k)
              case None => r == None && pos == old(pos)
              case Some((v, rest)) => r == Some(v) && Rest() == rest
    {
      if data.Length - pos < k || k !in {1, 2, 3, 4, 8} {
        return None;
      }
      var v := Load(k);
      assert data[pos..pos + k] == Rest()[..k];
      pos := pos + k;
      return Some(v);
    }

    /** quic_get_var */
    method TakeVar() returns (r: Option<nat>)
      requires Valid()
      modifies this`pos
      ensures Valid()
      ensures match GetVar(old(Rest()))
              case None => r == None && pos == old(pos)
              case Some((v, rest)) => r == Some(v) && Rest() == rest
    {
      if pos == data.Length {
        return None;
      }
      var k := VarLengthBits(data[pos]);
      if data.Length - pos < k {
        return None;
      }
      var v := Load(k);
      assert data[pos..pos + k] == Rest()[..k];
      pos := pos + k;
      return Some(v % (Pow256(k) / 4));
    }
  }

  // ---------- packet numbers ----------

  const PN_BITS_LIMIT := TWO_62

  /**
   quic_get_num on a non-negative expected number: `expected & ~mask` drops the low bytes
   and `| pkt_num` puts the received ones in their place.
   */
  function GetNum(maxNum: int, pktNum: nat, n: nat): (r: int)
    requires maxNum >= -1
    requires pktNum < Pow256(n)
  {
    var expected := maxNum + 1;
    var win := Pow256(n);
    var hwin := win / 2;
    var cand := expected - expected % win + pktNum;
    if cand <= expected - hwin && cand < PN_BITS_LIMIT - win then cand + win
    else if cand > expected + hwin && cand >= win then cand - win
    else cand
  }

  predicate InNumWindow(maxNum: int, pn: int, n: nat)
  {
    maxNum + 1 - Pow256(n) / 2 < pn <= maxNum + 1 + Pow256(n) / 2
  }

  /** The corner where GetNum skips its correction because it would leave [0, 2^62). */
  predicate AtNumEdge(maxNum: int, pn: int, n: nat)
  {
    var win := Pow256(n);
    && (maxNum + 1) / win == pn / win
    && (pn <= maxNum + 1 - win / 2 ==> PN_BITS_LIMIT - win <= pn)
    && (pn > maxNum + 1 + win / 2 ==> pn < win)
  }

  /**
   Appendix A.3 of RFC 9000. A number is recovered from its low n bytes exactly when it lies in
   the window around the next expected one, or sits in that number's own block at the very
   bottom or top of the packet number range.
   */
  lemma NumRoundTrip(maxNum: int, pn: nat, n: nat)
    requires -1 <= maxNum && 1 <= n <= 4 && pn < PN_BITS_LIMIT
    ensures GetNum(maxNum, pn % Pow256(n), n) == pn <==> InNumWindow(maxNum, pn, n) || AtNumEdge(maxNum, pn, n)
  {
    PowersOf256();
    SameResidue(maxNum + 1, pn, Pow256(n));
  }

  /** The candidate built from another number's residue differs from it by whole windows. */
  lemma SameResidue(expected: nat, pn: nat, win: int)
    requires win > 0
    ensures var d := expected - expected % win + pn % win - pn;
            && (d <= -2 * win || d == -win || d == 0 || d == win || d >= 2 * win)
            && (d == 0 <==> expected / win == pn / win)
  {
    var k := expected / win - pn / win;
    assert expected - expected % win + pn % win - pn == win * k by {
      assert expected == win * (expected / win) + expected % win;
      assert pn == win * (pn / win) + pn % win;
    }
    MulSpread(win, k);
  }

  /**
   The sender writes the low four bytes of its packet number; the receiver, whose largest
   number seen is at most 2^31 away, reads them back and recovers the number.
   */
  lemma SentNumberRecovered(maxNum: int, pn: nat, tail: seq<Byte>)
    requires -1 <= maxNum && pn < PN_BITS_LIMIT
    requires InNumWindow(maxNum, pn, 4)
    ensures var got := GetInt(PutInt(pn, 4) + tail, 4);
            got.Some? && got.value.1 == tail && GetNum(maxNum, got.value.0, 4) == pn
  {
    FixedRoundTrip(pn, 4, tail);
    NumRoundTrip(maxNum, pn, 4);
  }
}
