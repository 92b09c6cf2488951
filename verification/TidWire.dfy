/**
 * The packet format log entries travel in: a 16-byte header (size, flags, type, key
 * size, TID), then for an addition three 32-bit words (value size, hash, timestamp),
 * the key, the value and padding to a multiple of four, or for a removal the removed
 * TID. Integers are little-endian.
 */
module TidWire {
  import opened TidLog
  import opened TidReplay

  const HDR := 16          // sizeof(LsShmPktHdr)
  const ADD := 28          // offset of m_data
  const DEL := 24          // header and LsShmTidDel

  // ----- integers -----

  function Pow256(n: nat): nat {
    if n == 0 then 1 else 256 * Pow256(n - 1)
  }

  function Le(n: nat, v: nat): (b: Str)
    ensures |b| == n
  {
    if n == 0 then [] else [(v % 256) as byte] + Le(n - 1, v / 256)
  }

  function UnLe(b: Str): nat {
    if b == [] then 0 else b[0] + 256 * UnLe(b[1..])
  }

  lemma {:induction false} LeRoundTrip(n: nat, v: nat)
    requires v < Pow256(n)
    ensures UnLe(Le(n, v)) == v
  {
    if n > 0 {
      LeRoundTrip(n - 1, v / 256);
      assert Le(n, v)[1..] == Le(n - 1, v / 256);
    }
  }

  // ----- packets -----

  function Round4(n: nat): (r: nat)
    ensures n <= r < n + 4 && r % 4 == 0
  {
    (n + 3) / 4 * 4
  }

  /** `tidAddPktSize` and `tidDelPktSize`. */
  function Size(r: Rec): nat {
    match r
    case Add(_, k, v) => Round4(ADD + |k| + |v|)
    case Rem(_, _) => DEL
  }

  /** The entry fits the fields of a packet. */
  predicate Fits(r: Rec) {
    r.tid < Pow256(8) && Size(r) < Pow256(4) &&
    match r
    case Add(_, k, v) => |k| < Pow256(2)
    case Rem(_, d) => d < Pow256(8)
  }

  function Header(size: nat, kind: byte, keySize: nat, tid: nat): (b: Str)
    ensures |b| == HDR
  {
    Le(4, size) + [0, kind] + Le(2, keySize) + Le(8, tid)
  }

  function AddPrefix(r: Rec, hash: nat): (b: Str)
    requires r.Add?
    ensures |b| == ADD
  {
    Header(Size(r), 0, |r.key|, r.tid) + Le(4, |r.val|) + (Le(4, hash) + Le(4, 0))
  }

  /** `iter2tidPack` and `del2tidPack`; the padding is what the buffer held before. */
  function Encode(r: Rec, hash: nat, pad: Str): (b: Str)
    requires r.Add? ==> |pad| == Size(r) - (ADD + |r.key| + |r.val|)
    ensures |b| == Size(r)
  {
    match r
    case Add(t, k, v) => AddPrefix(r, hash) + k + v + pad
    case Rem(t, d) => Header(DEL, 1, 0, t) + Le(8, d)
  }

  function SizeField(b: Str): nat requires |b| >= HDR { UnLe(b[0..4]) }
  function TypeField(b: Str): byte requires |b| >= HDR { b[5] }
  function KeyField(b: Str): nat requires |b| >= HDR { UnLe(b[6..8]) }
  function TidField(b: Str): nat requires |b| >= HDR { UnLe(b[8..16]) }
  function ValField(b: Str): nat requires |b| >= DEL { UnLe(b[16..20]) }
  function GoneField(b: Str): nat requires |b| >= DEL { UnLe(b[16..24]) }

  /** The size field agrees with the rest of the packet. */
  predicate Shaped(b: Str)
    requires |b| >= HDR
  {
    |b| >= DEL &&
    if TypeField(b) == 0 then
      SizeField(b) == Round4(ADD + KeyField(b) + ValField(b)) && SizeField(b) <= |b|
    else SizeField(b) == DEL
  }

  function Decode(b: Str): (p: Pkt)
    requires |b| >= HDR && Shaped(b)
    ensures Size(p.rec) == SizeField(b)
  {
    if TypeField(b) == 0 then
      var v := ADD + KeyField(b);
      Pkt(Add(TidField(b), b[ADD..v], b[v..v + ValField(b)]), b[ADD..])
    else Pkt(Rem(TidField(b), GoneField(b)), [])
  }

  lemma HeaderFields(b: Str, size: nat, kind: byte, keySize: nat, tid: nat)
    requires |b| >= HDR && b[..HDR] == Header(size, kind, keySize, tid)
    requires size < Pow256(4) && keySize < Pow256(2) && tid < Pow256(8)
    ensures SizeField(b) == size && TypeField(b) == kind && KeyField(b) == keySize && TidField(b) == tid
  {
    LeRoundTrip(4, size);
    LeRoundTrip(2, keySize);
    LeRoundTrip(8, tid);
    var h := b[..HDR];
    assert b[0..4] == h[0..4] == Le(4, size);
    assert b[5] == h[5] == kind;
    assert b[6..8] == h[6..8] == Le(2, keySize);
    assert b[8..16] == h[8..16] == Le(8, tid);
  }

  lemma AddFields(r: Rec, hash: nat, b: Str)
    requires Fits(r) && r.Add?
    requires |b| >= ADD && b[..ADD] == AddPrefix(r, hash)
    ensures SizeField(b) == Size(r) && TypeField(b) == 0 && KeyField(b) == |r.key|
    ensures TidField(b) == r.tid && ValField(b) == |r.val|
  {
    var e := b[..ADD];
    assert b[..HDR] == e[..HDR] == Header(Size(r), 0, |r.key|, r.tid);
    HeaderFields(b, Size(r), 0, |r.key|, r.tid);
    LeRoundTrip(4, |r.val|);
    assert b[16..20] == e[16..20] == Le(4, |r.val|);
  }

  /** A packed entry at the start of a buffer is read back as it was. */
  lemma DecodeAdd(r: Rec, hash: nat, pad: Str, b: Str)
    requires Fits(r) && r.Add? && |pad| == Size(r) - (ADD + |r.key| + |r.val|)
    requires |b| >= Size(r) && b[..Size(r)] == Encode(r, hash, pad)
    ensures Shaped(b) && SizeField(b) == Size(r) && Decode(b).rec == r
  {
    var e := b[..Size(r)];
    var v := ADD + |r.key|;
    assert b[..ADD] == e[..ADD] == AddPrefix(r, hash);
    AddFields(r, hash, b);
    assert b[ADD..v] == e[ADD..v] == r.key;
    assert b[v..v + |r.val|] == e[v..v + |r.val|] == r.val;
  }

  lemma DecodeRem(r: Rec, b: Str)
    requires Fits(r) && r.Rem?
    requires |b| >= Size(r) && b[..Size(r)] == Encode(r, 0, [])
    ensures Shaped(b) && SizeField(b) == Size(r) && Decode(b).rec == r
  {
    var e := b[..Size(r)];
    assert b[..HDR] == e[..HDR] == Header(DEL, 1, 0, r.tid);
    HeaderFields(b, DEL, 1, 0, r.tid);
    LeRoundTrip(8, r.gone);
    assert b[16..24] == e[16..24] == Le(8, r.gone);
  }

  // ----- batches -----

  /** The first n bytes of b begin with a complete packet. */
  predicate Complete(b: Str, n: nat)
    requires n <= |b|
  {
    n > HDR && SizeField(b) <= n
  }

  /** Every complete packet in the first n bytes has the size its fields say. */
  predicate Framed(b: Str, n: nat)
    requires n <= |b|
    decreases n
  {
    Complete(b, n) ==> Shaped(b) && Framed(b[SizeField(b)..], n - SizeField(b))
  }

  /** The packets in the first n bytes of b, up to an incomplete one. */
  function Parse(b: Str, n: nat): seq<Pkt>
    requires n <= |b| && Framed(b, n)
    decreases n
  {
    if Complete(b, n) then [Decode(b)] + Parse(b[SizeField(b)..], n - SizeField(b)) else []
  }

  function Recs(pkts: seq<Pkt>): (rs: seq<Rec>)
    ensures |rs| == |pkts| && forall i :: 0 <= i < |pkts| ==> rs[i] == pkts[i].rec
  {
    if pkts == [] then [] else [pkts[0].rec] + Recs(pkts[1..])
  }

  function Total(rs: seq<Rec>): nat {
    if rs == [] then 0 else Size(rs[0]) + Total(rs[1..])
  }
}
