/**
 * Shipping the log of a slice in bounded buffers, and replaying a received buffer.
 */
module TidShipping {
  import opened TidLog
  import opened TidReplay
  import opened TidWire

  const BUFFER := 64000        // of bcastNewTidData
  const TIDSIZE := 8           // the master's last TID, in front of every batch

  /** `isExpired`: the item starts with its 64-bit signed expiry time; 0 means never. */
  predicate Expired(val: Str, now: int) {
    |val| >= 8 &&
    var raw := UnLe(val[..8]);
    var t := if raw < 0x8000_0000_0000_0000 then raw else raw - 0x1_0000_0000_0000_0000;
    t != 0 && t <= now
  }

  ghost predicate KeyFits(s: Store, k: Str) {
    k in s.items ==> |k| < 0x1_0000 && Round4(ADD + |k| + |s.items[k].val|) < 0x8000_0000
  }

  /** Every entry fits a packet, with TIDs to spare for the removal of every item. */
  ghost predicate Sized(s: Store) {
    s.last + |s.items| < FlushAll && forall k {:trigger KeyFits(s, k)} :: KeyFits(s, k)
  }

  /** The entry at t is the same in both stores. */
  ghost predicate SameAt(s: Store, s': Store, t: nat) {
    && (t in s.log <==> t in s'.log)
    && (t in s.log ==> EntryOk(s, t) && EntryOk(s', t) && RecAt(s, t) == RecAt(s', t))
  }

  ghost predicate SameUpTo(s: Store, s': Store, b: nat) {
    forall t: nat {:trigger SameAt(s, s', t)} :: t <= b ==> SameAt(s, s', t)
  }

  lemma {:induction false} EntriesSame(s: Store, s': Store, a: nat, b: nat)
    requires Consistent(s) && Consistent(s') && SameUpTo(s, s', b)
    ensures Entries(s, a, b) == Entries(s', a, b)
  {
    if a < b {
      assert SameAt(s, s', b);
      EntriesSame(s, s', a, b - 1);
    }
  }

  /** The keys erased on the way were all expired items of the store. */
  ghost predicate Lapsed(s: Store, gone: seq<Str>, now: int) {
    forall i :: 0 <= i < |gone| ==> gone[i] in s.items && Expired(s.items[gone[i]].val, now)
  }

  /** The first entry above p does not fit in `room` bytes. */
  ghost predicate TooBig(s: Store, p: nat, t: nat, room: int) {
    p < t && t in s.log && Quiet(s, p, t - 1) && EntryOk(s, t) && Size(RecAt(s, t)) > room
  }

  /** The first entry above p is t; it has not expired and fits in `room` bytes. */
  ghost predicate Ready(s: Store, p: nat, t: nat, room: nat, now: int) {
    && p < t && t in s.log && Quiet(s, p, t - 1) && EntryOk(s, t) && Size(RecAt(s, t)) <= room
    && (s.log[t].Put? ==> !Expired(s.items[s.log[t].key].val, now))
  }

  lemma EraseSized(s: Store, k: Str)
    requires Sized(s) && k in s.items
    ensures Sized(Erase(s, k)) && |Erase(s, k).items| < |s.items|
  {
    var s' := Erase(s, k);
    forall x ensures KeyFits(s', x) { assert KeyFits(s, x); }
    assert s.items.Keys == s'.items.Keys + {k} && k !in s'.items.Keys;
    assert |s'.items.Keys| == |s'.items| && |s.items.Keys| == |s.items|;
  }

  /** Erasing an item leaves the entries below it as they were. */
  lemma EraseSame(s: Store, k: Str, from: nat)
    requires Consistent(s) && k in s.items && from < s.items[k].tid && Consistent(Erase(s, k))
    ensures SameUpTo(s, Erase(s, k), from)
  {
    var s' := Erase(s, k);
    assert ItemOk(s, k) && EntryOk(s, s.items[k].tid);
    forall t: nat | t <= from ensures SameAt(s, s', t) {
      assert EntryOk(s, t) && EntryOk(s', t);
    }
  }

  lemma EraseQuiet(s: Store, k: Str, from: nat)
    requires Consistent(s) && k in s.items && from < s.items[k].tid && Quiet(s, from, s.items[k].tid - 1)
    ensures Quiet(Erase(s, k), from, s.items[k].tid) && s.items[k].tid <= s.last
  {
    assert ItemOk(s, k) && EntryOk(s, s.items[k].tid);
  }

  lemma EraseAllSnoc(s: Store, gone: seq<Str>, k: Str)
    requires k in EraseAll(s, gone).items
    ensures EraseAll(s, gone + [k]) == Erase(EraseAll(s, gone), k)
  {
    assert (gone + [k])[..|gone|] == gone;
  }

  lemma SameTrans(a: Store, b: Store, c: Store, n: nat)
    requires SameUpTo(a, b, n) && SameUpTo(b, c, n)
    ensures SameUpTo(a, c, n)
  {
    forall t: nat | t <= n ensures SameAt(a, c, t) { assert SameAt(a, b, t) && SameAt(b, c, t); }
  }

  /** s is the store s0 with expired items erased, none of them written up to `from`. */
  ghost predicate Purged(s0: Store, s: Store, gone: seq<Str>, now: int, from: nat) {
    && s == EraseAll(s0, gone) && Lapsed(s0, gone, now) && SameUpTo(s0, s, from)
    && (forall k :: k in s.items ==> k in s0.items && s0.items[k] == s.items[k])
  }

  lemma PurgedNone(s: Store, now: int, from: nat)
    requires Consistent(s)
    ensures Purged(s, s, [], now, from)
  {
    forall u: nat | u <= from ensures SameAt(s, s, u) { assert EntryOk(s, u); }
  }

  lemma PurgeMore(s0: Store, s: Store, gone: seq<Str>, now: int, from: nat, k: Str)
    requires Purged(s0, s, gone, now, from) && Ordered(s) && Sized(s)
    requires k in s.items && from < s.items[k].tid && Expired(s.items[k].val, now)
    ensures Purged(s0, Erase(s, k), gone + [k], now, from)
    ensures Sequenced(Erase(s, k)) && Sized(Erase(s, k)) && |Erase(s, k).items| < |s.items|
  {
    EraseSequenced(s, k);
    EraseSized(s, k);
    EraseSame(s, k, from);
    EraseAllSnoc(s0, gone, k);
    SameTrans(s0, s, Erase(s, k), from);
  }

  lemma {:induction false} EraseAllAdds(s: Store, a: seq<Str>, b: seq<Str>)
    ensures EraseAll(s, a + b) == EraseAll(EraseAll(s, a), b)
    decreases |b|
  {
    if b == [] {
      assert a + b == a;
    } else {
      assert (a + b)[..|a + b| - 1] == a + b[..|b| - 1];
      EraseAllAdds(s, a, b[..|b| - 1]);
    }
  }

  lemma PurgedTrans(s0: Store, s1: Store, s2: Store, a: seq<Str>, b: seq<Str>, now: int, from: nat, pos: nat)
    requires Purged(s0, s1, a, now, from) && Purged(s1, s2, b, now, pos) && from <= pos
    ensures Purged(s0, s2, a + b, now, from)
  {
    EraseAllAdds(s0, a, b);
    forall t: nat | t <= from ensures SameAt(s1, s2, t) { }
    SameTrans(s0, s1, s2, from);
  }

  lemma RecFits(s: Store, t: nat)
    requires Consistent(s) && Sized(s) && t in s.log && Ordered(s) && EntryOk(s, t)
    ensures Fits(RecAt(s, t)) && 0 < Size(RecAt(s, t)) < 0x8000_0000
  {
    assert Pow256(2) == 0x1_0000;
    assert Pow256(4) == 0x1_0000_0000 by { assert Pow256(3) == 0x100_0000; }
    assert Pow256(8) == 0x1_0000_0000_0000_0000 by {
      assert Pow256(5) == 0x100_0000_0000 && Pow256(6) == 0x1_0000_0000_0000 && Pow256(7) == 0x100_0000_0000_0000;
    }
    match s.log[t]
    case Put(k) => assert KeyFits(s, k);
    case Del(d) => assert RemovalOk(s, t);
  }

  // ----- a buffer of packed entries -----

  ghost predicate Packed(b: Str, r: Rec) {
    |b| >= Size(r) >= DEL && Shaped(b) && SizeField(b) == Size(r) && Decode(b).rec == r
  }

  /** b starts with the packet of r: `Packed(b, r)`, which proofs look into only by naming it. */
  ghost predicate Leads(b: Str, r: Rec) {
    |b| >= Size(r) >= DEL && forall x {:trigger Packed(b, x)} :: x == r ==> Packed(b, x)
  }

  /** The bytes are the entries, packed one after the other. */
  ghost predicate Holds(b: Str, rs: seq<Rec>)
    decreases |rs|
  {
    if rs == [] then b == [] else Leads(b, rs[0]) && Holds(b[Size(rs[0])..], rs[1..])
  }

  lemma SliceSame(b: Str, c: Str, i: nat, j: nat)
    requires i <= j <= |b| <= |c| && c[..|b|] == b
    ensures c[i..j] == b[i..j]
  {
    assert b[i..j] == c[..|b|][i..j] == c[i..j];
  }

  /** A packet is read from its own bytes alone. */
  lemma DecodeLocal(b: Str, c: Str, r: Rec)
    requires Leads(b, r) && |b| <= |c| && c[..|b|] == b
    ensures Leads(c, r)
  {
    assert Packed(b, r);
    SliceSame(b, c, 0, 4);
    SliceSame(b, c, 6, 8);
    SliceSame(b, c, 8, 16);
    assert c[5] == c[..|b|][5] == b[5];
    if TypeField(b) == 0 {
      var v := ADD + KeyField(b);
      SliceSame(b, c, 16, 20);
      SliceSame(b, c, ADD, v);
      SliceSame(b, c, v, v + ValField(b));
    } else {
      SliceSame(b, c, 16, 24);
    }
    assert Packed(c, r);
  }

  lemma HoldsCons(b: Str, rs: seq<Rec>, r: Rec)
    requires Leads(b, r) && Holds(b[Size(r)..], rs)
    ensures Holds(b, [r] + rs)
  {
    assert ([r] + rs)[1..] == rs;
  }

  lemma {:induction false} HoldsSnoc(b: Str, rs: seq<Rec>, e: Str, r: Rec)
    requires Holds(b, rs) && Holds(e, [r])
    ensures Holds(b + e, rs + [r])
    decreases |rs|
  {
    if rs == [] {
      assert b + e == e && rs + [r] == [r];
    } else {
      var z := Size(rs[0]);
      assert (b + e)[..|b|] == b;
      DecodeLocal(b, b + e, rs[0]);
      HoldsSnoc(b[z..], rs[1..], e, r);
      assert (b + e)[z..] == b[z..] + e;
      HoldsCons(b + e, rs[1..] + [r], rs[0]);
      assert rs + [r] == [rs[0]] + (rs[1..] + [r]);
    }
  }

  ghost predicate FramesTo(b: Str, n: nat, pkts: seq<Pkt>) {
    n <= |b| && Framed(b, n) && Parse(b, n) == pkts
  }

  /** The first n bytes of b are framed and parse to pkts: `FramesTo`, looked into by naming it. */
  ghost predicate Frames(b: Str, n: nat, pkts: seq<Pkt>) {
    n <= |b| && forall m: nat {:trigger FramesTo(b, m, pkts)} :: m == n ==> FramesTo(b, m, pkts)
  }

  lemma FramesNext(b: Str, n: nat, pkts: seq<Pkt>)
    requires Frames(b, n, pkts) && Complete(b, n)
    ensures HDR < SizeField(b) && pkts != [] && pkts[0].rec.tid == TidField(b) && Size(pkts[0].rec) == SizeField(b)
    ensures Frames(b[SizeField(b)..], n - SizeField(b), pkts[1..])
  {
    assert FramesTo(b, n, pkts);
    assert FramesTo(b[SizeField(b)..], n - SizeField(b), pkts[1..]);
  }

  lemma FramesEnd(b: Str, n: nat, pkts: seq<Pkt>)
    requires Frames(b, n, pkts) && !Complete(b, n)
    ensures pkts == []
  {
    assert FramesTo(b, n, pkts);
  }

  lemma FramesCons(b: Str, n: nat, r: Rec, pkts: seq<Pkt>) returns (p: Pkt)
    requires Leads(b, r) && Size(r) <= n <= |b| && Frames(b[Size(r)..], n - Size(r), pkts)
    ensures p.rec == r && Frames(b, n, [p] + pkts)
  {
    assert Packed(b, r) && FramesTo(b[Size(r)..], n - Size(r), pkts);
    p := Decode(b);
    assert FramesTo(b, n, [p] + pkts);
  }

  /** Received in any memory, the buffer parses to exactly the entries packed. */
  lemma {:induction false} HoldsParses(b: Str, rs: seq<Rec>, mem: Str) returns (pkts: seq<Pkt>)
    requires Holds(b, rs) && |b| <= |mem| && mem[..|b|] == b
    ensures Frames(mem, |b|, pkts) && Recs(pkts) == rs && |b| == Total(rs)
    decreases |rs|
  {
    if rs == [] {
      pkts := [];
      assert FramesTo(mem, 0, []);
    } else {
      var z := Size(rs[0]);
      assert mem[z..][..|b| - z] == b[z..];
      pkts := HoldsParses(b[z..], rs[1..], mem[z..]);
      DecodeLocal(b, mem, rs[0]);
      var p := FramesCons(mem, |b|, rs[0], pkts);
      pkts := [p] + pkts;
    }
  }

  lemma EncodeHolds(r: Rec, hash: nat, pad: Str)
    requires Fits(r) && |pad| == (if r.Add? then Size(r) - (ADD + |r.key| + |r.val|) else 0)
    ensures Holds(Encode(r, hash, pad), [r])
  {
    var e := Encode(r, hash, pad);
    assert e[..Size(r)] == e && e[Size(r)..] == [] && [r][1..] == [];
    if r.Add? {
      DecodeAdd(r, hash, pad, e);
    } else {
      DecodeRem(r, e);
    }
    assert Packed(e, r);
  }

  /** The bytes of the packets a replay takes. */
  function TakenBytes(s: Store, pkts: seq<Pkt>): nat
    decreases |pkts|
  {
    if pkts == [] || pkts[0].rec.tid <= s.last then 0
    else Size(pkts[0].rec) + TakenBytes(Step(s, pkts), pkts[1..])
  }

  lemma {:induction false} TakenBytesAdds(s: Store, pkts: seq<Pkt>)
    ensures TakenBytes(s, pkts) == Total(Recs(pkts[..Taken(s, pkts)]))
    decreases |pkts|
  {
    if pkts != [] && s.last < pkts[0].rec.tid {
      var s1 := Step(s, pkts);
      var n := Taken(s1, pkts[1..]);
      TakenBytesAdds(s1, pkts[1..]);
      assert pkts[..n + 1][1..] == pkts[1..][..n];
      assert Recs(pkts[..n + 1])[1..] == Recs(pkts[1..][..n]);
    }
  }

  function Join(parts: seq<seq<Rec>>): seq<Rec> {
    if parts == [] then [] else Join(parts[..|parts| - 1]) + parts[|parts| - 1]
  }

  /** One message of a broadcast: the master's last TID at the start of it, then packed entries. */
  ghost predicate Carries(msg: Str, tid: nat, rs: seq<Rec>) {
    rs != [] && |msg| >= TIDSIZE && msg[..TIDSIZE] == Le(TIDSIZE, tid) && Holds(msg[TIDSIZE..], rs)
  }

  /** The messages together are the entries above a and up to b, each message a run of them. */
  ghost predicate Covers(s: Store, a: nat, b: nat, tid: nat, sent: seq<Str>, parts: seq<seq<Rec>>) {
    && Consistent(s) && Join(parts) == Entries(s, a, b)
    && |sent| == |parts| && forall i :: 0 <= i < |sent| ==> Carries(sent[i], tid, parts[i])
  }

  lemma CoversMore(s: Store, s': Store, a: nat, b: nat, c: nat, tid: nat, sent: seq<Str>, parts: seq<seq<Rec>>, buf: Str)
    requires Covers(s, a, b, tid, sent, parts) && Consistent(s') && SameUpTo(s, s', b) && a <= b <= c
    requires Holds(buf, Entries(s', b, c)) && buf != []
    ensures Covers(s', a, c, tid, sent + [Le(TIDSIZE, tid) + buf], parts + [Entries(s', b, c)])
  {
    var more := Entries(s', b, c);
    var msg := Le(TIDSIZE, tid) + buf;
    EntriesSame(s, s', a, b);
    EntriesSplit(s', a, b, c);
    assert (parts + [more])[..|parts|] == parts;
    assert msg[TIDSIZE..] == buf;
    assert Carries(msg, tid, more);
  }

  lemma CoversSame(s: Store, s': Store, a: nat, b: nat, c: nat, tid: nat, sent: seq<Str>, parts: seq<seq<Rec>>)
    requires Covers(s, a, b, tid, sent, parts) && Consistent(s') && SameUpTo(s, s', b) && a <= b <= c
    requires Holds([], Entries(s', b, c))
    ensures Covers(s', a, c, tid, sent, parts)
  {
    EntriesSame(s, s', a, b);
    EntriesSplit(s', a, b, c);
  }

  ghost predicate Steady(clock: seq<int>) {
    forall i, j :: 0 <= i < j < |clock| ==> clock[i] == clock[j]
  }

  class Slice {
    var st: Store
    const hash: Str -> nat

    constructor (hash: Str -> nat)
      ensures st == Empty && this.hash == hash
    {
      st := Empty;
      this.hash := hash;
    }

    /** `nxtTidTblVal`: the next entry above a TID, 0 if there is none. */
    method NxtTid(from: nat) returns (t: nat)
      requires Consistent(st)
      ensures t == 0 ==> Quiet(st, from, st.last)
      ensures t > 0 ==> from < t <= st.last && t in st.log && Quiet(st, from, t - 1)
    {
      t := from + 1;
      while t <= st.last && t !in st.log
        invariant from < t && Quiet(st, from, t - 1)
        decreases st.last - t
      {
        t := t + 1;
      }
      if t > st.last { t := 0; }
    }

    /** The next entry above `from` and its packet size; expired items met are erased. */
    method GetNxtTidItem(from: nat, now: int, room: nat, ghost want: nat) returns (ret: int, t: nat, ghost gone: seq<Str>)
      requires Ordered(st) && Sized(st) && from <= st.last
      modifies this`st
      ensures Ordered(st) && Sized(st) && from <= st.last
      ensures Purged(old(st), st, gone, now, from)
      ensures Ready(old(st), from, want, room, now) ==> ret > 0
      ensures ret == 0 ==> Quiet(st, from, st.last)
      ensures ret > 0 ==> from < t <= st.last && t in st.log && Quiet(st, from, t - 1) && EntryOk(st, t)
      ensures ret > 0 ==> ret == Size(RecAt(st, t)) <= room
      ensures ret > 0 && st.log[t].Put? ==> !Expired(st.items[st.log[t].key].val, now)
      ensures ret < 0 ==> TooBig(st, from, t, room) && -ret == Size(RecAt(st, t))
      ensures ret < 0 && st.log[t].Put? ==> !Expired(st.items[st.log[t].key].val, now)
    {
      gone := [];
      var tid := from;
      PurgedNone(st, now, from);
      while true
        invariant Ordered(st) && Sized(st) && from <= tid <= st.last && Quiet(st, from, tid)
        invariant Purged(old(st), st, gone, now, from)
        invariant Ready(old(st), from, want, room, now) ==> st == old(st) && tid == from
        decreases |st.items|
      {
        t := NxtTid(tid);
        if t == 0 {
          return 0, 0, gone;
        }
        assert EntryOk(st, t);
        RecFits(st, t);
        if st.log[t].Put? {
          var k := st.log[t].key;
          if Expired(st.items[k].val, now) {
            PurgeMore(old(st), st, gone, now, from, k);
            EraseQuiet(st, k, from);
            st := Erase(st, k);
            gone := gone + [k];
            tid := t;
            continue;
          }
        }
        var size := Size(RecAt(st, t));
        return if size > room then -size else size, t, gone;
      }
    }

    /** `iter2tidPack` and `del2tidPack`, over whatever the buffer held. */
    method Pack(t: nat, junk: Str) returns (e: Str)
      requires Ordered(st) && Sized(st) && t in st.log && EntryOk(st, t) && |junk| >= Size(RecAt(st, t))
      ensures Holds(e, [RecAt(st, t)]) && |e| == Size(RecAt(st, t))
    {
      var r := RecAt(st, t);
      RecFits(st, t);
      var pad := if r.Add? then junk[ADD + |r.key| + |r.val|..Size(r)] else [];
      var h := if r.Add? then hash(r.key) else 0;
      EncodeHolds(r, h, pad);
      e := Encode(r, h, pad);
    }

    /** One turn of the packing loop. */
    method PackNext(from: nat, pos: nat, buf: Str, mem: Str, now: int, ghost s0: Store, ghost gone: seq<Str>,
                    ghost want: nat)
      returns (ret: int, pos': nat, buf': Str, ghost gone': seq<Str>, ghost next: nat)
      requires Ordered(st) && Sized(st) && from <= pos <= st.last && |buf| <= |mem|
      requires Purged(s0, st, gone, now, from) && Holds(buf, Entries(st, from, pos))
      modifies this`st
      ensures Ordered(st) && Sized(st) && pos <= pos' <= st.last && |buf'| <= |mem|
      ensures Purged(s0, st, gone', now, from) && Holds(buf', Entries(st, from, pos'))
      ensures Ready(old(st), pos, want, |mem| - |buf|, now) ==> ret > 0
      ensures ret > 0 ==> |buf| < |buf'|
      ensures ret <= 0 ==> pos' == pos && buf' == buf
      ensures ret == 0 ==> Quiet(st, pos, st.last)
      ensures ret < 0 ==> TooBig(st, pos, next, |mem| - |buf|) && -ret == Size(RecAt(st, next))
      ensures ret < 0 && st.log[next].Put? ==> !Expired(st.items[st.log[next].key].val, now)
    {
      ghost var s1 := st;
      ghost var more;
      var t;
      ret, t, more := GetNxtTidItem(pos, now, |mem| - |buf|, want);
      PurgedTrans(s0, s1, st, gone, more, now, from, pos);
      EntriesSame(s1, st, from, pos);
      pos', buf', gone', next := pos, buf, gone + more, t;
      if ret > 0 {
        var e := Pack(t, mem[|buf|..]);
        HoldsSnoc(buf, Entries(st, from, pos), e, RecAt(st, t));
        EntriesStep(st, from, pos, t);
        buf', pos' := buf + e, t;
      }
    }

    /**
     * Fill a buffer with the entries above `from`, as far as they fit. What is packed is
     * exactly the log's entries above `from` and up to `pos`; either that is all there are,
     * or the next one does not fit in what is left of the buffer.
     */
    method TidGetNxtItems(from: nat, mem: Str, now: int, ghost want: nat)
      returns (ret: int, pos: nat, buf: Str, ghost gone: seq<Str>, ghost next: nat)
      requires Ordered(st) && Sized(st) && from <= st.last
      modifies this`st
      ensures Ordered(st) && Sized(st) && from <= pos <= st.last
      ensures Purged(old(st), st, gone, now, from)
      ensures Holds(buf, Entries(st, from, pos)) && |buf| <= |mem|
      ensures pos == st.last || TooBig(st, pos, next, |mem| - |buf|)
      ensures Ready(old(st), from, want, |mem|, now) ==> ret > 0
      ensures ret > 0 ==> ret == |buf|
      ensures ret == 0 ==> buf == [] && pos == st.last
      ensures ret < 0 ==> buf == [] && pos == from && pos < st.last
      ensures ret < 0 ==> TooBig(st, pos, next, |mem|) && -ret == Size(RecAt(st, next))
      ensures ret < 0 && st.log[next].Put? ==> !Expired(st.items[st.log[next].key].val, now)
    {
      pos, buf, gone, next := from, [], [], 0;
      ret := 1;
      PurgedNone(st, now, from);
      while ret > 0
        invariant Ordered(st) && Sized(st) && from <= pos <= st.last
        invariant Purged(old(st), st, gone, now, from)
        invariant Holds(buf, Entries(st, from, pos)) && |buf| <= |mem|
        invariant buf == [] && ret != 0 ==> pos == from
        invariant Ready(old(st), from, want, |mem|, now) && buf == [] ==> st == old(st) && ret > 0
        invariant ret == 0 ==> Quiet(st, pos, st.last)
        invariant ret < 0 ==> TooBig(st, pos, next, |mem| - |buf|) && -ret == Size(RecAt(st, next))
        invariant ret < 0 && st.log[next].Put? ==> !Expired(st.items[st.log[next].key].val, now)
        decreases |mem| - |buf|, ret
      {
        ret, pos, buf, gone, next := PackNext(from, pos, buf, mem, now, old(st), gone, want);
      }
      if ret >= 0 {
        EntriesSplit(st, from, pos, st.last);
        EntriesQuiet(st, pos, st.last);
        assert Entries(st, from, st.last) == Entries(st, from, pos);
        pos := st.last;
      }
      if |buf| > 0 { ret := |buf|; }
    }

    /**
     * One round of a broadcast. A message goes out unless the buffer is too small for
     * the next entry; then the next round's buffer is made large enough for it.
     */
    method BcastRound(pos: nat, extra: nat, now: int, ghost want: nat)
      returns (ret: int, pos': nat, buf: Str, ghost gone: seq<Str>, ghost next: nat)
      requires Ordered(st) && Sized(st) && pos <= st.last
      modifies this`st
      ensures Ordered(st) && Sized(st) && pos <= pos' <= st.last
      ensures Purged(old(st), st, gone, now, pos) && Holds(buf, Entries(st, pos, pos'))
      ensures Ready(old(st), pos, want, BUFFER + extra - TIDSIZE, now) ==> ret > 0
      ensures ret == 0 ==> buf == [] && pos' == st.last
      ensures ret > 0 ==> buf != []
      ensures ret < 0 ==> buf == [] && pos' == pos && Ready(st, pos, next, BUFFER - ret - TIDSIZE, now)
    {
      var mem := seq(BUFFER + extra - TIDSIZE, _ => 0);
      ret, pos', buf, gone, next := TidGetNxtItems(pos, mem, now, want);
    }

    /**
     * `bcastNewTidData`: up to ten rounds; the clock is read once a round. The messages
     * are the log's entries above `lst` in order, none skipped or repeated, up to the TID
     * returned; and if the clock stood still, either that is the whole log or at least
     * five messages went out.
     */
    method BcastNewTidData(lst: nat, clock: seq<int>)
      returns (pos: nat, sent: seq<Str>, ghost parts: seq<seq<Rec>>, ghost gone: seq<Str>)
      requires Ordered(st) && Sized(st) && lst <= st.last && |clock| == 10
      modifies this`st
      ensures Ordered(st) && Sized(st) && lst <= pos <= st.last
      ensures st == EraseAll(old(st), gone)
      ensures Covers(st, lst, pos, old(st).last, sent, parts)
      ensures Steady(clock) ==> pos == st.last || |sent| >= 5
    {
      var local := st.last;
      var extra := 0;
      var loop := 0;
      pos, sent, parts, gone := lst, [], [], [];
      ghost var next := 0;
      while loop < 10
        invariant 0 <= loop <= 10 && Ordered(st) && Sized(st) && lst <= pos <= st.last
        invariant st == EraseAll(old(st), gone)
        invariant Covers(st, lst, pos, local, sent, parts)
        invariant Steady(clock) && loop > 2 * |sent| ==>
          loop == 2 * |sent| + 1 && Ready(st, pos, next, BUFFER + extra - TIDSIZE, clock[loop - 1])
      {
        ghost var s1, p1 := st, pos;
        ghost var more;
        var ret, buf;
        ret, pos, buf, more, next := BcastRound(pos, extra, clock[loop], next);
        EraseAllAdds(old(st), gone, more);
        gone := gone + more;
        if ret > 0 {
          CoversMore(s1, st, lst, p1, pos, local, sent, parts, buf);
          parts := parts + [Entries(st, p1, pos)];
          sent := sent + [Le(TIDSIZE, local) + buf];
        } else {
          CoversSame(s1, st, lst, p1, pos, local, sent, parts);
          if ret == 0 { break; }
          extra := -ret;
        }
        loop := loop + 1;
      }
    }

    /** `setTidItem` and `delTidItem`: one packet, looking ahead at what follows it. */
    method ApplyPacket(b: Str, n: nat, ghost pkts: seq<Pkt>)
      requires Frames(b, n, pkts) && Complete(b, n) && pkts != []
      modifies this`st
      ensures st == Step(old(st), pkts)
    {
      assert FramesTo(b, n, pkts);
      var z := SizeField(b);
      var next, left := b[z..], n - z;
      var pkt := Decode(b);
      assert pkts == [pkt] + Parse(next, left);
      match pkt.rec
      case Add(t, k, v) => st := Link(UnlinkAny(st, k), k, v, t);
      case Rem(t, d) =>
        if d == FlushAll {
          st := Flushed(t);
        } else {
          if d in st.log && st.log[d].Put? {
            var k := st.log[d].key;
            if left <= HDR || left < SizeField(next) || TypeField(next) != 0 || !Starts(next[ADD..], k) {
              st := UnlinkAny(st, k);
            }
          }
          st := Note(st, t, d);
        }
    }

    /**
     * `tidSetItems`: replay a buffer of n bytes in memory b. The result is the number of
     * bytes of the packets taken.
     */
    method TidSetItems(b: Str, n: nat, ghost pkts: seq<Pkt>) returns (used: nat)
      requires Frames(b, n, pkts)
      modifies this`st
      ensures st == Replay(old(st), pkts)
      ensures used == Total(Recs(pkts[..Taken(old(st), pkts)]))
    {
      var c := b;
      var left: nat := n;
      used := 0;
      ghost var todo := pkts;
      while left > HDR && SizeField(c) <= left
        invariant Frames(c, left, todo)
        invariant Replay(old(st), pkts) == Replay(st, todo)
        invariant TakenBytes(old(st), pkts) == used + TakenBytes(st, todo)
        decreases left
      {
        FramesNext(c, left, todo);
        if TidField(c) <= st.last {
          break;
        }
        var z := SizeField(c);
        ApplyPacket(c, left, todo);
        used, left, c := used + z, left - z, c[z..];
        todo := todo[1..];
      }
      if !Complete(c, left) { FramesEnd(c, left, todo); }
      TakenBytesAdds(old(st), pkts);
    }
  }
}
