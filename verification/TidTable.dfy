/**
 * The table behind a slice's transaction log (`lsshmtidmgr.cpp`): blocks of 1024 TIDs, and
 * an index of the blocks in the order they were made.
 *
 * A block is looked up as if the blocks since the last clear stood for consecutive runs of
 * TIDs. They do as long as no run is passed over; once one is, an entry is looked for in
 * another block, or not found at all.
 */
module TidTable {
  const SIZE := 1024                       // TIDTBLBLK_MAXSZ
  const FLUSHALL := 0x7fff_ffff_ffff_ffff  // TIDDEL_FLUSHALL

  datatype Option<T> = None | Some(value: T)

  /** `x_iTidVals` holds 0 where a TID has no entry. */
  datatype Blk = Blk(base: nat, vals: seq<nat>)

  // ----- the numbers of the blocks alone -----

  /** x_tid, x_lastTidPreClear, and which run of 1024 TIDs each block stands for. */
  datatype Index = Index(tid: nat, pre: nat, nums: seq<nat>)

  /** Each block stands where the look-up expects it. */
  predicate Contiguous(x: Index) {
    forall i :: 0 <= i < |x.nums| ==> x.nums[i] == x.pre / SIZE + i
  }

  /** An entry is set at t, above all others. */
  function Logged(x: Index, t: nat): Index {
    Index(t, x.pre, if x.nums == [] || x.nums[|x.nums| - 1] < t / SIZE then x.nums + [t / SIZE] else x.nums)
  }

  /** `clrTidTbl` of a slave; the master's logs the clear under the next TID besides. */
  function Emptied(x: Index): Index {
    Index(x.tid, x.tid, [])
  }

  predicate Grows(x: Index, t: nat) {
    x.nums == [] || x.nums[|x.nums| - 1] < t / SIZE
  }

  /** A new block is where the look-up expects it exactly when no run of TIDs is passed over. */
  lemma LoggedContiguous(x: Index, t: nat)
    requires Contiguous(x)
    ensures Contiguous(Logged(x, t)) <==> (Grows(x, t) ==> t / SIZE == x.pre / SIZE + |x.nums|)
  {
    var y := Logged(x, t);
    if Grows(x, t) { assert y.nums[|x.nums|] == t / SIZE; }
  }

  // ----- a master's table -----

  datatype Change = New | Clear

  function Changed(x: Index, c: Change): Index {
    match c
    case New => Logged(x, x.tid + 1)
    case Clear => Logged(Emptied(x), x.tid + 1)
  }

  predicate AlwaysContiguous(x: Index, cs: seq<Change>)
    decreases |cs|
  {
    Contiguous(x) && (cs != [] ==> AlwaysContiguous(Changed(x, cs[0]), cs[1..]))
  }

  /** No clear comes when the last TID is the last of its run. */
  predicate ClearsWithinRuns(x: Index, cs: seq<Change>)
    decreases |cs|
  {
    cs != [] ==> (cs[0].Clear? ==> x.tid % SIZE != SIZE - 1) && ClearsWithinRuns(Changed(x, cs[0]), cs[1..])
  }

  predicate Mastered(x: Index) {
    Contiguous(x) && if x.nums == [] then x.tid == x.pre == 0 else x.nums[|x.nums| - 1] == x.tid / SIZE
  }

  /**
   * A master uses every TID, so its table finds its entries throughout a run exactly when no
   * clear comes while the last TID is the last of its run of 1024.
   */
  lemma {:induction false} MasterExactly(x: Index, cs: seq<Change>)
    requires Mastered(x)
    ensures AlwaysContiguous(x, cs) <==> ClearsWithinRuns(x, cs)
    decreases |cs|
  {
    if cs != [] {
      var y := Changed(x, cs[0]);
      LoggedContiguous(if cs[0].Clear? then Emptied(x) else x, x.tid + 1);
      if Contiguous(y) {
        MasterExactly(y, cs[1..]);
      } else {
        assert !AlwaysContiguous(y, cs[1..]);
      }
    }
  }

  // ----- a slave's table -----

  /** The TIDs of the packets a slave takes. */
  predicate Ascending(ts: seq<nat>) {
    forall i, j :: 0 <= i < j < |ts| ==> ts[i] < ts[j]
  }

  function LoggedAll(x: Index, ts: seq<nat>): Index
    decreases |ts|
  {
    if ts == [] then x else LoggedAll(Logged(x, ts[0]), ts[1..])
  }

  /** No run of 1024 TIDs is passed over, from where the table begins. */
  predicate PassesNone(x: Index, ts: seq<nat>) {
    forall i {:trigger NextRun(x, ts, i)} :: 0 <= i < |ts| ==> NextRun(x, ts, i)
  }

  predicate NextRun(x: Index, ts: seq<nat>, i: nat)
    requires i < |ts|
  {
    ts[i] / SIZE <= if i > 0 then ts[i - 1] / SIZE + 1
                    else if x.nums == [] then x.pre / SIZE else x.nums[|x.nums| - 1] + 1
  }

  lemma {:induction false} StaysApart(x: Index, ts: seq<nat>, i: nat)
    requires i < |x.nums|
    ensures |x.nums| <= |LoggedAll(x, ts).nums| && LoggedAll(x, ts).nums[i] == x.nums[i]
    ensures LoggedAll(x, ts).pre == x.pre
    decreases |ts|
  {
    if ts != [] { StaysApart(Logged(x, ts[0]), ts[1..], i); }
  }

  /**
   * The table of a slave, or of anyone who gets entries in ascending order, finds them
   * exactly when no run of 1024 TIDs is passed over, the first ones included.
   */
  lemma {:induction false} SlaveExactly(x: Index, ts: seq<nat>)
    requires Contiguous(x) && Ascending(ts) && x.pre <= x.tid
    requires forall i :: 0 <= i < |ts| ==> x.tid < ts[i]
    requires x.nums != [] ==> x.nums[|x.nums| - 1] == x.tid / SIZE
    ensures Contiguous(LoggedAll(x, ts)) <==> PassesNone(x, ts)
    decreases |ts|
  {
    if ts != [] {
      var y, rest := Logged(x, ts[0]), ts[1..];
      LoggedContiguous(x, ts[0]);
      if Contiguous(y) {
        forall i | 0 <= i < |rest| ensures ts[0] < rest[i] { assert rest[i] == ts[i + 1]; }
        SlaveExactly(y, rest);
        FirstRun(x, ts);
        assert y.nums[|y.nums| - 1] == ts[0] / SIZE;
        forall i: nat | i < |rest| ensures NextRun(y, rest, i) <==> NextRun(x, ts, i + 1) { }
        if PassesNone(y, rest) {
          forall i: nat | i < |ts| ensures NextRun(x, ts, i) {
            if i > 0 { assert NextRun(y, rest, i - 1); }
          }
        }
      } else {
        PassedOver(x, ts);
      }
    }
  }

  /** A run passed over shows for good. */
  lemma PassedOver(x: Index, ts: seq<nat>)
    requires Contiguous(x) && ts != [] && x.pre <= x.tid < ts[0] && !Contiguous(Logged(x, ts[0]))
    ensures !Contiguous(LoggedAll(x, ts)) && !PassesNone(x, ts)
  {
    var y, n, k := Logged(x, ts[0]), |x.nums|, ts[0] / SIZE;
    LoggedContiguous(x, ts[0]);
    assert y.nums == x.nums + [k] && k != x.pre / SIZE + n;
    StaysApart(y, ts[1..], n);
    assert LoggedAll(x, ts).nums[n] == k;
    assert x.pre / SIZE <= k;
    FirstRun(x, ts);
  }

  /** The first packet keeps the blocks contiguous exactly when it passes over no run. */
  lemma FirstRun(x: Index, ts: seq<nat>)
    requires Contiguous(x) && ts != [] && x.pre <= x.tid < ts[0]
    ensures Contiguous(Logged(x, ts[0])) <==> NextRun(x, ts, 0)
  {
    LoggedContiguous(x, ts[0]);
    assert x.pre / SIZE <= ts[0] / SIZE;
    if x.nums != [] { assert x.nums[|x.nums| - 1] == x.pre / SIZE + (|x.nums| - 1); }
  }

  /** A slave that joins when the first entry left has a TID of 1024 or more. */
  lemma LateJoiner(t: nat)
    ensures Contiguous(Logged(Index(0, 0, []), t)) <==> t < SIZE
  {
    LoggedContiguous(Index(0, 0, []), t);
  }

  // ----- the table -----

  /** Block b stands for the run of TIDs that t is in. */
  predicate Stands(b: Blk, t: nat) {
    b.base == t / SIZE * SIZE && |b.vals| == SIZE
  }

  /** What the blocks have under t, or 0. */
  function ValIn(bs: seq<Blk>, t: nat): nat {
    if bs == [] then 0
    else if Stands(bs[|bs| - 1], t) then bs[|bs| - 1].vals[t % SIZE]
    else ValIn(bs[..|bs| - 1], t)
  }

  predicate Shaped(bs: seq<Blk>) {
    && (forall i :: 0 <= i < |bs| ==> |bs[i].vals| == SIZE && bs[i].base % SIZE == 0)
    && (forall i, j :: 0 <= i < j < |bs| ==> bs[i].base < bs[j].base)
  }

  function Numbers(bs: seq<Blk>): seq<nat> {
    seq(|bs|, i requires 0 <= i < |bs| => bs[i].base / SIZE)
  }

  lemma {:induction false} ValAt(bs: seq<Blk>, i: nat, t: nat)
    requires Shaped(bs) && i < |bs| && Stands(bs[i], t)
    ensures ValIn(bs, t) == bs[i].vals[t % SIZE]
  {
    if i < |bs| - 1 { ValAt(bs[..|bs| - 1], i, t); }
  }

  lemma {:induction false} ValFrom(bs: seq<Blk>, t: nat) returns (i: nat)
    requires ValIn(bs, t) != 0
    ensures i < |bs| && Stands(bs[i], t) && bs[i].vals[t % SIZE] == ValIn(bs, t)
  {
    i := |bs| - 1;
    if !Stands(bs[i], t) { i := ValFrom(bs[..i], t); }
  }

  /** One slot written. */
  function Written(bs: seq<Blk>, i: nat, s: nat, v: nat): seq<Blk>
    requires i < |bs| && s < |bs[i].vals|
  {
    bs[i := bs[i].(vals := bs[i].vals[s := v])]
  }

  lemma WrittenVal(bs: seq<Blk>, i: nat, s: nat, v: nat, u: nat)
    requires Shaped(bs) && i < |bs| && s < SIZE
    ensures ValIn(Written(bs, i, s, v), u) == if u == bs[i].base + s then v else ValIn(bs, u)
  {
    var bs' := Written(bs, i, s, v);
    if u == bs[i].base + s {
      ValAt(bs', i, u);
    } else {
      if ValIn(bs', u) != 0 {
        var j := ValFrom(bs', u);
        ValAt(bs, j, u);
      }
      if ValIn(bs, u) != 0 {
        var j := ValFrom(bs, u);
        ValAt(bs', j, u);
      }
    }
  }

  lemma WrittenVals(bs: seq<Blk>, i: nat, s: nat, v: nat)
    requires Shaped(bs) && i < |bs| && s < SIZE
    ensures var bs' := Written(bs, i, s, v);
      && Shaped(bs') && Numbers(bs') == Numbers(bs) && |bs'| == |bs|
      && (forall j :: 0 <= j < |bs| ==> bs'[j].base == bs[j].base)
      && forall u: nat :: ValIn(bs', u) == if u == bs[i].base + s then v else ValIn(bs, u)
  {
    assert Numbers(Written(bs, i, s, v)) == Numbers(bs);
    forall u: nat ensures ValIn(Written(bs, i, s, v), u) == if u == bs[i].base + s then v else ValIn(bs, u) {
      WrittenVal(bs, i, s, v, u);
    }
  }

  function NewBlk(t: nat): Blk {
    Blk(t - t % SIZE, seq(SIZE, _ => 0))
  }

  lemma AppendBlk(bs: seq<Blk>, t: nat)
    requires Shaped(bs) && (bs != [] ==> t >= bs[|bs| - 1].base + SIZE)
    ensures Shaped(bs + [NewBlk(t)]) && Stands(NewBlk(t), t)
    ensures Numbers(bs + [NewBlk(t)]) == Numbers(bs) + [t / SIZE]
    ensures forall u: nat :: ValIn(bs + [NewBlk(t)], u) == ValIn(bs, u)
  {
    AppendShaped(bs, t);
    AppendNumber(bs, t);
    forall u: nat ensures ValIn(bs + [NewBlk(t)], u) == ValIn(bs, u) { AppendVal(bs, t, u); }
  }

  lemma AppendShaped(bs: seq<Blk>, t: nat)
    requires Shaped(bs) && (bs != [] ==> t >= bs[|bs| - 1].base + SIZE)
    ensures Shaped(bs + [NewBlk(t)]) && Stands(NewBlk(t), t)
  {
    var b := NewBlk(t);
    assert b.base == t / SIZE * SIZE;
    forall i | 0 <= i < |bs| ensures bs[i].base < b.base { AboveLast(bs, t, i); }
  }

  lemma AppendNumber(bs: seq<Blk>, t: nat)
    ensures Numbers(bs + [NewBlk(t)]) == Numbers(bs) + [t / SIZE]
  {
    assert (t - t % SIZE) / SIZE == t / SIZE;
    assert Numbers(bs + [NewBlk(t)]) == Numbers(bs) + [t / SIZE];
  }

  lemma AboveLast(bs: seq<Blk>, t: nat, i: nat)
    requires Shaped(bs) && i < |bs| && t >= bs[|bs| - 1].base + SIZE
    ensures bs[i].base + SIZE <= NewBlk(t).base
  {
    assert bs[i].base <= bs[|bs| - 1].base;
  }

  lemma AppendVal(bs: seq<Blk>, t: nat, u: nat)
    requires Shaped(bs) && (bs != [] ==> t >= bs[|bs| - 1].base + SIZE)
    ensures ValIn(bs + [NewBlk(t)], u) == ValIn(bs, u)
  {
    assert (bs + [NewBlk(t)])[..|bs|] == bs;
    if Stands(NewBlk(t), u) && ValIn(bs, u) != 0 {
      var i := ValFrom(bs, u);
      AboveLast(bs, t, i);
    }
  }

  class Table {
    var tid: nat             // x_tid
    var pre: nat             // x_lastTidPreClear
    var blks: seq<Blk>

    /** Entries are above the last clear and at most the last TID. */
    ghost predicate Valid()
      reads this
    {
      && pre <= tid && Shaped(blks)
      && (forall i :: 0 <= i < |blks| ==> blks[i].base <= tid)
      && (forall t: nat :: ValIn(blks, t) != 0 ==> pre < t <= tid)
    }

    ghost function Shape(): Index
      reads this
    {
      Index(tid, pre, Numbers(blks))
    }

    constructor ()
      ensures Valid() && Shape() == Index(0, 0, []) && blks == []
    {
      tid, pre, blks := 0, 0, [];
    }

    /** `tid2tblBlk`. */
    function TblBlk(t: nat): Option<nat>
      reads this
    {
      var t' := if t < pre then pre else t;
      if t' / SIZE - pre / SIZE < |blks| then Some(t' / SIZE - pre / SIZE) else None
    }

    /** The look-up of t ends in the block that stands for it. */
    predicate Finds(t: nat)
      reads this
    {
      TblBlk(t).Some? && Stands(blks[TblBlk(t).value], t)
    }

    /** The slot that the look-up of t ends in is u's. */
    predicate Touches(t: nat, u: nat)
      reads this
    {
      TblBlk(t).Some? && u == blks[TblBlk(t).value].base + t % SIZE
    }

    predicate Used(i: nat)
      reads this
    {
      i < |blks| && exists s :: 0 <= s < |blks[i].vals| && blks[i].vals[s] != 0
    }

    /** Every entry is found exactly when every block that has one is where it is looked for. */
    lemma FindsExactly()
      requires Valid()
      ensures (forall t: nat :: ValIn(blks, t) != 0 ==> Finds(t)) <==>
        forall i: nat :: Used(i) ==> blks[i].base / SIZE == pre / SIZE + i
      ensures Contiguous(Shape()) ==> forall t: nat :: ValIn(blks, t) != 0 ==> Finds(t)
    {
      if forall t: nat :: ValIn(blks, t) != 0 ==> Finds(t) {
        forall i: nat | Used(i) ensures blks[i].base / SIZE == pre / SIZE + i {
          var s :| 0 <= s < |blks[i].vals| && blks[i].vals[s] != 0;
          FoundAt(i, s);
        }
      }
      if Contiguous(Shape()) {
        forall i: nat | Used(i) ensures blks[i].base / SIZE == pre / SIZE + i { assert Shape().nums[i] == pre / SIZE + i; }
      }
      if forall i: nat :: Used(i) ==> blks[i].base / SIZE == pre / SIZE + i {
        forall t: nat | ValIn(blks, t) != 0 ensures Finds(t) {
          var i := ValFrom(blks, t);
          assert Used(i) && t == blks[i].base + t % SIZE;
          FoundAt(i, t % SIZE);
        }
      }
    }

    lemma FoundAt(i: nat, s: nat)
      requires Valid() && i < |blks| && s < SIZE && blks[i].vals[s] != 0
      ensures var t := blks[i].base + s;
        ValIn(blks, t) != 0 && (Finds(t) <==> blks[i].base / SIZE == pre / SIZE + i)
    {
      var t := blks[i].base + s;
      ValAt(blks, i, t);
      assert t / SIZE == blks[i].base / SIZE;
      if Finds(t) {
        var j := TblBlk(t).value;
        assert j == i by { assert !(i < j) && !(j < i); }
      }
    }

    /** `setTidTblEnt`: an entry under the next TID, or under one above the last. */
    method SetTidTblEnt(val: nat, want: nat) returns (t: nat, ok: bool)
      requires Valid() && val != 0
      modifies this
      ensures Valid() && ok == (want == 0 || want > old(tid))
      ensures !ok ==> tid == old(tid) && blks == old(blks)
      ensures ok ==> t == (if want == 0 then old(tid) + 1 else want) && Shape() == Logged(old(Shape()), t)
      ensures ok ==> forall u: nat :: ValIn(blks, u) == if u == t then val else ValIn(old(blks), u)
    {
      t, ok := want, true;
      if want == 0 {
        t := tid + 1;
      } else if want <= tid {
        ok := false;
        return;
      }
      tid := t;
      Store(t, val);
    }

    method Store(t: nat, val: nat)
      requires Shaped(blks) && tid == t && forall i :: 0 <= i < |blks| ==> blks[i].base <= t
      modifies this`blks
      ensures Shaped(blks) && forall i :: 0 <= i < |blks| ==> blks[i].base <= t
      ensures Shape() == Logged(old(Shape()), t)
      ensures forall u: nat :: ValIn(blks, u) == if u == t then val else ValIn(old(blks), u)
    {
      Grow(t);
      assert blks[|blks| - 1].base + t % SIZE == t;
      WrittenVals(blks, |blks| - 1, t % SIZE, val);
      blks := Written(blks, |blks| - 1, t % SIZE, val);
    }

    /** `growTidTbl` where the last block ends below t. */
    method Grow(t: nat)
      requires Shaped(blks) && tid == t && forall i :: 0 <= i < |blks| ==> blks[i].base <= t
      modifies this`blks
      ensures Shaped(blks) && blks != [] && Stands(blks[|blks| - 1], t)
      ensures forall i :: 0 <= i < |blks| ==> blks[i].base <= t
      ensures Shape() == Logged(old(Shape()), t)
      ensures forall u: nat :: ValIn(blks, u) == ValIn(old(blks), u)
    {
      if blks == [] || t >= blks[|blks| - 1].base + SIZE {
        AppendBlk(blks, t);
        blks := blks + [NewBlk(t)];
      }
    }

    /**
     * `clrTidTblEnt`: the slot of t is cleared in the block that the look-up ends in, so the
     * entry under t goes, and no other, when the block is t's own.
     */
    method ClrTidTblEnt(t: nat)
      requires Valid()
      modifies this`blks
      ensures Valid() && Shape() == old(Shape())
      ensures forall u: nat :: ValIn(blks, u) == if old(Touches(t, u)) then 0 else ValIn(old(blks), u)
      ensures old(Finds(t)) ==> forall u: nat :: ValIn(blks, u) == if u == t then 0 else ValIn(old(blks), u)
    {
      var p := TblBlk(t);
      if p.Some? {
        WrittenVals(blks, p.value, t % SIZE, 0);
        blks := Written(blks, p.value, t % SIZE, 0);
      }
    }

    /** `tid2iterOff`, on the value of the entry. */
    method ValueOf(t: nat) returns (v: nat)
      requires Valid()
      ensures Finds(t) ==> v == ValIn(blks, t)
      ensures Contiguous(Shape()) && pre < t ==> v == ValIn(blks, t)
    {
      v := 0;
      var p := TblBlk(t);
      if p.Some? { v := blks[p.value].vals[t % SIZE]; }
      if Finds(t) { ValAt(blks, p.value, t); }
      if Contiguous(Shape()) && pre < t {
        if p.Some? { assert Shape().nums[p.value] == t / SIZE; }
        if ValIn(blks, t) != 0 { FindsExactly(); }
      }
    }

    /** `nxtValInBlk`: the first slot in use from s on. */
    method NxtValInBlk(b: Blk, s: nat) returns (r: nat)
      requires |b.vals| == SIZE && s <= SIZE
      ensures s <= r <= SIZE && (r < SIZE ==> b.vals[r] != 0) && forall q :: s <= q < r ==> b.vals[q] == 0
    {
      r := s;
      while r < SIZE && b.vals[r] == 0
        invariant s <= r <= SIZE && forall q :: s <= q < r ==> b.vals[q] == 0
      {
        r := r + 1;
      }
    }

    /** The first slot in use for a TID above t. */
    method SlotAbove(b: Blk, t: nat) returns (s: nat)
      requires |b.vals| == SIZE && b.base % SIZE == 0
      ensures s <= SIZE && (s < SIZE ==> b.vals[s] != 0 && b.base + s > t)
      ensures forall q :: 0 <= q < s && b.base + q > t ==> b.vals[q] == 0
    {
      s := SIZE;
      if t < b.base + SIZE {
        s := NxtValInBlk(b, if t >= b.base then t % SIZE + 1 else 0);
      }
    }

    /** No entry above t stands in a block before block i. */
    ghost predicate NoneBefore(i: nat, t: nat)
      reads this
    {
      i <= |blks| && forall j, s :: 0 <= j < i && 0 <= s < |blks[j].vals| && blks[j].base + s > t ==> blks[j].vals[s] == 0
    }

    /** Where the search begins. */
    function From(t: nat, at: Option<nat>): nat
      reads this
    {
      var p := if at.Some? then at else TblBlk(t);
      if p.Some? then p.value else |blks|
    }

    lemma LooksFarEnough(t: nat, at: Option<nat>)
      requires Valid() && Contiguous(Shape()) && (at.Some? ==> at.value < |blks| && blks[at.value].base <= t)
      ensures NoneBefore(From(t, at), t)
    {
      forall j | 0 <= j < |blks| ensures blks[j].base / SIZE == pre / SIZE + j { assert Shape().nums[j] == pre / SIZE + j; }
    }

    /**
     * `nxtTidTblVal`: the first entry above t and the block it is in, from the block `at` or else
     * the one looked up for t. It is the next entry of all exactly when no block before that
     * one has an entry above t.
     */
    method NxtTidTblVal(t: nat, at: Option<nat>) returns (r: Option<nat>, at': Option<nat>)
      requires Valid() && (at.Some? ==> at.value < |blks| && blks[at.value].base <= t)
      ensures r.Some? ==> t < r.value && ValIn(blks, r.value) != 0
      ensures r.Some? ==> at'.Some? && at'.value < |blks| && Stands(blks[at'.value], r.value)
      ensures NoneBefore(From(t, at), t) <==> IsNext(t, r)
      ensures Contiguous(Shape()) ==> IsNext(t, r)
    {
      at' := if at.Some? then at else TblBlk(t);
      var p, i := From(t, at), 0;
      r, i := Search(t, p);
      if r.Some? { at' := Some(i); }
      NextFrom(t, p, i, r);
      if Contiguous(Shape()) { LooksFarEnough(t, at); }
    }

    method Search(t: nat, p: nat) returns (r: Option<nat>, i: nat)
      requires Valid() && p <= |blks|
      ensures NoneBetween(p, i, t) && Reached(t, i, r)
      ensures r.Some? ==> ValIn(blks, r.value) != 0
    {
      i := p;
      while i < |blks|
        invariant NoneBetween(p, i, t)
      {
        var s := SlotAbove(blks[i], t);
        if s < SIZE {
          r := Some(blks[i].base + s);
          ValAt(blks, i, blks[i].base + s);
          return;
        }
        i := i + 1;
      }
      r := None;
    }

    /** The search ends behind the last block, or in block i with r its first entry above t. */
    ghost predicate Reached(t: nat, i: nat, r: Option<nat>)
      reads this
    {
      if i == |blks| then r.None? else
        && i < |blks| && r.Some? && t < r.value && Stands(blks[i], r.value)
        && forall s :: 0 <= s < r.value % SIZE && blks[i].base + s > t ==> blks[i].vals[s] == 0
    }

    ghost predicate NoneBetween(p: nat, i: nat, t: nat)
      reads this
    {
      p <= i <= |blks| && forall j, s :: p <= j < i && 0 <= s < |blks[j].vals| && blks[j].base + s > t ==> blks[j].vals[s] == 0
    }

    /** r is the lowest entry above t, if there is one. */
    ghost predicate IsNext(t: nat, r: Option<nat>)
      reads this
    {
      forall u: nat :: t < u && ValIn(blks, u) != 0 ==> r.Some? && r.value <= u
    }

    lemma NextFrom(t: nat, p: nat, i: nat, r: Option<nat>)
      requires Valid() && NoneBetween(p, i, t) && Reached(t, i, r)
      ensures NoneBefore(p, t) <==> IsNext(t, r)
    {
      if NoneBefore(p, t) {
        forall u: nat | t < u && ValIn(blks, u) != 0 ensures r.Some? && r.value <= u { Reaches(t, p, i, r, u); }
      }
      if IsNext(t, r) {
        forall j, s | 0 <= j < p && 0 <= s < |blks[j].vals| && blks[j].base + s > t ensures blks[j].vals[s] == 0 {
          Overlooked(t, p, i, r, j, s);
        }
      }
    }

    /** No entry above t is below r. */
    lemma Reaches(t: nat, p: nat, i: nat, r: Option<nat>, u: nat)
      requires Valid() && NoneBetween(p, i, t) && Reached(t, i, r) && NoneBefore(p, t) && t < u && ValIn(blks, u) != 0
      ensures r.Some? && r.value <= u
    {
      var j := ValFrom(blks, u);
      var s := u % SIZE;
      assert blks[j].base + s == u;
      if j < p {
        assert false;
      } else if j < i {
        assert false;
      } else if j == i {
        assert !(s < r.value % SIZE);
      } else {
        assert blks[i].base < blks[j].base;
      }
    }

    /** An entry above t in a block before p is not the one found. */
    lemma Overlooked(t: nat, p: nat, i: nat, r: Option<nat>, j: nat, s: nat)
      requires Valid() && NoneBetween(p, i, t) && Reached(t, i, r) && IsNext(t, r)
      requires j < p && s < |blks[j].vals| && blks[j].base + s > t
      ensures blks[j].vals[s] == 0
    {
      if blks[j].vals[s] != 0 {
        ValAt(blks, j, blks[j].base + s);
        assert false;
      }
    }

    /** `clrTidTbl`; a master logs the clear under the next TID. */
    method ClrTidTbl(master: bool)
      requires Valid()
      modifies this
      ensures Valid()
      ensures Shape() == if master then Logged(Emptied(old(Shape())), old(tid) + 1) else Emptied(old(Shape()))
      ensures forall u: nat :: ValIn(blks, u) == if master && u == old(tid) + 1 then FLUSHALL else 0
    {
      pre, blks := tid, [];
      assert Numbers(blks) == [];
      if master {
        var t, ok := SetTidTblEnt(FLUSHALL, 0);
      }
    }
  }
}
