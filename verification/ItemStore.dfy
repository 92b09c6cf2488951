/**
 * The update commands of `lsmemcache.cpp` on the bytes of the items: a header of expiry
 * time (64 bits), flags (32 bits) and padding, the cas value when cas is in use, then the
 * value. A command first finds, makes or resizes the element, then fills it in.
 */
module ItemStore {
  import opened ItemSpec
  import L = TidLog
  import W = TidWire

  type Str = L.Str

  const HEADER := 16           // sizeof(LsMcDataItem)
  const CAS := 8

  // ----- layout -----

  /** Where the value starts; also `parmAdjLen(0)`. */
  function Base(usecas: bool): nat {
    if usecas then HEADER + CAS else HEADER
  }

  /** `mcIter2data` and the header fields. */
  function Decode(usecas: bool, raw: Str): Entry
    requires |raw| >= Base(usecas)
  {
    Entry(W.UnLe(raw[8..12]), W.UnLe(raw[0..8]), raw[Base(usecas)..],
          if usecas then W.UnLe(raw[16..24]) else 0)
  }

  /** A memory copy into the middle of an item. */
  function Poke(raw: Str, at: nat, b: Str): (r: Str)
    requires at + |b| <= |raw|
    ensures |r| == |raw|
  {
    raw[..at] + b + raw[at + |b|..]
  }

  lemma SubSlice(s: Str, a: nat, b: nat, i: nat, j: nat)
    requires a <= i <= j <= b <= |s|
    ensures s[a..b][i - a..j - a] == s[i..j]
  {
    var m := s[a..b];
    var l, r := m[i - a..j - a], s[i..j];
    assert |l| == |r| == j - i;
    forall k | 0 <= k < j - i ensures l[k] == r[k] {
      assert l[k] == m[i - a + k] == s[i + k] == r[k];
    }
  }

  lemma PokeParts(raw: Str, at: nat, b: Str)
    requires at + |b| <= |raw|
    ensures var r, e := Poke(raw, at, b), at + |b|;
      r[0..at] == raw[0..at] && r[at..e] == b && r[e..|raw|] == raw[e..|raw|]
  {
  }

  lemma PokeSlice(raw: Str, at: nat, b: Str, i: nat, j: nat)
    requires at + |b| <= |raw| && i <= j <= |raw|
    ensures j <= at || at + |b| <= i ==> Poke(raw, at, b)[i..j] == raw[i..j]
    ensures at <= i && j <= at + |b| ==> Poke(raw, at, b)[i..j] == b[i - at..j - at]
  {
    var r, e := Poke(raw, at, b), at + |b|;
    PokeParts(raw, at, b);
    if j <= at {
      SubSlice(r, 0, at, i, j);
      SubSlice(raw, 0, at, i, j);
    } else if e <= i {
      SubSlice(r, e, |raw|, i, j);
      SubSlice(raw, e, |raw|, i, j);
    }
    if at <= i && j <= e {
      SubSlice(r, at, e, i, j);
    }
  }

  function HeaderBytes(exptime: nat, flags: nat, pad: Str): (b: Str)
    requires |pad| == 4
    ensures |b| == HEADER
  {
    W.Le(8, exptime) + W.Le(4, flags) + pad
  }

  lemma PowerValues()
    ensures W.Pow256(4) == 0x1_0000_0000 && W.Pow256(8) == TWO_64
  {
    assert W.Pow256(2) == 0x1_0000 && W.Pow256(3) == 0x100_0000;
    assert W.Pow256(5) == 0x100_0000_0000 && W.Pow256(6) == 0x1_0000_0000_0000 && W.Pow256(7) == 0x100_0000_0000_0000;
  }

  lemma {:induction false} UnLeBound(b: Str)
    ensures W.UnLe(b) < W.Pow256(|b|)
  {
    if b != [] { UnLeBound(b[1..]); }
  }

  /** Writing the header changes flags and expiry time only. */
  lemma DecodeHeader(usecas: bool, raw: Str, exptime: nat, flags: nat, pad: Str)
    requires |raw| >= Base(usecas) && |pad| == 4 && exptime < TWO_64 && flags < 0x1_0000_0000
    ensures Decode(usecas, Poke(raw, 0, HeaderBytes(exptime, flags, pad))) ==
      Decode(usecas, raw).(exptime := exptime, flags := flags)
  {
    PowerValues();
    W.LeRoundTrip(8, exptime);
    W.LeRoundTrip(4, flags);
    var b := HeaderBytes(exptime, flags, pad);
    PokeSlice(raw, 0, b, 0, 8);
    PokeSlice(raw, 0, b, 8, 12);
    if usecas { PokeSlice(raw, 0, b, 16, 24); }
    PokeSlice(raw, 0, b, Base(usecas), |raw|);
    assert b[0..8] == W.Le(8, exptime) && b[8..12] == W.Le(4, flags);
    var r := Poke(raw, 0, b);
    assert r[Base(usecas)..] == r[Base(usecas)..|raw|] && raw[Base(usecas)..] == raw[Base(usecas)..|raw|];
  }

  lemma DecodeCas(raw: Str, cas: nat)
    requires |raw| >= Base(true) && cas < TWO_64
    ensures Decode(true, Poke(raw, HEADER, W.Le(CAS, cas))) == Decode(true, raw).(cas := cas)
  {
    PowerValues();
    W.LeRoundTrip(8, cas);
    var b := W.Le(CAS, cas);
    PokeSlice(raw, 16, b, 0, 8);
    PokeSlice(raw, 16, b, 8, 12);
    PokeSlice(raw, 16, b, 16, 24);
    PokeSlice(raw, 16, b, 24, |raw|);
    assert b[0..8] == b;
    var r := Poke(raw, 16, b);
    assert r[24..] == r[24..|raw|] && raw[24..] == raw[24..|raw|];
  }

  lemma DecodeVal(usecas: bool, raw: Str, i: nat, b: Str)
    requires |raw| >= Base(usecas) + i + |b|
    ensures Decode(usecas, Poke(raw, Base(usecas) + i, b)) ==
      Decode(usecas, raw).(val := Poke(raw[Base(usecas)..], i, b))
  {
    var at := Base(usecas) + i;
    PokeSlice(raw, at, b, 0, 8);
    PokeSlice(raw, at, b, 8, 12);
    if usecas { PokeSlice(raw, at, b, 16, 24); }
    assert Poke(raw, at, b)[Base(usecas)..] == Poke(raw[Base(usecas)..], i, b);
  }

  lemma DecodeGrow(usecas: bool, raw: Str, more: Str)
    requires |raw| >= Base(usecas)
    ensures Decode(usecas, raw + more) == Decode(usecas, raw).(val := raw[Base(usecas)..] + more)
  {
    var r := raw + more;
    assert r[0..8] == raw[0..8] && r[8..12] == raw[8..12];
    assert usecas ==> r[16..24] == raw[16..24];
    assert r[Base(usecas)..] == raw[Base(usecas)..] + more;
  }

  /** The header copied over an item. */
  method WriteHeader(usecas: bool, raw: Str, exptime: nat, flags: nat, pad: Str) returns (r: Str)
    requires |raw| >= Base(usecas) && |pad| == 4 && exptime < TWO_64 && flags < 0x1_0000_0000
    ensures |r| == |raw| && Decode(usecas, r) == Decode(usecas, raw).(exptime := exptime, flags := flags)
  {
    DecodeHeader(usecas, raw, exptime, flags, pad);
    r := Poke(raw, 0, HeaderBytes(exptime, flags, pad));
  }

  method WriteCas(raw: Str, cas: nat) returns (r: Str)
    requires |raw| >= Base(true) && cas < TWO_64
    ensures |r| == |raw| && Decode(true, r) == Decode(true, raw).(cas := cas)
  {
    DecodeCas(raw, cas);
    r := Poke(raw, HEADER, W.Le(CAS, cas));
  }

  /** The first bytes of the value, the last ones, or all of them. */
  method WriteValue(usecas: bool, raw: Str, i: nat, b: Str) returns (r: Str)
    requires |raw| >= Base(usecas) + i + |b|
    ensures |r| == |raw|
    ensures var v := Decode(usecas, raw).val;
      Decode(usecas, r) == Decode(usecas, raw).(val := v[..i] + b + v[i + |b|..])
  {
    DecodeVal(usecas, raw, i, b);
    r := Poke(raw, Base(usecas) + i, b);
  }

  /** The writes of `dataItemUpdate` to the element. */
  method Fill(usecas: bool, raw: Str, mode: Mode, exptime: nat, flags: nat, pad: Str, cas: nat, b: Str) returns (r: Str)
    requires |raw| >= Base(usecas) + |b| && |pad| == 4 && exptime < TWO_64 && flags < 0x1_0000_0000 && cas < TWO_64
    requires mode == Whole ==> |b| == |raw| - Base(usecas)
    ensures |r| == |raw|
    ensures Decode(usecas, r) ==
      Filled(Decode(usecas, raw), mode, exptime, flags, b).(cas := if usecas then cas else 0)
  {
    r := raw;
    if mode == Whole {
      r := WriteHeader(usecas, r, exptime, flags, pad);
    }
    if usecas {
      r := WriteCas(r, cas);
    }
    ghost var v := Decode(usecas, r).val;
    var i := if mode == AtEnd then |raw| - |b| - Base(usecas) else 0;
    Joined(v, i, b);
    r := WriteValue(usecas, r, i, b);
  }

  lemma Joined(v: Str, i: nat, b: Str)
    requires i + |b| <= |v|
    ensures i == 0 ==> v[..i] + b + v[i + |b|..] == b + v[|b|..]
    ensures i + |b| == |v| ==> v[..i] + b + v[i + |b|..] == v[..i] + b
    ensures |b| == |v| ==> b + v[|b|..] == b
  {
  }

  datatype Mode = Whole | AtEnd | AtFront

  /** A prepared element once the command's bytes b are in it. */
  function Filled(e: Entry, mode: Mode, exptime: nat, flags: nat, b: Str): Entry
    requires |b| <= |e.val|
  {
    match mode
    case Whole => Entry(flags, exptime, b, 0)
    case AtEnd => e.(val := e.val[..|e.val| - |b|] + b)
    case AtFront => e.(val := b + e.val[|b|..])
  }

  // ----- the store -----

  ghost predicate RawOk(usecas: bool, elems: map<Str, Str>, k: Str) {
    k in elems ==> |elems[k]| >= Base(usecas)
  }

  ghost predicate AllOk(usecas: bool, elems: map<Str, Str>) {
    forall k {:trigger RawOk(usecas, elems, k)} :: RawOk(usecas, elems, k)
  }

  ghost function Items(usecas: bool, elems: map<Str, Str>): map<Str, Entry> {
    map k | k in elems && |elems[k]| >= Base(usecas) :: Decode(usecas, elems[k])
  }

  lemma ItemsAt(usecas: bool, elems: map<Str, Str>, k: Str)
    requires AllOk(usecas, elems)
    ensures k in Items(usecas, elems) <==> k in elems
    ensures k in elems ==> |elems[k]| >= Base(usecas) && Items(usecas, elems)[k] == Decode(usecas, elems[k])
  {
    assert RawOk(usecas, elems, k);
  }

  lemma ItemsPut(usecas: bool, elems: map<Str, Str>, k: Str, raw: Str)
    requires AllOk(usecas, elems) && |raw| >= Base(usecas)
    ensures AllOk(usecas, elems[k := raw])
    ensures Items(usecas, elems[k := raw]) == Items(usecas, elems)[k := Decode(usecas, raw)]
  {
    var elems' := elems[k := raw];
    forall j ensures RawOk(usecas, elems', j) { assert RawOk(usecas, elems, j); }
  }

  lemma ItemsDrop(usecas: bool, elems: map<Str, Str>, k: Str)
    requires AllOk(usecas, elems)
    ensures AllOk(usecas, elems - {k}) && Items(usecas, elems - {k}) == Items(usecas, elems) - {k}
  {
    var elems' := elems - {k};
    forall j ensures RawOk(usecas, elems', j) { assert RawOk(usecas, elems, j); }
  }

  class Store {
    const usecas: bool
    var elems: map<Str, Str>
    var counter: nat

    constructor (usecas: bool)
      ensures this.usecas == usecas && Valid() && Abs() == Slice(map[], 0, usecas)
    {
      this.usecas := usecas;
      elems, counter := map[], 0;
      new;
      forall k ensures RawOk(usecas, elems, k) { }
    }

    ghost predicate Valid()
      reads this
    {
      AllOk(usecas, elems)
    }

    ghost function Abs(): Slice
      reads this
    {
      Slice(Items(usecas, elems), counter, usecas)
    }

    /** Replace the bytes of one item. */
    method SetBytes(k: Str, raw: Str)
      requires Valid() && |raw| >= Base(usecas)
      modifies this`elems
      ensures Valid() && elems == old(elems)[k := raw]
      ensures Abs() == old(Abs()).(items := old(Abs().items)[k := Decode(usecas, raw)])
    {
      ItemsPut(usecas, elems, k, raw);
      elems := elems[k := raw];
    }

    /** `eraseIterator`. */
    method EraseItem(k: Str)
      requires Valid()
      modifies this`elems
      ensures Valid() && Abs() == Drop(old(Abs()), k) && elems == old(elems) - {k}
    {
      ItemsDrop(usecas, elems, k);
      elems := elems - {k};
    }

    method IsExpired(k: Str, now: nat) returns (b: bool)
      requires Valid() && k in elems
      ensures b == !Live(Abs(), k, now) && k in Abs().items
    {
      ItemsAt(usecas, elems, k);
      b := Expired(Decode(usecas, elems[k]), now);
    }

    /**
     * `dataItemUpdate`: the element found or made for the command gets its header, unless
     * bytes are only added to it, its cas value and its bytes.
     */
    method DataItemUpdate(k: Str, mode: Mode, exptime: nat, flags: nat, pad: Str, now: nat, len: nat, buf: Str)
      requires Valid() && k in elems && counter + 1 < TWO_64 && |pad| == 4
      requires Absolute(exptime, now) < TWO_64 && flags < 0x1_0000_0000
      requires |buf| >= len && |elems[k]| >= Base(usecas) + len
      requires mode == Whole ==> len == |elems[k]| - Base(usecas)
      modifies this
      ensures Valid()
      ensures Abs() == Put(old(Abs()), k,
        Filled(Decode(usecas, old(elems)[k]), mode, Absolute(exptime, now), flags, buf[..len]))
    {
      ItemsAt(usecas, elems, k);
      if usecas { counter := counter + 1; }
      var raw := Fill(usecas, elems[k], mode, Absolute(exptime, now), flags, pad, counter, buf[..len]);
      SetBytes(k, raw);
    }

    /** Room for a whole value, then the value: what stood there before is gone. */
    method WriteWhole(k: Str, flags: nat, exptime: nat, val: Str, now: nat, junk: Str, pad: Str)
      requires Valid() && counter + 1 < TWO_64 && |junk| == Base(usecas) + |val| && |pad| == 4
      requires Absolute(exptime, now) < TWO_64 && flags < 0x1_0000_0000
      modifies this
      ensures Valid() && Abs() == Put(old(Abs()), k, Entry(flags, Absolute(exptime, now), val, 0))
    {
      ghost var s := Abs();
      SetBytes(k, junk);
      PutAgain(s, Abs(), k, Entry(flags, Absolute(exptime, now), val, 0));
      assert val[..|val|] == val;
      DataItemUpdate(k, Whole, exptime, flags, pad, now, |val|, val);
    }

    /** The text command `set`. */
    method DoSet(op: Op, now: nat, junk: Str, pad: Str) returns (a: Answer)
      requires Valid() && counter + 1 < TWO_64 && op.Set? && |junk| == Base(usecas) + |op.val| && |pad| == 4
      requires op.exptime < 0x1_0000_0000 && op.flags < 0x1_0000_0000 && now < TWO_64 / 2
      modifies this
      ensures Valid() && (Abs(), a) == Exec(old(Abs()), Cmd(op, None, now, []))
    {
      WriteWhole(op.key, op.flags, op.exptime, op.val, now, junk, pad);
      a := Stored;
    }

    /** `doHashInsert` and `doDataUpdate`: `add` writes only where no live item is. */
    method DoAdd(op: Op, now: nat, junk: Str, pad: Str) returns (a: Answer)
      requires Valid() && counter + 1 < TWO_64 && op.Add? && |junk| == Base(usecas) + |op.val| && |pad| == 4
      requires op.exptime < 0x1_0000_0000 && op.flags < 0x1_0000_0000 && now < TWO_64 / 2
      modifies this
      ensures Valid() && (Abs(), a) == Exec(old(Abs()), Cmd(op, None, now, []))
    {
      ItemsAt(usecas, elems, op.key);
      if op.key in elems {
        var expired := IsExpired(op.key, now);
        if !expired { return NotStored; }
      }
      WriteWhole(op.key, op.flags, op.exptime, op.val, now, junk, pad);
      a := Stored;
    }

    /** The head of `doHashUpdate`: the item must be there, not expired, and match the token. */
    method FindForUpdate(k: Str, token: Option<nat>, now: nat, behind: Str) returns (a: Answer)
      requires Valid() && |behind| >= CAS
      modifies this`elems
      ensures Valid()
      ensures a == Stored <==> Live(old(Abs()), k, now) && Matches(old(Abs()), k, token, behind)
      ensures a == Exists <==> Live(old(Abs()), k, now) && !Matches(old(Abs()), k, token, behind)
      ensures a == NotFound <==> !Live(old(Abs()), k, now)
      ensures Abs() == if a == NotFound && k in old(Abs()).items then Drop(old(Abs()), k) else old(Abs())
      ensures a == Stored ==> k in elems
    {
      ItemsAt(usecas, elems, k);
      if k !in elems { return NotFound; }
      var expired := IsExpired(k, now);
      if expired {
        EraseItem(k);
        return NotFound;
      }
      CasFieldAt(usecas, elems[k], behind);
      if token.Some? && W.UnLe((elems[k] + behind)[HEADER..HEADER + CAS]) != token.value { return Exists; }
      a := Stored;
    }

    /** `replace` and the text command `cas`. */
    method DoReplace(op: Op, token: Option<nat>, now: nat, behind: Str, junk: Str, pad: Str) returns (a: Answer)
      requires Valid() && counter + 1 < TWO_64 && |behind| >= CAS
      requires op.Replace? && |junk| == Base(usecas) + |op.val| && |pad| == 4
      requires op.exptime < 0x1_0000_0000 && op.flags < 0x1_0000_0000 && now < TWO_64 / 2
      modifies this
      ensures Valid() && (Abs(), a) == Exec(old(Abs()), Cmd(op, token, now, behind))
    {
      a := FindForUpdate(op.key, token, now, behind);
      if a != Stored { return; }
      WriteWhole(op.key, op.flags, op.exptime, op.val, now, junk, pad);
    }

    /**
     * `iterGrowValue` makes the item longer at the end; for `prepend` the old value is then
     * moved up, and the new bytes are written before or after it.
     */
    method Extend(k: Str, front: bool, val: Str, now: nat, junk: Str, pad: Str)
      requires Valid() && counter + 1 < TWO_64 && k in elems && |junk| == |val| && |pad| == 4
      modifies this
      ensures Valid()
      ensures k in old(Abs().items)
      ensures var e := old(Abs().items)[k];
        Abs() == Put(old(Abs()), k, e.(val := if front then val + e.val else e.val + val))
    {
      ItemsAt(usecas, elems, k);
      ghost var s, e := Abs(), Abs().items[k];
      Extended(usecas, elems[k], junk, front, val);
      assert val[..|val|] == val;
      SetBytes(k, Moved(usecas, elems[k], junk, front));
      PutAgain(s, Abs(), k, e.(val := if front then val + e.val else e.val + val));
      DataItemUpdate(k, if front then AtFront else AtEnd, 0, 0, pad, now, |val|, val);
    }

    /** `append` and `prepend`. */
    method DoExtend(op: Op, token: Option<nat>, now: nat, behind: Str, junk: Str, pad: Str) returns (a: Answer)
      requires Valid() && counter + 1 < TWO_64 && |behind| >= CAS
      requires (op.Append? || op.Prepend?) && |junk| == |op.val| && |pad| == 4
      modifies this
      ensures Valid() && (Abs(), a) == Exec(old(Abs()), Cmd(op, token, now, behind))
    {
      a := FindForUpdate(op.key, token, now, behind);
      if a != Stored { return; }
      Extend(op.key, op.Prepend?, op.val, now, junk, pad);
    }

    /** `incr` and `decr`: the header is copied from the item, the value is the new decimal. */
    method DoArith(op: Op, token: Option<nat>, now: nat, behind: Str, pad: Str) returns (a: Answer)
      requires Valid() && counter + 1 < TWO_64 && |behind| >= CAS && now < TWO_64 / 2
      requires (op.Incr? || op.Decr?) && |pad| == 4
      modifies this
      ensures Valid() && (Abs(), a) == Exec(old(Abs()), Cmd(op, token, now, behind))
    {
      a := FindForUpdate(op.key, token, now, behind);
      if a != Stored { return; }
      a := WriteNumber(op.key, op.Incr?, op.delta, now, pad);
    }

    /** The number of a live item is read, changed and written back. */
    method WriteNumber(k: Str, up: bool, delta: nat, now: nat, pad: Str) returns (a: Answer)
      requires Valid() && counter + 1 < TWO_64 && now < TWO_64 / 2 && |pad| == 4 && k in elems
      modifies this
      ensures Valid() && k in old(Abs().items)
      ensures (Abs(), a) == Arith(old(Abs()), k, old(Abs().items)[k], up, delta, now)
    {
      ItemsAt(usecas, elems, k);
      var e := Decode(usecas, elems[k]);
      var num := Number(e);
      if num.None? { return NonNumeric; }
      var m := if up then (num.value + delta) % TWO_64
               else if delta > num.value then 0 else num.value - delta;
      var text := Decimal(m);
      HeaderBounds(usecas, elems[k]);
      WriteWhole(k, e.flags, e.exptime, text, now, seq(Base(usecas) + |text|, _ => 0), pad);
      a := Stored;
    }

    /** `delete`. */
    method DoDelete(op: Op, now: nat) returns (a: Answer)
      requires Valid() && op.Delete?
      modifies this`elems
      ensures Valid() && (Abs(), a) == Exec(old(Abs()), Cmd(op, None, now, []))
    {
      ItemsAt(usecas, elems, op.key);
      a := NotFound;
      if op.key in elems {
        var expired := IsExpired(op.key, now);
        a := if expired then NotFound else Deleted;
        EraseItem(op.key);
      } else {
        assert Drop(Abs(), op.key).items == Abs().items;
      }
    }

    /** `touch`: only the expiry time changes; the cas value stays. */
    method DoTouch(op: Op, now: nat) returns (a: Answer)
      requires Valid() && op.Touch? && op.exptime < TWO_32
      modifies this`elems
      ensures Valid() && (Abs(), a) == Exec(old(Abs()), Cmd(op, None, now, []))
    {
      var k := op.key;
      ItemsAt(usecas, elems, k);
      if k !in elems { return NotFound; }
      var expired := IsExpired(k, now);
      if expired {
        EraseItem(k);
        return NotFound;
      }
      var x := Absolute32(op.exptime, now);
      DecodeExptime(usecas, elems[k], x);
      SetBytes(k, Poke(elems[k], 0, W.Le(8, x)));
      a := Touched;
    }
  }

  predicate Matches(s: Slice, k: Str, token: Option<nat>, behind: Str)
    requires k in s.items
  {
    token.None? || CasField(s.usecas, s.items[k], behind) == token.value
  }

  /** The bytes behind the header are what a token is compared with. */
  lemma CasFieldAt(usecas: bool, raw: Str, behind: Str)
    requires |raw| >= Base(usecas) && |behind| >= CAS
    ensures W.UnLe((raw + behind)[HEADER..HEADER + CAS]) == CasField(usecas, Decode(usecas, raw), behind)
  {
    if usecas {
      assert (raw + behind)[16..24] == raw[16..24];
    } else {
      assert (raw + behind)[16..24] == (raw[16..] + behind)[..8];
    }
  }

  lemma DecodeExptime(usecas: bool, raw: Str, exptime: nat)
    requires |raw| >= Base(usecas) && exptime < TWO_64
    ensures Decode(usecas, Poke(raw, 0, W.Le(8, exptime))) == Decode(usecas, raw).(exptime := exptime)
  {
    PowerValues();
    W.LeRoundTrip(8, exptime);
    var b := W.Le(8, exptime);
    PokeSlice(raw, 0, b, 0, 8);
    PokeSlice(raw, 0, b, 8, 12);
    if usecas { PokeSlice(raw, 0, b, 16, 24); }
    PokeSlice(raw, 0, b, Base(usecas), |raw|);
    assert b[0..8] == b;
    var r := Poke(raw, 0, b);
    assert r[Base(usecas)..] == r[Base(usecas)..|raw|] && raw[Base(usecas)..] == raw[Base(usecas)..|raw|];
  }

  lemma HeaderBounds(usecas: bool, raw: Str)
    requires |raw| >= Base(usecas)
    ensures Decode(usecas, raw).exptime < TWO_64 && Decode(usecas, raw).flags < 0x1_0000_0000
  {
    PowerValues();
    UnLeBound(raw[0..8]);
    UnLeBound(raw[8..12]);
  }

  /** Writing over whatever stands at k. */
  lemma PutAgain(s: Slice, t: Slice, k: Str, e: Entry)
    requires t.usecas == s.usecas && t.counter == s.counter && k in t.items
    requires t.items == s.items[k := t.items[k]]
    ensures Put(t, k, e) == Put(s, k, e)
  {
    assert t.items[k := e.(cas := 0)] == s.items[k := e.(cas := 0)];
    assert t.items[k := e.(cas := s.counter + 1)] == s.items[k := e.(cas := s.counter + 1)];
  }

  /** The item grown at the end and, for `prepend`, its old value moved up. */
  function Moved(usecas: bool, raw: Str, junk: Str, front: bool): (r: Str)
    requires |raw| >= Base(usecas)
    ensures |r| == |raw| + |junk|
  {
    var grown := raw + junk;
    var base := Base(usecas);
    if front then Poke(grown, base + |junk|, grown[base..|grown| - |junk|]) else grown
  }

  /** Writing the new bytes before or after joins the two values. */
  lemma Extended(usecas: bool, raw: Str, junk: Str, front: bool, b: Str)
    requires |raw| >= Base(usecas) && |junk| == |b|
    ensures var e, e1 := Decode(usecas, raw), Decode(usecas, Moved(usecas, raw, junk, front));
      && |e1.val| == |e.val| + |b|
      && Filled(e1, if front then AtFront else AtEnd, 0, 0, b) == e.(val := if front then b + e.val else e.val + b)
  {
    var grown := raw + junk;
    var base, n := Base(usecas), |b|;
    var v := raw[base..];
    DecodeGrow(usecas, raw, junk);
    if front {
      DecodeVal(usecas, grown, n, grown[base..|grown| - n]);
      assert grown[base..|grown| - n] == v;
      assert Poke(v + junk, n, v)[n..] == v;
    } else {
      assert (v + junk)[..|v|] == v;
    }
  }
}
