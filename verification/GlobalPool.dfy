/**
 * The standard global pool (`ls_pool.c` with `USE_LSRSTD_POOL`, x86-64 sizes).
 *
 * Memory comes from the system in regions. Small blocks are carved from a current chunk,
 * larger ones are regions of their own; blocks given back go onto free lists by size and
 * may be carved up again when the system has no more memory.
 */
module GlobalPool {
  type byte = bv8

  datatype Option<T> = None | Some(value: T)

  datatype Addr = Addr(region: nat, off: nat)

  /** A free list: of blocks of 16(i+1) bytes, or of 1024(i+1) bytes and the skew. */
  datatype Cls = Sm(i: nat) | Lg(i: nat)

  /** With the caller for a rounded request, on a free list, the current chunk, in between, or lost. */
  datatype Place = Live(size: nat) | Free(cls: Cls) | Chunk | Held | Lost

  datatype Blk = Blk(len: nat, place: Place)

  const ALIGN := 16
  const HDR := 16                  // sizeof(ls_pool_blk_t)
  const SM_MAX := 4096             // SMFREELIST_MAXBYTES
  const LG_MAX := 65536            // LGFREELIST_MAXBYTES
  const SKEW := 48                 // LGFREELISTSKEW
  const REALLOC_DIFF := 1024
  const U32 := 0x1_0000_0000       // header.size is a uint32_t
  const WORD := 0x1_0000_0000_0000_0000

  // ----- sizes -----

  function RoundUp(n: nat): (r: nat)
    ensures n <= r < n + ALIGN && r % ALIGN == 0
  {
    (n + 15) / 16 * 16
  }

  /** `lglist_roundup`. */
  function LgRound(n: nat): (r: nat)
    requires SM_MAX < n
    ensures n <= r < n + 1024
  {
    (n - SKEW + 1023) / 1024 * 1024 + SKEW
  }

  function SmIndex(n: nat): nat
    requires 0 < n
  {
    (n + 15) / 16 - 1
  }

  function LgIndex(n: nat): nat
    requires SM_MAX < n
  {
    (n - SKEW + 1023) / 1024 - 1
  }

  /** `size2freelistptr`. */
  function ClassOf(n: nat): Cls
    requires 0 < n
  {
    if n > SM_MAX then Lg(LgIndex(n)) else Sm(SmIndex(n))
  }

  /** What the blocks of a list hold. */
  function Capacity(c: Cls): nat {
    match c
    case Sm(i) => 16 * (i + 1)
    case Lg(i) => 1024 * (i + 1) + SKEW
  }

  predicate IsClass(c: Cls) {
    match c
    case Sm(i) => i < 256
    case Lg(i) => i < 64
  }

  /** A rounded request is served by a list whose blocks are large enough for it. */
  lemma ClassHolds(n: nat)
    requires 0 < n <= LG_MAX && n % ALIGN == 0
    ensures IsClass(ClassOf(n)) && n <= Capacity(ClassOf(n)) && Capacity(ClassOf(n)) % ALIGN == 0
    ensures Capacity(ClassOf(n)) == if n <= SM_MAX then n else LgRound(n)
  {
  }

  /** Which rounded sizes the header mistakes for others. */
  lemma HeaderTells(n: nat)
    requires 0 < n
    ensures n < U32 ==> n % U32 == n
    ensures n % U32 > LG_MAX || n % U32 == n <==> n < U32 || n % U32 > LG_MAX
  {
  }

  /** A request of exactly 2^32 bytes has a header that says 16. */
  lemma HeaderMistaken()
    ensures var n := RoundUp(U32 + HDR); n % U32 == 16 && !(n < U32 || n % U32 > LG_MAX)
  {
  }

  lemma Wrapped(n: nat)
    requires n % ALIGN == 0
    ensures (n % U32) % ALIGN == 0 && n % U32 <= n && (n % U32 != n ==> U32 <= n)
  {
    var q := n / U32;
    assert n == U32 * q + n % U32;
    assert n % U32 == n - 0x1000_0000 * ALIGN * q;
  }

  // ----- tilings -----

  function At(a: Addr, d: nat): Addr { Addr(a.region, a.off + d) }

  ghost predicate Inside(sizes: map<nat, nat>, blk: map<Addr, Blk>, a: Addr) {
    a in blk ==> a.region in sizes && 0 < blk[a].len && a.off + blk[a].len <= sizes[a.region]
  }

  ghost predicate Continued(sizes: map<nat, nat>, blk: map<Addr, Blk>, a: Addr) {
    a in blk && a.region in sizes && a.off + blk[a].len < sizes[a.region] ==> At(a, blk[a].len) in blk
  }

  ghost predicate Apart(blk: map<Addr, Blk>, a: Addr, b: Addr) {
    a in blk && b in blk && a.region == b.region && a.off < b.off ==> a.off + blk[a].len <= b.off
  }

  /** The blocks cover every region from end to end without overlap. */
  ghost predicate Tiled(sizes: map<nat, nat>, blk: map<Addr, Blk>) {
    && (forall a {:trigger Inside(sizes, blk, a)} :: Inside(sizes, blk, a))
    && (forall a {:trigger Continued(sizes, blk, a)} :: Continued(sizes, blk, a))
    && (forall r :: r in sizes ==> Addr(r, 0) in blk)
    && (forall a, b {:trigger Apart(blk, a, b)} :: Apart(blk, a, b))
  }

  ghost predicate Covers(blk: map<Addr, Blk>, a: Addr, r: nat, x: nat) {
    a in blk && a.region == r && a.off <= x < a.off + blk[a].len
  }

  /** Every byte of every region belongs to exactly one block. */
  lemma EveryByteOnce(sizes: map<nat, nat>, blk: map<Addr, Blk>, r: nat, x: nat) returns (a: Addr)
    requires Tiled(sizes, blk) && r in sizes && x < sizes[r]
    ensures Covers(blk, a, r, x) && forall b :: Covers(blk, b, r, x) ==> b == a
  {
    a := Addr(r, 0);
    while !(x < a.off + blk[a].len)
      invariant a in blk && a.region == r && a.off <= x
      decreases x - a.off
    {
      assert Inside(sizes, blk, a) && Continued(sizes, blk, a);
      a := At(a, blk[a].len);
    }
    forall b | Covers(blk, b, r, x) ensures b == a {
      assert Apart(blk, a, b) && Apart(blk, b, a);
    }
  }

  /** Only places change. */
  lemma RelabelTiled(sizes: map<nat, nat>, blk: map<Addr, Blk>, a: Addr, p: Place)
    requires Tiled(sizes, blk) && a in blk
    ensures Tiled(sizes, blk[a := Blk(blk[a].len, p)])
  {
    var blk' := blk[a := Blk(blk[a].len, p)];
    forall x ensures Inside(sizes, blk', x) && Continued(sizes, blk', x) {
      assert Inside(sizes, blk, x) && Continued(sizes, blk, x);
    }
    forall x, y ensures Apart(blk', x, y) { assert Apart(blk, x, y); }
  }

  /** A block cut in two. */
  lemma CutTiled(sizes: map<nat, nat>, blk: map<Addr, Blk>, a: Addr, m: nat, p: Place, q: Place)
    requires Tiled(sizes, blk) && a in blk && 0 < m < blk[a].len
    ensures At(a, m) !in blk
    ensures Tiled(sizes, blk[a := Blk(m, p)][At(a, m) := Blk(blk[a].len - m, q)])
  {
    var b := At(a, m);
    assert b !in blk by { assert Apart(blk, a, b); }
    var blk' := blk[a := Blk(m, p)][b := Blk(blk[a].len - m, q)];
    assert Inside(sizes, blk, a) && Continued(sizes, blk, a);
    assert At(b, blk[a].len - m) == At(a, blk[a].len);
    forall x ensures Inside(sizes, blk', x) && Continued(sizes, blk', x) {
      assert Inside(sizes, blk, x) && Continued(sizes, blk, x);
    }
    forall x, y ensures Apart(blk', x, y) {
      var x0 := if x == b then a else x;
      var y0 := if y == b then a else y;
      assert Apart(blk, x0, y0) && Apart(blk, y0, x0);
    }
  }

  lemma NewRegionTiled(sizes: map<nat, nat>, blk: map<Addr, Blk>, r: nat, n: nat, p: Place)
    requires Tiled(sizes, blk) && r !in sizes && 0 < n
    ensures Addr(r, 0) !in blk && Tiled(sizes[r := n], blk[Addr(r, 0) := Blk(n, p)])
  {
    var a := Addr(r, 0);
    var sizes', blk' := sizes[r := n], blk[a := Blk(n, p)];
    assert Inside(sizes, blk, a);
    forall x ensures Inside(sizes', blk', x) && Continued(sizes', blk', x) {
      assert Inside(sizes, blk, x) && Continued(sizes, blk, x);
    }
    forall x, y ensures Apart(blk', x, y) {
      assert Apart(blk, x, y) && Inside(sizes, blk, x) && Inside(sizes, blk, y);
    }
  }

  lemma DropRegionTiled(sizes: map<nat, nat>, blk: map<Addr, Blk>, r: nat)
    requires Tiled(sizes, blk) && r in sizes && Addr(r, 0) in blk && blk[Addr(r, 0)].len == sizes[r]
    ensures Tiled(sizes - {r}, blk - {Addr(r, 0)})
  {
    var a := Addr(r, 0);
    var sizes', blk' := sizes - {r}, blk - {a};
    forall x ensures Inside(sizes', blk', x) && Continued(sizes', blk', x) {
      assert Inside(sizes, blk, x) && Continued(sizes, blk, x) && Apart(blk, a, x);
    }
    forall x, y ensures Apart(blk', x, y) { assert Apart(blk, x, y); }
  }

  // ----- places -----

  function ListOf(lists: map<Cls, seq<Addr>>, c: Cls): seq<Addr> {
    if c in lists then lists[c] else []
  }

  /** How long the block of a live request of n rounded bytes is. */
  function LiveLen(n: nat): nat {
    if n <= SM_MAX then n else if n <= LG_MAX then LgRound(n) else n
  }

  ghost predicate PlaceOk(sizes: map<nat, nat>, blk: map<Addr, Blk>, start: Addr, left: nat, held: Option<Addr>, a: Addr) {
    a in blk ==>
      blk[a].len % ALIGN == 0 &&
      match blk[a].place
      case Free(c) => IsClass(c) && blk[a].len == Capacity(c)
      case Live(n) => 0 < n && n % ALIGN == 0 && blk[a].len == LiveLen(n) && (n > LG_MAX ==> Whole(sizes, blk, a))
      case Chunk => a == start && left == blk[a].len
      case Held => held == Some(a)
      case Lost => true
  }

  ghost predicate Whole(sizes: map<nat, nat>, blk: map<Addr, Blk>, a: Addr) {
    a in blk && a.off == 0 && a.region in sizes && sizes[a.region] == blk[a].len
  }

  /** A list holds exactly the blocks marked as being on it, each once. */
  ghost predicate ListOk(lists: map<Cls, seq<Addr>>, blk: map<Addr, Blk>, c: Cls) {
    && (forall a :: a in ListOf(lists, c) <==> a in blk && blk[a].place == Free(c))
    && (forall i, j :: 0 <= i < j < |ListOf(lists, c)| ==> ListOf(lists, c)[i] != ListOf(lists, c)[j])
  }

  /** The blocks with callers and the rounded sizes they asked for. */
  ghost function Lives(blk: map<Addr, Blk>): map<Addr, nat> {
    map a | a in blk && blk[a].place.Live? :: blk[a].place.size
  }

  ghost function View(lives: map<Addr, nat>, data: map<Addr, seq<byte>>): map<Addr, seq<byte>> {
    map a | a in lives && a in data :: data[a]
  }

  lemma ViewPut(lives: map<Addr, nat>, data: map<Addr, seq<byte>>, a: Addr, n: nat, bytes: seq<byte>)
    ensures View(lives[a := n], data[a := bytes]) == View(lives, data)[a := bytes]
  {
  }

  lemma ViewDrop(lives: map<Addr, nat>, data: map<Addr, seq<byte>>, a: Addr)
    ensures View(lives - {a}, data) == View(lives, data) - {a}
  {
  }

  /** The system has memory for the request after i others. */
  predicate Grants(memory: seq<bool>, i: nat) {
    i < |memory| && memory[i]
  }

  /** Without a block, unless its header says 0. */
  function Less<T>(m: map<Addr, T>, a: Addr, h: nat): map<Addr, T> {
    if h == 0 then m else m - {a}
  }

  lemma LessPut<T>(m: map<Addr, T>, a: Addr, h: nat, b: Addr, v: T)
    requires a != b
    ensures Less(m[b := v], a, h) == Less(m, a, h)[b := v]
  {
  }

  /** A block held up to m, and lost from there on. */
  function Headless(blk: map<Addr, Blk>, a: Addr, m: nat): map<Addr, Blk>
    requires a in blk && m <= blk[a].len
  {
    blk[a := Blk(m, Held)][At(a, m) := Blk(blk[a].len - m, Lost)]
  }

  lemma HeadPlaces(sizes: map<nat, nat>, blk: map<Addr, Blk>, start: Addr, left: nat, a: Addr, m: nat)
    requires a in blk && 0 < m < blk[a].len && m % ALIGN == 0 && blk[a].place.Live? && Tiled(sizes, blk)
    requires forall x {:trigger PlaceOk(sizes, blk, start, left, None, x)} :: PlaceOk(sizes, blk, start, left, None, x)
    requires Whole(sizes, blk, a)
    ensures var b := Headless(blk, a, m);
      && (forall x {:trigger PlaceOk(sizes, b, start, left, Some(a), x)} :: PlaceOk(sizes, b, start, left, Some(a), x))
      && At(a, m) !in blk && Lives(b) == Lives(blk) - {a}
  {
    var b := Headless(blk, a, m);
    assert Apart(blk, a, At(a, m));
    assert PlaceOk(sizes, blk, start, left, None, a);
    forall x ensures PlaceOk(sizes, b, start, left, Some(a), x) { assert PlaceOk(sizes, blk, start, left, None, x); }
  }

  lemma HeadLists(lists: map<Cls, seq<Addr>>, blk: map<Addr, Blk>, a: Addr, m: nat)
    requires a in blk && m < blk[a].len && blk[a].place.Live? && At(a, m) !in blk
    requires forall c {:trigger ListOk(lists, blk, c)} :: ListOk(lists, blk, c)
    ensures var b := Headless(blk, a, m); forall c {:trigger ListOk(lists, b, c)} :: ListOk(lists, b, c)
  {
    var b := Headless(blk, a, m);
    forall c ensures ListOk(lists, b, c) { assert ListOk(lists, blk, c); }
  }

  class Pool {
    var lists: map<Cls, seq<Addr>>
    var start: Addr
    var left: nat              // _end_free - _start_free
    var heap: nat
    var memory: seq<bool>      // whether the system will have memory, request by request
    var regions: nat           // regions handed out so far
    var hdr: map<Addr, nat>    // header.size of the blocks with callers
    var data: map<Addr, seq<byte>>   // and their bytes
    ghost var sizes: map<nat, nat>
    ghost var blk: map<Addr, Blk>
    ghost var lost: set<Addr>  // ends of blocks given back under a header that had wrapped

    ghost predicate Placed(held: Option<Addr>)
      reads this
    {
      && (forall a {:trigger PlaceOk(sizes, blk, start, left, held, a)} :: PlaceOk(sizes, blk, start, left, held, a))
      && (forall a :: a in lost <==> a in blk && blk[a].place == Lost)
      && (left > 0 ==> start in blk && blk[start].place == Chunk)
      && (held.Some? ==> held.value in blk && blk[held.value].place == Held)
    }

    ghost predicate Lists()
      reads this
    {
      forall c {:trigger ListOk(lists, blk, c)} :: ListOk(lists, blk, c)
    }

    /** Apart from the block held, every block is live, on its free list or the chunk. */
    ghost predicate Valid(held: Option<Addr>)
      reads this
    {
      && Tiled(sizes, blk) && Placed(held) && Lists()
      && left % ALIGN == 0 && forall r :: r in sizes ==> r < regions
    }

    /** Between calls; the headers of live blocks tell what was asked for, in 32 bits. */
    ghost predicate Good()
      reads this
    {
      Valid(None) && Headed()
    }

    ghost predicate Headed()
      reads this
    {
      forall a :: a in Lives(blk) ==>
        a in hdr && hdr[a] == Lives(blk)[a] % U32 && a in data && |data[a]| + HDR == Lives(blk)[a]
    }

    /** The header still tells a block of a list from one of the system's own. */
    ghost predicate Told(a: Addr)
      reads this
      requires a in hdr && a in Lives(blk)
    {
      hdr[a] > LG_MAX || hdr[a] == Lives(blk)[a]
    }

    /** The callers' view: the blocks they hold, with their bytes. */
    ghost function Abs(): map<Addr, seq<byte>>
      reads this
    {
      View(Lives(blk), data)
    }

    constructor (memory: seq<bool>)
      ensures Good() && Lives(blk) == map[]
    {
      this.memory := memory;
      lists, start, left, heap, regions, hdr, data := map[], Addr(0, 0), 0, 0, 0, map[], map[];
      sizes, blk, lost := map[], map[], {};
      new;
      forall a ensures Inside(sizes, blk, a) && Continued(sizes, blk, a) && PlaceOk(sizes, blk, start, left, None, a) { }
      forall a, b ensures Apart(blk, a, b) { }
      forall c ensures ListOk(lists, blk, c) { }
      assert Lives(blk) == map[];
    }

    /** `ls_std_getblk`: the first block of a list. */
    method Get(c: Cls) returns (r: Option<Addr>)
      requires Valid(None)
      modifies this`lists, this`blk
      ensures Valid(r) && Lives(blk) == old(Lives(blk))
      ensures r.None? <==> old(ListOf(lists, c)) == []
      ensures r.None? ==> lists == old(lists)
      ensures r.Some? ==> IsClass(c) && blk[r.value].len == Capacity(c) && r.value !in Lives(blk)
    {
      if ListOf(lists, c) == [] { return None; }
      var a := ListOf(lists, c)[0];
      assert ListOk(lists, blk, c) && a in ListOf(lists, c) && PlaceOk(sizes, blk, start, left, None, a);
      ghost var b0, l0 := blk, lists;
      RelabelTiled(sizes, blk, a, Held);
      blk := blk[a := Blk(blk[a].len, Held)];
      lists := lists[c := ListOf(lists, c)[1..]];
      forall x ensures PlaceOk(sizes, blk, start, left, Some(a), x) { assert PlaceOk(sizes, b0, start, left, None, x); }
      forall d ensures ListOk(lists, blk, d) { assert ListOk(l0, b0, d); if d == c { Popped(l0[c]); } }
      assert Lives(blk) == Lives(b0);
      r := Some(a);
    }

    /** `ls_std_putblk`: a block behind the last one of a list. */
    method Put(c: Cls, a: Addr)
      requires Valid(Some(a)) && IsClass(c) && blk[a].len == Capacity(c)
      modifies this`lists, this`blk
      ensures Valid(None) && Lives(blk) == old(Lives(blk)) && ListOf(lists, c) == old(ListOf(lists, c)) + [a]
      ensures forall d :: d != c ==> ListOf(lists, d) == old(ListOf(lists, d))
      ensures a in blk && blk[a].len == old(blk[a].len)
    {
      ghost var b0, l0 := blk, lists;
      assert ListOk(lists, blk, c) && PlaceOk(sizes, blk, start, left, Some(a), a);
      RelabelTiled(sizes, blk, a, Free(c));
      blk := blk[a := Blk(blk[a].len, Free(c))];
      lists := lists[c := ListOf(lists, c) + [a]];
      forall x ensures PlaceOk(sizes, blk, start, left, None, x) { assert PlaceOk(sizes, b0, start, left, Some(a), x); }
      forall d ensures ListOk(lists, blk, d) { assert ListOk(l0, b0, d); }
      assert Lives(blk) == Lives(b0);
    }

    /** `ls_sys_getblk`. */
    method SysGet(n: nat) returns (r: Option<Addr>)
      requires Valid(None) && 0 < n && n % ALIGN == 0
      modifies this`memory, this`regions, this`sizes, this`blk
      ensures Valid(r) && Lives(blk) == old(Lives(blk))
      ensures r.Some? ==> r.value !in old(blk) && blk[r.value].len == n && Whole(sizes, blk, r.value)
      ensures r.None? ==> blk == old(blk)
      ensures r.Some? <==> Grants(old(memory), 0)
      ensures forall i: nat :: Grants(memory, i) == Grants(old(memory), i + 1)
    {
      var ok := memory != [] && memory[0];
      if memory != [] { memory := memory[1..]; }
      if !ok { return None; }
      var a := Addr(regions, 0);
      ghost var b0, s0 := blk, sizes;
      NewRegionTiled(sizes, blk, regions, n, Held);
      sizes := sizes[regions := n];
      blk := blk[a := Blk(n, Held)];
      regions := regions + 1;
      forall x ensures PlaceOk(sizes, blk, start, left, Some(a), x) {
        assert PlaceOk(s0, b0, start, left, None, x) && Inside(s0, b0, x);
      }
      forall d ensures ListOk(lists, blk, d) { assert ListOk(lists, b0, d); }
      assert Lives(blk) == Lives(b0);
      r := Some(a);
    }

    /** The block held becomes the chunk to carve from. */
    method MakeChunk(a: Addr, n: nat)
      requires Valid(Some(a)) && left == 0 && n == blk[a].len
      modifies this`start, this`left, this`blk
      ensures Valid(None) && Lives(blk) == old(Lives(blk)) && left == n
    {
      ghost var b0 := blk;
      assert PlaceOk(sizes, blk, start, left, Some(a), a);
      RelabelTiled(sizes, blk, a, Chunk);
      forall x | x in blk ensures blk[x].place != Chunk {
        assert PlaceOk(sizes, blk, start, left, Some(a), x) && Inside(sizes, blk, x);
      }
      blk := blk[a := Blk(blk[a].len, Chunk)];
      start, left := a, n;
      forall x ensures PlaceOk(sizes, blk, start, left, None, x) { assert PlaceOk(sizes, b0, old(start), 0, Some(a), x); }
      forall d ensures ListOk(lists, blk, d) { assert ListOk(lists, b0, d); }
      assert Lives(blk) == Lives(b0);
    }

    /** The first m bytes of the chunk. */
    method TakeFront(m: nat) returns (a: Addr)
      requires Valid(None) && 0 < m <= left && m % ALIGN == 0
      modifies this`start, this`left, this`blk
      ensures Valid(Some(a)) && a == old(start) && blk[a].len == m && left == old(left) - m
      ensures Lives(blk) == old(Lives(blk)) && a !in Lives(blk)
    {
      if m == left {
        a := TakeChunk();
      } else {
        a := CutChunk(m);
      }
    }

    method TakeChunk() returns (a: Addr)
      requires Valid(None) && 0 < left
      modifies this`start, this`left, this`blk
      ensures Valid(Some(a)) && a == old(start) && blk[a].len == old(left) && left == 0
      ensures Lives(blk) == old(Lives(blk)) && a !in Lives(blk)
    {
      a := start;
      ghost var b0, m := blk, left;
      assert PlaceOk(sizes, blk, start, left, None, a);
      RelabelTiled(sizes, blk, a, Held);
      blk := blk[a := Blk(left, Held)];
      start, left := At(a, left), 0;
      forall x ensures PlaceOk(sizes, blk, start, 0, Some(a), x) { assert PlaceOk(sizes, b0, a, m, None, x); }
      forall d ensures ListOk(lists, blk, d) { assert ListOk(lists, b0, d); }
      assert Lives(blk) == Lives(b0);
    }

    method CutChunk(m: nat) returns (a: Addr)
      requires Valid(None) && 0 < m < left && m % ALIGN == 0
      modifies this`start, this`left, this`blk
      ensures Valid(Some(a)) && a == old(start) && blk[a].len == m && left == old(left) - m
      ensures Lives(blk) == old(Lives(blk)) && a !in Lives(blk)
    {
      a := start;
      ghost var b0, n := blk, left;
      assert PlaceOk(sizes, blk, start, left, None, a);
      CutTiled(sizes, blk, a, m, Held, Chunk);
      blk := blk[a := Blk(m, Held)][At(a, m) := Blk(left - m, Chunk)];
      start, left := At(a, m), left - m;
      forall x ensures PlaceOk(sizes, blk, start, left, Some(a), x) { assert PlaceOk(sizes, b0, a, n, None, x); }
      forall d ensures ListOk(lists, blk, d) { assert ListOk(lists, b0, d); }
      assert Lives(blk) == Lives(b0);
    }

    /** A chunk too short for the next block goes onto the list of its size. */
    method DropLeftover()
      requires Valid(None) && left <= SM_MAX
      modifies this`start, this`left, this`blk, this`lists
      ensures Valid(None) && left == 0 && Lives(blk) == old(Lives(blk))
      ensures forall c :: IsClass(c) && Capacity(c) > old(left) ==> ListOf(lists, c) == old(ListOf(lists, c))
    {
      if left >= RoundUp(HDR) {
        var n := left;
        var a := TakeFront(n);
        ClassHolds(n);
        Put(ClassOf(n), a);
      }
    }

    /** `freelist_alloc`: the first block on the lists from c up to the last becomes the chunk. */
    method FreelistAlloc(c: Cls) returns (ok: bool)
      requires Valid(None) && left == 0 && IsClass(c)
      modifies this`start, this`left, this`blk, this`lists
      ensures Valid(None) && Lives(blk) == old(Lives(blk))
      ensures if ok then left >= Capacity(c) else left == 0 && lists == old(lists)
      ensures ok <==> exists d :: IsClass(d) && d.Sm? == c.Sm? && Capacity(c) <= Capacity(d) && old(ListOf(lists, d)) != []
    {
      var i := c.i;
      var last := if c.Sm? then 256 else 64;
      while i < last
        invariant c.i <= i <= last && Valid(None) && left == 0 && Lives(blk) == old(Lives(blk)) && lists == old(lists)
        invariant forall j :: c.i <= j < i ==> ListOf(lists, if c.Sm? then Sm(j) else Lg(j)) == []
      {
        var d := if c.Sm? then Sm(i) else Lg(i);
        var l := lists;
        var r := Get(d);
        if r.Some? {
          assert IsClass(d) && d.Sm? == c.Sm? && Capacity(c) <= Capacity(d);
          MakeChunk(r.value, Capacity(d));
          return true;
        }
        i := i + 1;
      }
      ok := false;
      forall d | IsClass(d) && d.Sm? == c.Sm? && Capacity(c) <= Capacity(d) ensures ListOf(lists, d) == [] {
        assert d == if c.Sm? then Sm(d.i) else Lg(d.i);
      }
    }

    /**
     * `chunk_alloc`: room for `want` blocks of a size, or for as many as the chunk has, at
     * least one. When the chunk is too short, what is left of it goes onto a free list and
     * new memory is taken from the system or, failing that, from the free lists.
     */
    method ChunkAlloc(size: nat, want: nat) returns (r: Option<Addr>, n: nat)
      requires Valid(None) && 0 < size <= SM_MAX && size % ALIGN == 0 && 0 < want
      modifies this`lists, this`start, this`left, this`heap, this`memory, this`regions, this`sizes, this`blk
      ensures Valid(r) && Lives(blk) == old(Lives(blk))
      ensures r.None? ==> n == 0
      ensures r.None? <==> old(left < size && Exhausted(size)) && !Grants(old(memory), 0) && !Grants(old(memory), 1)
      ensures r.Some? ==> 1 <= n <= want && blk[r.value].len == size * n && r.value !in Lives(blk)
      decreases if left >= size then 0 else 1
    {
      if left >= size {
        r, n := Carve(size, want);
        return;
      }
      Multiple(size, want);
      var ok := Replenish(size, size * want);
      if !ok { return None, 0; }
      r, n := ChunkAlloc(size, want);
    }

    /**
     * No list searched has a block of at least this size. The search of the large lists
     * starts at the fifth; blocks on the fourth, the shortest in use, are passed over.
     */
    ghost predicate Exhausted(size: nat)
      reads this`lists
    {
      forall c {:trigger ListOf(lists, c)} ::
        IsClass(c) && size <= Capacity(c) && (c.Lg? ==> c.i >= 4) ==> ListOf(lists, c) == []
    }

    /** As many of the blocks wanted as the chunk has. */
    method Carve(size: nat, want: nat) returns (r: Option<Addr>, n: nat)
      requires Valid(None) && 0 < size <= left && size % ALIGN == 0 && 0 < want
      modifies this`start, this`left, this`blk
      ensures Valid(r) && Lives(blk) == old(Lives(blk))
      ensures r.Some? && 1 <= n <= want && blk[r.value].len == size * n && r.value !in Lives(blk)
      ensures n == want || left < size
    {
      n := want;
      if left < size * want {
        n := left / size;
        Division(left, size, want);
      } else {
        Multiple(size, want);
      }
      var a := TakeFront(size * n);
      r := Some(a);
    }

    /** The chunk is too short: a new one, from the system or from the free lists. */
    method Replenish(size: nat, total: nat) returns (ok: bool)
      requires Valid(None) && left < size <= SM_MAX && size % ALIGN == 0 && size <= total && total % ALIGN == 0
      modifies this`lists, this`start, this`left, this`heap, this`memory, this`regions, this`sizes, this`blk
      ensures Valid(None) && Lives(blk) == old(Lives(blk))
      ensures if ok then left >= size else left == 0
      ensures ok <==> Grants(old(memory), 0) || !old(Exhausted(size)) || Grants(old(memory), 1)
    {
      var get := 2 * total + RoundUp(heap / 16);
      EvenSum(total, RoundUp(heap / 16));
      DropLeftover();
      assert Exhausted(size) == old(Exhausted(size));
      var m := SysGet(get);
      if m.None? {
        ok := FromLists(size);
        if ok { return; }
        m := SysGet(get);
        if m.None? { return false; }
      }
      heap := heap + get;
      MakeChunk(m.value, get);
      ok := true;
    }

    /** The small lists from the size wanted on, then the large ones. */
    method FromLists(size: nat) returns (ok: bool)
      requires Valid(None) && left == 0 && 0 < size <= SM_MAX && size % ALIGN == 0
      modifies this`start, this`left, this`blk, this`lists
      ensures Valid(None) && Lives(blk) == old(Lives(blk))
      ensures if ok then left >= size else left == 0 && lists == old(lists)
      ensures ok <==> !old(Exhausted(size))
    {
      ClassHolds(size);
      ok := FreelistAlloc(ClassOf(size));
      if !ok {
        ok := FreelistAlloc(ClassOf(SM_MAX + 1024 + SKEW));
      }
    }

    /** Cut the last block off a run of blocks held and put it on its list, before those cut off already. */
    method CutLast(a: Addr, num: nat, k: nat, pos: nat)
      requires Valid(Some(a)) && 0 < num <= SM_MAX && num % ALIGN == 0 && 0 < k && k % ALIGN == 0
      requires blk[a].len == k + num && pos <= |ListOf(lists, ClassOf(num))|
      modifies this`lists, this`blk
      ensures Valid(Some(a)) && blk[a].len == k && Lives(blk) == old(Lives(blk))
      ensures ListOf(lists, ClassOf(num)) == Insert(old(ListOf(lists, ClassOf(num))), pos, At(a, k))
    {
      var c, b := ClassOf(num), At(a, k);
      ClassHolds(num);
      assert ListOk(lists, blk, c) && PlaceOk(sizes, blk, start, left, Some(a), a);
      CutTiled(sizes, blk, a, k, Held, Free(c));
      CutLists(lists, blk, a, k, num, c, pos);
      CutPlaces(sizes, blk, start, left, a, k, num, c);
      blk := blk[a := Blk(k, Held)][b := Blk(num, Free(c))];
      lists := lists[c := Insert(ListOf(lists, c), pos, b)];
    }

    /**
     * `refill`: up to twenty blocks are carved; the caller gets the first, and the others stand
     * in the order of their addresses at the end of the list.
     */
    method Refill(num: nat) returns (r: Option<Addr>, ghost n: nat)
      requires Valid(None) && 0 < num <= SM_MAX && num % ALIGN == 0
      modifies this`lists, this`start, this`left, this`heap, this`memory, this`regions, this`sizes, this`blk
      ensures Valid(r) && Lives(blk) == old(Lives(blk))
      ensures r.Some? ==> blk[r.value].len == num && r.value !in Lives(blk)
      ensures r.None? <==> old(left < num && Exhausted(num)) && !Grants(old(memory), 0) && !Grants(old(memory), 1)
      ensures r.Some? ==> 1 <= n <= 20 && EndsWith(ListOf(lists, ClassOf(num)), r.value, num, 1, n)
    {
      var m;
      r, m := ChunkAlloc(num, 20);
      n := m;
      if m > 1 {
        PutRun(r.value, num, m);
      }
    }

    /** The run of blocks behind the first goes onto its list. */
    method PutRun(a: Addr, num: nat, n: nat)
      requires Valid(Some(a)) && 0 < num <= SM_MAX && num % ALIGN == 0 && 1 <= n && blk[a].len == num * n
      modifies this`lists, this`blk
      ensures Valid(Some(a)) && blk[a].len == num && Lives(blk) == old(Lives(blk))
      ensures EndsWith(ListOf(lists, ClassOf(num)), a, num, 1, n)
    {
      var pos := |ListOf(lists, ClassOf(num))|;
      var m := n;
      while m > 1
        invariant 1 <= m <= n && Valid(Some(a)) && blk[a].len == num * m && Lives(blk) == old(Lives(blk))
        invariant |ListOf(lists, ClassOf(num))| == pos + n - m
        invariant EndsWith(ListOf(lists, ClassOf(num)), a, num, m, n)
      {
        m := m - 1;
        assert num * (m + 1) == num * m + num;
        Multiple(num, m);
        ghost var l := ListOf(lists, ClassOf(num));
        CutLast(a, num, num * m, pos);
        EndsWithMore(l, a, num, m, n, pos);
      }
    }

    /** `ls_palloc_slab`: a block for the rounded size, from its list, a refill or the system. */
    method PallocSlab(size: nat) returns (r: Option<Addr>)
      requires Valid(None) && 0 < size
      modifies this`lists, this`start, this`left, this`heap, this`memory, this`regions, this`sizes, this`blk
      ensures Valid(r) && Lives(blk) == old(Lives(blk))
      ensures r.Some? ==> blk[r.value].len == LiveLen(RoundUp(size)) && r.value !in Lives(blk)
      ensures r.Some? && RoundUp(size) > LG_MAX ==> Whole(sizes, blk, r.value)
    {
      var n := RoundUp(size);
      if n > LG_MAX {
        r := SysGet(n);
        return;
      }
      ClassHolds(n);
      r := Get(ClassOf(n));
      if r.None? {
        if n > SM_MAX {
          r := SysGet(LgRound(n));
        } else {
          ghost var k;
          r, k := Refill(n);
        }
      }
    }

    /** `ls_palloc`: a new block, apart from all others, with room for the size asked for. */
    method Palloc(size: nat) returns (r: Option<Addr>)
      requires Good() && size + 2 * HDR <= WORD
      modifies this
      ensures Good() && lost == old(lost)
      ensures r.None? ==> Lives(blk) == old(Lives(blk)) && Abs() == old(Abs())
      ensures r.Some? ==> r.value !in old(Lives(blk)) && Lives(blk) == old(Lives(blk))[r.value := RoundUp(size + HDR)]
      ensures r.Some? ==> r.value in blk && blk[r.value].len >= size + HDR
      ensures r.Some? ==> r.value in Abs() && |Abs()[r.value]| >= size && Abs() == old(Abs())[r.value := Abs()[r.value]]
    {
      r := PallocSlab(size + HDR);
      if r.Some? {
        var n := RoundUp(size + HDR);
        Give(r.value, n, seq(n - HDR, _ => 0));
      }
    }

    /** A block held goes to the caller, with some bytes in it. */
    method Give(a: Addr, n: nat, bytes: seq<byte>)
      requires Valid(Some(a)) && 0 < n && n % ALIGN == 0 && blk[a].len == LiveLen(n)
      requires n > LG_MAX ==> Whole(sizes, blk, a)
      requires Headed() && |bytes| + HDR == n
      modifies this`blk, this`hdr, this`data
      ensures Good() && Lives(blk) == old(Lives(blk))[a := n] && a in blk && blk[a].len == LiveLen(n) >= n
      ensures Abs() == old(Abs())[a := bytes]
    {
      ViewPut(Lives(blk), data, a, n, bytes);
      Mark(a, n);
      hdr := hdr[a := n % U32];
      data := data[a := bytes];
    }

    method Mark(a: Addr, n: nat)
      requires Valid(Some(a)) && 0 < n && n % ALIGN == 0 && blk[a].len == LiveLen(n)
      requires n > LG_MAX ==> Whole(sizes, blk, a)
      modifies this`blk
      ensures Valid(None) && Lives(blk) == old(Lives(blk))[a := n] && a in blk && blk[a].len == LiveLen(n) >= n
    {
      ghost var b0 := blk;
      RelabelTiled(sizes, blk, a, Live(n));
      blk := blk[a := Blk(blk[a].len, Live(n))];
      forall x ensures PlaceOk(sizes, blk, start, left, None, x) { assert PlaceOk(sizes, b0, start, left, Some(a), x); }
      forall d ensures ListOk(lists, blk, d) { assert ListOk(lists, b0, d); }
      assert Lives(blk) == Lives(b0)[a := n];
    }

    /** A live block taken back. */
    method TakeBack(a: Addr)
      requires Good() && a in Lives(blk) && Told(a)
      modifies this`blk
      ensures Valid(Some(a)) && a in hdr && Lives(blk) == old(Lives(blk)) - {a}
      ensures hdr[a] > 0 && (hdr[a] <= LG_MAX ==> blk[a].len == Capacity(ClassOf(hdr[a])) && IsClass(ClassOf(hdr[a])))
      ensures hdr[a] > LG_MAX ==> Whole(sizes, blk, a)
    {
      ghost var b0 := blk;
      assert PlaceOk(sizes, blk, start, left, None, a);
      if hdr[a] <= LG_MAX { ClassHolds(hdr[a]); }
      RelabelTiled(sizes, blk, a, Held);
      blk := blk[a := Blk(blk[a].len, Held)];
      forall x ensures PlaceOk(sizes, blk, start, left, Some(a), x) { assert PlaceOk(sizes, b0, start, left, None, x); }
      forall d ensures ListOk(lists, blk, d) { assert ListOk(lists, b0, d); }
      assert Lives(blk) == Lives(b0) - {a};
    }

    /** `ls_sys_putblk`: a region of its own goes back to the system. */
    method SysPut(a: Addr)
      requires Valid(Some(a)) && Whole(sizes, blk, a)
      modifies this`blk, this`sizes
      ensures Valid(None) && Lives(blk) == old(Lives(blk)) && a !in blk
    {
      ghost var b0, s0 := blk, sizes;
      DropRegionTiled(sizes, blk, a.region);
      assert a == Addr(a.region, 0);
      blk := blk - {a};
      sizes := sizes - {a.region};
      forall x ensures PlaceOk(sizes, blk, start, left, None, x) {
        assert PlaceOk(s0, b0, start, left, Some(a), x) && Apart(b0, a, x) && Inside(s0, b0, x);
      }
      forall d ensures ListOk(lists, blk, d) { assert ListOk(lists, b0, d); }
      assert Lives(blk) == Lives(b0);
    }

    /** A block whose header wrapped to a small size: the list gets its head, the rest is lost. */
    method TakeHead(a: Addr)
      requires Good() && a in Lives(blk) && !Told(a) && hdr[a] > 0
      modifies this`blk, this`lost
      ensures Valid(Some(a)) && a in hdr && Lives(blk) == old(Lives(blk)) - {a}
      ensures IsClass(ClassOf(hdr[a])) && blk[a].len == Capacity(ClassOf(hdr[a])) < old(Lives(blk)[a])
      ensures var b := At(a, blk[a].len);
        lost == old(lost) + {b} && b !in old(lost) && b in blk && blk[b].len == old(Lives(blk)[a]) - blk[a].len
    {
      ghost var b0, n := blk, Lives(blk)[a];
      var m := Capacity(ClassOf(hdr[a]));
      assert PlaceOk(sizes, blk, start, left, None, a);
      Wrapped(n);
      ClassHolds(hdr[a]);
      HeadPlaces(sizes, blk, start, left, a, m);
      HeadLists(lists, blk, a, m);
      CutTiled(sizes, blk, a, m, Held, Lost);
      blk := Headless(blk, a, m);
      lost := lost + {At(a, m)};
    }

    /**
     * `ls_pfree`: the header says whether the block goes to a list or back to the system.
     * Nothing is lost exactly when the size fits the header or what is left of it in 32 bits
     * still is that of a large block.
     */
    method Pfree(a: Addr)
      requires Good() && a in Lives(blk) && hdr[a] > 0
      modifies this
      ensures Good() && Lives(blk) == old(Lives(blk)) - {a} && Abs() == old(Abs()) - {a}
      ensures a in blk <==> old(hdr[a]) <= LG_MAX
      ensures a in blk ==> old(hdr[a]) > 0 && blk[a].place == Free(ClassOf(old(hdr[a])))
      ensures lost == old(lost) <==> old(Lives(blk)[a]) < U32 || old(Lives(blk)[a]) % U32 > LG_MAX
      ensures lost != old(lost) ==> lost == old(lost) + {At(a, blk[a].len)}
    {
      var size := hdr[a];
      ViewDrop(Lives(blk), data, a);
      HeaderTells(Lives(blk)[a]);
      if size > LG_MAX {
        TakeBack(a);
        SysPut(a);
      } else {
        PutSized(a, size);
      }
    }

    method PutSized(a: Addr, size: nat)
      requires Good() && a in Lives(blk) && 0 < size == hdr[a] <= LG_MAX
      modifies this`blk, this`lost, this`lists
      ensures Valid(None) && Lives(blk) == old(Lives(blk)) - {a}
      ensures a in blk && blk[a].place == Free(ClassOf(size))
      ensures if old(Told(a)) then lost == old(lost) else lost == old(lost) + {At(a, blk[a].len)} && lost != old(lost)
    {
      var c := ClassOf(size);
      if size == |data[a]| + HDR {
        TakeBack(a);
      } else {
        TakeHead(a);
      }
      Put(c, a);
      assert ListOk(lists, blk, c) && a in ListOf(lists, c);
    }

    /** A `memmove` into a block with a caller. */
    method Copy(a: Addr, bytes: seq<byte>)
      requires Good() && a in Lives(blk) && |bytes| <= |data[a]|
      modifies this`data
      ensures Good() && a in old(Abs()) && Abs() == old(Abs())[a := bytes + old(Abs())[a][|bytes|..]]
    {
      data := data[a := bytes + data[a][|bytes|..]];
    }

    /**
     * `ls_prealloc` of a block: kept when it is large enough and at most 1024 bytes too
     * large; otherwise a new block takes its place and begins with the old bytes, as many as
     * fit, or on failure nothing changes. Of a block whose header has wrapped to a small size
     * only the bytes the header tells of are copied, and if it wrapped to 0 the block is not
     * given back either. (The system's own `realloc` of two large blocks counts as taking one
     * and giving one back.)
     */
    method Prealloc(a: Addr, size: nat) returns (r: Option<Addr>)
      requires Good() && a in Lives(blk) && size + 2 * HDR <= WORD
      modifies this
      ensures Good() && a in old(Abs())
      ensures r.None? ==> Lives(blk) == old(Lives(blk)) && Abs() == old(Abs()) && lost == old(lost)
      ensures r.Some? ==> r.value in Lives(blk) && Lives(blk)[r.value] >= size + HDR
      ensures r.Some? ==>
        Lives(blk) == Less(old(Lives(blk)), a, old(hdr[a]))[r.value := Lives(blk)[r.value]]
      ensures r.Some? && r.value != a ==> r.value !in old(Lives(blk))
      ensures r.Some? ==> r.value in Abs()
      ensures r.Some? ==> Abs() == Less(old(Abs()), a, old(hdr[a]))[r.value := Abs()[r.value]]
      ensures r.Some? ==> var before, after := old(Abs())[a], Abs()[r.value];
        forall i :: 0 <= i < |before| && i < |after| && (old(Told(a)) || i + HDR < old(hdr[a])) ==> after[i] == before[i]
      ensures r.Some? && old(Told(a)) ==> lost == old(lost)
    {
      var n, h := RoundUp(size + HDR), hdr[a];
      HeaderTells(Lives(blk)[a]);
      if h >= n && h - n <= REALLOC_DIFF {
        return Some(a);
      }
      assert PlaceOk(sizes, blk, start, left, None, a);
      Wrapped(Lives(blk)[a]);
      var all := |data[a]|;
      var most := if h > LG_MAX && n > LG_MAX then all else if h == 0 then 0 else h - HDR;
      var kept := if most <= n - HDR then most else n - HDR;
      r := Replace(a, size, data[a][..kept]);
    }

    /** `ls_pfree_slab` for a size of 0 does nothing. */
    method Drop(a: Addr)
      requires Good() && a in Lives(blk)
      modifies this
      ensures Good() && Lives(blk) == Less(old(Lives(blk)), a, old(hdr[a])) && Abs() == Less(old(Abs()), a, old(hdr[a]))
      ensures old(Told(a)) ==> lost == old(lost)
    {
      HeaderTells(Lives(blk)[a]);
      if hdr[a] != 0 { Pfree(a); }
    }

    /** A new block that begins with the given bytes in place of an old one. */
    method Replace(a: Addr, size: nat, bytes: seq<byte>) returns (r: Option<Addr>)
      requires Good() && a in Lives(blk) && size + 2 * HDR <= WORD && |bytes| + HDR <= RoundUp(size + HDR)
      modifies this
      ensures Good()
      ensures r.None? ==> Lives(blk) == old(Lives(blk)) && Abs() == old(Abs()) && lost == old(lost)
      ensures r.Some? ==> r.value !in old(Lives(blk))
      ensures r.Some? ==>
        Lives(blk) == Less(old(Lives(blk)), a, old(hdr[a]))[r.value := RoundUp(size + HDR)]
      ensures r.Some? ==> r.value in Abs()
      ensures r.Some? ==> Abs() == Less(old(Abs()), a, old(hdr[a]))[r.value := Abs()[r.value]]
      ensures r.Some? ==> |bytes| <= |Abs()[r.value]| && Abs()[r.value][..|bytes|] == bytes
      ensures r.Some? ==> |Abs()[r.value]| + HDR == RoundUp(size + HDR)
      ensures r.Some? && old(Told(a)) ==> lost == old(lost)
    {
      r := FillNew(size, bytes);
      if r.Some? {
        LessPut(old(Lives(blk)), a, hdr[a], r.value, RoundUp(size + HDR));
        LessPut(old(Abs()), a, hdr[a], r.value, Abs()[r.value]);
        Drop(a);
      }
    }

    method FillNew(size: nat, bytes: seq<byte>) returns (r: Option<Addr>)
      requires Good() && size + 2 * HDR <= WORD && |bytes| + HDR <= RoundUp(size + HDR)
      modifies this
      ensures Good() && lost == old(lost)
      ensures r.None? ==> Lives(blk) == old(Lives(blk)) && Abs() == old(Abs())
      ensures r.Some? ==> r.value !in old(Lives(blk)) && Lives(blk) == old(Lives(blk))[r.value := RoundUp(size + HDR)]
      ensures r.Some? ==> r.value in Abs() && Abs() == old(Abs())[r.value := Abs()[r.value]]
      ensures r.Some? ==> |bytes| <= |Abs()[r.value]| && Abs()[r.value][..|bytes|] == bytes
      ensures r.Some? ==> |Abs()[r.value]| + HDR == RoundUp(size + HDR)
    {
      r := Palloc(size);
      if r.Some? { Copy(r.value, bytes); }
    }

    /**
     * Every byte of every region taken from the system is in exactly one block, and that
     * block is with a caller, on the free list of exactly its size, the chunk, or lost.
     */
    lemma EveryByteAccounted(r: nat, x: nat) returns (a: Addr)
      requires Good() && r in sizes && x < sizes[r]
      ensures Covers(blk, a, r, x) && forall b :: Covers(blk, b, r, x) ==> b == a
      ensures match blk[a].place
        case Live(n) => a in hdr && n <= blk[a].len && hdr[a] == n % U32
        case Free(c) => a in ListOf(lists, c) && blk[a].len == Capacity(c)
        case Chunk => a == start && blk[a].len == left
        case Held => false
        case Lost => a in lost
    {
      a := EveryByteOnce(sizes, blk, r, x);
      assert PlaceOk(sizes, blk, start, left, None, a);
      if blk[a].place.Free? { assert ListOk(lists, blk, blk[a].place.cls); }
      if blk[a].place.Live? { assert a in Lives(blk); }
    }

    /** Blocks with callers do not overlap. */
    lemma LiveApart(a: Addr, b: Addr)
      requires Good() && a in Lives(blk) && b in Lives(blk) && a != b && a.region == b.region
      ensures a.off + Lives(blk)[a] <= b.off || b.off + Lives(blk)[b] <= a.off
    {
      assert Apart(blk, a, b) && Apart(blk, b, a);
      assert PlaceOk(sizes, blk, start, left, None, a) && PlaceOk(sizes, blk, start, left, None, b);
    }
  }

  lemma CutLists(lists: map<Cls, seq<Addr>>, blk: map<Addr, Blk>, a: Addr, k: nat, num: nat, c: Cls, pos: nat)
    requires forall d {:trigger ListOk(lists, blk, d)} :: ListOk(lists, blk, d)
    requires a in blk && blk[a].place == Held && At(a, k) !in blk && 0 < k && pos <= |ListOf(lists, c)|
    ensures var blk', lists' := blk[a := Blk(k, Held)][At(a, k) := Blk(num, Free(c))],
                                lists[c := Insert(ListOf(lists, c), pos, At(a, k))];
      forall d {:trigger ListOk(lists', blk', d)} :: ListOk(lists', blk', d)
  {
    var b := At(a, k);
    var blk', lists' := blk[a := Blk(k, Held)][b := Blk(num, Free(c))], lists[c := Insert(ListOf(lists, c), pos, b)];
    assert ListOk(lists, blk, c);
    Inserted(ListOf(lists, c), pos, b);
    forall d ensures ListOk(lists', blk', d) { assert ListOk(lists, blk, d); }
  }

  lemma CutPlaces(sizes: map<nat, nat>, blk: map<Addr, Blk>, start: Addr, left: nat, a: Addr, k: nat, num: nat, c: Cls)
    requires forall x {:trigger PlaceOk(sizes, blk, start, left, Some(a), x)} :: PlaceOk(sizes, blk, start, left, Some(a), x)
    requires a in blk && blk[a].place == Held && At(a, k) !in blk && 0 < k && k % ALIGN == 0
    requires IsClass(c) && num == Capacity(c) && num % ALIGN == 0
    ensures var blk' := blk[a := Blk(k, Held)][At(a, k) := Blk(num, Free(c))];
      && (forall x {:trigger PlaceOk(sizes, blk', start, left, Some(a), x)} :: PlaceOk(sizes, blk', start, left, Some(a), x))
      && Lives(blk') == Lives(blk)
  {
    var blk' := blk[a := Blk(k, Held)][At(a, k) := Blk(num, Free(c))];
    forall x ensures PlaceOk(sizes, blk', start, left, Some(a), x) { assert PlaceOk(sizes, blk, start, left, Some(a), x); }
  }

  /** The list ends with the blocks at m, ..., n - 1 times num bytes behind a. */
  ghost predicate EndsWith(l: seq<Addr>, a: Addr, num: nat, m: nat, n: nat) {
    m <= n && n - m <= |l| && forall i {:trigger At(a, num * i)} :: m <= i < n ==> l[|l| - n + i] == At(a, num * i)
  }

  lemma EndsWithMore(l: seq<Addr>, a: Addr, num: nat, m: nat, n: nat, pos: nat)
    requires m < n && EndsWith(l, a, num, m + 1, n) && |l| == pos + n - (m + 1)
    ensures EndsWith(Insert(l, pos, At(a, num * m)), a, num, m, n)
  {
    var l' := Insert(l, pos, At(a, num * m));
    forall i | m <= i < n ensures l'[|l'| - n + i] == At(a, num * i) {
      InsertAt(l, pos, At(a, num * m), pos + i - m);
      if i > m { assert l[|l| - n + i] == At(a, num * i); }
    }
  }

  function Insert(l: seq<Addr>, pos: nat, b: Addr): (m: seq<Addr>)
    requires pos <= |l|
    ensures |m| == |l| + 1
  {
    l[..pos] + [b] + l[pos..]
  }

  lemma InsertAt(l: seq<Addr>, pos: nat, b: Addr, i: nat)
    requires pos <= |l| && i <= |l|
    ensures Insert(l, pos, b)[i] == if i < pos then l[i] else if i == pos then b else l[i - 1]
  {
  }

  lemma Inserted(l: seq<Addr>, pos: nat, b: Addr)
    requires pos <= |l| && b !in l && forall i, j :: 0 <= i < j < |l| ==> l[i] != l[j]
    ensures forall a :: a in Insert(l, pos, b) <==> a in l || a == b
    ensures forall i, j :: 0 <= i < j <= |l| ==> Insert(l, pos, b)[i] != Insert(l, pos, b)[j]
  {
    assert l == l[..pos] + l[pos..];
    forall i, j | 0 <= i < j <= |l| ensures Insert(l, pos, b)[i] != Insert(l, pos, b)[j] {
      InsertAt(l, pos, b, i);
      InsertAt(l, pos, b, j);
    }
  }

  lemma Multiple(size: nat, want: nat)
    requires 0 < size && size % ALIGN == 0 && 0 < want
    ensures (size * want) % ALIGN == 0 && size <= size * want
  {
    MultipleOf(size / ALIGN, want);
  }

  lemma MultipleOf(k: nat, want: nat)
    ensures (ALIGN * k * want) % ALIGN == 0
    ensures 0 < want ==> ALIGN * k <= ALIGN * k * want
  {
    var x := k * want;
    Associates(k, want);
    assert (16 * x) % 16 == 0;
    if 0 < want { Larger(k, 1, want); }
  }

  lemma Associates(k: nat, want: nat)
    ensures ALIGN * k * want == 16 * (k * want)
  {
  }

  lemma EvenSum(a: nat, b: nat)
    requires a % ALIGN == 0 && b % ALIGN == 0
    ensures (2 * a + b) % ALIGN == 0
  {
    var x, y := a / 16, b / 16;
    assert a == 16 * x && b == 16 * y;
    assert 2 * a + b == 16 * (2 * x + y);
  }

  lemma Larger(size: nat, a: nat, b: nat)
    requires a <= b
    ensures size * a <= size * b
  {
  }

  lemma Division(left: nat, size: nat, want: nat)
    requires 0 < size && size % ALIGN == 0 && size <= left < size * want
    ensures var n := left / size; 1 <= n <= want && 0 < size * n <= left && (size * n) % ALIGN == 0 && left - size * n < size
  {
    var n := left / size;
    assert left == size * n + left % size;
    if n > want { Larger(size, want, n); }
    Multiple(size, n);
  }

  lemma Popped(s: seq<Addr>)
    requires s != [] && forall i, j :: 0 <= i < j < |s| ==> s[i] != s[j]
    ensures forall a :: a in s[1..] <==> a in s && a != s[0]
  {
    forall a | a in s && a != s[0] ensures a in s[1..] {
      var i :| 0 <= i < |s| && s[i] == a;
      assert s[1..][i - 1] == a;
    }
  }
}
