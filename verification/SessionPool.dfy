/** The session allocator (`ls_xpool.c`, single-threaded configuration, x86-64 sizes).

    The pool hands out blocks carved from 4096-byte superblocks and, above that size,
    blocks of their own.  Block headers, list links and miss counters live in the same
    memory as the data; here the header sizes, lists and counters are fields, and every
    place where the allocator writes one of them into a superblock also overwrites the
    bytes it occupies, so that the caller's bytes are only kept if nothing overlaps.
 */
module SessionPool {

  type byte = bv8

  const HDR := 16                  // sizeof(ls_xpool_header_t)
  const LINK := 24                 // header and `next` pointer
  const SUPBLK_SIZE := 4096
  const MAXLGBLK_SIZE := 4096
  const MAXSMBLK_SIZE := 1024
  const FLMAXBYTES := 256
  const NUMFREELISTS := 16
  const RESIDUE := 272             // (LS_XPOOL_NUMFREELISTS + 1) * LS_XPOOL_FLINTERVAL
  const MAXGETABLK_TRYS := 3
  const MAXBLK_TRYS := 3
  const LINKBYTES := 8             // sizeof(ls_xblkctrl_t)
  const TWO_32 := 0x1_0000_0000

  /** A block: at an offset of a superblock, or with memory of its own. */
  datatype Addr = In(sb: nat, off: nat) | Big(id: nat)

  /** Where a block is: on the small or large list, on free list i, with the caller, used
      by the pool for its free-list heads, given up for good, or between two of these. */
  datatype Place = Sm | Lg | Fl(i: nat) | Live | Own | Lost | Held

  /** `ls_xpool_roundup`. */
  function RoundUp(n: nat): (r: nat)
    ensures n <= r < n + 16 && r % 16 == 0
  {
    (n + 15) / 16 * 16
  }

  /** The 32-bit block size computed by `ls_xpool_alloc`. */
  function BlockSize(size: nat): nat {
    RoundUp((if size == 0 then 1 else size) + HDR) % TWO_32
  }

  /** The block size has room for the header and the request exactly when the request is at
      most 2^32 - 32; above that the 32-bit size wraps. */
  lemma BlockSizeFits(size: nat)
    requires size < TWO_32
    ensures BlockSize(size) >= size + HDR <==> size <= TWO_32 - 32
    ensures size <= TWO_32 - 32 ==> BlockSize(size) >= 32 && BlockSize(size) % 16 == 0
  {
  }

  /** The largest 32-bit request gets a block of 16 bytes, none of them for the request. */
  lemma LargestWraps()
    ensures BlockSize(TWO_32 - 1) == 16
  {
  }

  // ---------- tilings ----------

  /** The carved blocks cover every superblock from end to end without overlap. */
  ghost predicate Tiled(n: nat, hdr: map<Addr, nat>) {
    && (forall a {:trigger Inside(n, hdr, a)} | a in hdr && a.In? :: Inside(n, hdr, a))
    && (forall sb | 0 <= sb < n :: In(sb, 0) in hdr)
    && (forall a {:trigger Continued(hdr, a)} | a in hdr && a.In? :: Continued(hdr, a))
    && (forall a, b {:trigger Apart(hdr, a, b)} | a in hdr && b in hdr && a.In? && b.In? :: Apart(hdr, a, b))
  }

  ghost predicate Covers(hdr: map<Addr, nat>, a: Addr, sb: nat, x: nat) {
    a in hdr && a.In? && a.sb == sb && a.off <= x < a.off + hdr[a]
  }

  /** Every byte of every superblock belongs to exactly one block. */
  lemma EveryByteOnce(n: nat, hdr: map<Addr, nat>, sb: nat, x: nat) returns (a: Addr)
    requires Tiled(n, hdr) && sb < n && x < SUPBLK_SIZE
    ensures Covers(hdr, a, sb, x)
    ensures forall b | Covers(hdr, b, sb, x) :: b == a
  {
    a := In(sb, 0);
    while !(x < a.off + hdr[a])
      invariant a in hdr && a.In? && a.sb == sb && a.off <= x
      decreases x - a.off
    {
      assert Continued(hdr, a) && Inside(n, hdr, a);
      a := In(sb, a.off + hdr[a]);
    }
    forall b | Covers(hdr, b, sb, x)
      ensures b == a
    {
      assert Apart(hdr, a, b) && Apart(hdr, b, a);
    }
  }

  ghost predicate Inside(n: nat, hdr: map<Addr, nat>, a: Addr)
    requires a in hdr && a.In?
  {
    a.sb < n && 0 < hdr[a] && a.off + hdr[a] <= SUPBLK_SIZE
  }

  /** A block ends where another begins, or at the end of its superblock. */
  ghost predicate Continued(hdr: map<Addr, nat>, a: Addr)
    requires a in hdr && a.In?
  {
    a.off + hdr[a] < SUPBLK_SIZE ==> In(a.sb, a.off + hdr[a]) in hdr
  }

  /** Neighbours in one superblock do not overlap. */
  ghost predicate Apart(hdr: map<Addr, nat>, a: Addr, b: Addr)
    requires a in hdr && b in hdr && a.In? && b.In?
  {
    a.sb == b.sb && a.off < b.off ==> a.off + hdr[a] <= b.off
  }

  /** Cutting the last `size` bytes off a block leaves a tiling. */
  lemma CutTiled(n: nat, hdr: map<Addr, nat>, a: Addr, size: nat)
    requires Tiled(n, hdr) && a in hdr && a.In? && 0 < size < hdr[a]
    ensures In(a.sb, a.off + (hdr[a] - size)) !in hdr
    ensures Tiled(n, hdr[a := hdr[a] - size][In(a.sb, a.off + (hdr[a] - size)) := size])
  {
    var b := In(a.sb, a.off + (hdr[a] - size));
    assert b !in hdr by {
      assert Inside(n, hdr, a) && (b in hdr ==> Apart(hdr, a, b));
    }
    var hdr' := hdr[a := hdr[a] - size][b := size];
    forall x | x in hdr' && x.In?
      ensures Inside(n, hdr', x) && Continued(hdr', x)
    {
      var x0 := if x == b then a else x;
      assert Inside(n, hdr, x0) && Continued(hdr, x0);
    }
    forall x, y | x in hdr' && y in hdr' && x.In? && y.In?
      ensures Apart(hdr', x, y)
    {
      var x0 := if x == b then a else x;
      var y0 := if y == b then a else y;
      assert Apart(hdr, x0, y0) && Apart(hdr, y0, x0) && Inside(n, hdr, x0);
    }
  }

  lemma GrowTiled(n: nat, hdr: map<Addr, nat>)
    requires Tiled(n, hdr)
    ensures Tiled(n + 1, hdr[In(n, 0) := SUPBLK_SIZE])
  {
    var hdr' := hdr[In(n, 0) := SUPBLK_SIZE];
    forall a | a in hdr' && a.In?
      ensures Inside(n + 1, hdr', a) && Continued(hdr', a)
    {
      assert a == In(n, 0) || (Inside(n, hdr, a) && Continued(hdr, a));
    }
    forall a, b | a in hdr' && b in hdr' && a.In? && b.In?
      ensures Apart(hdr', a, b)
    {
      assert a in hdr ==> Inside(n, hdr, a);
      assert b in hdr ==> Inside(n, hdr, b);
      assert a == In(n, 0) || b == In(n, 0) || Apart(hdr, a, b);
    }
  }

  /** `list` holds exactly the blocks placed as `tag`, each once. */
  ghost predicate Listed(place: map<Addr, Place>, list: seq<Addr>, tag: Place) {
    && (forall i | 0 <= i < |list| :: list[i] in place && place[list[i]] == tag)
    && (forall i, j | 0 <= i < j < |list| :: list[i] != list[j])
    && (forall a | a in place && place[a] == tag :: a in list)
  }

  lemma ListedPush(place: map<Addr, Place>, list: seq<Addr>, tag: Place, a: Addr)
    requires Listed(place, list, tag) && a in place && place[a] != tag
    ensures Listed(place[a := tag], [a] + list, tag)
  {
  }

  lemma ListedDrop(place: map<Addr, Place>, list: seq<Addr>, tag: Place, i: nat, p: Place)
    requires Listed(place, list, tag) && i < |list| && p != tag
    ensures Listed(place[list[i] := p], list[..i] + list[i + 1..], tag)
  {
    var rest := list[..i] + list[i + 1..];
    var place' := place[list[i] := p];
    forall a | a in place' && place'[a] == tag
      ensures a in rest
    {
      var j :| 0 <= j < |list| && list[j] == a;
      assert rest[if j < i then j else j - 1] == a;
    }
  }

  lemma ListedOther(place: map<Addr, Place>, list: seq<Addr>, tag: Place, a: Addr, p: Place)
    requires Listed(place, list, tag) && (a in place ==> place[a] != tag) && p != tag
    ensures Listed(place[a := p], list, tag)
  {
  }

  predicate IsList(t: Place) {
    t == Sm || t == Lg || (t.Fl? && t.i < NUMFREELISTS)
  }

  function EmptyLists(): (m: map<Place, seq<Addr>>)
    ensures forall t :: t in m <==> IsList(t)
    ensures forall t | t in m :: m[t] == []
  {
    (map i | 0 <= i < NUMFREELISTS :: Fl(i) := []) + map[Sm := [], Lg := []]
  }

  ghost predicate AllListed(place: map<Addr, Place>, lists: map<Place, seq<Addr>>) {
    && (forall t :: t in lists <==> IsList(t))
    && (forall t {:trigger Listed(place, lists[t], t)} | t in lists :: Listed(place, lists[t], t))
  }

  lemma AllListedDrop(place: map<Addr, Place>, lists: map<Place, seq<Addr>>, t: Place, i: nat)
    requires AllListed(place, lists) && t in lists && i < |lists[t]|
    ensures AllListed(place[lists[t][i] := Held], lists[t := lists[t][..i] + lists[t][i + 1..]])
  {
    ListedDrop(place, lists[t], t, i, Held);
    forall u | u in lists && u != t
      ensures Listed(place[lists[t][i] := Held], lists[u], u)
    {
      ListedOther(place, lists[u], u, lists[t][i], Held);
    }
  }

  lemma AllListedPush(place: map<Addr, Place>, lists: map<Place, seq<Addr>>, t: Place, a: Addr)
    requires AllListed(place, lists) && t in lists && a in place && place[a] == Held
    ensures AllListed(place[a := t], lists[t := [a] + lists[t]])
  {
    ListedPush(place, lists[t], t, a);
    forall u | u in lists && u != t
      ensures Listed(place[a := t], lists[u], u)
    {
      ListedOther(place, lists[u], u, a, t);
    }
  }

  /** A block on no list may change places outside the lists. */
  lemma AllListedElsewhere(place: map<Addr, Place>, lists: map<Place, seq<Addr>>, a: Addr, p: Place)
    requires AllListed(place, lists) && (a in place ==> !IsList(place[a])) && !IsList(p)
    ensures AllListed(place[a := p], lists)
  {
    forall u | u in lists
      ensures Listed(place[a := p], lists[u], u)
    {
      ListedOther(place, lists[u], u, a, p);
    }
  }

  /** What a block in each place may look like. */
  ghost predicate Shaped(a: Addr, size: nat, p: Place) {
    && size % 16 == 0
    && (a.Big? ==> size > MAXLGBLK_SIZE && p == Live)
    && (a.In? ==> a.off % 16 == 0 && 32 <= size <= MAXLGBLK_SIZE)
    && (p == Sm || p == Lg ==> size >= RESIDUE)
    && (p.Fl? ==> p.i < NUMFREELISTS && size == 16 * (p.i + 1))
  }

  /** Bytes [off + HDR, off + size) of the block's superblock, or the big block's data. */
  ghost function Payload(supers: seq<seq<byte>>, bigs: map<nat, seq<byte>>, a: Addr, size: nat): seq<byte> {
    match a
    case In(sb, off) =>
      if sb < |supers| && HDR <= size && off + size <= |supers[sb]| then supers[sb][off + HDR..off + size] else []
    case Big(id) => if id in bigs then bigs[id] else []
  }

  /** Writing the first n bytes of block a leaves the payload of every other block alone, and
      its own as long as only the header is written. */
  lemma ScribbleFrame(hdr: map<Addr, nat>, supers: seq<seq<byte>>, bigs: map<nat, seq<byte>>,
                      a: Addr, junk: seq<byte>, b: Addr)
    requires Tiled(|supers|, hdr) && forall i | 0 <= i < |supers| :: |supers[i]| == SUPBLK_SIZE
    requires a in hdr && a.In? && |junk| <= hdr[a] && b in hdr && (b == a ==> |junk| <= HDR)
    requires b.In? ==> HDR <= hdr[b]
    ensures Inside(|supers|, hdr, a)
    ensures var row := supers[a.sb];
      Payload(supers[a.sb := row[..a.off] + junk + row[a.off + |junk|..]], bigs, b, hdr[b]) == Payload(supers, bigs, b, hdr[b])
  {
    assert Inside(|supers|, hdr, a) && (b.In? ==> Inside(|supers|, hdr, b));
    var row := supers[a.sb];
    var row' := row[..a.off] + junk + row[a.off + |junk|..];
    assert forall x | 0 <= x < |row| && !(a.off <= x < a.off + |junk|) :: row'[x] == row[x];
    if b.In? && b.sb == a.sb {
      assert Apart(hdr, a, b) && Apart(hdr, b, a);
      assert row'[b.off + HDR..b.off + hdr[b]] == row[b.off + HDR..b.off + hdr[b]];
    }
  }

  ghost predicate BigOk(bigs: map<nat, seq<byte>>, hdr: map<Addr, nat>, a: Addr)
    requires a in hdr && a.Big?
  {
    a.id in bigs && |bigs[a.id]| + HDR == hdr[a]
  }

  ghost predicate MemoryOk(supers: seq<seq<byte>>, bigs: map<nat, seq<byte>>, hdr: map<Addr, nat>, place: map<Addr, Place>) {
    && Tiled(|supers|, hdr)
    && (forall i | 0 <= i < |supers| :: |supers[i]| == SUPBLK_SIZE)
    && place.Keys == hdr.Keys
    && (forall a {:trigger Shaped(a, hdr[a], place[a])} | a in hdr :: Shaped(a, hdr[a], place[a]))
    && (forall a {:trigger BigOk(bigs, hdr, a)} | a in hdr && a.Big? :: BigOk(bigs, hdr, a))
  }

  ghost function Handed(supers: seq<seq<byte>>, bigs: map<nat, seq<byte>>, hdr: map<Addr, nat>, place: map<Addr, Place>): map<Addr, seq<byte>>
    requires place.Keys == hdr.Keys
  {
    map a | a in place && place[a] == Live :: Payload(supers, bigs, a, hdr[a])
  }

  /** A block may change places as long as its shape allows. */
  lemma MoveKeepsMemory(supers: seq<seq<byte>>, bigs: map<nat, seq<byte>>, hdr: map<Addr, nat>, place: map<Addr, Place>,
                        a: Addr, p: Place)
    requires MemoryOk(supers, bigs, hdr, place) && a in place && Shaped(a, hdr[a], p)
    ensures MemoryOk(supers, bigs, hdr, place[a := p])
  {
    var place' := place[a := p];
    forall b | b in hdr
      ensures Shaped(b, hdr[b], place'[b])
    {
      assert Shaped(b, hdr[b], place[b]);
    }
  }

  lemma MoveUnseen(supers: seq<seq<byte>>, bigs: map<nat, seq<byte>>, hdr: map<Addr, nat>, place: map<Addr, Place>,
                   a: Addr, p: Place)
    requires place.Keys == hdr.Keys && a in place && place[a] != Live && p != Live
    ensures place[a := p].Keys == hdr.Keys
    ensures Handed(supers, bigs, hdr, place[a := p]) == Handed(supers, bigs, hdr, place)
  {
  }

  lemma MoveBack(supers: seq<seq<byte>>, bigs: map<nat, seq<byte>>, hdr: map<Addr, nat>, place: map<Addr, Place>,
                 a: Addr, p: Place)
    requires place.Keys == hdr.Keys && a in place && place[a] == Live && p != Live
    ensures place[a := p].Keys == hdr.Keys
    ensures Handed(supers, bigs, hdr, place[a := p]) == Handed(supers, bigs, hdr, place) - {a}
  {
  }

  lemma MoveOut(supers: seq<seq<byte>>, bigs: map<nat, seq<byte>>, hdr: map<Addr, nat>, place: map<Addr, Place>,
                a: Addr)
    requires place.Keys == hdr.Keys && a in place && place[a] != Live
    ensures place[a := Live].Keys == hdr.Keys
    ensures Handed(supers, bigs, hdr, place[a := Live]) ==
      Handed(supers, bigs, hdr, place)[a := Payload(supers, bigs, a, hdr[a])]
  {
  }

  lemma CutKeepsMemory(supers: seq<seq<byte>>, bigs: map<nat, seq<byte>>, hdr: map<Addr, nat>, place: map<Addr, Place>,
                       a: Addr, b: Addr, rest: nat, size: nat)
    requires MemoryOk(supers, bigs, hdr, place) && a in hdr && a.In? && place[a] in {Held, Sm, Lg}
    requires RESIDUE <= rest && 32 <= size && size % 16 == 0 && rest + size == hdr[a]
    requires b == In(a.sb, a.off + rest) && b !in hdr
    requires Tiled(|supers|, hdr[a := rest][b := size])
    ensures MemoryOk(supers, bigs, hdr[a := rest][b := size], place[b := Held])
    ensures Handed(supers, bigs, hdr[a := rest][b := size], place[b := Held]) == Handed(supers, bigs, hdr, place)
  {
    var hdr', place' := hdr[a := rest][b := size], place[b := Held];
    forall x | x in hdr'
      ensures Shaped(x, hdr'[x], place'[x]) && (x.Big? ==> BigOk(bigs, hdr', x))
    {
      var x0 := if x == b then a else x;
      assert Shaped(x0, hdr[x0], place[x0]) && (x0.Big? ==> BigOk(bigs, hdr, x0));
    }
  }

  lemma GrowKeepsMemory(supers: seq<seq<byte>>, bigs: map<nat, seq<byte>>, hdr: map<Addr, nat>, place: map<Addr, Place>,
                        row: seq<byte>)
    requires MemoryOk(supers, bigs, hdr, place) && |row| == SUPBLK_SIZE
    requires Tiled(|supers| + 1, hdr[In(|supers|, 0) := SUPBLK_SIZE])
    ensures In(|supers|, 0) !in hdr
    ensures MemoryOk(supers + [row], bigs, hdr[In(|supers|, 0) := SUPBLK_SIZE], place[In(|supers|, 0) := Held])
  {
    var n := |supers|;
    assert In(n, 0) in hdr ==> Inside(n, hdr, In(n, 0));
    var hdr', place' := hdr[In(n, 0) := SUPBLK_SIZE], place[In(n, 0) := Held];
    forall a | a in hdr'
      ensures Shaped(a, hdr'[a], place'[a]) && (a.Big? ==> BigOk(bigs, hdr', a))
    {
      assert a in hdr ==> Shaped(a, hdr[a], place[a]) && (a.Big? ==> BigOk(bigs, hdr, a));
    }
  }

  lemma GrowUnseen(supers: seq<seq<byte>>, bigs: map<nat, seq<byte>>, hdr: map<Addr, nat>, place: map<Addr, Place>,
                   row: seq<byte>)
    requires MemoryOk(supers, bigs, hdr, place) && In(|supers|, 0) !in hdr
    ensures Handed(supers + [row], bigs, hdr[In(|supers|, 0) := SUPBLK_SIZE], place[In(|supers|, 0) := Held]) ==
      Handed(supers, bigs, hdr, place)
  {
    forall a | a in hdr
      ensures Payload(supers + [row], bigs, a, hdr[a]) == Payload(supers, bigs, a, hdr[a])
    {
      assert a.In? ==> Inside(|supers|, hdr, a);
    }
  }

  /** A block in the caller's hands shows all its bytes after the header. */
  lemma LiveSize(supers: seq<seq<byte>>, bigs: map<nat, seq<byte>>, hdr: map<Addr, nat>, place: map<Addr, Place>, a: Addr)
    requires MemoryOk(supers, bigs, hdr, place) && a in Handed(supers, bigs, hdr, place)
    ensures |Handed(supers, bigs, hdr, place)[a]| + HDR == hdr[a]
  {
    assert Shaped(a, hdr[a], place[a]) && (a.Big? ==> BigOk(bigs, hdr, a)) && (a.In? ==> Inside(|supers|, hdr, a));
  }

  /** A big block is outside every superblock. */
  lemma BigTiled(n: nat, hdr: map<Addr, nat>, hdr': map<Addr, nat>)
    requires Tiled(n, hdr)
    requires forall a: Addr | a.In? :: (a in hdr' <==> a in hdr) && (a in hdr ==> hdr'[a] == hdr[a])
    ensures Tiled(n, hdr')
  {
    forall a | a in hdr' && a.In?
      ensures Inside(n, hdr', a) && Continued(hdr', a)
    {
      assert Inside(n, hdr, a) && Continued(hdr, a);
    }
    forall a, b | a in hdr' && b in hdr' && a.In? && b.In?
      ensures Apart(hdr', a, b)
    {
      assert Apart(hdr, a, b);
    }
  }

  lemma BigAdded(supers: seq<seq<byte>>, bigs: map<nat, seq<byte>>, hdr: map<Addr, nat>, place: map<Addr, Place>,
                 id: nat, data: seq<byte>)
    requires MemoryOk(supers, bigs, hdr, place) && Big(id) !in hdr
    requires |data| + HDR > MAXLGBLK_SIZE && |data| % 16 == 0
    ensures MemoryOk(supers, bigs[id := data], hdr[Big(id) := |data| + HDR], place[Big(id) := Live])
  {
    var p := Big(id);
    var bigs', hdr', place' := bigs[id := data], hdr[p := |data| + HDR], place[p := Live];
    BigTiled(|supers|, hdr, hdr');
    forall a | a in hdr'
      ensures Shaped(a, hdr'[a], place'[a]) && (a.Big? ==> BigOk(bigs', hdr', a))
    {
      assert a != p ==> Shaped(a, hdr[a], place[a]) && (a.Big? ==> BigOk(bigs, hdr, a));
    }
  }

  lemma BigSeen(supers: seq<seq<byte>>, bigs: map<nat, seq<byte>>, hdr: map<Addr, nat>, place: map<Addr, Place>,
                id: nat, data: seq<byte>)
    requires place.Keys == hdr.Keys && Big(id) !in hdr
    ensures Handed(supers, bigs[id := data], hdr[Big(id) := |data| + HDR], place[Big(id) := Live]) ==
      Handed(supers, bigs, hdr, place)[Big(id) := data]
  {
  }

  lemma BigRemoved(supers: seq<seq<byte>>, bigs: map<nat, seq<byte>>, hdr: map<Addr, nat>, place: map<Addr, Place>, id: nat)
    requires MemoryOk(supers, bigs, hdr, place) && Big(id) in hdr
    ensures MemoryOk(supers, bigs - {id}, hdr - {Big(id)}, place - {Big(id)})
    ensures Handed(supers, bigs - {id}, hdr - {Big(id)}, place - {Big(id)}) == Handed(supers, bigs, hdr, place) - {Big(id)}
  {
    var p := Big(id);
    var bigs', hdr', place' := bigs - {id}, hdr - {p}, place - {p};
    BigTiled(|supers|, hdr, hdr');
    forall a | a in hdr'
      ensures Shaped(a, hdr'[a], place'[a]) && (a.Big? ==> BigOk(bigs', hdr', a))
    {
      assert Shaped(a, hdr[a], place[a]) && (a.Big? ==> BigOk(bigs, hdr, a));
    }
  }

  function Splice(row: seq<byte>, at: nat, bytes: seq<byte>): (r: seq<byte>)
    requires at + |bytes| <= |row|
    ensures |r| == |row|
    ensures forall x | 0 <= x < |row| :: r[x] == if at <= x < at + |bytes| then bytes[x - at] else row[x]
  {
    row[..at] + bytes + row[at + |bytes|..]
  }

  /** Bytes written inside the payload of one block stay inside it. */
  lemma WriteSmall(supers: seq<seq<byte>>, bigs: map<nat, seq<byte>>, hdr: map<Addr, nat>, place: map<Addr, Place>,
                   p: Addr, at: nat, bytes: seq<byte>)
    requires MemoryOk(supers, bigs, hdr, place) && p in Handed(supers, bigs, hdr, place) && p.In?
    requires at + |bytes| <= |Handed(supers, bigs, hdr, place)[p]|
    ensures Inside(|supers|, hdr, p) && p.off + HDR + at + |bytes| <= |supers[p.sb]|
    ensures var supers' := supers[p.sb := Splice(supers[p.sb], p.off + HDR + at, bytes)];
      var before := Handed(supers, bigs, hdr, place);
      && MemoryOk(supers', bigs, hdr, place)
      && Handed(supers', bigs, hdr, place) == before[p := Splice(before[p], at, bytes)]
  {
    LiveSize(supers, bigs, hdr, place, p);
    assert Inside(|supers|, hdr, p) && |supers[p.sb]| == SUPBLK_SIZE && Shaped(p, hdr[p], place[p]);
    var supers' := supers[p.sb := Splice(supers[p.sb], p.off + HDR + at, bytes)];
    forall b | b in place && place[b] == Live && b != p
      ensures Payload(supers', bigs, b, hdr[b]) == Payload(supers, bigs, b, hdr[b])
    {
      if b.In? && b.sb == p.sb {
        assert Apart(hdr, p, b) && Apart(hdr, b, p) && Inside(|supers|, hdr, b);
      }
    }
    assert Payload(supers', bigs, p, hdr[p]) == Splice(Payload(supers, bigs, p, hdr[p]), at, bytes);
  }

  lemma WriteBig(supers: seq<seq<byte>>, bigs: map<nat, seq<byte>>, hdr: map<Addr, nat>, place: map<Addr, Place>,
                 p: Addr, at: nat, bytes: seq<byte>)
    requires MemoryOk(supers, bigs, hdr, place) && p in Handed(supers, bigs, hdr, place) && p.Big?
    requires at + |bytes| <= |Handed(supers, bigs, hdr, place)[p]|
    ensures p.id in bigs && at + |bytes| <= |bigs[p.id]|
    ensures var bigs' := bigs[p.id := Splice(bigs[p.id], at, bytes)];
      var before := Handed(supers, bigs, hdr, place);
      && MemoryOk(supers, bigs', hdr, place)
      && Handed(supers, bigs', hdr, place) == before[p := Splice(before[p], at, bytes)]
  {
    assert BigOk(bigs, hdr, p);
    var bigs' := bigs[p.id := Splice(bigs[p.id], at, bytes)];
    forall b | b in hdr && b.Big?
      ensures BigOk(bigs', hdr, b)
    {
      assert BigOk(bigs, hdr, b);
    }
  }

  lemma AllListedWithout(place: map<Addr, Place>, lists: map<Place, seq<Addr>>, a: Addr)
    requires AllListed(place, lists) && a in place && !IsList(place[a])
    ensures AllListed(place - {a}, lists)
  {
    forall u | u in lists
      ensures Listed(place - {a}, lists[u], u)
    {
      assert Listed(place, lists[u], u);
    }
  }

  /** An identity no big block has yet: the address of a new system block. */
  function FreshId(hdr: map<Addr, nat>): (id: nat)
    ensures Big(id) !in hdr
  {
    FreshIdAbove(hdr.Keys, 0)
  }

  function FreshIdAbove(taken: set<Addr>, n: nat): (id: nat)
    ensures Big(id) !in taken && id >= n
    decreases |taken|
  {
    if Big(n) in taken then FreshIdAbove(taken - {Big(n)}, n + 1) else n
  }

  /** The caller's view after a block of at least `size` bytes, header included, was handed
      out: everything else is as it was. */
  function Count(misses: map<Addr, nat>, a: Addr): nat {
    if a in misses then misses[a] else 0
  }

  /** Where a block of list t goes that is too small once more after n misses. */
  function AfterMiss(t: Place, n: nat): Place {
    if n + 1 < MAXBLK_TRYS then t else if t == Lg then Sm else Lost
  }

  function Without(list: seq<Addr>, i: nat): seq<Addr>
    requires i < |list|
  {
    list[..i] + list[i + 1..]
  }

  /** One of the first four blocks of a list is large enough. */
  predicate Offers(list: seq<Addr>, hdr: map<Addr, nat>, size: nat) {
    exists i :: 0 <= i < |list| && i <= MAXGETABLK_TRYS && list[i] in hdr && hdr[list[i]] >= size
  }

  /** The list a block of this size is put on when it is freed. */
  function FreeList(size: nat): Place
    requires size >= 16
  {
    if size <= FLMAXBYTES then Fl(size / 16 - 1) else if size <= MAXSMBLK_SIZE then Sm else Lg
  }

  ghost predicate Took(before: map<Addr, seq<byte>>, after: map<Addr, seq<byte>>, p: Addr, size: nat) {
    p !in before && p in after && after == before[p := after[p]] && |after[p]| + HDR >= size
  }

  class Pool {
    var supers: seq<seq<byte>>          // superblock memory
    var bigs: map<nat, seq<byte>>       // data of the big blocks
    var hdr: map<Addr, nat>             // header.size of every block
    var misses: map<Addr, nat>          // header.magic of listed blocks: failed attempts
    var lists: map<Place, seq<Addr>>    // smblk, lgblk and the free lists, head first
    var freeReady: bool                 // pfreelists != NULL
    var noFree: bool                    // LS_XPOOL_NOFREE
    ghost var place: map<Addr, Place>

    ghost predicate Busy()
      reads this
    {
      MemoryOk(supers, bigs, hdr, place) && AllListed(place, lists)
    }

    /** No block is between two places. */
    ghost predicate Valid()
      reads this
    {
      Busy() && forall a | a in place :: place[a] != Held
    }

    /** The caller's view: every block it holds, with its bytes. */
    ghost function Abs(): map<Addr, seq<byte>>
      reads this
      requires Busy()
    {
      Handed(supers, bigs, hdr, place)
    }

    /** `ls_xpool_init`. */
    constructor ()
      ensures Valid() && Abs() == map[] && !noFree
    {
      supers, bigs, hdr, misses := [], map[], map[], map[];
      lists := EmptyLists();
      freeReady, noFree := false, false;
      place := map[];
    }

    // ---------- single moves ----------

    /** Metadata is written over the first n bytes of a block. */
    method Scribble(a: Addr, n: nat)
      requires Busy() && a in hdr && a.In? && n <= hdr[a] && (place[a] == Live ==> n <= HDR)
      modifies this`supers
      ensures Busy() && Abs() == old(Abs()) && |supers| == old(|supers|)
    {
      ghost var before := supers;
      assert Inside(|supers|, hdr, a);
      var row := supers[a.sb];
      var junk: seq<byte> := seq(n, _ => 0xff);
      supers := supers[a.sb := row[..a.off] + junk + row[a.off + n..]];
      forall b | b in place && place[b] == Live
        ensures Payload(supers, bigs, b, hdr[b]) == Payload(before, bigs, b, hdr[b])
      {
        assert Shaped(b, hdr[b], place[b]);
        ScribbleFrame(hdr, before, bigs, a, junk, b);
      }
    }

    /** `xpool_blkremove`, `xfreelistget`: unlinks entry i of a list. */
    method Unlink(t: Place, i: nat) returns (a: Addr)
      requires Busy() && IsList(t) && i < |lists[t]|
      modifies this`lists, this`place
      ensures Busy() && Abs() == old(Abs())
      ensures a == old(lists[t][i]) && a in hdr && a.In? && Shaped(a, hdr[a], t)
      ensures place == old(place)[a := Held]
      ensures lists == old(lists)[t := old(lists[t])[..i] + old(lists[t])[i + 1..]]
    {
      a := lists[t][i];
      assert Listed(place, lists[t], t) && Shaped(a, hdr[a], place[a]);
      AllListedDrop(place, lists, t, i);
      MoveKeepsMemory(supers, bigs, hdr, place, a, Held);
      MoveUnseen(supers, bigs, hdr, place, a, Held);
      lists := lists[t := lists[t][..i] + lists[t][i + 1..]];
      place := place[a := Held];
    }

    /** Links a block in at the head of a list. */
    method Link(t: Place, a: Addr)
      requires Busy() && IsList(t) && a in hdr && place[a] == Held && Shaped(a, hdr[a], t)
      modifies this`lists, this`place
      ensures Busy() && Abs() == old(Abs())
      ensures place == old(place)[a := t] && lists == old(lists)[t := [a] + old(lists[t])]
    {
      AllListedPush(place, lists, t, a);
      MoveKeepsMemory(supers, bigs, hdr, place, a, t);
      MoveUnseen(supers, bigs, hdr, place, a, t);
      lists := lists[t := [a] + lists[t]];
      place := place[a := t];
    }

    /** `xpool_blkput`, `xfreelistput`: writes the block's link and puts it on a list. */
    method Put(t: Place, a: Addr)
      requires Busy() && IsList(t) && a in hdr && a.In? && place[a] == Held && Shaped(a, hdr[a], t)
      modifies this`lists, this`place, this`supers, this`misses
      ensures Busy() && Abs() == old(Abs()) && |supers| == old(|supers|) && misses == old(misses)[a := 0]
      ensures place == old(place)[a := t] && lists == old(lists)[t := [a] + old(lists[t])]
    {
      misses := misses[a := 0];
      Scribble(a, LINK);
      Link(t, a);
    }

    /** `xpool_blkcarve` for a whole block: writes its header and hands it out. */
    method HandOut(a: Addr)
      requires Busy() && a in hdr && a.In? && place[a] == Held
      modifies this`place, this`supers
      ensures Busy() && place == old(place)[a := Live] && |supers| == old(|supers|)
      ensures a in Abs() && Abs() == old(Abs())[a := Abs()[a]] && |Abs()[a]| == hdr[a] - HDR
    {
      assert Shaped(a, hdr[a], place[a]);
      Scribble(a, HDR);
      Release(a);
    }

    method Release(a: Addr)
      requires Busy() && a in hdr && a.In? && place[a] == Held
      modifies this`place
      ensures Busy() && place == old(place)[a := Live]
      ensures a in Abs() && Abs() == old(Abs())[a := Abs()[a]] && |Abs()[a]| == hdr[a] - HDR
    {
      assert Shaped(a, hdr[a], place[a]) && Inside(|supers|, hdr, a);
      AllListedElsewhere(place, lists, a, Live);
      MoveKeepsMemory(supers, bigs, hdr, place, a, Live);
      MoveOut(supers, bigs, hdr, place, a);
      place := place[a := Live];
    }

    /** A block leaves circulation. */
    method GiveUp(a: Addr)
      requires Busy() && a in hdr && a.In? && place[a] == Held
      modifies this`place
      ensures Busy() && place == old(place)[a := Lost] && Abs() == old(Abs())
    {
      assert Shaped(a, hdr[a], place[a]);
      AllListedElsewhere(place, lists, a, Lost);
      MoveKeepsMemory(supers, bigs, hdr, place, a, Lost);
      MoveUnseen(supers, bigs, hdr, place, a, Lost);
      place := place[a := Lost];
    }

    /** A block comes back from the caller. */
    method TakeBack(a: Addr, p: Place)
      requires Busy() && a in hdr && a.In? && place[a] == Live && p in {Held, Lost, Own}
      modifies this`place
      ensures Busy() && place == old(place)[a := p] && Abs() == old(Abs()) - {a}
    {
      assert Shaped(a, hdr[a], place[a]);
      AllListedElsewhere(place, lists, a, p);
      MoveKeepsMemory(supers, bigs, hdr, place, a, p);
      MoveBack(supers, bigs, hdr, place, a, p);
      place := place[a := p];
    }

    /** `xpool_blkcarve` off the end of a listed or held block: the block shrinks and its
        last `size` bytes become a block of their own. */
    method Cut(a: Addr, size: nat) returns (b: Addr)
      requires Busy() && a in hdr && a.In? && place[a] in {Held, Sm, Lg}
      requires 32 <= size && size % 16 == 0 && size + RESIDUE <= hdr[a]
      modifies this`hdr, this`place
      ensures Busy() && Abs() == old(Abs())
      ensures b == In(a.sb, a.off + (old(hdr[a]) - size)) && b !in old(hdr) && b in hdr && hdr == old(hdr)[a := old(hdr[a]) - size][b := size]
      ensures place == old(place)[b := Held]
    {
      assert Shaped(a, hdr[a], place[a]);
      var rest := hdr[a] - size;
      CutTiled(|supers|, hdr, a, size);
      b := In(a.sb, a.off + rest);
      CutKeepsMemory(supers, bigs, hdr, place, a, b, rest, size);
      AllListedElsewhere(place, lists, b, Held);
      hdr := hdr[a := rest][b := size];
      place := place[b := Held];
    }

    /** `ls_xpool_getsuperblk`: a new superblock, as one block. */
    method NewSuper() returns (a: Addr)
      requires Busy()
      modifies this`hdr, this`place, this`supers
      ensures Busy() && Abs() == old(Abs())
      ensures a.In? && a !in old(hdr) && hdr == old(hdr)[a := SUPBLK_SIZE] && place == old(place)[a := Held]
      ensures a == In(old(|supers|), 0) && |supers| == old(|supers|) + 1
    {
      a := In(|supers|, 0);
      GrowTiled(|supers|, hdr);
      var fresh_: seq<byte> := seq(SUPBLK_SIZE, _ => 0);
      GrowKeepsMemory(supers, bigs, hdr, place, fresh_);
      GrowUnseen(supers, bigs, hdr, place, fresh_);
      AllListedElsewhere(place, lists, a, Held);
      supers := supers + [fresh_];
      hdr := hdr[a := SUPBLK_SIZE];
      place := place[a := Held];
    }

    // ---------- taking a block ----------

    /** Hands out a listed block whole. */
    method TakeWhole(t: Place, i: nat) returns (p: Addr)
      requires Valid() && t in {Sm, Lg} && i < |lists[t]|
      modifies this`place, this`supers, this`lists
      ensures Valid() && p == old(lists[t][i]) && p.In? && p in hdr && Took(old(Abs()), Abs(), p, hdr[p])
      ensures lists == old(lists)[t := Without(old(lists[t]), i)] && |supers| == old(|supers|)
    {
      ghost var a := lists[t][i];
      assert Listed(place, lists[t], t);
      p := Unlink(t, i);
      HandOut(p);
    }

    /** Hands out the last `size` bytes of a block, which stays where it is. */
    method TakeTail(a: Addr, size: nat) returns (p: Addr)
      requires Busy() && a in hdr && a.In? && place[a] in {Sm, Lg, Held}
      requires 32 <= size && size % 16 == 0 && size + RESIDUE <= hdr[a]
      modifies this`hdr, this`place, this`supers
      ensures Busy() && p.In? && Took(old(Abs()), Abs(), p, size)
      ensures place == old(place)[p := Live] && a in hdr && hdr[a] == old(hdr[a]) - size
      ensures p !in old(place) && p == In(a.sb, a.off + hdr[a]) && |supers| == old(|supers|)
    {
      p := Cut(a, size);
      Scribble(a, HDR);
      HandOut(p);
    }

    /** A large block that has become small changes lists. */
    method Demote(i: nat)
      requires Valid() && i < |lists[Lg]|
      modifies this`place, this`supers, this`lists, this`misses
      ensures Valid() && Abs() == old(Abs()) && |supers| == old(|supers|)
      ensures lists == old(lists)[Lg := Without(old(lists[Lg]), i)][Sm := [old(lists[Lg][i])] + old(lists[Sm])]
      ensures place == old(place)[old(lists[Lg][i]) := Sm] && misses == old(misses)[old(lists[Lg][i]) := 0]
    {
      var a := Unlink(Lg, i);
      Put(Sm, a);
    }

    /** Gives out `size` bytes of the block at position i of list t: its tail, or all of it when
        less than RESIDUE bytes would be left. */
    method TakeFrom(t: Place, i: nat, size: nat) returns (p: Addr)
      requires Valid() && t in {Sm, Lg} && i < |lists[t]|
      requires lists[t][i] in hdr && 32 <= size <= hdr[lists[t][i]] && size % 16 == 0
      modifies this`hdr, this`place, this`supers, this`lists, this`misses
      ensures Valid() && p.In? && Took(old(Abs()), Abs(), p, size) && |supers| == old(|supers|)
      ensures var a, rest := old(lists[t][i]), old(hdr[lists[t][i]]) - size;
        if rest < RESIDUE then
          p == a && lists == old(lists)[t := Without(old(lists[t]), i)]
        else
          && a.In? && p == In(a.sb, a.off + rest) && a in hdr && hdr[a] == rest
          && lists == if t == Lg && rest <= MAXSMBLK_SIZE
                      then old(lists)[Lg := Without(old(lists[Lg]), i)][Sm := [a] + old(lists[Sm])] else old(lists)
    {
      var a := lists[t][i];
      assert Listed(place, lists[t], t);
      assert Shaped(a, hdr[a], place[a]);
      var remain := hdr[a] - size;
      if remain < RESIDUE {
        p := TakeWhole(t, i);
      } else {
        p := TakeTail(a, size);
        if t == Lg && remain <= MAXSMBLK_SIZE {
          Demote(i);
        }
      }
    }

    /** What the search needs of it. */
    method TakeHere(t: Place, i: nat, size: nat) returns (p: Addr)
      requires Valid() && t in {Sm, Lg} && i < |lists[t]|
      requires lists[t][i] in hdr && 32 <= size <= hdr[lists[t][i]] && size % 16 == 0
      modifies this`hdr, this`place, this`supers, this`lists, this`misses
      ensures Valid() && p.In? && Took(old(Abs()), Abs(), p, size) && |supers| == old(|supers|)
      ensures t == Sm ==> lists[Lg] == old(lists[Lg])
    {
      p := TakeFrom(t, i, size);
    }

    /** A block that keeps missing moves from the large to the small list, or off the small
        list for good. */
    method Retire(t: Place, i: nat)
      requires Valid() && t in {Sm, Lg} && i < |lists[t]|
      modifies this`place, this`supers, this`lists, this`misses
      ensures Valid() && Abs() == old(Abs()) && |supers| == old(|supers|)
      ensures place == old(place)[old(lists[t][i]) := if t == Lg then Sm else Lost]
      ensures lists[t] == Without(old(lists[t]), i) && (t == Sm ==> lists[Lg] == old(lists[Lg]))
      ensures forall b :: b != old(lists[t][i]) ==> Count(misses, b) == Count(old(misses), b)
    {
      if t == Lg {
        Demote(i);
      } else {
        var a := Unlink(t, i);
        GiveUp(a);
      }
    }

    /** The block at position i is too small once more; MAXBLK_TRYS misses retire it. */
    method Miss(t: Place, i: nat) returns (gone: bool)
      requires Valid() && t in {Sm, Lg} && i < |lists[t]|
      modifies this`place, this`supers, this`lists, this`misses
      ensures Valid() && Abs() == old(Abs()) && |supers| == old(|supers|)
      ensures place == old(place)[old(lists[t][i]) := AfterMiss(t, Count(old(misses), old(lists[t][i])))]
      ensures gone <==> Count(old(misses), old(lists[t][i])) + 1 >= MAXBLK_TRYS
      ensures lists[t] == if gone then Without(old(lists[t]), i) else old(lists[t])
      ensures t == Sm ==> lists[Lg] == old(lists[Lg])
      ensures forall b :: b != old(lists[t][i]) ==> Count(misses, b) == Count(old(misses), b)
      ensures !gone ==> Count(misses, old(lists[t][i])) == Count(old(misses), old(lists[t][i])) + 1
    {
      var a := lists[t][i];
      assert Listed(place, lists[t], t) && Shaped(a, hdr[a], place[a]);
      assert place == place[a := t];
      var count := Count(misses, a) + 1;
      misses := misses[a := count];
      Scribble(a, HDR);
      gone := count >= MAXBLK_TRYS;
      if gone {
        Retire(t, i);
      }
    }

    /** `xpool_getablk`: looks at up to four blocks from the head of the list, takes from the
        first that is large enough, and counts a miss for each before it. */
    method GetABlk(t: Place, size: nat) returns (found: bool, p: Addr)
      requires Valid() && t in {Sm, Lg} && 32 <= size <= MAXLGBLK_SIZE && size % 16 == 0
      modifies this`hdr, this`place, this`supers, this`lists, this`misses
      ensures Valid() && |supers| == old(|supers|)
      ensures found <==> Offers(old(lists[t]), old(hdr), size)
      ensures found ==> p.In? && Took(old(Abs()), Abs(), p, size)
      ensures t == Sm ==> lists[Lg] == old(lists[Lg])
      ensures !found ==> Abs() == old(Abs()) && hdr == old(hdr)
      ensures !found ==> forall j {:trigger PassedAt(old(lists[t]), t, size, old(misses), j)} ::
        0 <= j < |old(lists[t])| && j <= MAXGETABLK_TRYS ==> PassedAt(old(lists[t]), t, size, old(misses), j)
    {
      var trys := MAXGETABLK_TRYS;
      var i: nat := 0;
      ghost var all := lists[t];
      ghost var k: nat := 0;
      p, found := In(0, 0), false;
      assert Listed(place, lists[t], t);
      while i < |lists[t]| && trys >= 0
        invariant Valid() && |supers| == old(|supers|) && hdr == old(hdr)
        invariant Abs() == old(Abs()) && (t == Sm ==> lists[Lg] == old(lists[Lg]))
        invariant k == MAXGETABLK_TRYS - trys && Walking(all, t, size, old(misses), i, k)
        decreases trys
      {
        found, p, i := Look(t, i, size, all, k, old(misses));
        if found { return; }
        trys := trys - 1;
        k := k + 1;
      }
      AllPassed(all, t, size, old(misses), i, k);
    }

    /** The block at position i is taken from, or passed over. */
    method Look(t: Place, i: nat, size: nat, ghost all: seq<Addr>, ghost k: nat, ghost misses0: map<Addr, nat>)
      returns (found: bool, p: Addr, i': nat)
      requires Valid() && t in {Sm, Lg} && 32 <= size <= MAXLGBLK_SIZE && size % 16 == 0
      requires i < |lists[t]| && k <= MAXGETABLK_TRYS && Walking(all, t, size, misses0, i, k)
      modifies this`hdr, this`place, this`supers, this`lists, this`misses
      ensures Valid() && |supers| == old(|supers|) && (t == Sm ==> lists[Lg] == old(lists[Lg]))
      ensures found ==> Offers(all, old(hdr), size) && p.In? && Took(old(Abs()), Abs(), p, size)
      ensures !found ==> hdr == old(hdr) && Abs() == old(Abs()) && Walking(all, t, size, misses0, i', k + 1)
    {
      assert lists[t][i] == lists[t][i..][0] == all[k];
      assert Listed(place, lists[t], t);
      p, i' := In(0, 0), i;
      found := hdr[lists[t][i]] >= size;
      if found {
        p := TakeHere(t, i, size);
      } else {
        i' := PassOver(t, i, size, all, k, misses0);
      }
    }

    /** A walk that has come to the end of the list, or past four blocks, has been offered none. */
    lemma AllPassed(all: seq<Addr>, t: Place, size: nat, misses0: map<Addr, nat>, i: nat, k: nat)
      requires Walking(all, t, size, misses0, i, k) && (i == |lists[t]| || k > MAXGETABLK_TRYS)
      ensures !Offers(all, hdr, size)
      ensures forall j {:trigger PassedAt(all, t, size, misses0, j)} ::
        0 <= j < |all| && j <= MAXGETABLK_TRYS ==> PassedAt(all, t, size, misses0, j)
    {
      assert i == |lists[t]| ==> all[k..] == [];
      forall j | 0 <= j < |all| && j <= MAXGETABLK_TRYS
        ensures PassedAt(all, t, size, misses0, j) && all[j] in hdr && hdr[all[j]] < size
      {
        assert PassedAt(all, t, size, misses0, j);
      }
    }

    /** The block at position i is too small: a miss is counted, and the next one is looked at. */
    method PassOver(t: Place, i: nat, size: nat, ghost all: seq<Addr>, ghost k: nat, ghost misses0: map<Addr, nat>)
      returns (i': nat)
      requires Valid() && t in {Sm, Lg} && i < |lists[t]| && Walking(all, t, size, misses0, i, k)
      requires lists[t][i] in hdr && hdr[lists[t][i]] < size
      modifies this`place, this`supers, this`lists, this`misses
      ensures Valid() && Abs() == old(Abs()) && |supers| == old(|supers|)
      ensures t == Sm ==> lists[Lg] == old(lists[Lg])
      ensures Walking(all, t, size, misses0, i', k + 1)
    {
      ghost var was, a := lists[t], lists[t][i];
      assert was[i..][0] == all[k] == a;
      var gone := Miss(t, i);
      assert was[i..][1..] == was[i + 1..] && all[k..][1..] == all[k + 1..];
      assert gone ==> Without(was, i)[i..] == was[i + 1..];
      i' := if gone then i else i + 1;
      forall j | 0 <= j < k + 1 ensures PassedAt(all, t, size, misses0, j) {
        if j < k { assert old(PassedAt(all, t, size, misses0, j)); }
      }
    }

    ghost predicate PassedAt(all: seq<Addr>, t: Place, size: nat, misses0: map<Addr, nat>, j: nat)
      requires j < |all|
      reads this
    {
      && all[j] in hdr && hdr[all[j]] < size && all[j] in place
      && place[all[j]] == AfterMiss(t, Count(misses0, all[j]))
    }

    /** The first k blocks of `all` were too small and went where their misses send them; the
        others stand from position i of the list on. */
    ghost predicate Walking(all: seq<Addr>, t: Place, size: nat, misses0: map<Addr, nat>, i: nat, k: nat)
      reads this
    {
      && t in lists && k <= |all| && i <= |lists[t]| && lists[t][i..] == all[k..]
      && (forall j, l :: 0 <= j < l < |all| ==> all[j] != all[l])
      && (forall j {:trigger PassedAt(all, t, size, misses0, j)} :: 0 <= j < k ==> PassedAt(all, t, size, misses0, j))
      && (forall j :: k <= j < |all| ==> Count(misses, all[j]) == Count(misses0, all[j]))
    }

    /** The new-superblock half of `xpool_blkget`. */
    method TakeFromNew(size: nat) returns (p: Addr)
      requires Valid() && 32 <= size <= MAXLGBLK_SIZE && size % 16 == 0
      modifies this`hdr, this`place, this`supers, this`lists, this`misses
      ensures Valid() && p.In? && Took(old(Abs()), Abs(), p, size) && |supers| == old(|supers|) + 1
      ensures var rest := SUPBLK_SIZE - size;
        if rest < RESIDUE then p == In(old(|supers|), 0) && lists == old(lists)
        else
          var t := if rest <= MAXSMBLK_SIZE then Sm else Lg;
          p == In(old(|supers|), rest) && lists == old(lists)[t := [In(old(|supers|), 0)] + old(lists[t])]
    {
      var a := NewSuper();
      var remain := SUPBLK_SIZE - size;
      if remain < RESIDUE {
        p := a;
        HandOut(a);
      } else {
        p := TakeTail(a, size);
        assert Shaped(a, hdr[a], place[a]);
        Put(if remain <= MAXSMBLK_SIZE then Sm else Lg, a);
      }
    }

    /** `xpool_blkget`: a new superblock only when neither list offers a block, and the large
        list is left alone when the small one does. */
    method BlkGet(size: nat) returns (p: Addr)
      requires Valid() && 32 <= size <= MAXLGBLK_SIZE && size % 16 == 0
      modifies this`hdr, this`place, this`supers, this`lists, this`misses
      ensures Valid() && p.In? && Took(old(Abs()), Abs(), p, size)
      ensures var small := size <= MAXSMBLK_SIZE && Offers(old(lists[Sm]), old(hdr), size);
        && |supers| == old(|supers|) + (if small || Offers(old(lists[Lg]), old(hdr), size) then 0 else 1)
        && (small ==> lists[Lg] == old(lists[Lg]))
    {
      var found := false;
      p := In(0, 0);
      if size <= MAXSMBLK_SIZE {
        found, p := GetABlk(Sm, size);
      }
      if !found {
        found, p := GetABlk(Lg, size);
      }
      if !found {
        p := TakeFromNew(size);
      }
    }

    /** A block of at least this size. */
    method AnyBlock(size: nat) returns (p: Addr)
      requires Valid() && 32 <= size <= MAXLGBLK_SIZE && size % 16 == 0
      modifies this`hdr, this`place, this`supers, this`lists, this`misses
      ensures Valid() && p.In? && Took(old(Abs()), Abs(), p, size)
    {
      p := BlkGet(size);
    }

    /** `ls_xpool_bblkalloc`. */
    method BigAlloc(size: nat) returns (p: Addr)
      requires Valid() && size > MAXLGBLK_SIZE && size % 16 == 0
      modifies this`hdr, this`place, this`bigs
      ensures Valid() && p.Big? && Took(old(Abs()), Abs(), p, size)
    {
      var id := FreshId(hdr);
      p := Big(id);
      AllListedElsewhere(place, lists, p, Live);
      var data: seq<byte> := seq(size - HDR, _ => 0);
      BigAdded(supers, bigs, hdr, place, id, data);
      BigSeen(supers, bigs, hdr, place, id, data);
      bigs := bigs[id := data];
      hdr := hdr[p := size];
      place := place[p := Live];
    }

    /** `ls_xpool_alloc`. */
    method Alloc(size: nat) returns (p: Addr)
      requires Valid() && size <= TWO_32 - 32
      modifies this
      ensures Valid() && noFree == old(noFree)
      ensures p !in old(Abs()) && p in Abs() && |Abs()[p]| >= size
      ensures Abs() == old(Abs())[p := Abs()[p]]
    {
      BlockSizeFits(size);
      var nsize := BlockSize(size);
      if nsize > MAXLGBLK_SIZE {
        p := BigAlloc(nsize);
      } else if nsize <= FLMAXBYTES && freeReady && lists[Fl(nsize / 16 - 1)] != [] {
        var t := Fl(nsize / 16 - 1);
        assert Listed(place, lists[t], t);
        p := Unlink(t, 0);
        Release(p);
      } else {
        p := AnyBlock(nsize);
      }
    }

    /** `xpool_freelistinit`: the free-list heads get a block of the pool's own. */
    method FreeListInit()
      requires Valid()
      modifies this`hdr, this`place, this`supers, this`lists, this`misses, this`freeReady
      ensures Valid() && Abs() == old(Abs())
    {
      if !freeReady {
        var p := AnyBlock(RoundUp(LINKBYTES * NUMFREELISTS + HDR));
        TakeBack(p, Own);
        freeReady := true;
      }
    }

    /** The big-block path of `ls_xpool_free`. */
    method FreeBig(p: Addr)
      requires Valid() && p in Abs() && p.Big?
      modifies this`bigs, this`hdr, this`place
      ensures Valid() && Abs() == old(Abs()) - {p}
      ensures p !in hdr && bigs == old(bigs) - {p.id}
    {
      BigRemoved(supers, bigs, hdr, place, p.id);
      AllListedWithout(place, lists, p);
      bigs := bigs - {p.id};
      hdr := hdr - {p};
      place := place - {p};
    }

    /** Takes a block back and puts it on a list. */
    method Recycle(p: Addr, t: Place)
      requires Valid() && p in Abs() && p.In? && IsList(t) && Shaped(p, hdr[p], t)
      modifies this`place, this`supers, this`lists, this`misses
      ensures Valid() && Abs() == old(Abs()) - {p} && p in place && place[p] == t
    {
      TakeBack(p, Held);
      Put(t, p);
    }

    /** `ls_xpool_free`.  The header size alone decides which path the block takes. */
    method Free(p: Addr)
      requires Valid() && p in Abs()
      modifies this
      ensures Valid() && Abs() == old(Abs()) - {p} && noFree == old(noFree)
      ensures p in old(hdr) && (old(hdr)[p] > MAXLGBLK_SIZE <==> p.Big?)
      ensures p.Big? ==> p !in hdr && bigs == old(bigs) - {p.id}
      ensures p.In? ==> p in place && bigs == old(bigs) && old(hdr)[p] >= 16
      ensures p.In? ==> place[p] == if noFree then Lost else FreeList(old(hdr)[p])
    {
      var size := hdr[p];
      assert Shaped(p, size, place[p]);
      if size > MAXLGBLK_SIZE {
        FreeBig(p);
      } else if noFree {
        TakeBack(p, Lost);
      } else if size <= FLMAXBYTES {
        LiveSize(supers, bigs, hdr, place, p);
        FreeListInit();
        LiveSize(supers, bigs, hdr, place, p);
        Recycle(p, Fl(size / 16 - 1));
      } else {
        Recycle(p, if size <= MAXSMBLK_SIZE then Sm else Lg);
      }
    }

    /** The caller writes inside a block it holds. */
    method Write(p: Addr, at: nat, bytes: seq<byte>)
      requires Valid() && p in Abs() && at + |bytes| <= |Abs()[p]|
      modifies this`supers, this`bigs
      ensures Valid() && Abs() == old(Abs())[p := Splice(old(Abs())[p], at, bytes)]
    {
      if p.Big? {
        WriteBig(supers, bigs, hdr, place, p, at, bytes);
        bigs := bigs[p.id := Splice(bigs[p.id], at, bytes)];
      } else {
        WriteSmall(supers, bigs, hdr, place, p, at, bytes);
        supers := supers[p.sb := Splice(supers[p.sb], p.off + HDR + at, bytes)];
      }
    }

    /** `ls_xpool_realloc` of a block: the new block begins with the bytes of the old one. */
    method Realloc(p: Addr, newSize: nat) returns (q: Addr)
      requires Valid() && p in Abs() && newSize <= TWO_32 - 32
      modifies this
      ensures Valid() && noFree == old(noFree)
      ensures q in Abs() && |Abs()[q]| >= newSize && old(Abs())[p] <= Abs()[q]
      ensures q == p || q !in old(Abs())
      ensures Abs() == (old(Abs()) - {p})[q := Abs()[q]]
    {
      LiveSize(supers, bigs, hdr, place, p);
      if newSize <= hdr[p] - HDR {
        q := p;
      } else {
        q := AllocCopy(p, newSize);
        Free(p);
      }
    }

    /** A larger block that begins with the bytes of an existing one. */
    method AllocCopy(p: Addr, newSize: nat) returns (q: Addr)
      requires Valid() && p in Abs() && |Abs()[p]| < newSize <= TWO_32 - 32
      modifies this
      ensures Valid() && noFree == old(noFree)
      ensures q !in old(Abs()) && q in Abs() && |Abs()[q]| >= newSize && old(Abs())[p] <= Abs()[q]
      ensures Abs() == old(Abs())[q := Abs()[q]]
    {
      q := Alloc(newSize);
      var bytes := Read(p);
      Write(q, 0, bytes);
    }

    /** All bytes of a block the caller holds. */
    method Read(p: Addr) returns (bytes: seq<byte>)
      requires Valid() && p in Abs()
      ensures bytes == Abs()[p]
    {
      LiveSize(supers, bigs, hdr, place, p);
      assert Shaped(p, hdr[p], place[p]) && (p.Big? ==> BigOk(bigs, hdr, p)) && (p.In? ==> Inside(|supers|, hdr, p));
      bytes := match p
        case Big(id) => bigs[id]
        case In(sb, off) => supers[sb][off + HDR..off + hdr[p]];
    }

    /** Conservation: every byte of every superblock belongs to exactly one block, and that
        block is with the caller, holds the free-list heads, is given up, or is on the list its
        size allows: at least RESIDUE bytes on the small and large lists, exactly 16(i+1) on
        free list i. */
    lemma EveryByteAccounted(sb: nat, x: nat) returns (a: Addr)
      requires Valid() && sb < |supers| && x < SUPBLK_SIZE
      ensures Covers(hdr, a, sb, x) && forall b | Covers(hdr, b, sb, x) :: b == a
      ensures place[a] in {Live, Own, Lost} || (IsList(place[a]) && a in lists[place[a]])
      ensures place[a] in {Sm, Lg} ==> hdr[a] >= RESIDUE
      ensures place[a].Fl? ==> hdr[a] == 16 * (place[a].i + 1)
    {
      a := EveryByteOnce(|supers|, hdr, sb, x);
      assert Shaped(a, hdr[a], place[a]);
      if IsList(place[a]) {
        assert Listed(place, lists[place[a]], place[a]);
      }
    }
  }
}
