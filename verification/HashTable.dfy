/**
 * The chained hash table of `ls_hash.c`.
 *
 * Elements live at addresses and are linked through their `next` fields, 0 being the
 * null pointer; a bucket holds the address of its first element. Keys are compared by
 * value, so equal keys hash equally.
 */
module HashTable {
  type Addr = nat

  datatype Elem<K, D> = Elem(key: K, hkey: nat, data: D, next: Addr)

  const LOAD_FACTOR := 2
  const GROW_FACTOR := 2

  const PRIMES: seq<nat> := [
    7, 13, 29, 53, 97, 193, 389, 769, 1543, 3079, 6151, 12289, 24593, 49157, 98317, 196613,
    393241, 786433, 1572869, 3145739, 6291469, 12582917, 25165843, 50331653, 100663319,
    201326611, 402653189, 805306457, 1610612741, 3221225473, 4294967291]

  /** `find_range`: the first prime from index 1 on that is at least sz, or the last one. */
  method FindRange(sz: nat) returns (i: nat)
    ensures 1 <= i < |PRIMES| && (sz <= PRIMES[i] || i == |PRIMES| - 1)
    ensures forall j :: 1 <= j < i ==> PRIMES[j] < sz
    ensures i == Range(sz)
  {
    i := 1;
    while i < |PRIMES| - 1 && sz > PRIMES[i]
      invariant 1 <= i < |PRIMES| && forall j :: 1 <= j < i ==> PRIMES[j] < sz
    {
      i := i + 1;
    }
    RangeUnique(sz, i);
  }

  /** The prime's index is fixed by what is asked of it. */
  predicate InRange(sz: nat, i: nat) {
    && 1 <= i < |PRIMES| && (sz <= PRIMES[i] || i == |PRIMES| - 1)
    && forall j :: 1 <= j < i ==> PRIMES[j] < sz
  }

  function RangeFrom(sz: nat, i: nat): (r: nat)
    requires 1 <= i < |PRIMES| && forall j :: 1 <= j < i ==> PRIMES[j] < sz
    ensures InRange(sz, r)
    decreases |PRIMES| - i
  {
    if i < |PRIMES| - 1 && sz > PRIMES[i] then RangeFrom(sz, i + 1) else i
  }

  function Range(sz: nat): (r: nat)
    ensures InRange(sz, r)
  {
    RangeFrom(sz, 1)
  }

  lemma RangeUnique(sz: nat, i: nat)
    requires InRange(sz, i)
    ensures i == Range(sz)
  {
    var r := Range(sz);
  }

  function Prime(i: nat): (p: nat)
    requires i < |PRIMES|
    ensures p == PRIMES[i] > 0
  {
    assert forall j | 0 <= j < |PRIMES| :: PRIMES[j] > 0;
    PRIMES[i]
  }

  /** There is a prime to grow to, and the `int` that the new size is kept in holds it. */
  predicate HasNext(sz: nat) {
    Range(sz) + GROW_FACTOR < |PRIMES| && Prime(Range(sz) + GROW_FACTOR) < 0x8000_0000
  }

  /** A table can grow up to 402653189 buckets; the largest size it grows to is 1610612741. */
  lemma HasNextMeans(sz: nat)
    ensures HasNext(sz) <==> sz <= 402653189
    ensures HasNext(sz) ==> Prime(Range(sz) + GROW_FACTOR) <= 1610612741
  {
    assert PRIMES[25] == 201326611 && PRIMES[26] == 402653189 && PRIMES[28] == 1610612741 && PRIMES[29] == 3221225473;
    var i := Range(sz);
    assert PRIMES[27] == 805306457 && PRIMES[30] == 4294967291;
  }

  // ----- chains -----

  /** From `head` the `next` fields visit exactly the elements `ids`, each once. */
  ghost predicate Chain<K, D>(elems: map<Addr, Elem<K, D>>, head: Addr, ids: seq<Addr>)
    decreases |ids|
  {
    if ids == [] then head == 0
    else
      && head == ids[0] != 0 && head in elems && head !in ids[1..]
      && Chain(elems, elems[head].next, ids[1..])
  }

  /** Chains only depend on the links of their own elements. */
  lemma {:induction false} ChainFrame<K, D>(e: map<Addr, Elem<K, D>>, f: map<Addr, Elem<K, D>>, head: Addr, ids: seq<Addr>)
    requires Chain(e, head, ids)
    requires forall a :: a in ids && a in e ==> a in f && f[a].next == e[a].next
    ensures Chain(f, head, ids)
    decreases |ids|
  {
    if ids != [] { ChainFrame(e, f, e[head].next, ids[1..]); }
  }

  lemma {:induction false} ChainAt<K, D>(elems: map<Addr, Elem<K, D>>, head: Addr, ids: seq<Addr>, j: nat)
    requires Chain(elems, head, ids) && j < |ids|
    ensures ids[j] != 0 && ids[j] in elems
    ensures elems[ids[j]].next == (if j + 1 < |ids| then ids[j + 1] else 0)
    ensures forall i :: 0 <= i < |ids| && i != j ==> ids[i] != ids[j]
    decreases |ids|
  {
    var rest := ids[1..];
    if j > 0 {
      ChainAt(elems, elems[head].next, rest, j - 1);
      assert ids[j] == rest[j - 1];
      forall i | 0 <= i < |ids| && i != j ensures ids[i] != ids[j] {
        if i > 0 { assert ids[i] == rest[i - 1]; }
      }
    } else {
      forall i | 0 < i < |ids| ensures ids[i] != ids[0] { assert ids[i] == rest[i - 1]; }
      if |ids| > 1 { assert Chain(elems, elems[head].next, rest) && rest[0] == ids[1]; }
    }
  }

  // ----- iteration -----

  function FirstFrom(table: seq<Addr>, b: nat): Addr
    requires b <= |table|
    decreases |table| - b
  {
    if b == |table| then 0 else if table[b] != 0 then table[b] else FirstFrom(table, b + 1)
  }

  /** `ls_hash_next`: along the chain, then on to the next bucket that is not empty. */
  function NextOf<K, D>(elems: map<Addr, Elem<K, D>>, table: seq<Addr>, a: Addr): Addr
    requires a in elems && table != []
  {
    if elems[a].next != 0 then elems[a].next else FirstFrom(table, elems[a].hkey % |table| + 1)
  }

  /** The buckets' chains one after the other. */
  ghost function FlatFrom(chains: seq<seq<Addr>>, b: nat): seq<Addr>
    requires b <= |chains|
    decreases |chains| - b
  {
    if b == |chains| then [] else chains[b] + FlatFrom(chains, b + 1)
  }

  ghost predicate Hop<K, D>(elems: map<Addr, Elem<K, D>>, table: seq<Addr>, trail: seq<Addr>, i: nat)
    requires i < |trail| && table != []
  {
    trail[i] in elems && NextOf(elems, table, trail[i]) == if i + 1 < |trail| then trail[i + 1] else 0
  }

  /** Stepping with `NextOf` from the first element of the trail visits the trail and ends. */
  ghost predicate Trail<K, D>(elems: map<Addr, Elem<K, D>>, table: seq<Addr>, trail: seq<Addr>) {
    table != [] && forall i {:trigger Hop(elems, table, trail, i)} :: 0 <= i < |trail| ==> Hop(elems, table, trail, i)
  }

  ghost predicate BucketOk<K, D>(elems: map<Addr, Elem<K, D>>, table: seq<Addr>, chains: seq<seq<Addr>>, b: nat)
    requires b < |table| == |chains|
  {
    && Chain(elems, table[b], chains[b])
    && forall a :: a in chains[b] ==> a in elems && elems[a].hkey % |table| == b
  }

  ghost predicate Buckets<K, D>(elems: map<Addr, Elem<K, D>>, table: seq<Addr>, chains: seq<seq<Addr>>) {
    && |table| == |chains| > 0
    && forall b {:trigger BucketOk(elems, table, chains, b)} :: 0 <= b < |table| ==> BucketOk(elems, table, chains, b)
  }

  ghost function NoChains(n: nat): (c: seq<seq<Addr>>)
    ensures |c| == n && forall b :: 0 <= b < n ==> c[b] == []
  {
    seq(n, _ => [])
  }

  lemma EmptyBuckets<K, D>(elems: map<Addr, Elem<K, D>>, table: seq<Addr>)
    requires table != [] && forall b :: 0 <= b < |table| ==> table[b] == 0
    ensures Buckets(elems, table, NoChains(|table|))
  {
    forall b | 0 <= b < |table| ensures BucketOk(elems, table, NoChains(|table|), b) { }
  }

  function Head(s: seq<Addr>): Addr {
    if s == [] then 0 else s[0]
  }

  lemma {:induction false} FirstIsHead<K, D>(elems: map<Addr, Elem<K, D>>, table: seq<Addr>, chains: seq<seq<Addr>>, b: nat)
    requires Buckets(elems, table, chains) && b <= |table|
    ensures FirstFrom(table, b) == Head(FlatFrom(chains, b))
    decreases |table| - b
  {
    if b < |table| {
      assert BucketOk(elems, table, chains, b);
      FirstIsHead(elems, table, chains, b + 1);
    }
  }

  lemma {:induction false} TrailFrom<K, D>(elems: map<Addr, Elem<K, D>>, table: seq<Addr>, chains: seq<seq<Addr>>, b: nat)
    requires Buckets(elems, table, chains) && b <= |table|
    ensures Trail(elems, table, FlatFrom(chains, b))
    decreases |table| - b
  {
    if b < |table| {
      var ids, rest := chains[b], FlatFrom(chains, b + 1);
      var trail := FlatFrom(chains, b);
      assert trail == ids + rest;
      TrailFrom(elems, table, chains, b + 1);
      FirstIsHead(elems, table, chains, b + 1);
      assert BucketOk(elems, table, chains, b);
      forall i | 0 <= i < |trail| ensures Hop(elems, table, trail, i) {
        if i < |ids| {
          ChainAt(elems, table[b], ids, i);
          assert ids[i] in ids;
          if i + 1 < |ids| { ChainAt(elems, table[b], ids, i + 1); }
        } else {
          assert Hop(elems, table, rest, i - |ids|);
        }
      }
    }
  }

  ghost predicate Distinct(s: seq<Addr>) {
    forall i, j :: 0 <= i < j < |s| ==> s[i] != s[j]
  }

  /** Iterating visits every element exactly once. */
  lemma {:induction false} FlatOnce<K, D>(elems: map<Addr, Elem<K, D>>, table: seq<Addr>, chains: seq<seq<Addr>>, b: nat)
    requires Buckets(elems, table, chains) && b <= |table|
    ensures Distinct(FlatFrom(chains, b))
    ensures forall a :: a in FlatFrom(chains, b) <==>
      a in elems && b <= elems[a].hkey % |table| && a in chains[elems[a].hkey % |table|]
    decreases |table| - b
  {
    if b < |table| {
      var ids, rest := chains[b], FlatFrom(chains, b + 1);
      var trail := FlatFrom(chains, b);
      assert trail == ids + rest;
      FlatOnce(elems, table, chains, b + 1);
      assert BucketOk(elems, table, chains, b);
      forall i, j | 0 <= i < j < |trail| ensures trail[i] != trail[j] {
        if j < |ids| {
          ChainAt(elems, table[b], ids, i);
        } else {
          assert trail[j] == rest[j - |ids|];
          if i < |ids| {
            assert trail[i] in ids && trail[j] in rest;
          } else {
            assert trail[i] == rest[i - |ids|];
          }
        }
      }
    }
  }

  // ----- keys -----

  ghost predicate ElemOk<K(!new), D>(hash: K -> nat, e: map<Addr, Elem<K, D>>, at: map<K, Addr>, a: Addr) {
    a in e ==> a != 0 && e[a].hkey == hash(e[a].key) && e[a].key in at && at[e[a].key] == a
  }

  ghost predicate KeyOk<K(!new), D>(e: map<Addr, Elem<K, D>>, at: map<K, Addr>, k: K) {
    k in at ==> at[k] in e && e[at[k]].key == k
  }

  /** No two elements hold the same key; `at` says which one holds each. */
  ghost predicate Keyed<K(!new), D>(hash: K -> nat, e: map<Addr, Elem<K, D>>, at: map<K, Addr>) {
    && (forall a {:trigger ElemOk(hash, e, at, a)} :: ElemOk(hash, e, at, a))
    && (forall k {:trigger KeyOk(e, at, k)} :: KeyOk(e, at, k))
  }

  /** The finite map the elements stand for. */
  ghost function MapOf<K(!new), D>(e: map<Addr, Elem<K, D>>, at: map<K, Addr>): map<K, D> {
    map k | k in at && at[k] in e :: e[at[k]].data
  }

  ghost predicate ListedAt<K, D>(e: map<Addr, Elem<K, D>>, chains: seq<seq<Addr>>, a: Addr) {
    |chains| > 0 && (a in e ==> a in chains[e[a].hkey % |chains|])
  }

  /** Every element is on the chain of its bucket. */
  ghost predicate Listed<K, D>(e: map<Addr, Elem<K, D>>, chains: seq<seq<Addr>>) {
    forall a {:trigger ListedAt(e, chains, a)} :: ListedAt(e, chains, a)
  }

  lemma KeyedPut<K(!new), D>(hash: K -> nat, e: map<Addr, Elem<K, D>>, at: map<K, Addr>, a: Addr, x: Elem<K, D>)
    requires Keyed(hash, e, at) && a != 0 && x.hkey == hash(x.key)
    requires if a in e then x.key == e[a].key else x.key !in at
    ensures Keyed(hash, e[a := x], at[x.key := a])
    ensures MapOf(e[a := x], at[x.key := a]) == MapOf(e, at)[x.key := x.data]
  {
    var e', at' := e[a := x], at[x.key := a];
    assert ElemOk(hash, e, at, a) && KeyOk(e, at, x.key);
    forall b ensures ElemOk(hash, e', at', b) { assert ElemOk(hash, e, at, b); }
    forall k ensures KeyOk(e', at', k) { assert KeyOk(e, at, k); }
    forall k | k in at && k != x.key ensures k in MapOf(e, at) && MapOf(e', at')[k] == MapOf(e, at)[k] {
      assert KeyOk(e, at, k);
    }
    var m, m' := MapOf(e, at), MapOf(e', at');
    assert forall k :: k in m' <==> k in m || k == x.key;
  }

  lemma KeyedDrop<K(!new), D>(hash: K -> nat, e: map<Addr, Elem<K, D>>, at: map<K, Addr>, a: Addr)
    requires Keyed(hash, e, at) && a in e
    ensures Keyed(hash, e - {a}, at - {e[a].key})
    ensures MapOf(e - {a}, at - {e[a].key}) == MapOf(e, at) - {e[a].key}
  {
    var key := e[a].key;
    var e', at' := e - {a}, at - {key};
    assert ElemOk(hash, e, at, a);
    forall b ensures ElemOk(hash, e', at', b) { assert ElemOk(hash, e, at, b); }
    forall k ensures KeyOk(e', at', k) { assert KeyOk(e, at, k); }
    forall k | k in at && k != key ensures k in MapOf(e', at') && MapOf(e', at')[k] == MapOf(e, at)[k] {
      assert KeyOk(e, at, k);
    }
  }

  lemma KeyedSame<K(!new), D>(hash: K -> nat, e: map<Addr, Elem<K, D>>, f: map<Addr, Elem<K, D>>, at: map<K, Addr>)
    requires Keyed(hash, e, at) && SameBut(e, f)
    ensures Keyed(hash, f, at) && MapOf(f, at) == MapOf(e, at) && |f| == |e|
  {
    forall b ensures ElemOk(hash, f, at, b) { assert ElemOk(hash, e, at, b); }
    forall k ensures KeyOk(f, at, k) { assert KeyOk(e, at, k); }
    assert |f.Keys| == |f| && |e.Keys| == |e|;
  }

  lemma Dropped<K(!new), D>(hash: K -> nat, e: map<Addr, Elem<K, D>>, f: map<Addr, Elem<K, D>>, at: map<K, Addr>, a: Addr)
    requires Keyed(hash, e, at) && a in e && SameBut(e - {a}, f)
    ensures Keyed(hash, f, at - {e[a].key}) && MapOf(f, at - {e[a].key}) == MapOf(e, at) - {e[a].key}
    ensures f.Keys == e.Keys - {a} && |f| + 1 == |e|
  {
    KeyedDrop(hash, e, at, a);
    KeyedSame(hash, e - {a}, f, at - {e[a].key});
    assert (e - {a}).Keys == e.Keys - {a} && |e.Keys| == |e| && |(e - {a}).Keys| == |e - {a}|;
  }

  lemma ListedPush<K, D>(e: map<Addr, Elem<K, D>>, chains: seq<seq<Addr>>, a: Addr, x: Elem<K, D>)
    requires Listed(e, chains) && a !in e && |chains| > 0
    ensures var b := x.hkey % |chains|; Listed(e[a := x], chains[b := [a] + chains[b]])
  {
    var b := x.hkey % |chains|;
    var f, chains' := e[a := x], chains[b := [a] + chains[b]];
    forall c ensures ListedAt(f, chains', c) { assert ListedAt(e, chains, c); }
  }

  // ----- linking and unlinking -----

  /** Linking an element that is on no chain at the head of its bucket. */
  lemma PushBucket<K, D>(e: map<Addr, Elem<K, D>>, f: map<Addr, Elem<K, D>>, table: seq<Addr>, chains: seq<seq<Addr>>, a: Addr)
    requires Buckets(e, table, chains) && a != 0 && a in f
    requires f == e[a := f[a]]
    requires forall c :: 0 <= c < |chains| ==> a !in chains[c]
    requires f[a].next == table[f[a].hkey % |table|]
    ensures var b := f[a].hkey % |table|;
      Buckets(f, table[b := a], chains[b := [a] + chains[b]])
  {
    var b := f[a].hkey % |table|;
    var table', chains' := table[b := a], chains[b := [a] + chains[b]];
    forall c | 0 <= c < |table'| ensures BucketOk(f, table', chains', c) {
      assert BucketOk(e, table, chains, c);
      ChainFrame(e, f, table[c], chains[c]);
      if c == b { assert chains'[c][1..] == chains[c]; }
    }
  }

  function Without(ids: seq<Addr>, j: nat): seq<Addr>
    requires j < |ids|
  {
    ids[..j] + ids[j + 1..]
  }

  /** Passing over the j-th element of a chain. */
  lemma {:induction false} Bypass<K, D>(e: map<Addr, Elem<K, D>>, f: map<Addr, Elem<K, D>>, head: Addr, ids: seq<Addr>, j: nat)
    requires Chain(e, head, ids) && j < |ids| && ids[j] in e
    requires forall i {:trigger ids[i]} :: 0 <= i < |ids| && i != j ==>
      ids[i] in e && ids[i] in f && f[ids[i]].next == if i + 1 == j then e[ids[j]].next else e[ids[i]].next
    ensures Chain(f, if j == 0 then e[head].next else head, Without(ids, j))
    decreases |ids|
  {
    var rest := ids[1..];
    if j == 0 {
      assert Without(ids, 0) == rest;
      forall a | a in rest && a in e ensures a in f && f[a].next == e[a].next {
        var i :| 0 <= i < |rest| && rest[i] == a;
        assert ids[i + 1] == a;
      }
      ChainFrame(e, f, e[head].next, rest);
    } else {
      assert ids[0] == head && (j > 1 ==> f[head].next == e[head].next);
      assert rest[j - 1] == ids[j];
      forall i | 0 <= i < |rest| && i != j - 1
        ensures rest[i] in e && rest[i] in f
          && f[rest[i]].next == if i + 1 == j - 1 then e[rest[j - 1]].next else e[rest[i]].next
      {
        assert rest[i] == ids[i + 1];
      }
      Bypass(e, f, e[head].next, rest, j - 1);
      assert Without(ids, j)[1..] == Without(rest, j - 1);
      assert Chain(e, e[head].next, rest);
      assert j == 1 ==> e[head].next == ids[1];
    }
  }

  /** Taking the j-th element of its bucket out of the table. */
  lemma DropBucket<K, D>(e: map<Addr, Elem<K, D>>, f: map<Addr, Elem<K, D>>, table: seq<Addr>, chains: seq<seq<Addr>>, b: nat, j: nat)
    requires Buckets(e, table, chains) && Listed(e, chains) && b < |table| && j < |chains[b]|
    requires var a := chains[b][j]; a in e && f.Keys == e.Keys - {a}
    requires forall x {:trigger f[x]} :: x in f ==> f[x] == e[x].(next := f[x].next)
    requires forall x {:trigger f[x]} :: x in f ==>
      f[x].next == if j > 0 && x == chains[b][j - 1] then e[chains[b][j]].next else e[x].next
    ensures var head := if j == 0 then e[chains[b][0]].next else table[b];
      Buckets(f, table[b := head], chains[b := Without(chains[b], j)])
    ensures Listed(f, chains[b := Without(chains[b], j)])
  {
    var ids := chains[b];
    var head := if j == 0 then e[ids[0]].next else table[b];
    var table', chains' := table[b := head], chains[b := Without(ids, j)];
    assert BucketOk(e, table, chains, b);
    ChainAt(e, table[b], ids, j);
    forall i | 0 <= i < |ids| && i != j
      ensures ids[i] in e && ids[i] in f && f[ids[i]].next == if i + 1 == j then e[ids[j]].next else e[ids[i]].next
    {
      ChainAt(e, table[b], ids, i);
    }
    Bypass(e, f, table[b], ids, j);
    forall c | 0 <= c < |table'| ensures BucketOk(f, table', chains', c) {
      assert BucketOk(e, table, chains, c);
      if c != b {
        assert j > 0 ==> ids[j - 1] in ids;
        assert ids[j] in ids;
        ChainFrame(e, f, table[c], chains[c]);
      }
    }
    forall a ensures ListedAt(f, chains', a) { assert ListedAt(e, chains, a); }
  }

  /** e and f differ in links only. */
  ghost predicate SameBut<K, D>(e: map<Addr, Elem<K, D>>, f: map<Addr, Elem<K, D>>) {
    e.Keys == f.Keys && forall a {:trigger f[a]} :: a in f ==> f[a] == e[a].(next := f[a].next)
  }

  ghost predicate Apart(chain: seq<Addr>, rest: seq<Addr>) {
    forall a :: a in chain ==> a !in rest
  }

  ghost predicate AllApart(chains: seq<seq<Addr>>, rest: seq<Addr>) {
    forall c {:trigger Apart(chains[c], rest)} :: 0 <= c < |chains| ==> Apart(chains[c], rest)
  }

  lemma ApartPush(chains: seq<seq<Addr>>, rest: seq<Addr>, b: nat, p: Addr)
    requires AllApart(chains, rest) && rest != [] && p == rest[0] && Distinct(rest) && b < |chains|
    ensures AllApart(chains[b := [p] + chains[b]], rest[1..])
    ensures forall c :: 0 <= c < |chains| ==> p !in chains[c]
  {
    var chains' := chains[b := [p] + chains[b]];
    assert p in rest && p !in rest[1..];
    forall c | 0 <= c < |chains| ensures p !in chains[c] && Apart(chains'[c], rest[1..]) {
      assert Apart(chains[c], rest);
    }
  }

  lemma TrailKept<K, D>(e: map<Addr, Elem<K, D>>, f: map<Addr, Elem<K, D>>, table: seq<Addr>, trail: seq<Addr>)
    requires Trail(e, table, trail) && trail != [] && Distinct(trail) && e.Keys == f.Keys
    requires forall a {:trigger f[a]} :: a in f && a != trail[0] ==> f[a] == e[a]
    ensures Trail(f, table, trail[1..])
  {
    var rest := trail[1..];
    forall i | 0 <= i < |rest| ensures Hop(f, table, rest, i) { assert Hop(e, table, trail, i + 1); }
  }

  // ----- the table -----

  class Table<K(==,!new), D> {
    const hash: K -> nat
    var table: array<Addr>
    var elems: map<Addr, Elem<K, D>>
    var sizenow: nat
    ghost var chains: seq<seq<Addr>>
    ghost var at: map<K, Addr>

    ghost predicate Valid()
      reads this, table
    {
      && Buckets(elems, table[..], chains) && Listed(elems, chains)
      && Keyed(hash, elems, at) && sizenow == |elems|
    }

    /** The finite map the table stands for. */
    ghost function Abs(): map<K, D>
      reads this
    {
      MapOf(elems, at)
    }

    /** The elements in the order iteration visits them. */
    ghost function Order(): seq<Addr>
      reads this
    {
      FlatFrom(chains, 0)
    }

    /** `ls_hash`: an empty table of at least the size asked for, as far as the primes go. */
    constructor (size: nat, hash: K -> nat)
      ensures Valid() && Abs() == map[] && fresh(table) && this.hash == hash
      ensures table.Length == Prime(Range(size))
    {
      this.hash := hash;
      var i := FindRange(size);
      var n := Prime(i);
      table := new Addr[n](_ => 0);
      elems, sizenow, at := map[], 0, map[];
      chains := NoChains(n);
      new;
      EmptyBuckets(elems, table[..]);
      forall a ensures ElemOk(hash, elems, at, a) && ListedAt(elems, chains, a) { }
      forall k ensures KeyOk(elems, at, k) { }
    }

    /** `ls_hash_find2`: the element holding the key, or null. */
    method Find(key: K) returns (p: Addr)
      requires Valid()
      ensures p == (if key in Abs() then at[key] else 0)
      ensures key in Abs() ==> p != 0 && p in elems && elems[p].key == key && elems[p].data == Abs()[key]
    {
      var b := hash(key) % table.Length;
      assert BucketOk(elems, table[..], chains, b);
      p := table[b];
      ghost var todo := chains[b];
      assert KeyOk(elems, at, key);
      if key in at { assert ElemOk(hash, elems, at, at[key]) && ListedAt(elems, chains, at[key]); }
      while p != 0 && elems[p].key != key
        invariant Chain(elems, p, todo)
        invariant forall a :: a in todo ==> a in chains[b]
        invariant key in at ==> at[key] in todo
        decreases |todo|
      {
        p := elems[p].next;
        todo := todo[1..];
      }
      if p != 0 { assert ElemOk(hash, elems, at, p); }
    }

    /** `ls_hash_begin`. */
    method Begin() returns (p: Addr)
      requires Valid()
      ensures p == Head(Order())
    {
      if sizenow == 0 {
        VisitsOnce();
        return 0;
      }
      var b := 0;
      assert FirstFrom(table[..], 0) == Head(Order()) by { FirstIsHead(elems, table[..], chains, 0); }
      while b < table.Length
        invariant 0 <= b <= table.Length && FirstFrom(table[..], b) == Head(Order())
      {
        if table[b] != 0 { return table[b]; }
        b := b + 1;
      }
      p := 0;
    }

    /** `ls_hash_next`, also while a rehash is moving elements out of the table. */
    method Next(p: Addr) returns (q: Addr)
      requires p != 0 ==> p in elems && table.Length > 0
      ensures q == if p == 0 then 0 else NextOf(elems, table[..], p)
    {
      if p == 0 { return 0; }
      if elems[p].next != 0 { return elems[p].next; }
      var b := elems[p].hkey % table.Length + 1;
      while b < table.Length
        invariant 0 < b <= table.Length
        invariant FirstFrom(table[..], elems[p].hkey % table.Length + 1) == FirstFrom(table[..], b)
      {
        if table[b] != 0 { return table[b]; }
        b := b + 1;
      }
      q := 0;
    }

    /** Every element is either still to be moved or on its chain in the new table. */
    ghost predicate Moved(e: map<Addr, Elem<K, D>>, chains': seq<seq<Addr>>, rest: seq<Addr>, a: Addr) {
      |chains'| > 0 && (a in e && a !in rest ==> a in chains'[e[a].hkey % |chains'|])
    }

    /** A rehash under way: `rest` is still in the old table, the other elements in the new one. */
    ghost predicate Midway(e0: map<Addr, Elem<K, D>>, table': array<Addr>, chains': seq<seq<Addr>>, rest: seq<Addr>)
      reads this, table, table'
    {
      && table' != table && SameBut(e0, elems) && Buckets(elems, table'[..], chains')
      && Trail(elems, table[..], rest) && Distinct(rest) && 0 !in rest && AllApart(chains', rest)
      && forall a {:trigger Moved(elems, chains', rest, a)} :: Moved(elems, chains', rest, a)
    }

    /** Move the first element of the trail to the head of its new bucket. */
    method MoveOne(table': array<Addr>, p: Addr, ghost e0: map<Addr, Elem<K, D>>, ghost chains': seq<seq<Addr>>,
                   ghost rest: seq<Addr>)
      returns (ghost chains'': seq<seq<Addr>>)
      requires Midway(e0, table', chains', rest) && rest != [] && p == rest[0]
      modifies this`elems, table'
      ensures Midway(e0, table', chains'', rest[1..])
    {
      assert Hop(elems, table[..], rest, 0) && p in rest;
      var b := elems[p].hkey % table'.Length;
      ghost var e, tab := elems, table'[..];
      elems := elems[p := elems[p].(next := table'[b])];
      table'[b] := p;
      ApartPush(chains', rest, b, p);
      PushBucket(e, elems, tab, chains', p);
      assert table'[..] == tab[b := p];
      TrailKept(e, elems, table[..], rest);
      chains'' := chains'[b := [p] + chains'[b]];
      forall a ensures Moved(elems, chains'', rest[1..], a) {
        assert Moved(e, chains', rest, a);
        assert a in rest ==> a == p || a in rest[1..];
      }
      assert p !in rest[1..];
    }

    lemma StartMidway(table': array<Addr>, empty: seq<seq<Addr>>)
      requires Valid() && table' != table && Buckets(elems, table'[..], empty)
      requires forall c :: 0 <= c < |empty| ==> empty[c] == []
      ensures Midway(elems, table', empty, Order())
    {
      VisitsOnce();
      assert ElemOk(hash, elems, at, 0);
      forall a ensures Moved(elems, empty, Order(), a) { }
    }

    /** Move every element, in the order of iteration. */
    method MoveAll(table': array<Addr>, ghost empty: seq<seq<Addr>>) returns (ghost chains': seq<seq<Addr>>)
      requires Valid() && Midway(elems, table', empty, Order())
      modifies this`elems, table'
      ensures Midway(old(elems), table', chains', [])
    {
      ghost var rest := Order();
      chains' := empty;
      var next := Begin();
      while next != 0
        invariant Midway(old(elems), table', chains', rest) && next == Head(rest)
        decreases |rest|
      {
        assert Hop(elems, table[..], rest, 0);
        assert |rest| > 1 ==> rest[1] == rest[1..][0];
        var p := next;
        next := Next(p);
        chains' := MoveOne(table', p, old(elems), chains', rest);
        rest := rest[1..];
      }
    }

    /** `ls_hash_rehash`: relink every element into a larger table; the map stays the same. */
    method Rehash(memory: bool)
      requires Valid() && HasNext(table.Length)
      modifies this
      ensures Valid() && Abs() == old(Abs()) && SameBut(old(elems), elems) && at == old(at) && sizenow == old(sizenow)
      ensures if memory then fresh(table) && table.Length == Prime(Range(old(table.Length)) + GROW_FACTOR)
              else table == old(table)
    {
      var range := FindRange(table.Length);
      var n := Prime(range + GROW_FACTOR);
      if memory { Relink(n); }
    }

    method Relink(n: nat)
      requires Valid() && 0 < n
      modifies this
      ensures Valid() && Abs() == old(Abs()) && SameBut(old(elems), elems) && at == old(at) && sizenow == old(sizenow)
      ensures fresh(table) && table.Length == n
    {
      var table' := new Addr[n](_ => 0);
      EmptyBuckets(elems, table'[..]);
      StartMidway(table', NoChains(n));
      ghost var chains' := MoveAll(table', NoChains(n));
      Adopt(table', chains', old(elems));
    }

    /** The new table takes the place of the old one. */
    method Adopt(table': array<Addr>, ghost chains': seq<seq<Addr>>, ghost e: map<Addr, Elem<K, D>>)
      requires Midway(e, table', chains', []) && sizenow == |e| && Keyed(hash, e, at)
      modifies this`table, this`chains
      ensures Valid() && table == table' && Abs() == MapOf(e, at)
    {
      table, chains := table', chains';
      KeyedSame(hash, e, elems, at);
      forall a ensures ListedAt(elems, chains, a) { assert Moved(elems, chains', [], a); }
    }

    /**
     * `ls_hash_insert2`, for a key that is not in the table: `addr` is what the allocator
     * returned for the element, 0 when it failed, and `memory` whether a rehash found memory.
     */
    method Insert2(key: K, data: D, addr: Addr, memory: bool) returns (p: Addr)
      requires Valid() && key !in at && addr !in elems
      requires sizenow * LOAD_FACTOR > table.Length ==> HasNext(table.Length)
      modifies this, table
      ensures Valid() && p == addr && (table == old(table) || fresh(table))
      ensures Abs() == if addr == 0 then old(Abs()) else old(Abs())[key := data]
      ensures at == if addr == 0 then old(at) else old(at)[key := addr]
      ensures table.Length ==
        if old(sizenow) * LOAD_FACTOR > old(table.Length) && memory then Prime(Range(old(table.Length)) + GROW_FACTOR)
        else old(table.Length)
    {
      if sizenow * LOAD_FACTOR > table.Length { Rehash(memory); }
      p := addr;
      if addr == 0 { return; }
      PushNew(key, data, addr);
    }

    method PushNew(key: K, data: D, a: Addr)
      requires Valid() && key !in at && a != 0 && a !in elems
      modifies this`elems, this`sizenow, this`chains, this`at, table
      ensures Valid() && Abs() == old(Abs())[key := data] && at == old(at)[key := a]
      ensures sizenow == old(sizenow) + 1
    {
      var b := hash(key) % table.Length;
      ghost var e, tab := elems, table[..];
      elems := elems[a := Elem(key, hash(key), data, table[b])];
      table[b] := a;
      forall c | 0 <= c < |chains| ensures a !in chains[c] { assert BucketOk(e, tab, chains, c); }
      PushBucket(e, elems, tab, chains, a);
      KeyedPut(hash, e, at, a, elems[a]);
      ListedPush(e, chains, a, elems[a]);
      chains := chains[b := [a] + chains[b]];
      at := at[key := a];
      sizenow := sizenow + 1;
      assert table[..] == tab[b := a];
    }

    /** `ls_hash_insert_p`: a key already present is refused. */
    method Insert(key: K, data: D, addr: Addr, memory: bool) returns (p: Addr)
      requires Valid() && addr !in elems
      requires sizenow * LOAD_FACTOR > table.Length ==> HasNext(table.Length)
      modifies this, table
      ensures Valid() && (table == old(table) || fresh(table))
      ensures p != 0 <==> key !in old(Abs()) && addr != 0
      ensures Abs() == if p == 0 then old(Abs()) else old(Abs())[key := data]
    {
      p := Find(key);
      if p != 0 { return 0; }
      assert KeyOk(elems, at, key);
      p := Insert2(key, data, addr, memory);
    }

    /** `ls_hash_update_p`: the data of a key already present is replaced in place. */
    method Update(key: K, data: D, addr: Addr, memory: bool) returns (p: Addr)
      requires Valid() && addr !in elems
      requires sizenow * LOAD_FACTOR > table.Length ==> HasNext(table.Length)
      modifies this, table
      ensures Valid() && (table == old(table) || fresh(table))
      ensures p != 0 <==> key in old(Abs()) || addr != 0
      ensures Abs() == if p == 0 then old(Abs()) else old(Abs())[key := data]
    {
      p := Find(key);
      if p != 0 {
        SetData(p, data);
        return;
      }
      assert KeyOk(elems, at, key);
      p := Insert2(key, data, addr, memory);
    }

    method SetData(p: Addr, data: D)
      requires Valid() && p in elems
      modifies this`elems
      ensures Valid() && p in elems && elems[p].key == old(elems[p].key)
      ensures Abs() == old(Abs())[elems[p].key := data]
    {
      ghost var e := elems;
      elems := elems[p := elems[p].(data := data)];
      assert elems.Keys == e.Keys && |elems.Keys| == |elems| && |e.Keys| == |e|;
      forall b | 0 <= b < table.Length ensures BucketOk(elems, table[..], chains, b) {
        assert BucketOk(e, table[..], chains, b);
        ChainFrame(e, elems, table[b], chains[b]);
      }
      assert ElemOk(hash, e, at, p);
      KeyedPut(hash, e, at, p, elems[p]);
      assert at[elems[p].key := p] == at;
      forall a ensures ListedAt(elems, chains, a) { assert ListedAt(e, chains, a); }
    }

    /** `ls_hash_erase`: unlink one element; a null iterator is ignored. */
    method Erase(p: Addr)
      requires Valid() && (p != 0 ==> p in elems)
      modifies this, table
      ensures Valid() && table == old(table)
      ensures Abs() == if p == 0 then old(Abs()) else old(Abs()) - {old(elems)[p].key}
      ensures elems.Keys == old(elems.Keys) - {p}
    {
      assert ElemOk(hash, elems, at, 0);
      if p == 0 { return; }
      TakeOut(p);
    }

    ghost method Located(p: Addr) returns (j: nat)
      requires Valid() && p in elems
      ensures var b := elems[p].hkey % table.Length; j < |chains[b]| && chains[b][j] == p
    {
      assert ListedAt(elems, chains, p);
      j :| 0 <= j < |chains[elems[p].hkey % table.Length]| && chains[elems[p].hkey % table.Length][j] == p;
    }

    method TakeOut(p: Addr)
      requires Valid() && p in elems
      modifies this, table
      ensures Valid() && table == old(table) && Abs() == old(Abs()) - {old(elems)[p].key}
      ensures elems.Keys == old(elems.Keys) - {p}
    {
      assert ElemOk(hash, elems, at, p);
      var b := elems[p].hkey % table.Length;
      ghost var e := elems;
      ghost var j := Located(p);
      Unhook(p, b, j);
      Dropped(hash, e, elems, at, p);
      chains := chains[b := Without(chains[b], j)];
      at := at - {e[p].key};
      sizenow := sizenow - 1;
    }

    /** Relink the chain of bucket b past its j-th element p. */
    method Unhook(p: Addr, b: nat, ghost j: nat)
      requires Valid() && b < table.Length && j < |chains[b]| && p == chains[b][j] && p in elems && p != 0
      modifies this`elems, table
      ensures Buckets(elems, table[..], chains[b := Without(chains[b], j)])
      ensures Listed(elems, chains[b := Without(chains[b], j)])
      ensures SameBut(old(elems) - {p}, elems)
    {
      ghost var e, tab, ids := elems, table[..], chains[b];
      assert BucketOk(e, tab, chains, b);
      ChainAt(e, table[b], ids, j);
      ChainAt(e, table[b], ids, 0);
      if table[b] == p {
        table[b] := elems[p].next;
        elems := elems - {p};
        assert table[..] == tab[b := e[p].next];
      } else {
        var q := FindBefore(p, b, j);
        elems := elems[q := elems[q].(next := elems[p].next)] - {p};
        assert table[..] == tab[b := tab[b]];
      }
      DropBucket(e, elems, tab, chains, b, j);
    }

    /** The element before p on its chain. */
    method FindBefore(p: Addr, b: nat, ghost j: nat) returns (q: Addr)
      requires Valid() && b < table.Length && j < |chains[b]| && p == chains[b][j] && table[b] != p && p != 0
      ensures j > 0 && q == chains[b][j - 1] && q in elems && q != p && elems[q].next == p
    {
      ghost var ids := chains[b];
      assert BucketOk(elems, table[..], chains, b);
      ChainAt(elems, table[b], ids, j);
      q := table[b];
      ghost var i := 0;
      ChainAt(elems, table[b], ids, 0);
      while elems[q].next != p
        invariant 0 <= i < j && q == ids[i] && q in elems
        invariant elems[q].next == ids[i + 1]
        decreases j - i
      {
        ChainAt(elems, table[b], ids, i + 1);
        q := elems[q].next;
        i := i + 1;
      }
    }

    /** `ls_hash_clear`. */
    method Clear()
      requires Valid()
      modifies this, table
      ensures Valid() && Abs() == map[] && sizenow == 0 && table == old(table)
    {
      var i := 0;
      while i < table.Length
        invariant 0 <= i <= table.Length && table == old(table) && table.Length > 0
        invariant forall b :: 0 <= b < i ==> table[b] == 0
      {
        table[i] := 0;
        i := i + 1;
      }
      elems, sizenow, at := map[], 0, map[];
      chains := NoChains(table.Length);
      EmptyBuckets(elems, table[..]);
      forall a ensures ElemOk(hash, elems, at, a) && ListedAt(elems, chains, a) { }
      forall k ensures KeyOk(elems, at, k) { }
    }

    /**
     * Begin followed by Next until null visits every element of the table exactly once.
     */
    lemma VisitsOnce()
      requires Valid()
      ensures Trail(elems, table[..], Order()) && Distinct(Order())
      ensures forall a :: a in Order() <==> a in elems
      ensures |Order()| == sizenow
    {
      TrailFrom(elems, table[..], chains, 0);
      FlatOnce(elems, table[..], chains, 0);
      forall a ensures a in Order() <==> a in elems { assert ListedAt(elems, chains, a); }
      DistinctSize(Order(), elems.Keys);
      assert |elems.Keys| == |elems|;
    }
  }

  lemma {:induction false} DistinctSize(s: seq<Addr>, all: set<Addr>)
    requires Distinct(s) && forall a :: a in s <==> a in all
    ensures |s| == |all|
  {
    if s == [] {
      assert all == {};
    } else {
      var n := |s| - 1;
      assert s == s[..n] + [s[n]];
      DistinctSize(s[..n], all - {s[n]});
    }
  }
}
