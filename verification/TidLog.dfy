/**
 * The store of one slice together with its transaction log, as the master
 * updates it and as a slave rebuilds it from log entries.
 *
 * Every change of the store is given the next transaction number (TID). The log
 * keeps one entry per TID: `Put(k)` while the item written under that TID is
 * still the current one, `Del(d)` for the removal of the item written under d.
 * Replacing an item clears its old entry and notes a removal, so the log never
 * grows by more than the removals.
 */
module TidLog {
  type byte = x: int | 0 <= x < 256
  type Str = seq<byte>

  /** TIDDEL_FLUSHALL: a removal entry carrying it clears the whole store. */
  const FlushAll: nat := 0x7fff_ffff_ffff_ffff

  datatype Item = Item(val: Str, tid: nat)
  datatype Entry = Put(key: Str) | Del(gone: nat)
  datatype Store = Store(items: map<Str, Item>, log: map<nat, Entry>, last: nat)

  /** What one log entry says when it is shipped. */
  datatype Rec =
    | Add(tid: nat, key: Str, val: Str)
    | Rem(tid: nat, gone: nat)

  ghost predicate EntryOk(s: Store, t: nat) {
    t in s.log ==> 0 < t <= s.last && (s.log[t].Put? ==> s.log[t].key in s.items && s.items[s.log[t].key].tid == t)
  }

  ghost predicate ItemOk(s: Store, k: Str) {
    k in s.items ==> s.items[k].tid in s.log && s.log[s.items[k].tid] == Put(k)
  }

  /** Items and `Put` entries name each other, and no TID is above the last. */
  ghost predicate Consistent(s: Store) {
    && (forall t {:trigger EntryOk(s, t)} :: EntryOk(s, t))
    && (forall k {:trigger ItemOk(s, k)} :: ItemOk(s, k))
  }

  ghost predicate RemovalOk(s: Store, t: nat) {
    t in s.log && s.log[t].Del? && s.log[t].gone != FlushAll ==>
      s.log[t].gone !in s.log && 0 < s.log[t].gone < t
  }

  ghost predicate FlushOk(s: Store, t: nat, u: nat) {
    t in s.log && u in s.log && s.log[t] == Del(FlushAll) ==> t <= u
  }

  /** Besides: a removed TID stays cleared, and a flush leaves nothing below it. */
  ghost predicate Ordered(s: Store) {
    && Consistent(s)
    && (forall t {:trigger RemovalOk(s, t)} :: RemovalOk(s, t))
    && (forall t, u {:trigger FlushOk(s, t, u)} :: FlushOk(s, t, u))
  }

  /** And the last TID is an entry, as it is after every change a master makes. */
  ghost predicate Sequenced(s: Store) {
    Ordered(s) && (s.last > 0 ==> s.last in s.log)
  }

  /**
   * A slave whose items under the TIDs `lapsed` have been erased by readers: such an erase
   * is not logged, so it clears an entry and can clear the last one.
   */
  ghost predicate SequencedBut(s: Store, lapsed: set<nat>) {
    && Ordered(s) && Cleared(s, lapsed)
    && (s.last > 0 ==> s.last in s.log || s.last in lapsed)
  }

  /** TIDs the slave has passed and has no entry for. */
  ghost predicate Cleared(s: Store, lapsed: set<nat>) {
    forall t :: t in lapsed ==> t <= s.last && t !in s.log
  }

  // ----- the pieces both sides use -----

  /** Take an item out of the store and clear its log entry. */
  function Unlink(s: Store, k: Str): Store
    requires k in s.items
  {
    Store(s.items - {k}, s.log - {s.items[k].tid}, s.last)
  }

  function UnlinkAny(s: Store, k: Str): Store {
    if k in s.items then Unlink(s, k) else s
  }

  function Note(s: Store, t: nat, gone: nat): Store {
    Store(s.items, s.log[t := Del(gone)], t)
  }

  function Link(s: Store, k: Str, v: Str, t: nat): Store {
    Store(s.items[k := Item(v, t)], s.log[t := Put(k)], t)
  }

  function Flushed(t: nat): Store {
    Store(map[], map[t := Del(FlushAll)], t)
  }

  // ----- the master -----

  function Erase(s: Store, k: Str): Store
    requires k in s.items
  {
    Note(Unlink(s, k), s.last + 1, s.items[k].tid)
  }

  /** A new item. Replacing an item erases it first, under a TID of its own. */
  function Insert(s: Store, k: Str, v: Str): Store {
    Link(s, k, v, s.last + 1)
  }

  function Clear(s: Store): Store {
    Flushed(s.last + 1)
  }

  /** The items of some keys erased in order; keys not present are passed over. */
  function EraseAll(s: Store, gone: seq<Str>): Store {
    if gone == [] then s
    else
      var s1 := EraseAll(s, gone[..|gone| - 1]);
      var k := gone[|gone| - 1];
      if k in s1.items then Erase(s1, k) else s1
  }

  // ----- the slave -----

  /** One entry applied in full. */
  function Apply(s: Store, r: Rec): Store {
    match r
    case Add(t, k, v) => Link(UnlinkAny(s, k), k, v, t)
    case Rem(t, d) =>
      if d == FlushAll then Flushed(t)
      else if d in s.log && s.log[d].Put? then Note(UnlinkAny(s, s.log[d].key), t, d)
      else Note(s, t, d)
  }

  function ApplyAll(s: Store, rs: seq<Rec>): Store {
    if rs == [] then s else Apply(ApplyAll(s, rs[..|rs| - 1]), rs[|rs| - 1])
  }

  lemma {:induction false} ApplyAllAdds(s: Store, a: seq<Rec>, b: seq<Rec>)
    ensures ApplyAll(s, a + b) == ApplyAll(ApplyAll(s, a), b)
    decreases |b|
  {
    if b == [] {
      assert a + b == a;
    } else {
      var b1 := b[..|b| - 1];
      assert (a + b)[..|a + b| - 1] == a + b1;
      ApplyAllAdds(s, a, b1);
    }
  }

  // ----- what shipping sends: the log entries above one TID, up to another -----

  function RecAt(s: Store, t: nat): Rec
    requires t in s.log && EntryOk(s, t)
  {
    match s.log[t]
    case Put(k) => Add(t, k, s.items[k].val)
    case Del(d) => Rem(t, d)
  }

  ghost function Entries(s: Store, a: nat, b: nat): seq<Rec>
    requires Consistent(s)
  {
    if b <= a then []
    else if b in s.log then Entries(s, a, b - 1) + [RecAt(s, b)]
    else Entries(s, a, b - 1)
  }

  ghost predicate Quiet(s: Store, a: nat, b: nat) {
    forall t :: a < t <= b ==> t !in s.log
  }

  lemma {:induction false} EntriesQuiet(s: Store, a: nat, b: nat)
    requires Consistent(s) && Quiet(s, a, b)
    ensures Entries(s, a, b) == []
  {
    if a < b { EntriesQuiet(s, a, b - 1); }
  }

  /** Resuming loses and repeats nothing. */
  lemma {:induction false} EntriesSplit(s: Store, a: nat, b: nat, c: nat)
    requires Consistent(s) && a <= b <= c
    ensures Entries(s, a, c) == Entries(s, a, b) + Entries(s, b, c)
    decreases c
  {
    if b < c { EntriesSplit(s, a, b, c - 1); }
  }

  lemma EntriesStep(s: Store, a: nat, b: nat, t: nat)
    requires Consistent(s) && a <= b < t && t in s.log && Quiet(s, b, t - 1)
    ensures Entries(s, a, t) == Entries(s, a, b) + [RecAt(s, t)]
  {
    EntriesSplit(s, a, b, t - 1);
    EntriesQuiet(s, b, t - 1);
  }

  /** Exactly the live entries above a and up to b, in ascending order of TID. */
  lemma {:induction false} EntriesMeans(s: Store, a: nat, b: nat)
    requires Consistent(s)
    ensures forall r :: r in Entries(s, a, b) <==> a < r.tid <= b && r.tid in s.log && r == RecAt(s, r.tid)
    ensures forall i, j :: 0 <= i < j < |Entries(s, a, b)| ==> Entries(s, a, b)[i].tid < Entries(s, a, b)[j].tid
  {
    if a < b {
      EntriesMeans(s, a, b - 1);
      if b in s.log {
        var e := Entries(s, a, b - 1);
        assert Entries(s, a, b) == e + [RecAt(s, b)];
        forall i | 0 <= i < |e| ensures e[i].tid < b { assert e[i] in e; }
      }
    }
  }

  // ----- the operations keep the log sequenced -----

  lemma UnlinkConsistent(s: Store, k: Str)
    requires Consistent(s) && k in s.items
    ensures Consistent(Unlink(s, k))
  {
    var s' := Unlink(s, k);
    assert ItemOk(s, k);
    forall t: nat ensures EntryOk(s', t) { assert EntryOk(s, t); }
    forall x ensures ItemOk(s', x) { assert ItemOk(s, x); }
  }

  lemma UnlinkAnyConsistent(s: Store, k: Str)
    requires Consistent(s)
    ensures Consistent(UnlinkAny(s, k))
  {
    if k in s.items { UnlinkConsistent(s, k); }
  }

  lemma NoteConsistent(s: Store, t: nat, d: nat)
    requires Consistent(s) && s.last < t
    ensures Consistent(Note(s, t, d))
  {
    var s' := Note(s, t, d);
    assert EntryOk(s, t);
    forall u: nat ensures EntryOk(s', u) { assert EntryOk(s, u); }
    forall x ensures ItemOk(s', x) { assert ItemOk(s, x); }
  }

  lemma LinkConsistent(s: Store, k: Str, v: Str, t: nat)
    requires Consistent(s) && k !in s.items && s.last < t
    ensures Consistent(Link(s, k, v, t))
  {
    var s' := Link(s, k, v, t);
    assert EntryOk(s, t);
    forall u: nat ensures EntryOk(s', u) { assert EntryOk(s, u); }
    forall x ensures ItemOk(s', x) { assert ItemOk(s, x); }
  }

  lemma FlushedSequenced(t: nat)
    requires 0 < t
    ensures Sequenced(Flushed(t))
  {
    var s' := Flushed(t);
    forall u: nat ensures EntryOk(s', u) && RemovalOk(s', u) { }
    forall x ensures ItemOk(s', x) { }
    forall u: nat, w: nat ensures FlushOk(s', u, w) { }
  }

  lemma ApplyConsistent(s: Store, r: Rec)
    requires Consistent(s) && s.last < r.tid
    ensures Consistent(Apply(s, r)) && Apply(s, r).last == r.tid
  {
    match r
    case Add(t, k, v) =>
      UnlinkAnyConsistent(s, k);
      LinkConsistent(UnlinkAny(s, k), k, v, t);
    case Rem(t, d) =>
      if d == FlushAll {
        FlushedSequenced(t);
      } else if d in s.log && s.log[d].Put? {
        UnlinkAnyConsistent(s, s.log[d].key);
        NoteConsistent(UnlinkAny(s, s.log[d].key), t, d);
      } else {
        NoteConsistent(s, t, d);
      }
  }

  /** A slave's log keeps the same shape. */
  lemma ApplySequenced(s: Store, lapsed: set<nat>, r: Rec)
    requires SequencedBut(s, lapsed) && s.last < r.tid
    requires r.Rem? && r.gone != FlushAll ==> 0 < r.gone < r.tid && (r.gone in s.log ==> s.log[r.gone].Put?)
    ensures SequencedBut(Apply(s, r), lapsed) && Apply(s, r).last == r.tid
  {
    var s' := Apply(s, r);
    ApplyConsistent(s, r);
    if r.Rem? && r.gone == FlushAll {
      FlushedSequenced(r.tid);
    } else {
      assert r.Rem? ==> EntryOk(s, r.gone);
      forall t: nat ensures RemovalOk(s', t) { assert RemovalOk(s, t) && EntryOk(s, t); }
      forall t: nat, u: nat ensures FlushOk(s', t, u) { assert FlushOk(s, t, u) && EntryOk(s, t); }
    }
  }

  lemma UnlinkOrdered(s: Store, k: Str)
    requires Ordered(s) && k in s.items
    ensures Ordered(Unlink(s, k))
  {
    var s' := Unlink(s, k);
    UnlinkConsistent(s, k);
    forall t: nat ensures RemovalOk(s', t) { assert RemovalOk(s, t); }
    forall t: nat, u: nat ensures FlushOk(s', t, u) { assert FlushOk(s, t, u); }
  }

  lemma EraseSequenced(s: Store, k: Str)
    requires Ordered(s) && k in s.items && s.last < FlushAll
    ensures Sequenced(Erase(s, k))
  {
    var s' := Erase(s, k);
    UnlinkConsistent(s, k);
    NoteConsistent(Unlink(s, k), s.last + 1, s.items[k].tid);
    assert ItemOk(s, k) && EntryOk(s, s.items[k].tid) && EntryOk(s, s.last + 1);
    forall t: nat ensures RemovalOk(s', t) { assert RemovalOk(s, t) && EntryOk(s, t); }
    forall t: nat, u: nat ensures FlushOk(s', t, u) { assert FlushOk(s, t, u) && EntryOk(s, t); }
  }

  lemma InsertSequenced(s: Store, k: Str, v: Str)
    requires Ordered(s) && k !in s.items
    ensures Sequenced(Insert(s, k, v))
  {
    var s' := Insert(s, k, v);
    LinkConsistent(s, k, v, s.last + 1);
    assert EntryOk(s, s.last + 1);
    forall t: nat ensures RemovalOk(s', t) { assert RemovalOk(s, t) && EntryOk(s, t); }
    forall t: nat, u: nat ensures FlushOk(s', t, u) { assert FlushOk(s, t, u) && EntryOk(s, t); }
  }

  /** Items erased because they expired: the first erase makes the last TID an entry again. */
  lemma {:induction false} EraseAllSequenced(s: Store, gone: seq<Str>)
    requires Ordered(s) && s.last + |gone| < FlushAll
    ensures var s' := EraseAll(s, gone);
      Ordered(s') && s'.last <= s.last + |gone| && (s' == s || Sequenced(s'))
  {
    if gone != [] {
      var s1, k := EraseAll(s, gone[..|gone| - 1]), gone[|gone| - 1];
      EraseAllSequenced(s, gone[..|gone| - 1]);
      if k in s1.items { EraseSequenced(s1, k); }
    }
  }

  // ----- a slave that has taken the entries up to p -----

  /** The master has noted, above p, the removal of the item written under d. */
  ghost predicate Doomed(m: Store, p: nat, d: nat) {
    exists u :: u in m.log && p < u && (m.log[u] == Del(d) || m.log[u] == Del(FlushAll))
  }

  ghost predicate Held(m: Store, s: Store, lapsed: set<nat>, p: nat, k: Str) {
    k in m.items && m.items[k].tid <= p && m.items[k].tid !in lapsed ==> k in s.items && s.items[k] == m.items[k]
  }

  /** A removal the slave has noted is still in the master's log, unless a flush is to come. */
  ghost predicate Noted(m: Store, s: Store, p: nat, t: nat) {
    t in s.log && s.log[t].Del? ==> (t in m.log && m.log[t] == s.log[t]) || Doomed(m, p, FlushAll)
  }

  ghost predicate Current(m: Store, s: Store, p: nat, k: Str) {
    k in s.items ==> (k in m.items && m.items[k] == s.items[k]) || Doomed(m, p, s.items[k].tid)
  }

  /**
   * s is what the master's log makes of a slave that was sent everything up to p:
   * it has every item the master wrote by then and still keeps, but those that have lapsed
   * on it; any other item it has is one whose removal it has yet to be told; and its own log
   * is fit for a master.
   */
  ghost predicate Follows(m: Store, s: Store, lapsed: set<nat>, p: nat) {
    && Ordered(m) && SequencedBut(s, lapsed)
    && s.last <= p <= m.last && Quiet(m, s.last, p)
    && (forall k {:trigger Held(m, s, lapsed, p, k)} :: Held(m, s, lapsed, p, k))
    && (forall k {:trigger Current(m, s, p, k)} :: Current(m, s, p, k))
    && (forall t {:trigger Noted(m, s, p, t)} :: Noted(m, s, p, t))
  }

  lemma NoneDoomed(m: Store, d: nat)
    requires Consistent(m)
    ensures !Doomed(m, m.last, d)
  {
    forall u | u in m.log ensures u <= m.last { assert EntryOk(m, u); }
  }

  /** The master's items but those written under the TIDs of `lapsed`. */
  function Spared(m: Store, lapsed: set<nat>): map<Str, Item> {
    map k | k in m.items && m.items[k].tid !in lapsed :: m.items[k]
  }

  /** A slave that was sent the whole log holds exactly the master's items that have not lapsed. */
  lemma CaughtUp(m: Store, s: Store, lapsed: set<nat>)
    requires Follows(m, s, lapsed, m.last)
    ensures s.items == Spared(m, lapsed) && (Sequenced(m) ==> s.last == m.last)
  {
    var all := Spared(m, lapsed);
    forall k ensures k in s.items <==> k in all
             ensures k in s.items ==> s.items[k] == all[k] {
      assert Held(m, s, lapsed, m.last, k) && Current(m, s, m.last, k) && ItemOk(m, k) && ItemOk(s, k);
      if k in m.items { assert EntryOk(m, m.items[k].tid); }
      if k in s.items { NoneDoomed(m, s.items[k].tid); }
    }
  }

  const Empty := Store(map[], map[], 0)

  lemma StartFollows(m: Store)
    requires Ordered(m)
    ensures Follows(m, Empty, {}, 0)
  {
    forall x ensures ItemOk(Empty, x) && Current(m, Empty, 0, x) { }
    forall t: nat ensures EntryOk(Empty, t) && RemovalOk(Empty, t) && Noted(m, Empty, 0, t) { }
    forall t: nat, u: nat ensures FlushOk(Empty, t, u) { }
    forall x ensures Held(m, Empty, {}, 0, x) {
      assert ItemOk(m, x);
      if x in m.items { assert EntryOk(m, m.items[x].tid); }
    }
  }

  lemma DoomedKept(m: Store, m': Store, p: nat, d: nat)
    requires Consistent(m) && m.last < m'.last && Doomed(m, p, d)
    requires forall t :: t in m.log && m.log[t].Del? ==> t in m'.log && m'.log[t] == m.log[t]
    ensures Doomed(m', p, d)
  {
    var u :| u in m.log && p < u && (m.log[u] == Del(d) || m.log[u] == Del(FlushAll));
    assert u in m'.log && m'.log[u] == m.log[u];
  }

  /** Passing an entry that does not itself remove d leaves d to be removed later. */
  lemma DoomedLater(m: Store, p: nat, q: nat, d: nat)
    requires Doomed(m, p, d) && p <= q
    requires forall u :: p < u <= q && u in m.log ==> m.log[u] != Del(d) && m.log[u] != Del(FlushAll)
    ensures Doomed(m, q, d)
  {
    var u :| u in m.log && p < u && (m.log[u] == Del(d) || m.log[u] == Del(FlushAll));
    assert q < u;
  }

  lemma InsertFollows(m: Store, s: Store, lapsed: set<nat>, p: nat, k: Str, v: Str)
    requires Follows(m, s, lapsed, p) && k !in m.items
    ensures Follows(Insert(m, k, v), s, lapsed, p)
  {
    var m' := Insert(m, k, v);
    InsertSequenced(m, k, v);
    assert EntryOk(m, m.last + 1);
    forall x ensures Held(m', s, lapsed, p, x) { assert Held(m, s, lapsed, p, x); }
    forall x ensures Current(m', s, p, x) {
      assert Current(m, s, p, x);
      if x in s.items && Doomed(m, p, s.items[x].tid) { DoomedKept(m, m', p, s.items[x].tid); }
    }
    forall t: nat ensures Noted(m', s, p, t) {
      assert Noted(m, s, p, t);
      if Doomed(m, p, FlushAll) { DoomedKept(m, m', p, FlushAll); }
    }
  }

  lemma EraseFollows(m: Store, s: Store, lapsed: set<nat>, p: nat, k: Str)
    requires Follows(m, s, lapsed, p) && k in m.items && m.last < FlushAll
    ensures Follows(Erase(m, k), s, lapsed, p)
  {
    var m' := Erase(m, k);
    EraseSequenced(m, k);
    assert ItemOk(m, k) && EntryOk(m, m.last + 1);
    assert m'.last in m'.log && m'.log[m'.last] == Del(m.items[k].tid);
    forall x ensures Held(m', s, lapsed, p, x) { assert Held(m, s, lapsed, p, x); }
    forall x ensures Current(m', s, p, x) {
      assert Current(m, s, p, x);
      if x in s.items && Doomed(m, p, s.items[x].tid) { DoomedKept(m, m', p, s.items[x].tid); }
    }
    forall t: nat ensures Noted(m', s, p, t) {
      assert Noted(m, s, p, t);
      if Doomed(m, p, FlushAll) { DoomedKept(m, m', p, FlushAll); }
    }
  }

  lemma ClearFollows(m: Store, s: Store, lapsed: set<nat>, p: nat)
    requires Follows(m, s, lapsed, p)
    ensures Follows(Clear(m), s, lapsed, p)
  {
    var m' := Clear(m);
    FlushedSequenced(m.last + 1);
    assert m'.last in m'.log && m'.log[m'.last] == Del(FlushAll);
    forall x ensures Held(m', s, lapsed, p, x) && Current(m', s, p, x) { }
    forall t: nat ensures Noted(m', s, p, t) { }
  }

  /** A reader finds an item expired and erases it. */
  lemma LapseFollows(m: Store, s: Store, lapsed: set<nat>, p: nat, k: Str)
    requires Follows(m, s, lapsed, p) && k in s.items
    ensures Follows(m, Unlink(s, k), lapsed + {s.items[k].tid}, p)
  {
    var s' := Unlink(s, k);
    var lapsed' := lapsed + {s.items[k].tid};
    UnlinkOrdered(s, k);
    assert ItemOk(s, k) && EntryOk(s, s.items[k].tid);
    forall x ensures Held(m, s', lapsed', p, x) { assert Held(m, s, lapsed, p, x); }
    forall x ensures Current(m, s', p, x) { assert Current(m, s, p, x); }
    forall t: nat ensures Noted(m, s', p, t) { assert Noted(m, s, p, t); }
  }

  lemma QuietFollows(m: Store, s: Store, lapsed: set<nat>, p: nat, q: nat)
    requires Follows(m, s, lapsed, p) && p <= q <= m.last && Quiet(m, p, q)
    ensures Follows(m, s, lapsed, q)
  {
    forall x ensures Held(m, s, lapsed, q, x) { assert Held(m, s, lapsed, p, x) && ItemOk(m, x); }
    forall x ensures Current(m, s, q, x) {
      assert Current(m, s, p, x);
      if x in s.items && Doomed(m, p, s.items[x].tid) { DoomedLater(m, p, q, s.items[x].tid); }
    }
    forall t: nat ensures Noted(m, s, q, t) {
      assert Noted(m, s, p, t);
      if Doomed(m, p, FlushAll) { DoomedLater(m, p, q, FlushAll); }
    }
  }

  /** A slave may also be taken up again from its own last TID. */
  lemma ResumeFollows(m: Store, s: Store, lapsed: set<nat>, p: nat)
    requires Follows(m, s, lapsed, p)
    ensures Follows(m, s, lapsed, s.last)
  {
    forall x ensures Held(m, s, lapsed, s.last, x) { assert Held(m, s, lapsed, p, x); }
    forall x ensures Current(m, s, s.last, x) { assert Current(m, s, p, x); }
    forall t: nat ensures Noted(m, s, s.last, t) { assert Noted(m, s, p, t); }
  }

  lemma AddFollows(m: Store, s: Store, lapsed: set<nat>, p: nat, q: nat)
    requires Follows(m, s, lapsed, p) && q == p + 1 && q in m.log && m.log[q].Put?
    ensures Follows(m, Apply(s, RecAt(m, q)), lapsed, q)
  {
    var s' := Apply(s, RecAt(m, q));
    ApplySequenced(s, lapsed, RecAt(m, q));
    assert EntryOk(m, q);
    forall x ensures Held(m, s', lapsed, q, x) { assert Held(m, s, lapsed, p, x) && ItemOk(m, x); }
    forall x ensures Current(m, s', q, x) {
      assert Current(m, s, p, x);
      if x in s.items && Doomed(m, p, s.items[x].tid) { DoomedLater(m, p, q, s.items[x].tid); }
    }
    forall t: nat ensures Noted(m, s', q, t) {
      assert Noted(m, s, p, t);
      if Doomed(m, p, FlushAll) { DoomedLater(m, p, q, FlushAll); }
    }
  }

  lemma FlushFollows(m: Store, s: Store, lapsed: set<nat>, p: nat, q: nat)
    requires Follows(m, s, lapsed, p) && q == p + 1 && q in m.log && m.log[q] == Del(FlushAll)
    ensures Follows(m, Apply(s, RecAt(m, q)), lapsed, q)
  {
    var s' := Apply(s, RecAt(m, q));
    FlushedSequenced(q);
    assert EntryOk(m, q);
    forall x ensures Held(m, s', lapsed, q, x) {
      assert ItemOk(m, x);
      if x in m.items { assert FlushOk(m, q, m.items[x].tid); }
    }
    forall x ensures Current(m, s', q, x) { }
    forall t: nat ensures Noted(m, s', q, t) { }
  }

  /** A removal of one item comes with no flush still to come. */
  lemma NoFlushAbove(m: Store, p: nat, q: nat)
    requires Ordered(m) && q == p + 1 && q in m.log && m.log[q] != Del(FlushAll)
    ensures !Doomed(m, p, FlushAll) && !Doomed(m, q, FlushAll)
  {
    forall u | u in m.log && p < u ensures m.log[u] != Del(FlushAll) { assert FlushOk(m, u, q); }
  }

  /** The item a removal names is not a removal on the slave. */
  lemma RemNamesPut(m: Store, s: Store, lapsed: set<nat>, p: nat, q: nat)
    requires Follows(m, s, lapsed, p) && q == p + 1 && q in m.log && m.log[q].Del? && m.log[q].gone != FlushAll
    ensures var d := m.log[q].gone; 0 < d < q && d !in m.log && (d in s.log ==> s.log[d].Put?)
  {
    assert EntryOk(m, q) && RemovalOk(m, q) && Noted(m, s, p, m.log[q].gone);
    NoFlushAbove(m, p, q);
  }

  lemma RemFollows(m: Store, s: Store, lapsed: set<nat>, p: nat, q: nat)
    requires Follows(m, s, lapsed, p) && q == p + 1 && q in m.log && m.log[q].Del? && m.log[q].gone != FlushAll
    ensures Follows(m, Apply(s, RecAt(m, q)), lapsed, q)
  {
    var d := m.log[q].gone;
    var s' := Apply(s, RecAt(m, q));
    RemNamesPut(m, s, lapsed, p, q);
    ApplySequenced(s, lapsed, RecAt(m, q));
    assert EntryOk(s, d);
    forall x ensures Held(m, s', lapsed, q, x) { assert Held(m, s, lapsed, p, x) && ItemOk(m, x) && ItemOk(s, x); }
    forall x ensures Current(m, s', q, x) {
      assert Current(m, s, p, x) && ItemOk(s, x);
      if x in s'.items && Doomed(m, p, s'.items[x].tid) { DoomedLater(m, p, q, s'.items[x].tid); }
    }
    NoFlushAbove(m, p, q);
    forall t: nat ensures Noted(m, s', q, t) { assert Noted(m, s, p, t); }
  }

  /** Sending the entries up to q makes the slave one that was sent everything up to q. */
  lemma {:induction false} ShipFollows(m: Store, s: Store, lapsed: set<nat>, p: nat, q: nat)
    requires Follows(m, s, lapsed, p) && p <= q <= m.last
    ensures Follows(m, ApplyAll(s, Entries(m, p, q)), lapsed, q)
    decreases q
  {
    if p < q {
      ShipFollows(m, s, lapsed, p, q - 1);
      var e := Entries(m, p, q - 1);
      var s1 := ApplyAll(s, e);
      assert EntryOk(m, q);
      if q !in m.log {
        QuietFollows(m, s1, lapsed, q - 1, q);
      } else {
        assert (e + [RecAt(m, q)])[..|e|] == e;
        if m.log[q].Put? {
          AddFollows(m, s1, lapsed, q - 1, q);
        } else if m.log[q].gone == FlushAll {
          FlushFollows(m, s1, lapsed, q - 1, q);
        } else {
          RemFollows(m, s1, lapsed, q - 1, q);
        }
      }
    }
  }
}
