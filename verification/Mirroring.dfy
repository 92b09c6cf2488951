/**
 * What a delivered batch does to a slave, wherever the batch starts.
 *
 * A batch was packed from the master's log at some earlier moment, between two TIDs that
 * need not have anything to do with the slave. The replay drops it when its first packet
 * is not above the slave's last TID, and takes it otherwise, whatever lies in between.
 */
module Mirroring {
  import opened TidLog
  import opened TidReplay
  import opened TidWire

  /** The entries packed above `from` and up to `upto`. */
  datatype Batch = Batch(from: nat, upto: nat, pkts: seq<Pkt>)

  // ----- the master's past: what was once logged under each TID -----

  ghost predicate Dated(log: map<nat, Entry>, past: map<nat, Entry>, t: nat) {
    t in log ==> t in past && past[t] == log[t]
  }

  /** A log holds nothing but what the master once logged. */
  ghost predicate Within(log: map<nat, Entry>, past: map<nat, Entry>) {
    forall t {:trigger Dated(log, past, t)} :: Dated(log, past, t)
  }

  ghost predicate Origin(past: map<nat, Entry>, t: nat) {
    t in past && past[t].Del? && past[t].gone != FlushAll ==>
      0 < past[t].gone < t && past[t].gone in past && past[past[t].gone].Put?
  }

  ghost predicate History(m: Store, past: map<nat, Entry>) {
    && Within(m.log, past) && (forall t :: t in past ==> t <= m.last)
    && (forall t {:trigger Origin(past, t)} :: Origin(past, t))
  }

  function EntryOf(r: Rec): Entry {
    match r
    case Add(_, k, _) => Put(k)
    case Rem(_, d) => Del(d)
  }

  // ----- batches -----

  predicate Ascending(pkts: seq<Pkt>) {
    forall i, j :: 0 <= i < j < |pkts| ==> pkts[i].rec.tid < pkts[j].rec.tid
  }

  /** An entry sent is still in the master's log, or its removal is noted above the batch. */
  ghost predicate Sent(m: Store, past: map<nat, Entry>, b: Batch, r: Rec) {
    && b.from < r.tid <= b.upto && r.tid in past && past[r.tid] == EntryOf(r)
    && if r.tid in m.log then EntryOk(m, r.tid) && RecAt(m, r.tid) == r
       else if r.Rem? then Doomed(m, b.upto, FlushAll)
       else Doomed(m, b.upto, r.tid) && (r.key in m.items ==> m.items[r.key].tid > b.upto)
  }

  /** Nothing between its ends that the master still has is missing from the batch. */
  ghost predicate Present(m: Store, b: Batch, t: nat) {
    t in m.log && b.from < t <= b.upto ==> exists i :: 0 <= i < |b.pkts| && b.pkts[i].rec.tid == t
  }

  ghost predicate BatchOk(m: Store, past: map<nat, Entry>, b: Batch) {
    && b.from <= b.upto <= m.last && Ascending(b.pkts)
    && (forall i {:trigger Sent(m, past, b, b.pkts[i].rec)} :: 0 <= i < |b.pkts| ==> Sent(m, past, b, b.pkts[i].rec))
    && (forall t {:trigger Present(m, b, t)} :: Present(m, b, t))
  }

  // ----- a slave that mirrors the master -----

  ghost predicate Kept(m: Store, s: Store, lapsed: set<nat>, t: nat) {
    t in m.log && t <= s.last && t !in lapsed ==> t in s.log && s.log[t] == m.log[t]
  }

  /**
   * Up to p the slave has what the master's log says, apart from the TIDs of `lapsed`: every
   * item still kept, every entry still in the log, nothing the master did not log, and no
   * other item but ones whose removal is yet to come.
   */
  ghost predicate MirrorsTo(m: Store, past: map<nat, Entry>, s: Store, lapsed: set<nat>, p: nat) {
    Follows(m, s, lapsed, p) && Within(s.log, past) && forall t {:trigger Kept(m, s, lapsed, t)} :: Kept(m, s, lapsed, t)
  }

  /** Up to its own last TID. */
  ghost predicate Mirrors(m: Store, past: map<nat, Entry>, s: Store, lapsed: set<nat>) {
    MirrorsTo(m, past, s, lapsed, s.last)
  }

  /** When there is nothing more to come, the stores agree but for what has lapsed. */
  lemma MirrorsAll(m: Store, past: map<nat, Entry>, s: Store, lapsed: set<nat>)
    requires Mirrors(m, past, s, lapsed)
    ensures Sequenced(m) ==> (s.last == m.last <==> Quiet(m, s.last, m.last))
    ensures Quiet(m, s.last, m.last) ==> s.items == Spared(m, lapsed)
  {
    if Quiet(m, s.last, m.last) {
      QuietFollows(m, s, lapsed, s.last, m.last);
      CaughtUp(m, s, lapsed);
    }
  }

  /** An item that lapses on the slave leaves it a mirror apart from that item's TID. */
  lemma LapseMirrors(m: Store, past: map<nat, Entry>, s: Store, lapsed: set<nat>, k: Str)
    requires Mirrors(m, past, s, lapsed) && k in s.items
    ensures Mirrors(m, past, Unlink(s, k), lapsed + {s.items[k].tid})
  {
    var s' := Unlink(s, k);
    LapseFollows(m, s, lapsed, s.last, k);
    forall t: nat ensures Dated(s'.log, past, t) { assert Dated(s.log, past, t); }
    forall t: nat ensures Kept(m, s', lapsed + {s.items[k].tid}, t) { assert Kept(m, s, lapsed, t); }
  }

  lemma MirrorsQuiet(m: Store, past: map<nat, Entry>, s: Store, lapsed: set<nat>, p: nat, q: nat)
    requires MirrorsTo(m, past, s, lapsed, p) && p <= q <= m.last && Quiet(m, p, q)
    ensures MirrorsTo(m, past, s, lapsed, q)
  {
    QuietFollows(m, s, lapsed, p, q);
  }

  lemma MirrorsBack(m: Store, past: map<nat, Entry>, s: Store, lapsed: set<nat>, p: nat)
    requires MirrorsTo(m, past, s, lapsed, p)
    ensures Mirrors(m, past, s, lapsed)
  {
    ResumeFollows(m, s, lapsed, p);
  }

  // ----- one entry -----

  /** An addition whose item the master no longer has. */
  lemma StaleAddFollows(m: Store, past: map<nat, Entry>, b: Batch, s: Store, lapsed: set<nat>, p: nat, r: Rec)
    requires Follows(m, s, lapsed, p) && r.Add? && Sent(m, past, b, r) && r.tid !in m.log
    requires p < r.tid && Quiet(m, p, r.tid) && b.upto <= m.last
    ensures Follows(m, Apply(s, r), lapsed, r.tid)
  {
    var s', q := Apply(s, r), r.tid;
    ApplySequenced(s, lapsed, r);
    forall x ensures Held(m, s', lapsed, q, x) { assert Held(m, s, lapsed, p, x) && ItemOk(m, x); }
    forall x ensures Current(m, s', q, x) {
      assert Current(m, s, p, x);
      if x == r.key {
        var u :| u in m.log && b.upto < u && (m.log[u] == Del(q) || m.log[u] == Del(FlushAll));
        assert Doomed(m, q, q);
      } else if x in s.items && Doomed(m, p, s.items[x].tid) {
        DoomedLater(m, p, q, s.items[x].tid);
      }
    }
    forall t: nat ensures Noted(m, s', q, t) {
      assert Noted(m, s, p, t);
      if Doomed(m, p, FlushAll) { DoomedLater(m, p, q, FlushAll); }
    }
  }

  /** A flush noted above q leaves nothing up to q in the master's log. */
  lemma FlushEmpties(m: Store, q: nat)
    requires Ordered(m) && Doomed(m, q, FlushAll)
    ensures forall t :: t in m.log ==> q < t
    ensures forall k :: k in m.items ==> q < m.items[k].tid
  {
    var u :| u in m.log && q < u && m.log[u] == Del(FlushAll);
    forall t | t in m.log ensures q < t { assert FlushOk(m, u, t); }
    forall k | k in m.items ensures q < m.items[k].tid { assert ItemOk(m, k); }
  }

  lemma DoomedBelow(m: Store, q: nat, t: nat, d: nat)
    requires Doomed(m, q, FlushAll) && t <= q
    ensures Doomed(m, t, d)
  {
    var u :| u in m.log && q < u && m.log[u] == Del(FlushAll);
  }

  /** A removal that a flush has since swept away. */
  lemma StaleRemFollows(m: Store, past: map<nat, Entry>, b: Batch, s: Store, lapsed: set<nat>, p: nat, r: Rec)
    requires Follows(m, s, lapsed, p) && r.Rem? && Sent(m, past, b, r) && r.tid !in m.log
    requires p < r.tid && b.upto <= m.last && SequencedBut(Apply(s, r), lapsed)
    ensures Follows(m, Apply(s, r), lapsed, r.tid)
  {
    var s', q := Apply(s, r), r.tid;
    FlushEmpties(m, b.upto);
    forall x ensures Held(m, s', lapsed, q, x) { }
    forall x ensures Current(m, s', q, x) { if x in s'.items { DoomedBelow(m, b.upto, q, s'.items[x].tid); } }
    forall t: nat ensures Noted(m, s', q, t) { DoomedBelow(m, b.upto, q, FlushAll); }
  }

  lemma TakeFollows(m: Store, past: map<nat, Entry>, b: Batch, s: Store, lapsed: set<nat>, p: nat, r: Rec)
    requires History(m, past) && Within(s.log, past) && Follows(m, s, lapsed, p)
    requires Sent(m, past, b, r) && b.upto <= m.last && p < r.tid && Quiet(m, p, r.tid - 1)
    ensures Follows(m, Apply(s, r), lapsed, r.tid)
  {
    var q := r.tid;
    assert Origin(past, q);
    if r.Rem? && r.gone != FlushAll { assert Dated(s.log, past, r.gone); }
    if q in m.log {
      QuietFollows(m, s, lapsed, p, q - 1);
      if r.Add? {
        AddFollows(m, s, lapsed, q - 1, q);
      } else if r.gone == FlushAll {
        FlushFollows(m, s, lapsed, q - 1, q);
      } else {
        RemFollows(m, s, lapsed, q - 1, q);
      }
    } else if r.Add? {
      StaleAddFollows(m, past, b, s, lapsed, p, r);
    } else {
      if r.gone == FlushAll {
        FlushedSequenced(q);
      } else {
        ApplySequenced(s, lapsed, r);
      }
      StaleRemFollows(m, past, b, s, lapsed, p, r);
    }
  }

  /** The slave's log stays a copy of the master's as far as it goes. */
  lemma TakeKept(m: Store, past: map<nat, Entry>, b: Batch, s: Store, lapsed: set<nat>, p: nat, r: Rec)
    requires Ordered(m) && MirrorsTo(m, past, s, lapsed, p) && Sent(m, past, b, r)
    requires b.upto <= m.last && p < r.tid && Quiet(m, p, r.tid - 1)
    ensures forall t {:trigger Kept(m, Apply(s, r), lapsed, t)} :: Kept(m, Apply(s, r), lapsed, t)
    ensures Within(Apply(s, r).log, past)
  {
    var s', q := Apply(s, r), r.tid;
    forall t: nat ensures Dated(s'.log, past, t) { assert Dated(s.log, past, t); }
    if q !in m.log && r.Rem? { FlushEmpties(m, b.upto); }
    assert q in m.log ==> RemovalOk(m, q);
    assert EntryOk(m, q);
    if r.Add? && r.key in s.items {
      var d := s.items[r.key].tid;
      assert ItemOk(s, r.key) && EntryOk(s, d) && Kept(m, s, lapsed, d) && EntryOk(m, d);
      assert d !in m.log;
    }
    if r.Rem? { assert EntryOk(s, r.gone); }
    forall t: nat ensures Kept(m, s', lapsed, t) {
      assert Kept(m, s, lapsed, t) && FlushOk(m, q, t);
    }
  }

  lemma TakeOne(m: Store, past: map<nat, Entry>, b: Batch, s: Store, lapsed: set<nat>, p: nat, r: Rec)
    requires History(m, past) && MirrorsTo(m, past, s, lapsed, p)
    requires Sent(m, past, b, r) && b.upto <= m.last && p < r.tid && Quiet(m, p, r.tid - 1)
    ensures MirrorsTo(m, past, Apply(s, r), lapsed, r.tid)
  {
    TakeFollows(m, past, b, s, lapsed, p, r);
    TakeKept(m, past, b, s, lapsed, p, r);
  }

  // ----- a whole batch -----

  /** Between two packets that follow each other the master has nothing. */
  lemma NothingBetween(m: Store, past: map<nat, Entry>, b: Batch, i: nat, p: nat, q: nat)
    requires BatchOk(m, past, b) && i <= |b.pkts|
    requires p == if i == 0 then b.from else b.pkts[i - 1].rec.tid
    requires q == if i < |b.pkts| then b.pkts[i].rec.tid else b.upto + 1
    ensures forall t :: p < t < q ==> t !in m.log
  {
    if i > 0 { assert Sent(m, past, b, b.pkts[i - 1].rec); }
    if i < |b.pkts| { assert Sent(m, past, b, b.pkts[i].rec); }
    forall j | 0 <= j < |b.pkts| ensures b.pkts[j].rec.tid <= p || q <= b.pkts[j].rec.tid {
      assert Sent(m, past, b, b.pkts[j].rec);
    }
    forall t | p < t < q ensures t !in m.log { assert Present(m, b, t); }
  }

  /** A batch that leaves no gap brings a slave to its end. */
  lemma {:induction false} TakeFrom(m: Store, past: map<nat, Entry>, b: Batch, s: Store, lapsed: set<nat>, p: nat, i: nat)
    requires History(m, past) && BatchOk(m, past, b) && MirrorsTo(m, past, s, lapsed, p) && i <= |b.pkts|
    requires p == if i == 0 then (if b.from < s.last then s.last else b.from) else b.pkts[i - 1].rec.tid
    requires i == 0 && b.pkts != [] ==> p < b.pkts[0].rec.tid
    requires i == 0 && b.pkts == [] ==> p <= b.upto
    ensures MirrorsTo(m, past, ApplyAll(s, Recs(b.pkts[i..])), lapsed, b.upto)
    decreases |b.pkts| - i
  {
    NothingBetween(m, past, b, i, if i == 0 then b.from else p, if i < |b.pkts| then b.pkts[i].rec.tid else b.upto + 1);
    if i == |b.pkts| {
      if i > 0 { assert Sent(m, past, b, b.pkts[i - 1].rec); }
      assert Recs(b.pkts[i..]) == [];
      MirrorsQuiet(m, past, s, lapsed, p, b.upto);
    } else {
      var r, rest := b.pkts[i].rec, b.pkts[i + 1..];
      assert Sent(m, past, b, r);
      TakeOne(m, past, b, s, lapsed, p, r);
      TakeFrom(m, past, b, Apply(s, r), lapsed, r.tid, i + 1);
      assert b.pkts[i..] == [b.pkts[i]] + rest;
      assert Recs(b.pkts[i..]) == [r] + Recs(rest) by { assert b.pkts[i..][1..] == rest; }
      ApplyAllAdds(s, [r], Recs(rest));
      assert ApplyAll(s, [r]) == Apply(s, r) by { assert [r][..0] == []; }
    }
  }

  // ----- delivery -----

  lemma ApplyLast(s: Store, r: Rec)
    ensures Apply(s, r).last == r.tid
  {
  }

  /** Replaying an ascending batch above the last TID, without misfires, applies its entries. */
  lemma {:induction false} PerformedApplies(s: Store, pkts: seq<Pkt>)
    requires Ascending(pkts) && (pkts != [] ==> s.last < pkts[0].rec.tid)
    ensures Performed(s, pkts) == ApplyAll(s, Recs(pkts))
    decreases |pkts|
  {
    if pkts != [] {
      var s1 := Apply(s, pkts[0].rec);
      ApplyLast(s, pkts[0].rec);
      PerformedApplies(s1, pkts[1..]);
      assert Recs(pkts) == [pkts[0].rec] + Recs(pkts[1..]);
      ApplyAllAdds(s, [pkts[0].rec], Recs(pkts[1..]));
      assert ApplyAll(s, [pkts[0].rec]) == s1 by { assert [pkts[0].rec][..0] == []; }
    }
  }

  /** The replay drops the batch: its first packet is not above the slave's last TID. */
  predicate Dropped(s: Store, b: Batch) {
    b.pkts == [] || b.pkts[0].rec.tid <= s.last
  }

  /** Nothing the master's log has lies between the slave's last TID and where the batch starts. */
  ghost predicate NoGap(m: Store, s: Store, b: Batch) {
    Quiet(m, s.last, b.from)
  }

  /** If the batch is taken, it leaves no gap. */
  ghost predicate Joins(m: Store, s: Store, b: Batch) {
    Dropped(s, b) || NoGap(m, s, b)
  }

  /**
   * The batch starts where the slave stands: no entry in between is missing from it and none
   * in it is at or below the slave's last TID; or it has nothing that the slave lacks.
   */
  ghost predicate Continues(m: Store, s: Store, b: Batch) {
    (!Dropped(s, b) && NoGap(m, s, b)) || Quiet(m, s.last, b.upto)
  }

  /** The slave has everything the batch was to bring. */
  ghost predicate Reaches(m: Store, past: map<nat, Entry>, s: Store, lapsed: set<nat>, b: Batch) {
    Mirrors(m, past, s, lapsed) && Quiet(m, s.last, b.upto)
  }

  lemma ApplyLog(s: Store, r: Rec, t: nat)
    requires t in Apply(s, r).log
    ensures t in s.log || t == r.tid
  {
  }

  /** A log only gets entries under the TIDs of what is applied. */
  lemma {:induction false} ApplyAllLog(s: Store, rs: seq<Rec>, t: nat)
    requires t in ApplyAll(s, rs).log
    ensures t in s.log || exists i :: 0 <= i < |rs| && rs[i].tid == t
    decreases |rs|
  {
    if rs != [] {
      var most := rs[..|rs| - 1];
      ApplyLog(ApplyAll(s, most), rs[|rs| - 1], t);
      if t != rs[|rs| - 1].tid {
        ApplyAllLog(s, most, t);
        if t !in s.log {
          var i :| 0 <= i < |most| && most[i].tid == t;
          assert rs[i].tid == t;
        }
      }
    }
  }

  lemma ApplyAllLast(s: Store, rs: seq<Rec>)
    ensures ApplyAll(s, rs).last == if rs == [] then s.last else rs[|rs| - 1].tid
  {
    if rs != [] { ApplyLast(ApplyAll(s, rs[..|rs| - 1]), rs[|rs| - 1]); }
  }

  /** A batch taken over a gap leaves a hole in the slave's log for good. */
  lemma GapLoses(m: Store, past: map<nat, Entry>, s: Store, lapsed: set<nat>, b: Batch)
    requires BatchOk(m, past, b) && Consistent(s) && Cleared(s, lapsed) && !Dropped(s, b) && !NoGap(m, s, b)
    ensures !Mirrors(m, past, ApplyAll(s, Recs(b.pkts)), lapsed)
  {
    var s', rs := ApplyAll(s, Recs(b.pkts)), Recs(b.pkts);
    var t: nat :| s.last < t <= b.from && t in m.log;
    ApplyAllLast(s, rs);
    assert Sent(m, past, b, b.pkts[|rs| - 1].rec);
    forall i | 0 <= i < |rs| ensures rs[i].tid > b.from { assert Sent(m, past, b, b.pkts[i].rec); }
    assert EntryOk(s, t);
    if t in s'.log { ApplyAllLog(s, rs, t); }
    assert !Kept(m, s', lapsed, t);
  }

  /**
   * Delivered to a slave that mirrors the master, a batch keeps it so exactly when it is
   * dropped or leaves no gap, and brings it everything up to the batch's end exactly when
   * it starts where the slave stands or has nothing the slave lacks.
   */
  lemma DeliveryExactly(m: Store, past: map<nat, Entry>, s: Store, lapsed: set<nat>, b: Batch)
    requires History(m, past) && BatchOk(m, past, b) && Mirrors(m, past, s, lapsed) && NoMisfire(s, b.pkts)
    ensures Mirrors(m, past, Replay(s, b.pkts), lapsed) <==> Joins(m, s, b)
    ensures Reaches(m, past, Replay(s, b.pkts), lapsed, b) <==> Continues(m, s, b)
  {
    if !Dropped(s, b) {
      LookaheadSound(s, b.pkts);
      PerformedApplies(s, b.pkts);
      if NoGap(m, s, b) {
        JoinedReaches(m, past, s, lapsed, b);
      } else {
        GapLoses(m, past, s, lapsed, b);
      }
    }
  }

  lemma JoinedReaches(m: Store, past: map<nat, Entry>, s: Store, lapsed: set<nat>, b: Batch)
    requires History(m, past) && BatchOk(m, past, b) && Mirrors(m, past, s, lapsed) && !Dropped(s, b) && NoGap(m, s, b)
    ensures Reaches(m, past, ApplyAll(s, Recs(b.pkts)), lapsed, b)
  {
    assert Sent(m, past, b, b.pkts[0].rec);
    var p := if b.from < s.last then s.last else b.from;
    MirrorsQuiet(m, past, s, lapsed, s.last, p);
    assert b.pkts[0..] == b.pkts;
    TakeFrom(m, past, b, s, lapsed, p, 0);
    MirrorsBack(m, past, ApplyAll(s, Recs(b.pkts)), lapsed, b.upto);
  }

  // ----- the lookahead, seen from the master -----

  /**
   * No removal is directly followed by an addition whose key and value bytes begin with the
   * key removed without being that key. `past` knows the key a removal is about.
   */
  predicate Plain(past: map<nat, Entry>, pkts: seq<Pkt>) {
    forall i {:trigger PlainAt(past, pkts, i)} :: 0 <= i < |pkts| - 1 ==> PlainAt(past, pkts, i)
  }

  predicate PlainAt(past: map<nat, Entry>, pkts: seq<Pkt>, i: nat)
    requires i + 1 < |pkts|
  {
    (pkts[i].rec.Rem? && pkts[i].rec.gone != FlushAll && pkts[i + 1].rec.Add?
      && About(past, pkts[i].rec).Put? && Starts(pkts[i + 1].data, About(past, pkts[i].rec).key)) ==>
      pkts[i + 1].rec.key == About(past, pkts[i].rec).key
  }

  /** The entry that a removal clears. */
  function About(past: map<nat, Entry>, r: Rec): Entry
    requires r.Rem?
  {
    if r.gone in past then past[r.gone] else Del(0)
  }

  ghost predicate Told(past: map<nat, Entry>, r: Rec) {
    r.tid in past && past[r.tid] == EntryOf(r)
  }

  lemma ApplyWithin(past: map<nat, Entry>, s: Store, r: Rec)
    requires Within(s.log, past) && Told(past, r)
    ensures Within(Apply(s, r).log, past)
  {
    var s' := Apply(s, r);
    forall t: nat ensures Dated(s'.log, past, t) { assert Dated(s.log, past, t); }
  }

  /** What a sender can see to before shipping keeps the lookahead from misfiring on any slave. */
  lemma {:induction false} PlainNeverMisfires(past: map<nat, Entry>, s: Store, pkts: seq<Pkt>)
    requires Plain(past, pkts) && Ascending(pkts) && Within(s.log, past)
    requires forall i {:trigger Told(past, pkts[i].rec)} :: 0 <= i < |pkts| ==> Told(past, pkts[i].rec)
    ensures NoMisfire(s, pkts)
    decreases |pkts|
  {
    if pkts != [] && s.last < pkts[0].rec.tid {
      var rest := pkts[1..];
      assert Told(past, pkts[0].rec);
      ApplyWithin(past, s, pkts[0].rec);
      if Skips(s, pkts) {
        assert PlainAt(past, pkts, 0) && Dated(s.log, past, pkts[0].rec.gone);
      }
      forall i | 0 <= i < |rest| - 1 ensures PlainAt(past, rest, i) { assert PlainAt(past, pkts, i + 1); }
      forall i | 0 <= i < |rest| ensures Told(past, rest[i].rec) { assert Told(past, pkts[i + 1].rec); }
      PlainNeverMisfires(past, Apply(s, pkts[0].rec), rest);
    }
  }

  /** The replay never takes anything but what the master once logged. */
  lemma {:induction false} ReplayWithin(past: map<nat, Entry>, s: Store, pkts: seq<Pkt>)
    requires Within(s.log, past) && Consistent(s)
    requires forall i {:trigger Told(past, pkts[i].rec)} :: 0 <= i < |pkts| ==> Told(past, pkts[i].rec)
    ensures Within(Replay(s, pkts).log, past) && Consistent(Replay(s, pkts)) && s.last <= Replay(s, pkts).last
    ensures forall t :: t <= s.last && t !in s.log ==> t !in Replay(s, pkts).log
    ensures Replay(s, pkts).last == s.last || exists i :: 0 <= i < |pkts| && Replay(s, pkts).last == pkts[i].rec.tid
    decreases |pkts|
  {
    if pkts != [] && s.last < pkts[0].rec.tid {
      var s1, rest := Step(s, pkts), pkts[1..];
      assert Told(past, pkts[0].rec);
      StepLast(s, pkts);
      ApplyWithin(past, s, pkts[0].rec);
      ApplyConsistent(s, pkts[0].rec);
      if Skips(s, pkts) {
        NoteConsistent(s, pkts[0].rec.tid, pkts[0].rec.gone);
        forall t: nat ensures Dated(s1.log, past, t) { assert Dated(s.log, past, t); }
      }
      forall i | 0 <= i < |rest| ensures Told(past, rest[i].rec) { assert Told(past, pkts[i + 1].rec); }
      ReplayWithin(past, s1, rest);
      if Replay(s, pkts).last != s1.last {
        var i :| 0 <= i < |rest| && Replay(s, pkts).last == rest[i].rec.tid;
        assert pkts[i + 1] == rest[i];
      }
    }
  }

  // ----- the master goes on -----

  ghost predicate Extends(past: map<nat, Entry>, past': map<nat, Entry>) {
    forall t {:trigger t in past'} :: t in past ==> t in past' && past'[t] == past[t]
  }

  lemma WithinExtends(log: map<nat, Entry>, past: map<nat, Entry>, past': map<nat, Entry>)
    requires Within(log, past) && Extends(past, past')
    ensures Within(log, past')
  {
    forall t: nat ensures Dated(log, past', t) { assert Dated(log, past, t); }
  }

  /** One change of the master: it logs entries of its own and leaves the others or clears them. */
  ghost predicate Moves(m: Store, m': Store) {
    && m.last < m'.last
    && (forall t {:trigger t in m'.log} :: t in m'.log && t <= m.last ==> t in m.log && m'.log[t] == m.log[t])
    && (forall t :: t in m'.log && m.last < t ==> t == m'.last)
    && m'.last in m'.log
  }

  lemma MovesHistory(m: Store, m': Store, past: map<nat, Entry>)
    requires History(m, past) && Moves(m, m')
    requires m'.log[m'.last].Del? && m'.log[m'.last].gone != FlushAll ==>
      0 < m'.log[m'.last].gone <= m.last && m'.log[m'.last].gone in past && past[m'.log[m'.last].gone].Put?
    ensures History(m', past + m'.log) && Extends(past, past + m'.log)
  {
    var past' := past + m'.log;
    forall t: nat ensures Dated(m'.log, past', t) { }
    forall t | t in past ensures t in past' && past'[t] == past[t] {
      if t in m'.log { assert Dated(m.log, past, t); }
    }
    forall t: nat ensures Origin(past', t) { assert Origin(past, t) && Dated(m.log, past, t); }
  }

  /** What removes or keeps an item sent stays visible after one more change. */
  lemma MovesBatch(m: Store, m': Store, past: map<nat, Entry>, past': map<nat, Entry>, b: Batch)
    requires BatchOk(m, past, b) && Extends(past, past') && Moves(m, m') && Consistent(m) && Consistent(m')
    requires forall r {:trigger Sent(m, past, b, r)} :: Sent(m, past, b, r) ==> Sent(m', past', b, r)
    ensures BatchOk(m', past', b)
  {
    forall i | 0 <= i < |b.pkts| ensures Sent(m', past', b, b.pkts[i].rec) { assert Sent(m, past, b, b.pkts[i].rec); }
    forall t: nat ensures Present(m', b, t) { assert Present(m, b, t); }
  }

  lemma InsertSent(m: Store, past: map<nat, Entry>, past': map<nat, Entry>, b: Batch, k: Str, v: Str, r: Rec)
    requires Ordered(m) && k !in m.items && b.upto <= m.last && Extends(past, past') && Sent(m, past, b, r)
    ensures Sent(Insert(m, k, v), past', b, r)
  {
    var m' := Insert(m, k, v);
    InsertSequenced(m, k, v);
    assert EntryOk(m, r.tid) && EntryOk(m', r.tid) && EntryOk(m, m.last + 1);
    if r.tid !in m.log { DoomedKept(m, m', b.upto, if r.Rem? then FlushAll else r.tid); }
  }

  lemma EraseSent(m: Store, past: map<nat, Entry>, past': map<nat, Entry>, b: Batch, k: Str, r: Rec)
    requires Ordered(m) && k in m.items && m.last < FlushAll
    requires b.upto <= m.last && Extends(past, past') && Sent(m, past, b, r)
    ensures Sent(Erase(m, k), past', b, r)
  {
    var m' := Erase(m, k);
    EraseSequenced(m, k);
    assert EntryOk(m, r.tid) && EntryOk(m', r.tid) && ItemOk(m, k) && EntryOk(m, m.last + 1) && EntryOk(m, m.items[k].tid);
    if r.tid !in m.log {
      DoomedKept(m, m', b.upto, if r.Rem? then FlushAll else r.tid);
    } else if r.tid == m.items[k].tid {
      assert m'.log[m'.last] == Del(r.tid) && Doomed(m', b.upto, r.tid);
    }
  }

  lemma ClearSent(m: Store, past: map<nat, Entry>, past': map<nat, Entry>, b: Batch, r: Rec)
    requires b.upto <= m.last && Extends(past, past') && Sent(m, past, b, r)
    ensures Sent(Clear(m), past', b, r)
  {
    var m' := Clear(m);
    assert m'.log[m'.last] == Del(FlushAll);
    assert Doomed(m', b.upto, FlushAll) && Doomed(m', b.upto, r.tid);
  }

  lemma MovesMirrors(m: Store, m': Store, past: map<nat, Entry>, past': map<nat, Entry>, s: Store, lapsed: set<nat>)
    requires Mirrors(m, past, s, lapsed) && Moves(m, m') && Extends(past, past') && Follows(m', s, lapsed, s.last)
    ensures Mirrors(m', past', s, lapsed)
  {
    WithinExtends(s.log, past, past');
    forall t: nat ensures Kept(m', s, lapsed, t) { assert Kept(m, s, lapsed, t); }
  }

  /** An item whose entry the master still has is the master's. */
  ghost predicate Genuine(m: Store, s: Store, k: Str) {
    k in s.items && s.items[k].tid in m.log ==> k in m.items && m.items[k] == s.items[k]
  }

  /** The master, a slave in whatever state, and batches on their way. */
  ghost predicate World(m: Store, past: map<nat, Entry>, s: Store, lapsed: set<nat>, bs: set<Batch>) {
    && Ordered(m) && History(m, past) && Consistent(s) && Within(s.log, past) && s.last <= m.last
    && Cleared(s, lapsed) && (forall k {:trigger Genuine(m, s, k)} :: Genuine(m, s, k))
    && forall b {:trigger BatchOk(m, past, b)} :: b in bs ==> BatchOk(m, past, b)
  }

  lemma GenuineMoves(m: Store, m': Store, s: Store, k: Str)
    requires Genuine(m, s, k) && Moves(m, m') && Consistent(m) && Consistent(m') && Consistent(s) && s.last <= m.last
    requires forall x :: x in m.items && x in m'.items && m'.items[x].tid <= m.last ==> m'.items[x] == m.items[x]
    ensures Genuine(m', s, k)
  {
    if k in s.items {
      var t := s.items[k].tid;
      assert ItemOk(s, k) && EntryOk(s, t) && EntryOk(m', t) && ItemOk(m, k);
    }
  }

  /** What a packet adds is the master's item while the master has its entry. */
  ghost predicate Authentic(m: Store, r: Rec) {
    r.Add? && r.tid in m.log ==> r.key in m.items && m.items[r.key] == Item(r.val, r.tid)
  }

  lemma {:induction false} ReplayGenuine(m: Store, s: Store, pkts: seq<Pkt>)
    requires forall k {:trigger Genuine(m, s, k)} :: Genuine(m, s, k)
    requires forall i {:trigger Authentic(m, pkts[i].rec)} :: 0 <= i < |pkts| ==> Authentic(m, pkts[i].rec)
    ensures forall k {:trigger Genuine(m, Replay(s, pkts), k)} :: Genuine(m, Replay(s, pkts), k)
    decreases |pkts|
  {
    if pkts != [] && s.last < pkts[0].rec.tid {
      var s1, rest := Step(s, pkts), pkts[1..];
      assert Authentic(m, pkts[0].rec);
      forall k ensures Genuine(m, s1, k) { assert Genuine(m, s, k); }
      forall i | 0 <= i < |rest| ensures Authentic(m, rest[i].rec) { assert Authentic(m, pkts[i + 1].rec); }
      ReplayGenuine(m, s1, rest);
    }
  }

  lemma LapseWorld(m: Store, past: map<nat, Entry>, s: Store, lapsed: set<nat>, bs: set<Batch>, k: Str)
    requires World(m, past, s, lapsed, bs) && k in s.items
    ensures World(m, past, Unlink(s, k), lapsed + {s.items[k].tid}, bs)
  {
    var s' := Unlink(s, k);
    UnlinkConsistent(s, k);
    assert ItemOk(s, k) && EntryOk(s, s.items[k].tid);
    forall t: nat ensures Dated(s'.log, past, t) { assert Dated(s.log, past, t); }
    forall x ensures Genuine(m, s', x) { assert Genuine(m, s, x); }
  }

  lemma InsertWorld(m: Store, past: map<nat, Entry>, s: Store, lapsed: set<nat>, bs: set<Batch>, k: Str, v: Str)
    requires World(m, past, s, lapsed, bs) && k !in m.items
    ensures var m' := Insert(m, k, v); var past' := past + m'.log;
      World(m', past', s, lapsed, bs) && Extends(past, past') && (Mirrors(m, past, s, lapsed) ==> Mirrors(m', past', s, lapsed))
  {
    var m' := Insert(m, k, v);
    var past' := past + m'.log;
    InsertSequenced(m, k, v);
    forall t | t in m.log ensures t <= m.last { assert EntryOk(m, t); }
    MovesHistory(m, m', past);
    WithinExtends(s.log, past, past');
    forall b | b in bs ensures BatchOk(m', past', b) {
      assert BatchOk(m, past, b);
      forall r | Sent(m, past, b, r) ensures Sent(m', past', b, r) { InsertSent(m, past, past', b, k, v, r); }
      MovesBatch(m, m', past, past', b);
    }
    forall x ensures Genuine(m', s, x) { GenuineMoves(m, m', s, x); }
    if Mirrors(m, past, s, lapsed) {
      InsertFollows(m, s, lapsed, s.last, k, v);
      MovesMirrors(m, m', past, past', s, lapsed);
    }
  }

  lemma EraseWorld(m: Store, past: map<nat, Entry>, s: Store, lapsed: set<nat>, bs: set<Batch>, k: Str)
    requires World(m, past, s, lapsed, bs) && k in m.items && m.last < FlushAll
    ensures var m' := Erase(m, k); var past' := past + m'.log;
      World(m', past', s, lapsed, bs) && Extends(past, past') && (Mirrors(m, past, s, lapsed) ==> Mirrors(m', past', s, lapsed))
  {
    var m' := Erase(m, k);
    var past' := past + m'.log;
    EraseSequenced(m, k);
    assert ItemOk(m, k) && EntryOk(m, m.items[k].tid) && Dated(m.log, past, m.items[k].tid);
    forall t | t in m.log ensures t <= m.last { assert EntryOk(m, t); }
    MovesHistory(m, m', past);
    WithinExtends(s.log, past, past');
    forall b | b in bs ensures BatchOk(m', past', b) {
      assert BatchOk(m, past, b);
      forall r | Sent(m, past, b, r) ensures Sent(m', past', b, r) { EraseSent(m, past, past', b, k, r); }
      MovesBatch(m, m', past, past', b);
    }
    forall x ensures Genuine(m', s, x) { GenuineMoves(m, m', s, x); }
    if Mirrors(m, past, s, lapsed) {
      EraseFollows(m, s, lapsed, s.last, k);
      MovesMirrors(m, m', past, past', s, lapsed);
    }
  }

  lemma ClearWorld(m: Store, past: map<nat, Entry>, s: Store, lapsed: set<nat>, bs: set<Batch>)
    requires World(m, past, s, lapsed, bs)
    ensures var m' := Clear(m); var past' := past + m'.log;
      World(m', past', s, lapsed, bs) && Extends(past, past') && (Mirrors(m, past, s, lapsed) ==> Mirrors(m', past', s, lapsed))
  {
    var m' := Clear(m);
    var past' := past + m'.log;
    FlushedSequenced(m.last + 1);
    MovesHistory(m, m', past);
    WithinExtends(s.log, past, past');
    forall b | b in bs ensures BatchOk(m', past', b) {
      assert BatchOk(m, past, b);
      forall r | Sent(m, past, b, r) ensures Sent(m', past', b, r) { ClearSent(m, past, past', b, r); }
      MovesBatch(m, m', past, past', b);
    }
    forall x ensures Genuine(m', s, x) { GenuineMoves(m, m', s, x); }
    if Mirrors(m, past, s, lapsed) {
      ClearFollows(m, s, lapsed, s.last);
      MovesMirrors(m, m', past, past', s, lapsed);
    }
  }

  /** The past after erasing the items of some keys. */
  function PastAfter(m: Store, past: map<nat, Entry>, gone: seq<Str>): map<nat, Entry> {
    if gone == [] then past
    else
      var p1 := PastAfter(m, past, gone[..|gone| - 1]);
      var m1 := EraseAll(m, gone[..|gone| - 1]);
      var k := gone[|gone| - 1];
      if k in m1.items then p1 + Erase(m1, k).log else p1
  }

  lemma {:induction false} EraseAllWorld(m: Store, past: map<nat, Entry>, s: Store, lapsed: set<nat>, bs: set<Batch>, gone: seq<Str>)
    requires World(m, past, s, lapsed, bs) && m.last + |gone| < FlushAll
    ensures var m', past' := EraseAll(m, gone), PastAfter(m, past, gone);
      && World(m', past', s, lapsed, bs) && Extends(past, past') && m.last <= m'.last <= m.last + |gone|
      && (Mirrors(m, past, s, lapsed) ==> Mirrors(m', past', s, lapsed))
  {
    if gone != [] {
      var g := gone[..|gone| - 1];
      EraseAllWorld(m, past, s, lapsed, bs, g);
      var m1, p1 := EraseAll(m, g), PastAfter(m, past, g);
      var k := gone[|gone| - 1];
      if k in m1.items {
        EraseWorld(m1, p1, s, lapsed, bs, k);
        var p2 := p1 + Erase(m1, k).log;
        assert Extends(past, p2) by { forall t | t in past ensures t in p2 && p2[t] == past[t] { assert t in p1; } }
      }
    }
  }

  /** A batch just packed. */
  lemma PackedOk(m: Store, past: map<nat, Entry>, b: Batch)
    requires Ordered(m) && History(m, past) && b.from <= b.upto <= m.last && Recs(b.pkts) == Entries(m, b.from, b.upto)
    ensures BatchOk(m, past, b)
  {
    var rs := Recs(b.pkts);
    EntriesMeans(m, b.from, b.upto);
    forall i | 0 <= i < |b.pkts| ensures Sent(m, past, b, b.pkts[i].rec) {
      assert rs[i] in rs && EntryOk(m, rs[i].tid) && Dated(m.log, past, rs[i].tid);
    }
    forall t: nat ensures Present(m, b, t) {
      if t in m.log && b.from < t <= b.upto {
        assert EntryOk(m, t);
        assert RecAt(m, t) in rs;
        var i :| 0 <= i < |rs| && rs[i] == RecAt(m, t);
        assert b.pkts[i].rec.tid == t;
      }
    }
  }
}
