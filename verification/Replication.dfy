/**
 * A master and one slave of a slice over whole runs, with the two ways in which log
 * entries travel.
 *
 * Broadcasts go out on the master's own connection to the slave, from a TID the master's
 * process keeps for all its peers and moves on whoever is connected. Answers to pings go
 * back on the slave's own connection: while the ping says that the slave has not been
 * synchronised, the master sends what is above the TID in the ping, for ten rounds at
 * most, and forgets how far it came. Neither waits for the other, so a batch need not
 * start where the slave stands.
 *
 * A slave answers reads itself, and erases an item that it finds expired on its own clock.
 * Such an erase is not logged: the item and its entry just go.
 *
 * An entry asked for by its TID is the one found. The tables of `TidTable` keep to that
 * along the runs for which `TablesFind` holds.
 */
module Replication {
  import opened TidLog
  import opened TidReplay
  import opened TidWire
  import opened TidShipping
  import opened Mirroring
  import T = TidTable

  datatype Ping = Ping(tid: nat, synced: bool)

  /** On the slave's connection: a batch, or RT_C2M_FRPEL_BOTHDONE. */
  datatype Reply = Data(batch: Batch) | Done

  /** The master's process between events, or sending what is above `pos` to answer a ping. */
  datatype Sync = Idle | At(pos: nat, rounds: nat)

  const ROUNDS := 10

  /**
   * `past` is what the master ever logged under each TID; `tracker` the TID of `TidTracker`;
   * `up` whether the master's own connection stands; `synced` the slave's fsync flag; `lapsed`
   * the TIDs of the items that readers at the slave found expired by its `clock`.
   */
  datatype State = State(master: Store, slave: Store, past: map<nat, Entry>, tracker: nat, up: bool,
                         bcast: seq<Batch>, pings: seq<Ping>, back: seq<Reply>, sync: Sync, synced: bool,
                         lapsed: set<nat>, clock: int)

  datatype Action =
    | DoInsert(key: Str, val: Str)
    | DoErase(key: Str)
    | DoClear
    | Connect                                                    // the master's own connection
    | Break
    | Broadcast(gone: seq<Str>, upto: nat, pkts: seq<Pkt>)       // one round of bcastReplicableData
    | TakeBroadcast
    | SendPing                                                   // the slave's heartbeat
    | Answer                                                     // svrHandleClientPingStatus begins
    | SyncRound(gone: seq<Str>, upto: nat, pkts: seq<Pkt>)       // one round of sendTidHashData
    | SyncEnd
    | TakeReply
    | BreakBack                                                  // the slave's own connection
    | Tick(now: int)                                             // the slave's clock
    | Lapse(key: Str)                                            // a read at the slave finds the item expired

  /** The entries above `pos` and up to `upto`, once the items of `gone` have been found expired. */
  ghost predicate Packs(x: State, gone: seq<Str>, pos: nat, upto: nat, pkts: seq<Pkt>) {
    var m := EraseAll(x.master, gone);
    && x.master.last + |gone| < FlushAll && pos <= upto <= m.last
    && Consistent(m) && Recs(pkts) == Entries(m, pos, upto)
  }

  ghost predicate Enabled(x: State, a: Action) {
    match a
    case DoInsert(k, _) => k !in x.master.items
    case DoErase(k) => k in x.master.items && x.master.last < FlushAll
    case DoClear => true
    case Connect => true
    case Break => true
    case Broadcast(gone, upto, pkts) => x.sync.Idle? && Packs(x, gone, x.tracker, upto, pkts)
    case TakeBroadcast => x.bcast != []
    case SendPing => true
    case Answer => x.sync.Idle? && x.pings != []
    case SyncRound(gone, upto, pkts) => x.sync.At? && x.sync.rounds < ROUNDS && Packs(x, gone, x.sync.pos, upto, pkts)
    case SyncEnd => x.sync.At? && (x.sync.rounds == ROUNDS || x.sync.pos == x.master.last)
    case TakeReply => x.back != []
    case BreakBack => x.sync.Idle?
    case Tick(now) => x.clock <= now
    case Lapse(k) => k in x.slave.items && Expired(x.slave.items[k].val, x.clock)
  }

  /** The master's store changes. */
  function Change(x: State, m: Store): State {
    x.(master := m, past := x.past + m.log)
  }

  function Purge(x: State, gone: seq<Str>): State {
    x.(master := EraseAll(x.master, gone), past := PastAfter(x.master, x.past, gone))
  }

  /** The store with a batch replayed. */
  function Receive(x: State, b: Batch): State {
    x.(slave := Replay(x.slave, b.pkts))
  }

  function Do(x: State, a: Action): State {
    match a
    case DoInsert(k, v) => Change(x, Insert(x.master, k, v))
    case DoErase(k) => if k in x.master.items then Change(x, Erase(x.master, k)) else x
    case DoClear => Change(x, Clear(x.master))
    case Connect => x.(up := true)
    case Break => x.(up := false, bcast := [])
    case Broadcast(gone, upto, pkts) =>
      Purge(x, gone).(tracker := upto,
                      bcast := if x.up && pkts != [] then x.bcast + [Batch(x.tracker, upto, pkts)] else x.bcast)
    case TakeBroadcast =>
      if x.bcast == [] then x else Receive(x, x.bcast[0]).(bcast := x.bcast[1..])
    case SendPing => x.(pings := x.pings + [Ping(x.slave.last, x.synced)])
    case Answer =>
      if x.pings == [] then x
      else
        var p := x.pings[0];
        x.(pings := x.pings[1..],
           sync := if p.synced || x.master.last < p.tid then Idle else At(p.tid, 0))
    case SyncRound(gone, upto, pkts) =>
      if x.sync.Idle? then x
      else
        Purge(x, gone).(sync := At(upto, x.sync.rounds + 1),
                        back := if pkts != [] then x.back + [Data(Batch(x.sync.pos, upto, pkts))] else x.back)
    case SyncEnd => x.(sync := Idle, back := x.back + [Done])
    case TakeReply =>
      if x.back == [] then x
      else if x.back[0].Done? then x.(synced := true, back := x.back[1..])
      else Receive(x, x.back[0].batch).(back := x.back[1..])
    case BreakBack => x.(pings := [], back := [])
    case Tick(now) => x.(clock := now)
    case Lapse(k) =>
      if k in x.slave.items then x.(slave := Unlink(x.slave, k), lapsed := x.lapsed + {x.slave.items[k].tid}) else x
  }

  ghost predicate Runs(x: State, acts: seq<Action>, y: State)
    decreases |acts|
  {
    if acts == [] then x == y else Enabled(x, acts[0]) && Runs(Do(x, acts[0]), acts[1..], y)
  }

  /** The slave is given a batch by this step. */
  predicate Delivers(x: State, a: Action) {
    (a.TakeBroadcast? && x.bcast != []) || (a.TakeReply? && x.back != [] && x.back[0].Data?)
  }

  function Delivered(x: State, a: Action): Batch
    requires Delivers(x, a)
  {
    if a.TakeBroadcast? then x.bcast[0] else x.back[0].batch
  }

  // ----- what every run keeps -----

  ghost function InFlight(x: State): set<Batch> {
    (set b | b in x.bcast) + (set r | r in x.back && r.Data? :: r.batch)
  }

  ghost predicate Inv(x: State) {
    && World(x.master, x.past, x.slave, x.lapsed, InFlight(x))
    && x.tracker <= x.master.last && (x.sync.At? ==> x.sync.pos <= x.master.last)
    && (forall i :: 0 <= i < |x.pings| ==> x.pings[i].tid <= x.master.last)
    && (forall k {:trigger Over(x, k)} :: Over(x, k))
  }

  /** An item of the master that has lapsed on the slave is past its expiry time there. */
  ghost predicate Over(x: State, k: Str) {
    k in x.master.items && x.master.items[k].tid in x.lapsed ==> Expired(x.master.items[k].val, x.clock)
  }

  ghost predicate Mirrored(x: State) {
    Mirrors(x.master, x.past, x.slave, x.lapsed)
  }

  lemma FewerInFlight(m: Store, past: map<nat, Entry>, s: Store, lapsed: set<nat>, bs: set<Batch>, cs: set<Batch>)
    requires World(m, past, s, lapsed, bs) && cs <= bs
    ensures World(m, past, s, lapsed, cs)
  {
    forall b | b in cs ensures BatchOk(m, past, b) { }
  }

  lemma OneMoreInFlight(m: Store, past: map<nat, Entry>, s: Store, lapsed: set<nat>, bs: set<Batch>, cs: set<Batch>, b: Batch)
    requires World(m, past, s, lapsed, bs) && BatchOk(m, past, b) && cs <= bs + {b}
    ensures World(m, past, s, lapsed, cs)
  {
    forall c | c in cs ensures BatchOk(m, past, c) { }
  }

  /** The slave replays a batch in flight. */
  lemma ReceiveWorld(m: Store, past: map<nat, Entry>, s: Store, lapsed: set<nat>, bs: set<Batch>, b: Batch)
    requires World(m, past, s, lapsed, bs) && b in bs
    ensures World(m, past, Replay(s, b.pkts), lapsed, bs) && s.last <= Replay(s, b.pkts).last
    ensures forall t :: t <= s.last && t !in s.log ==> t !in Replay(s, b.pkts).log
  {
    assert BatchOk(m, past, b);
    forall i | 0 <= i < |b.pkts|
      ensures Told(past, b.pkts[i].rec) && b.pkts[i].rec.tid <= m.last && Authentic(m, b.pkts[i].rec)
    {
      assert Sent(m, past, b, b.pkts[i].rec);
    }
    ReplayWithin(past, s, b.pkts);
    ReplayGenuine(m, s, b.pkts);
    forall c | c in bs ensures BatchOk(m, past, c) { }
  }

  /** The master's items are those it had, or new ones; the slave's clock does not go back. */
  ghost predicate GoesOn(x: State, y: State, k: Str) {
    k in y.master.items ==>
      (k in x.master.items && y.master.items[k] == x.master.items[k]) || y.master.items[k].tid > x.master.last
  }

  lemma StaysOver(x: State, y: State)
    requires Inv(x) && y.lapsed == x.lapsed && x.clock <= y.clock
    requires forall k {:trigger GoesOn(x, y, k)} :: GoesOn(x, y, k)
    ensures forall k {:trigger Over(y, k)} :: Over(y, k)
  {
    forall k ensures Over(y, k) { assert Over(x, k) && GoesOn(x, y, k); }
  }

  lemma {:induction false} EraseAllFewer(m: Store, gone: seq<Str>, k: Str)
    requires k in EraseAll(m, gone).items
    ensures k in m.items && EraseAll(m, gone).items[k] == m.items[k]
  {
    if gone != [] { EraseAllFewer(m, gone[..|gone| - 1], k); }
  }

  lemma SendInv(x: State, gone: seq<Str>, pos: nat, upto: nat, pkts: seq<Pkt>, y: State)
    requires Inv(x) && Packs(x, gone, pos, upto, pkts)
    requires y.master == EraseAll(x.master, gone) && y.past == PastAfter(x.master, x.past, gone)
    requires y.slave == x.slave && y.pings == x.pings && y.lapsed == x.lapsed && y.clock == x.clock
    requires y.tracker <= upto || y.tracker == x.tracker
    requires y.sync == x.sync || (y.sync.At? && y.sync.pos == upto)
    requires InFlight(y) <= InFlight(x) + {Batch(pos, upto, pkts)}
    ensures Inv(y) && (Mirrored(x) ==> Mirrored(y)) && Extends(x.past, y.past)
  {
    EraseAllWorld(x.master, x.past, x.slave, x.lapsed, InFlight(x), gone);
    PackedOk(y.master, y.past, Batch(pos, upto, pkts));
    OneMoreInFlight(y.master, y.past, x.slave, x.lapsed, InFlight(x), InFlight(y), Batch(pos, upto, pkts));
    forall k ensures GoesOn(x, y, k) { if k in y.master.items { EraseAllFewer(x.master, gone, k); } }
    StaysOver(x, y);
  }

  /** The master changes its own store. */
  lemma ChangeInv(x: State, a: Action)
    requires Inv(x) && Enabled(x, a) && (a.DoInsert? || a.DoErase? || a.DoClear?)
    ensures Inv(Do(x, a)) && Extends(x.past, Do(x, a).past) && (Mirrored(x) ==> Mirrored(Do(x, a)))
  {
    var y := Do(x, a);
    match a {
      case DoInsert(k, v) => InsertWorld(x.master, x.past, x.slave, x.lapsed, InFlight(x), k, v);
      case DoErase(k) => EraseWorld(x.master, x.past, x.slave, x.lapsed, InFlight(x), k);
      case DoClear => ClearWorld(x.master, x.past, x.slave, x.lapsed, InFlight(x));
    }
    forall k ensures GoesOn(x, y, k) { }
    StaysOver(x, y);
  }

  /** Every step keeps the invariant; one that delivers nothing keeps a mirror a mirror. */
  lemma StepInv(x: State, a: Action)
    requires Inv(x) && Enabled(x, a)
    ensures Inv(Do(x, a)) && Extends(x.past, Do(x, a).past)
    ensures !Delivers(x, a) && Mirrored(x) ==> Mirrored(Do(x, a))
  {
    var y := Do(x, a);
    match a
    case DoInsert(_, _) => ChangeInv(x, a);
    case DoErase(_) => ChangeInv(x, a);
    case DoClear => ChangeInv(x, a);
    case Broadcast(gone, upto, pkts) => SendInv(x, gone, x.tracker, upto, pkts, y);
    case SyncRound(gone, upto, pkts) => SendInv(x, gone, x.sync.pos, upto, pkts, y);
    case TakeBroadcast => TakeInv(x, a);
    case TakeReply => TakeInv(x, a);
    case Lapse(k) => LapseInv(x, k);
    case _ => PassInv(x, a);
  }

  /** Neither store changes. */
  lemma PassInv(x: State, a: Action)
    requires Inv(x) && Enabled(x, a)
    requires a.Connect? || a.Break? || a.SendPing? || a.Answer? || a.SyncEnd? || a.BreakBack? || a.Tick?
    ensures Inv(Do(x, a)) && (Mirrored(x) ==> Mirrored(Do(x, a))) && Do(x, a).past == x.past
  {
    var y := Do(x, a);
    FewerInFlight(x.master, x.past, x.slave, x.lapsed, InFlight(x), InFlight(y));
    forall k ensures GoesOn(x, y, k) { }
    StaysOver(x, y);
  }

  lemma LapseInv(x: State, k: Str)
    requires Inv(x) && Enabled(x, Lapse(k))
    ensures Inv(Do(x, Lapse(k))) && (Mirrored(x) ==> Mirrored(Do(x, Lapse(k))))
  {
    var y := Do(x, Lapse(k));
    LapseWorld(x.master, x.past, x.slave, x.lapsed, InFlight(x), k);
    FewerInFlight(x.master, x.past, y.slave, y.lapsed, InFlight(x), InFlight(y));
    forall j ensures Over(y, j) {
      assert Over(x, j) && Genuine(x.master, x.slave, k) && ItemOk(x.master, j) && ItemOk(x.master, k);
    }
    if Mirrored(x) { LapseMirrors(x.master, x.past, x.slave, x.lapsed, k); }
  }

  lemma TakeInv(x: State, a: Action)
    requires Inv(x) && Enabled(x, a) && (a.TakeBroadcast? || a.TakeReply?)
    ensures Inv(Do(x, a)) && (!Delivers(x, a) && Mirrored(x) ==> Mirrored(Do(x, a)))
    ensures x.slave.last <= Do(x, a).slave.last
    ensures forall t :: t <= x.slave.last && t !in x.slave.log ==> t !in Do(x, a).slave.log
  {
    var y := Do(x, a);
    if Delivers(x, a) {
      var b := Delivered(x, a);
      assert b in InFlight(x);
      ReceiveWorld(x.master, x.past, x.slave, x.lapsed, InFlight(x), b);
      FewerInFlight(x.master, x.past, y.slave, y.lapsed, InFlight(x), InFlight(y));
    } else {
      FewerInFlight(x.master, x.past, x.slave, x.lapsed, InFlight(x), InFlight(y));
    }
    forall k ensures GoesOn(x, y, k) { }
    StaysOver(x, y);
  }

  // ----- the exact conditions, over whole runs -----

  /** No batch delivered trips the lookahead. */
  ghost predicate Clean(x: State, acts: seq<Action>)
    decreases |acts|
  {
    acts != [] ==>
      && (Delivers(x, acts[0]) ==> NoMisfire(x.slave, Delivered(x, acts[0]).pkts))
      && Clean(Do(x, acts[0]), acts[1..])
  }

  /** Every batch delivered is dropped or leaves no gap behind the slave's last TID. */
  ghost predicate GapFree(x: State, acts: seq<Action>)
    decreases |acts|
  {
    acts != [] ==>
      && (Delivers(x, acts[0]) ==> Joins(x.master, x.slave, Delivered(x, acts[0])))
      && GapFree(Do(x, acts[0]), acts[1..])
  }

  ghost predicate AlwaysMirrored(x: State, acts: seq<Action>)
    decreases |acts|
  {
    Mirrored(x) && (acts != [] ==> AlwaysMirrored(Do(x, acts[0]), acts[1..]))
  }

  /** Every batch delivered starts where the slave stands, or has nothing the slave lacks. */
  ghost predicate AllContinue(x: State, acts: seq<Action>)
    decreases |acts|
  {
    acts != [] ==>
      && (Delivers(x, acts[0]) ==> Continues(x.master, x.slave, Delivered(x, acts[0])))
      && AllContinue(Do(x, acts[0]), acts[1..])
  }

  /** The slave mirrors the master throughout and every batch brings it to the batch's end. */
  ghost predicate AlwaysReached(x: State, acts: seq<Action>)
    decreases |acts|
  {
    Mirrored(x) &&
    (acts != [] ==>
      var y := Do(x, acts[0]);
      && (Delivers(x, acts[0]) ==> Reaches(y.master, y.past, y.slave, y.lapsed, Delivered(x, acts[0])))
      && AlwaysReached(y, acts[1..]))
  }

  /** One delivery: DeliveryExactly for a batch in flight. */
  lemma DeliveryStep(x: State, a: Action)
    requires Inv(x) && Mirrored(x) && Enabled(x, a) && Delivers(x, a) && NoMisfire(x.slave, Delivered(x, a).pkts)
    ensures var b, y := Delivered(x, a), Do(x, a);
      && (Mirrored(y) <==> Joins(x.master, x.slave, b))
      && (Reaches(y.master, y.past, y.slave, y.lapsed, b) <==> Continues(x.master, x.slave, b))
      && (Continues(x.master, x.slave, b) ==> Mirrored(y))
  {
    var b := Delivered(x, a);
    assert b in InFlight(x);
    assert BatchOk(x.master, x.past, b);
    DeliveryExactly(x.master, x.past, x.slave, x.lapsed, b);
  }

  /**
   * Over every run whose batches do not trip the lookahead: the slave mirrors the master all
   * the way if and only if no batch it takes leaves a gap behind its last TID; and every
   * batch brings it to the batch's end if and only if each starts where the slave stands,
   * with no entry in between missing and none at or below its last TID, or is one that has
   * nothing the slave lacks.
   */
  lemma {:induction false} MirrorsExactly(x: State, acts: seq<Action>, y: State)
    requires Inv(x) && Mirrored(x) && Runs(x, acts, y) && Clean(x, acts)
    ensures AlwaysMirrored(x, acts) <==> GapFree(x, acts)
    ensures AlwaysReached(x, acts) <==> AllContinue(x, acts)
    decreases |acts|
  {
    if acts != [] {
      var a, x1 := acts[0], Do(x, acts[0]);
      StepInv(x, a);
      if Delivers(x, a) { DeliveryStep(x, a); }
      if Mirrored(x1) {
        MirrorsExactly(x1, acts[1..], y);
      } else {
        assert !AlwaysMirrored(x1, acts[1..]) && !AlwaysReached(x1, acts[1..]);
      }
    }
  }

  lemma {:induction false} EndsMirrored(x: State, acts: seq<Action>, y: State)
    requires AlwaysMirrored(x, acts) && Runs(x, acts, y)
    ensures Mirrored(y)
    decreases |acts|
  {
    if acts != [] { EndsMirrored(Do(x, acts[0]), acts[1..], y); }
  }

  // ----- the lookahead -----

  ghost predicate PlainInFlight(x: State) {
    forall b :: b in InFlight(x) ==> Plain(x.past, b.pkts)
  }

  /** No batch is packed in which a removal is followed by what could be taken for the same key. */
  ghost predicate PlainRun(x: State, acts: seq<Action>)
    decreases |acts|
  {
    acts != [] ==>
      && (acts[0].Broadcast? ==> Plain(Do(x, acts[0]).past, acts[0].pkts))
      && (acts[0].SyncRound? ==> Plain(Do(x, acts[0]).past, acts[0].pkts))
      && PlainRun(Do(x, acts[0]), acts[1..])
  }

  lemma PlainExtends(m: Store, past: map<nat, Entry>, past': map<nat, Entry>, b: Batch)
    requires History(m, past) && BatchOk(m, past, b) && Extends(past, past') && Plain(past, b.pkts)
    ensures Plain(past', b.pkts)
  {
    forall i | 0 <= i < |b.pkts| - 1 ensures PlainAt(past', b.pkts, i) {
      assert PlainAt(past, b.pkts, i) && Sent(m, past, b, b.pkts[i].rec) && Origin(past, b.pkts[i].rec.tid);
    }
  }

  lemma StepPlain(x: State, a: Action)
    requires Inv(x) && Enabled(x, a) && PlainInFlight(x) && PlainRun(x, [a])
    ensures PlainInFlight(Do(x, a))
  {
    StepInv(x, a);
    var y := Do(x, a);
    forall b | b in InFlight(y) ensures Plain(y.past, b.pkts) {
      if b in InFlight(x) {
        assert BatchOk(x.master, x.past, b);
        PlainExtends(x.master, x.past, y.past, b);
      }
    }
  }

  /** What the sender saw to keeps every delivery of the run from misfiring. */
  lemma {:induction false} PlainRunClean(x: State, acts: seq<Action>, y: State)
    requires Inv(x) && PlainInFlight(x) && Runs(x, acts, y) && PlainRun(x, acts)
    ensures Clean(x, acts)
    decreases |acts|
  {
    if acts != [] {
      var a := acts[0];
      if Delivers(x, a) {
        var b := Delivered(x, a);
        assert b in InFlight(x);
        assert BatchOk(x.master, x.past, b);
        forall i | 0 <= i < |b.pkts| ensures Told(x.past, b.pkts[i].rec) { assert Sent(x.master, x.past, b, b.pkts[i].rec); }
        PlainNeverMisfires(x.past, x.slave, b.pkts);
      }
      StepInv(x, a);
      assert PlainRun(x, [a]) by { assert [a][1..] == []; }
      StepPlain(x, a);
      PlainRunClean(Do(x, a), acts[1..], y);
    }
  }

  // ----- from the start -----

  /** A master with its past, a fresh slave, and nothing on its way. */
  ghost predicate Begins(x: State) {
    && Ordered(x.master) && History(x.master, x.past) && x.slave == Empty && x.lapsed == {}
    && x.tracker <= x.master.last && x.bcast == [] && x.pings == [] && x.back == [] && x.sync.Idle?
  }

  lemma StartInv(x: State)
    requires Begins(x)
    ensures Inv(x) && Mirrored(x) && PlainInFlight(x)
  {
    StartFollows(x.master);
    forall t: nat ensures Dated(Empty.log, x.past, t) && Kept(x.master, Empty, {}, t) {
      assert EntryOk(x.master, t);
    }
    assert InFlight(x) == {};
  }

  /** What a reader with this clock can get. */
  function Live(s: Store, now: int): map<Str, Item> {
    map k | k in s.items && !Expired(s.items[k].val, now) :: s.items[k]
  }

  /**
   * When the sender keeps its batches plain and no batch the slave takes leaves a gap, the
   * slave mirrors the master all the way, and its log is one a master could go on from. Whenever
   * the last TIDs agree its items are exactly the master's but for those that have lapsed,
   * and every one of these has expired by the slave's clock: readers at the slave are
   * answered as by the master's items.
   */
  lemma SlaveConverges(x: State, acts: seq<Action>, y: State)
    requires Begins(x) && Runs(x, acts, y) && PlainRun(x, acts) && GapFree(x, acts)
    ensures AlwaysMirrored(x, acts) && Mirrored(y)
    ensures Ordered(y.slave) && (Sequenced(y.slave) <==> y.slave.last == 0 || y.slave.last !in y.lapsed)
    ensures forall k :: k in y.master.items && y.master.items[k].tid in y.lapsed ==> Expired(y.master.items[k].val, y.clock)
    ensures y.slave.last == y.master.last ==>
      y.slave.items == Spared(y.master, y.lapsed) && Live(y.slave, y.clock) == Live(y.master, y.clock)
  {
    StartInv(x);
    PlainRunClean(x, acts, y);
    MirrorsExactly(x, acts, y);
    EndsMirrored(x, acts, y);
    RunsInv(x, acts, y);
    MirrorsAll(y.master, y.past, y.slave, y.lapsed);
    forall k | k in y.master.items && y.master.items[k].tid in y.lapsed
      ensures Expired(y.master.items[k].val, y.clock) { assert Over(y, k); }
  }

  // ----- a schedule without gaps: broadcasts alone, from the first write on -----

  /** Batches that follow one another from `at` to `end`, with nothing of the master's log in between. */
  ghost predicate Linked(m: Store, at: nat, bs: seq<Batch>, end: nat)
    decreases |bs|
  {
    if bs == [] then at <= end && Quiet(m, at, end)
    else
      && at <= bs[0].from <= bs[0].upto && bs[0].pkts != [] && Quiet(m, at, bs[0].from)
      && Linked(m, bs[0].upto, bs[1..], end)
  }

  lemma {:induction false} LinkedEnds(m: Store, at: nat, bs: seq<Batch>, end: nat)
    requires Linked(m, at, bs, end)
    ensures at <= end
    decreases |bs|
  {
    if bs != [] { LinkedEnds(m, bs[0].upto, bs[1..], end); }
  }

  lemma {:induction false} LinkedKept(m: Store, m': Store, at: nat, bs: seq<Batch>, end: nat)
    requires Linked(m, at, bs, end) && end <= m.last
    requires forall t :: t in m'.log && t <= m.last ==> t in m.log
    ensures Linked(m', at, bs, end)
    decreases |bs|
  {
    if bs != [] {
      LinkedEnds(m, bs[0].upto, bs[1..], end);
      LinkedKept(m, m', bs[0].upto, bs[1..], end);
    }
  }

  lemma {:induction false} LinkedFurther(m: Store, at: nat, bs: seq<Batch>, end: nat, end': nat)
    requires Linked(m, at, bs, end) && end <= end' && Quiet(m, end, end')
    ensures Linked(m, at, bs, end')
    decreases |bs|
  {
    if bs != [] { LinkedFurther(m, bs[0].upto, bs[1..], end, end'); }
  }

  lemma {:induction false} LinkedMore(m: Store, at: nat, bs: seq<Batch>, b: Batch)
    requires Linked(m, at, bs, b.from) && b.from <= b.upto && b.pkts != []
    ensures Linked(m, at, bs + [b], b.upto)
    decreases |bs|
  {
    if bs == [] {
      assert (bs + [b])[1..] == [];
    } else {
      LinkedMore(m, bs[0].upto, bs[1..], b);
      assert (bs + [b])[1..] == bs[1..] + [b];
    }
  }

  lemma {:induction false} EraseAllOld(m: Store, gone: seq<Str>, t: nat)
    requires t in EraseAll(m, gone).log && t <= m.last
    ensures t in m.log && m.last <= EraseAll(m, gone).last
  {
    if gone != [] {
      EraseAllLast(m, gone[..|gone| - 1]);
      EraseAllOld(m, gone[..|gone| - 1], t);
    }
  }

  lemma {:induction false} EraseAllLast(m: Store, gone: seq<Str>)
    ensures m.last <= EraseAll(m, gone).last
  {
    if gone != [] { EraseAllLast(m, gone[..|gone| - 1]); }
  }

  ghost predicate Streaming(x: State) {
    x.up && x.sync.Idle? && x.back == [] && Mirrored(x) && Linked(x.master, x.slave.last, x.bcast, x.tracker)
  }

  /** Neither a break of the master's connection nor an answer to a ping. */
  predicate Undisturbed(acts: seq<Action>) {
    forall i :: 0 <= i < |acts| ==> !acts[i].Break? && !acts[i].Answer?
  }

  lemma StreamSends(x: State, a: Action)
    requires Inv(x) && Enabled(x, a) && Streaming(x) && a.Broadcast?
    ensures var y := Do(x, a); Linked(y.master, y.slave.last, y.bcast, y.tracker)
  {
    var y := Do(x, a);
    forall t | t in y.master.log && t <= x.master.last ensures t in x.master.log { EraseAllOld(x.master, a.gone, t); }
    LinkedKept(x.master, y.master, x.slave.last, x.bcast, x.tracker);
    if a.pkts == [] {
      var rs := Recs(a.pkts);
      EntriesMeans(y.master, x.tracker, a.upto);
      forall t | x.tracker < t <= a.upto ensures t !in y.master.log {
        assert t in y.master.log ==> EntryOk(y.master, t) && RecAt(y.master, t) in rs;
      }
      LinkedFurther(y.master, x.slave.last, x.bcast, x.tracker, a.upto);
    } else {
      LinkedMore(y.master, x.slave.last, x.bcast, Batch(x.tracker, a.upto, a.pkts));
    }
  }

  lemma StreamTakes(x: State, a: Action)
    requires Inv(x) && Enabled(x, a) && Streaming(x) && a.TakeBroadcast? && NoMisfire(x.slave, Delivered(x, a).pkts)
    ensures var y := Do(x, a); Mirrored(y) && Linked(y.master, y.slave.last, y.bcast, y.tracker)
    ensures Continues(x.master, x.slave, x.bcast[0]) && Joins(x.master, x.slave, x.bcast[0])
  {
    var b, y := x.bcast[0], Do(x, a);
    assert b in InFlight(x);
    assert BatchOk(x.master, x.past, b) && Sent(x.master, x.past, b, b.pkts[0].rec);
    DeliveryStep(x, a);
    forall i | 0 <= i < |b.pkts| ensures b.pkts[i].rec.tid <= b.upto { assert Sent(x.master, x.past, b, b.pkts[i].rec); }
    ReplayTakesPrefix(x.slave, b.pkts);
    LinkedEnds(x.master, b.upto, y.bcast, x.tracker);
    assert Linked(x.master, y.slave.last, y.bcast, x.tracker);
  }

  lemma StreamStep(x: State, a: Action)
    requires Inv(x) && Enabled(x, a) && Streaming(x) && !a.Break? && !a.Answer?
    requires Delivers(x, a) ==> NoMisfire(x.slave, Delivered(x, a).pkts)
    ensures Streaming(Do(x, a))
    ensures Delivers(x, a) ==>
      Continues(x.master, x.slave, Delivered(x, a)) && Joins(x.master, x.slave, Delivered(x, a))
  {
    var y := Do(x, a);
    StepInv(x, a);
    if a.Broadcast? {
      StreamSends(x, a);
    } else if a.TakeBroadcast? {
      StreamTakes(x, a);
    } else {
      LinkedKept(x.master, y.master, x.slave.last, x.bcast, x.tracker);
    }
  }

  lemma {:induction false} StreamRuns(x: State, acts: seq<Action>, y: State)
    requires Inv(x) && Streaming(x) && Runs(x, acts, y) && Clean(x, acts) && Undisturbed(acts)
    ensures Streaming(y) && AllContinue(x, acts) && GapFree(x, acts)
    decreases |acts|
  {
    if acts != [] {
      StepInv(x, acts[0]);
      StreamStep(x, acts[0]);
      StreamRuns(Do(x, acts[0]), acts[1..], y);
    }
  }

  /**
   * A slave connected from the first write on, whose pings go unanswered and whose connection
   * holds, takes every batch where it stands: no run leaves a gap, and when all that was
   * broadcast has been taken the slave has everything up to the tracker's TID.
   */
  lemma StreamGapFree(x: State, acts: seq<Action>, y: State)
    requires Begins(x) && x.up && Quiet(x.master, 0, x.tracker)
    requires Runs(x, acts, y) && PlainRun(x, acts) && Undisturbed(acts)
    ensures GapFree(x, acts) && AllContinue(x, acts) && AlwaysReached(x, acts)
    ensures y.bcast == [] && y.tracker == y.master.last ==> y.slave.items == Spared(y.master, y.lapsed)
  {
    StartInv(x);
    PlainRunClean(x, acts, y);
    StreamRuns(x, acts, y);
    MirrorsExactly(x, acts, y);
    MirrorsAll(y.master, y.past, y.slave, y.lapsed);
  }

  // ----- an entry passed over is lost -----

  lemma {:induction false} NeverResent(x: State, acts: seq<Action>, y: State, t: nat)
    requires Inv(x) && Runs(x, acts, y) && t <= x.slave.last && t !in x.slave.log
    ensures Inv(y) && t <= y.slave.last && t !in y.slave.log
    decreases |acts|
  {
    if acts != [] {
      var a := acts[0];
      StepInv(x, a);
      if a.TakeBroadcast? || a.TakeReply? { TakeInv(x, a); }
      NeverResent(Do(x, a), acts[1..], y, t);
    }
  }

  /**
   * An item written under a TID the slave has passed without taking it: in no continuation
   * does the slave come to hold it, whatever is shipped, broken or synchronised.
   */
  lemma LostForGood(x: State, acts: seq<Action>, y: State, k: Str)
    requires Inv(x) && Runs(x, acts, y) && k in x.master.items
    requires x.master.items[k].tid <= x.slave.last && x.master.items[k].tid !in x.slave.log
    ensures k in y.slave.items ==> y.slave.items[k].tid != x.master.items[k].tid
  {
    NeverResent(x, acts, y, x.master.items[k].tid);
    assert ItemOk(y.slave, k);
  }

  // ----- the packing code -----

  /** A call of `TidGetNxtItems` makes a round; received intact its buffer is the batch. */
  lemma BufferIsPacked(x: State, m: Store, gone: seq<Str>, now: int, pos: nat, upto: nat, buf: Str, mem: Str)
    returns (pkts: seq<Pkt>)
    requires x.master.last + |gone| < FlushAll && pos <= upto <= m.last
    requires Consistent(m) && Purged(x.master, m, gone, now, pos) && Holds(buf, Entries(m, pos, upto))
    requires |buf| <= |mem| && mem[..|buf|] == buf
    ensures Frames(mem, |buf|, pkts) && Packs(x, gone, pos, upto, pkts) && EraseAll(x.master, gone) == m
  {
    pkts := HoldsParses(buf, Entries(m, pos, upto), mem);
  }

  // ----- the TID tables along a run -----

  function MasterTable(x: State, ix: T.Index, a: Action): T.Index {
    match a
    case DoInsert(_, _) => T.Changed(ix, T.New)
    case DoErase(_) => T.Changed(ix, T.New)
    case DoClear => T.Changed(ix, T.Clear)
    case Broadcast(gone, _, _) => LoggedTo(ix, EraseAll(x.master, gone).last)
    case SyncRound(gone, _, _) => LoggedTo(ix, EraseAll(x.master, gone).last)
    case _ => ix
  }

  /** The next TIDs up to t are used. */
  function LoggedTo(ix: T.Index, t: nat): T.Index
    decreases t - ix.tid
  {
    if t <= ix.tid then ix else LoggedTo(T.Changed(ix, T.New), t)
  }

  /** A packet taken; clearing the store empties the table first. */
  function Packet(ix: T.Index, r: Rec): T.Index {
    T.Logged(if r.Rem? && r.gone == FlushAll then T.Emptied(ix) else ix, r.tid)
  }

  function Packets(ix: T.Index, pkts: seq<Pkt>): T.Index
    decreases |pkts|
  {
    if pkts == [] || pkts[0].rec.tid <= ix.tid then ix else Packets(Packet(ix, pkts[0].rec), pkts[1..])
  }

  function SlaveTable(x: State, ix: T.Index, a: Action): T.Index {
    if Delivers(x, a) then Packets(ix, Delivered(x, a).pkts) else ix
  }

  /** The table finds its entries after every packet taken. */
  predicate FindsAll(ix: T.Index, pkts: seq<Pkt>)
    decreases |pkts|
  {
    T.Contiguous(ix) && (pkts == [] || pkts[0].rec.tid <= ix.tid || FindsAll(Packet(ix, pkts[0].rec), pkts[1..]))
  }

  /** The blocks of both tables stay where the look-up expects them. */
  ghost predicate TablesFind(x: State, mt: T.Index, st: T.Index, acts: seq<Action>)
    decreases |acts|
  {
    && T.Contiguous(mt) && T.Contiguous(st)
    && (acts != [] ==>
         && (Delivers(x, acts[0]) ==> FindsAll(st, Delivered(x, acts[0]).pkts))
         && TablesFind(Do(x, acts[0]), MasterTable(x, mt, acts[0]), SlaveTable(x, st, acts[0]), acts[1..]))
  }

  /** All TIDs are of the first run. */
  predicate Low(ix: T.Index) {
    ix.pre < T.SIZE && ix.tid < T.SIZE && (ix.nums == [] || ix.nums == [0])
  }

  lemma {:induction false} LowTo(ix: T.Index, t: nat)
    requires Low(ix) && t < T.SIZE
    ensures Low(LoggedTo(ix, t)) && LoggedTo(ix, t).tid == if t <= ix.tid then ix.tid else t
    decreases t - ix.tid
  {
    if ix.tid < t { LowTo(T.Changed(ix, T.New), t); }
  }

  lemma {:induction false} LowPackets(ix: T.Index, pkts: seq<Pkt>)
    requires Low(ix) && forall i :: 0 <= i < |pkts| ==> pkts[i].rec.tid < T.SIZE
    ensures FindsAll(ix, pkts) && Low(Packets(ix, pkts))
    decreases |pkts|
  {
    if pkts != [] && pkts[0].rec.tid > ix.tid { LowPackets(Packet(ix, pkts[0].rec), pkts[1..]); }
  }

  lemma {:induction false} LastGrows(x: State, acts: seq<Action>, y: State)
    requires Runs(x, acts, y)
    ensures x.master.last <= y.master.last
    decreases |acts|
  {
    if acts != [] {
      if acts[0].Broadcast? || acts[0].SyncRound? { EraseAllLast(x.master, acts[0].gone); }
      LastGrows(Do(x, acts[0]), acts[1..], y);
    }
  }

  lemma LowMaster(x: State, mt: T.Index, a: Action)
    requires Low(mt) && mt.tid == x.master.last && Enabled(x, a) && Do(x, a).master.last < T.SIZE
    ensures Low(MasterTable(x, mt, a)) && MasterTable(x, mt, a).tid == Do(x, a).master.last
  {
    if a.Broadcast? || a.SyncRound? {
      EraseAllLast(x.master, a.gone);
      LowTo(mt, EraseAll(x.master, a.gone).last);
    }
  }

  lemma LowSlave(x: State, st: T.Index, a: Action)
    requires Inv(x) && Low(st) && x.master.last < T.SIZE
    ensures Delivers(x, a) ==> FindsAll(st, Delivered(x, a).pkts)
    ensures Low(SlaveTable(x, st, a))
  {
    if Delivers(x, a) {
      var b := Delivered(x, a);
      assert b in InFlight(x);
      assert BatchOk(x.master, x.past, b);
      forall i | 0 <= i < |b.pkts| ensures b.pkts[i].rec.tid < T.SIZE { assert Sent(x.master, x.past, b, b.pkts[i].rec); }
      LowPackets(st, b.pkts);
    }
  }

  /** While the master's TIDs stay below 1024 both tables find their entries. */
  lemma {:induction false} FirstRunFinds(x: State, mt: T.Index, st: T.Index, acts: seq<Action>, y: State)
    requires Inv(x) && Runs(x, acts, y) && y.master.last < T.SIZE
    requires Low(mt) && Low(st) && mt.tid == x.master.last
    ensures TablesFind(x, mt, st, acts)
    decreases |acts|
  {
    if acts != [] {
      var a := acts[0];
      LastGrows(x, acts, y);
      LastGrows(Do(x, a), acts[1..], y);
      LowMaster(x, mt, a);
      LowSlave(x, st, a);
      StepInv(x, a);
      FirstRunFinds(Do(x, a), MasterTable(x, mt, a), SlaveTable(x, st, a), acts[1..], y);
    }
  }

  // ----- a run that loses an update -----

  const A: Str := [65]
  const B: Str := [66]
  const C: Str := [67]
  const V: Str := [1]

  lemma EntriesOne(s: Store, t: nat, b: nat)
    requires Consistent(s) && b == t + 1 && b in s.log
    ensures EntryOk(s, b) && Entries(s, t, b) == [RecAt(s, b)]
  {
    assert Entries(s, t, t) == [];
  }

  lemma ReplayOne(s: Store, p: Pkt)
    requires s.last < p.rec.tid
    ensures Replay(s, [p]) == Apply(s, p.rec)
  {
    var rest: seq<Pkt> := [];
    assert [p][1..] == rest && Replay(Step(s, [p]), rest) == Step(s, [p]);
  }

  lemma RunsCons(x: State, a: Action, acts: seq<Action>, y: State)
    requires Enabled(x, a) && Runs(Do(x, a), acts, y)
    ensures Runs(x, [a] + acts, y)
  {
    assert ([a] + acts)[1..] == acts;
  }

  lemma {:induction false} RunsCat(x: State, a: seq<Action>, y: State, b: seq<Action>, z: State)
    requires Runs(x, a, y) && Runs(y, b, z)
    ensures Runs(x, a + b, z)
    decreases |a|
  {
    if a == [] {
      assert a + b == b;
    } else {
      RunsCat(Do(x, a[0]), a[1..], y, b, z);
      assert (a + b)[1..] == a[1..] + b;
    }
  }

  function PktOf(r: Rec): Pkt
  {
    Pkt(r, if r.Add? then r.key + r.val else [])
  }

  /** An empty master and a fresh slave, connected. */
  function Fresh(): State {
    State(Empty, Empty, map[], 0, true, [], [], [], Idle, false, {}, 0)
  }

  /** A run from there with few TIDs. */
  ghost predicate FreshRun(acts: seq<Action>, y: State) {
    Begins(Fresh()) && Runs(Fresh(), acts, y) && TablesFind(Fresh(), T.Index(0, 0, []), T.Index(0, 0, []), acts)
  }

  lemma IsFreshRun(acts: seq<Action>, y: State)
    requires Runs(Fresh(), acts, y) && y.master.last < T.SIZE
    ensures FreshRun(acts, y)
  {
    FreshBegins();
    StartInv(Fresh());
    FirstRunFinds(Fresh(), T.Index(0, 0, []), T.Index(0, 0, []), acts, y);
  }

  /** With one item written. */
  function OneItem(): State {
    var m := Insert(Empty, A, V);
    Fresh().(master := m, past := m.log)
  }

  /** A fresh slave pings, and the one item there is is sent back. */
  lemma Answered(b: Batch) returns (acts: seq<Action>, y: State)
    requires b == Batch(0, 1, [PktOf(Add(1, A, V))])
    ensures Runs(OneItem(), acts, y) && y == OneItem().(sync := At(1, 1), back := [Data(b)])
  {
    var x := OneItem();
    EmptySequenced();
    InsertSequenced(Empty, A, V);
    EntriesOne(x.master, 0, 1);
    assert Recs(b.pkts) == [Add(1, A, V)];
    var x1 := x.(pings := [Ping(0, false)]);
    var x2 := x.(sync := At(0, 0));
    var round := SyncRound([], 1, b.pkts);
    y := x.(sync := At(1, 1), back := [Data(b)]);
    assert Do(x, SendPing) == x1 && Do(x1, Answer) == x2 && Do(x2, round) == y;
    RunsCons(x2, round, [], y);
    RunsCons(x1, Answer, [round], y);
    RunsCons(x, SendPing, [Answer] + [round], y);
    acts := [SendPing] + ([Answer] + [round]);
  }

  /** The answer ends and the slave takes it. */
  lemma Synchronised() returns (acts: seq<Action>, y: State)
    ensures Runs(OneItem(), acts, y) && y == OneItem().(slave := OneItem().master, synced := true)
  {
    var x := OneItem();
    var p := PktOf(Add(1, A, V));
    var b := Batch(0, 1, [p]);
    var first, x3 := Answered(b);
    var x4 := x.(back := [Data(b), Done]);
    ReplayOne(Empty, p);
    var x5 := x.(slave := x.master, back := [Done]);
    y := x.(slave := x.master, synced := true);
    assert Apply(Empty, p.rec) == x.master;
    assert Do(x3, SyncEnd) == x4 && Do(x4, TakeReply) == x5 && Do(x5, TakeReply) == y;
    RunsCons(x5, TakeReply, [], y);
    RunsCons(x4, TakeReply, [TakeReply], y);
    RunsCons(x3, SyncEnd, [TakeReply] + [TakeReply], y);
    acts := [SyncEnd] + ([TakeReply] + [TakeReply]);
    RunsCat(x, first, x3, acts, y);
    acts := first + acts;
  }

  /** The master writes one more item, broadcasts what is above its tracker, and the slave takes it. */
  lemma Broadcasts(x: State, k: Str, v: Str, upto: nat, pkts: seq<Pkt>) returns (acts: seq<Action>, y: State)
    requires k !in x.master.items && x.sync.Idle? && x.up && x.bcast == [] && pkts != []
    requires var m := Insert(x.master, k, v);
      Consistent(m) && m.last == upto < FlushAll && x.tracker <= upto && Recs(pkts) == Entries(m, x.tracker, upto)
    ensures Runs(x, acts, y) && acts == [DoInsert(k, v), Broadcast([], upto, pkts), TakeBroadcast]
    ensures var m := Insert(x.master, k, v);
      y == x.(master := m, past := x.past + m.log, tracker := upto, slave := Replay(x.slave, pkts))
  {
    var m := Insert(x.master, k, v);
    var x1 := Change(x, m);
    var x2 := x1.(tracker := upto, bcast := [Batch(x.tracker, upto, pkts)]);
    y := x1.(tracker := upto, slave := Replay(x.slave, pkts));
    assert Do(x, DoInsert(k, v)) == x1 && Do(x1, Broadcast([], upto, pkts)) == x2 && Do(x2, TakeBroadcast) == y;
    RunsCons(x2, TakeBroadcast, [], y);
    RunsCons(x1, Broadcast([], upto, pkts), [TakeBroadcast], y);
    RunsCons(x, DoInsert(k, v), [Broadcast([], upto, pkts)] + [TakeBroadcast], y);
    acts := [DoInsert(k, v)] + ([Broadcast([], upto, pkts)] + [TakeBroadcast]);
  }

  /** The stores of the run. */
  lemma ThreeItems(m1: Store, m2: Store, m3: Store)
    requires m1 == Insert(Empty, A, V) && m2 == Insert(m1, B, V) && m3 == Insert(m2, C, V)
    ensures Sequenced(Empty) && Sequenced(m1) && Sequenced(m2) && Sequenced(m3)
    ensures B !in m1.items && C !in m2.items
    ensures Entries(m2, 0, 2) == [Add(1, A, V), Add(2, B, V)] && Entries(m3, 2, 3) == [Add(3, C, V)]
  {
    assert A[0] != B[0] && A[0] != C[0] && B[0] != C[0];
    EmptySequenced();
    InsertSequenced(Empty, A, V);
    InsertSequenced(m1, B, V);
    InsertSequenced(m2, C, V);
    EntriesSplit(m2, 0, 1, 2);
    EntriesOne(m2, 0, 1);
    EntriesOne(m2, 1, 2);
    EntriesOne(m3, 2, 3);
  }

  /** Up to the broadcast that is dropped. */
  lemma DroppedRun() returns (acts: seq<Action>, y: State)
    ensures Runs(Fresh(), acts, y)
    ensures var m1 := Insert(Empty, A, V); var m2 := Insert(m1, B, V);
      y == Fresh().(master := m2, slave := m1, past := m1.log + m2.log, tracker := 2, synced := true)
  {
    var x := Fresh();
    var m1 := Insert(Empty, A, V);
    var m2 := Insert(m1, B, V);
    ThreeItems(m1, m2, Insert(m2, C, V));
    var pa, pb := PktOf(Add(1, A, V)), PktOf(Add(2, B, V));
    assert Recs([pa, pb]) == [pa.rec, pb.rec];
    var x1 := Do(x, DoInsert(A, V));
    assert x1 == OneItem();
    var a1, x2 := Synchronised();
    var a2;
    a2, y := Broadcasts(x2, B, V, 2, [pa, pb]);
    RunsCat(x1, a1, x2, a2, y);
    RunsCons(x, DoInsert(A, V), a1 + a2, y);
    acts := [DoInsert(A, V)] + (a1 + a2);
  }

  lemma LosingRun() returns (acts: seq<Action>, y: State)
    ensures Runs(Fresh(), acts, y)
    ensures y.master == Insert(Insert(Insert(Empty, A, V), B, V), C, V) && y.slave == Apply(Insert(Empty, A, V), Add(3, C, V))
    ensures y.bcast == [] && y.pings == [] && y.back == [] && y.sync.Idle?
  {
    var m1 := Insert(Empty, A, V);
    var m2 := Insert(m1, B, V);
    ThreeItems(m1, m2, Insert(m2, C, V));
    var pc := PktOf(Add(3, C, V));
    assert Recs([pc]) == [pc.rec];
    var a1, x1 := DroppedRun();
    var a2;
    a2, y := Broadcasts(x1, C, V, 3, [pc]);
    ReplayOne(m1, pc);
    RunsCat(Fresh(), a1, x1, a2, y);
    acts := a1 + a2;
  }

  /**
   * A slave synchronised up to 1 is sent 1 and 2 in a broadcast that begins where the
   * tracker stands; the batch is dropped at its first packet. The next broadcast, of 3, is
   * taken. The last TIDs agree, nothing is on its way, and the item written under 2 is
   * missing on the slave in every continuation.
   */
  lemma SyncedSlaveLoses() returns (acts: seq<Action>, y: State)
    ensures FreshRun(acts, y)
    ensures y.slave.last == y.master.last && y.bcast == [] && y.pings == [] && y.back == [] && y.sync.Idle?
    ensures B in y.master.items && B !in y.slave.items
    ensures forall more, z :: Runs(y, more, z) && B in z.slave.items ==> z.slave.items[B].tid != y.master.items[B].tid
  {
    acts, y := LosingRun();
    IsFreshRun(acts, y);
    StartInv(Fresh());
    RunsInv(Fresh(), acts, y);
    assert A[0] != B[0] && B[0] != C[0];
    forall more, z | Runs(y, more, z) && B in z.slave.items
      ensures z.slave.items[B].tid != y.master.items[B].tid
    {
      LostForGood(y, more, z, B);
    }
  }

  // ----- a run that trips the lookahead -----

  const AB: Str := [97, 98]
  const ABC: Str := [97, 98, 99]

  /** "ab" is removed and "abc" added in one batch. */
  lemma SecondBatch(s: Store) returns (p2: Pkt, p3: Pkt)
    requires s == Insert(Empty, AB, V)
    ensures p2.rec == Rem(2, 1) && p3.rec == Add(3, ABC, V)
    ensures AB in Replay(s, [p2, p3]).items
  {
    p2, p3 := PktOf(Rem(2, 1)), PktOf(Add(3, ABC, V));
    assert p3.data[..2] == AB;
    assert AB != ABC by { assert |AB| != |ABC|; }
    assert Skips(s, [p2, p3]) && [p2, p3][1..] == [p3];
    ReplayOne(Note(s, 2, 1), p3);
  }

  lemma SecondPacked(m: Store)
    requires m == Insert(Erase(Insert(Empty, AB, V), AB), ABC, V) && Consistent(m)
    ensures m.last == 3 && AB !in m.items && Entries(m, 1, 3) == [Rem(2, 1), Add(3, ABC, V)]
  {
    assert AB != ABC by { assert |AB| != |ABC|; }
    EntriesSplit(m, 1, 2, 3);
    EntriesOne(m, 1, 2);
    EntriesOne(m, 2, 3);
  }

  /**
   * The master writes "ab", broadcasts it, erases it, writes "abc" and broadcasts both
   * changes in one batch. The slave has taken everything and still holds "ab".
   */
  lemma PrefixDiverges() returns (acts: seq<Action>, y: State)
    ensures FreshRun(acts, y)
    ensures y.slave.last == y.master.last && AB in y.slave.items && AB !in y.master.items
  {
    FreshBegins();
    var x := Fresh();
    var m1 := Insert(Empty, AB, V);
    InsertSequenced(Empty, AB, V);
    EraseSequenced(m1, AB);
    var m2 := Erase(m1, AB);
    assert ABC !in m2.items by { assert |AB| != |ABC|; }
    InsertSequenced(m2, ABC, V);
    var p1 := PktOf(Add(1, AB, V));
    EntriesOne(m1, 0, 1);
    assert Recs([p1]) == [p1.rec];
    var a1, x1 := Broadcasts(x, AB, V, 1, [p1]);
    ReplayOne(Empty, p1);
    assert x1.slave == m1;
    var p2, p3 := SecondBatch(m1);
    SecondPacked(Insert(m2, ABC, V));
    assert Recs([p2, p3]) == [p2.rec, p3.rec];
    var x2 := Do(x1, DoErase(AB));
    var a2;
    a2, y := Broadcasts(x2, ABC, V, 3, [p2, p3]);
    RunsCons(x1, DoErase(AB), a2, y);
    RunsCat(x, a1, x1, [DoErase(AB)] + a2, y);
    acts := a1 + ([DoErase(AB)] + a2);
    LastOf(m1, p2, p3);
    IsFreshRun(acts, y);
  }

  lemma LastOf(s: Store, p2: Pkt, p3: Pkt)
    requires s.last < p2.rec.tid < p3.rec.tid
    ensures Replay(s, [p2, p3]).last == p3.rec.tid
  {
    assert [p2, p3][1..] == [p3];
    StepLast(s, [p2, p3]);
    ReplayOne(Step(s, [p2, p3]), p3);
    ApplyLast(Step(s, [p2, p3]), p3.rec);
  }

  // ----- a run in which a reader erases an item -----

  /** An item that expires at time 1. */
  function Brief(): Str { Le(8, 1) }

  lemma BriefExpires()
    ensures !Expired(Brief(), 0) && Expired(Brief(), 1)
  {
    assert Pow256(8) > 1;
    LeRoundTrip(8, 1);
    assert Brief()[..8] == Brief();
  }

  /** The slave's clock moves on and a reader asks for the one item. */
  lemma ReaderComes(x: State) returns (acts: seq<Action>, y: State)
    requires A in x.slave.items && x.slave.items[A].val == Brief() && x.clock <= 1
    ensures Runs(x, acts, y) && Undisturbed(acts) && PlainRun(x, acts)
    ensures y == x.(clock := 1, slave := Unlink(x.slave, A), lapsed := x.lapsed + {x.slave.items[A].tid})
  {
    BriefExpires();
    var x1 := x.(clock := 1);
    y := Do(x1, Lapse(A));
    RunsCons(x1, Lapse(A), [], y);
    RunsCons(x, Tick(1), [Lapse(A)], y);
    acts := [Tick(1)] + [Lapse(A)];
    SinglesPlain(x, acts);
  }

  /** The slave takes the item. */
  lemma BriefTaken() returns (acts: seq<Action>, y: State)
    ensures Runs(Fresh(), acts, y) && Undisturbed(acts) && PlainRun(Fresh(), acts)
    ensures var m := Insert(Empty, A, Brief()); y == Fresh().(master := m, slave := m, past := m.log, tracker := 1)
  {
    var x, p := Fresh(), PktOf(Add(1, A, Brief()));
    var m := Insert(Empty, A, Brief());
    FreshBegins();
    InsertSequenced(Empty, A, Brief());
    EntriesOne(m, 0, 1);
    assert Recs([p]) == [p.rec];
    acts, y := Broadcasts(x, A, Brief(), 1, [p]);
    ReplayOne(Empty, p);
    SinglesPlain(x, acts);
  }

  /** And a reader asks for it. */
  lemma ErasedRun() returns (acts: seq<Action>, y: State)
    ensures Runs(Fresh(), acts, y) && Undisturbed(acts) && PlainRun(Fresh(), acts)
    ensures var m := Insert(Empty, A, Brief());
      y == Fresh().(master := m, slave := Unlink(m, A), past := m.log, tracker := 1, lapsed := {1}, clock := 1)
  {
    var a1, x1 := BriefTaken();
    var a2;
    a2, y := ReaderComes(x1);
    RunsCat(Fresh(), a1, x1, a2, y);
    acts := a1 + a2;
    PlainCat(Fresh(), a1, x1, a2);
  }

  lemma {:induction false} PlainCat(x: State, a: seq<Action>, y: State, b: seq<Action>)
    requires Runs(x, a, y) && PlainRun(x, a) && PlainRun(y, b)
    ensures PlainRun(x, a + b)
    decreases |a|
  {
    if a == [] {
      assert a + b == b;
    } else {
      PlainCat(Do(x, a[0]), a[1..], y, b);
      assert (a + b)[1..] == a[1..] + b;
    }
  }

  /**
   * The master writes an item that soon expires, and the slave takes it. Then the item is
   * asked for at the slave. No batch left a gap, every batch was plain, nothing is on its
   * way and the last TIDs agree, but the master still has the item and the slave does not,
   * nor will it have it again; and the slave's last TID is no longer in its log.
   */
  lemma ReaderErases() returns (acts: seq<Action>, y: State)
    ensures FreshRun(acts, y) && PlainRun(Fresh(), acts) && GapFree(Fresh(), acts)
    ensures y.slave.last == y.master.last && y.bcast == [] && y.pings == [] && y.back == [] && y.sync.Idle?
    ensures A in y.master.items && A !in y.slave.items && !Sequenced(y.slave)
    ensures Mirrored(y) && !Mirrors(y.master, y.past, y.slave, {})
    ensures forall more, z :: Runs(y, more, z) && A in z.slave.items ==> z.slave.items[A].tid != y.master.items[A].tid
  {
    acts, y := ErasedRun();
    IsFreshRun(acts, y);
    StreamGapFree(Fresh(), acts, y);
    SlaveConverges(Fresh(), acts, y);
    StartInv(Fresh());
    RunsInv(Fresh(), acts, y);
    assert !Kept(y.master, y.slave, {}, 1);
    forall more, z | Runs(y, more, z) && A in z.slave.items
      ensures z.slave.items[A].tid != y.master.items[A].tid
    {
      LostForGood(y, more, z, A);
    }
  }

  /** Batches of one packet are plain. */
  lemma {:induction false} SinglesPlain(x: State, acts: seq<Action>)
    requires forall i :: 0 <= i < |acts| && acts[i].Broadcast? ==> |acts[i].pkts| <= 1
    requires forall i :: 0 <= i < |acts| ==> !acts[i].SyncRound?
    ensures PlainRun(x, acts)
    decreases |acts|
  {
    if acts != [] { SinglesPlain(Do(x, acts[0]), acts[1..]); }
  }

  lemma {:induction false} RunsInv(x: State, acts: seq<Action>, y: State)
    requires Inv(x) && Runs(x, acts, y)
    ensures Inv(y)
    decreases |acts|
  {
    if acts != [] {
      StepInv(x, acts[0]);
      RunsInv(Do(x, acts[0]), acts[1..], y);
    }
  }

  lemma EmptySequenced()
    ensures Sequenced(Empty)
  {
    forall k ensures ItemOk(Empty, k) { }
    forall t: nat ensures EntryOk(Empty, t) && RemovalOk(Empty, t) { }
    forall t: nat, u: nat ensures FlushOk(Empty, t, u) { }
  }

  lemma FreshBegins()
    ensures Begins(Fresh()) && Ordered(Empty)
  {
    EmptySequenced();
    forall t: nat ensures Dated(Empty.log, map[], t) && Origin(map[], t) { }
  }
}
