/** Master flip and election for one slice, in a fixed, fully connected replication group
    (`lcreplgroup.cpp`, `lcreplreceiver.cpp`, `lcreplsender.cpp`).

    Each node keeps a table with the role and TID of every node, its own entry included;
    its own entry is its real role.  A node's own connection to a peer is one FIFO channel
    carrying pings, flip requests, flip-done and new-master messages; flip
    acknowledgements come back on the reverse direction of the requester's connection.
    The scans walk the table in hash order, so every step that scans is given an
    arbitrary enumeration of the group.
 */
module RoleProtocol {

  type Node = nat

  datatype Role = Master | Slave | Flipping

  datatype Msg =
    | Ping(role: Role, tid: nat)   // RT_REPL_PING: the sender's own entry at sending time
    | FlipReq                      // RT_M2C_MSTRFLIPING
    | FlipDone                     // RT_M2C_FLIPDONE
    | NewMaster                    // RT_GROUP_NEWMASTER

  /** `first` is the master every node knows at the start. */
  datatype Config = Config(nodes: set<Node>, prio: map<Node, nat>, first: Node)

  ghost predicate ValidConfig(c: Config) {
    c.first in c.nodes && c.prio.Keys == c.nodes
  }

  /** `role[(n, p)]` and `tid[(n, p)]`: what node n has in its table for node p.
      `chan[(p, n)]`: messages from p to n on p's own connection.
      `acks[(p, n)]`: flip acknowledgements from p waiting at n. */
  datatype State = State(
    role: map<(Node, Node), Role>,
    tid: map<(Node, Node), nat>,
    chan: map<(Node, Node), seq<Msg>>,
    acks: map<(Node, Node), nat>)

  datatype Action =
    | Monitor(n: Node, order: seq<Node>)      // timer: monitorRoles
    | SendPing(n: Node, to: Node)             // timer: heartbeat
    | Receive(n: Node, from: Node)            // processPacket for the oldest message
    | ReceiveAck(n: Node, from: Node)         // masterHandleClientToFlip
    | Learn(n: Node, about: Node, t: nat)     // data traffic changes a TID entry

  // ---------- the scans over a node's table ----------

  /** `roleExistInGroup`. */
  predicate RoleExists(s: State, n: Node, order: seq<Node>, r: Role)
    requires forall p | p in order :: (n, p) in s.role
  {
    order != [] && (s.role[(n, order[0])] == r || RoleExists(s, n, order[1..], r))
  }

  /** `isAllClientSync`. */
  predicate AllSynced(s: State, n: Node, order: seq<Node>)
    requires (n, n) in s.tid && forall p | p in order :: (n, p) in s.tid
  {
    order == [] || (s.tid[(n, order[0])] == s.tid[(n, n)] && AllSynced(s, n, order[1..]))
  }

  /** The running maximum of `hasHighPriorityClient`. */
  function Highest(c: Config, order: seq<Node>, best: Node): Node
    requires best in c.prio && forall p | p in order :: p in c.prio
  {
    if order == [] then best
    else Highest(c, order[1..], if c.prio[order[0]] > c.prio[best] then order[0] else best)
  }

  /** `isLegalClientBeMstr`: the priority loop and, among equals, the TID loop of
      `getClientsMaxTid`.  The last tie-break, `isSelfMinAddr`, always answers yes. */
  predicate Legal(c: Config, s: State, n: Node, order: seq<Node>)
    requires n in c.prio && (n, n) in s.tid && forall p | p in order :: p in c.prio && (n, p) in s.tid
  {
    order == [] ||
    (if c.prio[order[0]] > c.prio[n] then false
     else if c.prio[order[0]] == c.prio[n] && s.tid[(n, order[0])] > s.tid[(n, n)] then false
     else Legal(c, s, n, order[1..]))
  }

  lemma {:induction false} RoleExistsMeans(s: State, n: Node, order: seq<Node>, r: Role)
    requires forall p | p in order :: (n, p) in s.role
    ensures RoleExists(s, n, order, r) <==> exists p | p in order :: s.role[(n, p)] == r
  {
    if order != [] {
      RoleExistsMeans(s, n, order[1..], r);
      assert forall p :: p in order <==> p == order[0] || p in order[1..];
    }
  }

  lemma {:induction false} AllSyncedMeans(s: State, n: Node, order: seq<Node>)
    requires (n, n) in s.tid && forall p | p in order :: (n, p) in s.tid
    ensures AllSynced(s, n, order) <==> forall p | p in order :: s.tid[(n, p)] == s.tid[(n, n)]
  {
    if order != [] {
      AllSyncedMeans(s, n, order[1..]);
      assert forall p :: p in order <==> p == order[0] || p in order[1..];
    }
  }

  lemma {:induction false} HighestMeans(c: Config, order: seq<Node>, best: Node)
    requires best in c.prio && forall p | p in order :: p in c.prio
    ensures var h := Highest(c, order, best);
      && (h == best || h in order) && h in c.prio
      && c.prio[best] <= c.prio[h]
      && (forall p | p in order :: c.prio[p] <= c.prio[h])
      && ((forall p | p in order :: c.prio[p] <= c.prio[best]) ==> h == best)
  {
    if order != [] {
      HighestMeans(c, order[1..], if c.prio[order[0]] > c.prio[best] then order[0] else best);
      assert forall p :: p in order <==> p == order[0] || p in order[1..];
    }
  }

  lemma {:induction false} LegalMeans(c: Config, s: State, n: Node, order: seq<Node>)
    requires n in c.prio && (n, n) in s.tid && forall p | p in order :: p in c.prio && (n, p) in s.tid
    ensures Legal(c, s, n, order) <==>
      forall p | p in order ::
        c.prio[p] <= c.prio[n] && (c.prio[p] == c.prio[n] ==> s.tid[(n, p)] <= s.tid[(n, n)])
  {
    if order != [] {
      LegalMeans(c, s, n, order[1..]);
      assert forall p :: p in order <==> p == order[0] || p in order[1..];
    }
  }

  // ---------- steps ----------

  ghost predicate Shape(c: Config, s: State) {
    forall a, b | a in c.nodes && b in c.nodes ::
      (a, b) in s.role && (a, b) in s.tid && (a, b) in s.chan && (a, b) in s.acks
  }

  ghost function Start(c: Config): State
    requires ValidConfig(c)
    ensures Shape(c, Start(c))
  {
    State(map a, b | a in c.nodes && b in c.nodes :: (a, b) := if b == c.first then Master else Slave,
          map a, b | a in c.nodes && b in c.nodes :: (a, b) := 0,
          map a, b | a in c.nodes && b in c.nodes :: (a, b) := [],
          map a, b | a in c.nodes && b in c.nodes :: (a, b) := 0)
  }

  ghost predicate Enumerates(c: Config, order: seq<Node>) {
    forall p :: p in order <==> p in c.nodes
  }

  ghost predicate Enabled(c: Config, s: State, a: Action) {
    a.n in c.nodes &&
    match a
    case Monitor(n, order) => |c.nodes| > 1 && Enumerates(c, order)
    case SendPing(n, to) => to in c.nodes && to != n
    case Receive(n, from) => from in c.nodes && from != n && (from, n) in s.chan && s.chan[(from, n)] != []
    case ReceiveAck(n, from) => from in c.nodes && from != n && (from, n) in s.acks && s.acks[(from, n)] > 0
    case Learn(n, about, t) => about in c.nodes
  }

  function Send(s: State, n: Node, to: Node, m: Msg): State
    requires (n, to) in s.chan
  {
    s.(chan := s.chan[(n, to) := s.chan[(n, to)] + [m]])
  }

  /** `bcastNewMstrElectDone`: to every peer the node is connected to. */
  function Broadcast(s: State, n: Node): State {
    s.(chan := map k | k in s.chan :: if k.0 == n && k.1 != n then s.chan[k] + [NewMaster] else s.chan[k])
  }

  /** `setNewMstrClearOthers` at node n. */
  function SetNewMaster(s: State, n: Node, m: Node): State {
    s.(role := map k | k in s.role :: if k.0 == n then (if k.1 == m then Master else Slave) else s.role[k])
  }

  ghost function MonitorStep(c: Config, s: State, n: Node, order: seq<Node>): State
    requires ValidConfig(c) && Shape(c, s) && n in c.nodes && Enumerates(c, order)
    requires order != []
  {
    if s.role[(n, n)] == Master then
      HighestMeans(c, order[1..], order[0]);
      var h := Highest(c, order[1..], order[0]);
      if AllSynced(s, n, order) && c.prio[h] > c.prio[n] then
        Send(s.(role := s.role[(n, n) := Flipping]), n, h, FlipReq)
      else s
    else if !RoleExists(s, n, order, Master) && Legal(c, s, n, order) then
      Broadcast(s.(role := s.role[(n, n) := Master]), n)
    else s
  }

  ghost function ReceiveStep(c: Config, s: State, n: Node, from: Node): State
    requires Shape(c, s) && n in c.nodes && from in c.nodes && s.chan[(from, n)] != []
  {
    var m := s.chan[(from, n)][0];
    var s1 := s.(chan := s.chan[(from, n) := s.chan[(from, n)][1..]]);
    match m
    case Ping(r, t) => s1.(role := s1.role[(n, from) := r], tid := s1.tid[(n, from) := t])
    case FlipReq => s1.(acks := s1.acks[(n, from) := s1.acks[(n, from)] + 1])
    case FlipDone => Broadcast(SetNewMaster(s1, n, n), n)
    case NewMaster => SetNewMaster(s1, n, from)
  }

  ghost function Do(c: Config, s: State, a: Action): (s': State)
    requires ValidConfig(c) && Shape(c, s) && Enabled(c, s, a)
    ensures Shape(c, s')
  {
    match a
    case Monitor(n, order) => assert n in order; MonitorStep(c, s, n, order)
    case SendPing(n, to) => Send(s, n, to, Ping(s.role[(n, n)], s.tid[(n, n)]))
    case Receive(n, from) => ReceiveStep(c, s, n, from)
    case ReceiveAck(n, from) =>
      Send(s.(acks := s.acks[(from, n) := s.acks[(from, n)] - 1], role := s.role[(n, n) := Slave]), n, from, FlipDone)
    case Learn(n, about, t) => s.(tid := s.tid[(n, about) := t])
  }

  ghost predicate Runs(c: Config, s: State, actions: seq<Action>, s': State)
    requires ValidConfig(c) && Shape(c, s)
    decreases |actions|
  {
    if actions == [] then s == s'
    else Enabled(c, s, actions[0]) && Runs(c, Do(c, s, actions[0]), actions[1..], s')
  }

  ghost predicate IsMaster(s: State, n: Node) {
    (n, n) in s.role && s.role[(n, n)] == Master
  }

  ghost predicate AtMostOneMaster(c: Config, s: State) {
    forall a, b | a in c.nodes && b in c.nodes && IsMaster(s, a) && IsMaster(s, b) :: a == b
  }

  ghost predicate IsTop(c: Config, n: Node)
    requires ValidConfig(c)
  {
    n in c.nodes && forall p | p in c.nodes :: c.prio[p] <= c.prio[n]
  }

  ghost predicate OneTop(c: Config)
    requires ValidConfig(c)
  {
    forall a, b | IsTop(c, a) && IsTop(c, b) :: a == b
  }

  // ---------- case A: the first master already has the highest priority ----------

  /** Nothing but pings ever travels and every table keeps the first master. */
  ghost predicate Steady(c: Config, s: State)
    requires ValidConfig(c)
  {
    && Shape(c, s)
    && (forall n | n in c.nodes :: s.role[(n, c.first)] == Master)
    && (forall n | n in c.nodes && n != c.first :: s.role[(n, n)] == Slave)
    && (forall a, b, i | a in c.nodes && b in c.nodes && 0 <= i < |s.chan[(a, b)]| ::
          s.chan[(a, b)][i].Ping? && (a == c.first ==> s.chan[(a, b)][i].role == Master))
    && (forall a, b | a in c.nodes && b in c.nodes :: s.acks[(a, b)] == 0)
  }

  lemma SteadyMonitor(c: Config, s: State, n: Node, order: seq<Node>)
    requires ValidConfig(c) && IsTop(c, c.first) && Steady(c, s) && n in c.nodes && Enumerates(c, order) && order != []
    ensures MonitorStep(c, s, n, order) == s
  {
    RoleExistsMeans(s, n, order, Master);
    assert c.first in order;
    HighestMeans(c, order[1..], order[0]);
  }

  lemma SteadyReceive(c: Config, s: State, n: Node, from: Node)
    requires ValidConfig(c) && Steady(c, s)
    requires n in c.nodes && from in c.nodes && n != from && s.chan[(from, n)] != []
    ensures Steady(c, ReceiveStep(c, s, n, from))
  {
    assert s.chan[(from, n)][0].Ping?;
  }

  lemma SteadyPing(c: Config, s: State, n: Node, to: Node)
    requires ValidConfig(c) && Steady(c, s) && n in c.nodes && to in c.nodes && n != to
    ensures Steady(c, Send(s, n, to, Ping(s.role[(n, n)], s.tid[(n, n)])))
  {
  }

  lemma SteadyStep(c: Config, s: State, a: Action)
    requires ValidConfig(c) && IsTop(c, c.first) && Steady(c, s) && Enabled(c, s, a)
    ensures Steady(c, Do(c, s, a))
  {
    if a.Monitor? {
      assert a.n in a.order;
      SteadyMonitor(c, s, a.n, a.order);
    } else if a.Receive? {
      SteadyReceive(c, s, a.n, a.from);
    } else if a.SendPing? {
      SteadyPing(c, s, a.n, a.to);
    }
  }

  // ---------- case B: one node `top` outranks the first master ----------

  /** The role node x will have for `top` once it has read `pending`. */
  function ViewAfter(r: Role, pending: seq<Msg>): Role
    decreases |pending|
  {
    if pending == [] then r
    else ViewAfter(match pending[0]
                   case Ping(q, _) => q
                   case NewMaster => Master
                   case _ => r, pending[1..])
  }

  lemma {:induction false} ViewAfterSnoc(r: Role, pending: seq<Msg>, m: Msg)
    ensures ViewAfter(r, pending + [m]) ==
      match m case Ping(q, _) => q case NewMaster => Master case _ => ViewAfter(r, pending)
    decreases |pending|
  {
    if pending == [] {
      assert [m][1..] == [];
    } else {
      assert (pending + [m])[1..] == pending[1..] + [m];
      ViewAfterSnoc(match pending[0] case Ping(q, _) => q case NewMaster => Master case _ => r, pending[1..], m);
    }
  }

  /** What may be on the wire from a to b. */
  ghost predicate WireOk(c: Config, s: State, top: Node, a: Node, b: Node, m: Msg)
    requires ValidConfig(c) && Shape(c, s) && a in c.nodes && b in c.nodes && top in c.nodes
  {
    match m
    case Ping(r, _) =>
      && (a != c.first && a != top ==> r == Slave)
      && (a == c.first && s.role[(a, a)] == Master ==> r == Master)
      && (a == top ==> r != Flipping)
    case NewMaster => a == top && s.role[(top, top)] == Master
    case FlipReq => a == c.first && b == top && s.role[(a, a)] != Master
    case FlipDone => a == c.first && b == top && s.role[(a, a)] != Master
  }

  ghost predicate HandOver(c: Config, s: State, top: Node)
    requires ValidConfig(c)
  {
    && Shape(c, s) && top in c.nodes && top != c.first
    && (forall n | n in c.nodes && n != c.first && n != top :: s.role[(n, n)] == Slave)
    && s.role[(top, top)] != Flipping
    && (s.role[(c.first, c.first)] == Master ==> s.role[(top, top)] == Slave && s.role[(top, c.first)] == Master)
    && (forall a, b, m | a in c.nodes && b in c.nodes && m in s.chan[(a, b)] :: WireOk(c, s, top, a, b, m))
    && (forall a, b | a in c.nodes && b in c.nodes && s.acks[(a, b)] > 0 ::
          a == top && b == c.first && s.role[(b, b)] != Master)
  }

  /** Mastership is never lost: somebody is master, or the first master is handing over and
      its request or the acknowledgement is on its way, or the message that makes `top`
      master is. */
  ghost predicate Conserved(c: Config, s: State, top: Node)
    requires ValidConfig(c) && Shape(c, s) && top in c.nodes
  {
    && (s.role[(c.first, c.first)] == Flipping ==> FlipReq in s.chan[(c.first, top)] || s.acks[(top, c.first)] > 0)
    && (s.role[(top, top)] == Master || s.role[(c.first, c.first)] != Slave || FlipDone in s.chan[(c.first, top)])
  }

  /** What node x will think of `top` agrees with the real role of `top`. */
  ghost predicate ConvergesAt(c: Config, s: State, top: Node, x: Node)
    requires ValidConfig(c) && Shape(c, s) && top in c.nodes && x in c.nodes
  {
    ViewAfter(s.role[(x, top)], s.chan[(top, x)]) == s.role[(top, top)]
  }

  /** Whoever reads everything `top` has sent so far sees the real role of `top`. */
  ghost predicate Converging(c: Config, s: State, top: Node)
    requires ValidConfig(c) && Shape(c, s) && top in c.nodes
  {
    forall x | x in c.nodes && x != top :: ConvergesAt(c, s, top, x)
  }

  lemma HandOverMonitor(c: Config, s: State, top: Node, n: Node, order: seq<Node>)
    requires ValidConfig(c) && OneTop(c) && IsTop(c, top) && HandOver(c, s, top)
    requires n in c.nodes && Enumerates(c, order) && order != []
    ensures var s' := MonitorStep(c, s, n, order);
      || s' == s
      || (n == c.first && s.role[(n, n)] == Master
          && s' == Send(s.(role := s.role[(n, n) := Flipping]), n, top, FlipReq))
      || (n == top && s.role[(n, n)] == Slave && s.role[(c.first, c.first)] != Master
          && s' == Broadcast(s.(role := s.role[(n, n) := Master]), n))
  {
    HighestMeans(c, order[1..], order[0]);
    assert top in order && c.first in order;
    var h := Highest(c, order[1..], order[0]);
    assert IsTop(c, h) by {
      forall p | p in c.nodes ensures c.prio[p] <= c.prio[h] {
        assert p in order;
        assert p == order[0] || p in order[1..];
      }
    }
    RoleExistsMeans(s, n, order, Master);
    LegalMeans(c, s, n, order);
    if n != top && c.prio[top] <= c.prio[n] {
      assert IsTop(c, n);
    }
  }

  /** The two roles that matter only move forward. */
  ghost predicate Forward(c: Config, s: State, s': State, top: Node)
    requires ValidConfig(c) && Shape(c, s) && Shape(c, s') && top in c.nodes
  {
    && (s'.role[(c.first, c.first)] == Master ==> s.role[(c.first, c.first)] == Master)
    && (s.role[(top, top)] == Master ==> s'.role[(top, top)] == Master)
  }

  /** A state is still a hand-over state when its roles moved forward and whatever is new on
      the wire is legitimate. */
  lemma HandOverRebuilt(c: Config, s: State, s': State, top: Node)
    requires ValidConfig(c) && HandOver(c, s, top) && Shape(c, s') && Forward(c, s, s', top)
    requires forall n | n in c.nodes && n != c.first && n != top :: s'.role[(n, n)] == Slave
    requires s'.role[(top, top)] != Flipping
    requires s'.role[(c.first, c.first)] == Master ==> s'.role[(top, top)] == Slave && s'.role[(top, c.first)] == Master
    requires forall a, b, m | a in c.nodes && b in c.nodes && m in s'.chan[(a, b)] ::
               m in s.chan[(a, b)] || WireOk(c, s', top, a, b, m)
    requires forall a, b | a in c.nodes && b in c.nodes && s'.acks[(a, b)] > 0 ::
               s.acks[(a, b)] > 0 || (a == top && b == c.first && s'.role[(b, b)] != Master)
    ensures HandOver(c, s', top)
  {
    forall a, b, m | a in c.nodes && b in c.nodes && m in s'.chan[(a, b)]
      ensures WireOk(c, s', top, a, b, m)
    {
      if m in s.chan[(a, b)] {
        assert WireOk(c, s, top, a, b, m);
      }
    }
  }

  lemma FlipStep(c: Config, s: State, top: Node)
    requires ValidConfig(c) && HandOver(c, s, top) && s.role[(c.first, c.first)] == Master
    ensures HandOver(c, Send(s.(role := s.role[(c.first, c.first) := Flipping]), c.first, top, FlipReq), top)
  {
    var s' := Send(s.(role := s.role[(c.first, c.first) := Flipping]), c.first, top, FlipReq);
    HandOverRebuilt(c, s, s', top);
  }

  lemma ElectStep(c: Config, s: State, top: Node)
    requires ValidConfig(c) && HandOver(c, s, top) && s.role[(c.first, c.first)] != Master
    ensures HandOver(c, Broadcast(s.(role := s.role[(top, top) := Master]), top), top)
  {
    var s' := Broadcast(s.(role := s.role[(top, top) := Master]), top);
    HandOverRebuilt(c, s, s', top);
  }

  lemma PingStep(c: Config, s: State, top: Node, n: Node, to: Node)
    requires ValidConfig(c) && HandOver(c, s, top) && n in c.nodes && to in c.nodes && n != to
    ensures HandOver(c, Send(s, n, to, Ping(s.role[(n, n)], s.tid[(n, n)])), top)
  {
    HandOverRebuilt(c, s, Send(s, n, to, Ping(s.role[(n, n)], s.tid[(n, n)])), top);
  }

  lemma AckStep(c: Config, s: State, top: Node)
    requires ValidConfig(c) && HandOver(c, s, top) && s.acks[(top, c.first)] > 0
    ensures HandOver(c, Do(c, s, ReceiveAck(c.first, top)), top)
  {
    HandOverRebuilt(c, s, Do(c, s, ReceiveAck(c.first, top)), top);
  }

  lemma ReceiveStepKeeps(c: Config, s: State, top: Node, n: Node, from: Node)
    requires ValidConfig(c) && HandOver(c, s, top)
    requires n in c.nodes && from in c.nodes && n != from && s.chan[(from, n)] != []
    ensures HandOver(c, ReceiveStep(c, s, n, from), top)
  {
    var m := s.chan[(from, n)][0];
    assert WireOk(c, s, top, from, n, m);
    var s' := ReceiveStep(c, s, n, from);
    assert forall x | x in s.chan[(from, n)][1..] :: x in s.chan[(from, n)];
    HandOverRebuilt(c, s, s', top);
  }

  lemma HandOverStep(c: Config, s: State, top: Node, a: Action)
    requires ValidConfig(c) && OneTop(c) && IsTop(c, top) && HandOver(c, s, top) && Enabled(c, s, a)
    ensures HandOver(c, Do(c, s, a), top)
  {
    match a
    case Monitor(n, order) =>
      assert n in order;
      HandOverMonitor(c, s, top, n, order);
      if s.role[(c.first, c.first)] == Master { FlipStep(c, s, top); } else { ElectStep(c, s, top); }
    case SendPing(n, to) => PingStep(c, s, top, n, to);
    case Receive(n, from) => ReceiveStepKeeps(c, s, top, n, from);
    case ReceiveAck(n, from) => AckStep(c, s, top);
    case Learn(n, about, t) => HandOverRebuilt(c, s, Do(c, s, a), top);
  }

  lemma SnocIn(pending: seq<Msg>, m: Msg)
    ensures m in pending + [m] && forall x :: x in pending ==> x in pending + [m]
  {
    assert (pending + [m])[|pending|] == m;
  }

  lemma ConservedMonitor(c: Config, s: State, top: Node, n: Node, order: seq<Node>)
    requires ValidConfig(c) && OneTop(c) && IsTop(c, top) && HandOver(c, s, top) && Conserved(c, s, top)
    requires n in c.nodes && Enumerates(c, order) && order != []
    ensures Shape(c, MonitorStep(c, s, n, order)) && Conserved(c, MonitorStep(c, s, n, order), top)
  {
    HandOverMonitor(c, s, top, n, order);
    SnocIn(s.chan[(c.first, top)], FlipReq);
  }

  lemma ConservedReceive(c: Config, s: State, top: Node, n: Node, from: Node)
    requires ValidConfig(c) && HandOver(c, s, top) && Conserved(c, s, top)
    requires n in c.nodes && from in c.nodes && n != from && s.chan[(from, n)] != []
    ensures Shape(c, ReceiveStep(c, s, n, from)) && Conserved(c, ReceiveStep(c, s, n, from), top)
  {
    var pending := s.chan[(from, n)];
    assert WireOk(c, s, top, from, n, pending[0]);
    assert forall m :: m in pending <==> m == pending[0] || m in pending[1..];
  }

  lemma ConservedStep(c: Config, s: State, top: Node, a: Action)
    requires ValidConfig(c) && OneTop(c) && IsTop(c, top) && HandOver(c, s, top) && Enabled(c, s, a)
    requires Conserved(c, s, top)
    ensures Conserved(c, Do(c, s, a), top)
  {
    match a
    case Monitor(n, order) =>
      assert n in order;
      ConservedMonitor(c, s, top, n, order);
    case Receive(n, from) => ConservedReceive(c, s, top, n, from);
    case ReceiveAck(n, from) => SnocIn(s.chan[(n, from)], FlipDone);
    case SendPing(n, to) => SnocIn(s.chan[(n, to)], Ping(s.role[(n, n)], s.tid[(n, n)]));
    case Learn(n, about, u) =>
  }

  lemma ConvergingMonitor(c: Config, s: State, top: Node, n: Node, order: seq<Node>, x: Node)
    requires ValidConfig(c) && OneTop(c) && IsTop(c, top) && HandOver(c, s, top)
    requires n in c.nodes && Enumerates(c, order) && order != []
    requires x in c.nodes && x != top && ConvergesAt(c, s, top, x)
    ensures Shape(c, MonitorStep(c, s, n, order)) && ConvergesAt(c, MonitorStep(c, s, n, order), top, x)
  {
    HandOverMonitor(c, s, top, n, order);
    ViewAfterSnoc(s.role[(x, top)], s.chan[(top, x)], NewMaster);
  }

  lemma ConvergingReceive(c: Config, s: State, top: Node, n: Node, from: Node, x: Node)
    requires ValidConfig(c) && HandOver(c, s, top)
    requires n in c.nodes && from in c.nodes && n != from && s.chan[(from, n)] != []
    requires x in c.nodes && x != top && ConvergesAt(c, s, top, x)
    ensures Shape(c, ReceiveStep(c, s, n, from)) && ConvergesAt(c, ReceiveStep(c, s, n, from), top, x)
  {
    assert WireOk(c, s, top, from, n, s.chan[(from, n)][0]);
    ViewAfterSnoc(s.role[(x, top)], s.chan[(top, x)], NewMaster);
  }

  lemma ConvergingPing(c: Config, s: State, top: Node, n: Node, to: Node, x: Node)
    requires ValidConfig(c) && HandOver(c, s, top) && n in c.nodes && to in c.nodes && n != to
    requires x in c.nodes && x != top && ConvergesAt(c, s, top, x)
    ensures ConvergesAt(c, Send(s, n, to, Ping(s.role[(n, n)], s.tid[(n, n)])), top, x)
  {
    ViewAfterSnoc(s.role[(x, top)], s.chan[(top, x)], Ping(s.role[(n, n)], s.tid[(n, n)]));
  }

  lemma ConvergingAt(c: Config, s: State, top: Node, a: Action, x: Node)
    requires ValidConfig(c) && OneTop(c) && IsTop(c, top) && HandOver(c, s, top) && Enabled(c, s, a)
    requires x in c.nodes && x != top && ConvergesAt(c, s, top, x)
    ensures ConvergesAt(c, Do(c, s, a), top, x)
  {
    match a
    case Monitor(n, order) =>
      assert n in order;
      ConvergingMonitor(c, s, top, n, order, x);
    case Receive(n, from) => ConvergingReceive(c, s, top, n, from, x);
    case SendPing(n, to) => ConvergingPing(c, s, top, n, to, x);
    case _ =>
  }

  lemma ConvergingStep(c: Config, s: State, top: Node, a: Action)
    requires ValidConfig(c) && OneTop(c) && IsTop(c, top) && HandOver(c, s, top) && Enabled(c, s, a)
    requires Converging(c, s, top)
    ensures Converging(c, Do(c, s, a), top)
  {
    forall x | x in c.nodes && x != top
      ensures ConvergesAt(c, Do(c, s, a), top, x)
    {
      assert ConvergesAt(c, s, top, x);
      ConvergingAt(c, s, top, a, x);
    }
  }

  // ---------- whole runs ----------

  lemma {:induction false} SteadyRuns(c: Config, s: State, actions: seq<Action>, s': State)
    requires ValidConfig(c) && IsTop(c, c.first) && Steady(c, s) && Runs(c, s, actions, s')
    ensures Steady(c, s')
    decreases |actions|
  {
    if actions != [] {
      SteadyStep(c, s, actions[0]);
      SteadyRuns(c, Do(c, s, actions[0]), actions[1..], s');
    }
  }

  lemma {:induction false} HandOverRuns(c: Config, s: State, top: Node, actions: seq<Action>, s': State)
    requires ValidConfig(c) && OneTop(c) && IsTop(c, top)
    requires HandOver(c, s, top) && Conserved(c, s, top) && Converging(c, s, top)
    requires Runs(c, s, actions, s')
    ensures HandOver(c, s', top) && Conserved(c, s', top) && Converging(c, s', top)
    decreases |actions|
  {
    if actions != [] {
      HandOverStep(c, s, top, actions[0]);
      ConservedStep(c, s, top, actions[0]);
      ConvergingStep(c, s, top, actions[0]);
      HandOverRuns(c, Do(c, s, actions[0]), top, actions[1..], s');
    }
  }

  lemma StartHandsOver(c: Config, top: Node)
    requires ValidConfig(c) && top in c.nodes && top != c.first
    ensures HandOver(c, Start(c), top) && Conserved(c, Start(c), top) && Converging(c, Start(c), top)
  {
    var s := Start(c);
    assert forall a, b | a in c.nodes && b in c.nodes :: s.chan[(a, b)] == [] && s.acks[(a, b)] == 0;
  }

  lemma HandOverMeans(c: Config, s: State, top: Node)
    requires ValidConfig(c) && HandOver(c, s, top)
    ensures AtMostOneMaster(c, s)
    ensures forall n | n in c.nodes && IsMaster(s, n) :: n == c.first || n == top
  {
    forall n | n in c.nodes && IsMaster(s, n)
      ensures n == c.first || (n == top && s.role[(c.first, c.first)] != Master)
    {
    }
  }

  /** Mastership is never lost and the group agrees on it: in every reachable state of a
      group whose one highest-priority node is not the first master, at most one node is
      master; somebody is, or the hand-over is under way; and a node that has read
      everything from the highest-priority node has its real role in its table. */
  lemma HandOverSafety(c: Config, top: Node, actions: seq<Action>, s: State)
    requires ValidConfig(c) && OneTop(c) && IsTop(c, top) && top != c.first
    ensures Runs(c, Start(c), actions, s) ==>
      && Shape(c, s) && AtMostOneMaster(c, s)
      && (forall n | n in c.nodes && IsMaster(s, n) :: n == c.first || n == top)
      && Conserved(c, s, top)
      && (forall x | x in c.nodes && x != top && s.chan[(top, x)] == [] :: s.role[(x, top)] == s.role[(top, top)])
  {
    StartHandsOver(c, top);
    if Runs(c, Start(c), actions, s) {
      HandOverRuns(c, Start(c), top, actions, s);
      HandOverMeans(c, s, top);
      forall x | x in c.nodes && x != top && s.chan[(top, x)] == []
        ensures s.role[(x, top)] == s.role[(top, top)]
      {
        assert ConvergesAt(c, s, top, x);
      }
    }
  }

  /** When the first master has the highest priority, no role ever changes. */
  lemma SteadySafety(c: Config, actions: seq<Action>, s: State)
    requires ValidConfig(c) && IsTop(c, c.first)
    ensures Runs(c, Start(c), actions, s) ==>
      Shape(c, s) && forall n | n in c.nodes :: IsMaster(s, n) <==> n == c.first
  {
    if Runs(c, Start(c), actions, s) { SteadyRuns(c, Start(c), actions, s); }
  }

  // ---------- no reachable state is stuck ----------

  /** Data traffic moves a node's own TID; what the others know of it they learn from pings. */
  predicate ByPings(a: Action) {
    a.Learn? ==> a.about == a.n
  }

  ghost predicate CanHandOver(c: Config, s: State, top: Node)
    requires ValidConfig(c) && Shape(c, s)
  {
    exists actions, s' ::
      Runs(c, s, actions, s') && IsMaster(s', top) && forall i :: 0 <= i < |actions| ==> ByPings(actions[i])
  }

  lemma CanHandOverBy(c: Config, s: State, top: Node, a: Action)
    requires ValidConfig(c) && Shape(c, s) && Enabled(c, s, a) && CanHandOver(c, Do(c, s, a), top)
    requires ByPings(a)
    ensures CanHandOver(c, s, top)
  {
    var rest, s' :| Runs(c, Do(c, s, a), rest, s') && IsMaster(s', top)
      && forall i :: 0 <= i < |rest| ==> ByPings(rest[i]);
    RunsCons(c, s, a, rest, s');
  }

  /** Once the first master is flipping, or has flipped, `top` only has to read on. */
  lemma {:induction false} ReadsOn(c: Config, s: State, top: Node)
    requires ValidConfig(c) && OneTop(c) && IsTop(c, top) && HandOver(c, s, top) && Conserved(c, s, top)
    requires s.role[(c.first, c.first)] != Master
    ensures CanHandOver(c, s, top)
    decreases if s.role[(c.first, c.first)] == Flipping then 1 else 0, |s.chan[(c.first, top)]|
  {
    var f := c.first;
    if IsMaster(s, top) {
      assert Runs(c, s, [], s);
    } else {
      var a := if s.chan[(f, top)] != [] then Receive(top, f) else ReceiveAck(f, top);
      HandOverStep(c, s, top, a);
      ConservedStep(c, s, top, a);
      ReadsOn(c, Do(c, s, a), top);
      CanHandOverBy(c, s, top, a);
    }
  }

  /** The first master's table is brought up to date and its timer begins the flip. */
  lemma FlipsWhenSynced(c: Config, s: State, top: Node, order: seq<Node>)
    requires ValidConfig(c) && OneTop(c) && IsTop(c, top) && HandOver(c, s, top) && Conserved(c, s, top)
    requires Enumerates(c, order) && |c.nodes| > 1 && IsMaster(s, c.first) && !IsTop(c, c.first)
    requires forall p | p in c.nodes :: s.tid[(c.first, p)] == s.tid[(c.first, c.first)]
    ensures CanHandOver(c, s, top)
  {
    var f := c.first;
    assert f in order && top in order;
    AllSyncedMeans(s, f, order);
    HighestMeans(c, order[1..], order[0]);
    var a := Monitor(f, order);
    HandOverMonitor(c, s, top, f, order);
    HandOverStep(c, s, top, a);
    ConservedStep(c, s, top, a);
    assert c.prio[f] < c.prio[top];
    assert top == order[0] || top in order[1..];
    ReadsOn(c, Do(c, s, a), top);
    CanHandOverBy(c, s, top, a);
  }

  /** The nodes of `rest` take data up to the first master's TID, one by one, and say so in a ping. */
  lemma {:induction false} Levels(c: Config, s: State, top: Node, rest: set<Node>, order: seq<Node>)
    requires ValidConfig(c) && OneTop(c) && IsTop(c, top) && HandOver(c, s, top) && Conserved(c, s, top)
    requires Enumerates(c, order) && |c.nodes| > 1 && IsMaster(s, c.first) && !IsTop(c, c.first)
    requires rest <= c.nodes
    requires forall p | p in c.nodes && p !in rest :: s.tid[(c.first, p)] == s.tid[(c.first, c.first)]
    ensures CanHandOver(c, s, top)
    decreases rest, 1, 0
  {
    var f := c.first;
    if rest == {} {
      FlipsWhenSynced(c, s, top, order);
    } else {
      var p :| p in rest;
      if p == f {
        Levels(c, s, top, rest - {p}, order);
      } else {
        var a := Learn(p, p, s.tid[(f, f)]);
        HandOverStep(c, s, top, a);
        ConservedStep(c, s, top, a);
        var s1 := Do(c, s, a);
        HandOverStep(c, s1, top, SendPing(p, f));
        ConservedStep(c, s1, top, SendPing(p, f));
        ReadsPing(c, Do(c, s1, SendPing(p, f)), top, p, rest, order);
        CanHandOverBy(c, s1, top, SendPing(p, f));
        CanHandOverBy(c, s, top, a);
      }
    }
  }

  /** The first master reads what p has sent, the last of it the ping with p's TID. */
  lemma {:induction false} ReadsPing(c: Config, s: State, top: Node, p: Node, rest: set<Node>, order: seq<Node>)
    requires ValidConfig(c) && OneTop(c) && IsTop(c, top) && HandOver(c, s, top) && Conserved(c, s, top)
    requires Enumerates(c, order) && |c.nodes| > 1 && IsMaster(s, c.first) && !IsTop(c, c.first)
    requires rest <= c.nodes && p in rest && p != c.first
    requires forall q | q in c.nodes && q !in rest :: s.tid[(c.first, q)] == s.tid[(c.first, c.first)]
    requires var sent := s.chan[(p, c.first)];
      sent != [] && sent[|sent| - 1].Ping? && sent[|sent| - 1].tid == s.tid[(c.first, c.first)]
    ensures CanHandOver(c, s, top)
    decreases rest, 0, |s.chan[(p, c.first)]|
  {
    var f := c.first;
    var sent, a := s.chan[(p, f)], Receive(f, p);
    var s' := Do(c, s, a);
    assert WireOk(c, s, top, p, f, sent[0]);
    assert s'.chan[(p, f)] == sent[1..];
    HandOverStep(c, s, top, a);
    ConservedStep(c, s, top, a);
    if |sent| == 1 {
      Levels(c, s', top, rest - {p}, order);
    } else {
      ReadsPing(c, s', top, p, rest, order);
    }
    CanHandOverBy(c, s, top, a);
  }

  /** From every reachable state some run in which nodes hear of TIDs by pings alone makes
      the highest-priority node master: the hand-over cannot get stuck. */
  lemma HandOverCompletes(c: Config, top: Node, actions: seq<Action>, s: State)
    requires ValidConfig(c) && OneTop(c) && IsTop(c, top) && top != c.first
    ensures Runs(c, Start(c), actions, s) ==> Shape(c, s) && CanHandOver(c, s, top)
  {
    StartHandsOver(c, top);
    if Runs(c, Start(c), actions, s) {
      HandOverRuns(c, Start(c), top, actions, s);
      if s.role[(c.first, c.first)] != Master {
        ReadsOn(c, s, top);
      } else {
        AtLeastTwo(c, c.first, top);
        var order := EnumerateFrom(c, c.nodes);
        assert !IsTop(c, c.first);
        Levels(c, s, top, c.nodes, order);
      }
    }
  }

  // ---------- two nodes sharing the highest priority above the first master ----------

  lemma RunsCons(c: Config, s: State, a: Action, rest: seq<Action>, s': State)
    requires ValidConfig(c) && Shape(c, s) && Enabled(c, s, a) && Runs(c, Do(c, s, a), rest, s')
    ensures Runs(c, s, [a] + rest, s')
  {
    assert ([a] + rest)[1..] == rest;
  }

  /** An enumeration of the group that begins with `a`. */
  lemma {:induction false} EnumerateFrom(c: Config, rest: set<Node>) returns (order: seq<Node>)
    ensures forall p :: p in order <==> p in rest
    decreases rest
  {
    if rest == {} {
      order := [];
    } else {
      var p :| p in rest;
      order := EnumerateFrom(c, rest - {p});
      order := [p] + order;
    }
  }

  ghost predicate SingleMasterAlways(c: Config)
    requires ValidConfig(c)
  {
    forall actions, s | Runs(c, Start(c), actions, s) :: AtMostOneMaster(c, s)
  }

  lemma {:induction false} SomeTop(c: Config, rest: set<Node>) returns (top: Node)
    requires ValidConfig(c) && rest <= c.nodes && rest != {}
    ensures top in rest && forall p | p in rest :: c.prio[p] <= c.prio[top]
    decreases rest
  {
    top :| top in rest;
    if rest - {top} != {} {
      var other := SomeTop(c, rest - {top});
      if c.prio[other] > c.prio[top] {
        forall p | p in rest ensures c.prio[p] <= c.prio[other] {
          assert p == top || p in rest - {top};
        }
        top := other;
      } else {
        forall p | p in rest ensures c.prio[p] <= c.prio[top] {
          assert p == top || p in rest - {top};
        }
      }
    } else {
      assert rest == {top};
    }
  }

  /** Node n, still a slave, knows of no master and nobody outranks it. */
  ghost predicate ReadyToElect(c: Config, s: State, n: Node)
    requires ValidConfig(c) && Shape(c, s)
  {
    && IsTop(c, n) && |c.nodes| > 1
    && forall p | p in c.nodes :: s.role[(n, p)] != Master && s.tid[(n, p)] == 0
  }

  lemma Elects(c: Config, s: State, n: Node, order: seq<Node>)
    requires ValidConfig(c) && Shape(c, s) && ReadyToElect(c, s, n) && Enumerates(c, order)
    ensures Enabled(c, s, Monitor(n, order))
    ensures Do(c, s, Monitor(n, order)) == Broadcast(s.(role := s.role[(n, n) := Master]), n)
  {
    assert n in order;
    RoleExistsMeans(s, n, order, Master);
    LegalMeans(c, s, n, order);
  }

  /** Some continuation ends with two masters. */
  ghost predicate CanBreak(c: Config, s: State)
    requires ValidConfig(c) && Shape(c, s)
  {
    exists actions, s' :: Runs(c, s, actions, s') && !AtMostOneMaster(c, s')
  }

  lemma CanBreakBy(c: Config, s: State, a: Action)
    requires ValidConfig(c) && Shape(c, s) && Enabled(c, s, a) && CanBreak(c, Do(c, s, a))
    ensures CanBreak(c, s)
  {
    var rest, s' :| Runs(c, Do(c, s, a), rest, s') && !AtMostOneMaster(c, s');
    RunsCons(c, s, a, rest, s');
  }

  lemma BothElect(c: Config, s: State, a: Node, b: Node, order: seq<Node>)
    requires ValidConfig(c) && Shape(c, s) && a != b && Enumerates(c, order)
    requires ReadyToElect(c, s, a) && ReadyToElect(c, s, b)
    ensures CanBreak(c, s)
  {
    Elects(c, s, a, order);
    var s1 := Do(c, s, Monitor(a, order));
    assert ReadyToElect(c, s1, b);
    Elects(c, s1, b, order);
    var s2 := Do(c, s1, Monitor(b, order));
    assert IsMaster(s2, a) && IsMaster(s2, b);
    assert Runs(c, s2, [], s2);
    CanBreakBy(c, s1, Monitor(b, order));
    CanBreakBy(c, s, Monitor(a, order));
  }

  /** Node n is ready but for a heartbeat of the flipping first master, which is the next
      message it reads. */
  ghost predicate HeartbeatFromReady(c: Config, s: State, n: Node)
    requires ValidConfig(c) && Shape(c, s)
  {
    && IsTop(c, n) && |c.nodes| > 1 && n != c.first
    && (forall p | p in c.nodes && p != c.first :: s.role[(n, p)] != Master && s.tid[(n, p)] == 0)
    && s.chan[(c.first, n)] == [Ping(Flipping, 0)]
  }

  lemma HeartbeatRead(c: Config, s: State, n: Node)
    requires ValidConfig(c) && Shape(c, s) && HeartbeatFromReady(c, s, n)
    ensures Enabled(c, s, Receive(n, c.first))
    ensures var s' := Do(c, s, Receive(n, c.first));
      && Shape(c, s') && ReadyToElect(c, s', n)
      && (forall p, q | p in c.nodes && q in c.nodes && p != n ::
            s'.role[(p, q)] == s.role[(p, q)] && s'.tid[(p, q)] == s.tid[(p, q)] && s'.chan[(q, p)] == s.chan[(q, p)])
  {
  }

  lemma HeartbeatsArrive(c: Config, s: State, a: Node, b: Node, order: seq<Node>)
    requires ValidConfig(c) && Shape(c, s) && a != b && Enumerates(c, order)
    requires HeartbeatFromReady(c, s, a) && HeartbeatFromReady(c, s, b)
    ensures CanBreak(c, s)
  {
    HeartbeatRead(c, s, a);
    var s1 := Do(c, s, Receive(a, c.first));
    HeartbeatRead(c, s1, b);
    var s2 := Do(c, s1, Receive(b, c.first));
    BothElect(c, s2, a, b, order);
    CanBreakBy(c, s1, Receive(b, c.first));
    CanBreakBy(c, s, Receive(a, c.first));
  }

  /** The first master is flipping towards `a` and has told nobody else yet. */
  ghost predicate FlipRequested(c: Config, s: State, a: Node, b: Node)
    requires ValidConfig(c) && Shape(c, s)
  {
    && IsTop(c, a) && IsTop(c, b) && a != b && a != c.first && b != c.first && |c.nodes| > 1
    && (forall n, p | n in c.nodes && p in c.nodes ::
          s.tid[(n, p)] == 0 && (p != c.first ==> s.role[(n, p)] == Slave))
    && s.role[(c.first, c.first)] == Flipping
    && s.chan[(c.first, a)] == [FlipReq] && s.chan[(c.first, b)] == []
  }

  lemma FlipRequestThenHeartbeats(c: Config, s: State, a: Node, b: Node, order: seq<Node>)
    requires ValidConfig(c) && Shape(c, s) && Enumerates(c, order) && FlipRequested(c, s, a, b)
    ensures CanBreak(c, s)
  {
    var f := c.first;
    var s1 := Do(c, s, Receive(a, f));
    var s2 := Do(c, s1, SendPing(f, a));
    var s3 := Do(c, s2, SendPing(f, b));
    assert s3.chan[(f, a)] == [Ping(Flipping, 0)] && s3.chan[(f, b)] == [Ping(Flipping, 0)];
    HeartbeatsArrive(c, s3, a, b, order);
    CanBreakBy(c, s2, SendPing(f, b));
    CanBreakBy(c, s1, SendPing(f, a));
    CanBreakBy(c, s, Receive(a, f));
  }

  lemma FirstFlip(c: Config, a: Node, order: seq<Node>)
    requires ValidConfig(c) && IsTop(c, a) && !IsTop(c, c.first)
    requires Enumerates(c, order) && order != [] && order[0] == a
    ensures MonitorStep(c, Start(c), c.first, order) ==
      Send(Start(c).(role := Start(c).role[(c.first, c.first) := Flipping]), c.first, a, FlipReq)
  {
    assert c.first in order;
    HighestMeans(c, order[1..], a);
    AllSyncedMeans(Start(c), c.first, order);
  }

  lemma AtLeastTwo(c: Config, a: Node, b: Node)
    requires a in c.nodes && b in c.nodes && a != b
    ensures |c.nodes| > 1
  {
    assert |c.nodes - {a}| == |c.nodes| - 1 && b in c.nodes - {a};
  }

  lemma FlipBegins(c: Config, a: Node, b: Node, order: seq<Node>)
    requires ValidConfig(c) && IsTop(c, a) && IsTop(c, b) && a != b && !IsTop(c, c.first) && |c.nodes| > 1
    requires Enumerates(c, order) && order != [] && order[0] == a
    ensures Enabled(c, Start(c), Monitor(c.first, order))
    ensures var s1 := MonitorStep(c, Start(c), c.first, order); Shape(c, s1) && FlipRequested(c, s1, a, b)
  {
    FirstFlip(c, a, order);
  }

  /** A group whose first master is outranked by two nodes of equal priority can end with
      two masters: both see the flip begin, neither knows the other was chosen. */
  lemma SharedTopBreaks(c: Config, a: Node, b: Node)
    requires ValidConfig(c) && IsTop(c, a) && IsTop(c, b) && a != b && !IsTop(c, c.first)
    ensures !SingleMasterAlways(c)
  {
    var order := EnumerateFrom(c, c.nodes);
    order := [a] + order;
    AtLeastTwo(c, a, b);
    FlipBegins(c, a, b, order);
    FlipRequestThenHeartbeats(c, MonitorStep(c, Start(c), c.first, order), a, b, order);
    CanBreakBy(c, Start(c), Monitor(c.first, order));
  }

  /** A group keeps at most one master over all its runs, whatever the order of messages,
      heartbeats and timers, exactly when its first master has the highest priority or the
      highest priority belongs to one node alone. */
  lemma SingleMasterExactly(c: Config)
    requires ValidConfig(c)
    ensures SingleMasterAlways(c) <==> IsTop(c, c.first) || OneTop(c)
  {
    if IsTop(c, c.first) {
      forall actions, s | Runs(c, Start(c), actions, s)
        ensures AtMostOneMaster(c, s)
      {
        SteadySafety(c, actions, s);
      }
    } else if OneTop(c) {
      var top := SomeTop(c, c.nodes);
      assert IsTop(c, top);
      forall actions, s | Runs(c, Start(c), actions, s)
        ensures AtMostOneMaster(c, s)
      {
        HandOverSafety(c, top, actions, s);
      }
    } else {
      var a, b :| IsTop(c, a) && IsTop(c, b) && a != b;
      SharedTopBreaks(c, a, b);
    }
  }
}
