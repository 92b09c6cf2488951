/** The PID spinlock (`ls_atomic_spin_pidlock`, `ls_atomic_spin_pidwait`,
    `ls_atomic_spin_pidunlock`): the atomic steps of any number of processes, each of
    which may die at any step.  PIDs are positive, unique and never reused.
 */
module PidSpin {

  const AVAIL: nat := 0
  const LS_SPIN_MIN_PID := 10
  const MAX_SPINCNT_CHECK := 5000

  type Pid = p: nat | p > 0 witness 1

  /** Where a process is.
      - `First`: the compare-and-swap of `ls_atomic_spin_pidlock`
      - `Spin(cnt)`: head of the loop of `ls_atomic_spin_pidwait`
      - `Reset(cnt)`: saw a PID below LS_SPIN_MIN_PID, about to store AVAIL
      - `Probe(seen)`: about to call kill(seen, 0)
      - `Take(seen)`: kill said ESRCH, about to swap itself in over `seen`
      - `Hold(ret)`: owns the lock, `ret` is what the lock call returned
      - `Dead(held)`: gone; `held` says whether it died owning the lock */
  datatype Pc =
    | Idle
    | First
    | Spin(cnt: nat)
    | Reset(cnt: nat)
    | Probe(seen: nat)
    | Take(seen: nat)
    | Hold(ret: int)
    | Dead(held: bool)

  datatype State = State(word: nat, pc: map<Pid, Pc>)

  datatype Action = Lock(t: Pid) | Step(t: Pid) | Die(t: Pid)

  ghost predicate Init(s: State) {
    s.word == AVAIL && forall t | t in s.pc :: s.pc[t] == Idle
  }

  predicate Enabled(s: State, a: Action) {
    a.t in s.pc &&
    match a
    case Lock(t) => s.pc[t] == Idle
    case Step(t) => !s.pc[t].Idle? && !s.pc[t].Dead?
    case Die(t) => !s.pc[t].Dead?
  }

  function Goto(s: State, t: Pid, p: Pc): State {
    s.(pc := s.pc[t := p])
  }

  predicate Gone(s: State, pid: nat) {
    !(pid > 0 && pid in s.pc && !s.pc[pid].Dead?)
  }

  function StepOf(s: State, t: Pid): State
    requires t in s.pc
  {
    match s.pc[t]
    case First =>
      if s.word == AVAIL then Goto(s, t, Hold(0)).(word := t)
      else Goto(s, t, Spin(MAX_SPINCNT_CHECK))
    case Spin(cnt) =>
      if s.word == AVAIL then Goto(s, t, Hold(0)).(word := t)
      else if s.word < LS_SPIN_MIN_PID then Goto(s, t, Reset(cnt))
      else if cnt <= 1 then Goto(s, t, Probe(s.word))
      else Goto(s, t, Spin(cnt - 1))
    case Reset(cnt) => Goto(s, t, Spin(cnt)).(word := AVAIL)
    case Probe(seen) =>
      Goto(s, t, if Gone(s, seen) then Take(seen) else Spin(MAX_SPINCNT_CHECK))
    case Take(seen) =>
      if s.word == seen then Goto(s, t, Hold(0 - seen)).(word := t)
      else Goto(s, t, Spin(MAX_SPINCNT_CHECK))
    case Hold(_) => Goto(s, t, Idle).(word := AVAIL)
    case _ => s
  }

  function Do(s: State, a: Action): State
    requires Enabled(s, a)
  {
    match a
    case Lock(t) => Goto(s, t, First)
    case Step(t) => StepOf(s, t)
    case Die(t) => Goto(s, t, Dead(s.pc[t].Hold?))
  }

  ghost predicate Runs(s: State, actions: seq<Action>, s': State)
    decreases |actions|
  {
    if actions == [] then s == s'
    else Enabled(s, actions[0]) && Runs(Do(s, actions[0]), actions[1..], s')
  }

  ghost predicate Owner(s: State, p: nat) {
    p > 0 && p in s.pc && (s.pc[p].Hold? || s.pc[p] == Dead(true))
  }

  ghost predicate PcOk(s: State, t: Pid)
    requires t in s.pc
  {
    match s.pc[t]
    case Hold(ret) => s.word == t && (ret < 0 ==> -ret in s.pc && s.pc[-ret] == Dead(true))
    case Probe(seen) => seen > 0 && seen in s.pc
    case Take(seen) => seen > 0 && seen in s.pc && s.pc[seen].Dead?
    case Reset(_) => false
    case _ => true
  }

  ghost predicate RealPids(s: State) {
    forall t | t in s.pc :: t >= LS_SPIN_MIN_PID
  }

  ghost predicate Inv(s: State) {
    && RealPids(s)
    && (s.word != AVAIL ==> Owner(s, s.word))
    && (forall t | t in s.pc :: PcOk(s, t))
  }

  lemma StepKeepsInv(s: State, a: Action)
    requires Inv(s) && Enabled(s, a)
    ensures Inv(Do(s, a)) && Do(s, a).pc.Keys == s.pc.Keys
  {
    var s' := Do(s, a);
    assert PcOk(s, a.t);
    forall u | u in s.pc
      ensures PcOk(s', u)
    {
      StepKeepsPc(s, a, u);
    }
  }

  lemma StepKeepsPc(s: State, a: Action, u: Pid)
    requires Inv(s) && Enabled(s, a) && u in s.pc
    ensures u in Do(s, a).pc && PcOk(Do(s, a), u)
  {
    assert PcOk(s, a.t) && PcOk(s, u);
  }

  lemma {:induction false} InvariantOverRuns(s: State, actions: seq<Action>, s': State)
    requires Inv(s) && Runs(s, actions, s')
    ensures Inv(s') && s'.pc.Keys == s.pc.Keys
    decreases |actions|
  {
    if actions != [] {
      StepKeepsInv(s, actions[0]);
      InvariantOverRuns(Do(s, actions[0]), actions[1..], s');
    }
  }

  ghost predicate AtMostOneLiveHolder(s: State) {
    forall t, u | t in s.pc && u in s.pc && s.pc[t].Hold? && s.pc[u].Hold? :: t == u
  }

  /** With PIDs of at least LS_SPIN_MIN_PID, in every reachable state: a live holder's own
      PID is in the word, and nobody ever reaches the store that resets a bad PID. */
  lemma PidSpinSafety(s0: State, actions: seq<Action>, s: State)
    requires Init(s0) && RealPids(s0) && Runs(s0, actions, s)
    ensures forall t | t in s.pc && s.pc[t].Hold? :: s.word == t
    ensures AtMostOneLiveHolder(s)
    ensures s.word != AVAIL ==> Owner(s, s.word)
    ensures forall t | t in s.pc :: !s.pc[t].Reset?
  {
    InvariantOverRuns(s0, actions, s);
    forall t | t in s.pc
      ensures (s.pc[t].Hold? ==> s.word == t) && !s.pc[t].Reset?
    {
      assert PcOk(s, t);
    }
  }

  /** What the lock call returns, at the step where it returns: 0 exactly when the word was
      free, negative exactly when the word named a process that died owning the lock. */
  lemma AcquireReturn(s0: State, actions: seq<Action>, s: State, t: Pid)
    requires Init(s0) && RealPids(s0) && Runs(s0, actions, s)
    requires Enabled(s, Step(t)) && !s.pc[t].Hold?
    ensures s.word != AVAIL ==> s.word in s.pc
    ensures var s' := Do(s, Step(t));
      s'.pc[t].Hold? ==>
        var r := s'.pc[t].ret;
        && r <= 0
        && (r == 0 <==> s.word == AVAIL)
        && (r < 0 <==> s.word != AVAIL && s.pc[s.word] == Dead(true))
        && (r < 0 ==> r == 0 - s.word)
  {
    InvariantOverRuns(s0, actions, s);
    assert PcOk(s, t);
  }

  // ---------- exactly which process populations are safe ----------

  ghost predicate ExcludesAlways(s0: State) {
    forall actions, s | Runs(s0, actions, s) :: AtMostOneLiveHolder(s)
  }


  lemma {:induction false} KeysFixed(s: State, actions: seq<Action>, s': State)
    requires Runs(s, actions, s')
    ensures s'.pc.Keys == s.pc.Keys
    decreases |actions|
  {
    if actions != [] {
      assert Do(s, actions[0]).pc.Keys == s.pc.Keys;
      KeysFixed(Do(s, actions[0]), actions[1..], s');
    }
  }

  /** A process with a PID below LS_SPIN_MIN_PID and any other process end up in the
      critical section together: while the one holds the lock the other is about to reset
      the word, and two steps later it holds the lock too. */
  lemma SmallPidBreaksExclusion(s0: State, p: Pid, q: Pid)
      returns (before: seq<Action>, m: State, s: State)
    requires Init(s0) && p in s0.pc && q in s0.pc && p != q && p < LS_SPIN_MIN_PID
    ensures Runs(s0, before, m) && m.word == p && p in m.pc && q in m.pc && m.pc[p].Hold? && m.pc[q].Reset?
    ensures Runs(m, [Step(q), Step(q)], s) && p in s.pc && q in s.pc && s.pc[p].Hold? && s.pc[q].Hold?
    ensures !ExcludesAlways(s0)
  {
    var s1 := Do(s0, Lock(p));
    var s2 := Do(s1, Step(p));     // p holds
    var s3 := Do(s2, Lock(q));
    var s4 := Do(s3, Step(q));     // q enters the wait loop
    m := Do(s4, Step(q));          // q sees the small PID
    var s6 := Do(m, Step(q));      // q resets the word
    s := Do(s6, Step(q));          // q holds too
    assert Runs(s, [], s) && Runs(m, [], m);
    RunsCons(s6, Step(q), [], s);
    RunsCons(m, Step(q), [Step(q)], s);
    var after := [Step(q)] + [Step(q)];
    RunsCons(s4, Step(q), [], m);
    RunsCons(s3, Step(q), [Step(q)], m);
    before := [Step(q)] + [Step(q)];
    RunsCons(s2, Lock(q), before, m);
    RunsCons(s1, Step(p), [Lock(q)] + before, m);
    before := [Step(p)] + ([Lock(q)] + before);
    RunsCons(s0, Lock(p), before, m);
    before := [Lock(p)] + before;
    RunsCompose(s0, before, m, after, s);
  }

  lemma {:induction false} RunsCompose(s: State, a: seq<Action>, m: State, b: seq<Action>, s': State)
    requires Runs(s, a, m) && Runs(m, b, s')
    ensures Runs(s, a + b, s')
    decreases |a|
  {
    if a == [] {
      assert a + b == b;
    } else {
      RunsCompose(Do(s, a[0]), a[1..], m, b, s');
      assert (a + b)[0] == a[0] && (a + b)[1..] == a[1..] + b;
    }
  }

  lemma RunsCons(s: State, a: Action, rest: seq<Action>, s': State)
    requires Enabled(s, a) && Runs(Do(s, a), rest, s')
    ensures Runs(s, [a] + rest, s')
  {
    assert ([a] + rest)[1..] == rest;
  }

  /** Mutual exclusion holds over all runs exactly when every PID reaches LS_SPIN_MIN_PID
      or there is no second process. */
  lemma ExclusionExactly(s0: State)
    requires Init(s0)
    ensures ExcludesAlways(s0) <==>
      (RealPids(s0) || forall t, u | t in s0.pc && u in s0.pc :: t == u)
  {
    if RealPids(s0) {
      forall actions, s | Runs(s0, actions, s)
        ensures AtMostOneLiveHolder(s)
      {
        PidSpinSafety(s0, actions, s);
      }
    } else if forall t, u | t in s0.pc && u in s0.pc :: t == u {
      forall actions, s | Runs(s0, actions, s)
        ensures AtMostOneLiveHolder(s)
      {
        KeysFixed(s0, actions, s);
      }
    } else {
      var p :| p in s0.pc && p < LS_SPIN_MIN_PID;
      var t, u :| t in s0.pc && u in s0.pc && t != u;
      var _, _, _ := SmallPidBreaksExclusion(s0, p, if t == p then u else t);
    }
  }
}
