/** The three-state futex mutex of `ls_lock.h` (`ls_futex_lock`, `ls_futex_trylock`,
    `ls_futex_unlock`) as the atomic steps of any number of threads.

    Every compare-and-swap, exchange and futex system call is one step; between two
    steps any other thread may run.  The word holds LS_LOCK_AVAIL (0),
    LS_FUTEX_LOCKED1 (1) or LS_FUTEX_LOCKED2 (2, "locked with waiters").
 */
module FutexMutex {

  const AVAIL := 0
  const LOCKED1 := 1
  const LOCKED2 := 2
  const MAX_FUTEX_SPINCNT := 10

  type Tid = nat

  /** Where a thread is inside the lock code.
      - `Spin(left)`: the optional adaptive loop, `left` attempts to go
      - `First`: the first compare-and-swap of `ls_futex_lock`
      - `Loop(val)`: head of the do-while body, `val` is the word last seen
      - `Wait`: about to issue FUTEX_WAIT for the value LOCKED2
      - `Sleeping`: queued in the kernel
      - `Retry`: the compare-and-swap in the do-while condition
      - `Hold`: owns the mutex
      - `Waking`: has stored AVAIL over LOCKED2 and still owes a FUTEX_WAKE */
  datatype Pc =
    | Idle
    | Spin(left: nat)
    | First
    | Loop(val: int)
    | Wait
    | Sleeping
    | Retry
    | Hold
    | Waking

  datatype State = State(word: int, pc: map<Tid, Pc>)

  datatype Action =
    | Lock(t: Tid, adaptive: bool)     // call ls_futex_lock
    | TryLock(t: Tid)                  // call ls_futex_trylock
    | Step(t: Tid)                     // next atomic step of a running thread
    | Wake(t: Tid, sleeper: Tid)       // FUTEX_WAKE finds a sleeper
    | WakeNobody(t: Tid)               // FUTEX_WAKE finds the queue empty
    | Interrupt(t: Tid)                // FUTEX_WAIT returns without a wake-up

  ghost predicate Init(s: State) {
    s.word == AVAIL && forall t | t in s.pc :: s.pc[t] == Idle
  }

  ghost predicate At(s: State, t: Tid, p: Pc) {
    t in s.pc && s.pc[t] == p
  }

  ghost predicate Enabled(s: State, a: Action) {
    match a
    case Lock(t, _) => At(s, t, Idle)
    case TryLock(t) => At(s, t, Idle)
    case Step(t) => t in s.pc && s.pc[t] !in {Idle, Sleeping, Waking}
    case Wake(t, u) => At(s, t, Waking) && At(s, u, Sleeping)
    case WakeNobody(t) => At(s, t, Waking) && forall u :: !At(s, u, Sleeping)
    case Interrupt(t) => At(s, t, Sleeping)
  }

  function Goto(s: State, t: Tid, p: Pc): State {
    s.(pc := s.pc[t := p])
  }

  /** One atomic instruction of thread `t`. */
  function StepOf(s: State, t: Tid): State
    requires t in s.pc
  {
    match s.pc[t]
    case Spin(left) =>
      if left == 0 then Goto(s, t, First)
      else if s.word == AVAIL then Goto(s, t, Hold).(word := LOCKED1)
      else if s.word == LOCKED2 then Goto(s, t, First)
      else Goto(s, t, Spin(left - 1))
    case First =>
      if s.word == AVAIL then Goto(s, t, Hold).(word := LOCKED1)
      else Goto(s, t, Loop(s.word))
    case Loop(val) =>
      if val == LOCKED2 then Goto(s, t, Wait)
      else if s.word == LOCKED1 then Goto(s, t, Wait).(word := LOCKED2)
      else if s.word != AVAIL then Goto(s, t, Wait)
      else Goto(s, t, Retry)
    case Wait =>
      if s.word == LOCKED2 then Goto(s, t, Sleeping) else Goto(s, t, Retry)
    case Retry =>
      if s.word == AVAIL then Goto(s, t, Hold).(word := LOCKED2)
      else Goto(s, t, Loop(s.word))
    case Hold =>
      Goto(s, t, if s.word == LOCKED2 then Waking else Idle).(word := AVAIL)
    case _ => s
  }

  ghost function Do(s: State, a: Action): State
    requires Enabled(s, a)
  {
    match a
    case Lock(t, adaptive) => Goto(s, t, if adaptive then Spin(MAX_FUTEX_SPINCNT) else First)
    case TryLock(t) =>
      if s.word == AVAIL then Goto(s, t, Hold).(word := LOCKED1) else s
    case Step(t) => StepOf(s, t)
    case Wake(t, u) => Goto(Goto(s, t, Idle), u, Retry)
    case WakeNobody(t) => Goto(s, t, Idle)
    case Interrupt(t) => Goto(s, t, Retry)
  }

  /** `s'` is reached from `s` by the given actions, each enabled in turn. */
  ghost predicate Runs(s: State, actions: seq<Action>, s': State)
    decreases |actions|
  {
    if actions == [] then s == s'
    else Enabled(s, actions[0]) && Runs(Do(s, actions[0]), actions[1..], s')
  }

  // ---------- the invariant ----------

  /** A thread that will not go to sleep, nor leave the loop, without making the
      word LOCKED2. */
  predicate Contending(p: Pc) {
    p.Loop? || p.Wait? || p.Retry?
  }

  ghost predicate HasContender(s: State) { exists t :: t in s.pc && Contending(s.pc[t]) }

  ghost predicate HasAt(s: State, p: Pc) { exists t :: At(s, t, p) }

  ghost predicate AtMostOneHolder(s: State) {
    forall t, u :: At(s, t, Hold) && At(s, u, Hold) ==> t == u
  }

  /** No lost wake-up: a sleeper is owed a wake-up by the word itself, by an
      unlocker on its way to FUTEX_WAKE, or by an awake thread of the loop. */
  ghost predicate SleepersAccountedFor(s: State) {
    HasAt(s, Sleeping) ==> s.word == LOCKED2 || HasAt(s, Waking) || HasContender(s)
  }

  ghost predicate Inv(s: State) {
    && s.word in {AVAIL, LOCKED1, LOCKED2}
    && AtMostOneHolder(s)
    && (s.word == AVAIL <==> !HasAt(s, Hold))
    && SleepersAccountedFor(s)
  }

  lemma StepKeepsOwnership(s: State, a: Action)
    requires Inv(s) && Enabled(s, a)
    ensures var s' := Do(s, a);
      s'.word in {AVAIL, LOCKED1, LOCKED2} && AtMostOneHolder(s') && (s'.word == AVAIL <==> !HasAt(s', Hold))
  {
    var s' := Do(s, a);
    if s'.word != AVAIL {
      var h :| At(s', h, Hold) by {
        if s.word == AVAIL {
          assert At(s', a.t, Hold);
        } else {
          var g :| At(s, g, Hold);
          assert At(s', g, Hold);
        }
      }
    }
    forall t | At(s', t, Hold)
      ensures (At(s, t, Hold) && t != a.t) || (t == a.t && s.word == AVAIL && s'.word != AVAIL)
    {
    }
    if s'.word == AVAIL && s.word != AVAIL {
      assert At(s, a.t, Hold);
      assert forall t :: !At(s', t, Hold);
    }
  }

  lemma StepKeepsSleepers(s: State, a: Action)
    requires Inv(s) && Enabled(s, a)
    ensures SleepersAccountedFor(Do(s, a))
  {
    var s' := Do(s, a);
    if HasAt(s', Sleeping) && s'.word != LOCKED2 {
      var u :| At(s', u, Sleeping);
      assert At(s, u, Sleeping);
      if a.Step? && At(s, a.t, Hold) && s.word == LOCKED2 {
        assert At(s', a.t, Waking);
      } else if a.Wake? {
        assert s'.pc[a.sleeper] == Retry;
      } else if a.Interrupt? {
        assert s'.pc[a.t] == Retry;
      } else if HasAt(s, Waking) {
        var w :| At(s, w, Waking);
        assert At(s', w, Waking);
      } else {
        var c :| c in s.pc && Contending(s.pc[c]);
        assert c in s'.pc && Contending(s'.pc[c]);
      }
    }
  }

  lemma {:induction false} InvariantOverRuns(s: State, actions: seq<Action>, s': State)
    requires Inv(s) && Runs(s, actions, s')
    ensures Inv(s') && s'.pc.Keys == s.pc.Keys
    decreases |actions|
  {
    if actions != [] {
      StepKeepsOwnership(s, actions[0]);
      StepKeepsSleepers(s, actions[0]);
      assert Do(s, actions[0]).pc.Keys == s.pc.Keys;
      InvariantOverRuns(Do(s, actions[0]), actions[1..], s');
    }
  }

  /** Mutual exclusion and no lost wake-up in every reachable state. */
  lemma MutexSafety(s0: State, actions: seq<Action>, s: State)
    requires Init(s0) && Runs(s0, actions, s)
    ensures AtMostOneHolder(s)
    ensures s.word == AVAIL <==> forall t :: !At(s, t, Hold)
    ensures SleepersAccountedFor(s)
    ensures HasAt(s, Sleeping) ==> HasAt(s, Hold) || HasAt(s, Waking) || HasContender(s)
  {
    InvariantOverRuns(s0, actions, s);
  }

  // ---------- no reachable state strands a thread that wants the lock ----------

  lemma {:induction false} RunsCompose(s: State, a: seq<Action>, m: State, b: seq<Action>, s': State)
    requires Runs(s, a, m) && Runs(m, b, s')
    ensures Runs(s, a + b, s')
    decreases |a|
  {
    if a == [] {
      assert a + b == b;
    } else {
      RunsCompose(Do(s, a[0]), a[1..], m, b, s');
      assert (a + b)[0] == a[0] && (a + b)[1..] == a[1..] + b;
    }
  }

  lemma RunsOne(s: State, a: Action)
    requires Enabled(s, a)
    ensures Runs(s, [a], Do(s, a))
  {
    assert [a][1..] == [];
    assert Runs(Do(s, a), [], Do(s, a));
  }

  /** Extends a run by one action. */
  lemma RunsSnoc(s: State, actions: seq<Action>, m: State, a: Action)
    requires Runs(s, actions, m) && Enabled(m, a)
    ensures Runs(s, actions + [a], Do(m, a))
  {
    RunsOne(m, a);
    RunsCompose(s, actions, m, [a], Do(m, a));
  }

  /** No FUTEX_WAIT returns by itself: every waking is a real FUTEX_WAKE. */
  predicate NoInterrupts(actions: seq<Action>) {
    forall i | 0 <= i < |actions| :: !actions[i].Interrupt?
  }

  /** No step of the run is thread t's own. */
  predicate ByOthers(actions: seq<Action>, t: Tid) {
    forall i | 0 <= i < |actions| :: actions[i].t != t
  }

  predicate WantsLock(p: Pc) {
    p.Spin? || p.First? || p.Loop? || p.Wait? || p.Sleeping? || p.Retry?
  }

  /** The holder, if any, unlocks and the word becomes AVAIL; no thread that wants the
      lock moves. */
  lemma FreeTheWord(s: State) returns (actions: seq<Action>, s': State)
    requires Inv(s)
    ensures Runs(s, actions, s') && Inv(s') && s'.word == AVAIL && s'.pc.Keys == s.pc.Keys
    ensures forall u | u in s.pc && WantsLock(s.pc[u]) :: s'.pc[u] == s.pc[u]
    ensures NoInterrupts(actions)
    ensures forall u :: !At(s, u, Hold) ==> ByOthers(actions, u)
  {
    if s.word == AVAIL {
      actions, s' := [], s;
    } else {
      var h :| At(s, h, Hold);
      actions, s' := [Step(h)], Do(s, Step(h));
      RunsOne(s, Step(h));
      InvariantOverRuns(s, actions, s');
    }
  }

  function Distance(p: Pc): nat {
    match p
    case Spin(_) => 1
    case First => 1
    case Loop(_) => 3
    case Wait => 2
    case Retry => 1
    case _ => 0
  }

  /** With the word free, an awake thread acquires the lock in a few steps of its own,
      and one that was in the loop acquires it as LOCKED2. */
  lemma AwakeAcquires(s: State, t: Tid) returns (actions: seq<Action>, s': State)
    requires s.word == AVAIL && t in s.pc && WantsLock(s.pc[t]) && s.pc[t] != Sleeping
    ensures Runs(s, actions, s') && s'.pc == s.pc[t := Hold]
    ensures Contending(s.pc[t]) ==> s'.word == LOCKED2
    ensures NoInterrupts(actions)
    ensures forall i | 0 <= i < |actions| :: actions[i].t == t
  {
    actions, s' := [], s;
    while s'.pc[t] != Hold
      invariant Runs(s, actions, s') && t in s'.pc && s'.pc == s.pc[t := s'.pc[t]]
      invariant s'.pc[t] != Hold ==> s'.word == AVAIL && WantsLock(s'.pc[t]) && s'.pc[t] != Sleeping
      invariant Contending(s.pc[t]) ==> Contending(s'.pc[t]) || (s'.pc[t] == Hold && s'.word == LOCKED2)
      invariant NoInterrupts(actions)
      invariant forall i | 0 <= i < |actions| :: actions[i].t == t
      decreases Distance(s'.pc[t]), s'.pc[t].Spin?
    {
      RunsSnoc(s, actions, s', Step(t));
      actions, s' := actions + [Step(t)], Do(s', Step(t));
    }
  }

  /** Some continuation without a step of the sleeper reaches a thread that owes a FUTEX_WAKE. */
  lemma ReachesAWaker(s: State, t: Tid) returns (actions: seq<Action>, s': State, w: Tid)
    requires Inv(s) && At(s, t, Sleeping)
    ensures Runs(s, actions, s') && At(s', t, Sleeping) && At(s', w, Waking)
    ensures NoInterrupts(actions) && ByOthers(actions, t)
  {
    if HasAt(s, Waking) {
      w :| At(s, w, Waking);
      actions, s' := [], s;
    } else {
      if s.word == LOCKED2 {
        w :| At(s, w, Hold);
        actions, s' := [], s;
      } else {
        w :| w in s.pc && Contending(s.pc[w]);
        var a1, m := FreeTheWord(s);
        var a2, m2 := AwakeAcquires(m, w);
        RunsCompose(s, a1, m, a2, m2);
        actions, s' := a1 + a2, m2;
        assert w != t && ByOthers(a1, t);
      }
      RunsSnoc(s, actions, s', Step(w));
      actions, s' := actions + [Step(w)], Do(s', Step(w));
    }
  }

  /** A sleeper is owed a wake-up: a run in which it makes no step itself, and no wait is
      interrupted, ends with a FUTEX_WAKE that wakes it. */
  lemma SomeoneOwesAWake(s: State, t: Tid) returns (actions: seq<Action>, s': State, w: Tid)
    requires Inv(s) && At(s, t, Sleeping)
    ensures Runs(s, actions, s') && At(s', t, Retry)
    ensures actions != [] && actions[|actions| - 1] == Wake(w, t)
    ensures NoInterrupts(actions) && ByOthers(actions, t)
  {
    actions, s', w := ReachesAWaker(s, t);
    RunsSnoc(s, actions, s', Wake(w, t));
    actions, s' := actions + [Wake(w, t)], Do(s', Wake(w, t));
  }

  /** No reachable state strands a thread: whoever is inside `ls_futex_lock`, asleep or
      awake, acquires the mutex in some continuation that uses no interrupted wait. */
  lemma EveryLockerCanAcquire(s0: State, before: seq<Action>, s: State, t: Tid)
      returns (actions: seq<Action>, s': State)
    requires Init(s0) && Runs(s0, before, s) && t in s.pc && WantsLock(s.pc[t])
    ensures Runs(s, actions, s') && At(s', t, Hold)
    ensures NoInterrupts(actions)
  {
    InvariantOverRuns(s0, before, s);
    var a1, m := [], s;
    if s.pc[t] == Sleeping {
      var w;
      a1, m, w := SomeoneOwesAWake(s, t);
      InvariantOverRuns(s, a1, m);
    }
    var a2, m2 := FreeTheWord(m);
    var a3, m3 := AwakeAcquires(m2, t);
    RunsCompose(m, a2, m2, a3, m3);
    RunsCompose(s, a1, m, a2 + a3, m3);
    actions, s' := a1 + (a2 + a3), m3;
  }
}
