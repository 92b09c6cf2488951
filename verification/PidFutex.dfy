/** The crash-tolerant PID futex of `ls_lock.h` (`ls_futex_safe_lock`,
    `ls_futex_safe_unlock`): the atomic steps of any number of processes, each of which
    may die at any step.

    The 32-bit lock word carries the owner's PID in its low 31 bits and
    LS_FUTEX_HAS_WAITER in its top bit; `Word` is that decoding.  PIDs are positive,
    unique and never reused, so a process and its PID are the same thing here.
 */
module PidFutex {

  type Pid = p: nat | p > 0 witness 1

  datatype Word = Word(pid: nat, waiter: bool)

  const AVAIL := Word(0, false)

  /** Where a process is.
      - `First`: the compare-and-swap before the loop
      - `Check(seen)`: head of the do-while body, about to call kill(seen.pid, 0)
      - `Take(seen)`: kill said ESRCH, about to swap itself in over `seen`
      - `Mark(seen)`: about to test or set LS_FUTEX_HAS_WAITER over `seen`
      - `Wait(want)`: about to issue a timed FUTEX_WAIT for `want`
      - `Sleeping`: queued in the kernel, for one second at most
      - `Retry`: the compare-and-swap in the do-while condition
      - `Hold(ret)`: owns the lock, `ret` is what the lock call returned
      - `Waking`: has released the lock and still owes a FUTEX_WAKE
      - `Dead(held)`: gone; `held` says whether it died owning the lock */
  datatype Pc =
    | Idle
    | First
    | Check(seen: Word)
    | Take(seen: Word)
    | Mark(seen: Word)
    | Wait(want: Word)
    | Sleeping
    | Retry
    | Hold(ret: int)
    | Waking
    | Dead(held: bool)

  /** `reports` lists the dead owners returned, negated, by lock calls so far. */
  datatype State = State(word: Word, pc: map<Pid, Pc>, reports: seq<nat>)

  datatype Action =
    | Lock(t: Pid)
    | Step(t: Pid)
    | Wake(t: Pid, sleeper: Pid)
    | WakeNobody(t: Pid)
    | Timeout(t: Pid)          // FUTEX_WAIT gives up after one second
    | Die(t: Pid)

  ghost predicate Init(s: State) {
    s.word == AVAIL && s.reports == [] && forall t | t in s.pc :: s.pc[t] == Idle
  }

  ghost predicate Enabled(s: State, a: Action) {
    a.t in s.pc &&
    match a
    case Lock(t) => s.pc[t] == Idle
    case Step(t) => !s.pc[t].Idle? && !s.pc[t].Sleeping? && !s.pc[t].Waking? && !s.pc[t].Dead?
    case Wake(t, u) => s.pc[t] == Waking && u in s.pc && s.pc[u] == Sleeping
    case WakeNobody(t) => s.pc[t] == Waking && forall u | u in s.pc :: s.pc[u] != Sleeping
    case Timeout(t) => s.pc[t] == Sleeping
    case Die(t) => !s.pc[t].Dead?
  }

  function Goto(s: State, t: Pid, p: Pc): State {
    s.(pc := s.pc[t := p])
  }

  /** kill(pid, 0) fails with ESRCH. */
  predicate Gone(s: State, pid: nat) {
    !(pid > 0 && pid in s.pc && !s.pc[pid].Dead?)
  }

  function StepOf(s: State, t: Pid): State
    requires t in s.pc
  {
    match s.pc[t]
    case First =>
      if s.word == AVAIL then Goto(s, t, Hold(0)).(word := Word(t, false))
      else Goto(s, t, Check(s.word))
    case Check(seen) =>
      Goto(s, t, if Gone(s, seen.pid) then Take(seen) else Mark(seen))
    case Take(seen) =>
      if s.word == seen then
        Goto(s, t, Hold(0 - seen.pid)).(word := Word(t, true), reports := s.reports + [seen.pid])
      else Goto(s, t, Mark(seen))
    case Mark(seen) =>
      if seen.waiter then Goto(s, t, Wait(seen))
      else if s.word == seen then
        Goto(s, t, Wait(seen.(waiter := true))).(word := seen.(waiter := true))
      else Goto(s, t, Retry)
    case Wait(want) =>
      Goto(s, t, if s.word == want then Sleeping else Retry)
    case Retry =>
      if s.word == AVAIL then Goto(s, t, Hold(0)).(word := Word(t, true))
      else Goto(s, t, Check(s.word))
    case Hold(_) =>
      Goto(s, t, if s.word.waiter then Waking else Idle).(word := AVAIL)
    case _ => s
  }

  ghost function Do(s: State, a: Action): State
    requires Enabled(s, a)
  {
    match a
    case Lock(t) => Goto(s, t, First)
    case Step(t) => StepOf(s, t)
    case Wake(t, u) => Goto(Goto(s, t, Idle), u, Retry)
    case WakeNobody(t) => Goto(s, t, Idle)
    case Timeout(t) => Goto(s, t, Retry)
    case Die(t) => Goto(s, t, Dead(s.pc[t].Hold?))
  }

  // ---------- the invariant ----------

  ghost predicate Owner(s: State, p: nat) {
    p > 0 && p in s.pc && (s.pc[p].Hold? || s.pc[p] == Dead(true))
  }

  ghost predicate PcOk(s: State, t: Pid)
    requires t in s.pc
  {
    match s.pc[t]
    case Hold(ret) => s.word.pid == t && (ret < 0 ==> -ret in s.pc && s.pc[-ret] == Dead(true))
    case Check(seen) => seen.pid > 0 && seen.pid in s.pc
    case Take(seen) => seen.pid > 0 && seen.pid in s.pc && s.pc[seen.pid].Dead?
    case Mark(seen) => seen.pid > 0
    case Wait(want) => want.pid > 0 && want.waiter
    case _ => true
  }

  ghost predicate ReportsOk(s: State) {
    && (forall i | 0 <= i < |s.reports| ::
          s.reports[i] > 0 && s.reports[i] in s.pc && s.pc[s.reports[i]] == Dead(true) && s.word.pid != s.reports[i])
    && (forall i, j | 0 <= i < j < |s.reports| :: s.reports[i] != s.reports[j])
  }

  ghost predicate Inv(s: State) {
    && (s.word.pid == 0 ==> s.word == AVAIL)
    && (s.word.pid > 0 ==> Owner(s, s.word.pid))
    && (forall t | t in s.pc :: PcOk(s, t))
    && ReportsOk(s)
  }

  /** The dead stay dead, and a step moves the word only when it was free, named a dead
      owner, or belonged to the process taking the step. */
  lemma StepFrame(s: State, a: Action)
    requires Inv(s) && Enabled(s, a)
    ensures var s' := Do(s, a);
      && s'.pc.Keys == s.pc.Keys
      && (forall u | u in s.pc && u != a.t && !(a.Wake? && u == a.sleeper) :: s'.pc[u] == s.pc[u])
      && (forall u | u in s.pc && s.pc[u].Dead? :: s'.pc[u] == s.pc[u])
      && (s'.word.pid != s.word.pid ==>
            || (s'.word.pid == a.t && s'.pc[a.t].Hold? && (s.word == AVAIL || s.pc[s.word.pid] == Dead(true)))
            || (s'.word == AVAIL && s.pc[a.t].Hold? && s.word.pid == a.t))
  {
    assert PcOk(s, a.t);
  }

  lemma StepKeepsOthers(s: State, a: Action, u: Pid)
    requires Inv(s) && Enabled(s, a) && u in s.pc && u != a.t
    ensures u in Do(s, a).pc && PcOk(Do(s, a), u)
  {
    StepFrame(s, a);
    assert PcOk(s, u) && PcOk(s, a.t);
  }

  lemma StepKeepsSelf(s: State, a: Action)
    requires Inv(s) && Enabled(s, a)
    ensures a.t in Do(s, a).pc && PcOk(Do(s, a), a.t)
  {
    StepFrame(s, a);
    assert PcOk(s, a.t);
  }

  lemma StepKeepsWord(s: State, a: Action)
    requires Inv(s) && Enabled(s, a)
    ensures var s' := Do(s, a); (s'.word.pid == 0 ==> s'.word == AVAIL) && (s'.word.pid > 0 ==> Owner(s', s'.word.pid))
    ensures ReportsOk(Do(s, a))
  {
    StepFrame(s, a);
    assert PcOk(s, a.t);
  }

  lemma StepKeepsInv(s: State, a: Action)
    requires Inv(s) && Enabled(s, a)
    ensures Inv(Do(s, a)) && Do(s, a).pc.Keys == s.pc.Keys
  {
    StepFrame(s, a);
    StepKeepsWord(s, a);
    forall u | u in s.pc
      ensures PcOk(Do(s, a), u)
    {
      if u == a.t { StepKeepsSelf(s, a); } else { StepKeepsOthers(s, a, u); }
    }
  }

  /** `s'` is reached from `s` by the given actions, each enabled in turn. */
  ghost predicate Runs(s: State, actions: seq<Action>, s': State)
    decreases |actions|
  {
    if actions == [] then s == s'
    else Enabled(s, actions[0]) && Runs(Do(s, actions[0]), actions[1..], s')
  }

  lemma {:induction false} InvariantOverRuns(s: State, actions: seq<Action>, s': State)
    requires Inv(s) && Runs(s, actions, s')
    ensures Inv(s') && s'.pc.Keys == s.pc.Keys
    decreases |actions|
  {
    if actions != [] {
      StepKeepsInv(s, actions[0]);
      InvariantOverRuns(Do(s, actions[0]), actions[1..], s');
    }
  }

  /** In every reachable state: a live process in its critical section has its own PID in
      the word, so there is at most one; a free word means that nobody alive owns the lock,
      and a word in use names a process that owns it or died owning it; no dead owner is
      reported twice. */
  lemma PidFutexSafety(s0: State, actions: seq<Action>, s: State)
    requires Init(s0) && Runs(s0, actions, s)
    ensures forall t | t in s.pc && s.pc[t].Hold? :: s.word.pid == t
    ensures forall t, u | t in s.pc && u in s.pc && s.pc[t].Hold? && s.pc[u].Hold? :: t == u
    ensures s.word == AVAIL ==> forall t | t in s.pc :: !s.pc[t].Hold?
    ensures s.word != AVAIL ==> Owner(s, s.word.pid)
    ensures forall i, j | 0 <= i < j < |s.reports| :: s.reports[i] != s.reports[j]
  {
    InvariantOverRuns(s0, actions, s);
    forall t | t in s.pc && s.pc[t].Hold?
      ensures s.word.pid == t
    {
      assert PcOk(s, t);
    }
  }

  /** What the lock call returns, at the step where it returns: 0 exactly when the word was
      free, and a negative value exactly when the word named a process that died owning
      the lock, which is then the process reported. */
  lemma AcquireReturn(s0: State, actions: seq<Action>, s: State, t: Pid)
    requires Init(s0) && Runs(s0, actions, s)
    requires Enabled(s, Step(t)) && !s.pc[t].Hold?
    ensures Inv(s)
    ensures var s' := Do(s, Step(t));
      s'.pc[t].Hold? ==>
        var r := s'.pc[t].ret;
        && r <= 0
        && (r == 0 <==> s.word == AVAIL)
        && (r < 0 <==> s.word.pid > 0 && s.pc[s.word.pid] == Dead(true))
        && (r < 0 ==> r == 0 - s.word.pid && s'.reports == s.reports + [s.word.pid])
        && (r == 0 ==> s'.reports == s.reports)
  {
    InvariantOverRuns(s0, actions, s);
    assert PcOk(s, t);
  }

  // ---------- a dead owner cannot block the others for good ----------

  predicate WantsLock(p: Pc) {
    p.First? || p.Check? || p.Take? || p.Mark? || p.Wait? || p.Sleeping? || p.Retry?
  }

  /** Steps of its own that process `t` needs when nobody else moves and the word is free
      or names a dead owner. */
  function Distance(s: State, t: Pid): nat
    requires t in s.pc
  {
    match s.pc[t]
    case First => 3
    case Retry => 3
    case Check(seen) => if seen == s.word then 2 else 8
    case Take(seen) => if seen == s.word then 1 else 7
    case Mark(_) => 6
    case Wait(_) => 5
    case Sleeping => 4
    case _ => 0
  }

  /** Nobody but a dead process stands in the way of the lock. */
  ghost predicate Unattended(s: State) {
    s.word == AVAIL || (s.word.pid > 0 && s.word.pid in s.pc && s.pc[s.word.pid] == Dead(true))
  }

  function Own(s: State, t: Pid): Action
    requires t in s.pc
  {
    if s.pc[t] == Sleeping then Timeout(t) else Step(t)
  }

  lemma OwnStepAdvances(s: State, t: Pid)
    requires Inv(s) && Unattended(s) && t in s.pc && WantsLock(s.pc[t])
    ensures Enabled(s, Own(s, t))
    ensures var s' := Do(s, Own(s, t));
      && t in s'.pc
      && (s'.pc[t].Hold? || (WantsLock(s'.pc[t]) && Unattended(s') && Distance(s', t) < Distance(s, t)))
  {
    assert PcOk(s, t);
  }

  lemma RunsCons(s: State, a: Action, rest: seq<Action>, s': State)
    requires Enabled(s, a) && Runs(Do(s, a), rest, s')
    ensures Runs(s, [a] + rest, s')
  {
    assert ([a] + rest)[1..] == rest;
  }

  lemma {:induction false} AcquireUnattended(s: State, t: Pid) returns (actions: seq<Action>, s': State)
    requires Inv(s) && Unattended(s) && t in s.pc && WantsLock(s.pc[t])
    ensures Runs(s, actions, s') && t in s'.pc && s'.pc[t].Hold?
    ensures forall i | 0 <= i < |actions| :: actions[i].t == t
    decreases Distance(s, t)
  {
    OwnStepAdvances(s, t);
    var a := Own(s, t);
    var m := Do(s, a);
    StepKeepsInv(s, a);
    var rest: seq<Action> := [];
    s' := m;
    if !m.pc[t].Hold? {
      rest, s' := AcquireUnattended(m, t);
    }
    RunsCons(s, a, rest, s');
    actions := [a] + rest;
  }

  /** From every reachable state every live process inside the lock call can acquire: at
      most the live owner is asked to unlock, then only `t` itself takes steps, whether
      or not the owner is dead. */
  lemma EveryLiveLockerCanAcquire(s0: State, before: seq<Action>, s: State, t: Pid)
      returns (actions: seq<Action>, s': State)
    requires Init(s0) && Runs(s0, before, s) && t in s.pc && WantsLock(s.pc[t])
    ensures Runs(s, actions, s') && t in s'.pc && s'.pc[t].Hold?
    ensures forall i | 0 <= i < |actions| :: actions[i].t == t || (i == 0 && actions[i].t == s.word.pid)
  {
    InvariantOverRuns(s0, before, s);
    if Unattended(s) {
      actions, s' := AcquireUnattended(s, t);
    } else {
      var unlock := Step(s.word.pid);
      StepKeepsInv(s, unlock);
      assert PcOk(s, s.word.pid);
      actions, s' := AcquireUnattended(Do(s, unlock), t);
      RunsCons(s, unlock, actions, s');
      actions := [unlock] + actions;
    }
  }
}
