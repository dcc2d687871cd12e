/** Spinlocks and nested interrupt disabling, as interleaved steps of the CPUs. One step is one atomic access to shared
    memory (an xchg, a write of lk->cpu) or a change of the CPU's own fields. */
module Spinlock {
  import opened Optional

  /** Where a CPU is inside acquire or release. */
  datatype Phase =
    | Normal
    | Spinning(l: nat)      // acquire: interrupts are off, trying xchg
    | Got(l: nat)           // acquire: xchg returned 0, lk->cpu not yet written
    | Clearing(l: nat)      // release: lk->cpu cleared, still locked
    | Popping               // release: unlocked, popcli to come

  datatype Lock = Lock(locked: bool, cpu: Option<nat>)

  /** A CPU. `cur` is the process whose thread it runs; None is its scheduler. The other fields are history: the
      locks whose critical section it is in, the calls of pushcli not yet undone, the interrupt flag that its thread
      has outside all of this. A scheduler to which a process has switched goes on with the one of that process. */
  datatype Cpu = Cpu(ncli: int, intena: bool, interrupts: bool, phase: Phase, cur: Option<nat>,
                     held: set<nat>, opens: nat, outer: bool)

  /** The thread of a process: whether it has ever run, the intena that sched has saved on its stack, and as history the
      interrupt flag that it had outside all locks when it called sched. */
  datatype Thread = Thread(started: bool, saved: bool, outer: bool)

  datatype State = State(cpus: seq<Cpu>, locks: seq<Lock>, threads: seq<Thread>)

  datatype Action =
    | PushCli | PopCli
    | Acquire(l: nat) | Xchg | Record
    | Release(l: nat) | Unlock | PopAfter
    | SetInterrupts(on: bool)       // sti, cli, interrupt entry and return
    | SwitchOut                     // sched saves intena and switches to the scheduler
    | SwitchIn(t: nat)              // the scheduler switches to process t, which restores its intena

  /** holding(lk) as CPU c computes it. */
  predicate Holding(s: State, c: nat, l: nat)
    requires l < |s.locks|
  {
    s.locks[l].locked && s.locks[l].cpu == Some(c)
  }

  function Push(me: Cpu): Cpu {
    me.(interrupts := false, ncli := me.ncli + 1, intena := if me.ncli == 0 then me.interrupts else me.intena)
  }

  function Pop(me: Cpu): Cpu {
    me.(ncli := me.ncli - 1, interrupts := if me.ncli - 1 == 0 && me.intena then true else me.interrupts)
  }

  /** popcli does not panic: interrupts are off and the count stays nonnegative. */
  predicate PopSafe(me: Cpu) {
    !me.interrupts && me.ncli - 1 >= 0
  }

  /** What callers may do; panics of the code ("acquire", "release", "sched locks") are excluded here,
      those of popcli are not: that they cannot happen is proved. */
  predicate Enabled(s: State, c: nat, a: Action)
    requires c < |s.cpus|
  {
    var me := s.cpus[c];
    match a
    case PushCli => me.phase.Normal?
    case PopCli => me.phase.Normal? && me.opens > 0
    case Acquire(l) => me.phase.Normal? && l < |s.locks| && !Holding(s, c, l)
    case Xchg => me.phase.Spinning? && me.phase.l < |s.locks|
    case Record => me.phase.Got? && me.phase.l < |s.locks|
    case Release(l) => me.phase.Normal? && l < |s.locks| && Holding(s, c, l)
    case Unlock => me.phase.Clearing? && me.phase.l < |s.locks|
    case PopAfter => me.phase.Popping?
    case SetInterrupts(_) => me.phase.Normal? && me.ncli == 0
    case SwitchOut => me.phase.Normal? && me.ncli == 1 && me.cur.Some? && me.cur.value < |s.threads|
    case SwitchIn(t) =>
      && me.phase.Normal? && me.ncli == 1 && me.cur.None? && t < |s.threads|
      && forall d :: 0 <= d < |s.cpus| ==> s.cpus[d].cur != Some(t)
  }

  function Apply(s: State, c: nat, a: Action): State
    requires c < |s.cpus| && Enabled(s, c, a)
  {
    var me := s.cpus[c];
    match a
    case PushCli => s.(cpus := s.cpus[c := Push(me).(opens := me.opens + 1)])
    case PopCli => s.(cpus := s.cpus[c := Pop(me).(opens := me.opens - 1)])
    case Acquire(l) => s.(cpus := s.cpus[c := Push(me).(phase := Spinning(l))])
    case Xchg =>
      var l := me.phase.l;
      if s.locks[l].locked then s
      else s.(cpus := s.cpus[c := me.(phase := Got(l), held := me.held + {l})],
          locks := s.locks[l := s.locks[l].(locked := true)])
    case Record =>
      var l := me.phase.l;
      s.(cpus := s.cpus[c := me.(phase := Normal)], locks := s.locks[l := s.locks[l].(cpu := Some(c))])
    case Release(l) => s.(cpus := s.cpus[c := me.(phase := Clearing(l))],
        locks := s.locks[l := s.locks[l].(cpu := None)])
    case Unlock =>
      var l := me.phase.l;
      s.(cpus := s.cpus[c := me.(phase := Popping, held := me.held - {l})],
          locks := s.locks[l := s.locks[l].(locked := false)])
    case PopAfter => s.(cpus := s.cpus[c := Pop(me).(phase := Normal)])
    case SetInterrupts(on) => s.(cpus := s.cpus[c := me.(interrupts := on, outer := on)])
    case SwitchOut =>
      s.(cpus := s.cpus[c := me.(cur := None)],
         threads := s.threads[me.cur.value := Thread(true, me.intena, me.outer)])
    case SwitchIn(t) =>
      var th := s.threads[t];
      var intena := if th.started then th.saved else me.intena;         // a new process starts in forkret
      s.(cpus := s.cpus[c := me.(cur := Some(t), intena := intena,
                                 outer := if th.started then th.outer else me.intena)])
  }

  // ---- The invariant ----

  /** The number of pushcli calls that acquire and release themselves have open. */
  function InCall(phase: Phase): nat {
    if phase.Spinning? || phase.Popping? then 1 else 0
  }

  predicate CpuOk(me: Cpu, nlocks: nat) {
    && me.ncli == |me.held| + me.opens + InCall(me.phase)
    && (me.ncli > 0 ==> !me.interrupts && me.intena == me.outer)
    && (me.ncli == 0 ==> me.interrupts == me.outer)
    && (me.phase.Spinning? ==> me.phase.l < nlocks && me.phase.l !in me.held)
    && (me.phase.Got? || me.phase.Clearing? ==> me.phase.l < nlocks && me.phase.l in me.held)
  }

  /** lk->cpu names CPU c exactly while c is between the two writes of lk->cpu. */
  predicate LockOk(s: State, c: nat, l: nat)
    requires c < |s.cpus| && l < |s.locks|
  {
    && (l in s.cpus[c].held ==> s.locks[l].locked)
    && (s.locks[l].cpu == Some(c) <==>
          l in s.cpus[c].held && s.cpus[c].phase != Got(l) && s.cpus[c].phase != Clearing(l))
  }

  /** What sched has saved is the flag that the process had. */
  ghost predicate Threads(s: State) {
    forall t :: 0 <= t < |s.threads| && s.threads[t].started ==> s.threads[t].saved == s.threads[t].outer
  }

  ghost predicate Inv(s: State) {
    && Threads(s)
    && (forall c :: 0 <= c < |s.cpus| ==> CpuOk(s.cpus[c], |s.locks|))
    && (forall c, l :: 0 <= c < |s.cpus| && 0 <= l < |s.locks| ==> LockOk(s, c, l))
    && (forall c, d, l :: 0 <= c < d < |s.cpus| && l in s.cpus[c].held ==> l !in s.cpus[d].held)
    && (forall l :: 0 <= l < |s.locks| && s.locks[l].locked ==> exists c :: 0 <= c < |s.cpus| && l in s.cpus[c].held)
  }

  /** Actions on a lock word, or the popcli after one. */
  predicate LockAction(a: Action) {
    a.Xchg? || a.Record? || a.Release? || a.Unlock? || a.PopAfter?
  }

  lemma CpuStepLock(s: State, c: nat, a: Action)
    requires c < |s.cpus| && Enabled(s, c, a) && CpuOk(s.cpus[c], |s.locks|)
    requires forall l :: 0 <= l < |s.locks| ==> LockOk(s, c, l)
    requires LockAction(a)
    ensures var s' := Apply(s, c, a);
            && |s'.cpus| == |s.cpus| && |s'.locks| == |s.locks| && CpuOk(s'.cpus[c], |s.locks|)
            && forall d :: 0 <= d < |s.cpus| && d != c ==> s'.cpus[d] == s.cpus[d]
  {
    hide Threads;
    if a.Release? { assert LockOk(s, c, a.l); }
  }

  lemma CpuStepRest(s: State, c: nat, a: Action)
    requires c < |s.cpus| && Enabled(s, c, a) && CpuOk(s.cpus[c], |s.locks|)
    requires Threads(s) && forall l :: 0 <= l < |s.locks| ==> LockOk(s, c, l)
    requires !LockAction(a)
    ensures var s' := Apply(s, c, a);
            && |s'.cpus| == |s.cpus| && |s'.locks| == |s.locks| && CpuOk(s'.cpus[c], |s.locks|)
            && forall d :: 0 <= d < |s.cpus| && d != c ==> s'.cpus[d] == s.cpus[d]
  {
    if a.Acquire? { assert LockOk(s, c, a.l); }
  }

  lemma CpuStep(s: State, c: nat, a: Action)
    requires c < |s.cpus| && Enabled(s, c, a) && CpuOk(s.cpus[c], |s.locks|)
    requires Threads(s) && forall l :: 0 <= l < |s.locks| ==> LockOk(s, c, l)
    ensures var s' := Apply(s, c, a);
            && |s'.cpus| == |s.cpus| && |s'.locks| == |s.locks| && CpuOk(s'.cpus[c], |s.locks|)
            && forall d :: 0 <= d < |s.cpus| && d != c ==> s'.cpus[d] == s.cpus[d]
  {
    hide Apply, Enabled, CpuOk, Threads, LockOk;
    if LockAction(a) { CpuStepLock(s, c, a); } else { CpuStepRest(s, c, a); }
  }

  lemma ThreadsStep(s: State, c: nat, a: Action)
    requires c < |s.cpus| && Enabled(s, c, a) && CpuOk(s.cpus[c], |s.locks|) && Threads(s)
    ensures Threads(Apply(s, c, a))
  {
    hide InCall;
  }

  lemma LockStepLock(s: State, c: nat, a: Action, d: nat, l: nat)
    requires c < |s.cpus| && Enabled(s, c, a) && CpuOk(s.cpus[c], |s.locks|) && d < |s.cpus| && l < |s.locks|
    requires LockOk(s, c, l) && LockOk(s, d, l) && (c == d || l !in s.cpus[c].held || l !in s.cpus[d].held)
    requires LockAction(a)
    ensures var s' := Apply(s, c, a);
            && |s'.cpus| == |s.cpus| && |s'.locks| == |s.locks| && LockOk(s', d, l)
            && (l in s'.cpus[c].held && l !in s.cpus[c].held ==> !s.locks[l].locked)
            && (s'.locks[l].locked && !s.locks[l].locked ==> l in s'.cpus[c].held)
            && (l in s.cpus[c].held && l !in s'.cpus[c].held ==> !s'.locks[l].locked)
  {
  }

  lemma LockStepRest(s: State, c: nat, a: Action, d: nat, l: nat)
    requires c < |s.cpus| && Enabled(s, c, a) && CpuOk(s.cpus[c], |s.locks|) && d < |s.cpus| && l < |s.locks|
    requires LockOk(s, c, l) && LockOk(s, d, l) && (c == d || l !in s.cpus[c].held || l !in s.cpus[d].held)
    requires !LockAction(a)
    ensures var s' := Apply(s, c, a);
            && |s'.cpus| == |s.cpus| && s'.locks == s.locks && LockOk(s', d, l)
            && s'.cpus[c].held == s.cpus[c].held
  {
  }

  lemma LockStep(s: State, c: nat, a: Action, d: nat, l: nat)
    requires c < |s.cpus| && Enabled(s, c, a) && CpuOk(s.cpus[c], |s.locks|) && d < |s.cpus| && l < |s.locks|
    requires LockOk(s, c, l) && LockOk(s, d, l) && (c == d || l !in s.cpus[c].held || l !in s.cpus[d].held)
    ensures var s' := Apply(s, c, a);
            && |s'.cpus| == |s.cpus| && |s'.locks| == |s.locks| && LockOk(s', d, l)
            && (l in s'.cpus[c].held && l !in s.cpus[c].held ==> !s.locks[l].locked)
            && (s'.locks[l].locked && !s.locks[l].locked ==> l in s'.cpus[c].held)
            && (l in s.cpus[c].held && l !in s'.cpus[c].held ==> !s'.locks[l].locked)
  {
    hide Apply, Enabled, CpuOk, LockOk;
    if LockAction(a) { LockStepLock(s, c, a, d, l); } else { LockStepRest(s, c, a, d, l); }
  }

  lemma StepKeeps(s: State, c: nat, a: Action)
    requires Inv(s) && c < |s.cpus| && Enabled(s, c, a)
    ensures Inv(Apply(s, c, a))
  {
    hide Apply, Enabled, CpuOk, Threads;
    var s' := Apply(s, c, a);
    CpuStep(s, c, a);
    ThreadsStep(s, c, a);
    forall d, l | 0 <= d < |s.cpus| && 0 <= l < |s.locks| ensures LockOk(s', d, l) {
      assert LockOk(s, d, l) && LockOk(s, c, l);
      LockStep(s, c, a, d, l);
    }
    InRange(s, c, a);
    forall d, l | 0 <= d < |s.cpus| && d != c && l in s'.cpus[d].held ensures l !in s'.cpus[c].held {
      if l in s'.cpus[c].held {
        assert LockOk(s, d, l) && LockOk(s, c, l);
        LockStep(s, c, a, d, l);
      }
    }
    forall l | 0 <= l < |s'.locks| && s'.locks[l].locked
      ensures exists d :: 0 <= d < |s'.cpus| && l in s'.cpus[d].held {
      assert LockOk(s, c, l);
      LockStep(s, c, a, c, l);
      if s.locks[l].locked {
        var d :| 0 <= d < |s.cpus| && l in s.cpus[d].held;
        assert l in s'.cpus[d].held;
      } else {
        assert l in s'.cpus[c].held;
      }
    }
  }

  lemma InRange(s: State, c: nat, a: Action)
    requires c < |s.cpus| && Enabled(s, c, a)
    ensures forall l :: l in Apply(s, c, a).cpus[c].held ==> l in s.cpus[c].held || l < |s.locks|
  {
  }

  // ---- Whole runs ----

  /** At boot no lock is held and every CPU has interrupts off and nothing open. */
  predicate Boot(s: State) {
    && (forall c :: 0 <= c < |s.cpus| ==> s.cpus[c] == Cpu(0, false, false, Normal, None, {}, 0, false))
    && (forall t :: 0 <= t < |s.threads| ==> !s.threads[t].started)
    && (forall l :: 0 <= l < |s.locks| ==> s.locks[l] == Lock(false, None))
  }

  /** A run: the steps (which CPU, which action) taken one after the other. */
  ghost predicate Run(states: seq<State>, steps: seq<(nat, Action)>) {
    && |states| == |steps| + 1 && Boot(states[0])
    && (forall k, l :: 0 <= k && l == k + 1 && l < |states| ==> StepAt(states[k], steps[k], states[l]))
  }

  ghost predicate StepAt(s: State, step: (nat, Action), s': State) {
    step.0 < |s.cpus| && Enabled(s, step.0, step.1) && s' == Apply(s, step.0, step.1)
  }

  lemma {:induction false} RunInv(states: seq<State>, steps: seq<(nat, Action)>, k: nat)
    requires Run(states, steps) && k < |states|
    ensures Inv(states[k])
  {
    hide CpuOk, Apply, Enabled;
    if k == 0 {
      BootInv(states[0]);
    } else {
      RunInv(states, steps, k - 1);
      assert StepAt(states[k - 1], steps[k - 1], states[k]);
      StepKeeps(states[k - 1], steps[k - 1].0, steps[k - 1].1);
    }
  }

  lemma BootInv(s: State)
    requires Boot(s)
    ensures Inv(s)
  {
    forall c, l | 0 <= c < |s.cpus| && 0 <= l < |s.locks| ensures LockOk(s, c, l) {
    }
  }

  /** In every run, an xchg on a lock that is free takes it, and one on a lock that is held leaves it with its
      holder. */
  lemma XchgDecides(states: seq<State>, steps: seq<(nat, Action)>, k: nat, l: nat, c: nat, lock: nat)
    requires Run(states, steps) && l == k + 1 && l < |states| && steps[k] == (c, Xchg) && c < |states[k].cpus|
    requires states[k].cpus[c].phase == Spinning(lock) && lock < |states[k].locks|
    ensures c < |states[l].cpus| && lock < |states[l].locks| && states[l].locks[lock].locked
    ensures lock in states[l].cpus[c].held <==>
            forall d :: 0 <= d < |states[k].cpus| ==> lock !in states[k].cpus[d].held
  {
    hide Boot, CpuOk, Threads, Inv;
    RunInv(states, steps, k);
    assert StepAt(states[k], steps[k], states[l]);
    LockedIff(states[k], lock);
    SpinsOutside(states[k], c);
  }

  lemma LockedIff(s: State, l: nat)
    requires Inv(s) && l < |s.locks|
    ensures s.locks[l].locked <==> !(forall d :: 0 <= d < |s.cpus| ==> l !in s.cpus[d].held)
  {
    hide CpuOk, Threads;
    forall d | 0 <= d < |s.cpus| ensures LockOk(s, d, l) {}
    assert forall d :: 0 <= d < |s.cpus| && l in s.cpus[d].held ==> s.locks[l].locked by {
      forall d | 0 <= d < |s.cpus| && l in s.cpus[d].held ensures s.locks[l].locked { assert LockOk(s, d, l); }
    }
  }

  lemma SpinsOutside(s: State, c: nat)
    requires Inv(s) && c < |s.cpus|
    ensures s.cpus[c].phase.Spinning? ==> s.cpus[c].phase.l !in s.cpus[c].held
  {
    assert CpuOk(s.cpus[c], |s.locks|);
  }

  /** In every run, release leaves the lock free. */
  lemma ReleaseFrees(states: seq<State>, steps: seq<(nat, Action)>, k: nat, l: nat, c: nat, lock: nat)
    requires Run(states, steps) && l == k + 1 && l < |states| && steps[k] == (c, Unlock) && c < |states[k].cpus|
    requires states[k].cpus[c].phase == Clearing(lock)
    ensures lock < |states[l].locks| && !states[l].locks[lock].locked
    ensures forall d :: 0 <= d < |states[l].cpus| ==> lock !in states[l].cpus[d].held
  {
    hide Boot, Inv;
    assert StepAt(states[k], steps[k], states[l]);
    RunInv(states, steps, l);
    LockedIff(states[l], lock);
  }

  /** In every run, two CPUs are never in the critical section of the same lock. */
  lemma MutualExclusion(states: seq<State>, steps: seq<(nat, Action)>, k: nat, c: nat, d: nat, l: nat)
    requires Run(states, steps) && k < |states| && c < |states[k].cpus| && d < |states[k].cpus|
    requires l in states[k].cpus[c].held && l in states[k].cpus[d].held
    ensures c == d
  {
    hide CpuOk, Run;
    RunInv(states, steps, k);
  }

  /** In every run, outside acquire and release, ncli counts the locks held and the pushcli calls open, interrupts are
      off while it is positive, and holding() answers exactly whether this CPU holds the lock. */
  lemma CountsAndHolding(states: seq<State>, steps: seq<(nat, Action)>, k: nat, c: nat, l: nat)
    requires Run(states, steps) && k < |states| && c < |states[k].cpus| && l < |states[k].locks|
    requires states[k].cpus[c].phase.Normal?
    ensures var me := states[k].cpus[c];
            && me.ncli == |me.held| + me.opens && (me.ncli > 0 ==> !me.interrupts)
            && (Holding(states[k], c, l) <==> l in me.held)
  {
    hide Run;
    RunInv(states, steps, k);
    assert CpuOk(states[k].cpus[c], |states[k].locks|) && LockOk(states[k], c, l);
  }

  /** In every run, a CPU holds some lock or has a pushcli open only with interrupts off. */
  lemma InterruptsOff(states: seq<State>, steps: seq<(nat, Action)>, k: nat, c: nat)
    requires Run(states, steps) && k < |states| && c < |states[k].cpus|
    requires (states[k].cpus[c].held != {} || states[k].cpus[c].opens > 0)
    ensures states[k].cpus[c].ncli > 0 && !states[k].cpus[c].interrupts
  {
    hide Run;
    RunInv(states, steps, k);
    assert CpuOk(states[k].cpus[c], |states[k].locks|);
  }

  /** In every run, neither panic of popcli is reached, by popcli itself or inside release. */
  lemma PopcliNeverPanics(states: seq<State>, steps: seq<(nat, Action)>, k: nat, c: nat, a: Action)
    requires Run(states, steps) && k < |states| && c < |states[k].cpus| && (a.PopCli? || a.PopAfter?)
    requires Enabled(states[k], c, a)
    ensures PopSafe(states[k].cpus[c])
  {
    hide Run;
    RunInv(states, steps, k);
    assert CpuOk(states[k].cpus[c], |states[k].locks|);
  }
}
