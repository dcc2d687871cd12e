/** What the calls of acquire, release, pushcli, popcli and sched achieve, in terms of the steps of a run alone. */
module SpinCalls {
  import opened Optional
  import opened Spinlock

  // ---- acquire and release ----

  /** Inside acquire(l), or just back from it: before the xchg succeeds, and after it. */
  predicate InAcquire(was: Cpu, me: Cpu, l: nat) {
    && me.ncli == was.ncli + 1
    && ((me.phase == Spinning(l) && me.held == was.held)
        || ((me.phase == Got(l) || me.phase == Normal) && me.held == was.held + {l}))
  }

  lemma AcquireStarts(s: State, c: nat, l: nat)
    requires c < |s.cpus| && Enabled(s, c, Acquire(l))
    ensures InAcquire(s.cpus[c], Apply(s, c, Acquire(l)).cpus[c], l)
  {
  }

  lemma AcquireStep(s: State, c: nat, b: nat, a: Action, was: Cpu, l: nat)
    requires c < |s.cpus| && b < |s.cpus| && Enabled(s, b, a)
    requires InAcquire(was, s.cpus[c], l) && s.cpus[c].phase != Normal
    ensures |Apply(s, b, a).cpus| == |s.cpus| && InAcquire(was, Apply(s, b, a).cpus[c], l)
  {
  }

  lemma {:induction false} AcquireGoesOn(states: seq<State>, steps: seq<(nat, Action)>, k: nat, m: nat, c: nat, l: nat)
    requires Run(states, steps) && k < m < |states| && steps[k] == (c, Acquire(l)) && c < |states[k].cpus|
    requires forall j :: k < j < m ==> c < |states[j].cpus| && states[j].cpus[c].phase != Normal
    ensures c < |states[m].cpus| && InAcquire(states[k].cpus[c], states[m].cpus[c], l)
    decreases m
  {
    hide InAcquire, Apply, Enabled, Boot;
    assert StepAt(states[m - 1], steps[m - 1], states[m]);
    if m == k + 1 {
      SameCpus(states[k], c, Acquire(l));
      AcquireStarts(states[k], c, l);
    } else {
      AcquireGoesOn(states, steps, k, m - 1, c, l);
      AcquireStep(states[m - 1], c, steps[m - 1].0, steps[m - 1].1, states[k].cpus[c], l);
    }
  }

  lemma SameCpus(s: State, c: nat, a: Action)
    requires c < |s.cpus| && Enabled(s, c, a)
    ensures |Apply(s, c, a).cpus| == |s.cpus|
  {
  }

  /** In every run, when acquire(l) returns this CPU holds l besides what it held before, holding(l) says so, one popcli
      more is due, and interrupts are off. */
  lemma AcquireReturns(states: seq<State>, steps: seq<(nat, Action)>, k: nat, m: nat, c: nat, l: nat)
    requires Run(states, steps) && k < m < |states| && steps[k] == (c, Acquire(l)) && c < |states[k].cpus|
    requires forall j :: k < j < m ==> c < |states[j].cpus| && states[j].cpus[c].phase != Normal
    requires c < |states[m].cpus| && states[m].cpus[c].phase == Normal
    ensures states[m].cpus[c].held == states[k].cpus[c].held + {l}
    ensures l < |states[m].locks| && Holding(states[m], c, l)
    ensures states[m].cpus[c].ncli == states[k].cpus[c].ncli + 1 && !states[m].cpus[c].interrupts
  {
    hide Boot, Apply, CpuOk, LockOk, Threads;
    AcquireGoesOn(states, steps, k, m, c, l);
    assert StepAt(states[k], steps[k], states[k + 1]);
    SameLocks(states, steps, k, m);
    assert l < |states[k].locks| by { hide *; InLocks(states[k], c, l); }
    InterruptsOff(states, steps, m, c);
    CountsAndHolding(states, steps, m, c, l);
  }

  lemma InLocks(s: State, c: nat, l: nat)
    requires c < |s.cpus| && Enabled(s, c, Acquire(l))
    ensures l < |s.locks|
  {
  }

  lemma {:induction false} SameLocks(states: seq<State>, steps: seq<(nat, Action)>, k: nat, m: nat)
    requires Run(states, steps) && k <= m < |states|
    ensures |states[m].locks| == |states[k].locks| && |states[m].cpus| == |states[k].cpus|
    decreases m
  {
    hide Boot;
    if k < m {
      SameLocks(states, steps, k, m - 1);
      assert StepAt(states[m - 1], steps[m - 1], states[m]);
    }
  }

  /** The number of steps of CPU c from k up to m. */
  function Own(steps: seq<(nat, Action)>, k: nat, m: nat, c: nat): nat
    requires m <= |steps|
    decreases m
  {
    if m <= k then 0 else Own(steps, k, m - 1, c) + if steps[m - 1].0 == c then 1 else 0
  }

  /** Inside release(l), n steps from its start. */
  predicate InRelease(was: Cpu, me: Cpu, l: nat, n: nat) {
    match n
    case 1 => me.phase == Clearing(l) && me.held == was.held && me.ncli == was.ncli
    case 2 => me.phase == Popping && me.held == was.held - {l} && me.ncli == was.ncli
    case 3 => me.phase == Normal && me.held == was.held - {l} && me.ncli == was.ncli - 1
    case _ => false
  }

  lemma ReleaseStarts(s: State, c: nat, l: nat)
    requires c < |s.cpus| && Enabled(s, c, Release(l))
    ensures InRelease(s.cpus[c], Apply(s, c, Release(l)).cpus[c], l, 1)
  {
  }

  lemma ReleaseStep(s: State, c: nat, a: Action, was: Cpu, l: nat, n: nat)
    requires c < |s.cpus| && Enabled(s, c, a) && 1 <= n <= 2 && InRelease(was, s.cpus[c], l, n)
    ensures InRelease(was, Apply(s, c, a).cpus[c], l, n + 1)
  {
  }

  lemma OtherCpu(s: State, c: nat, b: nat, a: Action)
    requires c < |s.cpus| && b < |s.cpus| && b != c && Enabled(s, b, a)
    ensures |Apply(s, b, a).cpus| == |s.cpus| && Apply(s, b, a).cpus[c] == s.cpus[c]
  {
  }

  lemma {:induction false} OwnFirst(steps: seq<(nat, Action)>, k: nat, m: nat, c: nat)
    requires k < m <= |steps| && steps[k].0 == c
    ensures Own(steps, k, m, c) >= 1
    decreases m
  {
    if k + 1 < m { OwnFirst(steps, k, m - 1, c); }
  }

  /** In every run, the third step of a CPU in release(l), counting the call, is its return: it holds what it held
      before but for l, and one popcli less is due. */
  lemma {:induction false} ReleaseReturns(states: seq<State>, steps: seq<(nat, Action)>, k: nat, m: nat, c: nat,
                                          l: nat)
    requires Run(states, steps) && k < m < |states| && steps[k] == (c, Release(l)) && c < |states[k].cpus|
    requires Own(steps, k, m, c) <= 3
    ensures c < |states[m].cpus| && InRelease(states[k].cpus[c], states[m].cpus[c], l, Own(steps, k, m, c))
    decreases m
  {
    hide InRelease, Apply, Enabled, Boot;
    assert StepAt(states[m - 1], steps[m - 1], states[m]);
    if m == k + 1 {
      SameCpus(states[k], c, Release(l));
      ReleaseStarts(states[k], c, l);
    } else {
      ReleaseReturns(states, steps, k, m - 1, c, l);
      OwnFirst(steps, k, m - 1, c);
      if steps[m - 1].0 == c {
        SameCpus(states[m - 1], c, steps[m - 1].1);
        ReleaseStep(states[m - 1], c, steps[m - 1].1, states[k].cpus[c], l, Own(steps, k, m - 1, c));
      } else {
        OtherCpu(states[m - 1], c, steps[m - 1].0, steps[m - 1].1);
      }
    }
  }

  // ---- pushcli and popcli ----

  /** The pushcli calls of CPU c among the first k steps, less its popcli calls. */
  function Open(steps: seq<(nat, Action)>, k: nat, c: nat): int
    requires k <= |steps|
  {
    if k == 0 then 0
    else Open(steps, k - 1, c) +
         if steps[k - 1] == (c, PushCli) then 1 else if steps[k - 1] == (c, PopCli) then -1 else 0
  }

  lemma OpenStep(s: State, c: nat, b: nat, a: Action)
    requires c < |s.cpus| && b < |s.cpus| && Enabled(s, b, a)
    ensures |Apply(s, b, a).cpus| == |s.cpus|
    ensures Apply(s, b, a).cpus[c].opens ==
            s.cpus[c].opens + if b == c && a.PushCli? then 1 else if b == c && a.PopCli? then -1 else 0
  {
  }

  lemma {:induction false} OpensCount(states: seq<State>, steps: seq<(nat, Action)>, k: nat, c: nat)
    requires Run(states, steps) && k < |states| && c < |states[k].cpus|
    ensures states[k].cpus[c].opens == Open(steps, k, c)
  {
    hide Apply, Enabled;
    if k > 0 {
      assert StepAt(states[k - 1], steps[k - 1], states[k]);
      SameLocks(states, steps, k - 1, k);
      OpensCount(states, steps, k - 1, c);
      OpenStep(states[k - 1], c, steps[k - 1].0, steps[k - 1].1);
    }
  }

  /** In every run, outside acquire and release, the nesting depth is the number of locks held plus the number of
      pushcli calls that no popcli has undone, and interrupts can be on only at depth 0. */
  lemma NestingCounts(states: seq<State>, steps: seq<(nat, Action)>, k: nat, c: nat)
    requires Run(states, steps) && k < |states| && c < |states[k].cpus| && states[k].cpus[c].phase == Normal
    ensures states[k].cpus[c].ncli == |states[k].cpus[c].held| + Open(steps, k, c)
    ensures states[k].cpus[c].interrupts ==> states[k].cpus[c].held == {} && Open(steps, k, c) == 0
  {
    hide Run, Apply, Enabled, LockOk, Threads;
    OpensCount(states, steps, k, c);
    RunInv(states, steps, k);
    assert CpuOk(states[k].cpus[c], |states[k].locks|);
  }

  // ---- Context switches ----

  /** The process that CPU c was last switched to, if it has not switched back since. */
  function Current(steps: seq<(nat, Action)>, k: nat, c: nat): Option<nat>
    requires k <= |steps|
  {
    if k == 0 then None
    else if steps[k - 1].0 == c && steps[k - 1].1.SwitchIn? then Some(steps[k - 1].1.t)
    else if steps[k - 1] == (c, SwitchOut) then None
    else Current(steps, k - 1, c)
  }

  lemma CurStep(s: State, c: nat, b: nat, a: Action)
    requires c < |s.cpus| && b < |s.cpus| && Enabled(s, b, a)
    ensures |Apply(s, b, a).cpus| == |s.cpus|
    ensures Apply(s, b, a).cpus[c].cur ==
            if b == c && a.SwitchIn? then Some(a.t) else if b == c && a.SwitchOut? then None else s.cpus[c].cur
  {
  }

  lemma {:induction false} RunsCurrent(states: seq<State>, steps: seq<(nat, Action)>, k: nat, c: nat)
    requires Run(states, steps) && k < |states| && c < |states[k].cpus|
    ensures states[k].cpus[c].cur == Current(steps, k, c)
  {
    hide Apply, Enabled;
    if k > 0 {
      assert StepAt(states[k - 1], steps[k - 1], states[k]);
      SameLocks(states, steps, k - 1, k);
      RunsCurrent(states, steps, k - 1, c);
      CurStep(states[k - 1], c, steps[k - 1].0, steps[k - 1].1);
    }
  }

  /** Process t carries the interrupt flag `on`: on the CPU that runs it, or saved by sched. */
  ghost predicate Carries(s: State, t: nat, on: bool) {
    && t < |s.threads| && (forall d :: 0 <= d < |s.cpus| && s.cpus[d].cur == Some(t) ==> s.cpus[d].outer == on)
    && ((forall d :: 0 <= d < |s.cpus| ==> s.cpus[d].cur != Some(t)) ==> s.threads[t] == Thread(true, on, on))
  }

  lemma CarriesStep(s: State, c: nat, a: Action, t: nat, on: bool)
    requires Carries(s, t, on) && c < |s.cpus| && Enabled(s, c, a) && CpuOk(s.cpus[c], |s.locks|)
    requires !(a.SetInterrupts? && s.cpus[c].cur == Some(t))
    ensures Carries(Apply(s, c, a), t, on)
  {
    hide InCall, Holding;
    var s' := Apply(s, c, a);
    assert forall d :: 0 <= d < |s.cpus| && d != c ==> s'.cpus[d] == s.cpus[d];
    if forall d :: 0 <= d < |s'.cpus| ==> s'.cpus[d].cur != Some(t) {
      assert s'.cpus[c].cur != Some(t);
    }
  }

  lemma SetCarries(s: State, c: nat, t: nat, on: bool)
    requires c < |s.cpus| && Enabled(s, c, SetInterrupts(on)) && s.cpus[c].cur == Some(t) && t < |s.threads|
    requires forall d :: 0 <= d < |s.cpus| && d != c ==> s.cpus[d].cur != Some(t)
    ensures Carries(Apply(s, c, SetInterrupts(on)), t, on)
  {
    assert Apply(s, c, SetInterrupts(on)).cpus[c].cur == Some(t);
  }

  /** No two CPUs run the same process. */
  ghost predicate OneCpu(s: State) {
    && (forall c, d :: 0 <= c < d < |s.cpus| && s.cpus[c].cur.Some? ==> s.cpus[c].cur != s.cpus[d].cur)
    && (forall c :: 0 <= c < |s.cpus| && s.cpus[c].cur.Some? ==> s.cpus[c].cur.value < |s.threads|)
  }

  lemma OneCpuStep(s: State, c: nat, a: Action)
    requires OneCpu(s) && c < |s.cpus| && Enabled(s, c, a)
    ensures OneCpu(Apply(s, c, a))
  {
    var s' := Apply(s, c, a);
    assert |s'.threads| == |s.threads| && forall d :: 0 <= d < |s.cpus| && d != c ==> s'.cpus[d] == s.cpus[d];
  }

  lemma {:induction false} RunOneCpu(states: seq<State>, steps: seq<(nat, Action)>, k: nat)
    requires Run(states, steps) && k < |states|
    ensures OneCpu(states[k])
  {
    hide Apply, Enabled;
    if k > 0 {
      hide OneCpu;
      RunOneCpu(states, steps, k - 1);
      assert StepAt(states[k - 1], steps[k - 1], states[k]);
      OneCpuStep(states[k - 1], steps[k - 1].0, steps[k - 1].1);
    }
  }

  /** Step i sets the interrupt flag while process t runs. */
  predicate Sets(states: seq<State>, steps: seq<(nat, Action)>, i: nat, t: nat)
    requires i < |states| && i < |steps|
  {
    steps[i].1.SetInterrupts? && steps[i].0 < |states[i].cpus| && states[i].cpus[steps[i].0].cur == Some(t)
  }

  lemma {:induction false} StillCarried(states: seq<State>, steps: seq<(nat, Action)>, j: nat, k: nat, t: nat, on: bool)
    requires Run(states, steps) && j <= k < |states| && Carries(states[j], t, on)
    requires forall i :: j <= i < k ==> !Sets(states, steps, i, t)
    ensures Carries(states[k], t, on)
    decreases k
  {
    hide Apply, Enabled, Boot, Carries, CpuOk, LockOk, Threads;
    if j < k {
      StillCarried(states, steps, j, k - 1, t, on);
      assert StepAt(states[k - 1], steps[k - 1], states[k]);
      RunInv(states, steps, k - 1);
      assert !Sets(states, steps, k - 1, t);
      CarriesStep(states[k - 1], steps[k - 1].0, steps[k - 1].1, t, on);
    }
  }

  /** A process out of all locks carries the flag that its CPU has. */
  lemma CarriesNow(s: State, c: nat, t: nat)
    requires Inv(s) && OneCpu(s) && c < |s.cpus| && s.cpus[c].cur == Some(t) && s.cpus[c].ncli == 0
    ensures Carries(s, t, s.cpus[c].interrupts)
  {
    assert CpuOk(s.cpus[c], |s.locks|);
  }

  /** In every run, a process that does not set the interrupt flag has the same one each time that it is out of all
      locks and pushcli calls, wherever it runs and whatever has run in between. */
  lemma InterruptsRestored(states: seq<State>, steps: seq<(nat, Action)>, j: nat, k: nat, c: nat, d: nat, t: nat)
    requires Run(states, steps) && j <= k < |states| && c < |states[j].cpus| && d < |states[k].cpus|
    requires states[j].cpus[c].cur == Some(t) && states[j].cpus[c].ncli == 0
    requires states[k].cpus[d].cur == Some(t) && states[k].cpus[d].ncli == 0
    requires forall i :: j <= i < k ==> !Sets(states, steps, i, t)
    ensures states[k].cpus[d].interrupts == states[j].cpus[c].interrupts
  {
    hide Apply, Enabled, Boot, Run, LockOk, Threads;
    RunInv(states, steps, j);
    RunOneCpu(states, steps, j);
    CarriesNow(states[j], c, t);
    StillCarried(states, steps, j, k, t, states[j].cpus[c].interrupts);
    RunInv(states, steps, k);
    assert CpuOk(states[k].cpus[d], |states[k].locks|);
  }

  /** In every run, a process that is out of all locks and pushcli calls has the interrupt flag that it set last itself,
      wherever it runs now and whatever has run in between. */
  lemma OwnFlag(states: seq<State>, steps: seq<(nat, Action)>, j: nat, k: nat, d: nat, t: nat)
    requires Run(states, steps) && j < k < |states| && Sets(states, steps, j, t)
    requires forall i :: j < i < k ==> !Sets(states, steps, i, t)
    requires d < |states[k].cpus| && states[k].cpus[d].cur == Some(t) && states[k].cpus[d].ncli == 0
    ensures states[k].cpus[d].interrupts == steps[j].1.on
  {
    hide Apply, Enabled, Boot, LockOk, Threads;
    assert StepAt(states[j], steps[j], states[j + 1]);
    RunOneCpu(states, steps, j);
    SetCarries(states[j], steps[j].0, t, steps[j].1.on);
    StillCarried(states, steps, j + 1, k, t, steps[j].1.on);
    RunInv(states, steps, k);
    assert CpuOk(states[k].cpus[d], |states[k].locks|);
  }

  /** Step i gives CPU c another interrupt flag to go on with: it sets the flag, or switches to a process. */
  predicate NewFlag(steps: seq<(nat, Action)>, i: nat, c: nat)
    requires i < |steps|
  {
    steps[i].0 == c && (steps[i].1.SetInterrupts? || steps[i].1.SwitchIn?)
  }

  lemma OuterStep(s: State, c: nat, b: nat, a: Action)
    requires c < |s.cpus| && b < |s.cpus| && Enabled(s, b, a) && !(b == c && (a.SetInterrupts? || a.SwitchIn?))
    ensures |Apply(s, b, a).cpus| == |s.cpus| && Apply(s, b, a).cpus[c].outer == s.cpus[c].outer
  {
  }

  lemma {:induction false} SameOuter(states: seq<State>, steps: seq<(nat, Action)>, j: nat, k: nat, c: nat)
    requires Run(states, steps) && j <= k < |states| && c < |states[j].cpus|
    requires forall i :: j <= i < k ==> !NewFlag(steps, i, c)
    ensures c < |states[k].cpus| && states[k].cpus[c].outer == states[j].cpus[c].outer
    decreases k
  {
    hide Apply, Enabled, Boot;
    if j < k {
      SameOuter(states, steps, j, k - 1, c);
      assert StepAt(states[k - 1], steps[k - 1], states[k]) && !NewFlag(steps, k - 1, c);
      OuterStep(states[k - 1], c, steps[k - 1].0, steps[k - 1].1);
    }
  }

  /** In every run, acquire and release, pushcli and popcli leave the interrupt flag of a CPU as it was, as long as
      nobody sets it and the scheduler does not switch to a process. */
  lemma FlagRestored(states: seq<State>, steps: seq<(nat, Action)>, j: nat, k: nat, c: nat)
    requires Run(states, steps) && j <= k < |states| && c < |states[j].cpus|
    requires forall i :: j <= i < k ==> !NewFlag(steps, i, c)
    requires c < |states[k].cpus| && states[j].cpus[c].ncli == 0 && states[k].cpus[c].ncli == 0
    ensures states[k].cpus[c].interrupts == states[j].cpus[c].interrupts
  {
    hide Apply, Enabled, Boot, Run, LockOk, Threads;
    SameOuter(states, steps, j, k, c);
    RunInv(states, steps, j);
    RunInv(states, steps, k);
    assert CpuOk(states[j].cpus[c], |states[j].locks|) && CpuOk(states[k].cpus[c], |states[k].locks|);
  }

  /** In every run, a scheduler to which a process has switched gets, when it is out of all locks, the interrupt flag
      that this process had saved, not its own: it has to turn interrupts on itself. */
  lemma SchedulerGetsOther(states: seq<State>, steps: seq<(nat, Action)>, j: nat, k: nat, c: nat)
    requires Run(states, steps) && j < k < |states| && steps[j] == (c, SwitchOut) && c < |states[j].cpus|
    requires forall i :: j <= i < k ==> !NewFlag(steps, i, c)
    requires c < |states[k].cpus| && states[k].cpus[c].ncli == 0
    ensures states[k].cpus[c].interrupts == states[j].cpus[c].intena
  {
    hide Apply, Boot, LockOk, Threads;
    assert StepAt(states[j], steps[j], states[j + 1]);
    SameOuter(states, steps, j, k, c);
    RunInv(states, steps, j);
    RunInv(states, steps, k);
    assert CpuOk(states[j].cpus[c], |states[j].locks|) && CpuOk(states[k].cpus[c], |states[k].locks|);
  }
}
