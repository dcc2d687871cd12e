/** The process table: fork, exit, wait, sleep, wakeup, kill and the per-CPU scheduler, as interleaved steps.

    A step is what one CPU does between two points where another CPU can act: one slot of a table scan, one
    assignment outside the lock, one context switch. ptable.lock belongs to a CPU, not to a process, so it
    stays held across a switch between a process and the scheduler of its CPU. Interrupts are off while the lock is
    held; at every other point an interrupt may come, wake sleepers and, if it is the clock, make the process yield. */
module ProcTable {
  import opened Optional

  datatype PState = Unused | Embryo | Sleeping | Runnable | Running | Zombie

  /** A sleep channel: the address of a process (used by wait), or some other address. */
  datatype Chan = NoChan | Of(p: nat) | Other(n: nat)

  /** Where the kernel thread of a process is. */
  datatype Pc =
    | Outside                           // not in this code
    | AllocScan(i: nat)                 // allocproc: looking at slot i
    | Embryo1(np: nat)                  // fork: slot np taken, lock released
    | Embryo2(np: nat)                  // fork: parent of np set
    | ExitWake(i: nat)                  // exit: waking the parent, at slot i
    | ExitScan(i: nat)                  // exit: passing children to init, at slot i
    | ExitWakeInit(i: nat, j: nat)      // exit: child i was a zombie; waking init, at slot j
    | Exited                            // exit: zombie, about to leave or gone
    | WaitScan(i: nat, kids: bool)      // wait: looking at slot i
    | AfterWait                         // wait: asleep, or just resumed
    | Yielding | AfterYield
    | SleepSet(n: nat) | AfterSleep(n: nat)  // sleep on another channel
    | WakeScan(i: nat, n: nat)          // wakeup: looking at slot i
    | KillScan(i: nat, pid: nat)        // kill: looking at slot i
    | ForkRet                           // first switch to a new process

  /** Points outside ptable.lock. */
  predicate Unlocked(pc: Pc) {
    pc.Outside? || pc.Embryo1? || pc.Embryo2?
  }

  /** `back` is where the thread goes on once it has left ptable.lock: a process can be interrupted in the middle of
      fork. */
  datatype Proc = Proc(state: PState, pid: nat, parent: Option<nat>, chan: Chan, killed: bool, pc: Pc, back: Pc)

  /** Where a process is in its own work, whatever an interrupt makes it do. */
  function At(p: Proc): Pc {
    if Unlocked(p.pc) then p.pc else p.back
  }

  /** What a CPU does: its scheduler is idle (lock not held), looks at slot i, has picked process i,
      has switched to process i, or has come back from it; or an interrupt on the idle CPU wakes sleepers, at slot i. */
  datatype Cpu = Idle | Scan(i: nat) | Picked(i: nat) | Away(i: nat) | Back(i: nat) | Intr(i: nat, n: nat)

  /** The process that a CPU's `proc` points to. */
  function Cur(cpu: Cpu): Option<nat> {
    if cpu.Picked? || cpu.Away? || cpu.Back? then Some(cpu.i) else None
  }

  /** `lock` is the CPU that holds ptable.lock; `reaped` is the history of pids that wait has returned. */
  datatype State = State(procs: seq<Proc>, cpus: seq<Cpu>, lock: Option<nat>, nextpid: nat, init: nat, reaped: seq<nat>)

  datatype Action =
    // scheduler
    | SchedAcquire | SchedSkip | SchedPick | SchedRun | SchedBack | SchedRelease
    // an interrupt on an idle CPU
    | IntrEnter(n: nat) | IntrWake | IntrLeave
    // any process
    | Switch | Enter(pc: Pc) | Leave
    // fork
    | AllocSkip | AllocFound | EmbryoFail | EmbryoParent | EmbryoRun
    // exit
    | WakeParent | WakeParentDone | KeepOrPass | WakeInit | WakeInitDone | BecomeZombie
    // wait
    | WaitSkip | WaitKid | Reap | WaitFail | WaitSleep | WaitResume
    // yield, sleep, wakeup, kill
    | Yield | Sleep | WakeOne | KillMiss | KillHit

  function Woken(p: Proc, ch: Chan): Proc {
    if p.state == Sleeping && p.chan == ch then p.(state := Runnable) else p
  }

  /** What a process may do on taking ptable.lock. */
  predicate Entry(s: State, p: nat, pc: Pc) {
    match pc
    case AllocScan(i) => i == 0
    case ExitWake(i) => i == 0 && p != s.init                  // "init exiting"
    case WaitScan(i, kids) => i == 0 && !kids
    case Yielding => true
    case SleepSet(_) => true
    case WakeScan(i, _) => i == 0
    case KillScan(i, _) => i == 0
    case _ => false
  }

  /** CPU c runs process p in its own thread. */
  predicate Runs(s: State, c: nat, p: nat) {
    c < |s.cpus| && s.cpus[c] == Away(p) && p < |s.procs| && s.procs[p].state == Running
  }

  predicate EnabledSched(s: State, c: nat, a: Action)
    requires c < |s.cpus|
  {
    var cpu := s.cpus[c];
    match a
    case SchedAcquire => cpu.Idle? && s.lock == None
    case SchedSkip => cpu.Scan? && cpu.i < |s.procs| && s.procs[cpu.i].state != Runnable
    case SchedPick => cpu.Scan? && cpu.i < |s.procs| && s.procs[cpu.i].state == Runnable
    case SchedRun => cpu.Picked? && cpu.i < |s.procs|
    case SchedBack => cpu.Back?
    case SchedRelease => cpu.Scan? && cpu.i == |s.procs|
    case IntrEnter(_) => cpu.Idle? && s.lock == None
    case IntrWake => cpu.Intr? && cpu.i < |s.procs|
    case IntrLeave => cpu.Intr? && cpu.i == |s.procs|
    case Switch => cpu.Away? && cpu.i < |s.procs| && s.procs[cpu.i].state != Running
    case _ => false
  }

  /** Which actions the thread of process p can take where it is. */
  predicate EnabledProc(s: State, p: nat, a: Action)
    requires p < |s.procs|
  {
    var pc, n := s.procs[p].pc, |s.procs|;
    match a
    case Enter(pc') => Unlocked(pc) && s.lock == None && Entry(s, p, pc') &&
        (pc.Outside? || pc'.Yielding? || pc'.WakeScan?)
    case Leave =>
      (pc.AllocScan? && pc.i == n) || (pc.WakeScan? && pc.i == n) || (pc.KillScan? && pc.i == n)
      || pc.AfterYield? || pc.ForkRet? || pc.AfterSleep?
    case AllocSkip => pc.AllocScan? && pc.i < n && s.procs[pc.i].state != Unused
    case AllocFound => pc.AllocScan? && pc.i < n && s.procs[pc.i].state == Unused
    case EmbryoFail => pc.Embryo1? && pc.np < n
    case EmbryoParent => pc.Embryo1? && pc.np < n
    case EmbryoRun => pc.Embryo2? && pc.np < n
    case WakeParent => pc.ExitWake? && pc.i < n && s.procs[p].parent.Some?
    case WakeParentDone => pc.ExitWake? && pc.i == n
    case KeepOrPass => pc.ExitScan? && pc.i < n
    case WakeInit => pc.ExitWakeInit? && pc.j < n
    case WakeInitDone => pc.ExitWakeInit? && pc.j == n
    case BecomeZombie => pc.ExitScan? && pc.i == n
    case WaitSkip => pc.WaitScan? && pc.i < n && s.procs[pc.i].parent != Some(p)
    case WaitKid => pc.WaitScan? && pc.i < n && s.procs[pc.i].parent == Some(p) && s.procs[pc.i].state != Zombie
    case Reap => pc.WaitScan? && pc.i < n && s.procs[pc.i].parent == Some(p) && s.procs[pc.i].state == Zombie
    case WaitFail => pc.WaitScan? && pc.i == n && (!pc.kids || s.procs[p].killed)
    case WaitSleep => pc.WaitScan? && pc.i == n && pc.kids && !s.procs[p].killed
    case WaitResume => pc.AfterWait?
    case Yield => pc.Yielding?
    case Sleep => pc.SleepSet?
    case WakeOne => pc.WakeScan? && pc.i < n
    case KillMiss => pc.KillScan? && pc.i < n && s.procs[pc.i].pid != pc.pid
    case KillHit => pc.KillScan? && pc.i < n && s.procs[pc.i].pid == pc.pid
    case _ => false
  }

  function SetPc(procs: seq<Proc>, p: nat, pc: Pc): seq<Proc>
    requires p < |procs|
  {
    procs[p := procs[p].(pc := pc)]
  }

  /** What allocproc makes of a slot. */
  function NewEmbryo(p: Proc, pid: nat): Proc {
    p.(state := Embryo, pid := pid, pc := ForkRet, back := Outside)
  }

  /** What wait makes of the slot of a zombie. */
  function Freed(p: Proc): Proc {
    p.(state := Unused, pid := 0, parent := None, killed := false)
  }

  function ApplySched(s: State, c: nat, a: Action): State
    requires c < |s.cpus| && EnabledSched(s, c, a)
  {
    var cpu := s.cpus[c];
    match a
    case SchedAcquire => s.(cpus := s.cpus[c := Scan(0)], lock := Some(c))
    case SchedSkip => s.(cpus := s.cpus[c := Scan(cpu.i + 1)])
    case SchedPick => s.(cpus := s.cpus[c := Picked(cpu.i)])
    case SchedRun => s.(cpus := s.cpus[c := Away(cpu.i)], procs := s.procs[cpu.i := s.procs[cpu.i].(state := Running)])
    case SchedBack => s.(cpus := s.cpus[c := Scan(cpu.i + 1)])
    case SchedRelease => s.(cpus := s.cpus[c := Idle], lock := None)
    case IntrEnter(n) => s.(cpus := s.cpus[c := Intr(0, n)], lock := Some(c))
    case IntrWake =>
      s.(cpus := s.cpus[c := Intr(cpu.i + 1, cpu.n)], procs := s.procs[cpu.i := Woken(s.procs[cpu.i], Other(cpu.n))])
    case IntrLeave => s.(cpus := s.cpus[c := Idle], lock := None)
    case Switch => s.(cpus := s.cpus[c := Back(cpu.i)])
  }

  function ApplyProc(s: State, c: nat, p: nat, a: Action): State
    requires p < |s.procs| && EnabledProc(s, p, a)
  {
    var procs, me := s.procs, s.procs[p];
    var pc := me.pc;
    match a
    case Enter(pc') => s.(procs := procs[p := me.(pc := pc', back := pc)], lock := Some(c))
    case Leave => s.(procs := procs[p := me.(pc := me.back, chan := if pc.AfterSleep? then NoChan else me.chan)],
        lock := None)
    case AllocSkip => s.(procs := SetPc(procs, p, AllocScan(pc.i + 1)))
    case AllocFound =>
      s.(procs := SetPc(procs[pc.i := NewEmbryo(procs[pc.i], s.nextpid)], p, Embryo1(pc.i)),
         nextpid := s.nextpid + 1, lock := None)
    case EmbryoFail => s.(procs := SetPc(procs[pc.np := procs[pc.np].(state := Unused)], p, Outside))
    case EmbryoParent => s.(procs := SetPc(procs[pc.np := procs[pc.np].(parent := Some(p))], p, Embryo2(pc.np)))
    case EmbryoRun => s.(procs := SetPc(procs[pc.np := procs[pc.np].(state := Runnable)], p, Outside))
    case WakeParent => s.(procs := SetPc(procs[pc.i := Woken(procs[pc.i], Of(me.parent.value))], p, ExitWake(pc.i + 1)))
    case WakeParentDone => s.(procs := SetPc(procs, p, ExitScan(0)))
    case KeepOrPass =>
      if procs[pc.i].parent != Some(p) then s.(procs := SetPc(procs, p, ExitScan(pc.i + 1)))
      else s.(procs := SetPc(procs[pc.i := procs[pc.i].(parent := Some(s.init))], p,
                             if procs[pc.i].state == Zombie then ExitWakeInit(pc.i, 0) else ExitScan(pc.i + 1)))
    case WakeInit => s.(procs := SetPc(procs[pc.j := Woken(procs[pc.j], Of(s.init))], p, ExitWakeInit(pc.i, pc.j + 1)))
    case WakeInitDone => s.(procs := SetPc(procs, p, ExitScan(pc.i + 1)))
    case BecomeZombie => s.(procs := procs[p := me.(state := Zombie, pc := Exited)])
    case WaitSkip => s.(procs := SetPc(procs, p, WaitScan(pc.i + 1, pc.kids)))
    case WaitKid => s.(procs := SetPc(procs, p, WaitScan(pc.i + 1, true)))
    case Reap =>
      s.(procs := SetPc(procs[pc.i := Freed(procs[pc.i])], p, Outside),
         lock := None, reaped := s.reaped + [procs[pc.i].pid])
    case WaitFail => s.(procs := SetPc(procs, p, Outside), lock := None)
    case WaitSleep => s.(procs := procs[p := me.(chan := Of(p), state := Sleeping, pc := AfterWait)])
    case WaitResume => s.(procs := procs[p := me.(chan := NoChan, pc := WaitScan(0, false))])
    case Yield => s.(procs := procs[p := me.(state := Runnable, pc := AfterYield)])
    case Sleep => s.(procs := procs[p := me.(chan := Other(pc.n), state := Sleeping, pc := AfterSleep(pc.n))])
    case WakeOne => s.(procs := SetPc(procs[pc.i := Woken(procs[pc.i], Other(pc.n))], p, WakeScan(pc.i + 1, pc.n)))
    case KillMiss => s.(procs := SetPc(procs, p, KillScan(pc.i + 1, pc.pid)))
    case KillHit =>
      var hit := procs[pc.i].(killed := true);
      s.(procs := SetPc(procs[pc.i := if hit.state == Sleeping then hit.(state := Runnable) else hit], p, Outside),
          lock := None)
  }

  /** One step of CPU c. */
  predicate Step(s: State, c: nat, a: Action, s': State) {
    c < |s.cpus| &&
    ((EnabledSched(s, c, a) && s' == ApplySched(s, c, a))
     || (s.cpus[c].Away? && Runs(s, c, s.cpus[c].i) && EnabledProc(s, s.cpus[c].i, a) &&
           s' == ApplyProc(s, c, s.cpus[c].i, a)))
  }

  // ---- Control: who runs where, and who holds the lock ----

  predicate Live(p: Proc) {
    p.state == Sleeping || p.state == Runnable || p.state == Running
  }

  /** Stopped in a context switch, to be resumed later or never. */
  predicate Parked(p: Proc) {
    && (p.state == Sleeping || p.state == Runnable || p.state == Zombie)
    && (p.pc.AfterWait? || p.pc.AfterYield? || p.pc.AfterSleep? || p.pc.ForkRet? || p.pc.Exited?)
  }

  /** CPU c is inside ptable.lock's critical section. */
  predicate Inside(s: State, c: nat)
    requires c < |s.cpus|
  {
    var cpu := s.cpus[c];
    || cpu.Scan? || cpu.Picked? || cpu.Back? || cpu.Intr?
    || (cpu.Away? && cpu.i < |s.procs| && !Unlocked(s.procs[cpu.i].pc))
  }

  predicate CpuOk(s: State, c: nat)
    requires c < |s.cpus|
  {
    var cpu := s.cpus[c];
    && (cpu.Scan? || cpu.Intr? ==> cpu.i <= |s.procs|)
    && (cpu.Picked? ==> cpu.i < |s.procs| && s.procs[cpu.i].state == Runnable && Parked(s.procs[cpu.i]))
    && (cpu.Back? ==> cpu.i < |s.procs| && Parked(s.procs[cpu.i]))
    && (cpu.Away? ==> cpu.i < |s.procs| && (s.procs[cpu.i].state == Running || Parked(s.procs[cpu.i])))
    && (Inside(s, c) <==> s.lock == Some(c))
  }

  predicate PcInRange(pc: Pc, n: nat) {
    match pc
    case AllocScan(i) => i <= n
    case ExitWake(i) => i <= n
    case ExitScan(i) => i <= n
    case ExitWakeInit(i, j) => i < n && j <= n
    case WaitScan(i, _) => i <= n
    case WakeScan(i, _) => i <= n
    case KillScan(i, _) => i <= n
    case Embryo1(np) => np < n
    case Embryo2(np) => np < n
    case _ => true
  }

  /** A thread inside the lock goes on outside it; in the middle of fork only an interrupt can have brought it there. */
  predicate BackOk(me: Proc, n: nat) {
    !Unlocked(me.pc) ==>
      && Unlocked(me.back) && PcInRange(me.back, n)
      && (me.back.Outside? || me.pc.Yielding? || me.pc.AfterYield? || me.pc.WakeScan?)
  }

  /** The state of process p agrees with where its thread is. */
  predicate ThreadOk(me: Proc, p: nat, n: nat) {
    match me.state
    case Unused => me.parent == None
    case Embryo => me.pc.ForkRet? && me.back.Outside?
    case Sleeping =>
      && ((me.pc.AfterWait? && me.chan == Of(p)) || (me.pc.AfterSleep? && me.chan == Other(me.pc.n)))
      && BackOk(me, n)
    case Runnable => (me.pc.AfterWait? || me.pc.AfterYield? || me.pc.AfterSleep? || me.pc.ForkRet?) && BackOk(me, n)
    case Running => !me.pc.Exited? && PcInRange(me.pc, n) && BackOk(me, n)
    case Zombie => me.pc.Exited?
  }

  predicate OnCpu(cpus: seq<Cpu>, p: nat) {
    Away(p) in cpus
  }

  ghost predicate Control(s: State) {
    && (s.lock.Some? ==> s.lock.value < |s.cpus|)
    && (forall c :: 0 <= c < |s.cpus| ==> CpuOk(s, c))
    && (forall c, d :: 0 <= c < d < |s.cpus| ==> Cur(s.cpus[c]).None? || Cur(s.cpus[c]) != Cur(s.cpus[d]))
    && (forall p :: 0 <= p < |s.procs| ==> ThreadOk(s.procs[p], p, |s.procs|))
    && (forall p :: 0 <= p < |s.procs| && s.procs[p].state == Running ==> OnCpu(s.cpus, p))
  }

  /** What a step of process p on CPU c may do to another slot k, as far as control goes. */
  predicate OtherMoves(s: State, c: nat, k: nat, q: Proc)
    requires k < |s.procs|
  {
    var was := s.procs[k];
    || (q.state == was.state && q.pc == was.pc && q.back == was.back && q.chan == was.chan &&
          (q.state == Unused ==> q.parent == None))
    || (was.state != Running && q.state != Running && ThreadOk(q, k, |s.procs|) &&
          (s.lock == Some(c) || was.state == Embryo))
  }

  /** How the thread of p and the lock may move. */
  predicate OwnMove(s: State, c: nat, p: nat, s': State)
    requires p < |s.procs| && p < |s'.procs|
  {
    var pc, me := s.procs[p].pc, s'.procs[p];
    && ThreadOk(me, p, |s.procs|) && (me.state == Running || (Parked(me) && !Unlocked(me.pc)))
    && (Unlocked(pc) && !Unlocked(me.pc) ==> s.lock == None)
    && s'.lock == if !Unlocked(me.pc) then Some(c) else if Unlocked(pc) then s.lock else None
  }

  lemma ProcControl(s: State, c: nat, p: nat, s': State)
    requires Control(s) && Runs(s, c, p) && s'.cpus == s.cpus && |s'.procs| == |s.procs|
    requires OwnMove(s, c, p, s')
    requires forall k :: 0 <= k < |s.procs| && k != p ==> OtherMoves(s, c, k, s'.procs[k])
    ensures Control(s')
  {
    forall d | 0 <= d < |s'.cpus| ensures CpuOk(s', d) {
      assert CpuOk(s, d) && CpuOk(s, c);
      if d != c && Cur(s.cpus[d]).Some? {
        var k := s.cpus[d].i;
        assert k != p && OtherMoves(s, c, k, s'.procs[k]);
      }
    }
    forall k | 0 <= k < |s'.procs| ensures ThreadOk(s'.procs[k], k, |s'.procs|) {
      assert ThreadOk(s.procs[k], k, |s.procs|);
      assert k != p ==> OtherMoves(s, c, k, s'.procs[k]);
    }
    forall k | 0 <= k < |s'.procs| && s'.procs[k].state == Running ensures OnCpu(s'.cpus, k) {
      assert k != p ==> OtherMoves(s, c, k, s'.procs[k]);
    }
  }

  lemma SchedControlRest(s: State, c: nat, a: Action)
    requires Control(s) && c < |s.cpus| && EnabledSched(s, c, a) && !a.IntrWake?
    ensures Control(ApplySched(s, c, a))
  {
    var s', cpu := ApplySched(s, c, a), s.cpus[c];
    assert CpuOk(s, c);
    forall d | 0 <= d < |s'.cpus| ensures CpuOk(s', d) {
      assert CpuOk(s, d);
    }
    forall d | 0 <= d < |s.cpus| && d != c && Cur(s.cpus[d]).Some? ensures Cur(s'.cpus[c]) != Cur(s.cpus[d]) {
      assert CpuOk(s, d);
      if d < c { assert Cur(s.cpus[d]) != Cur(s.cpus[c]); }
    }
    forall k | 0 <= k < |s'.procs| ensures ThreadOk(s'.procs[k], k, |s'.procs|) {
      assert ThreadOk(s.procs[k], k, |s.procs|);
    }
    forall k | 0 <= k < |s'.procs| && s'.procs[k].state == Running ensures OnCpu(s'.cpus, k) {
      if s.procs[k].state == Running {
        var d :| 0 <= d < |s.cpus| && s.cpus[d] == Away(k);
        assert s'.cpus[d] == Away(k);
      } else {
        assert s'.cpus[c] == Away(k);
      }
    }
  }

  lemma IntrWakeControl(s: State, c: nat)
    requires Control(s) && c < |s.cpus| && EnabledSched(s, c, IntrWake)
    ensures Control(ApplySched(s, c, IntrWake))
  {
    var s', cpu := ApplySched(s, c, IntrWake), s.cpus[c];
    assert CpuOk(s, c) && s'.procs[cpu.i] == Woken(s.procs[cpu.i], Other(cpu.n));
    assert forall k :: 0 <= k < |s.procs| && k != cpu.i ==> s'.procs[k] == s.procs[k];
    forall d | 0 <= d < |s'.cpus| ensures CpuOk(s', d) {
      assert CpuOk(s, d);
    }
    forall k | 0 <= k < |s'.procs| ensures ThreadOk(s'.procs[k], k, |s'.procs|) {
      assert ThreadOk(s.procs[k], k, |s.procs|);
    }
    forall k | 0 <= k < |s'.procs| && s'.procs[k].state == Running ensures OnCpu(s'.cpus, k) {
      assert s.procs[k].state == Running && OnCpu(s.cpus, k);
      var d :| 0 <= d < |s.cpus| && s.cpus[d] == Away(k);
      assert s'.cpus[d] == Away(k);
    }
  }

  lemma SchedControl(s: State, c: nat, a: Action)
    requires Control(s) && c < |s.cpus| && EnabledSched(s, c, a)
    ensures Control(ApplySched(s, c, a))
  {
    hide Control, ApplySched, EnabledSched;
    if a.IntrWake? { IntrWakeControl(s, c); } else { SchedControlRest(s, c, a); }
  }

  // ---- Family: parents, pids and the slots being forked into ----

  predicate InitOk(s: State) {
    && s.init < |s.procs| && Live(s.procs[s.init]) && s.procs[s.init].parent == None
    && s.procs[s.init].pid == 1 && 1 < s.nextpid
  }

  /** The slot a process is forking into, also while an interrupt keeps it from going on. */
  predicate ForkOk(s: State, p: nat)
    requires p < |s.procs|
  {
    var me := s.procs[p];
    var at := At(me);
    Live(me) ==>
      && (at.Embryo1? && at.np < |s.procs| ==>
            s.procs[at.np].state == Embryo && s.procs[at.np].parent == None && me.pid < s.procs[at.np].pid)
      && (at.Embryo2? && at.np < |s.procs| ==> s.procs[at.np].state == Embryo && s.procs[at.np].parent == Some(p))
  }

  /** The slot that a process is forking into, if it is in the middle of fork. */
  function NewSlot(p: Proc): Option<nat> {
    if Live(p) && At(p).Embryo1? then Some(At(p).np)
    else if Live(p) && At(p).Embryo2? then Some(At(p).np)
    else None
  }

  /** A parent is alive and has a smaller pid; everyone but init who got past fork has a parent. */
  predicate FamilyOk(s: State, p: nat)
    requires p < |s.procs|
  {
    var me := s.procs[p];
    && (me.parent.Some? ==>
          me.state != Unused && me.parent.value < |s.procs| && Live(s.procs[me.parent.value]) &&
              s.procs[me.parent.value].pid < me.pid)
    && (p != s.init && (Live(me) || me.state == Zombie) ==> me.parent.Some?)
    && (me.state != Unused ==> 0 < me.pid < s.nextpid && me.pid !in s.reaped)
  }

  ghost predicate ReapedOk(s: State) {
    && (forall k :: 0 <= k < |s.reaped| ==> s.reaped[k] < s.nextpid)
    && (forall k, l :: 0 <= k < l < |s.reaped| ==> s.reaped[k] != s.reaped[l])
  }

  ghost predicate Kin(s: State) {
    && InitOk(s) && ReapedOk(s)
    && (forall p :: 0 <= p < |s.procs| ==> FamilyOk(s, p))
    && (forall p, q :: 0 <= p < q < |s.procs| && s.procs[p].state != Unused && s.procs[q].state != Unused ==>
          s.procs[p].pid != s.procs[q].pid)
  }

  /** Every forking process has its own embryo. */
  ghost predicate Forks(s: State) {
    && (forall p :: 0 <= p < |s.procs| ==> ForkOk(s, p))
    && (forall p, q :: 0 <= p < q < |s.procs| ==>
          NewSlot(s.procs[p]).None? || NewSlot(s.procs[p]) != NewSlot(s.procs[q]))
  }

  ghost predicate Family(s: State) {
    Kin(s) && Forks(s)
  }

  predicate ExitOrWait(a: Action) {
    || a.WakeParent? || a.WakeParentDone? || a.KeepOrPass? || a.WakeInit? || a.WakeInitDone? || a.BecomeZombie?
    || a.WaitSkip? || a.WaitKid? || a.Reap? || a.WaitFail? || a.WaitSleep? || a.WaitResume?
  }

  predicate WaitAction(a: Action) {
    a.WaitSkip? || a.WaitKid? || a.Reap? || a.WaitFail? || a.WaitSleep? || a.WaitResume?
  }

  predicate ForkAction(a: Action) {
    a.Enter? || a.Leave? || a.AllocSkip? || a.AllocFound? || a.EmbryoFail? || a.EmbryoParent? || a.EmbryoRun?
  }

  lemma OwnMovesWait(s: State, c: nat, p: nat, a: Action)
    requires Runs(s, c, p) && EnabledProc(s, p, a) && CpuOk(s, c) && ForkOk(s, p) && ThreadOk(s.procs[p], p, |s.procs|)
    requires WaitAction(a)
    ensures |ApplyProc(s, c, p, a).procs| == |s.procs| && OwnMove(s, c, p, ApplyProc(s, c, p, a))
  {
  }

  lemma OwnMovesExit(s: State, c: nat, p: nat, a: Action)
    requires Runs(s, c, p) && EnabledProc(s, p, a) && CpuOk(s, c) && ForkOk(s, p) && ThreadOk(s.procs[p], p, |s.procs|)
    requires ExitOrWait(a) && !WaitAction(a)
    ensures |ApplyProc(s, c, p, a).procs| == |s.procs| && OwnMove(s, c, p, ApplyProc(s, c, p, a))
  {
  }

  lemma OwnMovesFork(s: State, c: nat, p: nat, a: Action)
    requires Runs(s, c, p) && EnabledProc(s, p, a) && CpuOk(s, c) && ForkOk(s, p) && ThreadOk(s.procs[p], p, |s.procs|)
    requires ForkAction(a)
    ensures |ApplyProc(s, c, p, a).procs| == |s.procs| && OwnMove(s, c, p, ApplyProc(s, c, p, a))
  {
  }

  lemma OwnMovesRest(s: State, c: nat, p: nat, a: Action)
    requires Runs(s, c, p) && EnabledProc(s, p, a) && CpuOk(s, c) && ForkOk(s, p) && ThreadOk(s.procs[p], p, |s.procs|)
    requires !ExitOrWait(a) && !ForkAction(a)
    ensures |ApplyProc(s, c, p, a).procs| == |s.procs| && OwnMove(s, c, p, ApplyProc(s, c, p, a))
  {
  }

  lemma OthersWait(s: State, c: nat, p: nat, a: Action, k: nat)
    requires Runs(s, c, p) && EnabledProc(s, p, a) && CpuOk(s, c) && ForkOk(s, p) && k < |s.procs| && k != p
    requires ThreadOk(s.procs[k], k, |s.procs|)
    requires WaitAction(a)
    ensures OtherMoves(s, c, k, ApplyProc(s, c, p, a).procs[k])
  {
  }

  lemma OthersExit(s: State, c: nat, p: nat, a: Action, k: nat)
    requires Runs(s, c, p) && EnabledProc(s, p, a) && CpuOk(s, c) && ForkOk(s, p) && k < |s.procs| && k != p
    requires ThreadOk(s.procs[k], k, |s.procs|)
    requires ExitOrWait(a) && !WaitAction(a)
    ensures OtherMoves(s, c, k, ApplyProc(s, c, p, a).procs[k])
  {
  }

  lemma OthersFork(s: State, c: nat, p: nat, a: Action, k: nat)
    requires Runs(s, c, p) && EnabledProc(s, p, a) && CpuOk(s, c) && ForkOk(s, p) && k < |s.procs| && k != p
    requires ThreadOk(s.procs[k], k, |s.procs|)
    requires ForkAction(a)
    ensures OtherMoves(s, c, k, ApplyProc(s, c, p, a).procs[k])
  {
  }

  lemma OthersRest(s: State, c: nat, p: nat, a: Action, k: nat)
    requires Runs(s, c, p) && EnabledProc(s, p, a) && CpuOk(s, c) && ForkOk(s, p) && k < |s.procs| && k != p
    requires ThreadOk(s.procs[k], k, |s.procs|)
    requires !ExitOrWait(a) && !ForkAction(a)
    ensures OtherMoves(s, c, k, ApplyProc(s, c, p, a).procs[k])
  {
  }

  lemma OthersMove(s: State, c: nat, p: nat, a: Action, k: nat)
    requires Runs(s, c, p) && EnabledProc(s, p, a) && CpuOk(s, c) && ForkOk(s, p) && k < |s.procs| && k != p
    requires ThreadOk(s.procs[k], k, |s.procs|)
    ensures OtherMoves(s, c, k, ApplyProc(s, c, p, a).procs[k])
  {
    hide OtherMoves, ApplyProc, EnabledProc, ThreadOk, ForkOk, CpuOk;
    if WaitAction(a) {
      OthersWait(s, c, p, a, k);
    } else if ExitOrWait(a) {
      OthersExit(s, c, p, a, k);
    } else if ForkAction(a) {
      OthersFork(s, c, p, a, k);
    } else {
      OthersRest(s, c, p, a, k);
    }
  }

  /** No step of a process breaks control. */
  lemma ProcControlStep(s: State, c: nat, p: nat, a: Action)
    requires Control(s) && Family(s) && Runs(s, c, p) && EnabledProc(s, p, a)
    ensures Control(ApplyProc(s, c, p, a))
  {
    hide OwnMove, OtherMoves, ApplyProc, EnabledProc, ThreadOk, Kin, ForkOk, CpuOk;
    assert CpuOk(s, c) && ForkOk(s, p);
    if WaitAction(a) {
      OwnMovesWait(s, c, p, a);
    } else if ExitOrWait(a) {
      OwnMovesExit(s, c, p, a);
    } else if ForkAction(a) {
      OwnMovesFork(s, c, p, a);
    } else {
      OwnMovesRest(s, c, p, a);
    }
    forall k | 0 <= k < |s.procs| && k != p ensures OtherMoves(s, c, k, ApplyProc(s, c, p, a).procs[k]) {
      OthersMove(s, c, p, a, k);
    }
    SameCpus(s, c, p, a);
    ProcControl(s, c, p, ApplyProc(s, c, p, a));
  }

  lemma SameCpus(s: State, c: nat, p: nat, a: Action)
    requires p < |s.procs| && EnabledProc(s, p, a)
    ensures ApplyProc(s, c, p, a).cpus == s.cpus && ApplyProc(s, c, p, a).init == s.init
  {
  }

  /** A slot keeps its family ties and stays in the same class: alive, embryo, zombie or unused. */
  predicate Calm(q: Proc, q': Proc) {
    q'.parent == q.parent && q'.pid == q.pid && (q'.state == q.state || (Live(q) && Live(q')))
  }

  lemma KinCalm(s: State, s': State)
    requires Kin(s) && |s'.procs| == |s.procs| && s'.init == s.init && s'.nextpid == s.nextpid && s'.reaped == s.reaped
    requires forall k :: 0 <= k < |s.procs| ==> Calm(s.procs[k], s'.procs[k])
    ensures Kin(s')
  {
    assert Calm(s.procs[s.init], s'.procs[s.init]);
    forall k | 0 <= k < |s'.procs| ensures FamilyOk(s', k) {
      assert FamilyOk(s, k) && Calm(s.procs[k], s'.procs[k]);
      var me := s'.procs[k];
      if me.parent.Some? { assert Calm(s.procs[me.parent.value], s'.procs[me.parent.value]); }
    }
    forall p, q | 0 <= p < q < |s.procs| && s'.procs[p].state != Unused && s'.procs[q].state != Unused
      ensures s'.procs[p].pid != s'.procs[q].pid {
      assert Calm(s.procs[p], s'.procs[p]) && Calm(s.procs[q], s'.procs[q]);
    }
  }

  /** A process that is forking after the step was forking before, into the same slot, which the step did not touch. */
  predicate ForkCalm(s: State, s': State, k: nat)
    requires k < |s.procs| == |s'.procs|
  {
    var q, q' := s.procs[k], s'.procs[k];
    NewSlot(q').Some? ==>
      && Live(q) && At(q') == At(q) && q'.pid == q.pid
      && (At(q).np < |s.procs| ==>
            var n, n' := s.procs[At(q).np], s'.procs[At(q).np];
                n'.state == n.state && n'.parent == n.parent && n'.pid == n.pid)
  }

  lemma ForksCalm(s: State, s': State)
    requires Forks(s) && |s'.procs| == |s.procs| && forall k :: 0 <= k < |s.procs| ==> ForkCalm(s, s', k)
    ensures Forks(s')
  {
    forall k | 0 <= k < |s'.procs| ensures ForkOk(s', k) {
      assert ForkOk(s, k) && ForkCalm(s, s', k);
    }
    forall p, q | 0 <= p < q < |s.procs|
      ensures NewSlot(s'.procs[p]).None? || NewSlot(s'.procs[p]) != NewSlot(s'.procs[q]) {
      assert ForkCalm(s, s', p) && ForkCalm(s, s', q);
      assert NewSlot(s.procs[p]).None? || NewSlot(s.procs[p]) != NewSlot(s.procs[q]);
    }
  }

  predicate CalmAction(a: Action) {
    !(a.AllocFound? || a.EmbryoFail? || a.EmbryoParent? || a.EmbryoRun? || a.KeepOrPass? || a.BecomeZombie? || a.Reap?)
  }

  lemma CalmStep(s: State, c: nat, p: nat, a: Action, k: nat)
    requires Runs(s, c, p) && EnabledProc(s, p, a) && k < |s.procs| && CalmAction(a)
    ensures var s' := ApplyProc(s, c, p, a);
            && |s'.procs| == |s.procs| && s'.init == s.init && s'.nextpid == s.nextpid && s'.reaped == s.reaped
            && Calm(s.procs[k], s'.procs[k])
  {
  }

  /** A free slot gets a new pid. */
  lemma AllocKin(s: State, p: nat, i: nat, s': State)
    requires Kin(s) && p < |s.procs| && i < |s.procs| && s.procs[p].state == Running && s.procs[i].state == Unused
    requires s'.procs == SetPc(s.procs[i := NewEmbryo(s.procs[i], s.nextpid)], p, Embryo1(i))
    requires s'.nextpid == s.nextpid + 1 && s'.init == s.init && s'.reaped == s.reaped
    ensures Kin(s')
  {
    assert FamilyOk(s, i);
    forall k | 0 <= k < |s'.procs| ensures FamilyOk(s', k) {
      assert FamilyOk(s, k);
    }
    forall k, q | 0 <= k < q < |s.procs| && s'.procs[k].state != Unused && s'.procs[q].state != Unused
      ensures s'.procs[k].pid != s'.procs[q].pid {
      assert FamilyOk(s, k) && FamilyOk(s, q);
    }
  }

  lemma AllocForks(s: State, p: nat, i: nat, s': State)
    requires Kin(s) && Forks(s) && p < |s.procs| && i < |s.procs| && s.procs[p].state == Running
    requires s.procs[p].pc.AllocScan? && s.procs[i].state == Unused
    requires s'.procs == SetPc(s.procs[i := NewEmbryo(s.procs[i], s.nextpid)], p, Embryo1(i))
    ensures Forks(s')
  {
    assert FamilyOk(s, i) && FamilyOk(s, p);
    forall k | 0 <= k < |s'.procs|
      ensures ForkOk(s', k) && (k != p ==> NewSlot(s'.procs[k]) == NewSlot(s.procs[k]) != Some(i)) {
      assert ForkOk(s, k);
    }
  }

  /** The forking process p moves the slot np it owns. */
  lemma ForkSlotKin(s: State, p: nat, np: nat, q: Proc, pc: Pc, s': State)
    requires Kin(s) && p < |s.procs| && np < |s.procs| && s.procs[np].state == Embryo && s.procs[p].state == Running
    requires s'.procs == SetPc(s.procs[np := q], p, pc) && s'.nextpid == s.nextpid && s'.init == s.init
    requires s'.reaped == s.reaped
    requires q.pid == s.procs[np].pid
    requires (q.parent.Some? ==> q.parent == Some(p) && q.state != Unused && s.procs[p].pid < q.pid)
    requires Live(q) || q.state == Zombie ==> q.parent == Some(p)
    ensures Kin(s')
  {
    forall k | 0 <= k < |s'.procs| ensures FamilyOk(s', k) {
      assert FamilyOk(s, k) && FamilyOk(s, np);
    }
  }

  lemma ForkSlotForks(s: State, p: nat, np: nat, q: Proc, pc: Pc, s': State)
    requires Forks(s) && p < |s.procs| && np < |s.procs| && NewSlot(s.procs[p]) == Some(np)
    requires s'.procs == SetPc(s.procs[np := q], p, pc) && NewSlot(q).None? && np != p
    requires pc.Outside? || (pc == Embryo2(np) && q.state == Embryo && q.parent == Some(p))
    ensures Forks(s')
  {
    assert ForkOk(s, p);
    forall k | 0 <= k < |s'.procs| && k != p
      ensures ForkOk(s', k) && (NewSlot(s'.procs[k]) == NewSlot(s.procs[k]) || k == np) {
      assert ForkOk(s, k);
      if k < p { assert NewSlot(s.procs[k]) != Some(np); }
    }
  }

  /** exit passes a child to init. */
  lemma PassKin(s: State, p: nat, i: nat, pc: Pc, s': State)
    requires Kin(s) && p < |s.procs| && i < |s.procs| && s.procs[p].state == Running && s.procs[i].parent == Some(p)
    requires s'.procs == SetPc(s.procs[i := s.procs[i].(parent := Some(s.init))], p, pc) && s'.nextpid == s.nextpid
    requires s'.init == s.init && s'.reaped == s.reaped
    ensures Kin(s')
  {
    assert FamilyOk(s, i) && FamilyOk(s, s.init);
    forall k | 0 <= k < |s'.procs| ensures FamilyOk(s', k) {
      assert FamilyOk(s, k);
    }
  }

  /** A process without children becomes a zombie. */
  lemma ZombieKin(s: State, p: nat, s': State)
    requires Kin(s) && p < |s.procs| && s.procs[p].state == Running && p != s.init
    requires forall k :: 0 <= k < |s.procs| ==> s.procs[k].parent != Some(p)
    requires s'.procs == s.procs[p := s.procs[p].(state := Zombie, pc := Exited)] && s'.nextpid == s.nextpid
    requires s'.init == s.init && s'.reaped == s.reaped
    ensures Kin(s')
  {
    forall k | 0 <= k < |s'.procs| ensures FamilyOk(s', k) {
      assert FamilyOk(s, k);
    }
  }

  /** wait frees the slot of a zombie. */
  lemma ReapKin(s: State, p: nat, i: nat, s': State)
    requires Kin(s) && p < |s.procs| && i < |s.procs| && s.procs[p].state == Running && s.procs[i].state == Zombie
    requires s'.procs == SetPc(s.procs[i := Freed(s.procs[i])], p, Outside)
    requires s'.nextpid == s.nextpid && s'.init == s.init && s'.reaped == s.reaped + [s.procs[i].pid]
    ensures Kin(s')
  {
    assert FamilyOk(s, i);
    forall k | 0 <= k < |s'.procs| ensures FamilyOk(s', k) {
      assert FamilyOk(s, k);
    }
    forall k | 0 <= k < |s.reaped| ensures s.reaped[k] != s.procs[i].pid {
      assert s.reaped[k] in s.reaped;
    }
  }

  lemma ForkCalmWait(s: State, c: nat, p: nat, a: Action, k: nat)
    requires Runs(s, c, p) && EnabledProc(s, p, a) && k < |s.procs| && ForkOk(s, k) && WaitAction(a)
    requires ThreadOk(s.procs[p], p, |s.procs|)
    ensures |ApplyProc(s, c, p, a).procs| == |s.procs| && ForkCalm(s, ApplyProc(s, c, p, a), k)
  {
  }

  lemma ForkCalmPass(s: State, c: nat, p: nat, a: Action, k: nat)
    requires Runs(s, c, p) && EnabledProc(s, p, a) && k < |s.procs| && ForkOk(s, k)
    requires a.KeepOrPass? || a.BecomeZombie?
    requires ThreadOk(s.procs[p], p, |s.procs|)
    ensures |ApplyProc(s, c, p, a).procs| == |s.procs| && ForkCalm(s, ApplyProc(s, c, p, a), k)
  {
  }

  lemma ForkCalmExit(s: State, c: nat, p: nat, a: Action, k: nat)
    requires Runs(s, c, p) && EnabledProc(s, p, a) && k < |s.procs| && ForkOk(s, k)
    requires ExitOrWait(a) && !WaitAction(a) && !a.KeepOrPass? && !a.BecomeZombie?
    requires ThreadOk(s.procs[p], p, |s.procs|)
    ensures |ApplyProc(s, c, p, a).procs| == |s.procs| && ForkCalm(s, ApplyProc(s, c, p, a), k)
  {
  }

  lemma ForkCalmRest(s: State, c: nat, p: nat, a: Action, k: nat)
    requires Runs(s, c, p) && EnabledProc(s, p, a) && k < |s.procs| && ForkOk(s, k)
    requires !ExitOrWait(a) && !a.AllocFound? && !a.EmbryoFail? && !a.EmbryoParent? && !a.EmbryoRun?
    ensures |ApplyProc(s, c, p, a).procs| == |s.procs| && ForkCalm(s, ApplyProc(s, c, p, a), k)
  {
  }

  lemma ForkCalmStep(s: State, c: nat, p: nat, a: Action, k: nat)
    requires Runs(s, c, p) && EnabledProc(s, p, a) && k < |s.procs| && ForkOk(s, k)
    requires ThreadOk(s.procs[p], p, |s.procs|)
    requires !a.AllocFound? && !a.EmbryoFail? && !a.EmbryoParent? && !a.EmbryoRun?
    ensures |ApplyProc(s, c, p, a).procs| == |s.procs| && ForkCalm(s, ApplyProc(s, c, p, a), k)
  {
    hide ForkCalm, ForkOk, ApplyProc, EnabledProc, ThreadOk;
    if WaitAction(a) {
      ForkCalmWait(s, c, p, a, k);
    } else if a.KeepOrPass? || a.BecomeZombie? {
      ForkCalmPass(s, c, p, a, k);
    } else if ExitOrWait(a) {
      ForkCalmExit(s, c, p, a, k);
    } else {
      ForkCalmRest(s, c, p, a, k);
    }
  }

  lemma ForksStep(s: State, c: nat, p: nat, a: Action)
    requires Control(s) && Family(s) && Runs(s, c, p) && EnabledProc(s, p, a)
    ensures Forks(ApplyProc(s, c, p, a))
  {
    hide Control, Kin, Forks, ForkCalm, ForkOk, FamilyOk;
    ForkerOk(s, p);
    ThreadsOk(s);
    var s', pc := ApplyProc(s, c, p, a), s.procs[p].pc;
    match a
    case AllocFound => AllocForks(s, p, pc.i, s');
    case EmbryoFail => ForkSlotForks(s, p, pc.np, s.procs[pc.np].(state := Unused), Outside, s');
    case EmbryoParent => ForkSlotForks(s, p, pc.np, s.procs[pc.np].(parent := Some(p)), Embryo2(pc.np), s');
    case EmbryoRun => ForkSlotForks(s, p, pc.np, s.procs[pc.np].(state := Runnable), Outside, s');
    case _ =>
      ForksCalmAll(s, c, p, a);
  }

  lemma ThreadsOk(s: State)
    requires Control(s)
    ensures forall p :: 0 <= p < |s.procs| ==> ThreadOk(s.procs[p], p, |s.procs|)
  {
  }

  lemma ForkerOk(s: State, p: nat)
    requires Forks(s) && p < |s.procs|
    ensures ForkOk(s, p)
    ensures NewSlot(s.procs[p]).Some? && NewSlot(s.procs[p]).value < |s.procs| ==>
              var np := s.procs[NewSlot(s.procs[p]).value];
              && np.state == Embryo && (np.parent == None || np.parent == Some(p))
              && (At(s.procs[p]).Embryo1? ==> np.parent == None && s.procs[p].pid < np.pid)
              && (At(s.procs[p]).Embryo2? ==> np.parent == Some(p))
  {
    assert ForkOk(s, p);
  }

  lemma ForksCalmAll(s: State, c: nat, p: nat, a: Action)
    requires Forks(s) && Runs(s, c, p) && EnabledProc(s, p, a) && ThreadOk(s.procs[p], p, |s.procs|)
    requires !a.AllocFound? && !a.EmbryoFail? && !a.EmbryoParent? && !a.EmbryoRun?
    ensures Forks(ApplyProc(s, c, p, a))
  {
    hide ForkCalm, ForkOk, ApplyProc, EnabledProc, ThreadOk;
    var s' := ApplyProc(s, c, p, a);
    assert ForkOk(s, p);
    ForkCalmStep(s, c, p, a, p);
    forall k | 0 <= k < |s.procs| ensures ForkCalm(s, s', k) {
      assert ForkOk(s, k);
      ForkCalmStep(s, c, p, a, k);
    }
    ForksCalm(s, s');
  }

  lemma KinCalmAll(s: State, c: nat, p: nat, a: Action)
    requires Kin(s) && Runs(s, c, p) && EnabledProc(s, p, a) && CalmAction(a)
    ensures Kin(ApplyProc(s, c, p, a))
  {
    hide Kin, Calm, ApplyProc, EnabledProc, CalmAction;
    var s' := ApplyProc(s, c, p, a);
    CalmStep(s, c, p, a, p);
    forall k | 0 <= k < |s.procs| ensures Calm(s.procs[k], s'.procs[k]) {
      CalmStep(s, c, p, a, k);
    }
    KinCalm(s, s');
  }

  lemma KinStep(s: State, c: nat, p: nat, a: Action)
    requires Control(s) && Family(s) && Wakes(s) && Runs(s, c, p) && EnabledProc(s, p, a)
    ensures Kin(ApplyProc(s, c, p, a))
  {
    hide Control, Kin, Forks, Wakes, ForkOk, FamilyOk, Calm;
    ForkerOk(s, p);
    var s', pc, n := ApplyProc(s, c, p, a), s.procs[p].pc, |s.procs|;
    if a.AllocFound? {
      AllocKin(s, p, pc.i, s');
    } else if a.EmbryoFail? {
      ForkSlotKin(s, p, pc.np, s.procs[pc.np].(state := Unused), Outside, s');
    } else if a.EmbryoParent? {
      ForkSlotKin(s, p, pc.np, s.procs[pc.np].(parent := Some(p)), Embryo2(pc.np), s');
    } else if a.EmbryoRun? {
      ParentOlder(s, pc.np);
      ForkSlotKin(s, p, pc.np, s.procs[pc.np].(state := Runnable), Outside, s');
    } else if a.KeepOrPass? {
      if s.procs[pc.i].parent == Some(p) {
        PassKin(s, p, pc.i, s'.procs[p].pc, s');
      } else {
        KeepCalm(s, p, s');
      }
    } else if a.BecomeZombie? {
      Childless(s, p);
      ZombieKin(s, p, s');
    } else if a.Reap? {
      ReapKin(s, p, pc.i, s');
    } else {
      KinCalmAll(s, c, p, a);
    }
  }

  lemma ParentOlder(s: State, k: nat)
    requires Kin(s) && k < |s.procs|
    ensures s.procs[k].parent.Some? ==>
              s.procs[k].parent.value < |s.procs| && s.procs[s.procs[k].parent.value].pid < s.procs[k].pid
  {
    assert FamilyOk(s, k);
  }

  lemma KeepCalm(s: State, p: nat, s': State)
    requires Kin(s) && p < |s.procs| && s.procs[p].pc.ExitScan?
    requires s' == s.(procs := SetPc(s.procs, p, ExitScan(s.procs[p].pc.i + 1)))
    ensures Kin(s')
  {
    KinCalm(s, s');
  }

  lemma Childless(s: State, p: nat)
    requires Wakes(s) && p < |s.procs| && s.procs[p].state == Running && s.procs[p].pc == ExitScan(|s.procs|)
    ensures p != s.init && forall k :: 0 <= k < |s.procs| ==> s.procs[k].parent != Some(p)
  {
    assert ScanOk(s, p);
  }

  // ---- Wakeups: a parent asleep in wait has no zombie child ----

  /** Asleep in wait. */
  predicate Asleep(s: State, q: nat) {
    q < |s.procs| && s.procs[q].state == Sleeping && s.procs[q].chan == Of(q)
  }

  /** The lock is held by a process that is about to wake q (init) for zombie z. */
  predicate BeingWoken(s: State, z: nat, q: nat) {
    && s.lock.Some? && s.lock.value < |s.cpus|
    && s.cpus[s.lock.value].Away? && s.cpus[s.lock.value].i < |s.procs|
    && var pc := s.procs[s.cpus[s.lock.value].i].pc;
       pc.ExitWakeInit? && pc.i == z && pc.j <= q && q == s.init
  }

  predicate ZombieOk(s: State, z: nat)
    requires z < |s.procs|
  {
    s.procs[z].state == Zombie && s.procs[z].parent.Some? && Asleep(s, s.procs[z].parent.value) ==>
        BeingWoken(s, z, s.procs[z].parent.value)
  }

  /** Process p has no child in slots below i. */
  predicate NoChildBelow(procs: seq<Proc>, p: nat, i: nat) {
    forall k :: 0 <= k < i && k < |procs| ==> procs[k].parent != Some(p)
  }

  predicate NoZombieBelow(procs: seq<Proc>, p: nat, i: nat) {
    forall k :: 0 <= k < i && k < |procs| ==> procs[k].parent == Some(p) ==> procs[k].state != Zombie
  }

  /** What exit and wait have established so far. */
  predicate ScanOk(s: State, p: nat)
    requires p < |s.procs|
  {
    var me := s.procs[p];
    me.state == Running ==>
      match me.pc
      case ExitWake(i) => p != s.init && (me.parent.Some? && me.parent.value < i ==> !Asleep(s, me.parent.value))
      case ExitScan(i) => p != s.init && (me.parent.Some? ==> !Asleep(s, me.parent.value)) &&
          NoChildBelow(s.procs, p, i)
      case ExitWakeInit(i, j) => p != s.init && (me.parent.Some? ==> !Asleep(s, me.parent.value)) &&
          NoChildBelow(s.procs, p, i + 1)
      case WaitScan(i, kids) => NoZombieBelow(s.procs, p, i) && (kids <==> !NoChildBelow(s.procs, p, i))
      case _ => true
  }

  ghost predicate Wakes(s: State) {
    forall p :: 0 <= p < |s.procs| ==> ZombieOk(s, p) && ScanOk(s, p)
  }

  predicate Scanning(pc: Pc) {
    pc.ExitWake? || pc.ExitScan? || pc.ExitWakeInit? || pc.WaitScan?
  }

  /** The step adds no zombie and no sleeper in wait, changes no parent, and process k's exit or wait only starts. */
  predicate WakeCalm(s: State, s': State, k: nat)
    requires k < |s.procs| == |s'.procs|
  {
    var q, q' := s.procs[k], s'.procs[k];
    && q'.parent == q.parent && (q'.state == Zombie ==> q.state == Zombie) && (Asleep(s', k) ==> Asleep(s, k))
    && (q'.state == Running && Scanning(q'.pc) ==>
          (q.state == Running && q.pc == q'.pc) || (q'.pc == ExitWake(0) && k != s.init) || q'.pc == WaitScan(0, false))
  }

  /** The process that holds the lock is waking init for a zombie. */
  predicate Waking(s: State) {
    && s.lock.Some? && s.lock.value < |s.cpus|
    && s.cpus[s.lock.value].Away? && s.cpus[s.lock.value].i < |s.procs|
    && s.procs[s.cpus[s.lock.value].i].pc.ExitWakeInit?
  }

  lemma WakesCalm(s: State, s': State)
    requires Wakes(s) && |s'.procs| == |s.procs| && s'.init == s.init
    requires Waking(s) ==>
              && s'.lock == s.lock && s'.cpus == s.cpus
              && s'.procs[s.cpus[s.lock.value].i].pc == s.procs[s.cpus[s.lock.value].i].pc
    requires forall k :: 0 <= k < |s.procs| ==> WakeCalm(s, s', k)
    ensures Wakes(s')
  {
    forall k | 0 <= k < |s'.procs| ensures ZombieOk(s', k) {
      assert ZombieOk(s, k) && WakeCalm(s, s', k);
      var q := s'.procs[k].parent;
      if q.Some? && Asleep(s', q.value) { assert WakeCalm(s, s', q.value); }
    }
    forall k | 0 <= k < |s'.procs| ensures ScanOk(s', k) {
      ScanCalm(s, s', k);
    }
  }

  lemma SameChildren(s: State, s': State, p: nat, i: nat)
    requires |s'.procs| == |s.procs| && forall k :: 0 <= k < |s.procs| ==> WakeCalm(s, s', k)
    ensures NoChildBelow(s'.procs, p, i) <==> NoChildBelow(s.procs, p, i)
    ensures NoZombieBelow(s.procs, p, i) ==> NoZombieBelow(s'.procs, p, i)
  {
    forall k | 0 <= k < |s.procs|
      ensures s'.procs[k].parent == s.procs[k].parent && (s'.procs[k].state == Zombie ==> s.procs[k].state == Zombie) {
      assert WakeCalm(s, s', k);
    }
  }

  lemma ScanCalm(s: State, s': State, k: nat)
    requires Wakes(s) && |s'.procs| == |s.procs| && s'.init == s.init && k < |s.procs|
    requires forall k :: 0 <= k < |s.procs| ==> WakeCalm(s, s', k)
    ensures ScanOk(s', k)
  {
    hide NoChildBelow, NoZombieBelow;
    assert ScanOk(s, k) && WakeCalm(s, s', k);
    var pc, q := s'.procs[k].pc, s'.procs[k].parent;
    if q.Some? && q.value < |s.procs| { assert WakeCalm(s, s', q.value); }
    if s'.procs[k].state == Running {
      match pc
      case ExitScan(i) => SameChildren(s, s', k, i);
      case ExitWakeInit(i, _) => SameChildren(s, s', k, i + 1);
      case WaitScan(i, _) =>
        SameChildren(s, s', k, i);
        NoneBelowZero(s', k);
      case _ =>
    }
  }

  lemma NoneBelowZero(s: State, p: nat)
    ensures NoChildBelow(s.procs, p, 0) && NoZombieBelow(s.procs, p, 0)
  {
  }

  /** While p is inside the lock, no other running process is. */
  lemma Alone(s: State, c: nat, p: nat, k: nat)
    requires Control(s) && Runs(s, c, p) && !Unlocked(s.procs[p].pc) && k < |s.procs| && k != p
    requires s.procs[k].state == Running
    ensures Unlocked(s.procs[k].pc)
  {
    hide ThreadOk;
    assert OnCpu(s.cpus, k);
    var d :| 0 <= d < |s.cpus| && s.cpus[d] == Away(k);
    assert CpuOk(s, c) && CpuOk(s, d);
  }

  /** No zombie has its parent asleep in wait. */
  ghost predicate Quiet(s: State) {
    forall z :: 0 <= z < |s.procs| && s.procs[z].state == Zombie && s.procs[z].parent.Some? ==>
        !Asleep(s, s.procs[z].parent.value)
  }

  lemma QuietNow(s: State, c: nat, p: nat)
    requires Control(s) && Wakes(s) && Runs(s, c, p) && !Unlocked(s.procs[p].pc) && !s.procs[p].pc.ExitWakeInit?
    ensures Quiet(s)
  {
    hide ThreadOk, ScanOk;
    assert CpuOk(s, c);
    forall z | 0 <= z < |s.procs| && s.procs[z].state == Zombie && s.procs[z].parent.Some?
      ensures !Asleep(s, s.procs[z].parent.value) {
      assert ZombieOk(s, z);
    }
  }

  /** A step inside the lock that starts no other process. */
  lemma WakesOwn(s: State, c: nat, p: nat, s': State)
    requires Control(s) && Runs(s, c, p) && !Unlocked(s.procs[p].pc) && |s'.procs| == |s.procs|
    requires forall k :: 0 <= k < |s.procs| && k != p && s'.procs[k].state == Running ==>
              s.procs[k].state == Running && s'.procs[k].pc == s.procs[k].pc
    requires ScanOk(s', p) && (Quiet(s') || forall z :: 0 <= z < |s'.procs| ==> ZombieOk(s', z))
    ensures Wakes(s')
  {
    hide Control, Asleep, NoChildBelow, NoZombieBelow;
    forall k | 0 <= k < |s'.procs| ensures ScanOk(s', k) {
      if k != p && s'.procs[k].state == Running { Alone(s, c, p, k); }
    }
  }

  lemma WakeParentWakes(s: State, c: nat, p: nat)
    requires Control(s) && Wakes(s) && Runs(s, c, p) && EnabledProc(s, p, WakeParent)
    ensures Wakes(ApplyProc(s, c, p, WakeParent))
  {
    hide Control, NoChildBelow, NoZombieBelow;
    QuietNow(s, c, p);
    assert ScanOk(s, p);
    WakesOwn(s, c, p, ApplyProc(s, c, p, WakeParent));
  }

  lemma WakeParentDoneWakes(s: State, c: nat, p: nat)
    requires Control(s) && Kin(s) && Wakes(s) && Runs(s, c, p) && EnabledProc(s, p, WakeParentDone)
    ensures Wakes(ApplyProc(s, c, p, WakeParentDone))
  {
    hide Control, NoZombieBelow;
    QuietNow(s, c, p);
    assert ScanOk(s, p) && FamilyOk(s, p);
    WakesOwn(s, c, p, ApplyProc(s, c, p, WakeParentDone));
  }

  /** exit comes to a slot that is not its child. */
  lemma KeepWakes(s: State, c: nat, p: nat)
    requires Control(s) && Wakes(s) && Runs(s, c, p) && EnabledProc(s, p, KeepOrPass)
    requires s.procs[s.procs[p].pc.i].parent != Some(p)
    ensures Wakes(ApplyProc(s, c, p, KeepOrPass))
  {
    hide Control, NoZombieBelow;
    QuietNow(s, c, p);
    var s' := ApplyProc(s, c, p, KeepOrPass);
    assert ScanOk(s, p);
    assert Quiet(s');
    WakesOwn(s, c, p, s');
  }

  /** exit passes a child to init: if it is a zombie, init is about to be woken. */
  lemma PassWakes(s: State, c: nat, p: nat)
    requires Control(s) && Kin(s) && Wakes(s) && Runs(s, c, p) && EnabledProc(s, p, KeepOrPass)
    requires s.procs[s.procs[p].pc.i].parent == Some(p)
    ensures Wakes(ApplyProc(s, c, p, KeepOrPass))
  {
    hide Control, NoZombieBelow;
    QuietNow(s, c, p);
    Holder(s, c, p);
    var s', i := ApplyProc(s, c, p, KeepOrPass), s.procs[p].pc.i;
    assert ScanOk(s, p) && FamilyOk(s, p) && FamilyOk(s, i);
    forall z | 0 <= z < |s'.procs| ensures ZombieOk(s', z) {
      if s.procs[z].parent.Some? && s.procs[z].state == Zombie { assert !Asleep(s, s.procs[z].parent.value); }
    }
    WakesOwn(s, c, p, s');
  }

  lemma KeepOrPassWakes(s: State, c: nat, p: nat)
    requires Control(s) && Kin(s) && Wakes(s) && Runs(s, c, p) && EnabledProc(s, p, KeepOrPass)
    ensures Wakes(ApplyProc(s, c, p, KeepOrPass))
  {
    hide Control, Kin, Wakes, ApplyProc;
    if s.procs[s.procs[p].pc.i].parent == Some(p) { PassWakes(s, c, p); } else { KeepWakes(s, c, p); }
  }

  lemma Holder(s: State, c: nat, p: nat)
    requires Control(s) && Runs(s, c, p) && !Unlocked(s.procs[p].pc)
    ensures s.lock == Some(c) && PcInRange(s.procs[p].pc, |s.procs|)
  {
    assert CpuOk(s, c) && ThreadOk(s.procs[p], p, |s.procs|);
  }

  lemma WakeInitWakes(s: State, c: nat, p: nat)
    requires Control(s) && Kin(s) && Wakes(s) && Runs(s, c, p) && EnabledProc(s, p, WakeInit)
    ensures Wakes(ApplyProc(s, c, p, WakeInit))
  {
    hide Control, NoZombieBelow, NoChildBelow;
    Holder(s, c, p);
    var s' := ApplyProc(s, c, p, WakeInit);
    assert ScanOk(s, p);
    SameParents(s, s', p, s.procs[p].pc.i + 1);
    forall z | 0 <= z < |s'.procs| ensures ZombieOk(s', z) {
      assert ZombieOk(s, z);
    }
    WakesOwn(s, c, p, s');
  }

  lemma WakeInitDoneWakes(s: State, c: nat, p: nat)
    requires Control(s) && Kin(s) && Wakes(s) && Runs(s, c, p) && EnabledProc(s, p, WakeInitDone)
    ensures Wakes(ApplyProc(s, c, p, WakeInitDone))
  {
    hide Control, NoZombieBelow, NoChildBelow;
    Holder(s, c, p);
    var s' := ApplyProc(s, c, p, WakeInitDone);
    assert ScanOk(s, p);
    SameParents(s, s', p, s.procs[p].pc.i + 1);
    forall z | 0 <= z < |s'.procs| ensures ZombieOk(s', z) {
      assert ZombieOk(s, z);
    }
    WakesOwn(s, c, p, s');
  }

  lemma SameParents(s: State, s': State, p: nat, i: nat)
    requires |s'.procs| == |s.procs| && forall k :: 0 <= k < |s.procs| ==> s'.procs[k].parent == s.procs[k].parent
    ensures NoChildBelow(s'.procs, p, i) <==> NoChildBelow(s.procs, p, i)
  {
  }

  lemma BecomeZombieWakes(s: State, c: nat, p: nat)
    requires Control(s) && Wakes(s) && Runs(s, c, p) && EnabledProc(s, p, BecomeZombie)
    ensures Wakes(ApplyProc(s, c, p, BecomeZombie))
  {
    hide Control, NoZombieBelow, NoChildBelow;
    QuietNow(s, c, p);
    assert ScanOk(s, p);
    WakesOwn(s, c, p, ApplyProc(s, c, p, BecomeZombie));
  }

  lemma WaitSkipWakes(s: State, c: nat, p: nat)
    requires Control(s) && Wakes(s) && Runs(s, c, p) && EnabledProc(s, p, WaitSkip)
    ensures Wakes(ApplyProc(s, c, p, WaitSkip))
  {
    hide Control;
    QuietNow(s, c, p);
    var i := s.procs[p].pc.i;
    assert ScanOk(s, p);
    var s' := ApplyProc(s, c, p, WaitSkip);
    SameParents(s, s', p, i);
    assert NoChildBelow(s'.procs, p, i + 1) <==> NoChildBelow(s.procs, p, i) && s.procs[i].parent != Some(p);
    WakesOwn(s, c, p, s');
  }

  lemma WaitKidWakes(s: State, c: nat, p: nat)
    requires Control(s) && Wakes(s) && Runs(s, c, p) && EnabledProc(s, p, WaitKid)
    ensures Wakes(ApplyProc(s, c, p, WaitKid))
  {
    hide Control;
    QuietNow(s, c, p);
    var i := s.procs[p].pc.i;
    assert ScanOk(s, p);
    var s' := ApplyProc(s, c, p, WaitKid);
    SameParents(s, s', p, i);
    assert NoChildBelow(s'.procs, p, i + 1) <==> NoChildBelow(s.procs, p, i) && s.procs[i].parent != Some(p);
    WakesOwn(s, c, p, s');
  }

  lemma ReapWakes(s: State, c: nat, p: nat)
    requires Control(s) && Wakes(s) && Runs(s, c, p) && EnabledProc(s, p, Reap)
    ensures Wakes(ApplyProc(s, c, p, Reap))
  {
    hide Control, NoZombieBelow, NoChildBelow;
    QuietNow(s, c, p);
    WakesOwn(s, c, p, ApplyProc(s, c, p, Reap));
  }

  lemma WaitSleepWakes(s: State, c: nat, p: nat)
    requires Control(s) && Wakes(s) && Runs(s, c, p) && EnabledProc(s, p, WaitSleep)
    ensures Wakes(ApplyProc(s, c, p, WaitSleep))
  {
    hide Control, NoChildBelow;
    QuietNow(s, c, p);
    assert ScanOk(s, p);
    WakesOwn(s, c, p, ApplyProc(s, c, p, WaitSleep));
  }

  /** fork makes np a child of p, which is not scanning. */
  lemma EmbryoParentWakes(s: State, c: nat, p: nat)
    requires Control(s) && Forks(s) && Wakes(s) && Runs(s, c, p) && EnabledProc(s, p, EmbryoParent)
    ensures Wakes(ApplyProc(s, c, p, EmbryoParent))
  {
    hide Control, Forks, NoChildBelow, NoZombieBelow;
    ForkerOk(s, p);
    var s', np := ApplyProc(s, c, p, EmbryoParent), s.procs[p].pc.np;
    forall k | 0 <= k < |s'.procs| ensures ZombieOk(s', k) && ScanOk(s', k) {
      assert ZombieOk(s, k) && ScanOk(s, k);
      NewChild(s, s', p, np, k);
    }
  }

  lemma NewChild(s: State, s': State, p: nat, np: nat, k: nat)
    requires p < |s.procs| && np < |s.procs| && s.procs[np].parent == None && s.procs[np].state == Embryo && np != p
    requires s'.procs == SetPc(s.procs[np := s.procs[np].(parent := Some(p))], p, Embryo2(np))
    ensures forall i: nat :: k != p ==> (NoChildBelow(s'.procs, k, i) <==> NoChildBelow(s.procs, k, i))
    ensures forall i: nat :: k != p && NoZombieBelow(s.procs, k, i) ==> NoZombieBelow(s'.procs, k, i)
  {
    if k != p {
      forall x | 0 <= x < |s.procs|
        ensures s'.procs[x].state == s.procs[x].state
        ensures (s'.procs[x].parent == Some(k) <==> s.procs[x].parent == Some(k)) {
      }
      forall i: nat ensures NoChildBelow(s'.procs, k, i) <==> NoChildBelow(s.procs, k, i) {
        assert forall x :: 0 <= x < |s.procs| ==> (s'.procs[x].parent == Some(k) <==> s.procs[x].parent == Some(k));
      }
    }
  }

  predicate WakeCalmAction(a: Action) {
    || a.Enter? || a.Leave? || a.AllocSkip? || a.AllocFound? || a.EmbryoFail? || a.EmbryoRun? || a.WaitFail?
    || a.WaitResume?
    || a.Yield? || a.Sleep? || a.WakeOne? || a.KillMiss? || a.KillHit?
  }

  lemma WakeCalmFork(s: State, c: nat, p: nat, a: Action, k: nat)
    requires Runs(s, c, p) && EnabledProc(s, p, a) && ForkOk(s, p) && k < |s.procs| && WakeCalmAction(a)
    requires ForkAction(a)
    requires ThreadOk(s.procs[p], p, |s.procs|)
    ensures |ApplyProc(s, c, p, a).procs| == |s.procs| && WakeCalm(s, ApplyProc(s, c, p, a), k)
  {
  }

  lemma WakeCalmWait(s: State, c: nat, p: nat, a: Action, k: nat)
    requires Runs(s, c, p) && EnabledProc(s, p, a) && ForkOk(s, p) && k < |s.procs| && WakeCalmAction(a)
    requires WaitAction(a)
    requires ThreadOk(s.procs[p], p, |s.procs|)
    ensures |ApplyProc(s, c, p, a).procs| == |s.procs| && WakeCalm(s, ApplyProc(s, c, p, a), k)
  {
  }

  lemma WakeCalmRest(s: State, c: nat, p: nat, a: Action, k: nat)
    requires Runs(s, c, p) && EnabledProc(s, p, a) && ForkOk(s, p) && k < |s.procs| && WakeCalmAction(a)
    requires !ForkAction(a) && !WaitAction(a)
    requires ThreadOk(s.procs[p], p, |s.procs|)
    ensures |ApplyProc(s, c, p, a).procs| == |s.procs| && WakeCalm(s, ApplyProc(s, c, p, a), k)
  {
  }

  lemma WakeCalmStep(s: State, c: nat, p: nat, a: Action, k: nat)
    requires Runs(s, c, p) && EnabledProc(s, p, a) && ForkOk(s, p) && k < |s.procs| && WakeCalmAction(a)
    requires ThreadOk(s.procs[p], p, |s.procs|)
    ensures |ApplyProc(s, c, p, a).procs| == |s.procs| && WakeCalm(s, ApplyProc(s, c, p, a), k)
  {
    hide WakeCalm, ApplyProc, EnabledProc, ThreadOk, ForkOk;
    if ForkAction(a) {
      WakeCalmFork(s, c, p, a, k);
    } else if WaitAction(a) {
      WakeCalmWait(s, c, p, a, k);
    } else {
      WakeCalmRest(s, c, p, a, k);
    }
  }

  /** The process that is waking init goes on doing so. */
  lemma WakingCalm(s: State, c: nat, p: nat, a: Action)
    requires Control(s) && Runs(s, c, p) && EnabledProc(s, p, a) && ForkOk(s, p) && WakeCalmAction(a) && Waking(s)
    ensures var s' := ApplyProc(s, c, p, a);
            s'.lock == s.lock && s'.cpus == s.cpus && |s'.procs| == |s.procs| &&
                s'.procs[s.cpus[s.lock.value].i].pc == s.procs[s.cpus[s.lock.value].i].pc
  {
    hide ThreadOk;
    assert CpuOk(s, c) && CpuOk(s, s.lock.value);
  }

  lemma WakesCalmAll(s: State, c: nat, p: nat, a: Action)
    requires Control(s) && Forks(s) && Wakes(s) && Runs(s, c, p) && EnabledProc(s, p, a) && WakeCalmAction(a)
    ensures Wakes(ApplyProc(s, c, p, a))
  {
    hide Control, Wakes, WakeCalm, ApplyProc, EnabledProc, WakeCalmAction, ForkOk, ThreadOk;
    assert ForkOk(s, p);
    ThreadsOk(s);
    var s' := ApplyProc(s, c, p, a);
    WakeCalmStep(s, c, p, a, p);
    SameCpus(s, c, p, a);
    forall k | 0 <= k < |s.procs| ensures WakeCalm(s, s', k) {
      WakeCalmStep(s, c, p, a, k);
    }
    if Waking(s) { WakingCalm(s, c, p, a); }
    WakesCalm(s, s');
  }

  lemma WakesStep(s: State, c: nat, p: nat, a: Action)
    requires Control(s) && Family(s) && Wakes(s) && Runs(s, c, p) && EnabledProc(s, p, a)
    ensures Wakes(ApplyProc(s, c, p, a))
  {
    hide Control, Kin, Forks, Wakes, ApplyProc;
    match a
    case WakeParent => WakeParentWakes(s, c, p);
    case WakeParentDone => WakeParentDoneWakes(s, c, p);
    case KeepOrPass => KeepOrPassWakes(s, c, p);
    case WakeInit => WakeInitWakes(s, c, p);
    case WakeInitDone => WakeInitDoneWakes(s, c, p);
    case BecomeZombie => BecomeZombieWakes(s, c, p);
    case WaitSkip => WaitSkipWakes(s, c, p);
    case WaitKid => WaitKidWakes(s, c, p);
    case Reap => ReapWakes(s, c, p);
    case WaitSleep => WaitSleepWakes(s, c, p);
    case EmbryoParent => EmbryoParentWakes(s, c, p);
    case _ => WakesCalmAll(s, c, p, a);
  }

  lemma SchedCalm(s: State, c: nat, a: Action, k: nat)
    requires c < |s.cpus| && EnabledSched(s, c, a) && CpuOk(s, c) && k < |s.procs| && ForkOk(s, k)
    ensures var s' := ApplySched(s, c, a);
            && |s'.procs| == |s.procs| && s'.init == s.init && s'.nextpid == s.nextpid && s'.reaped == s.reaped
            && Calm(s.procs[k], s'.procs[k]) && ForkCalm(s, s', k) && WakeCalm(s, s', k)
  {
  }

  /** While a process is waking init, no scheduler is inside the lock. */
  lemma SchedNotWaking(s: State, c: nat, a: Action)
    requires Control(s) && c < |s.cpus| && EnabledSched(s, c, a)
    ensures !Waking(s)
  {
    hide ThreadOk;
    assert CpuOk(s, c);
  }

  /** The scheduler changes no family ties and wakes nobody. */
  lemma SchedFamily(s: State, c: nat, a: Action)
    requires Control(s) && Family(s) && Wakes(s) && c < |s.cpus| && EnabledSched(s, c, a)
    ensures Family(ApplySched(s, c, a)) && Wakes(ApplySched(s, c, a))
  {
    hide Kin, Forks, Wakes, ThreadOk, CpuOk, Calm, ForkCalm, WakeCalm, ApplySched, EnabledSched, Waking, ForkOk;
    var s' := ApplySched(s, c, a);
    assert CpuOk(s, c);
    InitExists(s);
    ForkerOk(s, s.init);
    SchedCalm(s, c, a, s.init);
    forall k | 0 <= k < |s.procs| ensures Calm(s.procs[k], s'.procs[k]) && ForkCalm(s, s', k) && WakeCalm(s, s', k) {
      ForkerOk(s, k);
      SchedCalm(s, c, a, k);
    }
    SchedNotWaking(s, c, a);
    KinCalm(s, s');
    ForksCalm(s, s');
    WakesCalm(s, s');
  }

  lemma InitExists(s: State)
    requires Kin(s)
    ensures s.init < |s.procs|
  {
  }

  // ---- Whole runs ----

  ghost predicate Inv(s: State) {
    Control(s) && Family(s) && Wakes(s)
  }

  lemma StepKeeps(s: State, c: nat, a: Action, s': State)
    requires Inv(s) && Step(s, c, a, s')
    ensures Inv(s')
  {
    hide Control, Kin, Forks, Wakes, ApplyProc, ApplySched, EnabledProc, EnabledSched;
    if EnabledSched(s, c, a) && s' == ApplySched(s, c, a) {
      SchedControl(s, c, a);
      SchedFamily(s, c, a);
    } else {
      var p := s.cpus[c].i;
      ProcControlStep(s, c, p, a);
      KinStep(s, c, p, a);
      ForksStep(s, c, p, a);
      WakesStep(s, c, p, a);
    }
  }

  /** After boot: init is ready to run for the first time, and every scheduler is about to start. */
  predicate Boot(s: State) {
    && s.init < |s.procs| && s.lock == None && s.nextpid == 2 && s.reaped == []
    && s.procs[s.init] == Proc(Runnable, 1, None, NoChan, false, ForkRet, Outside)
    && (forall p :: 0 <= p < |s.procs| && p != s.init ==>
          s.procs[p] == Proc(Unused, 0, None, NoChan, false, Outside, Outside))
    && (forall c :: 0 <= c < |s.cpus| ==> s.cpus[c] == Idle)
  }

  lemma BootInv(s: State)
    requires Boot(s)
    ensures Inv(s)
  {
    forall p | 0 <= p < |s.procs|
      ensures ThreadOk(s.procs[p], p, |s.procs|) && FamilyOk(s, p) && ForkOk(s, p) && ZombieOk(s, p) && ScanOk(s, p) {
      assert p != s.init ==> s.procs[p].state == Unused;
    }
  }

  /** A run: states joined by steps of any CPU, in any order. */
  ghost predicate Run(states: seq<State>) {
    && |states| > 0 && Boot(states[0])
    && (forall k, l :: 0 <= k && l == k + 1 && l < |states| ==> Joined(states[k], states[l]))
  }

  ghost predicate Joined(s: State, s': State) {
    exists c: nat, a: Action :: Step(s, c, a, s')
  }

  lemma {:induction false} RunInv(states: seq<State>, k: nat)
    requires Run(states) && k < |states|
    ensures Inv(states[k])
  {
    hide Inv, Step, Boot;
    if k == 0 {
      BootInv(states[0]);
    } else {
      RunInv(states, k - 1);
      assert Joined(states[k - 1], states[k]);
      var c: nat, a: Action :| Step(states[k - 1], c, a, states[k]);
      StepKeeps(states[k - 1], c, a, states[k]);
    }
  }

  /** In every run, whenever ptable.lock is free, no process sleeps in wait while it has a zombie child. */
  lemma NoLostWakeup(states: seq<State>, k: nat, q: nat, z: nat)
    requires Run(states) && k < |states| && states[k].lock == None && q < |states[k].procs| && z < |states[k].procs|
    requires Asleep(states[k], q) && states[k].procs[z].parent == Some(q)
    ensures states[k].procs[z].state != Zombie
  {
    hide Run, Control, Kin, Forks, ScanOk;
    RunInv(states, k);
    assert ZombieOk(states[k], z);
  }

  /** A step of p leaves a zombie alone, unless p is in wait and reaps its child. */
  lemma ZombieStep(s: State, c: nat, p: nat, a: Action, z: nat)
    requires Runs(s, c, p) && EnabledProc(s, p, a) && ForkOk(s, p) && z < |s.procs| && s.procs[z].state == Zombie
    ensures var s' := ApplyProc(s, c, p, a);
            && |s'.procs| == |s.procs|
            && (s'.procs[z].state == Zombie ||
                  (s'.procs[z].state == Unused && s.procs[z].parent == Some(p) && a.Reap? &&
                  s'.reaped == s.reaped + [s.procs[z].pid]))
  {
    if ExitOrWait(a) { ZombieExitWait(s, c, p, a, z); }
  }

  lemma ZombieExitWait(s: State, c: nat, p: nat, a: Action, z: nat)
    requires Runs(s, c, p) && EnabledProc(s, p, a) && ExitOrWait(a) && z < |s.procs| && s.procs[z].state == Zombie
    ensures var s' := ApplyProc(s, c, p, a);
            && |s'.procs| == |s.procs|
            && (s'.procs[z].state == Zombie ||
                  (s'.procs[z].state == Unused && s.procs[z].parent == Some(p) && a.Reap? &&
                  s'.reaped == s.reaped + [s.procs[z].pid]))
  {
  }

  lemma ZombieSched(s: State, c: nat, a: Action, z: nat)
    requires c < |s.cpus| && EnabledSched(s, c, a) && CpuOk(s, c) && z < |s.procs| && s.procs[z].state == Zombie
    ensures |ApplySched(s, c, a).procs| == |s.procs| && ApplySched(s, c, a).procs[z].state == Zombie
  {
  }

  /** In every run, a zombie's slot changes only when its parent, running in wait, reaps it:
      the slot is freed and its pid is recorded. */
  lemma ZombieReaped(states: seq<State>, k: nat, c: nat, a: Action, z: nat)
    requires Run(states) && k + 1 < |states| && Step(states[k], c, a, states[k + 1])
    requires z < |states[k].procs| && states[k].procs[z].state == Zombie
    ensures |states[k + 1].procs| == |states[k].procs|
    ensures states[k + 1].procs[z].state == Zombie ||
            (&& states[k + 1].procs[z].state == Unused && states[k].procs[z].parent.Some? &&
                Runs(states[k], c, states[k].procs[z].parent.value)
             && a.Reap? && states[k + 1].reaped == states[k].reaped + [states[k].procs[z].pid])
  {
    hide Run, Kin, Wakes, ThreadOk, ForkOk, CpuOk, ApplyProc, ApplySched, EnabledProc, EnabledSched;
    RunInv(states, k);
    var s := states[k];
    assert CpuOk(s, c);
    if EnabledSched(s, c, a) && states[k + 1] == ApplySched(s, c, a) {
      ZombieSched(s, c, a, z);
    } else {
      assert ForkOk(s, s.cpus[c].i);
      ZombieStep(s, c, s.cpus[c].i, a, z);
    }
  }

  /** In every run, no process is reaped twice. */
  lemma ReapedOnce(states: seq<State>, k: nat, i: nat, j: nat)
    requires Run(states) && k < |states| && i < j < |states[k].reaped|
    ensures states[k].reaped[i] != states[k].reaped[j]
  {
    hide Run, Control, Forks, Wakes;
    RunInv(states, k);
  }

  /** The ancestors of a process, up to the one without a parent. */
  ghost function Eldest(s: State, p: nat): nat
    requires Inv(s) && p < |s.procs|
    decreases s.procs[p].pid
  {
    assert FamilyOk(s, p);
    if s.procs[p].parent.None? then p else Eldest(s, s.procs[p].parent.value)
  }

  lemma {:induction false} EldestIsInit(s: State, p: nat)
    requires Inv(s) && p < |s.procs| && (Live(s.procs[p]) || s.procs[p].state == Zombie)
    ensures Eldest(s, p) == s.init
    decreases s.procs[p].pid
  {
    hide Control, Forks, Wakes;
    assert FamilyOk(s, p);
    if s.procs[p].parent.Some? {
      EldestIsInit(s, s.procs[p].parent.value);
    }
  }

  /** In every run, the parent links of every process lead down to init through smaller and smaller pids. */
  lemma DownToInit(states: seq<State>, k: nat, p: nat)
    requires Run(states) && k < |states| && p < |states[k].procs|
    requires Live(states[k].procs[p]) || states[k].procs[p].state == Zombie
    ensures Inv(states[k]) && Eldest(states[k], p) == states[k].init
  {
    hide Run, Inv;
    RunInv(states, k);
    EldestIsInit(states[k], p);
  }

  /** In every run, whenever ptable.lock is free, a CPU either idles or runs exactly one process, and a process is
      RUNNING exactly when one CPU, and only one, runs it. */
  lemma RunningOnOneCpu(states: seq<State>, k: nat, p: nat)
    requires Run(states) && k < |states| && states[k].lock == None && p < |states[k].procs|
    ensures var s := states[k];
            && (forall c :: 0 <= c < |s.cpus| ==> s.cpus[c].Idle? || s.cpus[c].Away?)
            && (s.procs[p].state == Running <==> exists c :: 0 <= c < |s.cpus| && s.cpus[c] == Away(p))
            && (forall c, d :: 0 <= c < d < |s.cpus| && s.cpus[c] == Away(p) ==> s.cpus[d] != Away(p))
  {
    hide Run, Kin, Forks, Wakes;
    RunInv(states, k);
    var s := states[k];
    forall c | 0 <= c < |s.cpus|
      ensures s.cpus[c].Idle? || (s.cpus[c].Away? && s.cpus[c].i < |s.procs| && s.procs[s.cpus[c].i].state == Running) {
      assert CpuOk(s, c);
    }
    if s.procs[p].state == Running { assert OnCpu(s.cpus, p); }
    forall c, d | 0 <= c < d < |s.cpus| && s.cpus[c] == Away(p) ensures s.cpus[d] != Away(p) {
      assert Cur(s.cpus[c]) != Cur(s.cpus[d]);
    }
  }

  /** In every run, at most one CPU is inside ptable.lock, and it is the holder, through every context switch. */
  lemma OneInside(states: seq<State>, k: nat, c: nat)
    requires Run(states) && k < |states| && c < |states[k].cpus|
    ensures Inside(states[k], c) <==> states[k].lock == Some(c)
  {
    hide Run, Kin, Forks, Wakes, Inside;
    RunInv(states, k);
    assert CpuOk(states[k], c);
  }

  /** In every run, wait gives up on a process that was not killed only if it has no child at all. */
  lemma WaitFailsWithoutChildren(states: seq<State>, k: nat, c: nat, p: nat, i: nat)
    requires Run(states) && k < |states| && Runs(states[k], c, p) && EnabledProc(states[k], p, WaitFail)
    requires !states[k].procs[p].killed
    requires i < |states[k].procs|
    ensures states[k].procs[i].parent != Some(p)
  {
    hide Run, Control, Kin, Forks, ZombieOk;
    RunInv(states, k);
    assert ScanOk(states[k], p);
  }
}
