/** ptable.lock is never held for ever: whoever holds it can always take a step, and each step brings the release
    nearer. */
module ProcTurns {
  import opened Optional
  import opened ProcTable

  /** How far a CPU is from releasing ptable.lock: slots its scan has to go, the stage at the present slot, and for the
      process that runs there the scans it has to go and the slots of the present one. */
  datatype Rank = Rank(slots: nat, stage: nat, scans: nat, inner: nat)

  predicate Below(a: Rank, b: Rank) {
    || a.slots < b.slots
    || (a.slots == b.slots && a.stage < b.stage)
    || (a.slots == b.slots && a.stage == b.stage && a.scans < b.scans)
    || (a.slots == b.slots && a.stage == b.stage && a.scans == b.scans && a.inner < b.inner)
  }

  function Minus(n: nat, i: nat): nat {
    if i < n then n - i else 0
  }

  /** The scans that a thread has before it when it holds the lock. */
  function ScansLeft(pc: Pc, n: nat): nat {
    match pc
    case AllocScan(_) => 1
    case ExitWake(_) => 2 * n + 2
    case ExitScan(i) => 2 * Minus(n, i) + 1
    case ExitWakeInit(i, _) => 2 * Minus(n, i)
    case WaitScan(_, _) => 1
    case AfterWait => 2
    case WakeScan(_, _) => 1
    case KillScan(_, _) => 1
    case _ => 0
  }

  /** The slots that its present scan has to go. */
  function SlotsLeft(pc: Pc, n: nat): nat {
    match pc
    case AllocScan(i) => Minus(n, i)
    case ExitWake(i) => Minus(n, i)
    case ExitWakeInit(_, j) => Minus(n, j)
    case WaitScan(i, _) => Minus(n, i)
    case WakeScan(i, _) => Minus(n, i)
    case KillScan(i, _) => Minus(n, i)
    case _ => 0
  }

  function RankOf(s: State, c: nat): Rank
    requires c < |s.cpus|
  {
    var n := |s.procs|;
    match s.cpus[c]
    case Idle => Rank(0, 0, 0, 0)
    case Scan(i) => Rank(Minus(n, i), 5, 0, 0)
    case Picked(i) => Rank(Minus(n, i), 4, 0, 0)
    case Away(i) =>
      if i < n && s.procs[i].state == Running then
        Rank(Minus(n, i), 3, ScansLeft(s.procs[i].pc, n), SlotsLeft(s.procs[i].pc, n))
      else Rank(Minus(n, i), 2, 0, 0)
    case Back(i) => Rank(Minus(n, i), 1, 0, 0)
    case Intr(i, _) => Rank(Minus(n, i), 0, 0, 0)
  }

  lemma SchedAdvances(s: State, c: nat, a: Action)
    requires Control(s) && c < |s.cpus| && EnabledSched(s, c, a) && s.lock == Some(c)
    ensures var s' := ApplySched(s, c, a);
            |s'.cpus| == |s.cpus| && (s'.lock == Some(c) ==> Below(RankOf(s', c), RankOf(s, c)))
  {
    assert CpuOk(s, c);
  }

  /** Actions of exit. */
  predicate ExitAction(a: Action) {
    a.WakeParent? || a.WakeParentDone? || a.KeepOrPass? || a.WakeInit? || a.WakeInitDone? || a.BecomeZombie?
  }

  lemma ExitAdvances(s: State, c: nat, p: nat, a: Action)
    requires Control(s) && Runs(s, c, p) && EnabledProc(s, p, a) && ExitAction(a)
    ensures var s' := ApplyProc(s, c, p, a);
            s'.cpus == s.cpus && (s'.lock == Some(c) ==> Below(RankOf(s', c), RankOf(s, c)))
  {
    assert ThreadOk(s.procs[p], p, |s.procs|);
  }

  lemma ThreadAdvances(s: State, c: nat, p: nat, a: Action)
    requires Control(s) && Runs(s, c, p) && EnabledProc(s, p, a) && !ExitAction(a) && s.lock == Some(c)
    requires !Unlocked(s.procs[p].pc)
    ensures var s' := ApplyProc(s, c, p, a);
            s'.cpus == s.cpus && (s'.lock == Some(c) ==> Below(RankOf(s', c), RankOf(s, c)))
  {
    assert ThreadOk(s.procs[p], p, |s.procs|);
  }

  /** In every run, a step of the CPU that holds ptable.lock releases it or brings the release nearer. */
  lemma HolderAdvances(states: seq<State>, k: nat, l: nat, c: nat, a: Action)
    requires Run(states) && l == k + 1 && l < |states| && states[k].lock == Some(c)
    requires Step(states[k], c, a, states[l])
    ensures |states[l].cpus| == |states[k].cpus|
    ensures states[l].lock == Some(c) ==> Below(RankOf(states[l], c), RankOf(states[k], c))
  {
    hide Run, Below, RankOf, ApplyProc, ApplySched, EnabledProc, EnabledSched, Family, Wakes;
    RunInv(states, k);
    var s := states[k];
    if EnabledSched(s, c, a) && states[l] == ApplySched(s, c, a) {
      SchedAdvances(s, c, a);
    } else {
      var p := s.cpus[c].i;
      assert CpuOk(s, c);
      if ExitAction(a) { ExitAdvances(s, c, p, a); } else { ThreadAdvances(s, c, p, a); }
    }
  }

  /** What the thread of a process that holds the lock does next. */
  function NextAction(s: State, p: nat): Action
    requires p < |s.procs|
  {
    var pc, n := s.procs[p].pc, |s.procs|;
    match pc
    case AllocScan(i) => if i >= n then Leave else if s.procs[i].state == Unused then AllocFound else AllocSkip
    case ExitWake(i) => if i < n then WakeParent else WakeParentDone
    case ExitScan(i) => if i < n then KeepOrPass else BecomeZombie
    case ExitWakeInit(_, j) => if j < n then WakeInit else WakeInitDone
    case WaitScan(i, kids) =>
      if i < n then
        (if s.procs[i].parent != Some(p) then WaitSkip else if s.procs[i].state == Zombie then Reap else WaitKid)
      else if !kids || s.procs[p].killed then WaitFail else WaitSleep
    case AfterWait => WaitResume
    case Yielding => Yield
    case SleepSet(_) => Sleep
    case WakeScan(i, _) => if i < n then WakeOne else Leave
    case KillScan(i, pid) => if i >= n then Leave else if s.procs[i].pid == pid then KillHit else KillMiss
    case _ => Leave
  }

  lemma ThreadCanMove(s: State, c: nat, p: nat)
    requires Control(s) && Kin(s) && Wakes(s) && Runs(s, c, p) && s.lock == Some(c)
    ensures EnabledProc(s, p, NextAction(s, p))
  {
    hide ReapedOk, ZombieOk, NoChildBelow, NoZombieBelow;
    assert CpuOk(s, c) && ThreadOk(s.procs[p], p, |s.procs|) && FamilyOk(s, p) && ScanOk(s, p);
  }

  /** In every run, the CPU that holds ptable.lock can take a step. */
  lemma HolderCanMove(states: seq<State>, k: nat) returns (a: Action, s': State)
    requires Run(states) && k < |states| && states[k].lock.Some?
    ensures Step(states[k], states[k].lock.value, a, s')
  {
    hide Run, Kin, Forks, Wakes, ApplyProc, ApplySched, EnabledProc, NextAction;
    RunInv(states, k);
    var s, c := states[k], states[k].lock.value;
    assert CpuOk(s, c);
    if s.cpus[c].Away? && s.procs[s.cpus[c].i].state == Running {
      var p := s.cpus[c].i;
      ThreadCanMove(s, c, p);
      a := NextAction(s, p);
      s' := ApplyProc(s, c, p, a);
    } else {
      a := match s.cpus[c]
        case Scan(i) =>
          if i == |s.procs| then SchedRelease else if s.procs[i].state == Runnable then SchedPick else SchedSkip
        case Picked(_) => SchedRun
        case Back(_) => SchedBack
        case Intr(i, _) => if i < |s.procs| then IntrWake else IntrLeave
        case _ => Switch;
      s' := ApplySched(s, c, a);
    }
  }

  /** The steps of fork outside the lock. */
  function ForkLeft(pc: Pc): nat {
    if pc.Embryo1? then 2 else if pc.Embryo2? then 1 else 0
  }

  lemma OutsideStep(s: State, c: nat, p: nat, a: Action)
    requires Runs(s, c, p) && Unlocked(s.procs[p].pc) && ForkOk(s, p) && EnabledProc(s, p, a)
    ensures var s' := ApplyProc(s, c, p, a); var pc := s.procs[p].pc;
            && |s'.procs| == |s.procs|
            && if a.Enter? then s'.procs[p].pc == a.pc && s'.procs[p].back == pc && s'.lock == Some(c)
               else Unlocked(s'.procs[p].pc) && ForkLeft(s'.procs[p].pc) < ForkLeft(pc)
  {
    hide Entry;
  }

  /** In every run, a process outside the lock enters it for what it asked, and comes back to where it was; or it takes
      the next step of fork. */
  lemma OutsideAdvances(states: seq<State>, k: nat, l: nat, c: nat, p: nat, a: Action)
    requires Run(states) && l == k + 1 && l < |states| && Runs(states[k], c, p) && Unlocked(states[k].procs[p].pc)
    requires Step(states[k], c, a, states[l])
    ensures p < |states[l].procs|
    ensures var pc, me := states[k].procs[p].pc, states[l].procs[p];
            if a.Enter? then me.pc == a.pc && me.back == pc && states[l].lock == Some(c)
            else Unlocked(me.pc) && ForkLeft(me.pc) < ForkLeft(pc)
  {
    hide Run, Control, Kin, Wakes, ApplyProc, EnabledProc, Entry;
    RunInv(states, k);
    assert ForkOk(states[k], p);
    OutsideStep(states[k], c, p, a);
  }
}
