/** What the loops of wakeup and kill over the process table achieve, and which slots they spoil. */
module ProcScans {
  import opened Optional
  import opened ProcTable

  // ---- Scans ----

  /** No process in the first i slots sleeps on channel n. */
  predicate Swept(procs: seq<Proc>, i: nat, n: nat) {
    forall k :: 0 <= k < i && k < |procs| ==> !(procs[k].state == Sleeping && procs[k].chan == Other(n))
  }

  /** None of the first i slots has the pid. */
  predicate Missed(procs: seq<Proc>, i: nat, pid: nat) {
    forall k :: 0 <= k < i && k < |procs| ==> procs[k].pid != pid
  }

  predicate ProcScan(s: State, p: nat)
    requires p < |s.procs|
  {
    s.procs[p].state == Running ==>
      match s.procs[p].pc
      case WakeScan(i, n) => Swept(s.procs, i, n)
      case KillScan(i, pid) => Missed(s.procs, i, pid)
      case _ => true
  }

  predicate CpuScan(s: State, c: nat)
    requires c < |s.cpus|
  {
    s.cpus[c].Intr? ==> Swept(s.procs, s.cpus[c].i, s.cpus[c].n)
  }

  ghost predicate Scans(s: State) {
    && (forall p :: 0 <= p < |s.procs| ==> ProcScan(s, p))
    && (forall c :: 0 <= c < |s.cpus| ==> CpuScan(s, c))
  }

  /** A slot whose process does not fall asleep or change its pid, and which goes on as it was if it runs. */
  predicate Still(q: Proc, q': Proc) {
    && (q'.state == Sleeping ==> q.state == Sleeping && q'.chan == q.chan) && q'.pid == q.pid
    && (q'.state == Running ==> (q.state == Running && q'.pc == q.pc) || !(q'.pc.WakeScan? || q'.pc.KillScan?))
  }

  lemma StillScan(s: State, s': State, p: nat)
    requires |s'.procs| == |s.procs| && p < |s.procs| && ProcScan(s, p)
    requires forall k :: 0 <= k < |s.procs| ==> Still(s.procs[k], s'.procs[k])
    ensures ProcScan(s', p)
  {
    assert Still(s.procs[p], s'.procs[p]);
    assert forall k :: 0 <= k < |s.procs| ==>
        (s'.procs[k].state == Sleeping ==> s.procs[k].state == Sleeping && s'.procs[k].chan == s.procs[k].chan)
        && s'.procs[k].pid == s.procs[k].pid by {
      forall k | 0 <= k < |s.procs|
        ensures (s'.procs[k].state == Sleeping ==> s.procs[k].state == Sleeping && s'.procs[k].chan == s.procs[k].chan)
                && s'.procs[k].pid == s.procs[k].pid { assert Still(s.procs[k], s'.procs[k]); }
    }
  }

  lemma StillSwept(s: State, s': State, i: nat, n: nat)
    requires |s'.procs| == |s.procs| && Swept(s.procs, i, n)
    requires forall k :: 0 <= k < |s.procs| ==> Still(s.procs[k], s'.procs[k])
    ensures Swept(s'.procs, i, n)
  {
    forall k | 0 <= k < i && k < |s'.procs| ensures !(s'.procs[k].state == Sleeping && s'.procs[k].chan == Other(n)) {
      assert Still(s.procs[k], s'.procs[k]);
    }
  }

  lemma StillScans(s: State, s': State)
    requires Scans(s) && |s'.procs| == |s.procs| && s'.cpus == s.cpus
    requires forall k :: 0 <= k < |s.procs| ==> Still(s.procs[k], s'.procs[k])
    ensures Scans(s')
  {
    hide Still, Swept, ProcScan;
    forall p | 0 <= p < |s'.procs| ensures ProcScan(s', p) { StillScan(s, s', p); }
    forall c | 0 <= c < |s'.cpus| ensures CpuScan(s', c) {
      assert CpuScan(s, c);
      if s.cpus[c].Intr? { StillSwept(s, s', s.cpus[c].i, s.cpus[c].n); }
    }
  }

  // ---- Schedulers and interrupts ----

  lemma SchedStill(s: State, c: nat, a: Action, k: nat)
    requires c < |s.cpus| && EnabledSched(s, c, a) && CpuOk(s, c) && k < |s.procs|
    ensures |ApplySched(s, c, a).procs| == |s.procs| && Still(s.procs[k], ApplySched(s, c, a).procs[k])
  {
  }

  lemma SchedCpus(s: State, c: nat, a: Action)
    requires c < |s.cpus| && EnabledSched(s, c, a)
    ensures var s' := ApplySched(s, c, a);
            && s'.cpus == s.cpus[c := s'.cpus[c]]
            && (s'.cpus[c].Intr? ==>
                  || s'.cpus[c].i == 0
                  || (s.cpus[c].Intr? && a.IntrWake? && s'.cpus[c] == Intr(s.cpus[c].i + 1, s.cpus[c].n)))
  {
  }

  lemma SchedScans(s: State, c: nat, a: Action)
    requires Scans(s) && Control(s) && c < |s.cpus| && EnabledSched(s, c, a)
    ensures Scans(ApplySched(s, c, a))
  {
    hide ApplySched, EnabledSched, Still, Swept, ProcScan, CpuOk, ThreadOk;
    var s' := ApplySched(s, c, a);
    assert CpuOk(s, c);
    SchedCpus(s, c, a);
    SchedCount(s, c, a);
    forall k | 0 <= k < |s.procs| ensures Still(s.procs[k], s'.procs[k]) { SchedStill(s, c, a, k); }
    forall p | 0 <= p < |s'.procs| ensures ProcScan(s', p) { StillScan(s, s', p); }
    forall d | 0 <= d < |s'.cpus| ensures CpuScan(s', d) {
      assert CpuScan(s, d);
      if d != c && s.cpus[d].Intr? { StillSwept(s, s', s.cpus[d].i, s.cpus[d].n); }
      if d == c && s'.cpus[c].Intr? {
        if s'.cpus[c].i == 0 {
          NothingSwept(s'.procs, s'.cpus[c].n);
        } else {
          StillSwept(s, s', s.cpus[c].i, s.cpus[c].n);
          IntrSwept(s, c);
        }
      }
    }
  }

  lemma SchedCount(s: State, c: nat, a: Action)
    requires c < |s.cpus| && EnabledSched(s, c, a)
    ensures |ApplySched(s, c, a).procs| == |s.procs|
  {
  }

  lemma IntrSwept(s: State, c: nat)
    requires c < |s.cpus| && EnabledSched(s, c, IntrWake)
    requires Swept(ApplySched(s, c, IntrWake).procs, s.cpus[c].i, s.cpus[c].n)
    ensures Swept(ApplySched(s, c, IntrWake).procs, s.cpus[c].i + 1, s.cpus[c].n)
  {
  }

  lemma NothingSwept(procs: seq<Proc>, n: nat)
    ensures Swept(procs, 0, n) && Missed(procs, 0, n)
  {
  }

  // ---- Processes ----

  /** A step outside the lock, or one that only takes it. */
  lemma OutsideStill(s: State, c: nat, p: nat, a: Action, k: nat)
    requires p < |s.procs| && EnabledProc(s, p, a) && k < |s.procs| && Unlocked(s.procs[p].pc) && ForkOk(s, p)
    requires s.procs[p].state == Running && !a.Enter?
    ensures |ApplyProc(s, c, p, a).procs| == |s.procs| && Still(s.procs[k], ApplyProc(s, c, p, a).procs[k])
  {
  }

  lemma EnterScans(s: State, c: nat, p: nat, pc: Pc)
    requires Scans(s) && Runs(s, c, p) && EnabledProc(s, p, Enter(pc))
    ensures Scans(ApplyProc(s, c, p, Enter(pc)))
  {
    var s' := ApplyProc(s, c, p, Enter(pc));
    forall k | 0 <= k < |s'.procs| ensures ProcScan(s', k) { assert ProcScan(s, k); }
    forall d | 0 <= d < |s'.cpus| ensures CpuScan(s', d) { assert CpuScan(s, d); }
  }

  /** A step inside the lock: what the scan of the process itself has found. */
  lemma OwnScanRest(s: State, c: nat, p: nat, a: Action)
    requires Runs(s, c, p) && EnabledProc(s, p, a) && ProcScan(s, p) && !Unlocked(s.procs[p].pc)
    requires !ExitOrWait(a) && !ForkAction(a) && !WaitAction(a) && ThreadOk(s.procs[p], p, |s.procs|)
    ensures |ApplyProc(s, c, p, a).procs| == |s.procs| && ProcScan(ApplyProc(s, c, p, a), p)
  {
  }

  lemma OwnScanOther(s: State, c: nat, p: nat, a: Action)
    requires Runs(s, c, p) && EnabledProc(s, p, a) && !Unlocked(s.procs[p].pc)
    requires (ExitOrWait(a) || ForkAction(a) || WaitAction(a)) && ThreadOk(s.procs[p], p, |s.procs|)
    ensures |ApplyProc(s, c, p, a).procs| == |s.procs|
    ensures var q := ApplyProc(s, c, p, a).procs[p]; !q.pc.WakeScan? && !q.pc.KillScan?
  {
  }

  /** A process that runs after a step of another one ran before, at the same place. */
  predicate RanThere(s: State, s': State, k: nat)
    requires k < |s.procs| == |s'.procs|
  {
    s'.procs[k].state == Running ==> s.procs[k].state == Running && s'.procs[k].pc == s.procs[k].pc
  }

  lemma RanExitWait(s: State, c: nat, p: nat, a: Action, k: nat)
    requires Runs(s, c, p) && EnabledProc(s, p, a) && k < |s.procs| && k != p && WaitAction(a)
    ensures |ApplyProc(s, c, p, a).procs| == |s.procs| && RanThere(s, ApplyProc(s, c, p, a), k)
  {
  }

  lemma RanExitPass(s: State, c: nat, p: nat, a: Action, k: nat)
    requires Runs(s, c, p) && EnabledProc(s, p, a) && k < |s.procs| && k != p && ExitOrWait(a) && !WaitAction(a)
    ensures |ApplyProc(s, c, p, a).procs| == |s.procs| && RanThere(s, ApplyProc(s, c, p, a), k)
  {
  }

  lemma RanExit(s: State, c: nat, p: nat, a: Action, k: nat)
    requires Runs(s, c, p) && EnabledProc(s, p, a) && k < |s.procs| && k != p && (ExitOrWait(a) || WaitAction(a))
    ensures |ApplyProc(s, c, p, a).procs| == |s.procs| && RanThere(s, ApplyProc(s, c, p, a), k)
  {
    hide ApplyProc, EnabledProc, ThreadOk;
    if WaitAction(a) { RanExitWait(s, c, p, a, k); } else { RanExitPass(s, c, p, a, k); }
  }

  lemma RanRest(s: State, c: nat, p: nat, a: Action, k: nat)
    requires Runs(s, c, p) && EnabledProc(s, p, a) && k < |s.procs| && k != p && !ExitOrWait(a) && !WaitAction(a)
    ensures |ApplyProc(s, c, p, a).procs| == |s.procs| && RanThere(s, ApplyProc(s, c, p, a), k)
  {
  }

  lemma InsideScans(s: State, c: nat, p: nat, a: Action)
    requires Scans(s) && Control(s) && Runs(s, c, p) && EnabledProc(s, p, a) && !Unlocked(s.procs[p].pc)
    ensures Scans(ApplyProc(s, c, p, a))
  {
    hide ApplyProc, EnabledProc, Swept, Missed, ThreadOk;
    var s' := ApplyProc(s, c, p, a);
    SameCpus(s, c, p, a);
    assert ProcScan(s, p) && ThreadOk(s.procs[p], p, |s.procs|) && CpuOk(s, c);
    if ExitOrWait(a) || ForkAction(a) || WaitAction(a) { OwnScanOther(s, c, p, a); } else { OwnScanRest(s, c, p, a); }
    forall k | 0 <= k < |s'.procs| ensures ProcScan(s', k) {
      if k != p {
        if ExitOrWait(a) || WaitAction(a) { RanExit(s, c, p, a, k); } else { RanRest(s, c, p, a, k); }
        if s'.procs[k].state == Running { Alone(s, c, p, k); }
      }
    }
    forall d | 0 <= d < |s'.cpus| ensures CpuScan(s', d) {
      assert CpuOk(s, d);
    }
  }

  lemma ProcSteps(s: State, c: nat, p: nat, a: Action)
    requires Scans(s) && Control(s) && Family(s) && Runs(s, c, p) && EnabledProc(s, p, a)
    ensures Scans(ApplyProc(s, c, p, a))
  {
    hide ApplyProc, EnabledProc, Scans, Control, Kin, Still;
    if !Unlocked(s.procs[p].pc) {
      InsideScans(s, c, p, a);
    } else if a.Enter? {
      EnterScans(s, c, p, a.pc);
    } else {
      assert ForkOk(s, p);
      SameCpus(s, c, p, a);
      OutsideStill(s, c, p, a, p);
      forall k | 0 <= k < |s.procs| ensures Still(s.procs[k], ApplyProc(s, c, p, a).procs[k]) {
        OutsideStill(s, c, p, a, k);
      }
      StillScans(s, ApplyProc(s, c, p, a));
    }
  }

  lemma ScanStep(s: State, c: nat, a: Action, s': State)
    requires Inv(s) && Scans(s) && Step(s, c, a, s')
    ensures Scans(s')
  {
    hide Control, Kin, Forks, Wakes, Scans, ApplyProc, ApplySched, EnabledProc, EnabledSched;
    if EnabledSched(s, c, a) && s' == ApplySched(s, c, a) {
      SchedScans(s, c, a);
    } else {
      ProcSteps(s, c, s.cpus[c].i, a);
    }
  }

  lemma {:induction false} RunScans(states: seq<State>, k: nat)
    requires Run(states) && k < |states|
    ensures Inv(states[k]) && Scans(states[k])
  {
    hide Inv, Step, Boot, Scans;
    RunInv(states, k);
    if k == 0 {
      BootScans(states[0]);
    } else {
      RunScans(states, k - 1);
      assert Joined(states[k - 1], states[k]);
      var c: nat, a: Action :| Step(states[k - 1], c, a, states[k]);
      ScanStep(states[k - 1], c, a, states[k]);
    }
  }

  lemma BootScans(s: State)
    requires Boot(s)
    ensures Scans(s)
  {
    forall p | 0 <= p < |s.procs| ensures ProcScan(s, p) { assert p != s.init ==> s.procs[p].state == Unused; }
  }

  // ---- What wakeup and kill achieve ----

  /** In every run, when wakeup(n) of a process has gone through the table and is about to return, no process sleeps on
      that channel. */
  lemma WakeupWakes(states: seq<State>, k: nat, c: nat, p: nat, n: nat, q: nat)
    requires Run(states) && k < |states| && Runs(states[k], c, p) && EnabledProc(states[k], p, Leave)
    requires states[k].procs[p].pc == WakeScan(|states[k].procs|, n) && q < |states[k].procs|
    ensures !(states[k].procs[q].state == Sleeping && states[k].procs[q].chan == Other(n))
  {
    hide Run, Inv;
    RunScans(states, k);
    assert ProcScan(states[k], p);
  }

  /** The same for a wakeup by an interrupt handler on an idle CPU. */
  lemma InterruptWakes(states: seq<State>, k: nat, c: nat, n: nat, q: nat)
    requires Run(states) && k < |states| && c < |states[k].cpus| && EnabledSched(states[k], c, IntrLeave)
    requires states[k].cpus[c] == Intr(|states[k].procs|, n) && q < |states[k].procs|
    ensures !(states[k].procs[q].state == Sleeping && states[k].procs[q].chan == Other(n))
  {
    hide Run, Inv;
    RunScans(states, k);
    assert CpuScan(states[k], c);
  }

  /** In every run, kill gives up only if no slot has the pid. */
  lemma KillFails(states: seq<State>, k: nat, c: nat, p: nat, pid: nat, q: nat)
    requires Run(states) && k < |states| && Runs(states[k], c, p) && EnabledProc(states[k], p, Leave)
    requires states[k].procs[p].pc == KillScan(|states[k].procs|, pid) && q < |states[k].procs|
    ensures states[k].procs[q].pid != pid
  {
    hide Run, Inv;
    RunScans(states, k);
    assert ProcScan(states[k], p);
  }

  /** In every run, a process that a step marks as killed is not left asleep, and it is one that a running kill asked
      for. */
  lemma KilledIsAwake(states: seq<State>, k: nat, c: nat, a: Action, q: nat)
    requires Run(states) && k + 1 < |states| && Step(states[k], c, a, states[k + 1]) && q < |states[k].procs|
    requires !states[k].procs[q].killed
    ensures |states[k + 1].procs| == |states[k].procs|
    ensures states[k + 1].procs[q].killed ==>
              && states[k + 1].procs[q].state != Sleeping
              && Runs(states[k], c, states[k].cpus[c].i)
              && states[k].procs[states[k].cpus[c].i].pc == KillScan(q, states[k].procs[q].pid)
  {
    hide Run, Boot, Control, Kin, Wakes, Scans;
    RunScans(states, k);
    var s := states[k];
    if EnabledSched(s, c, a) && states[k + 1] == ApplySched(s, c, a) {
      SchedKills(s, c, a, q);
    } else {
      assert ForkOk(s, s.cpus[c].i);
      StepKills(s, c, s.cpus[c].i, a, q);
    }
  }

  lemma SchedKills(s: State, c: nat, a: Action, q: nat)
    requires c < |s.cpus| && EnabledSched(s, c, a) && q < |s.procs|
    ensures |ApplySched(s, c, a).procs| == |s.procs| && ApplySched(s, c, a).procs[q].killed == s.procs[q].killed
  {
  }

  lemma StepKills(s: State, c: nat, p: nat, a: Action, q: nat)
    requires Runs(s, c, p) && EnabledProc(s, p, a) && q < |s.procs| && !s.procs[q].killed
    ensures |ApplyProc(s, c, p, a).procs| == |s.procs|
    ensures ApplyProc(s, c, p, a).procs[q].killed ==>
              && ApplyProc(s, c, p, a).procs[q].state != Sleeping && a.KillHit?
              && s.procs[p].pc == KillScan(q, s.procs[q].pid)
  {
    if ExitOrWait(a) || WaitAction(a) { ExitKills(s, c, p, a, q); }
  }

  lemma ExitKillsWait(s: State, c: nat, p: nat, a: Action, q: nat)
    requires Runs(s, c, p) && EnabledProc(s, p, a) && q < |s.procs| && WaitAction(a)
    ensures |ApplyProc(s, c, p, a).procs| == |s.procs|
    ensures ApplyProc(s, c, p, a).procs[q].killed ==> s.procs[q].killed
  {
  }

  lemma ExitKillsPass(s: State, c: nat, p: nat, a: Action, q: nat)
    requires Runs(s, c, p) && EnabledProc(s, p, a) && q < |s.procs| && ExitOrWait(a) && !WaitAction(a)
    ensures |ApplyProc(s, c, p, a).procs| == |s.procs|
    ensures ApplyProc(s, c, p, a).procs[q].killed ==> s.procs[q].killed
  {
  }

  lemma ExitKills(s: State, c: nat, p: nat, a: Action, q: nat)
    requires Runs(s, c, p) && EnabledProc(s, p, a) && q < |s.procs| && (ExitOrWait(a) || WaitAction(a))
    ensures |ApplyProc(s, c, p, a).procs| == |s.procs|
    ensures ApplyProc(s, c, p, a).procs[q].killed ==> s.procs[q].killed
  {
    hide ApplyProc, EnabledProc, ThreadOk;
    if WaitAction(a) { ExitKillsWait(s, c, p, a, q); } else { ExitKillsPass(s, c, p, a, q); }
  }

  predicate MarkedKilled(s: State, q: nat, pid: nat) {
    q < |s.procs| && s.procs[q].pid == pid && s.procs[q].killed && s.procs[q].state != Sleeping
  }

  /** In every run, a kill that succeeds has marked a process with the pid, and returned. */
  lemma KillSucceeds(states: seq<State>, k: nat, l: nat, c: nat, p: nat, pid: nat)
    requires Run(states) && l == k + 1 && l < |states| && Step(states[k], c, KillHit, states[l])
    requires Runs(states[k], c, p) && states[k].procs[p].pc.KillScan? && states[k].procs[p].pc.pid == pid
    ensures exists q: nat :: MarkedKilled(states[l], q, pid)
    ensures p < |states[l].procs| && Unlocked(states[l].procs[p].pc) && states[l].lock == None
  {
    var i := states[k].procs[p].pc.i;
    assert MarkedKilled(states[l], i, pid);
  }

  // ---- Embryos ----

  /** Somebody is forking into every embryo. */
  ghost predicate Owned(s: State) {
    forall k: nat :: k < |s.procs| && s.procs[k].state == Embryo ==> HasOwner(s, k)
  }

  ghost predicate HasOwner(s: State, k: nat) {
    exists p: nat :: Owns(s, p, k)
  }

  predicate Owns(s: State, p: nat, k: nat) {
    p < |s.procs| && NewSlot(s.procs[p]) == Some(k)
  }

  lemma OwnerStaysExitWait(s: State, c: nat, p: nat, a: Action, q: nat, k: nat)
    requires Runs(s, c, p) && EnabledProc(s, p, a) && WaitAction(a) && Owns(s, q, k)
    requires ThreadOk(s.procs[p], p, |s.procs|) && k < |s.procs|
    ensures var s' := ApplyProc(s, c, p, a);
            |s'.procs| == |s.procs| && Owns(s', q, k) && (s'.procs[k].state == Embryo ==> s.procs[k].state == Embryo)
  {
  }

  lemma OwnerStaysExitPass(s: State, c: nat, p: nat, a: Action, q: nat, k: nat)
    requires Runs(s, c, p) && EnabledProc(s, p, a) && ExitOrWait(a) && !WaitAction(a) && Owns(s, q, k)
    requires ThreadOk(s.procs[p], p, |s.procs|) && k < |s.procs|
    ensures var s' := ApplyProc(s, c, p, a);
            |s'.procs| == |s.procs| && Owns(s', q, k) && (s'.procs[k].state == Embryo ==> s.procs[k].state == Embryo)
  {
  }

  lemma OwnerStaysExit(s: State, c: nat, p: nat, a: Action, q: nat, k: nat)
    requires Runs(s, c, p) && EnabledProc(s, p, a) && (ExitOrWait(a) || WaitAction(a)) && Owns(s, q, k)
    requires ThreadOk(s.procs[p], p, |s.procs|) && k < |s.procs|
    ensures var s' := ApplyProc(s, c, p, a);
            |s'.procs| == |s.procs| && Owns(s', q, k) && (s'.procs[k].state == Embryo ==> s.procs[k].state == Embryo)
  {
    hide ApplyProc, EnabledProc, ThreadOk;
    if WaitAction(a) { OwnerStaysExitWait(s, c, p, a, q, k); } else { OwnerStaysExitPass(s, c, p, a, q, k); }
  }

  lemma OwnerStaysRest(s: State, c: nat, p: nat, a: Action, q: nat, k: nat)
    requires Runs(s, c, p) && EnabledProc(s, p, a) && !ExitOrWait(a) && !WaitAction(a) && Owns(s, q, k)
    requires ThreadOk(s.procs[p], p, |s.procs|) && k < |s.procs| && ForkOk(s, p) && ForkOk(s, q)
    requires p == q || NewSlot(s.procs[p]).None? || NewSlot(s.procs[p]) != NewSlot(s.procs[q])
    ensures var s' := ApplyProc(s, c, p, a);
            |s'.procs| == |s.procs| && (s'.procs[k].state == Embryo ==> Owns(s', q, k))
  {
  }

  lemma NewEmbryos(s: State, c: nat, p: nat, a: Action, k: nat)
    requires Runs(s, c, p) && EnabledProc(s, p, a) && k < |s.procs|
    ensures var s' := ApplyProc(s, c, p, a);
            && |s'.procs| == |s.procs|
            && (s'.procs[k].state == Embryo ==> s.procs[k].state == Embryo || (a.AllocFound? && Owns(s', p, k)))
  {
  }

  lemma OwnedProc(s: State, c: nat, p: nat, a: Action)
    requires Control(s) && Forks(s) && Owned(s) && Runs(s, c, p) && EnabledProc(s, p, a)
    ensures Owned(ApplyProc(s, c, p, a))
  {
    hide ApplyProc, EnabledProc, ThreadOk, Owns, NewSlot, ForkOk, CpuOk;
    var s' := ApplyProc(s, c, p, a);
    NewEmbryos(s, c, p, a, p);
    forall k: nat | k < |s'.procs| && s'.procs[k].state == Embryo ensures HasOwner(s', k) {
      NewEmbryos(s, c, p, a, k);
      if s.procs[k].state == Embryo {
        var q: nat :| Owns(s, q, k);
        OwnerStays(s, c, p, a, q, k);
      }
    }
  }

  lemma OwnerStays(s: State, c: nat, p: nat, a: Action, q: nat, k: nat)
    requires Control(s) && Forks(s) && Runs(s, c, p) && EnabledProc(s, p, a) && Owns(s, q, k) && k < |s.procs|
    ensures var s' := ApplyProc(s, c, p, a); |s'.procs| == |s.procs| && (s'.procs[k].state == Embryo ==> Owns(s', q, k))
  {
    hide ApplyProc, EnabledProc, ThreadOk, ForkOk, CpuOk, NewSlot;
    assert ThreadOk(s.procs[p], p, |s.procs|) && ForkOk(s, p) && ForkOk(s, q);
    if ExitOrWait(a) || WaitAction(a) {
      OwnerStaysExit(s, c, p, a, q, k);
    } else {
      assert p == q || NewSlot(s.procs[p]).None? || NewSlot(s.procs[p]) != NewSlot(s.procs[q]) by {
        if p < q { assert NewSlot(s.procs[p]).None? || NewSlot(s.procs[p]) != NewSlot(s.procs[q]); }
        if q < p { assert NewSlot(s.procs[q]).None? || NewSlot(s.procs[q]) != NewSlot(s.procs[p]); }
      }
      OwnerStaysRest(s, c, p, a, q, k);
    }
  }

  lemma OwnedSched(s: State, c: nat, a: Action)
    requires Control(s) && Owned(s) && c < |s.cpus| && EnabledSched(s, c, a)
    ensures Owned(ApplySched(s, c, a))
  {
    hide ThreadOk;
    assert CpuOk(s, c);
    var s' := ApplySched(s, c, a);
    forall k: nat | k < |s'.procs| && s'.procs[k].state == Embryo ensures HasOwner(s', k) {
      var q: nat :| Owns(s, q, k);
      assert Owns(s', q, k);
    }
  }

  // ---- Pids ----

  /** Every pid was given out once, and none that wait has returned is left in the table, not even in a free slot. */
  ghost predicate Pids(s: State) {
    && (forall p :: 0 <= p < |s.procs| ==> s.procs[p].pid < s.nextpid && s.procs[p].pid !in s.reaped)
    && (forall p, q :: 0 <= p < q < |s.procs| ==> s.procs[p].pid != s.procs[q].pid || s.procs[p].pid == 0)
    && 0 !in s.reaped
  }

  /** The step changes no pid and reaps nobody. */
  lemma SamePids(s: State, s': State)
    requires Pids(s) && |s'.procs| == |s.procs| && s'.nextpid == s.nextpid && s'.reaped == s.reaped
    requires forall k :: 0 <= k < |s.procs| ==> s'.procs[k].pid == s.procs[k].pid
    ensures Pids(s')
  {
  }

  lemma KeepsPids(s: State, c: nat, p: nat, a: Action, k: nat)
    requires Runs(s, c, p) && EnabledProc(s, p, a) && !a.AllocFound? && !a.Reap? && k < |s.procs|
    ensures var s' := ApplyProc(s, c, p, a);
            && |s'.procs| == |s.procs| && s'.nextpid == s.nextpid && s'.reaped == s.reaped
            && s'.procs[k].pid == s.procs[k].pid
  {
  }

  lemma AllocPids(s: State, c: nat, p: nat)
    requires Pids(s) && Kin(s) && Runs(s, c, p) && EnabledProc(s, p, AllocFound)
    ensures Pids(ApplyProc(s, c, p, AllocFound))
  {
    var s' := ApplyProc(s, c, p, AllocFound);
    assert ReapedOk(s);
    assert s.nextpid !in s.reaped;
  }

  lemma OnePid(s: State, p: nat, q: nat)
    requires Pids(s) && p < q < |s.procs|
    ensures s.procs[p].pid != s.procs[q].pid || s.procs[p].pid == 0
  {
  }

  lemma ReapPids(s: State, c: nat, p: nat)
    requires Pids(s) && Kin(s) && Runs(s, c, p) && EnabledProc(s, p, Reap)
    ensures Pids(ApplyProc(s, c, p, Reap))
  {
    var s', i := ApplyProc(s, c, p, Reap), s.procs[p].pc.i;
    assert FamilyOk(s, i);
    forall k | 0 <= k < |s'.procs| && k != i ensures s'.procs[k].pid != s.procs[i].pid {
      if k < i { OnePid(s, k, i); } else { OnePid(s, i, k); }
    }
  }

  lemma SchedPids(s: State, c: nat, a: Action, k: nat)
    requires c < |s.cpus| && EnabledSched(s, c, a) && k < |s.procs|
    ensures var s' := ApplySched(s, c, a);
            && |s'.procs| == |s.procs| && s'.nextpid == s.nextpid && s'.reaped == s.reaped
            && s'.procs[k].pid == s.procs[k].pid
  {
  }

  lemma PidStep(s: State, c: nat, a: Action, s': State)
    requires Inv(s) && Pids(s) && Step(s, c, a, s')
    ensures Pids(s')
  {
    hide Control, Kin, Wakes, ApplyProc, ApplySched, EnabledProc, EnabledSched, Pids, Forks;
    InitExists(s);
    if EnabledSched(s, c, a) && s' == ApplySched(s, c, a) {
      SchedPids(s, c, a, s.init);
      forall k | 0 <= k < |s.procs| ensures s'.procs[k].pid == s.procs[k].pid { SchedPids(s, c, a, k); }
      SamePids(s, s');
    } else {
      var p := s.cpus[c].i;
      if a.AllocFound? {
        AllocPids(s, c, p);
      } else if a.Reap? {
        ReapPids(s, c, p);
      } else {
        KeepsPids(s, c, p, a, p);
        forall k | 0 <= k < |s.procs| ensures s'.procs[k].pid == s.procs[k].pid { KeepsPids(s, c, p, a, k); }
        SamePids(s, s');
      }
    }
  }

  lemma {:induction false} RunPids(states: seq<State>, k: nat)
    requires Run(states) && k < |states|
    ensures Pids(states[k])
  {
    hide Inv, Boot, Pids, Step;
    if k == 0 {
      BootPids(states[0]);
    } else {
      RunPids(states, k - 1);
      RunInv(states, k - 1);
      assert Joined(states[k - 1], states[k]);
      var c: nat, a: Action :| Step(states[k - 1], c, a, states[k]);
      PidStep(states[k - 1], c, a, states[k]);
    }
  }

  lemma BootPids(s: State)
    requires Boot(s)
    ensures Pids(s)
  {
    assert forall k :: 0 <= k < |s.procs| && k != s.init ==>
        s.procs[k] == Proc(Unused, 0, None, NoChan, false, Outside, Outside);
  }

  /** In every run, a pid that wait has returned is found in no slot any more, so that kill of it fails. */
  lemma ReapedIsGone(states: seq<State>, k: nat, q: nat)
    requires Run(states) && k < |states| && q < |states[k].procs|
    ensures states[k].procs[q].pid !in states[k].reaped
  {
    hide Run;
    RunPids(states, k);
  }

  // ---- Passes of the scheduler ----

  /** One step of the whole machine, as seen from CPU c. */
  predicate CpuMoves(s: State, s': State, c: nat)
    requires c < |s.cpus| == |s'.cpus|
  {
    var x, y := s.cpus[c], s'.cpus[c];
    || y == x
    || (match x
        case Scan(i) =>
          || (i < |s.procs| && y == if s.procs[i].state == Runnable then Picked(i) else Scan(i + 1))
          || (i == |s.procs| && y.Idle?)
        case Picked(i) => y == Away(i)
        case Away(i) => y == Back(i)
        case Back(i) => y == Scan(i + 1)
        case Idle => y == Scan(0) || (y.Intr? && y.i == 0)
        case Intr(i, n) => y == Intr(i + 1, n) || y.Idle?)
  }

  lemma CpuStep(s: State, c: nat, a: Action, s': State, d: nat)
    requires Step(s, c, a, s') && d < |s.cpus|
    ensures |s'.cpus| == |s.cpus| && |s'.procs| == |s.procs| && CpuMoves(s, s', d)
  {
    hide ApplyProc, EnabledProc;
    if EnabledSched(s, c, a) && s' == ApplySched(s, c, a) {
    } else {
      SameCpus(s, c, s.cpus[c].i, a);
      SameSlots(s, c, s.cpus[c].i, a);
    }
  }

  lemma SameSlots(s: State, c: nat, p: nat, a: Action)
    requires p < |s.procs| && EnabledProc(s, p, a)
    ensures |ApplyProc(s, c, p, a).procs| == |s.procs|
  {
  }

  lemma RunCpu(states: seq<State>, k: nat, l: nat, c: nat)
    requires Run(states) && l == k + 1 && l < |states| && c < |states[k].cpus|
    ensures |states[l].cpus| == |states[k].cpus| && |states[l].procs| == |states[k].procs|
    ensures CpuMoves(states[k], states[l], c)
  {
    hide Step, Boot, CpuMoves;
    assert Joined(states[k], states[l]);
    var d: nat, a: Action :| Step(states[k], d, a, states[l]);
    CpuStep(states[k], d, a, states[l], c);
  }

  /** How far the scheduler of a CPU is in its pass over the table. */
  function Reached(cpu: Cpu): nat {
    if cpu.Idle? || cpu.Intr? then 0 else cpu.i
  }

  predicate InPass(cpu: Cpu) {
    !cpu.Idle? && !cpu.Intr?
  }

  /** At state m the scheduler of CPU c looks at slot q, and runs the process there exactly if it can run. */
  predicate Visits(states: seq<State>, c: nat, q: nat, m: nat, l: nat) {
    && l == m + 1 && l < |states| && c < |states[m].cpus| && c < |states[l].cpus| && q < |states[m].procs|
    && states[m].cpus[c] == Scan(q)
    && states[l].cpus[c] == if states[m].procs[q].state == Runnable then Picked(q) else Scan(q + 1)
  }

  /** A pass that has got as far as slot q, or is past it, has visited it. */
  lemma {:induction false} Visited(states: seq<State>, k: nat, l: nat, c: nat, q: nat) returns (m: nat, n: nat)
    requires Run(states) && k <= l < |states| && c < |states[k].cpus| && states[k].cpus[c] == Scan(0)
    requires forall j :: k <= j <= l ==> |states[j].cpus| == |states[k].cpus| && InPass(states[j].cpus[c])
    requires forall j :: k <= j <= l ==> |states[j].procs| == |states[k].procs|
    requires q < |states[k].procs|
    requires q < Reached(states[l].cpus[c]) || (q == Reached(states[l].cpus[c]) && !states[l].cpus[c].Scan?)
    ensures k <= m < l && Visits(states, c, q, m, n)
    decreases l
  {
    hide Run;
    var x := states[l - 1].cpus[c];
    RunCpu(states, l - 1, l, c);
    if q < Reached(x) || (q == Reached(x) && !x.Scan?) {
      m, n := Visited(states, k, l - 1, c, q);
    } else {
      m, n := l - 1, l;
    }
  }

  lemma {:induction false} SameSizes(states: seq<State>, k: nat)
    requires Run(states) && k < |states|
    ensures |states[k].cpus| == |states[0].cpus| && |states[k].procs| == |states[0].procs|
    decreases k
  {
    hide Boot, Joined;
    if k > 0 {
      SameSizes(states, k - 1);
      RunSizes(states, k - 1, k);
    }
  }

  lemma RunSizes(states: seq<State>, k: nat, l: nat)
    requires Run(states) && l == k + 1 && l < |states|
    ensures |states[l].cpus| == |states[k].cpus| && |states[l].procs| == |states[k].procs|
  {
    hide Boot, ApplyProc, EnabledProc;
    assert Joined(states[k], states[l]);
    var d: nat, a: Action :| Step(states[k], d, a, states[l]);
    CpuStep(states[k], d, a, states[l], d);
  }

  /** In every run, a pass of a scheduler over the process table, from slot 0 to the end, looks at every slot, and runs
      the process there exactly if it is RUNNABLE at that moment. */
  lemma PassVisitsAll(states: seq<State>, k: nat, l: nat, c: nat, q: nat) returns (m: nat, n: nat)
    requires Run(states) && k <= l < |states| && c < |states[k].cpus| && c < |states[l].cpus| && q < |states[k].procs|
    requires states[k].cpus[c] == Scan(0) && states[l].cpus[c] == Scan(|states[l].procs|)
    requires forall j :: k <= j <= l ==> c < |states[j].cpus| && InPass(states[j].cpus[c])
    ensures k <= m < l && Visits(states, c, q, m, n)
  {
    hide Run, Visits;
    forall j | k <= j <= l
      ensures |states[j].cpus| == |states[k].cpus| && |states[j].procs| == |states[k].procs| {
      SameSizes(states, j);
      SameSizes(states, k);
    }
    m, n := Visited(states, k, l, c, q);
  }

  // ---- The search for a free slot ----

  /** The search of allocproc moves on by one slot, and only past a slot in use. */
  predicate AllocMoves(s: State, s': State, p: nat)
    requires p < |s.procs| == |s'.procs|
  {
    var x, y := s.procs[p].pc, s'.procs[p].pc;
    x.AllocScan? && y.AllocScan? ==>
      y == x || (x.i < |s.procs| && y.i == x.i + 1 && s.procs[x.i].state != Unused)
  }

  lemma AllocOwn(s: State, c: nat, p: nat, a: Action)
    requires Runs(s, c, p) && EnabledProc(s, p, a) && ThreadOk(s.procs[p], p, |s.procs|)
    ensures |ApplyProc(s, c, p, a).procs| == |s.procs| && AllocMoves(s, ApplyProc(s, c, p, a), p)
  {
  }

  lemma AllocOthersExit(s: State, c: nat, q: nat, a: Action, p: nat)
    requires Runs(s, c, q) && EnabledProc(s, q, a) && p < |s.procs| && p != q && ExitOrWait(a)
    ensures |ApplyProc(s, c, q, a).procs| == |s.procs| && ApplyProc(s, c, q, a).procs[p].pc == s.procs[p].pc
  {
  }

  lemma AllocOthersRest(s: State, c: nat, q: nat, a: Action, p: nat)
    requires Runs(s, c, q) && EnabledProc(s, q, a) && p < |s.procs| && p != q && !ExitOrWait(a)
    ensures |ApplyProc(s, c, q, a).procs| == |s.procs|
    ensures ApplyProc(s, c, q, a).procs[p].pc == s.procs[p].pc || ApplyProc(s, c, q, a).procs[p].pc.ForkRet?
  {
  }

  lemma AllocSched(s: State, c: nat, a: Action, p: nat)
    requires c < |s.cpus| && EnabledSched(s, c, a) && p < |s.procs|
    ensures |ApplySched(s, c, a).procs| == |s.procs| && ApplySched(s, c, a).procs[p].pc == s.procs[p].pc
  {
  }

  lemma RunAlloc(states: seq<State>, k: nat, l: nat, p: nat)
    requires Run(states) && l == k + 1 && l < |states| && p < |states[k].procs|
    ensures |states[l].procs| == |states[k].procs| && AllocMoves(states[k], states[l], p)
  {
    hide Boot, ApplyProc, ApplySched, EnabledProc, EnabledSched, Kin, Forks, Wakes, ThreadOk, CpuOk;
    RunInv(states, k);
    assert Joined(states[k], states[l]);
    var s := states[k];
    assert ThreadOk(s.procs[p], p, |s.procs|);
    var c: nat, a: Action :| Step(s, c, a, states[l]);
    if EnabledSched(s, c, a) && states[l] == ApplySched(s, c, a) {
      AllocSched(s, c, a, p);
    } else {
      var q := s.cpus[c].i;
      if q == p {
        AllocOwn(s, c, p, a);
      } else if ExitOrWait(a) {
        AllocOthersExit(s, c, q, a, p);
      } else {
        AllocOthersRest(s, c, q, a, p);
      }
    }
  }

  /** In every run, the search of allocproc that has come to slot i without finding a free one has looked at every slot
      before it, and found it in use at that moment: fork gives up only then. */
  lemma {:induction false} AllocVisitsAll(states: seq<State>, k: nat, l: nat, p: nat, q: nat) returns (m: nat)
    requires Run(states) && k <= l < |states| && p < |states[k].procs| && states[k].procs[p].pc == AllocScan(0)
    requires forall j :: k <= j <= l ==> p < |states[j].procs| && states[j].procs[p].pc.AllocScan?
    requires q < states[l].procs[p].pc.i
    ensures k <= m < l && p < |states[m].procs| && q < |states[m].procs|
    ensures states[m].procs[p].pc == AllocScan(q) && states[m].procs[q].state != Unused
    decreases l
  {
    hide Run;
    RunAlloc(states, l - 1, l, p);
    if q < states[l - 1].procs[p].pc.i {
      m := AllocVisitsAll(states, k, l - 1, p, q);
    } else {
      m := l - 1;
    }
  }

  // ---- Channels ----

  /** Only a process in the middle of sleep has a channel. */
  predicate ChanOk(q: Proc) {
    q.chan != NoChan ==> q.pc.AfterWait? || q.pc.AfterSleep?
  }

  ghost predicate Chans(s: State) {
    forall k :: 0 <= k < |s.procs| ==> ChanOk(s.procs[k]) && (s.procs[k].state == Unused ==> s.procs[k].chan == NoChan)
  }

  lemma ChanExit(s: State, c: nat, p: nat, a: Action, k: nat)
    requires Chans(s) && Runs(s, c, p) && EnabledProc(s, p, a) && ExitOrWait(a) && k < |s.procs|
    requires ThreadOk(s.procs[k], k, |s.procs|)
    ensures var s' := ApplyProc(s, c, p, a);
            && |s'.procs| == |s.procs| && ChanOk(s'.procs[k])
            && (s'.procs[k].state == Unused ==> s'.procs[k].chan == NoChan)
  {
  }

  lemma ChanRest(s: State, c: nat, p: nat, a: Action, k: nat)
    requires Chans(s) && Runs(s, c, p) && EnabledProc(s, p, a) && !ExitOrWait(a) && k < |s.procs| && ForkOk(s, p)
    requires ThreadOk(s.procs[k], k, |s.procs|)
    ensures var s' := ApplyProc(s, c, p, a);
            && |s'.procs| == |s.procs| && ChanOk(s'.procs[k])
            && (s'.procs[k].state == Unused ==> s'.procs[k].chan == NoChan)
  {
  }

  lemma ChanSched(s: State, c: nat, a: Action)
    requires Chans(s) && c < |s.cpus| && EnabledSched(s, c, a) && CpuOk(s, c)
    ensures Chans(ApplySched(s, c, a))
  {
  }

  lemma ChanStep(s: State, c: nat, a: Action, s': State)
    requires Inv(s) && Chans(s) && Step(s, c, a, s')
    ensures Chans(s')
  {
    hide Kin, Wakes, ThreadOk, ForkOk, CpuOk, ApplyProc, ApplySched, EnabledProc, EnabledSched, Chans, ChanOk;
    assert CpuOk(s, c);
    if EnabledSched(s, c, a) && s' == ApplySched(s, c, a) {
      ChanSched(s, c, a);
    } else {
      var p := s.cpus[c].i;
      assert ForkOk(s, p);
      SameSlots(s, c, p, a);
      forall k | 0 <= k < |s'.procs|
        ensures ChanOk(s'.procs[k]) && (s'.procs[k].state == Unused ==> s'.procs[k].chan == NoChan) {
        if ExitOrWait(a) { ChanExit(s, c, p, a, k); } else { ChanRest(s, c, p, a, k); }
      }
      ChansFrom(s');
    }
  }

  lemma ChansFrom(s: State)
    requires forall k :: 0 <= k < |s.procs| ==>
               ChanOk(s.procs[k]) && (s.procs[k].state == Unused ==> s.procs[k].chan == NoChan)
    ensures Chans(s)
  {
  }

  /** In every run, a process that is not in sleep has no channel, and one that sleeps has that of its call: its own
      address in wait, else the one it was given. */
  lemma ChannelsAreCurrent(states: seq<State>, k: nat, q: nat)
    requires Run(states) && k < |states| && q < |states[k].procs|
    ensures var me := states[k].procs[q];
            && (me.chan != NoChan ==> me.pc.AfterWait? || me.pc.AfterSleep?)
            && (me.state == Sleeping ==>
                  (me.pc.AfterWait? && me.chan == Of(q)) || (me.pc.AfterSleep? && me.chan == Other(me.pc.n)))
  {
    hide Run, Kin, Forks, Wakes;
    RunChans(states, k);
    RunInv(states, k);
    assert ChanOk(states[k].procs[q]) && ThreadOk(states[k].procs[q], q, |states[k].procs|);
  }

  /** In every run, sleep(n) puts the process to sleep on channel n. */
  lemma SleepsWhereAsked(states: seq<State>, k: nat, l: nat, c: nat, p: nat, n: nat)
    requires Run(states) && l == k + 1 && l < |states| && Runs(states[k], c, p) && states[k].procs[p].pc == SleepSet(n)
    requires Step(states[k], c, Sleep, states[l])
    ensures p < |states[l].procs| && states[l].procs[p].state == Sleeping && states[l].procs[p].chan == Other(n)
  {
    hide Run;
  }

  lemma {:induction false} RunChans(states: seq<State>, k: nat)
    requires Run(states) && k < |states|
    ensures Chans(states[k])
  {
    hide Inv, Boot, Chans, Step;
    if k == 0 {
      BootChans(states[0]);
    } else {
      RunChans(states, k - 1);
      RunInv(states, k - 1);
      assert Joined(states[k - 1], states[k]);
      var c: nat, a: Action :| Step(states[k - 1], c, a, states[k]);
      ChanStep(states[k - 1], c, a, states[k]);
    }
  }

  lemma BootChans(s: State)
    requires Boot(s)
    ensures Chans(s)
  {
    assert forall k :: 0 <= k < |s.procs| && k != s.init ==>
        s.procs[k] == Proc(Unused, 0, None, NoChan, false, Outside, Outside);
  }

  // ---- Stale kills ----

  /** No free slot is marked as killed, so that a process starts unmarked. */
  ghost predicate Clean(s: State) {
    forall k: nat :: k < |s.procs| && s.procs[k].state == Unused ==> !s.procs[k].killed
  }

  /** kill finds its pid in a free slot (pid 0, or that of a fork that failed), or a fork fails whose embryo was killed
      already. */
  predicate Soils(s: State, c: nat, a: Action)
    requires c < |s.cpus|
  {
    && s.cpus[c].Away? && Runs(s, c, s.cpus[c].i) && EnabledProc(s, s.cpus[c].i, a)
    && var pc := s.procs[s.cpus[c].i].pc;
       || (a.KillHit? && s.procs[pc.i].state == Unused)
       || (a.EmbryoFail? && s.procs[pc.np].killed)
  }

  lemma CleanSched(s: State, c: nat, a: Action)
    requires Clean(s) && c < |s.cpus| && EnabledSched(s, c, a) && CpuOk(s, c)
    ensures Clean(ApplySched(s, c, a))
  {
  }

  lemma CleanExit(s: State, c: nat, p: nat, a: Action, k: nat)
    requires Clean(s) && Runs(s, c, p) && EnabledProc(s, p, a) && (ExitOrWait(a) || WaitAction(a)) && k < |s.procs|
    ensures var s' := ApplyProc(s, c, p, a);
            |s'.procs| == |s.procs| && (s'.procs[k].state == Unused ==> !s'.procs[k].killed)
  {
  }

  lemma CleanRest(s: State, c: nat, p: nat, a: Action, k: nat)
    requires Clean(s) && Runs(s, c, p) && EnabledProc(s, p, a) && !ExitOrWait(a) && !WaitAction(a) && k < |s.procs|
    requires !Soils(s, c, a)
    ensures var s' := ApplyProc(s, c, p, a);
            |s'.procs| == |s.procs| && (s'.procs[k].state == Unused ==> !s'.procs[k].killed)
  {
  }

  lemma SoilsSlot(s: State, c: nat, p: nat, a: Action)
    requires Runs(s, c, p) && EnabledProc(s, p, a) && Soils(s, c, a) && ForkOk(s, p) && s.procs[p].state == Running
    ensures !Clean(ApplyProc(s, c, p, a))
  {
    var pc := s.procs[p].pc;
    var k := if a.KillHit? then pc.i else pc.np;
    assert ApplyProc(s, c, p, a).procs[k].state == Unused && ApplyProc(s, c, p, a).procs[k].killed;
  }

  /** Free slots stay unmarked in every step except those. */
  lemma CleanStep(s: State, c: nat, a: Action, s': State)
    requires Inv(s) && Clean(s) && Step(s, c, a, s')
    ensures Clean(s') <==> !Soils(s, c, a)
  {
    hide Kin, Wakes, ThreadOk, ForkOk, CpuOk, ApplyProc, ApplySched, EnabledProc, EnabledSched, Clean;
    assert CpuOk(s, c);
    if EnabledSched(s, c, a) && s' == ApplySched(s, c, a) {
      NotBoth(s, c, a);
      CleanSched(s, c, a);
    } else {
      var p := s.cpus[c].i;
      assert ForkOk(s, p);
      if Soils(s, c, a) { SoilsSlot(s, c, p, a); } else { CleanProc(s, c, p, a); }
    }
  }

  lemma NotBoth(s: State, c: nat, a: Action)
    requires c < |s.cpus| && EnabledSched(s, c, a)
    ensures !Soils(s, c, a)
  {
  }

  lemma CleanProc(s: State, c: nat, p: nat, a: Action)
    requires Clean(s) && Runs(s, c, p) && EnabledProc(s, p, a) && !Soils(s, c, a)
    ensures Clean(ApplyProc(s, c, p, a))
  {
    hide ApplyProc, EnabledProc, Soils;
    forall k: nat | k < |ApplyProc(s, c, p, a).procs| && ApplyProc(s, c, p, a).procs[k].state == Unused
      ensures !ApplyProc(s, c, p, a).procs[k].killed {
      NewEmbryos(s, c, p, a, p);
      if ExitOrWait(a) || WaitAction(a) { CleanExit(s, c, p, a, k); } else { CleanRest(s, c, p, a, k); }
    }
  }

  lemma {:induction false} RunOwned(states: seq<State>, k: nat)
    requires Run(states) && k < |states|
    ensures Owned(states[k])
  {
    hide Control, Kin, Forks, Wakes, Boot, Owned, ApplyProc, ApplySched, EnabledProc, EnabledSched;
    if k == 0 {
      BootClean(states[0]);
    } else {
      RunOwned(states, k - 1);
      RunInv(states, k - 1);
      assert Joined(states[k - 1], states[k]);
      var s := states[k - 1];
      var c: nat, a: Action :| Step(s, c, a, states[k]);
      if EnabledSched(s, c, a) && states[k] == ApplySched(s, c, a) {
        OwnedSched(s, c, a);
      } else {
        OwnedProc(s, c, s.cpus[c].i, a);
      }
    }
  }

  lemma BootClean(s: State)
    requires Boot(s)
    ensures Owned(s) && Clean(s)
  {
    assert forall k: nat :: k < |s.procs| && k != s.init ==>
        s.procs[k] == Proc(Unused, 0, None, NoChan, false, Outside, Outside);
  }

  /** In every run, each embryo belongs to a process in the middle of fork: none is left behind, whether fork succeeds
      or fails. */
  lemma NoEmbryoLeft(states: seq<State>, k: nat, e: nat)
    requires Run(states) && k < |states| && e < |states[k].procs| && states[k].procs[e].state == Embryo
    ensures exists p: nat :: p < |states[k].procs| && NewSlot(states[k].procs[p]) == Some(e)
  {
    hide Run;
    RunOwned(states, k);
    assert HasOwner(states[k], e);
    var p: nat :| Owns(states[k], p, e);
  }

  /** No soiling step among the first k. */
  ghost predicate NoSoiling(states: seq<State>, k: nat) {
    forall j: nat, l: nat, c: nat, a: Action ::
      (j < k && l == j + 1 && l < |states| && c < |states[j].cpus| && Step(states[j], c, a, states[l])) ==>
        !Soils(states[j], c, a)
  }

  lemma {:induction false} RunClean(states: seq<State>, k: nat)
    requires Run(states) && k < |states| && NoSoiling(states, k)
    ensures Clean(states[k])
  {
    hide Inv, Boot, Clean, Soils, Step;
    if k == 0 {
      BootClean(states[0]);
    } else {
      RunClean(states, k - 1);
      RunInv(states, k - 1);
      assert Joined(states[k - 1], states[k]);
      var c: nat, a: Action :| Step(states[k - 1], c, a, states[k]);
      StepCpu(states[k - 1], c, a, states[k]);
      CleanStep(states[k - 1], c, a, states[k]);
    }
  }

  lemma StepCpu(s: State, c: nat, a: Action, s': State)
    requires Step(s, c, a, s')
    ensures c < |s.cpus|
  {
  }

  /** For every run: no free slot is ever marked as killed, so that every new process starts unmarked, if and only if no
      kill finds its pid in a free slot and no fork fails after its embryo was killed. */
  lemma StartsUnkilled(states: seq<State>)
    requires Run(states)
    ensures (forall k: nat :: k < |states| ==> Clean(states[k])) <==> NoSoiling(states, |states|)
  {
    hide Inv, Boot, Clean, Soils, Step, Joined;
    if NoSoiling(states, |states|) {
      forall k: nat | k < |states| ensures Clean(states[k]) { RunClean(states, k); }
    }
    if forall k: nat :: k < |states| ==> Clean(states[k]) {
      forall j: nat, l: nat, c: nat, a: Action
        | l == j + 1 && l < |states| && c < |states[j].cpus| && Step(states[j], c, a, states[l])
        ensures !Soils(states[j], c, a) {
        RunInv(states, j);
        CleanStep(states[j], c, a, states[l]);
      }
    }
  }

  // ---- A run with a stale kill ----

  /** init and a free slot, on one CPU. */
  function Small(state: PState, pc: Pc, killed: bool, cpu: Cpu, lock: Option<nat>): State {
    State([Proc(state, 1, None, NoChan, false, pc, Outside), Proc(Unused, 0, None, NoChan, killed, Outside, Outside)],
          [cpu], lock, 2, 0, [])
  }

  function Scene(k: nat): State {
    if k == 0 then Small(Runnable, ForkRet, false, Cpu.Idle, None)
    else if k == 1 then Small(Runnable, ForkRet, false, Scan(0), Some(0))
    else if k == 2 then Small(Runnable, ForkRet, false, Picked(0), Some(0))
    else if k == 3 then Small(Running, ForkRet, false, Away(0), Some(0))
    else if k == 4 then Small(Running, Outside, false, Away(0), None)
    else if k == 5 then Small(Running, KillScan(0, 0), false, Away(0), Some(0))
    else if k == 6 then Small(Running, KillScan(1, 0), false, Away(0), Some(0))
    else Small(Running, Outside, true, Away(0), None)
  }

  function SceneAct(k: nat): Action {
    if k == 0 then SchedAcquire
    else if k == 1 then SchedPick
    else if k == 2 then SchedRun
    else if k == 3 then Leave
    else if k == 4 then Enter(KillScan(0, 0))
    else if k == 5 then KillMiss
    else KillHit
  }

  lemma SceneBegins(k: nat)
    requires k < 3
    ensures Step(Scene(k), 0, SceneAct(k), Scene(k + 1))
  {
    if k == 0 {
    } else if k == 1 {
    } else {
    }
  }

  lemma SceneMiddle(k: nat)
    requires 3 <= k < 5
    ensures Step(Scene(k), 0, SceneAct(k), Scene(k + 1))
  {
    if k == 3 {
    } else {
    }
  }

  lemma SceneEnds(k: nat)
    requires 5 <= k < 7
    ensures Step(Scene(k), 0, SceneAct(k), Scene(k + 1))
  {
    if k == 5 {
    } else {
    }
  }

  /** Such a run exists: init calls kill(0), which finds the free slot with pid 0. The process that is forked into the
      slot next will find itself killed. */
  lemma StaleKill() returns (states: seq<State>)
    ensures Run(states) && |states| == 8 && !Clean(states[7])
  {
    hide Step, Clean;
    states := seq(8, k requires 0 <= k < 8 => Scene(k));
    forall k, l | 0 <= k && l == k + 1 && l < |states| ensures Joined(states[k], states[l]) {
      if k < 3 { SceneBegins(k); } else if k < 5 { SceneMiddle(k); } else { SceneEnds(k); }
    }
    SceneEnd();
  }

  lemma SceneEnd()
    ensures !Clean(Scene(7))
  {
    assert Scene(7).procs[1].state == Unused && Scene(7).procs[1].killed;
  }
}
