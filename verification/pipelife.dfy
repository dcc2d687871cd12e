/** The life of a pipe: who holds descriptors for its ends, which close is the last one, and when its page is freed. */
module PipeLife {
  import opened Optional
  import opened Pipe

  datatype Side = R | W

  /** Where a thread is in fileclose: it has dropped the last descriptor of an end and is about to call pipeclose, it is
      inside pipeclose, or it has found both ends closed and is about to free the pipe. */
  datatype Stage = Outside | Last(x: Side) | Closing(x: Side) | Freeing

  /** The pipe, the descriptors that each thread holds, the stages, and how often the pipe was freed. */
  datatype Life = Life(s: State, holds: set<(nat, Side)>, stage: seq<Stage>, freed: nat)

  /** A thread does something inside piperead, pipewrite or pipeclose; it hands a descriptor to another thread (fork);
      it closes one; it takes the lock in pipeclose; it frees the pipe. */
  datatype Step =
    | Use(t: nat, a: Action) | Share(t: nat, u: nat, x: Side) | Drop(t: nat, x: Side) | Close(t: nat) | Kfree(t: nat)

  predicate Open(s: State, x: Side) {
    match x case R => s.readopen case W => s.writeopen
  }

  function CloseOf(x: Side): Action {
    match x case R => CloseRead case W => CloseWrite
  }

  ghost predicate Held(l: Life, x: Side) {
    exists t: nat :: (t, x) in l.holds
  }

  /** A thread that is in no call and does not close anything. */
  predicate Away(l: Life, t: nat) {
    t < |l.s.threads| && t < |l.stage| && l.s.threads[t].pc.Idle? && l.stage[t].Outside?
  }

  ghost predicate Can(l: Life, step: Step) {
    match step
    case Use(t, a) =>
      && !a.CloseRead? && !a.CloseWrite? && Enabled(l.s, t, a)
      && (a.StartRead? ==> (t, R) in l.holds && Away(l, t)) && (a.StartWrite? ==> (t, W) in l.holds && Away(l, t))
    case Share(t, u, x) => (t, x) in l.holds && Away(l, t) && Away(l, u)
    case Drop(t, x) => (t, x) in l.holds && Away(l, t)
    case Close(t) => t < |l.stage| && l.stage[t].Last? && Enabled(l.s, t, CloseOf(l.stage[t].x))
    case Kfree(t) => t < |l.stage| && l.stage[t].Freeing?
  }

  /** The stage after a step inside a call: at the end of pipeclose the pipe is freed if both ends are closed. */
  function After(s: State, st: Stage, a: Action): Stage {
    if a.Leave? && st.Closing? then (if s.readopen || s.writeopen then Outside else Freeing) else st
  }

  ghost function Done(l: Life, step: Step): Life
    requires Can(l, step)
  {
    match step
    case Use(t, a) =>
      l.(s := Apply(l.s, t, a), stage := if t < |l.stage| then l.stage[t := After(l.s, l.stage[t], a)] else l.stage)
    case Share(t, u, x) => l.(holds := l.holds + {(u, x)})
    case Drop(t, x) =>
      var rest := l.holds - {(t, x)};
      if Held(l.(holds := rest), x) then l.(holds := rest) else l.(holds := rest, stage := l.stage[t := Last(x)])
    case Close(t) =>
      var x := l.stage[t].x;
      l.(s := Apply(l.s, t, CloseOf(x)), stage := l.stage[t := Closing(x)])
    case Kfree(t) => l.(stage := l.stage[t := Outside], freed := l.freed + 1)
  }

  // ---- What a step inside a call does to the threads ----

  datatype Kind = KIdle | KRead | KWrite | KClose | KLeave

  function KindOf(pc: Pc): Kind {
    if pc.Idle? then KIdle else if Reading(pc) then KRead else if Writing(pc) then KWrite
    else if pc.Leaving? then KLeave else KClose
  }

  predicate KindStep(k: Kind, k': Kind, a: Action) {
    && (k' == k || (k.KIdle? && k'.KRead? && a.StartRead?) || (k.KIdle? && k'.KWrite? && a.StartWrite?)
        || ((k.KRead? || k.KWrite?) && (k'.KIdle? || k'.KLeave?)) || (k.KClose? && k'.KLeave?)
        || (k.KLeave? && k'.KIdle? && a.Leave?))
    && (a.Leave? ==> k.KLeave? && k'.KIdle?)
  }

  ghost predicate UseFrame(s: State, t: nat, a: Action, s': State) {
    && |s'.threads| == |s.threads| && s'.readopen == s.readopen && s'.writeopen == s.writeopen && t < |s.threads|
    && (forall u :: 0 <= u < |s.threads| && u != t ==> KindOf(s'.threads[u].pc) == KindOf(s.threads[u].pc))
    && KindStep(KindOf(s.threads[t].pc), KindOf(s'.threads[t].pc), a)
    && (s.lock.None? && s'.lock.Some? ==>
          a.StartRead? || a.StartWrite? || KindOf(s.threads[t].pc).KRead? || KindOf(s.threads[t].pc).KWrite?)
    && (a.Leave? ==> s'.lock.None?)
  }

  lemma FrameWriter(s: State, t: nat, a: Action)
    requires Enabled(s, t, a) && WriterAction(a) && !a.CloseWrite?
    ensures UseFrame(s, t, a, Apply(s, t, a))
  {
    hide Full, Empty;
  }

  lemma FrameReader(s: State, t: nat, a: Action)
    requires Enabled(s, t, a) && ReaderAction(a)
    ensures UseFrame(s, t, a, Apply(s, t, a))
  {
    hide Full, Empty, Wakeup;
    OthersKind(s, t, if a.WakeWriters? then Leaving else s.threads[t].pc, false);
  }

  /** wakeup changes the kind of no thread. */
  lemma OthersKind(s: State, t: nat, pc: Pc, readers: bool)
    requires t < |s.threads|
    ensures var ts := Wakeup(Go(s, t, pc), readers);
            && |ts| == |s.threads| && KindOf(ts[t].pc) == KindOf(pc)
            && forall u :: 0 <= u < |ts| && u != t ==> KindOf(ts[u].pc) == KindOf(s.threads[u].pc)
  {
  }

  lemma FrameRest(s: State, t: nat, a: Action)
    requires Enabled(s, t, a) && !WriterAction(a) && !ReaderAction(a) && !a.CloseRead?
    ensures UseFrame(s, t, a, Apply(s, t, a))
  {
    hide Full, Empty;
  }

  lemma Frame(s: State, t: nat, a: Action)
    requires Enabled(s, t, a) && !a.CloseRead? && !a.CloseWrite?
    ensures UseFrame(s, t, a, Apply(s, t, a))
  {
    hide Enabled, Apply, UseFrame;
    if WriterAction(a) {
      FrameWriter(s, t, a);
    } else if ReaderAction(a) {
      FrameReader(s, t, a);
    } else {
      FrameRest(s, t, a);
    }
  }

  lemma CloseFrame(s: State, t: nat, x: Side)
    requires Enabled(s, t, CloseOf(x))
    ensures var s' := Apply(s, t, CloseOf(x));
            && |s'.threads| == |s.threads| && t < |s.threads| && s'.lock == Some(t) && s.lock == None
            && s'.readopen == (s.readopen && x.W?) && s'.writeopen == (s.writeopen && x.R?)
            && (forall u :: 0 <= u < |s.threads| && u != t ==> s'.threads[u] == s.threads[u])
            && KindOf(s'.threads[t].pc).KClose?
  {
    hide Full, Empty;
  }

  // ---- The invariant ----

  /** Calls are made on descriptors, and a thread that closes is in no other call. */
  predicate ThreadOk(l: Life, t: nat)
    requires t < |l.s.threads| == |l.stage|
  {
    var k, st := KindOf(l.s.threads[t].pc), l.stage[t];
    && (k.KRead? ==> (t, R) in l.holds) && (k.KWrite? ==> (t, W) in l.holds)
    && (st.Last? || st.Freeing? ==> k.KIdle?) && (st.Closing? ==> k.KClose? || k.KLeave?)
    && (k.KClose? ==> st.Closing?)
    && (k.KClose? || k.KLeave? ==> l.s.lock == Some(t))
  }

  ghost predicate Threads(l: Life) {
    |l.stage| == |l.s.threads| && forall t :: 0 <= t < |l.stage| ==> ThreadOk(l, t)
  }

  /** An end is open exactly as long as somebody has a descriptor for it or is about to close it as the last one. */
  ghost predicate SideOk(l: Life, x: Side) {
    && (Held(l, x) ==> Open(l.s, x) && forall t :: 0 <= t < |l.stage| ==> l.stage[t] != Last(x))
    && (forall t :: 0 <= t < |l.stage| && l.stage[t] == Last(x) ==> Open(l.s, x))
    && (forall t, u :: 0 <= t < |l.stage| && 0 <= u < |l.stage| && l.stage[t] == l.stage[u] == Last(x) ==> t == u)
    && (Open(l.s, x) ==> Held(l, x) || exists t :: 0 <= t < |l.stage| && l.stage[t] == Last(x))
  }

  ghost predicate NoneFreeing(l: Life) {
    forall t :: 0 <= t < |l.stage| ==> !l.stage[t].Freeing?
  }

  /** One thread alone is about to free the pipe. */
  ghost predicate OneFreeing(l: Life) {
    && (exists t :: 0 <= t < |l.stage| && l.stage[t].Freeing?)
    && (forall t, u :: 0 <= t < |l.stage| && 0 <= u < |l.stage| && l.stage[t].Freeing? && l.stage[u].Freeing? ==>
          t == u)
  }

  ghost predicate SomeClosing(l: Life) {
    exists t :: 0 <= t < |l.stage| && l.stage[t].Closing?
  }

  /** While an end is open the pipe is not freed. Once both are closed, the second closer is still inside, or it is
      about to free the pipe, or the pipe has been freed. */
  ghost predicate EndOk(l: Life) {
    if l.s.readopen || l.s.writeopen then l.freed == 0 && NoneFreeing(l)
    else
      || (l.freed == 0 && NoneFreeing(l) && SomeClosing(l))
      || (l.freed == 0 && OneFreeing(l) && l.s.lock.None?)
      || (l.freed == 1 && NoneFreeing(l) && l.s.lock.None?)
  }

  ghost predicate LifeInv(l: Life) {
    Inv(l.s) && Threads(l) && SideOk(l, R) && SideOk(l, W) && EndOk(l)
  }

  lemma LockHolder(s: State, t: nat)
    requires Locks(s) && t < |s.threads|
    ensures KindOf(s.threads[t].pc).KClose? || KindOf(s.threads[t].pc).KLeave? ==> s.lock == Some(t)
  {
    assert LockOk(s, t);
  }

  // ---- Every step keeps it ----

  lemma UseThreads(l: Life, t: nat, a: Action)
    requires LifeInv(l) && Can(l, Use(t, a))
    ensures Threads(Done(l, Use(t, a)))
  {
    hide Enabled, Apply, KindOf, Inv, SideOk, EndOk;
    var l' := Done(l, Use(t, a));
    Frame(l.s, t, a);
    StepKeeps(l.s, t, a);
    InvLocks(l'.s);
    forall u | 0 <= u < |l'.stage| ensures ThreadOk(l', u) {
      assert ThreadOk(l, u);
      LockHolder(l'.s, u);
    }
  }

  lemma InvLocks(s: State)
    requires Inv(s)
    ensures Locks(s)
  {
  }

  lemma UseSide(l: Life, t: nat, a: Action, x: Side)
    requires LifeInv(l) && Can(l, Use(t, a))
    ensures SideOk(Done(l, Use(t, a)), x)
  {
    hide Enabled, Apply, KindOf, Inv, EndOk, KindStep;
    var l' := Done(l, Use(t, a));
    Frame(l.s, t, a);
    assert ThreadOk(l, t);
    assert Held(l', x) == Held(l, x);
    assert forall u :: 0 <= u < |l.stage| ==> (l'.stage[u] == Last(x) <==> l.stage[u] == Last(x));
    if Open(l.s, x) && !Held(l, x) {
      var u :| 0 <= u < |l.stage| && l.stage[u] == Last(x);
      assert l'.stage[u] == Last(x);
    }
  }

  /** Nobody is inside a call on a closed end. */
  lemma NobodyThere(l: Life, t: nat)
    requires LifeInv(l) && t < |l.stage| && !l.s.readopen && !l.s.writeopen
    ensures !KindOf(l.s.threads[t].pc).KRead? && !KindOf(l.s.threads[t].pc).KWrite?
    ensures (t, R) !in l.holds && (t, W) !in l.holds
  {
    hide KindOf, Inv, EndOk;
    assert ThreadOk(l, t);
    assert Open(l.s, R) == l.s.readopen && Open(l.s, W) == l.s.writeopen;
  }

  lemma LastOpen(l: Life, t: nat)
    requires LifeInv(l) && t < |l.stage|
    ensures l.stage[t].Last? ==> Open(l.s, l.stage[t].x) && !Held(l, l.stage[t].x)
  {
    hide Inv, EndOk, ThreadOk;
    if l.stage[t].Last? {
      var x := l.stage[t].x;
      assert SideOk(l, x) && l.stage[t] == Last(x);
    }
  }

  lemma UseEnd(l: Life, t: nat, a: Action)
    requires LifeInv(l) && Can(l, Use(t, a))
    ensures EndOk(Done(l, Use(t, a)))
  {
    hide Enabled, Apply, KindOf, Inv, SideOk;
    var l' := Done(l, Use(t, a));
    Frame(l.s, t, a);
    assert ThreadOk(l, t);
    if !l.s.readopen && !l.s.writeopen {
      NobodyThere(l, t);
      if SomeClosing(l) && l.freed == 0 && NoneFreeing(l) {
        var u :| 0 <= u < |l.stage| && l.stage[u].Closing?;
        assert ThreadOk(l, u);
        if a.Leave? {
          assert u == t && l'.stage[t].Freeing?;
        } else {
          assert l'.stage[u].Closing?;
        }
      } else if OneFreeing(l) {
        var u :| 0 <= u < |l.stage| && l.stage[u].Freeing?;
        assert l'.stage[u].Freeing?;
      }
    }
  }

  lemma UseKeeps(l: Life, t: nat, a: Action)
    requires LifeInv(l) && Can(l, Use(t, a))
    ensures LifeInv(Done(l, Use(t, a)))
  {
    hide Enabled, Apply, Threads, SideOk, EndOk, Inv;
    StepKeeps(l.s, t, a);
    UseThreads(l, t, a);
    UseSide(l, t, a, R);
    UseSide(l, t, a, W);
    UseEnd(l, t, a);
  }

  lemma ShareKeeps(l: Life, t: nat, u: nat, x: Side)
    requires LifeInv(l) && Can(l, Share(t, u, x))
    ensures LifeInv(Done(l, Share(t, u, x)))
  {
    hide KindOf, Inv;
    var l' := Done(l, Share(t, u, x));
    assert Held(l, x);
    forall v | 0 <= v < |l'.stage| ensures ThreadOk(l', v) { assert ThreadOk(l, v); }
    forall y: Side ensures Held(l', y) == Held(l, y) {
      if v: nat :| (v, y) in l'.holds { assert (v, y) in l.holds || y == x; }
      if v: nat :| (v, y) in l.holds { assert (v, y) in l'.holds; }
    }
  }

  lemma DropKeeps(l: Life, t: nat, x: Side)
    requires LifeInv(l) && Can(l, Drop(t, x))
    ensures LifeInv(Done(l, Drop(t, x)))
  {
    hide Inv;
    var l' := Done(l, Drop(t, x));
    assert Held(l, x);
    forall v | 0 <= v < |l'.stage| ensures ThreadOk(l', v) { assert ThreadOk(l, v); }
    var y := if x.R? then W else R;
    assert Held(l', y) == Held(l, y) by {
      if v: nat :| (v, y) in l.holds { assert (v, y) in l'.holds; }
    }
    assert SideOk(l, x) && SideOk(l, y);
    DropSide(l, t, x);
    OtherSide(l, l', y);
    DropEnd(l, l', t);
  }

  lemma DropSide(l: Life, t: nat, x: Side)
    requires SideOk(l, x) && Can(l, Drop(t, x)) && |l.stage| == |l.s.threads|
    ensures SideOk(Done(l, Drop(t, x)), x)
  {
    var l' := Done(l, Drop(t, x));
    assert Held(l, x);
    if !Held(l', x) { assert l'.stage[t] == Last(x); }
  }

  /** An end keeps its state when its descriptors and the threads about to close it stay the same. */
  lemma OtherSide(l: Life, l': Life, y: Side)
    requires SideOk(l, y) && Open(l'.s, y) == Open(l.s, y) && Held(l', y) == Held(l, y) && |l'.stage| == |l.stage|
    requires forall t :: 0 <= t < |l.stage| ==> (l'.stage[t] == Last(y) <==> l.stage[t] == Last(y))
    ensures SideOk(l', y)
  {
    if Open(l.s, y) && !Held(l, y) {
      var t :| 0 <= t < |l.stage| && l.stage[t] == Last(y);
      assert l'.stage[t] == Last(y);
    }
  }

  lemma DropEnd(l: Life, l': Life, t: nat)
    requires EndOk(l) && l'.s == l.s && l'.freed == l.freed && t < |l.stage| && l.stage[t].Outside?
    requires l'.stage == l.stage || exists x :: l'.stage == l.stage[t := Last(x)]
    ensures EndOk(l')
  {
    if SomeClosing(l) {
      var u :| 0 <= u < |l.stage| && l.stage[u].Closing?;
      assert l'.stage[u].Closing?;
    }
    if OneFreeing(l) {
      var u :| 0 <= u < |l.stage| && l.stage[u].Freeing?;
      assert l'.stage[u].Freeing?;
    }
  }

  lemma CloseKeeps(l: Life, t: nat)
    requires LifeInv(l) && Can(l, Close(t))
    ensures LifeInv(Done(l, Close(t)))
  {
    hide Enabled, Apply, KindOf, Inv;
    var l', x := Done(l, Close(t)), l.stage[t].x;
    CloseFrame(l.s, t, x);
    StepKeeps(l.s, t, CloseOf(x));
    assert SideOk(l, x);
    forall u | 0 <= u < |l'.stage| ensures ThreadOk(l', u) { assert ThreadOk(l, u); }
    var y := if x.R? then W else R;
    assert forall z :: Held(l', z) == Held(l, z);
    assert SideOk(l', x);
    OtherSide(l, l', y);
    assert l'.stage[t].Closing?;
  }

  lemma KfreeKeeps(l: Life, t: nat)
    requires LifeInv(l) && Can(l, Kfree(t))
    ensures LifeInv(Done(l, Kfree(t))) && l.freed == 0
  {
    hide KindOf, Inv;
    var l' := Done(l, Kfree(t));
    forall u | 0 <= u < |l'.stage| ensures ThreadOk(l', u) { assert ThreadOk(l, u); }
    assert forall z :: Held(l', z) == Held(l, z);
    OtherSide(l, l', R);
    OtherSide(l, l', W);
  }

  lemma LifeStep(l: Life, step: Step)
    requires LifeInv(l) && Can(l, step)
    ensures LifeInv(Done(l, step))
  {
    hide LifeInv, Can, Done;
    match step {
      case Use(t, a) => UseKeeps(l, t, a);
      case Share(t, u, x) => ShareKeeps(l, t, u, x);
      case Drop(t, x) => DropKeeps(l, t, x);
      case Close(t) => CloseKeeps(l, t);
      case Kfree(t) => KfreeKeeps(l, t);
    }
  }

  // ---- Whole runs ----

  /** A new pipe: some threads have descriptors for each end, and nobody closes. */
  ghost predicate Born(l: Life) {
    && Fresh(l.s) && l.freed == 0 && Held(l, R) && Held(l, W) && |l.stage| == |l.s.threads|
    && forall t :: 0 <= t < |l.stage| ==> l.stage[t].Outside?
  }

  ghost predicate LifeRun(ls: seq<Life>, steps: seq<Step>) {
    && |ls| == |steps| + 1 && Born(ls[0])
    && (forall k :: 0 <= k < |steps| ==> Moves(ls, k, steps[k]))
  }

  ghost predicate Moves(ls: seq<Life>, k: nat, step: Step) {
    k + 1 < |ls| && Can(ls[k], step) && ls[k + 1] == Done(ls[k], step)
  }

  lemma BornInv(l: Life)
    requires Born(l)
    ensures LifeInv(l)
  {
    FreshInv(l.s);
  }

  lemma {:induction false} LifeRunInv(ls: seq<Life>, steps: seq<Step>, k: nat)
    requires LifeRun(ls, steps) && k < |ls|
    ensures LifeInv(ls[k])
  {
    hide LifeInv, Can, Done, Born;
    if k == 0 {
      BornInv(ls[0]);
    } else {
      LifeRunInv(ls, steps, k - 1);
      assert Moves(ls, k - 1, steps[k - 1]);
      LifeStep(ls[k - 1], steps[k - 1]);
    }
  }

  predicate NotDropped(steps: seq<Step>, i: nat, k: nat, u: nat, x: Side)
    requires k <= |steps|
  {
    forall j :: i <= j < k ==> steps[j] != Drop(u, x)
  }

  predicate SharedAt(steps: seq<Step>, i: nat, k: nat, u: nat, x: Side)
    requires i < k <= |steps|
  {
    steps[i].Share? && steps[i].u == u && steps[i].x == x && NotDropped(steps, i, k, u, x)
  }

  /** Thread u had a descriptor for end x from the start or was given one, and has not dropped it since. */
  ghost predicate HeldAfter(first: Life, steps: seq<Step>, k: nat, u: nat, x: Side)
    requires k <= |steps|
  {
    || ((u, x) in first.holds && NotDropped(steps, 0, k, u, x))
    || exists i :: 0 <= i < k && SharedAt(steps, i, k, u, x)
  }

  lemma HeldStep(first: Life, steps: seq<Step>, k: nat, m: nat, u: nat, x: Side)
    requires k < |steps| && m == k + 1
    ensures HeldAfter(first, steps, m, u, x) <==>
            || (steps[k].Share? && steps[k].u == u && steps[k].x == x)
            || (HeldAfter(first, steps, k, u, x) && steps[k] != Drop(u, x))
  {
    if steps[k].Share? && steps[k].u == u && steps[k].x == x { assert SharedAt(steps, k, m, u, x); }
    if i :| 0 <= i < k && SharedAt(steps, i, k, u, x) && steps[k] != Drop(u, x) { assert SharedAt(steps, i, m, u, x); }
    if i :| 0 <= i < m && SharedAt(steps, i, m, u, x) { assert i < k ==> SharedAt(steps, i, k, u, x); }
  }

  /** In every run, a thread has a descriptor exactly if it had or was given one and has not closed it since. */
  lemma {:induction false} HoldsByHistory(ls: seq<Life>, steps: seq<Step>, k: nat, u: nat, x: Side)
    requires LifeRun(ls, steps) && k < |ls|
    ensures (u, x) in ls[k].holds <==> HeldAfter(ls[0], steps, k, u, x)
  {
    hide Can, Born, HeldAfter, Apply;
    if k == 0 {
      HeldNow(ls[0], steps, u, x);
    } else {
      HoldsByHistory(ls, steps, k - 1, u, x);
      assert Moves(ls, k - 1, steps[k - 1]);
      HeldStep(ls[0], steps, k - 1, k, u, x);
    }
  }

  lemma HeldNow(first: Life, steps: seq<Step>, u: nat, x: Side)
    ensures HeldAfter(first, steps, 0, u, x) <==> (u, x) in first.holds
  {
  }

  /** In every run the pipe is freed at most once, and only when both ends are closed and nobody has a descriptor. */
  lemma FreedOnce(ls: seq<Life>, steps: seq<Step>, k: nat)
    requires LifeRun(ls, steps) && k < |ls|
    ensures ls[k].freed <= 1
    ensures ls[k].freed == 1 ==> !ls[k].s.readopen && !ls[k].s.writeopen && !Held(ls[k], R) && !Held(ls[k], W)
  {
    hide LifeRun, Inv, ThreadOk;
    LifeRunInv(ls, steps, k);
    assert Open(ls[k].s, R) == ls[k].s.readopen && Open(ls[k].s, W) == ls[k].s.writeopen;
  }

  /** In every run, once the pipe is freed no thread touches it: nobody is inside a call and nothing can happen any more
      but that a process is killed. */
  lemma NeverTouchedAgain(ls: seq<Life>, steps: seq<Step>, k: nat, step: Step)
    requires LifeRun(ls, steps) && k < |ls| && ls[k].freed > 0 && Can(ls[k], step)
    ensures step.Use? && step.a.Kill?
    ensures forall t :: 0 <= t < |ls[k].s.threads| ==> ls[k].s.threads[t].pc.Idle?
  {
    hide LifeRun, Inv, Enabled;
    var l := ls[k];
    LifeRunInv(ls, steps, k);
    assert Open(l.s, R) == l.s.readopen && Open(l.s, W) == l.s.writeopen;
    forall t: nat | t < |l.s.threads|
      ensures l.s.threads[t].pc.Idle? && !l.stage[t].Last? && forall x :: (t, x) !in l.holds {
      assert ThreadOk(l, t);
      NobodyThere(l, t);
      LastOpen(l, t);
      forall x ensures (t, x) !in l.holds { assert x == R || x == W; }
    }
    if step.Use? {
      TheThread(l.s, step.t, step.a);
      OnlyKill(l.s, step.t, step.a);
    }
  }

  lemma OnlyKill(s: State, t: nat, a: Action)
    requires Enabled(s, t, a) && s.threads[t].pc.Idle? && !s.readopen && !s.writeopen && !a.CloseRead? && !a.CloseWrite?
    ensures a.Kill?
  {
    hide Full, Empty;
  }

  /** In every run a pipe whose ends are both closed is not forgotten: when its lock is free and nobody is about to free
      it, it has been freed. */
  lemma NeverLeaked(ls: seq<Life>, steps: seq<Step>, k: nat)
    requires LifeRun(ls, steps) && k < |ls| && !ls[k].s.readopen && !ls[k].s.writeopen && ls[k].s.lock.None?
    requires NoneFreeing(ls[k])
    ensures ls[k].freed == 1
  {
    hide LifeRun, Inv, KindOf;
    LifeRunInv(ls, steps, k);
    forall t | 0 <= t < |ls[k].stage| ensures !ls[k].stage[t].Closing? { assert ThreadOk(ls[k], t); }
  }

  /** In every run the conditions under which calls on the pipe begin hold by themselves: who has a descriptor finds the
      end open, and who drops the last one finds nobody inside. */
  lemma CallsBegin(ls: seq<Life>, steps: seq<Step>, k: nat, t: nat)
    requires LifeRun(ls, steps) && k < |ls| && t < |ls[k].s.threads| && ls[k].s.lock.None?
    ensures var l := ls[k];
            && t < |l.stage|
            && ((t, R) in l.holds && Away(l, t) ==> forall n: nat :: Can(l, Use(t, StartRead(n))))
            && ((t, W) in l.holds && Away(l, t) ==> forall src :: Can(l, Use(t, StartWrite(src))))
            && (l.stage[t].Last? ==> Can(l, Close(t)))
  {
    hide LifeRun, EndOk, Full, Empty;
    var l := ls[k];
    LifeRunInv(ls, steps, k);
    assert ThreadOk(l, t) && |l.s.data| == PIPESIZE;
    LastOpen(l, t);
    if l.stage[t].Last? {
      var x := l.stage[t].x;
      forall u | 0 <= u < |l.s.threads| ensures x.R? ==> !Reading(l.s.threads[u].pc) { assert ThreadOk(l, u); }
      forall u | 0 <= u < |l.s.threads| ensures x.W? ==> !Writing(l.s.threads[u].pc) { assert ThreadOk(l, u); }
    }
  }

  /** Every run of the life of a pipe is a run of the pipe: what holds in all of those holds here. */
  lemma {:induction false} PipeRun(ls: seq<Life>, steps: seq<Step>, k: nat)
    returns (states: seq<State>, acts: seq<(nat, Action)>)
    requires LifeRun(ls, steps) && k < |ls|
    ensures Run(states, acts) && states[|acts|] == ls[k].s
  {
    hide Enabled, Apply, Fresh;
    if k == 0 {
      states, acts := [ls[0].s], [];
    } else {
      states, acts := PipeRun(ls, steps, k - 1);
      assert Moves(ls, k - 1, steps[k - 1]);
      var l, step, s' := ls[k - 1], steps[k - 1], ls[k].s;
      if step.Use? || step.Close? {
        var t, a := step.t, if step.Use? then step.a else CloseOf(l.stage[step.t].x);
        Extend(states, acts, t, a, s');
        states, acts := states + [s'], acts + [(t, a)];
      }
    }
  }
}
