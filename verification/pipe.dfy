/** A pipe shared by readers and writers, as interleaved steps. sleep() takes ptable.lock before it lets go of the pipe
    lock, and wakeup() needs ptable.lock, so both locks are part of the state. */
module Pipe {
  import opened Optional
  import opened Blocks

  const PIPESIZE := 512
  const LIMIT := 0x1_0000_0000

  /** Where a thread is. */
  datatype Pc =
    | Idle
    | WLoop(i: nat)       // pipewrite: i bytes stored, at the head of the loop
    | WWake(i: nat)       // full: about to wake the readers
    | WSleep(i: nat)      // about to take ptable.lock in sleep
    | WGoing(i: nat)      // holds ptable.lock, has released the pipe lock
    | WAsleep(i: nat) | WWoken(i: nat)
    | WDone               // everything stored: about to wake the readers
    | RLoop               // piperead: at the head of the waiting loop
    | RSleep | RGoing | RAsleep | RWoken
    | RCopy(i: nat)       // i bytes copied
    | RDone               // about to wake the writers
    | CloseW | CloseR     // an end is closed: about to wake the other side
    | Leaving             // about to release the pipe lock

  /** A thread: what it writes, what it has read, how much it wants, whether it was killed, and where in the history of
      stored bytes those of its call are. */
  datatype Thread = Thread(pc: Pc, src: seq<Byte>, got: seq<Byte>, n: nat, killed: bool, put: seq<nat>)

  /** The pipe, its lock, ptable.lock, the threads, and the history of all bytes stored and all bytes read. */
  datatype State = State(data: seq<Byte>, nread: nat, nwrite: nat, readopen: bool, writeopen: bool,
                         lock: Option<nat>, ptable: Option<nat>, threads: seq<Thread>, stored: seq<Byte>,
                             taken: seq<Byte>)

  datatype Action =
    | StartWrite(src: seq<Byte>) | Store | FullFail | FullWake | WakeReaders | StoredAll | WriterSleeps
    | StartRead(n: nat) | EmptyFail | EmptyWait | ReaderSleeps | StartCopy | Take | CopyDone | WakeWriters
    | FallAsleep | Resume | CloseWrite | CloseRead | Leave
    | Kill(t: nat)

  predicate Full(s: State) {
    s.nwrite == (s.nread + PIPESIZE) % LIMIT
  }

  predicate Empty(s: State) {
    s.nread == s.nwrite
  }

  predicate Writing(pc: Pc) {
    pc.WLoop? || pc.WWake? || pc.WSleep? || pc.WGoing? || pc.WAsleep? || pc.WWoken? || pc.WDone?
  }

  predicate Reading(pc: Pc) {
    pc.RLoop? || pc.RSleep? || pc.RGoing? || pc.RAsleep? || pc.RWoken? || pc.RCopy? || pc.RDone?
  }

  /** An end is closed by the last descriptor for it, so nobody is reading (or writing) when that happens or after. */
  predicate Enabled(s: State, t: nat, a: Action) {
    && t < |s.threads| && |s.data| == PIPESIZE
    && var me := s.threads[t];
       var pc := me.pc;
       match a
       case StartWrite(_) => pc.Idle? && s.lock.None? && s.writeopen
       case Store => pc.WLoop? && pc.i < |me.src| && !Full(s)
       case FullFail => pc.WLoop? && pc.i < |me.src| && Full(s) && (!s.readopen || me.killed)
       case FullWake => pc.WLoop? && pc.i < |me.src| && Full(s) && s.readopen && !me.killed
       case StoredAll => pc.WLoop? && pc.i >= |me.src|
       case WakeReaders => (pc.WWake? || pc.WDone? || pc.CloseW?) && s.ptable.None?
       case WriterSleeps => pc.WSleep? && s.ptable.None?
       case StartRead(_) => pc.Idle? && s.lock.None? && s.readopen
       case EmptyFail => pc.RLoop? && Empty(s) && s.writeopen && me.killed
       case EmptyWait => pc.RLoop? && Empty(s) && s.writeopen && !me.killed
       case ReaderSleeps => pc.RSleep? && s.ptable.None?
       case StartCopy => pc.RLoop? && !(Empty(s) && s.writeopen)
       case Take => pc.RCopy? && pc.i < me.n && !Empty(s)
       case CopyDone => pc.RCopy? && (pc.i >= me.n || Empty(s))
       case WakeWriters => (pc.RDone? || pc.CloseR?) && s.ptable.None?
       case FallAsleep => pc.WGoing? || pc.RGoing?
       case Resume => (pc.WWoken? || pc.RWoken?) && s.lock.None?
       case CloseWrite => pc.Idle? && s.lock.None? && forall k :: 0 <= k < |s.threads| ==> !Writing(s.threads[k].pc)
       case CloseRead => pc.Idle? && s.lock.None? && forall k :: 0 <= k < |s.threads| ==> !Reading(s.threads[k].pc)
       case Leave => pc.Leaving?
       case Kill(v) => v < |s.threads| && s.ptable.None?
  }

  function Woken(th: Thread, readers: bool): Thread {
    if readers && th.pc.RAsleep? then th.(pc := RWoken)
    else if !readers && th.pc.WAsleep? then th.(pc := WWoken(th.pc.i))
    else th
  }

  /** wakeup(&p->nread) or wakeup(&p->nwrite) */
  function Wakeup(ts: seq<Thread>, readers: bool): seq<Thread> {
    seq(|ts|, k requires 0 <= k < |ts| => Woken(ts[k], readers))
  }

  function Go(s: State, t: nat, pc: Pc): seq<Thread>
    requires t < |s.threads|
  {
    s.threads[t := s.threads[t].(pc := pc)]
  }

  function Apply(s: State, t: nat, a: Action): State
    requires Enabled(s, t, a)
  {
    var me := s.threads[t];
    var pc := me.pc;
    match a
    case StartWrite(src) => s.(lock := Some(t), threads := s.threads[t := me.(pc := WLoop(0), src := src, put := [])])
    case Store =>
      s.(data := s.data[s.nwrite % PIPESIZE := me.src[pc.i]], nwrite := (s.nwrite + 1) % LIMIT,
         stored := s.stored + [me.src[pc.i]],
         threads := s.threads[t := me.(pc := WLoop(pc.i + 1), put := me.put + [|s.stored|])])
    case FullFail => s.(lock := None, threads := Go(s, t, Idle))
    case FullWake => s.(threads := Go(s, t, WWake(pc.i)))
    case StoredAll => s.(threads := Go(s, t, WDone))
    case WakeReaders => s.(threads := Wakeup(Go(s, t, if pc.WWake? then WSleep(pc.i) else Leaving), true))
    case WriterSleeps => s.(ptable := Some(t), lock := None, threads := Go(s, t, WGoing(pc.i)))
    case StartRead(n) => s.(lock := Some(t), threads := s.threads[t := me.(pc := RLoop, got := [], n := n)])
    case EmptyFail => s.(lock := None, threads := Go(s, t, Idle))
    case EmptyWait => s.(threads := Go(s, t, RSleep))
    case ReaderSleeps => s.(ptable := Some(t), lock := None, threads := Go(s, t, RGoing))
    case StartCopy => s.(threads := Go(s, t, RCopy(0)))
    case Take =>
      var b := s.data[s.nread % PIPESIZE];
      s.(nread := (s.nread + 1) % LIMIT, taken := s.taken + [b],
          threads := s.threads[t := me.(pc := RCopy(pc.i + 1), got := me.got + [b])])
    case CopyDone => s.(threads := Go(s, t, RDone))
    case WakeWriters => s.(threads := Wakeup(Go(s, t, Leaving), false))
    case FallAsleep => s.(ptable := None, threads := Go(s, t, if pc.WGoing? then WAsleep(pc.i) else RAsleep))
    case Resume => s.(lock := Some(t), threads := Go(s, t, if pc.WWoken? then WLoop(pc.i) else RLoop))
    case CloseWrite => s.(lock := Some(t), writeopen := false, threads := Go(s, t, CloseW))
    case CloseRead => s.(lock := Some(t), readopen := false, threads := Go(s, t, CloseR))
    case Leave => s.(lock := None, threads := Go(s, t, Idle))
    case Kill(v) => s.(threads := s.threads[v := Woken(Woken(s.threads[v].(killed := true), true), false)])
  }

  // ---- The ring ----

  /** The counters are the history lengths modulo 2^32, and the ring holds the bytes stored and not yet taken. */
  ghost predicate Ring(s: State) {
    && |s.data| == PIPESIZE && |s.taken| <= |s.stored| <= |s.taken| + PIPESIZE
    && s.nread == |s.taken| % LIMIT && s.nwrite == |s.stored| % LIMIT
    && s.taken == s.stored[..|s.taken|]
    && (forall k :: |s.taken| <= k < |s.stored| ==> s.data[k % PIPESIZE] == s.stored[k])
  }

  /** The bytes in the ring, found through the counters alone. */
  function Buffered(s: State): seq<Byte>
    requires |s.data| == PIPESIZE
  {
    seq((s.nwrite - s.nread) % LIMIT, k requires 0 <= k => s.data[Cell(s.nread, k)])
  }

  /** The cell of the k-th byte after counter value nread. */
  function Cell(nread: nat, k: nat): (c: nat)
    ensures c < PIPESIZE
  {
    (nread + k) % LIMIT % PIPESIZE
  }

  lemma Wrapped(a: nat)
    ensures a % LIMIT % PIPESIZE == a % PIPESIZE
  {
    var q, r := a / LIMIT, a % LIMIT;
    assert a == PIPESIZE * (q * (LIMIT / PIPESIZE)) + r;
    ModShift(q * (LIMIT / PIPESIZE), r);
  }

  lemma {:induction false} ModShift(q: nat, r: nat)
    ensures (PIPESIZE * q + r) % PIPESIZE == r % PIPESIZE
  {
    if q > 0 {
      ModShift(q - 1, r);
      assert PIPESIZE * q + r == PIPESIZE * (q - 1) + r + PIPESIZE;
    }
  }

  lemma ModAdd(a: nat, d: nat)
    ensures (a + d) % LIMIT == (a % LIMIT + d) % LIMIT
  {
  }

  lemma SmallMod(x: nat)
    requires x < 2 * LIMIT
    ensures x % LIMIT == if x < LIMIT then x else x - LIMIT
  {
  }

  lemma WrappedTests(a: nat, d: nat)
    requires d <= PIPESIZE
    ensures (a + d) % LIMIT == (a % LIMIT + PIPESIZE) % LIMIT <==> d == PIPESIZE
    ensures (a + d) % LIMIT == a % LIMIT <==> d == 0
    ensures ((a + d) % LIMIT - a % LIMIT) % LIMIT == d
  {
    ModAdd(a, d);
    var r := a % LIMIT;
    SmallMod(r + d);
    SmallMod(r + PIPESIZE);
  }

  /** The tests for full and empty compare wrapped counters and are still exact. */
  lemma FullEmpty(s: State)
    requires Ring(s)
    ensures Full(s) <==> |s.stored| == |s.taken| + PIPESIZE
    ensures Empty(s) <==> |s.stored| == |s.taken|
    ensures (s.nwrite - s.nread) % LIMIT == |s.stored| - |s.taken|
  {
    WrappedTests(|s.taken|, |s.stored| - |s.taken|);
  }

  lemma StoreRing(s: State, t: nat)
    requires Ring(s) && Enabled(s, t, Store)
    ensures Ring(Apply(s, t, Store))
  {
    hide Full, Empty;
    FullEmpty(s);
    StoredByte(s.data, s.stored, |s.taken|, s.threads[t].src[s.threads[t].pc.i]);
    ModAdd(|s.stored|, 1);
  }

  /** Storing byte number |stored| into its cell keeps the cells of the bytes not yet taken. */
  lemma StoredByte(data: seq<Byte>, stored: seq<Byte>, from: nat, b: Byte)
    requires |data| == PIPESIZE && from <= |stored| < from + PIPESIZE
    requires forall k :: from <= k < |stored| ==> data[k % PIPESIZE] == stored[k]
    ensures |stored| % LIMIT % PIPESIZE == |stored| % PIPESIZE
    ensures var data', stored' := data[|stored| % PIPESIZE := b], stored + [b];
            forall k :: from <= k < |stored'| ==> data'[k % PIPESIZE] == stored'[k]
  {
    Wrapped(|stored|);
    forall k | from <= k < |stored| ensures k % PIPESIZE != |stored| % PIPESIZE {
      Apart(k, |stored|);
    }
  }

  /** Two positions less than 512 apart are in different cells. */
  lemma Apart(k: nat, n: nat)
    requires k < n < k + PIPESIZE
    ensures k % PIPESIZE != n % PIPESIZE
  {
  }

  lemma TakeRing(s: State, t: nat)
    requires Ring(s) && Enabled(s, t, Take)
    ensures Ring(Apply(s, t, Take))
  {
    hide Full, Empty;
    FullEmpty(s);
    Wrapped(|s.taken|);
    ModAdd(|s.taken|, 1);
    assert s.data[s.nread % PIPESIZE] == s.stored[|s.taken|];
  }

  lemma RingStep(s: State, t: nat, a: Action)
    requires Ring(s) && Enabled(s, t, a)
    ensures Ring(Apply(s, t, a))
  {
    hide Ring, Wakeup, Full, Empty;
    match a
    case Store => StoreRing(s, t);
    case Take => TakeRing(s, t);
    case _ => SameRing(s, Apply(s, t, a));
  }

  lemma SameRing(s: State, s': State)
    requires Ring(s) && s'.data == s.data && s'.nread == s.nread && s'.nwrite == s.nwrite && s'.stored == s.stored
    requires s'.taken == s.taken
    ensures Ring(s')
  {
  }

  lemma CellOf(a: nat, k: nat)
    ensures Cell(a % LIMIT, k) == (a + k) % PIPESIZE
  {
    ModAdd(a, k);
    Wrapped(a + k);
  }

  lemma BufferedBytes(s: State, n: nat)
    requires Ring(s) && n == |s.stored| - |s.taken| == (s.nwrite - s.nread) % LIMIT
    ensures Buffered(s) == s.stored[|s.taken|..]
  {
    forall k: nat | k < n ensures s.data[Cell(s.nread, k)] == s.stored[|s.taken| + k] {
      CellOf(|s.taken|, k);
      var j := |s.taken| + k;
      assert s.data[j % PIPESIZE] == s.stored[j];
    }
  }

  /** Bytes read, then bytes buffered, are the bytes stored. */
  lemma Fifo(s: State)
    requires Ring(s)
    ensures s.taken + Buffered(s) == s.stored && |Buffered(s)| <= PIPESIZE
  {
    hide Full, Empty;
    FullEmpty(s);
    BufferedBytes(s, |s.stored| - |s.taken|);
  }

  // ---- Locks and sleepers ----

  predicate InLock(pc: Pc) {
    || pc.WLoop? || pc.WWake? || pc.WSleep? || pc.WDone? || pc.RLoop? || pc.RSleep? || pc.RCopy? || pc.RDone?
    || pc.CloseW? || pc.CloseR? || pc.Leaving?
  }

  predicate LockOk(s: State, t: nat)
    requires t < |s.threads|
  {
    && (s.lock == Some(t) <==> InLock(s.threads[t].pc))
    && (s.ptable == Some(t) <==> s.threads[t].pc.WGoing? || s.threads[t].pc.RGoing?)
  }

  ghost predicate Locks(s: State) {
    && (s.lock.Some? ==> s.lock.value < |s.threads|) && (s.ptable.Some? ==> s.ptable.value < |s.threads|)
    && (forall t :: 0 <= t < |s.threads| ==> LockOk(s, t))
  }

  /** The thread that holds the pipe lock will call wakeup(&p->nread) before it lets go of it. */
  predicate WillWakeReaders(s: State) {
    && s.lock.Some? && s.lock.value < |s.threads|
    && var pc := s.threads[s.lock.value].pc; pc.WLoop? || pc.WWake? || pc.WDone? || pc.CloseW?
  }

  predicate WillWakeWriters(s: State) {
    && s.lock.Some? && s.lock.value < |s.threads|
    && var pc := s.threads[s.lock.value].pc; pc.RCopy? || pc.RDone? || pc.CloseR?
  }

  predicate ReaderSleeping(pc: Pc) {
    pc.RGoing? || pc.RAsleep?
  }

  predicate WriterSleeping(pc: Pc) {
    pc.WGoing? || pc.WAsleep?
  }

  /** Ends stay open for those inside, nobody decides to sleep without a reason, and a sleeping writer waits for
      room. */
  predicate SleepOk(s: State, pc: Pc) {
    && (Writing(pc) ==> s.writeopen) && (Reading(pc) ==> s.readopen)
    && (pc.RSleep? ==> Empty(s) && s.writeopen)
    && (pc.WWake? || pc.WSleep? ==> Full(s) && s.readopen)
    && (WriterSleeping(pc) ==> (Full(s) && s.readopen) || WillWakeWriters(s))
  }

  ghost predicate Sleepers(s: State) {
    forall t :: 0 <= t < |s.threads| ==> SleepOk(s, s.threads[t].pc)
  }

  /** A sleeping reader waits for bytes. */
  predicate ReaderOk(s: State, pc: Pc) {
    ReaderSleeping(pc) ==> (Empty(s) && s.writeopen) || WillWakeReaders(s)
  }

  ghost predicate Readers(s: State) {
    forall t :: 0 <= t < |s.threads| ==> ReaderOk(s, s.threads[t].pc)
  }

  ghost predicate SomeReaderSleeps(s: State) {
    exists t :: 0 <= t < |s.threads| && ReaderSleeping(s.threads[t].pc)
  }

  /** A writer that was killed finds the pipe full, with the read end open, and leaves without waking the readers
      although one of them sleeps. */
  ghost predicate Losing(s: State, a: Action) {
    a.FullFail? && s.readopen && SomeReaderSleeps(s)
  }

  predicate WriterAction(a: Action) {
    a.StartWrite? || a.Store? || a.FullFail? || a.FullWake? || a.WakeReaders? || a.StoredAll? || a.WriterSleeps? ||
        a.CloseWrite? || a.Leave?
  }

  predicate ReaderAction(a: Action) {
    || a.StartRead? || a.EmptyFail? || a.EmptyWait? || a.ReaderSleeps? || a.StartCopy? || a.Take? || a.CopyDone?
    || a.WakeWriters?
  }

  /** The thread that steps, and below any other. */
  lemma OwnWriter(s: State, t: nat, a: Action)
    requires Enabled(s, t, a) && LockOk(s, t) && WriterAction(a)
    ensures |Apply(s, t, a).threads| == |s.threads| && LockOk(Apply(s, t, a), t)
  {
    hide Full, Empty, Reading, Writing;
  }

  lemma LockStepWriter(s: State, t: nat, a: Action, u: nat)
    requires Enabled(s, t, a) && LockOk(s, t) && u < |s.threads| && LockOk(s, u) && WriterAction(a) && u != t
    ensures |Apply(s, t, a).threads| == |s.threads| && LockOk(Apply(s, t, a), u)
  {
    hide Full, Empty, Reading, Writing;
  }

  lemma OwnReader(s: State, t: nat, a: Action)
    requires Enabled(s, t, a) && LockOk(s, t) && ReaderAction(a)
    ensures |Apply(s, t, a).threads| == |s.threads| && LockOk(Apply(s, t, a), t)
  {
    hide Full, Empty, Reading, Writing;
  }

  lemma LockStepReader(s: State, t: nat, a: Action, u: nat)
    requires Enabled(s, t, a) && LockOk(s, t) && u < |s.threads| && LockOk(s, u) && ReaderAction(a) && u != t
    ensures |Apply(s, t, a).threads| == |s.threads| && LockOk(Apply(s, t, a), u)
  {
    hide Full, Empty, Reading, Writing;
  }

  lemma LockStepRest(s: State, t: nat, a: Action, u: nat)
    requires Enabled(s, t, a) && LockOk(s, t) && u < |s.threads| && LockOk(s, u) && !WriterAction(a) && !ReaderAction(a)
    ensures |Apply(s, t, a).threads| == |s.threads| && LockOk(Apply(s, t, a), u)
  {
    hide Full, Empty, Reading, Writing;
  }

  lemma SleepStepWriter(s: State, t: nat, a: Action, u: nat)
    requires Ring(s) && Locks(s) && Sleepers(s) && Enabled(s, t, a) && u < |s.threads| && WriterAction(a)
    ensures |Apply(s, t, a).threads| == |s.threads| && SleepOk(Apply(s, t, a), Apply(s, t, a).threads[u].pc)
  {
    hide Ring;
    assert SleepOk(s, s.threads[t].pc) && SleepOk(s, s.threads[u].pc) && LockOk(s, t) && LockOk(s, u);
    FullEmpty(s);
    RingStep(s, t, a);
    FullEmpty(Apply(s, t, a));
  }

  lemma SleepStepReader(s: State, t: nat, a: Action, u: nat)
    requires Ring(s) && Locks(s) && Sleepers(s) && Enabled(s, t, a) && u < |s.threads| && ReaderAction(a)
    ensures |Apply(s, t, a).threads| == |s.threads| && SleepOk(Apply(s, t, a), Apply(s, t, a).threads[u].pc)
  {
    hide Ring;
    assert SleepOk(s, s.threads[t].pc) && SleepOk(s, s.threads[u].pc) && LockOk(s, t) && LockOk(s, u);
    FullEmpty(s);
    RingStep(s, t, a);
    FullEmpty(Apply(s, t, a));
  }

  lemma SleepStepRest(s: State, t: nat, a: Action, u: nat)
    requires Ring(s) && Locks(s) && Sleepers(s) && Enabled(s, t, a) && u < |s.threads| && !WriterAction(a)
    requires !ReaderAction(a)
    ensures |Apply(s, t, a).threads| == |s.threads| && SleepOk(Apply(s, t, a), Apply(s, t, a).threads[u].pc)
  {
    hide Ring;
    assert SleepOk(s, s.threads[t].pc) && SleepOk(s, s.threads[u].pc) && LockOk(s, t) && LockOk(s, u);
    FullEmpty(s);
    RingStep(s, t, a);
    FullEmpty(Apply(s, t, a));
  }

  lemma ReaderStepWriter(s: State, t: nat, a: Action, u: nat)
    requires Ring(s) && Locks(s) && Sleepers(s) && Readers(s) && Enabled(s, t, a) && u < |s.threads| && WriterAction(a)
    requires !(a.FullFail? && s.readopen)
    ensures |Apply(s, t, a).threads| == |s.threads| && ReaderOk(Apply(s, t, a), Apply(s, t, a).threads[u].pc)
  {
    hide Ring;
    assert SleepOk(s, s.threads[t].pc) && SleepOk(s, s.threads[u].pc) && LockOk(s, t) && LockOk(s, u);
    assert ReaderOk(s, s.threads[u].pc);
    FullEmpty(s);
    RingStep(s, t, a);
    FullEmpty(Apply(s, t, a));
  }

  lemma ReaderStepReader(s: State, t: nat, a: Action, u: nat)
    requires Ring(s) && Locks(s) && Sleepers(s) && Readers(s) && Enabled(s, t, a) && u < |s.threads| && ReaderAction(a)
    ensures |Apply(s, t, a).threads| == |s.threads| && ReaderOk(Apply(s, t, a), Apply(s, t, a).threads[u].pc)
  {
    hide Ring;
    assert SleepOk(s, s.threads[t].pc) && SleepOk(s, s.threads[u].pc) && LockOk(s, t) && LockOk(s, u);
    assert ReaderOk(s, s.threads[u].pc);
    FullEmpty(s);
    RingStep(s, t, a);
    FullEmpty(Apply(s, t, a));
  }

  lemma ReaderStepRest(s: State, t: nat, a: Action, u: nat)
    requires Ring(s) && Locks(s) && Sleepers(s) && Readers(s) && Enabled(s, t, a) && u < |s.threads| && !WriterAction(a)
    requires !ReaderAction(a)
    ensures |Apply(s, t, a).threads| == |s.threads| && ReaderOk(Apply(s, t, a), Apply(s, t, a).threads[u].pc)
  {
    hide Ring;
    assert SleepOk(s, s.threads[t].pc) && SleepOk(s, s.threads[u].pc) && LockOk(s, t) && LockOk(s, u);
    assert ReaderOk(s, s.threads[u].pc);
    FullEmpty(s);
    RingStep(s, t, a);
    FullEmpty(Apply(s, t, a));
  }

  lemma SameCount(s: State, t: nat, a: Action)
    requires Enabled(s, t, a)
    ensures |Apply(s, t, a).threads| == |s.threads|
  {
  }

  /** A reader that copies has as many bytes as its counter says, and began when there was something to copy or no
      writer left. */
  predicate CopyOk(s: State, th: Thread) {
    && (th.pc.RCopy? ==> th.pc.i == |th.got| && (th.pc.i == 0 ==> !(Empty(s) && s.writeopen)))
    && (th.pc.RLoop? || th.pc.RSleep? || th.pc.RGoing? || th.pc.RAsleep? || th.pc.RWoken? ==> th.got == [])
  }

  ghost predicate Copies(s: State) {
    forall t :: 0 <= t < |s.threads| ==> CopyOk(s, s.threads[t])
  }

  lemma CopyStepWriter(s: State, t: nat, a: Action, u: nat)
    requires Enabled(s, t, a) && u < |s.threads| && CopyOk(s, s.threads[u]) && LockOk(s, t) && LockOk(s, u)
    requires WriterAction(a)
    ensures |Apply(s, t, a).threads| == |s.threads| && CopyOk(Apply(s, t, a), Apply(s, t, a).threads[u])
  {
    hide Full, Reading, Writing;
  }

  lemma CopyStepReader(s: State, t: nat, a: Action, u: nat)
    requires Enabled(s, t, a) && u < |s.threads| && CopyOk(s, s.threads[u]) && LockOk(s, t) && LockOk(s, u)
    requires ReaderAction(a)
    ensures |Apply(s, t, a).threads| == |s.threads| && CopyOk(Apply(s, t, a), Apply(s, t, a).threads[u])
  {
    hide Full, Reading, Writing;
  }

  lemma CopyStepRest(s: State, t: nat, a: Action, u: nat)
    requires Enabled(s, t, a) && u < |s.threads| && CopyOk(s, s.threads[u]) && LockOk(s, t) && LockOk(s, u)
    requires !WriterAction(a) && !ReaderAction(a)
    ensures |Apply(s, t, a).threads| == |s.threads| && CopyOk(Apply(s, t, a), Apply(s, t, a).threads[u])
  {
    hide Full, Reading, Writing;
  }

  /** How many bytes a writer has stored. */
  function Progress(th: Thread): nat {
    match th.pc
    case WLoop(i) => i
    case WWake(i) => i
    case WSleep(i) => i
    case WGoing(i) => i
    case WAsleep(i) => i
    case WWoken(i) => i
    case _ => |th.src|
  }

  /** A reader that copies has the latest bytes taken, in order. */
  predicate GotOk(s: State, th: Thread) {
    th.pc.RCopy? || th.pc.RDone? ==> |th.got| <= |s.taken| && th.got == s.taken[|s.taken| - |th.got|..]
  }

  /** The bytes that a writer has stored are the first ones of its source, in order, though others may lie between. */
  ghost predicate PutOk(s: State, th: Thread) {
    Writing(th.pc) ==>
      && |th.put| == Progress(th) <= |th.src|
      && (forall x :: 0 <= x < |th.put| ==> th.put[x] < |s.stored| && s.stored[th.put[x]] == th.src[x])
      && (forall x, y :: 0 <= x < y < |th.put| ==> th.put[x] < th.put[y])
  }

  ghost predicate Moved(s: State) {
    forall t :: 0 <= t < |s.threads| ==> GotOk(s, s.threads[t]) && PutOk(s, s.threads[t])
  }

  /** A step that neither stores nor takes a byte: a thread goes on with the same call, or begins or ends one. */
  predicate Goes(th: Thread, th': Thread) {
    && (th'.pc.RCopy? || th'.pc.RDone? ==>
          ((th.pc.RCopy? || th.pc.RDone?) && th'.got == th.got) || (th.pc.RLoop? && th'.got == th.got))
    && (Writing(th'.pc) ==>
          || (Writing(th.pc) && th'.src == th.src && th'.put == th.put && Progress(th') == Progress(th))
          || (th'.put == [] && th'.pc == WLoop(0))
          || (th.pc.WLoop? && th.pc.i >= |th.src| && th'.pc.WDone? && th'.src == th.src && th'.put == th.put))
  }

  lemma GoesWriter(s: State, t: nat, a: Action, u: nat)
    requires Enabled(s, t, a) && u < |s.threads| && WriterAction(a) && !a.Store?
    ensures |Apply(s, t, a).threads| == |s.threads| && Goes(s.threads[u], Apply(s, t, a).threads[u])
  {
    hide Full, Empty;
  }

  lemma GoesReader(s: State, t: nat, a: Action, u: nat)
    requires Enabled(s, t, a) && u < |s.threads| && ReaderAction(a) && !a.Take?
    ensures |Apply(s, t, a).threads| == |s.threads| && Goes(s.threads[u], Apply(s, t, a).threads[u])
  {
    hide Full, Empty;
  }

  lemma GoesRest(s: State, t: nat, a: Action, u: nat)
    requires Enabled(s, t, a) && u < |s.threads| && !WriterAction(a) && !ReaderAction(a)
    ensures |Apply(s, t, a).threads| == |s.threads| && Goes(s.threads[u], Apply(s, t, a).threads[u])
  {
    hide Full, Empty;
  }

  lemma SameBytes(s: State, t: nat, a: Action)
    requires Enabled(s, t, a) && !a.Store? && !a.Take?
    ensures Apply(s, t, a).stored == s.stored && Apply(s, t, a).taken == s.taken
  {
    hide Full, Empty;
  }

  lemma GoesMoved(s: State, s': State, th: Thread, th': Thread)
    requires GotOk(s, th) && PutOk(s, th) && CopyOk(s, th) && Goes(th, th')
    requires s'.stored == s.stored && s'.taken == s.taken
    ensures GotOk(s', th') && PutOk(s', th')
  {
    hide Full, Empty;
  }

  lemma StoreMoved(s: State, t: nat, u: nat)
    requires Enabled(s, t, Store) && u < |s.threads| && GotOk(s, s.threads[u]) && PutOk(s, s.threads[u])
    requires PutOk(s, s.threads[t])
    ensures var s' := Apply(s, t, Store);
            |s'.threads| == |s.threads| && GotOk(s', s'.threads[u]) && PutOk(s', s'.threads[u])
  {
    hide Full, Empty;
  }

  lemma TakeMoved(s: State, t: nat, u: nat)
    requires Enabled(s, t, Take) && u < |s.threads| && GotOk(s, s.threads[u]) && PutOk(s, s.threads[u])
    requires LockOk(s, t) && LockOk(s, u)
    ensures var s' := Apply(s, t, Take);
            |s'.threads| == |s.threads| && GotOk(s', s'.threads[u]) && PutOk(s', s'.threads[u])
  {
    hide Full, Empty;
  }

  lemma MovedStep(s: State, t: nat, a: Action)
    requires Enabled(s, t, a) && Locks(s) && Copies(s) && Moved(s)
    ensures Moved(Apply(s, t, a))
  {
    hide Enabled, Apply, GotOk, PutOk, CopyOk, LockOk, WriterAction, ReaderAction, Goes;
    var s' := Apply(s, t, a);
    TheThread(s, t, a);
    SameCount(s, t, a);
    forall u | 0 <= u < |s.threads| ensures GotOk(s', s'.threads[u]) && PutOk(s', s'.threads[u]) {
      if a.Store? {
        StoreMoved(s, t, u);
      } else if a.Take? {
        TakeMoved(s, t, u);
      } else {
        if WriterAction(a) {
          GoesWriter(s, t, a, u);
        } else if ReaderAction(a) {
          GoesReader(s, t, a, u);
        } else {
          GoesRest(s, t, a, u);
        }
        SameBytes(s, t, a);
        GoesMoved(s, s', s.threads[u], s'.threads[u]);
      }
    }
  }

  // ---- Whole runs ----

  ghost predicate Inv(s: State) {
    Ring(s) && Locks(s) && Copies(s) && Sleepers(s) && Moved(s)
  }

  lemma StepKeeps(s: State, t: nat, a: Action)
    requires Inv(s) && Enabled(s, t, a)
    ensures Inv(Apply(s, t, a))
  {
    hide Ring, LockOk, SleepOk, CopyOk, Apply, Enabled, WriterAction, ReaderAction, Moved;
    var s' := Apply(s, t, a);
    TheThread(s, t, a);
    assert LockOk(s, t);
    RingStep(s, t, a);
    MovedStep(s, t, a);
    SameCount(s, t, a);
    LockRange(s, t, a);
    forall u | 0 <= u < |s.threads| ensures LockOk(s', u) {
      if WriterAction(a) {
        if u == t { OwnWriter(s, t, a); } else { LockStepWriter(s, t, a, u); }
      } else if ReaderAction(a) {
        if u == t { OwnReader(s, t, a); } else { LockStepReader(s, t, a, u); }
      } else {
        LockStepRest(s, t, a, u);
      }
    }
    forall u | 0 <= u < |s.threads| ensures CopyOk(s', s'.threads[u]) {
      if WriterAction(a) {
        CopyStepWriter(s, t, a, u);
      } else if ReaderAction(a) {
        CopyStepReader(s, t, a, u);
      } else {
        CopyStepRest(s, t, a, u);
      }
    }
    forall u | 0 <= u < |s.threads| ensures SleepOk(s', s'.threads[u].pc) {
      if WriterAction(a) {
        SleepStepWriter(s, t, a, u);
      } else if ReaderAction(a) {
        SleepStepReader(s, t, a, u);
      } else {
        SleepStepRest(s, t, a, u);
      }
    }
  }

  lemma TheThread(s: State, t: nat, a: Action)
    requires Enabled(s, t, a)
    ensures t < |s.threads|
  {
  }

  /** Sleeping readers keep waiting for bytes in every step except one: the step of a killed writer that leaves a full
      pipe while a reader sleeps. */
  lemma ReaderStep(s: State, t: nat, a: Action)
    requires Inv(s) && Readers(s) && Enabled(s, t, a)
    ensures Readers(Apply(s, t, a)) <==> !Losing(s, a)
  {
    hide Ring, LockOk, SleepOk, ReaderOk, CopyOk, Apply, Enabled, WriterAction, ReaderAction;
    var s' := Apply(s, t, a);
    SameCount(s, t, a);
    if a.FullFail? && s.readopen {
      LosingStep(s, t);
    } else {
      forall u | 0 <= u < |s.threads| ensures ReaderOk(s', s'.threads[u].pc) {
        if WriterAction(a) {
          ReaderStepWriter(s, t, a, u);
        } else if ReaderAction(a) {
          ReaderStepReader(s, t, a, u);
        } else {
          ReaderStepRest(s, t, a, u);
        }
      }
    }
  }

  /** After that step the pipe is full, its lock is free, and the readers that slept still sleep. */
  lemma LosingStep(s: State, t: nat)
    requires Inv(s) && Enabled(s, t, FullFail)
    ensures var s' := Apply(s, t, FullFail);
            && s'.lock == None && |s'.stored| == |s'.taken| + PIPESIZE
            && (SomeReaderSleeps(s') <==> SomeReaderSleeps(s))
            && (Readers(s') <==> !SomeReaderSleeps(s))
  {
    hide Locks, Sleepers, Ring, Copies;
    var s' := Apply(s, t, FullFail);
    FullEmpty(s);
    RingStep(s, t, FullFail);
    FullEmpty(s');
    assert forall u :: 0 <= u < |s.threads| ==> ReaderSleeping(s'.threads[u].pc) == ReaderSleeping(s.threads[u].pc);
    if u :| 0 <= u < |s.threads| && ReaderSleeping(s.threads[u].pc) {
      assert ReaderSleeping(s'.threads[u].pc) && !ReaderOk(s', s'.threads[u].pc);
    }
  }

  lemma LockRange(s: State, t: nat, a: Action)
    requires Enabled(s, t, a) && (s.lock.Some? ==> s.lock.value < |s.threads|)
    requires (s.ptable.Some? ==> s.ptable.value < |s.threads|)
    ensures var s' := Apply(s, t, a);
              (s'.lock.Some? ==> s'.lock.value < |s'.threads|) && (s'.ptable.Some? ==> s'.ptable.value < |s'.threads|)
  {
    hide Full, Empty, Reading, Writing, InLock;
  }

  /** A new pipe: both ends open, nothing stored, nobody inside. */
  predicate Fresh(s: State) {
    && |s.data| == PIPESIZE && s.nread == 0 && s.nwrite == 0 && s.readopen && s.writeopen && s.lock == None
    && s.ptable == None
    && s.stored == [] && s.taken == [] && forall t :: 0 <= t < |s.threads| ==> s.threads[t].pc == Idle
  }

  /** A run: any threads, in any order. Each step is a thread and what it does. */
  ghost predicate Run(states: seq<State>, steps: seq<(nat, Action)>) {
    && |states| == |steps| + 1 && Fresh(states[0])
    && (forall k :: 0 <= k < |steps| ==> Joined(states, k, steps[k]))
  }

  ghost predicate Joined(states: seq<State>, k: nat, step: (nat, Action)) {
    k + 1 < |states| && Enabled(states[k], step.0, step.1) && states[k + 1] == Apply(states[k], step.0, step.1)
  }

  lemma {:induction false} RunInv(states: seq<State>, steps: seq<(nat, Action)>, k: nat)
    requires Run(states, steps) && k < |states|
    ensures Inv(states[k])
  {
    hide Inv, Apply, Enabled, Fresh;
    if k == 0 {
      FreshInv(states[0]);
    } else {
      RunInv(states, steps, k - 1);
      assert Joined(states, k - 1, steps[k - 1]);
      StepKeeps(states[k - 1], steps[k - 1].0, steps[k - 1].1);
    }
  }

  lemma FreshInv(s: State)
    requires Fresh(s)
    ensures Inv(s) && Readers(s)
  {
  }

  /** In every run of any readers and writers, the bytes read so far followed by the bytes in the buffer are the bytes
      stored so far, and the buffer holds at most 512; this includes runs in which the counters have wrapped. */
  lemma PipeFifo(states: seq<State>, steps: seq<(nat, Action)>, k: nat)
    requires Run(states, steps) && k < |states|
    ensures |states[k].data| == PIPESIZE && |Buffered(states[k])| <= PIPESIZE
    ensures states[k].taken + Buffered(states[k]) == states[k].stored
  {
    hide Run, Locks, Sleepers, Buffered;
    RunInv(states, steps, k);
    Fifo(states[k]);
  }

  /** In every run, what piperead hands to its caller are the next bytes of the stream: while a reader copies, its
      bytes are the last ones taken, which are those stored at these places. */
  lemma ReadsStream(states: seq<State>, steps: seq<(nat, Action)>, k: nat, t: nat)
    requires Run(states, steps) && k < |states| && t < |states[k].threads|
    requires states[k].threads[t].pc.RCopy? || states[k].threads[t].pc.RDone?
    ensures var s, got := states[k], states[k].threads[t].got;
            && |got| <= |s.taken| <= |s.stored| && got == s.taken[|s.taken| - |got|..]
            && got == s.stored[|s.taken| - |got|..|s.taken|]
  {
    hide Run, Locks, Sleepers, Copies, Full, Empty;
    RunInv(states, steps, k);
    assert GotOk(states[k], states[k].threads[t]);
  }

  /** In every run, the bytes that a call of pipewrite has put into the pipe are the first ones of its buffer, in order,
      and all of them when it is done. */
  lemma WritesInOrder(states: seq<State>, steps: seq<(nat, Action)>, k: nat, t: nat)
    requires Run(states, steps) && k < |states| && t < |states[k].threads|
    requires states[k].threads[t].pc.WLoop? || states[k].threads[t].pc.WDone?
    ensures var s, th := states[k], states[k].threads[t];
            && |th.put| == (if th.pc.WLoop? then th.pc.i else |th.src|) <= |th.src|
            && (forall x :: 0 <= x < |th.put| ==> th.put[x] < |s.stored| && s.stored[th.put[x]] == th.src[x])
            && (forall x, y :: 0 <= x < y < |th.put| ==> th.put[x] < th.put[y])
  {
    hide Run, Locks, Sleepers, Copies, Full, Empty;
    RunInv(states, steps, k);
    assert PutOk(states[k], states[k].threads[t]);
  }

  /** What a thread was asked to do changes only when it begins another call. */
  lemma SameRequest(s: State, t: nat, a: Action, u: nat)
    requires Enabled(s, t, a) && u < |s.threads| && !s.threads[u].pc.Idle?
    ensures var th, ths := s.threads[u], Apply(s, t, a).threads;
            |ths| == |s.threads| && ths[u].n == th.n && ths[u].src == th.src
  {
    hide Full, Empty, Reading, Writing;
  }

  /** In every run, a call of piperead or pipewrite goes on with the count or the buffer that it was given. */
  lemma {:induction false} RequestKept(states: seq<State>, steps: seq<(nat, Action)>, k: nat, l: nat, t: nat)
    requires Run(states, steps) && k < l < |states| && steps[k].0 == t && t < |states[l].threads|
    requires forall j :: k < j <= l && t < |states[j].threads| ==> !states[j].threads[t].pc.Idle?
    ensures steps[k].1.StartRead? ==> states[l].threads[t].n == steps[k].1.n
    ensures steps[k].1.StartWrite? ==> states[l].threads[t].src == steps[k].1.src
    decreases l
  {
    hide Fresh, Enabled, Apply;
    assert Joined(states, l - 1, steps[l - 1]);
    SameCount(states[l - 1], steps[l - 1].0, steps[l - 1].1);
    if l == k + 1 {
      Given(states[k], t, steps[k].1);
    } else {
      RequestKept(states, steps, k, l - 1, t);
      SameRequest(states[l - 1], steps[l - 1].0, steps[l - 1].1, t);
    }
  }

  lemma Given(s: State, t: nat, a: Action)
    requires Enabled(s, t, a)
    ensures a.StartRead? ==> |Apply(s, t, a).threads| > t && Apply(s, t, a).threads[t].n == a.n
    ensures a.StartWrite? ==> |Apply(s, t, a).threads| > t && Apply(s, t, a).threads[t].src == a.src
  {
    hide Full, Empty;
  }

  /** In every run, kills included, whenever the pipe lock is free a writer that sleeps (or is going to sleep) means
      that the pipe is full and can still be read. */
  lemma WriterNeverStuck(states: seq<State>, steps: seq<(nat, Action)>, k: nat, t: nat)
    requires Run(states, steps) && k < |states| && states[k].lock == None && t < |states[k].threads|
    requires WriterSleeping(states[k].threads[t].pc)
    ensures |states[k].stored| == |states[k].taken| + PIPESIZE && states[k].readopen
  {
    hide Run, Locks, Full, Empty;
    RunInv(states, steps, k);
    FullEmpty(states[k]);
    assert SleepOk(states[k], states[k].threads[t].pc);
  }

  /** No reader sleeps while there are bytes or after the write end was closed. */
  ghost predicate ReadersWait(s: State) {
    SomeReaderSleeps(s) ==> s.taken == s.stored && s.writeopen
  }

  lemma {:induction false} RunReaders(states: seq<State>, steps: seq<(nat, Action)>, k: nat)
    requires Run(states, steps) && k < |states| && forall j :: 0 <= j < k ==> !Losing(states[j], steps[j].1)
    ensures Readers(states[k])
  {
    hide Inv, Apply, Enabled, Fresh, Readers, Losing;
    if k == 0 {
      FreshInv(states[0]);
    } else {
      RunReaders(states, steps, k - 1);
      RunInv(states, steps, k - 1);
      assert Joined(states, k - 1, steps[k - 1]);
      ReaderStep(states[k - 1], steps[k - 1].0, steps[k - 1].1);
    }
  }

  lemma ReadersFree(s: State)
    requires Inv(s) && s.lock == None
    ensures Readers(s) <==> ReadersWait(s)
  {
    hide Locks, Sleepers, Copies, Ring, Full, Empty;
    FullEmpty(s);
    assert s.taken == s.stored <==> |s.taken| == |s.stored| by { TakenPrefix(s); }
    if Readers(s) && SomeReaderSleeps(s) {
      var t :| 0 <= t < |s.threads| && ReaderSleeping(s.threads[t].pc);
      assert ReaderOk(s, s.threads[t].pc);
    }
  }

  lemma TakenPrefix(s: State)
    requires Ring(s)
    ensures s.taken == s.stored <==> |s.taken| == |s.stored|
  {
  }

  /** No reader misses a wakeup in a run if and only if no killed writer leaves a full pipe while a reader sleeps: a
      test of one guard of pipewrite (the pipe is full, the read end is open, the writer was killed). */
  lemma NoLostWakeup(states: seq<State>, steps: seq<(nat, Action)>)
    requires Run(states, steps)
    ensures (forall k :: 0 <= k < |states| && states[k].lock == None ==> ReadersWait(states[k])) <==>
            (forall k :: 0 <= k < |steps| ==> !Losing(states[k], steps[k].1))
  {
    hide Joined, Fresh, Inv, Apply, Enabled, ReadersWait;
    if forall k :: 0 <= k < |steps| ==> !Losing(states[k], steps[k].1) {
      forall k | 0 <= k < |states| && states[k].lock == None ensures ReadersWait(states[k]) {
        RunReaders(states, steps, k);
        RunInv(states, steps, k);
        ReadersFree(states[k]);
      }
    }
    if k :| 0 <= k < |steps| && Losing(states[k], steps[k].1) {
      AfterLosing(states, steps, k);
    }
  }

  lemma AfterLosing(states: seq<State>, steps: seq<(nat, Action)>, k: nat)
    requires Run(states, steps) && k < |steps| && Losing(states[k], steps[k].1)
    ensures states[k + 1].lock == None && !ReadersWait(states[k + 1])
  {
    hide Inv, Apply, Enabled, Fresh;
    RunInv(states, steps, k);
    assert Joined(states, k, steps[k]);
    LosingStep(states[k], steps[k].0);
  }

  /** In every run, piperead stops short only when the pipe is empty, and it returns no byte at all (for a positive
      count) only at the end of the stream: nothing is buffered and nobody can write any more. */
  lemma EndOfStream(states: seq<State>, steps: seq<(nat, Action)>, k: nat, t: nat)
    requires Run(states, steps) && k < |states| && Enabled(states[k], t, CopyDone)
    requires states[k].threads[t].pc.i < states[k].threads[t].n
    ensures states[k].taken == states[k].stored && (states[k].threads[t].got == [] ==> !states[k].writeopen)
  {
    hide Run, Locks, Sleepers;
    RunInv(states, steps, k);
    FullEmpty(states[k]);
    assert CopyOk(states[k], states[k].threads[t]);
  }

  // ---- A run that loses a wakeup ----

  /** A reader asleep, a writer that has stored j bytes, and a third thread. */
  function Filled(j: nat, killed: bool): State {
    State(seq(PIPESIZE, _ => 7), 0, j, true, true, Some(1), None,
          [Thread(RAsleep, [], [], 1, false, []),
           Thread(WLoop(j), seq(PIPESIZE + 1, _ => 7), [], 0, killed, seq(j, x => x)),
           Thread(Idle, [], [], 0, false, [])],
          seq(j, _ => 7), [])
  }

  lemma Extend(states: seq<State>, steps: seq<(nat, Action)>, t: nat, a: Action, s': State)
    requires Run(states, steps) && Enabled(states[|steps|], t, a) && s' == Apply(states[|steps|], t, a)
    ensures Run(states + [s'], steps + [(t, a)])
  {
    hide Fresh, Enabled, Apply;
    var states', steps' := states + [s'], steps + [(t, a)];
    forall k | 0 <= k < |steps'| ensures Joined(states', k, steps'[k]) {
      if k < |steps| { assert Joined(states, k, steps[k]); }
    }
  }

  /** The states in which the reader, alone, goes to sleep. */
  function Early(pc: Pc, n: nat, lock: Option<nat>, ptable: Option<nat>): State {
    var idle := Thread(Idle, [], [], 0, false, []);
    State(seq(PIPESIZE, _ => 7), 0, 0, true, true, lock, ptable, [Thread(pc, [], [], n, false, []), idle, idle], [], [])
  }

  function Begin(k: nat): State {
    if k == 0 then Early(Idle, 0, None, None)
    else if k == 1 then Early(RLoop, 1, Some(0), None)
    else if k == 2 then Early(RSleep, 1, Some(0), None)
    else if k == 3 then Early(RGoing, 1, None, Some(0))
    else Early(RAsleep, 1, None, None)
  }

  function Act(k: nat): Action {
    if k == 0 then StartRead(1) else if k == 1 then EmptyWait else if k == 2 then ReaderSleeps else FallAsleep
  }

  lemma BeginStep(k: nat)
    requires k < 4
    ensures Enabled(Begin(k), 0, Act(k)) && Apply(Begin(k), 0, Act(k)) == Begin(k + 1)
  {
    if k == 0 {
    } else if k == 1 {
    } else if k == 2 {
    } else {
    }
  }

  lemma WriterStep()
    ensures var src: seq<Byte> := seq(PIPESIZE + 1, _ => 7);
            Enabled(Begin(4), 1, StartWrite(src)) && Apply(Begin(4), 1, StartWrite(src)) == Filled(0, false)
  {
    assert seq(0, _ => 7) == [];
    assert seq(0, x => x) == [];
  }

  lemma BeginRun()
    ensures Run([Begin(0)], [])
  {
  }

  /** The reader finds the pipe empty and falls asleep; the writer begins. */
  lemma ReaderFirst() returns (states: seq<State>, steps: seq<(nat, Action)>)
    ensures |states| == |steps| + 1 && Run(states, steps) && states[|steps|] == Filled(0, false)
  {
    hide Run, Enabled, Apply, Begin, Act, Filled;
    BeginRun();
    states, steps := [Begin(0)], [];
    var k := 0;
    while k < 4
      invariant 0 <= k <= 4 && |states| == |steps| + 1 && Run(states, steps) && states[|steps|] == Begin(k)
    {
      BeginStep(k);
      Extend(states, steps, 0, Act(k), Begin(k + 1));
      states, steps := states + [Begin(k + 1)], steps + [(0, Act(k))];
      k := k + 1;
    }
    WriterStep();
    var src: seq<Byte> := seq(PIPESIZE + 1, _ => 7);
    Extend(states, steps, 1, StartWrite(src), Filled(0, false));
    states, steps := states + [Filled(0, false)], steps + [(1, StartWrite(src))];
  }

  lemma StoreOne(j: nat)
    requires j < PIPESIZE
    ensures Enabled(Filled(j, false), 1, Store) && Apply(Filled(j, false), 1, Store) == Filled(j + 1, false)
  {
    assert seq(j, _ => 7) + [7] == seq(j + 1, _ => 7);
    assert seq(j, x => x) + [j] == seq(j + 1, x => x);
    assert Filled(j, false).data[j := 7] == Filled(j, false).data;
  }

  lemma KillThenFail()
    ensures Enabled(Filled(PIPESIZE, false), 2, Kill(1))
    ensures Apply(Filled(PIPESIZE, false), 2, Kill(1)) == Filled(PIPESIZE, true)
    ensures Enabled(Filled(PIPESIZE, true), 1, FullFail) && Losing(Filled(PIPESIZE, true), FullFail)
  {
    assert ReaderSleeping(Filled(PIPESIZE, true).threads[0].pc);
  }

  /** Such a run exists: a reader falls asleep on the empty pipe, a writer stores 512 of its 513 bytes and is killed,
      and leaves. The reader sleeps on, the lock is free, and 512 bytes are there. */
  lemma KilledWriterLosesWakeup() returns (states: seq<State>, steps: seq<(nat, Action)>)
    ensures Run(states, steps)
    ensures var s := states[|steps|];
            && s.lock == None && |s.threads| == 3 && s.threads[0].pc.RAsleep? && !s.threads[0].killed
            && |s.stored| == PIPESIZE && s.taken == []
    ensures !ReadersWait(states[|steps|])
  {
    hide Run, Enabled, Apply, Losing;
    states, steps := ReaderFirst();
    var j := 0;
    while j < PIPESIZE
      invariant 0 <= j <= PIPESIZE && |states| == |steps| + 1 && Run(states, steps)
      invariant states[|steps|] == Filled(j, false)
    {
      StoreOne(j);
      Extend(states, steps, 1, Store, Filled(j + 1, false));
      states, steps := states + [Filled(j + 1, false)], steps + [(1, Store)];
      j := j + 1;
    }
    KillThenFail();
    Extend(states, steps, 2, Kill(1), Filled(PIPESIZE, true));
    states, steps := states + [Filled(PIPESIZE, true)], steps + [(2, Kill(1))];
    var s' := Apply(Filled(PIPESIZE, true), 1, FullFail);
    Extend(states, steps, 1, FullFail, s');
    var last := |steps|;
    states, steps := states + [s'], steps + [(1, FullFail)];
    AfterLosing(states, steps, last);
    FailState();
  }

  lemma FailState()
    requires Enabled(Filled(PIPESIZE, true), 1, FullFail)
    ensures var s := Apply(Filled(PIPESIZE, true), 1, FullFail);
            && |s.threads| == 3 && s.threads[0].pc.RAsleep? && !s.threads[0].killed
            && |s.stored| == PIPESIZE && s.taken == []
  {
  }

  // ---- Calls come to an end ----

  /** How many steps of its own a thread can take at most before it sleeps or has returned. */
  function StepsLeft(th: Thread): nat {
    match th.pc
    case WLoop(i) => (if i < |th.src| then |th.src| - i else 0) + 5
    case WWake(_) => 4
    case WSleep(_) => 3
    case WGoing(_) => 2
    case WDone => 3
    case RLoop => th.n + 6
    case RSleep => 3
    case RGoing => 2
    case RCopy(i) => (if i < th.n then th.n - i else 0) + 4
    case RDone => 3
    case CloseW => 3
    case CloseR => 3
    case Leaving => 1
    case _ => 0
  }

  predicate Begins(a: Action) {
    a.StartWrite? || a.StartRead? || a.CloseWrite? || a.CloseRead? || a.Resume?
  }

  /** Every step of a call, after the one with which it begins or goes on after sleep, brings it nearer to its return or
      to sleep. */
  lemma StepAdvances(s: State, t: nat, a: Action)
    requires Enabled(s, t, a) && !a.Kill?
    ensures |Apply(s, t, a).threads| == |s.threads|
    ensures if Begins(a) then StepsLeft(s.threads[t]) == 0 < StepsLeft(Apply(s, t, a).threads[t])
            else StepsLeft(Apply(s, t, a).threads[t]) < StepsLeft(s.threads[t])
  {
    hide Enabled, Apply, StepsLeft;
    TheThread(s, t, a);
    SameCount(s, t, a);
    if WriterAction(a) { WriterAdvances(s, t, a); } else { OtherAdvances(s, t, a); }
  }

  lemma WriterAdvances(s: State, t: nat, a: Action)
    requires Enabled(s, t, a) && !a.Kill? && WriterAction(a)
    ensures |Apply(s, t, a).threads| == |s.threads|
    ensures if Begins(a) then StepsLeft(s.threads[t]) == 0 < StepsLeft(Apply(s, t, a).threads[t])
            else StepsLeft(Apply(s, t, a).threads[t]) < StepsLeft(s.threads[t])
  {
    hide Full, Empty, Writing, Reading;
  }

  lemma OtherAdvances(s: State, t: nat, a: Action)
    requires Enabled(s, t, a) && !a.Kill? && !WriterAction(a)
    ensures |Apply(s, t, a).threads| == |s.threads|
    ensures if Begins(a) then StepsLeft(s.threads[t]) == 0 < StepsLeft(Apply(s, t, a).threads[t])
            else StepsLeft(Apply(s, t, a).threads[t]) < StepsLeft(s.threads[t])
  {
    hide Full, Empty, Writing, Reading;
  }

  /** In every run, whoever holds the pipe lock can take its next step, unless another thread holds ptable.lock and can
      take its own: with the steps counted above, the lock is never held for ever. */
  lemma HolderCanMove(states: seq<State>, steps: seq<(nat, Action)>, k: nat) returns (t: nat, a: Action)
    requires Run(states, steps) && k < |states| && states[k].lock.Some?
    ensures Enabled(states[k], t, a) && !a.Kill? && !Begins(a)
    ensures t == states[k].lock.value || states[k].ptable == Some(t)
  {
    hide Run, Sleepers, Copies, Moved;
    RunInv(states, steps, k);
    var s := states[k];
    t := s.lock.value;
    assert LockOk(s, t);
    if s.ptable.Some? { assert LockOk(s, s.ptable.value); }
    a := NextAction(s, s.threads[t]);
    if s.ptable.Some? && (a.WakeReaders? || a.WakeWriters? || a.WriterSleeps? || a.ReaderSleeps?) {
      t, a := s.ptable.value, FallAsleep;
    }
  }

  /** What a thread that holds the lock does next. */
  function NextAction(s: State, th: Thread): Action {
    match th.pc
    case WLoop(i) =>
      if i >= |th.src| then StoredAll else if !Full(s) then Store
      else if !s.readopen || th.killed then FullFail else FullWake
    case WSleep(_) => WriterSleeps
    case RLoop => if !(Empty(s) && s.writeopen) then StartCopy else if th.killed then EmptyFail else EmptyWait
    case RSleep => ReaderSleeps
    case RCopy(i) => if i < th.n && !Empty(s) then Take else CopyDone
    case RDone => WakeWriters
    case CloseR => WakeWriters
    case Leaving => Leave
    case _ => WakeReaders
  }
}
