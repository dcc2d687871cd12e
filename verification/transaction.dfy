/** Whole transactions: any interleaving of reads, changes, log_writes and releases of buffers, then commit; and what is
    left of it after crashes. */
module Transactions {
  import opened Blocks
  import opened MemIde
  import opened BufferCache
  import opened LogSectors
  import opened LogImage
  import opened RedoLog

  /** What the code of a transaction does with the buffer of a sector: bread, a change of its data, log_write,
      brelse. */
  datatype Event = Read(s: nat) | Modify(s: nat, data: Block) | LogIt(s: nat) | Release(s: nat)

  /** A transaction as its code sees it: the data of the buffers it holds, the sectors logged so far, and the home
      sectors as they will be if it commits now. */
  datatype Txn = Txn(held: map<nat, Block>, log: seq<nat>, home: Image)

  /** The number of buffers that cannot be recycled: held ones, and logged ones, which stay pinned until the commit. */
  function InUse(t: Txn): nat {
    |t.held.Keys + SectorSet(t.log)|
  }

  /** What the kernel demands of the code: no second bread of a sector it holds, a buffer to recycle ("bget: no
      buffers"), room in the log ("too big a transaction"), and no release of changes that were not logged. */
  ghost predicate Enabled(t: Txn, e: Event, size: nat) {
    match e
    case Read(s) => s < |t.home| && s !in t.held && (s in t.log || InUse(t) < NBUF)
    case Modify(s, _) => s in t.held
    case LogIt(s) => s in t.held && s < |t.home| && InUse(t) < NBUF && |LoggedSectors(t.log)| + 1 < size
    case Release(s) => s in t.held && s < |t.home| && t.held[s] == t.home[s]
  }

  /** A read sees what the transaction itself has logged, a log_write takes the data as they are at that moment. */
  function Next(t: Txn, e: Event): (r: Txn)
    requires (e.Read? ==> e.s < |t.home|) && (e.LogIt? ==> e.s in t.held && e.s < |t.home|)
    ensures |r.home| == |t.home|
  {
    match e
    case Read(s) => t.(held := t.held[s := t.home[s]])
    case Modify(s, data) => t.(held := t.held[s := data])
    case LogIt(s) => t.(log := t.log + [s], home := t.home[s := t.held[s]])
    case Release(s) => t.(held := t.held - {s})
  }

  /** Every event is allowed when its turn comes. */
  ghost predicate Runs(t: Txn, events: seq<Event>, size: nat)
    decreases |events|
  {
    events == [] || (Enabled(t, events[0], size) && Runs(Next(t, events[0]), events[1..], size))
  }

  // ---- What the events leave, read off their list ----

  /** Event j is the last one of its kind for the sector among the first k. */
  predicate LastLogIt(events: seq<Event>, k: nat, s: nat, j: nat) {
    && j < k <= |events| && events[j] == LogIt(s)
    && forall x :: j < x < k ==> events[x] != LogIt(s)
  }

  predicate LastModify(events: seq<Event>, k: nat, s: nat, i: nat, data: Block) {
    && i < k <= |events| && events[i] == Modify(s, data)
    && forall x :: i < x < k ==> !(events[x].Modify? && events[x].s == s)
  }

  predicate NoLogIt(events: seq<Event>, k: nat, s: nat)
    requires k <= |events|
  {
    forall x :: 0 <= x < k ==> events[x] != LogIt(s)
  }

  predicate NoModify(events: seq<Event>, k: nat, s: nat)
    requires k <= |events|
  {
    forall x :: 0 <= x < k ==> !(events[x].Modify? && events[x].s == s)
  }

  /** The sector was read and not released since. */
  ghost predicate Holding(events: seq<Event>, k: nat, s: nat)
    requires k <= |events|
  {
    exists i :: 0 <= i < k && ReadSince(events, k, s, i)
  }

  predicate ReadSince(events: seq<Event>, k: nat, s: nat, i: nat)
    requires i < k <= |events|
  {
    events[i] == Read(s) && forall x :: i < x < k ==> events[x] != Release(s)
  }

  /** The events change sector s to data: the last change before the last log_write of the sector. */
  predicate Changed(events: seq<Event>, k: nat, s: nat, i: nat, j: nat, data: Block) {
    LastLogIt(events, k, s, j) && LastModify(events, j, s, i, data)
  }

  /** The events do not change sector s: it is not logged, or not changed before it was last logged. */
  ghost predicate Unchanged(events: seq<Event>, k: nat, s: nat)
    requires k <= |events|
  {
    NoLogIt(events, k, s) || exists j: nat :: LastLogIt(events, k, s, j) && NoModify(events, j, s)
  }

  /** The sector as the code of the transaction sees it now: its buffer if it is held, else the pending contents. */
  function Seen(t: Txn, s: nat): Block
    requires s < |t.home|
  {
    if s in t.held then t.held[s] else t.home[s]
  }

  /** What the first k events mean for sector s. */
  ghost predicate SectorAfter(events: seq<Event>, k: nat, home: Image, t: Txn, s: nat) {
    && k <= |events| && |t.home| == |home| && s < |home|
    && (s in t.held <==> Holding(events, k, s))
    && (NoModify(events, k, s) ==> Seen(t, s) == home[s])
    && (forall i: nat, data :: LastModify(events, k, s, i, data) ==> Seen(t, s) == data)
    && (Unchanged(events, k, s) ==> t.home[s] == home[s])
    && (forall i: nat, j: nat, data :: Changed(events, k, s, i, j, data) ==> t.home[s] == data)
  }

  ghost predicate After(events: seq<Event>, k: nat, home: Image, t: Txn) {
    && k <= |events| && |t.home| == |home| && (forall s :: s in t.held ==> s < |home|)
    && forall s: nat :: s < |home| ==> SectorAfter(events, k, home, t, s)
  }

  lemma AfterNothing(events: seq<Event>, home: Image)
    ensures After(events, 0, home, Txn(map[], [], home))
  {
  }

  /** How one more event, number k, changes what the list says about a sector. */
  lemma HoldingStep(events: seq<Event>, k: nat, m: nat, s: nat)
    requires k < |events| && m == k + 1
    ensures Holding(events, m, s) <==> events[k] == Read(s) || (Holding(events, k, s) && events[k] != Release(s))
  {
    if Holding(events, k, s) && events[k] != Release(s) {
      var i :| 0 <= i < k && ReadSince(events, k, s, i);
      assert ReadSince(events, m, s, i);
    }
    if events[k] == Read(s) { assert ReadSince(events, m, s, k); }
    if Holding(events, m, s) {
      var i :| 0 <= i < m && ReadSince(events, m, s, i);
      assert i < k ==> ReadSince(events, k, s, i);
    }
  }

  lemma ModifyStep(events: seq<Event>, k: nat, m: nat, s: nat)
    requires k < |events| && m == k + 1
    ensures NoModify(events, m, s) <==> NoModify(events, k, s) && !(events[k].Modify? && events[k].s == s)
    ensures forall i: nat, data :: LastModify(events, m, s, i, data) <==>
              if events[k].Modify? && events[k].s == s then i == k && data == events[k].data
              else LastModify(events, k, s, i, data)
  {
    forall i: nat, data
      ensures LastModify(events, m, s, i, data) <==>
              if events[k].Modify? && events[k].s == s then i == k && data == events[k].data
              else LastModify(events, k, s, i, data) {
      if i < k { assert k < m; }
    }
  }

  lemma LogItStep(events: seq<Event>, k: nat, m: nat, s: nat)
    requires k < |events| && m == k + 1
    ensures NoLogIt(events, m, s) <==> NoLogIt(events, k, s) && events[k] != LogIt(s)
    ensures forall j: nat :: LastLogIt(events, m, s, j) <==>
              if events[k] == LogIt(s) then j == k else LastLogIt(events, k, s, j)
  {
    forall j: nat
      ensures LastLogIt(events, m, s, j) <==> if events[k] == LogIt(s) then j == k else LastLogIt(events, k, s, j) {
      if j < k { assert k < m; }
    }
  }

  lemma {:induction false} SomeModify(events: seq<Event>, k: nat, s: nat)
    requires k <= |events|
    ensures NoModify(events, k, s) || exists i: nat, data :: LastModify(events, k, s, i, data)
  {
    hide LastModify, NoModify;
    if k > 0 {
      SomeModify(events, k - 1, s);
      ModifyStep(events, k - 1, k, s);
      var e := events[k - 1];
      if e.Modify? && e.s == s {
        assert LastModify(events, k, s, k - 1, e.data);
      } else if !NoModify(events, k - 1, s) {
        var i: nat, data :| LastModify(events, k - 1, s, i, data);
        assert LastModify(events, k, s, i, data);
      }
    } else {
      NoneBefore(events, s);
    }
  }

  lemma NoneBefore(events: seq<Event>, s: nat)
    ensures NoModify(events, 0, s) && NoLogIt(events, 0, s)
  {
  }

  lemma {:induction false} SomeLogIt(events: seq<Event>, k: nat, s: nat)
    requires k <= |events|
    ensures NoLogIt(events, k, s) || exists j: nat :: LastLogIt(events, k, s, j)
  {
    hide LastLogIt, NoLogIt;
    if k > 0 {
      SomeLogIt(events, k - 1, s);
      LogItStep(events, k - 1, k, s);
      if events[k - 1] == LogIt(s) { assert LastLogIt(events, k, s, k - 1); }
    } else {
      NoneBefore(events, s);
    }
  }

  /** A list of events changes a sector or it does not: the two cases above are all there are. */
  lemma ChangedOrNot(events: seq<Event>, k: nat, s: nat)
    requires k <= |events|
    ensures Unchanged(events, k, s) || exists i: nat, j: nat, data :: Changed(events, k, s, i, j, data)
  {
    hide LastModify, NoModify, NoLogIt;
    SomeLogIt(events, k, s);
    if !NoLogIt(events, k, s) {
      var j: nat :| LastLogIt(events, k, s, j);
      SomeModify(events, j, s);
      if !NoModify(events, j, s) {
        var i: nat, data :| LastModify(events, j, s, i, data);
        assert Changed(events, k, s, i, j, data);
      }
    }
  }

  /** An event that does not log the sector. */
  lemma NotLoggedStep(events: seq<Event>, k: nat, m: nat, s: nat)
    requires k < |events| && m == k + 1 && events[k] != LogIt(s)
    ensures Unchanged(events, m, s) ==> Unchanged(events, k, s)
    ensures forall i: nat, j: nat, data :: Changed(events, m, s, i, j, data) ==> Changed(events, k, s, i, j, data)
  {
    hide NoModify, LastModify;
    LogItStep(events, k, m, s);
  }

  /** An event that logs the sector: the pending contents are those of its buffer. */
  lemma LoggedStep(events: seq<Event>, k: nat, m: nat, home: Image, t: Txn, s: nat)
    requires k < |events| && m == k + 1 && events[k] == LogIt(s) && SectorAfter(events, k, home, t, s) && s in t.held
    ensures Unchanged(events, m, s) ==> t.held[s] == home[s]
    ensures forall i: nat, j: nat, data :: Changed(events, m, s, i, j, data) ==> t.held[s] == data
  {
    hide NoModify, LastModify, LastLogIt, NoLogIt, Holding;
    LogItStep(events, k, m, s);
  }

  lemma SectorStep(events: seq<Event>, k: nat, m: nat, home: Image, t: Txn, s: nat, size: nat)
    requires k < |events| && m == k + 1 && SectorAfter(events, k, home, t, s) && Enabled(t, events[k], size)
    ensures SectorAfter(events, m, home, Next(t, events[k]), s)
  {
    hide Holding, NoModify, NoLogIt, LastModify, LastLogIt, InUse, Unchanged, Changed;
    HoldingStep(events, k, m, s);
    ModifyStep(events, k, m, s);
    if events[k] == LogIt(s) {
      LoggedStep(events, k, m, home, t, s);
    } else {
      NotLoggedStep(events, k, m, s);
    }
  }

  lemma AfterStep(events: seq<Event>, k: nat, m: nat, home: Image, t: Txn, size: nat)
    requires k < |events| && m == k + 1 && After(events, k, home, t) && Enabled(t, events[k], size)
    ensures After(events, m, home, Next(t, events[k]))
  {
    hide SectorAfter, InUse;
    var t' := Next(t, events[k]);
    forall s: nat | s < |home| ensures SectorAfter(events, m, home, t', s) {
      SectorStep(events, k, m, home, t, s, size);
    }
  }

  lemma AfterAll(events: seq<Event>, home: Image, t: Txn)
    requires After(events, |events|, home, t) && forall s: nat :: !Holding(events, |events|, s)
    ensures t.held == map[] && |t.home| == |home|
    ensures forall s: nat :: s < |home| && Unchanged(events, |events|, s) ==> t.home[s] == home[s]
    ensures forall s: nat, i: nat, j: nat, data :: s < |home| && Changed(events, |events|, s, i, j, data) ==>
              t.home[s] == data
  {
    hide Holding, Unchanged, Changed;
    forall s: nat | s < |home|
      ensures s !in t.held && (Unchanged(events, |events|, s) ==> t.home[s] == home[s]) {
      assert SectorAfter(events, |events|, home, t, s);
    }
    forall s: nat, i: nat, j: nat, data | s < |home| && Changed(events, |events|, s, i, j, data)
      ensures t.home[s] == data {
      assert SectorAfter(events, |events|, home, t, s);
    }
  }

  // ---- Buffers and what the transaction holds ----

  /** The held buffers: `at` says where they are. */
  ghost predicate Matches(buf: seq<Buf>, at: map<nat, nat>, held: map<nat, Block>, start: nat) {
    && at.Keys == held.Keys
    && (forall s :: s in at ==> s < start && at[s] < |buf| && HasData(buf[at[s]], s, held[s]))
    && (forall c: nat :: c < |buf| && buf[c].busy ==> buf[c].sector in at && at[buf[c].sector] == c)
  }

  predicate HasData(b: Buf, s: nat, data: Block) {
    b.busy && b.valid && b.dev == DISK_DEV && b.sector == s && b.data == data
  }

  /** A buffer of a logged sector is pinned, and the log block holds the pending contents; other sectors are as on
      disk. */
  lemma PendingAt(buf: seq<Buf>, image: Image, start: nat, secs: seq<nat>, slot: seq<nat>, c: nat)
    requires Coherent(buf, image) && Loggable(secs, start) && Pinned(buf, image, start, secs, slot)
    requires c < NBUF && buf[c].valid && buf[c].sector < start
    ensures var s := buf[c].sector;
            if buf[c].dirty then
              exists i: nat :: i < |secs| && slot[i] == c && secs[i] == s &&
                  Installed(image, start, secs)[s] == image[start + 1 + i]
            else s !in secs && Installed(image, start, secs)[s] == image[s]
  {
    hide Installed;
    var s := buf[c].sector;
    InstalledAt(image, start, secs, s);
    Distinct(buf, image, c);
    assert BufOk(buf[c], image);
    if buf[c].dirty {
      var i: nat :| i < |slot| && slot[i] == c;
      assert LastAt(secs, s) == i;
    } else {
      forall i | 0 <= i < |secs| ensures secs[i] != s {
        assert BufOk(buf[slot[i]], image) && slot[i] != c;
      }
    }
  }

  lemma {:induction false} SectorsOfBuffers(buf: seq<Buf>, image: Image, k: nat, used: set<nat>)
    requires Coherent(buf, image) && k <= NBUF
    requires forall c: nat :: c < k ==> buf[c].dev == DISK_DEV && buf[c].sector in used
    ensures k <= |used|
  {
    if k > 0 {
      var s := buf[k - 1].sector;
      Distinct(buf, image, k - 1);
      forall c: nat | c < k - 1 ensures buf[c].sector in used - {s} {
        assert !SameSector(buf[c], buf[k - 1]);
      }
      SectorsOfBuffers(buf, image, k - 1, used - {s});
    }
  }

  /** With fewer sectors in use than buffers, some buffer can be recycled. */
  lemma SomeRecyclable(buf: seq<Buf>, image: Image, start: nat, secs: seq<nat>, slot: seq<nat>, at: map<nat, nat>,
                       t: Txn)
    requires Coherent(buf, image) && Pinned(buf, image, start, secs, slot) && Matches(buf, at, t.held, start)
    requires secs == LoggedSectors(t.log) && InUse(t) < NBUF
    ensures exists c: nat :: c < NBUF && Free(buf[c])
  {
    hide LoggedSectors;
    DistinctLogged(t.log);
    if forall c: nat :: c < NBUF ==> !Free(buf[c]) {
      forall c: nat | c < NBUF ensures buf[c].dev == DISK_DEV && buf[c].sector in t.held.Keys + SectorSet(t.log) {
        assert BufOk(buf[c], image) && !Free(buf[c]);
        if buf[c].dirty && !buf[c].busy {
          var i: nat :| i < |slot| && slot[i] == c;
          assert secs[i] in secs;
        }
      }
      SectorsOfBuffers(buf, image, NBUF, t.held.Keys + SectorSet(t.log));
    }
  }

  /** A sector that nobody holds can be fetched if it is pinned or some buffer can be recycled. */
  lemma NobodyHolds(buf: seq<Buf>, at: map<nat, nat>, held: map<nat, Block>, start: nat, s: nat)
    requires Matches(buf, at, held, start) && s !in held
    ensures forall b: nat :: b < |buf| && buf[b].sector == s ==> !buf[b].busy
  {
  }

  /** The buffer of a logged sector is in the cache. */
  lemma PinnedThere(buf: seq<Buf>, image: Image, start: nat, secs: seq<nat>, slot: seq<nat>, log: seq<nat>, s: nat)
    requires Coherent(buf, image) && Pinned(buf, image, start, secs, slot) && secs == LoggedSectors(log) && s in log
    ensures exists b: nat :: b < NBUF && buf[b].dev == DISK_DEV && buf[b].sector == s
  {
    hide LoggedSectors;
    DistinctLogged(log);
    var i: nat :| i < |secs| && secs[i] == s;
    assert BufOk(buf[slot[i]], image);
  }

  lemma CanFetch(cache: BCache, start: nat, secs: seq<nat>, slot: seq<nat>, at: map<nat, nat>, t: Txn, s: nat)
    requires cache.Valid() && Pinned(cache.buf, cache.disk.sectors, start, secs, slot)
    requires Matches(cache.buf, at, t.held, start) && secs == LoggedSectors(t.log) && s !in t.held
    requires s in t.log || InUse(t) < NBUF
    ensures cache.CanGet(DISK_DEV, s)
  {
    hide LoggedSectors, Ring, Ordered, Coherent, Pinned, Matches;
    NobodyHolds(cache.buf, at, t.held, start, s);
    if s in t.log {
      PinnedThere(cache.buf, cache.disk.sectors, start, secs, slot, t.log, s);
      var b: nat :| b < NBUF && cache.buf[b].dev == DISK_DEV && cache.buf[b].sector == s;
      assert cache.Holds(b, DISK_DEV, s);
    } else {
      SomeRecyclable(cache.buf, cache.disk.sectors, start, secs, slot, at, t);
      var c: nat :| c < NBUF && Free(cache.buf[c]);
      assert cache.Recyclable(c);
    }
  }

  lemma FetchedMatches(before: seq<Buf>, after: seq<Buf>, at: map<nat, nat>, held: map<nat, Block>, start: nat, b: nat,
                       s: nat, data: Block)
    requires Matches(before, at, held, start) && b < |before| == |after| && !before[b].busy
    requires after == before[b := after[b]]
    requires HasData(after[b], s, data) && s < start && s !in at
    ensures Matches(after, at[s := b], held[s := data], start)
  {
  }

  lemma ChangedMatches(before: seq<Buf>, at: map<nat, nat>, held: map<nat, Block>, start: nat, s: nat, data: Block)
    requires Matches(before, at, held, start) && s in at
    ensures at[s] < |before| && Matches(before[at[s] := before[at[s]].(data := data)], at, held[s := data], start)
  {
  }

  lemma LoggedMatches(before: seq<Buf>, after: seq<Buf>, at: map<nat, nat>, held: map<nat, Block>, start: nat, s: nat)
    requires Matches(before, at, held, start) && s in at && |before| == NBUF
    requires at[s] < NBUF && InUseKept(before[at[s] := before[at[s]].(dirty := true)], after)
    ensures Matches(after, at, held, start)
  {
    var mid := before[at[s] := before[at[s]].(dirty := true)];
    assert forall c: nat :: c < NBUF ==> mid[c].busy == before[c].busy;
    forall x | x in at ensures HasData(after[at[x]], x, held[x]) {
      assert HasData(mid[at[x]], x, held[x]);
    }
  }

  lemma ReleasedMatches(before: seq<Buf>, at: map<nat, nat>, held: map<nat, Block>, start: nat, s: nat)
    requires Matches(before, at, held, start) && s in at
    ensures at[s] < |before| && Matches(before[at[s] := before[at[s]].(busy := false)], at - {s}, held - {s}, start)
  {
    var after, at' := before[at[s] := before[at[s]].(busy := false)], at - {s};
    forall x | x in at' ensures x < start && at'[x] < |after| && HasData(after[at'[x]], x, (held - {s})[x]) {
      assert at[x] != at[s];
    }
  }

  // ---- The four events on the real log ----

  /** The log is in the middle of the transaction t. */
  ghost predicate Tracks(log: Log, at: map<nat, nat>, t: Txn)
    reads log, log.cache, log.cache.disk
  {
    && log.Valid() && log.busy
    && Matches(log.cache.buf, at, t.held, log.start)
    && log.sector[..log.n] == LoggedSectors(t.log)
    && log.Pending() == t.home
  }

  method Fetch(log: Log, ghost at: map<nat, nat>, ghost t: Txn, s: nat) returns (b: nat)
    requires Tracks(log, at, t) && Enabled(t, Read(s), log.size)
    modifies log.cache, log.cache.disk
    ensures Tracks(log, at[s := b], Next(t, Read(s)))
    ensures log.cache.disk.sectors == old(log.cache.disk.sectors) && log.cache.disk.trace == old(log.cache.disk.trace)
  {
    hide Ring, Ordered, Coherent, Pinned, Loggable, Homes, Installed, Matches, LoggedSectors, HeadN;
    ghost var before, image, secs := log.cache.buf, log.cache.disk.sectors, log.sector[..log.n];
    SameKeys(before, at, t.held, log.start);
    CanFetch(log.cache, log.start, secs, log.slot, at, t, s);
    b := log.cache.Bread(DISK_DEV, s);
    PinnedHeld(before, log.cache.buf, image, log.start, secs, log.slot, b);
    ReadPending(before, log.cache.buf, image, log.start, secs, log.slot, b);
    FetchedMatches(before, log.cache.buf, at, t.held, log.start, b, s, t.home[s]);
  }

  lemma SameKeys(buf: seq<Buf>, at: map<nat, nat>, held: map<nat, Block>, start: nat)
    requires Matches(buf, at, held, start)
    ensures at.Keys == held.Keys
    ensures forall s :: s in at ==> s < start && at[s] < |buf| && HasData(buf[at[s]], s, held[s])
  {
  }

  /** What bread returns for a sector that nobody held: its pending contents. */
  lemma ReadPending(before: seq<Buf>, after: seq<Buf>, image: Image, start: nat, secs: seq<nat>, slot: seq<nat>, b: nat)
    requires Coherent(before, image) && Coherent(after, image) && Loggable(secs, start)
    requires Pinned(before, image, start, secs, slot) && Pinned(after, image, start, secs, slot)
    requires b < NBUF && !before[b].busy && after[b].valid && after[b].sector < start && after == before[b := after[b]]
    requires after[b].dirty == before[b].dirty
    requires (before[b].dirty && before[b].valid ==> after[b].data == before[b].data)
    requires !after[b].dirty ==> after[b].data == image[after[b].sector]
    ensures after[b].data == Installed(image, start, secs)[..start][after[b].sector]
  {
    hide Loggable, Installed;
    assert BufOk(before[b], image);
    PendingAt(after, image, start, secs, slot, b);
  }

  method Change(log: Log, ghost at: map<nat, nat>, ghost t: Txn, s: nat, b: nat, data: Block)
    requires Tracks(log, at, t) && Enabled(t, Modify(s, data), log.size) && s in at && b == at[s]
    modifies log.cache
    ensures Tracks(log, at, Next(t, Modify(s, data)))
  {
    hide Ring, Ordered, Coherent, Pinned, Loggable, Homes, Installed, Matches, LoggedSectors, HeadN;
    ghost var before := log.cache.buf;
    SameKeys(before, at, t.held, log.start);
    ChangedMatches(before, at, t.held, log.start, s, data);
    log.cache.SetData(b, data);
    PinnedHeld(before, log.cache.buf, log.cache.disk.sectors, log.start, log.sector[..log.n], log.slot, b);
  }

  method Append(log: Log, ghost at: map<nat, nat>, ghost t: Txn, s: nat, b: nat)
    requires Tracks(log, at, t) && Enabled(t, LogIt(s), log.size) && s in at && b == at[s]
    modifies log, log.cache, log.cache.disk
    ensures Tracks(log, at, Next(t, LogIt(s)))
    ensures log.cache.disk.sectors[..log.start] == old(log.cache.disk.sectors[..log.start])
    ensures log.cache.disk.trace == old(log.cache.disk.trace) + [log.cache.disk.sectors]
  {
    hide Ring, Ordered, Coherent, Pinned, Loggable, Homes, Installed, Matches, LoggedSectors, HeadN, InUseKept,
         Position;
    ghost var before, secs := log.cache.buf, log.sector[..log.n];
    SameKeys(before, at, t.held, log.start);
    CanAppend(log.cache, log.start, secs, log.slot, at, t, s);
    log.LogWrite(b);
    LoggedMatches(before, log.cache.buf, at, t.held, log.start, s);
    LoggedOneMore(t.log, s);
  }

  lemma LoggedOneMore(log: seq<nat>, s: nat)
    ensures LoggedSectors(log + [s]) == Absorb(LoggedSectors(log), s)
  {
    assert (log + [s])[..|log|] == log;
  }

  lemma CanAppend(cache: BCache, start: nat, secs: seq<nat>, slot: seq<nat>, at: map<nat, nat>, t: Txn, s: nat)
    requires cache.Valid() && Pinned(cache.buf, cache.disk.sectors, start, secs, slot)
    requires Matches(cache.buf, at, t.held, start) && secs == LoggedSectors(t.log) && InUse(t) < NBUF
    ensures cache.CanGet(DISK_DEV, start + 1 + Position(secs, s))
  {
    hide LoggedSectors, Ring, Ordered, Position;
    var x := start + 1 + Position(secs, s);
    assert x !in at && x !in t.held;
    CanFetch(cache, start, secs, slot, at, t, x);
  }

  method LetGo(log: Log, ghost at: map<nat, nat>, ghost t: Txn, s: nat, b: nat)
    requires Tracks(log, at, t) && Enabled(t, Release(s), log.size) && s in at && b == at[s]
    modifies log.cache
    ensures Tracks(log, at - {s}, Next(t, Release(s)))
  {
    hide Ring, Ordered, Coherent, Pinned, Loggable, Homes, Installed, Matches, LoggedSectors, HeadN;
    ghost var before, image, secs := log.cache.buf, log.cache.disk.sectors, log.sector[..log.n];
    SameKeys(before, at, t.held, log.start);
    ReleasePinned(before, image, log.start, secs, log.slot, b);
    ReleasedMatches(before, at, t.held, log.start, s);
    log.cache.Brelse(b);
  }

  lemma ReleasePinned(buf: seq<Buf>, image: Image, start: nat, secs: seq<nat>, slot: seq<nat>, b: nat)
    requires Coherent(buf, image) && Loggable(secs, start) && Pinned(buf, image, start, secs, slot)
    requires b < NBUF && buf[b].valid && buf[b].sector < start
    requires buf[b].data == Installed(image, start, secs)[..start][buf[b].sector]
    ensures buf[b].dirty || buf[b].data == image[buf[b].sector]
    ensures Pinned(buf[b := buf[b].(busy := false)], image, start, secs, slot)
  {
    hide Installed, Coherent;
    PendingAt(buf, image, start, secs, slot, b);
    if buf[b].dirty {
      var i: nat :| i < |secs| && slot[i] == b && secs[i] == buf[b].sector &&
                    Installed(image, start, secs)[buf[b].sector] == image[start + 1 + i];
      PinnedReleased(buf, image, start, secs, slot, b, i);
    }
  }

  /** One event, on the real buffers. */
  method Perform(log: Log, at: map<nat, nat>, ghost t: Txn, e: Event) returns (at': map<nat, nat>)
    requires Tracks(log, at, t) && Enabled(t, e, log.size)
    modifies log, log.cache, log.cache.disk
    ensures Tracks(log, at', Next(t, e))
    ensures log.cache.disk.sectors[..log.start] == old(log.cache.disk.sectors[..log.start])
    ensures log.cache.disk.trace == old(log.cache.disk.trace) + if e.LogIt? then [log.cache.disk.sectors] else []
  {
    hide Log.Valid, Matches, LoggedSectors, Log.Pending;
    SameKeys(log.cache.buf, at, t.held, log.start);
    match e
    case Read(s) =>
      var b := Fetch(log, at, t, s);
      at' := at[s := b];
    case Modify(s, data) =>
      Change(log, at, t, s, at[s], data);
      at' := at;
    case LogIt(s) =>
      Append(log, at, t, s, at[s]);
      at' := at;
    case Release(s) =>
      LetGo(log, at, t, s, at[s]);
      at' := at - {s};
  }

  /** A whole transaction: begin_trans, any events, commit_trans. Each home sector becomes what the last change before
      its last log_write made of it, the others stay, and every disk image on the way recovers to all of the transaction
      or to nothing of it. Every buffer that was read must have been released. */
  method RunTransaction(log: Log, events: seq<Event>) returns (ghost commit: nat)
    requires log.Valid() && !log.busy && log.n == 0 && log.Idle()
    requires Runs(Txn(map[], [], log.cache.disk.sectors[..log.start]), events, log.size)
    requires forall s: nat :: !Holding(events, |events|, s)
    modifies log, log.cache, log.cache.disk
    ensures log.Valid() && !log.busy && log.n == 0 && log.Idle()
    ensures |log.cache.disk.sectors| == |old(log.cache.disk.sectors)|
    ensures forall s: nat :: s < log.start && Unchanged(events, |events|, s) ==>
              log.cache.disk.sectors[s] == old(log.cache.disk.sectors)[s]
    ensures forall s: nat, i: nat, j: nat, data :: s < log.start && Changed(events, |events|, s, i, j, data) ==>
              log.cache.disk.sectors[s] == data
    ensures Atomic(old(log.cache.disk.trace), log.cache.disk.trace, log.start,
                   old(log.cache.disk.sectors[..log.start]), log.cache.disk.sectors[..log.start], commit)
  {
    hide Ring, Ordered, Coherent, Pinned, Loggable, Homes, Installed, Matches, LoggedSectors, Enabled, Atomic,
         Committing, Uncommitted, HeaderOk, After, Holding, Unchanged, Changed;
    ghost var before, home := log.cache.disk.trace, log.cache.disk.sectors[..log.start];
    ghost var t := Txn(map[], [], home);
    log.BeginTrans();
    var at: map<nat, nat> := map[];
    NothingPending(log.cache.disk.sectors, log.sector, log.start);
    NothingYet(before, log.start, home);
    NothingHeld(log.cache.buf, log.start);
    AfterNothing(events, home);
    assert events[0..] == events;
    var k := 0;
    while k < |events|
      invariant 0 <= k <= |events| && Tracks(log, at, t) && log.cache.disk.sectors[..log.start] == home
      invariant Runs(t, events[k..], log.size) && After(events, k, home, t)
      invariant |log.cache.disk.sectors| == |old(log.cache.disk.sectors)|
      invariant Uncommitted(before, log.cache.disk.trace, log.start, home)
    {
      ghost var trace := log.cache.disk.trace;
      OneStep(t, events, k, log.size);
      AfterStep(events, k, k + 1, home, t, log.size);
      at := Perform(log, at, t, events[k]);
      t := Next(t, events[k]);
      assert trace + [] == trace;
      if events[k].LogIt? { StillUncommitted(before, trace, log.cache.disk.sectors, log.start, home); }
      k := k + 1;
    }
    AfterAll(events, home, t);
    NoneHeld(log.cache.buf, at, t.held, log.start);
    commit := |log.cache.disk.trace|;
    ghost var logged := log.cache.disk.trace;
    log.CommitTrans();
    CommittedAtomically(before, logged, log.cache.disk.trace, log.start, home, log.cache.disk.sectors[..log.start]);
  }

  lemma OneStep(t: Txn, events: seq<Event>, k: nat, size: nat)
    requires k < |events| && Runs(t, events[k..], size)
    ensures Enabled(t, events[k], size) && Runs(Next(t, events[k]), events[k + 1..], size)
  {
    assert events[k..][1..] == events[k + 1..];
  }

  lemma NothingHeld(buf: seq<Buf>, start: nat)
    requires forall c: nat :: c < |buf| ==> !buf[c].busy
    ensures Matches(buf, map[], map[], start) && LoggedSectors([]) == []
  {
  }

  lemma NoneHeld(buf: seq<Buf>, at: map<nat, nat>, held: map<nat, Block>, start: nat)
    requires Matches(buf, at, held, start)
    ensures held == map[] ==> forall c: nat :: c < |buf| ==> !buf[c].busy
  {
  }

  // ---- Crashes ----

  /** A crash after any write of a transaction, then any number of interrupted recoveries: what the next recovery
      finds is the state before the transaction exactly until the header has been written, and the state after it
      from then on. */
  lemma CrashAnywhere(before: seq<Image>, trace: seq<Image>, start: nat, home: Image, home': Image, commit: nat,
                      k: nat, images: seq<Image>)
    requires Atomic(before, trace, start, home, home', commit) && |before| <= k < |trace|
    requires CrashChain(images, start) && images[0] == trace[k]
    ensures var last := images[|images| - 1];
            HeaderOk(last, start) && Recovered(last, start) == if k < commit then home else home'
    ensures start < |trace[k]| && (k < commit ==> HeadN(trace[k], start) == 0)
    ensures (k == commit ==> HeadN(trace[k], start) > 0)
  {
    hide Recovered, HeaderOk, CrashChain, HeadN;
    RepeatedCrashes(images, start);
    if k < commit {
      assert trace[|before|..commit][k - |before|] == trace[k];
    } else {
      assert trace[commit..][k - commit] == trace[k];
    }
    assert HeaderOk(trace[k], start);
    HeaderInside(trace[k], start);
  }

  lemma HeaderInside(image: Image, start: nat)
    requires HeaderOk(image, start)
    ensures start < |image|
  {
  }

  /** A kernel that boots on a disk: recovery, uninterrupted. */
  method Boot(image: Image, nlog: nat) returns (log: Log)
    requires nlog <= NBUF && 2 <= nlog <= |image| < 0x8000_0000 && HeaderOk(image, |image| - nlog)
    ensures fresh(log) && fresh(log.cache) && fresh(log.cache.disk)
    ensures log.Valid() && log.Idle() && log.n == 0 && !log.busy && log.start == |image| - nlog
    ensures log.cache.disk.sectors[..log.start] == Recovered(image, log.start)
  {
    hide HeaderOk, Recovered, Ring, Ordered, Coherent, DuringRecovery, Pinned, HeadN, Loggable;
    var disk := new Disk(image);
    var cache := new BCache(disk);
    NothingPinned(cache.buf);
    log := new Log(cache, |image|, nlog);
    log.RecoverFromLog();
  }

  lemma NothingPinned(buf: seq<Buf>)
    requires |buf| == NBUF && forall c: nat :: c < NBUF ==> !buf[c].dirty
    ensures PinnedInOrder(buf, [], [])
  {
  }

  /** The boot after the crashes finds all of the transaction or nothing of it, by the header write alone. */
  method Reboot(image: Image, nlog: nat, ghost before: seq<Image>, ghost trace: seq<Image>, ghost home: Image,
                ghost home': Image, ghost commit: nat, ghost k: nat, ghost images: seq<Image>) returns (log: Log)
    requires nlog <= NBUF && 2 <= nlog <= |image| < 0x8000_0000
    requires Atomic(before, trace, |image| - nlog, home, home', commit) && |before| <= k < |trace|
    requires CrashChain(images, |image| - nlog) && images[0] == trace[k] && images[|images| - 1] == image
    ensures log.Valid() && log.Idle() && log.n == 0 && !log.busy && log.start == |image| - nlog
    ensures log.cache.disk.sectors[..log.start] == if k < commit then home else home'
  {
    hide Atomic, CrashChain, HeaderOk, Recovered, HeadN, Log.Valid, Log.Idle;
    CrashAnywhere(before, trace, |image| - nlog, home, home', commit, k, images);
    log := Boot(image, nlog);
  }
}
