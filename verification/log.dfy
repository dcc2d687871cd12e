/** What the on-disk log means: which home image a crashed disk recovers to. */
module LogImage {
  import opened Blocks
  import opened LogSectors

  /** The number of logged sectors recorded in the header sector. */
  function HeadN(image: Image, start: nat): Word
    requires start < |image|
  {
    GetWord(image[start], 0)
  }

  /** The home sector numbers recorded in the header sector. */
  function HeadSectors(image: Image, start: nat): seq<nat>
    requires start < |image| && HeadN(image, start) <= LOGSIZE
  {
    seq(HeadN(image, start), i requires 0 <= i < HeadN(image, start) => GetWord(image[start], i + 1))
  }

  ghost predicate Homes(secs: seq<nat>, start: nat) {
    forall i :: 0 <= i < |secs| ==> secs[i] < start
  }

  /** No sector is logged twice, and all lie below the log. */
  ghost predicate Loggable(secs: seq<nat>, start: nat) {
    Homes(secs, start) && forall a, b :: 0 <= a < b < |secs| ==> secs[a] != secs[b]
  }

  /** The header names at most LOGSIZE distinct home sectors, all below the log, with their copies on the disk. */
  ghost predicate HeaderOk(image: Image, start: nat) {
    && start < |image| && HeadN(image, start) <= LOGSIZE
    && start + HeadN(image, start) < |image|
    && Loggable(HeadSectors(image, start), start)
  }

  /** The image after copying the first |secs| log blocks home, in order. */
  function Installed(image: Image, start: nat, secs: seq<nat>): (r: Image)
    requires start + |secs| < |image| && Homes(secs, start)
    ensures |r| == |image| && r[start..] == image[start..]
    ensures forall s :: 0 <= s < start && s !in secs ==> r[s] == image[s]
  {
    if secs == [] then image
    else
      var k := |secs| - 1;
      Installed(image, start, secs[..k])[secs[k] := image[start + 1 + k]]
  }

  /** The images on disk after each of these copies. */
  function InstallImages(image: Image, start: nat, secs: seq<nat>): (r: seq<Image>)
    requires start + |secs| < |image| && Homes(secs, start)
    ensures |r| == |secs|
  {
    if secs == [] then []
    else InstallImages(image, start, secs[..|secs| - 1]) + [Installed(image, start, secs)]
  }

  lemma InstallNone(image: Image, start: nat, secs: seq<nat>)
    requires start < |image|
    ensures secs[..0] == [] && Installed(image, start, []) == image && InstallImages(image, start, []) == []
  {
  }

  lemma InstallNext(image: Image, start: nat, secs: seq<nat>, k: nat)
    requires start + |secs| < |image| && Homes(secs, start) && k < |secs|
    ensures var before := Installed(image, start, secs[..k]);
            var after := Installed(image, start, secs[..k + 1]);
            && after == before[secs[k] := before[start + 1 + k]]
            && InstallImages(image, start, secs[..k + 1]) == InstallImages(image, start, secs[..k]) + [after]
  {
    assert secs[..k + 1][..k] == secs[..k];
    assert image[start..][1 + k] == Installed(image, start, secs[..k])[start..][1 + k];
  }

  lemma {:induction false} InstallImageAt(image: Image, start: nat, secs: seq<nat>, k: nat)
    requires start + |secs| < |image| && Homes(secs, start) && k < |secs|
    ensures InstallImages(image, start, secs)[k] == Installed(image, start, secs[..k + 1])
  {
    if k == |secs| - 1 {
      assert secs[..k + 1] == secs;
    } else {
      var front := secs[..|secs| - 1];
      InstallImageAt(image, start, front, k);
      assert front[..k + 1] == secs[..k + 1];
    }
  }

  /** The home sectors that recovery produces from a disk image. */
  function Recovered(image: Image, start: nat): Image
    requires HeaderOk(image, start)
  {
    Installed(image, start, HeadSectors(image, start))[..start]
  }

  /** The last position of a sector in the list, or -1. */
  function LastAt(secs: seq<nat>, s: nat): (r: int)
    ensures -1 <= r < |secs| && (0 <= r ==> secs[r] == s)
    ensures forall j :: r < j < |secs| ==> secs[j] != s
  {
    if secs == [] then -1
    else if secs[|secs| - 1] == s then |secs| - 1
    else LastAt(secs[..|secs| - 1], s)
  }

  /** A home sector ends up with the last log block recorded for it, or keeps its contents. */
  lemma {:induction false} InstalledAt(image: Image, start: nat, secs: seq<nat>, s: nat)
    requires start + |secs| < |image| && Homes(secs, start) && s < start
    ensures Installed(image, start, secs)[s] == if LastAt(secs, s) < 0
              then image[s] else image[start + 1 + LastAt(secs, s)]
  {
    if secs != [] && secs[|secs| - 1] != s {
      InstalledAt(image, start, secs[..|secs| - 1], s);
    }
  }

  /** Installing forgets whatever the listed sectors held before, and never looks at the header. */
  lemma InstallForgets(image: Image, image': Image, start: nat, secs: seq<nat>)
    requires start + |secs| < |image| == |image'| && Homes(secs, start)
    requires forall s :: start < s <= start + |secs| ==> image[s] == image'[s]
    requires forall s :: 0 <= s < start && s !in secs ==> image[s] == image'[s]
    ensures Installed(image, start, secs)[..start] == Installed(image', start, secs)[..start]
  {
    var r, r' := Installed(image, start, secs), Installed(image', start, secs);
    hide Installed;
    forall s | 0 <= s < start ensures r[s] == r'[s] {
      InstalledAt(image, start, secs, s);
      InstalledAt(image', start, secs, s);
    }
  }

  /** A disk caught after k of the copies home still recovers to the same image. */
  lemma PartialInstallRecovers(image: Image, start: nat, k: nat)
    requires HeaderOk(image, start) && k <= HeadN(image, start)
    ensures var mid := Installed(image, start, HeadSectors(image, start)[..k]);
            HeaderOk(mid, start) && Recovered(mid, start) == Recovered(image, start)
  {
    var secs := HeadSectors(image, start);
    var mid := Installed(image, start, secs[..k]);
    assert mid[start] == mid[start..][0] == image[start..][0] == image[start];
    assert HeadSectors(mid, start) == secs;
    assert forall s :: start <= s < |image| ==>
        image[s] == image[start..][s - start] == mid[start..][s - start] == mid[s];
    InstallForgets(image, mid, start, secs);
  }

  /** A disk with an empty header recovers to the home sectors it already has. */
  lemma EmptyRecovers(image: Image, start: nat)
    requires start < |image| && HeadN(image, start) == 0
    ensures HeaderOk(image, start) && Recovered(image, start) == image[..start]
  {
  }

  /** Replacing one log block changes just the home sector it stands for. */
  lemma ReplaceLogBlock(image: Image, start: nat, secs: seq<nat>, i: nat, data: Block)
    requires start + |secs| < |image| && Homes(secs, start) && i < |secs|
    requires forall a, b :: 0 <= a < b < |secs| ==> secs[a] != secs[b]
    ensures Installed(image[start + 1 + i := data], start, secs)[..start]
         == Installed(image, start, secs)[..start][secs[i] := data]
  {
    var image' := image[start + 1 + i := data];
    var r, r' := Installed(image, start, secs), Installed(image', start, secs);
    hide Installed;
    forall s | 0 <= s < start ensures r'[s] == if s == secs[i] then data else r[s] {
      InstalledAt(image, start, secs, s);
      InstalledAt(image', start, secs, s);
      assert s == secs[i] ==> LastAt(secs, s) == i;
    }
  }

  // ---- Crashes during recovery ----

  /** The images a disk can have while recovery from `image` runs: some blocks copied, or all copied and the header
      cleared. */
  ghost predicate DuringRecovery(image: Image, image': Image, start: nat)
    requires HeaderOk(image, start)
  {
    var secs := HeadSectors(image, start);
    || (exists k: nat :: k <= |secs| && image' == Installed(image, start, secs[..k]))
    || (exists h: Block :: GetWord(h, 0) == 0 && image' == Installed(image, start, secs)[start := h])
  }

  lemma RecoveryStepKeeps(image: Image, image': Image, start: nat)
    requires HeaderOk(image, start) && DuringRecovery(image, image', start)
    ensures HeaderOk(image', start) && Recovered(image', start) == Recovered(image, start)
  {
    var secs := HeadSectors(image, start);
    if k: nat :| k <= |secs| && image' == Installed(image, start, secs[..k]) {
      PartialInstallRecovers(image, start, k);
    } else {
      var h: Block :| GetWord(h, 0) == 0 && image' == Installed(image, start, secs)[start := h];
      EmptyRecovers(image', start);
      assert image'[..start] == Installed(image, start, secs)[..start];
    }
  }

  /** Each image of the chain was left by a crash in the middle of recovering the one before it. */
  ghost predicate CrashChain(images: seq<Image>, start: nat) {
    && 0 < |images| && HeaderOk(images[0], start)
    && (1 < |images| ==> DuringRecovery(images[0], images[1], start) && CrashChain(images[1..], start))
  }

  /** However many times recovery itself is interrupted, the image that will be recovered stays the same. */
  lemma {:induction false} RepeatedCrashes(images: seq<Image>, start: nat)
    requires CrashChain(images, start)
    ensures var last := images[|images| - 1];
            HeaderOk(last, start) && Recovered(last, start) == Recovered(images[0], start)
  {
    if 1 < |images| {
      RecoveryStepKeeps(images[0], images[1], start);
      RepeatedCrashes(images[1..], start);
    }
  }
}

/** The redo log: transactions of log_write calls, commit, and recovery after a crash. */
module RedoLog {
  import opened Blocks
  import opened MemIde
  import opened BufferCache
  import opened LogSectors
  import opened LogImage

  /** The position of a sector among the logged ones, or the next free position. */
  function Position(secs: seq<nat>, s: nat): (i: nat)
    ensures i <= |secs|
    ensures i < |secs| ==> secs[i] == s
    ensures forall j :: 0 <= j < i ==> secs[j] != s
  {
    if secs == [] || secs[0] == s then 0 else 1 + Position(secs[1..], s)
  }

  /** Exactly the logged sectors are pinned in the cache, at `slot`, and their log blocks hold the released contents. */
  ghost predicate Pinned(buf: seq<Buf>, image: Image, start: nat, secs: seq<nat>, slot: seq<nat>) {
    && |buf| == NBUF && |slot| == |secs| && start + |secs| < |image|
    && (forall i :: 0 <= i < |secs| ==> slot[i] < NBUF && buf[slot[i]].dirty && buf[slot[i]].sector == secs[i])
    && (forall c: nat :: c < NBUF && buf[c].dirty ==> c in slot)
    && (forall i :: 0 <= i < |secs| && !buf[slot[i]].busy ==> buf[slot[i]].data == image[start + 1 + i])
  }

  /** Fewer indices than buffers leave some buffer out. */
  lemma SomeOther(used: seq<nat>)
    requires |used| < NBUF
    ensures exists c: nat :: c < NBUF && c !in used
  {
    if forall c: nat :: c < NBUF ==> c in used {
      CoverIsLong(used, NBUF);
    }
  }

  lemma {:induction false} CoverIsLong(used: seq<nat>, m: nat)
    requires forall c: nat :: c < m ==> c in used
    ensures m <= |used|
  {
    if m > 0 {
      assert m - 1 in used;
      var p :| 0 <= p < |used| && used[p] == m - 1;
      var rest := used[..p] + used[p + 1..];
      forall c: nat | c < m - 1 ensures c in rest {
        assert c in used;
        var q :| 0 <= q < |used| && used[q] == c;
        assert rest[if q < p then q else q - 1] == c;
      }
      CoverIsLong(rest, m - 1);
    }
  }

  predicate Free(b: Buf) {
    !b.busy && !b.dirty
  }

  /** No buffer is held; the pinned ones are `pins`, for the sectors `secs` in this order (or there are none at all). */
  ghost predicate PinnedInOrder(buf: seq<Buf>, pins: seq<nat>, secs: seq<nat>) {
    && |buf| == NBUF && (pins == [] || |pins| == |secs|)
    && (forall i :: 0 <= i < |pins| ==> pins[i] < NBUF && buf[pins[i]].dirty && buf[pins[i]].sector == secs[i])
    && (forall c: nat :: c < NBUF && buf[c].dirty ==> c in pins)
  }

  lemma SomePinFree(buf: seq<Buf>, pins: seq<nat>, secs: seq<nat>)
    requires PinnedInOrder(buf, pins, secs) && |secs| < NBUF
    requires forall c: nat :: c < NBUF ==> !buf[c].busy
    ensures exists c: nat :: c < NBUF && Free(buf[c])
  {
    SomeOther(pins);
    var c: nat :| c < NBUF && c !in pins;
    assert Free(buf[c]);
  }

  function PinsLeft(pins: seq<nat>): seq<nat> {
    if pins == [] then [] else pins[1..]
  }

  lemma NoPins(buf: seq<Buf>, pins: seq<nat>, secs: seq<nat>)
    requires PinnedInOrder(buf, pins, [])
    ensures PinnedInOrder(buf, [], secs)
  {
  }

  lemma NextPin(before: seq<Buf>, after: seq<Buf>, pins: seq<nat>, secs: seq<nat>)
    requires PinnedInOrder(before, pins, secs) && 0 < |secs| && Unpinned(before, after, secs[0])
    requires forall i :: 0 < i < |secs| ==> secs[i] != secs[0]
    ensures PinnedInOrder(after, PinsLeft(pins), secs[1..])
  {
    if pins != [] {
      var pins', secs' := pins[1..], secs[1..];
      forall i | 0 <= i < |pins'|
        ensures pins'[i] < NBUF && after[pins'[i]].dirty && after[pins'[i]].sector == secs'[i] {
        assert pins'[i] == pins[i + 1] && secs'[i] == secs[i + 1];
      }
    }
  }

  /** A sector logged before: its log block is replaced. */
  lemma LoggedAgain(before: seq<Buf>, image: Image, start: nat, secs: seq<nat>, slot: seq<nat>, b: nat, i: nat,
                    after: seq<Buf>)
    requires Coherent(before, image) && Loggable(secs, start) && Pinned(before, image, start, secs, slot)
    requires b < NBUF && before[b].busy && before[b].valid && i < |secs| && secs[i] == before[b].sector
    requires InUseKept(before[b := before[b].(dirty := true)], after)
    ensures slot[i] == b
    ensures var image' := image[start + 1 + i := before[b].data];
            var pending := Installed(image, start, secs)[..start];
            && Pinned(after, image', start, secs, slot)
            && Installed(image', start, secs)[..start] == pending[secs[i] := before[b].data]
  {
    ReplaceLogBlock(image, start, secs, i, before[b].data);
    Distinct(before, image, b);
    assert BufOk(before[b], image) && BufOk(before[slot[i]], image);
    assert slot[i] == b;
    assert forall c: nat :: c < NBUF && (before[c].dirty || c == b) ==>
      (after[c].dirty && after[c].sector == before[c].sector && after[c].busy == before[c].busy &&
          after[c].data == before[c].data);
    var image' := image[start + 1 + i := before[b].data];
    forall j | 0 <= j < |secs| && !after[slot[j]].busy ensures after[slot[j]].data == image'[start + 1 + j] {
      assert slot[j] != b && before[slot[j]].dirty;
    }
  }

  /** A sector not logged before: its block is appended. */
  lemma PinnedNew(before: seq<Buf>, image: Image, start: nat, secs: seq<nat>, slot: seq<nat>, b: nat, after: seq<Buf>)
    requires Pinned(before, image, start, secs, slot) && b < NBUF && before[b].busy && start + 1 + |secs| < |image|
    requires InUseKept(before[b := before[b].(dirty := true)], after)
    ensures var image' := image[start + 1 + |secs| := before[b].data];
            Pinned(after, image', start, secs + [before[b].sector], slot + [b])
  {
    var i := |secs|;
    var image', secs', slot' := image[start + 1 + i := before[b].data], secs + [before[b].sector], slot + [b];
    assert forall c: nat :: c < NBUF && (before[c].dirty || c == b) ==> after[c] == before[c].(dirty := true);
    forall j | 0 <= j < |secs'| ensures slot'[j] < NBUF && after[slot'[j]].dirty && after[slot'[j]].sector == secs'[j] {
      assert j < i ==> slot'[j] == slot[j] && before[slot[j]].dirty;
    }
    forall j | 0 <= j < |secs'| && !after[slot'[j]].busy ensures after[slot'[j]].data == image'[start + 1 + j] {
      assert j < i && slot'[j] == slot[j] && before[slot[j]].dirty;
    }
    forall c: nat | c < NBUF && after[c].dirty ensures c in slot' {
      assert c == b || before[c].dirty;
    }
  }

  lemma LoggedNew(before: seq<Buf>, image: Image, start: nat, secs: seq<nat>, slot: seq<nat>, b: nat, after: seq<Buf>)
    requires Loggable(secs, start) && Pinned(before, image, start, secs, slot)
    requires b < NBUF && before[b].busy && before[b].sector < start
    requires before[b].sector !in secs && start + 1 + |secs| < |image|
    requires InUseKept(before[b := before[b].(dirty := true)], after)
    ensures var image' := image[start + 1 + |secs| := before[b].data];
            var secs' := secs + [before[b].sector];
            var pending := Installed(image, start, secs)[..start];
            && Loggable(secs', start) && Pinned(after, image', start, secs', slot + [b])
            && Installed(image', start, secs')[..start] == pending[before[b].sector := before[b].data]
  {
    var i, s := |secs|, before[b].sector;
    var image', secs' := image[start + 1 + i := before[b].data], secs + [s];
    PinnedNew(before, image, start, secs, slot, b, after);
    InstalledNew(image, start, secs, s, before[b].data);
    hide Pinned, InUseKept, Installed;
  }

  lemma InstalledNew(image: Image, start: nat, secs: seq<nat>, s: nat, data: Block)
    requires Homes(secs, start) && s < start && start + 1 + |secs| < |image|
    ensures Homes(secs + [s], start)
    ensures var image' := image[start + 1 + |secs| := data];
            Installed(image', start, secs + [s])[..start] == Installed(image, start, secs)[..start][s := data]
  {
    var image', secs' := image[start + 1 + |secs| := data], secs + [s];
    InstallForgets(image, image', start, secs);
    assert secs'[..|secs|] == secs;
    var r := Installed(image', start, secs);
    assert Installed(image', start, secs') == r[s := data];
    hide Installed;
    assert r[s := data][..start] == r[..start][s := data];
  }

  lemma PinnedBelow(buf: seq<Buf>, image: Image, start: nat, secs: seq<nat>, slot: seq<nat>)
    requires Loggable(secs, start) && Pinned(buf, image, start, secs, slot)
    ensures forall c: nat :: c < NBUF && buf[c].dirty ==> buf[c].sector < start
  {
  }

  lemma Stored(sector: seq<nat>, n: nat, i: nat, s: nat)
    requires i <= n < |sector| && i == Position(sector[..n], s)
    ensures sector[i := s][..if i == n then n + 1 else n] == Absorb(sector[..n], s)
  {
    assert i < n ==> sector[..n][i] == s;
    assert i == n ==> forall j :: 0 <= j < n ==> sector[..n][j] != s;
  }

  lemma PositionBound(secs: seq<nat>, s: nat)
    ensures Position(secs, s) <= |secs|
  {
  }

  lemma Found(secs: seq<nat>, i: nat, s: nat)
    requires i <= |secs| && (i < |secs| ==> secs[i] == s) && (forall j :: 0 <= j < i ==> secs[j] != s)
    ensures i == Position(secs, s)
  {
  }

  /** The effect of log_write: the list of logged sectors absorbs the sector, and the pending image gets its
      contents. */
  lemma Logged(before: seq<Buf>, image: Image, start: nat, secs: seq<nat>, slot: seq<nat>, b: nat, i: nat,
               after: seq<Buf>)
    requires Coherent(before, image) && Loggable(secs, start) && Pinned(before, image, start, secs, slot)
    requires b < NBUF && before[b].busy && before[b].valid && before[b].sector < start
    requires i == Position(secs, before[b].sector) && start + 1 + |secs| < |image|
    requires InUseKept(before[b := before[b].(dirty := true)], after)
    ensures |slot| == |secs| && (i < |secs| ==> slot[i] == b)
    ensures var secs' := Absorb(secs, before[b].sector);
            var image' := image[start + 1 + i := before[b].data];
            var pending := Installed(image, start, secs)[..start];
            && Loggable(secs', start)
            && Pinned(after, image', start, secs', if i == |secs| then slot + [b] else slot)
            && Installed(image', start, secs')[..start] == pending[before[b].sector := before[b].data]
  {
    var s, data := before[b].sector, before[b].data;
    var goal := Installed(image, start, secs)[..start][s := data];
    hide Coherent, InUseKept, Installed, Pinned, Loggable;
    if i == |secs| {
      assert s !in secs;
      LoggedNew(before, image, start, secs, slot, b, after);
    } else {
      assert secs[i] == s;
      LoggedAgain(before, image, start, secs, slot, b, i, after);
      assert Absorb(secs, s) == secs;
      assert Installed(image[start + 1 + i := data], start, secs)[..start] == goal;
    }
  }

  /** Every one of these images recovers to `home`. */
  ghost predicate AllRecover(images: seq<Image>, start: nat, home: Image) {
    forall k :: 0 <= k < |images| ==> HeaderOk(images[k], start) && Recovered(images[k], start) == home
  }

  /** The images of an installation all recover to the image that the header promises. */
  lemma InstallRecovers(image: Image, start: nat)
    requires HeaderOk(image, start)
    ensures AllRecover(InstallImages(image, start, HeadSectors(image, start)), start, Recovered(image, start))
  {
    var secs := HeadSectors(image, start);
    var images, home := InstallImages(image, start, secs), Recovered(image, start);
    forall k | 0 <= k < |images| ensures HeaderOk(images[k], start) && Recovered(images[k], start) == home {
      InstallImageAt(image, start, secs, k);
      PartialInstallRecovers(image, start, k + 1);
    }
  }

  /** The trace grew by `images`, the first of which has a non-empty header, and all of which recover to `home`. */
  ghost predicate Committing(before: seq<Image>, trace: seq<Image>, start: nat, home: Image) {
    && |before| < |trace| && trace[..|before|] == before
    && AllRecover(trace[|before|..], start, home)
    && start < |trace[|before|]| && HeadN(trace[|before|], start) > 0
  }

  lemma CommitTrace(before: seq<Image>, trace: seq<Image>, image0: Image, image1: Image, image3: Image, start: nat,
                    secs: seq<nat>)
    requires start + |secs| < |image0| && Loggable(secs, start) && 0 < |secs|
    requires |image0| == |image1| && image1 == image0[start := image1[start]]
    requires HeaderOk(image1, start) && HeadSectors(image1, start) == secs
    requires |image3| == |image0| && image3 == Installed(image1, start, secs)[start := image3[start]]
    requires HeadN(image3, start) == 0
    requires trace == before + [image1] + InstallImages(image1, start, secs) + [image3]
    ensures Committing(before, trace, start, Installed(image0, start, secs)[..start])
    ensures image3[..start] == Installed(image0, start, secs)[..start]
  {
    hide *;
    CommitRecovers(image0, image1, image3, start, secs);
    var home, middle := Installed(image0, start, secs)[..start], InstallImages(image1, start, secs);
    AllRecoverAppend([image1], middle, start, home);
    AllRecoverAppend([image1] + middle, [image3], start, home);
    Grown(before, image1, middle, [image3], start, home);
  }

  lemma CommitRecovers(image0: Image, image1: Image, image3: Image, start: nat, secs: seq<nat>)
    requires start + |secs| < |image0| && Loggable(secs, start) && 0 < |secs|
    requires |image0| == |image1| && image1 == image0[start := image1[start]]
    requires HeaderOk(image1, start) && HeadSectors(image1, start) == secs
    requires |image3| == |image0| && image3 == Installed(image1, start, secs)[start := image3[start]]
    requires HeadN(image3, start) == 0
    ensures Homes(secs, start) && HeadN(image1, start) > 0
    ensures var home := Installed(image0, start, secs)[..start];
            && AllRecover([image1], start, home) && AllRecover(InstallImages(image1, start, secs), start, home)
            && AllRecover([image3], start, home) && image3[..start] == home
  {
    hide *;
    HeaderFits(image1, start);
    WithHeader(image0, image1, start, secs);
    WithoutHeader(image1, image3, start, secs);
    var home := Recovered(image1, start);
    InstallRecovers(image1, start);
    OneRecovers(image1, start, home);
    OneRecovers(image3, start, home);
  }

  /** Writing the header is what makes the logged blocks count. */
  lemma WithHeader(image0: Image, image1: Image, start: nat, secs: seq<nat>)
    requires start + |secs| < |image0| == |image1| && image1 == image0[start := image1[start]]
    requires HeaderOk(image1, start) && HeadSectors(image1, start) == secs
    ensures Homes(secs, start) && Recovered(image1, start) == Installed(image0, start, secs)[..start]
  {
    assert forall s :: 0 <= s < |image0| && s != start ==> image1[s] == image0[s];
    InstallForgets(image0, image1, start, secs);
  }

  /** Erasing the header after installation changes nothing that recovery sees. */
  lemma WithoutHeader(image1: Image, image3: Image, start: nat, secs: seq<nat>)
    requires HeaderOk(image1, start) && HeadSectors(image1, start) == secs
    requires |image3| == |image1| && image3 == Installed(image1, start, secs)[start := image3[start]]
    requires HeadN(image3, start) == 0
    ensures HeaderOk(image3, start) && image3[..start] == Recovered(image3, start) == Recovered(image1, start)
  {
    EmptyRecovers(image3, start);
    assert image3[..start] == Installed(image1, start, secs)[..start];
  }

  lemma OneRecovers(image: Image, start: nat, home: Image)
    requires HeaderOk(image, start) && Recovered(image, start) == home
    ensures AllRecover([image], start, home)
  {
  }

  lemma Grown(before: seq<Image>, first: Image, middle: seq<Image>, last: seq<Image>, start: nat, home: Image)
    requires AllRecover([first] + middle + last, start, home) && start < |first| && HeadN(first, start) > 0
    ensures Committing(before, before + [first] + middle + last, start, home)
  {
    hide AllRecover, HeadN;
    var images := [first] + middle + last;
    assert before + [first] + middle + last == before + images;
    Suffix(before, images);
  }

  lemma AllRecoverAppend(images: seq<Image>, more: seq<Image>, start: nat, home: Image)
    requires AllRecover(images, start, home) && AllRecover(more, start, home)
    ensures AllRecover(images + more, start, home)
  {
  }

  lemma Suffix<T>(a: seq<T>, b: seq<T>)
    ensures (a + b)[..|a|] == a && (a + b)[|a|..] == b
  {
  }

  lemma HeaderFits(image: Image, start: nat)
    requires HeaderOk(image, start)
    ensures start < |image| && HeadN(image, start) <= LOGSIZE && start + HeadN(image, start) < |image|
    ensures |HeadSectors(image, start)| == HeadN(image, start) && Loggable(HeadSectors(image, start), start)
  {
  }

  /** The images of a recovery, in terms of the trace. */
  lemma RecoveryTrace(before: seq<Image>, trace: seq<Image>, image: Image, image': Image, start: nat)
    requires HeaderOk(image, start) && |image'| == |image| && HeadN(image', start) == 0
    requires image' == Installed(image, start, HeadSectors(image, start))[start := image'[start]]
    requires trace == before + InstallImages(image, start, HeadSectors(image, start)) + [image']
    ensures image'[..start] == Recovered(image, start)
    ensures |before| <= |trace| && trace[..|before|] == before
    ensures forall k :: |before| <= k < |trace| ==> DuringRecovery(image, trace[k], start)
  {
    var secs := HeadSectors(image, start);
    var middle := InstallImages(image, start, secs);
    forall k | 0 <= k < |middle| ensures DuringRecovery(image, middle[k], start) {
      InstallImageAt(image, start, secs, k);
    }
    assert DuringRecovery(image, image', start);
    hide *;
    assert forall k :: |before| <= k < |trace| ==> trace[k] == if k < |trace| - 1 then middle[k - |before|] else image';
  }

  lemma NothingLogged(before: seq<Buf>, after: seq<Buf>, image: Image, start: nat)
    requires PinnedInOrder(before, [], []) && InUseKept(before, after) && start < |image|
    requires forall c: nat :: c < |before| ==> !before[c].busy
    ensures Pinned(after, image, start, [], []) && forall c: nat :: c < |after| ==> !after[c].busy
  {
  }

  /** Holding a buffer, and changing its contents while it is held, does not affect what is pinned. */
  lemma PinnedHeld(before: seq<Buf>, after: seq<Buf>, image: Image, start: nat, secs: seq<nat>, slot: seq<nat>, b: nat)
    requires Pinned(before, image, start, secs, slot) && |after| == NBUF && b < NBUF && after[b].busy
    requires forall c: nat :: c < NBUF && c != b ==> after[c] == before[c]
    requires after[b].dirty == before[b].dirty && (before[b].dirty ==> after[b].sector == before[b].sector)
    ensures Pinned(after, image, start, secs, slot)
  {
  }

  /** A pinned buffer that agrees with its log block may be released. */
  lemma PinnedReleased(buf: seq<Buf>, image: Image, start: nat, secs: seq<nat>, slot: seq<nat>, b: nat, i: nat)
    requires Pinned(buf, image, start, secs, slot) && Loggable(secs, start) && b < NBUF
    requires i < |secs| && slot[i] == b && buf[b].data == image[start + 1 + i]
    ensures Pinned(buf[b := buf[b].(busy := false)], image, start, secs, slot)
  {
    assert forall j :: 0 <= j < |secs| && slot[j] == b ==> secs[j] == secs[i] && j == i;
  }

  lemma EmptyLoggable(sector: seq<nat>, start: nat)
    ensures sector[..0] == [] && Loggable(sector[..0], start)
  {
  }

  lemma KeptPins(before: seq<Buf>, after: seq<Buf>, pins: seq<nat>, secs: seq<nat>)
    requires PinnedInOrder(before, pins, secs) && InUseKept(before, after)
    requires forall c: nat :: c < |before| ==> !before[c].busy
    ensures PinnedInOrder(after, pins, secs) && forall c: nat :: c < |after| ==> !after[c].busy
  {
  }

  lemma CanPin(cache: BCache, buf: seq<Buf>, image: Image, start: nat, secs: seq<nat>, slot: seq<nat>)
    requires Pinned(buf, image, start, secs, slot) && |secs| < NBUF && cache.buf == buf
    requires forall c: nat :: c < |buf| ==> !buf[c].busy
    ensures PinnedInOrder(buf, slot, secs) && forall s: nat :: cache.CanGet(DISK_DEV, s)
  {
    SomePinFree(buf, slot, secs);
    var free: nat :| free < NBUF && Free(buf[free]);
    assert cache.Recyclable(free);
  }

  lemma CanReuse(cache: BCache)
    requires PinnedInOrder(cache.buf, [], [])
    requires forall c: nat :: c < |cache.buf| ==> !cache.buf[c].busy
    ensures forall c: nat :: c < NBUF ==> !cache.buf[c].dirty
    ensures forall s: nat :: cache.CanGet(DISK_DEV, s)
  {
    assert cache.Recyclable(0);
  }

  /** The images since `before` recover to the old home sectors until the first one with a non-empty header, at
      `commit`, and to the new ones from there on. */
  ghost predicate Atomic(before: seq<Image>, trace: seq<Image>, start: nat, home: Image, home': Image, commit: nat) {
    && |before| <= commit <= |trace| && trace[..|before|] == before
    && AllRecover(trace[|before|..commit], start, home) && AllRecover(trace[commit..], start, home')
    && (forall k :: |before| <= k < commit ==> start < |trace[k]| && HeadN(trace[k], start) == 0)
    && (commit < |trace| ==> start < |trace[commit]| && HeadN(trace[commit], start) > 0)
  }

  /** Since `before`, no image has a non-empty header, and all recover to `home`. */
  ghost predicate Uncommitted(before: seq<Image>, trace: seq<Image>, start: nat, home: Image) {
    && |before| <= |trace| && trace[..|before|] == before
    && AllRecover(trace[|before|..], start, home)
    && forall k :: |before| <= k < |trace| ==> start < |trace[k]| && HeadN(trace[k], start) == 0
  }

  lemma NothingYet(before: seq<Image>, start: nat, home: Image)
    ensures Uncommitted(before, before, start, home)
  {
  }

  lemma NothingPending(image: Image, sector: seq<nat>, start: nat)
    requires start < |image|
    ensures sector[..0] == [] && Installed(image, start, []) == image
  {
  }

  lemma StillUncommitted(before: seq<Image>, trace: seq<Image>, image: Image, start: nat, home: Image)
    requires Uncommitted(before, trace, start, home)
    requires start < |image| && HeadN(image, start) == 0 && image[..start] == home
    ensures Uncommitted(before, trace + [image], start, home)
  {
    EmptyRecovers(image, start);
    OneRecovers(image, start, home);
    AllRecoverAppend(trace[|before|..], [image], start, home);
    hide AllRecover, HeadN;
    assert (trace + [image])[|before|..] == trace[|before|..] + [image];
    assert (trace + [image])[..|before|] == trace[..|before|];
  }

  lemma CommittedAtomically(before: seq<Image>, logged: seq<Image>, trace: seq<Image>, start: nat, home: Image,
                            home': Image)
    requires Uncommitted(before, logged, start, home)
    requires trace == logged || Committing(logged, trace, start, home')
    ensures Atomic(before, trace, start, home, home', |logged|)
  {
    hide AllRecover, HeadN;
    assert trace[..|logged|] == logged;
    assert trace[..|logged|][..|before|] == trace[..|before|];
    assert trace[|before|..|logged|] == trace[..|logged|][|before|..];
    assert forall k :: |before| <= k < |logged| ==> trace[k] == trace[..|logged|][k];
    if trace == logged {
      assert trace[|logged|..] == [];
      NoneRecover(start, home');
    }
  }

  lemma NoneRecover(start: nat, home: Image)
    ensures AllRecover([], start, home)
  {
  }

  /** The header sector for the first n logged sectors. */
  method EncodeHead(block: Block, sector: seq<nat>, n: nat) returns (hb: Block)
    requires n < |sector| == LOGSIZE && forall j :: 0 <= j < n ==> sector[j] < WORD_LIMIT
    ensures GetWord(hb, 0) == n && forall j :: 0 <= j < n ==> GetWord(hb, j + 1) == sector[j]
  {
    hide GetWord;
    hb := SetWord(block, 0, n);
    var i := 0;
    while i < n
      invariant 0 <= i <= n && GetWord(hb, 0) == n && forall j :: 0 <= j < i ==> GetWord(hb, j + 1) == sector[j]
    {
      hb := SetWord(hb, i + 1, sector[i]);
      i := i + 1;
    }
  }

  lemma SmallSectors(sector: seq<nat>, n: nat, start: nat)
    requires n <= |sector| && Loggable(sector[..n], start) && start < 0x8000_0000
    ensures forall j :: 0 <= j < n ==> sector[j] < WORD_LIMIT
  {
    forall j | 0 <= j < n ensures sector[j] < WORD_LIMIT {
      assert sector[..n][j] == sector[j];
    }
  }

  lemma HeadIs(image: Image, start: nat, sector: seq<nat>, n: nat)
    requires start + n < |image| && n < |sector| == LOGSIZE && Loggable(sector[..n], start)
    requires GetWord(image[start], 0) == n && forall j :: 0 <= j < n ==> GetWord(image[start], j + 1) == sector[j]
    ensures HeaderOk(image, start) && HeadSectors(image, start) == sector[..n]
  {
    hide GetWord, Loggable;
    assert HeadSectors(image, start) == sector[..n];
  }

  class Log {
    const cache: BCache
    const start: nat
    const size: nat
    var busy: bool
    var n: nat
    var sector: seq<nat>
    ghost var slot: seq<nat>

    constructor (c: BCache, diskSize: nat, nlog: nat)
      requires c.Valid() && nlog <= NBUF && 2 <= nlog <= diskSize == |c.disk.sectors| < 0x8000_0000
      ensures cache == c && start == diskSize - nlog && size == nlog && !busy && n == 0 && slot == []
      ensures Shape()
    {
      cache := c;
      start := diskSize - nlog;
      size := nlog;
      busy, n, sector, slot := false, 0, seq(LOGSIZE, _ => 0), [];
    }

    ghost predicate Shape()
      reads this, cache, cache.disk
    {
      && cache.Valid()
      && start + size == |cache.disk.sectors| < 0x8000_0000
      && size <= NBUF                     // mkfs makes a log of LOGSIZE sectors
      && |sector| == LOGSIZE && n < size
      && Loggable(sector[..n], start)
    }

    /** Between calls: the on-disk log is empty, and the logged sectors are pinned. */
    ghost predicate Valid()
      reads this, cache, cache.disk
    {
      && Shape()
      && HeadN(cache.disk.sectors, start) == 0
      && |slot| == n
      && Pinned(cache.buf, cache.disk.sectors, start, sector[..n], slot)
    }

    ghost predicate Idle()
      reads cache
    {
      forall c: nat :: c < |cache.buf| ==> !cache.buf[c].busy
    }

    /** The home sectors as they will be once the open transaction has committed. */
    ghost function Pending(): Image
      requires Shape()
      reads this, cache, cache.disk
    {
      Installed(cache.disk.sectors, start, sector[..n])[..start]
    }

    /** Write the in-memory header to the header sector. */
    method WriteHead()
      requires Shape() && cache.CanGet(DISK_DEV, start)
      requires forall c: nat :: c < NBUF && cache.buf[c].dirty ==> cache.buf[c].sector < start
      modifies cache, cache.disk
      ensures Shape() && InUseKept(old(cache.buf), cache.buf)
      ensures cache.disk.sectors == old(cache.disk.sectors)[start := cache.disk.sectors[start]]
      ensures HeaderOk(cache.disk.sectors, start) && HeadSectors(cache.disk.sectors, start) == sector[..n]
      ensures cache.disk.trace == old(cache.disk.trace) + [cache.disk.sectors]
    {
      hide Ring, Ordered, Coherent, GetWord, SetWord, HeaderOk, HeadSectors, HeadN, Loggable;
      SmallSectors(sector, n, start);
      var b := cache.Bread(DISK_DEV, start);
      var hb := EncodeHead(cache.buf[b].data, sector, n);
      cache.SetData(b, hb);
      cache.Bwrite(b);
      cache.Brelse(b);
      HeadIs(cache.disk.sectors, start, sector, n);
    }

    /** Copy every logged block to its home sector. `pins` lists the pinned buffers, in log order (none during
        recovery). */
    method InstallTrans(ghost pins: seq<nat>)
      requires Shape() && Idle() && PinnedInOrder(cache.buf, pins, sector[..n])
      modifies cache, cache.disk
      ensures Shape() && Idle() && PinnedInOrder(cache.buf, [], [])
      ensures start + n < |old(cache.disk.sectors)|
      ensures cache.disk.sectors == Installed(old(cache.disk.sectors), start, sector[..n])
      ensures cache.disk.trace == old(cache.disk.trace) + InstallImages(old(cache.disk.sectors), start, sector[..n])
    {
      hide Ring, Ordered, Coherent, Installed, InstallImages, PinnedInOrder, Unpinned, PinsLeft;
      ghost var image, secs := cache.disk.sectors, sector[..n];
      ghost var rest := pins;
      var tail := 0;
      assert secs[0..] == secs;
      InstallNone(image, start, secs);
      while tail < n
        invariant 0 <= tail <= n && Shape() && Idle()
        invariant PinnedInOrder(cache.buf, rest, secs[tail..])
        invariant |image| == |cache.disk.sectors| && cache.disk.sectors == Installed(image, start, secs[..tail])
        invariant cache.disk.trace == old(cache.disk.trace) + InstallImages(image, start, secs[..tail])
      {
        ghost var before := cache.buf;
        InstallOne(tail, rest);
        NextPin(before, cache.buf, rest, secs[tail..]);
        assert secs[tail..][1..] == secs[tail + 1..];
        InstallNext(image, start, secs, tail);
        rest := PinsLeft(rest);
        tail := tail + 1;
      }
      assert secs[..n] == secs && secs[n..] == [];
      NoPins(cache.buf, rest, []);
    }

    /** One round of InstallTrans: the home buffer of the sector is pinned no longer. */
    method InstallOne(tail: nat, ghost pins: seq<nat>)
      requires Shape() && Idle() && tail < n && PinnedInOrder(cache.buf, pins, sector[..n][tail..])
      modifies cache, cache.disk
      ensures Shape() && Idle() && Unpinned(old(cache.buf), cache.buf, sector[tail])
      ensures cache.disk.sectors == old(cache.disk.sectors)[sector[tail] := old(cache.disk.sectors)[start + 1 + tail]]
      ensures cache.disk.trace == old(cache.disk.trace) + [cache.disk.sectors]
    {
      hide Ring, Ordered;
      ghost var secs := sector[..n][tail..];
      assert secs[0] == sector[tail] && forall i :: 0 <= i < |secs| ==> secs[i] == sector[..n][tail + i];
      SomePinFree(cache.buf, pins, secs);
      ghost var free: nat :| free < NBUF && Free(cache.buf[free]);
      assert cache.Recyclable(free);
      if pins != [] {
        assert BufOk(cache.buf[pins[0]], cache.disk.sectors);
        assert cache.Holds(pins[0], DISK_DEV, sector[tail]);
      }
      cache.CopySector(start + tail + 1, sector[tail]);
    }

    /** The loop of log_write: where the sector is listed, or the next free place. */
    method FindSector(s: nat) returns (i: nat)
      requires n <= |sector|
      ensures i == Position(sector[..n], s)
    {
      i := 0;
      while i < n && sector[i] != s
        invariant 0 <= i <= n && forall j :: 0 <= j < i ==> sector[..n][j] != s
      {
        i := i + 1;
      }
      Found(sector[..n], i, s);
    }

    /** Append a held buffer to the log (or overwrite its earlier log block) and pin it. */
    method LogWrite(b: nat)
      requires Valid() && busy                               // "write outside of trans"
      requires n < LOGSIZE && n < size - 1                   // "too big a transaction"
      requires b < NBUF && cache.buf[b].busy && cache.buf[b].valid && cache.buf[b].sector < start
      requires cache.CanGet(DISK_DEV, start + 1 + Position(sector[..n], cache.buf[b].sector))
      modifies this, cache, cache.disk
      ensures Valid() && busy
      ensures sector[..n] == Absorb(old(sector[..n]), old(cache.buf[b].sector))
      ensures Pending() == old(Pending())[old(cache.buf[b].sector) := old(cache.buf[b].data)]
      ensures cache.disk.sectors[..start] == old(cache.disk.sectors[..start])
      ensures cache.disk.trace == old(cache.disk.trace) + [cache.disk.sectors]
      ensures InUseKept(old(cache.buf)[b := old(cache.buf)[b].(dirty := true)], cache.buf)
      ensures cache.buf[b] == old(cache.buf)[b].(dirty := true)
    {
      hide Ring, Ordered, Coherent, Pinned, Loggable, InUseKept, Homes, Absorb, Installed, Position;
      var s := cache.buf[b].sector;
      ghost var secs, image, before := sector[..n], cache.disk.sectors, cache.buf;
      var i := FindSector(s);
      PositionBound(secs, s);
      PinnedBelow(before, image, start, secs, slot);
      sector := sector[i := s];
      cache.AppendCopy(b, start + i + 1);
      if i == n {
        n := n + 1;
        slot := slot + [b];
      }
      Stored(old(sector), old(n), i, s);
      Logged(before, image, start, secs, old(slot), b, i, cache.buf);
    }

    /** Start a transaction; the caller waits until no other is open. */
    method BeginTrans()
      requires Valid() && !busy
      modifies this`busy
      ensures Valid() && busy
    {
      busy := true;
    }

    /** Commit: write the header, copy the blocks home, erase the header. Every image on the way recovers to the new
        home sectors. */
    method CommitTrans()
      requires Valid() && busy && Idle()
      modifies this, cache, cache.disk
      ensures Valid() && Idle() && !busy && n == 0
      ensures cache.disk.sectors[..start] == old(Pending())
      ensures old(n) == 0 ==> cache.disk.trace == old(cache.disk.trace)
      ensures old(n) > 0 ==> Committing(old(cache.disk.trace), cache.disk.trace, start, old(Pending()))
    {
      hide Ring, Ordered, Coherent, Pinned, Loggable, Homes, InUseKept, PinnedInOrder, Installed, InstallImages,
           Committing, HeaderOk;
      if n > 0 {
        ghost var secs, image0, before := sector[..n], cache.disk.sectors, cache.buf;
        PinnedBelow(before, image0, start, secs, slot);
        CanPin(cache, before, image0, start, secs, slot);
        WriteHead();
        ghost var image1 := cache.disk.sectors;
        KeptPins(before, cache.buf, slot, secs);
        InstallTrans(slot);
        CanReuse(cache);
        before := cache.buf;
        n := 0;
        assert Loggable(sector[..0], start) by { EmptyLoggable(sector, start); }
        WriteHead();
        slot := [];
        NothingLogged(before, cache.buf, cache.disk.sectors, start);
        ghost var image3 := cache.disk.sectors;
        CommitTrace(old(cache.disk.trace), cache.disk.trace, image0, image1, image3, start, secs);
      }
      busy := false;
    }

    /** Read the header sector into the in-memory header. */
    method ReadHead()
      requires Shape() && HeaderOk(cache.disk.sectors, start)
      requires cache.CanGet(DISK_DEV, start) && PinnedInOrder(cache.buf, [], [])
      modifies this`n, this`sector, cache, cache.disk
      ensures cache.Valid() && cache.disk.sectors == old(cache.disk.sectors)
      ensures cache.disk.trace == old(cache.disk.trace)
      ensures |sector| == LOGSIZE && n < size && sector[..n] == HeadSectors(cache.disk.sectors, start)
      ensures InUseKept(old(cache.buf), cache.buf)
    {
      hide Ring, Ordered;
      var b := cache.Bread(DISK_DEV, start);
      var lh := cache.buf[b].data;
      n := GetWord(lh, 0);
      var i := 0;
      while i < n
        modifies this`sector
        invariant 0 <= i <= n && |sector| == LOGSIZE
        invariant forall j :: 0 <= j < i ==> sector[j] == GetWord(lh, j + 1)
      {
        sector := sector[i := GetWord(lh, i + 1)];
        i := i + 1;
      }
      cache.Brelse(b);
      assert sector[..n] == HeadSectors(cache.disk.sectors, start);
    }

    /** Recovery at boot: install whatever the header on disk lists, then erase it. */
    method RecoverFromLog()
      requires Shape() && Idle() && PinnedInOrder(cache.buf, [], []) && HeaderOk(cache.disk.sectors, start)
      modifies this, cache, cache.disk
      ensures Valid() && Idle() && n == 0 && busy == old(busy)
      ensures cache.disk.sectors[..start] == Recovered(old(cache.disk.sectors), start)
      ensures |old(cache.disk.trace)| <= |cache.disk.trace|
      ensures cache.disk.trace[..|old(cache.disk.trace)|] == old(cache.disk.trace)
      ensures forall k :: |old(cache.disk.trace)| <= k < |cache.disk.trace| ==>
                DuringRecovery(old(cache.disk.sectors), cache.disk.trace[k], start)
    {
      hide Ring, Ordered, Coherent, Pinned, Loggable, Homes, InUseKept, PinnedInOrder, Installed, InstallImages,
           HeaderOk, Recovered, DuringRecovery;
      ghost var image, before := cache.disk.sectors, cache.buf;
      CanReuse(cache);
      HeaderFits(image, start);
      ReadHead();
      ghost var secs := sector[..n];
      KeptPins(before, cache.buf, [], []);
      NoPins(cache.buf, [], secs);
      InstallTrans([]);
      CanReuse(cache);
      before := cache.buf;
      n := 0;
      EmptyLoggable(sector, start);
      WriteHead();
      slot := [];
      NothingLogged(before, cache.buf, cache.disk.sectors, start);
      RecoveryTrace(old(cache.disk.trace), cache.disk.trace, image, cache.disk.sectors, start);
    }
  }
}
