/** The buffer cache: NBUF buffers on a circular doubly linked list, most recently released first. */
module BufferCache {
  import opened Blocks
  import opened MemIde

  const NBUF := 10
  /** The list head `bcache.head`, as an index after the last buffer. */
  const HEAD := NBUF
  const NODEV := -1

  /** The stops of one tour of the list, from the head back to the head. */
  function Cycle(order: seq<nat>): seq<nat> {
    [HEAD] + order + [HEAD]
  }

  /** Both link arrays follow `order`: one circular list, traversed forwards by next and backwards by prev. */
  ghost predicate Ring(next: seq<nat>, prev: seq<nat>, order: seq<nat>) {
    && |next| == NBUF + 1 && |prev| == NBUF + 1
    && (forall i :: 0 <= i < |order| ==> order[i] < NBUF)
    && (forall i, j :: 0 <= i < j < |order| ==> order[i] != order[j])
    && var c := Cycle(order);
       forall i, j :: 0 <= i && j == i + 1 && j < |c| ==> next[c[i]] == c[j] && prev[c[j]] == c[i]
  }

  function Without(order: seq<nat>, p: nat): seq<nat>
    requires p < |order|
  {
    order[..p] + order[p + 1..]
  }

  /** Bypassing an element with the two unlink assignments leaves a ring over the remaining elements. */
  lemma Unlinked(next: seq<nat>, prev: seq<nat>, order: seq<nat>, p: nat)
    requires Ring(next, prev, order) && p < |order|
    ensures |next| == |prev| == NBUF + 1 && order[p] < NBUF && next[order[p]] <= NBUF && prev[order[p]] <= NBUF
    ensures Ring(next[prev[order[p]] := next[order[p]]], prev[next[order[p]] := prev[order[p]]], Without(order, p))
  {
    var b, c, c' := order[p], Cycle(order), Cycle(Without(order, p));
    assert c[p + 1] == b;
    assert prev[c[p + 1]] == c[p] && next[c[p + 1]] == c[p + 2];
    assert forall i :: 0 <= i < |c'| ==> c'[i] == if i <= p then c[i] else c[i + 1];
    var next', prev' := next[c[p] := c[p + 2]], prev[c[p + 2] := c[p]];
    forall i, j | 0 <= i && j == i + 1 && j < |c'| ensures next'[c'[i]] == c'[j] && prev'[c'[j]] == c'[i] {
      if i < p {
        assert next[c[i]] == c[j] && prev[c[j]] == c[i];
      } else if i > p {
        assert next[c[i + 1]] == c[j + 1] && prev[c[j + 1]] == c[i + 1];
      }
    }
  }

  /** The four assignments that link an element behind the head put it first in the ring. */
  lemma Pushed(next: seq<nat>, prev: seq<nat>, order: seq<nat>, b: nat)
    requires Ring(next, prev, order) && b < NBUF && b !in order
    ensures next[HEAD] <= NBUF
    ensures Ring(next[b := next[HEAD]][HEAD := b], prev[b := HEAD][next[HEAD] := b], [b] + order)
  {
    var c, c' := Cycle(order), Cycle([b] + order);
    assert next[c[0]] == c[1];
    assert forall i :: 0 <= i < |c'| ==> c'[i] == if i == 0 then HEAD else if i == 1 then b else c[i - 1];
  }

  /** The six assignments of a release, in the order they are made, move an element to the front of the ring. */
  lemma Relinked(next: seq<nat>, prev: seq<nat>, order: seq<nat>, p: nat, prev1: seq<nat>, next1: seq<nat>)
    requires Ring(next, prev, order) && p < |order|
    requires next[order[p]] <= NBUF && prev[order[p]] <= NBUF
    requires prev1 == prev[next[order[p]] := prev[order[p]]]
    requires prev1[order[p]] <= NBUF && next1 == next[prev1[order[p]] := next[order[p]]]
    ensures next1[HEAD] <= NBUF
    ensures Ring(next1[order[p] := next1[HEAD]][HEAD := order[p]],
                 prev1[order[p] := HEAD][next1[HEAD] := order[p]], [order[p]] + Without(order, p))
  {
    var b, c := order[p], Cycle(order);
    assert c[p + 1] == b && next[c[p + 1]] == c[p + 2];
    assert prev1[b] == prev[b];
    Unlinked(next, prev, order, p);
    Pushed(next1, prev1, Without(order, p), b);
  }

  /** Every buffer is listed once, and the list is sorted from the latest release to the earliest. */
  ghost predicate Ordered(order: seq<nat>, stamp: seq<nat>, clock: nat) {
    && |order| == NBUF && |stamp| == NBUF
    && (forall i :: 0 <= i < NBUF ==> order[i] < NBUF)
    && (forall b: nat :: b < NBUF ==> b in order)
    && (forall b: nat :: b < NBUF ==> stamp[b] <= clock)
    && (forall i, j :: 0 <= i < j < NBUF ==> stamp[order[i]] > stamp[order[j]])
  }

  lemma IndexOf(order: seq<nat>, stamp: seq<nat>, clock: nat, b: nat) returns (p: nat)
    requires Ordered(order, stamp, clock) && b < NBUF
    ensures p < NBUF == |order| && order[p] == b && |stamp| == NBUF
  {
    assert b in order;
    p :| p < NBUF && order[p] == b;
  }

  /** Moving a buffer to the front with a new time stamp keeps the list sorted by release time. */
  lemma MovedToFront(order: seq<nat>, stamp: seq<nat>, clock: nat, p: nat)
    requires Ordered(order, stamp, clock) && p < NBUF
    ensures Ordered([order[p]] + Without(order, p), stamp[order[p] := clock + 1], clock + 1)
  {
    var b, rest := order[p], Without(order, p);
    forall x: nat | x < NBUF ensures x in [b] + rest {
      assert x in order;
      var q :| 0 <= q < NBUF && order[q] == x;
      assert x == b || x == rest[if q < p then q else q - 1];
    }
    assert forall i :: 0 <= i < |rest| ==> rest[i] == order[if i < p then i else i + 1];
  }

  predicate SameSector(a: Buf, b: Buf) {
    a.dev != NODEV && a.dev == b.dev && a.sector == b.sector
  }

  /** A released clean buffer, which must be a faithful copy of its sector. */
  predicate Resting(b: Buf) {
    b.valid && !b.dirty && !b.busy
  }

  predicate BufOk(b: Buf, image: Image) {
    && (b.dirty ==> b.valid)
    && (b.valid ==> b.dev == DISK_DEV && b.sector < |image|)
    && (Resting(b) ==> b.data == image[b.sector])
  }

  /** At most one buffer per sector, and each buffer consistent with the disk. */
  ghost predicate Coherent(buf: seq<Buf>, image: Image) {
    && |buf| == NBUF
    && (forall a: nat, b: nat {:trigger SameSector(buf[a], buf[b])} :: a < b < NBUF ==> !SameSector(buf[a], buf[b]))
    && (forall b: nat :: b < NBUF ==> BufOk(buf[b], image))
  }

  lemma CoherentUpdate(buf: seq<Buf>, image: Image, b: nat, r: Buf)
    requires Coherent(buf, image) && b < NBUF && BufOk(r, image)
    requires forall c: nat :: c < NBUF && c != b ==> !SameSector(buf[c], r)
    ensures Coherent(buf[b := r], image)
  {
    var after := buf[b := r];
    forall x: nat, y: nat | x < y < NBUF ensures !SameSector(after[x], after[y]) {
      assert !SameSector(buf[x], buf[y]);
    }
  }

  /** Other buffers hold other sectors. */
  lemma Distinct(buf: seq<Buf>, image: Image, b: nat)
    requires Coherent(buf, image) && b < NBUF
    ensures forall c: nat :: c < NBUF && c != b ==> !SameSector(buf[c], buf[b])
  {
    forall c: nat | c < NBUF && c != b ensures !SameSector(buf[c], buf[b]) {
      assert c < b ==> !SameSector(buf[c], buf[b]);
      assert b < c ==> !SameSector(buf[b], buf[c]);
    }
  }

  lemma CoherentChange(buf: seq<Buf>, image: Image, b: nat, r: Buf)
    requires Coherent(buf, image) && b < NBUF && BufOk(r, image)
    requires r.dev == buf[b].dev && r.sector == buf[b].sector
    ensures Coherent(buf[b := r], image)
  {
    Distinct(buf, image, b);
    CoherentUpdate(buf, image, b, r);
  }

  /** Holding a buffer keeps the rule, and so does giving one to a sector that is not cached. */
  lemma HeldCoherent(buf: seq<Buf>, image: Image, b: nat)
    requires Coherent(buf, image) && b < NBUF
    ensures Coherent(buf[b := buf[b].(busy := true)], image)
  {
    assert BufOk(buf[b], image);
    CoherentChange(buf, image, b, buf[b].(busy := true));
  }

  lemma ReleasedCoherent(buf: seq<Buf>, image: Image, b: nat)
    requires Coherent(buf, image) && b < NBUF
    ensures buf[b].valid ==> buf[b].sector < |image|
    ensures Coherent(buf[b := buf[b].(busy := false)], image) <==>
            (buf[b].valid && !buf[b].dirty ==> buf[b].data == image[buf[b].sector])
  {
    var r := buf[b].(busy := false);
    assert BufOk(buf[b], image);
    if BufOk(r, image) { CoherentChange(buf, image, b, r); }
    assert buf[b := r][b] == r;
  }

  lemma TakenCoherent(buf: seq<Buf>, image: Image, b: nat, dev: int, sector: nat)
    requires Coherent(buf, image) && b < NBUF && dev != NODEV
    requires forall c: nat :: c < NBUF ==> !(buf[c].dev == dev && buf[c].sector == sector)
    ensures Coherent(buf[b := Buf(dev, sector, true, false, false, buf[b].data)], image)
  {
    CoherentUpdate(buf, image, b, Buf(dev, sector, true, false, false, buf[b].data));
  }

  lemma CoherentWrite(buf: seq<Buf>, image: Image, b: nat, r: Buf)
    requires Coherent(buf, image) && b < NBUF && buf[b].dev == DISK_DEV && buf[b].sector < |image|
    requires r.valid && r.dev == DISK_DEV && r.sector == buf[b].sector
    ensures Coherent(buf[b := r], image[r.sector := r.data])
  {
    Distinct(buf, image, b);
    var image' := image[r.sector := r.data];
    forall c: nat | c < NBUF && c != b ensures BufOk(buf[c], image') {
      assert BufOk(buf[c], image) && !SameSector(buf[c], buf[b]);
    }
    var after := buf[b := r];
    forall x: nat, y: nat | x < y < NBUF ensures !SameSector(after[x], after[y]) {
      assert !SameSector(buf[x], buf[y]);
    }
  }

  /** Buffers in use (held or pinned) are left alone, and no further buffer is in use. */
  ghost predicate InUseKept(before: seq<Buf>, after: seq<Buf>) {
    && |before| == |after| == NBUF
    && forall c: nat :: c < NBUF ==>
         if before[c].busy || before[c].dirty then after[c] == before[c] else !after[c].busy && !after[c].dirty
  }

  /** The buffer of sector `home` is no longer dirty, every other dirty buffer is untouched, and none becomes dirty. */
  ghost predicate Unpinned(before: seq<Buf>, after: seq<Buf>, home: nat) {
    && |before| == |after| == NBUF
    && forall c: nat :: c < NBUF ==>
         if before[c].dirty && before[c].sector != home then after[c] == before[c] else !after[c].dirty
  }

  lemma UnpinnedBy(before: seq<Buf>, image: Image, after: seq<Buf>, l: nat, d: nat, home: nat)
    requires Coherent(before, image) && |after| == NBUF && l < NBUF && d < NBUF
    requires !before[l].dirty && !after[l].dirty && !after[d].dirty
    requires before[d].dirty ==> before[d].sector == home
    requires forall c: nat :: c < NBUF && before[c].dirty && before[c].sector == home ==>
              before[d].dev == DISK_DEV && before[d].sector == home
    requires forall c: nat :: c < NBUF && c != l && c != d ==> after[c] == before[c]
    ensures Unpinned(before, after, home)
  {
    Distinct(before, image, d);
    forall c: nat | c < NBUF && before[c].dirty && before[c].sector == home ensures c == d {
      assert BufOk(before[c], image);
    }
  }

  lemma EmptyRing()
    ensures Ring(seq(NBUF + 1, _ => HEAD), seq(NBUF + 1, _ => HEAD), [])
  {
  }

  lemma RingLengths(next: seq<nat>, prev: seq<nat>, order: seq<nat>)
    requires Ring(next, prev, order)
    ensures |next| == |prev| == NBUF + 1
  {
  }

  lemma CountedDown(order: seq<nat>)
    requires |order| == NBUF && forall i :: 0 <= i < NBUF ==> order[i] == NBUF - 1 - i
    ensures Ordered(order, seq(NBUF, i => i), NBUF)
  {
    forall x: nat | x < NBUF ensures x in order { assert order[NBUF - 1 - x] == x; }
  }

  class BCache {
    const disk: Disk
    var buf: seq<Buf>
    var next: seq<nat>
    var prev: seq<nat>

    /** The buffers in list order, and for each the time it was last released (or created). */
    ghost var order: seq<nat>
    ghost var stamp: seq<nat>
    ghost var clock: nat

    ghost predicate Valid()
      reads this, disk
    {
      && |buf| == NBUF
      && Coherent(buf, disk.sectors)
      && Ring(next, prev, order)
      && Ordered(order, stamp, clock)
    }

    ghost predicate Holds(b: nat, dev: int, sector: nat)
      reads this
      requires b < |buf|
    {
      buf[b].dev == dev && buf[b].sector == sector
    }

    ghost predicate Cached(dev: int, sector: nat)
      reads this
    {
      exists b: nat :: b < |buf| && Holds(b, dev, sector)
    }

    ghost predicate Recyclable(b: nat)
      reads this
      requires b < |buf|
    {
      !buf[b].busy && !buf[b].dirty
    }

    /** The sector is not in use by someone else, and if it is not cached some buffer can be recycled. */
    ghost predicate CanGet(dev: int, sector: nat)
      reads this
    {
      && (forall b: nat :: b < |buf| && Holds(b, dev, sector) ==> !buf[b].busy)
      && (Cached(dev, sector) || exists b: nat :: b < |buf| && Recyclable(b))
    }

    constructor (d: Disk)
      ensures Valid() && disk == d
      ensures forall b: nat :: b < NBUF ==> !buf[b].busy && !buf[b].dirty && !buf[b].valid
    {
      hide Ring, Ordered;
      EmptyRing();
      disk := d;
      buf := seq(NBUF, _ => Buf(0, 0, false, false, false, ZeroBlock));
      next := seq(NBUF + 1, _ => HEAD);
      prev := seq(NBUF + 1, _ => HEAD);
      order, stamp, clock := [], seq(NBUF, i => i), NBUF;
      new;
      var b := 0;
      while b < NBUF
        invariant 0 <= b <= NBUF && |buf| == NBUF
        invariant Ring(next, prev, order) && |order| == b
        invariant forall i :: 0 <= i < b ==> order[i] == b - 1 - i
        invariant forall i :: 0 <= i < NBUF ==> !buf[i].busy && !buf[i].dirty && !buf[i].valid
        invariant forall i :: 0 <= i < b ==> buf[i].dev == NODEV
        invariant disk == d && stamp == seq(NBUF, i => i) && clock == NBUF
      {
        RingLengths(next, prev, order);
        Pushed(next, prev, order, b);
        next := next[b := next[HEAD]];
        prev := prev[b := HEAD];
        buf := buf[b := buf[b].(dev := NODEV)];
        prev := prev[next[HEAD] := b];
        next := next[HEAD := b];
        order := [b] + order;
        b := b + 1;
      }
      CountedDown(order);
    }

    /** The first loop of bget: the buffer of a sector, or HEAD. */
    method FindCached(dev: int, sector: nat) returns (b: nat)
      requires Valid()
      ensures b == HEAD || (b < NBUF && Holds(b, dev, sector))
      ensures b == HEAD ==> !Cached(dev, sector)
    {
      hide Coherent;
      ghost var c := Cycle(order);
      ghost var i := 1;
      assert next[c[0]] == c[1];
      b := next[HEAD];
      while b != HEAD
        invariant 1 <= i <= NBUF + 1 && b == c[i]
        invariant forall j :: 0 <= j < i - 1 ==> !Holds(order[j], dev, sector)
        decreases NBUF + 1 - i
      {
        assert b == order[i - 1];
        if buf[b].dev == dev && buf[b].sector == sector {
          return;
        }
        assert next[c[i]] == c[i + 1];
        b := next[b];
        i := i + 1;
      }
      forall x: nat | x < NBUF ensures !Holds(x, dev, sector) { assert x in order; }
    }

    /** The second loop of bget, from the end of the list: the clean buffer that was released longest ago. */
    method FindOldest() returns (b: nat)
      requires Valid() && exists c: nat :: c < |buf| && Recyclable(c)                    // else "bget: no buffers"
      ensures b < NBUF && Recyclable(b) && forall c: nat :: c < NBUF && Recyclable(c) ==> stamp[b] <= stamp[c]
    {
      hide Coherent;
      ghost var c := Cycle(order);
      ghost var i := NBUF;
      assert prev[c[NBUF + 1]] == c[NBUF];
      b := prev[HEAD];
      while !(!buf[b].busy && !buf[b].dirty)
        invariant 1 <= i <= NBUF && b == c[i] && b < NBUF
        invariant forall j :: i <= j < NBUF ==> !Recyclable(order[j])
        decreases i
      {
        assert prev[c[i]] == c[i - 1];
        if i == 1 {
          assert forall x: nat :: x < NBUF && x in order ==> !Recyclable(x);
          assert false;
        }
        b := prev[b];
        i := i - 1;
      }
      forall x: nat | x < NBUF && Recyclable(x) ensures stamp[b] <= stamp[x] { assert x in order; }
    }

    /** Find the buffer of a sector, or recycle the least recently released clean one; return it busy. The rule that no
        sector has two buffers is kept. */
    method Bget(dev: int, sector: nat) returns (b: nat)
      requires Valid() && dev != NODEV && CanGet(dev, sector)
      modifies this`buf
      ensures Valid() && b < NBUF && |old(buf)| == NBUF
      ensures old(Cached(dev, sector)) ==>
                old(Holds(b, dev, sector)) && buf == old(buf)[b := old(buf)[b].(busy := true)]
      ensures !old(Cached(dev, sector)) ==>
                && old(Recyclable(b))
                && buf == old(buf)[b := Buf(dev, sector, true, false, false, old(buf)[b].data)]
                && forall c: nat :: c < NBUF && old(Recyclable(c)) ==> stamp[b] <= stamp[c]
    {
      hide Ring, Coherent;
      ghost var free: nat := 0;
      if c: nat :| c < |buf| && Recyclable(c) { free := c; }
      b := FindCached(dev, sector);
      if b != HEAD {
        HeldCoherent(buf, disk.sectors, b);
        buf := buf[b := buf[b].(busy := true)];
        return;
      }
      assert Recyclable(free);
      forall c: nat | c < NBUF
        ensures !(buf[c].dev == dev && buf[c].sector == sector) {
        assert !Holds(c, dev, sector);
      }
      b := FindOldest();
      TakenCoherent(buf, disk.sectors, b, dev, sector);
      buf := buf[b := buf[b].(dev := dev, sector := sector, busy := true, valid := false, dirty := false)];
    }

    /** Return a busy buffer with the contents of the sector. */
    method Bread(dev: int, sector: nat) returns (b: nat)
      requires Valid() && dev == DISK_DEV && sector < |disk.sectors| && CanGet(dev, sector)
      modifies this`buf, disk
      ensures Valid() && b < NBUF && disk.sectors == old(disk.sectors) && disk.trace == old(disk.trace)
      ensures |old(buf)| == NBUF && buf == old(buf)[b := buf[b]]
      ensures Holds(b, dev, sector) && buf[b].busy && buf[b].valid
      ensures old(Cached(dev, sector)) ==>
                && old(Holds(b, dev, sector)) && buf[b].dirty == old(buf)[b].dirty
                && (old(buf)[b].valid ==> buf[b].data == old(buf)[b].data)
      ensures !old(Cached(dev, sector)) ==> old(Recyclable(b)) && !buf[b].dirty
      ensures !buf[b].dirty ==> buf[b].data == disk.sectors[sector]
    {
      b := Bget(dev, sector);
      assert BufOk(old(buf)[b], disk.sectors);
      if !buf[b].valid {
        var r := disk.Iderw(buf[b]);
        CoherentChange(buf, disk.sectors, b, r);
        buf := buf[b := r];
      }
    }

    /** The caller's change of the data of a buffer it holds. */
    method SetData(b: nat, data: Block)
      requires Valid() && b < NBUF && buf[b].busy
      modifies this`buf
      ensures Valid() && |old(buf)| == NBUF && buf == old(buf)[b := old(buf)[b].(data := data)]
    {
      assert BufOk(buf[b], disk.sectors);
      CoherentChange(buf, disk.sectors, b, buf[b].(data := data));
      buf := buf[b := buf[b].(data := data)];
    }

    /** Write a held buffer through to its sector. */
    method Bwrite(b: nat)
      requires Valid() && b < NBUF && buf[b].busy                                       // "bwrite"
      requires buf[b].dev == DISK_DEV && buf[b].sector < |disk.sectors|                 // panics of iderw
      modifies this`buf, disk
      ensures Valid() && |old(buf)| == NBUF && buf == old(buf)[b := old(buf)[b].(dirty := false, valid := true)]
      ensures disk.sectors == old(disk.sectors)[buf[b].sector := buf[b].data]
      ensures disk.trace == old(disk.trace) + [disk.sectors]
    {
      CoherentWrite(buf, disk.sectors, b, buf[b].(dirty := false, valid := true));
      buf := buf[b := buf[b].(dirty := true)];
      var r := disk.Iderw(buf[b]);
      buf := buf[b := r];
      assert buf == old(buf)[b := old(buf)[b].(dirty := false, valid := true)];
    }

    /** Mark a held buffer dirty, which keeps it from being recycled. */
    method Pin(b: nat)
      requires Valid() && b < NBUF && buf[b].busy && buf[b].valid
      modifies this`buf
      ensures Valid() && |old(buf)| == NBUF && buf == old(buf)[b := old(buf)[b].(dirty := true)]
    {
      assert BufOk(buf[b], disk.sectors);
      CoherentChange(buf, disk.sectors, b, buf[b].(dirty := true));
      buf := buf[b := buf[b].(dirty := true)];
    }

    /** Unlink a buffer and link it again behind the head. */
    method MoveToFront(b: nat)
      requires Ring(next, prev, order) && Ordered(order, stamp, clock) && b < NBUF
      modifies this`next, this`prev, this`order, this`stamp, this`clock
      ensures Ring(next, prev, order) && Ordered(order, stamp, clock)
      ensures exists p: nat :: p < NBUF && old(order)[p] == b && order == [b] + Without(old(order), p)
      ensures stamp == old(stamp)[b := old(clock) + 1]
    {
      hide Ring, Ordered, Without;
      ghost var p := IndexOf(order, stamp, clock, b);
      ghost var next0, prev0 := next, prev;
      Unlinked(next, prev, order, p);
      prev := prev[next[b] := prev[b]];
      next := next[prev[b] := next[b]];
      Relinked(next0, prev0, order, p, prev, next);
      next := next[b := next[HEAD]];
      prev := prev[b := HEAD];
      prev := prev[next[HEAD] := b];
      next := next[HEAD := b];
      MovedToFront(order, stamp, clock, p);
      order := [b] + Without(order, p);
      clock := clock + 1;
      stamp := stamp[b := clock];
    }

    /** Whether a buffer shows what the cache promises for it once it is released. */
    ghost predicate Honest(b: nat)
      requires b < |buf|
      reads this, disk
    {
      buf[b].valid && !buf[b].dirty ==> buf[b].sector < |disk.sectors| && buf[b].data == disk.sectors[buf[b].sector]
    }

    /** Release a held buffer, which becomes the first of the list. The cache stays coherent exactly when the buffer is
        dirty or agrees with its sector: changes that were neither written nor logged are not seen again for sure. */
    method Brelse(b: nat)
      requires Valid() && b < NBUF && buf[b].busy                                        // "brelse"
      modifies this
      ensures |old(buf)| == NBUF && buf == old(buf)[b := old(buf)[b].(busy := false)]
      ensures Valid() <==> old(Honest(b))
      ensures |order| > 0 && order[0] == b
      ensures |old(stamp)| == NBUF && stamp == old(stamp)[b := old(clock) + 1]
    {
      hide Ring;
      assert BufOk(buf[b], disk.sectors);
      ReleasedCoherent(buf, disk.sectors, b);
      MoveToFront(b);
      buf := buf[b := buf[b].(busy := false)];
    }

    /** Read a sector in, replace its contents and write it through; the buffer is still held. */
    method Overwrite(sector: nat, data: Block) returns (b: nat)
      requires Valid() && sector < |disk.sectors| && CanGet(DISK_DEV, sector)
      modifies this`buf, disk
      ensures Valid() && b < NBUF && |old(buf)| == NBUF
      ensures buf == old(buf)[b := Buf(DISK_DEV, sector, true, true, false, data)]
      ensures old(Recyclable(b)) || old(Holds(b, DISK_DEV, sector))
      ensures old(Cached(DISK_DEV, sector)) ==> old(Holds(b, DISK_DEV, sector))
      ensures disk.sectors == old(disk.sectors)[sector := data]
      ensures disk.trace == old(disk.trace) + [disk.sectors]
    {
      b := Bread(DISK_DEV, sector);
      SetData(b, data);
      Bwrite(b);
    }

    /** Write a copy of a held buffer to another sector, and pin the buffer. */
    method AppendCopy(b: nat, sector: nat)
      requires Valid() && b < NBUF && buf[b].busy && buf[b].valid && sector < |disk.sectors| && CanGet(DISK_DEV, sector)
      requires forall c: nat :: c < NBUF && buf[c].dirty ==> buf[c].sector != sector
      modifies this, disk
      ensures Valid() && |old(buf)| == NBUF && InUseKept(old(buf)[b := old(buf)[b].(dirty := true)], buf)
      ensures buf[b] == old(buf)[b].(dirty := true)
      ensures disk.sectors == old(disk.sectors)[sector := old(buf)[b].data]
      ensures disk.trace == old(disk.trace) + [disk.sectors]
    {
      hide Ring, Ordered;
      var lbuf := Overwrite(sector, buf[b].data);
      Brelse(lbuf);
      Pin(b);
    }

    /** Copy one sector over another, as installing a log block does. The target's buffer, if pinned, is pinned no
        longer. */
    method CopySector(src: nat, dst: nat)
      requires Valid() && src < |disk.sectors| && dst < |disk.sectors| && src != dst
      requires forall c: nat :: c < NBUF ==> !buf[c].busy
      requires forall c: nat :: c < NBUF && buf[c].dirty ==> buf[c].sector != src
      requires exists c: nat :: c < NBUF && Recyclable(c)
      requires (exists c: nat :: c < NBUF && Holds(c, DISK_DEV, dst) && buf[c].dirty) || forall c: nat :: c < NBUF ==>
                !buf[c].dirty
      modifies this, disk
      ensures Valid() && Unpinned(old(buf), buf, dst)
      ensures forall c: nat :: c < NBUF ==> !buf[c].busy
      ensures disk.sectors == old(disk.sectors)[dst := old(disk.sectors)[src]]
      ensures disk.trace == old(disk.trace) + [disk.sectors]
    {
      hide Ring, Ordered;
      ghost var image, before := disk.sectors, buf;
      var lbuf := Bread(DISK_DEV, src);
      assert CanGet(DISK_DEV, dst) by {
        if home: nat :| home < NBUF && old(Holds(home, DISK_DEV, dst) && buf[home].dirty) {
          assert Holds(home, DISK_DEV, dst);
        } else {
          assert Recyclable(if lbuf == 0 then 1 else 0);
        }
      }
      label mid:
      var dbuf := Overwrite(dst, buf[lbuf].data);
      forall c: nat | c < NBUF && before[c].dirty && before[c].sector == dst ensures old@mid(Holds(c, DISK_DEV, dst)) {
        assert BufOk(before[c], image);
      }
      Brelse(lbuf);
      Brelse(dbuf);
      UnpinnedBy(before, image, buf, lbuf, dbuf, dst);
    }
  }
}
