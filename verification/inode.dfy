/** Block allocation and file contents. */
module FileSystem {
  import opened Optional
  import opened Blocks
  import opened Bitmap
  import opened BlockMap
  import opened FileContent
  import opened LogSectors

  const IPB := 8

  const T_DIR := 1
  const T_FILE := 2
  const T_DEV := 3

  /** The most bytes that filewrite passes to one transaction. */
  const WRITE_MAX := (LOGSIZE - 1 - 1 - 2) / 2 * 512

  function Min(a: int, b: int): int {
    if a < b then a else b
  }

  /** A bitmap bit is set exactly for the metadata blocks and the blocks that some inode slot names. */
  ghost predicate BitsAgree(bits: seq<Bits8>, owner: Owner, meta: nat, size: nat) {
    && size <= 8 * |bits|
    && (forall b: nat :: b < size ==> Used(bits, b) == (b < meta || b in owner))
  }

  ghost predicate FsOk(bits: seq<Bits8>, blocks: Image, inodes: seq<Dinode>, owner: Owner, meta: nat) {
    Owned(inodes, blocks, owner, meta) && BitsAgree(bits, owner, meta, |blocks|)
  }

  // ---- What a transaction logs ----

  /** The disk apart from the log: the bitmap, the blocks and the inode table. */
  datatype Stored = Stored(bits: seq<Bits8>, blocks: Image, dinodes: seq<Dinode>)

  /** The sector that holds bit b of the bitmap. */
  function BitmapSector(ninodes: nat, b: nat): nat {
    b / BPB + ninodes / IPB + 3
  }

  function InodeSector(i: nat): nat {
    i / IPB + 2
  }

  /** The layout of the disk: inodes eight to a sector from sector 2 on, then the bits 4096 to a sector, then the blocks
      of files. No two of these areas overlap. */
  lemma SectorLayout(ninodes: nat, size: nat, meta: nat, i: nat, j: nat, b: nat, c: nat)
    requires i < ninodes && j < ninodes && b < size && c < size && meta == ninodes / IPB + 3 + size / BPB + 1
    ensures 2 <= InodeSector(i) < BitmapSector(ninodes, b) < meta
    ensures InodeSector(i) == InodeSector(j) <==> i / 8 == j / 8
    ensures BitmapSector(ninodes, b) == BitmapSector(ninodes, c) <==> b / 4096 == c / 4096
    ensures InodeSector(0) == 2 && InodeSector(i + 8) == InodeSector(i) + 1
    ensures BitmapSector(ninodes, 0) == InodeSector(ninodes) + 1
    ensures BitmapSector(ninodes, b + 4096) == BitmapSector(ninodes, b) + 1
  {
  }

  /** Every sector whose contents differ between `home` and `now` was passed to log_write, and so was every block that
      has been taken into use. */
  ghost predicate Covered(home: Stored, now: Stored, ninodes: nat, log: seq<nat>) {
    && |now.bits| == |home.bits| && |now.blocks| == |home.blocks| && |now.dinodes| == |home.dinodes|
    && (forall b: nat :: b < |now.blocks| && now.blocks[b] != home.blocks[b] ==> b in log)
    && (forall x: nat :: x < |now.bits| && now.bits[x] != home.bits[x] ==> BitmapSector(ninodes, 8 * x) in log)
    && (forall i: nat :: i < |now.dinodes| && now.dinodes[i] != home.dinodes[i] ==> InodeSector(i) in log)
    && (forall b: nat :: b < 8 * |now.bits| && Used(now.bits, b) && !Used(home.bits, b) ==> b in log)
  }

  /** balloc: one bit is set, and the block zeroed. */
  lemma CoveredTaken(home: Stored, now: Stored, ninodes: nat, log: seq<nat>, b: nat)
    requires Covered(home, now, ninodes, log) && b < |now.blocks| && b / 8 < |now.bits|
    ensures Covered(home, now.(bits := Marked(now.bits, b), blocks := now.blocks[b := ZeroBlock]), ninodes,
                    log + [BitmapSector(ninodes, b), b])
  {
    hide Used, Marked, Cleared, BitmapSector, InodeSector;
    OneBit(now.bits, b);
    OneByte(now.bits, b);
    ByteSector(ninodes, b);
    assert forall c: nat :: c < 8 * |now.bits| ==> c / 8 < |now.bits|;
  }

  lemma CoveredFreed(home: Stored, now: Stored, ninodes: nat, log: seq<nat>, b: nat)
    requires Covered(home, now, ninodes, log) && b / 8 < |now.bits|
    ensures Covered(home, now.(bits := Cleared(now.bits, b)), ninodes, log + [BitmapSector(ninodes, b)])
  {
    hide Used, Marked, Cleared, BitmapSector, InodeSector;
    OneBit(now.bits, b);
    OneByte(now.bits, b);
    ByteSector(ninodes, b);
    assert forall c: nat :: c < 8 * |now.bits| ==> c / 8 < |now.bits|;
  }

  lemma ByteSector(ninodes: nat, b: nat)
    ensures BitmapSector(ninodes, 8 * (b / 8)) == BitmapSector(ninodes, b)
  {
    var x, q := 8 * (b / 8), b / BPB;
    assert BPB * q <= b < BPB * q + BPB;
    assert b - 8 < x <= b && x == 8 * (b / 8) && BPB * q == 8 * (512 * q);
    assert BPB * q <= x;
    SameQuotient(x, q);
  }

  lemma SameQuotient(x: nat, q: nat)
    requires BPB * q <= x < BPB * q + BPB
    ensures x / BPB == q
  {
  }

  lemma OneByte(bits: seq<Bits8>, b: nat)
    requires b / 8 < |bits|
    ensures |Marked(bits, b)| == |Cleared(bits, b)| == |bits|
    ensures forall x: nat :: x < |bits| && x != b / 8 ==> Marked(bits, b)[x] == Cleared(bits, b)[x] == bits[x]
  {
  }

  lemma CoveredBlock(home: Stored, now: Stored, ninodes: nat, log: seq<nat>, b: nat, block: Block)
    requires Covered(home, now, ninodes, log) && b < |now.blocks|
    ensures Covered(home, now.(blocks := now.blocks[b := block]), ninodes, log + [b])
  {
  }

  lemma CoveredInode(home: Stored, now: Stored, ninodes: nat, log: seq<nat>, i: nat, ip: Dinode)
    requires Covered(home, now, ninodes, log) && i < |now.dinodes|
    ensures Covered(home, now.(dinodes := now.dinodes[i := ip]), ninodes, log + [InodeSector(i)])
  {
  }

  lemma NothingChanged(now: Stored, ninodes: nat)
    ensures Covered(now, now, ninodes, [])
  {
  }

  function SectorRange(lo: nat, n: nat): (r: set<nat>)
    ensures |r| == n && forall s :: s in r <==> lo <= s < lo + n
  {
    if n == 0 then {} else SectorRange(lo, n - 1) + {lo + n - 1}
  }

  /** The sectors of the bitmap of a disk with `size` blocks. */
  function BitmapSectors(ninodes: nat, size: nat): set<nat> {
    SectorRange(ninodes / IPB + 3, (size + BPB - 1) / BPB)
  }

  lemma BitmapHas(ninodes: nat, size: nat, b: nat)
    ensures b < size ==> BitmapSector(ninodes, b) in BitmapSectors(ninodes, size)
  {
  }

  lemma BitmapCount(ninodes: nat, size: nat)
    ensures |BitmapSectors(ninodes, size)| == (size + BPB - 1) / BPB
  {
  }

  /** Since `before`, only sectors of the bitmap and the given ones were logged. */
  ghost predicate LoggedOnly(before: seq<nat>, after: seq<nat>, bitmap: set<nat>, more: set<nat>) {
    forall s :: s in after ==> s in before || s in bitmap || s in more
  }

  /** Block bn of a file, as far as it exists, and the indirect block if it leads there. */
  function BlockSectors(ip: Dinode, blocks: Image, bn: nat): set<nat>
    requires |ip.addrs| == NDIRECT + 1
  {
    (if Mapped(ip, blocks, bn) then {Ref(ip, blocks, SlotOf(bn))} else {}) +
    if NDIRECT <= bn then IndirectBlock(ip) else {}
  }

  /** The blocks that hold n bytes at off of a file, and the indirect block if it leads to one of them. */
  function WriteSectors(ip: Dinode, blocks: Image, off: nat, n: nat): set<nat>
    requires |ip.addrs| == NDIRECT + 1
  {
    DataBlocks(ip, blocks, off / BSIZE, (off + n + BSIZE - 1) / BSIZE) +
    if NDIRECT * BSIZE < off + n then IndirectBlock(ip) else {}
  }

  lemma SectorsGrow(ip: Dinode, blocks: Image, off: nat, n: nat, m: nat)
    requires |ip.addrs| == NDIRECT + 1 && n <= m
    ensures WriteSectors(ip, blocks, off, n) <= WriteSectors(ip, blocks, off, m)
  {
    hide DataBlocks;
    BlocksGrow(ip, blocks, ip, blocks, off / BSIZE, (off + n + BSIZE - 1) / BSIZE, (off + m + BSIZE - 1) / BSIZE);
  }

  lemma LoggedMore(before: seq<nat>, mid: seq<nat>, after: seq<nat>, bitmap: set<nat>,
                   ip: Dinode, blocks: Image, ip': Dinode, blocks': Image, off: nat, k: nat, m: nat)
    requires RefsKept(ip, blocks, ip', blocks')
    requires 0 < m && (off + k) % BSIZE + m <= BSIZE
    requires LoggedOnly(before, mid, bitmap, WriteSectors(ip, blocks, off, k))
    requires LoggedOnly(mid, after, bitmap, BlockSectors(ip', blocks', (off + k) / BSIZE))
    ensures LoggedOnly(before, after, bitmap, WriteSectors(ip', blocks', off, k + m))
  {
    hide RefsKept, Ref, IndirectBlock;
    var lo, hi, hi' := off / BSIZE, (off + k + BSIZE - 1) / BSIZE, (off + k + m + BSIZE - 1) / BSIZE;
    assert hi <= hi' == (off + k) / BSIZE + 1;
    BlocksGrow(ip, blocks, ip', blocks', lo, hi, hi');
    IndirectKept(ip, blocks, ip', blocks');
    assert Mapped(ip', blocks', hi' - 1) ==> Ref(ip', blocks', SlotOf(hi' - 1)) in DataBlocks(ip', blocks', lo, hi');
  }

  lemma LoggedWeaken(before: seq<nat>, after: seq<nat>, bitmap: set<nat>, more: set<nat>, s: nat)
    requires LoggedOnly(before, after, bitmap, more)
    ensures LoggedOnly(before, after, bitmap, more + {s}) && LoggedOnly(before, after + [s], bitmap, more + {s})
  {
  }

  lemma LoggedMany(before: seq<nat>, after: seq<nat>, bitmap: set<nat>, some: set<nat>, more: set<nat>)
    requires LoggedOnly(before, after, bitmap, some) && some <= more
    ensures LoggedOnly(before, after, bitmap, more)
  {
  }

  /** Since `before`, at most n sectors besides the known ones were logged. */
  ghost predicate LogsAtMost(before: seq<nat>, after: seq<nat>, known: set<nat>, n: nat) {
    exists more: set<nat> :: |more| <= n && LoggedOnly(before, after, known, more)
  }

  lemma LogsNothing(before: seq<nat>, known: set<nat>, n: nat)
    ensures LogsAtMost(before, before, known, n)
  {
    assert LoggedOnly(before, before, known, {});
  }

  lemma LogsThese(before: seq<nat>, after: seq<nat>, bitmap: set<nat>, more: set<nat>, s: nat, n: nat)
    requires LoggedOnly(before, after, bitmap, more + {s}) && |more| <= n
    ensures LogsAtMost(before, after, bitmap + {s}, n)
  {
    assert LoggedOnly(before, after, bitmap + {s}, more);
  }

  /** What two steps log together. */
  lemma LogsThen(before: seq<nat>, mid: seq<nat>, after: seq<nat>, known1: set<nat>, n1: nat, known2: set<nat>, n2: nat,
                 known: set<nat>, n: nat)
    requires LogsAtMost(before, mid, known1, n1) && LogsAtMost(mid, after, known2, n2)
    requires known1 <= known && known2 <= known && n1 + n2 <= n
    ensures LogsAtMost(before, after, known, n)
  {
    var more1 :| |more1| <= n1 && LoggedOnly(before, mid, known1, more1);
    var more2 :| |more2| <= n2 && LoggedOnly(mid, after, known2, more2);
    assert |more1 + more2| <= n1 + n2;
    assert LoggedOnly(before, after, known, more1 + more2);
  }

  lemma NothingLogged(before: seq<nat>, bitmap: set<nat>, more: set<nat>)
    ensures LoggedOnly(before, before, bitmap, more)
  {
  }

  lemma SizeKeepsFs(bits: seq<Bits8>, blocks: Image, inodes: seq<Dinode>, owner: Owner, meta: nat, i: nat, size: nat)
    requires FsOk(bits, blocks, inodes, owner, meta) && i < |inodes|
    ensures FsOk(bits, blocks, inodes[i := inodes[i].(size := size)], owner, meta)
  {
    hide GetWord, BitsAgree;
    OwnedSame(inodes, blocks, inodes[i := inodes[i].(size := size)], blocks, owner, meta);
  }

  lemma SizeKeepsSectors(ip: Dinode, blocks: Image, size: nat, off: nat, n: nat)
    requires |ip.addrs| == NDIRECT + 1
    ensures WriteSectors(ip.(size := size), blocks, off, n) == WriteSectors(ip, blocks, off, n)
  {
    hide DataBlocks;
    SizeKeepsBlocks(ip, blocks, size, off / BSIZE, (off + n + BSIZE - 1) / BSIZE);
  }

  /** At every call of log_write the header has room for one more sector, unless the bitmap of the disk takes more than
      two sectors: log_write panics with LOGSIZE - 1 sectors in the header ("too big a transaction"). */
  ghost predicate FitsLog(calls: seq<nat>, size: nat) {
    && (forall k: nat :: k <= |calls| ==> |LoggedSectors(calls[..k])| <= 6 + (size + BPB - 1) / BPB)
    && (size <= 2 * BPB ==> forall k: nat :: k <= |calls| ==> |LoggedSectors(calls[..k])| < LOGSIZE - 1)
  }

  /** A whole transaction: its calls of log_write name every sector that changed, and they fit the log. */
  ghost predicate Transacted(home: Stored, now: Stored, ninodes: nat, calls: seq<nat>) {
    Covered(home, now, ninodes, calls) && FitsLog(calls, |now.blocks|)
  }

  /** A transaction that logs at most six sectors besides the bitmap fits. */
  lemma SixFit(log: seq<nat>, ninodes: nat, size: nat, known: set<nat>, n: nat)
    requires LogsAtMost([], log, BitmapSectors(ninodes, size) + known, n) && |known| + n <= 6
    ensures FitsLog(log, size)
  {
    hide LoggedSectors, BitmapSectors;
    var more :| |more| <= n && LoggedOnly([], log, BitmapSectors(ninodes, size) + known, more);
    BitmapCount(ninodes, size);
    var all := BitmapSectors(ninodes, size) + known + more;
    forall k: nat | k <= |log| ensures |LoggedSectors(log[..k])| <= 6 + (size + BPB - 1) / BPB {
      HeaderBound(log, all, k);
    }
  }

  lemma NoCalls(size: nat)
    ensures FitsLog([], size)
  {
  }

  /** A write of at most WRITE_MAX bytes, aligned or not, lies in at most four data blocks; with the indirect block,
      the inode sector and the bitmap that bounds the log header at every call of log_write. */
  lemma FewSectors(log: seq<nat>, ninodes: nat, size: nat, i: nat, ip: Dinode, blocks: Image, off: nat, n: nat)
    requires |ip.addrs| == NDIRECT + 1 && n <= WRITE_MAX
    requires LoggedOnly([], log, BitmapSectors(ninodes, size), WriteSectors(ip, blocks, off, n) + {InodeSector(i)})
    ensures |DataBlocks(ip, blocks, off / BSIZE, (off + n + BSIZE - 1) / BSIZE)| <= 4
    ensures FitsLog(log, size)
  {
    hide DataBlocks, LoggedSectors, BitmapSectors, InodeSector;
    var lo, hi := off / BSIZE, (off + n + BSIZE - 1) / BSIZE;
    assert lo <= hi <= lo + 4;
    FewBlocks(ip, blocks, lo, hi);
    var few := WriteSectors(ip, blocks, off, n) + {InodeSector(i)};
    assert |few| <= 6;
    BitmapCount(ninodes, size);
    var all := few + BitmapSectors(ninodes, size);
    forall k: nat | k <= |log| ensures |LoggedSectors(log[..k])| <= 6 + (size + BPB - 1) / BPB {
      HeaderBound(log, all, k);
    }
  }

  ghost predicate Full(bits: seq<Bits8>, size: nat) {
    forall b: nat :: b < size ==> b / 8 < |bits| && Used(bits, b)
  }

  /** A free block is a data block that no slot names. */
  lemma FreeUnowned(bits: seq<Bits8>, blocks: Image, inodes: seq<Dinode>, owner: Owner, meta: nat, b: nat)
    requires FsOk(bits, blocks, inodes, owner, meta) && b < |blocks| && b / 8 < |bits| && !Used(bits, b)
    ensures meta <= b && 0 < b && b !in owner
  {
  }

  lemma Allocated(bits: seq<Bits8>, owner: Owner, meta: nat, size: nat, b: nat, who: (nat, nat))
    requires BitsAgree(bits, owner, meta, size) && b < size
    ensures b / 8 < |bits| && BitsAgree(Marked(bits, b), owner[b := who], meta, size)
  {
    OneBit(bits, b);
  }

  /** Allocate a block for an empty direct or indirect address. */
  lemma AllocAddr(bits: seq<Bits8>, blocks: Image, inodes: seq<Dinode>, owner: Owner, meta: nat, i: nat, k: nat, b: nat)
    requires FsOk(bits, blocks, inodes, owner, meta) && i < |inodes| && k <= NDIRECT && inodes[i].addrs[k] == 0
    requires b < |blocks| && b / 8 < |bits| && !Used(bits, b)
    ensures var blocks', inodes', owner' := blocks[b := ZeroBlock], inodes[i := WithAddr(inodes[i], k, b)],
              owner[b := (i, k)];
            && FsOk(Marked(bits, b), blocks', inodes', owner', meta)
            && Kept(inodes, blocks, owner, inodes', blocks', owner', i)
            && Ref(inodes'[i], blocks', k) == b != 0
  {
    FreeUnowned(bits, blocks, inodes, owner, meta, b);
    RefsIgnoreData(inodes, blocks, owner, meta, b, ZeroBlock);
    OwnedSame(inodes, blocks, inodes, blocks[b := ZeroBlock], owner, meta);
    forall j: nat | j < NINDIRECT ensures GetWord(ZeroBlock, j) == 0 { ZeroBlockWords(j); }
    assert Ref(inodes[i], blocks, k) == 0;
    OwnedAddr(inodes, blocks[b := ZeroBlock], owner, meta, i, k, b);
    Allocated(bits, owner, meta, |blocks|, b, (i, k));
  }

  /** Allocate a block for an empty entry of the indirect block. */
  lemma AllocEntry(bits: seq<Bits8>, blocks: Image, inodes: seq<Dinode>, owner: Owner, meta: nat, i: nat, j: nat,
                   b: nat)
    requires FsOk(bits, blocks, inodes, owner, meta) && i < |inodes| && j < NINDIRECT && inodes[i].addrs[NDIRECT] != 0
    requires Ref(inodes[i], blocks, NDIRECT + 1 + j) == 0 && b < |blocks| && b / 8 < |bits| && !Used(bits, b)
    ensures var a := inodes[i].addrs[NDIRECT]; a < |blocks| && a != b
    ensures var a := inodes[i].addrs[NDIRECT];
            var blocks', owner' := blocks[b := ZeroBlock][a := SetWord(blocks[a], j, b)],
                owner[b := (i, NDIRECT + 1 + j)];
            && FsOk(Marked(bits, b), blocks', inodes, owner', meta)
            && Kept(inodes, blocks, owner, inodes, blocks', owner', i)
            && Ref(inodes[i], blocks', NDIRECT + 1 + j) == b != 0
  {
    hide GetWord, Used, Marked;
    FreeUnowned(bits, blocks, inodes, owner, meta, b);
    var a := inodes[i].addrs[NDIRECT];
    assert a == Ref(inodes[i], blocks, INDIRECT_SLOT) && owner[a] == (i, INDIRECT_SLOT);
    RefsIgnoreData(inodes, blocks, owner, meta, b, ZeroBlock);
    OwnedSame(inodes, blocks, inodes, blocks[b := ZeroBlock], owner, meta);
    assert Ref(inodes[i], blocks[b := ZeroBlock], NDIRECT + 1 + j) == 0;
    OwnedEntry(inodes, blocks[b := ZeroBlock], owner, meta, i, j, b);
    Allocated(bits, owner, meta, |blocks|, b, (i, NDIRECT + 1 + j));
  }

  lemma AddrFacts(bits: seq<Bits8>, blocks: Image, inodes: seq<Dinode>, owner: Owner, meta: nat, i: nat, k: nat)
    requires FsOk(bits, blocks, inodes, owner, meta) && i < |inodes| && k <= NDIRECT
    ensures |blocks| <= 8 * |bits| && |inodes[i].addrs| == NDIRECT + 1
    ensures inodes[i].addrs[k] == Ref(inodes[i], blocks, k)
    ensures (inodes[i].addrs[k] != 0 ==> inodes[i].addrs[k] < |blocks|)
    ensures WithAddr(inodes[i], k, inodes[i].addrs[k]) == inodes[i]
  {
    assert inodes[i].addrs[k] == Ref(inodes[i], blocks, k);
  }

  lemma EntryFacts(bits: seq<Bits8>, blocks: Image, inodes: seq<Dinode>, owner: Owner, meta: nat, i: nat, j: nat)
    requires FsOk(bits, blocks, inodes, owner, meta) && i < |inodes| && j < NINDIRECT
    ensures |inodes[i].addrs| == NDIRECT + 1 && |blocks| <= WORD_LIMIT
    ensures Ref(inodes[i], blocks, NDIRECT + 1 + j) != 0 ==>
              Ref(inodes[i], blocks, NDIRECT + 1 + j) < |blocks| && inodes[i].addrs[NDIRECT] != 0
    ensures 0 < inodes[i].addrs[NDIRECT] < |blocks| ==>
              Ref(inodes[i], blocks, NDIRECT + 1 + j) == GetWord(blocks[inodes[i].addrs[NDIRECT]], j)
  {
  }

  /** Getting hold of the indirect block does not change what its entries say. */
  lemma EntryOf(ip: Dinode, blocks: Image, ip': Dinode, blocks': Image, j: nat)
    requires |ip.addrs| == |ip'.addrs| == NDIRECT + 1 && j < NINDIRECT && 0 < ip'.addrs[NDIRECT] < |blocks'|
    requires ip' == WithAddr(ip, NDIRECT, ip'.addrs[NDIRECT])
    requires if ip.addrs[NDIRECT] != 0 then ip' == ip && blocks' == blocks else blocks'[ip'.addrs[NDIRECT]] == ZeroBlock
    ensures Ref(ip', blocks', NDIRECT + 1 + j) == Ref(ip, blocks, NDIRECT + 1 + j)
    ensures Ref(ip, blocks, NDIRECT + 1 + j) != 0 ==> ip.addrs[NDIRECT] != 0
  {
    hide GetWord;
    ZeroBlockWords(j);
  }

  lemma KeptSame(bits: seq<Bits8>, blocks: Image, inodes: seq<Dinode>, owner: Owner, meta: nat, i: nat)
    requires FsOk(bits, blocks, inodes, owner, meta) && i < |inodes|
    ensures Kept(inodes, blocks, owner, inodes, blocks, owner, i)
  {
  }

  /** Freeing the block that a slot names: it is in use, and clearing its bit drops it from the owned blocks. */
  lemma FreedSlot(bits: seq<Bits8>, blocks: Image, table: seq<Dinode>, own: Owner, meta: nat, i: nat, k: nat,
                  done: set<nat>)
    requires Owned(table, blocks, own, meta) && i < |table| && k < NSLOTS && k !in done
    requires BitsAgree(bits, Without(own, i, done), meta, |blocks|)
    ensures |table[i].addrs| == NDIRECT + 1 && |blocks| <= 8 * |bits|
    ensures var b := Ref(table[i], blocks, k);
            && (b != 0 ==> b < |blocks| && Used(bits, b))
            && BitsAgree(if b == 0 then bits else Cleared(bits, b), Without(own, i, done + {k}), meta, |blocks|)
  {
    hide GetWord, Used, Cleared, Ref;
    var b := Ref(table[i], blocks, k);
    SlotDropped(table, blocks, own, meta, i, k, done);
    if b != 0 {
      MarkedLength(bits, b);
      OneBit(bits, b);
    }
  }

  /** The first tot bytes of src are in the file; its recorded size is not yet updated. */
  ghost predicate Written(inodes0: seq<Dinode>, blocks0: Image, inodes: seq<Dinode>, blocks: Image,
                          i: nat, off: nat, src: seq<Byte>, tot: nat)
  {
    && i < |inodes| == |inodes0| && |blocks| == |blocks0| && tot <= |src| && |inodes[i].addrs| == NDIRECT + 1
    && Wrote(inodes0, blocks0, inodes, blocks, i, inodes0[i].size, off, src[..tot])
    && (off + tot <= inodes0[i].size ==> inodes == inodes0)
  }

  lemma WrittenNothing(inodes: seq<Dinode>, blocks: Image, i: nat, off: nat, src: seq<Byte>)
    requires NoHoles(inodes, blocks) && i < |inodes| && off <= inodes[i].size
    ensures |inodes[i].addrs| == NDIRECT + 1 && Written(inodes, blocks, inodes, blocks, i, off, src, 0)
  {
    assert MappedTo(inodes[i], blocks, inodes[i].size);
    hide MappedTo, Wrote;
    WroteNothing(inodes, blocks, i, off);
    assert src[..0] == [];
  }

  lemma OwnRefs(inodes: seq<Dinode>, blocks: Image, owner: Owner, meta: nat)
    requires Owned(inodes, blocks, owner, meta)
    ensures SameRefs(inodes, blocks, inodes, blocks)
  {
    hide Ref;
  }

  lemma MappedBelow(ip: Dinode, blocks: Image, n: nat, p: nat)
    requires MappedTo(ip, blocks, n) && p < n
    ensures Mapped(ip, blocks, p / BSIZE)
  {
  }

  /** What the end of writei needs: with the size set, the bytes are in the file. */
  lemma WrittenAll(inodes0: seq<Dinode>, blocks0: Image, inodes: seq<Dinode>, blocks: Image, i: nat, off: nat,
                   src: seq<Byte>)
    requires NoHoles(inodes0, blocks0) && Written(inodes0, blocks0, inodes, blocks, i, off, src, |src|)
    ensures |inodes| == |inodes0| && inodes[i] == inodes0[i].(addrs := inodes[i].addrs)
    ensures off + |src| <= inodes0[i].size ==> inodes == inodes0
    ensures forall x :: 0 <= x < |inodes| && x != i ==> inodes[x] == inodes0[x]
    ensures var inodes2 := inodes[i := inodes[i].(size := Max(inodes0[i].size, off + |src|))];
            NoHoles(inodes2, blocks) && Replaced(inodes0, blocks0, inodes2, blocks, i, off, src)
  {
    hide MappedTo, View, Spliced;
    assert src[..|src|] == src;
    WroteFacts(inodes0, blocks0, inodes, blocks, i, inodes0[i].size, off, src);
    WroteDone(inodes0, blocks0, inodes, blocks, i, off, src);
  }

  // ---- filewrite, piece by piece ----

  /** The first k bytes of src have reached the file, and nothing else has happened. */
  ghost predicate Progress(inodes0: seq<Dinode>, blocks0: Image, inodes: seq<Dinode>, blocks: Image,
                           i: nat, off: nat, src: seq<Byte>, k: nat)
  {
    && k <= |src| && i < |inodes| == |inodes0| && inodes[i].typ == inodes0[i].typ
    && (k == 0 ==> inodes == inodes0 && blocks == blocks0)
    && (k > 0 ==> Replaced(inodes0, blocks0, inodes, blocks, i, off, src[..k]))
    && (k > 0 ==> off <= inodes0[i].size && off + k <= inodes[i].size && off + k <= MAXFILE * BSIZE)
  }

  lemma ProgressMore(inodes0: seq<Dinode>, blocks0: Image, inodes1: seq<Dinode>, blocks1: Image,
                     inodes2: seq<Dinode>, blocks2: Image, i: nat, off: nat, src: seq<Byte>, k: nat, m: nat)
    requires Progress(inodes0, blocks0, inodes1, blocks1, i, off, src, k) && 0 < m && k + m <= |src|
    requires off + k <= inodes1[i].size && off + k + m <= MAXFILE * BSIZE
    requires Replaced(inodes1, blocks1, inodes2, blocks2, i, off + k, src[k..k + m])
    ensures Progress(inodes0, blocks0, inodes2, blocks2, i, off, src, k + m)
  {
    hide Replaced;
    ReplacedFacts(inodes1, blocks1, inodes2, blocks2, i, off + k, src[k..k + m]);
    if k == 0 {
      assert src[0..0 + m] == src[..m];
    } else {
      ReplacedMore(inodes0, blocks0, inodes1, blocks1, inodes2, blocks2, i, off, src, k, m);
    }
  }

  /** Unfolding Progress. */
  lemma ProgressFacts(inodes0: seq<Dinode>, blocks0: Image, inodes: seq<Dinode>, blocks: Image,
                      i: nat, off: nat, src: seq<Byte>, k: nat)
    requires i < |inodes| == |inodes0| && k <= |src|
    ensures inodes == inodes0 && blocks == blocks0 ==> Progress(inodes0, blocks0, inodes, blocks, i, off, src, 0)
    ensures Progress(inodes0, blocks0, inodes, blocks, i, off, src, k) ==>
              && inodes[i].typ == inodes0[i].typ && (k == 0 ==> inodes == inodes0 && blocks == blocks0)
              && (k > 0 ==> Replaced(inodes0, blocks0, inodes, blocks, i, off, src[..k]))
              && (k > 0 ==> off <= inodes0[i].size && off + k <= inodes[i].size && off + k <= MAXFILE * BSIZE)
  {
    hide Replaced;
  }

  class Fs {
    const ninodes: nat
    const meta: nat
    var bits: seq<Bits8>
    var blocks: Image
    /** The inodes as the kernel sees them, and as they are on disk. */
    var inodes: seq<Dinode>
    var dinodes: seq<Dinode>

    /** Whether a transaction is open. */
    var open: bool

    ghost var owner: Owner
    /** What the disk held when the transaction began, and the calls of log_write since. */
    ghost var home: Stored
    ghost var log: seq<nat>

    ghost function Now(): Stored
      reads this`bits, this`blocks, this`dinodes
    {
      Stored(bits, blocks, dinodes)
    }

    /** All that changed in the open transaction is logged, and outside transactions nothing changes. */
    ghost predicate Logged()
      reads this`bits, this`blocks, this`dinodes, this`open, this`home, this`log
    {
      Covered(home, Now(), ninodes, log) && (!open ==> log == [] && home == Now())
    }

    ghost predicate Valid()
      reads this
    {
      FsOk(bits, blocks, inodes, owner, meta) && |dinodes| == |inodes| && Logged()
    }

    constructor (nInodes: nat, bitmap: seq<Bits8>, sectors: Image, table: seq<Dinode>, ghost own: Owner)
      requires FsOk(bitmap, sectors, table, own, nInodes / IPB + 3 + |sectors| / BPB + 1)
      ensures Valid() && !open && ninodes == nInodes && meta == nInodes / IPB + 3 + |sectors| / BPB + 1
      ensures bits == bitmap && blocks == sectors && inodes == table && dinodes == table && owner == own
    {
      ninodes := nInodes;
      meta := nInodes / IPB + 3 + |sectors| / BPB + 1;
      bits, blocks, inodes, dinodes, owner := bitmap, sectors, table, table, own;
      open, home, log := false, Stored(bitmap, sectors, table), [];
    }

    /** The sector that holds the bit of block b. */
    function BBlock(b: nat): nat {
      BitmapSector(ninodes, b)
    }

    function IBlock(i: nat): nat {
      InodeSector(i)
    }

    ghost function Bitmaps(): set<nat>
      reads this`blocks
    {
      BitmapSectors(ninodes, |blocks|)
    }

    /** begin_trans, once no other transaction is open. */
    method Begin()
      requires Logged() && !open
      modifies this`open, this`home, this`log
      ensures Logged() && open && log == [] && home == Now()
    {
      NothingChanged(Now(), ninodes);
      open, home, log := true, Now(), [];
    }

    /** commit_trans: what was logged reaches the home locations. */
    method Commit()
      requires Logged() && open
      modifies this`open, this`home, this`log
      ensures Logged() && !open
    {
      NothingChanged(Now(), ninodes);
      open, home, log := false, Now(), [];
    }

    /** Allocate the first free block, zeroed. None stands for the panic "balloc: out of blocks". */
    method Balloc() returns (r: Option<nat>)
      requires |blocks| <= 8 * |bits| && Logged()
      requires open                                              // "write outside of trans"
      modifies this`bits, this`blocks, this`log
      ensures Logged()
      ensures r.None? ==> bits == old(bits) && blocks == old(blocks) && log == old(log)
      ensures r.None? ==> Full(bits, |blocks|)
      ensures r.Some? ==> r.value < |old(blocks)| && !Used(old(bits), r.value)
      ensures r.Some? ==> forall b: nat :: b < r.value ==> Used(old(bits), b)
      ensures r.Some? ==> bits == Marked(old(bits), r.value) && blocks == old(blocks)[r.value := ZeroBlock]
      ensures r.Some? ==> log == old(log) + [BBlock(r.value), r.value]
    {
      hide Used, Marked, Covered, BitmapSector;
      var b := FirstFree(bits, |blocks|);
      if b == -1 {
        return None;
      }
      CoveredTaken(home, Now(), ninodes, log, b);
      bits := Marked(bits, b);
      log := log + [BBlock(b)];
      blocks := blocks[b := ZeroBlock];
      log := log + [b];
      assert log == old(log) + [BBlock(b), b];
      return Some(b);
    }

    /** Free a block that is in use; otherwise the kernel panics with "freeing free block". */
    method Bfree(b: nat)
      requires |blocks| <= 8 * |bits| && b < |blocks| && Used(bits, b) && Logged() && open
      modifies this`bits, this`log
      ensures Logged() && bits == Cleared(old(bits), b) && log == old(log) + [BBlock(b)]
    {
      hide Covered, BitmapSector;
      CoveredFreed(home, Now(), ninodes, log, b);
      bits := Cleared(bits, b);
      log := log + [BBlock(b)];
    }

    /** Return a direct or the indirect address of file i, allocating a block if there is none. */
    method EnsureAddr(i: nat, k: nat) returns (r: Option<nat>)
      requires Valid() && i < |inodes| && k <= NDIRECT && |inodes[i].addrs| == NDIRECT + 1
      requires open || inodes[i].addrs[k] != 0
      modifies this`bits, this`blocks, this`inodes, this`owner, this`log
      ensures Valid() && |inodes| == |old(inodes)| && |blocks| == |old(blocks)|
      ensures Kept(old(inodes), old(blocks), old(owner), inodes, blocks, owner, i)
      ensures r.None? ==> Full(bits, |blocks|) && log == old(log)
      ensures r.Some? ==> |inodes[i].addrs| == NDIRECT + 1 && r.value == inodes[i].addrs[k] && 0 < r.value < |blocks|
      ensures r.Some? ==> LoggedOnly(old(log), log, Bitmaps(), {r.value})
      ensures r.Some? ==> inodes[i] == WithAddr(old(inodes)[i], k, r.value)
      ensures old(inodes)[i].addrs[k] != 0 ==>
                && r.Some? && inodes == old(inodes) && blocks == old(blocks) && bits == old(bits)
                && owner == old(owner) && log == old(log)
      ensures r.Some? && old(inodes)[i].addrs[k] == 0 ==> blocks[r.value] == ZeroBlock
    {
      hide Used, Marked, FsOk, Kept, Owned, BitsAgree, Full, Covered, BitmapSector, BitmapSectors;
      AddrFacts(bits, blocks, inodes, owner, meta, i, k);
      KeptSame(bits, blocks, inodes, owner, meta, i);
      var addr := inodes[i].addrs[k];
      if addr == 0 {
        var b := Balloc();
        if b.None? {
          return None;
        }
        AllocAddr(old(bits), old(blocks), inodes, owner, meta, i, k, b.value);
        BitmapHas(ninodes, |blocks|, b.value);
        owner := owner[b.value := (i, k)];
        inodes := inodes[i := WithAddr(inodes[i], k, b.value)];
        addr := b.value;
      }
      return Some(addr);
    }

    /** Return the address of block bn of file i, allocating it (and the indirect block) if there is none. */
    method Bmap(i: nat, bn: nat) returns (r: Option<nat>)
      requires Valid() && i < |inodes| && |inodes[i].addrs| == NDIRECT + 1
      requires bn < MAXFILE                                       // "bmap: out of range"
      requires open || Ref(inodes[i], blocks, SlotOf(bn)) != 0    // "write outside of trans"
      modifies this`bits, this`blocks, this`inodes, this`owner, this`log
      ensures Valid() && |inodes| == |old(inodes)| && |blocks| == |old(blocks)|
      ensures Kept(old(inodes), old(blocks), old(owner), inodes, blocks, owner, i)
      ensures r.None? ==> Full(bits, |blocks|)
      ensures |inodes[i].addrs| == |old(inodes)[i].addrs| == NDIRECT + 1
      ensures r.Some? ==> r.value == Ref(inodes[i], blocks, SlotOf(bn)) && 0 < r.value < |blocks|
      ensures LoggedOnly(old(log), log, Bitmaps(), BlockSectors(inodes[i], blocks, bn))
      ensures Ref(old(inodes)[i], old(blocks), SlotOf(bn)) != 0 ==>
                && r.Some? && inodes == old(inodes) && blocks == old(blocks) && bits == old(bits)
                && owner == old(owner) && log == old(log)
      ensures r.Some? && Ref(old(inodes)[i], old(blocks), SlotOf(bn)) == 0 ==> blocks[r.value] == ZeroBlock
    {
      hide Used, Marked, FsOk, Kept, Owned, BitsAgree, Full, GetWord, SetWord, Ref, Covered, BitmapSector,
           BitmapSectors;
      AddrFacts(bits, blocks, inodes, owner, meta, i, NDIRECT);
      if bn < NDIRECT {
        AddrFacts(bits, blocks, inodes, owner, meta, i, bn);
        r := EnsureAddr(i, bn);
        AddrFacts(bits, blocks, inodes, owner, meta, i, bn);
        return;
      }
      var j := bn - NDIRECT;
      EntryFacts(bits, blocks, inodes, owner, meta, i, j);
      r := EnsureAddr(i, NDIRECT);
      AddrFacts(bits, blocks, inodes, owner, meta, i, NDIRECT);
      if r.None? {
        return;
      }
      EntryOf(old(inodes)[i], old(blocks), inodes[i], blocks, j);
      ghost var inodes1, blocks1, owner1 := inodes, blocks, owner;
      r := EnsureEntry(i, j);
      KeptTrans(old(inodes), old(blocks), old(owner), inodes1, blocks1, owner1, inodes, blocks, owner, i);
    }

    /** Return an entry of the indirect block of file i, allocating a block if there is none. */
    method EnsureEntry(i: nat, j: nat) returns (r: Option<nat>)
      requires Valid() && i < |inodes| && j < NINDIRECT && |inodes[i].addrs| == NDIRECT + 1
      requires inodes[i].addrs[NDIRECT] != 0 && (open || Ref(inodes[i], blocks, NDIRECT + 1 + j) != 0)
      modifies this`bits, this`blocks, this`owner, this`log
      ensures Valid() && |blocks| == |old(blocks)| && Kept(inodes, old(blocks), old(owner), inodes, blocks, owner, i)
      ensures r.None? ==> Full(bits, |blocks|) && log == old(log)
      ensures r.Some? ==> r.value == Ref(inodes[i], blocks, NDIRECT + 1 + j) && 0 < r.value < |blocks|
      ensures r.Some? ==> LoggedOnly(old(log), log, Bitmaps(), {r.value} + IndirectBlock(inodes[i]))
      ensures Ref(inodes[i], old(blocks), NDIRECT + 1 + j) != 0 ==>
                r.Some? && blocks == old(blocks) && bits == old(bits) && owner == old(owner) && log == old(log)
      ensures r.Some? && Ref(inodes[i], old(blocks), NDIRECT + 1 + j) == 0 ==> blocks[r.value] == ZeroBlock
    {
      hide Used, Marked, FsOk, Kept, Owned, BitsAgree, Full, GetWord, SetWord, Ref, Covered, BitmapSector,
           BitmapSectors;
      AddrFacts(bits, blocks, inodes, owner, meta, i, NDIRECT);
      EntryFacts(bits, blocks, inodes, owner, meta, i, j);
      KeptSame(bits, blocks, inodes, owner, meta, i);
      var ind := inodes[i].addrs[NDIRECT];
      var addr := GetWord(blocks[ind], j);
      if addr == 0 {
        var b := Balloc();
        if b.None? {
          return None;
        }
        AllocEntry(old(bits), old(blocks), inodes, owner, meta, i, j, b.value);
        BitmapHas(ninodes, |blocks|, b.value);
        addr := b.value;
        CoveredBlock(home, Now(), ninodes, log, ind, SetWord(blocks[ind], j, addr));
        blocks := blocks[ind := SetWord(blocks[ind], j, addr)];
        log := log + [ind];
        owner := owner[b.value := (i, NDIRECT + 1 + j)];
      }
      return Some(addr);
    }

    /** No file has a hole below its size. */
    ghost predicate Sound()
      reads this
    {
      Valid() && NoHoles(inodes, blocks)
    }

    /** Copy the in-memory inode to disk. */
    method Iupdate(i: nat)
      requires i < |inodes| == |dinodes| && Logged() && open
      modifies this`dinodes, this`log
      ensures Logged() && dinodes == old(dinodes)[i := inodes[i]] && log == old(log) + [IBlock(i)]
    {
      hide Covered, InodeSector;
      CoveredInode(home, Now(), ninodes, log, i, inodes[i]);
      dinodes := dinodes[i := inodes[i]];
      log := log + [IBlock(i)];
    }

    /** One turn of the read loop: m bytes at p, which lie inside one existing block. */
    method ReadInBlock(i: nat, p: nat, m: nat) returns (data: seq<Byte>)
      requires Sound() && i < |inodes| && 0 < m && p % BSIZE + m <= BSIZE && p + m <= inodes[i].size
      modifies this`bits, this`blocks, this`inodes, this`owner, this`log
      ensures bits == old(bits) && blocks == old(blocks) && inodes == old(inodes) && owner == old(owner)
      ensures log == old(log)
      ensures data == Content(inodes[i], blocks)[p..p + m]
    {
      hide FsOk, NoHoles, MappedTo, ByteAt, GetWord, Kept, Full, LoggedOnly, IndirectBlock, Covered, Content, Ref,
           SlotOf;
      AddrFacts(bits, blocks, inodes, owner, meta, i, 0);
      MappedAt(inodes, blocks, i, p);
      var b := Bmap(i, p / BSIZE);
      BlockBytes(inodes[i], blocks, p, m);
      data := blocks[b.value][p % BSIZE..p % BSIZE + m];
    }

    /** Read up to n bytes at off; -1 (None) when off is past the end or the range overflows.
        Every block read exists, so nothing is allocated and no transaction is needed. */
    method Readi(i: nat, off: nat, n: nat) returns (r: Option<seq<Byte>>)
      requires Sound() && i < |inodes| && inodes[i].typ != T_DEV && off < WORD_LIMIT && n < WORD_LIMIT
      modifies this`bits, this`blocks, this`inodes, this`owner, this`log
      ensures bits == old(bits) && blocks == old(blocks) && inodes == old(inodes) && owner == old(owner)
      ensures log == old(log)
      ensures r.None? <==> off > inodes[i].size || off + n >= WORD_LIMIT
      ensures r.Some? ==> r.value == Content(inodes[i], blocks)[off..Min(off + n, inodes[i].size)]
    {
      hide FsOk, NoHoles, MappedTo, ByteAt, Covered;
      if off > inodes[i].size || (off + n) % WORD_LIMIT < off {
        return None;
      }
      var count := if off + n > inodes[i].size then inodes[i].size - off else n;
      var dst: seq<Byte> := [];
      while |dst| < count
        invariant bits == old(bits) && blocks == old(blocks) && inodes == old(inodes) && owner == old(owner)
        invariant log == old(log)
        invariant |dst| <= count && dst == Content(inodes[i], blocks)[off..off + |dst|]
      {
        var p := off + |dst|;
        var m: nat := Min(count - |dst|, BSIZE - p % BSIZE);
        var data := ReadInBlock(i, p, m);
        dst := dst + data;
      }
      return Some(dst);
    }

    /** One turn of the write loop: put data, which lies inside one block, into file i at off.
        `n` bytes of the file exist, which can be more than its recorded size says. */
    method WriteInBlock(i: nat, off: nat, data: seq<Byte>, ghost n: nat) returns (ok: bool)
      requires Sound() && i < |inodes| && 0 < |data| && open
      requires off % BSIZE + |data| <= BSIZE && off + |data| <= MAXFILE * BSIZE
      requires MappedTo(inodes[i], blocks, n) && off <= n
      modifies this`bits, this`blocks, this`inodes, this`owner, this`log
      ensures !ok ==> Full(bits, |blocks|)
      ensures |blocks| == |old(blocks)|
      ensures ok ==> Valid() && Wrote(old(inodes), old(blocks), inodes, blocks, i, n, off, data)
      ensures Logged() && i < |inodes| && RefsKept(old(inodes)[i], old(blocks), inodes[i], blocks)
      ensures |inodes[i].addrs| == NDIRECT + 1 && (ok ==> Mapped(inodes[i], blocks, off / BSIZE))
      ensures LoggedOnly(old(log), log, Bitmaps(), BlockSectors(inodes[i], blocks, off / BSIZE))
      ensures Mapped(old(inodes)[i], old(blocks), off / BSIZE) ==> ok && inodes == old(inodes)
    {
      hide Used, Full, BitsAgree, Owned, Kept, NoHoles, MappedTo, Wrote, GetWord, Ref, SameRefs, RefsKept, Overlaid,
           Covered, BitmapSector, BitmapSectors;
      AddrFacts(bits, blocks, inodes, owner, meta, i, 0);
      var r := Bmap(i, off / BSIZE);
      if r.None? {
        OwnRefs(inodes, blocks, owner, meta);
        KeptRefs(old(inodes), old(blocks), old(owner), inodes, blocks, owner, meta, i, blocks);
        return false;
      }
      ghost var blocks1 := blocks;
      WroteChunk(old(inodes), old(blocks), old(owner), inodes, blocks, owner, meta, i, n, off, data);
      CoveredBlock(home, Now(), ninodes, log, r.value, Overlaid(blocks[r.value], off % BSIZE, data));
      blocks := blocks[r.value := Overlaid(blocks[r.value], off % BSIZE, data)];
      KeptRefs(old(inodes), old(blocks), old(owner), inodes, blocks1, owner, meta, i, blocks);
      DataMapped(inodes, blocks1, blocks, i, off / BSIZE);
      log := log + [r.value];
      return true;
    }

    /** One turn of the write loop of writei: as much as goes into the next block. */
    method WriteTurn(i: nat, off: nat, src: seq<Byte>, tot: nat, ghost inodes0: seq<Dinode>, ghost blocks0: Image,
                     ghost log0: seq<nat>) returns (ok: bool, m: nat)
      requires Sound() && open && NoHoles(inodes0, blocks0) && tot < |src| && off + |src| <= MAXFILE * BSIZE
      requires Written(inodes0, blocks0, inodes, blocks, i, off, src, tot)
      requires LoggedOnly(log0, log, Bitmaps(), WriteSectors(inodes[i], blocks, off, tot))
      modifies this`bits, this`blocks, this`inodes, this`owner, this`log
      ensures !ok ==> Full(bits, |blocks|) && inodes0[i].size <= off + tot
      ensures 0 < m && tot + m <= |src|
      ensures Logged() && i < |inodes| && |blocks| == |blocks0| && |inodes[i].addrs| == NDIRECT + 1
      ensures ok ==> Sound() && Written(inodes0, blocks0, inodes, blocks, i, off, src, tot + m)
      ensures LoggedOnly(log0, log, Bitmaps(), WriteSectors(inodes[i], blocks, off, tot + m))
    {
      hide Used, Full, FsOk, NoHoles, MappedTo, Wrote, GetWord, Ref, RefsKept, WriteSectors, LoggedOnly, Mapped, View,
           Spliced, OthersSame, Covered, BitmapSector, BitmapSectors;
      ghost var inodes1, blocks1, log1, size := inodes, blocks, log, inodes0[i].size;
      m := Min(|src| - tot, BSIZE - (off + tot) % BSIZE);
      WroteFacts(inodes0, blocks0, inodes, blocks, i, size, off, src[..tot]);
      if off + tot < size { MappedBelow(inodes[i], blocks, Max(size, off + tot), off + tot); }
      ok := WriteInBlock(i, off + tot, src[tot..tot + m], Max(size, off + tot));
      LoggedMore(log0, log1, log, Bitmaps(), inodes1[i], blocks1, inodes[i], blocks, off, tot, m);
      if !ok {
        return;
      }
      WroteMore(inodes0, blocks0, inodes1, blocks1, inodes, blocks, i, size, off, src, tot, m);
      WroteFacts(inodes0, blocks0, inodes, blocks, i, size, off, src[..tot + m]);
      WroteDone(inodes0, blocks0, inodes, blocks, i, off, src[..tot + m]);
    }

    /** Write src at off, growing the file if need be: -1 when off is past the end or the file would be too large.
        None stands for the panic of Balloc. The inode goes to disk whenever it changed. */
    method Writei(i: nat, off: nat, src: seq<Byte>) returns (r: Option<int>)
      requires Sound() && i < |inodes| && inodes[i].typ != T_DEV && off < WORD_LIMIT && |src| < WORD_LIMIT && open
      modifies this`bits, this`blocks, this`inodes, this`dinodes, this`owner, this`log
      ensures r.None? ==> Full(bits, |blocks|) && old(inodes)[i].size < off + |src| && Logged()
      ensures r == Some(-1) <==> off > old(inodes[i].size) || off + |src| > MAXFILE * BSIZE
      ensures r == Some(-1) ==>
                && bits == old(bits) && blocks == old(blocks) && inodes == old(inodes) && dinodes == old(dinodes)
                && owner == old(owner) && log == old(log)
      ensures r.Some? ==> r.value == -1 || r.value == |src|
      ensures r.Some? && r.value != -1 ==> Sound() && Replaced(old(inodes), old(blocks), inodes, blocks, i, off, src)
      ensures r.Some? ==> |dinodes| == |inodes| == |old(inodes)|
      ensures r.Some? ==> forall x :: 0 <= x < |inodes| ==>
                            dinodes[x] == if inodes[x] == old(inodes)[x] then old(dinodes)[x] else inodes[x]
      ensures i < |inodes| && |blocks| == |old(blocks)| && |inodes[i].addrs| == NDIRECT + 1
      ensures LoggedOnly(old(log), log, Bitmaps(), WriteSectors(inodes[i], blocks, off, |src|) + {IBlock(i)})
    {
      hide Used, Full, FsOk, NoHoles, Wrote, Written, GetWord, WriteSectors, LoggedOnly, Covered, BitmapSector,
           BitmapSectors, InodeSector, Spliced, OthersSame, View;
      var n := |src|;
      AddrFacts(bits, blocks, inodes, owner, meta, i, 0);
      NothingLogged(log, Bitmaps(), WriteSectors(inodes[i], blocks, off, n) + {IBlock(i)});
      if off > inodes[i].size || (off + n) % WORD_LIMIT < off {
        return Some(-1);
      }
      if off + n > MAXFILE * BSIZE {
        return Some(-1);
      }
      WrittenNothing(inodes, blocks, i, off, src);
      NothingLogged(log, Bitmaps(), WriteSectors(inodes[i], blocks, off, 0));
      var tot := 0;
      while tot < n
        invariant tot <= n && Sound() && dinodes == old(dinodes)
        invariant Written(old(inodes), old(blocks), inodes, blocks, i, off, src, tot)
        invariant i < |inodes| && |blocks| == |old(blocks)| && |inodes[i].addrs| == NDIRECT + 1
        invariant LoggedOnly(old(log), log, Bitmaps(), WriteSectors(inodes[i], blocks, off, tot))
      {
        var ok, m := WriteTurn(i, off, src, tot, old(inodes), old(blocks), old(log));
        if !ok {
          SectorsGrow(inodes[i], blocks, off, tot + m, n);
          LoggedMany(old(log), log, Bitmaps(), WriteSectors(inodes[i], blocks, off, tot + m),
                     WriteSectors(inodes[i], blocks, off, n) + {IBlock(i)});
          return None;
        }
        tot := tot + m;
      }
      WrittenAll(old(inodes), old(blocks), inodes, blocks, i, off, src);
      LoggedWeaken(old(log), log, Bitmaps(), WriteSectors(inodes[i], blocks, off, n), IBlock(i));
      SizeKeepsFs(bits, blocks, inodes, owner, meta, i, off + n);
      SizeKeepsSectors(inodes[i], blocks, off + n, off, n);
      assert inodes[i := inodes[i].(size := inodes[i].size)] == inodes;
      if n > 0 && off + n > inodes[i].size {
        inodes := inodes[i := inodes[i].(size := off + n)];
        Iupdate(i);
      }
      return Some(n);
    }

    /** One transaction of filewrite: begin_trans, writei, commit_trans. `calls` are its calls of log_write: they name
        every sector that changed, and at none of them is the log header too full ("too big a transaction"). */
    method WriteTrans(i: nat, off: nat, src: seq<Byte>) returns (r: Option<int>, ghost calls: seq<nat>)
      requires Sound() && i < |inodes| && inodes[i].typ != T_DEV && off < WORD_LIMIT && |src| <= WRITE_MAX && !open
      modifies this
      ensures r.None? ==> Full(bits, |blocks|)
      ensures r == Some(-1) <==> off > old(inodes[i].size) || off + |src| > MAXFILE * BSIZE
      ensures r == Some(-1) ==>
                && bits == old(bits) && blocks == old(blocks) && inodes == old(inodes) && dinodes == old(dinodes)
                && owner == old(owner)
      ensures r.Some? ==> (r.value == -1 || r.value == |src|) && Sound() && !open
      ensures r.Some? && r.value != -1 ==> Replaced(old(inodes), old(blocks), inodes, blocks, i, off, src)
      ensures r.Some? && old(dinodes == inodes) ==> dinodes == inodes
      ensures r.Some? ==> Covered(old(Now()), Now(), ninodes, calls)
      ensures r.Some? ==> |blocks| == |old(blocks)| && |inodes| == |old(inodes)|
      ensures r.Some? ==> FitsLog(calls, |blocks|)
    {
      hide Used, Full, FsOk, NoHoles, Replaced, WriteSectors, LoggedOnly, Covered, InodeSector, BitmapSectors, FitsLog;
      Begin();
      r := Writei(i, off, src);
      calls := log;
      if r.Some? {
        if r.value == -1 {
          NoCalls(|blocks|);
        } else {
          FewSectors(log, ninodes, |blocks|, i, inodes[i], blocks, off, |src|);
        }
        Commit();
      }
    }

    /** Write src at offset off of an open file, a few blocks per transaction. Returns n or -1, and the new offset.
        A piece is written whole or not at all. */
    method Filewrite(i: nat, off: nat, src: seq<Byte>) returns (r: Option<int>, off': nat, ghost pieces: nat)
      requires Sound() && i < |inodes| && inodes[i].typ != T_DEV && off < WORD_LIMIT && |src| < 0x8000_0000 && !open
      modifies this
      ensures r.None? ==> Full(bits, |blocks|)
      ensures r.Some? ==> Sound() && !open && off <= off' <= off + |src|
      ensures r.Some? ==> r.value == if off' == off + |src| then |src| else -1
      ensures r.Some? ==>
                (r.value == |src| <==> src == [] || (off <= old(inodes)[i].size && off + |src| <= MAXFILE * BSIZE))
      ensures r.Some? && off' == off ==> inodes == old(inodes) && blocks == old(blocks)
      ensures r.Some? && off' != off ==> Replaced(old(inodes), old(blocks), inodes, blocks, i, off, src[..off' - off])
      ensures r == Some(-1) ==> off' - off == WRITE_MAX * pieces
      ensures r.Some? && old(dinodes == inodes) ==> dinodes == inodes
    {
      hide Used, Full, FsOk, NoHoles, Replaced, Covered, FitsLog, Progress;
      var k := 0;
      pieces := 0;
      ProgressFacts(inodes, blocks, inodes, blocks, i, off, src, 0);
      while k < |src|
        invariant k <= |src| && Sound() && !open && i < |inodes| == |old(inodes)|
        invariant Progress(old(inodes), old(blocks), inodes, blocks, i, off, src, k)
        invariant k == WRITE_MAX * pieces || k == |src|
        invariant old(dinodes == inodes) ==> dinodes == inodes
      {
        ProgressFacts(old(inodes), old(blocks), inodes, blocks, i, off, src, k);
        var n1 := Min(|src| - k, WRITE_MAX);
        ghost var inodes1, blocks1 := inodes, blocks;
        var w, calls := WriteTrans(i, off + k, src[k..k + n1]);
        if w.None? {
          return None, off + k, pieces;
        }
        if w.value < 0 {
          break;
        }
        assert w.value == n1;                                          // else "short filewrite"
        ProgressMore(old(inodes), old(blocks), inodes1, blocks1, inodes, blocks, i, off, src, k, n1);
        k := k + n1;
        pieces := pieces + 1;
      }
      ProgressFacts(old(inodes), old(blocks), inodes, blocks, i, off, src, k);
      return Some(if k == |src| then |src| else -1), off + k, pieces;
    }

    /** Free the block that slot k of file i names, if any. The slots in `done` have been freed already:
        the bitmap agrees with the ownership of the untouched `own` less those slots. */
    method FreeSlot(i: nat, k: nat, addr: nat, ghost own: Owner, ghost table: seq<Dinode>, ghost done: set<nat>)
      requires Owned(table, blocks, own, meta) && i < |table| && k < NSLOTS && k !in done
      requires addr == Ref(table[i], blocks, k)
      requires BitsAgree(bits, Without(own, i, done), meta, |blocks|) && Logged() && open
      modifies this`bits, this`log
      ensures BitsAgree(bits, Without(own, i, done + {k}), meta, |blocks|) && Logged()
      ensures log == old(log) + if addr == 0 then [] else [BBlock(addr)]
      ensures addr == 0 || addr < |blocks|
    {
      hide Owned, BitsAgree, Used, Cleared, Ref, GetWord, Without, Covered, BitmapSector;
      FreedSlot(bits, blocks, table, own, meta, i, k, done);
      if addr != 0 {
        Bfree(addr);
      }
    }

    /** The first loop of itrunc: free the direct blocks and clear their addresses. */
    method FreeDirect(i: nat)
      requires Valid() && i < |inodes| && open
      modifies this`bits, this`inodes, this`log
      ensures |old(inodes)[i].addrs| == NDIRECT + 1 && inodes == old(inodes)[i := ClearedTo(old(inodes)[i], NDIRECT)]
      ensures BitsAgree(bits, Without(owner, i, SlotRange(0, NDIRECT)), meta, |blocks|) && Logged()
      ensures LoggedOnly(old(log), log, Bitmaps(), {})
    {
      hide Owned, BitsAgree, Ref, GetWord, Without, SlotRange, ClearedTo, Covered, BitmapSector, BitmapSectors;
      AddrsRef(inodes, blocks, owner, meta, i);
      WithoutNone(owner, i);
      ClearedNone(inodes[i]);
      var k := 0;
      while k < NDIRECT
        invariant k <= NDIRECT && inodes == old(inodes)[i := ClearedTo(old(inodes)[i], k)]
        invariant BitsAgree(bits, Without(owner, i, SlotRange(0, k)), meta, |blocks|) && Logged()
        invariant LoggedOnly(old(log), log, Bitmaps(), {})
      {
        SlotRangeMore(0, k);
        ClearedStep(old(inodes)[i], k);
        var addr := inodes[i].addrs[k];
        FreeSlot(i, k, addr, owner, old(inodes), SlotRange(0, k));
        BitmapHas(ninodes, |blocks|, addr);
        if addr != 0 {
          inodes := inodes[i := WithAddr(inodes[i], k, 0)];
        }
        k := k + 1;
      }
    }

    /** The second loop of itrunc: free the blocks that the indirect block names. It is left as it is. */
    method FreeEntries(i: nat, ind: nat, ghost table: seq<Dinode>)
      requires Owned(table, blocks, owner, meta) && i < |table| && |table[i].addrs| == NDIRECT + 1
      requires table[i].addrs[NDIRECT] == ind != 0 && Logged() && open
      requires BitsAgree(bits, Without(owner, i, SlotRange(0, NDIRECT)), meta, |blocks|)
      modifies this`bits, this`log
      ensures var done := SlotRange(0, NDIRECT) + SlotRange(NDIRECT + 1, NSLOTS);
              BitsAgree(bits, Without(owner, i, done), meta, |blocks|)
      ensures Logged() && LoggedOnly(old(log), log, Bitmaps(), {})
    {
      hide Owned, BitsAgree, Ref, GetWord, Without, SlotRange, Covered, BitmapSector, BitmapSectors;
      EntriesRef(table, blocks, owner, meta, i);
      SlotRangeNone(NDIRECT + 1);
      assert SlotRange(0, NDIRECT) + {} == SlotRange(0, NDIRECT);
      var j := 0;
      ghost var done := SlotRange(0, NDIRECT);
      while j < NINDIRECT
        invariant j <= NINDIRECT && done == SlotRange(0, NDIRECT) + SlotRange(NDIRECT + 1, NDIRECT + 1 + j)
        invariant BitsAgree(bits, Without(owner, i, done), meta, |blocks|) && Logged()
        invariant LoggedOnly(old(log), log, Bitmaps(), {})
      {
        SlotRangeMore(NDIRECT + 1, NDIRECT + 1 + j);
        var addr := GetWord(blocks[ind], j);
        FreeSlot(i, NDIRECT + 1 + j, addr, owner, table, done);
        BitmapHas(ninodes, |blocks|, addr);
        done := done + {NDIRECT + 1 + j};
        j := j + 1;
      }
    }

    /** Free every block of file i, and no other, and set its size to 0. */
    method Itrunc(i: nat)
      requires Sound() && i < |inodes| && open
      modifies this`bits, this`inodes, this`dinodes, this`owner, this`log
      ensures Sound() && inodes == old(inodes)[i := Emptied(old(inodes)[i])] && owner == Disowned(old(owner), i)
      ensures dinodes == old(dinodes)[i := inodes[i]]
      ensures OthersSame(old(inodes), blocks, inodes, blocks, i) && Content(inodes[i], blocks) == []
      ensures LoggedOnly(old(log), log, Bitmaps(), {IBlock(i)})
    {
      hide Owned, BitsAgree, Ref, GetWord, Without, NoHoles, OthersSame, Disowned, SlotRange, Covered, BitmapSector,
           BitmapSectors, InodeSector;
      AddrsRef(inodes, blocks, owner, meta, i);
      FreeDirect(i);
      ghost var done := SlotRange(0, NDIRECT);
      var ind := inodes[i].addrs[NDIRECT];
      if ind != 0 {
        FreeEntries(i, ind, old(inodes));
        SlotRangeDone();
        FreeSlot(i, NDIRECT, ind, owner, old(inodes), SlotRange(0, NDIRECT) + SlotRange(NDIRECT + 1, NSLOTS));
        BitmapHas(ninodes, |blocks|, ind);
        inodes := inodes[i := WithAddr(inodes[i], NDIRECT, 0)];
        done := SlotRange(0, NSLOTS);
      }
      AllFreed(old(inodes), blocks, owner, meta, i, done);
      owner := Disowned(owner, i);
      inodes := inodes[i := inodes[i].(size := 0)];
      assert inodes[i].addrs == Emptied(old(inodes)[i]).addrs;
      assert inodes == old(inodes)[i := Emptied(old(inodes)[i])];
      EmptiedOk(old(inodes), blocks, old(owner), meta, i);
      Iupdate(i);
    }
  }
}
