/** mkfs builds the first image: blocks are handed out in order, and the bitmap is written last. */
module Mkfs {
  import opened Optional
  import opened Blocks
  import opened Bitmap
  import opened BlockMap
  import opened FileContent
  import opened FileSystem

  /** No block past the first n bytes of the file exists. */
  ghost predicate Tight(ip: Dinode, blocks: Image, n: nat) {
    && |ip.addrs| == NDIRECT + 1
    && (forall bn: nat :: bn < MAXFILE && n <= bn * BSIZE ==> !Mapped(ip, blocks, bn))
  }

  ghost predicate AllTight(inodes: seq<Dinode>, blocks: Image) {
    forall i :: 0 <= i < |inodes| ==> Tight(inodes[i], blocks, inodes[i].size)
  }

  /** Blocks from meta up to free are owned; those from free on are still zero. */
  ghost predicate Space(blocks: Image, inodes: seq<Dinode>, owner: Owner, meta: nat, free: nat) {
    && Owned(inodes, blocks, owner, meta) && meta <= free <= |blocks|
    && (forall b: nat :: b in owner <==> meta <= b < free)
    && (forall b: nat :: free <= b < |blocks| ==> IsZero(blocks[b]))
  }

  predicate IsZero(b: Block) {
    forall k :: 0 <= k < BSIZE ==> b[k] == 0
  }

  lemma TakeAddr(blocks: Image, inodes: seq<Dinode>, owner: Owner, meta: nat, free: nat, i: nat, k: nat)
    requires Space(blocks, inodes, owner, meta, free) && free < |blocks| && i < |inodes| && k <= NDIRECT
    requires inodes[i].addrs[k] == 0
    ensures var inodes', owner' := inodes[i := WithAddr(inodes[i], k, free)], owner[free := (i, k)];
            && Space(blocks, inodes', owner', meta, free + 1) && Kept(inodes, blocks, owner, inodes', blocks, owner', i)
            && OneMoreRef(inodes, blocks, inodes', blocks, i, k, free)
  {
    hide GetWord, OneMoreRef;
    assert blocks[free] == ZeroBlock;
    forall j: nat | j < NINDIRECT ensures GetWord(ZeroBlock, j) == 0 { ZeroBlockWords(j); }
    assert Ref(inodes[i], blocks, k) == 0;
    OwnedAddr(inodes, blocks, owner, meta, i, k, free);
  }

  lemma TakeEntry(blocks: Image, inodes: seq<Dinode>, owner: Owner, meta: nat, free: nat, i: nat, j: nat)
    requires Space(blocks, inodes, owner, meta, free) && free < |blocks| && i < |inodes| && j < NINDIRECT
    requires inodes[i].addrs[NDIRECT] != 0
    requires Ref(inodes[i], blocks, NDIRECT + 1 + j) == 0
    ensures var a := inodes[i].addrs[NDIRECT]; a < |blocks| <= WORD_LIMIT
    ensures var a := inodes[i].addrs[NDIRECT];
            var blocks', owner' := blocks[a := SetWord(blocks[a], j, free)], owner[free := (i, NDIRECT + 1 + j)];
            && Space(blocks', inodes, owner', meta, free + 1) && Kept(inodes, blocks, owner, inodes, blocks', owner', i)
            && OneMoreRef(inodes, blocks, inodes, blocks', i, NDIRECT + 1 + j, free)
            && Ref(inodes[i], blocks', NDIRECT + 1 + j) == free
  {
    hide GetWord, SetWord, Ref;
    var a := inodes[i].addrs[NDIRECT];
    AddrsRef(inodes, blocks, owner, meta, i);
    assert a == Ref(inodes[i], blocks, INDIRECT_SLOT) && owner[a] == (i, INDIRECT_SLOT);
    OwnedEntry(inodes, blocks, owner, meta, i, j, free);
  }

  lemma SpaceFacts(blocks: Image, inodes: seq<Dinode>, owner: Owner, meta: nat, free: nat, i: nat)
    requires Space(blocks, inodes, owner, meta, free) && i < |inodes|
    ensures |inodes[i].addrs| == NDIRECT + 1 && 0 < free <= |blocks| <= WORD_LIMIT
    ensures Kept(inodes, blocks, owner, inodes, blocks, owner, i)
    ensures forall k: nat :: k <= NDIRECT ==> Ref(inodes[i], blocks, k) == inodes[i].addrs[k]
    ensures forall k: nat :: k < NSLOTS ==> Ref(inodes[i], blocks, k) < |blocks|
    ensures forall j: nat :: j < NINDIRECT && 0 < inodes[i].addrs[NDIRECT] < |blocks| ==>
              Ref(inodes[i], blocks, NDIRECT + 1 + j) == GetWord(blocks[inodes[i].addrs[NDIRECT]], j)
  {
    hide GetWord;
  }

  /** Every slot that names a data block is as it was, except perhaps slot k of file i. */
  ghost predicate OnlySlot(inodes: seq<Dinode>, blocks: Image, inodes': seq<Dinode>, blocks': Image, i: nat, k: nat) {
    && |inodes| == |inodes'| && |blocks| == |blocks'|
    && (forall x :: 0 <= x < |inodes| ==>
          |inodes[x].addrs| == |inodes'[x].addrs| == NDIRECT + 1 && inodes'[x].size == inodes[x].size)
    && (forall x: nat, y: nat :: x < |inodes| && y < NSLOTS && (x, y) != (i, k) && y != INDIRECT_SLOT ==>
          Ref(inodes'[x], blocks', y) == Ref(inodes[x], blocks, y))
  }

  lemma OnlySlotAt(inodes: seq<Dinode>, blocks: Image, inodes': seq<Dinode>, blocks': Image, i: nat, k: nat, y: nat)
    requires OnlySlot(inodes, blocks, inodes', blocks', i, k) && i < |inodes| && y < NSLOTS
    requires y != k && y != INDIRECT_SLOT
    ensures |inodes[i].addrs| == |inodes'[i].addrs| == NDIRECT + 1
    ensures Ref(inodes'[i], blocks', y) == Ref(inodes[i], blocks, y)
  {
    hide Ref;
  }

  lemma OnlySlotTrans(inodes: seq<Dinode>, blocks: Image, inodes1: seq<Dinode>, blocks1: Image, inodes2: seq<Dinode>,
                      blocks2: Image, i: nat, k: nat)
    requires OnlySlot(inodes, blocks, inodes1, blocks1, i, k) && OnlySlot(inodes1, blocks1, inodes2, blocks2, i, k)
    ensures OnlySlot(inodes, blocks, inodes2, blocks2, i, k)
  {
    hide Ref;
  }

  lemma OneMoreOnly(inodes: seq<Dinode>, blocks: Image, inodes': seq<Dinode>, blocks': Image, owner: Owner,
                    owner': Owner, i: nat, k: nat, b: nat)
    requires OneMoreRef(inodes, blocks, inodes', blocks', i, k, b)
    requires Kept(inodes, blocks, owner, inodes', blocks', owner', i)
    ensures OnlySlot(inodes, blocks, inodes', blocks', i, k)
    ensures k == INDIRECT_SLOT ==> forall y: nat :: OnlySlot(inodes, blocks, inodes', blocks', i, y)
  {
    hide Ref;
  }

  lemma SameOnly(inodes: seq<Dinode>, blocks: Image, blocks': Image, i: nat, k: nat)
    requires SameRefs(inodes, blocks, inodes, blocks')
    ensures OnlySlot(inodes, blocks, inodes, blocks', i, k)
  {
    hide Ref;
  }

  lemma TightOnly(inodes: seq<Dinode>, blocks: Image, inodes': seq<Dinode>, blocks': Image, i: nat, bn: nat, x: nat,
                  n: nat, n': nat)
    requires OnlySlot(inodes, blocks, inodes', blocks', i, SlotOf(bn)) && x < |inodes| && Tight(inodes[x], blocks, n)
    requires n <= n' && (x == i ==> bn * BSIZE < n')
    ensures Tight(inodes'[x], blocks', n')
  {
    hide Ref;
    forall cn: nat | cn < MAXFILE && n' <= cn * BSIZE ensures !Mapped(inodes'[x], blocks', cn) {
      assert !Mapped(inodes[x], blocks, cn) && (x, SlotOf(cn)) != (i, SlotOf(bn));
    }
  }

  lemma AllTightOnly(inodes: seq<Dinode>, blocks: Image, inodes': seq<Dinode>, blocks': Image, i: nat, bn: nat, n: nat,
                     n': nat)
    requires OnlySlot(inodes, blocks, inodes', blocks', i, SlotOf(bn)) && i < |inodes|
    requires OthersTight(inodes, blocks, i) && Tight(inodes[i], blocks, n) && n <= n' && bn * BSIZE < n'
    ensures OthersTight(inodes', blocks', i) && Tight(inodes'[i], blocks', n')
  {
    hide Ref, Tight;
    TightOnly(inodes, blocks, inodes', blocks', i, bn, i, n, n');
    forall x | 0 <= x < |inodes| && x != i ensures Tight(inodes'[x], blocks', inodes'[x].size) {
      TightOnly(inodes, blocks, inodes', blocks', i, bn, x, inodes[x].size, inodes[x].size);
    }
  }

  ghost predicate OthersTight(inodes: seq<Dinode>, blocks: Image, i: nat) {
    forall x :: 0 <= x < |inodes| && x != i ==> Tight(inodes[x], blocks, inodes[x].size)
  }

  lemma NoChange(blocks: Image, inodes: seq<Dinode>, owner: Owner, meta: nat, free: nat, i: nat)
    requires Space(blocks, inodes, owner, meta, free)
    ensures forall k: nat :: OnlySlot(inodes, blocks, inodes, blocks, i, k)
  {
  }

  /** Writing into an owned block that is not an indirect block. */
  lemma SpaceData(blocks: Image, inodes: seq<Dinode>, owner: Owner, meta: nat, free: nat, i: nat, bn: nat, data: Block)
    requires Space(blocks, inodes, owner, meta, free) && i < |inodes| && Mapped(inodes[i], blocks, bn)
    ensures var blocks' := blocks[Ref(inodes[i], blocks, SlotOf(bn)) := data];
            Space(blocks', inodes, owner, meta, free)
  {
    hide GetWord;
    DataRefs(inodes, blocks, owner, meta, i, bn, data);
  }

  /** Recording a new size for file i. */
  lemma SpaceSize(blocks: Image, inodes: seq<Dinode>, owner: Owner, meta: nat, free: nat, i: nat, size: nat)
    requires Space(blocks, inodes, owner, meta, free) && i < |inodes| && OthersTight(inodes, blocks, i)
    requires Tight(inodes[i], blocks, size)
    ensures var inodes' := inodes[i := inodes[i].(size := size)];
            Space(blocks, inodes', owner, meta, free) && AllTight(inodes', blocks)
  {
    hide GetWord, Tight, Ref;
    var inodes' := inodes[i := inodes[i].(size := size)];
    SizeRefs(inodes[i], blocks, size);
    OwnedSame(inodes, blocks, inodes', blocks, owner, meta);
    TightSize(inodes[i], blocks, size);
  }

  lemma SizeRefs(ip: Dinode, blocks: Image, size: nat)
    requires |ip.addrs| == NDIRECT + 1
    ensures forall k: nat :: k < NSLOTS ==> Ref(ip.(size := size), blocks, k) == Ref(ip, blocks, k)
  {
  }

  lemma TightSize(ip: Dinode, blocks: Image, size: nat)
    requires Tight(ip, blocks, size)
    ensures Tight(ip.(size := size), blocks, size)
  {
    hide Ref;
    SizeRefs(ip, blocks, size);
    forall bn: nat | bn < MAXFILE && size <= bn * BSIZE ensures !Mapped(ip.(size := size), blocks, bn) {
      assert !Mapped(ip, blocks, bn);
    }
  }

  // ---- Bytes past the end of a file are zero ----

  /** Nothing but zeros from byte n on. */
  ghost predicate ZeroTail(ip: Dinode, blocks: Image, n: nat) {
    forall p: nat :: n <= p ==> ByteAt(ip, blocks, p) == 0
  }

  ghost predicate OthersZero(inodes: seq<Dinode>, blocks: Image, i: nat) {
    forall x :: 0 <= x < |inodes| && x != i ==> ZeroTail(inodes[x], blocks, inodes[x].size)
  }

  ghost predicate AllZero(inodes: seq<Dinode>, blocks: Image) {
    forall x :: 0 <= x < |inodes| ==> ZeroTail(inodes[x], blocks, inodes[x].size)
  }

  /** Every file reads as before, at every offset. */
  ghost predicate SameBytes(inodes: seq<Dinode>, blocks: Image, inodes': seq<Dinode>, blocks': Image) {
    && |inodes'| == |inodes|
    && (forall x: nat, p: nat :: x < |inodes| ==> ByteAt(inodes'[x], blocks', p) == ByteAt(inodes[x], blocks, p))
  }

  /** Handing out a zeroed block changes no byte: what was not there read as zero. */
  lemma FreshBytes(inodes: seq<Dinode>, blocks: Image, owner: Owner, inodes': seq<Dinode>, blocks': Image,
                   owner': Owner,
                   meta: nat, i: nat, k: nat, b: nat)
    requires Owned(inodes, blocks, owner, meta) && Owned(inodes', blocks', owner', meta)
    requires Kept(inodes, blocks, owner, inodes', blocks', owner', i)
    requires OnlySlot(inodes, blocks, inodes', blocks', i, k)
    requires k < NSLOTS && i < |inodes| && b < |blocks'| && IsZero(blocks'[b])
    requires Ref(inodes[i], blocks, k) == 0 && Ref(inodes'[i], blocks', k) == b
    ensures SameBytes(inodes, blocks, inodes', blocks')
  {
    hide GetWord, Kept, Owned;
    forall x: nat, p: nat | x < |inodes| ensures ByteAt(inodes'[x], blocks', p) == ByteAt(inodes[x], blocks, p) {
      if Mapped(inodes[x], blocks, p / BSIZE) {
        KeptByte(inodes, blocks, owner, inodes', blocks', owner', meta, i, x, p);
      }
    }
  }

  lemma FreshAddr(blocks: Image, inodes: seq<Dinode>, owner: Owner, meta: nat, free: nat, i: nat, k: nat)
    requires Space(blocks, inodes, owner, meta, free) && free < |blocks| && i < |inodes| && k <= NDIRECT
    requires |inodes[i].addrs| == NDIRECT + 1 && inodes[i].addrs[k] == 0
    ensures SameBytes(inodes, blocks, inodes[i := WithAddr(inodes[i], k, free)], blocks)
  {
    hide GetWord, SameBytes, OnlySlot, Kept, OneMoreRef;
    var inodes', owner' := inodes[i := WithAddr(inodes[i], k, free)], owner[free := (i, k)];
    TakeAddr(blocks, inodes, owner, meta, free, i, k);
    OneMoreOnly(inodes, blocks, inodes', blocks, owner, owner', i, k, free);
    FreshBytes(inodes, blocks, owner, inodes', blocks, owner', meta, i, k, free);
  }

  lemma FreshEntry(blocks: Image, inodes: seq<Dinode>, owner: Owner, meta: nat, free: nat, i: nat, j: nat)
    requires Space(blocks, inodes, owner, meta, free) && free < |blocks| <= WORD_LIMIT && i < |inodes| && j < NINDIRECT
    requires |inodes[i].addrs| == NDIRECT + 1 && 0 != inodes[i].addrs[NDIRECT] < |blocks|
    requires Ref(inodes[i], blocks, NDIRECT + 1 + j) == 0
    ensures var a := inodes[i].addrs[NDIRECT];
              SameBytes(inodes, blocks, inodes, blocks[a := SetWord(blocks[a], j, free)])
  {
    hide GetWord, SetWord, SameBytes, OnlySlot, Kept, OneMoreRef;
    var a, k := inodes[i].addrs[NDIRECT], NDIRECT + 1 + j;
    var blocks', owner' := blocks[a := SetWord(blocks[a], j, free)], owner[free := (i, k)];
    TakeEntry(blocks, inodes, owner, meta, free, i, j);
    OneMoreOnly(inodes, blocks, inodes, blocks', owner, owner', i, k, free);
    assert a == Ref(inodes[i], blocks, INDIRECT_SLOT) && a in owner;
    FreshBytes(inodes, blocks, owner, inodes, blocks', owner', meta, i, k, free);
  }

  lemma SameBytesTrans(inodes: seq<Dinode>, blocks: Image, inodes1: seq<Dinode>, blocks1: Image,
                       inodes2: seq<Dinode>, blocks2: Image)
    requires SameBytes(inodes, blocks, inodes1, blocks1) && SameBytes(inodes1, blocks1, inodes2, blocks2)
    ensures SameBytes(inodes, blocks, inodes2, blocks2)
  {
    hide ByteAt;
  }

  lemma ZeroKept(inodes: seq<Dinode>, blocks: Image, inodes': seq<Dinode>, blocks': Image, x: nat, n: nat)
    requires SameBytes(inodes, blocks, inodes', blocks') && x < |inodes| && ZeroTail(inodes[x], blocks, n)
    ensures ZeroTail(inodes'[x], blocks', n)
  {
    hide ByteAt;
  }

  /** Writing at the end of file i, inside one block, leaves zeros behind what was written. */
  lemma ZeroData(inodes: seq<Dinode>, blocks: Image, owner: Owner, meta: nat, i: nat, off: nat, data: seq<Byte>, x: nat,
                 n: nat)
    requires Owned(inodes, blocks, owner, meta) && i < |inodes| && Mapped(inodes[i], blocks, off / BSIZE)
    requires off % BSIZE + |data| <= BSIZE && x < |inodes| && ZeroTail(inodes[x], blocks, n) && (x == i ==> n == off)
    ensures var b := Ref(inodes[i], blocks, SlotOf(off / BSIZE));
            var blocks' := blocks[b := Overlaid(blocks[b], off % BSIZE, data)];
            ZeroTail(inodes[x], blocks', if x == i then off + |data| else n)
  {
    hide GetWord, Owned, Overlaid, ByteAt, Ref;
    var b := Ref(inodes[i], blocks, SlotOf(off / BSIZE));
    var blocks' := blocks[b := Overlaid(blocks[b], off % BSIZE, data)];
    DataRefs(inodes, blocks, owner, meta, i, off / BSIZE, Overlaid(blocks[b], off % BSIZE, data));
    forall p: nat | (if x == i then off + |data| else n) <= p ensures ByteAt(inodes[x], blocks', p) == 0 {
      assert ByteAt(inodes[x], blocks, p) == 0;
      SameBlock(off, |data|, p);
      if Mapped(inodes[x], blocks, p / BSIZE) {
        DataByte(inodes, blocks, owner, meta, i, off / BSIZE, off % BSIZE, data, x, p);
      } else {
        Unmapped(inodes, blocks, blocks', x, p);
      }
    }
  }

  lemma ZeroChunk(inodes0: seq<Dinode>, blocks0: Image, inodes: seq<Dinode>, blocks: Image, owner: Owner, meta: nat,
                  i: nat, off: nat, data: seq<Byte>)
    requires SameBytes(inodes0, blocks0, inodes, blocks) && i < |inodes|
    requires forall x :: 0 <= x < |inodes| ==> inodes[x].size == inodes0[x].size
    requires OthersZero(inodes0, blocks0, i) && ZeroTail(inodes0[i], blocks0, off)
    requires Owned(inodes, blocks, owner, meta) && Mapped(inodes[i], blocks, off / BSIZE)
    requires off % BSIZE + |data| <= BSIZE
    ensures var b := Ref(inodes[i], blocks, SlotOf(off / BSIZE));
            var blocks' := blocks[b := Overlaid(blocks[b], off % BSIZE, data)];
            OthersZero(inodes, blocks', i) && ZeroTail(inodes[i], blocks', off + |data|)
  {
    hide ByteAt, ZeroTail, Owned, Ref, Overlaid;
    ZeroKept(inodes0, blocks0, inodes, blocks, i, off);
    ZeroData(inodes, blocks, owner, meta, i, off, data, i, off);
    var b := Ref(inodes[i], blocks, SlotOf(off / BSIZE));
    var blocks' := blocks[b := Overlaid(blocks[b], off % BSIZE, data)];
    forall x | 0 <= x < |inodes| && x != i ensures ZeroTail(inodes[x], blocks', inodes[x].size) {
      ZeroKept(inodes0, blocks0, inodes, blocks, x, inodes[x].size);
      ZeroData(inodes, blocks, owner, meta, i, off, data, x, inodes[x].size);
    }
  }

  lemma KeptSizes(inodes: seq<Dinode>, blocks: Image, owner: Owner, inodes': seq<Dinode>, blocks': Image, owner': Owner,
                  i: nat)
    requires Kept(inodes, blocks, owner, inodes', blocks', owner', i)
    ensures |inodes'| == |inodes| && forall x :: 0 <= x < |inodes| ==> inodes'[x].size == inodes[x].size
  {
  }

  lemma Unmapped(inodes: seq<Dinode>, blocks: Image, blocks': Image, x: nat, p: nat)
    requires SameRefs(inodes, blocks, inodes, blocks') && |blocks'| == |blocks| && x < |inodes|
    requires !Mapped(inodes[x], blocks, p / BSIZE)
    ensures ByteAt(inodes[x], blocks', p) == 0
  {
    hide GetWord, Ref;
  }

  lemma AllZeroSplit(inodes: seq<Dinode>, blocks: Image, i: nat)
    requires AllZero(inodes, blocks) && i < |inodes|
    ensures OthersZero(inodes, blocks, i) && ZeroTail(inodes[i], blocks, inodes[i].size)
  {
    hide ZeroTail;
  }

  lemma ZeroSize(inodes: seq<Dinode>, blocks: Image, i: nat, size: nat)
    requires i < |inodes| && OthersZero(inodes, blocks, i) && ZeroTail(inodes[i], blocks, size)
    ensures AllZero(inodes[i := inodes[i].(size := size)], blocks)
  {
    hide Ref;
    SizeIgnoredAt(inodes[i], blocks, size);
  }

  lemma SizeIgnoredAt(ip: Dinode, blocks: Image, size: nat)
    ensures forall p: nat :: ByteAt(ip.(size := size), blocks, p) == ByteAt(ip, blocks, p)
  {
    hide GetWord;
  }

  /** An inode without blocks. */
  function BlankInode(typ: int, nlink: int): Dinode {
    Dinode(typ, 0, 0, nlink, 0, seq(NDIRECT + 1, _ => 0))
  }

  /** An inode that owns nothing can be replaced by another one that owns nothing. */
  lemma FreshKeeps(blocks: Image, inodes: seq<Dinode>, owner: Owner, meta: nat, free: nat, i: nat, ip: Dinode)
    requires Space(blocks, inodes, owner, meta, free) && i < |inodes|
    requires ip.addrs == inodes[i].addrs && ip.size == inodes[i].size
    requires NoHoles(inodes, blocks) && AllTight(inodes, blocks) && AllZero(inodes, blocks)
    ensures Space(blocks, inodes[i := ip], owner, meta, free) && NoHoles(inodes[i := ip], blocks)
    ensures AllTight(inodes[i := ip], blocks) && AllZero(inodes[i := ip], blocks)
    ensures forall x :: 0 <= x < |inodes| ==> MappedTo(inodes[x], blocks, inodes[x].size)
  {
    hide GetWord, Owned;
    SameBlocks(inodes[i], ip, blocks);
    OwnedSame(inodes, blocks, inodes[i := ip], blocks, owner, meta);
  }

  lemma SameBlocks(ip: Dinode, ip': Dinode, blocks: Image)
    requires ip'.addrs == ip.addrs && ip'.size == ip.size && |ip.addrs| == NDIRECT + 1
    ensures forall k: nat :: k < NSLOTS ==> Ref(ip', blocks, k) == Ref(ip, blocks, k)
    ensures forall bn: nat :: Mapped(ip', blocks, bn) == Mapped(ip, blocks, bn)
    ensures forall p: nat :: ByteAt(ip', blocks, p) == ByteAt(ip, blocks, p)
    ensures forall n: nat :: MappedTo(ip', blocks, n) == MappedTo(ip, blocks, n)
  {
    hide GetWord;
  }

  // ---- How many blocks files take ----

  /** The blocks of a file of n bytes, its indirect block included. */
  function BlocksFor(n: nat): nat {
    var d := (n + BSIZE - 1) / BSIZE;
    if d <= NDIRECT then d else d + 1
  }

  /** A file of n bytes has no indirect block before it needs one. */
  predicate Direct(ip: Dinode, n: nat) {
    |ip.addrs| == NDIRECT + 1 && (n <= NDIRECT * BSIZE ==> ip.addrs[NDIRECT] == 0)
  }

  ghost predicate OthersDirect(inodes: seq<Dinode>, i: nat) {
    forall x :: 0 <= x < |inodes| && x != i ==> Direct(inodes[x], inodes[x].size)
  }

  ghost predicate AllDirect(inodes: seq<Dinode>) {
    forall x :: 0 <= x < |inodes| ==> Direct(inodes[x], inodes[x].size)
  }

  /** The blocks that are handed out for block bn of a file. */
  function NewBlocks(ip: Dinode, blocks: Image, bn: nat): nat {
    (if Mapped(ip, blocks, bn) then 0 else 1) +
    if NDIRECT <= bn && |ip.addrs| == NDIRECT + 1 && ip.addrs[NDIRECT] == 0 then 1 else 0
  }

  /** Appending inside one block takes a block exactly at its start, and the indirect block with the first block after
      the direct ones. */
  lemma BlocksCounted(ip: Dinode, blocks: Image, off: nat, n: nat)
    requires MappedTo(ip, blocks, off) && Tight(ip, blocks, off) && Direct(ip, off)
    requires 0 < n && off % BSIZE + n <= BSIZE && off + n <= MAXFILE * BSIZE
    ensures BlocksFor(off) + NewBlocks(ip, blocks, off / BSIZE) == BlocksFor(off + n)
  {
    hide GetWord;
    var bn := off / BSIZE;
    assert off % BSIZE == 0 ==> off == bn * BSIZE;
    assert off % BSIZE != 0 ==> Mapped(ip, blocks, (off - 1) / BSIZE) && (off - 1) / BSIZE == bn;
    assert (off + n + BSIZE - 1) / BSIZE == bn + 1;
    assert (off + BSIZE - 1) / BSIZE == if off % BSIZE == 0 then bn else bn + 1;
    if NDIRECT * BSIZE < off { assert Mapped(ip, blocks, NDIRECT * BSIZE / BSIZE); }
  }

  lemma DirectKept(inodes: seq<Dinode>, blocks: Image, owner: Owner, inodes': seq<Dinode>, blocks': Image,
                   owner': Owner, i: nat)
    requires Kept(inodes, blocks, owner, inodes', blocks', owner', i) && OthersDirect(inodes, i)
    ensures OthersDirect(inodes', i)
  {
  }

  lemma DirectSplit(inodes: seq<Dinode>, i: nat)
    requires AllDirect(inodes) && i < |inodes|
    ensures OthersDirect(inodes, i) && Direct(inodes[i], inodes[i].size)
  {
  }

  lemma DirectSize(inodes: seq<Dinode>, i: nat, size: nat)
    requires i < |inodes| && OthersDirect(inodes, i) && Direct(inodes[i], size)
    ensures AllDirect(inodes[i := inodes[i].(size := size)])
  {
  }

  lemma BlocksForMonotone(m: nat, n: nat)
    requires m <= n
    ensures BlocksFor(m) <= BlocksFor(n)
  {
    assert (m + BSIZE - 1) / BSIZE <= (n + BSIZE - 1) / BSIZE;
  }

  class Builder {
    const meta: nat
    var freeblock: nat
    var usedblocks: nat
    var freeinode: nat
    var blocks: Image
    var dinodes: seq<Dinode>
    ghost var owner: Owner

    ghost predicate Spaced()
      reads this
    {
      Space(blocks, dinodes, owner, meta, freeblock) && usedblocks == freeblock
    }

    /** A disk of `size` zeroed blocks and n empty inodes. */
    constructor (size: nat, n: nat)
      requires n / IPB + 3 + size / BPB + 1 <= size <= WORD_LIMIT
      ensures Built() && |blocks| == size && |dinodes| == n && meta == n / IPB + 3 + size / BPB + 1
      ensures freeblock == meta && freeinode == 1 && forall i :: 0 <= i < n ==> dinodes[i] == BlankInode(0, 0)
    {
      meta := n / IPB + 3 + size / BPB + 1;
      freeblock := n / IPB + 3 + size / BPB + 1;
      usedblocks := n / IPB + 3 + size / BPB + 1;
      blocks := seq(size, _ => ZeroBlock);
      dinodes := seq(n, _ => BlankInode(0, 0));
      freeinode := 1;
      owner := map[];
    }

    /** Take the next inode for a file of the given type. */
    method Ialloc(typ: int) returns (inum: nat)
      requires Built() && freeinode < |dinodes| && dinodes[freeinode] == BlankInode(0, 0)
      modifies this`dinodes, this`freeinode
      ensures Built() && inum == old(freeinode) && freeinode == inum + 1
      ensures dinodes == old(dinodes)[inum := BlankInode(typ, 1)]
      ensures forall x :: 0 <= x < |dinodes| && x != inum ==> MappedTo(dinodes[x], blocks, dinodes[x].size)
    {
      hide Space, NoHoles, AllTight, AllZero;
      inum := freeinode;
      FreshKeeps(blocks, dinodes, owner, meta, freeblock, inum, BlankInode(typ, 1));
      dinodes := dinodes[inum := BlankInode(typ, 1)];
      freeinode := freeinode + 1;
    }

    /** Hand out the next block for an address of file i that is empty.
        None stands for an image that is full: the original stops when it reads the block past its end. */
    method MapAddr(i: nat, k: nat) returns (r: Option<nat>)
      requires Spaced() && i < |dinodes| && k <= NDIRECT
      modifies this`freeblock, this`usedblocks, this`dinodes, this`owner
      ensures Spaced() && |dinodes| == |old(dinodes)|
      ensures Kept(old(dinodes), blocks, old(owner), dinodes, blocks, owner, i)
      ensures r.Some? ==> |dinodes[i].addrs| == NDIRECT + 1 && r.value == dinodes[i].addrs[k] && 0 < r.value < |blocks|
      ensures r.None? ==> freeblock == |blocks|
      ensures SameBytes(old(dinodes), blocks, dinodes, blocks)
      ensures OnlySlot(old(dinodes), blocks, dinodes, blocks, i, k)
      ensures k == INDIRECT_SLOT ==> forall y: nat :: OnlySlot(old(dinodes), blocks, dinodes, blocks, i, y)
      ensures |old(dinodes)[i].addrs| == NDIRECT + 1
      ensures freeblock == old(freeblock) + if old(dinodes)[i].addrs[k] == 0 && r.Some? then 1 else 0
      ensures r.None? ==> old(dinodes)[i].addrs[k] == 0
      ensures k != NDIRECT ==> dinodes[i].addrs[NDIRECT] == old(dinodes)[i].addrs[NDIRECT]
    {
      hide Space, Kept, Ref, GetWord, OnlySlot, OneMoreRef, SameRefs, ByteAt;
      SpaceFacts(blocks, dinodes, owner, meta, freeblock, i);
      NoChange(blocks, dinodes, owner, meta, freeblock, i);
      if dinodes[i].addrs[k] == 0 {
        if freeblock == |blocks| {
          return None;
        }
        TakeAddr(blocks, dinodes, owner, meta, freeblock, i, k);
        FreshAddr(blocks, dinodes, owner, meta, freeblock, i, k);
        ghost var dinodes' := dinodes[i := WithAddr(dinodes[i], k, freeblock)];
        OneMoreOnly(dinodes, blocks, dinodes', blocks, owner, owner[freeblock := (i, k)], i, k, freeblock);
        owner := owner[freeblock := (i, k)];
        dinodes := dinodes[i := WithAddr(dinodes[i], k, freeblock)];
        freeblock := freeblock + 1;
        usedblocks := usedblocks + 1;
        SpaceFacts(blocks, dinodes, owner, meta, freeblock, i);
      }
      assert dinodes[i].addrs[k] == Ref(dinodes[i], blocks, k);
      return Some(dinodes[i].addrs[k]);
    }

    /** Hand out the next block for an empty entry of the indirect block of file i. */
    method MapEntry(i: nat, j: nat) returns (r: Option<nat>)
      requires Spaced() && i < |dinodes| && j < NINDIRECT && |dinodes[i].addrs| == NDIRECT + 1
      requires dinodes[i].addrs[NDIRECT] != 0
      modifies this`freeblock, this`usedblocks, this`blocks, this`owner
      ensures Spaced() && |blocks| == |old(blocks)| && Kept(dinodes, old(blocks), old(owner), dinodes, blocks, owner, i)
      ensures r.Some? ==> r.value == Ref(dinodes[i], blocks, NDIRECT + 1 + j) && 0 < r.value < |blocks|
      ensures r.None? ==> freeblock == |blocks|
      ensures SameBytes(dinodes, old(blocks), dinodes, blocks)
      ensures OnlySlot(dinodes, old(blocks), dinodes, blocks, i, NDIRECT + 1 + j)
      ensures r.None? ==> Ref(dinodes[i], old(blocks), NDIRECT + 1 + j) == 0
      ensures freeblock == old(freeblock) +
                           if Ref(dinodes[i], old(blocks), NDIRECT + 1 + j) == 0 && r.Some? then 1 else 0
    {
      hide Space, Kept, Ref, GetWord, SetWord, OnlySlot, OneMoreRef, SameRefs, ByteAt;
      SpaceFacts(blocks, dinodes, owner, meta, freeblock, i);
      NoChange(blocks, dinodes, owner, meta, freeblock, i);
      var ind := dinodes[i].addrs[NDIRECT];
      assert ind == Ref(dinodes[i], blocks, NDIRECT);
      if GetWord(blocks[ind], j) == 0 {
        if freeblock == |blocks| {
          return None;
        }
        TakeEntry(blocks, dinodes, owner, meta, freeblock, i, j);
        FreshEntry(blocks, dinodes, owner, meta, freeblock, i, j);
        ghost var k := NDIRECT + 1 + j;
        ghost var blocks' := blocks[ind := SetWord(blocks[ind], j, freeblock)];
        OneMoreOnly(dinodes, blocks, dinodes, blocks', owner, owner[freeblock := (i, k)], i, k, freeblock);
        owner := owner[freeblock := (i, k)];
        blocks := blocks[ind := SetWord(blocks[ind], j, freeblock)];
        freeblock := freeblock + 1;
        usedblocks := usedblocks + 1;
        SpaceFacts(blocks, dinodes, owner, meta, freeblock, i);
      }
      return Some(GetWord(blocks[ind], j));
    }

    /** The block number of block bn of file i, handing out blocks as needed. */
    method MapBlock(i: nat, bn: nat) returns (r: Option<nat>)
      requires Spaced() && i < |dinodes| && bn < MAXFILE
      modifies this`freeblock, this`usedblocks, this`blocks, this`dinodes, this`owner
      ensures Spaced() && |dinodes| == |old(dinodes)| && |blocks| == |old(blocks)|
      ensures Kept(old(dinodes), old(blocks), old(owner), dinodes, blocks, owner, i)
      ensures r.Some? ==> Mapped(dinodes[i], blocks, bn) && r.value == Ref(dinodes[i], blocks, SlotOf(bn))
      ensures r.None? ==> freeblock == |blocks|
      ensures SameBytes(old(dinodes), old(blocks), dinodes, blocks)
      ensures OnlySlot(old(dinodes), old(blocks), dinodes, blocks, i, SlotOf(bn))
      ensures r.Some? ==> freeblock == old(freeblock) + NewBlocks(old(dinodes)[i], old(blocks), bn)
      ensures r.None? ==> |blocks| < old(freeblock) + NewBlocks(old(dinodes)[i], old(blocks), bn)
      ensures |dinodes[i].addrs| == |old(dinodes)[i].addrs| == NDIRECT + 1
      ensures bn < NDIRECT ==> dinodes[i].addrs[NDIRECT] == old(dinodes)[i].addrs[NDIRECT]
    {
      hide Space, Kept, Ref, GetWord, OnlySlot, SameBytes;
      SpaceFacts(blocks, dinodes, owner, meta, freeblock, i);
      if bn < NDIRECT {
        r := MapAddr(i, bn);
        SpaceFacts(blocks, dinodes, owner, meta, freeblock, i);
        assert bn <= NDIRECT && dinodes[i].addrs[bn] == Ref(dinodes[i], blocks, bn);
        return;
      }
      r := MapAddr(i, NDIRECT);
      SpaceFacts(blocks, dinodes, owner, meta, freeblock, i);
      if r.None? {
        return;
      }
      ghost var inodes1, owner1 := dinodes, owner;
      OnlySlotAt(old(dinodes), blocks, dinodes, blocks, i, INDIRECT_SLOT, SlotOf(bn));
      r := MapEntry(i, bn - NDIRECT);
      KeptTrans(old(dinodes), old(blocks), old(owner), inodes1, old(blocks), owner1, dinodes, blocks, owner, i);
      OnlySlotTrans(old(dinodes), old(blocks), inodes1, old(blocks), dinodes, blocks, i, SlotOf(bn));
      SameBytesTrans(old(dinodes), old(blocks), inodes1, old(blocks), dinodes, blocks);
      SpaceFacts(blocks, dinodes, owner, meta, freeblock, i);
    }

    ghost predicate Built()
      reads this
    {
      && Spaced() && NoHoles(dinodes, blocks) && AllTight(dinodes, blocks) && AllZero(dinodes, blocks)
      && AllDirect(dinodes)
    }

    /** One turn of the append loop: put data, which lies inside one block, at the end of what file i holds so far. */
    method AppendInBlock(i: nat, off: nat, data: seq<Byte>) returns (ok: bool)
      requires Spaced() && NoHoles(dinodes, blocks) && i < |dinodes| && MappedTo(dinodes[i], blocks, off)
      requires OthersTight(dinodes, blocks, i) && Tight(dinodes[i], blocks, off)
      requires OthersZero(dinodes, blocks, i) && ZeroTail(dinodes[i], blocks, off)
      requires OthersDirect(dinodes, i) && Direct(dinodes[i], off)
      requires 0 < |data| && off % BSIZE + |data| <= BSIZE && off + |data| <= MAXFILE * BSIZE
      modifies this`freeblock, this`usedblocks, this`blocks, this`dinodes, this`owner
      ensures |blocks| == |old(blocks)|
      ensures ok ==> Spaced() && Wrote(old(dinodes), old(blocks), dinodes, blocks, i, off, off, data)
      ensures !ok ==> freeblock == |blocks|
      ensures ok ==> OthersTight(dinodes, blocks, i) && Tight(dinodes[i], blocks, off + |data|)
      ensures ok ==> OthersZero(dinodes, blocks, i) && ZeroTail(dinodes[i], blocks, off + |data|)
      ensures ok ==> OthersDirect(dinodes, i) && Direct(dinodes[i], off + |data|)
      ensures ok <==> old(freeblock) + BlocksFor(off + |data|) <= |blocks| + BlocksFor(off)
      ensures ok ==> freeblock == old(freeblock) + BlocksFor(off + |data|) - BlocksFor(off)
    {
      hide Kept, Owned, NoHoles, MappedTo, Wrote, GetWord, Ref, SameRefs, Overlaid, OnlySlot, OthersTight, Tight,
           OthersZero, ZeroTail, SameBytes, BlocksFor, NewBlocks, OthersDirect;
      BlocksCounted(dinodes[i], blocks, off, |data|);
      var r := MapBlock(i, off / BSIZE);
      if r.None? {
        return false;
      }
      ghost var blocks1 := blocks;
      DirectKept(old(dinodes), old(blocks), old(owner), dinodes, blocks, owner, i);
      WroteChunk(old(dinodes), old(blocks), old(owner), dinodes, blocks, owner, meta, i, off, off, data);
      SpaceData(blocks, dinodes, owner, meta, freeblock, i, off / BSIZE, Overlaid(blocks[r.value], off % BSIZE, data));
      blocks := blocks[r.value := Overlaid(blocks[r.value], off % BSIZE, data)];
      SameOnly(dinodes, blocks1, blocks, i, SlotOf(off / BSIZE));
      OnlySlotTrans(old(dinodes), old(blocks), dinodes, blocks1, dinodes, blocks, i, SlotOf(off / BSIZE));
      AllTightOnly(old(dinodes), old(blocks), dinodes, blocks, i, off / BSIZE, off, off + |data|);
      KeptSizes(old(dinodes), old(blocks), old(owner), dinodes, blocks1, owner, i);
      ZeroChunk(old(dinodes), old(blocks), dinodes, blocks1, owner, meta, i, off, data);
      return true;
    }

    /** Append data to file i. */
    method Iappend(i: nat, data: seq<Byte>) returns (ok: bool)
      requires Built() && i < |dinodes| && dinodes[i].size + |data| <= MAXFILE * BSIZE
      modifies this`freeblock, this`usedblocks, this`blocks, this`dinodes, this`owner
      ensures |blocks| == |old(blocks)| && (ok ==> |dinodes| == |old(dinodes)|)
      ensures !ok ==> freeblock == |blocks|
      ensures ok ==> Built() && Replaced(old(dinodes), old(blocks), dinodes, blocks, i, old(dinodes)[i].size, data)
      ensures var size := old(dinodes)[i].size;
              && (ok <==> old(freeblock) + BlocksFor(size + |data|) <= |blocks| + BlocksFor(size))
              && (ok ==> freeblock == old(freeblock) + BlocksFor(size + |data|) - BlocksFor(size))
    {
      hide Space, NoHoles, MappedTo, Wrote, GetWord, Ref, Mapped, View, Spliced, OthersSame, OthersTight, Tight,
           AllTight, OthersZero, ZeroTail, AllZero, Direct, OthersDirect, BlocksFor;
      var off, k := dinodes[i].size, 0;
      WroteNothing(dinodes, blocks, i, off);
      AllTightSplit(dinodes, blocks, i);
      AllZeroSplit(dinodes, blocks, i);
      DirectSplit(dinodes, i);
      SpaceFacts(blocks, dinodes, owner, meta, freeblock, i);
      assert data[..0] == [];
      while k < |data|
        invariant |blocks| == |old(blocks)|
        invariant k <= |data| && Spaced() && NoHoles(dinodes, blocks) && |dinodes| == |old(dinodes)|
        invariant Wrote(old(dinodes), old(blocks), dinodes, blocks, i, off, off, data[..k])
        invariant OthersTight(dinodes, blocks, i) && Tight(dinodes[i], blocks, off + k)
        invariant OthersZero(dinodes, blocks, i) && ZeroTail(dinodes[i], blocks, off + k)
        invariant OthersDirect(dinodes, i) && Direct(dinodes[i], off + k)
        invariant freeblock == old(freeblock) + BlocksFor(off + k) - BlocksFor(off) <= |blocks|
      {
        ghost var inodes1, blocks1 := dinodes, blocks;
        var fbn := (off + k) / BSIZE;
        var n1 := Min(|data| - k, (fbn + 1) * BSIZE - (off + k));
        WroteFacts(old(dinodes), old(blocks), dinodes, blocks, i, off, off, data[..k]);
        var w := AppendInBlock(i, off + k, data[k..k + n1]);
        if !w {
          BlocksForMonotone(off + k + n1, off + |data|);
          return false;
        }
        WroteMore(old(dinodes), old(blocks), inodes1, blocks1, dinodes, blocks, i, off, off, data, k, n1);
        WroteDone(old(dinodes), old(blocks), dinodes, blocks, i, off, data[..k + n1]);
        WroteFacts(old(dinodes), old(blocks), dinodes, blocks, i, off, off, data[..k + n1]);
        k := k + n1;
      }
      assert data[..k] == data;
      WroteFacts(old(dinodes), old(blocks), dinodes, blocks, i, off, off, data);
      WroteDone(old(dinodes), old(blocks), dinodes, blocks, i, off, data);
      SpaceSize(blocks, dinodes, owner, meta, freeblock, i, off + k);
      ZeroSize(dinodes, blocks, i, off + k);
      DirectSize(dinodes, i, off + k);
      dinodes := dinodes[i := dinodes[i].(size := off + k)];
      return true;
    }

    /** Round the size of the root directory up and write the bitmap. The result is a sound file system, with no holes
        exactly when the last block of the root directory was not full; the directory grows by zero bytes. */
    method Finish(root: nat) returns (bits: seq<Bits8>)
      requires Built() && root < |dinodes| && usedblocks < BPB && |blocks| <= BPB
      modifies this`dinodes
      ensures FsOk(bits, blocks, dinodes, owner, meta) && Space(blocks, dinodes, owner, meta, freeblock)
      ensures |bits| == BSIZE && forall b: nat :: b < BPB ==> Used(bits, b) == (b < freeblock)
      ensures Lean(dinodes, blocks, root, old(dinodes)[root].size)
      ensures dinodes == old(dinodes)[root := old(dinodes)[root].(size := (old(dinodes)[root].size / BSIZE +
                1) * BSIZE)]
      ensures NoHoles(dinodes, blocks) <==> old(dinodes)[root].size % BSIZE != 0
      ensures var grown := dinodes[root].size - old(dinodes)[root].size;
              && grown >= 0
              && Content(dinodes[root], blocks) == Content(old(dinodes)[root], blocks) + seq(grown, _ => 0)
    {
      hide Space, NoHoles, AllTight, AllZero, Used, BitsAgree, Owned, Content, AllDirect, Lean;
      GrownContent(dinodes, blocks, root, (dinodes[root].size / BSIZE + 1) * BSIZE);
      LeanRoot(dinodes, blocks, root, (dinodes[root].size / BSIZE + 1) * BSIZE);
      var off := dinodes[root].size;
      off := (off / BSIZE + 1) * BSIZE;
      RootSize(blocks, dinodes, owner, meta, freeblock, root);
      dinodes := dinodes[root := dinodes[root].(size := off)];
      bits := MarkUsed(usedblocks);
      BitsMarked(bits, blocks, dinodes, owner, meta, freeblock);
    }
  }

  /** No file has blocks past its end, and none has an indirect block that it does not need. The root directory had
      rootSize bytes before its size was rounded up. */
  ghost predicate Lean(inodes: seq<Dinode>, blocks: Image, root: nat, rootSize: nat) {
    forall i :: 0 <= i < |inodes| ==>
      var n := if i == root then rootSize else inodes[i].size;
      Tight(inodes[i], blocks, n) && Direct(inodes[i], n)
  }

  lemma LeanRoot(inodes: seq<Dinode>, blocks: Image, root: nat, size: nat)
    requires AllTight(inodes, blocks) && AllDirect(inodes) && root < |inodes|
    ensures Lean(inodes[root := inodes[root].(size := size)], blocks, root, inodes[root].size)
  {
    hide Ref;
    var ip := inodes[root];
    assert Tight(ip, blocks, ip.size);
    SizeRefs(ip, blocks, size);
    assert forall bn: nat :: Mapped(ip.(size := size), blocks, bn) == Mapped(ip, blocks, bn);
    assert Tight(ip.(size := size), blocks, ip.size);
    forall i | 0 <= i < |inodes| && i != root ensures Tight(inodes[i], blocks, inodes[i].size) {}
  }

  /** The bitmap sector whose first `used` bits are set. */
  method MarkUsed(used: nat) returns (bits: seq<Bits8>)
    requires used < BPB
    ensures |bits| == BSIZE && forall b: nat :: b < BPB ==> Used(bits, b) == (b < used)
  {
    hide Used, Marked;
    bits := seq(BSIZE, _ => NO_BITS);
    NoneUsed(bits);
    for i := 0 to used
      invariant |bits| == BSIZE && forall b: nat :: b < BPB ==> Used(bits, b) == (b < i)
    {
      MarkedLength(bits, i);
      OneBit(bits, i);
      bits := Marked(bits, i);
    }
  }

  lemma NoneUsed(bits: seq<Bits8>)
    requires |bits| == BSIZE && forall k :: 0 <= k < BSIZE ==> bits[k] == NO_BITS
    ensures forall b: nat :: b < BPB ==> !Used(bits, b)
  {
  }

  lemma BitsMarked(bits: seq<Bits8>, blocks: Image, inodes: seq<Dinode>, owner: Owner, meta: nat, free: nat)
    requires Space(blocks, inodes, owner, meta, free) && |bits| == BSIZE && |blocks| <= BPB
    requires forall b: nat :: b < BPB ==> Used(bits, b) == (b < free)
    ensures FsOk(bits, blocks, inodes, owner, meta)
  {
    hide Used, Owned;
  }

  /** Rounding the size up makes a hole exactly when the last block was full (or the directory was empty). */
  lemma RootSize(blocks: Image, inodes: seq<Dinode>, owner: Owner, meta: nat, free: nat, root: nat)
    requires Space(blocks, inodes, owner, meta, free) && root < |inodes| && NoHoles(inodes, blocks)
    requires AllTight(inodes, blocks)
    ensures var size := (inodes[root].size / BSIZE + 1) * BSIZE;
            var inodes' := inodes[root := inodes[root].(size := size)];
            Space(blocks, inodes', owner, meta, free) && (NoHoles(inodes', blocks) <==> inodes[root].size % BSIZE != 0)
  {
    hide GetWord, Ref, Owned;
    var ip, size := inodes[root], (inodes[root].size / BSIZE + 1) * BSIZE;
    var inodes' := inodes[root := ip.(size := size)];
    SizeRefs(ip, blocks, size);
    SizeOwned(blocks, inodes, owner, meta, root, size);
    if ip.size % BSIZE != 0 {
      forall p: nat | p < size ensures Mapped(inodes'[root], blocks, p / BSIZE) {
        assert Mapped(ip, blocks, (if p < ip.size then p else ip.size - 1) / BSIZE);
      }
      assert MappedTo(inodes'[root], blocks, size);
    } else {
      assert !Mapped(ip, blocks, ip.size / BSIZE) && !Mapped(inodes'[root], blocks, ip.size / BSIZE);
      assert !MappedTo(inodes'[root], blocks, inodes'[root].size);
    }
  }

  lemma GrownContent(inodes: seq<Dinode>, blocks: Image, i: nat, size: nat)
    requires i < |inodes| && AllZero(inodes, blocks) && inodes[i].size <= size
    ensures Content(inodes[i].(size := size), blocks) == Content(inodes[i], blocks) + seq(size - inodes[i].size, _ => 0)
  {
    hide ByteAt;
    SizeIgnoredAt(inodes[i], blocks, size);
    assert ZeroTail(inodes[i], blocks, inodes[i].size);
  }

  lemma SizeOwned(blocks: Image, inodes: seq<Dinode>, owner: Owner, meta: nat, i: nat, size: nat)
    requires Owned(inodes, blocks, owner, meta) && i < |inodes|
    ensures Owned(inodes[i := inodes[i].(size := size)], blocks, owner, meta)
  {
    hide Ref;
    SizeRefs(inodes[i], blocks, size);
    OwnedSame(inodes, blocks, inodes[i := inodes[i].(size := size)], blocks, owner, meta);
  }

  lemma AllTightSplit(inodes: seq<Dinode>, blocks: Image, i: nat)
    requires AllTight(inodes, blocks) && i < |inodes|
    ensures OthersTight(inodes, blocks, i) && Tight(inodes[i], blocks, inodes[i].size)
  {
    hide Tight;
  }
}
