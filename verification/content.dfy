/** Files as byte sequences over the block map. */
module FileContent {
  import opened Blocks
  import opened BlockMap

  /** What growing file i leaves alone: other inodes, other fields, and every block owned so far
      (only the indirect block of file i may get a new entry). */
  ghost predicate Kept(inodes: seq<Dinode>, blocks: Image, owner: Owner, inodes': seq<Dinode>, blocks': Image,
                       owner': Owner, i: nat) {
    && |inodes'| == |inodes| && |blocks'| == |blocks| && i < |inodes|
    && (forall j :: 0 <= j < |inodes| && j != i ==> inodes'[j] == inodes[j])
    && inodes'[i] == inodes[i].(addrs := inodes'[i].addrs)
    && (forall b :: b in owner ==> b in owner' && owner'[b] == owner[b] && b < |blocks|)
    && (forall b :: b in owner && owner[b] != (i, INDIRECT_SLOT) ==> blocks'[b] == blocks[b])
  }

  lemma KeptTrans(inodes: seq<Dinode>, blocks: Image, owner: Owner, inodes1: seq<Dinode>, blocks1: Image, owner1: Owner,
                  inodes2: seq<Dinode>, blocks2: Image, owner2: Owner, i: nat)
    requires Kept(inodes, blocks, owner, inodes1, blocks1, owner1, i)
    requires Kept(inodes1, blocks1, owner1, inodes2, blocks2, owner2, i)
    ensures Kept(inodes, blocks, owner, inodes2, blocks2, owner2, i)
  {
  }

  /** A slot that names a block goes on naming it. */
  lemma KeptRef(inodes: seq<Dinode>, blocks: Image, owner: Owner, inodes': seq<Dinode>, blocks': Image, owner': Owner,
                meta: nat, i: nat, x: nat, k: nat)
    requires Owned(inodes, blocks, owner, meta) && Owned(inodes', blocks', owner', meta)
    requires Kept(inodes, blocks, owner, inodes', blocks', owner', i)
    requires x < |inodes| && k < NSLOTS && Ref(inodes[x], blocks, k) != 0
    ensures Ref(inodes'[x], blocks', k) == Ref(inodes[x], blocks, k)
  {
    var b := Ref(inodes[x], blocks, k);
    assert owner[b] == (x, k) && owner'[b] == (x, k);
    assert Names(inodes', blocks', x, k, b);
  }

  /** The indirect block of an inode, if it has one. */
  function IndirectBlock(ip: Dinode): set<nat>
    requires |ip.addrs| == NDIRECT + 1
  {
    if ip.addrs[NDIRECT] == 0 then {} else {ip.addrs[NDIRECT]}
  }

  /** Block bn of the file exists. */
  predicate Mapped(ip: Dinode, blocks: Image, bn: nat) {
    |ip.addrs| == NDIRECT + 1 && bn < MAXFILE && 0 < Ref(ip, blocks, SlotOf(bn)) < |blocks|
  }

  /** Every block that holds one of the first n bytes exists. */
  ghost predicate MappedTo(ip: Dinode, blocks: Image, n: nat) {
    && |ip.addrs| == NDIRECT + 1 && n <= MAXFILE * BSIZE
    && (forall p: nat :: p < n ==> Mapped(ip, blocks, p / BSIZE))
  }

  function ByteAt(ip: Dinode, blocks: Image, p: nat): Byte {
    if Mapped(ip, blocks, p / BSIZE) then blocks[Ref(ip, blocks, SlotOf(p / BSIZE))][p % BSIZE] else 0
  }

  /** The first n bytes found through the block map. */
  function View(ip: Dinode, blocks: Image, n: nat): (s: seq<Byte>)
    ensures |s| == n && forall p: nat :: p < n ==> s[p] == ByteAt(ip, blocks, p)
  {
    seq(n, p requires 0 <= p => ByteAt(ip, blocks, p))
  }

  /** The file as a byte sequence. */
  function Content(ip: Dinode, blocks: Image): seq<Byte> {
    View(ip, blocks, ip.size)
  }

  ghost predicate NoHoles(inodes: seq<Dinode>, blocks: Image) {
    forall i :: 0 <= i < |inodes| ==> MappedTo(inodes[i], blocks, inodes[i].size)
  }

  /** A byte sequence with src written at off, growing at the end if need be. */
  function Spliced(s: seq<Byte>, off: nat, src: seq<Byte>): (r: seq<Byte>)
    requires off <= |s|
    ensures |r| == if off + |src| <= |s| then |s| else off + |src|
    ensures forall p: nat :: p < |r| ==> r[p] == if off <= p < off + |src| then src[p - off] else s[p]
  {
    s[..off] + src + if off + |src| <= |s| then s[off + |src|..] else []
  }

  lemma SplicedStep(s: seq<Byte>, off: nat, src: seq<Byte>, k: nat, m: nat)
    requires off <= |s| && k + m <= |src|
    ensures Spliced(Spliced(s, off, src[..k]), off + k, src[k..k + m]) == Spliced(s, off, src[..k + m])
  {
  }

  /** A block with bytes written at an offset inside it. */
  function Overlaid(b: Block, at: nat, src: seq<Byte>): Block
    requires at + |src| <= BSIZE
  {
    b[..at] + src + b[at + |src|..]
  }

  /** Different places of the files are in different blocks. */
  lemma DistinctBlocks(inodes: seq<Dinode>, blocks: Image, owner: Owner, meta: nat, i: nat, bn: nat, j: nat, cn: nat)
    requires Owned(inodes, blocks, owner, meta) && i < |inodes| && j < |inodes|
    requires Mapped(inodes[i], blocks, bn) && Mapped(inodes[j], blocks, cn) && (i, bn) != (j, cn)
    ensures Ref(inodes[i], blocks, SlotOf(bn)) != Ref(inodes[j], blocks, SlotOf(cn))
  {
    var b, c := Ref(inodes[i], blocks, SlotOf(bn)), Ref(inodes[j], blocks, SlotOf(cn));
    assert owner[b] == (i, SlotOf(bn)) && owner[c] == (j, SlotOf(cn));
  }

  /** Growing file i keeps every byte of every file that was there. */
  lemma KeptByte(inodes: seq<Dinode>, blocks: Image, owner: Owner, inodes': seq<Dinode>, blocks': Image, owner': Owner,
                 meta: nat, i: nat, x: nat, p: nat)
    requires Owned(inodes, blocks, owner, meta) && Owned(inodes', blocks', owner', meta)
    requires Kept(inodes, blocks, owner, inodes', blocks', owner', i)
    requires x < |inodes| && Mapped(inodes[x], blocks, p / BSIZE)
    ensures Mapped(inodes'[x], blocks', p / BSIZE) && ByteAt(inodes'[x], blocks', p) == ByteAt(inodes[x], blocks, p)
    ensures Ref(inodes'[x], blocks', SlotOf(p / BSIZE)) == Ref(inodes[x], blocks, SlotOf(p / BSIZE))
  {
    hide GetWord;
    var k := SlotOf(p / BSIZE);
    KeptRef(inodes, blocks, owner, inodes', blocks', owner', meta, i, x, k);
    assert owner[Ref(inodes[x], blocks, k)] == (x, k);
  }

  lemma KeptView(inodes: seq<Dinode>, blocks: Image, owner: Owner, inodes': seq<Dinode>, blocks': Image, owner': Owner,
                 meta: nat, i: nat, x: nat, n: nat)
    requires Owned(inodes, blocks, owner, meta) && Owned(inodes', blocks', owner', meta)
    requires Kept(inodes, blocks, owner, inodes', blocks', owner', i)
    requires x < |inodes| && MappedTo(inodes[x], blocks, n)
    ensures MappedTo(inodes'[x], blocks', n) && View(inodes'[x], blocks', n) == View(inodes[x], blocks, n)
  {
    hide GetWord, Owned, Kept, Mapped, ByteAt, Ref;
    SameLengths(inodes, blocks, owner, inodes', blocks', owner', meta, i, x);
    forall p: nat | p < n
      ensures Mapped(inodes'[x], blocks', p / BSIZE) && ByteAt(inodes'[x], blocks', p) == ByteAt(inodes[x], blocks, p) {
      KeptByte(inodes, blocks, owner, inodes', blocks', owner', meta, i, x, p);
    }
  }

  lemma SameLengths(inodes: seq<Dinode>, blocks: Image, owner: Owner, inodes': seq<Dinode>, blocks': Image,
                    owner': Owner, meta: nat, i: nat, x: nat)
    requires Owned(inodes', blocks', owner', meta) && Kept(inodes, blocks, owner, inodes', blocks', owner', i)
    requires x < |inodes|
    ensures |inodes'| == |inodes| && |blocks'| == |blocks| && |inodes'[x].addrs| == NDIRECT + 1
    ensures inodes'[x].size == inodes[x].size
  {
  }

  /** Overwriting part of block bn of file i keeps the block map. */
  lemma DataRefs(inodes: seq<Dinode>, blocks: Image, owner: Owner, meta: nat, i: nat, bn: nat, data: Block)
    requires Owned(inodes, blocks, owner, meta) && i < |inodes| && Mapped(inodes[i], blocks, bn)
    ensures var blocks' := blocks[Ref(inodes[i], blocks, SlotOf(bn)) := data];
            SameRefs(inodes, blocks, inodes, blocks') && Owned(inodes, blocks', owner, meta)
  {
    hide GetWord, SameRefs;
    var b := Ref(inodes[i], blocks, SlotOf(bn));
    assert owner[b] == (i, SlotOf(bn));
    RefsIgnoreData(inodes, blocks, owner, meta, b, data);
    OwnedSame(inodes, blocks, inodes, blocks[b := data], owner, meta);
  }

  /** Overwriting part of block bn of file i changes just those bytes of that file. */
  lemma DataByte(inodes: seq<Dinode>, blocks: Image, owner: Owner, meta: nat, i: nat, bn: nat, at: nat, data: seq<Byte>,
                 x: nat, p: nat)
    requires Owned(inodes, blocks, owner, meta) && i < |inodes| && Mapped(inodes[i], blocks, bn) && at + |data| <= BSIZE
    requires x < |inodes| && Mapped(inodes[x], blocks, p / BSIZE)
    ensures var b := Ref(inodes[i], blocks, SlotOf(bn));
            var blocks' := blocks[b := Overlaid(blocks[b], at, data)];
            && Mapped(inodes[x], blocks', p / BSIZE)
            && ByteAt(inodes[x], blocks', p) ==
               if x == i && p / BSIZE == bn &&
                   at <= p % BSIZE < at + |data| then data[p % BSIZE - at] else ByteAt(inodes[x], blocks, p)
  {
    hide GetWord, Owned, Ref;
    var b := Ref(inodes[i], blocks, SlotOf(bn));
    DataRefs(inodes, blocks, owner, meta, i, bn, Overlaid(blocks[b], at, data));
    if (x, p / BSIZE) != (i, bn) {
      DistinctBlocks(inodes, blocks, owner, meta, i, bn, x, p / BSIZE);
    }
  }

  /** Writing inside one block, seen through the byte sequence of the file. */
  lemma DataView(inodes: seq<Dinode>, blocks: Image, owner: Owner, meta: nat, i: nat, off: nat, data: seq<Byte>, n: nat)
    requires Owned(inodes, blocks, owner, meta) && i < |inodes| && Mapped(inodes[i], blocks, off / BSIZE)
    requires off % BSIZE + |data| <= BSIZE && off <= n && MappedTo(inodes[i], blocks, n)
    requires off + |data| <= MAXFILE * BSIZE
    ensures var b := Ref(inodes[i], blocks, SlotOf(off / BSIZE));
            var blocks' := blocks[b := Overlaid(blocks[b], off % BSIZE, data)];
            var n' := if off + |data| <= n then n else off + |data|;
            && MappedTo(inodes[i], blocks', n')
            && View(inodes[i], blocks', n') == Spliced(View(inodes[i], blocks, n), off, data)
  {
    hide GetWord, Owned, ByteAt, Ref, Overlaid;
    var b := Ref(inodes[i], blocks, SlotOf(off / BSIZE));
    var blocks' := blocks[b := Overlaid(blocks[b], off % BSIZE, data)];
    var n' := if off + |data| <= n then n else off + |data|;
    forall p: nat | p < n'
      ensures Mapped(inodes[i], blocks', p / BSIZE)
      ensures ByteAt(inodes[i], blocks', p) == Spliced(View(inodes[i], blocks, n), off, data)[p] {
      SameBlock(off, |data|, p);
      DataByte(inodes, blocks, owner, meta, i, off / BSIZE, off % BSIZE, data, i, p);
    }
  }

  /** Which bytes of a file a write inside one block reaches. */
  lemma SameBlock(off: nat, m: nat, p: nat)
    requires off % BSIZE + m <= BSIZE
    ensures off <= p < off + m <==> p / BSIZE == off / BSIZE && off % BSIZE <= p % BSIZE < off % BSIZE + m
    ensures off <= p < off + m ==> p % BSIZE - off % BSIZE == p - off
  {
  }

  lemma DataViewOther(inodes: seq<Dinode>, blocks: Image, owner: Owner, meta: nat, i: nat, bn: nat, at: nat,
                      data: seq<Byte>, x: nat, n: nat)
    requires Owned(inodes, blocks, owner, meta) && i < |inodes| && Mapped(inodes[i], blocks, bn) && at + |data| <= BSIZE
    requires x < |inodes| && x != i && MappedTo(inodes[x], blocks, n)
    ensures var b := Ref(inodes[i], blocks, SlotOf(bn));
            var blocks' := blocks[b := Overlaid(blocks[b], at, data)];
            && MappedTo(inodes[x], blocks', n) && View(inodes[x], blocks', n) == View(inodes[x], blocks, n)
  {
    hide GetWord, Owned, ByteAt, Ref, Overlaid;
    var b := Ref(inodes[i], blocks, SlotOf(bn));
    var blocks' := blocks[b := Overlaid(blocks[b], at, data)];
    forall p: nat | p < n
      ensures Mapped(inodes[x], blocks', p / BSIZE) && ByteAt(inodes[x], blocks', p) == ByteAt(inodes[x], blocks, p) {
      DataByte(inodes, blocks, owner, meta, i, bn, at, data, x, p);
    }
  }

  /** Every other file is as it was: same inode, same bytes. */
  ghost predicate OthersSame(inodes: seq<Dinode>, blocks: Image, inodes': seq<Dinode>, blocks': Image, i: nat) {
    && |inodes'| == |inodes| && i < |inodes|
    && (forall x :: 0 <= x < |inodes| && x != i ==>
          && inodes'[x] == inodes[x] && MappedTo(inodes'[x], blocks', inodes[x].size)
          && Content(inodes'[x], blocks') == Content(inodes[x], blocks))
  }

  function Max(a: nat, b: nat): nat {
    if a <= b then b else a
  }

  /** The bytes data have gone into file i at off, of which n bytes existed; its recorded size is not yet updated. */
  ghost predicate Wrote(inodes: seq<Dinode>, blocks: Image, inodes': seq<Dinode>, blocks': Image, i: nat, n: nat,
                        off: nat, data: seq<Byte>) {
    && OthersSame(inodes, blocks, inodes', blocks', i) && off <= n
    && inodes'[i] == inodes[i].(addrs := inodes'[i].addrs)
    && MappedTo(inodes'[i], blocks', Max(n, off + |data|))
    && View(inodes'[i], blocks', Max(n, off + |data|)) == Spliced(View(inodes[i], blocks, n), off, data)
  }

  lemma WroteNothing(inodes: seq<Dinode>, blocks: Image, i: nat, off: nat)
    requires NoHoles(inodes, blocks) && i < |inodes| && off <= inodes[i].size
    ensures Wrote(inodes, blocks, inodes, blocks, i, inodes[i].size, off, [])
  {
    hide MappedTo, View;
    assert Spliced(View(inodes[i], blocks, inodes[i].size), off, []) == View(inodes[i], blocks, inodes[i].size);
  }

  lemma WroteMore(inodes: seq<Dinode>, blocks: Image, inodes1: seq<Dinode>, blocks1: Image, inodes2: seq<Dinode>,
                  blocks2: Image,
                  i: nat, n: nat, off: nat, src: seq<Byte>, k: nat, m: nat)
    requires k + m <= |src| && Wrote(inodes, blocks, inodes1, blocks1, i, n, off, src[..k])
    requires Wrote(inodes1, blocks1, inodes2, blocks2, i, Max(n, off + k), off + k, src[k..k + m])
    ensures Wrote(inodes, blocks, inodes2, blocks2, i, n, off, src[..k + m])
  {
    hide MappedTo, View, Spliced;
    SplicedStep(View(inodes[i], blocks, n), off, src, k, m);
  }

  /** One block's worth of a write: the block map may have grown, then bytes of one block are replaced. */
  lemma WroteChunk(inodes: seq<Dinode>, blocks: Image, owner: Owner, inodes1: seq<Dinode>, blocks1: Image,
                   owner1: Owner, meta: nat,
                   i: nat, n: nat, off: nat, data: seq<Byte>)
    requires Owned(inodes, blocks, owner, meta) && Owned(inodes1, blocks1, owner1, meta)
    requires Kept(inodes, blocks, owner, inodes1, blocks1, owner1, i)
    requires NoHoles(inodes, blocks) && MappedTo(inodes[i], blocks, n) && off <= n && off + |data| <= MAXFILE * BSIZE
    requires off % BSIZE + |data| <= BSIZE && Mapped(inodes1[i], blocks1, off / BSIZE)
    ensures var b := Ref(inodes1[i], blocks1, SlotOf(off / BSIZE));
            var blocks2 := blocks1[b := Overlaid(blocks1[b], off % BSIZE, data)];
            Owned(inodes1, blocks2, owner1, meta) && Wrote(inodes, blocks, inodes1, blocks2, i, n, off, data)
            && SameRefs(inodes1, blocks1, inodes1, blocks2)
  {
    hide GetWord, Owned, MappedTo, View, Ref, Overlaid, SameRefs, Spliced;
    var b := Ref(inodes1[i], blocks1, SlotOf(off / BSIZE));
    var blocks2 := blocks1[b := Overlaid(blocks1[b], off % BSIZE, data)];
    DataRefs(inodes1, blocks1, owner1, meta, i, off / BSIZE, Overlaid(blocks1[b], off % BSIZE, data));
    KeptView(inodes, blocks, owner, inodes1, blocks1, owner1, meta, i, i, n);
    DataView(inodes1, blocks1, owner1, meta, i, off, data, n);
    forall x | 0 <= x < |inodes| && x != i
      ensures && inodes1[x] == inodes[x] && MappedTo(inodes1[x], blocks2, inodes[x].size)
              && Content(inodes1[x], blocks2) == Content(inodes[x], blocks) {
      KeptView(inodes, blocks, owner, inodes1, blocks1, owner1, meta, i, x, inodes[x].size);
      DataViewOther(inodes1, blocks1, owner1, meta, i, off / BSIZE, off % BSIZE, data, x, inodes[x].size);
    }
  }

  lemma MappedLess(ip: Dinode, blocks: Image, n: nat, m: nat)
    requires MappedTo(ip, blocks, n) && m <= n
    ensures MappedTo(ip, blocks, m)
  {
  }

  /** With the size set, the file holds what was written and no file has a hole. */
  lemma WroteDone(inodes: seq<Dinode>, blocks: Image, inodes1: seq<Dinode>, blocks1: Image, i: nat, off: nat,
                  src: seq<Byte>)
    requires NoHoles(inodes, blocks) && i < |inodes|
    requires Wrote(inodes, blocks, inodes1, blocks1, i, inodes[i].size, off, src)
    ensures var inodes2 := inodes1[i := inodes1[i].(size := Max(inodes[i].size, off + |src|))];
            && NoHoles(inodes2, blocks1) && OthersSame(inodes, blocks, inodes2, blocks1, i)
            && Content(inodes2[i], blocks1) == Spliced(Content(inodes[i], blocks), off, src)
    ensures NoHoles(inodes1, blocks1)
  {
    hide MappedTo, Spliced, Ref;
    var n := Max(inodes[i].size, off + |src|);
    MappedLess(inodes1[i], blocks1, n, inodes[i].size);
    var ip := inodes1[i].(size := n);
    SizeIgnored(inodes1[i], blocks1, n, n);
  }

  /** The block map does not depend on the recorded size. */
  lemma SizeIgnored(ip: Dinode, blocks: Image, size: nat, n: nat)
    requires MappedTo(ip, blocks, n)
    ensures var ip' := ip.(size := size); MappedTo(ip', blocks, n) && View(ip', blocks, n) == View(ip, blocks, n)
  {
    hide GetWord;
    var ip' := ip.(size := size);
    forall p: nat | p < n ensures Mapped(ip', blocks, p / BSIZE) && ByteAt(ip', blocks, p) == ByteAt(ip, blocks, p) {
      assert Mapped(ip, blocks, p / BSIZE);
    }
  }

  /** The blocks numbered lo up to hi of a file, as far as they exist. */
  function DataBlocks(ip: Dinode, blocks: Image, lo: nat, hi: nat): set<nat> {
    if hi <= lo then {}
    else DataBlocks(ip, blocks, lo, hi - 1) + if Mapped(ip, blocks, hi - 1)
        then {Ref(ip, blocks, SlotOf(hi - 1))} else {}
  }

  lemma {:induction false} FewBlocks(ip: Dinode, blocks: Image, lo: nat, hi: nat)
    requires lo <= hi
    ensures |DataBlocks(ip, blocks, lo, hi)| <= hi - lo
    decreases hi
  {
    hide Mapped, Ref, SlotOf;
    if lo < hi {
      FewBlocks(ip, blocks, lo, hi - 1);
    }
  }

  /** Slots in use keep naming the same blocks. */
  ghost predicate RefsKept(ip: Dinode, blocks: Image, ip': Dinode, blocks': Image) {
    && |ip.addrs| == |ip'.addrs| == NDIRECT + 1 && |blocks| == |blocks'|
    && (forall k: nat :: k < NSLOTS && Ref(ip, blocks, k) != 0 ==> Ref(ip', blocks', k) == Ref(ip, blocks, k))
  }

  lemma MappedKept(ip: Dinode, blocks: Image, ip': Dinode, blocks': Image, bn: nat)
    requires RefsKept(ip, blocks, ip', blocks') && Mapped(ip, blocks, bn)
    ensures Mapped(ip', blocks', bn) && Ref(ip', blocks', SlotOf(bn)) == Ref(ip, blocks, SlotOf(bn))
  {
  }

  lemma {:induction false} BlocksGrow(ip: Dinode, blocks: Image, ip': Dinode, blocks': Image, lo: nat, hi: nat,
                                      hi': nat)
    requires RefsKept(ip, blocks, ip', blocks') && hi <= hi'
    ensures DataBlocks(ip, blocks, lo, hi) <= DataBlocks(ip', blocks', lo, hi')
    decreases hi'
  {
    hide GetWord, Ref, RefsKept, Mapped, SlotOf;
    if lo < hi' {
      if Mapped(ip, blocks, hi' - 1) {
        MappedKept(ip, blocks, ip', blocks', hi' - 1);
      }
      BlocksGrow(ip, blocks, ip', blocks', lo, if hi == hi' then hi - 1 else hi, hi' - 1);
    }
  }

  lemma IndirectKept(ip: Dinode, blocks: Image, ip': Dinode, blocks': Image)
    requires RefsKept(ip, blocks, ip', blocks')
    ensures IndirectBlock(ip) <= IndirectBlock(ip')
  {
    assert ip.addrs[NDIRECT] == Ref(ip, blocks, INDIRECT_SLOT) &&
        ip'.addrs[NDIRECT] == Ref(ip', blocks', INDIRECT_SLOT);
  }

  lemma KeptRefs(inodes: seq<Dinode>, blocks: Image, owner: Owner, inodes': seq<Dinode>, blocks': Image, owner': Owner,
                 meta: nat, i: nat, blocks2: Image)
    requires Owned(inodes, blocks, owner, meta) && Owned(inodes', blocks', owner', meta)
    requires Kept(inodes, blocks, owner, inodes', blocks', owner', i)
    requires SameRefs(inodes', blocks', inodes', blocks2)
    ensures RefsKept(inodes[i], blocks, inodes'[i], blocks2)
  {
    hide GetWord, Ref;
    forall k: nat | k < NSLOTS && Ref(inodes[i], blocks, k) != 0
      ensures Ref(inodes'[i], blocks2, k) == Ref(inodes[i], blocks, k) {
      KeptRef(inodes, blocks, owner, inodes', blocks', owner', meta, i, i, k);
    }
  }

  lemma MappedAt(inodes: seq<Dinode>, blocks: Image, i: nat, p: nat)
    requires NoHoles(inodes, blocks) && i < |inodes| && p < inodes[i].size
    ensures |inodes[i].addrs| == NDIRECT + 1 && p / BSIZE < MAXFILE && Mapped(inodes[i], blocks, p / BSIZE)
    ensures 0 < Ref(inodes[i], blocks, SlotOf(p / BSIZE)) < |blocks|
  {
  }

  /** A stretch of one block is a stretch of the file. */
  lemma BlockBytes(ip: Dinode, blocks: Image, p: nat, m: nat)
    requires Mapped(ip, blocks, p / BSIZE) && p % BSIZE + m <= BSIZE && p + m <= ip.size
    ensures |ip.addrs| == NDIRECT + 1 && p / BSIZE < MAXFILE
    ensures var b := Ref(ip, blocks, SlotOf(p / BSIZE));
            b < |blocks| && blocks[b][p % BSIZE..p % BSIZE + m] == Content(ip, blocks)[p..p + m]
  {
    hide GetWord;
    var b := Ref(ip, blocks, SlotOf(p / BSIZE));
    forall q: nat | p <= q < p + m ensures Content(ip, blocks)[q] == blocks[b][p % BSIZE + (q - p)] {
      SameBlock(p, m, q);
    }
  }

  lemma DataMapped(inodes: seq<Dinode>, blocks: Image, blocks': Image, i: nat, bn: nat)
    requires SameRefs(inodes, blocks, inodes, blocks') && i < |inodes| && Mapped(inodes[i], blocks, bn)
    ensures Mapped(inodes[i], blocks', bn) && Ref(inodes[i], blocks', SlotOf(bn)) == Ref(inodes[i], blocks, SlotOf(bn))
  {
    hide Ref;
  }

  lemma WroteFacts(inodes: seq<Dinode>, blocks: Image, inodes': seq<Dinode>, blocks': Image, i: nat, n: nat, off: nat,
                   data: seq<Byte>)
    requires Wrote(inodes, blocks, inodes', blocks', i, n, off, data)
    ensures i < |inodes| == |inodes'| && |inodes'[i].addrs| == NDIRECT + 1
    ensures inodes'[i] == inodes[i].(addrs := inodes'[i].addrs)
    ensures MappedTo(inodes'[i], blocks', Max(n, off + |data|))
    ensures off + |data| < n ==> Mapped(inodes'[i], blocks', (off + |data|) / BSIZE)
    ensures forall x :: 0 <= x < |inodes| && x != i ==> inodes'[x] == inodes[x]
  {
    hide Mapped, View, Spliced, Ref;
  }

  lemma {:induction false} SizeKeepsBlocks(ip: Dinode, blocks: Image, size: nat, lo: nat, hi: nat)
    ensures DataBlocks(ip.(size := size), blocks, lo, hi) == DataBlocks(ip, blocks, lo, hi)
    decreases hi
  {
    hide GetWord;
    if lo < hi {
      SizeKeepsBlocks(ip, blocks, size, lo, hi - 1);
    }
  }

  /** File i has the bytes data at off; nothing else about it or about any other file changed, except where its
      blocks are. */
  ghost predicate Replaced(inodes: seq<Dinode>, blocks: Image, inodes': seq<Dinode>, blocks': Image, i: nat, off: nat,
                           data: seq<Byte>) {
    && OthersSame(inodes, blocks, inodes', blocks', i) && off <= inodes[i].size
    && inodes'[i] == inodes[i].(addrs := inodes'[i].addrs, size := Max(inodes[i].size, off + |data|))
    && Content(inodes'[i], blocks') == Spliced(Content(inodes[i], blocks), off, data)
  }

  lemma ReplacedMore(inodes: seq<Dinode>, blocks: Image, inodes1: seq<Dinode>, blocks1: Image, inodes2: seq<Dinode>,
                     blocks2: Image,
                     i: nat, off: nat, src: seq<Byte>, k: nat, m: nat)
    requires k + m <= |src| && Replaced(inodes, blocks, inodes1, blocks1, i, off, src[..k])
    requires Replaced(inodes1, blocks1, inodes2, blocks2, i, off + k, src[k..k + m])
    ensures Replaced(inodes, blocks, inodes2, blocks2, i, off, src[..k + m])
  {
    hide MappedTo, Spliced;
    SplicedStep(Content(inodes[i], blocks), off, src, k, m);
  }

  lemma ReplacedFacts(inodes: seq<Dinode>, blocks: Image, inodes': seq<Dinode>, blocks': Image, i: nat, off: nat,
                      data: seq<Byte>)
    requires Replaced(inodes, blocks, inodes', blocks', i, off, data)
    ensures i < |inodes| == |inodes'| && off <= inodes[i].size && inodes'[i].size == Max(inodes[i].size, off + |data|)
    ensures inodes'[i].typ == inodes[i].typ
  {
  }

  lemma EmptiedOk(table: seq<Dinode>, blocks: Image, own: Owner, meta: nat, i: nat)
    requires Owned(table, blocks, own, meta) && i < |table| && NoHoles(table, blocks)
    ensures var table' := table[i := Emptied(table[i])];
            && Owned(table', blocks, Disowned(own, i), meta) && NoHoles(table', blocks)
            && OthersSame(table, blocks, table', blocks, i) && Content(table'[i], blocks) == []
  {
    hide Owned;
    EmptiedOwned(table, blocks, own, meta, i);
  }
}
