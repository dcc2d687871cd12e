/** Images that mkfs makes, with the sizes of the original, and the first boot on them. */
module Images {
  import opened Blocks
  import opened LogSectors
  import opened LogImage
  import opened Bitmap
  import opened BlockMap
  import opened FileContent
  import opened FileSystem
  import opened BoundedNames
  import opened Directory
  import opened Links
  import opened SysFile
  import opened InodeCache
  import opened Mkfs
  import opened MkfsTree
  import opened BufferCache
  import opened RedoLog
  import opened Transactions

  /** The constants of mkfs.c. */
  const SIZE := 1024
  const NINODES := 200
  const NLOG := 10
  const META := 29
  const LOG_START := 1014

  // ---- The first boot ----

  /** mkfs and the first boot. When the files leave the log alone, the kernel starts from the image as it was made, with
      an empty log: what mkfs wrote before the log is what recovery leaves there. */
  method FirstBoot(size: nat, n: nat, nlog: nat, files: seq<Input>) returns (fs: Fs, log: Log)
    requires Meta(size, n) + nlog <= size <= BPB && 2 <= nlog <= NBUF && 2 <= n <= 0x1_0000
    requires forall j :: 0 <= j < |files| ==> Terminated(files[j].name)
    requires Fits(n, files, |files|) && ImageEnd(size, n, files) <= size - nlog
    ensures fs.Valid() && !fs.open && Shows(fs.inodes, fs.blocks, files)
    ensures TreeOk(fs) <==> NamesOk(files) && DENT * (|files| + 2) % BSIZE != 0
    ensures log.Valid() && log.Idle() && log.n == 0 && !log.busy && log.start == size - nlog
    ensures size - nlog <= |fs.blocks| == size && log.cache.disk.sectors[..log.start] == fs.blocks[..size - nlog]
  {
    hide Fs.Valid, TreeOk, Shows, NamesOk, ImageEnd, Lean, OutsideLog, Log.Valid, Log.Idle, Bitmap.Used, Recovered,
         HeaderOk, Fits;
    var b, image := MakeImage(size, n, nlog, files);
    fs := image;
    log := Boot(fs.blocks, nlog);
  }

  // ---- Files for the examples ----

  /** A file of one-bytes whose name is a single letter. */
  function Plain(j: nat, bytes: nat): Input
    requires j < 30
  {
    Input([97 + j, 0], seq(bytes, _ => 1))
  }

  function Plains(count: nat, bytes: nat): (files: seq<Input>)
    requires count <= 30
    ensures |files| == count && forall j :: 0 <= j < count ==> files[j] == Plain(j, bytes)
  {
    seq(count, j requires 0 <= j < count => Plain(j, bytes))
  }

  lemma PlainName(j: nat, bytes: nat)
    requires j < 30
    ensures EntryName(Plain(j, bytes)) == [97 + j] && Terminated(Plain(j, bytes).name)
  {
    var name := Plain(j, bytes).name;
    assert name[..1] == [97 + j];
    assert name[1] == 0;
    KeyIs(name, DIRSIZ, 1);
  }

  /** Each file is one of those above. */
  ghost predicate AllPlain(files: seq<Input>) {
    |files| <= 30 && forall j :: 0 <= j < |files| ==> files[j] == Plain(j, |files[j].data|)
  }

  lemma PlainNames(files: seq<Input>)
    requires AllPlain(files)
    ensures NamesOk(files) && forall j :: 0 <= j < |files| ==> Terminated(files[j].name)
  {
    hide EntryName, Plain, Terminated;
    forall j | 0 <= j < |files| ensures EntryName(files[j]) == [97 + j] && Terminated(files[j].name) {
      PlainName(j, |files[j].data|);
    }
    forall j, k | 0 <= j < k < |files| ensures EntryName(files[j]) != EntryName(files[k]) {
      assert [97 + j][0] != [97 + k][0];
    }
  }

  lemma PlainsSizes(count: nat, bytes: nat)
    requires count <= 30
    ensures AllPlain(Plains(count, bytes)) && forall j :: 0 <= j < count ==> |Plains(count, bytes)[j].data| == bytes
  {
  }

  lemma {:induction false} PlainBlocks(count: nat, bytes: nat)
    requires count <= 30
    ensures FileBlocks(Plains(count, bytes)) == count * BlocksFor(bytes)
  {
    hide BlocksFor;
    if count > 0 {
      PlainBlocks(count - 1, bytes);
      assert Plains(count, bytes)[..count - 1] == Plains(count - 1, bytes);
      assert |Plains(count, bytes)[count - 1].data| == bytes;
    }
  }

  // ---- A root directory that ends on a block boundary ----

  /** Thirty files fill the first block of the root directory, and the rounded size leaves a hole after it: the kernel
      does not start from a sound tree although the names are in order. */
  method FullRootBlock() returns (fs: Fs)
    ensures fs.Valid() && Shows(fs.inodes, fs.blocks, Plains(30, 0)) && NamesOk(Plains(30, 0))
    ensures !TreeOk(fs)
  {
    hide Fs.Valid, TreeOk, Shows, NamesOk, Lean, OutsideLog, Bitmap.Used, EmptyLog, Plain, FileBlocks;
    var files := Plains(30, 0);
    PlainsSizes(30, 0);
    PlainNames(files);
    PlainBlocks(30, 0);
    assert BlocksFor(0) == 0 && AllBlocks(files) == 1;
    var b, image := MakeImage(SIZE, NINODES, NLOG, files);
    fs := image;
  }

  // ---- Files that reach into the log ----

  /** A word that no log header starts with. */
  predicate Large(b: Block) {
    GetWord(b, 0) > LOGSIZE
  }

  lemma OnesLarge(b: Block)
    requires forall t :: 0 <= t < 4 ==> b[t] == 1
    ensures Large(b)
  {
  }

  /** A data block of a file of whole blocks of one-bytes. */
  lemma DataLarge(ip: Dinode, blocks: Image, bn: nat)
    requires |ip.addrs| == NDIRECT + 1 && bn < MAXFILE && Mapped(ip, blocks, bn) && Tight(ip, blocks, ip.size)
    requires ip.size % BSIZE == 0 && forall p :: 0 <= p < ip.size ==> Content(ip, blocks)[p] == 1
    ensures Large(blocks[Ref(ip, blocks, SlotOf(bn))])
  {
    hide Ref, Large, GetWord;
    assert bn * BSIZE < ip.size;
    var b := blocks[Ref(ip, blocks, SlotOf(bn))];
    forall t | 0 <= t < 4 ensures b[t] == 1 {
      assert Content(ip, blocks)[bn * BSIZE + t] == ByteAt(ip, blocks, bn * BSIZE + t);
      assert (bn * BSIZE + t) / BSIZE == bn && (bn * BSIZE + t) % BSIZE == t;
    }
    OnesLarge(b);
  }

  /** The block of an indirect block starts with the number of a data block. */
  lemma IndirectLarge(ip: Dinode, blocks: Image, owner: Owner, inodes: seq<Dinode>, meta: nat, i: nat)
    requires Owned(inodes, blocks, owner, meta) && LOGSIZE < meta && i < |inodes| && inodes[i] == ip
    requires MappedTo(ip, blocks, ip.size) && NDIRECT * BSIZE < ip.size
    ensures 0 < ip.addrs[NDIRECT] < |blocks| && Large(blocks[ip.addrs[NDIRECT]])
  {
    hide GetWord;
    assert Mapped(ip, blocks, NDIRECT * BSIZE / BSIZE);
    var c := Ref(ip, blocks, SlotOf(NDIRECT));
    assert c in owner;
  }

  /** The first block of a directory starts with its record ".". */
  lemma DotLarge(ip: Dinode, blocks: Image)
    requires Mapped(ip, blocks, 0) && DENT <= ip.size && ip.size % DENT == 0
    requires Slots(Content(ip, blocks))[0] == Directory.Used(DOT, ROOT)
    ensures Large(blocks[Ref(ip, blocks, SlotOf(0))])
  {
    hide Ref, LittleEndian;
    var c, b := Content(ip, blocks), blocks[Ref(ip, blocks, SlotOf(0))];
    assert Slots(c)[0] == SlotAt(c, 0);
    forall t: nat | t < 4 ensures b[t] == c[t] {
      assert c[t] == ByteAt(ip, blocks, t);
      assert t / BSIZE == 0 && t % BSIZE == t;
    }
    assert c[2] == 46;
    WordAtLeast(b);
  }

  lemma WordAtLeast(b: Block)
    requires b[2] == 46
    ensures Large(b)
  {
  }

  /** The files are whole blocks of one-bytes, and the root directory is one block. */
  ghost predicate WholeOnes(files: seq<Input>) {
    |files| <= 30 && forall j :: 0 <= j < |files| ==>
        files[j] == Plain(j, |files[j].data|) && |files[j].data| % BSIZE == 0
  }

  /** What the inodes are: the root, the files, and free ones. */
  lemma InodeKinds(inodes: seq<Dinode>, blocks: Image, files: seq<Input>, i: nat)
    requires Shows(inodes, blocks, files) && AllTidy(inodes) && i < |inodes|
    ensures i == ROOT ==>
              DENT <= inodes[i].size && inodes[i].size % DENT == 0 &&
              Slots(Content(inodes[i], blocks))[0] == Directory.Used(DOT, ROOT)
    ensures 2 <= i < |files| + 2 ==> Content(inodes[i], blocks) == files[i - 2].data
    ensures i != ROOT && !(2 <= i < |files| + 2) ==> inodes[i].size == 0
  {
    hide Content, Slots, Rows;
    var extra :| GraphOf(inodes, blocks) == TreeOf(|inodes|, files, extra);
    var g := TreeOf(|inodes|, files, extra);
    assert NodeOf(inodes[i], blocks) == g[i] && Tidy(inodes[i]);
    if i == ROOT {
      SizeOfContent(inodes[i], blocks);
      assert g[ROOT].slots[0] == Rows(files)[0];
      assert |Slots(Content(inodes[i], blocks))| == inodes[i].size / DENT;
    } else if 2 <= i < |files| + 2 {
      assert Content(inodes[(i - 2) + 2], blocks) == files[i - 2].data;
    }
  }

  /** No block that such files own could be read as a log header. */
  lemma OwnedLarge(inodes: seq<Dinode>, blocks: Image, owner: Owner, meta: nat, files: seq<Input>, b: nat)
    requires Owned(inodes, blocks, owner, meta) && LOGSIZE < meta && b in owner && NoHoles(inodes, blocks)
    requires Shows(inodes, blocks, files) && AllTidy(inodes) && WholeOnes(files)
    requires Lean(inodes, blocks, ROOT, DENT * (|files| + 2))
    ensures b < |blocks| && Large(blocks[b])
  {
    hide Ref, Content, Slots, Shows, Large, Tidy, Tight, MappedTo;
    var i, k := owner[b].0, owner[b].1;
    assert Names(inodes, blocks, i, k, b);
    var ip := inodes[i];
    InodeKinds(inodes, blocks, files, i);
    SizeOfContent(ip, blocks);
    AddrsRef(inodes, blocks, owner, meta, i);
    var n := if i == ROOT then DENT * (|files| + 2) else ip.size;
    assert Tight(ip, blocks, n) && Direct(ip, n) && MappedTo(ip, blocks, ip.size);
    if k == INDIRECT_SLOT {
      IndirectLarge(ip, blocks, owner, inodes, meta, i);
    } else {
      var bn := if k < NDIRECT then k else k - 1;
      assert Mapped(ip, blocks, bn);
      InFile(ip, blocks, n, bn);
      if i == ROOT {
        DotLarge(ip, blocks);
      } else {
        DataLarge(ip, blocks, bn);
      }
    }
  }

  lemma InFile(ip: Dinode, blocks: Image, n: nat, bn: nat)
    requires Tight(ip, blocks, n) && bn < MAXFILE && Mapped(ip, blocks, bn)
    ensures bn * BSIZE < n
  {
  }

  /** Seven files of the greatest size take three sectors of the log. mkfs makes the image without complaint and the
      tree is in order, but the header sector of the log holds bytes of a file, which recovery would take for a
      header. */
  method LogOverwritten() returns (fs: Fs)
    ensures TreeOk(fs) && !OutsideLog(fs.owner, LOG_START)
    ensures |fs.blocks| == SIZE && !HeaderOk(fs.blocks, LOG_START)
  {
    hide TreeOk, Shows, NamesOk, Lean, OutsideLog, Bitmap.Used, EmptyLog, Plain, FileBlocks, Owned, NoHoles, Covered,
         AllTidy, GetWord, WholeOnes, HeadSectors, Loggable;
    var files := Plains(7, MAXFILE * BSIZE);
    PlainsSizes(7, MAXFILE * BSIZE);
    PlainNames(files);
    PlainsWhole(7, MAXFILE);
    PlainBlocks(7, MAXFILE * BSIZE);
    assert BlocksFor(MAXFILE * BSIZE) == 141 && AllBlocks(files) == 988;
    var b, image := MakeImage(SIZE, NINODES, NLOG, files);
    fs := image;
    assert LOG_START in fs.owner by { assert Bitmap.Used(fs.bits, LOG_START); }
    TreeParts(fs);
    OwnedLarge(fs.inodes, fs.blocks, fs.owner, fs.meta, files, LOG_START);
  }

  lemma PlainsWhole(count: nat, n: nat)
    requires count <= 30
    ensures WholeOnes(Plains(count, n * BSIZE))
  {
    assert n * BSIZE % BSIZE == 0;
  }

  lemma TreeParts(fs: Fs)
    requires TreeOk(fs)
    ensures Owned(fs.inodes, fs.blocks, fs.owner, fs.meta) && NoHoles(fs.inodes, fs.blocks) && AllTidy(fs.inodes)
  {
    hide Owned, NoHoles, AllTidy, Covered;
  }

  // ---- Files that fill the disk up to the log ----

  /** Six files of the greatest size and one a little smaller. */
  function FullFiles(): (files: seq<Input>)
    ensures |files| == 7
  {
    Plains(6, MAXFILE * BSIZE) + [Plain(6, 137 * BSIZE)]
  }

  lemma FullFilesBlocks()
    ensures AllPlain(FullFiles()) && Fits(NINODES, FullFiles(), 7) && AllBlocks(FullFiles()) == LOG_START - META
  {
    PlainBlocks(6, MAXFILE * BSIZE);
    PlainsSizes(6, MAXFILE * BSIZE);
    assert FullFiles()[..6] == Plains(6, MAXFILE * BSIZE);
    assert |Plain(6, 137 * BSIZE).data| == 137 * BSIZE;
    assert BlocksFor(MAXFILE * BSIZE) == 141 && BlocksFor(137 * BSIZE) == 138 && BlocksFor(DENT * 9) == 1;
  }

  /** An image as mkfs makes it, whose files hold every block before the log. */
  method FullDisk() returns (fs: Fs)
    ensures fresh(fs) && TreeOk(fs) && !fs.open && fs.meta == META && |fs.blocks| == SIZE && LOG_START < 8 * |fs.bits|
    ensures Shows(fs.inodes, fs.blocks, FullFiles()) && EmptyLog(fs.blocks, LOG_START)
    ensures forall b: nat :: b < SIZE ==> Bitmap.Used(fs.bits, b) == (b < LOG_START)
  {
    hide Fs.Valid, TreeOk, Shows, NamesOk, Lean, OutsideLog, Bitmap.Used, EmptyLog, FullFiles, AllBlocks, Fits;
    FullFilesBlocks();
    PlainNames(FullFiles());
    var b, image := MakeImage(SIZE, NINODES, NLOG, FullFiles());
    fs := image;
  }

  // ---- A removed current directory ----

  /** The name "d". */
  const D_BUFFER: seq<Byte> := [100, 0]

  lemma DName()
    ensures Readable(D_BUFFER, DIRSIZ) && Key(D_BUFFER, DIRSIZ) == [100]
  {
    assert D_BUFFER[..1] == [100];
    KeyIs(D_BUFFER, DIRSIZ, 1);
  }

  /** In a root without files, the third record is the first free one. */
  lemma EmptyRoot(n: nat, extra: nat, name: seq<Byte>)
    requires 2 <= n && name != DOT && name != DOTDOT
    ensures var s := TreeOf(n, [], extra)[ROOT].slots; FreeSlot(s) == 2 && Find(s, name) == |s|
  {
    hide Find, FreeSlot;
    var s := TreeOf(n, [], extra)[ROOT].slots;
    RootSlots(n, [], extra);
    assert forall j :: 2 <= j < |s| ==> s[j].Free?;
    FreeSlotIs(s, 2);
    assert forall j: nat :: j < |s| ==> !HasName(s, j, name);
    FindNone(s, name);
  }

  lemma FreeSlotIs(s: seq<Slot>, k: nat)
    requires k <= |s| && (k < |s| ==> s[k].Free?) && forall j :: 0 <= j < k ==> s[j].Used?
    ensures FreeSlot(s) == k
  {
  }

  /** A directory that has just been made can be removed again. */
  lemma NewDir(g: Graph, i: nat, dp: nat, key: seq<Byte>)
    requires LinkedDir(g, dp) && i < |g| && i != dp && Find(g[dp].slots, key) == |g[dp].slots|
    requires key != DOT && key != DOTDOT
    ensures var h := CreateDone(g, i, dp, key, T_DIR);
            && CanUnlink(h, dp, key) && LinkedDir(h, dp)
            && var k := Find(h[dp].slots, key); h[dp].slots[k].inum == i && h[i].typ == T_DIR
  {
    var s, t := g[dp].slots, CreateDone(g, i, dp, key, T_DIR)[dp].slots;
    var k := FreeSlot(s);
    assert t == Linked(s, key, i);
    forall j: nat | j < k ensures !HasName(t, j, key) { assert !HasName(s, j, key); }
    assert HasName(t, k, key);
    FindFirst(t, key, k);
  }

  /** On a new image: mkdir d, a process changes into d, d is removed, and the process changes its directory again. The
      kernel panics, since the last reference to d goes outside a transaction. */
  method ChdirPanics() returns (removed: int, ok: bool)
    ensures removed == 0 && !ok
  {
    hide Fs.Valid, TreeOk, Shows, NamesOk, Lean, OutsideLog, Bitmap.Used, EmptyLog, Key, Readable, Find, FreeSlot,
         CreateDone, CanUnlink, LinkedDir, NodeOf, Transacted, OnePer, Counts;
    DName();
    NoNames();
    assert AllBlocks([]) == 1;
    var b, image := MakeImage(SIZE, NINODES, NLOG, []);
    var fs: Fs := image;
    ghost var extra := NewTree(fs.inodes, fs.blocks);
    ghost var g := GraphOf(fs.inodes, fs.blocks);
    EmptyRoot(NINODES, extra, [100]);
    ManyFree(fs.bits);
    NotExhausted(fs.inodes, fs.blocks, extra);
    var r, d, calls := SysMkdir(fs, ROOT, D_BUFFER);
    NewDir(g, d, ROOT, [100]);
    TreeHas(fs, d);
    var ic := new Icache();
    NoReferences(ic.entries, ic.handles);
    assert ic.entries[0].ref == 0;
    var k := ic.Iget(d);
    ic.IlockTree(fs, k.value);
    removed, ok := ChdirFromRemoved(fs, ic, ROOT, D_BUFFER, k.value);
  }

  lemma NoNames()
    ensures NamesOk([])
  {
  }

  lemma NewTree(inodes: seq<Dinode>, blocks: Image) returns (extra: nat)
    requires Shows(inodes, blocks, [])
    ensures 2 <= |inodes| && GraphOf(inodes, blocks) == TreeOf(|inodes|, [], extra)
    ensures LinkedDir(GraphOf(inodes, blocks), ROOT)
  {
    extra :| GraphOf(inodes, blocks) == TreeOf(|inodes|, [], extra);
  }

  /** Inode 2 is free. */
  lemma NotExhausted(inodes: seq<Dinode>, blocks: Image, extra: nat)
    requires 2 < |inodes| && GraphOf(inodes, blocks) == TreeOf(|inodes|, [], extra)
    ensures !NoFreeInode(inodes)
  {
    hide Content, Slots;
    assert GraphOf(inodes, blocks)[2] == NodeOf(inodes[2], blocks);
  }

  /** Far more than seven blocks are free. */
  lemma ManyFree(bits: seq<Bits8>)
    requires |bits| == BSIZE && forall c: nat :: c < BPB ==> Bitmap.Used(bits, c) == (c < 30)
    ensures !FewFree(bits, SIZE, 7)
  {
    hide Bitmap.Used;
    var free := SectorRange(30, 8);
    assert |free| == 8 && forall b :: b in free ==> b < SIZE && b / 8 < |bits| && !Bitmap.Used(bits, b);
  }

  lemma NoReferences(s: seq<Entry>, handles: multiset<nat>)
    requires Counts(s, handles) && handles == multiset{}
    ensures forall k :: 0 <= k < |s| ==> s[k].ref == 0
  {
    forall k | 0 <= k < |s| ensures s[k].ref == 0 {
      if s[k].ref > 0 { assert Live(s, k, s[k].inum); }
    }
  }
}
