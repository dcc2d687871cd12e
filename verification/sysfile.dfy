/** link, unlink and create on the file system, with the directory tree read off its blocks. */
module SysFile {
  import opened Optional
  import opened Blocks
  import opened Bitmap
  import opened LogSectors
  import opened BlockMap
  import opened FileContent
  import opened FileSystem
  import opened BoundedNames
  import opened Directory
  import opened Links

  function NodeOf(ip: Dinode, blocks: Image): Node {
    Node(ip.typ, ip.nlink, if ip.typ == T_DIR && ip.size % DENT == 0 then Slots(Content(ip, blocks)) else [])
  }

  /** The directory graph that the inodes and blocks hold. */
  function GraphOf(inodes: seq<Dinode>, blocks: Image): (g: Graph)
    ensures |g| == |inodes| && forall i :: 0 <= i < |g| ==> g[i] == NodeOf(inodes[i], blocks)
  {
    seq(|inodes|, i requires 0 <= i < |inodes| => NodeOf(inodes[i], blocks))
  }

  /** Directories are made of whole records; free inodes own nothing. */
  predicate Tidy(ip: Dinode) {
    && (ip.typ == T_DIR ==> ip.size % DENT == 0)
    && (ip.typ == 0 ==> ip == Emptied(ip))
  }

  /** The whole file system, from blocks to link counts, is consistent, and the inodes on disk are those in memory. */
  ghost predicate TreeOk(fs: Fs)
    reads fs
  {
    && fs.Sound() && ROOT < |fs.inodes| <= 0x1_0000 && fs.dinodes == fs.inodes
    && AllTidy(fs.inodes) && fs.inodes[0].typ == 0
    && LinkedDir(GraphOf(fs.inodes, fs.blocks), ROOT)
    && Inv(GraphOf(fs.inodes, fs.blocks))
  }

  method BeginTree(fs: Fs)
    requires TreeOk(fs) && !fs.open
    modifies fs`open, fs`home, fs`log
    ensures TreeOk(fs) && fs.open && fs.log == [] && fs.home == fs.Now()
  {
    hide FsOk, NoHoles, AllTidy, Inv, Covered, NodeOf;
    fs.Begin();
  }

  /** commit_trans. The calls of log_write since begin_trans name every sector that changed. */
  method CommitTree(fs: Fs) returns (ghost calls: seq<nat>)
    requires TreeOk(fs) && fs.open
    modifies fs`open, fs`home, fs`log
    ensures TreeOk(fs) && !fs.open
    ensures calls == old(fs.log) && Covered(old(fs.home), fs.Now(), fs.ninodes, calls)
  {
    hide FsOk, NoHoles, AllTidy, Inv, Covered, NodeOf;
    calls := fs.log;
    fs.Commit();
  }

  /** A step of the tree: files other than dp are untouched, so only the node of dp changes. */
  lemma OneNode(inodes: seq<Dinode>, blocks: Image, inodes': seq<Dinode>, blocks': Image, dp: nat)
    requires OthersSame(inodes, blocks, inodes', blocks', dp)
    ensures GraphOf(inodes', blocks') == GraphOf(inodes, blocks)[dp := NodeOf(inodes'[dp], blocks')]
  {
    hide Slots, MappedTo;
  }

  /** Plain files keep their contents, and every inode in use its type and device numbers. */
  ghost predicate FilesSame(inodes: seq<Dinode>, blocks: Image, inodes': seq<Dinode>, blocks': Image) {
    && |inodes'| == |inodes|
    && (forall x :: 0 <= x < |inodes| && inodes[x].typ == T_FILE ==>
          inodes'[x].typ == T_FILE && inodes'[x].size == inodes[x].size &&
              Content(inodes'[x], blocks') == Content(inodes[x], blocks))
    && (forall x :: 0 <= x < |inodes| && inodes[x].typ != 0 ==> SameDevice(inodes[x], inodes'[x]))
  }

  predicate SameDevice(a: Dinode, b: Dinode) {
    b.typ == a.typ && b.major == a.major && b.minor == a.minor
  }

  lemma FilesTrans(inodes: seq<Dinode>, blocks: Image, inodes1: seq<Dinode>, blocks1: Image, inodes2: seq<Dinode>,
                   blocks2: Image)
    requires FilesSame(inodes, blocks, inodes1, blocks1) && FilesSame(inodes1, blocks1, inodes2, blocks2)
    ensures FilesSame(inodes, blocks, inodes2, blocks2)
  {
    hide Content;
  }

  lemma OthersFiles(inodes: seq<Dinode>, blocks: Image, inodes': seq<Dinode>, blocks': Image, dp: nat)
    requires OthersSame(inodes, blocks, inodes', blocks', dp) && inodes[dp].typ != T_FILE
    requires SameFields(inodes[dp], inodes'[dp])
    ensures FilesSame(inodes, blocks, inodes', blocks')
  {
    hide MappedTo, Content;
  }

  lemma FieldsFiles(inodes: seq<Dinode>, blocks: Image, i: nat, ip: Dinode)
    requires i < |inodes| && ip.addrs == inodes[i].addrs && ip.size == inodes[i].size
    requires inodes[i].typ == 0 || SameDevice(inodes[i], ip)
    ensures FilesSame(inodes, blocks, inodes[i := ip], blocks)
  {
    hide Content;
    FieldsIgnored(inodes[i], ip, blocks);
  }

  /** The contents of a file depend on its addresses and size alone. */
  lemma FieldsIgnored(ip: Dinode, ip': Dinode, blocks: Image)
    requires ip'.addrs == ip.addrs && ip'.size == ip.size
    ensures Content(ip', blocks) == Content(ip, blocks)
    ensures (MappedTo(ip, blocks, ip.size) ==> MappedTo(ip', blocks, ip'.size))
  {
    hide GetWord;
    forall p: nat ensures Mapped(ip', blocks, p / BSIZE) <==> Mapped(ip, blocks, p / BSIZE) {
    }
    forall p: nat ensures ByteAt(ip', blocks, p) == ByteAt(ip, blocks, p) {
    }
  }

  lemma FieldsKeepFs(bits: seq<Bits8>, blocks: Image, inodes: seq<Dinode>, owner: Owner, meta: nat, i: nat, ip: Dinode)
    requires FsOk(bits, blocks, inodes, owner, meta) && i < |inodes| && ip.addrs == inodes[i].addrs
    requires ip.size == inodes[i].size && NoHoles(inodes, blocks)
    ensures FsOk(bits, blocks, inodes[i := ip], owner, meta) && NoHoles(inodes[i := ip], blocks)
    ensures OthersSame(inodes, blocks, inodes[i := ip], blocks, i) && Content(ip, blocks) == Content(inodes[i], blocks)
  {
    hide GetWord, BitsAgree, MappedTo, Content;
    OwnedSame(inodes, blocks, inodes[i := ip], blocks, owner, meta);
    FieldsIgnored(inodes[i], ip, blocks);
  }

  /** Set the link count of an inode, in memory and on disk. */
  method SetNlink(fs: Fs, i: nat, n: int)
    requires fs.Sound() && i < |fs.inodes| && fs.dinodes == fs.inodes
    requires fs.open
    modifies fs`inodes, fs`dinodes, fs`log
    ensures fs.Sound() && fs.inodes == old(fs.inodes)[i := old(fs.inodes)[i].(nlink := n)] && fs.dinodes == fs.inodes
    ensures GraphOf(fs.inodes, fs.blocks) == WithNlink(old(GraphOf(fs.inodes, fs.blocks)), i, n)
    ensures FilesSame(old(fs.inodes), fs.blocks, fs.inodes, fs.blocks)
    ensures LogsAtMost(old(fs.log), fs.log, {fs.IBlock(i)}, 0)
  {
    hide Covered, FsOk, NoHoles, OthersSame, Content, Slots, FilesSame;
    var ip := fs.inodes[i].(nlink := n);
    FieldsFiles(fs.inodes, fs.blocks, i, ip);
    FieldsKeepFs(fs.bits, fs.blocks, fs.inodes, fs.owner, fs.meta, i, ip);
    OneNode(fs.inodes, fs.blocks, fs.inodes[i := ip], fs.blocks, i);
    fs.inodes := fs.inodes[i := ip];
    fs.Iupdate(i);
    assert LoggedOnly(old(fs.log), fs.log, {fs.IBlock(i)}, {});
  }

  lemma DirNode(fs: Fs, dp: nat)
    requires TreeOk(fs) && LinkedDir(GraphOf(fs.inodes, fs.blocks), dp)
    ensures IsDir(fs, dp) && SlotsOf(fs, dp) == GraphOf(fs.inodes, fs.blocks)[dp].slots
  {
    hide Inv, Content, Slots;
    assert Tidy(fs.inodes[dp]);
  }

  /** dirlink as a step of the tree. */
  lemma LinkedNode(inodes: seq<Dinode>, blocks: Image, inodes': seq<Dinode>, blocks': Image, dp: nat, s: seq<Slot>)
    requires OthersSame(inodes, blocks, inodes', blocks', dp) && SameFields(inodes[dp], inodes'[dp])
    requires inodes[dp].typ == T_DIR && inodes[dp].size % DENT == 0 && inodes'[dp].size % DENT == 0
    requires Slots(Content(inodes'[dp], blocks')) == s
    ensures GraphOf(inodes', blocks') == GraphOf(inodes, blocks)[dp := GraphOf(inodes, blocks)[dp].(slots := s)]
  {
    hide Slots, Content, MappedTo;
    OneNode(inodes, blocks, inodes', blocks', dp);
    assert NodeOf(inodes'[dp], blocks') == NodeOf(inodes[dp], blocks).(slots := s);
  }

  const DOT_BUFFER: seq<Byte> := [46, 0]
  const DOTDOT_BUFFER: seq<Byte> := [46, 46, 0]

  lemma DotBuffers()
    ensures Readable(DOT_BUFFER, DIRSIZ) && Key(DOT_BUFFER, DIRSIZ) == DOT
    ensures Readable(DOTDOT_BUFFER, DIRSIZ) && Key(DOTDOT_BUFFER, DIRSIZ) == DOTDOT
  {
    KeyIs(DOT_BUFFER, DIRSIZ, 1);
    KeyIs(DOTDOT_BUFFER, DIRSIZ, 2);
  }

  /** Is the name "." or ".."? */
  method IsDots(name: seq<Byte>) returns (r: bool)
    requires Readable(name, DIRSIZ)
    ensures r <==> Key(name, DIRSIZ) == DOT || Key(name, DIRSIZ) == DOTDOT
  {
    hide Key, Readable;
    DotBuffers();
    var a := Strncmp(name, DOT_BUFFER, DIRSIZ);
    var b := Strncmp(name, DOTDOT_BUFFER, DIRSIZ);
    r := a == 0 || b == 0;
  }

  /** When unlink goes ahead: the name is an entry, not a dot, and a directory only if it is empty. */
  ghost predicate CanUnlink(g: Graph, dp: nat, key: seq<Byte>) {
    && dp < |g| && key != DOT && key != DOTDOT && Find(g[dp].slots, key) < |g[dp].slots|
    && var i := g[dp].slots[Find(g[dp].slots, key)].inum;
       i < |g| && (g[i].typ == T_DIR ==> EmptyDir(g[i].slots))
  }

  ghost predicate AllTidy(inodes: seq<Dinode>) {
    forall i :: 0 <= i < |inodes| ==> Tidy(inodes[i])
  }

  /** The record that unlink looks up, and what is known of its inode. */
  lemma Entry(fs: Fs, dp: nat, k: nat)
    requires TreeOk(fs) && LinkedDir(GraphOf(fs.inodes, fs.blocks), dp)
    requires var s := GraphOf(fs.inodes, fs.blocks)[dp].slots;
              k < |s| && s[k].Used? && s[k].name != DOT && s[k].name != DOTDOT
    ensures var g := GraphOf(fs.inodes, fs.blocks);
            var i := g[dp].slots[k].inum;
            && 2 <= k && i < |fs.inodes| && fs.inodes[i].nlink >= 1 && (dp, k) in Refs(g, i) && g[i].typ != 0
            && g[i].typ == fs.inodes[i].typ && g[i].nlink == fs.inodes[i].nlink
            && (g[i].typ == T_DIR ==> LinkedDir(g, i) && IsDir(fs, i) && SlotsOf(fs, i) == g[i].slots)
  {
    hide Shape, Counted, Content, Slots, Refs;
    var g := GraphOf(fs.inodes, fs.blocks);
    FoundEntry(g, dp, k);
    var i := g[dp].slots[k].inum;
    if g[i].typ == T_DIR { DirNode(fs, i); }
  }

  /** The link counts after an entry is gone: one less for its inode, and for the parent of a directory. */
  method DropLinks(fs: Fs, dp: nat, ip: nat)
    requires fs.Sound() && fs.dinodes == fs.inodes && AllTidy(fs.inodes) && dp < |fs.inodes| && ip < |fs.inodes|
    requires fs.inodes[ip].typ != 0 && fs.inodes[dp].typ == T_DIR
    requires fs.open
    modifies fs`inodes, fs`dinodes, fs`log
    ensures fs.Sound() && fs.dinodes == fs.inodes && AllTidy(fs.inodes) && |fs.inodes| == |old(fs.inodes)|
    ensures forall x :: 0 <= x < |fs.inodes| ==> fs.inodes[x].typ == old(fs.inodes)[x].typ
    ensures var g := old(GraphOf(fs.inodes, fs.blocks));
            var g2 := if old(fs.inodes)[ip].typ == T_DIR then WithNlink(g, dp, g[dp].nlink - 1) else g;
            GraphOf(fs.inodes, fs.blocks) == WithNlink(g2, ip, g2[ip].nlink - 1)
    ensures FilesSame(old(fs.inodes), fs.blocks, fs.inodes, fs.blocks)
    ensures LogsAtMost(old(fs.log), fs.log, {fs.IBlock(dp), fs.IBlock(ip)}, 0)
  {
    hide Covered, FsOk, NoHoles, Tidy, FilesSame, LogsAtMost;
    ghost var table := fs.inodes;
    FieldsFiles(table, fs.blocks, dp, table[dp]);
    LogsNothing(fs.log, {fs.IBlock(dp)}, 0);
    if fs.inodes[ip].typ == T_DIR {
      SetNlink(fs, dp, fs.inodes[dp].nlink - 1);
      TidyNlink(table, dp, table[dp].nlink - 1);
    } else {
      assert table[dp := table[dp]] == table;
    }
    table := fs.inodes;
    ghost var log := fs.log;
    SetNlink(fs, ip, fs.inodes[ip].nlink - 1);
    TidyNlink(table, ip, table[ip].nlink - 1);
    LogsThen(old(fs.log), log, fs.log, {fs.IBlock(dp)}, 0, {fs.IBlock(ip)}, 0, {fs.IBlock(dp), fs.IBlock(ip)}, 0);
    FilesTrans(old(fs.inodes), fs.blocks, table, fs.blocks, fs.inodes, fs.blocks);
  }

  /** The tail of sys_unlink, once the entry has been found and may go. */
  method RemoveEntry(fs: Fs, dp: nat, k: nat, ip: nat)
    requires TreeOk(fs) && LinkedDir(GraphOf(fs.inodes, fs.blocks), dp)
    requires var g := GraphOf(fs.inodes, fs.blocks);
             && k < |g[dp].slots| && g[dp].slots[k].Used? && g[dp].slots[k].name != DOT && g[dp].slots[k].name != DOTDOT
             && ip == g[dp].slots[k].inum && ip < |g| && (g[ip].typ == T_DIR ==> EmptyDir(g[ip].slots))
    requires fs.open
    modifies fs`bits, fs`blocks, fs`inodes, fs`dinodes, fs`owner, fs`log
    ensures TreeOk(fs) && GraphOf(fs.inodes, fs.blocks) == UnlinkDone(old(GraphOf(fs.inodes, fs.blocks)), dp, k)
    ensures FilesSame(old(fs.inodes), old(fs.blocks), fs.inodes, fs.blocks)
    ensures |fs.blocks| == |old(fs.blocks)|
    ensures LogsAtMost(old(fs.log), fs.log, fs.Bitmaps() + {fs.IBlock(dp), fs.IBlock(ip)}, 2)
  {
    hide Covered, Inv, FsOk, NoHoles, OthersSame, Content, Slots, AllTidy, EmptyDir, Refs, NodeOf, FilesSame,
         LogsAtMost, BitmapSectors, InodeSector, Tidy, IsDir, SlotsOf, CanUnlink;
    ghost var g := GraphOf(fs.inodes, fs.blocks);
    Entry(fs, dp, k);
    DirType(fs.inodes, fs.blocks, dp);
    UnlinkKeeps(g, dp, k);
    DropEntry(fs, dp, k);
    ghost var table, log := fs.inodes, fs.log;
    DropLinks(fs, dp, ip);
    LogsThen(old(fs.log), log, fs.log, fs.Bitmaps() + {fs.IBlock(dp)}, SlotCost(k), {fs.IBlock(dp), fs.IBlock(ip)}, 0,
             fs.Bitmaps() + {fs.IBlock(dp), fs.IBlock(ip)}, 2);
    FilesTrans(old(fs.inodes), old(fs.blocks), table, fs.blocks, fs.inodes, fs.blocks);
  }

  lemma DirType(inodes: seq<Dinode>, blocks: Image, dp: nat)
    requires LinkedDir(GraphOf(inodes, blocks), dp)
    ensures dp < |inodes| && inodes[dp].typ == T_DIR
  {
  }

  /** Clearing the record, as a step of the tree: the link counts are still the old ones. */
  method DropEntry(fs: Fs, dp: nat, k: nat)
    requires TreeOk(fs) && LinkedDir(GraphOf(fs.inodes, fs.blocks), dp) && fs.open
    requires k < |GraphOf(fs.inodes, fs.blocks)[dp].slots| && GraphOf(fs.inodes, fs.blocks)[dp].slots[k].Used?
    modifies fs`bits, fs`blocks, fs`inodes, fs`dinodes, fs`owner, fs`log
    ensures fs.Sound() && fs.dinodes == fs.inodes && AllTidy(fs.inodes) && |fs.inodes| == |old(fs.inodes)|
    ensures forall x :: 0 <= x < |fs.inodes| ==> fs.inodes[x].typ == old(fs.inodes)[x].typ
    ensures GraphOf(fs.inodes, fs.blocks) == ClearEntry(old(GraphOf(fs.inodes, fs.blocks)), dp, k)
    ensures FilesSame(old(fs.inodes), old(fs.blocks), fs.inodes, fs.blocks)
    ensures |fs.blocks| == |old(fs.blocks)|
    ensures LogsAtMost(old(fs.log), fs.log, fs.Bitmaps() + {fs.IBlock(dp)}, SlotCost(k))
  {
    hide Covered, Inv, FsOk, NoHoles, OthersSame, Content, Slots, AllTidy, NodeOf, FilesSame, LogsAtMost, BitmapSectors,
         InodeSector, SameFields, Tidy, SlotCost;
    DirNode(fs, dp);
    ghost var s := GraphOf(fs.inodes, fs.blocks)[dp].slots;
    ClearSlot(fs, dp, k);
    TidyStep(old(fs.inodes), old(fs.blocks), fs.inodes, fs.blocks, dp);
    LinkedNode(old(fs.inodes), old(fs.blocks), fs.inodes, fs.blocks, dp, s[k := Free]);
    SameTypes(old(fs.inodes), old(fs.blocks), fs.inodes, fs.blocks, dp);
    OthersFiles(old(fs.inodes), old(fs.blocks), fs.inodes, fs.blocks, dp);
  }

  lemma SameTypes(inodes: seq<Dinode>, blocks: Image, inodes': seq<Dinode>, blocks': Image, dp: nat)
    requires OthersSame(inodes, blocks, inodes', blocks', dp) && SameFields(inodes[dp], inodes'[dp])
    ensures |inodes'| == |inodes|
    ensures forall x :: 0 <= x < |inodes| ==> inodes'[x].typ == inodes[x].typ && inodes'[x].nlink == inodes[x].nlink
  {
    hide MappedTo, Content;
  }

  lemma UnlinkKeeps(g: Graph, dp: nat, k: nat)
    requires Inv(g) && LinkedDir(g, dp) && 2 <= k < |g[dp].slots| && g[dp].slots[k].Used?
    requires var i := g[dp].slots[k].inum;
             && i < |g| && g[i].typ != 0 && (dp, k) in Refs(g, i)
             && (g[i].typ == T_DIR ==> LinkedDir(g, i) && EmptyDir(g[i].slots))
    requires LinkedDir(g, ROOT)
    ensures Inv(UnlinkDone(g, dp, k)) && LinkedDir(UnlinkDone(g, dp, k), ROOT)
  {
    hide Inv, Refs, EmptyDir;
    var i := g[dp].slots[k].inum;
    if g[i].typ == T_DIR {
      UnlinkDirKeeps(g, dp, k);
      RootStays(g, dp, k, i);
    } else {
      UnlinkFileKeeps(g, dp, k);
    }
  }

  lemma RootStays(g: Graph, dp: nat, k: nat, i: nat)
    requires Inv(g) && LinkedDir(g, dp) && 2 <= k < |g[dp].slots| && g[dp].slots[k].Used? && i == g[dp].slots[k].inum
    requires LinkedDir(g, i) && EmptyDir(g[i].slots) && LinkedDir(g, ROOT)
    ensures LinkedDir(UnlinkDone(g, dp, k), ROOT)
  {
    hide Inv, Refs, EmptyDir, Shape;
    assert Shape(g) by { hide *; ShapeOf(g); }
    OnlyEntry(g, dp, k, i);
    ParentStays(g, dp, i);
  }

  lemma ShapeOf(g: Graph)
    requires Inv(g)
    ensures Shape(g)
  {
  }

  lemma TidyStep(inodes: seq<Dinode>, blocks: Image, inodes': seq<Dinode>, blocks': Image, dp: nat)
    requires AllTidy(inodes) && OthersSame(inodes, blocks, inodes', blocks', dp) && inodes'[dp].typ == T_DIR
    requires inodes'[dp].size % DENT == 0
    ensures |inodes'| == |inodes| && AllTidy(inodes')
  {
    hide MappedTo, Content;
    forall x | 0 <= x < |inodes'| ensures Tidy(inodes'[x]) {
      if x != dp { assert Tidy(inodes[x]); }
    }
  }

  lemma TidyNlink(inodes: seq<Dinode>, i: nat, n: int)
    requires AllTidy(inodes) && i < |inodes| && inodes[i].typ != 0
    ensures AllTidy(inodes[i := inodes[i].(nlink := n)])
  {
    assert Tidy(inodes[i]);
  }

  /** The transaction of sys_unlink: 0 exactly when the entry may go, else -1. */
  method UnlinkIn(fs: Fs, dp: nat, name: seq<Byte>) returns (r: int)
    requires TreeOk(fs) && LinkedDir(GraphOf(fs.inodes, fs.blocks), dp) && Readable(name, DIRSIZ)
    requires fs.open
    modifies fs`bits, fs`blocks, fs`inodes, fs`dinodes, fs`owner, fs`log
    ensures TreeOk(fs) && |fs.blocks| == |old(fs.blocks)|
    ensures r == if CanUnlink(old(GraphOf(fs.inodes, fs.blocks)), dp, Key(name, DIRSIZ)) then 0 else -1
    ensures r == -1 ==> LogsAtMost(old(fs.log), fs.log, fs.Bitmaps() + {fs.IBlock(dp)}, 0)
    ensures r == 0 ==> var g := old(GraphOf(fs.inodes, fs.blocks));
              var ip := g[dp].slots[Find(g[dp].slots, Key(name, DIRSIZ))].inum;
              LogsAtMost(old(fs.log), fs.log, fs.Bitmaps() + {fs.IBlock(dp), fs.IBlock(ip)}, 2)
    ensures r == -1 ==> fs.inodes == old(fs.inodes) && fs.blocks == old(fs.blocks)
    ensures r == 0 ==>
              var g := old(GraphOf(fs.inodes, fs.blocks));
              CanUnlink(g, dp, Key(name, DIRSIZ)) &&
                  GraphOf(fs.inodes, fs.blocks) == UnlinkDone(g, dp, Find(g[dp].slots, Key(name, DIRSIZ)))
    ensures r == 0 ==> FilesSame(old(fs.inodes), old(fs.blocks), fs.inodes, fs.blocks)
  {
    hide Covered, Inv, FsOk, NoHoles, Content, Slots, AllTidy, Refs, Key, Readable, FilesSame, LogsAtMost,
         BitmapSectors, NodeOf, UnlinkDone, InodeSector;
    LogsNothing(fs.log, fs.Bitmaps() + {fs.IBlock(dp)}, 0);
    ghost var g, key := GraphOf(fs.inodes, fs.blocks), Key(name, DIRSIZ);
    DirNode(fs, dp);
    var dots := IsDots(name);
    if dots {
      return -1;
    }
    var found := Dirlookup(fs, dp, name);
    if found.None? {
      return -1;
    }
    var ip, off := found.value.0, found.value.1;
    ghost var k := Find(g[dp].slots, key);
    assert HasName(g[dp].slots, k, key);
    Entry(fs, dp, k);
    assert fs.inodes[ip].nlink >= 1;                           // else "unlink: nlink < 1"
    if fs.inodes[ip].typ == T_DIR {
      var empty := Isdirempty(fs, ip);
      assert SlotsOf(fs, ip) == g[ip].slots;
      if !empty {
        return -1;
      }
    }
    RemoveEntry(fs, dp, off / DENT, ip);
    return 0;
  }

  /** sys_unlink, from the directory that nameiparent returned: 0 exactly when the entry may go, else -1. */
  method SysUnlink(fs: Fs, dp: nat, name: seq<Byte>) returns (r: int, ghost calls: seq<nat>)
    requires TreeOk(fs) && LinkedDir(GraphOf(fs.inodes, fs.blocks), dp) && Readable(name, DIRSIZ)
    requires !fs.open
    modifies fs
    ensures TreeOk(fs) && !fs.open
    ensures r == if CanUnlink(old(GraphOf(fs.inodes, fs.blocks)), dp, Key(name, DIRSIZ)) then 0 else -1
    ensures Transacted(old(fs.Now()), fs.Now(), fs.ninodes, calls)
    ensures r == -1 ==> fs.inodes == old(fs.inodes) && fs.blocks == old(fs.blocks)
    ensures r == 0 ==>
              var g := old(GraphOf(fs.inodes, fs.blocks));
              CanUnlink(g, dp, Key(name, DIRSIZ)) &&
                  GraphOf(fs.inodes, fs.blocks) == UnlinkDone(g, dp, Find(g[dp].slots, Key(name, DIRSIZ)))
    ensures r == 0 ==> FilesSame(old(fs.inodes), old(fs.blocks), fs.inodes, fs.blocks)
  {
    hide TreeOk, EmptyDir, UnlinkDone, LinkDone, FilesSame, NodeOf, Key, Readable, FreeSlot, LogsAtMost, Covered,
         FitsLog, BitmapSectors;
    BeginTree(fs);
    r := UnlinkIn(fs, dp, name);
    if r == 0 {
      ghost var g := old(GraphOf(fs.inodes, fs.blocks));
      ghost var ip := g[dp].slots[Find(g[dp].slots, Key(name, DIRSIZ))].inum;
      SixFit(fs.log, fs.ninodes, |fs.blocks|, {fs.IBlock(dp), fs.IBlock(ip)}, 2);
    } else {
      SixFit(fs.log, fs.ninodes, |fs.blocks|, {fs.IBlock(dp)}, 0);
    }
    calls := CommitTree(fs);
  }

  /** The inode sectors that link concerns. */
  ghost function LinkInodes(fs: Fs, ip: nat, dp: Option<nat>): set<nat> {
    {fs.IBlock(ip), fs.IBlock(if dp.Some? then dp.value else ip)}
  }

  /** The transaction of sys_link. */
  method LinkIn(fs: Fs, ip: nat, dp: Option<nat>, name: seq<Byte>) returns (r: Option<int>)
    requires TreeOk(fs) && ip < |fs.inodes| && fs.inodes[ip].typ != 0 && Readable(name, DIRSIZ)
    requires dp.Some? ==> LinkedDir(GraphOf(fs.inodes, fs.blocks), dp.value)
    // "dirlink"
    requires dp.Some? ==> DENT * FreeSlot(GraphOf(fs.inodes, fs.blocks)[dp.value].slots) + DENT <= MAXFILE * BSIZE
    requires fs.open
    modifies fs`bits, fs`blocks, fs`inodes, fs`dinodes, fs`owner, fs`log
    ensures r.None? ==> Full(fs.bits, |fs.blocks|)
    ensures r.Some? ==> TreeOk(fs) && (r.value == 0 || r.value == -1)
    ensures r.Some? ==>
              var g := old(GraphOf(fs.inodes, fs.blocks));
              r.value == 0 <==>
                g[ip].typ != T_DIR && dp.Some? && Find(g[dp.value].slots, Key(name, DIRSIZ)) == |g[dp.value].slots|
    ensures r == Some(-1) ==> fs.inodes == old(fs.inodes) && fs.blocks == old(fs.blocks)
    ensures r == Some(0) ==>
              var g := old(GraphOf(fs.inodes, fs.blocks));
              dp.Some? && GraphOf(fs.inodes, fs.blocks) == LinkDone(g, ip, dp.value, Key(name, DIRSIZ))
    ensures r == Some(0) ==> FilesSame(old(fs.inodes), old(fs.blocks), fs.inodes, fs.blocks)
    ensures |fs.blocks| == |old(fs.blocks)|
    ensures LogsAtMost(old(fs.log), fs.log, fs.Bitmaps() + LinkInodes(fs, ip, dp), 2)
  {
    hide Covered, Inv, FsOk, NoHoles, OthersSame, Content, Slots, Full, AllTidy, Key, Readable, Find, FreeSlot,
         LogsAtMost, BitmapSectors, FilesSame;
    ghost var known := fs.Bitmaps() + LinkInodes(fs, ip, dp);
    LogsNothing(fs.log, known, 2);
    if fs.inodes[ip].typ == T_DIR {
      return Some(-1);
    }
    ghost var g, table := GraphOf(fs.inodes, fs.blocks), fs.inodes;
    if dp.Some? { DirNode(fs, dp.value); FindBound(g[dp.value].slots, Key(name, DIRSIZ)); }
    SetNlink(fs, ip, fs.inodes[ip].nlink + 1);
    TidyNlink(table, ip, table[ip].nlink + 1);
    LogsThen(old(fs.log), old(fs.log), fs.log, known, 2, {fs.IBlock(ip)}, 0, known, 2);
    ghost var log := fs.log;
    var bad := true;
    if dp.Some? {
      ghost var table1, blocks1 := fs.inodes, fs.blocks;
      SameSlots(fs, dp.value, g[dp.value].slots);
      var w := Dirlink(fs, dp.value, name, ip);
      LogsThen(old(fs.log), log, fs.log, {fs.IBlock(ip)}, 0, fs.Bitmaps() + {fs.IBlock(dp.value)},
               SlotCost(FreeSlot(g[dp.value].slots)), known, 2);
      if w.None? {
        return None;
      }
      bad := w.value < 0;
      if !bad {
        TidyStep(table1, blocks1, fs.inodes, fs.blocks, dp.value);
        LinkedNode(table1, blocks1, fs.inodes, fs.blocks, dp.value, Linked(g[dp.value].slots, Key(name, DIRSIZ), ip));
        LinkKeeps(g, ip, dp.value, Key(name, DIRSIZ));
        OthersFiles(table1, blocks1, fs.inodes, fs.blocks, dp.value);
        FilesTrans(old(fs.inodes), old(fs.blocks), table1, blocks1, fs.inodes, fs.blocks);
      }
    }
    if bad {
      log := fs.log;
      SetNlink(fs, ip, fs.inodes[ip].nlink - 1);
      LogsThen(old(fs.log), log, fs.log, known, 2, {fs.IBlock(ip)}, 0, known, 2);
      assert fs.inodes == table;
      return Some(-1);
    }
    return Some(0);
  }

  /** sys_link, from the inode of the old path and the directory (if any) of the new one. On failure the link count
      that was raised first is lowered again. */
  method SysLink(fs: Fs, ip: nat, dp: Option<nat>, name: seq<Byte>) returns (r: Option<int>, ghost calls: seq<nat>)
    requires TreeOk(fs) && ip < |fs.inodes| && fs.inodes[ip].typ != 0 && Readable(name, DIRSIZ)
    requires dp.Some? ==> LinkedDir(GraphOf(fs.inodes, fs.blocks), dp.value)
    // "dirlink"
    requires dp.Some? ==> DENT * FreeSlot(GraphOf(fs.inodes, fs.blocks)[dp.value].slots) + DENT <= MAXFILE * BSIZE
    requires !fs.open
    modifies fs
    ensures r.Some? ==> !fs.open
    ensures r.None? ==> Full(fs.bits, |fs.blocks|)
    ensures r.Some? ==> TreeOk(fs) && (r.value == 0 || r.value == -1)
    ensures r.Some? ==>
              var g := old(GraphOf(fs.inodes, fs.blocks));
              r.value == 0 <==>
                g[ip].typ != T_DIR && dp.Some? && Find(g[dp.value].slots, Key(name, DIRSIZ)) == |g[dp.value].slots|
    ensures r == Some(-1) ==> fs.inodes == old(fs.inodes) && fs.blocks == old(fs.blocks)
    ensures r == Some(0) ==>
              var g := old(GraphOf(fs.inodes, fs.blocks));
              dp.Some? && GraphOf(fs.inodes, fs.blocks) == LinkDone(g, ip, dp.value, Key(name, DIRSIZ))
    ensures r == Some(0) ==> FilesSame(old(fs.inodes), old(fs.blocks), fs.inodes, fs.blocks)
    ensures r.Some? ==> Transacted(old(fs.Now()), fs.Now(), fs.ninodes, calls)
  {
    hide TreeOk, CanUnlink, UnlinkDone, LinkDone, FilesSame, NodeOf, Key, Find, Readable, FreeSlot, Full, LogsAtMost,
         Covered, FitsLog, BitmapSectors;
    BeginTree(fs);
    r := LinkIn(fs, ip, dp, name);
    calls := [];
    if r.Some? {
      SixFit(fs.log, fs.ninodes, |fs.blocks|, LinkInodes(fs, ip, dp), 2);
      calls := CommitTree(fs);
    }
  }

  lemma FindBound(s: seq<Slot>, name: seq<Byte>)
    ensures Find(s, name) <= |s|
  {
  }

  /** The records of a directory, read off the graph. */
  lemma SameSlots(fs: Fs, dp: nat, s: seq<Slot>)
    requires fs.Sound() && dp < |fs.inodes| && fs.inodes[dp].typ == T_DIR && fs.inodes[dp].size % DENT == 0
    requires GraphOf(fs.inodes, fs.blocks)[dp].slots == s
    ensures IsDir(fs, dp) && SlotsOf(fs, dp) == s
  {
    hide Slots, Content;
  }

  function FreshInode(typ: int, major: int, minor: int, nlink: int): Dinode {
    Dinode(typ, major, minor, nlink, 0, seq(NDIRECT + 1, _ => 0))
  }

  ghost predicate NoFreeInode(inodes: seq<Dinode>) {
    forall i :: 1 <= i < |inodes| ==> inodes[i].typ != 0
  }

  /** Replacing an inode that owns nothing by another that owns nothing. */
  lemma FreshKeepsFs(fs: Fs, i: nat, ip: Dinode)
    requires fs.Sound() && i < |fs.inodes| && fs.inodes[i].addrs == ip.addrs && fs.inodes[i].size == ip.size == 0
    requires ip.typ != 0
    ensures FsOk(fs.bits, fs.blocks, fs.inodes[i := ip], fs.owner, fs.meta) && NoHoles(fs.inodes[i := ip], fs.blocks)
    ensures GraphOf(fs.inodes[i := ip], fs.blocks) == GraphOf(fs.inodes, fs.blocks)[i := Node(ip.typ, ip.nlink, [])]
  {
    hide Covered, FsOk, NoHoles, OthersSame, Content, Slots;
    FieldsKeepFs(fs.bits, fs.blocks, fs.inodes, fs.owner, fs.meta, i, ip);
    OneNode(fs.inodes, fs.blocks, fs.inodes[i := ip], fs.blocks, i);
    NoSlots(ip, fs.blocks);
  }

  lemma NoSlots(ip: Dinode, blocks: Image)
    requires ip.size == 0
    ensures NodeOf(ip, blocks) == Node(ip.typ, ip.nlink, [])
  {
    if ip.typ == T_DIR {
      assert Content(ip, blocks) == [];
      assert Slots(Content(ip, blocks)) == [];
    }
  }

  /** ialloc and the first lines of create: the first free inode, with one link. None: no free inode. */
  method NewInode(fs: Fs, typ: int, major: int, minor: int) returns (r: Option<nat>)
    requires TreeOk(fs) && typ != 0
    requires fs.open
    modifies fs`inodes, fs`dinodes, fs`log
    ensures r.None? ==> NoFreeInode(fs.inodes) && fs.inodes == old(fs.inodes)
    ensures r.Some? ==>
              && 1 <= r.value < |old(fs.inodes)| && old(fs.inodes)[r.value].typ == 0
              && forall j :: 1 <= j < r.value ==> old(fs.inodes)[j].typ != 0
    ensures r.Some? ==>
              && fs.Sound() && fs.dinodes == fs.inodes
              && fs.inodes == old(fs.inodes)[r.value := FreshInode(typ, major, minor, 1)] && AllTidy(fs.inodes)
    ensures r.Some? ==> GraphOf(fs.inodes, fs.blocks) == old(GraphOf(fs.inodes, fs.blocks))[r.value := Node(typ, 1, [])]
    ensures r.Some? ==> FilesSame(old(fs.inodes), fs.blocks, fs.inodes, fs.blocks)
    ensures fs.Logged() && (r.None? ==> fs.log == old(fs.log))
    ensures r.Some? ==> LogsAtMost(old(fs.log), fs.log, {fs.IBlock(r.value)}, 0)
  {
    hide Covered, FsOk, NoHoles, Inv, Slots, Content, FilesSame;
    var i := 1;
    while i < |fs.inodes| && fs.inodes[i].typ != 0
      invariant 1 <= i <= |fs.inodes| && forall j :: 1 <= j < i ==> fs.inodes[j].typ != 0
    {
      i := i + 1;
    }
    if i == |fs.inodes| {
      return None;
    }
    assert Tidy(fs.inodes[i]);
    var ip := FreshInode(typ, major, minor, 1);
    FreshKeepsFs(fs, i, ip);
    FieldsFiles(fs.inodes, fs.blocks, i, ip);
    assert Tidy(ip);
    fs.inodes := fs.inodes[i := ip];
    fs.Iupdate(i);
    assert LoggedOnly(old(fs.log), fs.log, {fs.IBlock(i)}, {});
    return Some(i);
  }

  lemma FindDots(i: nat)
    ensures Find([], DOT) == 0 && FreeSlot([]) == 0 && Linked([], DOT, i) == [Used(DOT, i)]
    ensures Find([Used(DOT, i)], DOTDOT) == 1 && FreeSlot([Used(DOT, i)]) == 1
    ensures forall dp: nat :: Linked([Used(DOT, i)], DOTDOT, dp) == [Used(DOT, i), Used(DOTDOT, dp)]
  {
    assert [Used(DOT, i)][..0] == [];
    assert !HasName([Used(DOT, i)], 0, DOTDOT);
    assert [Used(DOT, i)][1..] == [];
  }

  /** create's entries "." and ".." of a new directory. */
  method MakeDots(fs: Fs, i: nat, dp: nat) returns (ok: bool)
    requires fs.Sound() && fs.dinodes == fs.inodes && AllTidy(fs.inodes) && |fs.inodes| <= 0x1_0000
    requires 0 < i < |fs.inodes| && 0 < dp < |fs.inodes| && fs.inodes[i].typ == T_DIR && fs.inodes[i].size == 0
    requires fs.open
    modifies fs`bits, fs`blocks, fs`inodes, fs`dinodes, fs`owner, fs`log
    ensures !ok ==> Full(fs.bits, |fs.blocks|)
    ensures ok ==> fs.Sound() && fs.dinodes == fs.inodes && AllTidy(fs.inodes) && |fs.inodes| == |old(fs.inodes)|
    ensures ok ==>
              var g := old(GraphOf(fs.inodes, fs.blocks));
              GraphOf(fs.inodes, fs.blocks) == g[i := g[i].(slots := [Used(DOT, i), Used(DOTDOT, dp)])]
    ensures ok ==> forall x :: 0 <= x < |fs.inodes| && x != i ==> fs.inodes[x] == old(fs.inodes)[x]
    ensures ok ==> FilesSame(old(fs.inodes), old(fs.blocks), fs.inodes, fs.blocks)
    ensures fs.Logged() && |fs.blocks| == |old(fs.blocks)|
    ensures LogsAtMost(old(fs.log), fs.log, fs.Bitmaps() + {fs.IBlock(i)}, 2)
  {
    hide Covered, Inv, FsOk, NoHoles, Content, Slots, Full, Key, Readable, Find, FreeSlot, Linked, MappedTo, FilesSame,
         LogsAtMost, BitmapSectors;
    ghost var g := GraphOf(fs.inodes, fs.blocks);
    DotBuffers();
    FindDots(i);
    NoSlots(fs.inodes[i], fs.blocks);
    SameSlots(fs, i, []);
    var a := Dirlink(fs, i, DOT_BUFFER, i);
    ghost var known, log := fs.Bitmaps() + {fs.IBlock(i)}, fs.log;
    LogsNothing(log, known, 1);
    LogsThen(old(fs.log), log, log, known, SlotCost(0), known, 1, known, 2);
    if a.None? {
      return false;
    }
    TidyStep(old(fs.inodes), old(fs.blocks), fs.inodes, fs.blocks, i);
    OthersFiles(old(fs.inodes), old(fs.blocks), fs.inodes, fs.blocks, i);
    LinkedNode(old(fs.inodes), old(fs.blocks), fs.inodes, fs.blocks, i, [Used(DOT, i)]);
    ghost var table, blocks := fs.inodes, fs.blocks;
    SameSlots(fs, i, [Used(DOT, i)]);
    var b := Dirlink(fs, i, DOTDOT_BUFFER, dp);
    LogsThen(old(fs.log), log, fs.log, known, SlotCost(0), known, SlotCost(1), known, 2);
    if b.None? {
      return false;
    }
    TidyStep(table, blocks, fs.inodes, fs.blocks, i);
    OthersFiles(table, blocks, fs.inodes, fs.blocks, i);
    FilesTrans(old(fs.inodes), old(fs.blocks), table, blocks, fs.inodes, fs.blocks);
    LinkedNode(table, blocks, fs.inodes, fs.blocks, i, [Used(DOT, i), Used(DOTDOT, dp)]);
    return true;
  }

  /** create, from the directory that nameiparent returned: the inode number of the new file, or of the existing one
      when both are plain files, else 0. None: no free inode or no free block. */
  method Create(fs: Fs, dp: nat, name: seq<Byte>, typ: int, major: int, minor: int) returns (r: Option<nat>)
    requires TreeOk(fs) && LinkedDir(GraphOf(fs.inodes, fs.blocks), dp) && Readable(name, DIRSIZ) && typ != 0
    requires DENT * FreeSlot(GraphOf(fs.inodes, fs.blocks)[dp].slots) + DENT <= MAXFILE * BSIZE  // "create: dirlink"
    requires fs.open
    modifies fs`bits, fs`blocks, fs`inodes, fs`dinodes, fs`owner, fs`log
    ensures r.None? ==> Full(fs.bits, |fs.blocks|) || (NoFreeInode(fs.inodes) && fs.inodes == old(fs.inodes))
    ensures r.Some? ==> TreeOk(fs)
    ensures r.Some? ==>
              var g, key := old(GraphOf(fs.inodes, fs.blocks)), Key(name, DIRSIZ);
              var k := Find(g[dp].slots, key);
              if k < |g[dp].slots| then
                && fs.inodes == old(fs.inodes) && fs.blocks == old(fs.blocks)
                && var i := g[dp].slots[k].inum;
                      r.value == if typ == T_FILE && i < |g| && g[i].typ == T_FILE then i else 0
              else
                && 1 <= r.value < |g| && g[r.value].typ == 0 && r.value != dp
                && GraphOf(fs.inodes, fs.blocks) == CreateDone(g, r.value, dp, key, typ)
                && (typ == T_FILE ==> fs.inodes[r.value].size == 0)
                && fs.inodes[r.value].typ == typ && fs.inodes[r.value].major == major
                && fs.inodes[r.value].minor == minor
    ensures r.Some? ==> FilesSame(old(fs.inodes), old(fs.blocks), fs.inodes, fs.blocks)
    ensures fs.Logged() && |fs.blocks| == |old(fs.blocks)|
    ensures exists i: nat :: LogsAtMost(old(fs.log), fs.log, fs.Bitmaps() + {fs.IBlock(i), fs.IBlock(dp)}, 4)
  {
    hide Covered, Inv, FsOk, NoHoles, OthersSame, Content, Slots, Full, AllTidy, Key, Readable, Find, FreeSlot, Linked,
         MappedTo, LogsAtMost, BitmapSectors;
    LogsNothing(fs.log, fs.Bitmaps() + {fs.IBlock(0), fs.IBlock(dp)}, 4);
    ghost var g, key := GraphOf(fs.inodes, fs.blocks), Key(name, DIRSIZ);
    DirNode(fs, dp);
    FindBound(g[dp].slots, key);
    var found := Dirlookup(fs, dp, name);
    if found.Some? {
      var ip := found.value.0;
      return Some(if typ == T_FILE && ip < |fs.inodes| && fs.inodes[ip].typ == T_FILE then ip else 0);
    }
    r := NewInode(fs, typ, major, minor);
    if r.None? {
      return;
    }
    ghost var table, log := fs.inodes, fs.log;
    var ok := Attach(fs, dp, name, r.value, typ, g);
    ghost var known := fs.Bitmaps() + {fs.IBlock(r.value), fs.IBlock(dp)};
    LogsThen(old(fs.log), log, fs.log, {fs.IBlock(r.value)}, 0, known, 4, known, 4);
    if !ok {
      return None;
    }
    FilesTrans(old(fs.inodes), old(fs.blocks), table, old(fs.blocks), fs.inodes, fs.blocks);
  }

  /** sys_mkdir, from the directory that nameiparent returned: create in a transaction of its own. It runs out of blocks
      only if few were free before. */
  method SysMkdir(fs: Fs, dp: nat, name: seq<Byte>) returns (r: Option<int>, inum: nat, ghost calls: seq<nat>)
    requires TreeOk(fs) && LinkedDir(GraphOf(fs.inodes, fs.blocks), dp) && Readable(name, DIRSIZ) && !fs.open
    requires DENT * FreeSlot(GraphOf(fs.inodes, fs.blocks)[dp].slots) + DENT <= MAXFILE * BSIZE  // "create: dirlink"
    modifies fs
    ensures r.None? ==>
              var size := |old(fs.blocks)|;
              NoFreeInode(old(fs.inodes)) || FewFree(old(fs.bits), size, 6 + (size + BPB - 1) / BPB)
    ensures r.Some? ==> TreeOk(fs) && !fs.open && Transacted(old(fs.Now()), fs.Now(), fs.ninodes, calls)
    ensures r.Some? ==>
              var g, key := old(GraphOf(fs.inodes, fs.blocks)), Key(name, DIRSIZ);
              if Find(g[dp].slots, key) < |g[dp].slots| then
                r.value == -1 && fs.inodes == old(fs.inodes) && fs.blocks == old(fs.blocks)
              else
                && r.value == 0 && 1 <= inum < |g| && g[inum].typ == 0 && inum != dp
                && GraphOf(fs.inodes, fs.blocks) == CreateDone(g, inum, dp, key, T_DIR)
    ensures r.Some? ==> FilesSame(old(fs.inodes), old(fs.blocks), fs.inodes, fs.blocks)
  {
    hide TreeOk, CreateDone, FilesSame, NodeOf, Key, Find, Readable, FreeSlot, Full, LogsAtMost, Covered, FitsLog,
         BitmapSectors, NoFreeInode, FewFree;
    BeginTree(fs);
    var ip := Create(fs, dp, name, T_DIR, 0, 0);
    ghost var i: nat :| LogsAtMost([], fs.log, fs.Bitmaps() + {fs.IBlock(i), fs.IBlock(dp)}, 4);
    if ip.None? {
      if Full(fs.bits, |fs.blocks|) {
        FewLeft(fs.home, fs.Now(), fs.ninodes, fs.log, {fs.IBlock(i), fs.IBlock(dp)}, 4);
      }
      return None, 0, [];
    }
    inum := ip.value;
    SixFit(fs.log, fs.ninodes, |fs.blocks|, {fs.IBlock(i), fs.IBlock(dp)}, 4);
    calls := CommitTree(fs);
    r := Some(if inum == 0 then -1 else 0);
  }

  /** At most n blocks are free. */
  ghost predicate FewFree(bits: seq<Bits8>, size: nat, n: nat) {
    forall free: set<nat> ::
      (forall b :: b in free ==> b < size && b / 8 < |bits| && !Bitmap.Used(bits, b)) ==> |free| <= n
  }

  /** When a transaction has filled the disk, all the blocks that were free have been logged. */
  lemma FewLeft(home: Stored, now: Stored, ninodes: nat, log: seq<nat>, known: set<nat>, n: nat)
    requires Covered(home, now, ninodes, log) && Full(now.bits, |now.blocks|) && |known| + n <= 6
    requires LogsAtMost([], log, BitmapSectors(ninodes, |now.blocks|) + known, n)
    ensures FewFree(home.bits, |home.blocks|, 6 + (|now.blocks| + BPB - 1) / BPB)
  {
    hide BitmapSectors, Bitmap.Used;
    var more :| |more| <= n && LoggedOnly([], log, BitmapSectors(ninodes, |now.blocks|) + known, more);
    BitmapCount(ninodes, |now.blocks|);
    var all := BitmapSectors(ninodes, |now.blocks|) + known + more;
    forall free: set<nat> | forall b :: b in free ==>
        b < |home.blocks| && b / 8 < |home.bits| && !Bitmap.Used(home.bits, b)
      ensures |free| <= 6 + (|now.blocks| + BPB - 1) / BPB {
      assert free <= all;
      SmallerSet(free, all);
    }
  }

  /** A new directory gets its dots, and its parent a link for "..". */
  method Prepare(fs: Fs, dp: nat, i: nat, typ: int, ghost g: Graph) returns (ok: bool)
    requires fs.Sound() && fs.dinodes == fs.inodes && AllTidy(fs.inodes) && |g| == |fs.inodes| <= 0x1_0000
    requires ROOT < i < |g| && i != dp
    requires fs.inodes[i].typ == typ && fs.inodes[i].size == 0 && fs.inodes[0].typ == 0 && 0 < dp < |g|
    requires fs.inodes[dp].typ == T_DIR
    requires GraphOf(fs.inodes, fs.blocks) == g[i := Node(typ, 1, [])]
    requires fs.open
    modifies fs`bits, fs`blocks, fs`inodes, fs`dinodes, fs`owner, fs`log
    ensures !ok ==> Full(fs.bits, |fs.blocks|)
    ensures ok ==>
              && fs.Sound() && fs.dinodes == fs.inodes && AllTidy(fs.inodes) && |g| == |fs.inodes|
              && fs.inodes[0].typ == 0 && fs.inodes[dp].typ == T_DIR
    ensures ok ==> GraphOf(fs.inodes, fs.blocks) == CreateReady(g, i, dp, typ)
    ensures ok ==> FilesSame(old(fs.inodes), old(fs.blocks), fs.inodes, fs.blocks)
    ensures fs.Logged() && |fs.blocks| == |old(fs.blocks)|
    ensures LogsAtMost(old(fs.log), fs.log, fs.Bitmaps() + {fs.IBlock(i), fs.IBlock(dp)}, 2)
  {
    hide Covered, FsOk, NoHoles, Full, Tidy, FilesSame, LogsAtMost, BitmapSectors;
    ghost var known := fs.Bitmaps() + {fs.IBlock(i), fs.IBlock(dp)};
    LogsNothing(fs.log, known, 2);
    ghost var table := fs.inodes;
    FieldsFiles(table, fs.blocks, dp, table[dp]);
    assert table[dp := table[dp]] == table;
    if typ == T_DIR {
      SetNlink(fs, dp, fs.inodes[dp].nlink + 1);
      TidyNlink(table, dp, table[dp].nlink + 1);
      ghost var table1, log := fs.inodes, fs.log;
      ok := MakeDots(fs, i, dp);
      LogsThen(old(fs.log), log, fs.log, {fs.IBlock(dp)}, 0, fs.Bitmaps() + {fs.IBlock(i)}, 2, known, 2);
      if !ok {
        return;
      }
      FilesTrans(old(fs.inodes), old(fs.blocks), table1, old(fs.blocks), fs.inodes, fs.blocks);
    }
    assert GraphOf(fs.inodes, fs.blocks) == CreateReady(g, i, dp, typ);
    return true;
  }

  /** The rest of create: the dots of a new directory, and the entry for the new inode. */
  method Attach(fs: Fs, dp: nat, name: seq<Byte>, i: nat, typ: int, ghost g: Graph) returns (ok: bool)
    requires fs.Sound() && fs.dinodes == fs.inodes && AllTidy(fs.inodes) && |g| == |fs.inodes| <= 0x1_0000
    requires ROOT < i < |g| && i != dp
    requires fs.inodes[i].typ == typ && fs.inodes[i].size == 0 && typ != 0 && fs.inodes[0].typ == 0
    requires Inv(g) && LinkedDir(g, dp) && LinkedDir(g, ROOT) && g[i].typ == 0 && Readable(name, DIRSIZ)
    requires Find(g[dp].slots, Key(name, DIRSIZ)) == |g[dp].slots|
    requires GraphOf(fs.inodes, fs.blocks) == g[i := Node(typ, 1, [])]
    requires DENT * FreeSlot(g[dp].slots) + DENT <= MAXFILE * BSIZE
    requires fs.inodes[dp].typ == T_DIR && dp != 0
    requires fs.open
    modifies fs`bits, fs`blocks, fs`inodes, fs`dinodes, fs`owner, fs`log
    ensures !ok ==> Full(fs.bits, |fs.blocks|)
    ensures ok ==> TreeOk(fs) && GraphOf(fs.inodes, fs.blocks) == CreateDone(g, i, dp, Key(name, DIRSIZ), typ)
    ensures ok ==> FilesSame(old(fs.inodes), old(fs.blocks), fs.inodes, fs.blocks)
    ensures fs.Logged() && |fs.blocks| == |old(fs.blocks)|
    ensures LogsAtMost(old(fs.log), fs.log, fs.Bitmaps() + {fs.IBlock(i), fs.IBlock(dp)}, 4)
  {
    hide Covered, Inv, FsOk, NoHoles, OthersSame, Content, Slots, Full, AllTidy, Key, Readable, Find, FreeSlot, Linked,
         NodeOf, FilesSame, LogsAtMost, BitmapSectors;
    ok := Prepare(fs, dp, i, typ, g);
    ghost var known, log := fs.Bitmaps() + {fs.IBlock(i), fs.IBlock(dp)}, fs.log;
    LogsNothing(log, known, 2);
    LogsThen(old(fs.log), log, log, known, 2, known, 2, known, 4);
    if !ok {
      return;
    }
    WholeDir(fs.inodes, dp);
    SameSlots(fs, dp, g[dp].slots);
    ghost var table, blocks := fs.inodes, fs.blocks;
    var w := Dirlink(fs, dp, name, i);
    LogsThen(old(fs.log), log, fs.log, known, 2, fs.Bitmaps() + {fs.IBlock(dp)}, SlotCost(FreeSlot(g[dp].slots)), known,
             4);
    if w.None? {
      return false;
    }
    TidyStep(table, blocks, fs.inodes, fs.blocks, dp);
    LinkedNode(table, blocks, fs.inodes, fs.blocks, dp, Linked(g[dp].slots, Key(name, DIRSIZ), i));
    CreateKeeps(g, i, dp, Key(name, DIRSIZ), typ);
    KeepsRoot(g, i, dp, Key(name, DIRSIZ), typ);
    SameZero(table, blocks, fs.inodes, fs.blocks, dp);
    OthersFiles(table, blocks, fs.inodes, fs.blocks, dp);
    FilesTrans(old(fs.inodes), old(fs.blocks), table, blocks, fs.inodes, fs.blocks);
    return true;
  }

  lemma WholeDir(inodes: seq<Dinode>, dp: nat)
    requires AllTidy(inodes) && dp < |inodes| && inodes[dp].typ == T_DIR
    ensures inodes[dp].size % DENT == 0
  {
    assert Tidy(inodes[dp]);
  }

  lemma KeepsRoot(g: Graph, i: nat, dp: nat, name: seq<Byte>, typ: int)
    requires i < |g| && dp < |g| && i != dp && i != ROOT && LinkedDir(g, ROOT)
    ensures LinkedDir(CreateDone(g, i, dp, name, typ), ROOT)
  {
  }

  lemma SameZero(inodes: seq<Dinode>, blocks: Image, inodes': seq<Dinode>, blocks': Image, dp: nat)
    requires OthersSame(inodes, blocks, inodes', blocks', dp) && dp != 0
    ensures inodes'[0] == inodes[0]
  {
    hide MappedTo, Content;
  }
}
