/** The truncate program: open the old file, unlink it, create a new one under the same name, and copy. */
module TruncateProgram {
  import opened Optional
  import opened Blocks
  import opened BlockMap
  import opened FileContent
  import opened FileSystem
  import opened BoundedNames
  import opened Directory
  import opened Links
  import opened SysFile
  import opened InodeCache

  /** A byte sequence cut or filled up with zeros to n bytes. */
  function Resized(c: seq<Byte>, n: nat): (r: seq<Byte>)
    ensures |r| == n && forall p :: 0 <= p < n ==> r[p] == if p < |c| then c[p] else 0
  {
    if n <= |c| then c[..n] else c + seq(n - |c|, _ => 0)
  }

  /** Writing to a plain file leaves the directory tree as it is. */
  lemma FileWriteKeeps(inodes: seq<Dinode>, blocks: Image, inodes': seq<Dinode>, blocks': Image, i: nat, off: nat,
                       data: seq<Byte>)
    requires Replaced(inodes, blocks, inodes', blocks', i, off, data) && inodes[i].typ == T_FILE && AllTidy(inodes)
    ensures |inodes'| == |inodes| && AllTidy(inodes') && GraphOf(inodes', blocks') == GraphOf(inodes, blocks)
    ensures Content(inodes'[i], blocks') == Spliced(Content(inodes[i], blocks), off, data)
    ensures forall x :: 0 <= x < |inodes| && x != i ==>
              inodes'[x] == inodes[x] && Content(inodes'[x], blocks') == Content(inodes[x], blocks)
    ensures inodes'[i].typ == inodes[i].typ && inodes'[i].nlink == inodes[i].nlink
    ensures inodes'[i].size == Max(inodes[i].size, off + |data|)
  {
    hide MappedTo, Content, Spliced, Slots;
    forall x | 0 <= x < |inodes'| ensures Tidy(inodes'[x]) {
      if x != i { assert Tidy(inodes[x]); }
    }
    OneNode(inodes, blocks, inodes', blocks', i);
  }

  lemma SplicedEnd(c: seq<Byte>, data: seq<Byte>)
    ensures Spliced(c, |c|, data) == c + data
  {
  }

  /** write() at the end of a plain file. */
  method Append(fs: Fs, i: nat, data: seq<Byte>) returns (ok: bool)
    requires TreeOk(fs) && 0 < i < |fs.inodes| && fs.inodes[i].typ == T_FILE
    requires fs.inodes[i].size + |data| <= MAXFILE * BSIZE && data != []
    requires !fs.open
    modifies fs
    ensures ok ==> !fs.open
    ensures !ok ==> Full(fs.bits, |fs.blocks|)
    ensures ok ==>
              && TreeOk(fs) && |fs.inodes| == |old(fs.inodes)|
              && GraphOf(fs.inodes, fs.blocks) == old(GraphOf(fs.inodes, fs.blocks))
    ensures ok ==> Content(fs.inodes[i], fs.blocks) == old(Content(fs.inodes[i], fs.blocks)) + data
    ensures ok ==> forall x :: 0 <= x < |fs.inodes| && x != i ==>
              fs.inodes[x] == old(fs.inodes)[x] &&
                  Content(fs.inodes[x], fs.blocks) == Content(old(fs.inodes)[x], old(fs.blocks))
    ensures ok ==> fs.inodes[i].typ == T_FILE && fs.inodes[i].size == old(fs.inodes)[i].size + |data|
  {
    hide Covered, FsOk, NoHoles, Inv, Content, Slots, Replaced, Full, Spliced, AllTidy, NodeOf;
    var size := fs.inodes[i].size;
    var r, off, pieces := fs.Filewrite(i, size, data);
    if r.None? {
      return false;
    }
    assert data[..off - size] == data;
    FileWriteKeeps(old(fs.inodes), old(fs.blocks), fs.inodes, fs.blocks, i, size, data);
    ContentSize(old(fs.inodes)[i], old(fs.blocks));
    SplicedEnd(Content(old(fs.inodes)[i], old(fs.blocks)), data);
    return true;
  }

  lemma ContentSize(ip: Dinode, blocks: Image)
    ensures |Content(ip, blocks)| == ip.size
  {
  }

  /** The copy loop and the padding loop: file i1, empty at first, becomes file i0 resized. */
  method CopyResized(fs: Fs, i0: nat, i1: nat, size: nat) returns (ok: bool)
    requires TreeOk(fs) && 0 < i0 < |fs.inodes| && 0 < i1 < |fs.inodes| && i0 != i1 && size <= MAXFILE * BSIZE
    requires fs.inodes[i0].typ == T_FILE && fs.inodes[i1].typ == T_FILE && fs.inodes[i1].size == 0
    requires !fs.open
    modifies fs
    ensures ok ==> !fs.open
    ensures !ok ==> Full(fs.bits, |fs.blocks|)
    ensures ok ==>
              && TreeOk(fs) && |fs.inodes| == |old(fs.inodes)|
              && GraphOf(fs.inodes, fs.blocks) == old(GraphOf(fs.inodes, fs.blocks))
    ensures ok ==>
              && Content(fs.inodes[i1], fs.blocks) == Resized(old(Content(fs.inodes[i0], fs.blocks)), size)
              && fs.inodes[i1].typ == T_FILE
    ensures ok ==>
              var c, d := old(Content(fs.inodes[i0], fs.blocks)), Content(fs.inodes[i1], fs.blocks);
              |d| == size && forall p :: 0 <= p < size ==> d[p] == if p < |c| then c[p] else 0
    ensures ok ==> forall x :: 0 <= x < |fs.inodes| && x != i1 ==>
              fs.inodes[x] == old(fs.inodes)[x] &&
                  Content(fs.inodes[x], fs.blocks) == Content(old(fs.inodes)[x], old(fs.blocks))
  {
    hide Covered, FsOk, NoHoles, Inv, Content, Slots, Full, AllTidy, NodeOf, MappedTo;
    ghost var c := Content(fs.inodes[i0], fs.blocks);
    SizeBound(fs, i0);
    ContentSize(fs.inodes[i0], fs.blocks);
    ContentSize(fs.inodes[i1], fs.blocks);
    var nowsize: nat, off: nat := size, 0;
    assert Content(fs.inodes[i1], fs.blocks) == c[..0];
    while true
      invariant nowsize <= size && off <= |c| && TreeOk(fs) && !fs.open && |fs.inodes| == |old(fs.inodes)|
      invariant GraphOf(fs.inodes, fs.blocks) == old(GraphOf(fs.inodes, fs.blocks))
      invariant fs.inodes[i1].typ == T_FILE && fs.inodes[i1].size == size - nowsize
      invariant Content(fs.inodes[i0], fs.blocks) == c
      invariant size - nowsize <= off && (nowsize > 0 ==> off == size - nowsize)
      invariant Content(fs.inodes[i1], fs.blocks) == c[..size - nowsize]
      invariant forall x :: 0 <= x < |fs.inodes| && x != i1 ==>
                  fs.inodes[x] == old(fs.inodes)[x] &&
                      Content(fs.inodes[x], fs.blocks) == Content(old(fs.inodes)[x], old(fs.blocks))
      decreases |c| - off
    {
      var buf := fs.Readi(i0, off, 512);
      var n := |buf.value|;
      ghost var at := off;
      ReadAll(c, at, n, buf.value);
      off := off + n;
      if n == 0 || nowsize == 0 {
        break;
      }
      if n > nowsize {
        n := nowsize;
      }
      nowsize := nowsize - n;
      var w := Append(fs, i1, buf.value[..n]);
      if !w {
        return false;
      }
      Taken(c, at, buf.value, n);
    }
    ok := Pad(fs, i1, nowsize, c, size);
  }

  lemma ReadAll(c: seq<Byte>, at: nat, n: nat, buf: seq<Byte>)
    requires at <= |c| && n == |buf| && buf == c[at..Min(at + 512, |c|)]
    ensures at + n <= |c| && buf == c[at..at + n] && (n == 0 <==> at == |c|)
  {
  }

  lemma Taken(c: seq<Byte>, at: nat, buf: seq<Byte>, n: nat)
    requires at + |buf| <= |c| && buf == c[at..at + |buf|] && n <= |buf|
    ensures c[..at] + buf[..n] == c[..at + n]
  {
  }

  lemma SizeBound(fs: Fs, i: nat)
    requires fs.Sound() && i < |fs.inodes|
    ensures fs.inodes[i].size <= MAXFILE * BSIZE
  {
    assert MappedTo(fs.inodes[i], fs.blocks, fs.inodes[i].size);
  }

  /** The padding loop: one zero byte at a time. */
  method Pad(fs: Fs, i1: nat, count: nat, ghost c: seq<Byte>, ghost size: nat) returns (ok: bool)
    requires TreeOk(fs) && 0 < i1 < |fs.inodes| && fs.inodes[i1].typ == T_FILE && count <= size <= MAXFILE * BSIZE
    requires fs.inodes[i1].size == size - count <= |c| && (count > 0 ==> size - count == |c|)
    requires Content(fs.inodes[i1], fs.blocks) == c[..size - count]
    requires !fs.open
    modifies fs
    ensures ok ==> !fs.open
    ensures !ok ==> Full(fs.bits, |fs.blocks|)
    ensures ok ==>
              && TreeOk(fs) && |fs.inodes| == |old(fs.inodes)|
              && GraphOf(fs.inodes, fs.blocks) == old(GraphOf(fs.inodes, fs.blocks))
    ensures ok ==> Content(fs.inodes[i1], fs.blocks) == Resized(c, size) && fs.inodes[i1].typ == T_FILE
    ensures ok ==> forall x :: 0 <= x < |fs.inodes| && x != i1 ==>
              fs.inodes[x] == old(fs.inodes)[x] &&
                  Content(fs.inodes[x], fs.blocks) == Content(old(fs.inodes)[x], old(fs.blocks))
  {
    hide Covered, FsOk, NoHoles, Inv, Content, Slots, Full, AllTidy, NodeOf, MappedTo;
    var left: nat := count;
    assert c[..size - count] == Resized(c, size - count);
    while left > 0
      invariant left <= count && TreeOk(fs) && !fs.open && |fs.inodes| == |old(fs.inodes)|
      invariant GraphOf(fs.inodes, fs.blocks) == old(GraphOf(fs.inodes, fs.blocks))
      invariant fs.inodes[i1].typ == T_FILE && fs.inodes[i1].size == size - left
      invariant Content(fs.inodes[i1], fs.blocks) == Resized(c, size - left)
      invariant forall x :: 0 <= x < |fs.inodes| && x != i1 ==>
                  fs.inodes[x] == old(fs.inodes)[x] &&
                      Content(fs.inodes[x], fs.blocks) == Content(old(fs.inodes)[x], old(fs.blocks))
    {
      ok := Append(fs, i1, [0]);
      if !ok {
        return;
      }
      assert Resized(c, size - left) + [0] == Resized(c, size - left + 1);
      left := left - 1;
    }
    return true;
  }

  /** The name of a plain file is not one of the dots. */
  lemma FileEntry(g: Graph, dp: nat, key: seq<Byte>)
    requires Inv(g) && LinkedDir(g, dp) && Find(g[dp].slots, key) < |g[dp].slots|
    requires var i := g[dp].slots[Find(g[dp].slots, key)].inum; i < |g| && g[i].typ == T_FILE
    ensures CanUnlink(g, dp, key) && HasName(g[dp].slots, Find(g[dp].slots, key), key)
  {
    hide Refs, OneEntry, HasEntry, EntryOk, Counted;
    DotSlots(g, |g|, dp);
    var k := Find(g[dp].slots, key);
    assert HasName(g[dp].slots, k, key);
    FindIs(g[dp].slots, DOT, 0);
    FindIs(g[dp].slots, DOTDOT, 1);
  }

  /** After unlinking a file its name is gone and there is room for a new entry. */
  lemma NameGone(g: Graph, dp: nat, key: seq<Byte>)
    requires Inv(g) && LinkedDir(g, dp) && Find(g[dp].slots, key) < |g[dp].slots|
    requires var i := g[dp].slots[Find(g[dp].slots, key)].inum; i < |g| && g[i].typ == T_FILE
    ensures var k := Find(g[dp].slots, key);
            var g1 := UnlinkDone(g, dp, k);
            && LinkedDir(g1, dp) && g1[dp].slots == g[dp].slots[k := Free] && Find(g1[dp].slots, key) == |g1[dp].slots|
            && FreeSlot(g1[dp].slots) <= k
            && g1[g[dp].slots[k].inum].nlink == g[g[dp].slots[k].inum].nlink - 1
  {
    hide Refs, OneEntry, HasEntry, EntryOk, Counted, Find, AsMap;
    var s, k := g[dp].slots, Find(g[dp].slots, key);
    DotSlots(g, |g|, dp);
    FindSpec(s, key);
    ClearedMap(s, k);
    MapAnswers(s[k := Free], key);
    FindSpec(s[k := Free], key);
    assert s[k := Free][k].Free?;
  }

  /** The new file is what the name leads to. */
  lemma NameNew(s: seq<Slot>, key: seq<Byte>, i: nat)
    requires Unique(s) && Find(s, key) == |s|
    ensures var t := Linked(s, key, i); Find(t, key) < |t| && t[Find(t, key)].inum == i
  {
    hide Find;
    FindSpec(s, key);
    var t, k := Linked(s, key, i), FreeSlot(s);
    forall j: nat | j < k ensures !HasName(t, j, key) {
      assert !HasName(s, j, key);
    }
    FindFirst(t, key, k);
  }

  /** The name leads to a plain file with these contents. */
  ghost predicate NameHas(inodes: seq<Dinode>, blocks: Image, dp: nat, key: seq<Byte>, content: seq<Byte>) {
    var g := GraphOf(inodes, blocks);
    && LinkedDir(g, dp) && Find(g[dp].slots, key) < |g[dp].slots|
    && var i := g[dp].slots[Find(g[dp].slots, key)].inum;
       i < |inodes| && inodes[i].typ == T_FILE && Content(inodes[i], blocks) == content
  }

  lemma TreeParts(fs: Fs)
    requires TreeOk(fs)
    ensures Inv(GraphOf(fs.inodes, fs.blocks)) && ROOT < |fs.inodes| <= 0x1_0000 && fs.inodes[0].typ == 0
  {
  }

  lemma NodeType(inodes: seq<Dinode>, blocks: Image, i: nat)
    requires i < |inodes|
    ensures GraphOf(inodes, blocks)[i].typ == inodes[i].typ && GraphOf(inodes, blocks)[i].nlink == inodes[i].nlink
  {
  }

  lemma FilesType(inodes: seq<Dinode>, blocks: Image, inodes': seq<Dinode>, blocks': Image, i: nat)
    requires FilesSame(inodes, blocks, inodes', blocks') && i < |inodes| && inodes[i].typ == T_FILE
    ensures |inodes'| == |inodes| && inodes'[i].typ == T_FILE && inodes'[i].size == inodes[i].size
    ensures Content(inodes'[i], blocks') == Content(inodes[i], blocks)
  {
    hide Content;
  }

  /** The inode number that a name in a directory leads to. */
  method LookupFile(fs: Fs, dp: nat, name: seq<Byte>) returns (inum: nat)
    requires TreeOk(fs) && LinkedDir(GraphOf(fs.inodes, fs.blocks), dp) && Readable(name, DIRSIZ)
    requires var s := GraphOf(fs.inodes, fs.blocks)[dp].slots; Find(s, Key(name, DIRSIZ)) < |s|
    modifies fs`bits, fs`blocks, fs`inodes, fs`owner, fs`log
    ensures TreeOk(fs) && fs.inodes == old(fs.inodes) && fs.blocks == old(fs.blocks)
    ensures var s := GraphOf(fs.inodes, fs.blocks)[dp].slots; inum == s[Find(s, Key(name, DIRSIZ))].inum
  {
    hide Covered, Inv, FsOk, NoHoles, Find, Key, Readable, Slots, Content, AllTidy;
    DirNode(fs, dp);
    var r := Dirlookup(fs, dp, name);
    inum := r.value.0;
  }

  /** There is no free block, no free inode or no free cache entry left. */
  ghost predicate Exhausted(fs: Fs, ic: Icache)
    reads fs, ic
  {
    Full(fs.bits, |fs.blocks|) || NoFreeInode(fs.inodes) || forall k :: 0 <= k < |ic.entries| ==> ic.entries[k].ref > 0
  }

  /** unlink(name) while the file is open: the inode goes on existing with all its bytes. */
  method UnlinkOpen(fs: Fs, ic: Icache, dp: nat, name: seq<Byte>, k0: nat) returns (ok: bool)
    requires TreeOk(fs) && ic.Valid() && LinkedDir(GraphOf(fs.inodes, fs.blocks), dp) && Readable(name, DIRSIZ)
    requires k0 < |ic.entries|
    requires var g, key := GraphOf(fs.inodes, fs.blocks), Key(name, DIRSIZ);
             && Find(g[dp].slots, key) < |g[dp].slots| && var i := g[dp].slots[Find(g[dp].slots, key)].inum;
             i < |g| && g[i].typ == T_FILE && Live(ic.entries, k0, i)
    requires !fs.open
    modifies fs, ic
    ensures ok ==> !fs.open
    ensures !ok ==> Exhausted(fs, ic)
    ensures ok ==>
              && TreeOk(fs) && ic.Valid() && ic.handles == old(ic.handles) && k0 < |ic.entries|
              && ic.entries[k0] == old(ic.entries)[k0].(valid := true)
    ensures ok ==> FilesSame(old(fs.inodes), old(fs.blocks), fs.inodes, fs.blocks)
    ensures ok ==> var g := old(GraphOf(fs.inodes, fs.blocks));
              GraphOf(fs.inodes, fs.blocks) == UnlinkDone(g, dp, Find(g[dp].slots, Key(name, DIRSIZ)))
  {
    hide TreeOk, Inv, Key, Readable, Find, FilesSame, UnlinkDone, NodeOf, LinkedDir, Slots, Content, OnePer, Counts,
         Full, NoFreeInode;
    ghost var g, key := GraphOf(fs.inodes, fs.blocks), Key(name, DIRSIZ);
    TreeParts(fs);
    FileEntry(g, dp, key);
    var found := LookupFile(fs, dp, name);
    ghost var i0 := g[dp].slots[Find(g[dp].slots, key)].inum;
    NodeType(fs.inodes, fs.blocks, i0);
    OnlyHandle(ic.entries, ic.handles, k0, i0);
    var k := ic.Iget(found);
    if k.None? {
      return false;
    }
    SameEntry(ic.entries, ic.handles, k0, k.value, i0);
    ic.IlockTree(fs, k.value);
    ghost var calls := UnlinkHeld(fs, ic, dp, name, k.value, i0);
    assert ic.handles == old(ic.handles);
    return true;
  }

  /** The transaction of unlink, with the iput of the reference k that unlink itself holds; another one exists. */
  method UnlinkHeld(fs: Fs, ic: Icache, dp: nat, name: seq<Byte>, k: nat, ghost i: nat)
    returns (ghost calls: seq<nat>)
    requires TreeOk(fs) && ic.Valid() && LinkedDir(GraphOf(fs.inodes, fs.blocks), dp) && Readable(name, DIRSIZ)
    requires CanUnlink(GraphOf(fs.inodes, fs.blocks), dp, Key(name, DIRSIZ))
    requires var s := GraphOf(fs.inodes, fs.blocks)[dp].slots; i == s[Find(s, Key(name, DIRSIZ))].inum
    requires Live(ic.entries, k, i) && ic.entries[k].ref > 1 && i < |fs.inodes| && fs.inodes[i].typ == T_FILE
    requires !fs.open
    modifies fs, ic
    ensures TreeOk(fs) && ic.Valid() && ic.handles == old(ic.handles) - multiset{i} && !fs.open
    ensures k < |ic.entries| && ic.entries[k] == old(ic.entries)[k].(ref := old(ic.entries)[k].ref - 1)
    ensures FilesSame(old(fs.inodes), old(fs.blocks), fs.inodes, fs.blocks)
    ensures var g := old(GraphOf(fs.inodes, fs.blocks));
            GraphOf(fs.inodes, fs.blocks) == UnlinkDone(g, dp, Find(g[dp].slots, Key(name, DIRSIZ)))
    ensures Transacted(old(fs.Now()), fs.Now(), fs.ninodes, calls)
  {
    hide TreeOk, Key, Readable, FilesSame, UnlinkDone, NodeOf, LinkedDir, OnePer, Counts, EmptyDir, LogsAtMost, Covered,
         FitsLog, BitmapSectors, InodeSector;
    OnlyHandle(ic.entries, ic.handles, k, i);
    BeginTree(fs);
    var r := UnlinkIn(fs, dp, name);
    ghost var log, known := fs.log, {fs.IBlock(dp), fs.IBlock(i)};
    FilesType(old(fs.inodes), old(fs.blocks), fs.inodes, fs.blocks, i);
    var done, freed := ic.Iput(fs, k);
    LogsThen([], log, fs.log, fs.Bitmaps() + known, 2, fs.Bitmaps() + {fs.IBlock(i)}, 0, fs.Bitmaps() + known, 2);
    SixFit(fs.log, fs.ninodes, |fs.blocks|, known, 2);
    calls := CommitTree(fs);
  }

  lemma SameEntry(s: seq<Entry>, handles: multiset<nat>, j: nat, k: nat, inum: nat)
    requires OnePer(s) && Counts(s, handles) && Live(s, j, inum) && Live(s, k, inum)
    ensures j == k && handles[inum] == s[k].ref
  {
  }

  /** open(name, O_CREATE | O_RDWR) for a name that was just unlinked: a new, empty file. */
  method CreateEmpty(fs: Fs, dp: nat, name: seq<Byte>) returns (r: Option<nat>)
    requires TreeOk(fs) && LinkedDir(GraphOf(fs.inodes, fs.blocks), dp) && Readable(name, DIRSIZ)
    requires var s := GraphOf(fs.inodes, fs.blocks)[dp].slots; Find(s, Key(name, DIRSIZ)) == |s| && FreeSlot(s) < |s|
    requires !fs.open
    modifies fs
    ensures r.Some? ==> !fs.open
    ensures r.None? ==> Full(fs.bits, |fs.blocks|) || NoFreeInode(fs.inodes)
    ensures r.Some? ==> TreeOk(fs) && FilesSame(old(fs.inodes), old(fs.blocks), fs.inodes, fs.blocks)
    ensures r.Some? ==>
              && 0 < r.value < |fs.inodes| && old(fs.inodes)[r.value].typ == 0 && fs.inodes[r.value].typ == T_FILE
              && fs.inodes[r.value].nlink == 1
    ensures r.Some? ==> fs.inodes[r.value].size == 0 && NameHas(fs.inodes, fs.blocks, dp, Key(name, DIRSIZ), [])
    ensures r.Some? ==> var s := GraphOf(fs.inodes, fs.blocks)[dp].slots; s[Find(s, Key(name, DIRSIZ))].inum == r.value
    ensures r.Some? ==> |fs.inodes| == |old(fs.inodes)|
    ensures r.Some? ==> forall x :: 0 <= x < |fs.inodes| && old(fs.inodes)[x].typ == T_FILE ==>
              fs.inodes[x].nlink == old(fs.inodes)[x].nlink
  {
    hide TreeOk, Inv, Key, Readable, Find, FilesSame, Slots, Content, FreeSlot;
    ghost var g, key := GraphOf(fs.inodes, fs.blocks), Key(name, DIRSIZ);
    TreeParts(fs);
    Room(fs, dp);
    BeginTree(fs);
    r := Create(fs, dp, name, T_FILE, 0, 0);
    if r.Some? {
      ghost var calls := CommitTree(fs);
      NodeType(old(fs.inodes), old(fs.blocks), r.value);
      NodeType(fs.inodes, fs.blocks, r.value);
      DotSlotsOf(g, dp);
      NameNew(g[dp].slots, key, r.value);
      ContentSize(fs.inodes[r.value], fs.blocks);
      SameLengths(fs, g, r.value, dp, key);
      forall x | 0 <= x < |fs.inodes| && old(fs.inodes)[x].typ == T_FILE
        ensures fs.inodes[x].nlink == old(fs.inodes)[x].nlink {
        NodeType(old(fs.inodes), old(fs.blocks), x);
        NodeType(fs.inodes, fs.blocks, x);
      }
    }
  }

  lemma SameLengths(fs: Fs, g: Graph, i: nat, dp: nat, key: seq<Byte>)
    requires i < |g| && dp < |g| && i != dp && GraphOf(fs.inodes, fs.blocks) == CreateDone(g, i, dp, key, T_FILE)
    ensures |fs.inodes| == |g|
  {
  }

  lemma DotSlotsOf(g: Graph, dp: nat)
    requires Inv(g) && LinkedDir(g, dp)
    ensures Unique(g[dp].slots)
  {
    DotSlots(g, |g|, dp);
  }

  lemma Room(fs: Fs, dp: nat)
    requires TreeOk(fs) && LinkedDir(GraphOf(fs.inodes, fs.blocks), dp)
    requires FreeSlot(GraphOf(fs.inodes, fs.blocks)[dp].slots) < |GraphOf(fs.inodes, fs.blocks)[dp].slots|
    ensures DENT * FreeSlot(GraphOf(fs.inodes, fs.blocks)[dp].slots) + DENT <= MAXFILE * BSIZE
  {
    hide Inv;
    DirNode(fs, dp);
    SizeFits(fs, dp);
  }

  /** open(name, O_RDONLY) and unlink(name). */
  method OpenAndUnlink(fs: Fs, ic: Icache, dp: nat, name: seq<Byte>) returns (ok: bool, ip0: nat, k0: nat)
    requires TreeOk(fs) && ic.Valid() && LinkedDir(GraphOf(fs.inodes, fs.blocks), dp) && Readable(name, DIRSIZ)
    requires var g, key := GraphOf(fs.inodes, fs.blocks), Key(name, DIRSIZ);
             Find(g[dp].slots, key) < |g[dp].slots| && var i := g[dp].slots[Find(g[dp].slots, key)].inum;
                 i < |g| && g[i].typ == T_FILE
    requires !fs.open
    modifies fs, ic
    ensures ok ==> !fs.open
    ensures !ok ==> Exhausted(fs, ic)
    ensures ok ==>
              && TreeOk(fs) && ic.Valid() && LinkedDir(GraphOf(fs.inodes, fs.blocks), dp)
              && |fs.inodes| == |old(fs.inodes)|
    ensures var g, key := old(GraphOf(fs.inodes, fs.blocks)), Key(name, DIRSIZ);
            ok ==>
              && ip0 == g[dp].slots[Find(g[dp].slots, key)].inum && 0 < ip0 < |fs.inodes|
              && fs.inodes[ip0].typ == T_FILE && fs.inodes[ip0].nlink == g[ip0].nlink - 1
              && Content(fs.inodes[ip0], fs.blocks) == Content(old(fs.inodes)[ip0], old(fs.blocks))
              && ic.handles == old(ic.handles) + multiset{ip0} && Live(ic.entries, k0, ip0) && ic.entries[k0].valid
    ensures ok ==>
              var s := GraphOf(fs.inodes, fs.blocks)[dp].slots; Find(s, Key(name, DIRSIZ)) == |s| && FreeSlot(s) < |s|
    ensures ok ==> FilesSame(old(fs.inodes), old(fs.blocks), fs.inodes, fs.blocks)
  {
    hide TreeOk, Inv, Key, Readable, Find, FilesSame, Slots, Content, FreeSlot, Full, OnePer, Counts, UnlinkDone;
    ghost var g, key := GraphOf(fs.inodes, fs.blocks), Key(name, DIRSIZ);
    TreeParts(fs);
    ip0 := LookupFile(fs, dp, name);
    NodeType(fs.inodes, fs.blocks, ip0);
    var r := ic.Iget(ip0);
    if r.None? {
      return false, ip0, 0;
    }
    k0 := r.value;
    ic.IlockTree(fs, k0);
    NameGone(g, dp, key);
    ok := UnlinkOpen(fs, ic, dp, name, k0);
    if !ok {
      return;
    }
    FilesType(old(fs.inodes), old(fs.blocks), fs.inodes, fs.blocks, ip0);
    NodeType(fs.inodes, fs.blocks, ip0);
  }

  /** truncate(name, size) for a plain file: the name then leads to a file with the first `size` bytes of the old one,
      filled up with zeros; the old inode is freed exactly when this was its only link and nobody else has it open. */
  method Truncate(fs: Fs, ic: Icache, dp: nat, name: seq<Byte>, size: nat) returns (ok: bool)
    requires TreeOk(fs) && ic.Valid() && LinkedDir(GraphOf(fs.inodes, fs.blocks), dp) && Readable(name, DIRSIZ)
    requires size <= MAXFILE * BSIZE
    requires var g, key := GraphOf(fs.inodes, fs.blocks), Key(name, DIRSIZ);
             Find(g[dp].slots, key) < |g[dp].slots| && var i := g[dp].slots[Find(g[dp].slots, key)].inum;
                 i < |g| && g[i].typ == T_FILE
    requires !fs.open
    modifies fs, ic
    ensures ok ==> !fs.open
    ensures !ok ==> Exhausted(fs, ic)
    ensures ok ==> TreeOk(fs) && ic.Valid() && ic.handles == old(ic.handles)
    ensures var g, key := old(GraphOf(fs.inodes, fs.blocks)), Key(name, DIRSIZ);
            var i := g[dp].slots[Find(g[dp].slots, key)].inum;
            ok ==>
              && NameHas(fs.inodes, fs.blocks, dp, key, Resized(Content(old(fs.inodes)[i], old(fs.blocks)), size))
              && RestKept(old(fs.inodes), old(fs.blocks), fs.inodes, fs.blocks, i)
              && |fs.inodes| == |g| && (fs.inodes[i].typ == 0 <==> g[i].nlink == 1 && old(ic.handles)[i] == 0)
  {
    hide TreeOk, Inv, Key, Readable, Find, FilesSame, Slots, Content, FreeSlot, Resized, OnePer, Counts, NameHas,
         NodeOf, LinkedDir, RestKept;
    var ip0, k0;
    ok, ip0, k0 := OpenAndUnlink(fs, ic, dp, name);
    if !ok {
      return;
    }
    ghost var table, blocks := fs.inodes, fs.blocks;
    var ip1 := CreateEmpty(fs, dp, name);
    if ip1.None? {
      return false;
    }
    FilesType(table, blocks, fs.inodes, fs.blocks, ip0);
    ghost var table1, blocks1 := fs.inodes, fs.blocks;
    FilesTrans(old(fs.inodes), old(fs.blocks), table, blocks, table1, blocks1);
    ok := CopyAndClose(fs, ic, dp, Key(name, DIRSIZ), ip0, ip1.value, k0, size);
    if ok {
      FilesFree(old(fs.inodes), old(fs.blocks), table, blocks, ip1.value);
      RestKeptFrom(old(fs.inodes), old(fs.blocks), table1, blocks1, fs.inodes, fs.blocks, ip0, ip1.value);
    }
  }

  /** Every plain file but i has its contents. */
  ghost predicate RestKept(inodes: seq<Dinode>, blocks: Image, inodes': seq<Dinode>, blocks': Image, i: nat) {
    && |inodes'| == |inodes|
    && (forall x :: 0 <= x < |inodes| && inodes[x].typ == T_FILE && x != i ==>
          inodes'[x].typ == T_FILE && Content(inodes'[x], blocks') == Content(inodes[x], blocks))
  }

  /** An inode that is free after other files were kept was no plain file before. */
  lemma FilesFree(inodes: seq<Dinode>, blocks: Image, inodes': seq<Dinode>, blocks': Image, x: nat)
    requires FilesSame(inodes, blocks, inodes', blocks') && x < |inodes'| && inodes'[x].typ == 0
    ensures x < |inodes| && inodes[x].typ != T_FILE
  {
    hide Content;
  }

  lemma RestKeptFrom(inodes: seq<Dinode>, blocks: Image, inodes1: seq<Dinode>, blocks1: Image,
                     inodes2: seq<Dinode>, blocks2: Image, i: nat, j: nat)
    requires FilesSame(inodes, blocks, inodes1, blocks1) && |inodes2| == |inodes1|
    requires j < |inodes| && inodes[j].typ != T_FILE
    requires forall x :: 0 <= x < |inodes1| && x != i && x != j ==>
               inodes2[x] == inodes1[x] && Content(inodes2[x], blocks2) == Content(inodes1[x], blocks1)
    ensures RestKept(inodes, blocks, inodes2, blocks2, i)
  {
    hide Content;
  }

  /** The loops of truncate and the two closes. */
  method CopyAndClose(fs: Fs, ic: Icache, ghost dp: nat, ghost key: seq<Byte>, ip0: nat, ip1: nat, k0: nat,
                      size: nat) returns (ok: bool)
    requires TreeOk(fs) && ic.Valid() && size <= MAXFILE * BSIZE && 0 < ip0 < |fs.inodes| && 0 < ip1 < |fs.inodes|
    requires ip0 != ip1
    requires fs.inodes[ip0].typ == T_FILE && fs.inodes[ip1].typ == T_FILE && fs.inodes[ip1].size == 0
    requires fs.inodes[ip1].nlink == 1
    requires Live(ic.entries, k0, ip0) && ic.entries[k0].valid && NameHas(fs.inodes, fs.blocks, dp, key, [])
    requires var s := GraphOf(fs.inodes, fs.blocks)[dp].slots; s[Find(s, key)].inum == ip1
    requires !fs.open
    modifies fs, ic
    ensures ok ==> !fs.open
    ensures !ok ==> Exhausted(fs, ic)
    ensures ok ==>
              && TreeOk(fs) && ic.Valid() && ic.handles == old(ic.handles) - multiset{ip0}
              && |fs.inodes| == |old(fs.inodes)|
    ensures ok ==> NameHas(fs.inodes, fs.blocks, dp, key, Resized(old(Content(fs.inodes[ip0], fs.blocks)), size))
    ensures ok ==> (fs.inodes[ip0].typ == 0 <==> old(fs.inodes)[ip0].nlink == 0 && old(ic.handles)[ip0] == 1)
    ensures ok ==> forall x :: 0 <= x < |fs.inodes| && x != ip0 && x != ip1 ==>
              fs.inodes[x] == old(fs.inodes)[x] &&
                  Content(fs.inodes[x], fs.blocks) == Content(old(fs.inodes)[x], old(fs.blocks))
  {
    hide TreeOk, Inv, Find, Slots, Content, Resized, Full, OnePer, Counts, NodeOf, NoFreeInode;
    var k1 := ic.Iget(ip1);
    if k1.None? {
      return false;
    }
    ic.IlockTree(fs, k1.value);
    ok := CopyResized(fs, ip0, ip1, size);
    if !ok {
      return;
    }
    NodeType(old(fs.inodes), old(fs.blocks), ip1);
    NodeType(fs.inodes, fs.blocks, ip1);
    CloseBoth(fs, ic, dp, key, k0, k1.value, Resized(old(Content(fs.inodes[ip0], fs.blocks)), size));
  }

  /** close(fd0) and close(fd1). */
  method CloseBoth(fs: Fs, ic: Icache, ghost dp: nat, ghost key: seq<Byte>, k0: nat, k1: nat, ghost content: seq<Byte>)
    requires TreeOk(fs) && ic.Valid() && k0 < |ic.entries| && k1 < |ic.entries|
    requires var i0, i1 := ic.entries[k0].inum, ic.entries[k1].inum;
             && Live(ic.entries, k0, i0) && Live(ic.entries, k1, i1) && i0 != i1 && i0 < |fs.inodes| && i1 < |fs.inodes|
             && ic.entries[k0].valid
             && fs.inodes[i0].typ == T_FILE && fs.inodes[i1].typ == T_FILE && fs.inodes[i1].nlink == 1
             && NameHas(fs.inodes, fs.blocks, dp, key, content)
             && var s := GraphOf(fs.inodes, fs.blocks)[dp].slots; s[Find(s, key)].inum == i1
    requires !fs.open
    modifies fs, ic
    ensures !fs.open
    ensures TreeOk(fs) && ic.Valid() && |fs.inodes| == |old(fs.inodes)|
    ensures NameHas(fs.inodes, fs.blocks, dp, key, content)
    ensures ic.handles == old(ic.handles) - multiset{old(ic.entries)[k0].inum} - multiset{old(ic.entries)[k1].inum}
    ensures var i0 := old(ic.entries)[k0].inum;
              fs.inodes[i0].typ == 0 <==> old(fs.inodes)[i0].nlink == 0 && old(ic.handles)[i0] == 1
    ensures fs.blocks == old(fs.blocks)
    ensures forall x :: 0 <= x < |fs.inodes| && x != old(ic.entries)[k0].inum ==> fs.inodes[x] == old(fs.inodes)[x]
  {
    hide TreeOk, Inv, Find, Slots, Content, OnePer, Counts, NodeOf, NameHas, LinkedDir;
    ghost var i0, i1 := ic.entries[k0].inum, ic.entries[k1].inum;
    OnlyHandle(ic.entries, ic.handles, k0, i0);
    NameInside(fs.inodes, fs.blocks, dp, key, content);
    ghost var table := fs.inodes;
    ghost var freed, calls := ic.Fileclose(fs, k0);
    SameName(table, fs.inodes, fs.blocks, dp, key, i0, content);
    assert Live(ic.entries, k1, i1);
    ghost var freed1, calls1 := ic.Fileclose(fs, k1);
  }

  lemma NameInside(inodes: seq<Dinode>, blocks: Image, dp: nat, key: seq<Byte>, content: seq<Byte>)
    requires NameHas(inodes, blocks, dp, key, content)
    ensures dp < |inodes| && Find(GraphOf(inodes, blocks)[dp].slots, key) < |GraphOf(inodes, blocks)[dp].slots|
  {
    hide Find, Slots, Content;
  }

  lemma OnlyHandle(s: seq<Entry>, handles: multiset<nat>, k: nat, inum: nat)
    requires OnePer(s) && Counts(s, handles) && Live(s, k, inum)
    ensures handles[inum] == s[k].ref
  {
  }

  /** Freeing another inode that no entry of the directory names leaves the name and its contents. */
  lemma SameName(inodes: seq<Dinode>, inodes': seq<Dinode>, blocks: Image, dp: nat, key: seq<Byte>, i: nat,
                 content: seq<Byte>)
    requires NameHas(inodes, blocks, dp, key, content) && i < |inodes| && inodes[i].typ == T_FILE
    requires var s := GraphOf(inodes, blocks)[dp].slots; s[Find(s, key)].inum != i
    requires inodes' == inodes || inodes' == inodes[i := Gone(inodes[i])]
    ensures NameHas(inodes', blocks, dp, key, content)
  {
    hide Slots, Content, Find;
    assert GraphOf(inodes', blocks)[dp] == GraphOf(inodes, blocks)[dp];
  }
}
