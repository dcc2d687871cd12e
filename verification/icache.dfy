/** The inode cache: reference counts, and the freeing of an inode when its last reference goes. */
module InodeCache {
  import opened Optional
  import opened Blocks
  import opened BlockMap
  import opened FileContent
  import opened FileSystem
  import opened BoundedNames
  import opened Directory
  import opened Links
  import opened SysFile

  const NINODE := 50

  /** A cache entry. The inode fields it holds are `fs.inodes[inum]` once it is valid. */
  datatype Entry = Entry(ref: nat, inum: nat, valid: bool)

  predicate Live(s: seq<Entry>, k: nat, inum: nat) {
    k < |s| && s[k].ref > 0 && s[k].inum == inum
  }

  /** The tree is consistent on disk, and so is the memory but for inode i. */
  ghost predicate TreeBut(fs: Fs, i: nat)
    reads fs
  {
    && i < |fs.inodes| == |fs.dinodes| && fs.inodes[i := fs.dinodes[i]] == fs.dinodes
    && FsOk(fs.bits, fs.blocks, fs.dinodes, fs.owner, fs.meta) && NoHoles(fs.dinodes, fs.blocks) && fs.Logged()
    && ROOT < |fs.dinodes| <= 0x1_0000 && AllTidy(fs.dinodes) && fs.dinodes[0].typ == 0
    && LinkedDir(GraphOf(fs.dinodes, fs.blocks), ROOT) && Inv(GraphOf(fs.dinodes, fs.blocks))
  }

  lemma Loaded(fs: Fs, i: nat)
    requires TreeOk(fs) && i < |fs.inodes|
    ensures TreeBut(fs, i) && fs.inodes == fs.dinodes
  {
    hide FsOk, NoHoles, AllTidy, Inv, Covered, NodeOf, LinkedDir;
    assert fs.inodes[i := fs.inodes[i]] == fs.inodes;
  }

  /** At most one live entry per inode. */
  ghost predicate OnePer(s: seq<Entry>) {
    forall j, k, inum :: Live(s, j, inum) && Live(s, k, inum) ==> j == k
  }

  /** Every reference handed out is counted by the live entry of its inode. */
  ghost predicate Counts(s: seq<Entry>, handles: multiset<nat>) {
    && (forall k: nat, inum :: Live(s, k, inum) ==> handles[inum] == s[k].ref)
    && (forall inum :: inum in handles ==> exists k: nat :: Live(s, k, inum))
  }

  class Icache {
    var entries: seq<Entry>

    /** The inode numbers that callers hold references to, with multiplicity. */
    ghost var handles: multiset<nat>

    ghost predicate Valid()
      reads this
    {
      |entries| == NINODE && OnePer(entries) && Counts(entries, handles)
    }

    constructor ()
      ensures Valid() && handles == multiset{}
    {
      entries := seq(NINODE, _ => Entry(0, 0, false));
      handles := multiset{};
    }

    /** Find the live entry of an inode, or take a free one. None stands for the panic "iget: no inodes". */
    method Iget(inum: nat) returns (r: Option<nat>)
      requires Valid()
      modifies this
      ensures Valid()
      ensures (r.None? ==> entries == old(entries) && handles == old(handles) && forall k :: 0 <= k < |entries| ==>
                entries[k].ref > 0)
      ensures r.Some? ==> Live(entries, r.value, inum) && handles == old(handles) + multiset{inum}
      ensures r.Some? ==> entries[r.value].valid ==> Live(old(entries), r.value, inum) && old(entries)[r.value].valid
      ensures r.Some? ==> forall j: nat, x :: Live(old(entries), j, x) ==>
                Live(entries, j, x) && entries[j].valid == old(entries)[j].valid
    {
      hide OnePer, Counts;
      var k, empty := 0, -1;
      while k < NINODE
        invariant 0 <= k <= NINODE && -1 <= empty < k && (empty >= 0 ==> entries[empty].ref == 0)
        invariant forall j :: 0 <= j < k ==> !Live(entries, j, inum)
        invariant empty == -1 ==> forall j :: 0 <= j < k ==> entries[j].ref > 0
        invariant entries == old(entries) && handles == old(handles)
      {
        if entries[k].ref > 0 && entries[k].inum == inum {
          Again(entries, handles, k);
          entries := entries[k := entries[k].(ref := entries[k].ref + 1)];
          handles := handles + multiset{inum};
          return Some(k);
        }
        if empty == -1 && entries[k].ref == 0 {
          empty := k;
        }
        k := k + 1;
      }
      if empty == -1 {
        return None;
      }
      Recycled(entries, handles, empty, inum);
      entries := entries[empty := Entry(1, inum, false)];
      handles := handles + multiset{inum};
      return Some(empty);
    }

    /** One more reference through an entry that the caller already holds. */
    method Idup(k: nat)
      requires Valid() && k < |entries| && entries[k].ref > 0
      modifies this
      ensures Valid() && entries == old(entries)[k := old(entries)[k].(ref := old(entries)[k].ref + 1)]
      ensures handles == old(handles) + multiset{entries[k].inum}
    {
      Again(entries, handles, k);
      handles := handles + multiset{entries[k].inum};
      entries := entries[k := entries[k].(ref := entries[k].ref + 1)];
    }

    /** Make an entry valid, reading the inode from disk if need be: before that, the fields of the entry can be
        anything. */
    method Ilock(fs: Fs, k: nat)
      requires Valid() && k < |entries| && entries[k].ref > 0 && TreeBut(fs, entries[k].inum)
      requires entries[k].valid ==> fs.inodes[entries[k].inum] == fs.dinodes[entries[k].inum]
      requires fs.dinodes[entries[k].inum].typ != 0                                                 // "ilock: no type"
      modifies this`entries, fs`inodes
      ensures Valid() && TreeOk(fs) && fs.inodes == fs.dinodes
      ensures entries == old(entries)[k := old(entries)[k].(valid := true)]
    {
      hide FsOk, NoHoles, AllTidy, Inv, Covered, NodeOf, LinkedDir, OnePer, Counts;
      assert fs.inodes[entries[k].inum := fs.inodes[entries[k].inum]] == fs.inodes;
      if !entries[k].valid {
        fs.inodes := fs.inodes[entries[k].inum := fs.dinodes[entries[k].inum]];
        Validated(entries, handles, k);
        entries := entries[k := entries[k].(valid := true)];
      }
    }

    /** ilock while the memory agrees with the disk: nothing changes but the flag. */
    method IlockTree(fs: Fs, k: nat)
      requires Valid() && k < |entries| && entries[k].ref > 0 && TreeOk(fs) && entries[k].inum < |fs.inodes|
      requires fs.inodes[entries[k].inum].typ != 0
      modifies this`entries, fs`inodes
      ensures Valid() && TreeOk(fs) && fs.inodes == old(fs.inodes)
      ensures entries == old(entries)[k := old(entries)[k].(valid := true)]
    {
      hide TreeOk, TreeBut, OnePer, Counts;
      Loaded(fs, entries[k].inum);
      Ilock(fs, k);
    }

    /** Whether dropping the reference frees the inode: it is the last one, and no directory entry names the inode. */
    ghost predicate Last(fs: Fs, k: nat)
      requires k < |entries| && entries[k].inum < |fs.inodes|
      reads this, fs
    {
      handles[entries[k].inum] == 1 && entries[k].valid && fs.inodes[entries[k].inum].nlink == 0
    }

    /** Drop a reference. Freeing the inode writes to the disk, so outside a transaction the call panics exactly when
        it would free; ok is false then. */
    method Iput(fs: Fs, k: nat) returns (ok: bool, ghost freed: bool)
      requires Valid() && k < |entries| && entries[k].ref > 0 && TreeOk(fs)
      requires entries[k].inum < |fs.inodes| && fs.inodes[entries[k].inum].typ != 0
      modifies this, fs`bits, fs`inodes, fs`dinodes, fs`owner, fs`log
      ensures ok <==> fs.open || !old(Last(fs, k))                                       // "write outside of trans"
      ensures freed <==> ok && old(Last(fs, k))
      ensures TreeOk(fs)
      ensures var i := old(entries)[k].inum;
              fs.inodes == if freed then old(fs.inodes)[i := Gone(old(fs.inodes)[i])] else old(fs.inodes)
      ensures ok ==> Valid() && handles == old(handles) - multiset{old(entries)[k].inum}
      ensures ok ==> forall j: nat, x :: Live(old(entries), j, x) && j != k ==>
                       Live(entries, j, x) && entries[j] == old(entries)[j]
      ensures ok ==> entries[k] == Entry(old(entries)[k].ref - 1, old(entries)[k].inum, old(entries)[k].valid && !freed)
      ensures LogsAtMost(old(fs.log), fs.log, fs.Bitmaps() + {fs.IBlock(old(entries)[k].inum)}, 0)
    {
      hide TreeOk, LogsAtMost, BitmapSectors, OnePer, Counts, InodeSector;
      var inum := entries[k].inum;
      LastReference(entries, handles, k);
      LogsNothing(fs.log, fs.Bitmaps() + {fs.IBlock(inum)}, 0);
      freed := false;
      var valid := entries[k].valid;
      if entries[k].ref == 1 && entries[k].valid && fs.inodes[inum].nlink == 0 {
        if !fs.open {
          return false, false;
        }
        FreeInode(fs, inum);
        valid := false;
        freed := true;
      }
      Dropped(entries, handles, k, valid);
      entries := entries[k := Entry(entries[k].ref - 1, inum, valid)];
      handles := handles - multiset{inum};
      ok := true;
    }

    /** fileclose of the last descriptor: iput inside a transaction. */
    method Fileclose(fs: Fs, k: nat) returns (ghost freed: bool, ghost calls: seq<nat>)
      requires Valid() && k < |entries| && entries[k].ref > 0 && TreeOk(fs) && !fs.open
      requires entries[k].inum < |fs.inodes| && fs.inodes[entries[k].inum].typ != 0
      modifies this, fs
      ensures TreeOk(fs) && !fs.open && Valid() && handles == old(handles) - multiset{old(entries)[k].inum}
      ensures freed <==> old(Last(fs, k))
      ensures fs.blocks == old(fs.blocks)
      ensures var i := old(entries)[k].inum;
              fs.inodes == if freed then old(fs.inodes)[i := Gone(old(fs.inodes)[i])] else old(fs.inodes)
      ensures forall j: nat, x :: Live(old(entries), j, x) && j != k ==>
                Live(entries, j, x) && entries[j] == old(entries)[j]
      ensures Transacted(old(fs.Now()), fs.Now(), fs.ninodes, calls)
    {
      hide TreeOk, OnePer, Counts, LogsAtMost, Covered, FitsLog, BitmapSectors;
      BeginTree(fs);
      var ok;
      ok, freed := Iput(fs, k);
      SixFit(fs.log, fs.ninodes, |fs.blocks|, {fs.IBlock(old(entries)[k].inum)}, 0);
      calls := CommitTree(fs);
    }
  }

  lemma LastReference(s: seq<Entry>, handles: multiset<nat>, k: nat)
    requires OnePer(s) && Counts(s, handles) && k < |s| && s[k].ref > 0
    ensures handles[s[k].inum] == s[k].ref
    ensures forall j: nat, x :: Live(s, j, x) && j != k ==> x != s[k].inum
  {
    assert Live(s, k, s[k].inum);
  }

  /** What is left of an inode that has been freed. */
  function Gone(ip: Dinode): Dinode {
    Emptied(ip).(typ := 0)
  }

  lemma Validated(s: seq<Entry>, handles: multiset<nat>, k: nat)
    requires OnePer(s) && Counts(s, handles) && k < |s|
    ensures var t := s[k := s[k].(valid := true)]; OnePer(t) && Counts(t, handles)
  {
    var t := s[k := s[k].(valid := true)];
    assert forall j: nat, x :: Live(t, j, x) <==> Live(s, j, x);
    forall x | x in handles ensures exists j: nat :: Live(t, j, x) {
      var j: nat :| Live(s, j, x);
      assert Live(t, j, x);
    }
  }

  /** Discard the contents of an inode that nothing names, and mark it free. */
  method FreeInode(fs: Fs, i: nat)
    requires TreeOk(fs) && i < |fs.inodes| && fs.inodes[i].typ != 0 && fs.inodes[i].nlink == 0 && fs.open
    modifies fs`bits, fs`inodes, fs`dinodes, fs`owner, fs`log
    ensures TreeOk(fs) && fs.inodes == old(fs.inodes)[i := Gone(old(fs.inodes)[i])]
    ensures LogsAtMost(old(fs.log), fs.log, fs.Bitmaps() + {fs.IBlock(i)}, 0)
  {
    hide Covered, LoggedOnly, LogsAtMost, BitmapSectors, FsOk, NoHoles, OthersSame, Inv, Content, Slots;
    ghost var g, table := GraphOf(fs.inodes, fs.blocks), fs.inodes;
    fs.Itrunc(i);
    var ip := fs.inodes[i].(typ := 0);
    ghost var table1 := fs.inodes;
    assert ip == Gone(table[i]);
    FieldsKeepFs(fs.bits, fs.blocks, fs.inodes, fs.owner, fs.meta, i, ip);
    fs.inodes := fs.inodes[i := ip];
    ghost var log := fs.log;
    fs.Iupdate(i);
    FreeLogs(old(fs.log), log, fs.Bitmaps(), fs.IBlock(i));
    OneNode(table, fs.blocks, table1, fs.blocks, i);
    OneNode(table1, fs.blocks, fs.inodes, fs.blocks, i);
    GoneNode(ip, fs.blocks);
    assert GraphOf(fs.inodes, fs.blocks) == g[i := Node(0, 0, [])];
    FreeKeeps(g, i);
    TidyGone(table, i);
  }

  lemma FreeLogs(before: seq<nat>, mid: seq<nat>, bitmap: set<nat>, s: nat)
    requires LoggedOnly(before, mid, bitmap, {s})
    ensures LogsAtMost(before, mid + [s], bitmap + {s}, 0)
  {
    assert LoggedOnly(before, mid + [s], bitmap + {s}, {});
  }

  lemma GoneNode(ip: Dinode, blocks: Image)
    requires ip.typ == 0 && ip.nlink == 0
    ensures NodeOf(ip, blocks) == Node(0, 0, [])
  {
  }

  lemma TidyGone(inodes: seq<Dinode>, i: nat)
    requires AllTidy(inodes) && i < |inodes|
    ensures AllTidy(inodes[i := Gone(inodes[i])])
  {
  }

  /** An inode that nothing names can be freed without breaking the link invariant. */
  lemma FreeKeeps(g: Graph, i: nat)
    requires Inv(g) && i < |g| && g[i].typ != 0 && g[i].nlink == 0 && LinkedDir(g, ROOT)
    ensures Inv(g[i := Node(0, 0, [])]) && LinkedDir(g[i := Node(0, 0, [])], ROOT)
  {
    hide Refs, Unique;
    var g' := g[i := Node(0, 0, [])];
    assert Counted(g, i);
    forall x: nat | x < |g'| ensures Counted(g', x) {
      assert Counted(g, x);
      Links.SameRefs(g, g', x);
    }
    forall d: nat | d < |g'| ensures DotsOk(g', d) && OneEntry(g', d) && HasEntry(g', d) {
      assert DotsOk(g, d) && OneEntry(g, d) && HasEntry(g, d);
      if LinkedDir(g, d) && d != ROOT {
        var p := g[d].slots[1].inum;
        var j: nat :| InParent(g, p, j, d);
        assert InParent(g', p, j, d);
      }
    }
    forall d: nat, j: nat | d < |g'| && j < |g'[d].slots| ensures EntryOk(g', d, j) {
      assert d != i ==> EntryOk(g, d, j);
      InRefs(g, i, (d, j));
    }
  }

  lemma Again(s: seq<Entry>, handles: multiset<nat>, k: nat)
    requires OnePer(s) && Counts(s, handles) && k < |s| && s[k].ref > 0
    ensures var t := s[k := s[k].(ref := s[k].ref + 1)]; OnePer(t) && Counts(t, handles + multiset{s[k].inum})
  {
    var inum, t := s[k].inum, s[k := s[k].(ref := s[k].ref + 1)];
    assert Live(s, k, inum);
    assert forall j: nat, x :: Live(t, j, x) <==> Live(s, j, x);
  }

  lemma Recycled(s: seq<Entry>, handles: multiset<nat>, k: nat, inum: nat)
    requires OnePer(s) && Counts(s, handles) && k < |s| && s[k].ref == 0 && forall j: nat :: !Live(s, j, inum)
    ensures var t := s[k := Entry(1, inum, false)]; OnePer(t) && Counts(t, handles + multiset{inum})
  {
    var t := s[k := Entry(1, inum, false)];
    assert inum !in handles;
    assert Live(t, k, inum);
    assert forall j: nat, x :: Live(t, j, x) <==> Live(s, j, x) || (j == k && x == inum);
  }

  lemma Dropped(s: seq<Entry>, handles: multiset<nat>, k: nat, valid: bool)
    requires OnePer(s) && Counts(s, handles) && k < |s| && s[k].ref > 0
    ensures var t := s[k := Entry(s[k].ref - 1, s[k].inum, valid)];
              OnePer(t) && Counts(t, handles - multiset{s[k].inum})
  {
    var inum, t := s[k].inum, s[k := Entry(s[k].ref - 1, s[k].inum, valid)];
    assert Live(s, k, inum);
    assert forall j: nat, x :: Live(t, j, x) ==> Live(s, j, x);
    forall x | x in handles - multiset{inum} ensures exists j: nat :: Live(t, j, x) {
      var j: nat :| Live(s, j, x);
      assert Live(t, j, x);
    }
  }

  /** Removing an empty directory leaves its inode without links. */
  lemma LastLink(g: Graph, dp: nat, k: nat)
    requires Inv(g) && LinkedDir(g, dp) && k < |g[dp].slots| && g[dp].slots[k].Used?
    requires g[dp].slots[k].name != DOT && g[dp].slots[k].name != DOTDOT
    requires var i := g[dp].slots[k].inum; i < |g| && g[i].typ == T_DIR && EmptyDir(g[i].slots)
    ensures var i := g[dp].slots[k].inum;
            i != dp && |UnlinkDone(g, dp, k)| == |g| && UnlinkDone(g, dp, k)[i] == g[i].(nlink := 0)
  {
    hide EmptyDir, Refs, DotsOk, OneEntry, HasEntry, EntryOk;
    var i := g[dp].slots[k].inum;
    FoundEntry(g, dp, k);
    OnlyEntry(g, dp, k, i);
    assert Counted(g, i);
  }

  /** chdir away from a directory that has been removed: its inode has no link and this is the last reference, and
      chdir drops it outside a transaction. The call panics. */
  method ChdirFromRemoved(fs: Fs, ic: Icache, dp: nat, name: seq<Byte>, k: nat) returns (r: int, ok: bool)
    requires TreeOk(fs) && ic.Valid() && !fs.open && LinkedDir(GraphOf(fs.inodes, fs.blocks), dp)
    requires Readable(name, DIRSIZ)
    requires CanUnlink(GraphOf(fs.inodes, fs.blocks), dp, Key(name, DIRSIZ))
    requires var s := GraphOf(fs.inodes, fs.blocks)[dp].slots;
             var i := s[Find(s, Key(name, DIRSIZ))].inum;
             fs.inodes[i].typ == T_DIR && Live(ic.entries, k, i) && ic.entries[k].valid && ic.handles[i] == 1
    modifies fs, ic
    ensures r == 0 && !ok
  {
    hide TreeOk, Inv, Key, Readable, NodeOf, OnePer, Counts, UnlinkDone, EmptyDir, FilesSame;
    ghost var g, key := GraphOf(fs.inodes, fs.blocks), Key(name, DIRSIZ);
    ghost var s := g[dp].slots;
    ghost var i := s[Find(s, key)].inum;
    TreeHas(fs, i);
    assert HasName(s, Find(s, key), key);
    LastLink(g, dp, Find(s, key));
    ghost var calls, freed;
    r, calls := SysUnlink(fs, dp, name);
    TreeHas(fs, i);
    ok, freed := ic.Iput(fs, k);
  }

  lemma TreeHas(fs: Fs, i: nat)
    requires TreeOk(fs) && i < |fs.inodes|
    ensures var g := GraphOf(fs.inodes, fs.blocks);
            Inv(g) && g[i].typ == fs.inodes[i].typ && g[i].nlink == fs.inodes[i].nlink
  {
  }
}
