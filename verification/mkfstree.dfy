/** mkfs as a whole: the root directory, the files named on the command line, and the tree that the kernel finds. */
module MkfsTree {
  import opened Blocks
  import opened LogImage
  import opened Bitmap
  import opened BlockMap
  import opened FileContent
  import opened FileSystem
  import opened BoundedNames
  import opened Directory
  import opened Links
  import opened SysFile
  import opened Mkfs

  /** A file on the command line: its name, a NUL-terminated string, and its bytes. */
  datatype Input = Input(name: seq<Byte>, data: seq<Byte>)

  /** The name without the leading underscore of the program binaries. */
  function Stripped(name: seq<Byte>): seq<Byte> {
    if name != [] && name[0] == 95 then name[1..] else name
  }

  /** The name under which the file is found: cut to fourteen bytes. */
  function EntryName(f: Input): seq<Byte> {
    Key(Stripped(f.name), DIRSIZ)
  }

  /** The records of the root directory. */
  function Rows(files: seq<Input>): (s: seq<Slot>)
    ensures |s| == |files| + 2 && s[0] == Used(DOT, ROOT) && s[1] == Used(DOTDOT, ROOT)
    ensures forall j :: 0 <= j < |files| ==> s[j + 2] == Used(EntryName(files[j]), j + 2)
  {
    [Used(DOT, ROOT), Used(DOTDOT, ROOT)] +
    seq(|files|, j requires 0 <= j < |files| => Used(EntryName(files[j]), j + 2))
  }

  /** The cut names differ from each other and from the dots. */
  ghost predicate NamesOk(files: seq<Input>) {
    && (forall j :: 0 <= j < |files| ==> EntryName(files[j]) != DOT && EntryName(files[j]) != DOTDOT)
    && (forall j, k :: 0 <= j < k < |files| ==> EntryName(files[j]) != EntryName(files[k]))
  }

  // ---- The tree ----

  /** The graph that mkfs means to make: a root, with `extra` empty records at its end, and plain files. */
  function TreeOf(n: nat, files: seq<Input>, extra: nat): (g: Graph)
    requires |files| + 2 <= n
    ensures |g| == n && g[ROOT] == Node(T_DIR, 1, Rows(files) + seq(extra, _ => Free))
    ensures forall i :: 0 <= i < n && i != ROOT ==>
              g[i] == if 2 <= i < |files| + 2 then Node(T_FILE, 1, []) else Node(0, 0, [])
  {
    seq(n, i requires 0 <= i < n =>
      if i == ROOT then Node(T_DIR, 1, Rows(files) + seq(extra, _ => Free))
      else if 2 <= i < |files| + 2 then Node(T_FILE, 1, [])
      else Node(0, 0, []))
  }

  /** What the records of the root say. */
  lemma RootSlots(n: nat, files: seq<Input>, extra: nat)
    requires |files| + 2 <= n
    ensures var s := TreeOf(n, files, extra)[ROOT].slots;
            && |s| == |files| + 2 + extra && s[0] == Used(DOT, ROOT) && s[1] == Used(DOTDOT, ROOT)
            && (forall k :: 2 <= k < |files| + 2 ==> s[k] == Used(EntryName(files[k - 2]), k))
            && (forall k :: |files| + 2 <= k < |s| ==> s[k] == Free)
    ensures forall d: nat :: LinkedDir(TreeOf(n, files, extra), d) <==> d == ROOT
  {
    hide EntryName;
    var s := Rows(files) + seq(extra, _ => Free);
    assert TreeOf(n, files, extra)[ROOT].slots == s;
    forall k | 2 <= k < |files| + 2 ensures s[k] == Used(EntryName(files[k - 2]), k) {
      assert Rows(files)[(k - 2) + 2] == Used(EntryName(files[k - 2]), (k - 2) + 2);
    }
  }

  lemma TreeShape(n: nat, files: seq<Input>, extra: nat)
    requires |files| + 2 <= n && NamesOk(files)
    ensures Shape(TreeOf(n, files, extra))
  {
    hide EntryName, TreeOf, Rows, Key;
    var g := TreeOf(n, files, extra);
    TreeNodes(n, files, extra);
    RootSlots(n, files, extra);
    var s := g[ROOT].slots;
    forall d: nat, k: nat | d < |g| && k < |g[d].slots| ensures EntryOk(g, d, k) {
    }
    forall j, k | 0 <= j < k < |s| && s[j].Used? && s[k].Used? ensures s[j].name != s[k].name {
      if 2 <= j { assert EntryName(files[j - 2]) != EntryName(files[k - 2]); }
    }
    assert forall d: nat :: d < |g| ==> DotsOk(g, d) && OneEntry(g, d) && HasEntry(g, d);
  }

  /** The nodes of the tree, one by one. */
  lemma TreeNodes(n: nat, files: seq<Input>, extra: nat)
    requires |files| + 2 <= n
    ensures var g := TreeOf(n, files, extra);
            && |g| == n && g[ROOT].typ == T_DIR && g[ROOT].nlink == 1
            && (forall i :: 2 <= i < |files| + 2 ==> g[i] == Node(T_FILE, 1, []))
            && (forall i :: 0 <= i < n && i != ROOT && !(2 <= i < |files| + 2) ==> g[i] == Node(0, 0, []))
  {
  }

  lemma TreeCounts(n: nat, files: seq<Input>, extra: nat, i: nat)
    requires |files| + 2 <= n && NamesOk(files) && i < n
    ensures Counted(TreeOf(n, files, extra), i)
  {
    hide EntryName, TreeOf, Rows, Key;
    var g := TreeOf(n, files, extra);
    TreeNodes(n, files, extra);
    RootSlots(n, files, extra);
    var only: set<(nat, nat)> := if i == ROOT then {(ROOT, 1)} else if 2 <= i < |files| + 2 then {(ROOT, i)} else {};
    forall p: (nat, nat) ensures p in Refs(g, i) <==> p in only {
      InRefs(g, i, p);
      assert p == (p.0, p.1);
    }
    assert Refs(g, i) == only;
  }

  /** The link invariant holds of the tree exactly when the names are in order. */
  lemma TreeInv(n: nat, files: seq<Input>, extra: nat)
    requires |files| + 2 <= n
    ensures Inv(TreeOf(n, files, extra)) <==> NamesOk(files)
    ensures LinkedDir(TreeOf(n, files, extra), ROOT)
  {
    hide EntryName, TreeOf, Rows, Key, Counted;
    var g := TreeOf(n, files, extra);
    TreeNodes(n, files, extra);
    RootSlots(n, files, extra);
    if NamesOk(files) {
      TreeShape(n, files, extra);
      forall i: nat | i < |g| ensures Counted(g, i) { TreeCounts(n, files, extra, i); }
    }
    if Inv(g) {
      var s := g[ROOT].slots;
      forall j | 0 <= j < |files| ensures EntryName(files[j]) != DOT && EntryName(files[j]) != DOTDOT {
        assert EntryOk(g, ROOT, j + 2) && s[j + 2] == Used(EntryName(files[j]), j + 2);
      }
      forall j, k | 0 <= j < k < |files| ensures EntryName(files[j]) != EntryName(files[k]) {
        assert s[j + 2].name != s[k + 2].name;
      }
    }
  }

  // ---- Building it ----

  /** The first k files are in place: their records in the root, their inodes and their bytes. */
  ghost predicate Made(inodes: seq<Dinode>, blocks: Image, files: seq<Input>, k: nat) {
    && k <= |files| && k + 2 <= |inodes|
    && inodes[ROOT].typ == T_DIR && inodes[ROOT].nlink == 1 && inodes[ROOT].size == DENT * (k + 2)
    && Slots(Content(inodes[ROOT], blocks)) == Rows(files[..k])
    && (forall j :: 0 <= j < k ==> FileIs(inodes, blocks, j + 2, files[j].data))
    && (forall i :: 0 <= i < |inodes| && i != ROOT && !(2 <= i < k + 2) ==> inodes[i] == BlankInode(0, 0))
  }

  ghost predicate FileIs(inodes: seq<Dinode>, blocks: Image, i: nat, data: seq<Byte>) {
    i < |inodes| && inodes[i].typ == T_FILE && inodes[i].nlink == 1 && Content(inodes[i], blocks) == data
  }

  /** The blocks that the files take. */
  function FileBlocks(files: seq<Input>): nat {
    if files == [] then 0 else FileBlocks(files[..|files| - 1]) + BlocksFor(|files[|files| - 1].data|)
  }

  /** The blocks that the files take together with the root directory. */
  function AllBlocks(files: seq<Input>): nat {
    BlocksFor(DENT * (|files| + 2)) + FileBlocks(files)
  }

  lemma BlocksMore(files: seq<Input>, k: nat)
    requires k < |files|
    ensures AllBlocks(files[..k + 1]) ==
            AllBlocks(files[..k]) - BlocksFor(DENT * (k + 2)) + BlocksFor(DENT * (k + 3)) + BlocksFor(|files[k].data|)
    ensures AllBlocks(files[..k]) <= AllBlocks(files[..k + 1]) && BlocksFor(DENT * (k + 2)) <= BlocksFor(DENT * (k + 3))
  {
    hide BlocksFor;
    assert files[..k + 1][..k] == files[..k];
    BlocksForMonotone(DENT * (k + 2), DENT * (k + 3));
  }

  lemma {:induction false} BlocksLess(files: seq<Input>, k: nat)
    requires k <= |files|
    ensures AllBlocks(files[..k]) <= AllBlocks(files)
    decreases |files| - k
  {
    hide AllBlocks;
    if k < |files| {
      BlocksMore(files, k);
      BlocksLess(files, k + 1);
    } else {
      assert files[..k] == files;
    }
  }

  /** Append a record to the root. */
  method AppendEntry(b: Builder, k: nat, name: seq<Byte>, inum: nat) returns (ok: bool)
    requires b.Built() && ROOT < |b.dinodes| && b.dinodes[ROOT].size == DENT * k && DENT * k + DENT <= MAXFILE * BSIZE
    requires Readable(name, DIRSIZ) && 0 < inum < 0x1_0000
    modifies b`freeblock, b`usedblocks, b`blocks, b`dinodes, b`owner
    ensures |b.blocks| == |old(b.blocks)|
    ensures !ok ==> b.freeblock == |b.blocks|
    ensures ok ==> b.Built() && OthersSame(old(b.dinodes), old(b.blocks), b.dinodes, b.blocks, ROOT)
    ensures ok ==> SameFields(old(b.dinodes)[ROOT], b.dinodes[ROOT]) && b.dinodes[ROOT].size == DENT * (k + 1)
    ensures ok ==> Slots(Content(b.dinodes[ROOT], b.blocks)) ==
                   old(Slots(Content(b.dinodes[ROOT], b.blocks))) + [Used(Key(name, DIRSIZ), inum)]
    ensures ok <==> old(b.freeblock) + BlocksFor(DENT * (k + 1)) <= |b.blocks| + BlocksFor(DENT * k)
    ensures ok ==> b.freeblock == old(b.freeblock) + BlocksFor(DENT * (k + 1)) - BlocksFor(DENT * k)
  {
    hide BlocksFor, Builder.Built, Slots, Content, Decode, Key, Readable, Encode, Spliced, OthersSame, Replaced;
    var copy := Strncpy(name, DIRSIZ);
    var de := [inum % 256, inum / 256] + copy;
    EncodeIs(name, inum, de);
    EncodeDecode(name, inum);
    SizeOfContent(b.dinodes[ROOT], b.blocks);
    SplicedSlots(Content(b.dinodes[ROOT], b.blocks), k, de);
    ok := b.Iappend(ROOT, de);
    if ok {
      ReplacedContent(old(b.dinodes), old(b.blocks), b.dinodes, b.blocks, ROOT, DENT * k, de);
      ReplacedOthers(old(b.dinodes), old(b.blocks), b.dinodes, b.blocks, ROOT, DENT * k, de);
      LastSlot(old(Content(b.dinodes[ROOT], b.blocks)), k, de);
    }
  }

  lemma SizeOfContent(ip: Dinode, blocks: Image)
    ensures |Content(ip, blocks)| == ip.size
  {
  }

  lemma LastSlot(c: seq<Byte>, k: nat, de: seq<Byte>)
    requires |c| == DENT * k && |de| == DENT
    ensures |Slots(c)| == k && WithSlot(Slots(c), k, Decode(de)) == Slots(c) + [Decode(de)]
    ensures |Spliced(c, DENT * k, de)| == DENT * (k + 1)
  {
  }

  lemma OthersTrans(inodes: seq<Dinode>, blocks: Image, inodes1: seq<Dinode>, blocks1: Image,
                    inodes2: seq<Dinode>, blocks2: Image, i: nat)
    requires OthersSame(inodes, blocks, inodes1, blocks1, i) && OthersSame(inodes1, blocks1, inodes2, blocks2, i)
    ensures OthersSame(inodes, blocks, inodes2, blocks2, i)
  {
    hide MappedTo, Content;
  }

  lemma OthersRefl(inodes: seq<Dinode>, blocks: Image, i: nat)
    requires NoHoles(inodes, blocks) && i < |inodes|
    ensures OthersSame(inodes, blocks, inodes, blocks, i)
  {
    hide MappedTo, Content;
  }

  /** The loop that copies a file into the image, 512 bytes at a time. */
  method CopyFile(b: Builder, i: nat, data: seq<Byte>) returns (ok: bool)
    requires b.Built() && i < |b.dinodes| && b.dinodes[i].size == 0 && |data| <= MAXFILE * BSIZE
    modifies b`freeblock, b`usedblocks, b`blocks, b`dinodes, b`owner
    ensures |b.blocks| == |old(b.blocks)|
    ensures !ok ==> b.freeblock == |b.blocks|
    ensures ok ==> b.Built() && OthersSame(old(b.dinodes), old(b.blocks), b.dinodes, b.blocks, i)
    ensures ok ==> SameFields(old(b.dinodes)[i], b.dinodes[i]) && Content(b.dinodes[i], b.blocks) == data
    ensures ok <==> old(b.freeblock) + BlocksFor(|data|) <= |b.blocks|
    ensures ok ==> b.freeblock == old(b.freeblock) + BlocksFor(|data|)
  {
    assert BlocksFor(0) == 0;
    hide BlocksFor, Space, NoHoles, AllTight, AllZero, Content, Spliced, OthersSame, Replaced;
    OthersRefl(b.dinodes, b.blocks, i);
    SizeOfContent(b.dinodes[i], b.blocks);
    SpaceEnd(b.blocks, b.dinodes, b.owner, b.meta, b.freeblock);
    var pos := 0;
    while pos < |data|
      invariant pos <= |data| && b.Built() && |b.blocks| == |old(b.blocks)| && |b.dinodes| == |old(b.dinodes)|
      invariant OthersSame(old(b.dinodes), old(b.blocks), b.dinodes, b.blocks, i)
      invariant SameFields(old(b.dinodes)[i], b.dinodes[i]) && b.dinodes[i].size == pos
      invariant Content(b.dinodes[i], b.blocks) == data[..pos]
      invariant b.freeblock == old(b.freeblock) + BlocksFor(pos) <= |b.blocks|
    {
      var cc := Min(|data| - pos, BSIZE);
      var buf := data[pos..pos + cc];
      ghost var inodes1, blocks1 := b.dinodes, b.blocks;
      ok := b.Iappend(i, buf);
      if !ok {
        BlocksForMonotone(pos + cc, |data|);
        return;
      }
      ReplacedContent(inodes1, blocks1, b.dinodes, b.blocks, i, pos, buf);
      ReplacedOthers(inodes1, blocks1, b.dinodes, b.blocks, i, pos, buf);
      OthersTrans(old(b.dinodes), old(b.blocks), inodes1, blocks1, b.dinodes, b.blocks, i);
      SplicedTail(data, pos, cc);
      pos := pos + cc;
    }
    assert data[..pos] == data;
    return true;
  }

  lemma SplicedTail(data: seq<Byte>, pos: nat, cc: nat)
    requires pos + cc <= |data|
    ensures Spliced(data[..pos], pos, data[pos..pos + cc]) == data[..pos + cc]
  {
  }

  /** An inode, a record in the root and a copy: one more file in place. */
  lemma MadeStep(inodes: seq<Dinode>, blocks: Image, inodes1: seq<Dinode>, inodes2: seq<Dinode>, blocks2: Image,
                 inodes3: seq<Dinode>, blocks3: Image, files: seq<Input>, k: nat)
    requires Made(inodes, blocks, files, k) && k < |files| && k + 2 < |inodes|
    requires inodes1 == inodes[k + 2 := BlankInode(T_FILE, 1)]
    requires OthersSame(inodes1, blocks, inodes2, blocks2, ROOT) && SameFields(inodes1[ROOT], inodes2[ROOT])
    requires inodes2[ROOT].size == DENT * (k + 3)
    requires Slots(Content(inodes2[ROOT], blocks2)) ==
             Slots(Content(inodes[ROOT], blocks)) + [Used(EntryName(files[k]), k + 2)]
    requires OthersSame(inodes2, blocks2, inodes3, blocks3, k + 2) && SameFields(inodes2[k + 2], inodes3[k + 2])
    requires Content(inodes3[k + 2], blocks3) == files[k].data
    ensures Made(inodes3, blocks3, files, k + 1)
  {
    hide Slots, Content, MappedTo, EntryName;
    RowsMore(files, k);
    forall j | 0 <= j < k + 1 ensures FileIs(inodes3, blocks3, j + 2, files[j].data) {
      if j < k { assert FileIs(inodes, blocks, j + 2, files[j].data); }
    }
  }

  lemma RowsMore(files: seq<Input>, k: nat)
    requires k < |files|
    ensures Rows(files[..k + 1]) == Rows(files[..k]) + [Used(EntryName(files[k]), k + 2)]
  {
    hide EntryName;
    var s := Rows(files[..k]) + [Used(EntryName(files[k]), k + 2)];
    forall j | 0 <= j < k + 3 ensures Rows(files[..k + 1])[j] == s[j] {
      if 2 <= j {
        assert Rows(files[..k + 1])[(j - 2) + 2] == Used(EntryName(files[..k + 1][j - 2]), (j - 2) + 2);
        if j < k + 2 { assert Rows(files[..k])[(j - 2) + 2] == Used(EntryName(files[..k][j - 2]), (j - 2) + 2); }
      }
    }
  }

  /** The first k files fit, apart from the number of blocks: into the inode table, into the root, and each into a
      file. */
  ghost predicate Fits(n: nat, files: seq<Input>, k: nat) {
    && k <= |files| && k + 2 <= n && DENT * (k + 2) <= MAXFILE * BSIZE
    && (forall j :: 0 <= j < k ==> |files[j].data| <= MAXFILE * BSIZE)
  }

  predicate Terminated(name: seq<Byte>) {
    0 in name
  }

  lemma StrippedReadable(name: seq<Byte>)
    requires Terminated(name)
    ensures Readable(Stripped(name), DIRSIZ)
  {
    var s := Stripped(name);
    var i :| 0 <= i < |name| && name[i] == 0;
    var j, k := if s == name then i else i - 1, Key(s, DIRSIZ);
    assert forall x :: 0 <= x < |k| ==> s[x] == k[x] && k[x] in k;
    assert s[j] == 0;
  }

  /** One turn of the loop over the command line. Without a check the original would go on past the inode table. */
  method AddFile(b: Builder, ghost files: seq<Input>, k: nat, f: Input) returns (ok: bool)
    requires b.Built() && Made(b.dinodes, b.blocks, files, k) && k < |files| && f == files[k]
    requires Fits(|b.dinodes|, files, k)
    requires b.freeinode == k + 2 && |b.dinodes| <= 0x1_0000 && Terminated(f.name)
    requires b.freeblock == b.meta + AllBlocks(files[..k])
    modifies b
    ensures |b.blocks| == |old(b.blocks)|
    ensures ok <==> Fits(|old(b.dinodes)|, files, k + 1) && b.meta + AllBlocks(files[..k + 1]) <= |b.blocks|
    ensures ok ==> b.freeblock == b.meta + AllBlocks(files[..k + 1])
    ensures ok ==> b.Built() && Made(b.dinodes, b.blocks, files, k + 1) && b.freeinode == k + 3
    ensures ok ==> |b.dinodes| == |old(b.dinodes)| && Fits(|b.dinodes|, files, k + 1)
  {
    hide Builder.Built, Slots, Content, OthersSame, Key, Readable, Rows, FileIs, Stripped, BlocksFor, AllBlocks;
    StrippedReadable(f.name);
    BlocksMore(files, k);
    if k + 2 == |b.dinodes| || DENT * (k + 3) > MAXFILE * BSIZE || |f.data| > MAXFILE * BSIZE {
      assert !Fits(|b.dinodes|, files, k + 1);
      return false;
    }
    ghost var inodes, blocks := b.dinodes, b.blocks;
    var inum := b.Ialloc(T_FILE);
    ghost var inodes1 := b.dinodes;
    ok := AppendEntry(b, k + 2, Stripped(f.name), inum);
    if !ok {
      return;
    }
    ghost var inodes2, blocks2 := b.dinodes, b.blocks;
    OthersAt(inodes1, blocks, inodes2, blocks2, ROOT, inum);
    ok := CopyFile(b, inum, f.data);
    if !ok {
      return;
    }
    OthersAt(inodes2, blocks2, b.dinodes, b.blocks, inum, ROOT);
    MadeStep(inodes, blocks, inodes1, inodes2, blocks2, b.dinodes, b.blocks, files, k);
  }

  lemma OthersAt(inodes: seq<Dinode>, blocks: Image, inodes': seq<Dinode>, blocks': Image, i: nat, x: nat)
    requires OthersSame(inodes, blocks, inodes', blocks', i) && x < |inodes| && x != i
    ensures |inodes'| == |inodes| && inodes'[x] == inodes[x]
  {
    hide MappedTo, Content;
  }

  /** The root directory with its two dots. */
  method MakeRoot(b: Builder, ghost files: seq<Input>) returns (ok: bool)
    requires b.Built() && b.freeinode == ROOT && 2 <= |b.dinodes|
    requires forall i :: 0 <= i < |b.dinodes| ==> b.dinodes[i] == BlankInode(0, 0)
    modifies b
    ensures |b.blocks| == |old(b.blocks)|
    ensures ok <==> old(b.freeblock) + AllBlocks([]) <= |b.blocks|
    ensures ok ==> b.freeblock == old(b.freeblock) + AllBlocks([])
    ensures ok ==> b.Built() && Made(b.dinodes, b.blocks, files, 0) && b.freeinode == 2
    ensures ok ==> |b.dinodes| == |old(b.dinodes)|
  {
    hide Builder.Built, Content, Key, Readable;
    DotBuffers();
    var rootino := b.Ialloc(T_DIR);
    ghost var inodes1, blocks1 := b.dinodes, b.blocks;
    NoSlots(b.dinodes[ROOT], b.blocks);
    SizeOfContent(b.dinodes[ROOT], b.blocks);
    ok := AppendEntry(b, 0, DOT_BUFFER, rootino);
    if !ok {
      return;
    }
    ghost var inodes2, blocks2 := b.dinodes, b.blocks;
    SizeOfContent(b.dinodes[ROOT], b.blocks);
    ok := AppendEntry(b, 1, DOTDOT_BUFFER, rootino);
    if !ok {
      return;
    }
    RootMade(inodes1, blocks1, inodes2, blocks2, b.dinodes, b.blocks, files);
  }

  lemma RootMade(inodes1: seq<Dinode>, blocks1: Image, inodes2: seq<Dinode>, blocks2: Image,
                 inodes3: seq<Dinode>, blocks3: Image, files: seq<Input>)
    requires 2 <= |inodes1| && inodes1[ROOT] == BlankInode(T_DIR, 1)
    requires forall i :: 0 <= i < |inodes1| && i != ROOT ==> inodes1[i] == BlankInode(0, 0)
    requires OthersSame(inodes1, blocks1, inodes2, blocks2, ROOT)
    requires OthersSame(inodes2, blocks2, inodes3, blocks3, ROOT)
    requires SameFields(inodes1[ROOT], inodes2[ROOT]) && SameFields(inodes2[ROOT], inodes3[ROOT])
    requires inodes2[ROOT].size == DENT && inodes3[ROOT].size == 2 * DENT
    requires |Content(inodes1[ROOT], blocks1)| == 0 && |Content(inodes2[ROOT], blocks2)| == DENT
    requires Slots(Content(inodes2[ROOT], blocks2)) == Slots(Content(inodes1[ROOT], blocks1)) + [Used(DOT, ROOT)]
    requires Slots(Content(inodes3[ROOT], blocks3)) == Slots(Content(inodes2[ROOT], blocks2)) + [Used(DOTDOT, ROOT)]
    ensures Made(inodes3, blocks3, files, 0)
  {
    hide Content, MappedTo;
    assert Slots(Content(inodes1[ROOT], blocks1)) == [];
    assert files[..0] == [];
    assert Rows([]) == [Used(DOT, ROOT), Used(DOTDOT, ROOT)];
  }

  /** mkfs up to its last lines: the root and the files of the command line. */
  method Populate(size: nat, n: nat, files: seq<Input>) returns (b: Builder, ok: bool)
    requires Meta(size, n) <= size <= BPB && 2 <= n <= 0x1_0000
    requires forall j :: 0 <= j < |files| ==> Terminated(files[j].name)
    ensures fresh(b) && |b.blocks| == size && b.meta == Meta(size, n)
    ensures ok <==> Fits(n, files, |files|) && ImageEnd(size, n, files) <= size
    ensures ok ==> b.Built() && Made(b.dinodes, b.blocks, files, |files|) && |b.dinodes| == n
    ensures ok ==> b.freeblock == ImageEnd(size, n, files)
  {
    hide Builder.Built, Made, AllBlocks;
    b := new Builder(size, n);
    ok := MakeRoot(b, files);
    assert files[..0] == [];
    if !ok {
      BlocksLess(files, 0);
      return;
    }
    var i := 0;
    while i < |files|
      invariant i <= |files| && b.Built() && Made(b.dinodes, b.blocks, files, i) && b.freeinode == i + 2
      invariant Fits(n, files, i) && b.freeblock == b.meta + AllBlocks(files[..i]) <= size
      invariant fresh(b) && |b.dinodes| == n && |b.blocks| == size && b.meta == Meta(size, n)
    {
      ok := AddFile(b, files, i, files[i]);
      if !ok {
        FitsLess(n, files, i + 1);
        BlocksLess(files, i + 1);
        return;
      }
      i := i + 1;
    }
    assert files[..i] == files;
    return b, true;
  }

  /** mkfs: an image with the given files, as the kernel will find it. It is null when something does not fit: the
      blocks of the files and the root, the inode table, the root directory, or a single file. The directory tree is in
      order exactly when the cut names are distinct and no dots, and the records do not fill the last block of the root.
      Blocks are handed out without regard to the log, which keeps its sectors exactly when the blocks all lie before
      it; then its header is empty. */
  method MakeImage(size: nat, n: nat, nlog: nat, files: seq<Input>) returns (b: Builder, fs: Fs?)
    requires Meta(size, n) + nlog <= size <= BPB && 0 < nlog && 2 <= n <= 0x1_0000
    requires forall j :: 0 <= j < |files| ==> Terminated(files[j].name)
    ensures fs != null <==>
              Fits(n, files, |files|) && ImageEnd(size, n, files) <= size && ImageEnd(size, n, files) < BPB
    ensures fs != null ==> fresh(fs) && fs.Valid() && !fs.open && |fs.inodes| == n && |fs.blocks| == size
    ensures fs != null ==> (TreeOk(fs) <==> NamesOk(files) && DENT * (|files| + 2) % BSIZE != 0)
    ensures fs != null ==> Shows(fs.inodes, fs.blocks, files)
    ensures fs != null ==>
              && |fs.bits| == BSIZE && fs.meta == Meta(size, n)
              && forall c: nat :: c < BPB ==> Bitmap.Used(fs.bits, c) == (c < ImageEnd(size, n, files))
    ensures fs != null ==> ROOT < |fs.inodes| && Entered(GraphOf(fs.inodes, fs.blocks)[ROOT].slots, files)
    ensures fs != null ==> Lean(fs.inodes, fs.blocks, ROOT, DENT * (|files| + 2))
    ensures fs != null ==>
              (OutsideLog(fs.owner, size - nlog) <==> ImageEnd(size, n, files) <= size - nlog)
    ensures fs != null && ImageEnd(size, n, files) <= size - nlog ==> EmptyLog(fs.blocks, size - nlog)
  {
    hide Builder.Built, Made, NodeOf, Inv, TreeOf, NamesOk, Content, FsOk, NoHoles, Covered, AllTidy, LinkedDir,
         AllBlocks, Lean, EmptyLog, Bitmap.Used, Fits, Space, OutsideLog, Shows, Entered;
    var ok;
    b, ok := Populate(size, n, files);
    if !ok {
      return b, null;
    }
    fs := Seal(b, n, files);
    if fs != null { NamesEntered(fs.inodes, fs.blocks, files); }
    LogUntouched(b.blocks, b.dinodes, b.owner, b.meta, b.freeblock, size - nlog);
  }

  /** The sectors before the first block that mkfs hands out. */
  function Meta(size: nat, n: nat): nat {
    n / IPB + 3 + size / BPB + 1
  }

  /** The first block that is still free at the end. */
  function ImageEnd(size: nat, n: nat, files: seq<Input>): nat {
    Meta(size, n) + AllBlocks(files)
  }

  /** The kernel finds the tree and the bytes of the files. */
  ghost predicate Shows(inodes: seq<Dinode>, blocks: Image, files: seq<Input>) {
    && |files| + 2 <= |inodes|
    && (exists extra :: GraphOf(inodes, blocks) == TreeOf(|inodes|, files, extra))
    && (forall j :: 0 <= j < |files| ==> Content(inodes[j + 2], blocks) == files[j].data)
  }

  /** The records of the root: the two dots, and each file under its name, cut to fourteen bytes. A name on the command
      line that begins with an underscore is entered without it. */
  predicate Entered(s: seq<Slot>, files: seq<Input>) {
    && |files| + 2 <= |s| && s[0] == Used([46], ROOT) && s[1] == Used([46, 46], ROOT)
    && (forall j :: 0 <= j < |files| ==>
          var name := files[j].name;
          s[j + 2] == Used(Key(if name != [] && name[0] == 95 then name[1..] else name, DIRSIZ), j + 2))
    && (forall k :: |files| + 2 <= k < |s| ==> s[k].Free?)
  }

  lemma NamesEntered(inodes: seq<Dinode>, blocks: Image, files: seq<Input>)
    requires Shows(inodes, blocks, files)
    ensures ROOT < |inodes| && Entered(GraphOf(inodes, blocks)[ROOT].slots, files)
  {
    hide Content, Slots, Key;
    var extra :| GraphOf(inodes, blocks) == TreeOf(|inodes|, files, extra);
    RootSlots(|inodes|, files, extra);
  }

  /** The log at the end of the disk is empty, so that recovery keeps the image. */
  ghost predicate EmptyLog(blocks: Image, start: nat) {
    && start < |blocks| && HeadN(blocks, start) == 0
    && HeaderOk(blocks, start) && Recovered(blocks, start) == blocks[..start]
  }

  predicate OutsideLog(owner: Owner, start: nat) {
    forall c :: c in owner ==> c < start
  }

  /** The blocks from free on are still zero, so a log header there is empty. */
  lemma LogUntouched(blocks: Image, inodes: seq<Dinode>, owner: Owner, meta: nat, free: nat, start: nat)
    requires Space(blocks, inodes, owner, meta, free) && meta <= start < |blocks|
    ensures OutsideLog(owner, start) <==> free <= start
    ensures free <= start ==> EmptyLog(blocks, start)
  {
    hide EmptyLog, Owned, IsZero;
    if free <= start {
      assert IsZero(blocks[start]);
      ZeroHeader(blocks, start);
    } else {
      assert free - 1 in owner;
    }
  }

  lemma ZeroHeader(blocks: Image, start: nat)
    requires start < |blocks| && IsZero(blocks[start])
    ensures EmptyLog(blocks, start)
  {
    hide HeaderOk, Recovered, GetWord;
    assert blocks[start] == ZeroBlock;
    ZeroBlockWords(0);
    EmptyRecovers(blocks, start);
  }

  lemma FitsLess(n: nat, files: seq<Input>, k: nat)
    requires k <= |files|
    ensures Fits(n, files, |files|) ==> Fits(n, files, k)
  {
  }

  /** The end of mkfs: the rounded root size and the bitmap. */
  method Seal(b: Builder, n: nat, files: seq<Input>) returns (fs: Fs?)
    requires b.Built() && Made(b.dinodes, b.blocks, files, |files|) && |b.blocks| <= BPB
    requires |b.dinodes| == n <= 0x1_0000 && b.meta == Meta(|b.blocks|, n)
    modifies b`dinodes
    ensures fs != null <==> b.freeblock < BPB
    ensures fs != null ==> fresh(fs) && fs.Valid() && !fs.open && |fs.inodes| == n
    ensures fs != null ==>
              && fs.blocks == b.blocks && fs.owner == b.owner && fs.meta == b.meta && |fs.bits| == BSIZE
              && forall c: nat :: c < BPB ==> Bitmap.Used(fs.bits, c) == (c < b.freeblock)
    ensures Space(b.blocks, b.dinodes, b.owner, b.meta, b.freeblock)
    ensures fs != null ==> Lean(fs.inodes, fs.blocks, ROOT, DENT * (|files| + 2))
    ensures fs != null ==> (TreeOk(fs) <==> NamesOk(files) && DENT * (|files| + 2) % BSIZE != 0)
    ensures fs != null ==> Shows(fs.inodes, fs.blocks, files)
  {
    hide Space, AllTight, AllZero, NodeOf, Inv, TreeOf, NamesOk, Content, FsOk, NoHoles, Covered, AllTidy, Made, Rows;
    SpaceEnd(b.blocks, b.dinodes, b.owner, b.meta, b.freeblock);
    if b.usedblocks >= BPB {
      return null;
    }
    ghost var inodes := b.dinodes;
    RootGrows(inodes, b.blocks, files);
    var bits := b.Finish(ROOT);
    ghost var extra := WholeBlocks(inodes[ROOT].size, |files| + 2);
    Sealed(inodes, b.blocks, b.dinodes, files, extra);
    TreeInv(n, files, extra);
    fs := new Fs(n, bits, b.blocks, b.dinodes, b.owner);
  }

  lemma SpaceEnd(blocks: Image, inodes: seq<Dinode>, owner: Owner, meta: nat, free: nat)
    requires Space(blocks, inodes, owner, meta, free)
    ensures free <= |blocks|
  {
  }

  lemma RootGrows(inodes: seq<Dinode>, blocks: Image, files: seq<Input>)
    requires Made(inodes, blocks, files, |files|)
    ensures |files| + 2 <= |inodes| && inodes[ROOT].size == DENT * (|files| + 2)
  {
  }

  /** Zero bytes at the end of the root are empty records, so the tree is the intended one. */
  lemma Sealed(inodes: seq<Dinode>, blocks: Image, inodes': seq<Dinode>, files: seq<Input>, extra: nat)
    requires Made(inodes, blocks, files, |files|)
    requires inodes' == inodes[ROOT := inodes[ROOT].(size := inodes[ROOT].size + DENT * extra)]
    requires Content(inodes'[ROOT], blocks) == Content(inodes[ROOT], blocks) + seq(DENT * extra, _ => 0)
    ensures |files| + 2 <= |inodes'| && GraphOf(inodes', blocks) == TreeOf(|inodes'|, files, extra)
    ensures AllTidy(inodes') && inodes'[0].typ == 0
    ensures forall j :: 0 <= j < |files| ==> Content(inodes'[j + 2], blocks) == files[j].data
  {
    hide Content, Slots, Rows, EntryName;
    SizeOfContent(inodes[ROOT], blocks);
    ZeroSlots(Content(inodes[ROOT], blocks), |files| + 2, extra);
    assert files[..|files|] == files;
    forall i | 0 <= i < |inodes'|
      ensures NodeOf(inodes'[i], blocks) == TreeOf(|inodes'|, files, extra)[i] && Tidy(inodes'[i]) {
      if 2 <= i < |files| + 2 { assert FileIs(inodes, blocks, (i - 2) + 2, files[i - 2].data); }
    }
    forall j | 0 <= j < |files| ensures Content(inodes'[j + 2], blocks) == files[j].data {
      assert FileIs(inodes, blocks, j + 2, files[j].data);
    }
  }

  lemma WholeBlocks(size: nat, k: nat) returns (extra: nat)
    requires size == DENT * k
    ensures (size / BSIZE + 1) * BSIZE == size + DENT * extra
  {
    extra := ((size / BSIZE + 1) * BSIZE - size) / DENT;
  }

  /** A record of zero bytes is an empty one. */
  lemma ZeroSlots(c: seq<Byte>, k: nat, extra: nat)
    requires |c| == DENT * k
    ensures var d := c + seq(DENT * extra, _ => 0);
            |d| % DENT == 0 && Slots(d) == Slots(c) + seq(extra, _ => Free)
  {
    hide Key;
    var d := c + seq(DENT * extra, _ => 0);
    assert |d| == DENT * (k + extra);
    forall j | 0 <= j < k + extra ensures Slots(d)[j] == (Slots(c) + seq(extra, _ => Free))[j] {
      if j < k {
        assert d[DENT * j..DENT * j + DENT] == c[DENT * j..DENT * j + DENT];
      } else {
        assert d[DENT * j] == 0 && d[DENT * j + 1] == 0;
      }
    }
  }
}
