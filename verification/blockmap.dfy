/** Which disk block holds which part of which file: direct addresses, the indirect block, and who owns each block. */
module BlockMap {
  import opened Blocks

  const NDIRECT := 12
  const NINDIRECT := 128
  const MAXFILE := NDIRECT + NINDIRECT

  /** An inode: the fields that memory and disk copies share. */
  datatype Dinode = Dinode(typ: int, major: int, minor: int, nlink: int, size: nat, addrs: seq<nat>)

  /** The places of an inode that can name a block: the direct addresses, the indirect address, and the indirect
      entries. */
  const NSLOTS := NDIRECT + 1 + NINDIRECT
  const INDIRECT_SLOT := NDIRECT

  /** The slot that names block bn of the file. */
  function SlotOf(bn: nat): nat {
    if bn < NDIRECT then bn else bn + 1
  }

  /** The block named by a slot, or 0. */
  function Ref(ip: Dinode, blocks: Image, k: nat): nat
    requires |ip.addrs| == NDIRECT + 1 && k < NSLOTS
  {
    if k <= NDIRECT then ip.addrs[k]
    else if 0 < ip.addrs[NDIRECT] < |blocks| then GetWord(blocks[ip.addrs[NDIRECT]], k - NDIRECT - 1)
    else 0
  }

  type Owner = map<nat, (nat, nat)>

  /** Every owned block is named by exactly the slot that `owner` says, and every named block is owned. */
  ghost predicate Owned(inodes: seq<Dinode>, blocks: Image, owner: Owner, meta: nat) {
    && 0 < meta && |blocks| <= WORD_LIMIT
    && (forall i :: 0 <= i < |inodes| ==> |inodes[i].addrs| == NDIRECT + 1)
    && (forall b :: b in owner ==> Names(inodes, blocks, owner[b].0, owner[b].1, b) && meta <= b < |blocks|)
    && (forall i: nat, k: nat :: i < |inodes| && k < NSLOTS && Ref(inodes[i], blocks, k) != 0 ==>
          Ref(inodes[i], blocks, k) in owner && owner[Ref(inodes[i], blocks, k)] == (i, k))
  }

  predicate Names(inodes: seq<Dinode>, blocks: Image, i: nat, k: nat, b: nat) {
    i < |inodes| && k < NSLOTS && |inodes[i].addrs| == NDIRECT + 1 && Ref(inodes[i], blocks, k) == b
  }

  /** The slots name the same blocks before and after. */
  ghost predicate SameRefs(inodes: seq<Dinode>, blocks: Image, inodes': seq<Dinode>, blocks': Image) {
    && |inodes| == |inodes'| && |blocks| == |blocks'|
    && (forall i :: 0 <= i < |inodes| ==> |inodes[i].addrs| == |inodes'[i].addrs| == NDIRECT + 1)
    && (forall i: nat, k: nat :: i < |inodes| && k < NSLOTS ==>
          Ref(inodes'[i], blocks', k) == Ref(inodes[i], blocks, k))
  }

  lemma OwnedSame(inodes: seq<Dinode>, blocks: Image, inodes': seq<Dinode>, blocks': Image, owner: Owner, meta: nat)
    requires Owned(inodes, blocks, owner, meta) && SameRefs(inodes, blocks, inodes', blocks')
    ensures Owned(inodes', blocks', owner, meta)
  {
    forall b | b in owner ensures Names(inodes', blocks', owner[b].0, owner[b].1, b) {
      assert Names(inodes, blocks, owner[b].0, owner[b].1, b);
    }
  }

  /** A block that is not an indirect block can take any contents. */
  lemma RefsIgnoreData(inodes: seq<Dinode>, blocks: Image, owner: Owner, meta: nat, b: nat, data: Block)
    requires Owned(inodes, blocks, owner, meta) && b < |blocks|
    requires b in owner ==> owner[b].1 != INDIRECT_SLOT
    ensures SameRefs(inodes, blocks, inodes, blocks[b := data])
  {
    forall i: nat, k: nat | i < |inodes| && k < NSLOTS
      ensures Ref(inodes[i], blocks[b := data], k) == Ref(inodes[i], blocks, k) {
      assert inodes[i].addrs[NDIRECT] == Ref(inodes[i], blocks, INDIRECT_SLOT);
    }
  }

  /** Slot k of file i now names b; every other slot of every file is as it was. */
  ghost predicate OneMoreRef(inodes: seq<Dinode>, blocks: Image, inodes': seq<Dinode>, blocks': Image, i: nat, k: nat,
                             b: nat) {
    && |inodes| == |inodes'| && |blocks| == |blocks'|
    && (forall x :: 0 <= x < |inodes| ==> |inodes[x].addrs| == |inodes'[x].addrs| == NDIRECT + 1)
    && (forall x: nat, y: nat :: x < |inodes| && y < NSLOTS ==>
          Ref(inodes'[x], blocks', y) == if x == i && y == k then b else Ref(inodes[x], blocks, y))
  }

  function WithAddr(ip: Dinode, k: nat, b: nat): Dinode
    requires k < |ip.addrs|
  {
    ip.(addrs := ip.addrs[k := b])
  }

  /** Naming an unowned block in an empty slot makes that slot its owner. */
  lemma OwnedMore(inodes: seq<Dinode>, blocks: Image, inodes': seq<Dinode>, blocks': Image, owner: Owner, meta: nat,
                  i: nat, k: nat, b: nat)
    requires Owned(inodes, blocks, owner, meta) && OneMoreRef(inodes, blocks, inodes', blocks', i, k, b)
    requires i < |inodes| && k < NSLOTS && Ref(inodes[i], blocks, k) == 0 && meta <= b < |blocks| && b !in owner
    ensures Owned(inodes', blocks', owner[b := (i, k)], meta)
  {
    hide Ref;
    var owner' := owner[b := (i, k)];
    forall c | c in owner' ensures Names(inodes', blocks', owner'[c].0, owner'[c].1, c) && meta <= c < |blocks| {
      assert c != b ==> Names(inodes, blocks, owner[c].0, owner[c].1, c);
    }
  }

  /** Point an empty direct or indirect address at an unowned block. */
  lemma OwnedAddr(inodes: seq<Dinode>, blocks: Image, owner: Owner, meta: nat, i: nat, k: nat, b: nat)
    requires Owned(inodes, blocks, owner, meta) && i < |inodes| && k <= NDIRECT && Ref(inodes[i], blocks, k) == 0
    requires meta <= b < |blocks| && b !in owner
    requires k == INDIRECT_SLOT ==> forall j: nat :: j < NINDIRECT ==> GetWord(blocks[b], j) == 0
    ensures Owned(inodes[i := WithAddr(inodes[i], k, b)], blocks, owner[b := (i, k)], meta)
    ensures OneMoreRef(inodes, blocks, inodes[i := WithAddr(inodes[i], k, b)], blocks, i, k, b)
  {
    hide GetWord;
    var inodes' := inodes[i := WithAddr(inodes[i], k, b)];
    assert OneMoreRef(inodes, blocks, inodes', blocks, i, k, b);
    OwnedMore(inodes, blocks, inodes', blocks, owner, meta, i, k, b);
  }

  lemma EntrySet(inodes: seq<Dinode>, blocks: Image, owner: Owner, meta: nat, i: nat, j: nat, b: nat)
    requires Owned(inodes, blocks, owner, meta) && i < |inodes| && j < NINDIRECT && inodes[i].addrs[NDIRECT] != 0
    requires b < WORD_LIMIT
    ensures var a := inodes[i].addrs[NDIRECT];
            a < |blocks| && OneMoreRef(inodes, blocks, inodes, blocks[a := SetWord(blocks[a], j, b)], i,
                NDIRECT + 1 + j, b)
  {
    hide GetWord;
    var a := inodes[i].addrs[NDIRECT];
    assert a == Ref(inodes[i], blocks, INDIRECT_SLOT);
    var blocks' := blocks[a := SetWord(blocks[a], j, b)];
    forall x: nat, y: nat | x < |inodes| && y < NSLOTS
      ensures Ref(inodes[x], blocks', y) == if x == i && y == NDIRECT + 1 + j then b else Ref(inodes[x], blocks, y) {
      assert inodes[x].addrs[NDIRECT] == Ref(inodes[x], blocks, INDIRECT_SLOT);
    }
  }

  /** Point an empty indirect entry at an unowned block. */
  lemma OwnedEntry(inodes: seq<Dinode>, blocks: Image, owner: Owner, meta: nat, i: nat, j: nat, b: nat)
    requires Owned(inodes, blocks, owner, meta) && i < |inodes| && j < NINDIRECT
    requires Ref(inodes[i], blocks, NDIRECT + 1 + j) == 0
    requires inodes[i].addrs[NDIRECT] != 0 && meta <= b < |blocks| && b !in owner
    ensures var a := inodes[i].addrs[NDIRECT];
            && a < |blocks|
            && Owned(inodes, blocks[a := SetWord(blocks[a], j, b)], owner[b := (i, NDIRECT + 1 + j)], meta)
            && OneMoreRef(inodes, blocks, inodes, blocks[a := SetWord(blocks[a], j, b)], i, NDIRECT + 1 + j, b)
  {
    hide GetWord, SetWord, Ref, OneMoreRef;
    EntrySet(inodes, blocks, owner, meta, i, j, b);
    var a := inodes[i].addrs[NDIRECT];
    OwnedMore(inodes, blocks, inodes, blocks[a := SetWord(blocks[a], j, b)], owner, meta, i, NDIRECT + 1 + j, b);
  }

  /** Ownership without some slots of file i. */
  ghost function Without(own: Owner, i: nat, done: set<nat>): Owner {
    map b | b in own && !(own[b].0 == i && own[b].1 in done) :: own[b]
  }

  /** Ownership without file i. */
  ghost function Disowned(own: Owner, i: nat): Owner {
    map b | b in own && own[b].0 != i :: own[b]
  }

  ghost function SlotRange(lo: nat, hi: nat): (r: set<nat>)
    ensures forall k: nat :: k in r <==> lo <= k < hi
  {
    if hi <= lo then {} else SlotRange(lo, hi - 1) + {hi - 1}
  }

  lemma SlotRangeMore(lo: nat, hi: nat)
    requires lo <= hi
    ensures SlotRange(lo, hi + 1) == SlotRange(lo, hi) + {hi} && hi !in SlotRange(lo, hi)
    ensures NDIRECT <= hi ==> hi !in SlotRange(0, NDIRECT)
  {
  }

  lemma SlotRangeNone(lo: nat)
    ensures SlotRange(lo, lo) == {}
  {
  }

  lemma SlotRangeDone()
    ensures NDIRECT !in SlotRange(0, NDIRECT) + SlotRange(NDIRECT + 1, NSLOTS)
    ensures SlotRange(0, NDIRECT) + SlotRange(NDIRECT + 1, NSLOTS) + {NDIRECT} == SlotRange(0, NSLOTS)
  {
  }

  lemma WithoutNone(own: Owner, i: nat)
    ensures Without(own, i, SlotRange(0, 0)) == own
  {
  }

  lemma SlotDropped(table: seq<Dinode>, blocks: Image, own: Owner, meta: nat, i: nat, k: nat, done: set<nat>)
    requires Owned(table, blocks, own, meta) && i < |table| && k < NSLOTS && k !in done
    ensures var b := Ref(table[i], blocks, k);
            if b == 0 then Without(own, i, done + {k}) == Without(own, i, done)
            else
              && b in Without(own, i, done) && meta <= b < |blocks|
              && Without(own, i, done + {k}) == Without(own, i, done) - {b}
  {
    hide GetWord, Ref;
    var b := Ref(table[i], blocks, k);
    assert 0 !in own;
    forall c | c in own ensures own[c] == (i, k) <==> c == b {
      assert Names(table, blocks, own[c].0, own[c].1, c);
    }
  }

  lemma AddrsRef(table: seq<Dinode>, blocks: Image, own: Owner, meta: nat, i: nat)
    requires Owned(table, blocks, own, meta) && i < |table|
    ensures |table[i].addrs| == NDIRECT + 1
    ensures forall k: nat :: k <= NDIRECT ==> Ref(table[i], blocks, k) == table[i].addrs[k]
  {
  }

  lemma EntriesRef(table: seq<Dinode>, blocks: Image, own: Owner, meta: nat, i: nat)
    requires Owned(table, blocks, own, meta) && i < |table| && |table[i].addrs| == NDIRECT + 1
    requires table[i].addrs[NDIRECT] != 0
    ensures table[i].addrs[NDIRECT] < |blocks|
    ensures forall j: nat :: j < NINDIRECT ==>
              Ref(table[i], blocks, NDIRECT + 1 + j) == GetWord(blocks[table[i].addrs[NDIRECT]], j)
  {
    assert Ref(table[i], blocks, INDIRECT_SLOT) == table[i].addrs[NDIRECT];
  }

  /** Once the direct blocks are freed, and the indirect block with its entries if there is one, file i owns nothing. */
  lemma AllFreed(table: seq<Dinode>, blocks: Image, own: Owner, meta: nat, i: nat, done: set<nat>)
    requires Owned(table, blocks, own, meta) && i < |table| && |table[i].addrs| == NDIRECT + 1
    requires done == SlotRange(0, NSLOTS) || (done == SlotRange(0, NDIRECT) && table[i].addrs[NDIRECT] == 0)
    ensures Without(own, i, done) == Disowned(own, i)
  {
    hide GetWord;
    forall b | b in own && own[b].0 == i ensures own[b].1 in done {
      assert Names(table, blocks, i, own[b].1, b);
    }
  }

  /** The inode once its first k addresses are cleared. */
  function ClearedTo(ip: Dinode, k: nat): Dinode
    requires k <= |ip.addrs|
  {
    ip.(addrs := seq(k, _ => 0) + ip.addrs[k..])
  }

  lemma ClearedNone(ip: Dinode)
    ensures ClearedTo(ip, 0) == ip
  {
    assert ClearedTo(ip, 0).addrs == ip.addrs;
  }

  lemma ClearedStep(ip: Dinode, k: nat)
    requires k < |ip.addrs|
    ensures |ClearedTo(ip, k).addrs| == |ip.addrs| && ClearedTo(ip, k).addrs[k] == ip.addrs[k]
    ensures ClearedTo(ip, k + 1) == WithAddr(ClearedTo(ip, k), k, 0)
    ensures ip.addrs[k] == 0 ==> ClearedTo(ip, k + 1) == ClearedTo(ip, k)
  {
    ClearedAddrs(ip.addrs, k);
  }

  lemma ClearedAddrs(addrs: seq<nat>, k: nat)
    requires k < |addrs|
    ensures var done, more := seq(k, _ => 0) + addrs[k..], seq(k + 1, _ => 0) + addrs[k + 1..];
            |done| == |addrs| && done[k] == addrs[k] && more == done[k := 0]
  {
  }

  function Emptied(ip: Dinode): Dinode {
    ip.(addrs := seq(NDIRECT + 1, _ => 0), size := 0)
  }

  lemma EmptiedOwned(table: seq<Dinode>, blocks: Image, own: Owner, meta: nat, i: nat)
    requires Owned(table, blocks, own, meta) && i < |table|
    ensures Owned(table[i := Emptied(table[i])], blocks, Disowned(own, i), meta)
  {
    var table', own' := table[i := Emptied(table[i])], Disowned(own, i);
    forall b | b in own' ensures Names(table', blocks, own'[b].0, own'[b].1, b) {
      assert Names(table, blocks, own[b].0, own[b].1, b);
    }
  }
}
