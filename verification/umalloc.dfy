/** The circular free list of the Kernighan and Ritchie allocator, as a chain of headers in memory.
    Addresses count Header-sized units. */
module FreeList {

  /** A block header: the next free block and the size of this one, header included. */
  datatype Header = Header(ptr: nat, size: nat)

  type Memory = map<nat, Header>

  ghost predicate Ascending(order: seq<nat>) {
    forall i, j :: 0 <= i < j < |order| ==> order[i] < order[j]
  }

  ghost predicate Listed(mem: Memory, order: seq<nat>) {
    forall i :: 0 <= i < |order| ==> order[i] in mem
  }

  /** Following ptr leads from each element to the next, and from the last back to the first. */
  ghost predicate Links(mem: Memory, order: seq<nat>) {
    && 0 < |order| && Listed(mem, order)
    && (forall i, j :: 0 <= i && j == i + 1 && j < |order| ==> mem[order[i]].ptr == order[j])
    && mem[order[|order| - 1]].ptr == order[0]
  }

  /** The base is empty, every other block is not. Blocks do not overlap, nor touch except perhaps at positions x and
      y. */
  ghost predicate Gaps(mem: Memory, order: seq<nat>, x: int, y: int)
    requires 0 < |order| && Listed(mem, order)
  {
    && mem[order[0]].size == 0
    && (forall i :: 0 < i < |order| ==> 0 < mem[order[i]].size)
    && forall i, j :: 0 <= i && j == i + 1 && j < |order| ==>
         Apart(mem[order[i]].size, order[i], order[j], i == x || i == y)
  }

  predicate Apart(size: nat, a: nat, c: nat, touching: bool) {
    a + size < c || (touching && a + size == c)
  }

  /** One tour of the free list visits `order`: the static base first, then every free block by ascending address. */
  ghost predicate Chain(mem: Memory, order: seq<nat>) {
    Ascending(order) && Links(mem, order)
  }

  predicate Covers(mem: Memory, a: nat, u: nat) {
    a in mem && a <= u < a + mem[a].size
  }

  /** Every obtained unit belongs to exactly one block: the blocks partition the domain of `owner`. */
  ghost predicate Owned(mem: Memory, blocks: set<nat>, owner: map<nat, nat>) {
    && (forall a :: a in blocks ==> a in mem && 0 < mem[a].size)
    && (forall u :: u in owner ==> owner[u] in blocks && Covers(mem, owner[u], u))
    && (forall a: nat, u: nat :: a in blocks && Covers(mem, a, u) ==> u in owner && owner[u] == a)
  }

  /** The free blocks: everything on the list but the base. */
  ghost function FreeBlocks(order: seq<nat>): set<nat> {
    set i | 1 <= i < |order| :: order[i]
  }

  /** Link block b behind position t: b.ptr = old successor, and order[t].ptr = b. */
  function Successor(order: seq<nat>, t: nat): nat
    requires t < |order|
  {
    if t + 1 < |order| then order[t + 1] else order[0]
  }

  function Inserted(order: seq<nat>, t: nat, b: nat): (r: seq<nat>)
    requires t < |order|
    ensures |r| == |order| + 1
    ensures forall i :: 0 <= i < |r| ==> r[i] == if i <= t then order[i] else if i == t + 1 then b else order[i - 1]
  {
    order[..t + 1] + [b] + order[t + 1..]
  }

  function Removed(order: seq<nat>, k: nat): (r: seq<nat>)
    requires k < |order|
    ensures |r| == |order| - 1 && forall i :: 0 <= i < |r| ==> r[i] == if i < k then order[i] else order[i + 1]
  {
    order[..k] + order[k + 1..]
  }

  /** Where a block belongs: behind the last list element below it. */
  ghost predicate Slot(order: seq<nat>, t: nat, b: nat) {
    t < |order| && order[t] < b && (t + 1 < |order| ==> b < order[t + 1])
  }

  function LinkMemory(mem: Memory, order: seq<nat>, t: nat, b: nat): Memory
    requires t < |order| && order[t] in mem && b in mem
  {
    mem[b := Header(Successor(order, t), mem[b].size)][order[t] := Header(b, mem[order[t]].size)]
  }

  lemma InsertedAscending(order: seq<nat>, t: nat, b: nat)
    requires Ascending(order) && Slot(order, t, b)
    ensures Ascending(Inserted(order, t, b)) && forall i :: 0 <= i < |order| ==> order[i] != b
  {
    var order' := Inserted(order, t, b);
    forall i | 0 <= i < |order| ensures order[i] != b {
      assert i < t ==> order[i] < order[t];
      assert i > t + 1 ==> order[t + 1] < order[i];
    }
    forall i, j | 0 <= i < j < |order'| ensures order'[i] < order'[j] {
      if i <= t < j - 1 { assert order[i] <= order[t] < order[t + 1] <= order[j - 1]; }
    }
  }

  lemma LinkedChain(mem: Memory, order: seq<nat>, t: nat, b: nat)
    requires Chain(mem, order) && Slot(order, t, b) && b in mem
    ensures Chain(LinkMemory(mem, order, t, b), Inserted(order, t, b))
  {
    var mem', order' := LinkMemory(mem, order, t, b), Inserted(order, t, b);
    InsertedAscending(order, t, b);
    hide Slot;
    forall i, j | 0 <= i && j == i + 1 && j < |order'| ensures mem'[order'[i]].ptr == order'[j] {
      if i < t {
        assert mem[order[i]].ptr == order[j];
      } else if i > t + 1 {
        assert mem[order[i - 1]].ptr == order[j - 1];
      }
    }
  }

  lemma LinkedGaps(mem: Memory, order: seq<nat>, t: nat, b: nat)
    requires Chain(mem, order) && Gaps(mem, order, -1, -1) && Slot(order, t, b) && b in mem && 0 < mem[b].size
    requires Apart(mem[order[t]].size, order[t], b, true)
    requires t + 1 < |order| ==> Apart(mem[b].size, b, order[t + 1], true)
    ensures Listed(LinkMemory(mem, order, t, b), Inserted(order, t, b))
    ensures Gaps(LinkMemory(mem, order, t, b), Inserted(order, t, b), t, t + 1)
  {
    var mem', order' := LinkMemory(mem, order, t, b), Inserted(order, t, b);

    assert forall a :: a in mem ==> mem'[a].size == mem[a].size;
    forall i, j | 0 <= i && j == i + 1 && j < |order'|
      ensures Apart(mem'[order'[i]].size, order'[i], order'[j], i == t || i == t + 1) {
      if i < t {
        assert Apart(mem[order[i]].size, order[i], order[j], false);
      } else if i > t + 1 {
        assert Apart(mem[order[i - 1]].size, order[i - 1], order[j - 1], false);
      }
    }
  }

  /** Join position k with the block right behind it. */
  function MergeMemory(mem: Memory, order: seq<nat>, k: nat): Memory
    requires k + 1 < |order| && order[k] in mem && order[k + 1] in mem
  {
    mem[order[k] := Header(mem[order[k + 1]].ptr, mem[order[k]].size + mem[order[k + 1]].size)]
  }

  lemma MergedChain(mem: Memory, order: seq<nat>, k: nat)
    requires Chain(mem, order) && k + 1 < |order|
    ensures Chain(MergeMemory(mem, order, k), Removed(order, k + 1))
  {
    var mem', order' := MergeMemory(mem, order, k), Removed(order, k + 1);

    forall i, j | 0 <= i && j == i + 1 && j < |order'| ensures mem'[order'[i]].ptr == order'[j] {
      if i < k {
        assert mem[order[i]].ptr == order[j];
      } else {
        assert mem[order[i + 1]].ptr == order[j + 1];
      }
    }
  }

  lemma MergedGaps(mem: Memory, order: seq<nat>, k: nat, x: int)
    requires Chain(mem, order) && 0 < k && k + 1 < |order| && x < k && Gaps(mem, order, x, k)
    requires order[k] + mem[order[k]].size == order[k + 1]
    ensures Listed(MergeMemory(mem, order, k), Removed(order, k + 1))
    ensures Gaps(MergeMemory(mem, order, k), Removed(order, k + 1), x, x)
  {
    var mem', order' := MergeMemory(mem, order, k), Removed(order, k + 1);

    forall i, j | 0 <= i && j == i + 1 && j < |order'|
      ensures Apart(mem'[order'[i]].size, order'[i], order'[j], i == x) {
      if i < k {
        assert Apart(mem[order[i]].size, order[i], order[j], i == x);
      } else {
        assert Apart(mem[order[i + 1]].size, order[i + 1], order[j + 1], false);
      }
    }
  }

  lemma InsertedBlocks(order: seq<nat>, t: nat, b: nat)
    requires t < |order|
    ensures FreeBlocks(Inserted(order, t, b)) == FreeBlocks(order) + {b}
  {
    var order' := Inserted(order, t, b);
    assert order'[t + 1] == b;
    forall i | 1 <= i < |order| ensures order[i] in FreeBlocks(order') {
      assert order[i] == order'[if i <= t then i else i + 1];
    }
  }

  lemma RemovedBlocks(order: seq<nat>, k: nat)
    requires Ascending(order) && 0 < k < |order|
    ensures FreeBlocks(Removed(order, k)) == FreeBlocks(order) - {order[k]}
  {
    var order' := Removed(order, k);
    forall i | 1 <= i < |order| && i != k ensures order[i] in FreeBlocks(order') {
      assert order[i] == order'[if i < k then i else i - 1];
    }
  }

  lemma OwnedSameSizes(mem: Memory, mem': Memory, blocks: set<nat>, owner: map<nat, nat>)
    requires Owned(mem, blocks, owner)
    requires forall a :: a in blocks ==> a in mem' && mem'[a].size == mem[a].size
    ensures Owned(mem', blocks, owner)
  {
    forall a: nat, u: nat | a in blocks && Covers(mem', a, u) ensures u in owner && owner[u] == a {
      assert Covers(mem, a, u);
    }
  }

  /** Two adjacent blocks made one. */
  ghost function Joined(owner: map<nat, nat>, a: nat, c: nat): map<nat, nat> {
    map u | u in owner :: if owner[u] == c then a else owner[u]
  }

  lemma MergedOwned(mem: Memory, mem': Memory, blocks: set<nat>, owner: map<nat, nat>, a: nat, c: nat)
    requires Owned(mem, blocks, owner) && a in blocks && c in blocks && a != c && a + mem[a].size == c
    requires forall x :: x in blocks ==> x in mem' && (x != a ==> mem'[x].size == mem[x].size)
    requires mem'[a].size == mem[a].size + mem[c].size
    ensures Owned(mem', blocks - {c}, Joined(owner, a, c))
  {
    var owner' := Joined(owner, a, c);
    forall x: nat, u: nat | x in blocks - {c} && Covers(mem', x, u) ensures u in owner' && owner'[u] == x {
      if x != a || u < c {
        assert Covers(mem, x, u);
      } else {
        assert Covers(mem, c, u);
      }
    }
  }

  /** The tail of a block made a block of its own. */
  ghost function SplitOff(owner: map<nat, nat>, p: nat, n: nat): map<nat, nat> {
    map u | u in owner :: if p <= u < p + n then p else owner[u]
  }

  lemma SplitOwned(mem: Memory, mem': Memory, blocks: set<nat>, owner: map<nat, nat>, a: nat, n: nat)
    requires Owned(mem, blocks, owner) && a in blocks && 0 < n < mem[a].size
    requires var p := a + mem[a].size - n;
              p in mem' && mem'[p].size == n && a in mem' && mem'[a].size == mem[a].size - n
    requires forall x :: x in blocks && x != a ==> x in mem' && mem'[x].size == mem[x].size
    ensures var p := a + mem[a].size - n; p !in blocks && Owned(mem', blocks + {p}, SplitOff(owner, p, n))
  {
    var p := a + mem[a].size - n;
    var owner' := SplitOff(owner, p, n);
    assert p !in blocks by {
      if p in blocks {
        assert Covers(mem, p, p) && Covers(mem, a, p);
      }
    }
    forall x: nat, u: nat | x in blocks + {p} && Covers(mem', x, u) ensures u in owner' && owner'[u] == x {
      if x == p {
        assert Covers(mem, a, u);
      } else {
        assert Covers(mem, x, u);
        assert p <= u < p + n ==> Covers(mem, a, u);
      }
    }
    forall u | u in owner' ensures owner'[u] in blocks + {p} && Covers(mem', owner'[u], u) {
      assert Covers(mem, owner[u], u);
      if p <= u < p + n {
        assert Covers(mem, a, u);
      }
    }
  }

  /** Give the units from p to p+n to block a. */
  ghost function Given(owner: map<nat, nat>, p: nat, n: nat, a: nat): (r: map<nat, nat>)
    ensures forall u :: u in r <==> u in owner || p <= u < p + n
    ensures forall u :: u in r ==> r[u] == if p <= u < p + n then a else owner[u]
  {
    if n == 0 then owner else Given(owner, p, n - 1, a)[p + n - 1 := a]
  }

  /** Fresh memory as a new block. */
  lemma GrownOwned(mem: Memory, mem': Memory, blocks: set<nat>, owner: map<nat, nat>, p: nat, n: nat)
    requires Owned(mem, blocks, owner) && 0 < n && p !in blocks
    requires forall u :: u in owner ==> u < p
    requires p in mem' && mem'[p].size == n && forall x :: x in blocks ==> x in mem' && mem'[x].size == mem[x].size
    ensures Owned(mem', blocks + {p}, Given(owner, p, n, p))
  {
    var owner' := Given(owner, p, n, p);
    forall x: nat, u: nat | x in blocks + {p} && Covers(mem', x, u) ensures u in owner' && owner'[u] == x {
      assert x != p ==> Covers(mem, x, u);
    }
    forall u | u in owner' ensures owner'[u] in blocks + {p} && Covers(mem', owner'[u], u) {
      assert u in owner ==> Covers(mem, owner[u], u);
    }
  }

  // ---- conservation ----

  ghost function Interval(a: nat, n: nat): (r: set<nat>)
    ensures |r| == n && forall u: nat :: u in r <==> a <= u < a + n
  {
    if n == 0 then {} else Interval(a, n - 1) + {a + n - 1}
  }

  /** The sizes of a set of blocks, added up. */
  ghost function TotalSize(mem: Memory, blocks: set<nat>): nat
    requires forall a :: a in blocks ==> a in mem
  {
    if blocks == {} then 0 else var a :| a in blocks; mem[a].size + TotalSize(mem, blocks - {a})
  }

  /** The units of live and free blocks together are the units obtained from the system. */
  lemma {:induction false} Conserved(mem: Memory, blocks: set<nat>, owner: map<nat, nat>)
    requires Owned(mem, blocks, owner)
    ensures TotalSize(mem, blocks) == |owner.Keys|
    decreases blocks
  {
    if blocks == {} {
      assert owner.Keys == {};
    } else {
      var a :| a in blocks && TotalSize(mem, blocks) == mem[a].size + TotalSize(mem, blocks - {a});
      var units := Interval(a, mem[a].size);
      var rest := map u | u in owner && owner[u] != a :: owner[u];
      forall u | u in units ensures u in owner && u !in rest { assert Covers(mem, a, u); }
      assert owner.Keys == rest.Keys + units;
      assert Owned(mem, blocks - {a}, rest);
      Conserved(mem, blocks - {a}, rest);
    }
  }

  // ---- free ----

  /** The list, the live blocks and the ownership of units fit together; free blocks may touch at positions x and y. */
  ghost predicate LooseHeap(mem: Memory, order: seq<nat>, live: set<nat>, owner: map<nat, nat>, x: int, y: int) {
    && Chain(mem, order) && Gaps(mem, order, x, y)
    && live !! FreeBlocks(order) && (forall a :: a in live ==> order[0] < a)
    && Owned(mem, live + FreeBlocks(order), owner)
  }

  /** What the allocator keeps between calls: in particular the free blocks are fully coalesced. */
  ghost predicate Heap(mem: Memory, order: seq<nat>, live: set<nat>, owner: map<nat, nat>) {
    LooseHeap(mem, order, live, owner, -1, -1)
  }

  /** Point b at the block above it, or swallow that block if they touch. */
  function LinkUpper(mem: Memory, p: nat, b: nat): Memory
    requires p in mem && b in mem && mem[p].ptr in mem
  {
    var up := mem[p].ptr;
    if b + mem[b].size == up then mem[b := Header(mem[up].ptr, mem[b].size + mem[up].size)]
    else mem[b := Header(up, mem[b].size)]
  }

  /** The header updates of free, once p has been found to precede b. */
  function Release(mem: Memory, p: nat, b: nat): Memory
    requires p in mem && b in mem && mem[p].ptr in mem
  {
    var mem1 := LinkUpper(mem, p, b);
    if p + mem1[p].size == b then mem1[p := Header(mem1[b].ptr, mem1[p].size + mem1[b].size)]
    else mem1[p := Header(b, mem1[p].size)]
  }

  /** A live block keeps clear of the free blocks around it. */
  lemma LiveApart(mem: Memory, order: seq<nat>, live: set<nat>, owner: map<nat, nat>, t: nat, b: nat)
    requires Heap(mem, order, live, owner) && b in live && Slot(order, t, b)
    ensures Apart(mem[order[t]].size, order[t], b, true)
    ensures t + 1 < |order| ==> Apart(mem[b].size, b, order[t + 1], true)
    ensures b in mem && 0 < mem[b].size
  {
    if t > 0 && order[t] + mem[order[t]].size > b {
      assert order[t] in FreeBlocks(order);
      assert Covers(mem, order[t], b) && Covers(mem, b, b);
    }
    if t + 1 < |order| && b + mem[b].size > order[t + 1] {
      assert order[t + 1] in FreeBlocks(order);
      assert Covers(mem, order[t + 1], order[t + 1]) && Covers(mem, b, order[t + 1]);
    }
  }

  lemma LinkHeap(mem: Memory, order: seq<nat>, live: set<nat>, owner: map<nat, nat>, t: nat, b: nat)
    requires Heap(mem, order, live, owner) && b in live && Slot(order, t, b)
    ensures b in mem && LooseHeap(LinkMemory(mem, order, t, b), Inserted(order, t, b), live - {b}, owner, t, t + 1)
  {
    LiveApart(mem, order, live, owner, t, b);
    LinkedChain(mem, order, t, b);
    LinkedGaps(mem, order, t, b);
    InsertedBlocks(order, t, b);
    var mem', order' := LinkMemory(mem, order, t, b), Inserted(order, t, b);
    assert order'[0] == order[0];
    assert live + FreeBlocks(order) == (live - {b}) + FreeBlocks(order');
    OwnedSameSizes(mem, mem', live + FreeBlocks(order), owner);
  }

  lemma MergeHeap(mem: Memory, order: seq<nat>, live: set<nat>, owner: map<nat, nat>, k: nat, x: int)
    requires LooseHeap(mem, order, live, owner, x, k) && 0 < k && k + 1 < |order| && x < k
    requires order[k] + mem[order[k]].size == order[k + 1]
    ensures LooseHeap(MergeMemory(mem, order, k), Removed(order, k + 1), live, Joined(owner, order[k], order[k + 1]), x,
              x)
  {
    MergedChain(mem, order, k);
    MergedGaps(mem, order, k, x);
    RemovedBlocks(order, k + 1);
    var mem', order' := MergeMemory(mem, order, k), Removed(order, k + 1);
    var a, c := order[k], order[k + 1];
    assert order'[0] == order[0];
    assert a in FreeBlocks(order) && c in FreeBlocks(order);
    MergedOwned(mem, mem', live + FreeBlocks(order), owner, a, c);
    assert live + FreeBlocks(order') == live + FreeBlocks(order) - {c};
  }

  lemma NotTouching(mem: Memory, order: seq<nat>, live: set<nat>, owner: map<nat, nat>, x: int, y: nat)
    requires LooseHeap(mem, order, live, owner, x, y)
    requires y + 1 < |order| ==> order[y] + mem[order[y]].size != order[y + 1]
    ensures LooseHeap(mem, order, live, owner, x, x)
  {
    forall i, j | 0 <= i && j == i + 1 && j < |order| ensures Apart(mem[order[i]].size, order[i], order[j], i == x) {
      assert Apart(mem[order[i]].size, order[i], order[j], i == x || i == y);
    }
  }

  lemma Swapped(mem: Memory, order: seq<nat>, live: set<nat>, owner: map<nat, nat>, x: int)
    requires LooseHeap(mem, order, live, owner, x, x)
    ensures LooseHeap(mem, order, live, owner, -1, x)
  {
    forall i, j | 0 <= i && j == i + 1 && j < |order|
      ensures Apart(mem[order[i]].size, order[i], order[j], i == -1 || i == x) {
      assert Apart(mem[order[i]].size, order[i], order[j], i == x || i == x);
    }
  }

  lemma PtrIsSuccessor(mem: Memory, order: seq<nat>, t: nat)
    requires Links(mem, order) && t < |order|
    ensures order[t] in mem && Successor(order, t) in mem && mem[order[t]].ptr == Successor(order, t)
  {
    if t + 1 < |order| {
      assert mem[order[t]].ptr == order[t + 1];
    }
  }

  /** The block is linked in front of a free block that does not touch it. */
  lemma LinkedBelow(mem: Memory, order: seq<nat>, live: set<nat>, owner: map<nat, nat>, t: nat, b: nat)
    requires Heap(mem, order, live, owner) && b in live && Slot(order, t, b)
    requires t + 1 < |order| ==> b in mem && b + mem[b].size != order[t + 1]
    ensures b in mem && LooseHeap(LinkMemory(mem, order, t, b), Inserted(order, t, b), live - {b}, owner, -1, t)
  {
    LinkHeap(mem, order, live, owner, t, b);
    var mem', order' := LinkMemory(mem, order, t, b), Inserted(order, t, b);
    hide LooseHeap, Heap;
    NotTouching(mem', order', live - {b}, owner, t, t + 1);
    Swapped(mem', order', live - {b}, owner, t);
  }

  /** The block is linked and swallows the free block above, which it touches. */
  lemma LinkedJoining(mem: Memory, order: seq<nat>, live: set<nat>, owner: map<nat, nat>, t: nat, b: nat)
    requires Heap(mem, order, live, owner) && b in live && Slot(order, t, b)
    requires t + 1 < |order| && b in mem && b + mem[b].size == order[t + 1]
    ensures var mem1, order1 := LinkMemory(mem, order, t, b), Inserted(order, t, b);
            LooseHeap(MergeMemory(mem1, order1, t + 1), Removed(order1, t + 2), live - {b},
                Joined(owner, b, order[t + 1]), -1, t)
  {
    LinkHeap(mem, order, live, owner, t, b);
    var mem', order' := LinkMemory(mem, order, t, b), Inserted(order, t, b);
    hide LooseHeap, Heap, Joined;
    MergeHeap(mem', order', live - {b}, owner, t + 1, t);
    Swapped(MergeMemory(mem', order', t + 1), Removed(order', t + 2), live - {b}, Joined(owner, b, order[t + 1]), t);
  }

  lemma UpperMemory(mem: Memory, order: seq<nat>, t: nat, b: nat)
    requires t < |order| && order[t] in mem && b in mem && b != order[t] && Successor(order, t) in mem && order[0] < b
    requires 0 < mem[b].size
    requires mem[order[t]].ptr == Successor(order, t) && (t + 1 < |order| ==> order[t + 1] != order[t])
    ensures var touch := t + 1 < |order| && b + mem[b].size == order[t + 1];
            (if touch then MergeMemory(LinkMemory(mem, order, t, b), Inserted(order, t, b), t + 1)
                else LinkMemory(mem, order, t, b))
            == LinkUpper(mem, order[t], b)[order[t] := Header(b, mem[order[t]].size)]
  {
    if t + 1 < |order| && b + mem[b].size == order[t + 1] {
      var order1 := Inserted(order, t, b);
      assert order1[t + 1] == b && order1[t + 2] == order[t + 1];
    }
  }

  /** First half of free: the block is linked, and joined with the free block above it if they touch. */
  lemma ReleasedUpper(mem: Memory, order: seq<nat>, live: set<nat>, owner: map<nat, nat>, t: nat, b: nat)
    returns (mem': Memory, order': seq<nat>, owner': map<nat, nat>)
    requires Heap(mem, order, live, owner) && b in live && Slot(order, t, b)
    ensures LooseHeap(mem', order', live - {b}, owner', -1, t) && owner'.Keys == owner.Keys
    ensures t + 1 < |order'| && order'[0] == order[0] && order'[t] == order[t] && order'[t + 1] == b
    ensures b in mem && order[t] in mem && mem[order[t]].ptr in mem
    ensures mem' == LinkUpper(mem, order[t], b)[order[t] := Header(b, mem[order[t]].size)]
  {
    PtrIsSuccessor(mem, order, t);
    assert order[0] <= order[t] < b && b in mem;
    UpperMemory(mem, order, t, b);
    hide LooseHeap, Heap, Joined, LinkUpper, LinkMemory, MergeMemory, Successor;
    mem', order', owner' := LinkMemory(mem, order, t, b), Inserted(order, t, b), owner;
    if t + 1 < |order| && b + mem[b].size == order[t + 1] {
      LinkedJoining(mem, order, live, owner, t, b);
      JoinedKeys(owner, b, order[t + 1]);
      mem', order', owner' := MergeMemory(mem', order', t + 1), Removed(order', t + 2), Joined(owner, b, order[t + 1]);
    } else {
      LinkedBelow(mem, order, live, owner, t, b);
    }
  }

  lemma JoinedKeys(owner: map<nat, nat>, a: nat, c: nat)
    ensures Joined(owner, a, c).Keys == owner.Keys
  {
  }

  /** What the header updates of free change: the two headers and nothing else. */
  lemma ReleaseIs(mem: Memory, mem1: Memory, p: nat, b: nat)
    requires p in mem && b in mem && mem[p].ptr in mem && p != b
    requires mem1 == LinkUpper(mem, p, b)[p := Header(b, mem[p].size)]
    ensures p in mem1 && b in mem1 && mem1[p] == Header(b, mem[p].size) && mem[b].size <= mem1[b].size
    ensures Release(mem, p, b) ==
            if p + mem[p].size == b then mem1[p := Header(mem1[b].ptr, mem1[p].size + mem1[b].size)] else mem1
    ensures forall a :: a in mem && a != p && a != b ==> a in Release(mem, p, b) && Release(mem, p, b)[a] == mem[a]
  {
  }

  /** Elements of the list are not live; the first of them has no units. */
  lemma NotLive(mem: Memory, order: seq<nat>, live: set<nat>, owner: map<nat, nat>, t: nat)
    requires Heap(mem, order, live, owner) && t < |order|
    ensures order[t] !in live && order[t] in mem && (mem[order[t]].size > 0 ==> t > 0)
    ensures forall a :: a in live ==> a in mem
  {
    assert t > 0 ==> order[t] in FreeBlocks(order);
  }

  lemma LooseIsHeap(mem: Memory, order: seq<nat>, live: set<nat>, owner: map<nat, nat>)
    requires LooseHeap(mem, order, live, owner, -1, -1)
    ensures Heap(mem, order, live, owner)
  {
  }

  /** The header updates of free leave a coalesced heap with the block free. */
  lemma Released(mem: Memory, order: seq<nat>, live: set<nat>, owner: map<nat, nat>, t: nat, b: nat)
    returns (order': seq<nat>, owner': map<nat, nat>, k: nat)
    requires Heap(mem, order, live, owner) && b in live && Slot(order, t, b)
    ensures b in mem && order[t] in mem && mem[order[t]].ptr in mem
    ensures 0 < k < |order'| && order'[k] in Release(mem, order[t], b)
    ensures mem[b].size <= Release(mem, order[t], b)[order'[k]].size
    ensures Heap(Release(mem, order[t], b), order', live - {b}, owner') && owner'.Keys == owner.Keys
    ensures 0 < |order| && order'[0] == order[0] && order[t] in order'
    ensures forall a :: a in live - {b} ==>
              a in mem && a in Release(mem, order[t], b) && Release(mem, order[t], b)[a] == mem[a]
  {
    hide Heap, LooseHeap, LinkUpper, Joined, Release;
    NotLive(mem, order, live, owner, t);
    var mem1;
    mem1, order', owner' := ReleasedUpper(mem, order, live, owner, t, b);
    ReleaseIs(mem, mem1, order[t], b);
    if order[t] + mem[order[t]].size == b {
      MergeHeap(mem1, order', live - {b}, owner', t, -1);
      LooseIsHeap(MergeMemory(mem1, order', t), Removed(order', t + 1), live - {b}, Joined(owner', order[t], b));
      JoinedKeys(owner', order[t], b);
      assert Removed(order', t + 1)[t] == order[t] && Removed(order', t + 1)[0] == order[0];
      order', owner', k := Removed(order', t + 1), Joined(owner', order[t], b), t;
    } else {
      NotTouching(mem1, order', live - {b}, owner', -1, t);
      LooseIsHeap(mem1, order', live - {b}, owner');
      k := t + 1;
    }
  }

  // ---- malloc ----

  function UnlinkMemory(mem: Memory, order: seq<nat>, k: nat): Memory
    requires 0 < k < |order| && order[k - 1] in mem && order[k] in mem
  {
    mem[order[k - 1] := Header(mem[order[k]].ptr, mem[order[k - 1]].size)]
  }

  lemma UnlinkedChain(mem: Memory, order: seq<nat>, k: nat)
    requires Chain(mem, order) && 0 < k < |order|
    ensures Chain(UnlinkMemory(mem, order, k), Removed(order, k))
  {
    var mem', order' := UnlinkMemory(mem, order, k), Removed(order, k);
    forall i, j | 0 <= i && j == i + 1 && j < |order'| ensures mem'[order'[i]].ptr == order'[j] {
      if i < k - 1 {
        assert mem[order[i]].ptr == order[j];
      } else {
        assert mem[order[i + 1]].ptr == order[j + 1];
      }
    }
  }

  lemma UnlinkedGaps(mem: Memory, order: seq<nat>, k: nat)
    requires Chain(mem, order) && Gaps(mem, order, -1, -1) && 0 < k < |order|
    ensures Listed(UnlinkMemory(mem, order, k), Removed(order, k))
    ensures Gaps(UnlinkMemory(mem, order, k), Removed(order, k), -1, -1)
  {
    hide Chain, Apart;
    assert Listed(mem, order) by { ChainListed(mem, order); }
    var mem', order' := UnlinkMemory(mem, order, k), Removed(order, k);
    assert forall a :: a in mem ==> mem'[a].size == mem[a].size;
    assert forall i :: 0 <= i < |order'| ==> order'[i] == order[if i < k then i else i + 1] && order'[i] in mem;
    forall i, j | 0 <= i && j == i + 1 && j < |order'|
      ensures Apart(mem'[order'[i]].size, order'[i], order'[j], false) {
      if i + 1 < k {
        assert Apart(mem[order[i]].size, order[i], order[i + 1], false);
      } else if i + 1 == k {
        ApartTwice(mem, order, i);
      } else {
        assert Apart(mem[order[i + 1]].size, order[i + 1], order[j + 1], false);
      }
    }
  }

  lemma ChainListed(mem: Memory, order: seq<nat>)
    requires Chain(mem, order)
    ensures Listed(mem, order)
  {
  }

  /** Blocks two places apart in the list do not touch either. */
  lemma ApartTwice(mem: Memory, order: seq<nat>, i: nat)
    requires Listed(mem, order) && i + 2 < |order| && Gaps(mem, order, -1, -1)
    ensures Apart(mem[order[i]].size, order[i], order[i + 2], false)
  {
    assert Apart(mem[order[i]].size, order[i], order[i + 1], false);
    assert Apart(mem[order[i + 1]].size, order[i + 1], order[i + 2], false);
  }

  /** Taking a whole free block off the list makes it live. */
  lemma TakenWhole(mem: Memory, order: seq<nat>, live: set<nat>, owner: map<nat, nat>, k: nat)
    requires Heap(mem, order, live, owner) && 0 < k < |order|
    ensures order[k - 1] in mem && order[k] in mem
    ensures Heap(UnlinkMemory(mem, order, k), Removed(order, k), live + {order[k]}, owner)
  {
    var p := order[k];
    assert p in FreeBlocks(order) && order[0] < p;
    UnlinkedChain(mem, order, k);
    UnlinkedGaps(mem, order, k);
    RemovedBlocks(order, k);
    var mem', order' := UnlinkMemory(mem, order, k), Removed(order, k);
    assert live + {p} + FreeBlocks(order') == live + FreeBlocks(order);
    OwnedSameSizes(mem, mem', live + FreeBlocks(order), owner);
  }

  /** Cutting the tail off a free block leaves the list as it is and makes the tail live. */
  lemma TakenTail(mem: Memory, mem': Memory, order: seq<nat>, live: set<nat>, owner: map<nat, nat>, k: nat, n: nat)
    requires Heap(mem, order, live, owner) && 0 < k < |order| && order[k] in mem && 0 < n < mem[order[k]].size
    requires var a := order[k]; var p := a + mem[a].size - n;
             p in mem' && mem'[p].size == n && mem' == mem[a := Header(mem[a].ptr, mem[a].size - n)][p := mem'[p]]
    ensures var p := order[k] + mem[order[k]].size - n;
            p !in live && Heap(mem', order, live + {p}, SplitOff(owner, p, n)) &&
                SplitOff(owner, p, n).Keys == owner.Keys
    ensures forall x :: x in live ==> x in mem && x in mem' && mem'[x].size == mem[x].size
  {
    var a := order[k];
    var p := a + mem[a].size - n;
    assert a in FreeBlocks(order);
    assert p !in live + FreeBlocks(order) by {
      if p in live + FreeBlocks(order) { assert Covers(mem, p, p) && Covers(mem, a, p); }
    }
    SplitOwned(mem, mem', live + FreeBlocks(order), owner, a, n);
    assert forall i :: 1 <= i < |order| ==> order[i] in FreeBlocks(order);
    assert p !in order && order[0] < a < p;
    assert live + {p} + FreeBlocks(order) == live + FreeBlocks(order) + {p};
    assert Links(mem', order) by {
      assert forall i :: 0 <= i < |order| ==> mem'[order[i]].ptr == mem[order[i]].ptr;
    }
    forall i, j | 0 <= i && j == i + 1 && j < |order| ensures Apart(mem'[order[i]].size, order[i], order[j], false) {
      assert Apart(mem[order[i]].size, order[i], order[j], false);
    }
  }
}

/** malloc, free and morecore over the free list. */
module Umalloc {
  import opened FreeList

  const UINT := 0x1_0000_0000
  const HEADER_BYTES := 8
  const MIN_UNITS := 4096
  /** The address where user memory must end (KERNBASE), in units. */
  const LIMIT := 0x8000_0000 / HEADER_BYTES

  /** The number of units for a request, computed in 32 bits: header included. */
  function Units(nbytes: nat): nat {
    (nbytes + HEADER_BYTES - 1) % UINT / HEADER_BYTES + 1
  }

  /** What sbrk gets for nu units: a 32-bit product, taken as a signed number. */
  function SbrkArg(nu: nat): int {
    var bytes := nu * HEADER_BYTES % UINT;
    if bytes < 0x8000_0000 then bytes else bytes - UINT
  }

  lemma SbrkArgIs(nu: nat)
    requires 0 < nu <= UINT / HEADER_BYTES
    ensures 0 < SbrkArg(nu) <==> nu * HEADER_BYTES < 0x8000_0000
    ensures 0 < SbrkArg(nu) ==> SbrkArg(nu) == nu * HEADER_BYTES
  {
  }

  lemma UnitsBound(nbytes: nat)
    ensures 0 < Units(nbytes) <= UINT / HEADER_BYTES && 0 < Request(Units(nbytes)) <= UINT / HEADER_BYTES
  {
  }

  /** The requests for which sbrk gets a number that is not positive: those of about 2 GB and more, up to the size
      from which on the computation of the units wraps around. */
  lemma HugeRequests(nbytes: nat)
    requires nbytes < UINT
    ensures SbrkArg(Request(Units(nbytes))) <= 0 <==> 0x7FFF_FFF1 <= nbytes <= UINT - HEADER_BYTES
  {
    UnitsBound(nbytes);
    SbrkArgIs(Request(Units(nbytes)));
  }

  /** The block is big enough for the request exactly when the computation does not wrap around. */
  lemma UnitsSuffice(nbytes: nat)
    requires nbytes < UINT
    ensures nbytes <= (Units(nbytes) - 1) * HEADER_BYTES <==> nbytes <= UINT - HEADER_BYTES
  {
  }

  /** The size recorded for each of these blocks is still the same. */
  ghost predicate SizesKept(live: set<nat>, before: Memory, after: Memory) {
    forall a :: a in live ==> a in before && a in after && after[a].size == before[a].size
  }

  lemma SizesKeptTwice(live: set<nat>, m0: Memory, m1: Memory, m2: Memory)
    requires SizesKept(live, m0, m1) && SizesKept(live, m1, m2)
    ensures SizesKept(live, m0, m2)
  {
  }

  /** The obtained units are those from before and one request to the system, just below the new break. */
  ghost predicate Grown(before: set<nat>, after: set<nat>, brk: nat, nunits: nat) {
    forall u :: u in after <==> u in before || brk - Request(nunits) <= u < brk
  }

  /** The units asked of the system for a request. */
  function Request(nu: nat): (r: nat)
    ensures nu <= r && 4096 <= r && (r == nu || r == 4096)
  {
    if nu < MIN_UNITS then MIN_UNITS else nu
  }

  ghost predicate Within(owner: map<nat, nat>, lo: nat, hi: nat) {
    forall u :: u in owner ==> lo < u < hi
  }

  lemma WithinMore(owner: map<nat, nat>, lo: nat, hi: nat, hi1: nat, hi2: nat)
    requires Within(owner, lo, hi) && hi <= hi1 <= hi2
    ensures Within(owner, lo, hi1) && Within(owner, lo, hi2)
  {
  }

  lemma WithinSameKeys(owner: map<nat, nat>, owner': map<nat, nat>, lo: nat, hi: nat)
    requires Within(owner, lo, hi) && owner'.Keys == owner.Keys
    ensures Within(owner', lo, hi)
  {
    assert forall u :: u in owner' ==> u in owner.Keys;
  }

  lemma SizesKeptEqual(live: set<nat>, before: Memory, after: Memory)
    requires forall a :: a in live ==> a in before && a in after && after[a] == before[a]
    ensures SizesKept(live, before, after)
  {
  }

  lemma FreeAt(mem: Memory, order: seq<nat>, k: nat, n: nat)
    requires 0 < k < |order| && order[k] in mem && n <= mem[order[k]].size
    ensures HasFree(mem, order, n)
  {
  }

  /** Some free block has at least n units. */
  ghost predicate HasFree(mem: Memory, order: seq<nat>, n: nat) {
    exists k :: 0 < k < |order| && order[k] in mem && n <= mem[order[k]].size
  }

  function Dist(i: nat, j: nat, n: nat): nat
    requires i < n && j < n
  {
    if i <= j then j - i else j + n - i
  }

  function Prev(i: nat, n: nat): nat
    requires i < n
  {
    if i == 0 then n - 1 else i - 1
  }

  function Next(i: nat, n: nat): nat
    requires i < n
  {
    if i + 1 < n then i + 1 else 0
  }

  /** Different live blocks share no unit. */
  lemma LiveDisjoint(mem: Memory, order: seq<nat>, live: set<nat>, owner: map<nat, nat>, a: nat, b: nat)
    requires Heap(mem, order, live, owner) && a in live && b in live && a < b
    ensures a in mem && a + mem[a].size <= b
  {
    if a + mem[a].size > b {
      assert Covers(mem, a, b) && Covers(mem, b, b);
    }
  }

  /** One step along the list. */
  lemma HeapStep(mem: Memory, order: seq<nat>, live: set<nat>, owner: map<nat, nat>, i: nat)
    requires Heap(mem, order, live, owner) && i < |order|
    ensures order[i] in mem && mem[order[i]].ptr == order[Next(i, |order|)] && (i == 0 ==> mem[order[i]].size == 0)
  {
    PtrIsSuccessor(mem, order, i);
  }

  lemma NotNull(mem: Memory, order: seq<nat>, live: set<nat>, owner: map<nat, nat>, i: nat)
    requires Heap(mem, order, live, owner) && i < |order|
    ensures order[0] <= order[i]
  {
  }

  lemma FirstHeap(mem: Memory, base: nat)
    ensures Heap(mem[base := Header(base, 0)], [base], {}, map[])
  {
    assert FreeBlocks([base]) == {};
  }

  lemma SamePlace(mem: Memory, order: seq<nat>, live: set<nat>, owner: map<nat, nat>, i: nat, k: nat)
    requires Heap(mem, order, live, owner) && i < |order| && k < |order| && order[i] == order[k]
    ensures i == k
  {
  }

  lemma FindSlot(mem: Memory, order: seq<nat>, live: set<nat>, owner: map<nat, nat>, b: nat) returns (t: nat)
    requires Heap(mem, order, live, owner) && b in live
    ensures Slot(order, t, b)
  {
    t := 0;
    while t + 1 < |order| && order[t + 1] < b
      invariant t < |order| && order[t] < b
    {
      t := t + 1;
    }
    if t + 1 < |order| {
      assert order[t + 1] in FreeBlocks(order);
    }
  }

  /** The condition on which the search of free stops holds at the right position only. */
  lemma SlotUnique(order: seq<nat>, t: nat, k: nat, b: nat)
    requires Ascending(order) && Slot(order, t, b) && k < |order| && order[0] < b
    requires var p, next := order[k], Successor(order, k); (b > p && b < next) || (p >= next && (b > p || b < next))
    ensures k == t
  {
    assert k + 1 == |order| || order[k] < order[k + 1];
    assert order[0] <= order[k];
  }

  lemma AllKept(mem: Memory, order: seq<nat>, live: set<nat>, owner: map<nat, nat>)
    requires Heap(mem, order, live, owner)
    ensures SizesKept(live, mem, mem)
  {
  }

  lemma SbrkArgUnits(n: nat)
    requires 0 < n <= UINT / HEADER_BYTES
    ensures SbrkArg(n) % HEADER_BYTES == 0 && (SbrkArg(n) > 0 ==> SbrkArg(n) / HEADER_BYTES == n)
  {
  }

  lemma RequestIs(nu: nat, n: nat)
    requires n == if nu < MIN_UNITS then MIN_UNITS else nu
    ensures n == Request(nu) && 0 < n
  {
  }

  lemma GivenGrown(owner: map<nat, nat>, p: nat, nu: nat, brk: nat, lo: nat)
    requires p + Request(nu) == brk && lo < p && Within(owner, lo, brk)
    ensures Grown(owner.Keys, Given(owner, p, Request(nu), p).Keys, brk, nu)
    ensures Within(Given(owner, p, Request(nu), p), lo, brk)
  {
  }

  /** Memory from above everything handed out so far joins the heap as a live block. */
  lemma GrownHeap(mem: Memory, mem': Memory, order: seq<nat>, live: set<nat>, owner: map<nat, nat>, p: nat, n: nat,
                  lo: nat)
    requires Heap(mem, order, live, owner) && 0 < n && order[0] < p && Within(owner, lo, p)
    requires p in mem' && mem'[p].size == n && mem' == mem[p := mem'[p]]
    ensures p !in live && Heap(mem', order, live + {p}, Given(owner, p, n, p)) && SizesKept(live, mem, mem')
  {
    var blocks := live + FreeBlocks(order);
    assert p !in blocks by {
      if p in blocks { assert Covers(mem, p, p); }
    }
    GrownOwned(mem, mem', blocks, owner, p, n);
    assert live + {p} + FreeBlocks(order) == blocks + {p};
    assert forall i :: 1 <= i < |order| ==> order[i] in FreeBlocks(order);
    assert forall i :: 0 <= i < |order| ==> mem'[order[i]] == mem[order[i]];
    forall i, j | 0 <= i && j == i + 1 && j < |order| ensures Apart(mem'[order[i]].size, order[i], order[j], false) {
      assert Apart(mem[order[i]].size, order[i], order[j], false);
    }
  }

  lemma UnlinkKeeps(mem: Memory, order: seq<nat>, live: set<nat>, owner: map<nat, nat>, k: nat)
    requires Heap(mem, order, live, owner) && 0 < k < |order| && order[k - 1] in mem && order[k] in mem
    ensures order[k] !in live && SizesKept(live, mem, UnlinkMemory(mem, order, k))
    ensures UnlinkMemory(mem, order, k) == mem[order[k - 1] := Header(mem[order[k]].ptr, mem[order[k - 1]].size)]
    ensures order[k] in UnlinkMemory(mem, order, k) && UnlinkMemory(mem, order, k)[order[k]].size == mem[order[k]].size
    ensures 0 < |Removed(order, k)| && Removed(order, k)[0] == order[0] && order[k - 1] in Removed(order, k)
  {
    assert order[k] in FreeBlocks(order);
    assert Removed(order, k)[k - 1] == order[k - 1];
  }

  /** The blocks behind position k, up to position i, are all too small. */
  ghost predicate Passed(mem: Memory, order: seq<nat>, k: nat, i: nat, nunits: nat)
    requires k < |order| && i < |order|
  {
    var start := Next(k, |order|);
    forall x :: 0 <= x < |order| && Dist(start, x, |order|) < Dist(start, i, |order|) ==>
                  order[x] in mem && mem[order[x]].size < nunits
  }

  /** Next fit: the first block behind the old freep that is big enough gives its last units, and the search will go on
      behind its predecessor. */
  ghost predicate NextFit(mem: Memory, order: seq<nat>, freep: nat, nunits: nat, ap: nat, freep': nat) {
    exists k: nat, i: nat :: FitAt(mem, order, freep, nunits, ap, freep', k, i)
  }

  ghost predicate FitAt(mem: Memory, order: seq<nat>, freep: nat, nunits: nat, ap: nat, freep': nat, k: nat, i: nat) {
    && k < |order| && 0 < i < |order| && order[k] == freep && order[i - 1] == freep'
    && order[i] in mem && nunits <= mem[order[i]].size && Passed(mem, order, k, i, nunits)
    && ap == order[i] + mem[order[i]].size - nunits + 1
  }

  /** Where the search of malloc stands: at position i of the list, with `left` steps to go before position target.
      If it is sure to succeed the target is a block that is big enough; otherwise it is the position k of freep. */
  datatype Tour = Tour(i: nat, k: nat, target: nat, sure: bool, left: nat)

  ghost predicate OnTour(mem: Memory, order: seq<nat>, freep: nat, nunits: nat, t: Tour, prevp: nat, p: nat) {
    && t.k < |order| && t.i < |order| && t.target < |order|
    && order[t.k] == freep && p == order[t.i] && prevp == order[Prev(t.i, |order|)]
    && t.left == Dist(t.i, t.target, |order|) && Passed(mem, order, t.k, t.i, nunits)
    && if t.sure then order[t.target] in mem && nunits <= mem[order[t.target]].size && t.left <= Dist(t.i, t.k, |order|)
       else t.target == t.k
  }

  /** After a refill the search starts over behind freep, and a block that is big enough lies ahead. */
  lemma Refilled(mem: Memory, order: seq<nat>, live: set<nat>, owner: map<nat, nat>, freep: nat,
                 nunits: nat) returns (t: Tour)
    requires Heap(mem, order, live, owner) && freep in order && HasFree(mem, order, nunits)
    ensures freep in mem && OnTour(mem, order, freep, nunits, t, freep, mem[freep].ptr)
    ensures t.sure
  {
    var k: nat :| k < |order| && order[k] == freep;
    var target: nat :| 0 < target < |order| && order[target] in mem && nunits <= mem[order[target]].size;
    HeapStep(mem, order, live, owner, k);
    var i := Next(k, |order|);
    t := Tour(i, k, target, true, Dist(i, target, |order|));
  }

  /** The search starts behind freep; it is sure to succeed exactly when some free block is big enough. */
  lemma TourFrom(mem: Memory, order: seq<nat>, live: set<nat>, owner: map<nat, nat>, freep: nat,
                 nunits: nat) returns (t: Tour)
    requires Heap(mem, order, live, owner) && freep in order
    ensures freep in mem && OnTour(mem, order, freep, nunits, t, freep, mem[freep].ptr)
    ensures t.sure <==> HasFree(mem, order, nunits)
  {
    if HasFree(mem, order, nunits) {
      t := Refilled(mem, order, live, owner, freep, nunits);
    } else {
      var k: nat :| k < |order| && order[k] == freep;
      HeapStep(mem, order, live, owner, k);
      var i := Next(k, |order|);
      t := Tour(i, k, k, false, Dist(i, k, |order|));
    }
  }

  lemma TourFacts(mem: Memory, order: seq<nat>, live: set<nat>, owner: map<nat, nat>, freep: nat, nunits: nat, t: Tour,
                  prevp: nat, p: nat)
    requires Heap(mem, order, live, owner) && OnTour(mem, order, freep, nunits, t, prevp, p) && 0 < nunits
    ensures p in mem
    ensures mem[p].size >= nunits ==> 0 < t.i < |order| && p == order[t.i] && prevp == order[t.i - 1]
    ensures mem[p].size < nunits && p == freep ==> !t.sure
    ensures mem[p].size >= nunits ==> NextFit(mem, order, freep, nunits, p + mem[p].size - nunits + 1, prevp)
  {
    hide Passed;
    HeapStep(mem, order, live, owner, t.i);
    if p == freep {
      SamePlace(mem, order, live, owner, t.i, t.k);
    }
    if mem[p].size >= nunits {
      assert FitAt(mem, order, freep, nunits, p + mem[p].size - nunits + 1, prevp, t.k, t.i);
    }
  }

  lemma PassedMore(mem: Memory, order: seq<nat>, k: nat, i: nat, nunits: nat)
    requires k < |order| && i < |order| && i != k && Passed(mem, order, k, i, nunits)
    requires order[i] in mem && mem[order[i]].size < nunits
    ensures Passed(mem, order, k, Next(i, |order|), nunits)
  {
  }

  lemma TourStep(mem: Memory, order: seq<nat>, live: set<nat>, owner: map<nat, nat>, freep: nat, nunits: nat, t: Tour,
                 prevp: nat, p: nat)
    returns (t': Tour)
    requires Heap(mem, order, live, owner) && OnTour(mem, order, freep, nunits, t, prevp, p)
    requires p in mem && mem[p].size < nunits && p != freep
    ensures OnTour(mem, order, freep, nunits, t', p, mem[p].ptr)
    ensures t'.sure == t.sure && t'.left < t.left
  {
    hide Passed;
    HeapStep(mem, order, live, owner, t.i);
    var i := Next(t.i, |order|);
    PassedMore(mem, order, t.k, t.i, nunits);
    t' := t.(i := i, left := Dist(i, t.target, |order|));
  }

  class Allocator {
    const base: nat
    var mem: Memory
    var freep: nat
    var brk: nat

    ghost var order: seq<nat>
    ghost var live: set<nat>
    ghost var owner: map<nat, nat>
    /** How often the system has refused memory. */
    ghost var denied: nat

    ghost predicate Valid()
      reads this
    {
      && 0 < base < brk <= LIMIT
      && (freep == 0 ==> live == {} && owner == map[])
      && (freep != 0 ==> Heap(mem, order, live, owner) && order[0] == base && freep in order)
      && Within(owner, base, brk)
    }

    lemma Unpack()
      requires Valid()
      ensures 0 < base < brk <= LIMIT && Within(owner, base, brk) && (live != {} ==> freep != 0)
      ensures freep != 0 ==> Heap(mem, order, live, owner) && 0 < |order| && order[0] == base && freep in order
    {
    }

    lemma Repack()
      requires 0 < base < brk <= LIMIT && Within(owner, base, brk) && freep in order
      requires Heap(mem, order, live, owner) && 0 < |order| && order[0] == base
      ensures Valid() && freep != 0
    {
      var i :| 0 <= i < |order| && order[i] == freep;
      assert order[0] <= order[i];
    }

    constructor (baseAddress: nat, programBreak: nat)
      requires 0 < baseAddress < programBreak <= LIMIT
      ensures Valid() && live == {} && owner == map[]
    {
      base, freep, brk, mem := baseAddress, 0, programBreak, map[];
      order, live, owner, denied := [], {}, map[], 0;
    }

    /** The system call. It fails, or returns the end of the process as it was, which is above all memory handed out
        before. The process ends n bytes higher then; for n that is not positive it has no more memory than before. */
    method Sbrk(n: int) returns (p: int)
      requires brk <= LIMIT && n % HEADER_BYTES == 0
      modifies this`brk, this`denied
      ensures p == -1 ==> brk == old(brk) && denied == old(denied) + 1
      ensures p != -1 ==> old(brk) <= p && denied == old(denied)
      ensures p != -1 && n > 0 ==> brk == p + n / HEADER_BYTES <= LIMIT
      ensures p != -1 && n <= 0 ==>
                brk <= p && brk == if p + n / HEADER_BYTES >= 0 then p + n / HEADER_BYTES else p
    {
      p := *;
      if brk <= p && n > 0 && p + n / HEADER_BYTES <= LIMIT {
        brk := p + n / HEADER_BYTES;
      } else if brk <= p && n <= 0 {
        brk := if p + n / HEADER_BYTES >= 0 then p + n / HEADER_BYTES else p;
      } else {
        p := -1;
        denied := denied + 1;
      }
    }

    /** The search loop of free: the list element that precedes a live block by address. */
    method Precede(bp: nat) returns (p: nat, ghost t: nat)
      requires Valid() && bp in live
      ensures Slot(order, t, bp) && p == order[t]
    {
      t := FindSlot(mem, order, live, owner, bp);
      ghost var k :| 0 <= k < |order| && order[k] == freep;
      p := freep;
      while !(bp > p && bp < mem[p].ptr)
        invariant 0 <= k < |order| && p == order[k] && p in mem
        decreases Dist(k, t, |order|)
      {
        PtrIsSuccessor(mem, order, k);
        if p >= mem[p].ptr && (bp > p || bp < mem[p].ptr) {
          break;
        }
        p := mem[p].ptr;
        k := Next(k, |order|);
      }
      PtrIsSuccessor(mem, order, k);
      SlotUnique(order, t, k, bp);
    }

    /** The header updates of free: join with the upper and the lower neighbour where they touch, else link. */
    method Join(p: nat, bp: nat)
      requires p in mem && bp in mem && mem[p].ptr in mem
      modifies this`mem
      ensures mem == Release(old(mem), p, bp)
    {
      if bp + mem[bp].size == mem[p].ptr {
        mem := mem[bp := Header(mem[mem[p].ptr].ptr, mem[bp].size + mem[mem[p].ptr].size)];
      } else {
        mem := mem[bp := Header(mem[p].ptr, mem[bp].size)];
      }
      if p + mem[p].size == bp {
        mem := mem[p := Header(mem[bp].ptr, mem[p].size + mem[bp].size)];
      } else {
        mem := mem[p := Header(bp, mem[p].size)];
      }
    }

    /** Give a live block back: it becomes free, and nothing else changes hands. */
    method Free(ap: nat)
      requires Valid() && 0 < ap && ap - 1 in live
      modifies this`mem, this`freep, this`order, this`live, this`owner
      ensures Valid() && freep != 0 && live == old(live) - {ap - 1} && owner.Keys == old(owner.Keys)
      ensures SizesKept(live, old(mem), mem)
      ensures ap - 1 in old(mem) && HasFree(mem, order, old(mem)[ap - 1].size)
    {
      hide *;
      Unpack();
      var bp := ap - 1;
      ghost var mem0, keys := mem, owner.Keys;
      var p, t := Precede(bp);
      ghost var order', owner', big := Released(mem, order, live, owner, t, bp);
      Join(p, bp);
      freep := p;
      WithinSameKeys(owner, owner', base, brk);
      order, live, owner := order', live - {bp}, owner';
      Repack();
      SizesKeptEqual(live, mem0, mem);
      FreeAt(mem, order, big, mem0[bp].size);
    }

    /** First half of morecore: obtain memory and give it a header, as a live block. When the argument of sbrk is not
        positive the header goes where the process has no memory: `wild`, and nothing is said of the heap from then
        on. */
    method Extend(nu: nat) returns (hp: int, wild: bool)
      requires Valid() && freep != 0 && 0 < nu && Request(nu) <= UINT / HEADER_BYTES
      modifies this`mem, this`brk, this`live, this`owner, this`denied
      ensures (hp == -1 || 0 < hp) && denied == old(denied) + (if hp == -1 then 1 else 0)
      ensures wild <==> hp != -1 && SbrkArg(Request(nu)) <= 0
      ensures wild ==> brk <= hp
      ensures !wild ==> Valid() && freep != 0 && SizesKept(old(live), old(mem), mem)
      ensures hp == -1 ==> live == old(live) && owner == old(owner) && mem == old(mem)
      ensures hp != -1 && !wild ==>
                hp !in old(live) && live == old(live) + {hp as nat} && hp in mem && mem[hp].size == Request(nu)
      ensures hp != -1 && !wild ==> Grown(old(owner.Keys), owner.Keys, brk, nu)
    {
      hide *;
      Unpack();
      wild := false;
      var n := nu;
      if n < MIN_UNITS {
        n := MIN_UNITS;
      }
      RequestIs(nu, n);
      SbrkArgUnits(n);
      hp := Sbrk(SbrkArg(n));
      if hp == -1 {
        Repack();
        AllKept(mem, order, live, owner);
        return;
      }
      ghost var mem0 := mem;
      mem := mem[hp := Header(if hp in mem then mem[hp].ptr else 0, n)];
      if SbrkArg(n) <= 0 {
        return hp, true;
      }
      WithinMore(owner, base, old(brk), hp, brk);
      GrownHeap(mem0, mem, order, live, owner, hp, n, base);
      GivenGrown(owner, hp, nu, brk, base);
      live, owner := live + {hp}, Given(owner, hp, n, hp);
      Repack();
    }

    /** Ask the system for more memory and put it on the free list. */
    method Morecore(nu: nat) returns (p: nat, wild: bool)
      requires Valid() && freep != 0 && 0 < nu && Request(nu) <= UINT / HEADER_BYTES
      modifies this
      ensures wild <==> SbrkArg(Request(nu)) <= 0 && denied == old(denied)
      ensures !wild ==> Valid() && freep != 0 && live == old(live) && SizesKept(live, old(mem), mem)
      ensures !wild && p == 0 ==>
                owner == old(owner) && order == old(order) && mem == old(mem) && denied == old(denied) + 1
      ensures !wild && p != 0 ==> p == freep && Grown(old(owner.Keys), owner.Keys, brk, nu) && denied == old(denied)
      ensures !wild && p != 0 ==> HasFree(mem, order, nu)
    {
      hide Heap, SbrkArg;
      var hp;
      hp, wild := Extend(nu);
      if hp == -1 || wild {
        return 0, wild;
      }
      ghost var mem1 := mem;
      Free(hp + 1);
      p := freep;
    }

    /** A block that fits exactly leaves the list. */
    method TakeWhole(prevp: nat, p: nat, ghost i: nat)
      requires Valid() && freep != 0 && 0 < i < |order| && p == order[i] && prevp == order[i - 1]
      modifies this`mem, this`freep, this`order, this`live
      ensures Valid() && freep != 0 && freep == prevp
      ensures p !in old(live) && live == old(live) + {p} && p in mem && p in old(mem) && mem[p].size == old(mem)[p].size
      ensures SizesKept(old(live), old(mem), mem)
    {
      hide *;
      Unpack();
      ghost var mem0 := mem;
      TakenWhole(mem, order, live, owner, i);
      UnlinkKeeps(mem, order, live, owner, i);
      mem := mem[prevp := Header(mem[p].ptr, mem[prevp].size)];
      order, live := Removed(order, i), live + {p};
      freep := prevp;
      Repack();
    }

    /** A block that is too big stays on the list without its tail. */
    method TakeTail(prevp: nat, p: nat, nunits: nat, ghost i: nat) returns (q: nat)
      requires Valid() && freep != 0 && 0 < i < |order| && p == order[i] && prevp == order[i - 1]
      requires p in mem && 0 < nunits < mem[p].size
      modifies this`mem, this`freep, this`live, this`owner
      ensures Valid() && freep != 0 && freep == prevp && owner.Keys == old(owner.Keys)
      ensures q == p + old(mem)[p].size - nunits
      ensures q !in old(live) && live == old(live) + {q} && q in mem && mem[q].size == nunits
      ensures SizesKept(old(live), old(mem), mem)
    {
      ghost var mem0 := mem;
      hide Heap, SplitOff;
      NotNull(mem, order, live, owner, i - 1);
      mem := mem[p := Header(mem[p].ptr, mem[p].size - nunits)];
      q := p + mem[p].size;
      mem := mem[q := Header(if q in mem then mem[q].ptr else 0, nunits)];
      TakenTail(mem0, mem, order, live, owner, i, nunits);
      live, owner := live + {q}, SplitOff(owner, q, nunits);
      assert forall u :: u in owner ==> u in owner.Keys && u in old(owner);
      freep := prevp;
    }

    /** Take nunits from the free block p, whose list predecessor is prevp: the whole block, or its tail. */
    method Take(prevp: nat, p: nat, nunits: nat, ghost i: nat) returns (ap: nat)
      requires Valid() && freep != 0 && 0 < i < |order| && p == order[i] && prevp == order[i - 1]
      requires p in mem && 0 < nunits <= mem[p].size
      modifies this`mem, this`freep, this`order, this`live, this`owner
      ensures Valid() && freep != 0 && freep == prevp && 0 < ap && owner.Keys == old(owner.Keys)
      ensures ap == p + old(mem)[p].size - nunits + 1
      ensures ap - 1 !in old(live) && live == old(live) + {ap - 1} && ap - 1 in mem && mem[ap - 1].size == nunits
      ensures SizesKept(old(live), old(mem), mem)
    {
      hide Heap;
      if mem[p].size == nunits {
        TakeWhole(prevp, p, i);
        ap := p + 1;
      } else {
        var q := TakeTail(prevp, p, nunits, i);
        ap := q + 1;
      }
    }

    /** On first use the list consists of the empty base block alone. */
    method Initialize()
      requires Valid()
      modifies this`mem, this`freep, this`order
      ensures Valid() && freep != 0
      ensures SizesKept(live, old(mem), mem)
      ensures old(freep) != 0 ==> mem == old(mem) && order == old(order) && freep == old(freep)
      ensures old(freep) == 0 ==> |order| == 1
    {
      if freep == 0 {
        mem := mem[base := Header(base, 0)];
        freep := base;
        order := [base];
        FirstHeap(old(mem), base);
      }
    }

    /** Allocate: first fit along the list, with one round to the system if nothing fits. The heap is spoilt exactly
        when the request is for 2^31 - 15 bytes or more, does not wrap around, finds no free block, and sbrk does not
        refuse. */
    method Malloc(nbytes: nat) returns (ap: nat, wild: bool)
      requires Valid() && nbytes < UINT
      modifies this
      ensures wild <==> 0x7FFF_FFF1 <= nbytes <= UINT - HEADER_BYTES && denied == old(denied) &&
                        !old(freep != 0 && HasFree(mem, order, Units(nbytes)))
      ensures !wild ==> Valid() && SizesKept(old(live), old(mem), mem)
      ensures !wild && ap == 0 ==> live == old(live) && owner.Keys == old(owner.Keys) && denied == old(denied) + 1
      ensures !wild && ap != 0 ==>
                && ap - 1 !in old(live) && live == old(live) + {ap - 1} && ap - 1 in mem
                && mem[ap - 1].size == Units(nbytes)
                && denied == old(denied)
      ensures !wild ==> owner.Keys == old(owner.Keys) || Grown(old(owner.Keys), owner.Keys, brk, Units(nbytes))
      ensures old(freep != 0 && HasFree(mem, order, Units(nbytes))) ==> ap != 0 && owner.Keys == old(owner.Keys)
      ensures old(freep != 0 && HasFree(mem, order, Units(nbytes))) ==>
                NextFit(old(mem), old(order), old(freep), Units(nbytes), ap, freep)
    {
      hide *;
      var nunits := Units(nbytes);
      wild := false;
      UnitsBound(nbytes);
      HugeRequests(nbytes);
      Initialize();
      Unpack();
      var prevp := freep;
      ghost var tour := TourFrom(mem, order, live, owner, freep, nunits);
      var p := mem[prevp].ptr;
      ghost var asked, mem0, order0 := false, mem, order;
      while true
        invariant Valid() && freep != 0 && live == old(live) && SizesKept(live, old(mem), mem) && denied == old(denied)
        invariant OnTour(mem, order, freep, nunits, tour, prevp, p)
        invariant if asked then SbrkArg(Request(nunits)) > 0 else mem == mem0 && order == order0
        invariant if asked then tour.sure &&
                  Grown(old(owner.Keys), owner.Keys, brk, nunits) else owner.Keys == old(owner.Keys)
        invariant old(freep != 0 && HasFree(mem, order, Units(nbytes))) ==> tour.sure && !asked && freep == old(freep)
        decreases !tour.sure, tour.left
      {
        Unpack();
        TourFacts(mem, order, live, owner, freep, nunits, tour, prevp, p);
        if mem[p].size >= nunits {
          ghost var mem1 := mem;
          if !asked { FreeAt(mem, order, tour.i, nunits); }
          ap := Take(prevp, p, nunits, tour.i);
          SizesKeptTwice(old(live), old(mem), mem1, mem);
          return;
        }
        if p == freep {
          ghost var mem1 := mem;
          p, wild := Morecore(nunits);
          if wild {
            return 0, true;
          }
          SizesKeptTwice(live, old(mem), mem1, mem);
          if p == 0 {
            return 0, false;
          }
          Unpack();
          asked := true;
          tour := Refilled(mem, order, live, owner, freep, nunits);
        } else {
          tour := TourStep(mem, order, live, owner, freep, nunits, tour, prevp, p);
        }
        prevp := p;
        p := mem[p].ptr;
      }
    }
  }
}
