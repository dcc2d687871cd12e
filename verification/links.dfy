/** The directory graph: link counts under create, link and unlink. */
module Links {
  import opened Blocks
  import opened FileSystem
  import opened Directory

  const ROOT := 1
  const DOT: seq<Byte> := [46]
  const DOTDOT: seq<Byte> := [46, 46]

  /** An inode as the directory tree sees it. Type 0 is a free inode. */
  datatype Node = Node(typ: int, nlink: int, slots: seq<Slot>)

  type Graph = seq<Node>

  /** A directory that is still part of the tree. */
  predicate LinkedDir(g: Graph, d: nat) {
    d < |g| && g[d].typ == T_DIR && g[d].nlink > 0
  }

  /** Record k of directory d is an entry other than "." that names inode i. */
  predicate Refers(g: Graph, d: nat, k: nat, i: nat) {
    LinkedDir(g, d) && k < |g[d].slots| && g[d].slots[k].Used? && g[d].slots[k].name != DOT && g[d].slots[k].inum == i
  }

  /** All entries other than "." that name inode i. */
  ghost function Refs(g: Graph, i: nat): set<(nat, nat)> {
    set d: nat, k: nat | d < |g| && k < |g[d].slots| && Refers(g, d, k, i) :: (d, k)
  }

  /** A linked directory begins with "." and "..", its names are unique, and its parent is a linked directory. */
  predicate DotsOk(g: Graph, d: nat) {
    LinkedDir(g, d) ==>
      var s := g[d].slots;
      && |s| >= 2 && s[0] == Used(DOT, d) && s[1].Used? && s[1].name == DOTDOT && LinkedDir(g, s[1].inum)
      && (d == ROOT ==> s[1].inum == ROOT)
  }

  /** An entry names an inode in use; a directory that it names is not the root and has d as its "..". */
  predicate EntryOk(g: Graph, d: nat, k: nat) {
    LinkedDir(g, d) && 2 <= k < |g[d].slots| && g[d].slots[k].Used? ==>
      var i := g[d].slots[k].inum;
      && i < |g| && g[i].typ != 0 && g[d].slots[k].name != DOT && g[d].slots[k].name != DOTDOT
      && (g[i].typ == T_DIR ==> i != ROOT && |g[i].slots| >= 2 && g[i].slots[1] == Used(DOTDOT, d))
  }

  /** Every linked directory but the root has an entry in its parent. */
  ghost predicate HasEntry(g: Graph, d: nat) {
    LinkedDir(g, d) && d != ROOT && |g[d].slots| >= 2 && g[d].slots[1].Used? ==>
      exists k :: InParent(g, g[d].slots[1].inum, k, d)
  }

  predicate InParent(g: Graph, p: nat, k: nat, d: nat) {
    p < |g| && 2 <= k < |g[p].slots| && g[p].slots[k].Used? && g[p].slots[k].inum == d
  }

  predicate SameTarget(a: Slot, b: Slot) {
    a.Used? && b.Used? && a.inum == b.inum
  }

  /** No directory has two entries in its parent. */
  ghost predicate OneEntry(g: Graph, d: nat) {
    LinkedDir(g, d) ==>
      forall j, k ::
        2 <= j < k < |g[d].slots| && SameTarget(g[d].slots[j], g[d].slots[k]) ==>
          g[d].slots[j].inum >= |g| || g[g[d].slots[j].inum].typ != T_DIR
  }

  ghost predicate Counted(g: Graph, i: nat)
    requires i < |g|
  {
    && (g[i].typ != 0 ==> g[i].nlink == |Refs(g, i)|)
    && (g[i].typ == 0 ==> Refs(g, i) == {})
  }

  ghost predicate Shape(g: Graph) {
    ShapeBut(g, |g|)
  }

  /** The shape of the tree, except that directory x may still lack its entry. */
  ghost predicate ShapeBut(g: Graph, x: nat) {
    && (forall d: nat :: d < |g| ==> DotsOk(g, d) && OneEntry(g, d) && (d != x ==> HasEntry(g, d)))
    && (forall d: nat, k: nat :: d < |g| && k < |g[d].slots| ==> EntryOk(g, d, k))
    && (forall d: nat :: LinkedDir(g, d) ==> Unique(g[d].slots))
  }

  /** The link invariant. */
  ghost predicate Inv(g: Graph) {
    Shape(g) && forall i: nat :: i < |g| ==> Counted(g, i)
  }

  // ---- Changing the graph ----

  function AddEntry(g: Graph, dp: nat, name: seq<Byte>, i: nat): Graph
    requires dp < |g|
  {
    g[dp := g[dp].(slots := Linked(g[dp].slots, name, i))]
  }

  function WithNlink(g: Graph, i: nat, n: int): Graph
    requires i < |g|
  {
    g[i := g[i].(nlink := n)]
  }

  function ClearEntry(g: Graph, dp: nat, k: nat): Graph
    requires dp < |g| && k < |g[dp].slots|
  {
    g[dp := g[dp].(slots := g[dp].slots[k := Free])]
  }

  lemma InRefs(g: Graph, i: nat, p: (nat, nat))
    ensures p in Refs(g, i) <==> Refers(g, p.0, p.1, i)
  {
    assert p == (p.0, p.1);
  }

  /** A new entry is one more reference to its target. */
  lemma AddedRefs(g: Graph, dp: nat, name: seq<Byte>, i: nat, x: nat)
    requires LinkedDir(g, dp) && name != DOT
    ensures var k := FreeSlot(g[dp].slots);
            && (dp, k) !in Refs(g, x)
            && Refs(AddEntry(g, dp, name, i), x) == if x == i then Refs(g, x) + {(dp, k)} else Refs(g, x)
  {
    hide Refs;
    var k, g' := FreeSlot(g[dp].slots), AddEntry(g, dp, name, i);
    InRefs(g, x, (dp, k));
    forall p: (nat, nat) ensures p in Refs(g', x) <==> (p in Refs(g, x) || (x == i && p == (dp, k))) {
      InRefs(g, x, p);
      InRefs(g', x, p);
    }
  }

  /** A cleared entry is one reference less. */
  lemma ClearedRefs(g: Graph, dp: nat, k: nat, x: nat)
    requires LinkedDir(g, dp) && k < |g[dp].slots|
    ensures Refs(ClearEntry(g, dp, k), x) == Refs(g, x) - {(dp, k)}
  {
    hide Refs;
    var g' := ClearEntry(g, dp, k);
    forall p: (nat, nat) ensures p in Refs(g', x) <==> p in Refs(g, x) - {(dp, k)} {
      InRefs(g, x, p);
      InRefs(g', x, p);
    }
  }

  /** References depend only on which directories are linked and what they hold. */
  lemma SameRefs(g: Graph, g': Graph, x: nat)
    requires |g'| == |g| && forall d: nat :: LinkedDir(g', d) <==> LinkedDir(g, d)
    requires forall d: nat :: LinkedDir(g, d) ==> g'[d].slots == g[d].slots
    ensures Refs(g', x) == Refs(g, x)
  {
    hide Refs;
    forall p: (nat, nat) ensures p in Refs(g', x) <==> p in Refs(g, x) {
      InRefs(g, x, p);
      InRefs(g', x, p);
    }
  }

  /** A new directory adds its ".." as a reference to its parent. */
  lemma NewDirRefs(g: Graph, g': Graph, i: nat, dp: nat, x: nat)
    requires i < |g| && !LinkedDir(g, i) && |g'| == |g| && LinkedDir(g', i)
    requires g'[i].slots == [Used(DOT, i), Used(DOTDOT, dp)]
    requires forall d: nat :: d != i ==> (LinkedDir(g', d) <==> LinkedDir(g, d))
    requires forall d: nat :: d != i && LinkedDir(g, d) ==> g'[d].slots == g[d].slots
    ensures (i, 1) !in Refs(g, x) && Refs(g', x) == if x == dp then Refs(g, x) + {(i, 1)} else Refs(g, x)
  {
    hide Refs;
    InRefs(g, x, (i, 1));
    forall p: (nat, nat) ensures p in Refs(g', x) <==> (p in Refs(g, x) || (x == dp && p == (i, 1))) {
      InRefs(g, x, p);
      InRefs(g', x, p);
    }
  }

  /** A directory that leaves the tree empty takes away only its ".." reference. */
  lemma GoneDirRefs(g: Graph, g': Graph, i: nat, dp: nat, x: nat)
    requires LinkedDir(g, i) && |g'| == |g| && !LinkedDir(g', i) && |g[i].slots| >= 2 && g[i].slots[0] == Used(DOT, i)
    requires g[i].slots[1] == Used(DOTDOT, dp)
    requires forall j :: 2 <= j < |g[i].slots| ==> g[i].slots[j].Free?
    requires forall d: nat :: d != i ==> (LinkedDir(g', d) <==> LinkedDir(g, d))
    requires forall d: nat :: d != i && LinkedDir(g, d) ==> g'[d].slots == g[d].slots
    ensures Refs(g', x) == if x == dp then Refs(g, x) - {(i, 1)} else Refs(g, x)
  {
    hide Refs;
    forall p: (nat, nat) ensures p in Refs(g', x) <==> (p in Refs(g, x) && !(x == dp && p == (i, 1))) {
      InRefs(g, x, p);
      InRefs(g', x, p);
    }
  }

  // ---- The shape is kept ----

  lemma DotSlots(g: Graph, x: nat, d: nat)
    requires ShapeBut(g, x) && LinkedDir(g, d)
    ensures |g[d].slots| >= 2 && g[d].slots[0] == Used(DOT, d) && g[d].slots[1].Used? && g[d].slots[1].name == DOTDOT
    ensures LinkedDir(g, g[d].slots[1].inum) && Unique(g[d].slots) && 2 <= FreeSlot(g[d].slots)
  {
    hide EntryOk, HasEntry, OneEntry, Unique;
    assert DotsOk(g, d);
  }

  /** A name that is not in a directory is neither "." nor "..". */
  lemma NotDots(g: Graph, x: nat, d: nat, name: seq<Byte>)
    requires ShapeBut(g, x) && LinkedDir(g, d) && Find(g[d].slots, name) == |g[d].slots|
    ensures name != DOT && name != DOTDOT
  {
    DotSlots(g, x, d);
    assert !HasName(g[d].slots, 0, name) && !HasName(g[d].slots, 1, name);
  }

  lemma AddShape(g: Graph, dp: nat, name: seq<Byte>, i: nat)
    requires ShapeBut(g, i) && LinkedDir(g, dp) && i < |g| && g[i].typ != 0 && Find(g[dp].slots, name) == |g[dp].slots|
    requires g[i].typ == T_DIR ==> i != ROOT && i != dp && |g[i].slots| >= 2 && g[i].slots[1] == Used(DOTDOT, dp)
    requires g[i].typ == T_DIR ==>
              forall j :: 2 <= j < |g[dp].slots| && g[dp].slots[j].Used? ==> g[dp].slots[j].inum != i
    ensures Shape(AddEntry(g, dp, name, i))
  {
    hide Unique, Find;
    var g', k := AddEntry(g, dp, name, i), FreeSlot(g[dp].slots);
    NotDots(g, i, dp, name);
    DotSlots(g, i, dp);
    AddUnique(g[dp].slots, name, i);
    forall d: nat | d < |g'| ensures DotsOk(g', d) && OneEntry(g', d) {
      assert DotsOk(g, d) && OneEntry(g, d);
    }
    forall d: nat, j: nat | d < |g'| && j < |g'[d].slots| ensures EntryOk(g', d, j) {
      assert j < |g[d].slots| ==> EntryOk(g, d, j);
    }
    forall d: nat | d < |g'| ensures HasEntry(g', d) {
      AddHasEntry(g, dp, name, i, d);
    }
  }

  lemma AddUnique(s: seq<Slot>, name: seq<Byte>, i: nat)
    requires Unique(s) && Find(s, name) == |s|
    ensures Unique(Linked(s, name, i))
  {
    forall j | 0 <= j < |s| && s[j].Used? ensures s[j].name != name {
      assert !HasName(s, j, name);
    }
  }

  lemma AddHasEntry(g: Graph, dp: nat, name: seq<Byte>, i: nat, d: nat)
    requires ShapeBut(g, i) && LinkedDir(g, dp) && i < |g| && d < |g| && 2 <= FreeSlot(g[dp].slots)
    requires g[i].typ == T_DIR ==> i != dp && |g[i].slots| >= 2 && g[i].slots[1] == Used(DOTDOT, dp)
    ensures HasEntry(AddEntry(g, dp, name, i), d)
  {
    hide Unique, EntryOk, OneEntry;
    var g', k := AddEntry(g, dp, name, i), FreeSlot(g[dp].slots);
    assert DotsOk(g, d);
    if d == i {
      assert g[i].typ == T_DIR ==> InParent(g', dp, k, d);
    } else if LinkedDir(g, d) && d != ROOT {
      assert HasEntry(g, d);
      var p := g[d].slots[1].inum;
      var j: nat :| InParent(g, p, j, d);
      assert InParent(g', p, j, d);
    }
  }

  /** Changing link counts without adding or losing a linked directory. */
  lemma NlinkShape(g: Graph, x: nat, i: nat, n: int)
    requires ShapeBut(g, x) && i < |g| && (g[i].typ == T_DIR ==> (n > 0 <==> g[i].nlink > 0))
    ensures ShapeBut(WithNlink(g, i, n), x)
  {
    hide Unique;
    var g' := WithNlink(g, i, n);
    forall d: nat | d < |g'| ensures DotsOk(g', d) && OneEntry(g', d) && (d != x ==> HasEntry(g', d)) {
      assert DotsOk(g, d) && OneEntry(g, d) && (d != x ==> HasEntry(g, d));
      if d != x && LinkedDir(g', d) && d != ROOT {
        var p := g[d].slots[1].inum;
        var j: nat :| InParent(g, p, j, d);
        assert InParent(g', p, j, d);
      }
    }
    forall d: nat, j: nat | d < |g'| && j < |g'[d].slots| ensures EntryOk(g', d, j) {
      assert EntryOk(g, d, j);
    }
  }

  /** A free inode is put to use; nothing names it yet. */
  lemma NewNodeShape(g: Graph, i: nat, node: Node, dp: nat)
    requires Shape(g) && i < |g| && g[i].typ == 0 && Refs(g, i) == {} && LinkedDir(g, dp) && i != ROOT && node.typ != 0
    requires node.typ == T_DIR ==> node.slots == [Used(DOT, i), Used(DOTDOT, dp)] && node.nlink == 1
    ensures ShapeBut(g[i := node], i)
  {
    var g' := g[i := node];
    forall d: nat | d < |g'| ensures DotsOk(g', d) && OneEntry(g', d) && (d != i ==> HasEntry(g', d)) {
      NewNodeDir(g, i, node, dp, d);
    }
    forall d: nat, j: nat | d < |g'| && j < |g'[d].slots| ensures EntryOk(g', d, j) {
      if d != i {
        assert EntryOk(g, d, j);
        InRefs(g, i, (d, j));
      }
    }
  }

  lemma NewNodeDir(g: Graph, i: nat, node: Node, dp: nat, d: nat)
    requires Shape(g) && i < |g| && d < |g| && g[i].typ == 0 && Refs(g, i) == {} && LinkedDir(g, dp) && i != ROOT
    requires node.typ != 0
    requires node.typ == T_DIR ==> node.slots == [Used(DOT, i), Used(DOTDOT, dp)] && node.nlink == 1
    ensures var g' := g[i := node]; DotsOk(g', d) && OneEntry(g', d) && (d != i ==> HasEntry(g', d))
  {
    hide Refs, Unique;
    var g' := g[i := node];
    assert DotsOk(g, d) && OneEntry(g, d) && HasEntry(g, d);
    if d != i && LinkedDir(g, d) {
      forall j | 2 <= j < |g[d].slots| && g[d].slots[j].Used? ensures g[d].slots[j].inum != i {
        assert EntryOk(g, d, j);
      }
      if d != ROOT {
        var p := g[d].slots[1].inum;
        var j: nat :| InParent(g, p, j, d);
        assert InParent(g', p, j, d);
      }
    }
  }

  /** An entry for something other than a directory goes away. */
  lemma ClearShape(g: Graph, dp: nat, k: nat)
    requires Shape(g) && LinkedDir(g, dp) && 2 <= k < |g[dp].slots| && g[dp].slots[k].Used? && g[dp].slots[k].inum < |g|
    ensures ShapeBut(ClearEntry(g, dp, k), if g[g[dp].slots[k].inum].typ == T_DIR then g[dp].slots[k].inum else |g|)
  {
    var g', i := ClearEntry(g, dp, k), g[dp].slots[k].inum;
    forall d: nat | d < |g'| ensures DotsOk(g', d) && OneEntry(g', d) {
      assert DotsOk(g, d) && OneEntry(g, d);
    }
    forall d: nat | d < |g'| && d != i ensures HasEntry(g', d) {
      ClearHasEntry(g, dp, k, d);
    }
    forall d: nat, j: nat | d < |g'| && j < |g'[d].slots| ensures EntryOk(g', d, j) {
      assert EntryOk(g, d, j);
    }
  }

  lemma ClearHasEntry(g: Graph, dp: nat, k: nat, d: nat)
    requires Shape(g) && LinkedDir(g, dp) && 2 <= k < |g[dp].slots| && g[dp].slots[k].Used? && d < |g|
    requires d != g[dp].slots[k].inum
    ensures HasEntry(ClearEntry(g, dp, k), d)
  {
    hide Unique, OneEntry, EntryOk;
    var g' := ClearEntry(g, dp, k);
    assert DotsOk(g, d) && HasEntry(g, d);
    if LinkedDir(g, d) && d != ROOT {
      var p := g[d].slots[1].inum;
      var j: nat :| InParent(g, p, j, d);
      assert InParent(g', p, j, d);
    }
  }

  // ---- create, link and unlink keep the counts ----

  function LinkDone(g: Graph, ip: nat, dp: nat, name: seq<Byte>): Graph
    requires ip < |g| && dp < |g|
  {
    AddEntry(WithNlink(g, ip, g[ip].nlink + 1), dp, name, ip)
  }

  lemma LinkKeeps(g: Graph, ip: nat, dp: nat, name: seq<Byte>)
    requires Inv(g) && LinkedDir(g, dp) && ip < |g| && g[ip].typ != 0 && g[ip].typ != T_DIR
    requires Find(g[dp].slots, name) == |g[dp].slots|
    ensures Inv(LinkDone(g, ip, dp, name))
  {
    hide DotsOk, OneEntry, HasEntry, EntryOk, Unique, Refs, Find;
    var g1 := WithNlink(g, ip, g[ip].nlink + 1);
    NotDots(g, |g|, dp, name);
    NlinkShape(g, |g|, ip, g[ip].nlink + 1);
    Weaken(g1, ip);
    AddShape(g1, dp, name, ip);
    var g2 := LinkDone(g, ip, dp, name);
    forall x: nat | x < |g2| ensures Counted(g2, x) {
      assert Counted(g, x);
      SameRefs(g, g1, x);
      AddedRefs(g1, dp, name, ip, x);
    }
  }

  lemma Weaken(g: Graph, x: nat)
    requires Shape(g)
    ensures ShapeBut(g, x)
  {
    hide DotsOk, OneEntry, HasEntry, EntryOk, Unique;
  }

  function NewNode(typ: int, i: nat, dp: nat): Node {
    Node(typ, 1, if typ == T_DIR then [Used(DOT, i), Used(DOTDOT, dp)] else [])
  }

  function CreateDone(g: Graph, i: nat, dp: nat, name: seq<Byte>, typ: int): Graph
    requires i < |g| && dp < |g| && i != dp
  {
    AddEntry(CreateReady(g, i, dp, typ), dp, name, i)
  }

  /** The graph just before the new inode gets its entry. */
  function CreateReady(g: Graph, i: nat, dp: nat, typ: int): Graph
    requires i < |g| && dp < |g| && i != dp
  {
    var g1 := g[i := NewNode(typ, i, dp)];
    if typ == T_DIR then WithNlink(g1, dp, g1[dp].nlink + 1) else g1
  }

  lemma CreateShape(g: Graph, i: nat, dp: nat, name: seq<Byte>, typ: int)
    requires Shape(g) && LinkedDir(g, dp) && i < |g| && i != ROOT && g[i].typ == 0 && Refs(g, i) == {} && typ != 0
    requires Find(g[dp].slots, name) == |g[dp].slots|
    ensures i != dp && Shape(AddEntry(CreateReady(g, i, dp, typ), dp, name, i))
  {
    hide DotsOk, OneEntry, HasEntry, EntryOk, Unique, Refs, Find;
    var g1 := g[i := NewNode(typ, i, dp)];
    NewNodeShape(g, i, NewNode(typ, i, dp), dp);
    NlinkShape(g1, i, dp, g1[dp].nlink + 1);
    NotNamed(g, i, dp);
    AddShape(CreateReady(g, i, dp, typ), dp, name, i);
  }

  lemma CreateCounts(g: Graph, i: nat, dp: nat, name: seq<Byte>, typ: int, x: nat)
    requires LinkedDir(g, dp) && i < |g| && g[i].typ == 0 && i != dp && Refs(g, i) == {} && typ != 0 && name != DOT
    requires x < |g| && Counted(g, x)
    ensures Counted(AddEntry(CreateReady(g, i, dp, typ), dp, name, i), x)
  {
    hide Refs, Linked, FreeSlot;
    var g2 := CreateReady(g, i, dp, typ);
    if typ == T_DIR { NewDirRefs(g, g2, i, dp, x); } else { SameRefs(g, g2, x); }
    AddedRefs(g2, dp, name, i, x);
  }

  lemma CreateKeeps(g: Graph, i: nat, dp: nat, name: seq<Byte>, typ: int)
    requires Inv(g) && LinkedDir(g, dp) && i < |g| && i != ROOT && g[i].typ == 0 && typ != 0
    requires Find(g[dp].slots, name) == |g[dp].slots|
    ensures i != dp && Inv(CreateDone(g, i, dp, name, typ))
  {
    hide ShapeBut, Refs, Find, AddEntry;
    assert Counted(g, i);
    NotDots(g, |g|, dp, name);
    CreateShape(g, i, dp, name, typ);
    SameLength(CreateReady(g, i, dp, typ), dp, name, i);
    forall x: nat | x < |g| ensures Counted(AddEntry(CreateReady(g, i, dp, typ), dp, name, i), x) {
      assert Counted(g, x);
      CreateCounts(g, i, dp, name, typ, x);
    }
  }

  lemma SameLength(g: Graph, dp: nat, name: seq<Byte>, i: nat)
    requires dp < |g|
    ensures |AddEntry(g, dp, name, i)| == |g|
  {
  }

  lemma NotNamed(g: Graph, i: nat, dp: nat)
    requires Shape(g) && LinkedDir(g, dp) && Refs(g, i) == {}
    ensures forall j :: 2 <= j < |g[dp].slots| && g[dp].slots[j].Used? ==> g[dp].slots[j].inum != i
  {
    hide Refs;
    forall j | 2 <= j < |g[dp].slots| && g[dp].slots[j].Used? ensures g[dp].slots[j].inum != i {
      assert EntryOk(g, dp, j);
      InRefs(g, i, (dp, j));
    }
  }

  function UnlinkDone(g: Graph, dp: nat, k: nat): Graph
    requires dp < |g| && k < |g[dp].slots| && g[dp].slots[k].Used? && g[dp].slots[k].inum < |g|
  {
    var i := g[dp].slots[k].inum;
    var g1 := ClearEntry(g, dp, k);
    var g2 := if g[i].typ == T_DIR then WithNlink(g1, dp, g1[dp].nlink - 1) else g1;
    WithNlink(g2, i, g2[i].nlink - 1)
  }

  predicate EmptyDir(s: seq<Slot>) {
    forall j :: 2 <= j < |s| ==> s[j].Free?
  }

  /** An entry that unlink finds is past the dots, and its inode has a link. */
  lemma FoundEntry(g: Graph, dp: nat, k: nat)
    requires Inv(g) && LinkedDir(g, dp) && k < |g[dp].slots| && g[dp].slots[k].Used? && g[dp].slots[k].name != DOT
    requires g[dp].slots[k].name != DOTDOT
    ensures 2 <= k && g[dp].slots[k].inum < |g| && g[g[dp].slots[k].inum].typ != 0 && g[g[dp].slots[k].inum].nlink >= 1
    ensures (dp, k) in Refs(g, g[dp].slots[k].inum)
  {
    hide OneEntry, HasEntry, Unique, Refs;
    assert DotsOk(g, dp) && EntryOk(g, dp, k);
    var i := g[dp].slots[k].inum;
    InRefs(g, i, (dp, k));
    assert Counted(g, i);
    OneOf(Refs(g, i), (dp, k));
  }

  lemma OneOf(s: set<(nat, nat)>, p: (nat, nat))
    requires p in s
    ensures |s| >= 1
  {
    assert |s| == |s - {p}| + 1;
  }

  lemma TwoOf(s: set<(nat, nat)>, p: (nat, nat), q: (nat, nat))
    requires p in s && q in s && p != q
    ensures |s| >= 2
  {
    assert q in s - {p};
    OneOf(s - {p}, q);
    assert |s| == |s - {p}| + 1;
  }

  lemma UnlinkFileKeeps(g: Graph, dp: nat, k: nat)
    requires Inv(g) && LinkedDir(g, dp) && 2 <= k < |g[dp].slots| && g[dp].slots[k].Used?
    requires g[dp].slots[k].inum < |g| && g[g[dp].slots[k].inum].typ != 0 && g[g[dp].slots[k].inum].typ != T_DIR
    requires (dp, k) in Refs(g, g[dp].slots[k].inum)
    ensures Inv(UnlinkDone(g, dp, k))
  {
    hide DotsOk, OneEntry, HasEntry, EntryOk, Unique, Refs;
    var i, g1 := g[dp].slots[k].inum, ClearEntry(g, dp, k);
    ClearShape(g, dp, k);
    NlinkShape(g1, |g|, i, g1[i].nlink - 1);
    var g2 := UnlinkDone(g, dp, k);
    forall x: nat | x < |g2| ensures Counted(g2, x) {
      assert Counted(g, x);
      ClearedRefs(g, dp, k, x);
      SameRefs(g1, g2, x);
      InRefs(g, x, (dp, k));
      OneLess(Refs(g, x), (dp, k));
    }
  }

  lemma OneLess(s: set<(nat, nat)>, p: (nat, nat))
    ensures |s - {p}| == if p in s then |s| - 1 else |s|
  {
    if p !in s { assert s - {p} == s; }
  }

  /** The only reference to an empty directory other than its parent's entry would be the ".." of a directory inside
      it. */
  lemma OnlyEntry(g: Graph, dp: nat, k: nat, i: nat)
    requires Shape(g) && LinkedDir(g, dp) && LinkedDir(g, i) && 2 <= k < |g[dp].slots| && g[dp].slots[k].Used?
    requires g[dp].slots[k].inum == i
    requires EmptyDir(g[i].slots)
    ensures i != ROOT && i != dp && |g[i].slots| >= 2 && g[i].slots[1] == Used(DOTDOT, dp)
    ensures Refs(g, i) == {(dp, k)}
    ensures forall d: nat :: LinkedDir(g, d) && d != i ==>
              |g[d].slots| >= 2 && g[d].slots[1].Used? && g[d].slots[1].inum != i
  {
    hide Unique, Refs;
    assert EntryOk(g, dp, k) && DotsOk(g, i);
    forall d: nat | LinkedDir(g, d) && d != i
      ensures |g[d].slots| >= 2 && g[d].slots[1].Used? && g[d].slots[1].inum != i {
      NotInside(g, i, d);
    }
    forall p: (nat, nat) ensures p in Refs(g, i) <==> p == (dp, k) {
      InRefs(g, i, p);
      if Refers(g, p.0, p.1, i) {
        assert DotsOk(g, p.0) && EntryOk(g, p.0, p.1) && OneEntry(g, dp);
      }
    }
  }

  lemma NotInside(g: Graph, i: nat, d: nat)
    requires Shape(g) && LinkedDir(g, i) && i != ROOT && EmptyDir(g[i].slots) && LinkedDir(g, d) && d != i
    ensures |g[d].slots| >= 2 && g[d].slots[1].Used? && g[d].slots[1].inum != i
  {
    hide Unique, OneEntry, EntryOk;
    assert DotsOk(g, d) && HasEntry(g, d);
    if d != ROOT {
      var k: nat :| InParent(g, g[d].slots[1].inum, k, d);
    }
  }

  /** The parent of an entry keeps a link of its own besides the ".." of that entry. */
  lemma ParentStays(g: Graph, dp: nat, i: nat)
    requires Inv(g) && LinkedDir(g, dp) && LinkedDir(g, i) && i != ROOT && |g[i].slots| >= 2
    requires g[i].slots[1] == Used(DOTDOT, dp)
    ensures g[dp].nlink >= 2 && (i, 1) in Refs(g, dp)
  {
    hide Unique, OneEntry, Refs;
    assert Counted(g, dp) && DotsOk(g, dp) && HasEntry(g, dp);
    InRefs(g, dp, (i, 1));
    var q: (nat, nat);
    if dp == ROOT {
      q := (ROOT, 1);
    } else {
      var p := g[dp].slots[1].inum;
      var k: nat :| InParent(g, p, k, dp);
      assert EntryOk(g, p, k);
      q := (p, k);
    }
    InRefs(g, dp, q);
    TwoOf(Refs(g, dp), (i, 1), q);
  }

  lemma GoneShape(g: Graph, i: nat)
    requires ShapeBut(g, i) && LinkedDir(g, i) && i != ROOT
    requires forall d: nat :: LinkedDir(g, d) && d != i ==>
              |g[d].slots| >= 2 && g[d].slots[1].Used? && g[d].slots[1].inum != i
    ensures Shape(WithNlink(g, i, 0))
  {
    hide Unique;
    var g' := WithNlink(g, i, 0);
    forall d: nat | d < |g'| ensures DotsOk(g', d) && OneEntry(g', d) && HasEntry(g', d) {
      assert DotsOk(g, d) && OneEntry(g, d) && (d != i ==> HasEntry(g, d));
      if d != i && LinkedDir(g, d) && d != ROOT {
        var p := g[d].slots[1].inum;
        var j: nat :| InParent(g, p, j, d);
        assert InParent(g', p, j, d);
      }
    }
    forall d: nat, j: nat | d < |g'| && j < |g'[d].slots| ensures EntryOk(g', d, j) {
      assert EntryOk(g, d, j);
    }
  }

  lemma UnlinkDirKeeps(g: Graph, dp: nat, k: nat)
    requires Inv(g) && LinkedDir(g, dp) && 2 <= k < |g[dp].slots| && g[dp].slots[k].Used?
    requires LinkedDir(g, g[dp].slots[k].inum) && EmptyDir(g[g[dp].slots[k].inum].slots)
    ensures Inv(UnlinkDone(g, dp, k))
  {
    hide DotsOk, OneEntry, HasEntry, EntryOk, Unique, Refs;
    var i, g1 := g[dp].slots[k].inum, ClearEntry(g, dp, k);
    OnlyEntry(g, dp, k, i);
    ParentStays(g, dp, i);
    assert Counted(g, i);
    ClearShape(g, dp, k);
    NlinkShape(g1, i, dp, g1[dp].nlink - 1);
    var g2 := WithNlink(g1, dp, g1[dp].nlink - 1);
    assert g2[i] == g[i] && g2[i].nlink == 1;
    GoneShape(g2, i);
    var g3 := UnlinkDone(g, dp, k);
    DotSlots(g, |g|, i);
    forall x: nat | x < |g3| ensures Counted(g3, x) {
      assert Counted(g, x);
      ClearedRefs(g, dp, k, x);
      SameRefs(g1, g2, x);
      GoneDirRefs(g2, g3, i, dp, x);
      InRefs(g, x, (dp, k));
      OneLess(Refs(g, x), (dp, k));
      OneLess(Refs(g1, x), (i, 1));
    }
  }

  /** The directories that unlink removes are exactly those whose map has no names but "." and "..". */
  lemma OnlyDots(g: Graph, d: nat)
    requires Inv(g) && LinkedDir(g, d)
    ensures EmptyDir(g[d].slots) <==> AsMap(g[d].slots).Keys == {DOT, DOTDOT}
  {
    hide Refs, HasEntry, OneEntry, Counted, Find;
    var s := g[d].slots;
    DotSlots(g, |g|, d);
    FindIs(s, DOT, 0);
    FindIs(s, DOTDOT, 1);
    MapAnswers(s, DOT);
    MapAnswers(s, DOTDOT);
    if EmptyDir(s) {
      forall name ensures name in AsMap(s) <==> name in {DOT, DOTDOT} {
        MapAnswers(s, name);
        FindSpec(s, name);
      }
    } else {
      var j :| 2 <= j < |s| && s[j].Used?;
      FindIs(s, s[j].name, j);
      MapAnswers(s, s[j].name);
      assert EntryOk(g, d, j);
      assert s[j].name in AsMap(s).Keys;
    }
  }
}
