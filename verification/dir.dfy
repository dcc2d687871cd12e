/** C strings of bounded length: what strncmp, strncpy and skipelem do with names of up to DIRSIZ bytes. */
module BoundedNames {
  import opened Blocks

  const DIRSIZ := 14
  const SLASH: Byte := 47

  /** The string that a function bounded by n sees in a buffer: up to the first NUL, at most n bytes. */
  function Key(b: seq<Byte>, n: nat): (k: seq<Byte>)
    ensures |k| <= n && |k| <= |b| && k <= b && 0 !in k
    ensures |k| < n && |k| < |b| ==> b[|k|] == 0
  {
    if n == 0 || b == [] || b[0] == 0 then [] else [b[0]] + Key(b[1..], n - 1)
  }

  /** A buffer that such a function may read: it has n bytes, or a NUL before that. */
  predicate Readable(b: seq<Byte>, n: nat) {
    n <= |b| || |Key(b, n)| < |b|
  }

  lemma {:induction false} KeyIs(b: seq<Byte>, n: nat, m: nat)
    requires m <= n && m <= |b| && 0 !in b[..m] && (m == n || m == |b| || b[m] == 0)
    ensures Key(b, n) == b[..m]
    decreases m
  {
    if m > 0 {
      assert b[0] in b[..m];
      assert b[1..][..m - 1] == b[..m][1..];
      KeyIs(b[1..], n - 1, m - 1);
      assert b[..m] == [b[0]] + b[1..][..m - 1];
    }
  }

  predicate FirstDifference(p: seq<Byte>, q: seq<Byte>, i: nat) {
    i < |p| && i < |q| && p[..i] == q[..i] && p[i] != q[i]
  }

  /** strncmp: zero exactly when both buffers hold the same string of at most n bytes, else the difference of the
      first two bytes that differ, taken as unsigned. */
  method Strncmp(p: seq<Byte>, q: seq<Byte>, n: nat) returns (r: int)
    requires Readable(p, n) && Readable(q, n)
    ensures r == 0 <==> Key(p, n) == Key(q, n)
    ensures r != 0 ==> exists i: nat :: i < n && FirstDifference(p, q, i) && r == p[i] as int - q[i] as int
  {
    hide Key;
    Bounds(p, n);
    Bounds(q, n);
    var i := 0;
    while i < n && p[i] != 0 && p[i] == q[i]
      invariant i <= |p| && i <= |q| && p[..i] == q[..i]
      invariant i <= n && i <= |Key(p, n)| && i <= |Key(q, n)| && Key(p, n)[..i] == Key(q, n)[..i]
    {
      Longer(p, n, i);
      Longer(q, n, i);
      assert Key(p, n)[..i + 1] == Key(p, n)[..i] + [p[i]];
      assert Key(q, n)[..i + 1] == Key(q, n)[..i] + [q[i]];
      i := i + 1;
    }
    if i == n {
      assert Key(p, n)[..n] == Key(p, n) && Key(q, n)[..n] == Key(q, n);
      return 0;
    }
    Differ(p, q, n, i);
    assert p[i] != q[i] ==> FirstDifference(p, q, i);
    var a: int, b: int := p[i], q[i];
    return a - b;
  }

  lemma Bounds(b: seq<Byte>, n: nat)
    ensures |Key(b, n)| <= n && |Key(b, n)| <= |b|
  {
  }

  /** A position of the string's end that holds a byte other than NUL is not its end. */
  lemma Longer(b: seq<Byte>, n: nat, i: nat)
    requires i < n && i < |b| && i <= |Key(b, n)| && b[i] != 0
    ensures i < |Key(b, n)| && Key(b, n)[i] == b[i]
  {
  }

  lemma Differ(p: seq<Byte>, q: seq<Byte>, n: nat, i: nat)
    requires i < n && i <= |Key(p, n)| && i <= |Key(q, n)| && Key(p, n)[..i] == Key(q, n)[..i] && i < |p| && i < |q|
    requires p[i] == 0 || p[i] != q[i]
    ensures p[i] == q[i] <==> Key(p, n) == Key(q, n)
  {
    var k, l := Key(p, n), Key(q, n);
    if p[i] == q[i] {
      assert k == k[..i] && l == l[..i];
    } else if p[i] != 0 {
      Longer(p, n, i);
      assert k[i] == p[i];
    } else {
      Longer(q, n, i);
      assert l[i] == q[i];
    }
  }

  /** The first n bytes that strncpy leaves: the string, then NULs. */
  function Padded(t: seq<Byte>, n: nat): (s: seq<Byte>)
    ensures |s| == n
  {
    Key(t, n) + seq(n - |Key(t, n)|, _ => 0)
  }

  method Strncpy(t: seq<Byte>, n: nat) returns (s: seq<Byte>)
    requires Readable(t, n)
    ensures s == Padded(t, n)
  {
    s := [];
    while |s| < n && t[|s|] != 0
      invariant |s| <= |Key(t, n)| && s == Key(t, n)[..|s|]
    {
      Longer(t, n, |s|);
      s := s + [t[|s|]];
    }
    assert |s| == |Key(t, n)|;
    while |s| < n
      invariant |Key(t, n)| <= |s| <= n && s == Key(t, n) + seq(|s| - |Key(t, n)|, _ => 0)
    {
      s := s + [0];
    }
  }

  /** Copying a name keeps it. */
  lemma PaddedKey(t: seq<Byte>, n: nat)
    ensures Key(Padded(t, n), n) == Key(t, n)
  {
    var k, s := Key(t, n), Padded(t, n);
    assert s[..|k|] == k;
    KeyIs(s, n, |k|);
  }

  /** The first position from i on that is not a slash. */
  function PastSlashes(path: seq<Byte>, i: nat): (j: nat)
    requires i <= |path|
    ensures i <= j <= |path| && (j < |path| ==> path[j] != SLASH) && forall k :: i <= k < j ==> path[k] == SLASH
    decreases |path| - i
  {
    if i < |path| && path[i] == SLASH then PastSlashes(path, i + 1) else i
  }

  /** The end of the path element that starts at i. */
  function ElemEnd(path: seq<Byte>, i: nat): (j: nat)
    requires i <= |path|
    ensures i <= j <= |path| && (j < |path| ==> path[j] == SLASH) && forall k :: i <= k < j ==> path[k] != SLASH
    decreases |path| - i
  {
    if i < |path| && path[i] != SLASH then ElemEnd(path, i + 1) else i
  }

  /** The elements of a path, each cut to DIRSIZ bytes: what a walk along the path looks up, one after the other. */
  function Elements(path: seq<Byte>): seq<seq<Byte>>
    decreases |path|
  {
    var i := PastSlashes(path, 0);
    if i == |path| then []
    else
      var e := ElemEnd(path, i);
      assert e > i;
      [Key(path[i..e], DIRSIZ)] + Elements(path[e..])
  }

  /** skipelem: copy the next element of the path into the buffer `name`, and return the rest of the path.
      The element is cut to DIRSIZ bytes; a shorter one gets a NUL, and what was behind it in the buffer stays. */
  method Skipelem(path: seq<Byte>, buffer: seq<Byte>) returns (ok: bool, name: seq<Byte>, rest: seq<Byte>)
    requires 0 !in path && |buffer| == DIRSIZ
    ensures |name| == DIRSIZ
    ensures ok <==> Elements(path) != []
    ensures ok ==>
              && Elements(path) == [Key(name, DIRSIZ)] + Elements(rest) && 0 !in rest && |rest| < |path|
              && (rest == [] || rest[0] != SLASH)
    ensures ok ==> (rest == [] <==> |Elements(path)| == 1)
  {
    var p := 0;
    while p < |path| && path[p] == SLASH
      invariant p <= |path| && PastSlashes(path, p) == PastSlashes(path, 0)
    {
      p := p + 1;
    }
    if p == |path| {
      return false, buffer, [];
    }
    var s := p;
    while p < |path| && path[p] != SLASH
      invariant s <= p <= |path| && ElemEnd(path, p) == ElemEnd(path, s)
    {
      p := p + 1;
    }
    var e, elem := p, path[s..p];
    if |elem| >= DIRSIZ {
      name := elem[..DIRSIZ];
    } else {
      name := elem + [0] + buffer[|elem| + 1..];
    }
    CutName(elem, buffer, name);
    while p < |path| && path[p] == SLASH
      invariant e <= p <= |path| && PastSlashes(path, p) == PastSlashes(path, e)
    {
      p := p + 1;
    }
    rest := path[p..];
    SameElements(path, e, p);
    RestElements(rest);
    return true, name, rest;
  }

  lemma CutName(elem: seq<Byte>, buffer: seq<Byte>, name: seq<Byte>)
    requires 0 !in elem && |buffer| == DIRSIZ
    requires name == if |elem| >= DIRSIZ then elem[..DIRSIZ] else elem + [0] + buffer[|elem| + 1..]
    ensures |name| == DIRSIZ && Key(name, DIRSIZ) == Key(elem, DIRSIZ)
  {
    var m := if |elem| >= DIRSIZ then DIRSIZ else |elem|;
    assert name[..m] == elem[..m];
    KeyIs(elem, DIRSIZ, m);
    KeyIs(name, DIRSIZ, m);
  }

  /** Slashes in front of a path do not matter. */
  lemma SameElements(path: seq<Byte>, e: nat, p: nat)
    requires e <= p <= |path| && p == PastSlashes(path, e)
    ensures Elements(path[p..]) == Elements(path[e..])
  {
    var a, b := path[e..], path[p..];
    var d := p - e;
    assert b == a[d..];
    assert forall k :: 0 <= k < d ==> a[k] == path[e + k];
    FrontSlashes(a, d);
  }

  lemma ElementsAt(a: seq<Byte>, i: nat)
    requires i == PastSlashes(a, 0)
    ensures i <= |a| && (i == |a| ==> Elements(a) == [])
    ensures i < |a| ==>
              var e := ElemEnd(a, i);
              i < e <= |a| && Elements(a) == [Key(a[i..e], DIRSIZ)] + Elements(a[e..])
  {
  }

  lemma SliceTwice(a: seq<Byte>, d: nat, f: nat)
    requires d <= f <= |a|
    ensures a[d..f] == a[d..][0..f - d] && a[f..] == a[d..][f - d..]
  {
  }

  lemma FrontSlashes(a: seq<Byte>, d: nat)
    requires d <= |a| && (forall k :: 0 <= k < d ==> a[k] == SLASH) && (d < |a| ==> a[d] != SLASH)
    ensures Elements(a[d..]) == Elements(a)
  {
    hide PastSlashes, ElemEnd, Key, Elements;
    PastFront(a, d);
    ElementsAt(a, d);
    ElementsAt(a[d..], 0);
    if d < |a| {
      var f := ElemEnd(a, d);
      EndShift(a, d, f);
      SliceTwice(a, d, f);
    }
  }

  lemma {:induction false} PastFront(a: seq<Byte>, d: nat)
    requires d <= |a| && (forall k :: 0 <= k < d ==> a[k] == SLASH) && (d < |a| ==> a[d] != SLASH)
    ensures PastSlashes(a, 0) == d && PastSlashes(a[d..], 0) == 0
  {
  }

  lemma EndShift(a: seq<Byte>, d: nat, f: nat)
    requires d <= |a| && f == ElemEnd(a, d)
    ensures d <= f <= |a| && ElemEnd(a[d..], 0) == f - d && (d < |a| && a[d] != SLASH ==> d < f)
  {
    var b := a[d..];
    assert forall k :: 0 <= k < |b| ==> b[k] == a[d + k];
  }

  lemma RestElements(rest: seq<Byte>)
    requires rest == [] || rest[0] != SLASH
    ensures rest == [] <==> Elements(rest) == []
  {
  }
}

/** A directory: its file read as packed 16-byte records, and what that means as a finite map from names. */
module Directory {
  import opened Optional
  import opened Blocks
  import opened BlockMap
  import opened FileContent
  import opened FileSystem
  import opened BoundedNames

  const DENT := 16

  datatype Slot = Free | Used(name: seq<Byte>, inum: nat)

  /** The record at byte offset 16 * k: two bytes of inode number, fourteen of name. */
  function SlotAt(c: seq<Byte>, k: nat): Slot
    requires DENT * k + DENT <= |c|
  {
    Decode(c[DENT * k..DENT * k + DENT])
  }

  function Short(low: int, high: int): int {
    low + 256 * high
  }

  function Decode(de: seq<Byte>): Slot
    requires |de| == DENT
  {
    var inum := Short(de[0], de[1]);
    if inum == 0 then Free else Used(Key(de[2..], DIRSIZ), inum)
  }

  /** The record that dirlink writes. */
  function Encode(name: seq<Byte>, inum: nat): (de: seq<Byte>)
    requires inum < 0x1_0000
    ensures |de| == DENT
  {
    [inum % 256, inum / 256] + Padded(name, DIRSIZ)
  }

  lemma EncodeDecode(name: seq<Byte>, inum: nat)
    requires 0 < inum < 0x1_0000
    ensures Decode(Encode(name, inum)) == Used(Key(name, DIRSIZ), inum)
  {
    assert Encode(name, inum)[2..] == Padded(name, DIRSIZ);
    PaddedKey(name, DIRSIZ);
  }

  /** All records of a directory. */
  function Slots(c: seq<Byte>): (s: seq<Slot>)
    requires |c| % DENT == 0
    ensures |s| == |c| / DENT && forall k :: 0 <= k < |s| ==> s[k] == SlotAt(c, k)
  {
    seq(|c| / DENT, k requires 0 <= k < |c| / DENT => SlotAt(c, k))
  }

  // ---- The map ----

  /** Names are unique. */
  ghost predicate Unique(s: seq<Slot>) {
    forall j, k :: 0 <= j < k < |s| && s[j].Used? && s[k].Used? ==> s[j].name != s[k].name
  }

  predicate HasName(s: seq<Slot>, k: nat, name: seq<Byte>) {
    k < |s| && s[k].Used? && s[k].name == name
  }

  /** The first record with the name, or the number of records if there is none. */
  function Find(s: seq<Slot>, name: seq<Byte>): (k: nat)
    ensures k <= |s| && (k < |s| ==> HasName(s, k, name)) && forall j: nat :: j < k ==> !HasName(s, j, name)
    decreases |s|
  {
    if s == [] then 0
    else
      var k := Find(s[..|s| - 1], name);
      assert forall j: nat :: j < |s| - 1 ==> (HasName(s, j, name) <==> HasName(s[..|s| - 1], j, name));
      if k < |s| - 1 || HasName(s, |s| - 1, name) then k else |s|
  }

  /** The directory as a finite map. */
  ghost function AsMap(s: seq<Slot>): map<seq<Byte>, nat> {
    map name | name in NameSet(s) && Find(s, name) < |s| :: s[Find(s, name)].inum
  }

  ghost function NameSet(s: seq<Slot>): set<seq<Byte>> {
    set k | 0 <= k < |s| && s[k].Used? :: s[k].name
  }

  /** The map answers for a name what its record says, and knows no other names. */
  lemma MapAnswers(s: seq<Slot>, name: seq<Byte>)
    ensures name in AsMap(s) <==> Find(s, name) < |s|
    ensures name in AsMap(s) ==> AsMap(s)[name] == s[Find(s, name)].inum
  {
    var k := Find(s, name);
    if k < |s| { assert s[k].name in NameSet(s); }
  }

  lemma FindIs(s: seq<Slot>, name: seq<Byte>, k: nat)
    requires Unique(s) && HasName(s, k, name)
    ensures Find(s, name) == k
  {
    var j := Find(s, name);
    assert j <= k;
  }

  /** The slot that a new entry takes: the first free one, or one more at the end. */
  function FreeSlot(s: seq<Slot>): (k: nat)
    ensures k <= |s| && (k < |s| ==> s[k].Free?) && forall j :: 0 <= j < k ==> s[j].Used?
  {
    if s == [] || s[0].Free? then 0 else 1 + FreeSlot(s[1..])
  }

  function Linked(s: seq<Slot>, name: seq<Byte>, inum: nat): seq<Slot> {
    var k := FreeSlot(s);
    if k < |s| then s[k := Used(name, inum)] else s + [Used(name, inum)]
  }

  /** Changing one record changes the answer for its old and new name only. */
  lemma FindOther(s: seq<Slot>, t: seq<Slot>, k: nat, name: seq<Byte>)
    requires Unique(s) && Unique(t) && k < |t| && (|t| == |s| || (|t| == |s| + 1 && k == |s|))
    requires forall j :: 0 <= j < |s| && j != k ==> t[j] == s[j]
    requires !HasName(s, k, name) && !HasName(t, k, name)
    ensures Find(t, name) < |t| <==> Find(s, name) < |s|
    ensures Find(s, name) < |s| ==> Find(t, name) == Find(s, name) && t[Find(s, name)] == s[Find(s, name)]
  {
    hide Find;
    var i, j := Find(s, name), Find(t, name);
    FindSpec(s, name);
    FindSpec(t, name);
    if i < |s| {
      assert HasName(t, i, name);
      FindIs(t, name, i);
    }
    assert HasName(t, j, name) ==> HasName(s, j, name);
  }

  lemma FindSpec(s: seq<Slot>, name: seq<Byte>)
    ensures var k := Find(s, name);
              k <= |s| && (k < |s| ==> HasName(s, k, name)) && forall j: nat :: j < k ==> !HasName(s, j, name)
  {
  }

  /** Linking a new name adds exactly that name. */
  lemma LinkedMap(s: seq<Slot>, name: seq<Byte>, inum: nat)
    requires Unique(s) && name !in AsMap(s)
    ensures Unique(Linked(s, name, inum)) && AsMap(Linked(s, name, inum)) == AsMap(s)[name := inum]
  {
    hide Find, AsMap;
    var k, t := FreeSlot(s), Linked(s, name, inum);
    MapAnswers(s, name);
    FindSpec(s, name);
    forall j | 0 <= j < |s| && s[j].Used? ensures s[j].name != name {
      assert !HasName(s, j, name);
    }
    assert Unique(t);
    FindIs(t, name, k);
    forall x
      ensures (x in AsMap(t) <==> x in AsMap(s)[name := inum])
      ensures (x in AsMap(t) ==> AsMap(t)[x] == AsMap(s)[name := inum][x]) {
      MapAnswers(s, x);
      MapAnswers(t, x);
      if x != name { FindOther(s, t, k, x); }
    }
  }

  /** Clearing the record of a name removes exactly that name. */
  lemma ClearedMap(s: seq<Slot>, k: nat)
    requires Unique(s) && k < |s| && s[k].Used?
    ensures Unique(s[k := Free]) && AsMap(s[k := Free]) == AsMap(s) - {s[k].name}
  {
    hide Find, AsMap;
    var name, t := s[k].name, s[k := Free];
    FindIs(s, name, k);
    FindSpec(t, name);
    forall x
      ensures x in AsMap(t) <==> x in AsMap(s) - {name}
      ensures x in AsMap(t) ==> AsMap(t)[x] == (AsMap(s) - {name})[x] {
      MapAnswers(s, x);
      MapAnswers(t, x);
      if x != name { FindOther(s, t, k, x); }
    }
  }

  // ---- dirlookup and dirlink over the file ----

  /** File dp is a directory made of whole records. */
  ghost predicate IsDir(fs: Fs, dp: nat)
    reads fs
  {
    fs.Sound() && dp < |fs.inodes| && fs.inodes[dp].typ == T_DIR && fs.inodes[dp].size % DENT == 0
  }

  ghost function SlotsOf(fs: Fs, dp: nat): (s: seq<Slot>)
    requires IsDir(fs, dp)
    reads fs
  {
    Slots(Content(fs.inodes[dp], fs.blocks))
  }

  lemma SizeFits(fs: Fs, dp: nat)
    requires IsDir(fs, dp)
    ensures fs.inodes[dp].size <= MAXFILE * BSIZE && |SlotsOf(fs, dp)| == fs.inodes[dp].size / DENT
    ensures |Content(fs.inodes[dp], fs.blocks)| == fs.inodes[dp].size
  {
    assert MappedTo(fs.inodes[dp], fs.blocks, fs.inodes[dp].size);
  }

  /** Read the record at off. Nothing changes. */
  method ReadSlot(fs: Fs, dp: nat, off: nat) returns (de: seq<Byte>)
    requires IsDir(fs, dp) && off % DENT == 0 && off < fs.inodes[dp].size
    modifies fs`bits, fs`blocks, fs`inodes, fs`owner, fs`log
    ensures fs.bits == old(fs.bits) && fs.blocks == old(fs.blocks) && fs.inodes == old(fs.inodes)
    ensures fs.owner == old(fs.owner) && fs.log == old(fs.log)
    ensures |de| == DENT && off / DENT < |SlotsOf(fs, dp)| && Decode(de) == SlotsOf(fs, dp)[off / DENT]
  {
    hide NoHoles, FsOk, Covered, Decode, Content;
    SizeFits(fs, dp);
    var r := fs.Readi(dp, off, DENT);
    de := r.value;                                             // else "dirlink read"
    SlotBytes(Content(fs.inodes[dp], fs.blocks), off);
  }

  lemma SlotBytes(c: seq<Byte>, off: nat)
    requires |c| % DENT == 0 && off % DENT == 0 && off < |c|
    ensures off + DENT <= |c| && off / DENT < |Slots(c)| && Decode(c[off..off + DENT]) == Slots(c)[off / DENT]
  {
    assert DENT * (off / DENT) == off;
  }

  /** dirlookup: the inode number and the offset of the record with the name. */
  method Dirlookup(fs: Fs, dp: nat, name: seq<Byte>) returns (r: Option<(nat, nat)>)
    requires IsDir(fs, dp) && Readable(name, DIRSIZ)           // "dirlookup not DIR"
    modifies fs`bits, fs`blocks, fs`inodes, fs`owner, fs`log
    ensures fs.bits == old(fs.bits) && fs.blocks == old(fs.blocks) && fs.inodes == old(fs.inodes)
    ensures fs.owner == old(fs.owner) && fs.log == old(fs.log)
    ensures var s, k := SlotsOf(fs, dp), Find(SlotsOf(fs, dp), Key(name, DIRSIZ));
            if k < |s| then r.Some? && r.value.0 == s[k].inum && r.value.1 == DENT * k else r.None?
  {
    hide NoHoles, FsOk, Covered, Content, Key, Slots, Decode, Find;
    SizeFits(fs, dp);
    ghost var s, k := SlotsOf(fs, dp), 0;
    var off := 0;
    while off < fs.inodes[dp].size
      invariant fs.bits == old(fs.bits) && fs.blocks == old(fs.blocks) && fs.inodes == old(fs.inodes)
      invariant fs.owner == old(fs.owner) && fs.log == old(fs.log)
      invariant off == DENT * k && 0 <= k <= |s| && forall j: nat :: j < k ==> !HasName(s, j, Key(name, DIRSIZ))
    {
      WholeRecords(off, k);
      var de := ReadSlot(fs, dp, off);
      DecodeFields(de);
      var inum := Short(de[0], de[1]);
      if inum != 0 {
        var cmp := Strncmp(name, de[2..], DIRSIZ);
        if cmp == 0 {
          FindFirst(s, Key(name, DIRSIZ), k);
          return Some((inum, off));
        }
      }
      off := off + DENT;
      k := k + 1;
    }
    FindNone(s, Key(name, DIRSIZ));
    return None;
  }

  lemma WholeRecords(off: int, k: int)
    requires off == DENT * k && k >= 0
    ensures off % DENT == 0 && off / DENT == k
  {
  }

  lemma DecodeFields(de: seq<Byte>)
    requires |de| == DENT
    ensures Readable(de[2..], DIRSIZ)
    ensures Decode(de) == if Short(de[0], de[1]) == 0 then Free else Used(Key(de[2..], DIRSIZ), Short(de[0], de[1]))
    ensures 0 <= Short(de[0], de[1])
  {
  }

  lemma FindFirst(s: seq<Slot>, name: seq<Byte>, k: nat)
    requires HasName(s, k, name) && forall j: nat :: j < k ==> !HasName(s, j, name)
    ensures Find(s, name) == k
  {
  }

  lemma FindNone(s: seq<Slot>, name: seq<Byte>)
    requires forall j: nat :: j < |s| ==> !HasName(s, j, name)
    ensures Find(s, name) == |s|
  {
  }

  /** Replacing or appending one record. */
  function WithSlot(s: seq<Slot>, k: nat, x: Slot): seq<Slot>
    requires k <= |s|
  {
    if k < |s| then s[k := x] else s + [x]
  }

  lemma SplicedSlots(c: seq<Byte>, k: nat, de: seq<Byte>)
    requires |c| % DENT == 0 && DENT * k <= |c| && |de| == DENT
    ensures |Spliced(c, DENT * k, de)| % DENT == 0
    ensures k <= |Slots(c)| && Slots(Spliced(c, DENT * k, de)) == WithSlot(Slots(c), k, Decode(de))
  {
    hide Decode;
    var d := Spliced(c, DENT * k, de);
    assert |d| == if DENT * k < |c| then |c| else |c| + DENT;
    forall j | 0 <= j < |Slots(d)| ensures Slots(d)[j] == WithSlot(Slots(c), k, Decode(de))[j] {
      if j == k {
        assert d[DENT * j..DENT * j + DENT] == de;
      } else {
        assert d[DENT * j..DENT * j + DENT] == c[DENT * j..DENT * j + DENT];
      }
    }
  }

  /** How many blocks are logged for record k of a directory: its block, and the indirect block that leads there. */
  function SlotCost(k: nat): nat {
    if DENT * k + DENT <= NDIRECT * BSIZE then 1 else 2
  }

  lemma SlotSectors(ip: Dinode, blocks: Image, k: nat)
    requires |ip.addrs| == NDIRECT + 1
    ensures |WriteSectors(ip, blocks, DENT * k, DENT)| <= SlotCost(k)
  {
    hide DataBlocks;
    var lo, hi := DENT * k / BSIZE, (DENT * k + DENT + BSIZE - 1) / BSIZE;
    assert hi == lo + 1;
    FewBlocks(ip, blocks, lo, hi);
  }

  /** Write the record at off, which is inside the directory or at its end. None: the disk is full. */
  method WriteSlot(fs: Fs, dp: nat, k: nat, de: seq<Byte>) returns (ok: bool)
    // "dirlink"
    requires IsDir(fs, dp) && |de| == DENT && DENT * k <= fs.inodes[dp].size && DENT * k + DENT <= MAXFILE * BSIZE
    requires fs.open                                          // "write outside of trans"
    modifies fs`bits, fs`blocks, fs`inodes, fs`dinodes, fs`owner, fs`log
    ensures !ok ==> Full(fs.bits, |fs.blocks|) && k == |old(SlotsOf(fs, dp))|
    ensures fs.Logged() && |fs.blocks| == |old(fs.blocks)|
    ensures LogsAtMost(old(fs.log), fs.log, fs.Bitmaps() + {fs.IBlock(dp)}, SlotCost(k))
    ensures ok ==> IsDir(fs, dp) && Replaced(old(fs.inodes), old(fs.blocks), fs.inodes, fs.blocks, dp, DENT * k, de)
    ensures k <= |old(SlotsOf(fs, dp))| && (ok ==> SlotsOf(fs, dp) == WithSlot(old(SlotsOf(fs, dp)), k, Decode(de)))
    ensures ok && old(fs.dinodes == fs.inodes) ==> fs.dinodes == fs.inodes
  {
    hide NoHoles, FsOk, Covered, Content, Decode, Slots, Replaced, Spliced, LoggedOnly, Full, WithSlot, WriteSectors,
         LogsAtMost, SlotCost, BitmapSectors;
    SizeFits(fs, dp);
    SplicedSlots(Content(fs.inodes[dp], fs.blocks), k, de);
    var r := fs.Writei(dp, DENT * k, de);
    SlotSectors(fs.inodes[dp], fs.blocks, k);
    LogsThese(old(fs.log), fs.log, fs.Bitmaps(), WriteSectors(fs.inodes[dp], fs.blocks, DENT * k, DENT), fs.IBlock(dp),
              SlotCost(k));
    if r.None? {
      return false;
    }
    ReplacedFacts(old(fs.inodes), old(fs.blocks), fs.inodes, fs.blocks, dp, DENT * k, de);
    ReplacedContent(old(fs.inodes), old(fs.blocks), fs.inodes, fs.blocks, dp, DENT * k, de);
    return true;
  }

  lemma ReplacedContent(inodes: seq<Dinode>, blocks: Image, inodes': seq<Dinode>, blocks': Image, i: nat, off: nat,
                        data: seq<Byte>)
    requires Replaced(inodes, blocks, inodes', blocks', i, off, data)
    ensures i < |inodes| == |inodes'| && off <= |Content(inodes[i], blocks)|
    ensures Content(inodes'[i], blocks') == Spliced(Content(inodes[i], blocks), off, data)
    ensures |Content(inodes'[i], blocks')| == inodes'[i].size
  {
  }

  /** dirlink: -1 when the name is there already; otherwise the record goes into the first free slot or at the end. */
  method Dirlink(fs: Fs, dp: nat, name: seq<Byte>, inum: nat) returns (r: Option<int>)
    requires IsDir(fs, dp) && Readable(name, DIRSIZ) && 0 < inum < 0x1_0000
    requires DENT * FreeSlot(SlotsOf(fs, dp)) + DENT <= MAXFILE * BSIZE  // "dirlink"
    requires fs.open                                          // "write outside of trans"
    modifies fs`bits, fs`blocks, fs`inodes, fs`dinodes, fs`owner, fs`log
    ensures r.None? ==> Full(fs.bits, |fs.blocks|) && FreeSlot(old(SlotsOf(fs, dp))) == |old(SlotsOf(fs, dp))|
    ensures fs.Logged() && |fs.blocks| == |old(fs.blocks)|
    ensures LogsAtMost(old(fs.log), fs.log, fs.Bitmaps() + {fs.IBlock(dp)}, SlotCost(FreeSlot(old(SlotsOf(fs, dp)))))
    ensures r == Some(-1) <==> Find(old(SlotsOf(fs, dp)), Key(name, DIRSIZ)) < |old(SlotsOf(fs, dp))|
    ensures r == Some(-1) ==>
              && fs.inodes == old(fs.inodes) && fs.blocks == old(fs.blocks) && fs.bits == old(fs.bits)
              && fs.dinodes == old(fs.dinodes) && fs.owner == old(fs.owner) && fs.log == old(fs.log)
    ensures r.Some? && r != Some(-1) ==>
              r == Some(0) && IsDir(fs, dp) && SlotsOf(fs, dp) == Linked(old(SlotsOf(fs, dp)), Key(name, DIRSIZ), inum)
    ensures r == Some(0) ==>
              && OthersSame(old(fs.inodes), old(fs.blocks), fs.inodes, fs.blocks, dp)
              && SameFields(old(fs.inodes)[dp], fs.inodes[dp])
    ensures r == Some(0) && old(fs.dinodes == fs.inodes) ==> fs.dinodes == fs.inodes
  {
    hide NoHoles, FsOk, Covered, Content, Decode, Slots, Replaced, Full, Key, Find, Encode, FreeSlot, LogsAtMost,
         SlotCost, BitmapSectors;
    SizeFits(fs, dp);
    LogsNothing(fs.log, fs.Bitmaps() + {fs.IBlock(dp)}, SlotCost(FreeSlot(SlotsOf(fs, dp))));
    ghost var s := SlotsOf(fs, dp);
    var found := Dirlookup(fs, dp, name);
    if found.Some? {
      return Some(-1);
    }
    var k := FirstFreeSlot(fs, dp);
    var copy := Strncpy(name, DIRSIZ);
    var de := [inum % 256, inum / 256] + copy;
    EncodeIs(name, inum, de);
    EncodeDecode(name, inum);
    FreeSlotBound(s);
    var ok := WriteSlot(fs, dp, k, de);
    if !ok {
      return None;
    }
    ReplacedOthers(old(fs.inodes), old(fs.blocks), fs.inodes, fs.blocks, dp, DENT * k, de);
    return Some(0);
  }

  lemma EncodeIs(name: seq<Byte>, inum: nat, de: seq<Byte>)
    requires inum < 0x1_0000 && de == [inum % 256, inum / 256] + Padded(name, DIRSIZ)
    ensures de == Encode(name, inum) && |de| == DENT
  {
  }

  lemma FreeSlotBound(s: seq<Slot>)
    ensures FreeSlot(s) <= |s|
  {
  }

  lemma ReplacedOthers(inodes: seq<Dinode>, blocks: Image, inodes': seq<Dinode>, blocks': Image, i: nat, off: nat,
                       data: seq<Byte>)
    requires Replaced(inodes, blocks, inodes', blocks', i, off, data)
    ensures OthersSame(inodes, blocks, inodes', blocks', i) && SameFields(inodes[i], inodes'[i])
  {
  }

  /** Everything but the size and the block addresses. */
  predicate SameFields(a: Dinode, b: Dinode) {
    a.typ == b.typ && a.major == b.major && a.minor == b.minor && a.nlink == b.nlink
  }

  /** The loop of dirlink that looks for an empty record. */
  method FirstFreeSlot(fs: Fs, dp: nat) returns (k: nat)
    requires IsDir(fs, dp)
    modifies fs`bits, fs`blocks, fs`inodes, fs`owner, fs`log
    ensures fs.bits == old(fs.bits) && fs.blocks == old(fs.blocks) && fs.inodes == old(fs.inodes)
    ensures fs.owner == old(fs.owner) && fs.log == old(fs.log)
    ensures k == FreeSlot(SlotsOf(fs, dp)) && DENT * k <= fs.inodes[dp].size
  {
    hide NoHoles, FsOk, Covered, Content, Slots, Decode, Key;
    SizeFits(fs, dp);
    ghost var s, i := SlotsOf(fs, dp), 0;
    var off := 0;
    while off < fs.inodes[dp].size
      invariant fs.bits == old(fs.bits) && fs.blocks == old(fs.blocks) && fs.inodes == old(fs.inodes)
      invariant fs.owner == old(fs.owner) && fs.log == old(fs.log)
      invariant off == DENT * i && 0 <= i <= |s| && forall j :: 0 <= j < i ==> s[j].Used?
    {
      WholeRecords(off, i);
      var de := ReadSlot(fs, dp, off);
      DecodeFields(de);
      if Short(de[0], de[1]) == 0 {
        break;
      }
      off := off + DENT;
      i := i + 1;
    }
    WholeRecords(off, i);
    k := off / DENT;
  }

  /** What sys_unlink does to the directory: clear the record at off. Its block exists, so this cannot fail. */
  method ClearSlot(fs: Fs, dp: nat, k: nat)
    requires IsDir(fs, dp) && k < |SlotsOf(fs, dp)| && SlotsOf(fs, dp)[k].Used?
    requires fs.open                                          // "write outside of trans"
    modifies fs`bits, fs`blocks, fs`inodes, fs`dinodes, fs`owner, fs`log
    ensures IsDir(fs, dp) && SlotsOf(fs, dp) == old(SlotsOf(fs, dp))[k := Free]
    ensures OthersSame(old(fs.inodes), old(fs.blocks), fs.inodes, fs.blocks, dp)
    ensures SameFields(old(fs.inodes)[dp], fs.inodes[dp])
    ensures old(fs.dinodes == fs.inodes) ==> fs.dinodes == fs.inodes
    ensures |fs.blocks| == |old(fs.blocks)|
    ensures LogsAtMost(old(fs.log), fs.log, fs.Bitmaps() + {fs.IBlock(dp)}, SlotCost(k))
  {
    hide NoHoles, FsOk, Covered, Content, Slots, Replaced, Full, LogsAtMost, SlotCost, BitmapSectors;
    SizeFits(fs, dp);
    var de := seq(DENT, _ => 0);
    assert Decode(de) == Free;
    var ok := WriteSlot(fs, dp, k, de);
    assert ok;
    ReplacedOthers(old(fs.inodes), old(fs.blocks), fs.inodes, fs.blocks, dp, DENT * k, de);
  }

  /** isdirempty: no record from the third on is in use. */
  method Isdirempty(fs: Fs, dp: nat) returns (r: bool)
    requires IsDir(fs, dp)
    modifies fs`bits, fs`blocks, fs`inodes, fs`owner, fs`log
    ensures fs.bits == old(fs.bits) && fs.blocks == old(fs.blocks) && fs.inodes == old(fs.inodes)
    ensures fs.owner == old(fs.owner) && fs.log == old(fs.log)
    ensures r <==> forall j :: 2 <= j < |SlotsOf(fs, dp)| ==> SlotsOf(fs, dp)[j].Free?
  {
    hide NoHoles, FsOk, Covered, Content, Slots, Decode, Key;
    SizeFits(fs, dp);
    ghost var s := SlotsOf(fs, dp);
    var off := 2 * DENT;
    ghost var k := 2;
    while off < fs.inodes[dp].size
      invariant fs.bits == old(fs.bits) && fs.blocks == old(fs.blocks) && fs.inodes == old(fs.inodes)
      invariant fs.owner == old(fs.owner) && fs.log == old(fs.log)
      invariant off == DENT * k && 2 <= k && forall j :: 2 <= j < k && j < |s| ==> s[j].Free?
    {
      WholeRecords(off, k);
      var de := ReadSlot(fs, dp, off);
      DecodeFields(de);
      if Short(de[0], de[1]) != 0 {
        return false;
      }
      off := off + DENT;
      k := k + 1;
    }
    return true;
  }
}
