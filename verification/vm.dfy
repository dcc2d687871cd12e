/** Physical pages and two-level page tables: which page is used for what. */
module PageTables {
  import opened Optional

  const PGSIZE := 4096
  const NPTENTRIES := 1024
  const KERNBASE := 0x8000_0000
  /** Page directory entries below this one belong to the user half. */
  const USER_PDES := 512

  type Page = p: seq<int> | |p| == PGSIZE witness seq(PGSIZE, _ => 0)

  function ZeroPage(): Page {
    seq(PGSIZE, _ => 0)
  }

  /** Memory: the free list; each page directory (index to table page); each page table (index to data page); and the
      contents of the data pages. An index that is not present is not in the map. */
  datatype M = M(free: seq<nat>, dirs: map<nat, map<nat, nat>>, tabs: map<nat, map<nat, nat>>, data: map<nat, Page>)

  /** What a physical page is used for: on the free list, held by running kernel code, a page directory, the table for
      index i of directory d, or the data page at virtual page v of directory d. */
  datatype Role = Free | Held | Dir | Tab(d: nat, i: nat) | Data(d: nat, v: nat)

  type Roles = map<nat, Role>

  ghost predicate NoDup(s: seq<nat>) {
    forall i, j :: 0 <= i < j < |s| ==> s[i] != s[j]
  }

  predicate FreeOk(m: M, role: Roles, p: nat) {
    p in m.free <==> p in role && role[p] == Free
  }

  predicate DirOk(m: M, role: Roles, d: nat) {
    d in m.dirs <==> d in role && role[d] == Dir
  }

  /** A table page is exactly where its role says. */
  predicate TabOk(m: M, role: Roles, t: nat) {
    && (t in m.tabs <==> t in role && role[t].Tab?)
    && (t in m.tabs ==> var r := role[t];
          r.i < NPTENTRIES && r.d in m.dirs && r.i in m.dirs[r.d] && m.dirs[r.d][r.i] == t)
    && (t in m.tabs && role[t].i >= USER_PDES ==> m.tabs[t] == map[])
  }

  predicate PdeOk(m: M, role: Roles, d: nat, i: nat) {
    d in m.dirs && i in m.dirs[d] ==> var t := m.dirs[d][i]; t in m.tabs && t in role && role[t] == Tab(d, i)
  }

  /** A data page is exactly where its role says. */
  predicate DataOk(m: M, role: Roles, p: nat) {
    && (p in m.data <==> p in role && role[p].Data?)
    && (p in m.data ==> Lookup(m, role[p].d, role[p].v) == Some(p))
  }

  predicate PteOk(m: M, role: Roles, t: nat, j: nat) {
    t in m.tabs && j in m.tabs[t] && t in role && role[t].Tab? ==>
      var p := m.tabs[t][j]; j < NPTENTRIES && p in role && role[p] == Data(role[t].d, NPTENTRIES * role[t].i + j)
  }

  /** The data page that directory d maps at virtual page v. */
  function Lookup(m: M, d: nat, v: nat): Option<nat> {
    if d in m.dirs && v / NPTENTRIES in m.dirs[d] then
      var t := m.dirs[d][v / NPTENTRIES];
      if t in m.tabs && v % NPTENTRIES in m.tabs[t] then Some(m.tabs[t][v % NPTENTRIES]) else None
    else None
  }

  /** Every page has one use, and every entry leads to a page used for it. */
  ghost predicate Inv(m: M, role: Roles) {
    && NoDup(m.free)
    && (forall p: nat :: FreeOk(m, role, p) && DirOk(m, role, p) && TabOk(m, role, p) && DataOk(m, role, p))
    && (forall d: nat, i: nat :: PdeOk(m, role, d, i))
    && (forall t: nat, j: nat :: PteOk(m, role, t, j))
  }

  lemma InvAt(m: M, role: Roles, p: nat)
    requires Inv(m, role)
    ensures FreeOk(m, role, p) && DirOk(m, role, p) && TabOk(m, role, p) && DataOk(m, role, p)
  {
  }

  lemma TookPage(m: M, role: Roles)
    requires Inv(m, role) && m.free != []
    ensures var p := m.free[0]; p in role && role[p] == Free && Inv(m.(free := m.free[1..]), role[p := Held])
  {
    var p, m', role' := m.free[0], m.(free := m.free[1..]), role[m.free[0] := Held];
    InvAt(m, role, p);
    forall q: nat ensures FreeOk(m', role', q) && DirOk(m', role', q) && TabOk(m', role', q) && DataOk(m', role', q) {
      InvAt(m, role, q);
      InFree(m.free, q);
    }
    forall d: nat, i: nat ensures PdeOk(m', role', d, i) { assert PdeOk(m, role, d, i); }
    forall t: nat, j: nat ensures PteOk(m', role', t, j) { assert PteOk(m, role, t, j); }
  }

  lemma InFree(s: seq<nat>, q: nat)
    requires NoDup(s) && s != []
    ensures q in s[1..] <==> q in s && q != s[0]
  {
    if q in s && q != s[0] {
      var i :| 0 <= i < |s| && s[i] == q;
      assert s[1..][i - 1] == q;
    }
  }

  lemma GavePage(m: M, role: Roles, p: nat)
    requires Inv(m, role) && p in role && role[p] == Held
    ensures Inv(m.(free := [p] + m.free), role[p := Free])
  {
    var m', role' := m.(free := [p] + m.free), role[p := Free];
    InvAt(m, role, p);
    forall q: nat ensures FreeOk(m', role', q) && DirOk(m', role', q) && TabOk(m', role', q) && DataOk(m', role', q) {
      InvAt(m, role, q);
    }
    forall d: nat, i: nat ensures PdeOk(m', role', d, i) { assert PdeOk(m, role, d, i); }
    forall t: nat, j: nat ensures PteOk(m', role', t, j) { assert PteOk(m, role, t, j); }
  }

  function WithDir(m: M, d: nat): M {
    m.(dirs := m.dirs[d := map[]])
  }

  lemma AddedDir(m: M, role: Roles, p: nat)
    requires Inv(m, role) && p in role && role[p] == Held
    ensures Inv(WithDir(m, p), role[p := Dir])
  {
    var m', role' := WithDir(m, p), role[p := Dir];
    InvAt(m, role, p);
    forall q: nat ensures FreeOk(m', role', q) && DirOk(m', role', q) && TabOk(m', role', q) && DataOk(m', role', q) {
      InvAt(m, role, q);
    }
    forall d: nat, i: nat ensures PdeOk(m', role', d, i) { assert PdeOk(m, role, d, i); }
    forall t: nat, j: nat ensures PteOk(m', role', t, j) { assert PteOk(m, role, t, j); }
  }

  function WithTable(m: M, d: nat, i: nat, t: nat): M
    requires d in m.dirs
  {
    var row: map<nat, nat> := m.dirs[d][i := t];
    m.(dirs := m.dirs[d := row], tabs := m.tabs[t := map[]])
  }

  lemma AddedTable(m: M, role: Roles, d: nat, i: nat, t: nat)
    requires Inv(m, role) && t in role && role[t] == Held && d in m.dirs && i !in m.dirs[d] && i < NPTENTRIES
    ensures Inv(WithTable(m, d, i, t), role[t := Tab(d, i)])
    ensures forall e: nat, v: nat :: Lookup(WithTable(m, d, i, t), e, v) == Lookup(m, e, v)
  {
    var m', role' := WithTable(m, d, i, t), role[t := Tab(d, i)];
    InvAt(m, role, t);
    InvAt(m, role, d);
    forall e: nat, v: nat ensures Lookup(m', e, v) == Lookup(m, e, v) {
      assert PdeOk(m, role, e, v / NPTENTRIES);
    }
    forall q: nat ensures FreeOk(m', role', q) && DirOk(m', role', q) && TabOk(m', role', q) && DataOk(m', role', q) {
      InvAt(m, role, q);
    }
    forall e: nat, k: nat ensures PdeOk(m', role', e, k) { assert PdeOk(m, role, e, k); }
    forall u: nat, j: nat ensures PteOk(m', role', u, j) { assert PteOk(m, role, u, j); }
  }

  function Vpn(i: nat, j: nat): nat {
    NPTENTRIES * i + j
  }

  lemma VpnParts(i: nat, j: nat, v: nat)
    requires j < NPTENTRIES
    ensures v == Vpn(i, j) <==> v / NPTENTRIES == i && v % NPTENTRIES == j
  {
  }

  function WithPage(m: M, t: nat, j: nat, p: nat, page: Page): M
    requires t in m.tabs
  {
    var row: map<nat, nat> := m.tabs[t][j := p];
    m.(tabs := m.tabs[t := row], data := m.data[p := page])
  }

  /** Mapping a page changes the lookup of that virtual page and of no other, in no other address space. */
  lemma PageLookup(m: M, role: Roles, t: nat, j: nat, p: nat, page: Page, e: nat, v: nat)
    requires Inv(m, role) && t in m.tabs && t in role && role[t].Tab? && j < NPTENTRIES
    ensures var r := role[t];
            Lookup(WithPage(m, t, j, p, page), e, v) == if e == r.d &&
                v == Vpn(r.i, j) then Some(p) else Lookup(m, e, v)
  {
    var r := role[t];
    InvAt(m, role, t);
    VpnParts(r.i, j, v);
    assert PdeOk(m, role, e, v / NPTENTRIES);
  }

  lemma AddedPage(m: M, role: Roles, t: nat, j: nat, p: nat, page: Page)
    requires Inv(m, role) && p in role && role[p] == Held && t in m.tabs && t in role && role[t].Tab?
    requires role[t].i < USER_PDES
    requires j < NPTENTRIES && j !in m.tabs[t]
    ensures Inv(WithPage(m, t, j, p, page), role[p := Data(role[t].d, Vpn(role[t].i, j))])
  {
    var r := role[t];
    var m', role' := WithPage(m, t, j, p, page), role[p := Data(r.d, Vpn(r.i, j))];
    InvAt(m, role, p);
    InvAt(m, role, t);
    VpnParts(r.i, j, Vpn(r.i, j));
    forall q: nat ensures FreeOk(m', role', q) && DirOk(m', role', q) && TabOk(m', role', q) {
      InvAt(m, role, q);
    }
    forall q: nat ensures DataOk(m', role', q) {
      InvAt(m, role, q);
      if q in m'.data && q in role' && role'[q].Data? { PageLookup(m, role, t, j, p, page, role'[q].d, role'[q].v); }
    }
    forall e: nat, k: nat ensures PdeOk(m', role', e, k) { assert PdeOk(m, role, e, k); }
    forall u: nat, k: nat ensures PteOk(m', role', u, k) { assert PteOk(m, role, u, k); }
  }

  function WithoutPage(m: M, t: nat, j: nat): M
    requires t in m.tabs && j in m.tabs[t]
  {
    m.(tabs := m.tabs[t := m.tabs[t] - {j}], data := m.data - {m.tabs[t][j]})
  }

  lemma NoPageLookup(m: M, role: Roles, t: nat, j: nat, e: nat, v: nat)
    requires Inv(m, role) && t in m.tabs && j in m.tabs[t] && t in role && role[t].Tab? && j < NPTENTRIES
    ensures var r := role[t];
            Lookup(WithoutPage(m, t, j), e, v) == if e == r.d && v == Vpn(r.i, j) then None else Lookup(m, e, v)
  {
    var r := role[t];
    InvAt(m, role, t);
    VpnParts(r.i, j, v);
    assert PdeOk(m, role, e, v / NPTENTRIES);
  }

  lemma RemovedPage(m: M, role: Roles, t: nat, j: nat)
    requires Inv(m, role) && t in m.tabs && j in m.tabs[t]
    ensures t in role && role[t].Tab? && j < NPTENTRIES
    ensures var p := m.tabs[t][j];
              p in role && role[p] == Data(role[t].d, Vpn(role[t].i, j)) && Inv(WithoutPage(m, t, j), role[p := Held])
  {
    InvAt(m, role, t);
    assert PteOk(m, role, t, j);
    var r, p := role[t], m.tabs[t][j];
    var m', role' := WithoutPage(m, t, j), role[p := Held];
    InvAt(m, role, p);
    forall q: nat ensures FreeOk(m', role', q) && DirOk(m', role', q) && TabOk(m', role', q) {
      InvAt(m, role, q);
    }
    forall q: nat ensures DataOk(m', role', q) {
      InvAt(m, role, q);
      if q in m'.data && q in role' && role'[q].Data? { NoPageLookup(m, role, t, j, role'[q].d, role'[q].v); }
    }
    forall e: nat, k: nat ensures PdeOk(m', role', e, k) { assert PdeOk(m, role, e, k); }
    forall u: nat, k: nat ensures PteOk(m', role', u, k) { OtherPte(m, role, t, j, u, k); }
  }

  /** Another entry leads to another page. */
  lemma OtherPte(m: M, role: Roles, t: nat, j: nat, u: nat, k: nat)
    requires Inv(m, role) && t in m.tabs && j in m.tabs[t]
    ensures PteOk(WithoutPage(m, t, j), role[m.tabs[t][j] := Held], u, k)
  {
    InvAt(m, role, t);
    InvAt(m, role, u);
    InvAt(m, role, m.tabs[t][j]);
    assert PteOk(m, role, t, j) && PteOk(m, role, u, k);
    if u in m.tabs && k in m.tabs[u] && (u, k) != (t, j) {
      VpnParts(role[t].i, j, Vpn(role[u].i, k));
      VpnParts(role[u].i, k, Vpn(role[u].i, k));
    }
  }

  function WithoutTable(m: M, d: nat, i: nat): M
    requires d in m.dirs && i in m.dirs[d]
  {
    m.(dirs := m.dirs[d := m.dirs[d] - {i}], tabs := m.tabs - {m.dirs[d][i]})
  }

  lemma RemovedTable(m: M, role: Roles, d: nat, i: nat)
    requires Inv(m, role) && d in m.dirs && i in m.dirs[d]
    requires m.dirs[d][i] in m.tabs && m.tabs[m.dirs[d][i]] == map[]
    ensures var t := m.dirs[d][i]; t in role && role[t] == Tab(d, i) && Inv(WithoutTable(m, d, i), role[t := Held])
    ensures forall e: nat, v: nat :: Lookup(WithoutTable(m, d, i), e, v) == Lookup(m, e, v)
  {
    assert PdeOk(m, role, d, i);
    var t := m.dirs[d][i];
    var m', role' := WithoutTable(m, d, i), role[t := Held];
    InvAt(m, role, t);
    InvAt(m, role, d);
    forall e: nat, v: nat ensures Lookup(m', e, v) == Lookup(m, e, v) {
      assert PdeOk(m, role, e, v / NPTENTRIES);
    }
    forall q: nat ensures FreeOk(m', role', q) && DirOk(m', role', q) && TabOk(m', role', q) && DataOk(m', role', q) {
      InvAt(m, role, q);
    }
    forall e: nat, k: nat ensures PdeOk(m', role', e, k) { assert PdeOk(m, role, e, k); }
    forall u: nat, k: nat ensures PteOk(m', role', u, k) { assert PteOk(m, role, u, k); }
  }

  lemma RemovedDir(m: M, role: Roles, d: nat)
    requires Inv(m, role) && d in m.dirs && m.dirs[d] == map[]
    ensures d in role && role[d] == Dir && Inv(m.(dirs := m.dirs - {d}), role[d := Held])
  {
    var m', role' := m.(dirs := m.dirs - {d}), role[d := Held];
    InvAt(m, role, d);
    forall q: nat ensures FreeOk(m', role', q) && DirOk(m', role', q) && TabOk(m', role', q) && DataOk(m', role', q) {
      InvAt(m, role, q);
    }
    forall e: nat, k: nat ensures PdeOk(m', role', e, k) { assert PdeOk(m, role, e, k); }
    forall u: nat, k: nat ensures PteOk(m', role', u, k) { assert PteOk(m, role, u, k); }
  }
}
