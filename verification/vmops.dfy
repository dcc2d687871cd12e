/** kalloc, kfree and the operations on user address spaces. */
module VirtualMemory {
  import opened Optional
  import opened PageTables

  const USER_PAGES := USER_PDES * NPTENTRIES

  /** Pages needed for sz bytes; PGROUNDUP(sz) / PGSIZE. */
  function Pages(sz: nat): nat {
    (sz + PGSIZE - 1) / PGSIZE
  }

  /** The contents that address space d shows at virtual page v. */
  function PageAt(m: M, d: nat, v: nat): Option<Page> {
    match Lookup(m, d, v)
    case None => None
    case Some(p) => if p in m.data then Some(m.data[p]) else None
  }

  /** Exactly the first n virtual pages of the user half are mapped. */
  ghost predicate Contiguous(m: M, d: nat, n: nat) {
    d in m.dirs && n <= USER_PAGES && forall v: nat :: v < USER_PAGES ==> (Lookup(m, d, v).Some? <==> v < n)
  }

  /** Every other address space is as it was. */
  ghost predicate OthersSame(m: M, m': M, d: nat) {
    && (forall e: nat :: e in m.dirs && e != d ==> e in m'.dirs)
    && (forall e: nat, v: nat :: e != d ==> Lookup(m', e, v) == Lookup(m, e, v) && PageAt(m', e, v) == PageAt(m, e, v))
  }

  /** The managed pages are the same, and so are those that kernel code holds. */
  ghost predicate HeldSame(role: Roles, role': Roles) {
    role'.Keys == role.Keys && forall p :: p in role ==> (role'[p] == Held <==> role[p] == Held)
  }

  /** Before freerange every managed page is in the hands of the boot code. */
  ghost function AllHeld(lo: nat, hi: nat): (role: Roles)
    requires lo <= hi
    ensures forall p: nat :: (p in role <==> lo <= p < hi) && (p in role ==> role[p] == Held)
  {
    if lo == hi then map[] else AllHeld(lo, hi - 1)[hi - 1 := Held]
  }

  // ---- The step over 4 MB in deallocuvm ----

  /** The first index from i on with a page table, or USER_PDES. */
  function FirstTable(dir: map<nat, nat>, i: nat): (r: nat)
    ensures i <= r && (r < USER_PDES ==> r in dir)
    decreases USER_PDES - i
  {
    if i >= USER_PDES || i in dir then i else FirstTable(dir, i + 1)
  }

  /** A page that deallocuvm, starting at page a, passes over: a is not 4 MB aligned and has no page table, and the
      page is in the first table after that, before the offset of a. */
  predicate Passed(m: M, d: nat, a: nat, w: nat) {
    && d in m.dirs && a % NPTENTRIES != 0 && a / NPTENTRIES !in m.dirs[d]
    && w / NPTENTRIES == FirstTable(m.dirs[d], a / NPTENTRIES) && w % NPTENTRIES < a % NPTENTRIES
  }

  /** Space d is cleared from page a up to b, but for the pages passed over; everything else in it is as it was. */
  ghost predicate Cleared(m: M, m': M, d: nat, a: nat, b: nat) {
    forall w: nat ::
      if a <= w < b && !Passed(m, d, a, w) then Lookup(m', d, w).None?
      else Lookup(m', d, w) == Lookup(m, d, w) && PageAt(m', d, w) == PageAt(m, d, w)
  }

  /** When the whole range gets cleared: its start is 4 MB aligned, or has a page table, or the first table after it
      has no page before that offset. */
  ghost predicate NothingPassed(m: M, d: nat, a: nat, b: nat) {
    || a % NPTENTRIES == 0
    || (d in m.dirs && a / NPTENTRIES in m.dirs[d])
    || (forall w: nat :: a <= w < b && Passed(m, d, a, w) ==> Lookup(m, d, w).None?)
  }

  lemma ClearedAll(m: M, m': M, d: nat, a: nat, b: nat)
    requires Cleared(m, m', d, a, b)
    ensures (forall w: nat :: a <= w < b ==> Lookup(m', d, w).None?) <==> NothingPassed(m, d, a, b)
  {
    hide Lookup, PageAt;
    if forall w: nat :: a <= w < b ==> Lookup(m', d, w).None? {
      forall w: nat | a <= w < b && Passed(m, d, a, w) ensures Lookup(m, d, w).None? {
        assert Lookup(m', d, w).None?;
      }
    }
  }

  /** Where the loop of deallocuvm can be when it starts at page a. If a is aligned or has a table: at an aligned
      page or one with a table. Otherwise: in front of the first table or at its entry, inside it, or past it. */
  predicate Place(dir: map<nat, nat>, a: nat, v: nat) {
    if a % NPTENTRIES == 0 || a / NPTENTRIES in dir then v % NPTENTRIES == 0 || v / NPTENTRIES in dir
    else
      var first := FirstTable(dir, a / NPTENTRIES);
      || (v % NPTENTRIES == a % NPTENTRIES && FirstTable(dir, v / NPTENTRIES) == first)
      || (v / NPTENTRIES == first && v % NPTENTRIES >= a % NPTENTRIES)
      || (v / NPTENTRIES > first && (v % NPTENTRIES == 0 || v / NPTENTRIES in dir))
  }

  lemma NextPlace(dir: map<nat, nat>, a: nat, v: nat)
    requires Place(dir, a, v) && v < USER_PAGES
    ensures v / NPTENTRIES in dir ==> Place(dir, a, v + 1)
    ensures v / NPTENTRIES !in dir ==> Place(dir, a, v + NPTENTRIES)
  {
    assert (v + NPTENTRIES) / NPTENTRIES == v / NPTENTRIES + 1 && (v + NPTENTRIES) % NPTENTRIES == v % NPTENTRIES;
    if (v + 1) % NPTENTRIES == 0 {
      assert (v + 1) / NPTENTRIES == v / NPTENTRIES + 1;
    } else {
      assert (v + 1) / NPTENTRIES == v / NPTENTRIES && (v + 1) % NPTENTRIES == v % NPTENTRIES + 1;
    }
  }

  /** A step over 4 MB meets no mapped page but those passed over. */
  lemma StepOver(m: M, d: nat, a: nat, v: nat, w: nat)
    requires d in m.dirs && Place(m.dirs[d], a, v) && v < USER_PAGES && v / NPTENTRIES !in m.dirs[d]
    requires v <= w < v + NPTENTRIES && !Passed(m, d, a, w)
    ensures Lookup(m, d, w).None?
  {
    var i := v / NPTENTRIES;
    if w / NPTENTRIES != i {
      assert w / NPTENTRIES == i + 1 && w % NPTENTRIES < v % NPTENTRIES;
      assert FirstTable(m.dirs[d], i) == FirstTable(m.dirs[d], i + 1);
    }
  }

  /** In a contiguous space nothing is passed over. */
  lemma ContiguousClears(m: M, role: Roles, d: nat, n: nat, a: nat, b: nat)
    requires Inv(m, role) && Contiguous(m, d, n) && b <= USER_PAGES
    ensures NothingPassed(m, d, a, b)
  {
    if a < b && a / NPTENTRIES !in m.dirs[d] {
      assert Lookup(m, d, a).None?;
    }
  }

  lemma InSize(v: nat, sz: nat)
    ensures PGSIZE * v < sz <==> v < Pages(sz)
    ensures sz <= KERNBASE ==> Pages(sz) <= USER_PAGES
  {
  }

  // ---- How many pages growing a space takes ----

  /** Whether page v, when the pages from a on are mapped one after the other, is the first to need its table: `dir` are
      the indices that have one at the start. */
  predicate NewTable(dir: set<nat>, a: nat, v: nat) {
    v / NPTENTRIES !in dir && (v == a || v % NPTENTRIES == 0)
  }

  /** The data pages and page tables that the pages from a up to v take. */
  function Need(dir: set<nat>, a: nat, v: nat): nat
    requires a <= v
  {
    if v == a then 0 else Need(dir, a, v - 1) + 1 + if NewTable(dir, a, v - 1) then 1 else 0
  }

  /** With f free pages at the start: page v gets the last one, and its table gets none. */
  ghost predicate LostAt(dir: set<nat>, a: nat, f: nat, v: nat) {
    a <= v && NewTable(dir, a, v) && f == Need(dir, a, v) + 1
  }

  ghost predicate LostIn(dir: set<nat>, a: nat, f: nat, b: nat) {
    exists v: nat :: v < b && LostAt(dir, a, f, v)
  }

  lemma {:induction false} NeedGrows(dir: set<nat>, a: nat, v: nat, w: nat)
    requires a <= v <= w
    ensures Need(dir, a, v) + (w - v) <= Need(dir, a, w)
    decreases w - v
  {
    if v < w { NeedGrows(dir, a, v, w - 1); }
  }

  /** A page is lost only where memory ends, so not before a page that still got what it needs, and not after the
      end. */
  lemma LostOnlyThere(dir: set<nat>, a: nat, f: nat, v: nat, w: nat)
    requires a <= v && a <= w
    ensures w < v && Need(dir, a, v) <= f ==> !LostAt(dir, a, f, w)
    ensures v <= w && Need(dir, a, v) >= f ==> !LostAt(dir, a, f, w)
    ensures v < w && LostAt(dir, a, f, v) ==> !LostAt(dir, a, f, w)
  {
    if w < v { NeedGrows(dir, a, w + 1, v); } else { NeedGrows(dir, a, v, w); }
  }

  /** The indices with a table once the pages from a up to v are mapped. */
  ghost predicate TablesFor(keys: set<nat>, dir: set<nat>, a: nat, v: nat) {
    forall i: nat :: i in keys <==> i in dir || (a < v && a / NPTENTRIES <= i <= (v - 1) / NPTENTRIES)
  }

  lemma TablesNext(keys: set<nat>, dir: set<nat>, a: nat, v: nat)
    requires TablesFor(keys, dir, a, v) && a <= v
    ensures v / NPTENTRIES !in keys <==> NewTable(dir, a, v)
    ensures TablesFor(keys + {v / NPTENTRIES}, dir, a, v + 1)
  {
  }

  /** Only pages of space e were taken, all from the free list. */
  ghost predicate TakenFor(role: Roles, role': Roles, e: nat) {
    role'.Keys == role.Keys &&
    forall p :: p in role ==> role'[p] == role[p] || (role[p] == Free && OfSpace(role'[p], p, e) && role'[p] != Held)
  }

  /** Every page is used as before, except that one page of the free list may now be held by nobody. */
  ghost predicate Restored(role: Roles, role': Roles, lost: Option<nat>) {
    && role'.Keys == role.Keys && (lost.Some? ==> lost.value in role && role[lost.value] == Free)
    && forall p :: p in role ==> role'[p] == if lost == Some(p) then Held else role[p]
  }

  ghost predicate AllSame(m: M, m': M) {
    forall e: nat, w: nat :: Lookup(m', e, w) == Lookup(m, e, w) && PageAt(m', e, w) == PageAt(m, e, w)
  }

  /** The indices of the kernel half. */
  function IndexSet(kpdes: seq<nat>): set<nat> {
    set i | i in kpdes
  }

  /** What kalloc and mappages do for one page of user memory. */
  datatype Outcome = NoPage | Mapped | Lost(p: nat)

  class Vm {
    var m: M
    ghost var role: Roles

    ghost predicate Valid()
      reads this
    {
      Inv(m, role)
    }

    /** freerange at boot: the pages from lo up to hi are freed one by one. */
    constructor (lo: nat, hi: nat)
      requires lo <= hi
      ensures Valid() && m.dirs == map[] && |m.free| == hi - lo
      ensures forall p: nat :: (p in role <==> lo <= p < hi) && (p in role ==> role[p] == Free)
    {
      m := M([], map[], map[], map[]);
      role := AllHeld(lo, hi);
      new;
      var p := lo;
      while p < hi
        invariant lo <= p <= hi && Valid() && m.dirs == map[] && |m.free| == p - lo
        invariant forall q: nat :: q in role <==> lo <= q < hi
        invariant forall q: nat :: q in role ==> role[q] == if q < p then Free else Held
      {
        Kfree(p);
        p := p + 1;
      }
    }

    /** Take the first page of the free list. */
    method Kalloc() returns (r: Option<nat>)
      requires Valid()
      modifies this
      ensures Valid() && (r.None? <==> old(m.free) == []) && (r.None? ==> m == old(m) && role == old(role))
      ensures r.Some? ==> r.value in old(role) && old(role)[r.value] == Free && role == old(role)[r.value := Held]
      ensures r.Some? ==> r.value == old(m.free)[0] && m == old(m).(free := old(m.free)[1..])
    {
      hide Inv;
      if m.free == [] {
        return None;
      }
      TookPage(m, role);
      var p := m.free[0];
      m := m.(free := m.free[1..]);
      role := role[p := Held];
      return Some(p);
    }

    method Kfree(p: nat)
      requires Valid() && p in role && role[p] == Held
      modifies this
      ensures Valid() && m == old(m).(free := [p] + old(m.free)) && role == old(role)[p := Free]
    {
      hide Inv;
      GavePage(m, role, p);
      m := m.(free := [p] + m.free);
      role := role[p := Free];
    }

    /** The table page for virtual page v, made if `alloc` and there is a free page. */
    method Walkpgdir(d: nat, v: nat, alloc: bool) returns (t: Option<nat>)
      requires Valid() && d in m.dirs && v < USER_PAGES
      modifies this
      ensures Valid() && m.data == old(m.data) && m.dirs.Keys == old(m.dirs.Keys) && HeldSame(old(role), role)
      ensures forall e: nat, w: nat :: Lookup(m, e, w) == Lookup(old(m), e, w)
      ensures t.Some? ==> v / NPTENTRIES in m.dirs[d] && t.value == m.dirs[d][v / NPTENTRIES] && t.value in m.tabs
      ensures t.Some? ==> t.value in role && role[t.value] == Tab(d, v / NPTENTRIES)
      ensures t.None? ==> m == old(m) && role == old(role) && v / NPTENTRIES !in m.dirs[d] && (alloc ==> m.free == [])
      ensures !alloc ==> m == old(m) && role == old(role)
      ensures forall p :: p in old(role) && old(role)[p] != Free ==> role[p] == old(role)[p]
      ensures v / NPTENTRIES in old(m.dirs)[d] ==> t.Some? && m == old(m) && role == old(role)
      ensures v / NPTENTRIES !in old(m.dirs)[d] && alloc ==> (t.None? <==> old(m.free) == [])
      ensures v / NPTENTRIES !in old(m.dirs)[d] && t.Some? ==> |m.free| == |old(m.free)| - 1
      ensures t.Some? ==> m.dirs[d].Keys == old(m.dirs)[d].Keys + {v / NPTENTRIES}
      ensures forall p :: p in old(role) && role[p] != old(role)[p] ==>
                old(role)[p] == Free && role[p] == Tab(d, v / NPTENTRIES)
    {
      hide Inv;
      PdeFacts(m, role, d, v / NPTENTRIES);
      if v / NPTENTRIES in m.dirs[d] {
        return Some(m.dirs[d][v / NPTENTRIES]);
      }
      if !alloc {
        return None;
      }
      var r := Kalloc();
      if r.None? {
        return None;
      }
      AddedTable(m, role, d, v / NPTENTRIES, r.value);
      m := WithTable(m, d, v / NPTENTRIES, r.value);
      role := role[r.value := Tab(d, v / NPTENTRIES)];
      return r;
    }

    /** mappages for one page: false exactly when a page table is needed and there is no page for it. */
    method MapPage(d: nat, v: nat, p: nat, page: Page) returns (ok: bool)
      requires Valid() && d in m.dirs && v < USER_PAGES && p in role && role[p] == Held
      requires Lookup(m, d, v).None?                                                          // "remap"
      modifies this
      ensures Valid() && m.dirs.Keys == old(m.dirs.Keys) && role.Keys == old(role).Keys
      ensures !ok <==> v / NPTENTRIES !in old(m.dirs)[d] && old(m.free) == []
      ensures !ok ==> m == old(m) && role == old(role)
      ensures ok ==> role[p] == Data(d, v) && m.dirs[d].Keys == old(m.dirs)[d].Keys + {v / NPTENTRIES}
      ensures ok ==> |m.free| == |old(m.free)| - if v / NPTENTRIES in old(m.dirs)[d] then 0 else 1
      ensures ok ==>
                forall e: nat, w: nat :: Lookup(m, e, w) == if e == d && w == v then Some(p) else Lookup(old(m), e, w)
      ensures ok ==> forall e: nat, w: nat :: PageAt(m, e, w) == if e == d &&
                w == v then Some(page) else PageAt(old(m), e, w)
      ensures ok ==> forall q :: q in old(role) && q != p && role[q] != old(role)[q] ==>
                       old(role)[q] == Free && role[q] == Tab(d, v / NPTENTRIES)
    {
      hide Inv;
      HeldFacts(m, role, p);
      forall e: nat, w: nat ensures Lookup(m, e, w) != Some(p) { LookupRole(m, role, e, w); }
      var t := Walkpgdir(d, v, true);
      if t.None? {
        return false;
      }
      VpnParts(v / NPTENTRIES, v % NPTENTRIES, v);
      AddedPage(m, role, t.value, v % NPTENTRIES, p, page);
      forall e: nat, w: nat
        ensures Lookup(WithPage(m, t.value, v % NPTENTRIES, p, page), e, w) == if e == d &&
                  w == v then Some(p) else Lookup(m, e, w) {
        PageLookup(m, role, t.value, v % NPTENTRIES, p, page, e, w);
      }
      m := WithPage(m, t.value, v % NPTENTRIES, p, page);
      role := role[p := Data(d, v)];
      return true;
    }

    /** kalloc and mappages for the next page of a user space. */
    method AddPage(d: nat, v: nat, page: Page) returns (r: Outcome)
      requires Valid() && d in m.dirs && v < USER_PAGES && Lookup(m, d, v).None?
      modifies this
      ensures Valid() && m.dirs.Keys == old(m.dirs.Keys)
      ensures r.NoPage? <==> old(m.free) == []
      ensures r.NoPage? ==> m == old(m) && role == old(role)
      ensures r.Lost? <==> |old(m.free)| == 1 && v / NPTENTRIES !in old(m.dirs)[d]
      ensures r.Lost? ==> m == old(m).(free := []) && Restored(old(role), role, Some(r.p))
      ensures r.Mapped? ==> TakenFor(old(role), role, d) && m.dirs[d].Keys == old(m.dirs)[d].Keys + {v / NPTENTRIES}
      ensures r.Mapped? ==> |m.free| == |old(m.free)| - 1 - if v / NPTENTRIES in old(m.dirs)[d] then 0 else 1
      ensures r.Mapped? ==> Showing(old(m), m, d, v, page)
    {
      hide Inv, Lookup, PageAt;
      var mem := Kalloc();
      if mem.None? {
        return NoPage;
      }
      ghost var m1 := m;
      FreeIgnored(old(m), m1);
      var ok := MapPage(d, v, mem.value, page);
      if !ok {
        return Lost(mem.value);
      }
      return Mapped;
    }

    /** Clear a present entry and free its page. */
    method UnmapPage(d: nat, v: nat, t: nat)
      requires Valid() && d in m.dirs && v < USER_PAGES && v / NPTENTRIES in m.dirs[d] && t == m.dirs[d][v / NPTENTRIES]
      requires t in m.tabs && v % NPTENTRIES in m.tabs[t]
      modifies this
      ensures Valid() && m.dirs == old(m.dirs) && m.tabs.Keys == old(m.tabs.Keys) && HeldSame(old(role), role)
      ensures forall e: nat, w: nat :: Lookup(m, e, w) == if e == d && w == v then None else Lookup(old(m), e, w)
      ensures forall e: nat, w: nat :: (e, w) != (d, v) ==> PageAt(m, e, w) == PageAt(old(m), e, w)
      ensures FreedOf(old(role), role, d)
    {
      hide Inv;
      PdeFacts(m, role, d, v / NPTENTRIES);
      RemovedPage(m, role, t, v % NPTENTRIES);
      VpnParts(v / NPTENTRIES, v % NPTENTRIES, v);
      var p := m.tabs[t][v % NPTENTRIES];
      forall e: nat, w: nat
        ensures Lookup(WithoutPage(m, t, v % NPTENTRIES), e, w) == if e == d && w == v then None else Lookup(m, e, w) {
        NoPageLookup(m, role, t, v % NPTENTRIES, e, w);
      }
      forall e: nat, w: nat | (e, w) != (d, v)
        ensures PageAt(WithoutPage(m, t, v % NPTENTRIES), e, w) == PageAt(m, e, w) {
        LookupRole(m, role, e, w);
      }
      m := WithoutPage(m, t, v % NPTENTRIES);
      role := role[p := Held];
      Kfree(p);
    }

    /** Free the user pages from newsz up to oldsz and return the new size. Where there is no page table the loop
        steps over 4 MB: the whole range is cleared exactly when that passes over no page. */
    method Deallocuvm(d: nat, oldsz: nat, newsz: nat) returns (r: nat)
      requires Valid() && d in m.dirs && oldsz <= KERNBASE
      modifies this
      ensures Valid() && m.dirs == old(m.dirs) && HeldSame(old(role), role) && FreedOf(old(role), role, d)
      ensures OthersSame(old(m), m, d)
      ensures r == if newsz >= oldsz then oldsz else newsz
      ensures newsz >= oldsz ==> m == old(m) && role == old(role)
      ensures newsz < oldsz ==> Cleared(old(m), m, d, Pages(newsz), Pages(oldsz))
      ensures newsz < oldsz ==>
                ((forall w: nat :: Pages(newsz) <= w < Pages(oldsz) ==> Lookup(m, d, w).None?) <==>
                 NothingPassed(old(m), d, Pages(newsz), Pages(oldsz)))
    {
      hide Inv, Lookup, PageAt, Passed, Place, Pages, NothingPassed;
      if newsz >= oldsz {
        return oldsz;
      }
      ghost var a, b := Pages(newsz), Pages(oldsz);
      var v := Pages(newsz);
      StartPlace(m.dirs[d], a);
      while PGSIZE * v < oldsz
        invariant Valid() && m.dirs == old(m.dirs) && HeldSame(old(role), role) && FreedOf(old(role), role, d) && a <= v
        invariant Place(m.dirs[d], a, v)
        invariant forall e: nat, w: nat ::
                    if e == d && a <= w < v && w < b && !Passed(old(m), d, a, w) then Lookup(m, e, w).None?
                    else Lookup(m, e, w) == Lookup(old(m), e, w) && PageAt(m, e, w) == PageAt(old(m), e, w)
        decreases oldsz - PGSIZE * v
      {
        InSize(v, oldsz);
        NextPlace(m.dirs[d], a, v);
        ghost var m0 := m;
        var t := Walkpgdir(d, v, false);
        if t.None? {
          forall w: nat | v <= w < v + NPTENTRIES && !Passed(old(m), d, a, w) ensures Lookup(old(m), d, w).None? {
            StepOver(old(m), d, a, v, w);
          }
          v := v + (NPTENTRIES - 1);
        } else if v % NPTENTRIES in m.tabs[t.value] {
          NotPassed(old(m), d, a, v);
          UnmapPage(d, v, t.value);
        } else {
          NotThere(m, d, v, t.value);
        }
        v := v + 1;
      }
      InSize(v, oldsz);
      ClearedAll(old(m), m, d, a, b);
      return newsz;
    }

    /** Grow space d from oldsz to newsz bytes with zeroed pages. The result of mappages is ignored: a page is lost
        when its page table cannot be had, and then the next kalloc fails as well. So there are three outcomes:
        enough memory; the very last page is lost, and the call succeeds without it; everything is undone (but for a
        lost page) and the result is 0. */
    method Allocuvm(d: nat, oldsz: nat, newsz: nat) returns (r: nat, ghost lost: Option<nat>)
      requires Valid() && d in m.dirs
      requires oldsz <= newsz < KERNBASE ==>
                 forall v: nat :: Pages(oldsz) <= v < Pages(newsz) ==> Lookup(m, d, v).None?      // "remap"
      modifies this
      ensures Valid() && m.dirs.Keys == old(m.dirs.Keys) && HeldBut(old(role), role, lost)
      ensures newsz >= KERNBASE ==> r == 0 && m == old(m) && role == old(role) && lost.None?
      ensures newsz < oldsz && newsz < KERNBASE ==> r == oldsz && m == old(m) && role == old(role) && lost.None?
      ensures oldsz <= newsz < KERNBASE ==>
                (lost.Some? <==> LostIn(old(m.dirs)[d].Keys, Pages(oldsz), |old(m.free)|, Pages(newsz)))
      ensures oldsz <= newsz < KERNBASE && Need(old(m.dirs)[d].Keys, Pages(oldsz), Pages(newsz)) <= |old(m.free)| ==>
                r == newsz && lost.None? && Grown(old(m), m, d, Pages(oldsz), Pages(newsz))
      ensures oldsz <= newsz < KERNBASE && Need(old(m.dirs)[d].Keys, Pages(oldsz), Pages(newsz)) > |old(m.free)| ==>
                if LostAt(old(m.dirs)[d].Keys, Pages(oldsz), |old(m.free)|, Pages(newsz) - 1) then
                  r == newsz && Grown(old(m), m, d, Pages(oldsz), Pages(newsz) - 1)
                else r == 0 && AllSame(old(m), m)
      ensures oldsz <= newsz < KERNBASE && r == newsz && lost.None? ==>
                forall v: nat, i: nat :: oldsz <= PGSIZE * v < newsz && i < PGSIZE ==> HasByte(m, d, v, i, 0)
      ensures oldsz <= newsz < KERNBASE && r == newsz && lost.Some? ==>
                forall v: nat, i: nat :: oldsz <= PGSIZE * v && PGSIZE * v + PGSIZE < newsz && i < PGSIZE ==>
                  HasByte(m, d, v, i, 0)
    {
      hide Inv, ZeroPage, Lookup, PageAt, Grown, HeldBut, AllSame, LostAt, LostIn, Need, TablesFor, Showing, Restored,
           TakenFor, Pages, HeldSame, Cleared, OthersSame, NothingPassed, NewTable, HasByte;
      lost := None;
      NothingGrown(m, role, d, Pages(oldsz));
      if newsz >= KERNBASE {
        return 0, None;
      }
      if newsz < oldsz {
        return oldsz, None;
      }
      ghost var dir, a, b, f := m.dirs[d].Keys, Pages(oldsz), Pages(newsz), |m.free|;
      PagesGrow(oldsz, newsz);
      NothingNeeded(dir, a);
      var v := Pages(oldsz);
      ghost var n: nat := v;
      while PGSIZE * v < newsz
        invariant Valid() && m.dirs.Keys == old(m.dirs.Keys) && a <= n <= v <= b
        invariant Grown(old(m), m, d, a, n) && HeldBut(old(role), role, lost)
        invariant lost.None? ==> n == v && |m.free| + Need(dir, a, v) == f && TablesFor(m.dirs[d].Keys, dir, a, v)
        invariant lost.Some? ==> v == n + 1 && m.free == [] && LostAt(dir, a, f, n)
        decreases b - v
      {
        InSize(v, newsz);
        ghost var m0, role0 := m, role;
        GrownUnmapped(old(m), m, d, a, n, v);
        if lost.None? {
          TablesNext(m.dirs[d].Keys, dir, a, v);
          NeedNext(dir, a, v);
        }
        var added := AddPage(d, v, ZeroPage());
        match added {
          case NoPage =>
            var _ := Deallocuvm(d, newsz, oldsz);
            Undone(old(m), m0, m, d, a, n, b);
            HeldAgain(old(role), role0, role, lost);
            Exhausted(dir, a, f, v, b, lost.Some?, n);
            return 0, lost;
          case Mapped =>
            HeldMapped(old(role), role0, role, d);
            GrownMore(old(m), m0, m, d, a, n);
            n := n + 1;
          case Lost(p) =>
            HeldLost(old(role), role0, role, p);
            GrownFree(old(m), m0, m, d, a, n);
            lost := Some(p);
        }
        v := v + 1;
      }
      InSize(v, newsz);
      Complete(dir, a, f, b, lost.Some?, n);
      NewBytes(old(m), m, d, oldsz, newsz, n);
      return newsz, lost;
    }

    /** A new address space with its kernel half: one table page for each index in kpdes. When memory runs out the
        result is None and the pages taken so far are leaked: `leak` is the directory that nobody knows. */
    method Setupkvm(kpdes: seq<nat>) returns (r: Option<nat>, ghost leak: Option<nat>)
      requires Valid() && NoDup(kpdes) && forall k :: 0 <= k < |kpdes| ==> USER_PDES <= kpdes[k] < NPTENTRIES
      modifies this
      ensures Valid() && m.data == old(m.data) && (forall e :: e in old(m.dirs) ==> e in m.dirs) && AllSame(old(m), m)
      ensures r.None? <==> |old(m.free)| <= |kpdes|
      ensures r.Some? ==>
                leak.None? && r.value !in old(m.dirs) && r.value in m.dirs && m.dirs[r.value].Keys == IndexSet(kpdes)
      ensures r.Some? ==> TakenFor(old(role), role, r.value) && |m.free| == |old(m.free)| - 1 - |kpdes|
      ensures r.Some? ==> forall v: nat :: Lookup(m, r.value, v).None?
      ensures r.None? && old(m.free) == [] ==> leak.None? && m == old(m) && role == old(role)
      ensures r.None? && old(m.free) != [] ==>
                && m.free == [] && leak == Some(old(m.free)[0]) && leak.value in m.dirs && leak.value !in old(m.dirs)
                && m.dirs[leak.value].Keys == IndexSet(kpdes[..|old(m.free)| - 1])
                && TakenFor(old(role), role, leak.value)
    {
      hide Inv, Lookup, PageAt, TakenFor, IndexSet;
      FreeIgnored(m, m);
      var p := Kalloc();
      if p.None? {
        return None, None;
      }
      var d := p.value;
      HeldFacts(m, role, d);
      AddedDir(m, role, d);
      NewDirEmpty(old(m), old(role), d);
      NewDirLookups(old(m), m, d);
      m := WithDir(m, d);
      role := role[d := Dir];
      TookDir(old(role), role, d);
      NoIndices(kpdes);
      var k := 0;
      while k < |kpdes|
        invariant k <= |kpdes| && Valid() && d in m.dirs && m.data == old(m.data) && TakenFor(old(role), role, d)
        invariant m.dirs[d].Keys == IndexSet(kpdes[..k]) && |m.free| == |old(m.free)| - 1 - k
        invariant forall e: nat, v: nat :: Lookup(m, e, v) == Lookup(old(m), e, v)
        invariant forall e :: e in old(m.dirs) ==> e in m.dirs
      {
        OneIndex(kpdes, k);
        ghost var role0 := role;
        var ok := KernelTable(d, kpdes[k]);
        TakenMore(old(role), role0, role, d);
        if !ok {
          SamePagesAt(old(m), m);
          return None, Some(d);
        }
        k := k + 1;
      }
      SamePagesAt(old(m), m);
      assert kpdes[..k] == kpdes;
      return Some(d), None;
    }

    /** A table page for index i of the kernel half. */
    method KernelTable(d: nat, i: nat) returns (ok: bool)
      requires Valid() && d in m.dirs && i !in m.dirs[d] && USER_PDES <= i < NPTENTRIES
      modifies this
      ensures Valid() && m.dirs.Keys == old(m.dirs.Keys) && m.data == old(m.data) && TakenFor(old(role), role, d)
      ensures !ok <==> old(m.free) == []
      ensures !ok ==> m == old(m) && role == old(role)
      ensures ok ==> m.dirs[d].Keys == old(m.dirs)[d].Keys + {i} && |m.free| == |old(m.free)| - 1
      ensures forall e: nat, v: nat :: Lookup(m, e, v) == Lookup(old(m), e, v)
    {
      hide Inv, Lookup;
      var t := Kalloc();
      SameLookups(old(m), m);
      if t.None? {
        return false;
      }
      AddedTable(m, role, d, i, t.value);
      m := WithTable(m, d, i, t.value);
      role := role[t.value := Tab(d, i)];
      return true;
    }

    /** Free the table of index i, which maps nothing. */
    method FreeTable(d: nat, i: nat)
      requires Valid() && d in m.dirs && i in m.dirs[d] && forall v: nat :: Lookup(m, d, v).None?
      modifies this
      ensures Valid() && m.dirs == old(m.dirs)[d := old(m.dirs)[d] - {i}] && m.data == old(m.data)
      ensures HeldSame(old(role), role) && FreedOf(old(role), role, d)
      ensures forall e: nat, v: nat :: Lookup(m, e, v) == Lookup(old(m), e, v)
    {
      hide Inv, Lookup;
      PdeFacts(m, role, d, i);
      EmptyTable(m, role, d, i);
      RemovedTable(m, role, d, i);
      var t := m.dirs[d][i];
      m := WithoutTable(m, d, i);
      role := role[t := Held];
      ghost var m1 := m;
      Kfree(t);
      SameLookups(m1, m);
    }

    /** Free an address space: its data pages, its tables and its directory all return to the free list, and no other
        page changes its use. */
    method Freevm(d: nat)
      requires Valid() && d in m.dirs                                                      // "freevm: no pgdir"
      modifies this
      ensures Valid() && m.dirs.Keys == old(m.dirs.Keys) - {d} && OthersSame(old(m), m, d)
      ensures role.Keys == old(role).Keys
      ensures forall p :: p in old(role) ==> role[p] == if OfSpace(old(role)[p], p, d) then Free else old(role)[p]
    {
      hide Inv, Lookup, PageAt, OthersSame, FreedOf, HeldSame, Cleared, Pages;
      PagesOfHalf();
      AlignedClears(m, d, USER_PAGES);
      var _ := Deallocuvm(d, KERNBASE, 0);
      NothingMapped(m, role, d);
      ghost var m1, role1 := m, role;
      AllInRange(m, role, d);
      var i := 0;
      while i < NPTENTRIES
        invariant i <= NPTENTRIES && Valid() && m.dirs.Keys == old(m.dirs.Keys) && d in m.dirs && m.data == m1.data
        invariant FreedOf(old(role), role, d)
        invariant forall k :: k in m.dirs[d] ==> i <= k < NPTENTRIES
        invariant forall e :: e in m1.dirs && e != d ==> m.dirs[e] == m1.dirs[e]
        invariant forall e: nat, v: nat :: Lookup(m, e, v) == Lookup(m1, e, v)
      {
        if i in m.dirs[d] {
          ghost var role2 := role;
          FreeTable(d, i);
          FreedTwice(old(role), role2, role, d);
        }
        i := i + 1;
      }
      assert m.dirs[d] == map[];
      RemovedDir(m, role, d);
      ghost var m3, role3 := m, role;
      m := m.(dirs := m.dirs - {d});
      role := role[d := Held];
      Kfree(d);
      FreedDir(old(role), role3, role, d);
      SpaceGone(old(m), old(role), m, role, d);
      OthersAfter(old(m), m1, m3, m, d);
    }

    /** A copy of the first sz bytes' worth of pages of space d in a new space. When memory runs out the new space is
        freed again, except for a page that was taken for data and got no page table: that one is lost. When there is
        not even enough for the kernel half, the pages taken for it are leaked, as setupkvm does. */
    method Copyuvm(d: nat, sz: nat,
                   kpdes: seq<nat>) returns (r: Option<nat>, ghost lost: Option<nat>, ghost leak: Option<nat>)
      requires Valid() && d in m.dirs && sz < KERNBASE
      requires forall v: nat :: v < Pages(sz) ==> Lookup(m, d, v).Some?                   // "copyuvm: page not present"
      requires NoDup(kpdes) && forall k :: 0 <= k < |kpdes| ==> USER_PDES <= kpdes[k] < NPTENTRIES
      modifies this
      ensures Valid()
      ensures r.Some? <==> 1 + |kpdes| + Need(IndexSet(kpdes), 0, Pages(sz)) <= |old(m.free)|
      ensures r.Some? ==>
                lost.None? && leak.None? && r.value !in old(m.dirs) && Copied(old(m), m, d, r.value, Pages(sz))
      ensures r.Some? ==> TakenFor(old(role), role, r.value)
      ensures r.Some? ==>
                forall v: nat, w: nat :: Lookup(m, r.value, v).Some? ==> Lookup(m, r.value, v) != Lookup(m, d, w)
      ensures r.None? ==> OldSpaces(old(m), m)
      ensures |old(m.free)| <= |kpdes| ==> lost.None? && (leak.Some? <==> old(m.free) != [])
      ensures leak.Some? ==>
                && m.free == [] && leak.value in m.dirs && leak.value !in old(m.dirs)
                && TakenFor(old(role), role, leak.value)
      ensures |old(m.free)| > |kpdes| ==> leak.None?
      ensures |old(m.free)| > |kpdes| ==>
                (lost.Some? <==> LostIn(IndexSet(kpdes), 0, |old(m.free)| - 1 - |kpdes|, Pages(sz)))
      ensures r.None? && leak.None? ==> Restored(old(role), role, lost)
    {
      hide Inv, Lookup, PageAt, NoDup, Copied, OldSpaces, AllSame, LostAt, LostIn, Need, TablesFor, Showing, Restored,
           TakenFor, Pages, IndexSet, NewTable, OthersSame;
      InSize(0, sz);
      r, leak := Setupkvm(kpdes);
      lost := None;
      if r.None? {
        OldSame(old(m), m);
        NothingLost(role);
        return;
      }
      var e := r.value;
      CopyStart(old(m), m, d, e);
      ghost var dir, b, f := IndexSet(kpdes), Pages(sz), |m.free|;
      NothingNeeded(dir, 0);
      var v := 0;
      while PGSIZE * v < sz
        invariant v <= b && Valid() && e in m.dirs && Copied(old(m), m, d, e, v) && TakenFor(old(role), role, e)
        invariant |m.free| + Need(dir, 0, v) == f && TablesFor(m.dirs[e].Keys, dir, 0, v)
      {
        InSize(v, sz);
        CopiedSource(old(m), m, role, d, e, v);
        var t := Walkpgdir(d, v, false);
        var page := m.data[m.tabs[t.value][v % NPTENTRIES]];
        PageThere(m, role, d, v, t.value);
        ghost var m0, role0 := m, role;
        CopiedDone(old(m), m, d, e, v);
        DirRole(m, role, e);
        TablesNext(m.dirs[e].Keys, dir, 0, v);
        NeedNext(dir, 0, v);
        var added := AddPage(e, v, page);
        if !added.Mapped? {
          ghost var m1, role1 := m, role;
          FreeIgnored(m0, m1);
          Freevm(e);
          lost := if added.Lost? then Some(added.p) else None;
          OldAgain(old(m), m0, m1, m, e);
          RestoredAfter(old(m), old(role), role0, role1, role, e, lost);
          Exhausted(dir, 0, f, if added.Lost? then v + 1 else v, b, added.Lost?, v);
          return None, lost, None;
        }
        CopiedMore(old(m), m0, m, d, e, v, page);
        TakenMore(old(role), role0, role, e);
        v := v + 1;
      }
      InSize(v, sz);
      Complete(dir, 0, f, b, false, b);
      CopiedDone(old(m), m, d, e, v);
      Disjoint(m, role, d, e);
      return Some(e), None, None;
    }
  }

  /** Every address space that there was shows what it showed. */
  ghost predicate OldSpaces(m: M, m': M) {
    forall e: nat :: e in m.dirs ==>
        e in m'.dirs && forall v: nat :: Lookup(m', e, v) == Lookup(m, e, v) && PageAt(m', e, v) == PageAt(m, e, v)
  }

  lemma OldAgain(m: M, m0: M, m1: M, m2: M, e: nat)
    requires e !in m.dirs && OthersSame(m, m0, e) && m1 == m0.(free := m1.free) && OthersSame(m1, m2, e)
    requires forall x: nat, v: nat :: Lookup(m1, x, v) == Lookup(m0, x, v) && PageAt(m1, x, v) == PageAt(m0, x, v)
    ensures OldSpaces(m, m2)
  {
    hide Lookup, PageAt;
  }

  lemma OldSame(m: M, m': M)
    requires AllSame(m, m') && forall e :: e in m.dirs ==> e in m'.dirs
    ensures OldSpaces(m, m')
  {
    hide Lookup, PageAt;
  }

  lemma SamePagesAt(m: M, m': M)
    requires m'.data == m.data && forall e: nat, v: nat :: Lookup(m', e, v) == Lookup(m, e, v)
    ensures AllSame(m, m')
  {
    hide Lookup;
  }

  /** Page v of space d shows `page`; everything else is as it was. */
  ghost predicate Showing(m: M, m': M, d: nat, v: nat, page: Page) {
    forall e: nat, w: nat ::
      if e == d && w == v then Lookup(m', e, w).Some? && PageAt(m', e, w) == Some(page)
      else Lookup(m', e, w) == Lookup(m, e, w) && PageAt(m', e, w) == PageAt(m, e, w)
  }

  lemma NothingNeeded(dir: set<nat>, a: nat)
    ensures Need(dir, a, a) == 0 && TablesFor(dir, dir, a, a)
  {
  }

  lemma NeedNext(dir: set<nat>, a: nat, v: nat)
    requires a <= v
    ensures Need(dir, a, v + 1) == Need(dir, a, v) + 1 + if NewTable(dir, a, v) then 1 else 0
    ensures forall f: nat :: LostAt(dir, a, f, v) <==> NewTable(dir, a, v) && f == Need(dir, a, v) + 1
  {
  }

  lemma PagesGrow(oldsz: nat, newsz: nat)
    requires oldsz <= newsz < KERNBASE
    ensures Pages(oldsz) <= Pages(newsz) <= USER_PAGES && oldsz <= PGSIZE * Pages(oldsz)
  {
  }

  /** Memory ran out at page v: whether a page was lost, and that the range was not finished. */
  lemma Exhausted(dir: set<nat>, a: nat, f: nat, v: nat, b: nat, some: bool, n: nat)
    requires a <= n <= v <= b && if some then v == n + 1 && LostAt(dir, a, f, n) else v < b && f == Need(dir, a, v)
    ensures LostIn(dir, a, f, b) <==> some
    ensures Need(dir, a, b) > f && (v < b ==> !LostAt(dir, a, f, b - 1))
  {
    hide NewTable;
    NeedGrows(dir, a, v, b);
    if some {
      assert Need(dir, a, v) == f + 1;
      if v < b { LostOnlyThere(dir, a, f, n, b - 1); }
    } else {
      forall w: nat | a <= w ensures !LostAt(dir, a, f, w) { LostOnlyThere(dir, a, f, v, w); }
    }
  }

  /** The whole range was passed. */
  lemma Complete(dir: set<nat>, a: nat, f: nat, b: nat, some: bool, n: nat)
    requires a <= n <= b && if some then b == n + 1 && LostAt(dir, a, f, n) else Need(dir, a, b) <= f
    ensures LostIn(dir, a, f, b) <==> some
    ensures some <==> Need(dir, a, b) > f
  {
    hide NewTable;
    if some {
      assert Need(dir, a, b) == f + 1;
    } else {
      forall w: nat | a <= w < b ensures !LostAt(dir, a, f, w) { LostOnlyThere(dir, a, f, b, w); }
    }
  }

  lemma TookDir(role: Roles, role': Roles, d: nat)
    requires d in role && role[d] == Free && role' == role[d := Held][d := Dir]
    ensures TakenFor(role, role', d)
  {
  }

  lemma TakenMore(role: Roles, role1: Roles, role2: Roles, d: nat)
    requires TakenFor(role, role1, d) && TakenFor(role1, role2, d)
    ensures TakenFor(role, role2, d)
  {
  }

  lemma NothingLost(role: Roles)
    ensures Restored(role, role, None)
  {
  }

  lemma DirRole(m: M, role: Roles, d: nat)
    requires Inv(m, role) && d in m.dirs
    ensures d in role && role[d] == Dir
  {
    InvAt(m, role, d);
  }

  lemma NoIndices(kpdes: seq<nat>)
    ensures IndexSet(kpdes[..0]) == {}
  {
  }

  lemma OneIndex(kpdes: seq<nat>, k: nat)
    requires NoDup(kpdes) && k < |kpdes|
    ensures kpdes[k] !in IndexSet(kpdes[..k]) && IndexSet(kpdes[..k + 1]) == IndexSet(kpdes[..k]) + {kpdes[k]}
  {
    assert kpdes[..k + 1] == kpdes[..k] + [kpdes[k]];
  }

  /** Freeing the half-made space puts every page back, except a lost one. */
  lemma RestoredAfter(m: M, role: Roles, role0: Roles, role1: Roles, role2: Roles, e: nat, lost: Option<nat>)
    requires Inv(m, role) && e !in m.dirs && TakenFor(role, role0, e) && e in role0 && role0[e] == Dir
    requires if lost.None? then role1 == role0 else Restored(role0, role1, lost)
    requires role2.Keys == role1.Keys
    requires forall p :: p in role1 ==> role2[p] == if OfSpace(role1[p], p, e) then Free else role1[p]
    ensures Restored(role, role2, lost)
  {
    forall p | p in role ensures role2[p] == if lost == Some(p) then Held else role[p] {
      InvAt(m, role, p);
    }
  }

  /** Undoing the growth. Nothing of it is passed over: that needs a missing table at page a, and then nothing had
      grown. */
  lemma Undone(m0: M, m1: M, m: M, d: nat, a: nat, n: nat, b: nat)
    requires Grown(m0, m1, d, a, n) && n <= b && Cleared(m1, m, d, a, b) && OthersSame(m1, m, d)
    requires forall w: nat :: a <= w < b ==> Lookup(m0, d, w).None?
    ensures AllSame(m0, m)
  {
    forall e: nat, w: nat ensures Lookup(m, e, w) == Lookup(m0, e, w) && PageAt(m, e, w) == PageAt(m0, e, w) {
      if e == d && a <= w < n {
        assert Lookup(m1, d, a).Some?;
      }
    }
  }

  lemma GrownUnmapped(m0: M, m: M, d: nat, a: nat, n: nat, v: nat)
    requires Grown(m0, m, d, a, n) && n <= v && Lookup(m0, d, v).None?
    ensures Lookup(m, d, v).None?
  {
    hide Lookup, PageAt, ZeroPage;
  }

  lemma FreeIgnored(m: M, m': M)
    requires m' == m.(free := m'.free)
    ensures forall e: nat, v: nat :: Lookup(m', e, v) == Lookup(m, e, v) && PageAt(m', e, v) == PageAt(m, e, v)
  {
  }

  /** Space e shows the first k pages of space d; every space there was before shows what it showed. */
  ghost predicate Copied(m0: M, m: M, d: nat, e: nat, k: nat) {
    && e !in m0.dirs && e in m.dirs && d in m0.dirs && k <= USER_PAGES
    && (forall x: nat :: x in m0.dirs ==> x in m.dirs)
    && (forall x: nat, w: nat :: x != e ==> Lookup(m, x, w) == Lookup(m0, x, w) && PageAt(m, x, w) == PageAt(m0, x, w))
    && (forall w: nat :: w < k ==> Lookup(m, e, w).Some? && PageAt(m, e, w) == PageAt(m0, d, w))
    && (forall w: nat :: k <= w ==> Lookup(m, e, w).None?)
  }

  lemma CopyStart(m0: M, m: M, d: nat, e: nat)
    requires d in m0.dirs && e !in m0.dirs && e in m.dirs && AllSame(m0, m) && forall v: nat :: Lookup(m, e, v).None?
    requires forall x :: x in m0.dirs ==> x in m.dirs
    ensures Copied(m0, m, d, e, 0)
  {
    hide Lookup, PageAt;
  }

  lemma CopiedMore(m0: M, m: M, m': M, d: nat, e: nat, k: nat, page: Page)
    requires Copied(m0, m, d, e, k) && m'.dirs.Keys == m.dirs.Keys && k < USER_PAGES && d != e
    requires PageAt(m, d, k) == Some(page) && Showing(m, m', e, k, page)
    ensures Copied(m0, m', d, e, k + 1)
  {
    hide Lookup, PageAt;
  }

  lemma CopiedDone(m0: M, m: M, d: nat, e: nat, k: nat)
    requires Copied(m0, m, d, e, k)
    ensures OthersSame(m0, m, e) && e !in m0.dirs && d in m0.dirs && d != e && Lookup(m, e, k).None?
  {
    hide Lookup, PageAt;
  }

  /** The page to be copied is there. */
  lemma CopiedSource(m0: M, m: M, role: Roles, d: nat, e: nat, k: nat)
    requires Inv(m, role) && Copied(m0, m, d, e, k) && Lookup(m0, d, k).Some? && k < USER_PAGES
    ensures d in m.dirs && d != e && k < USER_PAGES && Lookup(m, d, k).Some? && k / NPTENTRIES in m.dirs[d]
    ensures var t := m.dirs[d][k / NPTENTRIES];
              t in m.tabs && k % NPTENTRIES in m.tabs[t] && m.tabs[t][k % NPTENTRIES] in m.data
  {
    LookupRole(m, role, d, k);
  }

  lemma PageThere(m: M, role: Roles, d: nat, v: nat, t: nat)
    requires Inv(m, role) && d in m.dirs && v / NPTENTRIES in m.dirs[d] && t == m.dirs[d][v / NPTENTRIES] && t in m.tabs
    requires v % NPTENTRIES in m.tabs[t]
    ensures m.tabs[t][v % NPTENTRIES] in m.data && PageAt(m, d, v) == Some(m.data[m.tabs[t][v % NPTENTRIES]])
  {
    LookupRole(m, role, d, v);
  }

  /** Two address spaces share no data page. */
  lemma Disjoint(m: M, role: Roles, d: nat, e: nat)
    requires Inv(m, role) && d != e
    ensures forall v: nat, w: nat :: Lookup(m, e, v).Some? ==> Lookup(m, e, v) != Lookup(m, d, w)
  {
    forall v: nat, w: nat | Lookup(m, e, v).Some? ensures Lookup(m, e, v) != Lookup(m, d, w) {
      LookupRole(m, role, e, v);
      LookupRole(m, role, d, w);
    }
  }

  lemma PagesOfHalf()
    ensures Pages(KERNBASE) == USER_PAGES && Pages(0) == 0
  {
  }

  lemma AlignedClears(m: M, d: nat, b: nat)
    ensures NothingPassed(m, d, 0, b)
  {
  }

  lemma StartPlace(dir: map<nat, nat>, a: nat)
    ensures Place(dir, a, a)
  {
  }

  lemma NotPassed(m: M, d: nat, a: nat, v: nat)
    requires d in m.dirs && Place(m.dirs[d], a, v) && a <= v && v / NPTENTRIES in m.dirs[d]
    requires v / NPTENTRIES < USER_PDES
    ensures !Passed(m, d, a, v)
  {
  }

  lemma NotThere(m: M, d: nat, v: nat, t: nat)
    requires d in m.dirs && v / NPTENTRIES in m.dirs[d] && t == m.dirs[d][v / NPTENTRIES] && t in m.tabs
    requires v % NPTENTRIES !in m.tabs[t]
    ensures Lookup(m, d, v).None?
  {
  }

  /** The kernel half maps no user page, so a space without user pages maps nothing. */
  lemma NothingMapped(m: M, role: Roles, d: nat)
    requires Inv(m, role) && d in m.dirs && forall v: nat :: v < USER_PAGES ==> Lookup(m, d, v).None?
    ensures forall v: nat :: Lookup(m, d, v).None?
  {
    forall v: nat ensures Lookup(m, d, v).None? {
      assert PdeOk(m, role, d, v / NPTENTRIES);
      if v >= USER_PAGES && v / NPTENTRIES in m.dirs[d] { InvAt(m, role, m.dirs[d][v / NPTENTRIES]); }
    }
  }

  lemma EmptyTable(m: M, role: Roles, d: nat, i: nat)
    requires Inv(m, role) && d in m.dirs && i in m.dirs[d] && forall v: nat :: Lookup(m, d, v).None?
    ensures var t := m.dirs[d][i]; t in m.tabs && m.tabs[t] == map[]
  {
    assert PdeOk(m, role, d, i);
    var t := m.dirs[d][i];
    forall j: nat ensures j !in m.tabs[t] {
      assert PteOk(m, role, t, j) && Lookup(m, d, Vpn(i, j)).None?;
      if j < NPTENTRIES { VpnParts(i, j, Vpn(i, j)); }
    }
  }

  lemma AllInRange(m: M, role: Roles, d: nat)
    requires Inv(m, role) && d in m.dirs
    ensures forall i :: i in m.dirs[d] ==> i < NPTENTRIES
  {
    forall i | i in m.dirs[d] ensures i < NPTENTRIES {
      assert PdeOk(m, role, d, i);
      InvAt(m, role, m.dirs[d][i]);
    }
  }

  lemma FreedTwice(role: Roles, role1: Roles, role2: Roles, d: nat)
    requires FreedOf(role, role1, d) && FreedOf(role1, role2, d)
    ensures FreedOf(role, role2, d)
  {
  }

  lemma FreedDir(role: Roles, role1: Roles, role2: Roles, d: nat)
    requires FreedOf(role, role1, d) && d in role1 && role2 == role1[d := Held][d := Free]
    ensures FreedOf(role, role2, d) && role2[d] == Free
  {
  }

  /** Once the directory is gone, nothing is left in the roles of its space. */
  lemma SpaceGone(m: M, role: Roles, m': M, role': Roles, d: nat)
    requires Inv(m', role') && d !in m'.dirs && FreedOf(role, role', d) && d in role' && role'[d] == Free
    ensures role'.Keys == role.Keys
    ensures forall p :: p in role ==> role'[p] == if OfSpace(role[p], p, d) then Free else role[p]
  {
    forall p | p in role ensures role'[p] == if OfSpace(role[p], p, d) then Free else role[p] {
      InvAt(m', role', p);
    }
  }

  lemma OthersAfter(m: M, m1: M, m2: M, m': M, d: nat)
    requires OthersSame(m, m1, d) && m2.data == m1.data && m'.data == m2.data && m'.tabs == m2.tabs
    requires m'.dirs == m2.dirs - {d}
    requires forall e :: e in m1.dirs && e != d ==> e in m2.dirs
    requires forall e: nat, v: nat :: Lookup(m2, e, v) == Lookup(m1, e, v)
    ensures OthersSame(m, m', d)
  {
    forall e: nat, v: nat | e != d ensures Lookup(m', e, v) == Lookup(m2, e, v) {
    }
  }

  lemma SameLookups(m: M, m': M)
    requires m'.dirs == m.dirs && m'.tabs == m.tabs
    ensures forall e: nat, v: nat :: Lookup(m', e, v) == Lookup(m, e, v)
  {
  }

  lemma NewDirLookups(m: M, m': M, d: nat)
    requires m'.dirs == m.dirs && m'.tabs == m.tabs && d !in m.dirs
    ensures forall e: nat, v: nat :: Lookup(WithDir(m', d), e, v) == Lookup(m, e, v)
  {
  }

  lemma NewDirEmpty(m: M, role: Roles, d: nat)
    requires Inv(m, role) && d in role && role[d] == Free
    ensures d !in m.dirs && forall v: nat :: Lookup(m, d, v).None?
  {
    InvAt(m, role, d);
  }

  /** Space d shows zeroed pages from a up to n; everything else, there and in other spaces, is as it was. */
  ghost predicate Grown(m0: M, m: M, d: nat, a: nat, n: nat) {
    && m.dirs.Keys == m0.dirs.Keys && a <= n
    && (forall e: nat, w: nat ::
          if e == d && a <= w < n then Lookup(m, e, w).Some? && PageAt(m, e, w) == Some(ZeroPage())
          else Lookup(m, e, w) == Lookup(m0, e, w) && PageAt(m, e, w) == PageAt(m0, e, w))
  }

  /** Byte i of virtual page v of space d is mapped and has the value x. */
  predicate HasByte(m: M, d: nat, v: nat, i: nat, x: int) {
    PageAt(m, d, v).Some? && i < PGSIZE && PageAt(m, d, v).value[i] == x
  }

  /** Every byte of the pages that growth has added is zero. */
  lemma NewBytes(m0: M, m: M, d: nat, oldsz: nat, newsz: nat, n: nat)
    requires Grown(m0, m, d, Pages(oldsz), n) && Pages(newsz) <= n + 1
    ensures Pages(newsz) <= n ==>
              forall v: nat, i: nat :: oldsz <= PGSIZE * v < newsz && i < PGSIZE ==> HasByte(m, d, v, i, 0)
    ensures forall v: nat, i: nat :: oldsz <= PGSIZE * v && PGSIZE * v + PGSIZE < newsz && i < PGSIZE ==>
              HasByte(m, d, v, i, 0)
  {
    hide Lookup, PageAt;
    forall v: nat, i: nat
      | oldsz <= PGSIZE * v && i < PGSIZE &&
        ((Pages(newsz) <= n && PGSIZE * v < newsz) || PGSIZE * v + PGSIZE < newsz)
      ensures HasByte(m, d, v, i, 0) {
      assert Pages(oldsz) <= v < n;
      assert PageAt(m, d, v) == Some(ZeroPage());
      assert ZeroPage()[i] == 0;
    }
  }

  lemma NothingGrown(m: M, role: Roles, d: nat, a: nat)
    ensures Grown(m, m, d, a, a) && HeldBut(role, role, None) && HeldSame(role, role) && OthersSame(m, m, d)
  {
  }

  lemma GrownFree(m0: M, m: M, m': M, d: nat, a: nat, n: nat)
    requires Grown(m0, m, d, a, n) && m' == m.(free := m'.free)
    ensures Grown(m0, m', d, a, n)
  {
    forall e: nat, w: nat ensures Lookup(m', e, w) == Lookup(m, e, w) && PageAt(m', e, w) == PageAt(m, e, w) {
    }
  }

  lemma GrownMore(m0: M, m: M, m': M, d: nat, a: nat, n: nat)
    requires Grown(m0, m, d, a, n) && m'.dirs.Keys == m.dirs.Keys && Showing(m, m', d, n, ZeroPage())
    ensures Grown(m0, m', d, a, n + 1)
  {
    hide Lookup, PageAt, ZeroPage;
  }

  /** Growing a contiguous space at its end keeps it contiguous. */
  lemma GrownContiguous(m0: M, m: M, d: nat, a: nat, n: nat)
    requires Contiguous(m0, d, a) && Grown(m0, m, d, a, n) && n <= USER_PAGES
    ensures Contiguous(m, d, n)
  {
    hide Lookup, PageAt, ZeroPage;
  }

  /** Shrinking a contiguous space keeps it contiguous, and the pages below the new size show what they showed. */
  lemma ShrunkContiguous(m0: M, role: Roles, m: M, d: nat, n: nat, a: nat, b: nat)
    requires Inv(m0, role) && Contiguous(m0, d, n) && n <= b <= USER_PAGES && Cleared(m0, m, d, a, b) && d in m.dirs
    ensures Contiguous(m, d, if n < a then n else a)
    ensures forall v: nat :: v < a ==> Lookup(m, d, v) == Lookup(m0, d, v) && PageAt(m, d, v) == PageAt(m0, d, v)
  {
    ContiguousClears(m0, role, d, n, a, b);
    ClearedAll(m0, m, d, a, b);
    hide Lookup, PageAt, Passed, NothingPassed;
  }

  lemma HeldMapped(role: Roles, role0: Roles, role1: Roles, d: nat)
    requires HeldBut(role, role0, None) && TakenFor(role0, role1, d)
    ensures HeldBut(role, role1, None)
  {
  }

  lemma HeldLost(role: Roles, role0: Roles, role1: Roles, p: nat)
    requires HeldBut(role, role0, None) && Restored(role0, role1, Some(p))
    ensures HeldBut(role, role1, Some(p))
  {
  }

  /** No page is newly held by kernel code, except perhaps one. */
  ghost predicate HeldBut(role: Roles, role': Roles, lost: Option<nat>) {
    && role'.Keys == role.Keys
    && (lost.Some? ==> lost.value in role && role[lost.value] != Held && role'[lost.value] == Held)
    && (forall p :: p in role && lost != Some(p) ==> (role'[p] == Held <==> role[p] == Held))
  }

  lemma HeldAgain(role: Roles, role1: Roles, role2: Roles, lost: Option<nat>)
    requires HeldBut(role, role1, lost) && HeldSame(role1, role2)
    ensures HeldBut(role, role2, lost)
  {
  }

  /** A page of address space d: its directory, one of its tables, or one of its data pages. */
  predicate OfSpace(role: Role, p: nat, d: nat) {
    p == d || (role.Tab? && role.d == d) || (role.Data? && role.d == d)
  }

  /** Pages of space d may have been freed; no other page changed its use. */
  ghost predicate FreedOf(role: Roles, role': Roles, d: nat) {
    role'.Keys == role.Keys && forall p :: p in role ==>
        role'[p] == role[p] || (OfSpace(role[p], p, d) && role'[p] == Free)
  }

  /** A mapped page has the role of being mapped there. */
  lemma LookupRole(m: M, role: Roles, d: nat, v: nat)
    requires Inv(m, role)
    ensures Lookup(m, d, v).Some? ==> var p := Lookup(m, d, v).value; p in role && role[p] == Data(d, v) && p in m.data
  {
    var i, j := v / NPTENTRIES, v % NPTENTRIES;
    assert PdeOk(m, role, d, i);
    if Lookup(m, d, v).Some? {
      assert PteOk(m, role, m.dirs[d][i], j);
      VpnParts(i, j, v);
      InvAt(m, role, Lookup(m, d, v).value);
    }
  }

  lemma PdeFacts(m: M, role: Roles, d: nat, i: nat)
    requires Inv(m, role)
    ensures d in m.dirs && i in m.dirs[d] ==> var t := m.dirs[d][i]; t in m.tabs && t in role && role[t] == Tab(d, i)
  {
    assert PdeOk(m, role, d, i);
  }

  lemma HeldFacts(m: M, role: Roles, p: nat)
    requires Inv(m, role) && p in role && role[p] == Held
    ensures p !in m.data && p !in m.tabs && p !in m.dirs && p !in m.free
  {
    InvAt(m, role, p);
  }

  /** Contiguity matters: a page that deallocuvm passes over. With page 1024 alone mapped, shrinking from 8 MB to one
      page leaves it mapped. */
  method SkippedPage() returns (vm: Vm, d: nat, sz: nat, ghost before: M)
    ensures fresh(vm) && vm.Valid() && d in vm.m.dirs && sz == PGSIZE
    ensures Cleared(before, vm.m, d, Pages(sz), Pages(2 * NPTENTRIES * PGSIZE))
    ensures Pages(sz) <= NPTENTRIES < Pages(2 * NPTENTRIES * PGSIZE)
    ensures Lookup(before, d, NPTENTRIES).Some? && Lookup(vm.m, d, NPTENTRIES) == Lookup(before, d, NPTENTRIES)
  {
    hide Inv, PageAt, ZeroPage, TakenFor, OthersSame, FreedOf, HeldSame, Showing, Cleared;
    vm := new Vm(0, 8);
    var r, leak := vm.Setupkvm([]);
    d := r.value;
    NoIndices([]);
    ghost var m0 := vm.m;
    var added := vm.AddPage(d, NPTENTRIES, ZeroPage());
    ShowsThere(m0, vm.m, d, NPTENTRIES, ZeroPage());
    before := vm.m;
    assert FirstTable(before.dirs[d], 0) == 1;
    assert Passed(before, d, 1, NPTENTRIES);
    sz := vm.Deallocuvm(d, 2 * NPTENTRIES * PGSIZE, PGSIZE);
    StaysThere(before, vm.m, d, 1, Pages(2 * NPTENTRIES * PGSIZE), NPTENTRIES);
  }

  lemma ShowsThere(m: M, m': M, d: nat, v: nat, page: Page)
    requires Showing(m, m', d, v, page)
    ensures Lookup(m', d, v).Some?
  {
  }

  lemma StaysThere(m: M, m': M, d: nat, a: nat, b: nat, w: nat)
    requires Cleared(m, m', d, a, b) && Passed(m, d, a, w)
    ensures Lookup(m', d, w) == Lookup(m, d, w)
  {
  }
}
