/** copyout: bytes from the kernel into a user address space, page by page. */
module UserCopy {
  import opened Optional
  import opened PageTables
  import opened VirtualMemory

  /** copyout returns 0 or -1, or dereferences the null pointer that walkpgdir gives without a page table. */
  datatype Copied = Done | Refused | Fault

  /** The byte at virtual address a of space d. */
  function ByteAt(m: M, d: nat, a: nat): Option<int> {
    match PageAt(m, d, a / PGSIZE)
    case None => None
    case Some(page) => Some(page[a % PGSIZE])
  }

  /** A page that user code may see: mapped, with PTE_U. `hidden` are the pages whose PTE_U has been cleared. */
  predicate Visible(m: M, d: nat, hidden: set<nat>, v: nat) {
    Lookup(m, d, v).Some? && v !in hidden
  }

  /** Memory m' is m with src at address va of space d, and no other change in any space. */
  ghost predicate Holds(m: M, m': M, d: nat, va: nat, src: seq<int>) {
    && m'.free == m.free && m'.dirs == m.dirs && m'.tabs == m.tabs && m'.data.Keys == m.data.Keys
    && (forall e: nat, a: nat :: ByteAt(m', e, a) == if e == d && va <= a < va + |src| then Some(src[a - va])
                                                     else ByteAt(m, e, a))
  }

  /** A page with some bytes of it replaced. */
  function Patched(page: Page, o: nat, src: seq<int>): Page
    requires o + |src| <= PGSIZE
  {
    page[..o] + src + page[o + |src|..]
  }

  /** Changing the contents of a data page changes no page's use. */
  lemma DataKeeps(m: M, role: Roles, p: nat, page: Page)
    requires Inv(m, role) && p in m.data
    ensures Inv(m.(data := m.data[p := page]), role)
  {
    var m' := m.(data := m.data[p := page]);
    assert forall d: nat, v: nat :: Lookup(m', d, v) == Lookup(m, d, v);
    forall q: nat ensures FreeOk(m', role, q) && DirOk(m', role, q) && TabOk(m', role, q) && DataOk(m', role, q) {
      InvAt(m, role, q);
    }
    forall d: nat, i: nat ensures PdeOk(m', role, d, i) { assert PdeOk(m, role, d, i); }
    forall t: nat, j: nat ensures PteOk(m', role, t, j) { assert PteOk(m, role, t, j); }
  }

  /** Only one place shows a data page. */
  lemma ShownOnce(m: M, role: Roles, d: nat, v: nat, e: nat, w: nat)
    requires Inv(m, role) && Lookup(m, d, v).Some?
    ensures Lookup(m, d, v).value in m.data
    ensures Lookup(m, e, w) == Lookup(m, d, v) ==> e == d && w == v
  {
    LookupRole(m, role, d, v);
    LookupRole(m, role, e, w);
  }

  /** Patching the page at v puts the bytes at that place of space d alone. */
  lemma PatchedBytes(m: M, role: Roles, d: nat, va: nat, src: seq<int>)
    requires Inv(m, role) && Lookup(m, d, va / PGSIZE).Some? && va % PGSIZE + |src| <= PGSIZE
    ensures var p := Lookup(m, d, va / PGSIZE).value;
            && p in m.data
            && Holds(m, m.(data := m.data[p := Patched(m.data[p], va % PGSIZE, src)]), d, va, src)
  {
    hide Inv, Lookup;
    var v, o := va / PGSIZE, va % PGSIZE;
    var p := Lookup(m, d, v).value;
    ShownOnce(m, role, d, v, d, v);
    var m' := m.(data := m.data[p := Patched(m.data[p], o, src)]);
    SameLookups(m, m');
    forall e: nat, a: nat
      ensures ByteAt(m', e, a) == if e == d && va <= a < va + |src| then Some(src[a - va]) else ByteAt(m, e, a) {
      ShownOnce(m, role, d, v, e, a / PGSIZE);
      InPage(va, |src|, a);
    }
  }

  lemma SameLookups(m: M, m': M)
    requires m'.dirs == m.dirs && m'.tabs == m.tabs
    ensures forall d: nat, v: nat :: Lookup(m', d, v) == Lookup(m, d, v)
  {
  }

  /** The addresses of a range inside one page. */
  lemma InPage(va: nat, n: nat, a: nat)
    requires va % PGSIZE + n <= PGSIZE
    ensures va <= a < va + n <==> a / PGSIZE == va / PGSIZE && va % PGSIZE <= a % PGSIZE < va % PGSIZE + n
    ensures va <= a < va + n ==> a % PGSIZE - va % PGSIZE == a - va
  {
  }

  lemma HoldsNothing(m: M, d: nat, va: nat)
    ensures Holds(m, m, d, va, [])
  {
  }

  lemma HoldsMore(m: M, m1: M, m2: M, d: nat, va: nat, src: seq<int>, k: nat, n: nat)
    requires k + n <= |src| && Holds(m, m1, d, va, src[..k]) && Holds(m1, m2, d, va + k, src[k..k + n])
    ensures Holds(m, m2, d, va, src[..k + n])
  {
    hide ByteAt;
    forall e: nat, a: nat
      ensures ByteAt(m2, e, a) ==
              if e == d && va <= a < va + k + n then Some(src[..k + n][a - va]) else ByteAt(m, e, a) {
      assert ByteAt(m1, e, a) == if e == d && va <= a < va + k then Some(src[..k][a - va]) else ByteAt(m, e, a);
    }
  }

  /** copyout(pgdir, va, p, len), for a range of the user half. The bytes up to the first page that user code may not
      see are copied, and nothing else changes; the call succeeds exactly when there is no such page, and faults
      exactly when that page has no page table. */
  method Copyout(vm: Vm, d: nat, va: nat, src: seq<int>, hidden: set<nat>) returns (r: Copied, ghost done: nat)
    requires vm.Valid() && d in vm.m.dirs && va + |src| <= KERNBASE
    modifies vm`m
    ensures vm.Valid() && done <= |src| && Holds(old(vm.m), vm.m, d, va, src[..done])
    ensures r.Done? <==> done == |src|
    ensures r.Done? <==> forall a: nat :: va <= a < va + |src| ==> Visible(old(vm.m), d, hidden, a / PGSIZE)
    ensures forall a: nat :: va <= a < va + done ==> Visible(old(vm.m), d, hidden, a / PGSIZE)
    ensures !r.Done? ==>
              && !Visible(old(vm.m), d, hidden, (va + done) / PGSIZE)
              && (done == 0 || (va + done) % PGSIZE == 0)
              && (r.Fault? <==> (va + done) / PGSIZE / NPTENTRIES !in old(vm.m).dirs[d])
  {
    hide Inv, Lookup, Holds;
    var k, a := 0, va;
    HoldsNothing(vm.m, d, va);
    while k < |src|
      invariant vm.Valid() && k <= |src| && a == va + k && d in vm.m.dirs
      invariant Holds(old(vm.m), vm.m, d, va, src[..k])
      invariant vm.m.dirs == old(vm.m).dirs && vm.m.tabs == old(vm.m).tabs
      invariant k == 0 || k == |src| || (va + k) % PGSIZE == 0
      invariant forall b: nat :: va <= b < va + k ==> Visible(old(vm.m), d, hidden, b / PGSIZE)
    {
      SameLookups(old(vm.m), vm.m);
      var v := a / PGSIZE;
      if v / NPTENTRIES !in vm.m.dirs[d] {
        NoTable(vm.m, d, v);
        assert !Visible(old(vm.m), d, hidden, a / PGSIZE);
        return Fault, k;
      }
      var pa := Lookup(vm.m, d, v);
      if pa.None? || v in hidden {
        assert !Visible(old(vm.m), d, hidden, a / PGSIZE);
        return Refused, k;
      }
      var n := PGSIZE - a % PGSIZE;
      if n > |src| - k {
        n := |src| - k;
      }
      ghost var m1 := vm.m;
      PatchedBytes(vm.m, vm.role, d, a, src[k..k + n]);
      var page := Patched(vm.m.data[pa.value], a % PGSIZE, src[k..k + n]);
      DataKeeps(vm.m, vm.role, pa.value, page);
      vm.m := vm.m.(data := vm.m.data[pa.value := page]);
      HoldsMore(old(vm.m), m1, vm.m, d, va, src, k, n);
      forall b: nat | a <= b < a + n ensures b / PGSIZE == v { InPage(a, n, b); }
      k, a := k + n, a + n;
    }
    return Done, k;
  }

  lemma NoTable(m: M, d: nat, v: nat)
    requires d in m.dirs && v / NPTENTRIES !in m.dirs[d]
    ensures Lookup(m, d, v).None?
  {
  }
}
