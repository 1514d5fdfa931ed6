/** vm.c and kalloc.c: address spaces built from page frames. */
module Vm {
  import opened Common
  import opened PageTables

  const JUNK: word := 0x0101_0101

  /** What kfree leaves in a page: the link to the next free one, then junk. */
  function JunkPage(next: word): (p: Page) {
    [next] + seq(NENTRIES - 1, _ => JUNK)
  }

  const ZERO_PAGE: Page := seq(NENTRIES, _ => 0)

  /** Frame f belongs to the address space of directory d. */
  predicate OfSpace(u: Use, f: nat, d: nat) {
    f == d || (u.Table? && u.dir == d) || (u.User? && u.dir == d)
  }

  /** The user pages of d are exactly the first n. */
  ghost predicate Contiguous(mem: seq<Page>, d: nat, n: nat)
    requires d < |mem|
  {
    forall v :: 0 <= v < USERPAGES ==> (Present(Lookup(mem, d, v)) <==> v < n)
  }

  /** No user page of d from page n on is mapped. */
  ghost predicate EmptyFrom(mem: seq<Page>, d: nat, n: nat)
    requires d < |mem|
  {
    forall v :: n <= v < USERPAGES ==> !Present(Lookup(mem, d, v))
  }

  /** The user pages of d from page n on are mapped as before. */
  ghost predicate SameFrom(mem: seq<Page>, mem': seq<Page>, d: nat, n: nat)
    requires d < |mem| == |mem'|
  {
    forall v :: n <= v < USERPAGES ==> Lookup(mem', d, v) == Lookup(mem, d, v)
  }

  lemma SameEmpty(mem: seq<Page>, mem': seq<Page>, d: nat, m: nat, n: nat)
    requires d < |mem| == |mem'| && SameFrom(mem, mem', d, n) && EmptyFrom(mem, d, m) && m <= n
    ensures EmptyFrom(mem', d, n)
  {
  }

  /** How many of the n pages from page v on are user pages. */
  function UserPart(v: nat, n: nat): (k: nat)
    ensures k <= n
  {
    if v >= USERPAGES then 0 else if v + n <= USERPAGES then n else USERPAGES - v
  }

  /** The kernel holds the k frames from x on. */
  predicate HeldRange(use: seq<Use>, x: nat, k: nat) {
    (k > 0 ==> x + k <= |use|) && forall f :: x <= f < x + k && f < |use| ==> use[f] == Kernel
  }

  /** The k frames from f on are the pages of d from page v on. */
  predicate UserRange(use: seq<Use>, d: nat, v: nat, f: nat, k: nat) {
    forall g :: f <= g < f + k && g < |use| ==> use[g] == User(d, v + g - f)
  }

  /** Only free frames, directory d, its tables, and the k frames from x on have changed; d keeps its use. */
  ghost predicate MapsOnly(mem: seq<Page>, use: seq<Use>, mem': seq<Page>, use': seq<Use>, d: nat, x: nat, k: nat) {
    && |mem| == |mem'| == |use| == |use'| && d < |use|
    && use'[d] == use[d] == Directory
    && (forall f :: 0 <= f < |mem| && !(x <= f < x + k) && use[f] != OnFreeList ==> use'[f] == use[f])
    && (forall f :: 0 <= f < |mem| && use[f] == OnFreeList ==>
         use'[f] == OnFreeList || (use'[f].Table? && use'[f].dir == d))
    && (forall f :: 0 <= f < |mem| && use[f] != OnFreeList && !PartOf(use[f], f, d) ==> mem'[f] == mem[f])
  }

  lemma MapsOnlySame(mem: seq<Page>, use: seq<Use>, d: nat)
    requires |mem| == |use| && d < |use| && use[d] == Directory
    ensures MapsOnly(mem, use, mem, use, d, 0, 0)
  {
  }

  lemma MapsOnlyThen(m0: seq<Page>, u0: seq<Use>, m1: seq<Page>, u1: seq<Use>, m2: seq<Page>, u2: seq<Use>, d: nat,
                     x: nat, k: nat, y: nat, j: nat)
    requires MapsOnly(m0, u0, m1, u1, d, x, k) && MapsOnly(m1, u1, m2, u2, d, y, j) && (k == 0 || j == 0 || y == x + k)
    requires HeldRange(u0, x, k) && HeldRange(u0, y, j) && forall f :: x <= f < x + k && f < |u1| ==> u1[f].User?
    ensures MapsOnly(m0, u0, m2, u2, d, if k == 0 then y else x, k + j)
  {
  }

  /** Entry i of directory page p is the only one that may have changed, and only from absent to present. */
  predicate OneTable(p: Page, p': Page, i: nat)
    requires i < NENTRIES
  {
    && Present(p'[i]) && (Present(p[i]) ==> p'[i] == p[i])
    && (forall j :: 0 <= j < NENTRIES && j != i ==> p'[j] == p[j])
  }

  /** How many of the entries lo..hi of a directory page have no table yet. */
  function Missing(p: Page, lo: nat, hi: nat): (n: nat)
    requires hi <= NENTRIES
    decreases hi
  {
    if hi <= lo then 0 else Missing(p, lo, hi - 1) + if Present(p[hi - 1]) then 0 else 1
  }

  datatype MapResult = Mapped | NoMemory | Remap

  /** The translations once n pages of d from page v on map frames from f on. */
  ghost predicate Ranged(mem: seq<Page>, use: seq<Use>, mem': seq<Page>, d: nat, v: nat, n: nat, f: nat, flags: nat) {
    && |mem| == |mem'| == |use| && f + n <= ALLPAGES && flags < PGSIZE
    && forall e, u :: 0 <= e < |mem| && use[e] == Directory && 0 <= u < ALLPAGES ==>
         Lookup(mem', e, u) == if e == d && v <= u < v + n then Entry(f + u - v, flags) else Lookup(mem, e, u)
  }

  /** A new table for virtual page v, from frame t off the head of the free list. */
  lemma TableStep(mem: seq<Page>, use: seq<Use>, head: nat, free: seq<nat>, d: nat, i: nat, t: nat)
    requires MemOk(mem, use, head, free) && d < |mem| && use[d] == Directory && i < NENTRIES && t < |mem| &&
             use[t] == Kernel
    requires !Present(mem[d][i])
    ensures var mem' := mem[t := ZERO_PAGE][d := mem[d][i := Entry(t, PTE_P + PTE_W + PTE_U)]];
            && MemOk(mem', use[t := Table(d, i)], head, free) && SameLookups(mem, mem', use)
  {
    FillKeeps(mem, use, head, free, t, ZERO_PAGE);
    var mem1 := mem[t := ZERO_PAGE];
    NewTable(mem1, use, d, i, t);
    var mem' := mem1[d := mem1[d][i := Entry(t, PTE_P + PTE_W + PTE_U)]];
    FreeListFrame(mem1, use, mem', use[t := Table(d, i)], head, free);
    SameLookupsThen(mem, mem1, mem', use);
  }

  lemma SameLookupsThen(m0: seq<Page>, m1: seq<Page>, m2: seq<Page>, use: seq<Use>)
    requires SameLookups(m0, m1, use) && SameLookups(m1, m2, use)
    ensures SameLookups(m0, m2, use)
  {
  }

  lemma DirFacts(mem: seq<Page>, use: seq<Use>, head: nat, free: seq<nat>, d: nat, v: nat)
    requires MemOk(mem, use, head, free) && d < |mem| && use[d] == Directory && v < ALLPAGES
    ensures HasTable(mem, d, v) <==> Present(mem[d][v / NENTRIES])
    ensures HasTable(mem, d, v) ==> use[FrameOf(mem[d][v / NENTRIES])] == Table(d, v / NENTRIES)
    ensures HasTable(mem, d, v) ==> Lookup(mem, d, v) == mem[FrameOf(mem[d][v / NENTRIES])][v % NENTRIES]
    ensures !HasTable(mem, d, v) ==> Lookup(mem, d, v) == 0
  {
    assert SpaceOk(mem, use, d);
    assert DirEntryOk(mem, use, d, v / NENTRIES);
  }

  /** Storing an entry for a page the kernel half covers, or for a frame the kernel holds. */
  lemma EntryStep(mem: seq<Page>, use: seq<Use>, head: nat, free: seq<nat>, d: nat, v: nat, f: nat, flags: nat)
    requires MemOk(mem, use, head, free) && d < |mem| && use[d] == Directory && v < ALLPAGES && HasTable(mem, d, v)
    requires !Present(Lookup(mem, d, v)) && f < ALLPAGES && flags < PGSIZE
    requires v < USERPAGES ==> f < |mem| && use[f] == Kernel
    ensures var mem' := StoreEntry(mem, d, v, Entry(f, flags));
            var use' := if v < USERPAGES then use[f := User(d, v)] else use;
            MemOk(mem', use', head, free) && Ranged(mem, use, mem', d, v, 1, f, flags) && mem'[d] == mem[d]
            && MapsOnly(mem, use, mem', use', d, f, UserPart(v, 1))
  {
    var mem' := StoreEntry(mem, d, v, Entry(f, flags));
    var use' := if v < USERPAGES then use[f := User(d, v)] else use;
    StoreLookups(mem, use, d, v, Entry(f, flags));
    if v < USERPAGES {
      MapUser(mem, use, d, v, f, flags);
    } else {
      MapKernel(mem, use, d, v, Entry(f, flags));
    }
    FreeListFrame(mem, use, mem', use', head, free);
  }

  /** One past the last directory entry needed for n pages from page v on. */
  function PdxEnd(v: nat, n: nat): (i: nat)
    ensures v / NENTRIES <= i && (v + n <= ALLPAGES && v < ALLPAGES ==> i <= NENTRIES)
  {
    if n == 0 then v / NENTRIES else (v + n - 1) / NENTRIES + 1
  }

  /** Entries lo..hi of a directory page are present now; nothing else has changed. */
  predicate TablesMade(p: Page, p': Page, lo: nat, hi: nat) {
    forall j :: 0 <= j < NENTRIES ==>
      if lo <= j < hi then Present(p'[j]) && (Present(p[j]) ==> p'[j] == p[j]) else p'[j] == p[j]
  }

  lemma PdxStep(v: nat, n: nat)
    requires v + n < ALLPAGES
    ensures var i := (v + n) / NENTRIES;
            i < NENTRIES && PdxEnd(v, n + 1) == i + 1 && (PdxEnd(v, n) == i || (n > 0 && PdxEnd(v, n) == i + 1))
  {
    if n > 0 {
      assert (v + n) / 1024 - 1 <= (v + n - 1) / 1024 <= (v + n) / 1024;
    }
  }

  lemma MissingMore(p: Page, lo: nat, mid: nat, hi: nat)
    requires mid <= hi <= NENTRIES
    ensures Missing(p, lo, mid) <= Missing(p, lo, hi)
    decreases hi
  {
    if mid < hi {
      MissingMore(p, lo, mid, hi - 1);
    }
  }

  /** n pages of d from page v have been mapped to frames from f on, and this is all that has happened;
      each missing table took a frame off the free list. */
  ghost predicate RangeDone(mem: seq<Page>, use: seq<Use>, free: seq<nat>, mem': seq<Page>, use': seq<Use>,
                            free': seq<nat>,
                            d: nat, v: nat, n: nat, f: nat, flags: nat) {
    && v < ALLPAGES && v + n <= ALLPAGES
    && Ranged(mem, use, mem', d, v, n, f, flags)
    && MapsOnly(mem, use, mem', use', d, f, UserPart(v, n))
    && UserRange(use', d, v, f, UserPart(v, n))
    && TablesMade(mem[d], mem'[d], v / NENTRIES, PdxEnd(v, n))
    && |free'| + Missing(mem[d], v / NENTRIES, PdxEnd(v, n)) == |free|
  }

  /** The frames for the pages that are still to be mapped. */
  lemma HeldNext(m0: seq<Page>, u0: seq<Use>, f0: seq<nat>, m1: seq<Page>, u1: seq<Use>, f1: seq<nat>, d: nat, v: nat,
                 n: nat, f: nat, flags: nat)
    requires RangeDone(m0, u0, f0, m1, u1, f1, d, v, 1, f, flags) && HeldRange(u0, f, UserPart(v, n)) && n > 0
    ensures HeldRange(u1, f + 1, UserPart(v + 1, n - 1))
  {
  }

  lemma HeldNone(use: seq<Use>, f: nat, v: nat, n: nat)
    requires v >= USERPAGES
    ensures HeldRange(use, f, UserPart(v, n))
  {
  }

  lemma HeldLess(use: seq<Use>, f: nat, v: nat, m: nat, n: nat)
    requires HeldRange(use, f, UserPart(v, n)) && 0 < m <= n
    ensures HeldRange(use, f, UserPart(v, m)) && (v < USERPAGES ==> f < |use| && use[f] == Kernel)
  {
  }

  lemma RangeNone(mem: seq<Page>, use: seq<Use>, free: seq<nat>, d: nat, v: nat, f: nat, flags: nat)
    requires |mem| == |use| && d < |mem| && use[d] == Directory && v < ALLPAGES && f <= ALLPAGES && flags < PGSIZE
    ensures RangeDone(mem, use, free, mem, use, free, d, v, 0, f, flags)
  {
  }

  /** One more page. */
  lemma RangeMore(m0: seq<Page>, u0: seq<Use>, f0: seq<nat>, m1: seq<Page>, u1: seq<Use>, f1: seq<nat>,
                  m2: seq<Page>, u2: seq<Use>, f2: seq<nat>, d: nat, v: nat, n: nat, f: nat, flags: nat)
    requires RangeDone(m0, u0, f0, m1, u1, f1, d, v, n, f, flags)
    requires RangeDone(m1, u1, f1, m2, u2, f2, d, v + n, 1, f + n, flags)
    requires HeldRange(u0, f, UserPart(v, n + 1))
    ensures RangeDone(m0, u0, f0, m2, u2, f2, d, v, n + 1, f, flags)
  {
    hide Ranged, Missing, MapsOnly, UserRange, UserPart, HeldRange;
    PdxStep(v, n);
    UsersMore(m0, u0, m1, u1, m2, u2, d, v, n, f);
    RangedMore(m0, u0, m1, u1, m2, d, v, n, f, flags);
    var i := (v + n) / NENTRIES;
    MissingOne(m1[d], i);
    MissingStep(m0[d], v / NENTRIES, i);
  }

  lemma UsersMore(m0: seq<Page>, u0: seq<Use>, m1: seq<Page>, u1: seq<Use>, m2: seq<Page>, u2: seq<Use>, d: nat, v: nat,
                  n: nat, f: nat)
    requires MapsOnly(m0, u0, m1, u1, d, f, UserPart(v, n)) && UserRange(u1, d, v, f, UserPart(v, n))
    requires MapsOnly(m1, u1, m2, u2, d, f + n, UserPart(v + n, 1))
    requires UserRange(u2, d, v + n, f + n, UserPart(v + n, 1))
    requires HeldRange(u0, f, UserPart(v, n + 1))
    ensures MapsOnly(m0, u0, m2, u2, d, f, UserPart(v, n + 1)) && UserRange(u2, d, v, f, UserPart(v, n + 1))
    ensures |m0| == |m1| == |m2| == |u0| == |u1| && d < |m0|
    ensures forall e :: 0 <= e < |u0| && u0[e] == Directory ==> u1[e] == Directory
  {
    MapsOnlyThen(m0, u0, m1, u1, m2, u2, d, f, UserPart(v, n), f + n, UserPart(v + n, 1));
  }

  /** Where mapping n absent pages stops is decided by the free frames and the missing tables. */
  lemma MapExact(m0: seq<Page>, u0: seq<Use>, f0: seq<nat>, m1: seq<Page>, u1: seq<Use>, f1: seq<nat>,
                 d: nat, v: nat, done: nat, n: nat, f: nat, flags: nat, r: MapResult)
    requires RangeDone(m0, u0, f0, m1, u1, f1, d, v, done, f, flags) && done <= n && v + n <= ALLPAGES
    requires r.Mapped? <==> done == n
    requires r.Remap? ==> Present(Lookup(m1, d, v + done))
    requires r.NoMemory? ==> f1 == [] && !Present(m1[d][(v + done) / NENTRIES])
    ensures (forall u :: v <= u < v + n ==> !Present(Lookup(m0, d, u))) ==>
              (r.Mapped? <==> |f0| >= Missing(m0[d], v / NENTRIES, PdxEnd(v, n)))
  {
    if r.NoMemory? {
      PdxStep(v, done);
      var i := (v + done) / NENTRIES;
      MissingStep(m0[d], v / NENTRIES, i);
      PdxGrows(v, done + 1, n);
      MissingMore(m0[d], v / NENTRIES, i + 1, PdxEnd(v, n));
    }
  }

  lemma PdxGrows(v: nat, m: nat, n: nat)
    requires 0 < m <= n
    ensures PdxEnd(v, m) <= PdxEnd(v, n)
  {
  }

  lemma RangedMore(m0: seq<Page>, u0: seq<Use>, m1: seq<Page>, u1: seq<Use>, m2: seq<Page>, d: nat, v: nat, n: nat,
                   f: nat, flags: nat)
    requires Ranged(m0, u0, m1, d, v, n, f, flags) && Ranged(m1, u1, m2, d, v + n, 1, f + n, flags) && |u0| == |u1|
    requires forall e :: 0 <= e < |u0| && u0[e] == Directory ==> u1[e] == Directory
    ensures Ranged(m0, u0, m2, d, v, n + 1, f, flags)
  {
  }

  lemma MissingOne(p: Page, i: nat)
    requires i < NENTRIES
    ensures Missing(p, i, i + 1) == if Present(p[i]) then 0 else 1
  {
  }

  lemma MissingStep(p: Page, lo: nat, i: nat)
    requires lo <= i < NENTRIES
    ensures Missing(p, lo, i + 1) == Missing(p, lo, i) + if Present(p[i]) then 0 else 1
  {
  }

  // The kernel half of an address space

  const EXTMEM: nat := 0x10_0000
  const PHYSTOP: nat := 0xE00_0000
  const KERNLINK: nat := KERNBASE + EXTMEM
  const DEVSPACE: nat := 0xFE00_0000

  datatype Kmap = Kmap(virt: nat, physStart: nat, physEnd: nat, perm: nat)

  /** The linker puts the symbol data on a page boundary after the kernel's text. */
  predicate DataOk(data: nat) {
    data % PGSIZE == 0 && KERNLINK < data < KERNBASE + PHYSTOP
  }

  /** The table kmap of vm.c. */
  function KmapTable(data: nat): (t: seq<Kmap>)
    requires DataOk(data)
    ensures |t| == 4
  {
    [Kmap(KERNBASE, 0, EXTMEM, PTE_W),
     Kmap(KERNLINK, KERNLINK - KERNBASE, data - KERNBASE, 0),
     Kmap(data, data - KERNBASE, PHYSTOP, PTE_W),
     Kmap(DEVSPACE, DEVSPACE, 0, PTE_W)]
  }

  /** The translation of virtual page v in every address space, after the first k entries of kmap: physical
      memory from 0 up at KERNBASE, its text read-only, and the devices at their own addresses. */
  function KernelEntry(data: nat, k: nat, v: nat): (w: word)
    requires DataOk(data) && v < ALLPAGES
  {
    var text := (data - KERNBASE) / PGSIZE;
    if v < USERPAGES then 0
    else if v < USERPAGES + 0x100 then if k > 0 then Entry(v - USERPAGES, PTE_W) else 0
    else if v < USERPAGES + text then if k > 1 then Entry(v - USERPAGES, 0) else 0
    else if v < USERPAGES + 0xE000 then if k > 2 then Entry(v - USERPAGES, PTE_W) else 0
    else if v >= 0xF_E000 && k > 3 then Entry(v, PTE_W) else 0
  }

  /** Tables below the device space, after the first k entries. */
  function LowTables(data: nat, k: nat): (n: nat)
    requires DataOk(data)
    ensures n <= 56
  {
    if k == 0 then 0 else if k == 1 then 1 else if k == 2 then ((data - KERNBASE) / PGSIZE - 1) / NENTRIES + 1 else 56
  }

  predicate TablesAt(p: Page, low: nat, devices: bool) {
    forall j :: 0 <= j < NENTRIES ==> (Present(p[j]) <==> 512 <= j < 512 + low || (devices && 1016 <= j))
  }

  lemma {:induction false} MissingFrom(p: Page, lo: nat, q: nat, hi: nat)
    requires lo <= q <= hi <= NENTRIES && forall j :: lo <= j < hi ==> (Present(p[j]) <==> j < q)
    ensures Missing(p, lo, hi) == hi - q
    decreases hi
  {
    if q < hi {
      MissingFrom(p, lo, q, hi - 1);
    } else if lo < hi {
      MissingFrom(p, lo, q - 1, hi - 1);
    }
  }

  /** The address space of d is that of the kernel alone, so far as k entries of kmap go; f0 frames were free
      before d was made. */
  ghost predicate KernelSpace(mem: seq<Page>, use: seq<Use>, free: seq<nat>, d: nat, data: nat, k: nat, f0: nat) {
    && DataOk(data) && k <= 4 && |use| == |mem| && d < |mem| && use[d] == Directory
    && (forall v :: 0 <= v < ALLPAGES ==> Lookup(mem, d, v) == KernelEntry(data, k, v))
    && TablesAt(mem[d], LowTables(data, k), k == 4)
    && |free| + 1 + LowTables(data, k) + (if k == 4 then 8 else 0) == f0
  }

  /** Page numbers of entry k of kmap: first page, number of pages, first frame. */
  function KmapPages(data: nat, k: nat): (r: (nat, nat, nat))
    requires DataOk(data) && k < 4
  {
    var text := (data - KERNBASE) / PGSIZE;
    if k == 0 then (USERPAGES, 0x100, 0) else if k == 1 then (USERPAGES + 0x100, text - 0x100, 0x100)
    else if k == 2 then (USERPAGES + text, 0xE000 - text, text) else (0xF_E000, 0x2000, 0xF_E000)
  }

  lemma KmapRange(data: nat, k: nat)
    requires DataOk(data) && k < 4
    ensures var m, (v, n, f) := KmapTable(data)[k], KmapPages(data, k);
            var size := (m.physEnd - m.physStart) % WORDMAX;
            && size > 0 && m.virt + size <= WORDMAX && m.physStart % PGSIZE == 0 && m.perm < PGSIZE
            && m.virt / PGSIZE == v && (m.virt + size - 1) / PGSIZE == v + n - 1 && m.physStart / PGSIZE == f
            && n > 0 && USERPAGES <= v && v + n <= ALLPAGES && f + n <= ALLPAGES
  {
    var text := (data - KERNBASE) / PGSIZE;
    assert data == KERNBASE + text * 4096;
  }

  /** Mapping entry k of kmap. */
  lemma KmapStep(m0: seq<Page>, u0: seq<Use>, f0: seq<nat>, m1: seq<Page>, u1: seq<Use>, f1: seq<nat>, d: nat,
                 data: nat, k: nat, n0: nat)
    requires k < 4 && KernelSpace(m0, u0, f0, d, data, k, n0)
    requires RangeDone(m0, u0, f0, m1, u1, f1, d, KmapPages(data, k).0, KmapPages(data, k).1, KmapPages(data, k).2,
             KmapTable(data)[k].perm)
    ensures KernelSpace(m1, u1, f1, d, data, k + 1, n0)
  {
    KmapRange(data, k);
    KmapLookups(m0, u0, m1, d, data, k);
    KmapTables(m0[d], m1[d], data, k);
  }

  lemma KmapLookups(m0: seq<Page>, u0: seq<Use>, m1: seq<Page>, d: nat, data: nat, k: nat)
    requires DataOk(data) && k < 4 && d < |m0| == |u0| && u0[d] == Directory
    requires forall v :: 0 <= v < ALLPAGES ==> Lookup(m0, d, v) == KernelEntry(data, k, v)
    requires Ranged(m0, u0, m1, d, KmapPages(data, k).0, KmapPages(data, k).1, KmapPages(data, k).2,
             KmapTable(data)[k].perm)
    ensures forall v :: 0 <= v < ALLPAGES ==> Lookup(m1, d, v) == KernelEntry(data, k + 1, v)
  {
    KmapRange(data, k);
  }

  lemma KmapTables(p: Page, p': Page, data: nat, k: nat)
    requires DataOk(data) && k < 4 && TablesAt(p, LowTables(data, k), k == 4)
    requires var (v, n, f) := KmapPages(data, k); TablesMade(p, p', v / NENTRIES, PdxEnd(v, n))
    ensures TablesAt(p', LowTables(data, k + 1), k + 1 == 4)
    ensures var (v, n, f) := KmapPages(data, k);
            PdxEnd(v, n) <= NENTRIES &&
            Missing(p, v / NENTRIES, PdxEnd(v, n)) + LowTables(data, k) ==
                LowTables(data, k + 1) + (if k == 3 then 8 else 0)
  {
    KmapRange(data, k);
    var (v, n, f) := KmapPages(data, k);
    MissingFrom(p, v / NENTRIES, if k == 3 then 1016 else 512 + LowTables(data, k), PdxEnd(v, n));
  }

  /** Out of frames in the middle of entry k: there were fewer than 65. */
  lemma KmapShort(m0: seq<Page>, u0: seq<Use>, f0: seq<nat>, m1: seq<Page>, u1: seq<Use>, d: nat, data: nat, k: nat,
                  n0: nat, done: nat)
    requires k < 4 && KernelSpace(m0, u0, f0, d, data, k, n0)
    requires done < KmapPages(data, k).1
    requires RangeDone(m0, u0, f0, m1, u1, [], d, KmapPages(data, k).0, done, KmapPages(data, k).2,
             KmapTable(data)[k].perm)
    requires !Present(m1[d][(KmapPages(data, k).0 + done) / NENTRIES])
    ensures n0 < 65
  {
    KmapRange(data, k);
    var (v, n, f) := KmapPages(data, k);
    PdxStep(v, done);
    var i := (v + done) / NENTRIES;
    assert PdxEnd(v, done) == i;
    if k == 3 {
      MissingFrom(m0[d], v / NENTRIES, 1016, i);
    } else {
      MissingFrom(m0[d], v / NENTRIES, 512 + LowTables(data, k), i);
    }
  }

  lemma KmapNoRemap(m0: seq<Page>, u0: seq<Use>, f0: seq<nat>, m1: seq<Page>, u1: seq<Use>, f1: seq<nat>,
                    d: nat, data: nat, k: nat, n0: nat, done: nat)
    requires k < 4 && KernelSpace(m0, u0, f0, d, data, k, n0) && done < KmapPages(data, k).1
    requires RangeDone(m0, u0, f0, m1, u1, f1, d, KmapPages(data, k).0, done, KmapPages(data, k).2,
             KmapTable(data)[k].perm)
    ensures d < |m1| && KmapPages(data, k).0 + done < ALLPAGES && !Present(Lookup(m1, d, KmapPages(data, k).0 + done))
  {
    KmapRange(data, k);
  }

  /** A new address space at d, made only of frames that were free. */
  ghost predicate NewSpace(m0: seq<Page>, u0: seq<Use>, m1: seq<Page>, u1: seq<Use>, d: nat) {
    && |m0| == |m1| == |u0| == |u1| && d < |u0| && u0[d] == OnFreeList && u1[d] == Directory
    && (forall f :: 0 <= f < |u0| && u0[f] != OnFreeList ==> u1[f] == u0[f] && m1[f] == m0[f])
    && (forall f :: 0 <= f < |u0| && u0[f] == OnFreeList ==> u1[f] == OnFreeList || OfSpace(u1[f], f, d))
  }

  /** What setupkvm returns and leaves behind: the kernel's space exactly when 65 frames are free, and otherwise every
      free frame taken by a space that nobody is told of. */
  ghost predicate SetupOutcome(m0: seq<Page>, u0: seq<Use>, f0: seq<nat>, m1: seq<Page>, u1: seq<Use>, f1: seq<nat>,
                               data: nat, r: Option<nat>) {
    && (r.Some? <==> |f0| >= 65)
    && (r.None? ==> f1 == [])
    && (f0 == [] ==> m1 == m0 && u1 == u0)
    && (f0 != [] ==> NewSpace(m0, u0, m1, u1, f0[0]))
    && (r.Some? ==> r.value == f0[0] && KernelSpace(m1, u1, f1, r.value, data, 4, |f0|))
  }

  /** With 1 to 64 frames free, setupkvm fails and keeps them all. */
  lemma SetupKeeps(m0: seq<Page>, u0: seq<Use>, h0: nat, f0: seq<nat>, m1: seq<Page>, u1: seq<Use>, h1: nat,
                   f1: seq<nat>, data: nat, r: Option<nat>)
    requires SetupOutcome(m0, u0, f0, m1, u1, f1, data, r) && MemOk(m0, u0, h0, f0) && MemOk(m1, u1, h1, f1)
    requires 0 < |f0| < 65
    ensures r.None? && f1 == [] && u1[f0[0]] == Directory
    ensures forall f: nat :: f in f0 ==> f < |u1| && OfSpace(u1[f], f, f0[0])
  {
  }

  lemma NewSpaceMaps(m0: seq<Page>, u0: seq<Use>, m1: seq<Page>, u1: seq<Use>, m2: seq<Page>, u2: seq<Use>, d: nat)
    requires NewSpace(m0, u0, m1, u1, d) && MapsOnly(m1, u1, m2, u2, d, 0, 0)
    requires NoneOf(u0, d)
    ensures NewSpace(m0, u0, m2, u2, d)
  {
  }

  /** No frame in use belongs to address space d. */
  predicate NoneOf(use: seq<Use>, d: nat) {
    forall f :: 0 <= f < |use| && use[f] != OnFreeList ==> !OfSpace(use[f], f, d)
  }

  lemma NoPartOfFree(mem: seq<Page>, use: seq<Use>, head: nat, free: seq<nat>, d: nat)
    requires MemOk(mem, use, head, free) && d < |use| && use[d] == OnFreeList
    ensures NoneOf(use, d)
  {
    forall f | 0 <= f < |use| && use[f] != OnFreeList ensures !OfSpace(use[f], f, d) {
      assert FrameOk(mem, use, f);
    }
  }

  /** A frame taken off the free list and zeroed becomes an empty directory. */
  lemma DirectoryStep(mem: seq<Page>, use: seq<Use>, head: nat, free: seq<nat>, d: nat)
    requires MemOk(mem, use, head, free) && d < |mem| && use[d] == Kernel && mem[d] == ZERO_PAGE
    ensures MemOk(mem, use[d := Directory], head, free) && forall v :: 0 <= v < ALLPAGES ==> Lookup(mem, d, v) == 0
  {
    NewDirectory(mem, use, d);
    FreeListFrame(mem, use, mem, use[d := Directory], head, free);
  }

  /** The frames of the kernel image are never handed out, and memory ends below PHYSTOP. */
  ghost predicate KernelImage(use: seq<Use>, end: nat) {
    && KERNBASE < end && |use| * PGSIZE <= PHYSTOP
    && forall f :: 0 <= f < |use| && Kva(f) < end ==> use[f] == Reserved
  }

  lemma ImageStep(use: seq<Use>, end: nat, f: nat, u: Use)
    requires KernelImage(use, end) && f < |use| && use[f] != Reserved
    ensures KernelImage(use[f := u], end)
  {
  }

  // Which pages deallocuvm looks at

  /** Starting at page a, the walk up to page hi looks at page v. A page without a table makes the walk jump
      by a whole table's worth of pages. */
  predicate Visited(dir: Page, a: nat, hi: nat, v: nat)
    requires hi <= USERPAGES
    decreases hi - a
  {
    && a < hi
    && if Present(dir[a / NENTRIES]) then v == a || Visited(dir, a + 1, hi, v) else Visited(dir, a + NENTRIES, hi, v)
  }

  lemma {:induction false} VisitedWithin(dir: Page, a: nat, hi: nat, v: nat)
    requires hi <= USERPAGES && Visited(dir, a, hi, v)
    ensures a <= v < hi && Present(dir[v / NENTRIES])
    decreases hi - a
  {
    if Present(dir[a / NENTRIES]) {
      if v != a {
        VisitedWithin(dir, a + 1, hi, v);
      }
    } else {
      VisitedWithin(dir, a + NENTRIES, hi, v);
    }
  }

  /** From a page with a table, or from the first page of a table, the walk misses nothing. */
  lemma {:induction false} VisitsAll(dir: Page, a: nat, hi: nat, v: nat)
    requires a <= v < hi <= USERPAGES && Present(dir[v / NENTRIES]) && (a % NENTRIES == 0 || Present(dir[a / NENTRIES]))
    ensures Visited(dir, a, hi, v)
    decreases hi - a
  {
    if v != a {
      if Present(dir[a / NENTRIES]) {
        assert (a + 1) % 1024 == 0 || (a + 1) / 1024 == a / 1024;
        VisitsAll(dir, a + 1, hi, v);
      } else {
        assert v / 1024 > a / 1024;
        VisitsAll(dir, a + NENTRIES, hi, v);
      }
    }
  }

  predicate TableBetween(dir: Page, lo: nat, v: nat)
    requires v / NENTRIES <= NENTRIES
  {
    exists t :: lo / NENTRIES <= t < v / NENTRIES && Present(dir[t])
  }

  /** The walk from lo jumps over page v: lo has no table, v's is the first one after it, and v comes earlier in
      its table than lo would in its own. */
  predicate SkippedOver(dir: Page, lo: nat, v: nat)
    requires lo < USERPAGES && v < USERPAGES
  {
    !Present(dir[lo / NENTRIES]) && v % NENTRIES < lo % NENTRIES && !TableBetween(dir, lo, v)
  }

  /** Exactly the pages of the range that have a table and are not skipped over are looked at. */
  lemma {:induction false} VisitedExactly(dir: Page, a: nat, hi: nat, v: nat)
    requires a <= v < hi <= USERPAGES
    ensures Visited(dir, a, hi, v) <==> Present(dir[v / NENTRIES]) && !SkippedOver(dir, a, v)
    decreases hi - a
  {
    if !Present(dir[v / NENTRIES]) {
      if Visited(dir, a, hi, v) {
        VisitedWithin(dir, a, hi, v);
      }
    } else if Present(dir[a / NENTRIES]) {
      VisitsAll(dir, a, hi, v);
    } else if v < a + NENTRIES {
      if Visited(dir, a + NENTRIES, hi, v) {
        VisitedWithin(dir, a + NENTRIES, hi, v);
      }
      NextTable(a, v);
    } else {
      VisitedExactly(dir, a + NENTRIES, hi, v);
      assert (a + 1024) / 1024 == a / 1024 + 1 && (a + 1024) % 1024 == a % 1024;
      if t :| a / NENTRIES <= t < v / NENTRIES && Present(dir[t]) {
        assert a / NENTRIES + 1 <= t;
      }
    }
  }

  lemma NextTable(a: nat, v: nat)
    requires a <= v < a + NENTRIES
    ensures v / NENTRIES == a / NENTRIES || (v / NENTRIES == a / NENTRIES + 1 && v % NENTRIES < a % NENTRIES)
  {
    assert v == v / 1024 * 1024 + v % 1024 && a == a / 1024 * 1024 + a % 1024;
  }

  /** A user page of d that the walk has looked at before reaching page a. */
  predicate Gone(u: Use, dir: Page, d: nat, lo: nat, hi: nat, a: nat)
    requires hi <= USERPAGES
  {
    u.User? && u.dir == d && u.vpn < a && Visited(dir, lo, hi, u.vpn)
  }

  ghost predicate Cleared(m0: seq<Page>, u0: seq<Use>, m1: seq<Page>, d: nat, lo: nat, hi: nat, a: nat)
    requires |m0| == |m1| == |u0| && d < |m0| && hi <= USERPAGES
  {
    forall e, u :: 0 <= e < |m0| && u0[e] == Directory && 0 <= u < ALLPAGES ==>
      Lookup(m1, e, u) ==
      if e == d && u < a && Visited(m0[d], lo, hi, u) && Present(Lookup(m0, d, u)) then 0 else Lookup(m0, e, u)
  }

  /** The pages of d that the walk from lo to hi looks at before page a are unmapped and their frames free;
      nothing else has changed. */
  ghost predicate Dropped(m0: seq<Page>, u0: seq<Use>, m1: seq<Page>, u1: seq<Use>, d: nat, lo: nat, hi: nat, a: nat) {
    && |m0| == |m1| == |u0| == |u1| && d < |u0| && hi <= USERPAGES && u0[d] == Directory && m1[d] == m0[d]
    && (forall f :: 0 <= f < |u0| ==> u1[f] == if Gone(u0[f], m0[d], d, lo, hi, a) then OnFreeList else u0[f])
    && (forall f :: 0 <= f < |u0| && !Gone(u0[f], m0[d], d, lo, hi, a) && !(u0[f].Table? && u0[f].dir == d) ==>
         m1[f] == m0[f])
    && Cleared(m0, u0, m1, d, lo, hi, a)
  }

  /** The walk from lo has come to page a. */
  ghost predicate WalkAt(dir: Page, lo: nat, hi: nat, a: nat)
    requires hi <= USERPAGES
  {
    forall v :: a <= v < hi ==> (Visited(dir, lo, hi, v) <==> Visited(dir, a, hi, v))
  }

  lemma DropNone(mem: seq<Page>, use: seq<Use>, d: nat, lo: nat, hi: nat)
    requires |mem| == |use| && d < |use| && use[d] == Directory && hi <= USERPAGES
    ensures Dropped(mem, use, mem, use, d, lo, hi, lo) && WalkAt(mem[d], lo, hi, lo)
  {
    forall v: nat | Visited(mem[d], lo, hi, v) ensures v >= lo {
      VisitedWithin(mem[d], lo, hi, v);
    }
  }

  /** The walk moves on from a to b over pages that are not looked at or not mapped. */
  lemma DropMove(m0: seq<Page>, u0: seq<Use>, m1: seq<Page>, u1: seq<Use>, d: nat, lo: nat, hi: nat, a: nat, b: nat)
    requires Dropped(m0, u0, m1, u1, d, lo, hi, a) && MapOk(m0, u0) && a <= b
    requires forall v :: a <= v < b && v < hi ==> !Visited(m0[d], lo, hi, v) || !Present(Lookup(m0, d, v))
    ensures Dropped(m0, u0, m1, u1, d, lo, hi, b)
  {
    forall v: nat | Visited(m0[d], lo, hi, v) ensures v < hi {
      VisitedWithin(m0[d], lo, hi, v);
    }
    forall f | 0 <= f < |u0| ensures Gone(u0[f], m0[d], d, lo, hi, b) == Gone(u0[f], m0[d], d, lo, hi, a) {
      assert FrameOk(m0, u0, f);
    }
  }

  lemma WalkJump(dir: Page, lo: nat, hi: nat, a: nat)
    requires a < hi <= USERPAGES && WalkAt(dir, lo, hi, a) && !Present(dir[a / NENTRIES])
    ensures WalkAt(dir, lo, hi, a + NENTRIES)
    ensures forall v :: a <= v < a + NENTRIES && v < hi ==> !Visited(dir, lo, hi, v)
  {
    forall v | a <= v < a + NENTRIES && v < hi ensures !Visited(dir, lo, hi, v) {
      if Visited(dir, a + NENTRIES, hi, v) {
        VisitedWithin(dir, a + NENTRIES, hi, v);
      }
    }
  }

  lemma WalkNext(dir: Page, lo: nat, hi: nat, a: nat)
    requires a < hi <= USERPAGES && WalkAt(dir, lo, hi, a) && Present(dir[a / NENTRIES])
    ensures WalkAt(dir, lo, hi, a + 1) && Visited(dir, lo, hi, a)
  {
    assert Visited(dir, a, hi, a);
  }

  /** Unmapping page v leaves its frame with the kernel. */
  lemma UnmapStep(mem: seq<Page>, use: seq<Use>, head: nat, free: seq<nat>, d: nat, v: nat)
    requires MemOk(mem, use, head, free) && d < |mem| && use[d] == Directory && v < USERPAGES &&
             Present(Lookup(mem, d, v))
    ensures HasTable(mem, d, v) && use[FrameOf(mem[d][v / NENTRIES])] == Table(d, v / NENTRIES)
    ensures var f := FrameOf(Lookup(mem, d, v));
            var mem' := StoreEntry(mem, d, v, 0);
            && f < |mem| && use[f] == User(d, v) && MemOk(mem', use[f := Kernel], head, free) && mem'[d] == mem[d]
            && (forall e, u :: 0 <= e < |mem| && use[e] == Directory && 0 <= u < ALLPAGES ==>
                  Lookup(mem', e, u) == if e == d && u == v then 0 else Lookup(mem, e, u))
  {
    UnmapUser(mem, use, d, v);
    StoreLookups(mem, use, d, v, 0);
    FreeListFrame(mem, use, StoreEntry(mem, d, v, 0), use[FrameOf(Lookup(mem, d, v)) := Kernel], head, free);
  }

  /** Page a is unmapped and its frame f freed. */
  lemma DropPage(m0: seq<Page>, u0: seq<Use>, m1: seq<Page>, u1: seq<Use>, m2: seq<Page>, d: nat, lo: nat, hi: nat,
                 a: nat, f: nat)
    requires Dropped(m0, u0, m1, u1, d, lo, hi, a) && MapOk(m0, u0) && a < hi && Visited(m0[d], lo, hi, a)
    requires Present(Lookup(m1, d, a)) && f == FrameOf(Lookup(m1, d, a)) && f < |m0| && u1[f] == User(d, a)
    requires |m2| == |m1| && m2[d] == m1[d]
    requires forall g :: 0 <= g < |m1| && g != f && !(u1[g].Table? && u1[g].dir == d) ==> m2[g] == m1[g]
    requires forall e, u :: 0 <= e < |m1| && u1[e] == Directory && 0 <= u < ALLPAGES ==>
               Lookup(m2, e, u) == if e == d && u == a then 0 else Lookup(m1, e, u)
    ensures Dropped(m0, u0, m2, u1[f := OnFreeList], d, lo, hi, a + 1)
  {
    var u2 := u1[f := OnFreeList];
    assert u0[f] == User(d, a);
    assert Lookup(m1, d, a) == Lookup(m0, d, a);
    forall g | 0 <= g < |u0|
      ensures Gone(u0[g], m0[d], d, lo, hi, a + 1) <==> g == f || Gone(u0[g], m0[d], d, lo, hi, a)
    {
      assert FrameOk(m0, u0, g);
    }
    assert Cleared(m0, u0, m2, d, lo, hi, a + 1);
  }

  function Pages(size: nat): (n: nat) {
    (size + PGSIZE - 1) / PGSIZE
  }

  /** What becomes of a frame's use once the user pages of d, its first i tables, and (if done) d itself are free. */
  function UseAfter(u: Use, f: nat, d: nat, i: nat, done: bool): (r: Use) {
    if f == d then if done then OnFreeList else Kernel
    else if u.User? && u.dir == d then OnFreeList
    else if u.Table? && u.dir == d then if u.pdx < i then OnFreeList else Kernel
    else u
  }

  ghost predicate Freeing(m0: seq<Page>, u0: seq<Use>, m1: seq<Page>, u1: seq<Use>, d: nat, i: nat, done: bool) {
    && |m0| == |m1| == |u0| == |u1| && d < |u0| && u0[d] == Directory
    && (forall f :: 0 <= f < |u0| ==> u1[f] == UseAfter(u0[f], f, d, i, done))
    && (forall f :: 0 <= f < |u0| && !OfSpace(u0[f], f, d) ==> m1[f] == m0[f])
    && (!done ==> m1[d] == m0[d])
  }

  /** Every frame of address space d, and no other, has gone to the free list; every other frame is as before. */
  ghost predicate Released(m0: seq<Page>, u0: seq<Use>, m1: seq<Page>, u1: seq<Use>, d: nat) {
    && |m0| == |m1| == |u0| == |u1| && d < |u0| && u0[d] == Directory
    && (forall f :: 0 <= f < |u0| && OfSpace(u0[f], f, d) ==> u1[f] == OnFreeList)
    && (forall f :: 0 <= f < |u0| && !OfSpace(u0[f], f, d) ==> u1[f] == u0[f] && m1[f] == m0[f])
  }

  /** From page 0 the walk over the user half misses no mapped page. */
  lemma DroppedWhole(m0: seq<Page>, u0: seq<Use>, m1: seq<Page>, u1: seq<Use>, d: nat)
    requires Dropped(m0, u0, m1, u1, d, 0, USERPAGES, USERPAGES) && MapOk(m0, u0)
    ensures forall v :: 0 <= v < USERPAGES ==> !Present(Lookup(m1, d, v))
    ensures forall f :: 0 <= f < |u0| ==> u1[f] == if u0[f].User? && u0[f].dir == d then OnFreeList else u0[f]
  {
    hide MapOk;
    forall v | 0 <= v < USERPAGES ensures !Present(Lookup(m1, d, v)) {
      if Present(Lookup(m0, d, v)) {
        VisitsAll(m0[d], 0, USERPAGES, v);
      }
    }
    forall f | 0 <= f < |u0| && u0[f].User? && u0[f].dir == d ensures Gone(u0[f], m0[d], d, 0, USERPAGES, USERPAGES) {
      FrameFacts(m0, u0, f);
      VisitsAll(m0[d], 0, USERPAGES, u0[f].vpn);
    }
  }

  lemma FrameFacts(mem: seq<Page>, use: seq<Use>, f: nat)
    requires MapOk(mem, use) && f < |use|
    ensures FrameOk(mem, use, f)
  {
  }

  /** With no user page left, the directory and its tables are only kernel memory. */
  lemma RetireStep(m0: seq<Page>, u0: seq<Use>, m1: seq<Page>, u1: seq<Use>, head: nat, free: seq<nat>, d: nat)
    requires Dropped(m0, u0, m1, u1, d, 0, USERPAGES, USERPAGES) && MapOk(m0, u0) && MemOk(m1, u1, head, free)
    ensures MemOk(m1, Retired(u1, d), head, free) && Freeing(m0, u0, m1, Retired(u1, d), d, 0, false)
  {
    DroppedWhole(m0, u0, m1, u1, d);
    RetireDirectory(m1, u1, d);
    FreeListFrame(m1, u1, m1, Retired(u1, d), head, free);
  }

  lemma ImageRetired(use: seq<Use>, end: nat, d: nat)
    requires KernelImage(use, end) && d < |use| && use[d] == Directory
    ensures KernelImage(Retired(use, d), end)
  {
  }

  /** Table i of d, if there is one, and the frames that are it. */
  lemma TableFrame(m0: seq<Page>, u0: seq<Use>, m1: seq<Page>, u1: seq<Use>, d: nat, i: nat)
    requires MapOk(m0, u0) && Freeing(m0, u0, m1, u1, d, i, false) && i < NENTRIES
    ensures Present(m1[d][i]) ==>
              var t := FrameOf(m1[d][i]); t < |u0| && t != d && u0[t] == Table(d, i) && u1[t] == Kernel
    ensures !Present(m1[d][i]) ==> Freeing(m0, u0, m1, u1, d, i + 1, false)
    ensures forall f :: 0 <= f < |u0| && u0[f] == Table(d, i) ==> Present(m1[d][i]) && f == FrameOf(m1[d][i])
  {
    assert SpaceOk(m0, u0, d);
    assert DirEntryOk(m0, u0, d, i);
    forall f | 0 <= f < |u0| && u0[f] == Table(d, i) ensures Present(m1[d][i]) && f == FrameOf(m1[d][i]) {
      FrameFacts(m0, u0, f);
    }
  }

  lemma FreeingTable(m0: seq<Page>, u0: seq<Use>, m1: seq<Page>, u1: seq<Use>, m2: seq<Page>, d: nat, i: nat, t: nat)
    requires Freeing(m0, u0, m1, u1, d, i, false) && t < |u0| && t != d && u0[t] == Table(d, i)
    requires forall f :: 0 <= f < |u0| && u0[f] == Table(d, i) ==> f == t
    requires |m2| == |m1| && m2 == m1[t := m2[t]]
    ensures Freeing(m0, u0, m2, u1[t := OnFreeList], d, i + 1, false)
  {
  }

  lemma FreeingDone(m0: seq<Page>, u0: seq<Use>, m1: seq<Page>, u1: seq<Use>, m2: seq<Page>, d: nat)
    requires MapOk(m0, u0) && Freeing(m0, u0, m1, u1, d, NENTRIES, false) && |m2| == |m1| && m2 == m1[d := m2[d]]
    ensures Released(m0, u0, m2, u1[d := OnFreeList], d)
  {
    forall f | 0 <= f < |u0| && u0[f].Table? ensures u0[f].pdx < NENTRIES {
      FrameFacts(m0, u0, f);
    }
  }

  lemma FreeingFacts(m0: seq<Page>, u0: seq<Use>, m1: seq<Page>, u1: seq<Use>, d: nat, i: nat)
    requires Freeing(m0, u0, m1, u1, d, i, false)
    ensures |m0| == |m1| == |u0| == |u1| && d < |u0| && u1[d] == Kernel && m1[d] == m0[d]
  {
  }

  // Adding pages to an address space

  datatype AddResult = Added | NoFrame | NoTable | AlreadyMapped

  datatype Want = Want(flags: nat, contents: Page)

  /** Frames needed for n more pages from page v on: the pages and the missing tables. */
  function Need(dir: Page, v: nat, n: nat): (k: nat)
    requires v + n <= USERPAGES
  {
    n + Missing(dir, v / NENTRIES, PdxEnd(v, n))
  }

  /** What was in use stays so, and only the user pages of d from page v on may translate differently. */
  ghost predicate Kept(m0: seq<Page>, u0: seq<Use>, m1: seq<Page>, u1: seq<Use>, d: nat, v: nat) {
    && |m0| == |m1| == |u0| == |u1| && d < |u0| && u0[d] == Directory
    && (forall f :: 0 <= f < |u0| && u0[f] != OnFreeList ==> u1[f] == u0[f] && (PartOf(u0[f], f, d) || m1[f] == m0[f]))
    && (forall e, u :: 0 <= e < |u0| && u0[e] == Directory && 0 <= u < ALLPAGES && !(e == d && v <= u < USERPAGES) ==>
          Lookup(m1, e, u) == Lookup(m0, e, u))
  }

  /** Page u of d is mapped with the flags and the contents wanted, in a frame that was free. */
  predicate Fresh(u0: seq<Use>, m1: seq<Page>, u1: seq<Use>, d: nat, u: nat, w: Want)
    requires |u0| == |m1| == |u1| && d < |u0| && u < USERPAGES
  {
    var e := Lookup(m1, d, u);
    && Present(e) && FlagsOf(e) == WithP(w.flags) && FrameOf(e) < |u0|
    && u0[FrameOf(e)] == OnFreeList && u1[FrameOf(e)] == User(d, u) && m1[FrameOf(e)] == w.contents
  }

  /** A free frame is still free, or a table of d, or one of the user pages v..v + n of d. */
  ghost predicate Accounted(u0: seq<Use>, u1: seq<Use>, d: nat, v: nat, n: nat)
    requires |u0| == |u1|
  {
    forall f :: 0 <= f < |u0| && u0[f] == OnFreeList ==>
      u1[f] == OnFreeList || (u1[f].Table? && u1[f].dir == d) || (u1[f].User? && u1[f].dir == d &&
          v <= u1[f].vpn < v + n)
  }

  /** The address space of d has been given the pages wanted, from page v on; those after them are as they were. */
  ghost predicate Grown(m0: seq<Page>, u0: seq<Use>, f0: seq<nat>, m1: seq<Page>, u1: seq<Use>, f1: seq<nat>, d: nat,
                        v: nat, want: seq<Want>) {
    && Kept(m0, u0, m1, u1, d, v) && v + |want| <= USERPAGES
    && SameFrom(m0, m1, d, v + |want|)
    && (forall i :: 0 <= i < |want| ==> Fresh(u0, m1, u1, d, v + i, want[i]))
    && Accounted(u0, u1, d, v, |want|)
    && TablesMade(m0[d], m1[d], v / NENTRIES, PdxEnd(v, |want|))
    && |f1| + Need(m0[d], v, |want|) == |f0|
  }

  lemma GrownNone(mem: seq<Page>, use: seq<Use>, free: seq<nat>, d: nat, v: nat)
    requires |mem| == |use| && d < |use| && use[d] == Directory && v <= USERPAGES
    ensures Grown(mem, use, free, mem, use, free, d, v, [])
  {
  }

  /** A frame g off the free list, filled, and mapped as the next page. */
  ghost predicate AddedPage(m1: seq<Page>, u1: seq<Use>, f1: seq<nat>, m2: seq<Page>, u2: seq<Use>, f2: seq<nat>,
                            d: nat, u: nat, g: nat, w: Want) {
    && g < |m1| == |u1| && f1 != [] && u1[g] == OnFreeList && w.flags < PGSIZE && u < USERPAGES
    && SameLookups(m1, m1[g := w.contents], u1[g := Kernel])
    && RangeDone(m1[g := w.contents], u1[g := Kernel], f1[1..], m2, u2, f2, d, u, 1, g, w.flags)
  }

  lemma AddedFacts(m1: seq<Page>, u1: seq<Use>, f1: seq<nat>, m2: seq<Page>, u2: seq<Use>, f2: seq<nat>, d: nat, u: nat,
                   g: nat, w: Want)
    requires AddedPage(m1, u1, f1, m2, u2, f2, d, u, g, w)
    ensures |m1| == |m2| == |u1| == |u2| && d < |u1| && d != g && u1[d] == Directory && g < |u1| &&
            u1[g] == OnFreeList && g < ALLPAGES && u < USERPAGES && w.flags < PGSIZE
    ensures forall f :: 0 <= f < |u1| && u1[f] != OnFreeList ==>
              u2[f] == u1[f] && (PartOf(u1[f], f, d) || m2[f] == m1[f])
    ensures forall f :: 0 <= f < |u1| && u1[f] == OnFreeList && f != g ==>
              u2[f] == OnFreeList || (u2[f].Table? && u2[f].dir == d)
    ensures u2[g] == User(d, u) && m2[g] == w.contents
    ensures forall e, x :: 0 <= e < |u1| && u1[e] == Directory && 0 <= x < ALLPAGES ==>
              Lookup(m2, e, x) == if e == d && x == u then Entry(g, w.flags) else Lookup(m1, e, x)
    ensures TablesMade(m1[d], m2[d], u / NENTRIES, u / NENTRIES + 1)
    ensures |f2| + 1 + (if Present(m1[d][u / NENTRIES]) then 0 else 1) == |f1|
  {
    MissingOne(m1[d], u / NENTRIES);
  }

  lemma KeptMore(m0: seq<Page>, u0: seq<Use>, m1: seq<Page>, u1: seq<Use>, f1: seq<nat>,
                 m2: seq<Page>, u2: seq<Use>, f2: seq<nat>, d: nat, v: nat, n: nat, g: nat, w: Want)
    requires Kept(m0, u0, m1, u1, d, v) && Accounted(u0, u1, d, v, n) &&
             AddedPage(m1, u1, f1, m2, u2, f2, d, v + n, g, w)
    ensures Kept(m0, u0, m2, u2, d, v) && Accounted(u0, u2, d, v, n + 1) && g < |u0| && u0[g] == OnFreeList
  {
    hide AddedPage;
    AddedFacts(m1, u1, f1, m2, u2, f2, d, v + n, g, w);
  }

  lemma FreshMore(u0: seq<Use>, m1: seq<Page>, u1: seq<Use>, f1: seq<nat>, m2: seq<Page>, u2: seq<Use>, f2: seq<nat>,
                  d: nat, u: nat, g: nat, w: Want)
    requires AddedPage(m1, u1, f1, m2, u2, f2, d, u, g, w) && |u0| == |u1| && g < |u0| && u0[g] == OnFreeList
    ensures |m2| == |u2| == |u0| && d < |u0| && Fresh(u0, m2, u2, d, u, w)
    ensures |m1| == |u1|
    ensures forall x, z :: 0 <= x < USERPAGES && x != u && Fresh(u0, m1, u1, d, x, z) ==> Fresh(u0, m2, u2, d, x, z)
    ensures forall x :: 0 <= x < USERPAGES ==> (Present(Lookup(m2, d, x)) <==> x == u || Present(Lookup(m1, d, x)))
  {
    hide AddedPage;
    AddedFacts(m1, u1, f1, m2, u2, f2, d, u, g, w);
  }

  lemma TablesMore(p0: Page, p1: Page, p2: Page, v: nat, n: nat)
    requires v + n < USERPAGES && TablesMade(p0, p1, v / NENTRIES, PdxEnd(v, n))
    requires TablesMade(p1, p2, (v + n) / NENTRIES, (v + n) / NENTRIES + 1)
    ensures TablesMade(p0, p2, v / NENTRIES, PdxEnd(v, n + 1))
    ensures Need(p0, v, n + 1) == Need(p0, v, n) + 1 + if Present(p1[(v + n) / NENTRIES]) then 0 else 1
  {
    PdxStep(v, n);
    MissingStep(p0, v / NENTRIES, (v + n) / NENTRIES);
  }

  lemma GrownMore(m0: seq<Page>, u0: seq<Use>, f0: seq<nat>, m1: seq<Page>, u1: seq<Use>, f1: seq<nat>,
                  m2: seq<Page>, u2: seq<Use>, f2: seq<nat>, d: nat, v: nat, want: seq<Want>, g: nat, w: Want)
    requires Grown(m0, u0, f0, m1, u1, f1, d, v, want) && v + |want| < USERPAGES
    requires AddedPage(m1, u1, f1, m2, u2, f2, d, v + |want|, g, w)
    ensures Grown(m0, u0, f0, m2, u2, f2, d, v, want + [w])
  {
    hide AddedPage, Kept, Accounted, Fresh, TablesMade, Need;
    var u := v + |want|;
    KeptFacts(m0, u0, m1, u1, d, v);
    AddedFacts(m1, u1, f1, m2, u2, f2, d, u, g, w);
    KeptMore(m0, u0, m1, u1, f1, m2, u2, f2, d, v, |want|, g, w);
    FreshMore(u0, m1, u1, f1, m2, u2, f2, d, u, g, w);
    TablesMore(m0[d], m1[d], m2[d], v, |want|);
  }

  lemma KeptFacts(m0: seq<Page>, u0: seq<Use>, m1: seq<Page>, u1: seq<Use>, d: nat, v: nat)
    requires Kept(m0, u0, m1, u1, d, v)
    ensures |m0| == |m1| == |u0| == |u1| && d < |u0| && u0[d] == u1[d] == Directory
  {
  }

  /** n zeroed pages, writable by the user. */
  function Zeros(n: nat): (w: seq<Want>) {
    seq(n, _ => Want(PTE_W + PTE_U, ZERO_PAGE))
  }

  lemma {:induction false} NeedMore(dir: Page, v: nat, m: nat, n: nat)
    requires m <= n && v + n <= USERPAGES
    ensures Need(dir, v, m) + n - m <= Need(dir, v, n)
    decreases n
  {
    if m < n {
      NeedMore(dir, v, m, n - 1);
      PdxStep(v, n - 1);
      MissingStep(dir, v / NENTRIES, (v + n - 1) / NENTRIES);
    }
  }

  /** The state in which allocuvm stands after n pages: all mapped, or the last frame lost for want of a table. */
  ghost predicate Growing(m0: seq<Page>, u0: seq<Use>, f0: seq<nat>, m1: seq<Page>, u1: seq<Use>, f1: seq<nat>, d: nat,
                          v: nat,
                          want: seq<Want>, lost: Option<nat>) {
    && |u1| == |u0|
    && match lost
       case None => Grown(m0, u0, f0, m1, u1, f1, d, v, want)
       case Some(g) =>
         && f1 == [] && g < |u1| && u1[g] == Kernel && Grown(m0, u0, f0, m1, u1[g := OnFreeList], [g], d, v, want)
         && v + |want| < USERPAGES && !Present(m1[d][(v + |want|) / NENTRIES])
  }

  lemma GrowingFacts(m0: seq<Page>, u0: seq<Use>, f0: seq<nat>, m1: seq<Page>, u1: seq<Use>, f1: seq<nat>, d: nat,
                     v: nat,
                     want: seq<Want>, lost: Option<nat>)
    requires Growing(m0, u0, f0, m1, u1, f1, d, v, want, lost)
    ensures |m0| == |m1| == |u0| == |u1| && d < |u0| && u1[d] == Directory && v + |want| <= USERPAGES
    ensures SameFrom(m0, m1, d, v + |want|) && |f1| + Need(m0[d], v, |want|) + (if lost.Some? then 1 else 0) == |f0|
  {
  }

  /** With its frame lost, the next page would have needed two frames. */
  lemma LostNeed(m0: seq<Page>, u0: seq<Use>, f0: seq<nat>, m1: seq<Page>, u1: seq<Use>, f1: seq<nat>, d: nat, v: nat,
                 want: seq<Want>, lost: Option<nat>)
    requires Growing(m0, u0, f0, m1, u1, f1, d, v, want, lost) && lost.Some?
    ensures v + |want| + 1 <= USERPAGES && Need(m0[d], v, |want| + 1) == Need(m0[d], v, |want|) + 2
  {
    PdxStep(v, |want|);
    MissingStep(m0[d], v / NENTRIES, (v + |want|) / NENTRIES);
  }

  lemma GrowingLost(m0: seq<Page>, u0: seq<Use>, f0: seq<nat>, m1: seq<Page>, u1: seq<Use>, d: nat, v: nat,
                    want: seq<Want>, g: nat, p: Page)
    requires Grown(m0, u0, f0, m1, u1, [g], d, v, want) && g < |u1| && u1[g] == OnFreeList && v + |want| < USERPAGES
    requires !Present(m1[d][(v + |want|) / NENTRIES]) && SameLookups(m1, m1[g := p], u1[g := Kernel])
    ensures Growing(m0, u0, f0, m1[g := p], u1[g := Kernel], [], d, v, want, Some(g))
  {
    var m2, u2 := m1[g := p], u1[g := Kernel];
    assert u2[g := OnFreeList] == u1;
    assert g != d && u0[g] == OnFreeList && u1[d] == Directory;
    forall i | 0 <= i < |want| ensures Fresh(u0, m2, u1, d, v + i, want[i]) {
      assert Fresh(u0, m1, u1, d, v + i, want[i]);
    }
  }

  /** The pages added have been taken away again: only page tables, and the lost frame, remain taken. */
  ghost predicate Undone(m0: seq<Page>, u0: seq<Use>, m1: seq<Page>, u1: seq<Use>, d: nat, v: nat, lost: Option<nat>) {
    && Kept(m0, u0, m1, u1, d, v) && EmptyFrom(m1, d, v)
    && forall f :: 0 <= f < |u0| && u0[f] == OnFreeList ==>
         u1[f] == OnFreeList || (u1[f].Table? && u1[f].dir == d) || (u1[f] == Kernel && lost == Some(f))
  }

  lemma GrowingPresent(m0: seq<Page>, u0: seq<Use>, f0: seq<nat>, m1: seq<Page>, u1: seq<Use>, f1: seq<nat>, d: nat,
                       v: nat, want: seq<Want>, lost: Option<nat>)
    requires Growing(m0, u0, f0, m1, u1, f1, d, v, want, lost)
    ensures d < |m1| && forall u :: v <= u < v + |want| ==> Present(Lookup(m1, d, u))
  {
    var u2 := if lost.Some? then u1[lost.value := OnFreeList] else u1;
    forall u | v <= u < v + |want| ensures Present(Lookup(m1, d, u)) {
      assert Fresh(u0, m1, u2, d, v + (u - v), want[u - v]);
    }
  }

  /** The uses that deallocuvm finds after part of the pages were added. */
  lemma GrownFrame(m0: seq<Page>, u0: seq<Use>, f0: seq<nat>, m1: seq<Page>, u1: seq<Use>, f1: seq<nat>, d: nat, v: nat,
                   want: seq<Want>, lost: Option<nat>, hi: nat, f: nat)
    requires Growing(m0, u0, f0, m1, u1, f1, d, v, want, lost) && MapOk(m0, u0) && MapOk(m1, u1) && EmptyFrom(m0, d, v)
    requires v + |want| <= hi <= USERPAGES && f < |u0|
    ensures u0[f] != OnFreeList ==> !Gone(u1[f], m1[d], d, v, hi, USERPAGES)
    ensures u0[f] == OnFreeList ==>
              || u1[f] == OnFreeList || (u1[f].Table? && u1[f].dir == d) || (u1[f] == Kernel && lost == Some(f))
              || Gone(u1[f], m1[d], d, v, hi, USERPAGES)
  {
    hide MapOk, Visited;
    FrameFacts(m0, u0, f);
    FrameFacts(m1, u1, f);
    if u0[f] != OnFreeList {
      assert u1[f] == u0[f];
      if u0[f].User? && u0[f].dir == d && Visited(m1[d], v, hi, u0[f].vpn) {
        VisitedWithin(m1[d], v, hi, u0[f].vpn);
      }
    } else if u1[f].User? {
      var u := u1[f].vpn;
      assert v <= u < v + |want|;
      GrowingPresent(m0, u0, f0, m1, u1, f1, d, v, want, lost);
      VisitsAll(m1[d], v, hi, u);
    }
  }

  lemma UndoneBy(m0: seq<Page>, u0: seq<Use>, f0: seq<nat>, m1: seq<Page>, u1: seq<Use>, f1: seq<nat>, m2: seq<Page>,
                 u2: seq<Use>,
                 d: nat, v: nat, want: seq<Want>, lost: Option<nat>, hi: nat)
    requires Growing(m0, u0, f0, m1, u1, f1, d, v, want, lost) && MapOk(m0, u0) && MapOk(m1, u1) && EmptyFrom(m0, d, v)
    requires v + |want| <= hi && Dropped(m1, u1, m2, u2, d, v, hi, USERPAGES)
    ensures Undone(m0, u0, m2, u2, d, v, lost)
  {
    hide MapOk, Visited, Fresh;
    GrowingPresent(m0, u0, f0, m1, u1, f1, d, v, want, lost);
    SameEmpty(m0, m1, d, v, v + |want|);
    DeallocEmpty(m1, u1, m2, u2, d, v, hi, v + |want|);
    forall f | 0 <= f < |u0|
      ensures u0[f] != OnFreeList ==> u2[f] == u0[f] && (PartOf(u0[f], f, d) || m2[f] == m0[f])
      ensures u0[f] == OnFreeList ==>
                u2[f] == OnFreeList || (u2[f].Table? && u2[f].dir == d) || (u2[f] == Kernel && lost == Some(f))
    {
      GrownFrame(m0, u0, f0, m1, u1, f1, d, v, want, lost, hi, f);
    }
    UndoneLookups(m0, u0, m1, u1, m2, u2, d, v, hi, lost);
  }

  lemma UndoneLookups(m0: seq<Page>, u0: seq<Use>, m1: seq<Page>, u1: seq<Use>, m2: seq<Page>, u2: seq<Use>, d: nat,
                      v: nat, hi: nat, lost: Option<nat>)
    requires |u0| == |u1| && d < |u0|
    requires Kept(m0, u0, m1, if lost.Some? && lost.value < |u1| then u1[lost.value := OnFreeList] else u1, d, v)
    requires Dropped(m1, u1, m2, u2, d, v, hi, USERPAGES)
    ensures |m0| == |m2| == |u0|
    ensures forall e, u ::
              0 <= e < |u0| && u0[e] == Directory && 0 <= u < ALLPAGES && !(e == d && v <= u < USERPAGES) ==>
              Lookup(m2, e, u) == Lookup(m0, e, u)
  {
    hide Visited;
    forall u: nat | Visited(m1[d], v, hi, u) ensures v <= u < USERPAGES {
      VisitedWithin(m1[d], v, hi, u);
    }
  }

  /** allocuvm returns a size, or mappages panics on a page that is mapped already. */
  datatype AllocResult = Size(sz: nat) | Remapped(page: nat)

  /** Part of the pages had been added, and were taken away again. */
  ghost predicate RetreatFrom(m0: seq<Page>, u0: seq<Use>, f0: seq<nat>, m: seq<Page>, u: seq<Use>, f: seq<nat>,
                              m1: seq<Page>, u1: seq<Use>, d: nat, v: nat, n: nat, hi: nat, lost: Option<nat>) {
    Growing(m0, u0, f0, m, u, f, d, v, Zeros(n), lost) && Dropped(m, u, m1, u1, d, v, hi, USERPAGES)
  }

  /** A failed allocuvm: with no page from v on before, only page tables and the lost frame remain taken. */
  ghost predicate Retreated(m0: seq<Page>, u0: seq<Use>, f0: seq<nat>, m1: seq<Page>, u1: seq<Use>, d: nat, v: nat,
                            hi: nat, lost: Option<nat>) {
    && d < |m0|
    && (exists m, u, f, n :: RetreatFrom(m0, u0, f0, m, u, f, m1, u1, d, v, n, hi, lost))
    && (EmptyFrom(m0, d, v) ==> Undone(m0, u0, m1, u1, d, v, lost))
  }

  /** The first mapped page from v on, and whether there are frames enough to come to it. */
  ghost predicate RunsInto(m0: seq<Page>, f0: seq<nat>, d: nat, v: nat, page: nat) {
    && d < |m0| && v <= page < USERPAGES && Present(Lookup(m0, d, page))
    && (forall u :: v <= u < page ==> !Present(Lookup(m0, d, u)))
    && |f0| >= Need(m0[d], v, page - v) + 1
  }

  /** No page from v up to hi is mapped. */
  ghost predicate NoneMapped(m0: seq<Page>, d: nat, v: nat, hi: nat)
    requires d < |m0| && hi <= USERPAGES
  {
    forall u :: v <= u < hi ==> !Present(Lookup(m0, d, u))
  }

  /** What allocuvm returns r and leaves behind, when oldsz <= newsz < KERNBASE. */
  ghost predicate AllocOutcome(m0: seq<Page>, u0: seq<Use>, f0: seq<nat>, m1: seq<Page>, u1: seq<Use>, f1: seq<nat>,
                               d: nat, oldsz: nat, newsz: nat, r: AllocResult, lost: Option<nat>) {
    && d < |m0| && oldsz <= newsz < KERNBASE
    && var (v, hi) := (Pages(oldsz), Pages(newsz));
    && v <= hi <= USERPAGES
    && match r
       case Remapped(page) => page < hi && RunsInto(m0, f0, d, v, page)
       case Size(sz) =>
         && (forall page :: v <= page < hi ==> !RunsInto(m0, f0, d, v, page))
         && (if NoneMapped(m0, d, v, hi) && (v == hi || |f0| >= Need(m0[d], v, hi - v - 1) + 1) then sz == newsz
             else sz == 0 && Retreated(m0, u0, f0, m1, u1, d, v, hi, lost))
         && (NoneMapped(m0, d, v, hi) ==> AllocDone(m0, u0, f0, m1, u1, f1, d, v, hi - v, sz == newsz, lost))
  }

  /** With n absent pages from v on: all added, or the last one missing. */
  ghost predicate AllocDone(m0: seq<Page>, u0: seq<Use>, f0: seq<nat>, m1: seq<Page>, u1: seq<Use>, f1: seq<nat>,
                            d: nat, v: nat, n: nat, ok: bool, lost: Option<nat>)
    requires d < |m0| && v + n <= USERPAGES
  {
    && (|f0| >= Need(m0[d], v, n) ==> lost.None? && Grown(m0, u0, f0, m1, u1, f1, d, v, Zeros(n)))
    && (ok && |f0| < Need(m0[d], v, n) ==>
          && |f0| == Need(m0[d], v, n) - 1 && n > 0 && lost.Some?
          && Growing(m0, u0, f0, m1, u1, f1, d, v, Zeros(n - 1), lost))
  }

  lemma GrowingNone(mem: seq<Page>, use: seq<Use>, free: seq<nat>, d: nat, v: nat)
    requires Grown(mem, use, free, mem, use, free, d, v, [])
    ensures Growing(mem, use, free, mem, use, free, d, v, Zeros(0), None)
  {
    assert Zeros(0) == [];
  }

  lemma EmptyNext(mem: seq<Page>, mem': seq<Page>, d: nat, m: nat, a: nat)
    requires d < |mem| == |mem'| && SameFrom(mem, mem', d, a) && EmptyFrom(mem, d, m) && m <= a < USERPAGES
    ensures !Present(Lookup(mem', d, a))
  {
  }

  /** The page whose frame was lost is not mapped. */
  lemma LostFree(m0: seq<Page>, u0: seq<Use>, f0: seq<nat>, m1: seq<Page>, u1: seq<Use>, f1: seq<nat>, d: nat, v: nat,
                 want: seq<Want>, lost: Option<nat>)
    requires Growing(m0, u0, f0, m1, u1, f1, d, v, want, lost) && lost.Some?
    ensures f1 == [] && d < |m1| && v + |want| < USERPAGES && !Present(Lookup(m1, d, v + |want|))
  {
  }

  lemma AllocFailed(m0: seq<Page>, u0: seq<Use>, f0: seq<nat>, m1: seq<Page>, u1: seq<Use>, f1: seq<nat>,
                    m2: seq<Page>, u2: seq<Use>, f2: seq<nat>, d: nat, oldsz: nat, newsz: nat, n: nat,
                    lost: Option<nat>)
    requires oldsz <= newsz < KERNBASE && Growing(m0, u0, f0, m1, u1, f1, d, Pages(oldsz), Zeros(n), lost) && f1 == []
    requires Pages(oldsz) + n + (if lost.Some? then 1 else 0) < Pages(newsz) && d < |m0|
    requires NoneMapped(m0, d, Pages(oldsz), Pages(oldsz) + n + (if lost.Some? then 1 else 0))
    requires Retreated(m0, u0, f0, m2, u2, d, Pages(oldsz), Pages(newsz), lost)
    ensures AllocOutcome(m0, u0, f0, m2, u2, f2, d, oldsz, newsz, Size(0), lost)
  {
    hide Grown, Retreated, Need, Lookup;
    GrowingFacts(m0, u0, f0, m1, u1, f1, d, Pages(oldsz), Zeros(n), lost);
    var v, k := Pages(oldsz), Pages(newsz) - Pages(oldsz);
    var l := n + if lost.Some? then 1 else 0;
    if lost.Some? {
      LostNeed(m0, u0, f0, m1, u1, f1, d, v, Zeros(n), lost);
    }
    NeedMore(m0[d], v, l, k - 1);
    NeedMore(m0[d], v, k - 1, k);
    forall page | v <= page < Pages(newsz) ensures !RunsInto(m0, f0, d, v, page) {
      if page >= v + l {
        NeedMore(m0[d], v, l, page - v);
      }
    }
  }

  lemma AllocAll(m0: seq<Page>, u0: seq<Use>, f0: seq<nat>, m1: seq<Page>, u1: seq<Use>, f1: seq<nat>,
                 d: nat, oldsz: nat, newsz: nat, n: nat, lost: Option<nat>)
    requires oldsz <= newsz < KERNBASE && Growing(m0, u0, f0, m1, u1, f1, d, Pages(oldsz), Zeros(n), lost)
    requires Pages(oldsz) + n + (if lost.Some? then 1 else 0) == Pages(newsz) && d < |m0|
    requires NoneMapped(m0, d, Pages(oldsz), Pages(newsz))
    ensures AllocOutcome(m0, u0, f0, m1, u1, f1, d, oldsz, newsz, Size(newsz), lost)
  {
    hide Grown, Retreated, Need, Lookup;
    GrowingFacts(m0, u0, f0, m1, u1, f1, d, Pages(oldsz), Zeros(n), lost);
    var v, k := Pages(oldsz), Pages(newsz) - Pages(oldsz);
    if lost.Some? {
      LostNeed(m0, u0, f0, m1, u1, f1, d, v, Zeros(n), lost);
    } else if k > 0 {
      NeedMore(m0[d], v, k - 1, k);
    }
  }

  lemma NoneMappedYet(m0: seq<Page>, d: nat, v: nat)
    requires d < |m0| && v <= USERPAGES
    ensures NoneMapped(m0, d, v, v)
  {
  }

  /** A page that could be added, or whose table could not be made, had not been mapped. */
  lemma NoneMappedMore(m0: seq<Page>, u0: seq<Use>, f0: seq<nat>, m1: seq<Page>, u1: seq<Use>, f1: seq<nat>, d: nat,
                       v: nat, n: nat, lost: Option<nat>)
    requires Growing(m0, u0, f0, m1, u1, f1, d, v, Zeros(n), lost) && lost.None? && v + n < USERPAGES
    requires d < |m0| && d < |m1| && !Present(Lookup(m1, d, v + n)) && NoneMapped(m0, d, v, v + n)
    ensures NoneMapped(m0, d, v, v + n + 1)
  {
    GrowingFacts(m0, u0, f0, m1, u1, f1, d, v, Zeros(n), lost);
  }

  /** The panic of mappages. */
  lemma ComesTo(m0: seq<Page>, u0: seq<Use>, f0: seq<nat>, m1: seq<Page>, u1: seq<Use>, f1: seq<nat>, m2: seq<Page>,
                u2: seq<Use>, f2: seq<nat>, d: nat, oldsz: nat, newsz: nat, n: nat, lost: Option<nat>)
    requires oldsz <= newsz < KERNBASE && Growing(m0, u0, f0, m1, u1, f1, d, Pages(oldsz), Zeros(n), lost) && lost.None?
    requires Pages(oldsz) + n < Pages(newsz) && d < |m0| && d < |m1| && Present(Lookup(m1, d, Pages(oldsz) + n))
    requires f1 != []
    requires NoneMapped(m0, d, Pages(oldsz), Pages(oldsz) + n)
    ensures AllocOutcome(m0, u0, f0, m2, u2, f2, d, oldsz, newsz, Remapped(Pages(oldsz) + n), lost)
  {
    hide Grown, Need, Lookup;
    GrowingFacts(m0, u0, f0, m1, u1, f1, d, Pages(oldsz), Zeros(n), lost);
  }

  lemma AllocRetreat(m0: seq<Page>, u0: seq<Use>, f0: seq<nat>, m1: seq<Page>, u1: seq<Use>, f1: seq<nat>,
                     m2: seq<Page>, u2: seq<Use>, d: nat, v: nat, n: nat, hi: nat, lost: Option<nat>)
    requires Growing(m0, u0, f0, m1, u1, f1, d, v, Zeros(n), lost) && MapOk(m0, u0) && MapOk(m1, u1) && d < |m0|
    requires v + n <= hi && Dropped(m1, u1, m2, u2, d, v, hi, USERPAGES)
    ensures Retreated(m0, u0, f0, m2, u2, d, v, hi, lost)
  {
    hide Growing, MapOk, Dropped, Undone, EmptyFrom;
    assert RetreatFrom(m0, u0, f0, m1, u1, f1, m2, u2, d, v, n, hi, lost);
    if EmptyFrom(m0, d, v) {
      UndoneBy(m0, u0, f0, m1, u1, f1, m2, u2, d, v, Zeros(n), lost, hi);
    }
  }

  // Copying an address space

  datatype CopyStep = Absent | Tried(added: AddResult)

  datatype CopyResult = Copied(d: nat) | OutOfMemory | NotPresent(v: nat)

  /** Frames for the kernel half, n pages and the tables for them. */
  function CopyCost(n: nat): (k: nat) {
    65 + n + (n + NENTRIES - 1) / NENTRIES
  }

  /** The page that entry w refers to. */
  function FrameContents(mem: seq<Page>, w: word): (p: Page)
    requires mem != []
  {
    mem[if FrameOf(w) < |mem| then FrameOf(w) else 0]
  }

  /** The first n user pages of p. */
  function CopyWant(mem: seq<Page>, p: nat, n: nat): (w: seq<Want>)
    requires p < |mem| && n <= USERPAGES
    ensures |w| == n
  {
    seq(n, i requires 0 <= i < n => Want(FlagsOf(Lookup(mem, p, i)), FrameContents(mem, Lookup(mem, p, i))))
  }

  lemma CopyWantMore(mem: seq<Page>, p: nat, n: nat)
    requires p < |mem| && n < USERPAGES
    ensures CopyWant(mem, p, n + 1) == CopyWant(mem, p, n) + [Want(FlagsOf(Lookup(mem, p, n)), FrameContents(mem,
            Lookup(mem, p, n)))]
  {
  }

  predicate SameEntry(m0: seq<Page>, m1: seq<Page>, p: nat, d: nat, v: nat)
    requires p < |m0| && d < |m1| && v < USERPAGES
  {
    var (e, e') := (Lookup(m0, p, v), Lookup(m1, d, v));
    && Present(e) && Present(e') && FlagsOf(e') == FlagsOf(e) && FrameOf(e) < |m0| && FrameOf(e') < |m1|
    && m1[FrameOf(e')] == m0[FrameOf(e)]
  }

  /** Space d is a copy of the first n pages of p, in frames of its own, and all else is as it was. */
  ghost predicate Copy(m0: seq<Page>, u0: seq<Use>, m1: seq<Page>, u1: seq<Use>, p: nat, d: nat, n: nat, data: nat) {
    && DataOk(data) && p < |m0| && n <= USERPAGES && NewSpace(m0, u0, m1, u1, d)
    && (forall v :: 0 <= v < n ==> SameEntry(m0, m1, p, d, v))
    && (forall v :: n <= v < USERPAGES ==> !Present(Lookup(m1, d, v)))
    && (forall v :: USERPAGES <= v < ALLPAGES ==> Lookup(m1, d, v) == KernelEntry(data, 4, v))
  }

  /** Nothing has changed but the contents of free frames, and that the lost frame is not free any more. */
  ghost predicate Returned(m0: seq<Page>, u0: seq<Use>, m1: seq<Page>, u1: seq<Use>, lost: Option<nat>) {
    && |m0| == |m1| == |u0| == |u1| && (lost.Some? ==> lost.value < |u0| && u0[lost.value] == OnFreeList)
    && forall f :: 0 <= f < |u0| ==>
         if u0[f] == OnFreeList then u1[f] == (if lost == Some(f) then Kernel else OnFreeList)
         else u1[f] == u0[f] && m1[f] == m0[f]
  }

  /** With f frames free and 65 of them for the kernel half, the last one is got for a page whose table is missing. */
  predicate LosesFrame(f: nat) {
    f >= 66 && (f - 66) % (NENTRIES + 1) == 0
  }

  /** What copyuvm returns and leaves behind. It panics at the first absent page if there are frames for the pages
      before it. It runs out of memory if the frames are too few for those, or for all the pages; it then gives
      back everything but the frame lost for want of a table, or, if setupkvm failed, nothing. */
  ghost predicate CopyOutcome(m0: seq<Page>, u0: seq<Use>, f0: seq<nat>, m1: seq<Page>, u1: seq<Use>, f1: seq<nat>,
                              p: nat, sz: nat, data: nat, r: CopyResult, lost: Option<nat>)
    requires p < |m0| && sz <= KERNBASE
  {
    match r
    case NotPresent(v) =>
      && v < Pages(sz) && !Present(Lookup(m0, p, v)) && |f0| >= CopyCost(v)
      && forall u :: 0 <= u < v ==> Present(Lookup(m0, p, u))
    case Copied(d) => |f0| >= CopyCost(Pages(sz)) && Copy(m0, u0, m1, u1, p, d, Pages(sz), data)
    case OutOfMemory =>
      && |f0| < CopyCost(Pages(sz))
      && (forall v :: 0 <= v < Pages(sz) && !Present(Lookup(m0, p, v)) ==> |f0| < CopyCost(v))
      && (|f0| >= 65 ==> Returned(m0, u0, m1, u1, lost) && (lost.Some? <==> LosesFrame(|f0|)))
      && (0 < |f0| < 65 ==> f1 == [] && NewSpace(m0, u0, m1, u1, f0[0]))
      && (f0 == [] ==> m1 == m0 && u1 == u0)
  }

  lemma CopyStart(m0: seq<Page>, u0: seq<Use>, head: nat, m1: seq<Page>, u1: seq<Use>, f0: seq<nat>, f1: seq<nat>,
                  p: nat, d: nat, data: nat, n: nat)
    requires MemOk(m0, u0, head, f0) && NewSpace(m0, u0, m1, u1, d) && KernelSpace(m1, u1, f1, d, data, 4, |f0|) &&
             p < |m0| && n <= USERPAGES
    ensures |m1| == |u1| && d < |u1| && u1[d] == Directory && EmptyFrom(m1, d, 0)
    ensures Growing(m1, u1, f1, m1, u1, f1, d, 0, CopyWant(m0, p, 0), None)
    ensures |f1| + 65 == |f0| && NoneOf(u0, d) && forall k :: 0 <= k <= n ==> Need(m1[d], 0, k) + 65 == CopyCost(k)
  {
    hide MemOk;
    NoPartOfFree(m0, u0, head, f0, d);
    forall k | 0 <= k <= n ensures Need(m1[d], 0, k) + 65 == CopyCost(k) {
      assert PdxEnd(0, k) == (k + NENTRIES - 1) / NENTRIES <= 512;
      MissingFrom(m1[d], 0, 0, PdxEnd(0, k));
    }
    assert CopyWant(m0, p, 0) == [];
    GrownNone(m1, u1, f1, d, 0);
  }

  /** The parent is not touched. */
  lemma ParentSame(m0: seq<Page>, u0: seq<Use>, m1: seq<Page>, u1: seq<Use>, f1: seq<nat>, m2: seq<Page>, u2: seq<Use>,
                   f2: seq<nat>,
                   p: nat, d: nat, want: seq<Want>, v: nat)
    requires MapOk(m0, u0) && NewSpace(m0, u0, m1, u1, d) && Growing(m1, u1, f1, m2, u2, f2, d, 0, want, None)
    requires p < |u0| && u0[p] == Directory && v < USERPAGES
    ensures |m2| == |u2| == |u0| && u2[p] == Directory && p != d && Lookup(m2, p, v) == Lookup(m0, p, v)
    ensures Present(Lookup(m0, p, v)) ==>
              FrameOf(Lookup(m0, p, v)) < |m0| && m2[FrameOf(Lookup(m0, p, v))] == m0[FrameOf(Lookup(m0, p, v))]
  {
    hide EmptyFrom, Fresh, Accounted, TablesMade, Need;
    assert SpaceOk(m0, u0, p);
    assert DirEntryOk(m0, u0, p, v / NENTRIES);
    assert UserEntryOk(m0, u0, p, v);
    LookupFrame(m0, m1, u0, p, v);
  }

  /** Out of frames after i of n pages: there were not enough. */
  lemma CopyShort(m1: seq<Page>, u1: seq<Use>, f1: seq<nat>, m2: seq<Page>, u2: seq<Use>, f2: seq<nat>, d: nat,
                  want: seq<Want>, lost: Option<nat>, n: nat)
    requires Growing(m1, u1, f1, m2, u2, f2, d, 0, want, lost) && f2 == [] && |want| < n <= USERPAGES
    requires d < |m1| && forall k :: 0 <= k <= n ==> Need(m1[d], 0, k) + 65 == CopyCost(k)
    ensures |f1| + 65 < CopyCost(|want| + 1) && (lost.Some? <==> LosesFrame(|f1| + 65))
  {
    hide Grown, Need;
    GrowingFacts(m1, u1, f1, m2, u2, f2, d, 0, want, lost);
    assert Need(m1[d], 0, |want|) + 65 == CopyCost(|want|);
    if lost.Some? {
      LostNeed(m1, u1, f1, m2, u2, f2, d, 0, want, lost);
      assert Need(m1[d], 0, |want| + 1) + 65 == CopyCost(|want| + 1);
    }
    LostExactly(|want|, if lost.Some? then 1 else 0);
  }

  /** i pages and their tables, and k more frames: one more only at the first page of a table. */
  lemma LostExactly(i: nat, k: nat)
    requires k <= 1 && (k == 1 ==> CopyCost(i + 1) == CopyCost(i) + 2)
    ensures CopyCost(i) + k < CopyCost(i + 1) && (k == 1 <==> LosesFrame(CopyCost(i) + k))
  {
    var q, t := i / NENTRIES, i % NENTRIES;
    assert CopyCost(i) == 65 + 1025 * q + t + (if t == 0 then 0 else 1);
    assert CopyCost(i + 1) == 65 + 1025 * q + t + 2;
    if k == 1 {
      assert t == 0;
    } else if t > 0 {
      assert (CopyCost(i) - 66) == 1025 * q + t;
    } else if q > 0 {
      assert (CopyCost(i) - 66) == 1025 * (q - 1) + 1024;
    }
  }

  lemma CopyFailed(m0: seq<Page>, u0: seq<Use>, m1: seq<Page>, u1: seq<Use>, f1: seq<nat>, m2: seq<Page>, u2: seq<Use>,
                   f2: seq<nat>,
                   m3: seq<Page>, u3: seq<Use>, d: nat, want: seq<Want>, lost: Option<nat>)
    requires NewSpace(m0, u0, m1, u1, d) && NoneOf(u0, d) && Growing(m1, u1, f1, m2, u2, f2, d, 0, want, lost)
    requires Released(m2, u2, m3, u3, d)
    ensures Returned(m0, u0, m3, u3, lost)
  {
    hide EmptyFrom, Fresh, TablesMade, Need;
  }

  lemma CopyDone(m0: seq<Page>, u0: seq<Use>, f0: seq<nat>, m1: seq<Page>, u1: seq<Use>, f1: seq<nat>, m2: seq<Page>,
                 u2: seq<Use>, f2: seq<nat>,
                 p: nat, d: nat, n: nat, data: nat)
    requires NewSpace(m0, u0, m1, u1, d) && NoneOf(u0, d) && KernelSpace(m1, u1, f1, d, data, 4, |f0|)
    requires MapOk(m0, u0) && p < |m0| && u0[p] == Directory && n <= USERPAGES
    requires forall v :: 0 <= v < n ==> Present(Lookup(m0, p, v))
    requires Growing(m1, u1, f1, m2, u2, f2, d, 0, CopyWant(m0, p, n), None)
    ensures Copy(m0, u0, m2, u2, p, d, n, data)
    ensures Need(m1[d], 0, n) <= |f1|
  {
    hide Need, TablesMade, KernelEntry, CopyWant;
    forall v | 0 <= v < n ensures SameEntry(m0, m2, p, d, v) {
      CopyEntry(m0, u0, u1, m2, u2, p, d, n, v);
    }
  }

  lemma CopyEntry(m0: seq<Page>, u0: seq<Use>, u1: seq<Use>, m2: seq<Page>, u2: seq<Use>, p: nat, d: nat, n: nat,
                  v: nat)
    requires MapOk(m0, u0) && p < |m0| && u0[p] == Directory && v < n <= USERPAGES && Present(Lookup(m0, p, v))
    requires |u1| == |m2| == |u2| && d < |u1| && Fresh(u1, m2, u2, d, v, CopyWant(m0, p, n)[v])
    ensures SameEntry(m0, m2, p, d, v)
  {
    assert SpaceOk(m0, u0, p);
    assert UserEntryOk(m0, u0, p, v);
  }

  // What user code may do

  /** User code may do nothing at all from KERNBASE up. */
  ghost predicate UpperClosed(mem: seq<Page>, d: nat)
    requires d < |mem|
  {
    forall v, write :: USERPAGES <= v < ALLPAGES ==> !UserMay(mem, d, v, write)
  }

  /** This is so of every address space of which it was so before. */
  ghost predicate UpperKept(m0: seq<Page>, u0: seq<Use>, m1: seq<Page>, u1: seq<Use>) {
    && |m0| == |m1| == |u0| == |u1|
    && forall e :: 0 <= e < |u0| && u0[e] == u1[e] == Directory && UpperClosed(m0, e) ==> UpperClosed(m1, e)
  }

  /** User code may read and write the pages from lo to hi, and finds 0 in every word of them. */
  ghost predicate NewPages(mem: seq<Page>, d: nat, lo: nat, hi: int)
    requires d < |mem| && hi <= USERPAGES
  {
    forall v :: lo <= v < hi ==>
      UserMay(mem, d, v, true) && FrameOf(Lookup(mem, d, v)) < |mem| && ZeroPage(mem[FrameOf(Lookup(mem, d, v))])
  }

  /** The pages that allocuvm adds: all, or all but the one whose frame was lost. */
  lemma AllocMay(m0: seq<Page>, u0: seq<Use>, f0: seq<nat>, m1: seq<Page>, u1: seq<Use>, f1: seq<nat>, d: nat,
                 oldsz: nat, newsz: nat, lost: Option<nat>)
    requires AllocOutcome(m0, u0, f0, m1, u1, f1, d, oldsz, newsz, Size(newsz), lost) && MapOk(m1, u1)
    ensures d < |m1| && Pages(newsz) <= USERPAGES
    ensures NewPages(m1, d, Pages(oldsz), Pages(newsz) - (if lost.Some? then 1 else 0))
  {
    hide MapOk, Need, Lookup, TablesMade;
    var v, hi := Pages(oldsz), Pages(newsz);
    if v < hi && |f0| < Need(m0[d], v, hi - v) {
      GrowingMay(m0, u0, f0, m1, u1, f1, d, v, hi - v - 1, lost);
    } else {
      GrowingMay(m0, u0, f0, m1, u1, f1, d, v, hi - v, lost);
    }
  }

  lemma GrowingMay(m0: seq<Page>, u0: seq<Use>, f0: seq<nat>, m1: seq<Page>, u1: seq<Use>, f1: seq<nat>, d: nat,
                   v: nat, n: nat, lost: Option<nat>)
    requires Growing(m0, u0, f0, m1, u1, f1, d, v, Zeros(n), lost) && MapOk(m1, u1)
    ensures d < |m1| && v + n <= USERPAGES && NewPages(m1, d, v, v + n)
  {
    hide MapOk, Lookup;
    GrowingFacts(m0, u0, f0, m1, u1, f1, d, v, Zeros(n), lost);
    var u2 := if lost.Some? then u1[lost.value := OnFreeList] else u1;
    forall u | v <= u < v + n
      ensures UserMay(m1, d, u, true) && FrameOf(Lookup(m1, d, u)) < |m1| && ZeroPage(m1[FrameOf(Lookup(m1, d, u))])
    {
      assert Fresh(u0, m1, u2, d, v + (u - v), Zeros(n)[u - v]);
      FlagBits(Lookup(m1, d, u));
      TableDecides(m1, u1, d, u, true);
    }
  }

  /** The kernel's mappings are not for the user. */
  lemma KernelClosed(m1: seq<Page>, u1: seq<Use>, d: nat, data: nat)
    requires MapOk(m1, u1) && DataOk(data) && d < |m1| == |u1| && u1[d] == Directory
    requires forall v :: USERPAGES <= v < ALLPAGES ==> Lookup(m1, d, v) == KernelEntry(data, 4, v)
    ensures UpperClosed(m1, d)
  {
    hide MapOk, Lookup;
    forall v, write | USERPAGES <= v < ALLPAGES ensures !UserMay(m1, d, v, write) {
      FlagBits(Lookup(m1, d, v));
      TableDecides(m1, u1, d, v, write);
    }
  }

  /** In the copy of an address space user code may do exactly what it may in the first n pages of the original. */
  lemma CopyMay(m0: seq<Page>, u0: seq<Use>, m1: seq<Page>, u1: seq<Use>, p: nat, d: nat, n: nat, data: nat)
    requires Copy(m0, u0, m1, u1, p, d, n, data) && MapOk(m0, u0) && MapOk(m1, u1) && u0[p] == Directory
    ensures forall v, write :: 0 <= v < ALLPAGES ==>
              (UserMay(m1, d, v, write) <==> v < n && UserMay(m0, p, v, write))
    ensures UpperClosed(m1, d)
  {
    hide MapOk, Lookup, KernelEntry;
    KernelClosed(m1, u1, d, data);
    forall v, write | 0 <= v < USERPAGES
      ensures UserMay(m1, d, v, write) <==> v < n && UserMay(m0, p, v, write)
    {
      TableDecides(m0, u0, p, v, write);
      TableDecides(m1, u1, d, v, write);
      if v < n {
        assert SameEntry(m0, m1, p, d, v);
        FlagBits(Lookup(m0, p, v));
        FlagBits(Lookup(m1, d, v));
      }
    }
  }

  /** The user's rights follow the translations. */
  lemma UpperSame(m0: seq<Page>, u0: seq<Use>, m1: seq<Page>, u1: seq<Use>)
    requires MapOk(m0, u0) && MapOk(m1, u1) && |m0| == |m1|
    requires forall e, v :: 0 <= e < |u0| && u0[e] == u1[e] == Directory && USERPAGES <= v < ALLPAGES ==>
               Lookup(m1, e, v) == Lookup(m0, e, v)
    ensures UpperKept(m0, u0, m1, u1)
  {
    hide Lookup;
    assert |m0| == |u0| && |m1| == |u1|;
    forall e, v, write | 0 <= e < |u0| && u0[e] == u1[e] == Directory && USERPAGES <= v < ALLPAGES
      ensures UserMay(m1, e, v, write) == UserMay(m0, e, v, write)
    {
      hide MapOk;
      TableDecides(m0, u0, e, v, write);
      TableDecides(m1, u1, e, v, write);
    }
  }

  lemma DropUpper(m0: seq<Page>, u0: seq<Use>, m1: seq<Page>, u1: seq<Use>, d: nat, lo: nat, hi: nat)
    requires Dropped(m0, u0, m1, u1, d, lo, hi, USERPAGES) && MapOk(m0, u0) && MapOk(m1, u1)
    ensures UpperKept(m0, u0, m1, u1)
  {
    hide MapOk, Lookup, Visited;
    forall u: nat | Visited(m0[d], lo, hi, u) ensures u < USERPAGES {
      VisitedWithin(m0[d], lo, hi, u);
    }
    UpperSame(m0, u0, m1, u1);
  }

  lemma AllocUpper(m0: seq<Page>, u0: seq<Use>, f0: seq<nat>, m1: seq<Page>, u1: seq<Use>, f1: seq<nat>, d: nat,
                   oldsz: nat, newsz: nat, sz: nat, lost: Option<nat>)
    requires AllocOutcome(m0, u0, f0, m1, u1, f1, d, oldsz, newsz, Size(sz), lost) && MapOk(m0, u0) && MapOk(m1, u1)
    ensures UpperKept(m0, u0, m1, u1)
  {
    hide MapOk, Lookup, Need, Fresh, Accounted, TablesMade, Visited, Undone, Cleared;
    var v, hi := Pages(oldsz), Pages(newsz);
    if NoneMapped(m0, d, v, hi) && (v == hi || |f0| >= Need(m0[d], v, hi - v - 1) + 1) {
      UpperSame(m0, u0, m1, u1);
    } else {
      var m, u, f, n :| RetreatFrom(m0, u0, f0, m, u, f, m1, u1, d, v, n, hi, lost);
      UndoneLookups(m0, u0, m, u, m1, u1, d, v, hi, lost);
      UpperSame(m0, u0, m1, u1);
    }
  }

  lemma AllocRights(m0: seq<Page>, u0: seq<Use>, f0: seq<nat>, m1: seq<Page>, u1: seq<Use>, h1: nat, f1: seq<nat>,
                    d: nat, oldsz: nat, newsz: nat, sz: nat, lost: Option<nat>)
    requires AllocOutcome(m0, u0, f0, m1, u1, f1, d, oldsz, newsz, Size(sz), lost) && MapOk(m0, u0)
    requires MemOk(m1, u1, h1, f1)
    ensures UpperKept(m0, u0, m1, u1)
    ensures sz == newsz ==>
              && d < |m1| && Pages(newsz) <= USERPAGES
              && NewPages(m1, d, Pages(oldsz), Pages(newsz) - (if lost.Some? then 1 else 0))
  {
    hide AllocOutcome, MapOk, FreeListOk, UpperClosed, NewPages;
    AllocUpper(m0, u0, f0, m1, u1, f1, d, oldsz, newsz, sz, lost);
    if sz == newsz {
      AllocMay(m0, u0, f0, m1, u1, f1, d, oldsz, newsz, lost);
    }
  }

  /** Frames in use that do not change keep the translations of every address space. */
  lemma UsedSame(m0: seq<Page>, u0: seq<Use>, m1: seq<Page>, u1: seq<Use>)
    requires MapOk(m0, u0) && MapOk(m1, u1) && |m0| == |m1|
    requires forall f :: 0 <= f < |u0| && u0[f] != OnFreeList ==> m1[f] == m0[f]
    ensures UpperKept(m0, u0, m1, u1)
  {
    forall e, v | 0 <= e < |u0| && u0[e] == u1[e] == Directory && USERPAGES <= v < ALLPAGES
      ensures Lookup(m1, e, v) == Lookup(m0, e, v)
    {
      assert SpaceOk(m0, u0, e);
      LookupFrame(m0, m1, u0, e, v);
    }
    UpperSame(m0, u0, m1, u1);
  }

  lemma CopyUpper(m0: seq<Page>, u0: seq<Use>, f0: seq<nat>, m1: seq<Page>, u1: seq<Use>, h1: nat, f1: seq<nat>,
                  p: nat, sz: nat, data: nat, r: CopyResult, lost: Option<nat>)
    requires p < |m0| == |u0| && u0[p] == Directory && sz <= KERNBASE && MapOk(m0, u0) && MemOk(m1, u1, h1, f1)
    requires CopyOutcome(m0, u0, f0, m1, u1, f1, p, sz, data, r, lost) && !r.NotPresent?
    ensures UpperKept(m0, u0, m1, u1)
    ensures r.Copied? ==>
              && r.d < |m1| && UpperClosed(m1, r.d)
              && forall v, write :: 0 <= v < ALLPAGES ==>
                   (UserMay(m1, r.d, v, write) <==> v < Pages(sz) && UserMay(m0, p, v, write))
  {
    hide MapOk, FreeListOk, UpperClosed, UpperKept, UserMay, SameEntry, KernelEntry, Lookup;
    MemFacts(m1, u1, h1, f1);
    UsedSame(m0, u0, m1, u1);
    if r.Copied? {
      CopyMay(m0, u0, m1, u1, p, r.d, Pages(sz), data);
    }
  }

  /** Where the processor finds virtual address va. */
  function Translate(mem: seq<Page>, d: nat, va: nat): (pa: nat)
    requires d < |mem| && va < WORDMAX
  {
    FrameOf(Lookup(mem, d, va / PGSIZE)) * PGSIZE + va % PGSIZE
  }

  /** What setupkvm is for: every physical address below PHYSTOP is found KERNBASE above itself, every device
      address at itself, the kernel's text cannot be written, all the rest can, and nothing else is mapped. */
  lemma KernelTranslates(mem: seq<Page>, use: seq<Use>, free: seq<nat>, d: nat, data: nat, n0: nat, va: nat)
    requires KernelSpace(mem, use, free, d, data, 4, n0) && va < WORDMAX
    ensures var w := Lookup(mem, d, va / PGSIZE);
            && (Present(w) <==> KERNBASE <= va < KERNBASE + PHYSTOP || DEVSPACE <= va)
            && (KERNBASE <= va < KERNBASE + PHYSTOP ==> Translate(mem, d, va) == va - KERNBASE)
            && (DEVSPACE <= va ==> Translate(mem, d, va) == va)
            && (Present(w) ==> !ForUser(w) && (Writable(w) <==> !(KERNLINK <= va < data)))
  {
    hide Lookup;
    FlagBits(Lookup(mem, d, va / PGSIZE));
    assert va == va / PGSIZE * 4096 + va % PGSIZE;
    assert data == KERNBASE + (data - KERNBASE) / PGSIZE * 4096;
  }

  /** The frame at kernel address v. */
  function FrameAt(v: nat): (f: int) {
    (v - KERNBASE) / PGSIZE
  }

  lemma MemFacts(mem: seq<Page>, use: seq<Use>, head: nat, free: seq<nat>)
    requires MemOk(mem, use, head, free)
    ensures MapOk(mem, use) && |use| == |mem| < USERPAGES
    ensures free == [] <==> head == 0
  {
  }

  class Machine {
    var mem: seq<Page>
    var freelist: nat
    ghost var use: seq<Use>
    ghost var free: seq<nat>

    const kernelEnd: nat

    ghost predicate Valid()
      reads this
    {
      MemOk(mem, use, freelist, free) && KernelImage(use, kernelEnd)
    }

    /** What kfree accepts: a page boundary after the kernel image and inside physical memory. */
    predicate Freeable(v: nat) {
      v % PGSIZE == 0 && kernelEnd <= v && v - KERNBASE < PHYSTOP
    }

    /** Memory at boot: the kernel image reserved, nothing yet on the free list. */
    constructor (pages: seq<Page>, end: nat)
      requires |pages| * PGSIZE <= PHYSTOP && KERNBASE < end
      ensures Valid() && mem == pages && kernelEnd == end && free == []
      ensures |use| == |mem| && forall f :: 0 <= f < |use| ==> use[f] == if Kva(f) < end then Reserved else Kernel
    {
      mem, freelist, free, kernelEnd := pages, 0, [], end;
      use := seq(|pages|, f requires 0 <= f < |pages| => if Kva(f) < end then Reserved else Kernel);
    }

    /** freerange: every whole page from vstart to vend goes on the free list. */
    method Freerange(vstart: nat, vend: nat)
      requires Valid() && vend <= Kva(|mem|) && KERNBASE <= vstart
      requires forall f :: 0 <= f < |use| && vstart <= Kva(f) && Kva(f) + PGSIZE <= vend ==> use[f] == Kernel
      modifies this
      ensures Valid() && |use| == |old(use)| == |mem|
      ensures forall f :: 0 <= f < |use| ==>
                use[f] == if vstart <= Kva(f) && Kva(f) + PGSIZE <= vend then OnFreeList else old(use)[f]
      ensures SameLookups(old(mem), mem, old(use))
    {
      hide MemOk;
      MemFacts(mem, use, freelist, free);
      var f := (vstart - KERNBASE + PGSIZE - 1) / PGSIZE;
      ghost var first: nat := f;
      assert vstart <= Kva(first) < vstart + PGSIZE;
      while Kva(f) + PGSIZE <= vend
        invariant Valid() && |use| == |old(use)| == |mem| && first <= f && old(|mem|) == |mem| &&
                  (f == first || Kva(f) <= vend)
        invariant forall g :: 0 <= g < |use| ==> use[g] == if first <= g < f then OnFreeList else old(use)[g]
        invariant SameLookups(old(mem), mem, old(use))
        decreases vend - Kva(f)
      {
        KfreeHeld(f);
        f := f + 1;
      }
    }

    /** kalloc: the first frame of the free list, or none exactly when the list is empty. */
    method Kalloc() returns (r: Option<nat>)
      requires Valid()
      modifies this`freelist, this`use, this`free
      ensures Valid() && (r.None? <==> old(free) == [])
      ensures r.None? ==> use == old(use) && free == old(free) && freelist == old(freelist)
      ensures r.Some? ==>
                && r.value == old(free)[0] < |mem| == |old(use)| && old(use)[r.value] == OnFreeList
                && use == old(use)[r.value := Kernel] && free == old(free)[1..]
    {
      hide MapOk, FreeListOk;
      MemFacts(mem, use, freelist, free);
      if freelist == 0 {
        return None;
      }
      TakeFrame(mem, use, freelist, free);
      var f := (freelist - KERNBASE) / PGSIZE;
      assert f == free[0];
      freelist := mem[f][0];
      use, free := use[f := Kernel], free[1..];
      return Some(f);
    }

    /** kfree: it panics, having changed nothing, unless v is Freeable; otherwise the frame at v goes to the front
        of the free list, its contents lost. That the caller holds the frame is not something kfree can see. */
    method Kfree(v: nat) returns (ok: bool)
      requires Valid() && (Freeable(v) ==> FrameAt(v) < |mem| == |use| && use[FrameAt(v)] == Kernel)
      modifies this
      ensures Valid() && (ok <==> Freeable(v)) && |mem| == |old(mem)|
      ensures !ok ==> mem == old(mem) && use == old(use) && free == old(free) && freelist == old(freelist)
      ensures ok ==> use == old(use)[FrameAt(v) := OnFreeList] && free == [FrameAt(v)] + old(free)
      ensures ok ==> mem == old(mem)[FrameAt(v) := mem[FrameAt(v)]] && SameLookups(old(mem), mem, old(use))
      ensures ok ==> freelist == v && mem[FrameAt(v)][0] == old(freelist)
      ensures ok ==> forall i :: 1 <= i < NENTRIES ==> mem[FrameAt(v)][i] == 0x0101_0101
    {
      hide MapOk, FreeListOk;
      if v % PGSIZE != 0 || v < kernelEnd || v - KERNBASE >= PHYSTOP {
        return false;
      }
      var f := FrameAt(v);
      assert v == Kva(f);
      HeadIsWord(mem, use, freelist, free);
      GiveFrame(mem, use, freelist, free, f, JunkPage(freelist));
      mem := mem[f := JunkPage(freelist)];
      freelist := v;
      use, free := use[f := OnFreeList], [f] + free;
      return true;
    }

    /** A frame that the kernel holds: no panic. */
    method KfreeHeld(f: nat)
      requires Valid() && f < |mem| == |use| && use[f] == Kernel
      modifies this
      ensures Valid() && use == old(use)[f := OnFreeList] && free == [f] + old(free)
      ensures |mem| == |old(mem)| && mem == old(mem)[f := mem[f]] && SameLookups(old(mem), mem, old(use))
    {
      hide MapOk, FreeListOk;
      assert FrameAt(Kva(f)) == f && Freeable(Kva(f));
      var _ := Kfree(Kva(f));
    }

    /** memset or memmove into a page that the kernel holds. */
    method Fill(f: nat, p: Page)
      requires Valid() && f < |mem| == |use| && use[f] == Kernel
      modifies this`mem
      ensures Valid() && mem == old(mem)[f := p] && SameLookups(old(mem), mem, use)
    {
      FillKeeps(mem, use, freelist, free, f, p);
      mem := mem[f := p];
    }

    /** walkpgdir: the table for virtual page v, made if alloc is set and there is none. It changes no translation. */
    method Walkpgdir(d: nat, v: nat, alloc: bool) returns (t: Option<nat>)
      requires Valid() && d < |mem| == |use| && use[d] == Directory && v < ALLPAGES
      modifies this
      ensures Valid() && SameLookups(old(mem), mem, old(use)) && MapsOnly(old(mem), old(use), mem, use, d, 0, 0)
      ensures t.None? <==> !old(HasTable(mem, d, v)) && (!alloc || old(free) == [])
      ensures t.None? || old(HasTable(mem, d, v)) ==>
                mem == old(mem) && use == old(use) && free == old(free) && freelist == old(freelist)
      ensures t.Some? ==> HasTable(mem, d, v) && t.value == FrameOf(mem[d][v / NENTRIES])
      ensures t.Some? ==> OneTable(old(mem[d]), mem[d], v / NENTRIES)
      ensures t.Some? && !old(HasTable(mem, d, v)) ==> old(free) != [] && free == old(free)[1..]
    {
      hide MemOk, MapOk, FreeListOk;
      DirFacts(mem, use, freelist, free, d, v);
      MapsOnlySame(mem, use, d);
      var pdx := v / NENTRIES;
      if Present(mem[d][pdx]) {
        return Some(FrameOf(mem[d][pdx]));
      }
      if !alloc {
        return None;
      }
      t := Kalloc();
      if t.None? {
        return;
      }
      TableStep(mem, use, freelist, free, d, pdx, t.value);
      mem := mem[t.value := ZERO_PAGE];
      mem := mem[d := mem[d][pdx := Entry(t.value, PTE_P + PTE_W + PTE_U)]];
      use := use[t.value := Table(d, pdx)];
    }

    /** One round of mappages: virtual page v of directory d comes to map frame f. */
    method MapPage(d: nat, v: nat, f: nat, flags: nat) returns (r: MapResult)
      requires Valid() && d < |mem| == |use| && use[d] == Directory && v < ALLPAGES && f < ALLPAGES && flags < PGSIZE
      requires v < USERPAGES ==> f < |mem| && use[f] == Kernel
      modifies this
      ensures Valid() && |mem| == |use|
      ensures r.Mapped? ==> RangeDone(old(mem), old(use), old(free), mem, use, free, d, v, 1, f, flags)
      ensures r.Mapped? ==> !old(Present(Lookup(mem, d, v)))
      ensures !r.Mapped? ==> mem == old(mem) && use == old(use) && free == old(free) && freelist == old(freelist)
      ensures r.Remap? ==> Present(Lookup(mem, d, v))
      ensures r.NoMemory? ==> free == [] && !Present(mem[d][v / NENTRIES])
    {
      hide MemOk, MapOk, FreeListOk;
      DirFacts(mem, use, freelist, free, d, v);
      var t := Walkpgdir(d, v, true);
      if t.None? {
        return NoMemory;
      }
      DirFacts(mem, use, freelist, free, d, v);
      if Present(mem[t.value][v % NENTRIES]) {
        return Remap;
      }
      EntryStep(mem, use, freelist, free, d, v, f, flags);
      MapPageDone(old(mem), old(use), old(free), mem, use, free, d, v, f, flags);
      mem := mem[t.value := mem[t.value][v % NENTRIES := Entry(f, flags)]];
      if v < USERPAGES {
        use := use[f := User(d, v)];
      }
      return Mapped;
    }

    /** mappages: the pages from va to va + size - 1 map the frames from pa on, in order, and no other
        translation changes. With no page of the range present, it succeeds exactly when there is a free frame
        for each missing table. */
    method Mappages(d: nat, va: nat, size: nat, pa: nat, perm: nat) returns (r: MapResult, ghost done: nat)
      requires Valid() && d < |mem| == |use| && use[d] == Directory
      requires size > 0 && va + size <= WORDMAX && pa % PGSIZE == 0 && perm < PGSIZE
      requires var first, last := va / PGSIZE, (va + size - 1) / PGSIZE;
               pa / PGSIZE + last - first < ALLPAGES && HeldRange(use, pa / PGSIZE, UserPart(first, last - first + 1))
      modifies this
      ensures Valid() && |mem| == |use|
      ensures var first, last := va / PGSIZE, (va + size - 1) / PGSIZE;
              && done <= last - first + 1 && (r.Mapped? <==> done == last - first + 1)
              && RangeDone(old(mem), old(use), old(free), mem, use, free, d, first, done, pa / PGSIZE, perm)
              && (r.Remap? ==> Present(Lookup(mem, d, first + done)))
              && (r.NoMemory? ==> free == [] && !Present(mem[d][(first + done) / NENTRIES]))
      ensures var first, n := va / PGSIZE, (va + size - 1) / PGSIZE - va / PGSIZE + 1;
              (forall v :: first <= v < first + n ==> !old(Present(Lookup(mem, d, v)))) ==>
                (r.Mapped? <==> |old(free)| >= Missing(old(mem[d]), first / NENTRIES, PdxEnd(first, n)))
    {
      hide MemOk, MapOk, FreeListOk, RangeDone, Missing, HeldRange, UserPart;
      var first, last := va / PGSIZE, (va + size - 1) / PGSIZE;
      var a, frame := first, pa / PGSIZE;
      done := 0;
      RangeNone(mem, use, free, d, first, frame, perm);
      while true
        invariant Valid() && d < |mem| == |use| && use[d] == Directory && first <= a <= last < ALLPAGES
        invariant done == a - first && frame == pa / PGSIZE + done && frame < ALLPAGES
        invariant RangeDone(old(mem), old(use), old(free), mem, use, free, d, first, done, pa / PGSIZE, perm)
        invariant HeldRange(use, frame, UserPart(a, last - a + 1))
        decreases last - a
      {
        HeldLess(use, frame, a, 1, last - a + 1);
        label L: r := MapPage(d, a, frame, perm);
        if r != Mapped {
          MapExact(old(mem), old(use), old(free), mem, use, free, d, first, done, last - first + 1, pa / PGSIZE, perm,
              r);
          return;
        }
        HeldLess(old(use), pa / PGSIZE, first, done + 1, last - first + 1);
        HeldNext(old@L(mem), old@L(use), old@L(free), mem, use, free, d, a, last - a + 1, frame, perm);
        RangeMore(old(mem), old(use), old(free), old@L(mem), old@L(use), old@L(free), mem, use, free, d, first, done,
            pa / PGSIZE, perm);
        RangeFacts(old(mem), old(use), old(free), mem, use, free, d, first, done + 1, pa / PGSIZE, perm);
        done := done + 1;
        if a == last {
          break;
        }
        a, frame := a + 1, frame + 1;
      }
      MapExact(old(mem), old(use), old(free), mem, use, free, d, first, done, last - first + 1, pa / PGSIZE, perm, r);
    }

    /** One entry of kmap; n0 frames were free when the directory was made. */
    method MapKmap(d: nat, data: nat, k: nat, ghost n0: nat) returns (ok: bool)
      requires Valid() && k < 4 && KernelSpace(mem, use, free, d, data, k, n0)
      modifies this
      ensures Valid() && d < |mem| == |use| && use[d] == Directory && MapsOnly(old(mem), old(use), mem, use, d, 0, 0)
      ensures ok ==> KernelSpace(mem, use, free, d, data, k + 1, n0)
      ensures !ok ==> free == [] && n0 < 65
    {
      hide MemOk, MapOk, FreeListOk, RangeDone, KernelSpace, MapsOnly, KernelEntry, KernelImage, HeldRange, UserPart,
           KmapPages, KmapTable, Missing, PdxEnd;
      KernelSpaceFacts(mem, use, free, d, data, k, n0);
      var m := KmapTable(data)[k];
      KmapRange(data, k);
      ghost var (v, n, f) := KmapPages(data, k);
      HeldNone(use, f, v, n);
      var res, done := Mappages(d, m.virt, (m.physEnd - m.physStart) % WORDMAX, m.physStart, m.perm);
      RangeMaps(old(mem), old(use), old(free), mem, use, free, d, v, done, f, m.perm);
      RangeFacts(old(mem), old(use), old(free), mem, use, free, d, v, done, f, m.perm);
      ok := res.Mapped?;
      if ok {
        KmapStep(old(mem), old(use), old(free), mem, use, free, d, data, k, n0);
      } else {
        KmapNoRemap(old(mem), old(use), old(free), mem, use, free, d, data, k, n0, done);
        KmapShort(old(mem), old(use), old(free), mem, use, d, data, k, n0, done);
      }
    }

    /** setupkvm: a directory holding exactly the kernel's mappings. It succeeds exactly when 65 frames are
        free: the directory, 56 tables for physical memory and 8 for the devices. When it fails it has used up
        every free frame, and the directory and tables it made stay allocated. */
    method Setupkvm(data: nat) returns (r: Option<nat>)
      requires Valid() && DataOk(data)
      modifies this
      ensures Valid() && SetupOutcome(old(mem), old(use), old(free), mem, use, free, data, r)
      ensures r.Some? ==> r.value < |mem| && UpperClosed(mem, r.value)
    {
      hide MemOk, MapOk, FreeListOk, RangeDone, KernelSpace, MapsOnly, NewSpace, KernelEntry, KernelImage, SameLookups,
           OfSpace, Retired, UpperClosed;
      r := Kalloc();
      if r.None? {
        return;
      }
      var d := r.value;
      NoPartOfFree(old(mem), old(use), old(freelist), old(free), d);
      Fill(d, ZERO_PAGE);
      DirectoryStep(mem, use, freelist, free, d);
      ImageStep(use, kernelEnd, d, Directory);
      use := use[d := Directory];
      NewSpaceStart(old(mem), old(use), mem, use, free, d, data, |old(free)|);
      var k := 0;
      while k < 4
        invariant 0 <= k <= 4 && Valid() && d < |mem| == |use| && use[d] == Directory
        invariant NewSpace(old(mem), old(use), mem, use, d) && KernelSpace(mem, use, free, d, data, k, |old(free)|)
      {
        label L: var ok := MapKmap(d, data, k, |old(free)|);
        NewSpaceMaps(old(mem), old(use), old@L(mem), old@L(use), mem, use, d);
        if !ok {
          return None;
        }
        k := k + 1;
      }
      KernelSpaceCost(mem, use, free, d, data, |old(free)|);
      KernelSpaceClosed(mem, use, freelist, free, d, data, |old(free)|);
    }

    /** One page of deallocuvm: unmap it, if it is mapped, and free its frame. */
    method DropOne(d: nat, a: nat, ghost m0: seq<Page>, ghost u0: seq<Use>, ghost lo: nat, ghost hi: nat)
      requires Valid() && MapOk(m0, u0) && Dropped(m0, u0, mem, use, d, lo, hi, a)
      requires a < hi && Visited(m0[d], lo, hi, a) && HasTable(mem, d, a)
      modifies this
      ensures Valid() && Dropped(m0, u0, mem, use, d, lo, hi, a + 1)
    {
      hide MemOk, MapOk, FreeListOk, Dropped, Visited, KernelImage;
      DroppedFacts(m0, u0, mem, use, d, lo, hi, a);
      DirFacts(mem, use, freelist, free, d, a);
      var pte := mem[FrameOf(mem[d][a / NENTRIES])][a % NENTRIES];
      if Present(pte) {
        var f := FrameOf(pte);
        UnmapStep(mem, use, freelist, free, d, a);
        ImageStep(use, kernelEnd, f, Kernel);
        mem := StoreEntry(mem, d, a, 0);
        use := use[f := Kernel];
        ghost var m1, u1 := mem, use;
        KfreeHeld(f);
        DropFreed(m0, u0, old(mem), old(use), m1, u1, mem, d, lo, hi, a, f);
        assert use == old(use)[f := OnFreeList];
      } else {
        DroppedLookup(m0, u0, mem, use, d, lo, hi, a);
        DropMove(m0, u0, mem, use, d, lo, hi, a, a + 1);
      }
    }

    /** deallocuvm: the pages that its walk looks at are unmapped and their frames freed. */
    method Deallocuvm(d: nat, oldsz: nat, newsz: nat) returns (r: nat)
      requires Valid() && d < |mem| == |use| && use[d] == Directory && oldsz <= KERNBASE
      modifies this
      ensures Valid()
      ensures newsz >= oldsz ==> r == oldsz && mem == old(mem) && use == old(use) && free == old(free)
      ensures newsz < oldsz ==>
                r == newsz && Dropped(old(mem), old(use), mem, use, d, Pages(newsz), Pages(oldsz), USERPAGES)
      ensures UpperKept(old(mem), old(use), mem, use)
    {
      hide MemOk, MapOk, FreeListOk, Dropped, Visited, KernelImage, WalkAt, UpperClosed;
      if newsz >= oldsz {
        return oldsz;
      }
      ghost var m0, u0, lo, hi := mem, use, Pages(newsz), Pages(oldsz);
      MemFacts(mem, use, freelist, free);
      DropNone(mem, use, d, lo, hi);
      var a := Pages(newsz);
      while a * PGSIZE < oldsz
        invariant Valid() && Dropped(m0, u0, mem, use, d, lo, hi, a) && WalkAt(m0[d], lo, hi, a)
        decreases oldsz - a * PGSIZE
      {
        DroppedFacts(m0, u0, mem, use, d, lo, hi, a);
        DirFacts(mem, use, freelist, free, d, a);
        var t := Walkpgdir(d, a, false);
        if t.None? {
          WalkJump(m0[d], lo, hi, a);
          DropMove(m0, u0, mem, use, d, lo, hi, a, a + NENTRIES);
          a := a + NENTRIES - 1;
        } else {
          WalkNext(m0[d], lo, hi, a);
          DropOne(d, a, m0, u0, lo, hi);
        }
        a := a + 1;
      }
      DropEnd(m0, u0, mem, use, d, lo, hi, a);
      MemFacts(mem, use, freelist, free);
      DropUpper(m0, u0, mem, use, d, lo, hi);
      return newsz;
    }

    /** freevm: every frame of the address space goes back to the free list, and no other. */
    method Freevm(d: nat)
      requires Valid() && d < |mem| == |use| && use[d] == Directory
      modifies this
      ensures Valid() && Released(old(mem), old(use), mem, use, d)
    {
      hide MemOk, MapOk, FreeListOk, Dropped, KernelImage, Freeing, Released, Retired;
      ghost var m0, u0 := mem, use;
      MemFacts(mem, use, freelist, free);
      var _ := Deallocuvm(d, KERNBASE, 0);
      DroppedFacts(m0, u0, mem, use, d, 0, USERPAGES, USERPAGES);
      RetireStep(m0, u0, mem, use, freelist, free, d);
      ImageRetired(use, kernelEnd, d);
      use := Retired(use, d);
      var i := 0;
      while i < NENTRIES
        invariant 0 <= i <= NENTRIES && Valid() && Freeing(m0, u0, mem, use, d, i, false)
      {
        TableFrame(m0, u0, mem, use, d, i);
        FreeingFacts(m0, u0, mem, use, d, i);
        if Present(mem[d][i]) {
          label L: var t := FrameOf(mem[d][i]);
          KfreeHeld(t);
          FreeingTable(m0, u0, old@L(mem), old@L(use), mem, d, i, t);
        }
        i := i + 1;
      }
      FreeingFacts(m0, u0, mem, use, d, NENTRIES);
      ghost var m1, u1 := mem, use;
      KfreeHeld(d);
      FreeingDone(m0, u0, m1, u1, mem, d);
    }

    /** What allocuvm and copyuvm do for one page: get a frame, fill it, map it. When there is no frame left for
        the page table the frame got is lost; when the page is mapped already mappages panics. */
    method AddPage(d: nat, u: nat, w: Want) returns (r: AddResult, ghost g: nat)
      requires Valid() && d < |mem| == |use| && use[d] == Directory && u < USERPAGES && w.flags < PGSIZE
      modifies this
      ensures Valid() && |mem| == |use| == |old(mem)|
      ensures r.NoFrame? <==> old(free) == []
      ensures r.AlreadyMapped? <==> old(free) != [] && old(Present(Lookup(mem, d, u)))
      ensures r.NoFrame? ==> mem == old(mem) && use == old(use) && free == old(free)
      ensures r.Added? ==> AddedPage(old(mem), old(use), old(free), mem, use, free, d, u, g, w)
      ensures r.NoTable? ==>
                && old(free) == [g] && g < |mem| && old(use)[g] == OnFreeList
                && use == old(use)[g := Kernel] && free == []
                && mem == old(mem)[g := w.contents] && SameLookups(old(mem), mem, use)
                && !old(Present(mem[d][u / NENTRIES]))
    {
      hide MemOk, MapOk, FreeListOk, RangeDone, KernelImage;
      MemFacts(mem, use, freelist, free);
      g := 0;
      var f := Kalloc();
      if f.None? {
        return NoFrame, g;
      }
      g := f.value;
      Fill(f.value, w.contents);
      assert Lookup(mem, d, u) == old(Lookup(mem, d, u));
      var m := MapPage(d, u, f.value, w.flags);
      if m.Remap? {
        return AlreadyMapped, g;
      }
      if m.NoMemory? {
        assert old(free) == [old(free)[0]] + old(free)[1..];
        return NoTable, g;
      }
      RangeFacts(old(mem)[g := w.contents], old(use)[g := Kernel], old(free)[1..], mem, use, free, d, u, 1, g, w.flags);
      return Added, g;
    }

    /** allocuvm: grow a process from oldsz to newsz. It returns newsz exactly when no page there is mapped yet and
        there are frames for every page and for the tables of all pages but the last; all pages are mapped only
        when there is one for the last page's table as well. On failure the process is as it was. It panics exactly
        when there are frames enough to come to a page that is mapped already. */
    method Allocuvm(d: nat, oldsz: nat, newsz: nat) returns (r: AllocResult, ghost lost: Option<nat>)
      requires Valid() && d < |mem| == |use| && use[d] == Directory
      modifies this
      ensures Valid()
      ensures newsz >= KERNBASE || newsz < oldsz ==>
                r == Size(if newsz >= KERNBASE then 0 else oldsz) && mem == old(mem) && use == old(use)
      ensures oldsz <= newsz < KERNBASE ==>
                AllocOutcome(old(mem), old(use), old(free), mem, use, free, d, oldsz, newsz, r, lost)
      ensures r.Size? ==> UpperKept(old(mem), old(use), mem, use)
      ensures oldsz <= newsz < KERNBASE && r == Size(newsz) ==>
                d < |mem| && NewPages(mem, d, Pages(oldsz), Pages(newsz) - (if lost.Some? then 1 else 0))
    {
      hide MemOk, MapOk, FreeListOk, KernelImage, Growing, Grown, AddedPage, AllocOutcome, Retreated, SameFrom,
           NoneMapped, Dropped, Need, Zeros, Lookup, UpperClosed, NewPages, UserMay;
      lost := None;
      if newsz >= KERNBASE {
        return Size(0), lost;
      }
      if newsz < oldsz {
        return Size(oldsz), lost;
      }
      ghost var m0, u0, f0, first, hi := mem, use, free, Pages(oldsz), Pages(newsz);
      assert hi <= USERPAGES;
      MemFacts(mem, use, freelist, free);
      GrownNone(mem, use, free, d, first);
      GrowingNone(mem, use, free, d, first);
      var a := Pages(oldsz);
      ghost var n := 0;
      NoneMappedYet(m0, d, first);
      while a * PGSIZE < newsz
        invariant Valid() && first <= a <= hi && a == first + n + (if lost.Some? then 1 else 0)
        invariant Growing(m0, u0, f0, mem, use, free, d, first, Zeros(n), lost) && NoneMapped(m0, d, first, a)
        decreases newsz - a * PGSIZE
      {
        GrowingFacts(m0, u0, f0, mem, use, free, d, first, Zeros(n), lost);
        label L: var ok := AllocOne(d, a, m0, u0, f0, first, n, lost);
        if ok.AlreadyMapped? {
          ComesTo(m0, u0, f0, old@L(mem), old@L(use), old@L(free), mem, use, free, d, oldsz, newsz, n, lost);
          return Remapped(a), lost;
        }
        if ok.NoFrame? {
          GrowingFacts(m0, u0, f0, mem, use, free, d, first, Zeros(n), lost);
          MemFacts(mem, use, freelist, free);
          ghost var m1, u1, f1 := mem, use, free;
          var _ := Deallocuvm(d, newsz, oldsz);
          AllocRetreat(m0, u0, f0, m1, u1, f1, mem, use, d, first, n, hi, lost);
          AllocFailed(m0, u0, f0, m1, u1, f1, mem, use, free, d, oldsz, newsz, n, lost);
          AllocRights(m0, u0, f0, mem, use, freelist, free, d, oldsz, newsz, 0, lost);
          return Size(0), lost;
        }
        NoneMappedMore(m0, u0, f0, old@L(mem), old@L(use), old@L(free), d, first, n, lost);
        if ok.NoTable? {
          lost := Some(old@L(free)[0]);
        } else {
          n := n + 1;
        }
        a := a + 1;
      }
      AllocAll(m0, u0, f0, mem, use, free, d, oldsz, newsz, n, lost);
      AllocRights(m0, u0, f0, mem, use, freelist, free, d, oldsz, newsz, newsz, lost);
      return Size(newsz), lost;
    }

    /** One page of allocuvm. */
    method AllocOne(d: nat, a: nat, ghost m0: seq<Page>, ghost u0: seq<Use>, ghost f0: seq<nat>, ghost first: nat,
                    ghost n: nat, ghost lost: Option<nat>)
      returns (r: AddResult)
      requires Valid() && Growing(m0, u0, f0, mem, use, free, d, first, Zeros(n), lost) && a < USERPAGES
      requires d < |mem| == |use| && use[d] == Directory && a == first + n + (if lost.Some? then 1 else 0)
      modifies this
      ensures Valid() && (r.NoFrame? <==> old(free) == []) && (!r.NoFrame? ==> lost.None?)
      ensures r.AlreadyMapped? <==> old(free) != [] && old(Present(Lookup(mem, d, a)))
      ensures r.NoFrame? ==> mem == old(mem) && use == old(use) && free == old(free)
      ensures r.Added? ==> Growing(m0, u0, f0, mem, use, free, d, first, Zeros(n + 1), None)
      ensures r.NoTable? ==> Growing(m0, u0, f0, mem, use, free, d, first, Zeros(n), Some(old(free)[0]))
    {
      hide MemOk, MapOk, FreeListOk, KernelImage, Grown, AddedPage, SameFrom;
      ghost var g;
      r, g := AddPage(d, a, Want(PTE_W + PTE_U, ZERO_PAGE));
      if r.Added? {
        GrownMore(m0, u0, f0, old(mem), old(use), old(free), mem, use, free, d, first, Zeros(n), g, Want(PTE_W + PTE_U,
            ZERO_PAGE));
        assert Zeros(n) + [Want(PTE_W + PTE_U, ZERO_PAGE)] == Zeros(n + 1);
      } else if r.NoTable? {
        GrowingLost(m0, u0, f0, old(mem), old(use), d, first, Zeros(n), g, ZERO_PAGE);
      }
    }

    /** copyuvm: a new address space with the same user pages, in flags and in contents, and the kernel's mappings.
        It succeeds exactly when there are free frames for the kernel half, the pages and their tables; nothing
        that was in use changes, and a failure after setupkvm gives everything back but the frame lost when a
        table could not be had. */
    method Copyuvm(p: nat, sz: nat, data: nat) returns (r: CopyResult, ghost lost: Option<nat>)
      requires Valid() && p < |mem| == |use| && use[p] == Directory && sz <= KERNBASE && DataOk(data)
      modifies this
      ensures Valid()
      ensures CopyOutcome(old(mem), old(use), old(free), mem, use, free, p, sz, data, r, lost)
      ensures !r.NotPresent? ==> UpperKept(old(mem), old(use), mem, use)
      ensures r.Copied? ==>
                && r.d < |mem| && UpperClosed(mem, r.d)
                && forall v, write :: 0 <= v < ALLPAGES ==>
                     (UserMay(mem, r.d, v, write) <==> v < Pages(sz) && old(UserMay(mem, p, v, write)))
    {
      hide MemOk, MapOk, FreeListOk, KernelImage, Growing, Grown, AddedPage, NewSpace, KernelSpace, Copy, Returned,
           Released, EmptyFrom, NoneOf, CopyWant, Need, UpperClosed, UserMay, UpperKept;
      ghost var m0, u0, f0, n := mem, use, free, Pages(sz);
      MemFacts(mem, use, freelist, free);
      lost := None;
      var o := Setupkvm(data);
      if o.None? {
        CopyUpper(m0, u0, f0, mem, use, freelist, free, p, sz, data, OutOfMemory, lost);
        return OutOfMemory, lost;
      }
      var d := o.value;
      ghost var m1, u1, f1 := mem, use, free;
      CopyStart(m0, u0, old(freelist), m1, u1, f0, f1, p, d, data, n);
      var i := 0;
      while i * PGSIZE < sz
        invariant Valid() && 0 <= i <= n && forall v :: 0 <= v < i ==> Present(Lookup(m0, p, v))
        invariant Growing(m1, u1, f1, mem, use, free, d, 0, CopyWant(m0, p, i), None)
        decreases sz - i * PGSIZE
      {
        GrowingFacts(m1, u1, f1, mem, use, free, d, 0, CopyWant(m0, p, i), None);
        assert Need(m1[d], 0, i) + 65 == CopyCost(i);
        var ok;
        ok, lost := CopyPage(p, d, i, m0, u0, m1, u1, f1);
        if ok.Absent? {
          return NotPresent(i), lost;
        }
        if ok.added != Added {
          GrowingFacts(m1, u1, f1, mem, use, free, d, 0, CopyWant(m0, p, i), lost);
          CopyShort(m1, u1, f1, mem, use, free, d, CopyWant(m0, p, i), lost, n);
          ghost var m2, u2, f2 := mem, use, free;
          Freevm(d);
          CopyFailed(m0, u0, m1, u1, f1, m2, u2, f2, mem, use, d, CopyWant(m0, p, i), lost);
          CopyUpper(m0, u0, f0, mem, use, freelist, free, p, sz, data, OutOfMemory, lost);
          return OutOfMemory, lost;
        }
        i := i + 1;
      }
      CopyDone(m0, u0, f0, m1, u1, f1, mem, use, free, p, d, n, data);
      CopyUpper(m0, u0, f0, mem, use, freelist, free, p, sz, data, Copied(d), lost);
      return Copied(d), lost;
    }

    /** Page i of the parent: none if it is not present. */
    method CopyPage(p: nat, d: nat, i: nat, ghost m0: seq<Page>, ghost u0: seq<Use>, ghost m1: seq<Page>,
                    ghost u1: seq<Use>, ghost f1: seq<nat>)
      returns (r: CopyStep, ghost lost: Option<nat>)
      requires Valid() && MapOk(m0, u0) && p < |m0| == |u0| && u0[p] == Directory && i < USERPAGES &&
               NewSpace(m0, u0, m1, u1, d)
      requires Growing(m1, u1, f1, mem, use, free, d, 0, CopyWant(m0, p, i), None) && d < |m1| && EmptyFrom(m1, d, 0)
      modifies this
      ensures Valid() && (r.Absent? <==> !Present(Lookup(m0, p, i)))
      ensures r == Tried(Added) ==>
                lost.None? && Growing(m1, u1, f1, mem, use, free, d, 0, CopyWant(m0, p, i + 1), None)
      ensures r.Tried? && r.added != Added ==>
                free == [] && Growing(m1, u1, f1, mem, use, free, d, 0, CopyWant(m0, p, i), lost)
    {
      hide MemOk, MapOk, FreeListOk, KernelImage, Growing, Grown, AddedPage, NewSpace, EmptyFrom, CopyWant, SameFrom;
      lost := None;
      GrowingFacts(m1, u1, f1, mem, use, free, d, 0, CopyWant(m0, p, i), lost);
      ParentSame(m0, u0, m1, u1, f1, mem, use, free, p, d, CopyWant(m0, p, i), i);
      DirFacts(mem, use, freelist, free, p, i);
      var t := Walkpgdir(p, i, false);
      if t.None? || !Present(mem[t.value][i % NENTRIES]) {
        return Absent, lost;
      }
      var pte := mem[t.value][i % NENTRIES];
      var ok;
      ok, lost := CopyOne(d, i, Want(FlagsOf(pte), mem[FrameOf(pte)]), m1, u1, f1, CopyWant(m0, p, i));
      CopyWantMore(m0, p, i);
      return Tried(ok), lost;
    }

    /** One page of copyuvm. */
    method CopyOne(d: nat, u: nat, w: Want, ghost m1: seq<Page>, ghost u1: seq<Use>, ghost f1: seq<nat>,
                   ghost want: seq<Want>)
      returns (r: AddResult, ghost lost: Option<nat>)
      requires Valid() && Growing(m1, u1, f1, mem, use, free, d, 0, want, None) && u == |want| < USERPAGES
      requires d < |m1| && EmptyFrom(m1, d, 0)
      requires d < |mem| == |use| && use[d] == Directory && w.flags < PGSIZE
      modifies this
      ensures Valid()
      ensures r.Added? ==> lost.None? && Growing(m1, u1, f1, mem, use, free, d, 0, want + [w], None)
      ensures !r.Added? ==> free == [] && Growing(m1, u1, f1, mem, use, free, d, 0, want, lost)
    {
      hide MemOk, MapOk, FreeListOk, KernelImage, Grown, AddedPage, EmptyFrom, SameFrom;
      ghost var g;
      lost := None;
      GrowingFacts(m1, u1, f1, mem, use, free, d, 0, want, None);
      EmptyNext(m1, mem, d, 0, u);
      r, g := AddPage(d, u, w);
      if r.Added? {
        GrownMore(m1, u1, f1, old(mem), old(use), old(free), mem, use, free, d, 0, want, g, w);
      } else if r.NoTable? {
        GrowingLost(m1, u1, f1, old(mem), old(use), d, 0, want, g, w.contents);
        lost := Some(g);
      }
    }
  }

  lemma HeadIsWord(mem: seq<Page>, use: seq<Use>, head: nat, free: seq<nat>)
    requires MemOk(mem, use, head, free)
    ensures head < WORDMAX
  {
    if free != [] {
      TakeFrame(mem, use, head, free);
    }
  }

  lemma FillKeeps(mem: seq<Page>, use: seq<Use>, head: nat, free: seq<nat>, f: nat, p: Page)
    requires MemOk(mem, use, head, free) && f < |mem| && use[f] == Kernel
    ensures MemOk(mem[f := p], use, head, free) && SameLookups(mem, mem[f := p], use)
  {
    DataKeepsMap(mem, use, mem[f := p], use);
    FreeListFrame(mem, use, mem[f := p], use, head, free);
  }

  lemma RangeFacts(mem: seq<Page>, use: seq<Use>, free: seq<nat>, mem': seq<Page>, use': seq<Use>, free': seq<nat>,
                   d: nat, v: nat, n: nat, f: nat, flags: nat)
    requires RangeDone(mem, use, free, mem', use', free', d, v, n, f, flags)
    ensures |mem'| == |mem| == |use| == |use'| && d < |mem| && use'[d] == Directory
  {
  }

  lemma MapPageDone(m0: seq<Page>, u0: seq<Use>, f0: seq<nat>, mem: seq<Page>, use: seq<Use>, free: seq<nat>,
                    d: nat, v: nat, f: nat, flags: nat)
    requires d < |mem| == |m0| == |use| == |u0| && u0[d] == Directory && v < ALLPAGES && HasTable(mem, d, v) &&
             f < ALLPAGES && flags < PGSIZE
    requires SameLookups(m0, mem, u0) && MapsOnly(m0, u0, mem, use, d, 0, 0) && OneTable(m0[d], mem[d], v / NENTRIES)
    requires |free| + (if Present(m0[d][v / NENTRIES]) then 0 else 1) == |f0|
    requires v < USERPAGES ==> f < |use| && u0[f] == use[f] == Kernel
    requires var mem' := StoreEntry(mem, d, v, Entry(f, flags));
             && Ranged(mem, use, mem', d, v, 1, f, flags) && mem'[d] == mem[d]
             && MapsOnly(mem, use, mem', if v < USERPAGES then use[f := User(d, v)] else use, d, f, UserPart(v, 1))
    ensures var mem' := StoreEntry(mem, d, v, Entry(f, flags));
            RangeDone(m0, u0, f0, mem', if v < USERPAGES then use[f := User(d, v)] else use, free, d, v, 1, f, flags)
  {
    var mem' := StoreEntry(mem, d, v, Entry(f, flags));
    var use' := if v < USERPAGES then use[f := User(d, v)] else use;
    MissingOne(m0[d], v / NENTRIES);
    MapsOnlyThen(m0, u0, mem, use, mem', use', d, 0, 0, f, UserPart(v, 1));
  }

  lemma RangeMaps(mem: seq<Page>, use: seq<Use>, free: seq<nat>, mem': seq<Page>, use': seq<Use>, free': seq<nat>,
                  d: nat, v: nat, n: nat, f: nat, flags: nat)
    requires RangeDone(mem, use, free, mem', use', free', d, v, n, f, flags) && v >= USERPAGES
    ensures MapsOnly(mem, use, mem', use', d, 0, 0)
  {
  }

  lemma NewSpaceStart(m0: seq<Page>, u0: seq<Use>, mem: seq<Page>, use: seq<Use>, free: seq<nat>, d: nat, data: nat,
                      n0: nat)
    requires |m0| == |u0| && d < |m0| && u0[d] == OnFreeList && mem == m0[d := ZERO_PAGE] && use == u0[d := Directory]
    requires DataOk(data) && |free| + 1 == n0 && forall v :: 0 <= v < ALLPAGES ==> Lookup(mem, d, v) == 0
    ensures NewSpace(m0, u0, mem, use, d) && KernelSpace(mem, use, free, d, data, 0, n0)
  {
  }

  lemma KernelSpaceFacts(mem: seq<Page>, use: seq<Use>, free: seq<nat>, d: nat, data: nat, k: nat, n0: nat)
    requires KernelSpace(mem, use, free, d, data, k, n0)
    ensures DataOk(data) && d < |mem| == |use| && use[d] == Directory
  {
  }

  lemma KernelSpaceClosed(mem: seq<Page>, use: seq<Use>, head: nat, free: seq<nat>, d: nat, data: nat, n0: nat)
    requires KernelSpace(mem, use, free, d, data, 4, n0) && MemOk(mem, use, head, free)
    ensures d < |mem| && UpperClosed(mem, d)
  {
    hide MapOk, FreeListOk, UpperClosed;
    KernelClosed(mem, use, d, data);
  }

  lemma KernelSpaceCost(mem: seq<Page>, use: seq<Use>, free: seq<nat>, d: nat, data: nat, n0: nat)
    requires KernelSpace(mem, use, free, d, data, 4, n0)
    ensures |free| + 65 == n0
  {
  }

  lemma DroppedFacts(m0: seq<Page>, u0: seq<Use>, m1: seq<Page>, u1: seq<Use>, d: nat, lo: nat, hi: nat, a: nat)
    requires Dropped(m0, u0, m1, u1, d, lo, hi, a)
    ensures |m0| == |m1| == |u0| == |u1| && d < |u0| && u0[d] == u1[d] == Directory && hi <= USERPAGES && m1[d] == m0[d]
  {
  }

  lemma DroppedLookup(m0: seq<Page>, u0: seq<Use>, m1: seq<Page>, u1: seq<Use>, d: nat, lo: nat, hi: nat, a: nat)
    requires Dropped(m0, u0, m1, u1, d, lo, hi, a) && a < hi
    ensures d < |m0| == |m1| && a < ALLPAGES && Lookup(m1, d, a) == Lookup(m0, d, a)
  {
  }

  lemma DropFreed(m0: seq<Page>, u0: seq<Use>, m: seq<Page>, u: seq<Use>, m1: seq<Page>, u1: seq<Use>, m2: seq<Page>,
                  d: nat, lo: nat, hi: nat, a: nat, f: nat)
    requires Dropped(m0, u0, m, u, d, lo, hi, a) && MapOk(m0, u0) && a < hi && Visited(m0[d], lo, hi, a)
    requires Present(Lookup(m, d, a)) && f == FrameOf(Lookup(m, d, a)) && f < |m0| && u[f] == User(d, a)
    requires u1 == u[f := Kernel]
    requires HasTable(m, d, a) && m1 == StoreEntry(m, d, a, 0) &&
             u[FrameOf(m[d][a / NENTRIES])] == Table(d, a / NENTRIES)
    requires forall e, v :: 0 <= e < |m| && u[e] == Directory && 0 <= v < ALLPAGES ==>
               Lookup(m1, e, v) == if e == d && v == a then 0 else Lookup(m, e, v)
    requires |m2| == |m1| && m2 == m1[f := m2[f]] && SameLookups(m1, m2, u1)
    ensures Dropped(m0, u0, m2, u[f := OnFreeList], d, lo, hi, a + 1)
  {
    hide MapOk, Visited;
    DropPage(m0, u0, m, u, m2, d, lo, hi, a, f);
  }

  lemma DropEnd(m0: seq<Page>, u0: seq<Use>, m1: seq<Page>, u1: seq<Use>, d: nat, lo: nat, hi: nat, a: nat)
    requires Dropped(m0, u0, m1, u1, d, lo, hi, a) && MapOk(m0, u0) && a >= hi
    ensures Dropped(m0, u0, m1, u1, d, lo, hi, USERPAGES)
  {
    forall v: nat | Visited(m0[d], lo, hi, v) ensures v < hi {
      VisitedWithin(m0[d], lo, hi, v);
    }
    if a <= USERPAGES {
      DropMove(m0, u0, m1, u1, d, lo, hi, a, USERPAGES);
    }
  }

  /** deallocuvm leaves no page of its range mapped exactly when its walk skips over none. */
  lemma DeallocComplete(m0: seq<Page>, u0: seq<Use>, m1: seq<Page>, u1: seq<Use>, d: nat, lo: nat, hi: nat)
    requires Dropped(m0, u0, m1, u1, d, lo, hi, USERPAGES)
    ensures (forall v :: lo <= v < hi ==> !Present(Lookup(m1, d, v))) <==>
            (forall v :: lo <= v < hi && Present(Lookup(m0, d, v)) ==> !SkippedOver(m0[d], lo, v))
  {
    forall v | lo <= v < hi
      ensures Present(Lookup(m1, d, v)) <==> Present(Lookup(m0, d, v)) && SkippedOver(m0[d], lo, v)
    {
      VisitedExactly(m0[d], lo, hi, v);
    }
  }

  /** A process whose pages are contiguous from 0 shrinks to exactly the pages below lo. */
  lemma DeallocContiguous(m0: seq<Page>, u0: seq<Use>, m1: seq<Page>, u1: seq<Use>, d: nat, lo: nat, hi: nat, n: nat)
    requires Dropped(m0, u0, m1, u1, d, lo, hi, USERPAGES) && Contiguous(m0, d, n) && n <= hi
    ensures Contiguous(m1, d, if n < lo then n else lo)
  {
    forall v | 0 <= v < USERPAGES ensures Present(Lookup(m1, d, v)) <==> v < n && v < lo {
      if v < lo {
        if Visited(m0[d], lo, hi, v) {
          VisitedWithin(m0[d], lo, hi, v);
        }
      } else if v < n {
        assert Present(Lookup(m0, d, lo));
        VisitsAll(m0[d], lo, hi, v);
      }
    }
  }

  /** The pages from lo on that are mapped, with none missing between them, are all taken away. */
  lemma DeallocEmpty(m0: seq<Page>, u0: seq<Use>, m1: seq<Page>, u1: seq<Use>, d: nat, lo: nat, hi: nat, n: nat)
    requires Dropped(m0, u0, m1, u1, d, lo, hi, USERPAGES) && EmptyFrom(m0, d, n) && n <= hi
    requires forall v :: lo <= v < n ==> Present(Lookup(m0, d, v))
    ensures EmptyFrom(m1, d, lo)
  {
    forall v | lo <= v < USERPAGES ensures !Present(Lookup(m1, d, v)) {
      if v < n {
        assert Present(Lookup(m0, d, lo)) && Present(Lookup(m0, d, v));
        VisitsAll(m0[d], lo, hi, v);
      }
    }
  }

  /** A process that had exactly the pages below v has exactly those below v + |want|. */
  lemma GrownContiguous(m0: seq<Page>, u0: seq<Use>, f0: seq<nat>, m1: seq<Page>, u1: seq<Use>, f1: seq<nat>, d: nat,
                        v: nat, want: seq<Want>)
    requires Grown(m0, u0, f0, m1, u1, f1, d, v, want) && Contiguous(m0, d, v)
    ensures Contiguous(m1, d, v + |want|)
  {
    forall u | 0 <= u < v + |want| ensures Present(Lookup(m1, d, u)) {
      if u >= v {
        assert Fresh(u0, m1, u1, d, v + (u - v), want[u - v]);
      }
    }
  }

  // How a process comes by a page that deallocuvm jumps over

  /** With one frame free, allocuvm grows a process without a first table by one page, and nothing is mapped. */
  lemma GapStep(m0: seq<Page>, u0: seq<Use>, f0: seq<nat>, m1: seq<Page>, u1: seq<Use>, f1: seq<nat>, d: nat, k: nat,
                r: AllocResult, lost: Option<nat>)
    requires k < NENTRIES && d < |m0| && |f0| == 1 && EmptyFrom(m0, d, 0) && !Present(m0[d][0])
    requires AllocOutcome(m0, u0, f0, m1, u1, f1, d, k * PGSIZE, (k + 1) * PGSIZE, r, lost)
    ensures r == Size((k + 1) * PGSIZE) && f1 == [] && |m1| == |m0| == |u0| == |u1| && EmptyFrom(m1, d, 0)
    ensures forall f :: 0 <= f < |u0| && u0[f] != OnFreeList ==> u1[f] == u0[f]
    ensures forall j :: 0 <= j < NENTRIES ==> m1[d][j] == m0[d][j]
  {
    assert Pages(k * PGSIZE) == k && Pages((k + 1) * PGSIZE) == k + 1;
    assert k / NENTRIES == 0 && PdxEnd(k, 0) == 0 && PdxEnd(k, 1) == 1;
    MissingOne(m0[d], 0);
    assert Need(m0[d], k, 0) == 0 && Need(m0[d], k, 1) == 2;
    assert NoneMapped(m0, d, k, k + 1);
    assert Zeros(0) == [];
    assert forall u :: 0 <= u < k ==> Lookup(m1, d, u) == Lookup(m0, d, u);
  }

  /** With two, the first page of the second table is mapped. */
  lemma GapEnd(m0: seq<Page>, u0: seq<Use>, f0: seq<nat>, m1: seq<Page>, u1: seq<Use>, f1: seq<nat>, d: nat,
               r: AllocResult, lost: Option<nat>)
    requires d < |m0| && |f0| == 2 && EmptyFrom(m0, d, 0) && !Present(m0[d][0]) && !Present(m0[d][1])
    requires AllocOutcome(m0, u0, f0, m1, u1, f1, d, NENTRIES * PGSIZE, (NENTRIES + 1) * PGSIZE, r, lost)
    ensures r == Size((NENTRIES + 1) * PGSIZE) && d < |m1| && !Present(m1[d][0]) && Present(Lookup(m1, d, NENTRIES))
    ensures |u1| == |m1| && u1[d] == Directory
  {
    assert Pages(NENTRIES * PGSIZE) == NENTRIES && Pages((NENTRIES + 1) * PGSIZE) == NENTRIES + 1;
    assert NENTRIES / NENTRIES == 1 && PdxEnd(NENTRIES, 0) == 1 && PdxEnd(NENTRIES, 1) == 2;
    MissingOne(m0[d], 1);
    assert Need(m0[d], NENTRIES, 0) == 0 && Need(m0[d], NENTRIES, 1) == 2;
    assert NoneMapped(m0, d, NENTRIES, NENTRIES + 1);
    assert Fresh(u0, m1, u1, d, NENTRIES + 0, Zeros(1)[0]);
  }

  /** With no first table and a page at the start of the second, shrinking to one page leaves that page mapped. */
  lemma DeallocSkips(mem: seq<Page>, use: seq<Use>, mem': seq<Page>, use': seq<Use>, d: nat)
    requires d < |mem| && Present(Lookup(mem, d, NENTRIES)) && !Present(mem[d][0])
    requires Dropped(mem, use, mem', use', d, 1, NENTRIES + 1, USERPAGES)
    ensures Present(Lookup(mem', d, NENTRIES))
  {
    assert SkippedOver(mem[d], 1, NENTRIES) by {
      assert 1 / NENTRIES == 0 && NENTRIES / NENTRIES == 1 && NENTRIES % NENTRIES == 0;
    }
    VisitedExactly(mem[d], 1, NENTRIES + 1, NENTRIES);
  }

  /** Freed frames change neither the directory nor any translation. */
  lemma FreedKeeps(m0: seq<Page>, u0: seq<Use>, m1: seq<Page>, u1: seq<Use>, d: nat, f: nat)
    requires |m0| == |m1| == |u0| && d < |u0| && u0[d] == Directory && f < |u0| && u0[f] == Kernel
    requires m1 == m0[f := m1[f]] && u1 == u0[f := OnFreeList] && SameLookups(m0, m1, u0) && EmptyFrom(m0, d, 0)
    ensures EmptyFrom(m1, d, 0) && m1[d] == m0[d] && u1[d] == Directory
  {
  }

  /** A run of the kernel's own calls to that. Frames become free one at a time, and each time the process grows
      by a page, 1024 times, for which no page is mapped; then two are free, and the next page is. When the process
      shrinks to one page, that page stays mapped. */
  method GapRun(vm: Machine, d: nat, frames: seq<nat>) returns (size: nat)
    requires vm.Valid() && d < |vm.mem| == |vm.use| && vm.use[d] == Directory && vm.free == []
    requires EmptyFrom(vm.mem, d, 0) && !Present(vm.mem[d][0]) && !Present(vm.mem[d][1])
    requires |frames| == NENTRIES + 2 && Distinct(frames)
    requires forall i :: 0 <= i < |frames| ==> frames[i] < |vm.use| && vm.use[frames[i]] == Kernel
    modifies vm
    ensures vm.Valid() && size == PGSIZE && d < |vm.mem| && Present(Lookup(vm.mem, d, NENTRIES))
  {
    hide MemOk, MapOk, FreeListOk, KernelImage, AllocOutcome, Dropped, SameLookups, EmptyFrom;
    var k := 0;
    while k < NENTRIES
      invariant 0 <= k <= NENTRIES && vm.Valid() && d < |vm.mem| == |vm.use| && vm.use[d] == Directory && vm.free == []
      invariant EmptyFrom(vm.mem, d, 0) && !Present(vm.mem[d][0]) && !Present(vm.mem[d][1])
      invariant forall i :: k <= i < |frames| ==> frames[i] < |vm.use| && vm.use[frames[i]] == Kernel
    {
      ghost var m0, u0 := vm.mem, vm.use;
      vm.KfreeHeld(frames[k]);
      FreedKeeps(m0, u0, vm.mem, vm.use, d, frames[k]);
      ghost var m1, u1, f1 := vm.mem, vm.use, vm.free;
      var r, lost := vm.Allocuvm(d, k * PGSIZE, (k + 1) * PGSIZE);
      GapStep(m1, u1, f1, vm.mem, vm.use, vm.free, d, k, r, lost);
      k := k + 1;
    }
    ghost var m0, u0 := vm.mem, vm.use;
    vm.KfreeHeld(frames[NENTRIES]);
    FreedKeeps(m0, u0, vm.mem, vm.use, d, frames[NENTRIES]);
    ghost var m1, u1 := vm.mem, vm.use;
    vm.KfreeHeld(frames[NENTRIES + 1]);
    FreedKeeps(m1, u1, vm.mem, vm.use, d, frames[NENTRIES + 1]);
    ghost var m2, u2, f2 := vm.mem, vm.use, vm.free;
    var r, lost := vm.Allocuvm(d, NENTRIES * PGSIZE, (NENTRIES + 1) * PGSIZE);
    GapEnd(m2, u2, f2, vm.mem, vm.use, vm.free, d, r, lost);
    ghost var m3, u3 := vm.mem, vm.use;
    assert Pages(PGSIZE) == 1 && Pages((NENTRIES + 1) * PGSIZE) == NENTRIES + 1;
    size := vm.Deallocuvm(d, (NENTRIES + 1) * PGSIZE, PGSIZE);
    DeallocSkips(m3, u3, vm.mem, vm.use, d);
    DroppedFacts(m3, u3, vm.mem, vm.use, d, 1, NENTRIES + 1, USERPAGES);
  }

  lemma FreeExactly(mem: seq<Page>, use: seq<Use>, head: nat, free: seq<nat>, lo: nat, n: nat)
    requires MemOk(mem, use, head, free) && lo + n <= |use|
    requires forall f :: 0 <= f < |use| ==> (use[f] == OnFreeList <==> lo <= f < lo + n)
    ensures |free| == n
  {
    hide MapOk, FreeChain;
    var values := set x | x in free;
    SeqCardinality(free, values);
    assert values == Range(lo, lo + n);
  }

  lemma EmptyKernelSpace(m1: seq<Page>, u1: seq<Use>, f1: seq<nat>, d: nat, data: nat)
    requires KernelSpace(m1, u1, f1, d, data, 4, 65)
    ensures f1 == [] && EmptyFrom(m1, d, 0) && !Present(m1[d][0]) && !Present(m1[d][1])
  {
  }

  /** The same from boot: 65 frames are freed, setupkvm makes a directory of them, and the rest follows. */
  method BootToGap(pages: seq<Page>, end: nat, data: nat) returns (vm: Machine, d: nat, size: nat)
    requires |pages| * PGSIZE <= PHYSTOP && KERNBASE < end && end + (NENTRIES + 68) * PGSIZE <= Kva(|pages|)
    requires DataOk(data)
    ensures vm.Valid() && size == PGSIZE && d < |vm.mem| && Present(Lookup(vm.mem, d, NENTRIES))
  {
    hide MemOk, MapOk, FreeListOk, KernelImage, KernelSpace, EmptyFrom, SameLookups;
    vm := new Machine(pages, end);
    var k := (end - KERNBASE + PGSIZE - 1) / PGSIZE;
    vm.Freerange(Kva(k), Kva(k + 65));
    FreeExactly(vm.mem, vm.use, vm.freelist, vm.free, k, 65);
    var o := vm.Setupkvm(data);
    d := o.value;
    EmptyKernelSpace(vm.mem, vm.use, vm.free, d, data);
    var frames: seq<nat> := seq(NENTRIES + 2, i requires 0 <= i < NENTRIES + 2 => k + 65 + i);
    size := GapRun(vm, d, frames);
  }

  // What the failures of allocuvm, setupkvm and copyuvm look like

  /** n + 1 blank frames, all but the first held by the kernel. */
  lemma Blank(n: nat) returns (mem: seq<Page>, use: seq<Use>)
    ensures |mem| == |use| == n + 1
    ensures forall f :: 0 <= f <= n ==> mem[f] == ZERO_PAGE && use[f] == if f == 0 then Reserved else Kernel
  {
    if n == 0 {
      mem, use := [ZERO_PAGE], [Reserved];
    } else {
      var m, u := Blank(n - 1);
      mem, use := m + [ZERO_PAGE], u + [Kernel];
    }
  }

  /** The last k frames, held by the kernel, are freed. */
  lemma FreeLast(mem: seq<Page>, use: seq<Use>, k: nat) returns (m1: seq<Page>, u1: seq<Use>, head: nat, free: seq<nat>)
    requires MemOk(mem, use, 0, []) && k <= |mem| && forall f :: |mem| - k <= f < |mem| ==> use[f] == Kernel
    ensures MemOk(m1, u1, head, free) && |free| == k && |m1| == |u1| == |mem| && SameLookups(mem, m1, use)
    ensures forall f :: 0 <= f < |mem| - k ==> m1[f] == mem[f] && u1[f] == use[f]
    ensures forall f :: |mem| - k <= f < |mem| ==> u1[f] == OnFreeList
  {
    if k == 0 {
      m1, u1, head, free := mem, use, 0, [];
    } else {
      var m, u, h, fs := FreeLast(mem, use, k - 1);
      var f := |mem| - k;
      HeadIsWord(m, u, h, fs);
      GiveFrame(m, u, h, fs, f, JunkPage(h));
      m1, u1, head, free := m[f := JunkPage(h)], u[f := OnFreeList], Kva(f), [f] + fs;
      assert forall g :: 0 <= g < |mem| && use[g] == Directory ==> u[g] == Directory;
    }
  }

  /** An address space with no pages and no tables, and one free frame. */
  ghost predicate OneFrame(mem: seq<Page>, use: seq<Use>, head: nat) {
    && |mem| == |use| == 3 && MemOk(mem, use, head, [2]) && KernelImage(use, KERNBASE + PGSIZE)
    && use[1] == Directory && !Present(mem[1][0]) && EmptyFrom(mem, 1, 0)
  }

  lemma OneFrameSpace() returns (mem: seq<Page>, use: seq<Use>, head: nat)
    ensures OneFrame(mem, use, head)
  {
    var m, u := Blank(2);
    NewDirectory(m, u, 1);
    var free;
    mem, use, head, free := FreeLast(m, u[1 := Directory], 1);
    assert use[2] == OnFreeList && free == [2];
  }

  /** When allocuvm returns newsz, every page up to there is mapped exactly if there were frames for all of them. */
  lemma AllocComplete(m0: seq<Page>, u0: seq<Use>, f0: seq<nat>, m1: seq<Page>, u1: seq<Use>, f1: seq<nat>,
                      d: nat, oldsz: nat, newsz: nat, lost: Option<nat>)
    requires AllocOutcome(m0, u0, f0, m1, u1, f1, d, oldsz, newsz, Size(newsz), lost)
    requires Pages(oldsz) < Pages(newsz) && newsz > 0
    ensures d < |m1| && ((forall u :: Pages(oldsz) <= u < Pages(newsz) ==> Present(Lookup(m1, d, u))) <==>
                         |f0| >= Need(m0[d], Pages(oldsz), Pages(newsz) - Pages(oldsz)))
  {
    hide Need;
    var v, n := Pages(oldsz), Pages(newsz) - Pages(oldsz);
    if |f0| >= Need(m0[d], v, n) {
      GrowingPresent(m0, u0, f0, m1, u1, f1, d, v, Zeros(n), None);
    } else {
      LostFree(m0, u0, f0, m1, u1, f1, d, v, Zeros(n - 1), lost);
      assert !Present(Lookup(m1, d, v + n - 1));
    }
  }

  /** There allocuvm grows the process to one page, says so, and maps no page. */
  lemma AllocGap(mem: seq<Page>, use: seq<Use>, head: nat, mem': seq<Page>, use': seq<Use>, free': seq<nat>,
                 r: AllocResult, lost: Option<nat>)
    requires OneFrame(mem, use, head) && AllocOutcome(mem, use, [2], mem', use', free', 1, 0, PGSIZE, r, lost)
    ensures r == Size(PGSIZE) && |mem'| > 1 && !Present(Lookup(mem', 1, 0)) && free' == [] && |use'| == 3
    ensures use'[2] == Kernel
  {
    assert Pages(PGSIZE) == 1 && Need(mem[1], 0, 1) == 2 && Need(mem[1], 0, 0) == 0;
    assert NoneMapped(mem, 1, 0, 1);
    AllocComplete(mem, use, [2], mem', use', free', 1, 0, PGSIZE, lost);
    assert use[lost.value] == OnFreeList && lost.value in [2];
  }

  /** There setupkvm makes the last frame a directory and fails. */
  lemma SetupLoses(mem: seq<Page>, use: seq<Use>, head: nat, mem': seq<Page>, use': seq<Use>, head': nat,
                   free': seq<nat>, data: nat, r: Option<nat>)
    requires OneFrame(mem, use, head) && SetupOutcome(mem, use, [2], mem', use', free', data, r)
    requires MemOk(mem', use', head', free')
    ensures r.None? && free' == [] && |use'| == 3 && use'[2] == Directory
  {
    SetupKeeps(mem, use, head, [2], mem', use', head', free', data, r);
  }

  /** A process of one page, and a frame less than a copy of it takes. */
  ghost predicate OneShort(mem: seq<Page>, use: seq<Use>, head: nat, free: seq<nat>) {
    && MemOk(mem, use, head, free) && KernelImage(use, KERNBASE + PGSIZE) && |free| == 66 && |mem| == |use| > 1
    && use[1] == Directory && Present(Lookup(mem, 1, 0))
  }

  lemma OneShortSpace() returns (mem: seq<Page>, use: seq<Use>, head: nat, free: seq<nat>)
    ensures OneShort(mem, use, head, free)
  {
    var m, u := Blank(69);
    NewDirectory(m, u, 1);
    u := u[1 := Directory];
    NewTable(m, u, 1, 0, 2);
    m, u := m[1 := m[1][0 := Entry(2, PTE_P + PTE_W + PTE_U)]], u[2 := Table(1, 0)];
    assert FrameOf(m[1][0]) == 2;
    MapUser(m, u, 1, 0, 3, PTE_W + PTE_U);
    m, u := StoreEntry(m, 1, 0, Entry(3, PTE_W + PTE_U)), u[3 := User(1, 0)];
    mem, use, head, free := FreeLast(m, u, 66);
  }

  /** There copyuvm fails and loses a frame. */
  lemma CopyLoses(mem: seq<Page>, use: seq<Use>, head: nat, free: seq<nat>, mem': seq<Page>, use': seq<Use>,
                  free': seq<nat>, data: nat, r: CopyResult, lost: Option<nat>)
    requires OneShort(mem, use, head, free) && CopyOutcome(mem, use, free, mem', use', free', 1, PGSIZE, data, r, lost)
    ensures r == OutOfMemory && exists f :: f in free && f < |use'| && use'[f] == Kernel
  {
    assert Pages(PGSIZE) == 1 && CopyCost(1) == 67 && LosesFrame(66);
    assert use'[lost.value] == Kernel && lost.value in free;
  }
}
