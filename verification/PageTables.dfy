/** Two-level page tables in physical memory (mmu.h), who uses which frame, and the free list of kalloc.c.
    Memory is a sequence of pages of words, indexed by frame number. */
module PageTables {
  import opened Common

  const NENTRIES: nat := 1024
  const PGSIZE: nat := 4096
  const WORDMAX: nat := 0x1_0000_0000
  const KERNBASE: nat := 0x8000_0000
  const USERPAGES: nat := 0x8_0000      // pages below KERNBASE
  const ALLPAGES: nat := 0x10_0000

  const PTE_P: nat := 1
  const PTE_W: nat := 2
  const PTE_U: nat := 4

  type word = x: int | 0 <= x < WORDMAX
  type Page = p: seq<word> | |p| == NENTRIES witness seq(NENTRIES, _ => 0)

  predicate Present(w: word) {
    w % 2 == 1
  }

  /** The bits of an entry that the processor looks at before user code writes, and before it reads or writes. */
  predicate Writable(w: word) {
    w / 2 % 2 == 1
  }

  predicate ForUser(w: word) {
    w / 4 % 2 == 1
  }

  function FrameOf(w: word): (f: nat) {
    w / PGSIZE
  }

  function FlagsOf(w: word): (f: nat) {
    w % PGSIZE
  }

  /** flags | PTE_P */
  function WithP(flags: nat): (f: nat) {
    if flags % 2 == 1 then flags else flags + 1
  }

  /** The entry for a frame: pa | flags | PTE_P. */
  function Entry(frame: nat, flags: nat): (w: word)
    requires frame < ALLPAGES && flags < PGSIZE
    ensures Present(w) && FrameOf(w) == frame && FlagsOf(w) == WithP(flags)
  {
    frame * PGSIZE + WithP(flags)
  }

  /** What a frame is used for. Kernel stands for every other owner: a kernel stack, a pipe, a page between
      kalloc and the mapping of it. */
  datatype Use = Reserved | OnFreeList | Directory | Table(dir: nat, pdx: nat) | User(dir: nat, vpn: nat) | Kernel

  /** The page-table entry that the hardware finds for virtual page vpn, 0 if there is no table. */
  function Lookup(mem: seq<Page>, d: nat, vpn: nat): (w: word)
    requires d < |mem| && vpn < ALLPAGES
  {
    var e := mem[d][vpn / NENTRIES];
    if Present(e) && FrameOf(e) < |mem| then mem[FrameOf(e)][vpn % NENTRIES] else 0
  }

  predicate DirEntryOk(mem: seq<Page>, use: seq<Use>, d: nat, i: nat)
    requires |use| == |mem| && d < |mem| && i < NENTRIES
  {
    Present(mem[d][i]) ==>
      && FrameOf(mem[d][i]) < |mem| && use[FrameOf(mem[d][i])] == Table(d, i)
      && FlagsOf(mem[d][i]) == PTE_P + PTE_W + PTE_U
  }

  predicate UserEntryOk(mem: seq<Page>, use: seq<Use>, d: nat, v: nat)
    requires |use| == |mem| && d < |mem| && v < ALLPAGES
  {
    var w := Lookup(mem, d, v);
    Present(w) ==> FrameOf(w) < |mem| && use[FrameOf(w)] == User(d, v)
  }

  /** The tables of directory d, and the user pages they map, are its own. */
  ghost predicate SpaceOk(mem: seq<Page>, use: seq<Use>, d: nat)
    requires |use| == |mem| && d < |mem|
  {
    && (forall i :: 0 <= i < NENTRIES ==> DirEntryOk(mem, use, d, i))
    && (forall v :: 0 <= v < USERPAGES ==> UserEntryOk(mem, use, d, v))
  }

  /** A frame used as a table or a user page is mapped where its use says. */
  predicate FrameOk(mem: seq<Page>, use: seq<Use>, f: nat)
    requires |use| == |mem| && f < |mem|
  {
    match use[f]
    case Table(d, i) =>
      && d < |mem| && use[d] == Directory && i < NENTRIES
      && Present(mem[d][i]) && FrameOf(mem[d][i]) == f
    case User(d, v) =>
      && d < |mem| && use[d] == Directory && v < USERPAGES
      && Present(Lookup(mem, d, v)) && FrameOf(Lookup(mem, d, v)) == f
    case _ => true
  }

  /** Every frame has exactly one use, and the page tables agree with it, both ways. */
  ghost predicate MapOk(mem: seq<Page>, use: seq<Use>) {
    && |use| == |mem| <= ALLPAGES
    && (forall d :: 0 <= d < |mem| && use[d] == Directory ==> SpaceOk(mem, use, d))
    && (forall f :: 0 <= f < |mem| ==> FrameOk(mem, use, f))
  }

  /** Every directory translates every page as before. */
  ghost predicate SameLookups(mem: seq<Page>, mem': seq<Page>, use: seq<Use>)
  {
    && |mem| == |mem'| == |use|
    && forall d, v :: 0 <= d < |mem| && use[d] == Directory && 0 <= v < ALLPAGES ==>
         Lookup(mem', d, v) == Lookup(mem, d, v)
  }

  predicate IsMap(u: Use) {
    u.Directory? || u.Table?
  }

  /** No frame is mapped by two user pages, of one address space or of two, and no mapped frame is free, a page
      table, or in any other use. */
  lemma NoSharedFrames(mem: seq<Page>, use: seq<Use>, d: nat, v: nat, e: nat, u: nat)
    requires MapOk(mem, use) && d < |mem| && use[d] == Directory && v < USERPAGES && e < |mem| && use[e] == Directory &&
             u < USERPAGES
    requires Present(Lookup(mem, d, v))
    ensures FrameOf(Lookup(mem, d, v)) < |mem| && use[FrameOf(Lookup(mem, d, v))] == User(d, v)
    ensures Present(Lookup(mem, e, u)) && FrameOf(Lookup(mem, e, u)) == FrameOf(Lookup(mem, d, v)) ==> e == d && u == v
  {
    assert SpaceOk(mem, use, d) && SpaceOk(mem, use, e);
    assert UserEntryOk(mem, use, d, v) && UserEntryOk(mem, use, e, u);
  }

  /** User code may read virtual page v, or write it: the directory entry and the table entry must both let it. */
  predicate UserMay(mem: seq<Page>, d: nat, v: nat, write: bool)
    requires d < |mem| && v < ALLPAGES
  {
    var e, w := mem[d][v / NENTRIES], Lookup(mem, d, v);
    && Present(e) && Present(w) && ForUser(e) && ForUser(w)
    && (write ==> Writable(e) && Writable(w))
  }

  /** The directory lets user code do everything, so that the table entry alone decides. */
  lemma TableDecides(mem: seq<Page>, use: seq<Use>, d: nat, v: nat, write: bool)
    requires MapOk(mem, use) && d < |mem| && use[d] == Directory && v < ALLPAGES
    ensures var w := Lookup(mem, d, v);
            UserMay(mem, d, v, write) <==> Present(w) && ForUser(w) && (write ==> Writable(w))
  {
    assert SpaceOk(mem, use, d);
    assert DirEntryOk(mem, use, d, v / NENTRIES);
    FlagBits(mem[d][v / NENTRIES]);
  }

  /** The three bits are bits of the flags. */
  lemma FlagBits(w: word)
    ensures Present(w) <==> FlagsOf(w) % 2 == 1
    ensures Writable(w) <==> FlagsOf(w) / 2 % 2 == 1
    ensures ForUser(w) <==> FlagsOf(w) / 4 % 2 == 1
  {
    var f, k := FlagsOf(w), FrameOf(w);
    assert w == 4096 * k + f;
    assert w / 2 == 2048 * k + f / 2 && w / 4 == 1024 * k + f / 4;
  }

  // Changes of memory that respect the tables

  /** A directory's lookups depend only on the directory and its tables. */
  lemma LookupFrame(mem: seq<Page>, mem': seq<Page>, use: seq<Use>, d: nat, v: nat)
    requires |mem| == |mem'| == |use| && d < |mem| && v < ALLPAGES && use[d] == Directory
    requires forall i :: 0 <= i < NENTRIES ==> DirEntryOk(mem, use, d, i)
    requires mem'[d] == mem[d] && forall f :: 0 <= f < |mem| && use[f].Table? && use[f].dir == d ==> mem'[f] == mem[f]
    ensures Lookup(mem', d, v) == Lookup(mem, d, v)
  {
    assert DirEntryOk(mem, use, d, v / NENTRIES);
  }

  /** Pages that are neither directory nor table may change freely, and change their use among kernel uses. */
  lemma DataKeepsMap(mem: seq<Page>, use: seq<Use>, mem': seq<Page>, use': seq<Use>)
    requires MapOk(mem, use) && |mem'| == |use'| == |mem|
    requires forall f :: 0 <= f < |mem| && IsMap(use[f]) ==> mem'[f] == mem[f]
    requires forall f :: 0 <= f < |mem| ==>
               use'[f] == use[f] || (!IsMap(use[f]) && !use[f].User? && !IsMap(use'[f]) && !use'[f].User?)
    ensures MapOk(mem', use') && SameLookups(mem, mem', use)
  {
    forall d, v | 0 <= d < |mem| && use[d] == Directory && 0 <= v < ALLPAGES
      ensures Lookup(mem', d, v) == Lookup(mem, d, v)
    {
      LookupFrame(mem, mem', use, d, v);
    }
    forall d | 0 <= d < |mem| && use'[d] == Directory ensures SpaceOk(mem', use', d) {
      assert SpaceOk(mem, use, d);
      forall i | 0 <= i < NENTRIES ensures DirEntryOk(mem', use', d, i) {
        assert DirEntryOk(mem, use, d, i);
      }
      forall v | 0 <= v < USERPAGES ensures UserEntryOk(mem', use', d, v) {
        assert UserEntryOk(mem, use, d, v);
      }
    }
    forall f | 0 <= f < |mem| ensures FrameOk(mem', use', f) {
      assert FrameOk(mem, use, f);
    }
  }

  predicate ZeroPage(p: Page) {
    forall i :: 0 <= i < NENTRIES ==> p[i] == 0
  }

  /** walkpgdir installs a zeroed table: no translation changes. */
  lemma NewTable(mem: seq<Page>, use: seq<Use>, d: nat, i: nat, t: nat)
    requires MapOk(mem, use) && d < |mem| && use[d] == Directory && i < NENTRIES && t < |mem| && use[t] == Kernel
    requires ZeroPage(mem[t]) && !Present(mem[d][i])
    ensures var mem', use' := mem[d := mem[d][i := Entry(t, PTE_P + PTE_W + PTE_U)]], use[t := Table(d, i)];
            MapOk(mem', use') && SameLookups(mem, mem', use)
  {
    var mem', use' := mem[d := mem[d][i := Entry(t, PTE_P + PTE_W + PTE_U)]], use[t := Table(d, i)];
    assert SpaceOk(mem, use, d);
    forall e, v | 0 <= e < |mem| && use[e] == Directory && 0 <= v < ALLPAGES
      ensures Lookup(mem', e, v) == Lookup(mem, e, v)
    {
      assert SpaceOk(mem, use, e);
      assert DirEntryOk(mem, use, e, v / NENTRIES);
    }
    forall e | 0 <= e < |mem| && use'[e] == Directory ensures SpaceOk(mem', use', e) {
      assert SpaceOk(mem, use, e);
      forall j | 0 <= j < NENTRIES ensures DirEntryOk(mem', use', e, j) {
        assert DirEntryOk(mem, use, e, j);
      }
      forall v | 0 <= v < USERPAGES ensures UserEntryOk(mem', use', e, v) {
        assert UserEntryOk(mem, use, e, v);
      }
    }
    forall f | 0 <= f < |mem| ensures FrameOk(mem', use', f) {
      assert FrameOk(mem, use, f);
    }
  }

  /** Directory d has a table for virtual page v. */
  predicate HasTable(mem: seq<Page>, d: nat, v: nat)
    requires d < |mem| && v < ALLPAGES
  {
    Present(mem[d][v / NENTRIES]) && FrameOf(mem[d][v / NENTRIES]) < |mem|
  }

  /** Memory after storing w in the entry for virtual page v. */
  function StoreEntry(mem: seq<Page>, d: nat, v: nat, w: word): (r: seq<Page>)
    requires d < |mem| && v < ALLPAGES && HasTable(mem, d, v)
    ensures |r| == |mem|
  {
    var t := FrameOf(mem[d][v / NENTRIES]);
    mem[t := mem[t][v % NENTRIES := w]]
  }

  /** Storing one entry changes the translation of that page in that directory, and no other. */
  lemma StoreLookups(mem: seq<Page>, use: seq<Use>, d: nat, v: nat, w: word)
    requires MapOk(mem, use) && d < |mem| && use[d] == Directory && v < ALLPAGES && HasTable(mem, d, v)
    ensures var mem' := StoreEntry(mem, d, v, w);
            && use[FrameOf(mem[d][v / NENTRIES])] == Table(d, v / NENTRIES)
            && (forall e :: 0 <= e < |mem| && use[e] == Directory ==> mem'[e] == mem[e])
            && (forall e, u :: 0 <= e < |mem| && use[e] == Directory && 0 <= u < ALLPAGES ==>
                  Lookup(mem', e, u) == if e == d && u == v then w else Lookup(mem, e, u))
  {
    var mem' := StoreEntry(mem, d, v, w);
    assert SpaceOk(mem, use, d);
    assert DirEntryOk(mem, use, d, v / NENTRIES);
    forall e, u | 0 <= e < |mem| && use[e] == Directory && 0 <= u < ALLPAGES
      ensures Lookup(mem', e, u) == if e == d && u == v then w else Lookup(mem, e, u)
    {
      assert SpaceOk(mem, use, e);
      assert DirEntryOk(mem, use, e, u / NENTRIES);
      VpnParts(u, v);
    }
  }

  lemma VpnParts(u: nat, v: nat)
    ensures u == v <==> u / NENTRIES == v / NENTRIES && u % NENTRIES == v % NENTRIES
  {
    assert u == u / NENTRIES * 1024 + u % NENTRIES && v == v / NENTRIES * 1024 + v % NENTRIES;
  }

  /** Mapping a frame that the kernel holds as a user page. */
  lemma MapUser(mem: seq<Page>, use: seq<Use>, d: nat, v: nat, f: nat, flags: nat)
    requires MapOk(mem, use) && d < |mem| && use[d] == Directory && v < USERPAGES && HasTable(mem, d, v)
    requires !Present(Lookup(mem, d, v)) && f < |mem| && use[f] == Kernel && flags < PGSIZE
    ensures MapOk(StoreEntry(mem, d, v, Entry(f, flags)), use[f := User(d, v)])
  {
    var w := Entry(f, flags);
    var mem', use' := StoreEntry(mem, d, v, w), use[f := User(d, v)];
    StoreLookups(mem, use, d, v, w);
    forall e | 0 <= e < |mem| && use'[e] == Directory ensures SpaceOk(mem', use', e) {
      assert SpaceOk(mem, use, e);
      forall i | 0 <= i < NENTRIES ensures DirEntryOk(mem', use', e, i) {
        assert DirEntryOk(mem, use, e, i);
      }
      forall u | 0 <= u < USERPAGES ensures UserEntryOk(mem', use', e, u) {
        assert UserEntryOk(mem, use, e, u);
      }
    }
    forall g | 0 <= g < |mem| ensures FrameOk(mem', use', g) {
      assert FrameOk(mem, use, g);
    }
  }

  /** Mapping anything in the kernel half, or taking any entry there away. */
  lemma MapKernel(mem: seq<Page>, use: seq<Use>, d: nat, v: nat, w: word)
    requires MapOk(mem, use) && d < |mem| && use[d] == Directory && USERPAGES <= v < ALLPAGES && HasTable(mem, d, v)
    ensures MapOk(StoreEntry(mem, d, v, w), use)
  {
    var mem' := StoreEntry(mem, d, v, w);
    StoreLookups(mem, use, d, v, w);
    forall e | 0 <= e < |mem| && use[e] == Directory ensures SpaceOk(mem', use, e) {
      assert SpaceOk(mem, use, e);
      forall i | 0 <= i < NENTRIES ensures DirEntryOk(mem', use, e, i) {
        assert DirEntryOk(mem, use, e, i);
      }
      forall u | 0 <= u < USERPAGES ensures UserEntryOk(mem', use, e, u) {
        assert UserEntryOk(mem, use, e, u);
      }
    }
    forall g | 0 <= g < |mem| ensures FrameOk(mem', use, g) {
      assert FrameOk(mem, use, g);
    }
  }

  /** Unmapping a user page gives its frame back to the kernel. */
  lemma UnmapUser(mem: seq<Page>, use: seq<Use>, d: nat, v: nat)
    requires MapOk(mem, use) && d < |mem| && use[d] == Directory && v < USERPAGES && Present(Lookup(mem, d, v))
    ensures HasTable(mem, d, v)
    ensures var f := FrameOf(Lookup(mem, d, v));
            f < |mem| && use[f] == User(d, v) && MapOk(StoreEntry(mem, d, v, 0), use[f := Kernel])
  {
    assert SpaceOk(mem, use, d);
    assert UserEntryOk(mem, use, d, v);
    var f := FrameOf(Lookup(mem, d, v));
    var mem', use' := StoreEntry(mem, d, v, 0), use[f := Kernel];
    StoreLookups(mem, use, d, v, 0);
    forall e | 0 <= e < |mem| && use'[e] == Directory ensures SpaceOk(mem', use', e) {
      assert SpaceOk(mem, use, e);
      forall i | 0 <= i < NENTRIES ensures DirEntryOk(mem', use', e, i) {
        assert DirEntryOk(mem, use, e, i);
      }
      forall u | 0 <= u < USERPAGES ensures UserEntryOk(mem', use', e, u) {
        assert UserEntryOk(mem, use, e, u);
      }
    }
    forall g | 0 <= g < |mem| ensures FrameOk(mem', use', g) {
      assert FrameOk(mem, use, g);
    }
  }

  /** A zeroed kernel page becomes an empty directory. */
  lemma NewDirectory(mem: seq<Page>, use: seq<Use>, d: nat)
    requires MapOk(mem, use) && d < |mem| && use[d] == Kernel && ZeroPage(mem[d])
    ensures MapOk(mem, use[d := Directory]) && forall v :: 0 <= v < ALLPAGES ==> Lookup(mem, d, v) == 0
  {
    var use' := use[d := Directory];
    forall e | 0 <= e < |mem| && use'[e] == Directory ensures SpaceOk(mem, use', e) {
      if e != d {
        assert SpaceOk(mem, use, e);
        forall i | 0 <= i < NENTRIES ensures DirEntryOk(mem, use', e, i) {
          assert DirEntryOk(mem, use, e, i);
        }
        forall u | 0 <= u < USERPAGES ensures UserEntryOk(mem, use', e, u) {
          assert UserEntryOk(mem, use, e, u);
        }
      }
    }
    forall g | 0 <= g < |mem| ensures FrameOk(mem, use', g) {
      assert FrameOk(mem, use, g);
    }
  }

  predicate PartOf(u: Use, f: nat, d: nat) {
    f == d || (u.Table? && u.dir == d)
  }

  /** The uses once directory d is given up. */
  function Retired(use: seq<Use>, d: nat): (r: seq<Use>)
    ensures |r| == |use|
  {
    seq(|use|, f requires 0 <= f < |use| => if PartOf(use[f], f, d) then Kernel else use[f])
  }

  /** A directory with no user page left can be given up, with its tables. */
  lemma RetireDirectory(mem: seq<Page>, use: seq<Use>, d: nat)
    requires MapOk(mem, use) && d < |mem| && use[d] == Directory
    requires forall v :: 0 <= v < USERPAGES ==> !Present(Lookup(mem, d, v))
    ensures MapOk(mem, Retired(use, d))
  {
    var use' := Retired(use, d);
    forall e | 0 <= e < |mem| && use'[e] == Directory ensures SpaceOk(mem, use', e) {
      assert SpaceOk(mem, use, e);
      forall i | 0 <= i < NENTRIES ensures DirEntryOk(mem, use', e, i) {
        assert DirEntryOk(mem, use, e, i);
      }
      forall u | 0 <= u < USERPAGES ensures UserEntryOk(mem, use', e, u) {
        assert UserEntryOk(mem, use, e, u);
      }
    }
    forall g | 0 <= g < |mem| ensures FrameOk(mem, use', g) {
      assert FrameOk(mem, use, g);
    }
  }

  // The free list

  function Kva(f: nat): (a: nat) {
    f * PGSIZE + KERNBASE
  }

  /** The list of free frames, linked through the first word of each; 0 ends it. */
  predicate FreeChain(mem: seq<Page>, head: nat, free: seq<nat>)
    decreases |free|
  {
    if free == [] then head == 0
    else free[0] < |mem| && head == Kva(free[0]) && FreeChain(mem, mem[free[0]][0], free[1..])
  }

  ghost predicate FreeListOk(mem: seq<Page>, use: seq<Use>, head: nat, free: seq<nat>) {
    && |use| == |mem| && FreeChain(mem, head, free) && Distinct(free)
    && (forall i :: 0 <= i < |free| ==> free[i] < |mem|)
    && forall f :: 0 <= f < |mem| ==> (use[f] == OnFreeList <==> f in free)
  }

  /** Memory consistent as a whole. */
  ghost predicate MemOk(mem: seq<Page>, use: seq<Use>, head: nat, free: seq<nat>) {
    MapOk(mem, use) && FreeListOk(mem, use, head, free) && |mem| < USERPAGES
  }

  lemma {:induction false} ChainFrame(mem: seq<Page>, mem': seq<Page>, head: nat, free: seq<nat>)
    requires FreeChain(mem, head, free) && |mem'| == |mem|
    requires forall i :: 0 <= i < |free| && free[i] < |mem| ==> mem'[free[i]] == mem[free[i]]
    ensures FreeChain(mem', head, free)
    decreases |free|
  {
    if free != [] {
      assert mem'[free[0]] == mem[free[0]];
      assert forall i :: 0 <= i < |free[1..]| ==> free[1..][i] == free[i + 1];
      ChainFrame(mem, mem', mem[free[0]][0], free[1..]);
    }
  }

  /** Frames off the list may change. */
  lemma FreeListFrame(mem: seq<Page>, use: seq<Use>, mem': seq<Page>, use': seq<Use>, head: nat, free: seq<nat>)
    requires FreeListOk(mem, use, head, free) && |mem'| == |use'| == |mem|
    requires forall f :: 0 <= f < |mem| ==> (use'[f] == OnFreeList <==> use[f] == OnFreeList)
    requires forall f :: 0 <= f < |mem| && use[f] == OnFreeList ==> mem'[f] == mem[f]
    ensures FreeListOk(mem', use', head, free)
  {
    ChainFrame(mem, mem', head, free);
  }

  /** kalloc takes the head. */
  lemma TakeFrame(mem: seq<Page>, use: seq<Use>, head: nat, free: seq<nat>)
    requires MemOk(mem, use, head, free) && free != []
    ensures free[0] < |mem| && use[free[0]] == OnFreeList && head == Kva(free[0])
    ensures MemOk(mem, use[free[0] := Kernel], mem[free[0]][0], free[1..])
  {
    var f := free[0];
    assert f in free;
    var use' := use[f := Kernel];
    forall g | 0 <= g < |mem| ensures use'[g] == OnFreeList <==> g in free[1..] {
      assert free == [f] + free[1..];
      if g in free[1..] {
        var i :| 0 <= i < |free[1..]| && free[1..][i] == g;
        assert free[i + 1] == g;
      }
    }
    DataKeepsMap(mem, use, mem, use');
  }

  /** kfree puts a frame in front, overwriting its contents. */
  lemma GiveFrame(mem: seq<Page>, use: seq<Use>, head: nat, free: seq<nat>, f: nat, p: Page)
    requires MemOk(mem, use, head, free) && f < |mem| && use[f] == Kernel && p[0] == head
    ensures MemOk(mem[f := p], use[f := OnFreeList], Kva(f), [f] + free)
    ensures SameLookups(mem, mem[f := p], use)
  {
    var mem', use', free' := mem[f := p], use[f := OnFreeList], [f] + free;
    assert f !in free;
    ChainFrame(mem, mem', head, free);
    assert free'[1..] == free;
    DataKeepsMap(mem, use, mem', use');
    forall g | 0 <= g < |mem| ensures use'[g] == OnFreeList <==> g in free' {}
  }
}
