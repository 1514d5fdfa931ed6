/** The user heap allocator of umalloc.c. Addresses count Header units; a block is a header unit followed by
    the units it describes. sbrk is a parameter: the address it would return, or none. */
module Umalloc {
  import opened Blocks
  import opened Common

  /** The header fields s.ptr and s.size, by address. */
  datatype Mem = Mem(ptr: map<int, int>, size: map<int, int>)

  datatype Blk = Blk(a: int, n: int)

  predicate In(u: int, b: Blk) {
    b.a <= u < b.a + b.n
  }

  /** The units of a block. */
  function Span(b: Blk): (s: set<int>)
    ensures forall u :: u in s <==> In(u, b)
  {
    set u: int | b.a <= u < b.a + b.n && In(u, b)
  }

  /** The units of a list of blocks. */
  function Units(fl: seq<Blk>): (s: set<int>) {
    if fl == [] then {} else Span(fl[0]) + Units(fl[1..])
  }

  /** The headers in memory form this list, the last one pointing to end. */
  predicate Chain(m: Mem, fl: seq<Blk>, end: int)
    decreases |fl|
  {
    fl == [] ||
    (&& fl[0].a in m.ptr && fl[0].a in m.size && m.size[fl[0].a] == fl[0].n
     && m.ptr[fl[0].a] == First(fl[1..], end) && Chain(m, fl[1..], end))
  }

  function First(fl: seq<Blk>, end: int): (a: int) {
    if fl == [] then end else fl[0].a
  }

  /** Address order, with a gap between any two blocks: none overlap or touch. */
  predicate Apart(fl: seq<Blk>) {
    forall i, j :: 0 <= i < j < |fl| ==> fl[i].a + fl[i].n < fl[j].a
  }

  predicate Sized(fl: seq<Blk>) {
    forall i :: 0 <= i < |fl| ==> fl[i].n >= 1
  }

  predicate TailSized(fl: seq<Blk>) {
    forall i :: 1 <= i < |fl| ==> fl[i].n >= 1
  }

  /** The free list is one ring in address order, starting with base. */
  predicate FreeRing(m: Mem, base: int, fl: seq<Blk>) {
    fl != [] && fl[0] == Blk(base, 0) && TailSized(fl) && Apart(fl) && Chain(m, fl, base)
  }

  predicate InLive(live: set<Blk>, u: int) {
    exists b :: b in live && In(u, b)
  }

  /** Allocated blocks keep their sizes, and are apart from each other and from the free list. */
  predicate LiveOk(m: Mem, base: int, fl: seq<Blk>, live: set<Blk>) {
    && (forall b :: b in live ==> base < b.a && b.n >= 1 && b.a in m.size && m.size[b.a] == b.n && Span(b) !! Units(fl))
    && (forall b, c :: b in live && c in live && b != c ==> Span(b) !! Span(c))
  }

  /** The heap: free list and allocated blocks together make up exactly the units got from sbrk. */
  ghost predicate HeapOk(m: Mem, base: int, fl: seq<Blk>, live: set<Blk>, arena: set<int>) {
    && FreeRing(m, base, fl) && LiveOk(m, base, fl, live)
    && forall u :: u in arena <==> u in Units(fl) || InLive(live, u)
  }

  // Lists of blocks

  lemma {:induction false} UnitsConcat(x: seq<Blk>, y: seq<Blk>)
    ensures Units(x + y) == Units(x) + Units(y)
  {
    if x == [] {
      assert x + y == y;
    } else {
      assert (x + y)[1..] == x[1..] + y;
      UnitsConcat(x[1..], y);
    }
  }

  lemma UnitsOne(b: Blk)
    ensures Units([b]) == Span(b)
  {
    assert Units([b][1..]) == {};
  }

  lemma {:induction false} UnitsOf(fl: seq<Blk>, i: nat)
    requires i < |fl|
    ensures Span(fl[i]) <= Units(fl)
  {
    if i > 0 {
      UnitsOf(fl[1..], i - 1);
    }
  }

  lemma UnitsSplit(fl: seq<Blk>, t: nat)
    requires t < |fl|
    ensures Units(fl) == Units(fl[..t]) + Span(fl[t]) + Units(fl[t + 1..])
  {
    assert fl == fl[..t] + ([fl[t]] + fl[t + 1..]);
    UnitsConcat(fl[..t], [fl[t]] + fl[t + 1..]);
    UnitsConcat([fl[t]], fl[t + 1..]);
    UnitsOne(fl[t]);
  }

  // free

  /** Block b belongs right after fl[t]. */
  predicate Between(fl: seq<Blk>, t: nat, b: Blk) {
    t < |fl| && fl[t].a < b.a && (t + 1 < |fl| ==> b.a < fl[t + 1].a)
  }

  /** There is a place for every block above base that is apart from the list. */
  lemma {:induction false} Place(m: Mem, base: int, fl: seq<Blk>, b: Blk, n: nat) returns (t: nat)
    requires FreeRing(m, base, fl) && base < b.a && b.n >= 1 && Span(b) !! Units(fl)
    requires 1 <= n <= |fl| && (n < |fl| ==> b.a < fl[n].a)
    ensures Between(fl, t, b)
    decreases n
  {
    if fl[n - 1].a < b.a {
      t := n - 1;
    } else {
      UnitsOf(fl, n - 1);
      assert fl[n - 1].a == b.a ==> In(b.a, b) && In(b.a, fl[n - 1]);
      t := Place(m, base, fl, b, n - 1);
    }
  }

  /** The condition that ends free's search is met at the right place and nowhere else. */
  lemma SearchStops(m: Mem, base: int, fl: seq<Blk>, b: Blk, t: nat, k: nat)
    requires FreeRing(m, base, fl) && base < b.a && Between(fl, t, b) && k < |fl|
    ensures var p, q := fl[k].a, First(fl[k + 1..], base);
            (b.a > p && b.a < q) || (p >= q && (b.a > p || b.a < q)) <==> k == t
  {
    if k < t {
      assert fl[k + 1].a <= fl[t].a;
    } else if k > t {
      assert fl[t + 1].a <= fl[k].a;
    }
  }

  /** The place of b leaves room on both sides. */
  lemma Gap(m: Mem, base: int, fl: seq<Blk>, b: Blk, t: nat)
    requires FreeRing(m, base, fl) && Between(fl, t, b) && b.n >= 1 && Span(b) !! Units(fl)
    ensures fl[t].a + fl[t].n <= b.a && (t + 1 < |fl| ==> b.a + b.n <= fl[t + 1].a)
    ensures forall j :: t < j < |fl| ==> b.a < fl[j].a
  {
    UnitsOf(fl, t);
    assert In(b.a, b) && (fl[t].a + fl[t].n > b.a ==> In(b.a, fl[t]));
    if t + 1 < |fl| {
      UnitsOf(fl, t + 1);
      assert In(fl[t + 1].a, fl[t + 1]) && (b.a + b.n > fl[t + 1].a ==> In(fl[t + 1].a, b));
    }
  }

  /** Block b put before a list, merged with the first block if it touches it. */
  function Join(b: Blk, fl: seq<Blk>): (r: seq<Blk>)
    ensures r != [] && r[0].a == b.a
  {
    if fl != [] && b.a + b.n == fl[0].a then [Blk(b.a, b.n + fl[0].n)] + fl[1..] else [b] + fl
  }

  /** What free does to the headers at p and at its successor q. */
  function JoinMem(m: Mem, p: int, q: int): (r: Mem)
    requires p in m.size && q in m.ptr && q in m.size
  {
    if p + m.size[p] == q
    then Mem(m.ptr[p := m.ptr[q]], m.size[p := m.size[p] + m.size[q]])
    else Mem(m.ptr[p := q], m.size)
  }

  lemma SpanJoin(a: int, m: int, n: int)
    requires m >= 0 && n >= 0
    ensures Span(Blk(a, m + n)) == Span(Blk(a, m)) + Span(Blk(a + m, n))
  {
    forall u ensures In(u, Blk(a, m + n)) <==> In(u, Blk(a, m)) || In(u, Blk(a + m, n)) {}
  }

  /** Merging loses no unit. */
  lemma JoinUnits(b: Blk, fl: seq<Blk>)
    requires b.n >= 0 && Sized(fl)
    ensures Units(Join(b, fl)) == Span(b) + Units(fl)
  {
    if fl != [] && b.a + b.n == fl[0].a {
      SpanJoin(b.a, b.n, fl[0].n);
      assert ([Blk(b.a, b.n + fl[0].n)] + fl[1..])[1..] == fl[1..];
    } else {
      assert ([b] + fl)[1..] == fl;
    }
  }

  /** Merging keeps the order and leaves gaps. */
  lemma JoinApart(b: Blk, fl: seq<Blk>)
    requires Apart(fl) && Sized(fl) && (fl != [] ==> b.a + b.n <= fl[0].a)
    ensures Apart(Join(b, fl)) && TailSized(Join(b, fl)) && (b.n >= 1 ==> Sized(Join(b, fl)))
    ensures b.n == 0 && (fl != [] ==> b.a < fl[0].a) ==> Join(b, fl) == [b] + fl
  {
    if fl != [] {
      assert forall j :: 1 <= j < |fl| ==> fl[0].a + fl[0].n < fl[j].a;
    }
  }

  /** Headers not on the list do not matter to it. */
  lemma {:induction false} ChainFrame(m: Mem, m': Mem, fl: seq<Blk>, end: int)
    requires Chain(m, fl, end)
    requires forall i :: 0 <= i < |fl| ==> fl[i].a in m'.ptr && fl[i].a in m'.size
    requires forall i :: 0 <= i < |fl| && fl[i].a in m.ptr && fl[i].a in m.size ==>
               m'.ptr[fl[i].a] == m.ptr[fl[i].a] && m'.size[fl[i].a] == m.size[fl[i].a]
    ensures Chain(m', fl, end)
    decreases |fl|
  {
    if fl != [] {
      forall i | 0 <= i < |fl[1..]| ensures fl[1..][i] == fl[i + 1] {}
      ChainFrame(m, m', fl[1..], end);
    }
  }

  lemma {:induction false} ChainHas(m: Mem, fl: seq<Blk>, end: int, i: nat)
    requires Chain(m, fl, end) && i < |fl|
    ensures fl[i].a in m.ptr && fl[i].a in m.size && m.size[fl[i].a] == fl[i].n &&
            m.ptr[fl[i].a] == First(fl[i + 1..], end)
    decreases |fl|
  {
    if i > 0 {
      assert fl[1..][i - 1] == fl[i] && fl[1..][i..] == fl[i + 1..];
      ChainHas(m, fl[1..], end, i - 1);
    }
  }

  /** The header update of free builds the merged list. */
  lemma JoinChain(m: Mem, b: Blk, fl: seq<Blk>, end: int)
    requires Chain(m, fl, end) && b.a in m.size && m.size[b.a] == b.n && (fl == [] ==> b.a + b.n != end)
    requires forall i :: 0 <= i < |fl| ==> fl[i].a != b.a
    requires end in m.ptr && end in m.size
    ensures First(fl, end) in m.ptr && First(fl, end) in m.size
    ensures Chain(JoinMem(m, b.a, First(fl, end)), Join(b, fl), end)
  {
    forall i | 0 <= i < |fl| ensures fl[i].a in m.ptr && fl[i].a in m.size {
      ChainHas(m, fl, end, i);
    }
    var m' := JoinMem(m, b.a, First(fl, end));
    if fl != [] && b.a + b.n == fl[0].a {
      forall i | 0 <= i < |fl[1..]| ensures fl[1..][i] == fl[i + 1] {}
      ChainFrame(m, m', fl[1..], end);
      assert Join(b, fl)[1..] == fl[1..];
    } else {
      ChainFrame(m, m', fl, end);
      assert Join(b, fl)[1..] == fl;
    }
  }

  /** Two lists one after the other. */
  lemma {:induction false} ChainConcat(m: Mem, x: seq<Blk>, y: seq<Blk>, end: int)
    ensures Chain(m, x + y, end) <==> Chain(m, x, First(y, end)) && Chain(m, y, end)
    decreases |x|
  {
    if x == [] {
      assert x + y == y;
    } else {
      assert (x + y)[1..] == x[1..] + y;
      ChainConcat(m, x[1..], y, end);
    }
  }

  /** The free list with block b added after fl[t], merged with the neighbours it touches. */
  function Merged(fl: seq<Blk>, t: nat, b: Blk): (r: seq<Blk>)
    requires t < |fl|
  {
    fl[..t] + Join(fl[t], Join(b, fl[t + 1..]))
  }

  lemma ApartConcat(x: seq<Blk>, y: seq<Blk>)
    requires Apart(x) && Apart(y) && TailSized(x) && y != [] && Sized(y)
    requires forall i :: 0 <= i < |x| ==> x[i].a + x[i].n < y[0].a
    ensures Apart(x + y) && TailSized(x + y)
  {
    forall i, j | 0 <= i < j < |x + y| ensures (x + y)[i].a + (x + y)[i].n < (x + y)[j].a {
      if i < |x| <= j && j > |x| {
        assert y[0].a + y[0].n < y[j - |x|].a;
      }
    }
  }

  /** The parts of the list around fl[t]. */
  lemma Parts(m: Mem, base: int, fl: seq<Blk>, t: nat)
    requires FreeRing(m, base, fl) && t < |fl|
    ensures Apart(fl[..t]) && TailSized(fl[..t])
    ensures forall i :: 0 <= i < t ==> fl[..t][i].a + fl[..t][i].n < fl[t].a && fl[..t][i].n >= 0
    ensures Apart(fl[t + 1..]) && Sized(fl[t + 1..]) && fl[t].n >= 0 && (t > 0 ==> fl[t].n >= 1)
  {
  }

  lemma MergedApart(m: Mem, base: int, fl: seq<Blk>, t: nat, b: Blk)
    requires FreeRing(m, base, fl) && Between(fl, t, b) && b.n >= 1 && Span(b) !! Units(fl)
    ensures var r := Merged(fl, t, b); r != [] && r[0] == Blk(base, 0) && Apart(r) && TailSized(r)
  {
    hide Chain, Units, Span, Join, Apart, Sized, TailSized;
    Gap(m, base, fl, b, t);
    Parts(m, base, fl, t);
    var x, y := fl[..t], fl[t + 1..];
    JoinApart(b, y);
    var z := Join(b, y);
    JoinApart(fl[t], z);
    var w := Join(fl[t], z);
    if t == 0 {
      assert x + w == w;
    } else {
      ApartConcat(x, w);
    }
  }

  lemma MergedUnits(m: Mem, base: int, fl: seq<Blk>, t: nat, b: Blk)
    requires FreeRing(m, base, fl) && Between(fl, t, b) && b.n >= 1 && Span(b) !! Units(fl)
    ensures Units(Merged(fl, t, b)) == Units(fl) + Span(b)
  {
    hide Chain, Apart;
    Gap(m, base, fl, b, t);
    Parts(m, base, fl, t);
    var y := fl[t + 1..];
    JoinApart(b, y);
    JoinUnits(b, y);
    JoinUnits(fl[t], Join(b, y));
    UnitsConcat(fl[..t], Join(fl[t], Join(b, y)));
    UnitsSplit(fl, t);
  }

  /** free's assignments, for the free block at p and the block at bp being freed. */
  function Inserted(m: Mem, p: int, bp: int): (r: Mem)
    requires p in m.ptr && p in m.size && bp in m.size && m.ptr[p] in m.ptr && m.ptr[p] in m.size
  {
    JoinMem(JoinMem(m, bp, m.ptr[p]), p, bp)
  }

  lemma Heads(m: Mem, base: int, fl: seq<Blk>, t: nat)
    requires FreeRing(m, base, fl) && t < |fl|
    ensures fl[t].a in m.ptr && fl[t].a in m.size && m.size[fl[t].a] == fl[t].n &&
            m.ptr[fl[t].a] == First(fl[t + 1..], base)
    ensures m.ptr[fl[t].a] in m.ptr && m.ptr[fl[t].a] in m.size
  {
    ChainHas(m, fl, base, t);
    ChainHas(m, fl, base, if t + 1 < |fl| then t + 1 else 0);
  }

  lemma MergedChain(m: Mem, base: int, fl: seq<Blk>, t: nat, b: Blk)
    requires FreeRing(m, base, fl) && Between(fl, t, b) && b.n >= 1 && Span(b) !! Units(fl) && base < b.a
    requires b.a in m.size && m.size[b.a] == b.n
    ensures fl[t].a in m.ptr && fl[t].a in m.size && m.ptr[fl[t].a] in m.ptr && m.ptr[fl[t].a] in m.size
    ensures Chain(Inserted(m, fl[t].a, b.a), Merged(fl, t, b), base)
  {
    hide Units, Span, Sized, TailSized;
    Gap(m, base, fl, b, t);
    Heads(m, base, fl, t);
    Heads(m, base, fl, 0);
    var x, p, y := fl[..t], fl[t], fl[t + 1..];
    assert fl == x + ([p] + y);
    assert ([p] + y)[1..] == y;
    ChainConcat(m, x, [p] + y, base);
    Parts(m, base, fl, t);
    forall i | 0 <= i < |y| ensures y[i].a > b.a {
      assert y[i] == fl[t + 1 + i];
    }
    InsertChain(m, base, x, p, y, b);
  }

  /** Headers below p are none of those that free writes. */
  lemma FrameBelow(m: Mem, m': Mem, x: seq<Blk>, p: int)
    requires Chain(m, x, p) && forall i :: 0 <= i < |x| ==> x[i].a < p
    requires forall a :: a < p && a in m.ptr ==> a in m'.ptr && m'.ptr[a] == m.ptr[a]
    requires forall a :: a < p && a in m.size ==> a in m'.size && m'.size[a] == m.size[a]
    ensures Chain(m', x, p)
  {
    forall i | 0 <= i < |x| ensures x[i].a in m.ptr && x[i].a in m.size {
      ChainHas(m, x, p, i);
    }
    ChainFrame(m, m', x, p);
  }

  lemma InsertChain(m: Mem, base: int, x: seq<Blk>, p: Blk, y: seq<Blk>, b: Blk)
    requires Chain(m, x, p.a) && Chain(m, y, base) && base in m.ptr && base in m.size && base <= p.a < b.a
    requires p.a in m.ptr && p.a in m.size && m.size[p.a] == p.n && m.ptr[p.a] == First(y, base) && p.n >= 0
    requires b.a in m.size && m.size[b.a] == b.n >= 1
    requires forall i :: 0 <= i < |x| ==> x[i].a + x[i].n < p.a && x[i].n >= 0
    requires forall i :: 0 <= i < |y| ==> y[i].a > b.a
    ensures m.ptr[p.a] in m.ptr && m.ptr[p.a] in m.size
    ensures Chain(Inserted(m, p.a, b.a), x + Join(p, Join(b, y)), base)
  {
    JoinChain(m, b, y, base);
    var m1, z := JoinMem(m, b.a, m.ptr[p.a]), Join(b, y);
    forall i | 0 <= i < |z| ensures z[i].a != p.a {
      if i > 0 { assert z[i] in y; }
    }
    JoinChain(m1, p, z, base);
    var m2 := JoinMem(m1, p.a, b.a);
    FrameBelow(m, m2, x, p.a);
    ChainConcat(m2, x, Join(p, z), base);
  }

  /** free keeps the heap: exactly the freed block moves from the allocated blocks to the free list. */
  lemma FreeKeepsHeap(m: Mem, base: int, fl: seq<Blk>, live: set<Blk>, arena: set<int>, t: nat, b: Blk)
    requires HeapOk(m, base, fl, live, arena) && b in live && Between(fl, t, b)
    ensures fl[t].a in m.ptr && fl[t].a in m.size && m.ptr[fl[t].a] in m.ptr && m.ptr[fl[t].a] in m.size
    ensures HeapOk(Inserted(m, fl[t].a, b.a), base, Merged(fl, t, b), live - {b}, arena)
  {
    hide FreeRing, Inserted, Merged, Units, Span, InLive;
    HeapFacts(m, base, fl, live, arena);
    LiveFacts(m, base, fl, live, arena, b);
    FreeKeepsRing(m, base, fl, t, b);
    MergedUnits(m, base, fl, t, b);
    var m' := Inserted(m, fl[t].a, b.a);
    forall c | c in live - {b} ensures c.a in m'.size && m'.size[c.a] == c.n {
      Elsewhere(m, base, fl, live, b, t, c);
      InsertedElsewhere(m, fl[t].a, b.a, c.a);
    }
    GiveLive(m, m', base, fl, Merged(fl, t, b), live, arena, b);
  }

  /** free keeps the ring. */
  lemma FreeKeepsRing(m: Mem, base: int, fl: seq<Blk>, t: nat, b: Blk)
    requires FreeRing(m, base, fl) && Between(fl, t, b) && b.n >= 1 && Span(b) !! Units(fl) && base < b.a
    requires b.a in m.size && m.size[b.a] == b.n
    ensures fl[t].a in m.ptr && fl[t].a in m.size && m.ptr[fl[t].a] in m.ptr && m.ptr[fl[t].a] in m.size
    ensures FreeRing(Inserted(m, fl[t].a, b.a), base, Merged(fl, t, b))
  {
    hide Chain, Units, Span, Join, Apart, TailSized, Inserted, Merged;
    MergedChain(m, base, fl, t, b);
    MergedApart(m, base, fl, t, b);
  }

  lemma InsertedElsewhere(m: Mem, p: int, bp: int, c: int)
    requires p in m.ptr && p in m.size && bp in m.size && m.ptr[p] in m.ptr && m.ptr[p] in m.size
    requires c in m.size && c != p && c != bp
    ensures c in Inserted(m, p, bp).size && Inserted(m, p, bp).size[c] == m.size[c]
  {
  }

  /** An allocated block that joins the list leaves the others as they were. */
  lemma GiveLive(m: Mem, m': Mem, base: int, fl: seq<Blk>, fl': seq<Blk>, live: set<Blk>, arena: set<int>, b: Blk)
    requires HeapOk(m, base, fl, live, arena) && FreeRing(m', base, fl') && b in live
    requires Units(fl') == Units(fl) + Span(b)
    requires forall c :: c in live - {b} ==> c.a in m'.size && m'.size[c.a] == c.n
    ensures HeapOk(m', base, fl', live - {b}, arena)
  {
    hide FreeRing, Units, Span;
    var live' := live - {b};
    assert live == live' + {b};
    forall u ensures u in arena <==> u in Units(fl') || InLive(live', u) {
      LivePlus(live', b, u);
    }
  }

  /** Another allocated block's header is not one that free writes. */
  lemma Elsewhere(m: Mem, base: int, fl: seq<Blk>, live: set<Blk>, b: Blk, t: nat, c: Blk)
    requires FreeRing(m, base, fl) && LiveOk(m, base, fl, live) && b in live && c in live && b != c && t < |fl|
    ensures c.a != b.a && c.a != fl[t].a
  {
    assert In(c.a, c) && In(b.a, b);
    assert Span(b) !! Span(c);
    if t > 0 {
      UnitsOf(fl, t);
      assert In(fl[t].a, fl[t]);
    }
  }

  // malloc

  /** Taking the whole block fl[t] off the list. */
  lemma TakeWhole(m: Mem, base: int, fl: seq<Blk>, live: set<Blk>, arena: set<int>, t: nat)
    requires HeapOk(m, base, fl, live, arena) && 1 <= t < |fl|
    ensures fl[t].a in m.ptr && fl[t - 1].a in m.ptr
    ensures HeapOk(m.(ptr := m.ptr[fl[t - 1].a := m.ptr[fl[t].a]]), base, fl[..t] + fl[t + 1..], live + {fl[t]}, arena)
  {
    hide Chain, Apart, Span;
    Heads(m, base, fl, t);
    Heads(m, base, fl, t - 1);
    var m' := m.(ptr := m.ptr[fl[t - 1].a := m.ptr[fl[t].a]]);
    var fl', live' := fl[..t] + fl[t + 1..], live + {fl[t]};
    UnitsSplit(fl, t);
    UnitsConcat(fl[..t], fl[t + 1..]);
    UnitsApart(fl, t);
    TakeChain(m, base, fl, t);
    Decompose(m, base, fl, t);
    TakeLive(m, m', base, fl, fl', live, arena, fl[t]);
  }

  /** Taking the last n units of block fl[t]. */
  lemma TakeTail(m: Mem, base: int, fl: seq<Blk>, live: set<Blk>, arena: set<int>, t: nat, n: int)
    requires HeapOk(m, base, fl, live, arena) && 1 <= t < |fl| && 1 <= n < fl[t].n
    ensures var rest := fl[t].n - n;
            var c := Blk(fl[t].a + rest, n);
            HeapOk(m.(size := m.size[fl[t].a := rest][c.a := n]), base, fl[t := Blk(fl[t].a, rest)], live + {c}, arena)
  {
    hide FreeRing, LiveOk, InLive, Apart, Chain, Span;
    TailUnits(m, base, fl, t, n);
    var rest := fl[t].n - n;
    var c := Blk(fl[t].a + rest, n);
    var m', fl' := m.(size := m.size[fl[t].a := rest][c.a := n]), fl[t := Blk(fl[t].a, rest)];
    SplitChain(m, base, fl, t, n);
    TakeLive(m, m', base, fl, fl', live, arena, c);
  }

  /** Cutting the last n units off block fl[t] takes exactly those from the list. */
  lemma TailUnits(m: Mem, base: int, fl: seq<Blk>, t: nat, n: int)
    requires FreeRing(m, base, fl) && 1 <= t < |fl| && 1 <= n < fl[t].n
    ensures var rest := fl[t].n - n;
            var c, fl' := Blk(fl[t].a + rest, n), fl[t := Blk(fl[t].a, rest)];
            && Units(fl) == Units(fl') + Span(c) && Span(c) !! Units(fl')
            && base < fl[t].a && fl[t].a in Units(fl) && c.a in Units(fl)
  {
    hide Chain;
    var rest := fl[t].n - n;
    var c, fl' := Blk(fl[t].a + rest, n), fl[t := Blk(fl[t].a, rest)];
    SpanJoin(fl[t].a, rest, n);
    UnitsSplit(fl, t);
    UnitsSplit(fl', t);
    assert fl'[..t] == fl[..t] && fl'[t + 1..] == fl[t + 1..];
    UnitsApart(fl, t);
    assert In(fl[t].a, fl[t]) && In(c.a, c);
    forall u | u in Span(Blk(fl[t].a, rest)) ensures !In(u, c) {
      assert In(u, Blk(fl[t].a, rest));
    }
  }

  /** The blocks of a list share no unit. */
  lemma UnitsApart(fl: seq<Blk>, t: nat)
    requires Apart(fl) && t < |fl| && (forall i :: 0 <= i < |fl| ==> fl[i].n >= 0)
    ensures Span(fl[t]) !! Units(fl[..t]) && Span(fl[t]) !! Units(fl[t + 1..])
  {
    var tail := fl[t + 1..];
    forall u | u in Span(fl[t]) ensures u !in Units(fl[..t]) && u !in Units(tail) {
      assert In(u, fl[t]);
      forall i | 0 <= i < |tail| ensures !In(u, tail[i]) {
        assert tail[i] == fl[t + 1 + i];
      }
      if u in Units(fl[..t]) {
        var i := UnitsWitness(fl[..t], u);
        assert false;
      }
      if u in Units(tail) {
        var i := UnitsWitness(tail, u);
        assert false;
      }
    }
  }

  lemma {:induction false} UnitsWitness(fl: seq<Blk>, u: int) returns (i: nat)
    requires u in Units(fl)
    ensures i < |fl| && In(u, fl[i])
  {
    if In(u, fl[0]) {
      i := 0;
    } else {
      var j := UnitsWitness(fl[1..], u);
      i := j + 1;
    }
  }

  predicate Below(fl: seq<Blk>, a: int) {
    forall i :: 0 <= i < |fl| ==> fl[i].a < a
  }

  predicate Above(fl: seq<Blk>, a: int) {
    forall i :: 0 <= i < |fl| ==> fl[i].a > a
  }

  predicate SameSizes(m: Mem, m': Mem, fl: seq<Blk>) {
    forall i :: 0 <= i < |fl| && fl[i].a in m.size ==> fl[i].a in m'.size && m'.size[fl[i].a] == m.size[fl[i].a]
  }

  lemma RemoveApart(fl: seq<Blk>, t: nat)
    requires Apart(fl) && TailSized(fl) && 1 <= t < |fl|
    ensures Apart(fl[..t] + fl[t + 1..]) && TailSized(fl[..t] + fl[t + 1..]) && (fl[..t] + fl[t + 1..])[0] == fl[0]
  {
    var r := fl[..t] + fl[t + 1..];
    forall i | 0 <= i < |r| ensures r[i] == if i < t then fl[i] else fl[i + 1] {}
  }

  /** The list around fl[t], as headers in memory. */
  lemma Decompose(m: Mem, base: int, fl: seq<Blk>, t: nat)
    requires FreeRing(m, base, fl) && t < |fl|
    ensures Chain(m, fl[..t], fl[t].a) && Chain(m, fl[t + 1..], base)
    ensures Below(fl[..t], fl[t].a) && Above(fl[t + 1..], fl[t].a + fl[t].n) && fl[t].n >= 0
    ensures t > 0 ==> base < fl[t].a
  {
    hide Units, Span;
    var x, p, y := fl[..t], fl[t], fl[t + 1..];
    assert fl == x + ([p] + y);
    ChainConcat(m, x, [p] + y, base);
    assert ([p] + y)[1..] == y;
    Parts(m, base, fl, t);
    forall i | 0 <= i < |y| ensures y[i].a > p.a + p.n {
      assert y[i] == fl[t + 1 + i];
    }
  }

  /** Skipping block q in the list x, p, q, y. */
  lemma SkipChain(m: Mem, m': Mem, base: int, x: seq<Blk>, p: Blk, y: seq<Blk>)
    requires Chain(m, x, p.a) && Chain(m, y, base)
    requires Below(x, p.a) && Above(y, p.a)
    requires p.a in m'.ptr && p.a in m'.size && m'.ptr[p.a] == First(y, base) && m'.size[p.a] == p.n
    requires forall a :: a in m.ptr && a != p.a ==> a in m'.ptr && m'.ptr[a] == m.ptr[a]
    requires SameSizes(m, m', x) && SameSizes(m, m', y)
    ensures Chain(m', x + ([p] + y), base)
  {
    forall i | 0 <= i < |x| ensures x[i].a in m.ptr && x[i].a in m.size {
      ChainHas(m, x, p.a, i);
    }
    forall i | 0 <= i < |y| ensures y[i].a in m.ptr && y[i].a in m.size {
      ChainHas(m, y, base, i);
    }
    ChainFrame(m, m', x, p.a);
    ChainFrame(m, m', y, base);
    assert ([p] + y)[1..] == y;
    ChainConcat(m', x, [p] + y, base);
  }

  lemma TakeChain(m: Mem, base: int, fl: seq<Blk>, t: nat)
    requires FreeRing(m, base, fl) && 1 <= t < |fl|
    requires fl[t].a in m.ptr && fl[t - 1].a in m.ptr
    ensures FreeRing(m.(ptr := m.ptr[fl[t - 1].a := m.ptr[fl[t].a]]), base, fl[..t] + fl[t + 1..])
  {
    hide Units, Span, Chain, Apart, TailSized;
    Heads(m, base, fl, t);
    Heads(m, base, fl, t - 1);
    RemoveApart(fl, t);
    Decompose(m, base, fl, t - 1);
    Decompose(m, base, fl, t);
    var x, p, y := fl[..t - 1], fl[t - 1], fl[t + 1..];
    SkipChain(m, m.(ptr := m.ptr[p.a := m.ptr[fl[t].a]]), base, x, p, y);
    assert fl[..t] + fl[t + 1..] == x + ([p] + y);
  }

  lemma SplitChain(m: Mem, base: int, fl: seq<Blk>, t: nat, n: int)
    requires FreeRing(m, base, fl) && 1 <= t < |fl| && 1 <= n < fl[t].n
    ensures var rest := fl[t].n - n;
            FreeRing(m.(size := m.size[fl[t].a := rest][fl[t].a + rest := n]), base, fl[t := Blk(fl[t].a, rest)])
  {
    hide Units, Span, Chain;
    Heads(m, base, fl, t);
    Decompose(m, base, fl, t);
    var rest := fl[t].n - n;
    var m' := m.(size := m.size[fl[t].a := rest][fl[t].a + rest := n]);
    var x, p, y := fl[..t], Blk(fl[t].a, rest), fl[t + 1..];
    SkipChain(m, m', base, x, p, y);
    assert fl[t := p] == x + ([p] + y);
  }

  /** A block that leaves the list becomes an allocated one. */
  lemma TakeLive(m: Mem, m': Mem, base: int, fl: seq<Blk>, fl': seq<Blk>, live: set<Blk>, arena: set<int>, c: Blk)
    requires HeapOk(m, base, fl, live, arena) && FreeRing(m', base, fl')
    requires Units(fl) == Units(fl') + Span(c) && Span(c) !! Units(fl') && c.n >= 1 && base < c.a
    requires c.a in m'.size && m'.size[c.a] == c.n
    requires forall a :: a in m.size && a !in Units(fl) ==> a in m'.size && m'.size[a] == m.size[a]
    ensures HeapOk(m', base, fl', live + {c}, arena)
  {
    hide FreeRing, Units;
    var live' := live + {c};
    forall b | b in live
      ensures b.a in m'.size && m'.size[b.a] == b.n && Span(b) !! Units(fl') && Span(b) !! Span(c) && b != c
    {
      StaysApart(Units(fl), Units(fl'), b, c);
    }
    forall u ensures u in arena <==> u in Units(fl') || InLive(live', u) {
      LivePlus(live, c, u);
    }
  }

  /** A block apart from all free units is apart from those that are left and from those taken. */
  lemma StaysApart(free: set<int>, left: set<int>, b: Blk, c: Blk)
    requires free == left + Span(c) && Span(b) !! free && b.n >= 1 && c.n >= 1
    ensures b.a !in free && Span(b) !! left && Span(b) !! Span(c) && b != c
  {
    assert In(b.a, b) && In(c.a, c);
    assert b.a in Span(b) && c.a in Span(c);
  }

  lemma LivePlus(live: set<Blk>, c: Blk, u: int)
    ensures InLive(live + {c}, u) <==> InLive(live, u) || u in Span(c)
  {
    assert u in Span(c) <==> In(u, c);
    if InLive(live, u) {
      var b :| b in live && In(u, b);
      assert b in live + {c};
    }
    if In(u, c) {
      assert c in live + {c};
    }
  }

  /** sbrk's fresh units, first as one allocated block. */
  lemma GrowKeepsHeap(m: Mem, base: int, fl: seq<Blk>, live: set<Blk>, arena: set<int>, b: Blk)
    requires HeapOk(m, base, fl, live, arena) && b.n >= 1 && base < b.a && (forall u :: u in arena ==> u < b.a)
    ensures HeapOk(m.(size := m.size[b.a := b.n]), base, fl, live + {b}, arena + Span(b))
  {
    var m', live' := m.(size := m.size[b.a := b.n]), live + {b};
    forall u | In(u, b) ensures u !in arena {}
    forall c | c in live ensures Span(c) !! Span(b) && c.a != b.a {
      forall u | In(u, c) ensures u in arena {
        assert InLive(live, u);
      }
      assert In(c.a, c);
    }
    forall i | 0 <= i < |fl| ensures fl[i].a != b.a && fl[i].a in m.ptr && fl[i].a in m.size {
      Heads(m, base, fl, i);
      if i > 0 {
        UnitsOf(fl, i);
        assert In(fl[i].a, fl[i]);
      }
    }
    ChainFrame(m, m', fl, base);
    forall u ensures u in arena + Span(b) <==> u in Units(fl) || InLive(live', u) {
      LivePlus(live, b, u);
    }
  }

  /** The free list with block b put in its place. */
  ghost predicate FreedInto(before: seq<Blk>, after: seq<Blk>, b: Blk) {
    exists t: nat :: t < |before| && Between(before, t, b) && after == Merged(before, t, b)
  }

  /** p is the block of the list that comes last before address a. */
  predicate LastBelow(fl: seq<Blk>, a: int, p: int) {
    OnList(fl, p) && p < a && forall i :: 0 <= i < |fl| && fl[i].a < a ==> fl[i].a <= p
  }

  lemma BetweenIsLast(m: Mem, base: int, fl: seq<Blk>, t: nat, b: Blk)
    requires FreeRing(m, base, fl) && Between(fl, t, b)
    ensures LastBelow(fl, b.a, fl[t].a)
  {
    forall i | t < i < |fl| ensures b.a < fl[i].a {
      if i > t + 1 {
        assert fl[t + 1].a + fl[t + 1].n < fl[i].a;
      }
    }
  }

  predicate OnList(fl: seq<Blk>, a: int) {
    exists i :: 0 <= i < |fl| && fl[i].a == a
  }

  /** What sbrk(n) promises: fresh memory above all that it gave before, and above the data segment. */
  predicate FreshAbove(sbrk: Option<int>, base: int, arena: set<int>) {
    sbrk.Some? ==> base < sbrk.value && forall u :: u in arena ==> u < sbrk.value
  }

  class Heap {
    const base: int            // the address of the static header base
    var m: Mem
    var freep: Option<int>
    var sbrkCalls: nat
    ghost var fl: seq<Blk>     // the free list, from base
    ghost var live: set<Blk>   // the blocks that malloc has given out
    ghost var arena: set<int>  // the units that sbrk has given

    ghost predicate Valid()
      reads this
    {
      if freep.None? then live == {} && arena == {} else HeapOk(m, base, fl, live, arena) && OnList(fl, freep.value)
    }

    constructor (base: int)
      ensures Valid() && live == {} && arena == {} && sbrkCalls == 0 && this.base == base && freep.None?
    {
      this.base, freep, m, sbrkCalls := base, None, Mem(map[], map[]), 0;
      fl, live, arena := [], {}, {};
    }

    /** The search of free: it stops at the free block that bp belongs after, within one lap. */
    method FindPlace(bp: int, ghost b: Blk, ghost t: nat) returns (p: int)
      requires Valid() && freep.Some? && b.a == bp > base && Between(fl, t, b)
      ensures p == fl[t].a
    {
      hide HeapOk, FreeRing;
      HeapFacts(m, base, fl, live, arena);
      p := freep.value;
      ghost var k :| 0 <= k < |fl| && fl[k].a == p;
      Heads(m, base, fl, k);
      SearchStops(m, base, fl, b, t, k);
      while !(bp > p && bp < m.ptr[p])
        invariant 0 <= k < |fl| && fl[k].a == p && p in m.ptr && m.ptr[p] == First(fl[k + 1..], base)
        invariant (bp > p && bp < m.ptr[p]) || (p >= m.ptr[p] && (bp > p || bp < m.ptr[p])) <==> k == t
        decreases if k <= t then t - k else |fl| - k + t
      {
        if p >= m.ptr[p] && (bp > p || bp < m.ptr[p]) {
          break;
        }
        p := m.ptr[p];
        k := if k + 1 < |fl| then k + 1 else 0;
        Heads(m, base, fl, k);
        SearchStops(m, base, fl, b, t, k);
      }
    }

    /** free: exactly the block moves from the allocated ones to the free list. */
    method Free(ap: int)
      requires Valid() && freep.Some? && ap - 1 in m.size && Blk(ap - 1, m.size[ap - 1]) in live
      modifies this`m, this`freep, this`fl, this`live
      ensures Valid() && freep.Some? && live == old(live) - {Blk(ap - 1, old(m.size[ap - 1]))}
      ensures FreedInto(old(fl), fl, Blk(ap - 1, old(m.size[ap - 1])))
      ensures LastBelow(old(fl), ap - 1, freep.value)
    {
      hide HeapOk, FreeRing, Merged;
      var bp := ap - 1;
      ghost var b := Blk(bp, m.size[bp]);
      HeapFacts(m, base, fl, live, arena);
      LiveFacts(m, base, fl, live, arena, b);
      ghost var t := Place(m, base, fl, b, |fl|);
      var p := FindPlace(bp, b, t);
      BetweenIsLast(m, base, fl, t, b);
      FreeKeepsHeap(m, base, fl, live, arena, t, b);
      MergedHas(fl, t, b);
      m := JoinMem(m, bp, m.ptr[p]);
      m := JoinMem(m, p, bp);
      fl := Merged(fl, t, b);
      assert old(fl)[t].a == p;
      live := live - {b};
      freep := Some(p);
    }

    /** morecore: at least MINCORE fresh units join the free list, or sbrk has failed. */
    method Morecore(nunits: int, sbrk: Option<int>) returns (ok: bool)
      requires Valid() && freep.Some? && nunits >= 1 && FreshAbove(sbrk, base, arena)
      modifies this
      ensures Valid() && freep.Some? && live == old(live) && sbrkCalls == old(sbrkCalls) + 1
      ensures ok == sbrk.Some?
      ensures ok ==> HasBlock(fl, nunits) && arena == old(arena) + Span(Blk(sbrk.value, Core(nunits)))
      ensures ok ==> forall u :: u in arena <==>
                u in old(arena) || sbrk.value <= u < sbrk.value + (if nunits < 4096 then 4096 else nunits)
      ensures !ok ==> m == old(m) && fl == old(fl) && freep == old(freep) && arena == old(arena)
    {
      hide HeapOk, Span, FreedInto, HasBlock, FreeRing;
      var nu := nunits;
      if nu < MINCORE {
        nu := MINCORE;
      }
      sbrkCalls := sbrkCalls + 1;
      if sbrk.None? {
        return false;
      }
      var hp := sbrk.value;
      ghost var b := Blk(hp, nu);
      GrowKeepsHeap(m, base, fl, live, arena, b);
      NotLive(m, base, fl, live, arena, b);
      m := m.(size := m.size[hp := nu]);
      live, arena := live + {b}, arena + Span(b);
      ghost var before, mem := fl, m;
      HeapFacts(m, base, fl, live, arena);
      Free(hp + 1);
      FreedBig(mem, base, before, fl, b, nunits);
      assert live == old(live);
      return true;
    }

    /** The two ways malloc takes nunits from free block p, the one after prevp: all of it, or its tail end. */
    method Take(prevp: int, p: int, nunits: int, ghost k: nat, ghost kp: nat) returns (q: int)
      requires HeapOk(m, base, fl, live, arena) && nunits >= 1 && k < |fl| && prevp == fl[k].a && prevp in m.ptr
      requires kp == (if k + 1 < |fl| then k + 1 else 0) && p == fl[kp].a && p in m.ptr && p in m.size
      requires m.size[p] == fl[kp].n >= nunits
      modifies this`m, this`freep, this`fl, this`live
      ensures Valid() && freep.Some? && Blk(q, nunits) !in old(live) && live == old(live) + {Blk(q, nunits)}
      ensures freep == Some(prevp) && q == p + old(fl)[kp].n - nunits
      ensures fl == if old(fl)[kp].n == nunits then old(fl)[..kp] + old(fl)[kp + 1..]
                    else old(fl)[kp := Blk(p, old(fl)[kp].n - nunits)]
    {
      hide HeapOk, Span;
      HeapHeads(m, base, fl, live, arena, kp);
      if m.size[p] == nunits {
        TakeWhole(m, base, fl, live, arena, kp);
        NotLiveFree(m, base, fl, live, arena, kp, nunits);
        m := m.(ptr := m.ptr[prevp := m.ptr[p]]);
        live := live + {fl[kp]};
        fl := fl[..kp] + fl[kp + 1..];
        q := p;
      } else {
        TakeTail(m, base, fl, live, arena, kp, nunits);
        NotLiveFree(m, base, fl, live, arena, kp, nunits);
        var rest := m.size[p] - nunits;
        m := m.(size := m.size[p := rest]);
        fl := fl[kp := Blk(p, rest)];
        q := p + rest;
        m := m.(size := m.size[q := nunits]);
        live := live + {Blk(q, nunits)};
      }
      assert fl[k].a == prevp;
      freep := Some(prevp);
    }

    /** malloc: on success a block of exactly the units asked for, apart from every other block, taken from
        the free list. It calls sbrk, once, exactly when no free block is large enough, and fails exactly when
        that call does. The units hold the bytes asked for unless the rounding wraps around. */
    method Malloc(nbytes: nat, sbrk: Option<int>) returns (r: Option<int>)
      requires Valid() && nbytes < UINT && FreshAbove(sbrk, base, arena)
      // the argument of sbrk, an int, does not come out negative
      requires Core(NUnits(nbytes)) * HEADER < 0x8000_0000
      modifies this
      ensures Valid() && freep.Some?
      ensures sbrkCalls == old(sbrkCalls) + if old(freep.Some? && HasBlock(fl, NUnits(nbytes))) then 0 else 1
      ensures r.None? <==> sbrkCalls > old(sbrkCalls) && sbrk.None?
      ensures var nunits := NUnits(nbytes);
              && (nbytes <= (nunits - 1) * HEADER <==> nbytes <= UINT - HEADER)
              && (nbytes <= UINT - HEADER ==> (nunits - 1) * HEADER < nbytes + HEADER)
              && (r.Some? ==> Blk(r.value - 1, nunits) !in old(live) && live == old(live) + {Blk(r.value - 1, nunits)})
              && (r.None? ==> live == old(live))
              && (r.Some? && sbrkCalls == old(sbrkCalls) ==>
                    old(freep).Some? && FirstFit(old(fl), old(freep).value, nunits, r.value - 1))
              && arena == (if sbrkCalls > old(sbrkCalls) && sbrk.Some?
                           then old(arena) + Span(Blk(sbrk.value, Core(nunits))) else old(arena))
    {
      hide HeapOk, Span, HasBlock, FreshAbove, Passed, NUnits, Core, OnList, FirstFit;
      var nunits := NUnits(nbytes);
      EnoughRoom(nbytes);
      if freep.None? {
        m := Mem(m.ptr[base := base], m.size[base := 0]);
        fl, freep := [Blk(base, 0)], Some(base);
        EmptyHeap(m, base);
      }
      ghost var start := fl;
      StartBlocks(old(freep), old(fl), start, base, nunits);
      var prevp := freep.value;
      ghost var f: nat := IndexOf(fl, freep.value);
      ghost var k: nat := f;
      HeapHeads(m, base, fl, live, arena, k);
      var p := m.ptr[prevp];
      ghost var kp: nat := if k + 1 < |fl| then k + 1 else 0;
      HeapHeads(m, base, fl, live, arena, kp);
      PassedNone(fl, f, nunits);
      var grown := false;
      while true
        invariant HeapOk(m, base, fl, live, arena) && freep.Some? && live == old(live) && OnList(fl, freep.value)
        invariant f < |fl| && fl[f].a == freep.value && k < |fl| && prevp == fl[k].a
        invariant kp == (if k + 1 < |fl| then k + 1 else 0) && p == fl[kp].a && p in m.size && m.size[p] == fl[kp].n
        invariant p in m.ptr && prevp in m.ptr
        invariant fl[0] == Blk(base, 0)
        invariant Passed(fl, f, k, nunits)
        invariant grown ==> HasBlock(fl, nunits)
        invariant !grown ==> sbrkCalls == old(sbrkCalls) && arena == old(arena) && fl == start
        invariant !grown && old(freep).Some? ==> freep == old(freep)
        invariant grown ==> !HasBlock(start, nunits) && sbrk.Some? && sbrkCalls == old(sbrkCalls) + 1
        invariant grown ==> arena == old(arena) + Span(Blk(sbrk.value, Core(nunits)))
        decreases if grown then 0 else 1, if k < f then f - k else |fl| - k + f
      {
        if m.size[p] >= nunits {
          Large(fl, kp, nunits);
          FitFound(fl, f, k, kp, nunits);
          p := Take(prevp, p, nunits, k, kp);
          return Some(p + 1);
        }
        if p == freep.value {
          SameIndex(m, base, fl, live, arena, f, kp);
          LapDone(fl, f, k, nunits);
          var ok := Morecore(nunits, sbrk);
          if !ok {
            return None;
          }
          grown := true;
          p := freep.value;
          f := IndexOf(fl, freep.value);
          kp := f;
          HeapHeads(m, base, fl, live, arena, f);
          PassedNone(fl, f, nunits);
        } else {
          PassedMore(fl, f, k, kp, nunits);
        }
        prevp, k := p, kp;
        kp := if k + 1 < |fl| then k + 1 else 0;
        HeapHeads(m, base, fl, live, arena, k);
        HeapHeads(m, base, fl, live, arena, kp);
        p := m.ptr[p];
      }
    }
  }

  const HEADER: nat := 8
  const MINCORE: int := 4096

  function NUnits(nbytes: nat): (n: int) {
    (nbytes + HEADER - 1) % UINT / HEADER + 1
  }

  /** The last seven sizes wrap around to a block with no room at all. */
  lemma EnoughRoom(nbytes: nat)
    requires nbytes < UINT
    ensures nbytes <= (NUnits(nbytes) - 1) * HEADER <==> nbytes <= UINT - HEADER
    ensures nbytes <= UINT - HEADER ==> (NUnits(nbytes) - 1) * HEADER < nbytes + HEADER
    ensures NUnits(nbytes) >= 1 && (nbytes > UINT - HEADER ==> NUnits(nbytes) == 1)
  {
  }

  function Core(nunits: int): (n: int) {
    if nunits < MINCORE then MINCORE else nunits
  }

  predicate HasBlock(fl: seq<Blk>, n: int) {
    exists i :: 0 <= i < |fl| && fl[i].n >= n
  }

  /** Every free block from the one after fl[f] around to fl[k] is too small. */
  predicate Passed(fl: seq<Blk>, f: nat, k: nat, n: int) {
    forall i :: 0 <= i < |fl| && (if f <= k then f < i <= k else i > f || i <= k) ==> fl[i].n < n
  }

  /** Block t is the first that is large enough, in the order of the ring after block f. */
  predicate FitsFirst(fl: seq<Blk>, f: nat, t: nat, n: int) {
    && f < |fl| && t < |fl| && fl[t].n >= n
    && forall i :: 0 <= i < |fl| && (if f < t then f < i < t else i > f || i < t) ==> fl[i].n < n
  }

  /** q is the tail end, n units long, of the first block that is large enough after the one at freep. */
  ghost predicate FirstFit(fl: seq<Blk>, freep: int, n: int, q: int) {
    exists f: nat, t: nat :: FitsFirst(fl, f, t, n) && fl[f].a == freep && q == fl[t].a + fl[t].n - n
  }

  lemma FitFound(fl: seq<Blk>, f: nat, k: nat, kp: nat, n: int)
    requires f < |fl| && k < |fl| && Passed(fl, f, k, n) && kp == (if k + 1 < |fl| then k + 1 else 0) && fl[kp].n >= n
    ensures FirstFit(fl, fl[f].a, n, fl[kp].a + fl[kp].n - n)
  {
    assert FitsFirst(fl, f, kp, n);
  }

  lemma PassedNone(fl: seq<Blk>, f: nat, n: int)
    ensures Passed(fl, f, f, n)
  {
  }

  lemma PassedMore(fl: seq<Blk>, f: nat, k: nat, kp: nat, n: int)
    requires f < |fl| && k < |fl| && Passed(fl, f, k, n) && kp == (if k + 1 < |fl| then k + 1 else 0) && kp != f
    requires fl[kp].n < n
    ensures Passed(fl, f, kp, n)
  {
  }

  lemma LapDone(fl: seq<Blk>, f: nat, k: nat, n: int)
    requires f < |fl| && k < |fl| && Passed(fl, f, k, n) && f == (if k + 1 < |fl| then k + 1 else 0) && fl[f].n < n
    ensures !HasBlock(fl, n)
  {
  }

  lemma Large(fl: seq<Blk>, i: nat, n: int)
    requires i < |fl| && fl[i].n >= n
    ensures HasBlock(fl, n)
  {
  }

  /** The list that malloc searches has a large enough block if and only if there was a list and it had one. */
  lemma StartBlocks(freep: Option<int>, fl: seq<Blk>, start: seq<Blk>, base: int, n: int)
    requires start == (if freep.Some? then fl else [Blk(base, 0)]) && n >= 1
    ensures HasBlock(start, n) <==> freep.Some? && HasBlock(fl, n)
  {
  }

  lemma IndexOf(fl: seq<Blk>, a: int) returns (i: nat)
    requires OnList(fl, a)
    ensures i < |fl| && fl[i].a == a
  {
    i :| i < |fl| && fl[i].a == a;
  }

  lemma HeapHeads(m: Mem, base: int, fl: seq<Blk>, live: set<Blk>, arena: set<int>, i: nat)
    requires HeapOk(m, base, fl, live, arena) && i < |fl|
    ensures fl[i].a in m.ptr && fl[i].a in m.size && m.size[fl[i].a] == fl[i].n
    ensures m.ptr[fl[i].a] == fl[if i + 1 < |fl| then i + 1 else 0].a && fl[0] == Blk(base, 0)
  {
    Heads(m, base, fl, i);
  }

  lemma SameIndex(m: Mem, base: int, fl: seq<Blk>, live: set<Blk>, arena: set<int>, i: nat, j: nat)
    requires HeapOk(m, base, fl, live, arena) && i < |fl| && j < |fl| && fl[i].a == fl[j].a
    ensures i == j
  {
  }

  lemma EmptyHeap(m: Mem, base: int)
    requires base in m.ptr && base in m.size && m.ptr[base] == base && m.size[base] == 0
    ensures HeapOk(m, base, [Blk(base, 0)], {}, {}) && OnList([Blk(base, 0)], base)
  {
    var fl := [Blk(base, 0)];
    assert fl[1..] == [];
    UnitsOne(fl[0]);
    assert fl[0].a == base;
    forall u ensures u !in Units(fl) {
      assert !In(u, fl[0]);
    }
  }

  lemma NotLive(m: Mem, base: int, fl: seq<Blk>, live: set<Blk>, arena: set<int>, b: Blk)
    requires HeapOk(m, base, fl, live, arena) && b.n >= 1 && forall u :: u in arena ==> u < b.a
    ensures b !in live
  {
    assert In(b.a, b);
    if b in live {
      assert InLive(live, b.a);
    }
  }

  lemma NotLiveFree(m: Mem, base: int, fl: seq<Blk>, live: set<Blk>, arena: set<int>, i: nat, n: int)
    requires HeapOk(m, base, fl, live, arena) && 1 <= i < |fl| && 1 <= n <= fl[i].n
    ensures Blk(fl[i].a + fl[i].n - n, n) !in live
  {
    var c := Blk(fl[i].a + fl[i].n - n, n);
    UnitsOf(fl, i);
    assert In(c.a, fl[i]) && In(c.a, c);
    assert c.a in Units(fl) && c.a in Span(c);
  }

  lemma FreedBig(m: Mem, base: int, before: seq<Blk>, after: seq<Blk>, b: Blk, n: int)
    requires FreedInto(before, after, b) && FreeRing(m, base, before) && 1 <= n <= b.n
    ensures HasBlock(after, n)
  {
    hide FreeRing;
    var t: nat :| t < |before| && Between(before, t, b) && after == Merged(before, t, b);
    Parts(m, base, before, t);
    var z := Join(b, before[t + 1..]);
    assert z[0].n >= b.n;
    var w := Join(before[t], z);
    if before[t].a + before[t].n == z[0].a {
      assert after[t] == w[0];
    } else {
      assert after[t + 1] == z[0];
    }
  }

  lemma HeapFacts(m: Mem, base: int, fl: seq<Blk>, live: set<Blk>, arena: set<int>)
    requires HeapOk(m, base, fl, live, arena)
    ensures FreeRing(m, base, fl) && fl != [] && fl[0] == Blk(base, 0)
  {
  }

  lemma LiveFacts(m: Mem, base: int, fl: seq<Blk>, live: set<Blk>, arena: set<int>, b: Blk)
    requires HeapOk(m, base, fl, live, arena) && b in live
    ensures base < b.a && b.n >= 1 && Span(b) !! Units(fl) && b.a in m.size && m.size[b.a] == b.n
  {
  }

  lemma MergedHas(fl: seq<Blk>, t: nat, b: Blk)
    requires t < |fl|
    ensures OnList(Merged(fl, t, b), fl[t].a)
  {
    assert Merged(fl, t, b)[t].a == fl[t].a;
  }
}
