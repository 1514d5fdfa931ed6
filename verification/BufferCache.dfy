/** The buffer cache of bio.c over the memory disk of memide.c. Buffers are indices into bcache.buf,
    and index HEAD is bcache.head. Each method is one critical section, so what every method keeps
    holds under every interleaving of its callers. */
module BufferCache {
  import opened Blocks
  import opened Common

  const NBUF: nat := 30
  const HEAD: nat := NBUF
  const NODEV: int := -1
  const DISKDEV: int := 1

  datatype Buf = Buf(dev: int, blockno: nat, busy: bool, valid: bool, dirty: bool, data: Block, prev: nat, next: nat)

  /** What a request for a buffer comes to: a buffer, a sleep on a busy buffer, or a panic. */
  datatype Got = Buffer(i: nat) | MustSleep(busy: nat) | NoBuffers | BadBlock

  // The ring through prev and next

  /** One lap of the ring: the head, the buffers from most to least recently used, the head again. */
  function Lap(order: seq<nat>): (l: seq<nat>) {
    [HEAD] + order + [HEAD]
  }

  predicate Linked(bufs: seq<Buf>, a: nat, b: nat)
    requires |bufs| == NBUF + 1 && a <= NBUF && b <= NBUF
  {
    bufs[a].next == b && bufs[b].prev == a
  }

  predicate Ring(bufs: seq<Buf>, order: seq<nat>) {
    && |bufs| == NBUF + 1
    && (forall i :: 0 <= i < |order| ==> order[i] < NBUF)
    && (forall i, j :: 0 <= i < j < |order| ==> order[i] != order[j])
    && forall i, j :: 0 <= i && j == i + 1 < |Lap(order)| ==> Linked(bufs, Lap(order)[i], Lap(order)[j])
  }

  predicate SameButLinks(b: Buf, c: Buf, busy: bool) {
    c == b.(busy := busy, prev := c.prev, next := c.next)
  }

  function Unlink(bufs: seq<Buf>, i: nat): (r: seq<Buf>)
    requires |bufs| == NBUF + 1 && i <= NBUF && bufs[i].next <= NBUF && bufs[i].prev <= NBUF
    ensures |r| == NBUF + 1 && forall j :: 0 <= j <= NBUF ==> SameButLinks(bufs[j], r[j], bufs[j].busy)
  {
    var n, p := bufs[i].next, bufs[i].prev;
    var s := bufs[n := bufs[n].(prev := p)];
    s[p := s[p].(next := n)]
  }

  function PushFront(bufs: seq<Buf>, i: nat): (r: seq<Buf>)
    requires |bufs| == NBUF + 1 && i < NBUF && bufs[HEAD].next <= NBUF
    ensures |r| == NBUF + 1 && forall j :: 0 <= j <= NBUF ==> SameButLinks(bufs[j], r[j], bufs[j].busy)
  {
    var n := bufs[HEAD].next;
    var s := bufs[i := bufs[i].(next := n, prev := HEAD)];
    var t := s[n := s[n].(prev := i)];
    t[HEAD := t[HEAD].(next := i)]
  }

  /** Linking a buffer in after the head puts it first. */
  lemma PushFrontRing(bufs: seq<Buf>, order: seq<nat>, i: nat)
    requires Ring(bufs, order) && i < NBUF && i !in order
    ensures bufs[HEAD].next <= NBUF && Ring(PushFront(bufs, i), [i] + order)
  {
    var lap, lap' := Lap(order), Lap([i] + order);
    assert Linked(bufs, lap[0], lap[1]);
    var r := PushFront(bufs, i);
    forall x, y | 0 <= x && y == x + 1 < |lap'| ensures Linked(r, lap'[x], lap'[y]) {
      if x >= 1 {
        assert lap'[y] == lap[y - 1];
        if x >= 2 {
          assert Linked(bufs, lap[x - 1], lap[y - 1]);
          assert lap[x - 1] == order[x - 2];
        }
      }
    }
  }

  /** Unlinking removes exactly that buffer from the order. */
  lemma UnlinkRing(bufs: seq<Buf>, order: seq<nat>, k: nat)
    requires Ring(bufs, order) && k < |order|
    ensures var i := order[k];
            && bufs[i].next <= NBUF && bufs[i].prev <= NBUF
            && Ring(Unlink(bufs, i), order[..k] + order[k + 1..])
  {
    var lap := Lap(order);
    var order' := order[..k] + order[k + 1..];
    var lap' := Lap(order');
    assert Linked(bufs, lap[k], lap[k + 1]) && Linked(bufs, lap[k + 1], lap[k + 2]);
    var r := Unlink(bufs, order[k]);
    forall x, y | 0 <= x && y == x + 1 < |lap'| ensures Linked(r, lap'[x], lap'[y]) {
      if x < k {
        assert Linked(bufs, lap[x], lap[y]);
        assert lap'[x] == lap[x] && lap'[y] == lap[y];
      } else if x > k {
        assert Linked(bufs, lap[x + 1], lap[y + 1]);
        assert lap'[x] == lap[x + 1] && lap'[y] == lap[y + 1];
      }
    }
  }

  ghost predicate MovedToFront(before: seq<nat>, after: seq<nat>, i: nat) {
    exists k :: 0 <= k < |before| && before[k] == i && after == [i] + before[..k] + before[k + 1..]
  }

  /** brelse's four link updates move the buffer to the front and keep every other one in order. */
  lemma ReleaseRing(bufs: seq<Buf>, order: seq<nat>, i: nat) returns (after: seq<nat>)
    requires Ring(bufs, order) && |order| == NBUF && i < NBUF
    ensures bufs[i].next <= NBUF && bufs[i].prev <= NBUF && Unlink(bufs, i)[HEAD].next <= NBUF
    ensures Ring(PushFront(Unlink(bufs, i), i), after) && |after| == NBUF && MovedToFront(order, after, i)
  {
    AllOnRing(order);
    assert i in order;
    var k :| 0 <= k < NBUF && order[k] == i;
    UnlinkRing(bufs, order, k);
    var rest := order[..k] + order[k + 1..];
    PushFrontRing(Unlink(bufs, i), rest, i);
    after := [i] + rest;
    assert after == [i] + order[..k] + order[k + 1..];
  }

  /** Changes that leave the links alone leave the ring alone. */
  lemma RelinkRing(before: seq<Buf>, after: seq<Buf>, order: seq<nat>)
    requires Ring(before, order) && |after| == NBUF + 1
    requires forall i :: 0 <= i <= NBUF ==> after[i].prev == before[i].prev && after[i].next == before[i].next
    ensures Ring(after, order)
  {
    var lap := Lap(order);
    forall x, y | 0 <= x && y == x + 1 < |lap| ensures Linked(after, lap[x], lap[y]) {
      assert Linked(before, lap[x], lap[y]);
    }
  }

  ghost function Below(n: nat): (r: set<nat>)
    ensures |r| == n && forall x :: x in r <==> 0 <= x < n
  {
    if n == 0 then {} else Below(n - 1) + {n - 1}
  }

  lemma {:induction false} DistinctFill(s: seq<nat>, n: nat)
    requires |s| == n && (forall i :: 0 <= i < n ==> s[i] < n)
    requires forall i, j :: 0 <= i < j < n ==> s[i] != s[j]
    ensures forall x :: 0 <= x < n ==> x in s
  {
    var values := set x | x in s;
    SeqCardinality(s, values);
    forall x | 0 <= x < n ensures x in s {
      if x !in s {
        SubsetCardinality(values, Below(n) - {x});
      }
    }
  }

  /** A full ring reaches every buffer. */
  lemma AllOnRing(order: seq<nat>)
    requires |order| == NBUF && (forall i :: 0 <= i < NBUF ==> order[i] < NBUF)
    requires forall i, j :: 0 <= i < j < NBUF ==> order[i] != order[j]
    ensures forall b :: 0 <= b < NBUF ==> b in order
  {
    DistinctFill(order, NBUF);
  }

  // Agreement of the cache with the disk

  predicate SameBlock(bufs: seq<Buf>, i: nat, j: nat)
    requires |bufs| == NBUF + 1 && i < NBUF && j < NBUF
  {
    bufs[i].dev != NODEV && bufs[j].dev != NODEV && bufs[i].blockno == bufs[j].blockno
  }

  /** Each block has at most one buffer. */
  predicate Unique(bufs: seq<Buf>)
    requires |bufs| == NBUF + 1
  {
    forall i, j :: 0 <= i < j < NBUF ==> !SameBlock(bufs, i, j)
  }

  lemma OneBuffer(bufs: seq<Buf>, i: nat, j: nat)
    requires |bufs| == NBUF + 1 && Unique(bufs) && i < NBUF && j < NBUF && SameBlock(bufs, i, j)
    ensures i == j
  {
    assert SameBlock(bufs, j, i);
  }

  /** The names of the buffers change only by giving one of them to a block that has none. */
  lemma KeepsUnique(before: seq<Buf>, after: seq<Buf>, k: nat)
    requires |before| == |after| == NBUF + 1 && Unique(before) && k < NBUF
    requires forall i :: 0 <= i < NBUF && i != k ==>
               after[i].dev == before[i].dev && after[i].blockno == before[i].blockno
    requires (after[k].dev == before[k].dev && after[k].blockno == before[k].blockno)
          || (forall i :: 0 <= i < NBUF ==> !Names(before[i], after[k].blockno))
    ensures Unique(after)
  {
    forall i, j | 0 <= i < j < NBUF ensures !SameBlock(after, i, j) {
      assert !SameBlock(before, i, j);
    }
  }

  predicate Names(b: Buf, blockno: nat) {
    b.dev != NODEV && b.blockno == blockno
  }

  predicate Free(b: Buf) {
    !b.busy && !b.dirty
  }

  /** The state that users of the cache see: view is the contents of every block, pinned the blocks that
      log_write has marked dirty, held the blocks that somebody holds, with the buffer of each, and loading
      the held blocks that have not yet been read from disk. */
  datatype Abstract = Abstract(view: seq<Block>, pinned: set<nat>, held: map<nat, nat>, loading: set<nat>) {
    /** Buffer i is held for block b, with its contents loaded. */
    predicate Holds(i: nat, b: nat) {
      b in held && held[b] == i && b !in loading
    }

    /** Fewer blocks are held or pinned than there are buffers. */
    predicate Roomy() {
      |held.Keys + pinned| < NBUF
    }
  }

  /** What buffer i may be. One that is valid holds the contents in view. One that nobody holds is valid,
      and if it is clean its block on disk holds the same. */
  predicate Agrees(b: Buf, i: nat, disk: seq<Block>, a: Abstract)
    requires |a.view| == |disk|
  {
    if b.dev == NODEV then !b.busy && !b.valid && !b.dirty
    else
      && b.dev == DISKDEV
      && (b.busy ==> b.blockno in a.held && a.held[b.blockno] == i)
      && (b.busy || b.valid)
      && (b.valid <==> b.blockno !in a.loading)
      && (b.valid ==> b.blockno < |disk| && b.data == a.view[b.blockno])
      && (b.dirty ==> b.valid)
      && (b.blockno < |disk| ==> (b.dirty <==> b.blockno in a.pinned))
      && (!b.dirty && (!b.busy || !b.valid) && b.blockno < |disk| ==> a.view[b.blockno] == disk[b.blockno])
  }

  /** The buffers and the disk together show exactly this abstract state. */
  ghost predicate Shows(bufs: seq<Buf>, disk: seq<Block>, a: Abstract) {
    && |bufs| == NBUF + 1 && |a.view| == |disk|
    && (forall i :: 0 <= i < NBUF ==> Agrees(bufs[i], i, disk, a))
    && (forall b :: b in a.held ==> a.held[b] < NBUF && Names(bufs[a.held[b]], b) && bufs[a.held[b]].busy)
    && a.loading <= a.held.Keys
    && (forall b :: b in a.pinned ==> b < |disk| && HasBuffer(bufs, b))
    && (forall b :: 0 <= b < |disk| && a.view[b] != disk[b] ==> HasBuffer(bufs, b))
  }

  predicate HasBuffer(bufs: seq<Buf>, b: nat)
    requires |bufs| == NBUF + 1
  {
    exists i :: 0 <= i < NBUF && Names(bufs[i], b)
  }

  lemma NamesKept(bufs: seq<Buf>, after: seq<Buf>)
    requires |bufs| == |after| == NBUF + 1
    requires forall j :: 0 <= j < NBUF ==> after[j].dev == bufs[j].dev && after[j].blockno == bufs[j].blockno
    ensures forall c: nat :: HasBuffer(bufs, c) ==> HasBuffer(after, c)
  {
    forall c: nat | HasBuffer(bufs, c) ensures HasBuffer(after, c) {
      var j :| 0 <= j < NBUF && Names(bufs[j], c);
      assert Names(after[j], c);
    }
  }

  /** Giving block b's buffer i to a caller that found it unheld. */
  lemma HoldShows(bufs: seq<Buf>, disk: seq<Block>, a: Abstract, i: nat)
    requires Shows(bufs, disk, a) && i < NBUF && bufs[i].dev != NODEV && !bufs[i].busy && Unique(bufs)
    ensures Shows(bufs[i := bufs[i].(busy := true)], disk, a.(held := a.held[bufs[i].blockno := i]))
  {
    var after := bufs[i := bufs[i].(busy := true)];
    NamesKept(bufs, after);
    forall j | 0 <= j < NBUF && j != i ensures after[j].dev != NODEV ==> after[j].blockno != bufs[i].blockno {
      if SameBlock(bufs, i, j) { OneBuffer(bufs, i, j); }
    }
  }

  /** Recycling a free buffer for a block that has none. */
  lemma RecycleShows(bufs: seq<Buf>, disk: seq<Block>, a: Abstract, i: nat, b: nat)
    requires Shows(bufs, disk, a) && i < NBUF && Free(bufs[i]) && Unique(bufs) && !HasBuffer(bufs, b)
    ensures var after := bufs[i := bufs[i].(dev := DISKDEV, blockno := b, busy := true, valid := false,
              dirty := false)];
            Shows(after, disk, a.(held := a.held[b := i], loading := a.loading + {b})) && Unique(after)
  {
    var after := bufs[i := bufs[i].(dev := DISKDEV, blockno := b, busy := true, valid := false, dirty := false)];
    assert b !in a.pinned && b !in a.held;
    forall j | 0 <= j < NBUF ensures !Names(bufs[j], b) {}
    forall c | HasBuffer(bufs, c) && !(bufs[i].dev != NODEV && c == bufs[i].blockno) ensures HasBuffer(after, c) {
      var j :| 0 <= j < NBUF && Names(bufs[j], c);
      assert Names(after[j], c);
    }
    KeepsUnique(bufs, after, i);
  }

  /** The abstract state and the disk change for block c only. */
  ghost predicate OnlyBlock(disk: seq<Block>, a: Abstract, disk': seq<Block>, a': Abstract, c: nat) {
    && |disk'| == |disk| == |a'.view| == |a.view|
    && (forall x :: 0 <= x < |disk| && x != c ==> disk'[x] == disk[x] && a'.view[x] == a.view[x])
    && (forall x :: x != c ==> (x in a'.pinned <==> x in a.pinned))
    && (forall x :: x != c ==> (x in a'.held <==> x in a.held) && (x in a'.loading <==> x in a.loading))
    && (forall x :: x != c && x in a.held ==> a'.held[x] == a.held[x])
  }

  lemma OtherAgrees(b: Buf, j: nat, disk: seq<Block>, a: Abstract, disk': seq<Block>, a': Abstract, c: nat)
    requires OnlyBlock(disk, a, disk', a', c) && Agrees(b, j, disk, a) && (b.dev == NODEV || b.blockno != c)
    ensures Agrees(b, j, disk', a')
  {
  }

  /** Changing one buffer's flags or contents, its name kept. */
  lemma ChangeShows(bufs: seq<Buf>, disk: seq<Block>, a: Abstract, i: nat, b': Buf, disk': seq<Block>, a': Abstract)
    requires Shows(bufs, disk, a) && i < NBUF && Unique(bufs) && bufs[i].dev != NODEV
    requires b'.dev == bufs[i].dev && b'.blockno == bufs[i].blockno
    requires OnlyBlock(disk, a, disk', a', b'.blockno)
    requires b'.blockno in a'.loading ==> b'.blockno in a'.held
    requires b'.blockno in a'.pinned ==> b'.blockno < |disk|
    requires Agrees(b', i, disk', a')
    requires b'.blockno in a'.held ==> a'.held[b'.blockno] == i && b'.busy
    ensures Shows(bufs[i := b'], disk', a') && Unique(bufs[i := b'])
  {
    hide Agrees, HasBuffer;
    var after := bufs[i := b'];
    KeepsUnique(bufs, after, i);
    NamesKept(bufs, after);
    HasOwn(after, i);
    forall j | 0 <= j < NBUF ensures Agrees(after[j], j, disk', a') {
      if j != i {
        if SameBlock(bufs, i, j) { OneBuffer(bufs, i, j); }
        OtherAgrees(bufs[j], j, disk, a, disk', a', b'.blockno);
      }
    }
    forall c | c in a'.held ensures a'.held[c] < NBUF && Names(after[a'.held[c]], c) && after[a'.held[c]].busy {
      if c != b'.blockno { assert a.held[c] != i; }
    }
  }

  lemma HasOwn(bufs: seq<Buf>, i: nat)
    requires |bufs| == NBUF + 1 && i < NBUF && bufs[i].dev != NODEV
    ensures HasBuffer(bufs, bufs[i].blockno)
  {
    assert Names(bufs[i], bufs[i].blockno);
  }

  /** What is known of a held buffer. */
  lemma HeldFacts(bufs: seq<Buf>, disk: seq<Block>, a: Abstract, b: nat)
    requires Shows(bufs, disk, a) && b in a.held
    ensures |bufs| == NBUF + 1 && a.held[b] < NBUF && |a.view| == |disk|
    ensures var x := bufs[a.held[b]];
            && x.dev == DISKDEV && x.blockno == b && x.busy && (x.valid <==> b !in a.loading)
            && (x.valid ==> b < |disk| && x.data == a.view[b])
            && (b < |disk| ==> (x.dirty <==> b in a.pinned)) && (x.dirty ==> x.valid)
            && (!x.valid && b < |disk| ==> b !in a.pinned && a.view[b] == disk[b])
  {
    var i := a.held[b];
    assert Names(bufs[i], b);
    assert Agrees(bufs[i], i, disk, a);
  }

  /** A buffer that nobody holds shows its block; if it is not pinned, as it is on disk. */
  lemma CachedFacts(bufs: seq<Buf>, disk: seq<Block>, a: Abstract, i: nat, b: nat)
    requires Shows(bufs, disk, a) && i < NBUF && Names(bufs[i], b) && !bufs[i].busy
    ensures bufs[i].valid && b < |disk| && b !in a.loading && (b !in a.pinned ==> a.view[b] == disk[b])
  {
    assert Agrees(bufs[i], i, disk, a);
  }

  /** Filling a buffer from disk. */
  lemma LoadShows(bufs: seq<Buf>, disk: seq<Block>, a: Abstract, b: nat)
    requires Shows(bufs, disk, a) && Unique(bufs) && b in a.held && a.held[b] < NBUF && !bufs[a.held[b]].valid &&
             b < |disk|
    ensures var i := a.held[b];
            var after := bufs[i := bufs[i].(valid := true, data := disk[b])];
            Shows(after, disk, a.(loading := a.loading - {b})) && Unique(after)
  {
    hide Shows, Unique;
    HeldFacts(bufs, disk, a, b);
    var i := a.held[b];
    ChangeShows(bufs, disk, a, i, bufs[i].(valid := true, data := disk[b]), disk, a.(loading := a.loading - {b}));
  }

  /** Changing links only. */
  lemma RelinkShows(bufs: seq<Buf>, after: seq<Buf>, disk: seq<Block>, a: Abstract)
    requires Shows(bufs, disk, a) && Unique(bufs) && |after| == NBUF + 1
    requires forall j :: 0 <= j < NBUF ==> SameButLinks(bufs[j], after[j], bufs[j].busy)
    ensures Shows(after, disk, a) && Unique(after)
  {
    KeepsUnique(bufs, after, 0);
    forall j | 0 <= j < NBUF ensures Agrees(after[j], j, disk, a) {
      assert Agrees(bufs[j], j, disk, a);
    }
    NamesKept(bufs, after);
  }

  /** Buffer i is free, and every buffer used less recently is held or dirty. */
  ghost predicate LeastRecent(bufs: seq<Buf>, order: seq<nat>, i: nat)
    requires Ring(bufs, order)
  {
    exists k ::
      0 <= k < |order| && order[k] == i && Free(bufs[i]) && forall j :: k < j < |order| ==> !Free(bufs[order[j]])
  }

  lemma OnRing(order: seq<nat>, b: nat) returns (k: nat)
    requires |order| == NBUF && (forall i :: 0 <= i < NBUF ==> order[i] < NBUF) && b < NBUF
    requires forall i, j :: 0 <= i < j < NBUF ==> order[i] != order[j]
    ensures k < NBUF && order[k] == b
  {
    AllOnRing(order);
    assert b in order;
    k :| k < NBUF && order[k] == b;
  }

  /** The order is that of the last release, the latest first. */
  ghost predicate Aged(order: seq<nat>, released: seq<nat>, clock: nat) {
    && |released| == NBUF && (forall i :: 0 <= i < NBUF ==> released[i] <= clock)
    && forall i, j :: 0 <= i < j < |order| && order[i] < NBUF && order[j] < NBUF ==>
         released[order[i]] >= released[order[j]]
  }

  /** Where every buffer stood before. */
  lemma MovedFrom(order: seq<nat>, after: seq<nat>, i: nat) returns (k: nat)
    requires MovedToFront(order, after, i)
    ensures k < |order| == |after| && order[k] == i == after[0]
    ensures forall x :: 0 < x < |after| ==> after[x] == order[if x <= k then x - 1 else x]
  {
    k :| k < |order| && order[k] == i && after == [i] + order[..k] + order[k + 1..];
  }

  lemma FrontIsLatest(order: seq<nat>, after: seq<nat>, i: nat, released: seq<nat>, clock: nat)
    requires Aged(order, released, clock) && MovedToFront(order, after, i) && i < NBUF
    requires forall x, y :: 0 <= x < y < |order| ==> order[x] != order[y]
    ensures Aged(after, released[i := clock + 1], clock + 1)
  {
    hide MovedToFront;
    var k := MovedFrom(order, after, i);
    var now := released[i := clock + 1];
    forall x, y | 0 <= x < y < |after| && after[x] < NBUF && after[y] < NBUF ensures now[after[x]] >= now[after[y]] {
      var v := if y <= k then y - 1 else y;
      assert now[after[y]] == released[order[v]];
      if x > 0 {
        var u := if x <= k then x - 1 else x;
        assert now[after[x]] == released[order[u]];
      }
    }
  }

  /** Of all buffers that could be recycled, the one found was released longest ago. */
  lemma LeastRecentIsOldest(bufs: seq<Buf>, order: seq<nat>, i: nat, released: seq<nat>, clock: nat)
    requires Ring(bufs, order) && |order| == NBUF && Aged(order, released, clock) && LeastRecent(bufs, order, i)
    ensures i < NBUF && forall j :: 0 <= j < NBUF && Free(bufs[j]) ==> released[i] <= released[j]
  {
    var k :| && 0 <= k < |order| && order[k] == i && Free(bufs[i])
             && forall j :: k < j < |order| ==> !Free(bufs[order[j]]);
    forall j | 0 <= j < NBUF && Free(bufs[j]) ensures released[i] <= released[j] {
      var m := OnRing(order, j);
      assert m <= k;
    }
  }

  class Cache {
    var bufs: seq<Buf>
    var disk: seq<Block>
    ghost var order: seq<nat>          // the ring from head.next to head.prev
    ghost var writes: seq<seq<Block>>  // the disk after each block write, oldest first
    ghost var a: Abstract
    ghost var clock: nat               // how many buffers have been released
    ghost var released: seq<nat>       // when each buffer was last released

    ghost predicate Valid()
      reads this
    {
      Ring(bufs, order) && |order| == NBUF && Unique(bufs) && Shows(bufs, disk, a) && Aged(order, released, clock)
    }

    lemma ValidFacts()
      requires Valid()
      ensures |bufs| == NBUF + 1 && |a.view| == |disk|
    {
    }

    lemma HeldData(i: nat, b: nat)
      requires Valid() && a.Holds(i, b)
      ensures b < |disk| && bufs[i].data == a.view[b]
    {
      assert Agrees(bufs[i], i, disk, a);
    }

    /** The contents of a held buffer. */
    method Data(i: nat, ghost b: nat) returns (data: Block)
      requires Valid() && a.Holds(i, b) && b < |disk|
      ensures data == a.view[b]
    {
      HeldData(i, b);
      data := bufs[i].data;
    }

    /** The block number of a held buffer. */
    method BlockNumber(i: nat, ghost b: nat) returns (blockno: nat)
      requires Valid() && a.Holds(i, b) && b < |disk|
      ensures blockno == b
    {
      assert Names(bufs[i], b);
      blockno := bufs[i].blockno;
    }

    /** binit: an empty cache, every buffer on the ring, the last one initialised in front. */
    constructor (image: seq<Block>)
      ensures Valid() && disk == image && writes == [] && a == Abstract(image, {}, map[], {})
      ensures forall i :: 0 <= i < NBUF ==> bufs[i].dev == NODEV && order[i] == NBUF - 1 - i
    {
      var s := seq(NBUF + 1, i => Buf(0, 0, false, false, false, ZERO_BLOCK, 0, 0));
      s := s[HEAD := s[HEAD].(prev := HEAD, next := HEAD)];
      ghost var o: seq<nat> := [];
      var i := 0;
      assert Ring(s, o) by { assert Lap(o) == [HEAD, HEAD]; }
      while i < NBUF
        invariant 0 <= i <= NBUF && |o| == i
        invariant forall k :: 0 <= k < i ==> o[k] == i - 1 - k
        invariant Ring(s, o)
        invariant forall k :: 0 <= k < NBUF ==> !s[k].busy && !s[k].valid && !s[k].dirty
        invariant forall k :: 0 <= k < i ==> s[k].dev == NODEV
      {
        s := s[i := s[i].(dev := NODEV)];
        PushFrontRing(s, o, i);
        s := PushFront(s, i);
        o := [i] + o;
        i := i + 1;
      }
      bufs, disk, order, writes, a := s, image, o, [], Abstract(image, {}, map[], {});
      clock, released := 0, seq(NBUF, _ => 0);
    }

    /** bget: the buffer of a cached block if nobody holds it; for an uncached block, the least recently
        used buffer that is neither held nor dirty. Dirty buffers are never recycled. */
    method Bget(b: nat) returns (r: Got)
      requires Valid()
      modifies this`bufs, this`a
      ensures Valid() && !r.BadBlock?
      ensures r.Buffer? ==>
                && r.i < NBUF && !old(bufs)[r.i].busy && bufs == old(bufs)[r.i := bufs[r.i]]
                && b !in old(a.held)
                && a == old(a).(held := old(a.held)[b := r.i],
                     loading := old(a.loading) + if HasBuffer(old(bufs), b) then {} else {b})
      ensures r.Buffer? && HasBuffer(old(bufs), b) ==> bufs[r.i] == old(bufs)[r.i].(busy := true)
      ensures r.Buffer? && !HasBuffer(old(bufs), b) ==>
                && !old(bufs)[r.i].dirty
                && bufs[r.i] == old(bufs)[r.i].(dev := DISKDEV, blockno := b, busy := true, valid := false,
                     dirty := false)
                && LeastRecent(old(bufs), order, r.i)
                && forall j :: 0 <= j < NBUF && !old(bufs)[j].busy && !old(bufs)[j].dirty ==>
                     released[r.i] <= released[j]
      ensures r.MustSleep? ==> bufs == old(bufs) && a == old(a) && b in a.held && r.busy == a.held[b]
      ensures r.NoBuffers? ==>
                bufs == old(bufs) && a == old(a) && !HasBuffer(bufs, b) && forall j :: 0 <= j < NBUF ==> !Free(bufs[j])
    {
      hide Aged;
      AgedFacts(order, released, clock);
      var p := FindCached(b);
      if p != HEAD {
        if bufs[p].busy {
          return MustSleep(p);
        }
        HoldShows(bufs, disk, a, p);
        bufs := bufs[p := bufs[p].(busy := true)];
        KeepsUnique(old(bufs), bufs, p);
        a := a.(held := a.held[b := p]);
      } else {
        p := FindFree();
        if p == HEAD {
          return NoBuffers;
        }
        LeastRecentIsOldest(bufs, order, p, released, clock);
        RecycleShows(bufs, disk, a, p, b);
        bufs := bufs[p := bufs[p].(dev := DISKDEV, blockno := b, busy := true, valid := false, dirty := false)];
        a := a.(held := a.held[b := p], loading := a.loading + {b});
      }
      RelinkRing(old(bufs), bufs, order);
      return Buffer(p);
    }

    /** The first scan of bget, from the most recently used buffer. */
    method FindCached(b: nat) returns (p: nat)
      requires Ring(bufs, order) && |order| == NBUF
      ensures p <= NBUF
      ensures if p == HEAD then !HasBuffer(bufs, b) else Names(bufs[p], b)
    {
      ghost var lap := Lap(order);
      p := bufs[HEAD].next;
      ghost var k := 1;
      assert Linked(bufs, lap[0], lap[1]);
      while p != HEAD
        invariant 1 <= k <= NBUF + 1 && p == lap[k]
        invariant forall j :: 0 <= j < k - 1 ==> !Names(bufs[order[j]], b)
        decreases NBUF + 1 - k
      {
        if Names(bufs[p], b) {
          return;
        }
        assert Linked(bufs, lap[k], lap[k + 1]);
        p := bufs[p].next;
        k := k + 1;
      }
      forall j | 0 <= j < NBUF ensures !Names(bufs[j], b) {
        var m := OnRing(order, j);
      }
    }

    /** The second scan of bget, from the least recently used buffer. */
    method FindFree() returns (p: nat)
      requires Ring(bufs, order) && |order| == NBUF
      ensures p <= NBUF
      ensures if p == HEAD then forall j :: 0 <= j < NBUF ==> !Free(bufs[j]) else LeastRecent(bufs, order, p)
    {
      ghost var lap := Lap(order);
      assert Linked(bufs, lap[NBUF], lap[NBUF + 1]);
      p := bufs[HEAD].prev;
      ghost var k := NBUF;
      while p != HEAD
        invariant 0 <= k <= NBUF && p == lap[k]
        invariant forall j :: k <= j < NBUF ==> !Free(bufs[order[j]])
        decreases k
      {
        if !bufs[p].busy && !bufs[p].dirty {
          assert order[k - 1] == p;
          return;
        }
        assert Linked(bufs, lap[k - 1], lap[k]);
        p := bufs[p].prev;
        k := k - 1;
      }
      forall j | 0 <= j < NBUF ensures !Free(bufs[j]) {
        var m := OnRing(order, j);
      }
    }

    /** The conditions on which iderw does not panic. */
    predicate Transferable(b: Buf)
      reads this`disk
    {
      b.busy && (b.dirty || !b.valid) && b.dev == DISKDEV && b.blockno < |disk|
    }

    /** iderw: a dirty buffer goes to disk in one atomic step; an invalid one is filled from disk. */
    method Iderw(i: nat) returns (ok: bool)
      requires Ring(bufs, order) && i < NBUF
      modifies this`bufs, this`disk, this`writes
      ensures ok == old(Transferable(bufs[i])) && Ring(bufs, order)
      ensures !ok || !old(bufs[i].dirty) ==> disk == old(disk) && writes == old(writes)
      ensures !ok ==> bufs == old(bufs)
      ensures ok && old(bufs[i].dirty) ==>
                && disk == old(disk)[old(bufs[i].blockno) := old(bufs[i].data)] && writes == old(writes) + [disk]
                && bufs == old(bufs)[i := old(bufs)[i].(dirty := false, valid := true)]
      ensures ok && !old(bufs[i].dirty) ==>
                bufs == old(bufs)[i := old(bufs)[i].(valid := true, data := disk[old(bufs)[i].blockno])]
    {
      var b := bufs[i];
      if !b.busy || (b.valid && !b.dirty) || b.dev != DISKDEV || b.blockno >= |disk| {
        return false;
      }
      if b.dirty {
        disk := disk[b.blockno := b.data];
        writes := writes + [disk];
        bufs := bufs[i := b.(dirty := false, valid := true)];
      } else {
        bufs := bufs[i := b.(data := disk[b.blockno], valid := true)];
      }
      RelinkRing(old(bufs), bufs, order);
      return true;
    }

    /** bread: a held buffer that shows the block's current contents; nothing else looks different. It sleeps exactly
        on a block that somebody holds, and panics for want of a buffer exactly on a block that is neither held nor
        pinned while NBUF blocks are. */
    method Bread(b: nat) returns (r: Got)
      requires Valid()
      modifies this`bufs, this`a, this`disk, this`writes
      ensures Valid() && |a.view| == |disk| && disk == old(disk) && writes == old(writes)
      ensures r.Buffer? <==> b < |disk| && b !in old(a.held) && (b in old(a.pinned) || old(a.Roomy()))
      ensures r.MustSleep? <==> b in old(a.held)
      ensures r.NoBuffers? <==> b !in old(a.held) && b !in old(a.pinned) && !old(a.Roomy())
      ensures r.Buffer? ==> a == old(a).(held := old(a.held)[b := r.i]) && a.Holds(r.i, b)
      ensures r.Buffer? && b !in a.pinned ==> a.view[b] == disk[b]
      ensures r.MustSleep? || r.NoBuffers? ==> bufs == old(bufs) && a == old(a)
    {
      hide Ring, Unique, Shows, HasBuffer, LeastRecent, Aged;
      ValidFacts();
      GetExactly(bufs, disk, a, b);
      GetFacts(bufs, b);
      r := Bget(b);
      ValidFacts();
      if r.Buffer? {
        HeldFacts(bufs, disk, a, b);
        if !bufs[r.i].valid {
          FreshNotHeld(old(bufs), disk, old(a), bufs, r.i, b);
          ghost var claimed, loading := bufs, a;
          var ok := Iderw(r.i);
          if !ok {
            return BadBlock;
          }
          LoadShows(claimed, disk, loading, b);
          a := a.(loading := a.loading - {b});
          assert a == old(a).(held := old(a.held)[b := r.i]);
        } else {
          CachedNotHeld(old(bufs), disk, old(a), bufs, r.i, b);
        }
      }
    }

    /** bwrite: the held buffer's contents reach the disk as one write, and its block is no longer pinned. */
    method Bwrite(i: nat, ghost b: nat)
      requires Valid() && a.Holds(i, b) && b < |disk|
      modifies this`bufs, this`disk, this`writes, this`a
      ensures Valid()
      ensures disk == old(disk)[b := old(a.view[b])] && writes == old(writes) + [disk]
      ensures a == old(a).(pinned := old(a.pinned) - {b})
    {
      bufs := bufs[i := bufs[i].(dirty := true)];
      RelinkRing(old(bufs), bufs, order);
      var ok := Iderw(i);
      a := a.(pinned := a.pinned - {b});
      assert bufs == old(bufs)[i := bufs[i]];
      ChangeShows(old(bufs), old(disk), old(a), i, bufs[i], disk, a);
    }

    /** brelse: the buffer becomes the most recently used one and nobody holds it. The caller has
        either left the contents alone or handed them to log_write or bwrite. */
    method Brelse(i: nat, ghost b: nat)
      requires Valid() && a.Holds(i, b) && b < |disk| && (b in a.pinned || a.view[b] == disk[b])
      modifies this`bufs, this`order, this`a, this`clock, this`released
      ensures Valid() && MovedToFront(old(order), order, i)
      ensures clock == old(clock) + 1 && released == old(released)[i := clock]
      ensures a == old(a).(held := old(a.held) - {b})
    {
      hide Ring, Unique, Shows, Unlink, PushFront, MovedToFront, Aged;
      HeldFacts(bufs, disk, a, b);
      RingFacts(bufs, order);
      ghost var before := order;
      order := ReleaseShows(bufs, disk, a, order, i, b);
      FrontIsLatest(before, order, i, released, clock);
      AgedFacts(before, released, clock);
      clock := clock + 1;
      released := released[i := clock];
      bufs := Unlink(bufs, i);
      bufs := PushFront(bufs, i);
      bufs := bufs[i := bufs[i].(busy := false)];
      a := a.(held := a.held - {b});
    }

    /** The holder of a buffer changes its contents. */
    method SetData(i: nat, ghost b: nat, data: Block)
      requires Valid() && a.Holds(i, b) && b < |disk|
      modifies this`bufs, this`a
      ensures Valid() && a == old(a).(view := old(a.view)[b := data])
    {
      bufs := bufs[i := bufs[i].(data := data)];
      a := a.(view := a.view[b := data]);
      RelinkRing(old(bufs), bufs, order);
      ChangeShows(old(bufs), disk, old(a), i, bufs[i], disk, a);
    }

    /** The last step of log_write: the buffer is dirty, so it stays cached until commit installs it. */
    method Pin(i: nat, ghost b: nat)
      requires Valid() && a.Holds(i, b) && b < |disk|
      modifies this`bufs, this`a
      ensures Valid() && a == old(a).(pinned := old(a.pinned) + {b})
    {
      bufs := bufs[i := bufs[i].(dirty := true)];
      a := a.(pinned := a.pinned + {b});
      RelinkRing(old(bufs), bufs, order);
      ChangeShows(old(bufs), disk, old(a), i, bufs[i], disk, a);
    }
  }

  lemma RingFacts(bufs: seq<Buf>, order: seq<nat>)
    requires Ring(bufs, order)
    ensures forall i, j :: 0 <= i < j < |order| ==> order[i] != order[j]
  {
  }

  lemma AgedFacts(order: seq<nat>, released: seq<nat>, clock: nat)
    requires Aged(order, released, clock)
    ensures |released| == NBUF
  {
  }

  /** bget finds or recycles a buffer for block b. */
  predicate CanGet(bufs: seq<Buf>, b: nat)
    requires |bufs| == NBUF + 1
  {
    HasBuffer(bufs, b) || exists i :: 0 <= i < NBUF && Free(bufs[i])
  }

  lemma GetFacts(bufs: seq<Buf>, b: nat)
    requires |bufs| == NBUF + 1
    ensures CanGet(bufs, b) ==> HasBuffer(bufs, b) || exists j :: 0 <= j < NBUF && Free(bufs[j])
    ensures !CanGet(bufs, b) ==> !HasBuffer(bufs, b) && forall j :: 0 <= j < NBUF ==> !Free(bufs[j])
  {
  }

  /** A buffer handed out invalid is one that had been recycled: its block had none and was not being loaded. */
  lemma FreshNotHeld(bufs: seq<Buf>, disk: seq<Block>, a: Abstract, after: seq<Buf>, i: nat, b: nat)
    requires Shows(bufs, disk, a) && |after| == NBUF + 1 && i < NBUF && !bufs[i].busy && !after[i].valid &&
             Names(after[i], b)
    requires HasBuffer(bufs, b) ==> after[i] == bufs[i].(busy := true)
    ensures !HasBuffer(bufs, b) && b !in a.held && b !in a.loading && b !in a.pinned
  {
    if HasBuffer(bufs, b) {
      CachedFacts(bufs, disk, a, i, b);
      assert false;
    }
  }

  /** A buffer found unheld and only marked held. */
  lemma CachedNotHeld(bufs: seq<Buf>, disk: seq<Block>, a: Abstract, after: seq<Buf>, i: nat, b: nat)
    requires Shows(bufs, disk, a) && |after| == NBUF + 1 && i < NBUF && !bufs[i].busy
    requires after[i] == bufs[i].(busy := true) && Names(after[i], b)
    ensures b < |disk| && b !in a.loading && (b !in a.pinned ==> a.view[b] == disk[b])
  {
    CachedFacts(bufs, disk, a, i, b);
  }

  lemma RelinkedContents(bufs: seq<Buf>, i: nat)
    requires |bufs| == NBUF + 1 && i < NBUF
    requires bufs[i].next <= NBUF && bufs[i].prev <= NBUF && Unlink(bufs, i)[HEAD].next <= NBUF
    ensures forall j :: 0 <= j < NBUF ==> SameButLinks(bufs[j], PushFront(Unlink(bufs, i), i)[j], bufs[j].busy)
  {
    var s := Unlink(bufs, i);
    forall j | 0 <= j < NBUF ensures SameButLinks(bufs[j], PushFront(s, i)[j], bufs[j].busy) {
      assert SameButLinks(s[j], PushFront(s, i)[j], bufs[j].busy);
    }
  }

  lemma ReleaseShows(bufs: seq<Buf>, disk: seq<Block>, a: Abstract, order: seq<nat>, i: nat,
                     b: nat) returns (after: seq<nat>)
    requires Ring(bufs, order) && |order| == NBUF && Unique(bufs) && Shows(bufs, disk, a)
    requires i < NBUF && b in a.held && a.held[b] == i && bufs[i].valid && (b in a.pinned || a.view[b] == disk[b])
    ensures bufs[i].next <= NBUF && bufs[i].prev <= NBUF && Unlink(bufs, i)[HEAD].next <= NBUF
    ensures MovedToFront(order, after, i) && |after| == NBUF
    ensures var s := PushFront(Unlink(bufs, i), i);
            var t := s[i := s[i].(busy := false)];
            && Ring(t, after) && Unique(t) && Shows(t, disk, a.(held := a.held - {b}))
            && forall j :: 0 <= j < NBUF ==> t[j].valid == bufs[j].valid
  {
    hide Ring, Shows, Unique, Unlink, PushFront, MovedToFront;
    HeldFacts(bufs, disk, a, b);
    after := ReleaseRing(bufs, order, i);
    RelinkedContents(bufs, i);
    var s := PushFront(Unlink(bufs, i), i);
    RelinkShows(bufs, s, disk, a);
    HeldFacts(s, disk, a, b);
    var t := s[i := s[i].(busy := false)];
    RelinkRing(s, t, after);
    ChangeShows(s, disk, a, i, t[i], disk, a.(held := a.held - {b}));
  }

  // Counting buffers

  ghost function BlocksOf(bufs: seq<Buf>, n: nat): (s: set<nat>)
    requires |bufs| == NBUF + 1 && n <= NBUF
  {
    set i | 0 <= i < n && !Free(bufs[i]) :: bufs[i].blockno
  }

  lemma {:induction false} BlocksOfSize(bufs: seq<Buf>, n: nat)
    requires |bufs| == NBUF + 1 && n <= NBUF && Unique(bufs)
    requires forall i :: 0 <= i < n ==> !Free(bufs[i]) && bufs[i].dev != NODEV
    ensures |BlocksOf(bufs, n)| == n
  {
    if n > 0 {
      BlocksOfSize(bufs, n - 1);
      var b := bufs[n - 1].blockno;
      assert BlocksOf(bufs, n) == BlocksOf(bufs, n - 1) + {b};
      forall i | 0 <= i < n - 1 ensures bufs[i].blockno != b {
        assert !SameBlock(bufs, i, n - 1);
      }
    }
  }

  /** While fewer than NBUF blocks are held or pinned, bget always has a buffer to recycle. */
  lemma EnoughBuffers(bufs: seq<Buf>, disk: seq<Block>, a: Abstract)
    requires Shows(bufs, disk, a) && Unique(bufs) && a.Roomy()
    ensures exists i :: 0 <= i < NBUF && Free(bufs[i])
  {
    if forall i :: 0 <= i < NBUF ==> !Free(bufs[i]) {
      forall i | 0 <= i < NBUF ensures bufs[i].dev != NODEV && bufs[i].blockno in a.held.Keys + a.pinned {
        assert Agrees(bufs[i], i, disk, a);
      }
      BlocksOfSize(bufs, NBUF);
      SubsetCardinality(BlocksOf(bufs, NBUF), a.held.Keys + a.pinned);
    }
  }

  /** Block b has a buffer that cannot be recycled. */
  predicate HasTaken(bufs: seq<Buf>, b: nat)
    requires |bufs| == NBUF + 1
  {
    exists i :: 0 <= i < NBUF && !Free(bufs[i]) && bufs[i].blockno == b
  }

  lemma {:induction false} TakenCount(bufs: seq<Buf>, p: set<nat>, d: set<nat>)
    requires |bufs| == NBUF + 1 && forall b :: b in p ==> HasTaken(bufs, b)
    requires forall i :: 0 <= i < NBUF && !Free(bufs[i]) && bufs[i].blockno in p ==> i in d
    ensures |p| <= |d|
  {
    if p != {} {
      var b :| b in p;
      var i :| 0 <= i < NBUF && !Free(bufs[i]) && bufs[i].blockno == b;
      TakenCount(bufs, p - {b}, d - {i});
    }
  }

  lemma NoneFree(bufs: seq<Buf>, p: set<nat>, i: nat)
    requires |bufs| == NBUF + 1 && (forall b :: b in p ==> HasTaken(bufs, b)) && |p| >= NBUF && i < NBUF
    ensures !Free(bufs[i])
  {
    hide Below;
    if Free(bufs[i]) {
      TakenCount(bufs, p, Below(NBUF) - {i});
    }
  }

  lemma IsTaken(bufs: seq<Buf>, disk: seq<Block>, a: Abstract, b: nat)
    requires Shows(bufs, disk, a) && (b in a.pinned || b in a.held)
    ensures HasTaken(bufs, b) && HasBuffer(bufs, b)
  {
    if b in a.held {
      HeldFacts(bufs, disk, a, b);
      HasOwn(bufs, a.held[b]);
    } else {
      var i :| 0 <= i < NBUF && Names(bufs[i], b);
      assert Agrees(bufs[i], i, disk, a);
    }
  }

  /** Once NBUF blocks are held or pinned, no other block can be read. */
  lemma AllTaken(bufs: seq<Buf>, disk: seq<Block>, a: Abstract, b: nat)
    requires Shows(bufs, disk, a) && !a.Roomy() && b !in a.pinned && b !in a.held
    ensures !CanGet(bufs, b)
  {
    var p := a.held.Keys + a.pinned;
    forall c | c in p ensures HasTaken(bufs, c) {
      IsTaken(bufs, disk, a, c);
    }
    forall i: nat | i < NBUF ensures !Free(bufs[i]) && !Names(bufs[i], b) {
      NoneFree(bufs, p, i);
      assert Agrees(bufs[i], i, disk, a);
    }
  }

  /** bget has a buffer for block b exactly if b is held or pinned, or fewer than NBUF blocks are. */
  lemma GetExactly(bufs: seq<Buf>, disk: seq<Block>, a: Abstract, b: nat)
    requires Shows(bufs, disk, a) && Unique(bufs)
    ensures CanGet(bufs, b) <==> a.Roomy() || b in a.pinned || b in a.held
  {
    if b in a.pinned || b in a.held {
      IsTaken(bufs, disk, a, b);
    } else if a.Roomy() {
      EnoughBuffers(bufs, disk, a);
    } else {
      AllTaken(bufs, disk, a, b);
    }
  }
}
