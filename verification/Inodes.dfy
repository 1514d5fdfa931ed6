/** The inode layer of fs.c: block allocation, block mapping, reading, writing and truncation. blocks is what
    the buffer cache shows inside a transaction; inodes are the in-memory inodes. */
module Inodes {
  import opened Blocks
  import opened Common
  import opened DiskLayout
  import opened FileMap

  const MAXBYTES: nat := MAXFILE * BSIZE

  /** How many blocks n bytes take. */
  function Ceil(n: nat): (k: nat) {
    (n + BSIZE - 1) / BSIZE
  }

  function Sizes(inodes: seq<Inode>): (nb: seq<nat>) {
    seq(|inodes|, i requires 0 <= i < |inodes| => Ceil(inodes[i].size))
  }

  /** The indirect block exists exactly when more than NDIRECT blocks are in use. */
  predicate Tight(ino: Inode, nb: nat)
    requires |ino.addrs| == NDIRECT + 1
  {
    ino.addrs[NDIRECT] != 0 <==> nb > NDIRECT
  }

  /** iupdate has stored inode i. */
  predicate Stored(sb: Super, fs: Fs, i: nat)
    requires sb.WellFormed() && |fs.blocks| == sb.size && i < |fs.inodes| <= sb.ninodes
  {
    LoadInode(fs.blocks[InodeBlock(sb, i)], i) == fs.inodes[i]
  }

  /** File i is within its limits, has exactly the blocks its size needs, and is stored on disk. */
  predicate InodeOk(sb: Super, fs: Fs, i: nat)
    requires sb.WellFormed() && |fs.blocks| == sb.size && i < |fs.inodes| <= sb.ninodes
  {
    && |fs.inodes[i].addrs| == NDIRECT + 1 && fs.inodes[i].size <= MAXBYTES
    && Tight(fs.inodes[i], Ceil(fs.inodes[i].size)) && Stored(sb, fs, i)
  }

  /** The state between operations. */
  ghost predicate Consistent(sb: Super, fs: Fs, owner: seq<Owner>) {
    && MapInv(sb, fs, owner, Sizes(fs.inodes)) && |fs.inodes| <= sb.ninodes
    && forall i :: 0 <= i < |fs.inodes| ==> InodeOk(sb, fs, i)
  }

  /** The bytes of file i. */
  function Contents(fs: Fs, i: nat): (c: seq<byte>)
    requires i < |fs.inodes| && |fs.inodes[i].addrs| == NDIRECT + 1 && fs.inodes[i].size <= MAXBYTES
    ensures |c| == fs.inodes[i].size
  {
    seq(fs.inodes[i].size, p requires 0 <= p < fs.inodes[i].size => ByteAt(fs.blocks, fs.inodes[i], p))
  }

  /** Bytes s written over c from offset off, extending it if need be. */
  function Splice(c: seq<byte>, off: nat, s: seq<byte>): (r: seq<byte>)
    requires off <= |c|
    ensures |r| == if off + |s| > |c| then off + |s| else |c|
  {
    if s == [] then c else c[..off] + s + if off + |s| < |c| then c[off + |s|..] else []
  }

  lemma SpliceAt(c: seq<byte>, off: nat, s: seq<byte>, p: nat)
    requires off <= |c| && p < |Splice(c, off, s)|
    ensures if off <= p < off + |s| then Splice(c, off, s)[p] == s[p - off] else p < |c| && Splice(c, off, s)[p] == c[p]
  {
  }

  predicate MetaInUse(sb: Super, blocks: seq<Block>)
    requires sb.WellFormed() && |blocks| == sb.size
  {
    forall b :: 0 <= b < sb.DataStart() ==> InUse(sb, blocks, b)
  }

  /** The two block writes of a successful balloc. */
  lemma ClaimBlock(sb: Super, blocks: seq<Block>, r: nat)
    requires sb.WellFormed() && |blocks| == sb.size && r < sb.size && MetaInUse(sb, blocks) && !InUse(sb, blocks, r)
    ensures r >= sb.DataStart()
    ensures var m := sb.bmapstart + r / BPB;
            Claimed(sb, blocks, blocks[m := SetBit(blocks[m], r % BPB)][r := ZERO_BLOCK], r)
  {
    var m := sb.bmapstart + r / BPB;
    var marked := blocks[m := SetBit(blocks[m], r % BPB)];
    var after := marked[r := ZERO_BLOCK];
    assert r / BPB <= sb.size / BPB;
    forall c | 0 <= c < sb.size ensures InUse(sb, after, c) <==> c == r || InUse(sb, blocks, c) {
      SetBitInUse(sb, blocks, r, c);
      DataKeepsBitmap(sb, marked, r, ZERO_BLOCK, c);
    }
    assert IsZero(after[r]);
  }

  // Counting blocks

  function FreeBlocks(sb: Super, blocks: seq<Block>): (s: set<nat>)
    requires sb.WellFormed() && |blocks| == sb.size
  {
    set b: nat | b < sb.size && !InUse(sb, blocks, b)
  }

  function FreeCount(sb: Super, blocks: seq<Block>): (n: nat)
    requires sb.WellFormed() && |blocks| == sb.size
  {
    |FreeBlocks(sb, blocks)|
  }

  /** How many blocks a file of n data blocks takes, its indirect block included. */
  function Held(n: nat): (k: nat) {
    if n > NDIRECT then n + 1 else n
  }

  /** There are too few free blocks for file i to grow from size to end bytes. */
  predicate TooFew(sb: Super, blocks: seq<Block>, size: nat, end: nat)
    requires sb.WellFormed() && |blocks| == sb.size
  {
    FreeCount(sb, blocks) + Held(Ceil(size)) < Held(Max(Ceil(size), Ceil(end)))
  }

  lemma ClaimCount(sb: Super, blocks: seq<Block>, blocks': seq<Block>, r: nat)
    requires sb.WellFormed() && |blocks| == sb.size && Claimed(sb, blocks, blocks', r)
    ensures FreeCount(sb, blocks') + 1 == FreeCount(sb, blocks)
  {
    assert FreeBlocks(sb, blocks') == FreeBlocks(sb, blocks) - {r} && r in FreeBlocks(sb, blocks);
  }

  lemma FullCount(sb: Super, blocks: seq<Block>)
    requires sb.WellFormed() && |blocks| == sb.size && forall b :: 0 <= b < sb.size ==> InUse(sb, blocks, b)
    ensures FreeCount(sb, blocks) == 0
  {
    assert FreeBlocks(sb, blocks) == {};
  }

  /** Only the bitmap matters to the count. */
  lemma SameCount(sb: Super, blocks: seq<Block>, x: nat, v: Block)
    requires sb.WellFormed() && |blocks| == sb.size && x < sb.size && !IsBitmap(sb, x)
    ensures FreeCount(sb, blocks[x := v]) == FreeCount(sb, blocks)
  {
    forall c: nat | c < sb.size ensures InUse(sb, blocks[x := v], c) <==> InUse(sb, blocks, c) {
      assert c / BPB <= sb.size / BPB;
    }
    assert FreeBlocks(sb, blocks[x := v]) == FreeBlocks(sb, blocks);
  }

  lemma HeldGrows(m: nat, n: nat)
    requires m <= n
    ensures Held(m) <= Held(n)
  {
  }

  // What goes to the log

  /** Every block that has changed has been passed to log_write. */
  ghost predicate Logged(before: seq<Block>, after: seq<Block>, log: set<nat>) {
    |before| == |after| && forall b :: 0 <= b < |before| && after[b] != before[b] ==> b in log
  }

  lemma NothingLogged(blocks: seq<Block>, log: set<nat>)
    ensures Logged(blocks, blocks, log)
  {
  }

  lemma LoggedThen(b0: seq<Block>, b1: seq<Block>, b2: seq<Block>, l1: set<nat>, l2: set<nat>)
    requires Logged(b0, b1, l1) && Logged(b1, b2, l2) && l1 <= l2
    ensures Logged(b0, b2, l2)
  {
  }

  lemma LoggedOne(b0: seq<Block>, b1: seq<Block>, log: set<nat>, x: nat, v: Block)
    requires Logged(b0, b1, log) && x < |b1|
    ensures Logged(b0, b1[x := v], log + {x})
  {
  }

  lemma LoggedTwo(blocks: seq<Block>, log: set<nat>, x: nat, v: Block, y: nat, w: Block)
    requires x < |blocks| && y < |blocks|
    ensures Logged(blocks, blocks[x := v][y := w], log + {x, y})
  {
  }

  /** A block of file i in one of the slots from lo up to hi. */
  predicate SlotIn(o: Owner, i: nat, lo: nat, hi: nat) {
    o.Data? && o.inum == i && lo <= o.slot < hi
  }

  /** Blocks have been claimed for file i, for slots from lo up to hi or as its indirect block, and blocks passed to
      log_write: those, or others that the file has in these places, or bitmap blocks. */
  ghost predicate Touched(sb: Super, owner: seq<Owner>, owner': seq<Owner>, log: set<nat>, log': set<nat>, i: nat,
                          lo: nat, hi: nat) {
    && |owner| == |owner'| == sb.size && log <= log'
    && (forall b :: 0 <= b < sb.size && owner'[b] != owner[b] ==>
          owner[b].Unowned? && (owner'[b] == Indirect(i) || SlotIn(owner'[b], i, lo, hi)))
    && (forall b :: b in log' && b !in log ==>
          b < sb.size && (IsBitmap(sb, b) || owner'[b] == Indirect(i) || SlotIn(owner'[b], i, lo, hi)))
  }

  lemma TouchedLog(sb: Super, owner: seq<Owner>, owner': seq<Owner>, log: set<nat>, log': set<nat>, i: nat, lo: nat,
                   hi: nat)
    requires Touched(sb, owner, owner', log, log', i, lo, hi)
    ensures log <= log'
  {
  }

  lemma TouchedNothing(sb: Super, owner: seq<Owner>, log: set<nat>, i: nat, lo: nat, hi: nat)
    requires |owner| == sb.size
    ensures Touched(sb, owner, owner, log, log, i, lo, hi)
  {
  }

  /** balloc for file i, and what is logged on the way. */
  lemma TouchedClaim(sb: Super, owner: seq<Owner>, log: set<nat>, i: nat, k: nat, r: nat, o: Owner)
    requires sb.WellFormed() && |owner| == sb.size && r < sb.size && owner[r].Unowned? &&
             (o == Indirect(i) || o == Data(i, k))
    ensures Touched(sb, owner, owner[r := o], log, log + {sb.bmapstart + r / BPB, r}, i, k, k + 1)
  {
    assert r / BPB <= sb.size / BPB;
  }

  lemma TouchedThen(sb: Super, o0: seq<Owner>, o1: seq<Owner>, o2: seq<Owner>, l0: set<nat>, l1: set<nat>, l2: set<nat>,
                    i: nat, lo: nat, mid: nat, k: nat, hi: nat)
    requires Touched(sb, o0, o1, l0, l1, i, lo, mid) && Touched(sb, o1, o2, l1, l2, i, k, hi) && lo <= k && mid <= hi
    ensures Touched(sb, o0, o2, l0, l2, i, lo, hi)
  {
  }

  /** A block of the file's own is logged. */
  lemma TouchedMore(sb: Super, o0: seq<Owner>, o1: seq<Owner>, l0: set<nat>, l1: set<nat>, i: nat, lo: nat, hi: nat,
                    b: nat)
    requires Touched(sb, o0, o1, l0, l1, i, lo, hi) && b < sb.size && (o1[b] == Indirect(i) || SlotIn(o1[b], i, lo, hi))
    ensures Touched(sb, o0, o1, l0, l1 + {b}, i, lo, hi)
  {
  }

  /** The blocks of file i from slot lo up to hi have all been logged. */
  ghost predicate AllLogged(owner: seq<Owner>, log: set<nat>, i: nat, lo: nat, hi: nat) {
    forall b :: 0 <= b < |owner| && SlotIn(owner[b], i, lo, hi) ==> b in log
  }

  /** One more slot. */
  lemma AllLoggedMore(sb: Super, o0: seq<Owner>, o1: seq<Owner>, l0: set<nat>, l1: set<nat>, i: nat, lo: nat, mid: nat,
                      k: nat)
    requires AllLogged(o0, l0, i, lo, mid) && Touched(sb, o0, o1, l0, l1, i, k, k + 1) && AllLogged(o1, l1, i, k, k + 1)
    requires lo <= k <= mid
    ensures AllLogged(o1, l1, i, lo, k + 1)
  {
  }

  /** The only block of file i in slot k is the one that its inode names. */
  lemma OneSlotLogged(sb: Super, fs: Fs, owner: seq<Owner>, nb: seq<nat>, log: set<nat>, i: nat, k: nat)
    requires MapInv(sb, fs, owner, nb) && i < |fs.inodes| && k < nb[i]
    ensures |fs.inodes[i].addrs| == NDIRECT + 1 && k < MAXFILE
    ensures var b := Slot(fs.blocks, fs.inodes[i], k);
            b < sb.size == |owner| && SlotIn(owner[b], i, k, k + 1) && AllLogged(owner, log + {b}, i, k, k + 1)
  {
    assert FileOk(fs.blocks, owner, fs.inodes[i], i, nb[i]);
    assert SlotOk(fs.blocks, owner, fs.inodes[i], i, nb[i], k);
    forall b | 0 <= b < |owner| && SlotIn(owner[b], i, k, k + 1) ensures b == Slot(fs.blocks, fs.inodes[i], k) {
      assert OwnerOk(sb, fs, owner, nb, b);
    }
  }

  /** After writei: the file's blocks from slot lo up to hi, and nothing else but bitmap blocks, the indirect block and
      the block of the inode. */
  ghost predicate Logs(sb: Super, owner: seq<Owner>, i: nat, lo: nat, hi: nat, log: set<nat>, log': set<nat>) {
    && log <= log' && AllLogged(owner, log', i, lo, hi)
    && forall b :: b in log' && b !in log ==>
         b == InodeBlock(sb, i) ||
         (b < |owner| && (IsBitmap(sb, b) || owner[b] == Indirect(i) || SlotIn(owner[b], i, lo, hi)))
  }

  lemma TouchedLogs(sb: Super, owner: seq<Owner>, owner': seq<Owner>, log: set<nat>, log': set<nat>, i: nat, lo: nat,
                    hi: nat)
    requires Touched(sb, owner, owner', log, log', i, lo, hi) && AllLogged(owner', log', i, lo, hi)
    ensures Logs(sb, owner', i, lo, hi, log, log') && Logs(sb, owner', i, lo, hi, log, log' + {InodeBlock(sb, i)})
  {
  }

  lemma NoneLogged(owner: seq<Owner>, log: set<nat>, i: nat, lo: nat)
    ensures AllLogged(owner, log, i, lo, lo)
  {
  }

  /** The next m bytes, all in one block, end in the block after those logged, or in the last one. */
  lemma BlockEnds(start: nat, tot: nat, m: nat)
    requires 0 < m <= BSIZE - (start + tot) % BSIZE
    ensures start / BSIZE <= (start + tot) / BSIZE <= BlockEnd(start, tot) <= (start + tot) / BSIZE + 1
    ensures BlockEnd(start, tot + m) == (start + tot) / BSIZE + 1
  {
    ChunkBounds(start + tot, m, start + tot);
  }

  /** One past the last block that holds some of n bytes from offset off on. */
  function BlockEnd(off: nat, n: nat): (k: nat) {
    if n == 0 then off / BSIZE else Ceil(off + n)
  }

  // Growing a file

  /** File i has grown to n blocks: every file keeps its bytes, and no metadata outside the bitmap changes. */
  ghost predicate Extends(sb: Super, fs: Fs, fs': Fs, owner': seq<Owner>, nb: seq<nat>, nb': seq<nat>, i: nat)
    requires |nb| == |fs.inodes| && i < |nb|
  {
    && MapInv(sb, fs', owner', nb') && |fs'.inodes| == |fs.inodes| && |fs'.blocks| == |fs.blocks|
    && fs'.inodes == fs.inodes[i := fs.inodes[i].(addrs := fs'.inodes[i].addrs)]
    && (forall j :: 0 <= j < |nb| ==> SameBytes(fs, fs', j, nb[j]))
    && (forall b :: 0 <= b < sb.bmapstart ==> fs'.blocks[b] == fs.blocks[b])
  }

  ghost predicate SameBytes(fs: Fs, fs': Fs, j: nat, nb: nat) {
    && j < |fs.inodes| == |fs'.inodes| && nb <= MAXFILE
    && |fs.inodes[j].addrs| == |fs'.inodes[j].addrs| == NDIRECT + 1
    && KeepsBytes(fs, fs', j, nb)
  }

  /** All that a claim of block r leaves to show: no other block, save an indirect one or the bitmap, changes. */
  lemma ClaimExtends(sb: Super, fs: Fs, owner: seq<Owner>, nb: seq<nat>, fs': Fs, r: nat, o: Owner, nb': seq<nat>,
                     i: nat)
    requires MapInv(sb, fs, owner, nb) && i < |fs.inodes| && r < sb.size && owner[r].Unowned? &&
             (o.Data? || o.Indirect?)
    requires MapInv(sb, fs', owner[r := o], nb') && |fs'.inodes| == |fs.inodes|
    requires fs'.inodes == fs.inodes[i := fs.inodes[i].(addrs := fs'.inodes[i].addrs)]
    requires forall b :: 0 <= b < sb.size && b != r && !IsBitmap(sb, b) && !owner[b].Indirect? ==>
               fs'.blocks[b] == fs.blocks[b]
    ensures Extends(sb, fs, fs', owner[r := o], nb, nb', i)
  {
    forall b | 0 <= b < sb.size ensures b < sb.DataStart() <==> owner[b].Meta? {
      assert OwnerOk(sb, fs, owner, nb, b);
    }
    forall j | 0 <= j < |nb| ensures SameBytes(fs, fs', j, nb[j]) {
      OwnersKeepBytes(sb, fs, owner, nb, fs', owner[r := o], nb', j);
    }
  }

  lemma ExtendsTransitive(sb: Super, fs: Fs, mid: Fs, fs': Fs, ownerM: seq<Owner>, owner': seq<Owner>, nb: seq<nat>,
                          nbM: seq<nat>, nb': seq<nat>, i: nat)
    requires |nb| == |nbM| == |fs.inodes| && i < |nb| && |mid.inodes| == |fs.inodes|
    requires Extends(sb, fs, mid, ownerM, nb, nbM, i) && Extends(sb, mid, fs', owner', nbM, nb', i)
    requires forall j :: 0 <= j < |nb| ==> nb[j] <= nbM[j]
    ensures Extends(sb, fs, fs', owner', nb, nb', i)
  {
    forall j | 0 <= j < |nb| ensures SameBytes(fs, fs', j, nb[j]) {
      assert SameBytes(fs, mid, j, nb[j]) && SameBytes(mid, fs', j, nbM[j]);
      forall p | 0 <= p < nb[j] * BSIZE
        ensures ByteAt(fs'.blocks, fs'.inodes[j], p) == ByteAt(fs.blocks, fs.inodes[j], p)
      {
        assert ByteAt(mid.blocks, mid.inodes[j], p) == ByteAt(fs.blocks, fs.inodes[j], p);
      }
    }
  }

  lemma DirectExtends(sb: Super, fs: Fs, owner: seq<Owner>, nb: seq<nat>, blocks': seq<Block>, r: nat, i: nat)
    requires MapInv(sb, fs, owner, nb) && Claimed(sb, fs.blocks, blocks', r) && i < |fs.inodes| && nb[i] < NDIRECT
    ensures FileOk(fs.blocks, owner, fs.inodes[i], i, nb[i]) && r < |owner| && owner[r].Unowned?
    ensures var ino' := fs.inodes[i].(addrs := fs.inodes[i].addrs[nb[i] := r]);
            Extends(sb, fs, Fs(blocks', fs.inodes[i := ino']), owner[r := Data(i, nb[i])], nb, nb[i := nb[i] + 1], i)
  {
    assert FileOk(fs.blocks, owner, fs.inodes[i], i, nb[i]);
    ClaimDirect(sb, fs, owner, nb, blocks', r, i);
    FreeBlock(sb, fs, owner, nb, r);
    var ino' := fs.inodes[i].(addrs := fs.inodes[i].addrs[nb[i] := r]);
    ClaimExtends(sb, fs, owner, nb, Fs(blocks', fs.inodes[i := ino']), r, Data(i, nb[i]), nb[i := nb[i] + 1], i);
  }

  lemma IndirectExtends(sb: Super, fs: Fs, owner: seq<Owner>, nb: seq<nat>, blocks': seq<Block>, r: nat, i: nat)
    requires MapInv(sb, fs, owner, nb) && Claimed(sb, fs.blocks, blocks', r) && i < |fs.inodes|
    requires |fs.inodes[i].addrs| == NDIRECT + 1 && fs.inodes[i].addrs[NDIRECT] == 0
    ensures r < |owner| && owner[r].Unowned?
    ensures var ino' := fs.inodes[i].(addrs := fs.inodes[i].addrs[NDIRECT := r]);
            Extends(sb, fs, Fs(blocks', fs.inodes[i := ino']), owner[r := Indirect(i)], nb, nb, i)
  {
    ClaimIndirect(sb, fs, owner, nb, blocks', r, i);
    FreeBlock(sb, fs, owner, nb, r);
    var ino' := fs.inodes[i].(addrs := fs.inodes[i].addrs[NDIRECT := r]);
    ClaimExtends(sb, fs, owner, nb, Fs(blocks', fs.inodes[i := ino']), r, Indirect(i), nb, i);
  }

  lemma SlotExtends(sb: Super, fs: Fs, owner: seq<Owner>, nb: seq<nat>, blocks': seq<Block>, r: nat, i: nat)
    requires MapInv(sb, fs, owner, nb) && Claimed(sb, fs.blocks, blocks', r) && i < |fs.inodes|
    requires |fs.inodes[i].addrs| == NDIRECT + 1 && NDIRECT <= nb[i] < MAXFILE && fs.inodes[i].addrs[NDIRECT] != 0
    ensures r < |owner| && owner[r].Unowned?
    ensures var x := fs.inodes[i].addrs[NDIRECT];
            && x < |owner| && owner[x] == Indirect(i) && sb.DataStart() <= x < sb.size && blocks'[x] == fs.blocks[x]
            && Extends(sb, fs, Fs(blocks'[x := SetWord(blocks'[x], nb[i] - NDIRECT, r)], fs.inodes),
                 owner[r := Data(i, nb[i])], nb, nb[i := nb[i] + 1], i)
            && Slot(blocks'[x := SetWord(blocks'[x], nb[i] - NDIRECT, r)], fs.inodes[i], nb[i]) == r
  {
    var x := fs.inodes[i].addrs[NDIRECT];
    assert FileOk(fs.blocks, owner, fs.inodes[i], i, nb[i]);
    ClaimSlot(sb, fs, owner, nb, blocks', r, i);
    FreeBlock(sb, fs, owner, nb, r);
    OwnedBlock(sb, fs, owner, nb, x);
    var fs' := Fs(blocks'[x := SetWord(blocks'[x], nb[i] - NDIRECT, r)], fs.inodes);
    assert fs'.inodes == fs.inodes[i := fs.inodes[i].(addrs := fs'.inodes[i].addrs)];
    ClaimExtends(sb, fs, owner, nb, fs', r, Data(i, nb[i]), nb[i := nb[i] + 1], i);
    IndirectSlots(blocks', fs.inodes[i], nb[i], r);
  }

  lemma NoChange(sb: Super, fs: Fs, owner: seq<Owner>, nb: seq<nat>, i: nat)
    requires MapInv(sb, fs, owner, nb) && i < |fs.inodes|
    ensures |fs.inodes[i].addrs| == NDIRECT + 1 && nb[i] <= MAXFILE
    ensures Extends(sb, fs, fs, owner, nb, nb, i) && MetaInUse(sb, fs.blocks)
  {
    assert FileOk(fs.blocks, owner, fs.inodes[i], i, nb[i]);
    forall j | 0 <= j < |nb| ensures SameBytes(fs, fs, j, nb[j]) {
      assert FileOk(fs.blocks, owner, fs.inodes[j], j, nb[j]);
    }
    forall b | 0 <= b < sb.DataStart() ensures InUse(sb, fs.blocks, b) {
      assert OwnerOk(sb, fs, owner, nb, b);
    }
  }

  // Writing

  /** A block with some of its bytes replaced. */
  function Patch(blk: Block, start: nat, s: seq<byte>): (r: Block)
    requires start + |s| <= BSIZE
  {
    blk[..start] + s + blk[start + |s|..]
  }

  /** writei has written src up to offset off. Only file i has changed, and only those bytes of it; its
      inode has changed only if it needed more blocks. */
  ghost predicate Writing(sb: Super, fs0: Fs, fs: Fs, owner: seq<Owner>, nb0: seq<nat>, i: nat, off0: nat,
                          src: seq<byte>, off: nat) {
    && i < |nb0| == |fs0.inodes| == |fs.inodes| && off0 <= off <= off0 + |src| <= MAXBYTES && nb0[i] <= MAXFILE
    && MapInv(sb, fs, owner, nb0[i := Max(nb0[i], Ceil(off))])
    && |fs.inodes[i].addrs| == |fs0.inodes[i].addrs| == NDIRECT + 1 && Tight(fs.inodes[i], Max(nb0[i], Ceil(off)))
    && fs.inodes == fs0.inodes[i := fs0.inodes[i].(addrs := fs.inodes[i].addrs)]
    && (Ceil(off) <= nb0[i] ==> fs.inodes == fs0.inodes)
    && (forall j :: 0 <= j < |nb0| && j != i ==> SameBytes(fs0, fs, j, nb0[j]))
    && (forall p :: off0 <= p < off ==> ByteAt(fs.blocks, fs.inodes[i], p) == src[p - off0])
    && (forall p :: 0 <= p < nb0[i] * BSIZE && !(off0 <= p < off) ==>
          ByteAt(fs.blocks, fs.inodes[i], p) == ByteAt(fs0.blocks, fs0.inodes[i], p))
    && |fs.blocks| == |fs0.blocks| == sb.size
    && (forall b :: 0 <= b < sb.bmapstart ==> fs.blocks[b] == fs0.blocks[b])
  }

  lemma WritingStart(sb: Super, fs: Fs, owner: seq<Owner>, nb: seq<nat>, i: nat, off: nat, src: seq<byte>)
    requires MapInv(sb, fs, owner, nb) && i < |fs.inodes| && off + |src| <= MAXBYTES && off <= nb[i] * BSIZE
    requires |fs.inodes[i].addrs| == NDIRECT + 1 && Tight(fs.inodes[i], nb[i])
    ensures Writing(sb, fs, fs, owner, nb, i, off, src, off)
  {
    NoChange(sb, fs, owner, nb, i);
    assert nb[i := Max(nb[i], Ceil(off))] == nb;
  }

  /** Block numbers within one iteration of writei's loop. */
  lemma ChunkBounds(off: nat, m: nat, n: nat)
    requires 0 < m <= BSIZE - off % BSIZE && off <= n * BSIZE
    ensures off / BSIZE <= n && Ceil(off + m) == off / BSIZE + 1
    ensures off + m <= MAXBYTES ==> off / BSIZE < MAXFILE
    ensures Ceil(off) <= off / BSIZE + 1 && off <= Ceil(off) * BSIZE && off + m <= Ceil(off + m) * BSIZE
  {
    var q, r := off / BSIZE, off % BSIZE;
    assert off == q * 512 + r;
  }

  /** The data block write of an iteration: it changes exactly the bytes [off, off + |s|) of file i. */
  lemma PatchBytes(sb: Super, fs: Fs, owner: seq<Owner>, nb: seq<nat>, i: nat, off: nat, s: seq<byte>)
    requires MapInv(sb, fs, owner, nb) && i < |fs.inodes| && off / BSIZE < nb[i] && off % BSIZE + |s| <= BSIZE
    ensures nb[i] <= MAXFILE && |fs.inodes[i].addrs| == NDIRECT + 1
    ensures var b := Slot(fs.blocks, fs.inodes[i], off / BSIZE);
            && sb.DataStart() <= b < sb.size == |fs.blocks|
            && var fs' := Fs(fs.blocks[b := Patch(fs.blocks[b], off % BSIZE, s)], fs.inodes);
               && MapInv(sb, fs', owner, nb)
               && (forall j :: 0 <= j < |nb| && j != i ==> SameBytes(fs, fs', j, nb[j]))
               && (forall p :: 0 <= p < nb[i] * BSIZE ==>
                     ByteAt(fs'.blocks, fs'.inodes[i], p) ==
                     if off <= p < off + |s| then s[p - off] else ByteAt(fs.blocks, fs.inodes[i], p))
  {
    var k := off / BSIZE;
    MapLengths(sb, fs, owner, nb, i);
    assert FileOk(fs.blocks, owner, fs.inodes[i], i, nb[i]);
    assert SlotOk(fs.blocks, owner, fs.inodes[i], i, nb[i], k);
    var b := Slot(fs.blocks, fs.inodes[i], k);
    var v := Patch(fs.blocks[b], off % BSIZE, s);
    WriteBlock(sb, fs, owner, nb, i, k, v);
    var fs' := Fs(fs.blocks[b := v], fs.inodes);
    forall p | 0 <= p < nb[i] * BSIZE
      ensures ByteAt(fs'.blocks, fs'.inodes[i], p) ==
              if off <= p < off + |s| then s[p - off] else ByteAt(fs.blocks, fs.inodes[i], p)
    {
      SameBlockOffsets(off, p);
    }
  }

  lemma SameBlockOffsets(off: nat, p: nat)
    ensures p / BSIZE == off / BSIZE ==> p - off == p % BSIZE - off % BSIZE
    ensures p / BSIZE != off / BSIZE ==> p < off - off % BSIZE || p >= off - off % BSIZE + BSIZE
  {
    assert off == off / BSIZE * 512 + off % BSIZE && p == p / BSIZE * 512 + p % BSIZE;
  }

  lemma SameBytesChain(fs0: Fs, fs: Fs, mid: Fs, fs': Fs, j: nat, n: nat)
    requires SameBytes(fs0, fs, j, n) && SameBytes(fs, mid, j, n) && SameBytes(mid, fs', j, n)
    ensures SameBytes(fs0, fs', j, n)
  {
    forall p | 0 <= p < n * BSIZE ensures ByteAt(fs'.blocks, fs'.inodes[j], p) == ByteAt(fs0.blocks, fs0.inodes[j], p) {
      assert ByteAt(mid.blocks, mid.inodes[j], p) == ByteAt(fs.blocks, fs.inodes[j], p);
    }
  }

  /** One iteration of writei's loop; mid is the state after bmap. */
  lemma WritingStep(sb: Super, fs0: Fs, fs: Fs, mid: Fs, owner: seq<Owner>, owner': seq<Owner>, nb0: seq<nat>,
                    nb: seq<nat>, nb': seq<nat>,
                    i: nat, off0: nat, src: seq<byte>, off: nat, m: nat)
    requires Writing(sb, fs0, fs, owner, nb0, i, off0, src, off) && 0 < m <= BSIZE - off % BSIZE &&
             off + m <= off0 + |src|
    requires nb == nb0[i := Max(nb0[i], Ceil(off))] && nb' == nb0[i := Max(nb0[i], Ceil(off + m))]
    requires Extends(sb, fs, mid, owner', nb, nb', i) && |mid.inodes[i].addrs| == NDIRECT + 1 &&
             Tight(mid.inodes[i], nb'[i])
    requires off / BSIZE < nb[i] ==> mid == fs
    ensures off / BSIZE < MAXFILE
    ensures var b := Slot(mid.blocks, mid.inodes[i], off / BSIZE);
            && sb.DataStart() <= b < sb.size == |mid.blocks|
            && var fs' := Fs(mid.blocks[b := Patch(mid.blocks[b], off % BSIZE, src[off - off0..off - off0 + m])],
                 mid.inodes);
               Writing(sb, fs0, fs', owner', nb0, i, off0, src, off + m)
  {
    var s := src[off - off0..off - off0 + m];
    ChunkBounds(off, m, nb[i]);
    PatchBytes(sb, mid, owner', nb', i, off, s);
    hide MapInv, ByteAt, Slot, Patch, Ceil;
    var b := Slot(mid.blocks, mid.inodes[i], off / BSIZE);
    var fs' := Fs(mid.blocks[b := Patch(mid.blocks[b], off % BSIZE, s)], mid.inodes);
    forall j | 0 <= j < |nb0| && j != i ensures SameBytes(fs0, fs', j, nb0[j]) {
      SameBytesChain(fs0, fs, mid, fs', j, nb0[j]);
    }
    forall p | 0 <= p < nb[i] * BSIZE
      ensures ByteAt(fs'.blocks, fs'.inodes[i], p) ==
                if off <= p < off + m then s[p - off] else ByteAt(fs.blocks, fs.inodes[i], p)
    {
      assert SameBytes(fs, mid, i, nb[i]);
    }
  }

  // Updating the disk inode

  /** Neither the size in an inode nor a metadata block outside the bitmap matters to the block mapping. */
  lemma ResizeKeepsMap(sb: Super, fs: Fs, owner: seq<Owner>, nb: seq<nat>, i: nat, size: nat, x: nat, v: Block)
    requires MapInv(sb, fs, owner, nb) && i < |fs.inodes| && size < UINT && x < sb.bmapstart
    ensures var fs' := Fs(fs.blocks[x := v], fs.inodes[i := fs.inodes[i].(size := size)]);
            && MapInv(sb, fs', owner, nb)
            && (forall j :: 0 <= j < |nb| ==> SameBytes(fs, fs', j, nb[j]))
  {
    var ino' := fs.inodes[i].(size := size);
    var fs' := Fs(fs.blocks[x := v], fs.inodes[i := ino']);
    assert OwnerOk(sb, fs, owner, nb, x);
    forall j | 0 <= j < |nb|
      ensures FileOk(fs'.blocks, owner, fs'.inodes[j], j, nb[j])
      ensures forall k :: 0 <= k < MAXFILE ==> Slot(fs'.blocks, fs'.inodes[j], k) == Slot(fs.blocks, fs.inodes[j], k)
    {
      assert FileOk(fs.blocks, owner, fs.inodes[j], j, nb[j]);
      FileFrame(fs.blocks, owner, fs'.blocks, owner, fs.inodes[j], j, nb[j]);
      if j == i {
        forall k | 0 <= k < MAXFILE
          ensures SlotOk(fs'.blocks, owner, ino', i, nb[i], k)
          ensures Slot(fs'.blocks, ino', k) == Slot(fs.blocks, fs.inodes[i], k)
        {
          assert SlotOk(fs'.blocks, owner, fs.inodes[i], i, nb[i], k);
        }
      }
    }
    forall b | 0 <= b < sb.size ensures OwnerOk(sb, fs', owner, nb, b) {
      assert OwnerOk(sb, fs, owner, nb, b);
    }
    forall j | 0 <= j < |nb| ensures SameBytes(fs, fs', j, nb[j]) {
      forall b | 0 <= b < sb.size && owner[b].Data? ensures fs'.blocks[b] == fs.blocks[b] {
        OwnedBlock(sb, fs, owner, nb, b);
      }
      OwnersKeepBytes(sb, fs, owner, nb, fs', owner, nb, j);
    }
  }

  /** iupdate stores inode i and leaves every other stored inode alone. */
  lemma IupdateStores(sb: Super, fs: Fs, i: nat, j: nat)
    requires sb.WellFormed() && |fs.blocks| == sb.size && i < |fs.inodes| <= sb.ninodes && j < |fs.inodes| &&
             fs.inodes[i].Fits()
    ensures var x := InodeBlock(sb, i);
            && x < sb.bmapstart
            && var fs' := Fs(fs.blocks[x := StoreInode(fs.blocks[x], i, fs.inodes[i], INODEWORDS)], fs.inodes);
               && (j == i ==> Stored(sb, fs', j)) && (j != i && Stored(sb, fs, j) ==> Stored(sb, fs', j))
  {
    var x := InodeBlock(sb, i);
    InodeRoundTrip(fs.blocks[x], i, fs.inodes[i], j);
    assert i / IPB <= sb.ninodes / IPB;
    if InodeBlock(sb, j) == x && j % IPB == i % IPB {
      assert i == i / IPB * 8 + i % IPB && j == j / IPB * 8 + j % IPB;
    }
  }

  /** Contents follow from bytes. */
  lemma SameContents(fs: Fs, fs': Fs, j: nat, nb: nat)
    requires SameBytes(fs, fs', j, nb) && fs.inodes[j].size == fs'.inodes[j].size <= nb * BSIZE
    ensures Contents(fs', j) == Contents(fs, j)
  {
    var c, c' := Contents(fs, j), Contents(fs', j);
    forall p | 0 <= p < |c| ensures c'[p] == c[p] {
      assert ByteAt(fs'.blocks, fs'.inodes[j], p) == ByteAt(fs.blocks, fs.inodes[j], p);
    }
  }

  lemma CeilCovers(n: nat)
    ensures n <= Ceil(n) * BSIZE && (n <= MAXBYTES ==> Ceil(n) <= MAXFILE) && (n > 0 ==> Ceil(n) >= 1)
    ensures Ceil(n) > NDIRECT <==> n > NDIRECT * BSIZE
  {
  }

  /** Inode j and the contents of its file are the same in both states. */
  ghost predicate SameFile(fs: Fs, fs': Fs, j: nat) {
    && j < |fs.inodes| == |fs'.inodes|
    && fs'.inodes[j] == fs.inodes[j] && |fs.inodes[j].addrs| == NDIRECT + 1 && fs.inodes[j].size <= MAXBYTES
    && Contents(fs', j) == Contents(fs, j)
  }

  ghost predicate OtherFilesSame(fs: Fs, fs': Fs, i: nat) {
    |fs.inodes| == |fs'.inodes| && forall j :: 0 <= j < |fs.inodes| && j != i ==> SameFile(fs, fs', j)
  }

  /** The bytes after the loop are the spliced contents. */
  lemma WrittenContents(sb: Super, fs0: Fs, fs: Fs, owner: seq<Owner>, i: nat, off: nat, src: seq<byte>, fs': Fs)
    requires i < |fs0.inodes| && Writing(sb, fs0, fs, owner, Sizes(fs0.inodes), i, off, src, off + |src|)
    requires |fs0.inodes[i].addrs| == NDIRECT + 1 && off <= fs0.inodes[i].size <= MAXBYTES
    requires SameBytes(fs, fs', i, Max(Ceil(fs0.inodes[i].size), Ceil(off + |src|)))
    requires fs'.inodes[i].size == |Splice(Contents(fs0, i), off, src)| <= MAXBYTES
    ensures Contents(fs', i) == Splice(Contents(fs0, i), off, src)
  {
    hide MapInv, Ceil, ByteAt, Tight, Splice, Stored;
    CeilCovers(fs0.inodes[i].size);
    CeilCovers(off + |src|);
    var c, c', t := Contents(fs0, i), Contents(fs', i), Splice(Contents(fs0, i), off, src);
    forall p | 0 <= p < |t| ensures c'[p] == t[p] {
      assert ByteAt(fs'.blocks, fs'.inodes[i], p) == ByteAt(fs.blocks, fs.inodes[i], p);
      SpliceAt(c, off, src, p);
    }
  }

  lemma OthersUnchanged(sb: Super, fs0: Fs, owner0: seq<Owner>, fs: Fs, fs': Fs, owner: seq<Owner>, i: nat, off: nat,
                        src: seq<byte>, j: nat)
    requires Consistent(sb, fs0, owner0) && i < |fs0.inodes| && j < |fs0.inodes| && j != i
    requires Writing(sb, fs0, fs, owner, Sizes(fs0.inodes), i, off, src, off + |src|)
    requires |fs'.inodes| == |fs.inodes| && SameBytes(fs, fs', j, Sizes(fs0.inodes)[j]) && fs'.inodes[j] == fs.inodes[j]
    ensures InodeOk(sb, fs0, j) && SameFile(fs0, fs', j)
    ensures |fs.blocks| == sb.size && Stored(sb, fs, j)
  {
    assert InodeOk(sb, fs0, j);
    CeilCovers(fs0.inodes[j].size);
    assert SameBytes(fs0, fs, j, Sizes(fs0.inodes)[j]);
    SameContents(fs0, fs, j, Sizes(fs0.inodes)[j]);
    SameContents(fs, fs', j, Sizes(fs0.inodes)[j]);
    assert InodeBlock(sb, j) < sb.bmapstart;
  }

  /** A completed writei: exactly [off, off + |src|) of file i is replaced, the file extended if need be;
      the inode keeps its other fields, every other file its contents. */
  ghost predicate WriteDone(sb: Super, fs: Fs, fs': Fs, owner': seq<Owner>, i: nat, off: nat, src: seq<byte>) {
    && sb.WellFormed() && |fs.blocks| == |fs'.blocks| == sb.size && i < |fs.inodes| == |fs'.inodes| <= sb.ninodes
    && InodeOk(sb, fs, i) && InodeOk(sb, fs', i) && off <= fs.inodes[i].size
    && Consistent(sb, fs', owner') && OtherFilesSame(fs, fs', i)
    && fs'.inodes[i] == fs.inodes[i].(size := fs'.inodes[i].size, addrs := fs'.inodes[i].addrs)
    && Contents(fs', i) == Splice(Contents(fs, i), off, src)
  }

  /** The state after the new size of file i is set and its inode stored. */
  function Resized(sb: Super, fs: Fs, i: nat, size: nat): (r: Fs)
    requires i < |fs.inodes| && fs.inodes[i].(size := size).Fits() && InodeBlock(sb, i) < |fs.blocks|
  {
    var ino' := fs.inodes[i].(size := size);
    var x := InodeBlock(sb, i);
    Fs(fs.blocks[x := StoreInode(fs.blocks[x], i, ino', INODEWORDS)], fs.inodes[i := ino'])
  }

  /** The loop of writei has extended file i from size within off to off + |src|. */
  ghost predicate Extending(sb: Super, fs0: Fs, owner0: seq<Owner>, fs: Fs, owner: seq<Owner>, i: nat, off: nat,
                            src: seq<byte>) {
    && Consistent(sb, fs0, owner0) && i < |fs0.inodes| && off <= fs0.inodes[i].size < off + |src|
    && Writing(sb, fs0, fs, owner, Sizes(fs0.inodes), i, off, src, off + |src|)
  }

  /** Inode i and its block after such a loop. */
  lemma ExtendingFacts(sb: Super, fs0: Fs, owner0: seq<Owner>, fs: Fs, owner: seq<Owner>, i: nat, off: nat,
                       src: seq<byte>)
    requires Extending(sb, fs0, owner0, fs, owner, i, off, src)
    ensures sb.WellFormed() && |fs.blocks| == |fs0.blocks| == sb.size && i < |fs.inodes| == |fs0.inodes| <= sb.ninodes
    ensures off + |src| <= MAXBYTES && fs.inodes[i].(size := off + |src|).Fits()
    ensures Tight(fs.inodes[i], Ceil(off + |src|))
    ensures InodeBlock(sb, i) < sb.bmapstart && InodeOk(sb, fs0, i)
    ensures fs.inodes[i] == fs0.inodes[i].(addrs := fs.inodes[i].addrs)
    ensures off + |src| == |Splice(Contents(fs0, i), off, src)|
  {
    var nb0 := Sizes(fs0.inodes);
    MapLengths(sb, fs, owner, nb0[i := Max(nb0[i], Ceil(off + |src|))], i);
    assert i / IPB <= sb.ninodes / IPB;
    CeilGrows(fs0.inodes[i].size, off + |src|);
    assert InodeOk(sb, fs0, i);
  }

  /** The block mapping and the bytes after the new size is set and stored. */
  lemma ResizedMap(sb: Super, fs0: Fs, owner0: seq<Owner>, fs: Fs, owner: seq<Owner>, i: nat, off: nat, src: seq<byte>)
    requires Extending(sb, fs0, owner0, fs, owner, i, off, src)
    ensures i < |fs.inodes| && fs.inodes[i].(size := off + |src|).Fits() && InodeBlock(sb, i) < |fs.blocks|
    ensures var fs' := Resized(sb, fs, i, off + |src|);
            && MapInv(sb, fs', owner, Sizes(fs'.inodes))
            && SameBytes(fs, fs', i, Max(Ceil(fs0.inodes[i].size), Ceil(off + |src|)))
            && forall j :: 0 <= j < |fs.inodes| && j != i ==> SameBytes(fs, fs', j, Sizes(fs0.inodes)[j])
  {
    hide MapInv, StoreInode, Writing, Ceil, Consistent, SameBytes, Splice;
    ExtendingFacts(sb, fs0, owner0, fs, owner, i, off, src);
    var nb0 := Sizes(fs0.inodes);
    WritingFacts(sb, fs0, fs, owner, nb0, i, off, src, off + |src|);
    SizesAfter(sb, fs0, fs, owner, i, off, src);
    var nb := nb0[i := Max(nb0[i], Ceil(off + |src|))];
    var x, ino' := InodeBlock(sb, i), fs.inodes[i].(size := off + |src|);
    ResizeKeepsMap(sb, fs, owner, nb, i, off + |src|, x, StoreInode(fs.blocks[x], i, ino', INODEWORDS));
    var fs' := Resized(sb, fs, i, off + |src|);
    assert SameBytes(fs, fs', i, nb[i]);
    forall j | 0 <= j < |fs.inodes| && j != i ensures SameBytes(fs, fs', j, nb0[j]) {
      assert SameBytes(fs, fs', j, nb[j]);
    }
  }

  lemma SizesAfter(sb: Super, fs0: Fs, fs: Fs, owner: seq<Owner>, i: nat, off: nat, src: seq<byte>)
    requires Writing(sb, fs0, fs, owner, Sizes(fs0.inodes), i, off, src, off + |src|)
    requires fs0.inodes[i].size <= off + |src|
    ensures var nb0 := Sizes(fs0.inodes);
            Sizes(fs.inodes[i := fs.inodes[i].(size := off + |src|)]) == nb0[i := Max(nb0[i], Ceil(off + |src|))]
  {
    CeilGrows(fs0.inodes[i].size, off + |src|);
  }

  /** Every inode after the new size is set and stored. */
  lemma ResizedInode(sb: Super, fs0: Fs, owner0: seq<Owner>, fs: Fs, owner: seq<Owner>, i: nat, off: nat,
                     src: seq<byte>, j: nat)
    requires Extending(sb, fs0, owner0, fs, owner, i, off, src) && j < |fs0.inodes|
    ensures sb.WellFormed() && |fs.blocks| == sb.size && i < |fs.inodes| == |fs0.inodes| <= sb.ninodes
    ensures fs.inodes[i].(size := off + |src|).Fits() && InodeBlock(sb, i) < |fs.blocks|
    ensures var fs' := Resized(sb, fs, i, off + |src|);
            InodeOk(sb, fs', j) && (j != i ==> SameFile(fs0, fs', j))
  {
    hide MapInv, StoreInode, Writing, SameBytes, LoadInode, Consistent, Splice;
    ExtendingFacts(sb, fs0, owner0, fs, owner, i, off, src);
    IupdateStores(sb, Fs(fs.blocks, fs.inodes[i := fs.inodes[i].(size := off + |src|)]), i, j);
    if j != i {
      ResizedMap(sb, fs0, owner0, fs, owner, i, off, src);
      OthersUnchanged(sb, fs0, owner0, fs, Resized(sb, fs, i, off + |src|), owner, i, off, src, j);
    }
  }

  /** The end of a writei that extends the file. */
  lemma WriteExtended(sb: Super, fs0: Fs, owner0: seq<Owner>, fs: Fs, owner: seq<Owner>, i: nat, off: nat,
                      src: seq<byte>)
    requires Extending(sb, fs0, owner0, fs, owner, i, off, src)
    ensures i < |fs.inodes| && fs.inodes[i].(size := off + |src|).Fits() && InodeBlock(sb, i) < |fs.blocks|
    ensures WriteDone(sb, fs0, Resized(sb, fs, i, off + |src|), owner, i, off, src)
  {
    hide MapInv, Writing, Contents, Splice, SameFile, InodeOk, SameBytes;
    ExtendingFacts(sb, fs0, owner0, fs, owner, i, off, src);
    ResizedMap(sb, fs0, owner0, fs, owner, i, off, src);
    var fs' := Resized(sb, fs, i, off + |src|);
    WrittenContents(sb, fs0, fs, owner, i, off, src, fs');
    forall j | 0 <= j < |fs'.inodes| ensures InodeOk(sb, fs', j) && (j != i ==> SameFile(fs0, fs', j)) {
      ResizedInode(sb, fs0, owner0, fs, owner, i, off, src, j);
    }
  }

  // Truncating

  /** Block b is one of the first k blocks of file i. */
  predicate FirstOf(o: Owner, i: nat, k: nat) {
    o.Data? && o.inum == i && o.slot < k
  }

  /** itrunc has freed exactly the first k blocks of file i, and changed nothing but the bitmap. */
  ghost predicate Freed(sb: Super, fs0: Fs, owner: seq<Owner>, i: nat, k: nat, blocks: seq<Block>) {
    && sb.WellFormed() && |fs0.blocks| == |blocks| == |owner| == sb.size
    && (forall b :: 0 <= b < sb.size ==>
         (InUse(sb, blocks, b) <==> InUse(sb, fs0.blocks, b) && !FirstOf(owner[b], i, k)))
    && (forall b :: 0 <= b < sb.size && !IsBitmap(sb, b) ==> blocks[b] == fs0.blocks[b])
  }

  /** The block in slot k, if there is one, is still in use: bfree of it cannot panic. */
  lemma NextToFree(sb: Super, fs0: Fs, owner: seq<Owner>, nb: seq<nat>, i: nat, k: nat, blocks: seq<Block>)
    requires MapInv(sb, fs0, owner, nb) && i < |fs0.inodes| && k < MAXFILE && Freed(sb, fs0, owner, i, k, blocks)
    ensures |fs0.inodes[i].addrs| == NDIRECT + 1
    ensures var b := Slot(fs0.blocks, fs0.inodes[i], k);
            && (b != 0 <==> k < nb[i]) && (b != 0 ==> b < sb.size && owner[b] == Data(i, k) && InUse(sb, blocks, b))
  {
    assert FileOk(fs0.blocks, owner, fs0.inodes[i], i, nb[i]);
    assert SlotOk(fs0.blocks, owner, fs0.inodes[i], i, nb[i], k);
    var b := Slot(fs0.blocks, fs0.inodes[i], k);
    if b != 0 {
      assert OwnerOk(sb, fs0, owner, nb, b);
    }
  }

  /** After bfree of the block in slot k, or if there is none, the first k + 1 blocks are freed. */
  lemma FreedStep(sb: Super, fs0: Fs, owner: seq<Owner>, nb: seq<nat>, i: nat, k: nat, blocks: seq<Block>,
                  blocks': seq<Block>)
    requires MapInv(sb, fs0, owner, nb) && i < |fs0.inodes| && k < MAXFILE && Freed(sb, fs0, owner, i, k, blocks)
    requires |fs0.inodes[i].addrs| == NDIRECT + 1 && |blocks'| == sb.size
    requires var x := Slot(fs0.blocks, fs0.inodes[i], k);
             if x == 0 then blocks' == blocks
             else && (forall c :: 0 <= c < sb.size ==> (InUse(sb, blocks', c) <==> c != x && InUse(sb, blocks, c)))
                  && (forall c :: 0 <= c < sb.size && !IsBitmap(sb, c) ==> blocks'[c] == blocks[c])
    ensures Freed(sb, fs0, owner, i, k + 1, blocks')
  {
    NextToFree(sb, fs0, owner, nb, i, k, blocks);
    forall b | 0 <= b < sb.size
      ensures InUse(sb, blocks', b) <==> InUse(sb, fs0.blocks, b) && !FirstOf(owner[b], i, k + 1)
    {
      assert OwnerOk(sb, fs0, owner, nb, b);
    }
  }

  /** Without an indirect block a file has no block past the direct ones. */
  lemma FreedDirectOnly(sb: Super, fs0: Fs, owner: seq<Owner>, nb: seq<nat>, i: nat, blocks: seq<Block>)
    requires MapInv(sb, fs0, owner, nb) && i < |fs0.inodes| && Freed(sb, fs0, owner, i, NDIRECT, blocks)
    requires |fs0.inodes[i].addrs| == NDIRECT + 1 && fs0.inodes[i].addrs[NDIRECT] == 0
    ensures forall b :: 0 <= b < sb.size ==>
              (InUse(sb, blocks, b) <==> InUse(sb, fs0.blocks, b) && !OwnedBy(owner[b], i))
  {
    assert FileOk(fs0.blocks, owner, fs0.inodes[i], i, nb[i]);
    forall b | 0 <= b < sb.size
      ensures InUse(sb, blocks, b) <==> InUse(sb, fs0.blocks, b) && !OwnedBy(owner[b], i)
    {
      assert OwnerOk(sb, fs0, owner, nb, b);
    }
  }

  /** The indirect block is still in use when its turn comes, and with it the file owns nothing more. */
  lemma FreedIndirect(sb: Super, fs0: Fs, owner: seq<Owner>, nb: seq<nat>, i: nat, blocks: seq<Block>)
    requires MapInv(sb, fs0, owner, nb) && i < |fs0.inodes| && Freed(sb, fs0, owner, i, MAXFILE, blocks)
    requires |fs0.inodes[i].addrs| == NDIRECT + 1 && fs0.inodes[i].addrs[NDIRECT] != 0
    ensures var x := fs0.inodes[i].addrs[NDIRECT];
            && x < sb.size && InUse(sb, blocks, x)
            && forall b :: 0 <= b < sb.size ==>
                 (b != x && InUse(sb, blocks, b) <==> InUse(sb, fs0.blocks, b) && !OwnedBy(owner[b], i))
  {
    var x := fs0.inodes[i].addrs[NDIRECT];
    assert FileOk(fs0.blocks, owner, fs0.inodes[i], i, nb[i]);
    assert OwnerOk(sb, fs0, owner, nb, x);
    forall b | 0 <= b < sb.size
      ensures b != x && InUse(sb, blocks, b) <==> InUse(sb, fs0.blocks, b) && !OwnedBy(owner[b], i)
    {
      assert OwnerOk(sb, fs0, owner, nb, b);
    }
  }

  /** The state after the size is set to 0 and the empty inode stored. */
  lemma TruncDone(sb: Super, fs0: Fs, owner: seq<Owner>, i: nat, blocks: seq<Block>, ino: Inode)
    requires Consistent(sb, fs0, owner) && i < |fs0.inodes| && |blocks| == sb.size
    requires forall b :: 0 <= b < sb.size ==>
               (InUse(sb, blocks, b) <==> InUse(sb, fs0.blocks, b) && !OwnedBy(owner[b], i))
    requires forall b :: 0 <= b < sb.size && !IsBitmap(sb, b) ==> blocks[b] == fs0.blocks[b]
    requires ino.Fits() && ino.addrs == NoAddrs() && ino.size == 0
    ensures InodeBlock(sb, i) < sb.size
    ensures var x := InodeBlock(sb, i);
            var fs' := Fs(blocks[x := StoreInode(blocks[x], i, ino, INODEWORDS)], fs0.inodes[i := ino]);
            Consistent(sb, fs', Disowned(owner, i)) && OtherFilesSame(fs0, fs', i)
  {
    var mid, owner', nb0 := Fs(blocks, fs0.inodes[i := ino]), Disowned(owner, i), Sizes(fs0.inodes);
    ConsistentFacts(sb, fs0, owner, i);
    FreeAll(sb, fs0, owner, nb0, blocks, i, ino);
    assert i / IPB <= sb.ninodes / IPB;
    var x := InodeBlock(sb, i);
    var fs' := Fs(blocks[x := StoreInode(blocks[x], i, ino, INODEWORDS)], fs0.inodes[i := ino]);
    assert mid.inodes[i := mid.inodes[i].(size := 0)] == mid.inodes;
    ResizeKeepsMap(sb, mid, owner', nb0[i := 0], i, 0, InodeBlock(sb, i), fs'.blocks[InodeBlock(sb, i)]);
    assert Sizes(fs'.inodes) == nb0[i := 0];
    forall j | 0 <= j < |fs'.inodes| ensures InodeOk(sb, fs', j) && (j != i ==> SameFile(fs0, fs', j)) {
      IupdateStores(sb, mid, i, j);
      if j != i {
        TruncOther(sb, fs0, owner, i, mid, fs', j);
      }
    }
  }

  lemma TruncOther(sb: Super, fs0: Fs, owner: seq<Owner>, i: nat, mid: Fs, fs': Fs, j: nat)
    requires Consistent(sb, fs0, owner) && i < |fs0.inodes| && j < |fs0.inodes| == |mid.inodes| == |fs'.inodes| &&
             j != i
    requires MapInv(sb, mid, Disowned(owner, i), Sizes(fs0.inodes)[i := 0])
    requires forall b :: 0 <= b < sb.size && !IsBitmap(sb, b) ==> mid.blocks[b] == fs0.blocks[b]
    requires mid.inodes[j] == fs0.inodes[j] == fs'.inodes[j] && SameBytes(mid, fs', j, Sizes(fs0.inodes)[j])
    ensures InodeOk(sb, fs0, j) && SameFile(fs0, fs', j) && Stored(sb, mid, j)
  {
    ConsistentFacts(sb, fs0, owner, j);
    forall b | 0 <= b < sb.size && owner[b].Data? && owner[b].inum == j
      ensures Disowned(owner, i)[b] == owner[b] && mid.blocks[b] == fs0.blocks[b]
    {
      OwnedBlock(sb, fs0, owner, Sizes(fs0.inodes), b);
    }
    OwnersKeepBytes(sb, fs0, owner, Sizes(fs0.inodes), mid, Disowned(owner, i), Sizes(fs0.inodes)[i := 0], j);
    SameContents(fs0, mid, j, Sizes(fs0.inodes)[j]);
    SameContents(mid, fs', j, Sizes(fs0.inodes)[j]);
    assert InodeBlock(sb, j) < sb.bmapstart;
  }

  lemma ConsistentFacts(sb: Super, fs: Fs, owner: seq<Owner>, i: nat)
    requires Consistent(sb, fs, owner) && i < |fs.inodes|
    ensures sb.WellFormed() && |fs.blocks| == sb.size && |fs.inodes| <= sb.ninodes && InodeOk(sb, fs, i)
    ensures MapInv(sb, fs, owner, Sizes(fs.inodes)) && fs.inodes[i].Fits()
    ensures fs.inodes[i].size <= Ceil(fs.inodes[i].size) * BSIZE && Ceil(fs.inodes[i].size) <= MAXFILE
  {
    MapLengths(sb, fs, owner, Sizes(fs.inodes), i);
    CeilCovers(fs.inodes[i].size);
  }

  lemma CeilGrows(m: nat, n: nat)
    requires m <= n
    ensures Max(Ceil(m), Ceil(n)) == Ceil(n)
  {
  }

  /** The end of a writei within the file: nothing is left to store. */
  lemma WriteWithin(sb: Super, fs0: Fs, owner0: seq<Owner>, fs: Fs, owner: seq<Owner>, i: nat, off: nat, src: seq<byte>)
    requires Consistent(sb, fs0, owner0) && i < |fs0.inodes| && off + |src| <= fs0.inodes[i].size
    requires Writing(sb, fs0, fs, owner, Sizes(fs0.inodes), i, off, src, off + |src|)
    ensures WriteDone(sb, fs0, fs, owner, i, off, src) && fs.inodes == fs0.inodes
  {
    var nb := Sizes(fs0.inodes);
    assert InodeOk(sb, fs0, i);
    CeilGrows(off + |src|, fs0.inodes[i].size);
    assert nb[i := Max(nb[i], Ceil(off + |src|))] == nb;
    NoChange(sb, fs, owner, nb, i);
    forall j | 0 <= j < |fs.inodes| ensures InodeOk(sb, fs, j) && (j != i ==> SameFile(fs0, fs, j)) {
      assert InodeOk(sb, fs0, j);
      assert InodeBlock(sb, j) < sb.bmapstart;
      if j != i {
        OthersUnchanged(sb, fs0, owner0, fs, fs, owner, i, off, src, j);
      }
    }
    WrittenContents(sb, fs0, fs, owner, i, off, src, fs);
  }

  datatype WriteResult = Wrote(n: nat) | WriteError | OutOfBlocks | ToDevice(major: nat)
  datatype ReadResult = Read(data: seq<byte>) | ReadError | FromDevice(major: nat)

  const T_DEV: nat := 3
  const NDEV: nat := 10

  lemma MapLengths(sb: Super, fs: Fs, owner: seq<Owner>, nb: seq<nat>, i: nat)
    requires MapInv(sb, fs, owner, nb) && i < |fs.inodes|
    ensures sb.WellFormed() && |fs.blocks| == |owner| == sb.size && |nb| == |fs.inodes|
    ensures fs.inodes[i].Fits() && nb[i] <= MAXFILE && fs.inodes[i].addrs[NDIRECT] < sb.size
  {
    assert FileOk(fs.blocks, owner, fs.inodes[i], i, nb[i]);
  }

  lemma WritingFacts(sb: Super, fs0: Fs, fs: Fs, owner: seq<Owner>, nb0: seq<nat>, i: nat, off0: nat, src: seq<byte>,
                     off: nat)
    requires Writing(sb, fs0, fs, owner, nb0, i, off0, src, off)
    ensures i < |nb0| == |fs0.inodes| == |fs.inodes| && nb0[i] <= MAXFILE && off0 <= off <= off0 + |src| <= MAXBYTES
    ensures MapInv(sb, fs, owner, nb0[i := Max(nb0[i], Ceil(off))])
    ensures |fs.inodes[i].addrs| == NDIRECT + 1 && Tight(fs.inodes[i], Max(nb0[i], Ceil(off)))
    ensures |fs.blocks| == |fs0.blocks| == sb.size && sb.WellFormed()
    ensures off <= Max(nb0[i], Ceil(off)) * BSIZE && fs.inodes[i] == fs0.inodes[i].(addrs := fs.inodes[i].addrs)
  {
    CeilCovers(off);
  }

  /** A block that readi asks for exists. */
  lemma ReadBounds(off: nat, size: nat)
    requires off < size <= MAXBYTES
    ensures off / BSIZE < Ceil(size) && off / BSIZE < MAXFILE
  {
  }

  /** Part of a block, read through the mapping, is a slice of the contents. */
  lemma ReadChunk(sb: Super, fs: Fs, owner: seq<Owner>, nb: seq<nat>, i: nat, off: nat, m: nat)
    requires MapInv(sb, fs, owner, nb) && i < |fs.inodes| && |fs.inodes[i].addrs| == NDIRECT + 1
    requires off + m <= fs.inodes[i].size <= MAXBYTES && m <= BSIZE - off % BSIZE && off / BSIZE < MAXFILE &&
             off / BSIZE < nb[i]
    ensures var b := Slot(fs.blocks, fs.inodes[i], off / BSIZE);
            b < |fs.blocks| && fs.blocks[b][off % BSIZE..off % BSIZE + m] == Contents(fs, i)[off..off + m]
  {
    var k := off / BSIZE;
    assert FileOk(fs.blocks, owner, fs.inodes[i], i, nb[i]);
    assert SlotOk(fs.blocks, owner, fs.inodes[i], i, nb[i], k);
    var b, c := Slot(fs.blocks, fs.inodes[i], k), Contents(fs, i);
    var s, t := fs.blocks[b][off % BSIZE..off % BSIZE + m], c[off..off + m];
    forall q | 0 <= q < m ensures s[q] == t[q] {
      SameBlockOffsets(off, off + q);
      assert c[off + q] == ByteAt(fs.blocks, fs.inodes[i], off + q);
    }
  }

  lemma FreedNothing(sb: Super, fs: Fs, owner: seq<Owner>, nb: seq<nat>, i: nat)
    requires MapInv(sb, fs, owner, nb) && i < |fs.inodes|
    ensures Freed(sb, fs, owner, i, 0, fs.blocks)
  {
  }

  lemma FreedBlocks(sb: Super, fs: Fs, owner: seq<Owner>, i: nat, k: nat, blocks: seq<Block>)
    requires Freed(sb, fs, owner, i, k, blocks)
    ensures sb.WellFormed() && |fs.blocks| == |blocks| == |owner| == sb.size
    ensures forall b :: 0 <= b < sb.size && !IsBitmap(sb, b) ==> blocks[b] == fs.blocks[b]
  {
  }

  lemma IndirectKept(sb: Super, fs: Fs, owner: seq<Owner>, nb: seq<nat>, i: nat, blocks: seq<Block>)
    requires MapInv(sb, fs, owner, nb) && i < |fs.inodes| && Freed(sb, fs, owner, i, NDIRECT, blocks)
    requires |fs.inodes[i].addrs| == NDIRECT + 1 && fs.inodes[i].addrs[NDIRECT] != 0
    ensures var x := fs.inodes[i].addrs[NDIRECT];
            && x < |blocks| && x < |fs.blocks|
            && forall k :: NDIRECT <= k < MAXFILE ==> Slot(fs.blocks, fs.inodes[i], k) == Word(blocks[x], k - NDIRECT)
  {
    assert FileOk(fs.blocks, owner, fs.inodes[i], i, nb[i]);
    OwnedBlock(sb, fs, owner, nb, fs.inodes[i].addrs[NDIRECT]);
  }

  lemma ExtendsMap(sb: Super, fs: Fs, fs': Fs, owner': seq<Owner>, nb: seq<nat>, nb': seq<nat>, i: nat)
    requires |nb| == |fs.inodes| && i < |nb| && Extends(sb, fs, fs', owner', nb, nb', i)
    ensures MapInv(sb, fs', owner', nb') && |fs'.inodes| == |fs.inodes| == |nb'|
  {
  }

  lemma SlotsUsed(sb: Super, fs: Fs, owner: seq<Owner>, nb: seq<nat>, i: nat, k: nat)
    requires MapInv(sb, fs, owner, nb) && i < |fs.inodes| && k < MAXFILE
    ensures |fs.inodes[i].addrs| == NDIRECT + 1 && (Slot(fs.blocks, fs.inodes[i], k) != 0 <==> k < nb[i])
  {
    assert FileOk(fs.blocks, owner, fs.inodes[i], i, nb[i]);
    assert SlotOk(fs.blocks, owner, fs.inodes[i], i, nb[i], k);
  }

  /** The inner loop of balloc: the first clear bit below the limit, or the limit. */
  method FirstClear(blk: Block, limit: nat) returns (bi: nat)
    requires limit <= BPB
    ensures bi <= limit && (forall c :: 0 <= c < bi ==> Bit(blk[c / 8], c % 8))
    ensures bi < limit ==> !Bit(blk[bi / 8], bi % 8)
  {
    bi := 0;
    while bi < limit
      invariant 0 <= bi <= limit && forall c :: 0 <= c < bi ==> Bit(blk[c / 8], c % 8)
    {
      if !Bit(blk[bi / 8], bi % 8) {
        return;
      }
      bi := bi + 1;
    }
  }

  /** What the inner loop of balloc has found out about the blocks from b on. */
  lemma FirstFree(sb: Super, blocks: seq<Block>, b: nat, bi: nat, limit: nat)
    requires sb.WellFormed() && |blocks| == sb.size && b % BPB == 0 && bi <= limit <= BPB && b + limit <= sb.size
    requires sb.bmapstart + b / BPB < sb.size
    requires var blk := blocks[sb.bmapstart + b / BPB];
             && (forall c :: 0 <= c < bi ==> Bit(blk[c / 8], c % 8)) && (bi < limit ==> !Bit(blk[bi / 8], bi % 8))
    ensures (forall c :: b <= c < b + bi ==> InUse(sb, blocks, c)) && (bi < limit ==> !InUse(sb, blocks, b + bi))
  {
    hide Bit;
    forall c | b <= c < b + bi ensures InUse(sb, blocks, c) {
      BitAddress(b, c - b);
    }
    if bi < limit {
      BitAddress(b, bi);
    }
  }

  class FileSystem {
    const sb: Super
    const readers: set<nat>  // the device numbers with a read function in devsw
    const writers: set<nat>  // and those with a write function
    var blocks: seq<Block>
    var inodes: seq<Inode>
    ghost var owner: seq<Owner>
    ghost var logged: set<nat>  // the blocks passed to log_write

    ghost predicate Valid()
      reads this
    {
      Consistent(sb, Fs(blocks, inodes), owner)
    }

    /** devsw has a read function for this device number. */
    predicate CanRead(major: nat) {
      major < NDEV && major in readers
    }

    predicate CanWrite(major: nat) {
      major < NDEV && major in writers
    }

    constructor (sb: Super, blocks: seq<Block>, inodes: seq<Inode>, ghost owner: seq<Owner>, readers: set<nat>,
                 writers: set<nat>)
      requires Consistent(sb, Fs(blocks, inodes), owner)
      ensures Valid() && this.sb == sb && this.blocks == blocks && this.inodes == inodes && this.owner == owner
      ensures this.readers == readers && this.writers == writers
    {
      this.sb, this.blocks, this.inodes, this.owner := sb, blocks, inodes, owner;
      this.readers, this.writers, logged := readers, writers, {};
    }

    /** balloc: the lowest free block, marked in use and zeroed; a panic exactly when no block is free. */
    method Balloc() returns (ok: bool, r: nat)
      requires sb.WellFormed() && |blocks| == sb.size && MetaInUse(sb, blocks)
      modifies this`blocks, this`logged
      ensures |blocks| == sb.size && (ok ==> sb.DataStart() <= r < sb.size)
      ensures !ok ==> blocks == old(blocks) && forall b :: 0 <= b < sb.size ==> InUse(sb, blocks, b)
      ensures ok ==> Claimed(sb, old(blocks), blocks, r) && forall b :: 0 <= b < r ==> InUse(sb, old(blocks), b)
      ensures FreeCount(sb, old(blocks)) == if ok then FreeCount(sb, blocks) + 1 else 0
      ensures logged == if ok then old(logged) + {sb.bmapstart + r / BPB, r} else old(logged)
      ensures Logged(old(blocks), blocks, logged)
    {
      hide Claimed, Bit, SetBit, FreeCount, InUse, Logged;
      NothingLogged(blocks, logged);
      var b := 0;
      while b < sb.size
        invariant b % BPB == 0 && blocks == old(blocks) && logged == old(logged)
        invariant forall c :: 0 <= c < b && c < sb.size ==> InUse(sb, blocks, c)
      {
        var m := sb.bmapstart + b / BPB;
        assert b / BPB <= sb.size / BPB;
        var limit := if sb.size - b < BPB then sb.size - b else BPB;
        var bi := FirstClear(blocks[m], limit);
        FirstFree(sb, blocks, b, bi, limit);
        if bi < limit {
          BitAddress(b, bi);
          ClaimBlock(sb, blocks, b + bi);
          LoggedTwo(blocks, logged, m, SetBit(blocks[m], bi), b + bi, ZERO_BLOCK);
          blocks := blocks[m := SetBit(blocks[m], bi)];
          blocks := blocks[b + bi := ZERO_BLOCK];
          logged := logged + {m, b + bi};
          ClaimCount(sb, old(blocks), blocks, b + bi);
          return true, b + bi;
        }
        b := b + BPB;
      }
      FullCount(sb, blocks);
      return false, 0;
    }

    /** bfree: a panic exactly when the block is free already; otherwise its bit, and nothing else, is cleared. */
    method Bfree(b: nat) returns (ok: bool)
      requires sb.WellFormed() && |blocks| == sb.size && b < sb.size
      modifies this`blocks, this`logged
      ensures |blocks| == sb.size && ok == InUse(sb, old(blocks), b)
      ensures !ok ==> blocks == old(blocks)
      ensures ok ==> forall c :: 0 <= c < sb.size ==> (InUse(sb, blocks, c) <==> c != b && InUse(sb, old(blocks), c))
      ensures forall c :: 0 <= c < sb.size && !IsBitmap(sb, c) ==> blocks[c] == old(blocks)[c]
      ensures Logged(old(blocks), blocks, logged) && old(logged) <= logged
    {
      var m, bi := sb.bmapstart + b / BPB, b % BPB;
      assert b / BPB <= sb.size / BPB;
      BitAddress(b - bi, bi);
      if !Bit(blocks[m][bi / 8], bi % 8) {
        return false;
      }
      blocks := blocks[m := ClearBit(blocks[m], bi)];
      logged := logged + {m};
      forall c | 0 <= c < sb.size ensures InUse(sb, blocks, c) <==> c != b && InUse(sb, old(blocks), c) {
        ClearBitInUse(sb, old(blocks), b, c);
      }
      return true;
    }

    /** bmap for a file of nb[i] blocks, bn among them or next: the file then has Max(nb[i], bn + 1) blocks,
        and the address is that of block bn. A block that exists is found without any change. The panic of
        balloc is reached exactly when too few blocks are free for those that are missing; no block is lost. */
    method Bmap(i: nat, bn: nat, ghost nb: seq<nat>) returns (ok: bool, addr: nat)
      requires MapInv(sb, Fs(blocks, inodes), owner, nb) && i < |inodes| && bn < MAXFILE && bn <= nb[i]
      requires |inodes[i].addrs| == NDIRECT + 1 && Tight(inodes[i], nb[i])
      modifies this`blocks, this`inodes, this`owner, this`logged
      ensures |blocks| == sb.size && |inodes| == |old(inodes)|
      ensures !ok ==> FreeCount(sb, old(blocks)) + Held(nb[i]) < Held(Max(nb[i], bn + 1))
      ensures ok ==> FreeCount(sb, blocks) + Held(Max(nb[i], bn + 1)) == FreeCount(sb, old(blocks)) + Held(nb[i])
      ensures ok ==>
                && Extends(sb, old(Fs(blocks, inodes)), Fs(blocks, inodes), owner, nb, nb[i := Max(nb[i], bn + 1)], i)
                && |inodes[i].addrs| == NDIRECT + 1 && Tight(inodes[i], Max(nb[i], bn + 1))
                && addr == Slot(blocks, inodes[i], bn)
      ensures ok ==> Touched(sb, old(owner), owner, old(logged), logged, i, bn, bn + 1)
      ensures ok ==> Logged(old(blocks), blocks, logged)
      ensures bn < nb[i] ==>
                ok && blocks == old(blocks) && inodes == old(inodes) && owner == old(owner) && logged == old(logged)
    {
      hide MapInv, Extends, Claimed, FreeCount, Touched, Logged;
      MapLengths(sb, Fs(blocks, inodes), owner, nb, i);
      NoChange(sb, Fs(blocks, inodes), owner, nb, i);
      SlotsUsed(sb, Fs(blocks, inodes), owner, nb, i, bn);
      assert bn < nb[i] ==> nb[i := Max(nb[i], bn + 1)] == nb;
      TouchedNothing(sb, owner, logged, i, bn, bn + 1);
      NothingLogged(blocks, logged);
      if bn < NDIRECT {
        addr := inodes[i].addrs[bn];
        if addr == 0 {
          ok, addr := Balloc();
          if !ok {
            return;
          }
          DirectExtends(sb, Fs(old(blocks), inodes), owner, nb, blocks, addr, i);
          TouchedClaim(sb, owner, old(logged), i, bn, addr, Data(i, bn));
          inodes := inodes[i := inodes[i].(addrs := inodes[i].addrs[bn := addr])];
          owner := owner[addr := Data(i, bn)];
        }
        return true, addr;
      }
      if inodes[i].addrs[NDIRECT] == 0 {
        ok, addr := Balloc();
        if !ok {
          return;
        }
        IndirectExtends(sb, Fs(old(blocks), inodes), owner, nb, blocks, addr, i);
        TouchedClaim(sb, owner, old(logged), i, bn, addr, Indirect(i));
        inodes := inodes[i := inodes[i].(addrs := inodes[i].addrs[NDIRECT := addr])];
        owner := owner[addr := Indirect(i)];
        ExtendsMap(sb, Fs(old(blocks), old(inodes)), Fs(blocks, inodes), owner, nb, nb, i);
      }
      ghost var mid, midOwner, midLog := Fs(blocks, inodes), owner, logged;
      ok, addr := BmapIndirect(i, bn, nb);
      if ok {
        TouchedThen(sb, old(owner), midOwner, owner, old(logged), midLog, logged, i, bn, bn + 1, bn, bn + 1);
        TouchedLog(sb, midOwner, owner, midLog, logged, i, bn, bn + 1);
        LoggedThen(old(blocks), mid.blocks, blocks, midLog, logged);
        ExtendsTransitive(sb, old(Fs(blocks, inodes)), mid, Fs(blocks, inodes), midOwner, owner, nb, nb,
            nb[i := Max(nb[i], bn + 1)], i);
      }
    }

    /** The part of bmap after the indirect block is loaded. */
    method BmapIndirect(i: nat, bn: nat, ghost nb: seq<nat>) returns (ok: bool, addr: nat)
      requires MapInv(sb, Fs(blocks, inodes), owner, nb) && i < |inodes| && NDIRECT <= bn < MAXFILE && bn <= nb[i]
      requires |inodes[i].addrs| == NDIRECT + 1 && inodes[i].addrs[NDIRECT] != 0
      modifies this`blocks, this`owner, this`logged
      ensures |blocks| == sb.size
      ensures !ok ==> FreeCount(sb, old(blocks)) == 0 && bn == nb[i]
      ensures ok ==> FreeCount(sb, blocks) + Max(nb[i], bn + 1) == FreeCount(sb, old(blocks)) + nb[i]
      ensures ok ==>
                && Extends(sb, old(Fs(blocks, inodes)), Fs(blocks, inodes), owner, nb, nb[i := Max(nb[i], bn + 1)], i)
                && addr == Slot(blocks, inodes[i], bn)
      ensures ok ==> Touched(sb, old(owner), owner, old(logged), logged, i, bn, bn + 1)
      ensures ok ==> Logged(old(blocks), blocks, logged)
      ensures bn < nb[i] ==> ok && blocks == old(blocks) && owner == old(owner) && logged == old(logged)
    {
      hide MapInv, Extends, Claimed, FreeCount, Touched, Logged;
      MapLengths(sb, Fs(blocks, inodes), owner, nb, i);
      NoChange(sb, Fs(blocks, inodes), owner, nb, i);
      SlotsUsed(sb, Fs(blocks, inodes), owner, nb, i, bn);
      assert bn < nb[i] ==> nb[i := Max(nb[i], bn + 1)] == nb;
      TouchedNothing(sb, owner, logged, i, bn, bn + 1);
      NothingLogged(blocks, logged);
      var x := inodes[i].addrs[NDIRECT];
      var a := blocks[x];
      addr := Word(a, bn - NDIRECT);
      if addr == 0 {
        ok, addr := Balloc();
        if !ok {
          return;
        }
        SlotExtends(sb, Fs(old(blocks), inodes), owner, nb, blocks, addr, i);
        MapLengths(sb, Fs(old(blocks), inodes), owner, nb, i);
        a := SetWord(a, bn - NDIRECT, addr);
        SameCount(sb, blocks, x, a);
        ghost var claimed := blocks;
        blocks := blocks[x := a];
        TouchedClaim(sb, owner, old(logged), i, bn, addr, Data(i, bn));
        owner := owner[addr := Data(i, bn)];
        TouchedMore(sb, old(owner), owner, old(logged), logged, i, bn, bn + 1, x);
        LoggedOne(old(blocks), claimed, logged, x, a);
        logged := logged + {x};
      }
      return true, addr;
    }

    /** iupdate: the disk inode becomes the in-memory one; every other inode that was stored still is, and the other
        blocks are untouched. */
    method Iupdate(i: nat)
      requires sb.WellFormed() && |blocks| == sb.size && i < |inodes| <= sb.ninodes && inodes[i].Fits()
      modifies this`blocks, this`logged
      ensures |blocks| == sb.size && InodeBlock(sb, i) < sb.size
      ensures var x := InodeBlock(sb, i);
              blocks == old(blocks)[x := StoreInode(old(blocks)[x], i, inodes[i], INODEWORDS)]
      ensures Stored(sb, Fs(blocks, inodes), i) && FreeCount(sb, blocks) == FreeCount(sb, old(blocks))
      ensures forall j :: 0 <= j < |inodes| && old(Stored(sb, Fs(blocks, inodes), j)) ==>
                Stored(sb, Fs(blocks, inodes), j)
      ensures logged == old(logged) + {InodeBlock(sb, i)} && Logged(old(blocks), blocks, logged)
    {
      hide StoreInode, FreeCount, LoadInode;
      var x := sb.inodestart + i / IPB;
      assert i / IPB <= sb.ninodes / IPB;
      SameCount(sb, blocks, x, StoreInode(blocks[x], i, inodes[i], INODEWORDS));
      forall j | 0 <= j < |inodes|
        ensures var fs' := Fs(blocks[x := StoreInode(blocks[x], i, inodes[i], INODEWORDS)], inodes);
                (j == i ==> Stored(sb, fs', j)) && (Stored(sb, Fs(blocks, inodes), j) ==> Stored(sb, fs', j))
      {
        IupdateStores(sb, Fs(blocks, inodes), i, j);
      }
      IupdateStores(sb, Fs(blocks, inodes), i, i);
      blocks := blocks[x := StoreInode(blocks[x], i, inodes[i], INODEWORDS)];
      logged := logged + {x};
    }

    /** writei: a device's own function; an error exactly on an offset past the end, a wrapped sum or a file too large,
        or a device without one; a panic exactly when too few blocks are free. Otherwise exactly the range
        [off, off + |src|) is replaced, extending the file if need be, every other file keeps its contents, and
        free blocks and blocks held add up to the same number. */
    method Writei(i: nat, src: seq<byte>, off: uint32) returns (r: WriteResult)
      requires Valid() && i < |inodes| && |src| < UINT
      modifies this`blocks, this`inodes, this`owner, this`logged
      ensures r.ToDevice? <==> old(inodes[i]).kind == T_DEV && CanWrite(old(inodes[i]).major)
      ensures r.ToDevice? ==> r.major == old(inodes[i]).major
      ensures r.WriteError? <==>
              if old(inodes[i]).kind == T_DEV then !CanWrite(old(inodes[i]).major)
              else off > old(inodes[i].size) || off + |src| >= UINT || off + |src| > MAXBYTES
      ensures r.WriteError? || r.ToDevice? ==>
                blocks == old(blocks) && inodes == old(inodes) && owner == old(owner) && logged == old(logged)
      ensures sb.WellFormed() && |old(blocks)| == |blocks| == sb.size
      ensures r.OutOfBlocks? <==>
              !r.ToDevice? && !r.WriteError? && TooFew(sb, old(blocks), old(inodes[i].size), off + |src|)
      ensures r.Wrote? ==>
                && r.n == |src| && Valid()
                && WriteDone(sb, old(Fs(blocks, inodes)), Fs(blocks, inodes), owner, i, off, src)
                && FreeCount(sb, blocks) + Held(Ceil(inodes[i].size)) ==
                   FreeCount(sb, old(blocks)) + Held(Ceil(old(inodes[i].size)))
                && Logs(sb, owner, i, off / BSIZE, BlockEnd(off, |src|), old(logged), logged)
                && Logged(old(blocks), blocks, logged)
    {
      hide Consistent, WriteDone, FreeCount, Held, Ceil, Logs, Logged;
      ConsistentFacts(sb, Fs(blocks, inodes), owner, i);
      if inodes[i].kind == T_DEV {
        if !CanWrite(inodes[i].major) {
          return WriteError;
        }
        return ToDevice(inodes[i].major);
      }
      if off > inodes[i].size || (off + |src|) % UINT < off {
        return WriteError;
      }
      if off + |src| > MAXFILE * BSIZE {
        return WriteError;
      }
      r := WriteFile(i, src, off);
    }

    /** The rest of writei, for a range that a file can have. */
    method WriteFile(i: nat, src: seq<byte>, off: nat) returns (r: WriteResult)
      requires Valid() && i < |inodes| && off <= inodes[i].size && off + |src| <= MAXBYTES
      modifies this`blocks, this`inodes, this`owner, this`logged
      ensures sb.WellFormed() && |old(blocks)| == |blocks| == sb.size
      ensures r == if TooFew(sb, old(blocks), old(inodes[i].size), off + |src|) then OutOfBlocks else Wrote(|src|)
      ensures r.Wrote? ==>
                && WriteDone(sb, old(Fs(blocks, inodes)), Fs(blocks, inodes), owner, i, off, src) && Valid()
                && FreeCount(sb, blocks) + Held(Ceil(inodes[i].size)) ==
                   FreeCount(sb, old(blocks)) + Held(Ceil(old(inodes[i].size)))
                && Logs(sb, owner, i, off / BSIZE, BlockEnd(off, |src|), old(logged), logged)
                && Logged(old(blocks), blocks, logged)
    {
      hide Touched, AllLogged, Logs, Logged, BlockEnd, Writing, Extends, MapInv, Consistent, Splice, StoreInode,
          Contents, FreeCount, Held, Ceil, Stored;
      var n := |src|;
      ghost var fs0, owner0, nb0 := Fs(blocks, inodes), owner, Sizes(inodes);
      ConsistentFacts(sb, fs0, owner0, i);
      WritingStart(sb, fs0, owner, nb0, i, off, src);
      CeilGrows(off, inodes[i].size);
      var ok := WriteLoop(i, src, off, nb0);
      if !ok {
        return OutOfBlocks;
      }
      WritingFacts(sb, fs0, Fs(blocks, inodes), owner, nb0, i, off, src, off + n);
      TouchedLogs(sb, owner0, owner, old(logged), logged, i, off / BSIZE, BlockEnd(off, n));
      if n > 0 && off + n > inodes[i].size {
        WriteExtended(sb, fs0, owner0, Fs(blocks, inodes), owner, i, off, src);
        CeilGrows(inodes[i].size, off + n);
        inodes := inodes[i := inodes[i].(size := off + n)];
        ghost var written, log := blocks, logged;
        Iupdate(i);
        LoggedThen(old(blocks), written, blocks, log, logged);
      } else {
        WriteWithin(sb, fs0, owner0, Fs(blocks, inodes), owner, i, off, src);
        CeilGrows(off + n, inodes[i].size);
      }
      return Wrote(n);
    }

    /** readi: a device's own function; an error exactly on an offset past the end or a wrapped sum, or a device
        without one; otherwise the slice
        [off, off + n), clipped to the file. It changes nothing and logs nothing: every block it needs exists. */
    method Readi(i: nat, off: uint32, n: uint32) returns (r: ReadResult)
      requires Valid() && i < |inodes|
      modifies this`blocks, this`inodes, this`owner, this`logged
      ensures blocks == old(blocks) && inodes == old(inodes) && owner == old(owner) && logged == old(logged)
      ensures InodeOk(sb, Fs(blocks, inodes), i)
      ensures r.FromDevice? <==> inodes[i].kind == T_DEV && CanRead(inodes[i].major)
      ensures r.FromDevice? ==> r.major == inodes[i].major
      ensures r.ReadError? <==>
              if inodes[i].kind == T_DEV then !CanRead(inodes[i].major) else off > inodes[i].size || off + n >= UINT
      ensures r.Read? ==>
                var end := if off + n > inodes[i].size then inodes[i].size else off + n;
                r.data == Contents(Fs(blocks, inodes), i)[off..end]
    {
      hide Extends, MapInv, Consistent, Contents, Slot, Ceil, Tight, Stored, InUse, Touched, Logged, FreeCount, Held,
          Max;
      ghost var fs, own, nb := Fs(blocks, inodes), owner, Sizes(inodes);
      ConsistentFacts(sb, fs, owner, i);
      if inodes[i].kind == T_DEV {
        if !CanRead(inodes[i].major) {
          return ReadError;
        }
        return FromDevice(inodes[i].major);
      }
      if off > inodes[i].size || (off + n) % UINT < off {
        return ReadError;
      }
      var len := if off + n > inodes[i].size then inodes[i].size - off else n;
      var dst, tot, o := [], 0, off;
      ghost var c := Contents(fs, i);
      while tot < len
        invariant 0 <= tot <= len && o == off + tot
        invariant Fs(blocks, inodes) == fs && owner == own && logged == old(logged)
        invariant dst == c[off..o]
      {
        var m := if len - tot < BSIZE - o % BSIZE then len - tot else BSIZE - o % BSIZE;
        ReadBounds(o, inodes[i].size);
        var ok, addr := Bmap(i, o / BSIZE, nb);
        ReadChunk(sb, fs, own, nb, i, o, m);
        dst := dst + blocks[addr][o % BSIZE..o % BSIZE + m];
        assert c[off..o + m] == c[off..o] + c[o..o + m];
        tot, o := tot + m, o + m;
      }
      return Read(dst);
    }

    /** itrunc: file i gives back exactly the blocks it owned and becomes empty; no bfree panics, and every
        other file is unchanged. */
    method Itrunc(i: nat)
      requires Valid() && i < |inodes|
      modifies this`blocks, this`inodes, this`owner, this`logged
      ensures Valid() && owner == Disowned(old(owner), i)
      ensures |inodes| == |old(inodes)| && inodes[i] == old(inodes[i]).(size := 0, addrs := NoAddrs())
      ensures OtherFilesSame(old(Fs(blocks, inodes)), Fs(blocks, inodes), i) && Logged(old(blocks), blocks, logged)
    {
      hide MapInv, Consistent, Freed, StoreInode, Logged;
      ghost var fs0, own, nb := Fs(blocks, inodes), owner, Sizes(inodes);
      ConsistentFacts(sb, fs0, own, i);
      FreedNothing(sb, fs0, own, nb, i);
      FreeDirect(i, fs0, nb);
      var x := inodes[i].addrs[NDIRECT];
      if x != 0 {
        FreeThroughIndirect(i, fs0, nb);
        FreedIndirect(sb, fs0, own, nb, i, blocks);
        FreedBlocks(sb, fs0, own, i, MAXFILE, blocks);
        ghost var b1, l1 := blocks, logged;
        var ok := Bfree(x);
        LoggedThen(fs0.blocks, b1, blocks, l1, logged);
        assert ok;
        inodes := inodes[i := inodes[i].(addrs := inodes[i].addrs[NDIRECT := 0])];
        assert inodes == fs0.inodes[i := fs0.inodes[i].(addrs := inodes[i].addrs)];
      } else {
        FreedDirectOnly(sb, fs0, own, nb, i, blocks);
        FreedBlocks(sb, fs0, own, i, NDIRECT, blocks);
      }
      assert inodes[i].addrs == NoAddrs();
      FinishTrunc(i, fs0);
    }

    /** The end of itrunc. */
    method FinishTrunc(i: nat, ghost fs0: Fs)
      requires Consistent(sb, fs0, owner) && i < |fs0.inodes| && sb.WellFormed() &&
               |blocks| == |fs0.blocks| == |owner| == sb.size
      requires forall b :: 0 <= b < sb.size ==>
                 (InUse(sb, blocks, b) <==> InUse(sb, fs0.blocks, b) && !OwnedBy(owner[b], i))
      requires forall b :: 0 <= b < sb.size && !IsBitmap(sb, b) ==> blocks[b] == fs0.blocks[b]
      requires inodes == fs0.inodes[i := fs0.inodes[i].(addrs := NoAddrs())] && Logged(fs0.blocks, blocks, logged)
      modifies this`blocks, this`inodes, this`owner, this`logged
      ensures Valid() && owner == Disowned(old(owner), i)
      ensures |inodes| == |fs0.inodes| && inodes[i] == fs0.inodes[i].(size := 0, addrs := NoAddrs())
      ensures OtherFilesSame(fs0, Fs(blocks, inodes), i) && Logged(fs0.blocks, blocks, logged)
    {
      hide MapInv, Consistent, StoreInode, OtherFilesSame, Stored, FreeCount, InodeOk, Logged;
      ConsistentFacts(sb, fs0, owner, i);
      inodes := inodes[i := inodes[i].(size := 0)];
      assert inodes == fs0.inodes[i := inodes[i]];
      TruncDone(sb, fs0, owner, i, blocks, inodes[i]);
      owner := Disowned(owner, i);
      ghost var b1, l1 := blocks, logged;
      Iupdate(i);
      LoggedThen(fs0.blocks, b1, blocks, l1, logged);
    }

    /** The first loop of itrunc. */
    method FreeDirect(i: nat, ghost fs0: Fs, ghost nb: seq<nat>)
      requires MapInv(sb, fs0, owner, nb) && i < |fs0.inodes| && fs0 == Fs(blocks, inodes)
      requires Freed(sb, fs0, owner, i, 0, blocks) && |inodes[i].addrs| == NDIRECT + 1
      modifies this`blocks, this`inodes, this`logged
      ensures Freed(sb, fs0, owner, i, NDIRECT, blocks) && |blocks| == sb.size && Logged(fs0.blocks, blocks, logged)
      ensures |inodes| == |fs0.inodes| && |inodes[i].addrs| == NDIRECT + 1
      ensures inodes == fs0.inodes[i := fs0.inodes[i].(addrs := inodes[i].addrs)]
      ensures inodes[i].addrs[NDIRECT] == fs0.inodes[i].addrs[NDIRECT]
      ensures forall m :: 0 <= m < NDIRECT ==> inodes[i].addrs[m] == 0
    {
      hide MapInv, Freed, Logged;
      MapLengths(sb, fs0, owner, nb, i);
      NothingLogged(blocks, logged);
      var k := 0;
      while k < NDIRECT
        invariant 0 <= k <= NDIRECT && Freed(sb, fs0, owner, i, k, blocks) && |blocks| == sb.size
        invariant Logged(fs0.blocks, blocks, logged)
        invariant |inodes| == |fs0.inodes| && |inodes[i].addrs| == NDIRECT + 1
        invariant inodes == fs0.inodes[i := fs0.inodes[i].(addrs := inodes[i].addrs)]
        invariant forall m :: 0 <= m <= NDIRECT ==> inodes[i].addrs[m] == if m < k then 0 else fs0.inodes[i].addrs[m]
      {
        ghost var before, log := blocks, logged;
        NextToFree(sb, fs0, owner, nb, i, k, blocks);
        if inodes[i].addrs[k] != 0 {
          var ok := Bfree(inodes[i].addrs[k]);
          LoggedThen(fs0.blocks, before, blocks, log, logged);
          assert ok;
          inodes := inodes[i := inodes[i].(addrs := inodes[i].addrs[k := 0])];
        }
        FreedStep(sb, fs0, owner, nb, i, k, before, blocks);
        k := k + 1;
      }
    }

    /** The second loop of itrunc: the blocks listed in the indirect block. */
    method FreeThroughIndirect(i: nat, ghost fs0: Fs, ghost nb: seq<nat>)
      requires MapInv(sb, fs0, owner, nb) && i < |fs0.inodes| == |inodes| &&
               |inodes[i].addrs| == |fs0.inodes[i].addrs| == NDIRECT + 1
      requires inodes[i].addrs[NDIRECT] == fs0.inodes[i].addrs[NDIRECT] != 0
      requires Freed(sb, fs0, owner, i, NDIRECT, blocks) && |blocks| == sb.size && Logged(fs0.blocks, blocks, logged)
      modifies this`blocks, this`logged
      ensures Freed(sb, fs0, owner, i, MAXFILE, blocks) && |blocks| == sb.size && Logged(fs0.blocks, blocks, logged)
    {
      hide MapInv, Freed, Logged;
      MapLengths(sb, fs0, owner, nb, i);
      IndirectKept(sb, fs0, owner, nb, i, blocks);
      var a := blocks[inodes[i].addrs[NDIRECT]];
      var j := 0;
      while j < NINDIRECT
        invariant 0 <= j <= NINDIRECT && Freed(sb, fs0, owner, i, NDIRECT + j, blocks) && |blocks| == sb.size
        invariant Logged(fs0.blocks, blocks, logged)
      {
        ghost var before, log := blocks, logged;
        NextToFree(sb, fs0, owner, nb, i, NDIRECT + j, blocks);
        if Word(a, j) != 0 {
          var ok := Bfree(Word(a, j));
          LoggedThen(fs0.blocks, before, blocks, log, logged);
          assert ok;
        }
        FreedStep(sb, fs0, owner, nb, i, NDIRECT + j, before, blocks);
        j := j + 1;
      }
    }

    /** One iteration of the loop of writei: m bytes at off, all in one block. */
    method WriteChunk(i: nat, src: seq<byte>, start: nat, off: nat, m: nat, ghost fs0: Fs, ghost nb0: seq<nat>)
      returns (ok: bool)
      requires Writing(sb, fs0, Fs(blocks, inodes), owner, nb0, i, start, src, off)
      requires 0 < m <= BSIZE - off % BSIZE && off + m <= start + |src|
      modifies this`blocks, this`inodes, this`owner, this`logged
      ensures |inodes| == |fs0.inodes| && sb.WellFormed() && |old(blocks)| == |blocks| == |fs0.blocks| == sb.size
      ensures i < |nb0|
      ensures !ok ==> FreeCount(sb, old(blocks)) + Held(Max(nb0[i], Ceil(off))) < Held(Max(nb0[i], Ceil(off + m)))
      ensures ok ==> Writing(sb, fs0, Fs(blocks, inodes), owner, nb0, i, start, src, off + m)
      ensures ok ==> FreeCount(sb, blocks) + Held(Max(nb0[i], Ceil(off + m))) ==
                     FreeCount(sb, old(blocks)) + Held(Max(nb0[i], Ceil(off)))
      ensures ok ==> Touched(sb, old(owner), owner, old(logged), logged, i, off / BSIZE, off / BSIZE + 1)
      ensures ok ==> AllLogged(owner, logged, i, off / BSIZE, off / BSIZE + 1) && Logged(old(blocks), blocks, logged)
    {
      hide Writing, Extends, MapInv, Ceil, Tight, Patch, FreeCount, Held, Touched, AllLogged, Logged;
      ghost var fs, own := Fs(blocks, inodes), owner;
      WritingFacts(sb, fs0, fs, owner, nb0, i, start, src, off);
      ghost var nb := nb0[i := Max(nb0[i], Ceil(off))];
      ghost var nb' := nb0[i := Max(nb0[i], Ceil(off + m))];
      ChunkBounds(off, m, nb[i]);
      assert nb[i := Max(nb[i], off / BSIZE + 1)] == nb' && Max(nb[i], off / BSIZE + 1) == nb'[i];
      var addr;
      ok, addr := Bmap(i, off / BSIZE, nb);
      if !ok {
        return;
      }
      WritingStep(sb, fs0, fs, Fs(blocks, inodes), own, owner, nb0, nb, nb', i, start, src, off, m);
      SameCount(sb, blocks, addr, Patch(blocks[addr], off % BSIZE, src[off - start..off - start + m]));
      ExtendsMap(sb, fs, Fs(blocks, inodes), owner, nb, nb', i);
      OneSlotLogged(sb, Fs(blocks, inodes), owner, nb', logged, i, off / BSIZE);
      TouchedMore(sb, own, owner, old(logged), logged, i, off / BSIZE, off / BSIZE + 1, addr);
      LoggedOne(old(blocks), blocks, logged, addr, Patch(blocks[addr], off % BSIZE, src[off - start..off - start + m]));
      blocks := blocks[addr := Patch(blocks[addr], off % BSIZE, src[off - start..off - start + m])];
      logged := logged + {addr};
    }

    /** The loop of writei. */
    method WriteLoop(i: nat, src: seq<byte>, start: nat, ghost nb0: seq<nat>) returns (ok: bool)
      requires Writing(sb, Fs(blocks, inodes), Fs(blocks, inodes), owner, nb0, i, start, src, start)
      requires Ceil(start) <= nb0[i]
      modifies this`blocks, this`inodes, this`owner, this`logged
      ensures |inodes| == |old(inodes)| && |blocks| == |old(blocks)|
      ensures sb.WellFormed() && |blocks| == sb.size && i < |nb0|
      ensures !ok ==> FreeCount(sb, old(blocks)) + Held(nb0[i]) < Held(Max(nb0[i], Ceil(start + |src|)))
      ensures ok ==>
                FreeCount(sb, blocks) + Held(Max(nb0[i], Ceil(start + |src|))) ==
                FreeCount(sb, old(blocks)) + Held(nb0[i])
      ensures ok ==> Writing(sb, old(Fs(blocks, inodes)), Fs(blocks, inodes), owner, nb0, i, start, src, start + |src|)
      ensures ok ==> Touched(sb, old(owner), owner, old(logged), logged, i, start / BSIZE, BlockEnd(start, |src|))
      ensures ok ==> AllLogged(owner, logged, i, start / BSIZE, BlockEnd(start, |src|))
      ensures ok ==> Logged(old(blocks), blocks, logged)
    {
      hide Writing, Extends, MapInv, Ceil, Tight, Patch, FreeCount, Held, Touched, AllLogged, Logged;
      var n, tot, off := |src|, 0, start;
      ghost var fs0 := Fs(blocks, inodes);
      WritingFacts(sb, fs0, fs0, owner, nb0, i, start, src, start);
      MapLengths(sb, fs0, owner, nb0[i := Max(nb0[i], Ceil(start))], i);
      TouchedNothing(sb, owner, logged, i, start / BSIZE, start / BSIZE);
      NoneLogged(owner, logged, i, start / BSIZE);
      NothingLogged(blocks, logged);
      while tot < n
        invariant 0 <= tot <= n && off == start + tot && |inodes| == |fs0.inodes| && |blocks| == |fs0.blocks|
        invariant Writing(sb, fs0, Fs(blocks, inodes), owner, nb0, i, start, src, off)
        invariant FreeCount(sb, blocks) + Held(Max(nb0[i], Ceil(off))) == FreeCount(sb, old(blocks)) + Held(nb0[i])
        invariant Touched(sb, old(owner), owner, old(logged), logged, i, start / BSIZE, BlockEnd(start, tot))
        invariant AllLogged(owner, logged, i, start / BSIZE, BlockEnd(start, tot))
        invariant Logged(old(blocks), blocks, logged)
      {
        label L: var m := if n - tot < BSIZE - off % BSIZE then n - tot else BSIZE - off % BSIZE;
        CeilGrows(off + m, start + n);
        HeldGrows(Max(nb0[i], Ceil(off + m)), Max(nb0[i], Ceil(start + n)));
        BlockEnds(start, tot, m);
        ok := WriteChunk(i, src, start, off, m, fs0, nb0);
        if !ok {
          return;
        }
        TouchedThen(sb, old(owner), old@L(owner), owner, old(logged), old@L(logged), logged, i, start / BSIZE,
            BlockEnd(start, tot), off / BSIZE, off / BSIZE + 1);
        AllLoggedMore(sb, old@L(owner), owner, old@L(logged), logged, i, start / BSIZE, BlockEnd(start, tot),
            off / BSIZE);
        TouchedLog(sb, old@L(owner), owner, old@L(logged), logged, i, off / BSIZE, off / BSIZE + 1);
        LoggedThen(old(blocks), old@L(blocks), blocks, old@L(logged), logged);
        tot, off := tot + m, off + m;
      }
      ok := true;
    }
  }

  function Max(a: nat, b: nat): (m: nat) {
    if a < b then b else a
  }

  lemma BitAddress(b: nat, bi: nat)
    requires b % BPB == 0 && bi < BPB
    ensures (b + bi) / BPB == b / BPB && (b + bi) % BPB == bi && (b + bi) % 8 == bi % 8
  {
    assert b == b / BPB * 4096;
  }

  // What consistency means block by block

  predicate UsesSlot(fs: Fs, i: nat, k: nat, b: nat) {
    i < |fs.inodes| && |fs.inodes[i].addrs| == NDIRECT + 1 && k < MAXFILE && b != 0 &&
        Slot(fs.blocks, fs.inodes[i], k) == b
  }

  predicate UsesIndirect(fs: Fs, i: nat, b: nat) {
    i < |fs.inodes| && |fs.inodes[i].addrs| == NDIRECT + 1 && b != 0 && fs.inodes[i].addrs[NDIRECT] == b
  }

  /** A bit is set exactly when its block is metadata, or holds data of some file, or is an indirect block. */
  lemma BitmapExact(sb: Super, fs: Fs, owner: seq<Owner>, b: nat)
    requires Consistent(sb, fs, owner) && b < sb.size
    ensures sb.WellFormed() && |fs.blocks| == sb.size
    ensures InUse(sb, fs.blocks, b) <==>
            || b < sb.DataStart() || (exists i: nat, k: nat :: UsesSlot(fs, i, k, b))
            || (exists i: nat :: UsesIndirect(fs, i, b))
  {
    var nb := Sizes(fs.inodes);
    assert OwnerOk(sb, fs, owner, nb, b);
    if owner[b].Data? {
      assert UsesSlot(fs, owner[b].inum, owner[b].slot, b);
    } else if owner[b].Indirect? {
      assert UsesIndirect(fs, owner[b].inum, b);
    }
    forall i: nat, k: nat | UsesSlot(fs, i, k, b) ensures owner[b] == Data(i, k) {
      SlotOwner(sb, fs, owner, i, k, b);
    }
    forall i: nat | UsesIndirect(fs, i, b) ensures owner[b] == Indirect(i) {
      IndirectOwner(sb, fs, owner, i, b);
    }
  }

  lemma IndirectOwner(sb: Super, fs: Fs, owner: seq<Owner>, i: nat, b: nat)
    requires Consistent(sb, fs, owner) && UsesIndirect(fs, i, b)
    ensures b < |owner| && owner[b] == Indirect(i)
  {
    assert FileOk(fs.blocks, owner, fs.inodes[i], i, Sizes(fs.inodes)[i]);
  }

  lemma SlotOwner(sb: Super, fs: Fs, owner: seq<Owner>, i: nat, k: nat, b: nat)
    requires Consistent(sb, fs, owner) && UsesSlot(fs, i, k, b)
    ensures b < |owner| && owner[b] == Data(i, k)
  {
    var nb := Sizes(fs.inodes);
    assert FileOk(fs.blocks, owner, fs.inodes[i], i, nb[i]);
    assert SlotOk(fs.blocks, owner, fs.inodes[i], i, nb[i], k);
  }

  /** No block is in two places: in two slots, in a slot and as an indirect block, or as the indirect block of two
      files. */
  lemma NoSharing(sb: Super, fs: Fs, owner: seq<Owner>, b: nat, i: nat, k: nat, j: nat, m: nat)
    requires Consistent(sb, fs, owner)
    ensures UsesSlot(fs, i, k, b) && UsesSlot(fs, j, m, b) ==> i == j && k == m
    ensures !(UsesSlot(fs, i, k, b) && UsesIndirect(fs, j, b))
    ensures UsesIndirect(fs, i, b) && UsesIndirect(fs, j, b) ==> i == j
  {
    hide Consistent;
    if UsesSlot(fs, i, k, b) {
      SlotOwner(sb, fs, owner, i, k, b);
    }
    if UsesSlot(fs, j, m, b) {
      SlotOwner(sb, fs, owner, j, m, b);
    }
    if UsesIndirect(fs, i, b) {
      IndirectOwner(sb, fs, owner, i, b);
    }
    if UsesIndirect(fs, j, b) {
      IndirectOwner(sb, fs, owner, j, b);
    }
  }

  /** Slot k of a file is in use exactly when the file reaches into block k; the indirect block exists
      exactly when it reaches past the direct ones. */
  lemma NoHoles(sb: Super, fs: Fs, owner: seq<Owner>, i: nat, k: nat)
    requires Consistent(sb, fs, owner) && i < |fs.inodes| && k < MAXFILE
    ensures |fs.inodes[i].addrs| == NDIRECT + 1
    ensures Slot(fs.blocks, fs.inodes[i], k) != 0 <==> k * BSIZE < fs.inodes[i].size
    ensures fs.inodes[i].addrs[NDIRECT] != 0 <==> fs.inodes[i].size > NDIRECT * BSIZE
  {
    ConsistentFacts(sb, fs, owner, i);
    SlotsUsed(sb, fs, owner, Sizes(fs.inodes), i, k);
    CeilCovers(fs.inodes[i].size);
  }

  // How much one writei logs

  /** The blocks in slots from lo up to hi. */
  function SlotBlocks(fs: Fs, i: nat, lo: nat, hi: nat): (s: set<nat>)
    requires i < |fs.inodes| && |fs.inodes[i].addrs| == NDIRECT + 1 && hi <= MAXFILE
  {
    if hi <= lo then {} else SlotBlocks(fs, i, lo, hi - 1) + {Slot(fs.blocks, fs.inodes[i], hi - 1)}
  }

  lemma SlotsMore(owner: seq<Owner>, s: set<nat>, x: nat, i: nat, lo: nat, k: nat)
    requires lo <= k && x < |owner| && SlotIn(owner[x], i, k, k + 1) && AllLogged(owner, {} + {x}, i, k, k + 1)
    requires forall b: nat :: b in s <==> b < |owner| && SlotIn(owner[b], i, lo, k)
    ensures |s + {x}| == |s| + 1 && forall b: nat :: b in s + {x} <==> b < |owner| && SlotIn(owner[b], i, lo, k + 1)
  {
  }

  lemma {:induction false} SlotBlocksExact(sb: Super, fs: Fs, owner: seq<Owner>, nb: seq<nat>, i: nat, lo: nat, hi: nat)
    requires MapInv(sb, fs, owner, nb) && i < |fs.inodes| && lo <= hi <= nb[i]
    ensures |fs.inodes[i].addrs| == NDIRECT + 1 && hi <= MAXFILE && |owner| == sb.size
    ensures |SlotBlocks(fs, i, lo, hi)| == hi - lo
    ensures forall b: nat :: b in SlotBlocks(fs, i, lo, hi) <==> b < sb.size && SlotIn(owner[b], i, lo, hi)
    decreases hi
  {
    hide MapInv, Slot, SlotIn, AllLogged, SlotBlocks;
    MapLengths(sb, fs, owner, nb, i);
    SlotBlocksStep(fs, i, lo, hi);
    if lo < hi {
      SlotBlocksExact(sb, fs, owner, nb, i, lo, hi - 1);
      OneSlotLogged(sb, fs, owner, nb, {}, i, hi - 1);
      SlotsMore(owner, SlotBlocks(fs, i, lo, hi - 1), Slot(fs.blocks, fs.inodes[i], hi - 1), i, lo, hi - 1);
    } else {
      NoSlots(owner, i, lo);
    }
  }

  lemma SlotBlocksStep(fs: Fs, i: nat, lo: nat, hi: nat)
    requires i < |fs.inodes| && |fs.inodes[i].addrs| == NDIRECT + 1 && lo <= hi <= MAXFILE
    ensures SlotBlocks(fs, i, lo, hi) ==
            if lo == hi then {} else SlotBlocks(fs, i, lo, hi - 1) + {Slot(fs.blocks, fs.inodes[i], hi - 1)}
  {
  }

  lemma NoSlots(owner: seq<Owner>, i: nat, lo: nat)
    ensures forall b: nat :: b < |owner| ==> !SlotIn(owner[b], i, lo, lo)
  {
  }

  /** A writei logs every block that it writes bytes to, and besides at most the bitmap, the indirect block and the
      block of the inode. */
  lemma LogsCount(sb: Super, fs: Fs, owner: seq<Owner>, i: nat, lo: nat, hi: nat, log: set<nat>)
    requires Consistent(sb, fs, owner) && i < |fs.inodes| && lo <= hi <= Ceil(fs.inodes[i].size)
    requires Logs(sb, owner, i, lo, hi, {}, log)
    ensures hi - lo <= |log| <= hi - lo + (sb.DataStart() - sb.bmapstart) + 2
  {
    hide Consistent;
    ConsistentFacts(sb, fs, owner, i);
    SlotBlocksExact(sb, fs, owner, Sizes(fs.inodes), i, lo, hi);
    var slots, bitmap := SlotBlocks(fs, i, lo, hi), Range(sb.bmapstart, sb.DataStart());
    var two := {InodeBlock(sb, i), fs.inodes[i].addrs[NDIRECT]};
    forall b | b in log ensures b in slots + bitmap + two {
      if b < |owner| && owner[b] == Indirect(i) {
        OwnedIndirect(sb, fs, owner, i, b);
      }
    }
    SubsetCardinality(slots, log);
    SubsetCardinality(log, slots + bitmap + two);
    assert |two| <= 2 && |slots + bitmap + two| <= |slots| + |bitmap| + |two|;
  }

  lemma OwnedIndirect(sb: Super, fs: Fs, owner: seq<Owner>, i: nat, b: nat)
    requires Consistent(sb, fs, owner) && b < |owner| && owner[b] == Indirect(i)
    ensures i < |fs.inodes| && |fs.inodes[i].addrs| == NDIRECT + 1 && fs.inodes[i].addrs[NDIRECT] == b
  {
    assert OwnerOk(sb, fs, owner, Sizes(fs.inodes), b);
  }

  /** A fresh file system: only metadata marked in use, every inode empty and stored. */
  lemma FreshConsistent(sb: Super, fs: Fs)
    requires sb.WellFormed() && |fs.blocks| == sb.size && |fs.inodes| <= sb.ninodes
    requires forall b :: 0 <= b < sb.size ==> (InUse(sb, fs.blocks, b) <==> b < sb.DataStart())
    requires forall i :: 0 <= i < |fs.inodes| ==>
               fs.inodes[i].Fits() && fs.inodes[i].size == 0 && fs.inodes[i].addrs == NoAddrs() && Stored(sb, fs, i)
    ensures Consistent(sb, fs,
              seq(sb.size, b requires 0 <= b < sb.size => if b < sb.DataStart() then Meta else Unowned))
  {
    var owner := seq(sb.size, b requires 0 <= b < sb.size => if b < sb.DataStart() then Meta else Unowned);
    var nb := Sizes(fs.inodes);
    forall i | 0 <= i < |fs.inodes| ensures FileOk(fs.blocks, owner, fs.inodes[i], i, nb[i]) {
      assert fs.inodes[i].Fits();
    }
    forall b | 0 <= b < sb.size ensures OwnerOk(sb, fs, owner, nb, b) {
    }
  }
}
