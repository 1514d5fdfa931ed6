/** Which file owns which block: the mapping from file offsets to disk blocks that fs.c maintains in the
    inodes, the indirect blocks and the free bitmap. */
module FileMap {
  import opened Blocks
  import opened DiskLayout

  /** The use of a block: file system metadata, free, the slot-th block of a file, or its indirect block. */
  datatype Owner = Meta | Unowned | Data(inum: nat, slot: nat) | Indirect(inum: nat)

  /** The blocks as the buffer cache shows them, and the inodes in memory. */
  datatype Fs = Fs(blocks: seq<Block>, inodes: seq<Inode>)

  /** The address of the k-th block of a file, 0 if it has none. */
  function Slot(blocks: seq<Block>, ino: Inode, k: nat): (b: nat)
    requires |ino.addrs| == NDIRECT + 1 && k < MAXFILE
  {
    if k < NDIRECT then ino.addrs[k]
    else if ino.addrs[NDIRECT] == 0 || ino.addrs[NDIRECT] >= |blocks| then 0
    else Word(blocks[ino.addrs[NDIRECT]], k - NDIRECT)
  }

  /** Slot k is in use exactly when k < nb, and then its block belongs to this slot of this file. */
  predicate SlotOk(blocks: seq<Block>, owner: seq<Owner>, ino: Inode, i: nat, nb: nat, k: nat)
    requires |ino.addrs| == NDIRECT + 1 && k < MAXFILE
  {
    var b := Slot(blocks, ino, k);
    (b != 0 <==> k < nb) && (k < nb ==> b < |owner| && owner[b] == Data(i, k))
  }

  /** File i has its first nb blocks and no others. */
  ghost predicate FileOk(blocks: seq<Block>, owner: seq<Owner>, ino: Inode, i: nat, nb: nat) {
    && ino.Fits() && nb <= MAXFILE
    && (nb > NDIRECT ==> ino.addrs[NDIRECT] != 0)
    && (ino.addrs[NDIRECT] != 0 ==> ino.addrs[NDIRECT] < |owner| && owner[ino.addrs[NDIRECT]] == Indirect(i))
    && forall k :: 0 <= k < MAXFILE ==> SlotOk(blocks, owner, ino, i, nb, k)
  }

  /** A block is marked in use exactly when it has an owner, and the owner refers to it. */
  ghost predicate OwnerOk(sb: Super, fs: Fs, owner: seq<Owner>, nb: seq<nat>, b: nat)
    requires sb.WellFormed() && |fs.blocks| == |owner| == sb.size && |nb| == |fs.inodes| && b < sb.size
  {
    && (b < sb.DataStart() <==> owner[b].Meta?)
    && (InUse(sb, fs.blocks, b) <==> !owner[b].Unowned?)
    && (owner[b].Data? ==>
          && owner[b].inum < |fs.inodes| && owner[b].slot < nb[owner[b].inum]
          && |fs.inodes[owner[b].inum].addrs| == NDIRECT + 1 && owner[b].slot < MAXFILE
          && Slot(fs.blocks, fs.inodes[owner[b].inum], owner[b].slot) == b)
    && (owner[b].Indirect? ==>
          && owner[b].inum < |fs.inodes| && |fs.inodes[owner[b].inum].addrs| == NDIRECT + 1
          && fs.inodes[owner[b].inum].addrs[NDIRECT] == b)
  }

  /** Exclusive ownership of every block, with no holes in any file. */
  ghost predicate MapInv(sb: Super, fs: Fs, owner: seq<Owner>, nb: seq<nat>) {
    && sb.WellFormed() && |fs.blocks| == |owner| == sb.size && |nb| == |fs.inodes|
    && (forall i :: 0 <= i < |fs.inodes| ==> FileOk(fs.blocks, owner, fs.inodes[i], i, nb[i]))
    && (forall b :: 0 <= b < sb.size ==> OwnerOk(sb, fs, owner, nb, b))
  }

  predicate IsBitmap(sb: Super, b: int) {
    sb.bmapstart <= b < sb.DataStart()
  }

  /** What balloc does to the blocks: r was free, is now in use and zeroed; nothing else changes. */
  ghost predicate Claimed(sb: Super, before: seq<Block>, after: seq<Block>, r: nat)
    requires sb.WellFormed() && |before| == sb.size
  {
    && |after| == sb.size && r < sb.size && !InUse(sb, before, r) && IsZero(after[r])
    && (forall c :: 0 <= c < sb.size ==> (InUse(sb, after, c) <==> c == r || InUse(sb, before, c)))
    && (forall c :: 0 <= c < sb.size && c != r && !IsBitmap(sb, c) ==> after[c] == before[c])
  }

  // Frames

  predicate OwnedBy(o: Owner, i: nat) {
    (o.Data? || o.Indirect?) && o.inum == i
  }

  /** A file's mapping depends only on its indirect block and on the owners of its blocks. */
  lemma FileFrame(blocks: seq<Block>, owner: seq<Owner>, blocks': seq<Block>, owner': seq<Owner>, ino: Inode, i: nat,
                  nb: nat)
    requires FileOk(blocks, owner, ino, i, nb) && |blocks| == |blocks'| == |owner| == |owner'|
    requires ino.addrs[NDIRECT] != 0 ==> blocks'[ino.addrs[NDIRECT]] == blocks[ino.addrs[NDIRECT]]
    requires forall b :: 0 <= b < |owner| && OwnedBy(owner[b], i) ==> owner'[b] == owner[b]
    ensures FileOk(blocks', owner', ino, i, nb)
    ensures forall k :: 0 <= k < MAXFILE ==> Slot(blocks', ino, k) == Slot(blocks, ino, k)
  {
    forall k | 0 <= k < MAXFILE
      ensures SlotOk(blocks', owner', ino, i, nb, k) && Slot(blocks', ino, k) == Slot(blocks, ino, k)
    {
      assert SlotOk(blocks, owner, ino, i, nb, k);
    }
  }

  /** A free block is a data block that no file refers to. */
  lemma FreeBlock(sb: Super, fs: Fs, owner: seq<Owner>, nb: seq<nat>, r: nat)
    requires MapInv(sb, fs, owner, nb) && r < sb.size && !InUse(sb, fs.blocks, r)
    ensures r >= sb.DataStart() && owner[r].Unowned?
  {
    assert OwnerOk(sb, fs, owner, nb, r);
  }

  /** A block that a file refers to is a data block. */
  lemma OwnedBlock(sb: Super, fs: Fs, owner: seq<Owner>, nb: seq<nat>, b: nat)
    requires MapInv(sb, fs, owner, nb) && b < sb.size && (owner[b].Data? || owner[b].Indirect?)
    ensures b >= sb.DataStart()
  {
    assert OwnerOk(sb, fs, owner, nb, b);
  }

  /** The other files after block r is claimed for file i. */
  lemma ClaimOthers(sb: Super, fs: Fs, owner: seq<Owner>, nb: seq<nat>, blocks': seq<Block>, r: nat, o: Owner, j: nat)
    requires MapInv(sb, fs, owner, nb) && Claimed(sb, fs.blocks, blocks', r) && j < |fs.inodes| &&
             (o.Data? || o.Indirect?)
    ensures FileOk(blocks', owner[r := o], fs.inodes[j], j, nb[j])
    ensures forall k :: 0 <= k < MAXFILE ==> Slot(blocks', fs.inodes[j], k) == Slot(fs.blocks, fs.inodes[j], k)
  {
    FreeBlock(sb, fs, owner, nb, r);
    var ino := fs.inodes[j];
    assert FileOk(fs.blocks, owner, ino, j, nb[j]);
    if ino.addrs[NDIRECT] != 0 {
      OwnedBlock(sb, fs, owner, nb, ino.addrs[NDIRECT]);
    }
    FileFrame(fs.blocks, owner, blocks', owner[r := o], ino, j, nb[j]);
  }

  // The three allocations of bmap

  /** bmap gives file i its next direct block. */
  lemma ClaimDirect(sb: Super, fs: Fs, owner: seq<Owner>, nb: seq<nat>, blocks': seq<Block>, r: nat, i: nat)
    requires MapInv(sb, fs, owner, nb) && Claimed(sb, fs.blocks, blocks', r) && i < |fs.inodes| && nb[i] < NDIRECT
    ensures var ino' := fs.inodes[i].(addrs := fs.inodes[i].addrs[nb[i] := r]);
            MapInv(sb, Fs(blocks', fs.inodes[i := ino']), owner[r := Data(i, nb[i])], nb[i := nb[i] + 1])
  {
    var k0, ino, o := nb[i], fs.inodes[i], Data(i, nb[i]);
    var ino' := ino.(addrs := ino.addrs[k0 := r]);
    var fs', owner', nb' := Fs(blocks', fs.inodes[i := ino']), owner[r := o], nb[i := k0 + 1];
    FreeBlock(sb, fs, owner, nb, r);
    forall j | 0 <= j < |fs.inodes| ensures FileOk(blocks', owner', fs'.inodes[j], j, nb'[j]) {
      ClaimOthers(sb, fs, owner, nb, blocks', r, o, j);
      if j == i {
        forall k | 0 <= k < MAXFILE ensures SlotOk(blocks', owner', ino', i, nb'[i], k) {
          assert SlotOk(blocks', owner', ino, i, k0, k);
        }
      }
    }
    forall b | 0 <= b < sb.size ensures OwnerOk(sb, fs', owner', nb', b) {
      assert OwnerOk(sb, fs, owner, nb, b);
      if owner[b].Data? {
        ClaimOthers(sb, fs, owner, nb, blocks', r, o, owner[b].inum);
      }
    }
  }

  /** bmap gives file i an empty indirect block. */
  lemma ClaimIndirect(sb: Super, fs: Fs, owner: seq<Owner>, nb: seq<nat>, blocks': seq<Block>, r: nat, i: nat)
    requires MapInv(sb, fs, owner, nb) && Claimed(sb, fs.blocks, blocks', r) && i < |fs.inodes|
    requires fs.inodes[i].addrs[NDIRECT] == 0
    ensures var ino' := fs.inodes[i].(addrs := fs.inodes[i].addrs[NDIRECT := r]);
            MapInv(sb, Fs(blocks', fs.inodes[i := ino']), owner[r := Indirect(i)], nb)
  {
    var ino, o := fs.inodes[i], Indirect(i);
    var ino' := ino.(addrs := ino.addrs[NDIRECT := r]);
    var fs', owner' := Fs(blocks', fs.inodes[i := ino']), owner[r := o];
    FreeBlock(sb, fs, owner, nb, r);
    assert FileOk(fs.blocks, owner, ino, i, nb[i]);
    forall k | 0 <= k < MAXFILE ensures Slot(blocks', ino', k) == Slot(fs.blocks, ino, k) {
      if k >= NDIRECT {
        ZeroWords(blocks'[r], k - NDIRECT);
      }
    }
    forall j | 0 <= j < |fs.inodes| ensures FileOk(blocks', owner', fs'.inodes[j], j, nb[j]) {
      ClaimOthers(sb, fs, owner, nb, blocks', r, o, j);
      if j == i {
        forall k | 0 <= k < MAXFILE ensures SlotOk(blocks', owner', ino', i, nb[i], k) {
          assert SlotOk(blocks', owner', ino, i, nb[i], k);
        }
      }
    }
    forall b | 0 <= b < sb.size ensures OwnerOk(sb, fs', owner', nb, b) {
      assert OwnerOk(sb, fs, owner, nb, b);
      if owner[b].Data? {
        ClaimOthers(sb, fs, owner, nb, blocks', r, o, owner[b].inum);
      }
    }
  }

  /** The slots of file i after storing an address in its indirect block. */
  lemma IndirectSlots(blocks: seq<Block>, ino: Inode, n: nat, r: nat)
    requires |ino.addrs| == NDIRECT + 1 && 0 < ino.addrs[NDIRECT] < |blocks| && NDIRECT <= n < MAXFILE && r < UINT
    ensures var x := ino.addrs[NDIRECT];
            var blocks' := blocks[x := SetWord(blocks[x], n - NDIRECT, r)];
            forall k :: 0 <= k < MAXFILE ==> Slot(blocks', ino, k) == if k == n then r else Slot(blocks, ino, k)
  {
    var x := ino.addrs[NDIRECT];
    var blocks' := blocks[x := SetWord(blocks[x], n - NDIRECT, r)];
    forall k | 0 <= k < MAXFILE ensures Slot(blocks', ino, k) == if k == n then r else Slot(blocks, ino, k) {
      if k >= NDIRECT {
        WordAfterSet(blocks[x], n - NDIRECT, r, k - NDIRECT);
      }
    }
  }

  /** The bitmap after a data block changes. */
  lemma DataKeepsBitmap(sb: Super, blocks: seq<Block>, x: nat, v: Block, c: nat)
    requires sb.WellFormed() && |blocks| == sb.size && sb.DataStart() <= x < sb.size && c < sb.size
    ensures InUse(sb, blocks[x := v], c) <==> InUse(sb, blocks, c)
  {
    assert c / BPB <= sb.size / BPB;
  }

  /** bmap gives file i its next block through the indirect block. */
  lemma ClaimSlot(sb: Super, fs: Fs, owner: seq<Owner>, nb: seq<nat>, blocks': seq<Block>, r: nat, i: nat)
    requires MapInv(sb, fs, owner, nb) && Claimed(sb, fs.blocks, blocks', r) && i < |fs.inodes|
    requires NDIRECT <= nb[i] < MAXFILE && fs.inodes[i].addrs[NDIRECT] != 0
    ensures var x := fs.inodes[i].addrs[NDIRECT];
            && x < sb.size
            && MapInv(sb, Fs(blocks'[x := SetWord(blocks'[x], nb[i] - NDIRECT, r)], fs.inodes),
                 owner[r := Data(i, nb[i])], nb[i := nb[i] + 1])
  {
    var ino, n, o := fs.inodes[i], nb[i], Data(i, nb[i]);
    var x := ino.addrs[NDIRECT];
    assert FileOk(fs.blocks, owner, ino, i, n);
    OwnedBlock(sb, fs, owner, nb, x);
    FreeBlock(sb, fs, owner, nb, r);
    var blocks'' := blocks'[x := SetWord(blocks'[x], n - NDIRECT, r)];
    var fs', owner', nb' := Fs(blocks'', fs.inodes), owner[r := o], nb[i := n + 1];
    IndirectSlots(blocks', ino, n, r);
    forall j | 0 <= j < |fs.inodes| ensures FileOk(blocks'', owner', fs.inodes[j], j, nb'[j]) {
      ClaimOthers(sb, fs, owner, nb, blocks', r, o, j);
      if j == i {
        forall k | 0 <= k < MAXFILE ensures SlotOk(blocks'', owner', ino, i, nb'[i], k) {
          assert SlotOk(blocks', owner', ino, i, n, k);
        }
      } else {
        FileFrame(blocks', owner', blocks'', owner', fs.inodes[j], j, nb[j]);
      }
    }
    forall b | 0 <= b < sb.size ensures OwnerOk(sb, fs', owner', nb', b) {
      assert OwnerOk(sb, fs, owner, nb, b);
      DataKeepsBitmap(sb, blocks', x, blocks''[x], b);
      if owner[b].Data? {
        ClaimOthers(sb, fs, owner, nb, blocks', r, o, owner[b].inum);
        if owner[b].inum != i {
          FileFrame(blocks', owner', blocks'', owner', fs.inodes[owner[b].inum], owner[b].inum, nb[owner[b].inum]);
        }
      }
    }
  }

  // File contents

  function ByteAt(blocks: seq<Block>, ino: Inode, p: nat): (x: byte)
    requires |ino.addrs| == NDIRECT + 1 && p < MAXFILE * BSIZE
  {
    if Slot(blocks, ino, p / BSIZE) < |blocks| then blocks[Slot(blocks, ino, p / BSIZE)][p % BSIZE] else 0
  }

  /** Every byte that a file had before, it has after. */
  ghost predicate KeepsBytes(fs: Fs, fs': Fs, j: nat, nb: nat)
    requires j < |fs.inodes| == |fs'.inodes| && nb <= MAXFILE
    requires |fs.inodes[j].addrs| == |fs'.inodes[j].addrs| == NDIRECT + 1
  {
    forall p :: 0 <= p < nb * BSIZE ==> ByteAt(fs'.blocks, fs'.inodes[j], p) == ByteAt(fs.blocks, fs.inodes[j], p)
  }

  /** A file whose blocks keep their owner and their contents keeps its bytes. */
  lemma OwnersKeepBytes(sb: Super, fs: Fs, owner: seq<Owner>, nb: seq<nat>, fs': Fs, owner': seq<Owner>, nb': seq<nat>,
                        j: nat)
    requires MapInv(sb, fs, owner, nb) && MapInv(sb, fs', owner', nb') && j < |fs.inodes| == |fs'.inodes|
    requires forall b :: 0 <= b < sb.size && owner[b].Data? && owner[b].inum == j ==>
               owner'[b] == owner[b] && fs'.blocks[b] == fs.blocks[b]
    ensures FileOk(fs.blocks, owner, fs.inodes[j], j, nb[j]) && FileOk(fs'.blocks, owner', fs'.inodes[j], j, nb'[j])
    ensures KeepsBytes(fs, fs', j, nb[j])
  {
    assert FileOk(fs.blocks, owner, fs.inodes[j], j, nb[j]) && FileOk(fs'.blocks, owner', fs'.inodes[j], j, nb'[j]);
    forall p | 0 <= p < nb[j] * BSIZE
      ensures ByteAt(fs'.blocks, fs'.inodes[j], p) == ByteAt(fs.blocks, fs.inodes[j], p)
    {
      var k := p / BSIZE;
      assert SlotOk(fs.blocks, owner, fs.inodes[j], j, nb[j], k);
      var b := Slot(fs.blocks, fs.inodes[j], k);
      assert OwnerOk(sb, fs', owner', nb', b);
    }
  }

  /** Overwriting one block of a file changes that block's bytes, of that file only. */
  lemma WriteBlock(sb: Super, fs: Fs, owner: seq<Owner>, nb: seq<nat>, i: nat, k: nat, v: Block)
    requires MapInv(sb, fs, owner, nb) && i < |fs.inodes| && k < nb[i]
    ensures FileOk(fs.blocks, owner, fs.inodes[i], i, nb[i])
    ensures var b := Slot(fs.blocks, fs.inodes[i], k);
            && sb.DataStart() <= b < sb.size && MapInv(sb, Fs(fs.blocks[b := v], fs.inodes), owner, nb)
            && (forall j :: 0 <= j < |fs.inodes| && j != i ==>
                  && FileOk(fs.blocks, owner, fs.inodes[j], j, nb[j])
                  && KeepsBytes(fs, Fs(fs.blocks[b := v], fs.inodes), j, nb[j]))
            && (forall p :: 0 <= p < nb[i] * BSIZE ==>
                  ByteAt(fs.blocks[b := v], fs.inodes[i], p) ==
                  if p / BSIZE == k then v[p % BSIZE] else ByteAt(fs.blocks, fs.inodes[i], p))
  {
    var ino := fs.inodes[i];
    assert FileOk(fs.blocks, owner, ino, i, nb[i]);
    assert SlotOk(fs.blocks, owner, ino, i, nb[i], k);
    var b := Slot(fs.blocks, ino, k);
    OwnedBlock(sb, fs, owner, nb, b);
    var fs' := Fs(fs.blocks[b := v], fs.inodes);
    forall j | 0 <= j < |fs.inodes|
      ensures FileOk(fs'.blocks, owner, fs.inodes[j], j, nb[j])
      ensures forall m :: 0 <= m < MAXFILE ==> Slot(fs'.blocks, fs.inodes[j], m) == Slot(fs.blocks, fs.inodes[j], m)
    {
      assert FileOk(fs.blocks, owner, fs.inodes[j], j, nb[j]);
      FileFrame(fs.blocks, owner, fs'.blocks, owner, fs.inodes[j], j, nb[j]);
    }
    forall c | 0 <= c < sb.size ensures OwnerOk(sb, fs', owner, nb, c) {
      assert OwnerOk(sb, fs, owner, nb, c);
      DataKeepsBitmap(sb, fs.blocks, b, v, c);
    }
    forall j | 0 <= j < |fs.inodes| && j != i
      ensures FileOk(fs.blocks, owner, fs.inodes[j], j, nb[j]) && KeepsBytes(fs, fs', j, nb[j])
    {
      OwnersKeepBytes(sb, fs, owner, nb, fs', owner, nb, j);
    }
    forall p | 0 <= p < nb[i] * BSIZE
      ensures ByteAt(fs'.blocks, ino, p) == if p / BSIZE == k then v[p % BSIZE] else ByteAt(fs.blocks, ino, p)
    {
      OtherSlot(fs.blocks, owner, ino, i, nb[i], k, p / BSIZE);
    }
  }

  /** Two slots of a file never share a block. */
  lemma OtherSlot(blocks: seq<Block>, owner: seq<Owner>, ino: Inode, i: nat, nb: nat, k: nat, m: nat)
    requires FileOk(blocks, owner, ino, i, nb) && k < nb && m < nb
    ensures Slot(blocks, ino, k) == Slot(blocks, ino, m) ==> k == m
  {
    assert SlotOk(blocks, owner, ino, i, nb, k) && SlotOk(blocks, owner, ino, i, nb, m);
  }

  // Truncation

  function Disowned(owner: seq<Owner>, i: nat): (r: seq<Owner>) {
    seq(|owner|, b requires 0 <= b < |owner| => if OwnedBy(owner[b], i) then Unowned else owner[b])
  }

  function NoAddrs(): (r: seq<nat>) {
    seq(NDIRECT + 1, _ => 0)
  }

  /** Once exactly the blocks of file i have been marked free, and its addresses zeroed, it owns nothing. */
  lemma FreeAll(sb: Super, fs: Fs, owner: seq<Owner>, nb: seq<nat>, blocks': seq<Block>, i: nat, ino': Inode)
    requires MapInv(sb, fs, owner, nb) && i < |fs.inodes| && |blocks'| == sb.size
    requires forall b :: 0 <= b < sb.size ==>
               (InUse(sb, blocks', b) <==> InUse(sb, fs.blocks, b) && !OwnedBy(owner[b], i))
    requires forall b :: 0 <= b < sb.size && !IsBitmap(sb, b) ==> blocks'[b] == fs.blocks[b]
    requires ino'.Fits() && ino'.addrs == NoAddrs()
    ensures MapInv(sb, Fs(blocks', fs.inodes[i := ino']), Disowned(owner, i), nb[i := 0])
  {
    var fs', owner', nb' := Fs(blocks', fs.inodes[i := ino']), Disowned(owner, i), nb[i := 0];
    forall j | 0 <= j < |fs.inodes|
      ensures FileOk(blocks', owner', fs'.inodes[j], j, nb'[j])
      ensures j != i ==>
                forall k :: 0 <= k < MAXFILE ==> Slot(blocks', fs.inodes[j], k) == Slot(fs.blocks, fs.inodes[j], k)
    {
      assert FileOk(fs.blocks, owner, fs.inodes[j], j, nb[j]);
      if j != i {
        if fs.inodes[j].addrs[NDIRECT] != 0 {
          OwnedBlock(sb, fs, owner, nb, fs.inodes[j].addrs[NDIRECT]);
        }
        FileFrame(fs.blocks, owner, blocks', owner', fs.inodes[j], j, nb[j]);
      }
    }
    forall b | 0 <= b < sb.size ensures OwnerOk(sb, fs', owner', nb', b) {
      assert OwnerOk(sb, fs, owner, nb, b);
    }
  }
}
