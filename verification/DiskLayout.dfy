/** The on-disk format of fs.h: the free bitmap, disk inodes, and the block addresses of a file. */
module DiskLayout {
  import opened Blocks

  const NDIRECT: nat := 12
  const NINDIRECT: nat := 128
  const MAXFILE: nat := NDIRECT + NINDIRECT
  const BPB: nat := 4096
  const IPB: nat := 8
  const INODEWORDS: nat := 16

  /** The superblock fields in use; data blocks follow the bitmap blocks. */
  datatype Super = Super(size: nat, ninodes: nat, inodestart: nat, bmapstart: nat) {
    function DataStart(): (b: nat) {
      bmapstart + size / BPB + 1
    }

    /** The layout that mkfs computes: inode blocks, then bitmap blocks, then data blocks. */
    predicate WellFormed() {
      && 1 <= inodestart && inodestart + ninodes / IPB + 1 <= bmapstart
      && DataStart() <= size < UINT
    }
  }

  /** An inode, in memory or on disk; shorts and uints as the bit patterns they are. */
  datatype Inode = Inode(kind: nat, major: nat, minor: nat, nlink: nat, size: nat, addrs: seq<nat>) {
    predicate Fits() {
      && kind < 0x1_0000 && major < 0x1_0000 && minor < 0x1_0000 && nlink < 0x1_0000
      && size < UINT && |addrs| == NDIRECT + 1 && forall k :: 0 <= k <= NDIRECT ==> addrs[k] < UINT
    }
  }

  // The free bitmap

  /** Bit j of a byte. */
  predicate Bit(x: nat, j: nat) {
    if j == 0 then x % 2 == 1 else Bit(x / 2, j - 1)
  }

  /** x | (1 << j) */
  function OrBit(x: nat, j: nat): (r: nat) {
    if j == 0 then x / 2 * 2 + 1 else 2 * OrBit(x / 2, j - 1) + x % 2
  }

  /** x & ~(1 << j) */
  function AndNotBit(x: nat, j: nat): (r: nat) {
    if j == 0 then x / 2 * 2 else 2 * AndNotBit(x / 2, j - 1) + x % 2
  }

  function Pow2(n: nat): (p: nat)
    ensures p > 0
  {
    if n == 0 then 1 else 2 * Pow2(n - 1)
  }

  lemma {:induction false} OrBitSpec(x: nat, j: nat, i: nat)
    ensures Bit(OrBit(x, j), i) <==> i == j || Bit(x, i)
  {
    if i > 0 && j > 0 {
      OrBitSpec(x / 2, j - 1, i - 1);
    }
  }

  lemma {:induction false} AndNotBitSpec(x: nat, j: nat, i: nat)
    ensures Bit(AndNotBit(x, j), i) <==> i != j && Bit(x, i)
  {
    if i > 0 && j > 0 {
      AndNotBitSpec(x / 2, j - 1, i - 1);
    }
  }

  lemma {:induction false} BitRange(x: nat, j: nat, n: nat)
    requires j < n && x < Pow2(n)
    ensures OrBit(x, j) < Pow2(n) && AndNotBit(x, j) < Pow2(n)
  {
    if j > 0 {
      BitRange(x / 2, j - 1, n - 1);
    }
  }

  lemma BitRange8(x: byte, j: nat)
    requires j < 8
    ensures OrBit(x, j) < 256 && AndNotBit(x, j) < 256
  {
    assert Pow2(8) == 256 by {
      assert Pow2(4) == 16;
    }
    BitRange(x, j, 8);
  }

  /** The bit for block b: set when the block is in use. */
  predicate InUse(sb: Super, blocks: seq<Block>, b: nat)
    requires sb.WellFormed() && |blocks| == sb.size && b < sb.size
  {
    Bit(blocks[sb.bmapstart + b / BPB][b % BPB / 8], b % 8)
  }

  function SetBit(blk: Block, bi: nat): (r: Block)
    requires bi < BPB
  {
    BitRange8(blk[bi / 8], bi % 8);
    blk[bi / 8 := OrBit(blk[bi / 8], bi % 8)]
  }

  function ClearBit(blk: Block, bi: nat): (r: Block)
    requires bi < BPB
  {
    BitRange8(blk[bi / 8], bi % 8);
    blk[bi / 8 := AndNotBit(blk[bi / 8], bi % 8)]
  }

  /** The bit number of block b within its byte, and the way back from bitmap block, byte and bit. */
  lemma BitIndex(b: nat)
    ensures b % BPB % 8 == b % 8 && b == 8 * (512 * (b / BPB) + b % BPB / 8) + b % 8
  {
    var q, r := b / BPB, b % BPB;
    var k, m := r / 8, r % 8;
    assert b == 8 * (512 * q + k) + m;
  }

  lemma SameByte(b: nat, c: nat)
    requires c / BPB == b / BPB && c % BPB / 8 == b % BPB / 8
    ensures b % BPB % 8 == b % 8 && (c % 8 == b % 8 ==> c == b)
  {
    BitIndex(b);
    BitIndex(c);
  }

  /** Marking block b in use changes its bit and no other. */
  lemma SetBitInUse(sb: Super, blocks: seq<Block>, b: nat, c: nat)
    requires sb.WellFormed() && |blocks| == sb.size && b < sb.size && c < sb.size
    ensures var m := sb.bmapstart + b / BPB;
            InUse(sb, blocks[m := SetBit(blocks[m], b % BPB)], c) <==> c == b || InUse(sb, blocks, c)
  {
    var m := sb.bmapstart + b / BPB;
    if c / BPB == b / BPB && c % BPB / 8 == b % BPB / 8 {
      SameByte(b, c);
      OrBitSpec(blocks[m][b % BPB / 8], b % 8, c % 8);
    }
  }

  /** Marking block b free changes its bit and no other. */
  lemma ClearBitInUse(sb: Super, blocks: seq<Block>, b: nat, c: nat)
    requires sb.WellFormed() && |blocks| == sb.size && b < sb.size && c < sb.size
    ensures var m := sb.bmapstart + b / BPB;
            InUse(sb, blocks[m := ClearBit(blocks[m], b % BPB)], c) <==> c != b && InUse(sb, blocks, c)
  {
    var m := sb.bmapstart + b / BPB;
    if c / BPB == b / BPB && c % BPB / 8 == b % BPB / 8 {
      SameByte(b, c);
      AndNotBitSpec(blocks[m][b % BPB / 8], b % 8, c % 8);
    }
  }

  // Disk inodes

  function InodeBlock(sb: Super, i: nat): (b: nat) {
    sb.inodestart + i / IPB
  }

  /** The sixteen words of a disk inode, shorts in pairs. */
  function InodeWord(ino: Inode, w: nat): (x: uint32)
    requires ino.Fits() && w < INODEWORDS
  {
    if w == 0 then ino.kind + 0x1_0000 * ino.major
    else if w == 1 then ino.minor + 0x1_0000 * ino.nlink
    else if w == 2 then ino.size
    else ino.addrs[w - 3]
  }

  /** The block after the first n words of inode i have been stored. */
  function StoreInode(blk: Block, i: nat, ino: Inode, n: nat): (r: Block)
    requires ino.Fits() && n <= INODEWORDS
  {
    if n == 0 then blk else SetWord(StoreInode(blk, i, ino, n - 1), i % IPB * INODEWORDS + n - 1, InodeWord(ino, n - 1))
  }

  /** The n words of a block from index w on. */
  function Words(blk: Block, w: nat, n: nat): (r: seq<nat>)
    requires w + n <= WORDS
    ensures |r| == n && forall k :: 0 <= k < n ==> r[k] == Word(blk, w + k) && r[k] < UINT
  {
    if n == 0 then []
    else
      var last := Word(blk, w + n - 1);
      assert 0 <= last < UINT;
      Words(blk, w, n - 1) + [last]
  }

  function LoadInode(blk: Block, i: nat): (ino: Inode)
    ensures ino.Fits()
  {
    var w := Words(blk, i % IPB * INODEWORDS, INODEWORDS);
    Inode(w[0] % 0x1_0000, w[0] / 0x1_0000, w[1] % 0x1_0000, w[1] / 0x1_0000, w[2], w[3..])
  }

  lemma {:induction false} StoreInodeWord(blk: Block, i: nat, ino: Inode, n: nat, w: nat)
    requires ino.Fits() && n <= INODEWORDS && w < WORDS
    ensures Word(StoreInode(blk, i, ino, n), w) ==
            var first := i % IPB * INODEWORDS;
            if first <= w < first + n then InodeWord(ino, w - first) else Word(blk, w)
  {
    if n > 0 {
      StoreInodeWord(blk, i, ino, n - 1, w);
      WordAfterSet(StoreInode(blk, i, ino, n - 1), i % IPB * INODEWORDS + n - 1, InodeWord(ino, n - 1), w);
    }
  }

  /** ilock reads back what iupdate wrote, and no other inode of the block changes. */
  lemma InodeRoundTrip(blk: Block, i: nat, ino: Inode, j: nat)
    requires ino.Fits()
    ensures LoadInode(StoreInode(blk, i, ino, INODEWORDS), j) ==
            if j % IPB == i % IPB then ino else LoadInode(blk, j)
  {
    var r := StoreInode(blk, i, ino, INODEWORDS);
    var first := j % IPB * INODEWORDS;
    var same := j % IPB == i % IPB;
    forall w | first <= w < first + INODEWORDS
      ensures Word(r, w) == if same then InodeWord(ino, w - first) else Word(blk, w)
    {
      StoreInodeWord(blk, i, ino, INODEWORDS, w);
    }
    if same {
      InodeFromWords(ino, Words(r, first, INODEWORDS));
    } else {
      assert Words(r, first, INODEWORDS) == Words(blk, first, INODEWORDS);
    }
  }

  /** Two bytes of a block, the low one first. */
  function Short(blk: Block, p: nat): (x: nat)
    requires p + 1 < BSIZE
  {
    var low: int, high: int := blk[p], blk[p + 1];
    low + 256 * high
  }

  /** Four bytes. */
  function Long(blk: Block, p: nat): (x: nat)
    requires p + 3 < BSIZE
  {
    Short(blk, p) + 0x1_0000 * Short(blk, p + 2)
  }

  /** Where the fields of struct dinode are: four shorts, the size, and the addresses, 64 bytes in all. */
  lemma InodeBytes(blk: Block, i: nat, ino: Inode, k: nat)
    requires ino.Fits() && k <= NDIRECT
    ensures var r, p := StoreInode(blk, i, ino, INODEWORDS), i % 8 * 64;
            && Short(r, p) == ino.kind && Short(r, p + 2) == ino.major
            && Short(r, p + 4) == ino.minor && Short(r, p + 6) == ino.nlink
            && Long(r, p + 8) == ino.size && Long(r, p + 12 + 4 * k) == ino.addrs[k]
  {
    hide StoreInode;
    var r, first := StoreInode(blk, i, ino, INODEWORDS), i % IPB * INODEWORDS;
    StoreInodeWord(blk, i, ino, INODEWORDS, first);
    StoreInodeWord(blk, i, ino, INODEWORDS, first + 1);
    StoreInodeWord(blk, i, ino, INODEWORDS, first + 2);
    StoreInodeWord(blk, i, ino, INODEWORDS, first + 3 + k);
  }

  lemma InodeFromWords(ino: Inode, w: seq<nat>)
    requires ino.Fits() && |w| == INODEWORDS && forall k :: 0 <= k < INODEWORDS ==> w[k] == InodeWord(ino, k)
    ensures ino == Inode(w[0] % 0x1_0000, w[0] / 0x1_0000, w[1] % 0x1_0000, w[1] / 0x1_0000, w[2], w[3..])
  {
    assert w[3..] == ino.addrs;
  }
}
