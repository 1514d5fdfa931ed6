/** file.c's fileread and filewrite on an inode, and the per-process swap file of fs.c built on them. */
module SwapFile {
  import opened Blocks
  import opened DiskLayout
  import opened FileMap
  import opened Inodes
  import RedoLog

  const MAXCHUNK: nat := (RedoLog.LOGSIZE - 1 - 1 - 2) / 2 * 512

  /** struct file for FD_INODE; the flags are chars that are tested against 0. */
  class OpenFile {
    var readable: nat
    var writable: nat
    var off: uint32
    const inum: nat

    constructor (readable: nat, writable: nat, inum: nat)
      ensures this.readable == readable && this.writable == writable && off == 0 && this.inum == inum
    {
      this.readable, this.writable, this.inum, off := readable, writable, inum, 0;
    }
  }

  /** A uint passed as an int. */
  function ToInt(u: uint32): (i: int)
    ensures -0x8000_0000 <= i < 0x8000_0000 && (i - u) % UINT == 0
  {
    if u < 0x8000_0000 then u else u - UINT
  }

  /** How many of n bytes filewrite stores at offset off of a file of the given size: all of them if they
      fit, else whole chunks up to the largest file size. */
  function Stores(size: nat, off: nat, n: nat): (w: nat)
    requires size <= MAXBYTES
    ensures w <= n && (off <= size ==> off + w <= MAXBYTES)
    ensures w == n <==> n == 0 || (off <= size && off + n <= MAXBYTES)
  {
    if off > size then 0
    else if off + n <= MAXBYTES then n
    else (MAXBYTES - off) / MAXCHUNK * MAXCHUNK
  }

  /** Two adjacent writes are one write. */
  lemma SpliceTwice(c: seq<byte>, off: nat, s: seq<byte>, t: seq<byte>)
    requires off <= |c|
    ensures Splice(Splice(c, off, s), off + |s|, t) == Splice(c, off, s + t)
  {
    if s == [] {
      assert s + t == t;
    } else if t == [] {
      assert s + t == s;
    }
  }

  /** Reading back where one wrote gives what one wrote; every other byte is as before. */
  lemma SpliceRoundTrip(c: seq<byte>, off: nat, s: seq<byte>)
    requires off <= |c|
    ensures var r := Splice(c, off, s);
            && r[off..off + |s|] == s && r[..off] == c[..off]
            && (off + |s| <= |c| ==> r[off + |s|..] == c[off + |s|..])
  {
  }

  lemma SameFileTransitive(a: Fs, b: Fs, c: Fs, i: nat)
    requires OtherFilesSame(a, b, i) && OtherFilesSame(b, c, i)
    ensures OtherFilesSame(a, c, i)
  {
    forall j | 0 <= j < |a.inodes| && j != i ensures SameFile(a, c, j) {
      assert SameFile(a, b, j) && SameFile(b, c, j);
    }
  }

  /** File i of an earlier state with bytes s written at off; the other files are unchanged. */
  ghost predicate FileWritten(before: Fs, after: Fs, i: nat, off: nat, s: seq<byte>) {
    && i < |before.inodes| == |after.inodes| && OtherFilesSame(before, after, i)
    && |before.inodes[i].addrs| == |after.inodes[i].addrs| == NDIRECT + 1
    && before.inodes[i].size <= MAXBYTES && after.inodes[i].size <= MAXBYTES
    && after.inodes[i].kind == before.inodes[i].kind
    && if off <= before.inodes[i].size then Contents(after, i) == Splice(Contents(before, i), off, s)
       else s == [] && Contents(after, i) == Contents(before, i)
  }

  lemma NothingWritten(sb: Super, fs: Fs, owner: seq<Owner>, i: nat, off: nat)
    requires Consistent(sb, fs, owner) && i < |fs.inodes|
    ensures FileWritten(fs, fs, i, off, [])
  {
    forall j | 0 <= j < |fs.inodes| ensures InodeOk(sb, fs, j) {}
  }

  lemma ChunkWritten(sb: Super, before: Fs, mid: Fs, after: Fs, owner: seq<Owner>, i: nat, off: nat, src: seq<byte>,
                     k: nat, m: nat)
    requires k <= k + m <= |src| && FileWritten(before, mid, i, off, src[..k]) && off <= before.inodes[i].size
    requires WriteDone(sb, mid, after, owner, i, off + k, src[k..k + m])
    ensures FileWritten(before, after, i, off, src[..k + m])
  {
    hide Consistent, Contents, Splice, OtherFilesSame;
    SpliceTwice(Contents(before, i), off, src[..k], src[k..k + m]);
    assert src[..k + m] == src[..k] + src[k..k + m];
    SameFileTransitive(before, mid, after, i);
  }

  /** With whole chunks up to k, another one fits in the room exactly when it is among those that fit from the start. */
  lemma WholeChunks(room: nat, k: nat)
    requires k % MAXCHUNK == 0
    ensures var w := room / MAXCHUNK * MAXCHUNK;
            && (k + MAXCHUNK <= room <==> k < w) && (k < w ==> k + MAXCHUNK <= w) && (k + MAXCHUNK) % MAXCHUNK == 0
  {
    var q, c := room / MAXCHUNK, k / MAXCHUNK;
    assert k == 6656 * c && 6656 * q <= room < 6656 * q + 6656;
  }

  /** The loop of filewrite reaches chunk k and goes on, or stops there. */
  lemma ChunkFits(size: nat, off: nat, n: nat, k: nat)
    requires size <= MAXBYTES && k <= Stores(size, off, n) && k < n && (k == n || k % MAXCHUNK == 0)
    ensures off > size ==> Stores(size, off, n) == 0
    ensures off <= size ==>
            var m := if n - k > MAXCHUNK then MAXCHUNK else n - k;
            && (off + k + m <= MAXBYTES <==> k < Stores(size, off, n))
            && (k < Stores(size, off, n) ==> k + m <= Stores(size, off, n) && (k + m == n || (k + m) % MAXCHUNK == 0))
  {
    if off <= size {
      WholeChunks(MAXBYTES - off, k);
    }
  }

  lemma WrittenFacts(before: Fs, after: Fs, i: nat, off: nat, s: seq<byte>)
    requires FileWritten(before, after, i, off, s)
    ensures i < |before.inodes| == |after.inodes| && after.inodes[i].kind == before.inodes[i].kind
    ensures after.inodes[i].size ==
              if off <= before.inodes[i].size then Max(before.inodes[i].size, off + |s|) else before.inodes[i].size
  {
    if off <= before.inodes[i].size {
      assert |Contents(after, i)| == |Splice(Contents(before, i), off, s)|;
    } else {
      assert |Contents(after, i)| == |Contents(before, i)|;
    }
  }

  /** What filewrite comes to; a device is given the first n bytes, and what it returns decides the rest. */
  datatype Outcome = Returned(r: int) | Panicked | OnDevice(major: nat, n: nat)

  /** There are too few free blocks for what filewrite would store. */
  predicate NoRoom(sb: Super, blocks: seq<Block>, size: nat, off: nat, n: nat)
    requires sb.WellFormed() && |blocks| == sb.size && size <= MAXBYTES
  {
    off <= size && TooFew(sb, blocks, size, off + Stores(size, off, n))
  }

  /** Blocks free and blocks held add up to the same, so a chunk finds room if and only if all up to it do. */
  lemma ChunkRoom(free0: nat, size0: nat, free: nat, off: nat, k: nat, m: nat, w: nat)
    requires off <= size0 && free + Held(Ceil(Max(size0, off + k))) == free0 + Held(Ceil(size0)) && k + m <= w
    ensures free + Held(Ceil(Max(size0, off + k))) < Held(Max(Ceil(Max(size0, off + k)), Ceil(off + k + m))) ==>
              free0 + Held(Ceil(size0)) < Held(Max(Ceil(size0), Ceil(off + w)))
    ensures k == w ==> free0 + Held(Ceil(size0)) >= Held(Max(Ceil(size0), Ceil(off + w)))
  {
    hide Held, Ceil;
    if off + k <= size0 {
      CeilGrows(off + k, size0);
    } else {
      CeilGrows(size0, off + k);
    }
    CeilGrows(off + k, off + k + m);
    CeilGrows(off + k + m, off + w);
    HeldGrows(Max(Ceil(size0), Ceil(off + k + m)), Max(Ceil(size0), Ceil(off + w)));
  }

  /** The first k bytes of src are written at off, and no block is lost or gained. */
  ghost predicate Chunked(sb: Super, before: Fs, now: Fs, ip: nat, off: nat, src: seq<byte>, k: nat) {
    && k <= |src| && FileWritten(before, now, ip, off, src[..k])
    && sb.WellFormed() && |before.blocks| == |now.blocks| == sb.size
    && FreeCount(sb, now.blocks) + Held(Ceil(now.inodes[ip].size)) ==
       FreeCount(sb, before.blocks) + Held(Ceil(before.inodes[ip].size))
  }

  lemma ChunkedNone(sb: Super, fs: Fs, ip: nat, off: nat, src: seq<byte>)
    requires FileWritten(fs, fs, ip, off, []) && sb.WellFormed() && |fs.blocks| == sb.size
    ensures Chunked(sb, fs, fs, ip, off, src, 0)
  {
    assert src[..0] == [];
  }

  lemma ChunkedFacts(sb: Super, before: Fs, now: Fs, ip: nat, off: nat, src: seq<byte>, k: nat)
    requires Chunked(sb, before, now, ip, off, src, k)
    ensures ip < |before.inodes| == |now.inodes| && now.inodes[ip].kind == before.inodes[ip].kind
    ensures before.inodes[ip].size <= MAXBYTES && FileWritten(before, now, ip, off, src[..k])
    ensures sb.WellFormed() && |before.blocks| == |now.blocks| == sb.size
    ensures now.inodes[ip].size ==
              if off <= before.inodes[ip].size then Max(before.inodes[ip].size, off + k) else before.inodes[ip].size
  {
    hide FreeCount, Held, Ceil;
    WrittenFacts(before, now, ip, off, src[..k]);
  }

  lemma ChunkedMore(sb: Super, before: Fs, mid: Fs, after: Fs, owner: seq<Owner>, ip: nat, off: nat, src: seq<byte>,
                    k: nat, m: nat)
    requires Chunked(sb, before, mid, ip, off, src, k) && k + m <= |src| && off <= before.inodes[ip].size
    requires WriteDone(sb, mid, after, owner, ip, off + k, src[k..k + m])
    requires FreeCount(sb, after.blocks) + Held(Ceil(after.inodes[ip].size)) ==
             FreeCount(sb, mid.blocks) + Held(Ceil(mid.inodes[ip].size))
    ensures Chunked(sb, before, after, ip, off, src, k + m)
  {
    hide FreeCount, Held, Ceil, Consistent, FileWritten;
    ChunkWritten(sb, before, mid, after, owner, ip, off, src, k, m);
  }

  /** A chunk of what filewrite stores for which there is no room, and the end of it all. */
  lemma ChunkedRoom(sb: Super, before: Fs, now: Fs, ip: nat, off: nat, src: seq<byte>, k: nat, m: nat, n: nat)
    requires Chunked(sb, before, now, ip, off, src, k) && ip < |before.inodes| && before.inodes[ip].size <= MAXBYTES
    requires k + m <= Stores(before.inodes[ip].size, off, n)
    ensures off <= before.inodes[ip].size && TooFew(sb, now.blocks, now.inodes[ip].size, off + k + m) ==>
              NoRoom(sb, before.blocks, before.inodes[ip].size, off, n)
    ensures k == Stores(before.inodes[ip].size, off, n) ==> !NoRoom(sb, before.blocks, before.inodes[ip].size, off, n)
  {
    hide FreeCount, Held, Ceil, Stores, FileWritten;
    WrittenFacts(before, now, ip, off, src[..k]);
    var size := before.inodes[ip].size;
    if off <= size {
      ChunkRoom(FreeCount(sb, before.blocks), size, FreeCount(sb, now.blocks), off, k, m, Stores(size, off, n));
    }
  }

  /** filewrite on an inode: n bytes are written in chunks, each its own transaction. It returns n if all
      fit, else -1 after the chunks that do; the file offset moves past what was written. It panics exactly when
      too few blocks are free for what it would store. A device gets the first chunk, if it has a write function. */
  method FileWrite(fs: FileSystem, f: OpenFile, addr: seq<byte>, n: int) returns (out: Outcome)
    requires fs.Valid() && f.inum < |fs.inodes| && n <= |addr| && n < 0x8000_0000
    modifies fs`blocks, fs`inodes, fs`owner, fs`logged, f`off
    ensures fs.sb.WellFormed() && |old(fs.blocks)| == fs.sb.size && old(fs.inodes[f.inum].size) <= MAXBYTES
    ensures out.Panicked? <==>
            && f.writable != 0 && n >= 0 && old(fs.inodes[f.inum]).kind != T_DEV
            && NoRoom(fs.sb, old(fs.blocks), old(fs.inodes[f.inum].size), old(f.off), n)
    ensures out.OnDevice? <==>
            && f.writable != 0 && n > 0 && old(fs.inodes[f.inum]).kind == T_DEV
            && fs.CanWrite(old(fs.inodes[f.inum]).major)
    ensures out.OnDevice? ==> out.major == old(fs.inodes[f.inum]).major && out.n == if n > MAXCHUNK then MAXCHUNK else n
    ensures !out.Panicked? ==> fs.Valid()
    ensures f.writable == 0 || n < 0 ==> out == Returned(-1)
    ensures f.writable == 0 || n < 0 || old(fs.inodes[f.inum]).kind == T_DEV ==>
              f.off == old(f.off) && fs.blocks == old(fs.blocks) && fs.inodes == old(fs.inodes)
    ensures out.Returned? && f.writable != 0 && n >= 0 && old(fs.inodes[f.inum]).kind == T_DEV ==>
              out.r == if n == 0 then 0 else -1
    ensures out.Returned? && f.writable != 0 && n >= 0 && old(fs.inodes[f.inum]).kind != T_DEV ==>
              && var w := Stores(old(fs.inodes[f.inum].size), old(f.off), n);
                 && out.r == (if w == n then n else -1) && f.off == old(f.off) + w
                 && FileWritten(old(Fs(fs.blocks, fs.inodes)), Fs(fs.blocks, fs.inodes), f.inum, old(f.off),
                     addr[..w])
  {
    hide Consistent, FileWritten, Stores, NoRoom, WriteDone, Logs;
    ghost var before := Fs(fs.blocks, fs.inodes);
    ConsistentFacts(fs.sb, before, fs.owner, f.inum);
    if f.writable == 0 {
      return Returned(-1);
    }
    if n < 0 {
      return Returned(-1);  // the loop does not run, and i != n
    }
    if fs.inodes[f.inum].kind == T_DEV {
      if n == 0 {
        return Returned(0);
      }
      var n1 := if n > MAXCHUNK then MAXCHUNK else n;
      var r := fs.Writei(f.inum, addr[..n1], f.off);
      return if r.ToDevice? then OnDevice(r.major, n1) else Returned(-1);
    }
    NothingWritten(fs.sb, before, fs.owner, f.inum, f.off);
    var ok, i := WriteChunks(fs, f, addr, n, before);
    if !ok {
      return Panicked;
    }
    return Returned(if i == n then n else -1);
  }

  /** The loop of filewrite; i is how far it gets. */
  method WriteChunks(fs: FileSystem, f: OpenFile, addr: seq<byte>, n: nat, ghost before: Fs) returns (ok: bool, i: nat)
    requires fs.Valid() && f.inum < |fs.inodes| && fs.inodes[f.inum].kind != T_DEV && n <= |addr| && n < 0x8000_0000
    requires before == Fs(fs.blocks, fs.inodes) && before.inodes[f.inum].size <= MAXBYTES
    requires FileWritten(before, before, f.inum, f.off, [])
    modifies fs`blocks, fs`inodes, fs`owner, fs`logged, f`off
    ensures fs.sb.WellFormed() && |before.blocks| == fs.sb.size
    ensures !ok <==> NoRoom(fs.sb, before.blocks, before.inodes[f.inum].size, old(f.off), n)
    ensures ok ==>
              && fs.Valid() && i == Stores(before.inodes[f.inum].size, old(f.off), n) && f.off == old(f.off) + i
              && FileWritten(before, Fs(fs.blocks, fs.inodes), f.inum, old(f.off), addr[..i])
  {
    hide Consistent, WriteDone, FileWritten, Stores, FreeCount, Held, Ceil, Chunked, NoRoom, TooFew, Max,
        OtherFilesSame;
    i := 0;
    ghost var off0, ip, size := f.off, f.inum, before.inodes[f.inum].size;
    ConsistentFacts(fs.sb, before, fs.owner, ip);
    ChunkedNone(fs.sb, before, ip, off0, addr);
    while i < n
      invariant 0 <= i <= n && fs.Valid() && f.off == off0 + i
      invariant i <= Stores(size, off0, n) && (i == n || i % MAXCHUNK == 0)
      invariant Chunked(fs.sb, before, Fs(fs.blocks, fs.inodes), ip, off0, addr, i)
    {
      var n1 := n - i;
      if n1 > MAXCHUNK {
        n1 := MAXCHUNK;
      }
      ChunkFits(size, off0, n, i);
      var r := PutChunk(fs, f, addr, i, n1, before, n);
      if r.OutOfBlocks? {
        return false, i;
      }
      if r.WriteError? {
        break;
      }
      i := i + r.n;
    }
    ChunkedFacts(fs.sb, before, Fs(fs.blocks, fs.inodes), ip, off0, addr, i);
    ChunkedRoom(fs.sb, before, Fs(fs.blocks, fs.inodes), ip, off0, addr, i, 0, n);
    ok := true;
  }

  /** How many blocks n bytes from offset off on lie in. */
  function Spanned(off: nat, n: nat): (k: int) {
    BlockEnd(off, n) - off / BSIZE
  }

  /** The transaction of a full chunk logs more blocks than begin_op has reserved, whatever its offset. */
  lemma FullChunkSpans(off: nat)
    ensures Spanned(off, MAXCHUNK) == if off % BSIZE == 0 then 13 else 14
    ensures Spanned(off, MAXCHUNK) > RedoLog.MAXOPBLOCKS
  {
  }

  /** One chunk of filewrite, from begin_op on. */
  method PutChunk(fs: FileSystem, f: OpenFile, addr: seq<byte>, i: nat, n1: nat, ghost before: Fs, ghost n: nat)
    returns (r: WriteResult)
    requires fs.Valid() && f.inum < |before.inodes| && before.inodes[f.inum].kind != T_DEV && i < i + n1 <= |addr|
    requires n1 <= MAXCHUNK
    requires f.off >= i && Chunked(fs.sb, before, Fs(fs.blocks, fs.inodes), f.inum, f.off - i, addr, i)
    requires before.inodes[f.inum].size <= MAXBYTES
    requires var size, w := before.inodes[f.inum].size, Stores(before.inodes[f.inum].size, f.off - i, n);
             && i <= w
             && if f.off - i > size then w == 0 else (f.off + n1 <= MAXBYTES <==> i < w) && (i < w ==> i + n1 <= w)
    modifies fs`blocks, fs`inodes, fs`owner, fs`logged, f`off
    ensures !r.ToDevice? && fs.sb.WellFormed() && |before.blocks| == fs.sb.size
    ensures r.OutOfBlocks? ==> NoRoom(fs.sb, before.blocks, before.inodes[f.inum].size, old(f.off) - i, n)
    ensures r.WriteError? ==>
              && fs.Valid() && i == Stores(before.inodes[f.inum].size, old(f.off) - i, n) && f.off == old(f.off)
              && Chunked(fs.sb, before, Fs(fs.blocks, fs.inodes), f.inum, old(f.off) - i, addr, i)
    ensures r.Wrote? ==>
              && fs.Valid() && r.n == n1 && f.off == old(f.off) + n1
              && i + n1 <= Stores(before.inodes[f.inum].size, old(f.off) - i, n)
              && Chunked(fs.sb, before, Fs(fs.blocks, fs.inodes), f.inum, old(f.off) - i, addr, i + n1)
    ensures r.Wrote? ==>
              var k := Spanned(old(f.off), n1);
              k <= |fs.logged| <= k + (fs.sb.DataStart() - fs.sb.bmapstart) + 2
  {
    hide Consistent, WriteDone, FileWritten, Stores, FreeCount, Held, Ceil, Chunked, NoRoom, TooFew, Logs, BlockEnd;
    ghost var mid, off0, ip := Fs(fs.blocks, fs.inodes), f.off - i, f.inum;
    ChunkedFacts(fs.sb, before, mid, ip, off0, addr, i);
    ConsistentFacts(fs.sb, mid, fs.owner, ip);
    if i + n1 <= Stores(before.inodes[ip].size, off0, n) {
      ChunkedRoom(fs.sb, before, mid, ip, off0, addr, i, n1, n);
    }
    fs.logged := {};
    r := fs.Writei(f.inum, addr[i..i + n1], f.off);
    if r.Wrote? {
      ChunkedMore(fs.sb, before, mid, Fs(fs.blocks, fs.inodes), fs.owner, ip, off0, addr, i, n1);
      ChunkedFacts(fs.sb, before, Fs(fs.blocks, fs.inodes), ip, off0, addr, i + n1);
      ChunkSlots(f.off, n1, fs.inodes[ip].size);
      LogsCount(fs.sb, Fs(fs.blocks, fs.inodes), fs.owner, ip, f.off / BSIZE, BlockEnd(f.off, n1), fs.logged);
      f.off := f.off + r.n;
    }
  }

  lemma ChunkSlots(off: nat, n: nat, size: nat)
    requires n > 0
    ensures off + n <= size ==> off / BSIZE <= BlockEnd(off, n) <= Ceil(size)
  {
  }

  /** fileread on an inode: the slice of the file at the offset, clipped to its end; the offset moves past
      it. A negative n reads as a huge count, which wraps unless the offset is small. A device is read by its own
      function. */
  method FileRead(fs: FileSystem, f: OpenFile, n: int) returns (r: ReadResult)
    requires fs.Valid() && f.inum < |fs.inodes| && -0x8000_0000 <= n < 0x8000_0000
    modifies fs`blocks, fs`inodes, fs`owner, fs`logged, f`off
    ensures fs.blocks == old(fs.blocks) && fs.inodes == old(fs.inodes) && fs.owner == old(fs.owner) && fs.Valid()
    ensures fs.logged == old(fs.logged) && InodeOk(fs.sb, Fs(fs.blocks, fs.inodes), f.inum)
    ensures r.ReadError? <==>
            || f.readable == 0
            || if fs.inodes[f.inum].kind == T_DEV then !fs.CanRead(fs.inodes[f.inum].major)
               else old(f.off) > fs.inodes[f.inum].size || old(f.off) + n % UINT >= UINT
    ensures r.FromDevice? <==>
            f.readable != 0 && fs.inodes[f.inum].kind == T_DEV && fs.CanRead(fs.inodes[f.inum].major)
    ensures r.FromDevice? ==> r.major == fs.inodes[f.inum].major
    ensures !r.Read? ==> f.off == old(f.off)
    ensures r.Read? ==>
              var size, end := fs.inodes[f.inum].size, old(f.off) + n % UINT;
              && f.off == old(f.off) + |r.data|
              && r.data == Contents(Fs(fs.blocks, fs.inodes), f.inum)[old(f.off)..if end > size then size else end]
  {
    hide Consistent, Contents, Tight, Stored, Ceil;
    ConsistentFacts(fs.sb, Fs(fs.blocks, fs.inodes), fs.owner, f.inum);
    if f.readable == 0 {
      return ReadError;
    }
    r := fs.Readi(f.inum, f.off, n % UINT);
    if r.Read? {
      f.off := f.off + |r.data|;
    }
  }

  /** writeToSwapFile: filewrite at the given place. A size of 2^31 or more is a negative count to filewrite, which
      then writes nothing and returns -1. */
  method WriteToSwapFile(fs: FileSystem, swap: OpenFile, buffer: seq<byte>, place: uint32) returns (out: Outcome)
    requires fs.Valid() && swap.inum < |fs.inodes| && fs.inodes[swap.inum].kind != T_DEV && |buffer| < UINT
    modifies fs`blocks, fs`inodes, fs`owner, fs`logged, swap`off
    ensures fs.sb.WellFormed() && |old(fs.blocks)| == fs.sb.size && old(fs.inodes[swap.inum].size) <= MAXBYTES
    ensures !out.OnDevice?
    ensures out.Panicked? <==>
            && swap.writable != 0 && |buffer| < 0x8000_0000
            && NoRoom(fs.sb, old(fs.blocks), old(fs.inodes[swap.inum].size), place, |buffer|)
    ensures swap.writable == 0 || |buffer| >= 0x8000_0000 ==>
              out == Returned(-1) && swap.off == place && fs.blocks == old(fs.blocks) && fs.inodes == old(fs.inodes)
    ensures out.Returned? ==>
              fs.Valid() && swap.inum < |fs.inodes| == |old(fs.inodes)| && fs.inodes[swap.inum].kind != T_DEV
    ensures out.Returned? && swap.writable != 0 && |buffer| < 0x8000_0000 ==>
              && var w := Stores(old(fs.inodes[swap.inum].size), place, |buffer|);
                 && out.r == (if w == |buffer| then |buffer| else -1) && swap.off == place + w
                 && FileWritten(old(Fs(fs.blocks, fs.inodes)), Fs(fs.blocks, fs.inodes), swap.inum, place,
                     buffer[..w])
  {
    hide Consistent, Stores, NoRoom;
    swap.off := place;
    out := FileWrite(fs, swap, buffer, ToInt(|buffer|));
  }

  /** readFromSwapFile: fileread at the given place, whatever the size: the slice there, clipped to the end of the
      file; an error exactly when the file is not readable, the place is past its end or the sum wraps. */
  method ReadFromSwapFile(fs: FileSystem, swap: OpenFile, place: uint32, size: uint32) returns (r: int, data: seq<byte>)
    requires fs.Valid() && swap.inum < |fs.inodes| && fs.inodes[swap.inum].kind != T_DEV
    modifies fs`blocks, fs`inodes, fs`owner, fs`logged, swap`off
    ensures fs.blocks == old(fs.blocks) && fs.inodes == old(fs.inodes) && fs.owner == old(fs.owner) && fs.Valid()
    ensures InodeOk(fs.sb, Fs(fs.blocks, fs.inodes), swap.inum)
    ensures r == -1 <==> swap.readable == 0 || place > fs.inodes[swap.inum].size || place + size >= UINT
    ensures r == -1 ==> data == [] && swap.off == place
    ensures r != -1 ==>
              var len := fs.inodes[swap.inum].size;
              && r == |data| && swap.off == place + r
              && var end := if place + size > len then len else place + size;
                 data == Contents(Fs(fs.blocks, fs.inodes), swap.inum)[place..end]
  {
    hide Consistent, Contents, Tight, Stored, Ceil;
    ConsistentFacts(fs.sb, Fs(fs.blocks, fs.inodes), fs.owner, swap.inum);
    swap.off := place;
    assert ToInt(size) % UINT == size;
    var got := FileRead(fs, swap, ToInt(size));
    if got.ReadError? {
      return -1, [];
    }
    return |got.data|, got.data;
  }

  /** A buffer written to the swap file and read back at the same place: for every place within the file
      and every size within the largest file, the same bytes come back, unless there are too few free blocks.
      createSwapFile makes the file readable and writable. */
  method SwapOutAndIn(fs: FileSystem, swap: OpenFile, buffer: seq<byte>, place: uint32) returns (ok: bool,
                      data: seq<byte>)
    requires fs.Valid() && swap.inum < |fs.inodes| && fs.inodes[swap.inum].kind != T_DEV
    requires swap.readable != 0 && swap.writable != 0
    requires place <= fs.inodes[swap.inum].size && place + |buffer| <= MAXBYTES
    modifies fs`blocks, fs`inodes, fs`owner, fs`logged, swap`off
    ensures ok ==> data == buffer
    ensures fs.sb.WellFormed() && |old(fs.blocks)| == fs.sb.size
    ensures !ok <==> TooFew(fs.sb, old(fs.blocks), old(fs.inodes[swap.inum].size), place + |buffer|)
  {
    hide Consistent, Contents, FileWritten, InUse, Tight, Stored, Ceil, TooFew;
    ConsistentFacts(fs.sb, Fs(fs.blocks, fs.inodes), fs.owner, swap.inum);
    var out := WriteToSwapFile(fs, swap, buffer, place);
    if out.Panicked? {
      return false, [];
    }
    assert buffer[..|buffer|] == buffer;
    ReadBack(old(Fs(fs.blocks, fs.inodes)), Fs(fs.blocks, fs.inodes), swap.inum, place, buffer);
    var r;
    r, data := ReadFromSwapFile(fs, swap, place, |buffer|);
    ok := true;
  }

  lemma ReadBack(before: Fs, after: Fs, i: nat, place: nat, s: seq<byte>)
    requires FileWritten(before, after, i, place, s) && place <= before.inodes[i].size
    ensures i < |after.inodes| && |after.inodes[i].addrs| == NDIRECT + 1 &&
            place + |s| <= after.inodes[i].size <= MAXBYTES
    ensures Contents(after, i)[place..place + |s|] == s
  {
    hide Contents, Splice;
    SpliceRoundTrip(Contents(before, i), place, s);
    WrittenFacts(before, after, i, place, s);
  }
}
