/** pipe.c: a ring of PIPESIZE bytes with 32-bit counters, and the readers and writers that sleep on it. */
module Pipe {
  import opened Blocks

  const PIPESIZE: nat := 512

  // One critical section at a time

  datatype WriteResult = Wrote | WriterSleeps | WriteFailed
  datatype ReadResult = Read | ReaderSleeps | ReadFailed

  /** How many of m more bytes go in before the pipe is full, with b bytes in it. */
  function Fit(b: nat, m: nat): (k: nat)
    requires b <= PIPESIZE
  {
    if m <= PIPESIZE - b then m else PIPESIZE - b
  }

  /** How a burst of writing ends that has come to byte i of len. */
  function WriteOutcome(i: nat, len: nat, readopen: bool, killed: bool): (r: WriteResult) {
    if i == len then Wrote else if !readopen || killed then WriteFailed else WriterSleeps
  }

  function ReadOutcome(empty: bool, writeopen: bool, killed: bool): (r: ReadResult) {
    if empty && writeopen then if killed then ReadFailed else ReaderSleeps else Read
  }

  function Min(a: nat, b: nat): (m: nat) {
    if a <= b then a else b
  }

  lemma WrapEqual(a: nat, b: nat)
    requires a <= b <= a + PIPESIZE
    ensures a % UINT == b % UINT <==> a == b
    ensures b % UINT == (a % UINT + PIPESIZE) % UINT <==> b == a + PIPESIZE
    ensures a % UINT % PIPESIZE == a % PIPESIZE
  {
    var q, r := a / UINT, a % UINT;
    assert a == q * UINT + r;
    WrapMod(q, r);
    WrapNear(a, b - a);
    WrapNear(a, PIPESIZE);
  }

  lemma WrapMod(q: nat, r: nat)
    requires r < UINT
    ensures (q * UINT + r) % PIPESIZE == r % PIPESIZE
  {
    assert q * UINT + r == PIPESIZE * (q * 0x80_0000 + r / PIPESIZE) + r % PIPESIZE;
  }

  /** A counter and one a little ahead of it differ by that much, modulo wrap-around. */
  lemma WrapNear(a: nat, k: nat)
    requires k <= PIPESIZE
    ensures (a + k) % UINT == if a % UINT + k < UINT then a % UINT + k else a % UINT + k - UINT
    ensures (a % UINT + k) % UINT == (a + k) % UINT
  {
    var q, r := a / UINT, a % UINT;
    if r + k < UINT {
      assert a + k == UINT * q + (r + k);
    } else {
      assert a + k == UINT * (q + 1) + (r + k - UINT);
    }
  }

  class Pipe {
    const data: array<byte>
    var nread: nat
    var nwrite: nat
    var readopen: bool
    var writeopen: bool
    ghost var stored: seq<byte>   // every byte ever written
    ghost var taken: nat          // how many of them have been read

    ghost predicate Valid()
      reads this, data
    {
      && data.Length == PIPESIZE
      && taken <= |stored| <= taken + PIPESIZE
      && nread == taken % UINT && nwrite == |stored| % UINT
      && forall k :: taken <= k < |stored| ==> data[k % PIPESIZE] == stored[k]
    }

    /** The bytes in the pipe, oldest first. */
    ghost function Ring(): (s: seq<byte>)
      reads this
      requires taken <= |stored|
    {
      stored[taken..]
    }

    constructor ()
      ensures Valid() && fresh(data) && stored == [] && taken == 0 && readopen && writeopen
    {
      data := new byte[PIPESIZE](_ => 0);
      nread, nwrite, readopen, writeopen, stored, taken := 0, 0, true, true, [], 0;
    }

    /** pipewrite from byte i of addr to its return or its sleep: as many bytes as fit are stored, in order. It
        is done exactly when all fit; otherwise it fails if the read end is closed or the writer was killed. */
    method Write(addr: seq<byte>, from: nat, killed: bool) returns (r: WriteResult, i: nat)
      requires Valid() && from <= |addr|
      modifies this, data
      ensures Valid() && taken == old(taken) && readopen == old(readopen) && writeopen == old(writeopen)
      ensures i == from + Fit(|old(Ring())|, |addr| - from)
      ensures stored == old(stored) + addr[from..i]
      ensures r == WriteOutcome(i, |addr|, readopen, killed)
      ensures from <= i <= |addr| && (i < |addr| ==> |Ring()| == PIPESIZE)
      ensures r == Wrote <==> i == |addr|
      ensures r == WriterSleeps <==> i < |addr| && readopen && !killed
    {
      i := from;
      while i < |addr|
        invariant Valid() && taken == old(taken) && readopen == old(readopen) && writeopen == old(writeopen)
        invariant from <= i <= |addr| && stored == old(stored) + addr[from..i]
      {
        WrapEqual(taken, |stored|);
        WrapEqual(|stored|, |stored| + 1);
        if nwrite == (nread + PIPESIZE) % UINT {
          if !readopen || killed {
            return WriteFailed, i;
          }
          return WriterSleeps, i;
        }
        RingFree(taken, |stored|);
        data[nwrite % PIPESIZE] := addr[i];
        WrapNear(|stored|, 1);
        nwrite := (nwrite + 1) % UINT;
        assert addr[from..i] + [addr[i]] == addr[from..i + 1];
        stored := stored + [addr[i]];
        i := i + 1;
      }
      r := Wrote;
    }

    /** piperead: it blocks only on an empty pipe with an open write end; otherwise it takes the oldest bytes, as
        many as there are up to n. */
    method Read(n: nat, killed: bool) returns (r: ReadResult, addr: seq<byte>)
      requires Valid()
      modifies this
      ensures Valid() && stored == old(stored) && readopen == old(readopen) && writeopen == old(writeopen)
      ensures r == ReadOutcome(old(Ring()) == [], writeopen, killed)
      ensures r == ReaderSleeps <==> old(Ring()) == [] && writeopen && !killed
      ensures r == ReadFailed <==> old(Ring()) == [] && writeopen && killed
      ensures addr == if r == ReadResult.Read then old(Ring())[..Min(n, |old(Ring())|)] else []
      ensures taken == old(taken) + |addr|
      ensures |addr| <= n && (r == ReadResult.Read && |addr| < n ==> Ring() == [])
    {
      addr := [];
      WrapEqual(taken, |stored|);
      if nread == nwrite && writeopen {
        return if killed then ReadFailed else ReaderSleeps, addr;
      }
      var i := 0;
      while i < n
        invariant Valid() && stored == old(stored) && readopen == old(readopen) && writeopen == old(writeopen)
        invariant 0 <= i <= n && taken == old(taken) + i && addr == stored[old(taken)..taken]
      {
        WrapEqual(taken, |stored|);
        if nread == nwrite {
          break;
        }
        assert data[taken % PIPESIZE] == stored[taken];
        addr := addr + [data[nread % PIPESIZE]];
        WrapNear(taken, 1);
        nread, taken := (nread + 1) % UINT, taken + 1;
        i := i + 1;
      }
      r := ReadResult.Read;
    }

    /** pipeclose: the bytes already in the pipe stay readable, and no call on the other end ever blocks again: with
        the write end closed every read returns, with the read end closed no write sleeps. The other end is as it
        was, and the pipe is freed exactly when that is closed too. */
    method Close(writable: bool) returns (freed: bool)
      requires Valid()
      modifies this`readopen, this`writeopen
      ensures Valid() && Ring() == old(Ring())
      ensures writable ==> !writeopen && readopen == old(readopen)
      ensures writable ==> forall empty, killed :: ReadOutcome(empty, writeopen, killed) == ReadResult.Read
      ensures !writable ==> !readopen && writeopen == old(writeopen)
      ensures !writable ==> forall i, len, killed :: WriteOutcome(i, len, readopen, killed) != WriterSleeps
      ensures freed <==> if writable then !old(readopen) else !old(writeopen)
    {
      if writable {
        writeopen := false;
      } else {
        readopen := false;
      }
      freed := !readopen && !writeopen;
    }
  }

  /** The slot for the next byte holds none that is still to be read. */
  lemma RingFree(a: nat, b: nat)
    requires a <= b < a + PIPESIZE
    ensures forall k :: a <= k < b ==> k % PIPESIZE != b % PIPESIZE
  {
    forall k | a <= k < b ensures k % PIPESIZE != b % PIPESIZE {
      var j := b - k;
      assert k == k / 512 * 512 + k % 512 && b == b / 512 * 512 + b % 512;
    }
  }
}
