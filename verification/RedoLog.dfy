/** The on-disk redo log of log.c: what each single-block write of recovery and commit does to
    the file system that a reboot would recover. A disk is the sequence of its blocks, and one
    write replaces one block. */
module RedoLog {
  import opened Blocks
  import opened Common

  const MAXOPBLOCKS: nat := 10
  const LOGSIZE: nat := MAXOPBLOCKS * 3

  type Disk = seq<Block>

  /** Where the superblock puts the log: header block, then size - 1 log blocks. */
  datatype Area = Area(start: nat, size: nat) {
    predicate Fits(d: Disk) {
      1 <= size && start + size <= |d|
    }

    predicate Inside(b: int) {
      start <= b < start + size
    }
  }

  function HeaderCount(a: Area, d: Disk): (n: nat)
    requires a.Fits(d)
  {
    Word(d[a.start], 0)
  }

  /** The block numbers listed in the on-disk header. */
  function Header(a: Area, d: Disk): (h: seq<nat>)
    requires a.Fits(d) && HeaderCount(a, d) <= LOGSIZE
    ensures |h| == HeaderCount(a, d)
  {
    seq(HeaderCount(a, d), i requires 0 <= i < LOGSIZE => Word(d[a.start], 1 + i))
  }

  /** A list of blocks that may be logged: it fits the log, and names home blocks only. */
  predicate Loggable(a: Area, disksize: nat, h: seq<nat>) {
    && |h| <= LOGSIZE
    && |h| <= a.size - 1
    && forall i :: 0 <= i < |h| ==> h[i] < disksize && !a.Inside(h[i])
  }

  /** The header is one that write_head wrote (or the zero block left by mkfs). */
  predicate ValidLog(a: Area, d: Disk) {
    && a.Fits(d)
    && HeaderCount(a, d) <= LOGSIZE
    && Loggable(a, |d|, Header(a, d))
  }

  /** Equal outside the log area. */
  predicate SameHome(a: Area, d: Disk, e: Disk) {
    && |d| == |e|
    && forall b :: 0 <= b < |d| && !a.Inside(b) ==> d[b] == e[b]
  }

  /** install_trans stopped after k blocks: log block i copied to home block h[i], for i < k. */
  function Install(a: Area, d: Disk, h: seq<nat>, k: nat): (r: Disk)
    requires a.Fits(d) && Loggable(a, |d|, h) && k <= |h|
    ensures |r| == |d|
  {
    if k == 0 then d else Install(a, d, h, k - 1)[h[k - 1] := d[a.start + k]]
  }

  /** The disk that recovery reconstructs, up to the header block. */
  function Recovered(a: Area, d: Disk): (r: Disk)
    requires ValidLog(a, d)
    ensures |r| == |d|
  {
    Install(a, d, Header(a, d), HeaderCount(a, d))
  }

  /** The header block after write_head for the list h: only the count and h's words change. */
  function PutHeader(b: Block, h: seq<nat>, k: nat): (r: Block)
    requires k <= |h| <= LOGSIZE && forall i :: 0 <= i < |h| ==> h[i] < UINT
  {
    if k == 0 then SetWord(b, 0, |h|) else SetWord(PutHeader(b, h, k - 1), k, h[k - 1])
  }

  /** Disk after write_head. */
  function WriteHead(a: Area, d: Disk, h: seq<nat>): (r: Disk)
    requires a.Fits(d) && |d| < UINT && Loggable(a, |d|, h)
    ensures |r| == |d|
  {
    d[a.start := PutHeader(d[a.start], h, |h|)]
  }

  /** The index of the last entry of h[..k] that names block b, or -1. */
  function LastIndex(h: seq<nat>, k: nat, b: nat): (i: int)
    requires k <= |h|
    ensures -1 <= i < k
    ensures i >= 0 ==> h[i] == b
    ensures forall j :: i < j < k ==> h[j] != b
  {
    if k == 0 then -1 else if h[k - 1] == b then k - 1 else LastIndex(h, k - 1, b)
  }

  // Pointwise meaning of install_trans

  /** Install copies each home block from its last log slot and touches nothing else. */
  lemma {:induction false} InstallAt(a: Area, d: Disk, h: seq<nat>, k: nat, b: nat)
    requires a.Fits(d) && Loggable(a, |d|, h) && k <= |h| && b < |d|
    ensures Install(a, d, h, k)[b] ==
            var i := LastIndex(h, k, b); if i < 0 then d[b] else d[a.start + 1 + i]
  {
    if k > 0 {
      InstallAt(a, d, h, k - 1, b);
    }
  }

  lemma {:induction false} PutHeaderWord(b: Block, h: seq<nat>, k: nat, j: nat)
    requires k <= |h| <= LOGSIZE && forall i :: 0 <= i < |h| ==> h[i] < UINT
    requires j < WORDS
    ensures Word(PutHeader(b, h, k), j) == if j == 0 then |h| else if j <= k then h[j - 1] else Word(b, j)
  {
    if k == 0 {
      WordAfterSet(b, 0, |h|, j);
    } else {
      PutHeaderWord(b, h, k - 1, j);
      WordAfterSet(PutHeader(b, h, k - 1), k, h[k - 1], j);
    }
  }

  /** read_head after write_head returns the list that was written. */
  lemma HeaderRoundTrip(a: Area, d: Disk, h: seq<nat>)
    requires a.Fits(d) && |d| < UINT && Loggable(a, |d|, h)
    ensures ValidLog(a, WriteHead(a, d, h)) && Header(a, WriteHead(a, d, h)) == h
  {
    var e := WriteHead(a, d, h);
    PutHeaderWord(d[a.start], h, |h|, 0);
    forall i | 0 <= i < |h| ensures Word(e[a.start], 1 + i) == h[i] {
      PutHeaderWord(d[a.start], h, |h|, 1 + i);
    }
    assert Header(a, e) == h;
  }

  /** An empty header recovers the disk as it is. */
  lemma EmptyRecovered(a: Area, d: Disk)
    requires ValidLog(a, d) && HeaderCount(a, d) == 0
    ensures Recovered(a, d) == d
  {
  }

  /** Recovery reads only the header, the log blocks and the home blocks outside the header. */
  lemma RecoveredCongruence(a: Area, d: Disk, e: Disk)
    requires ValidLog(a, d) && |e| == |d|
    requires forall b :: a.start <= b <= a.start + HeaderCount(a, d) ==> e[b] == d[b]
    requires forall b :: 0 <= b < |d| && !a.Inside(b) && b !in Header(a, d) ==> e[b] == d[b]
    ensures ValidLog(a, e) && SameHome(a, Recovered(a, e), Recovered(a, d))
  {
    var h := Header(a, d);
    assert Header(a, e) == h;
    forall b | 0 <= b < |d| && !a.Inside(b)
      ensures Recovered(a, e)[b] == Recovered(a, d)[b]
    {
      InstallAt(a, d, h, |h|, b);
      InstallAt(a, e, h, |h|, b);
    }
  }

  /** One write of install_trans, in any order and any number of times, leaves recovery unchanged. */
  lemma InstallStepKeepsRecovered(a: Area, d: Disk, i: nat)
    requires ValidLog(a, d) && i < HeaderCount(a, d)
    ensures var e := d[Header(a, d)[i] := d[a.start + 1 + i]];
            ValidLog(a, e) && SameHome(a, Recovered(a, e), Recovered(a, d))
  {
    RecoveredCongruence(a, d, d[Header(a, d)[i] := d[a.start + 1 + i]]);
  }

  /** While the header is empty, a write inside the log area leaves recovery unchanged. */
  lemma LogWriteKeepsRecovered(a: Area, d: Disk, b: nat, v: Block)
    requires ValidLog(a, d) && HeaderCount(a, d) == 0
    requires a.Inside(b) && b != a.start
    ensures var e := d[b := v]; ValidLog(a, e) && SameHome(a, Recovered(a, e), Recovered(a, d))
  {
    RecoveredCongruence(a, d, d[b := v]);
  }

  /** Clearing the header once the home blocks hold the recovered contents leaves recovery unchanged. */
  lemma ClearKeepsRecovered(a: Area, d: Disk)
    requires ValidLog(a, d) && |d| < UINT
    requires SameHome(a, d, Recovered(a, d))
    ensures var e := WriteHead(a, d, []);
            && ValidLog(a, e) && HeaderCount(a, e) == 0
            && SameHome(a, Recovered(a, e), Recovered(a, d))
  {
    var e := WriteHead(a, d, []);
    HeaderRoundTrip(a, d, []);
    EmptyRecovered(a, e);
  }

  /** After all installs the home blocks hold the recovered contents. */
  lemma InstalledIsRecovered(a: Area, d: Disk)
    requires ValidLog(a, d)
    ensures var e := Recovered(a, d);
            ValidLog(a, e) && Header(a, e) == Header(a, d) && SameHome(a, Recovered(a, e), e)
  {
    InstallKeepsRecovered(a, d, HeaderCount(a, d));
  }

  /** Stopping install_trans after any number of blocks leaves recovery, and the log, unchanged. */
  lemma {:induction false} InstallKeepsRecovered(a: Area, d: Disk, k: nat)
    requires ValidLog(a, d) && k <= HeaderCount(a, d)
    ensures var e := Install(a, d, Header(a, d), k);
            && ValidLog(a, e) && Header(a, e) == Header(a, d)
            && (forall b :: a.Inside(b) ==> e[b] == d[b])
            && SameHome(a, Recovered(a, e), Recovered(a, d))
  {
    var h := Header(a, d);
    var e := Install(a, d, h, k);
    forall b | 0 <= b < |d| && b !in h ensures e[b] == d[b] {
      InstallAt(a, d, h, k, b);
    }
    RecoveredCongruence(a, d, e);
  }

  // Recovery, interrupted anywhere

  /** The disk after the first j block writes of recover_from_log: installs, then the cleared header. */
  function RecoveryDisk(a: Area, d: Disk, j: nat): (r: Disk)
    requires ValidLog(a, d) && |d| < UINT && j <= HeaderCount(a, d) + 1
    ensures |r| == |d|
  {
    if j <= HeaderCount(a, d) then Install(a, d, Header(a, d), j) else WriteHead(a, Recovered(a, d), [])
  }

  /** Recovery stopped after any number of its writes leaves the recovered home blocks unchanged;
      run to the end, it puts them in place and empties the log. */
  lemma RecoveryStep(a: Area, d: Disk, j: nat)
    requires ValidLog(a, d) && |d| < UINT && j <= HeaderCount(a, d) + 1
    ensures ValidLog(a, RecoveryDisk(a, d, j))
    ensures SameHome(a, Recovered(a, RecoveryDisk(a, d, j)), Recovered(a, d))
    ensures j == HeaderCount(a, d) + 1 ==>
              && HeaderCount(a, RecoveryDisk(a, d, j)) == 0
              && SameHome(a, RecoveryDisk(a, d, j), Recovered(a, d))
  {
    if j <= HeaderCount(a, d) {
      InstallKeepsRecovered(a, d, j);
    } else {
      InstalledIsRecovered(a, d);
      ClearKeepsRecovered(a, Recovered(a, d));
    }
  }

  /** Successive reboots: the i-th recovery is cut short by a crash after cuts[i] of its writes
      (or completes, when cuts[i] is at least the number of its writes). */
  function Reboots(a: Area, d: Disk, cuts: seq<nat>): (r: Disk)
    requires ValidLog(a, d) && |d| < UINT
    ensures ValidLog(a, r) && |r| == |d|
    decreases |cuts|
  {
    if cuts == [] then d
    else
      var n := HeaderCount(a, d) + 1;
      var j := if cuts[0] <= n then cuts[0] else n;
      RecoveryStep(a, d, j);
      Reboots(a, RecoveryDisk(a, d, j), cuts[1..])
  }

  lemma {:induction false} RebootsKeepRecovered(a: Area, d: Disk, cuts: seq<nat>)
    requires ValidLog(a, d) && |d| < UINT
    ensures SameHome(a, Recovered(a, Reboots(a, d, cuts)), Recovered(a, d))
    decreases |cuts|
  {
    if cuts != [] {
      var n := HeaderCount(a, d) + 1;
      var j := if cuts[0] <= n then cuts[0] else n;
      RecoveryStep(a, d, j);
      RebootsKeepRecovered(a, RecoveryDisk(a, d, j), cuts[1..]);
    }
  }

  /** Any number of crashes during recovery, then one complete recovery, gives the home blocks of a
      single uninterrupted recovery, and an empty log. */
  lemma RecoverySurvivesCrashes(a: Area, d: Disk, cuts: seq<nat>)
    requires ValidLog(a, d) && |d| < UINT
    ensures var crashed := Reboots(a, d, cuts);
            var r := RecoveryDisk(a, crashed, HeaderCount(a, crashed) + 1);
            && SameHome(a, r, RecoveryDisk(a, d, HeaderCount(a, d) + 1))
            && ValidLog(a, r) && HeaderCount(a, r) == 0
  {
    RebootsKeepRecovered(a, d, cuts);
    var crashed := Reboots(a, d, cuts);
    RecoveryStep(a, crashed, HeaderCount(a, crashed) + 1);
    RecoveryStep(a, d, HeaderCount(a, d) + 1);
  }

  // Commit, interrupted anywhere

  /** The disk with every logged block replaced by its value in the cache. */
  function Overlay(d: Disk, h: seq<nat>, vals: seq<Block>): (r: Disk)
    requires |vals| == |h| && forall i :: 0 <= i < |h| ==> h[i] < |d|
    ensures |r| == |d|
    ensures Distinct(h) ==> forall i :: 0 <= i < |h| ==> r[h[i]] == vals[i]
    ensures forall b :: 0 <= b < |d| && b !in h ==> r[b] == d[b]
  {
    seq(|d|, b requires 0 <= b < |d| => var i := LastIndex(h, |h|, b); if i < 0 then d[b] else vals[i])
  }

  /** write_log stopped after k blocks. */
  function WriteLog(a: Area, d: Disk, vals: seq<Block>, k: nat): (r: Disk)
    requires a.Fits(d) && k <= |vals| <= a.size - 1
    ensures |r| == |d|
    ensures forall b :: 0 <= b < |d| ==> r[b] == if a.start < b <= a.start + k then vals[b - a.start - 1] else d[b]
  {
    if k == 0 then d else WriteLog(a, d, vals, k - 1)[a.start + k := vals[k - 1]]
  }

  /** What commit needs: an empty on-disk log, and a list of distinct home blocks that fits. */
  predicate CanCommit(a: Area, d: Disk, h: seq<nat>, vals: seq<Block>) {
    && ValidLog(a, d) && |d| < UINT && HeaderCount(a, d) == 0
    && Loggable(a, |d|, h) && Distinct(h) && |vals| == |h|
  }

  /** The disk after the first j block writes of commit: |h| log blocks, the header, |h| installs,
      the cleared header. */
  function CommitDisk(a: Area, d: Disk, h: seq<nat>, vals: seq<Block>, j: nat): (r: Disk)
    requires CanCommit(a, d, h, vals) && j <= 2 * |h| + 2
    ensures |r| == |d|
  {
    var n := |h|;
    var logged := WriteLog(a, d, vals, n);
    var headed := WriteHead(a, logged, h);
    if j <= n then WriteLog(a, d, vals, j)
    else if j <= 2 * n + 1 then Install(a, headed, h, j - n - 1)
    else WriteHead(a, Install(a, headed, h, n), [])
  }

  /** write_head turns a logged transaction into a committed one. */
  lemma CommitPoint(a: Area, d: Disk, h: seq<nat>, vals: seq<Block>)
    requires CanCommit(a, d, h, vals)
    ensures var e := WriteHead(a, WriteLog(a, d, vals, |h|), h);
            && ValidLog(a, e) && Header(a, e) == h
            && SameHome(a, Recovered(a, e), Overlay(d, h, vals))
  {
    var logged := WriteLog(a, d, vals, |h|);
    var e := WriteHead(a, logged, h);
    HeaderRoundTrip(a, logged, h);
    forall b | 0 <= b < |d| && !a.Inside(b) ensures Recovered(a, e)[b] == Overlay(d, h, vals)[b] {
      InstallAt(a, e, h, |h|, b);
    }
  }

  /** Before the header write, recovery yields the old disk. */
  lemma BeforeCommitPoint(a: Area, d: Disk, h: seq<nat>, vals: seq<Block>, j: nat)
    requires CanCommit(a, d, h, vals) && j <= |h|
    ensures var e := WriteLog(a, d, vals, j); ValidLog(a, e) && SameHome(a, Recovered(a, e), d)
  {
    var e := WriteLog(a, d, vals, j);
    assert e[a.start] == d[a.start];
    EmptyRecovered(a, e);
  }

  /** Installing and clearing a committed transaction: every prefix recovers the same home blocks. */
  lemma AfterCommitPoint(a: Area, d: Disk, k: nat)
    requires ValidLog(a, d) && |d| < UINT && k <= HeaderCount(a, d) + 1
    ensures var h := Header(a, d);
            var e := if k <= |h| then Install(a, d, h, k) else WriteHead(a, Install(a, d, h, |h|), []);
            && ValidLog(a, e) && SameHome(a, Recovered(a, e), Recovered(a, d))
            && (k == |h| + 1 ==> HeaderCount(a, e) == 0 && SameHome(a, e, Recovered(a, d)))
  {
    RecoveryStep(a, d, k);
  }

  lemma SameHomeTransitive(a: Area)
    ensures forall c: Disk, d: Disk, e: Disk :: SameHome(a, c, d) && SameHome(a, d, e) ==> SameHome(a, c, e)
  {
  }

  lemma CommittedDisk(a: Area, d: Disk, h: seq<nat>, vals: seq<Block>, j: nat)
    requires CanCommit(a, d, h, vals) && |h| < j <= 2 * |h| + 2
    ensures var e := CommitDisk(a, d, h, vals, j);
            && ValidLog(a, e) && SameHome(a, Recovered(a, e), Overlay(d, h, vals))
            && (j == 2 * |h| + 2 ==> HeaderCount(a, e) == 0 && SameHome(a, e, Overlay(d, h, vals)))
  {
    hide Recovered, Install, Overlay, WriteLog, WriteHead, SameHome;
    CommitPoint(a, d, h, vals);
    SameHomeTransitive(a);
    AfterCommitPoint(a, WriteHead(a, WriteLog(a, d, vals, |h|), h), j - |h| - 1);
  }

  /** Crash atomicity of commit. A crash after any number of commit's block writes recovers the whole
      old disk or the whole new one, and the switch is exactly at the first header write. */
  lemma CommitAtomic(a: Area, d: Disk, h: seq<nat>, vals: seq<Block>, j: nat)
    requires CanCommit(a, d, h, vals) && j <= 2 * |h| + 2
    ensures ValidLog(a, CommitDisk(a, d, h, vals, j))
    ensures SameHome(a, Recovered(a, CommitDisk(a, d, h, vals, j)), if j <= |h| then d else Overlay(d, h, vals))
    ensures j == 2 * |h| + 2 ==>
              && HeaderCount(a, CommitDisk(a, d, h, vals, j)) == 0
              && SameHome(a, CommitDisk(a, d, h, vals, j), Overlay(d, h, vals))
  {
    if j <= |h| {
      BeforeCommitPoint(a, d, h, vals, j);
    } else {
      CommittedDisk(a, d, h, vals, j);
    }
  }
}
