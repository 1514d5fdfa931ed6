/** log.c: the in-memory log over the buffer cache. */
module Logging {
  import opened Blocks
  import opened Common
  import opened RedoLog
  import opened BufferCache

  // Copying between log blocks and home blocks

  /** Nobody holds a buffer, and there is one for a log block besides home's. */
  ghost predicate ReadsPair(a: Abstract, home: nat) {
    a.held == map[] && (a.pinned == {} || (|a.pinned| < NBUF && home in a.pinned))
  }

  /** The loop body of write_log: the cached home block goes to its log block on disk. */
  method CopyToLog(bc: Cache, logBlock: nat, home: nat) returns (ok: bool)
    requires bc.Valid() && logBlock < |bc.disk| == |bc.a.view| && home < |bc.disk| && logBlock != home
    modifies bc
    ensures bc.Valid() && |bc.a.view| == |bc.disk|
    ensures !ok ==> bc.disk == old(bc.disk) && bc.writes == old(bc.writes)
    ensures ok ==>
              && bc.disk == old(bc.disk)[logBlock := old(bc.a.view[home])] && bc.writes == old(bc.writes) + [bc.disk]
              && bc.a == old(bc.a).(view := old(bc.a.view)[logBlock := old(bc.a.view[home])],
                   pinned := old(bc.a.pinned) - {logBlock})
    ensures ReadsPair(old(bc.a), home) ==> ok
    ensures old(|bc.a.pinned|) >= NBUF && logBlock !in old(bc.a.pinned) ==> !ok
  {
    hide Cache.Valid;
    var i, j;
    ok, i, j := ReadPair(bc, logBlock, home);
    if ok {
      CopyHeld(bc, i, logBlock, j, home);
      assert bc.a.held == old(bc.a.held);
    }
  }

  /** The loop body of install_trans: the log block goes to its home block on disk. */
  method CopyHome(bc: Cache, logBlock: nat, home: nat) returns (ok: bool)
    requires bc.Valid() && logBlock < |bc.disk| == |bc.a.view| && home < |bc.disk| && logBlock != home
    modifies bc
    ensures bc.Valid() && |bc.a.view| == |bc.disk|
    ensures !ok ==> bc.disk == old(bc.disk) && bc.writes == old(bc.writes)
    ensures ok ==>
              && bc.disk == old(bc.disk)[home := old(bc.a.view[logBlock])] && bc.writes == old(bc.writes) + [bc.disk]
              && bc.a == old(bc.a).(view := old(bc.a.view)[home := old(bc.a.view[logBlock])],
                   pinned := old(bc.a.pinned) - {home})
              && (logBlock !in old(bc.a.pinned) ==> old(bc.a.view[logBlock]) == old(bc.disk[logBlock]))
    ensures ReadsPair(old(bc.a), home) ==> ok
  {
    hide Cache.Valid;
    var i, j;
    ok, i, j := ReadPair(bc, logBlock, home);
    if ok {
      CopyHeld(bc, j, home, i, logBlock);
      assert bc.a.held == old(bc.a.held);
    }
  }

  /** bread of a log block, then bread of a home block. */
  method ReadPair(bc: Cache, logBlock: nat, home: nat) returns (ok: bool, i: nat, j: nat)
    requires bc.Valid() && logBlock < |bc.disk| == |bc.a.view| && home < |bc.disk| && logBlock != home
    modifies bc
    ensures bc.Valid() && |bc.a.view| == |bc.disk| && bc.disk == old(bc.disk) && bc.writes == old(bc.writes)
    ensures ok ==>
              && logBlock !in old(bc.a.held) && home !in old(bc.a.held)
              && bc.a == old(bc.a).(held := old(bc.a.held)[logBlock := i][home := j])
              && bc.a.Holds(i, logBlock) && bc.a.Holds(j, home)
              && (logBlock !in bc.a.pinned ==> bc.a.view[logBlock] == bc.disk[logBlock])
              && (home !in bc.a.pinned ==> bc.a.view[home] == bc.disk[home])
    ensures ReadsPair(old(bc.a), home) ==> ok
    ensures old(|bc.a.pinned|) >= NBUF && logBlock !in old(bc.a.pinned) ==> !ok
  {
    hide Cache.Valid;
    i, j := 0, 0;
    var r := bc.Bread(logBlock);
    if !r.Buffer? {
      return false, 0, 0;
    }
    ghost var mid := bc.a;
    assert old(bc.a.held) == map[] ==> mid.held.Keys == {logBlock};
    var s := bc.Bread(home);
    if !s.Buffer? {
      return false, 0, 0;
    }
    return true, r.i, s.i;
  }

  /** memmove from one held buffer to another, bwrite the copy, brelse both. */
  method CopyHeld(bc: Cache, i: nat, ghost dst: nat, j: nat, ghost src: nat)
    requires bc.Valid() && bc.a.Holds(i, dst) && bc.a.Holds(j, src) && dst != src
    requires dst < |bc.disk| && src < |bc.disk| == |bc.a.view|
    requires src in bc.a.pinned || bc.a.view[src] == bc.disk[src]
    modifies bc
    ensures bc.Valid() && |bc.a.view| == |bc.disk|
    ensures bc.disk == old(bc.disk)[dst := old(bc.a.view[src])] && bc.writes == old(bc.writes) + [bc.disk]
    ensures bc.a == old(bc.a).(view := old(bc.a.view)[dst := old(bc.a.view[src])],
                               pinned := old(bc.a.pinned) - {dst}, held := old(bc.a.held) - {src} - {dst})
  {
    hide Cache.Valid;
    var data := bc.Data(j, src);
    bc.SetData(i, dst, data);
    bc.Bwrite(i, dst);
    bc.Brelse(j, src);
    bc.Brelse(i, dst);
  }

  /** Change a held buffer, bwrite it, brelse it. */
  method StoreHeld(bc: Cache, i: nat, ghost b: nat, data: Block)
    requires bc.Valid() && bc.a.Holds(i, b) && b < |bc.disk| == |bc.a.view| && b !in bc.a.pinned
    modifies bc
    ensures bc.Valid() && |bc.a.view| == |bc.disk|
    ensures bc.disk == old(bc.disk)[b := data] && bc.writes == old(bc.writes) + [bc.disk]
    ensures bc.a == old(bc.a).(view := old(bc.a.view)[b := data], held := old(bc.a.held) - {b})
  {
    hide Cache.Valid;
    bc.SetData(i, b, data);
    bc.Bwrite(i, b);
    bc.Brelse(i, b);
    assert bc.a.pinned == old(bc.a.pinned);
  }

  // Progress of the two copying loops

  /** The blocks of a header, as a set. */
  function SetOf(h: seq<nat>): (s: set<nat>) {
    set b | b in h
  }

  lemma {:induction false} SetOfSize(h: seq<nat>)
    requires Distinct(h)
    ensures |SetOf(h)| == |h|
  {
    SeqCardinality(h, SetOf(h));
  }

  /** The listed blocks, as the cache shows them. */
  function Cached(view: seq<Block>, h: seq<nat>): (vals: seq<Block>)
    requires forall i :: 0 <= i < |h| ==> h[i] < |view|
    ensures |vals| == |h|
  {
    seq(|h|, i requires 0 <= i < |h| => view[h[i]])
  }

  /** Disk images after each of the first k block writes of install_trans. */
  ghost function InstallWrites(a: Area, d: Disk, h: seq<nat>, k: nat): (w: seq<Disk>)
    requires a.Fits(d) && Loggable(a, |d|, h) && k <= |h|
  {
    seq(k, j requires 0 <= j < k => Install(a, d, h, j + 1))
  }

  /** Disk images after each of the first k block writes of write_log. */
  ghost function LogWrites(a: Area, d: Disk, vals: seq<Block>, k: nat): (w: seq<Disk>)
    requires a.Fits(d) && k <= |vals| <= a.size - 1
  {
    seq(k, j requires 0 <= j < k => WriteLog(a, d, vals, j + 1))
  }

  ghost predicate InstallProgress(a: Area, d: Disk, w: seq<Disk>, h: seq<nat>, k: nat, disk: Disk, writes: seq<Disk>) {
    && a.Fits(d) && Loggable(a, |d|, h) && k <= |h|
    && disk == Install(a, d, h, k) && writes == w + InstallWrites(a, d, h, k)
  }

  ghost predicate LogProgress(a: Area, d: Disk, w: seq<Disk>, vals: seq<Block>, k: nat, disk: Disk, writes: seq<Disk>) {
    && a.Fits(d) && k <= |vals| <= a.size - 1
    && disk == WriteLog(a, d, vals, k) && writes == w + LogWrites(a, d, vals, k)
  }

  /** The cache after k copies of install_trans: the copied blocks are clean and look as they are on disk. */
  ghost predicate Installed(a: Area, d: Disk, before: Abstract, h: seq<nat>, k: nat, disk: Disk, after: Abstract) {
    && a.Fits(d) && Loggable(a, |d|, h) && k <= |h| && |before.view| == |d|
    && disk == Install(a, d, h, k) && |after.view| == |d|
    && after == before.(view := after.view, pinned := before.pinned - SetOf(h[..k]))
    && forall b :: 0 <= b < |d| ==> after.view[b] == if b in h[..k] then disk[b] else before.view[b]
  }

  /** The cache after k copies of write_log: no home block looks different. */
  ghost predicate LoggedUpTo(a: Area, d: Disk, before: Abstract, h: seq<nat>, k: nat, after: Abstract) {
    && a.Fits(d) && Loggable(a, |d|, h) && k <= |h| && |before.view| == |d|
    && after == before.(view := after.view) && |after.view| == |d|
    && forall b :: 0 <= b < |d| && !a.Inside(b) ==> after.view[b] == before.view[b]
  }

  lemma InstallKeepsLogArea(a: Area, d: Disk, h: seq<nat>, k: nat, b: nat)
    requires a.Fits(d) && Loggable(a, |d|, h) && k <= |h| && a.Inside(b)
    ensures Install(a, d, h, k)[b] == d[b]
  {
    InstallAt(a, d, h, k, b);
  }

  lemma InstalledStart(w: seq<Disk>, a: Area, d: Disk, before: Abstract, h: seq<nat>)
    requires a.Fits(d) && Loggable(a, |d|, h) && |before.view| == |d|
    ensures Installed(a, d, before, h, 0, d, before) && InstallProgress(a, d, w, h, 0, d, w)
  {
  }

  lemma InstalledStep(w: seq<Disk>, a: Area, d: Disk, before: Abstract, h: seq<nat>, k: nat,
                      disk: Disk, mid: Abstract, after: Abstract, writes: seq<Disk>)
    requires Installed(a, d, before, h, k, disk, mid) && k < |h| && InstallProgress(a, d, w, h, k, disk, writes)
    requires a.start + k + 1 !in mid.pinned ==> mid.view[a.start + k + 1] == disk[a.start + k + 1]
    requires before.pinned <= SetOf(h)
    requires after == mid.(view := mid.view[h[k] := mid.view[a.start + k + 1]], pinned := mid.pinned - {h[k]})
    ensures var disk' := disk[h[k] := mid.view[a.start + k + 1]];
            Installed(a, d, before, h, k + 1, disk', after) &&
                InstallProgress(a, d, w, h, k + 1, disk', writes + [disk'])
  {
    InstallKeepsLogArea(a, d, h, k, a.start + k + 1);
    assert a.start + k + 1 !in h;
    assert h[..k + 1] == h[..k] + [h[k]];
    assert InstallWrites(a, d, h, k + 1) == InstallWrites(a, d, h, k) + [Install(a, d, h, k + 1)];
  }

  /** Nobody holds a buffer, and the listed blocks are either all clean or all dirty, with one buffer to spare. */
  ghost predicate CanInstall(a: Abstract, h: seq<nat>) {
    a.held == map[] && (a.pinned == {} || (Distinct(h) && a.pinned == SetOf(h) && |a.pinned| < NBUF))
  }

  lemma InstallReads(a: Area, d: Disk, before: Abstract, h: seq<nat>, k: nat, disk: Disk, mid: Abstract)
    requires CanInstall(before, h) && k < |h|
    requires Installed(a, d, before, h, k, disk, mid)
    ensures ReadsPair(mid, h[k])
  {
    if before.pinned == {} {
      assert mid.pinned == {};
    } else {
      SubsetCardinality(mid.pinned, before.pinned);
      assert h[k] !in h[..k];
    }
  }

  lemma LoggedStart(w: seq<Disk>, a: Area, d: Disk, before: Abstract, h: seq<nat>)
    requires a.Fits(d) && Loggable(a, |d|, h) && |before.view| == |d|
    ensures LoggedUpTo(a, d, before, h, 0, before) && LogProgress(a, d, w, Cached(before.view, h), 0, d, w)
  {
  }

  lemma LoggedReads(a: Area, d: Disk, before: Abstract, h: seq<nat>, k: nat, mid: Abstract)
    requires LoggedUpTo(a, d, before, h, k, mid) && k < |h|
    ensures mid.pinned == before.pinned
    ensures before.pinned <= SetOf(h) ==> a.start + k + 1 !in before.pinned
    ensures before.held == map[] && before.pinned == SetOf(h) && |before.pinned| < NBUF ==> ReadsPair(mid, h[k])
  {
    assert a.start + k + 1 !in h;
  }

  lemma LoggedStep(w: seq<Disk>, a: Area, d: Disk, before: Abstract, h: seq<nat>, k: nat,
                   disk: Disk, mid: Abstract, after: Abstract, writes: seq<Disk>)
    requires LoggedUpTo(a, d, before, h, k, mid) && k < |h| && before.pinned <= SetOf(h)
    requires LogProgress(a, d, w, Cached(before.view, h), k, disk, writes)
    requires after == mid.(view := mid.view[a.start + k + 1 := mid.view[h[k]]],
               pinned := mid.pinned - {a.start + k + 1})
    ensures var disk' := disk[a.start + k + 1 := mid.view[h[k]]];
            && LoggedUpTo(a, d, before, h, k + 1, after)
            && LogProgress(a, d, w, Cached(before.view, h), k + 1, disk', writes + [disk'])
  {
    var vals := Cached(before.view, h);
    assert a.start + k + 1 !in h;
    assert mid.pinned - {a.start + k + 1} == mid.pinned;
    assert LogWrites(a, d, vals, k + 1) == LogWrites(a, d, vals, k) + [WriteLog(a, d, vals, k + 1)];
  }

  // Progress of recover_from_log and of commit

  ghost predicate RecoveryProgress(a: Area, d: Disk, w: seq<Disk>, k: nat, disk: Disk, writes: seq<Disk>) {
    && ValidLog(a, d) && |d| < UINT && k <= HeaderCount(a, d) + 1
    && disk == RecoveryDisk(a, d, k)
    && |writes| == |w| + k && writes[..|w|] == w
    && forall i :: |w| <= i < |writes| ==> writes[i] == RecoveryDisk(a, d, i - |w| + 1)
  }

  ghost predicate CommitProgress(a: Area, d: Disk, w: seq<Disk>, h: seq<nat>, vals: seq<Block>, k: nat, disk: Disk,
                              writes: seq<Disk>) {
    && CanCommit(a, d, h, vals) && k <= 2 * |h| + 2
    && disk == CommitDisk(a, d, h, vals, k)
    && |writes| == |w| + k && writes[..|w|] == w
    && forall i :: |w| <= i < |writes| ==> writes[i] == CommitDisk(a, d, h, vals, i - |w| + 1)
  }

  lemma RecoveryStarts(a: Area, d: Disk, w: seq<Disk>)
    requires ValidLog(a, d) && |d| < UINT
    ensures RecoveryProgress(a, d, w, 0, d, w)
  {
  }

  lemma InstalledClean(a: Area, d: Disk, before: Abstract, h: seq<nat>, disk: Disk, after: Abstract)
    requires Installed(a, d, before, h, |h|, disk, after) && before.pinned == {}
    ensures after.pinned == {} && after.held == before.held && |disk| == |d|
  {
  }

  lemma RecoveryEnds(a: Area, d: Disk, w: seq<Disk>, disk: Disk, writes: seq<Disk>)
    requires ValidLog(a, d) && RecoveryProgress(a, d, w, HeaderCount(a, d) + 1, disk, writes)
    ensures ValidLog(a, disk) && HeaderCount(a, disk) == 0
  {
    RecoveryStep(a, d, HeaderCount(a, d) + 1);
  }

  lemma RecoveryInstalls(a: Area, d: Disk, w: seq<Disk>, k: nat, disk: Disk, writes: seq<Disk>)
    requires ValidLog(a, d) && |d| < UINT && InstallProgress(a, d, w, Header(a, d), k, disk, writes)
    ensures RecoveryProgress(a, d, w, k, disk, writes)
  {
  }

  lemma RecoveryClears(a: Area, d: Disk, w: seq<Disk>, disk: Disk, writes: seq<Disk>)
    requires ValidLog(a, d) && RecoveryProgress(a, d, w, HeaderCount(a, d), disk, writes) && a.Fits(disk)
    ensures var disk' := WriteHead(a, disk, []);
            RecoveryProgress(a, d, w, HeaderCount(a, d) + 1, disk', writes + [disk'])
  {
  }

  lemma CommitLogs(a: Area, d: Disk, w: seq<Disk>, h: seq<nat>, vals: seq<Block>, k: nat, disk: Disk, writes: seq<Disk>)
    requires CanCommit(a, d, h, vals) && LogProgress(a, d, w, vals, k, disk, writes) && k <= |h|
    ensures CommitProgress(a, d, w, h, vals, k, disk, writes)
  {
  }

  lemma CommitHeads(a: Area, d: Disk, w: seq<Disk>, h: seq<nat>, vals: seq<Block>, disk: Disk, writes: seq<Disk>)
    requires CommitProgress(a, d, w, h, vals, |h|, disk, writes) && a.Fits(disk)
    ensures var disk' := WriteHead(a, disk, h);
            CommitProgress(a, d, w, h, vals, |h| + 1, disk', writes + [disk'])
  {
  }

  lemma CommitInstalls(a: Area, d: Disk, w: seq<Disk>, h: seq<nat>, vals: seq<Block>, headed: Disk, w': seq<Disk>,
                       k: nat, disk: Disk, writes: seq<Disk>)
    requires CommitProgress(a, d, w, h, vals, |h| + 1, headed, w') && InstallProgress(a, headed, w', h, k, disk, writes)
    ensures CommitProgress(a, d, w, h, vals, |h| + 1 + k, disk, writes)
  {
    forall i | |w| <= i < |writes| ensures writes[i] == CommitDisk(a, d, h, vals, i - |w| + 1) {
      if i < |w'| {
        assert writes[i] == w'[i];
      } else {
        assert writes[i] == InstallWrites(a, headed, h, k)[i - |w'|];
      }
    }
  }

  lemma CommitClears(a: Area, d: Disk, w: seq<Disk>, h: seq<nat>, vals: seq<Block>, disk: Disk, writes: seq<Disk>)
    requires CommitProgress(a, d, w, h, vals, 2 * |h| + 1, disk, writes) && a.Fits(disk)
    ensures var disk' := WriteHead(a, disk, []);
            CommitProgress(a, d, w, h, vals, 2 * |h| + 2, disk', writes + [disk'])
  {
  }

  lemma CommitEnds(a: Area, d: Disk, w: seq<Disk>, h: seq<nat>, vals: seq<Block>, disk: Disk, writes: seq<Disk>)
    requires CommitProgress(a, d, w, h, vals, 2 * |h| + 2, disk, writes)
    ensures ValidLog(a, disk) && HeaderCount(a, disk) == 0
  {
    CommitAtomic(a, d, h, vals, 2 * |h| + 2);
  }

  lemma LoggedKeeps(a: Area, d: Disk, a0: Abstract, h: seq<nat>, a1: Abstract)
    requires LoggedUpTo(a, d, a0, h, |h|, a1)
    ensures a1.pinned == a0.pinned && a1.held == a0.held && |a1.view| == |d|
  {
  }

  lemma CommitCount(a: Area, d: Disk, w: seq<Disk>, h: seq<nat>, vals: seq<Block>, k: nat, disk: Disk,
                    writes: seq<Disk>)
    requires CommitProgress(a, d, w, h, vals, k, disk, writes)
    ensures |writes| == |w| + k && (k > 0 ==> writes[|writes| - 1] == disk)
  {
    hide CommitDisk, CanCommit;
  }

  lemma HomeKept(a: Area, d: Disk, e: Disk)
    requires |d| == |e| && forall b :: 0 <= b < |d| && !a.Inside(b) ==> d[b] == e[b]
    ensures SameHome(a, d, e)
  {
  }

  /** Only listed home blocks look different from the disk. */
  ghost predicate OnlyListed(a: Area, disk: Disk, view: seq<Block>, lh: seq<nat>) {
    |view| == |disk| && forall b :: 0 <= b < |disk| && !a.Inside(b) && b !in lh ==> view[b] == disk[b]
  }

  /** The home blocks after installing the listed blocks are the ones the cache shows, when only listed
      blocks look different from the disk. */
  lemma CommitImages(a: Area, d: Disk, w: seq<Disk>, h: seq<nat>, view: seq<Block>, k: nat, disk: Disk,
                     writes: seq<Disk>)
    requires |view| == |d| && (forall i :: 0 <= i < |h| ==> h[i] < |d|)
    requires CommitProgress(a, d, w, h, Cached(view, h), k, disk, writes)
    requires forall b :: 0 <= b < |d| && !a.Inside(b) && b !in h ==> view[b] == d[b]
    ensures |writes| >= |w| && writes[..|w|] == w
    ensures forall i :: |w| <= i < |writes| ==>
              ValidLog(a, writes[i]) && SameHome(a, Recovered(a, writes[i]), if i - |w| < |h| then d else view)
  {
    hide CommitDisk, Cached, Recovered, SameHome, ValidLog, CanCommit;
    forall i | |w| <= i < |writes|
      ensures ValidLog(a, writes[i]) && SameHome(a, Recovered(a, writes[i]), if i - |w| < |h| then d else view)
    {
      CommitImage(a, d, h, view, i - |w| + 1);
    }
  }

  lemma CommitImage(a: Area, d: Disk, h: seq<nat>, view: seq<Block>, j: nat)
    requires |view| == |d| && (forall i :: 0 <= i < |h| ==> h[i] < |d|)
    requires CanCommit(a, d, h, Cached(view, h)) && j <= 2 * |h| + 2
    requires forall b :: 0 <= b < |d| && !a.Inside(b) && b !in h ==> view[b] == d[b]
    ensures var e := CommitDisk(a, d, h, Cached(view, h), j);
            ValidLog(a, e) && SameHome(a, Recovered(a, e), if j <= |h| then d else view)
  {
    hide CommitDisk, Overlay, Cached, Recovered;
    var vals := Cached(view, h);
    OverlayIsView(a, d, h, view);
    CommitAtomic(a, d, h, vals, j);
  }

  lemma OverlayIsView(a: Area, d: Disk, h: seq<nat>, view: seq<Block>)
    requires |view| == |d| && (forall i :: 0 <= i < |h| ==> h[i] < |d|)
    requires forall b :: 0 <= b < |d| && !a.Inside(b) && b !in h ==> view[b] == d[b]
    ensures SameHome(a, Overlay(d, h, Cached(view, h)), view)
  {
    var vals := Cached(view, h);
    forall b | 0 <= b < |d| && !a.Inside(b) ensures Overlay(d, h, vals)[b] == view[b] {
      var i := LastIndex(h, |h|, b);
      if i >= 0 {
        assert vals[i] == view[h[i]];
      }
    }
  }

  /** What the header write leaves on disk: each log block holds its block's cached contents. */
  lemma HeadedDisk(a: Area, d: Disk, w: seq<Disk>, h: seq<nat>, vals: seq<Block>, headed: Disk, writes: seq<Disk>)
    requires CommitProgress(a, d, w, h, vals, |h| + 1, headed, writes)
    ensures |headed| == |d|
    ensures forall b :: a.start < b <= a.start + |h| ==> headed[b] == vals[b - a.start - 1]
  {
    var logged := WriteLog(a, d, vals, |h|);
    assert headed == WriteHead(a, logged, h);
  }

  /** Commit leaves every home block looking as it did, and no block dirty. */
  lemma CommitKeepsView(a: Area, d: Disk, h: seq<nat>, a0: Abstract, a1: Abstract, headed: Disk, a2: Abstract,
                        disk: Disk, a3: Abstract)
    requires LoggedUpTo(a, d, a0, h, |h|, a1) && a0.pinned <= SetOf(h) && |headed| == |d|
    requires forall b :: a.start < b <= a.start + |h| ==> headed[b] == Cached(a0.view, h)[b - a.start - 1]
    requires a2 == a1.(view := a1.view[a.start := headed[a.start]])
    requires Installed(a, headed, a2, h, |h|, disk, a3)
    ensures a3.pinned == {} && a3.held == a0.held && a3.loading == a0.loading
    ensures forall b :: 0 <= b < |d| && !a.Inside(b) ==> a3.view[b] == a0.view[b]
  {
    assert h[..|h|] == h;
    forall b: nat | b < |d| && !a.Inside(b) ensures a3.view[b] == a0.view[b] {
      hide Install, SetOf;
      InstallAt(a, headed, h, |h|, b);
    }
  }

  datatype LogResult = Logged | TooBig | OutsideTransaction
  datatype EndResult = StillOpen | Committed | CommitStopped | AlreadyCommitting

  /** log absorption: a block already listed is not listed again. */
  function Absorb(h: seq<nat>, b: nat): (r: seq<nat>)
    ensures Distinct(h) ==> Distinct(r)
    ensures forall c :: c in r <==> c in h || c == b
    ensures h <= r && |r| <= |h| + 1
  {
    if b in h then h else h + [b]
  }

  lemma AbsorbKeeps(a: Area, disksize: nat, h: seq<nat>, b: nat)
    requires Loggable(a, disksize, h) && b < disksize && !a.Inside(b) && |h| < LOGSIZE && |h| < a.size - 1
    ensures Loggable(a, disksize, Absorb(h, b)) && SetOf(Absorb(h, b)) == SetOf(h) + {b}
  {
  }

  class Log {
    const bc: Cache
    const area: Area
    var n: nat              // lh.n
    var block: seq<nat>     // lh.block
    var outstanding: int
    var committing: bool
    ghost var promised: nat // log_write calls that the operations in progress may still make

    /** The blocks listed in the in-memory header. */
    function Lh(): (h: seq<nat>)
      reads this
      requires n <= |block|
    {
      block[..n]
    }

    /** The header lists home blocks that fit the log, and a dirty buffer's block is listed. */
    ghost predicate Valid()
      reads this, bc
    {
      && bc.Valid() && |bc.a.view| == |bc.disk| && |block| == LOGSIZE && n <= LOGSIZE
      && area.Fits(bc.disk) && |bc.disk| < UINT
      && Loggable(area, |bc.disk|, Lh())
      && bc.a.pinned <= SetOf(Lh())
    }

    /** Between commits: the on-disk log is empty, every listed block is dirty, and none is listed twice. */
    ghost predicate Open()
      reads this, bc
    {
      && Valid() && ValidLog(area, bc.disk) && HeaderCount(area, bc.disk) == 0
      && Distinct(Lh()) && bc.a.pinned == SetOf(Lh())
    }

    /** What begin_op reserves: the header has room for every call promised, at most MAXOPBLOCKS for each operation
        in progress. */
    ghost predicate Reserved()
      reads this
    {
      outstanding >= 0 && promised <= outstanding * MAXOPBLOCKS && n + promised <= LOGSIZE
    }

    /** The part of initlog before recovery. */
    constructor (bc: Cache, area: Area)
      requires bc.Valid() && bc.a.pinned == {} && area.Fits(bc.disk) && |bc.disk| < UINT
      ensures Valid() && this.bc == bc && this.area == area && Lh() == []
      ensures outstanding == 0 && !committing && Reserved()
    {
      promised := 0;
      this.bc, this.area := bc, area;
      n, block, outstanding, committing := 0, seq(LOGSIZE, _ => 0), 0, false;
    }

    /** install_trans: after k copies the disk is Install(.., k), whatever stopped it. A complete run
        leaves no listed block dirty, and shows the listed blocks as they are on disk. */
    method InstallTrans() returns (ok: bool, ghost k: nat)
      requires Valid()
      modifies bc
      ensures bc.Valid() && |bc.disk| == |bc.a.view| == |old(bc.disk)|
      ensures InstallProgress(area, old(bc.disk), old(bc.writes), Lh(), k, bc.disk, bc.writes)
      ensures ok ==> k == n && Installed(area, old(bc.disk), old(bc.a), Lh(), k, bc.disk, bc.a)
      ensures CanInstall(old(bc.a), Lh()) ==> ok
    {
      hide Cache.Valid, Installed, InstallProgress, CanInstall;
      k := 0;
      var tail := 0;
      ghost var d, h, a, w := bc.disk, Lh(), bc.a, bc.writes;
      InstalledStart(w, area, d, a, h);
      while tail < n
        invariant 0 <= tail <= n && k == tail && bc.Valid() && |bc.disk| == |d| == |bc.a.view|
        invariant Installed(area, d, a, h, k, bc.disk, bc.a) && InstallProgress(area, d, w, h, k, bc.disk, bc.writes)
      {
        ghost var disk, mid, writes := bc.disk, bc.a, bc.writes;
        ok := CopyHome(bc, area.start + tail + 1, block[tail]);
        if !ok {
          if CanInstall(a, h) {
            InstallReads(area, d, a, h, k, disk, mid);
          }
          return;
        }
        InstalledStep(w, area, d, a, h, k, disk, mid, bc.a, writes);
        tail, k := tail + 1, k + 1;
      }
      ok := true;
    }

    /** write_log: after k copies the disk is WriteLog(.., k), whatever stopped it. With no buffer held and
        every listed block dirty, it completes exactly when that leaves a buffer to spare. */
    method WriteLogBlocks() returns (ok: bool, ghost k: nat)
      requires Valid()
      modifies bc
      ensures bc.Valid() && |bc.disk| == |bc.a.view| == |old(bc.disk)|
      ensures LogProgress(area, old(bc.disk), old(bc.writes), Cached(old(bc.a.view), Lh()), k, bc.disk, bc.writes)
      ensures k <= n && (ok ==> k == n && LoggedUpTo(area, old(bc.disk), old(bc.a), Lh(), k, bc.a))
      ensures old(bc.a.held) == map[] && old(bc.a.pinned) == SetOf(Lh()) && n > 0 ==>
                (ok <==> old(|bc.a.pinned|) < NBUF)
    {
      hide Cache.Valid, LogProgress, LoggedUpTo, Cached, ReadsPair, SetOf;
      k := 0;
      var tail := 0;
      ghost var d, h, a, w := bc.disk, Lh(), bc.a, bc.writes;
      LoggedStart(w, area, d, a, h);
      while tail < n
        invariant 0 <= tail <= n && k == tail && bc.Valid() && |bc.disk| == |d| == |bc.a.view|
        invariant LoggedUpTo(area, d, a, h, k, bc.a)
        invariant LogProgress(area, d, w, Cached(a.view, h), k, bc.disk, bc.writes)
        invariant k > 0 ==> |a.pinned| < NBUF
      {
        ghost var disk, mid, writes := bc.disk, bc.a, bc.writes;
        LoggedReads(area, d, a, h, k, mid);
        ok := CopyToLog(bc, area.start + tail + 1, block[tail]);
        if !ok {
          return;
        }
        LoggedStep(w, area, d, a, h, k, disk, mid, bc.a, writes);
        tail, k := tail + 1, k + 1;
      }
      ok := true;
    }

    /** The assignments of write_head to the header block. */
    method FillHeader(data: Block) returns (r: Block)
      requires n <= |block| && n <= LOGSIZE && forall i :: 0 <= i < n ==> block[i] < UINT
      ensures r == PutHeader(data, Lh(), n)
    {
      r := SetWord(data, 0, n);
      var i := 0;
      while i < n
        invariant 0 <= i <= n && r == PutHeader(data, Lh(), i)
      {
        r := SetWord(r, 1 + i, block[i]);
        i := i + 1;
      }
    }

    lemma HeaderOutside()
      requires Valid()
      ensures area.start !in bc.a.pinned && area.start < |bc.disk| && forall i :: 0 <= i < n ==> block[i] < UINT
      ensures bc.a.held == map[] ==> bc.a.held.Keys + bc.a.pinned == bc.a.pinned
    {
      assert forall i :: 0 <= i < n ==> block[i] == Lh()[i];
    }

    /** write_head: one block write, after which the on-disk header lists exactly the in-memory one. */
    method WriteHeader() returns (ok: bool)
      requires Valid()
      modifies bc
      ensures bc.Valid() && |bc.disk| == |bc.a.view| == |old(bc.disk)|
      ensures !ok ==> bc.disk == old(bc.disk) && bc.writes == old(bc.writes)
      ensures ok ==>
                && bc.disk == WriteHead(area, old(bc.disk), Lh()) && bc.writes == old(bc.writes) + [bc.disk]
                && bc.a == old(bc.a).(view := old(bc.a.view)[area.start := bc.disk[area.start]])
      ensures old(bc.a.held) == map[] && old(|bc.a.pinned|) < NBUF ==> ok
    {
      hide Cache.Valid, PutHeader, Loggable, SetOf;
      HeaderOutside();
      var r := bc.Bread(area.start);
      if !r.Buffer? {
        return false;
      }
      var data := bc.Data(r.i, area.start);
      data := FillHeader(data);
      StoreHeld(bc, r.i, area.start, data);
      assert bc.a.held == old(bc.a.held);
      return true;
    }

    /** The assignments of read_head to the in-memory header. */
    method TakeHeader(data: Block)
      requires Word(data, 0) <= LOGSIZE == |block|
      modifies this`n, this`block
      ensures n == Word(data, 0) && |block| == LOGSIZE
      ensures forall i :: 0 <= i < n ==> block[i] == Word(data, 1 + i)
    {
      n := Word(data, 0);
      var i := 0;
      while i < n
        invariant 0 <= i <= n <= LOGSIZE && |block| == LOGSIZE && n == Word(data, 0)
        invariant forall j :: 0 <= j < i ==> block[j] == Word(data, 1 + j)
      {
        block := block[i := Word(data, 1 + i)];
        i := i + 1;
      }
    }

    /** read_head: the in-memory header becomes the on-disk one. */
    method ReadHeader() returns (ok: bool)
      requires Valid() && bc.a.pinned == {} && ValidLog(area, bc.disk)
      modifies this`n, this`block, bc
      ensures Valid() && bc.disk == old(bc.disk) && bc.writes == old(bc.writes) && bc.a.pinned == {}
      ensures ok ==> Lh() == Header(area, bc.disk) && bc.a == old(bc.a)
      ensures old(bc.a.held) == map[] ==> ok
    {
      hide Cache.Valid;
      var r := bc.Bread(area.start);
      if !r.Buffer? {
        return false;
      }
      var data := bc.Data(r.i, area.start);
      TakeHeader(data);
      assert Lh() == Header(area, bc.disk);
      bc.Brelse(r.i, area.start);
      assert bc.a.held == old(bc.a.held);
      return true;
    }

    /** recover_from_log: the disk images it leaves are exactly RecoveryDisk(1), RecoveryDisk(2), ..; a
        complete run empties the log, and it completes whenever nobody holds a buffer. */
    method RecoverFromLog() returns (ok: bool, ghost k: nat)
      requires Valid() && bc.a.pinned == {} && ValidLog(area, bc.disk)
      modifies this`n, this`block, bc
      ensures RecoveryProgress(area, old(bc.disk), old(bc.writes), k, bc.disk, bc.writes)
      ensures ok ==> Open() && Lh() == [] && k == HeaderCount(area, old(bc.disk)) + 1
      ensures old(bc.a.held) == map[] ==> ok
    {
      hide Cache.Valid, Installed, InstallProgress, RecoveryProgress;
      ghost var d, w := bc.disk, bc.writes;
      RecoveryStarts(area, d, w);
      ok := ReadHeader();
      k := 0;
      if !ok {
        return;
      }
      ghost var a := bc.a;
      ok, k := InstallTrans();
      RecoveryInstalls(area, d, w, k, bc.disk, bc.writes);
      if !ok {
        return;
      }
      InstalledClean(area, d, a, Lh(), bc.disk, bc.a);
      RecoveryClears(area, d, w, bc.disk, bc.writes);
      n := 0;
      ok := WriteHeader();
      if ok {
        k := k + 1;
        RecoveryEnds(area, d, w, bc.disk, bc.writes);
      }
    }

    /** commit: the disk images it leaves are exactly CommitDisk(1), CommitDisk(2), ..; a complete run
        empties the log and shows every home block as before. With no buffer held it completes exactly
        when the transaction has fewer than NBUF blocks. */
    method Commit() returns (ok: bool, ghost k: nat)
      requires Open()
      modifies this`n, bc
      ensures n <= old(n)
      ensures old(n) == 0 ==>
                ok && n == 0 && bc.disk == old(bc.disk) && bc.writes == old(bc.writes) && bc.a == old(bc.a)
      ensures old(n) > 0 ==>
                CommitProgress(area, old(bc.disk), old(bc.writes), old(Lh()), Cached(old(bc.a.view), old(Lh())), k,
                    bc.disk, bc.writes)
      ensures ok ==> Open() && Lh() == [] && |bc.disk| == |old(bc.disk)| && bc.a.held == old(bc.a.held)
      ensures ok && old(n) > 0 ==> k == 2 * old(n) + 2
      ensures ok ==> forall b :: 0 <= b < |bc.disk| && !area.Inside(b) ==> bc.a.view[b] == old(bc.a.view[b])
      ensures old(bc.a.held) == map[] ==> (ok <==> old(n) < NBUF)
    {
      hide Cache.Valid, LoggedUpTo, LogProgress, CommitProgress, Cached, SetOf;
      k := 0;
      if n == 0 {
        return true, 0;
      }
      ghost var h, d, w, a0 := Lh(), bc.disk, bc.writes, bc.a;
      ghost var vals := Cached(a0.view, h);
      SetOfSize(h);
      ok, k := WriteLogBlocks();
      CommitLogs(area, d, w, h, vals, k, bc.disk, bc.writes);
      if !ok {
        return;
      }
      ghost var a1 := bc.a;
      LoggedKeeps(area, d, a0, h, a1);
      CommitHeads(area, d, w, h, vals, bc.disk, bc.writes);
      ok := WriteHeader();
      if !ok {
        return;
      }
      k := k + 1;
      ok, k := InstallAndClear(d, w, h, a0, a1);
    }

    /** The second half of commit, from the commit point on: install the blocks and empty the log. */
    method InstallAndClear(ghost d: Disk, ghost w: seq<Disk>, ghost h: seq<nat>, ghost a0: Abstract, ghost a1: Abstract)
      returns (ok: bool, ghost k: nat)
      requires Valid() && h == Lh() && Distinct(h) && |a0.view| == |d| && forall i :: 0 <= i < |h| ==> h[i] < |d|
      requires CommitProgress(area, d, w, h, Cached(a0.view, h), |h| + 1, bc.disk, bc.writes)
      requires LoggedUpTo(area, d, a0, h, |h|, a1) && a0.pinned == SetOf(h)
      requires |a1.view| == |bc.disk| && bc.a == a1.(view := a1.view[area.start := bc.disk[area.start]])
      modifies this`n, bc
      ensures n <= old(n) && CommitProgress(area, d, w, h, Cached(a0.view, h), k, bc.disk, bc.writes)
      ensures ok ==> Open() && Lh() == [] && |bc.disk| == |d| && bc.a.held == a0.held && k == 2 * |h| + 2
      ensures ok ==> forall b :: 0 <= b < |bc.disk| && !area.Inside(b) ==> bc.a.view[b] == a0.view[b]
      ensures a0.held == map[] && |a0.pinned| < NBUF ==> ok
    {
      hide Cache.Valid, Installed, InstallProgress, LoggedUpTo, CommitProgress, Cached;
      ghost var vals := Cached(a0.view, h);
      ghost var headed, a2, w' := bc.disk, bc.a, bc.writes;
      LoggedKeeps(area, d, a0, h, a1);
      HeadedDisk(area, d, w, h, vals, headed, w');
      ghost var m;
      ok, m := InstallTrans();
      CommitInstalls(area, d, w, h, vals, headed, w', m, bc.disk, bc.writes);
      k := |h| + 1 + m;
      if !ok {
        return;
      }
      CommitKeepsView(area, d, h, a0, a1, headed, a2, bc.disk, bc.a);
      CommitClears(area, d, w, h, vals, bc.disk, bc.writes);
      n := 0;
      ok := WriteHeader();
      if ok {
        k := k + 1;
        CommitEnds(area, d, w, h, vals, bc.disk, bc.writes);
      }
    }

    /** log_write: it panics exactly on a full log or outside a transaction; otherwise the block is listed
        once and its buffer pinned, and nothing reaches the disk. */
    method LogWrite(i: nat, ghost b: nat) returns (r: LogResult)
      requires Open() && bc.a.Holds(i, b) && b < |bc.disk| && !area.Inside(b)
      modifies this`n, this`block, this`promised, bc
      ensures r.TooBig? <==> old(n) >= LOGSIZE || old(n) >= area.size - 1
      ensures old(Reserved()) && old(promised) > 0 ==>
                && (area.size > LOGSIZE ==> !r.TooBig?)
                && (r.Logged? ==> Reserved() && promised == old(promised) - 1)
      ensures r.OutsideTransaction? <==> !r.TooBig? && outstanding < 1
      ensures Open() && bc.disk == old(bc.disk) && bc.writes == old(bc.writes)
      ensures r.Logged? ==> Lh() == Absorb(old(Lh()), b) && bc.a == old(bc.a).(pinned := old(bc.a.pinned) + {b})
      ensures !r.Logged? ==> Lh() == old(Lh()) && bc.a == old(bc.a)
    {
      hide Cache.Valid, Loggable, SetOf, ValidLog, Header, Distinct;
      if n >= LOGSIZE || n >= area.size - 1 {
        return TooBig;
      }
      if outstanding < 1 {
        return OutsideTransaction;
      }
      ghost var h := Lh();
      var blockno := bc.BlockNumber(i, b);
      var j := 0;
      while j < n
        invariant 0 <= j <= n && b !in h[..j]
      {
        if block[j] == blockno {
          break;
        }
        assert h[..j + 1] == h[..j] + [h[j]];
        j := j + 1;
      }
      assert h[..n] == h;
      block := block[j := blockno];
      if j == n {
        n := n + 1;
      }
      assert Lh() == Absorb(h, b);
      promised := if promised > 0 then promised - 1 else 0;
      bc.Pin(i, b);
      AbsorbKeeps(area, |bc.disk|, h, b);
      return Logged;
    }

    /** begin_op: a new operation is promised MAXOPBLOCKS calls of log_write on top of those promised already, and
        all of them fit the header. It waits exactly during a commit, or when operations that used all they may
        would leave no room. */
    method BeginOp() returns (entered: bool)
      requires Reserved()
      modifies this`outstanding, this`promised
      ensures Reserved()
      ensures entered ==> !committing && outstanding == old(outstanding) + 1 && promised == old(promised) + MAXOPBLOCKS
      ensures !entered ==> outstanding == old(outstanding) && promised == old(promised)
      ensures !entered <==> committing || n + (old(outstanding) + 1) * MAXOPBLOCKS > LOGSIZE
    {
      if committing {
        return false;
      } else if n + (outstanding + 1) * MAXOPBLOCKS > LOGSIZE {
        return false;
      }
      outstanding := outstanding + 1;
      promised := promised + MAXOPBLOCKS;
      return true;
    }

    /** end_op: the operation gives back the calls it has not used, and the last one commits: with no buffer held,
        exactly when the transaction has fewer than NBUF blocks. A commit makes two writes for each block and two for
        the header, and leaves the disk with the home blocks that the cache showed, and shows. Every disk image on
        the way recovers to the old home blocks or to exactly those, the latter from the header write on. */
    method EndOp(ghost unused: nat) returns (r: EndResult, ghost k: nat)
      requires Open()
      // with no operation left, every changed block has been passed to log_write
      requires outstanding == 1 ==> OnlyListed(area, bc.disk, bc.a.view, Lh())
      modifies this, bc
      ensures outstanding == old(outstanding) - 1
      ensures old(Reserved()) && unused <= old(promised) <= unused + outstanding * MAXOPBLOCKS && 0 <= outstanding ==>
                Reserved() && promised == old(promised) - unused
      ensures r.AlreadyCommitting? <==> old(committing)
      ensures r.StillOpen? <==> !old(committing) && outstanding != 0
      ensures r.StillOpen? || r.AlreadyCommitting? ==>
                bc.disk == old(bc.disk) && bc.writes == old(bc.writes) && bc.a == old(bc.a) && n == old(n) &&
                    block == old(block)
      ensures r.Committed? ==> Open() && Lh() == [] && !committing
      ensures (r.Committed? || r.CommitStopped?) && old(bc.a.held) == map[] ==> (r.Committed? <==> old(n) < NBUF)
      ensures r.Committed? ==>
                && |bc.writes| == |old(bc.writes)| + (if old(n) == 0 then 0 else 2 * old(n) + 2)
                && SameHome(area, bc.disk, old(bc.a.view)) && SameHome(area, bc.a.view, old(bc.a.view))
      ensures r.CommitStopped? ==> committing
      ensures r.Committed? || r.CommitStopped? ==>
                && |bc.writes| >= |old(bc.writes)| && bc.writes[..|old(bc.writes)|] == old(bc.writes)
                && forall i :: |old(bc.writes)| <= i < |bc.writes| ==>
                     && ValidLog(area, bc.writes[i])
                     && SameHome(area, Recovered(area, bc.writes[i]),
                                 if i - |old(bc.writes)| < old(n) then old(bc.disk) else old(bc.a.view))
    {
      hide Cache.Valid, CommitProgress, Recovered, SameHome;
      k := 0;
      outstanding := outstanding - 1;
      promised := if unused <= promised then promised - unused else promised;
      if committing {
        return AlreadyCommitting, 0;
      }
      if outstanding != 0 {
        return StillOpen, 0;
      }
      committing := true;
      ghost var d, h, view, w := bc.disk, Lh(), bc.a.view, bc.writes;
      var ok;
      ok, k := Commit();
      if h != [] {
        CommitImages(area, d, w, h, view, k, bc.disk, bc.writes);
        CommitCount(area, d, w, h, Cached(view, h), k, bc.disk, bc.writes);
      }
      if !ok {
        return CommitStopped, k;
      }
      committing := false;
      EmptyRecovered(area, bc.disk);
      HomeKept(area, bc.a.view, view);
      if h == [] {
        HomeKept(area, bc.disk, view);
      }
      return Committed, k;
    }
  }
}
