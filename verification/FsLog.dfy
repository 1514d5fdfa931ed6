/** What ties the inode layer to the log: the blocks that an operation changes are those it passes to log_write, which
    is what end_op relies on. */
module FsLog {
  import opened Blocks
  import opened RedoLog
  import opened Logging
  import Inodes

  /** The list after log_write of each of these blocks in turn. */
  function AbsorbAll(lh: seq<nat>, bs: seq<nat>): (r: seq<nat>)
    ensures lh <= r && forall b :: b in r <==> b in lh || b in bs
  {
    if bs == [] then lh else
      var last := bs[|bs| - 1];
      assert bs == bs[..|bs| - 1] + [last];
      Absorb(AbsorbAll(lh, bs[..|bs| - 1]), last)
  }

  /** An operation of the inode layer, which changes blocks only as writei and itrunc do, keeps the premise of end_op
      once it has called log_write on the blocks it says it does. */
  lemma OperationKeepsPremise(a: Area, disk: Disk, view: seq<Block>, lh: seq<nat>, view': seq<Block>, log: set<nat>,
                              calls: seq<nat>)
    requires OnlyListed(a, disk, view, lh) && Inodes.Logged(view, view', log) && SetOf(calls) == log
    ensures OnlyListed(a, disk, view', AbsorbAll(lh, calls))
  {
    forall b | 0 <= b < |disk| && !a.Inside(b) && b !in AbsorbAll(lh, calls) ensures view'[b] == disk[b] {
      assert b !in SetOf(calls);
    }
  }

  /** After a commit it holds again, with nothing listed. */
  lemma CommitKeepsPremise(a: Area, disk: Disk, view: seq<Block>, view': seq<Block>)
    requires SameHome(a, disk, view) && SameHome(a, view', view)
    ensures OnlyListed(a, disk, view', [])
  {
  }
}
