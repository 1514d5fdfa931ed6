/** The process table of proc.c and the loops over it, each under ptable.lock. */
module Proc {

  datatype PState = UNUSED | EMBRYO | SLEEPING | RUNNABLE | RUNNING | ZOMBIE

  /** What a process sleeps on: the address of a process (wait) or any other address. */
  datatype Chan = NoChan | OfProc(p: nat) | Other(address: nat)

  /** parent is an index into the table, or -1 for null. */
  datatype Proc = Proc(state: PState, pid: nat, parent: int, chan: Chan, killed: bool)

  type Table = seq<Proc>

  predicate AsleepOn(q: Proc, chan: Chan) {
    q.state == SLEEPING && q.chan == chan
  }

  /** wakeup1: everyone asleep on chan is runnable. */
  function Woken(t: Table, chan: Chan): (r: Table)
    ensures |r| == |t|
  {
    seq(|t|, i requires 0 <= i < |t| => if AsleepOn(t[i], chan) then t[i].(state := RUNNABLE) else t[i])
  }

  predicate ZombieChild(q: Proc, p: int) {
    q.parent == p && q.state == ZOMBIE
  }

  ghost predicate HasZombie(t: Table, p: int) {
    exists i :: 0 <= i < |t| && ZombieChild(t[i], p)
  }

  /** exit's loop: the children of me pass to init, which is woken if one of them is a zombie. */
  ghost function Reparented(t: Table, me: int, init: nat): (r: Table)
    ensures |r| == |t|
  {
    var w := if HasZombie(t, me) then Woken(t, OfProc(init)) else t;
    seq(|t|, i requires 0 <= i < |t| => if t[i].parent == me then w[i].(parent := init) else w[i])
  }

  /** What exit leaves in the table. */
  ghost function Exited(t: Table, me: nat, init: nat): (r: Table)
    requires me < |t|
    ensures |r| == |t|
  {
    var r := Reparented(Woken(t, if t[me].parent >= 0 then OfProc(t[me].parent) else NoChan), me, init);
    r[me := r[me].(state := ZOMBIE)]
  }

  /** exit wakes slot q: it sleeps in wait and is the parent of me, or it is init, to which a zombie passes. */
  ghost predicate ExitWakes(t: Table, me: nat, init: nat, q: nat)
    requires me < |t| && q < |t|
  {
    && t[q].state == SLEEPING
    && (|| t[q].chan == (if t[me].parent >= 0 then OfProc(t[me].parent) else NoChan)
        || (HasZombie(t, me) && t[q].chan == OfProc(init)))
  }

  /** Slot q once me has exited. */
  ghost function ExitEffect(t: Table, me: nat, init: nat, q: nat): (r: Proc)
    requires me < |t| && q < |t|
  {
    Proc(if q == me then ZOMBIE else if ExitWakes(t, me, init, q) then RUNNABLE else t[q].state, t[q].pid,
         if t[q].parent == me then init else t[q].parent, t[q].chan, t[q].killed)
  }

  lemma ExitedAt(t: Table, me: nat, init: nat, q: nat)
    requires me < |t| && q < |t|
    ensures Exited(t, me, init)[q] == ExitEffect(t, me, init, q)
  {
    var w := Woken(t, if t[me].parent >= 0 then OfProc(t[me].parent) else NoChan);
    assert HasZombie(w, me) <==> HasZombie(t, me) by {
      if i :| 0 <= i < |t| && ZombieChild(t[i], me) {
        assert ZombieChild(w[i], me);
      }
    }
  }

  const CLEARED := Proc(UNUSED, 0, -1, NoChan, false)

  /** A reaped slot: everything but the channel is reset. */
  function Reap(q: Proc): (r: Proc) {
    q.(state := UNUSED, pid := 0, parent := -1, killed := false)
  }

  /** kill's effect on the process it finds. */
  function Killed(q: Proc): (r: Proc) {
    q.(killed := true, state := if q.state == SLEEPING then RUNNABLE else q.state)
  }

  /** The first slot satisfying a condition: none before it does. */
  ghost predicate FirstPid(t: Table, pid: nat, i: nat) {
    i < |t| && t[i].pid == pid && forall j :: 0 <= j < i ==> t[j].pid != pid
  }

  ghost predicate FirstUnused(t: Table, i: nat) {
    i < |t| && t[i].state == UNUSED && forall j :: 0 <= j < i ==> t[j].state != UNUSED
  }

  ghost predicate FirstZombie(t: Table, me: int, i: nat) {
    i < |t| && ZombieChild(t[i], me) && forall j :: 0 <= j < i ==> !ZombieChild(t[j], me)
  }

  ghost predicate HasChild(t: Table, me: int) {
    exists i :: 0 <= i < |t| && t[i].parent == me
  }

  datatype WaitResult = Reaped(i: nat, pid: nat) | NoChildren | KeepWaiting

  class ProcTable {
    const proc: array<Proc>

    constructor (n: nat)
      ensures fresh(proc) && proc.Length == n && forall i :: 0 <= i < n ==> proc[i] == CLEARED
    {
      proc := new Proc[n](_ => CLEARED);
    }

    method Wakeup1(chan: Chan)
      modifies proc
      ensures proc[..] == Woken(old(proc[..]), chan)
      ensures forall j :: 0 <= j < proc.Length ==> !AsleepOn(proc[j], chan)
      ensures forall j :: 0 <= j < proc.Length ==>
                if old(proc[j].state) == SLEEPING && old(proc[j].chan) == chan
                then proc[j] == old(proc[j]).(state := RUNNABLE) else proc[j] == old(proc[j])
    {
      var i := 0;
      while i < proc.Length
        invariant 0 <= i <= proc.Length
        invariant forall j :: 0 <= j < i ==> proc[j] == Woken(old(proc[..]), chan)[j]
        invariant forall j :: i <= j < proc.Length ==> proc[j] == old(proc[j])
      {
        if proc[i].state == SLEEPING && proc[i].chan == chan {
          proc[i] := proc[i].(state := RUNNABLE);
        }
        i := i + 1;
      }
    }

    /** The whole critical section of exit: the parent is woken, the children pass to init, and the process is a
        zombie. */
    method Exit(me: nat, init: nat)
      requires me < proc.Length && me != init
      modifies proc
      ensures proc[..] == Exited(old(proc[..]), me, init)
      ensures forall j :: 0 <= j < proc.Length ==> proc[j] == ExitEffect(old(proc[..]), me, init, j)
    {
      ghost var t0 := proc[..];
      Wakeup1(if proc[me].parent >= 0 then OfProc(proc[me].parent) else NoChan);
      ghost var t := proc[..];
      var i := 0;
      while i < proc.Length
        invariant 0 <= i <= proc.Length && |t| == proc.Length
        invariant forall j :: 0 <= j < proc.Length ==> proc[j] == ReparentedUpTo(t, me, init, i)[j]
      {
        ghost var before := proc[..];
        if proc[i].parent == me {
          proc[i] := proc[i].(parent := init);
          if proc[i].state == ZOMBIE {
            Wakeup1(OfProc(init));
          }
        }
        ReparentStep(t, me, init, i, before, proc[..]);
        i := i + 1;
      }
      assert proc[..] == Reparented(t, me, init) by {
        ReparentAll(t, me, init, proc[..]);
      }
      proc[me] := proc[me].(state := ZOMBIE);
      forall j | 0 <= j < proc.Length ensures proc[j] == ExitEffect(t0, me, init, j) {
        ExitedAt(t0, me, init, j);
      }
    }

    /** wait's scan: the first zombie child is freed and its pid returned; otherwise it says whether there is any
        child. */
    method WaitScan(me: nat) returns (r: WaitResult)
      requires me < proc.Length
      modifies proc
      ensures r.Reaped? ==>
                && FirstZombie(old(proc[..]), me, r.i) && r.pid == old(proc[..])[r.i].pid
                && proc[..] == old(proc[..])[r.i := Reap(old(proc[..])[r.i])]
      ensures r.Reaped? ==>
                && r.i < proc.Length && old(proc[..])[r.i].parent == me && old(proc[..])[r.i].state == ZOMBIE
                && proc[r.i].state == UNUSED && proc[r.i].pid == 0 && proc[r.i].parent == -1 && !proc[r.i].killed
                && forall j :: 0 <= j < proc.Length && j != r.i ==> proc[j] == old(proc[j])
      ensures !r.Reaped? ==> proc[..] == old(proc[..]) && !HasZombie(old(proc[..]), me)
      ensures r.NoChildren? <==> !HasChild(old(proc[..]), me)
    {
      ghost var t := proc[..];
      var havekids := false;
      var i := 0;
      while i < proc.Length
        invariant 0 <= i <= proc.Length && proc[..] == t
        invariant forall j :: 0 <= j < i ==> !ZombieChild(t[j], me)
        invariant havekids <==> exists j :: 0 <= j < i && t[j].parent == me
      {
        assert proc[i] == t[i];
        if proc[i].parent == me {
          havekids := true;
          if proc[i].state == ZOMBIE {
            r := Reaped(i, proc[i].pid);
            proc[i] := Reap(proc[i]);
            return;
          }
        }
        i := i + 1;
      }
      r := if havekids then KeepWaiting else NoChildren;
    }

    /** allocproc's scan. */
    method AllocScan(pid: nat) returns (found: bool, i: nat)
      modifies proc
      ensures found ==> FirstUnused(old(proc[..]), i)
      ensures found ==> proc[..] == old(proc[..])[i := old(proc[..])[i].(state := EMBRYO, pid := pid)]
      ensures !found ==> proc[..] == old(proc[..]) && forall j :: 0 <= j < proc.Length ==> proc[j].state != UNUSED
    {
      i := 0;
      while i < proc.Length
        invariant 0 <= i <= proc.Length && proc[..] == old(proc[..])
        invariant forall j :: 0 <= j < i ==> proc[j].state != UNUSED
      {
        if proc[i].state == UNUSED {
          proc[i] := proc[i].(state := EMBRYO, pid := pid);
          return true, i;
        }
        i := i + 1;
      }
      found := false;
    }

    /** kill: the first slot with that pid, whatever its state, is marked, and woken if it sleeps. */
    method KillScan(pid: nat) returns (found: bool, ghost at: nat)
      modifies proc
      ensures found ==> FirstPid(old(proc[..]), pid, at) && proc[..] == old(proc[..])[at := Killed(old(proc[..])[at])]
      ensures found ==>
                && at < proc.Length && proc[at].killed && proc[at].state != SLEEPING
                && proc[at].state == (if old(proc[..])[at].state == SLEEPING then RUNNABLE else old(proc[..])[at].state)
                && proc[at].pid == pid && proc[at].parent == old(proc[..])[at].parent
                && proc[at].chan == old(proc[..])[at].chan
                && forall j :: 0 <= j < proc.Length && j != at ==> proc[j] == old(proc[j])
      ensures !found ==> proc[..] == old(proc[..]) && forall j :: 0 <= j < proc.Length ==> proc[j].pid != pid
    {
      at := 0;
      var i := 0;
      while i < proc.Length
        invariant 0 <= i <= proc.Length && proc[..] == old(proc[..])
        invariant forall j :: 0 <= j < i ==> proc[j].pid != pid
      {
        if proc[i].pid == pid {
          proc[i] := proc[i].(killed := true);
          if proc[i].state == SLEEPING {
            proc[i] := proc[i].(state := RUNNABLE);
          }
          return true, i;
        }
        i := i + 1;
      }
      found := false;
    }
  }

  /** Some zombie child of me among the first n slots. */
  ghost predicate ZombieBefore(t: Table, me: int, n: nat) {
    exists i :: 0 <= i < n && i < |t| && ZombieChild(t[i], me)
  }

  ghost function ReparentedUpTo(t: Table, me: int, init: nat, n: nat): (r: Table)
    ensures |r| == |t|
  {
    var w := if ZombieBefore(t, me, n) then Woken(t, OfProc(init)) else t;
    seq(|t|, i requires 0 <= i < |t| => if i < n && t[i].parent == me then w[i].(parent := init) else w[i])
  }

  lemma ReparentStep(t: Table, me: nat, init: nat, n: nat, before: Table, after: Table)
    requires n < |t| && |before| == |after| == |t| && me != init
    requires forall j :: 0 <= j < |t| ==> before[j] == ReparentedUpTo(t, me, init, n)[j]
    requires var mid := if before[n].parent == me then before[n := before[n].(parent := init)] else before;
             after == if before[n].parent == me && before[n].state == ZOMBIE then Woken(mid, OfProc(init)) else mid
    ensures forall j :: 0 <= j < |t| ==> after[j] == ReparentedUpTo(t, me, init, n + 1)[j]
  {
    assert ZombieBefore(t, me, n + 1) <==> ZombieBefore(t, me, n) || ZombieChild(t[n], me);
  }

  lemma ReparentAll(t: Table, me: nat, init: nat, r: Table)
    requires |r| == |t| && forall j :: 0 <= j < |t| ==> r[j] == ReparentedUpTo(t, me, init, |t|)[j]
    ensures r == Reparented(t, me, init)
  {
    assert ZombieBefore(t, me, |t|) <==> HasZombie(t, me);
  }
}
