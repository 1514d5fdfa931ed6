/** proc.c as a system of steps on any number of CPUs. ptable.lock is taken in one context and often given up in
    another: a process that yields, sleeps or exits hands it to the scheduler, which hands it to the next process. */
module ProcSteps {
  import opened Proc

  /** Why a process has taken ptable.lock. */
  datatype Op = Yield | Sleep(address: nat) | Wait | Exit | Wakeup(address: nat) | Kill(pid: nat) | Alloc | Publish

  /** Where a process is: outside the lock, inside it, or switched away from (or just switched to), to give the lock
      up next (yield, sleep, forkret) or to go on in wait. */
  datatype Pc = Outside | Inside(op: Op) | ToRelease | ToWait

  /** How far a fork has come: a slot taken, or also its parent set. */
  datatype Fork = NoFork | Got(q: nat) | Linked(q: nat)

  /** cur[c] is the process that is current on CPU c (-1 for none), sched[c] whether c is in the scheduler's
      context, lock the CPU that holds ptable.lock (-1 for none). History: the pids that have exited and those
      reaped. */
  datatype State = State(t: Table, pc: seq<Pc>, fork: seq<Fork>, cur: seq<int>, sched: seq<bool>, lock: int,
                         nextpid: nat, init: nat, exited: set<nat>, reaped: seq<nat>)

  datatype Event =
    | Acquire(c: nat, op: Op)
    | DoYield(c: nat)
    | DoSleep(c: nat)
    | WaitReap(c: nat, q: nat)
    | WaitReturn(c: nat)
    | WaitSleep(c: nat)
    | DoExit(c: nat)
    | DoWakeup(c: nat)
    | KillAt(c: nat, q: nat)
    | KillNone(c: nat)
    | AllocAt(c: nat, q: nat)
    | AllocNone(c: nat)
    | Link(c: nat)
    | FailFork(c: nat)
    | DoPublish(c: nat)
    | Resume(c: nat)
    | Back(c: nat)
    | SchedAcquire(c: nat)
    | Dispatch(c: nat, q: nat)
    | SchedRelease(c: nat)
    | Interrupt(c: nat, address: nat)

  predicate Shape(s: State) {
    && |s.t| == |s.pc| == |s.fork| && |s.cur| == |s.sched| && s.init < |s.t| && s.nextpid > 0
    && forall c :: 0 <= c < |s.cur| ==> s.cur[c] < |s.t|
  }

  /** CPU c runs a process, which is at pc. */
  predicate At(s: State, c: nat, pc: Pc)
    requires Shape(s)
  {
    c < |s.cur| && s.cur[c] >= 0 && !s.sched[c] && s.pc[s.cur[c]] == pc
  }

  /** CPU c runs a process that is inside the lock. */
  predicate Within(s: State, c: nat)
    requires Shape(s)
  {
    c < |s.cur| && s.cur[c] >= 0 && !s.sched[c] && s.pc[s.cur[c]].Inside?
  }

  predicate InScheduler(s: State, c: nat)
    requires Shape(s)
  {
    c < |s.cur| && s.cur[c] < 0 && s.sched[c]
  }

  /** A process in the middle of fork does nothing else but yield; init does not exit. */
  predicate Allowed(s: State, p: nat, op: Op)
    requires Shape(s) && p < |s.t|
  {
    match s.fork[p]
    case NoFork => op != Publish && (op == Exit ==> p != s.init)
    case Got(_) => op == Yield
    case Linked(_) => op == Yield || op == Publish
  }

  ghost predicate Enabled(s: State, e: Event)
    requires Shape(s)
  {
    match e
    case Acquire(c, op) => s.lock < 0 && At(s, c, Outside) && Allowed(s, s.cur[c], op)
    case DoYield(c) => s.lock == c && At(s, c, Inside(Yield))
    case DoSleep(c) => s.lock == c && Within(s, c) && s.pc[s.cur[c]].op.Sleep?
    case WaitReap(c, q) => s.lock == c && At(s, c, Inside(Wait)) && FirstZombie(s.t, s.cur[c], q)
    case WaitReturn(c) =>
      && s.lock == c && At(s, c, Inside(Wait)) && !HasZombie(s.t, s.cur[c])
      && (!HasChild(s.t, s.cur[c]) || s.t[s.cur[c]].killed)
    case WaitSleep(c) =>
      && s.lock == c && At(s, c, Inside(Wait)) && !HasZombie(s.t, s.cur[c])
      && HasChild(s.t, s.cur[c]) && !s.t[s.cur[c]].killed
    case DoExit(c) => s.lock == c && At(s, c, Inside(Exit))
    case DoWakeup(c) => s.lock == c && Within(s, c) && s.pc[s.cur[c]].op.Wakeup?
    case KillAt(c, q) => s.lock == c && Within(s, c) && s.pc[s.cur[c]].op.Kill?
                         && FirstPid(s.t, s.pc[s.cur[c]].op.pid, q)
    case KillNone(c) => s.lock == c && Within(s, c) && s.pc[s.cur[c]].op.Kill?
                        && forall q :: 0 <= q < |s.t| ==> s.t[q].pid != s.pc[s.cur[c]].op.pid
    case AllocAt(c, q) => s.lock == c && At(s, c, Inside(Alloc)) && FirstUnused(s.t, q)
    case AllocNone(c) => s.lock == c && At(s, c, Inside(Alloc)) && forall q :: 0 <= q < |s.t| ==> s.t[q].state != UNUSED
    case Link(c) => At(s, c, Outside) && s.fork[s.cur[c]].Got? && s.fork[s.cur[c]].q < |s.t|
    case FailFork(c) => At(s, c, Outside) && s.fork[s.cur[c]].Got? && s.fork[s.cur[c]].q < |s.t|
    case DoPublish(c) =>
      s.lock == c && At(s, c, Inside(Publish)) && s.fork[s.cur[c]].Linked? && s.fork[s.cur[c]].q < |s.t|
    case Resume(c) => s.lock == c && (At(s, c, ToRelease) || At(s, c, ToWait))
    case Back(c) => s.lock == c && c < |s.cur| && s.cur[c] >= 0 && s.sched[c]
    case SchedAcquire(c) => s.lock < 0 && InScheduler(s, c)
    case Dispatch(c, q) => s.lock == c && InScheduler(s, c) && q < |s.t| && s.t[q].state == RUNNABLE
    case SchedRelease(c) => s.lock == c && InScheduler(s, c)
    case Interrupt(c, _) => s.lock < 0 && c < |s.cur|
  }

  /** Process p of CPU c, now in state st, gives the CPU to the scheduler. */
  function SwitchAway(s: State, c: nat, t: Table, pc: Pc): (r: State)
    requires Shape(s) && c < |s.cur| && s.cur[c] >= 0
  {
    s.(t := t, pc := s.pc[s.cur[c] := pc], sched := s.sched[c := true])
  }

  /** The process on CPU c gives the lock up. */
  function Leave(s: State, c: nat, t: Table): (r: State)
    requires Shape(s) && c < |s.cur| && s.cur[c] >= 0
  {
    s.(t := t, pc := s.pc[s.cur[c] := Outside], lock := -1)
  }

  ghost function Next(s: State, e: Event): (s': State)
    requires Shape(s) && Enabled(s, e)
  {
    match e
    case Acquire(c, op) => s.(lock := c, pc := s.pc[s.cur[c] := Inside(op)])
    case DoYield(c) => SwitchAway(s, c, s.t[s.cur[c] := s.t[s.cur[c]].(state := RUNNABLE)], ToRelease)
    case DoSleep(c) =>
      SwitchAway(s, c, s.t[s.cur[c] := s.t[s.cur[c]].(state := SLEEPING, chan := Other(s.pc[s.cur[c]].op.address))],
          ToRelease)
    case WaitReap(c, q) => Leave(s, c, s.t[q := Reap(s.t[q])]).(reaped := s.reaped + [s.t[q].pid])
    case WaitReturn(c) => Leave(s, c, s.t)
    case WaitSleep(c) =>
      SwitchAway(s, c, s.t[s.cur[c] := s.t[s.cur[c]].(state := SLEEPING, chan := OfProc(s.cur[c]))], ToWait)
    case DoExit(c) =>
      SwitchAway(s, c, Exited(s.t, s.cur[c], s.init), ToRelease).(exited := s.exited + {s.t[s.cur[c]].pid})
    case DoWakeup(c) => Leave(s, c, Woken(s.t, Other(s.pc[s.cur[c]].op.address)))
    case KillAt(c, q) => Leave(s, c, s.t[q := Killed(s.t[q])])
    case KillNone(c) => Leave(s, c, s.t)
    case AllocAt(c, q) =>
      var r := Leave(s, c, s.t[q := s.t[q].(state := EMBRYO, pid := s.nextpid)]);
      r.(nextpid := s.nextpid + 1, fork := s.fork[s.cur[c] := Got(q)], pc := r.pc[q := ToRelease])
    case AllocNone(c) => Leave(s, c, s.t)
    case Link(c) =>
      var q := s.fork[s.cur[c]].q;
      s.(t := s.t[q := s.t[q].(parent := s.cur[c])], fork := s.fork[s.cur[c] := Linked(q)])
    case FailFork(c) =>
      var q := s.fork[s.cur[c]].q;
      s.(t := s.t[q := s.t[q].(state := UNUSED)], fork := s.fork[s.cur[c] := NoFork])
    case DoPublish(c) =>
      var q := s.fork[s.cur[c]].q;
      Leave(s, c, s.t[q := s.t[q].(state := RUNNABLE)]).(fork := s.fork[s.cur[c] := NoFork])
    case Resume(c) =>
      var t := s.t[s.cur[c] := s.t[s.cur[c]].(chan := NoChan)];
      if At(s, c, ToWait) then s.(t := t, pc := s.pc[s.cur[c] := Inside(Wait)]) else Leave(s, c, t)
    case Back(c) => s.(cur := s.cur[c := -1])
    case SchedAcquire(c) => s.(lock := c)
    case Dispatch(c, q) =>
      s.(t := s.t[q := s.t[q].(state := RUNNING)], cur := s.cur[c := q], sched := s.sched[c := false])
    case SchedRelease(c) => s.(lock := -1)
    case Interrupt(_, a) => s.(t := Woken(s.t, Other(a)))
  }

  predicate Live(st: PState) {
    st == SLEEPING || st == RUNNABLE || st == RUNNING
  }

  // Who runs where

  predicate OnCpu(s: State, p: int, c: nat)
    requires Shape(s)
  {
    c < |s.cur| && s.cur[c] == p && !s.sched[c]
  }

  predicate CpuOk(s: State, c: nat)
    requires Shape(s) && c < |s.cur|
  {
    if s.cur[c] < 0 then s.sched[c]
    else
      var p := s.cur[c];
      if s.sched[c] then s.lock == c && s.t[p].state != RUNNING && (s.pc[p] == ToRelease || s.pc[p] == ToWait)
      else s.t[p].state == RUNNING && (s.lock == c <==> s.pc[p] != Outside)
  }

  ghost predicate RunOk(s: State, p: nat)
    requires Shape(s) && p < |s.t|
  {
    && (s.t[p].state == RUNNING ==> exists c :: OnCpu(s, p, c))
    && (s.t[p].state == RUNNABLE || s.t[p].state == SLEEPING || s.t[p].state == EMBRYO ==>
         s.pc[p] == ToRelease || s.pc[p] == ToWait)
    && (s.t[p].state == SLEEPING && s.t[p].chan.OfProc? ==> s.t[p].chan.p == p)
  }

  ghost predicate CpuInv(s: State) {
    && Shape(s)
    && (forall c :: 0 <= c < |s.cur| ==> CpuOk(s, c))
    && (forall c, k :: 0 <= c < |s.cur| && 0 <= k < |s.cur| && s.cur[c] == s.cur[k] >= 0 ==> c == k)
    && (forall p :: 0 <= p < |s.t| ==> RunOk(s, p))
  }

  // Parents, children and waiting

  predicate ParentOk(s: State, p: nat)
    requires Shape(s) && p < |s.t|
  {
    var q := s.t[p];
    && (Live(q.state) || q.state == ZOMBIE ==>
          if p == s.init then q.parent == -1
          else 0 <= q.parent < |s.t| && q.parent != p && Live(s.t[q.parent].state))
    && (q.state == UNUSED ==> q.parent == -1)
    && (q.state == EMBRYO ==> q.parent == -1 || (0 <= q.parent < |s.t| && s.fork[q.parent] == Linked(p)))
  }

  /** Asleep in wait, a process has no zombie child. */
  ghost predicate NoneLost(s: State, p: nat)
    requires p < |s.t|
  {
    AsleepOn(s.t[p], OfProc(p)) ==> !HasZombie(s.t, p)
  }

  predicate ForkOk(s: State, p: nat)
    requires Shape(s) && p < |s.t|
  {
    match s.fork[p]
    case NoFork => true
    case Got(q) => Live(s.t[p].state) && q < |s.t| && q != s.init && s.t[q].state == EMBRYO && s.t[q].parent == -1
    case Linked(q) => Live(s.t[p].state) && q < |s.t| && q != s.init && s.t[q].state == EMBRYO && s.t[q].parent == p
  }

  /** The slot a fork is filling. */
  predicate Fills(f: Fork, q: nat) {
    !f.NoFork? && f.q == q
  }

  /** Only a process outside fork is inside wait, exit and the like. */
  predicate BusyOk(s: State, p: nat)
    requires Shape(s) && p < |s.t|
  {
    (s.pc[p].Inside? ==> Allowed(s, p, s.pc[p].op)) && (s.pc[p] == ToWait ==> s.fork[p].NoFork?)
  }

  ghost predicate FamilyInv(s: State) {
    && Shape(s) && Live(s.t[s.init].state)
    && (forall p :: 0 <= p < |s.t| ==> ParentOk(s, p) && NoneLost(s, p) && ForkOk(s, p) && BusyOk(s, p))
    && (forall p, k, q: nat :: 0 <= p < |s.t| && 0 <= k < |s.t| && Fills(s.fork[p], q) && Fills(s.fork[k], q) ==>
         p == k)
  }

  // Every exit is reaped once

  predicate InUse(st: PState) {
    st != UNUSED
  }

  predicate PidOk(s: State, p: nat)
    requires Shape(s) && p < |s.t|
  {
    && s.t[p].pid < s.nextpid && (InUse(s.t[p].state) ==> s.t[p].pid > 0)
    && (s.t[p].state == ZOMBIE ==> s.t[p].pid in s.exited && s.t[p].pid !in s.reaped)
    && (Live(s.t[p].state) || s.t[p].state == EMBRYO ==> s.t[p].pid !in s.exited)
  }

  ghost predicate PidInv(s: State) {
    && Shape(s)
    && (forall p :: 0 <= p < |s.t| ==> PidOk(s, p))
    && (forall p, k :: 0 <= p < |s.t| && 0 <= k < |s.t| && s.t[p].pid == s.t[k].pid > 0 ==> p == k)
    && (forall k :: k in s.exited ==> 0 < k < s.nextpid)
    && (forall k :: k in s.exited && k !in s.reaped ==>
         exists p :: 0 <= p < |s.t| && s.t[p].state == ZOMBIE && s.t[p].pid == k)
    && (forall i, j :: 0 <= i < j < |s.reaped| ==> s.reaped[i] != s.reaped[j])
    && (forall i :: 0 <= i < |s.reaped| ==> s.reaped[i] in s.exited)
  }

  ghost predicate Inv(s: State) {
    CpuInv(s) && FamilyInv(s) && PidInv(s)
  }

  // Every step keeps the invariant

  /** exit, slot by slot. */
  lemma ExitedFacts(t: Table, me: nat, init: nat, q: nat)
    requires me < |t| && init < |t| && me != init && q < |t|
    ensures var (r, was) := (Exited(t, me, init)[q], t[q]);
            && r.pid == was.pid && r.chan == was.chan && r.killed == was.killed
            && r.parent == (if was.parent == me then init else was.parent)
            && (q == me ==> r.state == ZOMBIE)
            && (q != me ==> r.state == was.state || (was.state == SLEEPING && r.state == RUNNABLE))
            && (q != me && t[me].parent >= 0 ==> !AsleepOn(r, OfProc(t[me].parent)))
            && (q != me && HasZombie(t, me) ==> !AsleepOn(r, OfProc(init)))
  {
    ExitedAt(t, me, init, q);
  }

  /** Slot q may change from a to b without touching what runs where, its saved context being as said. */
  predicate Tame(a: Proc, b: Proc, q: nat, saved: bool) {
    && (a.state == RUNNING <==> b.state == RUNNING)
    && (b.state == RUNNABLE || b.state == SLEEPING || b.state == EMBRYO ==> saved)
    && (b.state == SLEEPING && b.chan.OfProc? ==> b.chan.p == q)
  }

  predicate IsSaved(pc: Pc) {
    pc == ToRelease || pc == ToWait
  }

  lemma TameSame(s: State, q: nat)
    requires CpuInv(s) && q < |s.t|
    ensures Tame(s.t[q], s.t[q], q, IsSaved(s.pc[q]))
  {
    assert RunOk(s, q);
  }

  /** The lock is with CPU k, in the new state, exactly when the process there is inside it. */
  predicate LockKept(s: State, s': State, k: nat) {
    && k < |s.cur| == |s.sched| && 0 <= s.cur[k] < |s.pc| == |s'.pc|
    && if s.sched[k] then s'.lock == k && s'.pc[s.cur[k]] == s.pc[s.cur[k]]
       else s'.lock == k <==> s'.pc[s.cur[k]] != Outside
  }

  /** Nobody moves: only slots, contexts and the lock change, all in keeping. */
  lemma CpuStay(s: State, s': State)
    requires CpuInv(s) && Shape(s') && |s'.t| == |s.t| && s'.cur == s.cur && s'.sched == s.sched
    requires forall q :: 0 <= q < |s.t| ==> Tame(s.t[q], s'.t[q], q, IsSaved(s'.pc[q]))
    requires forall c :: 0 <= c < |s.cur| && s.cur[c] >= 0 ==> LockKept(s, s', c)
    ensures CpuInv(s')
  {
    forall c | 0 <= c < |s'.cur| ensures CpuOk(s', c) {
      assert CpuOk(s, c);
    }
    forall p | 0 <= p < |s'.t| ensures RunOk(s', p) {
      assert RunOk(s, p) && Tame(s.t[p], s'.t[p], p, IsSaved(s'.pc[p]));
      if s'.t[p].state == RUNNING {
        var c :| OnCpu(s, p, c);
        assert OnCpu(s', p, c);
      }
    }
  }

  /** The process on CPU c stops running. */
  lemma CpuAway(s: State, c: nat, t: Table, pc: Pc)
    requires CpuInv(s) && s.lock == c && c < |s.cur| && s.cur[c] >= 0 && !s.sched[c] && IsSaved(pc) && |t| == |s.t|
    requires forall q :: 0 <= q < |s.t| && q != s.cur[c] ==> Tame(s.t[q], t[q], q, IsSaved(s.pc[q]))
    requires t[s.cur[c]].state != RUNNING
    requires t[s.cur[c]].state == SLEEPING && t[s.cur[c]].chan.OfProc? ==> t[s.cur[c]].chan.p == s.cur[c]
    ensures CpuInv(SwitchAway(s, c, t, pc))
  {
    var s', me := SwitchAway(s, c, t, pc), s.cur[c];
    assert CpuOk(s, c);
    forall k | 0 <= k < |s'.cur| ensures CpuOk(s', k) {
      assert CpuOk(s, k);
    }
    forall p | 0 <= p < |s'.t| ensures RunOk(s', p) {
      assert RunOk(s, p);
      if p != me {
        assert Tame(s.t[p], t[p], p, IsSaved(s.pc[p]));
        if s'.t[p].state == RUNNING {
          var k :| OnCpu(s, p, k);
          assert OnCpu(s', p, k);
        }
      }
    }
  }

  lemma CpuSched(s: State, e: Event)
    requires CpuInv(s) && Enabled(s, e) && (e.Back? || e.SchedAcquire? || e.SchedRelease?)
    ensures CpuInv(Next(s, e))
  {
    var s' := Next(s, e);
    assert CpuOk(s, e.c);
    forall k | 0 <= k < |s'.cur| ensures CpuOk(s', k) {
      assert CpuOk(s, k);
    }
    forall p | 0 <= p < |s'.t| ensures RunOk(s', p) {
      assert RunOk(s, p);
      if s.t[p].state == RUNNING {
        var k :| OnCpu(s, p, k);
        assert OnCpu(s', p, k);
      }
    }
  }

  /** A runnable process is current on no CPU, while the lock is not with that CPU. */
  lemma RunnableNotCurrent(s: State, q: nat, k: nat)
    requires CpuInv(s) && q < |s.t| && s.t[q].state != RUNNING && k < |s.cur| && s.lock != k
    ensures s.cur[k] != q
  {
    assert CpuOk(s, k);
  }

  lemma CpuDispatch(s: State, c: nat, q: nat)
    requires CpuInv(s) && Enabled(s, Dispatch(c, q))
    ensures CpuInv(Next(s, Dispatch(c, q)))
  {
    var s' := Next(s, Dispatch(c, q));
    assert RunOk(s, q);
    forall k | 0 <= k < |s.cur| && k != c ensures s.cur[k] != q {
      RunnableNotCurrent(s, q, k);
    }
    forall k | 0 <= k < |s'.cur| ensures CpuOk(s', k) {
      assert CpuOk(s, k);
    }
    forall p | 0 <= p < |s'.t| ensures RunOk(s', p) {
      assert RunOk(s, p);
      if p == q {
        assert OnCpu(s', p, c);
      } else if s.t[p].state == RUNNING {
        var k :| OnCpu(s, p, k);
        assert OnCpu(s', p, k);
      }
    }
  }

  /** The process on CPU c changes the table and gives the lock up. */
  lemma CpuLeave(s: State, c: nat, t: Table)
    requires CpuInv(s) && s.lock == c && c < |s.cur| && s.cur[c] >= 0 && !s.sched[c] && |t| == |s.t|
    requires forall q :: 0 <= q < |s.t| ==> Tame(s.t[q], t[q], q, IsSaved(s.pc[q]))
    ensures CpuInv(Leave(s, c, t))
  {
    var s' := Leave(s, c, t);
    assert CpuOk(s, c);
    forall k | 0 <= k < |s.cur| && s.cur[k] >= 0
      ensures LockKept(s, s', k)
    {
      assert CpuOk(s, k);
    }
    CpuStay(s, s');
  }

  lemma TameWoken(s: State, chan: Chan)
    requires CpuInv(s)
    ensures forall q :: 0 <= q < |s.t| ==> Tame(s.t[q], Woken(s.t, chan)[q], q, IsSaved(s.pc[q]))
  {
    forall q | 0 <= q < |s.t| ensures Tame(s.t[q], Woken(s.t, chan)[q], q, IsSaved(s.pc[q])) {
      assert RunOk(s, q);
    }
  }

  /** One slot changes. */
  lemma TameOne(s: State, q: nat, b: Proc)
    requires CpuInv(s) && q < |s.t| && Tame(s.t[q], b, q, IsSaved(s.pc[q]))
    ensures forall k :: 0 <= k < |s.t| ==> Tame(s.t[k], s.t[q := b][k], k, IsSaved(s.pc[k]))
  {
    forall k | 0 <= k < |s.t| ensures Tame(s.t[k], s.t[q := b][k], k, IsSaved(s.pc[k])) {
      assert RunOk(s, k);
    }
  }

  lemma CpuReap(s: State, c: nat, q: nat)
    requires Inv(s) && Enabled(s, WaitReap(c, q))
    ensures CpuInv(Next(s, WaitReap(c, q)))
  {
    hide CpuInv, FamilyInv, PidInv, HasZombie, FirstZombie, Tame;
    InvParts(s);
    LocalFacts(s, WaitReap(c, q));
    TameReap(s, q);
    CpuLeave(s, c, s.t[q := Reap(s.t[q])]);
    CpuHistory(Leave(s, c, s.t[q := Reap(s.t[q])]), Next(s, WaitReap(c, q)));
  }

  lemma CpuWakeup(s: State, c: nat)
    requires Inv(s) && Enabled(s, DoWakeup(c))
    ensures CpuInv(Next(s, DoWakeup(c)))
  {
    hide CpuInv, FamilyInv, PidInv, Woken, Tame;
    InvParts(s);
    TameWoken(s, Other(s.pc[s.cur[c]].op.address));
    CpuLeave(s, c, Woken(s.t, Other(s.pc[s.cur[c]].op.address)));
  }

  lemma CpuKill(s: State, c: nat, q: nat)
    requires Inv(s) && Enabled(s, KillAt(c, q))
    ensures CpuInv(Next(s, KillAt(c, q)))
  {
    hide CpuInv, FamilyInv, PidInv, FirstPid, Tame;
    InvParts(s);
    LocalFacts(s, KillAt(c, q));
    TameKilled(s, q);
    CpuLeave(s, c, s.t[q := Killed(s.t[q])]);
  }

  lemma CpuPublish(s: State, c: nat)
    requires Inv(s) && Enabled(s, DoPublish(c))
    ensures CpuInv(Next(s, DoPublish(c)))
  {
    hide CpuInv, PidInv, ParentOk, NoneLost, Tame;
    InvParts(s);
    var q := s.fork[s.cur[c]].q;
    assert ForkOk(s, s.cur[c]);
    TamePublish(s, q);
    CpuLeave(s, c, s.t[q := s.t[q].(state := RUNNABLE)]);
    CpuHistory(Leave(s, c, s.t[q := s.t[q].(state := RUNNABLE)]), Next(s, DoPublish(c)));
  }

  /** The scans that find nothing to change. */
  lemma CpuIdle(s: State, e: Event)
    requires Inv(s) && Enabled(s, e) && (e.WaitReturn? || e.KillNone? || e.AllocNone?)
    ensures CpuInv(Next(s, e))
  {
    hide CpuInv, FamilyInv, PidInv, HasZombie, HasChild, Tame;
    InvParts(s);
    TameAll(s);
    CpuLeave(s, e.c, s.t);
  }

  lemma TameAll(s: State)
    requires CpuInv(s)
    ensures forall k :: 0 <= k < |s.t| ==> Tame(s.t[k], s.t[k], k, IsSaved(s.pc[k]))
  {
    forall k | 0 <= k < |s.t| ensures Tame(s.t[k], s.t[k], k, IsSaved(s.pc[k])) {
      TameSame(s, k);
    }
  }

  lemma TameReap(s: State, q: nat)
    requires CpuInv(s) && q < |s.t| && s.t[q].state == ZOMBIE
    ensures forall k :: 0 <= k < |s.t| ==> Tame(s.t[k], s.t[q := Reap(s.t[q])][k], k, IsSaved(s.pc[k]))
  {
    TameOne(s, q, Reap(s.t[q]));
  }

  lemma TameKilled(s: State, q: nat)
    requires CpuInv(s) && q < |s.t|
    ensures forall k :: 0 <= k < |s.t| ==> Tame(s.t[k], s.t[q := Killed(s.t[q])][k], k, IsSaved(s.pc[k]))
  {
    assert RunOk(s, q);
    TameOne(s, q, Killed(s.t[q]));
  }

  lemma TamePublish(s: State, q: nat)
    requires CpuInv(s) && q < |s.t| && s.t[q].state == EMBRYO
    ensures forall k :: 0 <= k < |s.t| ==> Tame(s.t[k], s.t[q := s.t[q].(state := RUNNABLE)][k], k, IsSaved(s.pc[k]))
  {
    assert RunOk(s, q);
    TameOne(s, q, s.t[q].(state := RUNNABLE));
  }

  /** The history and the state of forks have no say in who runs where. */
  lemma CpuHistory(s: State, s': State)
    requires CpuInv(s) && s' == s.(fork := s'.fork, exited := s'.exited, reaped := s'.reaped, nextpid := s'.nextpid)
    requires Shape(s')
    ensures CpuInv(s')
  {
    forall p | 0 <= p < |s'.t| ensures RunOk(s', p) {
      assert RunOk(s, p);
      if s'.t[p].state == RUNNING {
        var c :| OnCpu(s, p, c);
        assert OnCpu(s', p, c);
      }
    }
    forall c | 0 <= c < |s'.cur| ensures CpuOk(s', c) {
      assert CpuOk(s, c);
    }
  }

  /** The slots that the scans find. */
  lemma LocalFacts(s: State, e: Event)
    requires Shape(s) && Enabled(s, e)
    ensures e.WaitReap? ==> e.q < |s.t| && s.t[e.q].state == ZOMBIE && s.t[e.q].parent == s.cur[e.c]
    ensures e.KillAt? ==> e.q < |s.t|
    ensures e.AllocAt? ==> e.q < |s.t| && s.t[e.q].state == UNUSED
  {
  }

  lemma CpuAlloc(s: State, c: nat, q: nat)
    requires Inv(s) && Enabled(s, AllocAt(c, q))
    ensures CpuInv(Next(s, AllocAt(c, q)))
  {
    hide PidInv, FamilyInv;
    var s' := Next(s, AllocAt(c, q));
    assert CpuOk(s, c);
    forall k | 0 <= k < |s.t| ensures Tame(s.t[k], s'.t[k], k, IsSaved(s'.pc[k])) {
      assert RunOk(s, k);
    }
    forall k | 0 <= k < |s.cur| && s.cur[k] >= 0
      ensures LockKept(s, s', k)
    {
      assert CpuOk(s, k);
    }
    CpuStay(s, s');
  }

  /** Steps after which the CPUs run what they ran: only the actor's own place may change. */
  lemma CpuActs(s: State, s': State, c: nat)
    requires CpuInv(s) && Shape(s') && |s'.t| == |s.t| && s'.cur == s.cur && s'.sched == s.sched && c < |s.cur|
    requires s.cur[c] >= 0 && !s.sched[c] && s'.pc == s.pc[s.cur[c] := s'.pc[s.cur[c]]]
    requires s'.lock == c <==> s'.pc[s.cur[c]] != Outside
    requires s'.lock == s.lock || (s.lock < 0 && s'.lock == c)
    requires forall k :: 0 <= k < |s.t| ==> Tame(s.t[k], s'.t[k], k, IsSaved(s'.pc[k]))
    ensures CpuInv(s')
  {
    assert CpuOk(s, c);
    forall k | 0 <= k < |s.cur| && s.cur[k] >= 0 ensures LockKept(s, s', k) {
      assert CpuOk(s, k);
    }
    CpuStay(s, s');
  }

  lemma CpuAcquire(s: State, c: nat, op: Op)
    requires Inv(s) && Enabled(s, Acquire(c, op))
    ensures CpuInv(Next(s, Acquire(c, op)))
  {
    hide PidInv, FamilyInv;
    InvParts(s);
    ActorRuns(s, c);
    forall k | 0 <= k < |s.t| ensures Tame(s.t[k], s.t[k], k, IsSaved(Next(s, Acquire(c, op)).pc[k])) {
      assert RunOk(s, k);
    }
    CpuActs(s, Next(s, Acquire(c, op)), c);
  }

  lemma CpuForking(s: State, e: Event)
    requires Inv(s) && Enabled(s, e) && (e.Link? || e.FailFork?)
    ensures CpuInv(Next(s, e))
  {
    hide PidInv, ParentOk, NoneLost;
    assert CpuOk(s, e.c) && ForkOk(s, s.cur[e.c]);
    forall k | 0 <= k < |s.t| ensures Tame(s.t[k], Next(s, e).t[k], k, IsSaved(s.pc[k])) {
      assert RunOk(s, k);
    }
    CpuActs(s, Next(s, e), e.c);
  }

  lemma CpuResume(s: State, c: nat)
    requires Inv(s) && Enabled(s, Resume(c))
    ensures CpuInv(Next(s, Resume(c)))
  {
    hide PidInv, FamilyInv;
    InvParts(s);
    ActorRuns(s, c);
    var s' := Next(s, Resume(c));
    forall k | 0 <= k < |s.t| ensures Tame(s.t[k], s'.t[k], k, IsSaved(s'.pc[k])) {
      assert RunOk(s, k);
    }
    if At(s, c, ToWait) {
      CpuActs(s, s', c);
    } else {
      TameOne(s, s.cur[c], s.t[s.cur[c]].(chan := NoChan));
      CpuLeave(s, c, s'.t);
    }
  }

  lemma CpuInterrupt(s: State, c: nat, address: nat)
    requires Inv(s) && Enabled(s, Interrupt(c, address))
    ensures CpuInv(Next(s, Interrupt(c, address)))
  {
    hide PidInv, FamilyInv, Woken, Tame;
    InvParts(s);
    TameWoken(s, Other(address));
    forall k | 0 <= k < |s.cur| && s.cur[k] >= 0 ensures LockKept(s, Next(s, Interrupt(c, address)), k) {
      assert CpuOk(s, k);
    }
    CpuStay(s, Next(s, Interrupt(c, address)));
  }

  lemma CpuAways(s: State, e: Event)
    requires Inv(s) && Enabled(s, e) && (e.DoYield? || e.DoSleep? || e.WaitSleep? || e.DoExit?)
    ensures CpuInv(Next(s, e))
  {
    hide PidInv, HasZombie, HasChild, Exited;
    var c, me := e.c, s.cur[e.c];
    assert BusyOk(s, me);
    var t := if e.DoYield? then s.t[me := s.t[me].(state := RUNNABLE)]
             else if e.DoSleep? then s.t[me := s.t[me].(state := SLEEPING, chan := Other(s.pc[me].op.address))]
             else if e.WaitSleep? then s.t[me := s.t[me].(state := SLEEPING, chan := OfProc(me))]
             else Exited(s.t, me, s.init);
    forall q | 0 <= q < |s.t| && q != me ensures Tame(s.t[q], t[q], q, IsSaved(s.pc[q])) {
      assert RunOk(s, q);
      if e.DoExit? {
        ExitedFacts(s.t, me, s.init, q);
      }
    }
    if e.DoExit? {
      ExitedFacts(s.t, me, s.init, me);
    }
    CpuAway(s, c, t, if e.WaitSleep? then ToWait else ToRelease);
    if e.DoExit? {
      CpuHistory(SwitchAway(s, c, t, ToRelease), Next(s, e));
    }
  }

  lemma CpuStep(s: State, e: Event)
    requires Inv(s) && Enabled(s, e)
    ensures CpuInv(Next(s, e))
  {
    hide *;
    InvParts(s);
    match e
    case DoYield(_) => CpuAways(s, e);
    case DoSleep(_) => CpuAways(s, e);
    case WaitSleep(_) => CpuAways(s, e);
    case DoExit(_) => CpuAways(s, e);
    case Back(_) => CpuSched(s, e);
    case SchedAcquire(_) => CpuSched(s, e);
    case SchedRelease(_) => CpuSched(s, e);
    case Dispatch(c, q) => CpuDispatch(s, c, q);
    case AllocAt(c, q) => CpuAlloc(s, c, q);
    case Acquire(c, op) => CpuAcquire(s, c, op);
    case Link(_) => CpuForking(s, e);
    case FailFork(_) => CpuForking(s, e);
    case Resume(c) => CpuResume(s, c);
    case Interrupt(c, a) => CpuInterrupt(s, c, a);
    case WaitReap(c, q) => CpuReap(s, c, q);
    case DoWakeup(c) => CpuWakeup(s, c);
    case KillAt(c, q) => CpuKill(s, c, q);
    case DoPublish(c) => CpuPublish(s, c);
    case _ => CpuIdle(s, e);
  }

  lemma InvParts(s: State)
    requires Inv(s)
    ensures CpuInv(s) && FamilyInv(s) && PidInv(s) && Shape(s)
  {
  }

  // Families

  /** Slot q may change from a to b without changing families or adding a waiter. */
  predicate SameFamily(a: Proc, b: Proc, q: nat) {
    && b.parent == a.parent && (Live(a.state) <==> Live(b.state)) && (a.state == ZOMBIE <==> b.state == ZOMBIE)
    && (a.state == UNUSED <==> b.state == UNUSED) && (AsleepOn(b, OfProc(q)) ==> AsleepOn(a, OfProc(q)))
  }

  lemma FamilyStay(s: State, s': State)
    requires FamilyInv(s) && Shape(s') && |s'.t| == |s.t| && s'.fork == s.fork && s'.init == s.init
    requires forall q :: 0 <= q < |s.t| ==> SameFamily(s.t[q], s'.t[q], q) && BusyOk(s', q)
    ensures FamilyInv(s')
  {
    forall p | 0 <= p < |s'.t| ensures ParentOk(s', p) && NoneLost(s', p) && ForkOk(s', p) {
      assert ParentOk(s, p) && NoneLost(s, p) && ForkOk(s, p);
      assert SameFamily(s.t[p], s'.t[p], p);
      if HasZombie(s'.t, p) {
        var i :| 0 <= i < |s'.t| && ZombieChild(s'.t[i], p);
        assert ZombieChild(s.t[i], p);
      }
    }
  }

  lemma FamilyPlain(s: State, e: Event)
    requires Inv(s) && Enabled(s, e)
    requires e.Acquire? || e.DoYield? || e.DoSleep? || e.WaitReturn? || e.KillAt? || e.KillNone? || e.AllocNone? ||
               e.Resume?
    ensures FamilyInv(Next(s, e))
  {
    hide PidInv, CpuInv, HasZombie, HasChild, ParentOk, NoneLost, ForkOk, FirstPid;
    LocalFacts(s, e);
    ActorRuns(s, e.c);
    var s' := Next(s, e);
    forall q | 0 <= q < |s.t| ensures SameFamily(s.t[q], s'.t[q], q) && BusyOk(s', q) {
      assert BusyOk(s, q);
    }
    FamilyStay(s, s');
  }

  /** A process on a CPU is RUNNING. */
  lemma ActorRuns(s: State, c: nat)
    requires CpuInv(s) && c < |s.cur| && s.cur[c] >= 0 && !s.sched[c]
    ensures s.t[s.cur[c]].state == RUNNING
  {
    assert CpuOk(s, c);
  }

  lemma FamilySched(s: State, e: Event)
    requires Inv(s) && Enabled(s, e) && (e.Back? || e.SchedAcquire? || e.SchedRelease? || e.Dispatch?)
    ensures FamilyInv(Next(s, e))
  {
    hide PidInv, CpuInv, HasZombie, ParentOk, NoneLost, ForkOk;
    InvParts(s);
    var s' := Next(s, e);
    forall q | 0 <= q < |s.t| ensures SameFamily(s.t[q], s'.t[q], q) && BusyOk(s', q) {
      assert BusyOk(s, q);
    }
    FamilyStay(s, s');
  }

  lemma FamilyWake(s: State, e: Event)
    requires Inv(s) && Enabled(s, e) && (e.DoWakeup? || e.Interrupt?)
    ensures FamilyInv(Next(s, e))
  {
    hide PidInv, CpuInv, HasZombie, ParentOk, NoneLost;
    var s' := Next(s, e);
    forall q | 0 <= q < |s.t| ensures SameFamily(s.t[q], s'.t[q], q) && BusyOk(s', q) {
      assert BusyOk(s, q);
    }
    FamilyStay(s, s');
  }

  lemma FamilyWaitSleep(s: State, c: nat)
    requires Inv(s) && Enabled(s, WaitSleep(c))
    ensures FamilyInv(Next(s, WaitSleep(c)))
  {
    hide PidInv, HasChild;
    var s', me := Next(s, WaitSleep(c)), s.cur[c];
    assert CpuOk(s, c) && BusyOk(s, me);
    forall p | 0 <= p < |s'.t| ensures ParentOk(s', p) && NoneLost(s', p) && ForkOk(s', p) && BusyOk(s', p) {
      assert ParentOk(s, p) && NoneLost(s, p) && ForkOk(s, p) && BusyOk(s, p);
      if HasZombie(s'.t, p) {
        var i :| 0 <= i < |s'.t| && ZombieChild(s'.t[i], p);
        assert ZombieChild(s.t[i], p);
      }
    }
  }

  /** A reaped child was a zombie, so it was nobody's parent. */
  lemma FamilyReap(s: State, c: nat, q: nat)
    requires Inv(s) && Enabled(s, WaitReap(c, q))
    ensures FamilyInv(Next(s, WaitReap(c, q)))
  {
    hide PidInv, CpuInv;
    LocalFacts(s, WaitReap(c, q));
    var s' := Next(s, WaitReap(c, q));
    forall p | 0 <= p < |s'.t| ensures ParentOk(s', p) && NoneLost(s', p) && ForkOk(s', p) && BusyOk(s', p) {
      assert ParentOk(s, p) && NoneLost(s, p) && ForkOk(s, p) && BusyOk(s, p);
      if HasZombie(s'.t, p) {
        var i :| 0 <= i < |s'.t| && ZombieChild(s'.t[i], p);
        assert ZombieChild(s.t[i], p);
      }
    }
  }

  /** A zombie child stays one back in time, when no slot becomes a zombie or changes parents but q. */
  lemma ZombieBack(t: Table, t': Table, q: nat, p: int)
    requires |t| == |t'| && q < |t| && t' == t[q := t'[q]] && t'[q].state != ZOMBIE && HasZombie(t', p)
    ensures HasZombie(t, p)
  {
    var i :| 0 <= i < |t'| && ZombieChild(t'[i], p);
    assert ZombieChild(t[i], p);
  }

  lemma FamilyAlloc(s: State, c: nat, q: nat)
    requires Inv(s) && Enabled(s, AllocAt(c, q))
    ensures FamilyInv(Next(s, AllocAt(c, q)))
  {
    hide PidInv, CpuInv, HasZombie, FirstUnused;
    LocalFacts(s, AllocAt(c, q));
    ActorRuns(s, c);
    var s', me := Next(s, AllocAt(c, q)), s.cur[c];
    assert BusyOk(s, me) && ParentOk(s, q) && ParentOk(s, me);
    forall p | 0 <= p < |s'.t| ensures ParentOk(s', p) && NoneLost(s', p) && ForkOk(s', p) && BusyOk(s', p) {
      assert ParentOk(s, p) && NoneLost(s, p) && ForkOk(s, p) && BusyOk(s, p);
      if HasZombie(s'.t, p) {
        ZombieBack(s.t, s'.t, q, p);
      }
    }
    forall p, k, x: nat | 0 <= p < |s.t| && 0 <= k < |s.t| && Fills(s'.fork[p], x) && Fills(s'.fork[k], x)
      ensures p == k
    {
      assert ForkOk(s, p) && ForkOk(s, k);
    }
  }

  lemma FamilyLink(s: State, c: nat)
    requires Inv(s) && Enabled(s, Link(c))
    ensures FamilyInv(Next(s, Link(c)))
  {
    hide PidInv, CpuInv, HasZombie;
    ActorRuns(s, c);
    var s', me, q := Next(s, Link(c)), s.cur[c], s.fork[s.cur[c]].q;
    assert ForkOk(s, me) && Fills(s.fork[me], q);
    forall p | 0 <= p < |s'.t| ensures ParentOk(s', p) && NoneLost(s', p) && ForkOk(s', p) && BusyOk(s', p) {
      assert ParentOk(s, p) && NoneLost(s, p) && ForkOk(s, p) && BusyOk(s, p);
      if HasZombie(s'.t, p) {
        ZombieBack(s.t, s'.t, q, p);
      }
      if p != me && !s.fork[p].NoFork? {
        assert Fills(s.fork[p], s.fork[p].q);
      }
    }
    forall p, k, x: nat | 0 <= p < |s.t| && 0 <= k < |s.t| && Fills(s'.fork[p], x) && Fills(s'.fork[k], x)
      ensures p == k
    {
      assert Fills(s.fork[p], x) && Fills(s.fork[k], x);
    }
  }

  lemma FamilyFail(s: State, c: nat)
    requires Inv(s) && Enabled(s, FailFork(c))
    ensures FamilyInv(Next(s, FailFork(c)))
  {
    hide PidInv, CpuInv, HasZombie;
    ActorRuns(s, c);
    var s', me, q := Next(s, FailFork(c)), s.cur[c], s.fork[s.cur[c]].q;
    assert ForkOk(s, me) && Fills(s.fork[me], q);
    forall p | 0 <= p < |s'.t| ensures ParentOk(s', p) && NoneLost(s', p) && ForkOk(s', p) && BusyOk(s', p) {
      assert ParentOk(s, p) && NoneLost(s, p) && ForkOk(s, p) && BusyOk(s, p);
      if HasZombie(s'.t, p) {
        ZombieBack(s.t, s'.t, q, p);
      }
      if p != me && !s.fork[p].NoFork? {
        assert Fills(s.fork[p], s.fork[p].q);
      }
    }
    forall p, k, x: nat | 0 <= p < |s.t| && 0 <= k < |s.t| && Fills(s'.fork[p], x) && Fills(s'.fork[k], x)
      ensures p == k
    {
      assert Fills(s.fork[p], x) && Fills(s.fork[k], x);
    }
  }

  lemma FamilyPublish(s: State, c: nat)
    requires Inv(s) && Enabled(s, DoPublish(c))
    ensures FamilyInv(Next(s, DoPublish(c)))
  {
    hide PidInv, CpuInv, HasZombie;
    ActorRuns(s, c);
    var s', me, q := Next(s, DoPublish(c)), s.cur[c], s.fork[s.cur[c]].q;
    assert ForkOk(s, me) && Fills(s.fork[me], q);
    forall p | 0 <= p < |s'.t| ensures ParentOk(s', p) && NoneLost(s', p) && ForkOk(s', p) && BusyOk(s', p) {
      assert ParentOk(s, p) && NoneLost(s, p) && ForkOk(s, p) && BusyOk(s, p);
      if HasZombie(s'.t, p) {
        ZombieBack(s.t, s'.t, q, p);
      }
      if p != me && !s.fork[p].NoFork? {
        assert Fills(s.fork[p], s.fork[p].q);
      }
    }
    forall p, k, x: nat | 0 <= p < |s.t| && 0 <= k < |s.t| && Fills(s'.fork[p], x) && Fills(s'.fork[k], x)
      ensures p == k
    {
      assert Fills(s.fork[p], x) && Fills(s.fork[k], x);
    }
  }

  /** Slot q after me has exited. */
  ghost predicate ExitedAs(s: State, s': State, me: nat, q: nat) {
    && q < |s.t| == |s'.t| && me < |s.t|
    && s'.t[q].parent == (if s.t[q].parent == me then s.init else s.t[q].parent)
    && s'.t[q].chan == s.t[q].chan
    && (q == me ==> s'.t[q].state == ZOMBIE)
    && (q != me ==> s'.t[q].state == s.t[q].state || (s.t[q].state == SLEEPING && s'.t[q].state == RUNNABLE))
    && (q != me && s.t[me].parent >= 0 ==> !AsleepOn(s'.t[q], OfProc(s.t[me].parent)))
    && (q != me && HasZombie(s.t, me) ==> !AsleepOn(s'.t[q], OfProc(s.init)))
  }

  /** me leaves: it is not init, and not in a fork. */
  ghost predicate Leaving(s: State, s': State, me: nat) {
    && FamilyInv(s) && Shape(s') && s'.fork == s.fork && s'.init == s.init && |s'.t| == |s.t|
    && me < |s.t| && me != s.init && s.t[me].state == RUNNING && s.fork[me].NoFork?
    && forall q :: 0 <= q < |s.t| ==> ExitedAs(s, s', me, q)
  }

  lemma ExitParents(s: State, s': State, me: nat, p: nat)
    requires Leaving(s, s', me) && p < |s.t|
    ensures ParentOk(s', p) && ForkOk(s', p)
  {
    hide HasZombie, NoneLost;
    assert ParentOk(s, p) && ForkOk(s, p) && ParentOk(s, me);
    assert ExitedAs(s, s', me, p) && ExitedAs(s, s', me, s.init);
    if 0 <= s.t[p].parent < |s.t| {
      assert ExitedAs(s, s', me, s.t[p].parent);
    }
    if !s.fork[p].NoFork? {
      assert ExitedAs(s, s', me, s.fork[p].q);
    }
  }

  /** The wakeups in exit: whoever sleeps in wait afterwards has no zombie child, old or new. */
  lemma ExitNoneLost(s: State, s': State, me: nat, p: nat)
    requires Leaving(s, s', me) && p < |s.t|
    ensures NoneLost(s', p)
  {
    assert ExitedAs(s, s', me, p) && NoneLost(s, p) && ParentOk(s, me);
    if AsleepOn(s'.t[p], OfProc(p)) && HasZombie(s'.t, p) {
      var i :| 0 <= i < |s'.t| && ZombieChild(s'.t[i], p);
      assert ExitedAs(s, s', me, i);
      if i != me {
        assert ZombieChild(s.t[i], s.t[i].parent);
      }
      assert false;
    }
  }

  lemma FamilyExit(s: State, c: nat)
    requires Inv(s) && Enabled(s, DoExit(c))
    ensures FamilyInv(Next(s, DoExit(c)))
  {
    hide PidInv, Exited, HasZombie, ParentOk, NoneLost, ForkOk;
    var s', me := Next(s, DoExit(c)), s.cur[c];
    assert CpuOk(s, c) && BusyOk(s, me);
    forall q | 0 <= q < |s.t| ensures ExitedAs(s, s', me, q) {
      ExitedFacts(s.t, me, s.init, q);
    }
    forall p | 0 <= p < |s'.t| ensures ParentOk(s', p) && NoneLost(s', p) && ForkOk(s', p) && BusyOk(s', p) {
      assert BusyOk(s, p);
      ExitParents(s, s', me, p);
      ExitNoneLost(s, s', me, p);
    }
    assert ExitedAs(s, s', me, s.init);
  }

  lemma FamilyStep(s: State, e: Event)
    requires Inv(s) && Enabled(s, e)
    ensures FamilyInv(Next(s, e))
  {
    hide *;
    InvParts(s);
    match e
    case DoWakeup(_) => FamilyWake(s, e);
    case Interrupt(_, _) => FamilyWake(s, e);
    case WaitSleep(c) => FamilyWaitSleep(s, c);
    case WaitReap(c, q) => FamilyReap(s, c, q);
    case AllocAt(c, q) => FamilyAlloc(s, c, q);
    case Link(c) => FamilyLink(s, c);
    case FailFork(c) => FamilyFail(s, c);
    case DoPublish(c) => FamilyPublish(s, c);
    case DoExit(c) => FamilyExit(s, c);
    case Back(_) => FamilySched(s, e);
    case SchedAcquire(_) => FamilySched(s, e);
    case SchedRelease(_) => FamilySched(s, e);
    case Dispatch(_, _) => FamilySched(s, e);
    case _ => FamilyPlain(s, e);
  }

  // Process identifiers

  predicate SamePid(a: Proc, b: Proc) {
    && b.pid == a.pid && (a.state == ZOMBIE <==> b.state == ZOMBIE)
    && (Live(b.state) || b.state == EMBRYO ==> Live(a.state) || a.state == EMBRYO)
  }

  lemma PidStay(s: State, s': State)
    requires PidInv(s) && Shape(s') && |s'.t| == |s.t| && s'.nextpid == s.nextpid && s'.exited == s.exited &&
             s'.reaped == s.reaped
    requires forall q :: 0 <= q < |s.t| ==> SamePid(s.t[q], s'.t[q])
    ensures PidInv(s')
  {
    forall p | 0 <= p < |s'.t| ensures PidOk(s', p) {
      assert PidOk(s, p) && SamePid(s.t[p], s'.t[p]);
    }
    forall k | k in s'.exited && k !in s'.reaped
      ensures exists p :: 0 <= p < |s'.t| && s'.t[p].state == ZOMBIE && s'.t[p].pid == k
    {
      var p :| 0 <= p < |s.t| && s.t[p].state == ZOMBIE && s.t[p].pid == k;
      assert SamePid(s.t[p], s'.t[p]);
    }
  }

  lemma PidPlain(s: State, e: Event)
    requires Inv(s) && Enabled(s, e)
    requires e.Acquire? || e.DoYield? || e.DoSleep? || e.WaitReturn? || e.WaitSleep? || e.KillAt? || e.KillNone?
             || e.AllocNone? || e.Resume?
    ensures PidInv(Next(s, e))
  {
    hide PidInv, CpuInv, FamilyInv, HasZombie, HasChild, FirstPid;
    InvParts(s);
    LocalFacts(s, e);
    ActorRuns(s, e.c);
    PidStay(s, Next(s, e));
  }

  lemma PidFork(s: State, e: Event)
    requires Inv(s) && Enabled(s, e) && (e.Link? || e.FailFork? || e.DoPublish?)
    ensures PidInv(Next(s, e))
  {
    hide PidInv, CpuInv, HasZombie, ParentOk, NoneLost;
    InvParts(s);
    assert ForkOk(s, s.cur[e.c]);
    PidStay(s, Next(s, e));
  }

  lemma PidSched(s: State, e: Event)
    requires Inv(s) && Enabled(s, e) &&
             (e.DoWakeup? || e.Interrupt? || e.Back? || e.SchedAcquire? || e.SchedRelease? || e.Dispatch?)
    ensures PidInv(Next(s, e))
  {
    hide PidInv, CpuInv, FamilyInv;
    InvParts(s);
    PidStay(s, Next(s, e));
  }

  lemma PidReap(s: State, c: nat, q: nat)
    requires Inv(s) && Enabled(s, WaitReap(c, q))
    ensures PidInv(Next(s, WaitReap(c, q)))
  {
    hide CpuInv, FamilyInv;
    LocalFacts(s, WaitReap(c, q));
    var s' := Next(s, WaitReap(c, q));
    assert PidOk(s, q);
    forall p | 0 <= p < |s'.t| ensures PidOk(s', p) {
      assert PidOk(s, p);
    }
    forall k | k in s'.exited && k !in s'.reaped
      ensures exists p :: 0 <= p < |s'.t| && s'.t[p].state == ZOMBIE && s'.t[p].pid == k
    {
      assert s'.reaped[|s.reaped|] == s.t[q].pid;
      assert k !in s.reaped && k != s.t[q].pid;
      var p :| 0 <= p < |s.t| && s.t[p].state == ZOMBIE && s.t[p].pid == k;
      assert s'.t[p].state == ZOMBIE;
    }
  }

  lemma PidExit(s: State, c: nat)
    requires Inv(s) && Enabled(s, DoExit(c))
    ensures PidInv(Next(s, DoExit(c)))
  {
    hide Exited, ParentOk, NoneLost;
    var s', me := Next(s, DoExit(c)), s.cur[c];
    assert CpuOk(s, c) && BusyOk(s, me) && PidOk(s, me);
    forall p | 0 <= p < |s'.t|
      ensures PidOk(s', p) && s'.t[p].pid == s.t[p].pid && (s.t[p].state == ZOMBIE ==> s'.t[p].state == ZOMBIE)
      ensures s'.t[me].state == ZOMBIE
    {
      ExitedFacts(s.t, me, s.init, p);
      ExitedFacts(s.t, me, s.init, me);
      assert PidOk(s, p);
    }
    forall k | k in s'.exited && k !in s'.reaped
      ensures exists p :: 0 <= p < |s'.t| && s'.t[p].state == ZOMBIE && s'.t[p].pid == k
    {
      if k == s.t[me].pid {
        assert s'.t[me].state == ZOMBIE && s'.t[me].pid == k;
      } else {
        var p :| 0 <= p < |s.t| && s.t[p].state == ZOMBIE && s.t[p].pid == k;
        assert s'.t[p].state == ZOMBIE;
      }
    }
  }

  lemma PidAlloc(s: State, c: nat, q: nat)
    requires Inv(s) && Enabled(s, AllocAt(c, q))
    ensures PidInv(Next(s, AllocAt(c, q)))
  {
    hide CpuInv, FamilyInv;
    LocalFacts(s, AllocAt(c, q));
    var s' := Next(s, AllocAt(c, q));
    assert s.nextpid !in s.exited;
    forall p | 0 <= p < |s'.t| ensures PidOk(s', p) {
      assert PidOk(s, p);
    }
    forall p, k | 0 <= p < |s'.t| && 0 <= k < |s'.t| && s'.t[p].pid == s'.t[k].pid > 0 ensures p == k {
      assert PidOk(s, p) && PidOk(s, k);
    }
    forall k | k in s'.exited && k !in s'.reaped
      ensures exists p :: 0 <= p < |s'.t| && s'.t[p].state == ZOMBIE && s'.t[p].pid == k
    {
      var p :| 0 <= p < |s.t| && s.t[p].state == ZOMBIE && s.t[p].pid == k;
      assert s'.t[p].state == ZOMBIE;
    }
  }

  lemma PidStep(s: State, e: Event)
    requires Inv(s) && Enabled(s, e)
    ensures PidInv(Next(s, e))
  {
    hide *;
    InvParts(s);
    match e
    case WaitReap(c, q) => PidReap(s, c, q);
    case DoExit(c) => PidExit(s, c);
    case AllocAt(c, q) => PidAlloc(s, c, q);
    case Link(_) => PidFork(s, e);
    case FailFork(_) => PidFork(s, e);
    case DoPublish(_) => PidFork(s, e);
    case DoWakeup(_) => PidSched(s, e);
    case Interrupt(_, _) => PidSched(s, e);
    case Back(_) => PidSched(s, e);
    case SchedAcquire(_) => PidSched(s, e);
    case SchedRelease(_) => PidSched(s, e);
    case Dispatch(_, _) => PidSched(s, e);
    case _ => PidPlain(s, e);
  }

  lemma StepInv(s: State, e: Event)
    requires Inv(s) && Enabled(s, e)
    ensures Inv(Next(s, e))
  {
    CpuStep(s, e);
    FamilyStep(s, e);
    PidStep(s, e);
  }

  // Whole runs

  /** After userinit: init is the only process, runnable, and every CPU is in its scheduler. */
  predicate Init(s: State) {
    && Shape(s) && s.lock < 0 && s.exited == {} && s.reaped == [] && s.nextpid == 2
    && (forall c :: 0 <= c < |s.cur| ==> s.cur[c] < 0 && s.sched[c])
    && (forall p :: 0 <= p < |s.t| ==>
          && s.fork[p] == NoFork && s.pc[p] == ToRelease
          && s.t[p].parent == -1 && s.t[p].chan == NoChan && !s.t[p].killed
          && s.t[p].state == (if p == s.init then RUNNABLE else UNUSED) && s.t[p].pid == if p == s.init then 1 else 0)
  }

  lemma InitInv(s: State)
    requires Init(s)
    ensures Inv(s)
  {
  }

  ghost predicate Run(s: State, es: seq<Event>, s': State)
    decreases |es|
  {
    if es == [] then s == s' else Shape(s) && Enabled(s, es[0]) && Run(Next(s, es[0]), es[1..], s')
  }

  /** Every run on any number of CPUs keeps the invariant. */
  lemma {:induction false} RunInv(s: State, es: seq<Event>, s': State)
    requires Inv(s) && Run(s, es, s')
    ensures Inv(s')
    decreases |es|
  {
    hide CpuInv, FamilyInv, PidInv;
    if es != [] {
      StepInv(s, es[0]);
      RunInv(Next(s, es[0]), es[1..], s');
    }
  }

  /** While ptable.lock is free, a process is RUNNING exactly when it is current on a CPU, and then on one only. */
  lemma OneCpu(s: State, p: nat)
    requires Inv(s) && s.lock < 0 && p < |s.t|
    ensures s.t[p].state == RUNNING <==> exists c :: 0 <= c < |s.cur| && s.cur[c] == p
    ensures forall c, k :: 0 <= c < |s.cur| && 0 <= k < |s.cur| && s.cur[c] == p && s.cur[k] == p ==> c == k
  {
    assert RunOk(s, p);
    if s.t[p].state == RUNNING {
      var c: nat :| OnCpu(s, p, c);
      assert s.cur[c] == p;
    }
    if c :| 0 <= c < |s.cur| && s.cur[c] == p {
      assert CpuOk(s, c);
    }
  }

  /** wait frees the stack and the page table of a process that is on no CPU and that nobody else will free. */
  lemma ReapSafe(s: State, c: nat, q: nat)
    requires Inv(s) && Enabled(s, WaitReap(c, q))
    ensures forall k :: 0 <= k < |s.cur| ==> s.cur[k] != q
    ensures s.t[q].pid in s.exited && s.t[q].pid !in s.reaped
  {
    LocalFacts(s, WaitReap(c, q));
    assert PidOk(s, q);
    forall k | 0 <= k < |s.cur| ensures s.cur[k] != q {
      assert CpuOk(s, k) && CpuOk(s, c);
    }
  }

  /** No wakeup is lost: in every state of every run, a process asleep in wait has no zombie child, and every
      process that has one can find it: it is alive. */
  lemma RunNoLostWakeup(s: State, es: seq<Event>, s': State, p: nat, q: nat)
    requires Init(s) && Run(s, es, s') && p < |s'.t| && q < |s'.t|
    ensures AsleepOn(s'.t[p], OfProc(p)) ==> !ZombieChild(s'.t[q], p)
    ensures s'.t[q].state == ZOMBIE ==> q != s'.init && 0 <= s'.t[q].parent < |s'.t| && Live(s'.t[s'.t[q].parent].state)
    ensures Live(s'.t[q].state) && q != s'.init ==> 0 <= s'.t[q].parent < |s'.t| && Live(s'.t[s'.t[q].parent].state)
  {
    InitInv(s);
    RunInv(s, es, s');
    assert NoneLost(s', p) && ParentOk(s', q);
  }

  /** Every process that has exited is either still a zombie, in one slot, or has been reaped, once. */
  lemma RunReapedOnce(s: State, es: seq<Event>, s': State, k: nat)
    requires Init(s) && Run(s, es, s')
    ensures k in s'.exited && k !in s'.reaped <==>
              exists p :: 0 <= p < |s'.t| && s'.t[p].state == ZOMBIE && s'.t[p].pid == k
    ensures forall p, q :: 0 <= p < |s'.t| && 0 <= q < |s'.t| && s'.t[p].state == s'.t[q].state == ZOMBIE ==>
              s'.t[p].pid == s'.t[q].pid ==> p == q
    ensures k in s'.reaped ==> k in s'.exited
    ensures forall i, j :: 0 <= i < j < |s'.reaped| ==> s'.reaped[i] != s'.reaped[j]
  {
    hide Inv, Init, Run;
    InitInv(s);
    RunInv(s, es, s');
    ZombieUnreaped(s', k);
  }

  lemma ZombieUnreaped(s: State, k: nat)
    requires Inv(s)
    ensures k in s.exited && k !in s.reaped <==> exists p :: 0 <= p < |s.t| && s.t[p].state == ZOMBIE && s.t[p].pid == k
    ensures forall p, q :: 0 <= p < |s.t| && 0 <= q < |s.t| && s.t[p].state == s.t[q].state == ZOMBIE ==>
              s.t[p].pid == s.t[q].pid ==> p == q
    ensures k in s.reaped ==> k in s.exited
    ensures forall i, j :: 0 <= i < j < |s.reaped| ==> s.reaped[i] != s.reaped[j]
  {
    hide CpuInv, FamilyInv;
    if p :| 0 <= p < |s.t| && s.t[p].state == ZOMBIE && s.t[p].pid == k {
      assert PidOk(s, p);
    }
    forall p | 0 <= p < |s.t| && s.t[p].state == ZOMBIE ensures s.t[p].pid > 0 {
      assert PidOk(s, p);
    }
  }

  // What becomes of a process

  /** The step is an action of process q on its CPU. */
  predicate ActsIn(s: State, e: Event, q: nat)
    requires Shape(s)
  {
    e.c < |s.cur| && s.cur[e.c] == q
  }

  /** A sleeper q is woken: by wakeup or an interrupt on the address it sleeps on, by kill, or by an exit. */
  ghost predicate Wakes(s: State, e: Event, q: nat)
    requires Shape(s) && Enabled(s, e) && q < |s.t|
  {
    match e
    case DoWakeup(c) => s.t[q].chan == Other(s.pc[s.cur[c]].op.address)
    case Interrupt(_, a) => s.t[q].chan == Other(a)
    case KillAt(_, p) => p == q
    case DoExit(c) => ExitWakes(s.t, s.cur[c], s.init, q)
    case _ => false
  }

  /** The state that process q is in after the step, from the state it was in. */
  ghost function StateAfter(s: State, e: Event, q: nat): (st: PState)
    requires Shape(s) && Enabled(s, e) && q < |s.t|
  {
    match s.t[q].state
    case UNUSED => if e.AllocAt? && e.q == q then EMBRYO else UNUSED
    case EMBRYO =>
      if e.DoPublish? && s.fork[s.cur[e.c]] == Linked(q) then RUNNABLE
      else if e.FailFork? && s.fork[s.cur[e.c]] == Got(q) then UNUSED else EMBRYO
    case SLEEPING => if Wakes(s, e, q) then RUNNABLE else SLEEPING
    case RUNNABLE => if e.Dispatch? && e.q == q then RUNNING else RUNNABLE
    case RUNNING =>
      if !ActsIn(s, e, q) then RUNNING else if e.DoYield? then RUNNABLE
      else if e.DoSleep? || e.WaitSleep? then SLEEPING else if e.DoExit? then ZOMBIE else RUNNING
    case ZOMBIE => if e.WaitReap? && e.q == q then UNUSED else ZOMBIE
  }

  /** What it sleeps on after the step. */
  function ChanAfter(s: State, e: Event, q: nat): (chan: Chan)
    requires Shape(s) && q < |s.t|
  {
    if !ActsIn(s, e, q) then s.t[q].chan
    else if e.DoSleep? && s.pc[q].Inside? && s.pc[q].op.Sleep? then Other(s.pc[q].op.address)
    else if e.WaitSleep? then OfProc(q) else if e.Resume? then NoChan else s.t[q].chan
  }

  /** Its parent after the step. */
  function ParentAfter(s: State, e: Event, q: nat): (parent: int)
    requires Shape(s) && q < |s.t|
  {
    if e.WaitReap? && e.q == q then -1
    else if e.DoExit? && e.c < |s.cur| && s.t[q].parent == s.cur[e.c] then s.init
    else if e.Link? && e.c < |s.cur| && s.cur[e.c] >= 0 && s.fork[s.cur[e.c]] == Got(q) then s.cur[e.c]
    else s.t[q].parent
  }

  ghost predicate Became(s: State, e: Event, q: nat)
    requires Shape(s) && Enabled(s, e) && q < |s.t|
  {
    && |Next(s, e).t| == |s.t|
    && var r := Next(s, e).t[q];
    && r.state == StateAfter(s, e, q) && r.chan == ChanAfter(s, e, q) && r.parent == ParentAfter(s, e, q)
    && r.killed == ((s.t[q].killed || (e.KillAt? && e.q == q)) && !(e.WaitReap? && e.q == q))
    && r.pid == (if e.AllocAt? && e.q == q then s.nextpid else if e.WaitReap? && e.q == q then 0 else s.t[q].pid)
  }

  lemma BecomesScanned(s: State, e: Event, q: nat)
    requires CpuInv(s) && Enabled(s, e) && q < |s.t|
    requires e.WaitReap? || e.KillAt? || e.AllocAt?
    ensures Became(s, e, q)
  {
  }

  lemma BecomesWoken(s: State, e: Event, q: nat)
    requires CpuInv(s) && Enabled(s, e) && q < |s.t| && (e.DoWakeup? || e.Interrupt?)
    ensures Became(s, e, q)
  {
  }

  lemma BecomesAway(s: State, e: Event, q: nat)
    requires CpuInv(s) && Enabled(s, e) && q < |s.t| && (e.DoYield? || e.DoSleep? || e.WaitSleep?)
    ensures Became(s, e, q)
  {
    assert CpuOk(s, e.c);
  }

  lemma BecomesZombie(s: State, c: nat, q: nat)
    requires CpuInv(s) && Enabled(s, DoExit(c)) && q < |s.t|
    ensures Became(s, DoExit(c), q)
  {
    hide Exited;
    assert CpuOk(s, c);
    ExitedAt(s.t, s.cur[c], s.init, q);
  }

  lemma BecomesForked(s: State, e: Event, q: nat)
    requires Shape(s) && Enabled(s, e) && q < |s.t| && (e.Link? || e.FailFork? || e.DoPublish?)
    requires ForkOk(s, s.cur[e.c])
    ensures Became(s, e, q)
  {
  }

  lemma ForkFacts(s: State, e: Event)
    requires FamilyInv(s) && Enabled(s, e) && (e.Link? || e.FailFork? || e.DoPublish?)
    ensures s.cur[e.c] >= 0 && ForkOk(s, s.cur[e.c])
  {
  }

  lemma BecomesSame(s: State, e: Event, q: nat)
    requires CpuInv(s) && Enabled(s, e) && q < |s.t|
    requires e.Acquire? || e.WaitReturn? || e.KillNone? || e.AllocNone? || e.Back? || e.SchedAcquire? || e.SchedRelease?
    ensures Became(s, e, q)
  {
    hide Next, Enabled;
    IdleTable(s, e);
  }

  lemma IdleTable(s: State, e: Event)
    requires Shape(s) && Enabled(s, e)
    requires e.Acquire? || e.WaitReturn? || e.KillNone? || e.AllocNone? || e.Back? || e.SchedAcquire? || e.SchedRelease?
    ensures Next(s, e).t == s.t
  {
  }

  lemma BecomesRunning(s: State, e: Event, q: nat)
    requires CpuInv(s) && Enabled(s, e) && q < |s.t| && (e.Resume? || e.Dispatch?)
    ensures Became(s, e, q)
  {
    if e.Resume? {
      assert CpuOk(s, e.c);
    }
  }

  /** Process by process, what every step does, and that it does nothing else. */
  lemma WhatBecomes(s: State, e: Event, q: nat)
    requires Inv(s) && Enabled(s, e) && q < |s.t|
    ensures |Next(s, e).t| == |s.t|
    ensures Next(s, e).t[q].state == StateAfter(s, e, q)
    ensures Next(s, e).t[q].chan == ChanAfter(s, e, q)
    ensures Next(s, e).t[q].parent == ParentAfter(s, e, q)
    ensures Next(s, e).t[q].killed == ((s.t[q].killed || (e.KillAt? && e.q == q)) && !(e.WaitReap? && e.q == q))
    ensures Next(s, e).t[q].pid ==
            if e.AllocAt? && e.q == q then s.nextpid else if e.WaitReap? && e.q == q then 0 else s.t[q].pid
  {
    hide Next, StateAfter, ChanAfter, ParentAfter, Enabled, CpuInv, FamilyInv, PidInv;
    InvParts(s);
    if e.WaitReap? || e.KillAt? || e.AllocAt? {
      BecomesScanned(s, e, q);
    } else if e.DoWakeup? || e.Interrupt? {
      BecomesWoken(s, e, q);
    } else if e.Resume? || e.Dispatch? {
      BecomesRunning(s, e, q);
    } else if e.DoYield? || e.DoSleep? || e.WaitSleep? {
      BecomesAway(s, e, q);
    } else if e.DoExit? {
      BecomesZombie(s, e.c, q);
    } else if e.Link? || e.FailFork? || e.DoPublish? {
      ForkFacts(s, e);
      BecomesForked(s, e, q);
    } else {
      BecomesSame(s, e, q);
    }
  }

  /** kill leaves nobody asleep whom it has found. */
  lemma KillWakes(s: State, c: nat, q: nat)
    requires Inv(s) && Enabled(s, KillAt(c, q))
    ensures var r := Next(s, KillAt(c, q)).t[q]; r.killed && r.state != SLEEPING
  {
    WhatBecomes(s, KillAt(c, q), q);
  }

  /** wakeup, by a process or an interrupt, leaves nobody asleep on its address, and wakes nobody else. */
  lemma WakeupExactly(s: State, e: Event, address: nat, q: nat)
    requires Inv(s) && Enabled(s, e) && q < |s.t|
    requires (e.DoWakeup? && s.pc[s.cur[e.c]].op == Wakeup(address)) || (e.Interrupt? && e.address == address)
    ensures var r := Next(s, e).t[q];
            && !(r.state == SLEEPING && r.chan == Other(address))
            && (s.t[q].state == SLEEPING && s.t[q].chan == Other(address) <==> r != s.t[q])
            && (r != s.t[q] ==> r == s.t[q].(state := RUNNABLE))
  {
    WhatBecomes(s, e, q);
  }

  /** What process p sleeps on, or has been woken from, goes with where it will go on: with wait's scan exactly if
      it went to sleep there. Once it goes on, its channel is 0. */
  predicate ChanOk(s: State, p: nat)
    requires Shape(s) && p < |s.t|
  {
    && (s.pc[p] == ToWait ==> s.t[p].chan == OfProc(p))
    && (s.pc[p] == ToRelease ==> !s.t[p].chan.OfProc?)
    && (s.pc[p] == Outside || s.pc[p].Inside? ==> s.t[p].chan == NoChan)
    && (!Live(s.t[p].state) ==> s.pc[p] == ToRelease)
  }

  lemma ChanFork(s: State, e: Event, p: nat)
    requires Shape(s) && Enabled(s, e) && p < |s.t| == |Next(s, e).t| && Shape(Next(s, e)) && ChanOk(s, p)
    requires (e.Link? || e.FailFork? || e.DoPublish?) && ForkOk(s, s.cur[e.c])
    ensures ChanOk(Next(s, e), p)
  {
  }

  lemma ChanExit(s: State, c: nat, p: nat)
    requires CpuInv(s) && Enabled(s, DoExit(c)) && p < |s.t| && ChanOk(s, p) && Shape(Next(s, DoExit(c)))
    ensures ChanOk(Next(s, DoExit(c)), p)
  {
    hide Exited;
    assert CpuOk(s, c);
    ExitedAt(s.t, s.cur[c], s.init, p);
  }

  lemma ChanRest(s: State, e: Event, p: nat)
    requires CpuInv(s) && Enabled(s, e) && Shape(Next(s, e)) && p < |s.t| == |Next(s, e).t| && ChanOk(s, p)
    requires !(e.Link? || e.FailFork? || e.DoPublish? || e.DoExit?)
    ensures ChanOk(Next(s, e), p)
  {
    if e.c < |s.cur| {
      assert CpuOk(s, e.c);
    }
  }

  lemma ChanStep(s: State, e: Event, p: nat)
    requires Inv(s) && Enabled(s, e) && Shape(Next(s, e)) && p < |s.t| == |Next(s, e).t| && ChanOk(s, p)
    ensures ChanOk(Next(s, e), p)
  {
    hide Next, Enabled, ChanOk, CpuInv, FamilyInv, PidInv;
    InvParts(s);
    if e.Link? || e.FailFork? || e.DoPublish? {
      ForkFacts(s, e);
      ChanFork(s, e, p);
    } else if e.DoExit? {
      ChanExit(s, e.c, p);
    } else {
      ChanRest(s, e, p);
    }
  }

  /** In every state of every run: a process that went to sleep in wait looks for zombies again when it wakes up, and
      one that slept elsewhere does not. */
  lemma {:induction false} RunChan(s: State, es: seq<Event>, s': State, p: nat)
    requires Inv(s) && Run(s, es, s') && p < |s.t| && ChanOk(s, p)
    ensures Shape(s') && p < |s'.t| && ChanOk(s', p)
    ensures s'.t[p].state == SLEEPING ==> (s'.pc[p] == ToWait <==> s'.t[p].chan == OfProc(p))
    decreases |es|
  {
    if es == [] {
      assert RunOk(s, p);
    } else {
      StepInv(s, es[0]);
      TableKept(s, es[0]);
      ChanStep(s, es[0], p);
      RunChan(Next(s, es[0]), es[1..], s', p);
    }
  }

  /** No step of the run wakes process q. */
  ghost predicate NeverWoken(s: State, es: seq<Event>, q: nat)
    requires q < |s.t|
    decreases |es|
  {
    es == [] || (Shape(s) && Enabled(s, es[0]) && !Wakes(s, es[0], q) && |Next(s, es[0]).t| == |s.t| &&
                 NeverWoken(Next(s, es[0]), es[1..], q))
  }

  /** A sleeper sleeps on, on the same address, through every run in which nobody wakes it. */
  lemma {:induction false} SleepsOn(s: State, es: seq<Event>, s': State, q: nat)
    requires Inv(s) && Run(s, es, s') && q < |s.t| && s.t[q].state == SLEEPING && NeverWoken(s, es, q)
    ensures q < |s'.t| && s'.t[q].state == SLEEPING && s'.t[q].chan == s.t[q].chan
    decreases |es|
  {
    if es != [] {
      StepInv(s, es[0]);
      WhatBecomes(s, es[0], q);
      SleeperActs(s, es[0], q);
      SleepsOn(Next(s, es[0]), es[1..], s', q);
    }
  }

  lemma SleeperActs(s: State, e: Event, q: nat)
    requires Inv(s) && Enabled(s, e) && q < |s.t| && s.t[q].state == SLEEPING
    ensures ChanAfter(s, e, q) == s.t[q].chan
  {
    if ActsIn(s, e, q) {
      assert CpuOk(s, e.c);
    }
  }

  // kill and slots that are not in use

  /** A slot ready for a new process is not marked killed. */
  predicate CleanSlots(s: State) {
    forall q :: 0 <= q < |s.t| && s.t[q].state == UNUSED ==> !s.t[q].killed
  }

  /** kill finds an unused slot, or a fork fails in a slot that was marked. */
  predicate Dirties(s: State, e: Event)
    requires Shape(s)
  {
    || (e.KillAt? && e.q < |s.t| && s.t[e.q].state == UNUSED)
    || (e.FailFork? && At(s, e.c, Outside) && s.fork[s.cur[e.c]].Got? && s.fork[s.cur[e.c]].q < |s.t| &&
        s.t[s.fork[s.cur[e.c]].q].killed)
  }

  /** allocproc does not clear the killed flag, so a new process starts killed exactly when its slot was marked,
      and only these steps mark one. */
  lemma CleanExactly(s: State, e: Event)
    requires Inv(s) && Enabled(s, e) && CleanSlots(s)
    ensures CleanSlots(Next(s, e)) <==> !Dirties(s, e)
  {
    hide CpuInv, FamilyInv, PidInv, FirstPid;
    InvParts(s);
    if e.DoExit? {
      ExitClean(s, e.c);
    } else if e.KillAt? {
      LocalFacts(s, e);
      assert Next(s, e).t[e.q].killed;
    } else if e.FailFork? {
      assert Next(s, e).t[s.fork[s.cur[e.c]].q].state == UNUSED;
    } else {
      OthersClean(s, e);
    }
  }

  lemma OthersClean(s: State, e: Event)
    requires Shape(s) && Enabled(s, e) && CleanSlots(s) && !e.DoExit? && !e.KillAt? && !e.FailFork?
    ensures CleanSlots(Next(s, e))
  {
    hide HasZombie, HasChild, FirstZombie, FirstUnused;
    LocalFacts(s, e);
  }

  lemma ExitClean(s: State, c: nat)
    requires Inv(s) && Enabled(s, DoExit(c)) && CleanSlots(s)
    ensures CleanSlots(Next(s, DoExit(c)))
  {
    hide PidInv, CpuInv, ParentOk, NoneLost, ForkOk, HasZombie, Exited;
    var s' := Next(s, DoExit(c));
    assert BusyOk(s, s.cur[c]);
    forall q | 0 <= q < |s.t|
      ensures s'.t[q].killed == s.t[q].killed && (s'.t[q].state == UNUSED ==> s.t[q].state == UNUSED)
    {
      ExitedFacts(s.t, s.cur[c], s.init, q);
    }
  }

  /** No step of the run marks a slot that is not in use. */
  ghost predicate CleanEvents(s: State, es: seq<Event>)
    decreases |es|
  {
    es == [] || (Shape(s) && Enabled(s, es[0]) && !Dirties(s, es[0]) && CleanEvents(Next(s, es[0]), es[1..]))
  }

  /** Without such steps no run leaves a marked slot for a new process. */
  lemma {:induction false} CleanRun(s: State, es: seq<Event>, s': State)
    requires Inv(s) && CleanSlots(s) && Run(s, es, s') && CleanEvents(s, es)
    ensures CleanSlots(s')
    decreases |es|
  {
    hide CpuInv, FamilyInv, PidInv, Enabled, Next, CleanSlots;
    if es != [] {
      StepInv(s, es[0]);
      CleanExactly(s, es[0]);
      CleanRun(Next(s, es[0]), es[1..], s');
    }
  }

  /** A mark stays with the slot until wait frees it: neither allocproc nor fork nor the scheduler takes it off. */
  lemma MarkStays(s: State, e: Event, q: nat)
    requires Inv(s) && Enabled(s, e) && q < |s.t| && s.t[q].killed && !(e.WaitReap? && e.q == q)
    ensures q < |Next(s, e).t| && Next(s, e).t[q].killed
  {
    hide PidInv, Exited, HasZombie, ParentOk, NoneLost, ForkOk;
    if e.DoExit? {
      assert CpuOk(s, e.c) && BusyOk(s, s.cur[e.c]);
      ExitedFacts(s.t, s.cur[e.c], s.init, q);
    }
  }

  /** So a process is killed from birth if its slot was marked at any time since the last one there was freed; with no
      marked slot about, it is not. */
  lemma {:induction false} BornKilled(s: State, es: seq<Event>, t: State, c: nat, q: nat)
    requires Inv(s) && Run(s, es, t) && Shape(t) && Enabled(t, AllocAt(c, q)) && q < |s.t|
    ensures q < |t.t| && Inv(t)
    ensures s.t[q].killed && (forall i :: 0 <= i < |es| ==> !(es[i].WaitReap? && es[i].q == q)) ==>
              Next(t, AllocAt(c, q)).t[q].killed
    ensures CleanSlots(t) ==> !Next(t, AllocAt(c, q)).t[q].killed
    decreases |es|
  {
    hide Next, Enabled, Inv, CleanSlots;
    if es == [] {
      BornMarked(t, c, q);
    } else {
      StepInv(s, es[0]);
      TableKept(s, es[0]);
      if s.t[q].killed && !(es[0].WaitReap? && es[0].q == q) {
        MarkStays(s, es[0], q);
      }
      BornKilled(Next(s, es[0]), es[1..], t, c, q);
    }
  }

  lemma BornMarked(s: State, c: nat, q: nat)
    requires Inv(s) && Enabled(s, AllocAt(c, q))
    ensures q < |s.t| && (s.t[q].killed ==> Next(s, AllocAt(c, q)).t[q].killed)
    ensures CleanSlots(s) ==> !Next(s, AllocAt(c, q)).t[q].killed
  {
    LocalFacts(s, AllocAt(c, q));
  }

  lemma TableKept(s: State, e: Event)
    requires Inv(s) && Enabled(s, e)
    ensures |Next(s, e).t| == |s.t|
  {
    hide FamilyInv, PidInv;
  }

  /** kill(0) marks a slot exactly when some slot has pid 0, and then one that is not in use. */
  lemma KillZero(s: State, c: nat)
    requires Inv(s) && s.lock == c && At(s, c, Inside(Kill(0)))
    ensures (exists q: nat :: Enabled(s, KillAt(c, q))) <==> (exists p :: 0 <= p < |s.t| && s.t[p].pid == 0)
    ensures forall q: nat :: Enabled(s, KillAt(c, q)) ==>
              q < |s.t| && s.t[q].state == UNUSED && Dirties(s, KillAt(c, q))
  {
    hide CpuInv, FamilyInv, PidInv;
    InvParts(s);
    if p :| 0 <= p < |s.t| && s.t[p].pid == 0 {
      var q := FirstOf(s.t, 0, p);
      assert Enabled(s, KillAt(c, q));
    }
    forall q: nat | Enabled(s, KillAt(c, q)) ensures q < |s.t| && s.t[q].state == UNUSED && Dirties(s, KillAt(c, q)) {
      ZeroUnused(s, q);
    }
  }

  lemma ZeroUnused(s: State, q: nat)
    requires PidInv(s) && q < |s.t| && s.t[q].pid == 0
    ensures s.t[q].state == UNUSED
  {
    assert PidOk(s, q);
  }

  /** Where a scan for a pid that some slot has comes to a stop. */
  lemma FirstOf(t: Table, pid: nat, p: nat) returns (q: nat)
    requires p < |t| && t[p].pid == pid
    ensures FirstPid(t, pid, q)
  {
    q := 0;
    while t[q].pid != pid
      invariant q <= p && forall j :: 0 <= j < q ==> t[j].pid != pid
      decreases p - q
    {
      q := q + 1;
    }
  }

  // A run in which kill(0) hits a process that does not exist yet

  /** One CPU, and a table of two slots with init in the first. */
  function Solo(a: Proc, b: Proc, pc: Pc, f: Fork, running: bool, lock: int, nextpid: nat): (s: State)
    requires nextpid > 0
    ensures Shape(s)
  {
    State([a, b], [pc, ToRelease], [f, NoFork], [if running then 0 else -1], [!running], lock, nextpid, 0, {}, [])
  }

  function InitProc(st: PState): (p: Proc) {
    Proc(st, 1, -1, NoChan, false)
  }

  lemma RunNone(s: State)
    ensures Run(s, [], s)
  {
  }

  lemma RunFirst(s: State, e: Event, mid: State, es: seq<Event>, t: State)
    requires Shape(s) && Enabled(s, e) && Next(s, e) == mid && Run(mid, es, t)
    ensures Run(s, [e] + es, t)
  {
    assert ([e] + es)[1..] == es;
  }

  /** init is dispatched. */
  lemma SoloStarts()
    ensures var (b, s0) := (CLEARED, Solo(InitProc(RUNNABLE), CLEARED, ToRelease, NoFork, false, -1, 2));
            var s1 := Solo(InitProc(RUNNABLE), b, ToRelease, NoFork, false, 0, 2);
            var s2 := Solo(InitProc(RUNNING), b, ToRelease, NoFork, true, 0, 2);
            && Init(s0) && Enabled(s0, SchedAcquire(0)) && Next(s0, SchedAcquire(0)) == s1
            && Enabled(s1, Dispatch(0, 0)) && Next(s1, Dispatch(0, 0)) == s2
            && Enabled(s2, Resume(0)) && Next(s2, Resume(0)) == Solo(InitProc(RUNNING), b, Outside, NoFork, true, -1, 2)
  {
    var b := CLEARED;
    assert [InitProc(RUNNABLE), b][0 := InitProc(RUNNING)] == [InitProc(RUNNING), b];
    assert [ToRelease, ToRelease][0 := Outside] == [Outside, ToRelease];
  }

  /** It takes the lock for op. */
  lemma SoloAcquires(b: Proc, f: Fork, op: Op, nextpid: nat)
    requires nextpid > 0
    ensures var s := Solo(InitProc(RUNNING), b, Outside, f, true, -1, nextpid);
            Allowed(s, 0, op) ==>
              Enabled(s, Acquire(0, op)) &&
              Next(s, Acquire(0, op)) == Solo(InitProc(RUNNING), b, Inside(op), f, true, 0, nextpid)
  {
    assert [Outside, ToRelease][0 := Inside(op)] == [Inside(op), ToRelease];
  }

  lemma SoloKills()
    ensures var s := Solo(InitProc(RUNNING), CLEARED, Inside(Kill(0)), NoFork, true, 0, 2);
            && Enabled(s, KillAt(0, 1))
            && Next(s, KillAt(0, 1)) == Solo(InitProc(RUNNING), Killed(CLEARED), Outside, NoFork, true, -1, 2)
  {
    assert [Inside(Kill(0)), ToRelease][0 := Outside] == [Outside, ToRelease];
    assert [InitProc(RUNNING), CLEARED][1 := Killed(CLEARED)] == [InitProc(RUNNING), Killed(CLEARED)];
  }

  /** The slot that fork fills. */
  function Marked(st: PState, parent: int): (p: Proc) {
    Proc(st, 2, parent, NoChan, true)
  }

  lemma SoloForks()
    ensures var a := InitProc(RUNNING);
            var s1 := Solo(a, Killed(CLEARED), Inside(Alloc), NoFork, true, 0, 2);
            var s2 := Solo(a, Marked(EMBRYO, -1), Outside, Got(1), true, -1, 3);
            var s3 := Solo(a, Marked(EMBRYO, 0), Outside, Linked(1), true, -1, 3);
            var s4 := Solo(a, Marked(EMBRYO, 0), Inside(Publish), Linked(1), true, 0, 3);
            && Enabled(s1, AllocAt(0, 1)) && Next(s1, AllocAt(0, 1)) == s2
            && Enabled(s2, Link(0)) && Next(s2, Link(0)) == s3
            && Enabled(s4, DoPublish(0))
            && Next(s4, DoPublish(0)) == Solo(a, Marked(RUNNABLE, 0), Outside, NoFork, true, -1, 3)
  {
    var a := InitProc(RUNNING);
    assert [a, Killed(CLEARED)][1 := Marked(EMBRYO, -1)] == [a, Marked(EMBRYO, -1)];
    assert [a, Marked(EMBRYO, -1)][1 := Marked(EMBRYO, 0)] == [a, Marked(EMBRYO, 0)];
    assert [a, Marked(EMBRYO, 0)][1 := Marked(RUNNABLE, 0)] == [a, Marked(RUNNABLE, 0)];
    assert [Inside(Alloc), ToRelease][0 := Outside][1 := ToRelease] == [Outside, ToRelease];
    assert [Inside(Publish), ToRelease][0 := Outside] == [Outside, ToRelease];
    assert [NoFork, NoFork][0 := Got(1)] == [Got(1), NoFork];
    assert [Got(1), NoFork][0 := Linked(1)] == [Linked(1), NoFork];
    assert [Linked(1), NoFork][0 := NoFork] == [NoFork, NoFork];
  }

  /** Every kill in the run is kill(0). */
  predicate OnlyZeroKilled(es: seq<Event>) {
    forall i :: 0 <= i < |es| && es[i].Acquire? && es[i].op.Kill? ==> es[i].op.pid == 0
  }

  /** From boot, init calls kill(0) and then fork: the child is runnable and already killed, though nobody has ever
      named its pid. */
  lemma KilledBeforeBirth()
    ensures exists s: State, es: seq<Event>, t: State ::
              && Init(s) && Run(s, es, t) && OnlyZeroKilled(es)
              && |t.t| == 2 && t.t[1].state == RUNNABLE && t.t[1].pid == 2 && t.t[1].killed
  {
    hide Init, Run, Shape;
    SoloStarts();
    RunStart();
    RunKill();
    RunFork();
    var s0 := Solo(InitProc(RUNNABLE), CLEARED, ToRelease, NoFork, false, -1, 2);
    var s3, s5 := Solo(InitProc(RUNNING), CLEARED, Outside, NoFork, true, -1, 2),
        Solo(InitProc(RUNNING), Killed(CLEARED), Outside, NoFork, true, -1, 2);
    var t := Solo(InitProc(RUNNING), Marked(RUNNABLE, 0), Outside, NoFork, true, -1, 3);
    RunJoin(s0, START, s3, KILL, s5);
    RunJoin(s0, START + KILL, s5, FORK, t);
  }

  const START: seq<Event> := [SchedAcquire(0), Dispatch(0, 0), Resume(0)]
  const KILL: seq<Event> := [Acquire(0, Kill(0)), KillAt(0, 1)]
  const FORK: seq<Event> := [Acquire(0, Alloc), AllocAt(0, 1), Link(0), Acquire(0, Publish), DoPublish(0)]

  lemma {:induction false} RunJoin(s: State, es: seq<Event>, m: State, fs: seq<Event>, t: State)
    requires Run(s, es, m) && Run(m, fs, t)
    ensures Run(s, es + fs, t)
    decreases |es|
  {
    hide Next, Enabled, Shape;
    if es == [] {
      assert es + fs == fs;
    } else {
      RunJoin(Next(s, es[0]), es[1..], m, fs, t);
      RunFirst(s, es[0], Next(s, es[0]), es[1..] + fs, t);
      assert [es[0]] + (es[1..] + fs) == es + fs;
    }
  }

  lemma RunStart()
    ensures Run(Solo(InitProc(RUNNABLE), CLEARED, ToRelease, NoFork, false, -1, 2), START,
                Solo(InitProc(RUNNING), CLEARED, Outside, NoFork, true, -1, 2))
  {
    hide Enabled, Next, Run, Shape;
    SoloStarts();
    var s3 := Solo(InitProc(RUNNING), CLEARED, Outside, NoFork, true, -1, 2);
    RunNone(s3);
    RunFirst(Solo(InitProc(RUNNING), CLEARED, ToRelease, NoFork, true, 0, 2), Resume(0), s3, [], s3);
    RunFirst(Solo(InitProc(RUNNABLE), CLEARED, ToRelease, NoFork, false, 0, 2), Dispatch(0, 0),
             Solo(InitProc(RUNNING), CLEARED, ToRelease, NoFork, true, 0, 2), [Resume(0)] + [], s3);
    RunFirst(Solo(InitProc(RUNNABLE), CLEARED, ToRelease, NoFork, false, -1, 2), SchedAcquire(0),
             Solo(InitProc(RUNNABLE), CLEARED, ToRelease, NoFork, false, 0, 2), [Dispatch(0, 0)] + ([Resume(0)] + []),
                 s3);
    assert [SchedAcquire(0)] + ([Dispatch(0, 0)] + ([Resume(0)] + [])) == START;
  }

  lemma RunKill()
    ensures Run(Solo(InitProc(RUNNING), CLEARED, Outside, NoFork, true, -1, 2), KILL,
                Solo(InitProc(RUNNING), Killed(CLEARED), Outside, NoFork, true, -1, 2))
  {
    hide Enabled, Next, Run, Shape, Allowed;
    SoloAllowed();
    SoloAcquires(CLEARED, NoFork, Kill(0), 2);
    SoloKills();
    var s4, s5 := Solo(InitProc(RUNNING), CLEARED, Inside(Kill(0)), NoFork, true, 0, 2),
        Solo(InitProc(RUNNING), Killed(CLEARED), Outside, NoFork, true, -1, 2);
    RunNone(s5);
    RunFirst(s4, KillAt(0, 1), s5, [], s5);
    RunFirst(Solo(InitProc(RUNNING), CLEARED, Outside, NoFork, true, -1, 2), Acquire(0, Kill(0)), s4,
        [KillAt(0, 1)] + [], s5);
    assert [Acquire(0, Kill(0))] + ([KillAt(0, 1)] + []) == KILL;
  }

  lemma RunFork()
    ensures Run(Solo(InitProc(RUNNING), Killed(CLEARED), Outside, NoFork, true, -1, 2), FORK,
                Solo(InitProc(RUNNING), Marked(RUNNABLE, 0), Outside, NoFork, true, -1, 3))
  {
    hide Enabled, Next, Run, Shape, Allowed;
    var a, k := InitProc(RUNNING), Killed(CLEARED);
    var s5, s6 := Solo(a, k, Outside, NoFork, true, -1, 2), Solo(a, k, Inside(Alloc), NoFork, true, 0, 2);
    var s7 := Solo(a, Marked(EMBRYO, -1), Outside, Got(1), true, -1, 3);
    var s8 := Solo(a, Marked(EMBRYO, 0), Outside, Linked(1), true, -1, 3);
    var s9 := Solo(a, Marked(EMBRYO, 0), Inside(Publish), Linked(1), true, 0, 3);
    var t := Solo(a, Marked(RUNNABLE, 0), Outside, NoFork, true, -1, 3);
    SoloAllowed();
    SoloAcquires(k, NoFork, Alloc, 2);
    SoloForks();
    SoloAcquires(Marked(EMBRYO, 0), Linked(1), Publish, 3);
    RunNone(t);
    var e4 := [DoPublish(0)] + [];
    RunFirst(s9, DoPublish(0), t, [], t);
    var e3 := [Acquire(0, Publish)] + e4;
    RunFirst(s8, Acquire(0, Publish), s9, e4, t);
    var e2 := [Link(0)] + e3;
    RunFirst(s7, Link(0), s8, e3, t);
    var e1 := [AllocAt(0, 1)] + e2;
    RunFirst(s6, AllocAt(0, 1), s7, e2, t);
    RunFirst(s5, Acquire(0, Alloc), s6, e1, t);
    assert [Acquire(0, Alloc)] + e1 == FORK;
  }

  lemma SoloAllowed()
    ensures Allowed(Solo(InitProc(RUNNING), CLEARED, Outside, NoFork, true, -1, 2), 0, Kill(0))
    ensures Allowed(Solo(InitProc(RUNNING), Killed(CLEARED), Outside, NoFork, true, -1, 2), 0, Alloc)
    ensures Allowed(Solo(InitProc(RUNNING), Marked(EMBRYO, 0), Outside, Linked(1), true, -1, 3), 0, Publish)
  {
  }
}
