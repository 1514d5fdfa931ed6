/** The panics of log.c and bio.c that group commit can run into: which events cause them, what rules them out, and
    runs that reach them. */
module LogPanics {
  import opened Blocks
  import opened Common
  import opened RedoLog
  import opened Logging
  import opened GroupCommit
  import opened BufferCache
  import SwapFile

  // Buffers

  /** Dirty and busy blocks fit the cache, recovery runs alone, and the process that commits holds what it needs for one
      block write, which nobody else holds. */
  ghost predicate Buffered(a: Area, s: State) {
    && |Dirty(s) + Busy(s)| <= NBUF && (Recovering(s) ==> s.held == {}) && (s.phase.Idle? ==> s.hands == Taking([]))
    && s.held !! SetOf(s.hands.mine) && |s.hands.mine| <= 2 && (s.hands.Taking? ==> s.hands.mine <= Needs(a, s))
  }

  lemma SetOfAppend(h: seq<nat>, b: nat)
    ensures SetOf(h + [b]) == SetOf(h) + {b}
  {
  }

  /** A buffer taken. */
  lemma TakenFits(taken: set<nat>, b: nat)
    requires |taken| < NBUF || b in taken
    requires |taken| <= NBUF
    ensures |taken + {b}| <= NBUF
  {
    if b in taken {
      assert taken + {b} == taken;
    }
  }

  lemma FewerFit(some: set<nat>, all: set<nat>)
    requires some <= all && |all| <= NBUF
    ensures |some| <= NBUF
  {
    SubsetCardinality(some, all);
  }

  lemma SetOfDrop(h: seq<nat>, k: nat)
    requires k <= |h|
    ensures SetOf(h[k..]) <= SetOf(h)
  {
  }

  lemma InitBuffered(a: Area, s: State)
    requires Init(a, s)
    ensures Buffered(a, s)
  {
    assert Dirty(s) + Busy(s) == {};
  }

  lemma DirtyWritten(a: Area, s: State)
    requires Enabled(a, s, DiskWrite)
    ensures var r := NextWrite(a, s);
            && Dirty(r) <= Dirty(s) && (Recovering(r) ==> Recovering(s)) && !r.phase.Idle?
            && r.held == s.held && r.hands == Dropping(Releases(a, s))
    ensures SetOf(Releases(a, s)) == SetOf(Needs(a, s)) && |Releases(a, s)| == |Needs(a, s)| <= 2
  {
    if s.phase.Installing? {
      assert s.lh[s.phase.k..][1..] == s.lh[s.phase.k + 1..];
      SetOfDrop(s.lh[s.phase.k..], 1);
    }
  }

  lemma AddOne(d: set<nat>, held: set<nat>, mine: set<nat>, b: nat)
    requires |d + (held + mine)| <= NBUF && (|d + (held + mine)| < NBUF || b in d + (held + mine))
    ensures |d + ((held + {b}) + mine)| <= NBUF && |d + (held + (mine + {b}))| <= NBUF
  {
    TakenFits(d + (held + mine), b);
    assert d + ((held + {b}) + mine) == d + (held + mine) + {b};
    assert d + (held + (mine + {b})) == d + (held + mine) + {b};
  }

  lemma TakeBuffered(a: Area, s: State)
    requires Buffered(a, s) && Enabled(a, s, Take)
    ensures Buffered(a, Next(a, s, Take))
  {
    hide Dirty, SetOf, Needs;
    NeedsTwo(a, s);
    var b, r := Needs(a, s)[|s.hands.mine|], Next(a, s, Take);
    SameDirty(s, r);
    SameNeeds(a, s, r);
    if !NoBufferFor(s, b) {
      SetOfAppend(s.hands.mine, b);
      AddOne(Dirty(s), s.held, SetOf(s.hands.mine), b);
      assert s.hands.mine + [b] == Needs(a, s)[..|s.hands.mine| + 1];
    }
  }

  lemma NeedsTwo(a: Area, s: State)
    ensures |Needs(a, s)| <= 2 && (s.phase.Idle? ==> Needs(a, s) == [])
  {
  }

  lemma SameDirty(s: State, r: State)
    requires r.phase == s.phase && r.lh == s.lh
    ensures Dirty(r) == Dirty(s)
  {
  }

  lemma WriteBuffered(a: Area, s: State)
    requires Buffered(a, s) && Enabled(a, s, DiskWrite)
    ensures Buffered(a, NextWrite(a, s))
  {
    hide Needs, Releases, NextWrite, Dirty, SetOf;
    DirtyWritten(a, s);
    var r := NextWrite(a, s);
    FewerFit(Dirty(r) + Busy(r), Dirty(s) + Busy(s));
  }

  lemma DropBuffered(a: Area, s: State)
    requires Buffered(a, s) && Enabled(a, s, Drop)
    ensures Buffered(a, Next(a, s, Drop))
  {
    hide Needs, Dirty;
    var r := Next(a, s, Drop);
    SameDirty(s, r);
    SetOfDrop(s.hands.mine, 1);
    FewerFit(Dirty(r) + Busy(r), Dirty(s) + Busy(s));
  }

  lemma PhaseFacts(a: Area, s: State)
    requires Inv(a, s)
    ensures (s.ops != [] ==> s.phase.Idle?) && (s.phase.Finishing? ==> s.lh == [])
  {
  }

  lemma SameNeeds(a: Area, s: State, r: State)
    requires r.phase == s.phase && r.lh == s.lh
    ensures Needs(a, r) == Needs(a, s)
  {
  }

  lemma BreadBuffered(a: Area, s: State, b: nat)
    requires Buffered(a, s) && Enabled(a, s, Bread(b))
    ensures Buffered(a, Next(a, s, Bread(b)))
  {
    hide Needs, Dirty, SetOf;
    var r := Next(a, s, Bread(b));
    SameDirty(s, r);
    SameNeeds(a, s, r);
    if !NoBufferFor(s, b) {
      AddOne(Dirty(s), s.held, SetOf(s.hands.mine), b);
    }
  }

  lemma ReleaseBuffered(a: Area, s: State, b: nat)
    requires Buffered(a, s) && Enabled(a, s, Brelse(b))
    ensures Buffered(a, Next(a, s, Brelse(b)))
  {
    hide Needs, Dirty, SetOf;
    var r := Next(a, s, Brelse(b));
    SameDirty(s, r);
    SameNeeds(a, s, r);
    FewerFit(Dirty(r) + Busy(r), Dirty(s) + Busy(s));
  }

  /** log_write makes a block dirty that is busy already. */
  lemma LogBuffered(a: Area, s: State, op: nat, b: nat, v: Block)
    requires Inv(a, s) && Buffered(a, s) && Enabled(a, s, Write(op, b, v))
    ensures Buffered(a, Next(a, s, Write(op, b, v)))
  {
    hide Inv;
    PhaseFacts(a, s);
    var r := Next(a, s, Write(op, b, v));
    assert Dirty(r) + Busy(r) == Dirty(s) + Busy(s);
  }

  lemma BeginBuffered(a: Area, s: State)
    requires Buffered(a, s) && Enabled(a, s, Begin)
    ensures Buffered(a, Next(a, s, Begin))
  {
    hide Needs, Dirty, SetOf;
    SameDirty(s, Next(a, s, Begin));
    SameNeeds(a, s, Next(a, s, Begin));
  }

  lemma EmptyHands(a: Area, r: State)
    requires r.hands == Taking([]) && |Dirty(r) + r.held| <= NBUF && (Recovering(r) ==> r.held == {})
    ensures Buffered(a, r)
  {
    hide Needs, Dirty;
    assert r.held + SetOf([]) == r.held;
  }

  lemma NotHandling(s: State)
    requires s.hands == Taking([])
    ensures Busy(s) == s.held
  {
  }

  /** The other events of the log: they come when the committing process holds nothing. */
  lemma PhaseBuffered(a: Area, s: State, e: Event)
    requires Inv(a, s) && Buffered(a, s) && Enabled(a, s, e) && (e.End? || e.Finish? || e.Crash?)
    ensures Buffered(a, Next(a, s, e))
  {
    hide Inv, Header, Needs, Busy;
    PhaseFacts(a, s);
    var r := Next(a, s, e);
    if e.Crash? {
      assert Dirty(r) + r.held == {};
    } else {
      NotHandling(s);
    }
    EmptyHands(a, r);
  }

  lemma StepBuffered(a: Area, s: State, e: Event)
    requires Inv(a, s) && Buffered(a, s) && Enabled(a, s, e)
    ensures Buffered(a, Next(a, s, e))
  {
    hide Inv, Buffered, Needs, Dirty;
    match e
    case Bread(b) => BreadBuffered(a, s, b);
    case Write(op, b, v) => LogBuffered(a, s, op, b, v);
    case Brelse(b) => ReleaseBuffered(a, s, b);
    case Take => TakeBuffered(a, s);
    case DiskWrite => WriteBuffered(a, s);
    case Drop => DropBuffered(a, s);
    case Begin => BeginBuffered(a, s);
    case _ => PhaseBuffered(a, s, e);
  }

  /** In every state of every run dirty and busy blocks fit the cache. */
  lemma {:induction false} RunBuffered(a: Area, trace: seq<State>, events: seq<Event>, i: nat)
    requires Run(a, trace, events) && i < |trace|
    ensures Buffered(a, trace[i])
  {
    hide Buffered, Next, Init, Enabled, Inv;
    if i == 0 {
      InitBuffered(a, trace[0]);
    } else {
      RunBuffered(a, trace, events, i - 1);
      RunInv(a, trace, events, i - 1);
      StepBuffered(a, trace[i - 1], events[i - 1]);
    }
  }

  // Reservation

  /** The calls of log_write that the operations in progress have left, of MAXOPBLOCKS each. */
  function Left(ops: seq<nat>): (n: nat) {
    if ops == [] then 0 else (if ops[0] < MAXOPBLOCKS then MAXOPBLOCKS - ops[0] else 0) + Left(ops[1..])
  }

  lemma {:induction false} LeftAppend(ops: seq<nat>)
    ensures Left(ops + [0]) == Left(ops) + MAXOPBLOCKS
  {
    if ops == [] {
      assert Left([0][1..]) == 0;
    } else {
      assert (ops + [0])[1..] == ops[1..] + [0];
      LeftAppend(ops[1..]);
    }
  }

  lemma {:induction false} LeftCall(ops: seq<nat>, i: nat)
    requires i < |ops| && ops[i] < MAXOPBLOCKS
    ensures Left(ops) == Left(ops[i := ops[i] + 1]) + 1
  {
    if i > 0 {
      assert ops[i := ops[i] + 1][1..] == ops[1..][i - 1 := ops[i] + 1];
      LeftCall(ops[1..], i - 1);
    } else {
      assert ops[0 := ops[0] + 1][1..] == ops[1..];
    }
  }

  lemma {:induction false} LeftRemove(ops: seq<nat>, i: nat)
    requires i < |ops|
    ensures Left(ops[..i] + ops[i + 1..]) <= Left(ops)
  {
    if i > 0 {
      assert (ops[..i] + ops[i + 1..])[1..] == ops[1..][..i - 1] + ops[1..][i..];
      LeftRemove(ops[1..], i - 1);
    } else {
      assert ops[..0] + ops[1..] == ops[1..];
    }
  }

  lemma {:induction false} LeftBound(ops: seq<nat>)
    ensures Left(ops) <= |ops| * MAXOPBLOCKS
  {
    if ops != [] {
      LeftBound(ops[1..]);
    }
  }

  /** Every call that is left fits the header. */
  predicate Reserved(s: State) {
    |s.lh| + Left(s.ops) <= LOGSIZE
  }

  /** An operation calls log_write more than q times. */
  predicate Exceeds(s: State, e: Event, q: nat) {
    e.Write? && e.op < |s.ops| && s.ops[e.op] >= q
  }

  /** The reservation of begin_op: as long as operations keep their budgets, each can make all its calls. */
  lemma BudgetStep(a: Area, s: State, e: Event)
    requires Inv(a, s) && Enabled(a, s, e) && Reserved(s) && !Exceeds(s, e, MAXOPBLOCKS)
    ensures Reserved(Next(a, s, e)) && (e.Write? ==> |s.lh| < LOGSIZE)
  {
    hide Inv, Recovered, SameHome, Apply, InstalledFirst, LoggedFirst;
    match e
    case Begin =>
      LeftAppend(s.ops);
      LeftBound(s.ops);
    case Write(op, b, v) => LeftCall(s.ops, op);
    case End(op) => LeftRemove(s.ops, op);
    case _ =>
  }

  /** No operation of the run calls log_write more than q times. */
  ghost predicate Within(trace: seq<State>, events: seq<Event>, q: nat) {
    forall i :: 0 <= i < |events| && i < |trace| ==> !Exceeds(trace[i], events[i], q)
  }

  lemma {:induction false} BudgetRun(a: Area, trace: seq<State>, events: seq<Event>, i: nat)
    requires Run(a, trace, events) && Within(trace, events, MAXOPBLOCKS) && i < |trace|
    ensures Reserved(trace[i])
  {
    hide Next, Enabled, Inv;
    if i > 0 {
      BudgetRun(a, trace, events, i - 1);
      RunInv(a, trace, events, i - 1);
      BudgetStep(a, trace[i - 1], events[i - 1]);
    }
  }

  // What panics

  /** The block whose buffer an event asks for. */
  predicate AsksFor(a: Area, s: State, e: Event, b: nat) {
    e == Bread(b) || (e.Take? && |s.hands.mine| < |Needs(a, s)| && Needs(a, s)[|s.hands.mine|] == b)
  }

  /** Exactly these events panic: a log_write in a full transaction, and a request for a buffer, by the committing
      process or by any other, when NBUF blocks are busy or dirty and the one asked for is not. The panic of end_op
      never happens. */
  lemma PanicExactly(a: Area, s: State, e: Event)
    requires Inv(a, s) && Enabled(a, s, e) && s.panic.NoPanic?
    ensures var p := Next(a, s, e).panic;
            && (p.LogFull? <==> e.Write? && |s.lh| >= Capacity(a)) && !p.EndWhileCommitting?
            && (p.OutOfBuffers? <==> exists b :: AsksFor(a, s, e, b) && NoBufferFor(s, b))
  {
    hide Recovered, SameHome, Apply, Header, ValidLog, InstalledFirst, LoggedFirst;
    match e
    case Write(op, b, v) => WriteKeepsInv(a, s, op, b, v);
    case End(op) => EndKeepsInv(a, s, op);
    case Bread(b) => assert AsksFor(a, s, e, b);
    case Take => assert AsksFor(a, s, e, Needs(a, s)[|s.hands.mine|]);
    case _ =>
  }

  /** The blocks of a transaction that are still dirty. */
  lemma DirtyBound(a: Area, s: State)
    requires Inv(a, s)
    ensures |Dirty(s)| <= |s.lh| <= Capacity(a)
  {
    hide Recovered, SameHome, PhaseInv, Header;
    SetOfSize(s.lh);
    if s.phase.Installing? && s.phase.k <= |s.lh| {
      SetOfDrop(s.lh, s.phase.k);
      SubsetCardinality(SetOf(s.lh[s.phase.k..]), SetOf(s.lh));
    }
  }

  /** Listed blocks and held buffers leave room for the two that the committing process takes. */
  ghost predicate Modest(a: Area, trace: seq<State>, events: seq<Event>) {
    forall i :: 0 <= i < |events| && i < |trace| ==>
      |trace[i].lh| + |trace[i].held| + 2 < NBUF && (events[i].Write? ==> |trace[i].lh| < a.size - 1)
  }

  lemma UnionBound(x: set<nat>, y: set<nat>)
    ensures |x + y| <= |x| + |y|
  {
    assert x + y == x + (y - x);
    SubsetCardinality(y - x, y);
  }

  lemma {:induction false} SetOfBound(h: seq<nat>)
    ensures |SetOf(h)| <= |h|
  {
    if h != [] {
      SetOfBound(h[..|h| - 1]);
      SetOfAppend(h[..|h| - 1], h[|h| - 1]);
      assert h == h[..|h| - 1] + [h[|h| - 1]];
    }
  }

  lemma ModestStep(a: Area, s: State, e: Event)
    requires Inv(a, s) && Buffered(a, s) && Enabled(a, s, e) && s.panic.NoPanic?
    requires |s.lh| + |s.held| + 2 < NBUF && (e.Write? ==> |s.lh| < a.size - 1)
    ensures Next(a, s, e).panic.NoPanic?
  {
    hide Inv, Next, Enabled, Needs, Dirty;
    PanicExactly(a, s, e);
    DirtyBound(a, s);
    SetOfBound(s.hands.mine);
    UnionBound(s.held, SetOf(s.hands.mine));
    UnionBound(Dirty(s), Busy(s));
  }

  /** A run whose transactions and readers stay within these bounds does not panic. */
  lemma {:induction false} ModestRun(a: Area, trace: seq<State>, events: seq<Event>, i: nat)
    requires Run(a, trace, events) && Modest(a, trace, events) && i < |trace|
    ensures trace[i].panic.NoPanic?
  {
    hide Next, Inv, Buffered, Enabled;
    if i > 0 {
      ModestRun(a, trace, events, i - 1);
      RunInv(a, trace, events, i - 1);
      RunBuffered(a, trace, events, i - 1);
      ModestStep(a, trace[i - 1], events[i - 1]);
    }
  }

  /** Recovery, which runs alone, never wants for a buffer. */
  lemma RecoveryHasBuffers(a: Area, s: State)
    requires Inv(a, s) && Buffered(a, s) && Enabled(a, s, Take) && Recovering(s)
    ensures Next(a, s, Take).panic.NoPanic?
  {
    hide Inv;
    SetOfBound(s.hands.mine);
    assert Dirty(s) + Busy(s) == SetOf(s.hands.mine);
  }

  /** How many buffers are held for blocks that are not dirty. */
  function Others(s: State): (n: nat) {
    |Busy(s) - Dirty(s)|
  }

  lemma NoBufferNeeds(a: Area, s: State, b: nat)
    requires Inv(a, s) && NoBufferFor(s, b)
    ensures Capacity(a) + Others(s) >= NBUF
  {
    hide Inv, Dirty, Busy;
    DirtyBound(a, s);
    assert Dirty(s) + Busy(s) == Dirty(s) + (Busy(s) - Dirty(s));
    UnionBound(Dirty(s), Busy(s) - Dirty(s));
  }

  /** What a panic says about the log size, the budgets and the buffers held. */
  lemma {:induction false} RunPanic(a: Area, trace: seq<State>, events: seq<Event>, i: nat)
    requires Run(a, trace, events) && i < |trace|
    ensures !trace[i].panic.EndWhileCommitting?
    ensures trace[i].panic.LogFull? && Within(trace, events, MAXOPBLOCKS) ==> a.size <= LOGSIZE
    ensures trace[i].panic.OutOfBuffers? ==> Capacity(a) + Others(trace[i]) >= NBUF
  {
    hide Next, Inv, NoBufferFor, Others, Capacity;
    if i > 0 {
      var s, e := trace[i - 1], events[i - 1];
      RunInv(a, trace, events, i - 1);
      if s.panic.NoPanic? {
        PanicExactly(a, s, e);
        PanicStep(a, s, e);
        if Within(trace, events, MAXOPBLOCKS) {
          BudgetRun(a, trace, events, i - 1);
          BudgetStep(a, s, e);
          if e.Write? {
            CapacityBound(a, s);
          }
        }
      } else {
        CrashClears(a, s, e);
      }
    }
  }

  lemma CapacityBound(a: Area, s: State)
    requires |s.lh| < LOGSIZE
    ensures |s.lh| >= Capacity(a) ==> a.size <= LOGSIZE
  {
  }

  lemma PanicStep(a: Area, s: State, e: Event)
    requires Inv(a, s) && Enabled(a, s, e) && s.panic.NoPanic?
    ensures Next(a, s, e).panic.OutOfBuffers? ==> Capacity(a) + Others(Next(a, s, e)) >= NBUF
  {
    hide Inv, NoBufferFor, Capacity;
    PanicExactly(a, s, e);
    if Next(a, s, e).panic.OutOfBuffers? {
      var b :| AsksFor(a, s, e, b) && NoBufferFor(s, b);
      NoBufferNeeds(a, s, b);
      assert Others(Next(a, s, e)) == Others(s);
    }
  }

  lemma CrashClears(a: Area, s: State, e: Event)
    requires Enabled(a, s, e) && !s.panic.NoPanic?
    ensures Next(a, s, e).panic.NoPanic?
  {
  }

  // Runs that panic

  /** Some run from disk d, with no operation calling log_write more than q times, comes to state s. */
  ghost predicate Reachable(a: Area, d: Disk, q: nat, s: State) {
    exists trace: seq<State>, events: seq<Event> :: Leads(a, d, q, s, trace, events)
  }

  ghost predicate Leads(a: Area, d: Disk, q: nat, s: State, trace: seq<State>, events: seq<Event>) {
    Run(a, trace, events) && Within(trace, events, q) && trace[0].disk == d && trace[|events|] == s
  }

  lemma Starts(a: Area, d: Disk, q: nat, s: State)
    requires Init(a, s) && s.disk == d
    ensures Reachable(a, d, q, s)
  {
    assert Leads(a, d, q, s, [s], []);
  }

  lemma GoesOn(a: Area, d: Disk, q: nat, s: State, e: Event)
    requires Reachable(a, d, q, s) && Enabled(a, s, e) && !Exceeds(s, e, q)
    ensures Reachable(a, d, q, Next(a, s, e))
  {
    hide Next, Enabled, Init, Exceeds;
    var trace: seq<State>, events: seq<Event> :| Leads(a, d, q, s, trace, events);
    assert Leads(a, d, q, Next(a, s, e), trace + [Next(a, s, e)], events + [e]);
  }

  /** NBUF + 1 distinct home blocks of a freshly made disk. */
  ghost predicate Homes(a: Area, d: Disk, bs: seq<nat>) {
    && ValidLog(a, d) && |d| < UINT && HeaderCount(a, d) == 0
    && |bs| == NBUF + 1 && Distinct(bs) && forall i :: 0 <= i < |bs| ==> bs[i] < |d| && !a.Inside(bs[i])
  }

  /** log_write calls that operation i has made of j, three operations making q each in turn. */
  function Calls(j: nat, i: nat, q: nat): (n: nat) {
    if j <= q * i then 0 else if j >= q * (i + 1) then q else j - q * i
  }

  function Turn(j: nat, q: nat): (i: nat) {
    if j < q then 0 else if j < 2 * q then 1 else 2
  }

  /** Three operations have entered and logged the blocks bs[..j] between them; readers hold those in held. */
  ghost predicate Filled(a: Area, d: Disk, s: State, bs: seq<nat>, j: nat, q: nat, held: set<nat>) {
    && j <= |bs| && s.panic.NoPanic? && a.Fits(s.disk) && |s.disk| == |s.view| == |d| < UINT
    && s.phase.Idle? && s.lh == bs[..j] && s.ops == [Calls(j, 0, q), Calls(j, 1, q), Calls(j, 2, q)]
    && s.hands == Taking([]) && s.held == held
  }

  lemma SetOfConcat(x: seq<nat>, y: seq<nat>)
    ensures SetOf(x + y) == SetOf(x) + SetOf(y)
  {
  }

  lemma SliceDistinct(bs: seq<nat>, j: nat, i: nat)
    requires Distinct(bs) && j <= i <= |bs|
    ensures Distinct(bs[j..i])
  {
  }

  lemma SlicesApart(bs: seq<nat>, j: nat, i: nat)
    requires Distinct(bs) && j <= i <= |bs|
    ensures SetOf(bs[..j]) !! SetOf(bs[j..i]) && (i < |bs| ==> bs[i] !in SetOf(bs[..i]))
  {
  }

  /** Pieces of a sequence without repetition. */
  lemma SliceFacts(bs: seq<nat>, j: nat, i: nat)
    requires Distinct(bs) && j <= i <= |bs|
    ensures SetOf(bs[..i]) == SetOf(bs[..j]) + SetOf(bs[j..i]) && SetOf(bs[..j]) !! SetOf(bs[j..i])
    ensures |SetOf(bs[..i])| == i && |SetOf(bs[j..i])| == i - j && SetOf(bs[j..j]) == {}
    ensures i < |bs| ==> bs[i] !in SetOf(bs[..i]) && bs[..i + 1] == bs[..i] + [bs[i]]
    ensures i < |bs| ==> SetOf(bs[j..i + 1]) == SetOf(bs[j..i]) + {bs[i]}
  {
    hide SetOf, Distinct;
    assert bs[..i] == bs[..j] + bs[j..i] && bs[0..i] == bs[..i];
    SetOfConcat(bs[..j], bs[j..i]);
    SlicesApart(bs, j, i);
    SliceDistinct(bs, 0, i);
    SliceDistinct(bs, j, i);
    SetOfSize(bs[..i]);
    SetOfSize(bs[j..i]);
    SetOfBound(bs[j..j]);
    if i < |bs| {
      assert bs[j..i + 1] == bs[j..i] + [bs[i]];
      SetOfAppend(bs[j..i], bs[i]);
    }
  }

  lemma FilledBuffers(a: Area, d: Disk, s: State, bs: seq<nat>, j: nat, q: nat, i: nat)
    requires j <= i <= |bs| && Distinct(bs) && Filled(a, d, s, bs, j, q, SetOf(bs[j..i]))
    ensures Dirty(s) == SetOf(bs[..j]) && Busy(s) == SetOf(bs[j..i])
    ensures Dirty(s) + Busy(s) == SetOf(bs[..i]) && |SetOf(bs[..i])| == i && Others(s) == i - j
  {
    hide Distinct, Calls;
    SliceFacts(bs, j, i);
    assert SetOf([]) == {};
    assert Busy(s) - Dirty(s) == SetOf(bs[j..i]);
  }

  /** Any process reads a block. */
  lemma ReadOne(a: Area, d: Disk, s: State, bs: seq<nat>, j: nat, q: nat, i: nat)
    requires Homes(a, d, bs) && j <= i < NBUF && Filled(a, d, s, bs, j, q, SetOf(bs[j..i])) && Reachable(a, d, q, s)
    ensures Enabled(a, s, Bread(bs[i])) && var r := Next(a, s, Bread(bs[i]));
            Filled(a, d, r, bs, j, q, SetOf(bs[j..i + 1])) && Reachable(a, d, q, r)
  {
    hide Dirty, Busy, SetOf, Distinct, ValidLog, HeaderCount, Calls, Reachable, Others;
    FilledBuffers(a, d, s, bs, j, q, i);
    SliceFacts(bs, j, i);
    GoesOn(a, d, q, s, Bread(bs[i]));
  }

  /** The operation whose turn it is logs a block it holds. */
  lemma LogHeld(a: Area, d: Disk, s: State, bs: seq<nat>, j: nat, q: nat)
    requires Homes(a, d, bs) && j < Capacity(a) && j < 3 * q && Filled(a, d, s, bs, j, q, {bs[j]})
    ensures var e := Write(Turn(j, q), bs[j], ZERO_BLOCK);
            Enabled(a, s, e) && !Exceeds(s, e, q) && Filled(a, d, Next(a, s, e), bs, j + 1, q, {bs[j]})
  {
    hide Distinct, ValidLog, HeaderCount, SetOf;
    SliceFacts(bs, 0, j);
    assert bs[j] !in bs[..j] by { InSlice(bs[..j], bs[j]); }
    assert Absorb(bs[..j], bs[j]) == bs[..j + 1];
  }

  lemma InSlice(h: seq<nat>, b: nat)
    ensures b in h <==> b in SetOf(h)
  {
  }

  /** It reads, logs and releases the next block. */
  lemma LogOne(a: Area, d: Disk, s: State, bs: seq<nat>, j: nat, q: nat) returns (r: State)
    requires Homes(a, d, bs) && j < Capacity(a) && j < 3 * q && Filled(a, d, s, bs, j, q, {}) && Reachable(a, d, q, s)
    ensures Filled(a, d, r, bs, j + 1, q, {}) && Reachable(a, d, q, r)
  {
    hide SetOf, Distinct, ValidLog, HeaderCount, Calls, Reachable, Turn, Dirty;
    SliceFacts(bs, j, j);
    ReadOne(a, d, s, bs, j, q, j);
    var s1 := Next(a, s, Bread(bs[j]));
    var e := Write(Turn(j, q), bs[j], ZERO_BLOCK);
    LogHeld(a, d, s1, bs, j, q);
    GoesOn(a, d, q, s1, e);
    var s2 := Next(a, s1, e);
    GoesOn(a, d, q, s2, Brelse(bs[j]));
    r := Next(a, s2, Brelse(bs[j]));
    assert {bs[j]} - {bs[j]} == {};
  }

  lemma {:induction false} Fill(a: Area, d: Disk, bs: seq<nat>, j: nat, q: nat) returns (s: State)
    requires Homes(a, d, bs) && j <= Capacity(a) && j <= 3 * q
    ensures Filled(a, d, s, bs, j, q, {}) && Reachable(a, d, q, s)
  {
    if j == 0 {
      var s0 := State(d, d, [], [], Idle, Taking([]), {}, NoPanic, [], [d]);
      Starts(a, d, q, s0);
      GoesOn(a, d, q, s0, Begin);
      var s1 := Next(a, s0, Begin);
      GoesOn(a, d, q, s1, Begin);
      var s2 := Next(a, s1, Begin);
      GoesOn(a, d, q, s2, Begin);
      s := Next(a, s2, Begin);
    } else {
      s := Fill(a, d, bs, j - 1, q);
      s := LogOne(a, d, s, bs, j - 1, q);
    }
  }

  /** Readers hold blocks besides. */
  lemma {:induction false} ReadMore(a: Area, d: Disk, bs: seq<nat>, j: nat, q: nat, i: nat) returns (s: State)
    requires Homes(a, d, bs) && j <= Capacity(a) && j <= 3 * q && j <= i <= NBUF
    ensures Filled(a, d, s, bs, j, q, SetOf(bs[j..i])) && Reachable(a, d, q, s)
    decreases i
  {
    hide Reachable, Filled, ValidLog, HeaderCount, Distinct;
    if i == j {
      s := Fill(a, d, bs, j, q);
      assert bs[j..j] == [] && SetOf([]) == {};
    } else {
      var t := ReadMore(a, d, bs, j, q, i - 1);
      ReadOne(a, d, t, bs, j, q, i - 1);
      s := Next(a, t, Bread(bs[i - 1]));
    }
  }

  /** Three operations with q calls each fill every log of less than 3 * q blocks, and the next call panics, though its
      block is listed already. */
  lemma LogFillsUp(a: Area, d: Disk, bs: seq<nat>, q: nat) returns (s: State)
    requires Homes(a, d, bs) && Capacity(a) < 3 * q
    ensures Reachable(a, d, q, s) && s.panic.LogFull?
  {
    var j := Capacity(a);
    var s0 := Fill(a, d, bs, j, q);
    assert SetOf(bs[j..j]) == {};
    FilledBuffers(a, d, s0, bs, j, q, j);
    assert j > 0 ==> bs[0] in bs[..j];
    GoesOn(a, d, q, s0, Bread(bs[0]));
    var s1 := Next(a, s0, Bread(bs[0]));
    var e := Write(Turn(j, q), bs[0], ZERO_BLOCK);
    GoesOn(a, d, q, s1, e);
    s := Next(a, s1, e);
  }

  /** A full chunk of filewrite logs at least that many blocks, so three of them reach log_write's panic whatever the
      size of the log. */
  lemma ChunksFillLog(a: Area, d: Disk, bs: seq<nat>) returns (s: State)
    requires Homes(a, d, bs)
    ensures Reachable(a, d, SwapFile.Spanned(0, SwapFile.MAXCHUNK), s) && s.panic.LogFull?
  {
    SwapFile.FullChunkSpans(0);
    s := LogFillsUp(a, d, bs, SwapFile.Spanned(0, SwapFile.MAXCHUNK));
  }

  /** With a full transaction and one buffer held for each block that it falls short of NBUF, the next bread panics. */
  lemma BuffersRunOut(a: Area, d: Disk, bs: seq<nat>) returns (s: State)
    requires Homes(a, d, bs)
    ensures Reachable(a, d, MAXOPBLOCKS, s) && s.panic.OutOfBuffers? && Others(s) == NBUF - Capacity(a)
  {
    hide Distinct, HeaderCount, SetOf, Dirty, Busy, Calls, Reachable;
    var j := Capacity(a);
    var t := ReadMore(a, d, bs, j, MAXOPBLOCKS, NBUF);
    FilledBuffers(a, d, t, bs, j, MAXOPBLOCKS, NBUF);
    SliceFacts(bs, j, NBUF);
    GoesOn(a, d, MAXOPBLOCKS, t, Bread(bs[NBUF]));
    s := Next(a, t, Bread(bs[NBUF]));
    SameOthers(t, s);
  }

  lemma SameOthers(s: State, r: State)
    requires r == s.(panic := r.panic)
    ensures Others(r) == Others(s)
  {
  }

  /** Within their budgets, operations can reach log_write's panic if and only if log.size is at most LOGSIZE, as mkfs
      makes it. With at most h buffers held besides those of the transaction, they can reach bget's if and only if a
      full transaction and those h make NBUF. */
  lemma PanicByLogSize(a: Area, d: Disk, bs: seq<nat>, h: nat)
    requires Homes(a, d, bs)
    ensures a.size <= LOGSIZE <==> exists s :: Reachable(a, d, MAXOPBLOCKS, s) && s.panic.LogFull?
    ensures Capacity(a) + h >= NBUF <==>
            exists s :: Reachable(a, d, MAXOPBLOCKS, s) && s.panic.OutOfBuffers? && Others(s) <= h
  {
    hide Reachable, Others, Homes;
    if a.size <= LOGSIZE {
      var s := LogFillsUp(a, d, bs, MAXOPBLOCKS);
    }
    var t := BuffersRunOut(a, d, bs);
    forall s | Reachable(a, d, MAXOPBLOCKS, s)
      ensures s.panic.LogFull? ==> a.size <= LOGSIZE
      ensures s.panic.OutOfBuffers? ==> Capacity(a) + Others(s) >= NBUF
    {
      ReachedPanic(a, d, s);
    }
  }

  lemma ReachedPanic(a: Area, d: Disk, s: State)
    requires Reachable(a, d, MAXOPBLOCKS, s)
    ensures s.panic.LogFull? ==> a.size <= LOGSIZE
    ensures s.panic.OutOfBuffers? ==> Capacity(a) + Others(s) >= NBUF
  {
    hide Init, Next, Enabled;
    var trace: seq<State>, events: seq<Event> :| Leads(a, d, MAXOPBLOCKS, s, trace, events);
    RunPanic(a, trace, events, |events|);
  }

  /** A larger log moves the panic: the operations end, and commit finds no buffer for its first log block. */
  lemma CommitRunsOut(a: Area, d: Disk, bs: seq<nat>) returns (s: State)
    requires Homes(a, d, bs) && a.size > LOGSIZE
    ensures Reachable(a, d, MAXOPBLOCKS, s) && s.panic.OutOfBuffers? && s.phase == LoggingBlock(0) && Busy(s) == {}
  {
    hide Distinct, HeaderCount, Reachable, Calls;
    var s0 := Fill(a, d, bs, LOGSIZE, MAXOPBLOCKS);
    SliceFacts(bs, LOGSIZE, LOGSIZE);
    FilledBuffers(a, d, s0, bs, LOGSIZE, MAXOPBLOCKS, LOGSIZE);
    GoesOn(a, d, MAXOPBLOCKS, s0, End(0));
    var s1 := Next(a, s0, End(0));
    assert |s1.ops| == 2;
    GoesOn(a, d, MAXOPBLOCKS, s1, End(0));
    var s2 := Next(a, s1, End(0));
    assert |s2.ops| == 1;
    GoesOn(a, d, MAXOPBLOCKS, s2, End(0));
    var s3 := Next(a, s2, End(0));
    assert a.start + 1 !in bs[..LOGSIZE];
    assert s3.lh == s0.lh && Dirty(s3) == Dirty(s0) && Busy(s3) == Busy(s0);
    GoesOn(a, d, MAXOPBLOCKS, s3, Take);
    s := Next(a, s3, Take);
  }
}
