/** Group commit over all interleavings and crashes: log.c as a state machine. One event is one critical
    section of log.lock, or one bread, bwrite or brelse. A panic stops everything but a reboot. */
module GroupCommit {
  import opened Blocks
  import opened Common
  import opened RedoLog
  import opened Logging
  import BufferCache

  /** What the committing (or recovering) process works at. log.committing is set in all but Idle. */
  datatype Phase =
    | Idle
    | LoggingBlock(k: nat)      // write_log
    | WritingHeader             // write_head, the commit point
    | Installing(k: nat)        // install_trans
    | Clearing                  // write_head with n == 0
    | Finishing                 // about to let operations in
    | Reinstalling(k: nat)      // install_trans of recover_from_log
    | Reclearing                // write_head of recover_from_log

  /** The blocks whose buffers that process holds: it takes what it needs for one block write, makes the write, and
      drops them, from the first on. */
  datatype Hands = Taking(mine: seq<nat>) | Dropping(mine: seq<nat>)

  /** log_write's "too big a transaction", end_op's "log.committing", and bget's "no buffers". */
  datatype Panic = NoPanic | LogFull | EndWhileCommitting | OutOfBuffers

  /** held has the blocks that other processes hold, in an operation or reading. pending and commits are history: the
      writes logged since the last commit point, and the home blocks at each commit point. ops has the number of
      log_write calls that each operation in progress has made. */
  datatype State = State(
    disk: Disk,
    view: seq<Block>,
    lh: seq<nat>,
    ops: seq<nat>,
    phase: Phase,
    hands: Hands,
    held: set<nat>,
    panic: Panic,
    pending: seq<(nat, Block)>,
    commits: seq<Disk>)

  datatype Event =
    | Begin
    | Bread(b: nat)
    | Write(op: nat, b: nat, v: Block)
    | Brelse(b: nat)
    | End(op: nat)
    | Take
    | DiskWrite
    | Drop
    | Finish
    | Crash

  // Buffers

  /** The blocks whose buffers carry B_DIRTY: the listed ones until they are installed. */
  function Dirty(s: State): (d: set<nat>) {
    match s.phase
    case Installing(k) => if k <= |s.lh| then SetOf(s.lh[k..]) else {}
    case Idle => SetOf(s.lh)
    case LoggingBlock(_) => SetOf(s.lh)
    case WritingHeader => SetOf(s.lh)
    case _ => {}
  }

  /** The blocks whose buffers carry B_BUSY. */
  function Busy(s: State): (b: set<nat>) {
    s.held + SetOf(s.hands.mine)
  }

  /** Every buffer is busy or dirty, and none of them is block b's: bget panics. */
  predicate NoBufferFor(s: State, b: nat) {
    |Dirty(s) + Busy(s)| >= BufferCache.NBUF && b !in Dirty(s) + Busy(s)
  }

  /** The buffers for the next block write: the log block and the listed one, or the header. */
  function Needs(a: Area, s: State): (bs: seq<nat>) {
    match s.phase
    case LoggingBlock(k) => Pair(a, s.lh, k)
    case Installing(k) => Pair(a, s.lh, k)
    case Reinstalling(k) => Pair(a, s.lh, k)
    case WritingHeader => [a.start]
    case Clearing => [a.start]
    case Reclearing => [a.start]
    case _ => []
  }

  function Pair(a: Area, lh: seq<nat>, k: nat): (bs: seq<nat>) {
    if k < |lh| then [a.start + 1 + k, lh[k]] else []
  }

  /** The same in the order in which they are released: write_log drops the listed block first. */
  function Releases(a: Area, s: State): (bs: seq<nat>) {
    if s.phase.LoggingBlock? && s.phase.k < |s.lh| then [s.lh[s.phase.k], a.start + 1 + s.phase.k] else Needs(a, s)
  }

  // Events

  predicate Recovering(s: State) {
    s.phase.Reinstalling? || s.phase.Reclearing?
  }

  predicate Enabled(a: Area, s: State, e: Event) {
    && a.Fits(s.disk) && |s.disk| < UINT && |s.view| == |s.disk| && (s.panic.NoPanic? || e.Crash?)
    && match e
       case Begin => s.phase.Idle? && |s.lh| + (|s.ops| + 1) * MAXOPBLOCKS <= LOGSIZE
       case Bread(b) => !Recovering(s) && b < |s.disk| && b !in Busy(s)
       case Write(op, b, v) => op < |s.ops| && b in s.held && b < |s.disk| && !a.Inside(b)
       case Brelse(b) => b in s.held
       case End(op) => op < |s.ops|
       case Take =>
         s.hands.Taking? && |s.hands.mine| < |Needs(a, s)| && Needs(a, s)[|s.hands.mine|] !in Busy(s)
       case DiskWrite =>
         s.hands == Taking(Needs(a, s)) && Needs(a, s) != [] && Loggable(a, |s.disk|, s.lh)
       case Drop => s.hands.Dropping? && s.hands.mine != []
       case Finish => s.phase.Finishing? && s.hands == Taking([])
       case Crash => ValidLog(a, s.disk)
  }

  /** The state after one enabled event. */
  function Next(a: Area, s: State, e: Event): (r: State)
    requires Enabled(a, s, e)
    ensures |r.disk| == |s.disk|
  {
    match e
    case Begin => s.(ops := s.ops + [0])
    case Bread(b) => if NoBufferFor(s, b) then s.(panic := OutOfBuffers) else s.(held := s.held + {b})
    case Write(op, b, v) =>
      if |s.lh| >= LOGSIZE || |s.lh| >= a.size - 1 then s.(panic := LogFull)
      else s.(view := s.view[b := v], lh := Absorb(s.lh, b), ops := s.ops[op := s.ops[op] + 1],
              pending := s.pending + [(b, v)])
    case Brelse(b) => s.(held := s.held - {b})
    case End(op) =>
      var rest := s.ops[..op] + s.ops[op + 1..];
      if !s.phase.Idle? then s.(ops := rest, panic := EndWhileCommitting)
      else if rest != [] then s.(ops := rest)
      else s.(ops := [], phase := if s.lh == [] then Finishing else LoggingBlock(0))
    case Take =>
      var b := Needs(a, s)[|s.hands.mine|];
      if NoBufferFor(s, b) then s.(panic := OutOfBuffers) else s.(hands := Taking(s.hands.mine + [b]))
    case DiskWrite => NextWrite(a, s)
    case Drop => s.(hands := if |s.hands.mine| == 1 then Taking([]) else Dropping(s.hands.mine[1..]))
    case Finish => s.(phase := Idle)
    case Crash =>
      var h := Header(a, s.disk);
      s.(ops := [], lh := h, pending := [], phase := if h == [] then Reclearing else Reinstalling(0), panic := NoPanic,
         hands := Taking([]), held := {})
  }

  /** One block write of commit or of recover_from_log. */
  function NextWrite(a: Area, s: State): (r: State)
    requires Enabled(a, s, DiskWrite)
    ensures |r.disk| == |s.disk|
  {
    Written(a, s).(hands := Dropping(Releases(a, s)))
  }

  function Written(a: Area, s: State): (r: State)
    requires Enabled(a, s, DiskWrite)
    ensures |r.disk| == |s.disk|
  {
    match s.phase
    case LoggingBlock(k) =>
      s.(disk := s.disk[a.start + 1 + k := s.view[s.lh[k]]],
         phase := if k + 1 == |s.lh| then WritingHeader else LoggingBlock(k + 1))
    case WritingHeader =>
      s.(disk := WriteHead(a, s.disk, s.lh), phase := if s.lh == [] then Clearing else Installing(0),
         commits := s.commits + [s.view], pending := [])
    case Installing(k) =>
      s.(disk := s.disk[s.lh[k] := s.disk[a.start + 1 + k]],
         phase := if k + 1 == |s.lh| then Clearing else Installing(k + 1))
    case Clearing =>
      s.(disk := WriteHead(a, s.disk, []), lh := [], phase := Finishing)
    case Reinstalling(k) =>
      s.(disk := s.disk[s.lh[k] := s.disk[a.start + 1 + k]],
         phase := if k + 1 == |s.lh| then Reclearing else Reinstalling(k + 1))
    case Reclearing =>
      var d := WriteHead(a, s.disk, []);
      s.(disk := d, view := d, lh := [], phase := Finishing)
    case _ => s
  }

  // What holds in every reachable state

  /** The home blocks after a list of writes. */
  function Apply(d: Disk, writes: seq<(nat, Block)>): (r: Disk)
    ensures |r| == |d|
  {
    if writes == [] then d
    else
      var (b, v) := writes[|writes| - 1];
      var e := Apply(d, writes[..|writes| - 1]);
      if b < |e| then e[b := v] else e
  }

  function Durable(s: State): (d: Disk)
    requires s.commits != []
  {
    s.commits[|s.commits| - 1]
  }

  /** Log block i holds the contents of the i-th listed block. */
  ghost predicate LoggedFirst(a: Area, s: State, k: nat)
    requires a.Fits(s.disk) && Loggable(a, |s.disk|, s.lh) && |s.view| == |s.disk| && k <= |s.lh|
  {
    forall i :: 0 <= i < k ==> s.disk[a.start + 1 + i] == s.view[s.lh[i]]
  }

  /** Listed block i already has its logged contents at home. */
  ghost predicate InstalledFirst(a: Area, s: State, k: nat)
    requires a.Fits(s.disk) && Loggable(a, |s.disk|, s.lh) && k <= |s.lh|
  {
    forall i :: 0 <= i < k ==> s.disk[s.lh[i]] == s.disk[a.start + 1 + i]
  }

  /** Only listed blocks look different from the disk. */
  ghost predicate OthersClean(a: Area, s: State)
    requires |s.view| == |s.disk|
  {
    forall b :: 0 <= b < |s.disk| && !a.Inside(b) && b !in s.lh ==> s.view[b] == s.disk[b]
  }

  ghost predicate Basic(a: Area, s: State) {
    && |s.disk| < UINT && ValidLog(a, s.disk) && |s.view| == |s.disk|
    && Loggable(a, |s.disk|, s.lh) && Distinct(s.lh) && Distinct(Header(a, s.disk))
    && s.commits != [] && |Durable(s)| == |s.disk|
    && (s.ops != [] ==> s.phase.Idle?)
  }

  /** Before the commit point the on-disk log is empty, and the cache is the last commit plus the pending writes. */
  ghost predicate Uncommitted(a: Area, s: State)
    requires Basic(a, s)
  {
    HeaderCount(a, s.disk) == 0 && OthersClean(a, s) && SameHome(a, s.view, Apply(Durable(s), s.pending))
  }

  ghost predicate PhaseInv(a: Area, s: State)
    requires Basic(a, s)
  {
    match s.phase
    case Idle => Uncommitted(a, s)
    case LoggingBlock(k) => Uncommitted(a, s) && k < |s.lh| && LoggedFirst(a, s, k)
    case WritingHeader => Uncommitted(a, s) && s.lh != [] && LoggedFirst(a, s, |s.lh|)
    case Installing(k) =>
      && Header(a, s.disk) == s.lh && k < |s.lh| && s.pending == []
      && OthersClean(a, s) && LoggedFirst(a, s, |s.lh|) && InstalledFirst(a, s, k) && SameHome(a, s.view, Durable(s))
    case Clearing =>
      && Header(a, s.disk) == s.lh && s.pending == []
      && OthersClean(a, s) && LoggedFirst(a, s, |s.lh|) && InstalledFirst(a, s, |s.lh|) &&
          SameHome(a, s.view, Durable(s))
    case Finishing => Uncommitted(a, s) && s.lh == []
    case Reinstalling(k) => Header(a, s.disk) == s.lh && k < |s.lh| && s.pending == [] && InstalledFirst(a, s, k)
    case Reclearing => Header(a, s.disk) == s.lh && s.pending == [] && InstalledFirst(a, s, |s.lh|)
  }

  /** The invariant; its last clause is crash atomicity. */
  ghost predicate Inv(a: Area, s: State) {
    Basic(a, s) && PhaseInv(a, s) && SameHome(a, Recovered(a, s.disk), Durable(s))
  }

  /** A freshly made file system. */
  ghost predicate Init(a: Area, s: State) {
    && ValidLog(a, s.disk) && |s.disk| < UINT && HeaderCount(a, s.disk) == 0
    && s == State(s.disk, s.disk, [], [], Idle, Taking([]), {}, NoPanic, [], [s.disk])
  }

  // Each event keeps the invariant

  lemma SameHomeApply(a: Area, view: Disk, d: Disk, pending: seq<(nat, Block)>, b: nat, v: Block)
    requires SameHome(a, view, Apply(d, pending)) && |view| == |d| && b < |view|
    ensures SameHome(a, view[b := v], Apply(d, pending + [(b, v)]))
  {
    assert (pending + [(b, v)])[..|pending|] == pending;
  }

  /** log_write panics exactly when the header or the log area is full. */
  lemma WriteKeepsInv(a: Area, s: State, op: nat, b: nat, v: Block)
    requires Inv(a, s) && Enabled(a, s, Write(op, b, v))
    ensures Inv(a, Next(a, s, Write(op, b, v)))
    ensures Next(a, s, Write(op, b, v)).panic == if |s.lh| >= Capacity(a) then LogFull else NoPanic
  {
    hide Recovered, SameHome, Header, ValidLog, Apply, InstalledFirst, LoggedFirst;
    SameHomeApply(a, s.view, Durable(s), s.pending, b, v);
  }

  /** How many blocks a transaction can have. */
  function Capacity(a: Area): (n: int) {
    if a.size - 1 < LOGSIZE then a.size - 1 else LOGSIZE
  }

  /** The panic of end_op is unreachable: an operation in progress means no commit in progress. */
  lemma EndKeepsInv(a: Area, s: State, op: nat)
    requires Inv(a, s) && Enabled(a, s, End(op))
    ensures Inv(a, Next(a, s, End(op))) && Next(a, s, End(op)).panic.NoPanic?
  {
    hide Recovered, SameHome, Header, Loggable, ValidLog, Apply, Distinct, InstalledFirst;
  }

  lemma CrashKeepsInv(a: Area, s: State)
    requires Inv(a, s) && Enabled(a, s, Crash)
    ensures Inv(a, Next(a, s, Crash))
  {
  }

  /** Neither a panic nor a change of hands touches what the invariant is about. */
  lemma BuffersKeepInv(a: Area, s: State, p: Panic, hands: Hands, held: set<nat>)
    requires Inv(a, s)
    ensures Inv(a, s.(panic := p, hands := hands, held := held))
  {
    hide Recovered, SameHome, Header, Loggable, ValidLog, Apply, Distinct;
  }

  /** A block goes to the log: nothing but log blocks change. */
  lemma LoggingFacts(a: Area, s: State)
    requires Inv(a, s) && Enabled(a, s, DiskWrite) && s.phase.LoggingBlock?
    ensures var r := NextWrite(a, s);
            && Basic(a, r) && HeaderCount(a, r.disk) == 0 && OthersClean(a, r) && LoggedFirst(a, r, s.phase.k + 1)
            && SameHome(a, Recovered(a, r.disk), Durable(r))
  {
    hide Recovered, SameHome, Apply, InstalledFirst;
    var r := NextWrite(a, s);
    LogWriteKeepsRecovered(a, s.disk, a.start + 1 + s.phase.k, s.view[s.lh[s.phase.k]]);
    assert Header(a, r.disk) == [];
    SameHomeThen(a, Recovered(a, r.disk), Recovered(a, s.disk), Durable(s));
  }

  lemma LoggingKeepsInv(a: Area, s: State)
    requires Inv(a, s) && Enabled(a, s, DiskWrite) && s.phase.LoggingBlock?
    ensures Inv(a, NextWrite(a, s))
  {
    hide Recovered, SameHome, LoggedFirst, InstalledFirst, OthersClean, Basic, Header, Loggable, ValidLog;
    LoggingFacts(a, s);
  }

  lemma HeaderInstalls(a: Area, d: Disk, h: seq<nat>, view: seq<Block>, b: nat)
    requires ValidLog(a, d) && Header(a, d) == h && |view| == |d| && b < |d|
    requires b !in h ==> view[b] == d[b]
    requires forall i :: 0 <= i < |h| ==> h[i] < |d| && d[a.start + 1 + i] == view[h[i]]
    ensures Recovered(a, d)[b] == view[b]
  {
    hide Install, Header;
    InstallAt(a, d, h, |h|, b);
  }

  /** The header write commits exactly the blocks that the cache shows. */
  lemma HeaderCommits(a: Area, s: State)
    requires Basic(a, s) && OthersClean(a, s) && LoggedFirst(a, s, |s.lh|)
    ensures var d := WriteHead(a, s.disk, s.lh);
            ValidLog(a, d) && Header(a, d) == s.lh && SameHome(a, Recovered(a, d), s.view)
  {
    hide Recovered, PutHeader, Header;
    var d := WriteHead(a, s.disk, s.lh);
    HeaderRoundTrip(a, s.disk, s.lh);
    forall b: nat | b < |s.disk| && !a.Inside(b) ensures Recovered(a, d)[b] == s.view[b] {
      HeaderInstalls(a, d, s.lh, s.view, b);
    }
  }

  lemma HeaderKeepsInv(a: Area, s: State)
    requires Inv(a, s) && Enabled(a, s, DiskWrite) && s.phase.WritingHeader?
    ensures Inv(a, NextWrite(a, s))
  {
    HeaderCommits(a, s);
    hide Recovered, PutHeader;
    var r := NextWrite(a, s);
    assert Durable(r) == s.view;
  }

  lemma SameHomeThen(a: Area, d: Disk, e: Disk, f: Disk)
    requires SameHome(a, d, e) && SameHome(a, e, f)
    ensures SameHome(a, d, f)
  {
  }

  /** One more block installed, in commit or in recovery. */
  lemma InstallFacts(a: Area, s: State, k: nat)
    requires Basic(a, s) && Header(a, s.disk) == s.lh && k < |s.lh| && InstalledFirst(a, s, k)
    requires Enabled(a, s, DiskWrite) && (s.phase == Installing(k) || s.phase == Reinstalling(k))
    requires SameHome(a, Recovered(a, s.disk), Durable(s))
    ensures var r := NextWrite(a, s);
            && Basic(a, r) && Header(a, r.disk) == r.lh && InstalledFirst(a, r, k + 1)
            && (OthersClean(a, s) ==> OthersClean(a, r)) && (LoggedFirst(a, s, |s.lh|) ==> LoggedFirst(a, r, |s.lh|))
            && SameHome(a, Recovered(a, r.disk), Durable(r))
  {
    hide Recovered, SameHome, Apply;
    InstallStepKeepsRecovered(a, s.disk, k);
    var r := NextWrite(a, s);
    assert Header(a, r.disk) == Header(a, s.disk);
    SameHomeThen(a, Recovered(a, r.disk), Recovered(a, s.disk), Durable(s));
  }

  lemma InstallingKeepsInv(a: Area, s: State)
    requires Inv(a, s) && Enabled(a, s, DiskWrite) && (s.phase.Installing? || s.phase.Reinstalling?)
    ensures Inv(a, NextWrite(a, s))
  {
    hide Recovered, SameHome, LoggedFirst, InstalledFirst, OthersClean, Basic, Header, Loggable, ValidLog;
    InstallFacts(a, s, s.phase.k);
  }

  /** Once every listed block is installed the home blocks are the recovered ones. */
  lemma InstalledRecovered(a: Area, s: State)
    requires Basic(a, s) && Header(a, s.disk) == s.lh && InstalledFirst(a, s, |s.lh|)
    ensures SameHome(a, s.disk, Recovered(a, s.disk))
  {
    forall b | 0 <= b < |s.disk| && !a.Inside(b) ensures Recovered(a, s.disk)[b] == s.disk[b] {
      InstallAt(a, s.disk, s.lh, |s.lh|, b);
    }
  }

  lemma ClearingKeepsInv(a: Area, s: State)
    requires Inv(a, s) && Enabled(a, s, DiskWrite) && (s.phase.Clearing? || s.phase.Reclearing?)
    ensures Inv(a, NextWrite(a, s))
  {
    var r := NextWrite(a, s);
    InstalledRecovered(a, s);
    ClearKeepsRecovered(a, s.disk);
    SameHomeTransitive(a);
  }

  lemma NextKeepsInv(a: Area, s: State, e: Event)
    requires Inv(a, s) && Enabled(a, s, e)
    ensures Inv(a, Next(a, s, e))
  {
    match e
    case Bread(b) =>
      BuffersKeepInv(a, s, OutOfBuffers, s.hands, s.held);
      BuffersKeepInv(a, s, s.panic, s.hands, s.held + {b});
    case Brelse(b) => BuffersKeepInv(a, s, s.panic, s.hands, s.held - {b});
    case Take =>
      BuffersKeepInv(a, s, OutOfBuffers, s.hands, s.held);
      BuffersKeepInv(a, s, s.panic, Next(a, s, e).hands, s.held);
    case Drop => BuffersKeepInv(a, s, s.panic, Next(a, s, e).hands, s.held);
    case Begin =>
    case Write(op, b, v) => WriteKeepsInv(a, s, op, b, v);
    case End(op) => EndKeepsInv(a, s, op);
    case Finish =>
    case Crash => CrashKeepsInv(a, s);
    case DiskWrite =>
      if s.phase.LoggingBlock? {
        LoggingKeepsInv(a, s);
      } else if s.phase.WritingHeader? {
        HeaderKeepsInv(a, s);
      } else if s.phase.Installing? || s.phase.Reinstalling? {
        InstallingKeepsInv(a, s);
      } else {
        ClearingKeepsInv(a, s);
      }
  }

  // Whole runs

  /** A run from a fresh file system: trace[i + 1] is the state after event i. */
  ghost predicate Run(a: Area, trace: seq<State>, events: seq<Event>) {
    && |trace| == |events| + 1 && Init(a, trace[0])
    && forall i :: 0 <= i < |events| ==> Enabled(a, trace[i], events[i]) && trace[i + 1] == Next(a, trace[i], events[i])
  }

  /** Every state of every run satisfies the invariant, whatever the size of the log. */
  lemma {:induction false} RunInv(a: Area, trace: seq<State>, events: seq<Event>, i: nat)
    requires Run(a, trace, events) && i < |trace|
    ensures Inv(a, trace[i])
  {
    hide Inv, Next;
    if i == 0 {
      InitInv(a, trace[0]);
    } else {
      RunInv(a, trace, events, i - 1);
      NextKeepsInv(a, trace[i - 1], events[i - 1]);
    }
  }

  lemma InitInv(a: Area, s: State)
    requires Init(a, s)
    ensures Inv(a, s)
  {
    EmptyRecovered(a, s.disk);
  }

  /** Crash atomicity of group commit. At every moment of every run, whatever the size of the log and also after a
      panic, a reboot recovers the last committed home blocks; a commit point adds the writes logged since the one
      before, all of them, made by operations that have all ended. */
  lemma RunAtomic(a: Area, trace: seq<State>, events: seq<Event>, i: nat)
    requires Run(a, trace, events) && i < |events|
    ensures var s, r := trace[i], trace[i + 1];
            && s.commits != [] && r.commits != [] && ValidLog(a, s.disk)
            && SameHome(a, Recovered(a, s.disk), Durable(s))
            && (r.commits != s.commits ==>
                  && events[i] == DiskWrite && s.ops == []
                  && r.commits == s.commits + [s.view] && SameHome(a, s.view, Apply(Durable(s), s.pending)))
  {
    RunInv(a, trace, events, i);
    RunInv(a, trace, events, i + 1);
  }
}
