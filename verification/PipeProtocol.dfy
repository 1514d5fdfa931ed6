/** Any number of readers and writers on one pipe: every run of the critical sections of pipe.c, with sleeping,
    waking, killing and closing. */
module PipeProtocol {
  import opened Blocks
  import opened Pipe

  datatype Writer = NotWriting | Writing(buf: seq<byte>, i: nat, asleep: bool)
  datatype Reader = NotReading | Reading(n: nat, asleep: bool)

  /** Bytes carry the number of their writer. Ghost history: what each writer has had accepted, and had before
      its current call; what all readers together have received. */
  datatype State = State(stored: seq<(nat, byte)>, taken: nat, readopen: bool, writeopen: bool,
                         writers: seq<Writer>, readers: seq<Reader>, wkilled: seq<bool>, rkilled: seq<bool>,
                         accepted: seq<seq<byte>>, before: seq<seq<byte>>, received: seq<(nat, byte)>)

  /** A thread may miss a kill that comes between its look at the flag and its sleep: seen is what it saw. */
  datatype Event =
    | StartWrite(w: nat, buf: seq<byte>)
    | RunWrite(w: nat, seen: bool)
    | StartRead(r: nat, n: nat)
    | RunRead(r: nat, seen: bool)
    | KillWriter(w: nat)
    | KillReader(r: nat)
    | CloseWrite
    | CloseRead

  predicate Sized(s: State) {
    |s.writers| == |s.wkilled| == |s.accepted| == |s.before| && |s.readers| == |s.rkilled| &&
        s.taken <= |s.stored| <= s.taken + PIPESIZE
  }

  /** An end is closed only when the last descriptor for it is, so no call on it is in progress. */
  predicate Enabled(s: State, e: Event)
    requires Sized(s)
  {
    match e
    case StartWrite(w, _) => w < |s.writers| && s.writers[w].NotWriting? && s.writeopen
    case RunWrite(w, seen) =>
      && w < |s.writers| && s.writers[w].Writing? && !s.writers[w].asleep
      && s.writers[w].i <= |s.writers[w].buf| && (seen ==> s.wkilled[w])
    case StartRead(r, _) => r < |s.readers| && s.readers[r].NotReading? && s.readopen
    case RunRead(r, seen) => r < |s.readers| && s.readers[r].Reading? && !s.readers[r].asleep && (seen ==> s.rkilled[r])
    case KillWriter(w) => w < |s.writers|
    case KillReader(r) => r < |s.readers|
    case CloseWrite => s.writeopen && forall w :: 0 <= w < |s.writers| ==> s.writers[w].NotWriting?
    case CloseRead => s.readopen && forall r :: 0 <= r < |s.readers| ==> s.readers[r].NotReading?
  }

  /** wakeup(&nwrite) */
  function WakeWriters(ws: seq<Writer>): (r: seq<Writer>)
    ensures |r| == |ws|
  {
    seq(|ws|, w requires 0 <= w < |ws| => if ws[w].Writing? then ws[w].(asleep := false) else ws[w])
  }

  /** wakeup(&nread) */
  function WakeReaders(rs: seq<Reader>): (r: seq<Reader>)
    ensures |r| == |rs|
  {
    seq(|rs|, k requires 0 <= k < |rs| => if rs[k].Reading? then rs[k].(asleep := false) else rs[k])
  }

  function Tagged(w: nat, b: seq<byte>): (r: seq<(nat, byte)>)
    ensures |r| == |b|
  {
    seq(|b|, k requires 0 <= k < |b| => (w, b[k]))
  }

  function NextWrite(s: State, w: nat, seen: bool): (s': State)
    requires Sized(s) && Enabled(s, RunWrite(w, seen))
  {
    var (buf, i) := (s.writers[w].buf, s.writers[w].i);
    var i' := i + Fit(|s.stored| - s.taken, |buf| - i);
    var outcome := WriteOutcome(i', |buf|, s.readopen, seen);
    s.(stored := s.stored + Tagged(w, buf[i..i']),
       accepted := s.accepted[w := s.accepted[w] + buf[i..i']],
       writers := s.writers[w := if outcome == WriterSleeps then Writing(buf, i', true) else NotWriting],
       readers := if outcome == WriteFailed then s.readers else WakeReaders(s.readers))
  }

  function NextRead(s: State, r: nat, seen: bool): (s': State)
    requires Sized(s) && Enabled(s, RunRead(r, seen))
  {
    var outcome := ReadOutcome(s.taken == |s.stored|, s.writeopen, seen);
    if outcome == Read then
      var k := Min(s.readers[r].n, |s.stored| - s.taken);
      s.(taken := s.taken + k, received := s.received + s.stored[s.taken..s.taken + k],
         readers := s.readers[r := NotReading], writers := WakeWriters(s.writers))
    else s.(readers := s.readers[r := if outcome == ReaderSleeps then Reading(s.readers[r].n, true) else NotReading])
  }

  function Next(s: State, e: Event): (s': State)
    requires Sized(s) && Enabled(s, e)
  {
    match e
    case StartWrite(w, buf) =>
      s.(writers := s.writers[w := Writing(buf, 0, false)], before := s.before[w := s.accepted[w]])
    case RunWrite(w, seen) => NextWrite(s, w, seen)
    case StartRead(r, n) => s.(readers := s.readers[r := Reading(n, false)])
    case RunRead(r, seen) => NextRead(s, r, seen)
    case KillWriter(w) =>
      s.(wkilled := s.wkilled[w := true],
         writers := if s.writers[w].Writing? then s.writers[w := s.writers[w].(asleep := false)] else s.writers)
    case KillReader(r) =>
      s.(rkilled := s.rkilled[r := true],
         readers := if s.readers[r].Reading? then s.readers[r := s.readers[r].(asleep := false)] else s.readers)
    case CloseWrite => s.(writeopen := false, readers := WakeReaders(s.readers))
    case CloseRead => s.(readopen := false, writers := WakeWriters(s.writers))
  }

  /** The bytes of writer w in a sequence of tagged bytes. */
  function From(b: seq<(nat, byte)>, w: nat): (r: seq<byte>) {
    if b == [] then [] else From(b[..|b| - 1], w) + if b[|b| - 1].0 == w then [b[|b| - 1].1] else []
  }

  predicate WriterOk(s: State, w: nat)
    requires Sized(s) && w < |s.writers|
  {
    var t := s.writers[w];
    && (t.Writing? ==> s.writeopen && t.i <= |t.buf| && s.accepted[w] == s.before[w] + t.buf[..t.i])
    && (t.Writing? && t.asleep ==> |s.stored| == s.taken + PIPESIZE && s.readopen && t.i < |t.buf|)
  }

  predicate ReaderOk(s: State, r: nat)
    requires Sized(s) && r < |s.readers|
  {
    var t := s.readers[r];
    && (t.Reading? ==> s.readopen)
    && (t.Reading? && t.asleep ==>
          s.writeopen && forall w :: 0 <= w < |s.writers| ==> !(s.writers[w].Writing? && s.writers[w].asleep))
  }

  /** What every run keeps. A sleeping writer means a full pipe with an open read end and no sleeping reader; a
      sleeping reader means an open write end. Readers receive a prefix of what was stored, in order, and what
      was stored from each writer is what was accepted from it, in order. */
  ghost predicate Inv(s: State) {
    && Sized(s) && s.received == s.stored[..s.taken]
    && (forall w :: 0 <= w < |s.writers| ==> WriterOk(s, w) && From(s.stored, w) == s.accepted[w])
    && (forall r :: 0 <= r < |s.readers| ==> ReaderOk(s, r))
  }

  predicate Init(s: State) {
    && Sized(s) && s.stored == s.received == [] && s.taken == 0 && s.readopen && s.writeopen
    && (forall w :: 0 <= w < |s.writers| ==> s.writers[w].NotWriting? && s.accepted[w] == [])
    && (forall r :: 0 <= r < |s.readers| ==> s.readers[r].NotReading?)
  }

  lemma InitInv(s: State)
    requires Init(s)
    ensures Inv(s)
  {
  }

  lemma {:induction false} FromAppend(b: seq<(nat, byte)>, w: nat, c: seq<byte>, v: nat)
    ensures From(b + Tagged(w, c), v) == From(b, v) + if v == w then c else []
    decreases |c|
  {
    var t := b + Tagged(w, c);
    if c == [] {
      assert t == b;
    } else {
      var m := |c| - 1;
      FromAppend(b, w, c[..m], v);
      assert t[..|t| - 1] == b + Tagged(w, c[..m]);
      assert c[..m] + [c[m]] == c;
    }
  }

  lemma WriteKeepsInv(s: State, w: nat, seen: bool)
    requires Inv(s) && Enabled(s, RunWrite(w, seen))
    ensures Inv(NextWrite(s, w, seen))
  {
    hide From;
    var s' := NextWrite(s, w, seen);
    var (buf, i) := (s.writers[w].buf, s.writers[w].i);
    var i' := i + Fit(|s.stored| - s.taken, |buf| - i);
    assert WriterOk(s, w);
    assert buf[..i] + buf[i..i'] == buf[..i'];
    forall v | 0 <= v < |s'.writers| ensures WriterOk(s', v) && From(s'.stored, v) == s'.accepted[v] {
      FromAppend(s.stored, w, buf[i..i'], v);
      assert WriterOk(s, v);
    }
    forall r | 0 <= r < |s'.readers| ensures ReaderOk(s', r) {
      assert ReaderOk(s, r);
    }
  }

  lemma ReadKeepsInv(s: State, r: nat, seen: bool)
    requires Inv(s) && Enabled(s, RunRead(r, seen))
    ensures Inv(NextRead(s, r, seen))
  {
    var s' := NextRead(s, r, seen);
    forall v | 0 <= v < |s'.writers| ensures WriterOk(s', v) {
      assert WriterOk(s, v);
    }
    forall q | 0 <= q < |s'.readers| ensures ReaderOk(s', q) {
      assert ReaderOk(s, q) && ReaderOk(s, r);
      forall v | 0 <= v < |s.writers|
        ensures s.writers[v].Writing? && s.writers[v].asleep ==> |s.stored| == s.taken + PIPESIZE
      {
        assert WriterOk(s, v);
      }
    }
  }

  lemma OtherKeepsInv(s: State, e: Event)
    requires Inv(s) && Enabled(s, e) && !e.RunWrite? && !e.RunRead?
    ensures Inv(Next(s, e))
  {
    hide From;
    var s' := Next(s, e);
    forall v | 0 <= v < |s'.writers| ensures WriterOk(s', v) {
      assert WriterOk(s, v);
    }
    forall q | 0 <= q < |s'.readers| ensures ReaderOk(s', q) {
      assert ReaderOk(s, q);
    }
  }

  lemma StepKeepsInv(s: State, e: Event)
    requires Inv(s) && Enabled(s, e)
    ensures Inv(Next(s, e))
  {
    match e
    case RunWrite(w, seen) => WriteKeepsInv(s, w, seen);
    case RunRead(r, seen) => ReadKeepsInv(s, r, seen);
    case _ => OtherKeepsInv(s, e);
  }

  /** A run from s by the events es reaches t. */
  ghost predicate Run(s: State, es: seq<Event>, t: State)
    decreases |es|
  {
    if es == [] then s == t else Sized(s) && Enabled(s, es[0]) && Run(Next(s, es[0]), es[1..], t)
  }

  /** Every run keeps the invariant. */
  lemma {:induction false} RunInv(s: State, es: seq<Event>, t: State)
    requires Inv(s) && Run(s, es, t)
    ensures Inv(t)
    decreases |es|
  {
    if es != [] {
      StepKeepsInv(s, es[0]);
      RunInv(Next(s, es[0]), es[1..], t);
    }
  }

  /** First in, first out, for every run and every writer: what has been received from a writer is a prefix of what
      it has written, and the rest, at most PIPESIZE bytes, is in the pipe. */
  lemma RunFifo(s: State, es: seq<Event>, t: State, w: nat)
    requires Init(s) && Run(s, es, t) && w < |t.writers|
    ensures Sized(t) && t.received + t.stored[t.taken..] == t.stored && |t.stored[t.taken..]| <= PIPESIZE
    ensures From(t.received, w) + From(t.stored[t.taken..], w) == t.accepted[w]
  {
    InitInv(s);
    RunInv(s, es, t);
    FromConcat(t.received, t.stored[t.taken..], w);
  }

  lemma {:induction false} FromConcat(a: seq<(nat, byte)>, b: seq<(nat, byte)>, w: nat)
    ensures From(a + b, w) == From(a, w) + From(b, w)
    decreases |b|
  {
    if b == [] {
      assert a + b == a;
    } else {
      assert (a + b)[..|a + b| - 1] == a + b[..|b| - 1];
      FromConcat(a, b[..|b| - 1], w);
    }
  }

  /** A write that returns has had all of its bytes accepted, in order, and nothing else. */
  lemma WriteReturns(s: State, w: nat, seen: bool)
    requires Inv(s) && Enabled(s, RunWrite(w, seen))
    ensures var (t, t') := (s.writers[w], NextWrite(s, w, seen));
            var room := PIPESIZE - (|s.stored| - s.taken);
            && (t'.writers[w].NotWriting? && |t.buf| - t.i <= room ==> t'.accepted[w] == s.before[w] + t.buf)
            && (t'.writers[w].NotWriting? && |t.buf| - t.i > room ==> !s.readopen || s.wkilled[w])
  {
    hide From, Tagged, ReaderOk;
    var (buf, i) := (s.writers[w].buf, s.writers[w].i);
    assert WriterOk(s, w);
    if |buf| - i <= PIPESIZE - (|s.stored| - s.taken) {
      assert buf[i..|buf|] == buf[i..] && buf[..i] + buf[i..] == buf;
    }
  }

  predicate ReaderAsleep(s: State, r: nat) {
    r < |s.readers| && s.readers[r].Reading? && s.readers[r].asleep
  }

  predicate WriterAsleep(s: State, w: nat) {
    w < |s.writers| && s.writers[w].Writing? && s.writers[w].asleep
  }

  /** Who sleeps after a step of reader r: r itself exactly if the pipe is empty, can still be written to, and r has not
      seen that it was killed; and of the others those who slept, unless the read returns: then no writer does. */
  lemma ReadSleeps(s: State, r: nat, seen: bool, q: nat)
    requires Inv(s) && Enabled(s, RunRead(r, seen))
    ensures var t, sleeps := NextRead(s, r, seen), s.taken == |s.stored| && s.writeopen && !seen;
            && (ReaderAsleep(t, r) <==> sleeps) && (t.readers[r].NotReading? <==> !sleeps)
            && (q != r ==> (ReaderAsleep(t, q) <==> ReaderAsleep(s, q)))
            && (s.taken < |s.stored| || !s.writeopen ==> !WriterAsleep(t, q))
            && (s.taken == |s.stored| && s.writeopen ==> (WriterAsleep(t, q) <==> WriterAsleep(s, q)))
  {
    hide From;
  }

  /** A read that returns has taken the oldest bytes, n of them or all there were. */
  lemma ReadTakes(s: State, r: nat, seen: bool)
    requires Inv(s) && Enabled(s, RunRead(r, seen))
    ensures var t, k := NextRead(s, r, seen), |NextRead(s, r, seen).received| - |s.received|;
            && 0 <= k <= s.readers[r].n && t.taken == s.taken + k && t.stored == s.stored
            && t.received == s.received + s.stored[s.taken..t.taken]
            && (t.readers[r].NotReading? && !seen && k < s.readers[r].n ==> t.taken == |t.stored|)
  {
    hide From;
  }

  /** Who sleeps after a step of writer w: w itself exactly if it has more bytes than fit, the pipe can still be read,
      and w has not seen that it was killed; no reader, unless the write fails. */
  lemma WriteSleeps(s: State, w: nat, seen: bool, q: nat)
    requires Inv(s) && Enabled(s, RunWrite(w, seen))
    ensures var t := NextWrite(s, w, seen);
            var more := |s.writers[w].buf| - s.writers[w].i > PIPESIZE - (|s.stored| - s.taken);
            && (WriterAsleep(t, w) <==> more && s.readopen && !seen)
            && (t.writers[w].NotWriting? <==> !(more && s.readopen && !seen))
            && (q != w ==> (WriterAsleep(t, q) <==> WriterAsleep(s, q)))
            && (ReaderAsleep(t, q) <==> ReaderAsleep(s, q) && more && (!s.readopen || seen))
  {
    hide From, Tagged;
  }

  /** kill wakes the one it marks, and nobody else. */
  lemma KillAwakes(s: State, e: Event, q: nat)
    requires Inv(s) && Enabled(s, e) && (e.KillReader? || e.KillWriter?)
    ensures var t := Next(s, e);
            && (ReaderAsleep(t, q) <==> ReaderAsleep(s, q) && e != KillReader(q))
            && (WriterAsleep(t, q) <==> WriterAsleep(s, q) && e != KillWriter(q))
            && (e == KillReader(q) ==> t.rkilled[q]) && (e == KillWriter(q) ==> t.wkilled[q])
  {
    hide From;
  }

  /** A read of n > 0 that returns no bytes has met the end of the data: everything stored was received. */
  lemma ReadZeroIsEof(s: State, r: nat, seen: bool)
    requires Inv(s) && Enabled(s, RunRead(r, seen)) && s.readers[r].n > 0
    requires ReadOutcome(s.taken == |s.stored|, s.writeopen, seen) == Read && NextRead(s, r, seen).taken == s.taken
    ensures !s.writeopen && s.received == s.stored
  {
  }

  /** ... and no run stores anything after that. */
  lemma {:induction false} EofIsFinal(s: State, es: seq<Event>, t: State)
    requires Inv(s) && Run(s, es, t) && !s.writeopen
    ensures t.stored == s.stored && !t.writeopen
    decreases |es|
  {
    if es != [] {
      StepKeepsInv(s, es[0]);
      forall w | 0 <= w < |s.writers| ensures s.writers[w].NotWriting? {
        assert WriterOk(s, w);
      }
      EofIsFinal(Next(s, es[0]), es[1..], t);
    }
  }

  /** Closing an end releases everyone asleep on it, and no run puts anyone to sleep on it again. */
  lemma {:induction false} ClosedNeverBlocks(s: State, es: seq<Event>, t: State)
    requires Inv(s) && Run(s, es, t)
    ensures !s.writeopen ==> forall r :: 0 <= r < |t.readers| ==> !(t.readers[r].Reading? && t.readers[r].asleep)
    ensures !s.readopen ==> forall w :: 0 <= w < |t.writers| ==> !(t.writers[w].Writing? && t.writers[w].asleep)
  {
    RunInv(s, es, t);
    StaysClosed(s, es, t);
    forall r | 0 <= r < |t.readers| && t.readers[r].Reading? && t.readers[r].asleep ensures t.writeopen {
      assert ReaderOk(t, r);
    }
    forall w | 0 <= w < |t.writers| && t.writers[w].Writing? && t.writers[w].asleep ensures t.readopen {
      assert WriterOk(t, w);
    }
  }

  lemma {:induction false} StaysClosed(s: State, es: seq<Event>, t: State)
    requires Run(s, es, t)
    ensures (t.writeopen ==> s.writeopen) && (t.readopen ==> s.readopen)
    decreases |es|
  {
    if es != [] {
      StaysClosed(Next(s, es[0]), es[1..], t);
    }
  }

  // The missing wakeup

  /** A reader sleeps although there is something to read. */
  predicate Stranded(s: State) {
    s.taken < |s.stored| && exists r :: 0 <= r < |s.readers| && s.readers[r].Reading? && s.readers[r].asleep
  }

  /** A writer that knows it was killed runs with more than PIPESIZE bytes to go while a reader sleeps. */
  predicate Strands(s: State, e: Event)
    requires Sized(s) && Enabled(s, e)
  {
    && e.RunWrite? && e.seen && |s.writers[e.w].buf| - s.writers[e.w].i > PIPESIZE
    && exists r :: 0 <= r < |s.readers| && s.readers[r].Reading? && s.readers[r].asleep
  }

  /** Exactly such a step strands a reader: it fills the pipe and returns without a wakeup. */
  lemma StrandedExactly(s: State, e: Event)
    requires Inv(s) && Enabled(s, e) && !Stranded(s)
    ensures Stranded(Next(s, e)) <==> Strands(s, e)
  {
    var s' := Next(s, e);
    if r :| 0 <= r < |s.readers| && s.readers[r].Reading? && s.readers[r].asleep {
      assert ReaderOk(s, r);
      assert s.taken == |s.stored|;
      if Strands(s, e) {
        assert s'.readers == s.readers;
        assert s'.readers[r].asleep;
      }
    }
    if Stranded(s') {
      var r :| 0 <= r < |s'.readers| && s'.readers[r].Reading? && s'.readers[r].asleep;
      StrandedBefore(s, e, r);
    }
  }

  lemma StrandedBefore(s: State, e: Event, r: nat)
    requires Inv(s) && Enabled(s, e) && !Stranded(s) && r < |Next(s, e).readers|
    requires var s' := Next(s, e); s'.taken < |s'.stored| && s'.readers[r].Reading? && s'.readers[r].asleep
    ensures Strands(s, e)
  {
    hide From;
    if e.RunWrite? {
      assert s.readers[r].Reading? && s.readers[r].asleep;
      assert ReaderOk(s, r);
    }
  }

  /** Without such steps no run strands a reader: a sleeping reader always faces an empty pipe with an open
      write end. */
  ghost predicate Careful(s: State, es: seq<Event>)
    decreases |es|
  {
    es == [] || (Sized(s) && Enabled(s, es[0]) && !Strands(s, es[0]) && Careful(Next(s, es[0]), es[1..]))
  }

  lemma {:induction false} CarefulRun(s: State, es: seq<Event>, t: State)
    requires Inv(s) && !Stranded(s) && Run(s, es, t) && Careful(s, es)
    ensures !Stranded(t)
    decreases |es|
  {
    if es != [] {
      StepKeepsInv(s, es[0]);
      StrandedExactly(s, es[0]);
      CarefulRun(Next(s, es[0]), es[1..], t);
    }
  }

  lemma RunNone(s: State)
    ensures Run(s, [], s)
  {
  }

  lemma RunFirst(s: State, e: Event, es: seq<Event>, t: State)
    requires Sized(s) && Enabled(s, e) && Run(Next(s, e), es, t)
    ensures Run(s, [e] + es, t)
  {
    assert ([e] + es)[1..] == es;
  }

  /** One writer and one reader: nothing written yet. */
  function Pair(w: Writer, r: Reader, killed: bool): (s: State)
    ensures Sized(s)
  {
    State([], 0, true, true, [w], [r], [killed], [false], [[]], [[]], [])
  }

  lemma PairSteps(buf: seq<byte>)
    ensures Next(Pair(NotWriting, NotReading, false), StartRead(0, 1)) == Pair(NotWriting, Reading(1, false), false)
    ensures Next(Pair(NotWriting, Reading(1, false), false), RunRead(0, false)) == Pair(NotWriting, Reading(1, true),
            false)
    ensures Next(Pair(NotWriting, Reading(1, true), false), StartWrite(0, buf)) == Pair(Writing(buf, 0, false),
            Reading(1, true), false)
    ensures Next(Pair(Writing(buf, 0, false), Reading(1, true), false), KillWriter(0)) == Pair(Writing(buf, 0, false),
            Reading(1, true), true)
  {
    assert [NotReading][0 := Reading(1, false)] == [Reading(1, false)];
  }

  lemma FillAndLeave(buf: seq<byte>)
    requires |buf| == PIPESIZE + 1
    ensures var s := Pair(Writing(buf, 0, false), Reading(1, true), true);
            Enabled(s, RunWrite(0, true)) && Stranded(Next(s, RunWrite(0, true)))
  {
    var s := Pair(Writing(buf, 0, false), Reading(1, true), true);
    var t := NextWrite(s, 0, true);
    assert t.readers[0].asleep;
  }

  /** It does happen: a reader goes to sleep, and a killed writer of 513 bytes fills the pipe and leaves. */
  lemma StrandingRun(buf: seq<byte>)
    requires |buf| == PIPESIZE + 1
    ensures Init(Pair(NotWriting, NotReading, false))
    ensures exists es, t :: Run(Pair(NotWriting, NotReading, false), es, t) && Stranded(t)
  {
    hide Next, Stranded, Run, Sized;
    var s := Pair(NotWriting, NotReading, false);
    var s1, s2 := Pair(NotWriting, Reading(1, false), false), Pair(NotWriting, Reading(1, true), false);
    var s3, s4 := Pair(Writing(buf, 0, false), Reading(1, true), false),
        Pair(Writing(buf, 0, false), Reading(1, true), true);
    PairSteps(buf);
    FillAndLeave(buf);
    var t := Next(s4, RunWrite(0, true));
    RunNone(t);
    RunFirst(s4, RunWrite(0, true), [], t);
    RunFirst(s3, KillWriter(0), [RunWrite(0, true)] + [], t);
    RunFirst(s2, StartWrite(0, buf), [KillWriter(0)] + ([RunWrite(0, true)] + []), t);
    RunFirst(s1, RunRead(0, false), [StartWrite(0, buf)] + ([KillWriter(0)] + ([RunWrite(0, true)] + [])), t);
    RunFirst(s, StartRead(0, 1), [RunRead(0, false)] + ([StartWrite(0, buf)] + ([KillWriter(0)] + ([RunWrite(0,
        true)] + []))), t);
  }
}
