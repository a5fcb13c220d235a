/** The bounded two-reader output capture: the object itself, the reader loop, and a machine
    that interleaves the two reader threads instruction by instruction. */
module BoundedCapture {
  import opened Aggregates

  const CEILING: nat := 8 * 1024 * 1024

  datatype Stream = Stdout | Stderr

  type Bytes = seq<bv8>

  // ---------------------------------------------------------------- one add, atomically

  /** The object's fields; `terminations` counts the kills that overflow has triggered. */
  datatype Capture = Capture(out: Bytes, err: Bytes, captured: nat, exceeded: bool, terminations: nat)
  {
    function Of(s: Stream): Bytes { if s == Stdout then out else err }

    function With(s: Stream, b: Bytes): Capture { if s == Stdout then this.(out := b) else this.(err := b) }
  }

  const FRESH := Capture([], [], 0, false, 0)

  function Accepted(captured: nat, chunk: Bytes): Bytes
  {
    var remaining := if captured < CEILING then CEILING - captured else 0;
    if |chunk| <= remaining then chunk else chunk[..remaining]
  }

  function Added(c: Capture, s: Stream, chunk: Bytes): Capture
  {
    var accepted := Accepted(c.captured, chunk);
    var newly := |chunk| > |accepted| && !c.exceeded;
    var grown := c.With(s, c.Of(s) + accepted);
    Capture(grown.out, grown.err, c.captured + |accepted|, c.exceeded || newly, c.terminations + if newly then 1 else 0)
  }

  /** A log lists the completed adds in the order in which they took effect. */
  type Log = seq<(Stream, Bytes)>

  function After(log: Log): Capture
  {
    if log == [] then FRESH
    else var n := |log| - 1; Added(After(log[..n]), log[n].0, log[n].1)
  }

  /** Everything one reader delivered, and the number of bytes both delivered. */
  function Delivered(log: Log, s: Stream): Bytes
  {
    if log == [] then []
    else var n := |log| - 1; Delivered(log[..n], s) + if log[n].0 == s then log[n].1 else []
  }

  function Offered(log: Log): nat
  {
    |Delivered(log, Stdout)| + |Delivered(log, Stderr)|
  }

  /** For every order of adds: the capture never exceeds the ceiling and is as full as it can be,
      each stream is a prefix of what its reader delivered, the flag says exactly that more was
      offered than the ceiling, without it nothing is missing, and overflow kills exactly once. */
  lemma {:induction false} CaptureFacts(log: Log)
    ensures var c := After(log);
      && |c.out| + |c.err| == c.captured == (if Offered(log) <= CEILING then Offered(log) else CEILING)
      && c.out <= Delivered(log, Stdout) && c.err <= Delivered(log, Stderr)
      && (c.exceeded <==> Offered(log) > CEILING)
      && (!c.exceeded ==> c.out == Delivered(log, Stdout) && c.err == Delivered(log, Stderr))
      && c.terminations == if c.exceeded then 1 else 0
  {
    if log != [] {
      var n := |log| - 1;
      CaptureFacts(log[..n]);
      var c, s, chunk := After(log[..n]), log[n].0, log[n].1;
      PrefixGrows(c.Of(s), Delivered(log[..n], s), chunk, Accepted(c.captured, chunk));
    }
  }

  lemma PrefixGrows(kept: Bytes, all: Bytes, chunk: Bytes, accepted: Bytes)
    requires kept <= all && accepted <= chunk && (accepted != [] ==> kept == all)
    ensures kept + accepted <= all + chunk
  {
  }

  // ---------------------------------------------------------------- the object

  class BoundedCaptureObject {
    var stdout: Bytes
    var stderr: Bytes
    var capturedBytes: nat
    var outputExceeded: bool
    var readerFailed: bool
    var overflowKills: nat
    var failureKills: nat

    ghost function State(): Capture
      reads this
    {
      Capture(stdout, stderr, capturedBytes, outputExceeded, overflowKills)
    }

    constructor ()
      ensures State() == FRESH && !readerFailed && failureKills == 0
    {
      stdout, stderr, capturedBytes, outputExceeded := [], [], 0, false;
      readerFailed, overflowKills, failureKills := false, 0, 0;
    }

    /** `add`, from acquiring the lock to the kill after its release. */
    method Add(stream: Stream, chunk: Bytes)
      modifies this
      ensures State() == Added(old(State()), stream, chunk)
      ensures readerFailed == old(readerFailed) && failureKills == old(failureKills)
    {
      var newlyExceeded := false;
      var remaining := if CEILING - capturedBytes > 0 then CEILING - capturedBytes else 0;
      var accepted := if |chunk| <= remaining then chunk else chunk[..remaining];
      if stream == Stdout {
        stdout := stdout + accepted;
      } else {
        stderr := stderr + accepted;
      }
      capturedBytes := capturedBytes + |accepted|;
      if |chunk| > |accepted| && !outputExceeded {
        outputExceeded := true;
        newlyExceeded := true;
      }
      if newlyExceeded {
        overflowKills := overflowKills + 1;
      }
    }

    /** `_drain_pipe` run alone: `results` are what os.read returns, None where it raises. It adds
        every chunk up to the first empty one. */
    method Drain(stream: Stream, results: seq<Option<Bytes>>, ghost log: Log)
      requires State() == After(log)
      modifies this
      ensures State() == After(log + Chunks(stream, results))
      ensures readerFailed == (old(readerFailed) || Fails(results))
      ensures failureKills == old(failureKills) + if Fails(results) then 1 else 0
    {
      hide After, Added;
      var rest := results;
      ghost var done := log;
      while rest != [] && rest[0].Some? && rest[0].value != []
        invariant State() == After(done)
        invariant done + Chunks(stream, rest) == log + Chunks(stream, results)
        invariant Fails(rest) == Fails(results)
        invariant readerFailed == old(readerFailed) && failureKills == old(failureKills)
      {
        ghost var entry := (stream, rest[0].value);
        AfterSnoc(done, stream, rest[0].value);
        assert done + Chunks(stream, rest) == (done + [entry]) + Chunks(stream, rest[1..]);
        Add(stream, rest[0].value);
        done := done + [entry];
        rest := rest[1..];
      }
      assert done + Chunks(stream, rest) == done;
      if rest != [] && rest[0].None? {
        readerFailed := true;
        failureKills := failureKills + 1;
      }
    }
  }

  function Chunks(s: Stream, results: seq<Option<Bytes>>): Log
  {
    if results == [] || results[0].None? || results[0].value == [] then []
    else [(s, results[0].value)] + Chunks(s, results[1..])
  }

  predicate Fails(results: seq<Option<Bytes>>)
  {
    results != [] && (results[0].None? || (results[0].value != [] && Fails(results[1..])))
  }

  // ---------------------------------------------------------------- two threads, step by step

  /** Where a reader is inside its loop and inside `add`. */
  datatype Pc =
    | Reading
    | Waiting(chunk: Bytes)
    | Locked(chunk: Bytes)
    | Sliced(chunk: Bytes, accepted: Bytes)
    | Extended(chunk: Bytes, accepted: Bytes)
    | Counted(chunk: Bytes, accepted: Bytes)
    | Flagged(newly: bool)
    | Released(newly: bool)
    | Finished(failed: bool)
  {
    predicate Holds() { Locked? || Sliced? || Extended? || Counted? || Flagged? }
  }

  /** The shared fields, who holds the lock, both program counters and, as history, the chunks
      in the order in which their buffers were extended and all that os.read gave each reader. */
  datatype Machine = Machine(c: Capture, lock: Option<Stream>, outPc: Pc, errPc: Pc, log: Log, outRead: Bytes,
                             errRead: Bytes)
  {
    function ReadBy(s: Stream): Bytes { if s == Stdout then outRead else errRead }

    function Received(s: Stream, b: Bytes): Machine
    {
      if s == Stdout then this.(outRead := outRead + b) else this.(errRead := errRead + b)
    }

    function At(s: Stream): Pc { if s == Stdout then outPc else errPc }

    function Goto(s: Stream, pc: Pc): Machine { if s == Stdout then this.(outPc := pc) else this.(errPc := pc) }
  }

  const BEGIN := Machine(FRESH, None, Reading, Reading, [], [], [])

  /** One step of reader s; `read` is what os.read returns if that is its next call, None if it raises. */
  function Step(m: Machine, s: Stream, read: Option<Bytes>): Machine
  {
    match m.At(s)
    case Reading =>
      if read.None? then m.Goto(s, Finished(true))
      else if read.value == [] then m.Goto(s, Finished(false))
      else m.Goto(s, Waiting(read.value)).Received(s, read.value)
    case Waiting(chunk) => if m.lock == None then m.Goto(s, Locked(chunk)).(lock := Some(s)) else m
    case Locked(chunk) => m.Goto(s, Sliced(chunk, Accepted(m.c.captured, chunk)))
    case Sliced(chunk, accepted) =>
      m.Goto(s, Extended(chunk, accepted)).(c := m.c.With(s, m.c.Of(s) + accepted), log := m.log + [(s, chunk)])
    case Extended(chunk, accepted) =>
      m.Goto(s, Counted(chunk, accepted)).(c := m.c.(captured := m.c.captured + |accepted|))
    case Counted(chunk, accepted) =>
      var newly := |chunk| > |accepted| && !m.c.exceeded;
      m.Goto(s, Flagged(newly)).(c := m.c.(exceeded := m.c.exceeded || newly))
    case Flagged(newly) => m.Goto(s, Released(newly)).(lock := None)
    case Released(newly) =>
      m.Goto(s, Reading).(c := m.c.(terminations := m.c.terminations + if newly then 1 else 0))
    case Finished(failed) => m
  }

  /** Kills that the adds in the log call for but that have not been carried out yet. */
  function Pending(exceeded: bool, pc: Pc): nat
  {
    match pc
    case Extended(chunk, accepted) => if |chunk| > |accepted| && !exceeded then 1 else 0
    case Counted(chunk, accepted) => if |chunk| > |accepted| && !exceeded then 1 else 0
    case Flagged(newly) => if newly then 1 else 0
    case Released(newly) => if newly then 1 else 0
    case _ => 0
  }

  /** The shared fields as they would be once the adds in progress complete. */
  ghost predicate Consistent(m: Machine)
  {
    && (forall s :: m.At(s).Holds() <==> m.lock == Some(s))
    && m.c.terminations + Pending(m.c.exceeded, m.outPc) + Pending(m.c.exceeded, m.errPc) == After(m.log).terminations
    && (match m.lock
        case None => m.c.(terminations := 0) == After(m.log).(terminations := 0)
        case Some(s) => HolderConsistent(m, s))
  }

  ghost predicate HolderConsistent(m: Machine, s: Stream)
  {
    var done := After(m.log);
    match m.At(s)
    case Locked(chunk) => m.c.(terminations := 0) == done.(terminations := 0)
    case Sliced(chunk, accepted) =>
      m.c.(terminations := 0) == done.(terminations := 0) && accepted == Accepted(m.c.captured, chunk)
    case Extended(chunk, accepted) =>
      m.c.out == done.out && m.c.err == done.err && m.c.captured + |accepted| == done.captured
      && done.exceeded == (m.c.exceeded || |chunk| > |accepted|)
    case Counted(chunk, accepted) =>
      m.c.out == done.out && m.c.err == done.err && m.c.captured == done.captured
      && done.exceeded == (m.c.exceeded || |chunk| > |accepted|)
    case Flagged(newly) => m.c.(terminations := 0) == done.(terminations := 0)
    case _ => false
  }

  lemma AfterSnoc(log: Log, s: Stream, chunk: Bytes)
    ensures After(log + [(s, chunk)]) == Added(After(log), s, chunk)
  {
    assert (log + [(s, chunk)])[..|log|] == log;
  }

  /** The step that extends a buffer is where an add takes effect. */
  lemma SlicedKeeps(m: Machine, s: Stream, read: Option<Bytes>)
    requires Consistent(m) && m.At(s).Sliced?
    ensures Consistent(Step(m, s, read))
  {
    hide After, Added;
    AfterSnoc(m.log, s, m.At(s).chunk);
    AddedIs(After(m.log), s, m.At(s).chunk);
    assert m.At(Stdout) == m.outPc && m.At(Stderr) == m.errPc;
    hide Accepted;
  }

  lemma CountedKeeps(m: Machine, s: Stream, read: Option<Bytes>)
    requires Consistent(m) && m.At(s).Counted?
    ensures Consistent(Step(m, s, read))
  {
    hide After, Added, Accepted;
    assert m.At(Stdout) == m.outPc && m.At(Stderr) == m.errPc;
  }

  lemma ExtendedKeeps(m: Machine, s: Stream, read: Option<Bytes>)
    requires Consistent(m) && m.At(s).Extended?
    ensures Consistent(Step(m, s, read))
  {
    hide After, Added, Accepted;
    assert m.At(Stdout) == m.outPc && m.At(Stderr) == m.errPc;
  }

  lemma ReleaseKeeps(m: Machine, s: Stream, read: Option<Bytes>)
    requires Consistent(m) && (m.At(s).Flagged? || m.At(s).Released?)
    ensures Consistent(Step(m, s, read))
  {
    hide After, Added, Accepted;
    assert m.At(Stdout) == m.outPc && m.At(Stderr) == m.errPc;
  }

  lemma ReadingKeeps(m: Machine, s: Stream, read: Option<Bytes>)
    requires Consistent(m) && (m.At(s).Reading? || m.At(s).Waiting? || m.At(s).Locked? || m.At(s).Finished?)
    ensures Consistent(Step(m, s, read))
  {
    hide After, Added, Accepted;
    assert m.At(Stdout) == m.outPc && m.At(Stderr) == m.errPc;
  }

  /** Each step of either reader keeps the shared fields consistent with the log. */
  lemma StepKeepsConsistent(m: Machine, s: Stream, read: Option<Bytes>)
    requires Consistent(m)
    ensures Consistent(Step(m, s, read))
  {
    hide Consistent, Step;
    match m.At(s)
    case Sliced(_, _) => SlicedKeeps(m, s, read);
    case Extended(_, _) => ExtendedKeeps(m, s, read);
    case Counted(_, _) => CountedKeeps(m, s, read);
    case Flagged(_) => ReleaseKeeps(m, s, read);
    case Released(_) => ReleaseKeeps(m, s, read);
    case _ => ReadingKeeps(m, s, read);
  }

  lemma AddedIs(c: Capture, s: Stream, chunk: Bytes)
    ensures var accepted := Accepted(c.captured, chunk);
      var newly := |chunk| > |accepted| && !c.exceeded;
      && Added(c, s, chunk).out == (if s == Stdout then c.out + accepted else c.out)
      && Added(c, s, chunk).err == (if s == Stderr then c.err + accepted else c.err)
      && Added(c, s, chunk).captured == c.captured + |accepted|
      && Added(c, s, chunk).exceeded == (c.exceeded || |chunk| > |accepted|)
      && Added(c, s, chunk).terminations == c.terminations + if newly then 1 else 0
  {
  }

  /** The chunk a reader has read but not yet put into its buffer. */
  function InFlight(pc: Pc): Bytes
  {
    if pc.Waiting? || pc.Locked? || pc.Sliced? then pc.chunk else []
  }

  ghost predicate NothingLost(m: Machine)
  {
    NothingLostBy(m, Stdout) && NothingLostBy(m, Stderr)
  }

  ghost predicate NothingLostBy(m: Machine, s: Stream)
  {
    m.ReadBy(s) == Delivered(m.log, s) + InFlight(m.At(s))
  }

  lemma StepLosesNothing(m: Machine, s: Stream, read: Option<Bytes>)
    requires NothingLost(m)
    ensures NothingLost(Step(m, s, read))
  {
    hide Accepted, Delivered;
    var t, pc := Step(m, s, read), m.At(s);
    if pc.Sliced? {
      DeliveredSnoc(m.log, s, pc.chunk, Stdout);
      DeliveredSnoc(m.log, s, pc.chunk, Stderr);
    }
    assert NothingLostBy(m, Stdout) && NothingLostBy(m, Stderr);
    assert NothingLostBy(t, s);
    assert NothingLostBy(t, if s == Stdout then Stderr else Stdout);
    hide NothingLostBy;
  }

  lemma DeliveredSnoc(log: Log, s: Stream, chunk: Bytes, x: Stream)
    ensures Delivered(log + [(s, chunk)], x) == if x == s then Delivered(log, x) + chunk else Delivered(log, x)
  {
    assert (log + [(s, chunk)])[..|log|] == log;
  }

  lemma {:induction false} RunLosesNothing(m: Machine, schedule: seq<(Stream, Option<Bytes>)>)
    requires NothingLost(m)
    ensures NothingLost(Run(m, schedule))
    decreases |schedule|
  {
    hide NothingLost, Step;
    if schedule != [] {
      StepLosesNothing(m, schedule[0].0, schedule[0].1);
      RunLosesNothing(Step(m, schedule[0].0, schedule[0].1), schedule[1..]);
    }
  }

  function Run(m: Machine, schedule: seq<(Stream, Option<Bytes>)>): Machine
    decreases |schedule|
  {
    if schedule == [] then m else Run(Step(m, schedule[0].0, schedule[0].1), schedule[1..])
  }

  lemma {:induction false} RunKeepsConsistent(m: Machine, schedule: seq<(Stream, Option<Bytes>)>)
    requires Consistent(m)
    ensures Consistent(Run(m, schedule))
    decreases |schedule|
  {
    hide Consistent, Step;
    if schedule != [] {
      StepKeepsConsistent(m, schedule[0].0, schedule[0].1);
      RunKeepsConsistent(Step(m, schedule[0].0, schedule[0].1), schedule[1..]);
    }
  }

  /** Linearisability: under every schedule of the two readers, whenever nobody holds the lock the
      shared fields are those of the adds done one after the other in log order, and overflow has
      killed the process at most once. */
  lemma EveryScheduleIsSequential(schedule: seq<(Stream, Option<Bytes>)>)
    ensures var m := Run(BEGIN, schedule);
      && (m.lock == None ==> m.c.(terminations := 0) == After(m.log).(terminations := 0))
      && m.c.terminations <= 1
      && (m.outPc.Finished? && m.errPc.Finished? ==> m.c == After(m.log))
  {
    RunKeepsConsistent(BEGIN, schedule);
    CaptureFacts(Run(BEGIN, schedule).log);
  }

  /** A step takes in exactly the bytes its reader was given, and only while that reader is reading. */
  lemma StepReads(m: Machine, s: Stream, read: Option<Bytes>)
    ensures var taken := if m.At(s).Reading? && read.Some? then read.value else [];
      && Step(m, s, read).outRead == m.outRead + (if s == Stdout then taken else [])
      && Step(m, s, read).errRead == m.errRead + (if s == Stderr then taken else [])
    ensures m.At(s).Reading? ==>
      && (Step(m, s, read).At(s) == Finished(true) <==> read == None)
      && (Step(m, s, read).At(s) == Finished(false) <==> read == Some([]))
  {
  }

  /** At every instant, even inside an add, the two captures together stay within the ceiling and
      each is a prefix of what os.read gave its reader. */
  lemma CeilingAlways(schedule: seq<(Stream, Option<Bytes>)>)
    ensures var m := Run(BEGIN, schedule);
      |m.c.out| + |m.c.err| <= 8_388_608 && m.c.out <= m.outRead && m.c.err <= m.errRead
  {
    RunKeepsConsistent(BEGIN, schedule);
    RunLosesNothing(BEGIN, schedule);
    InstantFacts(Run(BEGIN, schedule));
    hide Run, Consistent, NothingLost;
  }

  lemma InstantFacts(m: Machine)
    requires Consistent(m) && NothingLost(m)
    ensures |m.c.out| + |m.c.err| <= 8_388_608 && m.c.out <= m.outRead && m.c.err <= m.errRead
  {
    hide After, Delivered, Accepted;
    CaptureFacts(m.log);
  }

  /** When both readers have finished, in whatever way, the object says exactly what happened:
      complete captures without the flag; a full capture and one kill for overflow with it. */
  lemma FinalCapture(schedule: seq<(Stream, Option<Bytes>)>)
    requires var m := Run(BEGIN, schedule); m.outPc.Finished? && m.errPc.Finished?
    ensures var m := Run(BEGIN, schedule);
      && (m.c.exceeded <==> |m.outRead| + |m.errRead| > 8_388_608)
      && (!m.c.exceeded ==> m.c.out == m.outRead && m.c.err == m.errRead)
      && (m.c.exceeded ==> |m.c.out| + |m.c.err| == 8_388_608)
      && m.c.terminations == if m.c.exceeded then 1 else 0
  {
    EveryScheduleIsSequential(schedule);
    RunLosesNothing(BEGIN, schedule);
    var m := Run(BEGIN, schedule);
    CaptureFacts(m.log);
    assert m.ReadBy(Stdout) == m.outRead && m.ReadBy(Stderr) == m.errRead;
    hide After, Delivered, Run;
  }
}
