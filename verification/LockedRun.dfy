/** The exactly-once locked run: absence checks, an exclusive attempt receipt, the workload,
    the chunked manifest and the judge summary.

    Any number of processes interleave their file-system calls. A process may die between
    any two calls, and the machine may crash, losing directory entries that were not yet
    fsynced. Only this protocol touches the four locations. */
module LockedRun {
  import opened Aggregates


  /** What a directory shows for a name: nothing, an entry that a machine crash may still
      lose, or one that a directory fsync has made permanent. */
  datatype Entry<T> = Absent | Fresh(content: T) | Durable(content: T)

  datatype Binding = Binding(digest: string, manifestPath: string)

  /** The attempt receipt; `details` stands for its remaining fields, start time included. */
  datatype Receipt = Receipt(runBinding: string, details: string)

  datatype Manifest = Manifest(runBinding: string, receipt: Receipt, payload: string)

  datatype Summary = Summary(manifestPath: string, manifest: Manifest, receipt: Receipt, written: nat, size: nat)

  datatype Stage =
    | Preflighted | ReceiptChecked | ManifestChecked | ChunksChecked | SummaryChecked
    | ReceiptTempWritten | ReceiptLinked | ReceiptSynced
    | Building | Built | PayloadVerified
    | ChunksWritten | ManifestLinked | ManifestSynced
    | SummaryOpen | SummarySynced | Done
  {
    function Rank(): nat
    {
      match this
      case Preflighted => 0
      case ReceiptChecked => 1
      case ManifestChecked => 2
      case ChunksChecked => 3
      case SummaryChecked => 4
      case ReceiptTempWritten => 5
      case ReceiptLinked => 6
      case ReceiptSynced => 7
      case Building => 8
      case Built => 9
      case PayloadVerified => 10
      case ChunksWritten => 11
      case ManifestLinked => 12
      case ManifestSynced => 13
      case SummaryOpen => 14
      case SummarySynced => 15
      case Done => 16
    }
  }

  datatype Process = Process(stage: Stage, binding: Binding, receipt: Receipt, payload: string)
  {
    function Candidate(): Manifest
    {
      Manifest(binding.digest, receipt, payload)
    }
  }

  /** `starts` counts the calls of build_payload over the whole history. */
  datatype State = State(receipt: Entry<Receipt>, manifests: map<string, Entry<Manifest>>, chunks: set<string>,
                         summary: Entry<Summary>, processes: map<nat, Process>, starts: nat)
  {
    predicate At(p: nat, stage: Stage)
    {
      p in processes && processes[p].stage == stage
    }

    function To(p: nat, stage: Stage): State
      requires p in processes
    {
      this.(processes := processes[p := processes[p].(stage := stage)])
    }

    function ManifestAt(path: string): Entry<Manifest>
    {
      if path in manifests then manifests[path] else Absent
    }
  }

  const EMPTY := State(Absent, map[], {}, Absent, map[], 0)

  datatype Step =
    | Launch(p: nat, binding: Binding, details: string)
    | CheckReceipt(p: nat) | CheckManifest(p: nat) | CheckChunks(p: nat) | CheckSummary(p: nat)
    | WriteReceiptTemp(p: nat) | LinkReceipt(p: nat) | SyncReceipt(p: nat)
    | StartWorkload(p: nat) | FinishWorkload(p: nat, payload: string) | VerifyPayload(p: nat)
    | WriteChunks(p: nat) | LinkManifest(p: nat) | SyncManifest(p: nat)
    | OpenSummary(p: nat, size: nat) | WriteSummary(p: nat, bytes: nat) | SyncSummary(p: nat) | VerifySummary(p: nat)
    | Die(p: nat)
    | MachineCrash(keepReceipt: bool, keptManifests: set<string>, keptChunks: set<string>, keepSummary: bool,
                   keptBytes: nat)

  function AfterCrash<T>(e: Entry<T>, keep: bool): Entry<T>
  {
    match e
    case Absent => Absent
    case Fresh(c) => if keep then Durable(c) else Absent
    case Durable(c) => Durable(c)
  }

  // Each call of a process is a function of the state. A call that is not the process's
  // next one, or that raises, changes nothing; a process that raised can only Die.

  /** A call that moves a process on when its check passes and touches no file that matters later. */
  function Pass(s: State, p: nat, from: Stage, to: Stage, check: bool): State
  {
    if s.At(p, from) && check then s.To(p, to) else s
  }

  predicate Free(s: State, p: nat)
  {
    p in s.processes && s.ManifestAt(s.processes[p].binding.manifestPath).Absent?
  }

  predicate ChunksFree(s: State, p: nat)
  {
    p in s.processes && s.processes[p].binding.manifestPath !in s.chunks
  }

  /** `_issue_locked_execution_capability`: the receipt on disk is this attempt's own. */
  predicate CapabilityIssued(s: State, p: nat)
  {
    p in s.processes && !s.receipt.Absent? && s.receipt.content == s.processes[p].receipt
    && s.receipt.content.runBinding == s.processes[p].binding.digest
  }

  function Launched(s: State, p: nat, binding: Binding, details: string): State
  {
    if p in s.processes then s
    else s.(processes := s.processes[p := Process(Preflighted, binding, Receipt(binding.digest, details), "")])
  }

  /** os.link never replaces an existing name. */
  function ReceiptLink(s: State, p: nat): State
  {
    if s.At(p, ReceiptTempWritten) && s.receipt.Absent?
    then s.To(p, ReceiptLinked).(receipt := Fresh(s.processes[p].receipt)) else s
  }

  function ReceiptSync(s: State, p: nat): State
  {
    if s.At(p, ReceiptLinked) && !s.receipt.Absent?
    then s.To(p, ReceiptSynced).(receipt := Durable(s.receipt.content)) else s
  }

  /** build_payload, behind the capability check. */
  function WorkloadStart(s: State, p: nat): State
  {
    if s.At(p, ReceiptSynced) && CapabilityIssued(s, p)
    then s.To(p, Building).(starts := s.starts + 1) else s
  }

  function WorkloadEnd(s: State, p: nat, payload: string): State
  {
    if s.At(p, Building)
    then s.(processes := s.processes[p := s.processes[p].(stage := Built, payload := payload)]) else s
  }

  /** Re-reads the receipt, checks both names, then makes the chunk directory exclusively. */
  function ChunkWrite(s: State, p: nat): State
  {
    if s.At(p, PayloadVerified) && CapabilityIssued(s, p) && Free(s, p) && ChunksFree(s, p)
    then s.To(p, ChunksWritten).(chunks := s.chunks + {s.processes[p].binding.manifestPath}) else s
  }

  function ManifestLink(s: State, p: nat): State
  {
    if s.At(p, ChunksWritten) && Free(s, p)
    then s.To(p, ManifestLinked)
          .(manifests := s.manifests[s.processes[p].binding.manifestPath := Fresh(s.processes[p].Candidate())])
    else s
  }

  function ManifestSync(s: State, p: nat): State
  {
    if s.At(p, ManifestLinked) && !Free(s, p)
    then var path := s.processes[p].binding.manifestPath;
         s.To(p, ManifestSynced).(manifests := s.manifests[path := Durable(s.manifests[path].content)])
    else s
  }

  /** O_CREAT | O_EXCL. */
  function SummaryCreate(s: State, p: nat, size: nat): State
  {
    if s.At(p, ManifestSynced) && s.summary.Absent?
    then s.To(p, SummaryOpen)
          .(summary := Fresh(Summary(s.processes[p].binding.manifestPath, s.processes[p].Candidate(),
                                     s.processes[p].receipt, 0, size)))
    else s
  }

  function SummaryWrite(s: State, p: nat, bytes: nat): State
  {
    if s.At(p, SummaryOpen) && s.summary.Fresh? && 0 < bytes <= s.summary.content.size - s.summary.content.written
    then s.(summary := Fresh(s.summary.content.(written := s.summary.content.written + bytes))) else s
  }

  function SummarySync(s: State, p: nat): State
  {
    if s.At(p, SummaryOpen) && s.summary.Fresh? && s.summary.content.written == s.summary.content.size
    then s.To(p, SummarySynced).(summary := Durable(s.summary.content)) else s
  }

  /** Every process stops; each entry not yet fsynced is kept or lost, and an unsynced summary
      keeps only some of its bytes. */
  function Crashed(s: State, keepReceipt: bool, keptManifests: set<string>, keptChunks: set<string>,
                   keepSummary: bool, keptBytes: nat): State
  {
    State(AfterCrash(s.receipt, keepReceipt),
          map path | path in s.manifests :: AfterCrash(s.manifests[path], path in keptManifests),
          s.chunks * keptChunks,
          if s.summary.Fresh? && keepSummary && keptBytes <= s.summary.content.written
          then Durable(s.summary.content.(written := keptBytes))
          else AfterCrash(s.summary, keepSummary),
          map[], s.starts)
  }

  function Next(s: State, step: Step): State
  {
    match step
    case Launch(p, binding, details) => Launched(s, p, binding, details)
    case CheckReceipt(p) => Pass(s, p, Preflighted, ReceiptChecked, s.receipt.Absent?)
    case CheckManifest(p) => Pass(s, p, ReceiptChecked, ManifestChecked, Free(s, p))
    case CheckChunks(p) => Pass(s, p, ManifestChecked, ChunksChecked, ChunksFree(s, p))
    case CheckSummary(p) => Pass(s, p, ChunksChecked, SummaryChecked, s.summary.Absent?)
    case WriteReceiptTemp(p) => Pass(s, p, SummaryChecked, ReceiptTempWritten, s.receipt.Absent?)
    case LinkReceipt(p) => ReceiptLink(s, p)
    case SyncReceipt(p) => ReceiptSync(s, p)
    case StartWorkload(p) => WorkloadStart(s, p)
    case FinishWorkload(p, payload) => WorkloadEnd(s, p, payload)
    case VerifyPayload(p) => Pass(s, p, Built, PayloadVerified, true)
    case WriteChunks(p) => ChunkWrite(s, p)
    case LinkManifest(p) => ManifestLink(s, p)
    case SyncManifest(p) => ManifestSync(s, p)
    case OpenSummary(p, size) => SummaryCreate(s, p, size)
    case WriteSummary(p, bytes) => SummaryWrite(s, p, bytes)
    case SyncSummary(p) => SummarySync(s, p)
    case VerifySummary(p) => Pass(s, p, SummarySynced, Done, true)
    case Die(p) => s.(processes := s.processes - {p})
    case MachineCrash(r, m, c, k, n) => Crashed(s, r, m, c, k, n)
  }

  // ---------------------------------------------------------------- the invariant

  /** The receipt precedes the one start of the workload, a visible manifest follows both, and
      any summary on disk, even a half-written one, names a durable manifest. */
  ghost predicate FilesOk(s: State)
  {
    && s.starts <= 1
    && (s.starts == 1 ==> s.receipt.Durable?)
    && (forall path :: path in s.manifests && !s.manifests[path].Absent? ==>
          s.receipt.Durable? && s.starts == 1 && s.manifests[path].content.receipt == s.receipt.content
          && s.manifests[path].content.runBinding == s.receipt.content.runBinding)
    && (!s.summary.Absent? ==> var m := s.summary.content;
          && s.ManifestAt(m.manifestPath) == Durable(m.manifest)
          && m.receipt == m.manifest.receipt && m.written <= m.size)
  }

  /** What the files say about a process, by how far it has got. */
  ghost predicate ProcessOk(s: State, c: Process)
  {
    var rank := c.stage.Rank();
    && c.receipt.runBinding == c.binding.digest
    && (rank >= 6 ==> !s.receipt.Absent? && s.receipt.content == c.receipt)
    && (rank >= 7 ==> s.receipt.Durable?)
    && (6 <= rank <= 7 ==> s.starts == 0)
    && (rank >= 8 ==> s.starts == 1)
    && (rank >= 11 ==> c.binding.manifestPath in s.chunks)
    && (rank >= 12 ==> s.ManifestAt(c.binding.manifestPath) in {Fresh(c.Candidate()), Durable(c.Candidate())})
    && (rank >= 13 ==> s.ManifestAt(c.binding.manifestPath) == Durable(c.Candidate()))
    && (rank >= 14 ==>
          && !s.summary.Absent? && s.summary.content.manifestPath == c.binding.manifestPath
          && s.summary.content.manifest == c.Candidate() && s.summary.content.receipt == c.receipt)
    && (rank >= 15 ==> s.summary.Durable? && s.summary.content.written == s.summary.content.size)
  }

  /** At most one process is past linking its receipt, and nobody is while there is no receipt. */
  ghost predicate OthersIdle(s: State, p: nat)
  {
    forall q :: q in s.processes && q != p ==> s.processes[q].stage.Rank() < 6
  }

  ghost predicate Inv(s: State)
  {
    && FilesOk(s)
    && (forall p :: p in s.processes ==> ProcessOk(s, s.processes[p]))
    && (forall p :: p in s.processes && s.processes[p].stage.Rank() >= 6 ==> OthersIdle(s, p))
  }

  lemma InvAt(s: State, p: nat)
    requires Inv(s) && p in s.processes
    ensures FilesOk(s) && ProcessOk(s, s.processes[p])
    ensures s.processes[p].stage.Rank() >= 6 || s.receipt.Absent? ==> OthersIdle(s, p)
  {
    forall q | q in s.processes && s.receipt.Absent? ensures s.processes[q].stage.Rank() < 6 {
      assert ProcessOk(s, s.processes[q]);
    }
  }

  /** A step of the only active process needs to be checked for that process alone. */
  lemma OwnerStep(s: State, t: State, p: nat)
    requires Inv(s) && p in s.processes && p in t.processes && t.processes == s.processes[p := t.processes[p]]
    requires s.processes[p].stage.Rank() >= 6 || s.receipt.Absent?
    requires FilesOk(t) && ProcessOk(t, t.processes[p])
    ensures Inv(t)
  {
    hide FilesOk;
    InvAt(s, p);
    forall q | q in t.processes && q != p ensures ProcessOk(t, t.processes[q]) && t.processes[q].stage.Rank() < 6 {
      assert ProcessOk(s, s.processes[q]);
    }
  }

  /** A step that touches no file and keeps the process below the range of the invariant. */
  lemma IdleStep(s: State, t: State, p: nat)
    requires Inv(s) && p in t.processes && t == s.(processes := s.processes[p := t.processes[p]])
    requires t.processes[p].stage.Rank() < 6 && t.processes[p].receipt.runBinding == t.processes[p].binding.digest
    ensures Inv(t)
  {
    forall q | q in t.processes && q != p ensures ProcessOk(t, t.processes[q]) {
      assert ProcessOk(s, s.processes[q]);
    }
  }

  lemma PassKeeps(s: State, p: nat, from: Stage, to: Stage, check: bool)
    requires Inv(s)
    requires to.Rank() < 6 || (8 <= from.Rank() && 8 <= to.Rank() < 11) || (from.Rank() == 15 && to.Rank() >= 15)
    ensures Inv(Pass(s, p, from, to, check))
  {
    var t := Pass(s, p, from, to, check);
    if t != s {
      InvAt(s, p);
      if to.Rank() < 6 {
        IdleStep(s, t, p);
      } else {
        OwnerStep(s, t, p);
      }
    }
  }

  lemma LaunchedKeeps(s: State, p: nat, binding: Binding, details: string)
    requires Inv(s)
    ensures Inv(Launched(s, p, binding, details))
  {
    if p !in s.processes {
      IdleStep(s, Launched(s, p, binding, details), p);
    }
  }

  lemma ReceiptLinkKeeps(s: State, p: nat)
    requires Inv(s)
    ensures Inv(ReceiptLink(s, p))
  {
    var t := ReceiptLink(s, p);
    if t != s {
      assert FilesOk(t) && ProcessOk(t, t.processes[p]) by { InvAt(s, p); }
      OwnerStep(s, t, p);
    }
  }

  lemma ReceiptSyncKeeps(s: State, p: nat)
    requires Inv(s)
    ensures Inv(ReceiptSync(s, p))
  {
    var t := ReceiptSync(s, p);
    if t != s {
      assert FilesOk(t) && ProcessOk(t, t.processes[p]) by { InvAt(s, p); }
      OwnerStep(s, t, p);
    }
  }

  lemma WorkloadStartKeeps(s: State, p: nat)
    requires Inv(s)
    ensures Inv(WorkloadStart(s, p))
  {
    var t := WorkloadStart(s, p);
    if t != s {
      assert FilesOk(t) && ProcessOk(t, t.processes[p]) by { InvAt(s, p); }
      OwnerStep(s, t, p);
    }
  }

  lemma WorkloadEndKeeps(s: State, p: nat, payload: string)
    requires Inv(s)
    ensures Inv(WorkloadEnd(s, p, payload))
  {
    var t := WorkloadEnd(s, p, payload);
    if t != s {
      assert FilesOk(t) && ProcessOk(t, t.processes[p]) by { InvAt(s, p); }
      OwnerStep(s, t, p);
    }
  }

  lemma ChunkWriteKeeps(s: State, p: nat)
    requires Inv(s)
    ensures Inv(ChunkWrite(s, p))
  {
    var t := ChunkWrite(s, p);
    if t != s {
      assert FilesOk(t) && ProcessOk(t, t.processes[p]) by { InvAt(s, p); }
      OwnerStep(s, t, p);
    }
  }

  lemma ManifestLinkKeeps(s: State, p: nat)
    requires Inv(s)
    ensures Inv(ManifestLink(s, p))
  {
    var t := ManifestLink(s, p);
    if t != s {
      assert FilesOk(t) && ProcessOk(t, t.processes[p]) by { InvAt(s, p); }
      OwnerStep(s, t, p);
    }
  }

  lemma ManifestSyncKeeps(s: State, p: nat)
    requires Inv(s)
    ensures Inv(ManifestSync(s, p))
  {
    var t := ManifestSync(s, p);
    if t != s {
      assert FilesOk(t) && ProcessOk(t, t.processes[p]) by { InvAt(s, p); }
      OwnerStep(s, t, p);
    }
  }

  lemma SummaryCreateKeeps(s: State, p: nat, size: nat)
    requires Inv(s)
    ensures Inv(SummaryCreate(s, p, size))
  {
    var t := SummaryCreate(s, p, size);
    if t != s {
      assert FilesOk(t) && ProcessOk(t, t.processes[p]) by { InvAt(s, p); }
      OwnerStep(s, t, p);
    }
  }

  lemma SummaryWriteKeeps(s: State, p: nat, bytes: nat)
    requires Inv(s)
    ensures Inv(SummaryWrite(s, p, bytes))
  {
    var t := SummaryWrite(s, p, bytes);
    if t != s {
      assert FilesOk(t) && ProcessOk(t, t.processes[p]) by { InvAt(s, p); }
      OwnerStep(s, t, p);
    }
  }

  lemma SummarySyncKeeps(s: State, p: nat)
    requires Inv(s)
    ensures Inv(SummarySync(s, p))
  {
    var t := SummarySync(s, p);
    if t != s {
      assert FilesOk(t) && ProcessOk(t, t.processes[p]) by { InvAt(s, p); }
      OwnerStep(s, t, p);
    }
  }

  lemma DieKeeps(s: State, p: nat)
    requires Inv(s)
    ensures Inv(s.(processes := s.processes - {p}))
  {
    var t := s.(processes := s.processes - {p});
    forall q | q in t.processes ensures ProcessOk(t, t.processes[q]) {
      assert ProcessOk(s, s.processes[q]);
    }
  }

  lemma CrashKeeps(s: State, r: bool, m: set<string>, c: set<string>, k: bool, n: nat)
    requires Inv(s)
    ensures Inv(Crashed(s, r, m, c, k, n))
  {
  }

  /** Every step of every process, every death and every crash keeps the invariant. */
  lemma StepKeepsInv(s: State, step: Step)
    requires Inv(s)
    ensures Inv(Next(s, step))
  {
    hide Inv, Pass, Launched, ReceiptLink, ReceiptSync, WorkloadStart, WorkloadEnd, ChunkWrite, ManifestLink,
         ManifestSync, SummaryCreate, SummaryWrite, SummarySync, Crashed;
    match step
    case Launch(p, binding, details) => LaunchedKeeps(s, p, binding, details);
    case CheckReceipt(p) => PassKeeps(s, p, Preflighted, ReceiptChecked, s.receipt.Absent?);
    case CheckManifest(p) => PassKeeps(s, p, ReceiptChecked, ManifestChecked, Free(s, p));
    case CheckChunks(p) => PassKeeps(s, p, ManifestChecked, ChunksChecked, ChunksFree(s, p));
    case CheckSummary(p) => PassKeeps(s, p, ChunksChecked, SummaryChecked, s.summary.Absent?);
    case WriteReceiptTemp(p) => PassKeeps(s, p, SummaryChecked, ReceiptTempWritten, s.receipt.Absent?);
    case LinkReceipt(p) => ReceiptLinkKeeps(s, p);
    case SyncReceipt(p) => ReceiptSyncKeeps(s, p);
    case StartWorkload(p) => WorkloadStartKeeps(s, p);
    case FinishWorkload(p, payload) => WorkloadEndKeeps(s, p, payload);
    case VerifyPayload(p) => PassKeeps(s, p, Built, PayloadVerified, true);
    case WriteChunks(p) => ChunkWriteKeeps(s, p);
    case LinkManifest(p) => ManifestLinkKeeps(s, p);
    case SyncManifest(p) => ManifestSyncKeeps(s, p);
    case OpenSummary(p, size) => SummaryCreateKeeps(s, p, size);
    case WriteSummary(p, bytes) => SummaryWriteKeeps(s, p, bytes);
    case SyncSummary(p) => SummarySyncKeeps(s, p);
    case VerifySummary(p) => PassKeeps(s, p, SummarySynced, Done, true);
    case Die(p) => DieKeeps(s, p);
    case MachineCrash(r, m, c, k, n) => CrashKeeps(s, r, m, c, k, n);
  }

  // ---------------------------------------------------------------- whole runs

  function Run(s: State, steps: seq<Step>): State
    decreases |steps|
  {
    if steps == [] then s else Run(Next(s, steps[0]), steps[1..])
  }

  lemma {:induction false} RunKeepsInv(s: State, steps: seq<Step>)
    requires Inv(s)
    ensures Inv(Run(s, steps))
    decreases |steps|
  {
    hide Next, Inv;
    if steps != [] {
      StepKeepsInv(s, steps[0]);
      RunKeepsInv(Next(s, steps[0]), steps[1..]);
    }
  }

  /** Over every interleaving, death and crash the workload starts at most once, and never
      without a durable receipt. */
  lemma WorkloadAtMostOnce(steps: seq<Step>)
    ensures var s := Run(EMPTY, steps); s.starts <= 1 && (s.starts == 1 ==> s.receipt.Durable?)
  {
    RunKeepsInv(EMPTY, steps);
  }

  /** A summary on disk implies a durable manifest, and a visible manifest implies a durable
      receipt with the same run binding. */
  lemma EvidenceChain(steps: seq<Step>, path: string)
    ensures var s := Run(EMPTY, steps);
      && (!s.summary.Absent? ==> s.ManifestAt(s.summary.content.manifestPath) == Durable(s.summary.content.manifest))
      && (!s.ManifestAt(path).Absent? ==>
            && s.receipt.Durable?
            && s.ManifestAt(path).content.receipt == s.receipt.content
            && s.ManifestAt(path).content.runBinding == s.receipt.content.runBinding)
  {
    RunKeepsInv(EMPTY, steps);
  }

  /** The capability check that guards the workload never refuses a process that gets there. */
  lemma CapabilityNeverRefused(steps: seq<Step>, p: nat)
    requires Run(EMPTY, steps).At(p, ReceiptSynced) || Run(EMPTY, steps).At(p, PayloadVerified)
    ensures CapabilityIssued(Run(EMPTY, steps), p)
  {
    RunKeepsInv(EMPTY, steps);
    InvAt(Run(EMPTY, steps), p);
  }

  /** Nothing written that a run could trip over, and nobody running. */
  ghost predicate Blank(f: State)
  {
    && f.receipt.Absent? && f.summary.Absent? && f.chunks == {} && f.processes == map[] && f.starts == 0
    && forall path :: f.ManifestAt(path).Absent?
  }

  /** Files as given, and p the only process. */
  function Alone(f: State, p: nat, stage: Stage, b: Binding, receipt: Receipt, payload: string): State
  {
    f.(processes := map[p := Process(stage, b, receipt, payload)])
  }

  lemma AloneTo(f: State, p: nat, from: Stage, to: Stage, b: Binding, receipt: Receipt, payload: string)
    ensures Alone(f, p, from, b, receipt, payload).To(p, to) == Alone(f, p, to, b, receipt, payload)
  {
    assert map[p := Process(from, b, receipt, payload)][p := Process(to, b, receipt, payload)]
        == map[p := Process(to, b, receipt, payload)];
  }

  lemma {:induction false} RunSnoc(s: State, steps: seq<Step>, step: Step)
    ensures Run(s, steps + [step]) == Next(Run(s, steps), step)
    decreases |steps|
  {
    hide Next;
    if steps != [] {
      assert (steps + [step])[1..] == steps[1..] + [step];
      RunSnoc(Next(s, steps[0]), steps[1..], step);
    }
  }

  /** One more step of a run from o. */
  lemma Onward(o: State, s: State, steps: seq<Step>, step: Step) returns (t: State, longer: seq<Step>)
    requires s == Run(o, steps)
    ensures t == Next(s, step) && t == Run(o, longer)
  {
    RunSnoc(o, steps, step);
    t, longer := Next(s, step), steps + [step];
  }

  /** The check before each of these calls passes when nothing has been written yet. */
  lemma OnwardPast(o: State, f: State, s: State, steps: seq<Step>, step: Step, p: nat, from: Stage, to: Stage,
                   b: Binding, receipt: Receipt)
    returns (t: State, longer: seq<Step>)
    requires Blank(f) && s == Run(o, steps) && s == Alone(f, p, from, b, receipt, "")
    requires || (step == CheckReceipt(p) && from == Preflighted && to == ReceiptChecked)
             || (step == CheckManifest(p) && from == ReceiptChecked && to == ManifestChecked)
             || (step == CheckChunks(p) && from == ManifestChecked && to == ChunksChecked)
             || (step == CheckSummary(p) && from == ChunksChecked && to == SummaryChecked)
             || (step == WriteReceiptTemp(p) && from == SummaryChecked && to == ReceiptTempWritten)
    ensures t == Run(o, longer) && t == Alone(f, p, to, b, receipt, "")
  {
    AloneTo(f, p, from, to, b, receipt, "");
    hide Run;
    assert s.ManifestAt(b.manifestPath) == f.ManifestAt(b.manifestPath);
    t, longer := Onward(o, s, steps, step);
  }

  lemma ReachesLink(o: State, f: State, steps0: seq<Step>, p: nat, b: Binding, details: string)
    returns (s: State, steps: seq<Step>)
    requires Blank(f) && f == Run(o, steps0)
    ensures s == Run(o, steps)
    ensures s == Alone(f, p, ReceiptTempWritten, b, Receipt(b.digest, details), "")
  {
    var receipt := Receipt(b.digest, details);
    hide Run;
    s, steps := Onward(o, f, steps0, Launch(p, b, details));
    assert s == Alone(f, p, Preflighted, b, receipt, "");
    hide Next, Blank;
    s, steps := OnwardPast(o, f, s, steps, CheckReceipt(p), p, Preflighted, ReceiptChecked, b, receipt);
    s, steps := OnwardPast(o, f, s, steps, CheckManifest(p), p, ReceiptChecked, ManifestChecked, b, receipt);
    s, steps := OnwardPast(o, f, s, steps, CheckChunks(p), p, ManifestChecked, ChunksChecked, b, receipt);
    s, steps := OnwardPast(o, f, s, steps, CheckSummary(p), p, ChunksChecked, SummaryChecked, b, receipt);
    s, steps := OnwardPast(o, f, s, steps, WriteReceiptTemp(p), p, SummaryChecked, ReceiptTempWritten, b, receipt);
  }

  lemma ReachesReceipt(o: State, f: State, steps0: seq<Step>, p: nat, b: Binding, details: string)
    returns (s: State, steps: seq<Step>)
    requires Blank(f) && f == Run(o, steps0)
    ensures s == Run(o, steps)
    ensures var receipt := Receipt(b.digest, details);
      s == Alone(f.(receipt := Durable(receipt)), p, ReceiptSynced, b, receipt, "")
  {
    s, steps := ReachesLink(o, f, steps0, p, b, details);
    hide Run;
    s, steps := Onward(o, s, steps, LinkReceipt(p));
    s, steps := Onward(o, s, steps, SyncReceipt(p));
  }

  lemma Workload(o: State, f: State, s0: State, steps0: seq<Step>, p: nat, b: Binding, receipt: Receipt,
                 payload: string)
    returns (s: State, steps: seq<Step>)
    requires s0 == Run(o, steps0) && receipt.runBinding == b.digest && f.starts == 0
    requires s0 == Alone(f.(receipt := Durable(receipt)), p, ReceiptSynced, b, receipt, "")
    ensures s == Run(o, steps)
    ensures s == Alone(f.(receipt := Durable(receipt), starts := 1), p, PayloadVerified, b, receipt, payload)
  {
    hide Run, Launched, ReceiptLink, ReceiptSync, ChunkWrite, ManifestLink, ManifestSync, SummaryCreate,
         SummaryWrite, SummarySync, Crashed;
    s, steps := Onward(o, s0, steps0, StartWorkload(p));
    s, steps := Onward(o, s, steps, FinishWorkload(p, payload));
    s, steps := Onward(o, s, steps, VerifyPayload(p));
  }

  /** Files as left by an undisturbed attempt with the manifest entry given. */
  function WithManifest(f: State, b: Binding, receipt: Receipt, m: Entry<Manifest>): State
  {
    f.(receipt := Durable(receipt), starts := 1, chunks := f.chunks + {b.manifestPath},
       manifests := f.manifests[b.manifestPath := m])
  }

  lemma ReachesManifest(o: State, f: State, s0: State, steps0: seq<Step>, p: nat, b: Binding, receipt: Receipt,
                        payload: string)
    returns (s: State, steps: seq<Step>)
    requires Blank(f) && s0 == Run(o, steps0) && receipt.runBinding == b.digest
    requires s0 == Alone(f.(receipt := Durable(receipt), starts := 1), p, PayloadVerified, b, receipt, payload)
    ensures s == Run(o, steps)
    ensures var m := Manifest(b.digest, receipt, payload);
      s == Alone(WithManifest(f, b, receipt, Durable(m)), p, ManifestSynced, b, receipt, payload)
  {
    var m := Manifest(b.digest, receipt, payload);
    var g := f.(receipt := Durable(receipt), starts := 1, chunks := f.chunks + {b.manifestPath});
    hide Run, Pass, Launched, ReceiptLink, ReceiptSync, WorkloadStart, WorkloadEnd, SummaryCreate, SummaryWrite,
         SummarySync, Crashed;
    assert s0.ManifestAt(b.manifestPath) == f.ManifestAt(b.manifestPath);
    s, steps := Onward(o, s0, steps0, WriteChunks(p));
    AloneTo(g, p, PayloadVerified, ChunksWritten, b, receipt, payload);
    assert s == Alone(g, p, ChunksWritten, b, receipt, payload);
    assert s.ManifestAt(b.manifestPath) == f.ManifestAt(b.manifestPath);
    s, steps := Onward(o, s, steps, LinkManifest(p));
    AloneTo(WithManifest(f, b, receipt, Fresh(m)), p, ChunksWritten, ManifestLinked, b, receipt, payload);
    assert s == Alone(WithManifest(f, b, receipt, Fresh(m)), p, ManifestLinked, b, receipt, payload);
    s, steps := ReachesManifestSync(o, f, s, steps, p, b, receipt, payload);
  }

  lemma ReachesManifestSync(o: State, f: State, s0: State, steps0: seq<Step>, p: nat, b: Binding, receipt: Receipt,
                            payload: string)
    returns (s: State, steps: seq<Step>)
    requires var m := Manifest(b.digest, receipt, payload);
      s0 == Run(o, steps0)
      && s0 == Alone(WithManifest(f, b, receipt, Fresh(m)), p, ManifestLinked, b, receipt, payload)
    ensures s == Run(o, steps)
    ensures var m := Manifest(b.digest, receipt, payload);
      s == Alone(WithManifest(f, b, receipt, Durable(m)), p, ManifestSynced, b, receipt, payload)
  {
    hide Run;
    var m := Manifest(b.digest, receipt, payload);
    s, steps := Onward(o, s0, steps0, SyncManifest(p));
    AloneTo(WithManifest(f, b, receipt, Durable(m)), p, ManifestLinked, ManifestSynced, b, receipt, payload);
  }

  /** The summary of a manifest with so many of its bytes written. */
  function SummaryOf(b: Binding, receipt: Receipt, payload: string, written: nat, size: nat): Summary
  {
    Summary(b.manifestPath, Manifest(b.digest, receipt, payload), receipt, written, size)
  }

  lemma ReachesWritten(o: State, g: State, s0: State, steps0: seq<Step>, p: nat, b: Binding, receipt: Receipt,
                       payload: string, written: nat, size: nat)
    returns (s: State, steps: seq<Step>)
    requires s0 == Run(o, steps0) && 0 < written <= size && g.summary.Absent?
    requires s0 == Alone(g, p, ManifestSynced, b, receipt, payload)
    ensures s == Run(o, steps)
    ensures var summary := Fresh(SummaryOf(b, receipt, payload, written, size));
      s == Alone(g.(summary := summary), p, SummaryOpen, b, receipt, payload)
  {
    hide Run;
    s, steps := Onward(o, s0, steps0, OpenSummary(p, size));
    AloneTo(g.(summary := Fresh(SummaryOf(b, receipt, payload, 0, size))), p, ManifestSynced, SummaryOpen, b, receipt,
            payload);
    s, steps := Onward(o, s, steps, WriteSummary(p, written));
  }

  lemma ReachesEnd(o: State, g: State, s0: State, steps0: seq<Step>, p: nat, b: Binding, receipt: Receipt,
                   payload: string, size: nat)
    returns (s: State, steps: seq<Step>)
    requires s0 == Run(o, steps0)
    requires var summary := Fresh(SummaryOf(b, receipt, payload, size, size));
      s0 == Alone(g.(summary := summary), p, SummaryOpen, b, receipt, payload)
    ensures s == Run(o, steps)
    ensures var summary := Durable(SummaryOf(b, receipt, payload, size, size));
      s == Alone(g.(summary := summary), p, Done, b, receipt, payload)
  {
    var h := g.(summary := Durable(SummaryOf(b, receipt, payload, size, size)));
    hide Run;
    s, steps := Onward(o, s0, steps0, SyncSummary(p));
    AloneTo(h, p, SummaryOpen, SummarySynced, b, receipt, payload);
    s, steps := Onward(o, s, steps, VerifySummary(p));
    AloneTo(h, p, SummarySynced, Done, b, receipt, payload);
  }

  /** An attempt up to a partly written summary, with nobody else about. */
  lemma Attempt(p: nat, b: Binding, details: string, payload: string, written: nat, size: nat)
    returns (s: State, steps: seq<Step>)
    requires 0 < written <= size
    ensures s == Run(EMPTY, steps)
    ensures var receipt := Receipt(b.digest, details);
      var g := WithManifest(EMPTY, b, receipt, Durable(Manifest(b.digest, receipt, payload)));
      s == Alone(g.(summary := Fresh(SummaryOf(b, receipt, payload, written, size))), p, SummaryOpen, b, receipt,
                 payload)
  {
    var receipt := Receipt(b.digest, details);
    assert Blank(EMPTY) && EMPTY == Run(EMPTY, []);
    s := EMPTY;
    var g := WithManifest(EMPTY, b, receipt, Durable(Manifest(b.digest, receipt, payload)));
    assert g.summary.Absent?;
    hide Run, Blank, Alone, WithManifest, SummaryOf;
    s, steps := ReachesReceipt(EMPTY, EMPTY, [], p, b, details);
    s, steps := Workload(EMPTY, EMPTY, s, steps, p, b, receipt, payload);
    s, steps := ReachesManifest(EMPTY, EMPTY, s, steps, p, b, receipt, payload);
    s, steps := ReachesWritten(EMPTY, g, s, steps, p, b, receipt, payload, written, size);
  }

  /** A process that nothing disturbs does finish, with one workload and exactly its own documents on disk. */
  lemma Undisturbed(p: nat, b: Binding, details: string, payload: string, size: nat) returns (steps: seq<Step>)
    requires size > 0
    ensures var receipt := Receipt(b.digest, details);
      var m := Manifest(b.digest, receipt, payload);
      Run(EMPTY, steps)
      == State(Durable(receipt), map[b.manifestPath := Durable(m)], {b.manifestPath},
               Durable(Summary(b.manifestPath, m, receipt, size, size)), map[p := Process(Done, b, receipt, payload)],
               1)
  {
    var receipt := Receipt(b.digest, details);
    var g := WithManifest(EMPTY, b, receipt, Durable(Manifest(b.digest, receipt, payload)));
    var s;
    s, steps := Attempt(p, b, details, payload, size, size);
    s, steps := ReachesEnd(EMPTY, g, s, steps, p, b, receipt, payload, size);
    hide Run;
    assert EMPTY.chunks + {b.manifestPath} == {b.manifestPath};
  }

  /** A machine crash can leave a durable summary of which any part is missing, beside its chunks or without. */
  lemma PartialSummaryOccurs(b: Binding, details: string, payload: string, written: nat, size: nat, kept: set<string>)
    returns (steps: seq<Step>)
    requires written <= size && size > 0
    ensures var receipt := Receipt(b.digest, details);
      && Run(EMPTY, steps).summary
         == Durable(Summary(b.manifestPath, Manifest(b.digest, receipt, payload), receipt, written, size))
      && Run(EMPTY, steps).chunks == if b.manifestPath in kept then {b.manifestPath} else {}
  {
    var s, t;
    s, steps := Attempt(0, b, details, payload, size, size);
    hide Run, WithManifest;
    t, steps := Onward(EMPTY, s, steps, MachineCrash(true, {}, kept, true, written));
  }

  /** A process that finishes leaves its chunks on disk and all three documents durable, the summary complete. */
  lemma CompletedRun(steps: seq<Step>, p: nat)
    requires Run(EMPTY, steps).At(p, Done)
    ensures var s := Run(EMPTY, steps);
      var c := s.processes[p];
      var m := Manifest(c.binding.digest, c.receipt, c.payload);
      && c.receipt.runBinding == c.binding.digest && c.binding.manifestPath in s.chunks
      && s.receipt == Durable(c.receipt) && s.ManifestAt(c.binding.manifestPath) == Durable(m)
      && s.summary.Durable?
      && s.summary.content == Summary(c.binding.manifestPath, m, c.receipt, s.summary.content.size,
                                      s.summary.content.size)
  {
    RunKeepsInv(EMPTY, steps);
    InvAt(Run(EMPTY, steps), p);
  }

  /** What is durable is final: no later step removes, replaces or edits it. */
  ghost predicate KeepsDurable(s: State, t: State)
  {
    && (s.receipt.Durable? ==> t.receipt == s.receipt)
    && (forall path :: s.ManifestAt(path).Durable? ==> t.ManifestAt(path) == s.ManifestAt(path))
    && (s.summary.Durable? ==> t.summary == s.summary)
    && s.starts <= t.starts
  }

  lemma ReceiptIsFinal(s: State, step: Step)
    requires s.receipt.Durable?
    ensures Next(s, step).receipt == s.receipt
  {
  }

  lemma SummaryIsFinal(s: State, step: Step)
    requires s.summary.Durable?
    ensures Next(s, step).summary == s.summary
  {
  }

  lemma ManifestIsFinal(s: State, step: Step, path: string)
    requires s.ManifestAt(path).Durable?
    ensures Next(s, step).ManifestAt(path) == s.ManifestAt(path)
  {
  }

  lemma StepKeepsDurable(s: State, step: Step)
    ensures KeepsDurable(s, Next(s, step))
  {
    assert s.starts <= Next(s, step).starts;
    hide Next;
    if s.receipt.Durable? { ReceiptIsFinal(s, step); }
    if s.summary.Durable? { SummaryIsFinal(s, step); }
    forall path | s.ManifestAt(path).Durable? ensures Next(s, step).ManifestAt(path) == s.ManifestAt(path) {
      ManifestIsFinal(s, step, path);
    }
  }

  lemma {:induction false} DurableIsFinal(s: State, steps: seq<Step>)
    ensures KeepsDurable(s, Run(s, steps))
    decreases |steps|
  {
    hide Next, Inv;
    if steps != [] {
      StepKeepsDurable(s, steps[0]);
      DurableIsFinal(Next(s, steps[0]), steps[1..]);
    }
  }

  // ---------------------------------------------------------------- late processes

  /** p, if it runs at all, and on that manifest path if one is given, has got no further than the stage. */
  predicate UpTo(s: State, p: nat, path: Option<string>, stage: Stage)
  {
    p in s.processes && (path.None? || s.processes[p].binding.manifestPath == path.value)
    ==> s.processes[p].stage.Rank() <= stage.Rank()
  }

  lemma ReceiptRefuses(s: State, step: Step, p: nat)
    requires s.receipt.Durable? && UpTo(s, p, None, Preflighted)
    ensures UpTo(Next(s, step), p, None, Preflighted)
  {
  }

  lemma ManifestRefuses(s: State, step: Step, p: nat, path: string)
    requires s.ManifestAt(path).Durable? && UpTo(s, p, Some(path), ReceiptChecked)
    ensures UpTo(Next(s, step), p, Some(path), ReceiptChecked)
  {
  }

  lemma SummaryRefuses(s: State, step: Step, p: nat)
    requires s.summary.Durable? && UpTo(s, p, None, ChunksChecked)
    ensures UpTo(Next(s, step), p, None, ChunksChecked)
  {
  }

  /** Whoever comes late is refused for good: with a durable receipt nobody gets past the first check, with a
      durable manifest nobody on its path past the second, with a durable summary nobody past the fourth. */
  lemma {:induction false} LateRunsRefused(s: State, steps: seq<Step>, p: nat, path: string)
    ensures s.receipt.Durable? && UpTo(s, p, None, Preflighted) ==> UpTo(Run(s, steps), p, None, Preflighted)
    ensures s.ManifestAt(path).Durable? && UpTo(s, p, Some(path), ReceiptChecked)
        ==> UpTo(Run(s, steps), p, Some(path), ReceiptChecked)
    ensures s.summary.Durable? && UpTo(s, p, None, ChunksChecked) ==> UpTo(Run(s, steps), p, None, ChunksChecked)
    decreases |steps|
  {
    hide Next, UpTo;
    if steps != [] {
      StepKeepsDurable(s, steps[0]);
      if s.receipt.Durable? && UpTo(s, p, None, Preflighted) { ReceiptRefuses(s, steps[0], p); }
      if s.ManifestAt(path).Durable? && UpTo(s, p, Some(path), ReceiptChecked) {
        ManifestRefuses(s, steps[0], p, path);
      }
      if s.summary.Durable? && UpTo(s, p, None, ChunksChecked) { SummaryRefuses(s, steps[0], p); }
      LateRunsRefused(Next(s, steps[0]), steps[1..], p, path);
    }
  }

  /** What is there at the time refuses as well: each absence check passes exactly when its place is empty. */
  lemma AbsenceChecked(s: State, p: nat)
    requires p in s.processes
    ensures var path := s.processes[p].binding.manifestPath;
      && (s.At(p, Preflighted) ==> (Next(s, CheckReceipt(p)).At(p, ReceiptChecked) <==> s.receipt == Absent))
      && (s.At(p, ReceiptChecked) ==> (Next(s, CheckManifest(p)).At(p, ManifestChecked)
                                       <==> path !in s.manifests || s.manifests[path] == Absent))
      && (s.At(p, ManifestChecked) ==> (Next(s, CheckChunks(p)).At(p, ChunksChecked) <==> path !in s.chunks))
      && (s.At(p, ChunksChecked) ==> (Next(s, CheckSummary(p)).At(p, SummaryChecked) <==> s.summary == Absent))
      && (s.At(p, SummaryChecked) ==>
            (Next(s, WriteReceiptTemp(p)).At(p, ReceiptTempWritten) <==> s.receipt == Absent))
      && (s.At(p, ReceiptTempWritten) ==> (Next(s, LinkReceipt(p)).At(p, ReceiptLinked) <==> s.receipt == Absent))
  {
  }

  /** In every state, one that no run reaches too: a process starts the workload exactly where the receipt on disk
      is its own, writes chunks exactly where its place is empty besides, links its manifest exactly where there is
      none, and creates the summary exactly where there is none. */
  lemma WritesChecked(s: State, p: nat, size: nat)
    requires p in s.processes
    ensures var own := s.processes[p];
      var path := own.binding.manifestPath;
      var entitled := s.receipt in {Fresh(own.receipt), Durable(own.receipt)}
                      && own.receipt.runBinding == own.binding.digest;
      var empty := path !in s.manifests || s.manifests[path] == Absent;
      && (s.At(p, ReceiptSynced) ==> (Next(s, StartWorkload(p)).starts == s.starts + 1 <==> entitled))
      && (s.At(p, PayloadVerified) ==>
            (Next(s, WriteChunks(p)).At(p, ChunksWritten) <==> entitled && empty && path !in s.chunks))
      && (s.At(p, ChunksWritten) ==> (Next(s, LinkManifest(p)).At(p, ManifestLinked) <==> empty))
      && (s.At(p, ManifestSynced) ==> (Next(s, OpenSummary(p, size)).At(p, SummaryOpen) <==> s.summary == Absent))
  {
  }

  /** A run that died or crashed after its receipt became durable but before the workload is
      spent: whatever is launched afterwards, the workload never starts. */
  ghost predicate Spent(s: State)
  {
    && s.receipt.Durable?
    && forall p :: !s.At(p, ReceiptLinked) && !s.At(p, ReceiptSynced)
  }

  /** Only the two receipt calls bring a process to the two stages before the workload. */
  lemma CheckBringsNobody(s: State, step: Step, p: nat, stage: Stage)
    requires stage in {ReceiptLinked, ReceiptSynced}
    requires !step.LinkReceipt? && !step.SyncReceipt? && !WritesLater(step)
    ensures Next(s, step).At(p, stage) ==> s.At(p, stage)
  {
    hide ReceiptLink, ReceiptSync, WorkloadStart, WorkloadEnd, ChunkWrite, ManifestLink, ManifestSync, SummaryCreate,
         SummaryWrite, SummarySync, Free, ChunksFree;
  }

  predicate WritesLater(step: Step)
  {
    || step.StartWorkload? || step.FinishWorkload? || step.WriteChunks? || step.LinkManifest? || step.SyncManifest?
    || step.OpenSummary? || step.WriteSummary? || step.SyncSummary?
  }

  lemma WriteBringsNobody(s: State, step: Step, p: nat, stage: Stage)
    requires stage in {ReceiptLinked, ReceiptSynced} && WritesLater(step)
    ensures Next(s, step).At(p, stage) ==> s.At(p, stage)
  {
    hide ReceiptLink, ReceiptSync, Pass, Launched, Crashed, Free, ChunksFree, CapabilityIssued;
  }

  lemma NobodyStarts(s: State, step: Step, p: nat)
    requires s.receipt.Durable? && !s.At(p, ReceiptLinked) && !s.At(p, ReceiptSynced)
    ensures !Next(s, step).At(p, ReceiptLinked) && !Next(s, step).At(p, ReceiptSynced)
  {
    if !step.LinkReceipt? && !step.SyncReceipt? {
      hide Next;
      forall stage: Stage | stage in {ReceiptLinked, ReceiptSynced} ensures !Next(s, step).At(p, stage) {
        if WritesLater(step) { WriteBringsNobody(s, step, p, stage); } else { CheckBringsNobody(s, step, p, stage); }
      }
    }
  }

  lemma StepKeepsSpent(s: State, step: Step)
    requires Spent(s)
    ensures Spent(Next(s, step)) && Next(s, step).starts == s.starts
  {
    assert Next(s, step).starts == s.starts by {
      if step.StartWorkload? { assert !s.At(step.p, ReceiptSynced); }
    }
    hide Next;
    ReceiptIsFinal(s, step);
    forall p ensures !Next(s, step).At(p, ReceiptLinked) && !Next(s, step).At(p, ReceiptSynced) {
      NobodyStarts(s, step, p);
    }
  }

  lemma {:induction false} SpentForever(s: State, steps: seq<Step>)
    requires Spent(s)
    ensures Run(s, steps).starts == s.starts
    decreases |steps|
  {
    hide Next, Spent;
    if steps != [] {
      StepKeepsSpent(s, steps[0]);
      SpentForever(Next(s, steps[0]), steps[1..]);
    }
  }

  /** While the workload has not started, and the attempt is not spent, some continuation starts it:
      either somebody is on the way, or a machine crash loses what is not durable and a new run begins. */
  lemma UnspentCanStart(s: State) returns (steps: seq<Step>)
    requires Inv(s) && s.starts == 0 && !Spent(s)
    ensures Run(s, steps).starts == 1
  {
    assert s == Run(s, []);
    if p :| s.At(p, ReceiptSynced) {
      steps := SyncedCanStart(s, s, [], p);
    } else if p :| s.At(p, ReceiptLinked) {
      var t, first := Onward(s, s, [], SyncReceipt(p));
      StepKeepsInv(s, SyncReceipt(p));
      LinkedSyncs(s, p);
      hide Run, Inv, Spent, Next;
      steps := SyncedCanStart(s, t, first, p);
    } else {
      var t, first := Onward(s, s, [], MachineCrash(false, {}, {}, false, 0));
      CrashBlanks(s);
      hide Run, Inv, Spent, Next, Blank, Alone;
      var u, second := ReachesReceipt(s, t, first, 0, Binding("", ""), "");
      var v, third := Workload(s, t, u, second, 0, Binding("", ""), Receipt("", ""), "");
      AloneStarts(t, Receipt("", ""));
      steps := third;
    }
  }

  lemma AloneStarts(f: State, receipt: Receipt)
    ensures
      Alone(f.(receipt := Durable(receipt), starts := 1), 0, PayloadVerified, Binding("", ""), receipt, "").starts == 1
  {
  }

  lemma LinkedSyncs(s: State, p: nat)
    requires Inv(s) && s.At(p, ReceiptLinked)
    ensures Next(s, SyncReceipt(p)).At(p, ReceiptSynced) && Next(s, SyncReceipt(p)).starts == s.starts
  {
    InvAt(s, p);
  }

  lemma SyncedCanStart(o: State, s: State, before: seq<Step>, p: nat) returns (steps: seq<Step>)
    requires Inv(s) && s.starts == 0 && s.At(p, ReceiptSynced) && s == Run(o, before)
    ensures Run(o, steps).starts == 1
  {
    hide Run;
    InvAt(s, p);
    var t;
    t, steps := Onward(o, s, before, StartWorkload(p));
    hide Inv;
  }

  /** A crash that keeps nothing it may lose leaves nothing, unless the receipt is durable. */
  lemma CrashBlanks(s: State)
    requires Inv(s) && s.starts == 0 && !s.receipt.Durable?
    ensures Blank(Next(s, MachineCrash(false, {}, {}, false, 0)))
  {
  }

  /** After every run that has not started the workload, some continuation starts it exactly when the
      attempt is not spent. */
  lemma CanStartIff(before: seq<Step>)
    requires Run(EMPTY, before).starts == 0
    ensures var s := Run(EMPTY, before); (exists after :: Run(s, after).starts == 1) <==> !Spent(s)
  {
    var s := Run(EMPTY, before);
    RunKeepsInv(EMPTY, before);
    hide Run, Inv;
    if Spent(s) {
      forall after ensures Run(s, after).starts == 0 { SpentForever(s, after); }
    } else {
      hide Spent;
      var steps := UnspentCanStart(s);
    }
  }

  /** An attempt can be spent without any workload: the process dies right after its receipt is durable. */
  lemma SpentOccurs() returns (steps: seq<Step>)
    ensures Spent(Run(EMPTY, steps)) && Run(EMPTY, steps).starts == 0
  {
    assert Blank(EMPTY) && EMPTY == Run(EMPTY, []);
    hide Run;
    var s;
    s, steps := ReachesReceipt(EMPTY, EMPTY, [], 0, Binding("", ""), "");
    s, steps := Onward(EMPTY, s, steps, Die(0));
  }

  // ---------------------------------------------------------------- the partial-write loop

  class Descriptor {
    var content: seq<bv8>

    /** os.write: accepts any number of the offered bytes, or reports none. */
    method Write(view: seq<bv8>) returns (written: int)
      modifies this
      ensures written <= |view|
      ensures content == old(content) + (if written > 0 then view[..written] else [])
    {
      written :| written <= |view|;
      if written > 0 {
        content := content + view[..written];
      }
    }
  }

  /** `_write_summary_exclusive` on a newly created file: it returns with exactly the whole
      document written, or raises with a proper prefix of it. */
  method WriteAll(f: Descriptor, serialized: seq<bv8>) returns (ok: bool)
    requires f.content == []
    modifies f
    ensures f.content <= serialized
    ensures ok <==> f.content == serialized
  {
    var view := serialized;
    while view != []
      invariant f.content + view == serialized
      decreases |view|
    {
      var written := f.Write(view);
      if written <= 0 {
        return false;
      }
      view := view[written..];
    }
    return true;
  }
}
