/** The staged runner: a chain of twelve checkpoints, each published exclusively.

    The store maps a stage position to what its directory holds. Any number of runners
    interleave; each reads the chain, makes the next directory exclusively, and publishes its
    manifest last. A runner may die between any two of these. The output directory of a stage
    is the entry the next runner reads for that stage. */
module StageChain {
  import opened Aggregates

  const STAGES: nat := 12

  /** The two run bindings of the protocol, and the manifest digest. */
  datatype Protocol = Protocol(capacity: string, locked: string, digest: Manifest -> string)
  datatype Mode = CapacityValidation | LockedSuccessor

  datatype Manifest = Manifest(stage: nat, runBinding: string, receipt: string, predecessor: Option<string>,
                               records: string)

  /** A checkpoint directory: made but without its manifest, or published. */
  datatype Slot = Partial | Published(manifest: Manifest)

  type Store = map<int, Slot>

  function RunBinding(protocol: Protocol, mode: Mode): string
  {
    if mode == CapacityValidation then protocol.capacity else protocol.locked
  }

  // ---------------------------------------------------------------- reading the chain

  /** The manifest model refuses a first checkpoint with a predecessor and a later one without. */
  predicate WellFormed(m: Manifest)
  {
    m.stage == 0 <==> m.predecessor == None
  }

  ghost predicate IsChain(protocol: Protocol, store: Store, chain: seq<Manifest>)
  {
    && |chain| <= STAGES
    && (forall i :: i in store <==> 0 <= i < |chain|)
    && (forall i :: 0 <= i < |chain| ==> store[i] == Published(chain[i]) && WellFormed(chain[i]) && chain[i].stage == i)
    && (forall i :: 0 < i < |chain| ==> chain[i].predecessor == Some(protocol.digest(chain[i - 1])))
  }

  lemma ChainLength(protocol: Protocol, store: Store, chain: seq<Manifest>, present: nat)
    requires IsChain(protocol, store, chain)
    requires present <= STAGES && (forall i :: 0 <= i < present ==> i in store)
        && (present < STAGES ==> present !in store)
    ensures |chain| == present
  {
    assert |chain| !in store;
    assert present > 0 ==> present - 1 in store;
  }

  /** A manifest in its place in a chain: of its stage, naming the one before, the first none. */
  predicate InPlace(protocol: Protocol, chain: seq<Manifest>, i: nat)
  {
    && i < |chain| && chain[i].stage == i
    && chain[i].predecessor == if i == 0 then None else Some(protocol.digest(chain[i - 1]))
  }

  /** A chain fills the first slots of the store, at most twelve, with its manifests in their places. */
  lemma ChainIff(protocol: Protocol, store: Store, chain: seq<Manifest>)
    ensures IsChain(protocol, store, chain)
       <==> && |chain| <= 12 && (forall i :: i in store <==> 0 <= i < |chain|)
            && (forall i :: 0 <= i < |chain| ==> store[i] == Published(chain[i]))
            && forall i :: 0 <= i < |chain| ==> InPlace(protocol, chain, i)
  {
    if IsChain(protocol, store, chain) {
      forall i | 0 <= i < |chain| ensures InPlace(protocol, chain, i) {
        assert store[i] == Published(chain[i]);
      }
    }
    if forall i :: 0 <= i < |chain| ==> InPlace(protocol, chain, i) {
      forall i | 0 <= i < |chain|
        ensures WellFormed(chain[i]) && chain[i].stage == i
        ensures i > 0 ==> chain[i].predecessor == Some(protocol.digest(chain[i - 1]))
      {
        assert InPlace(protocol, chain, i);
      }
    }
  }

  datatype Reading = Chain(manifests: seq<Manifest>) | UnknownEntries | MissingOrReordered | Unreadable
                   | StageDiffers | PredecessorDiffers

  lemma EntriesChain(protocol: Protocol, store: Store, chain: seq<Manifest>)
    requires |chain| <= STAGES && (forall i :: i in store <==> 0 <= i < |chain|)
    requires forall i :: 0 <= i < |chain| ==> Entry(protocol, store, chain, i)
    ensures IsChain(protocol, store, chain)
  {
    forall i | 0 <= i < |chain| ensures store[i] == Published(chain[i]) && WellFormed(chain[i]) && chain[i].stage == i
      && (i > 0 ==> chain[i].predecessor == Some(protocol.digest(chain[i - 1])))
    {
      assert Entry(protocol, store, chain, i);
    }
  }

  /** What each entry must be, spelled out position by position. */
  ghost predicate Entries(protocol: Protocol, store: Store, chain: seq<Manifest>, present: nat)
  {
    && |chain| == present
    && forall i :: 0 <= i < present ==> Entry(protocol, store, chain, i)
  }

  ghost predicate Entry(protocol: Protocol, store: Store, chain: seq<Manifest>, i: nat)
  {
    && i < |chain| && i in store && store[i] == Published(chain[i]) && WellFormed(chain[i]) && chain[i].stage == i
    && (i > 0 ==> chain[i].predecessor == Some(protocol.digest(chain[i - 1])))
  }

  /** The reading loop over the stages present. */
  method ReadManifests(protocol: Protocol, store: Store, present: nat) returns (r: Reading)
    requires present <= STAGES && forall i :: i in store <==> 0 <= i < present
    ensures r.Chain? ==> IsChain(protocol, store, r.manifests)
    ensures !r.Chain? ==> forall chain :: !IsChain(protocol, store, chain)
  {
    forall chain | IsChain(protocol, store, chain) ensures Entries(protocol, store, chain, present) {
      ChainLength(protocol, store, chain, present);
    }
    hide IsChain;
    var manifests: seq<Manifest> := [];
    for stage := 0 to present
      invariant |manifests| == stage
      invariant forall i :: 0 <= i < stage ==> Entry(protocol, store, manifests, i)
    {
      forall chain | IsChain(protocol, store, chain)
        ensures Entry(protocol, store, chain, stage) && (stage > 0 ==> store[stage - 1] == Published(chain[stage - 1]))
      {
        assert Entries(protocol, store, chain, present);
        assert stage > 0 ==> Entry(protocol, store, chain, stage - 1);
      }
      ghost var before := manifests;
      assert stage > 0 ==> Entry(protocol, store, manifests, stage - 1);
      if store[stage].Partial? || !WellFormed(store[stage].manifest) {
        return Unreadable;
      }
      var manifest := store[stage].manifest;
      if manifest.stage != stage {
        return StageDiffers;
      }
      if stage > 0 && manifest.predecessor != Some(protocol.digest(manifests[stage - 1])) {
        return PredecessorDiffers;
      }
      manifests := manifests + [manifest];
      forall i | 0 <= i <= stage ensures Entry(protocol, store, manifests, i) {
        if i < stage { assert Entry(protocol, store, before, i); }
      }
    }
    EntriesChain(protocol, store, manifests);
    return Chain(manifests);
  }

  /** `_read_input_chain`. */
  method ReadInputChain(protocol: Protocol, store: Store) returns (r: Reading)
    ensures r.Chain? ==> IsChain(protocol, store, r.manifests)
    ensures !r.Chain? ==> forall chain :: !IsChain(protocol, store, chain)
  {
    if exists i :: i in store && !(0 <= i < STAGES) {
      return UnknownEntries;
    }
    var present: nat := 0;
    while present < STAGES && present in store
      invariant present <= STAGES
      invariant forall i :: 0 <= i < present ==> i in store
    {
      present := present + 1;
    }
    if exists i :: i in store && i >= present {
      forall chain ensures !IsChain(protocol, store, chain) {
        if IsChain(protocol, store, chain) { ChainLength(protocol, store, chain, present); }
      }
      return MissingOrReordered;
    }
    hide IsChain;
    r := ReadManifests(protocol, store, present);
  }

  /** `_mode_from_predecessor`: exactly one mode must match. */
  function ModeOf(protocol: Protocol, runBinding: string): Option<Mode>
  {
    var c, l := protocol.capacity == runBinding, protocol.locked == runBinding;
    if c && !l then Some(CapacityValidation) else if l && !c then Some(LockedSuccessor) else None
  }

  /** What a runner, given its execution manifest's mode and attempt receipt, may publish next on
      a chain it has read: the stage and the manifest fields fixed in advance. */
  function Plan(protocol: Protocol, chain: seq<Manifest>, mode: Mode, receipt: string): Option<Manifest>
  {
    if chain == [] then Some(Manifest(0, RunBinding(protocol, mode), receipt, None, ""))
    else
      var last := chain[|chain| - 1];
      if |chain| >= STAGES then None                                         // already complete
      else if ModeOf(protocol, last.runBinding) != Some(mode) then None      // mode differs
      else if last.receipt != receipt then None                              // attempt differs
      else Some(Manifest(|chain|, RunBinding(protocol, mode), receipt, Some(protocol.digest(last)), ""))
  }

  // ---------------------------------------------------------------- the machine

  /** A runner that has planned its manifest, or has made its directory as well. */
  datatype Runner = Planned(plan: Manifest) | Writing(plan: Manifest)

  /** `published` lists the stages published so far, in order of publication. */
  datatype State = State(store: Store, runners: map<nat, Runner>, published: seq<nat>)

  const EMPTY := State(map[], map[], [])

  datatype Step =
    | Read(p: nat, chain: seq<Manifest>, mode: Mode, receipt: string)
    | MakeDirectory(p: nat)
    | Publish(p: nat, records: string)
    | Die(p: nat)

  ghost function Next(protocol: Protocol, s: State, step: Step): State
  {
    match step
    case Read(p, chain, mode, receipt) =>
      if p in s.runners || !IsChain(protocol, s.store, chain) || Plan(protocol, chain, mode, receipt).None?
         || |chain| in s.store then s
      else s.(runners := s.runners[p := Planned(Plan(protocol, chain, mode, receipt).value)])
    case MakeDirectory(p) =>  // mkdir fails on an existing name
      if p !in s.runners || !s.runners[p].Planned? || s.runners[p].plan.stage in s.store then s
      else State(s.store[s.runners[p].plan.stage as int := Partial],
                 s.runners[p := Writing(s.runners[p].plan)], s.published)
    case Publish(p, records) =>
      if p !in s.runners || !s.runners[p].Writing? then s
      else
        var m := s.runners[p].plan.(records := records);
        State(s.store[m.stage as int := Published(m)], s.runners - {p}, s.published + [m.stage])
    case Die(p) => s.(runners := s.runners - {p})
  }

  // ---------------------------------------------------------------- the invariant

  /** m fits on top of the first m.stage manifests of the chain. */
  ghost predicate Fits(protocol: Protocol, chain: seq<Manifest>, m: Manifest)
  {
    && m.stage <= |chain| && m.stage < STAGES && WellFormed(m)
    && (m.runBinding == protocol.capacity || m.runBinding == protocol.locked)
    && (m.stage > 0 ==> m.predecessor == Some(protocol.digest(chain[m.stage - 1]))
                        && m.receipt == chain[0].receipt && m.runBinding == chain[0].runBinding)
  }

  /** The published chain, and whether the directory after it has been made. */
  ghost predicate Holds(store: Store, chain: seq<Manifest>, open: bool)
  {
    && |chain| + (if open then 1 else 0) <= STAGES
    && (forall i :: i in store <==> 0 <= i < |chain| + if open then 1 else 0)
    && (forall i :: 0 <= i < |chain| ==> store[i] == Published(chain[i]))
    && (open ==> store[|chain|] == Partial)
  }

  ghost predicate Linked(protocol: Protocol, chain: seq<Manifest>)
  {
    forall i :: 0 <= i < |chain| ==> chain[i].stage == i && Fits(protocol, chain[..i], chain[i])
  }

  ghost predicate Inv(protocol: Protocol, s: State, chain: seq<Manifest>, open: bool)
  {
    && Holds(s.store, chain, open) && Linked(protocol, chain)
    && s.published == seq(|chain|, i => i)
    && (forall p :: p in s.runners ==> Fits(protocol, chain, s.runners[p].plan))
    && (forall p :: p in s.runners && s.runners[p].Writing? ==> open && s.runners[p].plan.stage == |chain|)
    && (forall p, q :: p in s.runners && q in s.runners && s.runners[p].Writing? && s.runners[q].Writing? ==> p == q)
    && (protocol.capacity == protocol.locked ==>
          |chain| <= 1 && forall p :: p in s.runners ==> s.runners[p].plan.stage == 0)
  }

  lemma PlanFits(protocol: Protocol, store: Store, chain: seq<Manifest>, read: seq<Manifest>, mode: Mode,
                 receipt: string)
    requires IsChain(protocol, store, read) && read == chain && Linked(protocol, chain)
    requires Plan(protocol, read, mode, receipt).Some?
    ensures Fits(protocol, chain, Plan(protocol, read, mode, receipt).value)
    ensures protocol.capacity == protocol.locked ==> Plan(protocol, read, mode, receipt).value.stage == 0
  {
    if chain != [] {
      assert Fits(protocol, chain[..|chain| - 1], chain[|chain| - 1]);
    }
  }

  lemma ReadIsWhole(protocol: Protocol, s: State, chain: seq<Manifest>, open: bool, read: seq<Manifest>)
    requires Holds(s.store, chain, open) && IsChain(protocol, s.store, read)
    ensures read == chain && !open
  {
    var n := |chain| + if open then 1 else 0;
    assert |read| !in s.store && n !in s.store;
    assert |read| == n;
    assert forall i :: 0 <= i < |chain| ==> s.store[i] == Published(chain[i]) == Published(read[i]);
  }

  /** Every step of every runner keeps the invariant; only a publication lengthens the chain. */
  lemma StepKeepsInv(protocol: Protocol, s: State, step: Step, chain: seq<Manifest>, open: bool)
    returns (chain': seq<Manifest>, open': bool)
    requires Inv(protocol, s, chain, open)
    ensures Inv(protocol, Next(protocol, s, step), chain', open')
    ensures chain <= chain' && |chain'| <= |chain| + 1
  {
    chain', open' := chain, open;
    hide Inv, Next;
    match step
    case Read(p, read, mode, receipt) => ReadKeepsInv(protocol, s, p, read, mode, receipt, chain, open);
    case MakeDirectory(p) => open' := MakeKeepsInv(protocol, s, p, chain, open);
    case Publish(p, records) =>
      if p in s.runners && s.runners[p].Writing? {
        chain', open' := chain + [s.runners[p].plan.(records := records)], false;
        PublishKeepsInv(protocol, s, p, records, chain, open);
      } else {
        NothingPublished(protocol, s, p, records);
      }
    case Die(p) => DieKeepsInv(protocol, s, p, chain, open);
  }

  lemma NothingPublished(protocol: Protocol, s: State, p: nat, records: string)
    requires p !in s.runners || !s.runners[p].Writing?
    ensures Next(protocol, s, Publish(p, records)) == s
  {
  }

  lemma ReadKeepsInv(protocol: Protocol, s: State, p: nat, read: seq<Manifest>, mode: Mode, receipt: string,
                     chain: seq<Manifest>, open: bool)
    requires Inv(protocol, s, chain, open)
    ensures Inv(protocol, Next(protocol, s, Read(p, read, mode, receipt)), chain, open)
  {
    hide IsChain, Plan, Linked, Fits, Holds;
    if IsChain(protocol, s.store, read) && Plan(protocol, read, mode, receipt).Some? {
      ReadIsWhole(protocol, s, chain, open, read);
      PlanFits(protocol, s.store, chain, read, mode, receipt);
    }
  }

  lemma FitsStage(protocol: Protocol, store: Store, chain: seq<Manifest>, open: bool, m: Manifest)
    requires Holds(store, chain, open) && Fits(protocol, chain, m) && m.stage !in store
    ensures m.stage == |chain| && !open && Holds(store[m.stage as int := Partial], chain, true)
  {
  }

  lemma MakeKeepsInv(protocol: Protocol, s: State, p: nat, chain: seq<Manifest>, open: bool) returns (open': bool)
    requires Inv(protocol, s, chain, open)
    ensures Inv(protocol, Next(protocol, s, MakeDirectory(p)), chain, open')
    ensures p in s.runners && s.runners[p].Planned? && s.runners[p].plan.stage !in s.store ==> open'
  {
    hide Linked, Fits, Holds;
    open' := open;
    if p in s.runners && s.runners[p].Planned? && s.runners[p].plan.stage !in s.store {
      FitsStage(protocol, s.store, chain, open, s.runners[p].plan);
      open' := true;
    }
  }

  lemma DieKeepsInv(protocol: Protocol, s: State, p: nat, chain: seq<Manifest>, open: bool)
    requires Inv(protocol, s, chain, open)
    ensures Inv(protocol, Next(protocol, s, Die(p)), chain, open)
  {
    hide Linked, Fits;
  }

  lemma FitsLonger(protocol: Protocol, chain: seq<Manifest>, m: Manifest, x: Manifest)
    requires Fits(protocol, chain, m)
    ensures Fits(protocol, chain + [x], m)
  {
  }

  lemma LinkedSnoc(protocol: Protocol, chain: seq<Manifest>, m: Manifest)
    requires Linked(protocol, chain) && m.stage == |chain| && Fits(protocol, chain, m)
    ensures Linked(protocol, chain + [m])
  {
    var longer := chain + [m];
    forall i | 0 <= i < |longer| ensures longer[i].stage == i && Fits(protocol, longer[..i], longer[i]) {
      assert longer[..i] == if i < |chain| then chain[..i] else chain;
    }
  }

  lemma PublishKeepsInv(protocol: Protocol, s: State, p: nat, records: string, chain: seq<Manifest>, open: bool)
    requires Inv(protocol, s, chain, open) && p in s.runners && s.runners[p].Writing?
    ensures Inv(protocol, Next(protocol, s, Publish(p, records)),
                chain + [s.runners[p].plan.(records := records)], false)
  {
    hide Linked, Holds;
    var plan := s.runners[p].plan;
    var m := plan.(records := records);
    RecordsFit(protocol, chain, plan, records);
    LinkedSnoc(protocol, chain, m);
    forall q | q in s.runners ensures Fits(protocol, chain + [m], s.runners[q].plan) {
      FitsLonger(protocol, chain, s.runners[q].plan, m);
    }
    hide Fits;
    HoldsAfterPublish(s.store, chain, m);
    assert seq(|chain| + 1, i => i) == seq(|chain|, i => i) + [|chain|];
    SingleBinding(protocol, s, p, chain, m);
  }

  lemma RecordsFit(protocol: Protocol, chain: seq<Manifest>, plan: Manifest, records: string)
    requires Fits(protocol, chain, plan)
    ensures Fits(protocol, chain, plan.(records := records))
  {
  }

  lemma SingleBinding(protocol: Protocol, s: State, p: nat, chain: seq<Manifest>, m: Manifest)
    requires protocol.capacity == protocol.locked ==> forall q :: q in s.runners ==> s.runners[q].plan.stage == 0
    requires p in s.runners && s.runners[p].plan.stage == |chain|
    ensures protocol.capacity == protocol.locked ==> |chain + [m]| <= 1
  {
  }

  lemma HoldsAfterPublish(store: Store, chain: seq<Manifest>, m: Manifest)
    requires Holds(store, chain, true) && m.stage == |chain|
    ensures Holds(store[m.stage as int := Published(m)], chain + [m], false)
  {
  }

  // ---------------------------------------------------------------- whole runs

  ghost function Run(protocol: Protocol, s: State, steps: seq<Step>): State
    decreases |steps|
  {
    if steps == [] then s else Run(protocol, Next(protocol, s, steps[0]), steps[1..])
  }

  lemma {:induction false} RunKeepsInv(protocol: Protocol, s: State, steps: seq<Step>, chain: seq<Manifest>, open: bool)
    returns (chain': seq<Manifest>, open': bool)
    requires Inv(protocol, s, chain, open)
    ensures Inv(protocol, Run(protocol, s, steps), chain', open') && chain <= chain'
    decreases |steps|
  {
    hide Inv, Next;
    chain', open' := chain, open;
    if steps != [] {
      var c, o := StepKeepsInv(protocol, s, steps[0], chain, open);
      chain', open' := RunKeepsInv(protocol, Next(protocol, s, steps[0]), steps[1..], c, o);
    }
  }

  /** In every run from an empty chain the checkpoints present are a prefix of the stage order,
      each names the digest of the one before, run binding and attempt receipt are constant, and
      every stage is published at most once. */
  lemma ChainOfEveryRun(protocol: Protocol, steps: seq<Step>) returns (chain: seq<Manifest>, open: bool)
    ensures var s := Run(protocol, EMPTY, steps);
      && Holds(s.store, chain, open)
      && (forall i :: 0 <= i < |chain| ==> chain[i].stage == i)
      && (forall i :: 0 < i < |chain| ==> chain[i].predecessor == Some(protocol.digest(chain[i - 1])))
      && (forall i, j :: 0 <= i < |chain| && 0 <= j < |chain| ==>
            chain[i].receipt == chain[j].receipt && chain[i].runBinding == chain[j].runBinding)
      && (forall i, j :: 0 <= i < j < |s.published| ==> s.published[i] != s.published[j])
  {
    assert Inv(protocol, EMPTY, [], false);
    chain, open := RunKeepsInv(protocol, EMPTY, steps, [], false);
    forall i | 0 <= i < |chain|
      ensures chain[i].stage == i && chain[i].receipt == chain[0].receipt && chain[i].runBinding == chain[0].runBinding
      ensures i > 0 ==> chain[i].predecessor == Some(protocol.digest(chain[i - 1]))
    {
      assert Fits(protocol, chain[..i], chain[i]);
    }
  }

  /** Among the steps is the reading of a chain on top of which m belongs, in the mode and under the attempt
      receipt whose binding and receipt m carries. */
  ghost predicate WasRead(protocol: Protocol, steps: seq<Step>, m: Manifest)
  {
    exists j :: 0 <= j < |steps| && ReadFor(protocol, steps[j], m)
  }

  predicate ReadFor(protocol: Protocol, step: Step, m: Manifest)
  {
    && step.Read? && m.stage == |step.chain| && m.receipt == step.receipt
    && (match step.mode
        case CapacityValidation => m.runBinding == protocol.capacity
        case LockedSuccessor => m.runBinding == protocol.locked)
    && m.predecessor == if step.chain == [] then None else Some(protocol.digest(step.chain[|step.chain| - 1]))
  }

  ghost predicate AllRead(protocol: Protocol, s: State, steps: seq<Step>)
  {
    && (forall i :: i in s.store && s.store[i].Published? ==> WasRead(protocol, steps, s.store[i].manifest))
    && (forall p :: p in s.runners ==> WasRead(protocol, steps, s.runners[p].plan))
  }

  lemma StillRead(protocol: Protocol, steps: seq<Step>, step: Step, m: Manifest)
    requires WasRead(protocol, steps, m) || ReadFor(protocol, step, m)
    ensures WasRead(protocol, steps + [step], m)
  {
    if WasRead(protocol, steps, m) {
      var j :| 0 <= j < |steps| && ReadFor(protocol, steps[j], m);
      assert (steps + [step])[j] == steps[j];
    } else {
      assert (steps + [step])[|steps|] == step;
    }
    hide ReadFor;
  }

  lemma PlanIsRead(protocol: Protocol, p: nat, chain: seq<Manifest>, mode: Mode, receipt: string)
    requires Plan(protocol, chain, mode, receipt).Some?
    ensures ReadFor(protocol, Read(p, chain, mode, receipt), Plan(protocol, chain, mode, receipt).value)
  {
  }

  lemma RecordsRead(protocol: Protocol, steps: seq<Step>, m: Manifest, records: string)
    requires WasRead(protocol, steps, m)
    ensures WasRead(protocol, steps, m.(records := records))
  {
    var j :| 0 <= j < |steps| && ReadFor(protocol, steps[j], m);
    assert ReadFor(protocol, steps[j], m.(records := records));
  }

  lemma StepIsRead(protocol: Protocol, s: State, steps: seq<Step>, step: Step)
    requires AllRead(protocol, s, steps)
    ensures AllRead(protocol, Next(protocol, s, step), steps + [step])
  {
    hide WasRead, ReadFor, Plan, IsChain;
    forall m | WasRead(protocol, steps, m) || ReadFor(protocol, step, m) ensures WasRead(protocol, steps + [step], m) {
      StillRead(protocol, steps, step, m);
    }
    if step.Read? && Plan(protocol, step.chain, step.mode, step.receipt).Some? {
      PlanIsRead(protocol, step.p, step.chain, step.mode, step.receipt);
    }
    if step.Publish? && step.p in s.runners {
      RecordsRead(protocol, steps, s.runners[step.p].plan, step.records);
    }
  }

  /** In every run each published manifest comes from a runner that read the chain below it, and carries the run
      binding of that runner's mode, its attempt receipt and the digest of the manifest it read last. */
  lemma {:induction false} EveryManifestWasRead(protocol: Protocol, steps: seq<Step>)
    ensures AllRead(protocol, Run(protocol, EMPTY, steps), steps)
  {
    if steps != [] {
      var n := |steps| - 1;
      assert steps == steps[..n] + [steps[n]];
      EveryManifestWasRead(protocol, steps[..n]);
      RunSplits(protocol, EMPTY, steps[..n], [steps[n]]);
      LastStep(protocol, Run(protocol, EMPTY, steps[..n]), steps[n]);
      StepIsRead(protocol, Run(protocol, EMPTY, steps[..n]), steps[..n], steps[n]);
      hide AllRead, Run, Next;
    }
  }

  lemma LastStep(protocol: Protocol, s: State, step: Step)
    ensures Run(protocol, s, [step]) == Next(protocol, s, step)
  {
    hide Next;
    assert [step][1..] == [];
  }

  /** What a runner may plan on a chain, in full: nothing once all twelve are there, and after the first only in
      the mode of the chain, under its attempt receipt, and if the two bindings differ. */
  lemma PlanIff(protocol: Protocol, chain: seq<Manifest>, mode: Mode, receipt: string)
    ensures Plan(protocol, chain, mode, receipt).Some?
       <==> chain == []
            || (|chain| < 12
                && var last := chain[|chain| - 1];
                   && protocol.capacity != protocol.locked && last.receipt == receipt
                   && last.runBinding == (if mode.CapacityValidation? then protocol.capacity else protocol.locked))
  {
  }

  lemma StoreGrows(store: Store, other: Store, chain: seq<Manifest>, open: bool, longer: seq<Manifest>, still: bool,
                   i: nat)
    requires Holds(store, chain, open) && Holds(other, longer, still) && chain <= longer
    requires i in store && store[i].Published?
    ensures i in other && other[i] == store[i]
  {
    assert longer[..|chain|] == chain;
  }

  /** What has been published is never rewritten. */
  lemma PublishedIsFinal(protocol: Protocol, before: seq<Step>, after: seq<Step>, i: nat)
    requires var s := Run(protocol, EMPTY, before); i in s.store && s.store[i].Published?
    ensures var s := Run(protocol, EMPTY, before);
      var t := Run(protocol, s, after);
      i in t.store && t.store[i] == s.store[i]
  {
    assert Inv(protocol, EMPTY, [], false);
    var s := Run(protocol, EMPTY, before);
    var c, o := RunKeepsInv(protocol, EMPTY, before, [], false);
    var d, q := RunKeepsInv(protocol, s, after, c, o);
    StoreGrows(s.store, Run(protocol, s, after).store, c, o, d, q, i);
    hide Inv, Holds, Run;
  }

  /** A complete chain admits no further step: nothing in the store ever changes again. */
  lemma CompleteChainIsClosed(protocol: Protocol, s: State, steps: seq<Step>, chain: seq<Manifest>, open: bool)
    requires Inv(protocol, s, chain, open) && |chain| == STAGES
    ensures Run(protocol, s, steps).store == s.store
  {
    var c, o := RunKeepsInv(protocol, s, steps, chain, open);
    SameStore(s.store, Run(protocol, s, steps).store, chain, open, c, o);
    hide Inv, Holds, Run;
  }

  lemma SameStore(store: Store, other: Store, chain: seq<Manifest>, open: bool, longer: seq<Manifest>, still: bool)
    requires Holds(store, chain, open) && Holds(other, longer, still) && |chain| == STAGES && chain <= longer
    ensures store == other
  {
    assert longer == chain && !open && !still;
    assert forall i :: i in store <==> i in other;
    forall i | i in store ensures store[i] == other[i] {
      assert store[i] == Published(chain[i]);
    }
  }

  // ---------------------------------------------------------------- abandoned directories

  /** The directory of stage k has no manifest and nobody is writing one. */
  ghost predicate Abandoned(s: State, k: nat)
  {
    && (forall i :: i in s.store <==> 0 <= i <= k) && s.store[k] == Partial
    && (forall p :: p in s.runners ==> s.runners[p].Planned? && s.runners[p].plan.stage <= k)
  }

  lemma NoChainThroughPartial(protocol: Protocol, store: Store, k: nat, chain: seq<Manifest>)
    requires k in store && store[k] == Partial
    ensures !IsChain(protocol, store, chain)
  {
  }

  /** A runner that died after making its directory blocks the chain for good: no later run
      reads past it or publishes anything. */
  lemma {:induction false} AbandonedForever(protocol: Protocol, s: State, steps: seq<Step>, k: nat)
    requires Abandoned(s, k)
    ensures Run(protocol, s, steps).store == s.store
    decreases |steps|
  {
    if steps != [] {
      if steps[0].Read? { NoChainThroughPartial(protocol, s.store, k, steps[0].chain); }
      hide IsChain, Plan;
      assert Next(protocol, s, steps[0]).store == s.store;
      AbandonedForever(protocol, Next(protocol, s, steps[0]), steps[1..], k);
    }
  }

  ghost predicate Complete(store: Store)
  {
    forall i :: 0 <= i < STAGES ==> i in store && store[i].Published?
  }

  /** Some directory has no manifest, and no runner is writing one. */
  ghost predicate Blocked(s: State)
  {
    (exists k :: k in s.store && s.store[k] == Partial) && forall p :: p in s.runners ==> s.runners[p].Planned?
  }

  lemma BlockedIsAbandoned(protocol: Protocol, s: State, chain: seq<Manifest>, open: bool)
    requires Inv(protocol, s, chain, open) && Blocked(s)
    ensures Abandoned(s, |chain|)
  {
  }

  lemma {:induction false} RunSplits(protocol: Protocol, s: State, a: seq<Step>, b: seq<Step>)
    ensures Run(protocol, s, a + b) == Run(protocol, Run(protocol, s, a), b)
    decreases |a|
  {
    hide Next;
    if a == [] {
      assert [] + b == b;
    } else {
      assert (a + b)[1..] == a[1..] + b;
      RunSplits(protocol, Next(protocol, s, a[0]), a[1..], b);
    }
  }

  lemma TwoSteps(protocol: Protocol, s: State, a: Step, b: Step)
    ensures Run(protocol, s, [a, b]) == Next(protocol, Next(protocol, s, a), b)
  {
    hide Next;
    assert [a, b][1..] == [b] && [b][1..] == [];
    assert Run(protocol, s, [a, b]) == Run(protocol, Next(protocol, s, a), [b]);
  }

  lemma HeldIsChain(protocol: Protocol, store: Store, chain: seq<Manifest>)
    requires Holds(store, chain, false) && Linked(protocol, chain)
    ensures IsChain(protocol, store, chain) && |chain| !in store
  {
    forall i | 0 <= i < |chain|
      ensures WellFormed(chain[i]) && chain[i].stage == i
      ensures i > 0 ==> chain[i].predecessor == Some(protocol.digest(chain[i - 1]))
    {
      assert Fits(protocol, chain[..i], chain[i]);
    }
  }

  /** With two different bindings, a runner with the mode and receipt of the chain may always plan. */
  lemma MayPlan(protocol: Protocol, chain: seq<Manifest>) returns (mode: Mode, receipt: string)
    requires protocol.capacity != protocol.locked && Linked(protocol, chain) && |chain| < STAGES
    ensures Plan(protocol, chain, mode, receipt).Some? && Plan(protocol, chain, mode, receipt).value.stage == |chain|
  {
    mode, receipt := CapacityValidation, "";
    if chain != [] {
      var last := chain[|chain| - 1];
      assert Fits(protocol, chain[..|chain| - 1], last);
      mode, receipt := ModeOf(protocol, last.runBinding).value, last.receipt;
    }
  }

  /** A runner whose name is free reads the chain and makes the next directory. */
  lemma Opens(protocol: Protocol, s: State, chain: seq<Manifest>, p: nat) returns (steps: seq<Step>)
    requires protocol.capacity != protocol.locked && Inv(protocol, s, chain, false) && |chain| < STAGES
        && p !in s.runners
    ensures var t := Run(protocol, s, steps);
      Inv(protocol, t, chain, true) && p in t.runners && t.runners[p].Writing? && t.runners - {p} == s.runners
  {
    var mode, receipt := MayPlan(protocol, chain);
    HeldIsChain(protocol, s.store, chain);
    var read, make := Read(p, chain, mode, receipt), MakeDirectory(p);
    OpeningSteps(protocol, s, chain, p, mode, receipt);
    hide IsChain, Plan, Inv, Next, Linked, Fits, Run, Holds;
    steps := [read, make];
    TwoSteps(protocol, s, read, make);
    ReadKeepsInv(protocol, s, p, chain, mode, receipt, chain, false);
    var o := MakeKeepsInv(protocol, Next(protocol, s, read), p, chain, false);
  }

  lemma OpeningSteps(protocol: Protocol, s: State, chain: seq<Manifest>, p: nat, mode: Mode, receipt: string)
    requires p !in s.runners && IsChain(protocol, s.store, chain) && |chain| !in s.store
    requires Plan(protocol, chain, mode, receipt).Some? && Plan(protocol, chain, mode, receipt).value.stage == |chain|
    ensures var u := Next(protocol, s, Read(p, chain, mode, receipt));
      && p in u.runners && u.runners[p].Planned? && u.runners[p].plan.stage == |chain| && |chain| !in u.store
      && var t := Next(protocol, u, MakeDirectory(p));
         p in t.runners && t.runners[p].Writing? && t.runners - {p} == s.runners
  {
    hide IsChain, Plan;
    var u := Next(protocol, s, Read(p, chain, mode, receipt));
    var t := Next(protocol, u, MakeDirectory(p));
    assert t.runners == s.runners[p := u.runners[p]][p := Writing(u.runners[p].plan)];
    assert t.runners - {p} == s.runners;
  }

  lemma Publishes(protocol: Protocol, s: State, chain: seq<Manifest>, p: nat) returns (longer: seq<Manifest>)
    requires Inv(protocol, s, chain, true) && p in s.runners && s.runners[p].Writing?
    ensures Inv(protocol, Run(protocol, s, [Publish(p, "")]), longer, false) && |longer| == |chain| + 1
  {
    longer := chain + [s.runners[p].plan.(records := "")];
    hide Inv, Next;
    PublishKeepsInv(protocol, s, p, "", chain, true);
    assert Run(protocol, s, [Publish(p, "")]) == Next(protocol, s, Publish(p, ""));
  }

  lemma Dies(protocol: Protocol, s: State, chain: seq<Manifest>, open: bool, p: nat)
    requires Inv(protocol, s, chain, open)
    ensures Run(protocol, s, [Die(p)]) == s.(runners := s.runners - {p})
    ensures Inv(protocol, Run(protocol, s, [Die(p)]), chain, open)
  {
    hide Inv;
    DieKeepsInv(protocol, s, p, chain, open);
    assert Run(protocol, s, [Die(p)]) == Next(protocol, s, Die(p));
  }

  /** From a chain without a half-made directory one more stage can be published. */
  lemma Advances(protocol: Protocol, s: State, chain: seq<Manifest>) returns (steps: seq<Step>, longer: seq<Manifest>)
    requires protocol.capacity != protocol.locked && Inv(protocol, s, chain, false) && |chain| < STAGES
    ensures Inv(protocol, Run(protocol, s, steps), longer, false) && |longer| == |chain| + 1
  {
    hide Inv, Next, Run;
    Dies(protocol, s, chain, false, 0);
    var t := Run(protocol, s, [Die(0)]);
    var opening := Opens(protocol, t, chain, 0);
    longer := Publishes(protocol, Run(protocol, t, opening), chain, 0);
    steps := [Die(0)] + opening + [Publish(0, "")];
    RunSplits(protocol, s, [Die(0)] + opening, [Publish(0, "")]);
    RunSplits(protocol, s, [Die(0)], opening);
  }

  lemma {:induction false} Reaches(protocol: Protocol, s: State, chain: seq<Manifest>, k: nat)
    returns (steps: seq<Step>, longer: seq<Manifest>)
    requires protocol.capacity != protocol.locked && Inv(protocol, s, chain, false) && |chain| <= k <= STAGES
    ensures Inv(protocol, Run(protocol, s, steps), longer, false) && |longer| == k
    decreases k - |chain|
  {
    hide Inv, Next;
    if |chain| == k {
      steps, longer := [], chain;
    } else {
      var first, next := Advances(protocol, s, chain);
      var rest;
      rest, longer := Reaches(protocol, Run(protocol, s, first), next, k);
      steps := first + rest;
      RunSplits(protocol, s, first, rest);
    }
  }

  lemma ChainComplete(protocol: Protocol, s: State, chain: seq<Manifest>)
    requires Inv(protocol, s, chain, false) && |chain| == STAGES
    ensures Complete(s.store)
  {
    hide Linked, Fits;
  }

  /** Some continuation publishes all twelve stages exactly when the two run bindings differ and no
      directory has been abandoned. */
  lemma CanCompleteIff(protocol: Protocol, s: State, chain: seq<Manifest>, open: bool)
    requires Inv(protocol, s, chain, open)
    ensures (exists steps :: Complete(Run(protocol, s, steps).store))
        <==> protocol.capacity != protocol.locked && !Blocked(s)
  {
    if protocol.capacity != protocol.locked && !Blocked(s) {
      var steps := Completes(protocol, s, chain, open);
    }
    if steps :| Complete(Run(protocol, s, steps).store) {
      NeverCompletes(protocol, s, chain, open, steps);
    }
  }

  lemma Completes(protocol: Protocol, s: State, chain: seq<Manifest>, open: bool) returns (steps: seq<Step>)
    requires Inv(protocol, s, chain, open) && protocol.capacity != protocol.locked && !Blocked(s)
    ensures Complete(Run(protocol, s, steps).store)
  {
    var first, now, t := [], chain, s;
    if open {
      var p := Writer(protocol, s, chain);
      first := [Publish(p, "")];
      now := Publishes(protocol, s, chain, p);
      t := Run(protocol, s, first);
    }
    hide Inv, Next, Complete;
    var rest, all := Reaches(protocol, t, now, STAGES);
    steps := first + rest;
    RunSplits(protocol, s, first, rest);
    ChainComplete(protocol, Run(protocol, t, rest), all);
  }

  lemma Writer(protocol: Protocol, s: State, chain: seq<Manifest>) returns (p: nat)
    requires Inv(protocol, s, chain, true) && !Blocked(s)
    ensures p in s.runners && s.runners[p].Writing?
  {
    assert |chain| in s.store && s.store[|chain|] == Partial;
    p :| p in s.runners && s.runners[p].Writing?;
  }

  lemma NeverCompletes(protocol: Protocol, s: State, chain: seq<Manifest>, open: bool, steps: seq<Step>)
    requires Inv(protocol, s, chain, open) && Complete(Run(protocol, s, steps).store)
    ensures protocol.capacity != protocol.locked && !Blocked(s)
  {
    var c, o := RunKeepsInv(protocol, s, steps, chain, open);
    CompleteIsWhole(protocol, Run(protocol, s, steps), c, o);
    if Blocked(s) {
      BlockedIsAbandoned(protocol, s, chain, open);
      AbandonedForever(protocol, s, steps, |chain|);
      assert false;
    }
    hide Inv, Run;
  }

  lemma CompleteIsWhole(protocol: Protocol, s: State, chain: seq<Manifest>, open: bool)
    requires Inv(protocol, s, chain, open) && Complete(s.store)
    ensures |chain| == STAGES && protocol.capacity != protocol.locked
  {
    assert STAGES - 1 in s.store;
  }

  lemma CanCompleteAfterEveryRun(protocol: Protocol, before: seq<Step>)
    ensures var s := Run(protocol, EMPTY, before);
      (exists after :: Complete(Run(protocol, s, after).store)) <==> protocol.capacity != protocol.locked && !Blocked(s)
  {
    assert Inv(protocol, EMPTY, [], false);
    hide Inv, Complete, Blocked, Run;
    var chain, open := RunKeepsInv(protocol, EMPTY, before, [], false);
    CanCompleteIff(protocol, Run(protocol, EMPTY, before), chain, open);
  }

  /** Complete chains occur: some run from an empty chain publishes all twelve stages. */
  lemma CompleteChainOccurs(protocol: Protocol) returns (steps: seq<Step>)
    requires protocol.capacity != protocol.locked
    ensures Complete(Run(protocol, EMPTY, steps).store)
  {
    assert Inv(protocol, EMPTY, [], false) && !Blocked(EMPTY);
    steps := Completes(protocol, EMPTY, [], false);
  }

  /** Abandoned directories occur too, after any number of published stages. */
  lemma AbandonedOccurs(protocol: Protocol, k: nat) returns (steps: seq<Step>, chain: seq<Manifest>)
    requires protocol.capacity != protocol.locked && k < STAGES
    ensures var s := Run(protocol, EMPTY, steps); |chain| == k && Inv(protocol, s, chain, true) && Blocked(s)
  {
    assert Inv(protocol, EMPTY, [], false);
    hide Inv, Next, Blocked, Run;
    var first;
    first, chain := Reaches(protocol, EMPTY, [], k);
    var s := Run(protocol, EMPTY, first);
    Dies(protocol, s, chain, false, 0);
    var t := Run(protocol, s, [Die(0)]);
    var opening := Opens(protocol, t, chain, 0);
    var u := Run(protocol, t, opening);
    Dies(protocol, u, chain, true, 0);
    LoneWriterDies(protocol, t, u, chain, 0);
    steps := first + [Die(0)] + opening + [Die(0)];
    RunSplits(protocol, EMPTY, first + [Die(0)] + opening, [Die(0)]);
    RunSplits(protocol, EMPTY, first + [Die(0)], opening);
    RunSplits(protocol, EMPTY, first, [Die(0)]);
  }

  lemma LoneWriterDies(protocol: Protocol, t: State, u: State, chain: seq<Manifest>, p: nat)
    requires Inv(protocol, t, chain, false) && Inv(protocol, u, chain, true) && u.runners - {p} == t.runners
    ensures Blocked(u.(runners := u.runners - {p}))
  {
    assert |chain| in u.store && u.store[|chain|] == Partial;
  }

  // ---------------------------------------------------------------- what the last manifest binds

  /** With a collision-free digest, the last manifest pins the whole chain. */
  lemma {:induction false} LastManifestPinsChain(protocol: Protocol, x: seq<Manifest>, y: seq<Manifest>)
    requires forall a, b :: protocol.digest(a) == protocol.digest(b) ==> a == b
    requires Linked(protocol, x) && Linked(protocol, y) && x != [] && y != []
    requires protocol.digest(x[|x| - 1]) == protocol.digest(y[|y| - 1])
    ensures x == y
  {
    hide Linked, Fits;
    var m, n := |x| - 1, |y| - 1;
    LastFits(protocol, x);
    LastFits(protocol, y);
    if m > 0 {
      LinkedPrefix(protocol, x, m);
      LinkedPrefix(protocol, y, n);
      LastManifestPinsChain(protocol, x[..m], y[..n]);
    }
    assert x == x[..m] + [x[m]] && y == y[..n] + [y[n]];
  }

  lemma LastFits(protocol: Protocol, chain: seq<Manifest>)
    requires Linked(protocol, chain) && chain != []
    ensures var m := |chain| - 1;
      chain[m].stage == m && (m > 0 ==> chain[m].predecessor == Some(protocol.digest(chain[..m][m - 1])))
  {
    var m := |chain| - 1;
    assert Fits(protocol, chain[..m], chain[m]);
  }

  lemma LinkedPrefix(protocol: Protocol, chain: seq<Manifest>, n: nat)
    requires Linked(protocol, chain) && n <= |chain|
    ensures Linked(protocol, chain[..n])
  {
    forall i | 0 <= i < n ensures chain[..n][i].stage == i && Fits(protocol, chain[..n][..i], chain[..n][i]) {
      assert chain[..n][..i] == chain[..i];
    }
  }
}
