/** The A/B installer, one file-system call at a time
    (nmbl-boot-update/src/transaction.rs).

    Any call may fail for no stated reason; `faults` collects the steps at
    which one did. A power cut is a call that fails together with every later
    call of the run, so each point at which a run can be cut is also the final
    state of one of its faulting executions. A root can also be made whose
    calls fail at one given step only, or never: the runs of such roots are
    particular executions of the same code. */
module BootInstalls {
  import opened Basics
  import opened Manifests
  import opened BootBundles
  import opened BootFiles

  datatype Outcome = Activated(slot: Slot) | Unchanged(slot: Slot)

  /** The steps of an install, by what their calls are for. */
  datatype Step =
    | ReadBundle | ReadSelector | ReadInstalled | StatSpace | ReadTarget | ClearTarget
    | ClearStage | CreateStage | WriteMetadata | WriteArtifact | SyncStage | Recheck
    | Publish | SyncSlot
    | ClearTemporary | PutSelector | SwapSelector | SyncSelector

  /** Io carries the step whose call failed. The program prints a message,
      and several steps share one: BootAnswers says what a caller can tell. */
  datatype Error =
    | InvalidBundle | MalformedSelector | WrongSlot | NoSpace | NotPlain | Injected | Io(at: Step)

  /** Which calls of a root may fail: any, none, or exactly those of one step. */
  datatype Faults = AnyCall | Never | Just(step: Step)

  datatype Limits = Limits(availableBytes: Option<nat>, failAfterFiles: Option<nat>)

  const NO_LIMITS := Limits(None, None)

  function SaturatingAdd(a: nat, b: nat): nat {
    if a + b <= U64_MAX then a + b else U64_MAX
  }

  /** The errors an install can stop with before anything is published. */
  predicate Preparing(e: Error) {
    || e.NoSpace? || e.NotPlain? || Staging(e)
    || (e.Io? && (e.at.StatSpace? || e.at.ReadTarget? || e.at.ClearTarget?))
  }

  /** Errors between preflight and publication. */
  predicate Staging(e: Error) {
    || e.Injected?
    || (e.Io? && (e.at.ClearStage? || e.at.CreateStage? || e.at.WriteMetadata? || e.at.WriteArtifact?
                  || e.at.SyncStage? || e.at.Recheck?))
  }

  /** Errors from publication on. */
  predicate Late(e: Error) {
    || e.NotPlain?
    || (e.Io? && (Publishing(e.at) || Selects(e.at)))
  }

  /** The steps of putting the stage in the place of the target. */
  predicate Publishing(step: Step) {
    step.ClearTarget? || step.Publish? || step.SyncSlot?
  }

  /** The steps of writing the selector. */
  predicate Selects(step: Step) {
    step.ClearTemporary? || step.PutSelector? || step.SwapSelector? || step.SyncSelector?
  }

  /** Every call of a step that no install leaves out fails: before anything
      is decided, while the set is written, until its stage is complete, until it stands in the target's
      place, and while it is selected. */
  predicate CannotDecide(plan: Faults) {
    plan.Just? && (plan.step.ReadBundle? || plan.step.ReadSelector?)
  }

  predicate CannotWrite(plan: Faults) {
    plan.Just? && (plan.step.WriteMetadata? || plan.step.WriteArtifact?)
  }

  predicate CannotBuild(plan: Faults) {
    CannotWrite(plan) || (plan.Just? && (plan.step.CreateStage? || plan.step.SyncStage? || plan.step.Recheck?))
  }

  predicate CannotPrepare(plan: Faults) {
    CannotDecide(plan) || CannotBuild(plan) || plan == Just(StatSpace)
  }

  predicate CannotPublish(plan: Faults) {
    plan.Just? && (plan.step.Publish? || plan.step.SyncSlot?)
  }

  predicate CannotSelect(plan: Faults) {
    plan.Just? && (plan.step.PutSelector? || plan.step.SwapSelector? || plan.step.SyncSelector?)
  }

  /** The errors after which the directory is as it was. */
  predicate Harmless(e: Error) {
    || e.InvalidBundle? || e.MalformedSelector? || e.WrongSlot? || e.NoSpace?
    || (e.Io? && (e.at.ReadBundle? || e.at.ReadSelector? || e.at.StatSpace? || e.at.ReadTarget?))
  }

  /** Nothing was written in the other slot or its stage. */
  predicate OthersKept(before: Fs, after: Fs, slot: Slot) {
    && Kept(before.At(Live(slot.Other())), after.At(Live(slot.Other())))
    && Kept(before.At(Stage(slot.Other())), after.At(Stage(slot.Other())))
  }

  /** The set is published durably and the other slot is kept. */
  ghost predicate Reached(t: Trust, bundle: Files, before: Fs, after: Fs) {
    var mine := Inactive(before);
    && Ready(t, bundle, before) && Published(t, bundle, mine, after) && after.At(Stage(mine)).node.Absent?
    && OthersKept(before, after, mine)
    && NoNewOddEntry(before, after)
  }

  /** Where writing the selector can stop: the old value settled, the new one
      in view with the old one still possible, or the new one settled. */
  ghost predicate Selecting(slot: Slot, was: Option<File>, e: Option<Error>, now: Fs) {
    match e
    case None => now.active == Some(Selector(slot)) && now.durable == {now.active} && now.temporary.None?
    case Some(error) =>
      if error == Io(SyncSelector) then
        now.active == Some(Selector(slot)) && now.durable == {was, now.active} && now.temporary.None?
      else
        && error.Io? && Selects(error.at)
        && now.active == was && now.durable == {was}
  }

  /** What an install leaves, told from its result. Before publication only
      the target and its stage have changed and the selector is untouched, with
      all the values it could still have; from then on the set is published and
      the selector is settled, except that a failed final sync leaves both its
      old and its new value possible. */
  ghost predicate Ended(t: Trust, bundle: Files, before: Fs, r: Result<Outcome, Error>, after: Fs) {
    var mine := Inactive(before);
    match r
    case Ok(Unchanged(slot)) => after == before && Running(t, bundle, before) && Named(before.active) == Some(slot)
    case Ok(Activated(slot)) =>
      slot == mine && Reached(t, bundle, before, after) && Selecting(mine, before.active, None, after)
    case Err(e) =>
      if Harmless(e) then after == before
      else if Publishes(r) then
        Reached(t, bundle, before, after) && Selecting(mine, before.active, Some(e), after)
      else
        && Ready(t, bundle, before) && Confined(before, after, mine)
        && (Staging(e) ==> KeptOrGone(before.At(Live(mine)), after.At(Live(mine))))
        && (e == Io(Publish) ==>
              after.At(Live(mine)).node.Absent? && after.At(Stage(mine)).node == Dir(Synced(SetOf(t, bundle)), true))
  }

  /** What preflight leaves of the target. */
  predicate KeptOrGone(before: Cell, after: Cell) {
    after == before || after == Cell(Absent, false)
  }

  /** The results of a run that got as far as publishing the set. */
  predicate Publishes(r: Result<Outcome, Error>) {
    if r.Ok? then r.value.Activated?
    else r.error.Io? && Selects(r.error.at)
  }

  /** Where an install can stop, whatever its result. */
  ghost predicate Installed(t: Trust, bundle: Files, before: Fs, after: Fs) {
    exists r :: Ended(t, bundle, before, r, after)
  }

  function Answer(slot: Slot, e: Option<Error>): Result<Outcome, Error> {
    if e.Some? then Err(e.value) else Ok(Activated(slot))
  }

  lemma ReachedAfter(t: Trust, bundle: Files, before: Fs, mid: Fs, after: Fs)
    requires Ready(t, bundle, before) && NoNewOddEntry(before, mid)
    requires var mine := Inactive(before);
      && mid.At(Live(mine)) == Cell(Dir(Synced(SetOf(t, bundle)), true), true) && mid.At(Stage(mine)).node.Absent?
      && OthersKept(before, mid, mine)
    requires forall p :: Kept(mid.At(p), after.At(p))
    ensures Reached(t, bundle, before, after)
  {
  }

  lemma EndedPublishing(t: Trust, bundle: Files, before: Fs, e: Error, after: Fs)
    requires Ready(t, bundle, before) && Confined(before, after, Inactive(before))
    requires e.NotPlain? || (e.Io? && Publishing(e.at))
    requires e == Io(Publish) ==>
      && after.At(Live(Inactive(before))).node.Absent?
      && after.At(Stage(Inactive(before))).node == Dir(Synced(SetOf(t, bundle)), true)
    ensures Ended(t, bundle, before, Err(e), after)
  {
  }

  lemma EndedSelecting(t: Trust, bundle: Files, before: Fs, e: Option<Error>, after: Fs)
    requires Reached(t, bundle, before, after) && Selecting(Inactive(before), before.active, e, after)
    ensures Ended(t, bundle, before, Answer(Inactive(before), e), after)
  {
  }

  lemma EndedPreparing(t: Trust, bundle: Files, before: Fs, e: Error, after: Fs)
    requires Ready(t, bundle, before) && Confined(before, after, Inactive(before)) && Preparing(e)
    requires Harmless(e) ==> after == before
    requires Staging(e) ==> KeptOrGone(before.At(Live(Inactive(before))), after.At(Live(Inactive(before))))
    ensures Ended(t, bundle, before, Err(e), after)
  {
  }

  lemma EndedAfterStaging(t: Trust, bundle: Files, before: Fs, staged: Fs, r: Result<Outcome, Error>, after: Fs)
    requires Ready(t, bundle, before) && Confined(before, staged, Inactive(before))
    requires Ended(t, bundle, staged, r, after) && if r.Ok? then r.value.Activated? else Late(r.error)
    ensures Ended(t, bundle, before, r, after)
  {
  }

  /** Touching only a target and then its stage is confined to them. */
  lemma TargetThenStage(before: Fs, mid: Fs, after: Fs, slot: Slot)
    requires mid == before.With(Live(slot), mid.At(Live(slot))) && Worn(before.At(Live(slot)), mid.At(Live(slot)))
    requires after == mid.With(Stage(slot), after.At(Stage(slot)))
    requires mid.At(Live(slot)).node.Odd? ==> before.At(Live(slot)).node.Odd?
    requires after.At(Stage(slot)).node.Odd? ==> mid.At(Stage(slot)).node.Odd?
    ensures Confined(before, after, slot)
    ensures mid.At(Stage(slot)) == before.At(Stage(slot)) && after.At(Live(slot)) == mid.At(Live(slot))
  {
    assert forall q: Place :: q == Live(slot) || q == Stage(slot) || after.At(q) == before.At(q);
  }

  /** So is renaming the stage into the emptied target. */
  lemma TargetThenRename(before: Fs, mid: Fs, slot: Slot)
    requires mid == before.With(Live(slot), mid.At(Live(slot))) && mid.At(Live(slot)).node.Absent?
    requires before.At(Stage(slot)).node.Dir?
    ensures Confined(before, Renamed(mid, slot), slot)
    ensures BootRoot.Moved(before, Renamed(mid, slot).SyncEntries(), slot)
  {
    var after := Renamed(mid, slot);
    assert after.At(Stage(slot)) == Cell(Absent, false);
    assert forall q: Place :: q == Live(slot) || q == Stage(slot) || after.At(q) == before.At(q);
  }

  /** Not even giving up the old set makes room. */
  ghost predicate NoRoom(t: Trust, bundle: Files, fs: Fs, capacity: nat)
    requires Physical(fs, capacity) && Accepts(t, bundle)
  {
    Free(fs, capacity) + NodeUse(fs.At(Live(Inactive(fs))).node) < Need(t, bundle)
  }

  /** Why an install cannot publish its set, if it cannot. */
  ghost function Refused(t: Trust, bundle: Files, slot: Slot, fs: Fs, capacity: nat): Option<Error>
    requires Physical(fs, capacity) && Accepts(t, bundle)
  {
    var target := fs.At(Live(slot)).node;
    if !target.Odd? && Free(fs, capacity) + NodeUse(target) < Need(t, bundle) then Some(NoSpace)
    else if target.Odd? || fs.At(Stage(slot)).node.Odd? then Some(NotPlain)
    else None
  }

  lemma RefusedUnlessItFits(t: Trust, bundle: Files, slot: Slot, fs: Fs, capacity: nat)
    requires Physical(fs, capacity) && Accepts(t, bundle)
    ensures Refused(t, bundle, slot, fs, capacity).None? <==> SetFits(t, bundle, slot, fs, capacity)
  {
  }

  /** An install can come to take its target apart: there is room for the set,
      and its stage can be made unless the target goes first. */
  ghost predicate Touches(t: Trust, bundle: Files, slot: Slot, fs: Fs, capacity: nat)
    requires Physical(fs, capacity) && Accepts(t, bundle)
  {
    var free, need := Free(fs, capacity), Need(t, bundle);
    free + NodeUse(fs.At(Live(slot)).node) >= need && (free >= need ==> !fs.At(Stage(slot)).node.Odd?)
  }

  /** The target is left alone unless the install touches it; with room beside
      it, until publication; and without, it is gone before an odd stage is
      refused. */
  ghost predicate TargetRule(t: Trust, bundle: Files, slot: Slot, before: Fs, capacity: nat,
                             e: Option<Error>, after: Fs)
    requires Physical(before, capacity) && Accepts(t, bundle)
  {
    var was, now := before.At(Live(slot)), after.At(Live(slot));
    && (!Touches(t, bundle, slot, before, capacity) ==> now == was)
    && (Free(before, capacity) >= Need(t, bundle) && e.Some? && Staging(e.value) ==> now == was)
    && (Free(before, capacity) < Need(t, bundle) && was.node.Dir? && e == Some(NotPlain) ==> now.node.Absent?)
  }

  /** The fates of an aimed bundle, and its failures. */
  ghost predicate Fate(t: Trust, bundle: Files, before: Fs, capacity: nat, r: Result<Outcome, Error>, faults: set<Step>)
    requires Physical(before, capacity) && Accepts(t, bundle)
  {
    var mine := Inactive(before);
    var refused := Refused(t, bundle, mine, before, capacity);
    || (r.Err? && r.error.Io? && r.error.at in faults)
    || (if refused.Some? then r == Err(refused.value)
        else if !SelectorFits(t, bundle, mine, before, capacity) then r == Err(Io(PutSelector))
        else r == Ok(Activated(mine)))
  }

  /** What preparing does to the space. */
  ghost predicate Prepared(t: Trust, bundle: Files, slot: Slot, before: Fs, after: Fs, capacity: nat)
    requires Physical(before, capacity) && Physical(after, capacity) && Accepts(t, bundle)
  {
    && !before.At(Stage(slot)).node.Odd?
    && (after.At(Live(slot)).node.Odd? <==> before.At(Live(slot)).node.Odd?)
    && (before.At(Live(slot)).node.Odd? || SetFits(t, bundle, slot, before, capacity))
    && Free(after, capacity) + NodeUse(after.At(Live(slot)).node) + Need(t, bundle)
         == Free(before, capacity) + NodeUse(before.At(Live(slot)).node) + NodeUse(before.At(Stage(slot)).node)
  }

  /** A stage stands complete and there is a block for the selector. */
  ghost predicate SpareBlock(slot: Slot, was: Fs, capacity: nat)
    requires Physical(was, capacity)
  {
    Free(was, capacity) + NodeUse(was.At(Live(slot)).node) + FileUse(was.temporary) >= BLOCK
  }

  /** How an activation of a complete stage goes, and why it fails. */
  ghost predicate Tried(e: Option<Error>, slot: Slot, was: Fs, capacity: nat, faults: set<Step>)
    requires Physical(was, capacity)
  {
    match e
    case None => !was.At(Live(slot)).node.Odd? && SpareBlock(slot, was, capacity)
    case Some(error) =>
      || (error.Io? && error.at in faults)
      || (error == NotPlain && was.At(Live(slot)).node.Odd?)
      || (error == Io(PutSelector) && !SpareBlock(slot, was, capacity) && !was.At(Live(slot)).node.Odd?)
  }

  lemma FateOfActivation(t: Trust, bundle: Files, before: Fs, staged: Fs, capacity: nat, e: Option<Error>,
                         faults: set<Step>)
    requires Physical(before, capacity) && Physical(staged, capacity) && Accepts(t, bundle)
    requires var mine := Inactive(before);
      && Confined(before, staged, mine) && Prepared(t, bundle, mine, before, staged, capacity)
      && Tried(e, mine, staged, capacity, faults)
    ensures Fate(t, bundle, before, capacity, Answer(Inactive(before), e), faults)
  {
    RefusedUnlessItFits(t, bundle, Inactive(before), before, capacity);
  }

  /** The steps of looking at the space and, if it comes to that, clearing the
      target. */
  predicate Clearing(e: Error, cleared: bool) {
    e.Io? && (e.at.StatSpace? || e.at.ReadTarget? || (cleared && e.at.ClearTarget?))
  }

  /** What preflight may answer, given the free space and the old target: when
      the set fits beside the target nothing is touched; when not even the
      target makes room nothing is touched either; only in between is the
      target given up. */
  ghost predicate PreflightAnswer(need: nat, free: nat, target: Node, e: Option<Error>, untouched: bool) {
    if free >= need then untouched && (e.None? || e == Some(Io(StatSpace)))
    else if target.Odd? then untouched && e.Some? && (e.value.NotPlain? || Clearing(e.value, false))
    else if free + NodeUse(target) < need then untouched && e.Some? && (e.value.NoSpace? || Clearing(e.value, false))
    else e.None? || Clearing(e.value, true)
  }

  /** The space after preparing, or why it stopped and what it did to the
      target. */
  ghost predicate PreparedOrWhy(t: Trust, bundle: Files, slot: Slot, before: Fs, capacity: nat,
                                e: Option<Error>, faults: set<Step>, after: Fs)
    requires Physical(before, capacity) && Physical(after, capacity) && Accepts(t, bundle)
  {
    && TargetRule(t, bundle, slot, before, capacity, e, after)
    && (e.None? ==>
          Prepared(t, bundle, slot, before, after, capacity) && Touches(t, bundle, slot, before, capacity))
    && (e.Some? ==> (e.value.Io? && e.value.at in faults) || e == Refused(t, bundle, slot, before, capacity))
    && (Free(before, capacity) + NodeUse(before.At(Live(slot)).node) < Need(t, bundle) ==> after == before)
  }

  /** A refusal by preflight says why. */
  lemma PreflightTold(t: Trust, bundle: Files, slot: Slot, before: Fs, capacity: nat, e: Error, faults: set<Step>,
                      after: Fs)
    requires Physical(before, capacity) && Physical(after, capacity) && Accepts(t, bundle)
    requires var target := before.At(Live(slot)).node;
      PreflightAnswer(Need(t, bundle), Free(before, capacity), target, Some(e), after == before)
    requires Worn(before.At(Live(slot)), after.At(Live(slot))) && (e.Io? ==> e.at in faults)
    ensures PreparedOrWhy(t, bundle, slot, before, capacity, Some(e), faults, after)
  {
  }

  /** What a run without limits does to the target. */
  ghost predicate Handled(t: Trust, bundle: Files, before: Fs, capacity: nat, r: Result<Outcome, Error>, after: Fs)
    requires Physical(before, capacity) && Accepts(t, bundle)
  {
    && TargetRule(t, bundle, Inactive(before), before, capacity, if r.Err? then Some(r.error) else None, after)
    && (NoRoom(t, bundle, before, capacity) ==> after == before)
  }

  /** What a run without limits that was decided says about itself. */
  ghost predicate Explained(t: Trust, bundle: Files, before: Fs, capacity: nat, r: Result<Outcome, Error>,
                            faults: set<Step>, after: Fs)
    requires Physical(before, capacity) && Accepts(t, bundle)
  {
    Fate(t, bundle, before, capacity, r, faults) && Handled(t, bundle, before, capacity, r, after)
  }

  /** How far a run gets whose calls fail at one step. */
  ghost predicate Planned(plan: Faults, r: Result<Outcome, Error>, slot: Slot, faults: set<Step>, after: Fs) {
    && (CannotPrepare(plan) || plan == Just(Publish) ==> !Publishes(r))
    && (CannotPublish(plan) || CannotSelect(plan) ==> !(r.Ok? && r.value.Activated?))
    && (plan == Just(PutSelector) && r == Err(Io(PutSelector)) ==> after.temporary.None?)
    && (r == Err(Io(WriteMetadata)) && ClearStage !in faults ==> after.At(Stage(slot)).node.Absent?)
  }

  /** A set that is accepted has members. */
  lemma AcceptedHasMembers(t: Trust, bundle: Files)
    requires Accepts(t, bundle)
    ensures |ManifestOf(t, bundle).files| > 0
  {
    assert REQUIRED[0] == Bootloader;
    assert Bootloader in RolesOf(ManifestOf(t, bundle).files);
  }

  /** The metadata alone is the beginning of the set. */
  lemma {:induction false} MetadataFirst(t: Trust, bundle: Files, v: Validated)
    requires Accepts(t, bundle) && Describes(t, bundle, v)
    ensures PrefixSet(bundle, v.manifest.files, 0)
      == map[MANIFEST := v.manifestBytes, MANIFEST_SIG := v.manifestSignature]
    ensures Blocks(v.manifestBytes) + Blocks(v.manifestSignature) <= Need(t, bundle)
  {
    PrefixSetStart(bundle, v.manifest.files);
  }

  /** With every member written, the stage holds the set. */
  lemma {:induction false} AllStaged(t: Trust, bundle: Files, v: Validated)
    requires Accepts(t, bundle) && Describes(t, bundle, v)
    ensures PrefixSet(bundle, v.manifest.files, |v.artifacts|) == SetOf(t, bundle)
    ensures TreeBlocks(SetOf(t, bundle)) == Need(t, bundle) && v.artifacts != []
  {
    AcceptedHasMembers(t, bundle);
    PrefixSetIsCounted(bundle, v.manifest.files, |v.manifest.files|);
    assert v.manifest.files[..|v.artifacts|] == v.manifest.files;
  }

  lemma PreparingIsPlanned(plan: Faults, e: Error, slot: Slot, faults: set<Step>, after: Fs)
    requires Preparing(e)
    requires e == Io(WriteMetadata) && ClearStage !in faults ==> after.At(Stage(slot)).node.Absent?
    ensures Planned(plan, Err(e), slot, faults, after)
  {
  }

  /** A stop while preparing explains the run. */
  lemma StoppedExplained(t: Trust, bundle: Files, before: Fs, capacity: nat, e: Error, faults: set<Step>, after: Fs)
    requires Physical(before, capacity) && Physical(after, capacity) && Accepts(t, bundle)
    requires PreparedOrWhy(t, bundle, Inactive(before), before, capacity, Some(e), faults, after)
    ensures Explained(t, bundle, before, capacity, Err(e), faults, after)
  {
  }

  /** So does the outcome of the activation of a prepared stage. */
  lemma ActivationExplained(t: Trust, bundle: Files, before: Fs, staged: Fs, capacity: nat, e: Option<Error>,
                            faults: set<Step>, after: Fs)
    requires Physical(before, capacity) && Physical(staged, capacity) && Accepts(t, bundle)
    requires var mine := Inactive(before);
      && Confined(before, staged, mine) && Tried(e, mine, staged, capacity, faults) && (e.Some? ==> Late(e.value))
      && Prepared(t, bundle, mine, before, staged, capacity) && Touches(t, bundle, mine, before, capacity)
    ensures Explained(t, bundle, before, capacity, Answer(Inactive(before), e), faults, after)
  {
    FateOfActivation(t, bundle, before, staged, capacity, e, faults);
  }

  /** Why writing the set into its stage stopped. */
  predicate WritingStopped(e: Error, failAfter: Option<nat>, need: nat, free: nat, faults: set<Step>) {
    || (e.Injected? && failAfter.Some?)
    || (e.Io? && (e.at.WriteMetadata? || e.at.WriteArtifact?) && (e.at in faults || need > free))
  }

  /** A run that is to stop after some members stops there, if there are more. */
  predicate StopsAfter(failAfter: Option<nat>, members: nat, e: Option<Error>) {
    && (e.None? ==> failAfter.None? || failAfter.value >= members)
    && (e.Some? && e.value.Injected? ==> failAfter.Some? && failAfter.value < members)
  }

  lemma WithTwice(was: Fs, before: Fs, p: Place, c: Cell)
    requires before == was.With(p, before.At(p))
    ensures before.With(p, c) == was.With(p, c)
  {
    UsedWith(was, p, before.At(p));
  }

  /** One more synced file, and what it takes. */
  lemma Grown(before: Fs, p: Place, plain: Files, name: string, bytes: Content)
    requires before.At(p) == Cell(Dir(Synced(plain), false), false) && name !in plain
    ensures Synced(plain)[name := File(bytes, true)] == Synced(plain[name := bytes])
    ensures TreeBlocks(plain[name := bytes]) == TreeBlocks(plain) + Blocks(bytes)
    ensures Used(before.With(p, Cell(Dir(Synced(plain[name := bytes]), false), false))) == Used(before) + Blocks(bytes)
  {
    TreeBlocksPut(plain, name, bytes);
    UsedWith(before, p, Cell(Dir(Synced(plain[name := bytes]), false), false));
  }

  // ---------------------------------------------------------------------
  // The early answers, from the selector and the manifests alone

  /** The selector names this slot. */
  predicate SelectsSlot(fs: Fs, slot: Slot) {
    fs.active.Some? && fs.active.value.bytes == Ascii(if slot.A? then "set nmbl_slot=A\n" else "set nmbl_slot=B\n")
  }

  /** The selected slot is a directory with a valid set, and its manifest is
      the bundle's, byte for byte. */
  ghost predicate HasSet(t: Trust, bundle: Files, fs: Fs, slot: Slot) {
    && SelectsSlot(fs, slot) && fs.At(Live(slot)).node.Dir?
    && var files := Contents(fs.At(Live(slot)).node.files);
    && Accepts(t, files) && Accepts(t, bundle) && files["manifest.json"] == bundle["manifest.json"]
  }

  /** The answer a run without faults gives before it writes, if it gives one:
      to an invalid bundle, to a selector that names no slot, when the set is
      selected already, and to a bundle for the slot that is not written. */
  ghost function EarlyAnswer(t: Trust, bundle: Files, fs: Fs): Option<Result<Outcome, Error>> {
    if !Accepts(t, bundle) then Some(Err(InvalidBundle))
    else if fs.active.Some? && !SelectsSlot(fs, A) && !SelectsSlot(fs, B) then Some(Err(MalformedSelector))
    else if HasSet(t, bundle, fs, A) then Some(Ok(Unchanged(A)))
    else if HasSet(t, bundle, fs, B) then Some(Ok(Unchanged(B)))
    else if ManifestOf(t, bundle).targetSlot != (if SelectsSlot(fs, A) then "B" else "A") then Some(Err(WrongSlot))
    else None
  }

  /** The answers that only the early checks give. */
  predicate Early(r: Result<Outcome, Error>) {
    if r.Ok? then r.value.Unchanged?
    else r.error.InvalidBundle? || r.error.MalformedSelector? || r.error.WrongSlot?
  }

  lemma WrittenIsNotEarly(r: Result<Outcome, Error>)
    requires if r.Ok? then r.value.Activated? else Preparing(r.error) || Late(r.error)
    ensures !Early(r)
  {
  }

  lemma SelectsIsNamed(fs: Fs, slot: Slot)
    ensures SelectsSlot(fs, slot) <==> Named(fs.active) == Some(slot)
  {
    assert Ascii("set nmbl_slot=A\n")[14] != Ascii("set nmbl_slot=B\n")[14];
  }

  /** A set that is found running is the bundle's set. */
  lemma RunningHasSet(t: Trust, bundle: Files, fs: Fs)
    ensures Running(t, bundle, fs) <==> HasSet(t, bundle, fs, A) || HasSet(t, bundle, fs, B)
    ensures forall slot :: HasSet(t, bundle, fs, slot) <==> Running(t, bundle, fs) && Named(fs.active) == Some(slot)
  {
    SelectsIsNamed(fs, A);
    SelectsIsNamed(fs, B);
  }

  /** With a digest that tells contents apart, two valid sets with the same
      manifest have the same payloads. */
  lemma SameManifestSamePayloads(t: Trust, a: Files, b: Files)
    requires Accepts(t, a) && Accepts(t, b) && a["manifest.json"] == b["manifest.json"]
    requires forall x, y :: t.digest(x) == t.digest(y) ==> x == y
    ensures ManifestOf(t, a) == ManifestOf(t, b)
    ensures forall i :: 0 <= i < |ManifestOf(t, a).files| ==>
      var name := ManifestOf(t, a).files[i].payload; name in a && name in b && a[name] == b[name]
  {
    var files := ManifestOf(t, a).files;
    forall i | 0 <= i < |files|
      ensures files[i].payload in a && files[i].payload in b && a[files[i].payload] == b[files[i].payload]
    {
      assert ArtifactOk(t, a, files[i]) && ArtifactOk(t, b, files[i]);
    }
  }

  class BootRoot {
    const capacity: nat
    const plan: Faults
    var fs: Fs
    /** The steps of the current install at which a call failed. */
    ghost var faults: set<Step>

    constructor (capacity: nat, fs: Fs, plan: Faults)
      requires Physical(fs, capacity)
      ensures this.capacity == capacity && this.fs == fs && this.plan == plan && faults == {} && Valid()
    {
      this.capacity, this.fs, this.plan := capacity, fs, plan;
      faults := {};
    }

    ghost predicate Valid()
      reads this
    {
      Physical(fs, capacity) && Foreseen()
    }

    ghost predicate Foreseen()
      reads this`faults
    {
      (plan.Never? ==> faults == {}) && (plan.Just? ==> faults <= {plan.step})
    }

    /** One system call: unless the root's plan says otherwise it can fail at
        any time. */
    method Call(step: Step) returns (ok: bool)
      requires Foreseen()
      modifies this`faults
      ensures Foreseen() && faults == if ok then old(faults) else old(faults) + {step}
      ensures plan == Just(step) ==> !ok
    {
      ok := *;
      match plan {
        case AnyCall =>
        case Never => ok := true;
        case Just(bad) => ok := step != bad;
      }
      if !ok {
        faults := faults + {step};
      }
    }

    // -------------------------------------------------------------------
    // Space

    /** The blocks of a directory, in saturating 64-bit arithmetic. */
    method AllocatedTree(p: Place) returns (total: Result<nat, Error>)
      requires Valid()
      modifies this`faults
      ensures Valid() && old(faults) <= faults
      ensures total.Ok? ==> faults == old(faults)
      ensures total.Ok? ==> !fs.At(p).node.Odd? && total.value == SaturatingAdd(NodeUse(fs.At(p).node), 0)
      ensures total.Err? ==>
        || (total.error == NotPlain && fs.At(p).node.Odd?)
        || (total.error == Io(ReadTarget) && ReadTarget in faults)
    {
      var node := fs.At(p).node;
      if node.Absent? {
        return Ok(0);
      }
      var ok := Call(ReadTarget);
      if !ok {
        return Err(Io(ReadTarget));
      }
      if node.Odd? {
        return Err(NotPlain);
      }
      var files := Contents(node.files);
      var rest, sum := files, 0;
      while rest != map[]
        invariant TreeBlocks(rest) <= TreeBlocks(files) && faults == old(faults) && Valid()
        invariant sum == SaturatingAdd(TreeBlocks(files) - TreeBlocks(rest), 0)
        decreases |rest|
      {
        var name :| name in rest;
        TreeBlocksTakesAny(rest, name);
        sum := SaturatingAdd(sum, Blocks(rest[name]));
        rest := rest - {name};
      }
      total := Ok(sum);
    }

    /** The blocks of a directory as the file system itself counts them. */
    method CountBlocks(node: Node) returns (sum: nat)
      ensures sum == NodeUse(node)
    {
      if !node.Dir? {
        return 0;
      }
      var files := Contents(node.files);
      var rest := files;
      sum := 0;
      while rest != map[]
        invariant sum + TreeBlocks(rest) == TreeBlocks(files)
        decreases |rest|
      {
        var name :| name in rest;
        TreeBlocksTakesAny(rest, name);
        sum := sum + Blocks(rest[name]);
        rest := rest - {name};
      }
    }

    method FreeBytes() returns (free: nat)
      requires Valid()
      ensures free == Free(fs, capacity)
    {
      var a := CountBlocks(fs.liveA.node);
      var b := CountBlocks(fs.liveB.node);
      var c := CountBlocks(fs.stageA.node);
      var d := CountBlocks(fs.stageB.node);
      free := capacity - (a + b + c + d + FileUse(fs.active) + FileUse(fs.temporary));
    }

    // -------------------------------------------------------------------
    // Directory calls

    /** Remove a directory file by file, then the directory itself. */
    method RemoveTree(p: Place, step: Step) returns (ok: bool)
      requires Valid() && fs.At(p).node.Dir?
      modifies this
      ensures Valid() && fs == old(fs).With(p, fs.At(p))
      ensures faults == if ok then old(faults) else old(faults) + {step}
      ensures if ok then fs.At(p) == Cell(Absent, false)
              else fs.At(p).node.Dir? && (fs.At(p) == old(fs.At(p)) || !fs.At(p).node.synced)
      ensures plan == Just(step) ==> !ok
    {
      UsedWith(fs, p, fs.At(p));
      while fs.At(p).node.files != map[]
        invariant Valid() && fs == old(fs).With(p, fs.At(p)) && fs.At(p).node.Dir?
        invariant faults == old(faults)
        invariant fs.At(p) == old(fs.At(p)) || !fs.At(p).node.synced
        decreases |fs.At(p).node.files|
      {
        var cell := fs.At(p);
        ok := Call(step);
        if !ok {
          return;
        }
        var name :| name in cell.node.files;
        var rest := cell.node.files - {name};
        TreeBlocksTakesAny(Contents(cell.node.files), name);
        assert Contents(rest) == Contents(cell.node.files) - {name};
        Replace(p, Cell(Dir(rest, false), cell.linked));
      }
      ok := Call(step);
      if ok {
        Replace(p, Cell(Absent, false));
      }
    }

    /** Change one cell to something no larger. */
    method Replace(p: Place, c: Cell)
      requires Valid() && NodeUse(c.node) <= NodeUse(fs.At(p).node)
      modifies this`fs
      ensures Valid() && fs == old(fs).With(p, c)
      ensures forall was: Fs {:trigger was.With(p, c)} :: old(fs) == was.With(p, old(fs).At(p)) ==> fs == was.With(p, c)
    {
      UsedWith(fs, p, c);
      forall was: Fs | fs == was.With(p, fs.At(p)) ensures fs.With(p, c) == was.With(p, c) {
        UsedWith(was, p, fs.At(p));
      }
      fs := fs.With(p, c);
    }

    /** Remove a plain directory; refuse anything else. */
    method RemoveConfined(p: Place, step: Step) returns (e: Option<Error>)
      requires Valid()
      modifies this
      ensures Valid() && fs == old(fs).With(p, fs.At(p)) && Worn(old(fs).At(p), fs.At(p))
      ensures old(faults) <= faults
      ensures e.None? ==> faults == old(faults) && fs.At(p).node.Absent? && !old(fs.At(p).node.Odd?)
      ensures e.None? ==> KeptOrGone(old(fs).At(p), fs.At(p))
      ensures e == Some(NotPlain) ==> fs == old(fs)
      ensures old(fs.At(p).node.Absent?) ==> e.None? && fs == old(fs)
      ensures e.Some? ==>
        || (e.value == Io(step) && step in faults)
        || (e.value == NotPlain && old(fs.At(p).node.Odd?))
      ensures fs.At(p).node.Odd? ==> old(fs.At(p).node.Odd?)
    {
      var node := fs.At(p).node;
      if node.Absent? {
        return None;
      }
      var ok := Call(step);
      if !ok {
        return Some(Io(step));
      }
      if node.Odd? {
        return Some(NotPlain);
      }
      ok := RemoveTree(p, step);
      e := if ok then None else Some(Io(step));
    }

    /** Create one file that is not there yet, write it and sync it. Without
        faults it succeeds exactly when the name is free and the bytes fit. */
    method WriteNew(p: Place, name: string, bytes: Content, step: Step) returns (ok: bool)
      requires Valid() && fs.At(p).node.Dir?
      modifies this
      ensures Valid() && fs == old(fs).With(p, fs.At(p)) && fs.At(p).node.Dir?
      ensures old(faults) <= faults
      ensures ok ==> name !in old(fs.At(p).node.files) && Blocks(bytes) <= Free(old(fs), capacity)
      ensures ok ==> faults == old(faults)
      ensures ok ==>
        fs.At(p) == Cell(Dir(old(fs.At(p).node.files)[name := File(bytes, true)], false), old(fs.At(p).linked))
      ensures !ok ==> step in faults || name in old(fs.At(p).node.files) || Blocks(bytes) > Free(old(fs), capacity)
      ensures plan == Just(step) ==> !ok
    {
      var cell := fs.At(p);
      UsedWith(fs, p, cell);
      ok := Call(step);
      if !ok || name in cell.node.files {
        return false;
      }
      ghost var room := Free(fs, capacity);
      Put(p, cell, name, File([], false), room);
      ok := FillNew(p, cell, name, bytes, step, room);
    }

    /** Write and sync the file just created; a short write leaves a prefix. */
    method FillNew(p: Place, cell: Cell, name: string, bytes: Content, step: Step, ghost room: nat) returns (ok: bool)
      requires Valid() && cell.node.Dir? && name !in cell.node.files
      requires fs.At(p) == Cell(Dir(cell.node.files[name := File([], false)], false), cell.linked)
      requires Free(fs, capacity) == room && NodeUse(fs.At(p).node) == NodeUse(cell.node)
      modifies this
      ensures Valid() && fs == old(fs).With(p, fs.At(p)) && fs.At(p).node.Dir?
      ensures old(faults) <= faults
      ensures ok ==> faults == old(faults) && Blocks(bytes) <= room
      ensures ok ==> fs.At(p) == Cell(Dir(cell.node.files[name := File(bytes, true)], false), cell.linked)
      ensures !ok ==> step in faults || Blocks(bytes) > room
    {
      UsedWith(fs, p, fs.At(p));
      var free := FreeBytes();
      ok := Call(step);
      if !ok || Blocks(bytes) > free {
        var k: int := *;
        if 0 <= k <= |bytes| && Blocks(bytes[..k]) <= free {
          Put(p, cell, name, File(bytes[..k], false), room);
        }
        return false;
      }
      Put(p, cell, name, File(bytes, false), room);
      ok := Call(step);
      if ok {
        Put(p, cell, name, File(bytes, true), room);
      }
    }

    /** Store one version of a file in a directory that held `cell` before it. */
    method Put(p: Place, cell: Cell, name: string, file: File, ghost room: nat)
      requires Valid() && cell.node.Dir? && name !in cell.node.files
      requires Free(fs, capacity) + NodeUse(fs.At(p).node) == room + NodeUse(cell.node)
      requires Blocks(file.bytes) <= room
      modifies this`fs
      ensures Valid() && fs == old(fs).With(p, Cell(Dir(cell.node.files[name := file], false), cell.linked))
      ensures NodeUse(fs.At(p).node) == NodeUse(cell.node) + Blocks(file.bytes)
      ensures Free(fs, capacity) + NodeUse(fs.At(p).node) == room + NodeUse(cell.node)
      ensures forall d :: fs.With(p, d) == old(fs).With(p, d)
    {
      var c := Cell(Dir(cell.node.files[name := file], false), cell.linked);
      ContentsPut(cell.node.files, name, file);
      TreeBlocksPut(Contents(cell.node.files), name, file.bytes);
      UsedWith(fs, p, c);
      fs := fs.With(p, c);
    }

    /** Make a directory's own list of files durable. */
    method SyncTree(p: Place) returns (ok: bool)
      requires Valid() && fs.At(p).node.Dir?
      modifies this
      ensures Valid() && faults == if ok then old(faults) else old(faults) + {SyncStage}
      ensures fs == if ok then old(fs).With(p, old(fs.At(p)).(node := old(fs.At(p).node).(synced := true))) else old(fs)
      ensures plan == Just(SyncStage) ==> !ok
    {
      ok := Call(SyncStage);
      if ok {
        fs := fs.With(p, fs.At(p).(node := fs.At(p).node.(synced := true)));
      }
    }

    /** Make the entries of the boot-set root durable, the selector included. */
    method SyncRoot(step: Step) returns (ok: bool)
      requires Valid()
      modifies this
      ensures Valid() && faults == if ok then old(faults) else old(faults) + {step}
      ensures fs == if ok then old(fs).SyncEntries() else old(fs)
      ensures plan == Just(step) ==> !ok
    {
      ok := Call(step);
      if ok {
        fs := fs.SyncEntries();
      }
    }

    // -------------------------------------------------------------------
    // The phases of an install

    /** Make sure the set fits, giving up the old inactive set when that is
        what it takes. */
    method Preflight(slot: Slot, need: nat, limits: Limits) returns (e: Option<Error>)
      requires Valid() && need <= U64_MAX
      modifies this
      ensures Valid() && fs == old(fs).With(Live(slot), fs.At(Live(slot)))
      ensures Worn(old(fs).At(Live(slot)), fs.At(Live(slot)))
      ensures old(faults) <= faults
      ensures e.None? ==> faults == old(faults)
      ensures e.Some? ==> e.value.NoSpace? || e.value.NotPlain? || Clearing(e.value, true)
      ensures e.Some? && Harmless(e.value) ==> fs == old(fs)
      ensures e.Some? && e.value.Io? ==> e.value.at in faults
      ensures limits.availableBytes.None? ==>
        PreflightAnswer(need, Free(old(fs), capacity), old(fs).At(Live(slot)).node, e, fs == old(fs))
      ensures limits.availableBytes.None? && e.None? ==>
        && Free(fs, capacity) >= need
        && Free(fs, capacity) + NodeUse(fs.At(Live(slot)).node)
             == Free(old(fs), capacity) + NodeUse(old(fs).At(Live(slot)).node)
      ensures fs.At(Live(slot)).node.Odd? ==> old(fs).At(Live(slot)).node.Odd?
      ensures e.None? && old(fs).At(Live(slot)).node.Odd? ==> fs == old(fs)
      ensures e.None? ==> KeptOrGone(old(fs).At(Live(slot)), fs.At(Live(slot)))
      ensures limits.availableBytes.None? && e.None? && Free(old(fs), capacity) < need ==>
        fs.At(Live(slot)).node.Absent?
      ensures plan == Just(StatSpace) ==> e.Some?
    {
      UsedWith(fs, Live(slot), fs.At(Live(slot)));
      var ok := Call(StatSpace);
      if !ok {
        return Some(Io(StatSpace));
      }
      var available;
      if limits.availableBytes.Some? {
        available := limits.availableBytes.value;
      } else {
        available := FreeBytes();
        available := SaturatingAdd(available, 0);
      }
      if available >= need {
        return None;
      }
      var reclaim := AllocatedTree(Live(slot));
      if reclaim.Err? {
        return Some(reclaim.error);
      }
      if SaturatingAdd(available, reclaim.value) < need {
        return Some(NoSpace);
      }
      UsedWith(fs, Live(slot), Cell(Absent, false));
      e := RemoveConfined(Live(slot), ClearTarget);
    }

    /** Write the metadata and then every member with its signature into the
        empty staging directory. */
    method StageBundle(slot: Slot, ghost t: Trust, ghost bundle: Files, v: Validated, failAfter: Option<nat>)
      returns (e: Option<Error>)
      requires Valid() && fs.At(Stage(slot)) == Cell(Dir(map[], false), false)
      requires Accepts(t, bundle) && Describes(t, bundle, v)
      modifies this
      ensures Valid() && fs == old(fs).With(Stage(slot), fs.At(Stage(slot))) && fs.At(Stage(slot)).node.Dir?
      ensures old(faults) <= faults
      ensures e.None? ==> faults == old(faults) && Need(t, bundle) <= Free(old(fs), capacity)
      ensures e.None? ==> fs.At(Stage(slot)) == Cell(Dir(Synced(SetOf(t, bundle)), false), false)
      ensures e.Some? ==> WritingStopped(e.value, failAfter, Need(t, bundle), Free(old(fs), capacity), faults)
      ensures CannotWrite(plan) ==> e.Some?
      ensures StopsAfter(failAfter, |v.artifacts|, e)
    {
      var p := Stage(slot);
      MetadataFirst(t, bundle, v);
      var ok := StageMetadata(p, v.manifestBytes, v.manifestSignature);
      if !ok {
        return Some(Io(WriteMetadata));
      }
      e := StageRest(p, t, bundle, v, failAfter, old(fs));
    }

    /** All members beside the metadata make the set. */
    method StageRest(p: Place, ghost t: Trust, ghost bundle: Files, v: Validated, failAfter: Option<nat>, ghost was: Fs)
      returns (e: Option<Error>)
      requires Accepts(t, bundle) && Describes(t, bundle, v)
      requires Valid() && fs == was.With(p, fs.At(p)) && Physical(was, capacity)
      requires Staged(p, bundle, v, 0, Free(was, capacity))
      modifies this
      ensures Valid() && fs == was.With(p, fs.At(p)) && fs.At(p).node.Dir?
      ensures old(faults) <= faults
      ensures e.None? ==> faults == old(faults) && Need(t, bundle) <= Free(was, capacity)
      ensures e.None? ==> fs.At(p) == Cell(Dir(Synced(SetOf(t, bundle)), false), false)
      ensures e.Some? ==> WritingStopped(e.value, failAfter, Need(t, bundle), Free(was, capacity), faults)
      ensures plan == Just(WriteArtifact) ==> e.Some?
      ensures StopsAfter(failAfter, |v.artifacts|, e)
    {
      AllStaged(t, bundle, v);
      e := StageMembers(p, t, bundle, v, failAfter, was);
    }

    /** The staging directory holds the metadata and the first i members, and
        every byte of it came out of `room`. */
    ghost predicate Staged(p: Place, bundle: Files, v: Validated, i: nat, room: nat)
      requires Valid() && i <= |v.manifest.files|
      reads this
    {
      var plain := PrefixSet(bundle, v.manifest.files, i);
      && fs.At(p) == Cell(Dir(Synced(plain), false), false)
      && TreeBlocks(plain) + Free(fs, capacity) == room
    }

    method StageMembers(p: Place, ghost t: Trust, ghost bundle: Files, v: Validated, failAfter: Option<nat>,
                        ghost was: Fs)
      returns (e: Option<Error>)
      requires Accepts(t, bundle) && Describes(t, bundle, v)
      requires Valid() && fs == was.With(p, fs.At(p)) && Physical(was, capacity)
      requires Staged(p, bundle, v, 0, Free(was, capacity))
      requires v.artifacts != []
      modifies this
      ensures Valid() && fs == was.With(p, fs.At(p)) && fs.At(p).node.Dir?
      ensures old(faults) <= faults
      ensures e.None? ==> faults == old(faults) && Staged(p, bundle, v, |v.artifacts|, Free(was, capacity))
      ensures e.Some? ==> WritingStopped(e.value, failAfter, Need(t, bundle), Free(was, capacity), faults)
      ensures plan == Just(WriteArtifact) ==> e.Some?
      ensures StopsAfter(failAfter, |v.artifacts|, e)
    {
      for i := 0 to |v.artifacts|
        invariant Valid() && fs == was.With(p, fs.At(p))
        invariant faults == old(faults)
        invariant failAfter.None? || failAfter.value >= i
        invariant plan == Just(WriteArtifact) ==> i == 0
        invariant Staged(p, bundle, v, i, Free(was, capacity))
      {
        if failAfter.Some? && failAfter.value == i {
          return Some(Injected);
        }
        var ok := StageNth(p, t, bundle, v, i, was);
        if !ok {
          return Some(Io(WriteArtifact));
        }
      }
      e := None;
    }

    /** The signed manifest goes first. */
    method StageMetadata(p: Place, manifest: Content, signature: Content) returns (ok: bool)
      requires Valid() && fs.At(p) == Cell(Dir(map[], false), false)
      modifies this
      ensures Valid() && fs == old(fs).With(p, fs.At(p)) && fs.At(p).node.Dir?
      ensures old(faults) <= faults
      ensures ok ==> faults == old(faults)
      ensures ok ==>
        var after := map[MANIFEST := manifest, MANIFEST_SIG := signature];
        && fs.At(p) == Cell(Dir(Synced(after), false), false)
        && TreeBlocks(after) + Free(fs, capacity) == Free(old(fs), capacity)
      ensures !ok ==> WriteMetadata in faults || Blocks(manifest) + Blocks(signature) > Free(old(fs), capacity)
      ensures plan == Just(WriteMetadata) ==> !ok
    {
      UsedWith(fs, p, fs.At(p));
      ManifestNamesDiffer();
      assert Synced(map[]) == map[];
      ok := Append(p, map[], MANIFEST, manifest, WriteMetadata, old(fs));
      if ok {
        assert map[MANIFEST := manifest, MANIFEST_SIG := signature]
          == map[MANIFEST := manifest][MANIFEST_SIG := signature];
        ok := Append(p, map[MANIFEST := manifest], MANIFEST_SIG, signature, WriteMetadata, old(fs));
      }
    }

    method StageNth(p: Place, ghost t: Trust, ghost bundle: Files, v: Validated, i: nat, ghost was: Fs)
      returns (ok: bool)
      requires Accepts(t, bundle) && Describes(t, bundle, v) && i < |v.artifacts|
      requires Valid() && fs == was.With(p, fs.At(p)) && Physical(was, capacity)
      requires Staged(p, bundle, v, i, Free(was, capacity))
      modifies this
      ensures Valid() && fs == was.With(p, fs.At(p)) && fs.At(p).node.Dir?
      ensures old(faults) <= faults
      ensures ok ==> faults == old(faults)
      ensures ok ==> Staged(p, bundle, v, i + 1, Free(was, capacity))
      ensures !ok ==> WriteArtifact in faults || Need(t, bundle) > Free(was, capacity)
      ensures plan == Just(WriteArtifact) ==> !ok
    {
      var artifact := v.artifacts[i];
      var entry := v.manifest.files[artifact.entryIndex];
      PrefixSetStep(bundle, v.manifest.files, i);
      ok := StageMember(p, PrefixSet(bundle, v.manifest.files, i), entry, artifact, was);
    }

    /** Copy one member and then its signature. */
    method StageMember(p: Place, ghost plain: Files, entry: Entry, artifact: Artifact, ghost was: Fs)
      returns (ok: bool)
      requires Valid() && fs.At(p) == Cell(Dir(Synced(plain), false), false)
      requires fs == was.With(p, fs.At(p))
      requires entry.destination !in plain && entry.signature !in plain && entry.signature != entry.destination
      modifies this
      ensures Valid() && fs == was.With(p, fs.At(p)) && fs.At(p).node.Dir?
      ensures old(faults) <= faults
      ensures ok ==> faults == old(faults)
      ensures ok ==>
        var after := plain[entry.destination := artifact.payload][entry.signature := artifact.signature];
        && fs.At(p) == Cell(Dir(Synced(after), false), false)
        && TreeBlocks(after) + Free(fs, capacity) == TreeBlocks(plain) + Free(old(fs), capacity)
      ensures !ok ==>
        WriteArtifact in faults || Blocks(artifact.payload) + Blocks(artifact.signature) > Free(old(fs), capacity)
      ensures plan == Just(WriteArtifact) ==> !ok
    {
      ok := Append(p, plain, entry.destination, artifact.payload, WriteArtifact, was);
      if ok {
        ok := Append(p, plain[entry.destination := artifact.payload], entry.signature, artifact.signature,
                     WriteArtifact, was);
      }
    }

    /** WriteNew on a directory whose files are all synced and known. */
    method Append(p: Place, ghost plain: Files, name: string, bytes: Content, step: Step, ghost was: Fs)
      returns (ok: bool)
      requires Valid() && fs.At(p) == Cell(Dir(Synced(plain), false), false) && name !in plain
      requires fs == was.With(p, fs.At(p))
      modifies this
      ensures Valid() && fs == was.With(p, fs.At(p)) && fs.At(p).node.Dir?
      ensures old(faults) <= faults
      ensures ok ==> faults == old(faults)
      ensures ok ==> fs.At(p) == Cell(Dir(Synced(plain[name := bytes]), false), false)
      ensures ok ==> Free(fs, capacity) + Blocks(bytes) == Free(old(fs), capacity)
      ensures ok ==> TreeBlocks(plain[name := bytes]) == TreeBlocks(plain) + Blocks(bytes)
      ensures !ok ==> step in faults || Blocks(bytes) > Free(old(fs), capacity)
      ensures plan == Just(step) ==> !ok
    {
      ok := WriteNew(p, name, bytes, step);
      WithTwice(was, old(fs), p, fs.At(p));
      if ok {
        Grown(old(fs), p, plain, name, bytes);
      }
    }

    /** Write the selector beside the old one, then rename it into place. */
    method WriteSelector(slot: Slot) returns (e: Option<Error>)
      requires Valid() && fs.durable == {fs.active} && (fs.active.Some? ==> Named(fs.active).Some?)
      modifies this
      ensures Valid() && forall p :: Kept(old(fs).At(p), fs.At(p))
      ensures old(faults) <= faults
      ensures e.None? ==> faults == old(faults) && Free(old(fs), capacity) + FileUse(old(fs).temporary) >= BLOCK
      ensures Selecting(slot, old(fs.active), e, fs)
      ensures e.Some? ==>
        || e.value.at in faults
        || (e.value == Io(PutSelector) && Free(old(fs), capacity) + FileUse(old(fs).temporary) < BLOCK)
      ensures CannotSelect(plan) ==> e.Some?
      ensures plan == Just(PutSelector) ==> e == Some(Io(PutSelector)) && fs.temporary.None?
    {
      var ok := ClearStale();
      if !ok {
        return Some(Io(ClearTemporary));
      }
      ok := WriteTemporary(SelectorText(slot));
      if !ok {
        return Some(Io(PutSelector));
      }
      e := RenameSelector(slot);
    }

    /** Remove a temporary file an earlier run left. */
    method ClearStale() returns (ok: bool)
      requires Valid()
      modifies this
      ensures Valid() && fs == old(fs).(temporary := fs.temporary)
      ensures faults == if ok then old(faults) else old(faults) + {ClearTemporary}
      ensures plan == Just(PutSelector) ==> ok
      ensures ok ==> fs.temporary.None? && Free(fs, capacity) == Free(old(fs), capacity) + FileUse(old(fs).temporary)
    {
      if fs.temporary.None? {
        return true;
      }
      ok := Call(ClearTemporary);
      if ok {
        fs := fs.(temporary := None);
      }
    }

    /** Rename the finished temporary over the selector and sync. */
    method RenameSelector(slot: Slot) returns (e: Option<Error>)
      requires Valid() && fs.durable == {fs.active} && fs.temporary == Some(Selector(slot))
      requires fs.active.Some? ==> Named(fs.active).Some?
      modifies this
      ensures Valid() && forall p :: Kept(old(fs).At(p), fs.At(p))
      ensures e.None? ==> faults == old(faults)
      ensures e.Some? ==> e.value.Io? && faults == old(faults) + {e.value.at}
      ensures Selecting(slot, old(fs.active), e, fs)
      ensures plan == Just(SwapSelector) || plan == Just(SyncSelector) ==> e.Some?
    {
      var ok := Call(SwapSelector);
      if !ok {
        return Some(Io(SwapSelector));
      }
      fs := fs.(active := fs.temporary, durable := fs.durable + {fs.temporary}, temporary := None);
      ok := SyncRoot(SyncSelector);
      e := if ok then None else Some(Io(SyncSelector));
    }

    /** Create, write and sync the selector's temporary file. */
    method WriteTemporary(text: Content) returns (ok: bool)
      requires Valid() && fs.temporary.None?
      modifies this
      ensures Valid() && fs == old(fs).(temporary := fs.temporary)
      ensures old(faults) <= faults
      ensures ok ==> faults == old(faults) && fs.temporary == Some(File(text, true))
      ensures ok ==> Blocks(text) <= Free(old(fs), capacity)
      ensures !ok ==> PutSelector in faults || Blocks(text) > Free(old(fs), capacity)
      ensures plan == Just(PutSelector) ==> !ok && fs == old(fs)
    {
      ok := Call(PutSelector);
      if !ok {
        return;
      }
      var free := FreeBytes();
      fs := fs.(temporary := Some(File([], false)));
      ok := Call(PutSelector);
      if !ok || Blocks(text) > free {
        var k: int := *;
        if 0 <= k <= |text| && Blocks(text[..k]) <= free {
          fs := fs.(temporary := Some(File(text[..k], false)));
        }
        return false;
      }
      fs := fs.(temporary := Some(File(text, false)));
      ok := Call(PutSelector);
      if ok {
        fs := fs.(temporary := Some(File(text, true)));
      }
    }

    // -------------------------------------------------------------------
    // The install

    /** Validate a directory that is already on the file system. */
    method CheckInstalled(t: Trust, p: Place, step: Step) returns (r: Option<Validated>)
      requires Valid()
      modifies this`faults
      ensures Valid() && old(faults) <= faults
      ensures r.Some? ==> Complete(t, fs.At(p).node) && Describes(t, Contents(fs.At(p).node.files), r.value)
      ensures r.Some? ==> faults == old(faults)
      ensures r.None? ==> step in faults || !Complete(t, fs.At(p).node)
      ensures plan == Just(step) ==> r.None?
    {
      var ok := Call(step);
      if !ok || !fs.At(p).node.Dir? {
        return None;
      }
      r := ValidateBundle(t, Contents(fs.At(p).node.files));
    }

    /** Everything that is decided before the first write: either the final
        answer, or the validated bundle, which targets the inactive slot. */
    method Decide(t: Trust, bundle: Files) returns (answer: Result<Outcome, Error>, v: Option<Validated>)
      requires Valid()
      modifies this`faults
      ensures Valid() && old(faults) <= faults
      ensures v.Some? ==> Accepts(t, bundle) && Describes(t, bundle, v.value) && Ready(t, bundle, fs)
      ensures v.Some? ==> ReadInstalled in faults || !Running(t, bundle, fs)
      ensures v.None? && answer.Ok? ==>
        answer.value.Unchanged? && Running(t, bundle, fs) && Named(fs.active) == Some(answer.value.slot)
      ensures v.None? && answer.Err? ==>
        || (answer.error == InvalidBundle && !Accepts(t, bundle))
        || (answer.error == MalformedSelector && !Readable(fs))
        || (answer.error == WrongSlot && !Ready(t, bundle, fs) && (ReadInstalled in faults || !Running(t, bundle, fs)))
        || (answer.error.Io? && (answer.error.at.ReadBundle? || answer.error.at.ReadSelector?)
            && answer.error.at in faults)
      ensures faults == {} ==> EarlyAnswer(t, bundle, fs) == if v.None? then Some(answer) else None
      ensures v.None? && answer.Ok? ==> HasSet(t, bundle, fs, answer.value.slot)
      ensures CannotDecide(plan) ==> v.None?
    {
      v := None;
      var ok := Call(ReadBundle);
      if !ok {
        return Err(Io(ReadBundle)), None;
      }
      var checked := ValidateBundle(t, bundle);
      if checked.None? {
        return Err(InvalidBundle), None;
      }
      ok := Call(ReadSelector);
      if !ok {
        return Err(Io(ReadSelector)), None;
      }
      SelectsIsNamed(fs, A);
      SelectsIsNamed(fs, B);
      if fs.active.Some? && Named(fs.active).None? {
        return Err(MalformedSelector), None;
      }
      answer, v := Compare(t, bundle, checked.value);
    }

    /** Whether a valid bundle is installed already, or is for the slot that is
        not written. */
    method Compare(t: Trust, ghost bundle: Files, checked: Validated)
      returns (answer: Result<Outcome, Error>, v: Option<Validated>)
      requires Valid() && Readable(fs) && Accepts(t, bundle) && Describes(t, bundle, checked)
      modifies this`faults
      ensures Valid() && old(faults) <= faults
      ensures v.Some? ==>
        v == Some(checked) && Ready(t, bundle, fs) && (ReadInstalled in faults || !Running(t, bundle, fs))
      ensures v.None? && answer.Ok? ==>
        && answer.value.Unchanged? && Running(t, bundle, fs) && Named(fs.active) == Some(answer.value.slot)
        && HasSet(t, bundle, fs, answer.value.slot)
      ensures v.None? && answer.Err? ==>
        answer.error == WrongSlot && !Ready(t, bundle, fs) && (ReadInstalled in faults || !Running(t, bundle, fs))
      ensures faults == {} ==> EarlyAnswer(t, bundle, fs) == if v.None? then Some(answer) else None
    {
      RunningHasSet(t, bundle, fs);
      SelectsIsNamed(fs, A);
      SelectsIsNamed(fs, B);
      if fs.active.Some? {
        var installed := CheckInstalled(t, Live(Named(fs.active).value), ReadInstalled);
        if installed.Some? && installed.value.manifestBytes == checked.manifestBytes {
          return Ok(Unchanged(Named(fs.active).value)), None;
        }
      }
      var slot := if checked.manifest.targetSlot == "A" then A else B;
      if slot != Inactive(fs) {
        return Err(WrongSlot), None;
      }
      answer, v := Err(Io(ReadBundle)), Some(checked);
    }

    /** A fresh staging directory in place of whatever was left there. */
    method MakeStage(slot: Slot) returns (e: Option<Error>)
      requires Valid()
      modifies this
      ensures Valid() && fs == old(fs).With(Stage(slot), fs.At(Stage(slot)))
      ensures old(faults) <= faults
      ensures e.None? ==> faults == old(faults) && fs.At(Stage(slot)) == Cell(Dir(map[], false), false)
      ensures e.None? ==> !old(fs).At(Stage(slot)).node.Odd?
      ensures e.None? ==> Free(fs, capacity) == Free(old(fs), capacity) + NodeUse(old(fs).At(Stage(slot)).node)
      ensures e.Some? ==>
        || (e.value == NotPlain && old(fs).At(Stage(slot)).node.Odd?)
        || (e.value.Io? && (e.value.at.ClearStage? || e.value.at.CreateStage?) && e.value.at in faults)
      ensures fs.At(Stage(slot)).node.Odd? ==> old(fs).At(Stage(slot)).node.Odd?
      ensures plan == Just(CreateStage) ==> e.Some?
    {
      var p := Stage(slot);
      UsedWith(fs, p, Cell(Absent, false));
      UsedWith(fs, p, Cell(Dir(map[], false), false));
      e := RemoveConfined(p, ClearStage);
      if e.Some? {
        return;
      }
      UsedWith(old(fs), p, fs.At(p));
      var ok := Call(CreateStage);
      if !ok {
        return Some(Io(CreateStage));
      }
      assert Contents(map[]) == map[];
      fs := fs.With(p, Cell(Dir(map[], false), false));
    }

    /** Stage the set, sync it, and validate what is now on disk. A staging
        error removes the directory again, as far as that works. */
    method FillStage(slot: Slot, t: Trust, ghost bundle: Files, v: Validated, failAfter: Option<nat>)
      returns (e: Option<Error>)
      requires Valid() && fs.At(Stage(slot)) == Cell(Dir(map[], false), false)
      requires Accepts(t, bundle) && Describes(t, bundle, v)
      modifies this
      ensures Valid() && fs == old(fs).With(Stage(slot), fs.At(Stage(slot))) && !fs.At(Stage(slot)).node.Odd?
      ensures old(faults) <= faults
      ensures e.None? ==> faults == old(faults) && Need(t, bundle) <= Free(old(fs), capacity)
      ensures e.None? ==> fs.At(Stage(slot)).node == Dir(Synced(SetOf(t, bundle)), true)
      ensures e.None? ==> Free(fs, capacity) + Need(t, bundle) == Free(old(fs), capacity)
      ensures e.Some? ==>
        || WritingStopped(e.value, failAfter, Need(t, bundle), Free(old(fs), capacity), faults)
        || (e.value.Io? && (e.value.at.SyncStage? || e.value.at.Recheck?) && e.value.at in faults)
      ensures e == Some(Io(WriteMetadata)) && ClearStage !in faults ==> fs.At(Stage(slot)).node.Absent?
      ensures CannotBuild(plan) && plan != Just(CreateStage) ==> e.Some?
      ensures StopsAfter(failAfter, |v.artifacts|, e)
    {
      e := StageOrClear(slot, t, bundle, v, failAfter);
      if e.None? {
        e := SealStage(Stage(slot), t, bundle, old(fs));
      }
    }

    /** Stage the set, or remove what was staged. */
    method StageOrClear(slot: Slot, ghost t: Trust, ghost bundle: Files, v: Validated, failAfter: Option<nat>)
      returns (e: Option<Error>)
      requires Valid() && fs.At(Stage(slot)) == Cell(Dir(map[], false), false)
      requires Accepts(t, bundle) && Describes(t, bundle, v)
      modifies this
      ensures Valid() && fs == old(fs).With(Stage(slot), fs.At(Stage(slot))) && !fs.At(Stage(slot)).node.Odd?
      ensures old(faults) <= faults
      ensures e.None? ==> faults == old(faults) && Need(t, bundle) <= Free(old(fs), capacity)
      ensures e.None? ==> fs.At(Stage(slot)) == Cell(Dir(Synced(SetOf(t, bundle)), false), false)
      ensures e.None? ==> Free(fs, capacity) + Need(t, bundle) == Free(old(fs), capacity)
      ensures e.Some? ==> WritingStopped(e.value, failAfter, Need(t, bundle), Free(old(fs), capacity), faults)
      ensures e.Some? && ClearStage !in faults ==> fs.At(Stage(slot)).node.Absent?
      ensures CannotWrite(plan) ==> e.Some?
      ensures StopsAfter(failAfter, |v.artifacts|, e)
    {
      e := StageBundle(slot, t, bundle, v, failAfter);
      UsedWith(old(fs), Stage(slot), fs.At(Stage(slot)));
      if e.Some? {
        var _ := RemoveTree(Stage(slot), ClearStage);
        return;
      }
      StagedSetAccepts(t, bundle);
      assert Contents(map[]) == map[];
    }

    /** Sync a complete stage and validate it again. */
    method SealStage(p: Place, t: Trust, ghost bundle: Files, ghost was: Fs) returns (e: Option<Error>)
      requires Valid() && Accepts(t, bundle) && fs.At(p) == Cell(Dir(Synced(SetOf(t, bundle)), false), false)
      requires fs == was.With(p, fs.At(p))
      modifies this
      ensures Valid() && fs == was.With(p, fs.At(p)) && !fs.At(p).node.Odd?
      ensures old(faults) <= faults && Free(fs, capacity) == Free(old(fs), capacity)
      ensures e.None? ==> faults == old(faults) && fs.At(p).node == Dir(Synced(SetOf(t, bundle)), true)
      ensures e.Some? ==> e.value.Io? && (e.value.at.SyncStage? || e.value.at.Recheck?) && e.value.at in faults
      ensures plan == Just(SyncStage) || plan == Just(Recheck) ==> e.Some?
    {
      StagedSetAccepts(t, bundle);
      UsedWith(was, p, fs.At(p));
      var ok := SyncTree(p);
      if !ok {
        return Some(Io(SyncStage));
      }
      UsedWith(old(fs), p, fs.At(p));
      var again := CheckInstalled(t, p, Recheck);
      e := if again.Some? then None else Some(Io(Recheck));
    }

    /** A complete stage in place of whatever was there. */
    method BuildStage(slot: Slot, t: Trust, ghost bundle: Files, v: Validated, failAfter: Option<nat>)
      returns (e: Option<Error>)
      requires Valid() && Accepts(t, bundle) && Describes(t, bundle, v)
      modifies this
      ensures Valid() && fs == old(fs).With(Stage(slot), fs.At(Stage(slot)))
      ensures fs.At(Stage(slot)).node.Odd? ==> old(fs).At(Stage(slot)).node.Odd?
      ensures old(faults) <= faults
      ensures e.None? ==> faults == old(faults) && fs.At(Stage(slot)).node == Dir(Synced(SetOf(t, bundle)), true)
      ensures e.None? ==>
        && !old(fs).At(Stage(slot)).node.Odd?
        && Free(fs, capacity) + Need(t, bundle) == Free(old(fs), capacity) + NodeUse(old(fs).At(Stage(slot)).node)
      ensures e.Some? ==> e.value == NotPlain || Staging(e.value)
      ensures e.Some? ==>
        || failAfter.Some? || Need(t, bundle) > Free(old(fs), capacity)
        || (e.value == NotPlain && old(fs).At(Stage(slot)).node.Odd?)
        || (e.value.Io? && e.value.at in faults)
      ensures e == Some(Io(WriteMetadata)) && ClearStage !in faults ==> fs.At(Stage(slot)).node.Absent?
      ensures CannotBuild(plan) ==> e.Some?
      ensures StopsAfter(failAfter, |v.artifacts|, e)
    {
      e := MakeStage(slot);
      UsedWith(old(fs), Stage(slot), fs.At(Stage(slot)));
      if e.Some? {
        return;
      }
      e := FillStage(slot, t, bundle, v, failAfter);
    }

    /** From the decision to a complete, synced and re-validated staging
        directory. Only the inactive slot and its stage change. */
    method PrepareStage(t: Trust, ghost bundle: Files, slot: Slot, v: Validated, limits: Limits)
      returns (e: Option<Error>)
      requires Valid() && Accepts(t, bundle) && Describes(t, bundle, v)
      modifies this
      ensures Valid() && Confined(old(fs), fs, slot)
      ensures old(faults) <= faults
      ensures e.Some? ==> Preparing(e.value) && (Harmless(e.value) ==> fs == old(fs))
      ensures e.None? || Staging(e.value) ==> KeptOrGone(old(fs).At(Live(slot)), fs.At(Live(slot)))
      ensures e.None? ==>
        faults == old(faults) && fs.At(Stage(slot)).node == Dir(Synced(SetOf(t, bundle)), true)
      ensures limits == NO_LIMITS ==> PreparedOrWhy(t, bundle, slot, old(fs), capacity, e, faults, fs)
      ensures e == Some(Io(WriteMetadata)) && ClearStage !in faults ==> fs.At(Stage(slot)).node.Absent?
      ensures CannotBuild(plan) || plan == Just(StatSpace) ==> e.Some?
      ensures StopsAfter(limits.failAfterFiles, |v.artifacts|, e)
    {
      e := Preflight(slot, v.need, limits);
      if e.Some? {
        TargetThenStage(old(fs), fs, fs, slot);
        if limits == NO_LIMITS {
          PreflightTold(t, bundle, slot, old(fs), capacity, e.value, faults, fs);
        }
        return;
      }
      e := StageBeside(slot, t, bundle, v, limits, old(fs));
    }

    /** Preflight let the install start. */
    ghost predicate Cleared(bundle: Files, t: Trust, slot: Slot, limits: Limits, before: Fs)
      requires Valid() && Physical(before, capacity) && Accepts(t, bundle)
      reads this
    {
      var was, now, need := before.At(Live(slot)), fs.At(Live(slot)), Need(t, bundle);
      && fs == before.With(Live(slot), now) && KeptOrGone(was, now) && (was.node.Odd? ==> fs == before)
      && (limits == NO_LIMITS ==>
            && Free(fs, capacity) >= need
            && Free(fs, capacity) + NodeUse(now.node) == Free(before, capacity) + NodeUse(was.node)
            && (if Free(before, capacity) >= need then fs == before else now.node.Absent? && !was.node.Odd?))
    }

    /** Build the stage where preflight made or found room. */
    method StageBeside(slot: Slot, t: Trust, ghost bundle: Files, v: Validated, limits: Limits, ghost before: Fs)
      returns (e: Option<Error>)
      requires Valid() && Physical(before, capacity) && Accepts(t, bundle) && Describes(t, bundle, v)
      requires Cleared(bundle, t, slot, limits, before)
      modifies this
      ensures Valid() && Confined(before, fs, slot) && old(faults) <= faults
      ensures KeptOrGone(before.At(Live(slot)), fs.At(Live(slot)))
      ensures e.Some? ==> e.value.NotPlain? || Staging(e.value)
      ensures e.None? ==>
        faults == old(faults) && fs.At(Stage(slot)).node == Dir(Synced(SetOf(t, bundle)), true)
      ensures limits == NO_LIMITS ==> PreparedOrWhy(t, bundle, slot, before, capacity, e, faults, fs)
      ensures e == Some(Io(WriteMetadata)) && ClearStage !in faults ==> fs.At(Stage(slot)).node.Absent?
      ensures CannotBuild(plan) ==> e.Some?
      ensures StopsAfter(limits.failAfterFiles, |v.artifacts|, e)
    {
      e := BuildStage(slot, t, bundle, v, limits.failAfterFiles);
      TargetThenStage(before, old(fs), fs, slot);
    }

    /** Put the complete stage in the place of the old inactive set. */
    method PublishSlot(slot: Slot) returns (e: Option<Error>)
      requires Valid() && fs.At(Stage(slot)).node.Dir?
      modifies this
      ensures Valid() && old(faults) <= faults
      ensures if e.None? then Moved(old(fs), fs, slot) else Confined(old(fs), fs, slot)
      ensures e.None? ==> faults == old(faults) && !old(fs).At(Live(slot)).node.Odd?
      ensures e.None? ==> Free(fs, capacity) == Free(old(fs), capacity) + NodeUse(old(fs).At(Live(slot)).node)
      ensures e.Some? ==>
        || (e.value == NotPlain && old(fs).At(Live(slot)).node.Odd?)
        || (e.value.Io? && Publishing(e.value.at) && e.value.at in faults)
      ensures e == Some(Io(Publish)) ==>
        fs.At(Live(slot)).node.Absent? && fs.At(Stage(slot)) == old(fs).At(Stage(slot))
      ensures CannotPublish(plan) ==> e.Some?
    {
      e := RemoveConfined(Live(slot), ClearTarget);
      UsedWith(old(fs), Live(slot), fs.At(Live(slot)));
      TargetThenStage(old(fs), fs, fs, slot);
      if e.Some? {
        return;
      }
      TargetThenRename(old(fs), fs, slot);
      e := RenameStage(slot);
    }

    /** The stage stands in the target's place, and every entry is durable. */
    static ghost predicate Moved(before: Fs, after: Fs, slot: Slot) {
      && after.active == before.active && after.durable == {after.active} && after.temporary == before.temporary
      && OthersKept(before, after, slot) && NoNewOddEntry(before, after)
      && after.At(Live(slot)) == Cell(before.At(Stage(slot)).node, true) && after.At(Stage(slot)).node.Absent?
    }

    /** Rename the stage into the empty slot and make the entries durable. */
    method RenameStage(slot: Slot) returns (e: Option<Error>)
      requires Valid() && fs.At(Stage(slot)).node.Dir? && fs.At(Live(slot)).node.Absent?
      modifies this
      ensures Valid()
      ensures e.None? ==> faults == old(faults)
      ensures e.Some? ==> e.value == Io(Publish) || e.value == Io(SyncSlot)
      ensures e.Some? ==> faults == old(faults) + {e.value.at}
      ensures e.None? ==> fs == Renamed(old(fs), slot).SyncEntries() && Used(fs) == Used(old(fs))
      ensures e == Some(Io(Publish)) ==> fs == old(fs)
      ensures e == Some(Io(SyncSlot)) ==> fs == Renamed(old(fs), slot)
      ensures forall p: Place :: p.slot != slot ==> Renamed(old(fs), slot).At(p) == old(fs).At(p)
      ensures CannotPublish(plan) ==> e.Some?
    {
      UsedRenamed(fs, slot);
      var ok := Call(Publish);
      if !ok {
        return Some(Io(Publish));
      }
      fs := Renamed(fs, slot);
      UsedSynced(fs);
      ok := SyncRoot(SyncSlot);
      e := if ok then None else Some(Io(SyncSlot));
    }

    /** Publish the complete stage and select it. */
    method Activate(slot: Slot, ghost t: Trust, ghost bundle: Files) returns (e: Option<Error>)
      requires Valid() && slot == Inactive(fs) && Ready(t, bundle, fs)
      requires fs.At(Stage(slot)).node == Dir(Synced(SetOf(t, bundle)), true)
      modifies this
      ensures Valid() && old(faults) <= faults
      ensures Ended(t, bundle, old(fs), Answer(slot, e), fs)
      ensures Tried(e, slot, old(fs), capacity, faults) && if e.None? then faults == old(faults) else Late(e.value)
      ensures plan == Just(Publish) ==> !Publishes(Answer(slot, e))
      ensures CannotPublish(plan) || CannotSelect(plan) ==> e.Some?
      ensures plan == Just(PutSelector) && e == Some(Io(PutSelector)) ==> fs.temporary.None?
    {
      e := PublishSlot(slot);
      if e.Some? {
        EndedPublishing(t, bundle, old(fs), e.value, fs);
        return;
      }
      e := SelectPublished(slot, t, bundle, old(fs));
    }

    /** Select the set just published. */
    method SelectPublished(slot: Slot, ghost t: Trust, ghost bundle: Files, ghost before: Fs)
      returns (e: Option<Error>)
      requires Valid() && Moved(before, fs, slot) && slot == Inactive(before) && Ready(t, bundle, before)
      requires before.At(Stage(slot)).node == Dir(Synced(SetOf(t, bundle)), true)
      modifies this
      ensures Valid() && old(faults) <= faults
      ensures Ended(t, bundle, before, Answer(slot, e), fs)
      ensures if e.None? then faults == old(faults) else e.value.Io? && Selects(e.value.at)
      ensures e.None? ==> Free(old(fs), capacity) + FileUse(before.temporary) >= BLOCK
      ensures e.Some? ==>
        || e.value.at in faults
        || (e.value == Io(PutSelector) && Free(old(fs), capacity) + FileUse(before.temporary) < BLOCK)
      ensures CannotSelect(plan) ==> e.Some?
      ensures plan == Just(PutSelector) ==> e == Some(Io(PutSelector)) && fs.temporary.None?
    {
      e := WriteSelector(slot);
      ReachedAfter(t, bundle, before, old(fs), fs);
      EndedSelecting(t, bundle, before, e, fs);
    }

    /** Carry out an install that was decided. */
    method CarryOut(t: Trust, ghost bundle: Files, v: Validated, limits: Limits) returns (r: Result<Outcome, Error>)
      requires Valid() && Ready(t, bundle, fs) && Describes(t, bundle, v)
      requires !CannotDecide(plan)
      modifies this
      ensures Valid() && Ended(t, bundle, old(fs), r, fs)
      ensures old(faults) <= faults && (r.Ok? ==> faults == old(faults) && r.value.Activated?)
      ensures limits == NO_LIMITS ==> Explained(t, bundle, old(fs), capacity, r, faults, fs)
      ensures Planned(plan, r, Inactive(old(fs)), faults, fs) && !Early(r)
      ensures StopsAfter(limits.failAfterFiles, |v.artifacts|, if r.Err? then Some(r.error) else None)
    {
      var slot := Inactive(fs);
      var e := PrepareStage(t, bundle, slot, v, limits);
      if e.Some? {
        EndedPreparing(t, bundle, old(fs), e.value, fs);
        PreparingIsPlanned(plan, e.value, slot, faults, fs);
        if limits == NO_LIMITS {
          StoppedExplained(t, bundle, old(fs), capacity, e.value, faults, fs);
        }
        return Err(e.value);
      }
      r := Finish(slot, t, bundle, limits, old(fs));
      WrittenIsNotEarly(r);
    }

    /** From a complete stage to the end. */
    method Finish(slot: Slot, ghost t: Trust, ghost bundle: Files, limits: Limits, ghost before: Fs)
      returns (r: Result<Outcome, Error>)
      requires Valid() && Physical(before, capacity) && slot == Inactive(before) && Ready(t, bundle, before)
      requires Confined(before, fs, slot) && fs.At(Stage(slot)).node == Dir(Synced(SetOf(t, bundle)), true)
      requires !CannotPrepare(plan)
      requires limits == NO_LIMITS ==>
        Prepared(t, bundle, slot, before, fs, capacity) && Touches(t, bundle, slot, before, capacity)
      modifies this
      ensures Valid() && Ended(t, bundle, before, r, fs)
      ensures old(faults) <= faults && (r.Ok? ==> faults == old(faults) && r.value.Activated?)
      ensures limits == NO_LIMITS ==> Explained(t, bundle, before, capacity, r, faults, fs)
      ensures Planned(plan, r, slot, faults, fs)
      ensures r.Err? ==> Late(r.error)
    {
      ghost var staged := fs;
      var e := Activate(slot, t, bundle);
      r := Answer(slot, e);
      EndedAfterStaging(t, bundle, before, staged, r, fs);
      if limits == NO_LIMITS {
        ActivationExplained(t, bundle, before, staged, capacity, e, faults, fs);
      }
    }

    /** Install a bundle.

        Wherever the run stops, what is on disk is exactly what its result
        says (Ended). Without limits, an aimed bundle has its fate (Fate):
        refused for want of room or for an entry that is no directory;
        published but not selected for want of a block for the selector; or
        activated. Any other answer names a step that failed. */
    method Install(t: Trust, bundle: Files, limits: Limits) returns (r: Result<Outcome, Error>)
      requires Valid()
      modifies this
      ensures Valid() && Ended(t, bundle, old(fs), r, fs)
      ensures faults == {} && Running(t, bundle, old(fs)) ==> r.Ok? && r.value.Unchanged?
      ensures faults == {} && limits == NO_LIMITS ==>
        (r.Ok? && r.value.Activated? <==> WillActivate(t, bundle, old(fs), capacity))
      ensures limits == NO_LIMITS && Aimed(t, bundle, old(fs)) ==> Fate(t, bundle, old(fs), capacity, r, faults)
      ensures limits == NO_LIMITS && Accepts(t, bundle) ==> Handled(t, bundle, old(fs), capacity, r, fs)
      ensures Planned(plan, r, Inactive(old(fs)), faults, fs)
      ensures r.Ok? && r.value.Unchanged? ==> fs == old(fs) && HasSet(t, bundle, old(fs), r.value.slot)
      ensures faults == {} ==>
        var early := EarlyAnswer(t, bundle, old(fs));
        if early.Some? then r == early.value && fs == old(fs) else !Early(r)
      ensures Accepts(t, bundle) && !(r.Ok? && r.value.Unchanged?) ==>
        StopsAfter(limits.failAfterFiles, |ManifestOf(t, bundle).files|, if r.Err? then Some(r.error) else None)
    {
      faults := {};
      var answer, decided := Decide(t, bundle);
      if decided.None? {
        return answer;
      }
      r := CarryOut(t, bundle, decided.value, limits);
      if limits == NO_LIMITS {
        RefusedUnlessItFits(t, bundle, Inactive(old(fs)), old(fs), capacity);
      }
    }
  }
}
