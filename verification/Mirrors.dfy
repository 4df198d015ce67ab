/** One request over several boot roots (nmbl-boot-update/src/protocol.rs). */
module Mirrors {
  import opened Basics
  import opened BootBundles
  import opened BootFiles
  import opened BootInstalls
  import opened BootRuns

  /** The roots complete the request, or are about to: the set runs already or
      a fault-free install activates it. */
  ghost predicate Serves(t: Trust, bundle: Files, fs: Fs, capacity: nat) {
    Physical(fs, capacity) && (Running(t, bundle, fs) || WillActivate(t, bundle, fs, capacity))
  }

  /** A root that has taken the request with this outcome, told from its state
      before. */
  ghost predicate Took(t: Trust, bundle: Files, root: BootRoot, before: Fs, outcome: Outcome)
    reads root
  {
    root.Valid() && Taken(t, bundle, before, root.capacity, root.faults == {}, outcome, root.fs)
  }

  /** An install answered with an outcome; clean when no call failed. */
  ghost predicate Taken(t: Trust, bundle: Files, before: Fs, capacity: nat, clean: bool, outcome: Outcome, after: Fs) {
    && Running(t, bundle, after) && Ended(t, bundle, before, Ok(outcome), after)
    && (clean ==> Serves(t, bundle, before, capacity))
  }

  ghost predicate Succeeded(t: Trust, bundle: Files, before: Fs, after: Fs) {
    exists outcome :: Ended(t, bundle, before, Ok(outcome), after)
  }

  /** A root on which the request stopped with this error. */
  ghost predicate Stopped(t: Trust, bundle: Files, root: BootRoot, before: Fs, e: Error)
    reads root
  {
    && root.Valid() && Ended(t, bundle, before, Err(e), root.fs)
    && (root.faults == {} ==> !Serves(t, bundle, before, root.capacity))
  }

  method InstallOne(t: Trust, bundle: Files, root: BootRoot) returns (r: Result<Outcome, Error>)
    requires root.Valid()
    modifies root
    ensures if r.Ok? then Took(t, bundle, root, old(root.fs), r.value)
            else Stopped(t, bundle, root, old(root.fs), r.error)
  {
    r := root.Install(t, bundle, NO_LIMITS);
    if r.Ok? && r.value.Activated? {
      PublishedRuns(t, bundle, r.value.slot, root.fs);
    }
  }

  /** The first roots took the request, with these outcomes. */
  ghost predicate TookSoFar(t: Trust, bundle: Files, roots: seq<BootRoot>, was: seq<Fs>, outcomes: seq<Outcome>)
    requires |outcomes| <= |roots| == |was|
    reads roots
  {
    forall i :: 0 <= i < |outcomes| ==> Took(t, bundle, roots[i], was[i], outcomes[i])
  }

  /** The roots from one on are as they were. */
  ghost predicate Untouched(roots: seq<BootRoot>, was: seq<Fs>, from: nat)
    requires |roots| == |was|
    reads roots
  {
    forall i :: from <= i < |roots| ==> roots[i].Valid() && roots[i].fs == was[i]
  }

  ghost function States(roots: seq<BootRoot>): (was: seq<Fs>)
    reads roots
    ensures |was| == |roots| && forall i :: 0 <= i < |roots| ==> was[i] == roots[i].fs
  {
    seq(|roots|, i requires 0 <= i < |roots| reads roots => roots[i].fs)
  }

  /** Install on the next root. */
  method InstallNext(t: Trust, bundle: Files, roots: seq<BootRoot>, ghost was: seq<Fs>, outcomes: seq<Outcome>)
    returns (r: Result<Outcome, Error>)
    requires Distinct(roots) && |outcomes| < |roots| == |was|
    requires TookSoFar(t, bundle, roots, was, outcomes) && Untouched(roots, was, |outcomes|)
    modifies roots[|outcomes|]
    ensures Untouched(roots, was, |outcomes| + 1)
    ensures if r.Ok? then TookSoFar(t, bundle, roots, was, outcomes + [r.value])
            else TookSoFar(t, bundle, roots, was, outcomes)
                 && Stopped(t, bundle, roots[|outcomes|], was[|outcomes|], r.error)
  {
    var root := roots[|outcomes|];
    assert forall j :: 0 <= j < |roots| && j != |outcomes| ==> roots[j] != root;
    r := InstallOne(t, bundle, root);
  }

  /** Install on one root after the other and stop at the first error: the
      roots before it run the set, each with its own outcome, the failing root
      is where an install with that error stops, the later roots are untouched.
      Without faults the request succeeds exactly when every root runs the set
      already or can take it. */
  method InstallAll(t: Trust, bundle: Files, roots: seq<BootRoot>)
    returns (outcomes: seq<Outcome>, error: Option<Error>)
    requires Distinct(roots) && forall i :: 0 <= i < |roots| ==> roots[i].Valid()
    modifies roots
    ensures |outcomes| <= |roots|
    ensures error.None? <==> roots != [] && |outcomes| == |roots|
    ensures forall i :: 0 <= i < |outcomes| ==> Took(t, bundle, roots[i], old(roots[i].fs), outcomes[i])
    ensures |outcomes| < |roots| ==>
      error.Some? && Stopped(t, bundle, roots[|outcomes|], old(roots[|outcomes|].fs), error.value)
    ensures forall i :: |outcomes| < i < |roots| ==> roots[i].Valid() && roots[i].fs == old(roots[i].fs)
  {
    outcomes, error := [], None;
    if roots == [] {
      error := Some(InvalidBundle);
      return;
    }
    ghost var was := States(roots);
    for i := 0 to |roots|
      invariant |outcomes| == i
      invariant TookSoFar(t, bundle, roots, was, outcomes) && Untouched(roots, was, i)
    {
      var r := InstallNext(t, bundle, roots, was, outcomes);
      if r.Err? {
        error := Some(r.error);
        return;
      }
      outcomes := outcomes + [r.value];
    }
  }

  /** Wherever the request stops: every root that was safe and settled boots
      after any power cut, with its old set or with the new one, complete. */
  method InstallAllKeepsBooting(t: Trust, bundle: Files, roots: seq<BootRoot>)
    returns (outcomes: seq<Outcome>, error: Option<Error>)
    requires Distinct(roots) && forall i :: 0 <= i < |roots| ==> roots[i].Valid()
    requires forall i :: 0 <= i < |roots| ==>
      Safe(t, roots[i].fs) && roots[i].fs.durable == {roots[i].fs.active}
    modifies roots
    ensures forall i :: 0 <= i < |roots| ==> Boots(t, bundle, old(roots[i].fs), roots[i].fs, roots[i].capacity)
  {
    outcomes, error := InstallAll(t, bundle, roots);
    forall i | 0 <= i < |roots|
      ensures Boots(t, bundle, old(roots[i].fs), roots[i].fs, roots[i].capacity)
    {
      InstalledBoots(t, bundle, old(roots[i].fs), roots[i].fs, roots[i].capacity);
    }
  }

  /** Every power cut leaves the old set or the new one selected, and it
      boots. */
  ghost predicate Boots(t: Trust, bundle: Files, before: Fs, after: Fs, capacity: nat) {
    && Safe(t, after)
    && forall image :: CrashImage(after, capacity, image) ==>
         Bootable(t, image) && OldOrNew(t, bundle, before, image)
  }

  lemma InstalledBoots(t: Trust, bundle: Files, before: Fs, after: Fs, capacity: nat)
    requires Safe(t, before) && before.durable == {before.active} && Physical(after, capacity)
    requires Installed(t, bundle, before, after) || after == before
    ensures Boots(t, bundle, before, after, capacity)
  {
    SettledIsUndisputed(before);
    assert Ended(t, bundle, before, Err(InvalidBundle), before);
    var r :| Ended(t, bundle, before, r, after);
    StoppedIsSafeIff(t, bundle, before, r, after);
    SafeMeansEveryCrashBoots(t, after, capacity);
    forall image | CrashImage(after, capacity, image) ensures OldOrNew(t, bundle, before, image) {
      CrashShowsOldOrNew(t, bundle, before, r, after, capacity, image);
    }
  }

  lemma SettledIsUndisputed(fs: Fs)
    requires fs.durable == {fs.active}
    ensures Undisputed(fs)
  {
  }

  /** What one root has been through: the directories the requests found there
      and how each left it. A request that stopped at an earlier root left this
      one as it was. */
  datatype Past = Past(capacity: nat, found: seq<Fs>, stopped: seq<Fs>)

  ghost predicate Repeated(t: Trust, bundle: Files, past: Past) {
    && Attempts(t, bundle, past.capacity, past.found, past.stopped)
    && Safe(t, past.found[0]) && past.found[0].durable == {past.found[0].active}
    && Physical(past.found[0], past.capacity) && Aimed(t, bundle, past.found[0])
  }

  /** The root runs the set or still has its old selector, and the next
      request is served exactly when it runs the set or has room for it. */
  ghost predicate Served(t: Trust, bundle: Files, past: Past) {
    && Accepts(t, bundle) && |past.found| == |past.stopped| + 1
    && var before, last := past.found[0], past.found[|past.stopped|];
    && Converged(t, bundle, past.capacity, before, last)
    && (Serves(t, bundle, last, past.capacity)
        <==> last.active == Some(Selector(Inactive(before))) || RoomFor(t, bundle, last, past.capacity))
  }

  lemma RootIsServed(t: Trust, bundle: Files, past: Past)
    requires Repeated(t, bundle, past)
    ensures Served(t, bundle, past)
  {
    RetriesConverge(t, bundle, past.capacity, past.found, past.stopped);
    ConvergedIsServed(t, bundle, past.capacity, past.found[0], past.found[|past.stopped|]);
  }

  lemma ConvergedIsServed(t: Trust, bundle: Files, capacity: nat, before: Fs, last: Fs)
    requires Accepts(t, bundle) && Converged(t, bundle, capacity, before, last)
    ensures Serves(t, bundle, last, capacity)
      <==> last.active == Some(Selector(Inactive(before))) || RoomFor(t, bundle, last, capacity)
  {
  }

  /** A request can be repeated any number of times, with any stops and power
      cuts between: when its slot was inactive everywhere at first, each root
      now runs the set or still has its old selector, and takes the set exactly
      when there is room on that root. */
  lemma RepeatServesEveryRoot(t: Trust, bundle: Files, pasts: seq<Past>)
    requires forall i :: 0 <= i < |pasts| ==> Repeated(t, bundle, pasts[i])
    ensures forall i :: 0 <= i < |pasts| ==> Served(t, bundle, pasts[i])
  {
    forall i | 0 <= i < |pasts| ensures Served(t, bundle, pasts[i]) {
      RootIsServed(t, bundle, pasts[i]);
    }
  }

  /** What a root needs to take the request in the end. */
  ghost predicate CanFinish(t: Trust, bundle: Files, past: Past) {
    && Repeated(t, bundle, past)
    && var last := past.found[|past.stopped|];
    && Physical(last, past.capacity)
    && (last.active == Some(Selector(Inactive(past.found[0]))) || RoomFor(t, bundle, last, past.capacity))
  }

  /** So once there is room everywhere, one more request without faults ends
      with the same set selected on every root, whatever stops and power cuts
      the earlier requests met on each. */
  method FinishEveryRoot(t: Trust, bundle: Files, roots: seq<BootRoot>, ghost pasts: seq<Past>)
    returns (outcomes: seq<Outcome>, error: Option<Error>)
    requires Distinct(roots) && roots != [] && |pasts| == |roots|
    requires forall i :: 0 <= i < |roots| ==> roots[i].Valid() && roots[i].plan.Never?
    requires forall i :: 0 <= i < |roots| ==>
      CanFinish(t, bundle, pasts[i]) && IsLast(pasts[i], roots[i].capacity, roots[i].fs)
    modifies roots
    ensures error.None? && |outcomes| == |roots|
    ensures forall i :: 0 <= i < |roots| ==> Finishes(t, bundle, pasts[i], roots[i].fs)
  {
    outcomes, error := InstallAll(t, bundle, roots);
    if |outcomes| < |roots| {
      LastServes(t, bundle, pasts[|outcomes|]);
    }
    forall i | 0 <= i < |roots|
      ensures Finishes(t, bundle, pasts[i], roots[i].fs)
    {
      TookFinishes(t, bundle, pasts[i], roots[i].fs);
    }
  }

  /** The bundle's set, and nothing else, is selected in the slot that was
      inactive at first. */
  ghost predicate Finishes(t: Trust, bundle: Files, past: Past, fs: Fs) {
    past.found != [] && Finished(t, bundle, Inactive(past.found[0]), fs)
  }

  ghost predicate IsLast(past: Past, capacity: nat, fs: Fs) {
    && |past.found| == |past.stopped| + 1
    && past.capacity == capacity && past.found[|past.stopped|] == fs
  }

  lemma LastServes(t: Trust, bundle: Files, past: Past)
    requires CanFinish(t, bundle, past)
    ensures Serves(t, bundle, past.found[|past.stopped|], past.capacity)
  {
    RootIsServed(t, bundle, past);
  }

  lemma TookFinishes(t: Trust, bundle: Files, past: Past, after: Fs)
    requires Repeated(t, bundle, past) && Succeeded(t, bundle, past.found[|past.stopped|], after)
    ensures Finished(t, bundle, Inactive(past.found[0]), after)
  {
    var before, last := past.found[0], past.found[|past.stopped|];
    var outcome :| Ended(t, bundle, last, Ok(outcome), after);
    RetriesConverge(t, bundle, past.capacity, past.found, past.stopped);
    SameSelectorSameTarget(before, last);
    FirstFinishes(t, bundle, past.capacity, before, last, Ok(outcome), after);
  }

  lemma SameSelectorSameTarget(before: Fs, last: Fs)
    ensures last.active == before.active ==> Inactive(last) == Inactive(before)
  {
  }
}
