/** What the installer keeps over whole runs of installs and power cuts. */
module BootRuns {
  import opened Basics
  import opened BootBundles
  import opened BootFiles
  import opened BootInstalls

  // ---------------------------------------------------------------------
  // Safety of one install

  /** No selector value that a power cut could bring back names the slot the
      next install will rewrite. */
  ghost predicate Undisputed(fs: Fs) {
    forall v :: v in fs.durable ==> Named(v) != Some(Inactive(fs))
  }

  /** The target of an install is as it was, or whole on disk. */
  predicate Spared(before: Fs, after: Fs) {
    var target := Live(Inactive(before));
    after.At(target) == before.At(target) || Solid(after.At(target))
  }

  /** An install ends unpublished or reaches its selector. */
  lemma Shape(t: Trust, bundle: Files, before: Fs, r: Result<Outcome, Error>, after: Fs)
    requires Ended(t, bundle, before, r, after)
    ensures if Publishes(r) then Switched(t, bundle, before, after) else Unpublished(t, bundle, before, after)
  {
    if Publishes(r) {
      ShapeOfPublished(t, bundle, before, r, after);
    }
  }

  lemma ShapeOfPublished(t: Trust, bundle: Files, before: Fs, r: Result<Outcome, Error>, after: Fs)
    requires Publishes(r) && Ended(t, bundle, before, r, after)
    ensures Switched(t, bundle, before, after)
  {
    var e := if r.Ok? then None else Some(r.error);
    assert Reached(t, bundle, before, after) && Selecting(Inactive(before), before.active, e, after);
    OldIsNotNew(before);
  }

  lemma OldIsNotNew(fs: Fs)
    requires Readable(fs)
    ensures fs.active != Some(Selector(Inactive(fs)))
  {
    assert Named(Some(Selector(Inactive(fs)))) == Some(Inactive(fs));
  }

  /** Nothing changed, or nothing beyond the target and its stage. */
  ghost predicate Unpublished(t: Trust, bundle: Files, before: Fs, after: Fs) {
    after == before || (Ready(t, bundle, before) && Confined(before, after, Inactive(before)))
  }

  /** The set is published, and the selector is the old or the new one. */
  ghost predicate Switched(t: Trust, bundle: Files, before: Fs, after: Fs) {
    var switched := Some(Selector(Inactive(before)));
    && Reached(t, bundle, before, after)
    && after.active in {before.active, switched} && after.durable <= {before.active, switched}
    && (after.active == before.active ==> after.durable == {before.active})
    && after.active in after.durable
  }

  /** An install from a safe directory, stopped anywhere, is safe exactly when
      the selector was undisputed or the run has not taken its target apart. */
  lemma StoppedIsSafeIff(t: Trust, bundle: Files, before: Fs, r: Result<Outcome, Error>, after: Fs)
    requires Safe(t, before) && before.active in before.durable && Ended(t, bundle, before, r, after)
    ensures Safe(t, after) <==> Undisputed(before) || Spared(before, after)
  {
    Shape(t, bundle, before, r, after);
    if Publishes(r) {
      SwitchedIsSafe(t, bundle, before, after);
    } else {
      UnpublishedIsSafeIff(t, before, after);
    }
  }

  lemma SwitchedIsSafe(t: Trust, bundle: Files, before: Fs, after: Fs)
    requires Safe(t, before) && before.active in before.durable && Switched(t, bundle, before, after)
    ensures Safe(t, after) && Spared(before, after)
  {
    NewIsBacked(t, bundle, Inactive(before), after);
    OldIsKept(t, bundle, before, after);
  }

  lemma NewIsBacked(t: Trust, bundle: Files, slot: Slot, fs: Fs)
    requires Published(t, bundle, slot, fs)
    ensures Solid(fs.At(Live(slot))) && Backing(t, fs, Some(Selector(slot)))
  {
    StagedSetAccepts(t, bundle);
    assert Named(Some(Selector(slot))) == Some(slot);
  }

  lemma OldIsKept(t: Trust, bundle: Files, before: Fs, after: Fs)
    requires Backing(t, before, before.active) && Reached(t, bundle, before, after)
    ensures Backing(t, after, before.active) && SelectedKept(before, after)
  {
    assert before.active.Some? ==> Named(before.active) == Some(Inactive(before).Other());
  }

  /** The slot the old selector names is as it was. */
  ghost predicate SelectedKept(before: Fs, after: Fs) {
    forall s :: Named(before.active) == Some(s) ==> after.At(Live(s)) == before.At(Live(s))
  }

  lemma UnpublishedIsSafeIff(t: Trust, before: Fs, after: Fs)
    requires Safe(t, before) && (after == before || Confined(before, after, Inactive(before)))
    ensures Safe(t, after) <==> Undisputed(before) || Spared(before, after)
  {
    var mine := Inactive(before);
    forall v | v in before.durable
      ensures Backing(t, after, v) <==> Named(v) != Some(mine) || Spared(before, after)
    {
      assert Backing(t, before, v);
      if v.Some? && Named(v) != Some(mine) {
        assert Named(v) == Some(mine.Other());
      }
    }
  }

  /** A power cut leaves a settled directory, and a safe one when it was safe. */
  lemma CrashKeepsSafe(t: Trust, fs: Fs, capacity: nat, image: Fs)
    requires Safe(t, fs) && Physical(fs, capacity) && CrashImage(fs, capacity, image)
    ensures Safe(t, image) && Physical(image, capacity) && Undisputed(image)
  {
    var v :| v in fs.durable && FileImage(v, image.active);
    assert Backing(t, fs, v);
    if v.Some? {
      assert CellImage(fs.At(Live(Named(v).value)), image.At(Live(Named(v).value)));
      assert Named(image.active) == Named(v);
    }
  }

  /** A power cut during an install shows the old selector with the slot it
      names unchanged, or the new selector with the complete new slot. */
  lemma CrashShowsOldOrNew(t: Trust, bundle: Files, before: Fs, r: Result<Outcome, Error>, stopped: Fs,
                           capacity: nat, image: Fs)
    requires Safe(t, before) && before.durable == {before.active}
    requires Ended(t, bundle, before, r, stopped) && CrashImage(stopped, capacity, image)
    ensures OldOrNew(t, bundle, before, image)
  {
    assert Backing(t, before, before.active);
    var v :| v in stopped.durable && FileImage(v, image.active);
    if v != before.active {
      OtherValueIsNew(t, bundle, before, r, stopped, v);
      PublishedThroughCut(t, bundle, Inactive(before), stopped, capacity, image);
    } else {
      StoppedKeepsSelected(t, bundle, before, r, stopped);
      KeptThroughCut(t, before, stopped, capacity, image);
    }
  }

  lemma OtherValueIsNew(t: Trust, bundle: Files, before: Fs, r: Result<Outcome, Error>, stopped: Fs, v: Option<File>)
    requires before.durable == {before.active} && Ended(t, bundle, before, r, stopped)
    requires v in stopped.durable && v != before.active
    ensures v == Some(Selector(Inactive(before))) && Published(t, bundle, Inactive(before), stopped)
  {
    Shape(t, bundle, before, r, stopped);
  }

  ghost predicate OldOrNew(t: Trust, bundle: Files, before: Fs, image: Fs) {
    || (image.active == before.active && SelectedKept(before, image))
    || (image.active == Some(Selector(Inactive(before))) && Published(t, bundle, Inactive(before), image))
  }

  lemma StoppedKeepsSelected(t: Trust, bundle: Files, before: Fs, r: Result<Outcome, Error>, stopped: Fs)
    requires Backing(t, before, before.active) && Ended(t, bundle, before, r, stopped)
    ensures SelectedKept(before, stopped)
  {
    Shape(t, bundle, before, r, stopped);
    if Publishes(r) {
      OldIsKept(t, bundle, before, stopped);
    }
  }

  lemma KeptThroughCut(t: Trust, before: Fs, stopped: Fs, capacity: nat, image: Fs)
    requires Backing(t, before, before.active) && SelectedKept(before, stopped)
    requires CrashImage(stopped, capacity, image)
    ensures SelectedKept(before, image)
  {
    forall s | Named(before.active) == Some(s) ensures image.At(Live(s)) == before.At(Live(s)) {
      assert CellImage(stopped.At(Live(s)), image.At(Live(s)));
    }
  }

  // ---------------------------------------------------------------------
  // Whole runs, told from the steps

  /** A power cut, or an install of a bundle that found a selector or none and
      had this result. */
  datatype Report = PowerCut | Answered(bundle: Files, selected: bool, result: Result<Outcome, Error>) {
    /** An install over an older selector failed at its final sync. */
    predicate LeavesDispute() {
      Answered? && selected && result == Err(Io(SyncSelector))
    }
  }

  ghost predicate Happened(t: Trust, capacity: nat, before: Fs, report: Report, after: Fs) {
    match report
    case PowerCut => CrashImage(before, capacity, after)
    case Answered(bundle, selected, result) =>
      && selected == before.active.Some? && Physical(after, capacity)
      && Ended(t, bundle, before, result, after)
      && (Physical(before, capacity) && Accepts(t, bundle) ==> Handled(t, bundle, before, capacity, result, after))
  }

  /** Every install without limits is such an event. */
  method Attempt(root: BootRoot, t: Trust, bundle: Files) returns (report: Report)
    requires root.Valid()
    modifies root
    ensures root.Valid() && Happened(t, root.capacity, old(root.fs), report, root.fs)
    ensures report.Answered? && report.bundle == bundle
  {
    var selected := root.fs.active.Some?;
    var r := root.Install(t, bundle, NO_LIMITS);
    report := Answered(bundle, selected, r);
  }

  /** The last of the first n reports that says anything about the selector is
      a failed final sync over an older selector. An activation, any other
      failure in writing the selector and a power cut settle it; all other
      results, Unchanged among them, leave it as it was. */
  predicate Unsettled(reports: seq<Report>, n: nat)
    requires n <= |reports|
  {
    n > 0 &&
    match reports[n - 1]
    case PowerCut => false
    case Answered(_, selected, result) =>
      if result == Err(Io(SyncSelector)) then selected
      else !Publishes(result) && Unsettled(reports, n - 1)
  }

  ghost predicate History(t: Trust, capacity: nat, run: seq<Fs>, reports: seq<Report>) {
    && |run| == |reports| + 1
    && Physical(run[0], capacity) && Safe(t, run[0]) && Undisputed(run[0])
    && forall i :: 0 <= i < |reports| ==> HappenedAt(t, capacity, run, reports, i)
  }

  ghost predicate HappenedAt(t: Trust, capacity: nat, run: seq<Fs>, reports: seq<Report>, i: nat)
    requires |run| == |reports| + 1 && i < |reports|
  {
    Happened(t, capacity, run[i], reports[i], run[i + 1])
  }

  lemma StepKeepsPhysical(t: Trust, capacity: nat, before: Fs, report: Report, after: Fs)
    requires Physical(before, capacity) && Happened(t, capacity, before, report, after)
    ensures Physical(after, capacity)
  {
  }

  /** How one result or power cut decides the dispute. */
  lemma StepSettles(t: Trust, capacity: nat, before: Fs, report: Report, after: Fs)
    requires Physical(before, capacity) && Happened(t, capacity, before, report, after)
    ensures Undisputed(after) <==>
      match report
      case PowerCut => true
      case Answered(_, selected, result) =>
        if result == Err(Io(SyncSelector)) then !selected else Publishes(result) || Undisputed(before)
  {
    if report.Answered? {
      ResultSettles(t, report.bundle, before, report.result, after);
    }
  }

  lemma ResultSettles(t: Trust, bundle: Files, before: Fs, r: Result<Outcome, Error>, after: Fs)
    requires Ended(t, bundle, before, r, after)
    ensures Undisputed(after) <==>
      if r == Err(Io(SyncSelector)) then before.active.None? else Publishes(r) || Undisputed(before)
  {
    if r == Err(Io(SyncSelector)) {
      FailedFinalSyncDisputes(t, bundle, before, after);
    } else if Publishes(r) {
      PublishingSettles(t, bundle, before, r, after);
    } else {
      Shape(t, bundle, before, r, after);
    }
  }

  /** Every other end of a publication leaves one possible value. */
  lemma PublishingSettles(t: Trust, bundle: Files, before: Fs, r: Result<Outcome, Error>, after: Fs)
    requires Ended(t, bundle, before, r, after) && Publishes(r) && r != Err(Io(SyncSelector))
    ensures after.durable == {after.active} && Undisputed(after)
  {
  }

  /** A failed final sync disputes the selector exactly when it replaced one. */
  lemma FailedFinalSyncDisputes(t: Trust, bundle: Files, before: Fs, after: Fs)
    requires Ended(t, bundle, before, Err(Io(SyncSelector)), after)
    ensures after.durable == {before.active, after.active} && after.active == Some(Selector(Inactive(before)))
    ensures !Undisputed(after) <==> before.active.Some?
  {
    var mine := Inactive(before);
    assert Named(Some(Selector(mine))) == Some(mine) && Inactive(after) == mine.Other();
    assert before.active.Some? ==> Named(before.active) == Some(mine.Other());
  }

  /** The results tell exactly when the selector is disputed. */
  lemma {:induction false} UnsettledMeansDisputed(t: Trust, capacity: nat, run: seq<Fs>, reports: seq<Report>, n: nat)
    requires History(t, capacity, run, reports) && n <= |reports|
    ensures Physical(run[n], capacity)
    ensures Unsettled(reports, n) <==> !Undisputed(run[n])
  {
    if n > 0 {
      UnsettledMeansDisputed(t, capacity, run, reports, n - 1);
      assert HappenedAt(t, capacity, run, reports, n - 1);
      StepKeepsPhysical(t, capacity, run[n - 1], reports[n - 1], run[n]);
      StepSettles(t, capacity, run[n - 1], reports[n - 1], run[n]);
    }
  }

  // ---------------------------------------------------------------------
  // Which runs are safe

  /** No install took its target apart while the selector was unsettled. */
  ghost predicate Careful(run: seq<Fs>, reports: seq<Report>, n: nat)
    requires |run| == |reports| + 1 && n <= |reports|
  {
    forall i :: 0 <= i < n ==> CarefulAt(run, reports, i)
  }

  predicate CarefulAt(run: seq<Fs>, reports: seq<Report>, i: nat)
    requires |run| == |reports| + 1 && i < |reports|
  {
    reports[i].PowerCut? || !Unsettled(reports, i) || Spared(run[i], run[i + 1])
  }

  lemma StepIsSafeIff(t: Trust, capacity: nat, before: Fs, report: Report, after: Fs)
    requires Physical(before, capacity) && Safe(t, before) && Happened(t, capacity, before, report, after)
    ensures Safe(t, after) <==> report.PowerCut? || Undisputed(before) || Spared(before, after)
  {
    match report
    case PowerCut =>
      CrashKeepsSafe(t, before, capacity, after);
    case Answered(bundle, _, result) =>
      StoppedIsSafeIff(t, bundle, before, result, after);
  }

  ghost predicate SafeUpTo(t: Trust, run: seq<Fs>, n: nat)
    requires n < |run|
  {
    forall i :: 0 <= i <= n ==> Safe(t, run[i])
  }

  /** Over any sequence of installs and power cuts, every directory passed
      through is safe exactly when the run was careful. */
  lemma {:induction false} RunIsSafeIff(t: Trust, capacity: nat, run: seq<Fs>, reports: seq<Report>, n: nat)
    requires History(t, capacity, run, reports) && n <= |reports|
    ensures SafeUpTo(t, run, n) <==> Careful(run, reports, n)
  {
    if n > 0 {
      RunIsSafeIff(t, capacity, run, reports, n - 1);
      SafeNext(t, run, n - 1);
      CarefulNext(run, reports, n - 1);
      if Safe(t, run[n - 1]) {
        NextIsSafeIff(t, capacity, run, reports, n - 1);
      }
    }
  }

  lemma SafeNext(t: Trust, run: seq<Fs>, n: nat)
    requires n + 1 < |run|
    ensures SafeUpTo(t, run, n + 1) <==> SafeUpTo(t, run, n) && Safe(t, run[n + 1])
    ensures SafeUpTo(t, run, n) ==> Safe(t, run[n])
  {
  }

  lemma NextIsSafeIff(t: Trust, capacity: nat, run: seq<Fs>, reports: seq<Report>, n: nat)
    requires History(t, capacity, run, reports) && n < |reports| && Safe(t, run[n])
    ensures Safe(t, run[n + 1]) <==> CarefulAt(run, reports, n)
  {
    UnsettledMeansDisputed(t, capacity, run, reports, n);
    assert HappenedAt(t, capacity, run, reports, n);
    StepIsSafeIff(t, capacity, run[n], reports[n], run[n + 1]);
  }

  lemma CarefulNext(run: seq<Fs>, reports: seq<Report>, n: nat)
    requires |run| == |reports| + 1 && n < |reports|
    ensures Careful(run, reports, n + 1) <==> Careful(run, reports, n) && CarefulAt(run, reports, n)
  {
  }

  /** Every power cut at every point leaves no selector, or one naming a
      complete set that passes validation. */
  ghost predicate EveryCutBoots(t: Trust, capacity: nat, run: seq<Fs>) {
    forall i, image :: 0 <= i < |run| && CrashImage(run[i], capacity, image) ==> Bootable(t, image)
  }

  /** That holds of a run exactly when it was careful. */
  lemma EveryCrashBootsIff(t: Trust, capacity: nat, run: seq<Fs>, reports: seq<Report>)
    requires History(t, capacity, run, reports)
    ensures EveryCutBoots(t, capacity, run) <==> Careful(run, reports, |reports|)
  {
    RunIsSafeIff(t, capacity, run, reports, |reports|);
    forall i | 0 <= i < |run|
      ensures Safe(t, run[i]) <==> forall image :: CrashImage(run[i], capacity, image) ==> Bootable(t, image)
    {
      UnsettledMeansDisputed(t, capacity, run, reports, i);
      SafeMeansEveryCrashBoots(t, run[i], capacity);
    }
  }

  /** What is known before an install: while the selector is unsettled, only
      bundles that cannot touch their target are tried. */
  ghost predicate Cautious(t: Trust, capacity: nat, run: seq<Fs>, reports: seq<Report>) {
    && |run| == |reports| + 1
    && forall i :: 0 <= i < |reports| && reports[i].Answered? && Unsettled(reports, i) ==>
      LeavesTarget(t, capacity, run[i], reports[i].bundle)
  }

  ghost predicate LeavesTarget(t: Trust, capacity: nat, fs: Fs, bundle: Files) {
    Physical(fs, capacity) && (Ready(t, bundle, fs) ==> !Touches(t, bundle, Inactive(fs), fs, capacity))
  }

  /** A cautious run is careful, and so is one in which no final sync over an
      older selector ever fails. */
  lemma CautionIsEnough(t: Trust, capacity: nat, run: seq<Fs>, reports: seq<Report>)
    requires History(t, capacity, run, reports)
    requires Cautious(t, capacity, run, reports) || forall i :: 0 <= i < |reports| ==> !reports[i].LeavesDispute()
    ensures EveryCutBoots(t, capacity, run)
  {
    if !Cautious(t, capacity, run, reports) {
      NeverUnsettled(reports, |reports|);
    }
    forall i | 0 <= i < |reports|
      ensures CarefulAt(run, reports, i)
    {
      assert HappenedAt(t, capacity, run, reports, i);
      if reports[i].Answered? && Unsettled(reports, i) {
        UntouchedIsSpared(t, capacity, run[i], reports[i], run[i + 1]);
      }
    }
    EveryCrashBootsIff(t, capacity, run, reports);
  }

  lemma UntouchedIsSpared(t: Trust, capacity: nat, before: Fs, report: Report, after: Fs)
    requires report.Answered? && LeavesTarget(t, capacity, before, report.bundle)
    requires Happened(t, capacity, before, report, after)
    ensures Spared(before, after)
  {
    Shape(t, report.bundle, before, report.result, after);
  }

  lemma {:induction false} NeverUnsettled(reports: seq<Report>, n: nat)
    requires n <= |reports| && forall i :: 0 <= i < n ==> !reports[i].LeavesDispute()
    ensures forall i :: 0 <= i <= n ==> !Unsettled(reports, i)
  {
    if n > 0 {
      NeverUnsettled(reports, n - 1);
      assert !reports[n - 1].LeavesDispute();
    }
  }

  // ---------------------------------------------------------------------
  // The disputed selector is really lost

  /** An install that has room for its set can fail at the renaming of its
      stage and nowhere else. */
  method OnlyTheRenameFails(t: Trust, bundle: Files, capacity: nat, before: Fs)
    returns (r: Result<Outcome, Error>, after: Fs)
    requires Physical(before, capacity) && Aimed(t, bundle, before)
    requires SetFits(t, bundle, Inactive(before), before, capacity)
    ensures r == Err(Io(Publish)) && Ended(t, bundle, before, r, after) && Physical(after, capacity)
    ensures after.At(Live(Inactive(before))).node.Absent?
  {
    RefusedUnlessItFits(t, bundle, Inactive(before), before, capacity);
    var root := new BootRoot(capacity, before, Just(Publish));
    r := root.Install(t, bundle, NO_LIMITS);
    after := root.fs;
  }

  /** An install that would activate can fail at its final sync and nowhere
      else. */
  method OnlyTheFinalSyncFails(t: Trust, bundle: Files, capacity: nat, before: Fs)
    returns (r: Result<Outcome, Error>, after: Fs)
    requires Physical(before, capacity) && WillActivate(t, bundle, before, capacity)
    ensures r == Err(Io(SyncSelector)) && Ended(t, bundle, before, r, after) && Physical(after, capacity)
    ensures Happened(t, capacity, before, Answered(bundle, before.active.Some?, r), after)
  {
    RefusedUnlessItFits(t, bundle, Inactive(before), before, capacity);
    var root := new BootRoot(capacity, before, Just(SyncSelector));
    r := root.Install(t, bundle, NO_LIMITS);
    after := root.fs;
  }

  /** With room only in the place of the target and something odd in the place
      of the stage, no call need fail: the target goes, then the stage is
      refused. */
  method OddStageCostsTheTarget(t: Trust, bundle: Files, capacity: nat, before: Fs)
    returns (r: Result<Outcome, Error>, after: Fs)
    requires Physical(before, capacity) && Aimed(t, bundle, before)
    requires var mine := Inactive(before);
      && before.At(Live(mine)).node.Dir? && before.At(Stage(mine)).node.Odd?
      && Touches(t, bundle, mine, before, capacity)
    ensures r == Err(NotPlain) && Ended(t, bundle, before, r, after) && Physical(after, capacity)
    ensures after.At(Live(Inactive(before))).node.Absent?
  {
    var root := new BootRoot(capacity, before, Never);
    r := root.Install(t, bundle, NO_LIMITS);
    after := root.fs;
  }

  /** From any safe directory with a disputed selector, an aimed install that
      touches its target can be stopped so that some power cut does not boot. */
  method DisputedInstallLosesSlot(t: Trust, bundle: Files, capacity: nat, before: Fs)
    returns (r: Result<Outcome, Error>, after: Fs)
    requires Physical(before, capacity) && Safe(t, before) && !Undisputed(before) && Aimed(t, bundle, before)
    requires Touches(t, bundle, Inactive(before), before, capacity)
    ensures Ended(t, bundle, before, r, after) && Physical(after, capacity)
    ensures r == Err(if before.At(Stage(Inactive(before))).node.Odd? then NotPlain else Io(Publish))
    ensures !Safe(t, after) && SomeCutFails(t, after, capacity)
  {
    TouchedFits(t, bundle, capacity, before);
    if before.At(Stage(Inactive(before))).node.Odd? {
      r, after := OddStageCostsTheTarget(t, bundle, capacity, before);
    } else {
      r, after := OnlyTheRenameFails(t, bundle, capacity, before);
    }
    LostTargetIsUnsafe(t, bundle, before, r, after, capacity);
  }

  /** What is touched is a whole set, with room for the new one. */
  lemma TouchedFits(t: Trust, bundle: Files, capacity: nat, before: Fs)
    requires Physical(before, capacity) && Safe(t, before) && !Undisputed(before) && Accepts(t, bundle)
    requires Touches(t, bundle, Inactive(before), before, capacity)
    ensures before.At(Live(Inactive(before))).node.Dir?
    ensures !before.At(Stage(Inactive(before))).node.Odd? ==> SetFits(t, bundle, Inactive(before), before, capacity)
  {
    TargetWasWhole(t, before);
  }

  ghost predicate SomeCutFails(t: Trust, fs: Fs, capacity: nat) {
    exists image :: CrashImage(fs, capacity, image) && !Bootable(t, image)
  }

  lemma LostTargetIsUnsafe(t: Trust, bundle: Files, before: Fs, r: Result<Outcome, Error>, after: Fs, capacity: nat)
    requires Safe(t, before) && before.active in before.durable && !Undisputed(before) && Physical(after, capacity)
    requires Ended(t, bundle, before, r, after) && after.At(Live(Inactive(before))).node.Absent?
    requires !Publishes(r)
    ensures !Safe(t, after) && SomeCutFails(t, after, capacity)
  {
    TargetWasWhole(t, before);
    Shape(t, bundle, before, r, after);
    StoppedIsSafeIff(t, bundle, before, r, after);
    SafeMeansEveryCrashBoots(t, after, capacity);
  }

  /** And one that does not touch it never is: however it stops, every power
      cut still boots. */
  method UntouchingInstallIsSafe(t: Trust, bundle: Files, root: BootRoot) returns (r: Result<Outcome, Error>)
    requires root.Valid() && Safe(t, root.fs) && LeavesTarget(t, root.capacity, root.fs, bundle)
    modifies root
    ensures root.Valid() && Ended(t, bundle, old(root.fs), r, root.fs) && Safe(t, root.fs)
    ensures forall image :: CrashImage(root.fs, root.capacity, image) ==> Bootable(t, image)
  {
    ghost var before := root.fs;
    var report := Attempt(root, t, bundle);
    r := report.result;
    UntouchedIsSpared(t, root.capacity, before, report, root.fs);
    StoppedIsSafeIff(t, bundle, before, r, root.fs);
    SafeMeansEveryCrashBoots(t, root.fs, root.capacity);
  }

  lemma TargetWasWhole(t: Trust, fs: Fs)
    requires Safe(t, fs) && !Undisputed(fs)
    ensures fs.At(Live(Inactive(fs))).node.Dir? && Solid(fs.At(Live(Inactive(fs))))
  {
    var v :| v in fs.durable && Named(v) == Some(Inactive(fs));
    assert Backing(t, fs, v);
  }

  // ---------------------------------------------------------------------
  // Retry

  /** A published and selected set is running, with exactly the bundle's files. */
  lemma PublishedRuns(t: Trust, bundle: Files, slot: Slot, fs: Fs)
    requires Published(t, bundle, slot, fs) && fs.active == Some(Selector(slot))
    ensures Running(t, bundle, fs)
    ensures Contents(fs.At(Live(slot)).node.files) == SetOf(t, bundle)
  {
    StagedSetAccepts(t, bundle);
    assert Named(fs.active) == Some(slot);
  }

  /** Where an interrupted install is found again: as it stopped, or after a
      power cut. */
  ghost predicate FoundAfter(stopped: Fs, capacity: nat, found: Fs) {
    (found == stopped && Physical(stopped, capacity)) || CrashImage(stopped, capacity, found)
  }

  /** The directories between the first attempt at a bundle and the last: the
      slot selected at first is as it was, and the selector is the old one,
      settled, or the new one over the complete new set. */
  ghost predicate Midway(t: Trust, bundle: Files, before: Fs, fs: Fs) {
    SelectedKept(before, fs) && (OldWay(before, fs) || NewWay(t, bundle, before, fs))
  }

  ghost predicate OldWay(before: Fs, fs: Fs) {
    fs.active == before.active && fs.durable == {before.active}
  }

  ghost predicate NewWay(t: Trust, bundle: Files, before: Fs, fs: Fs) {
    var mine := Inactive(before);
    && fs.active == Some(Selector(mine)) && Published(t, bundle, mine, fs)
    && fs.active in fs.durable && fs.durable <= {before.active, fs.active}
  }

  lemma AttemptStaysMidway(t: Trust, bundle: Files, before: Fs, found: Fs, r: Result<Outcome, Error>, stopped: Fs)
    requires Backing(t, before, before.active) && Accepts(t, bundle) && Targets(t, bundle, Inactive(before))
    requires Midway(t, bundle, before, found) && Ended(t, bundle, found, r, stopped)
    ensures Midway(t, bundle, before, stopped)
  {
    Shape(t, bundle, found, r, stopped);
    if OldWay(before, found) {
      assert Backing(t, found, found.active);
      if Publishes(r) {
        OldIsKept(t, bundle, found, stopped);
      }
    } else {
      assert Inactive(found) == Inactive(before).Other();
      assert !Ready(t, bundle, found);
    }
  }

  lemma CutStaysMidway(t: Trust, bundle: Files, before: Fs, stopped: Fs, capacity: nat, image: Fs)
    requires Backing(t, before, before.active)
    requires Midway(t, bundle, before, stopped) && CrashImage(stopped, capacity, image)
    ensures Midway(t, bundle, before, image)
  {
    KeptThroughCut(t, before, stopped, capacity, image);
    if OldWay(before, stopped) {
      assert FileImage(before.active, image.active);
    } else {
      PublishedThroughCut(t, bundle, Inactive(before), stopped, capacity, image);
    }
  }

  lemma PublishedThroughCut(t: Trust, bundle: Files, slot: Slot, stopped: Fs, capacity: nat, image: Fs)
    requires Published(t, bundle, slot, stopped) && CrashImage(stopped, capacity, image)
    ensures Published(t, bundle, slot, image)
  {
    NewIsBacked(t, bundle, slot, stopped);
    assert CellImage(stopped.At(Live(slot)), image.At(Live(slot)));
  }

  /** The attempts at one bundle: what each found and how it stopped. */
  ghost predicate Attempts(t: Trust, bundle: Files, capacity: nat, found: seq<Fs>, stopped: seq<Fs>) {
    && |found| == |stopped| + 1
    && forall i :: 0 <= i < |stopped| ==>
      && Physical(stopped[i], capacity) && Installed(t, bundle, found[i], stopped[i])
      && FoundAfter(stopped[i], capacity, found[i + 1])
  }

  lemma {:induction false} AttemptsStayMidway(t: Trust, bundle: Files, capacity: nat, found: seq<Fs>,
                                              stopped: seq<Fs>, n: nat)
    requires Attempts(t, bundle, capacity, found, stopped) && n <= |stopped|
    requires Accepts(t, bundle) && Targets(t, bundle, Inactive(found[0]))
    requires Backing(t, found[0], found[0].active) && found[0].durable == {found[0].active}
    requires Physical(found[0], capacity)
    ensures Midway(t, bundle, found[0], found[n]) && Physical(found[n], capacity)
  {
    if n > 0 {
      AttemptsStayMidway(t, bundle, capacity, found, stopped, n - 1);
      NextStaysMidway(t, bundle, capacity, found[0], found[n - 1], stopped[n - 1], found[n]);
    }
  }

  lemma NextStaysMidway(t: Trust, bundle: Files, capacity: nat, before: Fs, found: Fs, stopped: Fs, next: Fs)
    requires Backing(t, before, before.active) && Accepts(t, bundle) && Targets(t, bundle, Inactive(before))
    requires Midway(t, bundle, before, found) && Installed(t, bundle, found, stopped)
    requires FoundAfter(stopped, capacity, next)
    ensures Midway(t, bundle, before, next) && Physical(next, capacity)
  {
    var r :| Ended(t, bundle, found, r, stopped);
    AttemptStaysMidway(t, bundle, before, found, r, stopped);
    if CrashImage(stopped, capacity, next) {
      CutStaysMidway(t, bundle, before, stopped, capacity, next);
      var v :| v in stopped.durable && FileImage(v, next.active);
    }
  }

  /** However many attempts at a bundle were stopped or cut, the next one finds
      the set running, as Install then reports without touching anything, or
      the old selector, and then it activates the set exactly when there is
      room. */
  lemma RetriesConverge(t: Trust, bundle: Files, capacity: nat, found: seq<Fs>, stopped: seq<Fs>)
    requires Attempts(t, bundle, capacity, found, stopped)
    requires Safe(t, found[0]) && found[0].durable == {found[0].active} && Physical(found[0], capacity)
    requires Aimed(t, bundle, found[0])
    ensures Converged(t, bundle, capacity, found[0], found[|stopped|])
  {
    var before, last := found[0], found[|stopped|];
    assert Backing(t, before, before.active);
    AttemptsStayMidway(t, bundle, capacity, found, stopped, |stopped|);
    if NewWay(t, bundle, before, last) {
      PublishedRuns(t, bundle, Inactive(before), last);
    } else {
      assert Named(Some(Selector(Inactive(before)))) == Some(Inactive(before));
    }
  }

  ghost predicate Converged(t: Trust, bundle: Files, capacity: nat, before: Fs, last: Fs)
    requires Accepts(t, bundle)
  {
    var mine := Inactive(before);
    && Physical(last, capacity)
    && (|| (last.active == Some(Selector(mine)) && Running(t, bundle, last)
            && Contents(last.At(Live(mine)).node.files) == SetOf(t, bundle))
        || (last.active == before.active && last.active != Some(Selector(mine)) && !Running(t, bundle, last)
            && (WillActivate(t, bundle, last, capacity) <==> RoomFor(t, bundle, last, capacity))))
  }

  /** So two more calls without faults finish the job: with room, or with the
      set selected already, the first succeeds and a second reports the set
      unchanged, selected, with exactly the bundle's files in its slot. */
  method RetriesEndRunning(t: Trust, bundle: Files, capacity: nat, ghost found: seq<Fs>, ghost stopped: seq<Fs>,
                           now: Fs)
    returns (first: Result<Outcome, Error>, second: Result<Outcome, Error>, last: Fs)
    requires Attempts(t, bundle, capacity, found, stopped) && now == found[|stopped|]
    requires Safe(t, found[0]) && found[0].durable == {found[0].active} && Physical(found[0], capacity)
    requires Aimed(t, bundle, found[0])
    ensures Physical(now, capacity)
    ensures first.Ok? <==>
      now.active == Some(Selector(Inactive(found[0]))) || RoomFor(t, bundle, now, capacity)
    ensures first.Ok? ==> second == Ok(Unchanged(Inactive(found[0]))) && Finished(t, bundle, Inactive(found[0]), last)
  {
    ghost var before := found[0];
    RetriesConverge(t, bundle, capacity, found, stopped);
    var root := new BootRoot(capacity, now, Never);
    first := root.Install(t, bundle, NO_LIMITS);
    if first.Ok? {
      FirstFinishes(t, bundle, capacity, before, now, first, root.fs);
    }
    second := root.Install(t, bundle, NO_LIMITS);
    last := root.fs;
  }

  /** The slot is selected and runs the bundle, with exactly its files. */
  ghost predicate Finished(t: Trust, bundle: Files, slot: Slot, fs: Fs) {
    && fs.active == Some(Selector(slot)) && Running(t, bundle, fs)
    && fs.At(Live(slot)).node.Dir? && Contents(fs.At(Live(slot)).node.files) == SetOf(t, bundle)
  }

  lemma FirstFinishes(t: Trust, bundle: Files, capacity: nat, before: Fs, now: Fs,
                      r: Result<Outcome, Error>, after: Fs)
    requires Accepts(t, bundle) && Targets(t, bundle, Inactive(before))
    requires Converged(t, bundle, capacity, before, now)
    requires r.Ok? && Ended(t, bundle, now, r, after)
    requires now.active == before.active ==> Inactive(now) == Inactive(before)
    ensures Finished(t, bundle, Inactive(before), after)
  {
    var mine := Inactive(before);
    assert Named(Some(Selector(mine))) == Some(mine);
    if r.value.Activated? {
      assert Ready(t, bundle, now);
      assert Inactive(now) == mine;
      PublishedRuns(t, bundle, mine, after);
    }
  }

  // ---------------------------------------------------------------------
  // The stage preflight does not count

  /** When the target is gone and a complete stage was left behind, a repeat of
      the install has room exactly when the set would fit a second time beside
      the stage. */
  lemma LeftoverStageNeedsRoomTwice(t: Trust, bundle: Files, fs: Fs, capacity: nat)
    requires Physical(fs, capacity) && Accepts(t, bundle)
    requires fs.At(Live(Inactive(fs))).node.Absent?
    requires fs.At(Stage(Inactive(fs))).node == Dir(Synced(SetOf(t, bundle)), true)
    ensures SetFits(t, bundle, Inactive(fs), fs, capacity)
      <==> capacity >= Used(fs.With(Stage(Inactive(fs)), Cell(Absent, false))) + 2 * Need(t, bundle)
  {
    StagedSetAccepts(t, bundle);
    UsedWith(fs, Stage(Inactive(fs)), Cell(Absent, false));
  }
}
