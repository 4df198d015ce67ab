/** What a caller can tell from the program's messages and from reading the
    boot-set directory before and after each install.

    The message of a failure names the operation that failed, not the step it
    failed in. The three directory syncs share one text, and the two metadata
    files of a stage share all their texts with the selector's temporary file.
    Most runs are told nevertheless; one kind cannot be. */
module BootAnswers {
  import opened Basics
  import opened BootBundles
  import opened BootFiles
  import opened BootInstalls
  import opened BootRuns

  /** One file is made in three calls, each with a text of its own. */
  datatype Making = Creating | Writing | Syncing

  /** The texts an install can fail with, up to the operating system's reason.
      Checking stands for all texts of the bundle validation, and for those of
      rewinding a validated file. */
  datatype Message =
    | Checking | SelectorMalformed | OtherSlot | TooLittleSpace | SlotNotPlain | SlotHoldsNonFile | InjectedStop
    | ReadingActive | StattingDisk | ReadingSlot | StattingSlot | RemovingSlot | MakingStage
    | Metadata(call: Making) | Member(call: Making) | MemberChanged
    | SyncingDirectory | PublishingSlot | RemovingStale | ActivatingSet

  /** The messages an error can come with. */
  predicate Says(e: Error, m: Message) {
    match e
    case InvalidBundle => m.Checking?
    case MalformedSelector => m.SelectorMalformed?
    case WrongSlot => m.OtherSlot?
    case NoSpace => m.TooLittleSpace?
    case NotPlain => m.SlotNotPlain? || m.SlotHoldsNonFile? || m.ReadingSlot?
    case Injected => m.InjectedStop?
    case Io(at) => StepSays(at, m)
  }

  predicate StepSays(at: Step, m: Message) {
    match at
    case ReadBundle | ReadInstalled | Recheck => m.Checking?
    case ReadSelector => m.ReadingActive?
    case StatSpace => m.StattingDisk?
    case ReadTarget => m.ReadingSlot?
    case ClearTarget | ClearStage => m.StattingSlot? || m.RemovingSlot?
    case CreateStage => m.MakingStage?
    case WriteMetadata | PutSelector => m.Metadata?
    case WriteArtifact => m.Member? || m.MemberChanged? || m.Checking?
    case SyncStage | SyncSlot | SyncSelector => m.SyncingDirectory?
    case Publish => m.PublishingSlot?
    case ClearTemporary => m.RemovingStale?
    case SwapSelector => m.ActivatingSet?
  }

  /** Some text can come from both steps. */
  ghost predicate ShareText(a: Step, b: Step) {
    exists m :: StepSays(a, m) && StepSays(b, m)
  }

  /** The steps that a text does not tell apart: the three directory syncs; the
      metadata and the selector's temporary; all checks of a bundle, also while
      its members are copied; and the two removals. */
  lemma TextsOfSteps(a: Step, b: Step)
    ensures ShareText(a, b) <==>
      || a == b
      || (a in {SyncStage, SyncSlot, SyncSelector} && b in {SyncStage, SyncSlot, SyncSelector})
      || (a in {WriteMetadata, PutSelector} && b in {WriteMetadata, PutSelector})
      || (a in {ReadBundle, ReadInstalled, Recheck, WriteArtifact}
          && b in {ReadBundle, ReadInstalled, Recheck, WriteArtifact})
      || (a in {ClearTarget, ClearStage} && b in {ClearTarget, ClearStage})
  {
    var m := SomeText(a);
    assert StepSays(a, m);
    assert StepSays(b, SomeText(b));
  }

  /** One of the texts of a step. */
  function SomeText(step: Step): (m: Message)
    ensures StepSays(step, m)
  {
    match step
    case ReadBundle | ReadInstalled | Recheck | WriteArtifact => Checking
    case ReadSelector => ReadingActive
    case StatSpace => StattingDisk
    case ReadTarget => ReadingSlot
    case ClearTarget | ClearStage => RemovingSlot
    case CreateStage => MakingStage
    case WriteMetadata | PutSelector => Metadata(Creating)
    case SyncStage | SyncSlot | SyncSelector => SyncingDirectory
    case Publish => PublishingSlot
    case ClearTemporary => RemovingStale
    case SwapSelector => ActivatingSet
  }

  // ---------------------------------------------------------------------
  // What is seen

  /** A directory entry as a reader finds it. */
  datatype Item = Missing | Strange | Folder(files: Files)

  /** The directory as a reader finds it: everything but its durability. */
  datatype Look = Look(liveA: Item, liveB: Item, stageA: Item, stageB: Item,
                       active: Option<Content>, temporary: Option<Content>) {
    function Live(slot: Slot): Item {
      if slot.A? then liveA else liveB
    }

    /** The slot the selector names. */
    function Selects(): Option<Slot> {
      Named(if active.None? then None else Some(File(active.value, true)))
    }

    /** The slot an install writes. */
    function Target(): Slot {
      if Selects() == Some(A) then B else A
    }
  }

  function ItemOf(node: Node): Item {
    match node
    case Absent => Missing
    case Odd => Strange
    case Dir(files, _) => Folder(Contents(files))
  }

  function BytesOf(file: Option<File>): Option<Content> {
    if file.None? then None else Some(file.value.bytes)
  }

  function LookAt(fs: Fs): (look: Look)
    ensures look.Selects() == Named(fs.active) && look.Target() == Inactive(fs)
    ensures forall slot :: look.Live(slot) == ItemOf(fs.At(Live(slot)).node)
  {
    Look(ItemOf(fs.liveA.node), ItemOf(fs.liveB.node), ItemOf(fs.stageA.node), ItemOf(fs.stageB.node),
         BytesOf(fs.active), BytesOf(fs.temporary))
  }

  /** What a caller gets to see of one report: the directory before and after,
      the bundle and the answer. */
  datatype View =
    | Rebooted(now: Look)
    | Saw(was: Look, bundle: Files, answer: Result<Outcome, Message>, now: Look)

  predicate Tells(r: Result<Outcome, Error>, answer: Result<Outcome, Message>) {
    match r
    case Ok(outcome) => answer == Ok(outcome)
    case Err(e) => answer.Err? && Says(e, answer.error)
  }

  predicate Shown(before: Fs, report: Report, after: Fs, view: View) {
    match report
    case PowerCut => view == Rebooted(LookAt(after))
    case Answered(bundle, _, result) =>
      && view.Saw? && view.was == LookAt(before) && view.bundle == bundle && view.now == LookAt(after)
      && Tells(result, view.answer)
  }

  ghost predicate Watched(run: seq<Fs>, reports: seq<Report>, views: seq<View>) {
    && |run| == |reports| + 1 && |views| == |reports|
    && forall i :: 0 <= i < |views| ==> Shown(run[i], reports[i], run[i + 1], views[i])
  }

  // ---------------------------------------------------------------------
  // The test

  datatype Knowledge = Settled | Disputed | Unknown

  /** The slot that install was aimed at shows exactly the bundle's set. */
  ghost predicate Holds(t: Trust, bundle: Files, look: Look, slot: Slot) {
    Accepts(t, bundle) && look.Live(slot) == Folder(SetOf(t, bundle))
  }

  /** A metadata text over a target that showed the set before and shows it
      now. */
  ghost predicate Unclear(t: Trust, view: View) {
    && view.Saw? && view.answer.Err? && view.answer.error.Metadata?
    && Holds(t, view.bundle, view.was, view.was.Target()) && Holds(t, view.bundle, view.now, view.was.Target())
  }

  /** What is known of the selector after one more report: an activation and a
      power cut settle it, and a failure is weighed. */
  ghost function Judge(t: Trust, known: Knowledge, view: View): Knowledge {
    match view
    case Rebooted(_) => Settled
    case Saw(was, bundle, Ok(outcome), now) => if outcome.Activated? then Settled else known
    case Saw(was, bundle, Err(message), now) =>
      Weighed(known, message, was.active.Some?, now.Selects() != was.Selects(),
              Holds(t, bundle, was, was.Target()), Holds(t, bundle, now, was.Target()))
  }

  /** A failed directory sync disputes the selector when it has changed from an
      older one. A metadata text settles it when the target came to hold the
      set, and says nothing when it does not hold it; when it held the set all
      along it may or may not have settled it. */
  function Weighed(known: Knowledge, m: Message, older: bool, changed: bool, held: bool, holds: bool): Knowledge {
    if m.RemovingStale? || m.ActivatingSet? then Settled
    else if m.SyncingDirectory? && changed then
      if older then Disputed else Settled
    else if m.Metadata? && holds then
      if held && !known.Settled? then Unknown else Settled
    else known
  }

  /** What is known after the first n views, from a settled start. */
  ghost function Judged(t: Trust, views: seq<View>, n: nat): Knowledge
    requires n <= |views|
  {
    if n == 0 then Settled else Judge(t, Judged(t, views, n - 1), views[n - 1])
  }

  /** Knowledge that is true of a selector, undisputed or not. */
  predicate True(known: Knowledge, undisputed: bool) {
    (known.Settled? ==> undisputed) && (known.Disputed? ==> !undisputed)
  }

  // ---------------------------------------------------------------------
  // The test is sound

  /** Among the directory syncs, the final one failed exactly when the selector
      names another slot than before. */
  lemma FinalSyncShowsInTheSelector(t: Trust, bundle: Files, before: Fs, at: Step, after: Fs)
    requires Ended(t, bundle, before, Err(Io(at)), after) && StepSays(at, SyncingDirectory)
    ensures at.SyncSelector? <==> Named(after.active) != Named(before.active)
  {
    if at.SyncSelector? {
      assert Named(Some(Selector(Inactive(before)))) == Some(Inactive(before));
    }
  }

  /** A metadata text comes from the selector exactly when the target holds the
      set, unless it held it before. */
  lemma MetadataShowsInTheTarget(t: Trust, bundle: Files, before: Fs, at: Step, after: Fs)
    requires Ended(t, bundle, before, Err(Io(at)), after) && at in {WriteMetadata, PutSelector}
    ensures at.PutSelector? ==> Holds(t, bundle, LookAt(after), Inactive(before))
    ensures at.WriteMetadata? && Holds(t, bundle, LookAt(after), Inactive(before)) ==>
      Holds(t, bundle, LookAt(before), Inactive(before))
  {
  }

  /** What a failure does to the dispute. */
  predicate Leaves(e: Error, older: bool, undisputed: bool) {
    if e == Io(SyncSelector) then !older else (e.Io? && Selects(e.at)) || undisputed
  }

  lemma WeighedIsTrue(e: Error, m: Message, known: Knowledge, older: bool, undisputed: bool,
                      changed: bool, held: bool, holds: bool)
    requires Says(e, m) && True(known, undisputed)
    requires e.Io? && StepSays(e.at, SyncingDirectory) ==> (e.at.SyncSelector? <==> changed)
    requires e == Io(PutSelector) ==> holds
    requires e == Io(WriteMetadata) && holds ==> held
    ensures True(Weighed(known, m, older, changed, held, holds), Leaves(e, older, undisputed))
  {
  }

  /** What a failure shows in the directory. */
  ghost predicate Showing(t: Trust, bundle: Files, was: Look, e: Error, now: Look) {
    && (e.Io? && StepSays(e.at, SyncingDirectory) ==> (e.at.SyncSelector? <==> now.Selects() != was.Selects()))
    && (e == Io(PutSelector) ==> Holds(t, bundle, now, was.Target()))
    && (e == Io(WriteMetadata) && Holds(t, bundle, now, was.Target()) ==> Holds(t, bundle, was, was.Target()))
  }

  lemma FailureShows(t: Trust, bundle: Files, before: Fs, e: Error, after: Fs)
    requires Ended(t, bundle, before, Err(e), after)
    ensures Showing(t, bundle, LookAt(before), e, LookAt(after))
  {
    if e.Io? && StepSays(e.at, SyncingDirectory) {
      FinalSyncShowsInTheSelector(t, bundle, before, e.at, after);
    } else if e == Io(WriteMetadata) || e == Io(PutSelector) {
      MetadataShowsInTheTarget(t, bundle, before, e.at, after);
    }
  }

  lemma FailureIsJudged(t: Trust, bundle: Files, was: Look, e: Error, now: Look, m: Message, known: Knowledge,
                        undisputed: bool)
    requires Showing(t, bundle, was, e, now) && Says(e, m) && True(known, undisputed)
    ensures True(Judge(t, known, Saw(was, bundle, Err(m), now)), Leaves(e, was.active.Some?, undisputed))
  {
    WeighedIsTrue(e, m, known, was.active.Some?, undisputed, now.Selects() != was.Selects(),
                  Holds(t, bundle, was, was.Target()), Holds(t, bundle, now, was.Target()));
  }

  lemma JudgeIsTrue(t: Trust, capacity: nat, before: Fs, report: Report, after: Fs, view: View, known: Knowledge)
    requires Physical(before, capacity) && Happened(t, capacity, before, report, after)
    requires Shown(before, report, after, view) && True(known, Undisputed(before))
    ensures True(Judge(t, known, view), Undisputed(after))
  {
    StepSettles(t, capacity, before, report, after);
    if report.Answered? && report.result.Err? {
      FailureShows(t, report.bundle, before, report.result.error, after);
      FailureIsJudged(t, report.bundle, view.was, report.result.error, view.now, view.answer.error, known,
                      Undisputed(before));
    }
  }

  /** A view that leaves the matter open was unclear, or it was open before. */
  lemma OnlyUnclearViewsHide(t: Trust, known: Knowledge, view: View)
    ensures Judge(t, known, view).Unknown? ==> known.Unknown? || Unclear(t, view)
  {
  }

  /** Over any run: what the views say is true, and they leave the matter open
      only after an unclear one. */
  lemma {:induction false} WhatIsJudgedIsTrue(t: Trust, capacity: nat, run: seq<Fs>, reports: seq<Report>,
                                              views: seq<View>, n: nat)
    requires History(t, capacity, run, reports) && Watched(run, reports, views) && n <= |views|
    ensures True(Judged(t, views, n), Undisputed(run[n]))
    ensures (forall i :: 0 <= i < n ==> !Unclear(t, views[i])) ==> !Judged(t, views, n).Unknown?
  {
    if n > 0 {
      WhatIsJudgedIsTrue(t, capacity, run, reports, views, n - 1);
      UnsettledMeansDisputed(t, capacity, run, reports, n - 1);
      assert HappenedAt(t, capacity, run, reports, n - 1);
      JudgeIsTrue(t, capacity, run[n - 1], reports[n - 1], run[n], views[n - 1], Judged(t, views, n - 1));
      OnlyUnclearViewsHide(t, Judged(t, views, n - 1), views[n - 1]);
    }
  }

  /** So a run without unclear views is told exactly. */
  lemma {:induction false} ClearViewsTellAll(t: Trust, capacity: nat, run: seq<Fs>, reports: seq<Report>,
                                             views: seq<View>)
    requires History(t, capacity, run, reports) && Watched(run, reports, views)
    requires forall i :: 0 <= i < |views| ==> !Unclear(t, views[i])
    ensures Undisputed(run[|views|]) <==> Judged(t, views, |views|).Settled?
  {
    WhatIsJudgedIsTrue(t, capacity, run, reports, views, |views|);
  }

  /** A caller who installs only what cannot touch its target, unless the views
      say the selector is settled, never loses the machine. */
  lemma {:induction false} PrudenceIsEnough(t: Trust, capacity: nat, run: seq<Fs>, reports: seq<Report>,
                                            views: seq<View>)
    requires History(t, capacity, run, reports) && Watched(run, reports, views)
    requires forall i :: 0 <= i < |reports| && reports[i].Answered? ==>
      Judged(t, views, i).Settled? || LeavesTarget(t, capacity, run[i], reports[i].bundle)
    ensures EveryCutBoots(t, capacity, run)
  {
    forall i | 0 <= i < |reports| && reports[i].Answered? && Unsettled(reports, i)
      ensures LeavesTarget(t, capacity, run[i], reports[i].bundle)
    {
      WhatIsJudgedIsTrue(t, capacity, run, reports, views, i);
      UnsettledMeansDisputed(t, capacity, run, reports, i);
    }
    CautionIsEnough(t, capacity, run, reports);
  }

  // ---------------------------------------------------------------------
  // No test is exact

  /** An install of a set that its target holds already, with room for another
      copy beside it. */
  ghost predicate Repeats(t: Trust, bundle: Files, before: Fs, capacity: nat) {
    var mine := Inactive(before);
    && Physical(before, capacity) && Aimed(t, bundle, before) && Holds(t, bundle, LookAt(before), mine)
    && Free(before, capacity) >= Need(t, bundle)
    && !before.At(Stage(mine)).node.Odd? && before.temporary.None?
  }

  lemma LooksRepeated(t: Trust, bundle: Files, before: Fs, r: Result<Outcome, Error>, after: Fs)
    requires Ended(t, bundle, before, r, after) && Holds(t, bundle, LookAt(before), Inactive(before))
    requires r == Err(Io(PutSelector)) || (r == Err(Io(WriteMetadata)) && SameTarget(before, after))
    requires after.At(Stage(Inactive(before))).node.Absent? && before.temporary.None? && after.temporary.None?
    ensures LookAt(after) == Repeated(before)
  {
    if r == Err(Io(PutSelector)) {
      PublishedLooksSame(t, bundle, before, after);
    } else {
      UnpublishedLooksSame(before, after);
    }
    SameLook(before, after);
  }

  /** Everything but the target's stage looks as before. */
  ghost predicate LooksSame(before: Fs, after: Fs) {
    var mine := Inactive(before);
    && BytesOf(after.active) == BytesOf(before.active)
    && ItemOf(after.At(Live(mine)).node) == ItemOf(before.At(Live(mine)).node)
    && ItemOf(after.At(Live(mine.Other())).node) == ItemOf(before.At(Live(mine.Other())).node)
    && ItemOf(after.At(Stage(mine.Other())).node) == ItemOf(before.At(Stage(mine.Other())).node)
  }

  lemma PublishedLooksSame(t: Trust, bundle: Files, before: Fs, after: Fs)
    requires Reached(t, bundle, before, after) && after.active == before.active
    requires Holds(t, bundle, LookAt(before), Inactive(before))
    ensures LooksSame(before, after)
  {
    var mine := Inactive(before);
    assert ItemOf(after.At(Live(mine)).node) == Folder(SetOf(t, bundle)) == LookAt(before).Live(mine);
  }

  lemma UnpublishedLooksSame(before: Fs, after: Fs)
    requires Confined(before, after, Inactive(before)) && SameTarget(before, after)
    ensures LooksSame(before, after)
  {
  }

  lemma SameLook(before: Fs, after: Fs)
    requires LooksSame(before, after) && after.At(Stage(Inactive(before))).node.Absent?
    requires before.temporary.None? && after.temporary.None?
    ensures LookAt(after) == Repeated(before)
  {
  }

  predicate SameTarget(before: Fs, after: Fs) {
    after.At(Live(Inactive(before))) == before.At(Live(Inactive(before)))
  }

  /** The install can fail in making the first file of its stage. */
  method FailsInTheStage(t: Trust, bundle: Files, capacity: nat, before: Fs) returns (report: Report, after: Fs)
    requires Repeats(t, bundle, before, capacity)
    ensures report == Answered(bundle, before.active.Some?, Err(Io(WriteMetadata)))
    ensures Happened(t, capacity, before, report, after) && LookAt(after) == Repeated(before)
  {
    RefusedUnlessItFits(t, bundle, Inactive(before), before, capacity);
    var root := new BootRoot(capacity, before, Just(WriteMetadata));
    var r := root.Install(t, bundle, NO_LIMITS);
    report, after := Answered(bundle, before.active.Some?, r), root.fs;
    LooksRepeated(t, bundle, before, r, after);
  }

  /** It can as well fail in making the selector's temporary file. */
  method FailsInTheSelector(t: Trust, bundle: Files, capacity: nat, before: Fs) returns (report: Report, after: Fs)
    requires Repeats(t, bundle, before, capacity)
    ensures report == Answered(bundle, before.active.Some?, Err(Io(PutSelector)))
    ensures Happened(t, capacity, before, report, after) && LookAt(after) == Repeated(before)
  {
    RefusedUnlessItFits(t, bundle, Inactive(before), before, capacity);
    var root := new BootRoot(capacity, before, Just(PutSelector));
    var r := root.Install(t, bundle, NO_LIMITS);
    report, after := Answered(bundle, before.active.Some?, r), root.fs;
    LooksRepeated(t, bundle, before, r, after);
  }

  /** Either way the directory looks as it did, without a stage. */
  function Repeated(before: Fs): Look {
    if Inactive(before).A? then LookAt(before).(stageA := Missing) else LookAt(before).(stageB := Missing)
  }

  /** From a disputed selector these two failures show a caller the same view,
      and one leaves the selector disputed while the other settles it: nothing
      a caller can see tells them apart. */
  method SameViewBothWays(t: Trust, bundle: Files, capacity: nat, before: Fs)
    returns (staged: Report, still: Fs, put: Report, settled: Fs, view: View)
    requires Repeats(t, bundle, before, capacity) && !Undisputed(before)
    ensures Happened(t, capacity, before, staged, still) && !Undisputed(still)
    ensures Happened(t, capacity, before, put, settled) && Undisputed(settled)
    ensures Shown(before, staged, still, view) && Shown(before, put, settled, view)
  {
    staged, still := FailsInTheStage(t, bundle, capacity, before);
    put, settled := FailsInTheSelector(t, bundle, capacity, before);
    view := RepeatedView(bundle, before);
    OneWay(t, bundle, capacity, before, WriteMetadata, still);
    OneWay(t, bundle, capacity, before, PutSelector, settled);
  }

  function RepeatedView(bundle: Files, before: Fs): View {
    Saw(LookAt(before), bundle, Err(Metadata(Creating)), Repeated(before))
  }

  lemma OneWay(t: Trust, bundle: Files, capacity: nat, before: Fs, at: Step, after: Fs)
    requires at in {WriteMetadata, PutSelector} && LookAt(after) == Repeated(before) && Physical(before, capacity)
    requires Happened(t, capacity, before, Answered(bundle, before.active.Some?, Err(Io(at))), after)
    ensures Shown(before, Answered(bundle, before.active.Some?, Err(Io(at))), after, RepeatedView(bundle, before))
    ensures Undisputed(after) <==> at.PutSelector? || Undisputed(before)
  {
    StepSettles(t, capacity, before, Answered(bundle, before.active.Some?, Err(Io(at))), after);
  }
}
