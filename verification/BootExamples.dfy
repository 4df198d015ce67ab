/** Concrete runs, call by call: a valid pair of sets, the run in which a failed
    directory sync lets a later install destroy the slot that a power cut then
    selects, the install that preflight lets start without room for the
    selector, and the stage that blocks every repeat. */
module BootExamples {
  import opened Basics
  import opened Manifests
  import opened BootBundles
  import opened BootFiles
  import opened BootInstalls
  import opened BootRuns
  import opened BootAnswers

  /** Any lower-case digest serves for every file. */
  predicate SampleDigest(digest: string) {
    HexDigest(digest) && Lower(digest) == digest
  }

  function SampleEntries(digest: string): seq<Entry> {
    [ProducedEntry(Bootloader, digest), ProducedEntry(Kernel, digest), ProducedEntry(Initrd, digest),
     ProducedEntry(Rescue, digest), ProducedEntry(Config, digest)]
  }

  function SampleManifest(slot: Slot, digest: string): Manifest {
    Manifest(1, digest, if slot.A? then "A" else "B", SampleEntries(digest))
  }

  /** A trust that knows two manifests: a zero byte targets slot A, any other
      file slot B. */
  function SampleTrust(digest: string): Trust {
    Trust((bytes: Content) => Some(SampleManifest(if bytes == [0] then A else B, digest)),
          (bytes: Content) => digest,
          (bytes: Content, domain: string, signature: Content) => true)
  }

  function SampleBundle(slot: Slot, digest: string): Files {
    var names := StagedNames(SampleEntries(digest));
    map n | n in names :: if n == MANIFEST then [if slot.A? then 0 else 1] else []
  }

  lemma SampleShapeOk(slot: Slot, digest: string)
    requires SampleDigest(digest)
    ensures ShapeOk(SampleManifest(slot, digest))
  {
    var entries := SampleEntries(digest);
    assert EntriesOk(entries);
    assert entries[0].role == Bootloader && entries[1].role == Kernel && entries[2].role == Initrd
      && entries[3].role == Rescue && entries[4].role == Config;
  }

  lemma SampleArtifactsOk(slot: Slot, digest: string)
    requires SampleDigest(digest)
    ensures ArtifactsOk(SampleTrust(digest), SampleBundle(slot, digest), SampleEntries(digest))
  {
    var entries := SampleEntries(digest);
    SampleShapeOk(slot, digest);
    forall i | 0 <= i < |entries|
      ensures ArtifactOk(SampleTrust(digest), SampleBundle(slot, digest), entries[i])
    {
      SampleArtifactOk(slot, digest, entries, i);
    }
  }

  lemma SampleArtifactOk(slot: Slot, digest: string, entries: seq<Entry>, i: nat)
    requires SampleDigest(digest) && entries == SampleEntries(digest) && i < |entries|
    requires EntriesOk(entries) && entries[i].sha512 == digest
    ensures ArtifactOk(SampleTrust(digest), SampleBundle(slot, digest), entries[i])
  {
    EntryNamesListed(entries, i);
    RoleNamesDiffer(entries[i].role, entries[i].role);
  }

  lemma SampleAccepted(slot: Slot, digest: string)
    requires SampleDigest(digest)
    ensures Accepts(SampleTrust(digest), SampleBundle(slot, digest))
    ensures ManifestOf(SampleTrust(digest), SampleBundle(slot, digest)) == SampleManifest(slot, digest)
    ensures Need(SampleTrust(digest), SampleBundle(slot, digest)) == BLOCK
  {
    var bundle := SampleBundle(slot, digest);
    var names := StagedNames(SampleEntries(digest));
    SampleShapeOk(slot, digest);
    SampleArtifactsOk(slot, digest);
    StagedNamesDistinct(SampleEntries(digest));
    assert names[0] == MANIFEST && names[1] == MANIFEST_SIG;
    assert names[0] in names && names[1] in names;
    OnlyFirstTakesSpace(bundle, names);
    assert SampleTrust(digest).parse(bundle[MANIFEST]) == Some(SampleManifest(slot, digest));
  }

  lemma SampleSetIsWhole(slot: Slot, digest: string)
    requires SampleDigest(digest)
    ensures SetFor(SampleTrust(digest), SampleBundle(slot, digest), slot)
  {
    SampleAccepted(slot, digest);
  }

  lemma {:induction false} OnlyFirstTakesSpace(files: Files, names: seq<string>)
    requires Distinct(names) && names != []
    requires forall i :: 1 <= i < |names| ==> names[i] in files && files[names[i]] == []
    ensures BlocksOf(files, names) == BlocksAt(files, names[0])
  {
    if |names| > 1 {
      OnlyFirstTakesSpace(files, names[..|names| - 1]);
    } else {
      assert names[..0] == [];
    }
  }

  const NOTHING := Cell(Absent, true)

  function Holding(plain: Files): Cell {
    Cell(Dir(Synced(plain), true), true)
  }

  /** A complete set for one slot, without other files. */
  ghost predicate SetFor(t: Trust, bundle: Files, slot: Slot) {
    Accepts(t, bundle) && Targets(t, bundle, slot) && SetOf(t, bundle) == bundle
  }

  /** A set for slot A and a set for slot B. */
  ghost predicate PairOfSets(t: Trust, a: Files, b: Files) {
    SetFor(t, a, A) && SetFor(t, b, B)
  }

  lemma SamplePair(digest: string)
    requires SampleDigest(digest)
    ensures PairOfSets(SampleTrust(digest), SampleBundle(A, digest), SampleBundle(B, digest))
    ensures Need(SampleTrust(digest), SampleBundle(A, digest)) == BLOCK
    ensures Need(SampleTrust(digest), SampleBundle(B, digest)) == BLOCK
  {
    SampleSetIsWhole(A, digest);
    SampleSetIsWhole(B, digest);
    SampleAccepted(A, digest);
    SampleAccepted(B, digest);
  }

  /** Slot A is installed and selected. */
  function Start(a: Files): Fs {
    Fs(Holding(a), NOTHING, NOTHING, NOTHING, Some(Selector(A)), {Some(Selector(A))}, None)
  }

  lemma StartIsSafe(t: Trust, a: Files, b: Files)
    requires PairOfSets(t, a, b)
    ensures Safe(t, Start(a)) && Start(a).durable == {Start(a).active} && Aimed(t, b, Start(a))
  {
    assert Named(Some(Selector(A))) == Some(A);
    assert Contents(Start(a).At(Live(A)).node.files) == a;
  }

  /** Set b is selected over set a, and set a may still be what a power cut
      selects. */
  ghost predicate Contested(t: Trust, a: Files, b: Files, fs: Fs, capacity: nat) {
    && Happened(t, capacity, Start(a), Answered(b, true, Err(Io(SyncSelector))), fs)
    && Safe(t, fs) && !Undisputed(fs)
  }

  /** The run that leaves it so: set b is installed over set a and fails only
      at its final sync. */
  method InstallSecond(t: Trust, a: Files, b: Files, capacity: nat) returns (r: Result<Outcome, Error>, left: Fs)
    requires PairOfSets(t, a, b) && Used(Start(a)) + Need(t, b) + BLOCK <= capacity
    ensures r == Err(Io(SyncSelector)) && Contested(t, a, b, left, capacity)
  {
    StartIsSafe(t, a, b);
    r, left := OnlyTheFinalSyncFails(t, b, capacity, Start(a));
    FailedFinalSyncDisputes(t, b, Start(a), left);
    StoppedIsSafeIff(t, b, Start(a), r, left);
  }

  /** The selector can name a destroyed slot, whatever the two sets are. The
      first run installs set b and fails only at its final sync; repeating it
      without any fault reports success and changes nothing; the second run
      installs set a again and fails only at the renaming of its stage; then
      there is a power cut that selects the slot the second run emptied. */
  method FailedSyncThenInstallLosesTheSelectedSlot(t: Trust, a: Files, b: Files, capacity: nat)
    returns (first: Result<Outcome, Error>, again: Result<Outcome, Error>, second: Result<Outcome, Error>, left: Fs)
    requires PairOfSets(t, a, b) && Used(Start(a)) + Need(t, b) + BLOCK <= capacity
    ensures first == Err(Io(SyncSelector))
    ensures again == Ok(Unchanged(B))
    ensures second == Err(Io(Publish))
    ensures Physical(left, capacity) && SomeCutFails(t, left, capacity)
  {
    var contested;
    first, contested := InstallSecond(t, a, b, capacity);
    again := SecondRepeated(t, a, b, capacity, contested);
    second, left := InstallFirstAgain(t, a, b, capacity, contested);
  }

  method SecondRepeated(t: Trust, a: Files, b: Files, capacity: nat, contested: Fs) returns (r: Result<Outcome, Error>)
    requires PairOfSets(t, a, b) && Contested(t, a, b, contested, capacity)
    ensures r == Ok(Unchanged(B)) && Ended(t, b, contested, r, contested)
  {
    SecondIsAimed(t, a, b, contested, capacity);
    r := RepeatFindsItRunning(t, b, capacity, contested);
  }

  method InstallFirstAgain(t: Trust, a: Files, b: Files, capacity: nat, contested: Fs)
    returns (r: Result<Outcome, Error>, left: Fs)
    requires PairOfSets(t, a, b) && Contested(t, a, b, contested, capacity)
    ensures r == Err(Io(Publish)) && Physical(left, capacity) && SomeCutFails(t, left, capacity)
  {
    SecondIsAimed(t, a, b, contested, capacity);
    r, left := DisputedInstallLosesSlot(t, a, capacity, contested);
  }

  /** Such sets exist: the run with the sample sets. */
  method SampleSlotIsLost(digest: string) returns (left: Fs)
    requires SampleDigest(digest)
    ensures SomeCutFails(SampleTrust(digest), left, 4 * BLOCK)
  {
    SamplePair(digest);
    var t, a, b := SampleTrust(digest), SampleBundle(A, digest), SampleBundle(B, digest);
    StartSpace(t, a);
    var _, _, _, lost := FailedSyncThenInstallLosesTheSelectedSlot(t, a, b, 4 * BLOCK);
    left := lost;
  }

  lemma StartSpace(t: Trust, a: Files)
    requires SetFor(t, a, A)
    ensures Used(Start(a)) == Need(t, a) + BLOCK
  {
    StagedSetAccepts(t, a);
  }

  /** A repeat without any fault reports a running set and leaves the selector
      as disputed as it was. */
  method RepeatFindsItRunning(t: Trust, bundle: Files, capacity: nat, before: Fs) returns (r: Result<Outcome, Error>)
    requires Physical(before, capacity) && Running(t, bundle, before)
    ensures r == Ok(Unchanged(Named(before.active).value)) && Ended(t, bundle, before, r, before)
  {
    var calm := new BootRoot(capacity, before, Never);
    r := calm.Install(t, bundle, NO_LIMITS);
  }

  /** Sets for different slots have different manifests. */
  lemma PairDiffers(t: Trust, a: Files, b: Files)
    requires PairOfSets(t, a, b)
    ensures a[MANIFEST] != b[MANIFEST]
  {
    assert ManifestOf(t, a).targetSlot != ManifestOf(t, b).targetSlot;
  }

  /** What the failed sync leaves: both sets in their slots, B in view. */
  lemma BothSetsStand(t: Trust, a: Files, b: Files, fs: Fs)
    requires PairOfSets(t, a, b) && Ended(t, b, Start(a), Err(Io(SyncSelector)), fs)
    ensures fs.active == Some(Selector(B)) && Published(t, b, B, fs)
    ensures fs.At(Live(A)) == Holding(a) && !fs.At(Stage(A)).node.Odd?
  {
    assert Named(Some(Selector(A))) == Some(A);
  }

  /** The disputed directory runs set b and has room for set a. */
  lemma SecondIsAimed(t: Trust, a: Files, b: Files, fs: Fs, capacity: nat)
    requires PairOfSets(t, a, b) && Physical(fs, capacity)
    requires Ended(t, b, Start(a), Err(Io(SyncSelector)), fs)
    ensures Running(t, b, fs) && Named(fs.active) == Some(B)
    ensures Aimed(t, a, fs) && Touches(t, a, A, fs, capacity) && Inactive(fs) == A
    ensures !fs.At(Stage(A)).node.Odd?
  {
    BothSetsStand(t, a, b, fs);
    PublishedRuns(t, b, B, fs);
    assert Named(Some(Selector(B))) == Some(B);
    OtherRuns(t, a, b, fs);
    OldSetMakesRoom(t, a, fs, capacity);
  }

  lemma OtherRuns(t: Trust, a: Files, b: Files, fs: Fs)
    requires PairOfSets(t, a, b) && Named(fs.active) == Some(B)
    requires fs.At(Live(B)).node.Dir? && Contents(fs.At(Live(B)).node.files) == b
    ensures Aimed(t, a, fs)
  {
    PairDiffers(t, a, b);
  }

  lemma OldSetMakesRoom(t: Trust, a: Files, fs: Fs, capacity: nat)
    requires SetFor(t, a, A) && Physical(fs, capacity)
    requires fs.At(Live(A)) == Holding(a) && !fs.At(Stage(A)).node.Odd?
    ensures Touches(t, a, A, fs, capacity)
  {
    StagedSetAccepts(t, a);
  }

  /** Two runs of the same installs that show a caller the same views, and end
      with the selector disputed in one and settled in the other: set b fails
      at its final sync over set a, then set a fails while making a metadata
      file, of the stage in one and of the selector in the other. */
  method SameViewsOfTwoRuns(t: Trust, a: Files, b: Files, capacity: nat)
    returns (one: seq<Fs>, oneReports: seq<Report>, two: seq<Fs>, twoReports: seq<Report>, views: seq<View>)
    requires PairOfSets(t, a, b)
    requires Used(Start(a)) + Need(t, b) + Need(t, a) + BLOCK <= capacity
    ensures |views| == 2 && History(t, capacity, one, oneReports) && History(t, capacity, two, twoReports)
    ensures Watched(one, oneReports, views) && Watched(two, twoReports, views)
    ensures !Undisputed(one[2]) && Undisputed(two[2])
  {
    var r, contested := InstallSecond(t, a, b, capacity);
    ContestedRepeats(t, a, b, contested, capacity);
    var staged, still, put, settled, view := SameViewBothWays(t, a, capacity, contested);
    var first := Answered(b, true, r);
    one, oneReports := [Start(a), contested, still], [first, staged];
    two, twoReports := [Start(a), contested, settled], [first, put];
    views := [FirstView(a, b, contested), view];
    FromContested(t, a, b, capacity, contested, one, oneReports, views);
    FromContested(t, a, b, capacity, contested, two, twoReports, views);
  }

  /** What the failed sync shows. */
  function FirstView(a: Files, b: Files, fs: Fs): View {
    Saw(LookAt(Start(a)), b, Err(SyncingDirectory), LookAt(fs))
  }

  lemma FromContested(t: Trust, a: Files, b: Files, capacity: nat, contested: Fs,
                      run: seq<Fs>, reports: seq<Report>, views: seq<View>)
    requires PairOfSets(t, a, b) && Contested(t, a, b, contested, capacity) && Used(Start(a)) <= capacity
    requires |run| == 3 && |reports| == 2 && |views| == 2
    requires run[0] == Start(a) && run[1] == contested
    requires reports[0] == Answered(b, true, Err(Io(SyncSelector))) && views[0] == FirstView(a, b, contested)
    requires Happened(t, capacity, contested, reports[1], run[2]) && Shown(contested, reports[1], run[2], views[1])
    ensures History(t, capacity, run, reports) && Watched(run, reports, views)
  {
    StartIsSettled(t, a, b, capacity);
    FirstIsShown(a, b, contested);
    TwoReports(t, capacity, run, reports, views);
  }

  lemma StartIsSettled(t: Trust, a: Files, b: Files, capacity: nat)
    requires PairOfSets(t, a, b) && Used(Start(a)) <= capacity
    ensures Physical(Start(a), capacity) && Safe(t, Start(a)) && Undisputed(Start(a))
  {
    StartIsSafe(t, a, b);
  }

  lemma FirstIsShown(a: Files, b: Files, fs: Fs)
    ensures Shown(Start(a), Answered(b, true, Err(Io(SyncSelector))), fs, FirstView(a, b, fs))
  {
  }

  lemma TwoReports(t: Trust, capacity: nat, run: seq<Fs>, reports: seq<Report>, views: seq<View>)
    requires |run| == 3 && |reports| == 2 && |views| == 2
    requires Physical(run[0], capacity) && Safe(t, run[0]) && Undisputed(run[0])
    requires Happened(t, capacity, run[0], reports[0], run[1]) && Shown(run[0], reports[0], run[1], views[0])
    requires Happened(t, capacity, run[1], reports[1], run[2]) && Shown(run[1], reports[1], run[2], views[1])
    ensures History(t, capacity, run, reports) && Watched(run, reports, views)
  {
  }

  /** With room beside both sets, installing set a again repeats it. */
  lemma ContestedRepeats(t: Trust, a: Files, b: Files, fs: Fs, capacity: nat)
    requires PairOfSets(t, a, b) && Contested(t, a, b, fs, capacity)
    requires Used(Start(a)) + Need(t, b) + Need(t, a) <= capacity
    ensures Repeats(t, a, fs, capacity)
  {
    SecondIsAimed(t, a, b, fs, capacity);
    ContestedSpace(t, a, b, fs);
    FirstStillStands(t, a, b, fs);
  }

  lemma FirstStillStands(t: Trust, a: Files, b: Files, fs: Fs)
    requires PairOfSets(t, a, b) && Ended(t, b, Start(a), Err(Io(SyncSelector)), fs)
    ensures Holds(t, a, LookAt(fs), A)
  {
    BothSetsStand(t, a, b, fs);
  }

  lemma ContestedSpace(t: Trust, a: Files, b: Files, fs: Fs)
    requires PairOfSets(t, a, b) && Ended(t, b, Start(a), Err(Io(SyncSelector)), fs)
    ensures Used(fs) == Used(Start(a)) + Need(t, b) && fs.temporary.None?
  {
    BothSetsStand(t, a, b, fs);
    StagedSetAccepts(t, b);
  }

  /** An empty boot root with exactly the room the set needs passes preflight,
      gets the set published, and does not select it. */
  method ExactRoomIsPublishedButNotSelected(t: Trust, a: Files, capacity: nat)
    returns (r: Result<Outcome, Error>, left: Fs)
    requires SetFor(t, a, A) && capacity == Need(t, a)
    ensures r == Err(Io(PutSelector))
    ensures Published(t, a, A, left) && left.active == None
  {
    var empty := Fs(NOTHING, NOTHING, NOTHING, NOTHING, None, {None}, None);
    var root := new BootRoot(capacity, empty, Never);
    r := root.Install(t, a, NO_LIMITS);
    left := root.fs;
  }

  /** A stage left behind blocks every repeat. An install into an empty root
      that has room for the set once but not twice fails only at the renaming
      of its stage; after that no number of repeats, without any fault,
      installs the set or changes anything. */
  method LeftoverStageBlocksEveryRepeat(t: Trust, a: Files, capacity: nat, repeats: nat)
    returns (first: Result<Outcome, Error>, later: seq<Result<Outcome, Error>>, left: Fs)
    requires SetFor(t, a, A) && Need(t, a) <= capacity < 2 * Need(t, a)
    ensures first == Err(Io(Publish))
    ensures |later| == repeats && forall i :: 0 <= i < repeats ==> later[i] == Err(NoSpace)
    ensures left.active == None && left.At(Live(A)).node.Absent?
  {
    var empty := Fs(NOTHING, NOTHING, NOTHING, NOTHING, None, {None}, None);
    first, left := OnlyTheRenameFails(t, a, capacity, empty);
    LeftoverStageNeedsRoomTwice(t, a, left, capacity);
    later := NoRepeatHelps(t, a, capacity, left, repeats);
  }

  /** Where there is no room, no number of repeats without any fault installs
      the set or changes anything. */
  method NoRepeatHelps(t: Trust, bundle: Files, capacity: nat, before: Fs, repeats: nat)
    returns (answers: seq<Result<Outcome, Error>>)
    requires Physical(before, capacity) && Aimed(t, bundle, before) && !before.At(Live(Inactive(before))).node.Odd?
    requires NoRoom(t, bundle, before, capacity)
    ensures |answers| == repeats && forall i :: 0 <= i < repeats ==> answers[i] == Err(NoSpace)
  {
    answers := [];
    var root := new BootRoot(capacity, before, Never);
    for i := 0 to repeats
      invariant |answers| == i && forall j :: 0 <= j < i ==> answers[j] == Err(NoSpace)
      invariant root.Valid() && root.fs == before && root.plan.Never? && root.capacity == capacity && fresh(root)
    {
      var r := root.Install(t, bundle, NO_LIMITS);
      answers := answers + [r];
    }
  }
}
