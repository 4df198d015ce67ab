/** Runs of the generation state: a generation that is activated and lost, and
    rollbacks cut short any number of times. */
module GenerationExamples {
  import opened Basics
  import opened GenerationLinks
  import opened GenerationRoots
  import Streams = BundleStreams

  // ---------------------------------------------------------------------
  // A lost generation

  /** A generation can be active and gone. On a machine without any link, an
      install fails only at the sync after its renaming; a second install finds
      the generation and reports success without any fault; its activation
      fails only at the first sync; and a power cut keeps the new link and
      takes the generation. The machine then cannot decide what to boot. */
  method ActivatedThenLost(digest: seq<Byte> -> string, id: string, bundle: Bundle)
    returns (first: Result<(), Failure>, second: Result<(), Failure>, third: Result<(), Failure>,
             boot: Result<Outcome, ()>, left: State)
    requires ValidId(id) && IMAGE in bundle && SIGNATURE in bundle && digest(bundle[IMAGE]) == id
    ensures first == Err(Io(SyncingMove)) && second.Ok? && third.Err?
    ensures Active in left && left[Active] == LinkText(id) && boot.Err?
  {
    var root;
    root, first, second := InstalledUnsynced(digest, id, bundle);
    third := root.UnanchoredActivationBreaks(id);
    left := root.now;
    boot := BootAfterLoss(root, id);
  }

  /** A power cut that keeps the links and takes every unsynced generation;
      the boot after it finds nothing behind the active link. */
  method BootAfterLoss(root: GenerationRoot, id: string) returns (boot: Result<Outcome, ()>)
    requires root.Valid() && root.settled == {} && Active in root.now && root.now[Active] == LinkText(id)
    modifies root
    ensures boot.Err?
  {
    root.Reboot(root.now, {});
    root.plan := AnyCall;
    NothingToBoot(root.now);
    boot := root.PrepareBoot(true);
  }

  lemma NothingToBoot(s: State)
    requires Active in s
    ensures Decide(map[], s, true).Err?
  {
  }

  method InstalledUnsynced(digest: seq<Byte> -> string, id: string, bundle: Bundle)
    returns (root: GenerationRoot, first: Result<(), Failure>, second: Result<(), Failure>)
    requires ValidId(id) && IMAGE in bundle && SIGNATURE in bundle && digest(bundle[IMAGE]) == id
    ensures fresh(root) && root.Valid() && root.AllSound() && root.digest == digest
    ensures root.now == map[] && root.settled == {} && root.durable == {map[]}
    ensures Sound(root.store, digest, id)
    ensures first == Err(Io(SyncingMove)) && second.Ok?
  {
    root := new GenerationRoot(digest, map[], map[]);
    root.plan := Just(SyncingMove);
    first := root.InstallGeneration(id, bundle);
    root.plan := Never;
    second := root.InstallGeneration(id, bundle);
  }

  // ---------------------------------------------------------------------
  // What is installed of a received bundle

  /** Every file a stream can bring is installed unchanged if it came, except
      kernel and initrd, which are not kept with a generation. */
  lemma FilesAreDelivered(bundle: Bundle, id: string, file: Streams.File)
    ensures var name := Streams.FileName(file);
      && (name in Delivered(bundle, id) <==> name in bundle && file != Streams.Kernel && file != Streams.Initrd)
      && (name in Delivered(bundle, id) ==> Delivered(bundle, id)[name] == bundle[name])
  {
    var name := Streams.FileName(file);
    NameIsDeliverable(file);
    assert name != GENERATION_FILE by {
      Streams.FileNameShape(file);
      assert GENERATION_FILE[0] == 'g';
    }
  }

  lemma NameIsDeliverable(file: Streams.File)
    ensures Streams.FileName(file) in DELIVERABLE <==> file != Streams.Kernel && file != Streams.Initrd
  {
    var name := Streams.FileName(file);
    match file
    case Image => assert DELIVERABLE[0] == name;
    case ImageSignature => assert DELIVERABLE[1] == name;
    case System => assert DELIVERABLE[2] == name;
    case Config => assert DELIVERABLE[3] == name;
    case ConfigSignature => assert DELIVERABLE[4] == name;
    case KernelSignature => assert DELIVERABLE[5] == name;
    case InitrdSignature => assert DELIVERABLE[6] == name;
    case Rescue => assert DELIVERABLE[7] == name;
    case RescueSignature => assert DELIVERABLE[8] == name;
    case Network => assert DELIVERABLE[9] == name;
    case NetworkSignature => assert DELIVERABLE[10] == name;
    case Tools => assert DELIVERABLE[11] == name;
    case ToolsSignature => assert DELIVERABLE[12] == name;
    case Kernel => assert |name| == 6;
    case Initrd => assert |name| == 6;
  }

  /** Nothing else is installed but the file that names the id. */
  lemma NothingElseIsDelivered(bundle: Bundle, id: string, name: string)
    requires name in Delivered(bundle, id)
    ensures name == "generation" || exists file :: name == Streams.FileName(file)
    ensures name == "generation" ==> Delivered(bundle, id)[name] == Ascii(id + "\n")
  {
    if name != "generation" {
      var k :| 0 <= k < |DELIVERABLE| && DELIVERABLE[k] == name;
      assert Streams.FileName(DeliverableAt(k)) == name;
    }
  }

  function DeliverableAt(k: nat): (file: Streams.File)
    requires k < |DELIVERABLE|
    ensures Streams.FileName(file) == DELIVERABLE[k]
  {
    match k
    case 0 => Streams.Image case 1 => Streams.ImageSignature case 2 => Streams.System
    case 3 => Streams.Config case 4 => Streams.ConfigSignature case 5 => Streams.KernelSignature
    case 6 => Streams.InitrdSignature case 7 => Streams.Rescue case 8 => Streams.RescueSignature
    case 9 => Streams.Network case 10 => Streams.NetworkSignature case 11 => Streams.Tools
    case _ => Streams.ToolsSignature
  }

  // ---------------------------------------------------------------------
  // The life of a generation, without faults

  /** An activated generation gets its first boot: the boot after a fault-free
      activation proceeds, with the generation attempted, whatever was
      attempted, pending or active before; only a broken tested link stops it. */
  method ActivateAndBoot(root: GenerationRoot, id: string, rollback: bool) returns (r: Result<Outcome, ()>)
    requires root.Valid() && root.plan == Never && Sound(root.store, root.digest, id)
    requires Tested in root.now ==> Whole(root.store, root.now[Tested])
    modifies root
    ensures root.Valid() && root.plan == Never && root.store == old(root.store)
    ensures r == Ok(Proceed)
    ensures {Active, Attempted} <= root.now.Keys
    ensures root.now[Active] == root.now[Attempted] == "generations/" + id && Whole(root.store, root.now[Active])
    ensures Tested in root.now <==> Tested in old(root.now)
    ensures Tested in root.now ==> root.now[Tested] == old(root.now)[Tested]
    ensures Pending in root.now <==> !(Tested in root.now && root.now[Tested] == root.now[Active])
    ensures Pending in root.now ==> root.now[Pending] == root.now[Active]
  {
    var activated := root.Activate(id);
    ActivatedReads(root.store, old(root.now), id);
    r := root.PrepareBoot(rollback);
  }

  lemma ActivatedReads(store: Store, s: State, id: string)
    requires ValidId(id) && id in store && IMAGE in store[id] && SIGNATURE in store[id]
    requires Tested in s ==> Whole(store, s[Tested])
    ensures var t := Activated(store, s, id);
      && LinksRead(store, t) && Attempted !in t && t[Active] == "generations/" + id
      && (Tested in t <==> Tested in s) && (Tested in t ==> t[Tested] == s[Tested])
      && (Pending in t <==> !(Tested in t && t[Tested] == t[Active])) && (Pending in t ==> t[Pending] == t[Active])
  {
    var text := LinkText(id);
    assert text[..12] == "generations/" && text[12..] == id;
    WholeIsParsed(store, text);
    if Tested in s {
      WholeIsParsed(store, s[Tested]);
    }
  }

  /** When it comes up and is marked, it is the tested one and nothing is open;
      the next boot proceeds with it. */
  method BootMarkBoot(root: GenerationRoot, id: string, rollback: bool)
    returns (first: Result<Outcome, ()>, marked: Result<(), ()>, next: Result<Outcome, ()>)
    requires root.Valid() && root.plan == Never && Sound(root.store, root.digest, id)
    requires Tested in root.now ==> Whole(root.store, root.now[Tested])
    modifies root
    ensures first == Ok(Proceed) && marked.Ok? && next == Ok(Proceed)
    ensures {Active, Attempted, Tested} <= root.now.Keys && {Pending, RollbackEvent} !! root.now.Keys
    ensures root.now[Active] == root.now[Attempted] == root.now[Tested] == "generations/" + id
  {
    first := ActivateAndBoot(root, id, rollback);
    marked, next := MarkAndBoot(root, rollback);
  }

  /** A whole generation under active and attempted, or under active alone. */
  predicate Up(store: Store, s: State, text: string) {
    && Active in s && s[Active] == text && Whole(store, text) && (Attempted in s ==> s[Attempted] == text)
  }

  /** The generation is tested and nothing is open. */
  predicate Proven(store: Store, s: State, text: string) {
    Up(store, s, text) && Tested in s && s[Tested] == text && {Pending, RollbackEvent} !! s.Keys
  }

  method MarkAndBoot(root: GenerationRoot, rollback: bool) returns (marked: Result<(), ()>, next: Result<Outcome, ()>)
    requires root.Valid() && root.plan == Never && {Active, Attempted} <= root.now.Keys
    requires Up(root.store, root.now, root.now[Active])
    modifies root
    ensures marked.Ok? && next == Ok(Proceed)
    ensures Active in old(root.now) && Proven(root.store, root.now, old(root.now)[Active]) && Attempted in root.now
  {
    ghost var text := root.now[Active];
    marked := MarkUp(root);
    next := BootProven(root, rollback, text);
  }

  method MarkUp(root: GenerationRoot) returns (marked: Result<(), ()>)
    requires root.Valid() && root.plan == Never && {Active, Attempted} <= root.now.Keys
    requires Up(root.store, root.now, root.now[Active])
    modifies root
    ensures root.Valid() && root.plan == Never && marked.Ok? && Attempted !in root.now
    ensures Active in old(root.now) && Proven(root.store, root.now, old(root.now)[Active])
  {
    marked := root.MarkSuccess();
  }

  method BootProven(root: GenerationRoot, rollback: bool, ghost text: string) returns (next: Result<Outcome, ()>)
    requires root.Valid() && root.plan == Never && Proven(root.store, root.now, text) && Attempted !in root.now
    modifies root
    ensures next == Ok(Proceed) && Proven(root.store, root.now, text) && Attempted in root.now
  {
    next := root.PrepareBoot(rollback);
  }

  /** When it is not marked, the next boot goes back to the tested generation
      if rollback is on and there is another one, and otherwise gives up. */
  method BootAgainUnmarked(root: GenerationRoot, id: string, rollback: bool)
    returns (first: Result<Outcome, ()>, next: Result<Outcome, ()>)
    requires root.Valid() && root.plan == Never && Sound(root.store, root.digest, id)
    requires Tested in root.now ==> Whole(root.store, root.now[Tested])
    modifies root
    ensures first == Ok(Proceed)
    ensures next == Ok(if rollback && Tested in old(root.now) && old(root.now)[Tested] != "generations/" + id
                       then RolledBack else Failed)
    ensures next == Ok(RolledBack) ==>
      && {Active, Attempted} <= root.now.Keys && Pending !in root.now
      && root.now[Active] == root.now[Attempted] == old(root.now)[Tested]
    ensures next == Ok(Failed) ==> Active in root.now && root.now[Active] == "generations/" + id
  {
    first := ActivateAndBoot(root, id, rollback);
    next := root.PrepareBoot(rollback);
  }

  // ---------------------------------------------------------------------
  // Rollbacks cut short

  /** A step of a rollback changes nothing once it has been made. */
  lemma {:induction false} RollbackStepIsFixed(s: State, failed: string, good: string, j: nat, i: nat)
    requires i < j <= 4
    ensures var steps := RollbackPlan(failed, good);
      Apply(After(s, steps, j), steps[i]) == After(s, steps, j)
  {
    FourSteps(s, RollbackPlan(failed, good));
  }

  /** Starting a rollback again from where it was cut reaches no new state. */
  lemma {:induction false} RollbackResumes(s: State, failed: string, good: string, j: nat, k: nat)
    requires j <= 4 && k <= 4
    ensures var steps := RollbackPlan(failed, good);
      After(After(s, steps, j), steps, k) == After(s, steps, if j < k then k else j)
  {
    if k > 0 {
      RollbackResumes(s, failed, good, j, k - 1);
      if k - 1 < j {
        RollbackStepIsFixed(s, failed, good, j, k - 1);
      }
    }
  }

  lemma RollbackPrefixesClosed(s: State, failed: string, good: string, t: State, u: State)
    requires PrefixState(s, RollbackPlan(failed, good), t) && PrefixState(t, RollbackPlan(failed, good), u)
    ensures PrefixState(s, RollbackPlan(failed, good), u)
  {
    var steps := RollbackPlan(failed, good);
    var j: nat :| j <= |steps| && t == After(s, steps, j);
    var k: nat :| k <= |steps| && u == After(t, steps, k);
    RollbackResumes(s, failed, good, j, k);
  }

  /** The generations of one store are all in another, unchanged. */
  predicate Survives(before: Store, after: Store) {
    forall id :: id in before ==> id in after && after[id] == before[id]
  }

  /** A decision on links to generations that survive stays the same. */
  lemma DecisionSurvives(firm: Store, store: Store, digest: seq<Byte> -> string, s: State, rollback: bool)
    requires SoundLinks(firm, digest, s) && Survives(firm, store)
    ensures Decide(store, s, rollback) == Decide(firm, s, rollback)
  {
    forall key | key in s && key != RollbackEvent ensures ParseTarget(store, s[key]) == ParseTarget(firm, s[key]) {
      assert SoundText(firm, digest, s[key]);
    }
  }

  /** The root is somewhere inside the rollback that was decided at `s`. */
  ghost predicate Inside(root: GenerationRoot, s: State, d: Decision, firm: Store)
    reads root
  {
    && root.Valid() && root.AllSound() && d.Restore?
    && SoundLinks(firm, root.digest, s) && Decide(firm, s, true) == Ok(d)
    && Survives(firm, Firm(root.store, root.settled))
    && forall t :: t in root.durable ==> PrefixState(s, d.Plan(), t)
  }

  /** A boot inside a rollback rolls back to the same generation, or reports
      Failed with that generation active, or fails; it stays inside. */
  method BootInside(root: GenerationRoot, ghost s: State, ghost d: Decision, ghost firm: Store)
    returns (r: Result<Outcome, ()>)
    requires Inside(root, s, d, firm)
    modifies root
    ensures Inside(root, s, d, firm) && r != Ok(Proceed)
    ensures r == Ok(RolledBack) ==> root.now == ApplyAll(s, d.Plan()) && root.durable == {root.now}
    ensures r == Ok(Failed) ==> Active in root.now && root.now[Active] == LinkText(d.good)
  {
    ghost var was, wasDurable := root.now, root.durable;
    DecisionSurvives(firm, root.store, root.digest, s, true);
    r := root.PrepareBoot(true);
    FollowedStaysInside(root.store, s, d, was, wasDurable, r, root.faulted, root.now, root.durable);
  }

  lemma FollowedStaysInside(store: Store, s: State, d: Decision, was: State, wasDurable: set<State>,
                            r: Result<Outcome, ()>, faulted: bool, now: State, durable: set<State>)
    requires Decide(store, s, true) == Ok(d) && d.Restore? && PrefixState(s, d.Plan(), was)
    requires forall t :: t in wasDurable ==> PrefixState(s, d.Plan(), t)
    requires GenerationRoot.Followed(Decide(store, was, true), was, wasDurable, r, faulted, now, durable)
    ensures (forall t :: t in durable ==> PrefixState(s, d.Plan(), t)) && r != Ok(Proceed)
    ensures r == Ok(RolledBack) ==> now == ApplyAll(s, d.Plan()) && durable == {now}
    ensures r == Ok(Failed) ==> Active in now && now[Active] == LinkText(d.good)
  {
    CutRollbackNeverProceeds(store, s, d, was);
    if Decide(store, was, true) == Ok(d) {
      PartwayStaysInside(s, d, was, wasDurable, now, durable);
    } else {
      PartwayOfNothing(was, wasDurable, now, durable);
    }
  }

  lemma PartwayOfNothing(was: State, wasDurable: set<State>, now: State, durable: set<State>)
    requires Partway(was, wasDurable, [], now, durable)
    ensures now == was && durable <= wasDurable + {was}
  {
  }

  lemma PartwayStaysInside(s: State, d: Decision, was: State, wasDurable: set<State>, now: State, durable: set<State>)
    requires d.Restore? && Partway(was, wasDurable, d.Plan(), now, durable)
    requires forall t :: t in wasDurable ==> PrefixState(s, d.Plan(), t)
    ensures forall t :: t in durable ==> PrefixState(s, d.Plan(), t)
  {
    var k :| Progressed(was, wasDurable, d.Plan(), k, now, durable);
    forall t | t in durable ensures PrefixState(s, d.Plan(), t) {
      if t !in wasDurable {
        var u :| u in wasDurable && PrefixState(u, d.Plan(), t);
        RollbackPrefixesClosed(s, d.failed, d.good, u, t);
      }
    }
  }

  /** A power cut inside a rollback leaves it inside. */
  method CutInside(root: GenerationRoot, lost: set<string>, ghost s: State, ghost d: Decision, ghost firm: Store)
    requires Inside(root, s, d, firm)
    modifies root
    ensures Inside(root, s, d, firm)
  {
    var image :| image in root.durable;
    root.Reboot(image, root.store.Keys - (lost - root.settled));
  }

  /** Once a boot with rollback decides to roll back, no number of further
      boots with rollback proceeds, however each of them is cut and whatever
      unsynced generations the cuts take: each rolls back to the same good
      generation, reports Failed with it active, or fails itself. */
  method CutRollbacksNeverProceed(root: GenerationRoot, cuts: seq<set<string>>)
    returns (outcomes: seq<Result<Outcome, ()>>, ghost d: Decision)
    requires root.Valid() && root.AllSound() && root.durable == {root.now}
    requires var decided := Decide(root.store, root.now, true); decided.Ok? && decided.value.Restore?
    modifies root
    ensures Decide(old(root.store), old(root.now), true) == Ok(d)
    ensures |outcomes| == |cuts| + 1 && forall i :: 0 <= i < |outcomes| ==> outcomes[i] != Ok(Proceed)
    ensures outcomes[|cuts|] == Ok(RolledBack) ==> root.now == ApplyAll(old(root.now), RollbackPlan(d.failed, d.good))
    ensures outcomes[|cuts|] == Ok(Failed) ==> Active in root.now && root.now[Active] == LinkText(d.good)
  {
    ghost var s, firm := root.now, Firm(root.store, root.settled);
    d := Decide(root.store, s, true).value;
    DecisionSurvives(firm, root.store, root.digest, s, true);
    assert s == After(s, d.Plan(), 0);
    var r := BootInside(root, s, d, firm);
    outcomes := [r];
    for i := 0 to |cuts|
      invariant Inside(root, s, d, firm) && |outcomes| == i + 1
      invariant forall j :: 0 <= j <= i ==> outcomes[j] != Ok(Proceed)
      invariant outcomes[i] == Ok(RolledBack) ==> root.now == ApplyAll(s, d.Plan())
      invariant outcomes[i] == Ok(Failed) ==> Active in root.now && root.now[Active] == LinkText(d.good)
    {
      CutInside(root, cuts[i], s, d, firm);
      r := BootInside(root, s, d, firm);
      outcomes := outcomes + [r];
    }
  }
}
